/** `MLRatingCalculator` (src/ml_rating.py): the pool vector, the pack vector,
    score normalisation and the current-ratings state. Inference and the
    logistic curve are inputs: `infer` stands for running the session (`None`
    when it raises) and `scale(x, mean, variance)` for
    `round(100 / (1 + exp(-1.2 * (x - mean) / std)), 1)`. Scores are exact
    reals. */
module Ratings {

  import opened Wrappers
  import opened ModelStore

  /** The index of the first occurrence: `names.index(name)`. */
  function FirstIndex(names: seq<string>, name: string): (i: nat)
    requires name in names
    ensures i < |names| && names[i] == name
    ensures forall j :: 0 <= j < i ==> names[j] != name
  {
    if names[0] == name then 0 else 1 + FirstIndex(names[1..], name)
  }

  /** How many pool entries name a card of the vocabulary. */
  function InVocabulary(pool: seq<string>, vocab: seq<string>): nat
  {
    if |pool| == 0 then 0
    else InVocabulary(pool[..|pool| - 1], vocab) + (if pool[|pool| - 1] in vocab then 1 else 0)
  }

  function Total(v: seq<nat>): nat
  {
    if |v| == 0 then 0 else v[0] + Total(v[1..])
  }

  /** The pool loop of `compute_ratings`: each pool name in the vocabulary
      adds one at its first vocabulary index. Entry `i` counts the pool's
      copies of `vocab[i]` when `i` is that name's first index, else 0. */
  function CollectionVector(pool: seq<string>, vocab: seq<string>): (v: seq<nat>)
    ensures |v| == |vocab|
    ensures forall i :: 0 <= i < |vocab| ==>
      v[i] == if FirstIndex(vocab, vocab[i]) == i then multiset(pool)[vocab[i]] else 0
  {
    if |pool| == 0 then seq(|vocab|, _ => 0)
    else
      var prefix := pool[..|pool| - 1];
      var name := pool[|pool| - 1];
      var v := CollectionVector(prefix, vocab);
      assert pool == prefix + [name];
      if name in vocab then
        var k := FirstIndex(vocab, name);
        v[k := v[k] + 1]
      else v
  }

  lemma {:induction false} TotalIncrement(v: seq<nat>, k: nat)
    requires k < |v|
    ensures Total(v[k := v[k] + 1]) == Total(v) + 1
    decreases |v|
  {
    if k > 0 {
      TotalIncrement(v[1..], k - 1);
      assert v[k := v[k] + 1][1..] == v[1..][k - 1 := v[1..][k - 1] + 1];
    }
  }

  lemma {:induction false} TotalOfZeros(n: nat)
    ensures Total(seq(n, _ => 0)) == 0
  {
    if n > 0 {
      assert seq(n, _ => 0)[1..] == seq(n - 1, _ => 0);
      TotalOfZeros(n - 1);
    }
  }

  /** The vector's entries add up to the number of pool names found in the
      vocabulary: nothing is lost and names outside it are ignored. */
  lemma {:induction false} CollectionVectorTotal(pool: seq<string>, vocab: seq<string>)
    ensures Total(CollectionVector(pool, vocab)) == InVocabulary(pool, vocab)
    decreases |pool|
  {
    if |pool| == 0 {
      TotalOfZeros(|vocab|);
    } else {
      var prefix := pool[..|pool| - 1];
      var name := pool[|pool| - 1];
      CollectionVectorTotal(prefix, vocab);
      if name in vocab {
        TotalIncrement(CollectionVector(prefix, vocab), FirstIndex(vocab, name));
      }
    }
  }

  /** `np.ones`: every vocabulary card is under consideration. */
  function PackVector(vocab: seq<string>): (v: seq<nat>)
    ensures |v| == |vocab| && forall i :: 0 <= i < |v| ==> v[i] == 1
  {
    seq(|vocab|, _ => 1)
  }

  function Sum(xs: seq<real>): real
  {
    if |xs| == 0 then 0.0 else xs[0] + Sum(xs[1..])
  }

  function Mean(xs: seq<real>): real
  {
    if |xs| == 0 then 0.0 else Sum(xs) / |xs| as real
  }

  function Square(d: real): real
  {
    d * d
  }

  function SquaredDeviations(xs: seq<real>, m: real): real
  {
    if |xs| == 0 then 0.0 else Square(xs[0] - m) + SquaredDeviations(xs[1..], m)
  }

  /** Population variance (`np.std` squared, `ddof=0`); 0 for no scores. */
  function Variance(xs: seq<real>): real
  {
    if |xs| == 0 then 0.0 else SquaredDeviations(xs, Mean(xs)) / |xs| as real
  }

  predicate AllEqual(xs: seq<real>) {
    forall i :: 0 <= i < |xs| ==> xs[i] == xs[0]
  }

  lemma {:induction false} SumOfEqual(xs: seq<real>, c: real)
    requires forall i :: 0 <= i < |xs| ==> xs[i] == c
    ensures Sum(xs) == |xs| as real * c
    decreases |xs|
  {
    if |xs| > 0 {
      SumOfEqual(xs[1..], c);
    }
  }

  lemma {:induction false} SquaredDeviationsOfEqual(xs: seq<real>, c: real)
    requires forall i :: 0 <= i < |xs| ==> xs[i] == c
    ensures SquaredDeviations(xs, c) == 0.0
    decreases |xs|
  {
    if |xs| > 0 {
      SquaredDeviationsOfEqual(xs[1..], c);
    }
  }

  lemma {:induction false} SquaredDeviationsBound(xs: seq<real>, m: real, k: nat)
    requires k < |xs|
    ensures SquaredDeviations(xs, m) >= Square(xs[k] - m)
    decreases |xs|
  {
    SquaredDeviationsNonNegative(xs[1..], m);
    if k > 0 {
      SquareNonNegative(xs[0] - m);
      assert xs[1..][k - 1] == xs[k];
      SquaredDeviationsBound(xs[1..], m, k - 1);
    }
  }

  lemma {:induction false} SquaredDeviationsNonNegative(xs: seq<real>, m: real)
    ensures SquaredDeviations(xs, m) >= 0.0
    decreases |xs|
  {
    if |xs| > 0 {
      SquaredDeviationsNonNegative(xs[1..], m);
      SquareNonNegative(xs[0] - m);
    }
  }

  lemma SquareNonNegative(d: real)
    ensures Square(d) >= 0.0
  {
    if d < 0.0 {
      assert Square(d) == Square(-d);
    }
  }

  lemma SquarePositive(d: real)
    requires d != 0.0
    ensures Square(d) > 0.0
  {
    if d > 0.0 {
      calc {
        Square(d);
        d * d;
      > 0.0;
      }
    } else {
      calc {
        Square(d);
        (-d) * (-d);
      > 0.0;
      }
    }
  }

  lemma QuotientPositive(a: real, b: real)
    requires a > 0.0 && b > 0.0
    ensures a / b > 0.0
  {
  }

  lemma ScaleCancels(n: real, c: real)
    requires n > 0.0
    ensures n * c / n == c
  {
  }

  /** The standard deviation is positive exactly when the scores are not all
      equal, so `std > 0` separates the logistic branch from the flat one. */
  lemma VariancePositiveIffSpread(xs: seq<real>)
    ensures Variance(xs) > 0.0 <==> !AllEqual(xs)
  {
    if |xs| > 0 {
      if AllEqual(xs) {
        SumOfEqual(xs, xs[0]);
        ScaleCancels(|xs| as real, xs[0]);
        assert Mean(xs) == xs[0];
        SquaredDeviationsOfEqual(xs, xs[0]);
      } else {
        var m := Mean(xs);
        var j :| 0 <= j < |xs| && xs[j] != xs[0];
        var k := if xs[0] != m then 0 else j;
        assert xs[k] != m;
        SquaredDeviationsBound(xs, m, k);
        SquarePositive(xs[k] - m);
        QuotientPositive(SquaredDeviations(xs, m), |xs| as real);
      }
    }
  }

  /** The score normalisation: through `scale` when the scores spread, 50.0
      for every card when they are uniform. */
  function Normalize(raw: seq<real>, scale: (real, real, real) -> real): (r: seq<real>)
    ensures |r| == |raw|
    ensures AllEqual(raw) ==> forall i :: 0 <= i < |r| ==> r[i] == 50.0
    ensures !AllEqual(raw) ==> forall i :: 0 <= i < |r| ==> r[i] == scale(raw[i], Mean(raw), Variance(raw))
  {
    VariancePositiveIffSpread(raw);
    if Variance(raw) > 0.0 then seq(|raw|, i requires 0 <= i < |raw| => scale(raw[i], Mean(raw), Variance(raw)))
    else seq(|raw|, _ => 50.0)
  }

  /** Whether `name` occurs in `names` after position `i`. */
  predicate OccursAfter(names: seq<string>, i: nat, name: string) {
    exists j :: i < j < |names| && names[j] == name
  }

  /** `{name: values[i] for i, name in enumerate(names)}`: one entry per
      distinct name; `ZipToMapLastOccurrence` says which value it holds. */
  function ZipToMap(names: seq<string>, values: seq<real>): (m: map<string, real>)
    requires |values| >= |names|
    ensures m.Keys == set n | n in names
  {
    if |names| == 0 then map[]
    else
      var n := |names| - 1;
      assert names == names[..n] + [names[n]];
      ZipToMap(names[..n], values)[names[n] := values[n]]
  }

  /** A later duplicate overwrites an earlier one: each name maps to the value
      at its last occurrence. */
  lemma {:induction false} ZipToMapLastOccurrence(names: seq<string>, values: seq<real>, i: nat)
    requires |values| >= |names| && i < |names|
    requires !OccursAfter(names, i, names[i])
    ensures names[i] in ZipToMap(names, values)
    ensures ZipToMap(names, values)[names[i]] == values[i]
    decreases |names|
  {
    var n := |names| - 1;
    if i < n {
      var prefix := names[..n];
      assert prefix[i] == names[i];
      assert names[i] != names[n];
      assert !OccursAfter(prefix, i, prefix[i]) by {
        forall j | i < j < |prefix|
          ensures prefix[j] != prefix[i]
        {
          assert prefix[j] == names[j];
        }
      }
      ZipToMapLastOccurrence(prefix, values, i);
    }
  }

  /** Every value in the map comes from `values`; so constant values give a
      constant map. */
  lemma {:induction false} ZipToMapConstant(names: seq<string>, values: seq<real>, c: real)
    requires |values| >= |names|
    requires forall i :: 0 <= i < |values| ==> values[i] == c
    ensures forall n :: n in ZipToMap(names, values) ==> ZipToMap(names, values)[n] == c
    decreases |names|
  {
    if |names| > 0 {
      ZipToMapConstant(names[..|names| - 1], values, c);
    }
  }

  /** The calculator: its manager and the ratings of the last successful
      computation, with their set and mode. */
  datatype Calculator = Calculator(manager: Manager, current: map<string, real>, currentSet: string, currentMode: string)

  /** What `compute_ratings` returns, with the calculator afterwards. */
  datatype Rated = Rated(calculator: Calculator, ratings: map<string, real>)

  function NewCalculator(m: Manager): (c: Calculator)
    ensures c.manager == m && c.current == map[]
  {
    Calculator(m, map[], "", "")
  }

  /** `compute_ratings`. Every failure returns `{}` and leaves the current
      ratings alone. Whatever `get_model` and `get_cardnames` cached on the
      way stays cached, whether the call succeeds or fails: the manager
      afterwards is the one the last of those two calls left. */
  function ComputeRatings(
    c: Calculator, disk: Disk, onnxAvailable: bool,
    infer: (Session, seq<nat>, seq<nat>) -> Option<seq<real>>,
    scale: (real, real, real) -> real,
    pool: seq<string>, setCode: string, mode: string): (r: Rated)
    ensures r.calculator.manager.directory == c.manager.directory
    ensures var model := GetModel(c.manager, disk, onnxAvailable, setCode, mode);
      r.calculator.manager ==
        if !onnxAvailable then c.manager
        else if model.value.None? then model.manager
        else GetCardNames(model.manager, disk, setCode).manager
    ensures
      || (r.ratings == map[] && r.calculator == c.(manager := r.calculator.manager))
      || (&& r.calculator.current == r.ratings
          && r.calculator.currentSet == setCode && r.calculator.currentMode == mode
          && setCode in r.calculator.manager.cardNames
          && r.ratings.Keys == set n | n in r.calculator.manager.cardNames[setCode])
  {
    if !onnxAvailable then Rated(c, map[])
    else
      var model := GetModel(c.manager, disk, onnxAvailable, setCode, mode);
      if model.value.None? then Rated(c.(manager := model.manager), map[])
      else
        var names := GetCardNames(model.manager, disk, setCode);
        var c1 := c.(manager := names.manager);
        if names.value.None? then Rated(c1, map[])
        else
          var vocab := names.value.value;
          match infer(model.value.value, CollectionVector(pool, vocab), PackVector(vocab))
          case None => Rated(c1, map[])
          case Some(raw) =>
            if |raw| < |vocab| then Rated(c1, map[])
            else
              var ratings := ZipToMap(vocab, Normalize(raw, scale));
              Rated(Calculator(names.manager, ratings, setCode, mode), ratings)
  }

  /** When inference yields uniform scores every rated card gets 50.0. */
  lemma UniformScoresRateFifty(
    c: Calculator, disk: Disk, onnxAvailable: bool,
    infer: (Session, seq<nat>, seq<nat>) -> Option<seq<real>>,
    scale: (real, real, real) -> real,
    pool: seq<string>, setCode: string, mode: string)
    requires forall s, a, b :: infer(s, a, b).Some? ==> AllEqual(infer(s, a, b).value)
    ensures var r := ComputeRatings(c, disk, onnxAvailable, infer, scale, pool, setCode, mode);
      forall n :: n in r.ratings ==> r.ratings[n] == 50.0
  {
    var model := GetModel(c.manager, disk, onnxAvailable, setCode, mode);
    var names := GetCardNames(model.manager, disk, setCode);
    if onnxAvailable && model.value.Some? && names.value.Some? {
      var vocab := names.value.value;
      var out := infer(model.value.value, CollectionVector(pool, vocab), PackVector(vocab));
      if out.Some? && |out.value| >= |vocab| {
        ZipToMapConstant(vocab, Normalize(out.value, scale), 50.0);
      }
    }
  }

  /** When the session loads, the card list is read and inference yields a
      score per card, `compute_ratings` succeeds: the ratings are the
      normalised scores zipped with the card names (the last occurrence of a
      repeated name wins), they become the current ratings tagged with the
      set and mode, the manager keeps the session and card list it loaded, and
      every card of the set has a rating. */
  lemma ComputeRatingsSucceeds(
    c: Calculator, disk: Disk,
    infer: (Session, seq<nat>, seq<nat>) -> Option<seq<real>>,
    scale: (real, real, real) -> real,
    pool: seq<string>, setCode: string, mode: string,
    session: Session, vocab: seq<string>, raw: seq<real>)
    requires GetModel(c.manager, disk, true, setCode, mode).value == Some(session)
    requires GetCardNames(GetModel(c.manager, disk, true, setCode, mode).manager, disk, setCode).value == Some(vocab)
    requires infer(session, CollectionVector(pool, vocab), PackVector(vocab)) == Some(raw)
    requires |raw| >= |vocab|
    ensures var r := ComputeRatings(c, disk, true, infer, scale, pool, setCode, mode);
      && r.ratings == ZipToMap(vocab, Normalize(raw, scale))
      && r.calculator.current == r.ratings
      && r.calculator.currentSet == setCode && r.calculator.currentMode == mode
    ensures var r := ComputeRatings(c, disk, true, infer, scale, pool, setCode, mode);
      r.calculator.manager == GetCardNames(GetModel(c.manager, disk, true, setCode, mode).manager, disk, setCode).manager
    ensures var r := ComputeRatings(c, disk, true, infer, scale, pool, setCode, mode);
      forall n :: n in vocab ==> GetRating(r.calculator, n).Some?
    ensures var r := ComputeRatings(c, disk, true, infer, scale, pool, setCode, mode);
      forall i :: 0 <= i < |vocab| && !OccursAfter(vocab, i, vocab[i]) ==>
        GetRating(r.calculator, vocab[i]) == Some(Normalize(raw, scale)[i])
  {
    var values := Normalize(raw, scale);
    forall i | 0 <= i < |vocab| && !OccursAfter(vocab, i, vocab[i])
      ensures vocab[i] in ZipToMap(vocab, values) && ZipToMap(vocab, values)[vocab[i]] == values[i]
    {
      ZipToMapLastOccurrence(vocab, values, i);
    }
  }

  /** Every way `compute_ratings` can fail returns `{}` and leaves the
      calculator's ratings, set and mode as they were: ONNX missing, no
      session, no card list, inference raising, or fewer scores than cards
      (the `IndexError` caught by the handler). The manager is the one
      `get_model` left, or `get_cardnames` after it once a session loaded. */
  lemma ComputeRatingsFails(
    c: Calculator, disk: Disk, onnxAvailable: bool,
    infer: (Session, seq<nat>, seq<nat>) -> Option<seq<real>>,
    scale: (real, real, real) -> real,
    pool: seq<string>, setCode: string, mode: string)
    ensures var model := GetModel(c.manager, disk, onnxAvailable, setCode, mode);
      var names := GetCardNames(model.manager, disk, setCode);
      var r := ComputeRatings(c, disk, onnxAvailable, infer, scale, pool, setCode, mode);
      (|| !onnxAvailable
       || model.value.None?
       || names.value.None?
       || (var out := infer(model.value.value, CollectionVector(pool, names.value.value), PackVector(names.value.value));
           out.None? || |out.value| < |names.value.value|))
      ==> && r.ratings == map[]
          && r.calculator == c.(manager := r.calculator.manager)
          && r.calculator.manager ==
               if !onnxAvailable then c.manager
               else if model.value.None? then model.manager
               else names.manager
  {
  }

  /** When inference yields equal scores for a successful computation, every
      card of the set is rated 50.0. */
  lemma UniformScoresRateWholeVocabulary(
    c: Calculator, disk: Disk,
    infer: (Session, seq<nat>, seq<nat>) -> Option<seq<real>>,
    scale: (real, real, real) -> real,
    pool: seq<string>, setCode: string, mode: string,
    session: Session, vocab: seq<string>, raw: seq<real>)
    requires GetModel(c.manager, disk, true, setCode, mode).value == Some(session)
    requires GetCardNames(GetModel(c.manager, disk, true, setCode, mode).manager, disk, setCode).value == Some(vocab)
    requires infer(session, CollectionVector(pool, vocab), PackVector(vocab)) == Some(raw)
    requires |raw| >= |vocab| && AllEqual(raw)
    ensures var r := ComputeRatings(c, disk, true, infer, scale, pool, setCode, mode);
      forall n :: n in vocab ==> n in r.ratings && r.ratings[n] == 50.0
  {
    ComputeRatingsSucceeds(c, disk, infer, scale, pool, setCode, mode, session, vocab, raw);
    ZipToMapConstant(vocab, Normalize(raw, scale), 50.0);
  }

  /** With no model file for the requested mode (nor, for Premier, for
      PickTwo) and nothing cached, `compute_ratings` returns `{}` and changes
      nothing, so asking again gives `{}` again. */
  lemma UnresolvableContextStaysEmpty(
    c: Calculator, disk: Disk,
    infer: (Session, seq<nat>, seq<nat>) -> Option<seq<real>>,
    scale: (real, real, real) -> real,
    pool: seq<string>, setCode: string, mode: string)
    requires CacheKey(setCode, mode) !in c.manager.sessions
    requires forall md :: md in ModesToTry(mode) ==> ModelPath(c.manager.directory, setCode, md) !in disk.models
    ensures ComputeRatings(c, disk, true, infer, scale, pool, setCode, mode) == Rated(c, map[])
    ensures var again := ComputeRatings(c, disk, true, infer, scale, pool, setCode, mode).calculator;
      ComputeRatings(again, disk, true, infer, scale, pool, setCode, mode) == Rated(c, map[])
  {
    var modes := ModesToTry(mode);
    var key := CacheKey(setCode, mode);
    var m := c.manager;
    assert modes[0] in modes;
    if mode == "Premier" {
      assert modes[1] in modes;
      assert modes[1..] == ["PickTwo"] && modes[1..][1..] == [];
      assert TryModes(m, disk, setCode, key, modes) == TryModes(m, disk, setCode, key, ["PickTwo"]);
    } else {
      assert modes[1..] == [];
    }
  }

  /** On success the result has one entry per vocabulary name, and a
      non-empty vocabulary makes `has_ratings` true. */
  lemma SuccessRatesWholeVocabulary(
    c: Calculator, disk: Disk,
    infer: (Session, seq<nat>, seq<nat>) -> Option<seq<real>>,
    scale: (real, real, real) -> real,
    pool: seq<string>, setCode: string, mode: string)
    requires var r := ComputeRatings(c, disk, true, infer, scale, pool, setCode, mode);
      r.ratings != map[]
    ensures var r := ComputeRatings(c, disk, true, infer, scale, pool, setCode, mode);
      && HasRatings(r.calculator)
      && forall n :: n in r.calculator.manager.cardNames[setCode] ==> GetRating(r.calculator, n).Some?
  {
  }

  /** `get_rating`. */
  function GetRating(c: Calculator, name: string): (r: Option<real>)
    ensures r.Some? <==> name in c.current
    ensures r.Some? ==> r.value == c.current[name]
  {
    Lookup(c.current, name)
  }

  /** `has_ratings`. */
  predicate HasRatings(c: Calculator) {
    |c.current| > 0
  }

  /** `clear_ratings`. */
  function ClearRatings(c: Calculator): (r: Calculator)
    ensures r.manager == c.manager
    ensures r.current == map[] && r.currentSet == "" && r.currentMode == ""
  {
    Calculator(c.manager, map[], "", "")
  }

  /** After clearing, there are no ratings and no card has one. */
  lemma ClearRatingsForgetsAll(c: Calculator)
    ensures !HasRatings(ClearRatings(c))
    ensures forall n :: GetRating(ClearRatings(c), n) == None
  {
  }

  /** `has_ratings` is true exactly when some card has a rating. */
  lemma HasRatingsIffSomeRating(c: Calculator)
    ensures HasRatings(c) <==> exists n :: GetRating(c, n).Some?
  {
    if HasRatings(c) {
      var n :| n in c.current;
      assert GetRating(c, n).Some?;
    }
  }
}
