/** The game client's draft-pack order, reverse-engineered in
    src/ingame_overlay.py (`mtga_draft_sort_key` and the stable `sorted` in
    `_position_badges`): rarity, then lands last, then colour rank, then name. */
module DraftSort {

  import opened Wrappers
  import opened Text
  import opened ColourOrder

  /** A card as supplied per pack. A missing name reads as "", missing
      `types` and `colors` as empty lists; a missing rarity or
      `color_identity` is `None`. */
  datatype Card = Card(
    name: string,
    rarity: Option<string>,
    types: seq<string>,
    colours: seq<string>,
    identity: Option<seq<string>>)

  /** The tuple `(rarity, is_land, color_order, name)`. */
  datatype SortKey = SortKey(rarity: nat, land: nat, colour: nat, name: string)

  /** `_RARITY_ORDER.get(card.get("rarity", "common"), 3)`. */
  function RarityRank(rarity: Option<string>): (r: nat)
    ensures r <= 3
    ensures r == 0 <==> rarity == Some("mythic")
    ensures r == 1 <==> rarity == Some("rare")
    ensures r == 2 <==> rarity == Some("uncommon")
  {
    var s := rarity.GetOr("common");
    if s == "mythic" then 0
    else if s == "rare" then 1
    else if s == "uncommon" then 2
    else 3
  }

  /** `mtga_draft_sort_key`. A digit-only name is an unresolved basic land:
      it gets `(3, 1, 32, name)`, past every real colour rank. */
  function DraftSortKey(c: Card): (k: SortKey)
    ensures k.name == c.name
    ensures k.rarity <= 3 && k.land <= 1 && k.colour <= 32
    ensures k.colour == 32 <==> IsDigitString(c.name)
    ensures IsDigitString(c.name) ==> k.rarity == 3 && k.land == 1
    ensures !IsDigitString(c.name) ==> (k.land == 1 <==> "Land" in c.types)
    ensures !IsDigitString(c.name) ==> k.rarity == RarityRank(c.rarity)
    ensures !IsDigitString(c.name) ==> k.colour == ColourRank(CardColourFlags(c.types, c.colours, c.identity))
  {
    if IsDigitString(c.name) then SortKey(3, 1, 32, c.name)
    else
      SortKey(
        RarityRank(c.rarity),
        if "Land" in c.types then 1 else 0,
        ColourRank(CardColourFlags(c.types, c.colours, c.identity)),
        c.name)
  }

  /** Python's `<` on the key tuple: lexicographic, names compared as `str`. */
  predicate KeyLess(a: SortKey, b: SortKey) {
    a.rarity < b.rarity ||
    (a.rarity == b.rarity &&
      (a.land < b.land ||
        (a.land == b.land &&
          (a.colour < b.colour ||
            (a.colour == b.colour && StrLess(a.name, b.name))))))
  }

  lemma KeyLessIrreflexive(a: SortKey)
    ensures !KeyLess(a, a)
  {
    StrLessIrreflexive(a.name);
  }

  lemma KeyLessTransitive(a: SortKey, b: SortKey, c: SortKey)
    requires KeyLess(a, b) && KeyLess(b, c)
    ensures KeyLess(a, c)
  {
    if a.rarity == b.rarity == c.rarity && a.land == b.land == c.land && a.colour == b.colour == c.colour {
      StrLessTransitive(a.name, b.name, c.name);
    }
  }

  /** Keys are totally ordered: two different keys are always comparable. */
  lemma KeyLessTotal(a: SortKey, b: SortKey)
    requires a != b
    ensures KeyLess(a, b) || KeyLess(b, a)
  {
    if a.rarity == b.rarity && a.land == b.land && a.colour == b.colour {
      StrLessTotal(a.name, b.name);
    }
  }

  /** A card with a digit-only name sorts strictly after every other card,
      whatever the other card's rarity, types or colours. */
  lemma DigitNamedKeyIsLast(c: Card, d: Card)
    ensures !IsDigitString(c.name) && IsDigitString(d.name) ==>
              KeyLess(DraftSortKey(c), DraftSortKey(d)) && !KeyLess(DraftSortKey(d), DraftSortKey(c))
  {
  }

  /** Non-decreasing keys: no later card has a strictly smaller key. */
  ghost predicate SortedByKey(s: seq<Card>) {
    forall i, j :: 0 <= i < j < |s| ==> !KeyLess(DraftSortKey(s[j]), DraftSortKey(s[i]))
  }

  /** Inserts `x` in front of the first card whose key is not smaller, so that
      `x` stays ahead of the cards with an equal key. */
  function Insert(x: Card, t: seq<Card>): (r: seq<Card>)
    ensures |r| == |t| + 1
  {
    if |t| == 0 then [x]
    else if KeyLess(DraftSortKey(t[0]), DraftSortKey(x)) then [t[0]] + Insert(x, t[1..])
    else [x] + t
  }

  /** `sorted(pack, key=mtga_draft_sort_key)`: a stable sort by key. */
  function SortPack(s: seq<Card>): (r: seq<Card>)
    ensures |r| == |s|
  {
    if |s| == 0 then [] else Insert(s[0], SortPack(s[1..]))
  }

  lemma {:induction false} InsertPermutes(x: Card, t: seq<Card>)
    ensures multiset(Insert(x, t)) == multiset(t) + multiset{x}
    ensures |Insert(x, t)| == |t| + 1
    decreases |t|
  {
    if |t| > 0 {
      assert t == [t[0]] + t[1..];
      if KeyLess(DraftSortKey(t[0]), DraftSortKey(x)) {
        InsertPermutes(x, t[1..]);
      }
    }
  }

  /** Sorting only reorders the pack: same cards, same multiplicities. */
  lemma {:induction false} SortPackPermutes(s: seq<Card>)
    ensures multiset(SortPack(s)) == multiset(s)
    ensures |SortPack(s)| == |s|
    decreases |s|
  {
    if |s| > 0 {
      var r := SortPack(s[1..]);
      calc {
        multiset(SortPack(s));
        multiset(Insert(s[0], r));
        { InsertPermutes(s[0], r); }
        multiset(r) + multiset{s[0]};
        { SortPackPermutes(s[1..]); }
        multiset(s[1..]) + multiset{s[0]};
        { assert s == [s[0]] + s[1..]; }
        multiset(s);
      }
    }
  }

  /** A card no later card undercuts can go in front of a sorted pack. */
  lemma SortedCons(a: Card, r: seq<Card>)
    requires SortedByKey(r)
    requires forall e | e in r :: !KeyLess(DraftSortKey(e), DraftSortKey(a))
    ensures SortedByKey([a] + r)
  {
    var q := [a] + r;
    forall i, j | 0 <= i < j < |q|
      ensures !KeyLess(DraftSortKey(q[j]), DraftSortKey(q[i]))
    {
      assert q[j] == r[j - 1];
      if i > 0 {
        assert q[i] == r[i - 1];
      }
    }
  }

  /** No card of a sorted pack has a key below the head's. */
  lemma SortedHeadBound(t: seq<Card>)
    requires |t| > 0 && SortedByKey(t)
    ensures forall e | e in t[1..] :: !KeyLess(DraftSortKey(e), DraftSortKey(t[0]))
  {
    forall e | e in t[1..]
      ensures !KeyLess(DraftSortKey(e), DraftSortKey(t[0]))
    {
      var j :| 0 <= j < |t[1..]| && t[1..][j] == e;
      assert t[j + 1] == e;
    }
  }

  /** Inserting keeps a lower bound that `x` and all of `t` respect. */
  lemma InsertKeepsBound(x: Card, t: seq<Card>, k: SortKey)
    requires !KeyLess(DraftSortKey(x), k)
    requires forall e | e in t :: !KeyLess(DraftSortKey(e), k)
    ensures forall e | e in Insert(x, t) :: !KeyLess(DraftSortKey(e), k)
  {
    InsertPermutes(x, t);
    forall e | e in Insert(x, t)
      ensures !KeyLess(DraftSortKey(e), k)
    {
      assert e in multiset(Insert(x, t));
      if e != x {
        assert e in multiset(t);
      }
    }
  }

  /** When the head of a sorted pack does not undercut `x`, nothing in it does. */
  lemma SortedAboveHead(x: Card, t: seq<Card>)
    requires |t| > 0 && SortedByKey(t)
    requires !KeyLess(DraftSortKey(t[0]), DraftSortKey(x))
    ensures forall e | e in t :: !KeyLess(DraftSortKey(e), DraftSortKey(x))
  {
    var kx := DraftSortKey(x);
    var k0 := DraftSortKey(t[0]);
    SortedHeadBound(t);
    forall e | e in t
      ensures !KeyLess(DraftSortKey(e), kx)
    {
      var ke := DraftSortKey(e);
      if e != t[0] {
        assert e in t[1..] by {
          var j :| 0 <= j < |t| && t[j] == e;
          assert t[1..][j - 1] == e;
        }
        if KeyLess(ke, kx) && ke != k0 {
          KeyLessTotal(ke, k0);
          KeyLessTransitive(k0, ke, kx);
        }
      }
    }
  }

  lemma {:induction false} InsertSorted(x: Card, t: seq<Card>)
    requires SortedByKey(t)
    ensures SortedByKey(Insert(x, t))
    decreases |t|
  {
    var kx := DraftSortKey(x);
    if |t| == 0 {
    } else if KeyLess(DraftSortKey(t[0]), kx) {
      var k0 := DraftSortKey(t[0]);
      SortedTail(t);
      InsertSorted(x, t[1..]);
      SortedHeadBound(t);
      if KeyLess(kx, k0) {
        KeyLessTransitive(kx, k0, kx);
        KeyLessIrreflexive(kx);
      }
      InsertKeepsBound(x, t[1..], k0);
      SortedCons(t[0], Insert(x, t[1..]));
    } else {
      SortedAboveHead(x, t);
      SortedCons(x, t);
    }
  }

  /** The sorted pack has non-decreasing keys. */
  lemma {:induction false} SortPackSorted(s: seq<Card>)
    ensures SortedByKey(SortPack(s))
    decreases |s|
  {
    if |s| > 0 {
      SortPackSorted(s[1..]);
      InsertSorted(s[0], SortPack(s[1..]));
    }
  }

  /** The cards of `s` whose key is exactly `k`, in their order in `s`. */
  function KeyFilter(s: seq<Card>, k: SortKey): seq<Card>
  {
    if |s| == 0 then []
    else (if DraftSortKey(s[0]) == k then [s[0]] else []) + KeyFilter(s[1..], k)
  }

  lemma {:induction false} InsertKeyFilter(x: Card, t: seq<Card>, k: SortKey)
    ensures KeyFilter(Insert(x, t), k) == (if DraftSortKey(x) == k then [x] else []) + KeyFilter(t, k)
    decreases |t|
  {
    if |t| > 0 {
      if KeyLess(DraftSortKey(t[0]), DraftSortKey(x)) {
        InsertKeyFilter(x, t[1..], k);
        var ins := Insert(x, t[1..]);
        assert ([t[0]] + ins)[1..] == ins;
        if DraftSortKey(t[0]) == k && DraftSortKey(x) == k {
          KeyLessIrreflexive(k);
        }
      } else {
        assert ([x] + t)[1..] == t;
      }
    }
  }

  /** Stability: among cards with equal keys, sorting keeps their relative
      order. */
  lemma {:induction false} SortPackStable(s: seq<Card>, k: SortKey)
    ensures KeyFilter(SortPack(s), k) == KeyFilter(s, k)
    decreases |s|
  {
    if |s| > 0 {
      SortPackStable(s[1..], k);
      InsertKeyFilter(s[0], SortPack(s[1..]), k);
    }
  }

  /** Re-sorting an already sorted pack returns it unchanged. */
  lemma {:induction false} SortPackOfSorted(s: seq<Card>)
    requires SortedByKey(s)
    ensures SortPack(s) == s
    decreases |s|
  {
    if |s| > 0 {
      assert SortedByKey(s[1..]) by {
        forall i, j | 0 <= i < j < |s[1..]|
          ensures !KeyLess(DraftSortKey(s[1..][j]), DraftSortKey(s[1..][i]))
        {
          assert s[1..][i] == s[i + 1] && s[1..][j] == s[j + 1];
        }
      }
      SortPackOfSorted(s[1..]);
      if |s| > 1 {
        assert s[1..][0] == s[1];
      }
      assert [s[0]] + s[1..] == s;
    }
  }

  /** Sorting is idempotent. */
  lemma SortPackIdempotent(s: seq<Card>)
    ensures SortPack(SortPack(s)) == SortPack(s)
  {
    SortPackSorted(s);
    SortPackOfSorted(SortPack(s));
  }

  /** In a sorted pack, every digit-named card comes after every other card. */
  lemma DigitNamedCardsSortLast(s: seq<Card>)
    ensures forall i, j :: 0 <= i < j < |SortPack(s)| && IsDigitString(SortPack(s)[i].name)
              ==> IsDigitString(SortPack(s)[j].name)
  {
    var r := SortPack(s);
    SortPackSorted(s);
    forall i, j | 0 <= i < j < |r| && IsDigitString(r[i].name)
      ensures IsDigitString(r[j].name)
    {
      DigitNamedKeyIsLast(r[j], r[i]);
    }
  }

  lemma SortedTail(s: seq<Card>)
    requires |s| > 0 && SortedByKey(s)
    ensures SortedByKey(s[1..])
  {
    forall i, j | 0 <= i < j < |s[1..]|
      ensures !KeyLess(DraftSortKey(s[1..][j]), DraftSortKey(s[1..][i]))
    {
      assert s[1..][i] == s[i + 1] && s[1..][j] == s[j + 1];
    }
  }

  lemma {:induction false} KeyFilterWitness(s: seq<Card>, k: SortKey)
    requires |KeyFilter(s, k)| > 0
    ensures exists j :: 0 <= j < |s| && DraftSortKey(s[j]) == k
    decreases |s|
  {
    if DraftSortKey(s[0]) != k {
      KeyFilterWitness(s[1..], k);
      var j :| 0 <= j < |s[1..]| && DraftSortKey(s[1..][j]) == k;
      assert s[j + 1] == s[1..][j];
    }
  }

  lemma HeadKeyFilterNonEmpty(s: seq<Card>)
    ensures |s| > 0 ==> KeyFilter(s, DraftSortKey(s[0])) != []
  {
  }

  /** In a sorted sequence no card has a key below the first card's key. */
  lemma SortedHeadIsLeast(s: seq<Card>, k: SortKey)
    requires |s| > 0 && SortedByKey(s) && |KeyFilter(s, k)| > 0
    ensures !KeyLess(k, DraftSortKey(s[0]))
  {
    KeyFilterWitness(s, k);
    var j :| 0 <= j < |s| && DraftSortKey(s[j]) == k;
    if j > 0 {
      assert !KeyLess(DraftSortKey(s[j]), DraftSortKey(s[0]));
    } else {
      KeyLessIrreflexive(k);
    }
  }

  /** Two sorted sequences that agree on every key's sub-sequence are equal. */
  lemma {:induction false} SortedSameFiltersEqual(r: seq<Card>, t: seq<Card>)
    requires SortedByKey(r) && SortedByKey(t)
    requires forall k :: KeyFilter(r, k) == KeyFilter(t, k)
    ensures r == t
    decreases |r|
  {
    if |r| == 0 && |t| == 0 {
    } else if |r| == 0 || |t| == 0 {
      HeadKeyFilterNonEmpty(r);
      HeadKeyFilterNonEmpty(t);
      assert false;
    } else {
      var kr := DraftSortKey(r[0]);
      var kt := DraftSortKey(t[0]);
      assert KeyFilter(r, kr) == [r[0]] + KeyFilter(r[1..], kr);
      assert KeyFilter(t, kt) == [t[0]] + KeyFilter(t[1..], kt);
      SortedHeadIsLeast(t, kr);
      SortedHeadIsLeast(r, kt);
      if kr != kt {
        KeyLessTotal(kr, kt);
      }
      assert kr == kt;
      assert r[0] == KeyFilter(r, kr)[0] == KeyFilter(t, kr)[0] == t[0];
      forall k
        ensures KeyFilter(r[1..], k) == KeyFilter(t[1..], k)
      {
        assert KeyFilter(r, k) == KeyFilter(t, k);
        if kr == k {
          assert KeyFilter(r, k) == [r[0]] + KeyFilter(r[1..], k);
          assert KeyFilter(t, k) == [t[0]] + KeyFilter(t[1..], k);
          assert KeyFilter(r[1..], k) == KeyFilter(r, k)[1..];
          assert KeyFilter(t[1..], k) == KeyFilter(t, k)[1..];
        } else {
          assert KeyFilter(r, k) == KeyFilter(r[1..], k);
          assert KeyFilter(t, k) == KeyFilter(t[1..], k);
        }
      }
      SortedTail(r);
      SortedTail(t);
      SortedSameFiltersEqual(r[1..], t[1..]);
      assert r == [r[0]] + r[1..] && t == [t[0]] + t[1..];
    }
  }

  /** The stable sort is the only arrangement of the pack that is sorted by
      key and keeps equal-key cards in their original order: `SortPack`
      computes exactly what Python's `sorted` specifies. */
  lemma SortPackIsTheStableSort(s: seq<Card>, r: seq<Card>)
    requires SortedByKey(r)
    requires forall k :: KeyFilter(r, k) == KeyFilter(s, k)
    ensures r == SortPack(s)
  {
    SortPackSorted(s);
    forall k
      ensures KeyFilter(r, k) == KeyFilter(SortPack(s), k)
    {
      SortPackStable(s, k);
    }
    SortedSameFiltersEqual(r, SortPack(s));
  }
}
