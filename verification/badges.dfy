/** One rating badge: its tier colours, its label and its visibility
    (src/ingame_overlay.py, `_tier_colors` and `RatingBadge`). Window
    creation, geometry strings and click-through styling are not modelled. */
module Badges {

  import opened Wrappers
  import opened Text

  /** (background, foreground) colour strings. */
  type ColourPair = (string, string)

  /** The colour reserved for the best card in the pack. */
  const BestColours: ColourPair := ("#FFD700", "#000000")

  /** Tier boundaries, highest first. */
  const Thresholds: seq<real> := [90.0, 75.0, 65.0, 58.0, 52.0, 45.0, 30.0]

  /** Tier colours, from the top tier (90 and above) down to the bottom one
      (below 30). */
  const Palette: seq<ColourPair> := [
    ("#FF4500", "#FFFFFF"),
    ("#22AA22", "#FFFFFF"),
    ("#3399DD", "#FFFFFF"),
    ("#5577AA", "#FFFFFF"),
    ("#778899", "#FFFFFF"),
    ("#888888", "#FFFFFF"),
    ("#AA4444", "#FFFFFF"),
    ("#553333", "#998888")
  ]

  /** `_tier_colors(rating, is_best)`. */
  function TierColours(rating: real, isBest: bool): ColourPair
  {
    if isBest then BestColours
    else if rating >= 90.0 then ("#FF4500", "#FFFFFF")
    else if rating >= 75.0 then ("#22AA22", "#FFFFFF")
    else if rating >= 65.0 then ("#3399DD", "#FFFFFF")
    else if rating >= 58.0 then ("#5577AA", "#FFFFFF")
    else if rating >= 52.0 then ("#778899", "#FFFFFF")
    else if rating >= 45.0 then ("#888888", "#FFFFFF")
    else if rating >= 30.0 then ("#AA4444", "#FFFFFF")
    else ("#553333", "#998888")
  }

  /** How many tier boundaries lie strictly above `rating`. */
  function BoundariesAbove(ts: seq<real>, rating: real): (k: nat)
    ensures k <= |ts|
  {
    if |ts| == 0 then 0
    else (if rating < ts[0] then 1 else 0) + BoundariesAbove(ts[1..], rating)
  }

  /** The tier step function is the palette indexed by the number of
      boundaries above the rating; the best-in-pack flag overrides it. */
  lemma TierColoursIsStepFunction(rating: real, isBest: bool)
    ensures isBest ==> TierColours(rating, isBest) == BestColours
    ensures !isBest ==> TierColours(rating, isBest) == Palette[BoundariesAbove(Thresholds, rating)]
  {
    var t := Thresholds;
    var b0 := BoundariesAbove([], rating);
    var b1 := BoundariesAbove([30.0], rating);
    var b2 := BoundariesAbove([45.0, 30.0], rating);
    var b3 := BoundariesAbove([52.0, 45.0, 30.0], rating);
    var b4 := BoundariesAbove([58.0, 52.0, 45.0, 30.0], rating);
    var b5 := BoundariesAbove([65.0, 58.0, 52.0, 45.0, 30.0], rating);
    var b6 := BoundariesAbove([75.0, 65.0, 58.0, 52.0, 45.0, 30.0], rating);
    assert [30.0][1..] == [];
    assert [45.0, 30.0][1..] == [30.0];
    assert [52.0, 45.0, 30.0][1..] == [45.0, 30.0];
    assert [58.0, 52.0, 45.0, 30.0][1..] == [52.0, 45.0, 30.0];
    assert [65.0, 58.0, 52.0, 45.0, 30.0][1..] == [58.0, 52.0, 45.0, 30.0];
    assert [75.0, 65.0, 58.0, 52.0, 45.0, 30.0][1..] == [65.0, 58.0, 52.0, 45.0, 30.0];
    assert t[1..] == [75.0, 65.0, 58.0, 52.0, 45.0, 30.0];
  }

  /** A higher rating never lands in a lower tier. */
  lemma {:induction false} BoundariesAboveAntitone(ts: seq<real>, a: real, b: real)
    requires a <= b
    ensures BoundariesAbove(ts, b) <= BoundariesAbove(ts, a)
    decreases |ts|
  {
    if |ts| > 0 {
      BoundariesAboveAntitone(ts[1..], a, b);
    }
  }

  /** Only the best-in-pack flag yields the gold colour pair. */
  lemma BestColoursReserved(rating: real, isBest: bool)
    ensures TierColours(rating, isBest) == BestColours <==> isBest
  {
  }

  /** What a shown badge displays: its position, rating, tier colours, and
      in debug mode the card's index and name cut to ten characters. */
  datatype Shown = Shown(x: int, y: int, rating: real, best: bool, colours: ColourPair, debug: Option<(nat, string)>)

  /** A badge: whether its window is on screen, and what it last displayed
      (`None` until first shown). */
  datatype Badge = Badge(visible: bool, content: Option<Shown>)

  /** A freshly created badge is withdrawn and blank. */
  const NewBadge := Badge(false, None)

  /** `name[:10] if len(name) > 10 else name`. */
  function ShortName(name: string): (s: string)
    ensures |s| == if |name| > 10 then 10 else |name|
    ensures s == name[..|s|]
  {
    if |name| > 10 then name[..10] else name
  }

  /** `RatingBadge.show`: the badge becomes visible with the new content. */
  function Show(b: Badge, x: int, y: int, rating: real, isBest: bool, debugInfo: Option<(nat, string)>): (r: Badge)
    ensures r.visible
    ensures r.content.Some? && r.content.value.x == x && r.content.value.y == y
    ensures r.content.value.rating == rating && r.content.value.best == isBest
    ensures r.content.value.colours == TierColours(rating, isBest)
    ensures debugInfo.None? <==> r.content.value.debug.None?
    ensures debugInfo.Some? ==>
      (r.content.value.debug.value.0 == debugInfo.value.0 &&
       r.content.value.debug.value.1 == ShortName(debugInfo.value.1))
  {
    var debug := match debugInfo
      case None => None
      case Some((idx, name)) => Some((idx, ShortName(name)));
    Badge(true, Some(Shown(x, y, rating, isBest, TierColours(rating, isBest), debug)))
  }

  /** `RatingBadge.hide`: withdrawn, keeping what it last displayed. */
  function Hide(b: Badge): (r: Badge)
    ensures !r.visible
    ensures r.content == b.content
  {
    b.(visible := false)
  }

  /** The label text. `formatRating` renders `f"{rating:.1f}"`; in debug mode
      `" [idx:short_name]"` follows. */
  function LabelText(s: Shown, formatRating: real -> string): (t: string)
  {
    var main := formatRating(s.rating);
    match s.debug
    case None => main
    case Some((idx, short)) => main + " [" + NatToString(idx) + ":" + short + "]"
  }

  /** The label starts with the formatted rating; in debug mode the rest reads
      back as the card's index and its short name. */
  lemma LabelTextParts(s: Shown, formatRating: real -> string)
    requires s.debug.Some?
    ensures var t := LabelText(s, formatRating);
      var main := formatRating(s.rating);
      var digits := NatToString(s.debug.value.0);
      && t[..|main|] == main
      && t[|main|..|main| + 2] == " ["
      && DecimalValue(t[|main| + 2..|main| + 2 + |digits|]) == s.debug.value.0
      && t[|main| + 2 + |digits|] == ':'
      && t[|main| + 3 + |digits|..|t| - 1] == s.debug.value.1
      && t[|t| - 1] == ']'
  {
    var main := formatRating(s.rating);
    var digits := NatToString(s.debug.value.0);
    var t := LabelText(s, formatRating);
    assert t == main + " [" + digits + ":" + s.debug.value.1 + "]";
    assert t[|main| + 2..|main| + 2 + |digits|] == digits;
    NatToStringRoundTrip(s.debug.value.0);
  }
}
