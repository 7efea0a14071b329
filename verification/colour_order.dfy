/** Colour bitmask of a card and the fixed 32-entry table that ranks every
    mask in the game client's draft-pack colour order
    (src/ingame_overlay.py, `_COLOR_SORT_TABLE`, `_COLOR_FLAG`,
    `_card_color_flags`). */
module ColourOrder {

  import opened Wrappers

  /** A colour bitmask: W=1, U=2, B=4, R=8, G=16. Python ints here never leave
      eight bits, since every flag is below 32. */
  type Mask = bv8

  /** `_COLOR_SORT_TABLE`, indexed by mask: the rank of that colour combination. */
  const ColourSortTable: seq<nat> := [
    31, 0, 1, 5, 2, 6, 7, 15, 3, 12, 8, 23, 9, 20, 16, 25,
    4, 13, 14, 19, 10, 22, 24, 29, 11, 18, 21, 28, 17, 27, 26, 30
  ]

  /** The masks in rank order, as the source assigns them: singles W,U,B,R,G;
      pairs WU,WB,UB,UR,BR,BG,RG,WR,WG,UG; triples WUB,UBR,BRG,WRG,WUG,WBR,URG,
      WBG,WUR,UBG; quads WUBR,UBRG,WBRG,WURG,WUBG; WUBRG; colourless last. */
  const MaskByRank: seq<nat> := [
    1, 2, 4, 8, 16,
    3, 5, 6, 10, 12, 20, 24, 9, 17, 18,
    7, 14, 28, 25, 19, 13, 26, 21, 11, 22,
    15, 30, 29, 27, 23,
    31,
    0
  ]

  /** The table is a permutation of 0..31: the rank listing is its inverse on
      both sides. */
  lemma ColourSortTableIsPermutation()
    ensures |ColourSortTable| == 32 && |MaskByRank| == 32
    ensures forall m :: 0 <= m < 32 ==> ColourSortTable[m] < 32 && MaskByRank[ColourSortTable[m]] == m
    ensures forall r :: 0 <= r < 32 ==> MaskByRank[r] < 32 && ColourSortTable[MaskByRank[r]] == r
  {
  }

  /** No two masks share a rank. */
  lemma ColourSortTableInjective()
    ensures forall m1, m2 :: 0 <= m1 < 32 && 0 <= m2 < 32 && m1 != m2 ==> ColourSortTable[m1] != ColourSortTable[m2]
  {
    ColourSortTableIsPermutation();
  }

  /** The five single colours get one bit each and rank 0..4 in W,U,B,R,G
      order; no colour at all (mask 0) ranks last. */
  lemma SingleColourRanks()
    ensures FlagsOf(["W"]) == 1 && ColourSortTable[1] == 0
    ensures FlagsOf(["U"]) == 2 && ColourSortTable[2] == 1
    ensures FlagsOf(["B"]) == 4 && ColourSortTable[4] == 2
    ensures FlagsOf(["R"]) == 8 && ColourSortTable[8] == 3
    ensures FlagsOf(["G"]) == 16 && ColourSortTable[16] == 4
    ensures FlagsOf([]) == 0 && ColourSortTable[0] == 31
  {
    ColourLetterFlags();
    SingleFlag("W");
    SingleFlag("U");
    SingleFlag("B");
    SingleFlag("R");
    SingleFlag("G");
  }

  /** Each colour letter owns one bit, in W,U,B,R,G order. */
  lemma ColourLetterFlags()
    ensures ColourFlag("W") == 1 && ColourFlag("U") == 2 && ColourFlag("B") == 4
    ensures ColourFlag("R") == 8 && ColourFlag("G") == 16
  {
  }

  lemma SingleFlag(c: string)
    ensures FlagsOf([c]) == ColourFlag(c)
  {
    assert [c][..0] == [];
  }

  /** `_COLOR_FLAG.get(c, 0)`: unknown colour letters contribute nothing. */
  function ColourFlag(c: string): Mask
  {
    if c == "W" then 1
    else if c == "U" then 2
    else if c == "B" then 4
    else if c == "R" then 8
    else if c == "G" then 16
    else 0
  }

  /** `flag |= _COLOR_FLAG.get(c, 0)` over the colours, in order. */
  function FlagsOf(colours: seq<string>): Mask
  {
    if |colours| == 0 then 0
    else FlagsOf(colours[..|colours| - 1]) | ColourFlag(colours[|colours| - 1])
  }

  /** The mask with the W, U, B, R, G bits set as given. */
  function Bits(w: bool, u: bool, b: bool, r: bool, g: bool): Mask
  {
    (if w then 1 else 0) |
    (if u then 2 else 0) |
    (if b then 4 else 0) |
    (if r then 8 else 0) |
    (if g then 16 else 0)
  }

  /** The mask by presence: bit k is set exactly when colour k occurs. */
  function PresenceMask(colours: seq<string>): Mask
  {
    Bits("W" in colours, "U" in colours, "B" in colours, "R" in colours, "G" in colours)
  }

  /** Or-ing one colour's flag into a mask sets that colour's bit. */
  lemma BitsAddColour(w: bool, u: bool, b: bool, r: bool, g: bool, c: string)
    ensures Bits(w || c == "W", u || c == "U", b || c == "B", r || c == "R", g || c == "G")
            == Bits(w, u, b, r, g) | ColourFlag(c)
  {
  }

  /** Or-ing the flags one by one yields the presence mask: the result is
      independent of order, repetition and unknown letters. */
  lemma {:induction false} FlagsOfIsPresence(colours: seq<string>)
    ensures FlagsOf(colours) == PresenceMask(colours)
    decreases |colours|
  {
    if |colours| > 0 {
      var init := colours[..|colours| - 1];
      var c := colours[|colours| - 1];
      FlagsOfIsPresence(init);
      PresenceMaskAppend(init, c);
      assert colours == init + [c];
    }
  }

  lemma PresenceMaskAppend(init: seq<string>, c: string)
    ensures PresenceMask(init + [c]) == PresenceMask(init) | ColourFlag(c)
  {
    var colours := init + [c];
    assert forall x :: x in colours <==> x in init || x == c;
    BitsAddColour("W" in init, "U" in init, "B" in init, "R" in init, "G" in init, c);
  }

  /** The mask always lies in [0, 31], so `& 0x1F` leaves it unchanged. */
  lemma FlagsOfInRange(colours: seq<string>)
    ensures FlagsOf(colours) as int < 32
    ensures FlagsOf(colours) & 0x1F == FlagsOf(colours)
  {
    FlagsOfIsPresence(colours);
  }

  /** Two colour lists naming the same colours give the same mask. */
  lemma FlagsOfDependsOnlyOnColours(c1: seq<string>, c2: seq<string>)
    requires forall x :: x in c1 <==> x in c2
    ensures FlagsOf(c1) == FlagsOf(c2)
  {
    FlagsOfIsPresence(c1);
    FlagsOfIsPresence(c2);
  }

  predicate IsArtifactOrLand(types: seq<string>) {
    "Artifact" in types || "Land" in types
  }

  /** `_card_color_flags`: the colour list read is `color_identity` when the
      card is an Artifact or a Land and that key is present, else `colors`. */
  function CardColourFlags(types: seq<string>, colours: seq<string>, identity: Option<seq<string>>): (f: Mask)
    ensures f as int < 32
    ensures f == if IsArtifactOrLand(types) && identity.Some?
                 then PresenceMask(identity.value) else PresenceMask(colours)
  {
    var read := if IsArtifactOrLand(types) && identity.Some? then identity.value else colours;
    FlagsOfInRange(read);
    FlagsOfIsPresence(read);
    FlagsOf(read)
  }

  /** `_COLOR_SORT_TABLE[flags & 0x1F]`: colour rank in [0, 31]. */
  function ColourRank(f: Mask): (r: nat)
    ensures r < 32
    ensures r == 31 <==> f & 0x1F == 0
  {
    ColourSortTableIsPermutation();
    ColourSortTable[(f & 0x1F) as int]
  }
}
