/** Badge coordinates for a pack laid out over the game window
    (src/ingame_overlay.py, `GRID_LAYOUTS` and `_calculate_card_positions`).
    Python floats are modelled as exact reals; `int()` truncates toward zero. */
module Layout {

  /** A client rectangle in screen coordinates. */
  datatype Rect = Rect(left: int, top: int, right: int, bottom: int)

  /** Fractions of the client area bounding the card grid. */
  datatype Calibration = Calibration(gridLeft: real, gridRight: real, gridTop: real, gridBottom: real)

  /** The defaults used when the configuration does not override them. */
  const DefaultCalibration := Calibration(0.16, 0.826, 0.32, 0.654)

  /** Largest pack the overlay lays out. */
  const MaxCards := 15

  /** `GRID_LAYOUTS`: pack size to (columns, rows). Up to eight cards share
      one row of exactly that many columns; nine or more use two rows of eight. */
  const GridLayouts: map<int, (nat, nat)> := map[
    15 := (8, 2), 14 := (8, 2), 13 := (8, 2), 12 := (8, 2),
    11 := (8, 2), 10 := (8, 2), 9 := (8, 2),
    8 := (8, 1), 7 := (7, 1), 6 := (6, 1),
    5 := (5, 1), 4 := (4, 1), 3 := (3, 1), 2 := (2, 1), 1 := (1, 1)
  ]

  /** `GRID_LAYOUTS.get(n, (8, 2))`. */
  function GridShape(n: int): (nat, nat)
  {
    if n in GridLayouts then GridLayouts[n] else (8, 2)
  }

  /** The layout table holds one entry per pack size 1..15, with `n` columns
      on one row below nine cards and eight columns on two rows from nine on. */
  lemma GridShapeByCount(n: int)
    ensures n in GridLayouts <==> 1 <= n <= MaxCards
    ensures 1 <= n <= 8 ==> GridShape(n) == (n, 1)
    ensures 9 <= n <= MaxCards ==> GridShape(n) == (8, 2)
  {
  }

  datatype Point = Point(x: int, y: int)

  /** `int(x)` on a float: truncation toward zero. */
  function Truncate(x: real): (r: int)
    ensures x >= 0.0 ==> 0 <= r && r as real <= x < r as real + 1.0
    ensures x < 0.0 ==> r <= 0 && r as real - 1.0 < x <= r as real
  {
    if x >= 0.0 then x.Floor else -((-x).Floor)
  }

  /** Truncation never reverses the order of two values. */
  lemma TruncateMonotone(a: real, b: real)
    requires a <= b
    ensures Truncate(a) <= Truncate(b)
  {
    if a < 0.0 && b >= 0.0 {
    } else if a < 0.0 {
      assert (-b).Floor <= (-a).Floor;
    }
  }

  function Width(rect: Rect): int {
    rect.right - rect.left
  }

  function Height(rect: Rect): int {
    rect.bottom - rect.top
  }

  /** Cell width: an eighth of the grid whatever the column count. */
  function CellWidth(rect: Rect, cal: Calibration): real {
    (cal.gridRight - cal.gridLeft) * Width(rect) as real / 8.0
  }

  /** Cell height: half of the grid whatever the row count. */
  function CellHeight(rect: Rect, cal: Calibration): real {
    (cal.gridBottom - cal.gridTop) * Height(rect) as real / 2.0
  }

  /** `int(origin + index * cell + offset)`: a pixel coordinate along one axis. */
  function Place(origin: real, index: nat, cell: real, offset: real): int {
    Truncate(origin + index as real * cell + offset)
  }

  /** Left edge of the calibrated grid, in screen pixels. */
  function GridX(rect: Rect, cal: Calibration): real {
    rect.left as real + cal.gridLeft * Width(rect) as real
  }

  /** Top edge of the calibrated grid, in screen pixels. */
  function GridY(rect: Rect, cal: Calibration): real {
    rect.top as real + cal.gridTop * Height(rect) as real
  }

  /** Badge x for column `col`: cell centre less half a badge (15 pixels). */
  function BadgeX(col: nat, rect: Rect, cal: Calibration): int {
    Place(GridX(rect, cal), col, CellWidth(rect, cal), CellWidth(rect, cal) / 2.0 - 15.0)
  }

  /** Badge y for row `row`: top of the cell plus 8% of its height. */
  function BadgeY(row: nat, rect: Rect, cal: Calibration): int {
    Place(GridY(rect, cal), row, CellHeight(rect, cal), CellHeight(rect, cal) * 0.08)
  }

  /** Row and column of card `idx` in a grid of `cols` columns. */
  function Cell(idx: nat, cols: nat): (nat, nat)
    requires cols > 0
  {
    (idx / cols, idx % cols)
  }

  predicate LayoutApplies(n: int, rect: Rect) {
    1 <= n <= MaxCards && Width(rect) > 0 && Height(rect) > 0
  }

  /** `_calculate_card_positions`. */
  function CardPositions(n: int, rect: Rect, cal: Calibration): (ps: seq<Point>)
    ensures !LayoutApplies(n, rect) ==> ps == []
    ensures LayoutApplies(n, rect) ==> |ps| == n
    ensures forall i :: 0 <= i < |ps| ==>
      ps[i] == Point(BadgeX(Cell(i, GridShape(n).0).1, rect, cal), BadgeY(Cell(i, GridShape(n).0).0, rect, cal))
  {
    if n <= 0 || n > MaxCards then []
    else if Width(rect) <= 0 || Height(rect) <= 0 then []
    else
      var cols := GridShape(n).0;
      seq(n, idx requires 0 <= idx < n =>
        var (row, col) := Cell(idx, cols);
        Point(BadgeX(col, rect, cal), BadgeY(row, rect, cal)))
  }

  /** Where each card lands: the whole of a pack of up to eight cards sits on
      row 0 at its own column; in a larger pack cards 0..7 fill row 0 and the
      rest start again at column 0 of row 1. */
  lemma {:induction false} CellPlacement(n: nat, idx: nat)
    requires 1 <= n <= MaxCards && idx < n
    ensures n <= 8 ==> Cell(idx, GridShape(n).0) == (0, idx)
    ensures n >= 9 && idx < 8 ==> Cell(idx, GridShape(n).0) == (0, idx)
    ensures n >= 9 && idx >= 8 ==> Cell(idx, GridShape(n).0) == (1, idx - 8)
  {
    GridShapeByCount(n);
  }

  /** The badge of card `idx`, with its row and column resolved. */
  lemma PositionOfCard(n: int, rect: Rect, cal: Calibration, idx: nat)
    requires LayoutApplies(n, rect) && idx < n
    ensures n <= 8 ==> CardPositions(n, rect, cal)[idx] == Point(BadgeX(idx, rect, cal), BadgeY(0, rect, cal))
    ensures n >= 9 && idx < 8 ==> CardPositions(n, rect, cal)[idx] == Point(BadgeX(idx, rect, cal), BadgeY(0, rect, cal))
    ensures n >= 9 && idx >= 8 ==> CardPositions(n, rect, cal)[idx] == Point(BadgeX(idx - 8, rect, cal), BadgeY(1, rect, cal))
  {
    CellPlacement(n, idx);
  }

  /** A pack of at most eight cards is one row: every badge has the same y,
      and, when the calibrated grid has non-negative width, x never decreases
      from left to right. */
  lemma SingleRowLayout(n: int, rect: Rect, cal: Calibration)
    requires 1 <= n <= 8 && LayoutApplies(n, rect)
    ensures forall i :: 0 <= i < n ==> CardPositions(n, rect, cal)[i].y == CardPositions(n, rect, cal)[0].y
    ensures cal.gridLeft <= cal.gridRight ==>
      forall i :: 0 <= i < n - 1 ==> CardPositions(n, rect, cal)[i].x <= CardPositions(n, rect, cal)[i + 1].x
  {
    var ps := CardPositions(n, rect, cal);
    PositionOfCard(n, rect, cal, 0);
    forall i | 0 <= i < n
      ensures ps[i].y == ps[0].y
    {
      PositionOfCard(n, rect, cal, i);
    }
    if cal.gridLeft <= cal.gridRight {
      forall i | 0 <= i < n - 1
        ensures ps[i].x <= ps[i + 1].x
      {
        PositionOfCard(n, rect, cal, i);
        PositionOfCard(n, rect, cal, i + 1);
        BadgeXMonotone(i, i + 1, rect, cal);
      }
    }
  }

  /** A pack of nine or more cards is two rows of eight columns: card `i + 8`
      sits directly below card `i`, and row 1 is not above row 0 when the
      calibrated grid has non-negative height. */
  lemma TwoRowLayout(n: int, rect: Rect, cal: Calibration)
    requires 9 <= n <= MaxCards && LayoutApplies(n, rect)
    ensures forall i :: 0 <= i < 8 ==> CardPositions(n, rect, cal)[i].y == CardPositions(n, rect, cal)[0].y
    ensures forall i :: 8 <= i < n ==> CardPositions(n, rect, cal)[i].y == CardPositions(n, rect, cal)[8].y
    ensures forall i :: 8 <= i < n ==> CardPositions(n, rect, cal)[i].x == CardPositions(n, rect, cal)[i - 8].x
    ensures cal.gridTop <= cal.gridBottom ==> CardPositions(n, rect, cal)[0].y <= CardPositions(n, rect, cal)[8].y
  {
    forall i | 0 <= i < 8
      ensures CardPositions(n, rect, cal)[i].y == CardPositions(n, rect, cal)[0].y
    {
      PositionOfCard(n, rect, cal, 0);
      PositionOfCard(n, rect, cal, i);
    }
    forall i | 8 <= i < n
      ensures CardPositions(n, rect, cal)[i].y == CardPositions(n, rect, cal)[8].y
      ensures CardPositions(n, rect, cal)[i].x == CardPositions(n, rect, cal)[i - 8].x
    {
      PositionOfCard(n, rect, cal, 8);
      PositionOfCard(n, rect, cal, i);
      PositionOfCard(n, rect, cal, i - 8);
    }
    if cal.gridTop <= cal.gridBottom {
      PositionOfCard(n, rect, cal, 0);
      PositionOfCard(n, rect, cal, 8);
      BadgeYMonotone(0, 1, rect, cal);
    }
  }

  lemma ProductNonNegative(a: real, b: real)
    requires a >= 0.0 && b >= 0.0
    ensures a * b >= 0.0
  {
  }

  lemma MulMonotone(a: real, b: real, c: real)
    requires a <= b && c >= 0.0
    ensures a * c <= b * c
  {
    ProductNonNegative(b - a, c);
    assert (b - a) * c == b * c - a * c;
  }

  /** With a non-negative cell size, a later index is never placed earlier. */
  lemma PlaceMonotone(origin: real, i1: nat, i2: nat, cell: real, offset: real)
    requires i1 <= i2 && cell >= 0.0
    ensures Place(origin, i1, cell, offset) <= Place(origin, i2, cell, offset)
  {
    MulMonotone(i1 as real, i2 as real, cell);
    TruncateMonotone(origin + i1 as real * cell + offset, origin + i2 as real * cell + offset);
  }

  lemma CellWidthNonNegative(rect: Rect, cal: Calibration)
    requires Width(rect) > 0 && cal.gridLeft <= cal.gridRight
    ensures CellWidth(rect, cal) >= 0.0
  {
    ProductNonNegative(cal.gridRight - cal.gridLeft, Width(rect) as real);
  }

  lemma CellHeightNonNegative(rect: Rect, cal: Calibration)
    requires Height(rect) > 0 && cal.gridTop <= cal.gridBottom
    ensures CellHeight(rect, cal) >= 0.0
  {
    ProductNonNegative(cal.gridBottom - cal.gridTop, Height(rect) as real);
  }

  lemma BadgeYMonotone(r1: nat, r2: nat, rect: Rect, cal: Calibration)
    requires r1 <= r2 && Height(rect) > 0 && cal.gridTop <= cal.gridBottom
    ensures BadgeY(r1, rect, cal) <= BadgeY(r2, rect, cal)
  {
    var cellH := CellHeight(rect, cal);
    CellHeightNonNegative(rect, cal);
    PlaceMonotone(GridY(rect, cal), r1, r2, cellH, cellH * 0.08);
  }

  lemma BadgeXMonotone(c1: nat, c2: nat, rect: Rect, cal: Calibration)
    requires c1 <= c2 && Width(rect) > 0 && cal.gridLeft <= cal.gridRight
    ensures BadgeX(c1, rect, cal) <= BadgeX(c2, rect, cal)
  {
    var cellW := CellWidth(rect, cal);
    CellWidthNonNegative(rect, cal);
    PlaceMonotone(GridX(rect, cal), c1, c2, cellW, cellW / 2.0 - 15.0);
  }
}
