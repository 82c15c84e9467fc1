/**
 * The falling piece. A figure has a type (one of the seven shapes), a
 * position and an orientation, and paints its four squares onto the square
 * board it is attached to.
 */
module Figures {
  import opened Wrappers
  import opened Grids
  import opened Board
  import opened Shapes
  import opened Records

  /** The four-square offsets of a figure type from the shape table. */
  function OffsetsOf(kind: int): seq<Offset>
    requires Initialize(kind).Ok?
  {
    Initialize(kind).value.offsets
  }

  /**
   * canMoveTo's test for a move from the cells `from` to the cells `to`:
   * every target square is on a column of the board, above its floor, and
   * either one of the figure's own squares or empty.
   */
  predicate FitsFrom(g: Grid, w: int, from: seq<(int, int)>, to: seq<(int, int)>)
    requires Rectangular(g, w)
    decreases |to|
  {
    |to| == 0 || (SquareFits(g, w, from, to[0]) && FitsFrom(g, w, from, to[1..]))
  }

  /** One target square of canMoveTo's test. */
  predicate SquareFits(g: Grid, w: int, from: seq<(int, int)>, p: (int, int))
    requires Rectangular(g, w)
  {
    0 <= p.0 < w && p.1 < |g| && (p in from || SquareEmpty(g, w, p.0, p.1))
  }

  /** A target fits exactly when each of its squares does. */
  lemma {:induction false} FitsFromEach(g: Grid, w: int, from: seq<(int, int)>, to: seq<(int, int)>)
    requires Rectangular(g, w)
    ensures FitsFrom(g, w, from, to) <==> forall k :: 0 <= k < |to| ==> SquareFits(g, w, from, to[k])
    decreases |to|
  {
    if |to| > 0 {
      FitsFromEach(g, w, from, to[1..]);
      assert forall k :: 1 <= k < |to| ==> to[k] == to[1..][k - 1];
    }
  }

  /** The square one row below square k of fp. */
  function Below(fp: seq<(int, int)>, k: int): (p: (int, int))
    requires 0 <= k < |fp|
    ensures p.0 == fp[k].0 && p.1 == fp[k].1 + 1
  {
    (fp[k].0, fp[k].1 + 1)
  }

  /**
   * On the grid g, the square below square k of the footprint fp is not
   * one of fp's own and is the floor or a FIXED cell.
   */
  predicate RestsOn(g: Grid, fp: seq<(int, int)>, k: int)
    requires 0 <= k < |fp|
  {
    var p := Below(fp, k);
    p !in fp && p.1 >= 0 && (p.1 >= |g| || (0 <= p.0 < |g[p.1]| && g[p.1][p.0] == Fixed))
  }

  /** The square below square k of fp is not one of fp's own and lies above row 0. */
  predicate FaultsOn(fp: seq<(int, int)>, k: int)
    requires 0 <= k < |fp|
  {
    Below(fp, k) !in fp && Below(fp, k).1 < 0
  }

  /**
   * isAllWayDown's true answer for a figure covering fp on the grid g: some
   * square rests on the floor or a FIXED cell, and no earlier square probes
   * above row 0.
   */
  predicate LandsOn(g: Grid, fp: seq<(int, int)>)
  {
    exists k :: 0 <= k < |fp| && RestsOn(g, fp, k) && forall j :: 0 <= j < k ==> !FaultsOn(fp, j)
  }

  /** A cell after the squares `from` are cleared and then `to` painted with `state`. */
  function Repaint(before: Cell, p: (int, int), from: seq<(int, int)>, to: seq<(int, int)>, state: Cell): Cell
  {
    if p in to then state else if p in from then Empty else before
  }

  /** A target that fits lies wholly on the board's columns and above its floor. */
  lemma FitsOnBoard(g: Grid, w: int, from: seq<(int, int)>, to: seq<(int, int)>, k: int)
    requires Rectangular(g, w) && FitsFrom(g, w, from, to) && 0 <= k < |to|
    ensures 0 <= to[k].0 < w && to[k].1 < |g|
  {
    FitsFromEach(g, w, from, to);
  }

  /**
   * A target that fits never covers a square that is neither the figure's
   * own nor empty: in particular no FIXED square on the board.
   */
  lemma FitsAvoidsFixed(g: Grid, w: int, from: seq<(int, int)>, to: seq<(int, int)>, k: int)
    requires Rectangular(g, w) && FitsFrom(g, w, from, to) && 0 <= k < |to|
    requires to[k] !in from
    ensures 0 <= to[k].0 < w && to[k].1 < |g| && (to[k].1 < 0 || g[to[k].1][to[k].0] == Empty)
  {
    FitsFromEach(g, w, from, to);
  }

  /** Only which squares a figure leaves matters to a fit, not how they are listed. */
  lemma FitsFromSameSquares(g: Grid, w: int, from: seq<(int, int)>, from': seq<(int, int)>, to: seq<(int, int)>)
    requires Rectangular(g, w)
    requires forall p :: p in from <==> p in from'
    ensures FitsFrom(g, w, from, to) <==> FitsFrom(g, w, from', to)
  {
    FitsFromEach(g, w, from, to);
    FitsFromEach(g, w, from', to);
  }

  /** No square lies above row 0. */
  predicate InSight(squares: seq<(int, int)>)
  {
    forall k :: 0 <= k < |squares| ==> squares[k].1 >= 0
  }

  // ----- the fall of moveAllWayDown -----

  /**
   * The figure with these offsets in column x, row y and orientation o fits
   * one row lower on g, the squares in vacated counting as free.
   */
  predicate FallsThrough(g: Grid, w: int, offsets: seq<Offset>, x: int, y: int, o: int, vacated: seq<(int, int)>)
    requires Rectangular(g, w)
  {
    FitsFrom(g, w, Cells(offsets, x, y, o) + vacated, Cells(offsets, x, y + 1, o))
  }

  /**
   * The row a figure in column x and orientation o falls to from row y on
   * the grid g: it steps down while its next row fits, the squares in
   * vacated counting as free, and stops at the first row whose next one
   * does not fit.
   */
  function FallRow(g: Grid, w: int, offsets: seq<Offset>, x: int, y: int, o: int, vacated: seq<(int, int)>): (r: int)
    requires Rectangular(g, w) && |offsets| > 0
    ensures r >= y
    decreases |g| - y - RelY(offsets, 0, o)
  {
    if FitsFrom(g, w, Cells(offsets, x, y, o) + vacated, Cells(offsets, x, y + 1, o)) then
      FitsOnBoard(g, w, Cells(offsets, x, y, o) + vacated, Cells(offsets, x, y + 1, o), 0);
      FallRow(g, w, offsets, x, y + 1, o, vacated)
    else
      y
  }

  /** The fall ends on a row whose next one does not fit. */
  lemma {:induction false} FallRowRests(g: Grid, w: int, offsets: seq<Offset>, x: int, y: int, o: int,
                                        vacated: seq<(int, int)>)
    requires Rectangular(g, w) && |offsets| > 0
    ensures !FallsThrough(g, w, offsets, x, FallRow(g, w, offsets, x, y, o, vacated), o, vacated)
    decreases |g| - y - RelY(offsets, 0, o)
  {
    if FallsThrough(g, w, offsets, x, y, o, vacated) {
      FitsOnBoard(g, w, Cells(offsets, x, y, o) + vacated, Cells(offsets, x, y + 1, o), 0);
      FallRowRests(g, w, offsets, x, y + 1, o, vacated);
    }
  }

  /** Every row the fall passes on its way down has a next row that fits. */
  lemma {:induction false} FallRowPath(g: Grid, w: int, offsets: seq<Offset>, x: int, y: int, o: int,
                                       vacated: seq<(int, int)>, k: int)
    requires Rectangular(g, w) && |offsets| > 0
    requires y <= k < FallRow(g, w, offsets, x, y, o, vacated)
    ensures FallsThrough(g, w, offsets, x, k, o, vacated)
    decreases |g| - y - RelY(offsets, 0, o)
  {
    if FallsThrough(g, w, offsets, x, y, o, vacated) {
      FitsOnBoard(g, w, Cells(offsets, x, y, o) + vacated, Cells(offsets, x, y + 1, o), 0);
      if k > y {
        FallRowPath(g, w, offsets, x, y + 1, o, vacated, k);
      }
    }
  }

  /**
   * Conversely, a row reached through rows that all fit one lower, and
   * whose own next row does not fit, is the row of the fall.
   */
  lemma {:induction false} FallRowOfPath(g: Grid, w: int, offsets: seq<Offset>, x: int, y: int, o: int,
                                         vacated: seq<(int, int)>, r: int)
    requires Rectangular(g, w) && |offsets| > 0 && y <= r
    requires FallsThroughRows(g, w, offsets, x, o, vacated, y, r) && !FallsThrough(g, w, offsets, x, r, o, vacated)
    ensures FallRow(g, w, offsets, x, y, o, vacated) == r
    decreases r - y
  {
    if y < r {
      assert FallsThrough(g, w, offsets, x, y, o, vacated);
      FallRowOfPath(g, w, offsets, x, y + 1, o, vacated, r);
    }
  }

  /** A figure that fits one row down from where it stands falls through that row, its own squares vacated. */
  lemma FallsFromRest(g: Grid, w: int, offsets: seq<Offset>, x: int, y: int, o: int)
    requires Rectangular(g, w) && FitsFrom(g, w, Cells(offsets, x, y, o), Cells(offsets, x, y + 1, o))
    ensures FallsThrough(g, w, offsets, x, y, o, Cells(offsets, x, y, o))
  {
    var fp := Cells(offsets, x, y, o);
    FitsFromSameSquares(g, w, fp, fp + fp, Cells(offsets, x, y + 1, o));
  }

  /** The figure falls through every row from y up to, not including, r. */
  predicate FallsThroughRows(g: Grid, w: int, offsets: seq<Offset>, x: int, o: int, vacated: seq<(int, int)>, y: int, r: int)
    requires Rectangular(g, w)
  {
    forall k :: y <= k < r ==> FallsThrough(g, w, offsets, x, k, o, vacated)
  }

  /** One more row falls through. */
  lemma FallsThroughOneMore(g: Grid, w: int, offsets: seq<Offset>, x: int, o: int, vacated: seq<(int, int)>, y: int, r: int)
    requires Rectangular(g, w) && y <= r
    requires FallsThroughRows(g, w, offsets, x, o, vacated, y, r) && FallsThrough(g, w, offsets, x, r, o, vacated)
    ensures FallsThroughRows(g, w, offsets, x, o, vacated, y, r + 1)
  {
  }

  /**
   * Row r is where a fall from row y comes to rest: the figure falls
   * through every row from y up to r and cannot go on from r.
   */
  predicate RestsAt(g: Grid, w: int, offsets: seq<Offset>, x: int, y: int, o: int, vacated: seq<(int, int)>, r: int)
    requires Rectangular(g, w)
  {
    y <= r && FallsThroughRows(g, w, offsets, x, o, vacated, y, r) && !FallsThrough(g, w, offsets, x, r, o, vacated)
  }

  /** FallRow names the one row where the fall rests. */
  lemma FallRowRestsAt(g: Grid, w: int, offsets: seq<Offset>, x: int, y: int, o: int, vacated: seq<(int, int)>, r: int)
    requires Rectangular(g, w) && |offsets| > 0
    ensures RestsAt(g, w, offsets, x, y, o, vacated, r) <==> r == FallRow(g, w, offsets, x, y, o, vacated)
  {
    if RestsAt(g, w, offsets, x, y, o, vacated, r) {
      FallRowOfPath(g, w, offsets, x, y, o, vacated, r);
    }
    if r == FallRow(g, w, offsets, x, y, o, vacated) {
      FallRowRests(g, w, offsets, x, y, o, vacated);
      forall k | y <= k < r ensures FallsThrough(g, w, offsets, x, k, o, vacated) {
        FallRowPath(g, w, offsets, x, y, o, vacated, k);
      }
    }
  }

  // ----- the spawn search of attach -----

  /**
   * During the spawn search the position is reset to (0, 0), so the squares
   * the figure would occupy there count as its own: a column fits in a row
   * when the figure fits there as if moving from (0, 0).
   */
  predicate SpawnFits(g: Grid, w: int, kind: int, o: int, x: int, y: int)
    requires Rectangular(g, w) && Initialize(kind).Ok?
  {
    FitsFrom(g, w, Cells(OffsetsOf(kind), 0, 0, o), Cells(OffsetsOf(kind), x, y, o))
  }

  /** The first loop of positionAlongX: from column x leftwards down to column 0. */
  function ScanLeft(g: Grid, w: int, kind: int, o: int, x: int, y: int): (r: Option<int>)
    requires Rectangular(g, w) && Initialize(kind).Ok?
    ensures r.Some? ==> r.value <= x && SpawnFits(g, w, kind, o, r.value, y)
    ensures r.Some? ==> 0 <= r.value || r.value == x
    ensures r.Some? ==> forall c :: r.value < c <= x ==> !SpawnFits(g, w, kind, o, c, y)
    ensures r.None? ==> !SpawnFits(g, w, kind, o, x, y) && forall c :: 0 <= c <= x ==> !SpawnFits(g, w, kind, o, c, y)
    decreases if x > 0 then x else 0
  {
    if SpawnFits(g, w, kind, o, x, y) then Some(x)
    else if x > 0 then ScanLeft(g, w, kind, o, x - 1, y)
    else None
  }

  /** The second loop of positionAlongX: from column x rightwards up to column width - 1. */
  function ScanRight(g: Grid, w: int, kind: int, o: int, x: int, y: int): (r: Option<int>)
    requires Rectangular(g, w) && Initialize(kind).Ok?
    ensures r.Some? ==> x <= r.value && SpawnFits(g, w, kind, o, r.value, y)
    ensures r.Some? ==> r.value < w || r.value == x
    ensures r.Some? ==> forall c :: x <= c < r.value ==> !SpawnFits(g, w, kind, o, c, y)
    ensures r.None? ==> !SpawnFits(g, w, kind, o, x, y) && forall c :: x <= c < w ==> !SpawnFits(g, w, kind, o, c, y)
    decreases w - x
  {
    if SpawnFits(g, w, kind, o, x, y) then Some(x)
    else if x < w - 1 then ScanRight(g, w, kind, o, x + 1, y)
    else None
  }

  /** A leftward scan over columns none of which fits, through column 0, finds nothing. */
  lemma {:induction false} ScanLeftExhausted(g: Grid, w: int, kind: int, o: int, x: int, y: int, first: int)
    requires Rectangular(g, w) && Initialize(kind).Ok? && first <= x && first <= 0
    requires forall c :: first <= c <= x ==> !SpawnFits(g, w, kind, o, c, y)
    ensures ScanLeft(g, w, kind, o, x, y).None?
    decreases if x > 0 then x else 0
  {
    if x > 0 {
      ScanLeftExhausted(g, w, kind, o, x - 1, y, first);
    }
  }

  /** A rightward scan over columns none of which fits, through the last column, finds nothing. */
  lemma {:induction false} ScanRightExhausted(g: Grid, w: int, kind: int, o: int, x: int, y: int, last: int)
    requires Rectangular(g, w) && Initialize(kind).Ok? && x <= last && w - 1 <= last
    requires forall c :: x <= c <= last ==> !SpawnFits(g, w, kind, o, c, y)
    ensures ScanRight(g, w, kind, o, x, y).None?
    decreases w - x
  {
    if x < w - 1 {
      ScanRightExhausted(g, w, kind, o, x + 1, y, last);
    }
  }

  /**
   * positionAlongX's choice in row y: the nearest fitting column at or left
   * of x, else the nearest one right of x.
   */
  function PlaceInRow(g: Grid, w: int, kind: int, o: int, x: int, y: int): Option<int>
    requires Rectangular(g, w) && Initialize(kind).Ok?
  {
    var left := ScanLeft(g, w, kind, o, x, y);
    if left.Some? then left else ScanRight(g, w, kind, o, x, y)
  }

  /**
   * positionAlongX finds a fitting column exactly when the row has one, and
   * it is the nearest one at or left of x, or failing that the nearest one
   * right of x.
   */
  lemma PlaceInRowChoice(g: Grid, w: int, kind: int, o: int, x: int, y: int)
    requires Rectangular(g, w) && Initialize(kind).Ok?
    ensures var r := PlaceInRow(g, w, kind, o, x, y);
      (r.Some? ==> SpawnFits(g, w, kind, o, r.value, y)) &&
      (r.Some? && r.value <= x ==> forall c :: r.value < c <= x ==> !SpawnFits(g, w, kind, o, c, y)) &&
      (r.Some? && r.value > x ==> forall c :: c <= x ==> !SpawnFits(g, w, kind, o, c, y)) &&
      (r.Some? && r.value > x ==> forall c :: x < c < r.value ==> !SpawnFits(g, w, kind, o, c, y)) &&
      (r.None? <==> forall c :: 0 <= c < w ==> !SpawnFits(g, w, kind, o, c, y))
  {
    var left := ScanLeft(g, w, kind, o, x, y);
    if left.Some? {
      SpawnColumnOnBoard(g, w, kind, o, left.value, y);
    } else {
      var right := ScanRight(g, w, kind, o, x, y);
      if right.Some? {
        SpawnColumnOnBoard(g, w, kind, o, right.value, y);
        forall c | c <= x ensures !SpawnFits(g, w, kind, o, c, y) {
          if c < 0 && SpawnFits(g, w, kind, o, c, y) {
            SpawnColumnOnBoard(g, w, kind, o, c, y);
          }
        }
      }
    }
  }

  /**
   * A fitting column is on the board: every shape has a square at relative
   * (0, 0), which stays on the figure's own column in every orientation.
   */
  lemma SpawnColumnOnBoard(g: Grid, w: int, kind: int, o: int, x: int, y: int)
    requires Rectangular(g, w) && Initialize(kind).Ok? && SpawnFits(g, w, kind, o, x, y)
    ensures 0 <= x < w
  {
    var s := OffsetsOf(kind);
    var k := if kind == SQUARE_FIGURE || kind == Z_FIGURE || kind == RIGHT_ANGLE_FIGURE
      || kind == LEFT_ANGLE_FIGURE || kind == TRIANGLE_FIGURE then 1 else if kind == S_FIGURE then 0 else 2;
    assert s[k] == (0, 0);
    FitsFromEach(g, w, Cells(s, 0, 0, o), Cells(s, x, y, o));
    assert SquareFits(g, w, Cells(s, 0, 0, o), Cells(s, x, y, o)[k]);
    assert Cells(s, x, y, o)[k].0 == x;
  }

  /**
   * Every row whose squares all lie above the board has a fitting column,
   * once the board is at least four columns wide: the figure fits at its
   * home column.
   */
  lemma HighRowPlaceable(g: Grid, w: int, kind: int, o: int, x: int, y: int)
    requires Rectangular(g, w) && Initialize(kind).Ok? && w >= 4
    ensures y <= -3 ==> PlaceInRow(g, w, kind, o, x, y).Some?
  {
    if y > -3 {
      return;
    }
    PlaceInRowChoice(g, w, kind, o, x, y);
    var s := OffsetsOf(kind);
    var c := HomeColumn(s, o);
    var to := Cells(s, c, y, o);
    forall k | 0 <= k < 4
      ensures 0 <= to[k].0 < w && to[k].1 < |g| && SquareEmpty(g, w, to[k].0, to[k].1)
    {
      HomeColumnFits(kind, o, k);
      OffsetsBounded(kind, o, k);
    }
    FitsFromEach(g, w, Cells(s, 0, 0, o), to);
    assert SpawnFits(g, w, kind, o, c, y);
  }

  /**
   * The row attach settles in: from row y upwards (decreasing), the first
   * row in which positionAlongX finds a column.
   */
  function SpawnRow(g: Grid, w: int, kind: int, o: int, x: int, y: int): (r: int)
    requires Rectangular(g, w) && Initialize(kind).Ok? && w >= 4 && y >= -3
    ensures -3 <= r <= y
    decreases y + 3
  {
    if PlaceInRow(g, w, kind, o, x, y).Some? then y
    else
      assert y > -3 by {
        HighRowPlaceable(g, w, kind, o, x, y);
      }
      SpawnRow(g, w, kind, o, x, y - 1)
  }

  /** The row attach settles in has a fitting column. */
  lemma {:induction false} SpawnRowFits(g: Grid, w: int, kind: int, o: int, x: int, y: int)
    requires Rectangular(g, w) && Initialize(kind).Ok? && w >= 4 && y >= -3
    ensures PlaceInRow(g, w, kind, o, x, SpawnRow(g, w, kind, o, x, y)).Some?
    decreases y + 3
  {
    if PlaceInRow(g, w, kind, o, x, y).None? {
      HighRowPlaceable(g, w, kind, o, x, y);
      SpawnRowFits(g, w, kind, o, x, y - 1);
    }
  }

  /**
   * Between row y and the row attach settles in, a row has a fitting column
   * exactly when it is that row.
   */
  lemma RowOutcome(g: Grid, w: int, kind: int, o: int, x: int, y: int, k: int)
    requires Rectangular(g, w) && Initialize(kind).Ok? && w >= 4 && y >= -3
    requires SpawnRow(g, w, kind, o, x, y) <= k <= y
    ensures PlaceInRow(g, w, kind, o, x, k).Some? <==> k == SpawnRow(g, w, kind, o, x, y)
  {
    SpawnRowFits(g, w, kind, o, x, y);
    if k != SpawnRow(g, w, kind, o, x, y) {
      SpawnRowFirst(g, w, kind, o, x, y, k);
    }
  }

  /** The spawn position is positionAlongX's column in the row the search from the start row settles in. */
  lemma SpawnAtRow(g: Grid, w: int, kind: int, o: int, x: int)
    requires Rectangular(g, w) && Initialize(kind).Ok? && w >= 4
    ensures var y := StartRow(OffsetsOf(kind), o);
      y >= -3 &&
      var r := SpawnRow(g, w, kind, o, x, y);
      PlaceInRow(g, w, kind, o, x, r).Some? &&
      SpawnPosition(g, w, kind, o, x) == (PlaceInRow(g, w, kind, o, x, r).value, r)
  {
    var s := OffsetsOf(kind);
    forall j | 0 <= j < 4 ensures -2 <= RelY(s, j, o) <= 2 {
      OffsetsBounded(kind, o, j);
    }
    StartRowBounded(s, o, 0, 0);
    SpawnRowFits(g, w, kind, o, x, StartRow(s, o));
  }

  /** No row between y and the row attach settles in has a fitting column. */
  lemma {:induction false} SpawnRowFirst(g: Grid, w: int, kind: int, o: int, x: int, y: int, k: int)
    requires Rectangular(g, w) && Initialize(kind).Ok? && w >= 4 && y >= -3
    requires SpawnRow(g, w, kind, o, x, y) < k <= y
    ensures PlaceInRow(g, w, kind, o, x, k).None?
    decreases y + 3
  {
    if k < y {
      HighRowPlaceable(g, w, kind, o, x, y);
      SpawnRowFirst(g, w, kind, o, x, y - 1, k);
    }
  }

  /**
   * Where attach puts a figure of the given type and orientation asked for
   * at column x: its first row is the start row of the shape, and the
   * figure fits there as seen from (0, 0).
   */
  function SpawnPosition(g: Grid, w: int, kind: int, o: int, x: int): (int, int)
    requires Rectangular(g, w) && Initialize(kind).Ok? && w >= 4
  {
    var s := OffsetsOf(kind);
    forall j | 0 <= j < 4 ensures -2 <= RelY(s, j, o) <= 2 {
      OffsetsBounded(kind, o, j);
    }
    StartRowBounded(s, o, 0, 0);
    var y := SpawnRow(g, w, kind, o, x, StartRow(s, o));
    SpawnRowFits(g, w, kind, o, x, StartRow(s, o));
    (PlaceInRow(g, w, kind, o, x, y).value, y)
  }

  /**
   * The spawn position is at most one row above the shape's start row
   * range, the figure fits there as seen from (0, 0), the column is
   * positionAlongX's choice in that row, and no row between it and the
   * start row had a fitting column.
   */
  lemma SpawnPositionSpec(g: Grid, w: int, kind: int, o: int, x: int)
    requires Rectangular(g, w) && Initialize(kind).Ok? && w >= 4
    ensures var p := SpawnPosition(g, w, kind, o, x);
      -3 <= p.1 <= 2 &&
      PlaceInRow(g, w, kind, o, x, p.1) == Some(p.0) &&
      SpawnFits(g, w, kind, o, p.0, p.1) &&
      p.1 <= StartRow(OffsetsOf(kind), o) &&
      forall k :: p.1 < k <= StartRow(OffsetsOf(kind), o) ==> PlaceInRow(g, w, kind, o, x, k).None?
  {
    var s := OffsetsOf(kind);
    forall j | 0 <= j < 4 ensures -2 <= RelY(s, j, o) <= 2 {
      OffsetsBounded(kind, o, j);
    }
    StartRowBounded(s, o, 0, 0);
    var y := SpawnRow(g, w, kind, o, x, StartRow(s, o));
    SpawnRowFits(g, w, kind, o, x, StartRow(s, o));
    PlaceInRowChoice(g, w, kind, o, x, y);
    forall k | y < k <= StartRow(s, o) ensures PlaceInRow(g, w, kind, o, x, k).None? {
      SpawnRowFirst(g, w, kind, o, x, StartRow(s, o), k);
    }
  }

  /** A spawn position lies on the board's columns and above its floor. */
  lemma SpawnOnBoard(g: Grid, w: int, kind: int, o: int, x: int, k: int)
    requires Rectangular(g, w) && Initialize(kind).Ok? && w >= 4 && 0 <= k < 4
    ensures var p := SpawnPosition(g, w, kind, o, x);
      var c := Cells(OffsetsOf(kind), p.0, p.1, o)[k];
      0 <= c.0 < w && c.1 < |g|
  {
    var p := SpawnPosition(g, w, kind, o, x);
    SpawnPositionSpec(g, w, kind, o, x);
    FitsOnBoard(g, w, Cells(OffsetsOf(kind), 0, 0, o), Cells(OffsetsOf(kind), p.0, p.1, o), k);
  }

  /** A square of a footprint, one row lower, is a square of the footprint one row lower. */
  lemma ShiftDown(s: seq<Offset>, x: int, y: int, o: int, p: (int, int))
    requires p in Cells(s, x, y, o)
    ensures (p.0, p.1 + 1) in Cells(s, x, y + 1, o)
  {
    var m :| 0 <= m < |s| && Cells(s, x, y, o)[m] == p;
    assert Cells(s, x, y + 1, o)[m] == (p.0, p.1 + 1);
  }

  /**
   * One row below each square of the footprint at (x, y) is either another
   * square of it or a row of the board or below it: never above row 0.
   */
  predicate ProbesAbove(s: seq<Offset>, x: int, y: int, o: int)
  {
    forall k :: 0 <= k < |s| ==> ProbeAbove(s, x, y, o, k)
  }

  /** The square one row below square k is the figure's own, or not above row 0. */
  predicate ProbeAbove(s: seq<Offset>, x: int, y: int, o: int, k: int)
    requires 0 <= k < |s|
  {
    (x + RelX(s, k, o), y + 1 + RelY(s, k, o)) in Cells(s, x, y, o) || y + 1 + RelY(s, k, o) >= 0
  }

  /** Moving down one row keeps every probe in the board. */
  lemma ProbesStayInBoard(s: seq<Offset>, x: int, y: int, o: int)
    requires ProbesAbove(s, x, y, o)
    ensures ProbesAbove(s, x, y + 1, o)
  {
    var below := y + 1;
    forall k | 0 <= k < |s|
      ensures ProbeAbove(s, x, below, o, k)
    {
      assert ProbeAbove(s, x, y, o, k);
      var p := (x + RelX(s, k, o), y + 1 + RelY(s, k, o));
      if p in Cells(s, x, y, o) {
        ShiftDown(s, x, y, o, p);
      }
    }
  }

  class ServerFigure {
    const kind: int
    const offsets: seq<Offset>
    const maxOrientation: int
    var board: SquareBoard?
    var xPos: int
    var yPos: int
    var orientation: int
    var color: int

    /** The shape comes from the table and an attached board is well formed. */
    predicate Valid()
      reads this
    {
      Initialize(kind) == Ok(Shape(offsets, maxOrientation)) &&
      (board != null ==> board.Valid())
    }

    /** isInside's set: the squares the figure covers now. */
    function Footprint(): (cs: seq<(int, int)>)
      reads this
      ensures |cs| == |offsets|
    {
      Cells(offsets, xPos, yPos, orientation)
    }

    /** isInside */
    predicate IsInside(x: int, y: int): (inside: bool)
      reads this
      ensures inside <==>
        (exists k :: 0 <= k < |offsets| && x == xPos + RelX(offsets, k, orientation) && y == yPos + RelY(offsets, k, orientation))
    {
      (x, y) in Footprint()
    }

    /** Every square is on a column of the board and above its floor. */
    predicate Placed()
      reads this
      requires Valid() && board != null
    {
      forall k :: 0 <= k < |offsets| ==> 0 <= Footprint()[k].0 < board.width && Footprint()[k].1 < board.height
    }

    /** canMoveTo's result for a new position and orientation. */
    predicate CanMoveToSpec(newX: int, newY: int, newOrientation: int)
      reads this, board.matrix
      requires Valid() && board != null
    {
      FitsFrom(board.Contents(), board.width, Footprint(), Cells(offsets, newX, newY, newOrientation))
    }

    /** A target position that fits lies on the board's columns and above its floor. */
    lemma TargetOnBoard(newX: int, newY: int, newOrientation: int)
      requires Valid() && board != null && CanMoveToSpec(newX, newY, newOrientation)
      ensures forall k :: 0 <= k < |offsets| ==>
        0 <= Cells(offsets, newX, newY, newOrientation)[k].0 < board.width &&
        Cells(offsets, newX, newY, newOrientation)[k].1 < board.height
    {
      forall k | 0 <= k < |offsets| ensures
        0 <= Cells(offsets, newX, newY, newOrientation)[k].0 < board.width &&
        Cells(offsets, newX, newY, newOrientation)[k].1 < board.height
      {
        FitsOnBoard(board.Contents(), board.width, Footprint(), Cells(offsets, newX, newY, newOrientation), k);
      }
    }

    /** getFigureInfo: the five fields reported to clients. */
    function Info(): (r: FigureInfo)
      reads this
    {
      FigureInfo(kind, xPos, yPos, orientation, color)
    }

    /**
     * The record getFigureInfo reports locates the figure: its type's
     * offsets, placed at its position and rotation, give the squares.
     */
    lemma InfoLocates()
      requires Valid()
      ensures var r := Info();
        Initialize(r.kind).Ok? && Footprint() == Cells(Initialize(r.kind).value.offsets, r.x, r.y, r.rotation)
    {
    }

    /** Creates an unattached figure of a table type at (0, 0), orientation 0. */
    constructor (kind: int)
      requires Initialize(kind).Ok?
      ensures Valid() && this.kind == kind && board == null
      ensures xPos == 0 && yPos == 0 && orientation == 0 && color == 0
    {
      var shape := Initialize(kind).value;
      this.kind := kind;
      offsets := shape.offsets;
      maxOrientation := shape.maxOrientation;
      board := null;
      xPos, yPos, orientation, color := 0, 0, 0, 0;
    }

    method SetColor(c: int)
      modifies this
      ensures color == c && board == old(board)
      ensures xPos == old(xPos) && yPos == old(yPos) && orientation == old(orientation)
      ensures old(Valid()) ==> Valid()
      ensures Footprint() == old(Footprint())
    {
      color := c;
    }

    /** isAttached */
    predicate IsAttached(): (attached: bool)
      reads this
      ensures attached <==> board != null
    {
      board != null
    }

    /** detach: forgets the board and leaves its squares as they are. */
    method Detach()
      modifies this
      ensures board == null && !IsAttached()
      ensures xPos == old(xPos) && yPos == old(yPos) && orientation == old(orientation) && color == old(color)
    {
      board := null;
    }

    /** canMoveTo: scans the four target squares and stops at the first that does not fit. */
    method CanMoveTo(newX: int, newY: int, newOrientation: int) returns (ok: bool)
      requires Valid() && board != null
      ensures ok == CanMoveToSpec(newX, newY, newOrientation)
    {
      var to := Cells(offsets, newX, newY, newOrientation);
      ghost var g, fp := board.Contents(), Footprint();
      FitsFromEach(g, board.width, fp, to);
      var i := 0;
      while i < 4
        invariant 0 <= i <= 4
        invariant forall k :: 0 <= k < i ==> SquareFits(g, board.width, fp, to[k])
      {
        var x := newX + RelX(offsets, i, newOrientation);
        var y := newY + RelY(offsets, i, newOrientation);
        assert (x, y) == to[i];
        board.SquareQueries(x, y);
        if x < 0 || x >= board.width || y >= board.height || (!IsInside(x, y) && !board.IsSquareEmpty(x, y)) {
          return false;
        }
        i := i + 1;
      }
      return true;
    }

    method CanMoveLeft() returns (ok: bool)
      requires Valid()
      ensures ok == (board != null && CanMoveToSpec(xPos - 1, yPos, orientation))
    {
      if board == null {
        return false;
      }
      ok := CanMoveTo(xPos - 1, yPos, orientation);
    }

    method CanMoveRight() returns (ok: bool)
      requires Valid()
      ensures ok == (board != null && CanMoveToSpec(xPos + 1, yPos, orientation))
    {
      if board == null {
        return false;
      }
      ok := CanMoveTo(xPos + 1, yPos, orientation);
    }

    method CanMoveDown() returns (ok: bool)
      requires Valid()
      ensures ok == (board != null && CanMoveToSpec(xPos, yPos + 1, orientation))
    {
      if board == null {
        return false;
      }
      ok := CanMoveTo(xPos, yPos + 1, orientation);
    }

    /** paint: writes `state` to each of the four squares; squares off the board are skipped. */
    method Paint(state: Cell)
      requires Valid() && board != null
      modifies board.matrix
      ensures forall y, x :: board.InBounds(x, y) ==>
        board.matrix[y, x] == if (x, y) in Footprint() then state else old(board.matrix[y, x])
    {
      var fp := Footprint();
      var i := 0;
      while i < 4
        invariant 0 <= i <= 4
        invariant forall y, x :: board.InBounds(x, y) ==>
          board.matrix[y, x] == if (x, y) in fp[..i] then state else old(board.matrix[y, x])
      {
        var x := xPos + RelX(offsets, i, orientation);
        var y := yPos + RelY(offsets, i, orientation);
        board.SetSquareColor(x, y, state);
        assert fp[..i + 1] == fp[..i] + [(x, y)];
        i := i + 1;
      }
      assert fp[..4] == fp;
    }

    /** clear: the figure's squares become EMPTY. */
    method Clear()
      requires Valid() && board != null
      modifies board.matrix
      ensures forall y, x :: board.InBounds(x, y) ==>
        board.matrix[y, x] == if (x, y) in Footprint() then Empty else old(board.matrix[y, x])
    {
      Paint(Empty);
    }

    /** fill: the figure's squares become OCCUPIED. */
    method Fill()
      requires Valid() && board != null
      modifies board.matrix
      ensures forall y, x :: board.InBounds(x, y) ==>
        board.matrix[y, x] == if (x, y) in Footprint() then Occupied else old(board.matrix[y, x])
    {
      Paint(Occupied);
    }

    /** fix: the figure's squares become FIXED. */
    method Fix()
      requires Valid() && board != null
      modifies board.matrix
      ensures forall y, x :: board.InBounds(x, y) ==>
        board.matrix[y, x] == if (x, y) in Footprint() then Fixed else old(board.matrix[y, x])
      ensures board.Contents() == Painted(old(board.Contents()), Footprint(), Fixed)
    {
      ghost var g := board.Contents();
      Paint(Fixed);
      board.SameContents(Painted(g, Footprint(), Fixed));
    }

    /** Clears the squares, moves to the new position and orientation, and fills them again. */
    method MoveTo(newX: int, newY: int, newOrientation: int)
      requires Valid() && board != null
      modifies this, board.matrix
      ensures Valid() && board == old(board) && color == old(color)
      ensures xPos == newX && yPos == newY && orientation == newOrientation
      ensures forall y, x :: board.InBounds(x, y) ==>
        board.matrix[y, x] == Repaint(old(board.matrix[y, x]), (x, y), old(Footprint()), Footprint(), Occupied)
      ensures old(CanMoveToSpec(newX, newY, newOrientation)) ==> Placed()
    {
      if CanMoveToSpec(newX, newY, newOrientation) {
        TargetOnBoard(newX, newY, newOrientation);
      }
      Clear();
      xPos, yPos, orientation := newX, newY, newOrientation;
      Fill();
    }

    /** moveLeft: assumes canMoveLeft; one column left, repainting the board. */
    method MoveLeft()
      requires Valid() && board != null
      modifies this, board.matrix
      ensures Valid() && board == old(board) && color == old(color)
      ensures xPos == old(xPos) - 1 && yPos == old(yPos) && orientation == old(orientation)
      ensures forall y, x :: board.InBounds(x, y) ==>
        board.matrix[y, x] == Repaint(old(board.matrix[y, x]), (x, y), old(Footprint()), Footprint(), Occupied)
      ensures old(CanMoveToSpec(xPos - 1, yPos, orientation)) ==> Placed()
    {
      MoveTo(xPos - 1, yPos, orientation);
    }

    /** moveRight: assumes canMoveRight; one column right, repainting the board. */
    method MoveRight()
      requires Valid() && board != null
      modifies this, board.matrix
      ensures Valid() && board == old(board) && color == old(color)
      ensures xPos == old(xPos) + 1 && yPos == old(yPos) && orientation == old(orientation)
      ensures forall y, x :: board.InBounds(x, y) ==>
        board.matrix[y, x] == Repaint(old(board.matrix[y, x]), (x, y), old(Footprint()), Footprint(), Occupied)
      ensures old(CanMoveToSpec(xPos + 1, yPos, orientation)) ==> Placed()
    {
      MoveTo(xPos + 1, yPos, orientation);
    }

    /** moveDown: assumes canMoveDown; one row down, repainting the board. */
    method MoveDown()
      requires Valid() && board != null
      modifies this, board.matrix
      ensures Valid() && board == old(board) && color == old(color)
      ensures xPos == old(xPos) && yPos == old(yPos) + 1 && orientation == old(orientation)
      ensures forall y, x :: board.InBounds(x, y) ==>
        board.matrix[y, x] == Repaint(old(board.matrix[y, x]), (x, y), old(Footprint()), Footprint(), Occupied)
      ensures old(CanMoveToSpec(xPos, yPos + 1, orientation)) ==> Placed()
      ensures old(ProbesInBoard()) ==> ProbesInBoard()
    {
      if ProbesInBoard() {
        ProbesStayInBoard(offsets, xPos, yPos, orientation);
      }
      MoveTo(xPos, yPos + 1, orientation);
    }

    /**
     * setRotation: the orientation becomes rotation % maxOrientation (Java's
     * remainder) directly when unattached, and on a board only when the
     * figure fits there; otherwise nothing changes.
     */
    method SetRotation(rotation: int)
      requires Valid()
      modifies this, if board != null then {board.matrix} else {}
      ensures Valid() && board == old(board) && color == old(color)
      ensures xPos == old(xPos) && yPos == old(yPos)
      ensures var newOrientation := JavaRem(rotation, maxOrientation);
        if board == null then orientation == newOrientation
        else if old(CanMoveToSpec(xPos, yPos, newOrientation)) then
          orientation == newOrientation &&
          forall y, x :: board.InBounds(x, y) ==>
            board.matrix[y, x] == Repaint(old(board.matrix[y, x]), (x, y), old(Footprint()), Footprint(), Occupied)
        else
          orientation == old(orientation) && unchanged(board.matrix)
      ensures old(board != null && Placed()) ==> Placed()
    {
      var newOrientation := JavaRem(rotation, maxOrientation);
      if board == null {
        orientation := newOrientation;
      } else {
        var ok := CanMoveTo(xPos, yPos, newOrientation);
        if ok {
          MoveTo(xPos, yPos, newOrientation);
        }
      }
    }

    /** canRotate: whether the figure fits at its next orientation. */
    method CanRotate() returns (ok: bool)
      requires Valid() && board != null
      ensures ok == CanMoveToSpec(xPos, yPos, NextOrientation(orientation, maxOrientation))
    {
      ok := CanMoveTo(xPos, yPos, NextOrientation(orientation, maxOrientation));
    }

    /**
     * rotate: a square never turns; any other figure turns to its next
     * orientation when it fits there.
     */
    method Rotate()
      requires Valid()
      modifies this, if board != null then {board.matrix} else {}
      ensures Valid() && board == old(board) && color == old(color)
      ensures xPos == old(xPos) && yPos == old(yPos)
      ensures kind == SQUARE_FIGURE ==> orientation == old(orientation) && (board != null ==> unchanged(board.matrix))
      ensures kind != SQUARE_FIGURE && board == null ==>
        orientation == NextOrientation(old(orientation), maxOrientation)
      ensures kind != SQUARE_FIGURE && board != null ==>
        if old(CanMoveToSpec(xPos, yPos, NextOrientation(orientation, maxOrientation))) then
          orientation == NextOrientation(old(orientation), maxOrientation) &&
          forall y, x :: board.InBounds(x, y) ==>
            board.matrix[y, x] == Repaint(old(board.matrix[y, x]), (x, y), old(Footprint()), Footprint(), Occupied)
        else
          orientation == old(orientation) && unchanged(board.matrix)
      ensures old(board != null && Placed()) ==> Placed()
    {
      if maxOrientation == 1 {
        return;
      }
      var next := NextOrientation(orientation, maxOrientation);
      assert JavaRem(next, maxOrientation) == next;
      SetRotation(next);
    }

    /** No square of the figure lies above row 0. */
    predicate AllVisible()
      reads this
    {
      InSight(Footprint())
    }

    /** isAllVisible: attached, and no square above row 0. */
    method IsAllVisible() returns (visible: bool)
      requires Valid()
      ensures visible == (board != null && AllVisible())
    {
      if board == null {
        return false;
      }
      var i := 0;
      while i < 4
        invariant 0 <= i <= 4
        invariant forall k :: 0 <= k < i ==> Footprint()[k].1 >= 0
      {
        if yPos + RelY(offsets, i, orientation) < 0 {
          assert Footprint()[i].1 < 0;
          return false;
        }
        i := i + 1;
      }
      return true;
    }

    /** The square one row below square k. */
    function Probe(k: int): (int, int)
      reads this
      requires 0 <= k < |offsets|
    {
      Cells(offsets, xPos, yPos + 1, orientation)[k]
    }

    /**
     * isAllWayDown reads the board directly at every probe that is not one
     * of the figure's own squares and not below the floor, so each such
     * probe must be on the board.
     */
    predicate ProbesInBoard()
      reads this
    {
      ProbesAbove(offsets, xPos, yPos, orientation)
    }

    /**
     * The square below square k is not the figure's own and is the floor or
     * a FIXED cell of the board.
     */
    predicate RestsAt(k: int)
      reads this, board.matrix
      requires Valid() && board != null && Placed() && 0 <= k < |offsets|
    {
      Probe(k) !in Footprint() && Probe(k).1 >= 0 && board.IsSquareFixed(Probe(k).0, Probe(k).1)
    }

    /**
     * The square below square k is not the figure's own and lies above row 0,
     * where isSquareFixed indexes the board's rows out of range.
     */
    predicate FaultsAt(k: int)
      reads this
      requires 0 <= k < |offsets|
    {
      Probe(k) !in Footprint() && Probe(k).1 < 0
    }

    /** Some square rests on the floor or on a FIXED square that is not the figure's own. */
    predicate Resting()
      reads this, board.matrix
      requires Valid() && board != null && Placed()
    {
      exists k :: 0 <= k < |offsets| && RestsAt(k)
    }

    /**
     * isAllWayDown's answer when it gives one: some square rests on the
     * floor or a FIXED square, and no earlier square probes above row 0.
     */
    predicate Landed()
      reads this, board.matrix
      requires Valid() && board != null && Placed()
    {
      exists k :: 0 <= k < |offsets| && RestsAt(k) && forall j :: 0 <= j < k ==> !FaultsAt(j)
    }

    /** Landed, read off the board's contents: LandsOn of the grid and the footprint. */
    lemma LandedOnGrid()
      requires Valid() && board != null && Placed()
      ensures Landed() <==> LandsOn(board.Contents(), Footprint())
    {
      var g, fp := board.Contents(), Footprint();
      forall k | 0 <= k < |offsets|
        ensures (RestsAt(k) <==> RestsOn(g, fp, k)) && (FaultsAt(k) <==> FaultsOn(fp, k))
      {
        assert Probe(k) == Below(fp, k);
      }
      if Landed() {
        var k :| 0 <= k < |offsets| && RestsAt(k) && forall j :: 0 <= j < k ==> !FaultsAt(j);
        assert forall j :: 0 <= j < k ==> !FaultsOn(fp, j);
      }
      if LandsOn(g, fp) {
        var k :| 0 <= k < |fp| && RestsOn(g, fp, k) && forall j :: 0 <= j < k ==> !FaultsOn(fp, j);
        assert forall j :: 0 <= j < k ==> !FaultsAt(j);
      }
    }

    /**
     * isAllWayDown: scans the squares in order and answers true at the first
     * one resting on the floor or a FIXED square; None stands for the
     * out-of-range row index raised when a probe above row 0 comes first.
     */
    method IsAllWayDown() returns (down: Option<bool>)
      requires Valid() && board != null && Placed()
      ensures down == Some(true) <==> Landed()
      ensures down == None <==>
        exists k :: 0 <= k < |offsets| && FaultsAt(k) && forall j :: 0 <= j < k ==> !RestsAt(j)
      ensures ProbesInBoard() ==> down == Some(Resting())
    {
      var i := 0;
      while i < 4
        invariant 0 <= i <= 4
        invariant forall k :: 0 <= k < i ==> !RestsAt(k) && !FaultsAt(k)
      {
        var x := xPos + RelX(offsets, i, orientation);
        var y := yPos + 1 + RelY(offsets, i, orientation);
        assert (x, y) == Probe(i);
        if !IsInside(x, y) {
          if y >= board.height {
            assert RestsAt(i);
            return Some(true);
          }
          if y < 0 {
            assert FaultsAt(i);
            assert !ProbeAbove(offsets, xPos, yPos, orientation, i);
            return None;
          }
          if board.IsSquareFixed(x, y) {
            assert RestsAt(i);
            return Some(true);
          }
        }
        i := i + 1;
      }
      return Some(false);
    }

    /**
     * attach: detaches from any previous board, resets the position to
     * (0, 0), takes the shape's start row, and moves up a row at a time
     * until positionAlongX finds a column; then fills the squares.
     */
    method Attach(b: SquareBoard, newX: int) returns (attached: bool)
      requires Valid() && b.Valid() && b.width >= 4
      modifies this, b.matrix
      ensures attached && Valid() && board == b && IsAttached() && Placed()
      ensures orientation == old(orientation) && color == old(color)
      ensures (xPos, yPos) == old(SpawnPosition(b.Contents(), b.width, kind, orientation, newX))
      ensures forall y, x :: b.InBounds(x, y) ==>
        b.matrix[y, x] == if (x, y) in Footprint() then Occupied else old(b.matrix[y, x])
    {
      ghost var g := b.Contents();
      if board != null {
        Detach();
      }
      xPos := 0;
      yPos := 0;
      var newY := FirstRow();
      board := b;
      assert b.Contents() == g && orientation == old(orientation) && color == old(color);
      newY := SettleRow(newX, newY);
      ghost var spawned := (xPos, yPos);
      assert spawned == SpawnPosition(g, b.width, kind, orientation, newX);
      Fill();
      assert (xPos, yPos) == spawned;
      return true;
    }

    /**
     * attach's first row: each square lower than the candidate row allows
     * lifts the candidate so that square lands on row 0.
     */
    method FirstRow() returns (newY: int)
      requires Valid()
      ensures newY == StartRow(offsets, orientation)
      ensures -2 <= newY <= 2
    {
      newY := 0;
      var i := 0;
      while i < 4
        invariant 0 <= i <= 4
        invariant StartRowFrom(offsets, orientation, i, newY) == StartRow(offsets, orientation)
      {
        if RelY(offsets, i, orientation) - newY > 0 {
          newY := -RelY(offsets, i, orientation);
        }
        i := i + 1;
      }
      StartRowInRange();
    }

    /** The start row of attach is within two rows of row 0. */
    lemma StartRowInRange()
      requires Valid()
      ensures -2 <= StartRow(offsets, orientation) <= 2
    {
      forall j | 0 <= j < 4 ensures -2 <= RelY(offsets, j, orientation) <= 2 {
        OffsetsBounded(kind, orientation, j);
      }
      StartRowBounded(offsets, orientation, 0, 0);
    }

    /**
     * attach's row loop: calls positionAlongX on row y, then on the row above,
     * and so on until a column is found.
     */
    method SettleRow(x: int, y: int) returns (newY: int)
      requires Valid() && board != null && board.width >= 4 && xPos == 0 && yPos == 0
      requires y == StartRow(offsets, orientation)
      modifies this
      ensures Valid() && board == old(board) && orientation == old(orientation) && color == old(color)
      ensures (xPos, yPos) == SpawnPosition(board.Contents(), board.width, kind, orientation, x)
      ensures Placed()
    {
      StartRowInRange();
      var b := board;
      ghost var g := b.Contents();
      ghost var o := orientation;
      ghost var r := SpawnRow(g, b.width, kind, o, x, y);
      newY := y;
      var found := PositionAlongX(x, newY);
      RowOutcome(g, b.width, kind, o, x, y, newY);
      RowOutcome(g, b.width, kind, o, x, y, r);
      while !found
        modifies this
        invariant Valid() && board == b && orientation == o && color == old(color)
        invariant r <= newY <= y && PlaceInRow(g, b.width, kind, o, x, r).Some?
        invariant !found ==> r < newY && xPos == 0 && yPos == 0
        invariant found ==> newY == r && (xPos, yPos) == (PlaceInRow(g, b.width, kind, o, x, r).value, r)
        decreases newY - r
      {
        newY := newY - 1;
        found := PositionAlongX(x, newY);
        RowOutcome(g, b.width, kind, o, x, y, newY);
      }
      SpawnAtRow(g, b.width, kind, o, x);
      SpawnPlaced(x);
    }

    /** A figure at its spawn position is placed on the board. */
    lemma SpawnPlaced(x: int)
      requires Valid() && board != null && board.width >= 4
      requires (xPos, yPos) == SpawnPosition(board.Contents(), board.width, kind, orientation, x)
      ensures Placed()
    {
      forall k | 0 <= k < 4 ensures 0 <= Footprint()[k].0 < board.width && Footprint()[k].1 < board.height {
        SpawnOnBoard(board.Contents(), board.width, kind, orientation, x, k);
      }
    }

    /**
     * positionAlongX: with the figure at (0, 0), looks for a column in row y
     * (left of x first, then right of it) and moves the figure there.
     */
    /** At (0, 0), canMoveTo in the current orientation is the spawn test. */
    lemma FitsAtOrigin(newX: int, newY: int)
      requires Valid() && board != null && xPos == 0 && yPos == 0
      ensures CanMoveToSpec(newX, newY, orientation) == SpawnFits(board.Contents(), board.width, kind, orientation, newX, newY)
    {
      assert Footprint() == Cells(OffsetsOf(kind), 0, 0, orientation);
    }

    method PositionAlongX(x: int, y: int) returns (found: bool)
      requires Valid() && board != null && xPos == 0 && yPos == 0
      modifies this
      ensures Valid() && board == old(board) && orientation == old(orientation) && color == old(color)
      ensures found == PlaceInRow(board.Contents(), board.width, kind, orientation, x, y).Some?
      ensures found ==> xPos == PlaceInRow(board.Contents(), board.width, kind, orientation, x, y).value && yPos == y
      ensures !found ==> xPos == 0 && yPos == 0
    {
      var ok, newX := SearchLeft(x, y);
      if !ok {
        ok, newX := SearchRight(x, y);
      }
      if ok {
        xPos := newX;
        yPos := y;
      }
      return ok;
    }

    /** positionAlongX's first loop: from column x leftwards while the figure does not fit. */
    method SearchLeft(x: int, y: int) returns (ok: bool, newX: int)
      requires Valid() && board != null && xPos == 0 && yPos == 0
      ensures ok == ScanLeft(board.Contents(), board.width, kind, orientation, x, y).Some?
      ensures ok ==> newX == ScanLeft(board.Contents(), board.width, kind, orientation, x, y).value
    {
      newX := x;
      ok := CanMoveTo(newX, y, orientation);
      FitsAtOrigin(newX, y);
      while !ok
        invariant newX <= x
        invariant ok == SpawnFits(board.Contents(), board.width, kind, orientation, newX, y)
        invariant forall c :: newX < c <= x ==> !SpawnFits(board.Contents(), board.width, kind, orientation, c, y)
        decreases newX
      {
        if newX > 0 {
          ghost var tried := newX;
          newX := newX - 1;
          ok := CanMoveTo(newX, y, orientation);
          FitsAtOrigin(newX, y);
          forall c | newX < c <= x ensures !SpawnFits(board.Contents(), board.width, kind, orientation, c, y) {
            if c == tried {
            }
          }
        } else {
          break;
        }
      }
      ghost var left := ScanLeft(board.Contents(), board.width, kind, orientation, x, y);
      if ok {
        SpawnColumnOnBoard(board.Contents(), board.width, kind, orientation, newX, y);
        assert left.Some? && left.value == newX;
      } else {
        ScanLeftExhausted(board.Contents(), board.width, kind, orientation, x, y, newX);
      }
    }

    /** positionAlongX's second loop: from column x rightwards while the figure does not fit. */
    method SearchRight(x: int, y: int) returns (ok: bool, newX: int)
      requires Valid() && board != null && xPos == 0 && yPos == 0
      ensures ok == ScanRight(board.Contents(), board.width, kind, orientation, x, y).Some?
      ensures ok ==> newX == ScanRight(board.Contents(), board.width, kind, orientation, x, y).value
    {
      newX := x;
      ok := CanMoveTo(newX, y, orientation);
      FitsAtOrigin(newX, y);
      while !ok
        invariant x <= newX
        invariant ok == SpawnFits(board.Contents(), board.width, kind, orientation, newX, y)
        invariant forall c :: x <= c < newX ==> !SpawnFits(board.Contents(), board.width, kind, orientation, c, y)
        decreases board.width - newX
      {
        if newX < board.width - 1 {
          ghost var tried := newX;
          newX := newX + 1;
          ok := CanMoveTo(newX, y, orientation);
          FitsAtOrigin(newX, y);
          forall c | x <= c < newX ensures !SpawnFits(board.Contents(), board.width, kind, orientation, c, y) {
            if c == tried {
            }
          }
        } else {
          break;
        }
      }
      ghost var right := ScanRight(board.Contents(), board.width, kind, orientation, x, y);
      if ok {
        SpawnColumnOnBoard(board.Contents(), board.width, kind, orientation, newX, y);
        assert right.Some? && right.value == newX;
      } else {
        ScanRightExhausted(board.Contents(), board.width, kind, orientation, x, y, newX);
      }
    }
  }
}
