/**
 * The board's contents as a value: a sequence of rows, indexed by the
 * vertical coordinate first and the horizontal one second, as the board's
 * byte matrix is.
 */
module Grids {
  /** The three cell states: EMPTY (-1), OCCUPIED (0, a live figure) and FIXED (1). */
  datatype Cell = Empty | Occupied | Fixed

  type Grid = seq<seq<Cell>>

  /** Every row has the same width. */
  predicate Rectangular(g: Grid, w: int)
  {
    forall y :: 0 <= y < |g| ==> |g[y]| == w
  }

  /**
   * isSquareEmpty on a grid w columns wide: inside, whether the cell is
   * EMPTY; outside, true exactly above the grid within its columns.
   */
  predicate SquareEmpty(g: Grid, w: int, x: int, y: int)
    requires Rectangular(g, w)
  {
    if !(0 <= x < w && 0 <= y < |g|) then 0 <= x < w && y < 0 else g[y][x] == Empty
  }

  /** isLineFull: rows outside the board count as full. */
  predicate LineFull(g: Grid, y: int)
  {
    !(0 <= y < |g|) || forall x :: 0 <= x < |g[y]| ==> g[y][x] == Fixed
  }

  /** isLineEmpty: rows outside the board never count as empty. */
  predicate LineEmpty(g: Grid, y: int)
  {
    0 <= y < |g| && forall x :: 0 <= x < |g[y]| ==> g[y][x] == Empty
  }

  /**
   * The value of cell (x, i) after removing line y. Rows 1..y take the cell
   * above unless one of the two is OCCUPIED; row 0 empties except where
   * OCCUPIED; rows below y keep their value.
   */
  function CellAfterRemove(g: Grid, y: int, i: int, x: int): (c: Cell)
    requires 0 <= i < |g| && 0 <= x < |g[i]|
    requires i > 0 && i <= y ==> x < |g[i - 1]|
  {
    if i > y then g[i][x]
    else if i == 0 then (if g[0][x] == Occupied then Occupied else Empty)
    else if g[i - 1][x] != Occupied && g[i][x] != Occupied then g[i - 1][x]
    else g[i][x]
  }

  /** removeLine: a row outside the board leaves the grid as it is. */
  function RemoveLine(g: Grid, y: int): (r: Grid)
    requires Rectangular(g, if |g| == 0 then 0 else |g[0]|)
    ensures |r| == |g| && forall i :: 0 <= i < |g| ==> |r[i]| == |g[i]|
    ensures !(0 <= y < |g|) ==> r == g
    ensures forall i :: 0 <= i && y < i < |g| ==> r[i] == g[i]
  {
    if !(0 <= y < |g|) then
      g
    else
      var r := seq(|g|, i requires 0 <= i < |g| =>
        seq(|g[i]|, x requires 0 <= x < |g[i]| => CellAfterRemove(g, y, i, x)));
      assert forall i :: 0 <= i && y < i < |g| ==> r[i] == g[i] by {
        forall i | 0 <= i && y < i < |g| ensures r[i] == g[i] {
          assert forall x :: 0 <= x < |g[i]| ==> r[i][x] == g[i][x];
        }
      }
      r
  }

  /** The number of FIXED cells of column c in rows 0..n-1. */
  function FixedInColumn(g: Grid, c: int, n: int): (k: nat)
    requires 0 <= n <= |g| && Rectangular(g, if |g| == 0 then 0 else |g[0]|)
    requires 0 <= c && (|g| > 0 ==> c < |g[0]|)
    ensures k <= n
  {
    if n == 0 then 0 else FixedInColumn(g, c, n - 1) + (if g[n - 1][c] == Fixed then 1 else 0)
  }

  /** Column c has no OCCUPIED cell. */
  predicate FreeColumn(g: Grid, c: int)
    requires Rectangular(g, if |g| == 0 then 0 else |g[0]|)
  {
    |g| > 0 && 0 <= c < |g[0]| && forall y :: 0 <= y < |g| ==> g[y][c] != Occupied
  }

  /** No row below row y is full. */
  predicate NoFullRowBelow(g: Grid, y: int)
  {
    forall j :: 0 <= j && y < j < |g| ==> !LineFull(g, j)
  }

  /** removeLine(y) leaves the rows below y, and so their fullness, alone. */
  lemma RemoveLineKeepsRowsBelow(g: Grid, y: int)
    requires Rectangular(g, if |g| == 0 then 0 else |g[0]|)
    requires NoFullRowBelow(g, y)
    ensures NoFullRowBelow(RemoveLine(g, y), y)
  {
    var r := RemoveLine(g, y);
    forall j | 0 <= j && y < j < |g| ensures !LineFull(r, j) {
      assert !LineFull(g, j);
      assert |r| == |g| && r[j] == g[j];
      var x :| 0 <= x < |g[j]| && g[j][x] != Fixed;
      assert r[j][x] != Fixed;
    }
  }

  /** The two grids have the same shape and their OCCUPIED cells in the same places. */
  predicate SameOccupied(g: Grid, h: Grid)
  {
    |g| == |h| &&
    forall y :: 0 <= y < |g| ==>
      |g[y]| == |h[y]| &&
      forall x :: 0 <= x < |g[y]| ==> (g[y][x] == Occupied <==> h[y][x] == Occupied)
  }

  /** removeLine never turns a cell OCCUPIED and never changes an OCCUPIED one. */
  lemma RemoveLineKeepsOccupied(g: Grid, y: int)
    requires Rectangular(g, if |g| == 0 then 0 else |g[0]|)
    ensures SameOccupied(g, RemoveLine(g, y))
  {
  }

  /**
   * In a column without OCCUPIED cells, removing a full line drops that
   * column's FIXED count by one and keeps the column free.
   */
  lemma {:induction false} RemoveFullLineShrinksColumn(g: Grid, y: int, c: int)
    requires Rectangular(g, if |g| == 0 then 0 else |g[0]|)
    requires 0 <= y < |g| && LineFull(g, y) && FreeColumn(g, c)
    ensures FreeColumn(RemoveLine(g, y), c)
    ensures FixedInColumn(RemoveLine(g, y), c, |g|) + 1 == FixedInColumn(g, c, |g|)
  {
    var r := RemoveLine(g, y);
    ShiftedColumnCount(g, y, c, y + 1);
    SameColumnCount(g, r, y, c, |g|);
  }

  /** Sharing OCCUPIED cells is transitive. */
  lemma SameOccupiedTrans(g: Grid, h: Grid, k: Grid)
    requires SameOccupied(g, h) && SameOccupied(h, k)
    ensures SameOccupied(g, k)
  {
  }

  /**
   * One step of removeFullLines: removing a full line at y keeps the
   * OCCUPIED cells, the free column and the clear rows below y, and uses up
   * one FIXED cell of the free column.
   */
  lemma RemoveFullLineStep(g: Grid, y: int, c: int)
    requires Rectangular(g, if |g| == 0 then 0 else |g[0]|)
    requires 0 <= y < |g| && LineFull(g, y) && FreeColumn(g, c) && NoFullRowBelow(g, y)
    ensures var r := RemoveLine(g, y);
      SameOccupied(g, r) && FreeColumn(r, c) && NoFullRowBelow(r, y) &&
      FixedInColumn(r, c, |g|) < FixedInColumn(g, c, |g|)
  {
    RemoveFullLineShrinksColumn(g, y, c);
    RemoveLineKeepsOccupied(g, y);
    RemoveLineKeepsRowsBelow(g, y);
  }

  /** Below the removed line the column count of the result lags one row behind. */
  lemma {:induction false} ShiftedColumnCount(g: Grid, y: int, c: int, n: int)
    requires Rectangular(g, if |g| == 0 then 0 else |g[0]|)
    requires 0 <= y < |g| && FreeColumn(g, c) && 1 <= n <= y + 1
    ensures FixedInColumn(RemoveLine(g, y), c, n) == FixedInColumn(g, c, n - 1)
  {
    if n > 1 {
      ShiftedColumnCount(g, y, c, n - 1);
    }
  }

  /** Rows y+1..n-1 are the same in both grids, so the counts differ as they did at row y+1. */
  lemma {:induction false} SameColumnCount(g: Grid, r: Grid, y: int, c: int, n: int)
    requires Rectangular(g, if |g| == 0 then 0 else |g[0]|)
    requires 0 <= y < |g| && LineFull(g, y) && FreeColumn(g, c)
    requires r == RemoveLine(g, y) && y + 1 <= n <= |g|
    ensures FixedInColumn(r, c, n) + 1 == FixedInColumn(g, c, n)
  {
    if n > y + 1 {
      SameColumnCount(g, r, y, c, n - 1);
    } else {
      ShiftedColumnCount(g, y, c, y + 1);
      assert g[y][c] == Fixed;
    }
  }

  /**
   * removeFullLines from row y upwards, with c a column that has no
   * OCCUPIED cell: a full row y is removed and row y tested again; any
   * other row y is left and row y - 1 tested. The column's FIXED cells are
   * what runs out: each removal takes one of them.
   */
  function RemoveFullFrom(g: Grid, y: int, c: int): (r: Grid)
    requires Rectangular(g, if |g| == 0 then 0 else |g[0]|)
    requires -1 <= y < |g| && FreeColumn(g, c)
    ensures |r| == |g| && Rectangular(r, |g[0]|)
    decreases y + 1, FixedInColumn(g, c, |g|)
  {
    if y < 0 then g
    else if LineFull(g, y) then
      RemoveFullLineShrinksColumn(g, y, c);
      RemoveFullFrom(RemoveLine(g, y), y, c)
    else RemoveFullFrom(g, y - 1, c)
  }

  /** Which column without OCCUPIED cells measures the scan does not matter. */
  lemma {:induction false} RemoveFullFromAnyColumn(g: Grid, y: int, c: int, d: int)
    requires Rectangular(g, if |g| == 0 then 0 else |g[0]|)
    requires -1 <= y < |g| && FreeColumn(g, c) && FreeColumn(g, d)
    ensures RemoveFullFrom(g, y, c) == RemoveFullFrom(g, y, d)
    decreases y + 1, FixedInColumn(g, c, |g|)
  {
    if y >= 0 {
      if LineFull(g, y) {
        RemoveFullLineShrinksColumn(g, y, c);
        RemoveFullLineShrinksColumn(g, y, d);
        RemoveFullFromAnyColumn(RemoveLine(g, y), y, c, d);
      } else {
        RemoveFullFromAnyColumn(g, y - 1, c, d);
      }
    }
  }

  /**
   * Once the rows below y are not full, no row at all is full after the
   * scan from y: a removal re-tests its own row, and leaves the rows below
   * it alone.
   */
  lemma {:induction false} RemoveFullFromLeavesNoFullLine(g: Grid, y: int, c: int)
    requires Rectangular(g, if |g| == 0 then 0 else |g[0]|)
    requires -1 <= y < |g| && FreeColumn(g, c) && NoFullRowBelow(g, y)
    ensures forall j :: 0 <= j < |g| ==> !LineFull(RemoveFullFrom(g, y, c), j)
    decreases y + 1, FixedInColumn(g, c, |g|)
  {
    if y >= 0 {
      if LineFull(g, y) {
        RemoveFullLineShrinksColumn(g, y, c);
        RemoveLineKeepsRowsBelow(g, y);
        RemoveFullFromLeavesNoFullLine(RemoveLine(g, y), y, c);
      } else {
        RemoveFullFromLeavesNoFullLine(g, y - 1, c);
      }
    }
  }

  /** The scan never turns a cell OCCUPIED and never changes an OCCUPIED one. */
  lemma {:induction false} RemoveFullFromKeepsOccupied(g: Grid, y: int, c: int)
    requires Rectangular(g, if |g| == 0 then 0 else |g[0]|)
    requires -1 <= y < |g| && FreeColumn(g, c)
    ensures SameOccupied(g, RemoveFullFrom(g, y, c))
    decreases y + 1, FixedInColumn(g, c, |g|)
  {
    if y >= 0 {
      if LineFull(g, y) {
        RemoveFullLineShrinksColumn(g, y, c);
        RemoveLineKeepsOccupied(g, y);
        RemoveFullFromKeepsOccupied(RemoveLine(g, y), y, c);
        SameOccupiedTrans(g, RemoveLine(g, y), RemoveFullFrom(g, y, c));
      } else {
        RemoveFullFromKeepsOccupied(g, y - 1, c);
      }
    }
  }

  /** Without a full row in rows 0..y the scan changes nothing. */
  lemma {:induction false} RemoveFullFromNoneFull(g: Grid, y: int, c: int)
    requires Rectangular(g, if |g| == 0 then 0 else |g[0]|)
    requires -1 <= y < |g| && FreeColumn(g, c)
    requires forall j :: 0 <= j <= y ==> !LineFull(g, j)
    ensures RemoveFullFrom(g, y, c) == g
    decreases y + 1
  {
    if y >= 0 {
      RemoveFullFromNoneFull(g, y - 1, c);
    }
  }

  /**
   * removeFullLines on a grid whose only non-empty row is the bottom one,
   * and that row full, leaves every row EMPTY: it removes just that row.
   */
  lemma OnlyFullLineRemoved(g: Grid)
    requires Clearable(g)
    requires LineFull(g, |g| - 1)
    requires forall i :: 0 <= i < |g| - 1 ==> LineEmpty(g, i)
    ensures var r := FullLinesRemoved(g); forall i :: 0 <= i < |r| ==> LineEmpty(r, i)
  {
    var c :| FreeColumn(g, c);
    FullLinesRemovedFacts(g);
    var y := |g| - 1;
    var r := RemoveLine(g, y);
    RemoveOnlyFullLine(g, y);
    RemoveFullLineShrinksColumn(g, y, c);
    assert RemoveFullFrom(g, y, c) == RemoveFullFrom(r, y, c);
    forall j | 0 <= j <= y ensures !LineFull(r, j) {
      assert LineEmpty(r, j);
      assert |r[j]| > 0 && r[j][0] == Empty;
    }
    RemoveFullFromNoneFull(r, y, c);
  }

  /**
   * The scan from the bottom row: any column without OCCUPIED cells gives
   * the same result, no row is left full, the OCCUPIED cells stay, and a
   * grid without full rows is left as it is.
   */
  lemma RemoveFullFromFacts(g: Grid, c: int)
    requires Rectangular(g, if |g| == 0 then 0 else |g[0]|) && FreeColumn(g, c)
    ensures var r := RemoveFullFrom(g, |g| - 1, c);
      (forall d :: FreeColumn(g, d) ==> r == RemoveFullFrom(g, |g| - 1, d)) &&
      (forall j :: 0 <= j < |g| ==> !LineFull(r, j)) &&
      SameOccupied(g, r) &&
      ((forall j :: 0 <= j < |g| ==> !LineFull(g, j)) ==> r == g)
  {
    forall d | FreeColumn(g, d) ensures RemoveFullFrom(g, |g| - 1, c) == RemoveFullFrom(g, |g| - 1, d) {
      RemoveFullFromAnyColumn(g, |g| - 1, c, d);
    }
    RemoveFullFromLeavesNoFullLine(g, |g| - 1, c);
    RemoveFullFromKeepsOccupied(g, |g| - 1, c);
    if forall j :: 0 <= j < |g| ==> !LineFull(g, j) {
      RemoveFullFromNoneFull(g, |g| - 1, c);
    }
  }

  /** The grid has a column without OCCUPIED cells, so removeFullLines ends on it. */
  ghost predicate Clearable(g: Grid)
  {
    Rectangular(g, if |g| == 0 then 0 else |g[0]|) && exists c :: FreeColumn(g, c)
  }

  /**
   * removeFullLines on a grid with a column without OCCUPIED cells: the
   * scan from the bottom row, whichever such column measures it.
   */
  ghost function FullLinesRemoved(g: Grid): (r: Grid)
    requires Clearable(g)
    ensures |r| == |g| && Rectangular(r, |g[0]|)
  {
    var c :| FreeColumn(g, c);
    RemoveFullFrom(g, |g| - 1, c)
  }

  /**
   * After removeFullLines no row is full, the OCCUPIED cells are where they
   * were, and a grid without a full row is left as it is.
   */
  lemma FullLinesRemovedFacts(g: Grid)
    requires Clearable(g)
    ensures var r := FullLinesRemoved(g);
      (forall c :: FreeColumn(g, c) ==> r == RemoveFullFrom(g, |g| - 1, c)) &&
      (forall j :: 0 <= j < |r| ==> !LineFull(r, j)) &&
      SameOccupied(g, r) &&
      ((forall j :: 0 <= j < |g| ==> !LineFull(g, j)) ==> r == g)
  {
    var c :| FreeColumn(g, c);
    RemoveFullFromFacts(g, c);
  }

  /** The grid with the squares of fp set to `state`: figure.paint on a value. */
  function Painted(g: Grid, fp: seq<(int, int)>, state: Cell): (r: Grid)
    ensures |r| == |g| && forall y :: 0 <= y < |g| ==> |r[y]| == |g[y]|
    ensures forall y, x :: 0 <= y < |g| && 0 <= x < |g[y]| ==> r[y][x] == if (x, y) in fp then state else g[y][x]
  {
    seq(|g|, y requires 0 <= y < |g| =>
      seq(|g[y]|, x requires 0 <= x < |g[y]| => if (x, y) in fp then state else g[y][x]))
  }

  /** Painting squares FIXED keeps a column without OCCUPIED cells so, and the grid clearable. */
  lemma FixedKeepsClearable(g: Grid, fp: seq<(int, int)>)
    requires Clearable(g)
    ensures Clearable(Painted(g, fp, Fixed))
  {
    var c :| FreeColumn(g, c);
    assert FreeColumn(Painted(g, fp, Fixed), c);
  }

  /** Fixing a figure and clearing full rows leaves OCCUPIED exactly the cells that were
      OCCUPIED outside the figure, whatever rows collapse. */
  lemma FixedAndClearedOccupied(g: Grid, fp: seq<(int, int)>)
    requires Clearable(Painted(g, fp, Fixed))
    ensures var r := FullLinesRemoved(Painted(g, fp, Fixed));
      |r| == |g| &&
      forall y, x :: 0 <= y < |g| && 0 <= x < |g[y]| ==>
        (r[y][x] == Occupied <==> g[y][x] == Occupied && (x, y) !in fp)
  {
    var p := Painted(g, fp, Fixed);
    FullLinesRemovedFacts(p);
    var r := FullLinesRemoved(p);
    forall y, x | 0 <= y < |g| && 0 <= x < |g[y]|
      ensures r[y][x] == Occupied <==> g[y][x] == Occupied && (x, y) !in fp
    {
      assert r[y][x] == Occupied <==> p[y][x] == Occupied;
    }
  }

  /** A board whose only non-empty row is one full row empties when that row is removed. */
  lemma RemoveOnlyFullLine(g: Grid, y: int)
    requires Rectangular(g, if |g| == 0 then 0 else |g[0]|)
    requires 0 <= y < |g| && LineFull(g, y)
    requires forall i :: 0 <= i < |g| && i != y ==> LineEmpty(g, i)
    ensures forall i :: 0 <= i < |g| ==> LineEmpty(RemoveLine(g, y), i)
  {
    var r := RemoveLine(g, y);
    forall i | 0 <= i < |g| ensures LineEmpty(r, i) {
      forall x | 0 <= x < |r[i]| ensures r[i][x] == Empty {
        if 0 < i <= y {
          assert LineEmpty(g, i - 1) && g[i - 1][x] == Empty;
          assert g[i][x] != Occupied by {
            if i < y { assert LineEmpty(g, i); }
          }
        } else if i == 0 {
          assert g[0][x] != Occupied by {
            if y > 0 { assert LineEmpty(g, 0); }
          }
        } else {
          assert LineEmpty(g, i);
        }
      }
    }
  }
}
