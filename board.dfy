/**
 * SquareBoard: a width x height matrix of cells, updated in place. The board
 * is walled on the left, right and bottom and open at the top: positions
 * above it read as empty but are never stored.
 */
module Board {
  import opened Grids

  class SquareBoard {
    const width: int
    const height: int
    /** Indexed by the vertical coordinate, then the horizontal one. */
    const matrix: array2<Cell>

    predicate Valid()
    {
      matrix.Length0 == height && matrix.Length1 == width
    }

    /** The matrix as a value. */
    function Contents(): (g: Grid)
      requires Valid()
      reads matrix
      ensures |g| == height && Rectangular(g, width)
      ensures forall y, x :: 0 <= y < height && 0 <= x < width ==> g[y][x] == matrix[y, x]
    {
      seq(height, y requires 0 <= y < height reads matrix =>
        seq(width, x requires 0 <= x < width reads matrix => matrix[y, x]))
    }

    predicate InBounds(x: int, y: int)
    {
      0 <= x < width && 0 <= y < height
    }

    /** Creates an all-EMPTY board. */
    constructor (w: int, h: int)
      requires w >= 0 && h >= 0
      ensures width == w && height == h && Valid() && fresh(matrix)
      ensures forall y, x :: 0 <= y < h && 0 <= x < w ==> matrix[y, x] == Empty
    {
      width, height := w, h;
      matrix := new Cell[h, w];
      new;
      Clear();
    }

    /**
     * isSquareEmpty: inside the board, whether the cell is EMPTY; outside,
     * true exactly above the board within its columns.
     */
    predicate IsSquareEmpty(x: int, y: int)
      requires Valid()
      reads matrix
    {
      if !InBounds(x, y) then 0 <= x < width && y < 0 else matrix[y, x] == Empty
    }

    /**
     * isSquareFixed: any row at or below the floor counts as fixed; above
     * the floor the cell is read directly, so it must be on the board.
     */
    predicate IsSquareFixed(x: int, y: int)
      requires Valid()
      requires y >= height || InBounds(x, y)
      reads matrix
    {
      y >= height || matrix[y, x] == Fixed
    }

    /** getSquareColor: the cell's state, or EMPTY off the board. */
    function GetSquareColor(x: int, y: int): Cell
      requires Valid()
      reads matrix
    {
      if !InBounds(x, y) then Empty else matrix[y, x]
    }

    /**
     * The three readers agree on the board: a cell is empty or fixed as
     * getSquareColor reports it. Off the board the walls and the floor are
     * never empty, the floor is fixed, and only the open top reads as empty.
     */
    lemma SquareQueries(x: int, y: int)
      requires Valid()
      ensures InBounds(x, y) ==> (IsSquareEmpty(x, y) <==> GetSquareColor(x, y) == Empty)
      ensures InBounds(x, y) ==> (IsSquareFixed(x, y) <==> GetSquareColor(x, y) == Fixed)
      ensures (x < 0 || x >= width || y >= height) ==> !IsSquareEmpty(x, y)
      ensures y >= height ==> IsSquareFixed(x, y)
      ensures 0 <= x < width && y < 0 ==> IsSquareEmpty(x, y) && GetSquareColor(x, y) == Empty
      ensures IsSquareEmpty(x, y) == SquareEmpty(Contents(), width, x, y)
    {
    }

    /** setSquareColor: writes one cell; off the board it does nothing. */
    method SetSquareColor(x: int, y: int, state: Cell)
      requires Valid()
      modifies matrix
      ensures forall j, i :: 0 <= j < height && 0 <= i < width ==>
        matrix[j, i] == if i == x && j == y then state else old(matrix[j, i])
    {
      if !InBounds(x, y) {
        return;
      }
      matrix[y, x] := state;
    }

    /** clear: every cell becomes EMPTY. */
    method Clear()
      requires Valid()
      modifies matrix
      ensures forall y, x :: 0 <= y < height && 0 <= x < width ==> matrix[y, x] == Empty
    {
      var y := 0;
      while y < height
        invariant 0 <= y <= height
        invariant forall j, i :: 0 <= j < y && 0 <= i < width ==> matrix[j, i] == Empty
      {
        var x := 0;
        while x < width
          invariant 0 <= x <= width
          invariant forall j, i :: 0 <= j < y && 0 <= i < width ==> matrix[j, i] == Empty
          invariant forall i :: 0 <= i < x ==> matrix[y, i] == Empty
        {
          matrix[y, x] := Empty;
          x := x + 1;
        }
        y := y + 1;
      }
    }

    /** isLineEmpty */
    method IsLineEmpty(y: int) returns (empty: bool)
      requires Valid()
      ensures empty == LineEmpty(Contents(), y)
    {
      if y < 0 || y >= height {
        return false;
      }
      var x := 0;
      while x < width
        invariant 0 <= x <= width
        invariant forall i :: 0 <= i < x ==> matrix[y, i] == Empty
      {
        if matrix[y, x] != Empty {
          return false;
        }
        x := x + 1;
      }
      return true;
    }

    /** isLineFull */
    method IsLineFull(y: int) returns (full: bool)
      requires Valid()
      ensures full == LineFull(Contents(), y)
    {
      if y < 0 || y >= height {
        return true;
      }
      var x := 0;
      while x < width
        invariant 0 <= x <= width
        invariant forall i :: 0 <= i < x ==> matrix[y, i] == Fixed
      {
        if matrix[y, x] != Fixed {
          return false;
        }
        x := x + 1;
      }
      return true;
    }

    /** removeLine: collapses the rows above y onto it, leaving OCCUPIED cells in place. */
    method RemoveLine(y: int)
      requires Valid()
      modifies matrix
      ensures Contents() == Grids.RemoveLine(old(Contents()), y)
    {
      if y < 0 || y >= height {
        return;
      }
      ghost var g := Contents();
      var r := y;
      while r > 0
        invariant 0 <= r <= y
        invariant forall j, i :: 0 <= j < height && 0 <= i < width ==>
          matrix[j, i] == if r < j then CellAfterRemove(g, y, j, i) else g[j][i]
      {
        var x := 0;
        while x < width
          invariant 0 <= x <= width
          invariant forall j, i :: 0 <= j < height && 0 <= i < width ==>
            matrix[j, i] == if r < j || (j == r && i < x) then CellAfterRemove(g, y, j, i) else g[j][i]
        {
          if matrix[r - 1, x] != Occupied && matrix[r, x] != Occupied {
            matrix[r, x] := matrix[r - 1, x];
          }
          x := x + 1;
        }
        r := r - 1;
      }
      var x := 0;
      while x < width
        invariant 0 <= x <= width
        invariant forall j, i :: 0 <= j < height && 0 <= i < width ==>
          matrix[j, i] == if 0 < j || i < x then CellAfterRemove(g, y, j, i) else g[j][i]
      {
        if matrix[0, x] != Occupied {
          matrix[0, x] := Empty;
        }
        x := x + 1;
      }
      SameContents(Grids.RemoveLine(g, y));
    }

    /** A grid that agrees with the matrix cell by cell is its contents. */
    lemma SameContents(h: Grid)
      requires Valid() && |h| == height && Rectangular(h, width)
      requires forall j, i :: 0 <= j < height && 0 <= i < width ==> h[j][i] == matrix[j, i]
      ensures Contents() == h
    {
      var c := Contents();
      forall j | 0 <= j < height ensures c[j] == h[j] {
      }
    }

    /** A column with no OCCUPIED cell. */
    ghost predicate HasFreeColumn()
      requires Valid()
      reads matrix
    {
      exists c :: FreeColumn(Contents(), c)
    }

    /** removeLine applied to a full line y, with what it does to a column without OCCUPIED cells. */
    method CollapseFullLine(y: int, ghost c: int)
      requires Valid() && 0 <= y < height
      requires LineFull(Contents(), y) && FreeColumn(Contents(), c) && NoFullRowBelow(Contents(), y)
      modifies matrix
      ensures Contents() == Grids.RemoveLine(old(Contents()), y)
      ensures SameOccupied(old(Contents()), Contents()) && FreeColumn(Contents(), c) && NoFullRowBelow(Contents(), y)
      ensures FixedInColumn(Contents(), c, height) < old(FixedInColumn(Contents(), c, height))
    {
      RemoveFullLineStep(Contents(), y, c);
      RemoveLine(y);
    }

    /**
     * removeFullLines: scans the rows bottom-up and removes each full one,
     * testing the same row again after a removal. The scan ends because a
     * column without OCCUPIED cells loses one FIXED cell per removal. The
     * new contents are FullLinesRemoved of the old, which leaves no line
     * full and the OCCUPIED cells where they were.
     */
    method RemoveFullLines()
      requires Valid() && HasFreeColumn()
      modifies matrix
      ensures Clearable(old(Contents())) && Contents() == FullLinesRemoved(old(Contents()))
      ensures forall y :: 0 <= y < height ==> !LineFull(Contents(), y)
      ensures SameOccupied(old(Contents()), Contents())
      ensures (forall y :: 0 <= y < height ==> !LineFull(old(Contents()), y)) ==>
        Contents() == old(Contents())
    {
      ghost var c :| FreeColumn(Contents(), c);
      ghost var g0 := Contents();
      var y := height - 1;
      while y >= 0
        invariant -1 <= y < height
        invariant FreeColumn(Contents(), c) && NoFullRowBelow(Contents(), y)
        invariant RemoveFullFrom(Contents(), y, c) == RemoveFullFrom(g0, height - 1, c)
        decreases y + 1, FixedInColumn(Contents(), c, height)
      {
        var full := IsLineFull(y);
        ghost var g := Contents();
        if full {
          CollapseFullLine(y, c);
          assert RemoveFullFrom(g, y, c) == RemoveFullFrom(Grids.RemoveLine(g, y), y, c);
        } else {
          y := y - 1;
        }
      }
      RemoveFullFromFacts(g0, c);
    }
  }
}
