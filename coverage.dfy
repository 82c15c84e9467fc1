/**
 * Why a room's board always has a column without OCCUPIED cells: every
 * OCCUPIED cell belongs to the footprint of some seated player's figure,
 * and the figures have fewer squares in total than the board has columns.
 * Stated on grid values and sequences of footprints.
 */
module Coverage {
  import opened Grids
  import opened Board
  import opened Figures
  import opened Shapes

  type Square = (int, int)

  /** Every OCCUPIED cell of the grid lies in one of the footprints. */
  ghost predicate Covered(g: Grid, fps: seq<seq<Square>>)
  {
    forall y, x :: CellCovered(g, fps, y, x)
  }

  /** Cell (x, y), if it is an OCCUPIED cell of the grid, lies in one of the footprints. */
  ghost predicate CellCovered(g: Grid, fps: seq<seq<Square>>, y: int, x: int)
  {
    0 <= y < |g| && 0 <= x < |g[y]| && g[y][x] == Occupied ==> InSome(fps, (x, y))
  }

  /** The square lies in one of the footprints. */
  ghost predicate InSome(fps: seq<seq<Square>>, p: Square)
  {
    exists j :: 0 <= j < |fps| && p in fps[j]
  }

  /** The grid g with the squares of each footprint painted OCCUPIED, in order. */
  function PaintedAll(g: Grid, fps: seq<seq<Square>>): (r: Grid)
    ensures |r| == |g| && forall y :: 0 <= y < |g| ==> |r[y]| == |g[y]|
    decreases |fps|
  {
    if |fps| == 0 then g else Painted(PaintedAll(g, fps[..|fps| - 1]), fps[|fps| - 1], Occupied)
  }

  /** A cell painted by some footprint is OCCUPIED; any other keeps its state. */
  lemma {:induction false} PaintedAllCell(g: Grid, fps: seq<seq<Square>>, y: int, x: int)
    requires 0 <= y < |g| && 0 <= x < |g[y]|
    ensures PaintedAll(g, fps)[y][x] == if InSome(fps, (x, y)) then Occupied else g[y][x]
    decreases |fps|
  {
    if |fps| > 0 {
      var n := |fps| - 1;
      var p := (x, y);
      PaintedAllCell(g, fps[..n], y, x);
      if p !in fps[n] {
        assert InSome(fps, p) == InSome(fps[..n], p) by {
          if InSome(fps[..n], p) {
            var j :| 0 <= j < n && p in fps[..n][j];
            assert p in fps[j];
          }
          if InSome(fps, p) {
            var j :| 0 <= j < |fps| && p in fps[j];
            assert j < n && p in fps[..n][j];
          }
        }
      }
    }
  }

  /** The number of squares of all footprints together. */
  function TotalSize(fps: seq<seq<Square>>): (n: nat)
  {
    if |fps| == 0 then 0 else TotalSize(fps[..|fps| - 1]) + |fps[|fps| - 1]|
  }

  /** h is g with the squares `from` cleared and then `to` painted with `state`, cell by cell. */
  ghost predicate Repainted(g: Grid, h: Grid, from: seq<Square>, to: seq<Square>, state: Cell)
  {
    |h| == |g| && forall y, x :: RepaintedAt(g, h, from, to, state, y, x)
  }

  /** Row y has the same width in both grids, and cell (x, y) of h is the repainted cell of g. */
  ghost predicate RepaintedAt(g: Grid, h: Grid, from: seq<Square>, to: seq<Square>, state: Cell, y: int, x: int)
  {
    0 <= y < |g| ==>
      y < |h| && |h[y]| == |g[y]| && (0 <= x < |g[y]| ==> h[y][x] == Repaint(g[y][x], (x, y), from, to, state))
  }

  /** The grid g with the squares of from emptied and those of to painted state. */
  function RepaintGrid(g: Grid, from: seq<Square>, to: seq<Square>, state: Cell): (h: Grid)
    ensures Repainted(g, h, from, to, state)
  {
    seq(|g|, y requires 0 <= y < |g| => seq(|g[y]|, x requires 0 <= x < |g[y]| => Repaint(g[y][x], (x, y), from, to, state)))
  }

  /** A repaint that clears nothing paints the target squares over the grid. */
  lemma RepaintedIsPainted(g: Grid, h: Grid, to: seq<Square>, state: Cell)
    requires Repainted(g, h, [], to, state)
    ensures h == Painted(g, to, state)
  {
    var r := Painted(g, to, state);
    forall y | 0 <= y < |g| ensures h[y] == r[y] {
      assert RepaintedAt(g, h, [], to, state, y, 0);
      forall x | 0 <= x < |g[y]| ensures h[y][x] == r[y][x] {
        assert RepaintedAt(g, h, [], to, state, y, x);
      }
    }
  }

  /** A repaint leaves one grid only. */
  lemma RepaintedIsRepaintGrid(g: Grid, h: Grid, from: seq<Square>, to: seq<Square>, state: Cell)
    requires Repainted(g, h, from, to, state)
    ensures h == RepaintGrid(g, from, to, state)
  {
    var r := RepaintGrid(g, from, to, state);
    forall y | 0 <= y < |g| ensures h[y] == r[y] {
      assert RepaintedAt(g, h, from, to, state, y, 0) && RepaintedAt(g, r, from, to, state, y, 0);
      forall x | 0 <= x < |g[y]| ensures h[y][x] == r[y][x] {
        assert RepaintedAt(g, h, from, to, state, y, x) && RepaintedAt(g, r, from, to, state, y, x);
      }
    }
  }

  /**
   * On a grid that moved a figure from fp0 to fp, a further target fits
   * exactly when it fits on the grid before the move with both footprints
   * counted as the figure's own.
   */
  lemma FitsAfterRepaint(g0: Grid, h: Grid, w: int, fp0: seq<Square>, fp: seq<Square>, to: seq<Square>)
    requires Rectangular(g0, w) && Rectangular(h, w) && Repainted(g0, h, fp0, fp, Occupied)
    ensures FitsFrom(h, w, fp, to) <==> FitsFrom(g0, w, fp + fp0, to)
  {
    FitsFromEach(h, w, fp, to);
    FitsFromEach(g0, w, fp + fp0, to);
    forall k | 0 <= k < |to| ensures SquareFits(h, w, fp, to[k]) <==> SquareFits(g0, w, fp + fp0, to[k]) {
      var p := to[k];
      if 0 <= p.0 < w && 0 <= p.1 < |g0| {
        assert RepaintedAt(g0, h, fp0, fp, Occupied, p.1, p.0);
      }
    }
  }

  /**
   * Once the board h is the grid g0 with the squares fp0 repainted to the
   * figure's squares at row y, the figure fits one row lower on h exactly
   * when it falls through row y on g0 with fp0 counting as free.
   */
  lemma FallsThroughAfterRepaint(g0: Grid, h: Grid, w: int, offsets: seq<Offset>, x: int, y: int, o: int, fp0: seq<Square>)
    requires Rectangular(g0, w) && Rectangular(h, w)
    requires Repainted(g0, h, fp0, Cells(offsets, x, y, o), Occupied)
    ensures FitsFrom(h, w, Cells(offsets, x, y, o), Cells(offsets, x, y + 1, o)) <==>
      FallsThrough(g0, w, offsets, x, y, o, fp0)
  {
    FitsAfterRepaint(g0, h, w, fp0, Cells(offsets, x, y, o), Cells(offsets, x, y + 1, o));
  }

  /** The columns the footprints touch. */
  function Columns(fps: seq<seq<Square>>): set<int>
  {
    if |fps| == 0 then {} else Columns(fps[..|fps| - 1]) + ColumnsOf(fps[|fps| - 1])
  }

  /** The columns one footprint touches. */
  function ColumnsOf(s: seq<Square>): set<int>
  {
    if |s| == 0 then {} else ColumnsOf(s[..|s| - 1]) + {s[|s| - 1].0}
  }

  // ----- the pigeonhole argument -----

  lemma {:induction false} ColumnsOfSize(s: seq<Square>)
    ensures |ColumnsOf(s)| <= |s|
  {
    if |s| > 0 {
      ColumnsOfSize(s[..|s| - 1]);
    }
  }

  lemma {:induction false} InColumnsOf(s: seq<Square>, p: Square)
    requires p in s
    ensures p.0 in ColumnsOf(s)
  {
    if p != s[|s| - 1] {
      assert p in s[..|s| - 1];
      InColumnsOf(s[..|s| - 1], p);
    }
  }

  /** The footprints touch at most as many columns as they have squares. */
  lemma {:induction false} ColumnsSize(fps: seq<seq<Square>>)
    ensures |Columns(fps)| <= TotalSize(fps)
  {
    if |fps| > 0 {
      ColumnsSize(fps[..|fps| - 1]);
      ColumnsOfSize(fps[|fps| - 1]);
    }
  }

  /** A square of a footprint lies on a touched column. */
  lemma {:induction false} InColumns(fps: seq<seq<Square>>, j: int, p: Square)
    requires 0 <= j < |fps| && p in fps[j]
    ensures p.0 in Columns(fps)
  {
    if j == |fps| - 1 {
      InColumnsOf(fps[j], p);
    } else {
      assert fps[..|fps| - 1][j] == fps[j];
      InColumns(fps[..|fps| - 1], j, p);
    }
  }

  /** A set of fewer than w columns misses one of 0..w-1. */
  lemma {:induction false} MissedColumn(cs: set<int>, w: nat)
    requires |cs| < w
    ensures exists c :: 0 <= c < w && c !in cs
  {
    if w - 1 in cs {
      MissedColumn(cs - {w - 1}, w - 1);
      var c :| 0 <= c < w - 1 && c !in cs - {w - 1};
      assert c !in cs;
    }
  }

  /**
   * Footprints with fewer squares than the grid has columns, covering all
   * OCCUPIED cells, leave a column without OCCUPIED cells.
   */
  lemma FreeColumnExists(g: Grid, w: int, fps: seq<seq<Square>>)
    requires |g| > 0 && Rectangular(g, w) && Covered(g, fps) && TotalSize(fps) < w
    ensures exists c :: FreeColumn(g, c)
  {
    ColumnsSize(fps);
    MissedColumn(Columns(fps), w);
    var c :| 0 <= c < w && c !in Columns(fps);
    forall y | 0 <= y < |g| ensures g[y][c] != Occupied {
      if g[y][c] == Occupied {
        assert CellCovered(g, fps, y, c);
        var j :| 0 <= j < |fps| && (c, y) in fps[j];
        InColumns(fps, j, (c, y));
      }
    }
    assert FreeColumn(g, c);
  }

  // ----- what the room's operations do to the covering -----

  /** Replacing one footprint changes the total by the difference of the sizes. */
  lemma {:induction false} TotalSizeUpdate(fps: seq<seq<Square>>, i: int, s: seq<Square>)
    requires 0 <= i < |fps|
    ensures TotalSize(fps[i := s]) == TotalSize(fps) - |fps[i]| + |s|
  {
    var n := |fps| - 1;
    if i < n {
      assert fps[i := s][..n] == fps[..n][i := s];
      TotalSizeUpdate(fps[..n], i, s);
    } else {
      assert fps[i := s][..n] == fps[..n];
    }
  }

  /** Dropping one footprint takes its size off the total. */
  lemma {:induction false} TotalSizeRemove(fps: seq<seq<Square>>, i: int)
    requires 0 <= i < |fps|
    ensures TotalSize(fps[..i] + fps[i + 1..]) == TotalSize(fps) - |fps[i]|
  {
    var n := |fps| - 1;
    var r := fps[..i] + fps[i + 1..];
    if i < n {
      assert r[..|r| - 1] == fps[..n][..i] + fps[..n][i + 1..];
      assert r[|r| - 1] == fps[n];
      TotalSizeRemove(fps[..n], i);
    } else {
      assert r == fps[..n];
    }
  }

  /** An extra footprint adds its size to the total. */
  lemma TotalSizeAppend(fps: seq<seq<Square>>, s: seq<Square>)
    ensures TotalSize(fps + [s]) == TotalSize(fps) + |s|
  {
    assert (fps + [s])[..|fps|] == fps;
  }

  /** A total of n footprints of four squares each. */
  lemma {:induction false} TotalSizeOfFours(fps: seq<seq<Square>>)
    requires forall j :: 0 <= j < |fps| ==> |fps[j]| <= 4
    ensures TotalSize(fps) <= 4 * |fps|
  {
    if |fps| > 0 {
      TotalSizeOfFours(fps[..|fps| - 1]);
    }
  }

  /** A grid without OCCUPIED cells is covered by anything. */
  lemma NothingToCover(g: Grid, fps: seq<seq<Square>>)
    requires forall y, x :: 0 <= y < |g| && 0 <= x < |g[y]| ==> g[y][x] != Occupied
    ensures Covered(g, fps)
  {
    forall y, x ensures CellCovered(g, fps, y, x) {
    }
  }

  /**
   * A figure that moves from footprint fps[i] to `to`, repainting OCCUPIED,
   * leaves the new OCCUPIED cells covered by its new footprint.
   */
  lemma CoveredAfterMove(g: Grid, h: Grid, fps: seq<seq<Square>>, i: int, to: seq<Square>)
    requires Covered(g, fps) && 0 <= i < |fps| && Repainted(g, h, fps[i], to, Occupied)
    ensures Covered(h, fps[i := to])
  {
    var fps' := fps[i := to];
    forall y, x ensures CellCovered(h, fps', y, x) {
      if 0 <= y < |h| && 0 <= x < |h[y]| && h[y][x] == Occupied {
        assert RepaintedAt(g, h, fps[i], to, Occupied, y, x);
        if (x, y) in to {
          assert (x, y) in fps'[i];
        } else {
          assert (x, y) !in fps[i] && g[y][x] == Occupied;
          assert CellCovered(g, fps, y, x);
          var j :| 0 <= j < |fps| && (x, y) in fps[j];
          assert fps'[j] == fps[j];
        }
      }
    }
  }

  /** Fixing footprint i in place leaves the grid covered by the other footprints. */
  lemma CoveredAfterFix(g: Grid, fps: seq<seq<Square>>, i: int)
    requires Covered(g, fps) && 0 <= i < |fps|
    ensures Covered(Painted(g, fps[i], Fixed), fps[i := []]) && Covered(Painted(g, fps[i], Fixed), fps)
  {
    var h := Painted(g, fps[i], Fixed);
    forall y, x ensures RepaintedAt(g, h, fps[i], fps[i], Fixed, y, x) {
    }
    CoveredAfterVacate(g, h, fps, i, Fixed, []);
    CoveredAfterVacate(g, h, fps, i, Fixed, fps[i]);
    assert fps[i := fps[i]] == fps;
  }

  /**
   * A figure whose squares are painted over with a state other than
   * OCCUPIED (fixed or cleared) no longer needs its footprint to cover
   * anything: it may be replaced by any other.
   */
  lemma CoveredAfterVacate(g: Grid, h: Grid, fps: seq<seq<Square>>, i: int, state: Cell, s: seq<Square>)
    requires Covered(g, fps) && 0 <= i < |fps| && Repainted(g, h, fps[i], fps[i], state) && state != Occupied
    ensures Covered(h, fps[i := s])
  {
    var fps' := fps[i := s];
    forall y, x ensures CellCovered(h, fps', y, x) {
      if 0 <= y < |h| && 0 <= x < |h[y]| && h[y][x] == Occupied {
        assert RepaintedAt(g, h, fps[i], fps[i], state, y, x);
        assert CellCovered(g, fps, y, x);
        var j :| 0 <= j < |fps| && (x, y) in fps[j];
        assert fps'[j] == fps[j];
      }
    }
  }

  /** An empty footprint covers nothing, so it can be dropped. */
  lemma CoveredWithoutEmpty(g: Grid, fps: seq<seq<Square>>, i: int)
    requires 0 <= i < |fps| && Covered(g, fps) && fps[i] == []
    ensures Covered(g, fps[..i] + fps[i + 1..])
  {
    var r := fps[..i] + fps[i + 1..];
    forall y, x ensures CellCovered(g, r, y, x) {
      if 0 <= y < |g| && 0 <= x < |g[y]| && g[y][x] == Occupied {
        assert CellCovered(g, fps, y, x);
        var j :| 0 <= j < |fps| && (x, y) in fps[j];
        if j < i {
          assert r[j] == fps[j];
        } else {
          assert r[j - 1] == fps[j];
        }
      }
    }
  }

  /** A figure whose squares were cleared can leave along with its footprint. */
  lemma CoveredAfterLeave(g: Grid, h: Grid, fps: seq<seq<Square>>, i: int)
    requires Covered(g, fps) && 0 <= i < |fps| && Repainted(g, h, fps[i], fps[i], Empty)
    ensures Covered(h, fps[..i] + fps[i + 1..])
  {
    CoveredAfterVacate(g, h, fps, i, Empty, []);
    CoveredWithoutEmpty(h, fps[i := []], i);
    assert fps[i := []][..i] + fps[i := []][i + 1..] == fps[..i] + fps[i + 1..];
  }

  /** An extra footprint keeps a grid covered. */
  lemma CoveredAppend(g: Grid, fps: seq<seq<Square>>, s: seq<Square>)
    requires Covered(g, fps)
    ensures Covered(g, fps + [s])
  {
    var r := fps + [s];
    forall y, x ensures CellCovered(g, r, y, x) {
      if 0 <= y < |g| && 0 <= x < |g[y]| && g[y][x] == Occupied {
        assert CellCovered(g, fps, y, x);
        var j :| 0 <= j < |fps| && (x, y) in fps[j];
        assert r[j] == fps[j];
      }
    }
  }

  /** Grids with their OCCUPIED cells in the same places are covered alike. */
  lemma CoveredSameOccupied(g: Grid, h: Grid, fps: seq<seq<Square>>)
    requires Covered(g, fps) && SameOccupied(g, h)
    ensures Covered(h, fps)
  {
    forall y, x ensures CellCovered(h, fps, y, x) {
      if 0 <= y < |h| && 0 <= x < |h[y]| && h[y][x] == Occupied {
        assert g[y][x] == Occupied;
        assert CellCovered(g, fps, y, x);
      }
    }
  }

  /**
   * Painting squares OCCUPIED never makes a row full: a row that had a cell
   * other than FIXED still has one.
   */
  lemma FillKeepsRowsOpen(g: Grid, h: Grid, to: seq<Square>)
    requires Repainted(g, h, [], to, Occupied)
    requires forall y :: 0 <= y < |g| ==> !LineFull(g, y)
    ensures forall y :: 0 <= y < |h| ==> !LineFull(h, y)
  {
    forall y | 0 <= y < |h| ensures !LineFull(h, y) {
      assert !LineFull(g, y);
      var x :| 0 <= x < |g[y]| && g[y][x] != Fixed;
      assert RepaintedAt(g, h, [], to, Occupied, y, x);
      assert h[y][x] != Fixed;
    }
  }

  /** Every square of `to` on the grid that `from` does not hold is EMPTY in g: the move from `from` to `to` fits. */
  ghost predicate EntersEmpty(g: Grid, from: seq<Square>, to: seq<Square>)
  {
    forall k :: 0 <= k < |to| && 0 <= to[k].1 < |g| && 0 <= to[k].0 < |g[to[k].1]| && to[k] !in from ==>
      g[to[k].1][to[k].0] == Empty
  }

  /**
   * Two moves that fit, one after the other, repaint the grid as the single
   * move from the first footprint to the last one would, and that single
   * move fits too: the figure leaves no trace on the squares it passes.
   */
  lemma RepaintChain(g0: Grid, g1: Grid, g2: Grid, fp0: seq<Square>, fp1: seq<Square>, fp2: seq<Square>)
    requires Repainted(g0, g1, fp0, fp1, Occupied) && EntersEmpty(g0, fp0, fp1)
    requires Repainted(g1, g2, fp1, fp2, Occupied) && EntersEmpty(g1, fp1, fp2)
    ensures Repainted(g0, g2, fp0, fp2, Occupied) && EntersEmpty(g0, fp0, fp2)
  {
    forall y, x ensures RepaintedAt(g0, g2, fp0, fp2, Occupied, y, x) {
      if 0 <= y < |g0| {
        assert RepaintedAt(g0, g1, fp0, fp1, Occupied, y, x);
        assert RepaintedAt(g1, g2, fp1, fp2, Occupied, y, x);
        if 0 <= x < |g0[y]| && (x, y) !in fp2 && (x, y) in fp1 && (x, y) !in fp0 {
          var k :| 0 <= k < |fp1| && fp1[k] == (x, y);
        }
      }
    }
    forall k | 0 <= k < |fp2| && 0 <= fp2[k].1 < |g0| && 0 <= fp2[k].0 < |g0[fp2[k].1]| && fp2[k] !in fp0
      ensures g0[fp2[k].1][fp2[k].0] == Empty
    {
      var (x, y) := fp2[k];
      assert RepaintedAt(g0, g1, fp0, fp1, Occupied, y, x);
      if (x, y) in fp1 {
        var j :| 0 <= j < |fp1| && fp1[j] == (x, y);
      }
    }
  }

  /** A target that fits, in canMoveTo's sense, enters only EMPTY squares of the board. */
  /** A target that fits enters only empty squares, and its first square lies above the floor. */
  lemma FitsEntersBoard(g: Grid, w: int, from: seq<Square>, to: seq<Square>)
    requires Rectangular(g, w) && FitsFrom(g, w, from, to) && |to| > 0
    ensures EntersEmpty(g, from, to) && to[0].1 < |g|
  {
    FitsEntersEmpty(g, w, from, to);
    FitsOnBoard(g, w, from, to, 0);
  }

  lemma FitsEntersEmpty(g: Grid, w: int, from: seq<Square>, to: seq<Square>)
    requires Rectangular(g, w) && FitsFrom(g, w, from, to)
    ensures EntersEmpty(g, from, to)
  {
    FitsFromEach(g, w, from, to);
    forall k | 0 <= k < |to| && 0 <= to[k].1 < |g| && 0 <= to[k].0 < |g[to[k].1]| && to[k] !in from
      ensures g[to[k].1][to[k].0] == Empty
    {
      assert SquareFits(g, w, from, to[k]);
    }
  }
}
