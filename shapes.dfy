/**
 * The seven figure shapes and their 90-degree orientations. A shape is four
 * (dx, dy) offsets from the figure's position; orientation k turns every
 * offset k quarter turns by (dx, dy) -> (-dy, dx).
 */
module Shapes {
  import opened Wrappers

  type Offset = (int, int)

  const SQUARE_FIGURE: int := 1
  const LINE_FIGURE: int := 2
  const S_FIGURE: int := 3
  const Z_FIGURE: int := 4
  const RIGHT_ANGLE_FIGURE: int := 5
  const LEFT_ANGLE_FIGURE: int := 6
  const TRIANGLE_FIGURE: int := 7

  /** A figure type's four orientation-0 offsets and its number of distinct orientations. */
  datatype Shape = Shape(offsets: seq<Offset>, maxOrientation: int)

  /** initialize: the shape table; any other type is an IllegalArgumentException. */
  function Initialize(kind: int): (r: Result<Shape>)
    ensures r.Ok? <==> SQUARE_FIGURE <= kind <= TRIANGLE_FIGURE
    ensures r.Err? ==> r.error == IllegalArgument(kind)
    ensures r.Ok? ==> |r.value.offsets| == 4 && r.value.maxOrientation in {1, 2, 4}
    ensures r.Ok? ==> (r.value.maxOrientation == 1 <==> kind == SQUARE_FIGURE)
    ensures r.Ok? ==> (r.value.maxOrientation == 4 <==> kind >= RIGHT_ANGLE_FIGURE)
  {
    if kind == SQUARE_FIGURE then Ok(Shape([(-1, 0), (0, 0), (-1, 1), (0, 1)], 1))
    else if kind == LINE_FIGURE then Ok(Shape([(-2, 0), (-1, 0), (0, 0), (1, 0)], 2))
    else if kind == S_FIGURE then Ok(Shape([(0, 0), (1, 0), (-1, 1), (0, 1)], 2))
    else if kind == Z_FIGURE then Ok(Shape([(-1, 0), (0, 0), (0, 1), (1, 1)], 2))
    else if kind == RIGHT_ANGLE_FIGURE then Ok(Shape([(-1, 0), (0, 0), (1, 0), (1, 1)], 4))
    else if kind == LEFT_ANGLE_FIGURE then Ok(Shape([(-1, 0), (0, 0), (1, 0), (-1, 1)], 4))
    else if kind == TRIANGLE_FIGURE then Ok(Shape([(-1, 0), (0, 0), (1, 0), (0, 1)], 4))
    else Err(IllegalArgument(kind))
  }

  /** Java's %, which truncates toward zero: the remainder takes the sign of a. */
  function JavaRem(a: int, b: int): (r: int)
    requires b > 0
    ensures a >= 0 ==> r == a % b
    ensures -b < r < b
  {
    if a >= 0 then a % b else -((-a) % b)
  }

  /** getRelativeX: orientation is reduced with Java's % 4; a negative remainder gives 0. */
  function RelX(offsets: seq<Offset>, i: int, o: int): int
    requires 0 <= i < |offsets|
  {
    var k := JavaRem(o, 4);
    if k == 0 then offsets[i].0
    else if k == 1 then -offsets[i].1
    else if k == 2 then -offsets[i].0
    else if k == 3 then offsets[i].1
    else 0
  }

  /** getRelativeY */
  function RelY(offsets: seq<Offset>, i: int, o: int): int
    requires 0 <= i < |offsets|
  {
    var k := JavaRem(o, 4);
    if k == 0 then offsets[i].1
    else if k == 1 then offsets[i].0
    else if k == 2 then -offsets[i].1
    else if k == 3 then -offsets[i].0
    else 0
  }

  /** The absolute cells of a figure at (x, y) in orientation o. */
  function Cells(offsets: seq<Offset>, x: int, y: int, o: int): (cs: seq<(int, int)>)
    ensures |cs| == |offsets|
    ensures forall i :: 0 <= i < |offsets| ==> cs[i] == (x + RelX(offsets, i, o), y + RelY(offsets, i, o))
  {
    seq(|offsets|, i requires 0 <= i < |offsets| => (x + RelX(offsets, i, o), y + RelY(offsets, i, o)))
  }

  /** One quarter turn. */
  function Turn(d: Offset): Offset
  {
    (-d.1, d.0)
  }

  /** k quarter turns. */
  function TurnN(d: Offset, k: nat): Offset
  {
    if k == 0 then d else Turn(TurnN(d, k - 1))
  }

  /** The offset of square i in orientation o is the orientation-0 offset turned o times. */
  lemma {:induction false} RelativeIsTurned(offsets: seq<Offset>, i: int, o: nat)
    requires 0 <= i < |offsets|
    ensures (RelX(offsets, i, o), RelY(offsets, i, o)) == TurnN(offsets[i], o)
  {
    if o > 0 {
      RelativeIsTurned(offsets, i, o - 1);
      QuarterStep(o - 1);
    }
  }

  /** One more quarter turn moves the remainder by 4 on by one, wrapping from 3 to 0. */
  lemma QuarterStep(n: nat)
    ensures JavaRem(n + 1, 4) == if JavaRem(n, 4) == 3 then 0 else JavaRem(n, 4) + 1
  {
    var q, r := n / 4, n % 4;
    assert n == 4 * q + r;
    if r == 3 {
      assert n + 1 == 4 * (q + 1) + 0;
    } else {
      assert n + 1 == 4 * q + (r + 1);
    }
  }

  /** Four quarter turns are the identity. */
  lemma FullTurn(d: Offset)
    ensures TurnN(d, 4) == d
  {
    assert TurnN(d, 1) == (-d.1, d.0);
    assert TurnN(d, 2) == (-d.0, -d.1);
    assert TurnN(d, 3) == (d.1, -d.0);
  }

  /** The orientation rotate() moves to: (o + 1) % maxOrientation. */
  function NextOrientation(o: int, m: int): int
    requires m > 0
  {
    JavaRem(o + 1, m)
  }

  /** The orientation after k successful rotations from o. */
  function Rotated(o: int, m: int, k: nat): int
    requires m > 0
  {
    if k == 0 then o else NextOrientation(Rotated(o, m, k - 1), m)
  }

  /** One rotation advances the orientation by one and wraps from maxOrientation - 1 to 0. */
  lemma NextStep(o: int, m: int)
    requires 0 <= o < m && m in {1, 2, 4}
    ensures NextOrientation(o, m) == if o + 1 == m then 0 else o + 1
  {
    if m == 1 {
      assert (o + 1) % 1 == 0;
    } else if m == 2 {
      assert o == 0 || o == 1;
    } else {
      assert o == 0 || o == 1 || o == 2 || o == 3;
    }
  }

  lemma {:induction false} RotatedCounts(o: nat, m: int, k: nat)
    requires 0 <= o < m && m in {1, 2, 4} && o + k <= m
    ensures Rotated(o, m, k) == if o + k == m then 0 else o + k
  {
    if k > 0 {
      RotatedCounts(o, m, k - 1);
      NextStep(o + k - 1, m);
    }
  }

  /** maxOrientation successful rotations restore the orientation; one more equals one. */
  lemma RotationCycle(o: nat, m: int)
    requires 0 <= o < m && m in {1, 2, 4}
    ensures Rotated(o, m, m) == o
    ensures Rotated(o, m, m + 1) == Rotated(o, m, 1)
  {
    var k := m - o;
    RotatedCounts(o, m, k);
    // the remaining o rotations start from 0
    RotatedAfter(o, m, k, o);
    RotatedCounts(0, m, o);
    RotatedAfter(o, m, m, 1);
    RotatedAfter(o, m, 0, 1);
  }

  /** k + j rotations are j rotations after the first k. */
  lemma {:induction false} RotatedAfter(o: int, m: int, k: nat, j: nat)
    requires m > 0
    ensures Rotated(o, m, k + j) == Rotated(Rotated(o, m, k), m, j)
  {
    if j > 0 {
      RotatedAfter(o, m, k, j - 1);
    }
  }

  /** Every offset of a table shape, in any orientation, lies within two squares of the position. */
  lemma OffsetsBounded(kind: int, o: int, i: int)
    requires Initialize(kind).Ok? && 0 <= i < 4
    ensures var s := Initialize(kind).value.offsets;
      -2 <= RelX(s, i, o) <= 2 && -2 <= RelY(s, i, o) <= 2
  {
  }

  /**
   * A column at which the figure lies within columns 0..3: 2 when no square
   * is right of the position by more than one, else 1.
   */
  function HomeColumn(offsets: seq<Offset>, o: int): int
    requires |offsets| == 4
  {
    if forall i :: 0 <= i < 4 ==> RelX(offsets, i, o) <= 1 then 2 else 1
  }

  lemma HomeColumnFits(kind: int, o: int, i: int)
    requires Initialize(kind).Ok? && 0 <= i < 4
    ensures var s := Initialize(kind).value.offsets;
      0 <= HomeColumn(s, o) + RelX(s, i, o) <= 3
  {
    var s := Initialize(kind).value.offsets;
    forall j | 0 <= j < 4 ensures -2 <= RelX(s, j, o) <= 2 {
      OffsetsBounded(kind, o, j);
    }
    if HomeColumn(s, o) == 1 {
      var k := JavaRem(o, 4);
      assert exists j :: 0 <= j < 4 && RelX(s, j, o) == 2;
      assert k == 1 || k == 2 || k == 3 || k == 0;
    }
  }

  /**
   * attach's first row: starting from 0, every square whose relative row
   * exceeds the candidate sets the candidate to minus that row.
   */
  function StartRowFrom(offsets: seq<Offset>, o: int, i: nat, newY: int): int
    requires i <= |offsets|
    decreases |offsets| - i
  {
    if i == |offsets| then newY
    else StartRowFrom(offsets, o, i + 1,
      if RelY(offsets, i, o) - newY > 0 then -RelY(offsets, i, o) else newY)
  }

  function StartRow(offsets: seq<Offset>, o: int): int
  {
    StartRowFrom(offsets, o, 0, 0)
  }

  /** The lowest relative row of a shape. */
  function MaxDy(offsets: seq<Offset>, o: int): int
    requires |offsets| == 4
  {
    var a, b, c, d := RelY(offsets, 0, o), RelY(offsets, 1, o), RelY(offsets, 2, o), RelY(offsets, 3, o);
    var ab := if a > b then a else b;
    var cd := if c > d then c else d;
    if ab > cd then ab else cd
  }

  /** For a fresh figure (orientation 0) the first row tried puts its bottom squares on row 0. */
  lemma StartRowOfFreshFigure(kind: int)
    requires Initialize(kind).Ok?
    ensures var s := Initialize(kind).value.offsets;
      StartRow(s, 0) == -MaxDy(s, 0)
  {
  }

  /** The first row tried is within two rows of row 0. */
  lemma {:induction false} StartRowBounded(offsets: seq<Offset>, o: int, i: nat, newY: int)
    requires i <= |offsets| && -2 <= newY <= 2
    requires forall j :: 0 <= j < |offsets| ==> -2 <= RelY(offsets, j, o) <= 2
    ensures -2 <= StartRowFrom(offsets, o, i, newY) <= 2
    decreases |offsets| - i
  {
    if i < |offsets| {
      StartRowBounded(offsets, o, i + 1,
        if RelY(offsets, i, o) - newY > 0 then -RelY(offsets, i, o) else newY);
    }
  }
}
