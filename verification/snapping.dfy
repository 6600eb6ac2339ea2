/**
 * The snap grid of a drag: which grid applies to the active edges, the
 * ceiling-based grid cell used to drop moves that stay in one cell, and the
 * rounding of a surviving delta to the nearest grid multiple.
 *
 * Coordinates are integers and grid sizes positive integers, so
 * `Math.ceil(c / g)` and `Math.round(c / g)` are written with floor division:
 * `-floor(-c / g)` and `floor((2c + g) / 2g)`.
 */
module Snapping {
  import opened Wrappers
  import opened Geometry

  type Positive = n: int | n > 0 witness 1

  /** A pointer delta measured from the drag origin. */
  datatype Delta = Delta(dx: int, dy: int)

  /** The `{x, y}` snap grid; `{1, 1}` means no snapping. */
  datatype Grid = Grid(x: Positive, y: Positive)

  const NoSnapping: Grid := Grid(1, 1)

  /**
   * Floor division by repeated subtraction. It is written without `/` so
   * that unfolding it, as every proof about a move does, adds no nonlinear
   * arithmetic; `FloorDivBounds` says what it computes.
   */
  function FloorDiv(n: int, g: Positive): int
    decreases if n < 0 then 1 else 0, if n < 0 then -n else n
  {
    if n < 0 then FloorDiv(n + g, g) - 1
    else if n < g then 0
    else FloorDiv(n - g, g) + 1
  }

  /** The floor quotient `q` is the one with `qg <= n < qg + g`. */
  lemma {:induction false} FloorDivBounds(n: int, g: Positive)
    ensures FloorDiv(n, g) * g <= n < FloorDiv(n, g) * g + g
    decreases if n < 0 then 1 else 0, if n < 0 then -n else n
  {
    if n < 0 {
      FloorDivBounds(n + g, g);
      var q := FloorDiv(n + g, g);
      assert (q - 1) * g == q * g - g;
    } else if n >= g {
      FloorDivBounds(n - g, g);
      var q := FloorDiv(n - g, g);
      assert (q + 1) * g == q * g + g;
    }
  }

  /** `Math.ceil(c / g)`. */
  function CeilDiv(c: int, g: Positive): int {
    -FloorDiv(-c, g)
  }

  /** The ceiling quotient `q` is the one with `(q-1)g < c <= qg`. */
  lemma CeilDivBounds(c: int, g: Positive)
    ensures (CeilDiv(c, g) - 1) * g < c <= CeilDiv(c, g) * g
  {
    var f := FloorDiv(-c, g);
    FloorDivBounds(-c, g);
    assert (-f) * g == -(f * g);
    assert (-f - 1) * g == -(f * g) - g;
  }

  /** `Math.round(c / g)`; halves go toward positive infinity, as in JavaScript. */
  function RoundDiv(c: int, g: Positive): int {
    FloorDiv(c + c + g, g + g)
  }

  /** The rounded quotient `q` puts `qg` within half a step of `c`, ties going up. */
  lemma RoundDivBounds(c: int, g: Positive)
    ensures 2 * c - g < 2 * (RoundDiv(c, g) * g) <= 2 * c + g
  {
    var q := RoundDiv(c, g);
    FloorDivBounds(c + c + g, g + g);
    assert q * (g + g) == 2 * (q * g);
  }

  /** A snap size that is configured (non-zero, so truthy) for a truthy edge. */
  predicate Active(snap: map<Side, nat>, edges: Edges, s: Side) {
    s in snap && snap[s] > 0 && Truthy(edges, s)
  }

  /**
   * `getSnapGrid`: x comes from the left snap size if the left edge is
   * active, else from the right one; y from top, else bottom; otherwise 1.
   */
  function SnapGrid(snap: map<Side, nat>, edges: Edges): (g: Grid)
    ensures Active(snap, edges, Left) ==> g.x == snap[Left]
    ensures !Active(snap, edges, Left) && Active(snap, edges, Right) ==> g.x == snap[Right]
    ensures !Active(snap, edges, Left) && !Active(snap, edges, Right) ==> g.x == 1
    ensures Active(snap, edges, Top) ==> g.y == snap[Top]
    ensures !Active(snap, edges, Top) && Active(snap, edges, Bottom) ==> g.y == snap[Bottom]
    ensures !Active(snap, edges, Top) && !Active(snap, edges, Bottom) ==> g.y == 1
  {
    var x: Positive :=
      if Active(snap, edges, Left) then snap[Left]
      else if Active(snap, edges, Right) then snap[Right]
      else 1;
    var y: Positive :=
      if Active(snap, edges, Top) then snap[Top]
      else if Active(snap, edges, Bottom) then snap[Bottom]
      else 1;
    Grid(x, y)
  }

  /** With no snap sizes configured the grid is `{1, 1}`, whatever the edges. */
  lemma EmptySnapConfigMeansNoSnapping(edges: Edges)
    ensures SnapGrid(map[], edges) == NoSnapping
  {
  }

  /** `getGrid`: the ceiling-based grid cell of a delta. */
  function GridCell(d: Delta, g: Grid): Delta {
    Delta(CeilDiv(d.dx, g.x), CeilDiv(d.dy, g.y))
  }

  /** Each axis of the cell is the ceiling quotient of that axis of the delta. */
  lemma GridCellBounds(d: Delta, g: Grid)
    ensures var cell := GridCell(d, g);
            && (cell.dx - 1) * g.x < d.dx <= cell.dx * g.x
            && (cell.dy - 1) * g.y < d.dy <= cell.dy * g.y
  {
    CeilDivBounds(d.dx, g.x);
    CeilDivBounds(d.dy, g.y);
  }

  /**
   * The dedupe filter: the first move of a drag (no previous delta) always
   * passes; a later one passes iff its grid cell differs from that of the
   * immediately preceding raw move.
   */
  predicate CellChanged(previous: Option<Delta>, d: Delta, g: Grid) {
    previous.None? || GridCell(previous.value, g) != GridCell(d, g)
  }

  /** Two values share a ceiling cell exactly when they lie in one interval `((k-1)g, kg]`. */
  lemma SameCellIff(a: int, b: int, g: Positive)
    ensures CeilDiv(a, g) == CeilDiv(b, g) <==> exists k :: (k - 1) * g < a <= k * g && (k - 1) * g < b <= k * g
  {
    CeilDivBounds(a, g);
    CeilDivBounds(b, g);
    if exists k :: (k - 1) * g < a <= k * g && (k - 1) * g < b <= k * g {
      var k :| (k - 1) * g < a <= k * g && (k - 1) * g < b <= k * g;
      CeilDivUnique(a, g, k);
      CeilDivUnique(b, g, k);
    }
  }

  /** The ceiling quotient is the only `k` with `(k-1)g < c <= kg`. */
  lemma CeilDivUnique(c: int, g: Positive, k: int)
    requires (k - 1) * g < c <= k * g
    ensures CeilDiv(c, g) == k
  {
    var q := CeilDiv(c, g);
    CeilDivBounds(c, g);
    if q < k {
      MulMonotone(q, k - 1, g);
    } else if q > k {
      MulMonotone(k, q - 1, g);
    }
  }

  lemma MulMonotone(a: int, b: int, g: Positive)
    requires a <= b
    ensures a * g <= b * g
  {
    assert b * g - a * g == (b - a) * g;
  }

  /** Distinct multiples of `g` lie at least `g` apart. */
  lemma MulStep(a: int, b: int, g: Positive)
    requires a < b
    ensures a * g + g <= b * g
  {
    MulMonotone(a + 1, b, g);
    assert (a + 1) * g == a * g + g;
  }

  /** Without snapping, a move is dropped exactly when its raw delta repeats the previous one. */
  lemma UnitGridDropsOnlyRepeats(previous: Delta, d: Delta)
    ensures !CellChanged(Some(previous), d, NoSnapping) <==> previous == d
  {
    CeilDivUnique(previous.dx, 1, previous.dx);
    CeilDivUnique(previous.dy, 1, previous.dy);
    CeilDivUnique(d.dx, 1, d.dx);
    CeilDivUnique(d.dy, 1, d.dy);
  }

  /**
   * `Math.round(c / g) * g` for one axis: the rounded quotient scaled back
   * by `g`, computed in the recursion of `RoundDiv` itself so that no
   * recursive function is applied to the result of another.
   */
  function SnapAxis(c: int, g: Positive): int {
    FloorDivTimes(c + c + g, g + g, g)
  }

  /** `FloorDiv(n, m) * g` by repeated addition, free of nonlinear arithmetic like `FloorDiv`. */
  function FloorDivTimes(n: int, m: Positive, g: int): int
    decreases if n < 0 then 1 else 0, if n < 0 then -n else n
  {
    if n < 0 then FloorDivTimes(n + m, m, g) - g
    else if n < m then 0
    else FloorDivTimes(n - m, m, g) + g
  }

  lemma {:induction false} FloorDivTimesIsProduct(n: int, m: Positive, g: int)
    ensures FloorDivTimes(n, m, g) == FloorDiv(n, m) * g
    decreases if n < 0 then 1 else 0, if n < 0 then -n else n
  {
    if n < 0 {
      FloorDivTimesIsProduct(n + m, m, g);
      var q := FloorDiv(n + m, m);
      assert (q - 1) * g == q * g - g;
    } else if n >= m {
      FloorDivTimesIsProduct(n - m, m, g);
      var q := FloorDiv(n - m, m);
      assert (q + 1) * g == q * g + g;
    }
  }

  /** The snapped value is the rounded quotient times `g`. */
  lemma SnapAxisIsRoundTimes(c: int, g: Positive)
    ensures SnapAxis(c, g) == RoundDiv(c, g) * g
  {
    FloorDivTimesIsProduct(c + c + g, g + g, g);
  }

  /** The rounded value is a multiple of `g` within half a step of `c`. */
  lemma SnapAxisOnGrid(c: int, g: Positive)
    ensures SnapAxis(c, g) % g == 0
    ensures 2 * c - g < 2 * SnapAxis(c, g) <= 2 * c + g
  {
    SnapAxisIsRoundTimes(c, g);
    MultipleMod(RoundDiv(c, g), g);
    RoundDivBounds(c, g);
  }

  lemma MultipleMod(q: int, g: Positive)
    ensures (q * g) % g == 0
  {
    var r := (q * g) % g;
    var p := (q * g) / g;
    assert q * g == p * g + r && 0 <= r < g;
    if r != 0 {
      assert (q - p) * g == r;
      if q - p >= 1 {
        MulMonotone(1, q - p, g);
      } else {
        MulMonotone(q - p, 0, g);
      }
    }
  }

  /**
   * The rounding has one answer: the grid multiple nearest to `c`, ties
   * going up, is the only multiple of `g` in the window `(c - g/2, c + g/2]`.
   */
  lemma SnapAxisIsNearestMultiple(c: int, g: Positive, m: int)
    requires m % g == 0
    requires 2 * c - g < 2 * m <= 2 * c + g
    ensures m == SnapAxis(c, g)
  {
    var q := RoundDiv(c, g);
    RoundDivBounds(c, g);
    SnapAxisIsRoundTimes(c, g);
    var a := m / g;
    assert m == a * g;
    if a < q {
      MulStep(a, q, g);
    } else if a > q {
      MulStep(q, a, g);
    }
  }

  /** The delta placed on the grid: each axis rounded to its nearest grid multiple. */
  function SnapDelta(d: Delta, g: Grid): Delta {
    Delta(SnapAxis(d.dx, g.x), SnapAxis(d.dy, g.y))
  }

  /** Both axes of the snapped delta are on their grid, each within half a step of the pointer. */
  lemma SnapDeltaOnGrid(d: Delta, g: Grid)
    ensures var r := SnapDelta(d, g);
            && r.dx % g.x == 0 && 2 * d.dx - g.x < 2 * r.dx <= 2 * d.dx + g.x
            && r.dy % g.y == 0 && 2 * d.dy - g.y < 2 * r.dy <= 2 * d.dy + g.y
  {
    SnapAxisOnGrid(d.dx, g.x);
    SnapAxisOnGrid(d.dy, g.y);
  }

  /** Without snapping the delta is placed where the pointer is. */
  lemma UnitGridKeepsDelta(d: Delta)
    ensures SnapDelta(d, NoSnapping) == d
  {
    SnapAxisIsNearestMultiple(d.dx, 1, d.dx);
    SnapAxisIsNearestMultiple(d.dy, 1, d.dy);
  }
}
