/**
 * Rectangle geometry of the resizable directive: the bounding rectangle a
 * drag produces, the cursor an edge set asks for, and the per-edge diff
 * between two rectangles with its largest magnitude.
 */
module Geometry {
  import opened Wrappers

  datatype Side = Top | Bottom | Left | Right

  /**
   * An `Edges` object: which keys are present and what each holds. Key
   * presence and truthiness are different things in the source, so this is
   * a map and not four booleans.
   */
  type Edges = map<Side, bool>

  /** An `EdgesDiff` object: one signed pixel delta per key of an `Edges`. */
  type EdgesDiff = map<Side, int>

  /** `edges[s]` is truthy (a missing key reads as `undefined`). */
  predicate Truthy(edges: Edges, s: Side) {
    s in edges && edges[s]
  }

  /** Some key of `edges` is truthy. */
  predicate AnyTruthy(edges: Edges) {
    Truthy(edges, Top) || Truthy(edges, Bottom) || Truthy(edges, Left) || Truthy(edges, Right)
  }

  /** A bounding rectangle; the scroll offsets are present only on rectangles read from the element. */
  datatype Rect = Rect(
    top: int, bottom: int, left: int, right: int,
    height: int, width: int,
    scrollTop: Option<int>, scrollLeft: Option<int>)

  /** `rect[side]` for one of the four side keys. */
  function SideOf(r: Rect, s: Side): int {
    match s
    case Top => r.top
    case Bottom => r.bottom
    case Left => r.left
    case Right => r.right
  }

  /** Height and width agree with the sides. */
  predicate Consistent(r: Rect) {
    r.height == r.bottom - r.top && r.width == r.right - r.left
  }

  /** The pointer delta that moves side `s`: vertical sides follow y, horizontal sides follow x. */
  function AxisDelta(s: Side, dx: int, dy: int): int {
    if s == Top || s == Bottom then dy else dx
  }

  /**
   * `getNewBoundingRectangle`: moves the truthy sides of `start` by the
   * pointer delta and recomputes height and width; the scroll offsets are
   * not carried over.
   */
  function NewBoundingRectangle(start: Rect, edges: Edges, dx: int, dy: int): Rect {
    var top := if Truthy(edges, Top) then start.top + dy else start.top;
    var bottom := if Truthy(edges, Bottom) then start.bottom + dy else start.bottom;
    var left := if Truthy(edges, Left) then start.left + dx else start.left;
    var right := if Truthy(edges, Right) then start.right + dx else start.right;
    Rect(top, bottom, left, right, bottom - top, right - left, None, None)
  }

  /**
   * The new rectangle is consistent, carries no scroll offsets, and each
   * side sits where the start's side was, moved by its axis delta exactly
   * when that edge is truthy.
   */
  lemma NewBoundingRectangleSides(start: Rect, edges: Edges, dx: int, dy: int)
    ensures var r := NewBoundingRectangle(start, edges, dx, dy);
            && Consistent(r) && r.scrollTop.None? && r.scrollLeft.None?
            && forall s: Side :: SideOf(r, s) == SideOf(start, s) + (if Truthy(edges, s) then AxisDelta(s, dx, dy) else 0)
  {
  }

  /** A zero delta only normalises: a consistent rectangle without scroll offsets comes back unchanged. */
  lemma ZeroDeltaIsIdentity(start: Rect, edges: Edges)
    requires Consistent(start) && start.scrollTop.None? && start.scrollLeft.None?
    ensures NewBoundingRectangle(start, edges, 0, 0) == start
  {
  }

  /** Moving by one delta and then another is moving by their sum. */
  lemma NewBoundingRectangleAdditive(start: Rect, edges: Edges, dx1: int, dy1: int, dx2: int, dy2: int)
    ensures NewBoundingRectangle(NewBoundingRectangle(start, edges, dx1, dy1), edges, dx2, dy2)
         == NewBoundingRectangle(start, edges, dx1 + dx2, dy1 + dy2)
  {
  }

  /** The six cursor labels of `ResizeCursors`. */
  datatype ResizeCursors = ResizeCursors(
    topLeft: string, topRight: string, bottomLeft: string, bottomRight: string,
    leftOrRight: string, topOrBottom: string)

  const DefaultResizeCursors: ResizeCursors :=
    ResizeCursors("nw-resize", "ne-resize", "sw-resize", "se-resize", "col-resize", "row-resize")

  /**
   * `getResizeCursor`: the corners are tried first (top-left, top-right,
   * bottom-left, bottom-right), then a horizontal side, then a vertical one;
   * with no truthy side the cursor is empty.
   */
  function ResizeCursor(edges: Edges, cursors: ResizeCursors): (c: string)
    ensures Truthy(edges, Left) && Truthy(edges, Top) ==> c == cursors.topLeft
    ensures !Truthy(edges, Left) && Truthy(edges, Right) && Truthy(edges, Top) ==> c == cursors.topRight
    ensures !Truthy(edges, Top) && Truthy(edges, Left) && Truthy(edges, Bottom) ==> c == cursors.bottomLeft
    ensures !Truthy(edges, Top) && !Truthy(edges, Left) && Truthy(edges, Right) && Truthy(edges, Bottom) ==> c == cursors.bottomRight
    ensures !Truthy(edges, Top) && !Truthy(edges, Bottom) && (Truthy(edges, Left) || Truthy(edges, Right)) ==> c == cursors.leftOrRight
    ensures !Truthy(edges, Left) && !Truthy(edges, Right) && (Truthy(edges, Top) || Truthy(edges, Bottom)) ==> c == cursors.topOrBottom
    ensures !AnyTruthy(edges) ==> c == ""
  {
    if Truthy(edges, Left) && Truthy(edges, Top) then cursors.topLeft
    else if Truthy(edges, Right) && Truthy(edges, Top) then cursors.topRight
    else if Truthy(edges, Left) && Truthy(edges, Bottom) then cursors.bottomLeft
    else if Truthy(edges, Right) && Truthy(edges, Bottom) then cursors.bottomRight
    else if Truthy(edges, Left) || Truthy(edges, Right) then cursors.leftOrRight
    else if Truthy(edges, Top) || Truthy(edges, Bottom) then cursors.topOrBottom
    else ""
  }

  /** Keys whose value is `false` count for nothing: the cursor depends only on the truthy sides. */
  lemma ResizeCursorIgnoresFalseKeys(edges: Edges, cursors: ResizeCursors)
    ensures ResizeCursor(edges, cursors) == ResizeCursor(map s | s in edges && edges[s] :: true, cursors)
  {
  }

  /** With the default labels, the cursor is empty exactly when no side is truthy. */
  lemma DefaultCursorEmptyIff(edges: Edges)
    ensures ResizeCursor(edges, DefaultResizeCursors) == "" <==> !AnyTruthy(edges)
  {
  }

  /**
   * `getEdgesDiff`: for every key of `edges` (truthy or not) the signed
   * movement of that side from `initial` to `next`.
   */
  function EdgesDiffOf(edges: Edges, initial: Rect, next: Rect): EdgesDiff {
    map s | s in edges :: SideOf(next, s) - SideOf(initial, s)
  }

  /** The diff has exactly the keys of `edges`, each holding how far that side moved. */
  lemma EdgesDiffOfEntries(edges: Edges, initial: Rect, next: Rect)
    ensures var d := EdgesDiffOf(edges, initial, next);
            && d.Keys == edges.Keys
            && forall s | s in d :: d[s] == SideOf(next, s) - SideOf(initial, s)
  {
  }

  /** Identical rectangles give a zero for every key. */
  lemma EdgesDiffOfSameIsZero(edges: Edges, r: Rect)
    ensures forall s | s in EdgesDiffOf(edges, r, r) :: EdgesDiffOf(edges, r, r)[s] == 0
  {
  }

  /**
   * The diff undoes `NewBoundingRectangle`: measured from the start, each
   * truthy side moved by its axis delta and every other key by zero.
   */
  lemma EdgesDiffRecoversDelta(start: Rect, edges: Edges, dx: int, dy: int)
    ensures EdgesDiffOf(edges, start, NewBoundingRectangle(start, edges, dx, dy))
         == map s | s in edges :: if edges[s] then AxisDelta(s, dx, dy) else 0
  {
    var r := NewBoundingRectangle(start, edges, dx, dy);
    var d := EdgesDiffOf(edges, start, r);
    var e := map s | s in edges :: if edges[s] then AxisDelta(s, dx, dy) else 0;
    NewBoundingRectangleSides(start, edges, dx, dy);
    forall s | s in edges ensures d[s] == e[s] {
      assert SideOf(r, s) == SideOf(start, s) + (if Truthy(edges, s) then AxisDelta(s, dx, dy) else 0);
    }
  }

  function Abs(n: int): nat {
    if n < 0 then -n else n
  }

  function Max(a: nat, b: nat): nat {
    if a < b then b else a
  }

  /** `Math.abs(d[s] || 0)`: the magnitude of a key, and 0 for a missing one. */
  function AbsAt(d: EdgesDiff, s: Side): nat {
    if s in d then Abs(d[s]) else 0
  }

  /**
   * `getTotalDiff`: the largest absolute value in the diff, starting from 0,
   * so 0 when the diff is empty. It is the scalar compared with the move
   * threshold. The source folds `Math.max` over the values; the maximum
   * does not depend on the order, so it is taken side by side here.
   */
  function TotalDiff(d: EdgesDiff): nat {
    Max(Max(AbsAt(d, Top), AbsAt(d, Bottom)), Max(AbsAt(d, Left), AbsAt(d, Right)))
  }

  /** The total is the largest magnitude in the diff: it bounds every entry and one entry attains it. */
  lemma TotalDiffIsMaxAbs(d: EdgesDiff)
    ensures var m := TotalDiff(d);
            && (forall s | s in d :: Abs(d[s]) <= m)
            && (m == 0 || exists s | s in d :: Abs(d[s]) == m)
            && (d == map[] ==> m == 0)
  {
    var m := TotalDiff(d);
    forall s | s in d ensures Abs(d[s]) <= m {
      assert AbsAt(d, s) == Abs(d[s]);
      match s
      case Top =>
      case Bottom =>
      case Left =>
      case Right =>
    }
    if m != 0 {
      if m == AbsAt(d, Top) {
        assert Top in d;
      } else if m == AbsAt(d, Bottom) {
        assert Bottom in d;
      } else if m == AbsAt(d, Left) {
        assert Left in d;
      } else {
        assert Right in d;
      }
    }
  }
}
