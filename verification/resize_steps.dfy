/**
 * The resize engine of `ResizableDirective.ngOnInit` as pure transitions:
 * the `currentResize` session, the drag stream that each pointer-down
 * starts, and the events the directive emits. The class in module
 * `Resizable` performs these transitions in place.
 */
module ResizeSteps {
  import opened Wrappers
  import opened Geometry
  import opened Snapping

  /** The optional `validateResize` input. */
  type Validator = (Rect, EdgesDiff) -> bool

  /** `DISABLE_CLICK_MOVE_THRESHOLD`: a resize starts on the press itself. */
  const DisableClickMoveThreshold: int := 0

  /** The inputs of the directive that the engine reads. */
  datatype Config = Config(
    resizeSnapGrid: map<Side, nat>,
    enableGhostResize: bool,
    allowNegativeResizes: bool,
    resizeMoveThreshold: int,
    validateResize: Option<Validator>)

  /** The defaults of the directive's inputs. */
  const DefaultConfig: Config := Config(map[], false, false, DisableClickMoveThreshold, None)

  /**
   * `currentResize`: the edges pressed, the element rectangle at the press,
   * the last accepted rectangle, whether the resize has become visible and
   * whether a ghost clone was inserted.
   */
  datatype Session = Session(
    edges: Edges,
    startingRect: Rect,
    currentRect: Rect,
    visible: bool,
    ghostPresent: bool)

  datatype Point = Point(x: int, y: int)

  /**
   * The inner stream a pointer-down opens: the coordinates of that down and
   * the raw delta of the last move seen since (the `pairwise` memory).
   */
  datatype Drag = Drag(origin: Point, previous: Option<Delta>)

  /** The `{edges, rectangle}` payload of resizeStart, resizing and resizeEnd. */
  datatype ResizeEvent = ResizeEvent(edges: EdgesDiff, rectangle: Rect)

  /** The `ClickEvent` payload: the coordinates of the pointer-up. */
  datatype ClickEvent = ClickEvent(clientX: int, clientY: int)

  datatype Output =
    | ResizeStart(resize: ResizeEvent)
    | Resizing(resize: ResizeEvent)
    | ResizeEnd(resize: ResizeEvent)
    | Clicked(click: ClickEvent)

  datatype ControllerState = ControllerState(session: Option<Session>, drag: Option<Drag>, events: seq<Output>)

  const Initial: ControllerState := ControllerState(None, None, [])

  /** The negative-size filter: accepted if negative resizes are allowed or both sizes are positive. */
  predicate SizeAllowed(allowNegativeResizes: bool, r: Rect) {
    allowNegativeResizes || (r.height > 0 && r.width > 0)
  }

  /** The validation filter: accepted when no validator is set or it accepts the candidate. */
  predicate Validates(validate: Option<Validator>, r: Rect, diff: EdgesDiff) {
    validate.None? || validate.value(r, diff)
  }

  /**
   * One move through the pipeline: dedupe against the previous raw delta on
   * the session's snap grid, round the delta to the grid, build the candidate
   * rectangle, then the negative-size and validation filters. `None` is a
   * dropped move.
   */
  function AcceptMove(cfg: Config, s: Session, previous: Option<Delta>, d: Delta): (r: Option<Rect>)
  {
    var g := SnapGrid(cfg.resizeSnapGrid, s.edges);
    if !CellChanged(previous, d, g) then None
    else
      var snapped := SnapDelta(d, g);
      var rect := NewBoundingRectangle(s.startingRect, s.edges, snapped.dx, snapped.dy);
      if !SizeAllowed(cfg.allowNegativeResizes, rect) then None
      else if !Validates(cfg.validateResize, rect, EdgesDiffOf(s.edges, s.startingRect, rect)) then None
      else Some(rect)
  }

  /** A side moved from `from` to `to` by a multiple of `g` within half a grid step of the pointer delta `d`. */
  predicate OnGrid(from: int, to: int, d: int, g: Positive) {
    (to - from) % g == 0 && 2 * d - g < 2 * (to - from) <= 2 * d + g
  }

  /**
   * What an accepted rectangle is: every truthy side has moved from the
   * start by a grid multiple within half a grid step of the pointer delta,
   * every other side stayed, the size is positive unless negative resizes
   * are allowed, and the validator accepted it.
   */
  lemma AcceptedRectangle(cfg: Config, s: Session, previous: Option<Delta>, d: Delta)
    requires AcceptMove(cfg, s, previous, d).Some?
    ensures var r := AcceptMove(cfg, s, previous, d).value;
            var g := SnapGrid(cfg.resizeSnapGrid, s.edges);
            && Consistent(r)
            && (forall side: Side :: !Truthy(s.edges, side) ==> SideOf(r, side) == SideOf(s.startingRect, side))
            && (Truthy(s.edges, Left) ==> OnGrid(s.startingRect.left, r.left, d.dx, g.x))
            && (Truthy(s.edges, Right) ==> OnGrid(s.startingRect.right, r.right, d.dx, g.x))
            && (Truthy(s.edges, Top) ==> OnGrid(s.startingRect.top, r.top, d.dy, g.y))
            && (Truthy(s.edges, Bottom) ==> OnGrid(s.startingRect.bottom, r.bottom, d.dy, g.y))
            && (cfg.allowNegativeResizes || (r.height > 0 && r.width > 0))
            && (cfg.validateResize.Some? ==> cfg.validateResize.value(r, EdgesDiffOf(s.edges, s.startingRect, r)))
  {
    var g := SnapGrid(cfg.resizeSnapGrid, s.edges);
    var snapped := SnapDelta(d, g);
    SnapDeltaOnGrid(d, g);
    var r := NewBoundingRectangle(s.startingRect, s.edges, snapped.dx, snapped.dy);
    NewBoundingRectangleSides(s.startingRect, s.edges, snapped.dx, snapped.dy);
    assert SideOf(r, Left) == r.left && SideOf(r, Right) == r.right;
    assert SideOf(r, Top) == r.top && SideOf(r, Bottom) == r.bottom;
  }

  /**
   * The converse of `AcceptedRectangle`: a move is accepted exactly when it
   * leaves the previous grid cell and its snapped rectangle passes the size
   * filter and the validator, and then the result is that rectangle.
   */
  lemma AcceptMoveComplete(cfg: Config, s: Session, previous: Option<Delta>, d: Delta)
    ensures var g := SnapGrid(cfg.resizeSnapGrid, s.edges);
            var snapped := SnapDelta(d, g);
            var rect := NewBoundingRectangle(s.startingRect, s.edges, snapped.dx, snapped.dy);
            var passes := CellChanged(previous, d, g)
                          && SizeAllowed(cfg.allowNegativeResizes, rect)
                          && Validates(cfg.validateResize, rect, EdgesDiffOf(s.edges, s.startingRect, rect));
            && (passes ==> AcceptMove(cfg, s, previous, d) == Some(rect))
            && (!passes ==> AcceptMove(cfg, s, previous, d) == None)
  {
  }

  /** A move that stays in the previous move's grid cell is dropped. */
  lemma SameCellIsDropped(cfg: Config, s: Session, previous: Delta, d: Delta)
    requires GridCell(previous, SnapGrid(cfg.resizeSnapGrid, s.edges)) == GridCell(d, SnapGrid(cfg.resizeSnapGrid, s.edges))
    ensures AcceptMove(cfg, s, Some(previous), d) == None
  {
  }

  /**
   * The first move of a drag is never deduplicated: without snap sizes or a
   * validator it is accepted iff the rectangle it gives has a positive size.
   */
  lemma FirstMoveUnsnapped(s: Session, d: Delta)
    ensures AcceptMove(DefaultConfig, s, None, d)
         == var r := NewBoundingRectangle(s.startingRect, s.edges, d.dx, d.dy);
            if r.height > 0 && r.width > 0 then Some(r) else None
  {
    EmptySnapConfigMeansNoSnapping(s.edges);
    UnitGridKeepsDelta(d);
  }

  /**
   * `startVisibleResize`: the session becomes visible, gets a ghost iff
   * ghost resizing is enabled, and resizeStart reports an all-zero diff
   * with the starting rectangle (normalised, without scroll offsets).
   */
  function StartVisibleResize(cfg: Config, s: Session): (r: (Session, Output))
  {
    (s.(visible := true, ghostPresent := cfg.enableGhostResize),
     ResizeStart(ResizeEvent(EdgesDiffOf(s.edges, s.startingRect, s.startingRect),
                             NewBoundingRectangle(s.startingRect, map[], 0, 0))))
  }

  /** The resizeStart payload: a zero per edge key, and the starting rectangle's sides. */
  lemma ResizeStartPayload(cfg: Config, s: Session)
    ensures var ev := StartVisibleResize(cfg, s).1.resize;
            && ev.edges.Keys == s.edges.Keys
            && (forall side | side in ev.edges :: ev.edges[side] == 0)
            && (forall side: Side :: SideOf(ev.rectangle, side) == SideOf(s.startingRect, side))
            && Consistent(ev.rectangle)
  {
    EdgesDiffOfEntries(s.edges, s.startingRect, s.startingRect);
    NewBoundingRectangleSides(s.startingRect, map[], 0, 0);
  }

  /**
   * The pointer-down handler. Every down restarts the drag stream at its own
   * coordinates; a down whose edges object has at least one key also
   * replaces the session (no resizeEnd for the one it replaces) and starts
   * the visible resize at once when the threshold is not positive.
   */
  function Down(cfg: Config, st: ControllerState, x: int, y: int, edges: Edges, elementRect: Rect): ControllerState
  {
    var st1 := st.(drag := Some(Drag(Point(x, y), None)));
    if |edges| == 0 then st1
    else
      var s := Session(edges, elementRect, elementRect, false, false);
      if cfg.resizeMoveThreshold <= 0 then
        var (s1, ev) := StartVisibleResize(cfg, s);
        st1.(session := Some(s1), events := st.events + [ev])
      else st1.(session := Some(s))
  }

  /** The subscriber of accepted rectangles. */
  function ApplyAccepted(cfg: Config, st: ControllerState, s: Session, rect: Rect): ControllerState
  {
    var diff := EdgesDiffOf(s.edges, s.startingRect, rect);
    var (s1, started) :=
      if !s.visible && TotalDiff(diff) >= cfg.resizeMoveThreshold then
        var (v, ev) := StartVisibleResize(cfg, s); (v, [ev])
      else (s, []);
    var progress := if s1.visible then [Resizing(ResizeEvent(diff, rect))] else [];
    st.(session := Some(s1.(currentRect := rect)), events := st.events + started + progress)
  }

  /**
   * The pointer-move handler. Without a drag stream the move is ignored;
   * otherwise the raw delta from the drag origin becomes the new `previous`,
   * and with a session the move goes through `AcceptMove`.
   */
  function Move(cfg: Config, st: ControllerState, x: int, y: int): ControllerState
  {
    match st.drag
    case None => st
    case Some(drag) =>
      var d := Delta(x - drag.origin.x, y - drag.origin.y);
      var st1 := st.(drag := Some(drag.(previous := Some(d))));
      match st.session
      case None => st1
      case Some(s) =>
        match AcceptMove(cfg, s, drag.previous, d)
        case None => st1
        case Some(rect) => ApplyAccepted(cfg, st1, s, rect)
  }

  /**
   * The pointer-up handler. It always ends the drag stream; without a
   * session nothing else happens; otherwise it emits resizeEnd (diff from
   * the start to the current rectangle) if the resize was visible and
   * clicked if not, and clears the session.
   */
  function Up(cfg: Config, st: ControllerState, x: int, y: int): ControllerState
  {
    match st.session
    case None => st.(drag := None)
    case Some(s) =>
      var ev :=
        if s.visible then ResizeEnd(ResizeEvent(EdgesDiffOf(s.edges, s.startingRect, s.currentRect), s.currentRect))
        else Clicked(ClickEvent(x, y));
      ControllerState(None, None, st.events + [ev])
  }

  /** The log is inside a visible resize: its last event other than resizing is a resizeStart. */
  predicate InResize(log: seq<Output>)
  {
    if log == [] then false
    else match log[|log| - 1]
      case ResizeStart(_) => true
      case Resizing(_) => InResize(log[..|log| - 1])
      case ResizeEnd(_) => false
      case Clicked(_) => false
  }

  /** Every resizing and resizeEnd event is emitted inside a visible resize. */
  predicate WellFormed(log: seq<Output>)
  {
    forall i :: 0 <= i < |log| && (log[i].Resizing? || log[i].ResizeEnd?) ==> InResize(log[..i])
  }

  /** The invariant the three handlers keep. */
  predicate Inv(st: ControllerState)
  {
    && WellFormed(st.events)
    && (st.session.Some? ==>
          && st.drag.Some?
          && |st.session.value.edges| > 0
          && (st.session.value.ghostPresent ==> st.session.value.visible)
          && (st.session.value.visible ==> InResize(st.events)))
  }

  lemma WellFormedAppend(log: seq<Output>, e: Output)
    requires WellFormed(log)
    requires (e.Resizing? || e.ResizeEnd?) ==> InResize(log)
    ensures WellFormed(log + [e])
  {
    var l := log + [e];
    forall i | 0 <= i < |l| && (l[i].Resizing? || l[i].ResizeEnd?) ensures InResize(l[..i]) {
      if i < |log| {
        assert l[..i] == log[..i];
      } else {
        assert l[..i] == log;
      }
    }
  }

  lemma InResizeAppend(log: seq<Output>, e: Output)
    ensures InResize(log + [e]) == match e
      case ResizeStart(_) => true
      case Resizing(_) => InResize(log)
      case ResizeEnd(_) => false
      case Clicked(_) => false
  {
    assert (log + [e])[..|log|] == log;
  }

  lemma InitialInv()
    ensures Inv(Initial)
  {
  }

  lemma DownPreservesInv(cfg: Config, st: ControllerState, x: int, y: int, edges: Edges, elementRect: Rect)
    requires Inv(st)
    ensures Inv(Down(cfg, st, x, y, edges, elementRect))
  {
    if |edges| > 0 && cfg.resizeMoveThreshold <= 0 {
      var s := Session(edges, elementRect, elementRect, false, false);
      var ev := StartVisibleResize(cfg, s).1;
      WellFormedAppend(st.events, ev);
      InResizeAppend(st.events, ev);
    }
  }

  /** Without a drag stream a move is ignored; with one but without an accepted rectangle only `previous` changes. */
  lemma MoveDropped(cfg: Config, st: ControllerState, x: int, y: int)
    ensures st.drag.None? ==> Move(cfg, st, x, y) == st
    ensures st.drag.Some? ==>
              var d := Delta(x - st.drag.value.origin.x, y - st.drag.value.origin.y);
              (st.session.None? || AcceptMove(cfg, st.session.value, st.drag.value.previous, d).None?) ==>
                Move(cfg, st, x, y) == st.(drag := Some(st.drag.value.(previous := Some(d))))
  {
  }

  /** In the accepted case a move is `ApplyAccepted` on the state whose `previous` is updated. */
  lemma MoveAccepted(cfg: Config, st: ControllerState, x: int, y: int)
    requires st.drag.Some? && st.session.Some?
    requires AcceptMove(cfg, st.session.value, st.drag.value.previous,
                        Delta(x - st.drag.value.origin.x, y - st.drag.value.origin.y)).Some?
    ensures var d := Delta(x - st.drag.value.origin.x, y - st.drag.value.origin.y);
            var st1 := st.(drag := Some(st.drag.value.(previous := Some(d))));
            Move(cfg, st, x, y) == ApplyAccepted(cfg, st1, st.session.value, AcceptMove(cfg, st.session.value, st.drag.value.previous, d).value)
  {
    var drag := st.drag.value;
    var s := st.session.value;
    var d := Delta(x - drag.origin.x, y - drag.origin.y);
    var candidate := AcceptMove(cfg, s, drag.previous, d);
    assert candidate == Some(candidate.value);
  }

  /** `ApplyAccepted` spelled out by case. */
  lemma ApplyAcceptedCases(cfg: Config, st: ControllerState, s: Session, rect: Rect)
    ensures var diff := EdgesDiffOf(s.edges, s.startingRect, rect);
            var p := Resizing(ResizeEvent(diff, rect));
            var started := StartVisibleResize(cfg, s);
            ApplyAccepted(cfg, st, s, rect) ==
              if !s.visible && TotalDiff(diff) >= cfg.resizeMoveThreshold then
                st.(session := Some(started.0.(currentRect := rect)), events := st.events + [started.1, p])
              else if s.visible then
                st.(session := Some(s.(currentRect := rect)), events := st.events + [p])
              else
                st.(session := Some(s.(currentRect := rect)))
  {
    var diff := EdgesDiffOf(s.edges, s.startingRect, rect);
    var p := Resizing(ResizeEvent(diff, rect));
    var (v, ev) := StartVisibleResize(cfg, s);
    assert st.events + [ev] + [p] == st.events + [ev, p];
    assert st.events + [] + [p] == st.events + [p];
    assert st.events + [] + [] == st.events;
  }

  lemma ApplyAcceptedPreservesInv(cfg: Config, st: ControllerState, s: Session, rect: Rect)
    requires Inv(st) && st.session == Some(s)
    ensures Inv(ApplyAccepted(cfg, st, s, rect))
  {
    var diff := EdgesDiffOf(s.edges, s.startingRect, rect);
    var log := st.events;
    var p := Resizing(ResizeEvent(diff, rect));
    var st' := ApplyAccepted(cfg, st, s, rect);
    if !s.visible && TotalDiff(diff) >= cfg.resizeMoveThreshold {
      var (v, ev) := StartVisibleResize(cfg, s);
      assert st' == st.(session := Some(v.(currentRect := rect)), events := log + [ev] + [p]);
      WellFormedAppend(log, ev);
      InResizeAppend(log, ev);
      WellFormedAppend(log + [ev], p);
      InResizeAppend(log + [ev], p);
    } else if s.visible {
      assert st' == st.(session := Some(s.(currentRect := rect)), events := log + [p]);
      WellFormedAppend(log, p);
      InResizeAppend(log, p);
    } else {
      assert st' == st.(session := Some(s.(currentRect := rect)));
    }
  }

  lemma MovePreservesInv(cfg: Config, st: ControllerState, x: int, y: int)
    requires Inv(st)
    ensures Inv(Move(cfg, st, x, y))
  {
    var st' := Move(cfg, st, x, y);
    if st.drag.None? {
      assert st' == st;
    } else {
      var drag := st.drag.value;
      var d := Delta(x - drag.origin.x, y - drag.origin.y);
      var st1 := st.(drag := Some(drag.(previous := Some(d))));
      assert Inv(st1);
      if st.session.None? {
        assert st' == st1;
      } else if AcceptMove(cfg, st.session.value, drag.previous, d).None? {
        assert st' == st1;
      } else {
        MoveAccepted(cfg, st, x, y);
        ApplyAcceptedPreservesInv(cfg, st1, st.session.value, AcceptMove(cfg, st.session.value, drag.previous, d).value);
      }
    }
  }

  lemma UpPreservesInv(cfg: Config, st: ControllerState, x: int, y: int)
    requires Inv(st)
    ensures Inv(Up(cfg, st, x, y))
  {
    if st.session.Some? {
      var s := st.session.value;
      var ev :=
        if s.visible then ResizeEnd(ResizeEvent(EdgesDiffOf(s.edges, s.startingRect, s.currentRect), s.currentRect))
        else Clicked(ClickEvent(x, y));
      WellFormedAppend(st.events, ev);
    }
  }

  /**
   * Bracketing: in a well-formed log every resizing or resizeEnd event is
   * preceded by a resizeStart with only resizing events in between.
   */
  lemma {:induction false} OpenedBy(log: seq<Output>, i: nat)
    requires i <= |log| && InResize(log[..i])
    ensures exists j :: 0 <= j < i && log[j].ResizeStart? && forall k :: j < k < i ==> log[k].Resizing?
  {
    var pre := log[..i];
    assert pre[|pre| - 1] == log[i - 1];
    assert pre[..|pre| - 1] == log[..i - 1];
    if !log[i - 1].ResizeStart? {
      OpenedBy(log, i - 1);
      var j :| 0 <= j < i - 1 && log[j].ResizeStart? && forall k :: j < k < i - 1 ==> log[k].Resizing?;
      assert forall k :: j < k < i ==> log[k].Resizing?;
    }
  }

  lemma EveryProgressFollowsAStart(log: seq<Output>, i: nat)
    requires WellFormed(log) && i < |log| && (log[i].Resizing? || log[i].ResizeEnd?)
    ensures exists j :: 0 <= j < i && log[j].ResizeStart? && forall k :: j < k < i ==> log[k].Resizing?
  {
    OpenedBy(log, i);
  }

  /** A dropped move leaves the session exactly as it was: neither `currentRect` nor `visible` changes, and nothing is emitted. */
  lemma RejectedMoveChangesNothing(cfg: Config, st: ControllerState, x: int, y: int)
    requires st.drag.Some? && st.session.Some?
    requires AcceptMove(cfg, st.session.value, st.drag.value.previous,
                        Delta(x - st.drag.value.origin.x, y - st.drag.value.origin.y)).None?
    ensures Move(cfg, st, x, y).session == st.session
    ensures Move(cfg, st, x, y).events == st.events
  {
    MoveDropped(cfg, st, x, y);
  }

  /**
   * An accepted move always becomes the current rectangle; a hidden session
   * becomes visible iff the total diff reaches the threshold, and then
   * resizeStart comes before this move's resizing event.
   */
  lemma AcceptedMove(cfg: Config, st: ControllerState, x: int, y: int)
    requires st.drag.Some? && st.session.Some?
    requires AcceptMove(cfg, st.session.value, st.drag.value.previous,
                        Delta(x - st.drag.value.origin.x, y - st.drag.value.origin.y)).Some?
    ensures var s := st.session.value;
            var rect := AcceptMove(cfg, s, st.drag.value.previous,
                                   Delta(x - st.drag.value.origin.x, y - st.drag.value.origin.y)).value;
            var diff := EdgesDiffOf(s.edges, s.startingRect, rect);
            var st' := Move(cfg, st, x, y);
            && st'.session.Some?
            && st'.session.value.currentRect == rect
            && st'.session.value.visible == (s.visible || TotalDiff(diff) >= cfg.resizeMoveThreshold)
            && st'.events == st.events
                 + (if !s.visible && TotalDiff(diff) >= cfg.resizeMoveThreshold then [StartVisibleResize(cfg, s).1] else [])
                 + (if st'.session.value.visible then [Resizing(ResizeEvent(diff, rect))] else [])
  {
    MoveAccepted(cfg, st, x, y);
  }

  /** A down with at least one edge key replaces the session; it is visible at once iff the threshold is at most 0. */
  lemma DownWithEdges(cfg: Config, st: ControllerState, x: int, y: int, edges: Edges, elementRect: Rect)
    requires |edges| > 0
    ensures var st' := Down(cfg, st, x, y, edges, elementRect);
            && st'.session.Some?
            && st'.session.value.edges == edges
            && st'.session.value.startingRect == elementRect
            && st'.session.value.currentRect == elementRect
            && st'.session.value.visible == (cfg.resizeMoveThreshold <= 0)
            && st'.drag == Some(Drag(Point(x, y), None))
            && st'.events == st.events + (if cfg.resizeMoveThreshold <= 0
                                          then [StartVisibleResize(cfg, Session(edges, elementRect, elementRect, false, false)).1]
                                          else [])
  {
  }

  /** A down with an empty edges object (a plain document press) only restarts the drag stream. */
  lemma DownWithoutEdges(cfg: Config, st: ControllerState, x: int, y: int, elementRect: Rect)
    ensures Down(cfg, st, x, y, map[], elementRect) == st.(drag := Some(Drag(Point(x, y), None)))
  {
  }

  /** An up always clears the session and ends the drag; without a session it emits nothing. */
  lemma UpEndsSession(cfg: Config, st: ControllerState, x: int, y: int)
    ensures Up(cfg, st, x, y).session.None? && Up(cfg, st, x, y).drag.None?
    ensures st.session.None? ==> Up(cfg, st, x, y).events == st.events
    ensures st.session.Some? && st.session.value.visible ==>
              Up(cfg, st, x, y).events == st.events + [ResizeEnd(ResizeEvent(
                EdgesDiffOf(st.session.value.edges, st.session.value.startingRect, st.session.value.currentRect),
                st.session.value.currentRect))]
    ensures st.session.Some? && !st.session.value.visible ==>
              Up(cfg, st, x, y).events == st.events + [Clicked(ClickEvent(x, y))]
  {
  }
}
