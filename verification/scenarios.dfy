/**
 * Concrete drags run through the transitions of `ResizeSteps`: the move
 * threshold, a press that stays a click, a snap grid, the negative-size
 * guard and a validator that refuses everything. Every drag starts on the
 * right handle of `Start`, from any pointer position `o`, and its moves keep
 * the pointer at any fixed height `o.y + h`.
 */
module ResizeScenarios {
  import opened Wrappers
  import opened Geometry
  import opened Snapping
  import opened ResizeSteps

  const Start: Rect := Rect(10, 110, 20, 70, 100, 50, None, None)
  const RightEdge: Edges := map[Right := true]
  const Threshold5: Config := DefaultConfig.(resizeMoveThreshold := 5)

  /** `Start` with its right side moved by `dx`. */
  function RightMoved(dx: int): Rect {
    Rect(10, 110, 20, 70 + dx, 100, 50 + dx, None, None)
  }

  /** A session on the right handle of `Start` whose current rectangle is moved by `cur`. */
  function RightSession(cur: int, visible: bool): Session {
    Session(RightEdge, Start, RightMoved(cur), visible, false)
  }

  /** Without snap sizes or a validator, a move that differs from the previous one is placed exactly under the pointer. */
  lemma UnsnappedAccept(cfg: Config, s: Session, previous: Option<Delta>, d: Delta)
    requires cfg.resizeSnapGrid == map[] && cfg.validateResize.None?
    requires previous.None? || previous.value != d
    requires SizeAllowed(cfg.allowNegativeResizes, NewBoundingRectangle(s.startingRect, s.edges, d.dx, d.dy))
    ensures AcceptMove(cfg, s, previous, d) == Some(NewBoundingRectangle(s.startingRect, s.edges, d.dx, d.dy))
  {
    EmptySnapConfigMeansNoSnapping(s.edges);
    UnitGridKeepsDelta(d);
    if previous.Some? {
      UnitGridDropsOnlyRepeats(previous.value, d);
    }
  }

  /** The diff of `RightMoved(dx)` from `Start` is `dx` on the right key. */
  lemma RightDiff(dx: int)
    ensures EdgesDiffOf(RightEdge, Start, RightMoved(dx)) == map[Right := dx]
  {
    assert SideOf(RightMoved(dx), Right) - SideOf(Start, Right) == dx;
  }

  /** Moving the right edge of `Start` by `dx` gives `RightMoved(dx)`, whatever the vertical delta. */
  lemma RightMovedAt(dx: int, dy: int)
    ensures NewBoundingRectangle(Start, RightEdge, dx, dy) == RightMoved(dx)
  {
    NewBoundingRectangleSides(Start, RightEdge, dx, dy);
  }

  lemma RightTotal(dx: int)
    ensures TotalDiff(map[Right := dx]) == Abs(dx)
  {
    TotalDiffIsMaxAbs(map[Right := dx]);
    assert Right in map[Right := dx];
  }

  /** The resizeStart of a right-edge drag from `Start`. */
  lemma RightStart(cfg: Config, cur: int)
    ensures StartVisibleResize(cfg, RightSession(cur, false))
         == (Session(RightEdge, Start, RightMoved(cur), true, cfg.enableGhostResize), ResizeStart(ResizeEvent(map[Right := 0], Start)))
  {
    RightDiff(0);
    ZeroDeltaIsIdentity(Start, map[]);
  }

  /** A move to `(x, y)` of a drag pressed at `o` that the pipeline drops only records its delta. */
  lemma MoveFromDropped(cfg: Config, o: Point, s: Session, previous: Option<Delta>, events: seq<Output>, x: int, y: int)
    requires AcceptMove(cfg, s, previous, Delta(x - o.x, y - o.y)).None?
    ensures Move(cfg, ControllerState(Some(s), Some(Drag(o, previous)), events), x, y)
         == ControllerState(Some(s), Some(Drag(o, Some(Delta(x - o.x, y - o.y)))), events)
  {
    MoveDropped(cfg, ControllerState(Some(s), Some(Drag(o, previous)), events), x, y);
  }

  /** A move to `(x, y)` of a drag pressed at `o` that the pipeline accepts as `rect` is applied. */
  lemma MoveFromAccepted(cfg: Config, o: Point, s: Session, previous: Option<Delta>, events: seq<Output>, x: int, y: int, rect: Rect)
    requires AcceptMove(cfg, s, previous, Delta(x - o.x, y - o.y)) == Some(rect)
    ensures Move(cfg, ControllerState(Some(s), Some(Drag(o, previous)), events), x, y)
         == ApplyAccepted(cfg, ControllerState(Some(s), Some(Drag(o, Some(Delta(x - o.x, y - o.y)))), events), s, rect)
  {
    MoveAccepted(cfg, ControllerState(Some(s), Some(Drag(o, previous)), events), x, y);
  }

  /** An accepted move that leaves the drag below the threshold only moves the current rectangle. */
  lemma HiddenMove(cfg: Config, o: Point, s: Session, previous: Option<Delta>, events: seq<Output>, dx: int, h: int, rect: Rect)
    requires AcceptMove(cfg, s, previous, Delta(dx, h)) == Some(rect)
    requires !s.visible && TotalDiff(EdgesDiffOf(s.edges, s.startingRect, rect)) < cfg.resizeMoveThreshold
    ensures Move(cfg, ControllerState(Some(s), Some(Drag(o, previous)), events), o.x + dx, o.y + h)
         == ControllerState(Some(s.(currentRect := rect)), Some(Drag(o, Some(Delta(dx, h)))), events)
  {
    var st1 := ControllerState(Some(s), Some(Drag(o, Some(Delta(dx, h)))), events);
    assert Delta(o.x + dx - o.x, o.y + h - o.y) == Delta(dx, h);
    MoveFromAccepted(cfg, o, s, previous, events, o.x + dx, o.y + h, rect);
    ApplyAcceptedCases(cfg, st1, s, rect);
  }

  /** An accepted move that brings a hidden drag to the threshold starts the visible resize and reports itself. */
  lemma CrossingMove(cfg: Config, o: Point, s: Session, previous: Option<Delta>, events: seq<Output>, dx: int, h: int, rect: Rect)
    requires AcceptMove(cfg, s, previous, Delta(dx, h)) == Some(rect)
    requires !s.visible && TotalDiff(EdgesDiffOf(s.edges, s.startingRect, rect)) >= cfg.resizeMoveThreshold
    ensures var started := StartVisibleResize(cfg, s);
            Move(cfg, ControllerState(Some(s), Some(Drag(o, previous)), events), o.x + dx, o.y + h)
              == ControllerState(Some(started.0.(currentRect := rect)), Some(Drag(o, Some(Delta(dx, h)))),
                                 events + [started.1, Resizing(ResizeEvent(EdgesDiffOf(s.edges, s.startingRect, rect), rect))])
  {
    var st1 := ControllerState(Some(s), Some(Drag(o, Some(Delta(dx, h)))), events);
    assert Delta(o.x + dx - o.x, o.y + h - o.y) == Delta(dx, h);
    MoveFromAccepted(cfg, o, s, previous, events, o.x + dx, o.y + h, rect);
    ApplyAcceptedCases(cfg, st1, s, rect);
  }

  /** An accepted move of a visible drag moves the current rectangle and reports resizing. */
  lemma VisibleMove(cfg: Config, o: Point, s: Session, previous: Option<Delta>, events: seq<Output>, dx: int, h: int, rect: Rect)
    requires AcceptMove(cfg, s, previous, Delta(dx, h)) == Some(rect)
    requires s.visible
    ensures Move(cfg, ControllerState(Some(s), Some(Drag(o, previous)), events), o.x + dx, o.y + h)
         == ControllerState(Some(s.(currentRect := rect)), Some(Drag(o, Some(Delta(dx, h)))),
                            events + [Resizing(ResizeEvent(EdgesDiffOf(s.edges, s.startingRect, rect), rect))])
  {
    var st1 := ControllerState(Some(s), Some(Drag(o, Some(Delta(dx, h)))), events);
    assert Delta(o.x + dx - o.x, o.y + h - o.y) == Delta(dx, h);
    MoveFromAccepted(cfg, o, s, previous, events, o.x + dx, o.y + h, rect);
    ApplyAcceptedCases(cfg, st1, s, rect);
  }

  /** A hidden right-edge drag pressed at `o`: the current rectangle moved by `cur`, the last raw delta `previous`. */
  function Dragging(o: Point, cur: int, previous: Option<Delta>): ControllerState {
    ControllerState(Some(RightSession(cur, false)), Some(Drag(o, previous)), [])
  }

  /** A visible right-edge drag pressed at `o`, with its current offset, last raw delta and log. */
  function Visible(o: Point, cur: int, previous: Option<Delta>, events: seq<Output>): ControllerState {
    ControllerState(Some(RightSession(cur, true)), Some(Drag(o, previous)), events)
  }

  /** A press on the right handle with a positive threshold starts a hidden session. */
  lemma PressStep(cfg: Config, o: Point)
    requires cfg.resizeMoveThreshold > 0
    ensures Down(cfg, Initial, o.x, o.y, RightEdge, Start) == Dragging(o, 0, None)
  {
    assert RightMoved(0) == Start;
  }

  /** With a threshold that is not positive the press itself emits resizeStart. */
  lemma ImmediateStartStep(cfg: Config, o: Point)
    requires cfg.resizeMoveThreshold <= 0 && !cfg.enableGhostResize
    ensures Down(cfg, Initial, o.x, o.y, RightEdge, Start)
         == Visible(o, 0, None, [ResizeStart(ResizeEvent(map[Right := 0], Start))])
  {
    assert RightMoved(0) == Start;
    RightStart(cfg, 0);
  }

  /** A move below the threshold: the rectangle follows, nothing is emitted. */
  lemma HiddenStep(o: Point, h: int, cur: int, previous: Option<Delta>, dx: int)
    requires 0 <= dx < 5 && previous != Some(Delta(dx, h))
    ensures Move(Threshold5, Dragging(o, cur, previous), o.x + dx, o.y + h) == Dragging(o, dx, Some(Delta(dx, h)))
  {
    RightDiff(dx);
    RightMovedAt(dx, h);
    RightTotal(dx);
    UnsnappedAccept(Threshold5, RightSession(cur, false), previous, Delta(dx, h));
    HiddenMove(Threshold5, o, RightSession(cur, false), previous, [], dx, h, RightMoved(dx));
  }

  /** A move that reaches the threshold emits resizeStart and the first resizing together. */
  lemma ThresholdStep(o: Point, h: int, cur: int, previous: Option<Delta>, dx: int)
    requires dx >= 5 && previous != Some(Delta(dx, h))
    ensures Move(Threshold5, Dragging(o, cur, previous), o.x + dx, o.y + h)
         == Visible(o, dx, Some(Delta(dx, h)), [ResizeStart(ResizeEvent(map[Right := 0], Start)),
                                                 Resizing(ResizeEvent(map[Right := dx], RightMoved(dx)))])
  {
    RightDiff(dx);
    RightMovedAt(dx, h);
    RightTotal(dx);
    RightStart(Threshold5, cur);
    UnsnappedAccept(Threshold5, RightSession(cur, false), previous, Delta(dx, h));
    CrossingMove(Threshold5, o, RightSession(cur, false), previous, [], dx, h, RightMoved(dx));
  }

  /** A visible drag whose move is accepted at offset `n` records it and reports resizing. */
  lemma VisibleAcceptedStep(cfg: Config, o: Point, h: int, cur: int, previous: Option<Delta>, events: seq<Output>, dx: int, n: int)
    requires AcceptMove(cfg, RightSession(cur, true), previous, Delta(dx, h)) == Some(RightMoved(n))
    ensures Move(cfg, Visible(o, cur, previous, events), o.x + dx, o.y + h)
         == Visible(o, n, Some(Delta(dx, h)), events + [Resizing(ResizeEvent(map[Right := n], RightMoved(n)))])
  {
    RightDiff(n);
    VisibleMove(cfg, o, RightSession(cur, true), previous, events, dx, h, RightMoved(n));
  }

  /** A visible drag whose move is dropped only records the raw delta. */
  lemma VisibleDroppedStep(cfg: Config, o: Point, h: int, cur: int, previous: Option<Delta>, events: seq<Output>, dx: int)
    requires AcceptMove(cfg, RightSession(cur, true), previous, Delta(dx, h)).None?
    ensures Move(cfg, Visible(o, cur, previous, events), o.x + dx, o.y + h) == Visible(o, cur, Some(Delta(dx, h)), events)
  {
    assert Delta(o.x + dx - o.x, o.y + h - o.y) == Delta(dx, h);
    MoveFromDropped(cfg, o, RightSession(cur, true), previous, events, o.x + dx, o.y + h);
  }

  /** Releasing a visible drag appends resizeEnd with the diff of its current rectangle. */
  lemma VisibleUpStep(cfg: Config, o: Point, cur: int, previous: Option<Delta>, events: seq<Output>, x: int, y: int)
    ensures Up(cfg, Visible(o, cur, previous, events), x, y)
         == ControllerState(None, None, events + [ResizeEnd(ResizeEvent(map[Right := cur], RightMoved(cur)))])
  {
    RightDiff(cur);
  }

  /** Moves of 2 and 4 pixels under a threshold of 5 keep the drag hidden. */
  lemma HiddenPhase(o: Point, h: int)
    ensures Move(Threshold5, Move(Threshold5, Dragging(o, 0, None), o.x + 2, o.y + h), o.x + 4, o.y + h)
         == Dragging(o, 4, Some(Delta(4, h)))
  {
    HiddenStep(o, h, 0, None, 2);
    HiddenStep(o, h, 2, Some(Delta(2, h)), 4);
  }

  /**
   * With a threshold of 5: moves of 2 and 4 pixels stay hidden and emit
   * nothing, the move to 6 emits resizeStart (zero diff, starting
   * rectangle) and resizing, and the release emits resizeEnd.
   */
  lemma ThresholdScenario(o: Point, h: int)
    ensures var s1 := Down(Threshold5, Initial, o.x, o.y, RightEdge, Start);
            var s2 := Move(Threshold5, s1, o.x + 2, o.y + h);
            var s3 := Move(Threshold5, s2, o.x + 4, o.y + h);
            var s4 := Move(Threshold5, s3, o.x + 6, o.y + h);
            var s5 := Up(Threshold5, s4, o.x + 6, o.y + h);
            && s3.events == []
            && s5 == ControllerState(None, None,
                                     [ResizeStart(ResizeEvent(map[Right := 0], Start)),
                                      Resizing(ResizeEvent(map[Right := 6], RightMoved(6))),
                                      ResizeEnd(ResizeEvent(map[Right := 6], RightMoved(6)))])
  {
    PressStep(Threshold5, o);
    HiddenPhase(o, h);
    ThresholdStep(o, h, 4, Some(Delta(4, h)), 6);
    VisibleUpStep(Threshold5, o, 6, Some(Delta(6, h)), [ResizeStart(ResizeEvent(map[Right := 0], Start)),
                                                       Resizing(ResizeEvent(map[Right := 6], RightMoved(6)))], o.x + 6, o.y + h);
  }

  /** A press and a small move below the threshold end in a click at the release point. */
  lemma ClickScenario(o: Point, h: int)
    ensures var s1 := Down(Threshold5, Initial, o.x, o.y, RightEdge, Start);
            var s2 := Move(Threshold5, s1, o.x + 2, o.y + h);
            Up(Threshold5, s2, o.x + 3, o.y + 1) == ControllerState(None, None, [Clicked(ClickEvent(o.x + 3, o.y + 1))])
  {
    PressStep(Threshold5, o);
    HiddenStep(o, h, 0, None, 2);
  }

  const SnapRight10: Config := DefaultConfig.(resizeSnapGrid := map[Right := 10])

  lemma Right10Grid()
    ensures SnapGrid(SnapRight10.resizeSnapGrid, RightEdge) == Grid(10, 1)
  {
  }

  /** 3 and 7 share the ceiling cell 1 of a 10-pixel grid; 12 is in cell 2. */
  lemma Right10Cells(h: int)
    ensures GridCell(Delta(3, h), Grid(10, 1)).dx == 1
    ensures GridCell(Delta(7, h), Grid(10, 1)).dx == 1
    ensures GridCell(Delta(12, h), Grid(10, 1)).dx == 2
    ensures !CellChanged(Some(Delta(3, h)), Delta(7, h), Grid(10, 1))
    ensures CellChanged(Some(Delta(7, h)), Delta(12, h), Grid(10, 1))
  {
    CeilDivUnique(3, 10, 1);
    CeilDivUnique(7, 10, 1);
    CeilDivUnique(12, 10, 2);
  }

  /** 3 rounds to 0 and 12 to 10 on a 10-pixel grid; the unit grid leaves the height alone. */
  lemma Right10Snaps(h: int)
    ensures SnapDelta(Delta(3, h), Grid(10, 1)) == Delta(0, h)
    ensures SnapDelta(Delta(12, h), Grid(10, 1)) == Delta(10, h)
  {
    SnapAxisIsNearestMultiple(3, 10, 0);
    SnapAxisIsNearestMultiple(12, 10, 10);
    SnapAxisIsNearestMultiple(h, 1, h);
  }

  /** The first move of the drag, 3 pixels, is placed at offset 0. */
  lemma Right10AcceptsThree(h: int)
    ensures AcceptMove(SnapRight10, RightSession(0, true), None, Delta(3, h)) == Some(RightMoved(0))
  {
    Right10Grid();
    Right10Snaps(h);
    RightMovedAt(0, h);
    RightDiff(0);
    assert RightMoved(0) == Start;
  }

  /** After a 3-pixel move, a 7-pixel move stays in its cell and is dropped. */
  lemma Right10DropsSeven(h: int)
    ensures AcceptMove(SnapRight10, RightSession(0, true), Some(Delta(3, h)), Delta(7, h)).None?
  {
    Right10Grid();
    Right10Cells(h);
  }

  lemma Right10TwelveChangesCell(h: int)
    ensures CellChanged(Some(Delta(7, h)), Delta(12, h), SnapGrid(SnapRight10.resizeSnapGrid, RightEdge))
  {
    Right10Grid();
    Right10Cells(h);
  }

  lemma Right10TwelvePlaced(h: int)
    ensures var snapped := SnapDelta(Delta(12, h), SnapGrid(SnapRight10.resizeSnapGrid, RightEdge));
            NewBoundingRectangle(Start, RightEdge, snapped.dx, snapped.dy) == RightMoved(10)
  {
    Right10Grid();
    Right10Snaps(h);
    RightMovedAt(10, h);
  }

  /** After a 7-pixel move, a 12-pixel move enters the next cell and is placed at offset 10. */
  lemma Right10AcceptsTwelve(h: int)
    ensures AcceptMove(SnapRight10, RightSession(0, true), Some(Delta(7, h)), Delta(12, h)) == Some(RightMoved(10))
  {
    Right10TwelveChangesCell(h);
    Right10TwelvePlaced(h);
    assert SizeAllowed(false, RightMoved(10));
  }

  /** On the 10-pixel grid, a move of 3 is placed at offset 0 and a move of 7 after it is dropped. */
  lemma SnapFirstTwoSteps(o: Point, h: int, events: seq<Output>)
    ensures Move(SnapRight10, Move(SnapRight10, Visible(o, 0, None, events), o.x + 3, o.y + h), o.x + 7, o.y + h)
         == Visible(o, 0, Some(Delta(7, h)), events + [Resizing(ResizeEvent(map[Right := 0], RightMoved(0)))])
  {
    var e1 := events + [Resizing(ResizeEvent(map[Right := 0], RightMoved(0)))];
    Right10AcceptsThree(h);
    VisibleAcceptedStep(SnapRight10, o, h, 0, None, events, 3, 0);
    Right10DropsSeven(h);
    VisibleDroppedStep(SnapRight10, o, h, 0, Some(Delta(3, h)), e1, 7);
  }

  /**
   * With a 10-pixel snap size on the right edge, moves of 3, 7 and 12
   * pixels produce resizing events for offsets 0 and 10 only: 7 shares
   * the ceiling cell of 3 and is dropped.
   */
  lemma SnapScenario(o: Point, h: int)
    ensures var s1 := Down(SnapRight10, Initial, o.x, o.y, RightEdge, Start);
            var s2 := Move(SnapRight10, s1, o.x + 3, o.y + h);
            var s3 := Move(SnapRight10, s2, o.x + 7, o.y + h);
            var s4 := Move(SnapRight10, s3, o.x + 12, o.y + h);
            Up(SnapRight10, s4, o.x + 12, o.y + h).events
              == [ResizeStart(ResizeEvent(map[Right := 0], Start)),
                  Resizing(ResizeEvent(map[Right := 0], Start)),
                  Resizing(ResizeEvent(map[Right := 10], RightMoved(10))),
                  ResizeEnd(ResizeEvent(map[Right := 10], RightMoved(10)))]
  {
    var begin := ResizeStart(ResizeEvent(map[Right := 0], Start));
    var at0 := Resizing(ResizeEvent(map[Right := 0], RightMoved(0)));
    var at10 := Resizing(ResizeEvent(map[Right := 10], RightMoved(10)));
    var end := ResizeEnd(ResizeEvent(map[Right := 10], RightMoved(10)));
    ImmediateStartStep(SnapRight10, o);
    SnapFirstTwoSteps(o, h, [begin]);
    Right10AcceptsTwelve(h);
    VisibleAcceptedStep(SnapRight10, o, h, 0, Some(Delta(7, h)), [begin] + [at0], 12, 10);
    VisibleUpStep(SnapRight10, o, 10, Some(Delta(12, h)), [begin] + [at0] + [at10], o.x + 12, o.y + h);
    FourEvents(begin, at0, at10, end);
    assert RightMoved(0) == Start;
  }

  lemma FourEvents<T>(a: T, b: T, c: T, d: T)
    ensures [a] + [b] + [c] + [d] == [a, b, c, d]
  {
  }

  /**
   * Dragging the right side 60 pixels left of a 50-pixel-wide element is
   * refused, unless negative resizes are allowed, when the width becomes -10.
   */
  lemma NegativeSizeScenario(h: int)
    ensures var s := RightSession(0, true);
            && AcceptMove(DefaultConfig, s, None, Delta(-60, h)) == None
            && AcceptMove(DefaultConfig.(allowNegativeResizes := true), s, None, Delta(-60, h)) == Some(RightMoved(-60))
            && RightMoved(-60).width == -10
  {
    var s := RightSession(0, true);
    FirstMoveUnsnapped(s, Delta(-60, h));
    RightMovedAt(-60, h);
    RightDiff(-60);
    EmptySnapConfigMeansNoSnapping(RightEdge);
    UnitGridKeepsDelta(Delta(-60, h));
  }

  const RejectAll: Config := DefaultConfig.(validateResize := Some((r: Rect, d: EdgesDiff) => false))

  /** The refusing validator drops a 10-pixel move. */
  lemma RejectAllDropsTen(h: int)
    ensures AcceptMove(RejectAll, RightSession(0, true), None, Delta(10, h)).None?
  {
    EmptySnapConfigMeansNoSnapping(RightEdge);
    UnitGridKeepsDelta(Delta(10, h));
    RightMovedAt(10, h);
    RightDiff(10);
  }

  /**
   * A validator that refuses everything: the press still emits resizeStart,
   * no move is accepted, and resizeEnd reports the starting rectangle.
   */
  lemma RejectAllScenario(o: Point, h: int)
    ensures var s1 := Down(RejectAll, Initial, o.x, o.y, RightEdge, Start);
            var s2 := Move(RejectAll, s1, o.x + 10, o.y + h);
            Up(RejectAll, s2, o.x + 10, o.y + h).events
              == [ResizeStart(ResizeEvent(map[Right := 0], Start)), ResizeEnd(ResizeEvent(map[Right := 0], Start))]
  {
    var begin := ResizeStart(ResizeEvent(map[Right := 0], Start));
    var end := ResizeEnd(ResizeEvent(map[Right := 0], RightMoved(0)));
    assert [begin] + [end] == [begin, end];
    var s1 := Down(RejectAll, Initial, o.x, o.y, RightEdge, Start);
    ImmediateStartStep(RejectAll, o);
    var s2 := Move(RejectAll, s1, o.x + 10, o.y + h);
    RejectAllDropsTen(h);
    VisibleDroppedStep(RejectAll, o, h, 0, None, [begin], 10);
    assert s2 == Visible(o, 0, Some(Delta(10, h)), [begin]);
    VisibleUpStep(RejectAll, o, 0, Some(Delta(10, h)), [begin], o.x + 10, o.y + h);
    assert RightMoved(0) == Start;
  }
}
