/**
 * `ResizableDirective` as an object whose handlers update its session, its
 * drag stream and its event log in place, each proved to perform the
 * matching transition of `ResizeSteps`; and the process-wide
 * `PointerEventListeners` singleton that all directives share.
 */
module Resizable {
  import opened Wrappers
  import opened Geometry
  import opened Snapping
  import opened ResizeSteps

  /**
   * The shared document listeners. Their streams are not modelled; the
   * object records the renderer it was created with.
   */
  class PointerEventListeners {
    const renderer: nat

    constructor (renderer: nat)
      ensures this.renderer == renderer
    {
      this.renderer := renderer;
    }
  }

  /** Holder of the static `PointerEventListeners.instance` field. */
  class PointerEventListenersRegistry {
    var instance: PointerEventListeners?

    constructor ()
      ensures instance == null
    {
      instance := null;
    }

    /**
     * `getInstance`: the first call creates the instance with its renderer;
     * every later call returns that same object and ignores its argument.
     */
    method GetInstance(renderer: nat) returns (p: PointerEventListeners)
      modifies this
      ensures old(instance) == null ==> fresh(p) && p.renderer == renderer
      ensures old(instance) != null ==> p == old(instance)
      ensures instance == p
    {
      if instance == null {
        instance := new PointerEventListeners(renderer);
      }
      p := instance;
    }
  }

  /** Two directives built in one process share the listeners created for the first. */
  method SharedListeners(registry: PointerEventListenersRegistry, config: Config)
    returns (a: ResizableDirective, b: ResizableDirective)
    modifies registry
    ensures a.pointerEventListeners == b.pointerEventListeners == registry.instance
    ensures old(registry.instance) != null ==> a.pointerEventListeners == old(registry.instance)
  {
    a := new ResizableDirective(config, registry, 1);
    b := new ResizableDirective(config, registry, 2);
  }

  class ResizableDirective {
    var config: Config
    const pointerEventListeners: PointerEventListeners
    var session: Option<Session>
    var drag: Option<Drag>
    var events: seq<Output>

    function State(): ControllerState
      reads this
    {
      ControllerState(session, drag, events)
    }

    ghost predicate Valid()
      reads this
    {
      Inv(State())
    }

    constructor (config: Config, registry: PointerEventListenersRegistry, renderer: nat)
      modifies registry
      ensures Valid() && State() == Initial && this.config == config
      ensures old(registry.instance) != null ==> pointerEventListeners == old(registry.instance)
      ensures pointerEventListeners == registry.instance
    {
      var listeners := registry.GetInstance(renderer);
      this.config := config;
      pointerEventListeners := listeners;
      session := None;
      drag := None;
      events := [];
      new;
      InitialInv();
    }

    /** `startVisibleResize` on the current session. */
    method StartVisibleResizeInPlace()
      requires session.Some?
      modifies this
      ensures session == Some(StartVisibleResize(config, old(session).value).0)
      ensures events == old(events) + [StartVisibleResize(config, old(session).value).1]
      ensures drag == old(drag) && config == old(config)
    {
      var s := session.value;
      session := Some(s.(visible := true, ghostPresent := config.enableGhostResize));
      events := events + [ResizeStart(ResizeEvent(EdgesDiffOf(s.edges, s.startingRect, s.startingRect),
                                                  NewBoundingRectangle(s.startingRect, map[], 0, 0)))];
    }

    /**
     * A pointer-down with the edges it carries (`{}` for a document press)
     * and the element's rectangle at that moment.
     */
    method PointerDown(clientX: int, clientY: int, edges: Edges, elementRect: Rect)
      requires Valid()
      modifies this
      ensures State() == Down(config, old(State()), clientX, clientY, edges, elementRect)
      ensures Valid() && config == old(config)
    {
      DownPreservesInv(config, State(), clientX, clientY, edges, elementRect);
      drag := Some(Drag(Point(clientX, clientY), None));
      if |edges| > 0 {
        session := Some(Session(edges, elementRect, elementRect, false, false));
        if config.resizeMoveThreshold <= 0 {
          StartVisibleResizeInPlace();
        }
      }
    }

    /** The subscriber of accepted rectangles: start the visible resize if due, emit resizing, store the rectangle. */
    method ApplyAcceptedInPlace(s: Session, rect: Rect)
      requires session == Some(s)
      modifies this
      ensures State() == ApplyAccepted(config, old(State()), s, rect)
      ensures config == old(config)
    {
      ApplyAcceptedCases(config, State(), s, rect);
      var diff := EdgesDiffOf(s.edges, s.startingRect, rect);
      if !s.visible && TotalDiff(diff) >= config.resizeMoveThreshold {
        StartVisibleResizeInPlace();
      }
      if session.value.visible {
        events := events + [Resizing(ResizeEvent(diff, rect))];
      }
      session := Some(session.value.(currentRect := rect));
    }

    /** A pointer-move at the given client coordinates. */
    method PointerMove(clientX: int, clientY: int)
      requires Valid()
      modifies this
      ensures State() == Move(config, old(State()), clientX, clientY)
      ensures Valid() && config == old(config)
    {
      ghost var st0 := State();
      MovePreservesInv(config, st0, clientX, clientY);
      MoveDropped(config, st0, clientX, clientY);
      if drag.Some? {
        var current := drag.value;
        var delta := Delta(clientX - current.origin.x, clientY - current.origin.y);
        drag := Some(current.(previous := Some(delta)));
        if session.Some? {
          var candidate := AcceptMove(config, session.value, current.previous, delta);
          if candidate.Some? {
            MoveAccepted(config, st0, clientX, clientY);
            ApplyAcceptedInPlace(session.value, candidate.value);
          }
        }
      }
    }

    /** A pointer-up at the given client coordinates. */
    method PointerUp(clientX: int, clientY: int)
      requires Valid()
      modifies this
      ensures State() == Up(config, old(State()), clientX, clientY)
      ensures Valid() && config == old(config)
    {
      UpPreservesInv(config, State(), clientX, clientY);
      drag := None;
      if session.None? {
        return;
      }
      var s := session.value;
      if s.visible {
        events := events + [ResizeEnd(ResizeEvent(EdgesDiffOf(s.edges, s.startingRect, s.currentRect), s.currentRect))];
      } else {
        events := events + [Clicked(ClickEvent(clientX, clientY))];
      }
      session := None;
    }
  }
}
