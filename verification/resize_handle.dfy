/**
 * `ResizeHandleDirective`: a child element whose presses drive the resize
 * of a `ResizableDirective`. It keeps a dictionary of the element-scoped
 * move listeners it installed, never installs a second listener of a kind,
 * removes them all on release or destruction, and forwards every press
 * with its own edges, and every move and release by its coordinates, to its
 * controller.
 */
module ResizeHandle {
  import opened Wrappers
  import opened Geometry
  import opened ResizeSteps
  import opened Resizable

  /** The two element-scoped move listeners, keyed as in the `eventListeners` dictionary. */
  datatype MoveListener = TouchMove | MouseMove

  /** A call into the renderer: `listen` returns a fresh unsubscribe function, named here by an id. */
  datatype RendererCall = Listen(kind: MoveListener, id: nat) | Unlisten(kind: MoveListener, id: nat)

  /** The listeners a sequence of renderer calls leaves attached to the element. */
  function LiveListeners(calls: seq<RendererCall>): set<(MoveListener, nat)>
  {
    if calls == [] then {}
    else
      var live := LiveListeners(calls[..|calls| - 1]);
      var c := calls[|calls| - 1];
      if c.Listen? then live + {(c.kind, c.id)} else live - {(c.kind, c.id)}
  }

  lemma LiveListenersAppend(calls: seq<RendererCall>, c: RendererCall)
    ensures LiveListeners(calls + [c])
         == if c.Listen? then LiveListeners(calls) + {(c.kind, c.id)} else LiveListeners(calls) - {(c.kind, c.id)}
  {
    assert (calls + [c])[..|calls|] == calls;
  }

  /**
   * The listen calls a press makes: touchmove, then mousemove, each only
   * when no listener of its kind is installed, with consecutive ids.
   */
  function MissingListens(installed: set<MoveListener>, id: nat): seq<RendererCall>
  {
    var touch := if TouchMove in installed then [] else [Listen(TouchMove, id)];
    var mouse := if MouseMove in installed then [] else [Listen(MouseMove, id + |touch|)];
    touch + mouse
  }

  /**
   * A press attaches only listeners of kinds not yet installed, never two
   * of one kind, and nothing at all once both kinds are installed.
   */
  lemma MissingListensAreFresh(installed: set<MoveListener>, id: nat)
    ensures var r := MissingListens(installed, id);
            && (forall c | c in r :: c.Listen? && c.kind !in installed)
            && (forall i, j | 0 <= i < j < |r| :: r[i].kind != r[j].kind)
            && (r == [] <==> TouchMove in installed && MouseMove in installed)
  {
  }

  /** One `InstallIfAbsent(k)` step, on values: from `calls`/`m`/`id` to `calls'`/`m'`. */
  ghost predicate InstallStep(k: MoveListener, calls: seq<RendererCall>, m: map<MoveListener, nat>, id: nat,
                              calls': seq<RendererCall>, m': map<MoveListener, nat>, id': nat)
  {
    if k in m then calls' == calls && m' == m && id' == id
    else calls' == calls + [Listen(k, id)] && m' == m[k := id] && id' == id + 1
  }

  /** A touchmove step followed by a mousemove step installs exactly the missing listeners. */
  lemma InstallBoth(calls0: seq<RendererCall>, m0: map<MoveListener, nat>, id0: nat,
                    calls1: seq<RendererCall>, m1: map<MoveListener, nat>, id1: nat,
                    calls2: seq<RendererCall>, m2: map<MoveListener, nat>, id2: nat)
    requires InstallStep(TouchMove, calls0, m0, id0, calls1, m1, id1)
    requires InstallStep(MouseMove, calls1, m1, id1, calls2, m2, id2)
    ensures m2.Keys == m0.Keys + {TouchMove, MouseMove}
    ensures forall k | k in m0 :: m2[k] == m0[k]
    ensures calls2 == calls0 + MissingListens(m0.Keys, id0)
  {
    if TouchMove !in m0 && MouseMove !in m0 {
      assert calls2 == calls0 + [Listen(TouchMove, id0)] + [Listen(MouseMove, id0 + 1)];
    }
  }

  /** The entries of the listener dictionary. */
  function Entries(m: map<MoveListener, nat>): set<(MoveListener, nat)>
  {
    set k | k in m :: (k, m[k])
  }

  /** No kind of listener is attached twice. */
  predicate OnePerKind(live: set<(MoveListener, nat)>)
  {
    forall p, q | p in live && q in live :: p.0 == q.0 ==> p == q
  }

  /** Attached listeners that match the dictionary's entries are never duplicated. */
  lemma EntriesOnePerKind(calls: seq<RendererCall>, m: map<MoveListener, nat>)
    requires LiveListeners(calls) == Entries(m)
    ensures OnePerKind(LiveListeners(calls))
  {
  }

  lemma EntriesAdd(m: map<MoveListener, nat>, k: MoveListener, id: nat)
    requires k !in m
    ensures Entries(m[k := id]) == Entries(m) + {(k, id)}
  {
    var m' := m[k := id];
    forall p | p in Entries(m) + {(k, id)} ensures p in Entries(m') {
      if p != (k, id) {
        assert p.0 in m && p.1 == m[p.0] && p.0 != k;
        assert p == (p.0, m'[p.0]);
      } else {
        assert p == (k, m'[k]);
      }
    }
  }

  lemma EntriesRemove(m: map<MoveListener, nat>, k: MoveListener)
    requires k in m
    ensures Entries(m - {k}) == Entries(m) - {(k, m[k])}
  {
    var l := Entries(m - {k});
    var r := Entries(m) - {(k, m[k])};
    forall p | p in r ensures p in l {
      assert p.0 in m && p.1 == m[p.0] && p.0 != k;
      assert p == (p.0, (m - {k})[p.0]);
    }
  }

  class ResizeHandleDirective {
    /** The `resizeEdges` input. */
    var resizeEdges: Edges
    /** The `resizableContainer` input. */
    var resizableContainer: ResizableDirective?
    /** The enclosing directive, when dependency injection found one. */
    const resizableDirective: ResizableDirective?
    /** `eventListeners`: each installed move listener with its unsubscribe function. */
    var eventListeners: map<MoveListener, nat>
    /** Every call made into the renderer, in order. */
    var rendererCalls: seq<RendererCall>
    /** The id the renderer gives the next listener. */
    var nextListenerId: nat

    ghost predicate Valid()
      reads this
    {
      LiveListeners(rendererCalls) == Entries(eventListeners)
    }

    constructor (resizableDirective: ResizableDirective?)
      ensures Valid()
      ensures this.resizableDirective == resizableDirective && resizableContainer == null
      ensures resizeEdges == map[] && eventListeners == map[] && rendererCalls == []
    {
      this.resizableDirective := resizableDirective;
      resizableContainer := null;
      resizeEdges := map[];
      eventListeners := map[];
      rendererCalls := [];
      nextListenerId := 0;
    }

    /** The `resizable` getter: the injected directive if there is one, else the container input. */
    function Resizable(): (r: ResizableDirective?)
      reads this
      ensures resizableDirective != null ==> r == resizableDirective
      ensures resizableDirective == null ==> r == resizableContainer
    {
      if resizableDirective != null then resizableDirective else resizableContainer
    }

    /** Installs a listener of kind `k` unless one is already in the dictionary. */
    method InstallIfAbsent(k: MoveListener)
      requires Valid()
      modifies this`eventListeners, this`rendererCalls, this`nextListenerId
      ensures Valid()
      ensures InstallStep(k, old(rendererCalls), old(eventListeners), old(nextListenerId), rendererCalls, eventListeners, nextListenerId)
    {
      if k !in eventListeners {
        var id := nextListenerId;
        nextListenerId := nextListenerId + 1;
        LiveListenersAppend(rendererCalls, Listen(k, id));
        EntriesAdd(eventListeners, k, id);
        rendererCalls := rendererCalls + [Listen(k, id)];
        eventListeners := eventListeners[k := id];
      }
    }

    /**
     * `unsubscribeEventListeners`: calls every unsubscribe function in the
     * dictionary and deletes its entry, leaving the dictionary empty and no
     * move listener attached.
     */
    method UnsubscribeEventListeners()
      requires Valid()
      modifies this`eventListeners, this`rendererCalls
      ensures Valid()
      ensures eventListeners == map[] && LiveListeners(rendererCalls) == {}
      ensures |rendererCalls| == |old(rendererCalls)| + |old(eventListeners)|
      ensures rendererCalls[..|old(rendererCalls)|] == old(rendererCalls)
      ensures forall i | |old(rendererCalls)| <= i < |rendererCalls| ::
                rendererCalls[i].Unlisten? && rendererCalls[i].kind in old(eventListeners)
                && old(eventListeners)[rendererCalls[i].kind] == rendererCalls[i].id
    {
      ghost var calls0 := rendererCalls;
      ghost var listeners0 := eventListeners;
      while eventListeners != map[]
        invariant Valid()
        invariant forall k | k in eventListeners :: k in listeners0 && eventListeners[k] == listeners0[k]
        invariant |rendererCalls| + |eventListeners| == |calls0| + |listeners0|
        invariant rendererCalls[..|calls0|] == calls0
        invariant forall i | |calls0| <= i < |rendererCalls| ::
                    rendererCalls[i].Unlisten? && rendererCalls[i].kind in listeners0
                    && listeners0[rendererCalls[i].kind] == rendererCalls[i].id
        decreases |eventListeners|
      {
        var k :| k in eventListeners;
        var id := eventListeners[k];
        LiveListenersAppend(rendererCalls, Unlisten(k, id));
        EntriesRemove(eventListeners, k);
        rendererCalls := rendererCalls + [Unlisten(k, id)];
        eventListeners := eventListeners - {k};
      }
      assert Entries(map[]) == {};
    }

    /** The listener half of `onMousedown`: installs the touchmove and mousemove listeners that are missing. */
    method InstallMoveListeners()
      requires Valid()
      modifies this`eventListeners, this`rendererCalls, this`nextListenerId
      ensures Valid() && OnePerKind(LiveListeners(rendererCalls))
      ensures eventListeners.Keys == old(eventListeners).Keys + {TouchMove, MouseMove}
      ensures forall k | k in old(eventListeners) :: eventListeners[k] == old(eventListeners)[k]
      ensures rendererCalls == old(rendererCalls) + MissingListens(old(eventListeners).Keys, old(nextListenerId))
    {
      ghost var calls0, listeners0, id0 := rendererCalls, eventListeners, nextListenerId;
      InstallIfAbsent(TouchMove);
      ghost var calls1, listeners1, id1 := rendererCalls, eventListeners, nextListenerId;
      InstallIfAbsent(MouseMove);
      InstallBoth(calls0, listeners0, id0, calls1, listeners1, id1, rendererCalls, eventListeners, nextListenerId);
      EntriesOnePerKind(rendererCalls, eventListeners);
    }

    /**
     * `onMousedown`: installs the missing move listeners, then forwards the
     * press with this handle's edges. Without a controller the forwarding
     * fails (`delivered` is false) after the listeners are installed.
     */
    method OnMousedown(clientX: int, clientY: int, elementRect: Rect) returns (delivered: bool)
      requires Valid()
      requires Resizable() != null ==> Resizable().Valid()
      modifies this, Resizable()
      ensures Valid() && OnePerKind(LiveListeners(rendererCalls))
      ensures eventListeners.Keys == old(eventListeners).Keys + {TouchMove, MouseMove}
      ensures forall k | k in old(eventListeners) :: eventListeners[k] == old(eventListeners)[k]
      ensures rendererCalls == old(rendererCalls) + MissingListens(old(eventListeners).Keys, old(nextListenerId))
      ensures resizeEdges == old(resizeEdges) && Resizable() == old(Resizable())
      ensures delivered == (Resizable() != null)
      ensures delivered ==> Resizable().Valid() && Resizable().config == old(Resizable().config)
      ensures delivered ==>
                Resizable().State() == Down(Resizable().config, old(Resizable().State()), clientX, clientY, resizeEdges, elementRect)
    {
      InstallMoveListeners();
      var controller := Resizable();
      if controller == null {
        delivered := false;
      } else {
        controller.PointerDown(clientX, clientY, resizeEdges, elementRect);
        delivered := true;
      }
    }

    /**
     * `onMousemove`: forwards the move to the resolved controller. Only the
     * coordinates are passed on, because the engine ignores a move's edges
     * and event.
     */
    method OnMousemove(clientX: int, clientY: int) returns (delivered: bool)
      requires Resizable() != null ==> Resizable().Valid()
      modifies Resizable()
      ensures delivered == (Resizable() != null)
      ensures delivered ==> Resizable().Valid() && Resizable().config == old(Resizable().config)
      ensures delivered ==> Resizable().State() == Move(Resizable().config, old(Resizable().State()), clientX, clientY)
    {
      var controller := Resizable();
      if controller == null {
        delivered := false;
      } else {
        controller.PointerMove(clientX, clientY);
        delivered := true;
      }
    }

    /**
     * `onMouseup`: first removes every installed move listener, then
     * forwards the release coordinates; the edges the source passes along
     * are not read by the engine's release handling.
     */
    method OnMouseup(clientX: int, clientY: int) returns (delivered: bool)
      requires Valid()
      requires Resizable() != null ==> Resizable().Valid()
      modifies this, Resizable()
      ensures Valid() && eventListeners == map[] && LiveListeners(rendererCalls) == {}
      ensures |rendererCalls| == |old(rendererCalls)| + |old(eventListeners)|
      ensures rendererCalls[..|old(rendererCalls)|] == old(rendererCalls)
      ensures forall i | |old(rendererCalls)| <= i < |rendererCalls| ::
                rendererCalls[i].Unlisten? && rendererCalls[i].kind in old(eventListeners)
                && old(eventListeners)[rendererCalls[i].kind] == rendererCalls[i].id
      ensures resizeEdges == old(resizeEdges) && Resizable() == old(Resizable())
      ensures delivered == (Resizable() != null)
      ensures delivered ==> Resizable().Valid() && Resizable().config == old(Resizable().config)
      ensures delivered ==> Resizable().State() == Up(Resizable().config, old(Resizable().State()), clientX, clientY)
    {
      UnsubscribeEventListeners();
      var controller := Resizable();
      if controller == null {
        delivered := false;
      } else {
        controller.PointerUp(clientX, clientY);
        delivered := true;
      }
    }

    /** `ngOnDestroy`: removes every installed move listener. */
    method NgOnDestroy()
      requires Valid()
      modifies this
      ensures Valid() && eventListeners == map[] && LiveListeners(rendererCalls) == {}
      ensures |rendererCalls| == |old(rendererCalls)| + |old(eventListeners)|
      ensures rendererCalls[..|old(rendererCalls)|] == old(rendererCalls)
      ensures forall i | |old(rendererCalls)| <= i < |rendererCalls| ::
                rendererCalls[i].Unlisten? && rendererCalls[i].kind in old(eventListeners)
                && old(eventListeners)[rendererCalls[i].kind] == rendererCalls[i].id
      ensures resizeEdges == old(resizeEdges) && resizableContainer == old(resizableContainer)
    {
      UnsubscribeEventListeners();
    }
  }
}
