# angular-resizable-element: the resize engine in Dafny

This project models the logic of `mwlResizable` and `mwlResizeHandle`:

- how a stream of pointer presses, moves and releases becomes `resizeStart`, `resizing`, `resizeEnd` and `clicked` events;
- the rectangle geometry and snap grid those events are computed with;
- the shared document-listener singleton;
- the handle's bookkeeping of the move listeners it attaches.

Modules, one file each:

- `Wrappers` (`wrappers.dfy`): `Option`.
- `Geometry` (`geometry.dfy`): a rectangle, and an `Edges` object as a `map<Side, bool>`. Key presence and truthiness differ in the source: `Object.keys` drives the edge diff and the "has edges" check, while truthiness drives the geometry and the cursor. This module holds `getNewBoundingRectangle`, `getResizeCursor`, `getEdgesDiff` and `getTotalDiff`.
- `Snapping` (`snapping.dfy`): the snap grid chosen from the configured sizes and the active edges. It also holds the ceiling-based grid cell that drops a move staying in the previous move's cell, and the rounding of a surviving delta to the nearest grid multiple. `Math.ceil(c / g)` is `-floor(-c / g)`. `Math.round(c / g)` is `floor((2c + g) / 2g)`, which sends halves toward positive infinity as JavaScript does. Floor division is written as repeated subtraction, and the rounded multiple `Math.round(c / g) * g` is computed in that same recursion. Lemmas state the quotient bounds each one meets.
- `ResizeSteps` (`resize_steps.dfy`): the engine of `ResizableDirective.ngOnInit` as pure transitions `Down`, `Move` and `Up` over a `ControllerState`, which holds:
  - the `currentResize` session;
  - the drag stream the latest press opened (its origin and the raw delta of the last move, the `pairwise` memory);
  - the log of emitted events.

  Every press restarts the drag stream, including a document press without edges. Every release ends it. A session exists only for a press whose edges object has at least one key. The invariant `Inv` is kept by all three transitions: resizing and resizeEnd occur only inside a visible resize, and a ghost exists only while visible.
- `Resizable` (`resizable.dfy`): `ResizableDirective` as a class whose handlers update `session`, `drag` and `events` in place, each proved to perform the matching transition. Also `PointerEventListeners.getInstance` as a registry object holding the static `instance` field.
- `ResizeHandle` (`resize_handle.dfy`): `ResizeHandleDirective`. It has:
  - the `eventListeners` dictionary;
  - a log of the calls made into the renderer;
  - the proof that the listeners still attached are exactly the dictionary's entries, so no kind is ever attached twice;
  - forwarding to the resolved controller.
- `ResizeScenarios` (`scenarios.dfy`): concrete drags worked through the transitions.

With a right snap size of 10, raw moves 3, 7 and 12 emit resizing at 0 and 10 only:

- the first move always passes and rounds to 0;
- 7 is dropped because it lies in the same ceiling cell as 3;
- 12 emits 10.

`ResizeScenarios.SnapScenario` proves this. A resizeStart fired by crossing the threshold reports an all-zero diff and the starting rectangle, not the current pointer position (`ResizeSteps.ResizeStartPayload`, `ResizeScenarios.ThresholdScenario`).

## Model

| member | source | states |
|---|---|---|
| Geometry.NewBoundingRectangleSides | esm2015/lib/resizable.directive.js:8-30 | each truthy side moves by its axis delta (dy for top/bottom, dx for left/right); every other side keeps its start value; height = bottom − top and width = right − left; no scroll offsets are carried |
| Geometry.ZeroDeltaIsIdentity | esm2015/lib/resizable.directive.js:8-30 | a zero delta returns a consistent rectangle without scroll offsets unchanged, whatever the edges |
| Geometry.NewBoundingRectangleAdditive | esm2015/lib/resizable.directive.js:8-30 | moving by one delta and then another equals moving once by their sum |
| Geometry.ResizeCursor | esm2015/lib/resizable.directive.js:84-106 | the priority table: top-left, top-right, bottom-left, bottom-right, then left-or-right, then top-or-bottom, else '' |
| Geometry.ResizeCursorIgnoresFalseKeys | esm2015/lib/resizable.directive.js:84-106 | the cursor depends only on the truthy keys |
| Geometry.DefaultCursorEmptyIff | esm2015/lib/resizable.directive.js:76-106 | with the default labels the cursor is '' iff no side is truthy |
| Geometry.EdgesDiffOfEntries | esm2015/lib/resizable.directive.js:107-113 | the diff has exactly the keys of the edges object, truthy or not, each equal to new side − initial side |
| Geometry.EdgesDiffOfSameIsZero | esm2015/lib/resizable.directive.js:107-113 | identical rectangles give a zero for every key |
| Geometry.EdgesDiffRecoversDelta | esm2015/lib/resizable.directive.js:107-113 | measured from the start, a moved rectangle's diff is the axis delta for each truthy key and 0 for each false key |
| Geometry.TotalDiffIsMaxAbs | esm2015/lib/resizable.directive.js:114-116 | the total diff is the largest absolute value in the diff: an upper bound of every entry, attained by one unless 0, and 0 for an empty diff |
| Snapping.FloorDivBounds | esm2015/lib/resizable.directive.js:299-304 | the floor quotient q of n by g satisfies q·g ≤ n < q·g + g |
| Snapping.CeilDivBounds | esm2015/lib/resizable.directive.js:299-304 | `Math.ceil(c / g)` is a q with (q−1)·g < c ≤ q·g |
| Snapping.CeilDivUnique | esm2015/lib/resizable.directive.js:299-304 | that q is unique |
| Snapping.RoundDivBounds | esm2015/lib/resizable.directive.js:321-327 | `Math.round(c / g)` is a q with 2c − g < 2qg ≤ 2c + g, so halves round up |
| Snapping.SnapGrid | esm2015/lib/resizable.directive.js:279-298 | x is the left size if left is truthy and its size non-zero, else the right size under the same test, else 1; y likewise from top, then bottom |
| Snapping.EmptySnapConfigMeansNoSnapping | esm2015/lib/resizable.directive.js:279-298 | with no snap sizes the grid is {1, 1} for every edge set |
| Snapping.GridCellBounds | esm2015/lib/resizable.directive.js:299-304 | the cell of a delta is the ceiling quotient on each axis: (k−1)·g < c ≤ k·g |
| Snapping.SameCellIff | esm2015/lib/resizable.directive.js:312-320 | two values share a cell iff one interval ((k−1)g, kg] holds both |
| Snapping.UnitGridDropsOnlyRepeats | esm2015/lib/resizable.directive.js:312-320 | without snapping, a move is dropped iff its raw delta equals the previous one |
| Snapping.FloorDivTimesIsProduct | esm2015/lib/resizable.directive.js:321-327 | the repeated-addition recursion gives the floor quotient times g |
| Snapping.SnapAxisIsRoundTimes | esm2015/lib/resizable.directive.js:321-327 | the snapped axis is `Math.round(c / g) * g` |
| Snapping.SnapAxisOnGrid | esm2015/lib/resizable.directive.js:321-327 | the rounded value is a multiple of g within half a step of c |
| Snapping.SnapAxisIsNearestMultiple | esm2015/lib/resizable.directive.js:321-327 | it is the only such multiple: the nearest one, ties going up |
| Snapping.SnapDeltaOnGrid | esm2015/lib/resizable.directive.js:321-327 | both axes are placed on their grid, each within half a step of the pointer |
| Snapping.UnitGridKeepsDelta | esm2015/lib/resizable.directive.js:321-327 | without snapping the delta is unchanged |
| ResizeSteps.AcceptedRectangle | esm2015/lib/resizable.directive.js:312-353 | an accepted rectangle is consistent; untouched sides stay; each truthy side moved by a grid multiple within half a step of the pointer delta; its size is positive unless negative resizes are allowed; the validator, if any, returned true |
| ResizeSteps.AcceptMoveComplete | esm2015/lib/resizable.directive.js:305-352 | a move is accepted exactly when it leaves the previous cell and its snapped rectangle passes the size filter and the validator, and the result is that rectangle |
| ResizeSteps.SameCellIsDropped | esm2015/lib/resizable.directive.js:312-320 | a move in the previous raw move's cell is dropped |
| ResizeSteps.FirstMoveUnsnapped | esm2015/lib/resizable.directive.js:305-341 | with defaults, a drag's first move is accepted iff the rectangle under the pointer has positive height and width |
| ResizeSteps.ResizeStartPayload | esm2015/lib/resizable.directive.js:258-268 | resizeStart carries a zero for every edge key and the starting rectangle's sides |
| ResizeSteps.InitialInv | esm2015/lib/resizable.directive.js:226 | no session, no drag and an empty log satisfy the invariant |
| ResizeSteps.DownWithEdges | esm2015/lib/resizable.directive.js:380-400 | a press with at least one key replaces the session with a hidden one at the element's rectangle; it is visible at once (resizeStart emitted) iff the threshold is ≤ 0; the drag restarts at the press |
| ResizeSteps.DownWithoutEdges | esm2015/lib/resizable.directive.js:380-385 | a press without keys only restarts the drag; session and log stay |
| ResizeSteps.DownPreservesInv | esm2015/lib/resizable.directive.js:380-400 | a press keeps the invariant |
| ResizeSteps.MoveDropped | esm2015/lib/resizable.directive.js:271-353 | a move without a drag changes nothing; a move with no session or a rejected candidate only records its raw delta |
| ResizeSteps.RejectedMoveChangesNothing | esm2015/lib/resizable.directive.js:335-353 | a rejected move changes neither the session (current rectangle, visibility) nor the log |
| ResizeSteps.MoveAccepted | esm2015/lib/resizable.directive.js:354-379 | an accepted move is the subscriber applied after the raw delta is recorded |
| ResizeSteps.ApplyAcceptedCases | esm2015/lib/resizable.directive.js:354-379 | the subscriber has three cases: it becomes visible (resizeStart then resizing), it is already visible (resizing), or it is hidden (nothing emitted); the current rectangle is stored in all three |
| ResizeSteps.AcceptedMove | esm2015/lib/resizable.directive.js:354-379 | after an accepted move the current rectangle is the candidate, even while hidden; visible iff it already was or the total diff reaches the threshold; resizeStart precedes this move's resizing when it starts now; resizing only while visible |
| ResizeSteps.ApplyAcceptedPreservesInv | esm2015/lib/resizable.directive.js:354-379 | the subscriber keeps the invariant |
| ResizeSteps.MovePreservesInv | esm2015/lib/resizable.directive.js:271-379 | a move keeps the invariant |
| ResizeSteps.UpEndsSession | esm2015/lib/resizable.directive.js:401-431 | a release always clears session and drag; without a session it emits nothing; otherwise it emits resizeEnd (diff start→current, current rectangle) if visible, else clicked at the release point |
| ResizeSteps.UpPreservesInv | esm2015/lib/resizable.directive.js:401-431 | a release keeps the invariant |
| ResizeSteps.OpenedBy | esm2015/lib/resizable.directive.js:360-377 | a log prefix inside a resize ends in a resizeStart followed only by resizing events |
| ResizeSteps.EveryProgressFollowsAStart | esm2015/lib/resizable.directive.js:360-377 | in a well-formed log every resizing or resizeEnd has an earlier resizeStart with only resizing events between |
| Resizable.PointerEventListeners.constructor | esm2015/lib/resizable.directive.js:491-492 | the listeners object records the renderer it was built with |
| Resizable.PointerEventListenersRegistry.constructor | esm2015/lib/resizable.directive.js:587-588 | before any directive exists there is no instance |
| Resizable.PointerEventListenersRegistry.GetInstance | esm2015/lib/resizable.directive.js:587-592 | the first call creates a fresh instance with its renderer; every later call returns the same object and ignores its renderer; the field then holds the result |
| Resizable.SharedListeners | esm2015/lib/resizable.directive.js:207 | two directives built one after the other share one listeners object, the one already registered if there was one |
| Resizable.ResizableDirective.constructor | esm2015/lib/resizable.directive.js:141-208 | a new directive has no session, no drag and an empty log, keeps its inputs, and takes the shared listeners |
| Resizable.ResizableDirective.StartVisibleResizeInPlace | esm2015/lib/resizable.directive.js:236-270 | the session becomes the visible one `StartVisibleResize` gives, and its resizeStart is appended |
| Resizable.ResizableDirective.PointerDown | esm2015/lib/resizable.directive.js:380-400 | the new state is `Down` of the old one, and the invariant holds |
| Resizable.ResizableDirective.ApplyAcceptedInPlace | esm2015/lib/resizable.directive.js:354-379 | the new state is `ApplyAccepted` of the old one |
| Resizable.ResizableDirective.PointerMove | esm2015/lib/resizable.directive.js:271-379 | the new state is `Move` of the old one, and the invariant holds |
| Resizable.ResizableDirective.PointerUp | esm2015/lib/resizable.directive.js:401-431 | the new state is `Up` of the old one, and the invariant holds |
| ResizeHandle.MissingListensAreFresh | esm2015/lib/resize-handle.directive.js:63-72 | a press listens only to kinds not yet installed, never to one kind twice, and to nothing iff both kinds are installed |
| ResizeHandle.InstallBoth | esm2015/lib/resize-handle.directive.js:63-72 | a touchmove step followed by a mousemove step puts both kinds in the dictionary, keeps existing entries, and makes exactly the missing listen calls |
| ResizeHandle.EntriesOnePerKind | esm2015/lib/resize-handle.directive.js:63-72 | when the attached listeners are the dictionary's entries, no kind is attached twice |
| ResizeHandle.ResizeHandleDirective.constructor | esm2015/lib/resize-handle.directive.js:24-35 | `resizeEdges` starts as the empty edges object; no listener and no renderer call yet |
| ResizeHandle.ResizeHandleDirective.Resizable | esm2015/lib/resize-handle.directive.js:91-93 | the injected directive when present, else the `resizableContainer` input |
| ResizeHandle.ResizeHandleDirective.InstallIfAbsent | esm2015/lib/resize-handle.directive.js:63-72 | a kind already in the dictionary leaves everything unchanged; otherwise exactly one listen call is made and its handle stored |
| ResizeHandle.ResizeHandleDirective.InstallMoveListeners | esm2015/lib/resize-handle.directive.js:63-72 | afterwards both kinds are in the dictionary and existing entries are kept; the renderer calls made are exactly the missing listens, touchmove first; attached listeners still match the dictionary |
| ResizeHandle.ResizeHandleDirective.UnsubscribeEventListeners | esm2015/lib/resize-handle.directive.js:102-107 | every stored unsubscribe is called once, with its own handle, and no other call is made; the dictionary ends empty and nothing stays attached |
| ResizeHandle.ResizeHandleDirective.OnMousedown | esm2015/lib/resize-handle.directive.js:61-78 | makes exactly the missing listen calls, then forwards the press with the handle's edges: the controller keeps its configuration and its state becomes `Down` of its old state |
| ResizeHandle.ResizeHandleDirective.OnMousemove | esm2015/lib/resize-handle.directive.js:94-101 | forwards the move coordinates: the controller keeps its configuration and its state becomes `Move` of its old state |
| ResizeHandle.ResizeHandleDirective.OnMouseup | esm2015/lib/resize-handle.directive.js:82-89 | first removes every listener with one unsubscribe call per stored entry, then forwards the release coordinates: the controller keeps its configuration and its state becomes `Up` of its old state |
| ResizeHandle.ResizeHandleDirective.NgOnDestroy | esm2015/lib/resize-handle.directive.js:54-57 | calls each stored unsubscribe once with its own id, appending those calls to the renderer log and nothing else, and leaves the dictionary empty |
| ResizeScenarios.ThresholdScenario | esm2015/lib/resizable.directive.js:354-431 | for any press point and pointer height, with threshold 5: moves of 2 and 4 pixels emit nothing; the move to 6 emits resizeStart (zero diff, starting rectangle) then resizing; the release emits resizeEnd |
| ResizeScenarios.ClickScenario | esm2015/lib/resizable.directive.js:423-430 | a press with a move below the threshold ends in a click at the release point |
| ResizeScenarios.SnapScenario | esm2015/lib/resizable.directive.js:312-327 | with a right snap size of 10, raw moves 3, 7 and 12 give resizing at 0 and 10 only |
| ResizeScenarios.NegativeSizeScenario | esm2015/lib/resizable.directive.js:335-341 | a move that would make the width −10 is refused unless negative resizes are allowed |
| ResizeScenarios.RejectAllScenario | esm2015/lib/resizable.directive.js:342-353 | with a validator that refuses everything, the press still emits resizeStart and resizeEnd reports the starting rectangle |

## Left out

- `getElementRect` (reading offsets or the bounding box, and parsing the translate transform) is not modelled. The element's rectangle at a press is a parameter of the press handler.
- The ghost element, styles, cursors and CSS classes are DOM side effects and are not modelled. The cloned node is the boolean `ghostPresent`. `Geometry.ResizeCursor` computes the cursor, but no handler sets it.
- The merge of the `resizeCursors` input with the defaults (`getResizeCursors`) is left out. `ResizeCursor` takes the merged labels as a parameter.
- Emitters are modelled without subscribers. Every event is appended to the log whether or not anyone listens; the source skips an emit that has no observers. `zone.run` is not modelled.
- `PointerEventListeners` is modelled without its streams. Attaching and detaching the document listeners, `share()` reference counting and touch detection are not modelled. A document press, move or release reaches the engine as a call to the same handlers, with an empty edges object for a press.
- `ResizableDirective.ngOnDestroy` is left out. It completes the subjects and ends every subscription, so it only stops the engine.
- Calls to `preventDefault` and the try/catch around one are left out.
- `mouseMoveThrottleMS` is left out. The source declares it but never reads it, so there is no throttling.
- Coordinates are integers, not JavaScript numbers, and snap sizes are non-negative integers. A size of 0 is falsy and is skipped, as in the source. Negative or fractional snap sizes and floating-point effects are not modelled.
- `ResizeHandleDirective.ngOnInit` wiring of host listeners to the three handlers is left out. The handlers are called directly. A missing controller makes the source throw on its `next` call after the listener bookkeeping is done. The model reports this as `delivered == false` instead.
- ResizeHandle.ResizeHandleDirective.UnsubscribeEventListeners: the order of the unsubscribe calls is unspecified, because `Object.keys` order (insertion order) is not modelled. The contract states which calls are made, not their order.
- The `clicked` output carries only the release coordinates. The source emits the whole release object, which also holds the handle's edges or the document event.
- The configuration (`resizeSnapGrid`, `enableGhostResize`, `allowNegativeResizes`, `resizeMoveThreshold`, `validateResize`) is fixed for the directive's lifetime. The source reads its inputs afresh on every event, so a change of input during a drag is not modelled.
- The touchmove and mousemove listener callbacks are not modelled. They call `onMousemove`, which is modelled as a method called directly.
