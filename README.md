# GradientCreator, modelled in Dafny

GradientCreator is a browser widget for building a vertical colour gradient.
Its stops (a position between 0 and 1 and a colour) are drawn as elements of
a preview bar. The user drags them with the mouse or by touch, picks a colour
for the selected stop, and the preview's background is redrawn as a CSS
`linear-gradient(180deg, ...)`. An event-listener registry (add, has, remove,
dispatch by event type) is mixed into the widget's prototype.

This project models the logic of `js/GradientCreator.js`:

- `event_dispatcher.dfy`, module `EventDispatcher`: the listener registry.
  The class `Dispatcher` holds `_listeners`. It is absent until the first
  registration, then it maps each event type to an ordered list of
  listeners. Pure functions (`Added`, `Removed`, `Replay`) say what each
  operation does to the registry, and lemmas prove the registry's
  properties. These are: no duplicates, membership after an add, an add that
  is idempotent, a remove that takes out one entry and keeps the order of
  the rest, a remove that undoes an add, and snapshot semantics for dispatch.
- `gradient.dfy`, module `Gradient`: the `{pos, color}` stops, the order
  `getStops` sorts them into, and the string `rerender` builds. The sort is
  a stable insertion sort. Its lemmas say that the result is ordered by
  position, is a permutation of the input, keeps stops at equal positions
  in their original order, and leaves sorted input unchanged.
- `pointer.dfy`, module `Pointer`: `getRelativeHeight`'s fallback guard and
  the clamp to [0, 1] that the move handlers apply.
- `gradient_creator.dfy`, module `GradientCreator`: the widget as a class
  `Creator`. It holds the stop elements in preview order, the
  `_draggingStop` and `_selectedStop` handles (indices into the elements),
  and the preview's background. Its methods are the press, click, move,
  release and colour-picker handlers, plus `selectStop`, `deselectStops`,
  `getStops` and `rerender`. The object invariant `Valid` says four things.
  Both handles name existing stops. Only the selected stop carries the
  selection border. Every position is in [0, 1]. The background is the
  gradient of the current stops.
- `wrappers.dfy`, module `Wrappers`: `Option`, standing for JavaScript's
  `undefined`.

Colours and listeners are type parameters, so the model treats them as
opaque values. JavaScript's number-to-string conversion and a colour's CSS
text are the two functions of a `Format` value. The model therefore states
the shape of the gradient string and not the digits of any number.

## Model

| member | source | states |
|---|---|---|
| `EventDispatcher.IndexOf` | js/GradientCreator.js:278 | `indexOf` gives -1 exactly when the listener is absent; otherwise it gives the first position holding it |
| `EventDispatcher.Dispatcher.constructor` | js/GradientCreator.js:251 | a new dispatcher has no `_listeners` dictionary yet |
| `EventDispatcher.Dispatcher.HasEventListener` | js/GradientCreator.js:286-300 | true exactly when the listener is in the type's list; false when no dictionary or no list exists |
| `EventDispatcher.Dispatcher.AddEventListener` | js/GradientCreator.js:266-284 | creates the dictionary and the list on demand and appends the listener only if it is absent; keeps every list free of duplicates |
| `EventDispatcher.AddRegistersOnce` | js/GradientCreator.js:266-284 | after an add the listener is registered for the type exactly once, and the lists of other types are unchanged |
| `EventDispatcher.AddIdempotent` | js/GradientCreator.js:278-282 | adding the same pair a second time changes nothing |
| `EventDispatcher.AddedWellFormed` | js/GradientCreator.js:278-282 | an add keeps every list free of duplicates |
| `EventDispatcher.Dispatcher.RemoveEventListener` | js/GradientCreator.js:302-321 | splices out the listener's entry; nothing happens without a dictionary, a list or the listener |
| `EventDispatcher.SpliceIsWithout` | js/GradientCreator.js:311-315 | in a list without duplicates, splicing out the first occurrence removes the listener entirely and keeps the others in order |
| `EventDispatcher.RemoveDeletesOne` | js/GradientCreator.js:302-321 | after a remove the listener is gone from the type's list; the rest keep their relative order; the list loses exactly one entry if the listener was there; other types are unchanged |
| `EventDispatcher.RemovedWellFormed` | js/GradientCreator.js:309-319 | a remove keeps every list free of duplicates |
| `EventDispatcher.RemoveAbsentIsNoOp` | js/GradientCreator.js:304-319 | removing an absent listener, or removing when no dictionary exists, leaves the registry as it was |
| `EventDispatcher.RemoveUndoesAdd` | js/GradientCreator.js:266-321 | removing a listener that was just added, and was not there before, restores every type's list |
| `EventDispatcher.Copy` | js/GradientCreator.js:334-341 | the copy loop produces a list equal to the registered one |
| `EventDispatcher.Dispatcher.Invoke` | js/GradientCreator.js:345 | a listener's call applies its own add/remove calls to the registry, in order |
| `EventDispatcher.Dispatcher.DispatchEvent` | js/GradientCreator.js:323-351 | calls exactly the listeners registered for the type when dispatch starts, in registration order, each once; adds and removes made by the listeners take effect in the registry but not in the current round |
| `EventDispatcher.ReplayAppend` | js/GradientCreator.js:343-347 | registration changes made by successive listeners compose in calling order |
| `Gradient.InsertByPos` | js/GradientCreator.js:187-189 | inserting into a position-ordered list keeps it ordered and adds exactly that stop |
| `Gradient.SortByPos` | js/GradientCreator.js:187-189 | the sort by `a.pos - b.pos` yields the same stops, ordered by non-decreasing position |
| `Gradient.InsertByPosAtPos` | js/GradientCreator.js:187-189 | an inserted stop goes in front of every stop already at its position, so among equal positions the stops keep their input order |
| `Gradient.SortByPosStable` | js/GradientCreator.js:187-189 | the sort is stable: at every position, stops keep their original relative order |
| `Gradient.SortByPosOfSorted` | js/GradientCreator.js:177-192 | re-sorting `getStops`' output changes nothing: a list already ordered by position is its own sort |
| `Gradient.Entry` | js/GradientCreator.js:238 | a stop renders as its colour's CSS text, one space, its position times 100, and `%` |
| `Gradient.Entries` | js/GradientCreator.js:237-239 | the `map` gives one entry per stop, in the same order, each the stop's `Entry` |
| `Gradient.Join` | js/GradientCreator.js:241 | `join` of no parts is empty, of one part is that part, and otherwise begins with the first part |
| `Gradient.RenderGradient` | js/GradientCreator.js:236-242 | the background string always starts with `linear-gradient(180deg, ` and ends with `)` |
| `Gradient.JoinSnoc` | js/GradientCreator.js:241 | `join(",")` puts one separator between each pair of adjacent entries |
| `Gradient.RenderEmpty` | js/GradientCreator.js:236-242 | with no stops the background is `linear-gradient(180deg, )` |
| `Gradient.RenderAppend` | js/GradientCreator.js:236-242 | the background is the prefix, then the sorted stops' `color pos*100%` entries separated by commas with none trailing, then `)` |
| `Gradient.RenderThreeStops` | js/GradientCreator.js:236-242 | black, red and white at 0, 0.5 and 1, stored out of order, render as `linear-gradient(180deg, rgb(0,0,0) 0%,rgb(255,0,0) 50%,rgb(255,255,255) 100%)` |
| `Pointer.RelativeHeight` | js/GradientCreator.js:215-230 | 0 when the event has no numeric `clientY` and no first changed touch with one; otherwise the projection of the mouse coordinate, or the touch coordinate when there is no mouse one |
| `Pointer.Clamp` | js/GradientCreator.js:56-57 | `Math.min(1, Math.max(0, r))` lies in [0, 1], is `r` inside that range, 0 below it and 1 above it |
| `GradientCreator.InitialStops` | js/GradientCreator.js:17-23 | the initial stops are black at 0 then white at 1, already ordered by position |
| `GradientCreator.StopsOf` | js/GradientCreator.js:180-185 | one `{pos, color}` record per element, in element order, carrying that element's position and colour |
| `GradientCreator.StopsOfIgnoresBorders` | js/GradientCreator.js:180-185 | the stops read off the elements depend only on position and colour, not on the border |
| `GradientCreator.Creator.constructor` | js/GradientCreator.js:11-23 | a new widget holds exactly the two initial stops, black at 0 and white at 1; nothing is dragged or selected; the preview is rendered |
| `GradientCreator.Creator.CreateStop` | js/GradientCreator.js:97-102 | appends one element with the stop's position and colour and no border |
| `GradientCreator.Creator.GetStops` | js/GradientCreator.js:177-192 | one entry per element, as a permutation, ordered by non-decreasing position, equal positions in element order, every position in [0, 1] |
| `GradientCreator.Creator.Rerender` | js/GradientCreator.js:236-242 | the background becomes the gradient string of the current stops |
| `GradientCreator.Creator.DeselectStops` | js/GradientCreator.js:123-129 | clears every element's border and forgets the selection; positions and colours are unchanged |
| `GradientCreator.Creator.SelectStop` | js/GradientCreator.js:134-138 | afterwards exactly the given stop is selected and outlined; positions and colours are unchanged |
| `GradientCreator.Creator.Press` | js/GradientCreator.js:104-112 | mousedown or touchstart on a stop makes it both the dragged and the selected stop |
| `GradientCreator.Creator.Click` | js/GradientCreator.js:114-117 | a click on a stop selects it alone |
| `GradientCreator.Creator.Release` | js/GradientCreator.js:74-80 | mouseup or touchend clears the drag and keeps the selection |
| `GradientCreator.Creator.Move` | js/GradientCreator.js:52-72 | while dragging, only the dragged stop changes: its position becomes the clamped relative height and its colour stays. With no drag, a move changes nothing |
| `GradientCreator.Creator.ColorMove` | js/GradientCreator.js:155-161 | a colour-picker change recolours only the selected stop and redraws; with no selection it changes nothing |
| `GradientCreator.DragThenRecolor` | js/GradientCreator.js:52-161 | after press, move, release and a colour change, the dragged stop has the new colour and the clamped position, because the selection outlives the drag |

## Left out

- DOM construction, CSS styling, container clearing and the preview's markup (js/GradientCreator.js:35-50, 98-100) are not modelled. Only the logical state they carry is: positions, colours, the selection border as a flag, and the background string.
- The tinycolor values and the jQuery `spectrum` colour picker (js/GradientCreator.js:19, 22, 143-162) are foreign libraries. Colour is a type parameter. The picker appears only as its `move` callback.
- Floating point is not modelled. Positions are reals. The `pos*100 + "%"` / `parseFloat(...)/100` round trip through `style.top` (js/GradientCreator.js:101, 182) is taken to be exact. Number-to-string conversion is an opaque function.
- Pointer.RelativeHeight: the bounding-rectangle division `(clientY - top) / height` (js/GradientCreator.js:226-229) is a parameter `project`. So a zero-height preview, and the Infinity or NaN it would produce, are not modelled.
- The `dblclick` handler (js/GradientCreator.js:82-89) is not modelled. It calls `getrelativeHeight`, which does not exist, so as written it throws before creating a stop. No stop-creation or stop-deletion operation exists beyond the two initial stops.
- The `document.elementFromPoint(clientX, clientY)` fallback for a missing target (js/GradientCreator.js:207, 224) is not modelled. It refers to an undeclared variable, and the widget always passes the preview as the target. `getRelativeWidth` is not modelled because nothing calls it.
- Registration of the handlers on `document` and on each element, and the browser's event loop (js/GradientCreator.js:52-80, 104-117), are I/O wiring. Each handler is a method. Mouse and touch variants of one handler share a method.
- The mixin `apply` (js/GradientCreator.js:257-264) and `event.target = this` (js/GradientCreator.js:332) are wiring. `Dispatcher` models the four methods that `apply` copies onto the widget.
- EventDispatcher.Dispatcher.AddEventListener (and HasEventListener, RemoveEventListener, DispatchEvent): the registry is a plain object literal, so an event type named after a property inherited from `Object.prototype` (`toString`, `constructor`, `__proto__`, `hasOwnProperty`, `valueOf`, ...) makes `listeners[type]` find that property, and add, has, remove and dispatch then throw a TypeError or misbehave. The model treats every event type as an ordinary key of an initially empty dictionary.
- EventDispatcher.Dispatcher.DispatchEvent: a listener's own code is modelled only as the sequence of `addEventListener`/`removeEventListener` calls it makes on the same dispatcher (`react`). Other side effects, and exceptions thrown by listeners, are not modelled.
- Gradient.SortByPos: the engine's sort algorithm cannot be seen. It is modelled by a stable insertion sort, which matches the stability that the ECMAScript specification has required of `Array.prototype.sort` since 2019.
- GradientCreator.Creator.Press: handles are indices into the element list, and the handlers require an index that names an existing element. In the source a handler is attached to an element that exists, so an unknown handle cannot reach it.
- GradientCreator.Creator.CreateStop does not clamp the position it is given, which follows the code. Positions stay in [0, 1] only because the initial stops are 0 and 1 and every later position passes through the move handlers' clamp.
- The root `GradientCreator.js` only builds a radio-button form and an empty preview, so it is not part of this model.
