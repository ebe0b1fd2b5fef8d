/**
  Turning a pointer event into a position along the preview
  (js/GradientCreator.js:56-57, 215-230): `getRelativeHeight` and the clamp
  the move handlers apply to its result.
*/
module Pointer {

  import opened Wrappers

  /** One entry of `changedTouches`; `clientY` is `None` when it is not a number. */
  datatype Touch = Touch(clientY: Option<real>)

  /**
    The fields of a mouse or touch event that `getRelativeHeight` reads:
    `clientY` (`None` when it is not a number) and `changedTouches`
    (`None` when the event has none).
  */
  datatype PointerEvent = PointerEvent(clientY: Option<real>, changedTouches: Option<seq<Touch>>)

  /** The event carries a vertical coordinate, directly or on its first changed touch. */
  predicate HasCoordinate(e: PointerEvent)
  {
    || e.clientY.Some?
    || (e.changedTouches.Some? && |e.changedTouches.value| > 0 && e.changedTouches.value[0].clientY.Some?)
  }

  /**
    `getRelativeHeight(event, target)`: 0 when the event has no usable `clientY`;
    otherwise the coordinate (the mouse one first, else the first touch's) is handed
    to `project`, which stands for `(clientY - rect.top) / rect.height` over the
    target's bounding rectangle.
  */
  function RelativeHeight(e: PointerEvent, project: real -> real): (r: real)
    ensures !HasCoordinate(e) ==> r == 0.0
    ensures e.clientY.Some? ==> r == project(e.clientY.value)
    ensures e.clientY.None? && HasCoordinate(e) ==> r == project(e.changedTouches.value[0].clientY.value)
  {
    if e.clientY.None?
       && (e.changedTouches.None? || |e.changedTouches.value| == 0 || e.changedTouches.value[0].clientY.None?)
    then 0.0
    else
      var clientY := if e.clientY.Some? then e.clientY.value else e.changedTouches.value[0].clientY.value;
      project(clientY)
  }

  function Min(a: real, b: real): real
  {
    if a <= b then a else b
  }

  function Max(a: real, b: real): real
  {
    if a >= b then a else b
  }

  /** `Math.min(1, Math.max(0, r))`: the nearest point of [0, 1]. */
  function Clamp(r: real): (c: real)
    ensures 0.0 <= c <= 1.0
    ensures 0.0 <= r <= 1.0 ==> c == r
    ensures r < 0.0 ==> c == 0.0
    ensures r > 1.0 ==> c == 1.0
  {
    Min(1.0, Max(0.0, r))
  }
}
