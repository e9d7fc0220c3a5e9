/** The zoom arithmetic of App.tsx: the ctrl/meta wheel handler and the zoom-in and zoom-out
    buttons, each clamped to [0.1, 3]. */
module Viewport {

  const MinZoom: real := 0.1
  const MaxZoom: real := 3.0
  const WheelFactor: real := 1.05
  const ButtonFactor: real := 1.1

  predicate InRange(zoom: real)
  {
    MinZoom <= zoom <= MaxZoom
  }

  /** `Math.min(Math.max(z, lo), hi)`. */
  function Clamp(z: real, lo: real, hi: real): (r: real)
    requires lo <= hi
    ensures lo <= r <= hi
    ensures lo <= z <= hi ==> r == z
    ensures z < lo ==> r == lo
    ensures z > hi ==> r == hi
  {
    var m := if z > lo then z else lo;
    if m < hi then m else hi
  }

  /** `handleWheel`: only with Ctrl or Meta held; a negative `deltaY` zooms in by 1.05,
      anything else (zero included) zooms out by 1.05; the result is clamped. */
  function WheelZoom(zoom: real, ctrlOrMeta: bool, deltaY: real): (r: real)
    ensures !ctrlOrMeta ==> r == zoom
    ensures ctrlOrMeta ==> InRange(r)
    ensures ctrlOrMeta && InRange(zoom) && deltaY < 0.0 ==> r >= zoom
    ensures ctrlOrMeta && InRange(zoom) && deltaY >= 0.0 ==> r <= zoom
    ensures ctrlOrMeta && deltaY < 0.0 && InRange(zoom * WheelFactor) ==> r == zoom * WheelFactor
    ensures ctrlOrMeta && deltaY < 0.0 && zoom * WheelFactor > MaxZoom ==> r == MaxZoom
    ensures ctrlOrMeta && deltaY < 0.0 && zoom * WheelFactor < MinZoom ==> r == MinZoom
    ensures ctrlOrMeta && deltaY >= 0.0 && InRange(zoom / WheelFactor) ==> r == zoom / WheelFactor
    ensures ctrlOrMeta && deltaY >= 0.0 && zoom / WheelFactor > MaxZoom ==> r == MaxZoom
    ensures ctrlOrMeta && deltaY >= 0.0 && zoom / WheelFactor < MinZoom ==> r == MinZoom
  {
    if ctrlOrMeta then
      var delta := -deltaY;
      var newZoom := if delta > 0.0 then zoom * WheelFactor else zoom / WheelFactor;
      Clamp(newZoom, MinZoom, MaxZoom)
    else zoom
  }

  /** The zoom-in button: `Math.min(prev * 1.1, 3)`. */
  function ZoomIn(zoom: real): (r: real)
    ensures r <= MaxZoom && r <= zoom * ButtonFactor
    ensures r == MaxZoom || r == zoom * ButtonFactor
    ensures InRange(zoom) ==> InRange(r) && r >= zoom
  {
    if zoom * ButtonFactor < MaxZoom then zoom * ButtonFactor else MaxZoom
  }

  /** The zoom-out button: `Math.max(prev / 1.1, 0.1)`. */
  function ZoomOut(zoom: real): (r: real)
    ensures r >= MinZoom && r >= zoom / ButtonFactor
    ensures r == MinZoom || r == zoom / ButtonFactor
    ensures InRange(zoom) ==> InRange(r) && r <= zoom
  {
    if zoom / ButtonFactor > MinZoom then zoom / ButtonFactor else MinZoom
  }

  /** Away from the bounds, zooming in then out (or out then in) returns to the start. */
  lemma ZoomButtonsInverse(zoom: real)
    requires InRange(zoom)
    ensures zoom * ButtonFactor <= MaxZoom ==> ZoomOut(ZoomIn(zoom)) == zoom
    ensures zoom / ButtonFactor >= MinZoom ==> ZoomIn(ZoomOut(zoom)) == zoom
  {
  }
}
