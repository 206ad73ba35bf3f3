/** The element image's lightbox: zoom between 1x and 4x in half steps,
    drag to pan, and a reset of zoom and pan whenever it closes. Mouse and
    touch events feed the same handlers; a touch is modelled by the
    position of its first finger. */
module Lightbox {

  datatype Point = Point(x: real, y: real)

  function Minus(a: Point, b: Point): Point {
    Point(a.x - b.x, a.y - b.y)
  }

  /** `lightboxOpen`, `scale`, `position`, `isDragging`, `dragStart`. */
  datatype Box = Box(open: bool, scale: real, position: Point, dragging: bool, dragStart: Point)

  const Origin: Point := Point(0.0, 0.0)
  const MinScale: real := 1.0
  const MaxScale: real := 4.0
  const ZoomStep: real := 0.5

  const Initial: Box := Box(false, MinScale, Origin, false, Origin)

  datatype Event =
    | ImageClick            // opens the lightbox
    | Close                 // the backdrop or the close button
    | ZoomIn
    | ZoomOut
    | Press(at: Point)      // mouse-down or touch-start
    | Move(to: Point)       // mouse-move or touch-move
    | Release               // mouse-up, mouse-leave or touch-end

  function Min(a: real, b: real): real { if a <= b then a else b }
  function Max(a: real, b: real): real { if a >= b then a else b }

  /** One event. Closing also runs the reset effect: scale back to 1 and
      the image back to the centre; the drag flag is left as it was. */
  function Step(b: Box, ev: Event): (r: Box)
    ensures ev.ImageClick? ==> r.open && r.scale == b.scale && r.position == b.position
    ensures ev.Close? ==> !r.open && r.scale == MinScale && r.position == Origin && r.dragging == b.dragging
    ensures ev.ZoomIn? ==> r.scale <= MaxScale && r.scale <= b.scale + ZoomStep && r.position == b.position
    ensures ev.ZoomIn? && b.scale <= MaxScale ==> r.scale >= b.scale
    ensures ev.ZoomOut? ==> r.scale >= MinScale && r.scale >= b.scale - ZoomStep && r.position == b.position
    ensures ev.ZoomOut? && b.scale >= MinScale ==> r.scale <= b.scale
    ensures ev.Press? ==> r.dragging && r.position == b.position && r.scale == b.scale
    ensures ev.Move? && !b.dragging ==> r == b
    ensures ev.Release? ==> !r.dragging && r.position == b.position && r.scale == b.scale
  {
    match ev
    case ImageClick => b.(open := true)
    case Close => b.(open := false, scale := MinScale, position := Origin)
    case ZoomIn => b.(scale := Min(b.scale + ZoomStep, MaxScale))
    case ZoomOut => b.(scale := Max(b.scale - ZoomStep, MinScale))
    case Press(at) => b.(dragging := true, dragStart := Minus(at, b.position))
    case Move(to) => if !b.dragging then b else b.(position := Minus(to, b.dragStart))
    case Release => b.(dragging := false)
  }

  function Run(b: Box, evs: seq<Event>): Box
    decreases |evs|
  {
    if |evs| == 0 then b else Run(Step(b, evs[0]), evs[1..])
  }

  predicate ScaleInRange(b: Box) {
    MinScale <= b.scale <= MaxScale
  }

  lemma StepKeepsScaleInRange(b: Box, ev: Event)
    requires ScaleInRange(b)
    ensures ScaleInRange(Step(b, ev))
  {
  }

  lemma {:induction false} RunKeepsScaleInRange(b: Box, evs: seq<Event>)
    requires ScaleInRange(b)
    ensures ScaleInRange(Run(b, evs))
    decreases |evs|
  {
    if |evs| > 0 {
      StepKeepsScaleInRange(b, evs[0]);
      RunKeepsScaleInRange(Step(b, evs[0]), evs[1..]);
    }
  }

  /** Whatever happens, the zoom stays between 1x and 4x. */
  lemma ScaleAlwaysInRange(evs: seq<Event>)
    ensures MinScale <= Run(Initial, evs).scale <= MaxScale
  {
    RunKeepsScaleInRange(Initial, evs);
  }

  /** The zoom-out button is disabled when `scale <= 1`; on any reachable
      state that is exactly when the image is not zoomed. */
  predicate ZoomOutDisabled(b: Box) {
    b.scale <= MinScale
  }

  lemma ZoomOutDisabledAtRest(evs: seq<Event>)
    ensures ZoomOutDisabled(Run(Initial, evs)) <==> Run(Initial, evs).scale == MinScale
    ensures ZoomOutDisabled(Run(Initial, evs)) ==> Step(Run(Initial, evs), ZoomOut) == Run(Initial, evs)
  {
    ScaleAlwaysInRange(evs);
  }

  /** Zooming out undoes zooming in, as long as zooming in did not hit the
      4x cap. */
  lemma ZoomOutUndoesZoomIn(b: Box)
    requires ScaleInRange(b) && b.scale + ZoomStep <= MaxScale
    ensures Step(Step(b, ZoomIn), ZoomOut) == b
  {
  }

  /** And zooming in undoes zooming out above 1x. */
  lemma ZoomInUndoesZoomOut(b: Box)
    requires ScaleInRange(b) && b.scale - ZoomStep >= MinScale
    ensures Step(Step(b, ZoomOut), ZoomIn) == b
  {
  }

  function ZoomIns(n: nat): seq<Event>
    ensures |ZoomIns(n)| == n
    ensures forall i :: 0 <= i < n ==> ZoomIns(n)[i] == ZoomIn
  {
    if n == 0 then [] else [ZoomIn] + ZoomIns(n - 1)
  }

  /** `n` zoom-in clicks from scale `s` give `min(s + n/2, 4)`. */
  lemma {:induction false} RepeatedZoomIn(b: Box, n: nat)
    requires ScaleInRange(b)
    ensures Run(b, ZoomIns(n)).scale == Min(b.scale + ZoomStep * n as real, MaxScale)
    ensures Run(b, ZoomIns(n)).position == b.position
    decreases n
  {
    if n > 0 {
      var evs := ZoomIns(n);
      assert evs[0] == ZoomIn;
      assert evs[1..] == ZoomIns(n - 1);
      var b' := Step(b, ZoomIn);
      RepeatedZoomIn(b', n - 1);
    }
  }

  /** Six clicks reach the 4x cap from the start, five do not. */
  lemma SixClicksToMax()
    ensures Run(Initial, ZoomIns(6)).scale == MaxScale
    ensures Run(Initial, ZoomIns(5)).scale < MaxScale
  {
    RepeatedZoomIn(Initial, 6);
    RepeatedZoomIn(Initial, 5);
  }

  /** A drag moves the image by exactly the pointer's displacement, and
      bringing the pointer back puts the image back. */
  lemma DragFollowsPointer(b: Box, p: Point, p': Point)
    ensures Step(Step(b, Press(p)), Move(p')).position ==
      Point(b.position.x + (p'.x - p.x), b.position.y + (p'.y - p.y))
    ensures Step(Step(Step(b, Press(p)), Move(p')), Move(p)).position == b.position
  {
  }

  /** After the drag ends, moving the pointer no longer moves the image. */
  lemma ReleaseStopsDrag(b: Box, p: Point)
    ensures Step(Step(b, Release), Move(p)) == Step(b, Release)
  {
  }

  /** Closing and reopening shows the image unzoomed and centred, whatever
      happened before. */
  lemma ReopenIsFresh(b: Box)
    ensures Step(Step(b, Close), ImageClick).scale == MinScale
    ensures Step(Step(b, Close), ImageClick).position == Origin
    ensures Step(Step(b, Close), ImageClick).open
  {
  }
}
