/** Pointer handling on the periodic-table canvas: the single-slot hover
    highlight, the tap-versus-swipe rule, which clicks and taps select an
    element, the tooltip, the electron animation, and the guard that keeps
    the scene from being initialised twice. The ray cast itself is an input:
    the objects hit, from the hit object up through its parents. */
module Interaction {
  import opened Collections
  import opened Elements
  import opened AtomicModel

  // ---------------------------------------------------------------------
  // Hover highlight

  /** A scene object on the ray's path: its id and the element it shows,
      if it is a tile. */
  datatype Node = Node(id: nat, element: Option<Element>)

  /** The result of a ray cast: nothing hit, or the first object hit
      followed by its ancestors below the table group. */
  datatype Ray = NoHit | Hit(path: seq<Node>)

  /** A tile's emissive colour and uniform scale. */
  datatype Look = Look(emissive: int, scale: real)

  const Highlight: int := 0x555555
  const HighlightScale: real := 1.3

  /** An untouched tile: no emissive colour, scale 1. */
  const PlainLook: Look := Look(0, 1.0)

  /** The hovered tile (`INTERSECTED`), every tile's look, and the emissive
      colour saved on each tile when it was highlighted (`currentHex`). */
  datatype Hover = Hover(current: Option<(nat, Element)>, looks: map<nat, Look>, saved: map<nat, int>)

  const NoHover: Hover := Hover(None, map[], map[])

  function LookOf(h: Hover, id: nat): Look {
    if id in h.looks then h.looks[id] else PlainLook
  }

  function SavedOf(h: Hover, id: nat): int {
    if id in h.saved then h.saved[id] else 0
  }

  /** The ancestor walk: climb while the object has no element and its
      parent is not the table group. It stops on the first tile, or on the
      last object of the path, which then has no element. */
  function FirstTile(path: seq<Node>): (r: Option<(nat, Element)>)
    ensures r.Some? ==> exists i :: 0 <= i < |path| && path[i].element == Some(r.value.1) && path[i].id == r.value.0
    ensures r.None? <==> forall i :: 0 <= i < |path| ==> path[i].element.None?
    decreases |path|
  {
    if |path| == 0 then None
    else if path[0].element.Some? then Some((path[0].id, path[0].element.value))
    else
      var r := FirstTile(path[1..]);
      assert r.Some? ==> path[1..][0].element.Some? || exists i :: 0 <= i < |path[1..]| && path[1..][i].element == Some(r.value.1) && path[1..][i].id == r.value.0;
      r
  }

  /** Puts a tile back: its saved emissive colour and scale 1. */
  function Restore(h: Hover, id: nat): Hover {
    h.(looks := h.looks[id := Look(SavedOf(h, id), 1.0)])
  }

  /** `updateMousePosition` after the ray cast. */
  function UpdateHover(h: Hover, ray: Ray): Hover {
    match ray
    case NoHit =>
      if h.current.Some? then Restore(h, h.current.value.0).(current := None) else h
    case Hit(path) =>
      match FirstTile(path)
      case None => h
      case Some(t) =>
        if h.current == Some(t) then h
        else
          var h1 := if h.current.Some? then Restore(h, h.current.value.0) else h;
          h1.(current := Some(t),
              saved := h1.saved[t.0 := LookOf(h1, t.0).emissive],
              looks := h1.looks[t.0 := Look(Highlight, HighlightScale)])
  }

  /** A hit on a different tile restores the previous one, saves the new
      tile's emissive colour and highlights it; no other tile changes. */
  lemma HitNewTile(h: Hover, path: seq<Node>, id: nat, e: Element)
    requires FirstTile(path) == Some((id, e)) && h.current != Some((id, e))
    ensures UpdateHover(h, Hit(path)).current == Some((id, e))
    ensures LookOf(UpdateHover(h, Hit(path)), id) == Look(Highlight, HighlightScale)
    ensures h.current.Some? && h.current.value.0 != id ==>
      LookOf(UpdateHover(h, Hit(path)), h.current.value.0) == Look(SavedOf(h, h.current.value.0), 1.0)
    ensures h.current.None? || h.current.value.0 != id ==>
      SavedOf(UpdateHover(h, Hit(path)), id) == LookOf(h, id).emissive
    ensures forall k :: k != id && (h.current.None? || k != h.current.value.0) ==>
      LookOf(UpdateHover(h, Hit(path)), k) == LookOf(h, k)
  {
  }

  /** A hit on the tile already hovered, or one whose walk finds no tile,
      changes nothing. */
  lemma HitWithoutChange(h: Hover, path: seq<Node>)
    requires FirstTile(path).None? || FirstTile(path) == h.current
    ensures UpdateHover(h, Hit(path)) == h
  {
  }

  /** A miss restores the hovered tile and clears the slot. */
  lemma MissClears(h: Hover)
    ensures UpdateHover(h, NoHit).current.None?
    ensures h.current.Some? ==>
      LookOf(UpdateHover(h, NoHit), h.current.value.0) == Look(SavedOf(h, h.current.value.0), 1.0)
    ensures forall k :: (h.current.None? || k != h.current.value.0) ==>
      LookOf(UpdateHover(h, NoHit), k) == LookOf(h, k)
  {
  }

  /** Only the hovered tile is enlarged, and it is at highlight scale. */
  predicate OneHighlighted(h: Hover) {
    (forall k :: k in h.looks && h.looks[k].scale != 1.0 ==> h.current.Some? && h.current.value.0 == k)
    && (h.current.Some? ==> LookOf(h, h.current.value.0).scale == HighlightScale)
  }

  /** At most one tile is ever at highlight scale. */
  lemma HighlightStaysSingle(h: Hover, ray: Ray)
    requires OneHighlighted(h)
    ensures OneHighlighted(UpdateHover(h, ray))
    ensures OneHighlighted(NoHover)
  {
  }

  /** Hovering a plain tile and then moving off gives it back its look. */
  lemma HoverThenMissRestores(h: Hover, path: seq<Node>, id: nat, e: Element)
    requires h.current.None? && FirstTile(path) == Some((id, e))
    requires LookOf(h, id).scale == 1.0
    ensures LookOf(UpdateHover(UpdateHover(h, Hit(path)), NoHit), id) == LookOf(h, id)
  {
  }

  // ---------------------------------------------------------------------
  // Clicks, taps and the tooltip

  /** The element-selected event a click or tap sends, if any: only while
      the table is visible and a tile is hovered. */
  function Selection(h: Hover, tableVisible: bool): (r: Option<Element>)
    ensures r.Some? <==> tableVisible && h.current.Some?
    ensures r.Some? ==> r.value == h.current.value.1
  {
    if tableVisible && h.current.Some? then Some(h.current.value.1) else None
  }

  /** `touchThreshold`, in pixels. */
  const TouchThreshold: real := 10.0

  function Abs(x: real): real { if x < 0.0 then -x else x }

  /** A touch is a tap when it moved less than the threshold on both axes. */
  predicate IsTap(startX: real, startY: real, endX: real, endY: real) {
    Abs(endX - startX) < TouchThreshold && Abs(endY - startY) < TouchThreshold
  }

  datatype Point = Point(x: real, y: real)

  /** The pointer state between events: the hover slot and where the
      current touch started. */
  datatype Pointer = Pointer(hover: Hover, start: Point)

  /** `onTouchStart`: only a single touch records its start and updates
      the hover (with `ray`, the cast at that point). */
  function TouchStart(p: Pointer, touches: seq<Point>, ray: Ray): (r: Pointer)
    ensures |touches| != 1 ==> r == p
    ensures |touches| == 1 ==> r.start == touches[0] && r.hover == UpdateHover(p.hover, ray)
  {
    if |touches| == 1 then Pointer(UpdateHover(p.hover, ray), touches[0]) else p
  }

  /** `onTouchEnd`: a single tap updates the hover at its end point and
      then selects like a click; anything else changes nothing. */
  function TouchEnd(p: Pointer, changed: seq<Point>, ray: Ray, tableVisible: bool): (r: (Pointer, Option<Element>))
    ensures (|changed| != 1 || !IsTap(p.start.x, p.start.y, changed[0].x, changed[0].y)) ==> r == (p, None)
    ensures |changed| == 1 && IsTap(p.start.x, p.start.y, changed[0].x, changed[0].y) ==>
      r.0.hover == UpdateHover(p.hover, ray) && r.1 == Selection(r.0.hover, tableVisible)
  {
    if |changed| == 1 && IsTap(p.start.x, p.start.y, changed[0].x, changed[0].y) then
      var h := UpdateHover(p.hover, ray);
      (p.(hover := h), Selection(h, tableVisible))
    else (p, None)
  }

  /** A swipe of 10 pixels or more on either axis never selects. */
  lemma SwipeNeverSelects(p: Pointer, end: Point, ray: Ray, tableVisible: bool)
    requires Abs(end.x - p.start.x) >= 10.0 || Abs(end.y - p.start.y) >= 10.0
    ensures TouchEnd(p, [end], ray, tableVisible).1.None?
  {
  }

  /** A tap ending on a tile of the visible table selects that tile's element. */
  lemma TapOnTileSelects(p: Pointer, end: Point, path: seq<Node>, id: nat, e: Element)
    requires IsTap(p.start.x, p.start.y, end.x, end.y)
    requires FirstTile(path) == Some((id, e))
    ensures TouchEnd(p, [end], Hit(path), true).1 == Some(e)
  {
  }

  /** `onMouseMove`: the hover is updated and the tooltip shows the hovered
      element while the table is visible; otherwise it is hidden. */
  function MouseMove(h: Hover, ray: Ray, tableVisible: bool): (r: (Hover, Option<Element>))
    ensures r.0 == UpdateHover(h, ray)
    ensures r.1.Some? <==> tableVisible && r.0.current.Some?
  {
    var h1 := UpdateHover(h, ray);
    (h1, Selection(h1, tableVisible))
  }

  /** The pointer's last position decides a click, and it agrees with the
      tooltip. Moving off every object leaves nothing to select; moving
      onto a tile selects that tile while the table is shown; moving onto
      an object that shows no element keeps the earlier choice. */
  lemma ClickAfterMove(h: Hover, ray: Ray, tableVisible: bool)
    ensures Selection(MouseMove(h, ray, tableVisible).0, tableVisible) == MouseMove(h, ray, tableVisible).1
    ensures ray.NoHit? ==> Selection(MouseMove(h, ray, tableVisible).0, tableVisible).None?
    ensures ray.Hit? && FirstTile(ray.path).Some? ==>
      Selection(MouseMove(h, ray, tableVisible).0, tableVisible) ==
        (if tableVisible then Some(FirstTile(ray.path).value.1) else None)
    ensures ray.Hit? && FirstTile(ray.path).None? ==>
      Selection(MouseMove(h, ray, tableVisible).0, tableVisible) == Selection(h, tableVisible)
  {
  }

  /** Casting the same ray twice is the same as casting it once. */
  lemma UpdateHoverIdempotent(h: Hover, ray: Ray)
    ensures UpdateHover(UpdateHover(h, ray), ray) == UpdateHover(h, ray)
  {
  }

  /** A tap does what a mouse move to its end point followed by a click
      does: the same hover, and the element the tooltip would show. */
  lemma TapActsAsClick(p: Pointer, end: Point, ray: Ray, tableVisible: bool)
    requires IsTap(p.start.x, p.start.y, end.x, end.y)
    ensures TouchEnd(p, [end], ray, tableVisible).0.hover == MouseMove(p.hover, ray, tableVisible).0
    ensures TouchEnd(p, [end], ray, tableVisible).1 == MouseMove(p.hover, ray, tableVisible).1
  {
  }

  /** A one-finger touch that lifts where it landed, on a tile of the
      shown table, selects that tile and leaves it hovered exactly as a
      single pointer move would; touches with more fingers keep the
      earlier start point. */
  lemma TapInPlaceSelects(p: Pointer, pt: Point, path: seq<Node>, id: nat, e: Element, touches: seq<Point>, ray: Ray)
    requires FirstTile(path) == Some((id, e))
    ensures TouchEnd(TouchStart(p, [pt], Hit(path)), [pt], Hit(path), true).1 == Some(e)
    ensures TouchEnd(TouchStart(p, [pt], Hit(path)), [pt], Hit(path), true).0.hover == UpdateHover(p.hover, Hit(path))
    ensures |touches| != 1 ==> TouchStart(p, touches, ray).start == p.start
  {
    UpdateHoverIdempotent(p.hover, Hit(path));
  }

  // ---------------------------------------------------------------------
  // Electron animation

  /** `Math.PI * 2` as a double. */
  const TwoPi: real := 6.283185307179586

  /** `initialAngle + Date.now() * 0.001 * rotationSpeed`, with the initial
      angle `turn * 2pi`. */
  function ElectronAngle(e: Electron, nowMs: real): real {
    e.turn * TwoPi + nowMs * 0.001 * e.speed
  }

  /** One animation frame: the angles of all electrons, computed only while
      the atom is shown. */
  function Frame(atomVisible: bool, es: seq<Electron>, nowMs: real): (r: Option<seq<real>>)
    ensures r.Some? <==> atomVisible
    ensures r.Some? ==> |r.value| == |es|
  {
    if atomVisible then Some(seq(|es|, i requires 0 <= i < |es| => ElectronAngle(es[i], nowMs))) else None
  }

  /** The angle depends on the clock alone: at time 0 it is the initial
      angle, it grows linearly at the electron's speed, and an inner
      electron gains more angle than an outer one over the same time. */
  lemma AngleIsLinearInTime(e: Electron, t1: real, t2: real)
    ensures ElectronAngle(e, 0.0) == e.turn * TwoPi
    ensures ElectronAngle(e, t2) - ElectronAngle(e, t1) == (t2 - t1) * 0.001 * e.speed
  {
  }

  lemma InnerElectronsTurnFaster(a: Electron, b: Electron, t1: real, t2: real)
    requires a.speed == Speed(a.shell) && b.speed == Speed(b.shell)
    requires a.shell < b.shell && t1 < t2
    ensures ElectronAngle(a, t2) - ElectronAngle(a, t1) > ElectronAngle(b, t2) - ElectronAngle(b, t1)
  {
    SpeedDecreases(a.shell, b.shell);
    AngleIsLinearInTime(a, t1, t2);
    AngleIsLinearInTime(b, t1, t2);
    var d := (t2 - t1) * 0.001;
    assert d > 0.0;
    assert (t2 - t1) * 0.001 * a.speed == d * a.speed;
    assert (t2 - t1) * 0.001 * b.speed == d * b.speed;
    assert d * a.speed - d * b.speed == d * (a.speed - b.speed);
    assert d * (a.speed - b.speed) > 0.0;
    assert ElectronAngle(a, t2) - ElectronAngle(a, t1) == d * a.speed;
    assert ElectronAngle(b, t2) - ElectronAngle(b, t1) == d * b.speed;
    assert d * a.speed > d * b.speed;
  }

  // ---------------------------------------------------------------------
  // Initialisation guard

  /** What `initPeriodicTable` finds: whether Three.js and its orbit
      controls are loaded, whether the canvas container exists, and whether
      a scene and renderer were stored by an earlier call. */
  datatype Window = Window(three: bool, controls: bool, container: bool, initialized: bool, scene: Scene)

  datatype InitOutcome = RetryLater | AlreadyInitialized | NoContainer | Started

  /** The guards in order: no Three.js retries later; an existing scene is
      kept; a missing container aborts; missing controls retry later;
      otherwise the scene starts with the table shown. */
  function InitPeriodicTable(w: Window): (r: (Window, InitOutcome))
    ensures r.1 == Started <==> w.three && !w.initialized && w.container && w.controls
    ensures r.1 != Started ==> r.0 == w
    ensures r.1 == Started ==> r.0.initialized && r.0.scene == InitialScene
  {
    if !w.three then (w, RetryLater)
    else if w.initialized then (w, AlreadyInitialized)
    else if !w.container then (w, NoContainer)
    else if !w.controls then (w, RetryLater)
    else (w.(initialized := true, scene := InitialScene), Started)
  }

  /** A second call never rebuilds the scene: once started, every later
      call leaves the window as it is. */
  lemma InitIsIdempotent(w: Window)
    ensures InitPeriodicTable(InitPeriodicTable(w).0).0 == InitPeriodicTable(w).0
    ensures InitPeriodicTable(w).1 == Started ==> InitPeriodicTable(InitPeriodicTable(w).0).1 == AlreadyInitialized
  {
  }
}
