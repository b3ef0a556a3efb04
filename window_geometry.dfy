/** The pure geometry of components/Window.tsx: default size and position for a viewport, and
    the clamped arithmetic of a resize or drag step. Lengths are reals, since the defaults halve
    and scale the viewport. */
module WindowGeometry {
  import opened Wrappers
  import opened Types

  datatype Size = Size(width: real, height: real)
  datatype Position = Position(x: real, y: real)

  function Min(a: real, b: real): (r: real)
    ensures r <= a && r <= b && (r == a || r == b)
  {
    if a <= b then a else b
  }

  function Max(a: real, b: real): (r: real)
    ensures r >= a && r >= b && (r == a || r == b)
  {
    if a >= b then a else b
  }

  /** JavaScript's `v || d` on an optional number: a missing value and `0` both fall back. */
  function OrDefault(v: Option<int>, d: int): (r: int)
    ensures v.Some? && v.value != 0 ==> r == v.value
    ensures v.None? || v.value == 0 ==> r == d
  {
    if v.Some? && v.value != 0 then v.value else d
  }

  predicate IsMobileWidth(width: int) { width < 640 }
  predicate IsTabletWidth(width: int) { 640 <= width < 1024 }

  /** The size a desktop window asks for before it is fitted to the viewport. */
  function DesktopRequest(id: string, initialWidth: Option<int>, initialHeight: Option<int>, H: int): Size
  {
    var cvHeight := if H - 80 < 850 then H - 80 else 850;
    Size(
      OrDefault(initialWidth, if id == "about" then 340 else if id == "cv" then 800 else 850) as real,
      OrDefault(initialHeight, if id == "about" then 520 else if id == "cv" then cvHeight else 600) as real)
  }

  /** The size a window takes for the viewport, given the size its owner asks for. */
  function ResponsiveSize(id: string, initialWidth: Option<int>, initialHeight: Option<int>, vp: Option<Viewport>): Size
  {
    if vp.None? then Size(800.0, 500.0)
    else
      var W, H := vp.value.width as real, vp.value.height as real;
      if IsMobileWidth(vp.value.width) then
        if id == "about" then Size(W * 0.9, Min(480.0, H * 0.7))
        else if id == "certification" then Size(180.0, 240.0)
        else Size(W - 16.0, H - 120.0)
      else if IsTabletWidth(vp.value.width) then
        if id == "about" then Size(340.0, 520.0)
        else if id == "cv" then Size(Min(800.0, W - 60.0), H - 120.0)
        else Size(Min(OrDefault(initialWidth, 700) as real, W - 40.0), Min(OrDefault(initialHeight, 550) as real, H - 120.0))
      else
        var req := DesktopRequest(id, initialWidth, initialHeight, vp.value.height);
        Size(Min(req.width, W - 40.0), Min(req.height, H - 60.0))
  }

  /** On a desktop-wide viewport the window is its request, shrunk to leave 40 pixels across and
      60 down: never larger than either. */
  lemma DesktopSizeFits(id: string, iw: Option<int>, ih: Option<int>, vp: Viewport)
    requires vp.width >= 1024
    ensures var s := ResponsiveSize(id, iw, ih, Some(vp)); var req := DesktopRequest(id, iw, ih, vp.height);
      && s.width <= (vp.width - 40) as real && s.height <= (vp.height - 60) as real
      && s.width <= req.width && s.height <= req.height
      && (s.width == req.width || s.width == (vp.width - 40) as real)
      && (s.height == req.height || s.height == (vp.height - 60) as real)
  {
  }

  /** On a tablet-wide viewport the About window is always 340 by 520, the CV window is 800 wide
      or the viewport less 60, whichever is smaller, and any other window is its request (700 by 550 by default) shrunk to fit. */
  lemma TabletSize(id: string, iw: Option<int>, ih: Option<int>, vp: Viewport)
    requires 640 <= vp.width < 1024
    ensures var s := ResponsiveSize(id, iw, ih, Some(vp));
      && (id == "about" ==> s == Size(340.0, 520.0))
      && (id == "cv" ==> s.width == Min(800.0, (vp.width - 60) as real) && s.height == (vp.height - 120) as real)
      && (id != "about" && id != "cv" ==>
            s == Size(Min(OrDefault(iw, 700) as real, (vp.width - 40) as real),
                      Min(OrDefault(ih, 550) as real, (vp.height - 120) as real))
            && s.width <= (vp.width - 40) as real && s.height <= (vp.height - 120) as real)
  {
  }

  /** On a narrow viewport a window fills the screen but for a margin, whatever size was asked
      for; only About and the certification window differ. */
  lemma MobileSize(id: string, iw: Option<int>, ih: Option<int>, iw2: Option<int>, ih2: Option<int>, vp: Viewport)
    requires vp.width < 640
    ensures ResponsiveSize(id, iw, ih, Some(vp)) == ResponsiveSize(id, iw2, ih2, Some(vp))
    ensures id == "certification" ==> ResponsiveSize(id, iw, ih, Some(vp)) == Size(180.0, 240.0)
    ensures id != "about" && id != "certification" ==>
      ResponsiveSize(id, iw, ih, Some(vp)) == Size((vp.width - 16) as real, (vp.height - 120) as real)
    ensures id == "about" ==>
      ResponsiveSize(id, iw, ih, Some(vp)) == Size(vp.width as real * 0.9, Min(480.0, vp.height as real * 0.7))
      && ResponsiveSize(id, iw, ih, Some(vp)).height <= 480.0
  {
  }

  /** The cascade offset of a non-About, non-CV window: windows step down and right by 25 pixels
      per level above 10, wrapping after six steps; none on a narrow screen. */
  function StaggerOffset(zIndex: int, mobile: bool): (r: int)
    ensures 0 <= r <= 125 && r % 25 == 0
  {
    var staggerIndex := if zIndex - 10 > 0 then zIndex - 10 else 0;
    if mobile then 0 else (staggerIndex % 6) * 25
  }

  /** The cascade repeats every six levels. */
  lemma StaggerPeriodic(zIndex: int)
    requires zIndex >= 10
    ensures StaggerOffset(zIndex + 6, false) == StaggerOffset(zIndex, false)
    ensures StaggerOffset(zIndex + 1, false) == (if StaggerOffset(zIndex, false) == 125 then 0 else StaggerOffset(zIndex, false) + 25)
  {
    var k := zIndex - 10;
    var q := k / 6;
    assert k == 6 * q + k % 6;
    assert k + 6 == 6 * (q + 1) + k % 6;
    assert (k + 6) % 6 == k % 6;
    if k % 6 == 5 {
      assert k + 1 == 6 * (q + 1);
      assert (k + 1) % 6 == 0;
    } else {
      assert k + 1 == 6 * q + (k % 6 + 1);
      assert (k + 1) % 6 == k % 6 + 1;
    }
  }

  /** Where a window first appears: About centred, CV against the right edge, others centred
      and cascaded by their stacking level. */
  function CenterPos(id: string, initialWidth: Option<int>, initialHeight: Option<int>, zIndex: int, vp: Option<Viewport>): Position
  {
    if vp.None? then Position(100.0, 100.0)
    else
      var size := ResponsiveSize(id, initialWidth, initialHeight, vp);
      var W, H := vp.value.width as real, vp.value.height as real;
      var mobile := IsMobileWidth(vp.value.width);
      var centerX := (W - size.width) / 2.0;
      var centerY := (H - size.height) / 2.0;
      if id == "about" then Position(centerX, Max(40.0, centerY))
      else if id == "cv" && !mobile then Position(W - size.width - 40.0, centerY)
      else
        var offset := StaggerOffset(zIndex, mobile) as real;
        Position(centerX + offset, Max(40.0, centerY + offset))
  }

  /** Without a browser window the defaults are 800 by 500 at (100, 100). */
  lemma NoViewportDefaults(id: string, iw: Option<int>, ih: Option<int>, zIndex: int)
    ensures ResponsiveSize(id, iw, ih, None) == Size(800.0, 500.0)
    ensures CenterPos(id, iw, ih, zIndex, None) == Position(100.0, 100.0)
  {
  }

  /** The placement promises: About is centred across the viewport, a wide CV window keeps 40
      pixels to the right edge and is centred vertically, and every window except a wide CV
      starts at least 40 pixels down, where it clears the 32-pixel menu bar. */
  lemma CenterPosSpec(id: string, iw: Option<int>, ih: Option<int>, zIndex: int, vp: Viewport)
    ensures var s := ResponsiveSize(id, iw, ih, Some(vp)); var p := CenterPos(id, iw, ih, zIndex, Some(vp));
      var cy := (vp.height as real - s.height) / 2.0;
      && (id == "about" ==> p.x + s.width / 2.0 == vp.width as real / 2.0 && p.y == Max(40.0, cy))
      && (id == "cv" && vp.width >= 640 ==> p.x + s.width == (vp.width - 40) as real && p.y == cy)
      && (!(id == "cv" && vp.width >= 640) ==> p.y >= 40.0)
      && (id != "about" && !(id == "cv" && vp.width >= 640) ==>
            p.x + s.width / 2.0 == vp.width as real / 2.0 + StaggerOffset(zIndex, vp.width < 640) as real)
      && (id != "about" && !(id == "cv" && vp.width >= 640) ==>
            p.y == Max(40.0, cy + StaggerOffset(zIndex, vp.width < 640) as real))
  {
  }

  /** One resize step: the snapshot size plus the pointer's travel, never below 200 by 150. */
  function ResizedSize(start: Size, dx: real, dy: real): (r: Size)
    ensures r.width >= 200.0 && r.height >= 150.0
    ensures r.width == start.width + dx || r.width == 200.0
    ensures r.height == start.height + dy || r.height == 150.0
    ensures start.width + dx >= 200.0 ==> r.width == start.width + dx
    ensures start.height + dy >= 150.0 ==> r.height == start.height + dy
  {
    Size(Max(200.0, start.width + dx), Max(150.0, start.height + dy))
  }

  /** One drag step: the snapshot position plus the pointer's travel, with the top edge kept
      below the 32-pixel menu bar; the horizontal position is not clamped. */
  function DraggedPos(start: Position, dx: real, dy: real): (r: Position)
    ensures r.x == start.x + dx
    ensures r.y >= 32.0
    ensures r.y == start.y + dy || r.y == 32.0
    ensures start.y + dy >= 32.0 ==> r.y == start.y + dy
  {
    Position(start.x + dx, Max(32.0, start.y + dy))
  }

  /** Moving the pointer back to where the drag began puts a window that started below the bar
      back where it was; the clamps only ever move it further down or wider. */
  lemma DragReturns(start: Position, size: Size)
    requires start.y >= 32.0 && size.width >= 200.0 && size.height >= 150.0
    ensures DraggedPos(start, 0.0, 0.0) == start
    ensures ResizedSize(size, 0.0, 0.0) == size
  {
  }

  /** The clamped step is monotone in the pointer's travel. */
  lemma ResizeMonotone(start: Size, dx1: real, dy1: real, dx2: real, dy2: real)
    requires dx1 <= dx2 && dy1 <= dy2
    ensures ResizedSize(start, dx1, dy1).width <= ResizedSize(start, dx2, dy2).width
    ensures ResizedSize(start, dx1, dy1).height <= ResizedSize(start, dx2, dy2).height
  {
  }
}
