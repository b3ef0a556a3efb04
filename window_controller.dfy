/** The per-window controller of components/Window.tsx: stored size and position, the
    maximize flag, and the drag or resize session started from the header or the corner handle. */
module WindowController {
  import opened Wrappers
  import opened Types
  import opened WindowGeometry

  datatype InteractionKind = Resize | Drag

  /** The snapshot taken when a session starts: pointer, size and position at that moment. */
  datatype Session = Session(kind: InteractionKind, startX: real, startY: real,
                             startW: real, startH: real, startXPos: real, startYPos: real)

  /** The rectangle the window occupies on screen. */
  datatype Frame = Frame(left: real, top: real, width: real, height: real)

  class Controller {
    const id: string
    const initialWidth: Option<int>
    const initialHeight: Option<int>
    var size: Size
    var position: Position
    var isMaximized: bool
    var isInteracting: bool
    var hasBeenMoved: bool
    var session: Option<Session>

    /** A session is recorded exactly while an interaction is under way. */
    ghost predicate Valid()
      reads this
    {
      isInteracting <==> session.Some?
    }

    /** A window first takes its responsive size and its default position for the level it
        is created at. */
    constructor(id: string, initialWidth: Option<int>, initialHeight: Option<int>, zIndex: int, vp: Option<Viewport>)
      ensures Valid()
      ensures this.id == id && this.initialWidth == initialWidth && this.initialHeight == initialHeight
      ensures size == ResponsiveSize(id, initialWidth, initialHeight, vp)
      ensures position == CenterPos(id, initialWidth, initialHeight, zIndex, vp)
      ensures !isMaximized && !isInteracting && !hasBeenMoved && session.None?
    {
      this.id := id;
      this.initialWidth := initialWidth;
      this.initialHeight := initialHeight;
      size := ResponsiveSize(id, initialWidth, initialHeight, vp);
      position := CenterPos(id, initialWidth, initialHeight, zIndex, vp);
      isMaximized := false;
      isInteracting := false;
      hasBeenMoved := false;
      session := None;
    }

    function Snapshot(kind: InteractionKind, clientX: real, clientY: real): Session
      reads this
    {
      Session(kind, clientX, clientY, size.width, size.height, position.x, position.y)
    }

    /** A press on the corner handle starts a resize session; it is not refused while maximized. */
    method StartResizing(clientX: real, clientY: real)
      modifies this
      ensures Valid()
      ensures session == Some(old(Snapshot(Resize, clientX, clientY))) && isInteracting
      ensures size == old(size) && position == old(position)
      ensures isMaximized == old(isMaximized) && hasBeenMoved == old(hasBeenMoved)
    {
      isInteracting := true;
      session := Some(Snapshot(Resize, clientX, clientY));
    }

    /** A press on the header starts a drag session and marks the window as moved, unless the
        window is maximized, when nothing happens. */
    method StartDragging(clientX: real, clientY: real) returns (started: bool)
      requires Valid()
      modifies this
      ensures Valid()
      ensures started == !old(isMaximized)
      ensures started ==> session == Some(old(Snapshot(Drag, clientX, clientY))) && isInteracting && hasBeenMoved
      ensures !started ==> session == old(session) && isInteracting == old(isInteracting) && hasBeenMoved == old(hasBeenMoved)
      ensures size == old(size) && position == old(position) && isMaximized == old(isMaximized)
    {
      if isMaximized {
        return false;
      }
      isInteracting := true;
      hasBeenMoved := true;
      session := Some(Snapshot(Drag, clientX, clientY));
      return true;
    }

    /** A pointer move during a session: the result is computed from the snapshot and the
        pointer alone, so earlier moves of the same session leave no trace. */
    method HandleMove(clientX: real, clientY: real)
      requires Valid()
      modifies this
      ensures Valid()
      ensures session == old(session) && isInteracting == old(isInteracting)
      ensures isMaximized == old(isMaximized) && hasBeenMoved == old(hasBeenMoved)
      ensures old(session).None? ==> size == old(size) && position == old(position)
      ensures old(session).Some? && old(session).value.kind == Resize ==>
        var s := old(session).value;
        size == ResizedSize(Size(s.startW, s.startH), clientX - s.startX, clientY - s.startY) && position == old(position)
      ensures old(session).Some? && old(session).value.kind == Drag ==>
        var s := old(session).value;
        position == DraggedPos(Position(s.startXPos, s.startYPos), clientX - s.startX, clientY - s.startY) && size == old(size)
    {
      match session
      case None =>
      case Some(s) =>
        var deltaX := clientX - s.startX;
        var deltaY := clientY - s.startY;
        if s.kind == Resize {
          size := ResizedSize(Size(s.startW, s.startH), deltaX, deltaY);
        } else {
          position := DraggedPos(Position(s.startXPos, s.startYPos), deltaX, deltaY);
        }
    }

    /** Releasing the pointer ends the session and changes nothing else. */
    method HandleEnd()
      modifies this
      ensures Valid()
      ensures session.None? && !isInteracting
      ensures size == old(size) && position == old(position)
      ensures isMaximized == old(isMaximized) && hasBeenMoved == old(hasBeenMoved)
    {
      session := None;
      isInteracting := false;
    }

    /** A viewport change re-lays the window out only while it was never dragged and is not
        maximized. The level is the one the listener captured when it was installed. */
    method OnViewportResize(vp: Option<Viewport>, capturedZIndex: int)
      modifies this
      ensures !old(hasBeenMoved) && !old(isMaximized) ==>
        size == ResponsiveSize(id, initialWidth, initialHeight, vp)
        && position == CenterPos(id, initialWidth, initialHeight, capturedZIndex, vp)
      ensures old(hasBeenMoved) || old(isMaximized) ==> size == old(size) && position == old(position)
      ensures isMaximized == old(isMaximized) && hasBeenMoved == old(hasBeenMoved)
      ensures isInteracting == old(isInteracting) && session == old(session)
    {
      if !hasBeenMoved && !isMaximized {
        size := ResponsiveSize(id, initialWidth, initialHeight, vp);
        position := CenterPos(id, initialWidth, initialHeight, capturedZIndex, vp);
      }
    }

    /** The green button flips the maximize flag and nothing else, so the stored size and
        position come back when it is pressed again. */
    method ToggleMaximize()
      modifies this
      ensures isMaximized == !old(isMaximized)
      ensures size == old(size) && position == old(position)
      ensures hasBeenMoved == old(hasBeenMoved) && isInteracting == old(isInteracting) && session == old(session)
    {
      isMaximized := !isMaximized;
    }

    /** What is drawn: the whole area below the menu bar when maximized, the stored frame otherwise. */
    function DisplayedFrame(vp: Viewport): (f: Frame)
      reads this
      ensures isMaximized ==> f.top == 32.0 && f.left == 0.0 && f.top + f.height == vp.height as real && f.width == vp.width as real
      ensures !isMaximized ==> f == Frame(position.x, position.y, size.width, size.height)
    {
      if isMaximized then Frame(0.0, 32.0, vp.width as real, vp.height as real - 32.0)
      else Frame(position.x, position.y, size.width, size.height)
    }

    /** The corner handle is offered only on a wide screen, not while maximized, and never on About. */
    predicate ShowsResizeHandle(vp: Viewport)
      reads this
    {
      !isMaximized && vp.width >= 1024 && id != "about"
    }
  }

  /** Maximizing and restoring gives back the frame the window had. */
  method MaximizeRoundTrip(c: Controller, vp: Viewport)
    modifies c
    ensures c.isMaximized == old(c.isMaximized)
    ensures c.DisplayedFrame(vp) == old(c.DisplayedFrame(vp))
  {
    c.ToggleMaximize();
    c.ToggleMaximize();
  }

  /** A whole drag gesture: press on the header, move, release. The window ends at the snapshot
      position plus the pointer's travel (top edge kept below the bar), its size is unchanged,
      and it no longer follows viewport changes. */
  method DragGesture(c: Controller, fromX: real, fromY: real, toX: real, toY: real)
    requires c.Valid() && !c.isMaximized
    modifies c
    ensures c.Valid() && !c.isInteracting && c.hasBeenMoved
    ensures c.position == DraggedPos(old(c.position), toX - fromX, toY - fromY)
    ensures c.size == old(c.size)
  {
    var started := c.StartDragging(fromX, fromY);
    c.HandleMove(toX, toY);
    c.HandleEnd();
  }

  /** A whole resize gesture from the corner handle: the size ends at the snapshot plus the
      pointer's travel, clamped to at least 200 by 150, and the position is unchanged. */
  method ResizeGesture(c: Controller, fromX: real, fromY: real, toX: real, toY: real)
    requires c.Valid()
    modifies c
    ensures c.Valid() && !c.isInteracting
    ensures c.size == ResizedSize(old(c.size), toX - fromX, toY - fromY)
    ensures c.size.width >= 200.0 && c.size.height >= 150.0
    ensures c.position == old(c.position) && c.hasBeenMoved == old(c.hasBeenMoved)
  {
    c.StartResizing(fromX, fromY);
    c.HandleMove(toX, toY);
    c.HandleEnd();
  }
}
