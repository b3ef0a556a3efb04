/** The draggable folder icon of components/DesktopIcon.tsx. */
module DesktopIcon {
  import opened Wrappers
  import opened Types

  /** Where the pointer and the icon were when the drag began. */
  datatype Anchor = Anchor(startX: int, startY: int, startPos: Point)

  /** The icon's place for a pointer at (clientX, clientY): the start place plus the pointer's
      travel since the press. */
  function DragTarget(a: Anchor, clientX: int, clientY: int): Point
  {
    Point(a.startPos.x + (clientX - a.startX), a.startPos.y + (clientY - a.startY))
  }

  /** The target follows the pointer one for one, and a pointer back at its start puts the icon
      back at its start. */
  lemma DragTargetSpec(a: Anchor, clientX: int, clientY: int, dx: int, dy: int)
    ensures DragTarget(a, a.startX, a.startY) == a.startPos
    ensures var p, q := DragTarget(a, clientX, clientY), DragTarget(a, clientX + dx, clientY + dy);
      q.x - p.x == dx && q.y - p.y == dy
  {
  }

  class Icon {
    const id: string
    var pos: Point
    var isDragging: bool
    var dragRef: Option<Anchor>

    /** An anchor is held exactly while a drag is under way. */
    ghost predicate Valid()
      reads this
    {
      isDragging <==> dragRef.Some?
    }

    /** An icon starts at the coordinates it is handed. */
    constructor(id: string, initialX: int, initialY: int)
      ensures Valid() && this.id == id
      ensures pos == Point(initialX, initialY) && !isDragging
    {
      this.id := id;
      pos := Point(initialX, initialY);
      isDragging := false;
      dragRef := None;
    }

    /** A press starts a drag from the current place, for the left button only. */
    method MouseDown(button: int, clientX: int, clientY: int)
      requires Valid()
      modifies this
      ensures Valid() && pos == old(pos)
      ensures button == 0 ==> isDragging && dragRef == Some(Anchor(clientX, clientY, old(pos)))
      ensures button != 0 ==> isDragging == old(isDragging) && dragRef == old(dragRef)
    {
      if button != 0 {
        return;
      }
      isDragging := true;
      dragRef := Some(Anchor(clientX, clientY, pos));
    }

    /** A move during a drag places the icon from the anchor alone; when idle it does nothing. */
    method MouseMove(clientX: int, clientY: int)
      requires Valid()
      modifies this
      ensures Valid() && isDragging == old(isDragging) && dragRef == old(dragRef)
      ensures old(isDragging) ==> pos == DragTarget(old(dragRef).value, clientX, clientY)
      ensures !old(isDragging) ==> pos == old(pos)
    {
      if !isDragging || dragRef.None? {
        return;
      }
      pos := DragTarget(dragRef.value, clientX, clientY);
    }

    /** Releasing ends a drag and reports the place once; a release while idle reports nothing. */
    method MouseUp() returns (report: Option<Point>)
      requires Valid()
      modifies this
      ensures Valid() && !isDragging && pos == old(pos)
      ensures report == (if old(isDragging) then Some(old(pos)) else None)
    {
      report := None;
      if isDragging {
        isDragging := false;
        if dragRef.Some? {
          report := Some(pos);
        }
        dragRef := None;
      }
    }

    /** New coordinates from the owner replace the place while idle and are ignored during a drag. */
    method SyncProps(initialX: int, initialY: int)
      modifies this
      ensures isDragging == old(isDragging) && dragRef == old(dragRef)
      ensures !isDragging ==> pos == Point(initialX, initialY)
      ensures isDragging ==> pos == old(pos)
    {
      if !isDragging {
        pos := Point(initialX, initialY);
      }
    }
  }

  /** A whole left-button drag: the icon ends at its start plus the pointer's travel, that place
      is reported once, and a move after the release changes nothing. */
  method DragGesture(icon: Icon, fromX: int, fromY: int, toX: int, toY: int, laterX: int, laterY: int)
    returns (report: Option<Point>)
    requires icon.Valid() && !icon.isDragging
    modifies icon
    ensures icon.Valid() && !icon.isDragging
    ensures icon.pos == Point(old(icon.pos).x + (toX - fromX), old(icon.pos).y + (toY - fromY))
    ensures report == Some(icon.pos)
  {
    icon.MouseDown(0, fromX, fromY);
    icon.MouseMove(toX, toY);
    report := icon.MouseUp();
    icon.MouseMove(laterX, laterY);
  }

  /** A press with any other button leaves the icon idle, so moves and releases do nothing. */
  method OtherButtonGesture(icon: Icon, button: int, fromX: int, fromY: int, toX: int, toY: int)
    returns (report: Option<Point>)
    requires icon.Valid() && !icon.isDragging && button != 0
    modifies icon
    ensures icon.Valid() && !icon.isDragging && icon.pos == old(icon.pos) && report.None?
  {
    icon.MouseDown(button, fromX, fromY);
    icon.MouseMove(toX, toY);
    report := icon.MouseUp();
  }
}
