/** The state App.tsx holds: the window registry, the icon positions and the search box, with
    the handlers that change them, and the glue to the window and icon controllers. */
module Desktop {
  import opened Wrappers
  import opened Types
  import opened Registry
  import Layout
  import Search
  import Strings
  import WindowGeometry
  import opened WindowController
  import opened DesktopIcon

  /** The width a window record asks its frame for. */
  function RequestedWidth(w: WindowState): Option<int>
  {
    if w.kind == ProjectWindow then Some(950)
    else if w.kind == AboutWindow then Some(340)
    else if w.id == "certification" then Some(150)
    else None
  }

  /** The height a window record asks its frame for. */
  function RequestedHeight(w: WindowState): Option<int>
  {
    if w.kind == ProjectWindow then Some(650)
    else if w.kind == AboutWindow then Some(520)
    else if w.id == "certification" then Some(180)
    else None
  }

  /** Every record named `certification` is of project type. */
  predicate CertificationIsProject(ws: seq<WindowState>)
  {
    forall i :: 0 <= i < |ws| && ws[i].id == "certification" ==> ws[i].kind == ProjectWindow
  }

  lemma ApplyKeepsCertification(ws: seq<WindowState>, op: Intent)
    requires |ws| > 0 && CertificationIsProject(ws)
    ensures CertificationIsProject(Apply(ws, op))
  {
  }

  /** No sequence of intents turns the certification record into another type. */
  lemma {:induction false} CertificationStaysProject(ws: seq<WindowState>, ops: seq<Intent>)
    requires |ws| > 0 && CertificationIsProject(ws)
    ensures CertificationIsProject(Run(ws, ops))
    decreases |ops|
  {
    if ops != [] {
      ApplyKeepsCertification(ws, ops[0]);
      CertificationStaysProject(Apply(ws, ops[0]), ops[1..]);
    }
  }

  lemma InitialCertificationIsProject()
    ensures CertificationIsProject(InitialWindows())
  {
  }

  /** The certification window starts with project type and no intent changes a type, so it
      always asks for 950 by 650: the 150 by 180 request is never made. */
  lemma CertificationRequest(ops: seq<Intent>)
    ensures var r := Run(InitialWindows(), ops);
      forall i :: 0 <= i < |r| && r[i].id == "certification" ==>
        RequestedWidth(r[i]) == Some(950) && RequestedHeight(r[i]) == Some(650)
  {
    InitialRegistry();
    InitialCertificationIsProject();
    CertificationStaysProject(InitialWindows(), ops);
  }

  class Desktop {
    const catalog: seq<Project>
    var windows: seq<WindowState>
    var folderPositions: map<string, Point>
    var searchQuery: string
    var isSearchOpen: bool

    /** The registry is never empty and stays well formed, and every folder has a place. */
    ghost predicate Valid()
      reads this
    {
      && WellFormed(windows) && |windows| > 0
      && (forall i :: 0 <= i < |FOLDERS| ==> FOLDERS[i].id in folderPositions)
    }

    constructor(catalog: seq<Project>, vp: Option<Viewport>)
      ensures Valid()
      ensures this.catalog == catalog && windows == InitialWindows()
      ensures forall id :: id in folderPositions <==> exists i :: 0 <= i < |FOLDERS| && FOLDERS[i].id == id
      ensures forall i :: 0 <= i < |FOLDERS| ==> folderPositions[FOLDERS[i].id] == Layout.IconSlot(vp, i)
      ensures searchQuery == [] && !isSearchOpen
    {
      var positions := Layout.GetInitialPositions(vp);
      this.catalog := catalog;
      InitialRegistry();
      windows := InitialWindows();
      folderPositions := positions;
      searchQuery := [];
      isSearchOpen := false;
    }

    method OpenWindow(id: string)
      requires Valid()
      modifies this
      ensures Valid()
      ensures windows == Registry.OpenWindow(old(windows), id)
      ensures HasId(old(windows), id) ==> OnTop(windows, id)
      ensures folderPositions == old(folderPositions) && searchQuery == old(searchQuery) && isSearchOpen == old(isSearchOpen)
    {
      OpenWindowSpec(windows, id);
      windows := Registry.OpenWindow(windows, id);
    }

    method OpenProjectWindow(p: Project)
      requires Valid()
      modifies this
      ensures Valid()
      ensures windows == Registry.OpenProjectWindow(old(windows), p)
      ensures OnTop(windows, ProjectWindowId(p))
      ensures folderPositions == old(folderPositions) && searchQuery == old(searchQuery) && isSearchOpen == old(isSearchOpen)
    {
      OpenProjectWindowSpec(windows, p);
      windows := Registry.OpenProjectWindow(windows, p);
    }

    method CloseWindow(id: string)
      requires Valid()
      modifies this
      ensures Valid()
      ensures windows == Registry.CloseWindow(old(windows), id)
      ensures forall other :: OnTop(old(windows), other) ==> OnTop(windows, other)
      ensures folderPositions == old(folderPositions) && searchQuery == old(searchQuery) && isSearchOpen == old(isSearchOpen)
    {
      CloseWindowSpec(windows, id);
      windows := Registry.CloseWindow(windows, id);
    }

    /** The yellow button is wired to the same handler as the red one. */
    method MinimizeWindow(id: string)
      requires Valid()
      modifies this
      ensures Valid()
      ensures windows == Registry.CloseWindow(old(windows), id)
      ensures folderPositions == old(folderPositions) && searchQuery == old(searchQuery) && isSearchOpen == old(isSearchOpen)
    {
      CloseWindow(id);
    }

    method FocusWindow(id: string)
      requires Valid()
      modifies this
      ensures Valid()
      ensures windows == Registry.FocusWindow(old(windows), id)
      ensures HasId(old(windows), id) ==> OnTop(windows, id)
      ensures folderPositions == old(folderPositions) && searchQuery == old(searchQuery) && isSearchOpen == old(isSearchOpen)
    {
      FocusWindowSpec(windows, id);
      var focused := Registry.FocusWindow(windows, id);
      assert WellFormed(focused) && |focused| == |windows| > 0;
      windows := focused;
    }

    method OpenProjectById(projectId: string)
      requires Valid()
      modifies this
      ensures Valid()
      ensures windows == Search.OpenProjectById(old(windows), catalog, projectId)
      ensures (forall p :: p in catalog ==> p.id != projectId) ==> windows == old(windows)
      ensures folderPositions == old(folderPositions) && searchQuery == old(searchQuery) && isSearchOpen == old(isSearchOpen)
    {
      Search.OpenProjectByIdSpec(windows, catalog, projectId);
      var found := Search.FindProject(catalog, projectId);
      if found.Some? {
        OpenProjectWindow(found.value);
      }
    }

    /** A dropped icon's new place; no other entry changes. */
    method UpdateFolderPosition(id: string, x: int, y: int)
      requires Valid()
      modifies this
      ensures Valid()
      ensures folderPositions == Layout.UpdateFolderPosition(old(folderPositions), id, x, y)
      ensures windows == old(windows) && searchQuery == old(searchQuery) && isSearchOpen == old(isSearchOpen)
    {
      folderPositions := Layout.UpdateFolderPosition(folderPositions, id, x, y);
    }

    /** A viewport change puts every icon back in the column, dropping any dragged places. */
    method OnViewportResize(vp: Option<Viewport>)
      requires Valid()
      modifies this
      ensures Valid()
      ensures forall id :: id in folderPositions <==> exists i :: 0 <= i < |FOLDERS| && FOLDERS[i].id == id
      ensures forall i :: 0 <= i < |FOLDERS| ==> folderPositions[FOLDERS[i].id] == Layout.IconSlot(vp, i)
      ensures windows == old(windows) && searchQuery == old(searchQuery) && isSearchOpen == old(isSearchOpen)
    {
      folderPositions := Layout.GetInitialPositions(vp);
    }

    /** What the search panel lists for the current query. */
    function Results(): seq<Project>
      reads this
    {
      Search.FilteredResults(catalog, searchQuery)
    }

    /** Clicking a tag opens the search with that tag as the query, which then lists every
        project carrying a non-blank tag. */
    method HandleTagClick(tag: string)
      modifies this
      ensures searchQuery == tag && isSearchOpen
      ensures forall p, k :: p in catalog && 0 <= k < |p.tags| && p.tags[k] == tag && !Strings.AllWhitespace(tag) ==> p in Results()
      ensures windows == old(windows) && folderPositions == old(folderPositions)
    {
      searchQuery := tag;
      isSearchOpen := true;
      forall p, k | p in catalog && 0 <= k < |p.tags| && p.tags[k] == tag && !Strings.AllWhitespace(tag)
        ensures p in Search.FilteredResults(catalog, tag)
      {
        Search.TagSearchFindsProject(catalog, p, k);
      }
    }

    /** Choosing a search result opens its project, closes the panel and clears the query. */
    method SelectResult(p: Project)
      requires Valid()
      modifies this
      ensures Valid()
      ensures windows == Registry.OpenProjectWindow(old(windows), p)
      ensures OnTop(windows, ProjectWindowId(p))
      ensures !isSearchOpen && searchQuery == [] && Results() == []
      ensures folderPositions == old(folderPositions)
    {
      OpenProjectWindow(p);
      isSearchOpen := false;
      searchQuery := [];
    }

    /** A press on a window's header starts a drag and focuses the window; the press also
        bubbles to the frame, which focuses it again, but the second focus changes nothing. */
    method PressHeader(c: Controller, clientX: real, clientY: real)
      requires Valid() && c.Valid()
      modifies this, c
      ensures Valid() && c.Valid()
      ensures windows == Registry.FocusWindow(old(windows), c.id)
      ensures c.isInteracting == (old(c.isInteracting) || !old(c.isMaximized))
      ensures c.size == old(c.size) && c.position == old(c.position) && c.isMaximized == old(c.isMaximized)
      ensures !old(c.isMaximized) ==> c.session == Some(c.Snapshot(Drag, clientX, clientY)) && c.hasBeenMoved
      ensures old(c.isMaximized) ==> c.session == old(c.session) && c.hasBeenMoved == old(c.hasBeenMoved)
      ensures folderPositions == old(folderPositions) && searchQuery == old(searchQuery) && isSearchOpen == old(isSearchOpen)
    {
      var started := c.StartDragging(clientX, clientY);
      if started {
        FocusWindow(c.id);
      }
      FocusIdempotent(old(windows), c.id);
      FocusWindow(c.id);
    }

    /** A press on the corner handle starts a resize and, with the bubbled press, focuses the
        window twice, which is focusing it once. */
    method PressResizeHandle(c: Controller, clientX: real, clientY: real)
      requires Valid() && c.Valid()
      modifies this, c
      ensures Valid() && c.Valid() && c.isInteracting
      ensures c.session == Some(c.Snapshot(Resize, clientX, clientY))
      ensures c.size == old(c.size) && c.position == old(c.position)
      ensures c.isMaximized == old(c.isMaximized) && c.hasBeenMoved == old(c.hasBeenMoved)
      ensures windows == Registry.FocusWindow(old(windows), c.id)
      ensures folderPositions == old(folderPositions) && searchQuery == old(searchQuery) && isSearchOpen == old(isSearchOpen)
    {
      c.StartResizing(clientX, clientY);
      FocusWindow(c.id);
      FocusIdempotent(old(windows), c.id);
      FocusWindow(c.id);
    }

    /** Releasing a dragged icon: the icon reports its place, the desktop records it, and the
        icon, now idle, takes the recorded place, which is where it was dropped. A release while
        idle does nothing, since the icon's sync effect runs only when its inputs change. */
    method ReleaseIcon(icon: Icon)
      requires Valid() && icon.Valid()
      modifies this, icon
      ensures Valid() && icon.Valid() && !icon.isDragging
      ensures old(icon.isDragging) ==> folderPositions == Layout.UpdateFolderPosition(old(folderPositions), icon.id, old(icon.pos).x, old(icon.pos).y)
      ensures old(icon.isDragging) ==> icon.pos == old(icon.pos)
      ensures !old(icon.isDragging) ==> folderPositions == old(folderPositions) && icon.pos == old(icon.pos)
      ensures windows == old(windows) && searchQuery == old(searchQuery) && isSearchOpen == old(isSearchOpen)
    {
      var report := icon.MouseUp();
      if report.Some? {
        UpdateFolderPosition(icon.id, report.value.x, report.value.y);
        var p := Layout.IconProp(folderPositions, icon.id);
        icon.SyncProps(p.x, p.y);
      }
    }

    /** A window component's controller starts from the size its record asks for. */
    method MountWindow(w: WindowState, vp: Option<Viewport>) returns (c: Controller)
      ensures fresh(c) && c.Valid() && c.id == w.id
      ensures c.size == WindowGeometry.ResponsiveSize(w.id, RequestedWidth(w), RequestedHeight(w), vp)
      ensures c.position == WindowGeometry.CenterPos(w.id, RequestedWidth(w), RequestedHeight(w), w.zIndex, vp)
    {
      c := new Controller(w.id, RequestedWidth(w), RequestedHeight(w), w.zIndex, vp);
    }
  }

  /** On a wide screen a project window is 950 by 650, shrunk to leave 40 pixels across and 60
      down. */
  lemma ProjectWindowSize(w: WindowState, vp: Viewport)
    requires w.kind == ProjectWindow && vp.width >= 1024
    ensures var s := WindowGeometry.ResponsiveSize(w.id, RequestedWidth(w), RequestedHeight(w), Some(vp));
      && s.width == WindowGeometry.Min(950.0, (vp.width - 40) as real)
      && s.height == WindowGeometry.Min(650.0, (vp.height - 60) as real)
  {
  }
}
