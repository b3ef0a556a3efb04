/**
  The window registry held by the desktop shell: a list of window records whose
  `zIndex` gives the stacking order (the highest is on top). Every operation is a
  pure transform of the list; the desktop applies them to its held state.
 */
module Registry {
  import opened Wrappers
  import opened Types

  /** Records are never removed and ids never repeat. */
  predicate IdsDistinct(ws: seq<WindowState>)
  {
    forall i, j :: 0 <= i < j < |ws| ==> ws[i].id != ws[j].id
  }

  /** No two records share a stacking level. */
  predicate ZDistinct(ws: seq<WindowState>)
  {
    forall i, j :: 0 <= i < j < |ws| ==> ws[i].zIndex != ws[j].zIndex
  }

  predicate WellFormed(ws: seq<WindowState>)
  {
    IdsDistinct(ws) && ZDistinct(ws)
  }

  predicate HasId(ws: seq<WindowState>, id: string)
  {
    exists i :: 0 <= i < |ws| && ws[i].id == id
  }

  /** Record `i` is strictly above every other record. */
  predicate HoldsUniqueMax(ws: seq<WindowState>, i: int)
  {
    0 <= i < |ws| && forall j :: 0 <= j < |ws| && j != i ==> ws[j].zIndex < ws[i].zIndex
  }

  /** The record with this id is strictly above every other record. */
  predicate OnTop(ws: seq<WindowState>, id: string)
  {
    exists i :: 0 <= i < |ws| && HoldsUniqueMax(ws, i) && ws[i].id == id
  }

  /** `Math.max(...ws.map(w => w.zIndex))` */
  function MaxZ(ws: seq<WindowState>): (m: int)
    requires |ws| > 0
    ensures forall i :: 0 <= i < |ws| ==> ws[i].zIndex <= m
    ensures exists i :: 0 <= i < |ws| && ws[i].zIndex == m
  {
    if |ws| == 1 then ws[0].zIndex
    else
      var rest := MaxZ(ws[1..]);
      assert forall i :: 1 <= i < |ws| ==> ws[i] == ws[1..][i - 1];
      if ws[0].zIndex > rest then ws[0].zIndex else rest
  }

  /** `ws.find(w => w.id === id)`, as an index. */
  function FindIndex(ws: seq<WindowState>, id: string): (r: Option<nat>)
    ensures r.Some? ==> r.value < |ws| && ws[r.value].id == id
    ensures r.Some? ==> forall j :: 0 <= j < r.value ==> ws[j].id != id
    ensures r.None? <==> !HasId(ws, id)
  {
    if |ws| == 0 then None
    else if ws[0].id == id then Some(0)
    else
      match FindIndex(ws[1..], id)
      case None => None
      case Some(k) => Some(k + 1)
  }

  function FolderRecord(f: Folder, idx: int): WindowState
  {
    WindowState(f.id, f.name, false, false, idx + 10, FolderWindow, None)
  }

  /** The registry at start-up: the folders at 10, 11, ..., then the CV, About and
      certification windows at 50, 51, 52, all closed. */
  function InitialWindows(): seq<WindowState>
  {
    seq(|FOLDERS|, i requires 0 <= i < |FOLDERS| => FolderRecord(FOLDERS[i], i)) + [
      WindowState("cv", "Curriculum Vitae", false, false, 50, CvWindow, None),
      WindowState("about", "About Rakey Yang", false, false, 51, AboutWindow, None),
      WindowState("certification", "Regulatory Certification", false, false, 52, ProjectWindow, None)
    ]
  }

  /** `openWindow(id)`: the matching record opens, un-minimises and goes on top. */
  function OpenWindow(ws: seq<WindowState>, id: string): seq<WindowState>
  {
    if |ws| == 0 then ws
    else
      var top := MaxZ(ws);
      seq(|ws|, i requires 0 <= i < |ws| =>
        if ws[i].id == id then ws[i].(isOpen := true, isMinimized := false, zIndex := top + 1) else ws[i])
  }

  function ProjectWindowId(p: Project): string
  {
    "project-" + p.id
  }

  /** `openProjectWindow(p)`: reuse the project's record if there is one, else append one. */
  function OpenProjectWindow(ws: seq<WindowState>, p: Project): seq<WindowState>
    requires |ws| > 0
  {
    var pid := ProjectWindowId(p);
    var top := MaxZ(ws);
    if HasId(ws, pid) then
      seq(|ws|, i requires 0 <= i < |ws| =>
        if ws[i].id == pid then ws[i].(isOpen := true, zIndex := top + 1) else ws[i])
    else
      ws + [WindowState(pid, p.title, true, false, top + 1, ProjectWindow, Some(p))]
  }

  /** `closeWindow(id)`, also wired to the minimise button: only `isOpen` changes. */
  function CloseWindow(ws: seq<WindowState>, id: string): seq<WindowState>
  {
    seq(|ws|, i requires 0 <= i < |ws| => if ws[i].id == id then ws[i].(isOpen := false) else ws[i])
  }

  /** `focusWindow(id)`: a window already at the maximum is left as it is; otherwise it is raised. */
  function FocusWindow(ws: seq<WindowState>, id: string): seq<WindowState>
  {
    if |ws| == 0 then ws
    else
      var maxZ := MaxZ(ws);
      var target := FindIndex(ws, id);
      if target.Some? && ws[target.value].zIndex == maxZ then ws
      else seq(|ws|, i requires 0 <= i < |ws| => if ws[i].id == id then ws[i].(zIndex := maxZ + 1) else ws[i])
  }

  // ---------------------------------------------------------------- properties

  lemma InitialRegistry()
    ensures var ws := InitialWindows();
      && |ws| == 7
      && [ws[0].id, ws[1].id, ws[2].id, ws[3].id, ws[4].id, ws[5].id, ws[6].id]
         == ["hci", "game_xr", "graphic", "web_ai", "cv", "about", "certification"]
      && [ws[0].zIndex, ws[1].zIndex, ws[2].zIndex, ws[3].zIndex, ws[4].zIndex, ws[5].zIndex, ws[6].zIndex]
         == [10, 11, 12, 13, 50, 51, 52]
      && (forall i :: 0 <= i < 4 ==> ws[i].kind == FolderWindow && ws[i].title == FOLDERS[i].name)
      && (forall i :: 0 <= i < 7 ==> !ws[i].isOpen && !ws[i].isMinimized && ws[i].projectData.None?)
      && WellFormed(ws)
  {
    var ws := InitialWindows();
    assert ws[0].id == "hci" && ws[1].id == "game_xr" && ws[2].id == "graphic" && ws[3].id == "web_ai";
  }

  /** Everything but the open/minimised flags and the stacking level is kept. */
  predicate SameRecord(a: WindowState, b: WindowState)
  {
    a.id == b.id && a.title == b.title && a.kind == b.kind && a.projectData == b.projectData
  }

  /** Two lists with the same ids and levels, position by position. */
  predicate SameLevels(a: seq<WindowState>, b: seq<WindowState>)
  {
    |a| == |b| && forall i :: 0 <= i < |a| ==> a[i].id == b[i].id && a[i].zIndex == b[i].zIndex
  }

  /** A level no other record exceeds is the maximum. */
  lemma MaxZIs(ws: seq<WindowState>, t: int)
    requires 0 <= t < |ws| && forall i :: 0 <= i < |ws| ==> ws[i].zIndex <= ws[t].zIndex
    ensures MaxZ(ws) == ws[t].zIndex
  {
    var k :| 0 <= k < |ws| && ws[k].zIndex == MaxZ(ws);
  }

  /** Lookup by id depends only on the ids. */
  lemma SameIdsSameIndex(a: seq<WindowState>, b: seq<WindowState>, id: string)
    requires |a| == |b| && forall i :: 0 <= i < |a| ==> a[i].id == b[i].id
    ensures FindIndex(a, id) == FindIndex(b, id)
  {
  }

  lemma SameLevelsSameTop(a: seq<WindowState>, b: seq<WindowState>, id: string)
    requires SameLevels(a, b) && OnTop(a, id)
    ensures OnTop(b, id)
  {
    var t :| 0 <= t < |a| && HoldsUniqueMax(a, t) && a[t].id == id;
    assert HoldsUniqueMax(b, t);
  }

  /** The stacking order depends only on ids and levels. */
  lemma SameLevelsSameOrder(a: seq<WindowState>, b: seq<WindowState>)
    requires SameLevels(a, b)
    ensures |a| > 0 ==> MaxZ(a) == MaxZ(b)
    ensures WellFormed(a) ==> WellFormed(b)
    ensures forall id :: OnTop(a, id) ==> OnTop(b, id)
  {
    if |a| > 0 {
      var k :| 0 <= k < |a| && a[k].zIndex == MaxZ(a);
      assert forall i :: 0 <= i < |b| ==> b[i].zIndex == a[i].zIndex <= MaxZ(a);
      MaxZIs(b, k);
    }
    forall id | OnTop(a, id) ensures OnTop(b, id) {
      SameLevelsSameTop(a, b, id);
    }
  }

  /** Giving exactly one record the level `MaxZ + 1` keeps the list well formed and puts
      that record strictly on top. */
  lemma RaiseOne(ws: seq<WindowState>, r: seq<WindowState>, t: int)
    requires WellFormed(ws) && 0 <= t < |ws| && |r| == |ws|
    requires forall i :: 0 <= i < |ws| ==> r[i].id == ws[i].id
    requires forall i :: 0 <= i < |ws| && i != t ==> r[i].zIndex == ws[i].zIndex
    requires r[t].zIndex == MaxZ(ws) + 1
    ensures WellFormed(r) && HoldsUniqueMax(r, t) && OnTop(r, ws[t].id) && MaxZ(r) == MaxZ(ws) + 1
  {
    assert HoldsUniqueMax(r, t) by {
      assert forall i :: 0 <= i < |ws| && i != t ==> r[i].zIndex <= MaxZ(ws);
    }
    assert ZDistinct(r) by {
      forall i, j | 0 <= i < j < |r| ensures r[i].zIndex != r[j].zIndex {
        if i != t && j != t {
          assert ws[i].zIndex != ws[j].zIndex;
        }
      }
    }
    MaxZIs(r, t);
  }

  /** A record appended at `MaxZ + 1` with a fresh id: well formed, and on top. */
  lemma AppendOnTop(ws: seq<WindowState>, w: WindowState)
    requires WellFormed(ws) && |ws| > 0 && !HasId(ws, w.id) && w.zIndex == MaxZ(ws) + 1
    ensures WellFormed(ws + [w]) && OnTop(ws + [w], w.id) && MaxZ(ws + [w]) == w.zIndex
  {
    var r := ws + [w];
    assert forall i :: 0 <= i < |ws| ==> r[i] == ws[i];
    assert HoldsUniqueMax(r, |ws|);
    var k :| 0 <= k < |r| && r[k].zIndex == MaxZ(r);
  }

  /** With distinct ids, an id names at most one record. */
  lemma OnlyIndex(ws: seq<WindowState>, id: string) returns (t: int)
    requires IdsDistinct(ws) && HasId(ws, id)
    ensures 0 <= t < |ws| && ws[t].id == id
    ensures forall i :: 0 <= i < |ws| && ws[i].id == id ==> i == t
  {
    t :| 0 <= t < |ws| && ws[t].id == id;
  }

  lemma OpenWindowSpec(ws: seq<WindowState>, id: string)
    requires WellFormed(ws)
    ensures var r := OpenWindow(ws, id);
      && |r| == |ws|
      && (forall i :: 0 <= i < |ws| ==> SameRecord(r[i], ws[i]))
      && (forall i :: 0 <= i < |ws| && ws[i].id != id ==> r[i] == ws[i])
      && (forall i :: 0 <= i < |ws| && ws[i].id == id ==>
            r[i].isOpen && !r[i].isMinimized && r[i].zIndex == MaxZ(ws) + 1)
      && (!HasId(ws, id) ==> r == ws)
      && (HasId(ws, id) ==> OnTop(r, id) && MaxZ(r) == MaxZ(ws) + 1)
      && WellFormed(r)
  {
    var r := OpenWindow(ws, id);
    if HasId(ws, id) {
      var t := OnlyIndex(ws, id);
      RaiseOne(ws, r, t);
    } else {
      assert r == ws;
    }
  }

  /** A project that already has a record: that record is reopened and raised, nothing is added,
      and its minimised flag is left alone. */
  lemma OpenProjectExisting(ws: seq<WindowState>, p: Project)
    requires WellFormed(ws) && |ws| > 0 && HasId(ws, ProjectWindowId(p))
    ensures var r := OpenProjectWindow(ws, p); var pid := ProjectWindowId(p);
      && |r| == |ws|
      && (forall i :: 0 <= i < |ws| ==> SameRecord(r[i], ws[i]) && r[i].isMinimized == ws[i].isMinimized)
      && (forall i :: 0 <= i < |ws| && ws[i].id != pid ==> r[i] == ws[i])
      && (forall i :: 0 <= i < |r| && r[i].id == pid ==> r[i].isOpen && r[i].zIndex == MaxZ(ws) + 1)
      && OnTop(r, pid) && MaxZ(r) == MaxZ(ws) + 1
      && WellFormed(r)
  {
    var r := OpenProjectWindow(ws, p);
    var t := OnlyIndex(ws, ProjectWindowId(p));
    RaiseOne(ws, r, t);
  }

  /** A project without a record: exactly one open record is appended, on top. */
  lemma OpenProjectNew(ws: seq<WindowState>, p: Project)
    requires WellFormed(ws) && |ws| > 0 && !HasId(ws, ProjectWindowId(p))
    ensures var r := OpenProjectWindow(ws, p);
      && r == ws + [WindowState(ProjectWindowId(p), p.title, true, false, MaxZ(ws) + 1, ProjectWindow, Some(p))]
      && OnTop(r, ProjectWindowId(p)) && MaxZ(r) == MaxZ(ws) + 1
      && WellFormed(r)
  {
    AppendOnTop(ws, WindowState(ProjectWindowId(p), p.title, true, false, MaxZ(ws) + 1, ProjectWindow, Some(p)));
  }

  lemma OpenProjectWindowSpec(ws: seq<WindowState>, p: Project)
    requires WellFormed(ws) && |ws| > 0
    ensures var r := OpenProjectWindow(ws, p); var pid := ProjectWindowId(p);
      && (forall i :: 0 <= i < |r| && r[i].id == pid ==> r[i].isOpen && r[i].zIndex == MaxZ(ws) + 1)
      && OnTop(r, pid)
      && MaxZ(r) == MaxZ(ws) + 1
      && WellFormed(r)
  {
    if HasId(ws, ProjectWindowId(p)) {
      OpenProjectExisting(ws, p);
    } else {
      OpenProjectNew(ws, p);
      var r := OpenProjectWindow(ws, p);
      assert forall i :: 0 <= i < |ws| ==> r[i] == ws[i];
    }
  }

  /** There is never more than one record per project, and it is open. */
  lemma ProjectWindowUnique(ws: seq<WindowState>, p: Project)
    requires WellFormed(ws) && |ws| > 0
    ensures var r := OpenProjectWindow(ws, p);
      && |r| <= |ws| + 1
      && (exists i :: 0 <= i < |r| && r[i].id == ProjectWindowId(p) && r[i].isOpen)
      && (forall i, j :: 0 <= i < |r| && 0 <= j < |r| && r[i].id == ProjectWindowId(p) && r[j].id == ProjectWindowId(p) ==> i == j)
  {
    OpenProjectWindowSpec(ws, p);
    var r := OpenProjectWindow(ws, p);
    var t :| 0 <= t < |r| && HoldsUniqueMax(r, t) && r[t].id == ProjectWindowId(p);
  }

  /** Opening the same project twice adds nothing the second time, and the record ends on top. */
  lemma {:induction false} OpenProjectTwice(ws: seq<WindowState>, p: Project)
    requires WellFormed(ws) && |ws| > 0
    ensures var once := OpenProjectWindow(ws, p); var twice := OpenProjectWindow(once, p);
      && |twice| == |once|
      && OnTop(twice, ProjectWindowId(p))
      && (forall i :: 0 <= i < |twice| && twice[i].id == ProjectWindowId(p) ==> twice[i].isOpen && twice[i].zIndex == MaxZ(twice))
  {
    var once := OpenProjectWindow(ws, p);
    OpenProjectWindowSpec(ws, p);
    assert HasId(once, ProjectWindowId(p)) by {
      var t :| 0 <= t < |once| && HoldsUniqueMax(once, t) && once[t].id == ProjectWindowId(p);
    }
    OpenProjectExisting(once, p);
  }

  lemma CloseWindowSpec(ws: seq<WindowState>, id: string)
    requires WellFormed(ws)
    ensures var r := CloseWindow(ws, id);
      && |r| == |ws|
      && (forall i :: 0 <= i < |ws| ==>
            SameRecord(r[i], ws[i]) && r[i].zIndex == ws[i].zIndex && r[i].isMinimized == ws[i].isMinimized)
      && (forall i :: 0 <= i < |ws| ==> r[i].isOpen == (ws[i].isOpen && ws[i].id != id))
      && (!HasId(ws, id) ==> r == ws)
      && (|ws| > 0 ==> MaxZ(r) == MaxZ(ws))
      && (forall other :: OnTop(ws, other) ==> OnTop(r, other))
      && WellFormed(r)
  {
    var r := CloseWindow(ws, id);
    assert SameLevels(ws, r);
    SameLevelsSameOrder(ws, r);
  }

  lemma FocusWindowSpec(ws: seq<WindowState>, id: string)
    requires WellFormed(ws)
    ensures var r := FocusWindow(ws, id);
      && |r| == |ws|
      && (forall i :: 0 <= i < |ws| ==>
            SameRecord(r[i], ws[i]) && r[i].isOpen == ws[i].isOpen && r[i].isMinimized == ws[i].isMinimized)
      && (forall i :: 0 <= i < |ws| && ws[i].id != id ==> r[i] == ws[i])
      && (!HasId(ws, id) ==> r == ws)
      && (OnTop(ws, id) ==> r == ws)
      && (HasId(ws, id) && !OnTop(ws, id) ==> MaxZ(r) == MaxZ(ws) + 1)
      && (HasId(ws, id) ==> OnTop(r, id))
      && WellFormed(r)
  {
    var r := FocusWindow(ws, id);
    if HasId(ws, id) {
      var t := OnlyIndex(ws, id);
      assert FindIndex(ws, id) == Some(t);
      if ws[t].zIndex == MaxZ(ws) {
        assert HoldsUniqueMax(ws, t);
      } else {
        RaiseOne(ws, r, t);
        assert !HoldsUniqueMax(ws, t) by {
          var m :| 0 <= m < |ws| && ws[m].zIndex == MaxZ(ws);
        }
      }
    } else {
      assert r == ws;
    }
  }

  /** Focusing twice is focusing once. */
  lemma {:induction false} FocusIdempotent(ws: seq<WindowState>, id: string)
    ensures FocusWindow(FocusWindow(ws, id), id) == FocusWindow(ws, id)
  {
    var r := FocusWindow(ws, id);
    if |ws| > 0 {
      var target := FindIndex(ws, id);
      if target.Some? && ws[target.value].zIndex != MaxZ(ws) {
        var t := target.value;
        MaxZIs(r, t);
        SameIdsSameIndex(ws, r, id);
      }
    }
  }

  /** Opening and then closing a folder keeps its record, title, type and level. */
  lemma OpenThenCloseKeepsRecord()
    ensures var ws := InitialWindows(); var afterOpen := OpenWindow(ws, "hci"); var afterClose := CloseWindow(afterOpen, "hci");
      && afterOpen[0].isOpen
      && !afterClose[0].isOpen
      && afterClose[0].id == "hci" && afterClose[0].title == "HCI Research" && afterClose[0].kind == FolderWindow
      && afterClose[0].zIndex == afterOpen[0].zIndex == 53
  {
    var ws := InitialWindows();
    InitialRegistry();
    var m :| 0 <= m < |ws| && ws[m].zIndex == MaxZ(ws);
    assert MaxZ(ws) == 52;
  }

  // ------------------------------------------------------- sequences of intents

  /** A user intent that reaches the registry. */
  datatype Intent = Open(id: string) | OpenProject(p: Project) | Close(id: string) | Focus(id: string)

  function Apply(ws: seq<WindowState>, op: Intent): (r: seq<WindowState>)
    requires |ws| > 0
    ensures |r| >= |ws|
    ensures forall i :: 0 <= i < |ws| ==> r[i].id == ws[i].id && r[i].kind == ws[i].kind
    ensures forall i :: |ws| <= i < |r| ==> r[i].kind == ProjectWindow
  {
    match op
    case Open(id) => OpenWindow(ws, id)
    case OpenProject(p) => OpenProjectWindow(ws, p)
    case Close(id) => CloseWindow(ws, id)
    case Focus(id) => FocusWindow(ws, id)
  }

  function Run(ws: seq<WindowState>, ops: seq<Intent>): (r: seq<WindowState>)
    requires |ws| > 0
    ensures |r| >= |ws|
    decreases |ops|
  {
    if ops == [] then ws else Run(Apply(ws, ops[0]), ops[1..])
  }

  lemma ApplySpec(ws: seq<WindowState>, op: Intent)
    requires WellFormed(ws) && |ws| > 0
    ensures WellFormed(Apply(ws, op)) && MaxZ(Apply(ws, op)) >= MaxZ(ws)
    ensures op.Open? || op.Focus? ==> (HasId(ws, op.id) ==> OnTop(Apply(ws, op), op.id))
    ensures op.OpenProject? ==> OnTop(Apply(ws, op), ProjectWindowId(op.p))
  {
    match op
    case Open(id) => OpenWindowSpec(ws, id);
    case OpenProject(p) => OpenProjectWindowSpec(ws, p);
    case Close(id) => CloseWindowSpec(ws, id);
    case Focus(id) => FocusWindowSpec(ws, id);
  }

  /** Any sequence of intents keeps ids and stacking levels distinct, never drops or
      reorders a record, and never lowers the top level. */
  lemma {:induction false} RunInvariant(ws: seq<WindowState>, ops: seq<Intent>)
    requires WellFormed(ws) && |ws| > 0
    ensures var r := Run(ws, ops);
      && WellFormed(r)
      && (forall i :: 0 <= i < |ws| ==> r[i].id == ws[i].id)
      && MaxZ(r) >= MaxZ(ws)
    decreases |ops|
  {
    if ops != [] {
      var next := Apply(ws, ops[0]);
      ApplySpec(ws, ops[0]);
      RunInvariant(next, ops[1..]);
    }
  }

  /** Closing windows never changes which window is on top. */
  lemma {:induction false} ClosesKeepTop(ws: seq<WindowState>, id: string, ops: seq<Intent>)
    requires WellFormed(ws) && |ws| > 0 && OnTop(ws, id)
    requires forall k :: 0 <= k < |ops| ==> ops[k].Close?
    ensures OnTop(Run(ws, ops), id)
    decreases |ops|
  {
    if ops != [] {
      CloseWindowSpec(ws, ops[0].id);
      ClosesKeepTop(Apply(ws, ops[0]), id, ops[1..]);
    }
  }
}
