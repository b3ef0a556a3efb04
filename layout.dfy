/** The desktop icon column of App.tsx: where the folder icons start, and how a drop moves one. */
module Layout {
  import opened Wrappers
  import opened Types

  const TOP_BAR_HEIGHT := 32

  /** The layout's own breakpoint: narrower than 768 pixels, and only when a window exists. */
  predicate IsMobileLayout(vp: Option<Viewport>)
  {
    vp.Some? && vp.value.width < 768
  }

  function IconSize(vp: Option<Viewport>): int
  {
    if IsMobileLayout(vp) then 80 else 130
  }

  function Padding(vp: Option<Viewport>): int
  {
    if IsMobileLayout(vp) then 10 else 60
  }

  function RightMargin(vp: Option<Viewport>): int
  {
    if IsMobileLayout(vp) then 10 else 30
  }

  /** The vertical distance between two neighbouring icons. */
  function Pitch(vp: Option<Viewport>): int
  {
    if IsMobileLayout(vp) then IconSize(vp) + 5 else IconSize(vp) - 10
  }

  /** The width the layout uses: the viewport's, or 1200 without one. */
  function LayoutWidth(vp: Option<Viewport>): int
  {
    if vp.Some? then vp.value.width else 1200
  }

  /** The place of the folder at position `idx` of the column. */
  function IconSlot(vp: Option<Viewport>, idx: int): Point
  {
    Point(LayoutWidth(vp) - IconSize(vp) - RightMargin(vp), TOP_BAR_HEIGHT + Padding(vp) + idx * Pitch(vp))
  }

  /** The folder ids name distinct icons. */
  lemma FolderIdsDistinct()
    ensures forall i, j :: 0 <= i < j < |FOLDERS| ==> FOLDERS[i].id != FOLDERS[j].id
  {
    assert FOLDERS[0].id[0] == 'h' && FOLDERS[1].id[0] == 'g' && FOLDERS[2].id[0] == 'g' && FOLDERS[3].id[0] == 'w';
    assert FOLDERS[1].id[1] == 'a' && FOLDERS[2].id[1] == 'r';
  }

  /** Fills the position table one folder at a time, in display order. */
  method GetInitialPositions(vp: Option<Viewport>) returns (positions: map<string, Point>)
    ensures forall id :: id in positions <==> exists i :: 0 <= i < |FOLDERS| && FOLDERS[i].id == id
    ensures forall i :: 0 <= i < |FOLDERS| ==> positions[FOLDERS[i].id] == IconSlot(vp, i)
  {
    FolderIdsDistinct();
    positions := map[];
    var idx := 0;
    while idx < |FOLDERS|
      invariant 0 <= idx <= |FOLDERS|
      invariant forall id :: id in positions <==> exists i :: 0 <= i < idx && FOLDERS[i].id == id
      invariant forall i :: 0 <= i < idx ==> positions[FOLDERS[i].id] == IconSlot(vp, i)
    {
      positions := positions[FOLDERS[idx].id := IconSlot(vp, idx)];
      idx := idx + 1;
    }
  }

  /** All icons share one column at the right edge, inset by the icon size and the margin. */
  lemma IconColumn(vp: Option<Viewport>, i: int, j: int)
    ensures IconSlot(vp, i).x == IconSlot(vp, j).x
    ensures !IsMobileLayout(vp) ==> IconSlot(vp, i).x == LayoutWidth(vp) - 160
    ensures IsMobileLayout(vp) ==> IconSlot(vp, i).x == LayoutWidth(vp) - 90
  {
  }

  /** Icons go down the column in display order, 120 pixels apart (85 on a narrow screen). */
  lemma IconsDescend(vp: Option<Viewport>, i: int, j: int)
    requires i < j
    ensures IconSlot(vp, i).y < IconSlot(vp, j).y
    ensures IconSlot(vp, i + 1).y - IconSlot(vp, i).y == (if IsMobileLayout(vp) then 85 else 120)
    ensures IconSlot(vp, 0).y == (if IsMobileLayout(vp) then 42 else 92)
  {
    assert Pitch(vp) > 0;
    assert IconSlot(vp, j).y - IconSlot(vp, i).y == (j - i) * Pitch(vp);
  }

  /** Without a browser window the layout is the desktop one at width 1200. */
  lemma NoViewportLayout(idx: int)
    ensures IconSlot(None, idx) == Point(1040, 92 + 120 * idx)
  {
  }

  /** Dropping an icon records its new place under its own id and touches no other entry. */
  function UpdateFolderPosition(positions: map<string, Point>, id: string, x: int, y: int): (r: map<string, Point>)
    ensures r.Keys == positions.Keys + {id}
    ensures id in r && r[id] == Point(x, y)
    ensures forall other :: other in positions && other != id ==> r[other] == positions[other]
  {
    positions[id := Point(x, y)]
  }

  /** The initial coordinates handed to an icon: its recorded place, `0` for a missing one. */
  function IconProp(positions: map<string, Point>, id: string): (r: Point)
    ensures id in positions ==> r == positions[id]
    ensures id !in positions ==> r == Point(0, 0)
  {
    if id in positions then positions[id] else Point(0, 0)
  }

  /** A sequence of drops applied in order. */
  function Drop(positions: map<string, Point>, drops: seq<(string, int, int)>): map<string, Point>
    decreases |drops|
  {
    if |drops| == 0 then positions
    else Drop(UpdateFolderPosition(positions, drops[0].0, drops[0].1, drops[0].2), drops[1..])
  }

  /** Drops never remove an entry. */
  lemma {:induction false} DropKeepsKeys(positions: map<string, Point>, drops: seq<(string, int, int)>)
    ensures positions.Keys <= Drop(positions, drops).Keys
    decreases |drops|
  {
    if |drops| > 0 {
      DropKeepsKeys(UpdateFolderPosition(positions, drops[0].0, drops[0].1, drops[0].2), drops[1..]);
    }
  }

  /** After the initial layout and any sequence of drops, every folder has a recorded place,
      so the `0` default is never used. */
  lemma FolderHasPlace(positions: map<string, Point>, i: int, drops: seq<(string, int, int)>)
    requires forall id :: id in positions <==> exists k :: 0 <= k < |FOLDERS| && FOLDERS[k].id == id
    requires 0 <= i < |FOLDERS|
    ensures var r := Drop(positions, drops); FOLDERS[i].id in r && IconProp(r, FOLDERS[i].id) == r[FOLDERS[i].id]
  {
    assert FOLDERS[i].id in positions;
    DropKeepsKeys(positions, drops);
  }
}
