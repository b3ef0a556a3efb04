# Portfolio desktop: a Dafny model

The portfolio site imitates a desktop. It has a column of folder icons on the right, windows
that open, stack, drag, resize and maximize, a search panel over the project catalog, a folder
view of project cards and a project page. This project models the behaviour behind those
pieces and proves what it promises. Presentation is not modelled.

- **Window registry** (`registry.dfy`, `App.tsx`). The list of window records, with the
  operations that open, open-a-project, close and focus a window. Z-order is the `zIndex`
  field. The proofs show that the levels stay distinct, and that the window last opened or
  focused holds the unique highest level. Focusing is idempotent, a project gets at most one
  window, and a closed window keeps its record. `Intent`, `Apply` and `Run` replay any
  sequence of these operations.
- **Search** (`search.dfy`). The case-insensitive filter over titles, descriptions and tags,
  and opening a project by id.
- **Icon layout** (`layout.dfy`). The loop that places the folder icons in one right-hand
  column, and the per-icon position update.
- **Desktop state** (`desktop.dfy`). `App`'s held state as a class:
  - the registry, the icon places, the query and the panel flag;
  - the handlers that change them;
  - the wiring to the window and icon controllers.

  The press that starts a window drag also focuses the window twice. The
  `certification` window is of project type, so it always asks for the project size.
- **Window geometry and controller** (`window_geometry.dfy`, `window_controller.dfy`,
  `components/Window.tsx`):
  - the breakpoint-based default size and the centred, staggered default position;
  - a controller class holding size, position, the maximize flag and the drag or resize
    session;
  - pointer moves, measured from the session's snapshot and clamped (200 by 150, top edge
    at 32).
- **Desktop icon** (`desktop_icon.dfy`). The drag of one icon: the left button only, a place
  computed from the anchor, a single report on release, and syncing to its owner's
  coordinates only while idle.
- **Project page helpers** (`project_detail.dfy`, `catalog_links.dfy`):
  - the embed-link rewrite for Google Drive, YouTube and Vimeo, and the Spotify rewrite;
  - the abstract's keyword marker;
  - the printed link without its scheme;
  - the framed-site test and the video slot flags.

  `catalog_links.dfy` applies the rewrites to the kinds of link the catalog holds.
- **Folder view** (`project_grid.dfy`, `components/ProjectGrid.tsx`). The first sentence
  that a card shows, the empty-folder placeholder and the hover image.

Supporting modules:
- `strings.dfy`: the JavaScript string built-ins the code uses (`includes`, `indexOf`, the
  first two parts of `split`, `replace`, `trim`, ASCII `toLowerCase`), each with its
  characterising contract.
- `types.dfy`: the record shapes.
- `wrappers.dfy`: `Option`.

Pixel lengths in the window geometry are reals, because the position halves the viewport and
the mobile About size scales it. Viewport sizes and icon places are integers.
`window.location.origin` is a parameter.

## Model

| member | source | states |
|---|---|---|
| Registry.InitialRegistry | App.tsx:14-29 | the registry starts with the four folders at levels 10 to 13 in folder order, then `cv` 50, `about` 51 and `certification` 52; all are closed and not minimised, and the levels are distinct |
| Registry.MaxZ | App.tsx:80 | the maximum level is at least every record's level and is held by some record |
| Registry.FindIndex | App.tsx:116 | the index found holds the id, no earlier record holds it, and nothing is found exactly when no record has the id |
| Registry.OpenWindowSpec | App.tsx:76-84 | only the matching record changes: it is open, not minimised, at the old maximum plus one and then on top; length, ids, titles, types and the other records are kept; an unknown id changes nothing; levels stay distinct |
| Registry.OpenProjectExisting | App.tsx:88-95 | with a window for the project already present, the registry keeps its length, only that record changes, it is open on top at maximum plus one, and its minimised flag is untouched |
| Registry.OpenProjectNew | App.tsx:96-105 | without one, exactly one record is appended: the project's id, its title, open, not minimised, maximum plus one, project type, the project as payload |
| Registry.OpenProjectWindowSpec | App.tsx:86-107 | either way the project's window is open and holds the unique top level, and levels stay distinct |
| Registry.ProjectWindowUnique | App.tsx:86-107 | the registry grows by at most one, and exactly one record carries the project's window id, open |
| Registry.OpenProjectTwice | App.tsx:86-107 | opening a project again adds no record and leaves its window open on top |
| Registry.CloseWindowSpec | App.tsx:109-111 | only the open flag changes, to false for the matching record; levels, titles, types, payloads and the top window are kept |
| Registry.FocusWindowSpec | App.tsx:113-120 | a window already on top leaves the registry unchanged; otherwise only its level changes, to maximum plus one, and it holds the unique top level; an unknown id changes nothing |
| Registry.FocusIdempotent | App.tsx:113-120 | focusing twice is focusing once |
| Registry.OpenThenCloseKeepsRecord | App.tsx:76-111 | opening and then closing `hci` keeps its record, title, type and the level 53 it was raised to |
| Registry.Apply | App.tsx:76-120 | no operation removes a record or changes a record's id or type, and any record it adds is a project window |
| Registry.ApplySpec | App.tsx:76-120 | every operation keeps the levels distinct and never lowers the maximum; open, focus and open-a-project leave their window on top |
| Registry.RunInvariant | App.tsx:76-120 | any sequence of operations keeps the levels distinct, the original records in place and the maximum from falling |
| Registry.ClosesKeepTop | App.tsx:109-111 | closing windows, any number of times, never changes which window is on top |
| Search.Filter | App.tsx:141-145 | the results are exactly the matching catalog projects, each as often as in the catalog, in catalog order |
| Search.TrimEmpty | App.tsx:140 | a query trims to empty exactly when it is all white space |
| Search.BlankQueryEmpty | App.tsx:139-146 | the result list is empty exactly when the query is blank or nothing matches |
| Search.SearchSpec | App.tsx:139-146 | for a non-blank query the results are exactly the catalog projects whose lowercased title, description or a tag contains the lowercased query, in catalog order |
| Search.SearchIgnoresCase | App.tsx:142-144 | lowercasing the query does not change the results |
| Search.FilterSameMatches | App.tsx:141-145 | two queries that match the same projects give the same results |
| Search.TagSearchFindsProject | App.tsx:144 | searching for one of a project's non-blank tags lists that project |
| Search.FindProject | App.tsx:133 | the project found is the first catalog entry with the id; nothing is found exactly when no entry has it |
| Search.OpenProjectByIdSpec | App.tsx:132-137 | an unknown id changes nothing; a known one leaves that project's window on top |
| Layout.GetInitialPositions | App.tsx:35-55 | the loop gives every folder, and nothing else, an entry, and folder `i` gets slot `i` |
| Layout.IconColumn | App.tsx:46-52 | all icons share one column, 160 pixels left of the right edge, or 90 on a narrow screen |
| Layout.IconsDescend | App.tsx:48-53 | icons go down the column 120 pixels apart, or 85 on a narrow screen, starting at 92, or 42 |
| Layout.NoViewportLayout | App.tsx:36-41 | without a browser window the width defaults to 1200, so icon `i` is at (1040, 92 + 120 i) |
| Layout.UpdateFolderPosition | App.tsx:69-74 | a drop sets its own key to the new place and leaves every other entry unchanged |
| Layout.DropKeepsKeys | App.tsx:69-74 | any sequence of drops keeps every entry |
| Layout.FolderHasPlace | App.tsx:179-180 | after any drops, every folder still has a recorded place, which its icon takes (`IconProp`), so the `|| 0` fallback is never used for a folder |
| WindowGeometry.DesktopSizeFits | components/Window.tsx:64-72 | on a wide screen the size is the requested one, or, when the request is missing or 0 (JavaScript `||`, `OrDefault`), the defaults 340/800/850 by 520/min(850, H-80)/600, cut to W-40 by H-60, and never larger |
| WindowGeometry.TabletSize | components/Window.tsx:53-62 | on a medium screen About is 340 by 520, CV is min(800, W-60) by H-120, and other windows are min(request or 700, W-40) by min(request or 550, H-120) |
| WindowGeometry.MobileSize | components/Window.tsx:43-51 | on a narrow screen the request is ignored: certification is 180 by 240, About 0.9 W by min(480, 0.7 H), and every other window W-16 by H-120 |
| WindowGeometry.StaggerOffset | components/Window.tsx:101-102 | the stagger offset is one of 0, 25, ..., 125 |
| WindowGeometry.StaggerPeriodic | components/Window.tsx:101-102 | the offset repeats every six levels and steps by 25, wrapping from 125 to 0 |
| WindowGeometry.NoViewportDefaults | components/Window.tsx:36-78 | without a browser window the size is 800 by 500 and the position (100, 100) |
| WindowGeometry.CenterPosSpec | components/Window.tsx:77-109 | About is centred across at height max(40, centred); a CV window on a wider screen ends 40 pixels from the right edge and is centred vertically; every other window is centred plus its stagger offset across and at height max(40, centred + offset) |
| WindowGeometry.ResizedSize | components/Window.tsx:181-185 | a resize step gives the snapshot size plus the pointer's travel, clamped to at least 200 by 150 |
| WindowGeometry.DraggedPos | components/Window.tsx:186-193 | a drag step gives the snapshot position plus the travel, the top edge clamped to at least 32 and the left edge unclamped |
| WindowGeometry.DragReturns | components/Window.tsx:178-193 | a pointer back at its start gives the snapshot position or size back |
| WindowGeometry.ResizeMonotone | components/Window.tsx:181-185 | a longer pointer travel never gives a smaller window |
| WindowController.Controller.constructor | components/Window.tsx:30-112 | a window starts at its responsive size and default position, not maximized, idle and never moved |
| WindowController.Controller.StartResizing | components/Window.tsx:136-151 | a press on the corner handle records a resize snapshot of the pointer, size and position, even while maximized |
| WindowController.Controller.StartDragging | components/Window.tsx:153-170 | a press on the header does nothing while maximized; otherwise it records a drag snapshot and marks the window as moved |
| WindowController.Controller.HandleMove | components/Window.tsx:173-195 | a move changes the size in a resize session and the position in a drag session, computed from the snapshot alone; without a session nothing changes |
| WindowController.Controller.HandleEnd | components/Window.tsx:197-200 | release clears the session and changes nothing else |
| WindowController.Controller.OnViewportResize | components/Window.tsx:114-124 | a viewport change recomputes size and position only for a window that was never dragged and is not maximized |
| WindowController.Controller.ToggleMaximize | components/Window.tsx:268 | the green button flips only the maximize flag |
| WindowController.Controller.DisplayedFrame | components/Window.tsx:216-223 | a maximized window fills the area below the 32-pixel bar; otherwise it shows its stored frame |
| WindowController.MaximizeRoundTrip | components/Window.tsx:216-268 | maximizing and restoring gives back the frame the window had |
| WindowController.DragGesture | components/Window.tsx:153-200 | a whole drag leaves the window at its old position plus the pointer's travel, same size, idle and marked as moved |
| WindowController.ResizeGesture | components/Window.tsx:136-200 | a whole resize leaves the window at its old size plus the travel, clamped to 200 by 150, same position |
| DesktopIcon.DragTargetSpec | components/DesktopIcon.tsx:41-47 | the icon follows the pointer one for one, and a pointer back at its start puts the icon back at its start |
| DesktopIcon.Icon.constructor | components/DesktopIcon.tsx:13-16 | an icon starts at the coordinates it is handed, idle |
| DesktopIcon.Icon.MouseDown | components/DesktopIcon.tsx:25-35 | only the left button starts a drag, anchored at the pointer and the current place |
| DesktopIcon.Icon.MouseMove | components/DesktopIcon.tsx:38-48 | during a drag the place is the anchor's place plus the pointer's travel; idle, nothing changes |
| DesktopIcon.Icon.MouseUp | components/DesktopIcon.tsx:50-58 | release ends a drag and reports the place once; an idle release reports nothing |
| DesktopIcon.Icon.SyncProps | components/DesktopIcon.tsx:19-23 | the owner's coordinates replace the place while idle and are ignored during a drag |
| DesktopIcon.DragGesture | components/DesktopIcon.tsx:25-58 | a left-button drag ends at the start plus the travel, is reported once, and a later move changes nothing |
| DesktopIcon.OtherButtonGesture | components/DesktopIcon.tsx:27 | a press with another button leaves the icon idle and in place, and nothing is reported |
| Desktop.CertificationStaysProject | App.tsx:27 | no sequence of operations changes the certification record's project type |
| Desktop.CertificationRequest | App.tsx:198-199 | the certification window always asks for 950 by 650, so the 150 by 180 branch is never taken |
| Desktop.ProjectWindowSize | App.tsx:198-199 | on a wide screen a project window is 950 by 650, cut to W-40 by H-60 |
| Desktop.Desktop.constructor | App.tsx:14-57 | the desktop starts with the initial registry, exactly the folders placed, each in its slot, an empty query and the panel shut |
| Desktop.Desktop.OpenWindow | App.tsx:76-84 | applies the open operation to the held registry, which stays well formed, and nothing else changes |
| Desktop.Desktop.OpenProjectWindow | App.tsx:86-107 | applies open-a-project; the project's window ends on top |
| Desktop.Desktop.CloseWindow | App.tsx:109-111 | applies close; the window on top stays on top |
| Desktop.Desktop.MinimizeWindow | App.tsx:196 | the yellow button does exactly what close does |
| Desktop.Desktop.FocusWindow | App.tsx:113-120 | applies focus; the window ends on top |
| Desktop.Desktop.OpenProjectById | App.tsx:132-137 | opens the project with the id, or changes nothing when the catalog has none |
| Desktop.Desktop.UpdateFolderPosition | App.tsx:69-74 | records a dropped icon's place and changes nothing else |
| Desktop.Desktop.OnViewportResize | App.tsx:61 | a viewport change places exactly the folders, every icon back in its slot, dropping dragged places |
| Desktop.Desktop.HandleTagClick | App.tsx:122-125 | a tag click opens the panel with the tag as query, which then lists every project with that non-blank tag |
| Desktop.Desktop.SelectResult | App.tsx:235 | choosing a result opens its project on top, shuts the panel and clears the query and results |
| Desktop.Desktop.PressHeader | components/Window.tsx:233-245 | a header press on a window that is not maximized records a drag snapshot of the pointer, size and position and marks the window as moved; on a maximized window it leaves the session and the moved flag alone; either way size and position are kept and the window is focused once, although two handlers focus it |
| Desktop.Desktop.PressResizeHandle | components/Window.tsx:286-289 | a corner press records a resize snapshot of the pointer, size and position, keeps size, position, the maximize flag and the moved flag, and focuses the window once |
| Desktop.Desktop.ReleaseIcon | App.tsx:175-183 | a released icon's place is recorded and the icon then stays exactly where it was dropped; a release while idle changes nothing |
| Desktop.Desktop.MountWindow | App.tsx:189-199 | a window component starts from the size its record asks for and its own level |
| ProjectDetail.ReplaceTailPreview | components/ProjectDetail.tsx:50 | `lit(\?.*)?$` replaced by `/preview`: with no match the link is unchanged; with a match, the text before the leftmost match followed by `/preview` |
| ProjectDetail.ReplaceSuffixPreview | components/ProjectDetail.tsx:50 | a link ending in the suffix gets `/preview` in its place, and putting the suffix back gives the link; any other link is unchanged |
| ProjectDetail.DriveEmbedSpec | components/ProjectDetail.tsx:50 | the three Drive replacements give the link, or a prefix of it followed by `/preview`; which one is stated by ViewLinkPreview, SharingLinkPreview and DriveLinkPreview |
| ProjectDetail.PreviewLinkKept | components/ProjectDetail.tsx:50 | a Drive link already ending in `/preview`, without a query string, is unchanged |
| ProjectDetail.ViewLinkPreview | components/ProjectDetail.tsx:50 | a link ending in `/view` with or without a one-line query becomes the same link ending in `/preview` |
| ProjectDetail.SharingLinkPreview | components/ProjectDetail.tsx:50 | a link `a/sharing`, with or without a one-line query holding no `w`, becomes `a/preview` |
| ProjectDetail.DriveLinkPreview | components/ProjectDetail.tsx:50 | a link `a?usp=drive_link` becomes `a/preview` when `a` has no query and does not end in `/view` or `/sharing` |
| ProjectDetail.PieceUnique | components/ProjectDetail.tsx:57-61 | the piece that `split(sep)[1].split(/[stops]/)[0]` takes is unique: it starts after the first separator and runs, free of stop characters, up to the first stop character, the next separator or the end |
| ProjectDetail.YouTubeIdSpec | components/ProjectDetail.tsx:55-62 | the video id is that piece after the first of `youtu.be/`, `v=`, `embed/` that occurs, cut at `?` and `#` (and `&` after `v=`), so it ends exactly where the next stop character, separator or the end is; it is empty when none occurs |
| ProjectDetail.VimeoIdSpec | components/ProjectDetail.tsx:72 | the Vimeo id exists exactly when the link holds `vimeo.com/` and is then the piece after it, cut at `?` or `#` |
| ProjectDetail.GetEmbedUrlSpec | components/ProjectDetail.tsx:45-77 | Drive is tried first and rewritten by the three replacements; a YouTube link with an id becomes the privacy-mode embed link for that id; a Vimeo link off the player host with a non-empty id becomes `https://player.vimeo.com/video/` plus that id; a player link and every other link are returned unchanged |
| ProjectDetail.EmbedUrlEmpty | components/ProjectDetail.tsx:46 | a missing or empty link gives the empty string |
| ProjectDetail.EmbedAsWrittenAgrees | components/ProjectDetail.tsx:69-74 | the component throws exactly on a link that names `vimeo.com` without `vimeo.com/`, not the player host and no earlier host; otherwise it agrees with the completed definition |
| ProjectDetail.SpotifyEmbedSpec | components/ProjectDetail.tsx:80-84 | only the first `open.spotify.com/` gains `embed/`; a link without it is unchanged |
| ProjectDetail.SpotifyRoundTrip | components/ProjectDetail.tsx:80-84 | removing the first inserted `embed/` gives back the original link |
| ProjectDetail.RenderAbstractChoice | components/ProjectDetail.tsx:11-15 | without a marker the text is shown as it is; `Keywords:` wins whenever it occurs; `Index Terms:` is used only without it |
| ProjectDetail.CutAtPieces | components/ProjectDetail.tsx:17-24 | the text before the first marker, the marker and the text up to the second marker lie side by side from the start, neither piece holds the marker, and they cover the text exactly when the marker occurs once |
| ProjectDetail.IframeModeCases | components/ProjectDetail.tsx:86-106 | the value of `externalUrl && images.length <= 1` under JavaScript's `&&` and truthiness is truthy exactly when the project has a non-empty link and at most one image, and falsy values are `undefined`, `''` or `false`; the second link test at line 106 is redundant, so the framed page shows exactly in that mode |
| ProjectDetail.DisplayUrl | components/ProjectDetail.tsx:107 | the printed link is a suffix of the link |
| ProjectDetail.DisplayUrlSpec | components/ProjectDetail.tsx:107 | one leading `https://` or `http://` is removed and putting it back gives the link; a link without either is unchanged |
| ProjectDetail.VideoSlot | components/ProjectDetail.tsx:324-325 | the video is at the top or the bottom, never both; the Dual Phobia page has neither; the bottom only when asked for |
| CatalogLinks.DriveShareLink | components/ProjectDetail.tsx:49-50 | a Drive `/view` share link, with or without its query, is embedded as the file's `/preview` link |
| CatalogLinks.DrivePreviewLink | components/ProjectDetail.tsx:49-50 | a Drive `/preview` link without a query string is embedded unchanged |
| CatalogLinks.BareVimeoThrows | components/ProjectDetail.tsx:72 | `https://vimeo.com` makes the component throw, while the completed definition returns it unchanged |
| CatalogLinks.PlayerLinkKept | components/ProjectDetail.tsx:71 | a Vimeo player link naming neither Drive nor YouTube is kept |
| CatalogLinks.YouTubeEmbedLink | components/ProjectDetail.tsx:54-66 | a YouTube `a + "embed/" + id` link, whose host part has no `d`, `v`, `=` or `youtu.be/` and whose id is a non-empty run of id characters, is embedded as the privacy-mode player for exactly that id |
| CatalogLinks.CatalogYouTubeLink | constants.tsx:63 | the catalog's YouTube link is embedded as the privacy-mode player for the id `r-H0cZzmMKs` |
| CatalogLinks.VimeoPlayerLink | components/ProjectDetail.tsx:71 | a player link with a numeric video id is kept |
| CatalogLinks.SpotifyHostLink | components/ProjectDetail.tsx:83 | an `https` Spotify link gains `embed/` right after the host |
| ProjectGrid.FindStop | components/ProjectGrid.tsx:24 | the stop found is the leftmost one that the first line reaches and that ends the text or is followed by white space; none is found exactly when there is no such stop |
| ProjectGrid.EmptyText | components/ProjectGrid.tsx:23 | an empty description gives the empty sentence |
| ProjectGrid.FirstSentenceFound | components/ProjectGrid.tsx:24-26 | with such a stop, the sentence is the text up to it with leading space trimmed, non-empty and ending with that stop |
| ProjectGrid.FirstSentenceWhole | components/ProjectGrid.tsx:25 | without such a stop, the sentence is the whole text trimmed |
| ProjectGrid.FirstLineOnly | components/ProjectGrid.tsx:24-25 | a stop on a later line is never found |
| ProjectGrid.DecimalPoint | components/ProjectGrid.tsx:24 | a point inside a number ends no sentence: `v1.2 is out. More` gives `v1.2 is out.` |
| ProjectGrid.RenderGridSpec | components/ProjectGrid.tsx:13-66 | an empty folder shows only the placeholder; otherwise card `i` shows project `i`'s title and first sentence, and its hover image only when hovered and non-empty |
| ProjectGrid.OneHoveredCard | components/ProjectGrid.tsx:47-66 | with distinct project ids, at most one card shows its hover image |

## Left out

- Rendering, styling and animation: all markup, classes and motion components.
- Event-listener attach and detach, and the one-second clock with its locale formatting. Each
  handler is modelled as a method, called when its event arrives.
- Touch events: they carry the first touch's coordinates and are modelled like mouse events.
- The About and CV window contents, the slideshow timer and the certification image. The
  callbacks they forward are the registry operations modelled here.
- The project page's loading flag, the iframe scale `min(w/1440, h/900, 1)` (floating point and
  `getBoundingClientRect`), and the page's other markup branches.
- Registry.OpenProjectWindow: requires a non-empty registry. `Math.max()` of nothing is
  `-Infinity`, which this model does not represent; the registry starts with seven records and
  never shrinks (`Registry.RunInvariant`).
- WindowGeometry.ResponsiveSize: lengths are exact reals; JavaScript doubles round `W * 0.9` and
  `H * 0.7` differently.
- Strings.ToLower: ASCII case folding only; `toLowerCase` folds all of Unicode.
- Layout.GetInitialPositions: the viewport height, defaulted to 800 without a browser window, is
  computed by the source but never used, so it is not modelled.
- ProjectGrid.RenderGrid: the hovered card is a parameter; the enter and leave handlers that set
  it and the per-project styling are not modelled.
- WindowController.Controller.OnViewportResize: the level it uses is a parameter, because the
  listener keeps the level it captured when it was installed.
- Concrete catalog links are covered by generic lemmas over link shapes (`CatalogLinks`); only
  the YouTube entry at constants.tsx:63 also has a lemma on the literal itself.
- Window state across close and reopen: App.tsx:188-199 renders a `Window` for every record,
  open or not, so a window's size, position, maximize flag and moved flag survive a close and
  a reopen. `Desktop` holds the registry but no controllers; `Desktop.MountWindow` creates one,
  and the model does not tie a controller's life to its record.
- App.tsx:198-199: the certification branch asking for 150 by 180 is modelled as written, and
  `Desktop.CertificationRequest` proves it is never taken. This is dead code, not a wrong
  result, so it is not listed under Findings.

## Findings

| source | as written | input that shows it | evidently intended | confidence | as-written member | corrected member |
|---|---|---|---|---|---|---|
| components/ProjectDetail.tsx:72 | a link that names `vimeo.com` without a `/` after it (and no earlier host) reaches `url.split('vimeo.com/')[1].split(...)`, where the first part is `undefined`, so a `TypeError` is thrown | `https://vimeo.com`, exhibited by CatalogLinks.BareVimeoThrows | fall through and return the link unchanged, like every other unrecognised link | high, not executed | ProjectDetail.GetEmbedUrlAsWritten | ProjectDetail.GetEmbedUrl |
