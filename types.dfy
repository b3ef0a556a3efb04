/** The record shapes of the portfolio desktop: catalog projects, window records and folders. */
module Types {
  import opened Wrappers

  datatype VideoPosition = Top | Bottom

  /** A catalog entry. Only the fields the core reads are kept. */
  datatype Project = Project(
    id: string,
    title: string,
    description: string,
    imageUrl: string,
    hoverImageUrl: Option<string>,
    images: seq<string>,
    tags: seq<string>,
    abstractText: Option<string>,
    externalUrl: Option<string>,
    videoUrl: Option<string>,
    videoPosition: Option<VideoPosition>,
    spotifyUrl: Option<string>)

  /** Which content a window shows. */
  datatype WindowType = FolderWindow | ProjectWindow | AboutWindow | CvWindow

  /** One record of the window registry. */
  datatype WindowState = WindowState(
    id: string,
    title: string,
    isOpen: bool,
    isMinimized: bool,
    zIndex: int,
    kind: WindowType,
    projectData: Option<Project>)

  datatype Folder = Folder(id: string, name: string)

  /** The four desktop folders, in display order. */
  const FOLDERS: seq<Folder> := [
    Folder("hci", "HCI Research"),
    Folder("game_xr", "Game_XR"),
    Folder("graphic", "Graphic_\nBranding"),
    Folder("web_ai", "Web_AI")
  ]

  /** `window.innerWidth` and `window.innerHeight`; `None` when there is no browser window. */
  datatype Viewport = Viewport(width: int, height: int)

  /** An integer point on the desktop (icon positions). */
  datatype Point = Point(x: int, y: int)
}
