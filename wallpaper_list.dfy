/** The single-list wallpapers composable (src/composables/useWallpapers.js): its load action.
    Its statistics and lookup/navigation functions are the ones in `Catalog`. */
module WallpaperList {
  import opened Wrappers
  import opened Strings
  import opened Catalog

  /** The decoded data file: `{ wallpapers: [...] }` or a bare array. */
  datatype Data = Wrapped(wallpapers: seq<Wallpaper>) | Bare(items: seq<Wallpaper>)

  /** The outcome of the request: a body, a response that is not ok, or a thrown error with
      its message. */
  datatype Response = Body(data: Data) | NotOk(status: nat) | Thrown(message: string)

  const LoadFailed: string := "加载壁纸数据失败"

  /** `data.wallpapers || data`: an array is truthy even when empty. */
  function ListOf(d: Data): seq<Wallpaper> {
    match d
    case Wrapped(ws) => ws
    case Bare(ws) => ws
  }

  /** `e.message || '加载壁纸数据失败'` for the error a failed load throws. */
  function ErrorText(r: Response): (m: string)
    requires !r.Body?
    ensures m != ""
    ensures r.NotOk? ==> m == "HTTP error! status: " + NatToString(r.status)
    ensures r.Thrown? && r.message != "" ==> m == r.message
    ensures r.Thrown? && r.message == "" ==> m == LoadFailed
  {
    match r
    case NotOk(status) => "HTTP error! status: " + NatToString(status)
    case Thrown(message) => if message != "" then message else LoadFailed
  }

  class WallpaperList {
    var wallpapers: seq<Wallpaper>
    var loading: bool
    var error: Option<string>
    var loaded: bool

    constructor ()
      ensures wallpapers == [] && !loading && error == None && !loaded
    {
      wallpapers := [];
      loading := false;
      error := None;
      loaded := false;
    }

    /** `fetchWallpapers()`: nothing once loaded. Otherwise a body replaces the list and marks
        it loaded; a failure records its message and keeps the list. `loading` ends false. */
    method FetchWallpapers(response: Response)
      modifies this
      ensures old(loaded) ==>
        wallpapers == old(wallpapers) && loading == old(loading) && error == old(error) && loaded
      ensures !old(loaded) && response.Body? ==>
        wallpapers == ListOf(response.data) && loaded && error == None && !loading
      ensures !old(loaded) && !response.Body? ==>
        wallpapers == old(wallpapers) && !loaded && error == Some(ErrorText(response)) && !loading
    {
      if loaded {
        return;
      }
      loading := true;
      error := None;
      match response {
        case Body(data) =>
          wallpapers := ListOf(data);
          loaded := true;
        case _ =>
          error := Some(ErrorText(response));
      }
      loading := false;
    }
  }
}
