/** The series store (src/stores/wallpaper.js): the per-series category index and the
    per-category lists, both cached; the first-screen load of a series, the background walk
    over the remaining categories, and the cache clearing. Requests and decoding are
    parameters (`Env`): each is a function of what is asked for, so the model is sequential. */
module WallpaperStore {
  import opened Wrappers
  import opened Strings
  import opened Catalog
  import Seqs

  /** A category of the index: its name, its entry count and its data file. */
  datatype CategoryRef = CategoryRef(name: string, count: int, file: string)

  /** The descriptive fields of an index, copied as they are. */
  datatype IndexMeta = IndexMeta(generatedAt: string, series: string, seriesName: string,
                                 total: int, categoryCount: int, schema: int, env: string)

  /** The index the store keeps; `categories` is absent when the file had none. */
  datatype IndexData = IndexData(meta: IndexMeta, categories: Option<seq<CategoryRef>>)

  /** An index file: the encoded category list (`blob` or `payload`, "" when absent) and the
      plain fields. */
  datatype IndexFile = IndexFile(blob: string, payload: string, meta: IndexMeta,
                                 categories: Option<seq<CategoryRef>>)

  /** A category file: the encoded list and the plain `wallpapers` field. */
  datatype CategoryFile = CategoryFile(blob: string, payload: string, wallpapers: Option<seq<Wallpaper>>)

  /** A decoded category list: `{ wallpapers: [...] }` or a bare array. */
  datatype Decoded = Wrapped(wallpapers: seq<Wallpaper>) | Bare(items: seq<Wallpaper>)

  /** The outcome of a request. */
  datatype Response<T> = Body(body: T) | NotOk(status: nat) | Thrown(message: string)

  /** The world the store talks to: the index and category requests, the decoder (`None`
      when it throws) and `buildImageUrl`. */
  datatype Env = Env(
    fetchIndex: string -> Response<IndexFile>,
    fetchCategory: (string, string) -> Response<CategoryFile>,
    decodeIndex: string -> Option<seq<CategoryRef>>,
    decodeCategory: string -> Option<Decoded>,
    buildImageUrl: string -> string)

  /** The keys of `SERIES_CONFIG`. */
  predicate IsSeries(id: string) {
    id == "desktop" || id == "mobile" || id == "avatar"
  }

  function InvalidSeries(id: string): string {
    "Invalid series: " + id
  }

  function HttpError(status: nat): string {
    "HTTP error! status: " + NatToString(status)
  }

  /** The message of the `TypeError` thrown when an index has no `categories`. */
  const NoCategories: string := "Cannot read properties of undefined"

  const LoadFailed: string := "加载壁纸数据失败"

  /** `data.blob || data.payload`. */
  function Encoded(blob: string, payload: string): string {
    if blob != "" then blob else payload
  }

  // ---------------------------------------------------------------------------------------
  // URL transformation

  /** `transformWallpaperUrls(w)`: every field is kept except the four URLs. With a path the
      image and download URLs are built from it; without one they keep their old value (or
      ""). The preview URL is built from a preview path, else kept when nonempty, else null. */
  function TransformUrls(w: Wallpaper, build: string -> string): (r: Wallpaper)
    ensures r.(url := w.url, thumbnailUrl := w.thumbnailUrl, previewUrl := w.previewUrl,
               downloadUrl := w.downloadUrl) == w
    ensures w.path != "" ==> r.url == build(w.path) && r.downloadUrl == r.url
    ensures w.path == "" ==> r.url == w.url && r.downloadUrl == w.downloadUrl
    ensures r.thumbnailUrl == if w.thumbnailPath != "" then build(w.thumbnailPath) else w.thumbnailUrl
    ensures Truthy(w.previewPath) ==> r.previewUrl == Some(build(w.previewPath.value))
    ensures !Truthy(w.previewPath) ==> r.previewUrl == if Truthy(w.previewUrl) then w.previewUrl else None
  {
    w.(url := if w.path != "" then build(w.path) else w.url,
       thumbnailUrl := if w.thumbnailPath != "" then build(w.thumbnailPath) else w.thumbnailUrl,
       previewUrl := if Truthy(w.previewPath) then Some(build(w.previewPath.value))
                     else if Truthy(w.previewUrl) then w.previewUrl else None,
       downloadUrl := if w.path != "" then build(w.path) else w.downloadUrl)
  }

  /** `wallpapers.map(transformWallpaperUrls)`. */
  function TransformAll(ws: seq<Wallpaper>, build: string -> string): (r: seq<Wallpaper>)
    ensures |r| == |ws|
  {
    if ws == [] then [] else [TransformUrls(ws[0], build)] + TransformAll(ws[1..], build)
  }

  /** Each entry of a loaded list is its file entry with the URLs transformed. */
  lemma {:induction false} TransformAllAt(ws: seq<Wallpaper>, build: string -> string, i: nat)
    requires i < |ws|
    ensures TransformAll(ws, build)[i] == TransformUrls(ws[i], build)
    decreases i
  {
    if i > 0 {
      TransformAllAt(ws[1..], build, i - 1);
    }
  }

  // ---------------------------------------------------------------------------------------
  // What one load yields

  /** The index built from an index file: the decoded category list with the file's
      descriptive fields; the file as it is when there is no encoded list or it fails to
      decode. */
  function IndexOf(f: IndexFile, decode: string -> Option<seq<CategoryRef>>): (r: IndexData)
    ensures r.meta == f.meta
    ensures Encoded(f.blob, f.payload) != "" && decode(Encoded(f.blob, f.payload)).Some? ==>
      r.categories == decode(Encoded(f.blob, f.payload))
    ensures Encoded(f.blob, f.payload) == "" || decode(Encoded(f.blob, f.payload)).None? ==>
      r.categories == f.categories
  {
    var encoded := Encoded(f.blob, f.payload);
    if encoded != "" then
      match decode(encoded)
      case Some(categories) => IndexData(f.meta, Some(categories))
      case None => IndexData(f.meta, f.categories)
    else IndexData(f.meta, f.categories)
  }

  /** The list of a category file: `decoded.wallpapers || decoded` when the encoded list
      decodes, else `data.wallpapers || []`. */
  function CategoryListOf(f: CategoryFile, decode: string -> Option<Decoded>): (r: seq<Wallpaper>)
    ensures var e := Encoded(f.blob, f.payload);
      (e != "" && decode(e).Some? && decode(e).value.Wrapped? ==> r == decode(e).value.wallpapers)
      && (e != "" && decode(e).Some? && decode(e).value.Bare? ==> r == decode(e).value.items)
      && (e == "" || decode(e).None? ==> r == f.wallpapers.GetOr([]))
  {
    var encoded := Encoded(f.blob, f.payload);
    var plain := f.wallpapers.GetOr([]);
    if encoded != "" then
      match decode(encoded)
      case Some(Wrapped(ws)) => ws
      case Some(Bare(ws)) => ws
      case None => plain
    else plain
  }

  /** What fetching the index of a valid series yields. */
  function FetchedIndex(env: Env, series: string): Result<IndexData> {
    match env.fetchIndex(series)
    case Body(f) => Ok(IndexOf(f, env.decodeIndex))
    case NotOk(status) => Err(HttpError(status))
    case Thrown(message) => Err(message)
  }

  /** What fetching a category of a valid series yields, with its URLs transformed. */
  function FetchedCategory(env: Env, series: string, file: string): Result<seq<Wallpaper>> {
    match env.fetchCategory(series, file)
    case Body(f) => Ok(TransformAll(CategoryListOf(f, env.decodeCategory), env.buildImageUrl))
    case NotOk(status) => Err(HttpError(status))
    case Thrown(message) => Err(message)
  }

  /** What `loadSeriesIndex(series)` returns against an index cache: the cached index, else
      an error for an unknown series, else the fetched index. */
  function IndexLookup(cache: map<string, IndexData>, env: Env, series: string): (r: Result<IndexData>)
    ensures series in cache ==> r == Ok(cache[series])
    ensures series !in cache && !IsSeries(series) ==> r == Err(InvalidSeries(series))
    ensures series !in cache && IsSeries(series) ==> r == FetchedIndex(env, series)
  {
    if series in cache then Ok(cache[series])
    else if !IsSeries(series) then Err(InvalidSeries(series))
    else FetchedIndex(env, series)
  }

  /** The index cache after `loadSeriesIndex(series)`: a fetched index is stored under the
      series id; nothing else changes. */
  function IndexCacheAfter(cache: map<string, IndexData>, env: Env, series: string): map<string, IndexData> {
    var l := IndexLookup(cache, env, series);
    if series !in cache && l.Ok? then cache[series := l.value] else cache
  }

  /** Loading an index once memoises it: every later lookup, of this series or another,
      returns what it would have returned before, and only this series' entry can be new. */
  lemma IndexCacheCoherent(cache: map<string, IndexData>, env: Env, series: string, other: string)
    ensures IndexLookup(IndexCacheAfter(cache, env, series), env, other) == IndexLookup(cache, env, other)
    ensures forall k :: k in IndexCacheAfter(cache, env, series) && k != series ==>
      k in cache && IndexCacheAfter(cache, env, series)[k] == cache[k]
  {
  }

  /** `e.message || '加载壁纸数据失败'`: the message of a failure, or the fixed text when it is
      empty. */
  function ErrorMessage(m: string): (r: string)
    ensures r != ""
    ensures m != "" ==> r == m
    ensures m == "" ==> r == LoadFailed
  {
    if m != "" then m else LoadFailed
  }

  /** The category cache key `${seriesId}:${categoryFile}`. */
  function CacheKey(series: string, file: string): (k: string)
    ensures IsPrefix(series + ":", k)
  {
    series + ":" + file
  }

  /** Within one series, distinct files have distinct keys. */
  lemma CacheKeyInjective(series: string, f: string, g: string)
    requires CacheKey(series, f) == CacheKey(series, g)
    ensures f == g
  {
    var p := series + ":";
    assert CacheKey(series, f)[|p|..] == f;
    assert CacheKey(series, g)[|p|..] == g;
  }

  /** What `loadCategory(series, file)` returns against a category cache: the cached list,
      else an error for an unknown series, else the fetched list. */
  function CategoryLookup(cache: map<string, seq<Wallpaper>>, env: Env, series: string, file: string)
    : (r: Result<seq<Wallpaper>>)
    ensures CacheKey(series, file) in cache ==> r == Ok(cache[CacheKey(series, file)])
    ensures CacheKey(series, file) !in cache && !IsSeries(series) ==> r == Err(InvalidSeries(series))
  {
    var key := CacheKey(series, file);
    if key in cache then Ok(cache[key])
    else if !IsSeries(series) then Err(InvalidSeries(series))
    else FetchedCategory(env, series, file)
  }

  /** The category cache after `loadCategory(series, file)`: the fetched list is stored under
      its key on success; nothing else changes. */
  function CacheAfter(cache: map<string, seq<Wallpaper>>, env: Env, series: string, file: string)
    : (r: map<string, seq<Wallpaper>>)
  {
    var key := CacheKey(series, file);
    var l := CategoryLookup(cache, env, series, file);
    if key !in cache && l.Ok? then cache[key := l.value] else cache
  }

  /** `loadCategory` adds at most its own key, holding the list it returned, and it keeps
      every entry that was there; a failed load or a cached key leaves the cache as it was. */
  lemma CacheAfterStores(cache: map<string, seq<Wallpaper>>, env: Env, series: string, file: string)
    ensures var r := CacheAfter(cache, env, series, file);
      var l := CategoryLookup(cache, env, series, file);
      (forall k :: k in cache ==> k in r && r[k] == cache[k])
      && (forall k :: k in r && k !in cache ==> k == CacheKey(series, file) && l == Ok(r[k]))
      && (l.Err? ==> r == cache)
  {
  }

  /** The cache keeps what a later lookup of the same series returns: a stored list is the
      list that would have been fetched. */
  lemma CacheCoherent(cache: map<string, seq<Wallpaper>>, env: Env, series: string, file: string, other: string)
    ensures CategoryLookup(CacheAfter(cache, env, series, file), env, series, other)
         == CategoryLookup(cache, env, series, other)
  {
    if CacheKey(series, other) == CacheKey(series, file) {
      CacheKeyInjective(series, other, file);
    }
  }

  /** The category cache after loading the files of `cats` one after the other. */
  function CacheAfterAll(cache: map<string, seq<Wallpaper>>, env: Env, series: string, cats: seq<CategoryRef>)
    : map<string, seq<Wallpaper>>
    decreases |cats|
  {
    if cats == [] then cache
    else CacheAfter(CacheAfterAll(cache, env, series, cats[..|cats| - 1]), env, series, cats[|cats| - 1].file)
  }

  lemma CacheAfterAllSnoc(cache: map<string, seq<Wallpaper>>, env: Env, series: string, cats: seq<CategoryRef>, i: nat)
    requires i < |cats|
    ensures CacheAfterAll(cache, env, series, cats[..i + 1])
         == CacheAfter(CacheAfterAll(cache, env, series, cats[..i]), env, series, cats[i].file)
  {
    assert cats[..i + 1][..i] == cats[..i];
  }

  /** Loading several files keeps every lookup of the same series. */
  lemma {:induction false} CacheAfterAllCoherent(cache: map<string, seq<Wallpaper>>, env: Env, series: string,
                                                 cats: seq<CategoryRef>, other: string)
    ensures CategoryLookup(CacheAfterAll(cache, env, series, cats), env, series, other)
         == CategoryLookup(cache, env, series, other)
    decreases |cats|
  {
    if cats != [] {
      CacheAfterAllCoherent(cache, env, series, cats[..|cats| - 1], other);
      CacheCoherent(CacheAfterAll(cache, env, series, cats[..|cats| - 1]), env, series, cats[|cats| - 1].file, other);
    }
  }

  /** Loading several files keeps every cached entry, and each entry added is the key of one
      of the files holding the list that file loads against the cache at the start. */
  lemma {:induction false} CacheAfterAllStores(cache: map<string, seq<Wallpaper>>, env: Env, series: string,
                                               cats: seq<CategoryRef>)
    ensures var r := CacheAfterAll(cache, env, series, cats);
      (forall k :: k in cache ==> k in r && r[k] == cache[k])
      && (forall k :: k in r && k !in cache ==>
            exists i :: (0 <= i < |cats| && k == CacheKey(series, cats[i].file)
                         && CategoryLookup(cache, env, series, cats[i].file) == Ok(r[k])))
    decreases |cats|
  {
    if cats != [] {
      var n := |cats| - 1;
      var front := cats[..n];
      var c := CacheAfterAll(cache, env, series, front);
      var r := CacheAfterAll(cache, env, series, cats);
      assert r == CacheAfter(c, env, series, cats[n].file);
      CacheAfterAllStores(cache, env, series, front);
      CacheAfterStores(c, env, series, cats[n].file);
      forall k | k in r && k !in cache
        ensures exists i :: (0 <= i < |cats| && k == CacheKey(series, cats[i].file)
                             && CategoryLookup(cache, env, series, cats[i].file) == Ok(r[k]))
      {
        if k in c {
          var j :| 0 <= j < |front| && k == CacheKey(series, front[j].file)
            && CategoryLookup(cache, env, series, front[j].file) == Ok(c[k]);
          assert cats[j] == front[j];
        } else {
          CacheAfterAllCoherent(cache, env, series, front, cats[n].file);
          assert k == CacheKey(series, cats[n].file);
        }
      }
    }
  }

  /** The prefix `${seriesId}:` that marks a series' category keys. */
  predicate OfSeries(series: string, key: string) {
    IsPrefix(series + ":", key)
  }

  // ---------------------------------------------------------------------------------------
  // The background walk

  /** `loadRemainingCategories`: in order, a file already loaded is skipped, a loaded list is
      appended and its file recorded, a failure is passed over. `lookup` is what loading a
      file yields. */
  function Walk(ws: seq<Wallpaper>, loaded: set<string>, lookup: string -> Result<seq<Wallpaper>>,
                cats: seq<CategoryRef>): (seq<Wallpaper>, set<string>)
    decreases |cats|
  {
    if cats == [] then (ws, loaded)
    else
      var f := cats[0].file;
      if f in loaded then Walk(ws, loaded, lookup, cats[1..])
      else match lookup(f)
        case Ok(l) => Walk(ws + l, loaded + {f}, lookup, cats[1..])
        case Err(_) => Walk(ws, loaded, lookup, cats[1..])
  }

  /** The walk only appends: the old list stays a prefix, the old files stay recorded, and it
      records exactly the files that were not loaded and load successfully. */
  lemma {:induction false} WalkAppends(ws: seq<Wallpaper>, loaded: set<string>,
                                       lookup: string -> Result<seq<Wallpaper>>, cats: seq<CategoryRef>)
    ensures var (ws', loaded') := Walk(ws, loaded, lookup, cats);
      ws <= ws' && loaded <= loaded'
      && forall f :: f in loaded' - loaded <==> f in Files(cats) && f !in loaded && lookup(f).Ok?
    decreases |cats|
  {
    if cats != [] {
      var f := cats[0].file;
      FilesCons(cats);
      if f in loaded {
        WalkAppends(ws, loaded, lookup, cats[1..]);
      } else if lookup(f).Ok? {
        WalkAppends(ws + lookup(f).value, loaded + {f}, lookup, cats[1..]);
      } else {
        WalkAppends(ws, loaded, lookup, cats[1..]);
      }
    }
  }

  lemma FilesCons(cats: seq<CategoryRef>)
    requires cats != []
    ensures Files(cats) == {cats[0].file} + Files(cats[1..])
  {
    forall f | f in Files(cats) ensures f in {cats[0].file} + Files(cats[1..]) {
      var i :| 0 <= i < |cats| && cats[i].file == f;
      if i > 0 {
        assert cats[1..][i - 1].file == f;
      }
    }
    forall f | f in Files(cats[1..]) ensures f in Files(cats) {
      var i :| 0 <= i < |cats| - 1 && cats[1..][i].file == f;
      assert cats[i + 1].file == f;
    }
  }

  /** A walk over categories that are all loaded changes nothing. */
  lemma {:induction false} WalkAllLoaded(ws: seq<Wallpaper>, loaded: set<string>,
                                         lookup: string -> Result<seq<Wallpaper>>, cats: seq<CategoryRef>)
    requires forall i :: 0 <= i < |cats| ==> cats[i].file in loaded
    ensures Walk(ws, loaded, lookup, cats) == (ws, loaded)
    decreases |cats|
  {
    if cats != [] {
      WalkAllLoaded(ws, loaded, lookup, cats[1..]);
    }
  }

  /** The category cache after the walk: in order, a file already recorded is skipped, any
      other file is loaded (and cached when it loads) and recorded when it loads. */
  function WalkCache(cache: map<string, seq<Wallpaper>>, loaded: set<string>, env: Env, series: string,
                     cats: seq<CategoryRef>): map<string, seq<Wallpaper>>
    decreases |cats|
  {
    if cats == [] then cache
    else
      var f := cats[0].file;
      if f in loaded then WalkCache(cache, loaded, env, series, cats[1..])
      else
        var l := CategoryLookup(cache, env, series, f);
        WalkCache(CacheAfter(cache, env, series, f), if l.Ok? then loaded + {f} else loaded, env, series, cats[1..])
  }

  /** The walk keeps every cached entry, and each entry it adds is the key of one of its
      files holding the list that file loads against the cache at the start. */
  lemma {:induction false} WalkCacheStores(cache: map<string, seq<Wallpaper>>, loaded: set<string>, env: Env,
                                           series: string, cats: seq<CategoryRef>)
    ensures var r := WalkCache(cache, loaded, env, series, cats);
      (forall k :: k in cache ==> k in r && r[k] == cache[k])
      && (forall k :: k in r && k !in cache ==>
            exists i :: (0 <= i < |cats| && k == CacheKey(series, cats[i].file)
                         && CategoryLookup(cache, env, series, cats[i].file) == Ok(r[k])))
    decreases |cats|
  {
    if cats != [] {
      var f := cats[0].file;
      var r := WalkCache(cache, loaded, env, series, cats);
      if f in loaded {
        WalkCacheStores(cache, loaded, env, series, cats[1..]);
        forall k | k in r && k !in cache
          ensures exists i :: (0 <= i < |cats| && k == CacheKey(series, cats[i].file)
                               && CategoryLookup(cache, env, series, cats[i].file) == Ok(r[k]))
        {
          var j :| 0 <= j < |cats[1..]| && k == CacheKey(series, cats[1..][j].file)
            && CategoryLookup(cache, env, series, cats[1..][j].file) == Ok(r[k]);
          assert cats[j + 1] == cats[1..][j];
        }
      } else {
        var l := CategoryLookup(cache, env, series, f);
        var c := CacheAfter(cache, env, series, f);
        var loaded' := if l.Ok? then loaded + {f} else loaded;
        assert r == WalkCache(c, loaded', env, series, cats[1..]);
        WalkCacheStores(c, loaded', env, series, cats[1..]);
        CacheAfterStores(cache, env, series, f);
        forall k | k in r && k !in cache
          ensures exists i :: (0 <= i < |cats| && k == CacheKey(series, cats[i].file)
                               && CategoryLookup(cache, env, series, cats[i].file) == Ok(r[k]))
        {
          if k in c {
            assert k == CacheKey(series, cats[0].file) && l == Ok(c[k]);
          } else {
            var j :| 0 <= j < |cats[1..]| && k == CacheKey(series, cats[1..][j].file)
              && CategoryLookup(c, env, series, cats[1..][j].file) == Ok(r[k]);
            CacheCoherent(cache, env, series, f, cats[1..][j].file);
            assert cats[j + 1] == cats[1..][j];
          }
        }
      }
    }
  }

  /** One step of the walk, for the list and the loaded files and for the cache, when the
      cache answers every lookup of the series as `lookup` does. */
  lemma WalkStep(ws: seq<Wallpaper>, loaded: set<string>, cache: map<string, seq<Wallpaper>>,
                 lookup: string -> Result<seq<Wallpaper>>, env: Env, series: string, cats: seq<CategoryRef>)
    requires cats != []
    requires lookup(cats[0].file) == CategoryLookup(cache, env, series, cats[0].file)
    ensures var f := cats[0].file;
      var l := CategoryLookup(cache, env, series, f);
      var loaded' := if f !in loaded && l.Ok? then loaded + {f} else loaded;
      var ws' := if f !in loaded && l.Ok? then ws + l.value else ws;
      var cache' := if f in loaded then cache else CacheAfter(cache, env, series, f);
      Walk(ws, loaded, lookup, cats) == Walk(ws', loaded', lookup, cats[1..])
      && WalkCache(cache, loaded, env, series, cats) == WalkCache(cache', loaded', env, series, cats[1..])
  {
  }

  /** The first-screen slice of the index. */
  function Initial(cats: seq<CategoryRef>): (r: seq<CategoryRef>)
    ensures |r| == if |cats| < 3 then |cats| else 3
    ensures r <= cats
  {
    if |cats| < 3 then cats else cats[..3]
  }

  function Files(cats: seq<CategoryRef>): (r: set<string>)
    ensures forall f :: f in r <==> exists i :: 0 <= i < |cats| && cats[i].file == f
  {
    set i | 0 <= i < |cats| :: cats[i].file
  }

  /** The lists of the given categories as loaded against `cache`; a failed load counts as
      the empty list. */
  function Lists(cache: map<string, seq<Wallpaper>>, env: Env, series: string, cats: seq<CategoryRef>)
    : (r: seq<seq<Wallpaper>>)
    ensures |r| == |cats|
    ensures forall i :: 0 <= i < |cats| ==> r[i] == ListOr(CategoryLookup(cache, env, series, cats[i].file))
  {
    seq(|cats|, i requires 0 <= i < |cats| => ListOr(CategoryLookup(cache, env, series, cats[i].file)))
  }

  /** What loading each file of `cats` against `cache` returns. */
  function Lookups(cache: map<string, seq<Wallpaper>>, env: Env, series: string, cats: seq<CategoryRef>)
    : (r: seq<Result<seq<Wallpaper>>>)
    ensures |r| == |cats|
    ensures forall i :: 0 <= i < |cats| ==> r[i] == CategoryLookup(cache, env, series, cats[i].file)
  {
    seq(|cats|, i requires 0 <= i < |cats| => CategoryLookup(cache, env, series, cats[i].file))
  }

  /** The lists of settled loads, nothing for a failed one. */
  function ListsOf(rs: seq<Result<seq<Wallpaper>>>): (r: seq<seq<Wallpaper>>)
    ensures |r| == |rs|
    ensures forall i :: 0 <= i < |rs| ==> r[i] == ListOr(rs[i])
  {
    seq(|rs|, i requires 0 <= i < |rs| => ListOr(rs[i]))
  }

  /** The rejection of `Promise.all` over settled loads: the message of the first failure,
      none exactly when every load succeeded. */
  function FirstError(rs: seq<Result<seq<Wallpaper>>>): (r: Option<string>)
    ensures r.None? <==> forall j :: 0 <= j < |rs| ==> rs[j].Ok?
  {
    if rs == [] then None
    else if rs[0].Err? then Some(rs[0].msg)
    else FirstError(rs[1..])
  }

  /** The message is that of a failed load with only successes before it. */
  lemma {:induction false} FirstErrorIsFirst(rs: seq<Result<seq<Wallpaper>>>)
    requires FirstError(rs).Some?
    ensures exists j :: 0 <= j < |rs| && rs[j] == Err(FirstError(rs).value) && forall k :: 0 <= k < j ==> rs[k].Ok?
  {
    if rs[0].Ok? {
      FirstErrorIsFirst(rs[1..]);
      var j :| 0 <= j < |rs[1..]| && rs[1..][j] == Err(FirstError(rs[1..]).value)
        && forall k :: 0 <= k < j ==> rs[1..][k].Ok?;
      assert rs[j + 1] == Err(FirstError(rs).value);
      assert forall k :: 0 <= k < j + 1 ==> rs[k].Ok? by {
        forall k | 0 <= k < j + 1 ensures rs[k].Ok? {
          if k > 0 {
            assert rs[k] == rs[1..][k - 1];
          }
        }
      }
    }
  }

  /** What `Promise.all` makes of the loads of `cats`: no failure exactly when every load
      succeeds, and then the lists in order. */
  lemma SettledLoads(cache: map<string, seq<Wallpaper>>, env: Env, series: string, cats: seq<CategoryRef>)
    ensures var rs := Lookups(cache, env, series, cats);
      (FirstError(rs).None? ==> ListsOf(rs) == Lists(cache, env, series, cats))
      && (FirstError(rs).None? ==> forall j :: 0 <= j < |cats| ==> CategoryLookup(cache, env, series, cats[j].file).Ok?)
      && (FirstError(rs).Some? <==> exists j :: 0 <= j < |cats| && CategoryLookup(cache, env, series, cats[j].file).Err?)
  {
    var rs := Lookups(cache, env, series, cats);
    if FirstError(rs).Some? {
      var j :| 0 <= j < |rs| && rs[j].Err?;
      assert CategoryLookup(cache, env, series, cats[j].file).Err?;
    }
  }

  /** The list a load produced, or nothing for a failed load. */
  function ListOr(r: Result<seq<Wallpaper>>): seq<Wallpaper> {
    match r
    case Ok(l) => l
    case Err(_) => []
  }

  /** The key walk of `clearCache(seriesId)`: every key of the series is deleted, every
      other entry stays as it is. */
  method DropSeries(cache: map<string, seq<Wallpaper>>, seriesId: string) returns (r: map<string, seq<Wallpaper>>)
    ensures r == (map k | k in cache && !OfSeries(seriesId, k) :: cache[k])
  {
    r := cache;
    var keys := cache.Keys;
    while keys != {}
      invariant keys <= cache.Keys
      invariant forall k :: k in r <==> k in cache && (k in keys || !OfSeries(seriesId, k))
      invariant forall k :: k in r ==> r[k] == cache[k]
      decreases |keys|
    {
      var k :| k in keys;
      if OfSeries(seriesId, k) {
        r := r - {k};
      }
      keys := keys - {k};
    }
  }

  // ---------------------------------------------------------------------------------------
  // The store

  class WallpaperStore {
    var seriesIndexCache: map<string, IndexData>
    var categoryCache: map<string, seq<Wallpaper>>
    var wallpapers: seq<Wallpaper>
    var currentLoadedSeries: string
    var loadedCategories: set<string>
    var loading: bool
    var error: Option<string>

    constructor ()
      ensures seriesIndexCache == map[] && categoryCache == map[] && wallpapers == []
      ensures currentLoadedSeries == "" && loadedCategories == {} && !loading && error == None
    {
      seriesIndexCache := map[];
      categoryCache := map[];
      wallpapers := [];
      currentLoadedSeries := "";
      loadedCategories := {};
      loading := false;
      error := None;
    }

    /** The getter `loaded`. */
    predicate Loaded()
      reads this
    {
      |wallpapers| > 0
    }

    /** The getter `statistics`. */
    function Statistics(): (r: Catalog.Statistics)
      reads this
      ensures r.total == |wallpapers| && r.jpg + r.png <= r.total
    {
      GetStatistics(wallpapers)
    }

    /** `loadSeriesIndex(seriesId)`: a cached index without a request; an unknown series is
        an error; a fetched index is cached. A failure leaves the cache as it was. */
    method LoadSeriesIndex(seriesId: string, env: Env) returns (r: Result<IndexData>)
      modifies this
      ensures categoryCache == old(categoryCache) && wallpapers == old(wallpapers)
      ensures loadedCategories == old(loadedCategories) && currentLoadedSeries == old(currentLoadedSeries)
      ensures loading == old(loading) && error == old(error)
      ensures seriesId in old(seriesIndexCache) ==>
        r == Ok(old(seriesIndexCache)[seriesId]) && seriesIndexCache == old(seriesIndexCache)
      ensures seriesId !in old(seriesIndexCache) && !IsSeries(seriesId) ==>
        r == Err(InvalidSeries(seriesId)) && seriesIndexCache == old(seriesIndexCache)
      ensures seriesId !in old(seriesIndexCache) && IsSeries(seriesId) ==>
        r == FetchedIndex(env, seriesId)
        && seriesIndexCache == if r.Ok? then old(seriesIndexCache)[seriesId := r.value] else old(seriesIndexCache)
      ensures r == IndexLookup(old(seriesIndexCache), env, seriesId)
      ensures seriesIndexCache == IndexCacheAfter(old(seriesIndexCache), env, seriesId)
    {
      if seriesId in seriesIndexCache {
        return Ok(seriesIndexCache[seriesId]);
      }
      if !IsSeries(seriesId) {
        return Err(InvalidSeries(seriesId));
      }
      r := FetchedIndex(env, seriesId);
      if r.Ok? {
        seriesIndexCache := seriesIndexCache[seriesId := r.value];
      }
    }

    /** `loadCategory(seriesId, categoryFile)`: the result and the new cache are those of
        `CategoryLookup` and `CacheAfter`. */
    method LoadCategory(seriesId: string, file: string, env: Env) returns (r: Result<seq<Wallpaper>>)
      modifies this
      ensures r == CategoryLookup(old(categoryCache), env, seriesId, file)
      ensures categoryCache == CacheAfter(old(categoryCache), env, seriesId, file)
      ensures seriesIndexCache == old(seriesIndexCache) && wallpapers == old(wallpapers)
      ensures loadedCategories == old(loadedCategories) && currentLoadedSeries == old(currentLoadedSeries)
      ensures loading == old(loading) && error == old(error)
    {
      var key := CacheKey(seriesId, file);
      if key in categoryCache {
        return Ok(categoryCache[key]);
      }
      if !IsSeries(seriesId) {
        return Err(InvalidSeries(seriesId));
      }
      r := FetchedCategory(env, seriesId, file);
      if r.Ok? {
        categoryCache := categoryCache[key := r.value];
      }
    }

    /** `initSeries(seriesId, forceRefresh)`. Skipped when not forced, the series is current
        and the list is nonempty. Otherwise the recorded files are cleared and the index is
        loaded, then the first (up to) three categories of it. The call succeeds exactly when
        the index loads, has categories, and each of those loads succeeds; the list is then
        their concatenation in index order, their files are recorded, and the remaining
        categories are returned for the background walk. A failure empties the list and
        records the failure's message (the fixed text when it is empty). `loading` ends false. */
    method InitSeries(seriesId: string, forceRefresh: bool, env: Env) returns (pending: seq<CategoryRef>)
      modifies this
      ensures !forceRefresh && old(currentLoadedSeries) == seriesId && |old(wallpapers)| > 0 ==>
        wallpapers == old(wallpapers) && loadedCategories == old(loadedCategories)
        && error == old(error) && loading == old(loading) && pending == []
        && categoryCache == old(categoryCache) && seriesIndexCache == old(seriesIndexCache)
        && currentLoadedSeries == old(currentLoadedSeries)
      ensures !(!forceRefresh && old(currentLoadedSeries) == seriesId && |old(wallpapers)| > 0) ==>
        currentLoadedSeries == seriesId && !loading
        && seriesIndexCache == IndexCacheAfter(old(seriesIndexCache), env, seriesId)
      ensures !(!forceRefresh && old(currentLoadedSeries) == seriesId && |old(wallpapers)| > 0) ==>
        var idx := IndexLookup(old(seriesIndexCache), env, seriesId);
        (error.None? <==>
           idx.Ok? && idx.value.categories.Some?
           && forall i :: 0 <= i < |Initial(idx.value.categories.value)| ==>
                CategoryLookup(old(categoryCache), env, seriesId, Initial(idx.value.categories.value)[i].file).Ok?)
      ensures !(!forceRefresh && old(currentLoadedSeries) == seriesId && |old(wallpapers)| > 0) && error.Some? ==>
        wallpapers == [] && pending == [] && loadedCategories == {}
      ensures !(!forceRefresh && old(currentLoadedSeries) == seriesId && |old(wallpapers)| > 0) ==>
        var idx := IndexLookup(old(seriesIndexCache), env, seriesId);
        (idx.Err? ==> error == Some(ErrorMessage(idx.msg)) && categoryCache == old(categoryCache))
        && (idx.Ok? && idx.value.categories.None? ==>
              error == Some(NoCategories) && categoryCache == old(categoryCache))
      ensures !(!forceRefresh && old(currentLoadedSeries) == seriesId && |old(wallpapers)| > 0) ==>
        var idx := IndexLookup(old(seriesIndexCache), env, seriesId);
        idx.Ok? && idx.value.categories.Some? ==>
          var cats := idx.value.categories.value;
          var initial := Initial(cats);
          categoryCache == CacheAfterAll(old(categoryCache), env, seriesId, initial)
          && (error.Some? ==>
                error == Some(ErrorMessage(FirstError(Lookups(old(categoryCache), env, seriesId, initial)).value)))
          && (error.None? ==>
                wallpapers == Seqs.Flatten(Lists(old(categoryCache), env, seriesId, initial))
                && loadedCategories == Files(initial) && pending == cats[|initial|..])
      ensures forall f :: CategoryLookup(categoryCache, env, seriesId, f) == CategoryLookup(old(categoryCache), env, seriesId, f)
    {
      if !forceRefresh && currentLoadedSeries == seriesId && |wallpapers| > 0 {
        return [];
      }
      loading := true;
      error := None;
      currentLoadedSeries := seriesId;
      loadedCategories := {};
      pending := [];
      var thrown: Option<string> := None;
      var idx := LoadSeriesIndex(seriesId, env);
      if idx.Err? {
        thrown := Some(idx.msg);
      } else if idx.value.categories.None? {
        thrown := Some(NoCategories);
      } else {
        var cats := idx.value.categories.value;
        var initial := Initial(cats);
        var lists, failure := LoadInitial(seriesId, initial, env);
        if failure.Some? {
          thrown := failure;
        } else {
          wallpapers := Seqs.Flatten(lists);
          loadedCategories := Files(initial);
          pending := cats[|initial|..];
        }
      }
      if thrown.Some? {
        error := Some(ErrorMessage(thrown.value));
        wallpapers := [];
      }
      loading := false;
    }

    /** The `Promise.all` over the first categories: one list per category, in order, each
        loaded against the cache as it was before; `failure` holds the first error. */
    method LoadInitial(seriesId: string, initial: seq<CategoryRef>, env: Env)
      returns (lists: seq<seq<Wallpaper>>, failure: Option<string>)
      modifies this
      ensures failure.None? ==> lists == Lists(old(categoryCache), env, seriesId, initial)
      ensures failure.None? ==> forall j :: 0 <= j < |initial| ==>
        CategoryLookup(old(categoryCache), env, seriesId, initial[j].file).Ok?
      ensures failure.Some? <==>
        exists j :: 0 <= j < |initial| && CategoryLookup(old(categoryCache), env, seriesId, initial[j].file).Err?
      ensures failure == FirstError(Lookups(old(categoryCache), env, seriesId, initial))
      ensures categoryCache == CacheAfterAll(old(categoryCache), env, seriesId, initial)
      ensures forall f :: CategoryLookup(categoryCache, env, seriesId, f) == CategoryLookup(old(categoryCache), env, seriesId, f)
      ensures seriesIndexCache == old(seriesIndexCache) && wallpapers == old(wallpapers)
      ensures loadedCategories == old(loadedCategories) && currentLoadedSeries == old(currentLoadedSeries)
      ensures loading == old(loading) && error == old(error)
    {
      ghost var cache0 := categoryCache;
      ghost var results := Lookups(cache0, env, seriesId, initial);
      var settled: seq<Result<seq<Wallpaper>>> := [];
      var i := 0;
      while i < |initial|
        invariant 0 <= i <= |initial|
        invariant categoryCache == CacheAfterAll(cache0, env, seriesId, initial[..i])
        invariant settled == results[..i]
        invariant seriesIndexCache == old(seriesIndexCache) && wallpapers == old(wallpapers)
        invariant loadedCategories == old(loadedCategories) && currentLoadedSeries == old(currentLoadedSeries)
        invariant loading == old(loading) && error == old(error)
      {
        CacheAfterAllCoherent(cache0, env, seriesId, initial[..i], initial[i].file);
        CacheAfterAllSnoc(cache0, env, seriesId, initial, i);
        var r := LoadCategory(seriesId, initial[i].file, env);
        assert results[..i + 1] == results[..i] + [r];
        settled := settled + [r];
        i := i + 1;
      }
      assert settled == results;
      lists := ListsOf(settled);
      failure := FirstError(settled);
      SettledLoads(cache0, env, seriesId, initial);
      assert initial[..|initial|] == initial;
      forall f ensures CategoryLookup(categoryCache, env, seriesId, f) == CategoryLookup(cache0, env, seriesId, f) {
        CacheAfterAllCoherent(cache0, env, seriesId, initial, f);
      }
    }

    /** `loadRemainingCategories(seriesId, categories)`: the list and the recorded files end
        as `Walk` says, with each file loaded against the cache as it was at the start. */
    method LoadRemainingCategories(seriesId: string, cats: seq<CategoryRef>, env: Env)
      modifies this
      ensures (wallpapers, loadedCategories)
        == Walk(old(wallpapers), old(loadedCategories),
                f => CategoryLookup(old(categoryCache), env, seriesId, f), cats)
      ensures categoryCache == WalkCache(old(categoryCache), old(loadedCategories), env, seriesId, cats)
      ensures forall f :: CategoryLookup(categoryCache, env, seriesId, f) == CategoryLookup(old(categoryCache), env, seriesId, f)
      ensures seriesIndexCache == old(seriesIndexCache) && currentLoadedSeries == old(currentLoadedSeries)
      ensures loading == old(loading) && error == old(error)
    {
      ghost var cache0 := categoryCache;
      ghost var lookup := f => CategoryLookup(cache0, env, seriesId, f);
      var i := 0;
      while i < |cats|
        invariant 0 <= i <= |cats|
        invariant Walk(wallpapers, loadedCategories, lookup, cats[i..])
               == Walk(old(wallpapers), old(loadedCategories), lookup, cats)
        invariant WalkCache(categoryCache, loadedCategories, env, seriesId, cats[i..])
               == WalkCache(old(categoryCache), old(loadedCategories), env, seriesId, cats)
        invariant forall f :: CategoryLookup(categoryCache, env, seriesId, f) == CategoryLookup(cache0, env, seriesId, f)
        invariant seriesIndexCache == old(seriesIndexCache) && currentLoadedSeries == old(currentLoadedSeries)
        invariant loading == old(loading) && error == old(error)
      {
        var file := cats[i].file;
        assert cats[i..][0] == cats[i] && cats[i..][1..] == cats[i + 1..];
        WalkStep(wallpapers, loadedCategories, categoryCache, lookup, env, seriesId, cats[i..]);
        if file !in loadedCategories {
          ghost var before := categoryCache;
          var r := LoadCategory(seriesId, file, env);
          forall f ensures CategoryLookup(categoryCache, env, seriesId, f) == CategoryLookup(cache0, env, seriesId, f) {
            CacheCoherent(before, env, seriesId, file, f);
          }
          if r.Ok? {
            wallpapers := wallpapers + r.value;
            loadedCategories := loadedCategories + {file};
          }
        }
        i := i + 1;
      }
    }

    /** `loadAllCategories(seriesId)`: without a cached index it only loads the index (and
        returns its error); an index without categories is an error; otherwise the
        categories not yet loaded are walked with `loading` set for the duration. The
        series and the error field are never touched. */
    method LoadAllCategories(seriesId: string, env: Env) returns (err: Option<string>)
      modifies this
      ensures currentLoadedSeries == old(currentLoadedSeries) && error == old(error)
      ensures seriesId !in old(seriesIndexCache) ==>
        wallpapers == old(wallpapers) && loadedCategories == old(loadedCategories)
        && categoryCache == old(categoryCache) && loading == old(loading)
        && seriesIndexCache == IndexCacheAfter(old(seriesIndexCache), env, seriesId)
      ensures seriesId !in old(seriesIndexCache) && !IsSeries(seriesId) ==>
        err == Some(InvalidSeries(seriesId)) && seriesIndexCache == old(seriesIndexCache)
      ensures seriesId !in old(seriesIndexCache) && IsSeries(seriesId) ==>
        var f := FetchedIndex(env, seriesId);
        err == (if f.Err? then Some(f.msg) else None)
        && seriesIndexCache == if f.Ok? then old(seriesIndexCache)[seriesId := f.value] else old(seriesIndexCache)
      ensures seriesId in old(seriesIndexCache) ==> seriesIndexCache == old(seriesIndexCache)
      ensures seriesId in old(seriesIndexCache) && old(seriesIndexCache)[seriesId].categories.Some? ==>
        var cats := old(seriesIndexCache)[seriesId].categories.value;
        err == None
        && ((forall i :: 0 <= i < |cats| ==> cats[i].file in old(loadedCategories)) ==> loading == old(loading))
        && (!(forall i :: 0 <= i < |cats| ==> cats[i].file in old(loadedCategories)) ==> !loading)
        && (wallpapers, loadedCategories)
          == Walk(old(wallpapers), old(loadedCategories),
                  f => CategoryLookup(old(categoryCache), env, seriesId, f), cats)
        && categoryCache == WalkCache(old(categoryCache), old(loadedCategories), env, seriesId, cats)
      ensures seriesId in old(seriesIndexCache) && old(seriesIndexCache)[seriesId].categories.None? ==>
        err == Some(NoCategories) && wallpapers == old(wallpapers) && categoryCache == old(categoryCache)
        && loadedCategories == old(loadedCategories) && loading == old(loading)
    {
      if seriesId !in seriesIndexCache {
        var r := LoadSeriesIndex(seriesId, env);
        return if r.Err? then Some(r.msg) else None;
      }
      var indexData := seriesIndexCache[seriesId];
      if indexData.categories.None? {
        return Some(NoCategories);
      }
      var cats := indexData.categories.value;
      var loaded, cache := loadedCategories, categoryCache;
      var unloaded := Seqs.Filter(cats, (c: CategoryRef) => c.file !in loaded);
      SkipLoaded(wallpapers, loaded, loaded, f => CategoryLookup(cache, env, seriesId, f), cats);
      SkipLoadedCache(cache, loaded, loaded, env, seriesId, cats);
      if |unloaded| == 0 {
        NoneUnloaded(cats, loaded);
        return None;
      }
      loading := true;
      LoadRemainingCategories(seriesId, unloaded, env);
      loading := false;
      return None;
    }

    /** `clearCache(seriesId)`: with a series, its index and exactly the category keys with
        its prefix go; without one, both caches are emptied. The list and the recorded files
        are untouched. */
    method ClearCache(seriesId: string)
      modifies this
      ensures seriesId != "" ==> seriesIndexCache == old(seriesIndexCache) - {seriesId}
      ensures seriesId != "" ==> categoryCache == (map k | k in old(categoryCache) && !OfSeries(seriesId, k) :: old(categoryCache)[k])
      ensures seriesId == "" ==> seriesIndexCache == map[] && categoryCache == map[]
      ensures wallpapers == old(wallpapers) && loadedCategories == old(loadedCategories)
      ensures currentLoadedSeries == old(currentLoadedSeries) && loading == old(loading) && error == old(error)
    {
      if seriesId == "" {
        seriesIndexCache := map[];
        categoryCache := map[];
        return;
      }
      seriesIndexCache := seriesIndexCache - {seriesId};
      categoryCache := DropSeries(categoryCache, seriesId);
    }
  }

  /** Walking only the categories outside a set of loaded files is the same as walking all
      of them: those files are skipped anyway. */
  lemma {:induction false} SkipLoaded(ws: seq<Wallpaper>, loaded: set<string>, skip: set<string>,
                                      lookup: string -> Result<seq<Wallpaper>>, cats: seq<CategoryRef>)
    requires skip <= loaded
    ensures Walk(ws, loaded, lookup, Seqs.Filter(cats, (c: CategoryRef) => c.file !in skip))
         == Walk(ws, loaded, lookup, cats)
    decreases |cats|
  {
    if cats != [] {
      var f := cats[0].file;
      var p := (c: CategoryRef) => c.file !in skip;
      assert Seqs.Filter(cats, p) == (if p(cats[0]) then [cats[0]] else []) + Seqs.Filter(cats[1..], p);
      var rest := Seqs.Filter(cats[1..], p);
      var t := [cats[0]] + rest;
      assert t[0] == cats[0] && t[1..] == rest;
      if f in loaded {
        SkipLoaded(ws, loaded, skip, lookup, cats[1..]);
        if p(cats[0]) {
          assert Walk(ws, loaded, lookup, t) == Walk(ws, loaded, lookup, rest);
        } else {
          assert Seqs.Filter(cats, p) == rest;
        }
      } else if lookup(f).Ok? {
        SkipLoaded(ws + lookup(f).value, loaded + {f}, skip, lookup, cats[1..]);
        assert Walk(ws, loaded, lookup, t) == Walk(ws + lookup(f).value, loaded + {f}, lookup, rest);
        assert skip <= loaded + {f};
      } else {
        SkipLoaded(ws, loaded, skip, lookup, cats[1..]);
        assert Walk(ws, loaded, lookup, t) == Walk(ws, loaded, lookup, rest);
      }
    }
  }

  /** The cache after walking only the categories outside a set of loaded files is the cache
      after walking all of them. */
  lemma {:induction false} SkipLoadedCache(cache: map<string, seq<Wallpaper>>, loaded: set<string>, skip: set<string>,
                                           env: Env, series: string, cats: seq<CategoryRef>)
    requires skip <= loaded
    ensures WalkCache(cache, loaded, env, series, Seqs.Filter(cats, (c: CategoryRef) => c.file !in skip))
         == WalkCache(cache, loaded, env, series, cats)
    decreases |cats|
  {
    if cats != [] {
      var f := cats[0].file;
      var p := (c: CategoryRef) => c.file !in skip;
      assert Seqs.Filter(cats, p) == (if p(cats[0]) then [cats[0]] else []) + Seqs.Filter(cats[1..], p);
      var rest := Seqs.Filter(cats[1..], p);
      var t := [cats[0]] + rest;
      assert t[0] == cats[0] && t[1..] == rest;
      if f in loaded {
        SkipLoadedCache(cache, loaded, skip, env, series, cats[1..]);
        if p(cats[0]) {
          assert WalkCache(cache, loaded, env, series, t) == WalkCache(cache, loaded, env, series, rest);
        } else {
          assert Seqs.Filter(cats, p) == rest;
        }
      } else {
        var l := CategoryLookup(cache, env, series, f);
        var c := CacheAfter(cache, env, series, f);
        var loaded' := if l.Ok? then loaded + {f} else loaded;
        SkipLoadedCache(c, loaded', skip, env, series, cats[1..]);
        assert WalkCache(cache, loaded, env, series, t) == WalkCache(c, loaded', env, series, rest);
      }
    }
  }

  /** No category left after filtering means every file is loaded. */
  lemma NoneUnloaded(cats: seq<CategoryRef>, loaded: set<string>)
    requires |Seqs.Filter(cats, (c: CategoryRef) => c.file !in loaded)| == 0
    ensures forall i :: 0 <= i < |cats| ==> cats[i].file in loaded
  {
    forall i | 0 <= i < |cats| ensures cats[i].file in loaded {
      if cats[i].file !in loaded {
        Seqs.CountPositive(cats, (c: CategoryRef) => c.file !in loaded, i);
        Seqs.CountIsFilterLength(cats, (c: CategoryRef) => c.file !in loaded);
      }
    }
  }
}
