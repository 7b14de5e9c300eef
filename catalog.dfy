/** The catalog entry and the per-list derived values that the wallpaper store
    (src/stores/wallpaper.js) and the wallpapers composable (src/composables/useWallpapers.js)
    both define in the same way: statistics, lookup by id, and previous/next navigation. */
module Catalog {
  import opened Wrappers
  import Seqs

  /** A resolution tag attached at build time. */
  datatype Resolution = Resolution(width: int, height: int, labelText: string, kind: string)

  /** One catalog entry. String fields use "" for an absent or empty value, since JavaScript
      treats both as false; `Option` is used where absence and "" behave differently. */
  datatype Wallpaper = Wallpaper(
    id: string,
    filename: string,
    category: Option<string>,
    subcategory: Option<string>,
    tags: seq<string>,
    path: string,
    thumbnailPath: string,
    previewPath: Option<string>,
    url: string,
    thumbnailUrl: string,
    previewUrl: Option<string>,
    downloadUrl: string,
    size: Option<int>,
    format: string,
    createdAt: int,
    sha: string,
    resolution: Option<Resolution>)

  /** JavaScript truthiness of an optional string. */
  predicate Truthy(o: Option<string>) {
    o.Some? && o.value != ""
  }

  /** `w.size || 0`. */
  function SizeOrZero(w: Wallpaper): int {
    if w.size.Some? then w.size.value else 0
  }

  predicate IsJpg(w: Wallpaper) {
    w.format == "JPG" || w.format == "JPEG"
  }

  predicate IsPng(w: Wallpaper) {
    w.format == "PNG"
  }

  /** `items.reduce((sum, w) => sum + (w.size || 0), 0)`. */
  function TotalSize(ws: seq<Wallpaper>): int {
    if ws == [] then 0 else SizeOrZero(ws[0]) + TotalSize(ws[1..])
  }

  lemma {:induction false} TotalSizeAppend(a: seq<Wallpaper>, b: seq<Wallpaper>)
    ensures TotalSize(a + b) == TotalSize(a) + TotalSize(b)
  {
    if a == [] {
      assert a + b == b;
    } else {
      assert (a + b)[0] == a[0] && (a + b)[1..] == a[1..] + b;
      TotalSizeAppend(a[1..], b);
    }
  }

  datatype Statistics = Statistics(total: nat, jpg: nat, png: nat, totalSize: int)

  /** Two predicates that never hold together count at most the length between them. */
  lemma {:induction false} DisjointCounts(ws: seq<Wallpaper>)
    ensures Seqs.Count(ws, IsJpg) + Seqs.Count(ws, IsPng) <= |ws|
  {
    if ws != [] {
      DisjointCounts(ws[1..]);
    }
  }

  /** The `statistics` getter: the number of entries, of JPEG and of PNG entries, and the
      summed size with a missing size counted as 0. */
  function GetStatistics(ws: seq<Wallpaper>): (r: Statistics)
    ensures r.total == |ws|
    ensures r.jpg == |Seqs.Filter(ws, IsJpg)| && r.png == |Seqs.Filter(ws, IsPng)|
    ensures r.jpg + r.png <= r.total
    ensures r.totalSize == TotalSize(ws)
  {
    DisjointCounts(ws);
    Seqs.CountIsFilterLength(ws, IsJpg);
    Seqs.CountIsFilterLength(ws, IsPng);
    Statistics(|ws|, Seqs.Count(ws, IsJpg), Seqs.Count(ws, IsPng), TotalSize(ws))
  }

  lemma StatisticsOfAppend(a: seq<Wallpaper>, b: seq<Wallpaper>)
    ensures GetStatistics(a + b).totalSize == GetStatistics(a).totalSize + GetStatistics(b).totalSize
    ensures GetStatistics(a + b).jpg == GetStatistics(a).jpg + GetStatistics(b).jpg
    ensures GetStatistics(a + b).png == GetStatistics(a).png + GetStatistics(b).png
  {
    TotalSizeAppend(a, b);
    Seqs.CountAppend(a, b, IsJpg);
    Seqs.CountAppend(a, b, IsPng);
  }

  // ---------------------------------------------------------------------------------------
  // Lookup and navigation

  /** `k` is the first position whose entry has identifier `id`. */
  ghost predicate FirstIndexOf(ws: seq<Wallpaper>, id: string, k: int) {
    0 <= k < |ws| && ws[k].id == id && forall j :: 0 <= j < k ==> ws[j].id != id
  }

  ghost predicate Absent(ws: seq<Wallpaper>, id: string) {
    forall j :: 0 <= j < |ws| ==> ws[j].id != id
  }

  /** `findIndex(w => w.id === id)`: the first matching position, or -1. */
  function FindIndex(ws: seq<Wallpaper>, id: string): (r: int)
    ensures -1 <= r < |ws|
    ensures r >= 0 ==> FirstIndexOf(ws, id, r)
    ensures r == -1 <==> Absent(ws, id)
  {
    if ws == [] then -1
    else if ws[0].id == id then 0
    else
      var k := FindIndex(ws[1..], id);
      if k == -1 then -1 else k + 1
  }

  /** `find(w => w.id === id)`: the first entry with that identifier. */
  function GetById(ws: seq<Wallpaper>, id: string): (r: Option<Wallpaper>)
    ensures r.None? <==> Absent(ws, id)
    ensures r.Some? ==> exists k :: FirstIndexOf(ws, id, k) && r.value == ws[k]
  {
    var k := FindIndex(ws, id);
    if k < 0 then None else Some(ws[k])
  }

  /** The entry before the first one with identifier `id`; none when that one is first or
      when no entry has the identifier. */
  function GetPrev(ws: seq<Wallpaper>, id: string): (r: Option<Wallpaper>)
    ensures forall k :: FirstIndexOf(ws, id, k) ==> r == (if k > 0 then Some(ws[k - 1]) else None)
    ensures Absent(ws, id) ==> r == None
  {
    var k := FindIndex(ws, id);
    if k > 0 then Some(ws[k - 1]) else None
  }

  /** The entry after the first one with identifier `id`; none for the last entry. With no
      entry having the identifier the index is -1, so a nonempty list yields its first entry. */
  function GetNext(ws: seq<Wallpaper>, id: string): (r: Option<Wallpaper>)
    ensures forall k :: FirstIndexOf(ws, id, k) ==> r == (if k < |ws| - 1 then Some(ws[k + 1]) else None)
    ensures Absent(ws, id) ==> r == (if ws != [] then Some(ws[0]) else None)
  {
    var k := FindIndex(ws, id);
    if k < |ws| - 1 then Some(ws[k + 1]) else None
  }
}
