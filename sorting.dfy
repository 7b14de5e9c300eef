/** The comparator sorts of src/utils/sorting.js. Every one of them sorts a copy (`[...ws]`),
    so here each is a function of the input sequence: the result is a permutation of it,
    ordered by the comparator. `Array.prototype.sort` is stable; `Seqs.SortBy` is a stable
    insertion sort. */
module Sorting {
  import opened Catalog
  import Seqs

  /** The popularity table entry of a filename, as `popularityMap` holds it. */
  datatype PopInfo = PopInfo(rank: nat, score: int, downloads: int, views: int)

  type PopularityMap = map<string, PopInfo>

  /** `popularityMap.get(f)?.score || 0`, and likewise for downloads and views. */
  function ScoreOf(m: PopularityMap, w: Wallpaper): int {
    if w.filename in m then m[w.filename].score else 0
  }

  function DownloadsOf(m: PopularityMap, w: Wallpaper): int {
    if w.filename in m then m[w.filename].downloads else 0
  }

  function ViewsOf(m: PopularityMap, w: Wallpaper): int {
    if w.filename in m then m[w.filename].views else 0
  }

  // ---------------------------------------------------------------------------------------
  // Date

  /** The comparator of `sortByDate`: `dateB - dateA` for `'desc'`, `dateA - dateB` otherwise;
      `le(a, b)` holds when that comparator is at most 0. */
  function DateLe(order: string): (Wallpaper, Wallpaper) -> bool {
    if order == "desc" then (a: Wallpaper, b: Wallpaper) => b.createdAt <= a.createdAt
    else (a: Wallpaper, b: Wallpaper) => a.createdAt <= b.createdAt
  }

  lemma DateLePreorder(order: string)
    ensures Seqs.TotalPreorder(DateLe(order))
  {
  }

  /** `sortByDate(ws, order)`: newest first for `'desc'`, oldest first for any other order. */
  function SortByDate(ws: seq<Wallpaper>, order: string): (r: seq<Wallpaper>)
    ensures multiset(r) == multiset(ws)
    ensures order == "desc" ==> forall i, j :: 0 <= i < j < |r| ==> r[j].createdAt <= r[i].createdAt
    ensures order != "desc" ==> forall i, j :: 0 <= i < j < |r| ==> r[i].createdAt <= r[j].createdAt
  {
    DateLePreorder(order);
    Seqs.SortBySorted(ws, DateLe(order));
    Seqs.SortBy(ws, DateLe(order))
  }

  // ---------------------------------------------------------------------------------------
  // Counter sorts with a newest-first tie-break

  /** `countB === countA ? dateB - dateA : countB - countA`, at most 0. */
  function CountLe(count: Wallpaper -> int): (Wallpaper, Wallpaper) -> bool {
    (a: Wallpaper, b: Wallpaper) =>
      if count(b) == count(a) then b.createdAt <= a.createdAt else count(b) < count(a)
  }

  lemma CountLePreorder(count: Wallpaper -> int)
    ensures Seqs.TotalPreorder(CountLe(count))
  {
  }

  /** Ordered by `count` non-increasing, and by `createdAt` non-increasing among equal counts. */
  ghost predicate ByCountThenNewest(r: seq<Wallpaper>, count: Wallpaper -> int) {
    forall i, j :: 0 <= i < j < |r| ==>
      count(r[j]) < count(r[i]) || (count(r[j]) == count(r[i]) && r[j].createdAt <= r[i].createdAt)
  }

  function SortByCount(ws: seq<Wallpaper>, count: Wallpaper -> int): (r: seq<Wallpaper>)
    ensures multiset(r) == multiset(ws)
    ensures ByCountThenNewest(r, count)
  {
    CountLePreorder(count);
    Seqs.SortBySorted(ws, CountLe(count));
    Seqs.SortBy(ws, CountLe(count))
  }

  /** `sortByPopularity`: score non-increasing (a filename missing from the table scores 0),
      newest first among equal scores. */
  function SortByPopularity(ws: seq<Wallpaper>, m: PopularityMap): (r: seq<Wallpaper>)
    ensures multiset(r) == multiset(ws)
    ensures forall i, j :: 0 <= i < j < |r| ==>
      ScoreOf(m, r[j]) < ScoreOf(m, r[i])
      || (ScoreOf(m, r[j]) == ScoreOf(m, r[i]) && r[j].createdAt <= r[i].createdAt)
  {
    var r := SortByCount(ws, w => ScoreOf(m, w));
    assert ByCountThenNewest(r, w => ScoreOf(m, w));
    r
  }

  /** `sortByDownloads`: downloads non-increasing, newest first among equal counts. */
  function SortByDownloads(ws: seq<Wallpaper>, m: PopularityMap): (r: seq<Wallpaper>)
    ensures multiset(r) == multiset(ws)
    ensures forall i, j :: 0 <= i < j < |r| ==>
      DownloadsOf(m, r[j]) < DownloadsOf(m, r[i])
      || (DownloadsOf(m, r[j]) == DownloadsOf(m, r[i]) && r[j].createdAt <= r[i].createdAt)
  {
    var r := SortByCount(ws, w => DownloadsOf(m, w));
    assert ByCountThenNewest(r, w => DownloadsOf(m, w));
    r
  }

  /** `sortByViews`: views non-increasing, newest first among equal counts. */
  function SortByViews(ws: seq<Wallpaper>, m: PopularityMap): (r: seq<Wallpaper>)
    ensures multiset(r) == multiset(ws)
    ensures forall i, j :: 0 <= i < j < |r| ==>
      ViewsOf(m, r[j]) < ViewsOf(m, r[i])
      || (ViewsOf(m, r[j]) == ViewsOf(m, r[i]) && r[j].createdAt <= r[i].createdAt)
  {
    var r := SortByCount(ws, w => ViewsOf(m, w));
    assert ByCountThenNewest(r, w => ViewsOf(m, w));
    r
  }

  // ---------------------------------------------------------------------------------------
  // Size

  /** `b.size - a.size` (or `a.size - b.size`) at most 0. A missing size makes the difference
      `NaN`, which the sort reads as 0: such an entry compares equal to every other. */
  function SizeLe(order: string): (Wallpaper, Wallpaper) -> bool {
    (a: Wallpaper, b: Wallpaper) =>
      a.size.None? || b.size.None? ||
      (if order == "desc" then b.size.value <= a.size.value else a.size.value <= b.size.value)
  }

  predicate HasSize(w: Wallpaper) {
    w.size.Some?
  }

  ghost predicate AllSized(ws: seq<Wallpaper>) {
    Seqs.AllIn(ws, HasSize)
  }

  /** `sortBySize(ws, order)`: a permutation; when every entry has a size it is non-increasing
      in size for `'desc'` and non-decreasing otherwise. */
  function SortBySize(ws: seq<Wallpaper>, order: string): (r: seq<Wallpaper>)
    ensures multiset(r) == multiset(ws)
  {
    Seqs.SortBy(ws, SizeLe(order))
  }

  /** Among entries with a size the comparator is a total preorder. */
  lemma SizeLePreorder(order: string)
    ensures Seqs.TotalPreorderOn(SizeLe(order), HasSize)
  {
    var le := SizeLe(order);
    forall a: Wallpaper, b: Wallpaper, c: Wallpaper | HasSize(a) && HasSize(b) && HasSize(c) && le(a, b) && le(b, c)
      ensures le(a, c)
    {
      if order == "desc" {
        assert b.size.value <= a.size.value && c.size.value <= b.size.value;
      } else {
        assert a.size.value <= b.size.value && b.size.value <= c.size.value;
      }
    }
  }

  lemma SortBySizeOrdered(ws: seq<Wallpaper>, order: string)
    requires AllSized(ws)
    ensures var r := SortBySize(ws, order);
      (order == "desc" ==> forall i, j :: 0 <= i < j < |r| ==> SizeOrZero(r[j]) <= SizeOrZero(r[i]))
      && (order != "desc" ==> forall i, j :: 0 <= i < j < |r| ==> SizeOrZero(r[i]) <= SizeOrZero(r[j]))
  {
    var r := SortBySize(ws, order);
    SizeLePreorder(order);
    Seqs.SortBySortedOn(ws, SizeLe(order), HasSize);
    forall i, j | 0 <= i < j < |r|
      ensures order == "desc" ==> SizeOrZero(r[j]) <= SizeOrZero(r[i])
      ensures order != "desc" ==> SizeOrZero(r[i]) <= SizeOrZero(r[j])
    {
      assert r[i] in multiset(ws) && r[j] in multiset(ws);
      assert r[i] in ws && r[j] in ws;
      assert SizeLe(order)(r[i], r[j]);
    }
  }

  // ---------------------------------------------------------------------------------------
  // Name

  /** `a.filename.localeCompare(b.filename)` for `'asc'`, the reverse otherwise, at most 0.
      The collation is a parameter. */
  function NameLe(order: string, localeCompare: (string, string) -> int): (Wallpaper, Wallpaper) -> bool {
    if order == "asc" then (a: Wallpaper, b: Wallpaper) => localeCompare(a.filename, b.filename) <= 0
    else (a: Wallpaper, b: Wallpaper) => localeCompare(b.filename, a.filename) <= 0
  }

  /** `localeCompare`'s order: total and transitive. */
  ghost predicate Collation(localeCompare: (string, string) -> int) {
    (forall x, y :: localeCompare(x, y) <= 0 || localeCompare(y, x) <= 0)
    && (forall x, y, z :: localeCompare(x, y) <= 0 && localeCompare(y, z) <= 0 ==> localeCompare(x, z) <= 0)
  }

  /** `sortByName(ws, order)`: a permutation ordered by the collation of the filenames,
      ascending for `'asc'` and descending otherwise. */
  function SortByName(ws: seq<Wallpaper>, order: string, localeCompare: (string, string) -> int): (r: seq<Wallpaper>)
    ensures multiset(r) == multiset(ws)
  {
    Seqs.SortBy(ws, NameLe(order, localeCompare))
  }

  lemma SortByNameOrdered(ws: seq<Wallpaper>, order: string, localeCompare: (string, string) -> int)
    requires Collation(localeCompare)
    ensures var r := SortByName(ws, order, localeCompare);
      (order == "asc" ==> forall i, j :: 0 <= i < j < |r| ==> localeCompare(r[i].filename, r[j].filename) <= 0)
      && (order != "asc" ==> forall i, j :: 0 <= i < j < |r| ==> localeCompare(r[j].filename, r[i].filename) <= 0)
  {
    var le := NameLe(order, localeCompare);
    assert Seqs.TotalPreorder(le) by {
      assert forall a, b :: le(a, b) || le(b, a) by {
        forall a: Wallpaper, b: Wallpaper ensures le(a, b) || le(b, a) {
          assert localeCompare(a.filename, b.filename) <= 0 || localeCompare(b.filename, a.filename) <= 0;
        }
      }
      forall a: Wallpaper, b: Wallpaper, c: Wallpaper | le(a, b) && le(b, c) ensures le(a, c) {
        if order == "asc" {
          assert localeCompare(a.filename, b.filename) <= 0 && localeCompare(b.filename, c.filename) <= 0;
        } else {
          assert localeCompare(c.filename, b.filename) <= 0 && localeCompare(b.filename, a.filename) <= 0;
        }
      }
    }
    Seqs.SortBySorted(ws, le);
  }
}
