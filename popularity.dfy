/** The popularity store (src/stores/popularity.js): ranked entries built from the statistics
    table plus the optimistic queue, the lookup table by filename, and the load/clear
    actions. */
module Popularity {
  import opened Wrappers
  import opened Assoc
  import Seqs
  import opened Stats
  import Sorting
  import Filter

  /** An entry of `allTimeData`, keyed by filename (also its `image_id`). */
  datatype Entry = Entry(filename: string, viewCount: int, downloadCount: int, score: int)

  /** `views + downloads * 2`. */
  function Score(views: int, downloads: int): int {
    views + downloads * 2
  }

  /** The entry of one table row: server counts (0 when missing) plus the optimistic queue. */
  function EntryOf(k: string, c: Counter, q: Queue): (e: Entry)
    ensures e.filename == k
    ensures e.viewCount == c.views + Pending(q.views, k)
    ensures e.downloadCount == c.downloads + Pending(q.downloads, k)
    ensures e.score == e.viewCount + 2 * e.downloadCount
  {
    var views := c.views + Pending(q.views, k);
    var downloads := c.downloads + Pending(q.downloads, k);
    Entry(k, views, downloads, Score(views, downloads))
  }

  /** The entries in table order, before sorting. */
  function Entries(m: StatsMap, q: Queue): (r: seq<Entry>)
    ensures |r| == |m|
    ensures forall i :: 0 <= i < |m| ==> r[i] == EntryOf(m[i].0, m[i].1, q)
  {
    seq(|m|, i requires 0 <= i < |m| => EntryOf(m[i].0, m[i].1, q))
  }

  /** `b.popularity_score - a.popularity_score` at most 0. */
  function ScoreLe(): (Entry, Entry) -> bool {
    (a: Entry, b: Entry) => b.score <= a.score
  }

  /** `allTimeData`: the entries sorted by score, highest first; the sort is stable, so equal
      scores keep table order. */
  function AllTimeData(m: StatsMap, q: Queue): seq<Entry> {
    Seqs.SortBy(Entries(m, q), ScoreLe())
  }

  /** `allTimeData` is sorted by non-increasing score and is a rearrangement of the table's
      entries, one per key: with distinct keys its filenames are distinct and each is a key of
      the table, carrying that key's counts. */
  lemma AllTimeDataCorrect(m: StatsMap, q: Queue)
    requires DistinctKeys(m)
    ensures var d := AllTimeData(m, q);
      |d| == |m|
      && multiset(d) == multiset(Entries(m, q))
      && (forall i, j :: 0 <= i < j < |d| ==> d[j].score <= d[i].score)
      && (forall i, j :: 0 <= i < j < |d| ==> d[i].filename != d[j].filename)
      && (forall i :: 0 <= i < |d| ==>
            Get(m, d[i].filename).Some? && d[i] == EntryOf(d[i].filename, Get(m, d[i].filename).value, q))
  {
    var es := Entries(m, q);
    var d := AllTimeData(m, q);
    Seqs.SortBySorted(es, ScoreLe());
    assert Seqs.Distinct(es) by {
      forall i, j | 0 <= i < j < |es| ensures es[i] != es[j] {
        assert es[i].filename == m[i].0 && es[j].filename == m[j].0;
      }
    }
    Seqs.DistinctPermutation(d, es);
    forall i | 0 <= i < |d|
      ensures Get(m, d[i].filename).Some? && d[i] == EntryOf(d[i].filename, Get(m, d[i].filename).value, q)
    {
      assert d[i] in multiset(es);
      var k :| 0 <= k < |es| && es[k] == d[i];
      GetAt(m, k);
    }
    forall i, j | 0 <= i < j < |d| ensures d[i].filename != d[j].filename {
      assert d[i] in multiset(es) && d[j] in multiset(es);
      var a :| 0 <= a < |es| && es[a] == d[i];
      var b :| 0 <= b < |es| && es[b] == d[j];
      if a == b {
        assert d[i] == d[j];
      }
    }
  }

  /** Every key of the table has its entry in `allTimeData`. */
  lemma AllTimeDataComplete(m: StatsMap, q: Queue, k: int)
    requires 0 <= k < |m|
    ensures EntryOf(m[k].0, m[k].1, q) in AllTimeData(m, q)
  {
    var es := Entries(m, q);
    assert es[k] in multiset(es);
    assert es[k] in multiset(AllTimeData(m, q));
  }

  /** `popularityMap` after the `forEach` over the first `n` entries: entry `i` is set under
      its filename with rank `i + 1`. */
  function RankTable(data: seq<Entry>, n: nat): Sorting.PopularityMap
    requires n <= |data|
  {
    if n == 0 then map[]
    else
      var e := data[n - 1];
      RankTable(data, n - 1)[e.filename := Sorting.PopInfo(n, e.score, e.downloadCount, e.viewCount)]
  }

  /** With distinct filenames, the table holds exactly the filenames, and each has the rank
      of its position plus one and the counts of its entry. */
  lemma {:induction false} RankTableCorrect(data: seq<Entry>, n: nat)
    requires n <= |data|
    requires forall i, j :: 0 <= i < j < |data| ==> data[i].filename != data[j].filename
    ensures forall f :: f in RankTable(data, n) <==> exists i :: 0 <= i < n && data[i].filename == f
    ensures forall i :: 0 <= i < n ==>
      RankTable(data, n)[data[i].filename]
        == Sorting.PopInfo(i + 1, data[i].score, data[i].downloadCount, data[i].viewCount)
  {
    if n > 0 {
      RankTableCorrect(data, n - 1);
    }
  }

  /** Ranks run from 1 to the number of entries and no two filenames share one. */
  lemma RanksDistinct(data: seq<Entry>, f: string, g: string)
    requires forall i, j :: 0 <= i < j < |data| ==> data[i].filename != data[j].filename
    requires f in RankTable(data, |data|) && g in RankTable(data, |data|) && f != g
    ensures var t := RankTable(data, |data|);
      1 <= t[f].rank <= |data| && t[f].rank != t[g].rank
  {
    RankTableCorrect(data, |data|);
  }

  /** The `forEach` that fills `popularityMap`. */
  method BuildRankTable(data: seq<Entry>) returns (t: Sorting.PopularityMap)
    ensures t == RankTable(data, |data|)
  {
    t := map[];
    var i := 0;
    while i < |data|
      invariant 0 <= i <= |data|
      invariant t == RankTable(data, i)
    {
      var e := data[i];
      t := t[e.filename := Sorting.PopInfo(i + 1, e.score, e.downloadCount, e.viewCount)];
      i := i + 1;
    }
  }

  /** `popularityMap`; `weeklyMap` and `monthlyMap` are the same table. */
  function PopularityMapOf(m: StatsMap, q: Queue): Sorting.PopularityMap {
    var d := AllTimeData(m, q);
    RankTable(d, |d|)
  }

  /** `getPopularRank(filename)`: `?.rank || 0`. */
  function GetPopularRank(t: Sorting.PopularityMap, filename: string): (r: nat)
    ensures filename !in t ==> r == 0
    ensures filename in t ==> r == t[filename].rank
  {
    if filename in t then t[filename].rank else 0
  }

  /** `getPopularityScore(filename)`: `?.score || 0`. */
  function GetPopularityScore(t: Sorting.PopularityMap, filename: string): (r: int)
    ensures filename !in t ==> r == 0
    ensures filename in t ==> r == t[filename].score
  {
    if filename in t then t[filename].score else 0
  }

  /** `getViewCount(filename)`: server views (0 when the filename is absent) plus the
      optimistic views. */
  function GetViewCount(m: StatsMap, q: Queue, filename: string): (r: int)
    ensures Get(m, filename).None? ==> r == Pending(q.views, filename)
    ensures Get(m, filename).Some? ==> r == Get(m, filename).value.views + Pending(q.views, filename)
  {
    Get(m, filename).GetOr(Counter(0, 0)).views + Pending(q.views, filename)
  }

  /** `getDownloadCount(filename)`, likewise for downloads. */
  function GetDownloadCount(m: StatsMap, q: Queue, filename: string): (r: int)
    ensures Get(m, filename).None? ==> r == Pending(q.downloads, filename)
    ensures Get(m, filename).Some? ==> r == Get(m, filename).value.downloads + Pending(q.downloads, filename)
  {
    Get(m, filename).GetOr(Counter(0, 0)).downloads + Pending(q.downloads, filename)
  }

  /** `popularityMap` has exactly the keys of the table. */
  lemma PopularityMapKeys(m: StatsMap, q: Queue, f: string)
    requires DistinctKeys(m)
    ensures f in PopularityMapOf(m, q) <==> Get(m, f).Some?
  {
    var d := AllTimeData(m, q);
    AllTimeDataCorrect(m, q);
    RankTableCorrect(d, |d|);
    if Get(m, f).Some? {
      var k :| 0 <= k < |m| && m[k] == (f, Get(m, f).value);
      AllTimeDataComplete(m, q, k);
      var i :| 0 <= i < |d| && d[i] == EntryOf(m[k].0, m[k].1, q);
      assert d[i].filename == f;
    }
    if f in PopularityMapOf(m, q) {
      var i :| 0 <= i < |d| && d[i].filename == f;
    }
  }

  /** The counts in `popularityMap` agree with `getViewCount` and `getDownloadCount`, its
      score is `views + 2 * downloads`, and its rank is the entry's position in `allTimeData`
      plus one. */
  lemma PopularityMapAgrees(m: StatsMap, q: Queue, f: string)
    requires DistinctKeys(m) && f in PopularityMapOf(m, q)
    ensures var t := PopularityMapOf(m, q);
      t[f].views == GetViewCount(m, q, f)
      && t[f].downloads == GetDownloadCount(m, q, f)
      && t[f].score == t[f].views + 2 * t[f].downloads
      && 1 <= t[f].rank <= |m|
      && AllTimeData(m, q)[t[f].rank - 1].filename == f
  {
    var d := AllTimeData(m, q);
    AllTimeDataCorrect(m, q);
    RankTableCorrect(d, |d|);
    var t := PopularityMapOf(m, q);
    var i :| 0 <= i < |d| && d[i].filename == f;
    assert t[f] == Sorting.PopInfo(i + 1, d[i].score, d[i].downloadCount, d[i].viewCount);
    assert d[i] == EntryOf(f, Get(m, f).value, q);
  }

  /** The sort tables are all `popularityMap`. */
  function Tables(m: StatsMap, q: Queue): (r: Filter.PopularityTables)
    ensures r.weekly == r.popularity && r.monthly == r.popularity
  {
    var t := PopularityMapOf(m, q);
    Filter.PopularityTables(t, t, t)
  }

  /** The outcome of a load that may throw. */
  datatype Loaded = Done(m: StatsMap) | Threw

  class PopularityStore {
    var statsMap: StatsMap
    var loading: bool
    var currentSeries: string
    var loaded: bool

    predicate HasData()
      reads this
    {
      |statsMap| > 0
    }

    constructor ()
      ensures statsMap == [] && !loading && currentSeries == "" && !loaded
    {
      statsMap := [];
      loading := false;
      currentSeries := "";
      loaded := false;
    }

    /** `fetchPopularityData(series, forceRefresh)`. Skipped when not forced, the series is
        current and data exists. Otherwise the static table is used, or the Supabase table when
        the static one is empty; a load that throws leaves the table empty and `loaded` as it
        was. `loading` ends false. */
    method FetchPopularityData(series: string, forceRefresh: bool, staticData: Loaded, fallback: Loaded)
      modifies this
      ensures !forceRefresh && old(currentSeries) == series && old(HasData()) ==>
        statsMap == old(statsMap) && loading == old(loading)
        && currentSeries == old(currentSeries) && loaded == old(loaded)
      ensures !(!forceRefresh && old(currentSeries) == series && old(HasData())) ==>
        currentSeries == series && !loading
        && (staticData.Done? && |staticData.m| > 0 ==> statsMap == staticData.m && loaded)
        && (staticData.Done? && |staticData.m| == 0 && fallback.Done? ==> statsMap == fallback.m && loaded)
        && (staticData.Threw? || (|staticData.m| == 0 && fallback.Threw?) ==>
              statsMap == [] && loaded == old(loaded))
    {
      if !forceRefresh && currentSeries == series && |statsMap| > 0 {
        return;
      }
      loading := true;
      currentSeries := series;
      var data := staticData;
      if data.Done? && |data.m| == 0 {
        data := fallback;
      }
      if data.Done? {
        statsMap := data.m;
        loaded := true;
      } else {
        statsMap := [];
      }
      loading := false;
    }

    /** `clearData()`. */
    method ClearData()
      modifies this
      ensures statsMap == [] && currentSeries == "" && !loaded && loading == old(loading)
      ensures !HasData()
    {
      statsMap := [];
      currentSeries := "";
      loaded := false;
    }
  }
}
