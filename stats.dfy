/** The counter side of the statistics service (src/services/statsService.js): the two server
    wire shapes normalized into one table `image id -> {views, downloads}`, the optimistic
    increments, and the lookup that adds them to the server counts. */
module Stats {
  import opened Wrappers
  import opened Assoc
  import opened Catalog

  /** The counters of one image. */
  datatype Counter = Counter(views: int, downloads: int)

  /** The statistics table, a JavaScript `Map` in insertion order. */
  type StatsMap = Assoc<Counter>

  /** The optimistic increments not yet confirmed by the server, per image id, as the local
      queue holds them (`queue.views` and `queue.downloads`). */
  datatype Queue = Queue(views: map<string, nat>, downloads: map<string, nat>)

  const EmptyQueue: Queue := Queue(map[], map[])

  /** `x || y || 0` over optional numeric fields: an absent field and 0 are both false. */
  function Alias(x: Option<int>, y: Option<int>): (r: int)
    ensures x.Some? && x.value != 0 ==> r == x.value
    ensures (x.None? || x.value == 0) && y.Some? && y.value != 0 ==> r == y.value
    ensures (x.None? || x.value == 0) && (y.None? || y.value == 0) ==> r == 0
  {
    if x.Some? && x.value != 0 then x.value
    else if y.Some? && y.value != 0 then y.value
    else 0
  }

  /** The counter fields of a record; each is absent when the record lacks it. */
  datatype Fields = Fields(views: Option<int>, totalViews: Option<int>,
                           downloads: Option<int>, totalDownloads: Option<int>)

  /** A record of the array shape, `{ image_id, views, downloads, ... }`. */
  datatype Record = Record(imageId: string, fields: Fields)

  /** A value of the object shape: a bare view count or a record without its id. */
  datatype Value = Number(n: int) | Stats(fields: Fields)

  /** The decoded response body: an array, an object, `null`, or any other JSON value. */
  datatype Body = Array(records: seq<Record>) | Object(entries: seq<(string, Value)>) | Null | Scalar

  /** `{ views: views || total_views || 0, downloads: downloads || total_downloads || 0 }`. */
  function CounterOf(f: Fields): Counter {
    Counter(Alias(f.views, f.totalViews), Alias(f.downloads, f.totalDownloads))
  }

  /** A value of the object shape: a number `v` is `{views: v, downloads: 0}`. */
  function ValueCounter(v: Value): (r: Counter)
    ensures v.Number? ==> r == Counter(v.n, 0)
    ensures v.Stats? ==> r == CounterOf(v.fields)
  {
    match v
    case Number(n) => Counter(n, 0)
    case Stats(f) => CounterOf(f)
  }

  /** The `(id, counter)` pairs the `forEach` over a body sets, in order. */
  function Pairs(b: Body): (r: seq<(string, Counter)>)
    ensures b.Array? ==> |r| == |b.records|
    ensures b.Array? ==> forall i :: 0 <= i < |r| ==> r[i] == (b.records[i].imageId, CounterOf(b.records[i].fields))
    ensures b.Object? ==> |r| == |b.entries|
    ensures b.Object? ==> forall i :: 0 <= i < |r| ==> r[i] == (b.entries[i].0, ValueCounter(b.entries[i].1))
    ensures b.Null? || b.Scalar? ==> r == []
  {
    match b
    case Array(rs) => seq(|rs|, i requires 0 <= i < |rs| => (rs[i].imageId, CounterOf(rs[i].fields)))
    case Object(es) => seq(|es|, i requires 0 <= i < |es| => (es[i].0, ValueCounter(es[i].1)))
    case _ => []
  }

  /** `Map.set` applied to each pair in order. */
  function SetAll(m: StatsMap, ps: seq<(string, Counter)>): StatsMap
    decreases |ps|
  {
    if ps == [] then m else SetAll(Set(m, ps[0].0, ps[0].1), ps[1..])
  }

  /** Index `i` holds the last occurrence of `k` among the pairs. */
  ghost predicate LastOccurrence(ps: seq<(string, Counter)>, k: string, i: int) {
    0 <= i < |ps| && ps[i].0 == k && forall j :: i < j < |ps| ==> ps[j].0 != k
  }

  /** After setting all pairs, a key holds the counter of its last pair, and a key without a
      pair keeps what it had; keys stay distinct. */
  lemma SetAllGet(m: StatsMap, ps: seq<(string, Counter)>, k: string)
    ensures (forall i :: 0 <= i < |ps| ==> ps[i].0 != k) ==> Get(SetAll(m, ps), k) == Get(m, k)
    ensures forall i :: LastOccurrence(ps, k, i) ==> Get(SetAll(m, ps), k) == Some(ps[i].1)
    ensures DistinctKeys(m) ==> DistinctKeys(SetAll(m, ps))
  {
    if forall i :: 0 <= i < |ps| ==> ps[i].0 != k {
      SetAllUntouched(m, ps, k);
    }
    forall i | LastOccurrence(ps, k, i) ensures Get(SetAll(m, ps), k) == Some(ps[i].1) {
      SetAllLast(m, ps, k, i);
    }
    SetAllDistinct(m, ps);
  }

  lemma {:induction false} SetAllUntouched(m: StatsMap, ps: seq<(string, Counter)>, k: string)
    requires forall i :: 0 <= i < |ps| ==> ps[i].0 != k
    ensures Get(SetAll(m, ps), k) == Get(m, k)
    decreases |ps|
  {
    if ps != [] {
      GetSet(m, ps[0].0, ps[0].1);
      assert forall j :: 0 <= j < |ps| - 1 ==> ps[1..][j] == ps[j + 1];
      SetAllUntouched(Set(m, ps[0].0, ps[0].1), ps[1..], k);
    }
  }

  lemma {:induction false} SetAllLast(m: StatsMap, ps: seq<(string, Counter)>, k: string, i: int)
    requires LastOccurrence(ps, k, i)
    ensures Get(SetAll(m, ps), k) == Some(ps[i].1)
    decreases |ps|
  {
    var m' := Set(m, ps[0].0, ps[0].1);
    if i > 0 {
      assert LastOccurrence(ps[1..], k, i - 1);
      SetAllLast(m', ps[1..], k, i - 1);
    } else {
      GetSet(m, ps[0].0, ps[0].1);
      assert forall j :: 0 <= j < |ps| - 1 ==> ps[1..][j] == ps[j + 1];
      SetAllUntouched(m', ps[1..], k);
    }
  }

  lemma {:induction false} SetAllDistinct(m: StatsMap, ps: seq<(string, Counter)>)
    ensures DistinctKeys(m) ==> DistinctKeys(SetAll(m, ps))
    decreases |ps|
  {
    if ps != [] {
      DistinctSet(m, ps[0].0, ps[0].1);
      SetAllDistinct(Set(m, ps[0].0, ps[0].1), ps[1..]);
    }
  }

  /** The table the `forEach` builds from a body; `None` for `null`, where
      `Object.entries(null)` throws. Any other non-array, non-object body gives an empty
      table. */
  function NormalizeSpec(b: Body): Option<StatsMap> {
    if b.Null? then None else Some(SetAll([], Pairs(b)))
  }

  /** The normalized table of a body: distinct keys, one per image id of the body; each holds
      the counter of the id's last record, which is how `Map.set` resolves duplicates. */
  lemma NormalizeLastWins(b: Body, k: string)
    requires !b.Null?
    ensures var m := NormalizeSpec(b).value;
      DistinctKeys(m)
      && (Get(m, k).None? <==> forall i :: 0 <= i < |Pairs(b)| ==> Pairs(b)[i].0 != k)
      && forall i :: LastOccurrence(Pairs(b), k, i) ==> Get(m, k) == Some(Pairs(b)[i].1)
  {
    SetAllGet([], Pairs(b), k);
    var ps := Pairs(b);
    if !(forall i :: 0 <= i < |ps| ==> ps[i].0 != k) {
      var i := LastIndex(ps, k);
      assert LastOccurrence(ps, k, i);
    }
  }

  lemma {:induction false} LastIndex(ps: seq<(string, Counter)>, k: string) returns (i: int)
    requires exists j :: 0 <= j < |ps| && ps[j].0 == k
    ensures LastOccurrence(ps, k, i)
    decreases |ps|
  {
    var last := ps[|ps| - 1];
    if last.0 == k {
      i := |ps| - 1;
    } else {
      var j :| 0 <= j < |ps| && ps[j].0 == k;
      assert ps[..|ps| - 1][j] == ps[j];
      i := LastIndex(ps[..|ps| - 1], k);
      assert ps[..|ps| - 1][i] == ps[i];
    }
  }

  /** The normalization loop of `loadStaticStats`: `statsMap.set` for each record in order. */
  method Normalize(b: Body) returns (r: Option<StatsMap>)
    ensures r == NormalizeSpec(b)
  {
    if b.Null? {
      return None;
    }
    var ps := Pairs(b);
    var statsMap: StatsMap := [];
    var i := 0;
    while i < |ps|
      invariant 0 <= i <= |ps|
      invariant SetAll(statsMap, ps[i..]) == SetAll([], ps)
    {
      assert ps[i..][1..] == ps[i + 1..];
      statsMap := Set(statsMap, ps[i].0, ps[i].1);
      i := i + 1;
    }
    return Some(statsMap);
  }

  /** The records `loadStatsFromSupabase` reads: only `total_views` and `total_downloads`,
      and only from an array; anything else gives an empty table. */
  function SupabasePairs(b: Body): (r: seq<(string, Counter)>)
    ensures b.Array? ==> |r| == |b.records|
    ensures !b.Array? ==> r == []
  {
    match b
    case Array(rs) =>
      seq(|rs|, i requires 0 <= i < |rs| =>
        (rs[i].imageId, Counter(Alias(rs[i].fields.totalViews, None), Alias(rs[i].fields.totalDownloads, None))))
    case _ => []
  }

  /** The Supabase table ignores the `views` and `downloads` aliases. */
  lemma SupabaseIgnoresShortFields(rs: seq<Record>, i: int)
    requires 0 <= i < |rs|
    ensures var c := SupabasePairs(Array(rs))[i].1;
      c.views == (if rs[i].fields.totalViews.Some? then rs[i].fields.totalViews.value else 0)
      && c.downloads == (if rs[i].fields.totalDownloads.Some? then rs[i].fields.totalDownloads.value else 0)
  {
  }

  /** The outcome of fetching a statistics file. */
  datatype Fetched = NotFound | HttpError(status: int) | NetworkError | Received(body: Body)

  /** The key the service counts an entry under: `filename || id`. */
  function ImageId(w: Wallpaper): (r: string)
    ensures w.filename != "" ==> r == w.filename
    ensures w.filename == "" ==> r == w.id
  {
    if w.filename != "" then w.filename else w.id
  }

  /** `m[k] || 0`. */
  function Pending(m: map<string, nat>, k: string): nat {
    if k in m then m[k] else 0
  }

  /** `getWallpaperStats(imageId, statsMap)`: without a table both counters are 0; otherwise
      the server counter (0 when the id is absent) plus the optimistic increment, for every
      id, including ids the table does not hold. */
  function GetWallpaperStats(imageId: string, statsMap: Option<StatsMap>, q: Queue): (r: Counter)
    ensures statsMap.None? ==> r == Counter(0, 0)
    ensures statsMap.Some? && Get(statsMap.value, imageId).None? ==>
      r == Counter(Pending(q.views, imageId), Pending(q.downloads, imageId))
    ensures statsMap.Some? && Get(statsMap.value, imageId).Some? ==>
      var c := Get(statsMap.value, imageId).value;
      r == Counter(c.views + Pending(q.views, imageId), c.downloads + Pending(q.downloads, imageId))
  {
    match statsMap
    case None => Counter(0, 0)
    case Some(m) =>
      var base := Get(m, imageId).GetOr(Counter(0, 0));
      Counter(base.views + Pending(q.views, imageId), base.downloads + Pending(q.downloads, imageId))
  }

  /** One more optimistic increment of `k`. */
  function Increment(m: map<string, nat>, k: string): (r: map<string, nat>)
    ensures k in r && r[k] == Pending(m, k) + 1
    ensures forall j :: j != k ==> Pending(r, j) == Pending(m, j)
  {
    m[k := Pending(m, k) + 1]
  }

  /** A recorded view adds exactly one to the views `getWallpaperStats` reports for that
      entry and changes nothing else. */
  lemma ViewIsCounted(w: Wallpaper, m: StatsMap, q: Queue, other: string)
    ensures var q' := Queue(Increment(q.views, ImageId(w)), q.downloads);
      GetWallpaperStats(ImageId(w), Some(m), q').views == GetWallpaperStats(ImageId(w), Some(m), q).views + 1
      && GetWallpaperStats(ImageId(w), Some(m), q').downloads == GetWallpaperStats(ImageId(w), Some(m), q).downloads
      && (other != ImageId(w) ==> GetWallpaperStats(other, Some(m), q') == GetWallpaperStats(other, Some(m), q))
  {
  }

  /** A recorded download adds exactly one to the downloads reported for that entry. */
  lemma DownloadIsCounted(w: Wallpaper, m: StatsMap, q: Queue, other: string)
    ensures var q' := Queue(q.views, Increment(q.downloads, ImageId(w)));
      GetWallpaperStats(ImageId(w), Some(m), q').downloads == GetWallpaperStats(ImageId(w), Some(m), q).downloads + 1
      && GetWallpaperStats(ImageId(w), Some(m), q').views == GetWallpaperStats(ImageId(w), Some(m), q).views
      && (other != ImageId(w) ==> GetWallpaperStats(other, Some(m), q') == GetWallpaperStats(other, Some(m), q))
  {
  }

  /** The service state: the per-series table cache and the optimistic queue (both kept by
      the local cache module, which is not part of this model), and whether the Supabase URL
      and key are configured. */
  class StatsService {
    var cache: map<string, StatsMap>
    var queue: Queue
    const configured: bool

    constructor (configured: bool)
      ensures cache == map[] && queue == EmptyQueue && this.configured == configured
    {
      cache := map[];
      queue := EmptyQueue;
      this.configured := configured;
    }

    /** `loadStaticStats(series, forceRefresh)`. A cached table is used unless forced, without
        fetching. A missing file, an HTTP error, a failed request or a body that cannot be
        read give the empty table and leave the cache alone; a readable body is normalized and
        cached. The result is the table passed through `merge` (`mergeWithOptimistic`). */
    method LoadStaticStats(series: string, forceRefresh: bool, fetched: Fetched,
                           merge: StatsMap -> StatsMap) returns (r: StatsMap)
      modifies this
      ensures queue == old(queue)
      ensures !forceRefresh && series in old(cache) ==> r == merge(old(cache)[series]) && cache == old(cache)
      ensures (forceRefresh || series !in old(cache)) && !(fetched.Received? && !fetched.body.Null?) ==>
        r == merge([]) && cache == old(cache)
      ensures (forceRefresh || series !in old(cache)) && fetched.Received? && !fetched.body.Null? ==>
        var m := NormalizeSpec(fetched.body).value;
        r == merge(m) && cache == old(cache)[series := m]
    {
      if !forceRefresh && series in cache {
        return merge(cache[series]);
      }
      match fetched
      case NotFound =>
        r := merge([]);
      case HttpError(_) =>
        r := merge([]);
      case NetworkError =>
        r := merge([]);
      case Received(body) =>
        var statsMap := Normalize(body);
        if statsMap.None? {
          r := merge([]);
        } else {
          cache := cache[series := statsMap.value];
          r := merge(statsMap.value);
        }
    }

    /** `loadStatsFromSupabase(series, limit)`: the empty table when not configured; otherwise
        the table read from the response (only from an array), cached and merged. A failed
        request gives the merged empty table. */
    method LoadStatsFromSupabase(series: string, fetched: Fetched, merge: StatsMap -> StatsMap)
      returns (r: StatsMap)
      modifies this
      ensures queue == old(queue)
      ensures !configured ==> r == [] && cache == old(cache)
      ensures configured && !fetched.Received? ==> r == merge([]) && cache == old(cache)
      ensures configured && fetched.Received? ==>
        var m := SetAll([], SupabasePairs(fetched.body));
        r == merge(m) && cache == old(cache)[series := m]
    {
      if !configured {
        return [];
      }
      if !fetched.Received? {
        return merge([]);
      }
      var ps := SupabasePairs(fetched.body);
      var statsMap: StatsMap := [];
      var i := 0;
      while i < |ps|
        invariant 0 <= i <= |ps|
        invariant SetAll(statsMap, ps[i..]) == SetAll([], ps)
      {
        assert ps[i..][1..] == ps[i + 1..];
        statsMap := Set(statsMap, ps[i].0, ps[i].1);
        i := i + 1;
      }
      cache := cache[series := statsMap];
      r := merge(statsMap);
    }

    /** `recordView(wallpaper, series)`: one optimistic view under `filename || id`; the
        remote call is not part of this model. */
    method RecordView(w: Wallpaper)
      modifies this
      ensures queue == Queue(Increment(old(queue).views, ImageId(w)), old(queue).downloads)
      ensures cache == old(cache)
    {
      queue := Queue(Increment(queue.views, ImageId(w)), queue.downloads);
    }

    /** `recordDownload(wallpaper, series)`: one optimistic download under `filename || id`. */
    method RecordDownload(w: Wallpaper)
      modifies this
      ensures queue == Queue(old(queue).views, Increment(old(queue).downloads, ImageId(w)))
      ensures cache == old(cache)
    {
      queue := Queue(queue.views, Increment(queue.downloads, ImageId(w)));
    }

    /** `resetStatsCache()`: the optimistic queue is emptied. */
    method ResetStatsCache()
      modifies this
      ensures queue == EmptyQueue && cache == old(cache)
    {
      queue := EmptyQueue;
    }
  }
}
