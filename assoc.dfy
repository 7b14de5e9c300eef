/** An insertion-ordered table from strings to values, as a JavaScript `Map` (or a plain
    object with non-numeric keys) holds it: `Set` overwrites the value of a present key in
    place and appends a new key at the end. */
module Assoc {
  import opened Wrappers

  type Assoc<V> = seq<(string, V)>

  /** The keys in insertion order, as `Map.prototype.keys` lists them. */
  function Keys<V>(a: Assoc<V>): (r: seq<string>)
    ensures |r| == |a|
    ensures forall i :: 0 <= i < |a| ==> r[i] == a[i].0
  {
    seq(|a|, i requires 0 <= i < |a| => a[i].0)
  }

  ghost predicate DistinctKeys<V>(a: Assoc<V>) {
    forall i, j :: 0 <= i < j < |a| ==> a[i].0 != a[j].0
  }

  /** `m.get(k)`. */
  function Get<V>(a: Assoc<V>, k: string): (r: Option<V>)
    ensures r.None? <==> forall i :: 0 <= i < |a| ==> a[i].0 != k
    ensures r.Some? ==> exists i :: 0 <= i < |a| && a[i] == (k, r.value)
  {
    if a == [] then None
    else if a[0].0 == k then Some(a[0].1)
    else
      var r := Get(a[1..], k);
      assert r.Some? ==> exists i :: 0 <= i < |a| - 1 && a[1..][i] == (k, r.value);
      r
  }

  /** With distinct keys, the value stored at a position is the one `Get` finds. */
  lemma {:induction false} GetAt<V>(a: Assoc<V>, i: int)
    requires DistinctKeys(a) && 0 <= i < |a|
    ensures Get(a, a[i].0) == Some(a[i].1)
  {
    if i > 0 {
      GetAt(a[1..], i - 1);
    }
  }

  /** `m.set(k, v)`. */
  function Set<V>(a: Assoc<V>, k: string, v: V): (r: Assoc<V>)
    ensures |a| <= |r| <= |a| + 1
  {
    if a == [] then [(k, v)]
    else if a[0].0 == k then [(k, v)] + a[1..]
    else [a[0]] + Set(a[1..], k, v)
  }

  /** After `set`, `k` maps to `v` and every other key to what it mapped to before. */
  lemma {:induction false} GetSet<V>(a: Assoc<V>, k: string, v: V)
    ensures forall j :: Get(Set(a, k, v), j) == (if j == k then Some(v) else Get(a, j))
  {
    if a != [] && a[0].0 != k {
      GetSet(a[1..], k, v);
      var r := Set(a, k, v);
      assert r[0] == a[0] && r[1..] == Set(a[1..], k, v);
    }
  }

  /** `set` keeps the key order, appending a new key at the end. */
  lemma {:induction false} KeysSet<V>(a: Assoc<V>, k: string, v: V)
    ensures Keys(Set(a, k, v)) == if Get(a, k).Some? then Keys(a) else Keys(a) + [k]
  {
    if a != [] && a[0].0 != k {
      var t := Set(a[1..], k, v);
      KeysSet(a[1..], k, v);
      assert Set(a, k, v) == [a[0]] + t;
      KeysCons(a);
      KeysCons([a[0]] + t);
      assert ([a[0]] + t)[1..] == t;
      assert Get(a, k) == Get(a[1..], k);
    }
  }

  lemma KeysCons<V>(a: Assoc<V>)
    requires a != []
    ensures Keys(a) == [a[0].0] + Keys(a[1..])
  {
  }

  /** `set` never duplicates a key. */
  lemma DistinctSet<V>(a: Assoc<V>, k: string, v: V)
    ensures DistinctKeys(a) ==> DistinctKeys(Set(a, k, v))
  {
    KeysSet(a, k, v);
    var r := Set(a, k, v);
    var ks := Keys(r);
    forall i, j | DistinctKeys(a) && 0 <= i < j < |r| ensures r[i].0 != r[j].0 {
      assert ks[i] == r[i].0 && ks[j] == r[j].0;
      if Get(a, k).None? {
        assert ks == Keys(a) + [k];
      }
    }
  }

  /** `m.set(k, (m.get(k) || 0) + 1)`: one more occurrence of `k`. */
  function Bump(a: Assoc<nat>, k: string): (r: Assoc<nat>)
    ensures Get(r, k) == Some(Get(a, k).GetOr(0) + 1)
    ensures forall j :: j != k ==> Get(r, j) == Get(a, j)
    ensures DistinctKeys(a) ==> DistinctKeys(r)
  {
    var n := Get(a, k).GetOr(0) + 1;
    GetSet(a, k, n);
    DistinctSet(a, k, n);
    Set(a, k, n)
  }
}
