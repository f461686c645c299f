/** Insertion-ordered dictionaries: a JavaScript `Map` or a Python `dict`.
    Entries are kept in insertion order; overwriting a key keeps its place,
    deleting it closes the gap. */
module OrderedMaps {
  import opened Wrappers

  type Entries<K, V> = seq<(K, V)>

  /** The keys, in iteration order (`map.keys()`, `dict.keys()`). */
  function Keys<K, V>(m: Entries<K, V>): (ks: seq<K>)
    ensures |ks| == |m|
    ensures forall i :: 0 <= i < |m| ==> ks[i] == m[i].0
  {
    if m == [] then [] else [m[0].0] + Keys(m[1..])
  }

  /** The values, in iteration order (`Object.values`, `dict.values()`). */
  function Values<K, V>(m: Entries<K, V>): (vs: seq<V>)
    ensures |vs| == |m|
    ensures forall i :: 0 <= i < |m| ==> vs[i] == m[i].1
  {
    if m == [] then [] else [m[0].1] + Values(m[1..])
  }

  predicate DistinctKeys<K(==), V>(m: Entries<K, V>) {
    forall i, j :: 0 <= i < j < |m| ==> m[i].0 != m[j].0
  }

  /** `map.get(k)` / `dict.get(k)`: the value stored under `k`, if any. */
  function Get<K(==,!new), V>(m: Entries<K, V>, k: K): (r: Option<V>)
    ensures r.None? <==> k !in Keys(m)
    ensures r.Some? ==> (k, r.value) in m
  {
    if m == [] then None
    else if m[0].0 == k then Some(m[0].1)
    else
      assert m == [m[0]] + m[1..];
      Get(m[1..], k)
  }

  lemma GetDistinct<K(!new), V>(m: Entries<K, V>, i: nat)
    requires DistinctKeys(m) && i < |m|
    ensures Get(m, m[i].0) == Some(m[i].1)
  {
    if i > 0 {
      assert m[0].0 != m[i].0;
      assert m[1..][i - 1] == m[i];
      GetDistinct(m[1..], i - 1);
    }
  }

  /** `map.set(k, v)` / `d[k] = v`. */
  function Put<K(==,!new), V>(m: Entries<K, V>, k: K, v: V): (r: Entries<K, V>)
    ensures Get(r, k) == Some(v)
    ensures forall k' :: k' != k ==> Get(r, k') == Get(m, k')
    ensures k in Keys(m) ==> Keys(r) == Keys(m)
    ensures k !in Keys(m) ==> Keys(r) == Keys(m) + [k]
  {
    if m == [] then
      ConsGet((k, v), []);
      ConsKeys((k, v), []);
      [(k, v)]
    else if m[0].0 == k then
      assert m == [m[0]] + m[1..];
      ConsGet(m[0], m[1..]);
      ConsGet((k, v), m[1..]);
      ConsKeys(m[0], m[1..]);
      ConsKeys((k, v), m[1..]);
      [(k, v)] + m[1..]
    else
      var rest := Put(m[1..], k, v);
      assert m == [m[0]] + m[1..];
      PutStepGet(m[0], m[1..], k, v, rest);
      PutStepKeys(m[0], m[1..], k, rest);
      [m[0]] + rest
  }

  /** The keys of a map with one entry in front. */
  lemma ConsKeys<K, V>(e: (K, V), m: Entries<K, V>)
    ensures Keys([e] + m) == [e.0] + Keys(m)
  {
    assert ([e] + m)[1..] == m;
  }

  /** Lookups in a map with one entry in front. */
  lemma ConsGet<K(!new), V>(e: (K, V), m: Entries<K, V>)
    ensures forall k :: Get([e] + m, k) == if e.0 == k then Some(e.1) else Get(m, k)
  {
    assert ([e] + m)[1..] == m;
  }

  /** What `Put` promises of lookups carries over to a map with one more
      entry in front under another key. */
  lemma PutStepGet<K(!new), V>(e: (K, V), m: Entries<K, V>, k: K, v: V, r: Entries<K, V>)
    requires e.0 != k
    requires Get(r, k) == Some(v)
    requires forall k' :: k' != k ==> Get(r, k') == Get(m, k')
    ensures Get([e] + r, k) == Some(v)
    ensures forall k' :: k' != k ==> Get([e] + r, k') == Get([e] + m, k')
  {
    ConsGet(e, m);
    ConsGet(e, r);
  }

  /** What `Put` promises of the keys carries over likewise. */
  lemma PutStepKeys<K, V>(e: (K, V), m: Entries<K, V>, k: K, r: Entries<K, V>)
    requires e.0 != k
    requires k in Keys(m) ==> Keys(r) == Keys(m)
    requires k !in Keys(m) ==> Keys(r) == Keys(m) + [k]
    ensures k in Keys([e] + m) ==> Keys([e] + r) == Keys([e] + m)
    ensures k !in Keys([e] + m) ==> Keys([e] + r) == Keys([e] + m) + [k]
  {
    ConsKeys(e, m);
    ConsKeys(e, r);
    var ks, rs := Keys(m), Keys(r);
    if k !in ks {
      assert [e.0] + (ks + [k]) == [e.0] + ks + [k];
    }
  }

  /** `Put` of a new key appends an entry. */
  lemma {:induction false} PutAbsent<K(!new), V>(m: Entries<K, V>, k: K, v: V)
    requires k !in Keys(m)
    ensures Put(m, k, v) == m + [(k, v)]
  {
    if m != [] {
      var e, tail := m[0], m[1..];
      KeysCons(m);
      PutAbsent(tail, k, v);
      PutCons(m, k, v);
      SnocCons(m, (k, v));
    }
  }

  lemma SnocCons<T>(s: seq<T>, x: T)
    requires s != []
    ensures s + [x] == [s[0]] + (s[1..] + [x])
  {
    assert s == [s[0]] + s[1..];
  }

  lemma KeysCons<K, V>(m: Entries<K, V>)
    requires m != []
    ensures Keys(m) == [m[0].0] + Keys(m[1..])
  {
  }

  /** `Put` under a key other than the first keeps the first entry. */
  lemma PutCons<K(!new), V>(m: Entries<K, V>, k: K, v: V)
    requires m != [] && m[0].0 != k
    ensures Put(m, k, v) == [m[0]] + Put(m[1..], k, v)
  {
  }

  /** Distinct keys are an invariant of `Put`. */
  lemma PutDistinct<K(!new), V>(m: Entries<K, V>, k: K, v: V)
    requires DistinctKeys(m)
    ensures DistinctKeys(Put(m, k, v))
  {
    var r := Put(m, k, v);
    forall i, j | 0 <= i < j < |r| ensures r[i].0 != r[j].0 {
      var ks := Keys(r);
      if k in Keys(m) {
        assert ks == Keys(m);
        assert r[i].0 == Keys(m)[i] == m[i].0 && r[j].0 == m[j].0;
      } else {
        assert ks == Keys(m) + [k];
        if j < |m| {
          assert r[i].0 == m[i].0 && r[j].0 == m[j].0;
        } else {
          assert r[j].0 == k && r[i].0 == m[i].0;
          assert m[i].0 in Keys(m);
        }
      }
    }
  }

  /** `map.delete(k)` / `del d[k]` without the error for a missing key. */
  function Remove<K(==,!new), V>(m: Entries<K, V>, k: K): (r: Entries<K, V>)
    requires DistinctKeys(m)
    ensures Get(r, k) == None
    ensures forall k' :: k' != k ==> Get(r, k') == Get(m, k')
    ensures k !in Keys(m) ==> r == m
    ensures DistinctKeys(r)
    ensures forall i :: 0 <= i < |r| ==> r[i] in m
  {
    if m == [] then []
    else if m[0].0 == k then
      assert forall j :: 0 < j < |m| ==> m[j].0 != k;
      assert k !in Keys(m[1..]);
      m[1..]
    else
      var rest := Remove(m[1..], k);
      assert m == [m[0]] + m[1..];
      RemoveStep(m[0], m[1..], k, rest);
      [m[0]] + rest
  }

  /** What `Remove` promises carries over to a map with one more entry in
      front under another key. */
  lemma RemoveStep<K(!new), V>(e: (K, V), m: Entries<K, V>, k: K, r: Entries<K, V>)
    requires e.0 != k && DistinctKeys([e] + m)
    requires Get(r, k) == None
    requires forall k' :: k' != k ==> Get(r, k') == Get(m, k')
    requires k !in Keys(m) ==> r == m
    requires DistinctKeys(r)
    requires forall i :: 0 <= i < |r| ==> r[i] in m
    ensures Get([e] + r, k) == None
    ensures forall k' :: k' != k ==> Get([e] + r, k') == Get([e] + m, k')
    ensures k !in Keys([e] + m) ==> [e] + r == [e] + m
    ensures DistinctKeys([e] + r)
    ensures forall i :: 0 <= i < |[e] + r| ==> ([e] + r)[i] in [e] + m
  {
    ConsGet(e, m);
    ConsGet(e, r);
    ConsKeys(e, m);
    forall j | 0 <= j < |r| ensures r[j].0 != e.0 {
      var i :| 0 <= i < |m| && m[i] == r[j];
      assert ([e] + m)[i + 1] == m[i];
    }
    forall i | 0 <= i < |[e] + r| ensures ([e] + r)[i] in [e] + m {
      if i > 0 {
        assert ([e] + r)[i] == r[i - 1];
      }
    }
  }

  /** The same entries with `f` applied to each value. */
  function MapValues<K, V, W>(m: Entries<K, V>, f: V -> W): (r: Entries<K, W>)
    ensures Keys(r) == Keys(m)
    ensures forall i :: 0 <= i < |m| ==> r[i] == (m[i].0, f(m[i].1))
  {
    seq(|m|, i requires 0 <= i < |m| => (m[i].0, f(m[i].1)))
  }

  /** Storing a value and then mapping is mapping and then storing its
      image. */
  lemma {:induction false} PutMapValues<K(!new), V, W>(m: Entries<K, V>, k: K, v: V, f: V -> W)
    ensures MapValues(Put(m, k, v), f) == Put(MapValues(m, f), k, f(v))
  {
    var fm := MapValues(m, f);
    if m == [] {
      assert Put(m, k, v) == [(k, v)];
    } else {
      assert m == [m[0]] + m[1..];
      MapValuesCons(m[0], m[1..], f);
      assert fm[0].0 == m[0].0 && fm[1..] == MapValues(m[1..], f);
      if m[0].0 == k {
        assert Put(m, k, v) == [(k, v)] + m[1..];
        MapValuesCons((k, v), m[1..], f);
      } else {
        var rest := Put(m[1..], k, v);
        assert Put(m, k, v) == [m[0]] + rest;
        MapValuesCons(m[0], rest, f);
        PutMapValues(m[1..], k, v, f);
      }
    }
  }

  lemma MapValuesCons<K, V, W>(e: (K, V), m: Entries<K, V>, f: V -> W)
    ensures MapValues([e] + m, f) == [(e.0, f(e.1))] + MapValues(m, f)
  {
    var l, r := MapValues([e] + m, f), [(e.0, f(e.1))] + MapValues(m, f);
    forall i | 0 <= i < |l| ensures l[i] == r[i] {
      if i > 0 { assert ([e] + m)[i] == m[i - 1]; }
    }
  }
}
