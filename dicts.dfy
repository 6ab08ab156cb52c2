/**
 * Python's insertion-ordered `dict`, as a sequence of
 * key/value pairs: assignment to a present key keeps its position, a new
 * key goes to the end.
 */
module Dicts {
  import opened Wrappers

  type Dict<K, V> = seq<(K, V)>

  /** No key occurs twice. */
  predicate UniqueKeys<K(==), V>(d: Dict<K, V>)
  {
    forall i, j :: 0 <= i < j < |d| ==> d[i].0 != d[j].0
  }

  /** `list(d.keys())`. */
  function Keys<K(==), V>(d: Dict<K, V>): (r: seq<K>)
    ensures |r| == |d| && forall i :: 0 <= i < |d| ==> r[i] == d[i].0
  {
    if d == [] then [] else [d[0].0] + Keys(d[1..])
  }

  /** `list(d.values())`. */
  function Values<K(==), V>(d: Dict<K, V>): (r: seq<V>)
    ensures |r| == |d| && forall i :: 0 <= i < |d| ==> r[i] == d[i].1
  {
    if d == [] then [] else [d[0].1] + Values(d[1..])
  }

  /** Where `key` sits, if anywhere (its first occurrence). */
  function IndexOf<K(==), V>(d: Dict<K, V>, key: K): (r: Option<nat>)
    ensures r.Some? ==> r.value < |d| && d[r.value].0 == key && forall j :: 0 <= j < r.value ==> d[j].0 != key
    ensures r.None? <==> forall j :: 0 <= j < |d| ==> d[j].0 != key
  {
    if d == [] then None
    else if d[0].0 == key then Some(0)
    else match IndexOf(d[1..], key)
      case None => None
      case Some(i) => Some(i + 1)
  }

  /** `d.get(key)`. */
  function Lookup<K(==), V>(d: Dict<K, V>, key: K): (r: Option<V>)
    ensures r.None? <==> forall j :: 0 <= j < |d| ==> d[j].0 != key
    ensures r.Some? ==> exists j :: 0 <= j < |d| && d[j] == (key, r.value)
  {
    match IndexOf(d, key)
    case None => None
    case Some(i) => Some(d[i].1)
  }

  /** `d[key] = v`. */
  function Put<K(==), V>(d: Dict<K, V>, key: K, v: V): (r: Dict<K, V>)
  {
    match IndexOf(d, key)
    case None => d + [(key, v)]
    case Some(i) => d[i := (key, v)]
  }

  /** After `d[key] = v` the key reads `v`, every other key reads as before, and keys keep their order. */
  lemma PutLookup<K, V>(d: Dict<K, V>, key: K, v: V, other: K)
    requires UniqueKeys(d)
    ensures UniqueKeys(Put(d, key, v))
    ensures Lookup(Put(d, key, v), key) == Some(v)
    ensures other != key ==> Lookup(Put(d, key, v), other) == Lookup(d, other)
    ensures Keys(Put(d, key, v)) == if IndexOf(d, key).Some? then Keys(d) else Keys(d) + [key]
  {
    var r := Put(d, key, v);
    match IndexOf(d, key)
    case None =>
      assert r == d + [(key, v)];
      UniqueLookup(r, |d|);
      if other != key {
        match IndexOf(d, other)
        case None =>
        case Some(i) => UniqueLookup(d, i); UniqueLookup(r, i);
      }
    case Some(i) =>
      assert r == d[i := (key, v)];
      UniqueLookup(r, i);
      if other != key {
        match IndexOf(d, other)
        case None =>
        case Some(j) => UniqueLookup(d, j); UniqueLookup(r, j);
      }
  }

  /** With unique keys, the pair at `i` is what its key looks up. */
  lemma UniqueLookup<K, V>(d: Dict<K, V>, i: nat)
    requires UniqueKeys(d) && i < |d|
    ensures Lookup(d, d[i].0) == Some(d[i].1)
  {
    match IndexOf(d, d[i].0)
    case None =>
    case Some(j) =>
  }

  /** `for k, v in pairs: d[k] = v`. */
  function PutAll<K(==), V>(d: Dict<K, V>, pairs: seq<(K, V)>): (r: Dict<K, V>)
  {
    if pairs == [] then d
    else
      var last := pairs[|pairs| - 1];
      Put(PutAll(d, pairs[..|pairs| - 1]), last.0, last.1)
  }

  /** Two runs of assignments are one run over both. */
  lemma {:induction false} PutAllAppend<K, V>(d: Dict<K, V>, a: seq<(K, V)>, b: seq<(K, V)>)
    ensures PutAll(PutAll(d, a), b) == PutAll(d, a + b)
    decreases |b|
  {
    if b == [] {
      assert a + b == a;
    } else {
      assert (a + b)[..|a + b| - 1] == a + b[..|b| - 1];
      PutAllAppend(d, a, b[..|b| - 1]);
    }
  }

  /** The keys of `ks` in order of first occurrence, each once. */
  function Dedup<K(==)>(ks: seq<K>): (r: seq<K>)
    ensures forall i :: 0 <= i < |r| ==> r[i] in ks
    ensures forall i :: 0 <= i < |ks| ==> ks[i] in r
    ensures forall i, j :: 0 <= i < j < |r| ==> r[i] != r[j]
  {
    if ks == [] then []
    else
      var last := ks[|ks| - 1];
      var init := Dedup(ks[..|ks| - 1]);
      if last in ks[..|ks| - 1] then init else init + [last]
  }

  /** The value of the last pair with key `k`, if any. */
  function LastValue<K(==), V>(pairs: seq<(K, V)>, k: K): (r: Option<V>)
    ensures r.None? <==> forall j :: 0 <= j < |pairs| ==> pairs[j].0 != k
    ensures r.Some? ==> exists j :: 0 <= j < |pairs| && pairs[j] == (k, r.value)
  {
    if pairs == [] then None
    else if pairs[|pairs| - 1].0 == k then Some(pairs[|pairs| - 1].1)
    else LastValue(pairs[..|pairs| - 1], k)
  }

  /**
   * Filling an empty dict keeps one pair per key, in order of each key's
   * first assignment, holding the value assigned last.
   */
  lemma {:induction false} PutAllFresh<K, V>(pairs: seq<(K, V)>, k: K)
    ensures UniqueKeys(PutAll([], pairs))
    ensures Keys(PutAll([], pairs)) == Dedup(Keys(pairs))
    ensures Lookup(PutAll([], pairs), k) == LastValue(pairs, k)
    decreases |pairs|
  {
    if pairs != [] {
      var n := |pairs| - 1;
      var init := pairs[..n];
      var last := pairs[n];
      assert pairs == init + [last];
      var p := PutAll([], init);
      PutAllFresh(init, k);
      PutAllFresh(init, last.0);
      PutLookup(p, last.0, last.1, k);
      KeysSnoc(init, last);
      DedupSnoc(Keys(init), last.0);
      IndexOfKeys(p, last.0);
      DedupMembers(Keys(init), last.0);
    }
  }

  lemma KeysSnoc<K, V>(d: Dict<K, V>, pair: (K, V))
    ensures Keys(d + [pair]) == Keys(d) + [pair.0]
  {
  }

  /** A key seen before adds nothing to the first occurrences; a new one goes last. */
  lemma DedupSnoc<K>(ks: seq<K>, x: K)
    ensures Dedup(ks + [x]) == if x in ks then Dedup(ks) else Dedup(ks) + [x]
  {
    assert (ks + [x])[..|ks|] == ks;
  }

  lemma DedupMembers<K>(ks: seq<K>, x: K)
    ensures x in Dedup(ks) <==> x in ks
  {
    var r := Dedup(ks);
    if x in r {
      var i :| 0 <= i < |r| && r[i] == x;
    }
    if x in ks {
      var i :| 0 <= i < |ks| && ks[i] == x;
    }
  }

  /** A key is found exactly when it is among the keys. */
  lemma IndexOfKeys<K, V>(d: Dict<K, V>, x: K)
    ensures IndexOf(d, x).Some? <==> x in Keys(d)
  {
    if x in Keys(d) {
      var i :| 0 <= i < |d| && Keys(d)[i] == x;
    }
  }
}
