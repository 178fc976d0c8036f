/** Insertion-ordered maps: setting a key that is present keeps its place, deleting it gives the place up. */
module JsMap {
  import opened Wrappers

  ghost predicate Distinct<K>(keys: seq<K>) {
    forall i, j :: 0 <= i < j < |keys| ==> keys[i] != keys[j]
  }

  datatype JsMap<K(==, !new), V> = JsMap(keys: seq<K>, vals: map<K, V>)
  {
    ghost predicate Valid() {
      Distinct(keys) && forall k :: k in keys <==> k in vals
    }

    function Put(k: K, v: V): JsMap<K, V> {
      JsMap(if k in vals then keys else keys + [k], vals[k := v])
    }

    function Remove(k: K): JsMap<K, V> {
      JsMap(Without(keys, k), vals - {k})
    }

    /** The values in order. */
    function Values(): (r: seq<V>)
      requires Valid()
      ensures |r| == |keys| && forall i :: 0 <= i < |r| ==> keys[i] in vals && r[i] == vals[keys[i]]
    {
      seq(|keys|, i requires 0 <= i < |keys| => assert keys[i] in keys; vals[keys[i]])
    }

    lemma RemoveValid(k: K)
      requires Valid()
      ensures Remove(k).Valid()
    {
      WithoutKeepsOrder(keys, k);
    }
  }

  function Empty<K(==, !new), V>(): (m: JsMap<K, V>)
    ensures m.Valid()
  {
    JsMap([], map[])
  }

  function Without<K(==)>(keys: seq<K>, k: K): seq<K> {
    if keys == [] then []
    else if keys[0] == k then Without(keys[1..], k)
    else [keys[0]] + Without(keys[1..], k)
  }

  lemma {:induction false} WithoutKeepsOrder<K(!new)>(keys: seq<K>, k: K)
    requires Distinct(keys)
    ensures Distinct(Without(keys, k))
    ensures forall x :: x in Without(keys, k) <==> x in keys && x != k
  {
    if keys != [] {
      var rest := keys[1..];
      assert forall i :: 0 <= i < |rest| ==> rest[i] == keys[i + 1];
      assert keys[0] !in rest;
      WithoutKeepsOrder(rest, k);
      assert keys[0] !in Without(rest, k);
      assert forall x :: x in keys <==> x == keys[0] || x in rest;
    }
  }

  // ----- Insertion order -----

  /** Where a key occurs first, or the length if it does not. */
  function FirstSeen<K(==)>(ks: seq<K>, k: K): (i: nat)
    ensures i <= |ks| && (i < |ks| ==> ks[i] == k) && forall j :: 0 <= j < i ==> ks[j] != k
  {
    if ks == [] then 0 else if ks[0] == k then 0 else 1 + FirstSeen(ks[1..], k)
  }

  /** The keys are those of the history, each once, in the order in which they occur first. */
  predicate InFirstOrder<K(==)>(keys: seq<K>, history: seq<K>) {
    && (forall i :: 0 <= i < |keys| ==> FirstSeen(history, keys[i]) < |history|)
    && (forall i :: 0 <= i < |history| ==> history[i] in keys)
    && (forall i, j :: 0 <= i < j < |keys| ==> FirstSeen(history, keys[i]) < FirstSeen(history, keys[j]))
  }

  lemma SeenBefore<K>(history: seq<K>, k: K, x: K)
    ensures FirstSeen(history + [k], x) ==
      if FirstSeen(history, x) < |history| || x == k then FirstSeen(history, x) else |history| + 1
  {
    var i, all := FirstSeen(history, x), history + [k];
    assert forall j :: 0 <= j < |history| ==> all[j] == history[j];
    assert all[|history|] == k;
  }

  /** A key that is put has its place where it was first put. */
  lemma PutInOrder<K(!new), V>(m: JsMap<K, V>, history: seq<K>, k: K, v: V)
    requires m.Valid() && InFirstOrder(m.keys, history)
    ensures InFirstOrder(m.Put(k, v).keys, history + [k])
  {
    forall x ensures FirstSeen(history + [k], x) ==
      if FirstSeen(history, x) < |history| || x == k then FirstSeen(history, x) else |history| + 1
    {
      SeenBefore(history, k, x);
    }
    if k !in m.vals {
      assert forall i :: 0 <= i < |history| ==> history[i] != k;
      assert FirstSeen(history, k) == |history|;
    }
  }

  lemma {:induction false} DistinctSize<K(!new)>(keys: seq<K>, all: set<K>)
    requires Distinct(keys) && forall k :: k in keys <==> k in all
    ensures |all| == |keys|
  {
    if keys == [] {
      assert all == {};
    } else {
      var rest := keys[1..];
      assert forall i :: 0 <= i < |rest| ==> rest[i] == keys[i + 1];
      assert keys[0] !in rest;
      assert forall x :: x in keys <==> x == keys[0] || x in rest;
      DistinctSize(rest, all - {keys[0]});
    }
  }

  /** Two maps of one size agree as soon as every key of the first has the same value in the second. */
  lemma SameSizeSame<K(!new), V>(a: JsMap<K, V>, b: JsMap<K, V>)
    requires a.Valid() && b.Valid() && |a.keys| == |b.keys|
    requires forall k :: k in a.keys ==> k in b.vals && b.vals[k] == a.vals[k]
    ensures a.vals == b.vals
  {
    DistinctSize(a.keys, a.vals.Keys);
    DistinctSize(b.keys, b.vals.Keys);
    var extra := b.vals.Keys - a.vals.Keys;
    assert b.vals.Keys == a.vals.Keys + extra;
    assert extra == {};
  }

  /** The comparison loop of snapshots: sizes first, then every entry of the one against the other. */
  method SameEntries<K(!new), V(==)>(a: JsMap<K, V>, b: JsMap<K, V>) returns (r: bool)
    requires a.Valid() && b.Valid()
    ensures r <==> a.vals == b.vals
  {
    if |a.keys| != |b.keys| {
      DistinctSize(a.keys, a.vals.Keys);
      DistinctSize(b.keys, b.vals.Keys);
      return false;
    }
    for i := 0 to |a.keys|
      invariant forall j :: 0 <= j < i ==> a.keys[j] in b.vals && b.vals[a.keys[j]] == a.vals[a.keys[j]]
    {
      var k := a.keys[i];
      assert k in a.keys;
      if k !in b.vals || b.vals[k] != a.vals[k] {
        return false;
      }
    }
    SameSizeSame(a, b);
    r := true;
  }
}
