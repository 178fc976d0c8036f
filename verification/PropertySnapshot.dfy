/** Property snapshots: comparing them, taking their difference, and rebasing a change over others. */
module PropertySnapshot {
  import opened Wrappers
  import opened JsMap
  import opened PropertyDelta

  datatype Snapshot = Snapshot(revNum: nat, contents: Delta) {
    /** The constructor accepts only document deltas. */
    predicate Valid() { IsDocument(contents) }

    function Bindings(): Properties { Contents(contents) }
  }

  type Index = JsMap<string, PropertyOp>

  /** The index `_properties` of a snapshot: each name with its `set` operation. */
  function IndexOf(contents: Delta): Index {
    Fold(contents, false)
  }

  /** The loop of the constructor. */
  method BuildIndex(contents: Delta) returns (r: Index)
    requires IsDocument(contents)
    ensures r == IndexOf(contents)
  {
    r := Empty();
    for i := 0 to |contents|
      invariant r == Fold(contents[..i], false)
    {
      assert contents[..i + 1][..i] == contents[..i];
      assert contents[i] in contents;
      r := r.Put(contents[i].name, contents[i]);
    }
    assert contents[..|contents|] == contents;
  }

  lemma IndexMeaning(contents: Delta)
    requires IsDocument(contents)
    ensures IndexOf(contents).Valid()
    ensures IndexOf(contents).vals.Keys == Contents(contents).Keys
    ensures forall n :: n in Contents(contents) ==> IndexOf(contents).vals[n] == Set(n, Contents(contents)[n])
  {
    FoldValid(contents, false);
    forall n
      ensures n in IndexOf(contents).vals <==> n in Contents(contents)
      ensures n in Contents(contents) ==> IndexOf(contents).vals[n] == Set(n, Contents(contents)[n])
    {
      ApplyByName(map[], contents, n);
      IndexHasSets(contents, n);
    }
  }

  lemma {:induction false} IndexHasSets(d: Delta, n: string)
    requires forall op <- d :: op.Set?
    ensures n in Fold(d, false).vals ==> Fold(d, false).vals[n].Set?
  {
    if d != [] {
      assert d[|d| - 1] in d;
      IndexHasSets(d[..|d| - 1], n);
    }
  }

  // ----- Comparison -----

  lemma SameIndexes(a: Delta, b: Delta)
    requires IsDocument(a) && IsDocument(b)
    ensures IndexOf(a).vals == IndexOf(b).vals <==> Contents(a) == Contents(b)
  {
    IndexMeaning(a);
    IndexMeaning(b);
    var s, t := Contents(a), Contents(b);
    if IndexOf(a).vals == IndexOf(b).vals {
      forall n | n in s ensures n in t && s[n] == t[n] {
        assert IndexOf(a).vals[n] == IndexOf(b).vals[n];
      }
      assert s == t;
    }
  }

  /** `equals()`. */
  method Equals(a: Snapshot, b: Snapshot) returns (r: bool)
    requires a.Valid() && b.Valid()
    ensures r <==> a.revNum == b.revNum && a.Bindings() == b.Bindings()
  {
    var mine := BuildIndex(a.contents);
    var other := BuildIndex(b.contents);
    IndexMeaning(a.contents);
    IndexMeaning(b.contents);
    SameIndexes(a.contents, b.contents);
    if a.revNum != b.revNum {
      return false;
    }
    r := SameEntries(mine, other);
  }

  // ----- Difference -----

  function Updates(older: Index, newer: Index, names: seq<string>): Delta
    requires forall n <- names :: n in newer.vals
  {
    if names == [] then []
    else
      var n := names[|names| - 1];
      Updates(older, newer, names[..|names| - 1]) +
      (if n in older.vals && older.vals[n] == newer.vals[n] then [] else [newer.vals[n]])
  }

  function Removals(newer: Index, names: seq<string>): Delta {
    if names == [] then []
    else
      var n := names[|names| - 1];
      Removals(newer, names[..|names| - 1]) + (if n in newer.vals then [] else [Delete(n)])
  }

  /** The difference of two snapshots, from their contents. */
  function Difference(older: Delta, newer: Delta): Delta
    requires IsDocument(newer)
  {
    FoldValid(newer, false);
    Updates(IndexOf(older), IndexOf(newer), IndexOf(newer).keys) + Removals(IndexOf(newer), IndexOf(older).keys)
  }

  /** `_impl_diffAsDelta()`, with its two loops. */
  method Diff(older: Snapshot, newer: Snapshot) returns (r: Delta)
    requires older.Valid() && newer.Valid()
    ensures r == Difference(older.contents, newer.contents)
  {
    var before := BuildIndex(older.contents);
    var after := BuildIndex(newer.contents);
    FoldValid(newer.contents, false);
    ghost var keys := after.keys;
    assert keys[..|keys|] == keys;
    r := [];
    for i := 0 to |after.keys|
      invariant r == Updates(before, after, keys[..i])
    {
      assert keys[..i + 1][..i] == keys[..i];
      var n := after.keys[i];
      assert n in keys;
      if !(n in before.vals && after.vals[n] == before.vals[n]) {
        r := r + [after.vals[n]];
      }
    }
    var removed := RemovedNames(before.keys, after);
    r := r + removed;
  }

  method RemovedNames(names: seq<string>, newer: Index) returns (r: Delta)
    ensures r == Removals(newer, names)
  {
    r := [];
    for i := 0 to |names|
      invariant r == Removals(newer, names[..i])
    {
      assert names[..i + 1][..i] == names[..i];
      if names[i] !in newer.vals {
        r := r + [Delete(names[i])];
      }
    }
    assert names[..|names|] == names;
  }

  lemma UpdatesMore(older: Index, newer: Index, names: seq<string>)
    requires names != [] && forall n <- names :: n in newer.vals
    ensures var u, last := Updates(older, newer, names[..|names| - 1]), names[|names| - 1];
      Updates(older, newer, names) ==
        if last in older.vals && older.vals[last] == newer.vals[last] then u else u + [newer.vals[last]]
  {
  }

  lemma {:induction false} UpdatesApply(s: Properties, older: Index, newer: Index, names: seq<string>, n: string)
    requires forall n <- names :: n in newer.vals && newer.vals[n].Set? && newer.vals[n].name == n
    ensures var u := Updates(older, newer, names); var r := Apply(s, u);
      if n in names && !(n in older.vals && older.vals[n] == newer.vals[n])
      then n in Names(u) && n in r && r[n] == newer.vals[n].data
      else n !in Names(u) && (n in r <==> n in s) && (n in r ==> r[n] == s[n])
  {
    if names != [] {
      hide Apply, Names, Updates;
      var front, last := names[..|names| - 1], names[|names| - 1];
      assert names == front + [last];
      UpdatesMore(older, newer, names);
      UpdatesApply(s, older, newer, front, n);
      if !(last in older.vals && older.vals[last] == newer.vals[last]) {
        ApplyMore(s, Updates(older, newer, front), newer.vals[last]);
      }
    }
  }

  lemma {:induction false} RemovalsApply(s: Properties, newer: Index, names: seq<string>, n: string)
    ensures var u := Removals(newer, names); var r := Apply(s, u);
      if n in names && n !in newer.vals then n in Names(u) && n !in r
      else n !in Names(u) && (n in r <==> n in s) && (n in r ==> r[n] == s[n])
  {
    if names != [] {
      hide Apply, Names;
      var front, last := names[..|names| - 1], names[|names| - 1];
      assert names == front + [last];
      RemovalsApply(s, newer, front, n);
      var u := Removals(newer, front);
      assert u + [] == u;
      ApplyMore(s, u, Delete(last));
    }
  }

  lemma DifferenceByName(older: Delta, newer: Delta, n: string)
    requires IsDocument(older) && IsDocument(newer)
    ensures var r, s, t := Apply(Contents(older), Difference(older, newer)), Contents(older), Contents(newer);
      && (n in r <==> n in t) && (n in r ==> r[n] == t[n])
      && (n in Names(Difference(older, newer)) <==> !(n in s <==> n in t) || (n in s && s[n] != t[n]))
  {
    IndexMeaning(older);
    IndexMeaning(newer);
    var before, after := IndexOf(older), IndexOf(newer);
    var s := Contents(older);
    var u, v := Updates(before, after, after.keys), Removals(after, before.keys);
    UpdatesApply(s, before, after, after.keys, n);
    RemovalsApply(Apply(s, u), after, before.keys, n);
    ApplyConcat(s, u, v);
    assert n in Names(u + v) <==> n in Names(u) || n in Names(v);
  }

  /** Composing a snapshot with its difference to another gives the other, and the difference mentions
      exactly the names whose bindings differ. */
  lemma DifferenceCorrect(older: Delta, newer: Delta)
    requires IsDocument(older) && IsDocument(newer)
    ensures Apply(Contents(older), Difference(older, newer)) == Contents(newer)
    ensures forall n :: n in Names(Difference(older, newer)) <==>
      var s, t := Contents(older), Contents(newer); !(n in s <==> n in t) || (n in s && s[n] != t[n])
    ensures Difference(older, newer) == [] <==> Contents(older) == Contents(newer)
  {
    forall n
      ensures var r, t := Apply(Contents(older), Difference(older, newer)), Contents(newer);
        (n in r <==> n in t) && (n in r ==> r[n] == t[n])
      ensures n in Names(Difference(older, newer)) <==>
        var s, t := Contents(older), Contents(newer); !(n in s <==> n in t) || (n in s && s[n] != t[n])
    {
      DifferenceByName(older, newer, n);
    }
    if Difference(older, newer) != [] {
      assert Difference(older, newer)[0].name in Names(Difference(older, newer));
    }
  }

  // ----- Single bindings -----

  /** `withProperty()`. */
  function WithProperty(s: Snapshot, name: string, data: Data): Snapshot {
    var index := IndexOf(s.contents);
    if name in index.vals && index.vals[name] == Set(name, data) then s
    else s.(contents := Composed(s.contents, [Set(name, data)], true))
  }

  /** `withoutProperty()`. */
  function WithoutProperty(s: Snapshot, name: string): Snapshot {
    if name in IndexOf(s.contents).vals then s.(contents := Composed(s.contents, [Delete(name)], true)) else s
  }

  lemma WithPropertyCorrect(s: Snapshot, name: string, data: Data)
    requires s.Valid()
    ensures var r := WithProperty(s, name, data);
      && r.Valid() && r.revNum == s.revNum
      && r.Bindings() == s.Bindings()[name := data]
      && (name in s.Bindings() && s.Bindings()[name] == data ==> r == s)
  {
    IndexMeaning(s.contents);
    ComposeDocumentCorrect(s.contents, [Set(name, data)]);
  }

  lemma WithoutPropertyCorrect(s: Snapshot, name: string)
    requires s.Valid()
    ensures var r := WithoutProperty(s, name);
      && r.Valid() && r.revNum == s.revNum
      && r.Bindings() == s.Bindings() - {name}
      && (name !in s.Bindings() ==> r == s)
  {
    IndexMeaning(s.contents);
    ComposeDocumentCorrect(s.contents, [Delete(name)]);
  }
}
