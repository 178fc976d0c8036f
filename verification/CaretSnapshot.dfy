/** Carets and caret snapshots: composing, comparing and taking differences, at both levels of the map. */
module CaretSnapshot {
  import opened Wrappers
  import opened JsMap
  import opened CaretDelta
  import opened CaretLaws

  // ----- One caret -----

  /** The order in which every caret binds its fields: that of the default caret, the author coming last. */
  const FIELD_ORDER: seq<Field> := [LastActive, RevNum, Index, Length, Color, AuthorId]

  lemma EveryField(f: Fields, k: Field)
    ensures k in f && exists i :: 0 <= i < |FIELD_ORDER| && FIELD_ORDER[i] == k
  {
    var i := match k
      case LastActive => 0 case RevNum => 1 case Index => 2 case Length => 3 case Color => 4 case AuthorId => 5;
    assert FIELD_ORDER[i] == k;
  }

  function Get(f: Fields, k: Field): Value {
    EveryField(f, k);
    f[k]
  }

  /** `Caret.compose()`: only `setField`s for this very caret are allowed. */
  method ComposeCaret(c: Caret, d: Delta) returns (r: Option<Caret>)
    ensures r.Some? <==> forall op <- d :: op.SetField? && op.caretId == c.id
    ensures r.Some? ==> r == Some(Caret(c.id, c.fields + SetsOf(d)))
    ensures r.Some? ==> After(Present(c.fields), d, c.id) == Present(r.value.fields)
  {
    var fields: map<Field, Value> := map[];
    for i := 0 to |d|
      invariant forall k :: 0 <= k < i ==> d[k].SetField? && d[k].caretId == c.id
      invariant fields == SetsOf(d[..i])
    {
      assert d[..i + 1][..i] == d[..i];
      if !d[i].SetField? || d[i].caretId != c.id {
        assert d[i] in d;
        return None;
      }
      fields := fields[d[i].key := d[i].value];
    }
    assert d[..|d|] == d;
    AfterSets(Present(c.fields), d, c.id);
    if d == [] { assert c.fields + map[] == c.fields; }
    r := Some(Caret(c.id, c.fields + fields));
  }

  function FieldDiff(before: Fields, after: Fields, id: string, keys: seq<Field>): Delta {
    if keys == [] then []
    else
      var k := keys[|keys| - 1];
      FieldDiff(before, after, id, keys[..|keys| - 1]) +
      (if Get(before, k) == Get(after, k) then [] else [SetField(id, k, Get(after, k))])
  }

  /** `Caret.diffFields()`. */
  method DiffFields(before: Fields, after: Fields, id: string) returns (r: Delta)
    ensures r == FieldDiff(before, after, id, FIELD_ORDER)
  {
    r := [];
    for i := 0 to |FIELD_ORDER|
      invariant r == FieldDiff(before, after, id, FIELD_ORDER[..i])
    {
      assert FIELD_ORDER[..i + 1][..i] == FIELD_ORDER[..i];
      var k := FIELD_ORDER[i];
      EveryField(before, k);
      EveryField(after, k);
      if before[k] != after[k] {
        r := r + [SetField(id, k, after[k])];
      }
    }
    assert FIELD_ORDER[..|FIELD_ORDER|] == FIELD_ORDER;
  }

  lemma {:induction false} FieldDiffOwn(before: Fields, after: Fields, id: string, keys: seq<Field>)
    ensures forall op <- FieldDiff(before, after, id, keys) :: op.SetField? && op.caretId == id
  {
    if keys != [] { FieldDiffOwn(before, after, id, keys[..|keys| - 1]); }
  }

  lemma SetsMore(d: Delta, op: CaretOp, k: Field)
    requires op.SetField?
    ensures k in SetsOf(d + [op]) <==> k == op.key || k in SetsOf(d)
    ensures k in SetsOf(d + [op]) ==> SetsOf(d + [op])[k] == if k == op.key then op.value else SetsOf(d)[k]
  {
    assert (d + [op])[..|d|] == d;
  }

  lemma {:induction false} FieldDiffSets(before: Fields, after: Fields, id: string, keys: seq<Field>, k: Field)
    ensures var m := SetsOf(FieldDiff(before, after, id, keys));
      && (k in m <==> k in keys && Get(before, k) != Get(after, k))
      && (k in m ==> m[k] == Get(after, k))
  {
    if keys != [] {
      hide Get, SetsOf;
      var front, last := keys[..|keys| - 1], keys[|keys| - 1];
      assert keys == front + [last];
      FieldDiffSets(before, after, id, front, k);
      var d := FieldDiff(before, after, id, front);
      if Get(before, last) == Get(after, last) {
        assert FieldDiff(before, after, id, keys) == d + [] == d;
      } else {
        SetsMore(d, SetField(id, last, Get(after, last)), k);
      }
    }
  }

  lemma FieldDiffAt(before: Fields, after: Fields, id: string, k: Field)
    ensures var m := SetsOf(FieldDiff(before, after, id, FIELD_ORDER));
      && (k in m <==> Get(before, k) != Get(after, k))
      && k in before + m && k in after && (before + m)[k] == after[k]
  {
    EveryField(before, k);
    EveryField(after, k);
    FieldDiffSets(before, after, id, FIELD_ORDER, k);
  }

  /** The difference of two carets sets exactly the fields that differ, and takes the one to the other. */
  lemma FieldDiffCorrect(before: Fields, after: Fields, id: string)
    ensures var d := FieldDiff(before, after, id, FIELD_ORDER);
      && (forall op <- d :: op.SetField? && op.caretId == id)
      && (forall k :: k in SetsOf(d) <==> Get(before, k) != Get(after, k))
      && before + SetsOf(d) == after
      && (d == [] <==> before == after)
      && After(Present(before), d, id) == Present(after)
  {
    var d := FieldDiff(before, after, id, FIELD_ORDER);
    FieldDiffOwn(before, after, id, FIELD_ORDER);
    var m := SetsOf(d);
    forall k: Field
      ensures k in m <==> Get(before, k) != Get(after, k)
      ensures k in before + m && k in after && (before + m)[k] == after[k]
    {
      FieldDiffAt(before, after, id, k);
    }
    assert before + m == after;
    AfterSets(Present(before), d, id);
    if d != [] {
      assert d[|d| - 1] in d;
      assert d[|d| - 1].key in m;
    }
  }

  // ----- Snapshots -----

  datatype Snapshot = Snapshot(revNum: nat, contents: Delta) {
    /** The constructor accepts only document deltas. */
    predicate Valid() { IsDocument(contents) }

    function Bindings(): Carets
      requires Valid()
    {
      Contents(contents)
    }
  }

  type Index = JsMap<string, CaretOp>

  /** The index `_carets` of a snapshot: each caret ID with its `add` operation. */
  function IndexOf(contents: Delta): Index {
    if contents == [] then Empty()
    else var op := contents[|contents| - 1]; IndexOf(contents[..|contents| - 1]).Put(op.Id(), op)
  }

  /** The loop of the constructor. */
  method BuildIndex(contents: Delta) returns (r: Index)
    requires IsDocument(contents)
    ensures r == IndexOf(contents)
  {
    r := Empty();
    for i := 0 to |contents|
      invariant r == IndexOf(contents[..i])
    {
      assert contents[..i + 1][..i] == contents[..i];
      assert contents[i] in contents;
      r := r.Put(contents[i].caret.id, contents[i]);
    }
    assert contents[..|contents|] == contents;
  }

  lemma {:induction false} IndexAt(contents: Delta, id: string)
    requires forall op <- contents :: op.Add?
    ensures IndexOf(contents).Valid()
    ensures var m, slot := IndexOf(contents).vals, After(Absent, contents, id);
      && (id in m <==> slot.Present?)
      && (id in m ==> m[id] == Add(Caret(id, slot.fields)))
  {
    if contents != [] {
      assert contents[|contents| - 1] in contents;
      IndexAt(contents[..|contents| - 1], id);
    }
  }

  /** The index binds each caret of the contents, and no other. */
  lemma IndexMeaning(contents: Delta, id: string)
    requires IsDocument(contents)
    ensures IndexOf(contents).Valid()
    ensures id in IndexOf(contents).keys <==> id in IndexOf(contents).vals
    ensures var m, slot := IndexOf(contents).vals, SlotOf(Contents(contents), id);
      && (id in m <==> slot.Present?)
      && (id in m ==> m[id] == Add(Caret(id, slot.fields)))
  {
    IndexAt(contents, id);
    DocumentApplies(contents);
    ApplyAt(map[], contents, id);
  }

  lemma SameIndexes(a: Delta, b: Delta)
    requires IsDocument(a) && IsDocument(b)
    ensures IndexOf(a).vals == IndexOf(b).vals <==> Contents(a) == Contents(b)
  {
    var m, n := IndexOf(a).vals, IndexOf(b).vals;
    if m == n {
      forall id ensures SlotOf(Contents(a), id) == SlotOf(Contents(b), id) {
        IndexMeaning(a, id);
        IndexMeaning(b, id);
      }
      SameSlots(Contents(a), Contents(b));
    }
    if Contents(a) == Contents(b) {
      forall id
        ensures id in m <==> id in n
        ensures id in m ==> m[id] == n[id]
      {
        IndexMeaning(a, id);
        IndexMeaning(b, id);
      }
      assert m == n;
    }
  }

  /** `equals()`. */
  method Equals(a: Snapshot, b: Snapshot) returns (r: bool)
    requires a.Valid() && b.Valid()
    ensures r <==> a.revNum == b.revNum && a.Bindings() == b.Bindings()
  {
    var mine := BuildIndex(a.contents);
    var other := BuildIndex(b.contents);
    IndexAt(a.contents, "");
    IndexAt(b.contents, "");
    SameIndexes(a.contents, b.contents);
    if a.revNum != b.revNum {
      return false;
    }
    r := SameEntries(mine, other);
  }

  // ----- Difference -----

  /** What a difference says about a caret of the newer snapshot. */
  function UpdatesFor(before: Index, after: Index, id: string): Delta {
    if id !in after.vals then []
    else if id !in before.vals then [after.vals[id]]
    else if before.vals[id] == after.vals[id] || !before.vals[id].Add? || !after.vals[id].Add? then []
    else FieldDiff(before.vals[id].caret.fields, after.vals[id].caret.fields, id, FIELD_ORDER)
  }

  /** What a difference says about a caret of the older snapshot. */
  function RemovalFor(after: Index, id: string): Delta {
    if id in after.vals then [] else [Delete(id)]
  }

  function Updates(before: Index, after: Index): Delta {
    Flatten(seq(|after.keys|, i requires 0 <= i < |after.keys| => UpdatesFor(before, after, after.keys[i])))
  }

  function Removals(before: Index, after: Index): Delta {
    Flatten(seq(|before.keys|, i requires 0 <= i < |before.keys| => RemovalFor(after, before.keys[i])))
  }

  function Difference(older: Delta, newer: Delta): Delta {
    Updates(IndexOf(older), IndexOf(newer)) + Removals(IndexOf(older), IndexOf(newer))
  }

  /** `_impl_diffAsDelta()`, with its two loops. */
  method Diff(older: Snapshot, newer: Snapshot) returns (r: Delta)
    requires older.Valid() && newer.Valid()
    ensures r == Difference(older.contents, newer.contents)
  {
    var before := BuildIndex(older.contents);
    var after := BuildIndex(newer.contents);
    forall id ensures id in before.vals ==> before.vals[id].Add?
      ensures id in after.keys <==> id in after.vals
      ensures id in after.vals ==> after.vals[id].Add?
    {
      IndexMeaning(older.contents, id);
      IndexMeaning(newer.contents, id);
    }
    ghost var parts := seq(|after.keys|, i requires 0 <= i < |after.keys| => UpdatesFor(before, after, after.keys[i]));
    assert parts[..|parts|] == parts;
    r := [];
    for i := 0 to |after.keys|
      invariant r == Flatten(parts[..i])
    {
      assert parts[..i + 1][..i] == parts[..i];
      var id := after.keys[i];
      assert id in after.keys;
      if id in before.vals {
        if before.vals[id] != after.vals[id] {
          var d := DiffFields(before.vals[id].caret.fields, after.vals[id].caret.fields, id);
          r := r + d;
        }
      } else {
        r := r + [after.vals[id]];
      }
    }
    var removed := RemovedCarets(before, after);
    r := r + removed;
  }

  method RemovedCarets(before: Index, after: Index) returns (r: Delta)
    ensures r == Removals(before, after)
  {
    ghost var parts := seq(|before.keys|, i requires 0 <= i < |before.keys| => RemovalFor(after, before.keys[i]));
    assert parts[..|parts|] == parts;
    r := [];
    for i := 0 to |before.keys|
      invariant r == Flatten(parts[..i])
    {
      assert parts[..i + 1][..i] == parts[..i];
      if before.keys[i] !in after.vals {
        r := r + [Delete(before.keys[i])];
      }
    }
  }

  lemma UpdatesAfter(slot: Slot, before: Index, after: Index, id: string)
    requires after.Valid()
    requires forall x <- after.keys :: Ids(UpdatesFor(before, after, x)) <= {x}
    ensures After(slot, Updates(before, after), id) == After(slot, UpdatesFor(before, after, id), id)
    ensures id in Ids(Updates(before, after)) <==> id in Ids(UpdatesFor(before, after, id))
  {
    var parts := seq(|after.keys|, i requires 0 <= i < |after.keys| => UpdatesFor(before, after, after.keys[i]));
    assert PartsBelong(parts, after.keys);
    if id in after.keys {
      var i :| 0 <= i < |after.keys| && after.keys[i] == id;
      FlattenAfter(slot, parts, after.keys, i);
    } else {
      FlattenOthers(slot, parts, after.keys, id);
    }
  }

  lemma NoOpsAfter(slot: Slot, id: string)
    ensures After(slot, [], id) == slot && Ids([]) == {}
    ensures After(slot, [Delete(id)], id) == Absent && Ids([Delete(id)]) == {id}
  {
    assert [Delete(id)][..0] == [];
  }

  lemma RemovalsAfter(slot: Slot, before: Index, after: Index, id: string)
    requires before.Valid()
    ensures var part := if id in before.keys then RemovalFor(after, id) else [];
      && After(slot, Removals(before, after), id) == After(slot, part, id)
      && (id in Ids(Removals(before, after)) <==> id in Ids(part))
  {
    hide After, Flatten;
    var parts := seq(|before.keys|, i requires 0 <= i < |before.keys| => RemovalFor(after, before.keys[i]));
    assert PartsBelong(parts, before.keys);
    NoOpsAfter(slot, id);
    if id in before.keys {
      var i :| 0 <= i < |before.keys| && before.keys[i] == id;
      FlattenAfter(slot, parts, before.keys, i);
    } else {
      FlattenOthers(slot, parts, before.keys, id);
    }
  }

  /** What the difference says about a caret of the newer snapshot takes it from the older one's state. */
  lemma UpdatesForCorrect(older: Delta, newer: Delta, id: string)
    requires IsDocument(older) && IsDocument(newer)
    ensures var d := UpdatesFor(IndexOf(older), IndexOf(newer), id);
            var s, t := SlotOf(Contents(older), id), SlotOf(Contents(newer), id);
      && Ids(d) <= {id}
      && (t.Present? ==> After(s, d, id) == t && (id in Ids(d) <==> s != t))
      && (t.Absent? ==> d == [])
  {
    hide IndexOf, Contents, FieldDiff, After;
    IndexMeaning(older, id);
    IndexMeaning(newer, id);
    var s, t := SlotOf(Contents(older), id), SlotOf(Contents(newer), id);
    if s.Present? && t.Present? {
      FieldDiffCorrect(s.fields, t.fields, id);
      var d := FieldDiff(s.fields, t.fields, id, FIELD_ORDER);
      NothingAfter(s, id);
      if d != [] { assert d[0] in d; }
    } else if t.Present? {
      AddAfter(s, Caret(id, t.fields));
    }
  }

  lemma NothingAfter(slot: Slot, id: string)
    ensures After(slot, [], id) == slot
  {
  }

  lemma AddAfter(slot: Slot, c: Caret)
    ensures After(slot, [Add(c)], c.id) == Present(c.fields) && Ids([Add(c)]) == {c.id}
  {
    var d: Delta := [Add(c)];
    assert d[..0] == [];
  }

  /** The difference takes each caret from its old state to its new one, and mentions exactly the carets whose
      states differ. */
  lemma DifferenceAt(older: Delta, newer: Delta, id: string)
    requires IsDocument(older) && IsDocument(newer)
    ensures var d, s, t := Difference(older, newer), SlotOf(Contents(older), id), SlotOf(Contents(newer), id);
      After(s, d, id) == t && (id in Ids(d) <==> s != t)
  {
    var before, after := IndexOf(older), IndexOf(newer);
    var s := SlotOf(Contents(older), id);
    var u, v := Updates(before, after), Removals(before, after);
    forall x <- after.keys ensures Ids(UpdatesFor(before, after, x)) <= {x} {
      UpdatesForCorrect(older, newer, x);
    }
    IndexMeaning(older, id);
    IndexMeaning(newer, id);
    UpdatesForCorrect(older, newer, id);
    hide After, Contents, IndexOf, UpdatesFor, Updates, Removals, Flatten, Ids;
    UpdatesAfter(s, before, after, id);
    RemovalsAfter(After(s, u, id), before, after, id);
    AfterConcat(s, u, v, id);
    NoOpsAfter(After(s, u, id), id);
    NoOpsAfter(s, id);
  }

  /** Composing a snapshot with its difference to another gives the other. */
  lemma DifferenceCorrect(older: Delta, newer: Delta)
    requires IsDocument(older) && IsDocument(newer)
    ensures Apply(Contents(older), Difference(older, newer)) == Some(Contents(newer))
    ensures forall id :: id in Ids(Difference(older, newer)) <==>
      SlotOf(Contents(older), id) != SlotOf(Contents(newer), id)
    ensures Difference(older, newer) == [] <==> Contents(older) == Contents(newer)
  {
    var d, s, t := Difference(older, newer), Contents(older), Contents(newer);
    forall id
      ensures After(SlotOf(s, id), d, id) == SlotOf(t, id) && (id in Ids(d) <==> SlotOf(s, id) != SlotOf(t, id))
      ensures After(SlotOf(t, id), [], id) == SlotOf(t, id)
    {
      DifferenceAt(older, newer, id);
    }
    SameEffect(s, d, t, []);
    NothingToDo(t);
    if d != [] {
      assert d[0] in d && d[0].Id() in Ids(d);
    } else {
      SameSlots(s, t);
    }
  }

  lemma NothingToDo(s: Carets)
    ensures Apply(s, []) == Some(s)
  {
    SameSlots(Apply(s, []).value, s);
  }

  // ----- Single carets -----

  /** `withCaret()`. */
  function WithCaret(s: Snapshot, c: Caret): Snapshot {
    var index := IndexOf(s.contents);
    if c.id in index.vals && index.vals[c.id] == Add(c) then s
    else s.(contents := Composed(s.contents, [Add(c)], true))
  }

  /** `withoutCaret()`. */
  function WithoutCaret(s: Snapshot, id: string): Snapshot {
    if id in IndexOf(s.contents).vals then s.(contents := Composed(s.contents, [Delete(id)], true)) else s
  }

  lemma OneOp(s: Carets, op: CaretOp)
    requires !op.SetField?
    ensures Apply(s, [op]) == Some(if op.Add? then s[op.Id() := op.caret.fields] else s - {op.Id()})
  {
    var r := if op.Add? then s[op.Id() := op.caret.fields] else s - {op.Id()};
    assert [op][..0] == [] && [op][0] == op;
    NothingToDo(r);
    forall id ensures After(SlotOf(s, id), [op], id) == After(SlotOf(r, id), [], id) {
      assert After(SlotOf(s, id), [op][..0], id) == SlotOf(s, id);
    }
    SameEffect(s, [op], r, []);
  }

  lemma WithCaretCorrect(s: Snapshot, c: Caret)
    requires s.Valid()
    ensures var r := WithCaret(s, c);
      && r.Valid() && r.revNum == s.revNum
      && r.Bindings() == s.Bindings()[c.id := c.fields]
      && (c.id in s.Bindings() && s.Bindings()[c.id] == c.fields ==> r == s)
  {
    var index, t := IndexOf(s.contents).vals, s.Bindings();
    IndexMeaning(s.contents, c.id);
    if c.id in index && index[c.id] == Add(c) {
      assert t == t[c.id := c.fields];
    } else {
      OneOp(t, Add(c));
      ComposeDocumentCorrect(s.contents, [Add(c)]);
    }
  }

  lemma WithoutCaretCorrect(s: Snapshot, id: string)
    requires s.Valid()
    ensures var r := WithoutCaret(s, id);
      && r.Valid() && r.revNum == s.revNum
      && r.Bindings() == s.Bindings() - {id}
      && (id !in s.Bindings() ==> r == s)
  {
    IndexMeaning(s.contents, id);
    if id in IndexOf(s.contents).vals {
      OneOp(s.Bindings(), Delete(id));
      ComposeDocumentCorrect(s.contents, [Delete(id)]);
    }
  }
}
