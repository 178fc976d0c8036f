/** Caret composition is faithful, for documents and for plain changes. */
module CaretLaws {
  import opened Wrappers
  import opened JsMap
  import opened CaretDelta

  // ----- The net effect of a delta on one caret -----

  datatype Net = Untouched | Whole(fields: Fields) | Gone | Sets(sets: map<Field, Value>)

  /** The net effect after one more operation. A plain change remembers deletions, and ignores fields set on
      a deleted caret; a document forgets both. */
  function NetStep(net: Net, op: CaretOp, wantDocument: bool): Net {
    match op
    case Add(c) => Whole(c.fields)
    case Delete(_) => if wantDocument then Untouched else Gone
    case SetField(_, k, v) =>
      match net
      case Untouched => Sets(map[k := v])
      case Whole(f) => Whole(f[k := v])
      case Gone => Gone
      case Sets(m) => Sets(m[k := v])
  }

  function NetOf(d: Delta, id: string, wantDocument: bool): Net {
    if d == [] then Untouched
    else
      var net, op := NetOf(d[..|d| - 1], id, wantDocument), d[|d| - 1];
      if op.Id() == id then NetStep(net, op, wantDocument) else net
  }

  /** What a net effect makes of a caret. */
  function Effect(slot: Slot, net: Net): Slot {
    match net
    case Untouched => slot
    case Whole(f) => Present(f)
    case Gone => Absent
    case Sets(m) => if slot.Present? then Present(slot.fields + m) else Naked
  }

  /** The net effect tells what the operations do, one by one, to a caret; only when a field is set on a caret
      just deleted do the operations fail where the net effect does not. */
  lemma {:induction false} NetIsEffect(slot: Slot, d: Delta, id: string)
    ensures var r, net := After(slot, d, id), NetOf(d, id, false);
      r == Effect(slot, net) || (net.Gone? && r.Naked?)
  {
    if d != [] {
      NetIsEffect(slot, d[..|d| - 1], id);
      var net, op := NetOf(d[..|d| - 1], id, false), d[|d| - 1];
      if op.SetField? && net.Sets? && slot.Present? {
        assert (slot.fields + net.sets)[op.key := op.value] == slot.fields + net.sets[op.key := op.value];
      }
    }
  }

  /** For a document the correspondence is exact. */
  lemma {:induction false} DocumentNetIsEffect(d: Delta, id: string)
    ensures var r, net := After(Absent, d, id), NetOf(d, id, true);
      && !net.Gone?
      && (r.Present? <==> net.Whole?) && (r.Naked? <==> net.Sets?)
      && (r.Present? ==> r.fields == net.fields)
  {
    if d != [] { DocumentNetIsEffect(d[..|d| - 1], id); }
  }

  // ----- What the composition loop collects for each caret -----

  /** Only `setField` operations of this caret, no field twice. */
  predicate DistinctSets(ops: seq<CaretOp>, id: string) {
    && (forall op <- ops :: op.SetField? && op.caretId == id)
    && forall i, j :: 0 <= i < j < |ops| && ops[i].SetField? && ops[j].SetField? ==> ops[i].key != ops[j].key
  }

  function SetsOf(ops: seq<CaretOp>): map<Field, Value> {
    if ops == [] then map[]
    else
      var m, op := SetsOf(ops[..|ops| - 1]), ops[|ops| - 1];
      if op.SetField? then m[op.key := op.value] else m
  }

  /** The operations collected for a caret are exactly one `add`, exactly one `delete`, or `setField`s of
      distinct fields, and stand for the net effect. */
  predicate Stands(m: Group, id: string, net: Net) {
    match net
    case Untouched => id !in m.vals
    case Whole(f) => id in m.vals && m.vals[id] == [Add(Caret(id, f))]
    case Gone => id in m.vals && m.vals[id] == [Delete(id)]
    case Sets(s) => id in m.vals && m.vals[id] != [] && DistinctSets(m.vals[id], id) && SetsOf(m.vals[id]) == s
  }

  lemma {:induction false} ReplaceSet(ops: seq<CaretOp>, i: nat, op: CaretOp)
    requires i < |ops| && op.SetField? && forall j :: 0 <= j < |ops| ==> ops[j].SetField?
    requires ops[i].key == op.key && forall j :: i < j < |ops| ==> ops[j].key != op.key
    ensures SetsOf(ops[i := op]) == SetsOf(ops)[op.key := op.value]
  {
    var n := |ops| - 1;
    if i == n {
      assert ops[i := op][..n] == ops[..n];
    } else {
      assert ops[i := op][..n] == ops[..n][i := op];
      ReplaceSet(ops[..n], i, op);
      assert ops[n].key != op.key;
    }
  }

  lemma AbsorbSet(ops: seq<CaretOp>, id: string, op: CaretOp)
    requires ops != [] && DistinctSets(ops, id) && op.SetField? && op.caretId == id
    ensures DistinctSets(Absorb(ops, op), id) && Absorb(ops, op) != []
    ensures SetsOf(Absorb(ops, op)) == SetsOf(ops)[op.key := op.value]
  {
    var i, r := FindKey(ops, op.key), Absorb(ops, op);
    forall j | 0 <= j < |ops| ensures ops[j].SetField? && ops[j].caretId == id {
      assert ops[j] in ops;
    }
    if i < |ops| {
      ReplaceSet(ops, i, op);
    } else {
      assert r == ops + [op] && r[..|r| - 1] == ops;
    }
    assert forall j :: 0 <= j < |r| ==> r[j] == op || (j < |ops| && r[j] == ops[j]);
  }

  lemma StepStands(m: Group, op: CaretOp, wantDocument: bool, id: string, net: Net)
    requires Stands(m, id, net)
    ensures Stands(Step(m, op, wantDocument), id, if op.Id() == id then NetStep(net, op, wantDocument) else net)
  {
    if op.SetField? && op.caretId == id {
      match net
      case Untouched =>
        assert [op][..0] == [];
        assert SetsOf([op]) == map[op.key := op.value];
      case Sets(_) => AbsorbSet(m.vals[id], id, op);
      case _ =>
    }
  }

  /** The loop keeps, for every caret, operations that stand for the net effect. */
  lemma {:induction false} FoldStands(d: Delta, wantDocument: bool, id: string)
    ensures Stands(Fold(d, wantDocument), id, NetOf(d, id, wantDocument))
  {
    if d != [] {
      FoldStands(d[..|d| - 1], wantDocument, id);
      StepStands(Fold(d[..|d| - 1], wantDocument), d[|d| - 1], wantDocument, id,
                 NetOf(d[..|d| - 1], id, wantDocument));
    }
  }

  // ----- The collected operations, one caret after the other -----

  lemma {:induction false} AfterConcat(slot: Slot, a: Delta, b: Delta, id: string)
    ensures After(slot, a + b, id) == After(After(slot, a, id), b, id)
  {
    if b == [] {
      assert a + b == a;
    } else {
      AfterConcat(slot, a, b[..|b| - 1], id);
      assert (a + b)[..|a + b| - 1] == a + b[..|b| - 1];
    }
  }

  lemma {:induction false} AfterOthers(slot: Slot, d: Delta, id: string)
    requires id !in Ids(d)
    ensures After(slot, d, id) == slot
  {
    if d != [] {
      assert d[|d| - 1] in d;
      assert forall op <- d[..|d| - 1] :: op in d;
      AfterOthers(slot, d[..|d| - 1], id);
    }
  }

  lemma {:induction false} AfterSets(slot: Slot, ops: Delta, id: string)
    requires forall op <- ops :: op.SetField? && op.caretId == id
    ensures ops == [] ==> After(slot, ops, id) == slot
    ensures ops != [] ==> After(slot, ops, id) == Effect(slot, Sets(SetsOf(ops)))
  {
    if ops != [] {
      var front, op := ops[..|ops| - 1], ops[|ops| - 1];
      assert op in ops;
      assert forall x <- front :: x in ops;
      AfterSets(slot, front, id);
      if slot.Present? {
        assert (slot.fields + SetsOf(front))[op.key := op.value] == slot.fields + SetsOf(ops);
      }
    }
  }

  /** The operations collected for a caret do what their net effect says. */
  lemma StandsAfter(m: Group, id: string, net: Net, slot: Slot)
    requires Stands(m, id, net) && id in m.vals
    ensures After(slot, m.vals[id], id) == Effect(slot, net)
    ensures Ids(m.vals[id]) == {id}
  {
    var ops := m.vals[id];
    if net.Sets? {
      AfterSets(slot, ops, id);
      assert ops[0] in ops;
    } else {
      assert ops[..0] == [];
      assert ops == [ops[0]];
    }
  }

  /** Each part concerns only the caret of its key. */
  predicate PartsBelong(parts: seq<seq<CaretOp>>, keys: seq<string>) {
    |parts| == |keys| && forall i :: 0 <= i < |keys| ==> Ids(parts[i]) <= {keys[i]}
  }

  lemma FlattenStep(slot: Slot, front: seq<seq<CaretOp>>, part: seq<CaretOp>, key: string, id: string)
    requires Ids(part) <= {key}
    ensures var r := After(slot, Flatten(front) + part, id);
      r == if key == id then After(After(slot, Flatten(front), id), part, id) else After(slot, Flatten(front), id)
    ensures id in Ids(Flatten(front) + part) <==> id in Ids(Flatten(front)) || id in Ids(part)
  {
    AfterConcat(slot, Flatten(front), part, id);
    if key != id { AfterOthers(After(slot, Flatten(front), id), part, id); }
    assert Ids(Flatten(front) + part) == Ids(Flatten(front)) + Ids(part);
  }

  lemma {:induction false} FlattenOthers(slot: Slot, parts: seq<seq<CaretOp>>, keys: seq<string>, id: string)
    requires PartsBelong(parts, keys) && id !in keys
    ensures id !in Ids(Flatten(parts)) && After(slot, Flatten(parts), id) == slot
  {
    if parts != [] {
      var n := |parts| - 1;
      FlattenOthers(slot, parts[..n], keys[..n], id);
      FlattenStep(slot, parts[..n], parts[n], keys[n], id);
    }
  }

  /** Joined end to end, the collected operations do to each caret what those of that caret do. */
  lemma {:induction false} FlattenAfter(slot: Slot, parts: seq<seq<CaretOp>>, keys: seq<string>, i: nat)
    requires Distinct(keys) && PartsBelong(parts, keys) && i < |keys|
    ensures keys[i] in Ids(Flatten(parts)) <==> keys[i] in Ids(parts[i])
    ensures After(slot, Flatten(parts), keys[i]) == After(slot, parts[i], keys[i])
  {
    var n := |parts| - 1;
    FlattenStep(slot, parts[..n], parts[n], keys[n], keys[i]);
    if i == n {
      FlattenOthers(slot, parts[..n], keys[..n], keys[i]);
    } else {
      FlattenAfter(slot, parts[..n], keys[..n], i);
      assert keys[i] !in Ids(parts[n]);
    }
  }

  /** What a composed delta does to one caret is the net effect of its two halves. */
  lemma ComposedAfter(a: Delta, b: Delta, wantDocument: bool, slot: Slot, id: string)
    ensures var net := NetOf(a + b, id, wantDocument);
      && After(slot, Composed(a, b, wantDocument), id) == Effect(slot, net)
      && (id in Ids(Composed(a, b, wantDocument)) <==> !net.Untouched?)
  {
    var m := Fold(a + b, wantDocument);
    FoldValid(a + b, wantDocument);
    var parts: seq<seq<CaretOp>> := m.Values();
    forall i | 0 <= i < |parts| ensures Ids(parts[i]) == {m.keys[i]} {
      FoldStands(a + b, wantDocument, m.keys[i]);
      StandsAfter(m, m.keys[i], NetOf(a + b, m.keys[i], wantDocument), slot);
    }
    FoldStands(a + b, wantDocument, id);
    if id in m.keys {
      StandsAfter(m, id, NetOf(a + b, id, wantDocument), slot);
      var i :| 0 <= i < |m.keys| && m.keys[i] == id;
      FlattenAfter(slot, parts, m.keys, i);
    } else {
      FlattenOthers(slot, parts, m.keys, id);
    }
  }

  // ----- Main results -----

  /** Applying a delta, seen caret by caret. */
  lemma ApplyAt(s: Carets, d: Delta, id: string)
    ensures After(SlotOf(s, id), d, id).Naked? ==> id in Ids(d) && !Applies(s, d)
    ensures Applies(s, d) ==> SlotOf(Apply(s, d).value, id) == After(SlotOf(s, id), d, id)
  {
    if id !in Ids(d) { AfterOthers(SlotOf(s, id), d, id); }
  }

  lemma SameSlots(s: Carets, t: Carets)
    requires forall id :: SlotOf(s, id) == SlotOf(t, id)
    ensures s == t
  {
    forall id ensures id in s <==> id in t
      ensures id in s ==> s[id] == t[id]
    {
      assert SlotOf(s, id) == SlotOf(t, id);
    }
  }

  /** Two deltas that do the same to every caret do the same. */
  lemma SameEffect(s: Carets, d: Delta, t: Carets, e: Delta)
    requires forall id :: After(SlotOf(s, id), d, id) == After(SlotOf(t, id), e, id)
    ensures Apply(s, d) == Apply(t, e)
  {
    forall id
      ensures After(SlotOf(s, id), d, id).Naked? ==> !Applies(s, d) && !Applies(t, e)
    {
      ApplyAt(s, d, id);
      ApplyAt(t, e, id);
    }
    if Applies(s, d) && Applies(t, e) {
      forall id ensures SlotOf(Apply(s, d).value, id) == SlotOf(Apply(t, e).value, id) {
        ApplyAt(s, d, id);
        ApplyAt(t, e, id);
      }
      SameSlots(Apply(s, d).value, Apply(t, e).value);
    }
  }

  /** Applying one delta and then another is applying them joined end to end. */
  lemma ApplyConcat(s: Carets, a: Delta, b: Delta)
    requires Apply(s, a).Some?
    ensures Apply(Apply(s, a).value, b) == Apply(s, a + b)
  {
    var t := Apply(s, a).value;
    forall id ensures After(SlotOf(t, id), b, id) == After(SlotOf(s, id), a + b, id) {
      ApplyAt(s, a, id);
      AfterConcat(SlotOf(s, id), a, b, id);
    }
    SameEffect(t, b, s, a + b);
  }

  lemma ComposeAt(s: Carets, a: Delta, b: Delta, id: string)
    ensures var r, all := Composed(a, b, false), a + b;
      && (id in Ids(r) <==> id in Ids(all))
      && (After(SlotOf(s, id), r, id) == After(SlotOf(s, id), all, id) ||
          (NetOf(all, id, false).Gone? && After(SlotOf(s, id), all, id).Naked?))
      && (NetOf(all, id, false).Gone? ==> After(SlotOf(s, id), r, id).Absent?)
  {
    ComposedAfter(a, b, false, SlotOf(s, id), id);
    NetIsEffect(SlotOf(s, id), a + b, id);
    TouchedNet(a + b, id);
  }

  /** A composed plain change applies wherever its two halves apply in order, with the same result. Beyond that
      it applies exactly when every offending field was set on a caret that the change itself has deleted. */
  lemma ComposeCorrect(s: Carets, a: Delta, b: Delta)
    ensures Applies(s, a + b) ==> Apply(s, Composed(a, b, false)) == Apply(s, a + b)
    ensures Applies(s, Composed(a, b, false)) <==>
      forall id <- Ids(a + b) :: After(SlotOf(s, id), a + b, id).Naked? ==> NetOf(a + b, id, false).Gone?
  {
    var r := Composed(a, b, false);
    forall id
      ensures id in Ids(r) <==> id in Ids(a + b)
      ensures After(SlotOf(s, id), r, id).Naked? <==>
        After(SlotOf(s, id), a + b, id).Naked? && !NetOf(a + b, id, false).Gone?
    {
      ComposeAt(s, a, b, id);
    }
    if Applies(s, a + b) {
      forall id ensures After(SlotOf(s, id), r, id) == After(SlotOf(s, id), a + b, id) {
        ComposeAt(s, a, b, id);
        ApplyAt(s, a + b, id);
      }
      SameEffect(s, r, s, a + b);
    }
  }

  lemma {:induction false} TouchedNet(d: Delta, id: string)
    ensures NetOf(d, id, false).Untouched? <==> id !in Ids(d)
  {
    if d != [] {
      TouchedNet(d[..|d| - 1], id);
      assert d == d[..|d| - 1] + [d[|d| - 1]];
    }
  }

  /** The carets that a document delta stands for. */
  function Contents(doc: Delta): Carets
    requires IsDocument(doc)
  {
    DocumentApplies(doc);
    Apply(map[], doc).value
  }

  lemma {:induction false} AddedPresent(d: Delta, id: string)
    requires forall op <- d :: op.Add?
    ensures !After(Absent, d, id).Naked?
  {
    if d != [] {
      assert d[|d| - 1] in d;
      AddedPresent(d[..|d| - 1], id);
    }
  }

  lemma DocumentApplies(doc: Delta)
    requires IsDocument(doc)
    ensures Applies(map[], doc)
  {
    forall id | id in Ids(doc) { AddedPresent(doc, id); }
  }

  predicate SingleAdds(parts: seq<seq<CaretOp>>, keys: seq<string>) {
    && |parts| == |keys|
    && forall i :: 0 <= i < |keys| ==> |parts[i]| == 1 && parts[i][0].Add? && parts[i][0].Id() == keys[i]
  }

  lemma {:induction false} FlattenDocument(parts: seq<seq<CaretOp>>, keys: seq<string>)
    requires SingleAdds(parts, keys)
    ensures |Flatten(parts)| == |keys|
    ensures forall i :: 0 <= i < |keys| ==> Flatten(parts)[i].Add? && Flatten(parts)[i].Id() == keys[i]
  {
    if parts != [] {
      var n := |parts| - 1;
      assert forall i :: 0 <= i < n ==> keys[..n][i] == keys[i] && parts[..n][i] == parts[i];
      FlattenDocument(parts[..n], keys[..n]);
    }
  }

  /** When no field was set on a missing caret, only `add`s are collected, one for each caret. */
  lemma DocumentShape(doc: Delta, other: Delta)
    requires Applies(map[], doc + other)
    ensures IsDocument(Composed(doc, other, true))
  {
    var all := doc + other;
    var m := Fold(all, true);
    FoldValid(all, true);
    var parts: seq<seq<CaretOp>> := m.Values();
    forall i | 0 <= i < |parts| ensures |parts[i]| == 1 && parts[i][0].Add? && parts[i][0].Id() == m.keys[i] {
      var id := m.keys[i];
      assert id in m.keys;
      FoldStands(all, true, id);
      DocumentNetIsEffect(all, id);
      if id !in Ids(all) { AfterOthers(Absent, all, id); }
    }
    FlattenDocument(parts, m.keys);
  }

  lemma DocumentAfter(doc: Delta, other: Delta, id: string)
    ensures var r, all := Composed(doc, other, true), doc + other;
      && After(Absent, r, id) == After(Absent, all, id)
      && (id in Ids(r) <==> !After(Absent, all, id).Absent?)
  {
    ComposedAfter(doc, other, true, Absent, id);
    DocumentNetIsEffect(doc + other, id);
  }

  /** Composing onto a document gives a document exactly when the delta applies to the document's carets, and
      then it is a document for the resulting carets. */
  lemma ComposeDocumentCorrect(doc: Delta, other: Delta)
    requires IsDocument(doc)
    ensures IsDocument(Composed(doc, other, true)) <==> Applies(Contents(doc), other)
    ensures IsDocument(Composed(doc, other, true)) ==>
      Apply(Contents(doc), other) == Some(Contents(Composed(doc, other, true)))
  {
    var r, all := Composed(doc, other, true), doc + other;
    DocumentApplies(doc);
    ApplyConcat(map[], doc, other);
    if Applies(map[], all) {
      DocumentShape(doc, other);
      forall id ensures After(SlotOf(map[], id), r, id) == After(SlotOf(map[], id), all, id) {
        DocumentAfter(doc, other, id);
      }
      SameEffect(map[], r, map[], all);
    } else {
      var id :| id in Ids(all) && After(Absent, all, id).Naked?;
      DocumentAfter(doc, other, id);
      if IsDocument(r) {
        DocumentApplies(r);
        assert false;
      }
    }
  }

  /** A field set on a caret after its deletion: composed onto a document, it is left without an `add`, and the
      result is no document; composed onto a plain change, it is ignored. */
  lemma DeletedThenSet(c: Caret, k: Field, v: Value)
    ensures !IsDocument(Composed([Add(c)], [Delete(c.id), SetField(c.id, k, v)], true))
    ensures var d := [Delete(c.id), SetField(c.id, k, v)];
      After(Present(c.fields), Composed(d, [], false), c.id) == Absent
  {
    var d := [Delete(c.id), SetField(c.id, k, v)];
    assert [Add(c)][..0] == [] && d[..1] == [Delete(c.id)] && [Delete(c.id)][..0] == [];
    assert After(Present(c.fields), d[..1], c.id) == Absent;
    assert IsDocument([Add(c)]);
    ComposeDocumentCorrect([Add(c)], d);
    DocumentApplies([Add(c)]);
    ApplyAt(map[], [Add(c)], c.id);
    assert After(SlotOf(Contents([Add(c)]), c.id), d, c.id) == Naked;
    assert d[1] in d && c.id in Ids(d);
    ComposedAfter(d, [], false, Present(c.fields), c.id);
    assert d + [] == d;
    assert NetOf(d[..1], c.id, false) == Gone && NetOf(d, c.id, false) == Gone;
  }
}
