/** Carets: a two-level map from caret IDs to fields, its deltas and the loop that composes them. */
module CaretDelta {
  import opened Wrappers
  import opened JsMap

  datatype Field = AuthorId | Color | Index | LastActive | Length | RevNum

  datatype Value = Num(n: nat) | Str(s: string) | Time(msec: int)

  /** Every caret binds every field. */
  type Fields = m: map<Field, Value> |
    AuthorId in m && Color in m && Index in m && LastActive in m && Length in m && RevNum in m
    witness map[AuthorId := Num(0), Color := Num(0), Index := Num(0), LastActive := Num(0), Length := Num(0),
      RevNum := Num(0)]

  datatype Caret = Caret(id: string, fields: Fields)

  datatype CaretOp = Add(caret: Caret) | Delete(caretId: string) | SetField(caretId: string, key: Field, value: Value) {
    function Id(): string { if Add? then caret.id else caretId }
  }

  type Delta = seq<CaretOp>

  type Carets = map<string, Fields>

  // ----- Meaning -----

  /** What is known of one caret while operations are applied: it exists, it does not, or a field was set on it
      although it does not exist. */
  datatype Slot = Present(fields: Fields) | Absent | Naked

  function Walk(slot: Slot, op: CaretOp): Slot {
    match op
    case Add(c) => Present(c.fields)
    case Delete(_) => Absent
    case SetField(_, k, v) => if slot.Present? then Present(slot.fields[k := v]) else Naked
  }

  function After(slot: Slot, d: Delta, id: string): Slot {
    if d == [] then slot
    else
      var before, op := After(slot, d[..|d| - 1], id), d[|d| - 1];
      if op.Id() == id then Walk(before, op) else before
  }

  function SlotOf(s: Carets, id: string): Slot {
    if id in s then Present(s[id]) else Absent
  }

  function Ids(d: Delta): set<string> {
    set op <- d :: op.Id()
  }

  /** Whether a delta can be applied: it must not leave a field set on a caret that does not exist. */
  predicate Applies(s: Carets, d: Delta) {
    forall id <- Ids(d) :: !After(SlotOf(s, id), d, id).Naked?
  }

  /** The effect of a delta on all carets. */
  function Apply(s: Carets, d: Delta): Option<Carets> {
    if Applies(s, d) then
      Some(map id | id in s.Keys + Ids(d) && After(SlotOf(s, id), d, id).Present? ::
                    After(SlotOf(s, id), d, id).fields)
    else None
  }

  /** `isDocument()`: only `add` operations, no caret twice. */
  predicate IsDocument(d: Delta) {
    && (forall op <- d :: op.Add?)
    && forall i, j :: 0 <= i < j < |d| ==> d[i].Id() != d[j].Id()
  }

  // ----- Composition -----

  type Group = JsMap<string, seq<CaretOp>>

  /** The first operation for field `k`, or the length if there is none. */
  function FindKey(ops: seq<CaretOp>, k: Field): (i: nat)
    ensures i <= |ops|
    ensures forall j :: 0 <= j < i ==> ops[j].SetField? ==> ops[j].key != k
    ensures i < |ops| ==> ops[i].SetField? && ops[i].key == k
  {
    if ops == [] then 0
    else if ops[0].SetField? && ops[0].key == k then 0
    else 1 + FindKey(ops[1..], k)
  }

  /** What a `setField` does to the operations already collected for its caret. */
  function Absorb(ops: seq<CaretOp>, op: CaretOp): seq<CaretOp>
    requires op.SetField?
  {
    if |ops| == 1 && ops[0].Add? then [Add(ops[0].caret.(fields := ops[0].caret.fields[op.key := op.value]))]
    else if |ops| == 1 && ops[0].Delete? then ops
    else
      var i := FindKey(ops, op.key);
      if i < |ops| then ops[i := op] else ops + [op]
  }

  function Step(m: Group, op: CaretOp, wantDocument: bool): Group {
    match op
    case Add(c) => m.Put(c.id, [op])
    case Delete(id) => if wantDocument then m.Remove(id) else m.Put(id, [op])
    case SetField(id, _, _) => m.Put(id, if id in m.vals then Absorb(m.vals[id], op) else [op])
  }

  function Fold(d: Delta, wantDocument: bool): Group {
    if d == [] then Empty() else Step(Fold(d[..|d| - 1], wantDocument), d[|d| - 1], wantDocument)
  }

  lemma {:induction false} FoldValid(d: Delta, wantDocument: bool)
    ensures Fold(d, wantDocument).Valid()
  {
    if d != [] {
      FoldValid(d[..|d| - 1], wantDocument);
      Fold(d[..|d| - 1], wantDocument).RemoveValid(d[|d| - 1].Id());
    }
  }

  /** The carets that operations are for, in order. */
  function IdsOf(d: Delta): seq<string> {
    if d == [] then [] else IdsOf(d[..|d| - 1]) + [d[|d| - 1].Id()]
  }

  lemma FirstOfNone()
    ensures InFirstOrder<string>([], [])
  {
  }

  /** The carets of a composed change are in the order in which they occur first. */
  lemma {:induction false} FoldInOrder(d: Delta)
    ensures InFirstOrder(Fold(d, false).keys, IdsOf(d))
  {
    hide Absorb, InFirstOrder;
    FirstOfNone();
    if d != [] {
      var front, last := d[..|d| - 1], d[|d| - 1];
      FoldInOrder(front);
      FoldValid(front, false);
      var m := Fold(front, false);
      var ops := if last.SetField? && last.Id() in m.vals then Absorb(m.vals[last.Id()], last) else [last];
      PutInOrder(m, IdsOf(front), last.Id(), ops);
    }
  }

  function Flatten(parts: seq<seq<CaretOp>>): Delta {
    if parts == [] then [] else Flatten(parts[..|parts| - 1]) + parts[|parts| - 1]
  }

  /** The result of `compose(b, wantDocument)` on `a`. */
  function Composed(a: Delta, b: Delta, wantDocument: bool): Delta {
    FoldValid(a + b, wantDocument);
    Flatten(Fold(a + b, wantDocument).Values())
  }

  /** The composition loop. */
  method Compose(a: Delta, b: Delta, wantDocument: bool) returns (r: Delta)
    ensures r == Composed(a, b, wantDocument)
  {
    var carets: Group := Empty();
    var all := a + b;
    assert all[..|all|] == all;
    for n := 0 to |all|
      invariant carets == Fold(all[..n], wantDocument)
    {
      assert all[..n + 1][..n] == all[..n];
      var op := all[n];
      match op
      case Add(c) =>
        carets := carets.Put(c.id, [op]);
      case Delete(id) =>
        if wantDocument {
          carets := carets.Remove(id);
        } else {
          carets := carets.Put(id, [op]);
        }
      case SetField(id, _, _) =>
        if id !in carets.vals {
          carets := carets.Put(id, [op]);
        } else {
          var ops := AbsorbOp(carets.vals[id], op);
          carets := carets.Put(id, ops);
        }
    }
    FoldValid(all, wantDocument);
    r := ConcatAll(carets.Values());
  }

  /** The `setField` case of the loop, with its search for an operation on the same field. */
  method AbsorbOp(ops: seq<CaretOp>, op: CaretOp) returns (r: seq<CaretOp>)
    requires op.SetField?
    ensures r == Absorb(ops, op)
  {
    r := ops;
    var handled := false;
    if |ops| == 1 {
      match ops[0]
      case Add(c) =>
        r := [Add(Caret(c.id, c.fields[op.key := op.value]))];
        handled := true;
      case Delete(_) =>
        handled := true;
      case SetField(_, _, _) =>
    }
    if handled { return; }
    for i := 0 to |ops|
      invariant r == ops
      invariant FindKey(ops, op.key) == i + FindKey(ops[i..], op.key)
    {
      assert ops[i..][0] == ops[i] && ops[i..][1..] == ops[i + 1..];
      if ops[i].SetField? && ops[i].key == op.key {
        r := ops[i := op];
        return;
      }
    }
    r := ops + [op];
  }

  method ConcatAll(parts: seq<seq<CaretOp>>) returns (r: Delta)
    ensures r == Flatten(parts)
  {
    r := [];
    assert parts[..|parts|] == parts;
    for i := 0 to |parts|
      invariant r == Flatten(parts[..i])
    {
      assert parts[..i + 1][..i] == parts[..i];
      r := r + parts[i];
    }
  }

  /** The document check loop. */
  method CheckDocument(d: Delta) returns (r: bool)
    ensures r <==> IsDocument(d)
  {
    var ids := {};
    for i := 0 to |d|
      invariant ids == set k | 0 <= k < i :: d[k].Id()
      invariant IsDocument(d[..i])
    {
      match d[i]
      case Add(c) =>
        if c.id in ids {
          assert exists k :: 0 <= k < i && d[k].Id() == d[i].Id();
          return false;
        }
        ids := ids + {c.id};
        assert d[..i + 1] == d[..i] + [d[i]];
      case Delete(_) =>
        assert d[i] in d;
        return false;
      case SetField(_, _, _) =>
        assert d[i] in d;
        return false;
    }
    assert d[..|d|] == d;
    r := true;
  }
}
