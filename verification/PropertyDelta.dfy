/** Document properties: a key-value map, its deltas and the loop that composes them. */
module PropertyDelta {
  import opened Wrappers
  import opened JsMap

  /** Property values are data that the code only compares. */
  datatype Data = Num(n: int) | Str(s: string)

  datatype PropertyOp = Set(name: string, data: Data) | Delete(name: string)

  type Delta = seq<PropertyOp>

  type Properties = map<string, Data>

  // ----- Meaning -----

  function ApplyOp(s: Properties, op: PropertyOp): Properties {
    match op
    case Set(n, d) => s[n := d]
    case Delete(n) => s - {n}
  }

  /** The effect of a delta on the properties: its operations, one after the other. */
  function Apply(s: Properties, d: Delta): Properties {
    if d == [] then s else ApplyOp(Apply(s, d[..|d| - 1]), d[|d| - 1])
  }

  function Names(d: Delta): set<string> {
    set op <- d :: op.name
  }

  /** `isDocument()`: only `set` operations, no name twice. */
  predicate IsDocument(d: Delta) {
    && (forall op <- d :: op.Set?)
    && forall i, j :: 0 <= i < j < |d| ==> d[i].name != d[j].name
  }

  /** The properties that a document delta stands for. */
  function Contents(d: Delta): Properties {
    Apply(map[], d)
  }

  // ----- Composition -----

  function Step(props: JsMap<string, PropertyOp>, op: PropertyOp, wantDocument: bool): JsMap<string, PropertyOp> {
    if op.Delete? && wantDocument then props.Remove(op.name) else props.Put(op.name, op)
  }

  function Fold(ops: Delta, wantDocument: bool): JsMap<string, PropertyOp> {
    if ops == [] then Empty() else Step(Fold(ops[..|ops| - 1], wantDocument), ops[|ops| - 1], wantDocument)
  }

  lemma {:induction false} FoldValid(ops: Delta, wantDocument: bool)
    ensures var m := Fold(ops, wantDocument);
      m.Valid() && forall n :: n in m.vals ==> m.vals[n].name == n && (wantDocument ==> m.vals[n].Set?)
  {
    if ops != [] {
      var m, op := Fold(ops[..|ops| - 1], wantDocument), ops[|ops| - 1];
      FoldValid(ops[..|ops| - 1], wantDocument);
      m.RemoveValid(op.name);
    }
  }

  /** The result of `compose(b, wantDocument)` on `a`. */
  function Composed(a: Delta, b: Delta, wantDocument: bool): Delta {
    FoldValid(a + b, wantDocument);
    Fold(a + b, wantDocument).Values()
  }

  /** The composition loop. */
  method Compose(a: Delta, b: Delta, wantDocument: bool) returns (r: Delta)
    ensures r == Composed(a, b, wantDocument)
  {
    var props: JsMap<string, PropertyOp> := Empty();
    var ops := a + b;
    for i := 0 to |ops|
      invariant props == Fold(ops[..i], wantDocument)
    {
      assert ops[..i + 1][..i] == ops[..i];
      var op := ops[i];
      match op
      case Delete(name) =>
        if wantDocument {
          props := props.Remove(name);
        } else {
          props := props.Put(name, op);
        }
      case Set(name, _) =>
        props := props.Put(name, op);
    }
    assert ops[..|ops|] == ops;
    FoldValid(ops, wantDocument);
    r := props.Values();
  }

  /** The document check loop. */
  method CheckDocument(d: Delta) returns (r: bool)
    ensures r <==> IsDocument(d)
  {
    var names := {};
    for i := 0 to |d|
      invariant names == set k | 0 <= k < i :: d[k].name
      invariant IsDocument(d[..i])
    {
      match d[i]
      case Set(name, _) =>
        if name in names {
          assert exists k :: 0 <= k < i && d[k].name == d[i].name;
          return false;
        }
        names := names + {name};
        assert d[..i + 1] == d[..i] + [d[i]];
      case Delete(_) =>
        assert d[i] in d;
        return false;
    }
    assert d[..|d|] == d;
    r := true;
  }

  // ----- Composition is faithful -----

  lemma ApplyMore(s: Properties, d: Delta, op: PropertyOp)
    ensures Apply(s, d + [op]) == ApplyOp(Apply(s, d), op)
    ensures forall n :: n in Names(d + [op]) <==> n in Names(d) || n == op.name
  {
    assert (d + [op])[..|d|] == d;
  }

  /** The last operation for a name decides; a name without operations keeps its value. */
  lemma {:induction false} ApplyByName(s: Properties, ops: Delta, n: string)
    ensures var r, m := Apply(s, ops), Fold(ops, false).vals;
      if n in m then (n in r <==> m[n].Set?) && (n in r ==> r[n] == m[n].data)
      else (n in r <==> n in s) && (n in r ==> r[n] == s[n])
    ensures n in Names(ops) <==> n in Fold(ops, false).vals
    ensures n in Fold(ops, false).vals ==> Fold(ops, false).vals[n].name == n
  {
    if ops != [] {
      var front, op := ops[..|ops| - 1], ops[|ops| - 1];
      ApplyByName(s, front, n);
      assert ops == front + [op];
    }
  }

  /** Operations on different names, each once: any of them decides for its name. */
  lemma {:induction false} DistinctByName(s: Properties, ops: Delta, n: string)
    requires forall i, j :: 0 <= i < j < |ops| ==> ops[i].name != ops[j].name
    ensures var r := Apply(s, ops);
      && (forall i :: 0 <= i < |ops| && ops[i].name == n ==>
           (n in r <==> ops[i].Set?) && (n in r ==> r[n] == ops[i].data))
      && (n !in Names(ops) ==> (n in r <==> n in s) && (n in r ==> r[n] == s[n]))
  {
    if ops != [] {
      hide Apply, Names;
      var front, op := ops[..|ops| - 1], ops[|ops| - 1];
      assert ops == front + [op];
      assert forall i :: 0 <= i < |front| ==> ops[i] == front[i];
      DistinctByName(s, front, n);
      ApplyMore(s, front, op);
    }
  }

  lemma {:induction false} ApplyConcat(s: Properties, a: Delta, b: Delta)
    ensures Apply(s, a + b) == Apply(Apply(s, a), b)
  {
    if b == [] {
      assert a + b == a;
    } else {
      ApplyConcat(s, a, b[..|b| - 1]);
      assert (a + b)[..|a + b| - 1] == a + b[..|b| - 1];
    }
  }

  lemma ValuesDistinct(ops: Delta, wantDocument: bool)
    ensures Fold(ops, wantDocument).Valid()
    ensures var v := Fold(ops, wantDocument).Values();
      && (forall i, j :: 0 <= i < j < |v| ==> v[i].name != v[j].name)
      && Names(v) == Fold(ops, wantDocument).vals.Keys
      && forall i :: 0 <= i < |v| ==> v[i].name in Fold(ops, wantDocument).vals &&
                                      v[i] == Fold(ops, wantDocument).vals[v[i].name]
  {
    FoldValid(ops, wantDocument);
    var m := Fold(ops, wantDocument);
    var v := m.Values();
    forall i | 0 <= i < |v| ensures v[i].name == m.keys[i] {
      assert m.keys[i] in m.keys;
    }
    forall n | n in m.vals ensures n in Names(v) {
      assert n in m.keys;
      var i :| 0 <= i < |m.keys| && m.keys[i] == n;
      assert v[i] in v;
    }
  }

  /** The names of the operations, in order. */
  function NamesOf(d: Delta): (r: seq<string>)
    ensures |r| == |d| && forall i :: 0 <= i < |d| ==> r[i] == d[i].name
  {
    if d == [] then [] else NamesOf(d[..|d| - 1]) + [d[|d| - 1].name]
  }

  lemma {:induction false} FoldInOrder(ops: Delta)
    ensures InFirstOrder(Fold(ops, false).keys, NamesOf(ops))
  {
    if ops != [] {
      var front, last := ops[..|ops| - 1], ops[|ops| - 1];
      FoldInOrder(front);
      FoldValid(front, false);
      PutInOrder(Fold(front, false), NamesOf(front), last.name, last);
    }
  }

  /** The operations of a composed change are in the order in which their names occur first. */
  lemma ComposedInOrder(a: Delta, b: Delta)
    ensures InFirstOrder(NamesOf(Composed(a, b, false)), NamesOf(a + b))
  {
    FoldInOrder(a + b);
    FoldValid(a + b, false);
    hide Fold, InFirstOrder, FirstSeen;
    var m := Fold(a + b, false);
    forall i | 0 <= i < |m.keys| ensures m.Values()[i].name == m.keys[i] {
      assert m.keys[i] in m.keys;
    }
    assert NamesOf(Composed(a, b, false)) == m.keys;
  }

  lemma NamesConcat(a: Delta, b: Delta, n: string)
    ensures n in Names(a + b) <==> n in Names(a) || n in Names(b)
  {
  }

  lemma ComposeByName(s: Properties, a: Delta, b: Delta, n: string)
    ensures var r, t := Apply(s, Composed(a, b, false)), Apply(Apply(s, a), b);
      (n in r <==> n in t) && (n in r ==> r[n] == t[n])
    ensures n in Names(Composed(a, b, false)) <==> n in Names(a) || n in Names(b)
  {
    hide Apply, Fold, Names;
    ValuesDistinct(a + b, false);
    ApplyConcat(s, a, b);
    ApplyByName(s, a + b, n);
    DistinctByName(s, Composed(a, b, false), n);
    NamesConcat(a, b, n);
  }

  /** Applying a composed delta is the same as applying both, and it mentions no name twice. */
  lemma ComposeCorrect(s: Properties, a: Delta, b: Delta)
    ensures Apply(s, Composed(a, b, false)) == Apply(Apply(s, a), b)
    ensures var r := Composed(a, b, false); forall i, j :: 0 <= i < j < |r| ==> r[i].name != r[j].name
    ensures Names(Composed(a, b, false)) == Names(a) + Names(b)
  {
    hide *;
    ComposedDistinct(a, b);
    var r, t := Apply(s, Composed(a, b, false)), Apply(Apply(s, a), b);
    forall n
      ensures (n in r <==> n in t) && (n in r ==> r[n] == t[n])
      ensures n in Names(Composed(a, b, false)) <==> n in Names(a) || n in Names(b)
    {
      ComposeByName(s, a, b, n);
    }
  }

  lemma ComposedDistinct(a: Delta, b: Delta)
    ensures var r := Composed(a, b, false); forall i, j :: 0 <= i < j < |r| ==> r[i].name != r[j].name
  {
    ValuesDistinct(a + b, false);
  }

  lemma {:induction false} DocumentFold(ops: Delta)
    ensures var m := Fold(ops, true);
      && m.vals.Keys == Contents(ops).Keys
      && forall n :: n in m.vals ==> m.vals[n] == Set(n, Contents(ops)[n])
  {
    if ops != [] { DocumentFold(ops[..|ops| - 1]); }
  }

  /** Composing onto a document always gives a document, for the properties that applying the delta gives. */
  lemma ComposeDocumentCorrect(doc: Delta, other: Delta)
    ensures IsDocument(Composed(doc, other, true))
    ensures Contents(Composed(doc, other, true)) == Apply(Contents(doc), other)
  {
    hide Fold;
    ValuesDistinct(doc + other, true);
    ApplyConcat(map[], doc, other);
    DocumentFold(doc + other);
    hide Apply;
    var r, t := Composed(doc, other, true), Contents(doc + other);
    forall n ensures n in Contents(r) <==> n in t
      ensures n in Contents(r) ==> Contents(r)[n] == t[n]
    {
      ComposedBinding(doc, other, n);
    }
  }

  lemma ComposedBinding(doc: Delta, other: Delta, n: string)
    ensures var r, t := Contents(Composed(doc, other, true)), Contents(doc + other);
      (n in r <==> n in t) && (n in r ==> r[n] == t[n])
  {
    hide Apply, Fold;
    var r := Composed(doc, other, true);
    ValuesDistinct(doc + other, true);
    DocumentFold(doc + other);
    DistinctByName(map[], r, n);
    if n in Names(r) { var i :| 0 <= i < |r| && r[i].name == n; }
  }
}
