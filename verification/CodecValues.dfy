/** The values that can be encoded. Plain objects are equal whatever the order of their keys. That is defined
    directly, and also by way of a normal form in which all keys are sorted; the two definitions are proved to
    agree. Sorting is by insertion here, which gives the same result as any other way, as keys are distinct. */
module CodecValues {

  /** A binding of a plain object. */
  datatype Entry = Entry(key: string, value: Value)

  datatype OtherKind = Undefined | Function | Symbol

  /** JavaScript values. Plain objects list their bindings in order; class instances are given by what their
      `deconstruct()` returns. Arrays with holes or extra properties, and objects with accessors or symbols, are
      not `regular`. */
  datatype Value =
    | Null
    | Bool(b: bool)
    | Num(n: int)
    | Str(s: string)
    | Arr(elems: seq<Value>, regular: bool)
    | Obj(entries: seq<Entry>, regular: bool)
    | Inst(cls: string, args: seq<Value>)
    | Other(kind: OtherKind)

  function Size(v: Value): nat {
    match v
    case Arr(es, _) => 1 + SizeAll(es)
    case Obj(es, _) => 1 + SizeEntries(es)
    case Inst(_, args) => 1 + SizeAll(args)
    case _ => 1
  }

  function SizeAll(vs: seq<Value>): nat {
    if vs == [] then 0 else 1 + Size(vs[0]) + SizeAll(vs[1..])
  }

  function SizeEntries(es: seq<Entry>): nat {
    if es == [] then 0 else 1 + Size(es[0].value) + SizeEntries(es[1..])
  }

  // ----- Sorting by key -----

  predicate Less(a: string, b: string) {
    b != [] && (a == [] || a[0] < b[0] || (a[0] == b[0] && Less(a[1..], b[1..])))
  }

  lemma {:induction false} LessTotal(a: string, b: string)
    ensures Less(a, b) || a == b || Less(b, a)
    ensures !Less(a, a)
    ensures !(Less(a, b) && Less(b, a))
  {
    if a != [] && b != [] {
      LessTotal(a[1..], b[1..]);
      if a[0] == b[0] && a[1..] == b[1..] {
        assert a == [a[0]] + a[1..] && b == [b[0]] + b[1..];
      }
    }
    if a != [] { LessTotal(a[1..], a[1..]); }
  }

  /** One key comes before another exactly if it is a proper prefix of it, or has the smaller character at the first
      place where they differ. */
  lemma {:induction false} LessExactly(a: string, b: string)
    ensures Less(a, b) <==>
      exists n :: 0 <= n <= |a| && n < |b| && a[..n] == b[..n] && (n == |a| || a[n] < b[n])
  {
    if a != [] && b != [] {
      LessExactly(a[1..], b[1..]);
      if Less(a[1..], b[1..]) && a[0] == b[0] {
        var x, y := a[1..], b[1..];
        var n :| 0 <= n <= |x| && n < |y| && x[..n] == y[..n] && (n == |x| || x[n] < y[n]);
        assert a[..n + 1] == [a[0]] + x[..n] && b[..n + 1] == [b[0]] + y[..n];
      }
      forall n | 0 < n <= |a| && n < |b| && a[..n] == b[..n] && (n == |a| || a[n] < b[n]) ensures Less(a, b) {
        assert a[0] == a[..n][0] && b[0] == b[..n][0];
        assert a[1..][..n - 1] == a[..n][1..] && b[1..][..n - 1] == b[..n][1..];
      }
      if a[0] < b[0] { assert a[..0] == b[..0]; }
    } else if b != [] {
      assert a[..0] == b[..0];
    }
  }

  lemma {:induction false} LessTransitive(a: string, b: string, c: string)
    requires Less(a, b) && Less(b, c)
    ensures Less(a, c)
  {
    if a != [] && a[0] == b[0] && b[0] == c[0] { LessTransitive(a[1..], b[1..], c[1..]); }
  }

  function Insert(e: Entry, es: seq<Entry>): (r: seq<Entry>)
    ensures SizeEntries(r) == 1 + Size(e.value) + SizeEntries(es)
  {
    if es == [] || Less(e.key, es[0].key) then [e] + es else [es[0]] + Insert(e, es[1..])
  }

  /** `Object.keys(value).sort()`, with the values that go with the keys. */
  function Sort(es: seq<Entry>): (r: seq<Entry>)
    ensures SizeEntries(r) == SizeEntries(es)
  {
    if es == [] then [] else Insert(es[0], Sort(es[1..]))
  }

  predicate DistinctKeys(es: seq<Entry>) {
    forall i, j :: 0 <= i < j < |es| ==> es[i].key != es[j].key
  }

  predicate Sorted(es: seq<Entry>) {
    forall i, j :: 0 <= i < j < |es| ==> Less(es[i].key, es[j].key)
  }

  lemma {:induction false} InsertSorted(e: Entry, es: seq<Entry>)
    requires Sorted(es) && forall x <- es :: x.key != e.key
    ensures Sorted(Insert(e, es))
    ensures forall x :: x in Insert(e, es) <==> x == e || x in es
  {
    if es == [] {
    } else if Less(e.key, es[0].key) {
      forall i | 1 <= i < |es| ensures Less(e.key, es[i].key) {
        LessTransitive(e.key, es[0].key, es[i].key);
      }
    } else {
      var rest := es[1..];
      assert es == [es[0]] + rest && es[0] in es;
      LessTotal(e.key, es[0].key);
      RestOfSorted(es);
      InsertSorted(e, rest);
    }
  }

  lemma {:induction false} SortSorted(es: seq<Entry>)
    requires DistinctKeys(es)
    ensures Sorted(Sort(es))
    ensures forall x :: x in Sort(es) <==> x in es
  {
    if es != [] {
      var rest := es[1..];
      assert es == [es[0]] + rest;
      assert forall i :: 0 <= i < |rest| ==> rest[i] == es[i + 1];
      SortSorted(rest);
      InsertSorted(es[0], Sort(rest));
    }
  }

  lemma FirstIn(es: seq<Entry>)
    ensures es == [] || es[0] in es
  {
  }

  /** A sorted list is determined by what is in it. */
  lemma {:induction false} SortedUnique(a: seq<Entry>, b: seq<Entry>)
    requires Sorted(a) && Sorted(b) && forall x :: x in a <==> x in b
    ensures a == b
  {
    if a == [] {
      FirstIn(b);
    } else {
      assert a[0] in a && b != [] && b[0] in b;
      LessTotal(a[0].key, b[0].key);
      RestOfSorted(a);
      RestOfSorted(b);
      SortedUnique(a[1..], b[1..]);
    }
  }

  lemma RestOfSorted(es: seq<Entry>)
    requires Sorted(es) && es != []
    ensures Sorted(es[1..])
    ensures forall x :: x in es[1..] <==> x in es && x != es[0]
    ensures forall x <- es[1..] :: Less(es[0].key, x.key)
  {
    assert es == [es[0]] + es[1..];
    forall x | x in es[1..] ensures x != es[0] && Less(es[0].key, x.key) {
      var i :| 0 <= i < |es[1..]| && es[1..][i] == x;
      assert Less(es[0].key, es[i + 1].key);
      LessTotal(es[0].key, x.key);
    }
  }

  // ----- Values up to key order -----

  /** The value with the keys of all plain objects sorted. */
  function Norm(v: Value): Value {
    match v
    case Arr(es, regular) => Arr(NormAll(es), regular)
    case Obj(es, regular) => Obj(Sort(NormEntries(es)), regular)
    case Inst(cls, args) => Inst(cls, NormAll(args))
    case _ => v
  }

  function NormAll(vs: seq<Value>): (r: seq<Value>)
    ensures |r| == |vs| && forall i :: 0 <= i < |vs| ==> r[i] == Norm(vs[i])
  {
    if vs == [] then [] else [Norm(vs[0])] + NormAll(vs[1..])
  }

  function NormEntries(es: seq<Entry>): (r: seq<Entry>)
    ensures |r| == |es| && forall i :: 0 <= i < |es| ==> r[i] == Entry(es[i].key, Norm(es[i].value))
  {
    if es == [] then [] else [Entry(es[0].key, Norm(es[0].value))] + NormEntries(es[1..])
  }

  /** No plain object binds a key twice; there is no such object in JavaScript. */
  predicate WellFormed(v: Value) {
    match v
    case Arr(es, _) => forall i :: 0 <= i < |es| ==> WellFormed(es[i])
    case Obj(es, _) => DistinctKeys(es) && forall i :: 0 <= i < |es| ==> WellFormed(es[i].value)
    case Inst(_, args) => forall i :: 0 <= i < |args| ==> WellFormed(args[i])
    case _ => true
  }

  /** Equality of values, in which the order of keys does not matter. */
  predicate Same(v: Value, w: Value) {
    match v
    case Arr(es, regular) => w.Arr? && w.regular == regular && SameAll(es, w.elems)
    case Obj(es, regular) =>
      w.Obj? && w.regular == regular && SameEntries(es, w.entries)
    case Inst(cls, args) => w.Inst? && w.cls == cls && SameAll(args, w.args)
    case _ => v == w
  }

  predicate SameAll(vs: seq<Value>, ws: seq<Value>) {
    |vs| == |ws| && forall i :: 0 <= i < |vs| ==> Same(vs[i], ws[i])
  }

  predicate HasSame(e: Entry, fs: seq<Entry>) {
    exists j :: 0 <= j < |fs| && fs[j].key == e.key && Same(e.value, fs[j].value)
  }

  predicate HasKey(es: seq<Entry>, key: string) {
    exists i :: 0 <= i < |es| && es[i].key == key
  }

  /** Each binding has its counterpart. */
  predicate SameEntries(es: seq<Entry>, fs: seq<Entry>) {
    && (forall i :: 0 <= i < |es| ==> HasSame(es[i], fs))
    && (forall j :: 0 <= j < |fs| ==> HasKey(es, fs[j].key))
  }

  lemma {:induction false} NormIsSame(v: Value, w: Value)
    requires WellFormed(v) && WellFormed(w)
    ensures Same(v, w) <==> Norm(v) == Norm(w)
    decreases v
  {
    match v
    case Arr(es, _) => if w.Arr? { NormAllIsSame(es, w.elems); }
    case Inst(_, args) => if w.Inst? { NormAllIsSame(args, w.args); }
    case Obj(es, regular) =>
      if w.Obj? && w.regular == regular {
        forall i, j | 0 <= i < |es| && 0 <= j < |w.entries| ensures AgreeOn(es[i].value, w.entries[j].value) {
          NormIsSame(es[i].value, w.entries[j].value);
        }
        NormObjIsSame(es, w.entries);
      }
    case _ =>
  }

  lemma {:induction false} NormAllIsSame(vs: seq<Value>, ws: seq<Value>)
    requires forall i :: 0 <= i < |vs| ==> WellFormed(vs[i])
    requires forall i :: 0 <= i < |ws| ==> WellFormed(ws[i])
    ensures SameAll(vs, ws) <==> NormAll(vs) == NormAll(ws)
    decreases vs
  {
    if |vs| == |ws| {
      forall i | 0 <= i < |vs| ensures Same(vs[i], ws[i]) <==> NormAll(vs)[i] == NormAll(ws)[i] {
        NormIsSame(vs[i], ws[i]);
      }
    }
  }

  /** Whether equal values have equal normal forms, for two lists of bindings. */
  ghost predicate Agree(es: seq<Entry>, fs: seq<Entry>) {
    forall i, j :: 0 <= i < |es| && 0 <= j < |fs| ==> AgreeOn(es[i].value, fs[j].value)
  }

  ghost predicate AgreeOn(v: Value, w: Value) {
    Same(v, w) <==> Norm(v) == Norm(w)
  }

  lemma SameEntriesNorm(es: seq<Entry>, fs: seq<Entry>, j: nat)
    requires DistinctKeys(fs) && Agree(es, fs) && SameEntries(es, fs) && j < |fs|
    ensures NormEntries(fs)[j] in NormEntries(es)
  {
    var a, b := NormEntries(es), NormEntries(fs);
    assert HasKey(es, fs[j].key);
    var i :| 0 <= i < |es| && es[i].key == fs[j].key;
    assert HasSame(es[i], fs);
    var k :| 0 <= k < |b| && b[k] == a[i];
    assert fs[k].key == fs[j].key;
    assert k == j;
  }

  lemma SameEntriesSort(es: seq<Entry>, fs: seq<Entry>)
    requires DistinctKeys(es) && DistinctKeys(fs) && Agree(es, fs) && SameEntries(es, fs)
    ensures Sort(NormEntries(es)) == Sort(NormEntries(fs))
  {
    var a, b := NormEntries(es), NormEntries(fs);
    forall i | 0 <= i < |es| ensures a[i] in b { }
    forall j | 0 <= j < |fs| ensures b[j] in a { SameEntriesNorm(es, fs, j); }
    hide Norm, NormEntries, Sort, Same, Agree, SameEntries;
    SortSorted(a);
    SortSorted(b);
    assert forall x | x in a :: x in b;
    assert forall x | x in b :: x in a;
    SortedUnique(Sort(a), Sort(b));
  }

  /** A binding whose normal form is among the others' normal forms has a counterpart. */
  lemma NormHasSame(es: seq<Entry>, fs: seq<Entry>, i: nat)
    requires Agree(es, fs) && i < |es| && NormEntries(es)[i] in NormEntries(fs)
    ensures HasSame(es[i], fs)
  {
    var j :| 0 <= j < |fs| && NormEntries(fs)[j] == NormEntries(es)[i];
    assert AgreeOn(es[i].value, fs[j].value);
  }

  lemma SortSameEntries(es: seq<Entry>, fs: seq<Entry>)
    requires DistinctKeys(es) && DistinctKeys(fs) && Agree(es, fs) && Sort(NormEntries(es)) == Sort(NormEntries(fs))
    ensures SameEntries(es, fs)
  {
    var a, b := NormEntries(es), NormEntries(fs);
    SortSorted(a);
    SortSorted(b);
    hide Norm, Sort, Same, DistinctKeys, Sorted;
    forall i | 0 <= i < |es| ensures HasSame(es[i], fs) {
      assert a[i] in Sort(a);
      assert a[i] in b;
      hide NormEntries;
      NormHasSame(es, fs, i);
    }
    forall j | 0 <= j < |fs| ensures HasKey(es, fs[j].key) {
      assert b[j] in Sort(b);
    }
  }

  lemma NormObjIsSame(es: seq<Entry>, fs: seq<Entry>)
    requires DistinctKeys(es) && DistinctKeys(fs) && Agree(es, fs)
    ensures SameEntries(es, fs) <==> Sort(NormEntries(es)) == Sort(NormEntries(fs))
  {
    if SameEntries(es, fs) { SameEntriesSort(es, fs); }
    if Sort(NormEntries(es)) == Sort(NormEntries(fs)) { SortSameEntries(es, fs); }
  }
}
