/** Which values can be encoded at all, for a registry to which some classes have been registered on top of the
    special codecs: exactly those made of scalars, regular arrays, plain objects and instances of these classes. And
    one kind of value that can be encoded, but does not come back. */
module CodecCoverage {
  import opened Wrappers
  import opened CodecValues
  import opened CodecRegistry
  import opened Codec

  /** Values made of scalars, regular arrays, plain objects and instances of the given classes, to any depth. */
  predicate Codable(classes: set<string>, v: Value) {
    match v
    case Arr(es, regular) => regular && forall i :: 0 <= i < |es| ==> Codable(classes, es[i])
    case Obj(es, regular) => regular && forall i :: 0 <= i < |es| ==> Codable(classes, es[i].value)
    case Inst(cls, args) => cls in classes && forall i :: 0 <= i < |args| ==> Codable(classes, args[i])
    case Other(_) => false
    case _ => true
  }

  predicate CodableEntries(classes: set<string>, es: seq<Entry>) {
    forall i :: 0 <= i < |es| ==> Codable(classes, es[i].value)
  }

  predicate DistinctKinds(codecs: seq<ItemCodec>) {
    forall i, j :: 0 <= i < j < |codecs| ==> codecs[i].kind != codecs[j].kind
  }

  /** The special codecs, and one for each registered class, under a label. */
  ghost predicate Plain(classes: seq<ItemCodec>) {
    && (forall c <- classes :: c.kind.OfClass? && c.accepts.None? && IsLabel(c.tag))
    && DistinctKinds(Specials() + classes)
  }

  ghost function ClassNames(classes: seq<ItemCodec>): set<string> {
    {"FrozenBuffer", "Functor"} + set c <- classes | c.kind.OfClass? :: c.kind.cls
  }

  /** Where kinds are different, exactly the codec of a kind is listed for it. */
  lemma {:induction false} ListedAlone(codecs: seq<ItemCodec>, kind: Kind)
    requires DistinctKinds(codecs)
    ensures forall i :: 0 <= i < |codecs| && codecs[i].kind == kind ==> Listed(Registered(codecs), kind) == [codecs[i]]
    ensures (forall i :: 0 <= i < |codecs| ==> codecs[i].kind != kind) ==> Listed(Registered(codecs), kind) == []
  {
    if codecs != [] {
      var n := |codecs| - 1;
      var front := codecs[..n];
      assert forall i :: 0 <= i < n ==> front[i] == codecs[i];
      hide Listed, WithCodec;
      ListedAlone(front, kind);
      WithCodecListed(Registered(front), codecs[n], kind);
    }
  }

  lemma OnlyApplicable(c: ItemCodec, v: Value)
    ensures Applicable([c], v) == if c.CanEncode(v) then [c] else []
  {
    assert [c][..0] == [] && Applicable([c][..0], v) == [];
  }

  lemma ListedAt(codecs: seq<ItemCodec>, i: nat)
    requires DistinctKinds(codecs) && i < |codecs|
    ensures Listed(Registered(codecs), codecs[i].kind) == [codecs[i]]
  {
    ListedAlone(codecs, codecs[i].kind);
  }

  lemma FoundAlone(codecs: seq<ItemCodec>, i: nat, v: Value)
    requires DistinctKinds(codecs) && i < |codecs| && codecs[i].kind == KindOf(v)
    ensures CodecForValue(Registered(codecs), v) ==
      if codecs[i].CanEncode(v) then Ok(codecs[i]) else Err(NoApplicableCodec)
  {
    ListedAt(codecs, i);
    OnlyApplicable(codecs[i], v);
  }

  lemma PrefixColon(tag: string)
    requires TYPE_PREFIX <= tag
    ensures |tag| > 4 && tag[4] == ':'
  {
  }

  lemma LabelHasNoType(tag: string)
    requires IsLabel(tag)
    ensures TypeFromTag(tag).None?
  {
    if TYPE_PREFIX <= tag { PrefixColon(tag); }
  }

  /** The place of the special codec for a type. */
  function PlaceOf(v: Value): nat
    requires !v.Inst? && !v.Other?
  {
    match v
    case Arr(_, _) => 0
    case Obj(_, _) => 3
    case Bool(_) => 4
    case Null => 5
    case Num(_) => 6
    case Str(_) => 7
  }

  /** The codec for the outermost level of a value, if it has one. */
  lemma FoundExactly(classes: seq<ItemCodec>, v: Value)
    requires Plain(classes)
    ensures var t := Registered(Specials() + classes);
      CodecForValue(t, v).Ok? <==>
        !v.Other? && (v.Arr? ==> v.regular) && (v.Obj? ==> v.regular) && (v.Inst? ==> v.cls in ClassNames(classes))
    ensures var t := Registered(Specials() + classes);
      CodecForValue(t, v).Ok? ==>
        var tag := CodecForValue(t, v).value.tag;
        if v.Inst? || v.Obj? then IsLabel(tag) else tag == TagFromType(KindOf(v).name)
  {
    var all := Specials() + classes;
    assert IsLabel("object");
    if v.Inst? {
      InstFound(classes, v);
    } else if v.Other? {
      OtherNotFound(classes, v);
    } else {
      hide Specials, Registered, IsLabel, TagFromType;
      FoundAlone(all, PlaceOf(v), v);
    }
  }

  /** Where in the list the codec of a class is, if anywhere. */
  lemma ClassListed(classes: seq<ItemCodec>, cls: string)
    requires Plain(classes)
    ensures cls in ClassNames(classes) <==>
      exists i :: 0 <= i < |Specials() + classes| && (Specials() + classes)[i].kind == OfClass(cls)
  {
    var all := Specials() + classes;
    if cls in ClassNames(classes) {
      if cls == "FrozenBuffer" {
        assert all[1].kind == OfClass(cls);
      } else if cls == "Functor" {
        assert all[2].kind == OfClass(cls);
      } else {
        var c :| c in classes && c.kind == OfClass(cls);
        var k :| 0 <= k < |classes| && classes[k] == c;
        assert all[8 + k].kind == OfClass(cls);
      }
    }
    if i :| 0 <= i < |all| && all[i].kind == OfClass(cls) {
      if i >= 8 { assert all[i] == classes[i - 8] && classes[i - 8] in classes; }
    }
  }

  lemma ClassCodec(classes: seq<ItemCodec>, i: nat)
    requires Plain(classes) && i < |Specials() + classes| && (Specials() + classes)[i].kind.OfClass?
    ensures var c := (Specials() + classes)[i]; IsLabel(c.tag) && c.accepts.None?
  {
    var all := Specials() + classes;
    if i >= 8 { assert all[i] == classes[i - 8] && classes[i - 8] in classes; }
  }

  lemma InstFound(classes: seq<ItemCodec>, v: Value)
    requires Plain(classes) && v.Inst?
    ensures CodecForValue(Registered(Specials() + classes), v).Ok? <==> v.cls in ClassNames(classes)
    ensures CodecForValue(Registered(Specials() + classes), v).Ok? ==>
      IsLabel(CodecForValue(Registered(Specials() + classes), v).value.tag)
  {
    var all := Specials() + classes;
    ClassListed(classes, v.cls);
    hide Specials, Registered, ClassNames, IsLabel;
    if i :| 0 <= i < |all| && all[i].kind == KindOf(v) {
      ClassCodec(classes, i);
      FoundAlone(all, i, v);
    } else {
      ListedAlone(all, KindOf(v));
    }
  }

  lemma OtherNotFound(classes: seq<ItemCodec>, v: Value)
    requires Plain(classes) && v.Other?
    ensures CodecForValue(Registered(Specials() + classes), v).Err?
  {
    var all := Specials() + classes;
    forall i | 0 <= i < |all| ensures all[i].kind != KindOf(v) {
      if i < 8 {
        assert all[i] == Specials()[i];
      } else {
        assert all[i] == classes[i - 8] && classes[i - 8] in classes;
      }
    }
    ListedAlone(all, KindOf(v));
  }

  /** Exactly the codable values can be encoded; for each level of such a value there is exactly one codec. */
  lemma {:induction false} EncodableExactly(classes: seq<ItemCodec>, v: Value)
    requires Plain(classes)
    ensures Encode(Registered(Specials() + classes), v).Ok? <==> Codable(ClassNames(classes), v)
    decreases Size(v)
  {
    var t := Registered(Specials() + classes);
    FoundExactly(classes, v);
    hide Registered, Specials, CodecForValue, IsLabel, Sort, Plain, Wrap;
    match v {
      case Arr(es, _) => EncodableAll(classes, es);
      case Inst(_, args) => EncodableAll(classes, args);
      case Obj(es, _) =>
        SortedCodable(ClassNames(classes), es);
        EncodableEntries(classes, Sort(es));
      case _ =>
    }
    if CodecForValue(t, v).Ok? && EncodeRaw(t, v).Ok? { WrapOk(t, v); }
  }

  /** The result of encoding the parts always suits the codec. */
  lemma WrapOk(t: Tables, v: Value)
    requires CodecForValue(t, v).Ok? && EncodeRaw(t, v).Ok?
    requires var tag := CodecForValue(t, v).value.tag;
      if v.Inst? || v.Obj? then IsLabel(tag) else !v.Other? && tag == TagFromType(KindOf(v).name)
    ensures Wrap(CodecForValue(t, v).value, EncodeRaw(t, v).value).Ok?
  {
    var tag := CodecForValue(t, v).value.tag;
    hide CodecForValue, EncodeAll, EncodeEntries, TagFromType;
    if v.Inst? || v.Obj? { LabelHasNoType(tag); }
  }

  lemma {:induction false} EncodableAll(classes: seq<ItemCodec>, vs: seq<Value>)
    requires Plain(classes)
    ensures EncodeAll(Registered(Specials() + classes), vs).Ok? <==>
      forall i :: 0 <= i < |vs| ==> Codable(ClassNames(classes), vs[i])
    decreases SizeAll(vs)
  {
    if vs != [] {
      EncodableExactly(classes, vs[0]);
      EncodableAll(classes, vs[1..]);
      assert forall i :: 0 < i < |vs| ==> vs[i] == vs[1..][i - 1];
    }
  }

  lemma {:induction false} EncodableEntries(classes: seq<ItemCodec>, es: seq<Entry>)
    requires Plain(classes)
    ensures EncodeEntries(Registered(Specials() + classes), es).Ok? <==> CodableEntries(ClassNames(classes), es)
    decreases SizeEntries(es)
  {
    if es != [] {
      EncodableExactly(classes, es[0].value);
      EncodableEntries(classes, es[1..]);
      assert forall i :: 0 < i < |es| ==> es[i] == es[1..][i - 1];
    }
  }

  lemma {:induction false} InsertedIn(e: Entry, es: seq<Entry>)
    ensures forall x :: x in Insert(e, es) <==> x == e || x in es
  {
    if es != [] && !Less(e.key, es[0].key) {
      InsertedIn(e, es[1..]);
      assert es == [es[0]] + es[1..];
    }
  }

  lemma {:induction false} SortedIn(es: seq<Entry>)
    ensures forall x :: x in Sort(es) <==> x in es
  {
    if es != [] {
      SortedIn(es[1..]);
      InsertedIn(es[0], Sort(es[1..]));
      assert es == [es[0]] + es[1..];
    }
  }

  lemma SortedCodable(classes: set<string>, es: seq<Entry>)
    ensures CodableEntries(classes, Sort(es)) <==> CodableEntries(classes, es)
  {
    SortedIn(es);
    if CodableEntries(classes, es) {
      forall i | 0 <= i < |Sort(es)| ensures Codable(classes, Sort(es)[i].value) { assert Sort(es)[i] in es; }
    }
    if CodableEntries(classes, Sort(es)) {
      forall i | 0 <= i < |es| ensures Codable(classes, es[i].value) { assert es[i] in Sort(es); }
    }
  }

  // ----- A value that does not come back -----

  lemma SpecialKinds()
    ensures DistinctKinds(Specials()) && |Specials()| == 8
  {
  }

  lemma SpecialFor(i: nat, v: Value)
    requires i < 8 && Specials()[i].CanEncode(v)
    ensures var t, c := Registered(Specials()), Specials()[i];
      CodecForValue(t, v) == Ok(c) && c.tag in t.tagToCodec && t.tagToCodec[c.tag] == c
  {
    SpecialsDistinct();
    SpecialKinds();
    hide Specials, DistinctKinds, Registered, CodecForValue;
    RegisteredOk(Specials());
    FoundAlone(Specials(), i, v);
    FoundForValue(Registered(Specials()), v);
  }

  lemma OneEntry(t: Tables, e: Entry)
    ensures Sort([e]) == [e]
    ensures EncodeEntries(t, [e]) ==
      match Encode(t, e.value) case Err(x) => Err(x) case Ok(p) => Ok([PArr([PStr(e.key), p])])
  {
    assert [e][1..] == [] && Sort([e][1..]) == [] && EncodeEntries(t, [e][1..]) == Ok([]);
    if Encode(t, e.value).Ok? {
      var pair := PArr([PStr(e.key), Encode(t, e.value).value]);
      assert [pair] + [] == [pair];
    }
  }

  lemma NumberCodes(n: int)
    ensures Encode(Registered(Specials()), Num(n)) == Ok(PNum(n))
    ensures Decode(Registered(Specials()), PNum(n)) == Ok(Num(n))
  {
    SpecialFor(6, Num(n));
  }

  lemma ObjectCodec()
    ensures var c := Specials()[3];
      && c.tag == "object" && c.kind == OfType("object") && TypeFromTag(c.tag).None? && IsLabel(c.tag)
      && forall es :: c.CanEncode(Obj(es, true))
  {
    LabelHasNoType("object");
  }

  lemma ProtoEncoded(n: int)
    ensures Encode(Registered(Specials()), Obj([Entry(PROTO, Num(n))], true)) ==
      Ok(PCall("object", [PArr([PStr(PROTO), PNum(n)])]))
  {
    var t, e := Registered(Specials()), Entry(PROTO, Num(n));
    NumberCodes(n);
    OneEntry(t, e);
    ObjectCodec();
    SpecialFor(3, Obj([e], true));
    hide Registered, Specials, Sort, EncodeEntries, CodecForValue, TypeFromTag, IsLabel;
    var raw := PArr([PArr([PStr(PROTO), PNum(n)])]);
    assert EncodeRaw(t, Obj([e], true)) == Ok(raw);
    assert Wrap(Specials()[3], raw) == Ok(PCall("object", raw.elems));
  }

  lemma ProtoDecoded(n: int)
    ensures Decode(Registered(Specials()), PCall("object", [PArr([PStr(PROTO), PNum(n)])])) == Ok(Obj([], true))
  {
    var t, pair := Registered(Specials()), PArr([PStr(PROTO), PNum(n)]);
    NumberCodes(n);
    ObjectCodec();
    SpecialFor(3, Obj([], true));
    hide Registered, Specials, CodecForValue, TypeFromTag, IsLabel;
    assert PairOf(pair) == Some((PROTO, PNum(n)));
    assert [pair][1..] == [] && DecodePairs(t, [], []) == Ok([]);
    assert DecodePairs(t, [pair], []) == Ok([]);
    var p := PCall("object", [pair]);
    assert CodecForPayload(t, p) == Ok(Specials()[3]);
    assert DecodeRaw(t, p, OfType("object")) == Ok(Obj([], true));
    assert Specials()[3].CanEncode(Obj([], true));
  }

  /** A scalar bound to the key `__proto__` is lost without any error: the object comes back without it. */
  lemma ProtoLost(n: int)
    ensures var t, v := Registered(Specials()), Obj([Entry(PROTO, Num(n))], true);
      Encode(t, v).Ok? && Decode(t, Encode(t, v).value) == Ok(Obj([], true))
  {
    ProtoEncoded(n);
    ProtoDecoded(n);
  }
}
