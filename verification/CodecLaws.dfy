/** The laws of encoding: what is encoded can be decoded, and equal values have equal encodings. */
module CodecLaws {
  import opened Wrappers
  import opened CodecValues
  import opened CodecRegistry
  import opened Codec

  // ----- What is supposed of a registry -----

  /** The predicates of the codecs do not look at the order of keys, and accept only regular arrays and objects. */
  ghost predicate Sound(c: ItemCodec) {
    forall v :: (c.CanEncode(v) <==> c.CanEncode(Norm(v))) && (c.CanEncode(v) ==> Regular(v))
  }

  predicate Regular(v: Value) {
    (v.Arr? || v.Obj?) ==> v.regular
  }

  ghost predicate Good(t: Tables) {
    TablesOk(t) && forall tag :: tag in t.tagToCodec ==> Sound(t.tagToCodec[tag])
  }

  lemma SpecialsSound()
    ensures forall c <- Specials() :: Sound(c)
  {
    forall c <- Specials() ensures Sound(c) {
      forall v ensures (c.CanEncode(v) <==> c.CanEncode(Norm(v))) && (c.CanEncode(v) ==> Regular(v)) { }
    }
  }

  /** A registry to which classes have been registered, on top of the special codecs, is good: whatever their
      tags, as long as they are different, and whatever their predicates, as long as these ignore key order. */
  lemma RegistryGood(classes: seq<ItemCodec>)
    requires DistinctTags(Specials() + classes)
    requires forall c <- classes :: c.kind.OfClass? && Sound(c)
    ensures Good(Registered(Specials() + classes))
  {
    SpecialsSound();
    RegisteredOk(Specials() + classes);
    RegisteredSound(Specials() + classes);
  }

  lemma {:induction false} RegisteredSound(codecs: seq<ItemCodec>)
    requires forall c <- codecs :: Sound(c)
    ensures forall tag :: tag in Registered(codecs).tagToCodec ==> Sound(Registered(codecs).tagToCodec[tag])
  {
    if codecs != [] {
      var front := codecs[..|codecs| - 1];
      assert forall c <- front :: c in codecs;
      RegisteredSound(front);
      assert codecs[|codecs| - 1] in codecs;
    }
  }

  // ----- Tags -----

  /** A payload without its tag. */
  function RawOf(p: Payload): Payload {
    if p.PCall? then PArr(p.args) else p
  }

  lemma WrapKeepsTag(c: ItemCodec, raw: Payload)
    requires Wrap(c, raw).Ok? && !raw.PCall? && !raw.PObject?
    ensures TagFromPayload(Wrap(c, raw).value) == Some(c.tag)
    ensures RawOf(Wrap(c, raw).value) == raw
  {
    match TypeFromTag(c.tag)
    case Some(name) => assert c.tag == TYPE_PREFIX + name;
    case None =>
  }

  /** The tag of an encoded value selects the very codec that was found for the value. */
  lemma TagSelects(t: Tables, v: Value)
    requires TablesOk(t) && Encode(t, v).Ok?
    ensures CodecForPayload(t, Encode(t, v).value) == CodecForValue(t, v)
    ensures EncodeRaw(t, v) == Ok(RawOf(Encode(t, v).value))
    ensures CodecForValue(t, v).Ok? && CodecForValue(t, v).value.CanEncode(v)
    ensures CodecForValue(t, v).value.tag in t.tagToCodec
    ensures t.tagToCodec[CodecForValue(t, v).value.tag] == CodecForValue(t, v).value
  {
    FoundForValue(t, v);
    WrapKeepsTag(CodecForValue(t, v).value, EncodeRaw(t, v).value);
  }

  // ----- Sorting and normal forms -----

  lemma {:induction false} InsertNorm(e: Entry, es: seq<Entry>)
    ensures NormEntries(Insert(e, es)) == Insert(Entry(e.key, Norm(e.value)), NormEntries(es))
  {
    if es == [] || Less(e.key, es[0].key) {
      assert ([e] + es)[1..] == es;
    } else {
      InsertNorm(e, es[1..]);
      assert ([es[0]] + Insert(e, es[1..]))[1..] == Insert(e, es[1..]);
    }
  }

  lemma {:induction false} SortNorm(es: seq<Entry>)
    ensures NormEntries(Sort(es)) == Sort(NormEntries(es))
  {
    if es != [] {
      SortNorm(es[1..]);
      InsertNorm(es[0], Sort(es[1..]));
    }
  }

  lemma SortAgain(es: seq<Entry>)
    requires DistinctKeys(es)
    ensures Sort(Sort(es)) == Sort(es)
  {
    SortSorted(es);
    SortedDistinct(Sort(es));
    SortSorted(Sort(es));
    SortedUnique(Sort(Sort(es)), Sort(es));
  }

  lemma SortedDistinct(es: seq<Entry>)
    requires Sorted(es)
    ensures DistinctKeys(es)
  {
    forall i, j | 0 <= i < j < |es| ensures es[i].key != es[j].key {
      LessTotal(es[i].key, es[j].key);
    }
  }

  // ----- Decoding undoes encoding -----

  /** No plain object, at any depth, binds the key `__proto__`. */
  predicate NoProto(v: Value) {
    match v
    case Arr(es, _) => forall i :: 0 <= i < |es| ==> NoProto(es[i])
    case Obj(es, _) => NoProtoEntries(es)
    case Inst(_, args) => forall i :: 0 <= i < |args| ==> NoProto(args[i])
    case _ => true
  }

  predicate NoProtoEntries(es: seq<Entry>) {
    forall i :: 0 <= i < |es| ==> es[i].key != PROTO && NoProto(es[i].value)
  }

  predicate GoodEntries(es: seq<Entry>) {
    DistinctKeys(es) && forall i :: 0 <= i < |es| ==> WellFormed(es[i].value)
  }

  lemma SortKeeps(es: seq<Entry>)
    requires GoodEntries(es)
    ensures GoodEntries(Sort(es))
    ensures NoProtoEntries(Sort(es)) <==> NoProtoEntries(es)
  {
    SortSorted(es);
    SortedDistinct(Sort(es));
    forall i | 0 <= i < |Sort(es)| ensures WellFormed(Sort(es)[i].value) {
      assert Sort(es)[i] in es;
    }
    if NoProtoEntries(es) {
      forall i | 0 <= i < |Sort(es)| ensures Sort(es)[i].key != PROTO && NoProto(Sort(es)[i].value) {
        assert Sort(es)[i] in es;
      }
    }
    if NoProtoEntries(Sort(es)) {
      forall i | 0 <= i < |es| ensures es[i].key != PROTO && NoProto(es[i].value) {
        assert es[i] in Sort(es);
      }
    }
  }

  lemma {:induction false} RoundTrip(t: Tables, v: Value)
    requires Good(t) && WellFormed(v) && NoProto(v) && Encode(t, v).Ok?
    ensures Decode(t, Encode(t, v).value) == Ok(Norm(v))
    decreases Size(v)
  {
    TagSelects(t, v);
    var c := CodecForValue(t, v).value;
    assert Sound(c) && Regular(v);
    match v {
      case Arr(es, _) => RoundTripAll(t, es);
      case Inst(_, args) => RoundTripAll(t, args);
      case Obj(es, _) =>
        SortKeeps(es);
        RoundTripPairs(t, Sort(es), []);
        assert [] + NormEntries(Sort(es)) == NormEntries(Sort(es));
        SortNorm(es);
      case _ =>
    }
    RawDecodes(t, v, c);
    assert c.CanEncode(Norm(v));
  }

  /** Decoding the parts gives the normal form of the whole. */
  lemma RawDecodes(t: Tables, v: Value, c: ItemCodec)
    requires Encode(t, v).Ok? && EncodeRaw(t, v) == Ok(RawOf(Encode(t, v).value)) && c.kind == KindOf(v) && Regular(v)
    requires v.Arr? && EncodeAll(t, v.elems).Ok? ==> DecodeAll(t, EncodeAll(t, v.elems).value) == Ok(NormAll(v.elems))
    requires v.Inst? && EncodeAll(t, v.args).Ok? ==> DecodeAll(t, EncodeAll(t, v.args).value) == Ok(NormAll(v.args))
    requires v.Obj? && EncodeEntries(t, Sort(v.entries)).Ok? ==>
      DecodePairs(t, EncodeEntries(t, Sort(v.entries)).value, []) == Ok(Sort(NormEntries(v.entries)))
    ensures DecodeRaw(t, Encode(t, v).value, c.kind) == Ok(Norm(v))
  {
  }

  lemma {:induction false} RoundTripAll(t: Tables, vs: seq<Value>)
    requires Good(t) && EncodeAll(t, vs).Ok?
    requires forall i :: 0 <= i < |vs| ==> WellFormed(vs[i]) && NoProto(vs[i])
    ensures DecodeAll(t, EncodeAll(t, vs).value) == Ok(NormAll(vs))
    decreases SizeAll(vs)
  {
    if vs != [] {
      RoundTrip(t, vs[0]);
      RoundTripAll(t, vs[1..]);
      var p, ps := Encode(t, vs[0]).value, EncodeAll(t, vs[1..]).value;
      assert ([p] + ps)[1..] == ps;
    }
  }

  lemma {:induction false} SetNewKey(es: seq<Entry>, key: string, value: Value)
    requires forall i :: 0 <= i < |es| ==> es[i].key != key
    ensures SetKey(es, key, value) == es + [Entry(key, value)]
  {
    if es != [] {
      SetNewKey(es[1..], key, value);
      assert es == [es[0]] + es[1..];
    }
  }

  predicate NoKeyShared(result: seq<Entry>, es: seq<Entry>) {
    forall i, j :: 0 <= i < |result| && 0 <= j < |es| ==> result[i].key != es[j].key
  }

  lemma NextPair(es: seq<Entry>, result: seq<Entry>, value: Value)
    requires es != [] && GoodEntries(es) && NoProtoEntries(es) && NoKeyShared(result, es)
    ensures GoodEntries(es[1..]) && NoProtoEntries(es[1..]) && NoKeyShared(result + [Entry(es[0].key, value)], es[1..])
  {
    var rest, next := es[1..], result + [Entry(es[0].key, value)];
    assert forall j :: 0 <= j < |rest| ==> rest[j] == es[j + 1];
    forall i, j | 0 <= i < |next| && 0 <= j < |rest| ensures next[i].key != rest[j].key {
      if i < |result| { assert result[i].key != es[j + 1].key; } else { assert es[0].key != es[j + 1].key; }
    }
  }

  /** The pairs are assigned one after the other, each to a new key. */
  lemma {:induction false} RoundTripPairs(t: Tables, es: seq<Entry>, result: seq<Entry>)
    requires Good(t) && EncodeEntries(t, es).Ok? && GoodEntries(es) && NoProtoEntries(es)
    requires NoKeyShared(result, es)
    ensures DecodePairs(t, EncodeEntries(t, es).value, result) == Ok(result + NormEntries(es))
    decreases SizeEntries(es)
  {
    if es == [] {
      assert result + NormEntries(es) == result;
    } else {
      var value := es[0].value;
      var next := result + [Entry(es[0].key, Norm(value))];
      assert Encode(t, value).Ok? && EncodeEntries(t, es[1..]).Ok?;
      RoundTrip(t, value);
      NextPair(es, result, Norm(value));
      RoundTripPairs(t, es[1..], next);
      AssignPair(t, es, result);
      NormCons(es, result);
    }
  }

  lemma NormCons(es: seq<Entry>, result: seq<Entry>)
    requires es != []
    ensures (result + [Entry(es[0].key, Norm(es[0].value))]) + NormEntries(es[1..]) == result + NormEntries(es)
  {
  }

  lemma AssignPair(t: Tables, es: seq<Entry>, result: seq<Entry>)
    requires es != [] && EncodeEntries(t, es).Ok? && es[0].key != PROTO
    requires Decode(t, Encode(t, es[0].value).value) == Ok(Norm(es[0].value))
    requires NoKeyShared(result, es)
    ensures EncodeEntries(t, es[1..]).Ok?
    ensures DecodePairs(t, EncodeEntries(t, es).value, result) ==
      DecodePairs(t, EncodeEntries(t, es[1..]).value, result + [Entry(es[0].key, Norm(es[0].value))])
  {
    var pair, ps := PArr([PStr(es[0].key), Encode(t, es[0].value).value]), EncodeEntries(t, es[1..]).value;
    assert EncodeEntries(t, es).value == [pair] + ps && ([pair] + ps)[1..] == ps;
    SetNewKey(result, es[0].key, Norm(es[0].value));
  }

  // ----- Where it does not -----

  lemma {:induction false} SetKeyNoProto(es: seq<Entry>, key: string, value: Value)
    requires NoProtoEntries(es) && key != PROTO && NoProto(value)
    ensures NoProtoEntries(SetKey(es, key, value))
  {
    if es != [] && es[0].key != key { SetKeyNoProto(es[1..], key, value); }
  }

  /** No decoded value binds the key `__proto__`, whatever the payload. */
  lemma {:induction false} DecodedNoProto(t: Tables, p: Payload)
    requires Decode(t, p).Ok?
    ensures NoProto(Decode(t, p).value)
    decreases PSize(p)
  {
    var kind := CodecForPayload(t, p).value.kind;
    match p
    case PArr(ps) => DecodedArgsNoProto(t, ps, kind);
    case PCall(_, ps) => DecodedArgsNoProto(t, ps, kind);
    case _ =>
  }

  lemma {:induction false} DecodedArgsNoProto(t: Tables, ps: seq<Payload>, kind: Kind)
    requires DecodeArgs(t, ps, kind).Ok?
    ensures NoProto(DecodeArgs(t, ps, kind).value)
    decreases PSizeAll(ps), 1
  {
    if kind == OfType("object") {
      DecodedPairsNoProto(t, ps, []);
    } else {
      DecodedAllNoProto(t, ps);
    }
  }

  lemma {:induction false} DecodedAllNoProto(t: Tables, ps: seq<Payload>)
    requires DecodeAll(t, ps).Ok?
    ensures forall i :: 0 <= i < |DecodeAll(t, ps).value| ==> NoProto(DecodeAll(t, ps).value[i])
    decreases PSizeAll(ps), 0
  {
    if ps != [] {
      DecodedNoProto(t, ps[0]);
      DecodedAllNoProto(t, ps[1..]);
    }
  }

  lemma {:induction false} DecodedPairsNoProto(t: Tables, ps: seq<Payload>, result: seq<Entry>)
    requires DecodePairs(t, ps, result).Ok? && NoProtoEntries(result)
    ensures NoProtoEntries(DecodePairs(t, ps, result).value)
    decreases PSizeAll(ps), 0
  {
    if ps != [] {
      var (key, p) := PairOf(ps[0]).value;
      DecodedNoProto(t, p);
      var v := Decode(t, p).value;
      if key != PROTO { SetKeyNoProto(result, key, v); }
      DecodedPairsNoProto(t, ps[1..], Assign(result, key, v).value);
    }
  }

  lemma {:induction false} NormNoProto(v: Value)
    requires WellFormed(v) && NoProto(Norm(v))
    ensures NoProto(v)
    decreases v
  {
    match v
    case Arr(es, _) =>
      forall i | 0 <= i < |es| ensures NoProto(es[i]) { assert NoProto(NormAll(es)[i]); NormNoProto(es[i]); }
    case Inst(_, args) =>
      forall i | 0 <= i < |args| ensures NoProto(args[i]) { assert NoProto(NormAll(args)[i]); NormNoProto(args[i]); }
    case Obj(es, _) =>
      var fs := NormEntries(es);
      SortSorted(fs);
      forall i | 0 <= i < |es| ensures es[i].key != PROTO && NoProto(es[i].value) {
        assert fs[i] in fs && fs[i] in Sort(fs);
        var k :| 0 <= k < |Sort(fs)| && Sort(fs)[k] == fs[i];
        NormNoProto(es[i].value);
      }
    case _ =>
  }

  /** Decoding an encoded value gives the value back, with sorted keys, exactly when no plain object in it binds
      the key `__proto__`. */
  lemma RoundTripExactly(t: Tables, v: Value)
    requires Good(t) && WellFormed(v) && Encode(t, v).Ok?
    ensures Decode(t, Encode(t, v).value) == Ok(Norm(v)) <==> NoProto(v)
  {
    if NoProto(v) {
      RoundTrip(t, v);
    } else if Decode(t, Encode(t, v).value) == Ok(Norm(v)) {
      DecodedNoProto(t, Encode(t, v).value);
      NormNoProto(v);
    }
  }

  // ----- Encodings are canonical -----

  lemma {:induction false} ApplicableNorm(codecs: seq<ItemCodec>, v: Value)
    requires forall c <- codecs :: Sound(c)
    ensures Applicable(codecs, Norm(v)) == Applicable(codecs, v)
  {
    if codecs != [] {
      assert codecs[|codecs| - 1] in codecs;
      assert forall c <- codecs[..|codecs| - 1] :: c in codecs;
      ApplicableNorm(codecs[..|codecs| - 1], v);
    }
  }

  lemma CodecForNorm(t: Tables, v: Value)
    requires Good(t)
    ensures CodecForValue(t, Norm(v)) == CodecForValue(t, v)
  {
    var codecs := Listed(t, KindOf(v));
    forall c <- codecs ensures Sound(c) {
      var i :| 0 <= i < |codecs| && codecs[i] == c;
      assert c.tag in t.tagToCodec;
    }
    ApplicableNorm(codecs, v);
  }

  /** An encoding is decided by the codec that is found and what the coding functions make of the value. */
  lemma RawDecides(t: Tables, v: Value, w: Value)
    ensures CodecForValue(t, v) == CodecForValue(t, w) && EncodeRaw(t, v) == EncodeRaw(t, w) ==>
      Encode(t, v) == Encode(t, w)
  {
    hide CodecForValue, EncodeRaw, Wrap;
  }


  /** The order of keys makes no difference to an encoding, nor to whether there is one. */
  lemma {:induction false} EncodeNorm(t: Tables, v: Value)
    requires Good(t) && WellFormed(v)
    ensures Encode(t, Norm(v)) == Encode(t, v)
    decreases Size(v)
  {
    hide CodecForValue, Encode, Sort, Good;
    CodecForNorm(t, v);
    RawDecides(t, v, Norm(v));
    match v
    case Arr(es, _) => EncodeNormAll(t, es);
    case Inst(_, args) => EncodeNormAll(t, args);
    case Obj(es, _) =>
      SortAgain(NormEntries(es));
      SortNorm(es);
      SortKeeps(es);
      EncodeNormEntries(t, Sort(es));
    case _ =>
  }

  lemma {:induction false} EncodeNormAll(t: Tables, vs: seq<Value>)
    requires Good(t) && forall i :: 0 <= i < |vs| ==> WellFormed(vs[i])
    ensures EncodeAll(t, NormAll(vs)) == EncodeAll(t, vs)
    decreases SizeAll(vs)
  {
    if vs != [] {
      EncodeNorm(t, vs[0]);
      EncodeNormAll(t, vs[1..]);
      assert NormAll(vs)[1..] == NormAll(vs[1..]);
    }
  }

  lemma {:induction false} EncodeNormEntries(t: Tables, es: seq<Entry>)
    requires Good(t) && GoodEntries(es)
    ensures EncodeEntries(t, NormEntries(es)) == EncodeEntries(t, es)
    decreases SizeEntries(es)
  {
    if es != [] {
      EncodeNorm(t, es[0].value);
      EncodeNormEntries(t, es[1..]);
      assert NormEntries(es)[1..] == NormEntries(es[1..]);
    }
  }

  /** Values with the same encoding are of the same kind, and the coding functions make the same of them. */
  lemma SameRaw(t: Tables, v: Value, w: Value)
    requires Good(t) && Encode(t, v).Ok? && Encode(t, v) == Encode(t, w)
    ensures KindOf(v) == KindOf(w) && EncodeRaw(t, v) == EncodeRaw(t, w) && EncodeRaw(t, v).Ok?
    ensures Regular(v) && Regular(w)
  {
    TagSelects(t, v);
    TagSelects(t, w);
    hide Encode, EncodeRaw, CodecForValue, Norm;
    assert Sound(CodecForValue(t, v).value);
  }


  lemma {:induction false} EncodeInjective(t: Tables, v: Value, w: Value)
    requires Good(t) && WellFormed(v) && WellFormed(w)
    requires Encode(t, v).Ok? && Encode(t, v) == Encode(t, w)
    ensures Norm(v) == Norm(w)
    decreases Size(v)
  {
    hide CodecForValue, Sort, Good, Encode;
    SameRaw(t, v, w);
    match v
    case Arr(es, _) => EncodeAllInjective(t, es, w.elems);
    case Inst(_, args) => EncodeAllInjective(t, args, w.args);
    case Obj(es, _) =>
      SortKeeps(es);
      SortKeeps(w.entries);
      EncodeEntriesInjective(t, Sort(es), Sort(w.entries));
      SortNorm(es);
      SortNorm(w.entries);
    case _ =>
  }

  lemma {:induction false} EncodeAllInjective(t: Tables, vs: seq<Value>, ws: seq<Value>)
    requires Good(t) && EncodeAll(t, vs).Ok? && EncodeAll(t, vs) == EncodeAll(t, ws)
    requires forall i :: 0 <= i < |vs| ==> WellFormed(vs[i])
    requires forall i :: 0 <= i < |ws| ==> WellFormed(ws[i])
    ensures NormAll(vs) == NormAll(ws)
    decreases SizeAll(vs)
  {
    if vs != [] && ws != [] {
      var ps := EncodeAll(t, vs).value;
      assert ps[0] == Encode(t, vs[0]).value == Encode(t, ws[0]).value;
      assert ps[1..] == EncodeAll(t, vs[1..]).value == EncodeAll(t, ws[1..]).value;
      EncodeInjective(t, vs[0], ws[0]);
      EncodeAllInjective(t, vs[1..], ws[1..]);
    }
  }

  lemma NoEntry(t: Tables, es: seq<Entry>)
    requires es == []
    ensures EncodeEntries(t, es) == Ok([])
  {
  }

  lemma GoodRest(es: seq<Entry>)
    requires es != [] && GoodEntries(es)
    ensures WellFormed(es[0].value) && GoodEntries(es[1..])
  {
    assert forall i :: 0 <= i < |es[1..]| ==> es[1..][i] == es[i + 1];
  }

  lemma FirstEntry(t: Tables, es: seq<Entry>)
    requires es != [] && EncodeEntries(t, es).Ok?
    ensures Encode(t, es[0].value).Ok? && EncodeEntries(t, es[1..]).Ok?
    ensures var ps := EncodeEntries(t, es).value;
      && |ps| > 0 && ps[1..] == EncodeEntries(t, es[1..]).value
      && PairOf(ps[0]) == Some((es[0].key, Encode(t, es[0].value).value))
  {
  }

  lemma {:induction false} EncodeEntriesInjective(t: Tables, es: seq<Entry>, fs: seq<Entry>)
    requires Good(t) && EncodeEntries(t, es).Ok? && EncodeEntries(t, es) == EncodeEntries(t, fs)
    requires GoodEntries(es) && GoodEntries(fs)
    ensures NormEntries(es) == NormEntries(fs)
    decreases SizeEntries(es)
  {
    hide Encode, EncodeEntries, Good, WellFormed, Norm;
    if es == [] { NoEntry(t, es); } else { FirstEntry(t, es); }
    if fs == [] { NoEntry(t, fs); } else { FirstEntry(t, fs); }
    if es != [] && fs != [] {
      GoodRest(es);
      GoodRest(fs);
      EncodeInjective(t, es[0].value, fs[0].value);
      EncodeEntriesInjective(t, es[1..], fs[1..]);
    }
  }

  /** Encodable values have the same encoding exactly when they are equal, whatever the order of keys. */
  lemma Canonical(t: Tables, v: Value, w: Value)
    requires Good(t) && WellFormed(v) && WellFormed(w) && Encode(t, v).Ok?
    ensures Encode(t, v) == Encode(t, w) <==> Same(v, w)
  {
    NormIsSame(v, w);
    EncodeNorm(t, v);
    EncodeNorm(t, w);
    if Encode(t, v) == Encode(t, w) { EncodeInjective(t, v, w); }
  }
}
