/** Which payloads can be decoded at all, whether or not any encoding has made them, for a registry to which some
    classes have been registered on top of the special codecs; and what becomes of the pairs of an object. */
module CodecDecoding {
  import opened Wrappers
  import opened CodecValues
  import opened CodecRegistry
  import opened Codec
  import opened CodecCoverage
  import CodecLaws

  // ----- Which payloads can be decoded -----

  /** A pair that can be assigned to a plain object: a key, and a value that can be decoded. More elements are
      ignored. The value for the special key must be a boolean, a number or a string. */
  predicate DecodablePair(tags: set<string>, p: Payload) {
    && p.PArr? && |p.elems| >= 2 && p.elems[0].PStr? && Decodable(tags, p.elems[1])
    && (p.elems[0].s == "__proto__" ==> p.elems[1].PBool? || p.elems[1].PNum? || p.elems[1].PStr?)
  }

  /** Scalars, arrays of what can be decoded, calls for the given tags with arguments that can be decoded, and calls
      for objects whose arguments are pairs. */
  predicate Decodable(tags: set<string>, p: Payload) {
    match p
    case PObject => false
    case PArr(ps) => forall i :: 0 <= i < |ps| ==> Decodable(tags, ps[i])
    case PCall(tag, ps) =>
      if tag == "object" then forall i :: 0 <= i < |ps| ==> DecodablePair(tags, ps[i])
      else (tag in tags || tag == "type:array") && forall i :: 0 <= i < |ps| ==> Decodable(tags, ps[i])
    case _ => true
  }

  ghost function ClassTags(classes: seq<ItemCodec>): set<string> {
    {"buf", "f"} + set c <- classes :: c.tag
  }

  lemma {:induction false} RegisteredAt(codecs: seq<ItemCodec>, i: nat)
    requires DistinctTags(codecs) && i < |codecs|
    ensures codecs[i].tag in Registered(codecs).tagToCodec && Registered(codecs).tagToCodec[codecs[i].tag] == codecs[i]
  {
    var front, last := codecs[..|codecs| - 1], codecs[|codecs| - 1];
    WithCodecListed(Registered(front), last, last.kind);
    if i < |front| {
      assert forall k :: 0 <= k < |front| ==> front[k] == codecs[k];
      RegisteredAt(front, i);
    }
  }

  /** The codec takes every value of its kind, as decoding makes them. */
  ghost predicate Takes(c: ItemCodec) {
    forall v :: KindOf(v) == c.kind && (v.Arr? || v.Obj? ==> v.regular) ==> c.CanEncode(v)
  }

  lemma SpecialsTake(k: nat)
    requires k < 8
    ensures Takes(Specials()[k])
  {
  }

  /** What a tag is for. */
  ghost predicate TagIsFor(t: Tables, tags: set<string>, tag: string) {
    if tag == "object" then
      tag in t.tagToCodec && t.tagToCodec[tag].kind == OfType("object") && Takes(t.tagToCodec[tag])
    else if tag in tags || tag == "type:array" then
      && tag in t.tagToCodec && (t.tagToCodec[tag].kind.OfClass? || t.tagToCodec[tag].kind == OfType("array"))
      && Takes(t.tagToCodec[tag])
    else
      tag in t.tagToCodec ==>
        var kind := t.tagToCodec[tag].kind; !kind.OfClass? && kind != OfType("array") && kind != OfType("object")
  }

  lemma SpecialAt(classes: seq<ItemCodec>, k: nat)
    requires DistinctTags(Specials() + classes) && k < 8
    ensures var t := Registered(Specials() + classes).tagToCodec;
      Specials()[k].tag in t && t[Specials()[k].tag] == Specials()[k]
  {
    assert (Specials() + classes)[k] == Specials()[k];
    RegisteredAt(Specials() + classes, k);
  }

  lemma SpecialTags()
    ensures var s := Specials();
      && s[0].tag == "type:array" && s[1].tag == "buf" && s[2].tag == "f" && s[3].tag == "object"
      && s[4].tag == "type:boolean" && s[5].tag == "type:null" && s[6].tag == "type:number" && s[7].tag == "type:string"
    ensures TagFromType("array") == "type:array" && TagFromType("boolean") == "type:boolean"
    ensures TagFromType("null") == "type:null" && TagFromType("number") == "type:number"
    ensures TagFromType("string") == "type:string"
  {
  }

  lemma SpecialCount()
    ensures |Specials()| == 8
  {
  }

  lemma ClassTakes(classes: seq<ItemCodec>, i: nat)
    requires Plain(classes) && i < |classes|
    ensures classes[i].kind.OfClass? && Takes(classes[i]) && classes[i].tag in ClassTags(classes)
  {
    assert classes[i] in classes;
  }

  lemma NotClassTag(classes: seq<ItemCodec>, k: nat)
    requires DistinctTags(Specials() + classes) && k < 8
    ensures Specials()[k].tag in ClassTags(classes) <==> Specials()[k].kind.OfClass?
  {
    var all, s := Specials() + classes, Specials();
    SpecialsDistinct();
    assert s[1].tag == "buf" && s[2].tag == "f" && s[k] == all[k];
    forall c | c in classes ensures c.tag != s[k].tag {
      var j :| 0 <= j < |classes| && classes[j] == c;
      assert all[8 + j] == c;
    }
  }

  lemma SpecialIsFor(classes: seq<ItemCodec>, k: nat)
    requires DistinctTags(Specials() + classes) && k < 8
    ensures TagIsFor(Registered(Specials() + classes), ClassTags(classes), Specials()[k].tag)
  {
    SpecialTags();
    SpecialsTake(k);
    SpecialAt(classes, k);
    NotClassTag(classes, k);
    hide Registered, ClassTags, Takes, DistinctTags;
  }

  lemma ClassAt(classes: seq<ItemCodec>, k: nat)
    requires DistinctTags(Specials() + classes) && k < |classes|
    ensures var t := Registered(Specials() + classes).tagToCodec;
      classes[k].tag in t && t[classes[k].tag] == classes[k]
  {
    SpecialCount();
    hide Specials, Registered;
    assert (Specials() + classes)[8 + k] == classes[k];
    RegisteredAt(Specials() + classes, 8 + k);
  }

  lemma ObjectAt(classes: seq<ItemCodec>)
    requires DistinctTags(Specials() + classes)
    ensures var t := Registered(Specials() + classes).tagToCodec; "object" in t && t["object"].kind == OfType("object")
  {
    hide Registered;
    SpecialTags();
    SpecialAt(classes, 3);
  }

  lemma ClassIsFor(classes: seq<ItemCodec>, k: nat)
    requires Plain(classes) && DistinctTags(Specials() + classes) && k < |classes|
    ensures TagIsFor(Registered(Specials() + classes), ClassTags(classes), classes[k].tag)
  {
    hide Specials, Registered, ClassTags, Takes, Plain, DistinctTags;
    ObjectAt(classes);
    ClassAt(classes, k);
    ClassTakes(classes, k);
  }

  /** Tags are for what they should be. */
  lemma TagsFor(classes: seq<ItemCodec>, tag: string)
    requires Plain(classes) && DistinctTags(Specials() + classes)
    ensures TagIsFor(Registered(Specials() + classes), ClassTags(classes), tag)
  {
    var all := Specials() + classes;
    SpecialCount();
    RegisteredOk(all);
    hide Specials, Registered, TagIsFor, Takes, Plain, DistinctTags;
    if tag in Registered(all).tagToCodec {
      var k :| 0 <= k < |all| && all[k].tag == tag;
      if k >= 8 { ClassIsFor(classes, k - 8); } else { SpecialIsFor(classes, k); }
    } else {
      UnknownTag(classes, tag);
    }
  }

  lemma UnknownTag(classes: seq<ItemCodec>, tag: string)
    requires Plain(classes) && DistinctTags(Specials() + classes)
    requires tag !in Registered(Specials() + classes).tagToCodec
    ensures TagIsFor(Registered(Specials() + classes), ClassTags(classes), tag)
  {
    SpecialTags();
    SpecialAt(classes, 3);
    SpecialAt(classes, 0);
    RegisteredOk(Specials() + classes);
    hide Specials, Registered, Takes;
    if tag in ClassTags(classes) { ClassTagAt(classes, tag); }
  }

  lemma ClassTagAt(classes: seq<ItemCodec>, tag: string)
    requires Plain(classes) && DistinctTags(Specials() + classes) && tag in ClassTags(classes)
    ensures exists k :: 0 <= k < |Specials() + classes| && (Specials() + classes)[k].tag == tag
  {
    var all := Specials() + classes;
    if tag == "buf" {
      assert all[1].tag == tag;
    } else if tag == "f" {
      assert all[2].tag == tag;
    } else {
      var c :| c in classes && c.tag == tag;
      var j :| 0 <= j < |classes| && classes[j] == c;
      assert all[8 + j] == c;
    }
  }

  /** The value of a pair may be assigned to its key. */
  lemma AssignExactly(es: seq<Entry>, key: string, value: Value)
    ensures Assign(es, key, value).Some? <==> (key == "__proto__" ==> value.Bool? || value.Num? || value.Str?)
  {
  }

  /** What decoding comes to for the codec of a tag. */
  lemma CallDecodes(t: Tables, p: Payload, tags: set<string>, tag: string)
    requires p.PArr? || p.PCall?
    requires TagFromPayload(p) == Some(tag) && TagIsFor(t, tags, tag)
    ensures var ps := if p.PArr? then p.elems else p.args;
      && (Decode(t, p).Ok? <==>
            if tag == "object" then DecodePairs(t, ps, []).Ok?
            else (tag in tags || tag == "type:array") && DecodeAll(t, ps).Ok?)
      && (Decode(t, p).Ok? ==> !Decode(t, p).value.Bool? && !Decode(t, p).value.Num? && !Decode(t, p).value.Str?)
  {
    hide DecodePairs, DecodeAll, TagFromType;
    if tag in t.tagToCodec {
      var c := t.tagToCodec[tag];
      var raw := DecodeArgs(t, if p.PArr? then p.elems else p.args, c.kind);
      assert CodecForPayload(t, p) == Ok(c) && DecodeRaw(t, p, c.kind) == raw;
      if raw.Ok? { assert KindOf(raw.value) == c.kind; }
    }
  }

  lemma ScalarDecodes(classes: seq<ItemCodec>, p: Payload)
    requires DistinctTags(Specials() + classes) && !p.PArr? && !p.PCall?
    ensures var r := Decode(Registered(Specials() + classes), p);
      && (r.Ok? <==> !p.PObject?)
      && (r.Ok? ==> (r.value.Bool? <==> p.PBool?) && (r.value.Num? <==> p.PNum?) && (r.value.Str? <==> p.PStr?))
  {
    SpecialTags();
    hide Registered, TagFromType;
    match p {
      case PBool(_) => SpecialAt(classes, 4);
      case PNull => SpecialAt(classes, 5);
      case PNum(_) => SpecialAt(classes, 6);
      case PStr(_) => SpecialAt(classes, 7);
      case _ =>
    }
  }

  /** Exactly the decodable payloads can be decoded; scalars stand for themselves. */
  lemma {:induction false} DecodableExactly(classes: seq<ItemCodec>, p: Payload)
    requires Plain(classes) && DistinctTags(Specials() + classes)
    ensures var r := Decode(Registered(Specials() + classes), p);
      && (r.Ok? <==> Decodable(ClassTags(classes), p))
      && (r.Ok? ==> (r.value.Bool? <==> p.PBool?) && (r.value.Num? <==> p.PNum?) && (r.value.Str? <==> p.PStr?))
    decreases PSize(p), 1
  {
    var t := Registered(Specials() + classes);
    SpecialTags();
    hide Registered, Plain, ClassTags, TagFromType, TagIsFor, Specials, DecodePairs, DecodeAll, Decode;
    match p {
      case PArr(ps) =>
        TagsFor(classes, "type:array");
        CallDecodes(t, p, ClassTags(classes), "type:array");
        DecodableAll(classes, ps);
      case PCall(tag, ps) =>
        TagsFor(classes, tag);
        CallDecodes(t, p, ClassTags(classes), tag);
        if tag == "object" { DecodablePairs(classes, ps, []); } else { DecodableAll(classes, ps); }
      case _ =>
        ScalarDecodes(classes, p);
    }
  }

  lemma {:induction false} DecodableAll(classes: seq<ItemCodec>, ps: seq<Payload>)
    requires Plain(classes) && DistinctTags(Specials() + classes)
    ensures DecodeAll(Registered(Specials() + classes), ps).Ok? <==>
      forall i :: 0 <= i < |ps| ==> Decodable(ClassTags(classes), ps[i])
    decreases PSizeAll(ps), 0
  {
    hide Registered, Plain, ClassTags, Decodable, Specials;
    if ps != [] {
      DecodableExactly(classes, ps[0]);
      DecodableAll(classes, ps[1..]);
      assert forall i :: 0 <= i < |ps| - 1 ==> ps[1..][i] == ps[i + 1];
      assert forall i :: 0 < i < |ps| ==> ps[i] == ps[1..][i - 1];
    }
  }

  lemma {:induction false} DecodablePairs(classes: seq<ItemCodec>, ps: seq<Payload>, result: seq<Entry>)
    requires Plain(classes) && DistinctTags(Specials() + classes)
    ensures DecodePairs(Registered(Specials() + classes), ps, result).Ok? <==>
      forall i :: 0 <= i < |ps| ==> DecodablePair(ClassTags(classes), ps[i])
    decreases PSizeAll(ps), 0
  {
    hide Registered, Plain, ClassTags, Decodable, Specials, Assign;
    if ps != [] {
      var t := Registered(Specials() + classes);
      if PairOf(ps[0]).Some? {
        var (key, q) := PairOf(ps[0]).value;
        DecodableExactly(classes, q);
        if Decode(t, q).Ok? {
          AssignExactly(result, key, Decode(t, q).value);
          if Assign(result, key, Decode(t, q).value).Some? {
            DecodablePairs(classes, ps[1..], Assign(result, key, Decode(t, q).value).value);
          }
        }
      }
      assert forall i :: 0 <= i < |ps| - 1 ==> ps[1..][i] == ps[i + 1];
      assert forall i :: 0 < i < |ps| ==> ps[i] == ps[1..][i - 1];
    }
  }

  // ----- What becomes of pairs -----

  /** The value that an object binds to a key. */
  function Find(es: seq<Entry>, key: string): Option<Value> {
    if es == [] then None else if es[0].key == key then Some(es[0].value) else Find(es[1..], key)
  }

  /** The value of the last pair for a key. */
  function LastFor(ps: seq<Payload>, key: string): Option<Payload> {
    if ps == [] then None
    else match PairOf(ps[|ps| - 1])
      case Some((k, p)) => if k == key then Some(p) else LastFor(ps[..|ps| - 1], key)
      case None => LastFor(ps[..|ps| - 1], key)
  }

  lemma {:induction false} FindSet(es: seq<Entry>, key: string, value: Value, k: string)
    ensures Find(SetKey(es, key, value), k) == if k == key then Some(value) else Find(es, k)
  {
    if es != [] && es[0].key != key { FindSet(es[1..], key, value, k); }
  }

  lemma {:induction false} LastForFront(ps: seq<Payload>, key: string)
    requires ps != []
    ensures LastFor(ps, key) ==
      if LastFor(ps[1..], key).Some? then LastFor(ps[1..], key)
      else match PairOf(ps[0]) case Some((k, p)) => (if k == key then Some(p) else None) case None => None
  {
    if |ps| == 1 {
      assert ps[..0] == [] && ps[1..] == [] && LastFor([], key) == None;
    } else {
      LastForFront(ps[..|ps| - 1], key);
      assert ps[1..][..|ps| - 2] == ps[..|ps| - 1][1..];
    }
  }

  /** A decoded object binds a key to what the last pair for it decodes to, whatever else there is in the payload. */
  lemma {:induction false} LastPairDecides(t: Tables, ps: seq<Payload>, result: seq<Entry>, key: string)
    requires DecodePairs(t, ps, result).Ok? && key != "__proto__"
    ensures Find(DecodePairs(t, ps, result).value, key) ==
      match LastFor(ps, key) case None => Find(result, key) case Some(p) => OptionOf(Decode(t, p))
    decreases |ps|
  {
    hide LastFor;
    if ps == [] {
      assert LastFor(ps, key) == None by { NoPairs(key); }
    } else {
      var (k, p) := PairOf(ps[0]).value;
      var v := Decode(t, p).value;
      FindSet(result, k, v, key);
      LastForFront(ps, key);
      LastPairDecides(t, ps[1..], Assign(result, k, v).value, key);
    }
  }

  lemma NoPairs(key: string)
    ensures LastFor([], key) == None
  {
  }

  function OptionOf(r: Result<Value, Error>): Option<Value> {
    match r case Ok(v) => Some(v) case Err(_) => None
  }

  // ----- Whatever has been decoded comes back -----

  /** No key is bound twice, and everything can be encoded again. */
  predicate Clean(names: set<string>, v: Value) {
    Codable(names, v) && WellFormed(v)
  }

  predicate CleanEntries(names: set<string>, es: seq<Entry>) {
    DistinctKeys(es) && forall i :: 0 <= i < |es| ==> Clean(names, es[i].value)
  }

  lemma {:induction false} SetKeyKeys(es: seq<Entry>, key: string, value: Value)
    ensures forall i :: 0 <= i < |SetKey(es, key, value)| ==>
      SetKey(es, key, value)[i].key == key || exists j :: 0 <= j < |es| && es[j].key == SetKey(es, key, value)[i].key
  {
    if es != [] && es[0].key != key {
      SetKeyKeys(es[1..], key, value);
      var rest := SetKey(es[1..], key, value);
      forall i | 0 <= i < |rest| && rest[i].key != key ensures exists j :: 0 <= j < |es| && es[j].key == rest[i].key {
        var j :| 0 <= j < |es[1..]| && es[1..][j].key == rest[i].key;
        assert es[j + 1].key == rest[i].key;
      }
    }
  }

  lemma {:induction false} SetKeyClean(names: set<string>, es: seq<Entry>, key: string, value: Value)
    requires CleanEntries(names, es) && Clean(names, value)
    ensures CleanEntries(names, SetKey(es, key, value))
  {
    hide Clean;
    if es != [] {
      if es[0].key == key {
        assert forall i :: 0 < i < |es| ==> ([Entry(key, value)] + es[1..])[i] == es[i];
      } else {
        assert CleanEntries(names, es[1..]);
        SetKeyClean(names, es[1..], key, value);
        SetKeyKeys(es[1..], key, value);
        CleanCons(names, es[0], SetKey(es[1..], key, value));
      }
    }
  }

  lemma CleanCons(names: set<string>, e: Entry, es: seq<Entry>)
    requires Clean(names, e.value) && CleanEntries(names, es) && forall i :: 0 <= i < |es| ==> es[i].key != e.key
    ensures CleanEntries(names, [e] + es)
  {
    hide Clean;
    var all := [e] + es;
    assert forall i :: 0 < i < |all| ==> all[i] == es[i - 1];
  }

  lemma TagOfName(classes: seq<ItemCodec>, tag: string)
    requires DistinctTags(Specials() + classes) && tag in Registered(Specials() + classes).tagToCodec
    ensures var kind := Registered(Specials() + classes).tagToCodec[tag].kind;
      kind.OfClass? ==> kind.cls in ClassNames(classes)
  {
    var all, s := Specials() + classes, Specials();
    RegisteredOk(all);
    var k :| 0 <= k < |all| && all[k].tag == tag;
    RegisteredAt(all, k);
    if k >= 8 {
      assert all[k] == classes[k - 8] && classes[k - 8] in classes;
    } else {
      assert all[k] == s[k];
    }
  }

  /** Whatever is decoded, from whatever payload, can be encoded again. */
  lemma {:induction false} DecodedClean(classes: seq<ItemCodec>, p: Payload)
    requires Plain(classes) && DistinctTags(Specials() + classes)
    requires Decode(Registered(Specials() + classes), p).Ok?
    ensures Clean(ClassNames(classes), Decode(Registered(Specials() + classes), p).value)
    decreases PSize(p), 2
  {
    var t := Registered(Specials() + classes);
    hide Registered, Plain, ClassNames, DistinctTags;
    TagOfName(classes, TagFromPayload(p).value);
    var kind := CodecForPayload(t, p).value.kind;
    match p
    case PArr(ps) => DecodedArgsClean(classes, ps, kind);
    case PCall(_, ps) => DecodedArgsClean(classes, ps, kind);
    case _ =>
  }

  lemma {:induction false} DecodedArgsClean(classes: seq<ItemCodec>, ps: seq<Payload>, kind: Kind)
    requires Plain(classes) && DistinctTags(Specials() + classes)
    requires DecodeArgs(Registered(Specials() + classes), ps, kind).Ok?
    requires kind.OfClass? ==> kind.cls in ClassNames(classes)
    ensures Clean(ClassNames(classes), DecodeArgs(Registered(Specials() + classes), ps, kind).value)
    decreases PSizeAll(ps), 1
  {
    hide Registered, Plain, ClassNames, DistinctTags, Specials;
    if kind == OfType("object") {
      DecodedPairsClean(classes, ps, []);
    } else {
      DecodedAllClean(classes, ps);
    }
  }

  lemma {:induction false} DecodedAllClean(classes: seq<ItemCodec>, ps: seq<Payload>)
    requires Plain(classes) && DistinctTags(Specials() + classes)
    requires DecodeAll(Registered(Specials() + classes), ps).Ok?
    ensures var vs := DecodeAll(Registered(Specials() + classes), ps).value;
      forall i :: 0 <= i < |vs| ==> Clean(ClassNames(classes), vs[i])
    decreases PSizeAll(ps), 0
  {
    hide Registered, Plain, ClassNames, DistinctTags, Specials, Clean;
    if ps != [] {
      DecodedClean(classes, ps[0]);
      DecodedAllClean(classes, ps[1..]);
    }
  }

  lemma {:induction false} DecodedPairsClean(classes: seq<ItemCodec>, ps: seq<Payload>, result: seq<Entry>)
    requires Plain(classes) && DistinctTags(Specials() + classes)
    requires DecodePairs(Registered(Specials() + classes), ps, result).Ok?
    requires CleanEntries(ClassNames(classes), result)
    ensures CleanEntries(ClassNames(classes), DecodePairs(Registered(Specials() + classes), ps, result).value)
    decreases PSizeAll(ps), 0
  {
    hide Registered, Plain, ClassNames, DistinctTags, Specials, Clean, CleanEntries;
    if ps != [] {
      var (key, p) := PairOf(ps[0]).value;
      DecodedClean(classes, p);
      var v := Decode(Registered(Specials() + classes), p).value;
      SetKeyClean(ClassNames(classes), result, key, v);
      DecodedPairsClean(classes, ps[1..], Assign(result, key, v).value);
    }
  }

  /** Whatever is decoded, even from a payload that no encoding has made, can be encoded, and then comes back, with
      sorted keys. */
  lemma DecodedComesBack(classes: seq<ItemCodec>, p: Payload)
    requires Plain(classes) && DistinctTags(Specials() + classes)
    requires Decode(Registered(Specials() + classes), p).Ok?
    ensures var t := Registered(Specials() + classes);
            var v := Decode(t, p).value;
      Encode(t, v).Ok? && Decode(t, Encode(t, v).value) == Ok(Norm(v))
  {
    var t := Registered(Specials() + classes);
    var v := Decode(t, p).value;
    PlainGood(classes);
    hide Registered, ClassNames, DistinctTags, Specials, Plain, CodecLaws.Good;
    DecodedClean(classes, p);
    EncodableExactly(classes, v);
    CodecLaws.DecodedNoProto(t, p);
    CodecLaws.RoundTripExactly(t, v);
  }

  lemma PlainGood(classes: seq<ItemCodec>)
    requires Plain(classes) && DistinctTags(Specials() + classes)
    ensures CodecLaws.Good(Registered(Specials() + classes))
  {
    CodecLaws.RegistryGood(classes);
  }
}
