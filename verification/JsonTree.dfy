/** The JSON level of encoded data, where constructor calls are plain objects with a single key. */
module JsonTree {
  import opened Wrappers
  import opened CodecValues
  import opened CodecRegistry
  import opened Codec
  import CodecLaws

  datatype Json =
    | JNull
    | JBool(b: bool)
    | JNum(n: int)
    | JStr(s: string)
    | JArr(elems: seq<Json>)
    | JObj(members: seq<Member>)

  datatype Member = Member(key: string, value: Json)

  /** What `JSON.stringify()` makes of a payload, by way of `toJSON()`. */
  function ToJson(p: Payload): Json {
    match p
    case PNull => JNull
    case PBool(b) => JBool(b)
    case PNum(n) => JNum(n)
    case PStr(s) => JStr(s)
    case PArr(ps) => JArr(AllToJson(ps))
    case PCall(tag, args) => JObj([Member(tag, JArr(AllToJson(args)))])
    case PObject => JObj([])
  }

  function AllToJson(ps: seq<Payload>): seq<Json> {
    if ps == [] then [] else [ToJson(ps[0])] + AllToJson(ps[1..])
  }

  function JSize(j: Json): nat {
    match j
    case JArr(js) => 1 + JSizeAll(js)
    case JObj(ms) => 1 + JSizeMembers(ms)
    case _ => 1
  }

  function JSizeAll(js: seq<Json>): nat {
    if js == [] then 0 else 1 + JSize(js[0]) + JSizeAll(js[1..])
  }

  function JSizeMembers(ms: seq<Member>): nat {
    if ms == [] then 0 else 1 + JSize(ms[0].value) + JSizeMembers(ms[1..])
  }

  /** `JSON.parse()` with `revive()`, which works from the leaves up: when an object is looked at, the values of
      its members have been revived already. */
  function Revive(j: Json): Result<Payload, Error>
    decreases JSize(j)
  {
    match j
    case JNull => Ok(PNull)
    case JBool(b) => Ok(PBool(b))
    case JNum(n) => Ok(PNum(n))
    case JStr(s) => Ok(PStr(s))
    case JArr(js) => (match ReviveAll(js) case Err(e) => Err(e) case Ok(ps) => Ok(PArr(ps)))
    case JObj(ms) => (match ReviveMembers(ms) case Err(e) => Err(e) case Ok(rs) => ReviveObject(rs))
  }

  function ReviveAll(js: seq<Json>): Result<seq<Payload>, Error>
    decreases JSizeAll(js)
  {
    if js == [] then Ok([])
    else match Revive(js[0])
      case Err(e) => Err(e)
      case Ok(p) => match ReviveAll(js[1..]) case Err(e) => Err(e) case Ok(ps) => Ok([p] + ps)
  }

  function ReviveMembers(ms: seq<Member>): Result<seq<(string, Payload)>, Error>
    decreases JSizeMembers(ms)
  {
    if ms == [] then Ok([])
    else match Revive(ms[0].value)
      case Err(e) => Err(e)
      case Ok(p) => match ReviveMembers(ms[1..]) case Err(e) => Err(e) case Ok(rs) => Ok([(ms[0].key, p)] + rs)
  }

  /** `revive()` for an object: only a single binding of a label to an array is accepted. */
  function ReviveObject(members: seq<(string, Payload)>): Result<Payload, Error> {
    if |members| == 1 && members[0].1.PArr? && IsLabel(members[0].0) then Ok(PCall(members[0].0, members[0].1.elems))
    else Err(BadPayload)
  }

  /** Payloads as encoding makes them: no plain objects, and labels for tags. */
  predicate Labelled(p: Payload) {
    match p
    case PArr(ps) => AllLabelled(ps)
    case PCall(tag, args) => IsLabel(tag) && AllLabelled(args)
    case PObject => false
    case _ => true
  }

  predicate AllLabelled(ps: seq<Payload>) {
    ps == [] || (Labelled(ps[0]) && AllLabelled(ps[1..]))
  }

  /** Trees in which every object has a single member, whose key is a label and whose value is an array. */
  predicate CallsOnly(j: Json) {
    match j
    case JArr(js) => AllCallsOnly(js)
    case JObj(ms) => |ms| == 1 && IsLabel(ms[0].key) && ms[0].value.JArr? && CallsOnly(ms[0].value)
    case _ => true
  }

  predicate AllCallsOnly(js: seq<Json>) {
    js == [] || (CallsOnly(js[0]) && AllCallsOnly(js[1..]))
  }

  lemma OneMember(m: Member)
    ensures ReviveMembers([m]) == match Revive(m.value) case Err(e) => Err(e) case Ok(p) => Ok([(m.key, p)])
  {
    assert [m][1..] == [] && ReviveMembers([]) == Ok([]);
    if Revive(m.value).Ok? {
      var pair := (m.key, Revive(m.value).value);
      assert [pair] + [] == [pair];
    }
  }

  /** Reviving undoes `toJSON()` on every payload that encoding can make. */
  lemma {:induction false} ReviveUndoes(p: Payload)
    requires Labelled(p)
    ensures Revive(ToJson(p)) == Ok(p)
    decreases PSize(p)
  {
    match p
    case PArr(ps) => ReviveUndoesAll(ps);
    case PCall(tag, args) =>
      ReviveUndoesAll(args);
      var member := Member(tag, JArr(AllToJson(args)));
      assert Revive(member.value) == Ok(PArr(args));
      OneMember(member);
    case _ =>
  }

  lemma {:induction false} ReviveUndoesAll(ps: seq<Payload>)
    requires AllLabelled(ps)
    ensures ReviveAll(AllToJson(ps)) == Ok(ps)
    decreases PSizeAll(ps)
  {
    if ps != [] {
      ReviveUndoes(ps[0]);
      ReviveUndoesAll(ps[1..]);
      assert AllToJson(ps)[1..] == AllToJson(ps[1..]);
      assert [ps[0]] + ps[1..] == ps;
    }
  }

  /** What is revived, and to what: exactly the trees whose objects are all calls, to the payload that has this
      tree as its JSON form. */
  lemma {:induction false} ReviveExactly(j: Json)
    ensures Revive(j).Ok? <==> CallsOnly(j)
    ensures Revive(j).Ok? ==> Labelled(Revive(j).value) && ToJson(Revive(j).value) == j
    decreases JSize(j)
  {
    match j
    case JArr(js) => ReviveAllExactly(js);
    case JObj(ms) => ReviveObjectExactly(ms);
    case _ =>
  }

  lemma {:induction false} ReviveAllExactly(js: seq<Json>)
    ensures ReviveAll(js).Ok? <==> AllCallsOnly(js)
    ensures ReviveAll(js).Ok? ==> AllLabelled(ReviveAll(js).value) && AllToJson(ReviveAll(js).value) == js
    decreases JSizeAll(js)
  {
    if js != [] {
      ReviveExactly(js[0]);
      ReviveAllExactly(js[1..]);
      if ReviveAll(js).Ok? {
        var ps := ReviveAll(js).value;
        assert ps[1..] == ReviveAll(js[1..]).value;
      }
    }
  }

  lemma {:induction false} ReviveObjectExactly(ms: seq<Member>)
    ensures Revive(JObj(ms)).Ok? <==> CallsOnly(JObj(ms))
    ensures Revive(JObj(ms)).Ok? ==> Labelled(Revive(JObj(ms)).value) && ToJson(Revive(JObj(ms)).value) == JObj(ms)
    decreases JSizeMembers(ms) + 1, 0
  {
    MembersCount(ms);
    if |ms| == 1 {
      ReviveExactly(ms[0].value);
      assert ms == [ms[0]];
      OneMember(ms[0]);
    }
  }

  lemma {:induction false} MembersCount(ms: seq<Member>)
    ensures ReviveMembers(ms).Ok? ==> |ReviveMembers(ms).value| == |ms|
  {
    if ms != [] { MembersCount(ms[1..]); }
  }

  // ----- Encoded values are such payloads -----

  lemma {:induction false} EncodedLabelled(t: Tables, v: Value)
    requires Encode(t, v).Ok?
    ensures Labelled(Encode(t, v).value)
    decreases Size(v), 1
  {
    match v {
      case Arr(es, _) => EncodedAllLabelled(t, es);
      case Inst(_, args) => EncodedAllLabelled(t, args);
      case Obj(es, _) => EncodedEntriesLabelled(t, Sort(es));
      case _ =>
    }
  }

  lemma {:induction false} EncodedAllLabelled(t: Tables, vs: seq<Value>)
    requires EncodeAll(t, vs).Ok?
    ensures AllLabelled(EncodeAll(t, vs).value)
    decreases SizeAll(vs)
  {
    if vs != [] {
      EncodedLabelled(t, vs[0]);
      EncodedAllLabelled(t, vs[1..]);
      assert EncodeAll(t, vs).value[1..] == EncodeAll(t, vs[1..]).value;
    }
  }

  lemma {:induction false} EncodedEntriesLabelled(t: Tables, es: seq<Entry>)
    requires EncodeEntries(t, es).Ok?
    ensures AllLabelled(EncodeEntries(t, es).value)
    decreases SizeEntries(es)
  {
    if es != [] {
      EncodedLabelled(t, es[0].value);
      EncodedEntriesLabelled(t, es[1..]);
      var p := Encode(t, es[0].value).value;
      var pair := [PStr(es[0].key), p];
      assert pair[1..] == [p] && [p][1..] == [];
      assert AllLabelled([p]) && AllLabelled(pair);
      assert EncodeEntries(t, es).value[1..] == EncodeEntries(t, es[1..]).value;
    }
  }

  /** Every encoded value survives the way to JSON and back. */
  lemma EncodedSurvives(t: Tables, v: Value)
    requires Encode(t, v).Ok?
    ensures Revive(ToJson(Encode(t, v).value)) == Encode(t, v)
  {
    EncodedLabelled(t, v);
    ReviveUndoes(Encode(t, v).value);
  }

  /** `encodeJson()`, up to the text. */
  function EncodeJson(t: Tables, v: Value): Result<Json, Error> {
    match Encode(t, v) case Err(e) => Err(e) case Ok(p) => Ok(ToJson(p))
  }

  /** `decodeJson()`, from the parsed text on. */
  function DecodeJson(t: Tables, j: Json): Result<Value, Error> {
    match Revive(j) case Err(e) => Err(e) case Ok(p) => Decode(t, p)
  }

  /** What is written as JSON is read back, with sorted keys, exactly when it does not bind `__proto__`; and equal
      values, and only these, are written alike. */
  lemma JsonRoundTrip(t: Tables, v: Value, w: Value)
    requires CodecLaws.Good(t) && WellFormed(v) && WellFormed(w) && EncodeJson(t, v).Ok?
    ensures DecodeJson(t, EncodeJson(t, v).value) == Ok(Norm(v)) <==> CodecLaws.NoProto(v)
    ensures EncodeJson(t, v) == EncodeJson(t, w) <==> Same(v, w)
  {
    EncodedSurvives(t, v);
    CodecLaws.RoundTripExactly(t, v);
    CodecLaws.Canonical(t, v, w);
    if EncodeJson(t, w).Ok? { EncodedSurvives(t, w); }
  }
}
