/** Encoding values into payload trees, and decoding them again, by way of a registry. */
module Codec {
  import opened Wrappers
  import opened CodecValues
  import opened CodecRegistry

  /** Encoded data. A constructor call carries a tag and arguments; plain objects have no place at this level. */
  datatype Payload =
    | PNull
    | PBool(b: bool)
    | PNum(n: int)
    | PStr(s: string)
    | PArr(elems: seq<Payload>)
    | PCall(tag: string, args: seq<Payload>)
    | PObject

  function PSize(p: Payload): nat {
    match p
    case PArr(ps) => 1 + PSizeAll(ps)
    case PCall(_, ps) => 1 + PSizeAll(ps)
    case _ => 1
  }

  function PSizeAll(ps: seq<Payload>): nat {
    if ps == [] then 0 else 1 + PSize(ps[0]) + PSizeAll(ps[1..])
  }

  // ----- Tags -----

  predicate LabelStart(c: char) {
    c == '-' || c == '.' || c == '_' || 'a' <= c <= 'z' || 'A' <= c <= 'Z'
  }

  /** The syntax of the names of constructor calls. */
  predicate IsLabel(s: string) {
    s != "" && LabelStart(s[0]) && forall i :: 1 <= i < |s| ==> LabelStart(s[i]) || '0' <= s[i] <= '9'
  }

  predicate Digit(c: char) {
    '0' <= c <= '9'
  }

  predicate Letter(c: char) {
    'a' <= c <= 'z' || 'A' <= c <= 'Z'
  }

  /** Labels are like identifiers, except that dashes and dots may occur anywhere. */
  lemma LabelExactly(s: string)
    ensures IsLabel(s) <==>
      s != "" && !Digit(s[0]) && forall c <- s :: Letter(c) || Digit(c) || c in "_-."
  {
    forall i | 0 <= i < |s| ensures s[i] in s {}
    if s != "" { assert forall c :: LabelStart(c) <==> Letter(c) || c in "_-."; }
  }

  function TypeFromTag(tag: string): Option<string> {
    if TYPE_PREFIX <= tag then Some(tag[|TYPE_PREFIX|..]) else None
  }

  function TypeOfPayload(p: Payload): string {
    match p
    case PNull => "null"
    case PBool(_) => "boolean"
    case PNum(_) => "number"
    case PStr(_) => "string"
    case PArr(_) => "array"
    case PCall(_, _) => "instance"
    case PObject => "object"
  }

  /** `tagFromPayload()`. */
  function TagFromPayload(p: Payload): Option<string> {
    match p
    case PObject => None
    case PCall(tag, _) => Some(tag)
    case _ => Some(TagFromType(TypeOfPayload(p)))
  }

  /** `codecForPayload()`. */
  function CodecForPayload(t: Tables, p: Payload): Result<ItemCodec, Error> {
    match TagFromPayload(p)
    case None => Err(BadPayload)
    case Some(tag) => if tag in t.tagToCodec then Ok(t.tagToCodec[tag]) else Err(NoCodec)
  }

  // ----- Encoding -----

  /** The check and wrapping of an encoding result: a codec with a type for its tag gives that type of payload,
      and any other codec gives arguments, which are wrapped with its tag. */
  function Wrap(c: ItemCodec, raw: Payload): Result<Payload, Error> {
    match TypeFromTag(c.tag)
    case Some(name) => if TypeOfPayload(raw) == name then Ok(raw) else Err(BadResult)
    case None => if raw.PArr? && IsLabel(c.tag) then Ok(PCall(c.tag, raw.elems)) else Err(BadResult)
  }

  /** `encodeData()`. */
  function Encode(t: Tables, v: Value): Result<Payload, Error>
    decreases Size(v)
  {
    match CodecForValue(t, v)
    case Err(e) => Err(e)
    case Ok(c) =>
      match EncodeRaw(t, v)
      case Err(e) => Err(e)
      case Ok(raw) => Wrap(c, raw)
  }

  /** What the coding functions make of a value of their kind. */
  function EncodeRaw(t: Tables, v: Value): Result<Payload, Error>
    decreases Size(v), 0
  {
    match v
    case Null => Ok(PNull)
    case Bool(b) => Ok(PBool(b))
    case Num(n) => Ok(PNum(n))
    case Str(s) => Ok(PStr(s))
    case Arr(es, _) => AsArray(EncodeAll(t, es))
    case Obj(es, _) => AsArray(EncodeEntries(t, Sort(es)))
    case Inst(_, args) => AsArray(EncodeAll(t, args))
    case Other(_) => Err(BadResult)
  }

  function AsArray(r: Result<seq<Payload>, Error>): Result<Payload, Error> {
    match r case Err(e) => Err(e) case Ok(ps) => Ok(PArr(ps))
  }

  function EncodeAll(t: Tables, vs: seq<Value>): Result<seq<Payload>, Error>
    decreases SizeAll(vs)
  {
    if vs == [] then Ok([])
    else match Encode(t, vs[0])
      case Err(e) => Err(e)
      case Ok(p) => match EncodeAll(t, vs[1..]) case Err(e) => Err(e) case Ok(ps) => Ok([p] + ps)
  }

  function EncodeEntries(t: Tables, es: seq<Entry>): Result<seq<Payload>, Error>
    decreases SizeEntries(es)
  {
    if es == [] then Ok([])
    else match Encode(t, es[0].value)
      case Err(e) => Err(e)
      case Ok(p) =>
        match EncodeEntries(t, es[1..])
        case Err(e) => Err(e)
        case Ok(ps) => Ok([PArr([PStr(es[0].key), p])] + ps)
  }

  // ----- Decoding -----

  const PROTO: string := "__proto__"

  /** `object[key] = value` on an object that is still plain: the key `__proto__` is special. A scalar bound to
      it is ignored, and anything else becomes the prototype, so that the object is not plain any more. */
  function Assign(es: seq<Entry>, key: string, value: Value): Option<seq<Entry>> {
    if key != PROTO then Some(SetKey(es, key, value))
    else if value.Bool? || value.Num? || value.Str? then Some(es)
    else None
  }

  function SetKey(es: seq<Entry>, key: string, value: Value): seq<Entry> {
    if es == [] then [Entry(key, value)]
    else if es[0].key == key then [Entry(key, value)] + es[1..]
    else [es[0]] + SetKey(es[1..], key, value)
  }

  /** `decodeData()`. The result has to be something that the codec could have encoded. */
  function Decode(t: Tables, p: Payload): (r: Result<Value, Error>)
    ensures r.Ok? ==> CodecForPayload(t, p).Ok? && CodecForPayload(t, p).value.CanEncode(r.value)
    decreases PSize(p), 2
  {
    match CodecForPayload(t, p)
    case Err(e) => Err(e)
    case Ok(c) =>
      match DecodeRaw(t, p, c.kind)
      case Err(e) => Err(e)
      case Ok(v) => if c.CanEncode(v) then Ok(v) else Err(BadResult)
  }

  /** What the coding functions of a kind make of a payload. */
  function DecodeRaw(t: Tables, p: Payload, kind: Kind): Result<Value, Error>
    decreases PSize(p), 1
  {
    match p
    case PNull => Ok(Null)
    case PBool(b) => Ok(Bool(b))
    case PNum(n) => Ok(Num(n))
    case PStr(s) => Ok(Str(s))
    case PObject => Err(BadPayload)
    case PArr(ps) => DecodeArgs(t, ps, kind)
    case PCall(_, ps) => DecodeArgs(t, ps, kind)
  }

  function DecodeArgs(t: Tables, ps: seq<Payload>, kind: Kind): Result<Value, Error>
    decreases PSizeAll(ps), 1
  {
    if kind == OfType("object") then
      match DecodePairs(t, ps, []) case Err(e) => Err(e) case Ok(es) => Ok(Obj(es, true))
    else if kind.OfClass? || kind == OfType("array") then
      match DecodeAll(t, ps)
      case Err(e) => Err(e)
      case Ok(vs) => Ok(if kind.OfClass? then Inst(kind.cls, vs) else Arr(vs, true))
    else
      Err(BadResult)
  }

  function DecodeAll(t: Tables, ps: seq<Payload>): Result<seq<Value>, Error>
    decreases PSizeAll(ps), 0
  {
    if ps == [] then Ok([])
    else match Decode(t, ps[0])
      case Err(e) => Err(e)
      case Ok(v) => match DecodeAll(t, ps[1..]) case Err(e) => Err(e) case Ok(vs) => Ok([v] + vs)
  }

  /** The loop over the pairs of an encoded object, which assigns them one after the other. */
  function DecodePairs(t: Tables, ps: seq<Payload>, result: seq<Entry>): Result<seq<Entry>, Error>
    decreases PSizeAll(ps), 0
  {
    if ps == [] then Ok(result)
    else
      match PairOf(ps[0])
      case None => Err(BadPayload)
      case Some((key, p)) =>
        match Decode(t, p)
        case Err(e) => Err(e)
        case Ok(v) =>
          match Assign(result, key, v)
          case None => Err(BadResult)
          case Some(r) => DecodePairs(t, ps[1..], r)
  }

  function PairOf(p: Payload): (r: Option<(string, Payload)>)
    ensures r.Some? ==> PSize(r.value.1) < PSize(p)
  {
    if p.PArr? && |p.elems| >= 2 && p.elems[0].PStr? then
      assert p.elems[1..][0] == p.elems[1];
      assert PSizeAll(p.elems) == 1 + PSize(p.elems[0]) + PSizeAll(p.elems[1..]);
      assert PSizeAll(p.elems[1..]) >= 1 + PSize(p.elems[1..][0]);
      Some((p.elems[0].s, p.elems[1]))
    else None
  }
}
