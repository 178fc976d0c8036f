/** Item codecs, and the registry that finds them by value and by tag. */
module CodecRegistry {
  import opened Wrappers
  import opened CodecValues

  /** What a codec is for: exact instances of a class, or values of a type that is not a class. */
  datatype Kind = OfClass(cls: string) | OfType(name: string)

  /** The kind of a value: its class, or the name that `typeOf()` gives to its type. */
  function KindOf(v: Value): Kind {
    match v
    case Null => OfType("null")
    case Bool(_) => OfType("boolean")
    case Num(_) => OfType("number")
    case Str(_) => OfType("string")
    case Arr(_, _) => OfType("array")
    case Obj(_, _) => OfType("object")
    case Inst(cls, _) => OfClass(cls)
    case Other(Undefined) => OfType("undefined")
    case Other(Function) => OfType("function")
    case Other(Symbol) => OfType("symbol")
  }

  /** An item codec. How it codes follows from its kind: scalars stand for themselves, arrays and the arguments
      of class instances are coded element by element, and plain objects as sorted pairs. */
  datatype ItemCodec = ItemCodec(tag: string, kind: Kind, accepts: Option<Value -> bool>) {
    predicate CanEncode(v: Value) {
      KindOf(v) == kind && (accepts.Some? ==> accepts.value(v))
    }
  }

  datatype Error =
    | Frozen
    | DuplicateTag
    | NoCodec
    | NoApplicableCodec
    | MultipleApplicableCodecs
    | BadPayload
    | BadResult

  /** The three maps of a registry. */
  datatype Tables = Tables(
    tagToCodec: map<string, ItemCodec>,
    classToCodecs: map<string, seq<ItemCodec>>,
    typeToCodecs: map<string, seq<ItemCodec>>)

  function Listed(t: Tables, kind: Kind): seq<ItemCodec> {
    match kind
    case OfClass(cls) => if cls in t.classToCodecs then t.classToCodecs[cls] else []
    case OfType(name) => if name in t.typeToCodecs then t.typeToCodecs[name] else []
  }

  /** A codec added to the tables. */
  function WithCodec(t: Tables, c: ItemCodec): Tables {
    var tags := t.tagToCodec[c.tag := c];
    match c.kind
    case OfClass(cls) => t.(tagToCodec := tags, classToCodecs := t.classToCodecs[cls := Listed(t, c.kind) + [c]])
    case OfType(name) => t.(tagToCodec := tags, typeToCodecs := t.typeToCodecs[name := Listed(t, c.kind) + [c]])
  }

  /** What registrations keep: codecs are under their own tags, and a codec that is listed for a kind is of that
      kind and is the one under its tag. */
  ghost predicate TablesOk(t: Tables) {
    && (forall tag :: tag in t.tagToCodec ==> t.tagToCodec[tag].tag == tag)
    && (forall kind, i :: 0 <= i < |Listed(t, kind)| ==>
          var c := Listed(t, kind)[i]; c.kind == kind && c.tag in t.tagToCodec && t.tagToCodec[c.tag] == c)
    && (forall kind, i, j :: 0 <= i < j < |Listed(t, kind)| ==> Listed(t, kind)[i].tag != Listed(t, kind)[j].tag)
  }

  lemma WithCodecListed(t: Tables, c: ItemCodec, kind: Kind)
    ensures Listed(WithCodec(t, c), kind) == if kind == c.kind then Listed(t, kind) + [c] else Listed(t, kind)
    ensures WithCodec(t, c).tagToCodec == t.tagToCodec[c.tag := c]
  {
  }

  lemma WithCodecOk(t: Tables, c: ItemCodec)
    requires TablesOk(t) && c.tag !in t.tagToCodec
    ensures TablesOk(WithCodec(t, c))
  {
    hide Listed, WithCodec;
    var r := WithCodec(t, c);
    WithCodecListed(t, c, c.kind);
    forall kind, i | 0 <= i < |Listed(r, kind)|
      ensures var d := Listed(r, kind)[i]; d.kind == kind && d.tag in r.tagToCodec && r.tagToCodec[d.tag] == d
    {
      WithCodecListed(t, c, kind);
      if i < |Listed(t, kind)| { assert Listed(t, kind)[i].kind == kind; }
    }
    forall kind, i, j | 0 <= i < j < |Listed(r, kind)| ensures Listed(r, kind)[i].tag != Listed(r, kind)[j].tag {
      WithCodecListed(t, c, kind);
      assert Listed(t, kind)[i].kind == kind;
      if j < |Listed(t, kind)| { assert Listed(t, kind)[i].tag != Listed(t, kind)[j].tag; }
    }
  }

  // ----- Looking codecs up -----

  function Applicable(codecs: seq<ItemCodec>, v: Value): seq<ItemCodec> {
    if codecs == [] then []
    else
      var c := codecs[|codecs| - 1];
      Applicable(codecs[..|codecs| - 1], v) + if c.CanEncode(v) then [c] else []
  }

  /** The only applicable codec for a value. */
  function CodecForValue(t: Tables, v: Value): Result<ItemCodec, Error> {
    var codecs := Listed(t, KindOf(v));
    var applicable := Applicable(codecs, v);
    if codecs == [] then Err(NoCodec)
    else if |applicable| == 0 then Err(NoApplicableCodec)
    else if |applicable| == 1 then Ok(applicable[0])
    else Err(MultipleApplicableCodecs)
  }

  lemma {:induction false} ApplicableIn(codecs: seq<ItemCodec>, v: Value)
    ensures forall c :: c in Applicable(codecs, v) <==> c in codecs && c.CanEncode(v)
  {
    if codecs != [] {
      ApplicableIn(codecs[..|codecs| - 1], v);
      assert codecs == codecs[..|codecs| - 1] + [codecs[|codecs| - 1]];
    }
  }

  /** The codec found for a value can encode it, is the only one that can, and is the one under its tag. */
  lemma FoundForValue(t: Tables, v: Value)
    requires TablesOk(t) && CodecForValue(t, v).Ok?
    ensures var c := CodecForValue(t, v).value;
      && c.CanEncode(v) && c.tag in t.tagToCodec && t.tagToCodec[c.tag] == c
      && forall d <- Listed(t, KindOf(v)) :: d.CanEncode(v) ==> d == c
  {
    var codecs := Listed(t, KindOf(v));
    ApplicableIn(codecs, v);
    var c := CodecForValue(t, v).value;
    assert Applicable(codecs, v) == [c] && c in Applicable(codecs, v);
    var i :| 0 <= i < |codecs| && codecs[i] == c;
  }

  // ----- The registry -----

  const TYPE_PREFIX: string := "type:"

  function TagFromType(name: string): string {
    TYPE_PREFIX + name
  }

  predicate RegularArray(v: Value) {
    v.Arr? && v.regular
  }

  predicate PlainObject(v: Value) {
    v.Obj? && v.regular
  }

  function SelfRepresentative(name: string): ItemCodec {
    ItemCodec(TagFromType(name), OfType(name), None)
  }

  /** The special codecs, in the order in which they are registered. */
  function Specials(): seq<ItemCodec> {
    [ItemCodec(TagFromType("array"), OfType("array"), Some(v => RegularArray(v))),
     ItemCodec("buf", OfClass("FrozenBuffer"), None),
     ItemCodec("f", OfClass("Functor"), None),
     ItemCodec("object", OfType("object"), Some(v => PlainObject(v))),
     SelfRepresentative("boolean"),
     SelfRepresentative("null"),
     SelfRepresentative("number"),
     SelfRepresentative("string")]
  }

  /** The tables after some registrations. */
  function Registered(codecs: seq<ItemCodec>): Tables {
    if codecs == [] then Tables(map[], map[], map[])
    else WithCodec(Registered(codecs[..|codecs| - 1]), codecs[|codecs| - 1])
  }

  predicate DistinctTags(codecs: seq<ItemCodec>) {
    forall i, j :: 0 <= i < j < |codecs| ==> codecs[i].tag != codecs[j].tag
  }

  /** Registering codecs with different tags gives good tables, with exactly these tags. */
  lemma {:induction false} RegisteredOk(codecs: seq<ItemCodec>)
    requires DistinctTags(codecs)
    ensures TablesOk(Registered(codecs))
    ensures forall tag :: tag in Registered(codecs).tagToCodec <==>
      exists k :: 0 <= k < |codecs| && codecs[k].tag == tag
  {
    if codecs != [] {
      var front := codecs[..|codecs| - 1];
      assert forall k :: 0 <= k < |front| ==> front[k] == codecs[k];
      RegisteredOk(front);
      WithCodecOk(Registered(front), codecs[|codecs| - 1]);
    }
  }

  lemma SpecialsDistinct()
    ensures DistinctTags(Specials())
  {
    var s := Specials();
    assert s[0].tag[5] == 'a' && s[4].tag[5] == 'b' && s[5].tag[5] == 'n' && s[6].tag[5] == 'n' && s[7].tag[5] == 's';
    assert s[5].tag[7] == 'l' && s[6].tag[7] == 'm';
    assert |s[1].tag| == 3 && |s[2].tag| == 1 && |s[3].tag| == 6 && s[3].tag[0] == 'o';
  }

  lemma NextTagFresh(codecs: seq<ItemCodec>, i: nat)
    requires DistinctTags(codecs) && i < |codecs|
    ensures codecs[i].tag !in Registered(codecs[..i]).tagToCodec && TablesOk(Registered(codecs[..i]))
    ensures codecs[..i + 1][..i] == codecs[..i]
  {
    RegisteredOk(codecs[..i]);
  }

  class Registry {
    var frozen: bool
    var tagToCodec: map<string, ItemCodec>
    var classToCodecs: map<string, seq<ItemCodec>>
    var typeToCodecs: map<string, seq<ItemCodec>>

    ghost function View(): Tables
      reads this
    {
      Tables(tagToCodec, classToCodecs, typeToCodecs)
    }

    constructor ()
      ensures !frozen && View() == Registered(Specials()) && TablesOk(View())
    {
      frozen := false;
      tagToCodec, classToCodecs, typeToCodecs := map[], map[], map[];
      new;
      SpecialsDistinct();
      RegisterAll(Specials());
    }

    /** The registrations of the constructor. */
    method RegisterAll(codecs: seq<ItemCodec>)
      requires !frozen && View() == Registered([]) && DistinctTags(codecs)
      modifies this
      ensures !frozen && View() == Registered(codecs) && TablesOk(View())
    {
      for i := 0 to |codecs|
        invariant !frozen && View() == Registered(codecs[..i])
      {
        NextTagFresh(codecs, i);
        var r := RegisterCodec(codecs[i]);
      }
      assert codecs[..|codecs|] == codecs;
      RegisteredOk(codecs);
    }

    method Freeze()
      modifies this`frozen
      ensures frozen
    {
      frozen := true;
    }

    /** `registerCodec()`: not when frozen, and no tag twice. */
    method RegisterCodec(c: ItemCodec) returns (r: Result<(), Error>)
      modifies this
      ensures frozen == old(frozen)
      ensures old(frozen) ==> r == Err(Frozen)
      ensures !old(frozen) && c.tag in old(tagToCodec) ==> r == Err(DuplicateTag)
      ensures r.Ok? <==> !old(frozen) && c.tag !in old(tagToCodec)
      ensures View() == if r.Ok? then WithCodec(old(View()), c) else old(View())
      ensures old(TablesOk(View())) ==> TablesOk(View())
    {
      if frozen {
        return Err(Frozen);
      }
      if c.tag in tagToCodec {
        return Err(DuplicateTag);
      }
      ghost var before := View();
      tagToCodec := tagToCodec[c.tag := c];
      match c.kind {
        case OfClass(cls) =>
          var codecs := if cls in classToCodecs then classToCodecs[cls] else [];
          classToCodecs := classToCodecs[cls := codecs + [c]];
        case OfType(name) =>
          var codecs := if name in typeToCodecs then typeToCodecs[name] else [];
          typeToCodecs := typeToCodecs[name := codecs + [c]];
      }
      if TablesOk(before) { WithCodecOk(before, c); }
      return Ok(());
    }

    /** `codecForValue()`. */
    method FindForValue(v: Value) returns (r: Result<ItemCodec, Error>)
      ensures r == CodecForValue(View(), v)
    {
      var codecs := match KindOf(v)
        case OfClass(cls) => if cls in classToCodecs then classToCodecs[cls] else []
        case OfType(name) => if name in typeToCodecs then typeToCodecs[name] else [];
      if codecs == [] {
        return Err(NoCodec);
      }
      var applicable := [];
      for i := 0 to |codecs|
        invariant applicable == Applicable(codecs[..i], v)
      {
        assert codecs[..i + 1][..i] == codecs[..i];
        if codecs[i].CanEncode(v) {
          applicable := applicable + [codecs[i]];
        }
      }
      assert codecs[..|codecs|] == codecs;
      if |applicable| == 0 {
        return Err(NoApplicableCodec);
      } else if |applicable| == 1 {
        return Ok(applicable[0]);
      } else {
        return Err(MultipleApplicableCodecs);
      }
    }
  }
}
