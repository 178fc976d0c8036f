/** Document-body operations and deltas. Attributes are left out. */
module BodyDelta {
  import opened Wrappers

  /** One element of a document body: a character or an embed. */
  datatype Elem = Char(c: char) | Item(kind: string, value: int)

  type Count = n: int | n >= 1 witness 1

  type NonEmpty = s: string | s != "" witness " "

  datatype BodyOp =
    | Delete(count: Count)
    | Embed(kind: string, value: int)
    | Retain(count: Count)
    | Text(text: NonEmpty)
  {
    predicate IsInsert() {
      Text? || Embed?
    }

    function Length(): Count {
      match this
      case Delete(n) => n
      case Retain(n) => n
      case Embed(_, _) => 1
      case Text(t) => |t|
    }

    /** The elements that this operation inserts. */
    function Inserted(): seq<Elem> {
      match this
      case Text(t) => seq(|t|, i requires 0 <= i < |t| => Char(t[i]))
      case Embed(k, v) => [Item(k, v)]
      case _ => []
    }

    /** How many elements of the old body this operation consumes. */
    function Consumed(): nat {
      if IsInsert() then 0 else Length()
    }
  }

  type Delta = seq<BodyOp>

  function Take(op: BodyOp, k: nat): (r: BodyOp)
    requires 1 <= k <= op.Length()
    ensures r.Length() == k
  {
    match op
    case Delete(_) => Delete(k)
    case Retain(_) => Retain(k)
    case Embed(_, _) => op
    case Text(t) => Text(t[..k])
  }

  function Drop(op: BodyOp, k: nat): (r: BodyOp)
    requires 1 <= k < op.Length()
    ensures r.Length() == op.Length() - k
  {
    match op
    case Delete(n) => Delete(n - k)
    case Retain(n) => Retain(n - k)
    case Text(t) => Text(t[k..])
  }

  /** The delta without the first `k` units of its first operation. */
  function DropHead(d: Delta, k: nat): (r: Delta)
    requires d != [] && 1 <= k <= d[0].Length()
    ensures Size(r) == Size(d) - k
  {
    if k == d[0].Length() then d[1..] else [Drop(d[0], k)] + d[1..]
  }

  /** Total length of all operations. */
  function Size(d: Delta): nat {
    if d == [] then 0 else d[0].Length() + Size(d[1..])
  }

  /** How many elements of the old body the delta mentions explicitly. */
  function Span(d: Delta): nat {
    if d == [] then 0 else d[0].Consumed() + Span(d[1..])
  }

  /** The effect of a delta on a body. What comes after the delta's span is kept. */
  function Apply(doc: seq<Elem>, d: Delta): seq<Elem>
    requires Span(d) <= |doc|
    decreases |d|
  {
    if d == [] then doc
    else match d[0]
      case Retain(n) => doc[..n] + Apply(doc[n..], d[1..])
      case Delete(n) => Apply(doc[n..], d[1..])
      case _ => d[0].Inserted() + Apply(doc, d[1..])
  }

  /** Puts an operation in front of a delta, merging it into its new neighbour where possible.
      A deletion moves behind the insertions next to it. */
  function Front(op: BodyOp, d: Delta): Delta
    decreases |d|
  {
    if d == [] then [op]
    else if op.Text? && d[0].Text? then [Text(op.text + d[0].text)] + d[1..]
    else if op.Retain? && d[0].Retain? then [Retain(op.count + d[0].count)] + d[1..]
    else if op.Delete? && d[0].Delete? then [Delete(op.count + d[0].count)] + d[1..]
    else if op.Delete? && d[0].IsInsert() then [d[0]] + Front(op, d[1..])
    else [op] + d
  }

  /** The delta with its neighbouring operations merged. */
  function Tidy(d: Delta): Delta {
    if d == [] then [] else Front(d[0], Tidy(d[1..]))
  }

  /** The delta without a final retain, which would have no effect. */
  function Chop(d: Delta): Delta {
    if d == [] || (|d| == 1 && d[0].Retain?) then [] else [d[0]] + Chop(d[1..])
  }

  /** Composition, operation by operation, before merging. */
  function Zip(a: Delta, b: Delta): Delta
    decreases Size(a) + Size(b), |a| + |b|
  {
    if a == [] then b
    else if b == [] then a
    else if b[0].IsInsert() then [b[0]] + Zip(a, b[1..])
    else if a[0].Delete? then [a[0]] + Zip(a[1..], b)
    else
      var k := if a[0].Length() <= b[0].Length() then a[0].Length() else b[0].Length();
      var rest := Zip(DropHead(a, k), DropHead(b, k));
      if b[0].Retain? then [Take(a[0], k)] + rest
      else if a[0].Retain? then [Take(b[0], k)] + rest
      else rest
  }

  /** `compose(other, false)`. */
  function Compose(a: Delta, b: Delta): Delta {
    Tidy(Zip(a, b))
  }

  /** Transformation of `b` with respect to `a`, before merging. */
  function Shift(a: Delta, b: Delta, aIsFirst: bool): Delta
    decreases Size(a) + Size(b), |a| + |b|
  {
    if a == [] then b
    else if b == [] then []
    else if a[0].IsInsert() && (aIsFirst || !b[0].IsInsert()) then
      [Retain(a[0].Length())] + Shift(a[1..], b, aIsFirst)
    else if b[0].IsInsert() then [b[0]] + Shift(a, b[1..], aIsFirst)
    else
      var k := if a[0].Length() <= b[0].Length() then a[0].Length() else b[0].Length();
      var rest := Shift(DropHead(a, k), DropHead(b, k), aIsFirst);
      if a[0].Delete? then rest else [Take(b[0], k)] + rest
  }

  /** `a.transform(b, aIsFirst)`. */
  function Transform(a: Delta, b: Delta, aIsFirst: bool): Delta {
    Chop(Tidy(Shift(a, b, aIsFirst)))
  }

  /** Whether body contents are those of a document: empty, or ending with a newline. */
  predicate IsBody(doc: seq<Elem>) {
    doc == [] || doc[|doc| - 1] == Char('\n')
  }

  /** `isDocument()`: no operations, or only insertions, the last being text that ends with a newline. */
  predicate IsDocument(d: Delta) {
    d != [] ==>
      var last := d[|d| - 1];
      && last.Text? && last.text[|last.text| - 1] == '\n'
      && forall op <- d :: op.IsInsert()
  }

  /** `compose(other, true)`: fails unless the result is again a document. */
  function ComposeDocument(doc: Delta, other: Delta): Option<Delta> {
    var r := Compose(doc, other);
    if IsDocument(r) then Some(r) else None
  }
}
