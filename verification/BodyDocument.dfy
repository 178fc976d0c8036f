/** Body documents: when a change may be composed onto a document, and what the result then is. */
module BodyDocument {
  import opened Wrappers
  import opened BodyDelta
  import opened BodyLaws

  predicate OnlyInserts(d: Delta) {
    forall op <- d :: op.IsInsert()
  }

  /** The body that a document delta stands for. */
  function Contents(d: Delta): seq<Elem>
    requires Span(d) == 0
  {
    Apply([], d)
  }

  lemma {:induction false} InsertsHaveNoSpan(d: Delta)
    ensures OnlyInserts(d) <==> Span(d) == 0
  {
    if d != [] {
      InsertsHaveNoSpan(d[1..]);
      assert d == [d[0]] + d[1..];
    }
  }

  lemma {:induction false} LastInsert(d: Delta)
    requires OnlyInserts(d) && d != [] && Span(d) == 0
    ensures var body := Contents(d); var ins := d[|d| - 1].Inserted();
      |body| >= |ins| >= 1 && body[|body| - 1] == ins[|ins| - 1]
  {
    ApplyHead([], d);
    hide Apply;
    if |d| > 1 {
      assert OnlyInserts(d[1..]);
      InsertsHaveNoSpan(d[1..]);
      LastInsert(d[1..]);
      var none: seq<Elem> := [];
      assert none[0..] == none;
    }
  }

  /** The last operation of a delta that only inserts decides about its final newline. */
  lemma LastNewline(d: Delta)
    requires OnlyInserts(d) && d != [] && Span(d) == 0
    ensures IsBody(Contents(d)) <==> d[|d| - 1].Text? && d[|d| - 1].text[|d[|d| - 1].text| - 1] == '\n'
  {
    LastInsert(d);
    assert d[|d| - 1] in d;
  }

  /** `isDocument()` looks at operations; it holds exactly when they only insert and the result is a proper body. */
  lemma DocumentExactly(d: Delta)
    ensures IsDocument(d) <==> Span(d) == 0 && IsBody(Contents(d))
  {
    InsertsHaveNoSpan(d);
    if d != [] {
      if OnlyInserts(d) { LastNewline(d); }
    }
  }

  /** Composing onto a document leaves over whatever reaches beyond its end. */
  lemma {:induction false} ZipSpan(d: Delta, e: Delta)
    requires OnlyInserts(d) && Span(d) == 0
    ensures Span(Zip(d, e)) + |Contents(d)| >= Span(e)
    decreases Size(d) + Size(e), |d| + |e|
  {
    if d != [] && e != [] {
      if e[0].IsInsert() {
        ZipSpan(d, e[1..]);
      } else {
        var k: Count := if d[0].Length() <= e[0].Length() then d[0].Length() else e[0].Length();
        var d', e' := DropHead(d, k), DropHead(e, k);
        assert OnlyInserts(d') by { if k < d[0].Length() { assert d' == [Drop(d[0], k)] + d[1..]; } }
        InsertsHaveNoSpan(d');
        ApplySplit([], d, k);
        var none: seq<Elem> := [];
        assert none[0..] == none;
        assert |Contents(d)| == k + |Contents(d')|;
        ZipSpan(d', e');
      }
    }
  }

  lemma TidySpan(d: Delta)
    ensures Span(Tidy(d)) == Span(d)
  {
    TidySame(seq(Span(d), _ => Char(' ')), d);
  }

  /** `compose(other, true)` succeeds exactly when `other` stays within the document and leaves a proper body,
      and it then produces a document for that body. */
  lemma ComposeDocumentExactly(doc: Delta, other: Delta)
    requires IsDocument(doc)
    ensures Span(doc) == 0
    ensures ComposeDocument(doc, other).Some? <==>
      Span(other) <= |Contents(doc)| && IsBody(Apply(Contents(doc), other))
    ensures ComposeDocument(doc, other).Some? ==>
      var r := ComposeDocument(doc, other).value;
      IsDocument(r) && Span(r) == 0 && Contents(r) == Apply(Contents(doc), other)
  {
    DocumentExactly(doc);
    InsertsHaveNoSpan(doc);
    var r := Compose(doc, other);
    DocumentExactly(r);
    if Span(other) <= |Contents(doc)| {
      ComposeCorrect([], doc, other);
    } else {
      ZipSpan(doc, other);
      TidySpan(Zip(doc, other));
    }
  }
}
