/** Why rebasing over the first contents of an empty body is left out where the final newline matters: two first
    contents end up one behind the other, and what was typed in front of a newline between them may come to be last
    when that newline is deleted. Composition and transformation are computed here step by step. */
module BodyFirstContents {
  import opened Wrappers
  import opened Part
  import opened BodyDelta
  import opened BodyLaws
  import opened BodyPart
  import opened BodyNewline

  // ----- Single steps of composition and transformation -----

  lemma HeadTail(op: BodyOp, d: Delta)
    ensures ([op] + d)[0] == op && ([op] + d)[1..] == d && [op] + d != []
  {
  }

  lemma DropOne(d: Delta)
    ensures DropHead([Retain(2)] + d, 1) == [Retain(1)] + d
    ensures DropHead([Retain(1)] + d, 1) == d && DropHead([BodyDelta.Delete(1)] + d, 1) == d
  {
  }

  lemma ZipKeep(a: Delta, b: Delta)
    ensures Zip([Retain(2)] + a, [Retain(1)] + b) == [Retain(1)] + Zip([Retain(1)] + a, b)
  {
    hide Tidy, Apply, Span;
    HeadTail(Retain(2), a);
    HeadTail(Retain(1), b);
    DropOne(a);
    DropOne(b);
  }

  lemma ZipCut(a: Delta)
    requires a != []
    ensures Zip([Retain(1)] + a, [BodyDelta.Delete(1)]) == [BodyDelta.Delete(1)] + a
  {
    var b: Delta := [BodyDelta.Delete(1)];
    HeadTail(Retain(1), a);
    DropOne(a);
    assert DropHead(b, 1) == [];
    assert Zip(a, []) == a;
  }

  lemma ShiftKeepBoth(a: Delta, b: Delta)
    ensures Shift([Retain(1)] + a, [Retain(1)] + b, true) == [Retain(1)] + Shift(a, b, true)
  {
    HeadTail(Retain(1), a);
    HeadTail(Retain(1), b);
    DropOne(a);
    DropOne(b);
  }

  lemma ShiftOver(op: BodyOp, a: Delta, b: Delta)
    requires op.IsInsert() && b != []
    ensures Shift([op] + a, b, true) == [Retain(op.Length())] + Shift(a, b, true)
  {
    HeadTail(op, a);
  }

  lemma ShiftInsert(a: Delta, op: BodyOp)
    requires op.IsInsert() && (a != [] ==> !a[0].IsInsert())
    ensures Shift(a, [op], true) == [op]
  {
    var b: Delta := [op];
    assert b[1..] == [];
  }

  lemma TidyTwo(op: BodyOp, next: BodyOp)
    ensures Tidy([op] + [next]) == Front(op, [next])
  {
    HeadTail(op, [next]);
    var d: Delta := [next];
    assert d[1..] == [] && Tidy(d) == d;
  }

  lemma TidyMore(op: BodyOp, d: Delta)
    ensures Tidy([op] + d) == Front(op, Tidy(d))
  {
    HeadTail(op, d);
  }

  lemma FrontRetain(n: Count, m: Count, d: Delta)
    ensures Front(Retain(n), [Retain(m)] + d) == [Retain(n + m)] + d
  {
    HeadTail(Retain(m), d);
  }

  lemma FrontBehind(n: Count, op: BodyOp)
    requires op.IsInsert()
    ensures Front(BodyDelta.Delete(n), [op]) == [op] + [BodyDelta.Delete(n)]
  {
    var d: Delta := [op];
    assert d[1..] == [];
  }

  lemma FrontApart(n: Count, op: BodyOp, d: Delta)
    requires op.IsInsert()
    ensures Front(Retain(n), [op] + d) == [Retain(n)] + ([op] + d)
  {
    HeadTail(op, d);
  }

  lemma ChopsNothing(n: Count, op: BodyOp)
    requires op.IsInsert()
    ensures Chop([Retain(n)] + [op]) == [Retain(n)] + [op]
  {
    HeadTail(Retain(n), [op]);
    var d: Delta := [op];
    assert d[1..] == [] && Chop(d) == d;
  }

  // ----- Two texts at once, a deletion and an insertion -----

  /** Rebased over the first contents, other first contents come to be behind them. */
  lemma FirstRebased(first: BodyOp, other: BodyOp)
    requires first.IsInsert() && other.IsInsert()
    ensures Rebased([other], [[first]]) == Some([Retain(first.Length())] + [other])
  {
    hide Rebased, Shift, Tidy, Front, Chop, ComposeAll;
    var a: Delta, none: Delta := [first], [];
    TidyOne(first);
    RebasedOverOne([other], a);
    assert a == [first] + none;
    ShiftOver(first, none, [other]);
    ShiftInsert(none, other);
    TidyTwo(Retain(first.Length()), other);
    assert [other] + none == [other];
    FrontApart(first.Length(), other, none);
    ChopsNothing(first.Length(), other);
  }

  lemma TidyOne(op: BodyOp)
    ensures Tidy([op]) == [op]
  {
    var d: Delta := [op];
    assert d[1..] == [];
  }

  /** The deletion of the element in front of a text, composed with what put the text there. */
  lemma CutComposed(text: BodyOp)
    requires text.IsInsert()
    ensures ComposeAll(Ops(), [], [[Retain(2)] + [text], [Retain(1)] + [BodyDelta.Delete(1)]], false) ==
      Some([Retain(1)] + ([text] + [BodyDelta.Delete(1)]))
  {
    var moved: Delta, cut: Delta := [Retain(2)] + [text], [Retain(1)] + [BodyDelta.Delete(1)];
    hide Zip, Tidy, Front;
    MovedTidy(text);
    ComposeTwo(moved, cut);
    ZipKeep([text], [BodyDelta.Delete(1)]);
    ZipCut([text]);
    TidyMore(Retain(1), [BodyDelta.Delete(1)] + [text]);
    TidyTwo(BodyDelta.Delete(1), text);
    FrontBehind(1, text);
    FrontApart(1, text, [BodyDelta.Delete(1)]);
  }

  lemma MovedTidy(text: BodyOp)
    requires text.IsInsert()
    ensures Tidy([Retain(2)] + [text]) == [Retain(2)] + [text]
  {
    hide Tidy, Front;
    var none: Delta := [];
    TidyTwo(Retain(2), text);
    assert [text] + none == [text];
    FrontApart(2, text, none);
  }

  lemma ComposeTwo(a: Delta, b: Delta)
    requires Tidy(a) == a
    ensures ComposeAll(Ops(), [], [a, b], false) == Some(Tidy(Zip(a, b)))
  {
    hide Tidy, Zip;
    var since := [a, b];
    assert since[..1] == [a] && [a][..0] == [];
    assert Ops().compose([], a, false) == Compose([], a) == Tidy(Zip([], a)) == a by { ZipNothing(a); }
    assert ComposeAll(Ops(), [], [a], false) == Some(a);
  }

  lemma ZipNothing(a: Delta)
    ensures Zip([], a) == a
  {
  }

  /** An insertion before that element, rebased over both. */
  lemma TypedRebased(text: BodyOp, typed: BodyOp)
    requires text.IsInsert() && typed.IsInsert()
    ensures Rebased([Retain(1)] + [typed], [[Retain(2)] + [text], [Retain(1)] + [BodyDelta.Delete(1)]]) ==
      Some([Retain(1 + text.Length())] + [typed])
  {
    hide Shift, Tidy, Front, Chop, ComposeAll;
    var n := text.Length();
    CutComposed(text);
    ShiftKeepBoth([text] + [BodyDelta.Delete(1)], [typed]);
    ShiftOver(text, [BodyDelta.Delete(1)], [typed]);
    ShiftInsert([BodyDelta.Delete(1)], typed);
    TidyMore(Retain(1), [Retain(n)] + [typed]);
    TidyTwo(Retain(n), typed);
    var none: Delta := [];
    assert [typed] + none == [typed];
    FrontApart(n, typed, none);
    FrontRetain(1, n, [typed]);
    ChopsNothing(1 + n, typed);
  }

  /** Keeping some elements and then inserting something. */
  lemma KeepThenInsert(s: seq<Elem>, n: Count, op: BodyOp)
    requires n <= |s| && op.IsInsert()
    ensures var d: Delta := [Retain(n)] + [op]; Span(d) == n && Apply(s, d) == s[..n] + op.Inserted() + s[n..]
  {
    hide Apply, Span;
    InsertAlone(s[n..], op);
    ApplyCons(s, Retain(n), [op]);
    assert s[..n] + (op.Inserted() + s[n..]) == s[..n] + op.Inserted() + s[n..];
  }

  lemma InsertAlone(s: seq<Elem>, op: BodyOp)
    requires op.IsInsert()
    ensures Span([op]) == 0 && Apply(s, [op]) == op.Inserted() + s
  {
    var d: Delta := [op];
    assert d[1..] == [];
  }

  const FIRST: Body := [Char('a'), Char('\n')]
  const OTHER: Body := [Char('b'), Char('\n')]
  const BOTH: Body := [Char('a'), Char('\n'), Char('b'), Char('\n')]
  const CUT: Body := [Char('a'), Char('b'), Char('\n')]

  lemma FirstBodies()
    ensures BodyApply([], [Text("a\n")]) == Some(FIRST) && BodyApply([], [Text("b\n")]) == Some(OTHER)
    ensures BodyApply(FIRST, [Retain(2)] + [Text("b\n")]) == Some(BOTH)
  {
    hide Apply, Span;
    InsertAlone([], Text("a\n"));
    InsertAlone([], Text("b\n"));
    assert Text("a\n").Inserted() == FIRST && Text("b\n").Inserted() == OTHER;
    assert FIRST + [] == FIRST && OTHER + [] == OTHER;
    KeepThenInsert(FIRST, 2, Text("b\n"));
    assert FIRST[..2] + OTHER + FIRST[2..] == BOTH;
  }

  lemma CutBodies()
    ensures var cut: Delta := [Retain(1)] + [BodyDelta.Delete(1)]; BodyApply(BOTH, cut) == Some(CUT) && Tame(BOTH, cut)
    ensures var typed: Delta := [Retain(1)] + [Text("y")]; BodyApply(FIRST, typed).Some? && Tame(FIRST, typed)
    ensures BodyApply(CUT, [Retain(3)] + [Text("y")]) == None
  {
    hide Apply, Span;
    KeepThenCut(BOTH, 1);
    assert BOTH[..1] + BOTH[2..] == CUT;
    var cut: Delta := [Retain(1), BodyDelta.Delete(1)];
    assert cut == [Retain(1)] + [BodyDelta.Delete(1)];
    assert Text("y").Inserted() == [Char('y')];
    KeepThenInsert(FIRST, 1, Text("y"));
    assert FIRST[..1] + [Char('y')] + FIRST[1..] == [Char('a'), Char('y'), Char('\n')];
    KeepThenInsert(CUT, 3, Text("y"));
    assert CUT[..3] + [Char('y')] + CUT[3..] == [Char('a'), Char('b'), Char('\n'), Char('y')];
  }

  /** Rebasing over the first contents of an empty body puts text behind a final newline. When that newline is then
      deleted, as it may be, what was typed in front of it comes to be last. Here, every change is valid and tame
      where it was made, and still the last one rebased leaves no body. */
  lemma FirstContentsBreak()
    ensures var first: Delta, other: Delta := [Text("a\n")], [Text("b\n")];
            var moved: Delta, cut: Delta, typed: Delta :=
              [Retain(2)] + other, [Retain(1)] + [BodyDelta.Delete(1)], [Retain(1)] + [Text("y")];
      && BodyApply([], first) == Some(FIRST) && BodyApply([], other) == Some(OTHER)
      && Rebased(other, [first]) == Some(moved) && BodyApply(FIRST, moved) == Some(BOTH)
      && BodyApply(BOTH, cut) == Some(CUT) && Tame(BOTH, cut)
      && BodyApply(FIRST, typed).Some? && Tame(FIRST, typed)
      && Rebased(typed, [moved, cut]).Some? && BodyApply(CUT, Rebased(typed, [moved, cut]).value) == None
  {
    hide Rebased, BodyApply, Span;
    FirstRebased(Text("a\n"), Text("b\n"));
    TypedRebased(Text("b\n"), Text("y"));
    FirstBodies();
    CutBodies();
  }
}
