/** The body as a document part, and what rebasing makes of it. */
module BodyPart {
  import opened Wrappers
  import opened Part
  import opened BodyDelta
  import opened BodyLaws
  import opened BodyTransform
  import BodyDocument

  type Body = s: seq<Elem> | IsBody(s) witness []

  /** A delta is valid for a body when it stays within it and leaves a body. */
  function BodyApply(s: Body, d: Delta): Option<Body> {
    if Span(d) <= |s| && IsBody(Apply(s, d)) then Some(Apply(s, d)) else None
  }

  function ContentsOf(d: Delta): Body {
    BodyDocument.DocumentExactly(d);
    if IsDocument(d) then BodyDocument.Contents(d) else []
  }

  function Ops(): Algebra<Body, Delta> {
    Algebra([], [],
            (s, d) => BodyApply(s, d),
            (a, b, wantDocument) => Compose(a, b),
            d => IsDocument(d),
            d => ContentsOf(d))
  }

  lemma ComposeOne(s: Body, a: Delta, b: Delta)
    requires BodyApply(s, a).Some? && BodyApply(BodyApply(s, a).value, b).Some?
    ensures BodyApply(s, Compose(a, b)) == BodyApply(BodyApply(s, a).value, b)
  {
    ComposeCorrect(s, a, b);
  }

  lemma DocumentOne(d: Delta, e: Delta)
    requires IsDocument(d)
    ensures var r := Compose(d, e);
      && (IsDocument(r) <==> BodyApply(ContentsOf(d), e).Some?)
      && (IsDocument(r) ==> BodyApply(ContentsOf(d), e) == Some(ContentsOf(r)))
  {
    BodyDocument.ComposeDocumentExactly(d, e);
  }

  lemma OpsLawful()
    ensures Lawful(Ops())
  {
    var p := Ops();
    assert EmptyLaw(p);
    assert ComposeLaw(p) by {
      forall s: Body, a, b | BodyApply(s, a).Some? && BodyApply(BodyApply(s, a).value, b).Some?
        ensures BodyApply(s, Compose(a, b)) == BodyApply(BodyApply(s, a).value, b)
      {
        ComposeOne(s, a, b);
      }
    }
    assert DocumentLaw(p) by {
      forall d, e | IsDocument(d) ensures var r := Compose(d, e);
        && (IsDocument(r) <==> BodyApply(ContentsOf(d), e).Some?)
        && (IsDocument(r) ==> BodyApply(ContentsOf(d), e) == Some(ContentsOf(r)))
      {
        DocumentOne(d, e);
      }
    }
  }

  // ----- The part -----

  /** All that is known of a difference is what `diff()` promises: composed with the older body it gives the newer. */
  predicate Diffs(s: Body, t: Body, d: Delta) {
    BodyApply(s, d) == Some(t)
  }

  /** There always is a difference: at worst, remove everything and insert everything. */
  lemma DiffExists(s: Body, t: Body)
    ensures exists d :: Diffs(s, t, d)
  {
    var cut: Delta := if s == [] then [] else [Delete(|s|)];
    var d := Inserts(t) + cut;
    assert Span(cut) == |s| && Apply(s, cut) == [];
    InsertsApply(s, t, cut);
    assert t + [] == t;
    assert Diffs(s, t, d);
  }

  function InsertOf(e: Elem): (op: BodyOp)
    ensures op.IsInsert() && op.Inserted() == [e]
  {
    match e case Char(c) => Text([c]) case Item(k, v) => Embed(k, v)
  }

  function Inserts(t: seq<Elem>): Delta {
    if t == [] then [] else [InsertOf(t[0])] + Inserts(t[1..])
  }

  /** One more insertion in front. */
  lemma InsertMore(s: seq<Elem>, e: Elem, t: seq<Elem>, d: Delta, rest: Delta)
    requires Span(d) == Span(rest) <= |s| && Apply(s, d) == t + Apply(s, rest)
    ensures Span([InsertOf(e)] + d) == Span(rest)
    ensures Apply(s, [InsertOf(e)] + d) == ([e] + t) + Apply(s, rest)
  {
    hide Apply;
    var op := InsertOf(e);
    ApplyCons(s, op, d);
    Whole(s);
    Assoc([e], t, Apply(s, rest));
  }

  lemma {:induction false} InsertsApply(s: seq<Elem>, t: seq<Elem>, rest: Delta)
    requires Span(rest) <= |s|
    ensures Span(Inserts(t) + rest) == Span(rest)
    ensures Apply(s, Inserts(t) + rest) == t + Apply(s, rest)
  {
    hide Apply, Span;
    if t == [] {
      Whole(rest);
      Whole(Apply(s, rest));
    } else {
      InsertsApply(s, t[1..], rest);
      InsertMore(s, t[0], t[1..], Inserts(t[1..]) + rest, rest);
      Assoc([InsertOf(t[0])], Inserts(t[1..]), rest);
      assert [t[0]] + t[1..] == t;
    }
  }

  lemma InsertApply(t: Body)
    ensures BodyApply([], Inserts(t)) == Some(t)
  {
    InsertsApply([], t, []);
    assert Inserts(t) + [] == Inserts(t) && t + [] == t;
  }

  /** `_impl_rebase()`: transform the change over the composition of what happened since, which came first. */
  function Rebased(change: Delta, since: seq<Delta>): Option<Delta> {
    var server := ComposeAll(Ops(), [], since, false);
    if server.None? then None else Some(Transform(server.value, change, true))
  }

  predicate Rebases(change: Delta, expected: Body, since: seq<Delta>, current: Body, d: Delta) {
    Some(d) == Rebased(change, since)
  }

  ghost function ThePart(): Part<Body, Delta> {
    Part(Ops(), Diffs, Rebases, false)
  }

  lemma PartLawful()
    ensures Lawful(ThePart().ops) && DiffLaw(ThePart())
  {
    OpsLawful();
  }

  lemma DiffsAlways()
    ensures DiffsExist(ThePart())
  {
    forall s, t ensures HasDiff(ThePart(), s, t) {
      DiffExists(s, t);
      var d :| Diffs(s, t, d);
      assert ThePart().diffs(s, t, d);
    }
  }

  lemma SinceComposed(base: Body, since: seq<Delta>)
    requires ApplyAll(Ops(), base, since).Some?
    ensures var server := ComposeAll(Ops(), [], since, false);
      server.Some? && BodyApply(base, server.value) == ApplyAll(Ops(), base, since)
  {
    var p := Ops();
    OpsLawful();
    assert p.apply(base, []) == Some(base);
    ComposeAllChanges(p, base, [], since);
  }

  /** A rebased change always fits the current body, and makes it the merge of the two concurrent changes, in
      which the server's insertions come first. It is valid exactly when that merge is a body. */
  lemma RebaseIsMerge(base: Body, change: Delta, expected: Body, since: seq<Delta>, current: Body)
    requires BodyApply(base, change) == Some(expected)
    requires ApplyAll(Ops(), base, since) == Some(current)
    ensures ComposeAll(Ops(), [], since, false).Some? && Rebased(change, since).Some?
    ensures var d, merge := Rebased(change, since).value,
                            Weave(base, ComposeAll(Ops(), [], since, false).value, change, true);
      && Span(d) <= |current| && Apply(current, d) == merge
      && (BodyApply(current, d).Some? <==> IsBody(merge))
  {
    SinceComposed(base, since);
    TransformIsWeave(base, ComposeAll(Ops(), [], since, false).value, change, true);
  }

  /** A rebased change is valid exactly when the last that survives of the base and of both sides' insertions is a
      newline: at its place, that is the old element if both sides keep it, or else the end of what the client
      inserts, or else of what the server does. */
  lemma RebaseValidExactly(base: Body, change: Delta, expected: Body, since: seq<Delta>, current: Body)
    requires BodyApply(base, change) == Some(expected)
    requires ApplyAll(Ops(), base, since) == Some(current)
    ensures var server := ComposeAll(Ops(), [], since, false);
      && server.Some? && Rebased(change, since).Some?
      && (BodyApply(current, Rebased(change, since).value).Some? <==>
            forall i :: LastPlace(base, server.value, change, true, i) ==>
              LastAt(base, server.value, change, i) == Char('\n'))
  {
    hide Transform, Weave, Apply, ComposeAll, ApplyAll, Here, LastPlace, LastAt;
    RebaseIsMerge(base, change, expected, since, current);
    MergeIsBodyExactly(base, ComposeAll(Ops(), [], since, false).value, change);
  }

  /** Nothing is left of a change exactly when it inserts nothing, and deletes only what has been deleted since;
      the merge is then the current body. */
  lemma RebaseVanishes(base: Body, change: Delta, expected: Body, since: seq<Delta>, current: Body)
    requires BodyApply(base, change) == Some(expected)
    requires ApplyAll(Ops(), base, since) == Some(current)
    ensures var server := ComposeAll(Ops(), [], since, false);
      && server.Some?
      && (Rebased(change, since) == Some([]) <==> NoInserts(change) && KeepsWhat(server.value, change))
      && (Rebased(change, since) == Some([]) ==> Weave(base, server.value, change, true) == current)
  {
    SinceComposed(base, since);
    VanishesExactly(ComposeAll(Ops(), [], since, false).value, change, true);
    RebaseIsMerge(base, change, expected, since, current);
  }

  /** When nothing is left of a change, its client expects the current body exactly when the server's changes,
      transformed over the client's, leave alone what the client expects. If the server has only deleted, that is
      when both have deleted the same. */
  lemma VanishedIsExpected(base: Body, change: Delta, expected: Body, since: seq<Delta>, current: Body)
    requires BodyApply(base, change) == Some(expected)
    requires ApplyAll(Ops(), base, since) == Some(current) && Rebased(change, since) == Some([])
    ensures var server := ComposeAll(Ops(), [], since, false).value;
      && Span(Transform(change, server, false)) <= |expected|
      && (current == expected <==> Apply(expected, Transform(change, server, false)) == expected)
      && (NoInserts(server) ==> (current == expected <==> KeepsWhat(change, server)))
  {
    RebaseVanishes(base, change, expected, since, current);
    SinceComposed(base, since);
    var server := ComposeAll(Ops(), [], since, false).value;
    hide Transform, Weave, Apply, KeepsWhat, ComposeAll, ApplyAll;
    Diamond(base, change, server, false);
    NothingKeeps(current);
    if NoInserts(server) { UnmovedExactly(base, change, server, false); }
  }

  // ----- Two rebases that go wrong -----

  lemma RebasedOverOne(change: Delta, first: Delta)
    requires Tidy(first) == first
    ensures Rebased(change, [first]) == Some(Transform(first, change, true))
  {
    var p, since := Ops(), [first];
    assert since[..0] == [];
    assert ComposeAll(p, [], since[..0], false) == Some([]);
    assert p.compose([], first, false) == Compose([], first) == first;
  }

  lemma BreakingShift()
    ensures var first: Delta, second: Delta := [Retain(2), Delete(1)], [Retain(1), Delete(1)];
      Tidy(first) == first && Tidy(second) == second && Transform(first, second, true) == second
  {
    var first: Delta, second: Delta := [Retain(2), Delete(1)], [Retain(1), Delete(1)];
    var cut: Delta := [Delete(1)];
    assert first[1..] == cut && second[1..] == cut && cut[1..] == [];
    assert Tidy(cut) == cut;
    assert DropHead(first, 1) == second && DropHead(second, 1) == cut && DropHead(cut, 1) == [];
    assert Shift(cut, [], true) == [];
    assert Take(cut[0], 1) == Delete(1);
    assert Shift(second, cut, true) == cut + Shift(cut, [], true);
    assert Shift(first, second, true) == second;
    assert Chop(cut) == cut;
  }

  /** Of two final newlines, one change deletes the second and a concurrent one the first. Both are valid, but
      the rebased change deletes the only newline that is left. */
  lemma RebaseCanBreakBody()
    ensures var base: Body, first: Delta, second: Delta :=
              [Char('x'), Char('\n'), Char('\n')], [Retain(2), Delete(1)], [Retain(1), Delete(1)];
      && BodyApply(base, first) == BodyApply(base, second) == Some([Char('x'), Char('\n')])
      && Rebased(second, [first]) == Some(second)
      && BodyApply([Char('x'), Char('\n')], second) == None
  {
    var base: Body := [Char('x'), Char('\n'), Char('\n')];
    var first: Delta, second: Delta := [Retain(2), Delete(1)], [Retain(1), Delete(1)];
    BreakingShift();
    RebasedOverOne(second, first);
    KeepThenCut(base, 2);
    KeepThenCut(base, 1);
    KeepThenCut([Char('x'), Char('\n')], 1);
    assert base[..2] + base[3..] == base[..1] + base[2..] == [Char('x'), Char('\n')];
  }

  lemma KeepThenCut(s: seq<Elem>, n: Count)
    requires n + 1 <= |s|
    ensures var d: Delta := [Retain(n), Delete(1)]; Span(d) == n + 1 && Apply(s, d) == s[..n] + s[n + 1..]
  {
    var d: Delta, cut: Delta := [Retain(n), Delete(1)], [Delete(1)];
    assert d[1..] == cut && cut[1..] == [];
    assert s[n..][1..] == s[n + 1..];
    assert Apply(s[n..], cut) == s[n + 1..];
  }

  /** For every change that inserts nothing there is a concurrent one after which nothing is left of it, though the
      client does not expect the current body: delete the same and insert something. */
  lemma DeletionVanishes(base: Body, change: Delta, expected: Body)
    requires BodyApply(base, change) == Some(expected) && NoInserts(change)
    ensures var first: Delta, current: Body := [Text("\n")] + change, [Char('\n')] + expected;
      && BodyApply(base, first) == Some(current) && Rebased(change, [first]) == Some([])
  {
    var first: Delta, current: Body := [Text("\n")] + change, [Char('\n')] + expected;
    hide Apply, Span, Tidy, Transform, ApplyAll, ComposeAll, KeepsWhat, Rebased;
    assert Text("\n").Inserted() == [Char('\n')];
    ApplyCons(base, Text("\n"), change);
    Whole(base);
    OneChange(base, first, current);
    RebaseVanishes(base, change, expected, [first], current);
    InsertKeepsWhat(Text("\n"), change);
  }

  lemma InsertKeepsWhat(op: BodyOp, change: Delta)
    requires op.IsInsert()
    ensures KeepsWhat(Tidy([op] + change), change)
  {
    hide Keeps, Tidy;
    forall i: nat | Keeps(Tidy([op] + change), i) ensures Keeps(change, i) {
      TidyKeeps([op] + change, i);
      KeepsCons(op, change, i);
    }
  }

  lemma OneChange(base: Body, first: Delta, current: Body)
    requires BodyApply(base, first) == Some(current)
    ensures ApplyAll(Ops(), base, [first]) == Some(current)
    ensures ComposeAll(Ops(), [], [first], false) == Some(Tidy(first))
  {
    var since := [first];
    assert since[..0] == [];
    assert ComposeAll(Ops(), [], since[..0], false) == Some([]);
    assert Zip([], first) == first;
  }

  /** When a concurrent change has replaced what a change deletes, the rebased change is empty, although the
      client does not expect the current body. */
  lemma RebaseCanVanish()
    ensures var base: Body, first: Delta, second: Delta :=
              [Char('x'), Char('\n')], [Text("z"), Delete(1)], [Delete(1)];
      && BodyApply(base, first) == Some([Char('z'), Char('\n')])
      && BodyApply(base, second) == Some([Char('\n')])
      && Rebased(second, [first]) == Some([])
  {
    var base: Body := [Char('x'), Char('\n')];
    var first: Delta, second: Delta := [Text("z"), Delete(1)], [Delete(1)];
    RebasedOverOne(second, first);
    assert first[1..] == second && second[1..] == [];
    assert Apply(base, second) == [Char('\n')];
    assert Apply(base, first) == first[0].Inserted() + [Char('\n')] == [Char('z'), Char('\n')];
  }
}
