/** Runs of the server of a body in which what one would like to hold does not: an update that is answered with an
    empty correction that is wrong, which can happen to exactly those changes that insert nothing; and two runs that
    end with a revision that has no contents, in the second of which all clients leave the final newline alone. */
module ServerBodyRuns {
  import opened Wrappers
  import opened Part
  import opened ChangeLog
  import opened ServerSteps
  import opened ServerSafety
  import opened ServerRuns
  import opened BodyFirstContents
  import BodyDelta
  import BodyNewline
  import BodyPart
  import BodyTransform
  import ServerParts

  type Body = BodyPart.Body

  type Delta = BodyDelta.Delta

  lemma TwoChangesFold(text: Delta, base: Body, first: Delta, current: Body)
    requires BodyPart.BodyApply([], text) == Some(base) && BodyPart.BodyApply(base, first) == Some(current)
    ensures Fold(BodyPart.Ops(), [[]]) == Some([])
    ensures Fold(BodyPart.Ops(), [[], text]) == Some(base)
    ensures Fold(BodyPart.Ops(), [[], text, first]) == Some(current)
  {
    var none: Delta := [];
    FoldMore(BodyPart.Ops(), [], none);
    FoldMore(BodyPart.Ops(), [none], text);
    FoldMore(BodyPart.Ops(), [none, text], first);
    assert [] + [none] == [none] && [none] + [text] == [none, text] && [none, text] + [first] == [none, text, first];
  }

  /** One more change of a body, as given. */
  lemma Next(s: Server<Body, Delta>, u: nat, d: Delta, current: Body, after: Body) returns (s': Server<Body, Delta>)
    requires Reachable(BodyPart.ThePart(), s) && u !in s.updates && d != []
    requires Fold(BodyPart.Ops(), s.log) == Some(current) && BodyPart.BodyApply(current, d) == Some(after)
    ensures Reachable(BodyPart.ThePart(), s') && Grown(s, s', u, Request(s.file.partRev, d), d)
  {
    BodyPart.PartLawful();
    hide Reachable, Fold, EmptyLaw, DiffLaw, Grown, BodyPart.BodyApply;
    s' := AppendUnopposed(BodyPart.ThePart(), s, u, d);
  }

  /** A server whose log is an initial text and one change to it. */
  lemma TwoChanges(text: Delta, base: Body, first: Delta, current: Body) returns (s: Server<Body, Delta>)
    requires text != [] && first != []
    requires BodyPart.BodyApply([], text) == Some(base) && BodyPart.BodyApply(base, first) == Some(current)
    ensures Reachable(BodyPart.ThePart(), s) && s.log == [[], text, first] && s.file.partRev == 2
    ensures s.updates.Keys == {0, 1} && s.updates[0].request == Request(0, text)
    ensures s.updates[1].request == Request(1, first)
    ensures At(BodyPart.Ops(), s.log, 1) == Some(base) && Fold(BodyPart.Ops(), s.log) == Some(current)
    ensures BodyPart.ThePart().ops == BodyPart.Ops()
  {
    hide Fold, Reachable, BodyPart.BodyApply;
    TwoChangesFold(text, base, first, current);
    var s0 := Initial();
    var s1 := Next(s0, 0, text, [], base);
    assert s1.log == [[], text];
    s := Next(s1, 1, first, base, current);
    assert s.log == [[], text, first] && s.log[..2] == [[], text];
  }

  lemma Initial() returns (s: Server<Body, Delta>)
    ensures Reachable(BodyPart.ThePart(), s) && s.log == [[]] && s.updates == map[] && s.file.partRev == 0
  {
    s := Server(File(0, 0, map[0 := []], None), map[], [[]], [None], 0, map[], map[]);
    ReachableInit(BodyPart.ThePart(), s);
  }

  /** An update of a body that has started against revision 1, when the current revision is 2. */
  ghost predicate Second(s: Server<Body, Delta>, base: Body, first: Delta, current: Body, second: Delta, expected: Body,
      rebased: Delta) {
    && |s.log| == 3 && s.log[2] == first
    && 2 in s.updates && s.updates[2] == Update(Request(1, second), Start)
    && At(BodyPart.Ops(), s.log, 1) == Some(base) && Fold(BodyPart.Ops(), s.log) == Some(current)
    && BodyPart.BodyApply(base, second) == Some(expected)
    && BodyPart.Rebased(second, [first]) == Some(rebased)
  }

  lemma SecondReads(s: Server<Body, Delta>, base: Body, first: Delta, current: Body, second: Delta, expected: Body,
      rebased: Delta)
    requires Inv(BodyPart.ThePart(), s) && Second(s, base, first, current, second, expected, rebased)
    ensures var p := BodyPart.ThePart();
      && CanRead(p, s, 1) && CanRead(p, s, 2) && s.file.partRev == 2 && s.log[2..3] == [first] && !p.ephemeral
      && Expects(p, s.log, Request(1, second), expected) && p.rebases(second, expected, s.log[2..3], current, rebased)
      && Fold(p.ops, s.log) == Some(current)
  {
    var p := BodyPart.ThePart();
    hide Fold, CanRead, Inv, BodyPart.BodyApply, BodyPart.Rebased;
    assert s.log[..3] == s.log && s.log[2..3] == [first];
    DurableReads(p, s, 1);
    DurableReads(p, s, 2);
    ReadsRight(p, s, 2);
  }

  /** Its steps up to the rebased form. */
  lemma SecondSteps(s: Server<Body, Delta>, base: Body, first: Delta, current: Body, second: Delta, expected: Body,
      rebased: Delta)
    requires Inv(BodyPart.ThePart(), s) && Second(s, base, first, current, second, expected, rebased)
    ensures var p, s1, s2 := BodyPart.ThePart(), s.At(2, Ready(expected)), s.At(2, Current(expected, 2, current));
      && Step(p, s, s1, ReadBase(2)) && Step(p, s1, s2, ReadCurrent(2))
      && Step(p, s2, s.At(2, Attempt(p, expected, 2, rebased, false)), Rebase(2))
  {
    BodyPart.PartLawful();
    SecondReads(s, base, first, current, second, expected, rebased);
    assert s.updates[2] == Update(Request(1, second), Start) && |s.log| == 3;
    hide Second, BodyPart.ThePart, Attempt, EmptyLaw, DiffLaw, Expects, Fold, CanRead, Inv, Step;
    RebasedSteps(BodyPart.ThePart(), s, 2, expected, 2, current, rebased);
  }

  /** The update of a second change made against the initial text, up to its rebased form. */
  lemma SecondChange(s: Server<Body, Delta>, base: Body, first: Delta, current: Body, second: Delta, expected: Body,
      rebased: Delta)
      returns (s': Server<Body, Delta>)
    requires var p := BodyPart.ThePart();
      && Reachable(p, s) && |s.log| == 3 && s.log[2] == first && 2 !in s.updates
      && At(p.ops, s.log, 1) == Some(base) && Fold(p.ops, s.log) == Some(current)
    requires BodyPart.BodyApply(base, second) == Some(expected)
    requires BodyPart.Rebased(second, [first]) == Some(rebased)
    ensures var p := BodyPart.ThePart();
      && Reachable(p, s') && s'.log == s.log && s'.file == s.file
      && 2 in s'.updates && s'.updates[2] == Update(Request(1, second), Attempt(p, expected, 2, rebased, false))
  {
    var p := BodyPart.ThePart();
    BodyPart.PartLawful();
    Started(p, s, 2, Request(1, second));
    var s0 := s.(updates := s.updates[2 := Update(Request(1, second), Start)]);
    assert Second(s0, base, first, current, second, expected, rebased);
    hide Second, BodyPart.ThePart, Attempt, EmptyLaw, DiffLaw, Fold, Inv, Step, Reachable, BodyPart.BodyApply,
      BodyPart.Rebased;
    ReachableInv(p, s0);
    SecondSteps(s0, base, first, current, second, expected, rebased);
    ReachableStep(p, s0, s0.At(2, Ready(expected)), ReadBase(2));
    ReachableStep(p, s0.At(2, Ready(expected)), s0.At(2, Current(expected, 2, current)), ReadCurrent(2));
    s' := s0.At(2, Attempt(p, expected, 2, rebased, false));
    ReachableStep(p, s0.At(2, Current(expected, 2, current)), s', Rebase(2));
  }

  /** A reply to update `u`, which has sent this change against this body, is wrong and empty. */
  ghost predicate WrongEmptyReply(s: Server<Body, Delta>, u: nat, base: Body, change: Delta) {
    && Reachable(BodyPart.ThePart(), s) && u in s.updates
    && s.updates[u].request.base < |s.log| && At(BodyPart.Ops(), s.log, s.updates[u].request.base) == Some(base)
    && s.updates[u].request.delta == change
    && s.updates[u].phase.Done? && !s.updates[u].phase.appended
    && !Right(BodyPart.ThePart(), s.log, s.updates[u].phase.expected, s.updates[u].phase.reply)
  }

  /** Whatever a change deletes, if it inserts nothing there is a run in which its update returns an empty correction
      although the client does not expect the contents at the revision of the reply. */
  lemma DeletionCanGoWrong(base: Body, change: Delta, expected: Body) returns (s: Server<Body, Delta>)
    requires BodyPart.BodyApply(base, change) == Some(expected) && change != [] && BodyTransform.NoInserts(change)
    ensures WrongEmptyReply(s, 2, base, change)
  {
    var first: Delta := [BodyDelta.Text("\n")] + change;
    var current: Body := [BodyDelta.Char('\n')] + expected;
    BodyPart.DeletionVanishes(base, change, expected);
    BodyPart.InsertApply(base);
    DeletesSomething(base, change);
    hide BodyPart.BodyApply, BodyPart.Rebased, Fold, Reachable, BodyTransform.NoInserts;
    var s2 := TwoChanges(BodyPart.Inserts(base), base, first, current);
    s := SecondChange(s2, base, first, current, change, expected, []);
    WrongReply(s.log, expected, current);
    NothingLeft(expected);
    assert s.log[..2] == s2.log[..2];
  }

  lemma NothingLeft(expected: Body)
    ensures Attempt(BodyPart.ThePart(), expected, 2, [], false) == Done(expected, Change(2, []), false)
    ensures BodyPart.ThePart().ops == BodyPart.Ops()
  {
  }

  /** For example, a run in which a client has deleted an element that had been replaced. */
  lemma EmptyReplyCanBeWrong() returns (s: Server<Body, Delta>)
    ensures WrongEmptyReply(s, 2, [BodyDelta.Char('x'), BodyDelta.Char('\n')], [BodyDelta.Delete(1)])
  {
    var base: Body, change: Delta := [BodyDelta.Char('x'), BodyDelta.Char('\n')], [BodyDelta.Delete(1)];
    BodyPart.RebaseCanVanish();
    hide WrongEmptyReply;
    s := DeletionCanGoWrong(base, change, [BodyDelta.Char('\n')]);
  }

  lemma DeletesSomething(base: Body, change: Delta)
    requires BodyPart.BodyApply(base, change).Some? && change != [] && BodyTransform.NoInserts(change)
    ensures base != [] && BodyPart.Inserts(base) != []
  {
    assert change[0] in change;
  }

  lemma WrongReply(log: seq<Delta>, expected: Body, current: Body)
    requires |log| == 3 && Fold(BodyPart.Ops(), log) == Some(current) && expected != current
    ensures !Right(BodyPart.ThePart(), log, expected, Change(2, []))
  {
    BodyPart.PartLawful();
    assert log[..3] == log;
    assert BodyPart.Ops().apply(expected, BodyPart.Ops().nothing) == Some(expected);
  }

  lemma WrongInsertsNothing(s: Server<Body, Delta>, u: nat, base: Body, change: Delta)
    requires WrongEmptyReply(s, u, base, change)
    ensures BodyTransform.NoInserts(change)
  {
    var p := BodyPart.ThePart();
    var trace :| Run(p, trace) && trace[|trace| - 1] == s;
    hide Run, ServerParts.EmptyReplyCase;
    ServerParts.BodyEmptyReply(trace, |trace| - 1, u);
    ServerParts.EmptyReplyMeans(s.log, s.updates[u].request, s.updates[u].phase.expected,
      s.updates[u].phase.reply.revNum);
  }

  /** A valid change of a body can be answered with an empty correction that is wrong, in some run, exactly if it
      inserts nothing. So that is what a client can go by. */
  lemma CanGoWrongExactly(base: Body, change: Delta)
    requires BodyPart.BodyApply(base, change).Some? && change != []
    ensures (exists s, u :: WrongEmptyReply(s, u, base, change)) <==> BodyTransform.NoInserts(change)
  {
    hide WrongEmptyReply;
    if BodyTransform.NoInserts(change) {
      var s := DeletionCanGoWrong(base, change, BodyPart.BodyApply(base, change).value);
      assert WrongEmptyReply(s, 2, base, change);
    }
    forall s, u | WrongEmptyReply(s, u, base, change) ensures BodyTransform.NoInserts(change) {
      WrongInsertsNothing(s, u, base, change);
    }
  }

  // ----- Bodies without a final newline -----

  /** There is a run that ends with a body log whose last revision has no contents. */
  lemma RebasedBodyCanBreakLog() returns (s: Server<Body, Delta>)
    ensures var p := BodyPart.ThePart(); Reachable(p, s) && Fold(p.ops, s.log).None?
  {
    var base: Body := [BodyDelta.Char('x'), BodyDelta.Char('\n'), BodyDelta.Char('\n')];
    var first: Delta, second: Delta :=
      [BodyDelta.Retain(2), BodyDelta.Delete(1)], [BodyDelta.Retain(1), BodyDelta.Delete(1)];
    var current: Body := [BodyDelta.Char('x'), BodyDelta.Char('\n')];
    BodyPart.RebaseCanBreakBody();
    BodyPart.InsertApply(base);
    s := BrokenRun(base, first, current, second);
  }

  lemma BrokenRun(base: Body, first: Delta, current: Body, second: Delta) returns (s: Server<Body, Delta>)
    requires base != [] && first != [] && second != []
    requires BodyPart.BodyApply([], BodyPart.Inserts(base)) == Some(base)
    requires BodyPart.BodyApply(base, first) == BodyPart.BodyApply(base, second) == Some(current)
    requires BodyPart.Rebased(second, [first]) == Some(second) && BodyPart.BodyApply(current, second) == None
    ensures var p := BodyPart.ThePart(); Reachable(p, s) && Fold(p.ops, s.log).None?
  {
    BodyPart.PartLawful();
    hide Fold, Reachable, EmptyLaw, DiffLaw, BodyPart.BodyApply, BodyPart.Rebased;
    var s2 := TwoChanges(BodyPart.Inserts(base), base, first, current);
    assert s2.log[2..] == [first];
    s := AppendRebased(BodyPart.ThePart(), s2, 2, Request(1, second), current, second);
    FoldMore(BodyPart.Ops(), s2.log, second);
  }

  /** Every client's change leaves alone the final newline of the body that it was made against, if there is one. */
  ghost predicate AllTame(s: Server<Body, Delta>) {
    forall u :: u in s.updates ==>
      var request := s.updates[u].request;
      && request.base < |s.log| && At(BodyPart.Ops(), s.log, request.base).Some?
      && BodyNewline.Tame(At(BodyPart.Ops(), s.log, request.base).value, request.delta)
  }

  lemma FoldFour(a: Delta, b: Delta, c: Delta, x: Body, y: Body, z: Body)
    requires BodyPart.BodyApply([], a) == Some(x) && BodyPart.BodyApply(x, b) == Some(y)
    requires BodyPart.BodyApply(y, c) == Some(z)
    ensures Fold(BodyPart.Ops(), [[]]) == Some([]) && Fold(BodyPart.Ops(), [[], a]) == Some(x)
    ensures Fold(BodyPart.Ops(), [[], a, b]) == Some(y) && Fold(BodyPart.Ops(), [[], a, b, c]) == Some(z)
  {
    TwoChangesFold(a, x, b, y);
    hide Fold, BodyPart.BodyApply;
    FoldMore(BodyPart.Ops(), [[], a, b], c);
    assert [[], a, b] + [c] == [[], a, b, c];
  }

  lemma BreaksSomething(d: Delta)
    requires BodyPart.BodyApply(CUT, d) == None
    ensures d != []
  {
  }

  /** The requests of that run. */
  lemma TameRequests(s: Server<Body, Delta>, first: Delta, other: Delta, moved: Delta, cut: Delta, typed: Delta,
      last: Delta)
    requires s.log == [[], first, moved, cut, last] && s.updates.Keys == {0, 1, 2, 3}
    requires s.updates[0].request == Request(0, first) && s.updates[1].request == Request(0, other)
    requires s.updates[2].request == Request(2, cut) && s.updates[3].request == Request(1, typed)
    requires Fold(BodyPart.Ops(), [[]]) == Some([]) && Fold(BodyPart.Ops(), [[], first]) == Some(FIRST)
    requires Fold(BodyPart.Ops(), [[], first, moved]) == Some(BOTH)
    requires BodyNewline.Tame(BOTH, cut) && BodyNewline.Tame(FIRST, typed)
    ensures AllTame(s)
  {
    hide Fold;
    assert s.log[..1] == [[]] && s.log[..2] == [[], first] && s.log[..3] == [[], first, moved];
    assert forall u :: u in s.updates ==> u == 0 || u == 1 || u == 2 || u == 3;
  }

  /** Even if every client leaves the final newline alone, a run may end with a revision without contents, when first
      contents have been rebased over first contents. */
  lemma FirstContentsCanBreakLog() returns (s: Server<Body, Delta>)
    ensures Reachable(BodyPart.ThePart(), s) && AllTame(s) && Fold(BodyPart.Ops(), s.log).None?
  {
    var first: Delta, other: Delta := [BodyDelta.Text("a\n")], [BodyDelta.Text("b\n")];
    var moved: Delta := [BodyDelta.Retain(2)] + other;
    var cut: Delta := [BodyDelta.Retain(1)] + [BodyDelta.Delete(1)];
    var typed: Delta := [BodyDelta.Retain(1)] + [BodyDelta.Text("y")];
    FirstContentsBreak();
    hide BodyPart.Rebased, BodyPart.BodyApply, BodyNewline.Tame;
    s := FirstContentsRun(first, other, moved, cut, typed, BodyPart.BodyApply(FIRST, typed).value);
  }

  /** One more change of a body, rebased. */
  lemma NextRebased(s: Server<Body, Delta>, u: nat, request: Request<Delta>, base: Body, e: Body, current: Body,
      d: Delta)
      returns (s': Server<Body, Delta>)
    requires Reachable(BodyPart.ThePart(), s) && u !in s.updates && d != [] && request.base + 1 < |s.log|
    requires At(BodyPart.Ops(), s.log, request.base) == Some(base) && BodyPart.BodyApply(base, request.delta) == Some(e)
    requires Fold(BodyPart.Ops(), s.log) == Some(current)
    requires BodyPart.Rebased(request.delta, s.log[request.base + 1..]) == Some(d)
    ensures Reachable(BodyPart.ThePart(), s') && Grown(s, s', u, request, d)
  {
    BodyPart.PartLawful();
    hide Reachable, Fold, EmptyLaw, DiffLaw, Grown, BodyPart.BodyApply, BodyPart.Rebased;
    s' := AppendRebased(BodyPart.ThePart(), s, u, request, e, d);
  }

  lemma FirstTwo(first: Delta, other: Delta, moved: Delta) returns (s: Server<Body, Delta>)
    requires first != [] && moved != []
    requires BodyPart.BodyApply([], first) == Some(FIRST) && BodyPart.BodyApply([], other) == Some(OTHER)
    requires BodyPart.Rebased(other, [first]) == Some(moved) && BodyPart.BodyApply(FIRST, moved) == Some(BOTH)
    ensures Reachable(BodyPart.ThePart(), s) && s.log == [[], first, moved] && s.updates.Keys == {0, 1}
    ensures s.updates[0].request == Request(0, first) && s.updates[1].request == Request(0, other)
    ensures s.file.partRev == 2
  {
    hide Fold, Reachable, BodyPart.BodyApply, BodyPart.Rebased, BodyPart.ThePart;
    TwoChangesFold(first, FIRST, moved, BOTH);
    var s0 := Initial();
    var s1 := Next(s0, 0, first, [], FIRST);
    assert s1.log == [[], first] && s1.log[..1] == [[]] && s1.log[1..] == [first];
    s := NextRebased(s1, 1, Request(0, other), [], OTHER, FIRST, moved);
    assert s.log == [[], first, moved];
  }

  lemma FirstContentsRun(first: Delta, other: Delta, moved: Delta, cut: Delta, typed: Delta, e: Body)
      returns (s: Server<Body, Delta>)
    requires first != [] && moved != [] && cut != [] && typed != []
    requires BodyPart.BodyApply([], first) == Some(FIRST) && BodyPart.BodyApply([], other) == Some(OTHER)
    requires BodyPart.Rebased(other, [first]) == Some(moved) && BodyPart.BodyApply(FIRST, moved) == Some(BOTH)
    requires BodyPart.BodyApply(BOTH, cut) == Some(CUT) && BodyNewline.Tame(BOTH, cut)
    requires BodyPart.BodyApply(FIRST, typed) == Some(e) && BodyNewline.Tame(FIRST, typed)
    requires BodyPart.Rebased(typed, [moved, cut]).Some?
    requires BodyPart.BodyApply(CUT, BodyPart.Rebased(typed, [moved, cut]).value) == None
    ensures Reachable(BodyPart.ThePart(), s) && AllTame(s) && Fold(BodyPart.Ops(), s.log).None?
  {
    hide Fold, Reachable, BodyPart.BodyApply, BodyPart.Rebased, BodyNewline.Tame, BodyPart.ThePart, AllTame;
    var last := BodyPart.Rebased(typed, [moved, cut]).value;
    BreaksSomething(last);
    FoldFour(first, moved, cut, FIRST, BOTH, CUT);
    var s2 := FirstTwo(first, other, moved);
    var s3 := Next(s2, 2, cut, BOTH, CUT);
    assert s3.log == [[], first, moved, cut] && s3.log[..2] == [[], first] && s3.log[2..] == [moved, cut];
    s := NextRebased(s3, 3, Request(1, typed), FIRST, e, CUT, last);
    FoldMore(BodyPart.Ops(), s3.log, last);
    TameRequests(s, first, other, moved, cut, typed, last);
  }
}
