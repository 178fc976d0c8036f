/** Convergence in terms of what clients send, rather than of what the server answers: when everyone inserts
    something, when everyone leaves the final newline alone, and, for changes that only delete, a run in which two
    quiet clients at the same revision show different bodies. */
module ConvergenceRuns {
  import opened Wrappers
  import opened Part
  import opened BodyDelta
  import opened BodyPart
  import opened ChangeLog
  import opened ServerSteps
  import opened BodyClient
  import opened Convergence
  import opened ServerReads
  import BodyTransform
  import BodyNewline
  import Safety = ServerSafety
  import ServerParts
  import ServerRuns
  import ServerBodyRuns
  import ClientSafety = BodyClientSafety

  // ----- When everyone inserts something -----

  /** Every change that was ever sent inserts something. */
  predicate EveryoneInserts(s: BodyServer) {
    forall u :: u in s.updates ==> !BodyTransform.NoInserts(s.updates[u].request.delta)
  }

  /** Then something is left of every change, and no answer is empty without need. */
  lemma InsertsStay(s: BodyServer)
    requires Safety.Inv(P(), s) && EveryoneInserts(s)
    ensures EmptyRepliesRight(s)
  {
    hide Safety.Inv, ServerParts.EmptyReplyCase;
    forall u | u in s.updates && s.updates[u].phase.Done? && !s.updates[u].phase.appended ensures false {
      Safety.UpdateKnown(P(), s, u);
      var Done(e, reply, _) := s.updates[u].phase;
      VanishedInsertsNothing(s.log, s.updates[u].request, e, reply.revNum);
    }
  }

  lemma VanishedInsertsNothing(log: seq<Delta>, request: Request<Delta>, e: Body, r: nat)
    requires Safety.Expects(P(), log, request, e) && Safety.Vanished(P(), log, request, e, r)
    ensures BodyTransform.NoInserts(request.delta)
  {
    hide Safety.Expects, Safety.Vanished, BodyTransform.KeepsWhat;
    ServerParts.VanishedCase(log, request, e, r);
  }

  lemma {:induction false} InsertingInv(trace: seq<System>, i: nat)
    requires Convergence.Run(trace) && i < |trace|
    requires forall j: nat :: j <= i ==> EveryoneInserts(trace[j].server)
    ensures forall j: nat :: j <= i ==> EmptyRepliesRight(trace[j].server)
  {
    hide Convergence.Run, EveryoneInserts, EmptyRepliesRight;
    if i > 0 { InsertingInv(trace, i - 1); }
    Convergence.RunInv(trace, i);
    InsertsStay(trace[i].server);
  }

  /** If every change that is sent inserts something, then in every run two quiet clients at the same revision show
      the same body, that of the server's log; no other hypothesis is needed. */
  lemma ConvergesWhenInserting(trace: seq<System>, i: nat, k: nat, l: nat)
    requires Convergence.Run(trace) && i < |trace| && k in trace[i].nodes && l in trace[i].nodes
    requires forall j: nat :: j <= i ==> EveryoneInserts(trace[j].server)
    requires Quiet(trace[i].nodes[k].client) && Quiet(trace[i].nodes[l].client)
    requires trace[i].nodes[k].client.revNum == trace[i].nodes[l].client.revNum
    ensures var a, b := trace[i].nodes[k].client, trace[i].nodes[l].client;
      && a.editor == b.editor && a.contents == b.contents
      && a.revNum < |trace[i].server.log| && At(P().ops, trace[i].server.log, a.revNum) == Some(a.editor)
  {
    hide Convergence.Run, EveryoneInserts, EmptyRepliesRight, Quiet;
    InsertingInv(trace, i);
    Converges(trace, i, k, l);
  }

  // ----- When everyone leaves the final newline alone -----

  /** What a server step does to the log, whichever move of the system it belongs to. */
  lemma MoveTame(s: System, s': System, m: Move)
    requires Convergence.Inv(s) && Allowed(s, s', m) && ServerParts.Civil(s.server)
    requires BodyNewline.TameAll([], s.server.log)
    ensures BodyNewline.TameAll([], s'.server.log)
  {
    hide Safety.Inv, Step, NodeInv, ServerParts.Civil, BodyNewline.TameAll, ThePart, WantToUpdate, GotUpdate;
    match m
    case Serve(a) => ServerParts.StepTame(s.server, s'.server, a);
    case Sends(k, base, u) =>
      if WantToUpdate(s.nodes[k].client, base).mode.Merging? {
        var client := WantToUpdate(s.nodes[k].client, base);
        ServerParts.StepTame(s.server, s'.server, Begin(u, Request(client.revNum, client.mode.inflight)));
      }
    case _ =>
  }

  lemma {:induction false} RunTame(trace: seq<System>, i: nat)
    requires Convergence.Run(trace) && i < |trace|
    requires forall j: nat :: j < i ==> EmptyRepliesRight(trace[j].server) && ServerParts.Civil(trace[j].server)
    ensures BodyNewline.TameAll([], trace[i].server.log)
  {
    hide Allowed, EmptyRepliesRight, ServerParts.Civil, BodyNewline.TameAll;
    if i == 0 {
      ServerParts.InitTame();
    } else {
      RunTame(trace, i - 1);
      Convergence.RunInv(trace, i - 1);
      assert MoveIn(trace, i - 1);
      var m :| Allowed(trace[i - 1], trace[i], m);
      hide Convergence.Inv, Init, Convergence.Run;
      MoveTame(trace[i - 1], trace[i], m);
    }
  }

  /** A body that has contents is never emptied. */
  lemma NotEmptied(s: BodyServer, q: nat)
    requires BodyNewline.TameAll([], s.log) && q < |s.log| && At(P().ops, s.log, q).Some?
    requires At(P().ops, s.log, q) != Some([])
    ensures !EmptiedAfter(s, q)
  {
    forall r | q < r && Emptied(s, r) ensures false {
      StaysProper(s.log, q, r);
    }
  }

  lemma StaysProper(log: seq<Delta>, q: nat, r: nat)
    requires BodyNewline.TameAll([], log) && q < r < |log|
    requires At(Ops(), log, q).Some? && At(Ops(), log, q) != Some([])
    ensures At(Ops(), log, r).Some? && At(Ops(), log, r) != Some([])
  {
    hide BodyNewline.TameAll, ComposeAll, ApplyAll, Fold, BodyDelta.Apply, BodyDelta.Span;
    SinceTame(log, q, r);
    BodyNewline.ComposeAllTame(At(Ops(), log, q).value, log[q + 1..r + 1]);
  }

  lemma SinceTame(log: seq<Delta>, q: nat, r: nat)
    requires BodyNewline.TameAll([], log) && q < r < |log| && At(Ops(), log, q).Some?
    ensures BodyNewline.TameAll(At(Ops(), log, q).value, log[q + 1..r + 1])
    ensures ApplyAll(Ops(), At(Ops(), log, q).value, log[q + 1..r + 1]) == At(Ops(), log, r)
  {
    hide BodyNewline.TameAll, ApplyAll;
    var front := log[..r + 1];
    BodyNewline.TamePrefix([], log, r + 1);
    BodyNewline.TameRest([], front, q + 1);
    assert front[..q + 1] == log[..q + 1] && front[q + 1..] == log[q + 1..r + 1];
    ApplyAllConcat(Ops(), [], front[..q + 1], front[q + 1..]);
    assert front == front[..q + 1] + front[q + 1..];
  }

  /** If all clients leave the final newline alone, then no client ever fails by itself: answers and pulled changes
      are always accepted. */
  lemma NobodyFails(trace: seq<System>, i: nat, k: nat, m: Move)
    requires Convergence.Run(trace) && i + 1 < |trace| && Allowed(trace[i], trace[i + 1], m) && m != HasError(k)
    requires forall j: nat :: j <= i ==> EmptyRepliesRight(trace[j].server) && ServerParts.Civil(trace[j].server)
    requires k in trace[i].nodes && k in trace[i + 1].nodes && !trace[i].nodes[k].client.mode.Failed?
    ensures !trace[i + 1].nodes[k].client.mode.Failed?
  {
    var s, c := trace[i].server, trace[i].nodes[k].client;
    hide Allowed, EmptyRepliesRight, ServerParts.Civil, BodyNewline.TameAll, Convergence.Run;
    RunTame(trace, i);
    Convergence.RunInv(trace, i);
    AllowedInv(trace[i], trace[i + 1], m);
    HasProper(trace[i], k);
    NotEmptied(s, c.revNum);
  }

  /** In particular, by what clients send alone: if every change inserts something and leaves the final newline alone,
      no client ever fails by itself. */
  lemma NobodyFailsWhenInserting(trace: seq<System>, i: nat, k: nat, m: Move)
    requires Convergence.Run(trace) && i + 1 < |trace| && Allowed(trace[i], trace[i + 1], m) && m != HasError(k)
    requires forall j: nat :: j <= i ==> EveryoneInserts(trace[j].server) && ServerParts.Civil(trace[j].server)
    requires k in trace[i].nodes && k in trace[i + 1].nodes && !trace[i].nodes[k].client.mode.Failed?
    ensures !trace[i + 1].nodes[k].client.mode.Failed?
  {
    hide Allowed, EveryoneInserts, EmptyRepliesRight, ServerParts.Civil, Convergence.Run;
    InsertingInv(trace, i);
    NobodyFails(trace, i, k, m);
  }

  lemma HasProper(s: System, k: nat)
    requires Convergence.Inv(s) && k in s.nodes && !s.nodes[k].client.mode.Failed?
    ensures var c := s.nodes[k].client;
      c.revNum < |s.server.log| && At(P().ops, s.server.log, c.revNum) == Some(c.contents) && c.contents != []
  {
    hide Safety.Inv, At;
    assert NodeInv(s.server, s.nodes[k]);
  }

  // ----- Two clients that diverge -----

  ghost predicate Reachable(s: System) {
    exists trace :: Convergence.Run(trace) && trace[|trace| - 1] == s
  }

  lemma ReachableMove(s: System, s': System, m: Move)
    requires Reachable(s) && Allowed(s, s', m)
    ensures Reachable(s')
  {
    hide Allowed, Init;
    var trace :| Convergence.Run(trace) && trace[|trace| - 1] == s;
    var longer := trace + [s'];
    forall i: nat | i + 1 < |longer| ensures MoveIn(longer, i) {
      if i + 1 < |trace| {
        assert MoveIn(trace, i);
      } else {
        assert Allowed(longer[i], longer[i + 1], m);
      }
    }
    assert Convergence.Run(longer) && longer[|longer| - 1] == s';
  }

  /** A server's run, without clients. */
  lemma Alone(server: BodyServer)
    requires ServerRuns.Reachable(P(), server)
    ensures Reachable(System(server, map[]))
  {
    hide Step, Init, ThePart;
    var trace :| ServerSteps.Run(P(), trace) && trace[|trace| - 1] == server;
    var lifted := seq(|trace|, i requires 0 <= i < |trace| => System(trace[i], map[]));
    forall i: nat | i + 1 < |lifted| ensures MoveIn(lifted, i) {
      assert NextIn(P(), trace, i);
      var a :| Step(P(), trace[i], trace[i + 1], a);
      assert Allowed(lifted[i], lifted[i + 1], Serve(a));
    }
    assert Convergence.Run(lifted) && lifted[|lifted| - 1] == System(server, map[]);
  }

  /** A client gets revision 1, and its user types something. */
  lemma ClientTypes(s: System, base: Body, d: Delta, expected: Body) returns (s': System)
    requires Reachable(s) && s.nodes == map[]
    requires 1 < |s.server.log| && At(P().ops, s.server.log, 1) == Some(base) && base != []
    requires Span(d) <= |base| && Apply(base, d) == expected
    ensures Reachable(s')
    ensures s' == System(s.server, map[0 := Node(Client(Collecting, 1, base, expected, [TextChange(d, User)]), None)])
  {
    hide Apply, Span, ThePart, Reachable;
    var unedited := Client(Idle, 1, base, base, []);
    var s1 := s.Set(0, unedited, None);
    ReachableMove(s, s1, Convergence.Start(0, 1));
    var typed := Type(unedited, d);
    assert [] + [TextChange(d, User)] == [TextChange(d, User)];
    var s2 := s1.Set(0, typed, None);
    ReachableMove(s1, s2, Types(0, d));
    s' := s2.Set(0, GotQuillEvent(typed, 1), None);
    ReachableMove(s2, s', Notices(0, 1));
  }

  /** The client sends what has been collected. */
  lemma ClientSends(s: System, base: Body, d: Delta, expected: Body) returns (s': System)
    requires Reachable(s) && 2 !in s.server.updates && d != []
    requires s.nodes == map[0 := Node(Client(Collecting, 1, base, expected, [TextChange(d, User)]), None)]
    ensures Reachable(s')
    ensures s' == System(s.server.(updates := s.server.updates[2 := Update(Request(1, d), ServerSteps.Start)]),
                         map[0 := Node(Client(Merging(d), 1, base, expected, []), Some(2))])
  {
    hide ThePart, Reachable;
    CollectsOne(s.nodes[0].client, d);
    hide WantToUpdate;
    s' := System(s.server.(updates := s.server.updates[2 := Update(Request(1, d), ServerSteps.Start)]),
                 map[0 := Node(Client(Merging(d), 1, base, expected, []), Some(2))]);
    ReachableMove(s, s', Sends(0, 1, 2));
  }

  lemma CollectsOne(c: Client, d: Delta)
    requires c.mode.Collecting? && c.events == [TextChange(d, User)] && d != []
    ensures WantToUpdate(c, c.revNum) == c.(mode := Merging(d), events := [])
  {
    assert c.events[1..] == [];
    assert Consume([], false, Some(d)) == (Some(d), []);
  }

  /** The server handles the change, of which nothing is left. */
  lemma ServerVanishes(s: System, base: Body, first: Delta, current: Body, d: Delta, expected: Body)
      returns (s': System)
    requires Reachable(s) && Safety.Inv(P(), s.server)
    requires ServerBodyRuns.Second(s.server, base, first, current, d, expected, [])
    ensures Reachable(s')
    ensures s' == System(s.server.At(2, Done(expected, Change(2, []), false)), s.nodes)
  {
    var server, p := s.server, P();
    ServerBodyRuns.SecondSteps(server, base, first, current, d, expected, []);
    assert 2 in server.updates && Attempt(p, expected, 2, [], false) == Done(expected, Change(2, []), false);
    hide ServerBodyRuns.Second, Step, Safety.Inv, P, ThePart, Server.At, Attempt;
    var s1 := System(server.At(2, Ready(expected)), s.nodes);
    var s2 := System(server.At(2, Current(expected, 2, current)), s.nodes);
    s' := System(server.At(2, Done(expected, Change(2, []), false)), s.nodes);
    ReachableMove(s, s1, Serve(ReadBase(2)));
    ReachableMove(s1, s2, Serve(ReadCurrent(2)));
    ReachableMove(s2, s', Serve(Rebase(2)));
  }

  /** The client takes the empty answer for its own result; another client starts with the server's contents. */
  lemma ClientsDiffer(s: System, base: Body, d: Delta, current: Body, expected: Body) returns (s': System)
    requires Reachable(s) && s.nodes == map[0 := Node(Client(Merging(d), 1, base, expected, []), Some(2))]
    requires 2 in s.server.updates && s.server.updates[2].phase == Done(expected, Change(2, []), false)
    requires |s.server.log| == 3 && At(P().ops, s.server.log, 2) == Some(current)
    requires BodyApply(base, d) == Some(expected) && expected != [] && current != []
    ensures Reachable(s') && 0 in s'.nodes && 1 in s'.nodes
    ensures s'.nodes[0].client == Client(Idle, 2, expected, expected, [])
    ensures s'.nodes[1].client == Client(Idle, 2, current, current, [])
    ensures s'.server == s.server && s'.nodes[0].call == None
  {
    hide BodyApply, ThePart;
    var waiting := s.nodes[0].client;
    assert GotUpdate(waiting, Change(2, [])) == Client(Idle, 2, expected, expected, []) by {
      assert NextText([]) == None;
    }
    var s1 := s.Set(0, Client(Idle, 2, expected, expected, []), None);
    assert AnswerMove(s, s1, 0);
    ReachableMove(s, s1, GetsAnswer(0));
    s' := s1.Set(1, Client(Idle, 2, current, current, []), None);
    assert StartMove(s1, s', 1, 2);
    ReachableMove(s1, s', Convergence.Start(1, 2));
  }

  /** There is a run that ends with two quiet clients at the same revision, which show different bodies. One of them
      has deleted something that had been replaced. */
  lemma ClientsDiverge() returns (s: System)
    ensures Reachable(s) && 0 in s.nodes && 1 in s.nodes
    ensures var a, b := s.nodes[0].client, s.nodes[1].client;
      Quiet(a) && Quiet(b) && a.revNum == b.revNum && a.editor != b.editor && a.contents != b.contents
  {
    var base: Body, first: Delta, second: Delta := [Char('x'), Char('\n')], [Text("z"), BodyDelta.Delete(1)],
      [BodyDelta.Delete(1)];
    var current: Body, expected: Body := [Char('z'), Char('\n')], [Char('\n')];
    RebaseCanVanish();
    InsertApply(base);
    assert Inserts(base) != [];
    s := DivergingRun(Inserts(base), base, first, current, second, expected);
    assert NextText([]) == None;
  }

  /** The end of such a run. */
  ghost predicate Diverged(s: System, text: Delta, first: Delta, current: Body, second: Delta, expected: Body) {
    && Reachable(s) && 0 in s.nodes && 1 in s.nodes
    && s.nodes[0] == Node(Client(Idle, 2, expected, expected, []), None)
    && s.nodes[1].client == Client(Idle, 2, current, current, [])
    && s.server.log == [[], text, first] && s.server.updates.Keys == {0, 1, 2} && s.server.file.partRev == 2
    && s.server.updates[0].request == Request(0, text) && s.server.updates[1].request == Request(1, first)
    && s.server.updates[2].request == Request(1, second)
  }

  lemma DivergingRun(text: Delta, base: Body, first: Delta, current: Body, second: Delta, expected: Body)
      returns (s: System)
    requires text != [] && first != [] && second != []
    requires BodyApply([], text) == Some(base) && BodyApply(base, first) == Some(current)
    requires BodyApply(base, second) == Some(expected) && Rebased(second, [first]) == Some([])
    requires base != [] && current != [] && expected != [] && current != expected
    ensures Diverged(s, text, first, current, second, expected)
  {
    hide Reachable, Apply, Span, Fold, Rebased, ServerRuns.Reachable, ServerBodyRuns.Second, Safety.Inv, ThePart;
    var s0 := ServerBodyRuns.TwoChanges(text, base, first, current);
    Alone(s0);
    ServerParts.TheOps();
    assert Span(second) <= |base| && Apply(base, second) == expected;
    var typed := ClientTypes(System(s0, map[]), base, second, expected);
    var s1 := ClientSends(typed, base, second, expected);
    SentSecond(s0, s1.server, base, first, current, second, expected);
    SendingInv(s0, s1.server, second);
    hide BodyApply;
    var s2 := ServerVanishes(s1, base, first, current, second, expected);
    LastOf(s0.log);
    s := ClientsDiffer(s2, base, second, current, expected);
  }

  lemma LastOf(log: seq<Delta>)
    requires |log| == 3
    ensures At(Ops(), log, 2) == Fold(Ops(), log)
  {
    assert log[..3] == log;
  }

  lemma SentSecond(s: BodyServer, s': BodyServer, base: Body, first: Delta, current: Body, second: Delta,
      expected: Body)
    requires |s.log| == 3 && s.log[2] == first
    requires s' == s.(updates := s.updates[2 := Update(Request(1, second), ServerSteps.Start)])
    requires At(Ops(), s.log, 1) == Some(base) && Fold(Ops(), s.log) == Some(current)
    requires BodyApply(base, second) == Some(expected) && Rebased(second, [first]) == Some([])
    ensures ServerBodyRuns.Second(s', base, first, current, second, expected, [])
  {
    hide BodyApply, Rebased, Fold;
  }

  lemma SendingInv(s: BodyServer, s': BodyServer, d: Delta)
    requires ServerRuns.Reachable(P(), s) && 2 !in s.updates
    requires s' == s.(updates := s.updates[2 := Update(Request(1, d), ServerSteps.Start)])
    ensures Safety.Inv(P(), s')
  {
    hide ServerRuns.Reachable, Safety.Inv;
    PartLawful();
    ServerRuns.ReachableInv(P(), s);
    assert Step(P(), s, s', Begin(2, Request(1, d)));
    hide Step;
    Safety.StepInv(P(), s, s', Begin(2, Request(1, d)));
  }

  // ----- A client that fails although nobody has done wrong -----

  /** The server's invariants do not depend on what clients make of its answers. */
  lemma {:induction false} ServerRunInv(trace: seq<System>, i: nat)
    requires Convergence.Run(trace) && i < |trace|
    ensures Safety.Inv(P(), trace[i].server)
  {
    hide Safety.Inv, Allowed, Step;
    if i == 0 {
      Safety.InitInv(P(), trace[0].server);
    } else {
      ServerRunInv(trace, i - 1);
      assert MoveIn(trace, i - 1);
      var m :| Allowed(trace[i - 1], trace[i], m);
      hide Convergence.Run;
      MoveServerInv(trace[i - 1], trace[i], m);
    }
  }

  lemma MoveServerInv(s: System, s': System, m: Move)
    requires Safety.Inv(P(), s.server) && Allowed(s, s', m)
    ensures Safety.Inv(P(), s'.server)
  {
    hide Safety.Inv, Step, ThePart, P, WantToUpdate, GotUpdate, IsDiff, EmptyLaw, DiffLaw;
    TheLaws();
    match m
    case Serve(a) => Safety.StepInv(P(), s.server, s'.server, a);
    case Sends(k, base, u) =>
      var client := WantToUpdate(s.nodes[k].client, base);
      if client.mode.Merging? {
        Safety.StepInv(P(), s.server, s'.server, Begin(u, Request(client.revNum, client.mode.inflight)));
      }
    case _ =>
  }

  lemma TheLaws()
    ensures EmptyLaw(P().ops) && DiffLaw(P()) && P().ops == Ops() && P().ops.nothing == [] && !P().ephemeral
  {
    PartLawful();
  }

  lemma ReachableServerInv(s: System)
    requires Reachable(s)
    ensures Safety.Inv(P(), s.server)
  {
    hide Init, MoveIn, Safety.Inv;
    var trace :| Convergence.Run(trace) && trace[|trace| - 1] == s;
    ServerRunInv(trace, |trace| - 1);
  }

  /** The server appends one more change, as given, without any client's doing. */
  lemma ServerAppends(s: System, u: nat, d: Delta, current: Body, after: Body) returns (s': System)
    requires Reachable(s) && u !in s.server.updates && d != []
    requires Fold(Ops(), s.server.log) == Some(current) && BodyApply(current, d) == Some(after)
    ensures Reachable(s') && s'.nodes == s.nodes
    ensures ServerRuns.Grown(s.server, s'.server, u, Request(s.server.file.partRev, d), d)
  {
    hide Reachable, Safety.Inv, Safety.Expects, ServerRuns.CanRead, Fold, BodyApply, Step, Server.At,
      ServerRuns.Extended, ServerRuns.Grown, EmptyLaw, DiffLaw, P;
    var server, request := s.server, Request(s.server.file.partRev, d);
    var s0 := System(server.(updates := server.updates[u := Update(request, ServerSteps.Start)]), s.nodes);
    BeginsNow(server, u, request);
    ReachableMove(s, s0, Serve(Begin(u, request)));
    ReachableServerInv(s);
    LastExpects(server, d, current, after);
    ServerRuns.SameReads(P(), server, s0.server, server.file.partRev);
    var w := ServerRuns.FreshWriter(server.writers);
    s' := AppendsGiven(s0, u, w, after, d, current);
    ServerRuns.ExtendedGrown(P(), server, u, request, ServerSteps.Start, w, after, d, true);
  }

  lemma AppendsGiven(s: System, u: nat, w: nat, e: Body, d: Delta, contents: Body) returns (s': System)
    requires Reachable(s) && w !in s.server.writers && d != [] && Fold(Ops(), s.server.log) == Some(contents)
    requires u in s.server.updates
    requires s.server.updates[u] == Update(Request(s.server.file.partRev, d), ServerSteps.Start)
    requires Safety.Expects(P(), s.server.log, s.server.updates[u].request, e)
    requires ServerRuns.CanRead(P(), s.server, s.server.file.partRev)
    ensures Reachable(s') && s' == System(ServerRuns.Extended(P(), s.server, u, w, e, d, true), s.nodes)
  {
    hide Reachable, Safety.Inv, Safety.Expects, ServerRuns.CanRead, Fold, Step, Server.At, ServerRuns.Extended,
      EmptyLaw, DiffLaw, P;
    TheLaws();
    ReachableServerInv(s);
    ServerRuns.GivenSteps(P(), s.server, u, w, e, d, contents);
    s' := ServeGiven(s, u, w, e, d, contents);
  }

  lemma BeginsNow(server: BodyServer, u: nat, request: Request<Delta>)
    requires u !in server.updates
    ensures Step(P(), server, server.(updates := server.updates[u := Update(request, ServerSteps.Start)]),
      Begin(u, request))
  {
  }

  lemma LastExpects(server: BodyServer, d: Delta, current: Body, after: Body)
    requires Safety.Inv(P(), server) && Fold(Ops(), server.log) == Some(current) && BodyApply(current, d) == Some(after)
    ensures ServerRuns.CanRead(P(), server, server.file.partRev)
    ensures Safety.Expects(P(), server.log, Request(server.file.partRev, d), after)
  {
    hide Fold, Safety.Inv, BodyApply, ServerRuns.CanRead;
    ServerRuns.LastReads(P(), server);
  }

  lemma ServeGiven(s: System, u: nat, w: nat, e: Body, d: Delta, contents: Body) returns (s': System)
    requires Reachable(s) && u in s.server.updates
    requires var p, server, r := P(), s.server, s.server.file.partRev;
             var s1, s2 := server.At(u, Ready(e)), server.At(u, Current(e, r, contents));
             var s3, s4 := server.At(u, Prepared(e, r, d, true)),
               server.At(u, Appending(e, r, d, true, server.file.rev + 1));
      && Step(p, server, s1, ReadBase(u)) && Step(p, s1, s2, ReadCurrent(u)) && Step(p, s2, s3, Rebase(u))
      && Step(p, s3, s4, Check(u)) && Step(p, s4, ServerRuns.Extended(p, server, u, w, e, d, true), Commit(u, w))
    ensures Reachable(s') && s' == System(ServerRuns.Extended(P(), s.server, u, w, e, d, true), s.nodes)
  {
    hide Reachable, Step, Server.At, ServerRuns.Extended, P;
    var server, r := s.server, s.server.file.partRev;
    var s1 := System(server.At(u, Ready(e)), s.nodes);
    var s2 := System(server.At(u, Current(e, r, contents)), s.nodes);
    var s3 := System(server.At(u, Prepared(e, r, d, true)), s.nodes);
    var s4 := System(server.At(u, Appending(e, r, d, true, server.file.rev + 1)), s.nodes);
    s' := System(ServerRuns.Extended(P(), server, u, w, e, d, true), s.nodes);
    ReachableMove(s, s1, Serve(ReadBase(u)));
    ReachableMove(s1, s2, Serve(ReadCurrent(u)));
    ReachableMove(s2, s3, Serve(Rebase(u)));
    ReachableMove(s3, s4, Serve(Check(u)));
    ReachableMove(s4, s', Serve(Commit(u, w)));
  }

  /** A change that deletes the last element in front of the final newline of one body, and all of another. */
  lemma LastDeleted()
    ensures var d: Delta, z: Body, nl: Body := [BodyDelta.Delete(1)], [Char('z'), Char('\n')], [Char('\n')];
      && BodyApply(z, d) == Some(nl) && BodyApply(nl, d) == Some([]) && BodyNewline.Tame(z, d) && Tidy(d) == d
  {
    var d: Delta := [BodyDelta.Delete(1)];
    assert d[1..] == [];
  }

  /** What a client makes of a change that leaves nothing of what it shows. */
  lemma PullFails(c: Client, base: nat, change: Change<Delta>)
    requires c.mode.Idle? && c.revNum == base && c.events == [] && BodyApply(c.contents, change.delta) == Some([])
    ensures GotChangeAfter(c, base, change).mode.Failed?
  {
    assert NextText([]) == None;
  }

  /** The last change is what the server gives as the difference to it. */
  lemma LastIsDiff(s: BodyServer, base: nat, d: Delta)
    requires Safety.Inv(P(), s) && |s.log| == base + 2 && s.log[base + 1] == d && Tidy(d) == d
    ensures IsDiff(P(), s, base, Change(base + 1, d))
  {
    assert |s.log| == s.file.partRev + 1 && Safety.FileInv(P(), s);
    hide Safety.Inv, Safety.FileInv, Composed, ComposeAll, Tidy, Snapshot, P;
    assert s.log[base + 1..base + 2] == [d];
    TheLaws();
    ComposedExactly(P(), s, base, base + 1);
    OneComposed(d);
  }

  lemma OneComposed(d: Delta)
    requires Tidy(d) == d
    ensures ComposeAll(Ops(), [], [d], false) == Some(d)
  {
    var since := [d];
    assert since[..0] == [];
    assert ComposeAll(Ops(), [], since[..0], false) == Some([]);
    assert Zip([], d) == d;
  }

  /** There is a run in which every change leaves the final newline alone, and nothing is rebased over first contents;
      but a client that has got a wrong empty answer fails when it pulls the next change, as that leaves nothing of
      what the client shows, though the server still has a body. */
  lemma DivergedClientFails() returns (s: System, s': System, change: Change<Delta>)
    ensures Reachable(s) && Allowed(s, s', Pulls(0, 2, change)) && 0 in s.nodes && 0 in s'.nodes
    ensures !s.nodes[0].client.mode.Failed? && s'.nodes[0].client.mode.Failed?
    ensures change.revNum < |s.server.log| && At(Ops(), s.server.log, change.revNum) == Some([Char('\n')])
    ensures ServerBodyRuns.AllTame(s.server)
  {
    var base: Body, first: Delta, second: Delta := [Char('x'), Char('\n')], [Text("z"), BodyDelta.Delete(1)],
      [BodyDelta.Delete(1)];
    var current: Body, expected: Body := [Char('z'), Char('\n')], [Char('\n')];
    RebaseCanVanish();
    InsertApply(base);
    LastDeleted();
    FirstIsTame();
    assert Inserts(base) != [] && base != [];
    hide BodyApply, Rebased, Tidy, BodyNewline.Tame, Diverged, Reachable, Inserts, Allowed, ServerBodyRuns.AllTame;
    var diverged := DivergingRun(Inserts(base), base, first, current, second, expected);
    s, s', change := FailingPull(diverged, Inserts(base), base, first, current, second, expected);
  }

  lemma FirstIsTame()
    ensures var base: Body := [Char('x'), Char('\n')];
      BodyNewline.Tame(base, [Text("z"), BodyDelta.Delete(1)]) && BodyNewline.Tame(base, [BodyDelta.Delete(1)])
  {
    var first: Delta, second: Delta := [Text("z"), BodyDelta.Delete(1)], [BodyDelta.Delete(1)];
    assert first[1..] == second && second[1..] == [];
  }

  lemma FailingPull(s: System, text: Delta, base: Body, first: Delta, current: Body, d: Delta, expected: Body)
      returns (s1: System, s2: System, change: Change<Delta>)
    requires Diverged(s, text, first, current, d, expected) && d != [] && Tidy(d) == d
    requires BodyApply([], text) == Some(base) && BodyApply(base, first) == Some(current)
    requires BodyApply(current, d) == Some(expected) && BodyApply(expected, d) == Some([])
    requires BodyNewline.Tame(base, first) && BodyNewline.Tame(base, d) && BodyNewline.Tame(current, d)
    ensures Reachable(s1) && Allowed(s1, s2, Pulls(0, 2, change)) && 0 in s1.nodes && 0 in s2.nodes
    ensures !s1.nodes[0].client.mode.Failed? && s2.nodes[0].client.mode.Failed?
    ensures change.revNum < |s1.server.log| && At(Ops(), s1.server.log, change.revNum) == Some(expected)
    ensures ServerBodyRuns.AllTame(s1.server)
  {
    hide Reachable, BodyApply, Tidy, BodyNewline.Tame, Fold, ThePart, ServerBodyRuns.AllTame, IsDiff, GotChangeAfter,
      Safety.Inv;
    ServerBodyRuns.FoldFour(text, first, d, base, current, expected);
    s1 := ServerAppends(s, 3, d, current, expected);
    assert s1.server.log == [[], text, first, d] && s1.server.log[..4] == s1.server.log;
    change := Change(3, d);
    ReachableServerInv(s1);
    LastIsDiff(s1.server, 2, d);
    PullFails(s1.nodes[0].client, 2, change);
    s2 := s1.Set(0, GotChangeAfter(s1.nodes[0].client, 2, change), None);
    TamePull(s1.server, text, base, first, current, d);
  }

  lemma TamePull(s: BodyServer, text: Delta, base: Body, first: Delta, current: Body, d: Delta)
    requires s.log == [[], text, first, d] && s.updates.Keys == {0, 1, 2, 3}
    requires s.updates[0].request == Request(0, text) && s.updates[1].request == Request(1, first)
    requires s.updates[2].request == Request(1, d) && s.updates[3].request == Request(2, d)
    requires Fold(Ops(), [[]]) == Some([]) && Fold(Ops(), [[], text]) == Some(base)
    requires Fold(Ops(), [[], text, first]) == Some(current)
    requires BodyNewline.Tame(base, first) && BodyNewline.Tame(base, d) && BodyNewline.Tame(current, d)
    ensures ServerBodyRuns.AllTame(s)
  {
    hide Fold;
    assert s.log[..1] == [[]] && s.log[..2] == [[], text] && s.log[..3] == [[], text, first];
    assert forall u :: u in s.updates ==> u == 0 || u == 1 || u == 2 || u == 3;
  }
}
