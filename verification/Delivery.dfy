/** What a user types reaches the log, and its client then shows the log. */
module Delivery {
  import opened Wrappers
  import opened Part
  import opened BodyDelta
  import opened BodyPart
  import opened ChangeLog
  import opened ServerSteps
  import opened BodyClient
  import opened Convergence
  import opened ServerReads
  import opened BodyFits
  import BodyTransform
  import ClientSafety = BodyClientSafety
  import ConvergenceRuns
  import Progress = ServerProgress
  import Safety = ServerSafety
  import ServerParts
  import ServerRuns

  // ----- Moves of one client and the server -----

  lemma ServedReachable(s: System, server: BodyServer, u: nat)
    requires ConvergenceRuns.Reachable(s) && Progress.OwnSteps(P(), s.server, server, u)
    ensures ConvergenceRuns.Reachable(System(server, s.nodes))
  {
    hide Step, ConvergenceRuns.Reachable, P;
    var trace: seq<BodyServer> :| && trace != [] && trace[0] == s.server && trace[|trace| - 1] == server
                                  && forall i: nat :: i + 1 < |trace| ==> Progress.OwnIn(P(), trace, i, u);
    assert System(s.server, s.nodes) == s;
    for i: nat := 0 to |trace| - 1
      invariant ConvergenceRuns.Reachable(System(trace[i], s.nodes))
    {
      assert Progress.OwnIn(P(), trace, i, u);
      var a :| Progress.ActsFor(a, u) && Step(P(), trace[i], trace[i + 1], a);
      ConvergenceRuns.ReachableMove(System(trace[i], s.nodes), System(trace[i + 1], s.nodes), Serve(a));
    }
  }

  /** The client has noticed some events. */
  lemma {:induction false} NoticedReachable(s: System, k: nat, n: nat)
    requires ConvergenceRuns.Reachable(s) && k in s.nodes
    ensures ConvergenceRuns.Reachable(s.Set(k, ClientSafety.Notices(s.nodes[k].client, n), s.nodes[k].call))
  {
    hide ConvergenceRuns.Reachable, GotQuillEvent;
    if n == 0 {
      assert s.Set(k, s.nodes[k].client, s.nodes[k].call) == s;
    } else {
      NoticedReachable(s, k, n - 1);
      var before := s.Set(k, ClientSafety.Notices(s.nodes[k].client, n - 1), s.nodes[k].call);
      var after := s.Set(k, ClientSafety.Notices(s.nodes[k].client, n), s.nodes[k].call);
      assert after == before.Set(k, GotQuillEvent(before.nodes[k].client, s.nodes[k].client.revNum), s.nodes[k].call);
      ConvergenceRuns.ReachableMove(before, after, Move.Notices(k, s.nodes[k].client.revNum));
    }
  }

  /** What a request becomes at the end of a log. */
  ghost function Merge(log: seq<Delta>, request: Request<Delta>, e: Body): seq<Elem>
    requires request.base < |log|
  {
    var base, server := At(Ops(), log, request.base), ComposeAll(Ops(), [], log[request.base + 1..], false);
    if request.base + 1 == |log| || base.None? || server.None? then e
    else BodyTransform.Weave(base.value, server.value, request.delta, true)
  }

  /** An appended change makes the body that merge. */
  lemma AppendedMerges(s: BodyServer, log: seq<Delta>, u: nat, request: Request<Delta>, e: Body)
    requires Safety.Expects(P(), s.log, request, e) && Safety.Appended(P(), s, u, request, e, |log|)
    requires log <= s.log && |s.log| == |log| + 1 && At(Ops(), s.log, |log|).Some?
    ensures request.base < |log| && At(Ops(), s.log, |log|).value == Merge(log, request, e)
  {
    hide Fold, BodyTransform.Weave, ComposeAll, BodyApply;
    var r := |log|;
    if Safety.Made(P(), s.log, request, e, r - 1, s.log[r], true) {
      assert s.log[..r + 1] == s.log[..r] + [s.log[r]];
      FoldMore(Ops(), s.log[..r], s.log[r]);
    } else {
      ServerParts.RebasedAppend(s.log, request, e, r);
      assert s.log[request.base + 1..r] == log[request.base + 1..];
      Safety.AtGrows(P(), log, s.log, request.base);
    }
  }

  lemma {:induction false} FreshUpdate(updates: map<nat, Update<Body, Delta>>) returns (u: nat)
    ensures u !in updates
    ensures forall x :: x in updates ==> x < u
    decreases |updates|
  {
    if updates == map[] {
      u := 0;
    } else {
      var x :| x in updates;
      var y := FreshUpdate(updates - {x});
      u := if x < y then y else x + 1;
      assert forall z :: z in updates ==> z == x || z in updates - {x};
    }
  }

  /** The system after a client has sent what it has collected, as update `u`. */
  function AfterSending(s: System, k: nat, u: nat, c: Client): System
    requires c.mode.Merging?
  {
    var update := Update(Request(c.revNum, c.mode.inflight), ServerSteps.Start);
    System(s.server.(updates := s.server.updates[u := update]), s.nodes[k := Node(c, Some(u))])
  }

  lemma SameRevision(c: Client)
    ensures WantToUpdate(c, c.revNum).revNum == c.revNum
  {
    hide Consume;
  }

  lemma CanSend(s: System, k: nat, u: nat, c: Client)
    requires k in s.nodes && s.nodes[k].client.mode.Collecting? && u !in s.server.updates
    requires c == WantToUpdate(s.nodes[k].client, s.nodes[k].client.revNum) && c.mode.Merging?
    ensures Allowed(s, AfterSending(s, k, u, c), Sends(k, s.nodes[k].client.revNum, u))
  {
    hide P, WantToUpdate;
  }

  /** Collected edits are sent. */
  lemma Sent(s: System, k: nat) returns (s': System, u: nat)
    requires ConvergenceRuns.Reachable(s) && Inv(s) && k in s.nodes && s.nodes[k].client.mode.Collecting?
    requires WantToUpdate(s.nodes[k].client, s.nodes[k].client.revNum).mode.Merging?
    ensures ConvergenceRuns.Reachable(s') && Inv(s') && u !in s.server.updates
    ensures s' == AfterSending(s, k, u, WantToUpdate(s.nodes[k].client, s.nodes[k].client.revNum))
  {
    var before := s.nodes[k].client;
    var c := WantToUpdate(before, before.revNum);
    hide ConvergenceRuns.Reachable, Inv, WantToUpdate, AfterSending, SendMove, Step;
    u := FreshUpdate(s.server.updates);
    s' := AfterSending(s, k, u, c);
    CanSend(s, k, u, c);
    SendInv(s, s', k, before.revNum, u);
    ConvergenceRuns.ReachableMove(s, s', Sends(k, before.revNum, u));
  }

  /** The client has nothing in flight, its user's edits are all in its snapshot, and it shows that. */
  predicate Settled(c: Client) {
    c.mode.Idle? && ClientSafety.UserDeltas(c.events) == [] && c.editor == c.contents
  }

  /** After the answer to an update, a client that has nothing pending is settled. */
  lemma AnsweredSettled(c: Client, reply: Change<Delta>)
    requires ClientSafety.Inv(c) && c.mode.Merging? && !c.Pending()
    requires Span(reply.delta) <= |ClientSafety.Base(c).value|
    ensures GotUpdate(c, reply).mode.Failed? || Settled(GotUpdate(c, reply))
  {
    var r := GotUpdate(c, reply);
    ClientSafety.GotUpdateInv(c, reply);
    hide GotUpdate, Apply, Span;
    if !r.mode.Failed? {
      ClientSafety.NoTextNoDeltas(c);
      if reply.delta != [] { ClientSafety.OursAtEnd(c.events, reply.delta); }
    }
  }

  /** What the server expects of the change that has been sent is what the client's editor shows. */
  lemma SentExpects(s: BodyServer, c: Client, u: nat)
    requires NodeInv(s, Node(c, Some(u))) && c.mode.Merging? && IsBody(c.editor)
    requires ClientSafety.Composes(c.contents, Some(c.mode.inflight), c.editor)
    ensures Safety.Expects(P(), s.log, Request(c.revNum, c.mode.inflight), c.editor)
    ensures ClientSafety.Base(c) == Some(c.editor)
  {
    hide Fold, Apply, Span, IsBody, ClientSafety.Inv;
  }

  /** What has become of a request of client `k` when it has been answered. Nothing at all has, only if it inserts
      nothing. Otherwise, it has been appended to the log, and has made the body the merge with everything that came in
      between; and the client is settled with exactly that, unless it is empty, which clients do not accept. */
  ghost predicate Arrived(s: System, s': System, k: nat, request: Request<Delta>, e: Body) {
    && k in s'.nodes && s'.nodes == s.nodes[k := Node(s'.nodes[k].client, None)]
    && s.server.log <= s'.server.log && request.base < |s.server.log|
    && if s'.server.log == s.server.log then BodyTransform.NoInserts(request.delta)
       else
         var r, merge := s'.nodes[k].client, Merge(s.server.log, request, e);
         && |s'.server.log| == |s.server.log| + 1 && At(P().ops, s'.server.log, |s.server.log|) == Some(merge)
         && if merge == [] then r.mode.Failed?
            else Settled(r) && r.revNum == |s.server.log| && r.contents == merge
  }

  lemma ReturnedKnown(s: BodyServer, u: nat, request: Request<Delta>, e: Body)
    requires Safety.Inv(P(), s) && Progress.Returned(P(), s, u, e) && s.updates[u].request == request
    ensures var Done(_, reply, appended) := s.updates[u].phase;
      && reply.revNum < |s.log| && At(Ops(), s.log, reply.revNum).Some?
      && Safety.Expects(ThePart(), s.log, request, e)
      && if appended then Safety.Appended(P(), s, u, request, e, reply.revNum)
         else Safety.Vanished(ThePart(), s.log, request, e, reply.revNum)
  {
    hide Safety.Inv, Fold, Safety.Expects, Safety.Appended;
    Safety.UpdateKnown(P(), s, u);
  }

  /** The client gets its answer. */
  lemma Answered(s: System, m: System, k: nat, u: nat, c: Client) returns (s': System)
    requires ConvergenceRuns.Reachable(m) && Safety.Inv(P(), m.server) && k in m.nodes
    requires m.nodes == s.nodes[k := Node(c, Some(u))] && NodeInv(m.server, Node(c, Some(u)))
    requires c.mode.Merging? && !c.Pending() && ClientSafety.Base(c) == Some(c.editor) && IsBody(c.editor)
    requires Progress.Returned(P(), m.server, u, c.editor)
    requires m.server.updates[u].request == Request(c.revNum, c.mode.inflight)
    requires s.server.log <= m.server.log && |m.server.log| <= |s.server.log| + 1
    requires m.server.updates[u].phase.appended <==> m.server.log != s.server.log
    requires m.server.log != s.server.log ==> m.server.updates[u].phase.reply.revNum == |s.server.log|
    requires c.revNum < |s.server.log|
    ensures ConvergenceRuns.Reachable(s') && Arrived(s, s', k, Request(c.revNum, c.mode.inflight), c.editor)
  {
    hide ConvergenceRuns.Reachable, Safety.Inv, ClientSafety.Inv, GotUpdate, Fold, Apply, Span, IsBody, Merge,
      Safety.Appended, Safety.Expects, BodyTransform.NoInserts, Safety.Vanished;
    ReturnedKnown(m.server, u, Request(c.revNum, c.mode.inflight), c.editor);
    var phase := m.server.updates[u].phase;
    var r := GotUpdate(c, phase.reply);
    s' := m.Set(k, r, None);
    ConvergenceRuns.ReachableMove(m, s', GetsAnswer(k));
    Safety.UpdateKnown(P(), m.server, u);
    ExpectsBase(m.server, m.nodes[k]);
    AnswerDecides(m.server, m.nodes[k]);
    AnsweredSettled(c, phase.reply);
    if phase.appended {
      AppendedMerges(m.server, s.server.log, u, Request(c.revNum, c.mode.inflight), c.editor);
    } else {
      ServerParts.VanishedCase(m.server.log, Request(c.revNum, c.mode.inflight), c.editor, phase.reply.revNum);
      ServerParts.EmptyReplyMeans(m.server.log, Request(c.revNum, c.mode.inflight), c.editor, phase.reply.revNum);
    }
  }

  /** What a client would send. */
  function ToSend(c: Client): Option<Request<Delta>> {
    var sending := WantToUpdate(c, c.revNum);
    if c.mode.Collecting? && sending.mode.Merging? then Some(Request(c.revNum, sending.mode.inflight)) else None
  }

  /** The server makes its answer to what has been sent. */
  lemma Served(s: System, s1: System, k: nat, u: nat, c: Client) returns (m: System)
    requires ConvergenceRuns.Reachable(s1) && Inv(s1) && c.mode.Merging? && s1 == AfterSending(s, k, u, c)
    requires IsBody(c.editor)
    requires Safety.Expects(P(), s.server.log, Request(c.revNum, c.mode.inflight), c.editor)
    requires Fold(Ops(), s.server.log).Some?
    requires ServerParts.MergesToBody(s.server.log, Request(c.revNum, c.mode.inflight))
    ensures ConvergenceRuns.Reachable(m) && Safety.Inv(P(), m.server) && m.nodes == s1.nodes
    ensures Progress.Returned(P(), m.server, u, c.editor) && Progress.Alone(s1.server, m.server, u)
    ensures m.server.updates[u].phase.appended <==> m.server.log != s.server.log
    ensures m.server.log != s.server.log ==> m.server.updates[u].phase.reply.revNum == |s.server.log|
  {
    hide ConvergenceRuns.Reachable, Safety.Inv, Safety.Expects, Fold, IsBody, ServerParts.MergesToBody,
      Progress.OwnSteps, Progress.Returned, Progress.Alone, ThePart;
    var server := ServerParts.BodyReturns(s1.server, u, c.editor);
    m := System(server, s1.nodes);
    ServedReachable(s1, server, u);
  }

  /** From any state of any run, as long as empty answers have been right: what a client has collected can be sent,
      appended and answered, without anything else happening, if the body has contents and the merge with what came in
      between is a body. */
  lemma EditsArrive(s: System, k: nat) returns (s': System)
    requires ConvergenceRuns.Reachable(s) && Inv(s) && k in s.nodes && Fold(Ops(), s.server.log).Some?
    requires var c := s.nodes[k].client;
      && ToSend(c).Some? && ClientSafety.UserFrom(ClientSafety.Sources(c.events), 0) && IsBody(c.editor)
      && ServerParts.MergesToBody(s.server.log, ToSend(c).value)
    ensures ConvergenceRuns.Reachable(s')
    ensures Arrived(s, s', k, ToSend(s.nodes[k].client).value, s.nodes[k].client.editor)
  {
    var before := s.nodes[k].client;
    var c := WantToUpdate(before, before.revNum);
    hide ConvergenceRuns.Reachable, Safety.Inv, ClientSafety.Inv, WantToUpdate, Arrived, ServerParts.MergesToBody, P,
      Safety.Expects, Progress.Returned, Fold, IsBody, ClientSafety.UserFrom, Safety.IsAt,
      ClientSafety.Composes;
    ClientSafety.WantToUpdateSendsAll(before);
    ClientSafety.WantToUpdateInv(before, before.revNum);
    var s1, u := Sent(s, k);
    assert NodeInv(s1.server, s1.nodes[k]);
    SentExpects(s1.server, c, u);
    var m := Served(s, s1, k, u, c);
    NodeServed(s1.server, m.server, u, s1.nodes[k]);
    s' := Answered(s, m, k, u, c);
  }

  lemma NodeServed(s: BodyServer, s': BodyServer, u: nat, n: Node)
    requires NodeInv(s, n) && n.call == Some(u) && Progress.Alone(s, s', u)
    ensures NodeInv(s', n)
  {
    hide ClientSafety.Inv, At;
    if !n.client.mode.Failed? { Safety.AtGrows(P(), s.log, s'.log, n.client.revNum); }
  }

  /** An idle client whose user has typed something comes to collecting it, by noticing what is on its chain. */
  lemma EditsCollected(s: System, k: nat) returns (s': System)
    requires ConvergenceRuns.Reachable(s) && k in s.nodes && s.nodes[k].client.mode.Idle?
    requires ClientSafety.UserDeltas(s.nodes[k].client.events) != []
    ensures ConvergenceRuns.Reachable(s') && k in s'.nodes && s' == s.Set(k, s'.nodes[k].client, s.nodes[k].call)
    ensures var c, r := s.nodes[k].client, s'.nodes[k].client;
      && r == c.(mode := Collecting, events := r.events)
      && ClientSafety.UserDeltas(r.events) == ClientSafety.UserDeltas(c.events)
  {
    hide ConvergenceRuns.Reachable;
    var c := s.nodes[k].client;
    var i := FirstEditExists(c.events);
    ClientSafety.NoticesLead(c, i);
    NoticedReachable(s, k, i + 1);
    s' := s.Set(k, ClientSafety.Notices(c, i + 1), s.nodes[k].call);
  }

  lemma {:induction false} FirstEditExists(events: seq<Event>) returns (i: nat)
    ensures ClientSafety.FirstEdit(events, i)
  {
    if events == [] || (events[0].TextChange? && events[0].source.User?) {
      i := 0;
    } else {
      i := FirstEditExists(events[1..]);
      i := i + 1;
    }
  }

  /** What an answer makes of a client: it is idle, at a revision of the log that is not earlier; or it has failed, as
      what it has come to is empty. */
  ghost predicate IsAnswered(s: BodyServer, c: Client, r: Client) {
    && ClientSafety.Inv(r) && (r.mode.Idle? || r.mode.Failed?)
    && (r.mode.Idle? ==> c.revNum <= r.revNum < |s.log|)
    && (r.mode.Failed? ==> ClientSafety.Base(c) == Some([]) || EmptiedAfter(s, c.revNum))
  }

  /** A client that waits for an answer, whatever its user has typed since, and however far the server has got, can
      still get it, unless the update has failed: the server makes its answer if it has not yet done so, and the client
      is then idle, with its editor showing the pending edits on top of the new snapshot; or it has failed, if what it
      has come to is empty. */
  lemma AnswerComes(s: System, k: nat) returns (s': System)
    requires ConvergenceRuns.Reachable(s) && Inv(s) && k in s.nodes && s.nodes[k].client.mode.Merging?
    requires Fold(Ops(), s.server.log).Some?
    requires var c, update := s.nodes[k].client, s.server.updates[s.nodes[k].call.value];
      && !update.phase.Failed? && (update.phase.Start? ==> IsBody(ClientSafety.Base(c).value))
      && (update.phase.Done? || update.phase.Correcting? || ServerParts.MergesToBody(s.server.log, update.request))
    ensures ConvergenceRuns.Reachable(s') && k in s'.nodes && s'.nodes == s.nodes[k := Node(s'.nodes[k].client, None)]
    ensures s.server.log <= s'.server.log && |s'.server.log| <= |s.server.log| + 1
    ensures IsAnswered(s'.server, s.nodes[k].client, s'.nodes[k].client)
  {
    hide ConvergenceRuns.Reachable, Safety.Inv, NodeInv, Fold, IsBody, ServerParts.MergesToBody, IsAnswered,
      GotUpdate;
    var m := ServerAnswers(s, k);
    AnswerLeads(m.server, m.nodes[k]);
    AnswerReachable(m, k);
    s' := m.Set(k, GotUpdate(m.nodes[k].client, m.server.updates[m.nodes[k].call.value].phase.reply), None);
  }

  lemma ServerAnswers(s: System, k: nat) returns (m: System)
    requires ConvergenceRuns.Reachable(s) && Inv(s) && k in s.nodes && s.nodes[k].client.mode.Merging?
    requires Fold(Ops(), s.server.log).Some?
    requires var c, update := s.nodes[k].client, s.server.updates[s.nodes[k].call.value];
      && !update.phase.Failed? && (update.phase.Start? ==> IsBody(ClientSafety.Base(c).value))
      && (update.phase.Done? || update.phase.Correcting? || ServerParts.MergesToBody(s.server.log, update.request))
    ensures ConvergenceRuns.Reachable(m) && Safety.Inv(P(), m.server) && m.nodes == s.nodes
    ensures NodeInv(m.server, m.nodes[k]) && m.server.updates[m.nodes[k].call.value].phase.Done?
    ensures s.server.log <= m.server.log && |m.server.log| <= |s.server.log| + 1
  {
    var n, u := s.nodes[k], s.nodes[k].call.value;
    assert NodeInv(s.server, n);
    hide ConvergenceRuns.Reachable, Safety.Inv, ClientSafety.Inv, Fold, IsBody, Safety.Expects, Safety.IsAt,
      ServerParts.MergesToBody, ThePart, Progress.OwnSteps;
    m := s;
    if !s.server.updates[u].phase.Done? {
      MergingExpects(s.server, n);
      var server := ServerParts.BodyReturns(s.server, u, ClientSafety.Base(n.client).value);
      ServedReachable(s, server, u);
      NodeServed(s.server, server, u, n);
      m := System(server, s.nodes);
    }
  }

  lemma AnswerReachable(m: System, k: nat)
    requires ConvergenceRuns.Reachable(m) && k in m.nodes && m.nodes[k].call.Some?
    requires m.nodes[k].call.value in m.server.updates && m.server.updates[m.nodes[k].call.value].phase.Done?
    ensures var reply := m.server.updates[m.nodes[k].call.value].phase.reply;
      ConvergenceRuns.Reachable(m.Set(k, GotUpdate(m.nodes[k].client, reply), None))
  {
    hide ConvergenceRuns.Reachable, GotUpdate;
    var reply := m.server.updates[m.nodes[k].call.value].phase.reply;
    ConvergenceRuns.ReachableMove(m, m.Set(k, GotUpdate(m.nodes[k].client, reply), None), GetsAnswer(k));
  }

  lemma AnswerLeads(s: BodyServer, n: Node)
    requires Safety.Inv(P(), s) && NodeInv(s, n) && n.client.mode.Merging? && s.updates[n.call.value].phase.Done?
    ensures IsAnswered(s, n.client, GotUpdate(n.client, s.updates[n.call.value].phase.reply))
    ensures n.call.Some? && n.call.value in s.updates
  {
    var phase := s.updates[n.call.value].phase;
    Safety.UpdateKnown(P(), s, n.call.value);
    hide Safety.Inv, ClientSafety.Inv, GotUpdate, Fold, Apply, Span, IsBody, Emptied, Safety.UpdateInv;
    ExpectsBase(s, n);
    AnswerDecides(s, n);
    AnswerKeepsInv(n.client, phase.reply);
    if phase.appended { assert n.client.revNum < phase.reply.revNum; }
  }

  lemma AnswerKeepsInv(c: Client, reply: Change<Delta>)
    requires ClientSafety.Inv(c) && c.mode.Merging? && Span(reply.delta) <= |ClientSafety.Base(c).value|
    ensures ClientSafety.Inv(GotUpdate(c, reply))
  {
    hide ClientSafety.Inv, GotUpdate;
    ClientSafety.GotUpdateInv(c, reply);
  }

  /** What the server expects of a change in flight. */
  lemma MergingExpects(s: BodyServer, n: Node)
    requires Safety.Inv(P(), s) && NodeInv(s, n) && n.client.mode.Merging?
    requires var phase := s.updates[n.call.value].phase;
      !phase.Failed? && (phase.Start? ==> IsBody(ClientSafety.Base(n.client).value))
    ensures ClientSafety.Base(n.client).Some? && IsBody(ClientSafety.Base(n.client).value)
    ensures var update, e := s.updates[n.call.value], ClientSafety.Base(n.client).value;
      if update.phase.Start? then Safety.Expects(P(), s.log, update.request, e) else update.phase.expected == e
  {
    Safety.UpdateKnown(P(), s, n.call.value);
    hide Safety.Inv, Fold, Apply, Span;
  }

  // ----- Catching up -----

  /** There is a difference from any revision of the body to a later one with contents. */
  lemma HasDifference(s: BodyServer, base: nat, newer: nat) returns (change: Change<Delta>)
    requires Safety.Inv(P(), s) && base < newer < |s.log| && At(Ops(), s.log, newer).Some?
    ensures IsDiff(P(), s, base, change) && change.revNum == newer
  {
    assert Safety.FileInv(P(), s) && |s.log| == s.file.partRev + 1;
    ConvergenceRuns.TheLaws();
    DiffsAlways();
    hide Safety.Inv, Safety.FileInv, Composed, ComposeAll, Snapshot, Fold, P;
    CanDiffExactly(P(), s, base, newer);
    if newer - base <= MAX_COMPOSED_CHANGES_FOR_DIFF {
      ComposedExactly(P(), s, base, newer);
      change := Change(newer, Composed(P().ops, ToStore(s), P().ops.nothing, base + 1, newer + 1, false).value);
    } else {
      assert HasDiff(P(), Snapshot(P(), s, base).value, Snapshot(P(), s, newer).value);
      var d :| P().diffs(Snapshot(P(), s, base).value, Snapshot(P(), s, newer).value, d);
      change := Change(newer, d);
    }
  }

  /** An idle client with nothing pending can catch up with the log, whenever that has contents that it can show. */
  lemma CatchesUp(s: System, k: nat) returns (s': System)
    requires ConvergenceRuns.Reachable(s) && Inv(s) && k in s.nodes
    requires var c := s.nodes[k].client; c.mode.Idle? && !c.Pending() && c.revNum + 1 < |s.server.log|
    requires Fold(Ops(), s.server.log).Some? && Fold(Ops(), s.server.log).value != []
    ensures ConvergenceRuns.Reachable(s') && k in s'.nodes && s' == s.Set(k, s'.nodes[k].client, s.nodes[k].call)
    ensures var r := s'.nodes[k].client;
      r.mode.Idle? && r.revNum + 1 == |s.server.log| && Some(r.contents) == Fold(Ops(), s.server.log) &&
      r.editor == r.contents
  {
    hide ConvergenceRuns.Reachable, Safety.Inv, Fold, ClientSafety.Inv, GotChangeAfter, IsDiff, Fits;
    var n, newer := s.nodes[k], |s.server.log| - 1;
    assert s.server.log[..newer + 1] == s.server.log;
    var change := HasDifference(s.server, n.client.revNum, newer);
    s' := s.Set(k, GotChangeAfter(n.client, n.client.revNum, change), n.call);
    ConvergenceRuns.ReachableMove(s, s', Pulls(k, n.client.revNum, change));
    assert Safety.FileInv(P(), s.server) by { ServerRuns.HasFile(P(), s.server); }
    PullInv(s.server, n, n.client.revNum, change);
    ClientSafety.GotChangeAfterInv(n.client, n.client.revNum, change);
  }

  /** A collecting client whose edits come to nothing goes back to being idle, and nothing is sent. */
  lemma ComesToNothing(s: System, k: nat) returns (s': System)
    requires ConvergenceRuns.Reachable(s) && Inv(s) && k in s.nodes
    requires s.nodes[k].client.mode.Collecting? && ToSend(s.nodes[k].client).None?
    ensures ConvergenceRuns.Reachable(s') && k in s'.nodes && s' == s.Set(k, s'.nodes[k].client, None)
    ensures var c, r := s.nodes[k].client, s'.nodes[k].client;
      && r == c.(mode := Idle, events := r.events)
      && (ClientSafety.UserFrom(ClientSafety.Sources(c.events), 0) ==> !r.Pending() && r.editor == r.contents)
  {
    var c := s.nodes[k].client;
    hide ConvergenceRuns.Reachable, Safety.Inv, ClientSafety.Inv, WantToUpdate, P, ClientSafety.UserFrom,
      ClientSafety.Composes, Allowed;
    assert NodeInv(s.server, s.nodes[k]);
    ComesToIdle(c);
    CanIdle(s, k);
    s' := s.Set(k, WantToUpdate(c, c.revNum), None);
    ConvergenceRuns.ReachableMove(s, s', Sends(k, c.revNum, 0));
  }

  lemma ComesToIdle(c: Client)
    requires ClientSafety.Inv(c) && c.mode.Collecting? && ToSend(c).None?
    ensures var r := WantToUpdate(c, c.revNum);
      && r == c.(mode := Idle, events := r.events)
      && (ClientSafety.UserFrom(ClientSafety.Sources(c.events), 0) ==> !r.Pending() && r.editor == r.contents)
  {
    NotSent(c);
    hide ClientSafety.Inv, WantToUpdate, ClientSafety.UserFrom, ClientSafety.Composes;
    if ClientSafety.UserFrom(ClientSafety.Sources(c.events), 0) { ClientSafety.WantToUpdateSendsAll(c); }
  }

  lemma CanIdle(s: System, k: nat)
    requires k in s.nodes && s.nodes[k].client.mode.Collecting? && ToSend(s.nodes[k].client).None?
    ensures var c := s.nodes[k].client;
      Allowed(s, s.Set(k, WantToUpdate(c, c.revNum), None), Sends(k, c.revNum, 0))
  {
    hide P, WantToUpdate;
  }

  lemma NotSent(c: Client)
    requires ClientSafety.Inv(c) && c.mode.Collecting? && ToSend(c).None?
    ensures var r := WantToUpdate(c, c.revNum); r == c.(mode := Idle, events := r.events)
  {
    ClientSafety.WantToUpdateInv(c, c.revNum);
    hide ClientSafety.Inv, Consume;
  }

  /** A selection in the editor of an idle client with an empty chain is taken off the chain again when it is
      noticed, and leaves no trace. */
  lemma SelectionPasses(s: System, k: nat, source: Source) returns (m: System)
    requires k in s.nodes && s.nodes[k].client.mode.Idle? && s.nodes[k].client.events == []
    ensures Allowed(s, m, Selects(k, source)) && m != s
    ensures Allowed(m, s, Move.Notices(k, s.nodes[k].client.revNum))
  {
    var c := s.nodes[k].client;
    m := s.Set(k, Select(c, source), s.nodes[k].call);
    assert [] + [SelectionChange(source)] == [SelectionChange(source)];
    assert [SelectionChange(source)][1..] == [];
    assert m.Set(k, c, s.nodes[k].call) == s;
    assert m.nodes[k].client.events != c.events;
  }

  /** A client may have an error of its own at any time, and can then start again. */
  lemma FailsAndStartsAgain(s: System, k: nat) returns (s': System)
    requires ConvergenceRuns.Reachable(s) && k in s.nodes
    requires s.server.log != [] && Fold(Ops(), s.server.log).Some? && Fold(Ops(), s.server.log).value != []
    ensures ConvergenceRuns.Reachable(s') && k in s'.nodes && s' == s.Set(k, s'.nodes[k].client, None)
    ensures Settled(s'.nodes[k].client) && s'.nodes[k].client.revNum + 1 == |s.server.log|
  {
    hide ConvergenceRuns.Reachable, Fold;
    var m := s.Set(k, s.nodes[k].client.Fail(), None);
    ConvergenceRuns.ReachableMove(s, m, HasError(k));
    s' := StartsAgain(m, k);
  }

  /** A client that has failed can start again with what the log has. */
  lemma StartsAgain(s: System, k: nat) returns (s': System)
    requires ConvergenceRuns.Reachable(s) && (k !in s.nodes || s.nodes[k].client.mode.Failed?)
    requires s.server.log != [] && Fold(Ops(), s.server.log).Some? && Fold(Ops(), s.server.log).value != []
    ensures ConvergenceRuns.Reachable(s') && k in s'.nodes && s' == s.Set(k, s'.nodes[k].client, None)
    ensures var r := s'.nodes[k].client;
      Settled(r) && r.revNum + 1 == |s.server.log| && Some(r.contents) == Fold(Ops(), s.server.log)
  {
    hide ConvergenceRuns.Reachable, Fold;
    var newer, contents := |s.server.log| - 1, Fold(Ops(), s.server.log).value;
    assert s.server.log[..newer + 1] == s.server.log;
    s' := s.Set(k, Client(Idle, newer, contents, contents, []), None);
    ConvergenceRuns.ReachableMove(s, s', Convergence.Start(k, newer));
  }
}