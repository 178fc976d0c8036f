/** Any number of body clients and one server, in every interleaving. */
module Convergence {
  import opened Wrappers
  import opened Part
  import opened BodyDelta
  import opened BodyPart
  import opened ChangeLog
  import opened ServerSteps
  import opened BodyClient
  import opened BodyFits
  import opened ServerReads
  import Safety = ServerSafety
  import ClientSafety = BodyClientSafety

  // Clients at the same revision, with nothing in flight or pending, show the same body.

  type BodyServer = Server<Body, Delta>

  /** A client, and the call of `body_update()` that it waits for. */
  datatype Node = Node(client: Client, call: Option<nat>)

  datatype System = System(server: BodyServer, nodes: map<nat, Node>) {
    function Set(k: nat, client: Client, call: Option<nat>): System {
      this.(nodes := nodes[k := Node(client, call)])
    }
  }

  datatype Move =
    | Serve(action: Action<Delta>)
    | Start(k: nat, revNum: nat)
    | Types(k: nat, d: Delta)
    | Selects(k: nat, source: Source)
    | Pulls(k: nat, baseRevNum: nat, change: Change<Delta>)
    | Notices(k: nat, baseRevNum: nat)
    | Sends(k: nat, baseRevNum: nat, u: nat)
    | GetsAnswer(k: nat)
    | HasError(k: nat)

  ghost function P(): Part<Body, Delta> {
    ThePart()
  }

  /** A client starts, or starts again after an error, with a snapshot from the server. */
  ghost predicate StartMove(s: System, s': System, k: nat, revNum: nat) {
    && (k !in s.nodes || s.nodes[k].client.mode.Failed?)
    && revNum < |s.server.log| && At(P().ops, s.server.log, revNum).Some?
    && var contents := At(P().ops, s.server.log, revNum).value;
       contents != [] && s' == s.Set(k, Client(Idle, revNum, contents, contents, []), None)
  }

  /** Collected edits are sent as a call of `body_update()`, against the revision of the snapshot. */
  ghost predicate SendMove(s: System, s': System, k: nat, baseRevNum: nat, u: nat) {
    && k in s.nodes && s.nodes[k].client.mode.Collecting?
    && var client := WantToUpdate(s.nodes[k].client, baseRevNum);
       if client.mode.Merging? then
         && Step(P(), s.server, s'.server, Begin(u, Request(client.revNum, client.mode.inflight)))
         && s'.nodes == s.nodes[k := Node(client, Some(u))]
       else s' == s.Set(k, client, None)
  }

  ghost predicate AnswerMove(s: System, s': System, k: nat) {
    && k in s.nodes && s.nodes[k].call.Some? && s.nodes[k].call.value in s.server.updates
    && var phase := s.server.updates[s.nodes[k].call.value].phase;
       phase.Done? && s' == s.Set(k, GotUpdate(s.nodes[k].client, phase.reply), None)
  }

  ghost predicate Allowed(s: System, s': System, m: Move) {
    match m
    case Serve(a) => Step(P(), s.server, s'.server, a) && s'.nodes == s.nodes
    case Start(k, r) => StartMove(s, s', k, r)
    case Types(k, d) =>
      k in s.nodes && Span(d) <= |s.nodes[k].client.editor| &&
      s' == s.Set(k, Type(s.nodes[k].client, d), s.nodes[k].call)
    case Selects(k, source) => k in s.nodes && s' == s.Set(k, Select(s.nodes[k].client, source), s.nodes[k].call)
    case Pulls(k, base, change) =>
      k in s.nodes && IsDiff(P(), s.server, base, change) &&
      s' == s.Set(k, GotChangeAfter(s.nodes[k].client, base, change), s.nodes[k].call)
    case Notices(k, base) => k in s.nodes && s' == s.Set(k, GotQuillEvent(s.nodes[k].client, base), s.nodes[k].call)
    case Sends(k, base, u) => SendMove(s, s', k, base, u)
    case GetsAnswer(k) => AnswerMove(s, s', k)
    case HasError(k) => k in s.nodes && s' == s.Set(k, s.nodes[k].client.Fail(), None)
  }

  /** What is supposed of the server: when a rebased change comes out empty, the client already expects the
      contents at the revision of the reply. */
  ghost predicate EmptyRepliesRight(s: BodyServer) {
    forall u :: u in s.updates && s.updates[u].phase.Done? && !s.updates[u].phase.appended ==>
      Safety.IsAt(P(), s.log, s.updates[u].phase.reply.revNum, s.updates[u].phase.expected)
  }

  ghost predicate Next(s: System, s': System) {
    exists m :: Allowed(s, s', m)
  }

  ghost predicate MoveIn(trace: seq<System>, i: nat)
    requires i + 1 < |trace|
  {
    Next(trace[i], trace[i + 1])
  }

  ghost predicate Run(trace: seq<System>) {
    && trace != [] && Init(P(), trace[0].server) && trace[0].nodes == map[]
    && forall i: nat :: i + 1 < |trace| ==> MoveIn(trace, i)
  }

  // ----- The invariant -----

  /** A client's snapshot is what the log says of its revision; and what it waits for is the server's answer to
      just the change that it has in flight. */
  ghost predicate NodeInv(s: BodyServer, n: Node) {
    n.client.mode.Failed? ||
    (&& ClientSafety.Inv(n.client)
     && Safety.IsAt(P(), s.log, n.client.revNum, n.client.contents)
     && (n.client.mode.Merging? <==> n.call.Some?)
     && (n.call.Some? ==>
           && n.call.value in s.updates
           && s.updates[n.call.value].request == Request(n.client.revNum, n.client.mode.inflight)))
  }

  ghost predicate Inv(s: System) {
    && Safety.Inv(P(), s.server) && Fits(s.server.log)
    && forall k :: k in s.nodes ==> NodeInv(s.server, s.nodes[k])
  }

  lemma NodeLater(s: BodyServer, s': BodyServer, n: Node, a: Action<Delta>)
    requires Safety.Inv(P(), s) && Step(P(), s, s', a) && NodeInv(s, n)
    ensures NodeInv(s', n)
  {
    hide Safety.Inv, Step, ClientSafety.Inv, P;
    Safety.RequestsKept(P(), s, s', a);
    Safety.StepGrows(P(), s, s', a);
    if !n.client.mode.Failed? { Safety.AtGrows(P(), s.log, s'.log, n.client.revNum); }
  }

  lemma ServeInv(s: System, s': System, a: Action<Delta>)
    requires Inv(s) && Allowed(s, s', Serve(a))
    ensures Inv(s')
  {
    PartLawful();
    hide Safety.Inv, Step, NodeInv, ThePart;
    Safety.StepInv(P(), s.server, s'.server, a);
    hide Fits;
    StepFits(s.server, s'.server, a);
    forall k | k in s'.nodes ensures NodeInv(s'.server, s'.nodes[k]) {
      NodeLater(s.server, s'.server, s.nodes[k], a);
    }
  }

  /** There is a later revision at which the body has no contents that a client could show. */
  ghost predicate EmptiedAfter(s: BodyServer, revNum: nat) {
    exists r :: Emptied(s, r) && revNum < r
  }

  /** The body is empty, or has no contents at all. */
  ghost predicate Emptied(s: BodyServer, r: nat) {
    r < |s.log| && (At(P().ops, s.log, r).None? || At(P().ops, s.log, r) == Some([]))
  }

  lemma FailedStays(c: Client, base: nat, change: Change<Delta>)
    requires c.mode.Failed?
    ensures GotChangeAfter(c, base, change) == c
  {
  }

  /** A change that the server gives as a difference leads to its revision, or, if that has no contents, does not
      leave a body. */
  lemma PulledChange(s: BodyServer, base: nat, change: Change<Delta>)
    requires Safety.FileInv(P(), s) && Fits(s.log) && IsDiff(P(), s, base, change) && At(P().ops, s.log, base).Some?
    ensures base < change.revNum < |s.log|
    ensures var t := At(P().ops, s.log, base).value;
      if At(P().ops, s.log, change.revNum).Some? then BodyApply(t, change.delta) == At(P().ops, s.log, change.revNum)
      else Span(change.delta) <= |t| && !IsBody(Apply(t, change.delta))
  {
    PulledLater(s, base, change);
    hide Safety.FileInv, Fits, IsDiff, Fold, Apply, Span, IsBody, BodyApply;
    if At(P().ops, s.log, change.revNum).Some? {
      PulledRight(s, base, change);
    } else {
      PulledBroken(s, base, change);
    }
  }

  lemma PulledLater(s: BodyServer, base: nat, change: Change<Delta>)
    requires Safety.FileInv(P(), s) && IsDiff(P(), s, base, change)
    ensures base < change.revNum < |s.log|
  {
    hide Safety.FileInv, IsDiff;
    DiffIsLater(P(), s, base, change);
  }

  lemma PulledRight(s: BodyServer, base: nat, change: Change<Delta>)
    requires Safety.FileInv(P(), s) && IsDiff(P(), s, base, change)
    requires base < change.revNum < |s.log| && At(P().ops, s.log, change.revNum).Some?
    ensures At(P().ops, s.log, base).Some?
    ensures BodyApply(At(P().ops, s.log, base).value, change.delta) == At(P().ops, s.log, change.revNum)
  {
    PartLawful();
    hide Safety.FileInv, IsDiff, EmptyLaw, ComposeLaw, DocumentLaw, DiffLaw, Fold, BodyApply;
    DiffLeads(P(), s, base, change);
  }

  lemma PulledBroken(s: BodyServer, base: nat, change: Change<Delta>)
    requires Safety.FileInv(P(), s) && Fits(s.log) && IsDiff(P(), s, base, change)
    requires base < change.revNum < |s.log|
    requires At(P().ops, s.log, base).Some? && At(P().ops, s.log, change.revNum).None?
    ensures var t := At(P().ops, s.log, base).value; Span(change.delta) <= |t| && !IsBody(Apply(t, change.delta))
  {
    hide Safety.FileInv, Fits, Snapshot, Composed, ComposeAll, Fold, Apply, Span, IsBody;
    if change.revNum - base <= MAX_COMPOSED_CHANGES_FOR_DIFF {
      BrokenIsLast(s.log, base, change.revNum);
      ComposedExactly(P(), s, base, change.revNum);
    } else {
      Safety.SnapshotIsAt(P(), s, change.revNum);
    }
  }

  /** A client whose snapshot is right, and that accepts a pulled change, is then at the revision of that change. It
      fails exactly when the body has no contents there that it could show. */
  lemma PullInv(s: BodyServer, n: Node, base: nat, change: Change<Delta>)
    requires NodeInv(s, n) && Safety.FileInv(P(), s) && Fits(s.log) && IsDiff(P(), s, base, change)
    ensures NodeInv(s, n.(client := GotChangeAfter(n.client, base, change)))
    ensures GotChangeAfter(n.client, base, change).mode.Failed? <==>
      n.client.mode.Failed? || (ClientSafety.Accepts(n.client, base) && Emptied(s, change.revNum))
  {
    hide ClientSafety.Inv, GotChangeAfter, Apply, Fold, Safety.FileInv, Fits, IsDiff, Span, IsBody;
    if !n.client.mode.Failed? {
      ClientSafety.GotChangeAfterInv(n.client, base, change);
      if ClientSafety.Accepts(n.client, base) {
        assert At(P().ops, s.log, base) == Some(n.client.contents);
        PulledChange(s, base, change);
      }
    } else {
      assert !ClientSafety.Accepts(n.client, base);
      FailedStays(n.client, base, change);
    }
  }

  lemma NoticeInv(s: BodyServer, n: Node, base: nat)
    requires NodeInv(s, n)
    ensures NodeInv(s, n.(client := GotQuillEvent(n.client, base)))
    ensures GotQuillEvent(n.client, base).mode.Failed? <==> n.client.mode.Failed?
  {
    hide ClientSafety.Inv;
    if !n.client.mode.Failed? { ClientSafety.GotQuillEventInv(n.client, base); }
  }

  lemma LocalInv(s: BodyServer, n: Node, client: Client)
    requires NodeInv(s, n) && ClientSafety.Inv(client)
    requires client == n.client.(editor := client.editor, events := client.events)
    ensures NodeInv(s, n.(client := client))
  {
    hide ClientSafety.Inv, At;
  }

  lemma SendInv(s: System, s': System, k: nat, base: nat, u: nat)
    requires Inv(s) && SendMove(s, s', k, base, u)
    ensures Inv(s')
    ensures k in s'.nodes && (s'.nodes[k].client.mode.Failed? <==> s.nodes[k].client.mode.Failed?)
  {
    hide Safety.Inv, ClientSafety.Inv, At, Consume;
    var client := WantToUpdate(s.nodes[k].client, base);
    ClientSafety.WantToUpdateInv(s.nodes[k].client, base);
    if client.mode.Merging? {
      var request := Request(client.revNum, client.mode.inflight);
      hide WantToUpdate;
      ServeInv(s, System(s'.server, s.nodes), Begin(u, request));
      assert Safety.IsAt(P(), s'.server.log, client.revNum, client.contents);
    }
  }

  /** What the server expects of a client's change is what the client shows below the user's pending edits. */
  lemma ExpectsBase(s: BodyServer, n: Node)
    requires NodeInv(s, n) && n.client.mode.Merging? && s.updates[n.call.value].phase.Done?
    requires Safety.UpdateInv(P(), s, n.call.value, s.updates[n.call.value])
    ensures var phase := s.updates[n.call.value].phase;
      && ClientSafety.Base(n.client) == Some(phase.expected)
      && phase.reply.revNum < |s.log| && At(P().ops, s.log, phase.reply.revNum).Some?
      && n.client.revNum <= phase.reply.revNum && (phase.appended ==> n.client.revNum < phase.reply.revNum)
      && Span(phase.reply.delta) <= |phase.expected|
      && if phase.appended then Some(Apply(phase.expected, phase.reply.delta)) == At(P().ops, s.log, phase.reply.revNum)
         else Apply(phase.expected, phase.reply.delta) == phase.expected
  {
    hide Fold;
    assert Apply(s.updates[n.call.value].phase.expected, []) == s.updates[n.call.value].phase.expected;
  }

  /** An answer makes a client fail exactly when the result that it has come to is empty. Otherwise, its snapshot is
      right exactly when a change was appended for it, or it did expect the contents at the revision of the reply. */
  lemma AnswerDecides(s: BodyServer, n: Node)
    requires NodeInv(s, n) && n.client.mode.Merging? && s.updates[n.call.value].phase.Done?
    requires Safety.UpdateInv(P(), s, n.call.value, s.updates[n.call.value])
    ensures var phase := s.updates[n.call.value].phase;
            var r := GotUpdate(n.client, phase.reply);
      && phase.reply.revNum < |s.log| && n.client.revNum <= phase.reply.revNum
      && (r.mode.Failed? <==> if phase.appended then Emptied(s, phase.reply.revNum) else phase.expected == [])
      && (!r.mode.Failed? ==>
            && r.mode.Idle? && r.revNum == phase.reply.revNum && ClientSafety.Inv(r)
            && (At(P().ops, s.log, r.revNum) == Some(r.contents) <==>
                  phase.appended || At(P().ops, s.log, r.revNum) == Some(phase.expected)))
      && (phase.appended ==> n.client.revNum < phase.reply.revNum)
  {
    var phase := s.updates[n.call.value].phase;
    ExpectsBase(s, n);
    hide Safety.UpdateInv, ClientSafety.Inv, GotUpdate, Apply, Span, At;
    ClientSafety.GotUpdateInv(n.client, phase.reply);
  }

  lemma AnswerInv(s: System, s': System, k: nat)
    requires Inv(s) && EmptyRepliesRight(s.server) && AnswerMove(s, s', k)
    ensures Inv(s')
    ensures s'.nodes[k].client.mode.Failed? ==>
      s.nodes[k].client.mode.Failed? || EmptiedAfter(s.server, s.nodes[k].client.revNum)
  {
    var n := s.nodes[k];
    if n.client.mode.Merging? {
      var u := n.call.value;
      AnswerCase(s.server, n);
    } else {
      assert GotUpdate(n.client, s.server.updates[n.call.value].phase.reply) == n.client;
    }
  }

  lemma AnswerCase(s: BodyServer, n: Node)
    requires Safety.Inv(P(), s) && NodeInv(s, n) && EmptyRepliesRight(s)
    requires n.client.mode.Merging? && s.updates[n.call.value].phase.Done?
    ensures var r := GotUpdate(n.client, s.updates[n.call.value].phase.reply);
      NodeInv(s, Node(r, None)) && (r.mode.Failed? ==> EmptiedAfter(s, n.client.revNum))
  {
    var u := n.call.value;
    var phase := s.updates[u].phase;
    Safety.UpdateKnown(P(), s, u);
    hide Safety.Inv, Safety.UpdateInv, ClientSafety.Inv, GotUpdate, At;
    AnswerDecides(s, n);
    if GotUpdate(n.client, phase.reply).mode.Failed? {
      assert Emptied(s, phase.reply.revNum);
      assert phase.reply.revNum != n.client.revNum;
    }
  }

  lemma TypesInv(s: BodyServer, n: Node, d: Delta)
    requires NodeInv(s, n) && Span(d) <= |n.client.editor|
    ensures NodeInv(s, n.(client := Type(n.client, d))) && Type(n.client, d).mode == n.client.mode
  {
    hide ClientSafety.Inv;
    if !n.client.mode.Failed? {
      ClientSafety.TypeInv(n.client, d);
      LocalInv(s, n, Type(n.client, d));
    }
  }

  lemma SelectsInv(s: BodyServer, n: Node, source: Source)
    requires NodeInv(s, n)
    ensures NodeInv(s, n.(client := Select(n.client, source))) && Select(n.client, source).mode == n.client.mode
  {
    hide ClientSafety.Inv;
    if !n.client.mode.Failed? {
      ClientSafety.SelectInv(n.client, source);
      LocalInv(s, n, Select(n.client, source));
    }
  }

  lemma StartInv(s: System, s': System, k: nat, revNum: nat)
    requires Inv(s) && StartMove(s, s', k, revNum)
    ensures Inv(s')
  {
    var contents := At(P().ops, s.server.log, revNum).value;
    assert ClientSafety.Show(contents, []) == Some(contents);
    hide Safety.Inv;
  }

  /** Every move keeps the invariant, and what makes clients fail. */
  lemma AllowedInv(s: System, s': System, m: Move)
    requires Inv(s) && EmptyRepliesRight(s.server) && Allowed(s, s', m)
    ensures Inv(s')
    ensures forall k :: k in s.nodes && k in s'.nodes ==>
      (!s.nodes[k].client.mode.Failed? && s'.nodes[k].client.mode.Failed? ==>
        m == HasError(k) || EmptiedAfter(s.server, s.nodes[k].client.revNum))
  {
    hide Safety.Inv, NodeInv, EmptyRepliesRight, Type, Select, GotChangeAfter, GotQuillEvent, At;
    match m
    case Serve(a) => ServeInv(s, s', a);
    case Start(k, r) => StartInv(s, s', k, r);
    case Types(k, d) => TypesInv(s.server, s.nodes[k], d);
    case Selects(k, source) => SelectsInv(s.server, s.nodes[k], source);
    case Pulls(k, base, change) => PullMove(s, s', k, base, change);
    case Notices(k, base) => NoticeInv(s.server, s.nodes[k], base);
    case Sends(k, base, u) => SendInv(s, s', k, base, u);
    case GetsAnswer(k) => AnswerInv(s, s', k);
    case HasError(k) => FailedNode(s.server, s.nodes[k]);
  }

  lemma FailedNode(s: BodyServer, n: Node)
    ensures NodeInv(s, Node(n.client.Fail(), None))
  {
  }

  lemma PullMove(s: System, s': System, k: nat, base: nat, change: Change<Delta>)
    requires Inv(s) && Allowed(s, s', Pulls(k, base, change))
    ensures Inv(s')
    ensures s'.nodes[k].client.mode.Failed? ==>
      s.nodes[k].client.mode.Failed? || EmptiedAfter(s.server, s.nodes[k].client.revNum)
  {
    assert Safety.FileInv(P(), s.server);
    hide Safety.Inv, Safety.FileInv, NodeInv, GotChangeAfter, At, IsDiff, Fits;
    PullInv(s.server, s.nodes[k], base, change);
    assert base < change.revNum by { PulledLater(s.server, base, change); }
    if s'.nodes[k].client.mode.Failed? && !s.nodes[k].client.mode.Failed? {
      assert Emptied(s.server, change.revNum);
    }
  }

  lemma InitInv(s: System)
    requires Init(P(), s.server) && s.nodes == map[]
    ensures Inv(s)
  {
    hide Safety.Inv;
    InitFits();
    hide Fits;
    Safety.InitInv(P(), s.server);
  }

  lemma {:induction false} RunInv(trace: seq<System>, i: nat)
    requires Run(trace) && i < |trace|
    requires forall j :: 0 <= j < i ==> EmptyRepliesRight(trace[j].server)
    ensures Inv(trace[i])
  {
    if i == 0 {
      InitInv(trace[0]);
    } else {
      hide Allowed, Inv, EmptyRepliesRight, Init, P, Step;
      RunInv(trace, i - 1);
      assert MoveIn(trace, i - 1);
      var m :| Allowed(trace[i - 1], trace[i], m);
      AllowedInv(trace[i - 1], trace[i], m);
    }
  }

  // ----- Main results -----

  /** A client without pending edits, and nothing in flight. */
  predicate Quiet(c: Client) {
    (c.mode.Idle? || c.mode.Collecting?) && !c.Pending()
  }

  /** In every run, a client's snapshot labelled with a revision is the server's log up to that revision; its
      editor shows it, with the change in flight and then the user's pending edits on top. */
  lemma SnapshotsAreRevisions(trace: seq<System>, i: nat, k: nat)
    requires Run(trace) && i < |trace| && k in trace[i].nodes && !trace[i].nodes[k].client.mode.Failed?
    requires forall j :: 0 <= j < i ==> EmptyRepliesRight(trace[j].server)
    ensures var s, c := trace[i].server, trace[i].nodes[k].client;
      && c.revNum < |s.log| && At(P().ops, s.log, c.revNum) == Some(c.contents)
      && ClientSafety.Base(c).Some?
      && ClientSafety.Show(ClientSafety.Base(c).value, ClientSafety.UserDeltas(c.events)) == Some(c.editor)
  {
    RunInv(trace, i);
  }

  /** Two quiet clients at the same revision show the same body: that of the server's log. */
  lemma Converges(trace: seq<System>, i: nat, k: nat, l: nat)
    requires Run(trace) && i < |trace| && k in trace[i].nodes && l in trace[i].nodes
    requires forall j :: 0 <= j < i ==> EmptyRepliesRight(trace[j].server)
    requires Quiet(trace[i].nodes[k].client) && Quiet(trace[i].nodes[l].client)
    requires trace[i].nodes[k].client.revNum == trace[i].nodes[l].client.revNum
    ensures var a, b := trace[i].nodes[k].client, trace[i].nodes[l].client;
      && a.editor == b.editor && a.contents == b.contents
      && a.revNum < |trace[i].server.log| && At(P().ops, trace[i].server.log, a.revNum) == Some(a.editor)
  {
    SnapshotsAreRevisions(trace, i, k);
    SnapshotsAreRevisions(trace, i, l);
    ClientSafety.NoTextNoDeltas(trace[i].nodes[k].client);
    ClientSafety.NoTextNoDeltas(trace[i].nodes[l].client);
  }
}
