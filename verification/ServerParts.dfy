/** The server's runs for each kind of document part. */
module ServerParts {
  import opened Wrappers
  import opened Part
  import opened ChangeLog
  import opened ServerSteps
  import opened ServerSafety
  import BodyTransform
  import BodyDelta
  import BodyPart
  import BodyNewline
  import CaretDelta
  import CaretPart
  import PropertyPart
  import Retention
  import ServerReads
  import ServerRetention
  import ServerRuns
  import Progress = ServerProgress

  /** Exactly the changes from some revision on are still stored, with the deltas first written. */
  ghost predicate StoredFrom<D>(changes: map<nat, D>, log: seq<D>, bound: nat) {
    (forall r :: r in changes <==> bound <= r < |log|) && forall r :: bound <= r < |log| ==> changes[r] == log[r]
  }

  /** Every update that has returned after appending has appended one change, and its correction is right. */
  ghost predicate CorrectionsRight<S(!new), D(!new)>(p: Part<S, D>, s: Server<S, D>) {
    forall u :: u in s.updates && s.updates[u].phase.Done? && s.updates[u].phase.appended ==>
      Count(s.authors, u) == 1 && Right(p, s.log, s.updates[u].phase.expected, s.updates[u].phase.reply)
  }

  lemma EveryCorrection<S(!new), D(!new)>(p: Part<S, D>, trace: seq<Server<S, D>>, i: nat)
    requires EmptyLaw(p.ops) && DiffLaw(p) && Run(p, trace) && i < |trace|
    ensures CorrectionsRight(p, trace[i])
  {
    var s := trace[i];
    hide Run, EmptyLaw, DiffLaw, Right, Expects, Appended;
    forall u | u in s.updates && s.updates[u].phase.Done? && s.updates[u].phase.appended
      ensures Count(s.authors, u) == 1 && Right(p, s.log, s.updates[u].phase.expected, s.updates[u].phase.reply)
    {
      CorrectionIsRight(p, trace, i, u);
    }
  }

  /** The properties are durable. Every revision has contents, in every run. */
  lemma PropertyRuns(trace: seq<Server<PropertyPart.Properties, PropertyPart.Delta>>, i: nat)
    requires Run(PropertyPart.ThePart(), trace) && i < |trace|
    ensures Inv(PropertyPart.ThePart(), trace[i])
    ensures Fold(PropertyPart.Ops(), trace[i].log).Some? && StoredFrom(trace[i].file.changes, trace[i].log, 0)
    ensures CorrectionsRight(PropertyPart.ThePart(), trace[i])
  {
    PropertyPart.PartLawful();
    RunInv(PropertyPart.ThePart(), trace, i);
    RunHealthy(PropertyPart.ThePart(), trace, i);
    EveryCorrection(PropertyPart.ThePart(), trace, i);
    hide Run, CorrectionsRight, StoredInv, CacheInv, CountInv, UpdatesInv, WritersInv;
  }

  /** The carets are ephemeral: when a snapshot is stored, changes from more than one period before it are deleted,
      and all others stay as first written. Every revision has contents, in every run. */
  lemma CaretRuns(trace: seq<Server<CaretDelta.Carets, CaretDelta.Delta>>, i: nat)
    requires Run(CaretPart.ThePart(), trace) && i < |trace|
    ensures Inv(CaretPart.ThePart(), trace[i])
    ensures Fold(CaretPart.Ops(), trace[i].log).Some?
    ensures StoredFrom(trace[i].file.changes, trace[i].log, DeleteBefore(trace[i].highest))
    ensures CorrectionsRight(CaretPart.ThePart(), trace[i])
  {
    CaretPart.PartLawful();
    RunInv(CaretPart.ThePart(), trace, i);
    RunHealthy(CaretPart.ThePart(), trace, i);
    EveryCorrection(CaretPart.ThePart(), trace, i);
    hide Run, CorrectionsRight, StoredInv, CacheInv, CountInv, UpdatesInv, WritersInv;
  }

  /** Where every revision has contents, whatever the server gives as a difference leads to its revision. */
  lemma HealthyDiff<S(!new), D(!new)>(p: Part<S, D>, trace: seq<Server<S, D>>, i: nat, base: nat, change: Change<D>)
    requires Lawful(p.ops) && DiffLaw(p) && Run(p, trace) && i < |trace| && Fold(p.ops, trace[i].log).Some?
    requires ServerReads.IsDiff(p, trace[i], base, change)
    ensures ServerReads.Leads(p.ops, trace[i].log, base, change)
  {
    hide Run, FileInv, UpdatesInv, CountInv, WritersInv, Fold, ServerReads.IsDiff, EmptyLaw, ComposeLaw, DocumentLaw,
      DiffLaw;
    RunInv(p, trace, i);
    ServerReads.DiffIsLater(p, trace[i], base, change);
    FoldSplit(p.ops, trace[i].log, change.revNum + 1);
    ServerReads.DiffLeads(p, trace[i], base, change);
  }

  /** Also after old changes have been deleted, every difference that the server gives for the carets leads from its
      base to its revision. */
  lemma CaretDifferences(trace: seq<Server<CaretDelta.Carets, CaretDelta.Delta>>, i: nat, base: nat,
      change: Change<CaretDelta.Delta>)
    requires Run(CaretPart.ThePart(), trace) && i < |trace|
    requires ServerReads.IsDiff(CaretPart.ThePart(), trace[i], base, change)
    ensures ServerReads.Leads(CaretPart.Ops(), trace[i].log, base, change)
  {
    CaretPart.PartLawful();
    assert CaretPart.ThePart().ops == CaretPart.Ops();
    hide Run, CaretPart.ThePart, EmptyLaw, ComposeLaw, DocumentLaw, DiffLaw, MergeLaw, Fold, ServerReads.IsDiff;
    RunHealthy(CaretPart.ThePart(), trace, i);
    HealthyDiff(CaretPart.ThePart(), trace, i, base, change);
  }

  /** When stored snapshots are written at most one period late, the check accepts the carets, and every revision
      from the stored snapshot on can be rebuilt from it. */
  lemma CaretHistory(trace: seq<Server<CaretDelta.Carets, CaretDelta.Delta>>, i: nat, r: nat)
    requires Run(CaretPart.ThePart(), trace) && i < |trace|
    requires forall j: nat :: j < i ==> ServerRetention.PromptIn(CaretPart.ThePart(), trace, j)
    ensures Retention.History(CaretPart.Ops(), ServerRetention.Kept(trace[i]))
    ensures r < |trace[i].log| && (trace[i].file.stored.Some? ==> trace[i].file.stored.value.0 <= r) ==>
      Snapshot(CaretPart.ThePart(), ServerRetention.Fresh(trace[i]), r) == At(CaretPart.Ops(), trace[i].log, r)
  {
    var p := CaretPart.ThePart();
    CaretPart.PartLawful();
    assert p.ephemeral && p.ops == CaretPart.Ops();
    hide CaretPart.ThePart, CaretPart.Ops, Run, EmptyLaw, DiffLaw, Snapshot, At;
    ServerRetention.HistoryInRuns(p, trace, i);
    if r < |trace[i].log| && (trace[i].file.stored.Some? ==> trace[i].file.stored.value.0 <= r) {
      ServerRetention.FreshReads(p, trace, i, r);
    }
  }

  // ----- Updates return -----

  /** In every state of every run of the properties, every update that has not failed can still return, without
      anything else happening. */
  lemma PropertyAnswers(trace: seq<Server<PropertyPart.Properties, PropertyPart.Delta>>, i: nat, u: nat,
      e: PropertyPart.Properties)
      returns (s': Server<PropertyPart.Properties, PropertyPart.Delta>)
    requires Run(PropertyPart.ThePart(), trace) && i < |trace| && u in trace[i].updates
    requires !trace[i].updates[u].phase.Done? && !trace[i].updates[u].phase.Failed?
    requires if trace[i].updates[u].phase.Start? then
               Expects(PropertyPart.ThePart(), trace[i].log, trace[i].updates[u].request, e)
             else trace[i].updates[u].phase.expected == e
    ensures Progress.OwnSteps(PropertyPart.ThePart(), trace[i], s', u) && Progress.Alone(trace[i], s', u)
    ensures Progress.Returned(PropertyPart.ThePart(), s', u, e)
  {
    var p, s := PropertyPart.ThePart(), trace[i];
    PropertyPart.PartLawful();
    PropertyPart.AlwaysPossible();
    RunHealthy(p, trace, i);
    RunInv(p, trace, i);
    assert !p.ephemeral && p.ops == PropertyPart.Ops();
    hide Run, PropertyPart.ThePart, PropertyPart.Ops, EmptyLaw, ComposeLaw, DocumentLaw, DiffLaw, MergeLaw, Inv,
      Fold, Expects, Progress.Feasible, Progress.OwnSteps, Progress.Returned, ServerRuns.CanRead, HasRebase, IsAt;
    DurablePromising(p, s, u, e);
    if s.updates[u].phase.Correcting? {
      Progress.DurableCorrects(p, s, u);
    } else {
      Progress.MergeFeasible(p, s, s.updates[u].request, e);
    }
    s' := Progress.CanReturn(p, s, u, e);
  }

  /** What can always be read of a durable part. */
  lemma DurablePromising<S(!new), D(!new)>(p: Part<S, D>, s: Server<S, D>, u: nat, e: S)
    requires Inv(p, s) && !p.ephemeral && Fold(p.ops, s.log).Some? && u in s.updates && !s.updates[u].phase.Failed?
    requires if s.updates[u].phase.Start? then Expects(p, s.log, s.updates[u].request, e)
             else s.updates[u].phase.expected == e
    ensures Progress.Promising(p, s, u, e) && ServerRuns.CanRead(p, s, s.file.partRev) && Bound(p, s) == 0
    ensures Expects(p, s.log, s.updates[u].request, e)
  {
    ServerRuns.LastReads(p, s);
    if s.updates[u].phase.Start? {
      ServerRuns.DurableReads(p, s, s.updates[u].request.base);
    }
    hide Inv, At, ServerRuns.CanRead;
    Progress.PromisingExpects(p, s, u, e);
  }

  /** What happened from the base of a request up to revision `r` does not only update a caret that the client has
      removed. */
  ghost predicate CaretsThereAt(log: seq<CaretDelta.Delta>, request: Request<CaretDelta.Delta>, e: CaretDelta.Carets,
      r: nat)
    requires request.base < r < |log|
  {
    forall id :: CaretPart.OnlyUpdated(log[request.base + 1..r + 1], id) ==> id in e
  }

  ghost predicate CaretsThere(log: seq<CaretDelta.Delta>, request: Request<CaretDelta.Delta>, e: CaretDelta.Carets) {
    forall r :: request.base < r < |log| ==> CaretsThereAt(log, request, e, r)
  }

  lemma CaretRebases(s: Server<CaretDelta.Carets, CaretDelta.Delta>, request: Request<CaretDelta.Delta>,
      e: CaretDelta.Carets)
    requires Expects(CaretPart.ThePart(), s.log, request, e) && CaretsThere(s.log, request, e)
    ensures forall r, contents :: request.base < r < |s.log| && IsAt(CaretPart.ThePart(), s.log, r, contents) ==>
      HasRebase(CaretPart.ThePart(), request.delta, e, s.log[request.base + 1..r + 1], contents)
  {
    hide Fold, ApplyAll, HasRebase;
    forall r, contents | request.base < r < |s.log| && IsAt(CaretPart.ThePart(), s.log, r, contents)
      ensures HasRebase(CaretPart.ThePart(), request.delta, e, s.log[request.base + 1..r + 1], contents)
    {
      AtLater(CaretPart.Ops(), s.log, request.base, r);
      var since := s.log[request.base + 1..r + 1];
      assert CaretsThereAt(s.log, request, e, r);
      CaretPart.HasRebaseExactly(At(CaretPart.Ops(), s.log, request.base).value, request.delta, e, since, contents);
    }
  }

  lemma CaretFeasible(s: Server<CaretDelta.Carets, CaretDelta.Delta>, u: nat, e: CaretDelta.Carets)
    requires var p := CaretPart.ThePart();
      && Inv(p, s) && u in s.updates && Progress.Promising(p, s, u, e) && Fold(p.ops, s.log).Some?
      && ServerRuns.CanRead(p, s, s.file.partRev) && Bound(p, s) <= s.updates[u].request.base + 1
    requires CaretsThere(s.log, s.updates[u].request, e)
    ensures Progress.Feasible(CaretPart.ThePart(), s, s.updates[u].request, e)
  {
    CaretPart.PartLawful();
    hide CaretPart.ThePart, EmptyLaw, ComposeLaw, DocumentLaw, DiffLaw, MergeLaw, Inv, CaretsThere, Fold, Expects,
      Progress.Feasible, ServerRuns.CanRead, HasRebase, IsAt;
    Progress.PromisingExpects(CaretPart.ThePart(), s, u, e);
    CaretRebases(s, s.updates[u].request, e);
    Progress.MergeFeasible(CaretPart.ThePart(), s, s.updates[u].request, e);
  }

  /** In every state of every run of the carets, every update that has not failed can still return, without anything
      else happening, as long as what it takes can be read, and its client has not removed a caret that others have
      only updated since. */
  lemma CaretAnswers(trace: seq<Server<CaretDelta.Carets, CaretDelta.Delta>>, i: nat, u: nat, e: CaretDelta.Carets)
      returns (s': Server<CaretDelta.Carets, CaretDelta.Delta>)
    requires Run(CaretPart.ThePart(), trace) && i < |trace| && u in trace[i].updates
    requires !trace[i].updates[u].phase.Done? && Progress.Promising(CaretPart.ThePart(), trace[i], u, e)
    requires var request := trace[i].updates[u].request;
      if trace[i].updates[u].phase.Correcting? then
        ServerRuns.CanRead(CaretPart.ThePart(), trace[i], trace[i].updates[u].phase.revNum)
      else ServerRuns.CanRead(CaretPart.ThePart(), trace[i], trace[i].file.partRev) &&
           Bound(CaretPart.ThePart(), trace[i]) <= request.base + 1 && CaretsThere(trace[i].log, request, e)
    ensures Progress.OwnSteps(CaretPart.ThePart(), trace[i], s', u) && Progress.Alone(trace[i], s', u)
    ensures Progress.Returned(CaretPart.ThePart(), s', u, e)
  {
    var p, s := CaretPart.ThePart(), trace[i];
    CaretPart.PartLawful();
    CaretPart.DiffsAlways();
    RunHealthy(p, trace, i);
    RunInv(p, trace, i);
    assert p.ops == CaretPart.Ops();
    hide Run, CaretPart.ThePart, CaretPart.Ops, EmptyLaw, ComposeLaw, DocumentLaw, DiffLaw, MergeLaw, Inv, CaretsThere,
      Fold, Expects, Progress.Feasible, Progress.OwnSteps, Progress.Returned, ServerRuns.CanRead, HasRebase, IsAt;
    if !s.updates[u].phase.Correcting? {
      CaretFeasible(s, u, e);
    }
    s' := Progress.CanReturn(p, s, u, e);
  }

  /** The merge of a request with all that happened since its base is a body. */
  ghost predicate MergesToBody(log: seq<BodyDelta.Delta>, request: Request<BodyDelta.Delta>) {
    request.base + 1 < |log| && At(BodyPart.Ops(), log, request.base).Some? ==>
      var server := ComposeAll(BodyPart.Ops(), [], log[request.base + 1..], false);
      server.Some? ==>
        BodyDelta.IsBody(BodyTransform.Weave(At(BodyPart.Ops(), log, request.base).value, server.value, request.delta,
          true))
  }

  lemma BodyRebaseAt(log: seq<BodyDelta.Delta>, request: Request<BodyDelta.Delta>, e: BodyPart.Body, r: nat,
      contents: BodyPart.Body)
    requires Expects(BodyPart.ThePart(), log, request, e) && request.base < r < |log|
    requires IsAt(BodyPart.ThePart(), log, r, contents)
    ensures HasRebase(BodyPart.ThePart(), request.delta, e, log[request.base + 1..r + 1], contents)
    ensures var d, server := BodyPart.Rebased(request.delta, log[request.base + 1..r + 1]),
                             ComposeAll(BodyPart.Ops(), [], log[request.base + 1..r + 1], false);
      && d.Some? && server.Some?
      && (BodyPart.BodyApply(contents, d.value).Some? <==>
            BodyDelta.IsBody(BodyTransform.Weave(At(BodyPart.Ops(), log, request.base).value, server.value,
              request.delta, true)))
  {
    hide Fold, ApplyAll, ComposeAll, BodyTransform.Weave, BodyPart.BodyApply, BodyPart.Rebased;
    AtLater(BodyPart.Ops(), log, request.base, r);
    var since := log[request.base + 1..r + 1];
    BodyPart.RebaseIsMerge(At(BodyPart.Ops(), log, request.base).value, request.delta, e, since, contents);
    assert BodyPart.ThePart().rebases(request.delta, e, since, contents, BodyPart.Rebased(request.delta, since).value);
  }

  lemma BodyFeasible(s: Server<BodyPart.Body, BodyDelta.Delta>, request: Request<BodyDelta.Delta>, e: BodyPart.Body)
    requires Inv(BodyPart.ThePart(), s) && Expects(BodyPart.ThePart(), s.log, request, e)
    requires Fold(BodyPart.Ops(), s.log).Some? && ServerRuns.CanRead(BodyPart.ThePart(), s, s.file.partRev)
    requires MergesToBody(s.log, request)
    ensures Progress.Feasible(BodyPart.ThePart(), s, request, e)
  {
    var p := BodyPart.ThePart();
    hide Inv, Fold, ComposeAll, BodyTransform.Weave, BodyPart.BodyApply, BodyPart.Rebased, HasRebase,
      ServerRuns.CanRead;
    forall r, contents | request.base < r < |s.log| && IsAt(p, s.log, r, contents)
      ensures HasRebase(p, request.delta, e, s.log[request.base + 1..r + 1], contents)
    {
      BodyRebaseAt(s.log, request, e, r, contents);
    }
    ServerRuns.ReadsRight(p, s, s.file.partRev);
    var r := s.file.partRev;
    forall d | Made(p, s.log, request, e, r, d, false) ensures Fold(p.ops, s.log + [d]).Some? {
      assert s.log[request.base + 1..r + 1] == s.log[request.base + 1..];
      BodyRebaseAt(s.log, request, e, r, Fold(p.ops, s.log).value);
      assert Some(d) == BodyPart.Rebased(request.delta, s.log[request.base + 1..r + 1]);
      assert BodyPart.BodyApply(Fold(p.ops, s.log).value, d).Some?;
      FoldMore(p.ops, s.log, d);
    }
  }

  lemma BodyReturns(s: Server<BodyPart.Body, BodyDelta.Delta>, u: nat, e: BodyPart.Body)
      returns (s': Server<BodyPart.Body, BodyDelta.Delta>)
    requires Inv(BodyPart.ThePart(), s) && u in s.updates && Fold(BodyPart.Ops(), s.log).Some?
    requires !s.updates[u].phase.Done? && !s.updates[u].phase.Failed?
    requires if s.updates[u].phase.Start? then Expects(BodyPart.ThePart(), s.log, s.updates[u].request, e)
             else s.updates[u].phase.expected == e
    requires s.updates[u].phase.Correcting? || MergesToBody(s.log, s.updates[u].request)
    ensures Inv(BodyPart.ThePart(), s') && Progress.Alone(s, s', u)
    ensures Progress.OwnSteps(BodyPart.ThePart(), s, s', u) && Progress.Returned(BodyPart.ThePart(), s', u, e)
    ensures s'.updates[u].phase.appended <==> s'.log != s.log || s.updates[u].phase.Correcting?
    ensures s'.log != s.log ==> s'.updates[u].phase.reply.revNum == |s.log|
  {
    var p := BodyPart.ThePart();
    BodyPart.PartLawful();
    BodyPart.DiffsAlways();
    assert !p.ephemeral && p.ops == BodyPart.Ops();
    hide BodyPart.ThePart, BodyPart.Ops, EmptyLaw, ComposeLaw, DocumentLaw, DiffLaw, Inv, MergesToBody, Fold, Expects,
      Progress.Feasible, Progress.OwnSteps, Progress.Returned, ServerRuns.CanRead, HasRebase, IsAt;
    DurablePromising(p, s, u, e);
    if s.updates[u].phase.Correcting? {
      Progress.DurableCorrects(p, s, u);
    } else {
      BodyFeasible(s, s.updates[u].request, e);
    }
    s' := Progress.CanReturn(p, s, u, e);
  }

  /** In every state of every run of the body, as long as its revisions have contents, every update that has not failed
      can still return, without anything else happening, if its merge with all that happened since is a body. */
  lemma BodyAnswers(trace: seq<Server<BodyPart.Body, BodyDelta.Delta>>, i: nat, u: nat, e: BodyPart.Body)
      returns (s': Server<BodyPart.Body, BodyDelta.Delta>)
    requires Run(BodyPart.ThePart(), trace) && i < |trace| && u in trace[i].updates
    requires Fold(BodyPart.Ops(), trace[i].log).Some?
    requires !trace[i].updates[u].phase.Done? && !trace[i].updates[u].phase.Failed?
    requires if trace[i].updates[u].phase.Start? then
               Expects(BodyPart.ThePart(), trace[i].log, trace[i].updates[u].request, e)
             else trace[i].updates[u].phase.expected == e
    requires trace[i].updates[u].phase.Correcting? || MergesToBody(trace[i].log, trace[i].updates[u].request)
    ensures Progress.OwnSteps(BodyPart.ThePart(), trace[i], s', u) && Progress.Alone(trace[i], s', u)
    ensures Progress.Returned(BodyPart.ThePart(), s', u, e)
  {
    BodyPart.PartLawful();
    hide Run, BodyPart.ThePart, EmptyLaw, ComposeLaw, DocumentLaw, DiffLaw, Inv, MergesToBody, Fold, Expects,
      Progress.OwnSteps, Progress.Returned;
    RunInv(BodyPart.ThePart(), trace, i);
    s' := BodyReturns(trace[i], u, e);
  }

  lemma RebasedAppend(log: seq<BodyDelta.Delta>, request: Request<BodyDelta.Delta>, expected: BodyPart.Body, r: nat)
    requires var p := BodyPart.ThePart();
      && 1 <= r < |log| && At(p.ops, log, r).Some?
      && Expects(p, log, request, expected) && Made(p, log, request, expected, r - 1, log[r], false)
    ensures var base, server := At(BodyPart.Ops(), log, request.base).value,
                                ComposeAll(BodyPart.Ops(), [], log[request.base + 1..r], false);
      server.Some? && At(BodyPart.Ops(), log, r).value == BodyTransform.Weave(base, server.value, request.delta, true)
  {
    var ops := BodyPart.Ops();
    RebasedAt(BodyPart.ThePart(), log, request, expected, r);
    hide BodyTransform.Weave, ComposeAll, Fold, ApplyAll, Made, Expects, At;
    var base, current := At(ops, log, request.base).value, At(ops, log, r - 1).value;
    BodyPart.RebaseIsMerge(base, request.delta, expected, log[request.base + 1..r], current);
  }

  /** What a rebased body change has made of the body, in every run: the merge of the client's change with
      everything that came between its base and the moment it was appended, of which the latter comes first. */
  lemma BodyAppendIsMerge(trace: seq<Server<BodyPart.Body, BodyDelta.Delta>>, i: nat, u: nat)
    requires Run(BodyPart.ThePart(), trace) && i < |trace| && u in trace[i].updates
    requires trace[i].updates[u].phase.Done? && trace[i].updates[u].phase.appended
    requires trace[i].updates[u].request.base + 1 < trace[i].updates[u].phase.reply.revNum
    ensures var log, request, r := trace[i].log, trace[i].updates[u].request, trace[i].updates[u].phase.reply.revNum;
      && request.base < r < |log|
      && At(BodyPart.Ops(), log, request.base).Some? && At(BodyPart.Ops(), log, r).Some?
      && var server := ComposeAll(BodyPart.Ops(), [], log[request.base + 1..r], false);
         server.Some? &&
         At(BodyPart.Ops(), log, r).value ==
           BodyTransform.Weave(At(BodyPart.Ops(), log, request.base).value, server.value, request.delta, true)
  {
    var s := trace[i];
    BodyPart.PartLawful();
    CorrectionIsRight(BodyPart.ThePart(), trace, i, u);
    hide Run, Fold, BodyTransform.Weave, ComposeAll;
    RebasedAppend(s.log, s.updates[u].request, s.updates[u].phase.expected, s.updates[u].phase.reply.revNum);
  }

  /** A request of which nothing was left at revision `r`: its client has inserted nothing, and deleted only what
      was deleted since its base. It expects the body at `r` exactly when the changes since, transformed over its
      own, leave alone what it expects; if these changes only delete, that is when both have deleted the same. */
  ghost predicate EmptyReplyCase(log: seq<BodyDelta.Delta>, request: Request<BodyDelta.Delta>, expected: BodyPart.Body,
      r: nat) {
    && request.base <= r < |log|
    && var server := ComposeAll(BodyPart.Ops(), [], log[request.base + 1..r + 1], false);
    && server.Some?
    && BodyTransform.NoInserts(request.delta) && BodyTransform.KeepsWhat(server.value, request.delta)
    && var d, right := BodyDelta.Transform(request.delta, server.value, false),
      At(BodyPart.Ops(), log, r) == Some(expected);
    && BodyDelta.Span(d) <= |expected|
    && (right <==> BodyDelta.Apply(expected, d) == expected)
    && (BodyTransform.NoInserts(server.value) ==> (right <==> BodyTransform.KeepsWhat(request.delta, server.value)))
  }

  lemma EmptyReplyMeans(log: seq<BodyDelta.Delta>, request: Request<BodyDelta.Delta>, expected: BodyPart.Body, r: nat)
    requires EmptyReplyCase(log, request, expected, r)
    ensures BodyTransform.NoInserts(request.delta)
  {
    hide ComposeAll, BodyDelta.Transform, BodyDelta.Apply, BodyTransform.KeepsWhat, At;
  }

  lemma VanishedRebased(log: seq<BodyDelta.Delta>, request: Request<BodyDelta.Delta>, expected: BodyPart.Body, r: nat)
    requires Expects(BodyPart.ThePart(), log, request, expected)
    requires Vanished(BodyPart.ThePart(), log, request, expected, r)
    ensures request.base <= r < |log| && At(BodyPart.Ops(), log, request.base).Some? && At(BodyPart.Ops(), log, r).Some?
    ensures var base, since := At(BodyPart.Ops(), log, request.base).value, log[request.base + 1..r + 1];
      && BodyPart.BodyApply(base, request.delta) == Some(expected)
      && ApplyAll(BodyPart.Ops(), base, since) == At(BodyPart.Ops(), log, r)
      && BodyPart.Rebased(request.delta, since) == Some([])
  {
    hide Fold, At, ApplyAll;
    VanishedMeans(BodyPart.ThePart(), log, request, expected, r);
    NothingRebased();
  }

  lemma NothingRebased()
    ensures BodyPart.Rebased([], []) == Some([])
  {
  }

  lemma VanishedCase(log: seq<BodyDelta.Delta>, request: Request<BodyDelta.Delta>, expected: BodyPart.Body, r: nat)
    requires Expects(BodyPart.ThePart(), log, request, expected)
    requires Vanished(BodyPart.ThePart(), log, request, expected, r)
    ensures EmptyReplyCase(log, request, expected, r)
  {
    hide Fold, At, ApplyAll, Made, Expects, Vanished, ComposeAll, BodyPart.Rebased, BodyPart.BodyApply,
      BodyDelta.Transform, BodyDelta.Apply, BodyDelta.Span, BodyTransform.KeepsWhat, BodyTransform.NoInserts,
      BodyTransform.Weave;
    VanishedRebased(log, request, expected, r);
    var ops := BodyPart.Ops();
    var base, since, current := At(ops, log, request.base).value, log[request.base + 1..r + 1], At(ops, log, r).value;
    BodyPart.RebaseVanishes(base, request.delta, expected, since, current);
    BodyPart.VanishedIsExpected(base, request.delta, expected, since, current);
  }

  /** When an update of the body has returned without appending, in any run: the reply is right exactly in the case
      described above. */
  lemma BodyEmptyReply(trace: seq<Server<BodyPart.Body, BodyDelta.Delta>>, i: nat, u: nat)
    requires Run(BodyPart.ThePart(), trace) && i < |trace| && u in trace[i].updates
    requires trace[i].updates[u].phase.Done? && !trace[i].updates[u].phase.appended
    ensures var log, Done(expected, reply, _) := trace[i].log, trace[i].updates[u].phase;
      && EmptyReplyCase(log, trace[i].updates[u].request, expected, reply.revNum)
      && (Right(BodyPart.ThePart(), log, expected, reply) <==> At(BodyPart.Ops(), log, reply.revNum) == Some(expected))
  {
    var s := trace[i];
    BodyPart.PartLawful();
    EmptyReplyIsRight(BodyPart.ThePart(), trace, i, u);
    hide Run, Fold, EmptyReplyCase;
    VanishedCase(s.log, s.updates[u].request, s.updates[u].phase.expected, s.updates[u].phase.reply.revNum);
  }

  // ----- Bodies whose final newline is left alone -----

  /** The client's change leaves the final newline of its base alone. Nothing is rebased over the first contents
      of an empty body. */
  ghost predicate Civil(s: Server<BodyPart.Body, BodyDelta.Delta>) {
    forall u :: u in s.updates && s.updates[u].phase.Appending? ==> CivilUpdate(s.log, s.updates[u])
  }

  ghost predicate CivilUpdate(log: seq<BodyDelta.Delta>, update: Update<BodyPart.Body, BodyDelta.Delta>)
    requires update.phase.Appending?
  {
    var r := update.request.base;
    r < |log| && At(BodyPart.Ops(), log, r).Some? ==>
      var base := At(BodyPart.Ops(), log, r).value;
      BodyNewline.Tame(base, update.request.delta) && (base == [] ==> update.phase.asGiven)
  }

  /** What a request becomes at the last revision of a log leaves the final newline alone, too. */
  lemma MadeTame(log: seq<BodyDelta.Delta>, request: Request<BodyDelta.Delta>, e: BodyPart.Body, r: nat,
      d: BodyDelta.Delta, asGiven: bool)
    requires Expects(BodyPart.ThePart(), log, request, e) && Made(BodyPart.ThePart(), log, request, e, r, d, asGiven)
    requires |log| == r + 1 && BodyNewline.TameAll([], log)
    requires var base := At(BodyPart.Ops(), log, request.base).value;
      BodyNewline.Tame(base, request.delta) && (base == [] ==> asGiven)
    ensures BodyNewline.TameAll([], log + [d])
  {
    var ops := BodyPart.Ops();
    assert log[..r + 1] == log && log[request.base + 1..] == log[request.base + 1..r + 1];
    AtLater(ops, log, request.base, r);
    BodyNewline.TameRest([], log, request.base + 1);
    var base, since, current := At(ops, log, request.base).value, log[request.base + 1..r + 1], At(ops, log, r).value;
    hide Expects, BodyNewline.TameAll, Fold, ApplyAll, BodyPart.Rebased, BodyPart.BodyApply, BodyNewline.Tame;
    if !asGiven { BodyNewline.RebaseTame(base, request.delta, since, current); }
    BodyNewline.TameMore([], log, current, d);
  }

  lemma TheOps()
    ensures BodyPart.ThePart().ops == BodyPart.Ops()
  {
  }

  lemma AppendTame(s: Server<BodyPart.Body, BodyDelta.Delta>, u: nat)
    requires Inv(BodyPart.ThePart(), s) && Civil(s) && BodyNewline.TameAll([], s.log)
    requires u in s.updates && s.updates[u].phase.Appending? && s.updates[u].phase.target == s.file.rev + 1
    ensures BodyNewline.TameAll([], s.log + [s.updates[u].phase.toAppend])
  {
    hide Inv, BodyPart.ThePart, BodyNewline.TameAll, Made, Fold, BodyNewline.Tame;
    var Appending(e, r, d, asGiven, _) := s.updates[u].phase;
    UpdateKnown(BodyPart.ThePart(), s, u);
    assert CivilUpdate(s.log, s.updates[u]);
    TheOps();
    MadeTame(s.log, s.updates[u].request, e, r, d, asGiven);
  }

  lemma StepTame(s: Server<BodyPart.Body, BodyDelta.Delta>, s': Server<BodyPart.Body, BodyDelta.Delta>,
      a: Action<BodyDelta.Delta>)
    requires Inv(BodyPart.ThePart(), s) && Civil(s) && BodyNewline.TameAll([], s.log)
    requires Step(BodyPart.ThePart(), s, s', a)
    ensures BodyNewline.TameAll([], s'.log)
  {
    hide Inv, Step, Civil, BodyNewline.TameAll, BodyPart.ThePart;
    StepAppends(BodyPart.ThePart(), s, s', a);
    if s'.log != s.log {
      var u :| AppendedOne(s, s', u);
      AppendTame(s, u);
    }
  }

  /** In every run in which all clients leave the final newline alone, every revision of the body has contents,
      and each change in the log, rebased or not, leaves the final newline alone as well. */
  lemma {:induction false} BodyRuns(trace: seq<Server<BodyPart.Body, BodyDelta.Delta>>, i: nat)
    requires Run(BodyPart.ThePart(), trace) && i < |trace|
    requires forall j :: 0 <= j < i ==> Civil(trace[j])
    ensures Fold(BodyPart.Ops(), trace[i].log).Some? && BodyNewline.TameAll([], trace[i].log)
  {
    if i == 0 {
      InitTame();
    } else {
      hide Run, Civil;
      BodyRuns(trace, i - 1);
      NextTame(trace, i - 1);
    }
  }

  lemma NextTame(trace: seq<Server<BodyPart.Body, BodyDelta.Delta>>, i: nat)
    requires Run(BodyPart.ThePart(), trace) && i + 1 < |trace|
    requires Civil(trace[i]) && BodyNewline.TameAll([], trace[i].log)
    ensures BodyNewline.TameAll([], trace[i + 1].log)
  {
    var p := BodyPart.ThePart();
    BodyPart.PartLawful();
    hide Inv, Step, Civil, BodyNewline.TameAll, DiffLaw, BodyPart.ThePart;
    RunInv(p, trace, i);
    assert NextIn(p, trace, i);
    var a :| Step(p, trace[i], trace[i + 1], a);
    StepTame(trace[i], trace[i + 1], a);
  }

  lemma InitTame()
    ensures BodyNewline.TameAll([], [[]])
  {
    var log: seq<BodyDelta.Delta> := [[]];
    assert log[..0] == [];
    assert BodyPart.BodyApply([], []) == Some([]);
  }
}
