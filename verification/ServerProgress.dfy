/** How updates can still be finished. */
module ServerProgress {
  import opened Wrappers
  import opened Part
  import opened ChangeLog
  import opened ServerSteps
  import opened ServerSafety
  import opened ServerRuns

  // ----- The correction -----

  /** Asked for its correction, an update fails exactly if the revision that it made cannot be read. Otherwise it
      gets a change that leads from what its client expects to that revision. */
  lemma CorrectExactly<S(!new), D(!new)>(p: Part<S, D>, s: Server<S, D>, s': Server<S, D>, u: nat)
    requires DiffLaw(p) && Inv(p, s) && Step(p, s, s', Correct(u))
    ensures var Correcting(e, r) := s.updates[u].phase;
      && r < |s.log|
      && if CanRead(p, s, r) then
           exists d :: s' == s.At(u, Done(e, Change(r, d), true)) && p.ops.apply(e, d) == At(p.ops, s.log, r)
         else s' == s.At(u, Failed(true))
  {
    hide FileInv, UpdatesInv, WritersInv, CountInv, Snapshot, Fold, Made, Expects;
    UpdateKnown(p, s, u);
    SnapshotIsAt(p, s, s.updates[u].phase.revNum);
  }

  /** There is such a step whenever the revision can be read. */
  lemma CanCorrect<S(!new), D(!new)>(p: Part<S, D>, s: Server<S, D>, u: nat) returns (d: D)
    requires DiffLaw(p) && DiffsExist(p) && Inv(p, s) && u in s.updates && s.updates[u].phase.Correcting?
    requires CanRead(p, s, s.updates[u].phase.revNum)
    ensures var Correcting(e, r) := s.updates[u].phase;
      && r < |s.log| && Step(p, s, s.At(u, Done(e, Change(r, d), true)), Correct(u))
      && p.ops.apply(e, d) == At(p.ops, s.log, r)
  {
    hide FileInv, UpdatesInv, WritersInv, CountInv, Snapshot, Fold, Made;
    var Correcting(e, r) := s.updates[u].phase;
    UpdateKnown(p, s, u);
    SnapshotIsAt(p, s, r);
    assert HasDiff(p, e, Snapshot(p, s, r).value);
    d :| p.diffs(e, Snapshot(p, s, r).value, d);
  }

  // ----- The steps of one update -----

  predicate ActsFor<D>(a: Action<D>, u: nat) {
    (a.ReadBase? || a.ReadCurrent? || a.Rebase? || a.Check? || a.Commit? || a.Correct?) && a.u == u
  }

  ghost predicate OwnStep<S(!new), D(!new)>(p: Part<S, D>, s: Server<S, D>, s': Server<S, D>, u: nat) {
    exists a :: ActsFor(a, u) && Step(p, s, s', a)
  }

  ghost predicate OwnIn<S(!new), D(!new)>(p: Part<S, D>, trace: seq<Server<S, D>>, i: nat, u: nat)
    requires i + 1 < |trace|
  {
    OwnStep(p, trace[i], trace[i + 1], u)
  }

  /** One after the other, some steps of update `u` alone lead from `s` to `s'`. */
  ghost predicate OwnSteps<S(!new), D(!new)>(p: Part<S, D>, s: Server<S, D>, s': Server<S, D>, u: nat) {
    exists trace: seq<Server<S, D>> ::
      && trace != [] && trace[0] == s && trace[|trace| - 1] == s'
      && forall i: nat :: i + 1 < |trace| ==> OwnIn(p, trace, i, u)
  }

  lemma NoSteps<S(!new), D(!new)>(p: Part<S, D>, s: Server<S, D>, u: nat)
    ensures OwnSteps(p, s, s, u)
  {
    assert [s][|[s]| - 1] == s;
  }

  lemma OneMore<S(!new), D(!new)>(p: Part<S, D>, s: Server<S, D>, m: Server<S, D>, s': Server<S, D>, u: nat,
      a: Action<D>)
    requires OwnSteps(p, s, m, u) && ActsFor(a, u) && Step(p, m, s', a)
    ensures OwnSteps(p, s, s', u)
  {
    hide Step;
    var trace: seq<Server<S, D>> :| && trace != [] && trace[0] == s && trace[|trace| - 1] == m
                                    && forall i: nat :: i + 1 < |trace| ==> OwnIn(p, trace, i, u);
    var longer := trace + [s'];
    forall i: nat | i + 1 < |longer| ensures OwnIn(p, longer, i, u) {
      if i + 1 < |trace| { assert OwnIn(p, trace, i, u); }
    }
    assert longer[0] == s && longer[|longer| - 1] == s';
  }

  /** Such steps go on with any run. */
  lemma OwnStepsReachable<S(!new), D(!new)>(p: Part<S, D>, s: Server<S, D>, s': Server<S, D>, u: nat)
    requires Reachable(p, s) && OwnSteps(p, s, s', u)
    ensures Reachable(p, s')
  {
    hide Step, Reachable;
    var trace: seq<Server<S, D>> :| && trace != [] && trace[0] == s && trace[|trace| - 1] == s'
                                    && forall i: nat :: i + 1 < |trace| ==> OwnIn(p, trace, i, u);
    for i: nat := 0 to |trace| - 1
      invariant Reachable(p, trace[i])
    {
      assert OwnIn(p, trace, i, u);
      var a :| ActsFor(a, u) && Step(p, trace[i], trace[i + 1], a);
      ReachableStep(p, trace[i], trace[i + 1], a);
    }
  }

  // ----- How far they lead -----

  /** A request can be carried out: the log has contents, what it takes can be read, it can be rebased to each
      revision since its base, and what it becomes at the end of the log is valid there. */
  ghost predicate Feasible<S(!new), D(!new)>(p: Part<S, D>, s: Server<S, D>, request: Request<D>, e: S) {
    && Fold(p.ops, s.log).Some? && CanRead(p, s, s.file.partRev) && Bound(p, s) <= request.base + 1
    && (forall r, contents :: request.base < r < |s.log| && IsAt(p, s.log, r, contents) ==>
          HasRebase(p, request.delta, e, s.log[request.base + 1..r + 1], contents))
    && (forall d :: Made(p, s.log, request, e, s.file.partRev, d, false) ==> Fold(p.ops, s.log + [d]).Some?)
  }

  /** From `s` to `s'`, update `u` has moved on, and may have appended one change. Nothing else has happened. */
  ghost predicate Alone<S, D>(s: Server<S, D>, s': Server<S, D>, u: nat) {
    && Moves(s, s', u)
    && s.log <= s'.log && |s'.log| <= |s.log| + 1
    && s'.cache == s.cache && s'.highest == s.highest && s'.file.stored == s.file.stored
    && forall w :: w in s.writers ==> w in s'.writers && s'.writers[w] == s.writers[w]
  }

  /** By its own steps, update `u` has come from `s` to `m`, where it has not appended anything yet. */
  ghost predicate Along<S(!new), D(!new)>(p: Part<S, D>, s: Server<S, D>, m: Server<S, D>, u: nat, e: S) {
    && OwnSteps(p, s, m, u) && Inv(p, m) && Alone(s, m, u) && m.file == s.file && m.log == s.log
    && Feasible(p, m, m.updates[u].request, e)
  }

  /** By its own steps, update `u` has come from `s` to its end at `s'`. The reply leads from what the client expects
      to the revision that it names, unless nothing was left of the change there. */
  ghost predicate Finished<S(!new), D(!new)>(p: Part<S, D>, s: Server<S, D>, s': Server<S, D>, u: nat, e: S) {
    && OwnSteps(p, s, s', u) && Inv(p, s') && Alone(s, s', u)
    && s'.updates[u].phase.Done? && s'.updates[u].phase.expected == e
    && (s'.updates[u].phase.appended <==> s'.log != s.log)
    && (s'.log != s.log ==> s'.updates[u].phase.reply.revNum == |s.log|)
  }

  /** The next of its steps that leaves the file alone. */
  lemma Onward<S(!new), D(!new)>(p: Part<S, D>, s: Server<S, D>, m: Server<S, D>, u: nat, e: S, phase: Phase<S, D>,
      a: Action<D>)
    requires EmptyLaw(p.ops) && DiffLaw(p) && Along(p, s, m, u, e) && ActsFor(a, u) && Step(p, m, m.At(u, phase), a)
    ensures Along(p, s, m.At(u, phase), u, e)
  {
    hide Inv, Step, OwnSteps, EmptyLaw, DiffLaw, CanRead, Fold;
    var m' := m.At(u, phase);
    StepInv(p, m, m', a);
    OneMore(p, s, m, m', u, a);
    SameReads(p, m, m', m.file.partRev);
    FeasibleStill(p, m, m', m.updates[u].request, e);
    MovesOn(s, m, u, phase);
  }

  lemma FeasibleStill<S(!new), D(!new)>(p: Part<S, D>, s: Server<S, D>, s': Server<S, D>, request: Request<D>, e: S)
    requires Feasible(p, s, request, e)
    requires s'.file == s.file && s'.cache == s.cache && s'.log == s.log && s'.highest == s.highest
    ensures Feasible(p, s', request, e)
  {
    hide Fold, Made, IsAt, HasRebase, CanRead;
    SameReads(p, s, s', s.file.partRev);
  }

  lemma MovesOn<S, D>(s: Server<S, D>, m: Server<S, D>, u: nat, phase: Phase<S, D>)
    requires Alone(s, m, u)
    ensures Alone(s, m.At(u, phase), u)
  {
  }

  // ----- From each point to the end -----

  /** After an append that leaves contents, they can be read if those before could. */
  lemma NextReads<S(!new), D(!new)>(p: Part<S, D>, s: Server<S, D>, s': Server<S, D>, d: D)
    requires FileInv(p, s) && FileInv(p, s') && s'.log == s.log + [d] && s'.cache == s.cache && s'.highest == s.highest
    requires CanRead(p, s, s.file.partRev) && Bound(p, s) <= s.file.partRev && Fold(p.ops, s'.log).Some?
    ensures CanRead(p, s', s'.file.partRev)
  {
    hide Snapshot, Fold, StoredInv, Nearest;
    var r := s.file.partRev;
    assert |s.log| == r + 1 && s'.file.partRev == r + 1;
    SnapshotIsAt(p, s, r);
    SnapshotIsAt(p, s', r + 1);
    assert s'.log[..r + 2] == s'.log;
    assert r + 1 !in s.cache;
    assert Nearest(s.cache, r + 1) == Nearest(s.cache, r);
  }

  /** What an update is, after some of its steps. */
  lemma AlongPhase<S(!new), D(!new)>(p: Part<S, D>, s: Server<S, D>, m: Server<S, D>, u: nat, e: S)
    requires Along(p, s, m, u, e)
    ensures u in m.updates && UpdateInv(p, m, u, m.updates[u]) && FileInv(p, m)
    ensures |m.log| == m.file.partRev + 1 && Bound(p, m) <= m.file.partRev
    ensures Fold(p.ops, m.log).Some? && CanRead(p, m, m.file.partRev) && Bound(p, m) <= m.updates[u].request.base + 1
  {
    hide UpdateInv, FileInv, Fold, CanRead, OwnSteps;
    UpdateKnown(p, m, u);
  }

  /** The end of an update of which nothing was left. */
  lemma EndsEmpty<S(!new), D(!new)>(p: Part<S, D>, s: Server<S, D>, m: Server<S, D>, u: nat, e: S)
    requires Along(p, s, m, u, e) && m.updates[u].phase.Done? && m.updates[u].phase.expected == e
    requires !m.updates[u].phase.appended
    ensures Finished(p, s, m, u, e)
  {
    hide Inv, OwnSteps, Feasible;
  }

  /** From a change that has been appended to the end. */
  lemma FromAppended<S(!new), D(!new)>(p: Part<S, D>, s: Server<S, D>, m: Server<S, D>, u: nat, w: nat, e: S, d: D,
      asGiven: bool)
      returns (s': Server<S, D>)
    requires EmptyLaw(p.ops) && DiffLaw(p) && DiffsExist(p) && Along(p, s, m, u, e) && w !in m.writers
    requires var m' := Extended(p, m, u, w, e, d, asGiven); Inv(p, m') && OwnSteps(p, s, m', u)
    requires asGiven || Fold(p.ops, m.log + [d]).Some?
    ensures Finished(p, s, s', u, e)
  {
    hide Inv, OwnSteps, Feasible, EmptyLaw, DiffLaw, DiffsExist, Step, Fold, CanRead;
    var m' := Extended(p, m, u, w, e, d, asGiven);
    AlongPhase(p, s, m, u, e);
    assert Alone(s, m', u);
    if asGiven {
      s' := m';
    } else {
      HasFile(p, m');
      NextReads(p, m, m', d);
      var c := CanCorrect(p, m', u);
      s' := m'.At(u, Done(e, Change(m'.file.partRev, c), true));
      StepInv(p, m', s', Correct(u));
      OneMore(p, s, m', s', u, Correct(u));
    }
  }

  /** From a change that has been prepared for the current revision. */
  lemma FromPrepared<S(!new), D(!new)>(p: Part<S, D>, s: Server<S, D>, m: Server<S, D>, u: nat, e: S)
      returns (s': Server<S, D>)
    requires EmptyLaw(p.ops) && DiffLaw(p) && DiffsExist(p) && Along(p, s, m, u, e)
    requires m.updates[u].phase.Prepared? && m.updates[u].phase.expected == e
    requires m.updates[u].phase.current == m.file.partRev
    ensures Finished(p, s, s', u, e)
  {
    hide Inv, OwnSteps, Feasible, EmptyLaw, DiffLaw, DiffsExist, Step, Fold, CanRead, Made, Expects, Extended;
    var Prepared(_, r, d, asGiven) := m.updates[u].phase;
    var w := FreshWriter(m.writers);
    AlongPhase(p, s, m, u, e);
    PreparedValid(p, m, u, e);
    var m1 := m.At(u, Appending(e, r, d, asGiven, m.file.rev + 1));
    AppendSteps(p, m, u, w, e, d, asGiven);
    Onward(p, s, m, u, e, Appending(e, r, d, asGiven, m.file.rev + 1), Check(u));
    var m2 := Extended(p, m, u, w, e, d, asGiven);
    StepInv(p, m1, m2, Commit(u, w));
    OneMore(p, s, m1, m2, u, Commit(u, w));
    s' := FromAppended(p, s, m, u, w, e, d, asGiven);
  }

  lemma PreparedValid<S(!new), D(!new)>(p: Part<S, D>, m: Server<S, D>, u: nat, e: S)
    requires u in m.updates && UpdateInv(p, m, u, m.updates[u]) && Feasible(p, m, m.updates[u].request, e)
    requires m.updates[u].phase.Prepared? && m.updates[u].phase.expected == e
    requires m.updates[u].phase.current == m.file.partRev
    ensures m.updates[u].phase.asGiven || Fold(p.ops, m.log + [m.updates[u].phase.toAppend]).Some?
  {
    hide Made, Expects, Fold, CanRead, HasRebase;
  }

  /** The next step of an update that has the current snapshot: it ends, or has something to append. */
  lemma Rebases<S(!new), D(!new)>(p: Part<S, D>, s: Server<S, D>, m: Server<S, D>, u: nat, e: S)
      returns (phase: Phase<S, D>)
    requires EmptyLaw(p.ops) && DiffLaw(p) && Along(p, s, m, u, e)
    requires m.updates[u].phase.Current? && m.updates[u].phase.expected == e
    ensures Along(p, s, m.At(u, phase), u, e) && (phase.Done? || phase.Prepared?) && phase.expected == e
    ensures if phase.Done? then !phase.appended else phase.current == m.updates[u].phase.current
  {
    hide Inv, OwnSteps, EmptyLaw, DiffLaw, Step, Fold, CanRead, Expects, Server.At;
    var Current(_, r, contents) := m.updates[u].phase;
    var request := m.updates[u].request;
    AlongPhase(p, s, m, u, e);
    if r == request.base {
      phase := Attempt(p, e, r, request.delta, true);
      RebaseGiven(p, m, u);
    } else {
      assert HasRebase(p, request.delta, e, m.log[request.base + 1..r + 1], contents);
      var d :| p.rebases(request.delta, e, m.log[request.base + 1..r + 1], contents, d);
      phase := Attempt(p, e, r, d, false);
      CanRebase(p, m, u, e, r, contents, d);
    }
    Onward(p, s, m, u, e, phase, Rebase(u));
  }

  lemma RebaseGiven<S(!new), D(!new)>(p: Part<S, D>, s: Server<S, D>, u: nat)
    requires u in s.updates && s.updates[u].phase.Current?
    requires s.updates[u].phase.current == s.updates[u].request.base
    ensures var Current(e, r, _) := s.updates[u].phase;
      Step(p, s, s.At(u, Attempt(p, e, r, s.updates[u].request.delta, true)), Rebase(u))
  {
    hide Read, Attempt;
  }

  /** From the point where an update attempts to append its change. */
  lemma FromReady<S(!new), D(!new)>(p: Part<S, D>, s: Server<S, D>, m: Server<S, D>, u: nat, e: S)
      returns (s': Server<S, D>)
    requires EmptyLaw(p.ops) && DiffLaw(p) && DiffsExist(p) && Along(p, s, m, u, e)
    requires m.updates[u].phase == Ready(e)
    ensures Finished(p, s, s', u, e)
  {
    hide Inv, OwnSteps, Feasible, EmptyLaw, DiffLaw, DiffsExist, Step, Fold, CanRead, Server.At;
    AlongPhase(p, s, m, u, e);
    CanReadCurrent(p, m, u, e);
    var current := Current(e, m.file.partRev, Fold(p.ops, m.log).value);
    Onward(p, s, m, u, e, current, ReadCurrent(u));
    AtAgain(m, u, current, current);
    var m1 := m.At(u, current);
    var phase := Rebases(p, s, m1, u, e);
    AtAgain(m1, u, phase, phase);
    if phase.Done? {
      s' := m1.At(u, phase);
      EndsEmpty(p, s, s', u, e);
    } else {
      s' := FromPrepared(p, s, m1.At(u, phase), u, e);
    }
  }

  /** From a change that has been prepared for a revision which need not be current any longer. */
  lemma FromAnyPrepared<S(!new), D(!new)>(p: Part<S, D>, s: Server<S, D>, m: Server<S, D>, u: nat, e: S)
      returns (s': Server<S, D>)
    requires EmptyLaw(p.ops) && DiffLaw(p) && DiffsExist(p) && Along(p, s, m, u, e)
    requires m.updates[u].phase.Prepared? && m.updates[u].phase.expected == e
    ensures Finished(p, s, s', u, e)
  {
    hide Inv, OwnSteps, Feasible, EmptyLaw, DiffLaw, DiffsExist, Step, Server.At;
    if m.updates[u].phase.current == m.file.partRev {
      s' := FromPrepared(p, s, m, u, e);
    } else {
      assert Step(p, m, m.At(u, Ready(e)), Check(u)) by { NotNow(p, m, u); }
      Onward(p, s, m, u, e, Ready(e), Check(u));
      AtAgain(m, u, Ready(e), Ready(e));
      s' := FromReady(p, s, m.At(u, Ready(e)), u, e);
    }
  }

  /** A change prepared for a revision that is not current any longer is not appended. */
  lemma NotNow<S(!new), D(!new)>(p: Part<S, D>, s: Server<S, D>, u: nat)
    requires u in s.updates && s.updates[u].phase.Prepared? && s.updates[u].phase.current != s.file.partRev
    ensures Step(p, s, s.At(u, Ready(s.updates[u].phase.expected)), Check(u))
  {
  }

  /** The state after a race that was lost. `w` is the write of a snapshot that is asked for all the same. */
  function Lost<S, D>(s: Server<S, D>, u: nat, w: nat): Server<S, D>
    requires u in s.updates && s.updates[u].phase.Appending?
  {
    var r := s.updates[u].phase.current + 1;
    s.At(u, Ready(s.updates[u].phase.expected))
     .(writers := if r % CHANGES_PER_STORED_SNAPSHOT == 0 then s.writers[w := Asked(r)] else s.writers)
  }

  /** Whether an append comes about is decided by the file's revision number alone. If it has moved on, whichever part
      of the file has done that, the append changes nothing, and the update starts over. */
  lemma CommitExactly<S(!new), D(!new)>(p: Part<S, D>, s: Server<S, D>, s': Server<S, D>, u: nat, w: nat)
    requires Inv(p, s) && u in s.updates && s.updates[u].phase.Appending? && w !in s.writers
    ensures var Appending(e, _, d, asGiven, target) := s.updates[u].phase;
      Step(p, s, s', Commit(u, w)) <==>
        s' == if target == s.file.rev + 1 then Extended(p, s, u, w, e, d, asGiven) else Lost(s, u, w)
  {
    AppendingNow(p, s, u);
    hide Inv, Server.At, Step, Extended, Lost;
    var Appending(e, _, d, asGiven, target) := s.updates[u].phase;
    if target == s.file.rev + 1 { CommitNow(p, s, s', u, w); } else { CommitLate(p, s, s', u, w); }
  }

  lemma CommitNow<S(!new), D(!new)>(p: Part<S, D>, s: Server<S, D>, s': Server<S, D>, u: nat, w: nat)
    requires u in s.updates && s.updates[u].phase.Appending? && w !in s.writers
    requires s.updates[u].phase.target == s.file.rev + 1 && s.updates[u].phase.current == s.file.partRev
    ensures var Appending(e, _, d, asGiven, target) := s.updates[u].phase;
      Step(p, s, s', Commit(u, w)) <==> s' == Extended(p, s, u, w, e, d, asGiven)
  {
    hide Server.At;
  }

  lemma CommitLate<S(!new), D(!new)>(p: Part<S, D>, s: Server<S, D>, s': Server<S, D>, u: nat, w: nat)
    requires u in s.updates && s.updates[u].phase.Appending? && w !in s.writers
    requires s.updates[u].phase.target != s.file.rev + 1
    ensures Step(p, s, s', Commit(u, w)) <==> s' == Lost(s, u, w)
  {
    hide Server.At;
  }

  lemma AppendingNow<S(!new), D(!new)>(p: Part<S, D>, s: Server<S, D>, u: nat)
    requires Inv(p, s) && u in s.updates && s.updates[u].phase.Appending?
    ensures s.updates[u].phase.target == s.file.rev + 1 ==> s.updates[u].phase.current == s.file.partRev
    ensures s.updates[u].phase.target <= s.file.rev + 1
  {
    hide Inv, Made, Expects;
    UpdateKnown(p, s, u);
  }

  lemma LostAlong<S(!new), D(!new)>(p: Part<S, D>, s: Server<S, D>, m: Server<S, D>, u: nat, e: S, w: nat)
    requires EmptyLaw(p.ops) && DiffLaw(p) && Along(p, s, m, u, e) && w !in m.writers
    requires m.updates[u].phase.Appending? && m.updates[u].phase.target != m.file.rev + 1
    ensures Along(p, s, Lost(m, u, w), u, e)
  {
    hide Inv, Step, OwnSteps, EmptyLaw, DiffLaw, CanRead, Fold, Made, Expects;
    var m' := Lost(m, u, w);
    CommitExactly(p, m, m', u, w);
    StepInv(p, m, m', Commit(u, w));
    OneMore(p, s, m, m', u, Commit(u, w));
    FeasibleStill(p, m, m', m.updates[u].request, e);
  }

  /** From an append that is under way, whether or not its race is lost. */
  lemma FromAppending<S(!new), D(!new)>(p: Part<S, D>, s: Server<S, D>, m: Server<S, D>, u: nat, e: S)
      returns (s': Server<S, D>)
    requires EmptyLaw(p.ops) && DiffLaw(p) && DiffsExist(p) && Along(p, s, m, u, e)
    requires m.updates[u].phase.Appending? && m.updates[u].phase.expected == e
    ensures Finished(p, s, s', u, e)
  {
    hide Inv, OwnSteps, Feasible, EmptyLaw, DiffLaw, DiffsExist, Step, Fold, CanRead, Made, Expects, Extended;
    var Appending(_, r, d, asGiven, target) := m.updates[u].phase;
    var w := FreshWriter(m.writers);
    AlongPhase(p, s, m, u, e);
    if target == m.file.rev + 1 {
      AppendingValid(p, m, u, e);
      var m' := Extended(p, m, u, w, e, d, asGiven);
      CommitExactly(p, m, m', u, w);
      StepInv(p, m, m', Commit(u, w));
      OneMore(p, s, m, m', u, Commit(u, w));
      s' := FromAppended(p, s, m, u, w, e, d, asGiven);
    } else {
      LostAlong(p, s, m, u, e, w);
      s' := FromReady(p, s, Lost(m, u, w), u, e);
    }
  }

  lemma AppendingValid<S(!new), D(!new)>(p: Part<S, D>, m: Server<S, D>, u: nat, e: S)
    requires u in m.updates && UpdateInv(p, m, u, m.updates[u]) && Feasible(p, m, m.updates[u].request, e)
    requires m.updates[u].phase.Appending? && m.updates[u].phase.expected == e
    requires m.updates[u].phase.target == m.file.rev + 1
    ensures m.updates[u].phase.asGiven || Fold(p.ops, m.log + [m.updates[u].phase.toAppend]).Some?
  {
    hide Made, Expects, Fold, CanRead, HasRebase;
  }

  /** What an update can be expected to give: for one that has just begun, this supposes a request that is valid and
      whose base can be read. */
  ghost predicate Promising<S(!new), D(!new)>(p: Part<S, D>, s: Server<S, D>, u: nat, e: S)
    requires u in s.updates
  {
    if s.updates[u].phase.Start? then
      Expects(p, s.log, s.updates[u].request, e) && CanRead(p, s, s.updates[u].request.base)
    else !s.updates[u].phase.Failed? && s.updates[u].phase.expected == e
  }

  /** Wherever an update has got to before its append, however stale what it has read, and even if it is about to lose
      a race: if its request can be carried out, it can still get to its end by steps of its own. */
  lemma CanFinish<S(!new), D(!new)>(p: Part<S, D>, s: Server<S, D>, u: nat, e: S) returns (s': Server<S, D>)
    requires EmptyLaw(p.ops) && DiffLaw(p) && DiffsExist(p) && Inv(p, s) && u in s.updates
    requires !s.updates[u].phase.Done? && !s.updates[u].phase.Correcting? && Promising(p, s, u, e)
    requires Feasible(p, s, s.updates[u].request, e)
    ensures Finished(p, s, s', u, e)
  {
    NoSteps(p, s, u);
    hide Inv, OwnSteps, Feasible, EmptyLaw, DiffLaw, DiffsExist, Step, Expects, CanRead, Server.At;
    assert Moves(s, s, u);
    match s.updates[u].phase
    case Start =>
      CanReadBase(p, s, u, e);
      Onward(p, s, s, u, e, Ready(e), ReadBase(u));
      AtAgain(s, u, Ready(e), Ready(e));
      s' := FromReady(p, s, s.At(u, Ready(e)), u, e);
    case Ready(_) =>
      s' := FromReady(p, s, s, u, e);
    case Current(_, _, _) =>
      var phase := Rebases(p, s, s, u, e);
      AtAgain(s, u, phase, phase);
      if phase.Done? {
        s' := s.At(u, phase);
        EndsEmpty(p, s, s', u, e);
      } else {
        s' := FromAnyPrepared(p, s, s.At(u, phase), u, e);
      }
    case Prepared(_, _, _, _) =>
      s' := FromAnyPrepared(p, s, s, u, e);
    case Appending(_, _, _, _, _) =>
      s' := FromAppending(p, s, s, u, e);
  }

  /** Update `u` has returned. If it has appended its change, the reply leads from what its client expects to the
      revision that it names; otherwise, nothing was left of the change there. */
  ghost predicate Returned<S(!new), D(!new)>(p: Part<S, D>, s: Server<S, D>, u: nat, e: S) {
    && u in s.updates && s.updates[u].phase.Done? && s.updates[u].phase.expected == e
    && var reply := s.updates[u].phase.reply;
       if s.updates[u].phase.appended then Right(p, s.log, e, reply)
       else Vanished(p, s.log, s.updates[u].request, e, reply.revNum)
  }

  lemma DoneReturned<S(!new), D(!new)>(p: Part<S, D>, s: Server<S, D>, u: nat, e: S)
    requires Inv(p, s) && u in s.updates && s.updates[u].phase.Done? && s.updates[u].phase.expected == e
    ensures Returned(p, s, u, e)
  {
    hide Inv, Expects, Right, Vanished, Appended;
    UpdateKnown(p, s, u);
  }

  /** Every update that has not failed can still return, without anything else happening: one that has appended its
      change, if the revision that it made can be read, and any other, if its request can be carried out. */
  lemma CanReturn<S(!new), D(!new)>(p: Part<S, D>, s: Server<S, D>, u: nat, e: S) returns (s': Server<S, D>)
    requires EmptyLaw(p.ops) && DiffLaw(p) && DiffsExist(p) && Inv(p, s) && u in s.updates
    requires Promising(p, s, u, e) && !s.updates[u].phase.Done?
    requires if s.updates[u].phase.Correcting? then CanRead(p, s, s.updates[u].phase.revNum)
             else Feasible(p, s, s.updates[u].request, e)
    ensures OwnSteps(p, s, s', u) && Inv(p, s') && Alone(s, s', u) && Returned(p, s', u, e)
    ensures s'.updates[u].phase.appended <==> s'.log != s.log || s.updates[u].phase.Correcting?
    ensures s'.log != s.log ==> s'.updates[u].phase.reply.revNum == |s.log|
  {
    hide Inv, OwnSteps, Feasible, EmptyLaw, DiffLaw, DiffsExist, Step, Expects, CanRead, Returned;
    if s.updates[u].phase.Correcting? {
      var c := CanCorrect(p, s, u);
      s' := s.At(u, Done(e, Change(s.updates[u].phase.revNum, c), true));
      StepInv(p, s, s', Correct(u));
      NoSteps(p, s, u);
      OneMore(p, s, s, s', u, Correct(u));
    } else {
      s' := CanFinish(p, s, u, e);
    }
    DoneReturned(p, s', u, e);
  }

  /** What every update of a part needs that has not returned or failed. */
  lemma PromisingExpects<S(!new), D(!new)>(p: Part<S, D>, s: Server<S, D>, u: nat, e: S)
    requires Inv(p, s) && u in s.updates && Promising(p, s, u, e)
    ensures Expects(p, s.log, s.updates[u].request, e)
  {
    hide Inv, Expects, Made, Appended, CanRead;
    UpdateKnown(p, s, u);
  }

  /** Where rebasing merges, what a request becomes is always valid. */
  lemma MergeFeasible<S(!new), D(!new)>(p: Part<S, D>, s: Server<S, D>, request: Request<D>, e: S)
    requires MergeLaw(p) && Inv(p, s) && Expects(p, s.log, request, e)
    requires Fold(p.ops, s.log).Some? && CanRead(p, s, s.file.partRev) && Bound(p, s) <= request.base + 1
    requires forall r, contents :: request.base < r < |s.log| && IsAt(p, s.log, r, contents) ==>
      HasRebase(p, request.delta, e, s.log[request.base + 1..r + 1], contents)
    ensures Feasible(p, s, request, e)
  {
    hide MergeLaw, Inv, CanRead, Fold, Expects, HasRebase, IsAt;
    ReadsRight(p, s, s.file.partRev);
    forall d | Made(p, s.log, request, e, s.file.partRev, d, false) ensures Fold(p.ops, s.log + [d]).Some? {
      RebasedValid(p, s.log, request, e, s.file.partRev, d);
      FoldMore(p.ops, s.log, d);
    }
  }

  /** In a durable part, an update that has appended its change can always return if the revision has contents. */
  lemma DurableCorrects<S(!new), D(!new)>(p: Part<S, D>, s: Server<S, D>, u: nat)
    requires Inv(p, s) && !p.ephemeral && Fold(p.ops, s.log).Some? && u in s.updates && s.updates[u].phase.Correcting?
    ensures CanRead(p, s, s.updates[u].phase.revNum)
  {
    hide Inv, Fold, CanRead, Expects, Made;
    UpdateKnown(p, s, u);
    var r := s.updates[u].phase.revNum;
    FoldSplit(p.ops, s.log, r + 1);
    DurableReads(p, s, r);
  }

  /** What a rebased change that is valid at the end of the log is answered with: its revision, and a change that
      leads from what the client expects to the contents there. */
  lemma ReplyRebased<S(!new), D(!new)>(p: Part<S, D>, s: Server<S, D>, u: nat, request: Request<D>, e: S, d: D)
      returns (s': Server<S, D>, c: D)
    requires EmptyLaw(p.ops) && DiffLaw(p) && DiffsExist(p) && Reachable(p, s) && u !in s.updates && d != p.ops.nothing
    requires p.ephemeral ==> CanServe(p, s, request.base)
    requires request.base + 1 < |s.log| && Fold(p.ops, s.log + [d]).Some? && Expects(p, s.log, request, e)
    requires Fold(p.ops, s.log).Some?
    requires p.rebases(request.delta, e, s.log[request.base + 1..], Fold(p.ops, s.log).value, d)
    ensures Reachable(p, s') && Grown(s, s', u, request, d)
    ensures s'.updates[u].phase == Done(e, Change(|s.log|, c), true)
    ensures p.ops.apply(e, c) == Fold(p.ops, s.log + [d])
  {
    hide Reachable, EmptyLaw, DiffLaw, DiffsExist, Expects, CanRead, CanServe, Fold, Inv, Step;
    var m := AppendRebased(p, s, u, request, e, d);
    ReachableInv(p, s);
    ReachableInv(p, m);
    GrownReads(p, s, m, u, request, d);
    c := CanCorrect(p, m, u);
    s' := m.At(u, Done(e, Change(|s.log|, c), true));
    ReachableStep(p, m, s', Correct(u));
  }

  lemma GrownReads<S(!new), D(!new)>(p: Part<S, D>, s: Server<S, D>, s': Server<S, D>, u: nat, request: Request<D>,
      d: D)
    requires Inv(p, s) && Inv(p, s') && Grown(s, s', u, request, d) && Fold(p.ops, s'.log).Some?
    requires p.ephemeral ==> CanServe(p, s, request.base)
    ensures CanRead(p, s', s'.file.partRev) && s'.file.partRev == |s.log|
    ensures At(p.ops, s'.log, |s.log|) == Fold(p.ops, s'.log)
  {
    hide CanRead, Fold, UpdatesInv, CountInv, WritersInv, CacheInv;
    assert s'.log[..|s.log| + 1] == s'.log;
    FoldSplit(p.ops, s'.log, |s.log|);
    assert s'.log[..|s.log|] == s.log;
    LastReads(p, s);
    NextReads(p, s, s', d);
  }

  /** An update may end at any time, as when its time is over. If it has appended its change by then, that stays. */
  lemma CanGiveUp<S(!new), D(!new)>(p: Part<S, D>, s: Server<S, D>, u: nat)
    requires Inv(p, s) && u in s.updates && !s.updates[u].phase.Done? && !s.updates[u].phase.Failed?
    ensures var s' := s.At(u, Failed(Count(s.authors, u) == 1)); Step(p, s, s', GiveUp(u)) && s'.file == s.file
  {
    hide FileInv, UpdatesInv, WritersInv;
  }

  // ----- The races for the file -----

  /** An append that is under way is lost to a change of another part of the file. The update starts over. */
  lemma RaceLost<S(!new), D(!new)>(p: Part<S, D>, s: Server<S, D>, m: Server<S, D>, s': Server<S, D>, u: nat, w: nat)
    requires Inv(p, s) && u in s.updates && s.updates[u].phase.Appending? && w !in s.writers
    requires Step(p, s, m, OtherPart) && Step(p, m, s', Commit(u, w))
    ensures s'.log == s.log && s'.file == m.file && s'.file.changes == s.file.changes
    ensures s'.updates == s.At(u, Ready(s.updates[u].phase.expected)).updates
  {
    hide Inv, Step, Extended;
    OtherPartInv(p, s, m);
    AppendingNow(p, s, u);
    FileMovesOn(p, s, m);
    CommitExactly(p, m, s', u, w);
  }

  lemma FileMovesOn<S(!new), D(!new)>(p: Part<S, D>, s: Server<S, D>, m: Server<S, D>)
    requires Step(p, s, m, OtherPart)
    ensures m == s.(file := m.file) && m.file.rev == s.file.rev + 1 && m.file.changes == s.file.changes
  {
  }

  /** A stored snapshot that has been asked for can be written. The file then holds it, and of an ephemeral part no
      change from more than a thousand revisions before it. All other changes stay. */
  lemma CanStore<S(!new), D(!new)>(p: Part<S, D>, s: Server<S, D>, w: nat) returns (s': Server<S, D>)
    requires EmptyLaw(p.ops) && DiffLaw(p) && Reachable(p, s) && w in s.writers && s.writers[w].Asked?
    requires CanRead(p, s, s.writers[w].revNum)
    ensures Reachable(p, s') && s'.log == s.log && s'.updates == s.updates && s'.cache == s.cache
    ensures var r := s.writers[w].revNum;
      && r < |s.log| && At(p.ops, s.log, r).Some? && s'.file.stored == Some((r, At(p.ops, s.log, r).value))
      && (forall k :: k in s'.file.changes <==> k in s.file.changes && (p.ephemeral ==> r <= k + 1000))
      && (forall k :: k in s'.file.changes ==> s'.file.changes[k] == s.file.changes[k])
  {
    hide Reachable, EmptyLaw, DiffLaw, Inv, Fold, Snapshot;
    var r := s.writers[w].revNum;
    ReachableInv(p, s);
    ReadsRight(p, s, r);
    var contents := At(p.ops, s.log, r).value;
    var s1 := s.(writers := s.writers[w := Holding(r, contents)]);
    ReachableStep(p, s, s1, WriterRead(w));
    var s2 := s.(writers := s.writers[w := Writing(r, contents, s.file.rev + 1)]);
    ReachableStep(p, s1, s2, WriterTarget(w));
    s' := s.(writers := s2.writers - {w},
             highest := if r > s.highest then r else s.highest,
             file := s.file.(rev := s.file.rev + 1, stored := Some((r, contents)),
                             changes := if p.ephemeral then Trim(s.file.changes, DeleteBefore(r)) else s.file.changes));
    ReachableStep(p, s2, s', WriterCommit(w));
  }

  /** A snapshot that is kept can be read from then on, whatever is deleted, until the cache is cleared. All that could
      be read still can, with the same result. */
  lemma KeepReads<S(!new), D(!new)>(p: Part<S, D>, s: Server<S, D>, s': Server<S, D>, r: nat, q: nat)
    requires Inv(p, s) && Step(p, s, s', Keep(r)) && (q == r || CanRead(p, s, q))
    ensures q < |s.log| && CanRead(p, s', q) && Snapshot(p, s', q) == At(p.ops, s.log, q)
    ensures r in s'.cache && Some(s'.cache[r]) == At(p.ops, s.log, r)
  {
    hide Snapshot, Fold, Inv, FileInv, HasSince;
    CacheStepInv(p, s, s', Keep(r));
    HasFile(p, s);
    HasFile(p, s');
    SnapshotIsAt(p, s, r);
    SnapshotIsAt(p, s, q);
    KeepNearest(p, s, s', r, q);
    SnapshotIsAt(p, s', q);
  }

  lemma KeepNearest<S(!new), D(!new)>(p: Part<S, D>, s: Server<S, D>, s': Server<S, D>, r: nat, q: nat)
    requires Inv(p, s) && Step(p, s, s', Keep(r)) && HasSince(p, s, q)
    ensures HasSince(p, s', q)
  {
    hide Inv, Snapshot, Nearest;
    var base, base' := Nearest(s.cache, q), Nearest(s'.cache, q);
    assert forall k :: k in s'.cache <==> k in s.cache || k == r;
  }
}
