/** Particular runs of the server: updates that nobody interferes with, each of which appends its change, as given
    or rebased. They show that changes do get appended, and are what other runs are built from. Each of them is made
    of the single steps of the state machine, and is given with all that it leaves as it was. */
module ServerRuns {
  import opened Wrappers
  import opened Part
  import opened ChangeLog
  import opened ServerSteps
  import opened ServerSafety

  /** The states that occur at the end of some run. */
  ghost predicate Reachable<S(!new), D(!new)>(p: Part<S, D>, s: Server<S, D>) {
    exists trace :: Run(p, trace) && trace[|trace| - 1] == s
  }

  lemma ReachableInit<S(!new), D(!new)>(p: Part<S, D>, s: Server<S, D>)
    requires Init(p, s)
    ensures Reachable(p, s)
  {
    assert Run(p, [s]) && [s][|[s]| - 1] == s;
  }

  lemma ReachableStep<S(!new), D(!new)>(p: Part<S, D>, s: Server<S, D>, s': Server<S, D>, a: Action<D>)
    requires Reachable(p, s) && Step(p, s, s', a)
    ensures Reachable(p, s')
  {
    var trace :| Run(p, trace) && trace[|trace| - 1] == s;
    var longer := trace + [s'];
    forall i: nat | i + 1 < |longer| ensures NextIn(p, longer, i) {
      if i + 1 < |trace| {
        assert NextIn(p, trace, i);
      } else {
        assert Step(p, longer[i], longer[i + 1], a);
      }
    }
    assert Run(p, longer) && longer[|longer| - 1] == s';
  }

  lemma ReachableInv<S(!new), D(!new)>(p: Part<S, D>, s: Server<S, D>)
    requires EmptyLaw(p.ops) && DiffLaw(p) && Reachable(p, s)
    ensures Inv(p, s)
  {
    var trace :| Run(p, trace) && trace[|trace| - 1] == s;
    RunInv(p, trace, |trace| - 1);
  }

  /** The snapshot of a revision can be had. */
  ghost predicate CanRead<S(!new), D(!new)>(p: Part<S, D>, s: Server<S, D>, revNum: nat) {
    Snapshot(p, s, revNum).Some?
  }

  /** What it takes to serve a request against `base` can be read: the snapshots of its base and of the current
      revision, and the changes in between. */
  ghost predicate CanServe<S(!new), D(!new)>(p: Part<S, D>, s: Server<S, D>, base: nat) {
    Bound(p, s) <= base + 1 && CanRead(p, s, base) && CanRead(p, s, s.file.partRev)
  }

  /** All revisions of a durable part that have contents can be read. */
  lemma DurableReads<S(!new), D(!new)>(p: Part<S, D>, s: Server<S, D>, revNum: nat)
    requires Inv(p, s) && !p.ephemeral && revNum < |s.log| && At(p.ops, s.log, revNum).Some?
    ensures CanRead(p, s, revNum)
  {
    hide Snapshot, At, FileInv, CountInv, UpdatesInv, WritersInv;
    SnapshotIsAt(p, s, revNum);
  }

  /** What a readable snapshot is. */
  lemma ReadsRight<S(!new), D(!new)>(p: Part<S, D>, s: Server<S, D>, revNum: nat)
    requires Inv(p, s) && CanRead(p, s, revNum)
    ensures |s.log| == s.file.partRev + 1
    ensures revNum < |s.log| && Snapshot(p, s, revNum) == At(p.ops, s.log, revNum)
    ensures revNum == s.file.partRev ==> Snapshot(p, s, revNum) == Fold(p.ops, s.log)
  {
    hide Snapshot, Fold, CountInv, UpdatesInv, WritersInv, StoredInv, CacheInv;
    SnapshotIsAt(p, s, revNum);
    assert s.log[..s.file.partRev + 1] == s.log;
  }

  lemma Started<S(!new), D(!new)>(p: Part<S, D>, s: Server<S, D>, u: nat, request: Request<D>)
    requires Reachable(p, s) && u !in s.updates
    ensures Reachable(p, s.(updates := s.updates[u := Update(request, Start)]))
  {
    ReachableStep(p, s, s.(updates := s.updates[u := Update(request, Start)]), Begin(u, request));
  }

  // ----- The steps of an update, with nothing happening in between -----

  lemma CanReadBase<S(!new), D(!new)>(p: Part<S, D>, s: Server<S, D>, u: nat, e: S)
    requires Inv(p, s) && u in s.updates && s.updates[u].phase.Start?
    requires Expects(p, s.log, s.updates[u].request, e) && CanRead(p, s, s.updates[u].request.base)
    ensures Step(p, s, s.At(u, Ready(e)), ReadBase(u))
  {
    hide Inv, Snapshot, At;
    ReadsRight(p, s, s.updates[u].request.base);
  }

  lemma CanReadCurrent<S(!new), D(!new)>(p: Part<S, D>, s: Server<S, D>, u: nat, e: S)
    requires Inv(p, s) && u in s.updates && s.updates[u].phase == Ready(e) && CanRead(p, s, s.file.partRev)
    ensures Fold(p.ops, s.log).Some?
    ensures Step(p, s, s.At(u, Current(e, s.file.partRev, Fold(p.ops, s.log).value)), ReadCurrent(u))
  {
    hide Inv, Snapshot, Fold;
    ReadsRight(p, s, s.file.partRev);
  }

  /** The rebase of an update whose base is no longer current. */
  lemma CanRebase<S(!new), D(!new)>(p: Part<S, D>, s: Server<S, D>, u: nat, e: S, r: nat, contents: S, d: D)
    requires FileInv(p, s) && u in s.updates
    requires s.updates[u].phase == Current(e, r, contents) && s.updates[u].request.base < r < |s.log|
    requires Bound(p, s) <= s.updates[u].request.base + 1
    requires p.rebases(s.updates[u].request.delta, e, s.log[s.updates[u].request.base + 1..r + 1], contents, d)
    ensures Step(p, s, s.At(u, Attempt(p, e, r, d, false)), Rebase(u))
  {
    hide Attempt, FileInv, Read;
    ReadIsLog(p, s, s.updates[u].request.base + 1, r + 1);
  }

  lemma AtAgain<S, D>(s: Server<S, D>, u: nat, x: Phase<S, D>, y: Phase<S, D>)
    requires u in s.updates
    ensures s.At(u, x).At(u, y) == s.At(u, y)
    ensures s.At(u, x).file == s.file && s.At(u, x).cache == s.cache
    ensures s.At(u, x).log == s.log && s.At(u, x).highest == s.highest
    ensures u in s.At(u, x).updates && s.At(u, x).updates[u] == s.updates[u].(phase := x)
    ensures s.At(u, x).updates.Keys == s.updates.Keys && s.At(u, x).writers == s.writers
  {
  }

  /** The steps of an update up to its rebased form. */
  lemma RebasedSteps<S(!new), D(!new)>(p: Part<S, D>, s: Server<S, D>, u: nat, e: S, r: nat, contents: S, d: D)
    requires EmptyLaw(p.ops) && DiffLaw(p) && Inv(p, s) && u in s.updates && s.updates[u].phase.Start?
    requires r == s.file.partRev && s.updates[u].request.base < r < |s.log|
    requires Bound(p, s) <= s.updates[u].request.base + 1
    requires CanRead(p, s, s.updates[u].request.base) && CanRead(p, s, r) && Fold(p.ops, s.log) == Some(contents)
    requires Expects(p, s.log, s.updates[u].request, e)
    requires p.rebases(s.updates[u].request.delta, e, s.log[s.updates[u].request.base + 1..r + 1], contents, d)
    ensures var s1, s2 := s.At(u, Ready(e)), s.At(u, Current(e, r, contents));
      && Step(p, s, s1, ReadBase(u)) && Step(p, s1, s2, ReadCurrent(u))
      && Step(p, s2, s.At(u, Attempt(p, e, r, d, false)), Rebase(u))
  {
    hide Attempt, EmptyLaw, DiffLaw, Expects, Fold, CanRead, Inv, Step, Server.At;
    var s1, s2 := s.At(u, Ready(e)), s.At(u, Current(e, r, contents));
    AtAgain(s, u, Ready(e), Current(e, r, contents));
    AtAgain(s, u, Current(e, r, contents), Attempt(p, e, r, d, false));
    CanReadBase(p, s, u, e);
    StepInv(p, s, s1, ReadBase(u));
    SameReads(p, s, s1, r);
    CanReadCurrent(p, s1, u, e);
    StepInv(p, s1, s2, ReadCurrent(u));
    HasFile(p, s2);
    CanRebase(p, s2, u, e, r, contents, d);
  }

  lemma HasFile<S(!new), D(!new)>(p: Part<S, D>, s: Server<S, D>)
    requires Inv(p, s)
    ensures FileInv(p, s)
  {
  }

  /** What can be read does not depend on updates. */
  lemma SameReads<S(!new), D(!new)>(p: Part<S, D>, s: Server<S, D>, s': Server<S, D>, revNum: nat)
    requires s'.file == s.file && s'.cache == s.cache
    ensures CanRead(p, s', revNum) <==> CanRead(p, s, revNum)
  {
    assert Snapshot(p, s', revNum) == Snapshot(p, s, revNum);
  }

  /** An update that has started, up to its current snapshot, with nothing happening in between. */
  lemma ToCurrent<S(!new), D(!new)>(p: Part<S, D>, s: Server<S, D>, u: nat, e: S) returns (s': Server<S, D>)
    requires EmptyLaw(p.ops) && DiffLaw(p) && Reachable(p, s) && u in s.updates && s.updates[u].phase.Start?
    requires Expects(p, s.log, s.updates[u].request, e)
    requires CanRead(p, s, s.updates[u].request.base) && CanRead(p, s, s.file.partRev)
    ensures Fold(p.ops, s.log).Some? && Reachable(p, s')
    ensures s' == s.At(u, Current(e, s.file.partRev, Fold(p.ops, s.log).value))
  {
    hide Reachable, Expects, CanRead, Inv, Step, Fold, EmptyLaw, DiffLaw, Server.At;
    var ready := s.At(u, Ready(e));
    ReachableInv(p, s);
    CanReadBase(p, s, u, e);
    ReachableStep(p, s, ready, ReadBase(u));
    ReachableInv(p, ready);
    AtAgain(s, u, Ready(e), Ready(e));
    SameReads(p, s, ready, s.file.partRev);
    CanReadCurrent(p, ready, u, e);
    AtAgain(s, u, Ready(e), Current(e, s.file.partRev, Fold(p.ops, s.log).value));
    s' := s.At(u, Current(e, s.file.partRev, Fold(p.ops, s.log).value));
    ReachableStep(p, ready, s', ReadCurrent(u));
  }

  lemma {:induction false} FreshWriter<S>(writers: map<nat, Writer<S>>) returns (w: nat)
    ensures w !in writers
    ensures forall x :: x in writers ==> x < w
    decreases |writers|
  {
    if writers == map[] {
      w := 0;
    } else {
      var x :| x in writers;
      var y := FreshWriter(writers - {x});
      w := if x < y then y else x + 1;
      assert forall z :: z in writers ==> z == x || z in writers - {x};
    }
  }

  /** The server after update `u` has appended its change. `w` is the write of a snapshot that may be asked for. */
  function Extended<S(!new), D(!new)>(p: Part<S, D>, s: Server<S, D>, u: nat, w: nat, e: S, d: D,
      asGiven: bool): Server<S, D>
    requires u in s.updates
  {
    var r := s.file.partRev + 1;
    s.At(u, if asGiven then Done(e, Change(r, p.ops.nothing), true) else Correcting(e, r))
     .(file := s.file.(rev := s.file.rev + 1, partRev := r, changes := s.file.changes[r := d]),
       log := s.log + [d], authors := s.authors + [Some(u)],
       writers := if r % CHANGES_PER_STORED_SNAPSHOT == 0 then s.writers[w := Asked(r)] else s.writers)
  }

  /** The steps from a prepared change to its append. */
  lemma AppendSteps<S(!new), D(!new)>(p: Part<S, D>, s: Server<S, D>, u: nat, w: nat, e: S, d: D, asGiven: bool)
    requires Inv(p, s) && u in s.updates && w !in s.writers
    requires s.updates[u].phase == Prepared(e, s.file.partRev, d, asGiven)
    ensures var s1 := s.At(u, Appending(e, s.file.partRev, d, asGiven, s.file.rev + 1));
      Step(p, s, s1, Check(u)) && Step(p, s1, Extended(p, s, u, w, e, d, asGiven), Commit(u, w))
  {
    hide Inv;
    ChangesBounded(p, s);
  }

  /** All the steps of an update whose base is current. */
  lemma GivenSteps<S(!new), D(!new)>(p: Part<S, D>, s: Server<S, D>, u: nat, w: nat, e: S, d: D, contents: S)
    requires EmptyLaw(p.ops) && DiffLaw(p) && Inv(p, s) && d != p.ops.nothing && w !in s.writers
    requires u in s.updates && s.updates[u] == Update(Request(s.file.partRev, d), Start)
    requires Expects(p, s.log, s.updates[u].request, e) && CanRead(p, s, s.file.partRev)
    requires Fold(p.ops, s.log) == Some(contents)
    ensures var r := s.file.partRev;
            var s1, s2, s3 := s.At(u, Ready(e)), s.At(u, Current(e, r, contents)), s.At(u, Prepared(e, r, d, true));
            var s4 := s.At(u, Appending(e, r, d, true, s.file.rev + 1));
      && Step(p, s, s1, ReadBase(u)) && Step(p, s1, s2, ReadCurrent(u)) && Step(p, s2, s3, Rebase(u))
      && Step(p, s3, s4, Check(u)) && Step(p, s4, Extended(p, s, u, w, e, d, true), Commit(u, w))
  {
    hide EmptyLaw, DiffLaw, Expects, Fold, CanRead, Inv, Step, Server.At, Extended;
    var r := s.file.partRev;
    var s1, s2, s3 := s.At(u, Ready(e)), s.At(u, Current(e, r, contents)), s.At(u, Prepared(e, r, d, true));
    AtAgain(s, u, Ready(e), Current(e, r, contents));
    AtAgain(s, u, Current(e, r, contents), Prepared(e, r, d, true));
    AtAgain(s, u, Prepared(e, r, d, true), Appending(e, r, d, true, s.file.rev + 1));
    CanReadBase(p, s, u, e);
    StepInv(p, s, s1, ReadBase(u));
    SameReads(p, s, s1, r);
    CanReadCurrent(p, s1, u, e);
    StepInv(p, s1, s2, ReadCurrent(u));
    GivenStep(p, s2, u, e, d);
    StepInv(p, s2, s3, Rebase(u));
    AppendSteps(p, s3, u, w, e, d, true);
    ExtendedAgain(p, s, u, w, e, d, Prepared(e, r, d, true));
  }

  lemma GivenStep<S(!new), D(!new)>(p: Part<S, D>, s: Server<S, D>, u: nat, e: S, d: D)
    requires u in s.updates && s.updates[u].phase.Current? && d != p.ops.nothing
    requires s.updates[u].phase.expected == e && s.updates[u].request == Request(s.updates[u].phase.current, d)
    ensures Step(p, s, s.At(u, Prepared(e, s.updates[u].phase.current, d, true)), Rebase(u))
  {
    hide Read;
  }

  lemma ExtendedAgain<S(!new), D(!new)>(p: Part<S, D>, s: Server<S, D>, u: nat, w: nat, e: S, d: D, phase: Phase<S, D>)
    requires u in s.updates
    ensures s.At(u, phase).writers == s.writers
    ensures Extended(p, s.At(u, phase), u, w, e, d, true) == Extended(p, s, u, w, e, d, true)
  {
    var r := s.file.partRev + 1;
    AtAgain(s, u, phase, Done(e, Change(r, p.ops.nothing), true));
  }

  /** What a run that appends a change for a request does to the server, besides. */
  ghost predicate Grown<S(!new), D(!new)>(s: Server<S, D>, s': Server<S, D>, u: nat, request: Request<D>, d: D) {
    && s'.log == s.log + [d] && s'.file.partRev == s.file.partRev + 1
    && u !in s.updates && s'.updates.Keys == s.updates.Keys + {u} && s'.updates[u].request == request
    && (forall x :: x in s.updates ==> s'.updates[x] == s.updates[x])
    && s'.cache == s.cache && s'.highest == s.highest && s'.file.stored == s.file.stored
    && (forall x :: x in s.writers ==> x in s'.writers && s'.writers[x] == s.writers[x])
    && ((s.file.partRev + 1) % CHANGES_PER_STORED_SNAPSHOT == 0 ==>
          exists x :: x in s'.writers && s'.writers[x] == Asked(s.file.partRev + 1))
  }

  /** From a prepared change to its append, with nothing happening in between. */
  lemma ToCommit<S(!new), D(!new)>(p: Part<S, D>, s: Server<S, D>, u: nat, e: S, d: D, asGiven: bool)
      returns (s': Server<S, D>)
    requires EmptyLaw(p.ops) && DiffLaw(p) && Reachable(p, s) && u in s.updates
    requires s.updates[u].phase == Prepared(e, s.file.partRev, d, asGiven)
    ensures Reachable(p, s')
    ensures exists w :: w !in s.writers && s' == Extended(p, s, u, w, e, d, asGiven)
  {
    hide Reachable, EmptyLaw, DiffLaw, Inv, Step, Extended;
    var w := FreshWriter(s.writers);
    var s1 := s.At(u, Appending(e, s.file.partRev, d, asGiven, s.file.rev + 1));
    s' := Extended(p, s, u, w, e, d, asGiven);
    ReachableInv(p, s);
    AppendSteps(p, s, u, w, e, d, asGiven);
    ReachableStep(p, s, s1, Check(u));
    ReachableStep(p, s1, s', Commit(u, w));
  }

  lemma ExtendedGrown<S(!new), D(!new)>(p: Part<S, D>, s: Server<S, D>, u: nat, request: Request<D>, phase: Phase<S, D>,
      w: nat, e: S, d: D, asGiven: bool)
    requires u !in s.updates && w !in s.writers
    ensures var s0 := s.(updates := s.updates[u := Update(request, phase)]);
      && Grown(s, Extended(p, s0, u, w, e, d, asGiven), u, request, d)
      && (!asGiven ==> Extended(p, s0, u, w, e, d, asGiven).updates[u].phase == Correcting(e, s.file.partRev + 1))
  {
    var s0 := s.(updates := s.updates[u := Update(request, phase)]);
    var s' := Extended(p, s0, u, w, e, d, asGiven);
    if (s.file.partRev + 1) % CHANGES_PER_STORED_SNAPSHOT == 0 {
      assert w in s'.writers && s'.writers[w] == Asked(s.file.partRev + 1);
    }
  }

  /** A valid change against the current revision, with nothing happening in between, is appended as given. Where
      old changes are deleted, this supposes that the current snapshot can be had. */
  lemma AppendUnopposed<S(!new), D(!new)>(p: Part<S, D>, s: Server<S, D>, u: nat, d: D) returns (s': Server<S, D>)
    requires EmptyLaw(p.ops) && DiffLaw(p) && Reachable(p, s) && u !in s.updates && d != p.ops.nothing
    requires Fold(p.ops, s.log).Some? && p.ops.apply(Fold(p.ops, s.log).value, d).Some?
    requires p.ephemeral ==> CanRead(p, s, s.file.partRev)
    ensures Reachable(p, s') && Grown(s, s', u, Request(s.file.partRev, d), d)
  {
    var r, request := s.file.partRev, Request(s.file.partRev, d);
    var e := p.ops.apply(Fold(p.ops, s.log).value, d).value;
    var s0 := s.(updates := s.updates[u := Update(request, Start)]);
    GivenStarts(p, s, u, d);
    hide Reachable, CanRead, EmptyLaw, DiffLaw, Expects, Fold, Server.At, Extended, Grown;
    var s1 := ToCurrent(p, s0, u, e);
    var current := Current(e, r, Fold(p.ops, s.log).value);
    AtAgain(s0, u, current, Prepared(e, r, d, true));
    ToGiven(p, s1, u, e, d);
    AtAgain(s0, u, Prepared(e, r, d, true), current);
    AtStart(s, u, request, Prepared(e, r, d, true));
    s' := ToCommit(p, s0.At(u, Prepared(e, r, d, true)), u, e, d, true);
    var w :| w !in s.writers && s' == Extended(p, s0.At(u, Prepared(e, r, d, true)), u, w, e, d, true);
    ExtendedGrown(p, s, u, request, Prepared(e, r, d, true), w, e, d, true);
  }

  lemma AtStart<S, D>(s: Server<S, D>, u: nat, request: Request<D>, phase: Phase<S, D>)
    ensures var s0 := s.(updates := s.updates[u := Update(request, Start)]);
      && s0.At(u, phase) == s.(updates := s.updates[u := Update(request, phase)])
      && s0.At(u, phase).writers == s.writers && s0.At(u, phase).file == s.file
      && u in s0.At(u, phase).updates && s0.At(u, phase).updates[u].phase == phase
  {
  }

  /** A change against an earlier revision, with nothing happening in between, is rebased and appended, unless
      nothing is left of it. Where old changes are deleted, this supposes that what it takes can be read. */
  lemma AppendRebased<S(!new), D(!new)>(p: Part<S, D>, s: Server<S, D>, u: nat, request: Request<D>, e: S, d: D)
      returns (s': Server<S, D>)
    requires EmptyLaw(p.ops) && DiffLaw(p) && Reachable(p, s) && u !in s.updates && d != p.ops.nothing
    requires p.ephemeral ==> CanServe(p, s, request.base)
    requires request.base + 1 < |s.log| && Fold(p.ops, s.log).Some? && Expects(p, s.log, request, e)
    requires p.rebases(request.delta, e, s.log[request.base + 1..], Fold(p.ops, s.log).value, d)
    ensures Reachable(p, s') && Grown(s, s', u, request, d)
    ensures s'.updates[u].phase == Correcting(e, s'.file.partRev)
  {
    hide Reachable, EmptyLaw, DiffLaw, Expects, CanRead, Fold, Server.At, Extended, Grown, Inv, Step;
    var s0, r := s.(updates := s.updates[u := Update(request, Start)]), s.file.partRev;
    RebasedStarts(p, s, u, request, e);
    assert s.log[request.base + 1..] == s.log[request.base + 1..r + 1];
    ToPrepared(p, s0, u, e, r, Fold(p.ops, s.log).value, d);
    AtStart(s, u, request, Prepared(e, r, d, false));
    s' := ToCommit(p, s0.At(u, Prepared(e, r, d, false)), u, e, d, false);
    var w :| w !in s.writers && s' == Extended(p, s0.At(u, Prepared(e, r, d, false)), u, w, e, d, false);
    ExtendedGrown(p, s, u, request, Prepared(e, r, d, false), w, e, d, false);
  }

  lemma ToPrepared<S(!new), D(!new)>(p: Part<S, D>, s: Server<S, D>, u: nat, e: S, r: nat, contents: S, d: D)
    requires EmptyLaw(p.ops) && DiffLaw(p) && Inv(p, s) && u in s.updates && s.updates[u].phase.Start?
    requires r == s.file.partRev && s.updates[u].request.base < r < |s.log|
    requires CanServe(p, s, s.updates[u].request.base) && Fold(p.ops, s.log) == Some(contents)
    requires Expects(p, s.log, s.updates[u].request, e) && d != p.ops.nothing && Reachable(p, s)
    requires p.rebases(s.updates[u].request.delta, e, s.log[s.updates[u].request.base + 1..r + 1], contents, d)
    ensures Reachable(p, s.At(u, Prepared(e, r, d, false)))
  {
    hide Reachable, EmptyLaw, DiffLaw, Expects, CanRead, Fold, Server.At, Inv, Step;
    RebasedSteps(p, s, u, e, r, contents, d);
    ReachableStep(p, s, s.At(u, Ready(e)), ReadBase(u));
    ReachableStep(p, s.At(u, Ready(e)), s.At(u, Current(e, r, contents)), ReadCurrent(u));
    ReachableStep(p, s.At(u, Current(e, r, contents)), s.At(u, Prepared(e, r, d, false)), Rebase(u));
  }

  lemma RebasedStarts<S(!new), D(!new)>(p: Part<S, D>, s: Server<S, D>, u: nat, request: Request<D>, e: S)
    requires EmptyLaw(p.ops) && DiffLaw(p) && Reachable(p, s) && u !in s.updates
    requires p.ephemeral ==> CanServe(p, s, request.base)
    requires request.base + 1 < |s.log| && Fold(p.ops, s.log).Some? && Expects(p, s.log, request, e)
    ensures var s0 := s.(updates := s.updates[u := Update(request, Start)]);
      && Reachable(p, s0) && Inv(p, s0) && |s.log| == s.file.partRev + 1
      && CanServe(p, s0, request.base)
  {
    hide Reachable, EmptyLaw, DiffLaw, Inv, CanRead, Fold;
    var s0 := s.(updates := s.updates[u := Update(request, Start)]);
    ReachableInv(p, s);
    LastReads(p, s);
    Started(p, s, u, request);
    ReachableInv(p, s0);
    if p.ephemeral {
      SameReads(p, s, s0, request.base);
      SameReads(p, s, s0, s.file.partRev);
    } else {
      DurableReads(p, s0, request.base);
      DurableReads(p, s0, s.file.partRev);
    }
  }

  lemma GivenStarts<S(!new), D(!new)>(p: Part<S, D>, s: Server<S, D>, u: nat, d: D)
    requires EmptyLaw(p.ops) && DiffLaw(p) && Reachable(p, s) && u !in s.updates
    requires Fold(p.ops, s.log).Some? && p.ops.apply(Fold(p.ops, s.log).value, d).Some?
    requires p.ephemeral ==> CanRead(p, s, s.file.partRev)
    ensures var request := Request(s.file.partRev, d);
            var s0 := s.(updates := s.updates[u := Update(request, Start)]);
      && Reachable(p, s0) && CanRead(p, s0, s.file.partRev)
      && Expects(p, s.log, request, p.ops.apply(Fold(p.ops, s.log).value, d).value)
  {
    hide Reachable, EmptyLaw, DiffLaw, Fold, Read, ApplyAll, Inv;
    ReachableInv(p, s);
    LastReads(p, s);
    Started(p, s, u, Request(s.file.partRev, d));
  }

  /** An update whose base is current goes on with its change as given. */
  lemma ToGiven<S(!new), D(!new)>(p: Part<S, D>, s: Server<S, D>, u: nat, e: S, d: D)
    requires Reachable(p, s) && u in s.updates && s.updates[u].phase.Current? && d != p.ops.nothing
    requires s.updates[u].phase.expected == e && s.updates[u].request == Request(s.updates[u].phase.current, d)
    ensures Reachable(p, s.At(u, Prepared(e, s.updates[u].phase.current, d, true)))
  {
    hide Reachable, Step;
    GivenStep(p, s, u, e, d);
    ReachableStep(p, s, s.At(u, Prepared(e, s.updates[u].phase.current, d, true)), Rebase(u));
  }

  lemma LastReads<S(!new), D(!new)>(p: Part<S, D>, s: Server<S, D>)
    requires Inv(p, s) && Fold(p.ops, s.log).Some?
    requires p.ephemeral ==> CanRead(p, s, s.file.partRev)
    ensures |s.log| == s.file.partRev + 1 && CanRead(p, s, s.file.partRev)
    ensures At(p.ops, s.log, s.file.partRev) == Fold(p.ops, s.log)
  {
    hide Snapshot, Fold, CountInv, UpdatesInv, WritersInv, StoredInv, CacheInv;
    assert s.log[..s.file.partRev + 1] == s.log;
    SnapshotIsAt(p, s, s.file.partRev);
  }
}
