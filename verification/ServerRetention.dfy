/** The history that an ephemeral part keeps, in the runs of its server. */
module ServerRetention {
  import opened Wrappers
  import opened Part
  import opened ChangeLog
  import opened ServerSteps
  import Safety = ServerSafety
  import ServerReads
  import ServerRuns
  import Retention
  import Validation

  /** The history of a part, and what is stored of it. */
  function Kept<S, D>(s: Server<S, D>): Retention.State<S, D> {
    Retention.State(s.log, Store(s.file.partRev, s.file.changes), s.file.stored, s.highest)
  }

  /** A write of a stored snapshot takes effect. */
  predicate Writes<S, D>(s: Server<S, D>, a: Action<D>) {
    a.WriterCommit? && a.w in s.writers && s.writers[a.w].Writing? && s.writers[a.w].target == s.file.rev + 1
  }

  lemma CommitKept<S(!new), D(!new)>(p: Part<S, D>, s: Server<S, D>, s': Server<S, D>, u: nat, w: nat)
    requires Safety.Inv(p, s) && CommitStep(p, s, s', u, w)
    ensures Kept(s') == Kept(s) || Retention.Append(p.ops, Kept(s), Kept(s'))
  {
    hide Safety.Inv, Safety.Made, Safety.Expects;
    Safety.UpdateKnown(p, s, u);
    if s.updates[u].phase.target == s.file.rev + 1 {
      var d := s.updates[u].phase.toAppend;
      assert d != p.ops.nothing && s'.log == s.log + [d];
    }
  }

  lemma WriterKept<S(!new), D(!new)>(p: Part<S, D>, s: Server<S, D>, s': Server<S, D>, w: nat)
    requires p.ephemeral && Safety.Inv(p, s) && WriterCommitStep(p, s, s', w)
    ensures if s.writers[w].target == s.file.rev + 1 then Retention.Write(p.ops, Kept(s), Kept(s'), s.writers[w].revNum)
            else Kept(s') == Kept(s)
  {
    assert Safety.WriterInv(p, s.log, s.writers[w]);
    hide Safety.Inv, At;
  }

  /** What a step of the server does to the history of an ephemeral part: nothing, or append a change, or store a
      snapshot and delete old changes. */
  lemma StepKept<S(!new), D(!new)>(p: Part<S, D>, s: Server<S, D>, s': Server<S, D>, a: Action<D>)
    requires p.ephemeral && Safety.Inv(p, s) && Step(p, s, s', a)
    ensures if Writes(s, a) then Retention.Write(p.ops, Kept(s), Kept(s'), s.writers[a.w].revNum)
            else Kept(s') == Kept(s) || Retention.Append(p.ops, Kept(s), Kept(s'))
  {
    hide Safety.Inv, Retention.Append, Retention.Write;
    match a {
      case Commit(u, w) => CommitKept(p, s, s', u, w);
      case WriterCommit(w) => WriterKept(p, s, s', w);
      case _ => OtherKept(p, s, s', a);
    }
  }

  lemma OtherKept<S(!new), D(!new)>(p: Part<S, D>, s: Server<S, D>, s': Server<S, D>, a: Action<D>)
    requires Step(p, s, s', a) && !a.Commit? && !a.WriterCommit?
    ensures Kept(s') == Kept(s)
  {
    hide Snapshot, Attempt, Read;
  }

  /** In this step, no write takes effect that is more than one period behind. */
  ghost predicate PromptIn<S(!new), D(!new)>(p: Part<S, D>, trace: seq<Server<S, D>>, i: nat)
    requires i + 1 < |trace|
  {
    forall a {:trigger Step(p, trace[i], trace[i + 1], a)} ::
      Step(p, trace[i], trace[i + 1], a) && Writes(trace[i], a) ==>
      Retention.Prompt(Kept(trace[i]), trace[i].writers[a.w].revNum)
  }

  lemma InitKept<S(!new), D(!new)>(p: Part<S, D>, s: Server<S, D>)
    requires Init(p, s)
    ensures Retention.Inv(p.ops, Kept(s)) && Retention.Whole(Kept(s))
  {
    Retention.InitInv(p.ops, Kept(s));
  }

  lemma NextKept<S(!new), D(!new)>(p: Part<S, D>, s: Server<S, D>, s': Server<S, D>, a: Action<D>)
    requires p.ephemeral && Safety.Inv(p, s) && Step(p, s, s', a)
    requires Retention.Inv(p.ops, Kept(s)) && Retention.Whole(Kept(s))
    requires Writes(s, a) ==> Retention.Prompt(Kept(s), s.writers[a.w].revNum)
    ensures Retention.Inv(p.ops, Kept(s')) && Retention.Whole(Kept(s'))
  {
    hide Safety.Inv, Step, Retention.Inv, Retention.Whole, Retention.Append, Retention.Write, Retention.Prompt, Kept;
    StepKept(p, s, s', a);
    if Writes(s, a) {
      Retention.WriteInv(p.ops, Kept(s), Kept(s'), s.writers[a.w].revNum);
      Retention.WriteKeepsHistory(p.ops, Kept(s), Kept(s'), s.writers[a.w].revNum);
    } else if Kept(s') != Kept(s) {
      Retention.AppendInv(p.ops, Kept(s), Kept(s'));
    }
  }

  lemma {:induction false} RunKept<S(!new), D(!new)>(p: Part<S, D>, trace: seq<Server<S, D>>, i: nat)
    requires EmptyLaw(p.ops) && DiffLaw(p) && p.ephemeral && Run(p, trace) && i < |trace|
    requires forall j: nat :: j < i ==> PromptIn(p, trace, j)
    ensures Retention.Inv(p.ops, Kept(trace[i])) && Retention.Whole(Kept(trace[i]))
  {
    if i == 0 {
      InitKept(p, trace[0]);
    } else {
      hide Safety.Inv, Step, Retention.Inv, Retention.Whole, Writes, EmptyLaw, DiffLaw;
      RunKept(p, trace, i - 1);
      Safety.RunInv(p, trace, i - 1);
      assert NextIn(p, trace, i - 1) && PromptIn(p, trace, i - 1);
      var a :| Step(p, trace[i - 1], trace[i], a);
      NextKept(p, trace[i - 1], trace[i], a);
    }
  }

  /** In every run of the server in which stored snapshots are written at most one period late: the part is
      accepted by the check, and every revision from the stored snapshot on can be rebuilt. */
  lemma HistoryInRuns<S(!new), D(!new)>(p: Part<S, D>, trace: seq<Server<S, D>>, i: nat)
    requires EmptyLaw(p.ops) && DiffLaw(p) && p.ephemeral && Run(p, trace) && i < |trace|
    requires forall j: nat :: j < i ==> PromptIn(p, trace, j)
    ensures Retention.History(p.ops, Kept(trace[i]))
  {
    hide Run, EmptyLaw, DiffLaw;
    RunKept(p, trace, i);
    Retention.WholeHistory(p.ops, Kept(trace[i]));
  }

  /** The server with only the stored snapshot in its cache, as at its first request. */
  function Fresh<S, D>(s: Server<S, D>): Server<S, D> {
    s.(cache := if s.file.stored.Some? then map[s.file.stored.value.0 := s.file.stored.value.1] else map[])
  }

  /** The cache can always come to be like that. */
  lemma FreshReachable<S(!new), D(!new)>(p: Part<S, D>, s: Server<S, D>)
    requires ServerRuns.Reachable(p, s)
    ensures ServerRuns.Reachable(p, Fresh(s))
  {
    hide ServerRuns.Reachable;
    ServerRuns.ReachableStep(p, s, s.(cache := map[]), Clear);
    if s.file.stored.Some? {
      ServerRuns.ReachableStep(p, s.(cache := map[]), Fresh(s), Publish);
    }
  }

  lemma FreshRebuilds<S(!new), D(!new)>(p: Part<S, D>, s: Server<S, D>, r: nat)
    requires r <= s.file.partRev && (s.file.stored.Some? ==> s.file.stored.value.0 <= r)
    ensures Snapshot(p, Fresh(s), r) == Retention.Rebuilt(p.ops, Kept(s), r)
  {
    var base := Nearest(Fresh(s).cache, r);
    assert base.Some? ==> s.file.stored.Some? && base.value == s.file.stored.value.0;
    assert s.file.stored.Some? ==> s.file.stored.value.0 in Fresh(s).cache;
  }

  /** From then on, exactly the revisions with contents can be had, from the stored one on. */
  lemma FreshReads<S(!new), D(!new)>(p: Part<S, D>, trace: seq<Server<S, D>>, i: nat, r: nat)
    requires EmptyLaw(p.ops) && DiffLaw(p) && p.ephemeral && Run(p, trace) && i < |trace|
    requires forall j: nat :: j < i ==> PromptIn(p, trace, j)
    requires r < |trace[i].log| && (trace[i].file.stored.Some? ==> trace[i].file.stored.value.0 <= r)
    ensures Snapshot(p, Fresh(trace[i]), r) == At(p.ops, trace[i].log, r)
  {
    var s := trace[i];
    hide Run, EmptyLaw, DiffLaw, Snapshot;
    RunKept(p, trace, i);
    Safety.RunInv(p, trace, i);
    FreshInv(p, s);
    Safety.SnapshotIsAt(p, Fresh(s), r);
    hide Safety.Inv, Safety.FileInv, Fold;
    if At(p.ops, s.log, r).Some? {
      FreshRebuilds(p, s, r);
      Retention.RebuiltRight(p.ops, Kept(s), r);
    }
  }

  lemma FreshInv<S(!new), D(!new)>(p: Part<S, D>, s: Server<S, D>)
    requires Safety.Inv(p, s)
    ensures Safety.FileInv(p, Fresh(s)) && |s.log| == s.file.partRev + 1
  {
    hide Safety.UpdatesInv, Safety.CountInv, Safety.WritersInv, At;
  }

  lemma KeepsAfterStored<S(!new), D(!new)>(p: Part<S, D>, s: Server<S, D>, base: nat)
    requires p.ephemeral && Safety.Inv(p, s) && Retention.Inv(p.ops, Kept(s)) && Retention.Whole(Kept(s))
    requires base < s.file.partRev && (s.file.stored.Some? ==> s.file.stored.value.0 <= base)
    ensures Safety.Bound(p, s) <= base + 1
  {
    hide Safety.Inv, At;
    if s.file.stored.Some? { assert base + 1 in Kept(s).store.changes; }
  }

  /** And a difference can be made between any two of these revisions. */
  lemma DiffsFromStored<S(!new), D(!new)>(p: Part<S, D>, trace: seq<Server<S, D>>, i: nat, base: nat, newer: nat)
    requires EmptyLaw(p.ops) && DiffLaw(p) && p.ephemeral && Run(p, trace) && i < |trace|
    requires forall j: nat :: j < i ==> PromptIn(p, trace, j)
    requires base < newer < |trace[i].log| && At(p.ops, trace[i].log, newer).Some?
    requires trace[i].file.stored.Some? ==> trace[i].file.stored.value.0 <= base
    ensures ServerReads.CanDiff(p, Fresh(trace[i]), base, newer)
  {
    var s := trace[i];
    hide Run, EmptyLaw, DiffLaw, Snapshot;
    RunKept(p, trace, i);
    Safety.RunInv(p, trace, i);
    FreshReads(p, trace, i, base);
    FreshReads(p, trace, i, newer);
    AtLater(p.ops, s.log, base, newer);
    FreshInv(p, s);
    hide Safety.Inv, Fold;
    KeepsAfterStored(p, s, base);
  }

  /** In every run of a durable part, the check accepts what is stored. It would not if any one change of it were
      lost, whatever snapshot is stored. */
  lemma DurableInRuns<S(!new), D(!new)>(p: Part<S, D>, trace: seq<Server<S, D>>, i: nat)
    requires EmptyLaw(p.ops) && DiffLaw(p) && !p.ephemeral && Run(p, trace) && i < |trace|
    ensures var store := Kept(trace[i]).store;
      && Validation.Acceptable(store, Retention.StoredRevNum(Kept(trace[i])), false)
      && (forall k :: 0 <= k < |trace[i].log| ==>
            !Validation.Acceptable(Store(store.revNum, store.changes - {k}),
               Retention.StoredRevNum(Kept(trace[i])), false))
  {
    var s := trace[i];
    Safety.RunInv(p, trace, i);
    hide Run, EmptyLaw, DiffLaw, Safety.UpdatesInv, Safety.CountInv, Safety.WritersInv, Safety.CacheInv, At;
    var store, stored := Kept(s).store, Retention.StoredRevNum(Kept(s));
    Validation.AcceptableExactly(store, stored);
    forall k | 0 <= k < |s.log|
      ensures !Validation.Acceptable(Store(store.revNum, store.changes - {k}), stored, false)
    {
      Validation.AcceptableExactly(Store(store.revNum, store.changes - {k}), stored);
      assert k !in store.changes - {k};
    }
  }
}
