/** Differences between revisions, as the server makes them. */
module ServerReads {
  import opened Wrappers
  import opened Part
  import opened ChangeLog
  import opened ServerSteps
  import opened ServerSafety

  /** A change leads from one revision of a log to a later one. */
  ghost predicate Leads<S(!new), D(!new)>(p: Algebra<S, D>, log: seq<D>, base: nat, change: Change<D>) {
    && base < change.revNum < |log|
    && At(p, log, base).Some? && At(p, log, change.revNum).Some?
    && p.apply(At(p, log, base).value, change.delta) == At(p, log, change.revNum)
  }

  function ToStore<S, D>(s: Server<S, D>): Store<D> {
    Store(s.file.partRev, s.file.changes)
  }

  /** Whether `getDiff()` can do its work: the changes after the base are there, or else the two snapshots can be
      had, according to which of them it takes. */
  predicate CanDiff<S(!new), D(!new)>(p: Part<S, D>, s: Server<S, D>, base: nat, newer: nat) {
    if newer - base <= MAX_COMPOSED_CHANGES_FOR_DIFF then Bound(p, s) <= base + 1
    else Snapshot(p, s, base).Some? && Snapshot(p, s, newer).Some?
  }

  /** What `getDiff()` may give: the changes composed, or the difference of the snapshots. */
  ghost predicate IsDiff<S(!new), D(!new)>(p: Part<S, D>, s: Server<S, D>, base: nat, change: Change<D>) {
    && base < change.revNum <= s.file.partRev && CanDiff(p, s, base, change.revNum)
    && if change.revNum - base <= MAX_COMPOSED_CHANGES_FOR_DIFF then
         Some(change.delta) == Composed(p.ops, ToStore(s), p.ops.nothing, base + 1, change.revNum + 1, false)
       else p.diffs(Snapshot(p, s, base).value, Snapshot(p, s, change.revNum).value, change.delta)
  }

  /** Composition without the check of results always succeeds. */
  lemma {:induction false} ComposesAlways<S(!new), D(!new)>(p: Algebra<S, D>, base: D, deltas: seq<D>)
    ensures ComposeAll(p, base, deltas, false).Some?
  {
    if deltas != [] { ComposesAlways(p, base, deltas[..|deltas| - 1]); }
  }

  /** The changes of a range compose exactly if they are all there. */
  lemma ComposedExactly<S(!new), D(!new)>(p: Part<S, D>, s: Server<S, D>, base: nat, newer: nat)
    requires FileInv(p, s) && base < newer <= s.file.partRev
    ensures var d := Composed(p.ops, ToStore(s), p.ops.nothing, base + 1, newer + 1, false);
      && (d.Some? <==> Bound(p, s) <= base + 1)
      && (d.Some? ==> d == ComposeAll(p.ops, p.ops.nothing, s.log[base + 1..newer + 1], false))
  {
    hide Read, ComposeAll, StoredInv, CacheInv;
    assert |s.log| == s.file.partRev + 1;
    ReadIsLog(p, s, base + 1, newer + 1);
    ComposesAlways(p.ops, p.ops.nothing, s.log[base + 1..newer + 1]);
  }

  /** Composed, the changes after a revision lead from it to the later one. */
  lemma ComposedLeads<S(!new), D(!new)>(p: Algebra<S, D>, log: seq<D>, base: nat, newer: nat, d: D)
    requires EmptyLaw(p) && ComposeLaw(p) && base < newer < |log| && At(p, log, newer).Some?
    requires ComposeAll(p, p.nothing, log[base + 1..newer + 1], false) == Some(d)
    ensures Leads(p, log, base, Change(newer, d))
  {
    hide ComposeLaw;
    AtLater(p, log, base, newer);
    var t := At(p, log, base).value;
    assert p.apply(t, p.nothing) == Some(t);
    hide EmptyLaw, At;
    ComposeAllChanges(p, t, p.nothing, log[base + 1..newer + 1]);
  }

  lemma DiffIsLater<S(!new), D(!new)>(p: Part<S, D>, s: Server<S, D>, base: nat, change: Change<D>)
    requires FileInv(p, s) && IsDiff(p, s, base, change)
    ensures base < change.revNum < |s.log|
  {
    hide Snapshot, Composed, StoredInv, CacheInv;
  }

  /** By either tactic, a difference leads from the base to exactly the newer revision, whatever has been deleted. */
  lemma DiffLeads<S(!new), D(!new)>(p: Part<S, D>, s: Server<S, D>, base: nat, change: Change<D>)
    requires Lawful(p.ops) && DiffLaw(p) && FileInv(p, s)
    requires IsDiff(p, s, base, change) && At(p.ops, s.log, change.revNum).Some?
    ensures Leads(p.ops, s.log, base, change)
  {
    assert |s.log| == s.file.partRev + 1;
    hide FileInv, EmptyLaw, ComposeLaw, Snapshot, Composed, ComposeAll, At;
    if change.revNum - base <= MAX_COMPOSED_CHANGES_FOR_DIFF {
      ComposedExactly(p, s, base, change.revNum);
      ComposedLeads(p.ops, s.log, base, change.revNum, change.delta);
    } else {
      SnapshotIsAt(p, s, base);
      SnapshotIsAt(p, s, change.revNum);
    }
  }

  /** There is a difference to any revision with contents, from any base if the part is durable, and otherwise from
      any base after which no change that is needed has been deleted. */
  lemma CanDiffExactly<S(!new), D(!new)>(p: Part<S, D>, s: Server<S, D>, base: nat, newer: nat)
    requires FileInv(p, s) && base < newer <= s.file.partRev && At(p.ops, s.log, newer).Some?
    ensures CanDiff(p, s, base, newer) <==>
      if newer - base <= MAX_COMPOSED_CHANGES_FOR_DIFF then Bound(p, s) <= base + 1
      else HasSince(p, s, base) && HasSince(p, s, newer)
    ensures !p.ephemeral ==> CanDiff(p, s, base, newer)
  {
    assert |s.log| == s.file.partRev + 1;
    hide FileInv, Snapshot, Nearest, Fold;
    AtLater(p.ops, s.log, base, newer);
    SnapshotIsAt(p, s, base);
    SnapshotIsAt(p, s, newer);
  }

  /** What may be a difference stays one, while a durable part grows. So it does not matter when it arrives. */
  lemma DiffStays<S(!new), D(!new)>(p: Part<S, D>, s: Server<S, D>, s': Server<S, D>, base: nat, change: Change<D>)
    requires FileInv(p, s) && FileInv(p, s') && !p.ephemeral && s.log <= s'.log && IsDiff(p, s, base, change)
    ensures IsDiff(p, s', base, change)
  {
    var newer := change.revNum;
    assert |s.log| == s.file.partRev + 1 && |s'.log| == s'.file.partRev + 1;
    hide FileInv, Snapshot, Composed, Fold;
    if newer - base <= MAX_COMPOSED_CHANGES_FOR_DIFF {
      ComposedExactly(p, s, base, newer);
      ComposedExactly(p, s', base, newer);
      assert s'.log[base + 1..newer + 1] == s.log[base + 1..newer + 1];
    } else {
      SnapshotStays(p, s, s', base);
      SnapshotStays(p, s, s', newer);
    }
  }

  lemma SnapshotStays<S(!new), D(!new)>(p: Part<S, D>, s: Server<S, D>, s': Server<S, D>, r: nat)
    requires FileInv(p, s) && FileInv(p, s') && !p.ephemeral && s.log <= s'.log && r < |s.log|
    ensures Snapshot(p, s', r) == Snapshot(p, s, r)
  {
    hide FileInv, Snapshot, Fold;
    SnapshotIsAt(p, s, r);
    SnapshotIsAt(p, s', r);
    AtGrows(p, s.log, s'.log, r);
  }

  /** `getDiff()`. `diff` stands for the difference of two snapshots. */
  method GetDiff<S(!new), D(!new)>(p: Part<S, D>, diff: (S, S) -> D, s: Server<S, D>, base: nat, newer: nat)
      returns (r: Result<Change<D>, Error>)
    requires Lawful(p.ops) && DiffLaw(p) && FileInv(p, s) && forall x, y :: p.diffs(x, y, diff(x, y))
    ensures base >= newer ==> r == Err(BadValue)
    ensures r.Ok? <==> base < newer <= s.file.partRev && CanDiff(p, s, base, newer)
    ensures r.Ok? ==> r.value.revNum == newer && IsDiff(p, s, base, r.value)
    ensures r.Ok? && At(p.ops, s.log, newer).Some? ==> Leads(p.ops, s.log, base, r.value)
  {
    if base >= newer {
      return Err(BadValue);
    }
    assert |s.log| == s.file.partRev + 1;
    hide FileInv, EmptyLaw, ComposeLaw, DocumentLaw, Composed, Snapshot, At;
    if newer - base <= MAX_COMPOSED_CHANGES_FOR_DIFF {
      if newer <= s.file.partRev {
        ComposedExactly(p, s, base, newer);
      }
      var delta := GetComposedChanges(p.ops, ToStore(s), p.ops.nothing, base + 1, newer + 1, false);
      if delta.Err? {
        return Err(delta.error);
      }
      r := Ok(Change(newer, delta.value));
    } else {
      var before, after := Snapshot(p, s, base), Snapshot(p, s, newer);
      if before.None? || after.None? {
        return Err(NotAvailable(if before.None? then base else newer));
      }
      r := Ok(Change(newer, diff(before.value, after.value)));
    }
    if At(p.ops, s.log, newer).Some? {
      DiffLeads(p, s, base, r.value);
    }
  }

  /** `getChangeAfter()`. When there is no change after the base yet, it waits for one: `now` is the server when the
      method is called, `seen` the revision that it has waited for, if it has had to, and `later` the server when
      it makes the difference. */
  method GetChangeAfter<S(!new), D(!new)>(p: Part<S, D>, diff: (S, S) -> D, now: Server<S, D>, seen: nat,
      later: Server<S, D>, base: nat)
      returns (r: Result<Change<D>, Error>)
    requires Lawful(p.ops) && DiffLaw(p) && FileInv(p, later) && forall x, y :: p.diffs(x, y, diff(x, y))
    requires now.file.partRev <= later.file.partRev && base < seen <= later.file.partRev
    ensures base > now.file.partRev ==> r == Err(BadValue)
    ensures base <= now.file.partRev ==>
      var newer := if base < now.file.partRev then now.file.partRev else seen;
      && (r.Ok? <==> CanDiff(p, later, base, newer))
      && (r.Ok? ==> base < r.value.revNum == newer && IsDiff(p, later, base, r.value))
      && (r.Ok? && At(p.ops, later.log, newer).Some? ==> Leads(p.ops, later.log, base, r.value))
  {
    var current := now.file.partRev;
    if base > current {
      return Err(BadValue);
    }
    if current == base {
      current := seen;
    }
    hide IsDiff, CanDiff, Leads, FileInv, Lawful;
    r := GetDiff(p, diff, later, base, current);
  }
}
