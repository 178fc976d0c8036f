/** How much history an ephemeral part keeps. */
module Retention {
  import opened Wrappers
  import opened Part
  import opened ChangeLog
  import opened Validation

  // Every so often, the snapshot of an ephemeral part is stored, and changes from well before it are deleted. The
  // writes are asynchronous, and may come late or out of order.

  /** The part, with its whole history and the highest revision ever stored as a snapshot. */
  datatype State<S, D> = State(log: seq<D>, store: Store<D>, stored: Option<(nat, S)>, highest: nat)

  ghost predicate Init<S(!new), D(!new)>(p: Algebra<S, D>, s: State<S, D>) {
    s == State([p.nothing], Store(0, map[0 := p.nothing]), None, 0)
  }

  /** A change that is appended is never empty. */
  ghost predicate Append<S(!new), D(!new)>(p: Algebra<S, D>, s: State<S, D>, s': State<S, D>) {
    exists d :: d != p.nothing &&
      s' == s.(log := s.log + [d], store := Store(s.store.revNum + 1, s.store.changes[s.store.revNum + 1 := d]))
  }

  /** `_writeStoredSnapshot()` at its moment of effect, for any revision that has ever asked for it. */
  ghost predicate Write<S(!new), D(!new)>(p: Algebra<S, D>, s: State<S, D>, s': State<S, D>, r: nat) {
    && 0 < r < |s.log| && r % CHANGES_PER_STORED_SNAPSHOT == 0 && At(p, s.log, r).Some?
    && s' == State(s.log,
                   s.store.(changes := Trim(s.store.changes, DeleteBefore(r))),
                   Some((r, At(p, s.log, r).value)),
                   if r > s.highest then r else s.highest)
  }

  /** A write is prompt when it is at most one period behind the latest one. */
  predicate Prompt<S, D>(s: State<S, D>, r: nat) {
    r + CHANGES_PER_STORED_SNAPSHOT >= s.highest
  }

  /** What is stored: exactly the changes from a bound on, with the deltas first written. */
  ghost predicate Inv<S(!new), D(!new)>(p: Algebra<S, D>, s: State<S, D>) {
    && |s.log| == s.store.revNum + 1
    && (forall k :: k in s.store.changes <==> DeleteBefore(s.highest) <= k <= s.store.revNum)
    && (forall k :: k in s.store.changes ==> s.store.changes[k] == s.log[k])
    && s.highest % CHANGES_PER_STORED_SNAPSHOT == 0 && s.highest <= s.store.revNum
    && (s.stored.None? <==> s.highest == 0)
    && (s.stored.Some? ==>
          var (q, contents) := s.stored.value;
          && 0 < q <= s.highest && q % CHANGES_PER_STORED_SNAPSHOT == 0
          && At(p, s.log, q) == Some(contents))
  }

  lemma InitInv<S(!new), D(!new)>(p: Algebra<S, D>, s: State<S, D>)
    requires Init(p, s)
    ensures Inv(p, s) && Whole(s)
  {
  }

  lemma AppendInv<S(!new), D(!new)>(p: Algebra<S, D>, s: State<S, D>, s': State<S, D>)
    requires Inv(p, s) && Append(p, s, s')
    ensures Inv(p, s') && (Whole(s) ==> Whole(s'))
  {
    if s.stored.Some? {
      var q := s.stored.value.0;
      assert s'.log[..q + 1] == s.log[..q + 1];
    }
  }

  lemma WriteInv<S(!new), D(!new)>(p: Algebra<S, D>, s: State<S, D>, s': State<S, D>, r: nat)
    requires Inv(p, s) && Write(p, s, s', r)
    ensures Inv(p, s')
  {
  }

  function StoredRevNum<S, D>(s: State<S, D>): Option<nat> {
    if s.stored.Some? then Some(s.stored.value.0) else None
  }

  /** All changes after the stored snapshot are there. */
  predicate Whole<S, D>(s: State<S, D>) {
    AllPresent(s.store.changes, RequiredAt(StoredRevNum(s), true), s.store.revNum + 1)
  }

  lemma Multiples(r: nat, highest: nat)
    requires r % CHANGES_PER_STORED_SNAPSHOT == 0 && highest % CHANGES_PER_STORED_SNAPSHOT == 0
    ensures r + 1 + CHANGES_PER_STORED_SNAPSHOT >= highest <==> r + CHANGES_PER_STORED_SNAPSHOT >= highest
  {
  }

  /** A write leaves the changes after its snapshot in place exactly when it is prompt; otherwise they have been
      deleted by a later one already. */
  lemma WriteKeepsHistory<S(!new), D(!new)>(p: Algebra<S, D>, s: State<S, D>, s': State<S, D>, r: nat)
    requires Inv(p, s) && Write(p, s, s', r)
    ensures Whole(s') <==> Prompt(s, r)
    ensures !Prompt(s, r) ==> r + 1 <= s'.store.revNum && r + 1 !in s'.store.changes
  {
    WriteInv(p, s, s', r);
    Multiples(r, s.highest);
    if !Prompt(s, r) {
      assert r + 1 !in s'.store.changes;
    } else {
      assert DeleteBefore(s'.highest) <= r + 1;
    }
  }

  /** A late write makes the check of the part fail, though nothing but the order of writes went wrong. */
  lemma LateWriteBreaks<S(!new), D(!new)>(p: Algebra<S, D>, s: State<S, D>, s': State<S, D>, r: nat)
    requires Inv(p, s) && Write(p, s, s', r)
    ensures Acceptable(s'.store, Some(r), true) <==> Prompt(s, r)
  {
    WriteInv(p, s, s', r);
    WriteKeepsHistory(p, s, s', r);
    if Prompt(s, r) { WholeAcceptable(p, s'); }
  }

  // ----- Whole runs -----

  ghost predicate Step<S(!new), D(!new)>(p: Algebra<S, D>, s: State<S, D>, s': State<S, D>) {
    Append(p, s, s') || exists r :: Write(p, s, s', r) && Prompt(s, r)
  }

  ghost predicate StepIn<S(!new), D(!new)>(p: Algebra<S, D>, trace: seq<State<S, D>>, i: nat)
    requires i + 1 < |trace|
  {
    Step(p, trace[i], trace[i + 1])
  }

  /** A run in which all writes are prompt. */
  ghost predicate Run<S(!new), D(!new)>(p: Algebra<S, D>, trace: seq<State<S, D>>) {
    trace != [] && Init(p, trace[0]) && forall i: nat :: i + 1 < |trace| ==> StepIn(p, trace, i)
  }

  lemma {:induction false} RunInv<S(!new), D(!new)>(p: Algebra<S, D>, trace: seq<State<S, D>>, i: nat)
    requires Run(p, trace) && i < |trace|
    ensures Inv(p, trace[i]) && Whole(trace[i])
  {
    if i == 0 {
      InitInv(p, trace[0]);
    } else {
      RunInv(p, trace, i - 1);
      assert StepIn(p, trace, i - 1);
      if Append(p, trace[i - 1], trace[i]) {
        AppendInv(p, trace[i - 1], trace[i]);
      } else {
        var r :| Write(p, trace[i - 1], trace[i], r) && Prompt(trace[i - 1], r);
        WriteInv(p, trace[i - 1], trace[i], r);
        WriteKeepsHistory(p, trace[i - 1], trace[i], r);
      }
    }
  }

  lemma {:induction false} InOrder<S(!new), D(!new)>(p: Algebra<S, D>, s: State<S, D>, lo: nat, hi: nat)
    requires Inv(p, s) && hi <= s.store.revNum + 1
    ensures ChunksInOrder(s.store.changes, lo, hi)
    decreases hi - lo
  {
    if lo < hi { InOrder(p, s, ChunkEnd(lo, hi), hi); }
  }

  lemma WholeAcceptable<S(!new), D(!new)>(p: Algebra<S, D>, s: State<S, D>)
    requires Inv(p, s) && Whole(s)
    ensures Acceptable(s.store, StoredRevNum(s), true)
  {
    InOrder(p, s, 0, RequiredAt(StoredRevNum(s), true));
  }

  lemma {:induction false} ReadIsLog<S(!new), D(!new)>(p: Algebra<S, D>, s: State<S, D>, lo: nat, hi: nat)
    requires Inv(p, s) && lo <= hi <= |s.log| && AllPresent(s.store.changes, lo, hi)
    ensures Read(s.store.changes, lo, hi) == Some(s.log[lo..hi])
    decreases hi
  {
    if lo == hi {
      assert s.log[lo..hi] == [];
    } else {
      ReadIsLog(p, s, lo, hi - 1);
      assert s.log[lo..hi] == s.log[lo..hi - 1] + [s.log[hi - 1]];
    }
  }

  /** A revision rebuilt from the stored snapshot, or from the empty part when there is none. */
  function Rebuilt<S(!new), D(!new)>(p: Algebra<S, D>, s: State<S, D>, r: nat): Option<S> {
    match Read(s.store.changes, RequiredAt(StoredRevNum(s), true), r + 1)
    case None => None
    case Some(deltas) => ApplyAll(p, if s.stored.Some? then s.stored.value.1 else p.empty, deltas)
  }

  lemma RebuiltRight<S(!new), D(!new)>(p: Algebra<S, D>, s: State<S, D>, r: nat)
    requires Inv(p, s) && Whole(s) && r < |s.log| && At(p, s.log, r).Some?
    requires s.stored.Some? ==> s.stored.value.0 <= r
    ensures Rebuilt(p, s, r) == At(p, s.log, r)
  {
    ReadIsLog(p, s, RequiredAt(StoredRevNum(s), true), r + 1);
    if s.stored.Some? {
      AtLater(p, s.log, s.stored.value.0, r);
    } else {
      assert s.log[0..r + 1] == s.log[..r + 1];
    }
  }

  /** What is missing is a prefix of the history, the part is accepted by the check, and every revision from the
      stored snapshot on can be rebuilt from it. */
  ghost predicate History<S(!new), D(!new)>(p: Algebra<S, D>, s: State<S, D>) {
    && |s.log| == s.store.revNum + 1
    && MissingAtStart(s.store.changes, 0, s.store.revNum + 1)
    && Acceptable(s.store, StoredRevNum(s), true)
    && forall r :: 0 <= r < |s.log| && At(p, s.log, r).Some? && (s.stored.Some? ==> s.stored.value.0 <= r) ==>
         Rebuilt(p, s, r) == At(p, s.log, r)
  }

  lemma WholeHistory<S(!new), D(!new)>(p: Algebra<S, D>, s: State<S, D>)
    requires Inv(p, s) && Whole(s)
    ensures History(p, s)
  {
    WholeAcceptable(p, s);
    forall r | 0 <= r < |s.log| && At(p, s.log, r).Some? && (s.stored.Some? ==> s.stored.value.0 <= r)
      ensures Rebuilt(p, s, r) == At(p, s.log, r)
    {
      RebuiltRight(p, s, r);
    }
  }

  /** This holds in every run whose writes are prompt. */
  lemma HistoryIsKept<S(!new), D(!new)>(p: Algebra<S, D>, trace: seq<State<S, D>>, i: nat)
    requires Run(p, trace) && i < |trace|
    ensures History(p, trace[i])
  {
    RunInv(p, trace, i);
    WholeHistory(p, trace[i]);
  }

  // ----- A late write -----

  ghost predicate Reachable<S(!new), D(!new)>(p: Algebra<S, D>, s: State<S, D>) {
    exists trace :: Run(p, trace) && trace[|trace| - 1] == s
  }

  lemma ReachableStep<S(!new), D(!new)>(p: Algebra<S, D>, s: State<S, D>, s': State<S, D>)
    requires Reachable(p, s) && Step(p, s, s')
    ensures Reachable(p, s')
  {
    var trace :| Run(p, trace) && trace[|trace| - 1] == s;
    var longer := trace + [s'];
    forall i: nat | i + 1 < |longer| ensures StepIn(p, longer, i) {
      if i + 1 < |trace| { assert StepIn(p, trace, i); }
    }
    assert Run(p, longer) && longer[|longer| - 1] == s';
  }

  /** The part after `n` appends of the same change, with nothing stored. */
  lemma {:induction false} AppendMany<S(!new), D(!new)>(p: Algebra<S, D>, d: D, n: nat) returns (s: State<S, D>)
    requires d != p.nothing && EmptyLaw(p) && forall x :: p.apply(x, d).Some?
    ensures Reachable(p, s) && |s.log| == n + 1 && s.highest == 0
    ensures Fold(p, s.log).Some?
  {
    if n == 0 {
      s := State([p.nothing], Store(0, map[0 := p.nothing]), None, 0);
      assert Run(p, [s]) && [s][|[s]| - 1] == s;
      FoldMore(p, [], p.nothing);
      assert [] + [p.nothing] == [p.nothing];
      assert p.apply(p.empty, p.nothing) == Some(p.empty);
    } else {
      var before := AppendMany(p, d, n - 1);
      s := before.(log := before.log + [d],
                   store := Store(before.store.revNum + 1, before.store.changes[before.store.revNum + 1 := d]));
      assert Append(p, before, s);
      ReachableStep(p, before, s);
      FoldMore(p, before.log, d);
    }
  }

  /** There is a run of 3000 appends and one prompt write after which the write of the first snapshot, coming
      late, makes the part unacceptable: changes that it needs have been deleted. */
  lemma LateWriteHappens<S(!new), D(!new)>(p: Algebra<S, D>, d: D) returns (s: State<S, D>, s': State<S, D>)
    requires d != p.nothing && EmptyLaw(p) && forall x :: p.apply(x, d).Some?
    ensures Reachable(p, s) && Write(p, s, s', 1000)
    ensures !Acceptable(s'.store, StoredRevNum(s'), true)
  {
    var before := AppendMany(p, d, 3000);
    s := Written(p, before, 3000);
    assert Step(p, before, s);
    ReachableStep(p, before, s);
    s' := Written(p, s, 1000);
    ReachableInv(p, s);
    LateWriteBreaks(p, s, s', 1000);
  }

  lemma Written<S(!new), D(!new)>(p: Algebra<S, D>, s: State<S, D>, r: nat) returns (s': State<S, D>)
    requires 0 < r < |s.log| && r % CHANGES_PER_STORED_SNAPSHOT == 0 && Fold(p, s.log).Some?
    ensures Write(p, s, s', r) && s'.log == s.log && s'.highest == if r > s.highest then r else s.highest
  {
    FoldSplit(p, s.log, r + 1);
    s' := State(s.log,
                s.store.(changes := Trim(s.store.changes, DeleteBefore(r))),
                Some((r, At(p, s.log, r).value)),
                if r > s.highest then r else s.highest);
  }

  lemma ReachableInv<S(!new), D(!new)>(p: Algebra<S, D>, s: State<S, D>)
    requires Reachable(p, s)
    ensures Inv(p, s)
  {
    var trace :| Run(p, trace) && trace[|trace| - 1] == s;
    RunInv(p, trace, |trace| - 1);
  }
}
