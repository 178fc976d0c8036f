/** The check of a stored document part, and how much history an ephemeral part keeps. */
module Validation {
  import opened Wrappers
  import opened ChangeLog

  const EXTRA_CHANGES: nat := 10000

  /** The stretches in which old changes are looked at, one at a time. */
  function ChunkEnd(lo: nat, hi: nat): nat {
    if lo + MAX_CHANGE_READS_PER_ITERATION <= hi then lo + MAX_CHANGE_READS_PER_ITERATION else hi
  }

  /** Within a range, changes are missing at the start only. */
  predicate MissingAtStart<D>(changes: map<nat, D>, lo: nat, hi: nat) {
    forall j, k :: lo <= j < k < hi && j in changes ==> k in changes
  }

  predicate AllPresent<D>(changes: map<nat, D>, lo: nat, hi: nat) {
    forall k :: lo <= k < hi ==> k in changes
  }

  predicate ChunksInOrder<D>(changes: map<nat, D>, lo: nat, hi: nat)
    decreases hi - lo
  {
    lo < hi ==> MissingAtStart(changes, lo, ChunkEnd(lo, hi)) && ChunksInOrder(changes, ChunkEnd(lo, hi), hi)
  }

  /** The revision from which on changes have to be there. */
  function RequiredAt(snapshot: Option<nat>, ephemeral: bool): nat {
    if ephemeral && snapshot.Some? then snapshot.value + 1 else 0
  }

  /** What the check accepts. */
  predicate Acceptable<D>(s: Store<D>, snapshot: Option<nat>, ephemeral: bool) {
    && (snapshot.Some? ==> snapshot.value <= s.revNum)
    && ChunksInOrder(s.changes, 0, RequiredAt(snapshot, ephemeral))
    && AllPresent(s.changes, RequiredAt(snapshot, ephemeral), s.revNum + 1)
    && forall k :: s.revNum < k < s.revNum + EXTRA_CHANGES ==> k !in s.changes
  }

  predicate SameStretch(j: nat, k: nat) {
    j / 1000 == k / 1000
  }

  /** A stretch starts at every multiple of the greatest number of changes that is read at a time. */
  lemma {:induction false} ChunksExactly<D>(changes: map<nat, D>, lo: nat, hi: nat)
    requires lo % MAX_CHANGE_READS_PER_ITERATION == 0
    ensures ChunksInOrder(changes, lo, hi) <==>
      forall j, k :: lo <= j < k < hi && j in changes && SameStretch(j, k) ==> k in changes
    decreases hi - lo
  {
    var end := ChunkEnd(lo, hi);
    if lo < hi && end < hi {
      ChunksExactly(changes, end, hi);
    }
  }

  /** What is accepted of a durable part: all changes up to its revision, and, as far as the check looks, none after
      it. The stored snapshot makes no difference, as long as it is not from the future. */
  predicate DurableAccepted<D>(s: Store<D>, snapshot: Option<nat>) {
    && (snapshot.Some? ==> snapshot.value <= s.revNum)
    && forall k :: 0 <= k < s.revNum + 10000 ==> (k in s.changes <==> k <= s.revNum)
  }

  /** What is accepted of an ephemeral part: all changes after its stored snapshot, or all if it has none; before that,
      changes may be missing at the start of each stretch of a thousand. */
  predicate EphemeralAccepted<D>(s: Store<D>, snapshot: Option<nat>) {
    && (snapshot.Some? ==> snapshot.value <= s.revNum)
    && (forall k :: 0 <= k < s.revNum + 10000 && (snapshot.Some? ==> snapshot.value < k) ==>
          (k in s.changes <==> k <= s.revNum))
    && (snapshot.Some? ==>
          forall j, k :: 0 <= j < k <= snapshot.value && j in s.changes && SameStretch(j, k) ==> k in s.changes)
  }

  lemma AcceptableExactly<D>(s: Store<D>, snapshot: Option<nat>)
    ensures Acceptable(s, snapshot, false) <==> DurableAccepted(s, snapshot)
    ensures Acceptable(s, snapshot, true) <==> EphemeralAccepted(s, snapshot)
  {
    ChunksExactly(s.changes, 0, RequiredAt(snapshot, true));
    ChunksExactly(s.changes, 0, RequiredAt(snapshot, false));
  }

  lemma RangeAllowed<D>(changes: map<nat, D>, lo: nat, hi: nat)
    requires lo <= hi
    ensures Read(changes, First(changes, lo, hi), hi).Some? <==> MissingAtStart(changes, lo, hi)
  {
    var first := First(changes, lo, hi);
    ReadExactly(changes, first, hi);
    if MissingAtStart(changes, lo, hi) {
      forall k | first <= k < hi ensures k in changes {
        if first < k { assert first in changes; }
      }
    }
  }

  /** Extra changes past the current revision, as far as the check looks. */
  method HasExtra<D>(s: Store<D>) returns (r: bool)
    ensures r <==> exists k :: s.revNum < k < s.revNum + EXTRA_CHANGES && k in s.changes
  {
    var extra := set k | k in s.changes && s.revNum < k < s.revNum + EXTRA_CHANGES;
    r := extra != {};
    if r {
      var k :| k in extra;
    } else {
      assert forall k :: k in s.changes && s.revNum < k < s.revNum + EXTRA_CHANGES ==> k in extra;
    }
  }

  /** `_impl_validationStatus()`, for data that can be decoded: `true` stands for the status "ok". */
  method ValidationStatus<D>(s: Store<D>, snapshot: Option<nat>, ephemeral: bool) returns (ok: bool)
    ensures ok <==> if ephemeral then EphemeralAccepted(s, snapshot) else DurableAccepted(s, snapshot)
    ensures ok <==> Acceptable(s, snapshot, ephemeral)
  {
    AcceptableExactly(s, snapshot);
    hide EphemeralAccepted, DurableAccepted;
    if snapshot.Some? && s.revNum < snapshot.value {
      return false;
    }
    var required := RequiredAt(snapshot, ephemeral);
    var i := 0;
    while i < required
      invariant i < required ==> (ChunksInOrder(s.changes, 0, required) <==> ChunksInOrder(s.changes, i, required))
      invariant i >= required ==> ChunksInOrder(s.changes, 0, required)
    {
      var end := ChunkEnd(i, required);
      RangeAllowed(s.changes, i, end);
      var range := GetChangeRange(s, i, end, true);
      if range.Err? {
        return false;
      }
      i := i + MAX_CHANGE_READS_PER_ITERATION;
    }
    i := required;
    while i <= s.revNum
      invariant required <= i
      invariant AllPresent(s.changes, required, if i <= s.revNum then i else s.revNum + 1)
    {
      var end := ChunkEnd(i, s.revNum + 1);
      ReadExactly(s.changes, i, end);
      var range := GetChangeRange(s, i, end, false);
      if range.Err? {
        return false;
      }
      i := i + MAX_CHANGE_READS_PER_ITERATION;
    }
    var extra := HasExtra(s);
    return !extra;
  }
}
