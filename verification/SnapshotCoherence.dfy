/** Every snapshot that the cache holds or hands out is what the part's log says. */
module SnapshotCoherence {
  import opened Wrappers
  import opened Part
  import opened ChangeLog
  import opened SnapshotManager

  /** A document for the contents at a revision. */
  ghost predicate IsSnapshot<S(!new), D(!new)>(p: Algebra<S, D>, log: seq<D>, r: nat, d: D) {
    r < |log| && p.isDocument(d) && At(p, log, r) == Some(p.contents(d))
  }

  /** The store of a part with this log; an ephemeral part may have lost some of its changes. */
  ghost predicate Stores<S(!new), D(!new)>(p: Algebra<S, D>, log: seq<D>, s: Store<D>) {
    && |log| == s.revNum + 1
    && forall k :: k in s.changes ==> 0 <= k < |log| && s.changes[k] == log[k]
  }

  ghost predicate Coherent<S(!new), D(!new)>(p: Algebra<S, D>, log: seq<D>, cache: Cache<D>) {
    forall r :: r in cache && cache[r].Ok? ==> IsSnapshot(p, log, r, cache[r].value)
  }

  lemma {:induction false} ReadIsLog<S(!new), D(!new)>(p: Algebra<S, D>, log: seq<D>, s: Store<D>, lo: nat, hi: nat)
    requires Stores(p, log, s) && lo <= hi <= |log|
    ensures Read(s.changes, lo, hi).Some? ==> Read(s.changes, lo, hi) == Some(log[lo..hi])
    ensures (forall k :: lo <= k < hi ==> k in s.changes) <==> Read(s.changes, lo, hi).Some?
    decreases hi
  {
    if lo == hi {
      assert log[lo..hi] == [];
    } else {
      ReadIsLog(p, log, s, lo, hi - 1);
      assert log[lo..hi] == log[lo..hi - 1] + [log[hi - 1]];
    }
  }

  /** A snapshot made from an earlier one is right, and it is made whenever the changes are there and the
      revision has contents. */
  lemma MakeRight<S(!new), D(!new)>(p: Algebra<S, D>, log: seq<D>, s: Store<D>, b: nat, base: D, r: nat)
    requires DocumentLaw(p) && Stores(p, log, s) && b <= r < |log| && IsSnapshot(p, log, b, base)
    ensures Make(p, s, base, b + 1, r).Ok? ==> IsSnapshot(p, log, r, Make(p, s, base, b + 1, r).value)
    ensures Make(p, s, base, b + 1, r).Ok? <==> (forall k :: b < k <= r ==> k in s.changes) && At(p, log, r).Some?
  {
    ReadIsLog(p, log, s, b + 1, r + 1);
    var since := log[b + 1..r + 1];
    ComposeAllDocument(p, base, since);
    ApplyAllConcat(p, p.empty, log[..b + 1], since);
    assert log[..b + 1] + since == log[..r + 1];
    hide DocumentLaw, Stores, Read, ComposeAll, ApplyAll;
  }

  /** Likewise for snapshot 0, which is made from nothing. */
  lemma Make0Right<S(!new), D(!new)>(p: Algebra<S, D>, log: seq<D>, s: Store<D>)
    requires EmptyLaw(p) && DocumentLaw(p) && Stores(p, log, s) && 0 in s.changes
    ensures Make(p, s, p.nothing, 0, 0).Ok? <==> At(p, log, 0).Some?
    ensures Make(p, s, p.nothing, 0, 0).Ok? ==> IsSnapshot(p, log, 0, Make(p, s, p.nothing, 0, 0).value)
  {
    ReadIsLog(p, log, s, 0, 1);
    ComposeAllDocument(p, p.nothing, log[0..1]);
    assert log[..1] == log[0..1];
  }

  /** Whichever cached snapshot it starts from, an answer is right, and so is the cache that results. */
  lemma AnswerRight<S(!new), D(!new)>(p: Algebra<S, D>, log: seq<D>, s: Store<D>, cache: Cache<D>, r: nat)
    requires DocumentLaw(p) && Stores(p, log, s) && Coherent(p, log, cache) && r < |log|
    ensures var answer := Answer(p, s, cache, r);
      answer.Some? && answer.value.Ok? ==> IsSnapshot(p, log, r, answer.value.value)
    ensures Coherent(p, log, After(p, s, cache, r))
  {
    var base := Nearest(cache, r);
    if base.Some? && cache[base.value].Ok? {
      MakeRight(p, log, s, base.value, cache[base.value].value, r);
    }
  }

  lemma SeedRight<S(!new), D(!new)>(p: Algebra<S, D>, log: seq<D>, s: Store<D>, stored: Option<(nat, D)>)
    requires Lawful(p) && Stores(p, log, s)
    requires stored.Some? ==> IsSnapshot(p, log, stored.value.0, stored.value.1)
    ensures Coherent(p, log, Seed(p, s, stored))
  {
    if 0 in s.changes { Make0Right(p, log, s); }
  }

  lemma CoherentLater<S(!new), D(!new)>(p: Algebra<S, D>, log: seq<D>, d: D, cache: Cache<D>)
    requires Coherent(p, log, cache)
    ensures Coherent(p, log + [d], cache)
  {
    forall r | r in cache && cache[r].Ok? ensures IsSnapshot(p, log + [d], r, cache[r].value) {
      assert (log + [d])[..r + 1] == log[..r + 1];
    }
  }

  // ----- All operations, in any order -----

  /** What can happen to the manager of a part: a change is appended; changes before some revision are deleted, as
      they are from ephemeral parts only; the cache is cleared; or a request is answered, which may find a snapshot
      stored. */
  datatype Op<D> = Append(d: D) | Delete(bound: nat) | Clear | Request(revNum: nat, stored: Option<(nat, D)>)

  /** The whole history of the part, the first revision whose change is still stored, and the manager. */
  datatype State<D> = State(log: seq<D>, bound: nat, cache: Cache<D>, rejected: bool) {
    function Stored(): Store<D>
      requires log != []
    {
      Store(|log| - 1, map k: nat | bound <= k < |log| :: log[k])
    }
  }

  function Exec<S(!new), D(!new)>(p: Algebra<S, D>, s: State<D>, op: Op<D>): State<D>
    requires s.log != []
  {
    match op
    case Append(d) => s.(log := s.log + [d])
    case Delete(bound) => if bound > s.bound then s.(bound := bound) else s
    case Clear => s.(cache := map[])
    case Request(r, stored) =>
      if Fails(p, s.Stored(), stored, s.cache, s.rejected) then
        s.(cache := if s.rejected then map[] else Seed(p, s.Stored(), stored), rejected := true)
      else s.(cache := After(p, s.Stored(), Seeded(p, s.Stored(), stored, s.cache), r))
  }

  /** What a request is answered. */
  function Reply<S(!new), D(!new)>(p: Algebra<S, D>, s: State<D>, r: nat, stored: Option<(nat, D)>): Option<Entry<D>>
    requires s.log != []
  {
    if Fails(p, s.Stored(), stored, s.cache, s.rejected) then Some(Err(BadComposition))
    else Answer(p, s.Stored(), Seeded(p, s.Stored(), stored, s.cache), r)
  }

  function Run<S(!new), D(!new)>(p: Algebra<S, D>, ops: seq<Op<D>>): (s: State<D>)
    ensures s.log != []
  {
    if ops == [] then State([p.nothing], 0, map[], false) else Exec(p, Run(p, ops[..|ops| - 1]), ops[|ops| - 1])
  }

  ghost predicate Legal<S(!new), D(!new)>(p: Algebra<S, D>, s: State<D>, op: Op<D>) {
    match op
    case Request(r, stored) =>
      r < |s.log| && (stored.Some? ==> IsSnapshot(p, s.log, stored.value.0, stored.value.1))
    case _ => true
  }

  ghost predicate LegalRun<S(!new), D(!new)>(p: Algebra<S, D>, ops: seq<Op<D>>) {
    ops != [] ==> LegalRun(p, ops[..|ops| - 1]) && Legal(p, Run(p, ops[..|ops| - 1]), ops[|ops| - 1])
  }

  /** A cached entry is a failure only where the log has no contents. */
  ghost predicate Exact<S(!new), D(!new)>(p: Algebra<S, D>, log: seq<D>, cache: Cache<D>) {
    forall r :: r in cache ==> r < |log| && (cache[r].Ok? <==> At(p, log, r).Some?)
  }

  /** The snapshot of revision `b` is cached, and that of a later revision can be made from it, as far as the changes
      after it are concerned. */
  predicate Usable<D>(bound: nat, cache: Cache<D>, b: nat) {
    b in cache && cache[b].Ok? && bound <= b + 1
  }

  /** A cached failure is that of a revision without contents, or came after all that could be used had been
      deleted. */
  ghost predicate Failures<S(!new), D(!new)>(p: Algebra<S, D>, log: seq<D>, bound: nat, cache: Cache<D>) {
    forall e :: e in cache && cache[e].Err? ==>
      e < |log| && (At(p, log, e).None? || forall b: nat :: b < e ==> !Usable(bound, cache, b))
  }

  /** Every cached snapshot is right; and while nothing has been deleted, there always is a base. */
  ghost predicate Inv<S(!new), D(!new)>(p: Algebra<S, D>, s: State<D>) {
    && s.log != [] && s.log[0] == p.nothing && !s.rejected
    && Coherent(p, s.log, s.cache) && Failures(p, s.log, s.bound, s.cache)
    && (s.bound == 0 ==> Exact(p, s.log, s.cache) && (s.cache == map[] || 0 in s.cache))
  }

  lemma StoredStores<S(!new), D(!new)>(p: Algebra<S, D>, s: State<D>)
    requires s.log != []
    ensures Stores(p, s.log, s.Stored())
  {
  }

  /** Revision 0 is empty, and so its snapshot can always be made. */
  lemma NeverFails<S(!new), D(!new)>(p: Algebra<S, D>, s: State<D>, stored: Option<(nat, D)>)
    requires Lawful(p) && Inv(p, s)
    ensures !Fails(p, s.Stored(), stored, s.cache, s.rejected)
    ensures At(p, s.log, 0) == Some(p.empty)
  {
    var none: seq<D> := [];
    FoldMore(p, none, p.nothing);
    assert s.log[..1] == none + [p.nothing];
    assert p.apply(p.empty, p.nothing) == Some(p.empty);
    StoredStores(p, s);
    hide Make, Fold, Stores, State.Stored;
    if 0 in s.Stored().changes { Make0Right(p, s.log, s.Stored()); }
  }

  lemma SeededInv<S(!new), D(!new)>(p: Algebra<S, D>, s: State<D>, stored: Option<(nat, D)>)
    requires Lawful(p) && Inv(p, s)
    requires stored.Some? ==> IsSnapshot(p, s.log, stored.value.0, stored.value.1)
    ensures var cache := Seeded(p, s.Stored(), stored, s.cache);
      && Coherent(p, s.log, cache) && (s.bound == 0 ==> Exact(p, s.log, cache) && 0 in cache)
      && Failures(p, s.log, s.bound, cache)
  {
    hide Make, Fold;
    NeverFails(p, s, stored);
    SeedRight(p, s.log, s.Stored(), stored);
    assert forall k :: k in Seed(p, s.Stored(), stored) ==> Seed(p, s.Stored(), stored)[k].Ok?;
    if s.bound == 0 { SeedExact(p, s, stored); }
  }

  lemma SeedExact<S(!new), D(!new)>(p: Algebra<S, D>, s: State<D>, stored: Option<(nat, D)>)
    requires Lawful(p) && s.log != [] && s.bound == 0 && At(p, s.log, 0).Some?
    requires stored.Some? ==> IsSnapshot(p, s.log, stored.value.0, stored.value.1)
    ensures Exact(p, s.log, Seed(p, s.Stored(), stored)) && 0 in Seed(p, s.Stored(), stored)
  {
    hide Make, Fold;
    Make0Right(p, s.log, s.Stored());
  }

  /** Every answer that is a snapshot is right, whatever has been deleted. While nothing has been, as is always so for
      a durable part, there is a base for every request, and the answer is a snapshot exactly if the revision has
      contents. */
  lemma RequestRight<S(!new), D(!new)>(p: Algebra<S, D>, s: State<D>, r: nat, stored: Option<(nat, D)>)
    requires Lawful(p) && Inv(p, s) && Legal(p, s, Request(r, stored))
    ensures var answer := Reply(p, s, r, stored);
      && (answer.Some? && answer.value.Ok? ==> IsSnapshot(p, s.log, r, answer.value.value))
      && (s.bound == 0 ==> answer.Some? && (answer.value.Ok? <==> At(p, s.log, r).Some?))
    ensures Inv(p, Exec(p, s, Request(r, stored)))
  {
    var store := s.Stored();
    var cache := Seeded(p, store, stored, s.cache);
    NeverFails(p, s, stored);
    SeededInv(p, s, stored);
    StoredStores(p, s);
    hide Make, Seeded, Fold, Stores, State.Stored, Fails;
    AnswerRight(p, s.log, store, cache, r);
    AfterFailures(p, s, cache, r);
    if s.bound == 0 {
      AnswerExact(p, s, cache, r);
      AfterExact(p, s, cache, r);
    }
  }

  /** Whether a snapshot can be made from the nearest one. */
  lemma AnswerFound<S(!new), D(!new)>(p: Algebra<S, D>, s: State<D>, cache: Cache<D>, b: nat, r: nat)
    requires DocumentLaw(p) && s.log != [] && b <= r < |s.log| && Coherent(p, s.log, cache)
    requires b in cache && forall k :: b < k <= r ==> k !in cache
    ensures var answer := Answer(p, s.Stored(), cache, r);
      && answer.Some?
      && (if b == r then answer.value == cache[r]
          else answer.value.Ok? <==> Usable(s.bound, cache, b) && At(p, s.log, r).Some?)
  {
    assert Nearest(cache, r) == Some(b);
    StoredStores(p, s);
    assert b < r ==> (s.bound <= b + 1 <==> forall k :: b < k <= r ==> k in s.Stored().changes) by {
      if s.bound > b + 1 { assert b + 1 !in s.Stored().changes; }
    }
    hide Make, Fold, Nearest, Stores, State.Stored;
    if cache[b].Ok? { MakeRight(p, s.log, s.Stored(), b, cache[b].value, r); }
  }

  lemma AfterFailures<S(!new), D(!new)>(p: Algebra<S, D>, s: State<D>, cache: Cache<D>, r: nat)
    requires DocumentLaw(p) && s.log != [] && r < |s.log| && Coherent(p, s.log, cache)
    requires Failures(p, s.log, s.bound, cache)
    ensures Failures(p, s.log, s.bound, After(p, s.Stored(), cache, r))
  {
    hide Make, Fold, State.Stored;
    var answer := Answer(p, s.Stored(), cache, r);
    if r in cache {
      assert Nearest(cache, r) == Some(r);
      assert After(p, s.Stored(), cache, r) == cache;
    } else if answer.Some? {
      var b := Nearest(cache, r).value;
      AnswerFound(p, s, cache, b, r);
      hide Answer, Nearest;
      if At(p, s.log, r).Some? { AtLater(p, s.log, b, r); }
      MoreFailures(p, s.log, s.bound, cache, b, r, answer.value);
    }
  }

  lemma MoreFailures<S(!new), D(!new)>(p: Algebra<S, D>, log: seq<D>, bound: nat, cache: Cache<D>, b: nat, r: nat,
      e: Entry<D>)
    requires Failures(p, log, bound, cache) && b in cache && b < r < |log| && forall k :: b < k <= r ==> k !in cache
    requires e.Ok? <==> Usable(bound, cache, b) && At(p, log, r).Some?
    requires At(p, log, r).Some? ==> At(p, log, b).Some?
    ensures Failures(p, log, bound, cache[r := e])
  {
    hide At;
    var later := cache[r := e];
    forall x | x in later && later[x].Err?
      ensures x < |log| && (At(p, log, x).None? || forall k: nat :: k < x ==> !Usable(bound, later, k))
    {
      if At(p, log, x).Some? {
        forall k: nat | k < x ensures !Usable(bound, later, k) {
          assert cache[b].Err? && At(p, log, b).Some? ==> k < b ==> !Usable(bound, cache, k);
          assert x in cache ==> !Usable(bound, cache, k) && (b < x ==> !Usable(bound, cache, b));
          assert k in cache ==> k <= b || k > r;
        }
      }
    }
  }

  lemma AnswerExact<S(!new), D(!new)>(p: Algebra<S, D>, s: State<D>, cache: Cache<D>, r: nat)
    requires DocumentLaw(p) && s.log != [] && s.bound == 0 && r < |s.log|
    requires Coherent(p, s.log, cache) && Exact(p, s.log, cache) && 0 in cache
    ensures var answer := Answer(p, s.Stored(), cache, r);
      answer.Some? && (answer.value.Ok? <==> At(p, s.log, r).Some?)
  {
    hide Make, Fold;
    var b := Nearest(cache, r).value;
    if cache[b].Ok? {
      MakeRight(p, s.log, s.Stored(), b, cache[b].value, r);
    } else if At(p, s.log, r).Some? {
      AtLater(p, s.log, b, r);
    }
  }

  lemma AfterExact<S(!new), D(!new)>(p: Algebra<S, D>, s: State<D>, cache: Cache<D>, r: nat)
    requires s.log != [] && r < |s.log| && Exact(p, s.log, cache) && 0 in cache
    requires var answer := Answer(p, s.Stored(), cache, r);
      answer.Some? && (answer.value.Ok? <==> At(p, s.log, r).Some?)
    ensures Exact(p, s.log, After(p, s.Stored(), cache, r)) && 0 in After(p, s.Stored(), cache, r)
  {
    hide Answer, At;
  }

  /** A first request finds what it needs in the stored snapshot, if no change after that has been deleted. */
  lemma FirstRequestFinds<S(!new), D(!new)>(p: Algebra<S, D>, s: State<D>, r: nat, q: nat, d: D)
    requires Lawful(p) && Inv(p, s) && s.cache == map[] && r < |s.log|
    requires IsSnapshot(p, s.log, q, d) && q <= r && s.bound <= q + 1
    ensures var answer := Reply(p, s, r, Some((q, d)));
      answer.Some? && (answer.value.Ok? <==> At(p, s.log, r).Some?)
  {
    var store := s.Stored();
    NeverFails(p, s, Some((q, d)));
    StoredStores(p, s);
    var cache := Seed(p, store, Some((q, d)));
    assert q in cache && cache[q] == Ok(d) && forall k :: k in cache ==> k == q || k == 0;
    assert Nearest(cache, r) == Some(q);
    assert forall k :: q < k <= r ==> k in store.changes;
    hide Make, Seed, Nearest, Fold, Stores, State.Stored, Fails;
    MakeRight(p, s.log, store, q, d, r);
  }

  lemma AppendInv<S(!new), D(!new)>(p: Algebra<S, D>, s: State<D>, d: D)
    requires Inv(p, s)
    ensures Inv(p, s.(log := s.log + [d]))
  {
    hide Fold, IsSnapshot;
    CoherentLater(p, s.log, d, s.cache);
    forall r | r in s.cache && r < |s.log| ensures At(p, s.log + [d], r) == At(p, s.log, r) {
      assert (s.log + [d])[..r + 1] == s.log[..r + 1];
    }
  }

  /** For every sequence of appends, deletions, clears and requests, every cached snapshot is right. */
  lemma {:induction false} RunInv<S(!new), D(!new)>(p: Algebra<S, D>, ops: seq<Op<D>>)
    requires Lawful(p) && LegalRun(p, ops)
    ensures Inv(p, Run(p, ops))
  {
    if ops != [] {
      var s, op := Run(p, ops[..|ops| - 1]), ops[|ops| - 1];
      RunInv(p, ops[..|ops| - 1]);
      hide Inv, Seeded, Seed, After, Fails, Lawful;
      match op
      case Append(d) => AppendInv(p, s, d);
      case Delete(bound) => DeleteInv(p, s, bound);
      case Clear => ClearInv(p, s);
      case Request(r, stored) => RequestRight(p, s, r, stored);
    }
  }

  lemma DeleteInv<S(!new), D(!new)>(p: Algebra<S, D>, s: State<D>, bound: nat)
    requires Inv(p, s)
    ensures Inv(p, Exec(p, s, Delete(bound)))
  {
    hide At, Coherent, Exact;
    var s' := Exec(p, s, Delete(bound));
    forall k: nat | Usable(s'.bound, s.cache, k) ensures Usable(s.bound, s.cache, k) {}
  }

  lemma ClearInv<S(!new), D(!new)>(p: Algebra<S, D>, s: State<D>)
    requires Inv(p, s)
    ensures Inv(p, s.(cache := map[]))
  {
  }

  /** And so is every answer; as long as nothing has been deleted, there is one exactly for the revisions with
      contents. */
  lemma EveryAnswerRight<S(!new), D(!new)>(p: Algebra<S, D>, ops: seq<Op<D>>, r: nat, stored: Option<(nat, D)>)
    requires Lawful(p) && LegalRun(p, ops + [Request(r, stored)])
    ensures var s := Run(p, ops);
      var answer := Reply(p, s, r, stored);
      && r < |s.log|
      && (answer.Some? && answer.value.Ok? ==> IsSnapshot(p, s.log, r, answer.value.value))
      && (s.bound == 0 ==> answer.Some? && (answer.value.Ok? <==> At(p, s.log, r).Some?))
  {
    assert (ops + [Request(r, stored)])[..|ops|] == ops;
    hide Lawful, Inv, Reply, Run;
    RunInv(p, ops);
    RequestRight(p, Run(p, ops), r, stored);
  }

  /** The snapshot of `b` is cached, and none of a later revision up to `r`. */
  ghost predicate LatestCached<D>(cache: Cache<D>, b: nat, r: nat) {
    && b <= r && b in cache && cache[b].Ok?
    && forall k :: b < k <= r && k in cache ==> cache[k].Err?
  }

  /** A request for `r` can be answered from the snapshot of `b`: it is the latest cached one up to `r`, and no change
      after it has been deleted. */
  ghost predicate AnswersFrom<D>(bound: nat, cache: Cache<D>, b: nat, r: nat) {
    LatestCached(cache, b, r) && (b == r || bound <= b + 1)
  }

  /** What a request is answered, whatever has been deleted: a snapshot exactly if the revision has contents and can
      be reached from the latest snapshot that is cached, or has just been found stored; and nothing exactly if
      nothing is cached up to the revision. */
  lemma AnswerExactly<S(!new), D(!new)>(p: Algebra<S, D>, s: State<D>, r: nat, stored: Option<(nat, D)>)
    requires Lawful(p) && Inv(p, s) && Legal(p, s, Request(r, stored))
    ensures var answer, cache := Reply(p, s, r, stored), Seeded(p, s.Stored(), stored, s.cache);
      && (answer.Some? && answer.value.Ok? <==>
            At(p, s.log, r).Some? && exists b: nat :: AnswersFrom(s.bound, cache, b, r))
      && (answer.None? <==> forall k :: k in cache ==> k > r)
  {
    var store := s.Stored();
    var cache := Seeded(p, store, stored, s.cache);
    NeverFails(p, s, stored);
    SeededInv(p, s, stored);
    hide Make, Seeded, Fold, State.Stored, Fails, Lawful, Inv;
    if Nearest(cache, r).Some? {
      var n := Nearest(cache, r).value;
      AnswerFound(p, s, cache, n, r);
      hide Nearest, Answer;
      if cache[n].Ok? {
        if n == r || s.bound <= n + 1 { assert AnswersFrom(s.bound, cache, n, r); }
      } else {
        forall b: nat | At(p, s.log, r).Some? ensures !AnswersFrom(s.bound, cache, b, r) {
          AtLater(p, s.log, n, r);
          assert b < n ==> !Usable(s.bound, cache, b);
        }
      }
    }
  }

  /** In every state of every such run: a request is answered with a right snapshot exactly if the revision has
      contents and can be reached from the latest one that is cached. */
  lemma EveryRequestFinds<S(!new), D(!new)>(p: Algebra<S, D>, ops: seq<Op<D>>, r: nat, stored: Option<(nat, D)>)
    requires Lawful(p) && LegalRun(p, ops + [Request(r, stored)])
    ensures var s := Run(p, ops);
      var answer, cache := Reply(p, s, r, stored), Seeded(p, s.Stored(), stored, s.cache);
      && r < |s.log|
      && (answer.Some? && answer.value.Ok? <==>
            At(p, s.log, r).Some? && exists b: nat :: AnswersFrom(s.bound, cache, b, r))
      && (answer.Some? && answer.value.Ok? ==> IsSnapshot(p, s.log, r, answer.value.value))
      && (answer.None? <==> forall k :: k in cache ==> k > r)
  {
    assert (ops + [Request(r, stored)])[..|ops|] == ops;
    hide Lawful, Inv, Reply, Run, Seeded;
    RunInv(p, ops);
    RequestRight(p, Run(p, ops), r, stored);
    AnswerExactly(p, Run(p, ops), r, stored);
  }

  /** Once changes have been deleted, a cleared cache has nothing to answer with but what is stored: without a stored
      snapshot there is no answer to any request, and with one exactly to those from its revision on. */
  lemma AnswersAfterClear<S(!new), D(!new)>(p: Algebra<S, D>, ops: seq<Op<D>>, bound: nat, r: nat,
      stored: Option<(nat, D)>)
    requires Lawful(p) && bound > 0 && LegalRun(p, ops + [Delete(bound)] + [Clear] + [Request(r, stored)])
    ensures var s := Run(p, ops + [Delete(bound)] + [Clear]);
      Reply(p, s, r, stored).Some? <==> stored.Some? && stored.value.0 <= r
  {
    var before := ops + [Delete(bound)];
    var all := before + [Clear] + [Request(r, stored)];
    assert all[..|all| - 1] == before + [Clear] && (before + [Clear])[..|before|] == before && before[..|ops|] == ops;
    var s := Run(p, before + [Clear]);
    RunInv(p, before + [Clear]);
    assert s.cache == map[] && s.bound > 0 && s.bound >= bound by { assert s == Exec(p, Run(p, before), Clear); }
    hide Lawful, Inv, Run, LegalRun;
    AnswerExactly(p, s, r, stored);
    hide Reply;
    var cache := Seeded(p, s.Stored(), stored, s.cache);
    assert 0 !in s.Stored().changes;
    assert forall k :: k in cache <==> stored.Some? && k == stored.value.0;
  }

  // ----- Answers last -----

  /** Until the cache is cleared, what it holds stays as it is. */
  lemma EntriesStay<S(!new), D(!new)>(p: Algebra<S, D>, s: State<D>, op: Op<D>, r: nat)
    requires Lawful(p) && Inv(p, s) && !op.Clear? && r in s.cache
    ensures r in Exec(p, s, op).cache && Exec(p, s, op).cache[r] == s.cache[r]
  {
    if op.Request? {
      NeverFails(p, s, op.stored);
      if op.revNum == r { assert Nearest(s.cache, r) == Some(r); }
    }
    hide Make, Nearest;
  }

  lemma {:induction false} EntriesStayInRuns<S(!new), D(!new)>(p: Algebra<S, D>, ops: seq<Op<D>>, more: seq<Op<D>>,
      r: nat)
    requires Lawful(p) && LegalRun(p, ops + more) && r in Run(p, ops).cache && forall op <- more :: !op.Clear?
    ensures LegalRun(p, ops)
    ensures r in Run(p, ops + more).cache && Run(p, ops + more).cache[r] == Run(p, ops).cache[r]
  {
    if more == [] {
      assert ops + more == ops;
    } else {
      var front, last := more[..|more| - 1], more[|more| - 1];
      assert (ops + more)[..|ops + more| - 1] == ops + front && last in more;
      EntriesStayInRuns(p, ops, front, r);
      RunInv(p, ops + front);
      hide Lawful, Inv, Legal, Exec;
      EntriesStay(p, Run(p, ops + front), last, r);
    }
  }

  /** The same request gets the same answer again, whatever has been appended or deleted and whichever other requests
      have been answered meanwhile, until the cache is cleared. */
  lemma SameAnswerAgain<S(!new), D(!new)>(p: Algebra<S, D>, ops: seq<Op<D>>, r: nat, stored: Option<(nat, D)>,
      more: seq<Op<D>>, again: Option<(nat, D)>)
    requires Lawful(p) && LegalRun(p, ops + [Request(r, stored)] + more) && forall op <- more :: !op.Clear?
    requires LegalRun(p, ops + [Request(r, stored)]) && Reply(p, Run(p, ops), r, stored).Some?
    ensures Reply(p, Run(p, ops + [Request(r, stored)] + more), r, again) == Reply(p, Run(p, ops), r, stored)
  {
    var first := ops + [Request(r, stored)];
    assert first[..|ops|] == ops;
    RunInv(p, ops);
    NeverFails(p, Run(p, ops), stored);
    hide Lawful, Inv, Legal, Seeded, Fails, Make;
    assert Run(p, first).cache[r] == Reply(p, Run(p, ops), r, stored).value;
    EntriesStayInRuns(p, first, more, r);
    var s := Run(p, first + more);
    hide Answer, Run;
    RunInv(p, first + more);
    CachedReply(p, s, r, again);
  }

  lemma CachedReply<S(!new), D(!new)>(p: Algebra<S, D>, s: State<D>, r: nat, stored: Option<(nat, D)>)
    requires s.log != [] && r in s.cache
    ensures Reply(p, s, r, stored) == Some(s.cache[r])
  {
    assert Nearest(s.cache, r) == Some(r);
  }

  /** The store of a part from which nothing has been deleted. */
  function Complete<D>(log: seq<D>): Store<D>
    requires log != []
  {
    Store(|log| - 1, map k: nat | k < |log| :: log[k])
  }

  /** While the initial retrieval is still going on, after the stored snapshot has been published and before
      snapshot 0 has been made, a request is answered with `null` exactly when it is for a revision before the
      stored one, even if all changes are there. */
  lemma AnswerDuringRetrieval<S(!new), D(!new)>(p: Algebra<S, D>, log: seq<D>, q: nat, d: D, r: nat)
    requires log != [] && IsSnapshot(p, log, q, d) && r < |log|
    ensures Answer(p, Complete(log), Published(Some((q, d))), r).None? <==> r < q
  {
    var cache: Cache<D> := Published(Some((q, d)));
    assert q in cache && forall k :: k in cache ==> k == q;
  }
}
