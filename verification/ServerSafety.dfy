/** What holds of the server in every run. */
module ServerSafety {
  import opened Wrappers
  import opened Part
  import opened ChangeLog
  import opened ServerSteps

  // Its log, the snapshots taken of it, and the corrections that it returns.

  // ----- The invariant -----

  ghost predicate IsAt<S(!new), D(!new)>(p: Part<S, D>, log: seq<D>, r: nat, contents: S) {
    r < |log| && At(p.ops, log, r) == Some(contents)
  }

  /** `expected` is what the client of a request implies as its result. */
  ghost predicate Expects<S(!new), D(!new)>(p: Part<S, D>, log: seq<D>, request: Request<D>, expected: S) {
    && request.base < |log| && At(p.ops, log, request.base).Some?
    && p.ops.apply(At(p.ops, log, request.base).value, request.delta) == Some(expected)
  }

  /** `d` is what the request becomes when it is applied to revision `r`: itself if that is its base, and
      otherwise a rebase over exactly the changes from its base to `r`. */
  ghost predicate Made<S(!new), D(!new)>(p: Part<S, D>, log: seq<D>, request: Request<D>, expected: S, r: nat, d: D,
      asGiven: bool) {
    && request.base <= r < |log|
    && At(p.ops, log, r).Some?
    && if asGiven then request.base == r && d == request.delta
       else request.base < r && p.rebases(request.delta, expected, log[request.base + 1..r + 1],
         At(p.ops, log, r).value, d)
  }

  /** Revision `r` was appended by update `u`, for its request. */
  ghost predicate Appended<S(!new), D(!new)>(p: Part<S, D>, s: Server<S, D>, u: nat, request: Request<D>, expected: S,
      r: nat) {
    && 1 <= r < |s.log| == |s.authors| && s.authors[r] == Some(u)
    && (|| Made(p, s.log, request, expected, r - 1, s.log[r], true)
        || Made(p, s.log, request, expected, r - 1, s.log[r], false))
  }

  /** At revision `r`, nothing is left of a request. */
  ghost predicate Vanished<S(!new), D(!new)>(p: Part<S, D>, log: seq<D>, request: Request<D>, expected: S, r: nat) {
    Made(p, log, request, expected, r, p.ops.nothing, true) || Made(p, log, request, expected, r, p.ops.nothing, false)
  }

  /** The reply of an update leads from the expected result to the revision that it names. */
  ghost predicate Right<S(!new), D(!new)>(p: Part<S, D>, log: seq<D>, expected: S, reply: Change<D>) {
    && reply.revNum < |log| && At(p.ops, log, reply.revNum).Some?
    && p.ops.apply(expected, reply.delta) == At(p.ops, log, reply.revNum)
  }

  ghost predicate UpdateInv<S(!new), D(!new)>(p: Part<S, D>, s: Server<S, D>, u: nat, update: Update<S, D>) {
    var request := update.request;
    match update.phase
    case Start => true
    case Ready(e) => Expects(p, s.log, request, e)
    case Current(e, r, contents) =>
      Expects(p, s.log, request, e) && request.base <= r && IsAt(p, s.log, r, contents)
    case Prepared(e, r, d, asGiven) =>
      d != p.ops.nothing && Expects(p, s.log, request, e) && Made(p, s.log, request, e, r, d, asGiven)
    case Appending(e, r, d, asGiven, target) =>
      && d != p.ops.nothing && Expects(p, s.log, request, e) && Made(p, s.log, request, e, r, d, asGiven)
      && target <= s.file.rev + 1 && (target == s.file.rev + 1 ==> s.file.partRev == r)
    case Correcting(e, r) =>
      Expects(p, s.log, request, e) && Appended(p, s, u, request, e, r)
    case Done(e, reply, appended) =>
      && Expects(p, s.log, request, e)
      && if appended then Appended(p, s, u, request, e, reply.revNum) && Right(p, s.log, e, reply)
         else reply.delta == p.ops.nothing && Vanished(p, s.log, request, e, reply.revNum)
    case Failed(_) => true
  }

  ghost predicate WriterInv<S(!new), D(!new)>(p: Part<S, D>, log: seq<D>, w: Writer<S>) {
    && 0 < w.revNum && w.revNum % CHANGES_PER_STORED_SNAPSHOT == 0
    && (w.Asked? || IsAt(p, log, w.revNum, w.contents))
  }

  /** The changes before this revision have been deleted. A durable part keeps all. */
  function Bound<S(!new), D(!new)>(p: Part<S, D>, s: Server<S, D>): nat {
    if p.ephemeral then DeleteBefore(s.highest) else 0
  }

  /** The stored changes are exactly the log from some revision on, each with the delta first written. */
  ghost predicate ChangesAreLog<D>(changes: map<nat, D>, partRev: nat, log: seq<D>, bound: nat) {
    && |log| == partRev + 1
    && (forall r :: r in changes <==> bound <= r <= partRev)
    && (forall r :: bound <= r <= partRev ==> changes[r] == log[r])
  }

  lemma ChangesMore<D>(changes: map<nat, D>, partRev: nat, log: seq<D>, bound: nat, d: D)
    requires ChangesAreLog(changes, partRev, log, bound) && bound <= partRev
    ensures ChangesAreLog(changes[partRev + 1 := d], partRev + 1, log + [d], bound)
  {
  }

  lemma ChangesLess<D>(changes: map<nat, D>, partRev: nat, log: seq<D>, bound: nat, next: nat)
    requires ChangesAreLog(changes, partRev, log, bound)
    ensures ChangesAreLog(Trim(changes, next), partRev, log, if next > bound then next else bound)
  {
  }

  ghost predicate StoredInv<S(!new), D(!new)>(p: Part<S, D>, log: seq<D>, stored: Option<(nat, S)>, highest: nat) {
    && highest < |log| && highest % CHANGES_PER_STORED_SNAPSHOT == 0
    && (stored.None? <==> highest == 0)
    && (stored.Some? ==>
          var (q, contents) := stored.value;
          0 < q <= highest && q % CHANGES_PER_STORED_SNAPSHOT == 0 && IsAt(p, log, q, contents))
  }

  ghost predicate CacheInv<S(!new), D(!new)>(p: Part<S, D>, log: seq<D>, cache: map<nat, S>) {
    forall r :: r in cache ==> IsAt(p, log, r, cache[r])
  }

  ghost predicate FileInv<S(!new), D(!new)>(p: Part<S, D>, s: Server<S, D>) {
    && |s.log| == |s.authors|
    && ChangesAreLog(s.file.changes, s.file.partRev, s.log, Bound(p, s))
    && StoredInv(p, s.log, s.file.stored, s.highest)
    && CacheInv(p, s.log, s.cache)
  }

  /** How many changes an update has appended. */
  function Count(authors: seq<Option<nat>>, u: nat): nat {
    if authors == [] then 0
    else Count(authors[..|authors| - 1], u) + if authors[|authors| - 1] == Some(u) then 1 else 0
  }

  ghost predicate CountInv<S(!new), D(!new)>(authors: seq<Option<nat>>, updates: map<nat, Update<S, D>>) {
    forall u: nat :: Count(authors, u) == if u in updates && updates[u].phase.HasAppended() then 1 else 0
  }

  ghost predicate UpdatesInv<S(!new), D(!new)>(p: Part<S, D>, s: Server<S, D>) {
    forall u :: u in s.updates ==> UpdateInv(p, s, u, s.updates[u])
  }

  ghost predicate WritersInv<S(!new), D(!new)>(p: Part<S, D>, log: seq<D>, writers: map<nat, Writer<S>>) {
    forall w :: w in writers ==> WriterInv(p, log, writers[w])
  }

  ghost predicate Inv<S(!new), D(!new)>(p: Part<S, D>, s: Server<S, D>) {
    FileInv(p, s) && CountInv(s.authors, s.updates) && UpdatesInv(p, s) && WritersInv(p, s.log, s.writers)
  }

  // ----- Reading the file gives the log -----

  lemma {:induction false} ReadIsLog<S(!new), D(!new)>(p: Part<S, D>, s: Server<S, D>, lo: nat, hi: nat)
    requires FileInv(p, s) && lo <= hi <= |s.log|
    ensures Read(s.file.changes, lo, hi) == if lo == hi || Bound(p, s) <= lo then Some(s.log[lo..hi]) else None
    decreases hi
  {
    hide StoredInv, CacheInv, DeleteBefore;
    if lo == hi {
      assert s.log[lo..hi] == [];
    } else {
      ReadIsLog(p, s, lo, hi - 1);
      assert s.log[lo..hi] == s.log[lo..hi - 1] + [s.log[hi - 1]];
    }
  }

  /** The changes after the nearest cached snapshot, or all of them if there is none, are still there. */
  predicate HasSince<S(!new), D(!new)>(p: Part<S, D>, s: Server<S, D>, r: nat) {
    var base := Nearest(s.cache, r);
    base == Some(r) || Bound(p, s) <= if base.None? then 0 else base.value + 1
  }

  /** A snapshot that can be had is what the log says, and it can be had exactly if the revision has contents, and
      the changes that it takes are there. For a durable part, these always are. */
  lemma SnapshotIsAt<S(!new), D(!new)>(p: Part<S, D>, s: Server<S, D>, r: nat)
    requires FileInv(p, s)
    ensures Snapshot(p, s, r).Some? ==> IsAt(p, s.log, r, Snapshot(p, s, r).value)
    ensures Snapshot(p, s, r).Some? <==> r < |s.log| && HasSince(p, s, r) && At(p.ops, s.log, r).Some?
    ensures !p.ephemeral ==> Snapshot(p, s, r) == if r < |s.log| then At(p.ops, s.log, r) else None
    ensures r < |s.log| && r in s.cache ==> Snapshot(p, s, r) == Some(s.cache[r])
  {
    hide Read, Nearest, ApplyAll, Fold, StoredInv;
    assert |s.log| == s.file.partRev + 1;
    if r < |s.log| {
      var base := Nearest(s.cache, r);
      var lo := if base.None? then 0 else base.value + 1;
      var from := if base.None? then p.ops.empty else s.cache[base.value];
      ReadIsLog(p, s, lo, r + 1);
      assert base.Some? ==> IsAt(p, s.log, base.value, from);
      assert r in s.cache ==> IsAt(p, s.log, r, s.cache[r]);
      hide FileInv, ChangesAreLog, CacheInv;
      FromIsAt(p, s.log, base, from, r);
    }
  }

  /** Applying the changes after a revision to its contents gives the contents of a later one. */
  lemma FromIsAt<S(!new), D(!new)>(p: Part<S, D>, log: seq<D>, base: Option<nat>, from: S, r: nat)
    requires r < |log| && if base.Some? then base.value <= r && IsAt(p, log, base.value, from) else from == p.ops.empty
    ensures var lo := if base.None? then 0 else base.value + 1;
      ApplyAll(p.ops, from, log[lo..r + 1]) == At(p.ops, log, r)
  {
    var lo := if base.None? then 0 else base.value + 1;
    if base.None? {
      assert log[0..r + 1] == log[..r + 1];
    } else {
      ApplyAllConcat(p.ops, p.ops.empty, log[..lo], log[lo..r + 1]);
      assert log[..lo] + log[lo..r + 1] == log[..r + 1];
    }
  }

  // ----- Facts about revisions survive appends -----

  lemma AtGrows<S(!new), D(!new)>(p: Part<S, D>, log: seq<D>, more: seq<D>, r: nat)
    requires r < |log| && log <= more
    ensures At(p.ops, more, r) == At(p.ops, log, r)
  {
    assert more[..r + 1] == log[..r + 1];
  }

  lemma MadeGrows<S(!new), D(!new)>(p: Part<S, D>, log: seq<D>, more: seq<D>, request: Request<D>, e: S, r: nat, d: D,
      asGiven: bool)
    requires Made(p, log, request, e, r, d, asGiven) && log <= more
    ensures Made(p, more, request, e, r, d, asGiven)
  {
    AtGrows(p, log, more, r);
    if !asGiven { assert more[request.base + 1..r + 1] == log[request.base + 1..r + 1]; }
  }

  lemma VanishedGrows<S(!new), D(!new)>(p: Part<S, D>, log: seq<D>, more: seq<D>, request: Request<D>, e: S, r: nat)
    requires Vanished(p, log, request, e, r) && log <= more
    ensures Vanished(p, more, request, e, r)
  {
    if Made(p, log, request, e, r, p.ops.nothing, true) {
      MadeGrows(p, log, more, request, e, r, p.ops.nothing, true);
    } else {
      MadeGrows(p, log, more, request, e, r, p.ops.nothing, false);
    }
  }

  lemma AppendedGrows<S(!new), D(!new)>(p: Part<S, D>, s: Server<S, D>, s': Server<S, D>, u: nat, request: Request<D>,
      e: S, r: nat)
    requires Appended(p, s, u, request, e, r)
    requires s.log <= s'.log && s.authors <= s'.authors && |s'.log| == |s'.authors|
    ensures Appended(p, s', u, request, e, r)
  {
    if Made(p, s.log, request, e, r - 1, s.log[r], true) {
      MadeGrows(p, s.log, s'.log, request, e, r - 1, s.log[r], true);
    } else {
      MadeGrows(p, s.log, s'.log, request, e, r - 1, s.log[r], false);
    }
  }

  lemma UpdateGrows<S(!new), D(!new)>(p: Part<S, D>, s: Server<S, D>, s': Server<S, D>, u: nat, update: Update<S, D>)
    requires UpdateInv(p, s, u, update)
    requires s.log <= s'.log && s.authors <= s'.authors && |s'.log| == |s'.authors|
    requires s.file.rev <= s'.file.rev
    requires s.file.rev == s'.file.rev ==> s.file.partRev == s'.file.partRev
    ensures UpdateInv(p, s', u, update)
  {
    var request := update.request;
    var e := if update.phase.Start? || update.phase.Failed? then p.ops.empty else update.phase.expected;
    if Expects(p, s.log, request, e) {
      AtGrows(p, s.log, s'.log, request.base);
    }
    match update.phase
    case Current(e, r, contents) => AtGrows(p, s.log, s'.log, r);
    case Prepared(e, r, d, asGiven) => MadeGrows(p, s.log, s'.log, request, e, r, d, asGiven);
    case Appending(e, r, d, asGiven, target) => MadeGrows(p, s.log, s'.log, request, e, r, d, asGiven);
    case Correcting(e, r) => AppendedGrows(p, s, s', u, request, e, r);
    case Done(e, reply, appended) =>
      AtGrows(p, s.log, s'.log, reply.revNum);
      if appended { AppendedGrows(p, s, s', u, request, e, reply.revNum); }
      else { VanishedGrows(p, s.log, s'.log, request, e, reply.revNum); }
    case _ =>
  }

  // ----- Every step keeps the invariant -----

  lemma InitInv<S(!new), D(!new)>(p: Part<S, D>, s: Server<S, D>)
    requires Init(p, s)
    ensures Inv(p, s)
  {
    forall u: nat ensures Count(s.authors, u) == 0 {
      assert s.authors[..0] == [];
    }
  }

  lemma UpdateKnown<S(!new), D(!new)>(p: Part<S, D>, s: Server<S, D>, u: nat)
    requires Inv(p, s) && u in s.updates
    ensures UpdateInv(p, s, u, s.updates[u])
    ensures |s.log| == |s.authors| == s.file.partRev + 1 && Bound(p, s) <= s.file.partRev
  {
    hide UpdateInv, Count, IsAt;
  }

  /** What is known of updates stays true as the file and the log grow. */
  lemma UpdatesGrow<S(!new), D(!new)>(p: Part<S, D>, s: Server<S, D>, s': Server<S, D>)
    requires UpdatesInv(p, s)
    requires s.log <= s'.log && s.authors <= s'.authors && |s'.log| == |s'.authors|
    requires s.file.rev <= s'.file.rev
    requires s.file.rev == s'.file.rev ==> s.file.partRev == s'.file.partRev
    ensures forall x :: x in s.updates ==> UpdateInv(p, s', x, s.updates[x])
  {
    hide UpdateInv;
    forall x | x in s.updates ensures UpdateInv(p, s', x, s.updates[x]) {
      UpdateGrows(p, s, s', x, s.updates[x]);
    }
  }

  /** A step of one update that leaves everything else alone. */
  lemma MoveInv<S(!new), D(!new)>(p: Part<S, D>, s: Server<S, D>, s': Server<S, D>, u: nat, phase: Phase<S, D>)
    requires Inv(p, s) && u in s.updates && s' == s.At(u, phase)
    requires UpdateInv(p, s, u, s.updates[u].(phase := phase))
    requires phase.HasAppended() == s.updates[u].phase.HasAppended()
    ensures Inv(p, s')
  {
    hide UpdateInv, ChangesAreLog, StoredInv, CacheInv, WritersInv, CountInv;
    UpdateGrows(p, s, s', u, s'.updates[u]);
    UpdatesGrow(p, s, s');
    CountMoves(s.authors, s.updates, u, phase);
  }

  lemma CountMoves<S(!new), D(!new)>(authors: seq<Option<nat>>, updates: map<nat, Update<S, D>>, u: nat,
      phase: Phase<S, D>)
    requires CountInv(authors, updates) && u in updates
    requires phase.HasAppended() == updates[u].phase.HasAppended()
    ensures CountInv(authors, updates[u := updates[u].(phase := phase)])
  {
    hide Count;
  }

  lemma ReadBaseInv<S(!new), D(!new)>(p: Part<S, D>, s: Server<S, D>, s': Server<S, D>, u: nat)
    requires Inv(p, s) && ReadBaseStep(p, s, s', u)
    ensures Inv(p, s')
  {
    hide Snapshot, FileInv, UpdatesInv, WritersInv, CountInv, At;
    SnapshotIsAt(p, s, s.updates[u].request.base);
    hide Inv;
    MoveInv(p, s, s', u, s'.updates[u].phase);
  }

  lemma ReadCurrentInv<S(!new), D(!new)>(p: Part<S, D>, s: Server<S, D>, s': Server<S, D>, u: nat)
    requires Inv(p, s) && ReadCurrentStep(p, s, s', u)
    ensures Inv(p, s')
  {
    hide Snapshot, FileInv, UpdatesInv, WritersInv, CountInv, At;
    UpdateKnown(p, s, u);
    SnapshotIsAt(p, s, s.file.partRev);
    hide Inv;
    MoveInv(p, s, s', u, s'.updates[u].phase);
  }

  lemma RebaseMade<S(!new), D(!new)>(p: Part<S, D>, s: Server<S, D>, u: nat, d: D)
    requires u in s.updates && s.updates[u].phase.Current? && UpdateInv(p, s, u, s.updates[u])
    requires var Current(expected, r, contents) := s.updates[u].phase;
      var request := s.updates[u].request;
      request.base < r && p.rebases(request.delta, expected, s.log[request.base + 1..r + 1], contents, d)
    ensures var Current(expected, r, contents) := s.updates[u].phase;
      UpdateInv(p, s, u, s.updates[u].(phase := Attempt(p, expected, r, d, false)))
  {
    hide At;
  }

  lemma AsGivenMade<S(!new), D(!new)>(p: Part<S, D>, s: Server<S, D>, u: nat)
    requires u in s.updates && s.updates[u].phase.Current? && UpdateInv(p, s, u, s.updates[u])
    requires s.updates[u].phase.current == s.updates[u].request.base
    ensures var Current(expected, r, contents) := s.updates[u].phase;
      UpdateInv(p, s, u, s.updates[u].(phase := Attempt(p, expected, r, s.updates[u].request.delta, true)))
  {
    hide At;
  }

  /** The changes since the base of an update, if they are still there. */
  lemma SinceIsLog<S(!new), D(!new)>(p: Part<S, D>, s: Server<S, D>, u: nat)
    requires Inv(p, s) && u in s.updates && s.updates[u].phase.Current?
    ensures var r, base := s.updates[u].phase.current, s.updates[u].request.base;
      && base <= r < |s.log|
      && (var since := Read(s.file.changes, base + 1, r + 1); since.Some? ==> since.value == s.log[base + 1..r + 1])
  {
    hide FileInv, UpdatesInv, WritersInv, CountInv, At, Read;
    UpdateKnown(p, s, u);
    ReadIsLog(p, s, s.updates[u].request.base + 1, s.updates[u].phase.current + 1);
  }

  lemma RebaseInv<S(!new), D(!new)>(p: Part<S, D>, s: Server<S, D>, s': Server<S, D>, u: nat)
    requires Inv(p, s) && RebaseStep(p, s, s', u)
    ensures Inv(p, s')
  {
    hide Inv, UpdateInv, Read, Attempt;
    SinceIsLog(p, s, u);
    UpdateKnown(p, s, u);
    var Current(expected, r, contents) := s.updates[u].phase;
    var request := s.updates[u].request;
    if r == request.base {
      AsGivenMade(p, s, u);
      AttemptNotAppended(p, expected, r, request.delta, true);
      MoveInv(p, s, s', u, Attempt(p, expected, r, request.delta, true));
    } else if s' == s.At(u, Failed(false)) {
      FailedInv(p, s, u, false);
      MoveInv(p, s, s', u, Failed(false));
    } else {
      var d :| p.rebases(request.delta, expected, s.log[request.base + 1..r + 1], contents, d) &&
               s' == s.At(u, Attempt(p, expected, r, d, false));
      RebaseMade(p, s, u, d);
      AttemptNotAppended(p, expected, r, d, false);
      MoveInv(p, s, s', u, Attempt(p, expected, r, d, false));
    }
  }

  lemma AttemptNotAppended<S(!new), D(!new)>(p: Part<S, D>, e: S, r: nat, d: D, asGiven: bool)
    ensures !Attempt(p, e, r, d, asGiven).HasAppended()
  {
  }

  lemma FailedInv<S(!new), D(!new)>(p: Part<S, D>, s: Server<S, D>, u: nat, appended: bool)
    requires u in s.updates
    ensures UpdateInv(p, s, u, s.updates[u].(phase := Failed(appended)))
  {
  }

  lemma CheckInv<S(!new), D(!new)>(p: Part<S, D>, s: Server<S, D>, s': Server<S, D>, u: nat)
    requires Inv(p, s) && CheckStep(s, s', u)
    ensures Inv(p, s')
  {
    hide Inv, Made, Expects;
    UpdateKnown(p, s, u);
    MoveInv(p, s, s', u, s'.updates[u].phase);
  }

  lemma CorrectInv<S(!new), D(!new)>(p: Part<S, D>, s: Server<S, D>, s': Server<S, D>, u: nat)
    requires DiffLaw(p) && Inv(p, s) && CorrectStep(p, s, s', u)
    ensures Inv(p, s')
  {
    hide FileInv, UpdatesInv, WritersInv, CountInv, Snapshot, Fold, Made, Expects;
    UpdateKnown(p, s, u);
    SnapshotIsAt(p, s, s.updates[u].phase.revNum);
    hide Inv;
    MoveInv(p, s, s', u, s'.updates[u].phase);
  }

  /** Steps that leave updates and log alone, though the file may get a new revision. */
  lemma AsideInv<S(!new), D(!new)>(p: Part<S, D>, s: Server<S, D>, s': Server<S, D>)
    requires Inv(p, s) && s'.updates == s.updates && s'.log == s.log && s'.authors == s.authors
    requires s'.file.partRev == s.file.partRev && s'.file.rev >= s.file.rev
    requires ChangesAreLog(s'.file.changes, s'.file.partRev, s'.log, Bound(p, s'))
    requires StoredInv(p, s'.log, s'.file.stored, s'.highest) && CacheInv(p, s'.log, s'.cache)
    requires WritersInv(p, s'.log, s'.writers)
    ensures Inv(p, s')
  {
    hide UpdateInv, ChangesAreLog, StoredInv, CacheInv, WritersInv, Count;
    UpdatesGrow(p, s, s');
  }

  lemma CacheStepInv<S(!new), D(!new)>(p: Part<S, D>, s: Server<S, D>, s': Server<S, D>, a: Action<D>)
    requires Inv(p, s) && CacheStep(p, s, s', a)
    ensures Inv(p, s')
  {
    if a.Keep? { SnapshotIsAt(p, s, a.revNum); }
    hide Snapshot, IsAt, UpdateInv, WriterInv, ChangesAreLog, Count;
    assert CacheInv(p, s'.log, s'.cache);
    AsideInv(p, s, s');
  }

  lemma WriterReadInv<S(!new), D(!new)>(p: Part<S, D>, s: Server<S, D>, s': Server<S, D>, w: nat)
    requires Inv(p, s) && WriterReadStep(p, s, s', w)
    ensures Inv(p, s')
  {
    assert WriterInv(p, s.log, s.writers[w]);
    SnapshotIsAt(p, s, s.writers[w].revNum);
    hide Snapshot, IsAt, UpdateInv, StoredInv, CacheInv, ChangesAreLog, Count;
    AsideInv(p, s, s');
  }

  lemma WriterTargetInv<S(!new), D(!new)>(p: Part<S, D>, s: Server<S, D>, s': Server<S, D>, w: nat)
    requires Inv(p, s) && Step(p, s, s', WriterTarget(w))
    ensures Inv(p, s')
  {
    assert WriterInv(p, s.log, s.writers[w]);
    hide IsAt, UpdateInv, StoredInv, CacheInv, ChangesAreLog, Count;
    AsideInv(p, s, s');
  }

  lemma WriterCommitInv<S(!new), D(!new)>(p: Part<S, D>, s: Server<S, D>, s': Server<S, D>, w: nat)
    requires Inv(p, s) && WriterCommitStep(p, s, s', w)
    ensures Inv(p, s')
  {
    var r := s.writers[w].revNum;
    assert WriterInv(p, s.log, s.writers[w]);
    ChangesLess(s.file.changes, s.file.partRev, s.log, Bound(p, s), DeleteBefore(r));
    hide IsAt, UpdateInv, CacheInv, ChangesAreLog, Count;
    AsideInv(p, s, s');
  }

  lemma CountMore(authors: seq<Option<nat>>, u: nat, x: nat)
    ensures Count(authors + [Some(u)], x) == Count(authors, x) + if x == u then 1 else 0
  {
    assert (authors + [Some(u)])[..|authors|] == authors;
  }

  /** A change appended as given yields exactly what the client expects. */
  lemma GivenRight<S(!new), D(!new)>(p: Part<S, D>, log: seq<D>, request: Request<D>, e: S, r: nat, d: D)
    requires EmptyLaw(p.ops) && |log| == r + 1
    requires Expects(p, log, request, e) && Made(p, log, request, e, r, d, true)
    ensures Right(p, log + [d], e, Change(r + 1, p.ops.nothing))
  {
    assert log[..r + 1] == log && (log + [d])[..r + 2] == log + [d];
    FoldMore(p.ops, log, d);
    assert p.ops.apply(e, p.ops.nothing) == Some(e);
  }

  /** The state after an update has appended its change. */
  ghost predicate Committed<S(!new), D(!new)>(p: Part<S, D>, s: Server<S, D>, s': Server<S, D>, u: nat) {
    && u in s.updates && s.updates[u].phase.Appending? && s.updates[u].phase.target == s.file.rev + 1
    && var Appending(e, r, d, asGiven, target) := s.updates[u].phase;
    && s'.log == s.log + [d] && s'.authors == s.authors + [Some(u)]
    && s'.highest == s.highest && s'.cache == s.cache && s'.file.stored == s.file.stored
    && s'.file.rev == target && s'.file.partRev == r + 1 && s'.file.changes == s.file.changes[r + 1 := d]
    && s'.updates == s.updates[u := s.updates[u].(phase :=
         if asGiven then Done(e, Change(r + 1, p.ops.nothing), true) else Correcting(e, r + 1))]
    && (forall w :: w in s'.writers ==>
          || (w in s.writers && s'.writers[w] == s.writers[w])
          || (s'.writers[w] == Asked(r + 1) && (r + 1) % CHANGES_PER_STORED_SNAPSHOT == 0))
  }

  lemma CommitMeans<S(!new), D(!new)>(p: Part<S, D>, s: Server<S, D>, s': Server<S, D>, u: nat, w: nat)
    requires CommitStep(p, s, s', u, w) && s.updates[u].phase.target == s.file.rev + 1
    ensures Committed(p, s, s', u)
  {
  }

  /** What is known of an update once its change is in the log. */
  lemma CommitMade<S(!new), D(!new)>(p: Part<S, D>, s': Server<S, D>, u: nat, request: Request<D>, log: seq<D>, e: S,
      r: nat, d: D, asGiven: bool)
    requires Expects(p, log, request, e) && Made(p, log, request, e, r, d, asGiven) && |log| == r + 1
    requires s'.log == log + [d] && |s'.authors| == |s'.log| && s'.authors[r + 1] == Some(u)
    ensures Expects(p, s'.log, request, e) && Appended(p, s', u, request, e, r + 1)
  {
    hide Fold;
    MadeGrows(p, log, s'.log, request, e, r, d, asGiven);
    AtGrows(p, log, s'.log, request.base);
    hide Made, At;
    assert s'.log[r + 1] == d;
  }

  lemma CommitUpdate<S(!new), D(!new)>(p: Part<S, D>, s: Server<S, D>, s': Server<S, D>, u: nat)
    requires EmptyLaw(p.ops) && Inv(p, s) && Committed(p, s, s', u)
    ensures UpdateInv(p, s', u, s'.updates[u])
  {
    hide Inv, Expects, Made, Appended, Right, EmptyLaw;
    var Appending(e, r, d, asGiven, target) := s.updates[u].phase;
    var request := s.updates[u].request;
    UpdateKnown(p, s, u);
    CommitMade(p, s', u, request, s.log, e, r, d, asGiven);
    if asGiven { GivenRight(p, s.log, request, e, r, d); }
    assert s'.updates[u] ==
      Update(request, if asGiven then Done(e, Change(r + 1, p.ops.nothing), true) else Correcting(e, r + 1));
    hide UpdateInv, Committed;
    CommittedKnown(p, s', u, request, e, r + 1, asGiven);
  }

  lemma CommittedKnown<S(!new), D(!new)>(p: Part<S, D>, s: Server<S, D>, u: nat, request: Request<D>, e: S, r: nat,
      asGiven: bool)
    requires Expects(p, s.log, request, e) && Appended(p, s, u, request, e, r)
    requires asGiven ==> Right(p, s.log, e, Change(r, p.ops.nothing))
    ensures var phase := if asGiven then Done(e, Change(r, p.ops.nothing), true) else Correcting(e, r);
      UpdateInv(p, s, u, Update(request, phase))
  {
    hide Expects, Appended, Right;
  }

  lemma CommitFile<S(!new), D(!new)>(p: Part<S, D>, s: Server<S, D>, s': Server<S, D>, u: nat)
    requires Inv(p, s) && Committed(p, s, s', u)
    ensures s'.log == s.log + [s.updates[u].phase.toAppend] && |s'.log| == |s'.authors| && s.file.rev < s'.file.rev
    ensures s'.authors == s.authors + [Some(u)]
    ensures FileInv(p, s')
  {
    var d := s.updates[u].phase.toAppend;
    hide Made, Expects, UpdatesInv, CountInv, ChangesAreLog, WritersInv, StoredInv, CacheInv;
    UpdateKnown(p, s, u);
    ChangesMore(s.file.changes, s.file.partRev, s.log, Bound(p, s), d);
    StoredGrows(p, s.log, d, s.file.stored, s.highest);
    CacheGrows(p, s.log, d, s.cache);
  }

  lemma StoredGrows<S(!new), D(!new)>(p: Part<S, D>, log: seq<D>, d: D, stored: Option<(nat, S)>, highest: nat)
    requires StoredInv(p, log, stored, highest)
    ensures StoredInv(p, log + [d], stored, highest)
  {
    hide At;
    if stored.Some? { AtGrows(p, log, log + [d], stored.value.0); }
  }

  lemma CacheGrows<S(!new), D(!new)>(p: Part<S, D>, log: seq<D>, d: D, cache: map<nat, S>)
    requires CacheInv(p, log, cache)
    ensures CacheInv(p, log + [d], cache)
  {
    hide At;
    forall r | r in cache ensures IsAt(p, log + [d], r, cache[r]) {
      AtGrows(p, log, log + [d], r);
    }
  }

  lemma WritersGrow<S(!new), D(!new)>(p: Part<S, D>, log: seq<D>, d: D, writers: map<nat, Writer<S>>)
    requires WritersInv(p, log, writers)
    ensures WritersInv(p, log + [d], writers)
  {
    hide At;
    forall w | w in writers ensures WriterInv(p, log + [d], writers[w]) {
      assert WriterInv(p, log, writers[w]);
      if !writers[w].Asked? { AtGrows(p, log, log + [d], writers[w].revNum); }
    }
  }

  lemma CommitOthers<S(!new), D(!new)>(p: Part<S, D>, s: Server<S, D>, s': Server<S, D>, u: nat)
    requires Inv(p, s) && Committed(p, s, s', u)
    ensures CountInv(s'.authors, s'.updates)
    ensures forall x :: x in s'.updates && x != u ==> UpdateInv(p, s', x, s'.updates[x])
    ensures WritersInv(p, s'.log, s'.writers)
  {
    CommitFile(p, s, s', u);
    hide UpdateInv, FileInv, Count, IsAt;
    UpdatesGrow(p, s, s');
    WritersGrow(p, s.log, s.updates[u].phase.toAppend, s.writers);
    forall x: nat
      ensures Count(s'.authors, x) == if x in s'.updates && s'.updates[x].phase.HasAppended() then 1 else 0
    {
      CountMore(s.authors, u, x);
    }
  }

  lemma CommitInv<S(!new), D(!new)>(p: Part<S, D>, s: Server<S, D>, s': Server<S, D>, u: nat, w: nat)
    requires EmptyLaw(p.ops) && Inv(p, s) && CommitStep(p, s, s', u, w)
    ensures Inv(p, s')
  {
    var phase := s.updates[u].phase;
    if phase.target == s.file.rev + 1 {
      CommitMeans(p, s, s', u, w);
      hide CommitStep, UpdateInv, FileInv, WritersInv, CountInv;
      CommitFile(p, s, s', u);
      CommitOthers(p, s, s', u);
      CommitUpdate(p, s, s', u);
    } else {
      LostInv(p, s, s', u, w);
    }
  }

  /** After a lost race, the update starts over. */
  lemma LostInv<S(!new), D(!new)>(p: Part<S, D>, s: Server<S, D>, s': Server<S, D>, u: nat, w: nat)
    requires Inv(p, s) && CommitStep(p, s, s', u, w) && s.updates[u].phase.target != s.file.rev + 1
    ensures Inv(p, s')
  {
    hide Inv, UpdateInv;
    var mid, r := s.At(u, Ready(s.updates[u].phase.expected)), s.updates[u].phase.current + 1;
    assert s' == mid.(writers := if r % CHANGES_PER_STORED_SNAPSHOT == 0 then s.writers[w := Asked(r)] else s.writers);
    hide CommitStep;
    LostReady(p, s, u);
    MoveInv(p, s, mid, u, Ready(s.updates[u].phase.expected));
    MoreWriters(p, mid, s', w, r);
  }

  lemma LostReady<S(!new), D(!new)>(p: Part<S, D>, s: Server<S, D>, u: nat)
    requires Inv(p, s) && u in s.updates && s.updates[u].phase.Appending?
    ensures UpdateInv(p, s, u, s.updates[u].(phase := Ready(s.updates[u].phase.expected)))
  {
    hide Inv, Expects, Made;
    UpdateKnown(p, s, u);
  }

  /** The snapshot of a revision may be asked for even if the revision has not come about. */
  lemma MoreWriters<S(!new), D(!new)>(p: Part<S, D>, s: Server<S, D>, s': Server<S, D>, w: nat, r: nat)
    requires Inv(p, s) && r > 0
    requires s' == s.(writers := if r % CHANGES_PER_STORED_SNAPSHOT == 0 then s.writers[w := Asked(r)] else s.writers)
    ensures Inv(p, s')
  {
    hide UpdateInv, ChangesAreLog, StoredInv, CacheInv, IsAt, Count;
    AsideInv(p, s, s');
  }

  lemma BeginInv<S(!new), D(!new)>(p: Part<S, D>, s: Server<S, D>, s': Server<S, D>, u: nat, request: Request<D>)
    requires Inv(p, s) && Step(p, s, s', Begin(u, request))
    ensures Inv(p, s')
  {
    assert UpdateInv(p, s', u, s'.updates[u]);
    hide UpdateInv, ChangesAreLog, StoredInv, CacheInv, WritersInv, Count;
    UpdatesGrow(p, s, s');
  }

  lemma OtherPartInv<S(!new), D(!new)>(p: Part<S, D>, s: Server<S, D>, s': Server<S, D>)
    requires Inv(p, s) && Step(p, s, s', OtherPart)
    ensures Inv(p, s')
  {
    hide UpdateInv, ChangesAreLog, StoredInv, CacheInv, WritersInv, Count;
    AsideInv(p, s, s');
  }

  lemma WriterGiveUpInv<S(!new), D(!new)>(p: Part<S, D>, s: Server<S, D>, s': Server<S, D>, w: nat)
    requires Inv(p, s) && Step(p, s, s', WriterGiveUp(w))
    ensures Inv(p, s')
  {
    hide UpdateInv, ChangesAreLog, StoredInv, CacheInv, WriterInv, Count;
    AsideInv(p, s, s');
  }

  lemma GiveUpInv<S(!new), D(!new)>(p: Part<S, D>, s: Server<S, D>, s': Server<S, D>, u: nat)
    requires Inv(p, s) && Step(p, s, s', GiveUp(u))
    ensures Inv(p, s')
  {
    FailedInv(p, s, u, s.updates[u].phase.HasAppended());
    hide Inv, UpdateInv;
    MoveInv(p, s, s', u, s'.updates[u].phase);
  }

  /** Every step keeps the invariant. */
  lemma StepInv<S(!new), D(!new)>(p: Part<S, D>, s: Server<S, D>, s': Server<S, D>, a: Action<D>)
    requires EmptyLaw(p.ops) && DiffLaw(p) && Inv(p, s) && Step(p, s, s', a)
    ensures Inv(p, s')
  {
    hide Inv, EmptyLaw, DiffLaw, ReadBaseStep, ReadCurrentStep, RebaseStep, CheckStep, CommitStep, CorrectStep,
      WriterReadStep, WriterCommitStep, CacheStep;
    match a
    case Begin(u, request) => BeginInv(p, s, s', u, request);
    case ReadBase(u) => ReadBaseInv(p, s, s', u);
    case ReadCurrent(u) => ReadCurrentInv(p, s, s', u);
    case Rebase(u) => RebaseInv(p, s, s', u);
    case Check(u) => CheckInv(p, s, s', u);
    case Commit(u, w) => CommitInv(p, s, s', u, w);
    case Correct(u) => CorrectInv(p, s, s', u);
    case GiveUp(u) => GiveUpInv(p, s, s', u);
    case OtherPart => OtherPartInv(p, s, s');
    case WriterRead(w) => WriterReadInv(p, s, s', w);
    case WriterTarget(w) => WriterTargetInv(p, s, s', w);
    case WriterCommit(w) => WriterCommitInv(p, s, s', w);
    case WriterGiveUp(w) => WriterGiveUpInv(p, s, s', w);
    case _ => CacheStepInv(p, s, s', a);
  }

  /** An update only ever moves on. */
  ghost predicate Moves<S, D>(s: Server<S, D>, s': Server<S, D>, u: nat) {
    u in s.updates && u in s'.updates && s'.updates == s.updates[u := s.updates[u].(phase := s'.updates[u].phase)]
  }

  lemma ReadMoves<S(!new), D(!new)>(p: Part<S, D>, s: Server<S, D>, s': Server<S, D>, u: nat)
    requires
      || ReadBaseStep(p, s, s', u) || ReadCurrentStep(p, s, s', u)
      || CorrectStep(p, s, s', u) || CheckStep(s, s', u)
    ensures Moves(s, s', u)
  {
    hide Snapshot;
  }

  lemma RebaseMoves<S(!new), D(!new)>(p: Part<S, D>, s: Server<S, D>, s': Server<S, D>, u: nat)
    requires RebaseStep(p, s, s', u)
    ensures Moves(s, s', u)
  {
    hide Read, Attempt;
  }

  lemma CommitMoves<S(!new), D(!new)>(p: Part<S, D>, s: Server<S, D>, s': Server<S, D>, u: nat, w: nat)
    requires CommitStep(p, s, s', u, w)
    ensures Moves(s, s', u)
  {
  }

  /** Requests are never changed. */
  lemma RequestsKept<S(!new), D(!new)>(p: Part<S, D>, s: Server<S, D>, s': Server<S, D>, a: Action<D>)
    requires Step(p, s, s', a)
    ensures forall u :: u in s.updates ==> u in s'.updates && s'.updates[u].request == s.updates[u].request
  {
    hide ReadBaseStep, ReadCurrentStep, RebaseStep, CheckStep, CommitStep, CorrectStep, Snapshot;
    match a
    case ReadBase(u) => ReadMoves(p, s, s', u);
    case ReadCurrent(u) => ReadMoves(p, s, s', u);
    case Rebase(u) => RebaseMoves(p, s, s', u);
    case Check(u) => ReadMoves(p, s, s', u);
    case Commit(u, w) => CommitMoves(p, s, s', u, w);
    case Correct(u) => ReadMoves(p, s, s', u);
    case _ =>
  }

  // ----- Whole runs -----

  /** In every state of every run: the file holds exactly the log, from some revision on if the part is ephemeral;
      snapshots that are stored, cached or held by updates are what the log says; each update has appended at most
      one change. */
  lemma {:induction false} RunInv<S(!new), D(!new)>(p: Part<S, D>, trace: seq<Server<S, D>>, i: nat)
    requires EmptyLaw(p.ops) && DiffLaw(p) && Run(p, trace) && i < |trace|
    ensures Inv(p, trace[i])
  {
    if i == 0 {
      InitInv(p, trace[0]);
    } else {
      hide Init, Step, Inv, EmptyLaw, DiffLaw;
      RunInv(p, trace, i - 1);
      assert NextIn(p, trace, i - 1);
      var a :| Step(p, trace[i - 1], trace[i], a);
      StepInv(p, trace[i - 1], trace[i], a);
    }
  }

  /** The part's log, revision number and changes are as before. */
  ghost predicate SameData<S(!new), D(!new)>(s: Server<S, D>, s': Server<S, D>) {
    && s'.log == s.log && s'.authors == s.authors
    && s'.file.partRev == s.file.partRev && s'.file.changes == s.file.changes
  }

  /** Old changes have been deleted. */
  ghost predicate Trimmed<S(!new), D(!new)>(s: Server<S, D>, s': Server<S, D>, bound: nat) {
    && s'.log == s.log && s'.authors == s.authors
    && s'.file.partRev == s.file.partRev && s'.file.changes == Trim(s.file.changes, bound)
  }

  /** One change has been appended: the one that update `u` was about to append, which it now has. */
  ghost predicate AppendedOne<S(!new), D(!new)>(s: Server<S, D>, s': Server<S, D>, u: nat) {
    && u in s.updates && s.updates[u].phase.Appending? && s.updates[u].phase.target == s.file.rev + 1
    && u in s'.updates && s'.updates[u].phase.HasAppended()
    && s'.log == s.log + [s.updates[u].phase.toAppend] && s'.authors == s.authors + [Some(u)]
    && s'.file.partRev == s.file.partRev + 1
    && s'.file.partRev !in s.file.changes
    && s'.file.changes == s.file.changes[s'.file.partRev := s.updates[u].phase.toAppend]
  }

  lemma ChangesBounded<S(!new), D(!new)>(p: Part<S, D>, s: Server<S, D>)
    requires Inv(p, s)
    ensures s.file.partRev + 1 !in s.file.changes
  {
    hide UpdatesInv, WritersInv, CountInv, StoredInv, CacheInv;
  }

  lemma CommitAppends<S(!new), D(!new)>(p: Part<S, D>, s: Server<S, D>, s': Server<S, D>, u: nat, w: nat)
    requires Inv(p, s) && CommitStep(p, s, s', u, w)
    ensures if s.updates[u].phase.target == s.file.rev + 1 then AppendedOne(s, s', u) else SameData(s, s')
  {
    hide FileInv, UpdatesInv, WritersInv, CountInv, Made, Expects;
    UpdateKnown(p, s, u);
    ChangesBounded(p, s);
    if s.updates[u].phase.target == s.file.rev + 1 {
      assert s.updates[u].phase.current == s.file.partRev;
    }
  }

  /** What one step can do to the part's data: nothing at all, or append one change, which is then the work of
      an update that was about to append and now has; or, for an ephemeral part only, delete old changes. An update
      that lost its race has changed nothing. */
  lemma StepAppends<S(!new), D(!new)>(p: Part<S, D>, s: Server<S, D>, s': Server<S, D>, a: Action<D>)
    requires Inv(p, s) && Step(p, s, s', a)
    ensures
      || SameData(s, s') || (exists u :: AppendedOne(s, s', u))
      || (p.ephemeral && exists bound :: Trimmed(s, s', bound))
  {
    hide Inv;
    match a
    case Commit(u, w) => CommitAppends(p, s, s', u, w);
    case WriterCommit(w) =>
      if s.writers[w].target == s.file.rev + 1 && p.ephemeral {
        assert Trimmed(s, s', DeleteBefore(s.writers[w].revNum));
      }
    case _ => OthersKeep(p, s, s', a);
  }

  lemma OthersKeep<S(!new), D(!new)>(p: Part<S, D>, s: Server<S, D>, s': Server<S, D>, a: Action<D>)
    requires Step(p, s, s', a) && !a.Commit? && !a.WriterCommit?
    ensures SameData(s, s')
  {
    hide Snapshot, Attempt, Read;
  }

  lemma StepGrows<S(!new), D(!new)>(p: Part<S, D>, s: Server<S, D>, s': Server<S, D>, a: Action<D>)
    requires Inv(p, s) && Step(p, s, s', a)
    ensures s.log <= s'.log
  {
    hide Step, Inv;
    StepAppends(p, s, s', a);
  }

  lemma NextGrows<S(!new), D(!new)>(p: Part<S, D>, trace: seq<Server<S, D>>, i: nat)
    requires EmptyLaw(p.ops) && DiffLaw(p) && Run(p, trace) && i + 1 < |trace|
    ensures trace[i].log <= trace[i + 1].log
  {
    hide Step, Inv;
    RunInv(p, trace, i);
    assert NextIn(p, trace, i);
    var a :| Step(p, trace[i], trace[i + 1], a);
    StepGrows(p, trace[i], trace[i + 1], a);
  }

  lemma {:induction false} LogGrows<S(!new), D(!new)>(p: Part<S, D>, trace: seq<Server<S, D>>, i: nat, j: nat)
    requires EmptyLaw(p.ops) && DiffLaw(p) && Run(p, trace) && i <= j < |trace|
    ensures trace[i].log <= trace[j].log
    decreases j
  {
    hide Run, EmptyLaw, DiffLaw;
    if i < j {
      LogGrows(p, trace, i, j - 1);
      NextGrows(p, trace, j - 1);
    }
  }

  /** History is never rewritten: a change that is still stored is as before. A durable part still has them all. */
  lemma LogOnlyGrows<S(!new), D(!new)>(p: Part<S, D>, trace: seq<Server<S, D>>, i: nat, j: nat)
    requires EmptyLaw(p.ops) && DiffLaw(p) && Run(p, trace) && i <= j < |trace|
    ensures trace[i].log <= trace[j].log
    ensures forall r :: r in trace[i].file.changes && r in trace[j].file.changes ==>
      trace[j].file.changes[r] == trace[i].file.changes[r]
    ensures forall r :: r in trace[i].file.changes && r !in trace[j].file.changes ==>
      p.ephemeral && r < Bound(p, trace[j])
  {
    LogGrows(p, trace, i, j);
    RunInv(p, trace, i);
    RunInv(p, trace, j);
    hide Run, StoredInv, CacheInv, CountInv, UpdatesInv, WritersInv;
  }

  /** An update that has returned after appending has appended exactly one change: its own change rebased over
      exactly what came between its base and that moment. Its reply leads from what its client expects to the
      revision that it made. */
  lemma CorrectionIsRight<S(!new), D(!new)>(p: Part<S, D>, trace: seq<Server<S, D>>, i: nat, u: nat)
    requires EmptyLaw(p.ops) && DiffLaw(p) && Run(p, trace) && i < |trace| && u in trace[i].updates
    requires trace[i].updates[u].phase.Done? && trace[i].updates[u].phase.appended
    ensures var s, Done(expected, reply, _) := trace[i], trace[i].updates[u].phase;
      && Expects(p, s.log, s.updates[u].request, expected)
      && Appended(p, s, u, s.updates[u].request, expected, reply.revNum)
      && Right(p, s.log, expected, reply)
      && Count(s.authors, u) == 1
  {
    RunInv(p, trace, i);
    assert UpdateInv(p, trace[i], u, trace[i].updates[u]);
  }

  /** An update that has returned without appending replies with no correction, as nothing was left of its
      change at the revision of the reply. That is right exactly when its client already expects the contents
      there. */
  lemma EmptyReplyIsRight<S(!new), D(!new)>(p: Part<S, D>, trace: seq<Server<S, D>>, i: nat, u: nat)
    requires EmptyLaw(p.ops) && DiffLaw(p) && Run(p, trace) && i < |trace| && u in trace[i].updates
    requires trace[i].updates[u].phase.Done? && !trace[i].updates[u].phase.appended
    ensures var s, Done(expected, reply, _) := trace[i], trace[i].updates[u].phase;
      && Count(s.authors, u) == 0
      && Expects(p, s.log, s.updates[u].request, expected)
      && Vanished(p, s.log, s.updates[u].request, expected, reply.revNum)
      && (Right(p, s.log, expected, reply) <==> At(p.ops, s.log, reply.revNum) == Some(expected))
  {
    RunInv(p, trace, i);
    var s := trace[i];
    assert UpdateInv(p, s, u, s.updates[u]);
    var e := s.updates[u].phase.expected;
    assert p.ops.apply(e, p.ops.nothing) == Some(e);
  }

  /** Where rebasing merges, it is right exactly when the changes since the client's base, applied to what the
      client expects, leave it as it is. */
  lemma EmptyReplyUnmoved<S(!new), D(!new)>(p: Part<S, D>, trace: seq<Server<S, D>>, i: nat, u: nat)
    requires EmptyLaw(p.ops) && DiffLaw(p) && MergeLaw(p) && Run(p, trace) && i < |trace| && u in trace[i].updates
    requires trace[i].updates[u].phase.Done? && !trace[i].updates[u].phase.appended
    ensures var s, Done(expected, reply, _) := trace[i], trace[i].updates[u].phase;
      var base := s.updates[u].request.base;
      && base <= reply.revNum < |s.log|
      && (Right(p, s.log, expected, reply) <==>
            ApplyAll(p.ops, expected, s.log[base + 1..reply.revNum + 1]) == Some(expected))
  {
    var s := trace[i];
    var Done(e, reply, _) := s.updates[u].phase;
    var request := s.updates[u].request;
    EmptyReplyIsRight(p, trace, i, u);
    VanishedMeans(p, s.log, request, e, reply.revNum);
    hide MergeLaw, Run, Inv;
    var current, since := At(p.ops, s.log, reply.revNum).value, s.log[request.base + 1..reply.revNum + 1];
    assert p.ops.apply(current, p.ops.nothing) == Some(current);
    if request.base < reply.revNum {
      UseMerge(p, At(p.ops, s.log, request.base).value, request.delta, e, since, current, p.ops.nothing);
    } else {
      assert p.ops.apply(current, request.delta) == Some(current);
    }
  }

  /** What is known of a request of which nothing was left. */
  lemma VanishedMeans<S(!new), D(!new)>(p: Part<S, D>, log: seq<D>, request: Request<D>, e: S, r: nat)
    requires Expects(p, log, request, e) && Vanished(p, log, request, e, r)
    ensures request.base <= r < |log| && At(p.ops, log, r).Some?
    ensures var base, since, current := At(p.ops, log, request.base).value, log[request.base + 1..r + 1],
      At(p.ops, log, r).value;
      && p.ops.apply(base, request.delta) == Some(e)
      && ApplyAll(p.ops, base, since) == Some(current)
      && if request.base == r then since == [] && request.delta == p.ops.nothing
         else p.rebases(request.delta, e, since, current, p.ops.nothing)
  {
    AtLater(p.ops, log, request.base, r);
  }

  /** What is known of a rebased change in the log. */
  lemma RebasedAt<S(!new), D(!new)>(p: Part<S, D>, log: seq<D>, request: Request<D>, e: S, r: nat)
    requires 1 <= r < |log| && At(p.ops, log, r).Some?
    requires Expects(p, log, request, e) && Made(p, log, request, e, r - 1, log[r], false)
    ensures var base, since, current := At(p.ops, log, request.base).value, log[request.base + 1..r],
      At(p.ops, log, r - 1).value;
      && p.ops.apply(base, request.delta) == Some(e)
      && ApplyAll(p.ops, base, since) == Some(current)
      && p.rebases(request.delta, e, since, current, log[r])
      && p.ops.apply(current, log[r]) == At(p.ops, log, r)
  {
    AtLater(p.ops, log, request.base, r - 1);
    FoldMore(p.ops, log[..r], log[r]);
    assert log[..r + 1] == log[..r] + [log[r]];
  }

  // ----- Logs with contents -----

  /** A change that is about to be appended leaves the log with contents exactly when it is valid for the
      current ones. A change as given always is. */
  lemma AppendHealthy<S(!new), D(!new)>(p: Part<S, D>, s: Server<S, D>, u: nat)
    requires Inv(p, s) && u in s.updates && s.updates[u].phase.Appending?
    requires s.updates[u].phase.target == s.file.rev + 1
    ensures var Appending(e, r, d, asGiven, _) := s.updates[u].phase;
      && r == s.file.partRev && At(p.ops, s.log, r).Some?
      && (Fold(p.ops, s.log + [d]).Some? <==> p.ops.apply(At(p.ops, s.log, r).value, d).Some?)
      && (asGiven ==> Fold(p.ops, s.log + [d]) == Some(e))
  {
    var Appending(e, r, d, asGiven, _) := s.updates[u].phase;
    assert UpdateInv(p, s, u, s.updates[u]);
    assert s.log[..r + 1] == s.log;
    FoldMore(p.ops, s.log, d);
  }

  lemma UseMerge<S(!new), D(!new)>(p: Part<S, D>, base: S, change: D, expected: S, since: seq<D>, current: S, d: D)
    requires MergeLaw(p) && p.ops.apply(base, change) == Some(expected)
    requires ApplyAll(p.ops, base, since) == Some(current) && p.rebases(change, expected, since, current, d)
    ensures p.ops.apply(current, d).Some? && p.ops.apply(current, d) == ApplyAll(p.ops, expected, since)
  {
  }

  lemma RebasedValid<S(!new), D(!new)>(p: Part<S, D>, log: seq<D>, request: Request<D>, e: S, r: nat, d: D)
    requires MergeLaw(p) && Expects(p, log, request, e) && Made(p, log, request, e, r, d, false)
    ensures p.ops.apply(At(p.ops, log, r).value, d).Some?
  {
    AtLater(p.ops, log, request.base, r);
    UseMerge(p, At(p.ops, log, request.base).value, request.delta, e, log[request.base + 1..r + 1],
             At(p.ops, log, r).value, d);
  }

  lemma RebasedHealthy<S(!new), D(!new)>(p: Part<S, D>, s: Server<S, D>, u: nat)
    requires MergeLaw(p) && Inv(p, s)
    requires u in s.updates && s.updates[u].phase.Appending? && s.updates[u].phase.target == s.file.rev + 1
    ensures Fold(p.ops, s.log + [s.updates[u].phase.toAppend]).Some?
  {
    hide MergeLaw, Fold, At;
    AppendHealthy(p, s, u);
    assert UpdateInv(p, s, u, s.updates[u]);
    var Appending(e, r, d, asGiven, _) := s.updates[u].phase;
    if !asGiven { RebasedValid(p, s.log, s.updates[u].request, e, r, d); }
  }

  /** Where rebasing merges, as it does for properties and carets, every revision of every run has contents. */
  lemma StepHealthy<S(!new), D(!new)>(p: Part<S, D>, s: Server<S, D>, s': Server<S, D>, a: Action<D>)
    requires MergeLaw(p) && Inv(p, s) && Step(p, s, s', a) && Fold(p.ops, s.log).Some?
    ensures Fold(p.ops, s'.log).Some?
  {
    hide Fold, MergeLaw, Step, Inv;
    StepAppends(p, s, s', a);
    if s'.log != s.log {
      var u :| AppendedOne(s, s', u);
      RebasedHealthy(p, s, u);
    }
  }

  lemma {:induction false} RunHealthy<S(!new), D(!new)>(p: Part<S, D>, trace: seq<Server<S, D>>, i: nat)
    requires EmptyLaw(p.ops) && DiffLaw(p) && MergeLaw(p) && Run(p, trace) && i < |trace|
    ensures Fold(p.ops, trace[i].log).Some?
  {
    if i == 0 {
      FoldMore(p.ops, [], p.ops.nothing);
      assert [] + [p.ops.nothing] == [p.ops.nothing];
      assert p.ops.apply(p.ops.empty, p.ops.nothing) == Some(p.ops.empty);
    } else {
      RunHealthy(p, trace, i - 1);
      RunInv(p, trace, i - 1);
      assert NextIn(p, trace, i - 1);
      var a :| Step(p, trace[i - 1], trace[i], a);
      hide Step, Fold, MergeLaw, Inv;
      StepHealthy(p, trace[i - 1], trace[i], a);
    }
  }
}
