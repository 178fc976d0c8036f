/** The server's handling of one document part, durable or ephemeral, as interleaved steps: concurrent updates,
    appends by other parts of the same file, writes of stored snapshots, and caching of snapshots. Between any two
    steps others may run. Each step reads one state of the file and of the cache, even where the code awaits several
    reads in a row: as changes are only added at the end and deleted from the start, and cached snapshots are right,
    whatever such reads find one after the other could have been found at once when the first of them was made. */
module ServerSteps {
  import opened Wrappers
  import opened Part
  import opened ChangeLog

  // ----- The file -----

  /** The part's share of a file, which is one atomic state with its own revision number. */
  datatype File<S, D> = File(rev: nat, partRev: nat, changes: map<nat, D>, stored: Option<(nat, S)>)

  // ----- Updates -----

  datatype Request<D> = Request(base: nat, delta: D)

  /** How far an update has come. `expected` is the result that its client implies. */
  datatype Phase<S, D> =
    | Start
    | Ready(expected: S)
    | Current(expected: S, current: nat, contents: S)
    | Prepared(expected: S, current: nat, toAppend: D, asGiven: bool)
    | Appending(expected: S, current: nat, toAppend: D, asGiven: bool, target: nat)
    | Correcting(expected: S, revNum: nat)
    | Done(expected: S, reply: Change<D>, appended: bool)
    | Failed(appended: bool)
  {
    predicate HasAppended() {
      Correcting? || ((Done? || Failed?) && appended)
    }
  }

  datatype Update<S, D> = Update(request: Request<D>, phase: Phase<S, D>)

  /** A pending write of a stored snapshot. */
  datatype Writer<S> =
    | Asked(revNum: nat)
    | Holding(revNum: nat, contents: S)
    | Writing(revNum: nat, contents: S, target: nat)

  /** The whole server. `log` and `authors` record which changes were appended, and by which update, and `highest`
      the latest revision whose snapshot was ever stored; no step depends on them. */
  datatype Server<S, D> = Server(
    file: File<S, D>,
    cache: map<nat, S>,
    log: seq<D>,
    authors: seq<Option<nat>>,
    highest: nat,
    updates: map<nat, Update<S, D>>,
    writers: map<nat, Writer<S>>)
  {
    function At(u: nat, phase: Phase<S, D>): Server<S, D>
      requires u in updates
    {
      this.(updates := updates[u := updates[u].(phase := phase)])
    }
  }

  datatype Action<D> =
    | Begin(u: nat, request: Request<D>)
    | ReadBase(u: nat)
    | ReadCurrent(u: nat)
    | Rebase(u: nat)
    | Check(u: nat)
    | Commit(u: nat, w: nat)
    | Correct(u: nat)
    | GiveUp(u: nat)
    | OtherPart
    | Publish
    | Keep(revNum: nat)
    | Clear
    | WriterRead(w: nat)
    | WriterTarget(w: nat)
    | WriterCommit(w: nat)
    | WriterGiveUp(w: nat)

  /** `getSnapshot(revNum)`: it starts from the nearest cached snapshot, and otherwise from the beginning. It fails
      for revisions that do not exist, when a change that it needs is gone, and when changes do not compose. */
  function Snapshot<S(!new), D(!new)>(p: Part<S, D>, s: Server<S, D>, revNum: nat): Option<S> {
    if revNum > s.file.partRev then None
    else
      var base := Nearest(s.cache, revNum);
      var since := Read(s.file.changes, if base.None? then 0 else base.value + 1, revNum + 1);
      if since.None? then None
      else ApplyAll(p.ops, if base.None? then p.ops.empty else s.cache[base.value], since.value)
  }

  /** The file as `_impl_initOps` leaves it: change 0 is empty. */
  ghost predicate Init<S(!new), D(!new)>(p: Part<S, D>, s: Server<S, D>) {
    && s.file.partRev == 0 && s.file.changes == map[0 := p.ops.nothing] && s.file.stored == None
    && s.cache == map[] && s.highest == 0
    && s.log == [p.ops.nothing] && s.authors == [None]
    && s.updates == map[] && s.writers == map[]
  }

  /** The base snapshot and, from it, the expected one. */
  ghost predicate ReadBaseStep<S(!new), D(!new)>(p: Part<S, D>, s: Server<S, D>, s': Server<S, D>, u: nat) {
    && u in s.updates && s.updates[u].phase.Start?
    && var request := s.updates[u].request;
       var base := Snapshot(p, s, request.base);
       var expected := if base.None? then None else p.ops.apply(base.value, request.delta);
       s' == s.At(u, if expected.None? then Failed(false) else Ready(expected.value))
  }

  /** `_attemptUpdate()` first takes the current snapshot. */
  ghost predicate ReadCurrentStep<S(!new), D(!new)>(p: Part<S, D>, s: Server<S, D>, s': Server<S, D>, u: nat) {
    && u in s.updates && s.updates[u].phase.Ready?
    && var current := Snapshot(p, s, s.file.partRev);
       s' == s.At(u, if current.None? then Failed(false)
                     else Current(s.updates[u].phase.expected, s.file.partRev, current.value))
  }

  /** Then it rebases, unless the base is still current; nothing is appended when the result is empty. */
  ghost predicate RebaseStep<S(!new), D(!new)>(p: Part<S, D>, s: Server<S, D>, s': Server<S, D>, u: nat) {
    && u in s.updates && s.updates[u].phase.Current?
    && var Current(expected, r, contents) := s.updates[u].phase;
       var request := s.updates[u].request;
       var since := Read(s.file.changes, request.base + 1, r + 1);
       if r == request.base then s' == s.At(u, Attempt(p, expected, r, request.delta, true))
       else if since.None? then s' == s.At(u, Failed(false))
       else if forall d :: !p.rebases(request.delta, expected, since.value, contents, d) then
         s' == s.At(u, Failed(false))
       else exists d :: p.rebases(request.delta, expected, since.value, contents, d) &&
                        s' == s.At(u, Attempt(p, expected, r, d, false))
  }

  ghost function Attempt<S(!new), D(!new)>(p: Part<S, D>, expected: S, r: nat, d: D, asGiven: bool): Phase<S, D> {
    if d == p.ops.nothing then Done(expected, Change(r, d), false) else Prepared(expected, r, d, asGiven)
  }

  /** `appendChange()` looks at one state of the file; a race that is already lost is noticed here. */
  ghost predicate CheckStep<S, D>(s: Server<S, D>, s': Server<S, D>, u: nat) {
    && u in s.updates && s.updates[u].phase.Prepared?
    && var Prepared(expected, r, d, asGiven) := s.updates[u].phase;
       s' == s.At(u, if s.file.partRev == r && r + 1 !in s.file.changes
                     then Appending(expected, r, d, asGiven, s.file.rev + 1) else Ready(expected))
  }

  /** The file accepts a change for its next revision only. */
  ghost predicate CommitStep<S(!new), D(!new)>(p: Part<S, D>, s: Server<S, D>, s': Server<S, D>, u: nat, w: nat) {
    && u in s.updates && s.updates[u].phase.Appending? && w !in s.writers
    && var Appending(expected, r, d, asGiven, target) := s.updates[u].phase;
       var writers := if (r + 1) % CHANGES_PER_STORED_SNAPSHOT == 0 then s.writers[w := Asked(r + 1)] else s.writers;
       if target == s.file.rev + 1 then
         s' == s.At(u, if asGiven then Done(expected, Change(r + 1, p.ops.nothing), true)
                       else Correcting(expected, r + 1))
                .(file := s.file.(rev := target, partRev := r + 1, changes := s.file.changes[r + 1 := d]),
                  log := s.log + [d], authors := s.authors + [Some(u)], writers := writers)
       else s' == s.At(u, Ready(expected)).(writers := writers)
  }

  /** The correction is the difference from the expected snapshot to that of the appended revision. */
  ghost predicate CorrectStep<S(!new), D(!new)>(p: Part<S, D>, s: Server<S, D>, s': Server<S, D>, u: nat) {
    && u in s.updates && s.updates[u].phase.Correcting?
    && var Correcting(expected, r) := s.updates[u].phase;
       var result := Snapshot(p, s, r);
       if result.None? then s' == s.At(u, Failed(true))
       else exists d :: p.diffs(expected, result.value, d) && s' == s.At(u, Done(expected, Change(r, d), true))
  }

  ghost predicate WriterReadStep<S(!new), D(!new)>(p: Part<S, D>, s: Server<S, D>, s': Server<S, D>, w: nat) {
    && w in s.writers && s.writers[w].Asked?
    && var r := s.writers[w].revNum;
       var result := Snapshot(p, s, r);
       s' == s.(writers := if result.None? then s.writers - {w} else s.writers[w := Holding(r, result.value)])
  }

  /** The snapshot is stored, unless the file has changed meanwhile. An ephemeral part then loses old changes. */
  ghost predicate WriterCommitStep<S(!new), D(!new)>(p: Part<S, D>, s: Server<S, D>, s': Server<S, D>, w: nat) {
    && w in s.writers && s.writers[w].Writing?
    && var Writing(r, contents, target) := s.writers[w];
       if target == s.file.rev + 1 then
         s' == s.(writers := s.writers - {w},
                  highest := if r > s.highest then r else s.highest,
                  file := s.file.(rev := target, stored := Some((r, contents)),
                                  changes := if p.ephemeral then Trim(s.file.changes, DeleteBefore(r))
                                             else s.file.changes))
       else s' == s.(writers := s.writers - {w})
  }

  /** What can happen to the cache: the stored snapshot is published, as at the first request; a snapshot is made
      and kept; all are dropped. */
  ghost predicate CacheStep<S(!new), D(!new)>(p: Part<S, D>, s: Server<S, D>, s': Server<S, D>, a: Action<D>) {
    match a
    case Publish => s.file.stored.Some? && s' == s.(cache := s.cache[s.file.stored.value.0 := s.file.stored.value.1])
    case Keep(r) => Snapshot(p, s, r).Some? && s' == s.(cache := s.cache[r := Snapshot(p, s, r).value])
    case Clear => s' == s.(cache := map[])
    case _ => false
  }

  ghost predicate Step<S(!new), D(!new)>(p: Part<S, D>, s: Server<S, D>, s': Server<S, D>, a: Action<D>) {
    match a
    case Begin(u, request) => u !in s.updates && s' == s.(updates := s.updates[u := Update(request, Start)])
    case ReadBase(u) => ReadBaseStep(p, s, s', u)
    case ReadCurrent(u) => ReadCurrentStep(p, s, s', u)
    case Rebase(u) => RebaseStep(p, s, s', u)
    case Check(u) => CheckStep(s, s', u)
    case Commit(u, w) => CommitStep(p, s, s', u, w)
    case Correct(u) => CorrectStep(p, s, s', u)
    case GiveUp(u) =>
      u in s.updates && !s.updates[u].phase.Done? && !s.updates[u].phase.Failed? &&
      s' == s.At(u, Failed(s.updates[u].phase.HasAppended()))
    case OtherPart => s' == s.(file := s.file.(rev := s.file.rev + 1))
    case WriterRead(w) => WriterReadStep(p, s, s', w)
    case WriterTarget(w) =>
      w in s.writers && s.writers[w].Holding? &&
      s' == s.(writers := s.writers[w := Writing(s.writers[w].revNum, s.writers[w].contents, s.file.rev + 1)])
    case WriterCommit(w) => WriterCommitStep(p, s, s', w)
    case WriterGiveUp(w) => w in s.writers && s' == s.(writers := s.writers - {w})
    case _ => CacheStep(p, s, s', a)
  }

  ghost predicate Next<S(!new), D(!new)>(p: Part<S, D>, s: Server<S, D>, s': Server<S, D>) {
    exists a :: Step(p, s, s', a)
  }

  ghost predicate NextIn<S(!new), D(!new)>(p: Part<S, D>, trace: seq<Server<S, D>>, i: nat)
    requires i + 1 < |trace|
  {
    Next(p, trace[i], trace[i + 1])
  }

  /** A run of the server. */
  ghost predicate Run<S(!new), D(!new)>(p: Part<S, D>, trace: seq<Server<S, D>>) {
    && trace != [] && Init(p, trace[0])
    && forall i: nat :: i + 1 < |trace| ==> NextIn(p, trace, i)
  }
}
