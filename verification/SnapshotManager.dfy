/** The cache of snapshots of one document part. */
module SnapshotManager {
  import opened Wrappers
  import opened Part
  import opened ChangeLog

  /** Snapshots are documents. What is cached is the promise of one, so an entry may also be a failure. */
  type Entry<D> = Result<D, Error>

  type Cache<D> = map<nat, Entry<D>>

  // ----- What the operations do to the cache -----

  /** The cache when the initial retrieval has finished: the stored snapshot, if there is one, and snapshot 0,
      if change 0 is there. */
  function Seed<S(!new), D(!new)>(p: Algebra<S, D>, s: Store<D>, stored: Option<(nat, D)>): Cache<D> {
    var published: Cache<D> := Published(stored);
    if 0 in published || 0 !in s.changes || Make(p, s, p.nothing, 0, 0).Err? then published
    else published[0 := Make(p, s, p.nothing, 0, 0)]
  }

  /** The initial retrieval fails when change 0 is there but makes no document. */
  predicate SeedFails<S(!new), D(!new)>(p: Algebra<S, D>, s: Store<D>, stored: Option<(nat, D)>) {
    0 !in Published(stored) && 0 in s.changes && Make(p, s, p.nothing, 0, 0).Err?
  }

  /** The cache when the stored snapshot has been published, and snapshot 0 not yet. */
  function Published<D>(stored: Option<(nat, D)>): Cache<D> {
    if stored.Some? then map[stored.value.0 := Ok(stored.value.1)] else map[]
  }

  /** The snapshot that composing the changes from `next` to `revNum` onto a base makes. */
  function Make<S(!new), D(!new)>(p: Algebra<S, D>, s: Store<D>, base: D, next: nat, revNum: nat): Entry<D> {
    match Composed(p, s, base, next, revNum + 1, true)
    case Some(d) => Ok(d)
    case None => Err(BadComposition)
  }

  /** The answer to a request, given what is cached. A failed base is a failure of the result. */
  function Answer<S(!new), D(!new)>(p: Algebra<S, D>, s: Store<D>, cache: Cache<D>, revNum: nat): Option<Entry<D>> {
    match Nearest(cache, revNum)
    case None => None
    case Some(b) => Some(if b == revNum || cache[b].Err? then cache[b] else Make(p, s, cache[b].value, b + 1, revNum))
  }

  /** The cache after a request: the answer is cached. */
  function After<S(!new), D(!new)>(p: Algebra<S, D>, s: Store<D>, cache: Cache<D>, revNum: nat): Cache<D> {
    match Answer(p, s, cache, revNum)
    case None => cache
    case Some(e) => cache[revNum := e]
  }

  function Seeded<S(!new), D(!new)>(p: Algebra<S, D>, s: Store<D>, stored: Option<(nat, D)>,
      cache: Cache<D>): Cache<D> {
    if cache == map[] then Seed(p, s, stored) else cache
  }

  /** A failed retrieval is never tried again, and fails every request that finds nothing cached. */
  predicate Fails<S(!new), D(!new)>(p: Algebra<S, D>, s: Store<D>, stored: Option<(nat, D)>, cache: Cache<D>,
      rejected: bool) {
    cache == map[] && (rejected || SeedFails(p, s, stored))
  }

  class SnapshotManager<S(!new), D(!new)> {
    const p: Algebra<S, D>
    var snapshots: Cache<D>
    /** Whether the initial retrieval has failed. */
    var rejected: bool

    constructor (p: Algebra<S, D>)
      ensures this.p == p && snapshots == map[] && !rejected
    {
      this.p := p;
      snapshots := map[];
      rejected := false;
    }

    method Clear()
      modifies this`snapshots
      ensures snapshots == map[]
    {
      snapshots := map[];
    }

    method PublishStored(stored: Option<(nat, D)>)
      modifies this`snapshots
      ensures snapshots == old(snapshots) + Published(stored)
    {
      if stored.Some? {
        snapshots := snapshots[stored.value.0 := Ok(stored.value.1)];
      }
    }

    /** `_makeSnapshot0()`: a missing change 0 is not an error, but a bad one is. */
    method MakeSnapshot0(s: Store<D>) returns (ok: bool)
      modifies this`snapshots
      ensures var e := Make(p, s, p.nothing, 0, 0);
        if 0 in old(snapshots) || 0 !in s.changes then ok && snapshots == old(snapshots)
        else ok == e.Ok? && snapshots == if e.Ok? then old(snapshots)[0 := e] else old(snapshots)
    {
      if 0 in snapshots {
        return true;
      }
      var change := GetChange(s, 0);
      if change.Err? {
        return true;
      }
      var contents := GetComposedChanges(p, s, p.nothing, 0, 1, true);
      if contents.Err? {
        return false;
      }
      snapshots := snapshots[0 := contents];
      ok := true;
    }

    /** The search backward for a base. */
    method FindBase(revNum: nat) returns (r: Option<nat>)
      ensures r == Nearest(snapshots, revNum)
    {
      var i: int := revNum;
      while i >= 0
        invariant -1 <= i <= revNum
        invariant Nearest(snapshots, revNum) == if i >= 0 then Nearest(snapshots, i) else None
      {
        if i in snapshots {
          return Some(i);
        }
        i := i - 1;
      }
      r := None;
    }

    /** The initial retrieval, when nothing else happens during it. */
    method Retrieve(s: Store<D>, stored: Option<(nat, D)>)
      requires snapshots == map[] && !rejected
      modifies this
      ensures snapshots == Seed(p, s, stored) && rejected == SeedFails(p, s, stored)
    {
      hide Make;
      PublishStored(stored);
      assert snapshots == Published(stored);
      var ok := MakeSnapshot0(s);
      rejected := !ok;
    }

    /** `_makeSnapshot()`, from a base that may be a failure. */
    method MakeSnapshot(s: Store<D>, baseRevNum: nat, base: Entry<D>, revNum: nat) returns (r: Entry<D>)
      requires baseRevNum < revNum
      ensures r == if base.Err? then base else Make(p, s, base.value, baseRevNum + 1, revNum)
    {
      if base.Err? {
        return base;
      }
      var contents := GetComposedChanges(p, s, base.value, baseRevNum + 1, revNum + 1, true);
      r := if contents.Ok? then contents else Err(BadComposition);
    }

    /** `getSnapshot()`, when nothing else happens during its initial retrieval. */
    method GetSnapshot(s: Store<D>, stored: Option<(nat, D)>, revNum: nat) returns (r: Option<Entry<D>>)
      modifies this
      ensures rejected == (old(rejected) || (old(snapshots) == map[] && SeedFails(p, s, stored)))
      ensures Fails(p, s, stored, old(snapshots), old(rejected)) ==>
        r == Some(Err(BadComposition)) && snapshots == if old(rejected) then map[] else Seed(p, s, stored)
      ensures !Fails(p, s, stored, old(snapshots), old(rejected)) ==>
        var cache := Seeded(p, s, stored, old(snapshots));
        r == Answer(p, s, cache, revNum) && snapshots == After(p, s, cache, revNum)
    {
      hide Seed, SeedFails, Make, Nearest;
      if snapshots == map[] {
        if !rejected {
          Retrieve(s, stored);
        }
        if rejected {
          return Some(Err(BadComposition));
        }
      }
      var base := FindBase(revNum);
      if base.None? {
        return None;
      }
      var entry := snapshots[base.value];
      if base.value == revNum {
        assert snapshots == snapshots[revNum := entry];
        return Some(entry);
      }
      entry := MakeSnapshot(s, base.value, entry, revNum);
      snapshots := snapshots[revNum := entry];
      r := Some(entry);
    }
  }
}
