/** A run of the server of the carets in which a stored snapshot is written too late: after 3000 changes, and after the
    snapshot of revision 3000 has been stored and old changes have been deleted, the snapshot of revision 1000, which
    was taken before, takes its place. */
module ServerLateWrite {
  import opened Wrappers
  import opened Part
  import opened ChangeLog
  import opened Validation
  import opened ServerSteps
  import opened ServerSafety
  import opened ServerRuns
  import CaretDelta
  import CaretPart
  import CaretSnapshot

  /** As long as no snapshot has been stored, everything can be read. */
  lemma AllReadable<S(!new), D(!new)>(p: Part<S, D>, s: Server<S, D>, r: nat)
    requires Inv(p, s) && s.highest == 0 && r < |s.log| && At(p.ops, s.log, r).Some?
    ensures CanRead(p, s, r)
  {
    hide Snapshot, Fold, CountInv, UpdatesInv, WritersInv, StoredInv, CacheInv, ChangesAreLog;
    SnapshotIsAt(p, s, r);
  }

  /** The snapshot of every so many revisions has been asked for. */
  ghost predicate AllAsked<S, D>(s: Server<S, D>) {
    forall k: nat :: 0 < k <= s.file.partRev && k % CHANGES_PER_STORED_SNAPSHOT == 0 ==> HasAsked(s.writers, k)
  }

  ghost predicate HasAsked<S>(writers: map<nat, Writer<S>>, k: nat) {
    exists w :: w in writers && writers[w] == Asked(k)
  }

  /** The server after `n` changes, with no snapshot stored yet. */
  ghost predicate Filled<S(!new), D(!new)>(p: Part<S, D>, s: Server<S, D>, n: nat) {
    && Reachable(p, s) && s.file.partRev == n && |s.log| == n + 1 && s.highest == 0
    && Fold(p.ops, s.log).Some? && AllAsked(s) && forall u :: u in s.updates ==> u < n
  }

  lemma FillOne<S(!new), D(!new)>(p: Part<S, D>, s: Server<S, D>, n: nat, d: D) returns (s': Server<S, D>)
    requires EmptyLaw(p.ops) && DiffLaw(p) && Filled(p, s, n)
    requires d != p.ops.nothing && forall x :: p.ops.apply(x, d).Some?
    ensures Filled(p, s', n + 1)
  {
    hide Reachable, EmptyLaw, DiffLaw, Inv, Fold, CanRead;
    ReachableInv(p, s);
    LogEnds(p, s);
    AllReadable(p, s, n);
    s' := AppendUnopposed(p, s, n, d);
    FoldMore(p.ops, s.log, d);
    forall k: nat | 0 < k <= n + 1 && k % CHANGES_PER_STORED_SNAPSHOT == 0 ensures HasAsked(s'.writers, k) {
      if k <= n {
        assert HasAsked(s.writers, k);
        var w :| w in s.writers && s.writers[w] == Asked(k);
        assert w in s'.writers && s'.writers[w] == Asked(k);
      }
    }
  }

  lemma LogEnds<S(!new), D(!new)>(p: Part<S, D>, s: Server<S, D>)
    requires |s.log| == s.file.partRev + 1
    ensures At(p.ops, s.log, s.file.partRev) == Fold(p.ops, s.log)
  {
    assert s.log[..s.file.partRev + 1] == s.log;
  }

  lemma {:induction false} Fill<S(!new), D(!new)>(p: Part<S, D>, d: D, n: nat) returns (s: Server<S, D>)
    requires EmptyLaw(p.ops) && DiffLaw(p)
    requires d != p.ops.nothing && forall x :: p.ops.apply(x, d).Some?
    ensures Filled(p, s, n)
  {
    if n == 0 {
      s := Server(File(0, 0, map[0 := p.ops.nothing], None), map[], [p.ops.nothing], [None], 0, map[], map[]);
      ReachableInit(p, s);
      FoldMore(p.ops, [], p.ops.nothing);
      assert [] + [p.ops.nothing] == [p.ops.nothing];
      assert p.ops.apply(p.ops.empty, p.ops.nothing) == Some(p.ops.empty);
    } else {
      hide Filled, EmptyLaw, DiffLaw;
      var before := Fill(p, d, n - 1);
      s := FillOne(p, before, n - 1, d);
    }
  }

  /** A pending write gets hold of its snapshot. */
  lemma Hold<S(!new), D(!new)>(p: Part<S, D>, s: Server<S, D>, w: nat, r: nat) returns (s': Server<S, D>, c: S)
    requires Reachable(p, s) && w in s.writers && s.writers[w] == Asked(r) && CanRead(p, s, r)
    ensures Reachable(p, s') && s' == s.(writers := s.writers[w := Holding(r, c)])
  {
    hide Reachable, Snapshot;
    c := Snapshot(p, s, r).value;
    s' := s.(writers := s.writers[w := Holding(r, c)]);
    ReachableStep(p, s, s', WriterRead(w));
  }

  /** And it takes effect. */
  lemma StoreHeld<S(!new), D(!new)>(p: Part<S, D>, s: Server<S, D>, w: nat, r: nat, c: S) returns (s': Server<S, D>)
    requires Reachable(p, s) && w in s.writers && s.writers[w] == Holding(r, c) && p.ephemeral
    ensures Reachable(p, s') && s'.writers == s.writers - {w} && s'.file.stored == Some((r, c))
    ensures s'.file.changes == Trim(s.file.changes, DeleteBefore(r)) && s'.file.partRev == s.file.partRev
  {
    hide Reachable, Trim, DeleteBefore;
    var mid := s.(writers := s.writers[w := Writing(r, c, s.file.rev + 1)]);
    ReachableStep(p, s, mid, WriterTarget(w));
    s' := mid.(writers := mid.writers - {w}, highest := if r > s.highest then r else s.highest,
               file := mid.file.(rev := s.file.rev + 1, stored := Some((r, c)),
                 changes := Trim(s.file.changes, DeleteBefore(r))));
    ReachableStep(p, mid, s', WriterCommit(w));
  }

  /** After 3000 changes, the snapshot of revision 3000 is stored and changes before revision 2000 are deleted. Then the
      snapshot of revision 1000, taken before, is stored in its place. The check does not accept what is left. */
  lemma LateWrite<S(!new), D(!new)>(p: Part<S, D>, d: D) returns (s: Server<S, D>)
    requires EmptyLaw(p.ops) && DiffLaw(p) && p.ephemeral
    requires d != p.ops.nothing && forall x :: p.ops.apply(x, d).Some?
    ensures Reachable(p, s) && s.file.stored.Some? && s.file.stored.value.0 == 1000
    ensures !Acceptable(Store(s.file.partRev, s.file.changes), Some(1000), true)
  {
    var s0 := Fill(p, d, 3000);
    assert Reachable(p, s0) && HasAsked(s0.writers, 1000) && HasAsked(s0.writers, 3000) && s0.file.partRev == 3000;
    BothReadable(p, s0);
    hide Reachable, EmptyLaw, DiffLaw, Filled, CanRead, Acceptable;
    var early :| early in s0.writers && s0.writers[early] == Asked(1000);
    var late :| late in s0.writers && s0.writers[late] == Asked(3000);
    var s1, c := Hold(p, s0, early, 1000);
    SameReads(p, s0, s1, 3000);
    var s2, c' := Hold(p, s1, late, 3000);
    var s3 := StoreHeld(p, s2, late, 3000, c');
    s := StoreHeld(p, s3, early, 1000, c);
    NotAccepted(s0.file.changes, s.file.changes);
  }

  lemma BothReadable<S(!new), D(!new)>(p: Part<S, D>, s: Server<S, D>)
    requires EmptyLaw(p.ops) && DiffLaw(p) && Filled(p, s, 3000)
    ensures CanRead(p, s, 1000) && CanRead(p, s, 3000)
  {
    hide Reachable, EmptyLaw, DiffLaw, Inv, Fold, CanRead;
    ReachableInv(p, s);
    LogEnds(p, s);
    FoldSplit(p.ops, s.log, 1001);
    AllReadable(p, s, 1000);
    AllReadable(p, s, 3000);
  }

  lemma NotAccepted<D>(before: map<nat, D>, changes: map<nat, D>)
    requires changes == Trim(Trim(before, DeleteBefore(3000)), DeleteBefore(1000))
    ensures !Acceptable(Store(3000, changes), Some(1000), true)
  {
    assert 1001 !in changes;
  }

  /** This happens to the carets. */
  lemma CaretLateWrite() returns (s: Server<CaretDelta.Carets, CaretDelta.Delta>)
    ensures Reachable(CaretPart.ThePart(), s) && s.file.stored.Some? && s.file.stored.value.0 == 1000
    ensures !Acceptable(Store(s.file.partRev, s.file.changes), Some(1000), true)
  {
    var fields: CaretDelta.Fields :| true;
    var op := CaretDelta.Add(CaretDelta.Caret("c", fields));
    CaretPart.PartLawful();
    forall x: CaretDelta.Carets ensures CaretPart.ThePart().ops.apply(x, [op]).Some? {
      CaretSnapshot.OneOp(x, op);
    }
    hide Reachable, Acceptable, EmptyLaw, DiffLaw;
    s := LateWrite(CaretPart.ThePart(), [op]);
  }
}
