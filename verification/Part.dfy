/** What the server and its clients rely on in a document part. */
module Part {
  import opened Wrappers

  datatype Algebra<!S(!new), !D(!new)> = Algebra(
    /** The contents of the part before any change. */
    empty: S,
    /** The delta without operations. */
    nothing: D,
    /** The contents after a delta, if the delta is valid for these contents. */
    apply: (S, D) -> Option<S>,
    /** `compose(other, wantDocument)`, without the check of its result. */
    compose: (D, D, bool) -> D,
    isDocument: D -> bool,
    /** The contents that a document delta stands for. */
    contents: D -> S)

  datatype Part<!S(!new), !D(!new)> = Part(
    ops: Algebra<S, D>,
    /** `diffs(s, t, d)`: `d` is a difference from a snapshot of `s` to a snapshot of `t`. */
    diffs: (S, S, D) -> bool,
    /** `rebases(change, expected, since, current, d)`: rebasing `change` gives `d`. */
    rebases: (D, S, seq<D>, S, D) -> bool,
    /** Whether old changes of the part are deleted. */
    ephemeral: bool)

  ghost predicate EmptyLaw<S(!new), D(!new)>(p: Algebra<S, D>) {
    && p.isDocument(p.nothing) && p.contents(p.nothing) == p.empty
    && forall s :: p.apply(s, p.nothing) == Some(s)
  }

  /** Composed changes do what the two changes do one after the other. */
  ghost predicate ComposeLaw<S(!new), D(!new)>(p: Algebra<S, D>) {
    forall s, a, b {:trigger p.compose(a, b, false), p.apply(s, a)} ::
      p.apply(s, a).Some? && p.apply(p.apply(s, a).value, b).Some? ==>
      p.apply(s, p.compose(a, b, false)) == p.apply(p.apply(s, a).value, b)
  }

  /** Composing onto a document succeeds exactly when the change is valid for its contents. */
  ghost predicate DocumentLaw<S(!new), D(!new)>(p: Algebra<S, D>) {
    forall d, e {:trigger p.compose(d, e, true)} :: p.isDocument(d) ==>
      var r := p.compose(d, e, true);
      && (p.isDocument(r) <==> p.apply(p.contents(d), e).Some?)
      && (p.isDocument(r) ==> p.apply(p.contents(d), e) == Some(p.contents(r)))
  }

  ghost predicate Lawful<S(!new), D(!new)>(p: Algebra<S, D>) {
    EmptyLaw(p) && ComposeLaw(p) && DocumentLaw(p)
  }

  /** Every difference of two snapshots takes the one to the other. */
  ghost predicate DiffLaw<S(!new), D(!new)>(p: Part<S, D>) {
    forall s, t, d :: p.diffs(s, t, d) ==> p.ops.apply(s, d) == Some(t)
  }

  ghost predicate HasDiff<S(!new), D(!new)>(p: Part<S, D>, s: S, t: S) {
    exists d :: p.diffs(s, t, d)
  }

  /** Every two snapshots have a difference. */
  ghost predicate DiffsExist<S(!new), D(!new)>(p: Part<S, D>) {
    forall s, t :: HasDiff(p, s, t)
  }

  ghost predicate HasRebase<S(!new), D(!new)>(p: Part<S, D>, change: D, expected: S, since: seq<D>, current: S) {
    exists d :: p.rebases(change, expected, since, current, d)
  }

  /** A rebased change takes the current contents to those that the other changes make of the expected ones. */
  ghost predicate MergeLaw<S(!new), D(!new)>(p: Part<S, D>) {
    forall base, change, expected, since, current, d
      {:trigger p.ops.apply(base, change), p.rebases(change, expected, since, current, d)} ::
      && p.ops.apply(base, change) == Some(expected)
      && ApplyAll(p.ops, base, since) == Some(current)
      && p.rebases(change, expected, since, current, d) ==>
        p.ops.apply(current, d).Some? && p.ops.apply(current, d) == ApplyAll(p.ops, expected, since)
  }

  /** Applies deltas in order, as long as they are valid. */
  function ApplyAll<S(!new), D(!new)>(p: Algebra<S, D>, s: S, deltas: seq<D>): Option<S> {
    if deltas == [] then Some(s)
    else
      var before := ApplyAll(p, s, deltas[..|deltas| - 1]);
      if before.None? then None else p.apply(before.value, deltas[|deltas| - 1])
  }

  /** The contents at the end of a log of changes: the meaning of a revision. */
  function Fold<S(!new), D(!new)>(p: Algebra<S, D>, log: seq<D>): Option<S> {
    ApplyAll(p, p.empty, log)
  }

  /** The contents at a revision. */
  function At<S(!new), D(!new)>(p: Algebra<S, D>, log: seq<D>, r: nat): Option<S>
    requires r < |log|
  {
    Fold(p, log[..r + 1])
  }

  /** Between two revisions, the changes in between lead from the one to the other. */
  lemma AtLater<S(!new), D(!new)>(p: Algebra<S, D>, log: seq<D>, q: nat, r: nat)
    requires q <= r < |log| && At(p, log, r).Some?
    ensures At(p, log, q).Some? && ApplyAll(p, At(p, log, q).value, log[q + 1..r + 1]) == At(p, log, r)
  {
    FoldSplit(p, log[..r + 1], q + 1);
    assert log[..r + 1][..q + 1] == log[..q + 1] && log[..r + 1][q + 1..] == log[q + 1..r + 1];
  }

  lemma {:induction false} ApplyAllConcat<S(!new), D(!new)>(p: Algebra<S, D>, s: S, a: seq<D>, b: seq<D>)
    ensures ApplyAll(p, s, a + b) ==
      if ApplyAll(p, s, a).None? then None else ApplyAll(p, ApplyAll(p, s, a).value, b)
  {
    if b == [] {
      assert a + b == a;
    } else {
      ApplyAllConcat(p, s, a, b[..|b| - 1]);
      assert (a + b)[..|a + b| - 1] == a + b[..|b| - 1];
    }
  }

  /** If the end of a log has contents, so does each of its revisions, and the rest of the log leads from there
      to the end. */
  lemma FoldSplit<S(!new), D(!new)>(p: Algebra<S, D>, log: seq<D>, n: nat)
    requires n <= |log| && Fold(p, log).Some?
    ensures Fold(p, log[..n]).Some?
    ensures ApplyAll(p, Fold(p, log[..n]).value, log[n..]) == Fold(p, log)
  {
    ApplyAllConcat(p, p.empty, log[..n], log[n..]);
    assert log[..n] + log[n..] == log;
  }

  lemma FoldMore<S(!new), D(!new)>(p: Algebra<S, D>, log: seq<D>, d: D)
    ensures Fold(p, log + [d]) == if Fold(p, log).None? then None else p.apply(Fold(p, log).value, d)
  {
    assert (log + [d])[..|log|] == log;
  }

  // ----- Composition of many deltas -----

  /** `composeAll()`: composition in order, every result being checked. */
  function ComposeAll<S(!new), D(!new)>(p: Algebra<S, D>, base: D, deltas: seq<D>, wantDocument: bool): Option<D> {
    if deltas == [] then (if wantDocument && !p.isDocument(base) then None else Some(base))
    else
      var before := ComposeAll(p, base, deltas[..|deltas| - 1], wantDocument);
      if before.None? then None
      else
        var r := p.compose(before.value, deltas[|deltas| - 1], wantDocument);
        if wantDocument && !p.isDocument(r) then None else Some(r)
  }

  lemma {:induction false} ComposeAllConcat<S(!new), D(!new)>(p: Algebra<S, D>, base: D, a: seq<D>, b: seq<D>,
      want: bool)
    ensures ComposeAll(p, base, a + b, want) ==
      if ComposeAll(p, base, a, want).None? then None else ComposeAll(p, ComposeAll(p, base, a, want).value, b, want)
  {
    if b == [] {
      assert a + b == a;
    } else {
      ComposeAllConcat(p, base, a, b[..|b| - 1], want);
      assert (a + b)[..|a + b| - 1] == a + b[..|b| - 1];
    }
  }

  /** Composing deltas onto a document succeeds exactly when applying them to its contents does, and gives a
      document for the result. */
  lemma {:induction false} ComposeAllDocument<S(!new), D(!new)>(p: Algebra<S, D>, doc: D, deltas: seq<D>)
    requires DocumentLaw(p) && p.isDocument(doc)
    ensures var r, s := ComposeAll(p, doc, deltas, true), ApplyAll(p, p.contents(doc), deltas);
      && (r.Some? <==> s.Some?)
      && (r.Some? ==> p.isDocument(r.value) && s == Some(p.contents(r.value)))
  {
    if deltas != [] {
      ComposeAllDocument(p, doc, deltas[..|deltas| - 1]);
    }
  }

  /** Composed changes do what the changes do one after the other. */
  lemma {:induction false} ComposeAllChanges<S(!new), D(!new)>(p: Algebra<S, D>, s: S, base: D, deltas: seq<D>)
    requires ComposeLaw(p) && p.apply(s, base).Some? && ApplyAll(p, p.apply(s, base).value, deltas).Some?
    ensures var r := ComposeAll(p, base, deltas, false);
      r.Some? && p.apply(s, r.value) == ApplyAll(p, p.apply(s, base).value, deltas)
  {
    if deltas != [] {
      ComposeAllChanges(p, s, base, deltas[..|deltas| - 1]);
    }
  }
}
