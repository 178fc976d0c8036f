/** Reading the stored changes of a document part: ranges, compositions and differences. */
module ChangeLog {
  import opened Wrappers
  import opened Part

  const MAX_CHANGE_READS_PER_ITERATION: nat := 1000

  const MAX_COMPOSED_CHANGES_FOR_DIFF: nat := 100

  const CHANGES_PER_STORED_SNAPSHOT: nat := 1000

  /** The changes of an ephemeral part before this revision are deleted along with the write of a snapshot. */
  function DeleteBefore(revNum: nat): nat {
    if revNum >= CHANGES_PER_STORED_SNAPSHOT then revNum - CHANGES_PER_STORED_SNAPSHOT else 0
  }

  function Trim<D>(changes: map<nat, D>, bound: nat): map<nat, D> {
    map k | k in changes && k >= bound :: changes[k]
  }

  /** The latest revision up to a given one for which there is an entry. */
  function Nearest<E>(entries: map<nat, E>, revNum: nat): (r: Option<nat>)
    ensures r.Some? ==> r.value <= revNum && r.value in entries && forall k :: r.value < k <= revNum ==> k !in entries
    ensures r.None? ==> forall k :: 0 <= k <= revNum ==> k !in entries
  {
    if revNum in entries then Some(revNum) else if revNum == 0 then None else Nearest(entries, revNum - 1)
  }

  /** The changes of a part as stored, by revision number, and its current revision number. */
  datatype Store<D> = Store(revNum: nat, changes: map<nat, D>)

  /** A delta, and the revision that it leads to. */
  datatype Change<D> = Change(revNum: nat, delta: D)

  datatype Error =
    | BadValue
    | TooManyChanges
    | MissingChanges(revNums: seq<nat>)
    | NotAvailable(revNum: nat)
    | BadComposition

  // ----- Ranges -----

  /** The changes from `lo` up to but not including `hi`, if all of them are there. */
  function Read<D>(changes: map<nat, D>, lo: nat, hi: nat): Option<seq<D>> {
    if lo >= hi then Some([])
    else
      var front := Read(changes, lo, hi - 1);
      if front.None? || hi - 1 !in changes then None else Some(front.value + [changes[hi - 1]])
  }

  /** The first stored change of a range, or its end. */
  function First<D>(changes: map<nat, D>, lo: nat, hi: nat): (r: nat)
    requires lo <= hi
    ensures lo <= r <= hi && (r < hi ==> r in changes) && forall k :: lo <= k < r ==> k !in changes
    decreases hi - lo
  {
    if lo == hi || lo in changes then lo else First(changes, lo + 1, hi)
  }

  function Missing<D>(changes: map<nat, D>, lo: nat, hi: nat): (r: seq<nat>)
    requires lo <= hi
    ensures forall k :: k in r <==> lo <= k < hi && k !in changes
  {
    if lo == hi then [] else Missing(changes, lo, hi - 1) + if hi - 1 in changes then [] else [hi - 1]
  }

  lemma {:induction false} ReadExactly<D>(changes: map<nat, D>, lo: nat, hi: nat)
    requires lo <= hi
    ensures Read(changes, lo, hi).Some? <==> forall k :: lo <= k < hi ==> k in changes
    ensures Read(changes, lo, hi).Some? ==>
      var r := Read(changes, lo, hi).value;
      |r| == hi - lo && forall k :: lo <= k < hi ==> r[k - lo] == changes[k]
    decreases hi
  {
    if lo < hi { ReadExactly(changes, lo, hi - 1); }
  }

  lemma {:induction false} ReadConcat<D>(changes: map<nat, D>, lo: nat, mid: nat, hi: nat)
    requires lo <= mid <= hi
    ensures Read(changes, lo, hi) ==
      var a, b := Read(changes, lo, mid), Read(changes, mid, hi);
      if a.None? || b.None? then None else Some(a.value + b.value)
    decreases hi
  {
    if mid < hi {
      ReadConcat(changes, lo, mid, hi - 1);
      var a, b := Read(changes, lo, mid), Read(changes, mid, hi - 1);
      if a.Some? && b.Some? && hi - 1 in changes {
        assert a.value + b.value + [changes[hi - 1]] == a.value + (b.value + [changes[hi - 1]]);
      }
    } else if Read(changes, lo, mid).Some? {
      assert Read(changes, lo, mid).value + [] == Read(changes, lo, mid).value;
    }
  }

  /** The range without what is missing at its start, when that is allowed. */
  function From<D>(changes: map<nat, D>, start: nat, end: nat, allowMissing: bool): nat
    requires start <= end
  {
    if allowMissing then First(changes, start, end) else start
  }

  predicate ValidRange<D>(s: Store<D>, start: nat, end: nat) {
    start <= end <= s.revNum + 1 && end - start <= MAX_CHANGE_READS_PER_ITERATION
  }

  /** `_getChangeRange()`: changes may be missing at the start of the range only, and only if so allowed. */
  method GetChangeRange<D>(s: Store<D>, start: nat, end: nat, allowMissing: bool) returns (r: Result<seq<D>, Error>)
    ensures !ValidRange(s, start, end) ==> r == Err(if start <= end <= s.revNum + 1 then TooManyChanges else BadValue)
    ensures ValidRange(s, start, end) ==>
      var first := From(s.changes, start, end, allowMissing);
      match Read(s.changes, first, end)
      case Some(deltas) => r == Ok(deltas)
      case None => r == Err(MissingChanges(Missing(s.changes, first, end)))
  {
    if start > end || end > s.revNum + 1 {
      return Err(BadValue);
    }
    if start == end {
      return Ok([]);
    } else if end - start > MAX_CHANGE_READS_PER_ITERATION {
      return Err(TooManyChanges);
    }
    var result, missing, allow := [], [], allowMissing;
    for i := start to end
      invariant Scanned(s.changes, start, i, allowMissing, allow, result, missing)
    {
      if i in s.changes {
        result := result + [s.changes[i]];
        allow := false;
      } else if !allow {
        missing := missing + [i];
      }
    }
    var first := From(s.changes, start, end, allowMissing);
    ReadExactly(s.changes, first, end);
    if missing != [] {
      assert missing[0] in missing;
      return Err(MissingChanges(missing));
    }
    return Ok(result);
  }

  /** How far the loop over a range has come. */
  ghost predicate Scanned<D>(changes: map<nat, D>, start: nat, i: nat, allowMissing: bool, allow: bool, result: seq<D>,
      missing: seq<nat>)
    requires start <= i
  {
    && (allow <==> allowMissing && First(changes, start, i) == i)
    && var first := From(changes, start, i, allowMissing);
       missing == Missing(changes, first, i) && (missing == [] ==> Read(changes, first, i) == Some(result))
  }

  lemma ReadOne<D>(changes: map<nat, D>, r: nat)
    ensures First(changes, r, r + 1) == if r in changes then r else r + 1
    ensures Read(changes, r + 1, r + 1) == Some([])
    ensures Read(changes, r, r + 1) == if r in changes then Some([changes[r]]) else None
  {
    assert Read(changes, r, r) == Some([]);
    if r in changes { assert [] + [changes[r]] == [changes[r]]; }
  }

  /** `getChange()`. */
  method GetChange<D>(s: Store<D>, revNum: nat) returns (r: Result<D, Error>)
    ensures r == if revNum > s.revNum then Err(BadValue)
                 else if revNum in s.changes then Ok(s.changes[revNum])
                 else Err(NotAvailable(revNum))
  {
    var changes := GetChangeRange(s, revNum, revNum + 1, true);
    ReadOne(s.changes, revNum);
    if changes.Err? {
      return Err(changes.error);
    }
    if |changes.value| == 0 {
      return Err(NotAvailable(revNum));
    }
    return Ok(changes.value[0]);
  }

  // ----- Compositions -----

  /** `composeAll()`, whose loop checks each intermediate result and whose caller checks the last one. */
  method ComposeChunk<S(!new), D(!new)>(p: Algebra<S, D>, base: D, deltas: seq<D>, wantDocument: bool)
      returns (r: Option<D>)
    ensures r == ComposeAll(p, base, deltas, wantDocument)
  {
    assert deltas[..|deltas|] == deltas;
    if wantDocument && !p.isDocument(base) {
      NoDocument(p, base, deltas);
      return None;
    }
    var result := base;
    for i := 0 to |deltas|
      invariant i == 0 ==> result == base
      invariant i > 0 ==>
        var before := ComposeAll(p, base, deltas[..i - 1], wantDocument);
        before.Some? && result == p.compose(before.value, deltas[i - 1], wantDocument)
    {
      if i > 0 {
        assert deltas[..i][..i - 1] == deltas[..i - 1];
        if wantDocument && !p.isDocument(result) {
          FailsEarly(p, base, deltas[..i], deltas[i..], wantDocument);
          assert deltas[..i] + deltas[i..] == deltas;
          return None;
        }
      }
      result := p.compose(result, deltas[i], wantDocument);
    }
    if wantDocument && !p.isDocument(result) {
      return None;
    }
    r := Some(result);
  }

  lemma FailsEarly<S(!new), D(!new)>(p: Algebra<S, D>, base: D, a: seq<D>, b: seq<D>, wantDocument: bool)
    requires ComposeAll(p, base, a, wantDocument).None?
    ensures ComposeAll(p, base, a + b, wantDocument).None?
  {
    ComposeAllConcat(p, base, a, b, wantDocument);
  }

  lemma NoDocument<S(!new), D(!new)>(p: Algebra<S, D>, base: D, deltas: seq<D>)
    requires !p.isDocument(base)
    ensures ComposeAll(p, base, deltas, true).None?
  {
    FailsEarly(p, base, [], deltas, true);
    assert [] + deltas == deltas;
  }

  /** All the changes of a range composed onto a base delta, if they are there and do compose. */
  function Composed<S(!new), D(!new)>(p: Algebra<S, D>, s: Store<D>, base: D, start: nat, end: nat,
      wantDocument: bool): Option<D> {
    if end > s.revNum + 1 then None
    else match Read(s.changes, start, end)
      case None => None
      case Some(deltas) => ComposeAll(p, base, deltas, wantDocument)
  }

  /** `getComposedChanges()`: reading and composing in chunks is the same as composing everything in order. No
      chunk is ever too large. (When the range is turned around, the loop is not entered at all.) */
  method GetComposedChanges<S(!new), D(!new)>(p: Algebra<S, D>, s: Store<D>, base: D, start: nat, end: nat,
      wantDocument: bool)
      returns (r: Result<D, Error>)
    ensures start > end ==> r == Ok(base)
    ensures start <= end ==>
      match Composed(p, s, base, start, end, wantDocument)
      case Some(d) => r == Ok(d)
      case None => r.Err? && !r.error.TooManyChanges?
  {
    hide Read, First, Missing, ComposeAll, Composed;
    if start == end {
      NothingComposed(p, s, base, start, wantDocument);
      if wantDocument && !p.isDocument(base) {
        return Err(BadValue);
      }
      var check := GetChangeRange(s, start, start, false);
      if check.Err? {
        return Err(check.error);
      }
      return Ok(base);
    }
    var result := base;
    var i := start;
    while i < end
      invariant start <= i && (start > end ==> i == start)
      invariant i == start ==> result == base
      invariant start < i <= end ==> Composed(p, s, base, start, i, wantDocument) == Some(result)
      invariant start < end < i ==> Composed(p, s, base, start, end, wantDocument) == Some(result)
    {
      var next := if i + MAX_CHANGE_READS_PER_ITERATION <= end then i + MAX_CHANGE_READS_PER_ITERATION else end;
      ChunkStep(p, s, base, start, i, next, end, wantDocument);
      var deltas := GetChangeRange(s, i, next, false);
      if deltas.Err? {
        return Err(deltas.error);
      }
      var composed := ComposeChunk(p, result, deltas.value, wantDocument);
      if composed.None? {
        return Err(BadComposition);
      }
      result := composed.value;
      i := i + MAX_CHANGE_READS_PER_ITERATION;
    }
    r := Ok(result);
  }

  lemma NothingComposed<S(!new), D(!new)>(p: Algebra<S, D>, s: Store<D>, base: D, start: nat, want: bool)
    ensures Composed(p, s, base, start, start, want) ==
      if start > s.revNum + 1 || (want && !p.isDocument(base)) then None else Some(base)
    ensures Read(s.changes, start, start) == Some([])
  {
  }

  /** One more chunk, and that a range fails when one of its chunks does. */
  lemma ChunkStep<S(!new), D(!new)>(p: Algebra<S, D>, s: Store<D>, base: D, start: nat, mid: nat, next: nat, end: nat,
      want: bool)
    requires start <= mid <= next <= end && start < next
    ensures mid == start && start < next ==>
      Composed(p, s, base, start, next, want) ==
        (if next > s.revNum + 1 || Read(s.changes, mid, next).None? then None
         else ComposeAll(p, base, Read(s.changes, mid, next).value, want))
    ensures mid > start && Composed(p, s, base, start, mid, want).Some? ==>
      Composed(p, s, base, start, next, want) ==
        (if next > s.revNum + 1 || Read(s.changes, mid, next).None? then None
         else ComposeAll(p, Composed(p, s, base, start, mid, want).value, Read(s.changes, mid, next).value, want))
    ensures Composed(p, s, base, start, next, want).None? ==> Composed(p, s, base, start, end, want).None?
  {
    ReadConcat(s.changes, start, mid, next);
    ReadConcat(s.changes, start, next, end);
    if mid == start && Read(s.changes, mid, next).Some? {
      assert [] + Read(s.changes, mid, next).value == Read(s.changes, mid, next).value;
    }
    if Read(s.changes, start, next).Some? {
      ComposeAllConcat(p, base, Read(s.changes, start, mid).value, Read(s.changes, mid, next).value, want);
      if Read(s.changes, next, end).Some? {
        ComposeAllConcat(p, base, Read(s.changes, start, next).value, Read(s.changes, next, end).value, want);
      }
    }
  }
}
