/** The changes that the caret controller makes on its own account. */
module CaretControl {
  import opened Wrappers
  import opened CaretDelta
  import opened CaretLaws
  import opened CaretSnapshot

  /** `changeForUpdate()`: `None` when there is no such caret. The change replaces the whole caret. */
  function ChangeForUpdate(s: Snapshot, id: string, docRevNum: nat, index: nat, length: nat, now: int): Option<Delta>
    requires s.Valid()
  {
    if id !in s.Bindings() then None
    else
      var active: Fields := s.Bindings()[id][RevNum := Num(docRevNum)][LastActive := Time(now)];
      var f: Fields := active[Index := Num(index)][Length := Num(length)];
      Some([Add(Caret(id, f))])
  }

  /** Applied where it was made, the change moves the caret and leaves its author, its color and all other
      carets alone. */
  lemma ChangeForUpdateCorrect(s: Snapshot, id: string, docRevNum: nat, index: nat, length: nat, now: int)
    requires s.Valid()
    ensures var d := ChangeForUpdate(s, id, docRevNum, index, length, now);
      && (d.Some? <==> id in s.Bindings())
      && (d.Some? ==>
            var r := Apply(s.Bindings(), d.value);
            && r.Some? && r.value.Keys == s.Bindings().Keys
            && (forall other :: other in s.Bindings() && other != id ==> r.value[other] == s.Bindings()[other])
            && var f, g := s.Bindings()[id], r.value[id];
               && g[AuthorId] == f[AuthorId] && g[Color] == f[Color]
               && g[Index] == Num(index) && g[Length] == Num(length)
               && g[LastActive] == Time(now) && g[RevNum] == Num(docRevNum))
  {
    var d := ChangeForUpdate(s, id, docRevNum, index, length, now);
    if d.Some? {
      OneOp(s.Bindings(), d.value[0]);
      assert d.value == [d.value[0]];
    }
  }

  predicate Idle(f: Fields, minTime: int) {
    f[LastActive].Time? && minTime > f[LastActive].msec
  }

  /** The last activity of a caret, if one is recorded, was at the given time or later. */
  ghost predicate ActiveSince(f: Fields, time: int) {
    forall t: int :: f[LastActive] == Time(t) ==> time <= t
  }

  /** Exactly the carets of `s` that were active at the given time or later are left in `r`, as they were. */
  ghost predicate KeepsActive(s: Carets, r: Carets, time: int) {
    && (forall id :: id in r <==> id in s && ActiveSince(s[id], time))
    && (forall id :: id in r ==> r[id] == s[id])
  }

  /** The entries of a snapshot, in the order of its contents. */
  function IdleIds(contents: Delta, minTime: int): set<string> {
    set op <- contents | op.Add? && Idle(op.caret.fields, minTime) :: op.caret.id
  }

  function Active(s: Carets, minTime: int): Carets {
    map id | id in s && !Idle(s[id], minTime) :: s[id]
  }

  lemma IdleMeans(f: Fields, minTime: int)
    ensures Idle(f, minTime) <==> !ActiveSince(f, minTime)
  {
    if f[LastActive].Time? { assert f[LastActive] == Time(f[LastActive].msec); }
  }

  lemma ActiveKept(s: Carets, minTime: int)
    ensures KeepsActive(s, Active(s, minTime), minTime)
    ensures (forall id :: id in s ==> !Idle(s[id], minTime)) <==> forall id :: id in s ==> ActiveSince(s[id], minTime)
  {
    forall id | id in s ensures Idle(s[id], minTime) <==> !ActiveSince(s[id], minTime) { IdleMeans(s[id], minTime); }
  }

  /** A caret that has just been moved survives a removal of idle carets exactly if `minTime` is not after the time of
      the move. All other carets fare as they would have without the move. */
  lemma MovedStays(s: Snapshot, id: string, docRevNum: nat, index: nat, length: nat, now: int, minTime: int, r: Carets)
    requires s.Valid() && id in s.Bindings()
    requires var d := ChangeForUpdate(s, id, docRevNum, index, length, now);
      d.Some? && Apply(s.Bindings(), d.value).Some? && KeepsActive(Apply(s.Bindings(), d.value).value, r, minTime)
    ensures id in r <==> minTime <= now
    ensures forall other :: other != id ==>
      (other in r <==> other in s.Bindings() && ActiveSince(s.Bindings()[other], minTime))
    ensures forall other :: other in r && other != id ==> r[other] == s.Bindings()[other]
  {
    ChangeForUpdateCorrect(s, id, docRevNum, index, length, now);
    var moved := Apply(s.Bindings(), ChangeForUpdate(s, id, docRevNum, index, length, now).value).value;
    IdleMeans(moved[id], minTime);
    hide ChangeForUpdate, Apply;
  }

  /** `_removeIdleCarets()`, up to the call of `update()`: the change to submit, if any caret is idle. */
  method RemoveIdle(s: Snapshot, minTime: int) returns (change: Option<Delta>)
    requires s.Valid()
    ensures change.None? <==> forall id :: id in s.Bindings() ==> ActiveSince(s.Bindings()[id], minTime)
    ensures change.Some? ==>
      var r := Apply(s.Bindings(), change.value); r.Some? && KeepsActive(s.Bindings(), r.value, minTime)
    ensures change.Some? ==> Apply(s.Bindings(), change.value) == Some(Active(s.Bindings(), minTime))
  {
    var newer, removed := DropIdle(s, minTime);
    IdleExactly(s, minTime);
    ActiveKept(s.Bindings(), minTime);
    if removed == 0 {
      return None;
    }
    var d := Diff(s, newer);
    DifferenceCorrect(s.contents, newer.contents);
    change := Some(d);
    ghost var id :| id in IdleIds(s.contents, minTime);
  }

  /** The loop over all carets of the snapshot. */
  method DropIdle(s: Snapshot, minTime: int) returns (newer: Snapshot, removed: nat)
    requires s.Valid()
    ensures newer.Valid() && newer.Bindings() == s.Bindings() - IdleIds(s.contents, minTime)
    ensures KeepsActive(s.Bindings(), newer.Bindings(), minTime)
    ensures removed == 0 <==> IdleIds(s.contents, minTime) == {}
  {
    hide Contents, IdleIds, Idle;
    newer := s;
    removed := 0;
    NoneIdle(minTime);
    for i := 0 to |s.contents|
      invariant newer.Valid()
      invariant newer.Bindings() == s.Bindings() - IdleIds(s.contents[..i], minTime)
      invariant removed == 0 <==> IdleIds(s.contents[..i], minTime) == {}
    {
      assert s.contents[i] in s.contents;
      assert s.contents[..i + 1] == s.contents[..i] + [s.contents[i]];
      var c := s.contents[i].caret;
      DropMore(s.Bindings(), s.contents[..i], s.contents[i], minTime);
      if Idle(c.fields, minTime) {
        WithoutCaretCorrect(newer, c.id);
        newer := WithoutCaret(newer, c.id);
        removed := removed + 1;
      }
    }
    assert s.contents[..|s.contents|] == s.contents;
    IdleExactly(s, minTime);
    ActiveKept(s.Bindings(), minTime);
  }

  lemma NoneIdle(minTime: int)
    ensures IdleIds([], minTime) == {}
  {
  }

  lemma DropMore(s: Carets, front: Delta, op: CaretOp, minTime: int)
    requires op.Add?
    ensures s - IdleIds(front + [op], minTime) ==
      (if Idle(op.caret.fields, minTime) then s - IdleIds(front, minTime) - {op.caret.id}
       else s - IdleIds(front, minTime))
    ensures IdleIds(front + [op], minTime) == {} <==> IdleIds(front, minTime) == {} && !Idle(op.caret.fields, minTime)
  {
    assert IdleIds(front + [op], minTime) ==
      IdleIds(front, minTime) + if Idle(op.caret.fields, minTime) then {op.caret.id} else {};
  }

  lemma IdleExactly(s: Snapshot, minTime: int)
    requires s.Valid()
    ensures forall id :: id in IdleIds(s.contents, minTime) <==>
      id in s.Bindings() && Idle(s.Bindings()[id], minTime)
    ensures s.Bindings() - IdleIds(s.contents, minTime) == Active(s.Bindings(), minTime)
  {
    var t, idle := s.Bindings(), IdleIds(s.contents, minTime);
    forall id
      ensures id in idle <==> id in t && Idle(t[id], minTime)
      ensures SlotOf(t - idle, id) == SlotOf(Active(t, minTime), id)
    {
      BindingsExactly(s, id);
    }
    SameSlots(t - idle, Active(t, minTime));
  }

  lemma {:induction false} AddsOnly(d: Delta, id: string)
    requires IsDocument(d)
    ensures forall op <- d :: op.Id() == id ==> After(Absent, d, id) == Present(op.caret.fields)
    ensures After(Absent, d, id).Present? ==> exists op <- d :: op.Id() == id
  {
    if d != [] {
      var front, last := d[..|d| - 1], d[|d| - 1];
      AddsLess(d);
      AddsOnly(front, id);
      assert After(Absent, d, id) ==
        if last.Id() == id then Walk(After(Absent, front, id), last) else After(Absent, front, id);
      hide After, IsDocument;
      assert forall op <- d :: op in front || op == last;
    }
  }

  lemma AddsLess(d: Delta)
    requires IsDocument(d) && d != []
    ensures var front, last := d[..|d| - 1], d[|d| - 1];
      && IsDocument(front) && last.Add? && last in d && d == front + [last]
      && (forall op <- front :: op in d && op.Id() != last.Id())
  {
    var front, last := d[..|d| - 1], d[|d| - 1];
    assert d == front + [last] && last in d;
  }

  lemma BindingsExactly(s: Snapshot, id: string)
    requires s.Valid()
    ensures forall op <- s.contents ::
      op.Add? && (op.Id() == id ==> SlotOf(s.Bindings(), id) == Present(op.caret.fields))
    ensures id in s.Bindings() ==> exists op <- s.contents :: op.Id() == id
  {
    AddsOnly(s.contents, id);
    DocumentApplies(s.contents);
    ApplyAt(map[], s.contents, id);
  }
}
