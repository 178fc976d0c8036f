/** Carets as a document part, and what rebasing makes of them. */
module CaretPart {
  import opened Wrappers
  import opened Part
  import opened CaretDelta
  import opened CaretLaws
  import opened CaretSnapshot

  function Ops(): Algebra<Carets, Delta> {
    Algebra(map[], [],
            (s, d) => CaretDelta.Apply(s, d),
            (a, b, wantDocument) => Composed(a, b, wantDocument),
            d => IsDocument(d),
            d => if IsDocument(d) then Contents(d) else map[])
  }

  lemma OpsLawful()
    ensures Lawful(Ops())
  {
    var p := Ops();
    assert EmptyLaw(p) by {
      forall s ensures CaretDelta.Apply(s, []) == Some(s) { NothingToDo(s); }
      NothingToDo(map[]);
    }
    assert ComposeLaw(p) by {
      forall s, a, b | CaretDelta.Apply(s, a).Some? && CaretDelta.Apply(CaretDelta.Apply(s, a).value, b).Some?
        ensures CaretDelta.Apply(s, Composed(a, b, false)) == CaretDelta.Apply(CaretDelta.Apply(s, a).value, b)
      {
        ApplyConcat(s, a, b);
        ComposeCorrect(s, a, b);
      }
    }
    assert DocumentLaw(p) by {
      forall d, e | IsDocument(d) ensures var r := p.compose(d, e, true);
        && (p.isDocument(r) <==> p.apply(p.contents(d), e).Some?)
        && (p.isDocument(r) ==> p.apply(p.contents(d), e) == Some(p.contents(r)))
      {
        ComposeDocumentCorrect(d, e);
      }
    }
  }

  // ----- Sequences of changes -----

  /** Whether a caret in the given state is in order after each of the deltas. */
  predicate NeverNaked(slot: Slot, deltas: seq<Delta>, id: string) {
    deltas != [] ==> NeverNaked(slot, deltas[..|deltas| - 1], id) && !After(slot, Flatten(deltas), id).Naked?
  }

  lemma {:induction false} ApplyAllAt(s: Carets, deltas: seq<Delta>, id: string)
    requires ApplyAll(Ops(), s, deltas).Some?
    ensures NeverNaked(SlotOf(s, id), deltas, id)
    ensures SlotOf(ApplyAll(Ops(), s, deltas).value, id) == After(SlotOf(s, id), Flatten(deltas), id)
  {
    if deltas != [] {
      var front, last := deltas[..|deltas| - 1], deltas[|deltas| - 1];
      ApplyAllAt(s, front, id);
      AfterConcat(SlotOf(s, id), Flatten(front), last, id);
      ApplyAt(ApplyAll(Ops(), s, front).value, last, id);
    }
  }

  lemma {:induction false} ApplyAllDefined(s: Carets, deltas: seq<Delta>)
    requires forall id :: NeverNaked(SlotOf(s, id), deltas, id)
    ensures ApplyAll(Ops(), s, deltas).Some?
  {
    if deltas != [] {
      var front, last := deltas[..|deltas| - 1], deltas[|deltas| - 1];
      forall id ensures NeverNaked(SlotOf(s, id), front, id) {
        assert NeverNaked(SlotOf(s, id), deltas, id);
      }
      ApplyAllDefined(s, front);
      var t := ApplyAll(Ops(), s, front).value;
      forall id | id in Ids(last) ensures !After(SlotOf(t, id), last, id).Naked? {
        ApplyAllAt(s, front, id);
        AfterConcat(SlotOf(s, id), Flatten(front), last, id);
        assert NeverNaked(SlotOf(s, id), deltas, id);
      }
    }
  }

  // ----- Rebasing -----

  /** `_impl_rebase()`: compose what happened since onto the expected result, and take the difference from the
      current contents to that. It fails when a composition does not give a document. */
  function Rebased(expected: Delta, since: seq<Delta>, current: Delta): Option<Delta> {
    var final := ComposeAll(Ops(), expected, since, true);
    if final.None? then None else Some(Difference(current, final.value))
  }

  lemma FinalCorrect(expected: Delta, since: seq<Delta>)
    requires IsDocument(expected)
    ensures var final, s := ComposeAll(Ops(), expected, since, true), ApplyAll(Ops(), Contents(expected), since);
      && (final.Some? <==> s.Some?)
      && (final.Some? ==> IsDocument(final.value) && s == Some(Contents(final.value)))
  {
    var p := Ops();
    OpsLawful();
    assert p.isDocument(expected) && p.contents(expected) == Contents(expected);
    ComposeAllDocument(p, expected, since);
  }

  /** Whether, after one of the deltas, all that has been done to a caret is to set some of its fields. */
  predicate OnlyUpdated(deltas: seq<Delta>, id: string) {
    && deltas != []
    && (OnlyUpdated(deltas[..|deltas| - 1], id) || NetOf(Flatten(deltas), id, false).Sets?)
  }

  lemma {:induction false} GoneForgets(d: Delta, id: string, slot: Slot, other: Slot)
    requires NetOf(d, id, false).Gone?
    ensures After(slot, d, id) == After(other, d, id)
  {
    var front, op := d[..|d| - 1], d[|d| - 1];
    if !(op.Id() == id && op.Delete?) {
      GoneForgets(front, id, slot, other);
    }
  }

  /** Deltas that apply to one set of carets leave a caret of another in order unless they only update it and
      it is missing there. */
  lemma {:induction false} NakedExactly(slot: Slot, other: Slot, deltas: seq<Delta>, id: string)
    requires NeverNaked(slot, deltas, id) && !other.Naked?
    ensures NeverNaked(other, deltas, id) <==> other.Present? || !OnlyUpdated(deltas, id)
  {
    if deltas != [] {
      var d := Flatten(deltas);
      NakedExactly(slot, other, deltas[..|deltas| - 1], id);
      NetIsEffect(slot, d, id);
      NetIsEffect(other, d, id);
      if NetOf(d, id, false).Gone? {
        GoneForgets(d, id, slot, other);
      }
    }
  }

  /** Changes that apply to the base carets apply to the expected ones exactly when they do not only update a
      caret that is missing from the latter. */
  lemma RebaseDefined(base: Carets, expected: Carets, since: seq<Delta>)
    requires ApplyAll(Ops(), base, since).Some?
    ensures ApplyAll(Ops(), expected, since).Some? <==> forall id :: OnlyUpdated(since, id) ==> id in expected
  {
    forall id
      ensures NeverNaked(SlotOf(expected, id), since, id) <==> id in expected || !OnlyUpdated(since, id)
    {
      ApplyAllAt(base, since, id);
      NakedExactly(SlotOf(base, id), SlotOf(expected, id), since, id);
    }
    if ApplyAll(Ops(), expected, since).Some? {
      forall id ensures NeverNaked(SlotOf(expected, id), since, id) {
        ApplyAllAt(expected, since, id);
      }
    } else if forall id :: NeverNaked(SlotOf(expected, id), since, id) {
      ApplyAllDefined(expected, since);
    }
  }

  /** What a rebase makes of a caret: the server's additions and deletions decide; fields that the server has
      set win over the client's; whatever the server has not touched is as the client expects. */
  function Merged(current: Slot, expected: Slot, net: Net): Slot {
    match net
    case Untouched => expected
    case Sets(m) => if expected.Present? then Present(expected.fields + m) else Naked
    case _ => current
  }

  lemma MergedAt(base: Carets, expected: Carets, since: seq<Delta>, id: string)
    requires ApplyAll(Ops(), base, since).Some? && ApplyAll(Ops(), expected, since).Some?
    ensures SlotOf(ApplyAll(Ops(), expected, since).value, id) ==
      Merged(SlotOf(ApplyAll(Ops(), base, since).value, id), SlotOf(expected, id), NetOf(Flatten(since), id, false))
  {
    ApplyAllAt(base, since, id);
    ApplyAllAt(expected, since, id);
    NetIsEffect(SlotOf(base, id), Flatten(since), id);
    NetIsEffect(SlotOf(expected, id), Flatten(since), id);
    if NetOf(Flatten(since), id, false).Gone? {
      GoneForgets(Flatten(since), id, SlotOf(base, id), SlotOf(expected, id));
    }
  }

  /** When a caret rebase succeeds, and that the change it gives takes the current carets to the merge of the
      server's changes and the client's. */
  lemma RebaseIsMerge(base: Delta, expected: Delta, since: seq<Delta>, current: Delta)
    requires IsDocument(base) && IsDocument(expected) && IsDocument(current)
    requires ApplyAll(Ops(), Contents(base), since) == Some(Contents(current))
    ensures Rebased(expected, since, current).Some? <==>
      forall id :: OnlyUpdated(since, id) ==> id in Contents(expected)
    ensures Rebased(expected, since, current).Some? ==>
      var r := CaretDelta.Apply(Contents(current), Rebased(expected, since, current).value);
      && r.Some? && r == ApplyAll(Ops(), Contents(expected), since)
      && forall id :: SlotOf(r.value, id) ==
           Merged(SlotOf(Contents(current), id), SlotOf(Contents(expected), id), NetOf(Flatten(since), id, false))
  {
    RebaseDefined(Contents(base), Contents(expected), since);
    FinalCorrect(expected, since);
    var final := ComposeAll(Ops(), expected, since, true);
    if final.Some? {
      DifferenceCorrect(current, final.value);
      forall id ensures SlotOf(Contents(final.value), id) ==
        Merged(SlotOf(Contents(current), id), SlotOf(Contents(expected), id), NetOf(Flatten(since), id, false))
      {
        MergedAt(Contents(base), Contents(expected), since, id);
      }
    }
  }

  // ----- The part -----

  predicate Represents(doc: Delta, s: Carets) {
    IsDocument(doc) && Contents(doc) == s
  }

  /** Differences depend on the snapshots' representations, which are any documents for their contents. */
  ghost predicate Diffs(s: Carets, t: Carets, d: Delta) {
    exists x, y :: Represents(x, s) && Represents(y, t) && d == Difference(x, y)
  }

  ghost predicate Rebases(change: Delta, expected: Carets, since: seq<Delta>, current: Carets, d: Delta) {
    exists x, y :: Represents(x, expected) && Represents(y, current) && Some(d) == Rebased(x, since, y)
  }

  ghost function ThePart(): Part<Carets, Delta> {
    Part(Ops(), Diffs, Rebases, true)
  }

  lemma DiffsCorrect(s: Carets, t: Carets, d: Delta)
    requires Diffs(s, t, d)
    ensures CaretDelta.Apply(s, d) == Some(t)
  {
    var x, y :| Represents(x, s) && Represents(y, t) && d == Difference(x, y);
    DifferenceCorrect(x, y);
  }

  lemma RebasesCorrect(change: Delta, expected: Carets, since: seq<Delta>, current: Carets, d: Delta)
    requires Rebases(change, expected, since, current, d)
    ensures CaretDelta.Apply(current, d).Some? && CaretDelta.Apply(current, d) == ApplyAll(Ops(), expected, since)
  {
    var x, y :| Represents(x, expected) && Represents(y, current) && Some(d) == Rebased(x, since, y);
    FinalCorrect(x, since);
    DifferenceCorrect(y, ComposeAll(Ops(), x, since, true).value);
  }

  lemma PartLawful()
    ensures Lawful(ThePart().ops) && DiffLaw(ThePart()) && MergeLaw(ThePart())
  {
    OpsLawful();
    var p := ThePart();
    assert DiffLaw(p) by {
      forall s, t, d | Diffs(s, t, d) ensures CaretDelta.Apply(s, d) == Some(t) { DiffsCorrect(s, t, d); }
    }
    assert MergeLaw(p) by {
      forall change, expected, since, current, d | Rebases(change, expected, since, current, d)
        ensures CaretDelta.Apply(current, d).Some?
        ensures CaretDelta.Apply(current, d) == ApplyAll(Ops(), expected, since)
      {
        RebasesCorrect(change, expected, since, current, d);
      }
    }
  }

  lemma NoCarets()
    ensures Represents([], map[])
  {
    assert CaretDelta.Apply(map[], []) == Some(map[]);
  }

  lemma AddApplies(s: Carets, id: string, fields: Fields)
    ensures CaretDelta.Apply(s, [Add(Caret(id, fields))]) == Some(s[id := fields])
  {
    var d := [Add(Caret(id, fields))];
    assert d[0] in d && d[..0] == [];
    assert Ids(d) == {id};
    assert After(SlotOf(s, id), d, id) == Present(fields);
    forall x | x != id ensures After(SlotOf(s, x), d, x) == SlotOf(s, x) {
      assert After(SlotOf(s, x), d[..0], x) == SlotOf(s, x);
    }
    assert CaretDelta.Apply(s, d).value == s[id := fields];
  }

  lemma AddToDocument(doc: Delta, s: Carets, id: string, fields: Fields)
    requires Represents(doc, s)
    ensures Represents(Composed(doc, [Add(Caret(id, fields))], true), s[id := fields])
  {
    ComposeDocumentCorrect(doc, [Add(Caret(id, fields))]);
    AddApplies(s, id, fields);
    hide Composed, Contents, IsDocument;
  }

  /** All carets can be represented. */
  lemma {:induction false} HasDocument(s: Carets) returns (doc: Delta)
    ensures Represents(doc, s)
    decreases |s|
  {
    hide Represents, Composed;
    if s == map[] {
      doc := [];
      NoCarets();
    } else {
      var id :| id in s;
      var rest := HasDocument(s - {id});
      doc := Composed(rest, [Add(Caret(id, s[id]))], true);
      AddToDocument(rest, s - {id}, id, s[id]);
      assert s == (s - {id})[id := s[id]];
    }
  }

  lemma DiffsAlways()
    ensures DiffsExist(ThePart())
  {
    forall s, t ensures HasDiff(ThePart(), s, t) {
      var x := HasDocument(s);
      var y := HasDocument(t);
      assert ThePart().diffs(s, t, Difference(x, y));
    }
  }

  /** A rebase has a result exactly if what happened since does not only update a caret that the client has
      removed. */
  lemma HasRebaseExactly(base: Carets, change: Delta, expected: Carets, since: seq<Delta>, current: Carets)
    requires ApplyAll(Ops(), base, since) == Some(current)
    ensures HasRebase(ThePart(), change, expected, since, current) <==>
      forall id :: OnlyUpdated(since, id) ==> id in expected
  {
    RebaseDefined(base, expected, since);
    var x := HasDocument(expected);
    var y := HasDocument(current);
    FinalCorrect(x, since);
    if ApplyAll(Ops(), expected, since).Some? {
      assert ThePart().rebases(change, expected, since, current, Rebased(x, since, y).value);
    } else if HasRebase(ThePart(), change, expected, since, current) {
      var d :| ThePart().rebases(change, expected, since, current, d);
      RebasesCorrect(change, expected, since, current, d);
    }
  }
}
