/** Properties as a document part, and what rebasing makes of them. */
module PropertyPart {
  import opened Wrappers
  import opened JsMap
  import opened Part
  import PropertyDelta
  import opened PropertySnapshot

  type Delta = PropertyDelta.Delta

  type Properties = PropertyDelta.Properties

  function Ops(): Algebra<Properties, Delta> {
    Algebra(map[], [],
            (s, d) => Some(PropertyDelta.Apply(s, d)),
            (a, b, wantDocument) => PropertyDelta.Composed(a, b, wantDocument),
            d => PropertyDelta.IsDocument(d),
            d => PropertyDelta.Contents(d))
  }

  lemma OpsLawful()
    ensures Lawful(Ops())
  {
    var p := Ops();
    forall s, a, b ensures p.apply(s, p.compose(a, b, false)) == p.apply(p.apply(s, a).value, b) {
      PropertyDelta.ComposeCorrect(s, a, b);
    }
    forall d, e ensures var r := p.compose(d, e, true);
      p.isDocument(r) && p.apply(p.contents(d), e) == Some(p.contents(r))
    {
      PropertyDelta.ComposeDocumentCorrect(d, e);
    }
  }

  // ----- The part -----

  predicate Represents(doc: Delta, s: Properties) {
    PropertyDelta.IsDocument(doc) && PropertyDelta.Contents(doc) == s
  }

  /** Differences depend on the snapshots' representations, which are any documents for their contents. */
  ghost predicate Diffs(s: Properties, t: Properties, d: Delta) {
    exists x, y :: Represents(x, s) && Represents(y, t) && d == Difference(x, y)
  }

  /** `_impl_rebase()`: compose what happened since onto the expected result, and take the difference from
      the current contents to that. */
  function Rebased(expected: Delta, since: seq<Delta>, current: Delta): Option<Delta> {
    var final := ComposeAll(Ops(), expected, since, true);
    if final.None? || !PropertyDelta.IsDocument(final.value) then None else Some(Difference(current, final.value))
  }

  ghost predicate Rebases(change: Delta, expected: Properties, since: seq<Delta>, current: Properties, d: Delta) {
    exists x, y :: Represents(x, expected) && Represents(y, current) && Some(d) == Rebased(x, since, y)
  }

  ghost function ThePart(): Part<Properties, Delta> {
    Part(Ops(), Diffs, Rebases, false)
  }

  lemma FinalCorrect(expected: Delta, since: seq<Delta>)
    requires PropertyDelta.IsDocument(expected)
    ensures var final := ComposeAll(Ops(), expected, since, true);
      && final.Some? && PropertyDelta.IsDocument(final.value)
      && ApplyAll(Ops(), PropertyDelta.Contents(expected), since) == Some(PropertyDelta.Contents(final.value))
  {
    var p := Ops();
    OpsLawful();
    AlwaysApplies(PropertyDelta.Contents(expected), since);
    assert p.isDocument(expected) && p.contents(expected) == PropertyDelta.Contents(expected);
    ComposeAllDocument(p, expected, since);
  }

  /** Rebasing never fails, and takes the current properties to those that the other changes make of the
      expected ones. */
  lemma RebasedCorrect(expected: Delta, since: seq<Delta>, current: Delta)
    requires PropertyDelta.IsDocument(expected) && PropertyDelta.IsDocument(current)
    ensures var r, s := Rebased(expected, since, current), PropertyDelta.Contents(expected);
      r.Some? && ApplyAll(Ops(), s, since) == Some(PropertyDelta.Apply(PropertyDelta.Contents(current), r.value))
  {
    FinalCorrect(expected, since);
    DifferenceCorrect(current, ComposeAll(Ops(), expected, since, true).value);
  }

  lemma {:induction false} AlwaysApplies(s: Properties, deltas: seq<Delta>)
    ensures ApplyAll(Ops(), s, deltas).Some?
  {
    if deltas != [] { AlwaysApplies(s, deltas[..|deltas| - 1]); }
  }

  lemma PartLawful()
    ensures Lawful(ThePart().ops) && DiffLaw(ThePart()) && MergeLaw(ThePart())
  {
    OpsLawful();
    var p := ThePart();
    forall s, t, d | p.diffs(s, t, d) ensures p.ops.apply(s, d) == Some(t) {
      var x, y :| Represents(x, s) && Represents(y, t) && d == Difference(x, y);
      DifferenceCorrect(x, y);
    }
    forall base, change, expected, since, current, d |
        p.ops.apply(base, change) == Some(expected) && ApplyAll(p.ops, base, since) == Some(current) &&
        p.rebases(change, expected, since, current, d)
      ensures p.ops.apply(current, d) == ApplyAll(p.ops, expected, since)
    {
      var x, y :| Represents(x, expected) && Represents(y, current) && Some(d) == Rebased(x, since, y);
      RebasedCorrect(x, since, y);
    }
  }

  /** All properties can be represented. */
  lemma {:induction false} HasDocument(s: Properties) returns (doc: Delta)
    ensures Represents(doc, s)
    decreases |s|
  {
    if s == map[] {
      doc := [];
    } else {
      var n :| n in s;
      var rest := HasDocument(s - {n});
      doc := PropertyDelta.Composed(rest, [PropertyDelta.Set(n, s[n])], true);
      PropertyDelta.ComposeDocumentCorrect(rest, [PropertyDelta.Set(n, s[n])]);
      assert [PropertyDelta.Set(n, s[n])][..0] == [];
      assert s == (s - {n})[n := s[n]];
    }
  }

  /** There always is a difference, and rebasing always has a result. */
  lemma AlwaysPossible()
    ensures DiffsExist(ThePart())
    ensures forall change, expected, since, current :: HasRebase(ThePart(), change, expected, since, current)
  {
    forall s, t ensures HasDiff(ThePart(), s, t) {
      var x := HasDocument(s);
      var y := HasDocument(t);
      assert ThePart().diffs(s, t, Difference(x, y));
    }
    forall change, expected, since, current ensures HasRebase(ThePart(), change, expected, since, current) {
      var x := HasDocument(expected);
      var y := HasDocument(current);
      RebasedCorrect(x, since, y);
      assert ThePart().rebases(change, expected, since, current, Rebased(x, since, y).value);
    }
  }

  // ----- Name by name -----

  predicate Touched(since: seq<Delta>, n: string) {
    exists d <- since :: n in PropertyDelta.Names(d)
  }

  lemma {:induction false} TouchedDecides(s: Properties, t: Properties, since: seq<Delta>, n: string)
    ensures ApplyAll(Ops(), s, since).Some? && ApplyAll(Ops(), t, since).Some?
    ensures var r, q := ApplyAll(Ops(), s, since).value, ApplyAll(Ops(), t, since).value;
      if Touched(since, n) then (n in r <==> n in q) && (n in r ==> r[n] == q[n])
      else (n in r <==> n in s) && (n in r ==> r[n] == s[n])
  {
    if since != [] {
      var front, last := since[..|since| - 1], since[|since| - 1];
      assert since == front + [last];
      TouchedDecides(s, t, front, n);
      PropertyDelta.ApplyByName(ApplyAll(Ops(), s, front).value, last, n);
      PropertyDelta.ApplyByName(ApplyAll(Ops(), t, front).value, last, n);
    }
  }

  /** After the rebased change, every name touched since the base has the server's current value and every
      other name the value that the client expected; and the change mentions only names of the client's change
      that the server has not touched. */
  lemma RebaseIsMerge(base: Delta, change: Delta, expected: Delta, since: seq<Delta>, current: Delta, n: string)
    requires PropertyDelta.IsDocument(expected) && PropertyDelta.IsDocument(current)
    requires PropertyDelta.Contents(expected) == PropertyDelta.Apply(PropertyDelta.Contents(base), change)
    requires Some(PropertyDelta.Contents(current)) == ApplyAll(Ops(), PropertyDelta.Contents(base), since)
    ensures Rebased(expected, since, current).Some?
    ensures var r := PropertyDelta.Apply(PropertyDelta.Contents(current), Rebased(expected, since, current).value);
            var winner := PropertyDelta.Contents(if Touched(since, n) then current else expected);
      (n in r <==> n in winner) && (n in r ==> r[n] == winner[n])
    ensures n in PropertyDelta.Names(Rebased(expected, since, current).value) ==>
      n in PropertyDelta.Names(change) && !Touched(since, n)
  {
    RebasedCorrect(expected, since, current);
    var final := ComposeAll(Ops(), expected, since, true).value;
    DifferenceCorrect(current, final);
    TouchedDecides(PropertyDelta.Contents(expected), PropertyDelta.Contents(base), since, n);
    TouchedDecides(PropertyDelta.Contents(base), PropertyDelta.Contents(expected), since, n);
    PropertyDelta.ApplyByName(PropertyDelta.Contents(base), change, n);
  }
}
