/** Changes of a body that leave its final newline alone: composing them, applying them one after the other, and
    rebasing one over others, which gives a change that leaves the final newline alone as well. */
module BodyNewline {
  import opened Wrappers
  import opened Part
  import opened BodyDelta
  import opened BodyLaws
  import opened BodyTransform
  import opened BodyPart

  // An editor's changes do. Rebasing keeps them so, and then nothing can go wrong with the body.

  /** A change does not reach the last element of a body, if the body has one. */
  predicate Tame(s: Body, d: Delta) {
    s != [] ==> Span(d) < |s|
  }

  /** What is beyond a delta's span stays in place. */
  lemma {:induction false} ApplyFront(s: seq<Elem>, t: seq<Elem>, d: Delta)
    requires Span(d) <= |s|
    ensures Span(d) <= |s + t| && Apply(s + t, d) == Apply(s, d) + t
  {
    if d != [] {
      var k := d[0].Consumed();
      assert (s + t)[k..] == s[k..] + t;
      ApplyFront(s[k..], t, d[1..]);
      ApplyHead(s + t, d);
      ApplyHead(s, d);
      if d[0].Retain? { assert (s + t)[..k] == s[..k]; }
    }
  }

  lemma TameSplit(s: seq<Elem>, d: Delta)
    requires s != [] && Span(d) < |s|
    ensures var front, last := s[..|s| - 1], s[|s| - 1..]; Apply(s, d) == Apply(front, d) + last
  {
    var front, last := s[..|s| - 1], s[|s| - 1..];
    assert front + last == s;
    ApplyFront(front, last, d);
  }

  /** A body keeps its final newline. */
  lemma TameKeeps(s: Body, d: Delta)
    requires s != [] && Span(d) < |s|
    ensures BodyApply(s, d) == Some(Apply(s, d)) && Apply(s, d) != []
  {
    TameSplit(s, d);
  }

  lemma ComposeTame(s: seq<Elem>, a: Delta, b: Delta)
    requires s != [] && Span(a) < |s| && Span(b) < |Apply(s, a)|
    ensures Span(Compose(a, b)) < |s|
  {
    TameSplit(s, a);
    ComposeCorrect(s[..|s| - 1], a, b);
  }

  lemma TransformTame(s: seq<Elem>, a: Delta, b: Delta, aIsFirst: bool)
    requires s != [] && Span(a) < |s| && Span(b) < |s|
    ensures Span(Transform(a, b, aIsFirst)) < |Apply(s, a)|
  {
    TameSplit(s, a);
    TransformIsWeave(s[..|s| - 1], a, b, aIsFirst);
  }

  // ----- Many changes -----

  /** The changes can be applied in order, and each of them is tame. */
  predicate TameAll(s: Body, deltas: seq<Delta>) {
    deltas == [] ||
    var before, last := deltas[..|deltas| - 1], deltas[|deltas| - 1];
    && TameAll(s, before)
    && var t := ApplyAll(Ops(), s, before);
       t.Some? && Tame(t.value, last) && BodyApply(t.value, last).Some?
  }

  lemma SplitLast<T>(s: seq<T>, n: nat)
    requires n < |s|
    ensures var front := s[..|s| - 1];
      s[..n] == front[..n] && s[n..] == front[n..] + [s[|s| - 1]] && front[..n] + front[n..] == front
  {
  }

  lemma TameLess(s: Body, deltas: seq<Delta>)
    requires TameAll(s, deltas) && deltas != []
    ensures var before, last := deltas[..|deltas| - 1], deltas[|deltas| - 1];
      && TameAll(s, before)
      && var t := ApplyAll(Ops(), s, before);
         t.Some? && Tame(t.value, last) && BodyApply(t.value, last).Some?
  {
  }

  lemma TameDefined(s: Body, deltas: seq<Delta>)
    requires TameAll(s, deltas)
    ensures ApplyAll(Ops(), s, deltas).Some?
  {
  }

  lemma TameMore(s: Body, deltas: seq<Delta>, t: Body, d: Delta)
    requires TameAll(s, deltas) && ApplyAll(Ops(), s, deltas) == Some(t)
    requires Tame(t, d) && BodyApply(t, d).Some?
    ensures TameAll(s, deltas + [d])
  {
    assert (deltas + [d])[..|deltas|] == deltas;
  }

  lemma {:induction false} TamePrefix(s: Body, deltas: seq<Delta>, n: nat)
    requires TameAll(s, deltas) && n <= |deltas|
    ensures TameAll(s, deltas[..n])
    decreases |deltas|
  {
    if n == |deltas| {
      assert deltas[..n] == deltas;
    } else {
      TamePrefix(s, deltas[..|deltas| - 1], n);
      assert deltas[..|deltas| - 1][..n] == deltas[..n];
    }
  }

  lemma {:induction false} TameRest(s: Body, deltas: seq<Delta>, n: nat)
    requires TameAll(s, deltas) && n <= |deltas|
    ensures ApplyAll(Ops(), s, deltas[..n]).Some?
    ensures TameAll(ApplyAll(Ops(), s, deltas[..n]).value, deltas[n..])
    decreases |deltas|
  {
    if n == |deltas| {
      assert deltas[..n] == deltas;
      TameDefined(s, deltas);
    } else {
      hide TameAll, ApplyAll, BodyApply, Tame;
      var before, last := deltas[..|deltas| - 1], deltas[|deltas| - 1];
      var front, rest := before[..n], before[n..];
      TameLess(s, deltas);
      TameRest(s, before, n);
      SplitLast(deltas, n);
      ApplyAllConcat(Ops(), s, front, rest);
      var t := ApplyAll(Ops(), s, before).value;
      TameMore(ApplyAll(Ops(), s, front).value, rest, t, last);
    }
  }

  /** Composed, tame changes are tame again. */
  lemma {:induction false} ComposeAllTame(base: Body, since: seq<Delta>)
    requires base != [] && TameAll(base, since)
    ensures var server := ComposeAll(Ops(), [], since, false);
      && server.Some? && Span(server.value) < |base|
      && Some(Apply(base, server.value)) == ApplyAll(Ops(), base, since) && Apply(base, server.value) != []
  {
    hide Compose, Apply, Span;
    SinceComposed(base, since);
    if since == [] {
      NothingSpans();
    } else {
      var before, last := since[..|since| - 1], since[|since| - 1];
      ComposeAllTame(base, before);
      ComposeTame(base, ComposeAll(Ops(), [], before, false).value, last);
    }
    TameKeeps(base, ComposeAll(Ops(), [], since, false).value);
  }

  lemma NothingSpans()
    ensures Span([]) == 0
  {
  }

  /** Rebasing keeps a change tame; it is then valid for the current body. */
  lemma RebaseTame(base: Body, change: Delta, since: seq<Delta>, current: Body)
    requires base != [] && Tame(base, change) && TameAll(base, since) && ApplyAll(Ops(), base, since) == Some(current)
    ensures current != [] && Rebased(change, since).Some?
    ensures Tame(current, Rebased(change, since).value) && BodyApply(current, Rebased(change, since).value).Some?
  {
    hide Transform, Apply, Span, TameAll, ApplyAll;
    ComposeAllTame(base, since);
    TransformTame(base, ComposeAll(Ops(), [], since, false).value, change, true);
    TameKeeps(current, Rebased(change, since).value);
  }
}
