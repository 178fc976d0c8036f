/** Transformation of body deltas, checked against what merging means. */
module BodyTransform {
  import opened BodyDelta
  import opened BodyLaws

  // ----- What a merge of two concurrent deltas is: element by element, and gap by gap -----

  /** What a delta inserts in front of old element `i` (or at the end, when `i` is the old length). */
  function Gap(d: Delta, i: nat): seq<Elem> {
    if d == [] then []
    else if d[0].IsInsert() then (if i == 0 then d[0].Inserted() else []) + Gap(d[1..], i)
    else if i < d[0].Consumed() then []
    else Gap(d[1..], i - d[0].Consumed())
  }

  /** Whether old element `i` survives a delta. */
  predicate Keeps(d: Delta, i: nat) {
    if d == [] then true
    else if i < d[0].Consumed() then d[0].Retain?
    else Keeps(d[1..], i - d[0].Consumed())
  }

  function Both(x: seq<Elem>, y: seq<Elem>, xIsFirst: bool): seq<Elem> {
    if xIsFirst then x + y else y + x
  }

  /** The part of the merge that belongs to old element `i`: both insertions in front of it, those of the
      winner first, and then the element itself if both deltas keep it. */
  function Here(doc: seq<Elem>, a: Delta, b: Delta, aIsFirst: bool, i: nat): seq<Elem> {
    Both(Gap(a, i), Gap(b, i), aIsFirst) + if i < |doc| && Keeps(a, i) && Keeps(b, i) then [doc[i]] else []
  }

  /** The merge from old element `i` on. */
  function WeaveFrom(doc: seq<Elem>, a: Delta, b: Delta, aIsFirst: bool, i: nat): seq<Elem>
    requires i <= |doc|
    decreases |doc| - i
  {
    Here(doc, a, b, aIsFirst, i) + if i == |doc| then [] else WeaveFrom(doc, a, b, aIsFirst, i + 1)
  }

  /** The merge of two concurrent deltas. */
  function Weave(doc: seq<Elem>, a: Delta, b: Delta, aIsFirst: bool): seq<Elem> {
    WeaveFrom(doc, a, b, aIsFirst, 0)
  }

  // ----- Properties of the merge -----

  lemma WeaveOne(doc: seq<Elem>, a: Delta, b: Delta, p: bool, i: nat)
    requires i < |doc|
    ensures WeaveFrom(doc, a, b, p, i) == Here(doc, a, b, p, i) + WeaveFrom(doc, a, b, p, i + 1)
  {
    hide Here;
  }

  lemma WeaveNone(doc: seq<Elem>, a: Delta, b: Delta, p: bool)
    ensures WeaveFrom(doc, a, b, p, |doc|) == Here(doc, a, b, p, |doc|)
  {
    hide Here;
  }

  lemma HereSymmetric(doc: seq<Elem>, a: Delta, b: Delta, aIsFirst: bool, i: nat)
    ensures Here(doc, a, b, aIsFirst, i) == Here(doc, b, a, !aIsFirst, i)
  {
    hide Gap, Keeps;
  }

  lemma {:induction false} WeaveSymmetricFrom(doc: seq<Elem>, a: Delta, b: Delta, aIsFirst: bool, i: nat)
    requires i <= |doc|
    ensures WeaveFrom(doc, a, b, aIsFirst, i) == WeaveFrom(doc, b, a, !aIsFirst, i)
    decreases |doc| - i
  {
    HereSymmetric(doc, a, b, aIsFirst, i);
    hide Here;
    if i < |doc| { WeaveSymmetricFrom(doc, a, b, aIsFirst, i + 1); }
  }

  lemma WeaveSymmetric(doc: seq<Elem>, a: Delta, b: Delta, aIsFirst: bool)
    ensures Weave(doc, a, b, aIsFirst) == Weave(doc, b, a, !aIsFirst)
  {
    WeaveSymmetricFrom(doc, a, b, aIsFirst, 0);
  }

  /** `d` without the first `k` old elements, none of which it inserts in front of. */
  function Beyond(d: Delta, k: Count): Delta
    requires d != [] ==> !d[0].IsInsert() && k <= d[0].Length()
  {
    if d == [] then [] else DropHead(d, k)
  }

  predicate KeepsHead(d: Delta) {
    d == [] || d[0].Retain?
  }

  lemma GapBeyond(d: Delta, k: Count, i: nat)
    requires d != [] ==> !d[0].IsInsert() && k <= d[0].Length()
    ensures i < k ==> Gap(d, i) == [] && Keeps(d, i) == KeepsHead(d)
    ensures Gap(d, k + i) == Gap(Beyond(d, k), i)
    ensures Keeps(d, k + i) == Keeps(Beyond(d, k), i)
  {
    if d != [] && k < d[0].Length() {
      assert Beyond(d, k)[1..] == d[1..];
    }
  }

  lemma HereKept(doc: seq<Elem>, a: Delta, b: Delta, p: bool, k: nat, i: nat)
    requires a != [] ==> !a[0].IsInsert() && k <= a[0].Length()
    requires b != [] ==> !b[0].IsInsert() && k <= b[0].Length()
    requires i < k <= |doc|
    ensures Here(doc, a, b, p, i) == if KeepsHead(a) && KeepsHead(b) then [doc[i]] else []
  {
    GapBeyond(a, k, i);
    GapBeyond(b, k, i);
    var none: seq<Elem> := [];
    Whole(none);
    Whole([doc[i]]);
  }

  lemma HereBeyond(doc: seq<Elem>, a: Delta, b: Delta, p: bool, k: Count, i: nat)
    requires a != [] ==> !a[0].IsInsert() && k <= a[0].Length()
    requires b != [] ==> !b[0].IsInsert() && k <= b[0].Length()
    requires k <= |doc|
    ensures Here(doc, a, b, p, k + i) == Here(doc[k..], Beyond(a, k), Beyond(b, k), p, i)
  {
    GapBeyond(a, k, i);
    GapBeyond(b, k, i);
  }

  /** Where neither delta starts with an insertion, what comes first are the elements that both keep. */
  lemma {:induction false} WeaveKept(doc: seq<Elem>, a: Delta, b: Delta, p: bool, k: nat, i: nat)
    requires a != [] ==> !a[0].IsInsert() && k <= a[0].Length()
    requires b != [] ==> !b[0].IsInsert() && k <= b[0].Length()
    requires i <= k <= |doc|
    ensures WeaveFrom(doc, a, b, p, i) ==
      (if KeepsHead(a) && KeepsHead(b) then doc[i..k] else []) + WeaveFrom(doc, a, b, p, k)
    decreases k - i
  {
    hide WeaveFrom, Here, KeepsHead;
    var rest := WeaveFrom(doc, a, b, p, k);
    if i == k {
      assert doc[i..k] == [];
      Whole(rest);
    } else {
      HereKept(doc, a, b, p, k, i);
      WeaveKept(doc, a, b, p, k, i + 1);
      WeaveOne(doc, a, b, p, i);
      if KeepsHead(a) && KeepsHead(b) {
        FirstOf(doc, i, k);
        Assoc([doc[i]], doc[i + 1..k], rest);
      } else {
        Whole(rest);
      }
    }
  }

  /** What comes after is the merge of the deltas without what they consume first. */
  lemma {:induction false} WeaveBeyond(doc: seq<Elem>, a: Delta, b: Delta, p: bool, k: Count, i: nat)
    requires a != [] ==> !a[0].IsInsert() && k <= a[0].Length()
    requires b != [] ==> !b[0].IsInsert() && k <= b[0].Length()
    requires k + i <= |doc|
    ensures WeaveFrom(doc, a, b, p, k + i) == WeaveFrom(doc[k..], Beyond(a, k), Beyond(b, k), p, i)
    decreases |doc| - i
  {
    hide Here, WeaveFrom, Beyond;
    HereBeyond(doc, a, b, p, k, i);
    if k + i < |doc| {
      WeaveBeyond(doc, a, b, p, k, i + 1);
      WeaveOne(doc, a, b, p, k + i);
      WeaveOne(doc[k..], Beyond(a, k), Beyond(b, k), p, i);
    } else {
      WeaveNone(doc, a, b, p);
      WeaveNone(doc[k..], Beyond(a, k), Beyond(b, k), p);
    }
  }

  /** When neither delta starts with an insertion, the merge starts with the elements that both keep. */
  lemma WeaveStep(doc: seq<Elem>, a: Delta, b: Delta, p: bool, k: Count)
    requires a != [] ==> !a[0].IsInsert() && k <= a[0].Length()
    requires b != [] ==> !b[0].IsInsert() && k <= b[0].Length()
    requires k <= |doc|
    ensures Weave(doc, a, b, p) ==
      (if KeepsHead(a) && KeepsHead(b) then doc[..k] else []) + Weave(doc[k..], Beyond(a, k), Beyond(b, k), p)
  {
    hide WeaveFrom;
    var tail := WeaveFrom(doc, a, b, p, k);
    assert Weave(doc, a, b, p) == (if KeepsHead(a) && KeepsHead(b) then doc[..k] else []) + tail by {
      WeaveKept(doc, a, b, p, k, 0);
      Whole(doc[..k]);
    }
    assert tail == Weave(doc[k..], Beyond(a, k), Beyond(b, k), p) by {
      WeaveBeyond(doc, a, b, p, k, 0);
    }
  }

  lemma HereElsewhere(doc: seq<Elem>, a: Delta, b: Delta, p: bool, i: nat)
    requires a != [] && a[0].IsInsert()
    requires p || b == [] || !b[0].IsInsert()
    requires i >= 1
    ensures Here(doc, a, b, p, i) == Here(doc, a[1..], b, p, i)
  {
    HereInsert(doc, a, b, p, i);
    Whole(Here(doc, a[1..], b, p, i));
  }

  lemma {:induction false} InsertElsewhere(doc: seq<Elem>, a: Delta, b: Delta, p: bool, i: nat)
    requires a != [] && a[0].IsInsert()
    requires p || b == [] || !b[0].IsInsert()
    requires 1 <= i <= |doc|
    ensures WeaveFrom(doc, a, b, p, i) == WeaveFrom(doc, a[1..], b, p, i)
    decreases |doc| - i
  {
    hide Here;
    HereElsewhere(doc, a, b, p, i);
    if i < |doc| { InsertElsewhere(doc, a, b, p, i + 1); }
  }

  /** An insertion at the front of a delta comes first, unless the other delta wins and starts with one too. */
  lemma WeaveInsert(doc: seq<Elem>, a: Delta, b: Delta, p: bool)
    requires a != [] && a[0].IsInsert()
    requires p || b == [] || !b[0].IsInsert()
    ensures Weave(doc, a, b, p) == a[0].Inserted() + Weave(doc, a[1..], b, p)
  {
    HereInsert(doc, a, b, p, 0);
    var rest := if |doc| == 0 then [] else WeaveFrom(doc, a[1..], b, p, 1);
    if |doc| > 0 { InsertElsewhere(doc, a, b, p, 1); }
    Assoc(a[0].Inserted(), Here(doc, a[1..], b, p, 0), rest);
  }

  lemma BothCons(ins: seq<Elem>, x: seq<Elem>, y: seq<Elem>, p: bool)
    requires p || y == [] || ins == []
    ensures Both(ins + x, y, p) == ins + Both(x, y, p)
  {
    if p {
      Assoc(ins, x, y);
    } else {
      Whole(x);
      Whole(ins + x);
      Whole(y + x);
    }
  }

  lemma GapFirst(b: Delta)
    requires b == [] || !b[0].IsInsert()
    ensures Gap(b, 0) == []
  {
  }

  lemma HereInsert(doc: seq<Elem>, a: Delta, b: Delta, p: bool, i: nat)
    requires a != [] && a[0].IsInsert()
    requires p || b == [] || !b[0].IsInsert()
    ensures Here(doc, a, b, p, i) ==
      (if i == 0 then a[0].Inserted() else []) + Here(doc, a[1..], b, p, i)
  {
    var ins, ga, gb := if i == 0 then a[0].Inserted() else [], Gap(a[1..], i), Gap(b, i);
    if !p && i == 0 { GapFirst(b); }
    BothCons(ins, ga, gb, p);
    Assoc(ins, Both(ga, gb, p), if i < |doc| && Keeps(a, i) && Keeps(b, i) then [doc[i]] else []);
  }

  // ----- Transformation produces the merge -----

  lemma {:induction false} WeaveAlone(doc: seq<Elem>, d: Delta, p: bool)
    requires Span(d) <= |doc|
    ensures Weave(doc, d, [], p) == Apply(doc, d)
    decreases |d|
  {
    if d == [] {
      WeaveNothing(doc, p);
    } else {
      ApplyHead(doc, d);
      if d[0].IsInsert() {
        WeaveInsert(doc, d, [], p);
        assert doc[0..] == doc;
      } else {
        WeaveStep(doc, d, [], p, d[0].Length());
      }
      WeaveAlone(doc[d[0].Consumed()..], d[1..], p);
    }
  }

  lemma WeaveNothing(doc: seq<Elem>, p: bool)
    ensures Weave(doc, [], [], p) == doc
  {
    WeaveKept(doc, [], [], p, |doc|, 0);
    assert doc[0..|doc|] == doc;
    assert Here(doc, [], [], p, |doc|) == [];
    Whole(doc);
  }

  lemma {:induction false} ShiftIsWeave(doc: seq<Elem>, a: Delta, b: Delta, p: bool)
    requires Span(a) <= |doc| && Span(b) <= |doc|
    ensures Span(Shift(a, b, p)) <= |Apply(doc, a)|
    ensures Apply(Apply(doc, a), Shift(a, b, p)) == Weave(doc, a, b, p)
    decreases Size(a) + Size(b), |a| + |b|
  {
    if a == [] {
      WeaveSymmetric(doc, a, b, p);
      WeaveAlone(doc, b, !p);
    } else if b == [] {
      WeaveAlone(doc, a, p);
    } else if a[0].IsInsert() && (p || !b[0].IsInsert()) {
      var ins: BodyOp := Retain(a[0].Length());
      var mid, rest := Apply(doc, a), Shift(a[1..], b, p);
      ShiftIsWeave(doc, a[1..], b, p);
      WeaveInsert(doc, a, b, p);
      assert mid[..ins.count] == a[0].Inserted() && mid[ins.count..] == Apply(doc, a[1..]);
      ApplyCons(mid, ins, rest);
    } else if b[0].IsInsert() {
      ShiftIsWeave(doc, a, b[1..], p);
      ApplyCons(Apply(doc, a), b[0], Shift(a, b[1..], p));
      WeaveSymmetric(doc, a, b, p);
      WeaveSymmetric(doc, a, b[1..], p);
      WeaveInsert(doc, b, a, !p);
      assert Apply(doc, a)[0..] == Apply(doc, a);
    } else {
      ShiftBoth(doc, a, b, p, if a[0].Length() <= b[0].Length() then a[0].Length() else b[0].Length());
    }
  }

  lemma {:induction false} ShiftBoth(doc: seq<Elem>, a: Delta, b: Delta, p: bool, k: Count)
    requires Span(a) <= |doc| && Span(b) <= |doc|
    requires a != [] && b != [] && !a[0].IsInsert() && !b[0].IsInsert()
    requires k == if a[0].Length() <= b[0].Length() then a[0].Length() else b[0].Length()
    ensures Span(Shift(a, b, p)) <= |Apply(doc, a)|
    ensures Apply(Apply(doc, a), Shift(a, b, p)) == Weave(doc, a, b, p)
    decreases Size(a) + Size(b), |a| + |b|, 0
  {
    var a', b' := DropHead(a, k), DropHead(b, k);
    ApplySplit(doc, a, k);
    ApplySplit(doc, b, k);
    ShiftIsWeave(doc[k..], a', b', p);
    WeaveStep(doc, a, b, p, k);
    var mid, rest := Apply(doc[k..], a'), Shift(a', b', p);
    if a[0].Delete? {
      Whole(mid);
      Whole(Apply(mid, rest));
    } else {
      ShiftKept(doc, mid, b[0], k, rest);
    }
  }

  /** The step of a transformation over elements that the first delta keeps. */
  lemma ShiftKept(doc: seq<Elem>, mid: seq<Elem>, op: BodyOp, k: Count, rest: Delta)
    requires !op.IsInsert() && k <= op.Length() && k <= |doc| && Span(rest) <= |mid|
    ensures var d := [Take(op, k)] + rest;
      && Span(d) <= |doc[..k] + mid|
      && Apply(doc[..k] + mid, d) == (if op.Retain? then doc[..k] else []) + Apply(mid, rest)
  {
    ApplyAfter(doc[..k], mid, Take(op, k), rest);
    assert doc[..k][..k] == doc[..k];
  }

  lemma ApplyAfter(front: seq<Elem>, back: seq<Elem>, op: BodyOp, rest: Delta)
    requires op.Consumed() == |front| && Span(rest) <= |back|
    ensures Span([op] + rest) == |front| + Span(rest)
    ensures Apply(front + back, [op] + rest) == Run(front, op) + Apply(back, rest)
  {
    ApplyCons(front + back, op, rest);
    assert front[..|front|] == front;
  }

  /** Applying `a` and then `b` transformed over `a` gives the merge of `a` and `b`. */
  lemma TransformIsWeave(doc: seq<Elem>, a: Delta, b: Delta, aIsFirst: bool)
    requires Span(a) <= |doc| && Span(b) <= |doc|
    ensures Span(Transform(a, b, aIsFirst)) <= |Apply(doc, a)|
    ensures Apply(Apply(doc, a), Transform(a, b, aIsFirst)) == Weave(doc, a, b, aIsFirst)
  {
    var raw := Shift(a, b, aIsFirst);
    ShiftIsWeave(doc, a, b, aIsFirst);
    TidySame(Apply(doc, a), raw);
    ChopSame(Apply(doc, a), Tidy(raw));
  }

  /** The diamond: two concurrent deltas reach the same body in either order. */
  lemma Diamond(doc: seq<Elem>, a: Delta, b: Delta, aIsFirst: bool)
    requires Span(a) <= |doc| && Span(b) <= |doc|
    ensures Span(Transform(a, b, aIsFirst)) <= |Apply(doc, a)|
    ensures Span(Transform(b, a, !aIsFirst)) <= |Apply(doc, b)|
    ensures Apply(Apply(doc, a), Transform(a, b, aIsFirst)) == Apply(Apply(doc, b), Transform(b, a, !aIsFirst))
  {
    TransformIsWeave(doc, a, b, aIsFirst);
    TransformIsWeave(doc, b, a, !aIsFirst);
    WeaveSymmetric(doc, a, b, aIsFirst);
  }

  // ----- When nothing is left of a change -----

  predicate NoInserts(d: Delta) {
    forall op <- d :: !op.IsInsert()
  }

  /** Every old element that the first delta keeps is kept by the second one as well. */
  ghost predicate KeepsWhat(a: Delta, b: Delta) {
    forall i: nat :: Keeps(a, i) ==> Keeps(b, i)
  }

  lemma KeepsHeads(a: Delta, b: Delta, k: Count)
    requires a != [] && !a[0].IsInsert() && k <= a[0].Length()
    requires b != [] && !b[0].IsInsert() && k <= b[0].Length()
    ensures KeepsWhat(a, b) <==> (a[0].Retain? ==> b[0].Retain?) && KeepsWhat(DropHead(a, k), DropHead(b, k))
  {
    forall i: nat
      ensures i < k ==> Keeps(a, i) == a[0].Retain? && Keeps(b, i) == b[0].Retain?
      ensures Keeps(a, k + i) == Keeps(DropHead(a, k), i) && Keeps(b, k + i) == Keeps(DropHead(b, k), i)
    {
      GapBeyond(a, k, i);
      GapBeyond(b, k, i);
    }
    if KeepsWhat(a, b) {
      assert Keeps(a, 0) ==> Keeps(b, 0);
      forall i: nat | Keeps(DropHead(a, k), i) ensures Keeps(DropHead(b, k), i) {
        assert Keeps(a, k + i) ==> Keeps(b, k + i);
      }
    }
    if (a[0].Retain? ==> b[0].Retain?) && KeepsWhat(DropHead(a, k), DropHead(b, k)) {
      forall i: nat | Keeps(a, i) ensures Keeps(b, i) {
        if i >= k {
          var j := i - k;
          assert Keeps(a, k + j) == Keeps(DropHead(a, k), j) && Keeps(b, k + j) == Keeps(DropHead(b, k), j);
        }
      }
    }
  }

  lemma {:induction false} KeepsAll(b: Delta)
    ensures OnlyRetains(b) <==> NoInserts(b) && KeepsWhat([], b)
  {
    if b == [] {
    } else if b[0].IsInsert() {
      assert b[0] in b;
    } else {
      assert b == [b[0]] + b[1..];
      KeepsAll(b[1..]);
      forall i: nat ensures i < b[0].Length() ==> Keeps(b, i) == b[0].Retain?
        ensures Keeps(b, b[0].Length() + i) == Keeps(b[1..], i)
      {
        GapBeyond(b, b[0].Length(), i);
      }
      if KeepsWhat([], b) {
        assert Keeps([], 0) && Keeps(b, 0);
        forall i: nat ensures Keeps(b[1..], i) { assert Keeps([], b[0].Length() + i) ==> Keeps(b, b[0].Length() + i); }
      }
      if b[0].Retain? && KeepsWhat([], b[1..]) {
        forall i: nat ensures Keeps(b, i) {
          if i >= b[0].Length() { assert Keeps([], i - b[0].Length()) ==> Keeps(b[1..], i - b[0].Length()); }
        }
      }
    }
  }

  lemma {:induction false} ShiftRetains(a: Delta, b: Delta, p: bool)
    ensures OnlyRetains(Shift(a, b, p)) <==> NoInserts(b) && KeepsWhat(a, b)
    decreases Size(a) + Size(b), |a| + |b|
  {
    if a == [] {
      KeepsAll(b);
    } else if b == [] {
    } else if a[0].IsInsert() && (p || !b[0].IsInsert()) {
      ShiftRetains(a[1..], b, p);
      RetainsCons(Retain(a[0].Length()), Shift(a[1..], b, p));
      assert KeepsWhat(a, b) <==> KeepsWhat(a[1..], b) by {
        assert forall i: nat :: Keeps(a, i) == Keeps(a[1..], i);
      }
    } else if b[0].IsInsert() {
      assert b[0] in b && b[0] in Shift(a, b, p);
    } else {
      var k: Count := if a[0].Length() <= b[0].Length() then a[0].Length() else b[0].Length();
      ShiftRetains(DropHead(a, k), DropHead(b, k), p);
      KeepsHeads(a, b, k);
      NoInsertsDrop(b, k);
      var rest := Shift(DropHead(a, k), DropHead(b, k), p);
      RetainsCons(Take(b[0], k), rest);
    }
  }

  lemma NoInsertsDrop(b: Delta, k: Count)
    requires b != [] && k <= b[0].Length() && !b[0].IsInsert()
    ensures NoInserts(DropHead(b, k)) <==> NoInserts(b)
  {
    assert b == [b[0]] + b[1..];
  }

  /** Nothing is left of a transformed change exactly when it inserts nothing, and deletes only what the other
      change has deleted, too. */
  lemma VanishesExactly(a: Delta, b: Delta, aIsFirst: bool)
    ensures Transform(a, b, aIsFirst) == [] <==> NoInserts(b) && KeepsWhat(a, b)
  {
    EmptyExactly(Shift(a, b, aIsFirst));
    ShiftRetains(a, b, aIsFirst);
  }

  lemma {:induction false} ShiftCuts(a: Delta, b: Delta, p: bool)
    requires NoInserts(b)
    ensures NoInserts(Shift(a, b, p))
    decreases Size(a) + Size(b), |a| + |b|
  {
    if a == [] || b == [] {
    } else if a[0].IsInsert() {
      ShiftCuts(a[1..], b, p);
    } else {
      assert b[0] in b;
      var k: Count := if a[0].Length() <= b[0].Length() then a[0].Length() else b[0].Length();
      NoInsertsDrop(b, k);
      ShiftCuts(DropHead(a, k), DropHead(b, k), p);
    }
  }

  /** A delta that inserts nothing keeps the length of a body only by leaving it alone. */
  lemma {:induction false} CutsShorten(s: seq<Elem>, d: Delta)
    requires NoInserts(d) && Span(d) <= |s|
    ensures |Apply(s, d)| <= |s|
    ensures |Apply(s, d)| == |s| <==> OnlyRetains(d)
  {
    if d != [] {
      assert d[0] in d && d == [d[0]] + d[1..];
      RetainsCons(d[0], d[1..]);
      CutsShorten(s[d[0].Length()..], d[1..]);
    }
  }

  /** After one change, a concurrent one that inserts nothing leaves the body alone exactly when it deletes only
      what the first one has deleted, too. */
  lemma UnmovedExactly(doc: seq<Elem>, a: Delta, b: Delta, aIsFirst: bool)
    requires Span(a) <= |doc| && Span(b) <= |doc| && NoInserts(b)
    ensures Span(Transform(a, b, aIsFirst)) <= |Apply(doc, a)|
    ensures Apply(Apply(doc, a), Transform(a, b, aIsFirst)) == Apply(doc, a) <==> KeepsWhat(a, b)
  {
    hide Apply, Weave, Shift, Transform;
    TransformIsWeave(doc, a, b, aIsFirst);
    ShiftIsWeave(doc, a, b, aIsFirst);
    ShiftCuts(a, b, aIsFirst);
    ShiftRetains(a, b, aIsFirst);
    CutsShorten(Apply(doc, a), Shift(a, b, aIsFirst));
    VanishesExactly(a, b, aIsFirst);
    if KeepsWhat(a, b) { NothingKeeps(Apply(doc, a)); }
  }

  lemma NothingKeeps(s: seq<Elem>)
    ensures Apply(s, []) == s
  {
  }

  /** Merging operations does not change which elements survive. */
  lemma {:induction false} FrontKeeps(op: BodyOp, d: Delta, i: nat)
    ensures Keeps(Front(op, d), i) == Keeps([op] + d, i)
    decreases |d|
  {
    KeepsCons(op, d, i);
    if d != [] {
      var next, rest := d[0], d[1..];
      assert d == [next] + rest;
      if op.Delete? && next.IsInsert() {
        FrontKeeps(op, rest, i);
        KeepsCons(next, Front(op, rest), i);
        KeepsCons(op, rest, i);
      } else if Mergeable(op, next) {
        KeepsCons(Front(op, d)[0], rest, i);
      }
    }
  }

  lemma KeepsCons(op: BodyOp, d: Delta, i: nat)
    ensures Keeps([op] + d, i) == if i < op.Consumed() then op.Retain? else Keeps(d, i - op.Consumed())
  {
    ConsOps(op, d);
  }

  lemma ConsOps(op: BodyOp, d: Delta)
    ensures ([op] + d)[0] == op && ([op] + d)[1..] == d
  {
  }

  lemma {:induction false} TidyKeeps(d: Delta, i: nat)
    ensures Keeps(Tidy(d), i) == Keeps(d, i)
  {
    if d != [] {
      var op, rest := d[0], d[1..];
      assert d == [op] + rest;
      FrontKeeps(op, Tidy(rest), i);
      KeepsCons(op, rest, i);
      KeepsCons(op, Tidy(rest), i);
      if i >= op.Consumed() { TidyKeeps(rest, i - op.Consumed()); }
    }
  }

  // ----- Where a merge ends -----

  /** The last place at which anything survives: an insertion of either delta, or an old element. */
  ghost predicate LastPlace(doc: seq<Elem>, a: Delta, b: Delta, aIsFirst: bool, i: nat) {
    && i <= |doc| && Here(doc, a, b, aIsFirst, i) != []
    && forall j :: i < j <= |doc| ==> Here(doc, a, b, aIsFirst, j) == []
  }

  /** What comes last at a place: the old element if both deltas keep it, or else what the second one inserts there,
      or else what the first one does. */
  function LastAt(doc: seq<Elem>, a: Delta, b: Delta, i: nat): (r: Elem)
    requires i <= |doc| && Here(doc, a, b, true, i) != []
    ensures var h := Here(doc, a, b, true, i); r == h[|h| - 1]
  {
    if i < |doc| && Keeps(a, i) && Keeps(b, i) then doc[i]
    else if Gap(b, i) != [] then Gap(b, i)[|Gap(b, i)| - 1]
    else Gap(a, i)[|Gap(a, i)| - 1]
  }

  lemma {:induction false} WeaveEnds(doc: seq<Elem>, a: Delta, b: Delta, p: bool, lo: nat, i: nat)
    requires lo <= i <= |doc| && LastPlace(doc, a, b, p, i)
    ensures var w, h := WeaveFrom(doc, a, b, p, lo), Here(doc, a, b, p, i); w != [] && w[|w| - 1] == h[|h| - 1]
    decreases i - lo
  {
    hide Here, WeaveFrom;
    if lo < |doc| { WeaveOne(doc, a, b, p, lo); } else { WeaveNone(doc, a, b, p); }
    if lo < i {
      WeaveEnds(doc, a, b, p, lo + 1, i);
    } else if i < |doc| {
      NothingAfter(doc, a, b, p, i + 1);
    }
  }

  lemma {:induction false} NothingAfter(doc: seq<Elem>, a: Delta, b: Delta, p: bool, lo: nat)
    requires lo <= |doc| && forall j :: lo <= j <= |doc| ==> Here(doc, a, b, p, j) == []
    ensures WeaveFrom(doc, a, b, p, lo) == []
    decreases |doc| - lo
  {
    hide Here;
    if lo < |doc| { NothingAfter(doc, a, b, p, lo + 1); }
  }

  lemma {:induction false} HasLastPlace(doc: seq<Elem>, a: Delta, b: Delta, p: bool, hi: nat) returns (i: nat)
    requires hi <= |doc| && forall j :: hi < j <= |doc| ==> Here(doc, a, b, p, j) == []
    requires Weave(doc, a, b, p) != []
    ensures LastPlace(doc, a, b, p, i)
    decreases hi
  {
    hide Here;
    if Here(doc, a, b, p, hi) != [] {
      i := hi;
    } else if hi > 0 {
      i := HasLastPlace(doc, a, b, p, hi - 1);
    } else {
      NothingAfter(doc, a, b, p, 0);
      assert false;
    }
  }

  /** A merge is a body exactly when what survives at its last place ends with a newline. */
  lemma MergeIsBodyExactly(doc: seq<Elem>, a: Delta, b: Delta)
    ensures IsBody(Weave(doc, a, b, true)) <==>
      forall i :: LastPlace(doc, a, b, true, i) ==> LastAt(doc, a, b, i) == Char('\n')
  {
    hide Here, WeaveFrom, LastAt;
    forall i | LastPlace(doc, a, b, true, i)
      ensures Weave(doc, a, b, true) != []
      ensures Weave(doc, a, b, true)[|Weave(doc, a, b, true)| - 1] == LastAt(doc, a, b, i)
    {
      WeaveEnds(doc, a, b, true, 0, i);
    }
    if Weave(doc, a, b, true) != [] {
      var i := HasLastPlace(doc, a, b, true, |doc|);
      assert LastPlace(doc, a, b, true, i);
    }
  }
}
