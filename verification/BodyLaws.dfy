/** The laws of body deltas: composition is faithful, and transformation merges two concurrent deltas. */
module BodyLaws {
  import opened Wrappers
  import opened BodyDelta

  // ----- Sequences -----

  lemma Assoc<T>(x: seq<T>, y: seq<T>, z: seq<T>)
    ensures x + (y + z) == (x + y) + z
  {
  }

  lemma Whole<T>(s: seq<T>)
    ensures s[0..] == s && [] + s == s && s + [] == s
  {
  }

  lemma FirstOf<T>(s: seq<T>, i: nat, k: nat)
    requires i < k <= |s|
    ensures s[i..k] == [s[i]] + s[i + 1..k]
  {
  }

  // ----- One operation at a time -----

  /** What one operation makes of the front of a body. */
  function Run(doc: seq<Elem>, op: BodyOp): seq<Elem>
    requires op.Consumed() <= |doc|
  {
    if op.Retain? then doc[..op.count] else op.Inserted()
  }

  lemma ApplyHead(doc: seq<Elem>, d: Delta)
    requires d != [] && Span(d) <= |doc|
    ensures Apply(doc, d) == Run(doc, d[0]) + Apply(doc[d[0].Consumed()..], d[1..])
  {
    Whole(doc);
    if d[0].Delete? { Whole(Apply(doc[d[0].count..], d[1..])); }
  }

  lemma SpanCons(op: BodyOp, rest: Delta)
    ensures Span([op] + rest) == op.Consumed() + Span(rest)
  {
  }

  lemma ApplyCons(doc: seq<Elem>, op: BodyOp, rest: Delta)
    requires op.Consumed() + Span(rest) <= |doc|
    ensures Span([op] + rest) == op.Consumed() + Span(rest)
    ensures Apply(doc, [op] + rest) == Run(doc, op) + Apply(doc[op.Consumed()..], rest)
  {
    ApplyHead(doc, [op] + rest);
  }

  /** Two neighbours, when merged into one operation, do what they did one after the other. */
  lemma JoinOps(doc: seq<Elem>, op: BodyOp, next: BodyOp, both: BodyOp, rest: Delta)
    requires op.Consumed() + next.Consumed() + Span(rest) <= |doc|
    requires both.Consumed() == op.Consumed() + next.Consumed()
    requires Run(doc, both) == Run(doc, op) + Run(doc[op.Consumed()..], next)
    ensures Span([both] + rest) == op.Consumed() + Span([next] + rest)
    ensures Apply(doc, [both] + rest) == Run(doc, op) + Apply(doc[op.Consumed()..], [next] + rest)
  {
    hide Apply, Span;
    var tail := doc[op.Consumed()..];
    SpanCons(both, rest);
    SpanCons(next, rest);
    var x, y, z := Run(doc, op), Run(tail, next), Apply(doc[both.Consumed()..], rest);
    assert Apply(doc, [both] + rest) == (x + y) + z by { ApplyCons(doc, both, rest); }
    assert Apply(tail, [next] + rest) == y + z by { ApplyCons(tail, next, rest); }
    Assoc(x, y, z);
  }

  // ----- Merging -----

  lemma JoinRetains(doc: seq<Elem>, op: BodyOp, next: BodyOp, rest: Delta)
    requires op.Retain? && next.Retain? && op.count + next.count + Span(rest) <= |doc|
    ensures var both: BodyOp := Retain(op.count + next.count);
      && Span([both] + rest) == op.count + Span([next] + rest)
      && Apply(doc, [both] + rest) == Run(doc, op) + Apply(doc[op.count..], [next] + rest)
  {
    JoinOps(doc, op, next, Retain(op.count + next.count), rest);
  }

  lemma JoinDeletes(doc: seq<Elem>, op: BodyOp, next: BodyOp, rest: Delta)
    requires op.Delete? && next.Delete? && op.count + next.count + Span(rest) <= |doc|
    ensures var both: BodyOp := Delete(op.count + next.count);
      && Span([both] + rest) == op.count + Span([next] + rest)
      && Apply(doc, [both] + rest) == Run(doc, op) + Apply(doc[op.count..], [next] + rest)
  {
    var none: seq<Elem> := [];
    Whole(none);
    JoinOps(doc, op, next, Delete(op.count + next.count), rest);
  }

  lemma JoinTexts(doc: seq<Elem>, op: BodyOp, next: BodyOp, rest: Delta)
    requires op.Text? && next.Text? && Span(rest) <= |doc|
    ensures var both: BodyOp := Text(op.text + next.text);
      && Span([both] + rest) == Span([next] + rest)
      && Apply(doc, [both] + rest) == Run(doc, op) + Apply(doc[0..], [next] + rest)
  {
    hide Apply, Span;
    var both: BodyOp := Text(op.text + next.text);
    assert both.Inserted() == op.Inserted() + next.Inserted();
    JoinOps(doc, op, next, both, rest);
  }

  /** A deletion and an insertion may change places. */
  lemma DeleteBehind(doc: seq<Elem>, n: Count, ins: BodyOp, rest: Delta, moved: Delta)
    requires ins.IsInsert() && n + Span(rest) <= |doc|
    requires Span(moved) == n + Span(rest) && Apply(doc, moved) == Apply(doc[n..], rest)
    ensures Span([ins] + moved) == n + Span([ins] + rest)
    ensures Apply(doc, [ins] + moved) == Apply(doc[n..], [ins] + rest)
  {
    hide Apply, Span;
    ApplyCons(doc, ins, moved);
    ApplyCons(doc[n..], ins, rest);
    Whole(doc);
    Whole(doc[n..]);
  }

  lemma {:induction false} FrontSame(doc: seq<Elem>, op: BodyOp, d: Delta)
    requires op.Consumed() + Span(d) <= |doc|
    ensures Span(Front(op, d)) == op.Consumed() + Span(d)
    ensures Apply(doc, Front(op, d)) == Run(doc, op) + Apply(doc[op.Consumed()..], d)
    decreases |d|
  {
    hide Apply, Span;
    if d == [] {
      Whole([op]);
      ApplyCons(doc, op, d);
    } else {
      var next, rest := d[0], d[1..];
      assert d == [next] + rest;
      SpanCons(next, rest);
      if op.Text? && next.Text? {
        JoinTexts(doc, op, next, rest);
      } else if op.Retain? && next.Retain? {
        JoinRetains(doc, op, next, rest);
      } else if op.Delete? && next.Delete? {
        JoinDeletes(doc, op, next, rest);
      } else if op.Delete? && next.IsInsert() {
        FrontSame(doc, op, rest);
        Whole(Apply(doc[op.count..], rest));
        DeleteBehind(doc, op.count, next, rest, Front(op, rest));
        Whole(Apply(doc[op.count..], d));
      } else {
        ApplyCons(doc, op, d);
      }
    }
  }

  /** Merging neighbours never changes what a delta does. */
  lemma {:induction false} TidySame(doc: seq<Elem>, d: Delta)
    requires Span(d) <= |doc|
    ensures Span(Tidy(d)) == Span(d) && Apply(doc, Tidy(d)) == Apply(doc, d)
    decreases |d|
  {
    if d != [] {
      var n := d[0].Consumed();
      TidySame(doc[n..], d[1..]);
      FrontSame(doc, d[0], Tidy(d[1..]));
      ApplyHead(doc, d);
    }
  }

  /** Nor does dropping a final retain. */
  lemma {:induction false} ChopSame(doc: seq<Elem>, d: Delta)
    requires Span(d) <= |doc|
    ensures Span(Chop(d)) <= Span(d) && Apply(doc, Chop(d)) == Apply(doc, d)
    decreases |d|
  {
    if d != [] {
      ApplyHead(doc, d);
      if |d| == 1 && d[0].Retain? {
        assert doc[..d[0].count] + doc[d[0].count..] == doc;
      } else {
        ChopSame(doc[d[0].Consumed()..], d[1..]);
        ApplyCons(doc, d[0], Chop(d[1..]));
      }
    }
  }

  // ----- Normal form -----

  /** Operations that may not be next to each other in a tidy delta. */
  predicate Mergeable(x: BodyOp, y: BodyOp) {
    (x.Text? && y.Text?) || (x.Retain? && y.Retain?) || (x.Delete? && (y.Delete? || y.IsInsert()))
  }

  predicate Normal(d: Delta) {
    forall i :: 0 <= i < |d| - 1 ==> !Mergeable(d[i], d[i + 1])
  }

  lemma NormalCons(op: BodyOp, d: Delta)
    requires Normal(d) && (d != [] ==> !Mergeable(op, d[0]))
    ensures Normal([op] + d)
  {
  }

  lemma {:induction false} FrontNormal(op: BodyOp, d: Delta)
    requires Normal(d)
    ensures Normal(Front(op, d)) && Front(op, d) != []
    ensures var first := Front(op, d)[0];
      if op.Delete? && d != [] && d[0].IsInsert() then first == d[0]
      else (first.Text? <==> op.Text?) && (first.Retain? <==> op.Retain?) && (first.Delete? <==> op.Delete?)
    decreases |d|
  {
    if d != [] {
      var next, rest := d[0], d[1..];
      if op.Delete? && next.IsInsert() {
        FrontNormal(op, rest);
        NormalCons(next, Front(op, rest));
      } else if !Mergeable(op, next) {
        NormalCons(op, d);
      } else if op.Text? {
        NormalCons(Text(op.text + next.text), rest);
      } else if op.Retain? {
        NormalCons(Retain(op.count + next.count), rest);
      } else {
        NormalCons(Delete(op.count + next.count), rest);
      }
    }
  }

  /** Tidying leaves no neighbours that could be merged, and no deletion in front of an insertion. */
  lemma {:induction false} TidyNormal(d: Delta)
    ensures Normal(Tidy(d))
  {
    if d != [] {
      TidyNormal(d[1..]);
      FrontNormal(d[0], Tidy(d[1..]));
    }
  }

  predicate OnlyRetains(d: Delta) {
    forall op <- d :: op.Retain?
  }

  lemma RetainsCons(op: BodyOp, d: Delta)
    ensures OnlyRetains([op] + d) <==> op.Retain? && OnlyRetains(d)
  {
    assert op in [op] + d;
    assert forall x <- d :: x in [op] + d;
  }

  lemma {:induction false} FrontRetains(op: BodyOp, d: Delta)
    ensures OnlyRetains(Front(op, d)) <==> op.Retain? && OnlyRetains(d)
    decreases |d|
  {
    RetainsCons(op, d);
    if d != [] {
      var next, rest := d[0], d[1..];
      assert d == [next] + rest;
      RetainsCons(next, rest);
      if op.Delete? && next.IsInsert() {
        FrontRetains(op, rest);
        RetainsCons(next, Front(op, rest));
      } else if Mergeable(op, next) {
        RetainsCons(Front(op, d)[0], rest);
      }
    } else {
      assert [op] + d == [op];
    }
  }

  lemma {:induction false} TidyRetains(d: Delta)
    ensures OnlyRetains(Tidy(d)) <==> OnlyRetains(d)
  {
    if d != [] {
      TidyRetains(d[1..]);
      FrontRetains(d[0], Tidy(d[1..]));
      assert d == [d[0]] + d[1..];
    }
  }

  /** A delta comes out empty exactly when it has nothing but retains. */
  lemma EmptyExactly(d: Delta)
    ensures Chop(Tidy(d)) == [] <==> OnlyRetains(d)
  {
    TidyRetains(d);
    TidyNormal(d);
    var r := Tidy(d);
    if |r| > 1 {
      assert !Mergeable(r[0], r[1]) && r[0] in r && r[1] in r;
    } else if |r| == 1 {
      assert r == [r[0]];
    }
  }

  // ----- Composition -----

  lemma RunSplit(doc: seq<Elem>, op: BodyOp, k: Count)
    requires k < op.Length() && op.Consumed() <= |doc|
    ensures var h, t := Take(op, k), Drop(op, k);
      h.Consumed() + t.Consumed() == op.Consumed() && Run(doc, op) == Run(doc, h) + Run(doc[h.Consumed()..], t)
  {
    match op
    case Retain(n) =>
    case Delete(_) =>
    case Text(t) => assert op.Inserted() == Take(op, k).Inserted() + Drop(op, k).Inserted();
  }

  /** An operation may be cut in two without changing what it does. */
  lemma SplitOp(doc: seq<Elem>, op: BodyOp, k: Count, rest: Delta)
    requires k < op.Length() && op.Consumed() + Span(rest) <= |doc|
    ensures var h, t := Take(op, k), Drop(op, k);
      && h.Consumed() + t.Consumed() == op.Consumed()
      && Span([t] + rest) == t.Consumed() + Span(rest)
      && Run(doc, op) + Apply(doc[op.Consumed()..], rest) ==
         Run(doc, h) + Apply(doc[h.Consumed()..], [t] + rest)
  {
    var h, t := Take(op, k), Drop(op, k);
    var tail := doc[h.Consumed()..];
    RunSplit(doc, op, k);
    var x, y, z := Run(doc, h), Run(tail, t), Apply(doc[op.Consumed()..], rest);
    assert Apply(tail, [t] + rest) == y + z by { ApplyCons(tail, t, rest); }
    SpanCons(t, rest);
    Assoc(x, y, z);
  }

  /** A delta may be cut inside its first operation without changing what it does. */
  lemma ApplySplit(doc: seq<Elem>, d: Delta, k: Count)
    requires d != [] && k <= d[0].Length()
    requires Span(d) <= |doc|
    ensures var h := Take(d[0], k);
      && h.Consumed() + Span(DropHead(d, k)) == Span(d)
      && Apply(doc, d) == Run(doc, h) + Apply(doc[h.Consumed()..], DropHead(d, k))
  {
    ApplyHead(doc, d);
    if k == d[0].Length() {
      assert d[0].Text? ==> d[0].text[..k] == d[0].text;
      assert Take(d[0], k) == d[0];
    } else {
      SplitOp(doc, d[0], k, d[1..]);
    }
  }

  lemma {:induction false} ZipCorrect(doc: seq<Elem>, a: Delta, b: Delta)
    requires Span(a) <= |doc| && Span(b) <= |Apply(doc, a)|
    ensures Span(Zip(a, b)) <= |doc|
    ensures Apply(doc, Zip(a, b)) == Apply(Apply(doc, a), b)
    decreases Size(a) + Size(b), |a| + |b|
  {
    if a == [] || b == [] {
    } else if b[0].IsInsert() {
      ZipCorrect(doc, a, b[1..]);
      ApplyCons(doc, b[0], Zip(a, b[1..]));
    } else if a[0].Delete? {
      ZipCorrect(doc[a[0].count..], a[1..], b);
      ApplyCons(doc, a[0], Zip(a[1..], b));
    } else {
      ZipBoth(doc, a, b, if a[0].Length() <= b[0].Length() then a[0].Length() else b[0].Length());
    }
  }

  /** The composition step in which both deltas consume `k` units. */
  lemma {:induction false} ZipBoth(doc: seq<Elem>, a: Delta, b: Delta, k: Count)
    requires Span(a) <= |doc| && Span(b) <= |Apply(doc, a)|
    requires a != [] && b != [] && !a[0].Delete? && !b[0].IsInsert()
    requires k == if a[0].Length() <= b[0].Length() then a[0].Length() else b[0].Length()
    ensures Span(Zip(a, b)) <= |doc|
    ensures Apply(doc, Zip(a, b)) == Apply(Apply(doc, a), b)
    decreases Size(a) + Size(b), |a| + |b|, 0
  {
    var a', b', ha, hb := DropHead(a, k), DropHead(b, k), Take(a[0], k), Take(b[0], k);
    var mid := Apply(doc, a);
    ApplySplit(doc, a, k);
    ApplySplit(mid, b, k);
    var doc' := doc[ha.Consumed()..];
    assert |Run(doc, ha)| == k;
    assert mid[..k] == Run(doc, ha) && mid[k..] == Apply(doc', a');
    ZipCorrect(doc', a', b');
    var rest := Zip(a', b');
    if b[0].Retain? {
      ApplyCons(doc, ha, rest);
    } else if a[0].Retain? {
      ApplyCons(doc, hb, rest);
    } else {
      assert doc' == doc;
    }
  }

  /** Applying a composition is the same as applying its two halves in order. */
  lemma ComposeCorrect(doc: seq<Elem>, a: Delta, b: Delta)
    requires Span(a) <= |doc| && Span(b) <= |Apply(doc, a)|
    ensures Span(Compose(a, b)) <= |doc|
    ensures Apply(doc, Compose(a, b)) == Apply(Apply(doc, a), b)
  {
    ZipCorrect(doc, a, b);
    TidySame(doc, Zip(a, b));
  }
}
