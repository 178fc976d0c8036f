/** Every change in the log of a body stays within the body before it, whatever else may be wrong with it. */
module BodyFits {
  import opened Wrappers
  import opened Part
  import opened BodyDelta
  import opened BodyLaws
  import opened BodyTransform
  import opened BodyPart
  import opened ChangeLog
  import opened ServerSteps
  import opened ServerSafety

  /** The revision before has contents, and the change stays within them. */
  ghost predicate FitsAt(log: seq<Delta>, r: nat)
    requires 1 <= r < |log|
  {
    At(Ops(), log, r - 1).Some? && Span(log[r]) <= |At(Ops(), log, r - 1).value|
  }

  ghost predicate Fits(log: seq<Delta>) {
    forall r: nat :: 1 <= r < |log| ==> FitsAt(log, r)
  }

  lemma FitsMore(log: seq<Delta>, d: Delta)
    requires Fits(log) && log != []
    requires Fold(Ops(), log).Some? && Span(d) <= |Fold(Ops(), log).value|
    ensures Fits(log + [d])
  {
    var more := log + [d];
    hide Fold, Span;
    forall r: nat | 1 <= r < |more| ensures FitsAt(more, r) {
      assert more[..r] == log[..r];
      if r < |log| {
        assert FitsAt(log, r);
      } else {
        assert log[..r] == log;
      }
    }
  }

  /** What a request becomes stays within the body that it is made for. */
  lemma MadeFits(log: seq<Delta>, request: Request<Delta>, e: Body, r: nat, d: Delta, asGiven: bool)
    requires Expects(ThePart(), log, request, e) && Made(ThePart(), log, request, e, r, d, asGiven)
    ensures At(Ops(), log, r).Some? && Span(d) <= |At(Ops(), log, r).value|
  {
    hide Fold, ComposeAll, Apply, Span, ApplyAll, Weave, IsBody, Transform;
    var base := At(Ops(), log, request.base).value;
    if !asGiven {
      AtLater(Ops(), log, request.base, r);
      RebaseIsMerge(base, request.delta, e, log[request.base + 1..r + 1], At(Ops(), log, r).value);
    }
  }

  lemma AppendFits(s: Server<Body, Delta>, u: nat)
    requires Inv(ThePart(), s) && Fits(s.log)
    requires u in s.updates && s.updates[u].phase.Appending? && s.updates[u].phase.target == s.file.rev + 1
    ensures Fits(s.log + [s.updates[u].phase.toAppend])
  {
    hide Inv, Made, Expects, Fold, Span, Fits;
    var Appending(e, r, d, asGiven, _) := s.updates[u].phase;
    UpdateKnown(ThePart(), s, u);
    MadeFits(s.log, s.updates[u].request, e, r, d, asGiven);
    assert s.log[..r + 1] == s.log;
    FitsMore(s.log, d);
  }

  lemma StepFits(s: Server<Body, Delta>, s': Server<Body, Delta>, a: Action<Delta>)
    requires Inv(ThePart(), s) && Step(ThePart(), s, s', a) && Fits(s.log)
    ensures Fits(s'.log)
  {
    hide Inv, Step, Fits, ThePart;
    StepAppends(ThePart(), s, s', a);
    if s'.log != s.log {
      var u :| AppendedOne(s, s', u);
      AppendFits(s, u);
    }
  }

  lemma InitFits()
    ensures Fits([[]])
  {
  }

  /** A revision without contents is the last one, and what leads there, composed, stays within the body before it,
      but does not leave a body. */
  lemma BrokenIsLast(log: seq<Delta>, base: nat, newer: nat)
    requires Fits(log) && base < newer < |log| && At(Ops(), log, base).Some? && At(Ops(), log, newer).None?
    ensures newer == |log| - 1
    ensures var t, c := At(Ops(), log, base).value, ComposeAll(Ops(), [], log[base + 1..newer + 1], false);
      c.Some? && Span(c.value) <= |t| && !IsBody(Apply(t, c.value))
  {
    assert newer + 1 < |log| ==> FitsAt(log, newer + 1);
    assert FitsAt(log, newer);
    hide Fits, Apply, Span, Compose, IsBody;
    var since, front := log[base + 1..newer + 1], log[base + 1..newer];
    assert since == front + [log[newer]] && since[..|since| - 1] == front;
    LastBreaks(log, base, newer);
  }

  lemma LastBreaks(log: seq<Delta>, base: nat, newer: nat)
    requires base < newer < |log| && At(Ops(), log, base).Some? && At(Ops(), log, newer).None? && FitsAt(log, newer)
    ensures var t, since := At(Ops(), log, base).value, log[base + 1..newer + 1];
            var c := ComposeAll(Ops(), [], since, false);
      c.Some? && Span(c.value) <= |t| && !IsBody(Apply(t, c.value))
  {
    hide Apply, Span, Compose, IsBody, Fold;
    var t, since, front, d := At(Ops(), log, base).value, log[base + 1..newer + 1], log[base + 1..newer], log[newer];
    assert since[..|since| - 1] == front && since[|since| - 1] == d && log[..newer + 1] == log[..newer] + [d];
    var before := At(Ops(), log, newer - 1).value;
    assert log[..newer - 1 + 1] == log[..newer];
    FoldMore(Ops(), log[..newer], d);
    AtLater(Ops(), log, base, newer - 1);
    SinceComposed(t, front);
    ComposeCorrect(t, ComposeAll(Ops(), [], front, false).value, d);
  }
}
