/** What every handler of the body client keeps. */
module BodyClientSafety {
  import opened Wrappers
  import opened BodyDelta
  import opened BodyLaws
  import opened BodyTransform
  import opened BodyPart
  import opened ChangeLog
  import opened BodyClient

  // The editor shows the snapshot, with the change in flight and then the user's pending edits on top.

  // ----- The user's pending edits -----

  /** The text changes of the user, in order; our own are not among them. */
  function UserDeltas(events: seq<Event>): seq<Delta> {
    if events == [] then []
    else (if events[0].TextChange? && events[0].source.User? then [events[0].delta] else []) + UserDeltas(events[1..])
  }

  /** The contents after all of these deltas, if each is within bounds. */
  function Show(s: seq<Elem>, deltas: seq<Delta>): Option<seq<Elem>>
    decreases |deltas|
  {
    if deltas == [] then Some(s)
    else if Span(deltas[0]) > |s| then None
    else Show(Apply(s, deltas[0]), deltas[1..])
  }

  /** The sources of the text changes, in order. */
  function Sources(events: seq<Event>): seq<Source> {
    if events == [] then []
    else (if events[0].TextChange? then [events[0].source] else []) + Sources(events[1..])
  }

  predicate UserFrom(sources: seq<Source>, k: nat) {
    forall i :: k <= i < |sources| ==> sources[i].User?
  }

  /** The text changes of the chain are: those of the user; or one of our own and then those of the user; or
      the synthetic one, one of our own, and then those of the user. */
  predicate Shape(sources: seq<Source>) {
    UserFrom(sources, 2) && (|sources| >= 2 && sources[0].Ours? ==> sources[1].User?)
  }

  lemma Joined<T>(x: seq<T>, y: seq<T>, z: seq<T>)
    ensures (x + y) + z == x + (y + z)
  {
  }

  lemma {:induction false} EventsConcat(a: seq<Event>, b: seq<Event>)
    ensures UserDeltas(a + b) == UserDeltas(a) + UserDeltas(b)
    ensures Sources(a + b) == Sources(a) + Sources(b)
  {
    if a == [] {
      assert a + b == b;
    } else {
      var d := if a[0].TextChange? && a[0].source.User? then [a[0].delta] else [];
      var source := if a[0].TextChange? then [a[0].source] else [];
      EventsConcat(a[1..], b);
      assert (a + b)[1..] == a[1..] + b && (a + b)[0] == a[0];
      Joined(d, UserDeltas(a[1..]), UserDeltas(b));
      Joined(source, Sources(a[1..]), Sources(b));
    }
  }

  lemma OneEvent(e: Event)
    ensures UserDeltas([e]) == if e.TextChange? && e.source.User? then [e.delta] else []
    ensures Sources([e]) == if e.TextChange? then [e.source] else []
  {
    assert UserDeltas([]) == [] && Sources([]) == [];
  }

  lemma {:induction false} ShowConcat(s: seq<Elem>, a: seq<Delta>, b: seq<Delta>)
    ensures Show(s, a + b) == match Show(s, a) case None => None case Some(t) => Show(t, b)
    decreases |a|
  {
    if a == [] {
      assert a + b == b;
    } else if Span(a[0]) <= |s| {
      ShowConcat(Apply(s, a[0]), a[1..], b);
      assert (a + b)[1..] == a[1..] + b;
    }
  }

  lemma {:induction false} FirstText(events: seq<Event>)
    ensures NextText(events).None? ==> UserDeltas(events) == [] && Sources(events) == []
    ensures NextText(events).Some? ==>
      var i := NextText(events).value;
      && UserDeltas(events) == (if events[i].source.User? then [events[i].delta] else []) + UserDeltas(events[i + 1..])
      && Sources(events) == [events[i].source] + Sources(events[i + 1..])
  {
    if events != [] && !events[0].TextChange? {
      FirstText(events[1..]);
      match NextText(events[1..])
      case None =>
      case Some(i) => assert events[1..][i + 1..] == events[i + 2..];
    }
  }

  // ----- Consuming events -----

  /** The edits composed so far lead from `s` to `t`. */
  predicate Composes(s: seq<Elem>, delta: Option<Delta>, t: seq<Elem>) {
    match delta
    case None => t == s
    case Some(d) => Span(d) <= |s| && Apply(s, d) == t
  }

  lemma UserRest(first: Source, rest: seq<Source>, k: nat)
    requires UserFrom([first] + rest, k)
    ensures UserFrom(rest, if k == 0 then 0 else k - 1)
  {
    assert forall j :: 0 <= j < |rest| ==> rest[j] == ([first] + rest)[j + 1];
  }

  lemma UserFirst(first: Source, rest: seq<Source>)
    requires UserFrom([first] + rest, 0)
    ensures first.User?
  {
    assert ([first] + rest)[0] == first;
  }

  lemma UserLater(sources: seq<Source>)
    requires UserFrom(sources, 0)
    ensures UserFrom(sources, 1)
  {
  }

  lemma ShowFirst(s: seq<Elem>, d: Delta, more: seq<Delta>)
    requires Show(s, [d] + more).Some?
    ensures Span(d) <= |s| && Show(s, [d] + more) == Show(Apply(s, d), more)
  {
    assert ([d] + more)[1..] == more;
  }

  lemma OneMoreEdit(s: seq<Elem>, delta: Option<Delta>, t: seq<Elem>, d: Delta)
    requires Composes(s, delta, t) && Span(d) <= |t|
    ensures Composes(s, Some(if delta.None? then d else Compose(delta.value, d)), Apply(t, d))
  {
    if delta.Some? { ComposeCorrect(s, delta.value, d); }
  }

  /** What is consumed leads from the old base to a new one, and what is left leads from there to what the
      editor shows. Nothing but edits of the user is left, and nothing at all if our own are included. */
  lemma {:induction false} ConsumeLeads(events: seq<Event>, includeOurs: bool, delta: Option<Delta>, s: seq<Elem>,
      t: seq<Elem>, shown: seq<Elem>)
      returns (mid: seq<Elem>)
    requires Composes(s, delta, t) && Show(t, UserDeltas(events)) == Some(shown)
    requires UserFrom(Sources(events), if includeOurs then 0 else 1)
    ensures var (r, rest) := Consume(events, includeOurs, delta);
      && Composes(s, r, mid) && Show(mid, UserDeltas(rest)) == Some(shown)
      && UserFrom(Sources(rest), 0) && (includeOurs ==> NextText(rest).None?)
      && (delta.Some? ==> r.Some?)
    decreases |events|
  {
    hide Apply, Show, Compose, UserDeltas, Sources, NextText;
    FirstText(events);
    match NextText(events)
    case None =>
      mid := t;
    case Some(i) =>
      var rest := events[i + 1..];
      UserRest(events[i].source, Sources(rest), if includeOurs then 0 else 1);
      if !includeOurs && events[i].source.Ours? {
        Whole(UserDeltas(rest));
        mid := t;
      } else {
        mid := ConsumeOne(events, i, includeOurs, delta, s, t, shown);
      }
  }

  lemma {:induction false} ConsumeOne(events: seq<Event>, i: nat, includeOurs: bool, delta: Option<Delta>, s: seq<Elem>,
      t: seq<Elem>, shown: seq<Elem>)
      returns (mid: seq<Elem>)
    requires NextText(events) == Some(i) && (includeOurs || events[i].source.User?)
    requires Composes(s, delta, t) && Show(t, UserDeltas(events)) == Some(shown)
    requires UserFrom(Sources(events), if includeOurs then 0 else 1) && UserFrom(Sources(events[i + 1..]), 0)
    ensures var (r, rest) := Consume(events, includeOurs, delta);
      && Composes(s, r, mid) && Show(mid, UserDeltas(rest)) == Some(shown)
      && UserFrom(Sources(rest), 0) && (includeOurs ==> NextText(rest).None?)
      && r.Some?
    decreases |events|, 0
  {
    var rest, d := events[i + 1..], events[i].delta;
    FirstText(events);
    hide Apply, Span, Compose, UserDeltas, Sources, NextText, UserFrom, Show;
    if includeOurs { UserFirst(events[i].source, Sources(rest)); }
    UserLater(Sources(rest));
    ShowFirst(t, d, UserDeltas(rest));
    OneMoreEdit(s, delta, t, d);
    mid := ConsumeLeads(rest, includeOurs, Some(if delta.None? then d else Compose(delta.value, d)), s, Apply(t, d),
      shown);
  }

  // ----- The invariant -----

  /** The contents that the user's pending edits are on top of. */
  function Base(c: Client): Option<seq<Elem>> {
    if !c.mode.Merging? then Some(c.contents)
    else if Span(c.mode.inflight) <= |c.contents| then Some(Apply(c.contents, c.mode.inflight)) else None
  }

  /** What the editor shows, and what is on the chain. The snapshot always ends with a newline. */
  predicate Inv(c: Client) {
    c.mode.Failed? ||
    (&& c.contents != []
     && Base(c).Some? && Show(Base(c).value, UserDeltas(c.events)) == Some(c.editor)
     && Shape(Sources(c.events))
     && (c.mode.Collecting? ==> c.events != [] && c.events[0].TextChange? && c.events[0].source.User?)
     && (c.mode.Merging? ==> UserFrom(Sources(c.events), 0)))
  }

  lemma NoTextNoDeltas(c: Client)
    requires !c.Pending()
    ensures UserDeltas(c.events) == []
  {
    FirstText(c.events);
  }

  // ----- Local events -----

  /** The user may edit at any time. */
  lemma TypeInv(c: Client, d: Delta)
    requires Inv(c) && Span(d) <= |c.editor|
    ensures Inv(Type(c, d))
    ensures Type(c, d) == c.(editor := Apply(c.editor, d), events := Type(c, d).events)
    ensures UserDeltas(Type(c, d).events) == UserDeltas(c.events) + [d]
  {
    TypedEvents(c.events, d);
    hide Show, UserDeltas, Sources, Shape, UserFrom, Apply, Span;
    if !c.mode.Failed? {
      TypedShape(Sources(c.events));
      ShowConcat(Base(c).value, UserDeltas(c.events), [d]);
      ShowOne(c.editor, d);
    }
  }

  lemma TypedEvents(events: seq<Event>, d: Delta)
    ensures UserDeltas(events + [TextChange(d, User)]) == UserDeltas(events) + [d]
    ensures Sources(events + [TextChange(d, User)]) == Sources(events) + [User]
  {
    EventsConcat(events, [TextChange(d, User)]);
    OneEvent(TextChange(d, User));
  }

  lemma TypedShape(sources: seq<Source>)
    ensures Shape(sources) ==> Shape(sources + [User])
    ensures UserFrom(sources, 0) ==> UserFrom(sources + [User], 0)
  {
  }

  lemma ShowOne(s: seq<Elem>, d: Delta)
    requires Span(d) <= |s|
    ensures Show(s, [d]) == Some(Apply(s, d))
  {
    assert Show(Apply(s, d), []).Some?;
  }

  lemma SelectInv(c: Client, source: Source)
    requires Inv(c)
    ensures Inv(Select(c, source))
    ensures Select(c, source) == c.(events := c.events + [SelectionChange(source)])
    ensures UserDeltas(Select(c, source).events) == UserDeltas(c.events)
  {
    var e := SelectionChange(source);
    EventsConcat(c.events, [e]);
    OneEvent(e);
    assert UserDeltas(c.events) + [] == UserDeltas(c.events) && Sources(c.events) + [] == Sources(c.events);
  }

  // ----- Updates of the snapshot -----

  /** One of our own changes at the end of a chain without text changes. */
  lemma OursAtEnd(events: seq<Event>, d: Delta)
    requires NextText(events).None?
    ensures UserDeltas(events + [TextChange(d, Ours)]) == []
    ensures Sources(events + [TextChange(d, Ours)]) == [Ours]
  {
    FirstText(events);
    EventsConcat(events, [TextChange(d, Ours)]);
    OneEvent(TextChange(d, Ours));
  }

  /** Contents that a snapshot can have. */
  predicate Proper(t: seq<Elem>) {
    t != [] && IsBody(t)
  }

  /** When the update of a snapshot fails: the change does not lead to proper contents, or the editor has to be changed
      and either the user has typed something meanwhile, or the change reaches beyond its end. A failure leaves the rest
      of the client alone. */
  lemma UpdateFailsExactly(c: Client, revNum: nat, d: Delta, editorDelta: Delta)
    requires !c.mode.Failed?
    ensures var r := UpdateWithChange(c, revNum, d, editorDelta);
      && (r.mode.Failed? <==>
            || !(Span(d) <= |c.contents| && Proper(Apply(c.contents, d)))
            || (editorDelta != [] && (c.Pending() || Span(editorDelta) > |c.editor|)))
      && (r.mode.Failed? ==> r == c.Fail())
      && (!r.mode.Failed? ==>
            && r.mode == c.mode && r.revNum == revNum && Some(r.contents) == BodyApply(c.contents, d)
            && Span(editorDelta) <= |c.editor| && r.editor == Apply(c.editor, editorDelta))
  {
    hide NextText;
    NothingApplied(c.editor);
  }

  lemma NothingApplied(s: seq<Elem>)
    ensures Span([]) == 0 && Apply(s, []) == s
  {
  }

  /** A change from the server is integrated only where the client is just idle. */
  predicate Accepts(c: Client, baseRevNum: nat) {
    c.mode.Idle? && c.revNum == baseRevNum && !c.Pending()
  }

  /** Integrating a server change while nothing is pending: the editor and the snapshot move together. This fails
      exactly when the change does not lead to proper contents. */
  lemma GotChangeAfterInv(c: Client, baseRevNum: nat, change: Change<Delta>)
    requires Inv(c)
    ensures Inv(GotChangeAfter(c, baseRevNum, change))
    ensures !Accepts(c, baseRevNum) ==> GotChangeAfter(c, baseRevNum, change) == c
    ensures Accepts(c, baseRevNum) ==>
      var r := GotChangeAfter(c, baseRevNum, change);
      && (r.mode.Failed? <==> !(Span(change.delta) <= |c.contents| && Proper(Apply(c.contents, change.delta))))
      && (!r.mode.Failed? ==>
            && r.mode.Idle? && r.revNum == change.revNum && r.editor == r.contents
            && Some(r.contents) == BodyApply(c.contents, change.delta)
            && r.events == c.events + if change.delta == [] then [] else [TextChange(change.delta, Ours)])
  {
    if Accepts(c, baseRevNum) {
      NoTextNoDeltas(c);
      if change.delta != [] { OursAtEnd(c.events, change.delta); }
    }
  }

  lemma GotQuillEventInv(c: Client, baseRevNum: nat)
    requires Inv(c)
    ensures Inv(GotQuillEvent(c, baseRevNum))
    ensures GotQuillEvent(c, baseRevNum).contents == c.contents && GotQuillEvent(c, baseRevNum).revNum == c.revNum
    ensures GotQuillEvent(c, baseRevNum).mode.Failed? <==> c.mode.Failed?
  {
    if c.mode.Idle? && c.revNum == baseRevNum && c.events != [] &&
       !(c.events[0].TextChange? && c.events[0].source.User?)
    {
      SkipFirst(c.events);
    }
  }

  lemma SkipFirst(events: seq<Event>)
    requires events != [] && !(events[0].TextChange? && events[0].source.User?) && Shape(Sources(events))
    ensures UserDeltas(events[1..]) == UserDeltas(events)
    ensures Shape(Sources(events[1..]))
  {
    var rest := Sources(events[1..]);
    if events[0].TextChange? {
      assert forall i :: 0 <= i < |rest| ==> rest[i] == Sources(events)[i + 1];
    } else {
      assert Sources(events) == rest;
    }
  }

  /** So many notices of events, one after the other. */
  function Notices(c: Client, n: nat): Client {
    if n == 0 then c else GotQuillEvent(Notices(c, n - 1), c.revNum)
  }

  /** The first edit of the user on a chain, or its end. */
  predicate FirstEdit(events: seq<Event>, k: nat) {
    && k <= |events|
    && (forall i :: 0 <= i < k ==> !(events[i].TextChange? && events[i].source.User?))
    && (k < |events| ==> events[k].TextChange? && events[k].source.User?)
  }

  lemma {:induction false} NoticesSkip(c: Client, n: nat, k: nat)
    requires c.mode.Idle? && FirstEdit(c.events, k)
    ensures Notices(c, n) ==
      if n <= k then c.(events := c.events[n..])
      else c.(events := c.events[k..], mode := if k < |c.events| then Collecting else Idle)
  {
    if n > 0 {
      NoticesSkip(c, n - 1, k);
    }
  }

  lemma {:induction false} SkipOthers(events: seq<Event>, k: nat)
    requires FirstEdit(events, k)
    ensures UserDeltas(events[k..]) == UserDeltas(events)
    ensures k == |events| <==> UserDeltas(events) == []
  {
    if k > 0 {
      assert events[1..][k - 1..] == events[k..];
      SkipOthers(events[1..], k - 1);
    } else {
      assert events[k..] == events;
    }
  }

  /** Noticing events takes selections and our own changes off the chain, up to the first edit of the user, which is
      then being collected. Without an edit, the client ends idle with nothing on the chain. */
  lemma NoticesLead(c: Client, k: nat)
    requires c.mode.Idle? && FirstEdit(c.events, k)
    ensures var r := Notices(c, k + 1);
      && r == c.(mode := r.mode, events := c.events[k..])
      && UserDeltas(r.events) == UserDeltas(c.events)
      && if UserDeltas(c.events) == [] then r.mode.Idle? && r.events == []
         else r.mode.Collecting? && r.events[0].TextChange? && r.events[0].source.User?
  {
    NoticesSkip(c, k + 1, k);
    SkipOthers(c.events, k);
  }

  /** Collected edits are never none; sending them leaves the editor and the snapshot as they are. */
  lemma WantToUpdateInv(c: Client, baseRevNum: nat)
    requires Inv(c)
    ensures Inv(WantToUpdate(c, baseRevNum))
    ensures var r := WantToUpdate(c, baseRevNum);
      && (r.mode.Failed? <==> c.mode.Failed?)
      && r.contents == c.contents && r.revNum == c.revNum && r.editor == c.editor
      && (!c.mode.Collecting? ==> r == c)
      && (c.mode.Collecting? && c.revNum != baseRevNum ==> r == c.(mode := Idle))
  {
    if c.mode.Collecting? && c.revNum == baseRevNum {
      var mid := CollectedLead(c);
      hide Inv, Consume, Composes, Show, UserDeltas, Sources, UserFrom;
      var (delta, events) := Consume(c.events, false, None);
      SentInv(c, delta.value, events, mid);
    }
  }

  lemma SentInv(c: Client, delta: Delta, events: seq<Event>, mid: seq<Elem>)
    requires Inv(c) && c.mode.Collecting? && Composes(c.contents, Some(delta), mid)
    requires Show(mid, UserDeltas(events)) == Some(c.editor) && UserFrom(Sources(events), 0)
    requires delta == [] ==> mid == c.contents
    ensures Inv(c.(mode := if delta == [] then Idle else Merging(delta), events := events))
  {
    hide Show, UserDeltas, Sources, UserFrom, Shape, Apply, Span;
    UserShape(Sources(events));
  }

  /** Where collecting stops: at the first of our own changes, if there is one on the chain. */
  predicate Collects(events: seq<Event>, front: seq<Event>, tail: seq<Event>) {
    && events == front + tail && UserFrom(Sources(front), 0)
    && (tail != [] ==> tail[0].TextChange? && tail[0].source.Ours?)
  }

  lemma {:induction false} HasFront(events: seq<Event>) returns (front: seq<Event>, tail: seq<Event>)
    ensures Collects(events, front, tail)
  {
    if events == [] || (events[0].TextChange? && events[0].source.Ours?) {
      front, tail := [], events;
    } else {
      var rest;
      rest, tail := HasFront(events[1..]);
      front := [events[0]] + rest;
      assert front[1..] == rest;
      assert events == [events[0]] + events[1..];
    }
  }

  lemma {:induction false} NextOfFront(front: seq<Event>, tail: seq<Event>)
    requires tail != [] ==> tail[0].TextChange?
    ensures NextText(front + tail) ==
      if NextText(front).Some? then NextText(front) else if tail == [] then None else Some(|front|)
  {
    if front == [] {
      assert front + tail == tail;
    } else {
      assert (front + tail)[1..] == front[1..] + tail;
      NextOfFront(front[1..], tail);
    }
  }

  /** The edits in front of our own change are composed, and what follows it is left. */
  lemma {:induction false} ConsumeFront(front: seq<Event>, tail: seq<Event>, delta: Option<Delta>, s: seq<Elem>,
      t: seq<Elem>, mid: seq<Elem>)
    requires UserFrom(Sources(front), 0) && (tail != [] ==> tail[0].TextChange? && tail[0].source.Ours?)
    requires Composes(s, delta, t) && Show(t, UserDeltas(front)) == Some(mid)
    ensures var (r, rest) := Consume(front + tail, false, delta);
      && Composes(s, r, mid) && (r.None? <==> delta.None? && UserDeltas(front) == [])
      && if tail == [] then NextText(rest).None? else rest == tail[1..]
    decreases |front|
  {
    hide Sources, UserDeltas, Show, Compose, Apply, Span, NextText, UserFrom;
    FirstText(front);
    NextOfFront(front, tail);
    match NextText(front)
    case None =>
      assert tail != [] ==> (front + tail)[|front| + 1..] == tail[1..];
      NothingShown(t);
    case Some(i) =>
      UserAt(front, i);
      assert (front + tail)[i + 1..] == front[i + 1..] + tail;
      var d := front[i].delta;
      ShowFirst(t, d, UserDeltas(front[i + 1..]));
      OneMoreEdit(s, delta, t, d);
      ConsumeFront(front[i + 1..], tail, Some(if delta.None? then d else Compose(delta.value, d)), s, Apply(t, d), mid);
  }

  lemma UserAt(events: seq<Event>, i: nat)
    requires NextText(events) == Some(i) && UserFrom(Sources(events), 0)
    ensures events[i].source.User? && UserFrom(Sources(events[i + 1..]), 0)
  {
    hide NextText;
    FirstText(events);
    UserFirst(events[i].source, Sources(events[i + 1..]));
    UserRest(events[i].source, Sources(events[i + 1..]), 0);
  }

  /** What the user has typed is sent. The collected edits are those in front of our own next change, or all if there
      is none. Their composition is sent, which takes the snapshot to what these edits lead to; unless it is empty, and
      they lead nowhere. Then nothing is pending, or exactly the events after our own change are left. */
  lemma WantToUpdateSends(c: Client, front: seq<Event>, tail: seq<Event>) returns (mid: seq<Elem>)
    requires Inv(c) && c.mode.Collecting? && Collects(c.events, front, tail)
    ensures var r := WantToUpdate(c, c.revNum);
      && Show(c.contents, UserDeltas(front)) == Some(mid) && Show(mid, UserDeltas(tail)) == Some(c.editor)
      && (|| (r.mode.Merging? && r.mode.inflight != [] && Composes(c.contents, Some(r.mode.inflight), mid))
          || (r.mode.Idle? && mid == c.contents))
      && if tail == [] then !r.Pending() && mid == c.editor else r.events == tail[1..]
  {
    hide Apply, Span, Compose;
    EventsConcat(front, tail);
    ShowConcat(c.contents, UserDeltas(front), UserDeltas(tail));
    mid := Show(c.contents, UserDeltas(front)).value;
    FrontHasEdit(c.events, front, tail);
    hide Show, UserDeltas, Sources, NextText, UserFrom, Shape;
    ConsumeFront(front, tail, None, c.contents, c.contents, mid);
    NothingApplied(c.contents);
    if tail == [] { NothingShown(mid); }
  }

  lemma NothingShown(s: seq<Elem>)
    ensures UserDeltas([]) == [] && Show(s, []) == Some(s)
  {
  }

  lemma FrontHasEdit(events: seq<Event>, front: seq<Event>, tail: seq<Event>)
    requires Collects(events, front, tail) && events != [] && events[0].TextChange? && events[0].source.User?
    ensures UserDeltas(front) != []
  {
    assert front == [] ==> events == tail;
  }

  /** In particular, when all text changes are those of the user: nothing is pending afterwards, and what is sent takes
      the snapshot to what the editor shows, unless it shows the snapshot. */
  lemma WantToUpdateSendsAll(c: Client)
    requires Inv(c) && c.mode.Collecting? && UserFrom(Sources(c.events), 0)
    ensures var r := WantToUpdate(c, c.revNum);
      && !r.Pending()
      && (|| (r.mode.Merging? && r.mode.inflight != [] && Composes(c.contents, Some(r.mode.inflight), c.editor))
          || (r.mode.Idle? && c.editor == c.contents))
  {
    assert c.events == c.events + [];
    hide Show, UserDeltas, Consume, NextText;
    var mid := WantToUpdateSends(c, c.events, []);
  }

  lemma UserShape(sources: seq<Source>)
    requires UserFrom(sources, 0)
    ensures Shape(sources)
  {
  }

  /** What is collected leads from the snapshot to what is left, which leads to what the editor shows. */
  lemma CollectedLead(c: Client) returns (mid: seq<Elem>)
    requires Inv(c) && c.mode.Collecting?
    ensures var (r, rest) := Consume(c.events, false, None);
      && r.Some? && Composes(c.contents, r, mid) && Show(mid, UserDeltas(rest)) == Some(c.editor)
      && UserFrom(Sources(rest), 0) && (r.value == [] ==> mid == c.contents)
  {
    var first := c.events[0].delta;
    UserRest(User, Sources(c.events[1..]), 2);
    assert UserDeltas(c.events) == [first] + UserDeltas(c.events[1..]);
    assert Span(first) <= |c.contents|;
    hide Show, UserDeltas, Sources, NextText, UserFrom;
    mid := FirstLead(c.events, first, c.contents, c.editor);
  }

  lemma FirstLead(events: seq<Event>, first: Delta, contents: seq<Elem>, shown: seq<Elem>) returns (mid: seq<Elem>)
    requires events != [] && events[0] == TextChange(first, User) && Span(first) <= |contents|
    requires UserDeltas(events) == [first] + UserDeltas(events[1..])
    requires Show(contents, UserDeltas(events)) == Some(shown)
    requires UserFrom(Sources(events[1..]), 1)
    ensures var (r, rest) := Consume(events, false, None);
      && r.Some? && Composes(contents, r, mid) && Show(mid, UserDeltas(rest)) == Some(shown)
      && UserFrom(Sources(rest), 0) && (r.value == [] ==> mid == contents)
  {
    assert Consume(events, false, None) == Consume(events[1..], false, Some(first));
    assert UserDeltas(events)[1..] == UserDeltas(events[1..]);
    hide UserDeltas, Sources, NextText, UserFrom, Consume;
    mid := ConsumeLeads(events[1..], false, Some(first), contents, Apply(contents, first), shown);
  }

  // ----- The answer to an update -----

  /** What the new snapshot is, if the client accepts the answer. */
  lemma CorrectedContents(contents: Body, inflight: Delta, correction: Delta)
    requires Span(inflight) <= |contents| && Span(correction) <= |Apply(contents, inflight)|
    ensures var r := Compose(inflight, correction);
      && Span(r) <= |contents| && Apply(contents, r) == Apply(Apply(contents, inflight), correction)
  {
    ComposeCorrect(contents, inflight, correction);
  }

  /** The state that a correction leads to, and when it is not accepted. */
  lemma IntegratedState(c: Client, reply: Change<Delta>)
    requires c.mode.Merging? && c.Pending()
    ensures Consume(c.events, true, None).0.Some?
    ensures var (more, rest) := Consume(c.events, true, None);
            var integrated, newMore := Transform(more.value, reply.delta, false),
              Transform(reply.delta, more.value, true);
            var ours := if integrated == [] then [] else [TextChange(integrated, Ours)];
            var r, d := SeveralPeopleAreTyping(c, reply), Compose(c.mode.inflight, reply.delta);
      && (NextText(rest).None? && Span(d) <= |c.contents| && Span(integrated) <= |c.editor| ==>
            (r.mode.Failed? <==> !Proper(Apply(c.contents, d))))
      && (!r.mode.Failed? ==>
        && r.mode.Idle? && r.revNum == reply.revNum && r.contents != []
        && Span(d) <= |c.contents| && r.contents == Apply(c.contents, d)
        && Span(integrated) <= |c.editor| && r.editor == Apply(c.editor, integrated)
        && r.events == [TextChange(newMore, User)] + (rest + ours))
  {
    hide Consume, Compose, Transform;
    ConsumeSome(c.events, None);
    var (more, rest) := Consume(c.events, true, None);
    assert rest + [] == rest;
    assert Apply(c.editor, []) == c.editor;
  }

  /** Several people are typing: the correction is integrated underneath the user's edits, and they are moved on
      top of it. By the diamond, the editor again shows the new snapshot with the moved edits on top: it shows the merge
      of the correction and of these edits, with what the server has inserted first. This fails exactly when the
      correction does not lead to proper contents. */
  lemma SeveralPeopleInv(c: Client, reply: Change<Delta>)
    requires Inv(c) && c.mode.Merging? && c.Pending()
    requires Span(reply.delta) <= |Base(c).value|
    ensures var r := SeveralPeopleAreTyping(c, reply);
      && Inv(r)
      && (r.mode.Failed? <==> !Proper(Apply(Base(c).value, reply.delta)))
      && (!r.mode.Failed? ==>
            r.mode.Idle? && r.revNum == reply.revNum && r.contents == Apply(Base(c).value, reply.delta))
    ensures var r, more := SeveralPeopleAreTyping(c, reply), Consume(c.events, true, None).0;
      && more.Some? && Span(more.value) <= |Base(c).value| && Apply(Base(c).value, more.value) == c.editor
      && (!r.mode.Failed? ==> r.editor == Weave(Base(c).value, reply.delta, more.value, true))
  {
    var base, r := Base(c).value, SeveralPeopleAreTyping(c, reply);
    IntegratedState(c, reply);
    PendingLead(c, base);
    TransformIsWeave(base, reply.delta, Consume(c.events, true, None).0.value, true);
    hide Consume, Compose, Transform, Show, UserDeltas, Sources, NextText, SeveralPeopleAreTyping, Shape, Apply,
      UserFrom, Proper, Weave;
    var (more, rest) := Consume(c.events, true, None);
    var integrated, newMore := Transform(more.value, reply.delta, false), Transform(reply.delta, more.value, true);
    Diamond(base, more.value, reply.delta, false);
    CorrectedContents(c.contents, c.mode.inflight, reply.delta);
    SyntheticShape(rest, newMore, integrated);
    if !r.mode.Failed? {
      Moved(c, reply, rest, integrated, newMore, r);
    }
  }

  /** All pending edits, composed, lead from what the client expects to what the editor shows. */
  lemma PendingLead(c: Client, base: seq<Elem>)
    requires Inv(c) && c.mode.Merging? && c.Pending() && Base(c) == Some(base)
    ensures base == Apply(c.contents, c.mode.inflight) && Span(c.mode.inflight) <= |c.contents|
    ensures var (more, rest) := Consume(c.events, true, None);
      more.Some? && Span(more.value) <= |base| && Apply(base, more.value) == c.editor && NextText(rest).None?
  {
    ConsumeSome(c.events, None);
    var mid := ConsumeLeads(c.events, true, None, base, base, c.editor);
    FirstText(Consume(c.events, true, None).1);
  }

  /** The state after the synthetic event has been put in front. */
  lemma Moved(c: Client, reply: Change<Delta>, rest: seq<Event>, integrated: Delta, newMore: Delta, r: Client)
    requires r.mode.Idle? && r.contents != [] && UserDeltas(r.events) == [newMore] && Shape(Sources(r.events))
    requires Span(newMore) <= |r.contents| && Apply(r.contents, newMore) == r.editor
    ensures Inv(r)
  {
    assert Show(r.editor, []) == Some(r.editor);
    assert Show(r.contents, [newMore]) == Show(r.editor, []);
  }

  lemma SyntheticShape(rest: seq<Event>, newMore: Delta, integrated: Delta)
    requires NextText(rest).None?
    ensures var ours := if integrated == [] then [] else [TextChange(integrated, Ours)];
            var events := [TextChange(newMore, User)] + (rest + ours);
      UserDeltas(events) == [newMore] && Shape(Sources(events))
  {
    var ours := if integrated == [] then [] else [TextChange(integrated, Ours)];
    var events := [TextChange(newMore, User)] + (rest + ours);
    assert events[1..] == rest + ours;
    if integrated == [] {
      assert rest + ours == rest;
      FirstText(rest);
    } else {
      OursAtEnd(rest, integrated);
    }
  }

  /** What the editor shows after a correction: the corrected contents, or, if the user has gone on editing, their merge
      with these edits, in which what the server has inserted comes first. */
  ghost predicate AnsweredEditor(c: Client, reply: Change<Delta>, r: Client)
    requires Base(c).Some? && Span(reply.delta) <= |Base(c).value|
  {
    var base := Base(c).value;
    if !c.Pending() then
      r.editor == Apply(base, reply.delta) && r.events == c.events + [TextChange(reply.delta, Ours)]
    else
      exists more: Delta {:trigger Weave(base, reply.delta, more, true)} ::
        Span(more) <= |base| && Apply(base, more) == c.editor && r.editor == Weave(base, reply.delta, more, true)
  }

  /** An answer whose correction fits what the client expects keeps the invariant. The new snapshot is the expected
      one with the correction; the client fails exactly when that is not proper. */
  lemma GotUpdateInv(c: Client, reply: Change<Delta>)
    requires Inv(c)
    requires c.mode.Merging? ==> Span(reply.delta) <= |Base(c).value|
    ensures var r := GotUpdate(c, reply);
      && Inv(r)
      && (!c.mode.Merging? ==> r == c)
      && (c.mode.Merging? ==>
            var t := Apply(Base(c).value, reply.delta);
            && (r.mode.Failed? <==> !Proper(t))
            && (!r.mode.Failed? ==> r.mode.Idle? && r.revNum == reply.revNum && r.contents == t)
            && (!r.mode.Failed? && reply.delta == [] ==> r.editor == c.editor && r.events == c.events)
            && (!r.mode.Failed? && reply.delta != [] ==> AnsweredEditor(c, reply, r)))
  {
    if c.mode.Merging? {
      if reply.delta == [] {
        NothingToCorrect(c, reply);
      } else if !c.Pending() {
        NobodyTyping(c, reply);
      } else {
        hide Inv, Apply, Proper, SeveralPeopleAreTyping;
        SeveralPeopleInv(c, reply);
      }
    }
  }

  /** Without a correction, the new snapshot is the expected one. */
  lemma NothingToCorrect(c: Client, reply: Change<Delta>)
    requires Inv(c) && c.mode.Merging? && reply.delta == []
    ensures var r, t := GotUpdate(c, reply), Apply(Base(c).value, []);
      && Inv(r) && (r.mode.Failed? <==> !Proper(t))
      && (!r.mode.Failed? ==> r.mode.Idle? && r.revNum == reply.revNum && r.contents == t)
      && (!r.mode.Failed? ==> r.editor == c.editor && r.events == c.events)
  {
    hide Show, UserDeltas, Sources, UserFrom;
    UserShapeIf(Sources(c.events));
  }

  lemma UserShapeIf(sources: seq<Source>)
    ensures UserFrom(sources, 0) ==> Shape(sources)
  {
  }

  /** When nobody is typing, the editor gets the correction as it is. */
  lemma NobodyTyping(c: Client, reply: Change<Delta>)
    requires Inv(c) && c.mode.Merging? && reply.delta != [] && !c.Pending() && Span(reply.delta) <= |Base(c).value|
    ensures var r, t := GotUpdate(c, reply), Apply(Base(c).value, reply.delta);
      && Inv(r) && (r.mode.Failed? <==> !Proper(t))
      && (!r.mode.Failed? ==> r.mode.Idle? && r.revNum == reply.revNum && r.contents == t)
      && (!r.mode.Failed? ==> r.editor == t && r.events == c.events + [TextChange(reply.delta, Ours)])
  {
    NoTextNoDeltas(c);
    assert c.editor == Base(c).value;
    CorrectedContents(c.contents, c.mode.inflight, reply.delta);
    OursAtEnd(c.events, reply.delta);
    hide UserDeltas, Sources, NextText, Apply, Span, Compose;
  }

  // ----- Whole runs of a client -----

  datatype Input =
    | Typed(d: Delta)
    | Selected(source: Source)
    | Pulled(baseRevNum: nat, change: Change<Delta>)
    | Noticed(baseRevNum: nat)
    | TimeToUpdate(baseRevNum: nat)
    | Answered(reply: Change<Delta>)

  /** Edits are within the editor, and corrections within what the client expects. */
  predicate Fits(c: Client, input: Input) {
    match input
    case Typed(d) => Span(d) <= |c.editor|
    case Answered(reply) => c.mode.Merging? && Base(c).Some? ==> Span(reply.delta) <= |Base(c).value|
    case _ => true
  }

  function Handle(c: Client, input: Input): Client {
    match input
    case Typed(d) => if Span(d) <= |c.editor| then Type(c, d) else c
    case Selected(source) => Select(c, source)
    case Pulled(base, change) => GotChangeAfter(c, base, change)
    case Noticed(base) => GotQuillEvent(c, base)
    case TimeToUpdate(base) => WantToUpdate(c, base)
    case Answered(reply) => GotUpdate(c, reply)
  }

  /** The client after some inputs, having started with a snapshot. */
  function Run(revNum: nat, contents: Body, inputs: seq<Input>): Client {
    if inputs == [] then Client(Idle, revNum, contents, contents, [])
    else Handle(Run(revNum, contents, inputs[..|inputs| - 1]), inputs[|inputs| - 1])
  }

  predicate AllFit(revNum: nat, contents: Body, inputs: seq<Input>) {
    inputs != [] ==>
      var front := inputs[..|inputs| - 1];
      AllFit(revNum, contents, front) && Fits(Run(revNum, contents, front), inputs[|inputs| - 1])
  }

  /** What makes a client fail: a change or a correction from the server that does not lead to proper contents. */
  predicate Spoils(c: Client, input: Input) {
    match input
    case Pulled(base, change) =>
      Accepts(c, base) && !(Span(change.delta) <= |c.contents| && Proper(Apply(c.contents, change.delta)))
    case Answered(reply) =>
      && c.mode.Merging? && Base(c).Some? && Span(reply.delta) <= |Base(c).value|
      && !Proper(Apply(Base(c).value, reply.delta))
    case _ => false
  }

  lemma HandleInv(c: Client, input: Input)
    requires Inv(c) && Fits(c, input)
    ensures Inv(Handle(c, input))
    ensures Handle(c, input).mode.Failed? <==> c.mode.Failed? || Spoils(c, input)
  {
    hide Show, Shape, Compose, Transform, Consume, SeveralPeopleAreTyping, UserDeltas, Sources, Proper;
    match input
    case Typed(d) => TypeInv(c, d);
    case Selected(source) => SelectInv(c, source);
    case Pulled(base, change) => GotChangeAfterInv(c, base, change);
    case Noticed(base) => GotQuillEventInv(c, base);
    case TimeToUpdate(base) => WantToUpdateInv(c, base);
    case Answered(reply) =>
      if !c.mode.Failed? { GotUpdateInv(c, reply); }
  }

  /** One of the inputs has made the client fail. */
  predicate Spoiled(revNum: nat, contents: Body, inputs: seq<Input>) {
    exists i :: 0 <= i < |inputs| && Spoils(Run(revNum, contents, inputs[..i]), inputs[i])
  }

  /** In every state that a client can reach, whatever it hears and whenever: the editor shows the snapshot with
      the change in flight and then the user's pending edits; and the chain of events has one of three shapes. The
      only exception are clients that have got something improper from the server. */
  lemma {:induction false} EditorIsRight(revNum: nat, contents: Body, inputs: seq<Input>)
    requires contents != [] && AllFit(revNum, contents, inputs)
    ensures var c := Run(revNum, contents, inputs);
      && Inv(c)
      && (c.mode.Failed? <==> Spoiled(revNum, contents, inputs))
      && (!c.mode.Failed? ==>
            && Base(c).Some? && Show(Base(c).value, UserDeltas(c.events)) == Some(c.editor)
            && Shape(Sources(c.events)) && Proper(c.contents))
  {
    if inputs != [] {
      var front, input := inputs[..|inputs| - 1], inputs[|inputs| - 1];
      assert front + [input] == inputs;
      EditorIsRight(revNum, contents, front);
      assert AllFit(revNum, contents, front) && Fits(Run(revNum, contents, front), input);
      assert Run(revNum, contents, inputs) == Handle(Run(revNum, contents, front), input);
      SpoiledMore(revNum, contents, front, input);
      hide Spoiled, Run, Handle, Spoils, Fits, AllFit, Show, Shape, UserDeltas, Sources;
      HandleInv(Run(revNum, contents, front), input);
    } else {
      assert Show(contents, []) == Some(contents);
    }
  }

  lemma SpoiledMore(revNum: nat, contents: Body, front: seq<Input>, input: Input)
    ensures Spoiled(revNum, contents, front + [input]) <==>
      Spoiled(revNum, contents, front) || Spoils(Run(revNum, contents, front), input)
  {
    hide Run, Spoils;
    var inputs := front + [input];
    assert forall i :: 0 <= i <= |front| ==> inputs[..i] == front[..i];
    assert front[..|front|] == front;
    if Spoiled(revNum, contents, front) {
      var i :| 0 <= i < |front| && Spoils(Run(revNum, contents, front[..i]), front[i]);
      assert Spoils(Run(revNum, contents, inputs[..i]), inputs[i]);
    }
    if Spoils(Run(revNum, contents, front), input) {
      assert Spoils(Run(revNum, contents, inputs[..|front|]), inputs[|front|]);
    }
  }
}
