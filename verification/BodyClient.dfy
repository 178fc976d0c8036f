/** The body client: a local snapshot, a change in flight, and the chain of editor events not yet processed. */
module BodyClient {
  import opened Wrappers
  import opened BodyDelta
  import opened BodyPart
  import opened ChangeLog

  // ----- Editor events -----

  datatype Source = User | Ours

  /** What the editor reports. The events not yet processed form a chain; here, a sequence. */
  datatype Event = TextChange(delta: Delta, source: Source) | SelectionChange(source: Source)

  /** The place of the first text change. */
  function NextText(events: seq<Event>): (r: Option<nat>)
    ensures r.Some? ==> r.value < |events| && events[r.value].TextChange?
    ensures forall i :: 0 <= i < |events| && (r.None? || i < r.value) ==> !events[i].TextChange?
  {
    if events == [] then None
    else if events[0].TextChange? then Some(0)
    else match NextText(events[1..]) case None => None case Some(i) => Some(i + 1)
  }

  // ----- The client -----

  datatype Mode = Idle | Collecting | Merging(inflight: Delta) | Failed

  datatype Client = Client(mode: Mode, revNum: nat, contents: Body, editor: seq<Elem>, events: seq<Event>) {
    predicate Pending() {
      NextText(events).Some?
    }

    function Fail(): Client {
      this.(mode := Failed)
    }
  }

  /** `_consumeLocalChanges()`: the composition of the changes it consumes, and the events that are left. The
      change of our own at which it stops is consumed too, though not composed. */
  function Consume(events: seq<Event>, includeOurs: bool, delta: Option<Delta>): (Option<Delta>, seq<Event>)
    decreases |events|
  {
    match NextText(events)
    case None => (delta, events)
    case Some(i) =>
      if !includeOurs && events[i].source.Ours? then (delta, events[i + 1..])
      else
        var d := events[i].delta;
        Consume(events[i + 1..], includeOurs, Some(if delta.None? then d else Compose(delta.value, d)))
  }

  lemma {:induction false} ConsumeSome(events: seq<Event>, delta: Option<Delta>)
    requires NextText(events).Some? || delta.Some?
    ensures Consume(events, true, delta).0.Some?
    decreases |events|
  {
    hide Compose, NextText;
    match NextText(events)
    case None =>
    case Some(i) =>
      var d := events[i].delta;
      ConsumeSome(events[i + 1..], Some(if delta.None? then d else Compose(delta.value, d)));
  }

  /** `_updateWithChange()`: it fails on revision skew, and when the new snapshot is not valid: the empty body is
      not, and nor is one without a final newline. The editor reports our changes to it as events. */
  function UpdateWithChange(c: Client, revNum: nat, d: Delta, editorDelta: Delta): Client {
    if c.Pending() && editorDelta != [] then c.Fail()
    else match BodyApply(c.contents, d)
      case None => c.Fail()
      case Some(contents) =>
        if contents == [] then c.Fail()
        else if editorDelta == [] then c.(revNum := revNum, contents := contents)
        else if Span(editorDelta) > |c.editor| then c.Fail()
        else c.(revNum := revNum, contents := contents, editor := Apply(c.editor, editorDelta),
                events := c.events + [TextChange(editorDelta, Ours)])
  }

  function BecomeIdle(c: Client): Client {
    if c.mode.Failed? then c else c.(mode := Idle)
  }

  // ----- What happens to a client -----

  /** The local user edits. */
  function Type(c: Client, d: Delta): Client
    requires Span(d) <= |c.editor|
  {
    c.(editor := Apply(c.editor, d), events := c.events + [TextChange(d, User)])
  }

  function Select(c: Client, source: Source): Client {
    c.(events := c.events + [SelectionChange(source)])
  }

  /** `gotChangeAfter`: a server change, for the revision that was current when it was asked for. */
  function GotChangeAfter(c: Client, baseRevNum: nat, change: Change<Delta>): Client {
    if c.mode.Idle? && c.revNum == baseRevNum && !c.Pending()
    then UpdateWithChange(c, change.revNum, change.delta, change.delta) else c
  }

  /** `gotQuillEvent`: our own events are skipped, selections passed on, and edits left for collecting. */
  function GotQuillEvent(c: Client, baseRevNum: nat): Client {
    if !c.mode.Idle? || c.revNum != baseRevNum || c.events == [] then c
    else if c.events[0].source.Ours? then c.(events := c.events[1..])
    else if c.events[0].TextChange? then c.(mode := Collecting)
    else c.(events := c.events[1..])
  }

  /** `wantToUpdate`: the collected changes are sent, unless there is nothing to send. */
  function WantToUpdate(c: Client, baseRevNum: nat): Client {
    if !c.mode.Collecting? then c
    else if c.revNum != baseRevNum then c.(mode := Idle)
    else
      var (delta, events) := Consume(c.events, false, None);
      if delta.None? then c.(mode := Failed, events := events)
      else if delta.value == [] then c.(mode := Idle, events := events)
      else c.(mode := Merging(delta.value), events := events)
  }

  /** `gotUpdate`: the server's answer to the change in flight. */
  function GotUpdate(c: Client, reply: Change<Delta>): Client {
    if !c.mode.Merging? then c
    else if reply.delta == [] then BecomeIdle(UpdateWithChange(c, reply.revNum, c.mode.inflight, []))
    else if !c.Pending() then
      BecomeIdle(UpdateWithChange(c, reply.revNum, Compose(c.mode.inflight, reply.delta), reply.delta))
    else
      SeveralPeopleAreTyping(c, reply)
  }

  /** The local user has gone on editing: the correction goes underneath those edits, and they are replaced by
      a synthetic event on top of the correction. */
  function SeveralPeopleAreTyping(c: Client, reply: Change<Delta>): Client
    requires c.mode.Merging? && c.Pending()
  {
    ConsumeSome(c.events, None);
    var (more, events) := Consume(c.events, true, None);
    var integrated := Transform(more.value, reply.delta, false);
    var corrected := Compose(c.mode.inflight, reply.delta);
    var updated := UpdateWithChange(c.(events := events), reply.revNum, corrected, integrated);
    if updated.mode.Failed? then updated
    else
      var newMore := Transform(reply.delta, more.value, true);
      updated.(mode := Idle, events := [TextChange(newMore, User)] + updated.events)
  }

  /** The client as an object, whose handlers update its fields. */
  class BodyClient {
    var mode: Mode
    var revNum: nat
    var contents: Body
    var editor: seq<Elem>
    var events: seq<Event>

    ghost function View(): Client
      reads this
    {
      Client(mode, revNum, contents, editor, events)
    }

    /** A client that has just got its first snapshot, and shown it in the editor. */
    constructor (revNum: nat, contents: Body)
      ensures View() == Client(Idle, revNum, contents, contents, [])
    {
      this.mode := Idle;
      this.revNum := revNum;
      this.contents := contents;
      this.editor := contents;
      this.events := [];
    }

    method ConsumeLocalChanges(includeOurs: bool) returns (delta: Option<Delta>)
      modifies this`events
      ensures (delta, events) == Consume(old(events), includeOurs, None)
    {
      delta := None;
      var change := events;
      while true
        invariant Consume(change, includeOurs, delta) == Consume(old(events), includeOurs, None)
        decreases |change|
      {
        var next := NextText(change);
        if next.None? {
          break;
        }
        var event := change[next.value];
        change := change[next.value + 1..];
        if !includeOurs && event.source.Ours? {
          break;
        }
        delta := Some(if delta.None? then event.delta else Compose(delta.value, event.delta));
      }
      events := change;
    }

    method UpdateWith(revNum: nat, d: Delta, editorDelta: Delta)
      modifies this
      ensures View() == UpdateWithChange(old(View()), revNum, d, editorDelta)
    {
      if NextText(events).Some? && editorDelta != [] {
        mode := Failed;
        return;
      }
      var composed := BodyApply(contents, d);
      if composed.None? || composed.value == [] {
        mode := Failed;
        return;
      }
      if editorDelta != [] {
        if Span(editorDelta) > |editor| {
          mode := Failed;
          return;
        }
        editor := Apply(editor, editorDelta);
        events := events + [TextChange(editorDelta, Ours)];
      }
      this.revNum := revNum;
      contents := composed.value;
    }

    method HandleGotChangeAfter(baseRevNum: nat, change: Change<Delta>)
      modifies this
      ensures View() == GotChangeAfter(old(View()), baseRevNum, change)
    {
      if mode.Idle? && revNum == baseRevNum && NextText(events).None? {
        UpdateWith(change.revNum, change.delta, change.delta);
      }
    }

    method HandleGotQuillEvent(baseRevNum: nat)
      modifies this
      ensures View() == GotQuillEvent(old(View()), baseRevNum)
    {
      if !mode.Idle? || revNum != baseRevNum || events == [] {
        return;
      }
      var event := events[0];
      if event.source.Ours? {
        events := events[1..];
        return;
      }
      match event
      case TextChange(_, _) => mode := Collecting;
      case SelectionChange(_) => events := events[1..];
    }

    /** Returns the change that is sent to the server, if there is one. */
    method HandleWantToUpdate(baseRevNum: nat) returns (sent: Option<Delta>)
      modifies this
      ensures View() == WantToUpdate(old(View()), baseRevNum)
      ensures old(mode).Collecting? ==> sent == if mode.Merging? then Some(mode.inflight) else None
    {
      sent := None;
      if !mode.Collecting? {
        return;
      }
      if revNum != baseRevNum {
        mode := Idle;
        return;
      }
      var delta := ConsumeLocalChanges(false);
      if delta.None? {
        mode := Failed;
      } else if delta.value == [] {
        mode := Idle;
      } else {
        mode := Merging(delta.value);
        sent := delta;
      }
    }

    method HandleGotUpdate(reply: Change<Delta>)
      modifies this
      ensures View() == GotUpdate(old(View()), reply)
    {
      if !mode.Merging? {
        return;
      }
      var delta := mode.inflight;
      if reply.delta == [] {
        UpdateWith(reply.revNum, delta, []);
        BecomeIdleUnlessFailed();
        return;
      }
      var corrected := Compose(delta, reply.delta);
      if NextText(events).None? {
        UpdateWith(reply.revNum, corrected, reply.delta);
        BecomeIdleUnlessFailed();
        return;
      }
      ConsumeSome(events, None);
      var more := ConsumeLocalChanges(true);
      var integrated := Transform(more.value, reply.delta, false);
      UpdateWith(reply.revNum, corrected, integrated);
      if !mode.Failed? {
        var newMore := Transform(reply.delta, more.value, true);
        events := [TextChange(newMore, User)] + events;
      }
      BecomeIdleUnlessFailed();
    }

    method BecomeIdleUnlessFailed()
      modifies this`mode
      ensures mode == if old(mode).Failed? then Failed else Idle
    {
      if !mode.Failed? {
        mode := Idle;
      }
    }
  }
}
