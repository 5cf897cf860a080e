/**
 What reaches the caller's deliver function, and what its answer does (lifecycle/publisher.go): a call hands it
 the envelopes its stream hands back, publishes those it takes, and ends the incarnation at the first it does not.
 */
module Handover {
  import opened Wrappers
  import opened Values
  import opened Events
  import opened ReducerModel
  import opened ReducerRuns
  import opened Wire
  import opened PublisherModel
  import opened PublisherRuns
  import opened Agreement

  /** The envelopes the stream itself hands back for the events, up to the first it refuses. */
  function HandedBack(s: Stream, events: seq<Event>): (handed: seq<Json>)
    ensures |handed| <= |events|
    decreases |events|
  {
    if events == [] then []
    else
      var (s1, envelope) := StreamEmit(s, events[0]);
      if envelope.None? then [] else [envelope.value] + HandedBack(s1, events[1..])
  }

  /** Without a deliver function every envelope is taken. */
  predicate Takes(deliver: Option<Json -> bool>, envelope: Json) {
    deliver.Some? ==> deliver.value(envelope)
  }

  /** The first n envelopes were taken, and the next one, if there is one, was not. */
  ghost predicate TakenUpTo(deliver: Option<Json -> bool>, handed: seq<Json>, n: nat) {
    && n <= |handed| && (forall i | 0 <= i < n :: Takes(deliver, handed[i]))
    && (n < |handed| ==> !Takes(deliver, handed[n]))
  }

  /** What a speaker leaves whose stream handed back these envelopes for so many events, the first n being taken. */
  ghost predicate HandsOver(stream: Stream, handed: seq<Json>, events: nat, deliver: Option<Json -> bool>,
                            published: seq<Json>, n: nat, q: Publisher, err: Option<PublishError>) {
    && TakenUpTo(deliver, handed, n) && q.published == published + handed[..n] && q.deliver == deliver
    && err == (if n < |handed| then Some(DeliveryFailed)
               else if |handed| < events then Some(EventRefused)
               else None)
    && q.stream.Some? && q.stream.value.id == stream.id
    && (if err.Some? then !Active(q) else Active(q) == !stream.core.state.closed)
  }

  lemma EmitHandsOver(p: Publisher, e: Event)
    requires p.stream.Some?
    ensures var (s1, envelope) := StreamEmit(p.stream.value, e);
            var (q, err) := Emit(p, e);
            && s1.id == p.stream.value.id && s1.core.state.closed == p.stream.value.core.state.closed
            && q.deliver == p.deliver && q.stream.Some? && q.stream.value.id == s1.id
            && match envelope
               case None => err == Some(EventRefused) && !Active(q) && q.published == p.published
               case Some(j) =>
                 if Takes(p.deliver, j) then err.None? && q.stream.value == s1 && q.published == p.published + [j]
                 else err == Some(DeliveryFailed) && !Active(q) && q.published == p.published
  {
    StaysClosed(p.stream.value, e);
  }

  lemma StaysClosed(s: Stream, e: Event)
    ensures StreamEmit(s, e).0.core.state.closed == s.core.state.closed && StreamEmit(s, e).0.id == s.id
  {
    match Decode(Some(Notification(Envelope(s.id, Count(s.sequence), e))), s.core.negotiated)
    case Ok(d) => ReduceKeepsClosed(s.core, d);
    case Err(_) =>
  }

  /** Only closing closes. */
  lemma ReduceKeepsClosed(c: Core, d: Delivery)
    ensures Reduce(c, d).state.closed == c.state.closed
  {
    if NextInStream(c, d) {
      NextIsCommitted(c, d);
      ApplyFrame(c, d);
    } else if c.failed.None? && !c.started {
      FirstKeepsClosed(c, d);
    } else {
      NotNextKeepsClosed(c, d);
    }
  }

  lemma FirstKeepsClosed(c: Core, d: Delivery)
    requires c.failed.None?
    ensures ReduceFirst(c, d).state.closed == c.state.closed
  {
    if d.event.Opens() {
      SnapshotFrame(c.(state := c.state.(streamId := d.streamId), started := true, base := d.sequence), d);
    }
  }

  lemma NotNextKeepsClosed(c: Core, d: Delivery)
    requires (c.started || c.failed.Some?) && !NextInStream(c, d)
    ensures Reduce(c, d).state.closed == c.state.closed
  {
    if c.failed.None? && d.streamId != c.state.streamId {
      assert ReduceForeign(c, d).state.closed == c.state.closed;
    }
  }

  lemma FirstTaken(deliver: Option<Json -> bool>, j: Json, rest: seq<Json>, n: nat)
    requires Takes(deliver, j) && TakenUpTo(deliver, rest, n)
    ensures TakenUpTo(deliver, [j] + rest, n + 1) && ([j] + rest)[..n + 1] == [j] + rest[..n]
  {
  }

  /** Emitting a list of events hands over what the stream hands back, up to the first envelope not taken. */
  lemma {:induction false} EmitAllHandsOver(p: Publisher, events: seq<Event>) returns (n: nat)
    requires p.stream.Some?
    ensures HandsOver(p.stream.value, HandedBack(p.stream.value, events), |events|, p.deliver, p.published, n,
                      EmitAll(p, events).0, EmitAll(p, events).1)
    decreases |events|
  {
    n := 0;
    if events != [] {
      var s := p.stream.value;
      var (s1, envelope) := StreamEmit(s, events[0]);
      EmitHandsOver(p, events[0]);
      EmitAllFirst(p, events);
      if envelope.Some? && Takes(p.deliver, envelope.value) {
        var q := Emit(p, events[0]).0;
        var m := EmitAllHandsOver(q, events[1..]);
        var (r, err) := EmitAll(q, events[1..]);
        n := m + 1;
        HandedFirst(s, events);
        TakenFirst(s, s1, HandedBack(s1, events[1..]), |events| - 1, envelope.value, p.deliver, p.published, m, r, err);
      } else {
        HandedFirst(s, events);
        NoneTaken(s, HandedBack(s, events), |events|, p.deliver, p.published, EmitAll(p, events).0,
                  EmitAll(p, events).1);
      }
    }
  }

  lemma EmitAllFirst(p: Publisher, events: seq<Event>)
    requires p.stream.Some? && events != []
    ensures var (q, err) := Emit(p, events[0]);
            EmitAll(p, events) == if err.Some? then (q, err) else EmitAll(q, events[1..])
  {
  }

  lemma HandedFirst(s: Stream, events: seq<Event>)
    requires events != []
    ensures var (s1, envelope) := StreamEmit(s, events[0]);
            HandedBack(s, events)
            == match envelope case None => [] case Some(j) => [j] + HandedBack(s1, events[1..])
  {
  }

  lemma TakenFirst(s: Stream, s1: Stream, rest: seq<Json>, events: nat, j: Json, deliver: Option<Json -> bool>,
                   published: seq<Json>, m: nat, r: Publisher, err: Option<PublishError>)
    requires Takes(deliver, j) && s1.id == s.id && s1.core.state.closed == s.core.state.closed
    requires HandsOver(s1, rest, events, deliver, published + [j], m, r, err)
    ensures HandsOver(s, [j] + rest, events + 1, deliver, published, m + 1, r, err)
  {
    FirstTaken(deliver, j, rest, m);
    assert published + [j] + rest[..m] == published + ([j] + rest[..m]);
  }

  lemma NoneTaken(s: Stream, handed: seq<Json>, events: nat, deliver: Option<Json -> bool>, published: seq<Json>,
                  q: Publisher, err: Option<PublishError>)
    requires q.published == published && q.deliver == deliver && !Active(q) && |handed| <= events
    requires q.stream.Some? && q.stream.value.id == s.id
    requires if handed == [] then events > 0 && err == Some(EventRefused)
             else !Takes(deliver, handed[0]) && err == Some(DeliveryFailed)
    ensures HandsOver(s, handed, events, deliver, published, 0, q, err)
  {
    assert published + handed[..0] == published;
  }

  // ---- every call ----

  /** Whether the call starts a new incarnation. */
  predicate Begins(p: Publisher, call: Call) {
    call.OpenCall? && call.negotiated.Present() && !Active(p)
  }

  /** The stream a call speaks on, the deliver function in force and the events it is to emit. */
  datatype Speech = Speech(stream: Stream, deliver: Option<Json -> bool>, events: seq<Event>)

  function SpeechOf(p: Publisher, call: Call): Speech
    requires Begins(p, call) || Active(p)
  {
    if Begins(p, call) then
      Speech(NewStream(call.id, call.negotiated), call.deliver, [SnapshotOf(Name("cycle", Count(p.counter)))])
    else Speech(p.stream.value, p.deliver, Emissions(p, call))
  }

  /**
   A call on an open incarnation, or one that opens it, publishes exactly the envelopes its stream hands back that
   the deliver function takes before the first it does not; it reports that failed delivery, or the refused event,
   and then the incarnation has ended. An opening puts its own deliver function in force.
   */
  lemma CallHandsOver(p: Publisher, call: Call) returns (n: nat)
    requires Begins(p, call) || Active(p)
    requires !call.FenceCall? && !Foreign(p, call)
    ensures var s := SpeechOf(p, call);
            HandsOver(s.stream, HandedBack(s.stream, s.events), |s.events|, s.deliver, p.published, n,
                      Perform(p, call).0, Perform(p, call).1)
  {
    if Begins(p, call) {
      var speaker := Publisher(Some(NewStream(call.id, call.negotiated)), Count(p.counter), map[], call.deliver,
                              p.published);
      EmitAllOne(speaker, SnapshotOf(Name("cycle", Count(p.counter))));
      n := EmitAllHandsOver(speaker, [SnapshotOf(Name("cycle", Count(p.counter)))]);
    } else if call.OpenCall? {
      n := 0;
    } else {
      CallEmits(p, call);
      n := EmitAllHandsOver(p, Emissions(p, call));
    }
  }

  /** A call that finds nothing open and opens nothing says nothing. */
  lemma SilentCall(p: Publisher, call: Call)
    requires !Begins(p, call) && !Active(p)
    ensures var (q, err) := Perform(p, call);
            err.None? && q.published == p.published && q.deliver == p.deliver && !Active(q)
  {
    if !call.OpenCall? && !call.FenceCall? { CallEmits(p, call); }
  }

  // ---- failures ----

  predicate Failure(err: Option<PublishError>) {
    err == Some(EventRefused) || err == Some(DeliveryFailed)
  }

  /** The call speaks, and its stream refuses one of the events or the deliver function one of the envelopes. */
  ghost predicate Fails(p: Publisher, call: Call) {
    && (Begins(p, call) || Active(p)) && !call.FenceCall? && !Foreign(p, call)
    && var s := SpeechOf(p, call);
       var handed := HandedBack(s.stream, s.events);
       |handed| < |s.events| || exists i | 0 <= i < |handed| :: !Takes(s.deliver, handed[i])
  }

  /** A call reports a failure exactly when it fails, and then its incarnation has ended. */
  lemma FailureReported(p: Publisher, call: Call)
    ensures var (q, err) := Perform(p, call);
            && (Failure(err) <==> Fails(p, call))
            && (Fails(p, call) ==> q.stream.Some? && !Active(q) && q.stream.value.id == SpeechOf(p, call).stream.id)
  {
    if !Begins(p, call) && !Active(p) {
      SilentCall(p, call);
    } else if Foreign(p, call) {
      CallEmits(p, call);
    } else if !call.FenceCall? {
      var n := CallHandsOver(p, call);
      var s := SpeechOf(p, call);
      OverOrFailed(s.stream, HandedBack(s.stream, s.events), |s.events|, s.deliver, p.published, n, Perform(p, call).0,
                   Perform(p, call).1);
    }
  }

  lemma OverOrFailed(s: Stream, handed: seq<Json>, events: nat, deliver: Option<Json -> bool>, published: seq<Json>,
                     n: nat, q: Publisher, err: Option<PublishError>)
    requires HandsOver(s, handed, events, deliver, published, n, q, err) && |handed| <= events
    ensures Failure(err) <==> |handed| < events || exists i | 0 <= i < |handed| :: !Takes(deliver, handed[i])
    ensures Failure(err) ==> q.stream.Some? && !Active(q) && q.stream.value.id == s.id
  {
  }

  /**
   A refused event or a failed delivery, whichever call meets it, ends the incarnation for good: nothing more is
   published on its stream, whatever is called afterwards, unless an opening names it again.
   */
  lemma FailureEndsForGood(calls: seq<Call>, call: Call, more: seq<Call>, negotiated: Negotiated)
    requires Fails(After(calls), call)
    ensures var p, id := After(calls + [call]), SpeechOf(After(calls), call).stream.id;
            id !in Used(more) ==> Ended(After(calls + [call] + more), id, |p.published|, negotiated)
  {
    FailureReported(After(calls), call);
    AfterMore(calls, [call]);
    assert [call][..0] == [] && calls + [] == calls;
    if SpeechOf(After(calls), call).stream.id !in Used(more) { EndedForGood(calls + [call], more, negotiated); }
  }
}
