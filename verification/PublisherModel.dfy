/**
 What each publisher call does, as a function of its whole state
 (lifecycle/publisher.go, lifecycle/emit.go).

 `published` lists the envelopes the publisher handed out without an error, oldest first. The caller's
 deliver function is any function from an envelope to success; no two envelopes of a stream are equal, so
 it can fail at any chosen point.
 */
module PublisherModel {
  import opened Wrappers
  import opened Numerals
  import opened Values
  import opened Events
  import opened ReducerModel
  import opened Wire

  /** One incarnation's ordered emitter. */
  datatype Stream = Stream(id: string, core: Core, sequence: nat)

  datatype Cycle = Cycle(turnId: string, cycleId: string, origin: Cause, incarnation: string)

  datatype SubmissionId = SubmissionId(submissionId: string, clientNonce: string, runId: string)

  datatype PublishError = EventRefused | DeliveryFailed | ForeignCycle

  datatype Publisher = Publisher(
    stream: Option<Stream>, counter: nat, blockers: map<string, string>, deliver: Option<Json -> bool>,
    published: seq<Json>)

  function Zero(): Publisher {
    Publisher(None, 0, map[], None, [])
  }

  /** newStream: a validating reducer that keeps no frames. */
  function NewStream(id: string, negotiated: Negotiated): Stream {
    Stream(id, New(negotiated).(frames := None), 0)
  }

  predicate Active(p: Publisher) {
    p.stream.Some? && !p.stream.value.core.state.closed
  }

  function Name(kind: string, n: nat): string {
    kind + "-" + Digits(n)
  }

  /** A uint64 counter: the successor of its largest value is zero. */
  function Count(n: nat): nat {
    if n + 1 < UINT64_BOUND then n + 1 else 0
  }

  function NextID(p: Publisher, kind: string): (Publisher, string) {
    (p.(counter := Count(p.counter)), Name(kind, Count(p.counter)))
  }

  function Fence(p: Publisher): Publisher {
    if p.stream.None? then p
    else p.(stream := Some(p.stream.value.(core := Close(p.stream.value.core))))
  }

  /** stream.emit: the sequence is consumed whatever happens; the envelope is handed back only if it reduced. */
  function StreamEmit(s: Stream, e: Event): (r: (Stream, Option<Json>))
  {
    var next := s.(sequence := Count(s.sequence));
    var envelope := Envelope(s.id, next.sequence, e);
    match Decode(Some(Notification(envelope)), s.core.negotiated)
    case Err(_) => (next, None)
    case Ok(d) =>
      var core := Reduce(s.core, d);
      (next.(core := core), if core.failed.Some? then None else Some(envelope))
  }

  function Emit(p: Publisher, e: Event): (Publisher, Option<PublishError>)
    requires p.stream.Some?
  {
    var (stream, envelope) := StreamEmit(p.stream.value, e);
    HandOut(p.(stream := Some(stream)), envelope)
  }

  /** What becomes of an emission: a refused event or a failed delivery fences the incarnation. */
  function HandOut(p: Publisher, envelope: Option<Json>): (Publisher, Option<PublishError>) {
    if envelope.None? then (Fence(p), Some(EventRefused))
    else if p.deliver.Some? && !p.deliver.value(envelope.value) then (Fence(p), Some(DeliveryFailed))
    else (p.(published := p.published + [envelope.value]), None)
  }

  // ---- the events the publisher builds ----

  function SnapshotOf(cycleId: string): Event {
    SnapshotEvent(Snapshot(Foreground(Idle, cycleId, "", NoCause), [], []))
  }

  function AcceptedOf(s: SubmissionId, turnId: string): Event {
    AcceptedEvent(PromptAccepted(s.submissionId, s.clientNonce, turnId, s.runId))
  }

  function TransitionOf(state: ForegroundState, c: Cycle): Event {
    StateEvent(Transition(state, c.cycleId, c.turnId, c.origin, "", NoOutcome))
  }

  function IdleOf(c: Cycle, stopReason: string, outcome: Outcome): Event {
    StateEvent(Transition(Idle, c.cycleId, c.turnId, c.origin, stopReason, outcome))
  }

  function PendingOf(actionId: string, kind: ActionKind, turnId: string): Event {
    ActionEvent(ActionUpdate(actionId, kind, ActionPending, Owner(OwnerTurn, turnId), "", Some(true)))
  }

  function ResolvedOf(actionId: string, state: ActionState): Event {
    ActionEvent(ActionUpdate(actionId, NoActionKind, state, Owner(NoOwner, ""), "", None))
  }

  /** blockedBy, before sorting. */
  function BlockedBy(blockers: map<string, string>, cycleId: string): set<string> {
    set id | id in blockers && blockers[id] == cycleId
  }

  // ---- the calls ----

  function Open(p: Publisher, id: string, negotiated: Negotiated, deliver: Option<Json -> bool>)
    : (Publisher, Option<PublishError>)
  {
    if !negotiated.Present() || Active(p) then (p, None)
    else
      var counter := Count(p.counter);
      Emit(Publisher(Some(NewStream(id, negotiated)), counter, map[], deliver, p.published),
           SnapshotOf(Name("cycle", counter)))
  }

  /** A turn and a cycle take the next two names. */
  function NextCycle(p: Publisher, origin: Cause, incarnation: string): Cycle {
    Cycle(Name("turn", Count(p.counter)), Name("cycle", Count(Count(p.counter))), origin, incarnation)
  }

  function CountedTwice(p: Publisher): Publisher {
    p.(counter := Count(Count(p.counter)))
  }

  /** An acceptance with its names: the turn it introduces, then the cycle that runs it. */
  function EmitAcceptance(p: Publisher, s: SubmissionId, cycle: Cycle): (Publisher, Option<PublishError>)
    requires p.stream.Some?
  {
    var (p1, err) := Emit(p, AcceptedOf(s, cycle.turnId));
    if err.Some? then (p1, err) else Emit(p1, TransitionOf(Running, cycle))
  }

  function Accept(p: Publisher, c: Cycle, s: SubmissionId): (Publisher, Cycle, Option<PublishError>) {
    if !Active(p) then (p, c, None)
    else
      var cycle := NextCycle(p, Submission, c.incarnation);
      var (p1, err) := EmitAcceptance(CountedTwice(p), s, cycle);
      (p1, cycle, err)
  }

  function NewAgentCycle(p: Publisher): (Publisher, Cycle) {
    if !Active(p) then (p, Cycle("", "", Activity, ""))
    else (CountedTwice(p), NextCycle(p, Activity, p.stream.value.id))
  }

  predicate BelongsHere(p: Publisher, c: Cycle)
    requires p.stream.Some?
  {
    c.incarnation == p.stream.value.id && c.origin.Activity? && c.turnId != "" && c.cycleId != ""
  }

  function OpenAgentCycle(p: Publisher, c: Cycle): (Publisher, Option<PublishError>) {
    if !Active(p) then (p, None)
    else if !BelongsHere(p, c) then (p, Some(ForeignCycle))
    else Emit(p, TransitionOf(Running, c))
  }

  /** The cycle's first blocker moves it to requires_action. */
  function RequireAction(p: Publisher, c: Cycle): (Publisher, Option<PublishError>)
    requires p.stream.Some?
  {
    if BlockedBy(p.blockers, c.cycleId) == {} then Emit(p, TransitionOf(RequiresAction, c)) else (p, None)
  }

  function PendAction(p: Publisher, c: Cycle, actionId: string, kind: ActionKind)
    : (Publisher, Option<PublishError>)
  {
    if !Active(p) || c.turnId == "" then (p, None)
    else
      var (p1, err) := Emit(p, PendingOf(actionId, kind, c.turnId));
      if err.Some? then (p1, err)
      else
        var (p2, err2) := RequireAction(p1, c);
        if err2.Some? then (p2, err2) else (p2.(blockers := p2.blockers[actionId := c.cycleId]), None)
  }

  function ResolveAction(p: Publisher, c: Cycle, actionId: string, state: ActionState)
    : (Publisher, Option<PublishError>)
  {
    if actionId !in p.blockers || p.blockers[actionId] != c.cycleId || !Active(p) then (p, None)
    else
      var (p1, err) := Emit(p.(blockers := p.blockers - {actionId}), ResolvedOf(actionId, state));
      if err.Some? || BlockedBy(p1.blockers, c.cycleId) != {} then (p1, err)
      else Emit(p1, TransitionOf(Running, c))
  }

  /** The cancellations Idle emits, in order, stopping at the first error. */
  function CancelAll(p: Publisher, ids: seq<string>): (Publisher, Option<PublishError>)
    requires p.stream.Some?
    decreases |ids|
  {
    if ids == [] then (p, None)
    else
      var (p1, err) := CancelOne(p, ids[0]);
      if err.Some? then (p1, err) else CancelAll(p1, ids[1..])
  }

  function CancelOne(p: Publisher, actionId: string): (Publisher, Option<PublishError>)
    requires p.stream.Some?
  {
    var (p1, err) := Emit(p, ResolvedOf(actionId, ActionCancelled));
    if err.Some? then (p1, err) else (p1.(blockers := p1.blockers - {actionId}), None)
  }

  lemma {:induction false} CancelAllKeepsStream(p: Publisher, ids: seq<string>)
    requires p.stream.Some?
    ensures CancelAll(p, ids).0.stream.Some?
    decreases |ids|
  {
    if ids != [] {
      CancelAllKeepsStream(CancelOne(p, ids[0]).0, ids[1..]);
    }
  }

  function EndIdle(p: Publisher, c: Cycle, stopReason: string, outcome: Outcome): (Publisher, Option<PublishError>) {
    if !Active(p) || c.turnId == "" then (p, None)
    else
      var ids := SortedKeys(BlockedBy(p.blockers, c.cycleId));
      CancelAllKeepsStream(p, ids);
      var (p1, err) := CancelAll(p, ids);
      if err.Some? then (p1, err)
      else Emit(p1, IdleOf(c, if outcome.Failed? then "" else stopReason, outcome))
  }
}
