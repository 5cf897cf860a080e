/**
 A consumer that reduces what a publisher delivered agrees with the publisher (lifecycle/emit.go,
 lifecycle/publisher.go): over any calls at all, whatever they are given, as long as no stream identity
 is used twice.
 */
module Agreement {
  import opened Wrappers
  import opened Numerals
  import opened Values
  import opened Events
  import opened ReducerModel
  import opened ReducerInvariant
  import opened ReducerRuns
  import opened Retransmission
  import opened Wire
  import opened WireRoundTrip
  import opened PublisherModel
  import opened PublisherRuns

  // ---- the consumer ----

  /** The delivery a consumer reads off an envelope. */
  function Received(envelope: Json, negotiated: Negotiated): Option<Delivery> {
    match Decode(Some(Notification(envelope)), negotiated)
    case Ok(d) => Some(d)
    case Err(_) => None
  }

  /** A consumer reducer of its own, fed the envelopes in order. */
  function Consume(negotiated: Negotiated, envelopes: seq<Json>): Core {
    if envelopes == [] then New(negotiated)
    else
      var before := Consume(negotiated, envelopes[..|envelopes| - 1]);
      match Decode(Some(Notification(envelopes[|envelopes| - 1])), negotiated)
      case Ok(d) => Reduce(before, d)
      case Err(RefusedFrame(v)) => RefuseFrame(before, v)
      case Err(NoEnvelope) => before
  }

  lemma ConsumeOne(negotiated: Negotiated, envelopes: seq<Json>, envelope: Json)
    requires Received(envelope, negotiated).Some?
    ensures Consume(negotiated, envelopes + [envelope])
            == Reduce(Consume(negotiated, envelopes), Received(envelope, negotiated).value)
  {
    assert (envelopes + [envelope])[..|envelopes|] == envelopes;
  }

  predicate AllReceived(envelopes: seq<Json>, negotiated: Negotiated) {
    forall i | 0 <= i < |envelopes| :: Received(envelopes[i], negotiated).Some?
  }

  function Heard(envelopes: seq<Json>, negotiated: Negotiated): (heard: seq<Delivery>)
    requires AllReceived(envelopes, negotiated)
    ensures |heard| == |envelopes|
  {
    seq(|envelopes|, i requires 0 <= i < |envelopes| => Received(envelopes[i], negotiated).value)
  }

  lemma HeardOne(envelopes: seq<Json>, envelope: Json, negotiated: Negotiated)
    requires AllReceived(envelopes, negotiated) && Received(envelope, negotiated).Some?
    ensures AllReceived(envelopes + [envelope], negotiated)
    ensures Heard(envelopes + [envelope], negotiated)
            == Heard(envelopes, negotiated) + [Received(envelope, negotiated).value]
  {
    forall i | 0 <= i <= |envelopes| ensures Received((envelopes + [envelope])[i], negotiated).Some? {
      if i < |envelopes| { assert (envelopes + [envelope])[i] == envelopes[i]; }
    }
  }

  predicate Starts(ds: seq<Delivery>, i: nat)
    requires i < |ds|
  {
    i == 0 || ds[i - 1].streamId != ds[i].streamId
  }

  /** Each stream is one contiguous stretch numbered 1, 2, 3 and so on. */
  predicate Numbered(ds: seq<Delivery>) {
    && (forall i | 0 <= i < |ds| :: Starts(ds, i) ==> ds[i].sequence == 1)
    && (forall i, j | 0 <= i < j < |ds| ::
          ds[i].streamId == ds[j].streamId ==> ds[j].sequence == ds[i].sequence + (j - i))
  }

  /** The next delivery of the last stream, or the first of a new one. */
  predicate Continuing(ds: seq<Delivery>, d: Delivery) {
    var n := |ds|;
    if n > 0 && ds[n - 1].streamId == d.streamId then d.sequence == ds[n - 1].sequence + 1
    else d.sequence == 1 && forall i | 0 <= i < n :: ds[i].streamId != d.streamId
  }

  lemma NumberedExtends(ds: seq<Delivery>, d: Delivery)
    requires Numbered(ds) && Continuing(ds, d)
    ensures Numbered(ds + [d])
  {
    var all, n := ds + [d], |ds|;
    forall i | 0 <= i <= n && Starts(all, i) ensures all[i].sequence == 1 {
      FirstHas(ds, d, i);
    }
    forall i, j | 0 <= i < j <= n && all[i].streamId == all[j].streamId
      ensures all[j].sequence == all[i].sequence + (j - i)
    {
      LaterHas(ds, d, i, j);
    }
  }

  lemma FirstHas(ds: seq<Delivery>, d: Delivery, i: nat)
    requires Numbered(ds) && Continuing(ds, d) && i <= |ds|
    requires Starts(ds + [d], i)
    ensures (ds + [d])[i].sequence == 1
  {
    assert i > 0 ==> (ds + [d])[i - 1] == ds[i - 1];
    if i < |ds| { assert (ds + [d])[i] == ds[i] && Starts(ds, i); }
  }

  lemma LaterHas(ds: seq<Delivery>, d: Delivery, i: nat, j: nat)
    requires Numbered(ds) && Continuing(ds, d) && i < j <= |ds|
    requires (ds + [d])[i].streamId == (ds + [d])[j].streamId
    ensures (ds + [d])[j].sequence == (ds + [d])[i].sequence + (j - i)
  {
    var n := |ds|;
    assert (ds + [d])[i] == ds[i];
    if j < n {
      assert (ds + [d])[j] == ds[j];
    } else {
      assert ds[i].streamId == d.streamId;
      assert ds[n - 1].streamId == d.streamId;
      if i < n - 1 { assert ds[n - 1].sequence == ds[i].sequence + (n - 1 - i); }
    }
  }

  // ---- one event, judged twice ----

  /** The same reducer, but for the digests it retained and the streams it retired. */
  predicate Alike(k: Core, c: Core) {
    k == Rekey(c, Books(c.state.suppressed, k.frames, k.retired))
  }

  lemma EnvelopeDecodes(id: string, n: nat, e: Event, negotiated: Negotiated)
    requires n < UINT64_BOUND
    ensures var d := Received(Envelope(id, n, e), negotiated);
            d.Some? ==> d.value.streamId == id && d.value.sequence == n && n > 0 && d.value.carrier.CarrierSessionInfo?
  {
    NotificationRead(Envelope(id, n, e));
    SequenceRead(EnvelopeMembers(id, n, EncodeEvent(e)), n);
  }

  lemma SequenceRead(f: Members, n: nat)
    requires n < UINT64_BOUND && "sequence" in f && f["sequence"] == JNumber(Digits(n))
    ensures SequenceValue(f) == n
  {
  }

  lemma AlikeNext(k: Core, c: Core, d: Delivery)
    requires Alike(k, c) && NextInStream(c, d) && Reduce(c, d).failed.None?
    ensures var k1 := Reduce(k, d);
            && Alike(k1, Reduce(c, d)) && k1.retired == k.retired && k1.state.suppressed == k.state.suppressed
    ensures SameStart(c, Reduce(c, d))
  {
    NextIsCommitted(c, d);
    NextIsCommitted(k, d);
    ApplyRekey(c, d, Books(c.state.suppressed, k.frames, k.retired));
    ApplyFrame(c, d);
    ApplyFrame(k, d);
  }

  predicate SameStart(c: Core, c1: Core) {
    && c1.started == c.started && c1.base == c.base && c1.negotiated == c.negotiated
    && c1.state.streamId == c.state.streamId && c1.state.closed == c.state.closed
  }

  lemma {:induction false} RecordActionsRekey(c: Core, actions: seq<ActionUpdate>, k: Books)
    requires forall i | 0 <= i < |actions| :: actions[i].blocksForeground.Some?
    ensures RecordActions(Rekey(c, k), actions) == Rekey(RecordActions(c, actions), k)
  {
    if actions != [] {
      var rest := actions[..|actions| - 1];
      RecordActionsRekey(c, rest, k);
      RecordActionRekey(RecordActions(c, rest), actions[|actions| - 1], k);
    }
  }

  lemma SnapshotRekey(c: Core, d: Delivery, k: Books)
    requires d.event.Opens()
    ensures ApplySnapshot(Rekey(c, k), d) == Rekey(ApplySnapshot(c, d), k)
  {
    if !d.event.Unusable? && SnapshotDefect(c.negotiated, d.event.snapshot).None? {
      var s := d.event.snapshot;
      StatedBlocking(s);
      RecordActionsRekey(ProjectTree(c, s), s.actions, k);
      assert ProjectTree(Rekey(c, k), s) == Rekey(ProjectTree(c, s), k);
    }
  }

  lemma FirstRekey(c: Core, d: Delivery, k: Books)
    requires c.failed.None? && ReduceFirst(c, d).failed.None? && k.suppressed == c.state.suppressed
    ensures var k1, c1 := ReduceFirst(Rekey(c, k), d), ReduceFirst(c, d);
            && k1.failed.None? && Alike(k1, c1) && k1.retired == k.retired && Opened(c, c1, d)
            && c1.state.suppressed == c.state.suppressed
  {
    var named := c.(state := c.state.(streamId := d.streamId), started := true, base := d.sequence);
    SnapshotRekey(named, d, k);
    SnapshotFrame(named, d);
    SnapshotFrame(Rekey(named, k), d);
  }

  /** What the first accepted delivery of an incarnation fixes. */
  predicate Opened(c: Core, c1: Core, d: Delivery) {
    && c1.started && c1.base == d.sequence && c1.state.reducedThrough == d.sequence
    && c1.state.streamId == d.streamId && c1.state.closed == c.state.closed && c1.negotiated == c.negotiated
  }

  lemma SnapshotFrame(c: Core, d: Delivery)
    requires d.event.Opens()
    ensures SameFrame(c, ApplySnapshot(c, d))
  {
    if !d.event.Unusable? && SnapshotDefect(c.negotiated, d.event.snapshot).None? {
      var s := d.event.snapshot;
      StatedBlocking(s);
      RecordActionsFrame(ProjectTree(c, s), s.actions);
    }
  }

  /** A consumer ready for a stream it has not seen. */
  predicate Listening(k: Core, id: string, negotiated: Negotiated) {
    && k.failed.None? && !k.state.closed && k.negotiated == negotiated && k.state.suppressed == 0
    && (if k.started then k.state.streamId != id && id !in k.retired else k == New(negotiated))
  }

  /** A stream that has opened, and a consumer that agrees with its reducer. */
  predicate Speaking(s: Stream, k: Core, negotiated: Negotiated) {
    && s.core.failed.None? && !s.core.state.closed && s.core.started && s.core.negotiated == negotiated
    && s.core.state.streamId == s.id && s.core.state.reducedThrough == s.sequence && s.core.base == 1
    && 1 <= s.sequence < UINT64_BOUND
    && Alike(k, s.core)
  }

  /** The first delivery of an unseen stream leaves the consumer as if it had been new. */
  lemma ListeningReduces(k: Core, c: Core, id: string, negotiated: Negotiated, d: Delivery)
    requires Listening(k, id, negotiated) && c == New(negotiated).(frames := None)
    requires d.streamId == id && d.carrier.CarrierSessionInfo? && ReduceFirst(c, d).failed.None?
    ensures var k1 := Reduce(k, d);
            && k1.failed.None? && Alike(k1, ReduceFirst(c, d)) && !k1.state.closed && k1.state.suppressed == 0
            && k1.retired <= k.retired + (if k.started then {k.state.streamId} else {})
            && Opened(c, ReduceFirst(c, d), d)
  {
    if k.started {
      var fresh0 := Reset(negotiated, k.retired, id);
      var named := New(negotiated).(retired := k.retired);
      assert ReduceFirst(fresh0, d) == ReduceFirst(named, d);
      assert named == Rekey(c, Books(0, Some(map[]), k.retired));
      FirstRekey(c, d, Books(0, Some(map[]), k.retired));
    } else {
      assert k == Rekey(c, Books(0, Some(map[]), {}));
      FirstRekey(c, d, Books(0, Some(map[]), {}));
    }
  }

  /** The delivery is the stream's next, and the consumer that reduced it agrees. */
  predicate Spoke(s: Stream, k: Core, s1: Stream, d: Delivery, k1: Core, negotiated: Negotiated) {
    && d.streamId == s.id && d.sequence == s.sequence + 1 && s1.id == s.id && s1.sequence == s.sequence + 1
    && Speaking(s1, k1, negotiated) && k1.state.suppressed == k.state.suppressed
    && k1.retired <= k.retired + (if k.started then {k.state.streamId} else {})
  }

  lemma FirstSpoken(id: string, e: Event, k: Core, negotiated: Negotiated)
    requires Listening(k, id, negotiated)
    ensures var (s1, envelope) := StreamEmit(NewStream(id, negotiated), e);
            envelope.Some? ==>
              && Received(envelope.value, negotiated).Some?
              && var d := Received(envelope.value, negotiated).value;
                 Spoke(NewStream(id, negotiated), k, s1, d, Reduce(k, d), negotiated)
  {
    var s := NewStream(id, negotiated);
    var envelope := Envelope(id, 1, e);
    EnvelopeDecodes(id, 1, e, negotiated);
    if Received(envelope, negotiated).Some? {
      var d := Received(envelope, negotiated).value;
      if ReduceFirst(s.core, d).failed.None? {
        ListeningReduces(k, s.core, id, negotiated, d);
      }
    }
  }

  lemma NextSpoken(s: Stream, e: Event, k: Core, negotiated: Negotiated)
    requires Speaking(s, k, negotiated)
    ensures var (s1, envelope) := StreamEmit(s, e);
            envelope.Some? ==>
              && Received(envelope.value, negotiated).Some?
              && var d := Received(envelope.value, negotiated).value; Spoke(s, k, s1, d, Reduce(k, d), negotiated)
  {
    var n := Count(s.sequence);
    EnvelopeDecodes(s.id, n, e, negotiated);
    if Received(Envelope(s.id, n, e), negotiated).Some? {
      var d := Received(Envelope(s.id, n, e), negotiated).value;
      assert n == s.sequence + 1;
      if !d.event.Opens() && Reduce(s.core, d).failed.None? {
        AlikeNext(k, s.core, d);
      }
    }
  }

  // ---- what each call emits ----

  type Emission = (Publisher, Option<PublishError>)

  /** Emissions in order, up to the first error, which is reported. */
  function EmitAll(p: Publisher, events: seq<Event>): Emission
    decreases |events|
  {
    if events == [] || p.stream.None? then (p, None)
    else
      var (p1, err) := Emit(p, events[0]);
      if err.Some? then (p1, err) else EmitAll(p1, events[1..])
  }

  function Cancellations(ids: seq<string>): seq<Event> {
    seq(|ids|, i requires 0 <= i < |ids| => ResolvedOf(ids[i], ActionState.ActionCancelled))
  }

  /** The events of a call on an open incarnation, an opening apart. */
  function Emissions(p: Publisher, call: Call): seq<Event> {
    if !Active(p) then []
    else
      match call
      case AcceptCall(c, s) =>
        var y := NextCycle(p, Submission, c.incarnation); [AcceptedOf(s, y.turnId), TransitionOf(Running, y)]
      case OpenAgentCall(c) => if BelongsHere(p, c) then [TransitionOf(Running, c)] else []
      case PendCall(c, id, kind) =>
        if c.turnId == "" then []
        else [PendingOf(id, kind, c.turnId)]
             + if BlockedBy(p.blockers, c.cycleId) == {} then [TransitionOf(RequiresAction, c)] else []
      case ResolveCall(c, id, state) =>
        if id !in p.blockers || p.blockers[id] != c.cycleId then []
        else [ResolvedOf(id, state)]
             + if BlockedBy(p.blockers - {id}, c.cycleId) == {} then [TransitionOf(Running, c)] else []
      case IdleCall(c, stopReason, outcome) =>
        if c.turnId == "" then []
        else Cancellations(SortedKeys(BlockedBy(p.blockers, c.cycleId)))
             + [IdleOf(c, if outcome.Failed? then "" else stopReason, outcome)]
      case _ => []
  }

  /** The same stream and the same published envelopes. */
  ghost predicate SameSpeech(p: Publisher, q: Publisher) {
    p.stream == q.stream && p.published == q.published && p.deliver == q.deliver
  }

  ghost predicate SameEmission(a: Emission, b: Emission) {
    SameSpeech(a.0, b.0) && a.1 == b.1
  }

  lemma EmitSpeech(p: Publisher, q: Publisher, e: Event)
    requires SameSpeech(p, q) && p.stream.Some?
    ensures SameSpeech(Emit(p, e).0, Emit(q, e).0) && Emit(p, e).1 == Emit(q, e).1
    ensures Emit(p, e).0.stream.Some?
  {
  }

  lemma {:induction false} EmitAllSpeech(p: Publisher, q: Publisher, events: seq<Event>)
    requires SameSpeech(p, q)
    ensures SameEmission(EmitAll(p, events), EmitAll(q, events))
    decreases |events|
  {
    if events != [] && p.stream.Some? {
      EmitSpeech(p, q, events[0]);
      if Emit(p, events[0]).1.None? {
        EmitAllSpeech(Emit(p, events[0]).0, Emit(q, events[0]).0, events[1..]);
      }
    }
  }

  lemma EmitAllOne(p: Publisher, e: Event)
    requires p.stream.Some?
    ensures EmitAll(p, [e]) == Emit(p, e)
  {
    assert [e][1..] == [];
  }

  lemma EmitAllTwo(p: Publisher, e: Event, f: Event)
    requires p.stream.Some?
    ensures var (p1, err) := Emit(p, e); EmitAll(p, [e, f]) == if err.Some? then (p1, err) else Emit(p1, f)
  {
    assert [e, f][1..] == [f];
    var (p1, err) := Emit(p, e);
    if err.None? {
      EmitKeepsBlockers(p, e);
      EmitAllOne(p1, f);
    }
  }

  lemma EmitAllOneOrTwo(p: Publisher, e: Event, more: bool, f: Event)
    requires p.stream.Some?
    ensures var (p1, err) := Emit(p, e);
            EmitAll(p, [e] + if more then [f] else []) == if err.Some? || !more then (p1, err) else Emit(p1, f)
  {
    if more {
      EmitAllTwo(p, e, f);
      assert [e] + [f] == [e, f];
    } else {
      EmitAllOne(p, e);
      assert [e] + [] == [e];
    }
  }

  lemma AcceptEmits(p: Publisher, c: Cycle, s: SubmissionId)
    requires Active(p)
    ensures SameEmission(Perform(p, AcceptCall(c, s)), EmitAll(p, Emissions(p, AcceptCall(c, s))))
  {
    var y := NextCycle(p, Submission, c.incarnation);
    EmitAllTwo(CountedTwice(p), AcceptedOf(s, y.turnId), TransitionOf(Running, y));
    EmitAllSpeech(CountedTwice(p), p, [AcceptedOf(s, y.turnId), TransitionOf(Running, y)]);
  }

  lemma EmitKeepsBlockers(p: Publisher, e: Event)
    requires p.stream.Some?
    ensures Emit(p, e).0.blockers == p.blockers && Emit(p, e).0.stream.Some?
  {
  }

  lemma PendEmits(p: Publisher, c: Cycle, id: string, kind: ActionKind)
    requires Active(p) && c.turnId != ""
    ensures SameEmission(PendAction(p, c, id, kind), EmitAll(p, Emissions(p, PendCall(c, id, kind))))
  {
    var first := BlockedBy(p.blockers, c.cycleId) == {};
    PendingIs(p, c, id, kind);
    EmitAllOneOrTwo(p, PendingOf(id, kind, c.turnId), first, TransitionOf(RequiresAction, c));
  }

  lemma PendingIs(p: Publisher, c: Cycle, id: string, kind: ActionKind)
    requires Active(p) && c.turnId != ""
    ensures var first := BlockedBy(p.blockers, c.cycleId) == {};
            var (p1, err) := Emit(p, PendingOf(id, kind, c.turnId));
            SameEmission(PendAction(p, c, id, kind),
                         if err.Some? || !first then (p1, err) else Emit(p1, TransitionOf(RequiresAction, c)))
  {
    EmitKeepsBlockers(p, PendingOf(id, kind, c.turnId));
  }

  lemma ResolveEmits(p: Publisher, c: Cycle, id: string, state: ActionState)
    requires Active(p) && id in p.blockers && p.blockers[id] == c.cycleId
    ensures SameEmission(ResolveAction(p, c, id, state), EmitAll(p, Emissions(p, ResolveCall(c, id, state))))
  {
    var q, events := p.(blockers := p.blockers - {id}), Emissions(p, ResolveCall(c, id, state));
    ResolveIsTwo(q, c, id, state);
    ResolutionIs(p, q, c, id, state);
    ResolutionSays(p, q, c, id, state);
    EmitAllSpeech(q, p, events);
  }

  lemma ResolutionIs(p: Publisher, q: Publisher, c: Cycle, id: string, state: ActionState)
    requires Active(p) && id in p.blockers && p.blockers[id] == c.cycleId && q == p.(blockers := p.blockers - {id})
    ensures var (p1, err) := Emit(q, ResolvedOf(id, state));
            ResolveAction(p, c, id, state)
            == if err.Some? || BlockedBy(p1.blockers, c.cycleId) != {} then (p1, err)
               else Emit(p1, TransitionOf(Running, c))
  {
  }

  lemma ResolutionSays(p: Publisher, q: Publisher, c: Cycle, id: string, state: ActionState)
    requires Active(p) && id in p.blockers && p.blockers[id] == c.cycleId && q == p.(blockers := p.blockers - {id})
    ensures Emissions(p, ResolveCall(c, id, state))
            == [ResolvedOf(id, state)]
               + if BlockedBy(q.blockers, c.cycleId) == {} then [TransitionOf(Running, c)] else []
  {
  }

  lemma ResolveIsTwo(q: Publisher, c: Cycle, id: string, state: ActionState)
    requires q.stream.Some?
    ensures var more := BlockedBy(q.blockers, c.cycleId) == {};
            var (p1, err) := Emit(q, ResolvedOf(id, state));
            (if err.Some? || BlockedBy(p1.blockers, c.cycleId) != {} then (p1, err)
             else Emit(p1, TransitionOf(Running, c)))
            == EmitAll(q, [ResolvedOf(id, state)] + if more then [TransitionOf(Running, c)] else [])
  {
    EmitKeepsBlockers(q, ResolvedOf(id, state));
    EmitAllOneOrTwo(q, ResolvedOf(id, state), BlockedBy(q.blockers, c.cycleId) == {}, TransitionOf(Running, c));
  }

  lemma CancelHead(p: Publisher, ids: seq<string>, last: Event)
    requires p.stream.Some? && ids != []
    ensures var (p1, err) := CancelOne(p, ids[0]);
            && p1.stream.Some?
            && SameEmission(if err.Some? then (p1, err) else EmitAll(p1, Cancellations(ids[1..]) + [last]),
                            EmitAll(p, Cancellations(ids) + [last]))
  {
    var e := ResolvedOf(ids[0], ActionState.ActionCancelled);
    var events, rest := Cancellations(ids) + [last], Cancellations(ids[1..]) + [last];
    assert events[0] == e && events[1..] == rest;
    EmitKeepsBlockers(p, e);
    if CancelOne(p, ids[0]).1.None? {
      EmitAllSpeech(CancelOne(p, ids[0]).0, Emit(p, e).0, rest);
    }
  }

  lemma {:induction false} CancelsEmit(p: Publisher, ids: seq<string>, last: Event)
    requires p.stream.Some?
    ensures var (p1, err) := CancelAll(p, ids);
            && p1.stream.Some?
            && SameEmission(if err.Some? then (p1, err) else Emit(p1, last), EmitAll(p, Cancellations(ids) + [last]))
    decreases |ids|
  {
    CancelAllKeepsStream(p, ids);
    if ids == [] {
      EmitAllOne(p, last);
      assert Cancellations(ids) + [last] == [last];
    } else {
      var (p1, err) := CancelOne(p, ids[0]);
      CancelHead(p, ids, last);
      if err.None? {
        CancelsEmit(p1, ids[1..], last);
      }
    }
  }

  /** The call names a cycle of another incarnation, or none an agent opened. */
  predicate Foreign(p: Publisher, call: Call) {
    call.OpenAgentCall? && Active(p) && !BelongsHere(p, call.cycle)
  }

  /** Every call but an opening and a fence publishes exactly its emissions, and reports what they do. */
  lemma CallEmits(p: Publisher, call: Call)
    requires !call.OpenCall? && !call.FenceCall?
    ensures SameSpeech(Perform(p, call).0, EmitAll(p, Emissions(p, call)).0)
    ensures Perform(p, call).1 == if Foreign(p, call) then Some(ForeignCycle) else EmitAll(p, Emissions(p, call)).1
  {
    match call
    case AcceptCall(c, s) => if Active(p) { AcceptEmits(p, c, s); }
    case OpenAgentCall(c) => if Active(p) && BelongsHere(p, c) { EmitAllOne(p, TransitionOf(Running, c)); }
    case PendCall(c, id, kind) => if Active(p) && c.turnId != "" { PendEmits(p, c, id, kind); }
    case ResolveCall(c, id, state) =>
      if Active(p) && id in p.blockers && p.blockers[id] == c.cycleId { ResolveEmits(p, c, id, state); }
    case IdleCall(c, stopReason, outcome) =>
      if Active(p) && c.turnId != "" {
        CancelsEmit(p, SortedKeys(BlockedBy(p.blockers, c.cycleId)),
                    IdleOf(c, if outcome.Failed? then "" else stopReason, outcome));
      }
    case _ =>
  }

  // ---- runs ----

  /** The consumer has followed everything published, and agrees with an incarnation that is still open. */
  ghost predicate Following(p: Publisher, used: set<string>, negotiated: Negotiated) {
    AllReceived(p.published, negotiated) &&
    FollowingOn(p.stream, Heard(p.published, negotiated), Consume(negotiated, p.published), used, negotiated)
  }

  predicate FollowingOn(stream: Option<Stream>, heard: seq<Delivery>, k: Core, used: set<string>,
                        negotiated: Negotiated) {
    && Numbered(heard) && (forall i | 0 <= i < |heard| :: heard[i].streamId in used)
    && k.failed.None? && !k.state.closed && k.negotiated == negotiated && k.state.suppressed == 0
    && (if k.started then k.state.streamId in used && k.retired <= used else k == New(negotiated))
    && (stream.Some? && !stream.value.core.state.closed ==>
          && stream.value.id in used && Speaking(stream.value, k, negotiated) && Voiced(stream.value, heard))
  }

  /** The last envelope published is the open stream's latest. */
  predicate Voiced(s: Stream, heard: seq<Delivery>) {
    heard != [] && heard[|heard| - 1].streamId == s.id && heard[|heard| - 1].sequence == s.sequence
  }

  lemma SpokenFollowed(stream: Option<Stream>, heard: seq<Delivery>, k: Core, used: set<string>, negotiated: Negotiated,
                       s: Stream, s1: Stream, d: Delivery, k1: Core)
    requires FollowingOn(stream, heard, k, used, negotiated) && Continuing(heard, d)
    requires Spoke(s, k, s1, d, k1, negotiated) && s.id in used
    ensures FollowingOn(Some(s1), heard + [d], k1, used, negotiated)
  {
    NumberedExtends(heard, d);
  }

  /** One more envelope, published on the stream the consumer now speaks. */
  lemma PublishedFollowed(p: Publisher, s: Stream, s1: Stream, envelope: Json, q: Publisher, k1: Core,
                          used: set<string>, negotiated: Negotiated)
    requires Following(p, used, negotiated) && Received(envelope, negotiated).Some?
    requires q.published == p.published + [envelope] && q.stream == Some(s1)
    requires var d := Received(envelope, negotiated).value;
             && k1 == Reduce(Consume(negotiated, p.published), d)
             && Spoke(s, Consume(negotiated, p.published), s1, d, k1, negotiated)
             && Continuing(Heard(p.published, negotiated), d) && s.id in used
    ensures Following(q, used, negotiated)
  {
    var d := Received(envelope, negotiated).value;
    var k := Consume(negotiated, p.published);
    ConsumeOne(negotiated, p.published, envelope);
    HeardOne(p.published, envelope, negotiated);
    SpokenFollowed(p.stream, Heard(p.published, negotiated), k, used, negotiated, s, s1, d, k1);
  }

  /** An incarnation that is no longer open leaves the consumer where it stood. */
  lemma FencedFollowed(p: Publisher, q: Publisher, used: set<string>, negotiated: Negotiated)
    requires Following(p, used, negotiated) && q.published == p.published && !Active(q)
    ensures Following(q, used, negotiated)
  {
  }

  /** What an emission leaves: the envelope published on the next stream state, or a fenced incarnation. */
  predicate Outcome(p: Publisher, s1: Stream, envelope: Option<Json>, p1: Publisher, err: Option<PublishError>) {
    && (err.Some? ==> !Active(p1) && p1.published == p.published)
    && (err.None? ==> envelope.Some? && p1.stream == Some(s1) && p1.published == p.published + [envelope.value])
  }

  lemma EmitOutcome(p: Publisher, e: Event)
    requires p.stream.Some?
    ensures Outcome(p, StreamEmit(p.stream.value, e).0, StreamEmit(p.stream.value, e).1, Emit(p, e).0, Emit(p, e).1)
  {
  }

  /** An emission on an open incarnation is followed, or fences it. */
  lemma EmitFollowed(p: Publisher, e: Event, used: set<string>, negotiated: Negotiated)
    requires Following(p, used, negotiated) && Active(p)
    ensures Following(Emit(p, e).0, used, negotiated) && Active(Emit(p, e).0) == Emit(p, e).1.None?
  {
    var s := p.stream.value;
    EmitOutcome(p, e);
    EmitSpoken(p, e, used, negotiated);
    OutcomeFollowed(p, s, StreamEmit(s, e).0, StreamEmit(s, e).1, Emit(p, e).0, Emit(p, e).1, used, negotiated);
  }

  predicate SpokenNext(p: Publisher, s: Stream, s1: Stream, envelope: Json, negotiated: Negotiated) {
    AllReceived(p.published, negotiated) && Received(envelope, negotiated).Some? &&
    var d, k := Received(envelope, negotiated).value, Consume(negotiated, p.published);
    Spoke(s, k, s1, d, Reduce(k, d), negotiated) && Continuing(Heard(p.published, negotiated), d)
  }

  lemma EmitSpoken(p: Publisher, e: Event, used: set<string>, negotiated: Negotiated)
    requires Following(p, used, negotiated) && Active(p)
    ensures var (s1, envelope) := StreamEmit(p.stream.value, e);
            envelope.Some? ==> SpokenNext(p, p.stream.value, s1, envelope.value, negotiated)
  {
    NextSpoken(p.stream.value, e, Consume(negotiated, p.published), negotiated);
  }

  lemma OutcomeFollowed(p: Publisher, s: Stream, s1: Stream, envelope: Option<Json>, p1: Publisher,
                        err: Option<PublishError>, used: set<string>, negotiated: Negotiated)
    requires Following(p, used, negotiated) && Outcome(p, s1, envelope, p1, err)
    requires s.id in used && (envelope.Some? ==> SpokenNext(p, s, s1, envelope.value, negotiated))
    ensures Following(p1, used, negotiated) && Active(p1) == err.None?
  {
    if err.Some? {
      FencedFollowed(p, p1, used, negotiated);
    } else {
      var d := Received(envelope.value, negotiated).value;
      PublishedFollowed(p, s, s1, envelope.value, p1, Reduce(Consume(negotiated, p.published), d), used, negotiated);
    }
  }

  lemma {:induction false} EmitAllFollowed(p: Publisher, events: seq<Event>, used: set<string>, negotiated: Negotiated)
    requires Following(p, used, negotiated) && (Active(p) || events == [])
    ensures Following(EmitAll(p, events).0, used, negotiated)
    decreases |events|
  {
    if events != [] {
      EmitFollowed(p, events[0], used, negotiated);
      if Emit(p, events[0]).1.None? {
        EmitAllFollowed(Emit(p, events[0]).0, events[1..], used, negotiated);
      }
    }
  }

  lemma MoreUsed(p: Publisher, used: set<string>, id: string, negotiated: Negotiated)
    requires Following(p, used, negotiated)
    ensures Following(p, used + {id}, negotiated)
  {
  }

  lemma OpeningSpoken(p: Publisher, q: Publisher, id: string, e: Event, used: set<string>, negotiated: Negotiated)
    requires Following(p, used, negotiated) && id !in used && q.published == p.published
    requires q.stream == Some(NewStream(id, negotiated))
    ensures var (s1, envelope) := StreamEmit(q.stream.value, e);
            envelope.Some? ==> SpokenNext(p, q.stream.value, s1, envelope.value, negotiated)
  {
    var k := Consume(negotiated, p.published);
    assert Listening(k, id, negotiated);
    FirstSpoken(id, e, k, negotiated);
  }

  lemma OpenFollowed(p: Publisher, id: string, negotiated: Negotiated, deliver: Option<Json -> bool>, used: set<string>)
    requires Following(p, used, negotiated) && id !in used
    ensures Following(Open(p, id, negotiated, deliver).0, used + {id}, negotiated)
  {
    MoreUsed(p, used, id, negotiated);
    if negotiated.Present() && !Active(p) {
      var counter := Count(p.counter);
      var e := SnapshotOf(Name("cycle", counter));
      var q := Publisher(Some(NewStream(id, negotiated)), counter, map[], deliver, p.published);
      EmitOutcome(q, e);
      OpeningSpoken(p, q, id, e, used, negotiated);
      OutcomeFollowed(p, q.stream.value, StreamEmit(q.stream.value, e).0, StreamEmit(q.stream.value, e).1,
                      Emit(q, e).0, Emit(q, e).1, used + {id}, negotiated);
    }
  }

  lemma SpeechFollowed(p: Publisher, q: Publisher, used: set<string>, negotiated: Negotiated)
    requires Following(p, used, negotiated) && SameSpeech(p, q)
    ensures Following(q, used, negotiated)
  {
  }

  /** The stream identities a run's openings name. */
  function Used(calls: seq<Call>): set<string> {
    set i | 0 <= i < |calls| && calls[i].OpenCall? :: calls[i].id
  }

  /** Every opening makes the consumer's offer, and no two name the same stream. */
  predicate NoReuse(calls: seq<Call>, negotiated: Negotiated) {
    && (forall i | 0 <= i < |calls| && calls[i].OpenCall? :: calls[i].negotiated == negotiated)
    && (forall i, j | 0 <= i < j < |calls| && calls[i].OpenCall? && calls[j].OpenCall? :: calls[i].id != calls[j].id)
  }

  lemma CallFollowed(p: Publisher, call: Call, used: set<string>, negotiated: Negotiated)
    requires Following(p, used, negotiated) && !call.OpenCall?
    ensures Following(Perform(p, call).0, used, negotiated)
  {
    if call.FenceCall? {
      FencedFollowed(p, Fence(p), used, negotiated);
    } else {
      EmitAllFollowed(p, Emissions(p, call), used, negotiated);
      CallEmits(p, call);
      SpeechFollowed(EmitAll(p, Emissions(p, call)).0, Perform(p, call).0, used, negotiated);
    }
  }

  lemma UsedLast(calls: seq<Call>, negotiated: Negotiated)
    requires calls != [] && NoReuse(calls, negotiated)
    ensures var rest, last := calls[..|calls| - 1], calls[|calls| - 1];
            && NoReuse(rest, negotiated)
            && (if last.OpenCall?
                then Used(calls) == Used(rest) + {last.id} && last.id !in Used(rest) && last.negotiated == negotiated
                else Used(calls) == Used(rest))
  {
    var rest, last := calls[..|calls| - 1], calls[|calls| - 1];
    assert forall i | 0 <= i < |rest| :: rest[i] == calls[i];
    assert calls == rest + [last];
  }

  lemma {:induction false} RunFollowed(calls: seq<Call>, negotiated: Negotiated)
    requires NoReuse(calls, negotiated)
    ensures Following(After(calls), Used(calls), negotiated)
  {
    if calls != [] {
      var rest, last := calls[..|calls| - 1], calls[|calls| - 1];
      UsedLast(calls, negotiated);
      RunFollowed(rest, negotiated);
      if last.OpenCall? {
        OpenFollowed(After(rest), last.id, negotiated, last.deliver, Used(rest));
      } else {
        CallFollowed(After(rest), last, Used(rest), negotiated);
      }
    }
  }

  // ---- what holds of every run ----

  /**
   Over any run of calls, each incarnation's published envelopes are numbered 1 to n with no gap; a consumer
   fed all of them has refused none, and while an incarnation is open its projection is the publisher's own.
   */
  lemma ConsumerAgrees(calls: seq<Call>, negotiated: Negotiated)
    requires NoReuse(calls, negotiated)
    ensures var p := After(calls);
            var k := Consume(negotiated, p.published);
            && AllReceived(p.published, negotiated) && Numbered(Heard(p.published, negotiated))
            && k.failed.None? && k.state.suppressed == 0
            && (Active(p) ==> k.state == p.stream.value.core.state && Alike(k, p.stream.value.core))
  {
    RunFollowed(calls, negotiated);
  }

  /** A refusal latches, so nothing refused before the end. */
  lemma {:induction false} NoneRefused(negotiated: Negotiated, envelopes: seq<Json>, n: nat)
    requires n <= |envelopes| && Consume(negotiated, envelopes).failed.None?
    ensures Consume(negotiated, envelopes[..n]).failed.None?
    decreases |envelopes|
  {
    if n < |envelopes| {
      var rest := envelopes[..|envelopes| - 1];
      assert envelopes[..n] == rest[..n];
      NoneRefused(negotiated, rest, n);
    } else {
      assert envelopes[..n] == envelopes;
    }
  }

  /** Everything the second publisher state published beyond the first is on the one stream. */
  predicate SpeaksOnly(p: Publisher, q: Publisher, id: string, negotiated: Negotiated) {
    && |p.published| <= |q.published| && q.published[..|p.published|] == p.published
    && (forall i | |p.published| <= i < |q.published| ::
          Received(q.published[i], negotiated).Some? ==> Received(q.published[i], negotiated).value.streamId == id)
  }

  lemma EmitSpeaksOnly(p: Publisher, e: Event, negotiated: Negotiated)
    requires p.stream.Some?
    ensures var q := Emit(p, e).0;
            && q.stream.Some? && q.stream.value.id == p.stream.value.id
            && SpeaksOnly(p, q, p.stream.value.id, negotiated)
  {
    var s := p.stream.value;
    EnvelopeDecodes(s.id, Count(s.sequence), e, negotiated);
    var (s1, envelope) := StreamEmit(s, e);
    StreamEmitSpeaks(s, e);
    HandOutSpeaks(p.(stream := Some(s1)), envelope, s.id, negotiated);
  }

  lemma StreamEmitSpeaks(s: Stream, e: Event)
    ensures var (s1, envelope) := StreamEmit(s, e);
            s1.id == s.id && (envelope.Some? ==> envelope.value == Envelope(s.id, Count(s.sequence), e))
  {
  }

  lemma HandOutSpeaks(p: Publisher, envelope: Option<Json>, id: string, negotiated: Negotiated)
    requires p.stream.Some? && p.stream.value.id == id
    requires envelope.Some? && Received(envelope.value, negotiated).Some? ==>
               Received(envelope.value, negotiated).value.streamId == id
    ensures var q := HandOut(p, envelope).0;
            q.stream.Some? && q.stream.value.id == id && SpeaksOnly(p, q, id, negotiated)
  {
  }

  lemma SpeaksOnlyOn(p: Publisher, q: Publisher, r: Publisher, id: string, negotiated: Negotiated)
    requires SpeaksOnly(p, q, id, negotiated) && SpeaksOnly(q, r, id, negotiated)
    ensures SpeaksOnly(p, r, id, negotiated)
  {
    assert r.published[..|p.published|] == r.published[..|q.published|][..|p.published|];
    forall i | |p.published| <= i < |q.published| ensures r.published[i] == q.published[i] {
      assert r.published[..|q.published|][i] == q.published[i];
    }
  }

  lemma {:induction false} EmitAllSpeaksOnly(p: Publisher, events: seq<Event>, negotiated: Negotiated)
    requires p.stream.Some?
    ensures var q := EmitAll(p, events).0;
            && q.stream.Some? && q.stream.value.id == p.stream.value.id
            && SpeaksOnly(p, q, p.stream.value.id, negotiated)
    decreases |events|
  {
    if events != [] {
      EmitSpeaksOnly(p, events[0], negotiated);
      if Emit(p, events[0]).1.None? {
        var q := Emit(p, events[0]).0;
        EmitAllSpeaksOnly(q, events[1..], negotiated);
        SpeaksOnlyOn(p, q, EmitAll(q, events[1..]).0, p.stream.value.id, negotiated);
      }
    }
  }

  /** The stream has ended, and nothing past a point was published on it. */
  predicate Ended(p: Publisher, id: string, from: nat, negotiated: Negotiated) {
    && from <= |p.published| && (Active(p) ==> p.stream.value.id != id)
    && (forall i | from <= i < |p.published| ::
          Received(p.published[i], negotiated).Some? ==> Received(p.published[i], negotiated).value.streamId != id)
  }

  lemma StaysEnded(p: Publisher, q: Publisher, id: string, from: nat, negotiated: Negotiated)
    requires Ended(p, id, from, negotiated)
    requires q.stream.Some? && q.stream.value.id != id && SpeaksOnly(p, q, q.stream.value.id, negotiated)
    ensures Ended(q, id, from, negotiated)
  {
    forall i | from <= i < |p.published| ensures q.published[i] == p.published[i] {
      assert q.published[..|p.published|][i] == p.published[i];
    }
  }

  lemma CallStaysEnded(p: Publisher, call: Call, id: string, from: nat, negotiated: Negotiated)
    requires Ended(p, id, from, negotiated) && (call.OpenCall? ==> call.id != id)
    ensures Ended(Perform(p, call).0, id, from, negotiated)
  {
    match call
    case OpenCall(other, offer, deliver) =>
      if offer.Present() && !Active(p) {
        var counter := Count(p.counter);
        var q := Publisher(Some(NewStream(other, offer)), counter, map[], deliver, p.published);
        EmitSpeaksOnly(q, SnapshotOf(Name("cycle", counter)), negotiated);
        StaysEnded(q, Emit(q, SnapshotOf(Name("cycle", counter))).0, id, from, negotiated);
      }
    case FenceCall =>
    case _ =>
      CallEmits(p, call);
      if Active(p) {
        EmitAllSpeaksOnly(p, Emissions(p, call), negotiated);
        StaysEnded(p, EmitAll(p, Emissions(p, call)).0, id, from, negotiated);
      }
  }

  /**
   A refusal, a failed delivery or a fence ends an incarnation for good: whatever is called afterwards,
   nothing more is published on its stream unless an opening names it again.
   */
  lemma {:induction false} EndedForGood(calls: seq<Call>, more: seq<Call>, negotiated: Negotiated)
    requires After(calls).stream.Some? && !Active(After(calls))
    requires After(calls).stream.value.id !in Used(more)
    ensures Ended(After(calls + more), After(calls).stream.value.id, |After(calls).published|, negotiated)
    decreases |more|
  {
    if more == [] {
      assert calls + more == calls;
    } else {
      var rest, last := more[..|more| - 1], more[|more| - 1];
      AfterMore(calls, more);
      assert forall i | 0 <= i < |rest| :: rest[i] == more[i];
      EndedForGood(calls, rest, negotiated);
      CallStaysEnded(After(calls + rest), last, After(calls).stream.value.id, |After(calls).published|, negotiated);
    }
  }

  lemma AfterMore(calls: seq<Call>, more: seq<Call>)
    requires more != []
    ensures After(calls + more) == Perform(After(calls + more[..|more| - 1]), more[|more| - 1]).0
  {
    assert (calls + more)[..|calls + more| - 1] == calls + more[..|more| - 1];
  }
}
