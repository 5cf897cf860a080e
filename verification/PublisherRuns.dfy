/**
 The caller's rule, and what holds of every run that follows it (lifecycle/publisher.go).
 */
module PublisherRuns {
  import opened Wrappers
  import opened Numerals
  import opened Values
  import opened Events
  import opened ReducerModel
  import opened ReducerInvariant
  import opened ReducerRuns
  import opened Vocabulary
  import opened Wire
  import opened WireRoundTrip
  import opened PublisherModel
  import opened Simulation

  // ---- the caller's rule ----

  predicate KnownCause(c: Cause) {
    c.Submission? || c.Activity? || c.Session?
  }

  /** The counter can still name this many more identities. */
  predicate NamesLeft(p: Publisher, n: nat) {
    p.counter + n < UINT64_BOUND
  }

  predicate LegalSubmission(s: SubmissionId) {
    Id(s.submissionId) && Id(s.clientNonce) && OptionalId(s.runId)
  }

  /** The cycle was allocated by this publisher and its turn has not ended. */
  ghost predicate LegalAgentCycle(p: Publisher, c: Cycle)
    requires p.stream.Some?
  {
    && Issued("turn", c.turnId, p.counter) && Issued("cycle", c.cycleId, p.counter)
    && BlockedBy(p.blockers, c.cycleId) == {}
    && (TurnIsOpen(p.stream.value.core, c.turnId) || c.turnId !in TurnIds(p.stream.value.core.state.turns))
  }

  /** The cycle is the live foreground. */
  predicate Current(p: Publisher, c: Cycle)
    requires p.stream.Some?
  {
    var f := p.stream.value.core.state.foreground;
    f.Some? && !f.value.state.Idle? && f.value.cycleId == c.cycleId && f.value.turnId == c.turnId
  }

  /**
   Weaker than being current: the foreground is the cycle, and the turn can own the action or, for the
   cycle's first blocker, still go live.
   */
  ghost predicate Admits(p: Publisher, c: Cycle)
    requires p.stream.Some?
  {
    var core := p.stream.value.core;
    && core.state.foreground.Some? && core.state.foreground.value.cycleId == c.cycleId
    && (if BlockedBy(p.blockers, c.cycleId) != {} then c.turnId in core.turnSeen else TurnIsOpen(core, c.turnId))
  }

  predicate FreshAction(p: Publisher, actionId: string, kind: ActionKind)
    requires p.stream.Some?
  {
    && Id(actionId) && actionId !in ActionIds(p.stream.value.core.state.actions)
    && (kind.Permission? || kind.Elicitation?)
  }

  predicate LegalEnding(stopReason: string, outcome: Outcome) {
    !outcome.NoOutcome? && !outcome.OtherOutcome? && (outcome.Failed? || ValidStopReason(stopReason))
  }

  // ---- single emissions ----

  /** After an applied event the simulation holds again with the bookkeeping it leads to. */
  lemma EmitKeepsSimulation(p: Publisher, e: Event, blockers: map<string, string>)
    requires Linked(p) && p.counter < UINT64_BOUND && Room(p, 1) && Admissible(e) && !e.Opens()
    requires var applied := Apply(p.stream.value.core, NextDelivery(p.stream.value, e));
             applied.failed.None? && Mirrors(applied, blockers) && Named(applied, blockers, p.counter)
    ensures var s := p.stream.value;
            var (p1, err) := Emit(p, e);
            && err != Some(EventRefused) && InSimulation(p1.(blockers := blockers)) && p1.blockers == p.blockers
            && p1.counter == p.counter && p1.stream.Some?
            && (err.None? ==> Active(p1) && p1.stream.value == Advanced(s, e))
            && (err.Some? ==> !Active(p1))
            && Advanced(s, e).sequence == s.sequence + 1
  {
    var s := p.stream.value;
    EmitApplied(p, e);
    CommitMirrors(Apply(s.core, NextDelivery(s, e)), NextDelivery(s, e), blockers, p.counter);
  }

  lemma RunningEmitted(p: Publisher, y: Cycle)
    requires InSimulation(p) && Active(p) && Room(p, 1) && KnownCause(y.origin)
    requires Issued("turn", y.turnId, p.counter) && Issued("cycle", y.cycleId, p.counter)
    requires BlockedBy(p.blockers, y.cycleId) == {}
    requires TurnIsOpen(p.stream.value.core, y.turnId)
             || (y.origin.Activity? && y.turnId !in TurnIds(p.stream.value.core.state.turns))
    ensures var (p1, err) := Emit(p, TransitionOf(Running, y)); err != Some(EventRefused) && InSimulation(p1)
  {
    var c := p.stream.value.core;
    var e := TransitionOf(Running, y);
    var d := NextDelivery(p.stream.value, e);
    IssuedIsId("turn", y.turnId, p.counter);
    IssuedIsId("cycle", y.cycleId, p.counter);
    BlockedIffPending(c, p.blockers, y.cycleId);
    RunningApplies(c, d, y);
    SameBlockingMirrors(c, Apply(c, d), p.blockers);
    EmitKeepsSimulation(p, e, p.blockers);
  }

  lemma AcceptanceEmitted(p: Publisher, s: SubmissionId, turnId: string)
    requires InSimulation(p) && Active(p) && Room(p, 1) && LegalSubmission(s)
    requires Issued("turn", turnId, p.counter) && turnId !in p.stream.value.core.turnSeen
    ensures var (p1, err) := Emit(p, AcceptedOf(s, turnId));
            && err != Some(EventRefused) && InSimulation(p1)
            && p1.counter == p.counter && p1.blockers == p.blockers
            && (err.None? ==>
                  && Active(p1) && TurnIsOpen(p1.stream.value.core, turnId)
                  && p1.stream.value.sequence == p.stream.value.sequence + 1)
  {
    var c := p.stream.value.core;
    var e := AcceptedOf(s, turnId);
    var d := NextDelivery(p.stream.value, e);
    IssuedIsId("turn", turnId, p.counter);
    AcceptanceApplies(c, d, e.accepted);
    SameBlockingMirrors(c, Apply(c, d), p.blockers);
    EmitKeepsSimulation(p, e, p.blockers);
  }

  lemma ResolutionEmitted(p: Publisher, actionId: string, state: ActionState)
    requires InSimulation(p) && Active(p) && Room(p, 1)
    requires actionId in p.blockers && state.Terminal() && !state.OtherActionState?
    ensures var (p1, err) := Emit(p, ResolvedOf(actionId, state));
            && err != Some(EventRefused) && InSimulation(p1.(blockers := p.blockers - {actionId}))
            && p1.counter == p.counter && p1.blockers == p.blockers && p1.stream.Some?
            && (err.Some? ==> !Active(p1))
            && (err.None? ==>
                  && Active(p1) && p1.stream.value.sequence == p.stream.value.sequence + 1
                  && p1.stream.value.core.state.turns == p.stream.value.core.state.turns)
  {
    var c := p.stream.value.core;
    var e := ResolvedOf(actionId, state);
    var d := NextDelivery(p.stream.value, e);
    LiveActionId(c, p.blockers, actionId);
    ResolutionApplies(c, d, actionId, state, p.blockers);
    EmitKeepsSimulation(p, e, p.blockers - {actionId});
  }

  lemma LiveActionId(c: Core, blockers: map<string, string>, id: string)
    requires Mirrors(c, blockers) && id in blockers
    ensures Id(id)
  {
    assert LiveAction(c, id);
  }

  // ---- the calls ----

  lemma OpenKeeps(p: Publisher, id: string, negotiated: Negotiated, deliver: Option<Json -> bool>)
    requires InSimulation(p) && (negotiated.Present() && !Active(p) ==> Id(id))
    ensures var (p1, err) := Open(p, id, negotiated, deliver); err != Some(EventRefused) && InSimulation(p1)
  {
    if negotiated.Present() && !Active(p) {
      var n := Count(p.counter);
      OpeningStream(id, negotiated, Name("cycle", n), n);
    }
  }

  /** The opening snapshot of a new stream is never refused. */
  lemma OpeningStream(id: string, negotiated: Negotiated, cycleId: string, n: nat)
    requires negotiated.Present() && Id(id) && Issued("cycle", cycleId, n) && n < UINT64_BOUND
    ensures var (s, envelope) := StreamEmit(NewStream(id, negotiated), SnapshotOf(cycleId));
            && envelope == Some(Envelope(id, 1, SnapshotOf(cycleId))) && s.sequence == 1 && s.id == id
            && LinkedStream(s) && Mirrors(s.core, map[]) && Named(s.core, map[], n) && s.core.base == 1
            && s.core.state.suppressed == 0
  {
    var s0, e := NewStream(id, negotiated), SnapshotOf(cycleId);
    IssuedIsId("cycle", cycleId, n);
    WireRoundTripOf(id, e, negotiated);
    var d := NextDelivery(s0, e);
    OpeningCore(s0.core, d, cycleId);
    ReduceFirstCoherent(s0.core, d);
    var c := ReduceFirst(s0.core, d);
    assert forall a :: !LiveAction(c, a);
  }

  lemma WireRoundTripOf(id: string, e: Event, negotiated: Negotiated)
    requires Id(id) && Admissible(e) && negotiated.Present()
    ensures var n := Notification(Envelope(id, 1, e));
            Decode(Some(n), negotiated) == Ok(Delivery(id, 1, CarrierSessionInfo, e, n))
  {
    EncodeThenDecode(id, 1, e, negotiated);
  }

  lemma OpeningCore(c: Core, d: Delivery, cycleId: string)
    requires Pristine(c) && d.event == SnapshotOf(cycleId) && cycleId != ""
    ensures var c1 := ReduceFirst(c, d);
            && c1.failed.None? && c1.state.actions == [] && c1.turnSeen == c.turnSeen
            && c1.blockedCycle == c.blockedCycle
            && c1.state.foreground == Some(Foreground(Idle, cycleId, "", NoCause))
            && c1.actionCycle == c.actionCycle
  {
    var s := d.event.snapshot;
    assert OriginTurns([]) == {} && IntroducedTurns(s) == {};
  }

  lemma FreshCycleUnblocked(blockers: map<string, string>, n: nat, m: nat)
    requires n < m && forall id | id in blockers :: Issued("cycle", blockers[id], n)
    ensures BlockedBy(blockers, Name("cycle", m)) == {}
  {
    NotYetIssued("cycle", n, m);
  }

  lemma LaterCounterKeeps(p: Publisher, n: nat)
    requires InSimulation(p) && Active(p) && p.counter <= n < UINT64_BOUND
    ensures InSimulation(p.(counter := n))
  {
    NamedMonotone(p.stream.value.core, p.blockers, p.counter, n);
  }

  lemma NextNamesFresh(c: Core, blockers: map<string, string>, n: nat)
    requires Named(c, blockers, n)
    ensures Name("turn", n + 1) !in c.turnSeen && BlockedBy(blockers, Name("cycle", n + 2)) == {}
  {
    NotYetIssued("turn", n, n + 1);
    FreshCycleUnblocked(blockers, n, n + 2);
  }

  lemma NextNamesIssued(n: nat)
    ensures Issued("turn", Name("turn", n + 1), n + 2) && Issued("cycle", Name("cycle", n + 2), n + 2)
  {
  }

  /** The next two names are new to the stream, and taking them disturbs nothing. */
  lemma FreshNames(p: Publisher, origin: Cause, incarnation: string)
    requires InSimulation(p) && Active(p) && NamesLeft(p, 2)
    ensures var q, y := CountedTwice(p), NextCycle(p, origin, incarnation);
            && InSimulation(q) && q.counter == p.counter + 2
            && Issued("turn", y.turnId, q.counter) && Issued("cycle", y.cycleId, q.counter)
            && y.turnId !in p.stream.value.core.turnSeen
            && BlockedBy(p.blockers, y.cycleId) == {}
  {
    LaterCounterKeeps(p, p.counter + 2);
    NextNamesFresh(p.stream.value.core, p.blockers, p.counter);
    NextNamesIssued(p.counter);
  }

  /** A turn and a cycle no one has used, ready for an acceptance and its running transition. */
  ghost predicate ReadyToAccept(p: Publisher, s: SubmissionId, cycle: Cycle) {
    && InSimulation(p) && Active(p) && LegalSubmission(s) && Room(p, 2) && KnownCause(cycle.origin)
    && Issued("turn", cycle.turnId, p.counter) && Issued("cycle", cycle.cycleId, p.counter)
    && cycle.turnId !in p.stream.value.core.turnSeen && BlockedBy(p.blockers, cycle.cycleId) == {}
  }

  lemma AllocatedForAccept(p: Publisher, c: Cycle, s: SubmissionId)
    requires InSimulation(p) && Active(p) && LegalSubmission(s) && NamesLeft(p, 2) && Room(p, 2)
    ensures ReadyToAccept(CountedTwice(p), s, NextCycle(p, Submission, c.incarnation))
  {
    FreshNames(p, Submission, c.incarnation);
  }

  lemma AcceptKeeps(p: Publisher, c: Cycle, s: SubmissionId)
    requires InSimulation(p)
    requires Active(p) ==> LegalSubmission(s) && NamesLeft(p, 2) && Room(p, 2)
    ensures Accept(p, c, s).2 != Some(EventRefused) && InSimulation(Accept(p, c, s).0)
  {
    if Active(p) {
      AllocatedForAccept(p, c, s);
      AcceptanceKeeps(CountedTwice(p), s, NextCycle(p, Submission, c.incarnation));
    }
  }

  lemma AcceptanceKeeps(p: Publisher, s: SubmissionId, cycle: Cycle)
    requires ReadyToAccept(p, s, cycle)
    ensures var (p1, err) := EmitAcceptance(p, s, cycle); err != Some(EventRefused) && InSimulation(p1)
  {
    AcceptanceEmitted(p, s, cycle.turnId);
    var (p1, err) := Emit(p, AcceptedOf(s, cycle.turnId));
    if err.None? {
      RunningEmitted(p1, cycle);
    }
  }

  lemma NewAgentCycleKeeps(p: Publisher)
    requires InSimulation(p) && (Active(p) ==> NamesLeft(p, 2))
    ensures var (p1, c) := NewAgentCycle(p);
            && InSimulation(p1)
            && (Active(p) ==> BelongsHere(p1, c) && LegalAgentCycle(p1, c))
  {
    if Active(p) {
      FreshNames(p, Activity, p.stream.value.id);
      var (p1, c) := NewAgentCycle(p);
      assert c.turnId !in TurnIds(p1.stream.value.core.state.turns);
    }
  }

  lemma OpenAgentCycleKeeps(p: Publisher, c: Cycle)
    requires InSimulation(p)
    requires Active(p) && BelongsHere(p, c) ==> LegalAgentCycle(p, c) && Room(p, 1)
    ensures var (p1, err) := OpenAgentCycle(p, c); err != Some(EventRefused) && InSimulation(p1)
  {
    if Active(p) && BelongsHere(p, c) {
      RunningEmitted(p, c);
    }
  }

  /** The first half of a pending action: recorded against the current cycle, its transition still owed. */
  lemma PendingRecorded(p: Publisher, c: Cycle, actionId: string, kind: ActionKind)
    requires InSimulation(p) && Active(p) && Room(p, 1) && FreshAction(p, actionId, kind) && Admits(p, c)
    ensures var e := PendingOf(actionId, kind, c.turnId);
            var core1 := Apply(p.stream.value.core, NextDelivery(p.stream.value, e));
            && Admissible(e) && core1.failed.None?
            && Mirrors(core1.(blockedCycle := ""), p.blockers[actionId := c.cycleId])
            && core1.blockedCycle == (if BlockedBy(p.blockers, c.cycleId) == {} then core1.blockedCycle else "")
            && (core1.blockedCycle == "" || core1.blockedCycle == c.cycleId)
            && Blocked(core1, c.cycleId) && core1.state.turns == p.stream.value.core.state.turns
            && core1.turnSeen == p.stream.value.core.turnSeen
            && core1.state.foreground == p.stream.value.core.state.foreground
  {
    var core := p.stream.value.core;
    var u := PendingOf(actionId, kind, c.turnId).action;
    var d := NextDelivery(p.stream.value, PendingOf(actionId, kind, c.turnId));
    AdmittedTurnNamed(p, c);
    IssuedIsId("cycle", c.cycleId, p.counter);
    IssuedIsId("turn", c.turnId, p.counter);
    FirstSightApplies(core, d, u, p.blockers);
    if BlockedBy(p.blockers, c.cycleId) != {} {
      PendingRequiresAction(p);
    }
  }

  lemma AdmittedTurnNamed(p: Publisher, c: Cycle)
    requires InSimulation(p) && Active(p) && Admits(p, c)
    ensures c.turnId in p.stream.value.core.turnSeen && Issued("turn", c.turnId, p.counter)
  {
    var s := p.stream.value.core.state;
    if BlockedBy(p.blockers, c.cycleId) == {} {
      var k :| 0 <= k < |s.turns| && s.turns[k].turnId == c.turnId && !s.turns[k].terminal;
      assert TurnIds(s.turns)[k] == c.turnId;
    }
  }

  /** The current live foreground cycle may take a blocker. */
  lemma CurrentAdmits(p: Publisher, c: Cycle)
    requires InSimulation(p) && Active(p) && Current(p, c)
    ensures Admits(p, c)
  {
    var s := p.stream.value.core.state;
    var k :| 0 <= k < |s.turns| && s.turns[k].turnId == c.turnId && !s.turns[k].terminal
             && s.turns[k].cycleId == c.cycleId;
    assert TurnIds(s.turns)[k] == c.turnId;
  }

  /** A further blocker of a cycle already in requires_action owes nothing. */
  lemma FurtherBlockerKeeps(p: Publisher, c: Cycle, actionId: string, kind: ActionKind)
    requires InSimulation(p) && Active(p) && Room(p, 1) && FreshAction(p, actionId, kind) && Admits(p, c)
    requires BlockedBy(p.blockers, c.cycleId) != {}
    ensures var (p1, err) := Emit(p, PendingOf(actionId, kind, c.turnId));
            && err != Some(EventRefused) && p1.blockers == p.blockers
            && InSimulation(p1.(blockers := p.blockers[actionId := c.cycleId]))
            && (err.Some? ==> !Active(p1) && p1.counter == p.counter)
  {
    var e := PendingOf(actionId, kind, c.turnId);
    PendingRecorded(p, c, actionId, kind);
    var core1 := Apply(p.stream.value.core, NextDelivery(p.stream.value, e));
    assert core1.(blockedCycle := "") == core1;
    EmitKeepsSimulation(p, e, p.blockers[actionId := c.cycleId]);
  }

  /** The reducer recorded a blocker of the cycle and owes, or may at once make, its transition. */
  ghost predicate Owes(core: Core, c: Cycle, blockers: map<string, string>, n: nat) {
    && Mirrors(core.(blockedCycle := ""), blockers) && Named(core, blockers, n)
    && (core.blockedCycle == "" || core.blockedCycle == c.cycleId)
    && Blocked(core, c.cycleId) && TurnIsOpen(core, c.turnId)
    && Issued("turn", c.turnId, n) && Issued("cycle", c.cycleId, n)
  }

  ghost predicate OwesRequirement(p: Publisher, c: Cycle, blockers: map<string, string>) {
    Linked(p) && p.counter < UINT64_BOUND && Room(p, 1) && KnownCause(c.origin)
    && Owes(p.stream.value.core, c, blockers, p.counter)
  }

  lemma FirstBlockerOwes(p: Publisher, c: Cycle, actionId: string, kind: ActionKind)
    requires InSimulation(p) && Active(p) && Room(p, 1) && FreshAction(p, actionId, kind) && Admits(p, c)
    requires BlockedBy(p.blockers, c.cycleId) == {}
    ensures var e := PendingOf(actionId, kind, c.turnId);
            var core1 := Apply(p.stream.value.core, NextDelivery(p.stream.value, e));
            Admissible(e) && core1.failed.None? && Owes(core1, c, p.blockers[actionId := c.cycleId], p.counter)
  {
    PendingRecorded(p, c, actionId, kind);
    AdmittedTurnNamed(p, c);
  }

  /** The first blocker of a cycle, published: the requires_action transition is owed and may be emitted. */
  lemma FirstBlockerEmitted(p: Publisher, c: Cycle, actionId: string, kind: ActionKind)
    requires InSimulation(p) && Active(p) && Room(p, 2) && FreshAction(p, actionId, kind) && Admits(p, c)
    requires KnownCause(c.origin) && BlockedBy(p.blockers, c.cycleId) == {}
    ensures var (p1, err) := Emit(p, PendingOf(actionId, kind, c.turnId));
            && err != Some(EventRefused) && p1.blockers == p.blockers && p1.counter == p.counter && p1.stream.Some?
            && (err.Some? ==> !Active(p1))
            && (err.None? ==> OwesRequirement(p1, c, p.blockers[actionId := c.cycleId]))
  {
    FirstBlockerOwes(p, c, actionId, kind);
    EmitOwes(p, PendingOf(actionId, kind, c.turnId), c, p.blockers[actionId := c.cycleId]);
  }

  lemma EmitOwes(p: Publisher, e: Event, c: Cycle, blockers: map<string, string>)
    requires Linked(p) && p.counter < UINT64_BOUND && Room(p, 2) && KnownCause(c.origin) && Admissible(e) && !e.Opens()
    requires var core := Apply(p.stream.value.core, NextDelivery(p.stream.value, e));
             core.failed.None? && Owes(core, c, blockers, p.counter)
    ensures var (p1, err) := Emit(p, e);
            && err != Some(EventRefused) && p1.blockers == p.blockers && p1.counter == p.counter && p1.stream.Some?
            && (err.Some? ==> !Active(p1))
            && (err.None? ==> OwesRequirement(p1, c, blockers))
  {
    var d := NextDelivery(p.stream.value, e);
    EmitApplied(p, e);
    OwesAfterCommit(Apply(p.stream.value.core, d), d, c, blockers, p.counter);
  }

  lemma OwesAfterCommit(core: Core, d: Delivery, c: Cycle, blockers: map<string, string>, n: nat)
    requires Owes(core, c, blockers, n)
    ensures Owes(Commit(core, d), c, blockers, n)
  {
    CommitMirrors(core.(blockedCycle := ""), d, blockers, n);
    CommitMirrors(core, d, blockers, n);
    assert Commit(core.(blockedCycle := ""), d) == Commit(core, d).(blockedCycle := "");
    BlockedFrame(core, Commit(core, d), c.cycleId);
  }

  lemma PendActionKeeps(p: Publisher, c: Cycle, actionId: string, kind: ActionKind)
    requires InSimulation(p)
    requires Active(p) && c.turnId != "" ==>
               FreshAction(p, actionId, kind) && Admits(p, c) && KnownCause(c.origin) && Room(p, 2)
    ensures var (p1, err) := PendAction(p, c, actionId, kind); err != Some(EventRefused) && InSimulation(p1)
  {
    if Active(p) && c.turnId != "" {
      if BlockedBy(p.blockers, c.cycleId) != {} {
        FurtherBlockerKeeps(p, c, actionId, kind);
      } else {
        FirstBlockerEmitted(p, c, actionId, kind);
        var (p1, err) := Emit(p, PendingOf(actionId, kind, c.turnId));
        if err.None? {
          RequirementEmitted(p1, c, p.blockers[actionId := c.cycleId]);
        }
      }
    }
  }

  /** The second half: the owed transition is published and discharged. */
  lemma RequirementEmitted(p: Publisher, c: Cycle, blockers: map<string, string>)
    requires OwesRequirement(p, c, blockers)
    ensures var (p1, err) := Emit(p, TransitionOf(RequiresAction, c));
            && err != Some(EventRefused) && InSimulation(p1.(blockers := blockers)) && p1.blockers == p.blockers
            && (err.Some? ==> !Active(p1) && p1.counter == p.counter)
  {
    var core := p.stream.value.core;
    var e := TransitionOf(RequiresAction, c);
    var d := NextDelivery(p.stream.value, e);
    IssuedIsId("turn", c.turnId, p.counter);
    IssuedIsId("cycle", c.cycleId, p.counter);
    RequiresActionApplies(core, d, c);
    SameBlockingMirrors(core.(blockedCycle := ""), Apply(core, d), blockers);
    EmitKeepsSimulation(p, e, blockers);
  }

  lemma ResolveActionKeeps(p: Publisher, c: Cycle, actionId: string, state: ActionState)
    requires InSimulation(p)
    requires Active(p) && actionId in p.blockers && p.blockers[actionId] == c.cycleId ==>
               && state.Terminal() && !state.OtherActionState? && KnownCause(c.origin) && Room(p, 2)
               && TurnIsOpen(p.stream.value.core, c.turnId)
    ensures var (p1, err) := ResolveAction(p, c, actionId, state); err != Some(EventRefused) && InSimulation(p1)
  {
    if Active(p) && actionId in p.blockers && p.blockers[actionId] == c.cycleId {
      var core := p.stream.value.core;
      ResolutionEmitted(p, actionId, state);
      var removed := p.blockers - {actionId};
      EmitIgnoresBlockers(p, ResolvedOf(actionId, state), removed);
      OpenTurnIssued(p, c.turnId);
      var (p1, err) := Emit(p.(blockers := removed), ResolvedOf(actionId, state));
      if err.None? && BlockedBy(p1.blockers, c.cycleId) == {} {
        RunningEmitted(p1, c);
      }
    }
  }

  lemma EmitIgnoresBlockers(p: Publisher, e: Event, blockers: map<string, string>)
    requires p.stream.Some?
    ensures var (p1, err) := Emit(p, e); Emit(p.(blockers := blockers), e) == (p1.(blockers := blockers), err)
  {
  }

  lemma OpenTurnIssued(p: Publisher, turnId: string)
    requires InSimulation(p) && Active(p) && TurnIsOpen(p.stream.value.core, turnId)
    ensures Issued("turn", turnId, p.counter)
  {
    var s := p.stream.value.core.state;
    var k :| 0 <= k < |s.turns| && s.turns[k].turnId == turnId && !s.turns[k].terminal;
    assert TurnIds(s.turns)[k] == turnId;
  }

  /** What cancelling a list of pending actions leaves. */
  ghost predicate Cancelled(p: Publisher, ids: seq<string>, turnId: string, p1: Publisher, err: Option<PublishError>) {
    && err != Some(EventRefused) && p1.counter == p.counter && p1.stream.Some? && p.stream.Some?
    && (err.None? ==>
          && Active(p1) && TurnIsOpen(p1.stream.value.core, turnId)
          && p1.blockers == p.blockers - (set id | id in ids)
          && p1.stream.value.sequence == p.stream.value.sequence + |ids|)
  }

  lemma CancellationEmitted(p: Publisher, id: string, turnId: string)
    requires InSimulation(p) && Active(p) && Room(p, 1) && TurnIsOpen(p.stream.value.core, turnId)
    requires id in p.blockers
    ensures var (p1, err) := Emit(p, ResolvedOf(id, ActionState.ActionCancelled));
            var p2 := p1.(blockers := p1.blockers - {id});
            && Cancelled(p, [id], turnId, p2, err) && InSimulation(p2)
            && (err.Some? ==> InSimulation(p1))
  {
    ResolutionEmitted(p, id, ActionState.ActionCancelled);
    assert (set x | x in [id]) == {id};
  }

  lemma CancelledThenRest(p: Publisher, p2: Publisher, ids: seq<string>, turnId: string)
    requires ids != [] && Cancelled(p, [ids[0]], turnId, p2, None) && Room(p, |ids|)
    requires (forall id | id in ids :: id in p.blockers) && Distinct(ids)
    ensures Room(p2, |ids| - 1) && Distinct(ids[1..]) && forall id | id in ids[1..] :: id in p2.blockers
  {
    assert forall j | 0 <= j < |ids| - 1 :: ids[1..][j] == ids[j + 1];
    assert (set id | id in [ids[0]]) == {ids[0]};
    assert forall i, j | 0 <= i < j < |ids| :: ids[i] != ids[j];
  }

  lemma CancelledTogether(p: Publisher, p2: Publisher, ids: seq<string>, turnId: string, p3: Publisher,
                          err: Option<PublishError>)
    requires ids != [] && Cancelled(p, [ids[0]], turnId, p2, None) && Cancelled(p2, ids[1..], turnId, p3, err)
    ensures Cancelled(p, ids, turnId, p3, err)
  {
    assert forall id :: id in ids <==> id in [ids[0]] || id in ids[1..] by {
      assert ids == [ids[0]] + ids[1..];
    }
  }

  /** Cancelling a list of distinct pending actions releases exactly them. */
  lemma {:induction false} CancelAllKeeps(p: Publisher, ids: seq<string>, turnId: string)
    requires InSimulation(p) && Active(p) && Room(p, |ids|) && TurnIsOpen(p.stream.value.core, turnId)
    requires (forall id | id in ids :: id in p.blockers) && Distinct(ids)
    ensures var (p1, err) := CancelAll(p, ids); Cancelled(p, ids, turnId, p1, err) && InSimulation(p1)
    decreases |ids|
  {
    if ids == [] {
      assert p.blockers - (set id | id in ids) == p.blockers;
    } else {
      CancellationEmitted(p, ids[0], turnId);
      var (p1, err) := Emit(p, ResolvedOf(ids[0], ActionState.ActionCancelled));
      if err.None? {
        var p2 := p1.(blockers := p1.blockers - {ids[0]});
        CancelledThenRest(p, p2, ids, turnId);
        CancelAllKeeps(p2, ids[1..], turnId);
        CancelledTogether(p, p2, ids, turnId, CancelAll(p2, ids[1..]).0, CancelAll(p2, ids[1..]).1);
      }
    }
  }

  lemma {:induction false} SortedKeysDistinct(keys: set<string>)
    ensures Distinct(SortedKeys(keys))
    decreases keys
  {
    if keys != {} {
      SortedKeysDistinct(keys - {TheLeast(keys)});
    }
  }

  lemma EndIdleKeeps(p: Publisher, c: Cycle, stopReason: string, outcome: Outcome)
    requires InSimulation(p)
    requires Active(p) && c.turnId != "" ==> LegalIdle(p, c, stopReason, outcome)
    ensures EndIdle(p, c, stopReason, outcome).1 != Some(EventRefused)
    ensures InSimulation(EndIdle(p, c, stopReason, outcome).0)
  {
    if Active(p) && c.turnId != "" {
      var ids := SortedKeys(BlockedBy(p.blockers, c.cycleId));
      SortedKeysDistinct(BlockedBy(p.blockers, c.cycleId));
      CancelAllKeeps(p, ids, c.turnId);
      CancelAllKeepsStream(p, ids);
      var (p1, err) := CancelAll(p, ids);
      if err.None? {
        AllReleased(p, c.cycleId, ids);
        EndingEmitted(p1, c, if outcome.Failed? then "" else stopReason, outcome);
      }
    }
  }

  /** The cycle may end: its turn is open, its names are this publisher's, and the ending is well formed. */
  ghost predicate LegalIdle(p: Publisher, c: Cycle, stopReason: string, outcome: Outcome)
    requires p.stream.Some?
  {
    && Issued("cycle", c.cycleId, p.counter) && TurnIsOpen(p.stream.value.core, c.turnId)
    && KnownCause(c.origin) && LegalEnding(stopReason, outcome)
    && Room(p, |SortedKeys(BlockedBy(p.blockers, c.cycleId))| + 1)
  }

  lemma AllReleased(p: Publisher, cycleId: string, ids: seq<string>)
    requires ids == SortedKeys(BlockedBy(p.blockers, cycleId))
    ensures BlockedBy(p.blockers - (set id | id in ids), cycleId) == {}
  {
  }

  lemma EndingEmitted(p: Publisher, y: Cycle, stopReason: string, outcome: Outcome)
    requires InSimulation(p) && Active(p) && Room(p, 1) && KnownCause(y.origin)
    requires Issued("cycle", y.cycleId, p.counter) && BlockedBy(p.blockers, y.cycleId) == {}
    requires TurnIsOpen(p.stream.value.core, y.turnId)
    requires !outcome.NoOutcome? && !outcome.OtherOutcome?
    requires if outcome.Failed? then stopReason == "" else ValidStopReason(stopReason)
    ensures var (p1, err) := Emit(p, IdleOf(y, stopReason, outcome)); err != Some(EventRefused) && InSimulation(p1)
  {
    var c := p.stream.value.core;
    var e := IdleOf(y, stopReason, outcome);
    var d := NextDelivery(p.stream.value, e);
    OpenTurnIssued(p, y.turnId);
    IssuedIsId("turn", y.turnId, p.counter);
    IssuedIsId("cycle", y.cycleId, p.counter);
    BlockedIffPending(c, p.blockers, y.cycleId);
    EndingApplies(c, d, y, stopReason, outcome);
    SameBlockingMirrors(c, Apply(c, d), p.blockers);
    EmitKeepsSimulation(p, e, p.blockers);
  }

  lemma NextIDKeeps(p: Publisher, kind: string)
    requires InSimulation(p) && NamesLeft(p, 1)
    ensures InSimulation(NextID(p, kind).0)
  {
    if Active(p) { LaterCounterKeeps(p, p.counter + 1); }
  }

  // ---- runs ----

  datatype Call =
    | OpenCall(id: string, negotiated: Negotiated, deliver: Option<Json -> bool>)
    | AcceptCall(cycle: Cycle, submission: SubmissionId)
    | NewAgentCall
    | OpenAgentCall(cycle: Cycle)
    | PendCall(cycle: Cycle, actionId: string, kind: ActionKind)
    | ResolveCall(cycle: Cycle, actionId: string, state: ActionState)
    | IdleCall(cycle: Cycle, stopReason: string, outcome: Outcome)
    | NextIdCall(name: string)
    | FenceCall

  function Perform(p: Publisher, call: Call): (Publisher, Option<PublishError>) {
    match call
    case OpenCall(id, negotiated, deliver) => Open(p, id, negotiated, deliver)
    case AcceptCall(c, s) => (Accept(p, c, s).0, Accept(p, c, s).2)
    case NewAgentCall => (NewAgentCycle(p).0, None)
    case OpenAgentCall(c) => OpenAgentCycle(p, c)
    case PendCall(c, id, kind) => PendAction(p, c, id, kind)
    case ResolveCall(c, id, state) => ResolveAction(p, c, id, state)
    case IdleCall(c, stopReason, outcome) => EndIdle(p, c, stopReason, outcome)
    case NextIdCall(kind) => (NextID(p, kind).0, None)
    case FenceCall => (Fence(p), None)
  }

  /** What the caller owes each call; every rule is one the caller can check before making it. */
  ghost predicate Legal(p: Publisher, call: Call) {
    match call
    case OpenCall(id, negotiated, _) => negotiated.Present() && !Active(p) ==> Id(id)
    case AcceptCall(_, s) => Active(p) ==> LegalSubmission(s) && NamesLeft(p, 2) && Room(p, 2)
    case NewAgentCall => Active(p) ==> NamesLeft(p, 2)
    case OpenAgentCall(c) => Active(p) && BelongsHere(p, c) ==> LegalAgentCycle(p, c) && Room(p, 1)
    case PendCall(c, id, kind) =>
      Active(p) && c.turnId != "" ==> FreshAction(p, id, kind) && Current(p, c) && KnownCause(c.origin) && Room(p, 2)
    case ResolveCall(c, id, state) =>
      Active(p) && id in p.blockers && p.blockers[id] == c.cycleId ==>
        && state.Terminal() && !state.OtherActionState? && KnownCause(c.origin) && Room(p, 2)
        && TurnIsOpen(p.stream.value.core, c.turnId)
    case IdleCall(c, stopReason, outcome) => Active(p) && c.turnId != "" ==> LegalIdle(p, c, stopReason, outcome)
    case NextIdCall(_) => NamesLeft(p, 1)
    case FenceCall => true
  }

  /** One legal call is never refused and keeps the two state machines in simulation. */
  lemma CallKeeps(p: Publisher, call: Call)
    requires InSimulation(p) && Legal(p, call)
    ensures Perform(p, call).1 != Some(EventRefused) && InSimulation(Perform(p, call).0)
  {
    match call
    case OpenCall(id, negotiated, deliver) => OpenKeeps(p, id, negotiated, deliver);
    case AcceptCall(c, s) => AcceptKeeps(p, c, s);
    case NewAgentCall => NewAgentCycleKeeps(p);
    case OpenAgentCall(c) => OpenAgentCycleKeeps(p, c);
    case PendCall(c, id, kind) =>
      if Active(p) && c.turnId != "" { CurrentAdmits(p, c); }
      PendActionKeeps(p, c, id, kind);
    case ResolveCall(c, id, state) => ResolveActionKeeps(p, c, id, state);
    case IdleCall(c, stopReason, outcome) => EndIdleKeeps(p, c, stopReason, outcome);
    case NextIdCall(kind) => NextIDKeeps(p, kind);
    case FenceCall =>
  }

  /** The publisher after a run of calls on its zero value. */
  function After(calls: seq<Call>): Publisher {
    if calls == [] then Zero() else Perform(After(calls[..|calls| - 1]), calls[|calls| - 1]).0
  }

  /** Every call was legal where it was made. */
  ghost predicate LegalRun(calls: seq<Call>) {
    calls == [] ||
    (LegalRun(calls[..|calls| - 1]) && Legal(After(calls[..|calls| - 1]), calls[|calls| - 1]))
  }

  lemma {:induction false} RunInSimulation(calls: seq<Call>)
    requires LegalRun(calls)
    ensures InSimulation(After(calls))
  {
    if calls != [] {
      RunInSimulation(calls[..|calls| - 1]);
      CallKeeps(After(calls[..|calls| - 1]), calls[|calls| - 1]);
    }
  }

  /** Over every legal run no call is refused by the publisher's own reducer. */
  lemma LegalRunsNeverRefused(calls: seq<Call>, call: Call)
    requires LegalRun(calls) && Legal(After(calls), call)
    ensures Perform(After(calls), call).1 != Some(EventRefused)
  {
    RunInSimulation(calls);
    CallKeeps(After(calls), call);
  }

  /**
   After every legal run of an open publisher: `blockers` is exactly the reducer's live blocking actions
   mapped to the cycles they stopped, nothing is owed, and a foreground with a pending blocker is in
   requires_action.
   */
  lemma LegalRunsAgree(calls: seq<Call>)
    requires LegalRun(calls) && Active(After(calls))
    ensures var p := After(calls);
            var c := p.stream.value.core;
            && c.failed.None? && c.blockedCycle == ""
            && (forall id :: id in p.blockers <==> LiveAction(c, id))
            && (forall id | id in p.blockers :: id in c.actionCycle && c.actionCycle[id] == p.blockers[id])
            && c.state.foreground.Some?
            && (var f := c.state.foreground.value;
                BlockedBy(p.blockers, f.cycleId) != {} ==> f.state.RequiresAction?)
  {
    RunInSimulation(calls);
    var p := After(calls);
    if BlockedBy(p.blockers, p.stream.value.core.state.foreground.value.cycleId) != {} {
      PendingRequiresAction(p);
    }
  }

  /** A settled stream has nothing pending in the publisher either. */
  lemma SettledRunsHaveNoBlockers(calls: seq<Call>)
    requires LegalRun(calls) && Active(After(calls)) && Settled(After(calls).stream.value.core.state)
    ensures After(calls).blockers == map[]
  {
    LegalRunsAgree(calls);
    SettledHasNoLiveAction(After(calls).stream.value.core);
  }

  lemma SettledHasNoLiveAction(c: Core)
    requires Settled(c.state)
    ensures forall id :: !LiveAction(c, id)
  {
  }

  // ---- names ----

  /** A name handed out takes the next number, so nothing of its kind was given it before. */
  lemma NextIdIsNew(p: Publisher, kind: string)
    requires NamesLeft(p, 1)
    ensures var (q, name) := NextID(p, kind);
            && name == kind + "-" + Digits(p.counter + 1) && q == p.(counter := p.counter + 1)
            && !Issued(kind, name, p.counter) && Issued(kind, name, q.counter)
  {
    var n, name := p.counter + 1, Name(kind, p.counter + 1);
    if Issued(kind, name, p.counter) {
      var k: nat :| k <= p.counter && name == Name(kind, k);
      NameInjective(kind, k, n);
    }
    assert name == Name(kind, n);
  }

  // ---- whose cycle it is ----

  /** Opening an agent's cycle is reported as foreign exactly when it is not an agent's cycle of this incarnation. */
  lemma ForeignExactly(p: Publisher, c: Cycle)
    ensures OpenAgentCycle(p, c).1 == Some(ForeignCycle) <==>
            Active(p) &&
            !(c.incarnation == p.stream.value.id && c.origin.Activity? && c.turnId != "" && c.cycleId != "")
    ensures OpenAgentCycle(p, c).1 == Some(ForeignCycle) ==> OpenAgentCycle(p, c).0 == p
  {
  }

  /** The cycle reserved for an agent is of this incarnation, under two names nothing was given before. */
  lemma ReservedBelongs(p: Publisher)
    requires Active(p) && NamesLeft(p, 2)
    ensures var (q, y) := NewAgentCycle(p);
            && y.incarnation == q.stream.value.id && y.origin.Activity?
            && y.turnId == "turn-" + Digits(p.counter + 1) && y.cycleId == "cycle-" + Digits(p.counter + 2)
            && q == p.(counter := p.counter + 2) && OpenAgentCycle(q, y).1 != Some(ForeignCycle)
  {
  }

  /** So are those of an acceptance, which keeps the caller's incarnation. */
  lemma AcceptedUnder(p: Publisher, c: Cycle, s: SubmissionId)
    requires Active(p)
    ensures Accept(p, c, s).1 == NextCycle(p, Submission, c.incarnation)
  {
  }
}
