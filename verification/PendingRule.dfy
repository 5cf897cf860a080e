/**
 Exactly when a pending action keeps the publisher and its reducer together (lifecycle/publisher.go:122-148).

 The reducer blocks the cycle that is current at the action's first sight, the publisher records the cycle the
 caller named. The two agree precisely when `Admits` holds, a condition on the state before the call.
 */
module PendingRule {
  import opened Wrappers
  import opened Events
  import opened ReducerModel
  import opened ReducerInvariant
  import opened Wire
  import opened WireRoundTrip
  import opened PublisherModel
  import opened Simulation
  import opened PublisherRuns

  /** An admissible event the reducer refuses is an error of the call, and ends the incarnation. */
  lemma EmitRefused(p: Publisher, e: Event)
    requires Linked(p) && Room(p, 1) && Admissible(e) && !e.Opens()
    requires Apply(p.stream.value.core, NextDelivery(p.stream.value, e)).failed.Some?
    ensures Emit(p, e).1 == Some(EventRefused)
  {
    var s := p.stream.value;
    EncodeThenDecode(s.id, s.sequence + 1, e, s.core.negotiated);
  }

  /** Nothing is delivered to anyone, or every delivery succeeds. */
  ghost predicate Delivers(p: Publisher) {
    p.deliver.Some? ==> forall envelope :: p.deliver.value(envelope)
  }

  /** Where deliveries succeed an emission fails only by refusal. */
  lemma Undelivered(p: Publisher, e: Event)
    requires p.stream.Some? && Delivers(p)
    ensures Emit(p, e).1 != Some(DeliveryFailed) && Delivers(Emit(p, e).0) && Emit(p, e).0.stream.Some?
    ensures Emit(p, e).0.blockers == p.blockers
  {
  }

  lemma AdmittedSucceeds(p: Publisher, c: Cycle, actionId: string, kind: ActionKind)
    requires InSimulation(p) && Active(p) && Delivers(p) && Room(p, 2)
    requires FreshAction(p, actionId, kind) && KnownCause(c.origin) && c.turnId != ""
    requires Admits(p, c)
    ensures PendAction(p, c, actionId, kind).1.None? && InSimulation(PendAction(p, c, actionId, kind).0)
  {
    PendActionKeeps(p, c, actionId, kind);
    var e := PendingOf(actionId, kind, c.turnId);
    Undelivered(p, e);
    Undelivered(Emit(p, e).0, TransitionOf(RequiresAction, c));
  }

  /** The action names a turn the stream never introduced: its first sight is refused. */
  lemma UnknownTurnRefused(p: Publisher, c: Cycle, actionId: string, kind: ActionKind)
    requires InSimulation(p) && Active(p) && Room(p, 2) && FreshAction(p, actionId, kind) && Id(c.turnId)
    requires c.turnId !in p.stream.value.core.turnSeen
    ensures PendAction(p, c, actionId, kind).1 == Some(EventRefused)
  {
    EmitRefused(p, PendingOf(actionId, kind, c.turnId));
  }

  /** The action is recorded against the cycle in the foreground, whatever cycle the caller named. */
  lemma RecordedAgainstForeground(p: Publisher, c: Cycle, actionId: string, kind: ActionKind)
    requires InSimulation(p) && Active(p) && Delivers(p) && Room(p, 2)
    requires FreshAction(p, actionId, kind) && Id(c.turnId) && c.turnId in p.stream.value.core.turnSeen
    ensures var (p1, err) := Emit(p, PendingOf(actionId, kind, c.turnId));
            && err.None? && Linked(p1) && Room(p1, 1) && p1.blockers == p.blockers
            && RecordedFirst(p.stream.value.core, p1.stream.value.core, p.blockers, actionId)
  {
    var core := p.stream.value.core;
    var e := PendingOf(actionId, kind, c.turnId);
    var d := NextDelivery(p.stream.value, e);
    IssuedIsId("cycle", core.state.foreground.value.cycleId, p.counter);
    FirstSightApplies(core, d, e.action, p.blockers);
    EmitApplied(p, e);
    Undelivered(p, e);
    RecordedFirstCommits(core, Apply(core, d), d, p.blockers, actionId);
  }

  ghost predicate RecordedFirst(c: Core, c1: Core, blockers: map<string, string>, actionId: string) {
    c.state.foreground.Some? &&
    var f := c.state.foreground.value;
    && Mirrors(c1.(blockedCycle := ""), blockers[actionId := f.cycleId])
    && (c1.blockedCycle == "" || c1.blockedCycle == f.cycleId)
    && c1.state.turns == c.state.turns
  }

  lemma RecordedFirstCommits(c: Core, c1: Core, d: Delivery, blockers: map<string, string>, actionId: string)
    requires RecordedFirst(c, c1, blockers, actionId)
    ensures RecordedFirst(c, Commit(c1, d), blockers, actionId)
  {
    CommitMirrors(c1.(blockedCycle := ""), d, blockers[actionId := c.state.foreground.value.cycleId], 0);
    assert Commit(c1.(blockedCycle := ""), d) == Commit(c1, d).(blockedCycle := "");
  }

  /** A cycle that is not in the foreground, with no blocker yet: the owed transition is refused. */
  lemma ForeignCycleUnblocked(c: Core, c1: Core, d: Delivery, blockers: map<string, string>, y: Cycle, actionId: string)
    requires RecordedFirst(c, c1, blockers, actionId) && c1.failed.None? && y.cycleId != ""
    requires BlockedBy(blockers, y.cycleId) == {} && y.cycleId != c.state.foreground.value.cycleId
    ensures ApplyTransition(c1, d, TransitionOf(RequiresAction, y).transition).failed.Some?
  {
    var blockers1 := blockers[actionId := c.state.foreground.value.cycleId];
    var c2 := c1.(blockedCycle := "");
    BlockedIffPending(c2, blockers1, y.cycleId);
    BlockedFrame(c1, c2, y.cycleId);
    assert forall id | id in BlockedBy(blockers1, y.cycleId) :: id in BlockedBy(blockers, y.cycleId);
  }

  /** A turn that is not open cannot go live. */
  lemma ClosedTurnRefused(c: Core, d: Delivery, y: Cycle)
    requires IdsUnique(c.state) && c.failed.None? && !TurnIsOpen(c, y.turnId)
    ensures ApplyTransition(c, d, TransitionOf(RequiresAction, y).transition).failed.Some?
  {
    var i := IndexOf(TurnIds(c.state.turns), y.turnId);
    if i >= 0 { assert c.state.turns[i].turnId == y.turnId; }
  }

  lemma UnadmittedTransitionFails(c: Core, c1: Core, d: Delivery, blockers: map<string, string>, y: Cycle,
                                  actionId: string)
    requires RecordedFirst(c, c1, blockers, actionId) && IdsUnique(c1.state) && c1.failed.None? && y.cycleId != ""
    requires BlockedBy(blockers, y.cycleId) == {}
    requires c.state.foreground.value.cycleId != y.cycleId || !TurnIsOpen(c, y.turnId)
    ensures ApplyTransition(c1, d, TransitionOf(RequiresAction, y).transition).failed.Some?
  {
    if c.state.foreground.value.cycleId != y.cycleId {
      ForeignCycleUnblocked(c, c1, d, blockers, y, actionId);
    } else {
      ClosedTurnRefused(c1, d, y);
    }
  }

  lemma UnadmittedFirstBlockerRefused(p: Publisher, c: Cycle, actionId: string, kind: ActionKind)
    requires InSimulation(p) && Active(p) && Delivers(p) && Room(p, 2)
    requires FreshAction(p, actionId, kind) && KnownCause(c.origin) && Id(c.turnId) && Id(c.cycleId)
    requires c.turnId in p.stream.value.core.turnSeen && !Admits(p, c) && BlockedBy(p.blockers, c.cycleId) == {}
    ensures PendAction(p, c, actionId, kind).1 == Some(EventRefused)
  {
    RecordedAgainstForeground(p, c, actionId, kind);
    RequirementRefused(p.stream.value.core, Emit(p, PendingOf(actionId, kind, c.turnId)).0, c, actionId);
  }

  lemma RequirementRefused(core: Core, p1: Publisher, c: Cycle, actionId: string)
    requires Linked(p1) && Room(p1, 1) && RecordedFirst(core, p1.stream.value.core, p1.blockers, actionId)
    requires KnownCause(c.origin) && Id(c.turnId) && Id(c.cycleId) && BlockedBy(p1.blockers, c.cycleId) == {}
    requires core.state.foreground.value.cycleId != c.cycleId || !TurnIsOpen(core, c.turnId)
    ensures Emit(p1, TransitionOf(RequiresAction, c)).1 == Some(EventRefused)
  {
    var e := TransitionOf(RequiresAction, c);
    UnadmittedTransitionFails(core, p1.stream.value.core, NextDelivery(p1.stream.value, e), p1.blockers, c, actionId);
    EmitRefused(p1, e);
  }

  /** A further blocker recorded under another cycle: the two bookkeepings part. */
  lemma UnadmittedFurtherBlockerDiverges(p: Publisher, c: Cycle, actionId: string, kind: ActionKind)
    requires InSimulation(p) && Active(p) && Delivers(p) && Room(p, 2)
    requires FreshAction(p, actionId, kind) && Id(c.turnId)
    requires c.turnId in p.stream.value.core.turnSeen && !Admits(p, c) && BlockedBy(p.blockers, c.cycleId) != {}
    ensures !InSimulation(PendAction(p, c, actionId, kind).0)
  {
    RecordedAgainstForeground(p, c, actionId, kind);
    var p1 := Emit(p, PendingOf(actionId, kind, c.turnId)).0;
    var core, core1 := p.stream.value.core, p1.stream.value.core;
    var f := core.state.foreground.value.cycleId;
    assert core1.actionCycle[actionId] == p.blockers[actionId := f][actionId] == f;
    assert PendAction(p, c, actionId, kind).0.blockers[actionId] == c.cycleId;
  }

  /**
   Where deliveries succeed, a pending action succeeds and leaves the two state machines in agreement
   if and only if its cycle is the foreground's and its turn can take it.
   */
  lemma PendingAgreesExactlyWhenAdmitted(p: Publisher, c: Cycle, actionId: string, kind: ActionKind)
    requires InSimulation(p) && Active(p) && Delivers(p) && Room(p, 2)
    requires FreshAction(p, actionId, kind) && KnownCause(c.origin) && Id(c.turnId) && Id(c.cycleId)
    ensures var (p1, err) := PendAction(p, c, actionId, kind); err.None? && InSimulation(p1) <==> Admits(p, c)
  {
    if Admits(p, c) {
      AdmittedSucceeds(p, c, actionId, kind);
    } else if c.turnId !in p.stream.value.core.turnSeen {
      UnknownTurnRefused(p, c, actionId, kind);
    } else if BlockedBy(p.blockers, c.cycleId) == {} {
      UnadmittedFirstBlockerRefused(p, c, actionId, kind);
    } else {
      UnadmittedFurtherBlockerDiverges(p, c, actionId, kind);
    }
  }

  // ---- a call that breaks the rule ----

  /** After any legal run, a pending action on an agent cycle that was reserved but not opened is refused. */
  lemma ReservedCycleRefused(calls: seq<Call>, actionId: string, kind: ActionKind)
    requires LegalRun(calls) && Active(After(calls)) && NamesLeft(After(calls), 2) && Room(After(calls), 2)
    requires FreshAction(After(calls), actionId, kind)
    ensures var (p, y) := NewAgentCycle(After(calls));
            && LegalRun(calls + [NewAgentCall]) && p == After(calls + [NewAgentCall])
            && PendAction(p, y, actionId, kind).1 == Some(EventRefused)
  {
    var p0 := After(calls);
    RunInSimulation(calls);
    FreshNames(p0, Cause.Activity, p0.stream.value.id);
    assert (calls + [NewAgentCall])[..|calls|] == calls;
    ReservedRefused(NewAgentCycle(p0).0, NewAgentCycle(p0).1, actionId, kind);
  }

  lemma ReservedRefused(p: Publisher, y: Cycle, actionId: string, kind: ActionKind)
    requires InSimulation(p) && Active(p) && Room(p, 2) && FreshAction(p, actionId, kind)
    requires Issued("turn", y.turnId, p.counter) && y.turnId !in p.stream.value.core.turnSeen
    ensures PendAction(p, y, actionId, kind).1 == Some(EventRefused)
  {
    IssuedIsId("turn", y.turnId, p.counter);
    UnknownTurnRefused(p, y, actionId, kind);
  }

  lemma OpenedFromZero(negotiated: Negotiated)
    requires negotiated.Present()
    ensures var p := Open(Zero(), "s", negotiated, None).0;
            && Active(p) && p.counter == 1 && p.stream.value.sequence == 1 && p.stream.value.core.state.actions == []
  {
    var n := Count(Zero().counter);
    assert n == 1;
    OpeningStream("s", negotiated, Name("cycle", n), n);
    IssuedIsId("cycle", Name("cycle", n), n);
    OpeningHasNoAction("s", negotiated, Name("cycle", n));
  }

  lemma OneCall(call: Call)
    requires Legal(Zero(), call)
    ensures After([call]) == Perform(Zero(), call).0 && LegalRun([call])
  {
    assert [call][..0] == [];
  }

  /** One such run: opening a stream. */
  lemma OpeningIsSuchARun(negotiated: Negotiated)
    requires negotiated.Present()
    ensures var p := After([OpenCall("s", negotiated, None)]);
            && LegalRun([OpenCall("s", negotiated, None)]) && Active(p) && NamesLeft(p, 2) && Room(p, 2)
            && FreshAction(p, "a", Permission)
  {
    OneCall(OpenCall("s", negotiated, None));
    OpenedFromZero(negotiated);
  }

  lemma OpeningHasNoAction(id: string, negotiated: Negotiated, cycleId: string)
    requires negotiated.Present() && Id(id) && Id(cycleId)
    ensures StreamEmit(NewStream(id, negotiated), SnapshotOf(cycleId)).0.core.state.actions == []
  {
    var e := SnapshotOf(cycleId);
    WireRoundTripOf(id, e, negotiated);
    OpeningCore(NewStream(id, negotiated).core, NextDelivery(NewStream(id, negotiated), e), cycleId);
  }
}
