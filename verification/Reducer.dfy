/**
 The reducer as the object it is (lifecycle/reducer.go, lifecycle/reducer_apply.go): its methods update
 the fields in place, and each is proved to do what `ReducerModel` says of the whole state.
 */
module Reducers {
  import opened Wrappers
  import opened Values
  import opened Events
  import opened ReducerModel

  lemma OneMore(activities: seq<ActivityRecord>, i: nat)
    requires i < |activities|
    ensures activities[..i + 1] == activities[..i] + [activities[i]]
    ensures OriginTurns(activities[..i + 1]) == OriginTurns(activities[..i]) + {activities[i].originTurnId}
    ensures ListedIds(activities[..i + 1]) == ListedIds(activities[..i]) + {activities[i].activityId}
  {
    assert forall j | 0 <= j <= i :: activities[..i + 1][j] == activities[j];
    assert activities[..i + 1][i] == activities[i];
    assert forall j | 0 <= j < i :: activities[..i][j] == activities[j];
    forall id | id in OriginTurns(activities[..i]) ensures id in OriginTurns(activities[..i + 1]) {
      var j :| 0 <= j < i && activities[..i][j].originTurnId == id;
      assert activities[..i + 1][j].originTurnId == id;
    }
    forall id | id in ListedIds(activities[..i]) ensures id in ListedIds(activities[..i + 1]) {
      var j :| 0 <= j < i && activities[..i][j].activityId == id;
      assert activities[..i + 1][j].activityId == id;
    }
  }

  class Reducer {
    var negotiated: Negotiated
    var state: State
    var base: nat
    var started: bool
    var failed: Option<Violation>
    var frames: Option<map<nat, string>>
    var turnSeen: set<string>
    var activitySeen: set<string>
    var blockedCycle: string
    var actionCycle: map<string, string>
    var retired: set<string>

    function View(): Core
      reads this
    {
      Core(negotiated, state, base, started, failed, frames, turnSeen, activitySeen, blockedCycle, actionCycle, retired)
    }

    constructor (negotiated: Negotiated)
      ensures View() == New(negotiated)
    {
      this.negotiated, retired := negotiated, {};
      state, base, started, failed, frames := EMPTY_STATE, 0, false, None, Some(map[]);
      turnSeen, activitySeen, blockedCycle, actionCycle := {}, {}, "", map[];
    }

    /** newStream's change: a validating reducer keeps no frames. */
    method DropFrames()
      modifies `frames
      ensures View() == old(View()).(frames := None)
    {
      frames := None;
    }

    method Close()
      modifies `state
      ensures View() == ReducerModel.Close(old(View()))
    {
      state := state.(closed := true);
    }

    method Refuse(d: Delivery, kind: ViolationKind)
      modifies `failed
      ensures View() == Fail(old(View()), d, kind)
    {
      failed := Some(Violation(kind, d.streamId, d.sequence));
    }

    method Reduce(d: Delivery) returns (refusal: Option<Violation>)
      modifies this
      ensures View() == ReducerModel.Reduce(old(View()), d) && refusal == failed
    {
      if failed.Some? {
      } else if !d.carrier.CarrierSessionInfo? {
        Refuse(d, IllegalCarrier);
      } else if state.closed {
        Refuse(d, StaleStream);
      } else if !started {
        ReduceFirst(d);
      } else if d.streamId != state.streamId {
        ReduceForeign(d);
      } else if d.sequence < base {
        Refuse(d, SequenceRegression);
      } else if d.sequence <= state.reducedThrough {
        ReduceDuplicate(d);
      } else if d.sequence > state.reducedThrough + 1 {
        Refuse(d, SequenceGap);
      } else if d.event.Opens() {
        Refuse(d, StreamCycle);
      } else {
        Apply(d);
        if failed.None? {
          Commit(d);
        }
      }
      refusal := failed;
    }

    method ReduceFirst(d: Delivery)
      requires failed.None?
      modifies this
      ensures View() == ReducerModel.ReduceFirst(old(View()), d)
    {
      state := state.(streamId := d.streamId);
      if !d.event.Opens() {
        Refuse(d, DeltaBeforeSnapshot);
        return;
      }
      started, base := true, d.sequence;
      ApplySnapshot(d);
      if failed.Some? {
        started := false;
      } else {
        Commit(d);
      }
    }

    /** The replacement is judged on a reducer of its own and swapped in only once it proves out. */
    method ReduceForeign(d: Delivery)
      requires failed.None?
      modifies this
      ensures View() == ReducerModel.ReduceForeign(old(View()), d)
    {
      if !d.event.Opens() || d.streamId in retired {
        Refuse(d, StaleStream);
        return;
      }
      var next := new Reducer(negotiated);
      next.retired, next.state := retired, EMPTY_STATE.(streamId := d.streamId);
      assert next.View() == Reset(negotiated, retired, d.streamId);
      next.ReduceFirst(d);
      if next.failed.Some? {
        failed := next.failed;
        return;
      }
      next.state := next.state.(closed := state.closed);
      next.retired := retired + {state.streamId};
      Replace(next);
    }

    /** The whole struct is overwritten: `*r = *next`. */
    method Replace(next: Reducer)
      modifies this
      ensures View() == old(next.View())
    {
      negotiated, state, base, started, failed, frames, turnSeen, activitySeen, blockedCycle, actionCycle, retired :=
        next.negotiated, next.state, next.base, next.started, next.failed, next.frames, next.turnSeen,
        next.activitySeen, next.blockedCycle, next.actionCycle, next.retired;
    }

    method ReduceDuplicate(d: Delivery)
      modifies this
      ensures View() == ReducerModel.ReduceDuplicate(old(View()), d)
    {
      if frames.Some? && d.sequence in frames.value {
        var digest := FrameDigest(d.frame);
        if frames.value[d.sequence] == digest {
          state := state.(suppressed := state.suppressed + 1);
          return;
        }
      }
      Refuse(d, ConflictingDuplicate);
    }

    method Commit(d: Delivery)
      modifies this
      ensures View() == ReducerModel.Commit(old(View()), d)
    {
      state := state.(reducedThrough := d.sequence);
      if frames.Some? {
        var digest := FrameDigest(d.frame);
        frames := Some(frames.value[d.sequence := digest]);
      }
    }

    method Apply(d: Delivery)
      requires failed.None?
      modifies this
      ensures View() == ReducerModel.Apply(old(View()), d)
    {
      match d.event {
        case AcceptedEvent(a) => ApplyPromptAccepted(d, a);
        case StateEvent(t) => ApplyTransition(d, t);
        case ActivityEvent(u) => ApplyActivity(d, u);
        case ActionEvent(u) => ApplyAction(d, u);
        case _ => Refuse(d, MalformedEnvelope);
      }
    }

    // ---- snapshots ----

    method ApplySnapshot(d: Delivery)
      requires d.event.Opens() && failed.None?
      modifies this
      ensures View() == ReducerModel.ApplySnapshot(old(View()), d)
    {
      if d.event.Unusable? {
        Refuse(d, MalformedEnvelope);
        return;
      }
      var defect := CheckSnapshot(d.event.snapshot);
      if defect.Some? {
        Refuse(d, defect.value);
        return;
      }
      StatedBlocking(d.event.snapshot);
      ProjectSnapshot(d.event.snapshot);
    }

    method CheckSnapshot(s: Snapshot) returns (defect: Option<ViolationKind>)
      ensures defect == SnapshotDefect(negotiated, s)
    {
      if ForegroundDefect(s.foreground) {
        return Some(MalformedEnvelope);
      }
      var turns, activities := Introduces(s);
      defect := CheckSnapshotActivities(s, activities);
      if defect.Some? {
        return;
      }
      defect := CheckSnapshotActions(s, turns, activities);
      if defect.Some? {
        return;
      }
      if s.foreground.state.RequiresAction? {
        for i := 0 to |s.actions|
          invariant forall j | 0 <= j < i :: !BlocksForeground(s.actions[j])
        {
          if BlocksForeground(s.actions[i]) {
            return None;
          }
        }
        defect := Some(InconsistentForeground);
      }
    }

    method Introduces(s: Snapshot) returns (turns: set<string>, activities: set<string>)
      ensures turns == IntroducedTurns(s) && activities == IntroducedActivities(s)
    {
      turns := if s.foreground.turnId != "" then {s.foreground.turnId} else {};
      activities := {};
      ghost var first := turns;
      for i := 0 to |s.activities|
        invariant turns == first + OriginTurns(s.activities[..i])
        invariant activities == set j | 0 <= j < i :: s.activities[j].activityId
      {
        assert OriginTurns(s.activities[..i + 1])
               == OriginTurns(s.activities[..i]) + {s.activities[i].originTurnId} by {
          assert s.activities[..i + 1][i] == s.activities[i];
        }
        turns := turns + {s.activities[i].originTurnId};
        activities := activities + {s.activities[i].activityId};
      }
      assert s.activities[..|s.activities|] == s.activities;
    }

    method CheckSnapshotActivities(s: Snapshot, introduced: set<string>) returns (defect: Option<ViolationKind>)
      requires introduced == IntroducedActivities(s)
      ensures defect == ActivitiesDefect(negotiated, s, 0)
    {
      var listed: set<string> := {};
      for i := 0 to |s.activities|
        invariant listed == set j | 0 <= j < i :: s.activities[j].activityId
        invariant ActivitiesDefect(negotiated, s, 0) == ActivitiesDefect(negotiated, s, i)
      {
        var a := s.activities[i];
        if a.activityId in listed {
          return Some(MalformedEnvelope);
        }
        listed := listed + {a.activityId};
        var identity := ActivityIdentityDefect(negotiated, a);
        if identity.Some? {
          return identity;
        }
        if a.state.Terminal() {
          return Some(MalformedEnvelope);
        }
        if a.parentId != "" && a.parentId !in introduced {
          return Some(UnknownEntity);
        }
      }
      defect := None;
    }

    method CheckSnapshotActions(s: Snapshot, turns: set<string>, activities: set<string>)
      returns (defect: Option<ViolationKind>)
      requires turns == IntroducedTurns(s) && activities == IntroducedActivities(s)
      ensures defect == ActionsDefect(s, 0)
    {
      var listed: set<string> := {};
      for i := 0 to |s.actions|
        invariant listed == set j | 0 <= j < i :: s.actions[j].actionId
        invariant ActionsDefect(s, 0) == ActionsDefect(s, i)
      {
        var a := s.actions[i];
        if a.actionId in listed {
          return Some(MalformedEnvelope);
        }
        listed := listed + {a.actionId};
        if ActionIdentityDefect(a) || a.state.Terminal() {
          return Some(MalformedEnvelope);
        }
        if !OwnerHeld(turns, activities, a.owner) {
          return Some(UnknownEntity);
        }
      }
      defect := None;
    }

    method ProjectSnapshot(s: Snapshot)
      requires forall i | 0 <= i < |s.actions| :: s.actions[i].blocksForeground.Some?
      modifies this
      ensures View() == RecordActions(ProjectTree(old(View()), s), s.actions)
    {
      state := state.(foreground := Some(s.foreground));
      if s.foreground.turnId != "" {
        state := state.(turns := state.turns + [ResumedTurn(s.foreground)]);
        turnSeen := turnSeen + {s.foreground.turnId};
      }
      RecordActivities(s.activities);
      assert IntroducedTurns(s) ==
             (if s.foreground.turnId != "" then {s.foreground.turnId} else {}) + OriginTurns(s.activities);
      assert View() == ProjectTree(old(View()), s);
      RecordSnapshotActions(s.actions);
    }

    method RecordActivities(activities: seq<ActivityRecord>)
      modifies `state, `turnSeen, `activitySeen
      ensures View() == old(View()).(
                state := old(state).(activities := old(state).activities + activities),
                turnSeen := old(turnSeen) + OriginTurns(activities),
                activitySeen := old(activitySeen) + ListedIds(activities))
    {
      for i := 0 to |activities|
        invariant state == old(state).(activities := old(state).activities + activities[..i])
        invariant turnSeen == old(turnSeen) + OriginTurns(activities[..i])
        invariant activitySeen == old(activitySeen) + ListedIds(activities[..i])
      {
        OneMore(activities, i);
        turnSeen := turnSeen + {activities[i].originTurnId};
        RecordActivity(activities[i]);
      }
      assert activities[..|activities|] == activities;
    }

    method RecordSnapshotActions(actions: seq<ActionUpdate>)
      requires forall i | 0 <= i < |actions| :: actions[i].blocksForeground.Some?
      modifies this
      ensures View() == RecordActions(old(View()), actions)
    {
      for i := 0 to |actions|
        invariant View() == RecordActions(old(View()), actions[..i])
      {
        assert actions[..i + 1][..i] == actions[..i];
        RecordAction(actions[i]);
      }
      assert actions[..|actions|] == actions;
    }

    // ---- acceptances and transitions ----

    method ApplyPromptAccepted(d: Delivery, a: PromptAccepted)
      modifies this
      ensures View() == ReducerModel.ApplyPromptAccepted(old(View()), d, a)
    {
      var index := IndexOf(TurnIds(state.turns), a.turnId);
      if index >= 0 && state.turns[index].terminal {
        Refuse(d, PostTerminalMutation);
      } else if a.turnId in turnSeen {
        Refuse(d, ImmutableIdentityChange);
      } else {
        var turn := TurnRecord(a.turnId, Submission, false, NoOutcome, a.submissionId, a.clientNonce, a.runId, "", "");
        state := state.(turns := state.turns + [turn]);
        turnSeen := turnSeen + {a.turnId};
      }
    }

    method ApplyTransition(d: Delivery, t: Transition)
      requires failed.None?
      modifies this
      ensures View() == ReducerModel.ApplyTransition(old(View()), d, t)
    {
      if NamelessTurnDefect(t) || EndingIdleDefect(t) {
        Refuse(d, MalformedEnvelope);
        return;
      }
      CheckBlockedCycle(d, t);
      if failed.None? {
        if t.state.Idle? {
          ApplyIdle(d, t);
        } else {
          ApplyLive(d, t);
        }
      }
    }

    method CheckBlockedCycle(d: Delivery, t: Transition)
      requires failed.None?
      modifies this
      ensures View() == ReducerModel.CheckBlockedCycle(old(View()), d, t)
    {
      var blocked := Blocked(t.cycleId);
      if t.state.RequiresAction? {
        if !blocked {
          Refuse(d, InconsistentForeground);
        } else if blockedCycle == t.cycleId {
          blockedCycle := "";
        }
      } else if blocked || blockedCycle == t.cycleId {
        Refuse(d, InconsistentForeground);
      }
    }

    method Blocked(cycleId: string) returns (blocked: bool)
      ensures blocked == ReducerModel.Blocked(View(), cycleId)
    {
      for i := 0 to |state.actions|
        invariant forall j | 0 <= j < i :: !Blocks(View(), j, cycleId)
      {
        var a := state.actions[i];
        if a.blocksForeground && !a.state.Terminal() && CycleOf(actionCycle, a.actionId) == cycleId {
          assert Blocks(View(), i, cycleId);
          return true;
        }
      }
      blocked := false;
    }

    method ApplyLive(d: Delivery, t: Transition)
      modifies this
      ensures View() == ReducerModel.ApplyLive(old(View()), d, t)
    {
      var index := IndexOf(TurnIds(state.turns), t.turnId);
      if index >= 0 && state.turns[index].terminal {
        Refuse(d, PostTerminalMutation);
        return;
      }
      if index < 0 {
        if !t.cause.Activity? || !t.state.Running? {
          Refuse(d, UnknownEntity);
          return;
        }
        state := state.(turns := state.turns + [OpenedTurn(t.turnId)]);
        turnSeen := turnSeen + {t.turnId};
        index := |state.turns| - 1;
      }
      state := state.(turns := state.turns[index := state.turns[index].(cycleId := t.cycleId)],
                      foreground := Some(Foreground(t.state, t.cycleId, t.turnId, NoCause)));
    }

    method ApplyIdle(d: Delivery, t: Transition)
      modifies this
      ensures View() == ReducerModel.ApplyIdle(old(View()), d, t)
    {
      var index := IndexOf(TurnIds(state.turns), t.turnId);
      if t.turnId == "" {
        state := state.(foreground := Some(Foreground(Idle, t.cycleId, "", NoCause)));
      } else if index >= 0 && state.turns[index].terminal {
        Refuse(d, PostTerminalMutation);
      } else if index < 0 {
        Refuse(d, UnknownEntity);
      } else {
        var turn := state.turns[index];
        turn := turn.(terminal := true, stopReason := t.stopReason, outcome := t.outcome, cycleId := t.cycleId);
        state := state.(turns := state.turns[index := turn],
                        foreground := Some(Foreground(Idle, t.cycleId, "", NoCause)));
      }
    }

    // ---- activities ----

    method ApplyActivity(d: Delivery, u: ActivityRecord)
      modifies this
      ensures View() == ReducerModel.ApplyActivity(old(View()), d, u)
    {
      var index := IndexOf(ActivityIds(state.activities), u.activityId);
      if index >= 0 {
        PatchActivity(d, index, u);
        return;
      }
      var defect := ActivityIdentityDefect(negotiated, u);
      if defect.Some? {
        Refuse(d, defect.value);
      } else if u.originTurnId !in turnSeen || (u.parentId != "" && u.parentId !in activitySeen) {
        Refuse(d, UnknownEntity);
      } else {
        var parent := IndexOf(ActivityIds(state.activities), u.parentId);
        if u.parentId != "" && parent >= 0 && u.activityId != u.parentId && state.activities[parent].state.Terminal() {
          Refuse(d, ChildAfterParentTerminal);
        } else {
          RecordActivity(u);
        }
      }
    }

    method RecordActivity(u: ActivityRecord)
      modifies `state, `activitySeen
      ensures View() == ReducerModel.RecordActivity(old(View()), u)
    {
      state := state.(activities := state.activities + [u]);
      activitySeen := activitySeen + {u.activityId};
    }

    method PatchActivity(d: Delivery, index: nat, u: ActivityRecord)
      requires index < |state.activities|
      modifies this
      ensures View() == ReducerModel.PatchActivity(old(View()), d, index, u)
    {
      var e := state.activities[index];
      if e.state.Terminal() {
        if TerminalActivityDifference(e, u) {
          Refuse(d, PostTerminalMutation);
        }
        return;
      }
      if ImmutableActivityConflict(e, u) {
        Refuse(d, ImmutableIdentityChange);
        return;
      }
      if u.state.Terminal() {
        var live := LiveDescendant(e.activityId);
        if live {
          Refuse(d, ParentTerminalBeforeChild);
          return;
        }
      }
      e := e.(state := u.state);
      if u.progress.Some? {
        e := e.(progress := u.progress);
      }
      state := state.(activities := state.activities[index := e]);
    }

    /** checkDescendantsTerminal. */
    method LiveDescendant(activityId: string) returns (live: bool)
      ensures live == (LiveChild(View(), activityId) || LiveOwnedAction(View(), activityId))
    {
      for i := 0 to |state.activities|
        invariant forall j | 0 <= j < i ::
          !(state.activities[j].parentId == activityId && !state.activities[j].state.Terminal())
      {
        if state.activities[i].parentId == activityId && !state.activities[i].state.Terminal() {
          return true;
        }
      }
      for i := 0 to |state.actions|
        invariant forall j | 0 <= j < i ::
          !(state.actions[j].owner == Owner(OwnerActivity, activityId) && !state.actions[j].state.Terminal())
      {
        var a := state.actions[i];
        if a.owner.kind.OwnerActivity? && a.owner.id == activityId && !a.state.Terminal() {
          return true;
        }
      }
      live := false;
    }

    // ---- actions ----

    method ApplyAction(d: Delivery, u: ActionUpdate)
      modifies this
      ensures View() == ReducerModel.ApplyAction(old(View()), d, u)
    {
      var index := IndexOf(ActionIds(state.actions), u.actionId);
      if index >= 0 {
        PatchAction(d, index, u);
      } else if ActionIdentityDefect(u) {
        Refuse(d, MalformedEnvelope);
      } else if !OwnerHeld(turnSeen, activitySeen, u.owner) {
        Refuse(d, UnknownEntity);
      } else {
        RecordAction(u);
      }
    }

    method RecordAction(u: ActionUpdate)
      requires u.blocksForeground.Some?
      modifies this
      ensures View() == ReducerModel.RecordAction(old(View()), u)
    {
      state := state.(actions := state.actions + [RecordedAction(u)]);
      if !u.state.Terminal() && BlocksForeground(u) && state.foreground.Some? {
        var foreground := state.foreground.value;
        actionCycle := actionCycle[u.actionId := foreground.cycleId];
        if !foreground.state.RequiresAction? {
          blockedCycle := foreground.cycleId;
        }
      }
    }

    method PatchAction(d: Delivery, index: nat, u: ActionUpdate)
      requires index < |state.actions|
      modifies this
      ensures View() == ReducerModel.PatchAction(old(View()), d, index, u)
    {
      var e := state.actions[index];
      if e.state.Terminal() {
        if ImmutableActionConflict(e, u) || u.state != e.state {
          Refuse(d, PostTerminalMutation);
        }
      } else if ImmutableActionConflict(e, u) {
        Refuse(d, ImmutableIdentityChange);
      } else {
        state := state.(actions := state.actions[index := e.(state := u.state)]);
      }
    }
  }
}
