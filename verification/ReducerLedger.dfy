/**
 What a reducer has projected is what it was told (lifecycle/reducer_apply.go): each turn, activity and action is
 the deliveries naming it, folded one after the other, in the order they were first named.
 */
module ReducerLedger {
  import opened Wrappers
  import opened Values
  import opened Events
  import opened ReducerModel
  import opened ReducerInvariant
  import opened ReducerRuns
  import opened ReducerLimits
  import opened ReducerVerdicts

  // ---- one entity's history ----

  /** A transition moves its turn to the cycle, and an idle ends it as it states. */
  function Moved(r: TurnRecord, t: Transition): TurnRecord {
    if t.state.Idle? then r.(terminal := true, outcome := t.outcome, stopReason := t.stopReason, cycleId := t.cycleId)
    else r.(cycleId := t.cycleId)
  }

  function TurnAfter(before: Option<TurnRecord>, e: Event, id: string): Option<TurnRecord> {
    match e
    case SnapshotEvent(s) =>
      var f := s.foreground;
      if id == "" || f.turnId != id then None
      else Some(TurnRecord(id, f.origin, false, NoOutcome, "", "", "", f.cycleId, ""))
    case AcceptedEvent(a) =>
      if a.turnId != id then before
      else Some(TurnRecord(id, Submission, false, NoOutcome, a.submissionId, a.clientNonce, a.runId, "", ""))
    case StateEvent(t) =>
      if id == "" || t.turnId != id then before
      else if before.Some? then Some(Moved(before.value, t))
      else Some(Moved(TurnRecord(id, Activity, false, NoOutcome, "", "", "", "", ""), t))
    case _ => before
  }

  function ListedActivity(activities: seq<ActivityRecord>, id: string): Option<ActivityRecord> {
    if activities == [] then None
    else if activities[0].activityId == id then Some(activities[0])
    else ListedActivity(activities[1..], id)
  }

  /** Its first sight fixes an activity; later updates give its state, and its progress when they state one. */
  function ActivityAfter(before: Option<ActivityRecord>, e: Event, id: string): Option<ActivityRecord> {
    match e
    case SnapshotEvent(s) => ListedActivity(s.activities, id)
    case ActivityEvent(u) =>
      if u.activityId != id then before
      else if before.None? then Some(u)
      else if before.value.state.Terminal() || u.progress.None? then Some(before.value.(state := u.state))
      else Some(before.value.(state := u.state, progress := u.progress))
    case _ => before
  }

  function Introduced(u: ActionUpdate): ActionRecord {
    ActionRecord(u.actionId, u.kind, u.state, u.owner, u.runId, u.blocksForeground == Some(true))
  }

  function ListedAction(actions: seq<ActionUpdate>, id: string): Option<ActionUpdate> {
    if actions == [] then None
    else if actions[0].actionId == id then Some(actions[0])
    else ListedAction(actions[1..], id)
  }

  function ActionAfter(before: Option<ActionRecord>, e: Event, id: string): Option<ActionRecord> {
    match e
    case SnapshotEvent(s) =>
      var listed := ListedAction(s.actions, id);
      if listed.Some? then Some(Introduced(listed.value)) else None
    case ActionEvent(u) =>
      if u.actionId != id then before
      else if before.None? then Some(Introduced(u))
      else Some(before.value.(state := u.state))
    case _ => before
  }

  function ForegroundAfter(before: Option<Foreground>, e: Event): Option<Foreground> {
    match e
    case SnapshotEvent(s) => Some(s.foreground)
    case StateEvent(t) => Some(Foreground(t.state, t.cycleId, if t.state.Idle? then "" else t.turnId, NoCause))
    case _ => before
  }

  /** The cycle a blocking action stopped: the foreground's when it was first seen live. */
  function StoppedAfter(before: Option<string>, known: bool, current: Option<Foreground>, e: Event, id: string)
    : Option<string>
  {
    match e
    case SnapshotEvent(s) =>
      var listed := ListedAction(s.actions, id);
      if listed.Some? && listed.value.blocksForeground == Some(true) then Some(s.foreground.cycleId) else None
    case ActionEvent(u) =>
      if u.actionId == id && !known && u.blocksForeground == Some(true) && u.state.ActionPending? && current.Some?
      then Some(current.value.cycleId) else before
    case _ => before
  }

  // ---- folded over the deliveries ----

  function TurnOf(ds: seq<Delivery>, id: string): Option<TurnRecord> {
    if ds == [] then None else TurnAfter(TurnOf(ds[..|ds| - 1], id), ds[|ds| - 1].event, id)
  }

  function ActivityOf(ds: seq<Delivery>, id: string): Option<ActivityRecord> {
    if ds == [] then None else ActivityAfter(ActivityOf(ds[..|ds| - 1], id), ds[|ds| - 1].event, id)
  }

  function ActionOf(ds: seq<Delivery>, id: string): Option<ActionRecord> {
    if ds == [] then None else ActionAfter(ActionOf(ds[..|ds| - 1], id), ds[|ds| - 1].event, id)
  }

  function ForegroundOf(ds: seq<Delivery>): Option<Foreground> {
    if ds == [] then None else ForegroundAfter(ForegroundOf(ds[..|ds| - 1]), ds[|ds| - 1].event)
  }

  function StoppedBy(ds: seq<Delivery>, id: string): Option<string> {
    if ds == [] then None
    else
      var before := ds[..|ds| - 1];
      StoppedAfter(StoppedBy(before, id), ActionOf(before, id).Some?, ForegroundOf(before), ds[|ds| - 1].event, id)
  }

  function Added(ids: seq<string>, id: string): seq<string> {
    if id in ids then ids else ids + [id]
  }

  function OrderAfter(before: seq<string>, e: Event, kind: Entity): seq<string> {
    match (kind, e)
    case (Turns, SnapshotEvent(s)) => if s.foreground.turnId == "" then [] else [s.foreground.turnId]
    case (Turns, AcceptedEvent(a)) => Added(before, a.turnId)
    case (Turns, StateEvent(t)) => if t.turnId == "" then before else Added(before, t.turnId)
    case (Activities, SnapshotEvent(s)) => ActivityIds(s.activities)
    case (Activities, ActivityEvent(u)) => Added(before, u.activityId)
    case (Actions, SnapshotEvent(s)) => UpdateIds(s.actions)
    case (Actions, ActionEvent(u)) => Added(before, u.actionId)
    case _ => before
  }

  datatype Entity = Turns | Activities | Actions

  function UpdateIds(actions: seq<ActionUpdate>): (ids: seq<string>)
    ensures |ids| == |actions| && forall i | 0 <= i < |actions| :: ids[i] == actions[i].actionId
  {
    seq(|actions|, i requires 0 <= i < |actions| => actions[i].actionId)
  }

  /** Identities in the order the deliveries first name them. */
  function Order(ds: seq<Delivery>, kind: Entity): seq<string> {
    if ds == [] then [] else OrderAfter(Order(ds[..|ds| - 1], kind), ds[|ds| - 1].event, kind)
  }

  lemma OneMore(ds: seq<Delivery>, d: Delivery, id: string)
    ensures TurnOf(ds + [d], id) == TurnAfter(TurnOf(ds, id), d.event, id)
    ensures ActivityOf(ds + [d], id) == ActivityAfter(ActivityOf(ds, id), d.event, id)
    ensures ActionOf(ds + [d], id) == ActionAfter(ActionOf(ds, id), d.event, id)
    ensures StoppedBy(ds + [d], id)
            == StoppedAfter(StoppedBy(ds, id), ActionOf(ds, id).Some?, ForegroundOf(ds), d.event, id)
  {
    assert (ds + [d])[..|ds|] == ds;
  }

  lemma OneMoreOrdered(ds: seq<Delivery>, d: Delivery)
    ensures forall kind :: Order(ds + [d], kind) == OrderAfter(Order(ds, kind), d.event, kind)
    ensures ForegroundOf(ds + [d]) == ForegroundAfter(ForegroundOf(ds), d.event)
  {
    assert (ds + [d])[..|ds|] == ds;
  }

  // ---- what has been told is what is recorded ----

  ghost predicate TurnsTold(turns: seq<TurnRecord>, ds: seq<Delivery>) {
    && TurnIds(turns) == Order(ds, Turns)
    && (forall i | 0 <= i < |turns| :: TurnOf(ds, turns[i].turnId) == Some(turns[i]))
    && (forall id | id !in TurnIds(turns) :: TurnOf(ds, id).None?)
  }

  ghost predicate ActivitiesTold(activities: seq<ActivityRecord>, ds: seq<Delivery>) {
    && ActivityIds(activities) == Order(ds, Activities)
    && (forall i | 0 <= i < |activities| :: ActivityOf(ds, activities[i].activityId) == Some(activities[i]))
    && (forall id | id !in ActivityIds(activities) :: ActivityOf(ds, id).None?)
  }

  ghost predicate ActionsTold(actions: seq<ActionRecord>, ds: seq<Delivery>) {
    && ActionIds(actions) == Order(ds, Actions)
    && (forall i | 0 <= i < |actions| :: ActionOf(ds, actions[i].actionId) == Some(actions[i]))
    && (forall id | id !in ActionIds(actions) :: ActionOf(ds, id).None?)
  }

  ghost predicate StopsTold(actionCycle: map<string, string>, ds: seq<Delivery>) {
    forall id :: StoppedBy(ds, id) == if id in actionCycle then Some(actionCycle[id]) else None
  }

  /** The deliveries are one stream's, numbered on from the first. */
  predicate OneStream(ds: seq<Delivery>, streamId: string, base: nat) {
    forall i | 0 <= i < |ds| :: ds[i].streamId == streamId && ds[i].sequence == base + i
  }

  /** The whole projection is what the deliveries told, and nothing else. */
  ghost predicate Told(c: Core, ds: seq<Delivery>) {
    && TurnsTold(c.state.turns, ds) && ActivitiesTold(c.state.activities, ds) && ActionsTold(c.state.actions, ds)
    && c.state.foreground == ForegroundOf(ds) && StopsTold(c.actionCycle, ds)
    && OneStream(ds, c.state.streamId, c.base) && |ds| == c.state.reducedThrough + 1 - c.base
  }

  // ---- one list at a time ----

  /** The event names no turn but perhaps this one. */
  ghost predicate OnlyTurn(e: Event, id: string) {
    forall other, before | other != id :: TurnAfter(before, e, other) == before
  }

  lemma TurnAppended(turns: seq<TurnRecord>, ds: seq<Delivery>, d: Delivery, r: TurnRecord)
    requires TurnsTold(turns, ds) && r.turnId !in TurnIds(turns) && OnlyTurn(d.event, r.turnId)
    requires TurnAfter(None, d.event, r.turnId) == Some(r)
    requires OrderAfter(TurnIds(turns), d.event, Turns) == TurnIds(turns) + [r.turnId]
    ensures TurnsTold(turns + [r], ds + [d])
  {
    var after := turns + [r];
    TurnIdsAppend(turns, r);
    OneMoreOrdered(ds, d);
    forall i | 0 <= i < |after| ensures TurnOf(ds + [d], after[i].turnId) == Some(after[i]) {
      OneMore(ds, d, after[i].turnId);
      if i < |turns| { assert TurnIds(turns)[i] == turns[i].turnId; }
    }
    forall id | id !in TurnIds(after) ensures TurnOf(ds + [d], id).None? {
      OneMore(ds, d, id);
      assert TurnIds(after)[|turns|] == r.turnId;
    }
  }

  lemma TurnRewritten(turns: seq<TurnRecord>, ds: seq<Delivery>, d: Delivery, k: nat, r: TurnRecord)
    requires TurnsTold(turns, ds) && Distinct(TurnIds(turns)) && k < |turns| && r.turnId == turns[k].turnId
    requires OnlyTurn(d.event, r.turnId) && TurnAfter(Some(turns[k]), d.event, r.turnId) == Some(r)
    requires OrderAfter(TurnIds(turns), d.event, Turns) == TurnIds(turns)
    ensures TurnsTold(turns[k := r], ds + [d])
  {
    var after := turns[k := r];
    TurnIdsUpdate(turns, k, r);
    OneMoreOrdered(ds, d);
    forall i | 0 <= i < |after| ensures TurnOf(ds + [d], after[i].turnId) == Some(after[i]) {
      OneMore(ds, d, after[i].turnId);
      assert TurnIds(turns)[i] == turns[i].turnId && TurnIds(turns)[k] == r.turnId;
    }
    forall id | id !in TurnIds(after) ensures TurnOf(ds + [d], id).None? {
      OneMore(ds, d, id);
      assert TurnIds(turns)[k] == r.turnId;
    }
  }

  lemma TurnsUntouched(turns: seq<TurnRecord>, ds: seq<Delivery>, d: Delivery)
    requires TurnsTold(turns, ds)
    requires d.event.ActivityEvent? || d.event.ActionEvent? || (d.event.StateEvent? && d.event.transition.turnId == "")
    ensures TurnsTold(turns, ds + [d])
  {
    OneMoreOrdered(ds, d);
    forall id ensures TurnOf(ds + [d], id) == TurnOf(ds, id) { OneMore(ds, d, id); }
  }

  lemma ActivityAppended(activities: seq<ActivityRecord>, ds: seq<Delivery>, d: Delivery, u: ActivityRecord)
    requires ActivitiesTold(activities, ds) && d.event == ActivityEvent(u) && u.activityId !in ActivityIds(activities)
    ensures ActivitiesTold(activities + [u], ds + [d])
  {
    var after := activities + [u];
    ActivityIdsAppend(activities, u);
    OneMoreOrdered(ds, d);
    forall i | 0 <= i < |after| ensures ActivityOf(ds + [d], after[i].activityId) == Some(after[i]) {
      OneMore(ds, d, after[i].activityId);
      if i < |activities| { assert ActivityIds(activities)[i] == activities[i].activityId; }
    }
    forall id | id !in ActivityIds(after) ensures ActivityOf(ds + [d], id).None? {
      OneMore(ds, d, id);
      assert ActivityIds(after)[|activities|] == u.activityId;
    }
  }

  lemma ActivityRewritten(activities: seq<ActivityRecord>, ds: seq<Delivery>, d: Delivery, k: nat, r: ActivityRecord)
    requires ActivitiesTold(activities, ds) && Distinct(ActivityIds(activities)) && k < |activities|
    requires d.event.ActivityEvent? && d.event.activity.activityId == activities[k].activityId == r.activityId
    requires ActivityAfter(Some(activities[k]), d.event, r.activityId) == Some(r)
    ensures ActivitiesTold(activities[k := r], ds + [d])
  {
    var after := activities[k := r];
    ActivityIdsUpdate(activities, k, r);
    OneMoreOrdered(ds, d);
    assert ActivityIds(activities)[k] == r.activityId;
    forall i | 0 <= i < |after| ensures ActivityOf(ds + [d], after[i].activityId) == Some(after[i]) {
      OneMore(ds, d, after[i].activityId);
      assert ActivityIds(activities)[i] == activities[i].activityId;
    }
    forall id | id !in ActivityIds(after) ensures ActivityOf(ds + [d], id).None? { OneMore(ds, d, id); }
  }

  lemma ActivitiesUntouched(activities: seq<ActivityRecord>, ds: seq<Delivery>, d: Delivery)
    requires ActivitiesTold(activities, ds) && (d.event.AcceptedEvent? || d.event.StateEvent? || d.event.ActionEvent?)
    ensures ActivitiesTold(activities, ds + [d])
  {
    OneMoreOrdered(ds, d);
    forall id ensures ActivityOf(ds + [d], id) == ActivityOf(ds, id) { OneMore(ds, d, id); }
  }

  lemma ActionAppended(actions: seq<ActionRecord>, ds: seq<Delivery>, d: Delivery, r: ActionRecord)
    requires ActionsTold(actions, ds) && d.event.ActionEvent? && d.event.action.actionId == r.actionId
    requires r == Introduced(d.event.action) && r.actionId !in ActionIds(actions)
    ensures ActionsTold(actions + [r], ds + [d])
  {
    var after := actions + [r];
    ActionIdsAppend(actions, r);
    OneMoreOrdered(ds, d);
    forall i | 0 <= i < |after| ensures ActionOf(ds + [d], after[i].actionId) == Some(after[i]) {
      OneMore(ds, d, after[i].actionId);
      if i < |actions| { assert ActionIds(actions)[i] == actions[i].actionId; }
    }
    forall id | id !in ActionIds(after) ensures ActionOf(ds + [d], id).None? {
      OneMore(ds, d, id);
      assert ActionIds(after)[|actions|] == r.actionId;
    }
  }

  lemma ActionRewritten(actions: seq<ActionRecord>, ds: seq<Delivery>, d: Delivery, k: nat, r: ActionRecord)
    requires ActionsTold(actions, ds) && Distinct(ActionIds(actions)) && k < |actions|
    requires d.event.ActionEvent? && d.event.action.actionId == actions[k].actionId
    requires r == actions[k].(state := d.event.action.state)
    ensures ActionsTold(actions[k := r], ds + [d])
  {
    var after := actions[k := r];
    ActionIdsUpdate(actions, k, r);
    OneMoreOrdered(ds, d);
    assert ActionIds(actions)[k] == r.actionId;
    forall i | 0 <= i < |after| ensures ActionOf(ds + [d], after[i].actionId) == Some(after[i]) {
      OneMore(ds, d, after[i].actionId);
      assert ActionIds(actions)[i] == actions[i].actionId;
    }
    forall id | id !in ActionIds(after) ensures ActionOf(ds + [d], id).None? { OneMore(ds, d, id); }
  }

  lemma ActionsUntouched(actions: seq<ActionRecord>, actionCycle: map<string, string>, ds: seq<Delivery>, d: Delivery)
    requires ActionsTold(actions, ds) && StopsTold(actionCycle, ds)
    requires d.event.AcceptedEvent? || d.event.StateEvent? || d.event.ActivityEvent?
    ensures ActionsTold(actions, ds + [d]) && StopsTold(actionCycle, ds + [d])
  {
    OneMoreOrdered(ds, d);
    forall id ensures ActionOf(ds + [d], id) == ActionOf(ds, id) && StoppedBy(ds + [d], id) == StoppedBy(ds, id) {
      OneMore(ds, d, id);
    }
  }

  // ---- one event ----

  /** What an event leaves of a projection told by the deliveries before it. */
  ghost predicate StateTold(c: Core, ds: seq<Delivery>) {
    && TurnsTold(c.state.turns, ds) && ActivitiesTold(c.state.activities, ds) && ActionsTold(c.state.actions, ds)
    && c.state.foreground == ForegroundOf(ds) && StopsTold(c.actionCycle, ds)
  }

  lemma AcceptanceTold(c: Core, ds: seq<Delivery>, d: Delivery, a: PromptAccepted)
    requires Inv(c) && c.failed.None? && StateTold(c, ds) && d.event == AcceptedEvent(a)
    requires ApplyPromptAccepted(c, d, a).failed.None?
    ensures StateTold(ApplyPromptAccepted(c, d, a), ds + [d])
  {
    var r := TurnRecord(a.turnId, Submission, false, NoOutcome, a.submissionId, a.clientNonce, a.runId, "", "");
    TurnAppended(c.state.turns, ds, d, r);
    ActivitiesUntouched(c.state.activities, ds, d);
    ActionsUntouched(c.state.actions, c.actionCycle, ds, d);
    OneMoreOrdered(ds, d);
  }

  lemma TransitionTold(c: Core, ds: seq<Delivery>, d: Delivery, t: Transition)
    requires Inv(c) && c.failed.None? && StateTold(c, ds) && d.event == StateEvent(t)
    requires ApplyTransition(c, d, t).failed.None?
    ensures StateTold(ApplyTransition(c, d, t), ds + [d])
  {
    CheckBlockedCycleFrame(c, d, t);
    var checked := CheckBlockedCycle(c, d, t);
    ActivitiesUntouched(c.state.activities, ds, d);
    ActionsUntouched(c.state.actions, c.actionCycle, ds, d);
    OneMoreOrdered(ds, d);
    if t.state.Idle? { IdleTold(checked, ds, d, t); } else { LiveTold(checked, ds, d, t); }
  }

  lemma IdleTold(c: Core, ds: seq<Delivery>, d: Delivery, t: Transition)
    requires IdsUnique(c.state) && c.failed.None? && TurnsTold(c.state.turns, ds) && d.event == StateEvent(t)
    requires t.state.Idle? && ApplyIdle(c, d, t).failed.None?
    ensures var c1 := ApplyIdle(c, d, t);
            && TurnsTold(c1.state.turns, ds + [d]) && c1.actionCycle == c.actionCycle
            && c1.state.activities == c.state.activities && c1.state.actions == c.state.actions
            && c1.state.foreground == Some(Foreground(Idle, t.cycleId, "", NoCause))
  {
    if t.turnId == "" {
      TurnsUntouched(c.state.turns, ds, d);
    } else {
      var k := IndexOf(TurnIds(c.state.turns), t.turnId);
      TurnRewritten(c.state.turns, ds, d, k, Moved(c.state.turns[k], t));
    }
  }

  lemma LiveTold(c: Core, ds: seq<Delivery>, d: Delivery, t: Transition)
    requires IdsUnique(c.state) && c.failed.None? && TurnsTold(c.state.turns, ds) && d.event == StateEvent(t)
    requires !t.state.Idle? && t.turnId != "" && ApplyLive(c, d, t).failed.None?
    ensures var c1 := ApplyLive(c, d, t);
            && TurnsTold(c1.state.turns, ds + [d]) && c1.actionCycle == c.actionCycle
            && c1.state.activities == c.state.activities && c1.state.actions == c.state.actions
            && c1.state.foreground == Some(Foreground(t.state, t.cycleId, t.turnId, NoCause))
  {
    var k := IndexOf(TurnIds(c.state.turns), t.turnId);
    if k < 0 {
      var r := Moved(TurnRecord(t.turnId, Activity, false, NoOutcome, "", "", "", "", ""), t);
      TurnAppended(c.state.turns, ds, d, r);
    } else {
      TurnRewritten(c.state.turns, ds, d, k, Moved(c.state.turns[k], t));
    }
  }

  lemma ActivityPatched(c: Core, d: Delivery, k: nat, u: ActivityRecord)
    requires c.failed.None? && k < |c.state.activities| && u.activityId == c.state.activities[k].activityId
    requires PatchActivity(c, d, k, u).failed.None?
    ensures var e := ActivityAfter(Some(c.state.activities[k]), ActivityEvent(u), u.activityId).value;
            PatchActivity(c, d, k, u) == c.(state := c.state.(activities := c.state.activities[k := e]))
  {
    var activities := c.state.activities;
    if activities[k].state.Terminal() { assert activities[k := activities[k]] == activities; }
  }

  /** What an accepted update leaves of the activities. */
  lemma ActivityApplied(c: Core, d: Delivery, u: ActivityRecord)
    requires IdsUnique(c.state) && c.failed.None? && ApplyActivity(c, d, u).failed.None?
    ensures var c1, k := ApplyActivity(c, d, u), IndexOf(ActivityIds(c.state.activities), u.activityId);
            && c1.state == c.state.(activities := c1.state.activities) && c1.actionCycle == c.actionCycle
            && c1.state.activities
               == if k < 0 then c.state.activities + [u]
                  else c.state.activities[k := ActivityAfter(Some(c.state.activities[k]), ActivityEvent(u),
                                                             u.activityId).value]
  {
    var k := IndexOf(ActivityIds(c.state.activities), u.activityId);
    if k >= 0 { ActivityPatched(c, d, k, u); }
  }

  lemma ActivitiesTurnInto(c: Core, ds: seq<Delivery>, d: Delivery, u: ActivityRecord, k: int)
    requires IdsUnique(c.state) && ActivitiesTold(c.state.activities, ds) && d.event == ActivityEvent(u)
    requires k == IndexOf(ActivityIds(c.state.activities), u.activityId)
    ensures ActivitiesTold(
              if k < 0 then c.state.activities + [u]
              else c.state.activities[k := ActivityAfter(Some(c.state.activities[k]), d.event, u.activityId).value],
              ds + [d])
  {
    var activities := c.state.activities;
    if k < 0 {
      ActivityAppended(activities, ds, d, u);
    } else {
      ActivityRewritten(activities, ds, d, k, ActivityAfter(Some(activities[k]), d.event, u.activityId).value);
    }
  }

  lemma ActivityTold(c: Core, ds: seq<Delivery>, d: Delivery, u: ActivityRecord)
    requires Inv(c) && c.failed.None? && StateTold(c, ds) && d.event == ActivityEvent(u)
    requires ApplyActivity(c, d, u).failed.None?
    ensures StateTold(ApplyActivity(c, d, u), ds + [d])
  {
    TurnsUntouched(c.state.turns, ds, d);
    ActionsUntouched(c.state.actions, c.actionCycle, ds, d);
    OneMoreOrdered(ds, d);
    ActivityApplied(c, d, u);
    ActivitiesTurnInto(c, ds, d, u, IndexOf(ActivityIds(c.state.activities), u.activityId));
  }

  lemma ActionPatched(c: Core, d: Delivery, k: nat, u: ActionUpdate)
    requires c.failed.None? && k < |c.state.actions| && PatchAction(c, d, k, u).failed.None?
    ensures var e := c.state.actions[k].(state := u.state);
            PatchAction(c, d, k, u) == c.(state := c.state.(actions := c.state.actions[k := e]))
  {
    var actions := c.state.actions;
    if actions[k].state.Terminal() { assert actions[k := actions[k]] == actions; }
  }

  lemma ActionApplied(c: Core, d: Delivery, u: ActionUpdate)
    requires IdsUnique(c.state) && c.failed.None? && ApplyAction(c, d, u).failed.None?
    ensures var c1, k := ApplyAction(c, d, u), IndexOf(ActionIds(c.state.actions), u.actionId);
            && c1.state == c.state.(actions := c1.state.actions)
            && (k < 0 ==> u.blocksForeground.Some? && c1.actionCycle == RecordAction(c, u).actionCycle)
            && (k >= 0 ==> c1.actionCycle == c.actionCycle)
            && c1.state.actions
               == if k < 0 then c.state.actions + [Introduced(u)]
                  else c.state.actions[k := c.state.actions[k].(state := u.state)]
  {
    var k := IndexOf(ActionIds(c.state.actions), u.actionId);
    if k >= 0 { ActionPatched(c, d, k, u); } else { RecordActionFrame(c, u); }
  }

  lemma ActionsTurnInto(c: Core, ds: seq<Delivery>, d: Delivery, u: ActionUpdate, k: int)
    requires IdsUnique(c.state) && ActionsTold(c.state.actions, ds) && d.event == ActionEvent(u)
    requires k == IndexOf(ActionIds(c.state.actions), u.actionId)
    ensures ActionsTold(if k < 0 then c.state.actions + [Introduced(u)]
                        else c.state.actions[k := c.state.actions[k].(state := u.state)],
                        ds + [d])
  {
    if k < 0 {
      ActionAppended(c.state.actions, ds, d, Introduced(u));
    } else {
      ActionRewritten(c.state.actions, ds, d, k, c.state.actions[k].(state := u.state));
    }
  }

  lemma ActionTold(c: Core, ds: seq<Delivery>, d: Delivery, u: ActionUpdate)
    requires Inv(c) && c.failed.None? && StateTold(c, ds) && d.event == ActionEvent(u)
    requires ApplyAction(c, d, u).failed.None?
    ensures StateTold(ApplyAction(c, d, u), ds + [d])
  {
    TurnsUntouched(c.state.turns, ds, d);
    ActivitiesUntouched(c.state.activities, ds, d);
    OneMoreOrdered(ds, d);
    ActionApplied(c, d, u);
    var k := IndexOf(ActionIds(c.state.actions), u.actionId);
    ActionsTurnInto(c, ds, d, u, k);
    if k < 0 { FirstStopTold(c, ds, d, u); } else { LaterStopsTold(c, ds, d, u); }
  }

  lemma FirstStopTold(c: Core, ds: seq<Delivery>, d: Delivery, u: ActionUpdate)
    requires ActionsTold(c.state.actions, ds) && StopsTold(c.actionCycle, ds) && c.state.foreground == ForegroundOf(ds)
    requires d.event == ActionEvent(u) && u.actionId !in ActionIds(c.state.actions) && u.blocksForeground.Some?
    ensures StopsTold(RecordAction(c, u).actionCycle, ds + [d])
  {
    var after := RecordAction(c, u).actionCycle;
    forall id ensures StoppedBy(ds + [d], id) == if id in after then Some(after[id]) else None {
      OneMore(ds, d, id);
    }
  }

  lemma LaterStopsTold(c: Core, ds: seq<Delivery>, d: Delivery, u: ActionUpdate)
    requires ActionsTold(c.state.actions, ds) && StopsTold(c.actionCycle, ds)
    requires d.event == ActionEvent(u) && u.actionId in ActionIds(c.state.actions)
    ensures StopsTold(c.actionCycle, ds + [d])
  {
    var k :| 0 <= k < |c.state.actions| && ActionIds(c.state.actions)[k] == u.actionId;
    forall id ensures StoppedBy(ds + [d], id) == StoppedBy(ds, id) { OneMore(ds, d, id); }
  }

  lemma ApplyTold(c: Core, ds: seq<Delivery>, d: Delivery)
    requires Inv(c) && c.failed.None? && StateTold(c, ds) && Apply(c, d).failed.None?
    ensures StateTold(Apply(c, d), ds + [d])
  {
    match d.event
    case AcceptedEvent(a) => AcceptanceTold(c, ds, d, a);
    case StateEvent(t) => TransitionTold(c, ds, d, t);
    case ActivityEvent(u) => ActivityTold(c, ds, d, u);
    case ActionEvent(u) => ActionTold(c, ds, d, u);
  }

  // ---- the snapshot that opens an incarnation ----

  lemma {:induction false} ListedActivityAt(activities: seq<ActivityRecord>, i: nat)
    requires i < |activities| && Distinct(ActivityIds(activities))
    ensures ListedActivity(activities, activities[i].activityId) == Some(activities[i])
  {
    var ids := ActivityIds(activities);
    if i > 0 {
      assert ids[0] != ids[i];
      RestDistinct(activities);
      ListedActivityAt(activities[1..], i - 1);
    }
  }

  lemma RestDistinct(activities: seq<ActivityRecord>)
    requires activities != [] && Distinct(ActivityIds(activities))
    ensures Distinct(ActivityIds(activities[1..]))
  {
    var ids, rest := ActivityIds(activities), ActivityIds(activities[1..]);
    forall i, j | 0 <= i < j < |rest| ensures rest[i] != rest[j] {
      assert rest[i] == ids[i + 1] && rest[j] == ids[j + 1];
    }
  }

  lemma {:induction false} NotListedActivity(activities: seq<ActivityRecord>, id: string)
    requires id !in ActivityIds(activities)
    ensures ListedActivity(activities, id).None?
  {
    if activities != [] {
      var rest := activities[1..];
      assert ActivityIds(activities)[0] == activities[0].activityId;
      assert forall i | 0 <= i < |rest| :: ActivityIds(rest)[i] == ActivityIds(activities)[i + 1];
      NotListedActivity(rest, id);
    }
  }

  lemma {:induction false} ListedActionAt(actions: seq<ActionUpdate>, i: nat)
    requires i < |actions| && Distinct(UpdateIds(actions))
    ensures ListedAction(actions, actions[i].actionId) == Some(actions[i])
  {
    var ids := UpdateIds(actions);
    if i > 0 {
      assert ids[0] != ids[i];
      var rest := UpdateIds(actions[1..]);
      forall j, k | 0 <= j < k < |rest| ensures rest[j] != rest[k] {
        assert rest[j] == ids[j + 1] && rest[k] == ids[k + 1];
      }
      ListedActionAt(actions[1..], i - 1);
    }
  }

  lemma {:induction false} NotListedAction(actions: seq<ActionUpdate>, id: string)
    requires id !in UpdateIds(actions)
    ensures ListedAction(actions, id).None?
  {
    if actions != [] {
      var rest := actions[1..];
      assert UpdateIds(actions)[0] == actions[0].actionId;
      assert forall i | 0 <= i < |rest| :: UpdateIds(rest)[i] == UpdateIds(actions)[i + 1];
      NotListedAction(rest, id);
    }
  }

  lemma Alone(d: Delivery, id: string)
    ensures TurnOf([d], id) == TurnAfter(None, d.event, id)
    ensures ActivityOf([d], id) == ActivityAfter(None, d.event, id)
    ensures ActionOf([d], id) == ActionAfter(None, d.event, id)
    ensures StoppedBy([d], id) == StoppedAfter(None, false, None, d.event, id)
    ensures ForegroundOf([d]) == ForegroundAfter(None, d.event)
    ensures forall kind :: Order([d], kind) == OrderAfter([], d.event, kind)
  {
    assert [d][..0] == [];
  }

  lemma SnapshotTurnsTold(d: Delivery, s: Snapshot)
    requires d.event == SnapshotEvent(s)
    ensures TurnsTold(if s.foreground.turnId != "" then [ResumedTurn(s.foreground)] else [], [d])
  {
    forall id ensures TurnOf([d], id) == TurnAfter(None, d.event, id) { Alone(d, id); }
    Alone(d, "");
  }

  lemma SnapshotActivitiesTold(d: Delivery, s: Snapshot)
    requires d.event == SnapshotEvent(s) && Distinct(ActivityIds(s.activities))
    ensures ActivitiesTold(s.activities, [d])
  {
    Alone(d, "");
    forall i | 0 <= i < |s.activities| ensures ActivityOf([d], s.activities[i].activityId) == Some(s.activities[i]) {
      Alone(d, s.activities[i].activityId);
      ListedActivityAt(s.activities, i);
    }
    forall id | id !in ActivityIds(s.activities) ensures ActivityOf([d], id).None? {
      Alone(d, id);
      NotListedActivity(s.activities, id);
    }
  }

  lemma SnapshotActionsTold(d: Delivery, s: Snapshot, actions: seq<ActionRecord>)
    requires d.event == SnapshotEvent(s) && Distinct(UpdateIds(s.actions)) && |actions| == |s.actions|
    requires forall i | 0 <= i < |actions| :: actions[i] == Introduced(s.actions[i])
    ensures ActionsTold(actions, [d])
  {
    Alone(d, "");
    assert ActionIds(actions) == UpdateIds(s.actions);
    forall i | 0 <= i < |actions| ensures ActionOf([d], actions[i].actionId) == Some(actions[i]) {
      Alone(d, actions[i].actionId);
      ListedActionAt(s.actions, i);
    }
    forall id | id !in ActionIds(actions) ensures ActionOf([d], id).None? {
      Alone(d, id);
      NotListedAction(s.actions, id);
    }
  }

  /** The listed action under an identity blocks. */
  ghost predicate ListedBlocker(actions: seq<ActionUpdate>, id: string) {
    exists i | 0 <= i < |actions| :: actions[i].actionId == id && actions[i].blocksForeground == Some(true)
  }

  /** Recording a list of live actions stops the current cycle by each that blocks. */
  lemma {:induction false} ListedStops(c: Core, actions: seq<ActionUpdate>, cycleId: string)
    requires forall i | 0 <= i < |actions| :: actions[i].blocksForeground.Some? && actions[i].state.ActionPending?
    requires c.state.foreground.Some? && c.state.foreground.value.cycleId == cycleId && c.actionCycle == map[]
    ensures var stops := RecordActions(c, actions).actionCycle;
            forall id :: (id in stops <==> ListedBlocker(actions, id)) && (id in stops ==> stops[id] == cycleId)
  {
    if actions != [] {
      var rest, last := actions[..|actions| - 1], actions[|actions| - 1];
      ListedStops(c, rest, cycleId);
      RecordActionsFrame(c, rest);
      forall id
        ensures ListedBlocker(actions, id)
                <==> ListedBlocker(rest, id) || (last.actionId == id && last.blocksForeground == Some(true))
      {
        ListedBlockerLast(actions, id);
      }
    }
  }

  lemma ListedBlockerLast(actions: seq<ActionUpdate>, id: string)
    requires actions != []
    ensures var rest, last := actions[..|actions| - 1], actions[|actions| - 1];
            ListedBlocker(actions, id)
            <==> ListedBlocker(rest, id) || (last.actionId == id && last.blocksForeground == Some(true))
  {
    var rest := actions[..|actions| - 1];
    if ListedBlocker(rest, id) {
      var i :| 0 <= i < |rest| && rest[i].actionId == id && rest[i].blocksForeground == Some(true);
      assert actions[i] == rest[i];
    }
    if ListedBlocker(actions, id) {
      var i :| 0 <= i < |actions| && actions[i].actionId == id && actions[i].blocksForeground == Some(true);
      assert i < |rest| ==> rest[i] == actions[i];
    }
  }

  lemma ListedBlockerMeans(actions: seq<ActionUpdate>, id: string)
    requires Distinct(UpdateIds(actions))
    ensures var listed := ListedAction(actions, id);
            ListedBlocker(actions, id) <==> listed.Some? && listed.value.blocksForeground == Some(true)
  {
    if id in UpdateIds(actions) {
      var k :| 0 <= k < |actions| && UpdateIds(actions)[k] == id;
      ListedActionAt(actions, k);
      if ListedBlocker(actions, id) {
        var i :| 0 <= i < |actions| && actions[i].actionId == id && actions[i].blocksForeground == Some(true);
        assert UpdateIds(actions)[i] == UpdateIds(actions)[k];
      }
    } else {
      NotListedAction(actions, id);
      assert forall i | 0 <= i < |actions| :: UpdateIds(actions)[i] == actions[i].actionId;
    }
  }

  lemma SnapshotStopsTold(c: Core, d: Delivery, s: Snapshot)
    requires d.event == SnapshotEvent(s) && Distinct(UpdateIds(s.actions)) && c.actionCycle == map[]
    requires forall i | 0 <= i < |s.actions| :: s.actions[i].blocksForeground.Some? && s.actions[i].state.ActionPending?
    requires c.state.foreground == Some(s.foreground)
    ensures StopsTold(RecordActions(c, s.actions).actionCycle, [d])
  {
    ListedStops(c, s.actions, s.foreground.cycleId);
    forall id ensures StoppedBy([d], id) == StoppedAfter(None, false, None, d.event, id) { Alone(d, id); }
    forall id ensures var listed := ListedAction(s.actions, id);
                ListedBlocker(s.actions, id) <==> listed.Some? && listed.value.blocksForeground == Some(true)
    {
      ListedBlockerMeans(s.actions, id);
    }
  }

  lemma ListsDistinct(n: Negotiated, s: Snapshot)
    requires WellFormed(n, s)
    ensures Distinct(ActivityIds(s.activities)) && Distinct(UpdateIds(s.actions))
  {
    forall i, j | 0 <= i < j < |s.activities| ensures s.activities[i].activityId != s.activities[j].activityId {
      assert ActivityStands(n, s, j);
    }
    forall i, j | 0 <= i < j < |s.actions| ensures s.actions[i].actionId != s.actions[j].actionId {
      assert ActionStands(s, j);
    }
  }

  lemma ListedActionsPending(n: Negotiated, s: Snapshot)
    requires WellFormed(n, s)
    ensures forall i | 0 <= i < |s.actions| :: s.actions[i].blocksForeground.Some? && s.actions[i].state.ActionPending?
  {
    forall i | 0 <= i < |s.actions|
      ensures s.actions[i].blocksForeground.Some? && s.actions[i].state.ActionPending?
    {
      assert ActionStands(s, i);
    }
  }

  lemma SnapshotTold(c: Core, d: Delivery, s: Snapshot)
    requires Empty(c) && c.failed.None? && d.event == SnapshotEvent(s) && WellFormed(c.negotiated, s)
    ensures StateTold(ApplySnapshot(c, d), [d])
  {
    var tree := ProjectTree(c, s);
    SnapshotVerdict(c.negotiated, s);
    ListsDistinct(c.negotiated, s);
    ListedActionsPending(c.negotiated, s);
    ProjectTreeShape(c, s);
    RecordActionsFrame(tree, s.actions);
    SnapshotTurnsTold(d, s);
    SnapshotActivitiesTold(d, s);
    RecordedAreListed(tree, s);
    SnapshotActionsTold(d, s, RecordActions(tree, s.actions).state.actions);
    SnapshotStopsTold(tree, d, s);
    Alone(d, "");
  }

  lemma RecordedAreListed(c: Core, s: Snapshot)
    requires c.state.actions == [] && forall i | 0 <= i < |s.actions| :: s.actions[i].blocksForeground.Some?
    ensures var recorded := RecordActions(c, s.actions).state.actions;
            |recorded| == |s.actions| && forall i | 0 <= i < |recorded| :: recorded[i] == Introduced(s.actions[i])
  {
    RecordActionsFrame(c, s.actions);
    var recorded := RecordActions(c, s.actions).state.actions;
    forall i | 0 <= i < |recorded| ensures recorded[i] == Introduced(s.actions[i]) {
      assert recorded[0 + i] == RecordedAction(s.actions[i]);
    }
  }

  // ---- over a run ----

  lemma OpeningTold(c: Core, d: Delivery)
    requires Empty(c) && c.failed.None? && ReduceFirst(c, d).failed.None?
    ensures Told(ReduceFirst(c, d), [d])
  {
    var named := c.(state := c.state.(streamId := d.streamId), started := true, base := d.sequence);
    var s := d.event.snapshot;
    SnapshotVerdict(c.negotiated, s);
    SnapshotTold(named, d, s);
    StatedBlocking(s);
    RecordActionsFrame(ProjectTree(named, s), s.actions);
  }

  lemma NextTold(c: Core, ds: seq<Delivery>, d: Delivery)
    requires Coherent(c) && NextInStream(c, d) && Told(c, ds) && Reduce(c, d).failed.None?
    ensures Told(Reduce(c, d), ds + [d])
  {
    NextIsCommitted(c, d);
    ApplyFrame(c, d);
    ApplyTold(c, ds, d);
  }

  lemma OtherTold(c: Core, ds: seq<Delivery>, d: Delivery)
    requires Coherent(c) && Told(c, ds) && d.streamId == c.state.streamId && !NextInStream(c, d)
    requires Reduce(c, d).failed.None?
    ensures Told(Reduce(c, d), ds)
  {
    assert Reduce(c, d) == c.(state := c.state.(suppressed := c.state.suppressed + 1));
  }

  /** The deliveries a run reduced in its current incarnation: its opening, and each next one. */
  function Applied(c: Core, inputs: seq<Input>): seq<Delivery> {
    if inputs == [] then []
    else
      var rest, last := inputs[..|inputs| - 1], inputs[|inputs| - 1];
      var before := Run(c, rest);
      if !last.Deliver? then Applied(c, rest)
      else if !before.started || last.d.streamId != before.state.streamId then [last.d]
      else if NextInStream(before, last.d) then Applied(c, rest) + [last.d]
      else Applied(c, rest)
  }

  lemma ForeignTold(c: Core, d: Delivery)
    requires c.started && c.failed.None? && ReduceForeign(c, d).failed.None?
    ensures Told(ReduceForeign(c, d), [d])
  {
    OpeningTold(Reset(c.negotiated, c.retired, d.streamId), d);
  }

  lemma StepTold(c: Core, ds: seq<Delivery>, i: Input)
    requires Sound(c) && c.started && c.failed.None? && Told(c, ds) && Step(c, i).failed.None?
    ensures var c1 := Step(c, i);
            match i
            case Deliver(d) =>
              if d.streamId != c.state.streamId then Told(c1, [d])
              else if NextInStream(c, d) then Told(c1, ds + [d])
              else Told(c1, ds)
            case _ => Told(c1, ds)
  {
    match i
    case Deliver(d) =>
      if d.streamId != c.state.streamId {
        ForeignTold(c, d);
      } else if NextInStream(c, d) {
        NextTold(c, ds, d);
      } else {
        OtherTold(c, ds, d);
      }
    case _ =>
  }

  /**
   In every unfailed state a run reaches, each turn, activity and action is what the deliveries of the current
   incarnation say of it, each list is in the order they first name its members, and the foreground and the
   cycles the blockers stopped are theirs too.
   */
  lemma {:induction false} ProjectionIsTold(c: Core, inputs: seq<Input>)
    requires Sound(c) && !c.started && Run(c, inputs).failed.None? && Run(c, inputs).started
    ensures Told(Run(c, inputs), Applied(c, inputs))
  {
    if inputs != [] {
      var rest, last := inputs[..|inputs| - 1], inputs[|inputs| - 1];
      LatchedStep(Run(c, rest), last);
      RunSound(c, rest);
      if Run(c, rest).started {
        ProjectionIsTold(c, rest);
        StepTold(Run(c, rest), Applied(c, rest), last);
      } else {
        FirstTold(Run(c, rest), last);
      }
    }
  }

  lemma FirstTold(c: Core, i: Input)
    requires Sound(c) && !c.started && c.failed.None? && Step(c, i).failed.None? && Step(c, i).started
    ensures i.Deliver? && Told(Step(c, i), [i.d])
  {
    if i.Deliver? { OpeningTold(c, i.d); }
  }

  // ---- the end of a turn ----

  /** An idle naming a turn is the stream's next delivery. */
  predicate Ends(c: Core, i: Input, turnId: string) {
    && i.Deliver? && NextInStream(c, i.d) && i.d.event.StateEvent?
    && i.d.event.transition.state.Idle? && i.d.event.transition.turnId == turnId && turnId != ""
  }

  /** The turn is recorded as ended, with the outcome, the reason and the cycle of this transition. */
  ghost predicate EndedAs(c: Core, turnId: string, t: Transition) {
    exists k | 0 <= k < |c.state.turns| ::
      && c.state.turns[k].turnId == turnId && c.state.turns[k].terminal
      && c.state.turns[k].outcome == t.outcome && c.state.turns[k].stopReason == t.stopReason
      && c.state.turns[k].cycleId == t.cycleId
  }

  lemma EndingEnds(c: Core, i: Input, turnId: string)
    requires Coherent(c) && Ends(c, i, turnId) && Step(c, i).failed.None?
    ensures EndedAs(Step(c, i), turnId, i.d.event.transition)
  {
    var d, t := i.d, i.d.event.transition;
    NextIsCommitted(c, d);
    EndingApplied(c, d, t);
  }

  lemma EndingApplied(c: Core, d: Delivery, t: Transition)
    requires c.failed.None? && t.state.Idle? && t.turnId != "" && ApplyTransition(c, d, t).failed.None?
    ensures EndedAs(ApplyTransition(c, d, t), t.turnId, t)
  {
    CheckBlockedCycleFrame(c, d, t);
    var k := IndexOf(TurnIds(c.state.turns), t.turnId);
    assert ApplyTransition(c, d, t).state.turns[k].turnId == t.turnId;
  }

  lemma StaysEndedAs(a: Core, b: Core, turnId: string, t: Transition)
    requires Continues(a, b) && EndedAs(a, turnId, t)
    ensures EndedAs(b, turnId, t)
  {
    var k :| 0 <= k < |a.state.turns| && a.state.turns[k].turnId == turnId && a.state.turns[k].terminal
             && a.state.turns[k].outcome == t.outcome && a.state.turns[k].stopReason == t.stopReason
             && a.state.turns[k].cycleId == t.cycleId;
    assert TurnContinues(a.state.turns[k], b.state.turns[k]);
  }

  /** What a delivery that is the stream's next would do with a turn: accept it, or make a transition of it. */
  predicate NamesTurn(e: Event, turnId: string) {
    (e.AcceptedEvent? && e.accepted.turnId == turnId) || (e.StateEvent? && e.transition.turnId == turnId)
  }

  /**
   An accepted idle ends the turn it names, with what it states, and in every later state of the incarnation the
   turn is so recorded; nothing accepted after it names that turn again.
   */
  lemma TurnEndsForGood(c: Core, inputs: seq<Input>, k: nat, n: nat, turnId: string)
    requires Sound(c) && k < n <= |inputs| && Run(c, inputs).failed.None?
    requires Ends(Run(c, inputs[..k]), inputs[k], turnId)
    requires Run(c, inputs).state.streamId == Run(c, inputs[..k]).state.streamId
    ensures EndedAs(Run(c, inputs[..n]), turnId, inputs[k].d.event.transition)
    ensures n < |inputs| && inputs[n].Deliver? && NextInStream(Run(c, inputs[..n]), inputs[n].d) ==>
              !NamesTurn(inputs[n].d.event, turnId)
  {
    EndedSince(c, inputs, k, n, turnId);
    if n < |inputs| && inputs[n].Deliver? && NextInStream(Run(c, inputs[..n]), inputs[n].d) {
      RunStep(c, inputs, n);
      Midway(c, inputs, k, n);
      EndedIsNotNamed(Run(c, inputs[..n]), inputs[n].d, turnId);
    }
  }

  lemma EndedSince(c: Core, inputs: seq<Input>, k: nat, n: nat, turnId: string)
    requires Sound(c) && k < n <= |inputs| && Run(c, inputs).failed.None?
    requires Ends(Run(c, inputs[..k]), inputs[k], turnId)
    requires Run(c, inputs).state.streamId == Run(c, inputs[..k]).state.streamId
    ensures EndedAs(Run(c, inputs[..n]), turnId, inputs[k].d.event.transition)
  {
    var after := k + 1;
    Neighbours(c, inputs, k, k, after);
    Midway(c, inputs, k, n);
    RunStep(c, inputs, k);
    RunOne(c, inputs, k);
    EndingEnds(Run(c, inputs[..k]), inputs[k], turnId);
    RunBetween(c, inputs, after, n);
    StaysEndedAs(Run(c, inputs[..after]), Run(c, inputs[..n]), turnId, inputs[k].d.event.transition);
  }

  lemma EndedIsNotNamed(c: Core, d: Delivery, turnId: string)
    requires Coherent(c) && NextInStream(c, d) && TurnIsClosed(c, turnId) && Reduce(c, d).failed.None?
    ensures turnId != "" ==> !NamesTurn(d.event, turnId)
  {
    ClosedIsNotOpen(c, turnId);
    if d.event.AcceptedEvent? { AcceptanceVerdict(c, d); }
    if d.event.StateEvent? { TransitionVerdict(c, d); }
  }

  lemma ClosedIsNotOpen(c: Core, turnId: string)
    requires IdsUnique(c.state) && TurnIsClosed(c, turnId)
    ensures !TurnIsOpen(c, turnId) && turnId in TurnIds(c.state.turns)
  {
    TurnIndexMeans(c, turnId);
  }
}
