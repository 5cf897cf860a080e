/**
 What one delivery does to the reducer, as a function of its whole state
 (lifecycle/reducer.go, lifecycle/reducer_apply.go).

 `Core` holds every field of the source's Reducer. A refusal is latched in `failed`, so each function
 returns the state it leaves behind and a caller reads off `failed` whether it was refused.
 */
module ReducerModel {
  import opened Wrappers
  import opened Values
  import opened Events

  datatype Core = Core(
    negotiated: Negotiated,
    state: State,
    base: nat,
    started: bool,
    failed: Option<Violation>,
    frames: Option<map<nat, string>>,
    turnSeen: set<string>,
    activitySeen: set<string>,
    blockedCycle: string,
    actionCycle: map<string, string>,
    retired: set<string>)

  /** reset under a fresh Reducer: nothing projected, nothing recorded. */
  function Reset(negotiated: Negotiated, retired: set<string>, streamId: string): Core {
    Core(negotiated, EMPTY_STATE.(streamId := streamId), 0, false, None, Some(map[]), {}, {}, "", map[], retired)
  }

  function New(negotiated: Negotiated): Core {
    Reset(negotiated, {}, "")
  }

  function Fail(c: Core, d: Delivery, kind: ViolationKind): Core {
    c.(failed := Some(Violation(kind, d.streamId, d.sequence)))
  }

  function Close(c: Core): Core {
    c.(state := c.state.(closed := true))
  }

  // ---- snapshots ----

  function IntroducedTurns(s: Snapshot): set<string> {
    (if s.foreground.turnId != "" then {s.foreground.turnId} else {}) + OriginTurns(s.activities)
  }

  function OriginTurns(activities: seq<ActivityRecord>): set<string> {
    set i | 0 <= i < |activities| :: activities[i].originTurnId
  }

  function ListedIds(activities: seq<ActivityRecord>): set<string> {
    set i | 0 <= i < |activities| :: activities[i].activityId
  }

  function IntroducedActivities(s: Snapshot): set<string> {
    ListedIds(s.activities)
  }

  /** checkActivityIdentity. */
  function ActivityIdentityDefect(n: Negotiated, a: ActivityRecord): Option<ViolationKind> {
    if a.kind.NoActivityKind? || a.cause.NoCause? || a.originTurnId == "" then Some(ImmutableIdentityChange)
    else if a.kind !in n.activityKinds then Some(UnnegotiatedFact)
    else None
  }

  /** checkActionIdentity. */
  predicate ActionIdentityDefect(a: ActionUpdate) {
    a.kind.NoActionKind? || a.owner.id == "" || a.blocksForeground.None?
  }

  predicate OwnerHeld(turns: set<string>, activities: set<string>, owner: Owner) {
    if owner.kind.OwnerActivity? then owner.id in activities else owner.id in turns
  }

  /** The verdict on the snapshot's activity at one position. */
  function ListedActivityDefect(n: Negotiated, s: Snapshot, i: nat): Option<ViolationKind>
    requires i < |s.activities|
  {
    var a := s.activities[i];
    if exists j | 0 <= j < i :: s.activities[j].activityId == a.activityId then Some(MalformedEnvelope)
    else if ActivityIdentityDefect(n, a).Some? then ActivityIdentityDefect(n, a)
    else if a.state.Terminal() then Some(MalformedEnvelope)
    else if a.parentId != "" && a.parentId !in IntroducedActivities(s) then Some(UnknownEntity)
    else None
  }

  function ListedActionDefect(s: Snapshot, i: nat): Option<ViolationKind>
    requires i < |s.actions|
  {
    var a := s.actions[i];
    if exists j | 0 <= j < i :: s.actions[j].actionId == a.actionId then Some(MalformedEnvelope)
    else if ActionIdentityDefect(a) then Some(MalformedEnvelope)
    else if a.state.Terminal() then Some(MalformedEnvelope)
    else if !OwnerHeld(IntroducedTurns(s), IntroducedActivities(s), a.owner) then Some(UnknownEntity)
    else None
  }

  /** The first refused activity from a position on. */
  function ActivitiesDefect(n: Negotiated, s: Snapshot, from: nat): Option<ViolationKind>
    requires from <= |s.activities|
    decreases |s.activities| - from
  {
    if from == |s.activities| then None
    else if ListedActivityDefect(n, s, from).Some? then ListedActivityDefect(n, s, from)
    else ActivitiesDefect(n, s, from + 1)
  }

  function ActionsDefect(s: Snapshot, from: nat): Option<ViolationKind>
    requires from <= |s.actions|
    decreases |s.actions| - from
  {
    if from == |s.actions| then None
    else if ListedActionDefect(s, from).Some? then ListedActionDefect(s, from)
    else ActionsDefect(s, from + 1)
  }

  predicate BlocksForeground(a: ActionUpdate) {
    a.blocksForeground == Some(true)
  }

  /** checkSnapshot: the whole assertion is judged before any of it is projected. */
  function SnapshotDefect(n: Negotiated, s: Snapshot): Option<ViolationKind> {
    if ForegroundDefect(s.foreground) then Some(MalformedEnvelope)
    else if ActivitiesDefect(n, s, 0).Some? then ActivitiesDefect(n, s, 0)
    else if ActionsDefect(s, 0).Some? then ActionsDefect(s, 0)
    else if s.foreground.state.RequiresAction? && !exists i | 0 <= i < |s.actions| :: BlocksForeground(s.actions[i])
    then Some(InconsistentForeground)
    else None
  }

  function ResumedTurn(f: Foreground): TurnRecord {
    TurnRecord(f.turnId, f.origin, false, NoOutcome, "", "", "", f.cycleId, "")
  }

  function RecordedAction(a: ActionUpdate): ActionRecord
    requires a.blocksForeground.Some?
  {
    ActionRecord(a.actionId, a.kind, a.state, a.owner, a.runId, a.blocksForeground.value)
  }

  /** recordAction with blockForeground: a live blocker blocks the cycle current at its first sight. */
  function RecordAction(c: Core, a: ActionUpdate): Core
    requires a.blocksForeground.Some?
  {
    var c1 := c.(state := c.state.(actions := c.state.actions + [RecordedAction(a)]));
    if a.state.Terminal() || !a.blocksForeground.value || c.state.foreground.None? then c1
    else
      var f := c.state.foreground.value;
      c1.(actionCycle := c.actionCycle[a.actionId := f.cycleId],
          blockedCycle := if f.state.RequiresAction? then c.blockedCycle else f.cycleId)
  }

  function RecordActions(c: Core, actions: seq<ActionUpdate>): Core
    requires forall i | 0 <= i < |actions| :: actions[i].blocksForeground.Some?
  {
    if actions == [] then c
    else RecordAction(RecordActions(c, actions[..|actions| - 1]), actions[|actions| - 1])
  }

  lemma {:induction false} NoActionDefect(s: Snapshot, from: nat, i: nat)
    requires from <= i < |s.actions| && ActionsDefect(s, from).None?
    ensures ListedActionDefect(s, i).None?
    decreases i - from
  {
    if from < i { NoActionDefect(s, from + 1, i); }
  }

  lemma {:induction false} NoActivityDefect(n: Negotiated, s: Snapshot, from: nat, i: nat)
    requires from <= i < |s.activities| && ActivitiesDefect(n, s, from).None?
    ensures ListedActivityDefect(n, s, i).None?
    decreases i - from
  {
    if from < i { NoActivityDefect(n, s, from + 1, i); }
  }

  lemma StatedBlocking(s: Snapshot)
    requires ActionsDefect(s, 0).None?
    ensures forall i | 0 <= i < |s.actions| :: s.actions[i].blocksForeground.Some?
  {
    forall i | 0 <= i < |s.actions| ensures s.actions[i].blocksForeground.Some? { NoActionDefect(s, 0, i); }
  }

  /** projectSnapshot, short of its actions: the foreground, the turn it resumes and the activities. */
  function ProjectTree(c: Core, s: Snapshot): Core {
    var f := s.foreground;
    c.(state := c.state.(foreground := Some(f),
                         turns := c.state.turns + (if f.turnId != "" then [ResumedTurn(f)] else []),
                         activities := c.state.activities + s.activities),
       turnSeen := c.turnSeen + IntroducedTurns(s),
       activitySeen := c.activitySeen + IntroducedActivities(s))
  }

  function ApplySnapshot(c: Core, d: Delivery): Core
    requires d.event.Opens()
  {
    if d.event.Unusable? then Fail(c, d, MalformedEnvelope)
    else
      var s := d.event.snapshot;
      match SnapshotDefect(c.negotiated, s)
      case Some(kind) => Fail(c, d, kind)
      case None =>
        StatedBlocking(s);
        RecordActions(ProjectTree(c, s), s.actions)
  }

  // ---- acceptances and transitions ----

  function ApplyPromptAccepted(c: Core, d: Delivery, a: PromptAccepted): Core {
    var index := IndexOf(TurnIds(c.state.turns), a.turnId);
    if index >= 0 && c.state.turns[index].terminal then Fail(c, d, PostTerminalMutation)
    else if a.turnId in c.turnSeen then Fail(c, d, ImmutableIdentityChange)
    else
      var turn := TurnRecord(a.turnId, Submission, false, NoOutcome, a.submissionId, a.clientNonce, a.runId, "", "");
      c.(state := c.state.(turns := c.state.turns + [turn]), turnSeen := c.turnSeen + {a.turnId})
  }

  function CycleOf(actionCycle: map<string, string>, actionId: string): string {
    if actionId in actionCycle then actionCycle[actionId] else ""
  }

  predicate Blocks(c: Core, i: nat, cycleId: string)
    requires i < |c.state.actions|
  {
    var a := c.state.actions[i];
    a.blocksForeground && !a.state.Terminal() && CycleOf(c.actionCycle, a.actionId) == cycleId
  }

  /** blocked: some action that stopped this cycle is still nonterminal. */
  predicate Blocked(c: Core, cycleId: string) {
    exists i | 0 <= i < |c.state.actions| :: Blocks(c, i, cycleId)
  }

  /** checkBlockedCycle: it may discharge the owed transition even when the event is refused afterwards. */
  function CheckBlockedCycle(c: Core, d: Delivery, t: Transition): Core {
    if t.state.RequiresAction? then
      if !Blocked(c, t.cycleId) then Fail(c, d, InconsistentForeground)
      else if c.blockedCycle == t.cycleId then c.(blockedCycle := "")
      else c
    else if Blocked(c, t.cycleId) || c.blockedCycle == t.cycleId then Fail(c, d, InconsistentForeground)
    else c
  }

  function OpenedTurn(turnId: string): TurnRecord {
    TurnRecord(turnId, Activity, false, NoOutcome, "", "", "", "", "")
  }

  function ApplyLive(c: Core, d: Delivery, t: Transition): Core {
    var index := IndexOf(TurnIds(c.state.turns), t.turnId);
    var foreground := Some(Foreground(t.state, t.cycleId, t.turnId, NoCause));
    if index >= 0 && c.state.turns[index].terminal then Fail(c, d, PostTerminalMutation)
    else if index < 0 && !(t.cause.Activity? && t.state.Running?) then Fail(c, d, UnknownEntity)
    else if index < 0 then
      c.(state := c.state.(turns := c.state.turns + [OpenedTurn(t.turnId).(cycleId := t.cycleId)],
                           foreground := foreground),
         turnSeen := c.turnSeen + {t.turnId})
    else
      var turn := c.state.turns[index].(cycleId := t.cycleId);
      c.(state := c.state.(turns := c.state.turns[index := turn], foreground := foreground))
  }

  function ApplyIdle(c: Core, d: Delivery, t: Transition): Core {
    var index := IndexOf(TurnIds(c.state.turns), t.turnId);
    var foreground := Some(Foreground(Idle, t.cycleId, "", NoCause));
    if t.turnId == "" then c.(state := c.state.(foreground := foreground))
    else if index >= 0 && c.state.turns[index].terminal then Fail(c, d, PostTerminalMutation)
    else if index < 0 then Fail(c, d, UnknownEntity)
    else
      var turn := c.state.turns[index].(terminal := true, stopReason := t.stopReason, outcome := t.outcome,
                                        cycleId := t.cycleId);
      c.(state := c.state.(turns := c.state.turns[index := turn], foreground := foreground))
  }

  function ApplyTransition(c: Core, d: Delivery, t: Transition): Core
    requires c.failed.None?
  {
    if NamelessTurnDefect(t) || EndingIdleDefect(t) then Fail(c, d, MalformedEnvelope)
    else
      var c1 := CheckBlockedCycle(c, d, t);
      if c1.failed.Some? then c1
      else if t.state.Idle? then ApplyIdle(c1, d, t)
      else ApplyLive(c1, d, t)
  }

  // ---- activities ----

  /** A stated member that differs from the record's; an unstated one restates nothing. */
  predicate ImmutableActivityConflict(e: ActivityRecord, u: ActivityRecord) {
    || (!u.kind.NoActivityKind? && u.kind != e.kind)
    || (u.parentId != "" && u.parentId != e.parentId)
    || (u.toolCallId != "" && u.toolCallId != e.toolCallId)
    || (!u.cause.NoCause? && u.cause != e.cause)
    || (u.originTurnId != "" && u.originTurnId != e.originTurnId)
    || (u.runId != "" && u.runId != e.runId)
  }

  predicate TerminalActivityDifference(e: ActivityRecord, u: ActivityRecord) {
    || ImmutableActivityConflict(e, u)
    || u.state != e.state
    || (u.progress.Some? && !RawEqual(u.progress, e.progress))
  }

  predicate LiveChild(c: Core, activityId: string) {
    exists i | 0 <= i < |c.state.activities| ::
      c.state.activities[i].parentId == activityId && !c.state.activities[i].state.Terminal()
  }

  predicate LiveOwnedAction(c: Core, activityId: string) {
    exists i | 0 <= i < |c.state.actions| ::
      c.state.actions[i].owner == Owner(OwnerActivity, activityId) && !c.state.actions[i].state.Terminal()
  }

  function PatchActivity(c: Core, d: Delivery, index: nat, u: ActivityRecord): Core
    requires index < |c.state.activities|
  {
    var e := c.state.activities[index];
    if e.state.Terminal() then
      if TerminalActivityDifference(e, u) then Fail(c, d, PostTerminalMutation) else c
    else if ImmutableActivityConflict(e, u) then Fail(c, d, ImmutableIdentityChange)
    else if u.state.Terminal() && (LiveChild(c, e.activityId) || LiveOwnedAction(c, e.activityId))
    then Fail(c, d, ParentTerminalBeforeChild)
    else
      var patched := e.(state := u.state, progress := if u.progress.Some? then u.progress else e.progress);
      c.(state := c.state.(activities := c.state.activities[index := patched]))
  }

  /** The verdict on an activity's first sight inside a running stream. */
  function FirstActivityDefect(c: Core, u: ActivityRecord): Option<ViolationKind> {
    var parent := IndexOf(ActivityIds(c.state.activities), u.parentId);
    if ActivityIdentityDefect(c.negotiated, u).Some? then ActivityIdentityDefect(c.negotiated, u)
    else if u.originTurnId !in c.turnSeen then Some(UnknownEntity)
    else if u.parentId != "" && u.parentId !in c.activitySeen then Some(UnknownEntity)
    else if u.parentId != "" && parent >= 0 && u.activityId != u.parentId
            && c.state.activities[parent].state.Terminal() then Some(ChildAfterParentTerminal)
    else None
  }

  function RecordActivity(c: Core, u: ActivityRecord): Core {
    c.(state := c.state.(activities := c.state.activities + [u]), activitySeen := c.activitySeen + {u.activityId})
  }

  function ApplyActivity(c: Core, d: Delivery, u: ActivityRecord): Core {
    var index := IndexOf(ActivityIds(c.state.activities), u.activityId);
    if index >= 0 then PatchActivity(c, d, index, u)
    else
      match FirstActivityDefect(c, u)
      case Some(kind) => Fail(c, d, kind)
      case None => RecordActivity(c, u)
  }

  // ---- actions ----

  predicate ImmutableActionConflict(e: ActionRecord, u: ActionUpdate) {
    || (!u.kind.NoActionKind? && u.kind != e.kind)
    || (u.owner.id != "" && u.owner != e.owner)
    || (u.runId != "" && u.runId != e.runId)
    || (u.blocksForeground.Some? && u.blocksForeground.value != e.blocksForeground)
  }

  function PatchAction(c: Core, d: Delivery, index: nat, u: ActionUpdate): Core
    requires index < |c.state.actions|
  {
    var e := c.state.actions[index];
    if e.state.Terminal() then
      if ImmutableActionConflict(e, u) || u.state != e.state then Fail(c, d, PostTerminalMutation) else c
    else if ImmutableActionConflict(e, u) then Fail(c, d, ImmutableIdentityChange)
    else c.(state := c.state.(actions := c.state.actions[index := e.(state := u.state)]))
  }

  function ApplyAction(c: Core, d: Delivery, u: ActionUpdate): Core {
    var index := IndexOf(ActionIds(c.state.actions), u.actionId);
    if index >= 0 then PatchAction(c, d, index, u)
    else if ActionIdentityDefect(u) then Fail(c, d, MalformedEnvelope)
    else if !OwnerHeld(c.turnSeen, c.activitySeen, u.owner) then Fail(c, d, UnknownEntity)
    else RecordAction(c, u)
  }

  // ---- ordering ----

  function Apply(c: Core, d: Delivery): Core
    requires c.failed.None?
  {
    match d.event
    case AcceptedEvent(a) => ApplyPromptAccepted(c, d, a)
    case StateEvent(t) => ApplyTransition(c, d, t)
    case ActivityEvent(u) => ApplyActivity(c, d, u)
    case ActionEvent(u) => ApplyAction(c, d, u)
    case _ => Fail(c, d, MalformedEnvelope)
  }

  function Commit(c: Core, d: Delivery): Core {
    c.(state := c.state.(reducedThrough := d.sequence),
       frames := if c.frames.Some? then Some(c.frames.value[d.sequence := Canonical(d.frame)]) else None)
  }

  function ReduceFirst(c: Core, d: Delivery): Core
    requires c.failed.None?
  {
    var named := c.(state := c.state.(streamId := d.streamId));
    if !d.event.Opens() then Fail(named, d, DeltaBeforeSnapshot)
    else
      var first := ApplySnapshot(named.(started := true, base := d.sequence), d);
      if first.failed.Some? then first.(started := false) else Commit(first, d)
  }

  function ReduceForeign(c: Core, d: Delivery): Core
    requires c.failed.None?
  {
    if !d.event.Opens() || d.streamId in c.retired then Fail(c, d, StaleStream)
    else
      var next := ReduceFirst(Reset(c.negotiated, c.retired, d.streamId), d);
      if next.failed.Some? then c.(failed := next.failed)
      else next.(state := next.state.(closed := c.state.closed), retired := c.retired + {c.state.streamId})
  }

  /** The delivery repeats a reduced identity with value-equal content. */
  predicate Retransmits(c: Core, d: Delivery) {
    c.frames.Some? && d.sequence in c.frames.value && c.frames.value[d.sequence] == Canonical(d.frame)
  }

  function ReduceDuplicate(c: Core, d: Delivery): Core {
    if Retransmits(c, d) then c.(state := c.state.(suppressed := c.state.suppressed + 1))
    else Fail(c, d, ConflictingDuplicate)
  }

  /** Reduce. */
  function Reduce(c: Core, d: Delivery): Core {
    if c.failed.Some? then c
    else if !d.carrier.CarrierSessionInfo? then Fail(c, d, IllegalCarrier)
    else if c.state.closed then Fail(c, d, StaleStream)
    else if !c.started then ReduceFirst(c, d)
    else if d.streamId != c.state.streamId then ReduceForeign(c, d)
    else if d.sequence < c.base then Fail(c, d, SequenceRegression)
    else if d.sequence <= c.state.reducedThrough then ReduceDuplicate(c, d)
    else if d.sequence > c.state.reducedThrough + 1 then Fail(c, d, SequenceGap)
    else if d.event.Opens() then Fail(c, d, StreamCycle)
    else
      var applied := Apply(c, d);
      if applied.failed.Some? then applied else Commit(applied, d)
  }
}
