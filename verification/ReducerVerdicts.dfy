/**
 Which deliveries the reducer accepts, and the refusal each other one meets (lifecycle/reducer.go,
 lifecycle/reducer_apply.go), told by the records an identity names and the members an update states.
 */
module ReducerVerdicts {
  import opened Wrappers
  import opened Values
  import opened Events
  import opened ReducerModel
  import opened ReducerInvariant
  import opened ReducerRuns

  predicate Accepted(c: Core, d: Delivery) {
    Reduce(c, d).failed.None?
  }

  /** The refusal names the delivery it is about. */
  predicate Refused(c: Core, d: Delivery, kind: ViolationKind) {
    Reduce(c, d).failed == Some(Violation(kind, d.streamId, d.sequence))
  }

  // ---- acceptances ----

  /** A turn is accepted once: not when it was introduced before, and as a mutation when it has ended. */
  lemma AcceptanceVerdict(c: Core, d: Delivery)
    requires Coherent(c) && NextInStream(c, d) && d.event.AcceptedEvent?
    ensures var turnId := d.event.accepted.turnId;
            && (Accepted(c, d) <==> turnId !in c.turnSeen)
            && (Refused(c, d, PostTerminalMutation) <==> TurnIsClosed(c, turnId))
            && (Refused(c, d, ImmutableIdentityChange) <==> turnId in c.turnSeen && !TurnIsClosed(c, turnId))
  {
    NextIsCommitted(c, d);
    TurnIndexMeans(c, d.event.accepted.turnId);
  }

  // ---- transitions ----

  /** Only a session's idle names no turn, and an ending states its outcome, with a reason unless it failed. */
  predicate Stated(t: Transition) {
    && (t.turnId == "" ==> t.state.Idle? && t.cause.Session?)
    && (t.state.Idle? && t.turnId != "" ==> !t.outcome.NoOutcome? && (t.outcome.Failed? <==> t.stopReason == ""))
  }

  /** Some live blocker stopped the cycle. */
  ghost predicate Held(c: Core, cycleId: string) {
    exists i | 0 <= i < |c.state.actions| :: HeldBy(c, i, cycleId)
  }

  ghost predicate HeldBy(c: Core, i: nat, cycleId: string)
    requires i < |c.state.actions|
  {
    var a := c.state.actions[i];
    LiveBlocker(a) && a.actionId in c.actionCycle && c.actionCycle[a.actionId] == cycleId
  }

  lemma HeldIsBlocked(c: Core, cycleId: string)
    requires BlockersTracked(c.state, c.actionCycle)
    ensures Held(c, cycleId) <==> Blocked(c, cycleId)
  {
    forall i | 0 <= i < |c.state.actions| ensures HeldBy(c, i, cycleId) <==> Blocks(c, i, cycleId) {}
    if Held(c, cycleId) {
      var i :| 0 <= i < |c.state.actions| && HeldBy(c, i, cycleId);
      assert Blocks(c, i, cycleId);
    }
    if Blocked(c, cycleId) {
      var i :| 0 <= i < |c.state.actions| && Blocks(c, i, cycleId);
      assert HeldBy(c, i, cycleId);
    }
  }

  /** A blocked cycle requires action and nothing else may; one that owes that transition makes no other. */
  ghost predicate CycleAllows(c: Core, t: Transition) {
    if t.state.RequiresAction? then Held(c, t.cycleId) else !Held(c, t.cycleId) && c.blockedCycle != t.cycleId
  }

  /** An agent's turn opens by its running transition. */
  predicate OpensTurn(c: Core, t: Transition) {
    t.turnId !in TurnIds(c.state.turns) && t.cause.Activity? && t.state.Running?
  }

  /** Past the rules of blocking, the turn decides. */
  lemma TurnDecides(c: Core, d: Delivery, t: Transition)
    requires IdsUnique(c.state) && c.failed.None? && Stated(t)
    ensures var failed := (if t.state.Idle? then ApplyIdle(c, d, t) else ApplyLive(c, d, t)).failed;
            && (failed == Some(Violation(PostTerminalMutation, d.streamId, d.sequence)) <==>
                  t.turnId != "" && TurnIsClosed(c, t.turnId))
            && (failed == Some(Violation(UnknownEntity, d.streamId, d.sequence)) <==>
                  t.turnId != "" && t.turnId !in TurnIds(c.state.turns) && !OpensTurn(c, t))
            && (failed.None? <==> t.turnId == "" || TurnIsOpen(c, t.turnId) || OpensTurn(c, t))
  {
    TurnIndexMeans(c, t.turnId);
  }

  lemma BlockingDecides(c: Core, d: Delivery, t: Transition)
    requires BlockersTracked(c.state, c.actionCycle) && c.failed.None?
    ensures var checked := CheckBlockedCycle(c, d, t);
            && checked.state == c.state
            && checked.failed == if CycleAllows(c, t) then None
                                 else Some(Violation(InconsistentForeground, d.streamId, d.sequence))
  {
    HeldIsBlocked(c, t.cycleId);
  }

  lemma TransitionRefusal(c: Core, d: Delivery)
    requires NextInStream(c, d) && d.event.StateEvent?
    ensures Reduce(c, d).failed == ApplyTransition(c, d, d.event.transition).failed
  {
    NextIsCommitted(c, d);
  }

  lemma TransitionVerdict(c: Core, d: Delivery)
    requires Coherent(c) && NextInStream(c, d) && d.event.StateEvent?
    ensures var t := d.event.transition;
            && (Refused(c, d, MalformedEnvelope) <==> !Stated(t))
            && (Refused(c, d, InconsistentForeground) <==> Stated(t) && !CycleAllows(c, t))
            && (Refused(c, d, PostTerminalMutation) <==>
                  Stated(t) && CycleAllows(c, t) && t.turnId != "" && TurnIsClosed(c, t.turnId))
            && (Refused(c, d, UnknownEntity) <==>
                  && Stated(t) && CycleAllows(c, t) && t.turnId != ""
                  && t.turnId !in TurnIds(c.state.turns) && !OpensTurn(c, t))
            && (Accepted(c, d) <==>
                  && Stated(t) && CycleAllows(c, t)
                  && (t.turnId == "" || TurnIsOpen(c, t.turnId) || OpensTurn(c, t)))
  {
    var t := d.event.transition;
    TransitionRefusal(c, d);
    BlockingDecides(c, d, t);
    if Stated(t) && CycleAllows(c, t) {
      TurnDecides(CheckBlockedCycle(c, d, t), d, t);
    }
  }

  // ---- activities ----

  /** Every identity member the update states is the recorded one. */
  predicate Restates(e: ActivityRecord, u: ActivityRecord) {
    && (u.kind.NoActivityKind? || u.kind == e.kind) && (u.cause.NoCause? || u.cause == e.cause)
    && (u.parentId == "" || u.parentId == e.parentId) && (u.toolCallId == "" || u.toolCallId == e.toolCallId)
    && (u.originTurnId == "" || u.originTurnId == e.originTurnId) && (u.runId == "" || u.runId == e.runId)
  }

  /** So is its state, and its progress if it states any. */
  predicate SaysNothingNew(e: ActivityRecord, u: ActivityRecord) {
    && Restates(e, u) && u.state == e.state
    && (u.progress.Some? ==> ValueEqual(u.progress.value, if e.progress.Some? then e.progress.value else JNull))
  }

  /** Something below the activity has not ended: a child, or an action it owns. */
  ghost predicate HasLivePart(c: Core, activityId: string) {
    || (exists i | 0 <= i < |c.state.activities| ::
          c.state.activities[i].parentId == activityId && !c.state.activities[i].state.Terminal())
    || (exists i | 0 <= i < |c.state.actions| ::
          && c.state.actions[i].owner.kind.OwnerActivity? && c.state.actions[i].owner.id == activityId
          && c.state.actions[i].state.ActionPending?)
  }

  lemma LivePartMeans(c: Core, activityId: string)
    ensures HasLivePart(c, activityId) <==> LiveChild(c, activityId) || LiveOwnedAction(c, activityId)
  {
  }

  /** A later update of a recorded activity, which may only restate what has ended. */
  lemma ActivityUpdateVerdict(c: Core, d: Delivery, i: nat)
    requires Coherent(c) && NextInStream(c, d) && d.event.ActivityEvent?
    requires i < |c.state.activities| && c.state.activities[i].activityId == d.event.activity.activityId
    ensures var e, u := c.state.activities[i], d.event.activity;
            if e.state.Terminal() then
              && (Accepted(c, d) <==> SaysNothingNew(e, u))
              && (Refused(c, d, PostTerminalMutation) <==> !SaysNothingNew(e, u))
            else
              && (Refused(c, d, ImmutableIdentityChange) <==> !Restates(e, u))
              && (Refused(c, d, ParentTerminalBeforeChild) <==>
                    Restates(e, u) && u.state.Terminal() && HasLivePart(c, e.activityId))
              && (Accepted(c, d) <==> Restates(e, u) && !(u.state.Terminal() && HasLivePart(c, e.activityId)))
  {
    NextIsCommitted(c, d);
    IndexOfDistinct(ActivityIds(c.state.activities), i);
    LivePartMeans(c, c.state.activities[i].activityId);
  }

  predicate Complete(u: ActivityRecord) {
    !u.kind.NoActivityKind? && !u.cause.NoCause? && u.originTurnId != ""
  }

  /** The turn it came from, and its parent if it has one, were introduced. */
  predicate RefersToKnown(c: Core, u: ActivityRecord) {
    u.originTurnId in c.turnSeen && (u.parentId == "" || u.parentId in ActivityIds(c.state.activities))
  }

  ghost predicate ParentEnded(c: Core, u: ActivityRecord) {
    u.parentId != "" &&
    exists i | 0 <= i < |c.state.activities| ::
      c.state.activities[i].activityId == u.parentId && c.state.activities[i].state.Terminal()
  }

  lemma ActivityIndexMeans(c: Core, id: string)
    requires IdsUnique(c.state)
    ensures var i := IndexOf(ActivityIds(c.state.activities), id);
            (exists k | 0 <= k < |c.state.activities| ::
               c.state.activities[k].activityId == id && c.state.activities[k].state.Terminal())
            <==> i >= 0 && c.state.activities[i].state.Terminal()
  {
    if k :| 0 <= k < |c.state.activities|
            && c.state.activities[k].activityId == id && c.state.activities[k].state.Terminal()
    {
      IndexOfDistinct(ActivityIds(c.state.activities), k);
    }
  }

  /** An activity's first sight. */
  lemma ActivityFirstSightVerdict(c: Core, d: Delivery)
    requires Coherent(c) && NextInStream(c, d) && d.event.ActivityEvent?
    requires d.event.activity.activityId !in ActivityIds(c.state.activities)
    ensures var u := d.event.activity;
            var negotiated := u.kind in c.negotiated.activityKinds;
            && (Refused(c, d, ImmutableIdentityChange) <==> !Complete(u))
            && (Refused(c, d, UnnegotiatedFact) <==> Complete(u) && !negotiated)
            && (Refused(c, d, UnknownEntity) <==> Complete(u) && negotiated && !RefersToKnown(c, u))
            && (Refused(c, d, ChildAfterParentTerminal) <==>
                  Complete(u) && negotiated && RefersToKnown(c, u) && ParentEnded(c, u))
            && (Accepted(c, d) <==> Complete(u) && negotiated && RefersToKnown(c, u) && !ParentEnded(c, u))
  {
    NextIsCommitted(c, d);
    ActivityIndexMeans(c, d.event.activity.parentId);
  }

  // ---- actions ----

  predicate RestatesAction(e: ActionRecord, u: ActionUpdate) {
    && (u.kind.NoActionKind? || u.kind == e.kind) && (u.owner.id == "" || u.owner == e.owner)
    && (u.runId == "" || u.runId == e.runId)
    && (u.blocksForeground.None? || u.blocksForeground == Some(e.blocksForeground))
  }

  lemma ActionUpdateVerdict(c: Core, d: Delivery, i: nat)
    requires Coherent(c) && NextInStream(c, d) && d.event.ActionEvent?
    requires i < |c.state.actions| && c.state.actions[i].actionId == d.event.action.actionId
    ensures var e, u := c.state.actions[i], d.event.action;
            if e.state.ActionPending? then
              && (Accepted(c, d) <==> RestatesAction(e, u))
              && (Refused(c, d, ImmutableIdentityChange) <==> !RestatesAction(e, u))
            else
              && (Accepted(c, d) <==> RestatesAction(e, u) && u.state == e.state)
              && (Refused(c, d, PostTerminalMutation) <==> !(RestatesAction(e, u) && u.state == e.state))
  {
    NextIsCommitted(c, d);
    IndexOfDistinct(ActionIds(c.state.actions), i);
  }

  predicate CompleteAction(u: ActionUpdate) {
    !u.kind.NoActionKind? && u.owner.id != "" && u.blocksForeground.Some?
  }

  /** The activity or the turn it hangs off was introduced. */
  predicate OwnerIsKnown(c: Core, owner: Owner) {
    if owner.kind.OwnerActivity? then owner.id in ActivityIds(c.state.activities) else owner.id in c.turnSeen
  }

  lemma ActionFirstSightVerdict(c: Core, d: Delivery)
    requires Coherent(c) && NextInStream(c, d) && d.event.ActionEvent?
    requires d.event.action.actionId !in ActionIds(c.state.actions)
    ensures var u := d.event.action;
            && (Refused(c, d, MalformedEnvelope) <==> !CompleteAction(u))
            && (Refused(c, d, UnknownEntity) <==> CompleteAction(u) && !OwnerIsKnown(c, u.owner))
            && (Accepted(c, d) <==> CompleteAction(u) && OwnerIsKnown(c, u.owner))
  {
    NextIsCommitted(c, d);
  }

  // ---- snapshots ----

  /** A live foreground names its turn and that turn's origin, an idle one neither. */
  predicate ForegroundStated(f: Foreground) {
    && f.cycleId != ""
    && (if f.state.Idle? then f.turnId == "" && f.origin.NoCause?
        else && (f.state.Running? || f.state.RequiresAction?)
             && f.turnId != "" && (f.origin.Submission? || f.origin.Activity?))
  }

  predicate ListsActivity(s: Snapshot, id: string) {
    exists j | 0 <= j < |s.activities| :: s.activities[j].activityId == id
  }

  predicate ListsTurn(s: Snapshot, id: string) {
    (id != "" && s.foreground.turnId == id) || exists j | 0 <= j < |s.activities| :: s.activities[j].originTurnId == id
  }

  /** No listed activity before it has its identity. */
  predicate NewActivity(s: Snapshot, i: nat)
    requires i < |s.activities|
  {
    forall j | 0 <= j < i :: s.activities[j].activityId != s.activities[i].activityId
  }

  predicate NewAction(s: Snapshot, i: nat)
    requires i < |s.actions|
  {
    forall j | 0 <= j < i :: s.actions[j].actionId != s.actions[i].actionId
  }

  predicate ParentListed(s: Snapshot, a: ActivityRecord) {
    a.parentId == "" || ListsActivity(s, a.parentId)
  }

  predicate OwnerListed(s: Snapshot, owner: Owner) {
    if owner.kind.OwnerActivity? then ListsActivity(s, owner.id) else ListsTurn(s, owner.id)
  }

  /** A listed activity is new, complete, negotiated, live, and its parent is listed too. */
  predicate ActivityStands(n: Negotiated, s: Snapshot, i: nat)
    requires i < |s.activities|
  {
    var a := s.activities[i];
    NewActivity(s, i) && Complete(a) && a.kind in n.activityKinds && !a.state.Terminal() && ParentListed(s, a)
  }

  predicate ActionStands(s: Snapshot, i: nat)
    requires i < |s.actions|
  {
    NewAction(s, i) && CompleteAction(s.actions[i]) && s.actions[i].state.ActionPending?
    && OwnerListed(s, s.actions[i].owner)
  }

  /** Whatever requires action names what it waits for. */
  predicate Explained(s: Snapshot) {
    s.foreground.state.RequiresAction? ==> exists i | 0 <= i < |s.actions| :: BlocksForeground(s.actions[i])
  }

  predicate WellFormed(n: Negotiated, s: Snapshot) {
    && ForegroundStated(s.foreground) && Explained(s)
    && (forall i | 0 <= i < |s.activities| :: ActivityStands(n, s, i))
    && (forall i | 0 <= i < |s.actions| :: ActionStands(s, i))
  }

  lemma ListedTurns(s: Snapshot, id: string)
    requires id != ""
    ensures id in IntroducedTurns(s) <==> ListsTurn(s, id)
  {
  }

  lemma ListedActivities(s: Snapshot, id: string)
    ensures id in IntroducedActivities(s) <==> ListsActivity(s, id)
  {
  }

  /** The refusal of a listed activity. */
  lemma ListedActivityVerdict(n: Negotiated, s: Snapshot, i: nat)
    requires i < |s.activities|
    ensures var a, defect := s.activities[i], ListedActivityDefect(n, s, i);
            var fit := Complete(a) && a.kind in n.activityKinds;
            && (defect == Some(ImmutableIdentityChange) <==> NewActivity(s, i) && !Complete(a))
            && (defect == Some(UnnegotiatedFact) <==>
                  NewActivity(s, i) && Complete(a) && a.kind !in n.activityKinds)
            && (defect == Some(MalformedEnvelope) <==> !NewActivity(s, i) || (fit && a.state.Terminal()))
            && (defect == Some(UnknownEntity) <==>
                  NewActivity(s, i) && fit && !a.state.Terminal() && !ParentListed(s, a))
            && (defect.None? <==> ActivityStands(n, s, i))
  {
    ListedActivities(s, s.activities[i].parentId);
  }

  lemma ListedActionVerdict(s: Snapshot, i: nat)
    requires i < |s.actions|
    ensures var a, defect := s.actions[i], ListedActionDefect(s, i);
            var fit := NewAction(s, i) && CompleteAction(a) && a.state.ActionPending?;
            && (defect == Some(MalformedEnvelope) <==> !fit)
            && (defect == Some(UnknownEntity) <==> fit && !OwnerListed(s, a.owner))
            && (defect.None? <==> ActionStands(s, i))
  {
    ListedActivities(s, s.actions[i].owner.id);
    if s.actions[i].owner.id != "" { ListedTurns(s, s.actions[i].owner.id); }
  }

  /** A list is judged by its first faulty entry. */
  lemma {:induction false} FirstFaultyActivity(n: Negotiated, s: Snapshot, from: nat, i: nat)
    requires from <= i < |s.activities| && ListedActivityDefect(n, s, i).Some?
    requires forall j | from <= j < i :: ListedActivityDefect(n, s, j).None?
    ensures ActivitiesDefect(n, s, from) == ListedActivityDefect(n, s, i)
    decreases i - from
  {
    if from < i { FirstFaultyActivity(n, s, from + 1, i); }
  }

  lemma {:induction false} NoFaultyActivity(n: Negotiated, s: Snapshot, from: nat)
    requires from <= |s.activities|
    ensures ActivitiesDefect(n, s, from).None? <==>
            forall i | from <= i < |s.activities| :: ListedActivityDefect(n, s, i).None?
    decreases |s.activities| - from
  {
    if from < |s.activities| { NoFaultyActivity(n, s, from + 1); }
  }

  lemma {:induction false} FirstFaultyAction(s: Snapshot, from: nat, i: nat)
    requires from <= i < |s.actions| && ListedActionDefect(s, i).Some?
    requires forall j | from <= j < i :: ListedActionDefect(s, j).None?
    ensures ActionsDefect(s, from) == ListedActionDefect(s, i)
    decreases i - from
  {
    if from < i { FirstFaultyAction(s, from + 1, i); }
  }

  lemma {:induction false} NoFaultyAction(s: Snapshot, from: nat)
    requires from <= |s.actions|
    ensures ActionsDefect(s, from).None? <==> forall i | from <= i < |s.actions| :: ListedActionDefect(s, i).None?
    decreases |s.actions| - from
  {
    if from < |s.actions| { NoFaultyAction(s, from + 1); }
  }

  lemma ForegroundVerdict(f: Foreground)
    ensures ForegroundDefect(f) <==> !ForegroundStated(f)
  {
  }

  /** A snapshot is judged whole: accepted exactly when all of it is well formed. */
  lemma SnapshotVerdict(n: Negotiated, s: Snapshot)
    ensures SnapshotDefect(n, s).None? <==> WellFormed(n, s)
  {
    ForegroundVerdict(s.foreground);
    NoFaultyActivity(n, s, 0);
    NoFaultyAction(s, 0);
    forall i | 0 <= i < |s.activities| ensures ListedActivityDefect(n, s, i).None? <==> ActivityStands(n, s, i) {
      ListedActivityVerdict(n, s, i);
    }
    forall i | 0 <= i < |s.actions| ensures ListedActionDefect(s, i).None? <==> ActionStands(s, i) {
      ListedActionVerdict(s, i);
    }
  }

  /** The delivery opens an incarnation: the first, or one in place of another that was never retired. */
  predicate Opening(c: Core, d: Delivery) {
    && c.failed.None? && d.carrier.CarrierSessionInfo? && !c.state.closed && d.event.SnapshotEvent?
    && (!c.started || (d.streamId != c.state.streamId && d.streamId !in c.retired))
  }

  /** And is accepted exactly when its snapshot is well formed, otherwise for what is wrong with it. */
  lemma OpeningVerdict(c: Core, d: Delivery)
    requires Sound(c) && Opening(c, d)
    ensures var defect := SnapshotDefect(c.negotiated, d.event.snapshot);
            && (Accepted(c, d) <==> WellFormed(c.negotiated, d.event.snapshot))
            && (defect.Some? ==> Refused(c, d, defect.value))
  {
    SnapshotVerdict(c.negotiated, d.event.snapshot);
    OpeningReduces(c, d);
  }

  lemma OpeningReduces(c: Core, d: Delivery)
    requires Opening(c, d)
    ensures var defect := SnapshotDefect(c.negotiated, d.event.snapshot);
            Reduce(c, d).failed == if defect.None? then None else Some(Violation(defect.value, d.streamId, d.sequence))
  {
    if c.started {
      FirstReduces(Reset(c.negotiated, c.retired, d.streamId), d);
    } else {
      FirstReduces(c, d);
    }
  }

  lemma FirstReduces(c: Core, d: Delivery)
    requires c.failed.None? && d.event.SnapshotEvent?
    ensures var defect := SnapshotDefect(c.negotiated, d.event.snapshot);
            ReduceFirst(c, d).failed
            == if defect.None? then None else Some(Violation(defect.value, d.streamId, d.sequence))
  {
    var named := c.(state := c.state.(streamId := d.streamId), started := true, base := d.sequence);
    var s := d.event.snapshot;
    if SnapshotDefect(c.negotiated, s).None? {
      StatedBlocking(s);
      RecordActionsFrame(ProjectTree(named, s), s.actions);
    }
  }

  /** The first faulty entity of a snapshot with a sound foreground decides its refusal. */
  lemma FaultyActivityDecides(c: Core, d: Delivery, i: nat)
    requires Sound(c) && Opening(c, d) && ForegroundStated(d.event.snapshot.foreground)
    requires i < |d.event.snapshot.activities| && !ActivityStands(c.negotiated, d.event.snapshot, i)
    requires forall j | 0 <= j < i :: ActivityStands(c.negotiated, d.event.snapshot, j)
    ensures var s, a := d.event.snapshot, d.event.snapshot.activities[i];
            var fit := Complete(a) && a.kind in c.negotiated.activityKinds;
            && (Refused(c, d, ImmutableIdentityChange) <==> NewActivity(s, i) && !Complete(a))
            && (Refused(c, d, UnnegotiatedFact) <==>
                  NewActivity(s, i) && Complete(a) && a.kind !in c.negotiated.activityKinds)
            && (Refused(c, d, MalformedEnvelope) <==> !NewActivity(s, i) || (fit && a.state.Terminal()))
            && (Refused(c, d, UnknownEntity) <==>
                  NewActivity(s, i) && fit && !a.state.Terminal() && !ParentListed(s, a))
  {
    var n, s := c.negotiated, d.event.snapshot;
    ForegroundVerdict(s.foreground);
    forall j | 0 <= j <= i ensures ListedActivityDefect(n, s, j).None? <==> ActivityStands(n, s, j) {
      ListedActivityVerdict(n, s, j);
    }
    ListedActivityVerdict(n, s, i);
    FirstFaultyActivity(n, s, 0, i);
    OpeningReduces(c, d);
  }

  lemma FaultyActionDecides(c: Core, d: Delivery, i: nat)
    requires Sound(c) && Opening(c, d) && ForegroundStated(d.event.snapshot.foreground)
    requires forall j | 0 <= j < |d.event.snapshot.activities| :: ActivityStands(c.negotiated, d.event.snapshot, j)
    requires i < |d.event.snapshot.actions| && !ActionStands(d.event.snapshot, i)
    requires forall j | 0 <= j < i :: ActionStands(d.event.snapshot, j)
    ensures var s, a := d.event.snapshot, d.event.snapshot.actions[i];
            var fit := NewAction(s, i) && CompleteAction(a) && a.state.ActionPending?;
            && (Refused(c, d, MalformedEnvelope) <==> !fit)
            && (Refused(c, d, UnknownEntity) <==> fit && !OwnerListed(s, a.owner))
  {
    var n, s := c.negotiated, d.event.snapshot;
    ForegroundVerdict(s.foreground);
    NoFaultyActivity(n, s, 0);
    forall j | 0 <= j < |s.activities| ensures ListedActivityDefect(n, s, j).None? { ListedActivityVerdict(n, s, j); }
    forall j | 0 <= j <= i ensures ListedActionDefect(s, j).None? <==> ActionStands(s, j) { ListedActionVerdict(s, j); }
    ListedActionVerdict(s, i);
    FirstFaultyAction(s, 0, i);
    OpeningReduces(c, d);
  }

  // ---- the order of deliveries ----

  /** What the reducer says of a delivery that is neither an opening nor the next one. */
  lemma OrderingVerdict(c: Core, d: Delivery)
    requires Coherent(c)
    ensures !d.carrier.CarrierSessionInfo? ==> Refused(c, d, IllegalCarrier)
    ensures d.carrier.CarrierSessionInfo? && c.state.closed ==> Refused(c, d, StaleStream)
    ensures d.carrier.CarrierSessionInfo? && !c.state.closed ==>
              var next := c.state.reducedThrough + 1;
              if d.streamId != c.state.streamId then
                !d.event.Opens() || d.streamId in c.retired ==> Refused(c, d, StaleStream)
              else
                && (Refused(c, d, SequenceRegression) <==> d.sequence < c.base)
                && (Refused(c, d, ConflictingDuplicate) <==> c.base <= d.sequence < next && !Retransmits(c, d))
                && (Refused(c, d, SequenceGap) <==> next < d.sequence)
                && (Refused(c, d, StreamCycle) <==> d.sequence == next && d.event.Opens())
  {
    if NextInStream(c, d) { NextRefusals(c, d); }
  }

  lemma NextRefusals(c: Core, d: Delivery)
    requires Coherent(c) && NextInStream(c, d)
    ensures !Refused(c, d, SequenceRegression) && !Refused(c, d, ConflictingDuplicate)
    ensures !Refused(c, d, SequenceGap) && !Refused(c, d, StreamCycle)
  {
    NextIsCommitted(c, d);
    match d.event
    case AcceptedEvent(_) =>
    case StateEvent(t) => TransitionKinds(c, d, t);
    case ActivityEvent(u) => ActivityRefusalKinds(c, d, u);
    case ActionEvent(u) => ActionRefusalKinds(c, d, u);
    case _ =>
  }

  /** The entity rules' own refusals. */
  predicate EntityKind(v: Option<Violation>) {
    v.None? || v.value.kind in {MalformedEnvelope, InconsistentForeground, PostTerminalMutation, UnknownEntity,
                                ImmutableIdentityChange, UnnegotiatedFact, ParentTerminalBeforeChild,
                                ChildAfterParentTerminal}
  }

  lemma TransitionKinds(c: Core, d: Delivery, t: Transition)
    requires c.failed.None?
    ensures EntityKind(ApplyTransition(c, d, t).failed)
  {
  }

  lemma ActivityRefusalKinds(c: Core, d: Delivery, u: ActivityRecord)
    requires c.failed.None?
    ensures EntityKind(ApplyActivity(c, d, u).failed)
  {
  }

  lemma ActionRefusalKinds(c: Core, d: Delivery, u: ActionUpdate)
    requires c.failed.None?
    ensures EntityKind(ApplyAction(c, d, u).failed)
  {
  }

  /** Before anything is open only a snapshot is taken. */
  lemma UnopenedVerdict(c: Core, d: Delivery)
    requires Sound(c) && !c.started && c.failed.None? && !c.state.closed && d.carrier.CarrierSessionInfo?
    ensures Refused(c, d, DeltaBeforeSnapshot) <==> !d.event.Opens()
  {
    if d.event.SnapshotEvent? { FirstReduces(c, d); SnapshotKinds(c.negotiated, d.event.snapshot); }
  }

  lemma SnapshotKinds(n: Negotiated, s: Snapshot)
    ensures SnapshotDefect(n, s) != Some(DeltaBeforeSnapshot)
  {
    if ActivitiesDefect(n, s, 0).Some? { ActivityKinds(n, s, 0); }
    if ActionsDefect(s, 0).Some? { ActionKinds(s, 0); }
  }

  lemma {:induction false} ActivityKinds(n: Negotiated, s: Snapshot, from: nat)
    requires from <= |s.activities|
    ensures ActivitiesDefect(n, s, from) != Some(DeltaBeforeSnapshot)
    decreases |s.activities| - from
  {
    if from < |s.activities| { ActivityKinds(n, s, from + 1); }
  }

  lemma {:induction false} ActionKinds(s: Snapshot, from: nat)
    requires from <= |s.actions|
    ensures ActionsDefect(s, from) != Some(DeltaBeforeSnapshot)
    decreases |s.actions| - from
  {
    if from < |s.actions| { ActionKinds(s, from + 1); }
  }

  /** An event that lacks its payload, or is of no known type, is malformed wherever it could have been applied. */
  lemma UnusableVerdict(c: Core, d: Delivery)
    requires Sound(c) && c.failed.None? && !c.state.closed && d.carrier.CarrierSessionInfo? && d.event.Unusable?
    requires if d.event.opens then !c.started || (d.streamId != c.state.streamId && d.streamId !in c.retired)
             else NextInStream(c, d)
    ensures Refused(c, d, MalformedEnvelope)
  {
  }

  // ---- settled streams ----

  /** In a settled stream whatever names a recorded activity or action can only restate it. */
  lemma SettledOnlyRestates(c: Core, d: Delivery)
    requires Coherent(c) && Settled(c.state) && NextInStream(c, d) && Accepted(c, d)
    requires (d.event.ActivityEvent? && d.event.activity.activityId in ActivityIds(c.state.activities))
             || (d.event.ActionEvent? && d.event.action.actionId in ActionIds(c.state.actions))
    ensures Reduce(c, d).state == c.state.(reducedThrough := d.sequence)
    ensures !(c.state.foreground.Some? && !c.state.foreground.value.state.Idle?)
  {
    NextIsCommitted(c, d);
  }
}
