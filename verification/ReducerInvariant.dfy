/**
 What every accepted delivery keeps (lifecycle/reducer_apply.go): unique identities, resolved references,
 a foreground that names its turn, tracked blockers, the owed requires_action transition, and an activity
 tree closed under termination.
 */
module ReducerInvariant {
  import opened Events
  import opened ReducerModel

  ghost predicate IdsUnique(s: State) {
    Distinct(TurnIds(s.turns)) && Distinct(ActivityIds(s.activities)) && Distinct(ActionIds(s.actions))
  }

  /** Every recorded turn was introduced; an activity is introduced exactly when it is recorded. */
  ghost predicate Introduced(s: State, turnSeen: set<string>, activitySeen: set<string>) {
    && (forall id | id in TurnIds(s.turns) :: id in turnSeen)
    && (forall id :: id in activitySeen <==> id in ActivityIds(s.activities))
  }

  ghost predicate ReferencesResolve(s: State, turnSeen: set<string>, activitySeen: set<string>) {
    && (forall i | 0 <= i < |s.activities| ::
          && s.activities[i].originTurnId in turnSeen
          && (s.activities[i].parentId != "" ==> s.activities[i].parentId in activitySeen))
    && (forall i | 0 <= i < |s.actions| :: OwnerHeld(turnSeen, activitySeen, s.actions[i].owner))
  }

  /** A live foreground names a recorded open turn on its own cycle; an idle one names none. */
  ghost predicate ForegroundNamed(s: State) {
    s.foreground.Some? &&
    var f := s.foreground.value;
    if f.state.Idle? then f.turnId == ""
    else exists k | 0 <= k < |s.turns| ::
      s.turns[k].turnId == f.turnId && !s.turns[k].terminal && s.turns[k].cycleId == f.cycleId
  }

  ghost predicate LiveBlocker(a: ActionRecord) {
    a.blocksForeground && !a.state.Terminal()
  }

  ghost predicate BlockersTracked(s: State, actionCycle: map<string, string>) {
    && (forall i | 0 <= i < |s.actions| && LiveBlocker(s.actions[i]) :: s.actions[i].actionId in actionCycle)
    && (forall id | id in actionCycle :: id in ActionIds(s.actions))
  }

  /** A foreground outside requires_action whose own cycle has a pending blocker owes that transition. */
  ghost predicate TransitionOwed(c: Core) {
    c.state.foreground.Some? ==>
      var f := c.state.foreground.value;
      !f.state.RequiresAction? && Blocked(c, f.cycleId) ==> c.blockedCycle == f.cycleId
  }

  /** A terminal activity has only terminal children. */
  ghost predicate TreeClosed(activities: seq<ActivityRecord>) {
    forall i, j | 0 <= i < |activities| && 0 <= j < |activities|
                  && activities[j].parentId != "" && activities[j].parentId == activities[i].activityId
                  && activities[i].state.Terminal() ::
      activities[j].state.Terminal()
  }

  ghost predicate Inv(c: Core) {
    && IdsUnique(c.state)
    && Introduced(c.state, c.turnSeen, c.activitySeen)
    && ReferencesResolve(c.state, c.turnSeen, c.activitySeen)
    && ForegroundNamed(c.state)
    && BlockersTracked(c.state, c.actionCycle)
    && TransitionOwed(c)
    && TreeClosed(c.state.activities)
  }

  /** While frames are kept they are exactly the reduced range. */
  ghost predicate FramesContiguous(c: Core) {
    c.base <= c.state.reducedThrough
    && (c.frames.Some? ==> forall n :: n in c.frames.value <==> c.base <= n <= c.state.reducedThrough)
  }

  /** The invariant of a started, unfailed reducer. */
  ghost predicate Coherent(c: Core) {
    c.started && c.failed.None? && Inv(c) && FramesContiguous(c) && c.state.streamId !in c.retired
  }

  // ---- sequence facts ----

  lemma DistinctAppend(ids: seq<string>, id: string)
    requires Distinct(ids) && id !in ids
    ensures Distinct(ids + [id])
  {
  }

  lemma TurnIdsAppend(turns: seq<TurnRecord>, t: TurnRecord)
    ensures TurnIds(turns + [t]) == TurnIds(turns) + [t.turnId]
  {
  }

  lemma ActivityIdsAppend(activities: seq<ActivityRecord>, a: ActivityRecord)
    ensures ActivityIds(activities + [a]) == ActivityIds(activities) + [a.activityId]
  {
  }

  lemma ActionIdsAppend(actions: seq<ActionRecord>, a: ActionRecord)
    ensures ActionIds(actions + [a]) == ActionIds(actions) + [a.actionId]
  {
  }

  // ---- first sights of actions ----

  lemma RecordActionBlocked(c: Core, a: ActionUpdate, cycleId: string)
    requires a.blocksForeground.Some? && c.state.foreground.Some?
    requires BlockersTracked(c.state, c.actionCycle) && a.actionId !in ActionIds(c.state.actions)
    ensures Blocked(RecordAction(c, a), cycleId) ==>
              Blocked(c, cycleId)
              || (LiveBlocker(RecordedAction(a)) && c.state.foreground.value.cycleId == cycleId)
  {
    var c1 := RecordAction(c, a);
    if Blocked(c1, cycleId) {
      var i :| 0 <= i < |c1.state.actions| && Blocks(c1, i, cycleId);
      if i < |c.state.actions| {
        assert ActionIds(c.state.actions)[i] == c.state.actions[i].actionId;
        assert Blocks(c, i, cycleId);
      }
    }
  }

  /** Recording a fresh action whose owner resolves keeps the invariant. */
  lemma RecordActionKeepsInv(c: Core, a: ActionUpdate)
    requires Inv(c) && a.blocksForeground.Some?
    requires a.actionId !in ActionIds(c.state.actions)
    requires OwnerHeld(c.turnSeen, c.activitySeen, a.owner)
    ensures Inv(RecordAction(c, a))
  {
    var c1 := RecordAction(c, a);
    ActionIdsAppend(c.state.actions, RecordedAction(a));
    DistinctAppend(ActionIds(c.state.actions), a.actionId);
    RecordActionBlocked(c, a, c.state.foreground.value.cycleId);
    assert BlockersTracked(c1.state, c1.actionCycle) by {
      forall i | 0 <= i < |c1.state.actions| && LiveBlocker(c1.state.actions[i])
        ensures c1.state.actions[i].actionId in c1.actionCycle
      {
        if i < |c.state.actions| { assert c1.state.actions[i] == c.state.actions[i]; }
      }
    }
  }

  lemma RecordActionFrame(c: Core, a: ActionUpdate)
    requires a.blocksForeground.Some?
    ensures var c1 := RecordAction(c, a);
            && c1.state.(actions := c.state.actions) == c.state
            && c1.state.actions == c.state.actions + [RecordedAction(a)]
            && c1.turnSeen == c.turnSeen && c1.activitySeen == c.activitySeen
            && c1.failed == c.failed && c1.started == c.started && c1.base == c.base
            && c1.frames == c.frames && c1.retired == c.retired && c1.negotiated == c.negotiated
  {
  }

  lemma {:induction false} RecordActionsFrame(c: Core, actions: seq<ActionUpdate>)
    requires forall i | 0 <= i < |actions| :: actions[i].blocksForeground.Some?
    ensures var c1 := RecordActions(c, actions);
            && c1.state.(actions := c.state.actions) == c.state
            && c1.turnSeen == c.turnSeen && c1.activitySeen == c.activitySeen
            && c1.failed == c.failed && c1.started == c.started && c1.base == c.base
            && c1.frames == c.frames && c1.retired == c.retired && c1.negotiated == c.negotiated
            && |c1.state.actions| == |c.state.actions| + |actions|
            && c1.state.actions[..|c.state.actions|] == c.state.actions
            && forall i | 0 <= i < |actions| :: c1.state.actions[|c.state.actions| + i] == RecordedAction(actions[i])
  {
    if actions != [] {
      var rest, last := actions[..|actions| - 1], actions[|actions| - 1];
      RecordActionsFrame(c, rest);
      RecordActionFrame(RecordActions(c, rest), last);
    }
  }

  // ---- snapshots ----

  predicate Empty(c: Core) {
    && c.state.turns == [] && c.state.activities == [] && c.state.actions == []
    && c.turnSeen == {} && c.activitySeen == {} && c.actionCycle == map[]
  }

  lemma ProjectTreeShape(c: Core, s: Snapshot)
    requires Empty(c)
    ensures var c1 := ProjectTree(c, s);
            && c1.state.activities == s.activities && c1.state.actions == []
            && c1.state.turns == (if s.foreground.turnId != "" then [ResumedTurn(s.foreground)] else [])
            && c1.turnSeen == IntroducedTurns(s) && c1.activitySeen == IntroducedActivities(s)
  {
  }

  lemma SnapshotIdsUnique(n: Negotiated, s: Snapshot)
    requires ActivitiesDefect(n, s, 0).None?
    ensures Distinct(ActivityIds(s.activities))
  {
    forall i, j | 0 <= i < j < |s.activities|
      ensures s.activities[i].activityId != s.activities[j].activityId
    {
      NoActivityDefect(n, s, 0, j);
    }
  }

  lemma SnapshotTreeInv(c: Core, s: Snapshot)
    requires Empty(c) && ActivitiesDefect(c.negotiated, s, 0).None?
    ensures var c1 := ProjectTree(c, s);
            && Introduced(c1.state, c1.turnSeen, c1.activitySeen)
            && ReferencesResolve(c1.state, c1.turnSeen, c1.activitySeen)
            && TreeClosed(c1.state.activities)
  {
    ProjectTreeShape(c, s);
    forall i | 0 <= i < |s.activities|
      ensures s.activities[i].originTurnId in OriginTurns(s.activities) && !s.activities[i].state.Terminal()
      ensures s.activities[i].parentId != "" ==> s.activities[i].parentId in IntroducedActivities(s)
    {
      NoActivityDefect(c.negotiated, s, 0, i);
    }
  }

  /** An accepted snapshot projects onto an empty reducer a state that satisfies the invariant. */
  lemma ProjectTreeInv(c: Core, s: Snapshot)
    requires Empty(c) && SnapshotDefect(c.negotiated, s).None?
    ensures Inv(ProjectTree(c, s))
  {
    var c1 := ProjectTree(c, s);
    SnapshotTreeInv(c, s);
    SnapshotIdsUnique(c.negotiated, s);
    ProjectTreeShape(c, s);
    if !s.foreground.state.Idle? {
      assert c1.state.turns[0].turnId == s.foreground.turnId;
    }
  }

  lemma NextActionFresh(c: Core, s: Snapshot, n: nat)
    requires c.state.actions == []
    requires c.turnSeen == IntroducedTurns(s) && c.activitySeen == IntroducedActivities(s)
    requires n < |s.actions| && ActionsDefect(s, 0).None?
    requires forall i | 0 <= i < |s.actions| :: s.actions[i].blocksForeground.Some?
    ensures var c1 := RecordActions(c, s.actions[..n]);
            && s.actions[n].actionId !in ActionIds(c1.state.actions)
            && OwnerHeld(c1.turnSeen, c1.activitySeen, s.actions[n].owner)
  {
    var rest := s.actions[..n];
    var c1 := RecordActions(c, rest);
    RecordActionsFrame(c, rest);
    NoActionDefect(s, 0, n);
    forall i | 0 <= i < n ensures ActionIds(c1.state.actions)[i] != s.actions[n].actionId {
      assert c1.state.actions[0 + i] == RecordedAction(rest[i]);
    }
  }

  lemma {:induction false} RecordActionsKeepInv(c: Core, s: Snapshot, n: nat)
    requires Inv(c) && c.state.actions == []
    requires c.turnSeen == IntroducedTurns(s) && c.activitySeen == IntroducedActivities(s)
    requires n <= |s.actions| && ActionsDefect(s, 0).None?
    requires forall i | 0 <= i < |s.actions| :: s.actions[i].blocksForeground.Some?
    ensures Inv(RecordActions(c, s.actions[..n]))
  {
    if n > 0 {
      RecordActionsKeepInv(c, s, n - 1);
      NextActionFresh(c, s, n - 1);
      assert s.actions[..n][..n - 1] == s.actions[..n - 1];
      RecordActionKeepsInv(RecordActions(c, s.actions[..n - 1]), s.actions[n - 1]);
    }
  }

  lemma ApplySnapshotInv(c: Core, d: Delivery)
    requires d.event.Opens() && c.failed.None? && Empty(c)
    ensures var c1 := ApplySnapshot(c, d);
            c1.failed.None? ==>
              && Inv(c1) && c1.started == c.started && c1.base == c.base && c1.frames == c.frames
              && c1.retired == c.retired && c1.negotiated == c.negotiated
              && c1.state.streamId == c.state.streamId && c1.state.closed == c.state.closed
              && c1.state.suppressed == c.state.suppressed
  {
    if d.event.SnapshotEvent? && SnapshotDefect(c.negotiated, d.event.snapshot).None? {
      var s := d.event.snapshot;
      var tree := ProjectTree(c, s);
      ProjectTreeInv(c, s);
      ProjectTreeShape(c, s);
      StatedBlocking(s);
      RecordActionsKeepInv(tree, s, |s.actions|);
      assert s.actions[..|s.actions|] == s.actions;
      RecordActionsFrame(tree, s.actions);
    }
  }

  // ---- turns by identity ----

  ghost predicate TurnIsOpen(c: Core, turnId: string) {
    exists k | 0 <= k < |c.state.turns| :: c.state.turns[k].turnId == turnId && !c.state.turns[k].terminal
  }

  ghost predicate TurnIsClosed(c: Core, turnId: string) {
    exists k | 0 <= k < |c.state.turns| :: c.state.turns[k].turnId == turnId && c.state.turns[k].terminal
  }

  lemma OpenTurnIndex(c: Core, turnId: string)
    requires IdsUnique(c.state) && TurnIsOpen(c, turnId)
    ensures var i := IndexOf(TurnIds(c.state.turns), turnId); i >= 0 && !c.state.turns[i].terminal
  {
    var k :| 0 <= k < |c.state.turns| && c.state.turns[k].turnId == turnId && !c.state.turns[k].terminal;
    IndexOfDistinct(TurnIds(c.state.turns), k);
  }

  /** A search by identity finds the turn, and whether it has ended. */
  lemma TurnIndexMeans(c: Core, turnId: string)
    requires IdsUnique(c.state)
    ensures var i := IndexOf(TurnIds(c.state.turns), turnId);
            && (i < 0 <==> turnId !in TurnIds(c.state.turns))
            && (TurnIsOpen(c, turnId) <==> i >= 0 && !c.state.turns[i].terminal)
            && (TurnIsClosed(c, turnId) <==> i >= 0 && c.state.turns[i].terminal)
  {
    if TurnIsClosed(c, turnId) {
      var k :| 0 <= k < |c.state.turns| && c.state.turns[k].turnId == turnId && c.state.turns[k].terminal;
      IndexOfDistinct(TurnIds(c.state.turns), k);
    }
    if TurnIsOpen(c, turnId) { OpenTurnIndex(c, turnId); }
  }

  // ---- acceptances and transitions ----

  lemma ForegroundSurvivesAppend(s: State, t: TurnRecord)
    requires ForegroundNamed(s)
    ensures ForegroundNamed(s.(turns := s.turns + [t]))
  {
    var f := s.foreground.value;
    if !f.state.Idle? {
      var k :| 0 <= k < |s.turns| && s.turns[k].turnId == f.turnId && !s.turns[k].terminal
               && s.turns[k].cycleId == f.cycleId;
      assert (s.turns + [t])[k] == s.turns[k];
    }
  }

  /** Blocking depends on the actions alone. */
  lemma BlockedFrame(c: Core, c1: Core, cycleId: string)
    requires c1.state.actions == c.state.actions && c1.actionCycle == c.actionCycle
    ensures Blocked(c1, cycleId) == Blocked(c, cycleId)
  {
    assert forall i | 0 <= i < |c.state.actions| :: Blocks(c, i, cycleId) == Blocks(c1, i, cycleId);
  }

  lemma ApplyPromptAcceptedInv(c: Core, d: Delivery, a: PromptAccepted)
    requires Inv(c) && c.failed.None?
    ensures var c1 := ApplyPromptAccepted(c, d, a); c1.failed.None? ==> Inv(c1)
  {
    var c1 := ApplyPromptAccepted(c, d, a);
    if c1.failed.None? {
      var t := c1.state.turns[|c.state.turns|];
      TurnIdsAppend(c.state.turns, t);
      DistinctAppend(TurnIds(c.state.turns), a.turnId);
      ForegroundSurvivesAppend(c.state, t);
      BlockedFrame(c, c1, c.state.foreground.value.cycleId);
    }
  }

  lemma CheckBlockedCycleFrame(c: Core, d: Delivery, t: Transition)
    requires c.failed.None?
    ensures var c1 := CheckBlockedCycle(c, d, t);
            && c1 == c.(blockedCycle := c1.blockedCycle, failed := c1.failed)
            && (c1.failed.None? ==> (t.state.RequiresAction? <==> Blocked(c, t.cycleId)))
            && (c1.failed.None? && !t.state.RequiresAction? ==> c1 == c && c.blockedCycle != t.cycleId)
  {
  }

  /** Rewriting one turn without changing its identity. */
  lemma TurnIdsUpdate(turns: seq<TurnRecord>, k: nat, t: TurnRecord)
    requires k < |turns| && turns[k].turnId == t.turnId
    ensures TurnIds(turns[k := t]) == TurnIds(turns)
  {
  }

  lemma ApplyLiveInv(c: Core, d: Delivery, t: Transition)
    requires Inv(c) && c.failed.None? && !t.state.Idle?
    requires t.state.RequiresAction? || !Blocked(c, t.cycleId)
    ensures var c1 := ApplyLive(c, d, t); c1.failed.None? ==> Inv(c1)
  {
    var c1 := ApplyLive(c, d, t);
    if c1.failed.None? {
      var index := IndexOf(TurnIds(c.state.turns), t.turnId);
      var k := if index < 0 then |c.state.turns| else index;
      if index < 0 {
        TurnIdsAppend(c.state.turns, c1.state.turns[k]);
        DistinctAppend(TurnIds(c.state.turns), t.turnId);
      } else {
        TurnIdsUpdate(c.state.turns, index, c1.state.turns[k]);
      }
      assert c1.state.turns[k].turnId == t.turnId && !c1.state.turns[k].terminal;
      BlockedFrame(c, c1, t.cycleId);
    }
  }

  lemma ApplyIdleInv(c: Core, d: Delivery, t: Transition)
    requires Inv(c) && c.failed.None? && t.state.Idle? && !Blocked(c, t.cycleId)
    ensures var c1 := ApplyIdle(c, d, t); c1.failed.None? ==> Inv(c1)
  {
    var c1 := ApplyIdle(c, d, t);
    if c1.failed.None? {
      var index := IndexOf(TurnIds(c.state.turns), t.turnId);
      if t.turnId != "" {
        TurnIdsUpdate(c.state.turns, index, c1.state.turns[index]);
      }
      BlockedFrame(c, c1, t.cycleId);
    }
  }

  /** Discharging the owed transition breaks the invariant only until the foreground is set. */
  lemma RequireActionInv(c: Core, d: Delivery, t: Transition, owed: string)
    requires Inv(c) && c.failed.None? && t.state.RequiresAction?
    ensures var c1 := ApplyLive(c.(blockedCycle := owed), d, t); c1.failed.None? ==> Inv(c1)
  {
    var c1, c2 := ApplyLive(c, d, t), ApplyLive(c.(blockedCycle := owed), d, t);
    if c2.failed.None? {
      ApplyLiveInv(c, d, t);
      assert c2 == c1.(blockedCycle := owed);
      assert c2.state.foreground.value.state.RequiresAction?;
    }
  }

  lemma ApplyTransitionInv(c: Core, d: Delivery, t: Transition)
    requires Inv(c) && c.failed.None?
    ensures var c1 := ApplyTransition(c, d, t); c1.failed.None? ==> Inv(c1)
  {
    var checked := CheckBlockedCycle(c, d, t);
    CheckBlockedCycleFrame(c, d, t);
    if checked.failed.None? {
      if t.state.Idle? {
        ApplyIdleInv(c, d, t);
      } else if t.state.RequiresAction? {
        RequireActionInv(c, d, t, checked.blockedCycle);
      } else {
        ApplyLiveInv(c, d, t);
      }
    }
  }

  // ---- activities ----

  lemma RecordActivityInv(c: Core, u: ActivityRecord)
    requires Inv(c) && u.activityId !in ActivityIds(c.state.activities)
    requires FirstActivityDefect(c, u).None?
    ensures Inv(RecordActivity(c, u))
  {
    var c1 := RecordActivity(c, u);
    ActivityIdsAppend(c.state.activities, u);
    DistinctAppend(ActivityIds(c.state.activities), u.activityId);
    BlockedFrame(c, c1, c.state.foreground.value.cycleId);
    RecordActivityTree(c, u);
  }

  lemma RecordActivityTree(c: Core, u: ActivityRecord)
    requires Inv(c) && u.activityId !in ActivityIds(c.state.activities)
    requires FirstActivityDefect(c, u).None?
    ensures TreeClosed(c.state.activities + [u])
  {
    var a := c.state.activities;
    var b := a + [u];
    var ids := ActivityIds(a);
    forall i, j | 0 <= i < |b| && 0 <= j < |b| && b[j].parentId != "" && b[j].parentId == b[i].activityId
                  && b[i].state.Terminal()
      ensures b[j].state.Terminal()
    {
      if j < |a| {
        assert b[j].parentId in ids;
        assert i < |a|;
      } else {
        assert u.parentId in ids && i < |a|;
        IndexOfDistinct(ids, i);
      }
    }
  }

  lemma ActivityIdsUpdate(a: seq<ActivityRecord>, k: nat, u: ActivityRecord)
    requires k < |a| && a[k].activityId == u.activityId
    ensures ActivityIds(a[k := u]) == ActivityIds(a)
  {
  }

  lemma PatchActivityInv(c: Core, d: Delivery, index: nat, u: ActivityRecord)
    requires Inv(c) && c.failed.None? && index < |c.state.activities|
    ensures var c1 := PatchActivity(c, d, index, u); c1.failed.None? ==> Inv(c1)
  {
    var c1 := PatchActivity(c, d, index, u);
    if c1.failed.None? && !c.state.activities[index].state.Terminal() {
      var a, b := c.state.activities, c1.state.activities;
      ActivityIdsUpdate(a, index, b[index]);
      assert forall i | 0 <= i < |a| ::
          b[i].parentId == a[i].parentId && b[i].originTurnId == a[i].originTurnId
          && b[i].activityId == a[i].activityId;
      BlockedFrame(c, c1, c.state.foreground.value.cycleId);
      PatchKeepsTree(c, index, b[index]);
    }
  }

  lemma PatchKeepsTree(c: Core, index: nat, e: ActivityRecord)
    requires TreeClosed(c.state.activities) && Distinct(ActivityIds(c.state.activities))
    requires index < |c.state.activities| && !c.state.activities[index].state.Terminal()
    requires e.activityId == c.state.activities[index].activityId && e.parentId == c.state.activities[index].parentId
    requires e.state.Terminal() ==> !LiveChild(c, e.activityId)
    ensures TreeClosed(c.state.activities[index := e])
  {
    var a, b := c.state.activities, c.state.activities[index := e];
    forall i, j | 0 <= i < |b| && 0 <= j < |b| && b[j].parentId != "" && b[j].parentId == b[i].activityId
                  && b[i].state.Terminal()
      ensures b[j].state.Terminal()
    {
      assert a[j].parentId == a[i].activityId;
      if i == index {
        assert a[j].state.Terminal();
      }
    }
  }

  lemma ApplyActivityInv(c: Core, d: Delivery, u: ActivityRecord)
    requires Inv(c) && c.failed.None?
    ensures var c1 := ApplyActivity(c, d, u); c1.failed.None? ==> Inv(c1)
  {
    var index := IndexOf(ActivityIds(c.state.activities), u.activityId);
    if index >= 0 {
      PatchActivityInv(c, d, index, u);
    } else if FirstActivityDefect(c, u).None? {
      RecordActivityInv(c, u);
    }
  }

  // ---- actions ----

  lemma ActionIdsUpdate(a: seq<ActionRecord>, k: nat, u: ActionRecord)
    requires k < |a| && a[k].actionId == u.actionId
    ensures ActionIds(a[k := u]) == ActionIds(a)
  {
  }

  lemma PatchActionInv(c: Core, d: Delivery, index: nat, u: ActionUpdate)
    requires Inv(c) && c.failed.None? && index < |c.state.actions|
    ensures var c1 := PatchAction(c, d, index, u); c1.failed.None? ==> Inv(c1)
  {
    var c1 := PatchAction(c, d, index, u);
    if c1.failed.None? && !c.state.actions[index].state.Terminal() {
      var a, b := c.state.actions, c1.state.actions;
      ActionIdsUpdate(a, index, b[index]);
      assert forall i | 0 <= i < |a| :: b[i] == a[i].(state := b[i].state) && (LiveBlocker(b[i]) ==> LiveBlocker(a[i]));
      PatchBlocked(c, c1, c.state.foreground.value.cycleId);
    }
  }

  /** Patching can only release a cycle. */
  lemma PatchBlocked(c: Core, c1: Core, cycleId: string)
    requires |c1.state.actions| == |c.state.actions| && c1.actionCycle == c.actionCycle
    requires forall i | 0 <= i < |c.state.actions| ::
               c1.state.actions[i].actionId == c.state.actions[i].actionId
               && (LiveBlocker(c1.state.actions[i]) ==> LiveBlocker(c.state.actions[i]))
    ensures Blocked(c1, cycleId) ==> Blocked(c, cycleId)
  {
    if Blocked(c1, cycleId) {
      var i :| 0 <= i < |c1.state.actions| && Blocks(c1, i, cycleId);
      assert Blocks(c, i, cycleId);
    }
  }

  lemma ApplyActionInv(c: Core, d: Delivery, u: ActionUpdate)
    requires Inv(c) && c.failed.None?
    ensures var c1 := ApplyAction(c, d, u); c1.failed.None? ==> Inv(c1)
  {
    var index := IndexOf(ActionIds(c.state.actions), u.actionId);
    if index >= 0 {
      PatchActionInv(c, d, index, u);
    } else if !ActionIdentityDefect(u) && OwnerHeld(c.turnSeen, c.activitySeen, u.owner) {
      RecordActionKeepsInv(c, u);
    }
  }

  lemma ApplyInv(c: Core, d: Delivery)
    requires Inv(c) && c.failed.None?
    ensures var c1 := Apply(c, d); c1.failed.None? ==> Inv(c1)
  {
    match d.event
    case AcceptedEvent(a) => ApplyPromptAcceptedInv(c, d, a);
    case StateEvent(t) => ApplyTransitionInv(c, d, t);
    case ActivityEvent(u) => ApplyActivityInv(c, d, u);
    case ActionEvent(u) => ApplyActionInv(c, d, u);
    case _ =>
  }
}
