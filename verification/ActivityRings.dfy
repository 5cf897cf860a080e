/**
 Rings of activities (lifecycle/reducer_apply.go). A snapshot may list activities as each other's ancestors;
 an activity first seen in a delta has an earlier parent. An activity ends only after its children, so a ring
 of live activities can never end, and an incarnation has exactly the rings its snapshot listed.
 */
module ActivityRings {
  import opened Wrappers
  import opened Events
  import opened ReducerModel
  import opened ReducerInvariant
  import opened ReducerRuns
  import opened ReducerLimits

  predicate HasChildIn(activities: seq<ActivityRecord>, ring: set<nat>, i: nat) {
    i < |activities| &&
    exists j | 0 <= j < |activities| :: activities[j].parentId == activities[i].activityId && j in ring
  }

  /** Every member is there and live. */
  predicate StillLive(activities: seq<ActivityRecord>, ring: set<nat>) {
    forall i | i in ring :: i < |activities| && !activities[i].state.Terminal()
  }

  /** Live activities each of which has a child among them, as a snapshot's cyclic parents make. */
  predicate LiveRing(activities: seq<ActivityRecord>, ring: set<nat>) {
    StillLive(activities, ring) &&
    forall i {:trigger HasChildIn(activities, ring, i)} | i in ring :: HasChildIn(activities, ring, i)
  }

  lemma MemberHasLiveChild(c: Core, ring: set<nat>, i: nat)
    requires LiveRing(c.state.activities, ring) && i in ring
    ensures LiveChild(c, c.state.activities[i].activityId)
  {
    assert HasChildIn(c.state.activities, ring, i);
    var j :| 0 <= j < |c.state.activities|
             && c.state.activities[j].parentId == c.state.activities[i].activityId && j in ring;
    assert !c.state.activities[j].state.Terminal();
  }

  /** A patch cannot end an activity that has a live child. */
  lemma PatchKeepsRing(c: Core, d: Delivery, index: nat, u: ActivityRecord, ring: set<nat>)
    requires LiveRing(c.state.activities, ring) && c.failed.None? && index < |c.state.activities|
    requires PatchActivity(c, d, index, u).failed.None?
    ensures StillLive(PatchActivity(c, d, index, u).state.activities, ring)
  {
    if index in ring { MemberHasLiveChild(c, ring, index); }
    PatchShape(c, d, index, u);
    SetKeepsRing(c.state.activities, PatchActivity(c, d, index, u).state.activities, index, ring);
  }

  lemma PatchShape(c: Core, d: Delivery, index: nat, u: ActivityRecord)
    requires c.failed.None? && index < |c.state.activities| && PatchActivity(c, d, index, u).failed.None?
    ensures var before, after := c.state.activities, PatchActivity(c, d, index, u).state.activities;
            && |after| == |before| && after == before[index := after[index]]
            && (after[index].state.Terminal() && !before[index].state.Terminal() ==>
                  !LiveChild(c, before[index].activityId))
  {
  }

  lemma SetKeepsRing(before: seq<ActivityRecord>, after: seq<ActivityRecord>, index: nat, ring: set<nat>)
    requires LiveRing(before, ring) && index < |before| == |after| && after == before[index := after[index]]
    requires index in ring ==> !after[index].state.Terminal()
    ensures StillLive(after, ring)
  {
  }

  lemma ActivityKeepsRing(c: Core, d: Delivery, u: ActivityRecord, ring: set<nat>)
    requires LiveRing(c.state.activities, ring) && c.failed.None? && ApplyActivity(c, d, u).failed.None?
    ensures StillLive(ApplyActivity(c, d, u).state.activities, ring)
  {
    var index := IndexOf(ActivityIds(c.state.activities), u.activityId);
    if index >= 0 {
      PatchKeepsRing(c, d, index, u, ring);
    } else {
      AppendKeepsRing(c.state.activities, u, ring);
    }
  }

  lemma AppendKeepsRing(activities: seq<ActivityRecord>, u: ActivityRecord, ring: set<nat>)
    requires LiveRing(activities, ring)
    ensures StillLive(activities, ring) && StillLive(activities + [u], ring)
  {
  }

  lemma TransitionTouchesNoActivity(c: Core, d: Delivery, t: Transition)
    requires c.failed.None?
    ensures ApplyTransition(c, d, t).state.activities == c.state.activities
  {
    CheckBlockedCycleFrame(c, d, t);
  }

  lemma ActionTouchesNoActivity(c: Core, d: Delivery, u: ActionUpdate)
    ensures ApplyAction(c, d, u).state.activities == c.state.activities
  {
  }

  lemma OnlyActivityEventsTouch(c: Core, d: Delivery)
    requires c.failed.None? && !d.event.ActivityEvent?
    ensures Apply(c, d).state.activities == c.state.activities
  {
    match d.event
    case StateEvent(t) => TransitionTouchesNoActivity(c, d, t);
    case ActionEvent(u) => ActionTouchesNoActivity(c, d, u);
    case AcceptedEvent(a) => assert ApplyPromptAccepted(c, d, a).state.activities == c.state.activities;
    case _ =>
  }

  lemma ApplyKeepsRing(c: Core, d: Delivery, ring: set<nat>)
    requires Inv(c) && c.failed.None? && LiveRing(c.state.activities, ring) && Apply(c, d).failed.None?
    ensures LiveRing(Apply(c, d).state.activities, ring)
  {
    if d.event.ActivityEvent? {
      ActivityKeepsRing(c, d, d.event.activity, ring);
      ActivityEventContinues(c, d, d.event.activity);
      RingContinues(c.state.activities, ApplyActivity(c, d, d.event.activity).state.activities, ring);
    } else {
      OnlyActivityEventsTouch(c, d);
    }
  }

  /** Identities being fixed, a ring whose members are still live is still a ring. */
  lemma RingContinues(before: seq<ActivityRecord>, after: seq<ActivityRecord>, ring: set<nat>)
    requires LiveRing(before, ring) && ActivitiesContinue(before, after) && StillLive(after, ring)
    ensures LiveRing(after, ring)
  {
    forall i | i in ring ensures HasChildIn(after, ring, i) {
      assert HasChildIn(before, ring, i);
      ChildStays(before, after, ring, i);
    }
  }

  lemma ChildStays(before: seq<ActivityRecord>, after: seq<ActivityRecord>, ring: set<nat>, i: nat)
    requires ActivitiesContinue(before, after) && HasChildIn(before, ring, i)
    ensures HasChildIn(after, ring, i)
  {
    var j :| 0 <= j < |before| && before[j].parentId == before[i].activityId && j in ring;
    assert ActivityContinues(before[i], after[i]) && ActivityContinues(before[j], after[j]);
  }

  lemma StepKeepsRing(c: Core, i: Input, c1: Core, ring: set<nat>)
    requires Coherent(c) && LiveRing(c.state.activities, ring)
    requires c1 == Step(c, i) && c1.failed.None? && c1.state.streamId == c.state.streamId
    ensures LiveRing(c1.state.activities, ring)
  {
    if i.Deliver? {
      ReduceKeepsRing(c, i.d, c1, ring);
    } else {
      UndeliveredKeepsState(c, i);
    }
  }

  lemma UndeliveredKeepsState(c: Core, i: Input)
    requires c.started && !i.Deliver? && Step(c, i).failed.None?
    ensures Step(c, i).state.activities == c.state.activities
  {
  }

  lemma ReduceKeepsRing(c: Core, d: Delivery, c1: Core, ring: set<nat>)
    requires Coherent(c) && LiveRing(c.state.activities, ring)
    requires c1 == Reduce(c, d) && c1.failed.None? && c1.state.streamId == c.state.streamId
    ensures LiveRing(c1.state.activities, ring)
  {
    if d.streamId != c.state.streamId {
      ReduceForeignCoherent(c, d);
    } else if NextInStream(c, d) {
      NextIsCommitted(c, d);
      ApplyKeepsRing(c, d, ring);
    } else {
      NotNextKeepsState(c, d);
    }
  }

  /** Activities in a ring stay live for as long as their incarnation lasts, whatever is delivered. */
  lemma RingsNeverEnd(c: Core, inputs: seq<Input>, m: nat, ring: set<nat>)
    requires Sound(c) && m <= |inputs| && Run(c, inputs[..m]).started && Run(c, inputs).failed.None?
    requires Run(c, inputs).state.streamId == Run(c, inputs[..m]).state.streamId
    requires LiveRing(Run(c, inputs[..m]).state.activities, ring)
    ensures LiveRing(Run(c, inputs).state.activities, ring)
  {
    RingAt(c, inputs, m, |inputs|, ring);
    assert inputs[..|inputs|] == inputs;
  }

  lemma {:induction false} RingAt(c: Core, inputs: seq<Input>, m: nat, k: nat, ring: set<nat>)
    requires Sound(c) && m <= k <= |inputs| && Run(c, inputs[..m]).started && Run(c, inputs).failed.None?
    requires Run(c, inputs).state.streamId == Run(c, inputs[..m]).state.streamId
    requires LiveRing(Run(c, inputs[..m]).state.activities, ring)
    ensures LiveRing(Run(c, inputs[..k]).state.activities, ring)
    decreases |inputs| - m
  {
    if m < k {
      Midway(c, inputs, m, m);
      Midway(c, inputs, m, m + 1);
      RingNext(c, inputs, m, ring);
      RingAt(c, inputs, m + 1, k, ring);
    }
  }

  lemma RingNext(c: Core, inputs: seq<Input>, k: nat, ring: set<nat>)
    requires k < |inputs| && Coherent(Run(c, inputs[..k])) && Coherent(Run(c, inputs[..k + 1]))
    requires Run(c, inputs[..k + 1]).state.streamId == Run(c, inputs[..k]).state.streamId
    requires LiveRing(Run(c, inputs[..k]).state.activities, ring)
    ensures LiveRing(Run(c, inputs[..k + 1]).state.activities, ring)
  {
    RunOne(c, inputs, k);
    StepKeepsRing(Run(c, inputs[..k]), inputs[k], Run(c, inputs[..k + 1]), ring);
  }

  // ---- no other rings ----

  /** Among activities past n, a child comes after its parent; among the first n, parents are among them. */
  predicate Layered(activities: seq<ActivityRecord>, n: nat) {
    n <= |activities| &&
    forall i, j | 0 <= i < |activities| && 0 <= j < |activities|
                  && activities[j].parentId == activities[i].activityId ::
      if j < n then i < n else i < j
  }

  /** A ring member past n would have a later child, that one a later one still, and so on. */
  lemma {:induction false} NoRingPast(activities: seq<ActivityRecord>, n: nat, ring: set<nat>, i: nat)
    requires Layered(activities, n) && LiveRing(activities, ring) && i in ring
    ensures i < n
    decreases |activities| - i
  {
    assert HasChildIn(activities, ring, i);
    var j :| 0 <= j < |activities| && activities[j].parentId == activities[i].activityId && j in ring;
    if n <= j { NoRingPast(activities, n, ring, j); }
  }

  /** Every delivered activity names itself, as the decoder makes sure. */
  predicate Identified(d: Delivery) {
    d.event.ActivityEvent? ==> d.event.activity.activityId != ""
  }

  predicate AllIdentified(inputs: seq<Input>) {
    forall k | 0 <= k < |inputs| && inputs[k].Deliver? :: Identified(inputs[k].d)
  }

  /** A new activity has no child yet, and is not its own parent. */
  lemma RecordLayered(c: Core, u: ActivityRecord, n: nat)
    requires Inv(c) && Layered(c.state.activities, n) && u.activityId != "" && u.activityId !in c.activitySeen
    requires u.parentId != "" ==> u.parentId in c.activitySeen
    ensures Layered(c.state.activities + [u], n)
  {
    var all, size := c.state.activities + [u], |c.state.activities|;
    forall i, j | 0 <= i <= size && 0 <= j <= size && all[j].parentId == all[i].activityId
      ensures if j < n then i < n else i < j
    {
      assert i < size ==> all[i] == c.state.activities[i];
      assert j < size ==> all[j] == c.state.activities[j];
    }
  }

  /** Identities being fixed, nothing about who is whose parent changes. */
  lemma ContinuesLayered(before: seq<ActivityRecord>, after: seq<ActivityRecord>, n: nat)
    requires Layered(before, n) && ActivitiesContinue(before, after) && |after| == |before|
    ensures Layered(after, n)
  {
    forall i, j | 0 <= i < |after| && 0 <= j < |after| && after[j].parentId == after[i].activityId
      ensures if j < n then i < n else i < j
    {
      assert ActivityContinues(before[i], after[i]) && ActivityContinues(before[j], after[j]);
    }
  }

  lemma ActivityLayered(c: Core, d: Delivery, u: ActivityRecord, n: nat)
    requires Inv(c) && c.failed.None? && Layered(c.state.activities, n) && u.activityId != ""
    requires ApplyActivity(c, d, u).failed.None?
    ensures Layered(ApplyActivity(c, d, u).state.activities, n)
  {
    var index := IndexOf(ActivityIds(c.state.activities), u.activityId);
    if index >= 0 {
      PatchLayered(c, d, index, u, n);
    } else {
      RecordLayered(c, u, n);
    }
  }

  lemma PatchLayered(c: Core, d: Delivery, index: nat, u: ActivityRecord, n: nat)
    requires c.failed.None? && index < |c.state.activities| && Layered(c.state.activities, n)
    requires PatchActivity(c, d, index, u).failed.None?
    ensures Layered(PatchActivity(c, d, index, u).state.activities, n)
  {
    PatchShape(c, d, index, u);
    PatchedActivityContinues(c, d, index, u);
    ContinuesLayered(c.state.activities, PatchActivity(c, d, index, u).state.activities, n);
  }

  lemma StepLayered(c: Core, i: Input, c1: Core, n: nat)
    requires Coherent(c) && Layered(c.state.activities, n) && (i.Deliver? ==> Identified(i.d))
    requires c1 == Step(c, i) && c1.failed.None? && c1.state.streamId == c.state.streamId
    ensures Layered(c1.state.activities, n)
  {
    if i.Deliver? {
      ReduceLayered(c, i.d, c1, n);
    } else {
      UndeliveredKeepsState(c, i);
    }
  }

  lemma ReduceLayered(c: Core, d: Delivery, c1: Core, n: nat)
    requires Coherent(c) && Layered(c.state.activities, n) && Identified(d)
    requires c1 == Reduce(c, d) && c1.failed.None? && c1.state.streamId == c.state.streamId
    ensures Layered(c1.state.activities, n)
  {
    if d.streamId != c.state.streamId {
      ReduceForeignCoherent(c, d);
    } else if NextInStream(c, d) {
      NextIsCommitted(c, d);
      ApplyLayered(c, d, n);
    } else {
      NotNextKeepsState(c, d);
    }
  }

  lemma ApplyLayered(c: Core, d: Delivery, n: nat)
    requires Inv(c) && c.failed.None? && Layered(c.state.activities, n) && Identified(d) && Apply(c, d).failed.None?
    ensures Layered(Apply(c, d).state.activities, n)
  {
    if d.event.ActivityEvent? {
      ActivityLayered(c, d, d.event.activity, n);
    } else {
      OnlyActivityEventsTouch(c, d);
    }
  }

  lemma {:induction false} LayeredAt(c: Core, inputs: seq<Input>, m: nat, k: nat, n: nat)
    requires Sound(c) && m <= k <= |inputs| && Run(c, inputs[..m]).started && Run(c, inputs).failed.None?
    requires Run(c, inputs).state.streamId == Run(c, inputs[..m]).state.streamId && AllIdentified(inputs)
    requires Layered(Run(c, inputs[..m]).state.activities, n)
    ensures Layered(Run(c, inputs[..k]).state.activities, n)
    decreases |inputs| - m
  {
    if m < k {
      Midway(c, inputs, m, m);
      Midway(c, inputs, m, m + 1);
      LayeredNext(c, inputs, m, n);
      LayeredAt(c, inputs, m + 1, k, n);
    }
  }

  lemma LayeredNext(c: Core, inputs: seq<Input>, k: nat, n: nat)
    requires k < |inputs| && Coherent(Run(c, inputs[..k])) && Coherent(Run(c, inputs[..k + 1])) && AllIdentified(inputs)
    requires Run(c, inputs[..k + 1]).state.streamId == Run(c, inputs[..k]).state.streamId
    requires Layered(Run(c, inputs[..k]).state.activities, n)
    ensures Layered(Run(c, inputs[..k + 1]).state.activities, n)
  {
    RunOne(c, inputs, k);
    StepLayered(Run(c, inputs[..k]), inputs[k], Run(c, inputs[..k + 1]), n);
  }

  /** A ring seen later was there before, among the activities there were. */
  lemma RingWasThere(before: seq<ActivityRecord>, after: seq<ActivityRecord>, ring: set<nat>)
    requires ActivitiesContinue(before, after) && Layered(after, |before|) && LiveRing(after, ring)
    ensures LiveRing(before, ring)
  {
    forall i | i in ring ensures i < |before| && !before[i].state.Terminal() && HasChildIn(before, ring, i) {
      NoRingPast(after, |before|, ring, i);
      assert ActivityContinues(before[i], after[i]) && HasChildIn(after, ring, i);
      var j :| 0 <= j < |after| && after[j].parentId == after[i].activityId && j in ring;
      NoRingPast(after, |before|, ring, j);
      assert ActivityContinues(before[j], after[j]);
    }
  }

  /** Throughout an incarnation the live rings are the same: none ends, none appears. */
  lemma RingsNeverChange(c: Core, inputs: seq<Input>, m: nat, ring: set<nat>)
    requires Sound(c) && m <= |inputs| && Run(c, inputs[..m]).started && Run(c, inputs).failed.None?
    requires Run(c, inputs).state.streamId == Run(c, inputs[..m]).state.streamId && AllIdentified(inputs)
    ensures LiveRing(Run(c, inputs).state.activities, ring) <==> LiveRing(Run(c, inputs[..m]).state.activities, ring)
  {
    if LiveRing(Run(c, inputs[..m]).state.activities, ring) { RingsNeverEnd(c, inputs, m, ring); }
    if LiveRing(Run(c, inputs).state.activities, ring) {
      LayeredAt(c, inputs, m, |inputs|, |Run(c, inputs[..m]).state.activities|);
      assert inputs[..|inputs|] == inputs;
      Midway(c, inputs, m, |inputs|);
      SinceThen(c, inputs, m);
      RingWasThere(Run(c, inputs[..m]).state.activities, Run(c, inputs).state.activities, ring);
    }
  }

  lemma SinceThen(c: Core, inputs: seq<Input>, m: nat)
    requires Sound(c) && m <= |inputs| && Run(c, inputs[..m]).started && Run(c, inputs).failed.None?
    requires Run(c, inputs).state.streamId == Run(c, inputs[..m]).state.streamId
    ensures ActivitiesContinue(Run(c, inputs[..m]).state.activities, Run(c, inputs).state.activities)
  {
    IncarnationContinues(c, inputs, m);
  }

  /** An accepted snapshot records exactly the activities it lists. */
  lemma OpensWithItsList(c: Core, d: Delivery)
    requires Empty(c) && c.failed.None? && ReduceFirst(c, d).failed.None?
    ensures d.event.SnapshotEvent? && ReduceFirst(c, d).state.activities == d.event.snapshot.activities
  {
    var named := c.(state := c.state.(streamId := d.streamId), started := true, base := d.sequence);
    var s := d.event.snapshot;
    StatedBlocking(s);
    RecordActionsFrame(ProjectTree(named, s), s.actions);
  }

  /** So does an accepted delivery that opens an incarnation, the first of the stream or in place of another. */
  lemma OpeningRecords(c: Core, d: Delivery)
    requires Sound(c) && Reduce(c, d).failed.None? && (!c.started || d.streamId != c.state.streamId)
    ensures var c1 := Reduce(c, d);
            && d.event.SnapshotEvent? && c1.state.activities == d.event.snapshot.activities
            && c1.started && c1.state.streamId == d.streamId
  {
    if c.started {
      var fresh0 := Reset(c.negotiated, c.retired, d.streamId);
      OpensWithItsList(fresh0, d);
      ReduceFirstCoherent(fresh0, d);
    } else {
      OpensWithItsList(c, d);
      ReduceFirstCoherent(c, d);
    }
  }

  /**
   So an incarnation has, in any later state, exactly the rings of live activities that the snapshot opening it
   lists, which its sender can check beforehand.
   */
  lemma RingsAreTheSnapshots(c: Core, inputs: seq<Input>, m: nat, ring: set<nat>)
    requires Sound(c) && m < |inputs| && inputs[m].Deliver? && AllIdentified(inputs) && Run(c, inputs).failed.None?
    requires var before := Run(c, inputs[..m]); !before.started || inputs[m].d.streamId != before.state.streamId
    requires Run(c, inputs).state.streamId == inputs[m].d.streamId
    ensures inputs[m].d.event.SnapshotEvent?
    ensures LiveRing(Run(c, inputs).state.activities, ring) <==>
            LiveRing(inputs[m].d.event.snapshot.activities, ring)
  {
    PrefixUnfailed(c, inputs, m + 1);
    RunSound(c, inputs[..m]);
    RunOne(c, inputs, m);
    OpeningRecords(Run(c, inputs[..m]), inputs[m].d);
    RingsNeverChange(c, inputs, m + 1, ring);
  }

  // ---- a snapshot with a ring ----

  function Member(id: string, parent: string): ActivityRecord {
    ActivityRecord(id, Subagent, ActivityRunning, parent, "", Activity, "t", "", None)
  }

  function RingSnapshot(): Snapshot {
    Snapshot(Foreground(Idle, "c", "", NoCause), [Member("x", "y"), Member("y", "x")], [])
  }

  /** Two activities listed as each other's parents. */
  lemma RingListed()
    ensures LiveRing(RingSnapshot().activities, {0, 1})
  {
    var activities := RingSnapshot().activities;
    assert activities[1].parentId == activities[0].activityId && activities[0].parentId == activities[1].activityId;
    assert HasChildIn(activities, {0, 1}, 0) && HasChildIn(activities, {0, 1}, 1);
  }

  lemma RingHasNoDefect(n: Negotiated)
    requires Subagent in n.activityKinds
    ensures SnapshotDefect(n, RingSnapshot()).None?
  {
    var s := RingSnapshot();
    assert s.activities[0].activityId in IntroducedActivities(s)
           && s.activities[1].activityId in IntroducedActivities(s);
    assert ListedActivityDefect(n, s, 0).None? && ListedActivityDefect(n, s, 1).None?;
    assert ActivitiesDefect(n, s, 2).None? && ActivitiesDefect(n, s, 1).None?;
  }

  /** A snapshot without a defect opens a new stream. */
  lemma AcceptedWhole(c: Core, d: Delivery)
    requires Pristine(c) && !c.state.closed && d.carrier.CarrierSessionInfo? && d.event.SnapshotEvent?
    requires SnapshotDefect(c.negotiated, d.event.snapshot).None?
    ensures Reduce(c, d).failed.None?
  {
    var named := c.(state := c.state.(streamId := d.streamId), started := true, base := d.sequence);
    StatedBlocking(d.event.snapshot);
    RecordActionsFrame(ProjectTree(named, d.event.snapshot), d.event.snapshot.actions);
  }

  /** A new reducer accepts that snapshot, and whatever it accepts afterwards the two never end. */
  lemma SnapshotMayRing(negotiated: Negotiated, d: Delivery, inputs: seq<Input>)
    requires Subagent in negotiated.activityKinds
    requires d.carrier.CarrierSessionInfo? && d.event == SnapshotEvent(RingSnapshot())
    requires inputs != [] && inputs[0] == Deliver(d) && AllIdentified(inputs)
    ensures Reduce(New(negotiated), d).failed.None?
    ensures var c := Run(New(negotiated), inputs);
            c.failed.None? && c.state.streamId == d.streamId ==> LiveRing(c.state.activities, {0, 1})
  {
    RingHasNoDefect(negotiated);
    AcceptedWhole(New(negotiated), d);
    RingListed();
    var c := Run(New(negotiated), inputs);
    if c.failed.None? && c.state.streamId == d.streamId {
      assert inputs[..0] == [];
      RingsAreTheSnapshots(New(negotiated), inputs, 0, {0, 1});
    }
  }
}
