/**
 Runs of the reducer: coherence of every reachable state, what one incarnation may never change, atomic and
 latched refusals, and blocked-cycle safety (lifecycle/reducer.go, lifecycle/reducer_apply.go).
 */
module ReducerRuns {
  import opened Wrappers
  import opened Events
  import opened ReducerModel
  import opened ReducerInvariant

  /** What reaches a reducer: a decoded delivery, a frame the decoder refused, or the session's close. */
  datatype Input = Deliver(d: Delivery) | Undecodable(v: Violation) | CloseSession

  /** A frame refused before decoding latches, and names a stream that never opened. */
  function RefuseFrame(c: Core, v: Violation): Core {
    if c.failed.Some? then c
    else
      var named := if c.started then c else c.(state := c.state.(streamId := v.streamId));
      named.(failed := Some(v))
  }

  function Step(c: Core, i: Input): Core {
    match i
    case Deliver(d) => Reduce(c, d)
    case Undecodable(v) => RefuseFrame(c, v)
    case CloseSession => Close(c)
  }

  function Run(c: Core, inputs: seq<Input>): Core {
    if inputs == [] then c else Step(Run(c, inputs[..|inputs| - 1]), inputs[|inputs| - 1])
  }

  /** A reducer that has seen nothing. */
  predicate Pristine(c: Core) {
    Empty(c) && !c.started && c.failed.None? && c.retired == {} && (c.frames.Some? ==> c.frames.value == map[])
  }

  ghost predicate Sound(c: Core) {
    c.failed.None? ==> if c.started then Coherent(c) else Pristine(c)
  }

  // ---- every reachable state is coherent ----

  lemma ReduceFirstCoherent(c: Core, d: Delivery)
    requires Empty(c) && c.failed.None? && (c.frames.Some? ==> c.frames.value == map[])
    requires d.streamId !in c.retired
    ensures var c1 := ReduceFirst(c, d);
            c1.failed.None? ==>
              && Coherent(c1) && c1.state.streamId == d.streamId && c1.retired == c.retired
              && c1.state.closed == c.state.closed && c1.base == d.sequence && c1.negotiated == c.negotiated
              && c1.state.reducedThrough == d.sequence && c1.frames.Some? == c.frames.Some?
              && c1.state.suppressed == c.state.suppressed
  {
    var named := c.(state := c.state.(streamId := d.streamId), started := true, base := d.sequence);
    if d.event.Opens() {
      ApplySnapshotInv(named, d);
      var first := ApplySnapshot(named, d);
      if first.failed.None? {
        CommitsFirst(named, first, d);
      }
    }
  }

  lemma CommitsFirst(named: Core, first: Core, d: Delivery)
    requires named.frames.Some? ==> named.frames.value == map[]
    requires named.state.streamId !in named.retired && named.started && named.base == d.sequence
    requires first.started && first.base == named.base && first.frames == named.frames && first.retired == named.retired
    requires first.state.streamId == named.state.streamId && Inv(first) && first.failed.None?
    ensures Coherent(Commit(first, d))
  {
    CommitKeepsInv(first, d);
  }

  lemma CommitKeepsInv(c: Core, d: Delivery)
    requires Inv(c)
    ensures Inv(Commit(c, d))
  {
    var c1 := Commit(c, d);
    BlockedFrame(c, c1, c.state.foreground.value.cycleId);
  }

  /** Everything an applied event leaves alone. */
  predicate SameFrame(c: Core, c1: Core) {
    && c1.started == c.started && c1.base == c.base && c1.frames == c.frames && c1.retired == c.retired
    && c1.negotiated == c.negotiated
    && c1.state.streamId == c.state.streamId && c1.state.closed == c.state.closed
    && c1.state.reducedThrough == c.state.reducedThrough && c1.state.suppressed == c.state.suppressed
  }

  lemma TransitionFrame(c: Core, d: Delivery, t: Transition)
    requires c.failed.None?
    ensures SameFrame(c, ApplyTransition(c, d, t))
  {
    CheckBlockedCycleFrame(c, d, t);
    var checked := CheckBlockedCycle(c, d, t);
    assert SameFrame(c, checked);
    assert SameFrame(checked, ApplyLive(checked, d, t));
    assert SameFrame(checked, ApplyIdle(checked, d, t));
  }

  lemma ActivityFrame(c: Core, d: Delivery, u: ActivityRecord)
    ensures SameFrame(c, ApplyActivity(c, d, u))
  {
  }

  lemma ActionFrame(c: Core, d: Delivery, u: ActionUpdate)
    ensures SameFrame(c, ApplyAction(c, d, u))
  {
  }

  lemma ApplyFrame(c: Core, d: Delivery)
    requires c.failed.None?
    ensures SameFrame(c, Apply(c, d))
  {
    match d.event
    case StateEvent(t) => TransitionFrame(c, d, t);
    case ActivityEvent(u) => ActivityFrame(c, d, u);
    case ActionEvent(u) => ActionFrame(c, d, u);
    case AcceptedEvent(a) => assert SameFrame(c, ApplyPromptAccepted(c, d, a));
    case _ =>
  }

  lemma ReduceForeignCoherent(c: Core, d: Delivery)
    requires Coherent(c) && d.streamId != c.state.streamId
    ensures var c1 := ReduceForeign(c, d);
            c1.failed.None? ==>
              && Coherent(c1) && c1.state.streamId == d.streamId && c1.retired == c.retired + {c.state.streamId}
              && d.streamId !in c.retired && c1.state.suppressed == 0 && c1.state.closed == c.state.closed
  {
    if d.event.Opens() && d.streamId !in c.retired {
      var empty := Reset(c.negotiated, c.retired, d.streamId);
      ReduceFirstCoherent(empty, d);
      var next := ReduceFirst(empty, d);
      if next.failed.None? {
        var c1 := ReduceForeign(c, d);
        BlockedFrame(next, c1, next.state.foreground.value.cycleId);
      }
    }
  }

  /** The delivery is the next event of the incarnation being reduced. */
  predicate NextInStream(c: Core, d: Delivery) {
    && c.started && c.failed.None? && !c.state.closed && d.carrier.CarrierSessionInfo?
    && d.streamId == c.state.streamId && d.sequence == c.state.reducedThrough + 1 && c.base <= d.sequence
    && !d.event.Opens()
  }

  lemma NextIsCommitted(c: Core, d: Delivery)
    requires NextInStream(c, d)
    ensures Reduce(c, d) == var c1 := Apply(c, d); if c1.failed.Some? then c1 else Commit(c1, d)
  {
  }

  lemma ReduceNextCoherent(c: Core, d: Delivery)
    requires Coherent(c) && NextInStream(c, d)
    ensures var c1 := Reduce(c, d); c1.failed.None? ==> Coherent(c1)
  {
    NextIsCommitted(c, d);
    if Apply(c, d).failed.None? { CommittedCoherent(c, d); }
  }

  lemma CommittedCoherent(c: Core, d: Delivery)
    requires Coherent(c) && NextInStream(c, d) && Apply(c, d).failed.None?
    ensures Coherent(Commit(Apply(c, d), d))
  {
    ApplyFrame(c, d);
    ApplyInv(c, d);
    CommitsNext(c, Apply(c, d), d);
  }

  lemma CommitsNext(c: Core, applied: Core, d: Delivery)
    requires Coherent(c) && d.sequence == c.state.reducedThrough + 1 && c.base <= d.sequence
    requires SameFrame(c, applied) && Inv(applied) && applied.failed.None?
    ensures Coherent(Commit(applied, d))
  {
    CommitKeepsInv(applied, d);
  }

  lemma SuppressedKeepsInv(c: Core, n: nat)
    requires Inv(c)
    ensures Inv(c.(state := c.state.(suppressed := n)))
  {
    BlockedFrame(c, c.(state := c.state.(suppressed := n)), c.state.foreground.value.cycleId);
  }

  lemma CloseKeepsInv(c: Core)
    requires Inv(c)
    ensures Inv(Close(c))
  {
    BlockedFrame(c, Close(c), c.state.foreground.value.cycleId);
  }

  lemma StepSound(c: Core, i: Input)
    requires Sound(c)
    ensures Sound(Step(c, i))
  {
    var c1 := Step(c, i);
    if c1.failed.None? {
      match i
      case CloseSession => if c.started { CloseKeepsInv(c); }
      case Deliver(d) =>
        if !c.started {
          ReduceFirstCoherent(c, d);
        } else if d.streamId != c.state.streamId {
          ReduceForeignCoherent(c, d);
        } else if d.sequence <= c.state.reducedThrough {
          SuppressedKeepsInv(c, c.state.suppressed + 1);
        } else {
          ReduceNextCoherent(c, d);
        }
    }
  }

  /** Every state a reducer reaches is failed, untouched, or coherent. */
  lemma {:induction false} RunSound(c: Core, inputs: seq<Input>)
    requires Sound(c)
    ensures Sound(Run(c, inputs))
  {
    if inputs != [] {
      RunSound(c, inputs[..|inputs| - 1]);
      StepSound(Run(c, inputs[..|inputs| - 1]), inputs[|inputs| - 1]);
    }
  }

  lemma NewIsSound(negotiated: Negotiated)
    ensures Sound(New(negotiated)) && Sound(New(negotiated).(frames := None))
  {
  }

  /** So is every state of a new reducer, whether it retains frames or not. */
  lemma EveryRunSound(negotiated: Negotiated, inputs: seq<Input>)
    ensures Sound(Run(New(negotiated), inputs)) && Sound(Run(New(negotiated).(frames := None), inputs))
  {
    NewIsSound(negotiated);
    RunSound(New(negotiated), inputs);
    RunSound(New(negotiated).(frames := None), inputs);
  }

  // ---- the tree ----

  /** A chain of parent links, child first. */
  ghost predicate Descends(activities: seq<ActivityRecord>, chain: seq<nat>) {
    && chain != []
    && (forall k | 0 <= k < |chain| :: chain[k] < |activities|)
    && (forall k | 0 <= k < |chain| - 1 ::
          activities[chain[k]].parentId != ""
          && activities[chain[k]].parentId == activities[chain[k + 1]].activityId)
  }

  /** A terminal activity has only terminal descendants, at any depth. */
  lemma {:induction false} TerminalDescendants(activities: seq<ActivityRecord>, chain: seq<nat>)
    requires TreeClosed(activities) && Descends(activities, chain)
    requires activities[chain[|chain| - 1]].state.Terminal()
    ensures activities[chain[0]].state.Terminal()
  {
    if |chain| > 1 {
      var upper := chain[1..];
      forall k | 0 <= k < |upper| - 1
        ensures activities[upper[k]].parentId != ""
        ensures activities[upper[k]].parentId == activities[upper[k + 1]].activityId
      {
        var next := k + 1;
        assert upper[k] == chain[next] && upper[k + 1] == chain[next + 1];
      }
      TerminalDescendants(activities, upper);
      assert activities[chain[0]].parentId == activities[chain[0 + 1]].activityId;
    }
  }

  // ---- what one incarnation never changes ----

  predicate TurnContinues(a: TurnRecord, b: TurnRecord) {
    && b.turnId == a.turnId && b.origin == a.origin && b.submissionId == a.submissionId
    && b.clientNonce == a.clientNonce && b.runId == a.runId
    && (a.terminal ==> b == a)
  }

  predicate ActivityContinues(a: ActivityRecord, b: ActivityRecord) {
    b == a.(state := b.state, progress := b.progress) && (a.state.Terminal() ==> b == a)
  }

  predicate ActionContinues(a: ActionRecord, b: ActionRecord) {
    b == a.(state := b.state) && (a.state.Terminal() ==> b == a)
  }

  ghost predicate TurnsContinue(a: seq<TurnRecord>, b: seq<TurnRecord>) {
    |a| <= |b| && forall i | 0 <= i < |a| :: TurnContinues(a[i], b[i])
  }

  ghost predicate ActivitiesContinue(a: seq<ActivityRecord>, b: seq<ActivityRecord>) {
    |a| <= |b| && forall i | 0 <= i < |a| :: ActivityContinues(a[i], b[i])
  }

  ghost predicate ActionsContinue(a: seq<ActionRecord>, b: seq<ActionRecord>) {
    |a| <= |b| && forall i | 0 <= i < |a| :: ActionContinues(a[i], b[i])
  }

  /** The lists grow only at the end, identity is fixed, terminal records are frozen, blockers keep their cycle. */
  ghost predicate Continues(c: Core, e: Core) {
    && TurnsContinue(c.state.turns, e.state.turns)
    && ActivitiesContinue(c.state.activities, e.state.activities)
    && ActionsContinue(c.state.actions, e.state.actions)
    && (forall id | id in c.actionCycle :: id in e.actionCycle && e.actionCycle[id] == c.actionCycle[id])
    && c.turnSeen <= e.turnSeen && c.activitySeen <= e.activitySeen
  }

  lemma TurnsTransitive(a: seq<TurnRecord>, b: seq<TurnRecord>, c: seq<TurnRecord>)
    requires TurnsContinue(a, b) && TurnsContinue(b, c)
    ensures TurnsContinue(a, c)
  {
    forall i | 0 <= i < |a| ensures TurnContinues(a[i], c[i]) { assert TurnContinues(b[i], c[i]); }
  }

  lemma ActivitiesTransitive(a: seq<ActivityRecord>, b: seq<ActivityRecord>, c: seq<ActivityRecord>)
    requires ActivitiesContinue(a, b) && ActivitiesContinue(b, c)
    ensures ActivitiesContinue(a, c)
  {
    forall i | 0 <= i < |a| ensures ActivityContinues(a[i], c[i]) { assert ActivityContinues(b[i], c[i]); }
  }

  lemma ActionsTransitive(a: seq<ActionRecord>, b: seq<ActionRecord>, c: seq<ActionRecord>)
    requires ActionsContinue(a, b) && ActionsContinue(b, c)
    ensures ActionsContinue(a, c)
  {
    forall i | 0 <= i < |a| ensures ActionContinues(a[i], c[i]) { assert ActionContinues(b[i], c[i]); }
  }

  lemma ContinuesTransitive(a: Core, b: Core, c: Core)
    requires Continues(a, b) && Continues(b, c)
    ensures Continues(a, c)
  {
    TurnsTransitive(a.state.turns, b.state.turns, c.state.turns);
    ActivitiesTransitive(a.state.activities, b.state.activities, c.state.activities);
    ActionsTransitive(a.state.actions, b.state.actions, c.state.actions);
  }

  /** Only the turns and their seen-set changed. */
  lemma TurnChangeContinues(c: Core, e: Core)
    requires TurnsContinue(c.state.turns, e.state.turns) && c.turnSeen <= e.turnSeen
    requires e.state.activities == c.state.activities && e.state.actions == c.state.actions
    requires e.actionCycle == c.actionCycle && e.activitySeen == c.activitySeen
    ensures Continues(c, e)
  {
  }

  lemma LiveContinues(c: Core, d: Delivery, t: Transition)
    requires c.failed.None?
    ensures var c1 := ApplyLive(c, d, t); c1.failed.None? ==> Continues(c, c1)
  {
    var c1 := ApplyLive(c, d, t);
    if c1.failed.None? {
      assert TurnsContinue(c.state.turns, c1.state.turns);
      TurnChangeContinues(c, c1);
    }
  }

  lemma IdleContinues(c: Core, d: Delivery, t: Transition)
    requires c.failed.None?
    ensures var c1 := ApplyIdle(c, d, t); c1.failed.None? ==> Continues(c, c1)
  {
    var c1 := ApplyIdle(c, d, t);
    if c1.failed.None? {
      assert TurnsContinue(c.state.turns, c1.state.turns);
      TurnChangeContinues(c, c1);
    }
  }

  lemma TransitionContinues(c: Core, d: Delivery, t: Transition)
    requires c.failed.None?
    ensures var c1 := ApplyTransition(c, d, t); c1.failed.None? ==> Continues(c, c1)
  {
    CheckBlockedCycleFrame(c, d, t);
    var checked := CheckBlockedCycle(c, d, t);
    if checked.failed.None? {
      LiveContinues(checked, d, t);
      IdleContinues(checked, d, t);
      OnlyBlockedChanged(c, checked);
    }
  }

  lemma OnlyBlockedChanged(c: Core, checked: Core)
    requires checked == c.(blockedCycle := checked.blockedCycle)
    ensures forall e | Continues(checked, e) :: Continues(c, e)
  {
  }

  lemma PatchedActivityContinues(c: Core, d: Delivery, index: nat, u: ActivityRecord)
    requires c.failed.None? && index < |c.state.activities|
    ensures var c1 := PatchActivity(c, d, index, u); c1.failed.None? ==> Continues(c, c1)
  {
    var c1 := PatchActivity(c, d, index, u);
    if c1.failed.None? {
      assert ActivitiesContinue(c.state.activities, c1.state.activities);
    }
  }

  lemma ActivityEventContinues(c: Core, d: Delivery, u: ActivityRecord)
    requires c.failed.None?
    ensures var c1 := ApplyActivity(c, d, u); c1.failed.None? ==> Continues(c, c1)
  {
    var index := IndexOf(ActivityIds(c.state.activities), u.activityId);
    if index >= 0 {
      PatchedActivityContinues(c, d, index, u);
    } else {
      assert Continues(c, RecordActivity(c, u));
    }
  }

  lemma FirstActionContinues(c: Core, u: ActionUpdate)
    requires u.blocksForeground.Some? && u.actionId !in c.actionCycle
    ensures Continues(c, RecordAction(c, u))
  {
  }

  lemma PatchedActionContinues(c: Core, d: Delivery, index: nat, u: ActionUpdate)
    requires c.failed.None? && index < |c.state.actions|
    ensures var c1 := PatchAction(c, d, index, u); c1.failed.None? ==> Continues(c, c1)
  {
    var c1 := PatchAction(c, d, index, u);
    if c1.failed.None? {
      assert ActionsContinue(c.state.actions, c1.state.actions);
    }
  }

  lemma ActionEventContinues(c: Core, d: Delivery, u: ActionUpdate)
    requires c.failed.None? && BlockersTracked(c.state, c.actionCycle)
    ensures var c1 := ApplyAction(c, d, u); c1.failed.None? ==> Continues(c, c1)
  {
    var index := IndexOf(ActionIds(c.state.actions), u.actionId);
    if index >= 0 {
      PatchedActionContinues(c, d, index, u);
    } else if u.blocksForeground.Some? {
      FirstActionContinues(c, u);
    }
  }

  lemma AcceptanceContinues(c: Core, d: Delivery, a: PromptAccepted)
    requires c.failed.None?
    ensures var c1 := ApplyPromptAccepted(c, d, a); c1.failed.None? ==> Continues(c, c1)
  {
  }

  lemma ApplyContinues(c: Core, d: Delivery)
    requires c.failed.None? && BlockersTracked(c.state, c.actionCycle)
    ensures var c1 := Apply(c, d); c1.failed.None? ==> Continues(c, c1)
  {
    match d.event
    case AcceptedEvent(a) => AcceptanceContinues(c, d, a);
    case StateEvent(t) => TransitionContinues(c, d, t);
    case ActivityEvent(u) => ActivityEventContinues(c, d, u);
    case ActionEvent(u) => ActionEventContinues(c, d, u);
    case _ =>
  }

  /** One input either continues the incarnation or retires it for good. */
  lemma StepContinues(c: Core, i: Input)
    requires Sound(c) && c.started && Step(c, i).failed.None?
    ensures var c1 := Step(c, i);
            && c.failed.None? && c1.started && c.retired <= c1.retired
            && (if c1.state.streamId == c.state.streamId then Continues(c, c1) else c.state.streamId in c1.retired)
  {
    match i
    case Deliver(d) =>
      if d.streamId != c.state.streamId {
        ReduceForeignCoherent(c, d);
      } else if d.sequence > c.state.reducedThrough {
        NextIsCommitted(c, d);
        ApplyFrame(c, d);
        ApplyContinues(c, d);
      }
    case _ =>
  }

  /** A state standing in this relation to a later one was continued by it, or retired before it. */
  ghost predicate ContinuedOrRetired(a: Core, b: Core) {
    && a.started && a.failed.None? && b.started && b.failed.None? && a.retired <= b.retired
    && (if b.state.streamId == a.state.streamId then Continues(a, b) else a.state.streamId in b.retired)
  }

  lemma ContinuedOrRetiredStep(a: Core, b: Core, e: Core)
    requires ContinuedOrRetired(a, b) && ContinuedOrRetired(b, e) && Coherent(e)
    ensures ContinuedOrRetired(a, e)
  {
    if b.state.streamId == a.state.streamId == e.state.streamId {
      ContinuesTransitive(a, b, e);
    }
  }

  /** Of two unfailed states of one run, the later continues the earlier or has retired its stream. */
  lemma {:induction false} IncarnationContinues(c: Core, inputs: seq<Input>, m: nat)
    requires Sound(c) && m <= |inputs|
    requires Run(c, inputs[..m]).started && Run(c, inputs).failed.None?
    ensures ContinuedOrRetired(Run(c, inputs[..m]), Run(c, inputs))
    decreases |inputs|
  {
    if m == |inputs| {
      assert inputs[..m] == inputs;
    } else {
      var rest, last := inputs[..|inputs| - 1], inputs[|inputs| - 1];
      assert rest[..m] == inputs[..m];
      LatchedStep(Run(c, rest), last);
      IncarnationContinues(c, rest, m);
      RunSound(c, rest);
      StepSound(Run(c, rest), last);
      StepContinues(Run(c, rest), last);
      ContinuedOrRetiredStep(Run(c, rest[..m]), Run(c, rest), Run(c, inputs));
    }
  }

  // ---- refusals ----

  lemma LatchedStep(c: Core, i: Input)
    ensures c.failed.Some? ==> Step(c, i) == if i.CloseSession? then Close(c) else c
  {
  }

  /** Whatever follows a refusal returns that refusal and reduces nothing. */
  lemma {:induction false} RefusalLatched(c: Core, inputs: seq<Input>)
    requires c.failed.Some?
    ensures Run(c, inputs) == c || Run(c, inputs) == Close(c)
  {
    if inputs != [] {
      RefusalLatched(c, inputs[..|inputs| - 1]);
      LatchedStep(Run(c, inputs[..|inputs| - 1]), inputs[|inputs| - 1]);
    }
  }

  lemma TransitionRefusalAtomic(c: Core, d: Delivery, t: Transition)
    requires c.failed.None? && ApplyTransition(c, d, t).failed.Some?
    ensures ApplyTransition(c, d, t).state == c.state
  {
    CheckBlockedCycleFrame(c, d, t);
    var checked := CheckBlockedCycle(c, d, t);
    if checked.failed.None? {
      assert ApplyLive(checked, d, t).failed.Some? ==> ApplyLive(checked, d, t).state == checked.state;
      assert ApplyIdle(checked, d, t).failed.Some? ==> ApplyIdle(checked, d, t).state == checked.state;
    }
  }

  lemma ActivityRefusalAtomic(c: Core, d: Delivery, u: ActivityRecord)
    requires c.failed.None? && ApplyActivity(c, d, u).failed.Some?
    ensures ApplyActivity(c, d, u).state == c.state
  {
  }

  lemma ActionRefusalAtomic(c: Core, d: Delivery, u: ActionUpdate)
    requires c.failed.None? && ApplyAction(c, d, u).failed.Some?
    ensures ApplyAction(c, d, u).state == c.state
  {
  }

  lemma ApplyRefusalAtomic(c: Core, d: Delivery)
    requires c.failed.None? && Apply(c, d).failed.Some?
    ensures Apply(c, d).state == c.state
  {
    match d.event
    case StateEvent(t) => TransitionRefusalAtomic(c, d, t);
    case ActivityEvent(u) => ActivityRefusalAtomic(c, d, u);
    case ActionEvent(u) => ActionRefusalAtomic(c, d, u);
    case _ =>
  }

  /** A refused input leaves the projection as it stood; only an unopened stream adopts the refused identity. */
  lemma RefusalAtomic(c: Core, i: Input)
    requires c.failed.None? && Step(c, i).failed.Some?
    ensures var c1 := Step(c, i);
            && c1.retired == c.retired && c1.started == c.started
            && c1.state == (if c.started then c.state else c.state.(streamId := c1.state.streamId))
            && (c1.state.streamId != c.state.streamId ==> c1.state.streamId == c1.failed.value.streamId)
  {
    match i
    case Deliver(d) =>
      if c.started && d.streamId == c.state.streamId && d.sequence > c.state.reducedThrough && NextInStream(c, d) {
        ApplyRefusalAtomic(c, d);
        ApplyFrame(c, d);
      } else if !c.started && d.carrier.CarrierSessionInfo? && !c.state.closed {
        FirstRefusalAtomic(c, d);
      }
    case _ =>
  }

  lemma FirstRefusalAtomic(c: Core, d: Delivery)
    requires c.failed.None? && !c.started && ReduceFirst(c, d).failed.Some?
    ensures var c1 := ReduceFirst(c, d);
            && c1.retired == c.retired && !c1.started
            && c1.state == c.state.(streamId := d.streamId) && c1.failed.value.streamId == d.streamId
  {
    var named := c.(state := c.state.(streamId := d.streamId), started := true, base := d.sequence);
    if d.event.Opens() && d.event.SnapshotEvent? && SnapshotDefect(c.negotiated, d.event.snapshot).None? {
      var s := d.event.snapshot;
      StatedBlocking(s);
      RecordActionsFrame(ProjectTree(named, s), s.actions);
    }
  }

  /** A superseded incarnation is fenced: every delivery naming it is refused. */
  lemma SupersededRefused(c: Core, d: Delivery)
    requires Sound(c) && c.started && d.streamId in c.retired
    ensures Reduce(c, d).failed.Some?
  {
  }

  // ---- blocked cycles ----

  /** While a blocker is live, an accepted transition may name its cycle only to require action. */
  lemma BlockedTransition(c: Core, d: Delivery, i: nat)
    requires Coherent(c) && NextInStream(c, d) && d.event.StateEvent? && Reduce(c, d).failed.None?
    requires i < |c.state.actions| && LiveBlocker(c.state.actions[i])
    requires CycleOf(c.actionCycle, c.state.actions[i].actionId) == d.event.transition.cycleId
    ensures d.event.transition.state.RequiresAction?
  {
    NextIsCommitted(c, d);
    assert Blocks(c, i, d.event.transition.cycleId);
  }

  /** An action seen live at both ends of a stretch was live, on the same cycle, throughout it. */
  lemma LiveBetween(a: Core, mid: Core, b: Core, i: nat)
    requires Coherent(a) && Coherent(b)
    requires ContinuedOrRetired(a, mid) && ContinuedOrRetired(mid, b)
    requires b.state.streamId == a.state.streamId
    requires i < |a.state.actions| && LiveBlocker(a.state.actions[i])
    requires i < |b.state.actions| && LiveBlocker(b.state.actions[i])
    ensures i < |mid.state.actions| && LiveBlocker(mid.state.actions[i])
    ensures CycleOf(mid.actionCycle, mid.state.actions[i].actionId) ==
            CycleOf(a.actionCycle, a.state.actions[i].actionId)
  {
    assert mid.state.streamId == a.state.streamId;
    assert ActionContinues(a.state.actions[i], mid.state.actions[i]);
    assert ActionContinues(mid.state.actions[i], b.state.actions[i]);
  }

  /** Three prefixes of one run that ends unfailed. */
  lemma RunBetween(c: Core, inputs: seq<Input>, m: nat, k: nat)
    requires Sound(c) && m <= k <= |inputs| && Run(c, inputs[..m]).started && Run(c, inputs).failed.None?
    ensures ContinuedOrRetired(Run(c, inputs[..m]), Run(c, inputs[..k]))
    ensures ContinuedOrRetired(Run(c, inputs[..k]), Run(c, inputs))
    ensures Coherent(Run(c, inputs[..m])) && Coherent(Run(c, inputs[..k])) && Coherent(Run(c, inputs))
  {
    PrefixUnfailed(c, inputs, k);
    assert inputs[..k][..m] == inputs[..m];
    RunFrom(c, inputs[..k], m);
    RunFrom(c, inputs, k);
  }

  lemma RunFrom(c: Core, inputs: seq<Input>, m: nat)
    requires Sound(c) && m <= |inputs| && Run(c, inputs[..m]).started && Run(c, inputs).failed.None?
    ensures ContinuedOrRetired(Run(c, inputs[..m]), Run(c, inputs))
    ensures Coherent(Run(c, inputs[..m])) && Coherent(Run(c, inputs))
  {
    PrefixUnfailed(c, inputs, m);
    IncarnationContinues(c, inputs, m);
    RunSound(c, inputs[..m]);
    RunSound(c, inputs);
  }

  lemma RunStep(c: Core, inputs: seq<Input>, k: nat)
    requires k < |inputs| && Run(c, inputs).failed.None?
    ensures Step(Run(c, inputs[..k]), inputs[k]).failed.None?
  {
    PrefixUnfailed(c, inputs, k + 1);
    assert inputs[..k + 1][..k] == inputs[..k];
  }

  /**
   Over a whole run: between two states of one incarnation at which an action is a live blocker, every
   accepted transition naming the cycle it stopped requires action.
   */
  lemma BlockedThroughout(c: Core, inputs: seq<Input>, m: nat, k: nat, i: nat)
    requires Sound(c) && m <= k < |inputs|
    requires var a, b := Run(c, inputs[..m]), Run(c, inputs);
             && a.started && b.failed.None? && b.state.streamId == a.state.streamId
             && i < |a.state.actions| && LiveBlocker(a.state.actions[i])
             && i < |b.state.actions| && LiveBlocker(b.state.actions[i])
             && inputs[k].Deliver? && NextInStream(Run(c, inputs[..k]), inputs[k].d)
             && inputs[k].d.event.StateEvent?
             && inputs[k].d.event.transition.cycleId == CycleOf(a.actionCycle, a.state.actions[i].actionId)
    ensures inputs[k].d.event.transition.state.RequiresAction?
  {
    RunBetween(c, inputs, m, k);
    RunStep(c, inputs, k);
    LiveBetween(Run(c, inputs[..m]), Run(c, inputs[..k]), Run(c, inputs), i);
    BlockedTransition(Run(c, inputs[..k]), inputs[k].d, i);
  }

  lemma {:induction false} PrefixUnfailed(c: Core, inputs: seq<Input>, k: nat)
    requires k <= |inputs| && Run(c, inputs).failed.None?
    ensures Run(c, inputs[..k]).failed.None?
    decreases |inputs|
  {
    if k < |inputs| {
      var rest := inputs[..|inputs| - 1];
      LatchedStep(Run(c, rest), inputs[|inputs| - 1]);
      assert rest[..k] == inputs[..k];
      PrefixUnfailed(c, rest, k);
    } else {
      assert inputs[..k] == inputs;
    }
  }
}
