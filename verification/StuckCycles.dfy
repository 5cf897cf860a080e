/**
 When a cycle can make no transition (lifecycle/reducer_apply.go). A cycle whose last blocker resolved before
 its owed requires_action transition arrived accepts nothing: a live transition needs the debt paid, and paying
 it needs a live blocker.
 */
module StuckCycles {
  import opened Wrappers
  import opened Values
  import opened Events
  import opened ReducerModel
  import opened ReducerInvariant
  import opened ReducerRuns
  import opened ReducerLimits
  import opened PublisherModel
  import opened Simulation

  predicate Stuck(c: Core, cycleId: string) {
    c.blockedCycle == cycleId && cycleId != "" && !Blocked(c, cycleId)
  }

  // ---- what it means ----

  /** A transition that takes an open turn live on a cycle. */
  ghost predicate GoesLive(c: Core, d: Delivery, state: ForegroundState, cycleId: string) {
    && NextInStream(c, d) && d.event.StateEvent?
    && d.event.transition.state == state && d.event.transition.cycleId == cycleId && d.event.transition.turnId != ""
    && TurnIsOpen(c, d.event.transition.turnId)
  }

  /** It is accepted exactly when the cycle's blockers call for it. */
  lemma LiveAcceptedExactly(c: Core, d: Delivery, state: ForegroundState, cycleId: string)
    requires Coherent(c) && GoesLive(c, d, state, cycleId) && (state.Running? || state.RequiresAction?)
    ensures Reduce(c, d).failed.None? <==>
            if state.RequiresAction? then Blocked(c, cycleId) else !Blocked(c, cycleId) && c.blockedCycle != cycleId
  {
    NextIsCommitted(c, d);
    OpenTurnIndex(c, d.event.transition.turnId);
  }

  /** Neither live transition is accepted on any open turn exactly when the cycle is stuck. */
  lemma NoLiveTransitionExactly(c: Core, run: Delivery, require: Delivery, cycleId: string)
    requires Coherent(c) && cycleId != ""
    requires GoesLive(c, run, Running, cycleId) && GoesLive(c, require, RequiresAction, cycleId)
    ensures Reduce(c, run).failed.Some? && Reduce(c, require).failed.Some? <==> Stuck(c, cycleId)
  {
    LiveAcceptedExactly(c, run, Running, cycleId);
    LiveAcceptedExactly(c, require, RequiresAction, cycleId);
  }

  /** A stuck cycle accepts no transition whatever, an ending one included. */
  lemma StuckRefuses(c: Core, d: Delivery)
    requires NextInStream(c, d) && d.event.StateEvent? && Stuck(c, d.event.transition.cycleId)
    ensures Reduce(c, d).failed.Some?
  {
    NextIsCommitted(c, d);
  }

  // ---- what releases it ----

  /**
   The first sight of a live blocking action, while the stuck cycle is the foreground, which blocks it again, or
   while a foreground owes its own transition, which takes the place of the debt.
   */
  predicate Unsticks(c: Core, i: Input, cycleId: string) {
    && i.Deliver? && NextInStream(c, i.d) && i.d.event.ActionEvent?
    && FirstBlocks(c, i.d.event.action)
    && c.state.foreground.Some?
    && (c.state.foreground.value.cycleId == cycleId || !c.state.foreground.value.state.RequiresAction?)
  }

  predicate FirstBlocks(c: Core, u: ActionUpdate) {
    u.actionId !in ActionIds(c.state.actions) && BlocksForeground(u) && !u.state.Terminal()
  }

  /** What an accepted action event does to a stuck cycle. */
  lemma ActionUnsticks(c: Core, d: Delivery, u: ActionUpdate, cycleId: string)
    requires Inv(c) && c.failed.None? && Stuck(c, cycleId) && ApplyAction(c, d, u).failed.None?
    ensures Stuck(ApplyAction(c, d, u), cycleId) <==>
            !(FirstBlocks(c, u) && (c.state.foreground.value.cycleId == cycleId
                                    || !c.state.foreground.value.state.RequiresAction?))
  {
    var index := IndexOf(ActionIds(c.state.actions), u.actionId);
    if index >= 0 {
      PatchStaysStuck(c, d, index, u, cycleId);
    } else {
      FirstActionUnsticks(c, u, cycleId);
    }
  }

  lemma PatchStaysStuck(c: Core, d: Delivery, index: nat, u: ActionUpdate, cycleId: string)
    requires c.failed.None? && index < |c.state.actions| && Stuck(c, cycleId)
             && PatchAction(c, d, index, u).failed.None?
    ensures Stuck(PatchAction(c, d, index, u), cycleId)
  {
    PatchBlocked(c, PatchAction(c, d, index, u), cycleId);
  }

  lemma FirstActionUnsticks(c: Core, u: ActionUpdate, cycleId: string)
    requires Inv(c) && Stuck(c, cycleId) && u.actionId !in ActionIds(c.state.actions) && u.blocksForeground.Some?
    ensures Stuck(RecordAction(c, u), cycleId) <==>
            !(FirstBlocks(c, u) && (c.state.foreground.value.cycleId == cycleId
                                    || !c.state.foreground.value.state.RequiresAction?))
  {
    var c1, n := RecordAction(c, u), |c.state.actions|;
    RecordActionBlocked(c, u, cycleId);
    assert c1.state.actions[n] == RecordedAction(u);
    if FirstBlocks(c, u) && c.state.foreground.value.cycleId == cycleId {
      assert Blocks(c1, n, cycleId);
    }
  }

  lemma TransitionStaysStuck(c: Core, d: Delivery, t: Transition, cycleId: string)
    requires c.failed.None? && Stuck(c, cycleId) && ApplyTransition(c, d, t).failed.None?
    ensures Stuck(ApplyTransition(c, d, t), cycleId)
  {
    CheckBlockedCycleFrame(c, d, t);
    BlockedFrame(c, ApplyTransition(c, d, t), cycleId);
  }

  lemma ActivityStaysStuck(c: Core, d: Delivery, u: ActivityRecord, cycleId: string)
    requires c.failed.None? && Stuck(c, cycleId)
    ensures Stuck(ApplyActivity(c, d, u), cycleId)
  {
    BlockedFrame(c, ApplyActivity(c, d, u), cycleId);
  }

  lemma AcceptanceStaysStuck(c: Core, d: Delivery, a: PromptAccepted, cycleId: string)
    requires c.failed.None? && Stuck(c, cycleId)
    ensures Stuck(ApplyPromptAccepted(c, d, a), cycleId)
  {
    BlockedFrame(c, ApplyPromptAccepted(c, d, a), cycleId);
  }

  lemma ApplyUnsticks(c: Core, d: Delivery, cycleId: string)
    requires Inv(c) && NextInStream(c, d) && Stuck(c, cycleId) && Apply(c, d).failed.None?
    ensures Stuck(Apply(c, d), cycleId) <==> !Unsticks(c, Deliver(d), cycleId)
  {
    match d.event
    case AcceptedEvent(a) => AcceptanceStaysStuck(c, d, a, cycleId);
    case StateEvent(t) => TransitionStaysStuck(c, d, t, cycleId);
    case ActivityEvent(u) => ActivityStaysStuck(c, d, u, cycleId);
    case ActionEvent(u) => ActionUnsticks(c, d, u, cycleId);
    case _ =>
  }

  /** One accepted input keeps a stuck cycle stuck exactly when it is not such a first sight. */
  lemma StepUnsticks(c: Core, i: Input, c1: Core, cycleId: string)
    requires Coherent(c) && Stuck(c, cycleId)
    requires c1 == Step(c, i) && c1.failed.None? && c1.state.streamId == c.state.streamId
    ensures Stuck(c1, cycleId) <==> !Unsticks(c, i, cycleId)
  {
    match i
    case Deliver(d) => ReduceUnsticks(c, d, c1, cycleId);
    case Undecodable(_) =>
    case CloseSession => BlockedFrame(c, c1, cycleId);
  }

  lemma ReduceUnsticks(c: Core, d: Delivery, c1: Core, cycleId: string)
    requires Coherent(c) && Stuck(c, cycleId)
    requires c1 == Reduce(c, d) && c1.failed.None? && c1.state.streamId == c.state.streamId
    ensures Stuck(c1, cycleId) <==> !Unsticks(c, Deliver(d), cycleId)
  {
    if d.streamId != c.state.streamId {
      ReduceForeignCoherent(c, d);
    } else if NextInStream(c, d) {
      NextIsCommitted(c, d);
      ApplyUnsticks(c, d, cycleId);
      BlockedFrame(Apply(c, d), c1, cycleId);
    } else {
      SuppressedOnly(c, d);
      BlockedFrame(c, c1, cycleId);
    }
  }

  lemma SuppressedOnly(c: Core, d: Delivery)
    requires Coherent(c) && d.streamId == c.state.streamId && !NextInStream(c, d) && Reduce(c, d).failed.None?
    ensures var c1 := Reduce(c, d);
            && c1.state.actions == c.state.actions && c1.actionCycle == c.actionCycle
            && c1.blockedCycle == c.blockedCycle
  {
  }

  lemma {:induction false} StuckAt(c: Core, inputs: seq<Input>, m: nat, k: nat, cycleId: string)
    requires Sound(c) && m <= k <= |inputs| && Run(c, inputs[..m]).started && Run(c, inputs).failed.None?
    requires Run(c, inputs).state.streamId == Run(c, inputs[..m]).state.streamId
    requires Stuck(Run(c, inputs[..m]), cycleId)
    requires forall j | m <= j < k :: !Unsticks(Run(c, inputs[..j]), inputs[j], cycleId)
    ensures Stuck(Run(c, inputs[..k]), cycleId)
    decreases |inputs| - m
  {
    if m < k {
      Midway(c, inputs, m, m);
      Midway(c, inputs, m, m + 1);
      StuckNext(c, inputs, m, cycleId);
      StuckAt(c, inputs, m + 1, k, cycleId);
    }
  }

  lemma StuckNext(c: Core, inputs: seq<Input>, k: nat, cycleId: string)
    requires k < |inputs| && Coherent(Run(c, inputs[..k])) && Coherent(Run(c, inputs[..k + 1]))
    requires Run(c, inputs[..k + 1]).state.streamId == Run(c, inputs[..k]).state.streamId
    requires Stuck(Run(c, inputs[..k]), cycleId)
    ensures Stuck(Run(c, inputs[..k + 1]), cycleId) <==> !Unsticks(Run(c, inputs[..k]), inputs[k], cycleId)
  {
    RunOne(c, inputs, k);
    StepUnsticks(Run(c, inputs[..k]), inputs[k], Run(c, inputs[..k + 1]), cycleId);
  }

  /**
   Over a run within one incarnation, a cycle once stuck is stuck in every state up to the end exactly when no
   input in between is the first sight of a live blocker that reaches it.
   */
  lemma StuckExactly(c: Core, inputs: seq<Input>, m: nat, cycleId: string)
    requires Sound(c) && m <= |inputs| && Run(c, inputs[..m]).started && Run(c, inputs).failed.None?
    requires Run(c, inputs).state.streamId == Run(c, inputs[..m]).state.streamId
    requires Stuck(Run(c, inputs[..m]), cycleId)
    ensures (forall k | m <= k <= |inputs| :: Stuck(Run(c, inputs[..k]), cycleId)) <==>
            (forall k | m <= k < |inputs| :: !Unsticks(Run(c, inputs[..k]), inputs[k], cycleId))
  {
    if forall k | m <= k < |inputs| :: !Unsticks(Run(c, inputs[..k]), inputs[k], cycleId) {
      forall k | m <= k <= |inputs| ensures Stuck(Run(c, inputs[..k]), cycleId) { StuckAt(c, inputs, m, k, cycleId); }
    }
    if forall k | m <= k <= |inputs| :: Stuck(Run(c, inputs[..k]), cycleId) {
      forall k | m <= k < |inputs| ensures !Unsticks(Run(c, inputs[..k]), inputs[k], cycleId) {
        NotUnstuck(c, inputs, m, k, cycleId);
      }
    }
  }

  lemma NotUnstuck(c: Core, inputs: seq<Input>, m: nat, k: nat, cycleId: string)
    requires Sound(c) && m <= k < |inputs| && Run(c, inputs[..m]).started && Run(c, inputs).failed.None?
    requires Run(c, inputs).state.streamId == Run(c, inputs[..m]).state.streamId
    requires Stuck(Run(c, inputs[..k]), cycleId) && Stuck(Run(c, inputs[..k + 1]), cycleId)
    ensures !Unsticks(Run(c, inputs[..k]), inputs[k], cycleId)
  {
    Neighbours(c, inputs, m, k, k + 1);
    StuckNext(c, inputs, k, cycleId);
  }

  // ---- a run that gets there ----

  const AGENT := Cycle("t", "x", Activity, "")

  /** An idle snapshot; an agent's cycle opens; it blocks on an action; the action is cancelled. */
  function Sent(n: nat): Event {
    if n == 1 then SnapshotOf("c")
    else if n == 2 then TransitionOf(Running, AGENT)
    else if n == 3 then PendingOf("a", Permission, "t")
    else ResolvedOf("a", ActionState.ActionCancelled)
  }

  function Delivered(n: nat): Delivery {
    Delivery("s", n, CarrierSessionInfo, Sent(n), JNull)
  }

  ghost predicate At(c: Core, n: nat) {
    && Coherent(c) && c.state.streamId == "s" && c.state.reducedThrough == n && c.base == 1 && !c.state.closed
  }

  ghost predicate AfterSnapshot(c: Core) {
    && At(c, 1) && c.state.actions == [] && c.state.turns == []
    && c.blockedCycle == "" && c.actionCycle == map[]
  }

  ghost predicate AfterOpening(c: Core) {
    && At(c, 2) && c.state.actions == [] && c.blockedCycle == "" && c.actionCycle == map[]
    && TurnIsOpen(c, "t") && c.state.foreground == Some(Foreground(Running, "x", "t", NoCause))
  }

  ghost predicate AfterPending(c: Core) {
    && At(c, 3) && TurnIsOpen(c, "t") && c.blockedCycle == "x" && c.actionCycle == map["a" := "x"]
    && c.state.actions == [ActionRecord("a", Permission, ActionState.ActionPending, Owner(OwnerTurn, "t"), "", true)]
  }

  ghost predicate AfterResolution(c: Core) {
    At(c, 4) && TurnIsOpen(c, "t") && Stuck(c, "x")
  }

  lemma SnapshotStep(negotiated: Negotiated)
    ensures AfterSnapshot(Reduce(New(negotiated), Delivered(1)))
  {
    var c, d := New(negotiated), Delivered(1);
    var s := d.event.snapshot;
    assert OriginTurns([]) == {} && IntroducedTurns(s) == {};
    ReduceFirstCoherent(c, d);
  }

  /** The next delivery of a coherent stream that applies. */
  lemma NextStep(c: Core, n: nat)
    requires At(c, n) && n >= 1 && Apply(c, Delivered(n + 1)).failed.None?
    ensures var c1, applied := Reduce(c, Delivered(n + 1)), Apply(c, Delivered(n + 1));
            At(c1, n + 1) && c1 == Commit(applied, Delivered(n + 1))
  {
    var d := Delivered(n + 1);
    NextIsCommitted(c, d);
    ApplyFrame(c, d);
    CommittedCoherent(c, d);
  }

  lemma OpeningStep(c: Core)
    requires AfterSnapshot(c)
    ensures AfterOpening(Reduce(c, Delivered(2)))
  {
    var t := Delivered(2).event.transition;
    assert !Blocked(c, "x");
    FirstTransition(c, Delivered(2));
    NextStep(c, 1);
  }

  lemma FirstTransition(c: Core, d: Delivery)
    requires Inv(c) && c.failed.None? && c.blockedCycle == "" && !Blocked(c, "x") && d.event == Sent(2)
    requires c.state.actions == []
    requires "t" !in TurnIds(c.state.turns)
    ensures var c1 := Apply(c, d);
            && c1.failed.None? && c1.state.actions == [] && c1.actionCycle == c.actionCycle && c1.blockedCycle == ""
            && c1.state.foreground == Some(Foreground(Running, "x", "t", NoCause)) && TurnIsOpen(c1, "t")
  {
    var c1 := Apply(c, d);
    assert c1.state.turns[|c.state.turns|].turnId == "t";
  }

  lemma PendingStep(c: Core)
    requires AfterOpening(c)
    ensures AfterPending(Reduce(c, Delivered(3)))
  {
    OpenIsSeen(c, "t");
    assert IndexOf(ActionIds(c.state.actions), "a") < 0;
    NextStep(c, 2);
  }

  lemma OpenIsSeen(c: Core, turnId: string)
    requires Inv(c) && TurnIsOpen(c, turnId)
    ensures turnId in c.turnSeen
  {
    var k :| 0 <= k < |c.state.turns| && c.state.turns[k].turnId == turnId && !c.state.turns[k].terminal;
    assert TurnIds(c.state.turns)[k] == turnId;
  }

  lemma ResolutionStep(c: Core)
    requires AfterPending(c)
    ensures AfterResolution(Reduce(c, Delivered(4)))
  {
    assert ActionIds(c.state.actions) == ["a"];
    assert IndexOf(["a"], "a") == 0;
    NextStep(c, 3);
  }

  function Four(): (inputs: seq<Input>)
    ensures |inputs| == 4 && forall k | 0 <= k < 4 :: inputs[k] == Deliver(Delivered(k + 1))
  {
    [Deliver(Delivered(1)), Deliver(Delivered(2)), Deliver(Delivered(3)), Deliver(Delivered(4))]
  }

  lemma SentNext(c: Core, inputs: seq<Input>, k: nat)
    requires k < |inputs| && inputs[k] == Deliver(Delivered(k + 1))
    ensures Run(c, inputs[..k + 1]) == Reduce(Run(c, inputs[..k]), Delivered(k + 1))
  {
    RunOne(c, inputs, k);
  }

  /** The four deliveries are accepted by a new reducer and leave the cycle stuck, its turn still open. */
  lemma StuckReached(negotiated: Negotiated)
    ensures var c := Run(New(negotiated), Four()); Coherent(c) && TurnIsOpen(c, "t") && Stuck(c, "x")
  {
    FirstTwo(New(negotiated), Four());
    LastTwo(New(negotiated), Four());
    assert Four()[..4] == Four();
  }

  lemma FirstTwo(c: Core, inputs: seq<Input>)
    requires c == New(c.negotiated) && |inputs| == 4
    requires inputs[0] == Deliver(Delivered(1)) && inputs[1] == Deliver(Delivered(2))
    ensures AfterOpening(Run(c, inputs[..2]))
  {
    FirstOne(c, inputs);
    SentNext(c, inputs, 1);
    OpeningStep(Run(c, inputs[..1]));
  }

  lemma FirstOne(c: Core, inputs: seq<Input>)
    requires c == New(c.negotiated) && inputs != [] && inputs[0] == Deliver(Delivered(1))
    ensures AfterSnapshot(Run(c, inputs[..1]))
  {
    assert inputs[..0] == [];
    SentNext(c, inputs, 0);
    SnapshotStep(c.negotiated);
  }

  lemma LastTwo(c: Core, inputs: seq<Input>)
    requires |inputs| == 4 && AfterOpening(Run(c, inputs[..2]))
    requires inputs[2] == Deliver(Delivered(3)) && inputs[3] == Deliver(Delivered(4))
    ensures AfterResolution(Run(c, inputs[..4]))
  {
    SentNext(c, inputs, 2);
    PendingStep(Run(c, inputs[..2]));
    SentNext(c, inputs, 3);
    ResolutionStep(Run(c, inputs[..3]));
  }
}
