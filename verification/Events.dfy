/**
 The lifecycle vocabulary, events, deliveries and projection records
 (lifecycle/vocabulary.go, lifecycle/event.go, lifecycle/state.go, lifecycle/violation.go).

 The source keeps each closed vocabulary as a string type. Here each is a datatype whose `Other`
 constructor stands for every string outside it, and whose `No` constructor, where there is one, for
 the empty string an absent member leaves.
 */
module Events {
  import opened Wrappers
  import opened Values

  datatype ForegroundState = Running | Idle | RequiresAction | OtherForeground(name: string)

  datatype Cause = NoCause | Submission | Activity | Session | OtherCause(name: string)

  datatype Outcome = NoOutcome | Success | Refused | Cancelled | Limit | Failed | OtherOutcome(name: string)

  datatype ActivityKind = NoActivityKind | Task | Subagent | OtherActivityKind(name: string)

  datatype ActivityState =
    | ActivityPending | ActivityRunning | ActivityRequiresAction
    | ActivityCompleted | ActivityFailed | ActivityCancelled
    | OtherActivityState(name: string)
  {
    predicate Terminal() {
      ActivityCompleted? || ActivityFailed? || ActivityCancelled?
    }
  }

  datatype ActionKind = NoActionKind | Permission | Elicitation | OtherActionKind(name: string)

  datatype ActionState =
    | ActionPending | ActionAccepted | ActionDeclined | ActionCancelled | ActionFailed
    | OtherActionState(name: string)
  {
    /** Everything but pending is terminal. */
    predicate Terminal() {
      !ActionPending?
    }
  }

  datatype OwnerType = NoOwner | OwnerTurn | OwnerActivity | OtherOwner(name: string)

  datatype Owner = Owner(kind: OwnerType, id: string)

  // ---- events ----

  datatype Foreground = Foreground(state: ForegroundState, cycleId: string, turnId: string, origin: Cause)

  datatype Snapshot = Snapshot(foreground: Foreground, activities: seq<ActivityRecord>, actions: seq<ActionUpdate>)

  datatype PromptAccepted = PromptAccepted(submissionId: string, clientNonce: string, turnId: string, runId: string)

  datatype Transition = Transition(
    state: ForegroundState, cycleId: string, turnId: string, cause: Cause, stopReason: string, outcome: Outcome)

  /** One activity: the update an event carries and the record it is projected to have the same members. */
  datatype ActivityRecord = ActivityRecord(
    activityId: string, kind: ActivityKind, state: ActivityState, parentId: string, toolCallId: string,
    cause: Cause, originTurnId: string, runId: string, progress: Option<Json>)

  datatype ActionUpdate = ActionUpdate(
    actionId: string, kind: ActionKind, state: ActionState, owner: Owner, runId: string,
    blocksForeground: Option<bool>)

  /** `Unusable` is an event without its payload, or of no known type; `opens` says its type is the snapshot's. */
  datatype Event =
    | SnapshotEvent(snapshot: Snapshot)
    | AcceptedEvent(accepted: PromptAccepted)
    | StateEvent(transition: Transition)
    | ActivityEvent(activity: ActivityRecord)
    | ActionEvent(action: ActionUpdate)
    | Unusable(opens: bool)
  {
    predicate Opens() {
      SnapshotEvent? || (Unusable? && opens)
    }
  }

  datatype Carrier = CarrierUnknown | CarrierSessionInfo | CarrierIneligible

  datatype Delivery = Delivery(streamId: string, sequence: nat, carrier: Carrier, event: Event, frame: Json)

  datatype Negotiated = Negotiated(version: int, updatesOutsidePrompt: bool, activityKinds: seq<ActivityKind>)
  {
    predicate Present() {
      version == 1
    }
  }

  // ---- refusals ----

  datatype ViolationKind =
    | UnsupportedVersion | UnknownField | MalformedEnvelope | UnknownEventType | UnnegotiatedFact
    | IllegalCarrier | DeltaBeforeSnapshot | ConflictingDuplicate | SequenceGap | SequenceRegression
    | StreamCycle | StaleStream | PostTerminalMutation | ImmutableIdentityChange | InconsistentForeground
    | ParentTerminalBeforeChild | ChildAfterParentTerminal | UnknownEntity

  datatype Violation = Violation(kind: ViolationKind, streamId: string, sequence: nat)

  // ---- the projection ----

  datatype TurnRecord = TurnRecord(
    turnId: string, origin: Cause, terminal: bool, outcome: Outcome, submissionId: string,
    clientNonce: string, runId: string, cycleId: string, stopReason: string)

  datatype ActionRecord = ActionRecord(
    actionId: string, kind: ActionKind, state: ActionState, owner: Owner, runId: string, blocksForeground: bool)

  datatype State = State(
    streamId: string, reducedThrough: nat, suppressed: nat, foreground: Option<Foreground>,
    turns: seq<TurnRecord>, activities: seq<ActivityRecord>, actions: seq<ActionRecord>, closed: bool)

  const EMPTY_STATE := State("", 0, 0, None, [], [], [], false)

  function TurnIds(turns: seq<TurnRecord>): (ids: seq<string>)
    ensures |ids| == |turns| && forall i | 0 <= i < |turns| :: ids[i] == turns[i].turnId
  {
    seq(|turns|, i requires 0 <= i < |turns| => turns[i].turnId)
  }

  function ActivityIds(activities: seq<ActivityRecord>): (ids: seq<string>)
    ensures |ids| == |activities| && forall i | 0 <= i < |activities| :: ids[i] == activities[i].activityId
  {
    seq(|activities|, i requires 0 <= i < |activities| => activities[i].activityId)
  }

  function ActionIds(actions: seq<ActionRecord>): (ids: seq<string>)
    ensures |ids| == |actions| && forall i | 0 <= i < |actions| :: ids[i] == actions[i].actionId
  {
    seq(|actions|, i requires 0 <= i < |actions| => actions[i].actionId)
  }

  /** indexOf: the first position holding an identity, or -1. */
  function IndexOf(ids: seq<string>, id: string): (index: int)
    ensures -1 <= index < |ids|
    ensures index >= 0 ==> ids[index] == id && id !in ids[..index]
    ensures index < 0 <==> id !in ids
  {
    if ids == [] then -1
    else if ids[0] == id then 0
    else
      var rest := IndexOf(ids[1..], id);
      if rest < 0 then -1 else rest + 1
  }

  predicate Distinct(ids: seq<string>) {
    forall i, j | 0 <= i < j < |ids| :: ids[i] != ids[j]
  }

  lemma IndexOfDistinct(ids: seq<string>, i: nat)
    requires Distinct(ids) && i < |ids|
    ensures IndexOf(ids, ids[i]) == i
  {
    var k := IndexOf(ids, ids[i]);
    assert ids[i] in ids;
  }

  // ---- structural defects both the decoder and the reducer consult ----

  /** namelessTurnDefect: only a session-caused idle may name no turn. */
  predicate NamelessTurnDefect(t: Transition) {
    t.turnId == "" && !(t.cause.Session? && t.state.Idle?)
  }

  /** endingIdleDefect: an idle naming a turn states its outcome, and a stop reason exactly unless it failed. */
  predicate EndingIdleDefect(t: Transition) {
    t.state.Idle? && t.turnId != ""
    && (t.outcome.NoOutcome? || (t.outcome.Failed? <==> t.stopReason != ""))
  }

  /** foregroundDefect: a live foreground names its turn and that turn's origin, an idle one neither. */
  predicate ForegroundDefect(f: Foreground) {
    || f.state.OtherForeground?
    || f.cycleId == ""
    || (f.state.Idle? <==> f.turnId != "")
    || (f.turnId == "") != f.origin.NoCause?
    || f.origin.Session? || f.origin.OtherCause?
  }

  // ---- projection queries ----

  /** Settled: nothing the stream knows about is live. */
  predicate Settled(s: State) {
    && (s.foreground.Some? ==> s.foreground.value.state.Idle?)
    && (forall i | 0 <= i < |s.activities| :: s.activities[i].state.Terminal())
    && (forall i | 0 <= i < |s.actions| :: s.actions[i].state.Terminal())
  }
}
