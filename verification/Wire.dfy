/**
 The wire form of a lifecycle delivery: the strict decoder and the encoder that must agree with it
 (lifecycle/decode.go, lifecycle/emit.go).

 Each reader is a pair of functions, the value it returns and the first refusal it records. The values
 matter only where nothing was refused. `None` for a notification stands for bytes that are not JSON.
 */
module Wire {
  import opened Wrappers
  import opened Numerals
  import opened Values
  import opened Events
  import opened Vocabulary

  const META_KEY := "acp-go.dev/lifecycle"
  const IDENTIFIER_BOUND: nat := 4096

  type Members = map<string, Json>

  datatype DecodeError = NoEnvelope | RefusedFrame(violation: Violation)

  // ---- reading one member ----

  function Else(a: Option<ViolationKind>, b: Option<ViolationKind>): Option<ViolationKind> {
    if a.Some? then a else b
  }

  function Malformed(defective: bool): Option<ViolationKind> {
    if defective then Some(MalformedEnvelope) else None
  }

  function Unknown(fields: Members, allowed: set<string>): Option<ViolationKind> {
    if fields.Keys <= allowed then None else Some(UnknownField)
  }

  /** The string an identifier reads as; a member that is not a string reads as empty. */
  function Text(fields: Members, key: string): string {
    if key in fields && fields[key].JText? then fields[key].text else ""
  }

  /** identifier: bounded, never empty, and present when required. */
  predicate IdentifierDefect(fields: Members, key: string, required: bool) {
    if key !in fields then required
    else !fields[key].JText? || fields[key].text == "" || |fields[key].text| > IDENTIFIER_BOUND
  }

  /** boolean: absence is not false, but an explicit null reads as false. */
  function Flag(fields: Members, key: string): Option<bool> {
    if key !in fields then None
    else
      match fields[key]
      case JBool(b) => Some(b)
      case JNull => Some(false)
      case _ => None
  }

  predicate FlagDefect(fields: Members, key: string) {
    key in fields && !fields[key].JBool? && !fields[key].JNull?
  }

  /** array: a null reads as the empty array. */
  function Items(fields: Members, key: string): seq<Json> {
    if key in fields && fields[key].JArray? then fields[key].items else []
  }

  predicate ItemsDefect(fields: Members, key: string) {
    key !in fields || (!fields[key].JArray? && !fields[key].JNull?)
  }

  /** The members of an object; anything else has none, and every reader refuses it first. */
  function Object(v: Json): Members {
    if v.JObject? then v.members else map[]
  }

  function Member(fields: Members, key: string): Json {
    if key in fields then fields[key] else JNull
  }

  // ---- reading the entities ----

  function OwnerValue(fields: Members): Owner {
    if !Member(fields, "owner").JObject? then Owner(NoOwner, "")
    else
      var owned := Object(fields["owner"]);
      Owner(ParseOwnerType(Text(owned, "type")), Text(owned, "id"))
  }

  function OwnerDefect(fields: Members): Option<ViolationKind> {
    if "owner" !in fields then None
    else if !fields["owner"].JObject? then Some(MalformedEnvelope)
    else
      var owned := fields["owner"].members;
      Else(Unknown(owned, {"type", "id"}),
           Malformed(IdentifierDefect(owned, "type", true) || IdentifierDefect(owned, "id", true)
                     || OwnerValue(fields).kind.NoOwner? || OwnerValue(fields).kind.OtherOwner?))
  }

  const ACTION_MEMBERS := {"actionId", "kind", "state", "owner", "runId", "blocksForeground"}

  function ActionValue(v: Json): ActionUpdate {
    var f := Object(v);
    ActionUpdate(Text(f, "actionId"), ParseActionKind(Text(f, "kind")), ParseActionState(Text(f, "state")),
                 OwnerValue(f), Text(f, "runId"), Flag(f, "blocksForeground"))
  }

  function ActionDefect(v: Json): Option<ViolationKind> {
    if !v.JObject? then Some(MalformedEnvelope)
    else
      var f := v.members;
      Else(Unknown(f, ACTION_MEMBERS),
      Else(Malformed(IdentifierDefect(f, "actionId", true) || IdentifierDefect(f, "kind", false)
                     || IdentifierDefect(f, "state", true)),
      Else(OwnerDefect(f),
           Malformed(IdentifierDefect(f, "runId", false) || FlagDefect(f, "blocksForeground")
                     || ActionValue(v).kind.OtherActionKind? || ActionValue(v).state.OtherActionState?))))
  }

  const ACTIVITY_MEMBERS :=
    {"activityId", "kind", "state", "parentId", "toolCallId", "cause", "originTurnId", "runId", "progress"}

  function ActivityValue(v: Json): ActivityRecord {
    var f := Object(v);
    ActivityRecord(Text(f, "activityId"), ParseActivityKind(Text(f, "kind")), ParseActivityState(Text(f, "state")),
                   Text(f, "parentId"), Text(f, "toolCallId"), ParseCause(Text(f, "cause")),
                   Text(f, "originTurnId"), Text(f, "runId"),
                   if "progress" in f then Some(f["progress"]) else None)
  }

  function ActivityDefect(v: Json): Option<ViolationKind> {
    if !v.JObject? then Some(MalformedEnvelope)
    else
      var f := v.members;
      Else(Unknown(f, ACTIVITY_MEMBERS),
           Malformed(IdentifierDefect(f, "activityId", true) || IdentifierDefect(f, "kind", false)
                     || IdentifierDefect(f, "state", true) || IdentifierDefect(f, "parentId", false)
                     || IdentifierDefect(f, "toolCallId", false) || IdentifierDefect(f, "cause", false)
                     || IdentifierDefect(f, "originTurnId", false) || IdentifierDefect(f, "runId", false)
                     || ("progress" in f && !f["progress"].JObject?)
                     || ActivityValue(v).kind.OtherActivityKind? || ActivityValue(v).state.OtherActivityState?
                     || ActivityValue(v).cause.OtherCause?))
  }

  function ForegroundValue(v: Json): Foreground {
    var f := Object(v);
    Foreground(ParseForeground(Text(f, "state")), Text(f, "cycleId"), Text(f, "turnId"), ParseCause(Text(f, "origin")))
  }

  function ForegroundReadDefect(v: Json): Option<ViolationKind> {
    if !v.JObject? then Some(MalformedEnvelope)
    else
      var f := v.members;
      Else(Unknown(f, {"state", "cycleId", "turnId", "origin"}),
           Malformed(IdentifierDefect(f, "state", true) || IdentifierDefect(f, "cycleId", true)
                     || IdentifierDefect(f, "turnId", false) || IdentifierDefect(f, "origin", false)
                     || ForegroundDefect(ForegroundValue(v))))
  }

  function ActivityValues(items: seq<Json>): (r: seq<ActivityRecord>)
    ensures |r| == |items|
  {
    seq(|items|, i requires 0 <= i < |items| => ActivityValue(items[i]))
  }

  function ActionValues(items: seq<Json>): (r: seq<ActionUpdate>)
    ensures |r| == |items|
  {
    seq(|items|, i requires 0 <= i < |items| => ActionValue(items[i]))
  }

  function ActivityListDefect(items: seq<Json>): Option<ViolationKind> {
    if items == [] then None else Else(ActivityDefect(items[0]), ActivityListDefect(items[1..]))
  }

  function ActionListDefect(items: seq<Json>): Option<ViolationKind> {
    if items == [] then None else Else(ActionDefect(items[0]), ActionListDefect(items[1..]))
  }

  // ---- reading the five events ----

  function SnapshotValue(f: Members): Snapshot {
    Snapshot(ForegroundValue(Member(f, "foreground")), ActivityValues(Items(f, "activities")),
             ActionValues(Items(f, "actions")))
  }

  function SnapshotReadDefect(f: Members): Option<ViolationKind> {
    Else(Unknown(f, {"type", "foreground", "activities", "actions"}),
    Else(ForegroundReadDefect(Member(f, "foreground")),
    Else(Malformed(ItemsDefect(f, "activities")),
    Else(ActivityListDefect(Items(f, "activities")),
    Else(Malformed(ItemsDefect(f, "actions")),
         ActionListDefect(Items(f, "actions")))))))
  }

  function AcceptedValue(f: Members): PromptAccepted {
    PromptAccepted(Text(f, "submissionId"), Text(f, "clientNonce"), Text(f, "turnId"), Text(f, "runId"))
  }

  function AcceptedDefect(f: Members): Option<ViolationKind> {
    Else(Unknown(f, {"type", "submissionId", "clientNonce", "turnId", "runId"}),
         Malformed(IdentifierDefect(f, "submissionId", true) || IdentifierDefect(f, "clientNonce", true)
                   || IdentifierDefect(f, "turnId", true) || IdentifierDefect(f, "runId", false)))
  }

  function TransitionValue(f: Members): Transition {
    Transition(ParseForeground(Text(f, "state")), Text(f, "cycleId"), Text(f, "turnId"), ParseCause(Text(f, "cause")),
               Text(f, "stopReason"), ParseOutcome(Text(f, "outcome")))
  }

  /** The structural rules of a transition, past its members' own. */
  predicate TransitionRuleDefect(t: Transition) {
    || t.state.OtherForeground?
    || t.cause.NoCause? || t.cause.OtherCause?
    || NamelessTurnDefect(t)
    || (!t.state.Idle? && (t.stopReason != "" || !t.outcome.NoOutcome?))
    || (t.stopReason != "" && !ValidStopReason(t.stopReason))
    || t.outcome.OtherOutcome?
    || EndingIdleDefect(t)
  }

  function TransitionDefect(f: Members): Option<ViolationKind> {
    Else(Unknown(f, {"type", "state", "cycleId", "turnId", "cause", "stopReason", "outcome"}),
         Malformed(IdentifierDefect(f, "state", true) || IdentifierDefect(f, "cycleId", true)
                   || IdentifierDefect(f, "turnId", false) || IdentifierDefect(f, "cause", true)
                   || IdentifierDefect(f, "stopReason", false) || IdentifierDefect(f, "outcome", false)
                   || TransitionRuleDefect(TransitionValue(f))))
  }

  function EventValue(f: Members): Event {
    var name := Text(f, "type");
    if name == "lifecycle_snapshot" then SnapshotEvent(SnapshotValue(f))
    else if name == "prompt_accepted" then AcceptedEvent(AcceptedValue(f))
    else if name == "state_update" then StateEvent(TransitionValue(f))
    else if name == "activity_update" then ActivityEvent(ActivityValue(Member(f, "activity")))
    else if name == "action_update" then ActionEvent(ActionValue(Member(f, "action")))
    else Unusable(false)
  }

  function EventDefect(f: Members): Option<ViolationKind> {
    var name := Text(f, "type");
    if "type" !in f || (!f["type"].JText? && !f["type"].JNull?) then Some(MalformedEnvelope)
    else if name == "lifecycle_snapshot" then SnapshotReadDefect(f)
    else if name == "prompt_accepted" then AcceptedDefect(f)
    else if name == "state_update" then TransitionDefect(f)
    else if name == "activity_update" then
      Else(Unknown(f, {"type", "activity"}), ActivityDefect(Member(f, "activity")))
    else if name == "action_update" then
      Else(Unknown(f, {"type", "action"}), ActionDefect(Member(f, "action")))
    else Some(UnknownEventType)
  }

  // ---- reading the envelope ----

  function SequenceValue(f: Members): nat {
    if "sequence" in f && f["sequence"].JNumber? && ParseUint64(f["sequence"].lexeme).Some?
    then ParseUint64(f["sequence"].lexeme).value else 0
  }

  function VersionDefect(f: Members): Option<ViolationKind> {
    if "version" !in f then Some(MalformedEnvelope)
    else
      match f["version"]
      case JNull => Some(UnsupportedVersion)
      case JNumber(lexeme) =>
        if ParseInt64(lexeme).None? then Some(MalformedEnvelope)
        else if ParseInt64(lexeme).value != 1 then Some(UnsupportedVersion)
        else None
      case _ => Some(MalformedEnvelope)
  }

  function EnvelopeDefect(f: Members): Option<ViolationKind> {
    Else(VersionDefect(f),
    Else(Unknown(f, {"version", "streamId", "sequence", "event"}),
         if !Member(f, "event").JObject? then Some(MalformedEnvelope) else EventDefect(Object(f["event"]))))
  }

  /** The first refusal of an envelope, naming as much of its ordering identity as was read by then. */
  function EnvelopeRefusal(v: Json): Option<Violation> {
    if !v.JObject? then Some(Violation(IllegalCarrier, "", 0))
    else
      var f := v.members;
      if IdentifierDefect(f, "streamId", true) then Some(Violation(MalformedEnvelope, "", 0))
      else if SequenceValue(f) == 0 then Some(Violation(MalformedEnvelope, Text(f, "streamId"), 0))
      else
        match EnvelopeDefect(f)
        case Some(kind) => Some(Violation(kind, Text(f, "streamId"), SequenceValue(f)))
        case None => None
  }

  /** carrierClassForSessionUpdate: only an identity-only session_info_update is eligible. */
  function CarrierOf(update: Option<Json>): Carrier {
    if update.None? || !update.value.JObject? then CarrierUnknown
    else
      var f := update.value.members;
      if "sessionUpdate" !in f || (!f["sessionUpdate"].JText? && !f["sessionUpdate"].JNull?) then CarrierUnknown
      else if Text(f, "sessionUpdate") != "session_info_update" || "title" in f || "updatedAt" in f
      then CarrierIneligible
      else CarrierSessionInfo
  }

  function Lookup(fields: Members, key: string): Option<Json> {
    if key in fields then Some(fields[key]) else None
  }

  /** DecodeSessionUpdate. */
  function Decode(params: Option<Json>, negotiated: Negotiated): Result<Delivery, DecodeError> {
    if params.None? || !params.value.JObject? then Err(RefusedFrame(Violation(MalformedEnvelope, "", 0)))
    else
      var notification := params.value.members;
      var meta := Object(Member(notification, "_meta"));
      if META_KEY !in meta then Err(NoEnvelope)
      else if !negotiated.Present() then Err(RefusedFrame(Violation(UnnegotiatedFact, "", 0)))
      else if EnvelopeRefusal(meta[META_KEY]).Some? then Err(RefusedFrame(EnvelopeRefusal(meta[META_KEY]).value))
      else
        var f := Object(meta[META_KEY]);
        var streamId, sequence := Text(f, "streamId"), SequenceValue(f);
        if CarrierOf(Lookup(notification, "update")) != CarrierSessionInfo
        then Err(RefusedFrame(Violation(IllegalCarrier, streamId, sequence)))
        else Ok(Delivery(streamId, sequence, CarrierSessionInfo, EventValue(Object(Member(f, "event"))), params.value))
  }

  // ---- encoding ----

  /** withOptional: an optional member is omitted rather than emitted empty. */
  function With(m: Members, key: string, value: string): Members {
    if value != "" then m[key := JText(value)] else m
  }

  function EncodeAction(a: ActionUpdate): Members {
    var m := map["actionId" := JText(a.actionId), "state" := JText(ActionStateText(a.state))];
    var m1 := With(With(m, "kind", ActionKindText(a.kind)), "runId", a.runId);
    var m2 := if a.owner.id == "" then m1
              else m1["owner" := JObject(map["type" := JText(OwnerTypeText(a.owner.kind)), "id" := JText(a.owner.id)])];
    if a.blocksForeground.None? then m2 else m2["blocksForeground" := JBool(a.blocksForeground.value)]
  }

  function EncodeActivityIdentity(a: ActivityRecord): Members {
    var m := map["activityId" := JText(a.activityId), "state" := JText(ActivityStateText(a.state))];
    With(With(With(m, "kind", ActivityKindText(a.kind)), "cause", CauseText(a.cause)), "originTurnId", a.originTurnId)
  }

  function EncodeActivity(a: ActivityRecord): Members {
    var m := EncodeActivityIdentity(a);
    var m1 := With(With(With(m, "parentId", a.parentId), "toolCallId", a.toolCallId), "runId", a.runId);
    if a.progress.None? then m1 else m1["progress" := a.progress.value]
  }

  function EncodeForeground(f: Foreground): Members {
    var m := map["state" := JText(ForegroundText(f.state)), "cycleId" := JText(f.cycleId)];
    With(With(m, "turnId", f.turnId), "origin", CauseText(f.origin))
  }

  function EncodeActivities(activities: seq<ActivityRecord>): seq<Json> {
    seq(|activities|, i requires 0 <= i < |activities| => JObject(EncodeActivity(activities[i])))
  }

  function EncodeActions(actions: seq<ActionUpdate>): seq<Json> {
    seq(|actions|, i requires 0 <= i < |actions| => JObject(EncodeAction(actions[i])))
  }

  function EncodeTransition(t: Transition): Members {
    var m := map["type" := JText("state_update"), "state" := JText(ForegroundText(t.state)),
                 "cycleId" := JText(t.cycleId), "cause" := JText(CauseText(t.cause))];
    With(With(With(m, "turnId", t.turnId), "stopReason", t.stopReason), "outcome", OutcomeText(t.outcome))
  }

  /** encodeEvent; an event without a payload renders as nothing. */
  function EncodeEvent(e: Event): Json {
    match e
    case SnapshotEvent(s) => JObject(map[
        "type" := JText("lifecycle_snapshot"), "foreground" := JObject(EncodeForeground(s.foreground)),
        "activities" := JArray(EncodeActivities(s.activities)), "actions" := JArray(EncodeActions(s.actions))])
    case AcceptedEvent(a) => JObject(With(map[
        "type" := JText("prompt_accepted"), "submissionId" := JText(a.submissionId),
        "clientNonce" := JText(a.clientNonce), "turnId" := JText(a.turnId)], "runId", a.runId))
    case StateEvent(t) => JObject(EncodeTransition(t))
    case ActivityEvent(a) => JObject(map["type" := JText("activity_update"), "activity" := JObject(EncodeActivity(a))])
    case ActionEvent(a) => JObject(map["type" := JText("action_update"), "action" := JObject(EncodeAction(a))])
    case Unusable(_) => JNull
  }

  function Envelope(streamId: string, sequence: nat, e: Event): Json {
    JObject(EnvelopeMembers(streamId, sequence, EncodeEvent(e)))
  }

  function EnvelopeMembers(streamId: string, sequence: nat, event: Json): Members {
    map["version" := JNumber("1"), "streamId" := JText(streamId),
        "sequence" := JNumber(Digits(sequence)), "event" := event]
  }

  /** The notification an envelope rides. */
  function Notification(envelope: Json): Json {
    JObject(map["_meta" := JObject(map[META_KEY := envelope]),
                "update" := JObject(map["sessionUpdate" := JText("session_info_update")])])
  }

  // ---- what the decoder's rules admit ----

  predicate Id(s: string) {
    s != "" && |s| <= IDENTIFIER_BOUND
  }

  predicate OptionalId(s: string) {
    |s| <= IDENTIFIER_BOUND
  }

  predicate AdmissibleAction(a: ActionUpdate) {
    && Id(a.actionId) && OptionalId(a.runId)
    && !a.kind.OtherActionKind? && !a.state.OtherActionState?
    && (if a.owner.id == "" then a.owner.kind.NoOwner?
        else Id(a.owner.id) && (a.owner.kind.OwnerTurn? || a.owner.kind.OwnerActivity?))
  }

  predicate AdmissibleActivity(a: ActivityRecord) {
    && Id(a.activityId) && OptionalId(a.parentId) && OptionalId(a.toolCallId) && OptionalId(a.originTurnId)
    && OptionalId(a.runId)
    && !a.kind.OtherActivityKind? && !a.state.OtherActivityState? && !a.cause.OtherCause?
    && (a.progress.Some? ==> a.progress.value.JObject?)
  }

  predicate AdmissibleForeground(f: Foreground) {
    Id(f.cycleId) && OptionalId(f.turnId) && !ForegroundDefect(f)
  }

  predicate AdmissibleTransition(t: Transition) {
    Id(t.cycleId) && OptionalId(t.turnId) && !TransitionRuleDefect(t)
  }

  predicate Admissible(e: Event) {
    match e
    case SnapshotEvent(s) =>
      && AdmissibleForeground(s.foreground)
      && (forall i | 0 <= i < |s.activities| :: AdmissibleActivity(s.activities[i]))
      && (forall i | 0 <= i < |s.actions| :: AdmissibleAction(s.actions[i]))
    case AcceptedEvent(a) => Id(a.submissionId) && Id(a.clientNonce) && Id(a.turnId) && OptionalId(a.runId)
    case StateEvent(t) => AdmissibleTransition(t)
    case ActivityEvent(a) => AdmissibleActivity(a)
    case ActionEvent(a) => AdmissibleAction(a)
    case Unusable(_) => false
  }
}
