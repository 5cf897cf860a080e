/**
 The lifecycle notifications the strict decoder accepts (lifecycle/decode.go), written as the grammar of their
 JSON: which members each object may carry, which it must, and what each may hold.
 */
module WireGrammar {
  import opened Wrappers
  import opened Numerals
  import opened Values
  import opened Events
  import opened Vocabulary
  import opened Wire
  import opened WireRoundTrip

  // ---- members ----

  /** A non-empty string of at most 4096 bytes. */
  predicate IsIdentifier(v: Json) {
    v.JText? && 0 < |v.text| <= 4096
  }

  predicate Must(f: Members, key: string) {
    key in f && IsIdentifier(f[key])
  }

  predicate May(f: Members, key: string) {
    key in f ==> IsIdentifier(f[key])
  }

  /** One of a vocabulary's words. */
  predicate MustBe(f: Members, key: string, words: set<string>) {
    key in f && f[key].JText? && f[key].text in words
  }

  predicate MayBe(f: Members, key: string, words: set<string>) {
    key in f ==> f[key].JText? && f[key].text in words
  }

  predicate Says(f: Members, key: string, word: string) {
    key in f && f[key] == JText(word)
  }

  // ---- entities ----

  predicate IsOwner(v: Json) {
    && v.JObject? && v.members.Keys <= {"type", "id"}
    && MustBe(v.members, "type", {"turn", "activity"}) && Must(v.members, "id")
  }

  predicate IsAction(v: Json) {
    v.JObject? &&
    var f := v.members;
    && f.Keys <= {"actionId", "kind", "state", "owner", "runId", "blocksForeground"}
    && Must(f, "actionId") && May(f, "runId")
    && MayBe(f, "kind", {"permission", "elicitation"})
    && MustBe(f, "state", {"pending", "accepted", "declined", "cancelled", "failed"})
    && ("owner" in f ==> IsOwner(f["owner"]))
    && ("blocksForeground" in f ==> f["blocksForeground"].JBool? || f["blocksForeground"].JNull?)
  }

  predicate IsActivity(v: Json) {
    v.JObject? &&
    var f := v.members;
    && f.Keys <= {"activityId", "kind", "state", "parentId", "toolCallId", "cause", "originTurnId", "runId", "progress"}
    && Must(f, "activityId") && May(f, "parentId") && May(f, "toolCallId") && May(f, "originTurnId") && May(f, "runId")
    && MayBe(f, "kind", {"task", "subagent"}) && MayBe(f, "cause", {"submission", "activity", "session"})
    && MustBe(f, "state", {"pending", "running", "requires_action", "completed", "failed", "cancelled"})
    && ("progress" in f ==> f["progress"].JObject?)
  }

  /** A live foreground states its turn and what that turn came from, an idle one neither. */
  predicate IsForeground(v: Json) {
    v.JObject? &&
    var f := v.members;
    && f.Keys <= {"state", "cycleId", "turnId", "origin"}
    && MustBe(f, "state", {"running", "idle", "requires_action"}) && Must(f, "cycleId")
    && (if Says(f, "state", "idle") then "turnId" !in f && "origin" !in f
        else Must(f, "turnId") && MustBe(f, "origin", {"submission", "activity"}))
  }

  // ---- events ----

  predicate IsList(f: Members, key: string) {
    key in f && (f[key].JArray? || f[key].JNull?)
  }

  predicate IsSnapshot(f: Members) {
    && f.Keys <= {"type", "foreground", "activities", "actions"}
    && "foreground" in f && IsForeground(f["foreground"]) && IsList(f, "activities") && IsList(f, "actions")
    && (forall v | v in Items(f, "activities") :: IsActivity(v))
    && (forall v | v in Items(f, "actions") :: IsAction(v))
  }

  predicate IsAcceptance(f: Members) {
    && f.Keys <= {"type", "submissionId", "clientNonce", "turnId", "runId"}
    && Must(f, "submissionId") && Must(f, "clientNonce") && Must(f, "turnId") && May(f, "runId")
  }

  /**
   Only a session's idle states no turn; a live transition states neither outcome nor reason; an ending states its
   outcome, and a reason exactly unless it failed.
   */
  predicate IsTransition(f: Members) {
    && f.Keys <= {"type", "state", "cycleId", "turnId", "cause", "stopReason", "outcome"}
    && MustBe(f, "state", {"running", "idle", "requires_action"}) && Must(f, "cycleId") && May(f, "turnId")
    && MustBe(f, "cause", {"submission", "activity", "session"})
    && MayBe(f, "stopReason", {"end_turn", "max_tokens", "max_turn_requests", "refusal", "cancelled"})
    && MayBe(f, "outcome", {"success", "refused", "cancelled", "limit", "failed"})
    && ("turnId" !in f ==> Says(f, "state", "idle") && Says(f, "cause", "session"))
    && (!Says(f, "state", "idle") ==> "stopReason" !in f && "outcome" !in f)
    && (Says(f, "state", "idle") && "turnId" in f ==>
          "outcome" in f && (Says(f, "outcome", "failed") <==> "stopReason" !in f))
  }

  predicate IsEvent(f: Members) {
    || (Says(f, "type", "lifecycle_snapshot") && IsSnapshot(f))
    || (Says(f, "type", "prompt_accepted") && IsAcceptance(f))
    || (Says(f, "type", "state_update") && IsTransition(f))
    || (Says(f, "type", "activity_update") && f.Keys == {"type", "activity"} && IsActivity(f["activity"]))
    || (Says(f, "type", "action_update") && f.Keys == {"type", "action"} && IsAction(f["action"]))
  }

  // ---- notifications ----

  predicate IsVersionOne(v: Json) {
    v.JNumber? && ParseInt64(v.lexeme) == Some(1)
  }

  predicate IsPositive(v: Json) {
    v.JNumber? && ParseUint64(v.lexeme).Some? && ParseUint64(v.lexeme).value > 0
  }

  predicate IsEnvelope(v: Json) {
    v.JObject? &&
    var f := v.members;
    && f.Keys == {"version", "streamId", "sequence", "event"}
    && IsVersionOne(f["version"]) && IsIdentifier(f["streamId"]) && IsPositive(f["sequence"])
    && f["event"].JObject? && IsEvent(f["event"].members)
  }

  /** An identity-only session_info_update. */
  predicate IsCarrier(v: Json) {
    && v.JObject? && Says(v.members, "sessionUpdate", "session_info_update")
    && "title" !in v.members && "updatedAt" !in v.members
  }

  predicate IsNotification(v: Json) {
    v.JObject? &&
    var f := v.members;
    && "_meta" in f && f["_meta"].JObject? && META_KEY in f["_meta"].members
    && IsEnvelope(f["_meta"].members[META_KEY])
    && "update" in f && IsCarrier(f["update"])
  }

  // ---- the decoder accepts exactly these ----

  lemma MustMeans(f: Members, key: string)
    ensures Must(f, key) <==> !IdentifierDefect(f, key, true)
    ensures May(f, key) <==> !IdentifierDefect(f, key, false)
    ensures key in f && !IdentifierDefect(f, key, false) ==> f[key].JText? && Text(f, key) == f[key].text != ""
    ensures key !in f ==> Text(f, key) == ""
  {
  }

  lemma OwnerAccepted(f: Members)
    requires "owner" in f
    ensures OwnerDefect(f).None? <==> IsOwner(f["owner"])
  {
    if f["owner"].JObject? {
      MustMeans(f["owner"].members, "type");
      MustMeans(f["owner"].members, "id");
    }
  }

  lemma ActionWords(f: Members)
    ensures !IdentifierDefect(f, "kind", false) && !ParseActionKind(Text(f, "kind")).OtherActionKind?
            <==> MayBe(f, "kind", {"permission", "elicitation"})
    ensures !IdentifierDefect(f, "state", true) && !ParseActionState(Text(f, "state")).OtherActionState?
            <==> MustBe(f, "state", {"pending", "accepted", "declined", "cancelled", "failed"})
  {
  }

  lemma ActionAccepted(v: Json)
    ensures ActionDefect(v).None? <==> IsAction(v)
  {
    if v.JObject? {
      var f := v.members;
      MustMeans(f, "actionId");
      MustMeans(f, "runId");
      ActionWords(f);
      if "owner" in f { OwnerAccepted(f); }
    }
  }

  lemma ActivityWords(f: Members)
    ensures !IdentifierDefect(f, "kind", false) && !ParseActivityKind(Text(f, "kind")).OtherActivityKind?
            <==> MayBe(f, "kind", {"task", "subagent"})
    ensures !IdentifierDefect(f, "cause", false) && !ParseCause(Text(f, "cause")).OtherCause?
            <==> MayBe(f, "cause", {"submission", "activity", "session"})
    ensures !IdentifierDefect(f, "state", true) && !ParseActivityState(Text(f, "state")).OtherActivityState?
            <==> MustBe(f, "state", {"pending", "running", "requires_action", "completed", "failed", "cancelled"})
  {
  }

  lemma ActivityAccepted(v: Json)
    ensures ActivityDefect(v).None? <==> IsActivity(v)
  {
    if v.JObject? {
      var f := v.members;
      ActivityWords(f);
      MustMeans(f, "activityId");
      MustMeans(f, "parentId");
      MustMeans(f, "toolCallId");
      MustMeans(f, "originTurnId");
      MustMeans(f, "runId");
    }
  }

  lemma StateWords(f: Members)
    ensures !IdentifierDefect(f, "state", true) && !ParseForeground(Text(f, "state")).OtherForeground?
            <==> MustBe(f, "state", {"running", "idle", "requires_action"})
    ensures ParseForeground(Text(f, "state")).Idle? <==> Says(f, "state", "idle")
  {
  }

  lemma ForegroundAccepted(v: Json)
    ensures ForegroundReadDefect(v).None? <==> IsForeground(v)
  {
    if v.JObject? {
      var f := v.members;
      StateWords(f);
      MustMeans(f, "cycleId");
      MustMeans(f, "turnId");
      MustMeans(f, "origin");
    }
  }

  lemma SnapshotAccepted(f: Members)
    ensures SnapshotReadDefect(f).None? <==> IsSnapshot(f)
  {
    ForegroundAccepted(Member(f, "foreground"));
    CleanActivityList(Items(f, "activities"));
    CleanActionList(Items(f, "actions"));
    forall v ensures ActivityDefect(v).None? <==> IsActivity(v) { ActivityAccepted(v); }
    forall v ensures ActionDefect(v).None? <==> IsAction(v) { ActionAccepted(v); }
  }

  lemma AcceptanceAccepted(f: Members)
    ensures AcceptedDefect(f).None? <==> IsAcceptance(f)
  {
    MustMeans(f, "submissionId");
    MustMeans(f, "clientNonce");
    MustMeans(f, "turnId");
    MustMeans(f, "runId");
  }

  lemma TransitionWords(f: Members)
    ensures !IdentifierDefect(f, "cause", true) && !ParseCause(Text(f, "cause")).OtherCause?
            <==> MustBe(f, "cause", {"submission", "activity", "session"})
    ensures ParseCause(Text(f, "cause")).Session? <==> Says(f, "cause", "session")
    ensures ParseCause(Text(f, "cause")).NoCause? <==> Text(f, "cause") == ""
    ensures !IdentifierDefect(f, "outcome", false) && !ParseOutcome(Text(f, "outcome")).OtherOutcome?
            <==> MayBe(f, "outcome", {"success", "refused", "cancelled", "limit", "failed"})
    ensures ParseOutcome(Text(f, "outcome")).Failed? <==> Says(f, "outcome", "failed")
    ensures ParseOutcome(Text(f, "outcome")).NoOutcome? <==> Text(f, "outcome") == ""
    ensures !IdentifierDefect(f, "stopReason", false)
            && (Text(f, "stopReason") == "" || ValidStopReason(Text(f, "stopReason")))
            <==> MayBe(f, "stopReason", {"end_turn", "max_tokens", "max_turn_requests", "refusal", "cancelled"})
  {
  }

  lemma TransitionAccepted(f: Members)
    ensures TransitionDefect(f).None? <==> IsTransition(f)
  {
    StateWords(f);
    TransitionWords(f);
    MustMeans(f, "cycleId");
    MustMeans(f, "turnId");
    MustMeans(f, "cause");
    MustMeans(f, "stopReason");
    MustMeans(f, "outcome");
  }

  lemma ActivityUpdateAccepted(f: Members)
    requires Says(f, "type", "activity_update")
    ensures EventDefect(f).None? <==> f.Keys == {"type", "activity"} && IsActivity(f["activity"])
  {
    ActivityAccepted(Member(f, "activity"));
  }

  lemma ActionUpdateAccepted(f: Members)
    requires Says(f, "type", "action_update")
    ensures EventDefect(f).None? <==> f.Keys == {"type", "action"} && IsAction(f["action"])
  {
    ActionAccepted(Member(f, "action"));
  }

  lemma EventAccepted(f: Members)
    ensures EventDefect(f).None? <==> IsEvent(f)
  {
    if Says(f, "type", "lifecycle_snapshot") {
      SnapshotAccepted(f);
    } else if Says(f, "type", "prompt_accepted") {
      AcceptanceAccepted(f);
    } else if Says(f, "type", "state_update") {
      TransitionAccepted(f);
    } else if Says(f, "type", "activity_update") {
      ActivityUpdateAccepted(f);
    } else if Says(f, "type", "action_update") {
      ActionUpdateAccepted(f);
    }
  }

  lemma EnvelopeAccepted(v: Json)
    ensures EnvelopeRefusal(v).None? <==> IsEnvelope(v)
  {
    if v.JObject? {
      MustMeans(v.members, "streamId");
      if Member(v.members, "event").JObject? { EventAccepted(Object(v.members["event"])); }
    }
  }

  lemma CarrierAccepted(update: Option<Json>)
    ensures CarrierOf(update) == CarrierSessionInfo <==> update.Some? && IsCarrier(update.value)
  {
  }

  /** The decoder accepts a notification exactly when its offer was accepted and the JSON is of this grammar. */
  lemma DecodesExactly(params: Option<Json>, negotiated: Negotiated)
    ensures Decode(params, negotiated).Ok? <==>
            negotiated.Present() && params.Some? && IsNotification(params.value)
  {
    if params.Some? && params.value.JObject? {
      var meta := Object(Member(params.value.members, "_meta"));
      if META_KEY in meta { EnvelopeAccepted(meta[META_KEY]); }
      CarrierAccepted(Lookup(params.value.members, "update"));
    }
  }

  // ---- the refusals ----

  /** What names the frame: its stream, and a sequence above zero. */
  predicate Named(f: Members) {
    Must(f, "streamId") && "sequence" in f && IsPositive(f["sequence"])
  }

  /** A null counts as a version nobody supports. */
  predicate StatesVersion(f: Members) {
    "version" in f && (f["version"].JNull? || (f["version"].JNumber? && ParseInt64(f["version"].lexeme).Some?))
  }

  predicate StatesType(f: Members) {
    "event" in f && f["event"].JObject? &&
    var event := f["event"].members; "type" in event && (event["type"].JText? || event["type"].JNull?)
  }

  predicate KnownType(event: Members) {
    MustBe(event, "type", {"lifecycle_snapshot", "prompt_accepted", "state_update", "activity_update", "action_update"})
  }

  /** The refusal of an envelope whose ordering identity could be read, if there is one. */
  predicate RefusedFor(kind: Option<ViolationKind>, f: Members) {
    var versioned := StatesVersion(f) && IsVersionOne(f["version"]);
    var contained := versioned && f.Keys <= {"version", "streamId", "sequence", "event"};
    && (!StatesVersion(f) ==> kind == Some(MalformedEnvelope))
    && (kind == Some(UnsupportedVersion) <==> StatesVersion(f) && !IsVersionOne(f["version"]))
    && (versioned && !contained ==> kind == Some(UnknownField))
    && (contained && !StatesType(f) ==> kind == Some(MalformedEnvelope))
    && (kind == Some(UnknownEventType) <==> contained && StatesType(f) && !KnownType(f["event"].members))
    && (contained && StatesType(f) && KnownType(f["event"].members) ==>
          && (kind.None? <==> IsEvent(f["event"].members))
          && (kind.Some? ==> kind.value.UnknownField? || kind.value.MalformedEnvelope?))
  }

  lemma {:induction false} ActivityListKinds(items: seq<Json>)
    ensures ActivityListDefect(items) in {None, Some(UnknownField), Some(MalformedEnvelope)}
  {
    if items != [] { ActivityListKinds(items[1..]); }
  }

  lemma {:induction false} ActionListKinds(items: seq<Json>)
    ensures ActionListDefect(items) in {None, Some(UnknownField), Some(MalformedEnvelope)}
  {
    if items != [] { ActionListKinds(items[1..]); }
  }

  lemma KnownEventKinds(event: Members)
    requires KnownType(event)
    ensures EventDefect(event) in {None, Some(UnknownField), Some(MalformedEnvelope)}
  {
    if Text(event, "type") == "lifecycle_snapshot" {
      ActivityListKinds(Items(event, "activities"));
      ActionListKinds(Items(event, "actions"));
    }
  }

  lemma EnvelopeRefusedFor(f: Members)
    requires Named(f)
    ensures RefusedFor(EnvelopeDefect(f), f)
    ensures EnvelopeRefusal(JObject(f))
            == match EnvelopeDefect(f)
               case None => None
               case Some(kind) => Some(Violation(kind, f["streamId"].text, ParseUint64(f["sequence"].lexeme).value))
  {
    if StatesType(f) {
      var event := f["event"].members;
      if KnownType(event) { KnownEventKinds(event); EventAccepted(event); }
    }
  }

  /** The notification carries a lifecycle envelope. */
  predicate CarriesEnvelope(n: Json) {
    n.JObject? && "_meta" in n.members && n.members["_meta"].JObject? && META_KEY in n.members["_meta"].members
  }

  function EnvelopeIn(n: Json): Json
    requires CarriesEnvelope(n)
  {
    n.members["_meta"].members[META_KEY]
  }

  /** What is refused before any member of an envelope is judged. */
  lemma RefusedUnread(params: Option<Json>, negotiated: Negotiated)
    ensures var r := Decode(params, negotiated);
            var isObject := params.Some? && params.value.JObject?;
            && (!isObject ==> r == Err(RefusedFrame(Violation(MalformedEnvelope, "", 0))))
            && (r == Err(NoEnvelope) <==> isObject && !CarriesEnvelope(params.value))
            && (isObject && CarriesEnvelope(params.value) && !negotiated.Present() ==>
                  r == Err(RefusedFrame(Violation(UnnegotiatedFact, "", 0))))
            && (isObject && CarriesEnvelope(params.value) && negotiated.Present() ==>
                  var v := EnvelopeIn(params.value);
                  && (!v.JObject? ==> r == Err(RefusedFrame(Violation(IllegalCarrier, "", 0))))
                  && (v.JObject? && !Must(v.members, "streamId") ==>
                        r == Err(RefusedFrame(Violation(MalformedEnvelope, "", 0))))
                  && (v.JObject? && Must(v.members, "streamId") && !Named(v.members) ==>
                        r == Err(RefusedFrame(Violation(MalformedEnvelope, v.members["streamId"].text, 0)))))
  {
  }

  /** A named envelope is refused by its members, in their order, and only then for what carries it. */
  lemma RefusedByMembers(n: Json, negotiated: Negotiated)
    requires CarriesEnvelope(n) && negotiated.Present() && EnvelopeIn(n).JObject? && Named(EnvelopeIn(n).members)
    ensures var r, f := Decode(Some(n), negotiated), EnvelopeIn(n).members;
            var streamId, sequence := f["streamId"].text, ParseUint64(f["sequence"].lexeme).value;
            && RefusedFor(EnvelopeDefect(f), f)
            && (EnvelopeDefect(f).Some? ==>
                  r == Err(RefusedFrame(Violation(EnvelopeDefect(f).value, streamId, sequence))))
            && (EnvelopeDefect(f).None? && !("update" in n.members && IsCarrier(n.members["update"])) ==>
                  r == Err(RefusedFrame(Violation(IllegalCarrier, streamId, sequence))))
  {
    var f := EnvelopeIn(n).members;
    EnvelopeRefusedFor(f);
    assert EnvelopeIn(n) == JObject(f);
    CarrierAccepted(Lookup(n.members, "update"));
  }
}
