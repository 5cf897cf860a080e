/**
 Encoding and decoding are inverse on exactly the events the decoder's rules admit (lifecycle/emit.go,
 lifecycle/decode.go).
 */
module WireRoundTrip {
  import opened Wrappers
  import opened Numerals
  import opened Values
  import opened Events
  import opened Vocabulary
  import opened Wire

  // ---- members ----

  /** The member is present exactly when it has a value, and spells it. */
  predicate Carries(f: Members, key: string, value: string) {
    if value == "" then key !in f else key in f && f[key] == JText(value)
  }

  lemma CarriedText(f: Members, key: string, value: string)
    requires Carries(f, key, value)
    ensures Text(f, key) == value
    ensures OptionalId(value) ==> !IdentifierDefect(f, key, false)
    ensures Id(value) ==> !IdentifierDefect(f, key, true)
  {
  }

  // ---- one entity at a time ----

  lemma OwnerRoundTrip(f: Members, owner: Owner)
    requires owner.id == "" ==> owner.kind.NoOwner? && "owner" !in f
    requires owner.id != "" ==>
               && Id(owner.id) && (owner.kind.OwnerTurn? || owner.kind.OwnerActivity?)
               && "owner" in f
               && f["owner"] == JObject(map["type" := JText(OwnerTypeText(owner.kind)), "id" := JText(owner.id)])
    ensures OwnerValue(f) == owner && OwnerDefect(f).None?
  {
  }

  lemma EncodedAction(a: ActionUpdate)
    requires a.actionId != ""
    ensures var f := EncodeAction(a);
            && Carries(f, "actionId", a.actionId) && Carries(f, "state", ActionStateText(a.state))
            && Carries(f, "kind", ActionKindText(a.kind)) && Carries(f, "runId", a.runId)
            && Flag(f, "blocksForeground") == a.blocksForeground && !FlagDefect(f, "blocksForeground")
            && ("owner" in f <==> a.owner.id != "")
            && ("owner" in f ==>
                  f["owner"] == JObject(map["type" := JText(OwnerTypeText(a.owner.kind)), "id" := JText(a.owner.id)]))
            && Unknown(f, ACTION_MEMBERS).None?
    requires ActionStateText(a.state) != ""
  {
  }

  lemma ActionRoundTrip(a: ActionUpdate)
    requires AdmissibleAction(a)
    ensures var v := JObject(EncodeAction(a)); ActionDefect(v).None? && ActionValue(v) == a
  {
    var f := EncodeAction(a);
    EncodedAction(a);
    CarriedText(f, "actionId", a.actionId);
    CarriedText(f, "state", ActionStateText(a.state));
    CarriedText(f, "kind", ActionKindText(a.kind));
    CarriedText(f, "runId", a.runId);
    OwnerRoundTrip(f, a.owner);
  }

  /** An explicit null for the flag reads as false, not as absent. */
  lemma NullFlagReadsFalse(a: ActionUpdate)
    requires AdmissibleAction(a) && a.blocksForeground == Some(false)
    ensures var v := JObject(EncodeAction(a)["blocksForeground" := JNull]); ActionDefect(v).None? && ActionValue(v) == a
  {
    var f, g := EncodeAction(a), EncodeAction(a)["blocksForeground" := JNull];
    ActionRoundTrip(a);
    EncodedAction(a);
    assert g.Keys <= ACTION_MEMBERS by { assert f.Keys <= ACTION_MEMBERS; }
    assert OwnerDefect(g) == OwnerDefect(f) && OwnerValue(g) == OwnerValue(f);
  }

  /** A null list reads as the empty one. */
  lemma NullListReadsEmpty(f: Members)
    requires SnapshotReadDefect(f).None? && Items(f, "activities") == []
    ensures var g := f["activities" := JNull]; SnapshotReadDefect(g).None? && SnapshotValue(g) == SnapshotValue(f)
  {
    var g := f["activities" := JNull];
    assert g.Keys == f.Keys;
    assert Member(g, "foreground") == Member(f, "foreground") && Items(g, "actions") == Items(f, "actions");
    assert ActivityValues(Items(g, "activities")) == ActivityValues(Items(f, "activities"));
  }

  lemma EncodedActivityIdentity(a: ActivityRecord)
    requires a.activityId != "" && ActivityStateText(a.state) != ""
    ensures var f := EncodeActivityIdentity(a);
            && Carries(f, "activityId", a.activityId) && Carries(f, "state", ActivityStateText(a.state))
            && Carries(f, "kind", ActivityKindText(a.kind)) && Carries(f, "cause", CauseText(a.cause))
            && Carries(f, "originTurnId", a.originTurnId)
            && f.Keys <= {"activityId", "state", "kind", "cause", "originTurnId"}
  {
  }

  lemma ExtendedActivity(m: Members, parent: string, tool: string, run: string, progress: Option<Json>)
    requires m.Keys <= {"activityId", "state", "kind", "cause", "originTurnId"}
    ensures var m1 := With(With(With(m, "parentId", parent), "toolCallId", tool), "runId", run);
            var f := if progress.None? then m1 else m1["progress" := progress.value];
            && (forall k | k in ["activityId", "state", "kind", "cause", "originTurnId"] ::
                  Lookup(f, k) == Lookup(m, k))
            && Carries(f, "parentId", parent) && Carries(f, "toolCallId", tool) && Carries(f, "runId", run)
            && Lookup(f, "progress") == progress
            && Unknown(f, ACTIVITY_MEMBERS).None?
  {
  }

  lemma CarriesLookup(f: Members, m: Members, key: string, value: string)
    requires Lookup(f, key) == Lookup(m, key) && Carries(m, key, value)
    ensures Carries(f, key, value)
  {
  }

  lemma EncodedActivity(a: ActivityRecord)
    requires a.activityId != "" && ActivityStateText(a.state) != ""
    ensures var f := EncodeActivity(a);
            && Carries(f, "activityId", a.activityId) && Carries(f, "state", ActivityStateText(a.state))
            && Carries(f, "kind", ActivityKindText(a.kind)) && Carries(f, "cause", CauseText(a.cause))
            && Carries(f, "originTurnId", a.originTurnId) && Carries(f, "parentId", a.parentId)
            && Carries(f, "toolCallId", a.toolCallId) && Carries(f, "runId", a.runId)
            && Lookup(f, "progress") == a.progress
            && Unknown(f, ACTIVITY_MEMBERS).None?
  {
    var m, f := EncodeActivityIdentity(a), EncodeActivity(a);
    EncodedActivityIdentity(a);
    ExtendedActivity(m, a.parentId, a.toolCallId, a.runId, a.progress);
    CarriesLookup(f, m, "activityId", a.activityId);
    CarriesLookup(f, m, "state", ActivityStateText(a.state));
    CarriesLookup(f, m, "kind", ActivityKindText(a.kind));
    CarriesLookup(f, m, "cause", CauseText(a.cause));
    CarriesLookup(f, m, "originTurnId", a.originTurnId);
  }

  lemma ActivityRoundTrip(a: ActivityRecord)
    requires AdmissibleActivity(a)
    ensures var v := JObject(EncodeActivity(a)); ActivityDefect(v).None? && ActivityValue(v) == a
  {
    var f := EncodeActivity(a);
    EncodedActivity(a);
    CarriedText(f, "activityId", a.activityId);
    CarriedText(f, "state", ActivityStateText(a.state));
    CarriedText(f, "kind", ActivityKindText(a.kind));
    CarriedText(f, "cause", CauseText(a.cause));
    CarriedText(f, "originTurnId", a.originTurnId);
    CarriedText(f, "parentId", a.parentId);
    CarriedText(f, "toolCallId", a.toolCallId);
    CarriedText(f, "runId", a.runId);
  }

  lemma ForegroundRoundTrip(f: Foreground)
    requires AdmissibleForeground(f)
    ensures var v := JObject(EncodeForeground(f)); ForegroundReadDefect(v).None? && ForegroundValue(v) == f
  {
  }

  lemma TransitionRoundTrip(t: Transition)
    requires AdmissibleTransition(t)
    ensures TransitionDefect(EncodeTransition(t)).None? && TransitionValue(EncodeTransition(t)) == t
  {
  }

  // ---- lists and events ----

  lemma {:induction false} CleanActivityList(items: seq<Json>)
    ensures ActivityListDefect(items).None? <==> forall i | 0 <= i < |items| :: ActivityDefect(items[i]).None?
  {
    if items != [] {
      CleanActivityList(items[1..]);
      ActivityListStep(items);
      assert forall i | 0 < i < |items| :: items[i] == items[1..][i - 1];
    }
  }

  lemma ActivityListStep(items: seq<Json>)
    requires items != []
    ensures ActivityListDefect(items).None? <==> ActivityDefect(items[0]).None? && ActivityListDefect(items[1..]).None?
  {
  }

  lemma {:induction false} CleanActionList(items: seq<Json>)
    ensures ActionListDefect(items).None? <==> forall i | 0 <= i < |items| :: ActionDefect(items[i]).None?
  {
    if items != [] {
      CleanActionList(items[1..]);
      assert forall i | 0 < i < |items| :: items[i] == items[1..][i - 1];
    }
  }

  lemma ActivitiesRoundTrip(activities: seq<ActivityRecord>)
    requires forall i | 0 <= i < |activities| :: AdmissibleActivity(activities[i])
    ensures ActivityListDefect(EncodeActivities(activities)).None?
    ensures ActivityValues(EncodeActivities(activities)) == activities
  {
    var items := EncodeActivities(activities);
    forall i | 0 <= i < |activities|
      ensures ActivityDefect(items[i]).None? && ActivityValue(items[i]) == activities[i]
    {
      ActivityRoundTrip(activities[i]);
    }
    CleanActivityList(items);
  }

  lemma ActionsRoundTrip(actions: seq<ActionUpdate>)
    requires forall i | 0 <= i < |actions| :: AdmissibleAction(actions[i])
    ensures ActionListDefect(EncodeActions(actions)).None?
    ensures ActionValues(EncodeActions(actions)) == actions
  {
    var items := EncodeActions(actions);
    forall i | 0 <= i < |actions| ensures ActionDefect(items[i]).None? && ActionValue(items[i]) == actions[i] {
      ActionRoundTrip(actions[i]);
    }
    CleanActionList(items);
  }

  lemma SnapshotRoundTrip(s: Snapshot)
    requires Admissible(SnapshotEvent(s))
    ensures var f := Object(EncodeEvent(SnapshotEvent(s))); SnapshotReadDefect(f).None? && SnapshotValue(f) == s
  {
    var f := Object(EncodeEvent(SnapshotEvent(s)));
    assert Member(f, "foreground") == JObject(EncodeForeground(s.foreground));
    assert Items(f, "activities") == EncodeActivities(s.activities) && Items(f, "actions") == EncodeActions(s.actions);
    ForegroundRoundTrip(s.foreground);
    ActivitiesRoundTrip(s.activities);
    ActionsRoundTrip(s.actions);
  }

  lemma AcceptedRoundTrip(a: PromptAccepted)
    requires Admissible(AcceptedEvent(a))
    ensures var f := Object(EncodeEvent(AcceptedEvent(a))); AcceptedDefect(f).None? && AcceptedValue(f) == a
  {
  }

  ghost predicate ReadsBack(e: Event) {
    EncodeEvent(e).JObject? && var f := Object(EncodeEvent(e)); EventDefect(f).None? && EventValue(f) == e
  }

  lemma SnapshotEventRoundTrip(s: Snapshot)
    requires Admissible(SnapshotEvent(s))
    ensures ReadsBack(SnapshotEvent(s))
  {
    SnapshotRoundTrip(s);
    SnapshotTyped(Object(EncodeEvent(SnapshotEvent(s))));
  }

  lemma SnapshotTyped(f: Members)
    requires "type" in f && f["type"] == JText("lifecycle_snapshot")
    ensures EventDefect(f) == SnapshotReadDefect(f) && EventValue(f) == SnapshotEvent(SnapshotValue(f))
  {
  }

  lemma TransitionEventRoundTrip(t: Transition)
    requires AdmissibleTransition(t)
    ensures ReadsBack(StateEvent(t))
  {
    TransitionRoundTrip(t);
    assert Text(EncodeTransition(t), "type") == "state_update";
  }

  lemma ActivityEventRoundTrip(a: ActivityRecord)
    requires AdmissibleActivity(a)
    ensures ReadsBack(ActivityEvent(a))
  {
    ActivityRoundTrip(a);
    assert Text(Object(EncodeEvent(ActivityEvent(a))), "type") == "activity_update";
  }

  lemma ActionEventRoundTrip(a: ActionUpdate)
    requires AdmissibleAction(a)
    ensures ReadsBack(ActionEvent(a))
  {
    ActionRoundTrip(a);
    assert Text(Object(EncodeEvent(ActionEvent(a))), "type") == "action_update";
  }

  lemma AcceptedEventRoundTrip(a: PromptAccepted)
    requires Admissible(AcceptedEvent(a))
    ensures ReadsBack(AcceptedEvent(a))
  {
    AcceptedRoundTrip(a);
    assert Text(Object(EncodeEvent(AcceptedEvent(a))), "type") == "prompt_accepted";
  }

  lemma EventRoundTrip(e: Event)
    requires Admissible(e)
    ensures ReadsBack(e)
  {
    match e
    case SnapshotEvent(s) => SnapshotEventRoundTrip(s);
    case AcceptedEvent(a) => AcceptedEventRoundTrip(a);
    case StateEvent(t) => TransitionEventRoundTrip(t);
    case ActivityEvent(a) => ActivityEventRoundTrip(a);
    case ActionEvent(a) => ActionEventRoundTrip(a);
  }

  // ---- whole notifications ----

  lemma ParseOne()
    ensures ParseInt64("1") == Some(1)
  {
    assert "1"[..0] == "" && Dec("1") == 1;
  }

  lemma EnvelopeMembersRead(streamId: string, sequence: nat, event: Json)
    requires Id(streamId) && 0 < sequence < UINT64_BOUND && event.JObject?
    ensures var f := EnvelopeMembers(streamId, sequence, event);
            && !IdentifierDefect(f, "streamId", true) && Text(f, "streamId") == streamId
            && SequenceValue(f) == sequence
            && VersionDefect(f).None? && Unknown(f, {"version", "streamId", "sequence", "event"}).None?
            && "event" in f && f["event"] == event
  {
    ParseOne();
  }

  lemma EnvelopeRoundTrip(streamId: string, sequence: nat, e: Event)
    requires Id(streamId) && 0 < sequence < UINT64_BOUND && ReadsBack(e)
    ensures var v := Envelope(streamId, sequence, e);
            && EnvelopeRefusal(v).None?
            && Text(v.members, "streamId") == streamId && SequenceValue(v.members) == sequence
            && Member(v.members, "event") == EncodeEvent(e)
  {
    EnvelopeMembersRead(streamId, sequence, EncodeEvent(e));
  }

  lemma NotificationRead(envelope: Json)
    ensures var n := Notification(envelope);
            && n.JObject? && Object(Member(n.members, "_meta")) == map[META_KEY := envelope]
            && CarrierOf(Lookup(n.members, "update")) == CarrierSessionInfo
  {
  }

  /** Decoding a rendered notification returns the event, stream and sequence it was rendered from. */
  lemma EncodeThenDecode(streamId: string, sequence: nat, e: Event, negotiated: Negotiated)
    requires Id(streamId) && 0 < sequence < UINT64_BOUND && Admissible(e) && negotiated.Present()
    ensures var n := Notification(Envelope(streamId, sequence, e));
            Decode(Some(n), negotiated) == Ok(Delivery(streamId, sequence, CarrierSessionInfo, e, n))
  {
    EventRoundTrip(e);
    EnvelopeRoundTrip(streamId, sequence, e);
    NotificationRead(Envelope(streamId, sequence, e));
  }

  lemma ReadActivityAdmissible(v: Json)
    requires ActivityDefect(v).None?
    ensures AdmissibleActivity(ActivityValue(v))
  {
  }

  lemma ReadActionAdmissible(v: Json)
    requires ActionDefect(v).None?
    ensures AdmissibleAction(ActionValue(v))
  {
  }

  lemma ReadSnapshotAdmissible(f: Members)
    requires SnapshotReadDefect(f).None?
    ensures Admissible(SnapshotEvent(SnapshotValue(f)))
  {
    var s := SnapshotValue(f);
    CleanActivityList(Items(f, "activities"));
    CleanActionList(Items(f, "actions"));
    forall i | 0 <= i < |s.activities| ensures AdmissibleActivity(s.activities[i]) {
      ReadActivityAdmissible(Items(f, "activities")[i]);
    }
    forall i | 0 <= i < |s.actions| ensures AdmissibleAction(s.actions[i]) {
      ReadActionAdmissible(Items(f, "actions")[i]);
    }
  }

  lemma ReadEventAdmissible(f: Members)
    requires EventDefect(f).None?
    ensures Admissible(EventValue(f))
  {
    var name := Text(f, "type");
    if name == "lifecycle_snapshot" {
      ReadSnapshotAdmissible(f);
    } else if name == "activity_update" {
      ReadActivityAdmissible(Member(f, "activity"));
    } else if name == "action_update" {
      ReadActionAdmissible(Member(f, "action"));
    }
  }

  /** Everything the decoder returns satisfies the rules the encoder relies on. */
  lemma DecodedIsAdmissible(params: Option<Json>, negotiated: Negotiated)
    requires Decode(params, negotiated).Ok?
    ensures var d := Decode(params, negotiated).value;
            && Id(d.streamId) && 0 < d.sequence < UINT64_BOUND && Admissible(d.event)
            && d.carrier.CarrierSessionInfo? && d.frame == params.value && negotiated.Present()
  {
    var meta := Object(Member(params.value.members, "_meta"));
    var f := Object(meta[META_KEY]);
    ReadEventAdmissible(Object(f["event"]));
  }

  /** A rendered event survives the wire unchanged exactly when the decoder's rules admit it. */
  lemma SurvivesExactlyWhenAdmissible(streamId: string, sequence: nat, e: Event, negotiated: Negotiated)
    requires negotiated.Present()
    ensures var n := Notification(Envelope(streamId, sequence, e));
            Decode(Some(n), negotiated) == Ok(Delivery(streamId, sequence, CarrierSessionInfo, e, n))
            <==> Id(streamId) && 0 < sequence < UINT64_BOUND && Admissible(e)
  {
    var n := Notification(Envelope(streamId, sequence, e));
    if Id(streamId) && 0 < sequence < UINT64_BOUND && Admissible(e) {
      EncodeThenDecode(streamId, sequence, e, negotiated);
    }
    if Decode(Some(n), negotiated) == Ok(Delivery(streamId, sequence, CarrierSessionInfo, e, n)) {
      DecodedIsAdmissible(Some(n), negotiated);
    }
  }

  /** Whatever the decoder returned re-encodes to a notification that decodes to the same event and identity. */
  lemma DecodeThenEncode(params: Option<Json>, negotiated: Negotiated)
    requires Decode(params, negotiated).Ok?
    ensures var d := Decode(params, negotiated).value;
            var n := Notification(Envelope(d.streamId, d.sequence, d.event));
            Decode(Some(n), negotiated) == Ok(d.(frame := n))
  {
    DecodedIsAdmissible(params, negotiated);
    var d := Decode(params, negotiated).value;
    EncodeThenDecode(d.streamId, d.sequence, d.event, negotiated);
  }
}
