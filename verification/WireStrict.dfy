/**
 No object of a notification may carry a member the contract does not name (lifecycle/decode.go): adding one
 anywhere to a notification the decoder accepts makes it refuse that frame as having an unknown field.
 */
module WireStrict {
  import opened Wrappers
  import opened Values
  import opened Events
  import opened Wire
  import opened WireRoundTrip

  /** An object the contract governs, by its way down from the envelope; lists are indexed. */
  datatype Place =
    | TheEnvelope | TheEvent | TheForeground | TheActivity | TheAction | TheOwner
    | ListedActivity(index: nat) | ListedAction(index: nat) | ListedOwner(index: nat)

  const ACTION_KEYS := {"actionId", "kind", "state", "owner", "runId", "blocksForeground"}
  const ACTIVITY_KEYS :=
    {"activityId", "kind", "state", "parentId", "toolCallId", "cause", "originTurnId", "runId", "progress"}

  function EventKeys(name: string): set<string> {
    if name == "lifecycle_snapshot" then {"type", "foreground", "activities", "actions"}
    else if name == "prompt_accepted" then {"type", "submissionId", "clientNonce", "turnId", "runId"}
    else if name == "state_update" then {"type", "state", "cycleId", "turnId", "cause", "stopReason", "outcome"}
    else if name == "activity_update" then {"type", "activity"}
    else {"type", "action"}
  }

  /** The members the contract names for the object there. */
  function ContractKeys(event: Members, place: Place): set<string> {
    match place
    case TheEnvelope => {"version", "streamId", "sequence", "event"}
    case TheEvent => EventKeys(Text(event, "type"))
    case TheForeground => {"state", "cycleId", "turnId", "origin"}
    case TheActivity => ACTIVITY_KEYS
    case ListedActivity(_) => ACTIVITY_KEYS
    case TheAction => ACTION_KEYS
    case ListedAction(_) => ACTION_KEYS
    case TheOwner => {"type", "id"}
    case ListedOwner(_) => {"type", "id"}
  }

  // ---- with one more member ----

  function More(v: Json, key: string, x: Json): Json {
    if v.JObject? then JObject(v.members[key := x]) else v
  }

  function MoreOwner(action: Json, key: string, x: Json): Json
    requires action.JObject? && "owner" in action.members
  {
    JObject(action.members["owner" := More(action.members["owner"], key, x)])
  }

  /** The event has an object there. */
  predicate Has(event: Members, place: Place) {
    var name := Text(event, "type");
    match place
    case TheEnvelope => true
    case TheEvent => true
    case TheForeground => name == "lifecycle_snapshot"
    case TheActivity => name == "activity_update"
    case TheAction => name == "action_update"
    case TheOwner => name == "action_update" && "owner" in Object(Member(event, "action"))
    case ListedActivity(i) => name == "lifecycle_snapshot" && i < |Items(event, "activities")|
    case ListedAction(i) => name == "lifecycle_snapshot" && i < |Items(event, "actions")|
    case ListedOwner(i) =>
      name == "lifecycle_snapshot" && i < |Items(event, "actions")| && "owner" in Object(Items(event, "actions")[i])
  }

  function Listed(items: seq<Json>, i: nat, v: Json): Json
    requires i < |items|
  {
    JArray(items[i := v])
  }

  /** The event with a member added to the object there. */
  function Widened(event: Members, place: Place, key: string, x: Json): Members
    requires EventDefect(event).None? && Has(event, place)
  {
    match place
    case TheEnvelope => event
    case TheEvent => event[key := x]
    case TheForeground => event["foreground" := More(event["foreground"], key, x)]
    case TheActivity => event["activity" := More(event["activity"], key, x)]
    case TheAction => event["action" := More(event["action"], key, x)]
    case TheOwner => event["action" := MoreOwner(event["action"], key, x)]
    case ListedActivity(i) =>
      var items := Items(event, "activities"); event["activities" := Listed(items, i, More(items[i], key, x))]
    case ListedAction(i) =>
      var items := Items(event, "actions"); event["actions" := Listed(items, i, More(items[i], key, x))]
    case ListedOwner(i) =>
      CleanActionList(Items(event, "actions"));
      var items := Items(event, "actions"); event["actions" := Listed(items, i, MoreOwner(items[i], key, x))]
  }

  function WidenedEnvelope(envelope: Members, place: Place, key: string, x: Json): Members
    requires EnvelopeDefect(envelope).None? && Has(Object(envelope["event"]), place)
  {
    if place.TheEnvelope? then envelope[key := x]
    else envelope["event" := JObject(Widened(Object(envelope["event"]), place, key, x))]
  }

  // ---- is refused ----

  lemma MoreIsUnknown(f: Members, keys: set<string>, key: string, x: Json)
    requires key !in keys
    ensures Unknown(f[key := x], keys) == Some(UnknownField)
  {
    assert key in f[key := x].Keys;
  }

  lemma ActionUnknown(v: Json, key: string, x: Json)
    requires ActionDefect(v).None? && key !in ACTION_KEYS
    ensures ActionDefect(More(v, key, x)) == Some(UnknownField)
  {
    MoreIsUnknown(v.members, ACTION_MEMBERS, key, x);
  }

  lemma OwnerUnknown(v: Json, key: string, x: Json)
    requires ActionDefect(v).None? && "owner" in v.members && key !in {"type", "id"}
    ensures ActionDefect(MoreOwner(v, key, x)) == Some(UnknownField)
  {
    var f, g := v.members, MoreOwner(v, key, x).members;
    MoreIsUnknown(f["owner"].members, {"type", "id"}, key, x);
    assert g.Keys == f.Keys;
    assert OwnerDefect(g) == Some(UnknownField);
  }

  lemma ActivityUnknown(v: Json, key: string, x: Json)
    requires ActivityDefect(v).None? && key !in ACTIVITY_KEYS
    ensures ActivityDefect(More(v, key, x)) == Some(UnknownField)
  {
    MoreIsUnknown(v.members, ACTIVITY_MEMBERS, key, x);
  }

  lemma {:induction false} ActivityListUnknown(items: seq<Json>, i: nat, v: Json)
    requires ActivityListDefect(items).None? && i < |items| && ActivityDefect(v) == Some(UnknownField)
    ensures ActivityListDefect(items[i := v]) == Some(UnknownField)
  {
    if i > 0 {
      assert items[i := v][1..] == items[1..][i - 1 := v];
      ActivityListUnknown(items[1..], i - 1, v);
    }
  }

  lemma {:induction false} ActionListUnknown(items: seq<Json>, i: nat, v: Json)
    requires ActionListDefect(items).None? && i < |items| && ActionDefect(v) == Some(UnknownField)
    ensures ActionListDefect(items[i := v]) == Some(UnknownField)
  {
    if i > 0 {
      assert items[i := v][1..] == items[1..][i - 1 := v];
      ActionListUnknown(items[1..], i - 1, v);
    }
  }

  /** Only the named member of the snapshot changed. */
  lemma SnapshotMember(event: Members, key: string, v: Json)
    requires SnapshotReadDefect(event).None? && key in event && Text(event, "type") == "lifecycle_snapshot"
    requires key != "type"
    ensures var g := event[key := v];
            && EventDefect(g) == SnapshotReadDefect(g) && Unknown(g, EventKeys("lifecycle_snapshot")).None?
            && forall k | k != key :: Member(g, k) == Member(event, k) && Items(g, k) == Items(event, k)
                                     && ItemsDefect(g, k) == ItemsDefect(event, k)
  {
    assert event[key := v].Keys == event.Keys;
  }

  lemma ForegroundUnknown(event: Members, key: string, x: Json)
    requires EventDefect(event).None? && Text(event, "type") == "lifecycle_snapshot"
    requires key !in {"state", "cycleId", "turnId", "origin"}
    ensures EventDefect(event["foreground" := More(event["foreground"], key, x)]) == Some(UnknownField)
  {
    var v := More(event["foreground"], key, x);
    MoreIsUnknown(event["foreground"].members, {"state", "cycleId", "turnId", "origin"}, key, x);
    SnapshotMember(event, "foreground", v);
    assert ForegroundReadDefect(v) == Some(UnknownField);
  }

  lemma ActivitiesUnknown(event: Members, i: nat, v: Json)
    requires EventDefect(event).None? && Text(event, "type") == "lifecycle_snapshot"
    requires i < |Items(event, "activities")| && ActivityDefect(v) == Some(UnknownField)
    ensures EventDefect(event["activities" := Listed(Items(event, "activities"), i, v)]) == Some(UnknownField)
  {
    SnapshotMember(event, "activities", Listed(Items(event, "activities"), i, v));
    ActivityListUnknown(Items(event, "activities"), i, v);
  }

  lemma ActionsUnknown(event: Members, i: nat, v: Json)
    requires EventDefect(event).None? && Text(event, "type") == "lifecycle_snapshot"
    requires i < |Items(event, "actions")| && ActionDefect(v) == Some(UnknownField)
    ensures EventDefect(event["actions" := Listed(Items(event, "actions"), i, v)]) == Some(UnknownField)
  {
    SnapshotMember(event, "actions", Listed(Items(event, "actions"), i, v));
    ActionListUnknown(Items(event, "actions"), i, v);
  }

  lemma UpdateUnknown(event: Members, key: string, v: Json)
    requires EventDefect(event).None?
    requires (Text(event, "type") == "activity_update" && key == "activity" && ActivityDefect(v) == Some(UnknownField))
             || (Text(event, "type") == "action_update" && key == "action" && ActionDefect(v) == Some(UnknownField))
    ensures EventDefect(event[key := v]) == Some(UnknownField)
  {
    assert event[key := v].Keys == event.Keys + {key};
  }

  lemma EventUnknown(event: Members, key: string, x: Json)
    requires EventDefect(event).None? && key !in EventKeys(Text(event, "type"))
    ensures EventDefect(event[key := x]) == Some(UnknownField)
  {
    MoreIsUnknown(event, EventKeys(Text(event, "type")), key, x);
    assert Text(event[key := x], "type") == Text(event, "type");
  }

  lemma WidenedIsRefused(event: Members, place: Place, key: string, x: Json)
    requires EventDefect(event).None? && Has(event, place) && !place.TheEnvelope?
    requires key !in ContractKeys(event, place)
    ensures EventDefect(Widened(event, place, key, x)) == Some(UnknownField)
  {
    match place
    case TheEvent => EventUnknown(event, key, x);
    case TheForeground => ForegroundUnknown(event, key, x);
    case TheActivity =>
      ActivityUnknown(event["activity"], key, x);
      UpdateUnknown(event, "activity", More(event["activity"], key, x));
    case TheAction =>
      ActionUnknown(event["action"], key, x);
      UpdateUnknown(event, "action", More(event["action"], key, x));
    case TheOwner =>
      OwnerUnknown(event["action"], key, x);
      UpdateUnknown(event, "action", MoreOwner(event["action"], key, x));
    case ListedActivity(i) => ListedActivityUnknown(event, i, key, x);
    case ListedAction(i) => ListedActionUnknown(event, i, key, x);
    case ListedOwner(i) => ListedOwnerUnknown(event, i, key, x);
  }

  lemma ListedActivityUnknown(event: Members, i: nat, key: string, x: Json)
    requires EventDefect(event).None? && Has(event, ListedActivity(i)) && key !in ACTIVITY_KEYS
    ensures EventDefect(Widened(event, ListedActivity(i), key, x)) == Some(UnknownField)
  {
    var items := Items(event, "activities");
    CleanActivityList(items);
    ActivityUnknown(items[i], key, x);
    ActivitiesUnknown(event, i, More(items[i], key, x));
  }

  lemma ListedActionUnknown(event: Members, i: nat, key: string, x: Json)
    requires EventDefect(event).None? && Has(event, ListedAction(i)) && key !in ACTION_KEYS
    ensures EventDefect(Widened(event, ListedAction(i), key, x)) == Some(UnknownField)
  {
    var items := Items(event, "actions");
    CleanActionList(items);
    ActionUnknown(items[i], key, x);
    ActionsUnknown(event, i, More(items[i], key, x));
  }

  lemma ListedOwnerUnknown(event: Members, i: nat, key: string, x: Json)
    requires EventDefect(event).None? && Has(event, ListedOwner(i)) && key !in {"type", "id"}
    ensures EventDefect(Widened(event, ListedOwner(i), key, x)) == Some(UnknownField)
  {
    var items := Items(event, "actions");
    CleanActionList(items);
    OwnerUnknown(items[i], key, x);
    ActionsUnknown(event, i, MoreOwner(items[i], key, x));
  }

  lemma EnvelopeUnknown(f: Members, place: Place, key: string, x: Json)
    requires EnvelopeRefusal(JObject(f)).None? && Has(Object(f["event"]), place)
    requires key !in ContractKeys(Object(f["event"]), place)
    ensures EnvelopeRefusal(JObject(WidenedEnvelope(f, place, key, x)))
            == Some(Violation(UnknownField, Text(f, "streamId"), SequenceValue(f)))
  {
    var g := WidenedEnvelope(f, place, key, x);
    if place.TheEnvelope? {
      MoreIsUnknown(f, {"version", "streamId", "sequence", "event"}, key, x);
    } else {
      WidenedIsRefused(Object(f["event"]), place, key, x);
      assert g.Keys == f.Keys;
    }
    SameIdentity(f, g);
  }

  /** What names the frame is read before any member is judged. */
  lemma SameIdentity(f: Members, g: Members)
    requires forall key | key in ["version", "streamId", "sequence"] :: Lookup(g, key) == Lookup(f, key)
    ensures IdentifierDefect(g, "streamId", true) == IdentifierDefect(f, "streamId", true)
    ensures Text(g, "streamId") == Text(f, "streamId") && SequenceValue(g) == SequenceValue(f)
    ensures VersionDefect(g) == VersionDefect(f)
  {
    assert Lookup(g, "version") == Lookup(f, "version");
    assert Lookup(g, "streamId") == Lookup(f, "streamId");
    assert Lookup(g, "sequence") == Lookup(f, "sequence");
  }

  // ---- whole notifications ----

  function EnvelopeOf(n: Json): Members
    requires n.JObject?
  {
    Object(Member(Object(Member(n.members, "_meta")), META_KEY))
  }

  /** The notification with another envelope. */
  function WithEnvelope(n: Json, envelope: Members): Json
    requires n.JObject?
  {
    JObject(n.members["_meta" := JObject(Object(Member(n.members, "_meta"))[META_KEY := JObject(envelope)])])
  }

  /**
   A member the contract does not name, added to the envelope, the event or anything inside it, turns a notification
   the decoder accepts into one it refuses for an unknown field, under the same stream and sequence.
   */
  lemma ExtraMemberRefused(n: Json, negotiated: Negotiated, place: Place, key: string, x: Json)
    requires Decode(Some(n), negotiated).Ok? && Has(Object(EnvelopeOf(n)["event"]), place)
    requires key !in ContractKeys(Object(EnvelopeOf(n)["event"]), place)
    ensures var d, widened := Decode(Some(n), negotiated).value, WidenedEnvelope(EnvelopeOf(n), place, key, x);
            Decode(Some(WithEnvelope(n, widened)), negotiated)
            == Err(RefusedFrame(Violation(UnknownField, d.streamId, d.sequence)))
  {
    var widened := WidenedEnvelope(EnvelopeOf(n), place, key, x);
    EnvelopeUnknown(EnvelopeOf(n), place, key, x);
    EnvelopeReplaced(n, widened);
  }

  lemma EnvelopeReplaced(n: Json, envelope: Members)
    requires n.JObject?
    ensures var m := WithEnvelope(n, envelope);
            Object(Member(m.members, "_meta")) == Object(Member(n.members, "_meta"))[META_KEY := JObject(envelope)]
  {
  }
}
