/**
 The decoder as the object it is (lifecycle/decode.go): it records the first refusal in `err`, with whatever
 ordering identity it had read by then, and reads on. Each method notes exactly the refusal `Wire` names and,
 as long as nothing was refused, returns the value `Wire` names.
 */
module Decoders {
  import opened Wrappers
  import opened Values
  import opened Events
  import opened Vocabulary
  import W = Wire

  class Decoder {
    var streamId: string
    var sequence: nat
    var err: Option<Violation>

    constructor ()
      ensures err.None? && streamId == "" && sequence == 0
    {
      streamId, sequence, err := "", 0, None;
    }

    /** The refusal recorded once a possible further defect has been seen. */
    ghost function Noted(was: Option<Violation>, defect: Option<ViolationKind>): Option<Violation>
      reads this
    {
      if was.Some? || defect.None? then was else Some(Violation(defect.value, streamId, sequence))
    }

    method Fail(kind: ViolationKind)
      modifies `err
      ensures err == Noted(old(err), Some(kind))
    {
      if err.None? {
        err := Some(Violation(kind, streamId, sequence));
      }
    }

    method FailWhen(defective: bool)
      modifies `err
      ensures err == Noted(old(err), W.Malformed(defective))
    {
      if defective {
        Fail(MalformedEnvelope);
      }
    }

    method Known(fields: W.Members, allowed: set<string>)
      modifies `err
      ensures err == Noted(old(err), W.Unknown(fields, allowed))
    {
      var rest := fields.Keys;
      while rest != {}
        invariant rest <= fields.Keys && fields.Keys - rest <= allowed && err == old(err)
        decreases rest
      {
        var key :| key in rest;
        if key !in allowed {
          Fail(UnknownField);
          return;
        }
        rest := rest - {key};
      }
    }

    method Identifier(fields: W.Members, key: string, required: bool) returns (value: string)
      modifies `err
      ensures err == Noted(old(err), W.Malformed(W.IdentifierDefect(fields, key, required)))
      ensures value == W.Text(fields, key)
    {
      if key !in fields {
        FailWhen(required);
        return "";
      }
      value := if fields[key].JText? then fields[key].text else "";
      FailWhen(!fields[key].JText? || value == "" || |value| > W.IDENTIFIER_BOUND);
    }

    method Boolean(fields: W.Members, key: string) returns (value: Option<bool>)
      modifies `err
      ensures err == Noted(old(err), W.Malformed(W.FlagDefect(fields, key)))
      ensures value == W.Flag(fields, key)
    {
      value := W.Flag(fields, key);
      FailWhen(key in fields && !fields[key].JBool? && !fields[key].JNull?);
    }

    method Items(fields: W.Members, key: string) returns (items: seq<Json>)
      modifies `err
      ensures err == Noted(old(err), W.Malformed(W.ItemsDefect(fields, key)))
      ensures items == W.Items(fields, key)
    {
      items := W.Items(fields, key);
      FailWhen(key !in fields || (!fields[key].JArray? && !fields[key].JNull?));
    }

    // ---- entities ----

    method ReadOwner(fields: W.Members) returns (owner: Owner)
      modifies `err
      ensures err == Noted(old(err), W.OwnerDefect(fields))
      ensures err.None? ==> owner == W.OwnerValue(fields)
    {
      if "owner" !in fields {
        return Owner(NoOwner, "");
      }
      if !fields["owner"].JObject? {
        Fail(MalformedEnvelope);
        return Owner(NoOwner, "");
      }
      var owned := fields["owner"].members;
      Known(owned, {"type", "id"});
      var kind := Identifier(owned, "type", true);
      var id := Identifier(owned, "id", true);
      owner := Owner(ParseOwnerType(kind), id);
      FailWhen(owner.kind.NoOwner? || owner.kind.OtherOwner?);
    }

    method ReadAction(v: Json) returns (action: ActionUpdate)
      modifies `err
      ensures err == Noted(old(err), W.ActionDefect(v))
      ensures err.None? ==> action == W.ActionValue(v)
    {
      if !v.JObject? {
        Fail(MalformedEnvelope);
        return W.ActionValue(v);
      }
      var f := v.members;
      Known(f, W.ACTION_MEMBERS);
      var actionId := Identifier(f, "actionId", true);
      var kind := Identifier(f, "kind", false);
      var state := Identifier(f, "state", true);
      var owner := ReadOwner(f);
      var runId := Identifier(f, "runId", false);
      var blocks := Boolean(f, "blocksForeground");
      action := ActionUpdate(actionId, ParseActionKind(kind), ParseActionState(state), owner, runId, blocks);
      FailWhen(action.kind.OtherActionKind? || action.state.OtherActionState?);
    }

    method ReadProgress(f: W.Members) returns (progress: Option<Json>)
      modifies `err
      ensures err == Noted(old(err), W.Malformed("progress" in f && !f["progress"].JObject?))
      ensures err.None? ==> progress == if "progress" in f then Some(f["progress"]) else None
    {
      if "progress" !in f {
        return None;
      }
      FailWhen(!f["progress"].JObject?);
      return Some(f["progress"]);
    }

    method ReadPlace(f: W.Members)
      returns (activityId: string, kind: string, state: string, parentId: string, toolCallId: string)
      modifies `err
      ensures err == Noted(old(err), W.Malformed(
                W.IdentifierDefect(f, "activityId", true) || W.IdentifierDefect(f, "kind", false)
                || W.IdentifierDefect(f, "state", true) || W.IdentifierDefect(f, "parentId", false)
                || W.IdentifierDefect(f, "toolCallId", false)))
      ensures activityId == W.Text(f, "activityId") && kind == W.Text(f, "kind") && state == W.Text(f, "state")
              && parentId == W.Text(f, "parentId") && toolCallId == W.Text(f, "toolCallId")
    {
      activityId := Identifier(f, "activityId", true);
      kind := Identifier(f, "kind", false);
      state := Identifier(f, "state", true);
      parentId := Identifier(f, "parentId", false);
      toolCallId := Identifier(f, "toolCallId", false);
    }

    method ReadActivity(v: Json) returns (activity: ActivityRecord)
      modifies `err
      ensures err == Noted(old(err), W.ActivityDefect(v))
      ensures err.None? ==> activity == W.ActivityValue(v)
    {
      if !v.JObject? {
        Fail(MalformedEnvelope);
        return W.ActivityValue(v);
      }
      var f := v.members;
      Known(f, W.ACTIVITY_MEMBERS);
      var activityId, kind, state, parentId, toolCallId := ReadPlace(f);
      var cause := Identifier(f, "cause", false);
      var originTurnId := Identifier(f, "originTurnId", false);
      var runId := Identifier(f, "runId", false);
      var progress := ReadProgress(f);
      activity := ActivityRecord(activityId, ParseActivityKind(kind), ParseActivityState(state), parentId, toolCallId,
                                 ParseCause(cause), originTurnId, runId, progress);
      FailWhen(activity.kind.OtherActivityKind? || activity.state.OtherActivityState? || activity.cause.OtherCause?);
    }

    method ReadForeground(v: Json) returns (foreground: Foreground)
      modifies `err
      ensures err == Noted(old(err), W.ForegroundReadDefect(v))
      ensures err.None? ==> foreground == W.ForegroundValue(v)
    {
      if !v.JObject? {
        Fail(MalformedEnvelope);
        return W.ForegroundValue(v);
      }
      var f := v.members;
      Known(f, {"state", "cycleId", "turnId", "origin"});
      var state, cycleId, turnId := ReadCycle(f);
      var origin := Identifier(f, "origin", false);
      foreground := Foreground(ParseForeground(state), cycleId, turnId, ParseCause(origin));
      FailWhen(ForegroundDefect(foreground));
    }

    // ---- events ----

    /** One more item of a list, the rest of which is still to be read. */
    method ReadNextActivity(activities: seq<ActivityRecord>, items: seq<Json>, i: nat)
      returns (more: seq<ActivityRecord>)
      requires i < |items| && |activities| == i
      requires err.None? ==> ActivityValuesSoFar(activities, items)
      modifies `err
      ensures Noted(err, W.ActivityListDefect(items[i + 1..])) == Noted(old(err), W.ActivityListDefect(items[i..]))
      ensures |more| == i + 1 && (err.None? ==> ActivityValuesSoFar(more, items))
    {
      ActivityListSplit(items, i);
      var activity := ReadActivity(items[i]);
      more := activities + [activity];
      if err.None? { ActivityValuesOneMore(activities, items, activity); }
    }

    method ReadActivities(items: seq<Json>) returns (activities: seq<ActivityRecord>)
      modifies `err
      ensures err == Noted(old(err), W.ActivityListDefect(items))
      ensures err.None? ==> activities == W.ActivityValues(items)
    {
      activities := [];
      var i := 0;
      ActivityListEnds(items);
      while i < |items|
        invariant i <= |items| && |activities| == i
        invariant Noted(err, W.ActivityListDefect(items[i..])) == Noted(old(err), W.ActivityListDefect(items))
        invariant err.None? ==> ActivityValuesSoFar(activities, items)
      {
        activities := ReadNextActivity(activities, items, i);
        i := i + 1;
      }
    }

    /** One more item of a list, the rest of which is still to be read. */
    method ReadNextAction(actions: seq<ActionUpdate>, items: seq<Json>, i: nat) returns (more: seq<ActionUpdate>)
      requires i < |items| && |actions| == i
      requires err.None? ==> ActionValuesSoFar(actions, items)
      modifies `err
      ensures Noted(err, W.ActionListDefect(items[i + 1..])) == Noted(old(err), W.ActionListDefect(items[i..]))
      ensures |more| == i + 1 && (err.None? ==> ActionValuesSoFar(more, items))
    {
      ActionListSplit(items, i);
      var action := ReadAction(items[i]);
      more := actions + [action];
      if err.None? { ActionValuesOneMore(actions, items, action); }
    }

    method ReadActions(items: seq<Json>) returns (actions: seq<ActionUpdate>)
      modifies `err
      ensures err == Noted(old(err), W.ActionListDefect(items))
      ensures err.None? ==> actions == W.ActionValues(items)
    {
      actions := [];
      var i := 0;
      ActionListEnds(items);
      while i < |items|
        invariant i <= |items| && |actions| == i
        invariant Noted(err, W.ActionListDefect(items[i..])) == Noted(old(err), W.ActionListDefect(items))
        invariant err.None? ==> ActionValuesSoFar(actions, items)
      {
        actions := ReadNextAction(actions, items, i);
        i := i + 1;
      }
    }

    method ReadSnapshot(f: W.Members) returns (snapshot: Snapshot)
      modifies `err
      ensures err == Noted(old(err), W.SnapshotReadDefect(f))
      ensures err.None? ==> snapshot == W.SnapshotValue(f)
    {
      Known(f, {"type", "foreground", "activities", "actions"});
      var foreground := ReadForeground(W.Member(f, "foreground"));
      var listed := Items(f, "activities");
      var activities := ReadActivities(listed);
      var pending := Items(f, "actions");
      var actions := ReadActions(pending);
      snapshot := Snapshot(foreground, activities, actions);
    }

    method ReadAccepted(f: W.Members) returns (accepted: PromptAccepted)
      modifies `err
      ensures err == Noted(old(err), W.AcceptedDefect(f))
      ensures err.None? ==> accepted == W.AcceptedValue(f)
    {
      Known(f, {"type", "submissionId", "clientNonce", "turnId", "runId"});
      var submissionId := Identifier(f, "submissionId", true);
      var clientNonce := Identifier(f, "clientNonce", true);
      var turnId := Identifier(f, "turnId", true);
      var runId := Identifier(f, "runId", false);
      accepted := PromptAccepted(submissionId, clientNonce, turnId, runId);
    }

    method ReadCycle(f: W.Members) returns (state: string, cycleId: string, turnId: string)
      modifies `err
      ensures err == Noted(old(err), W.Malformed(
                W.IdentifierDefect(f, "state", true) || W.IdentifierDefect(f, "cycleId", true)
                || W.IdentifierDefect(f, "turnId", false)))
      ensures state == W.Text(f, "state") && cycleId == W.Text(f, "cycleId") && turnId == W.Text(f, "turnId")
    {
      state := Identifier(f, "state", true);
      cycleId := Identifier(f, "cycleId", true);
      turnId := Identifier(f, "turnId", false);
    }

    method ReadTransition(f: W.Members) returns (t: Transition)
      modifies `err
      ensures err == Noted(old(err), W.TransitionDefect(f))
      ensures err.None? ==> t == W.TransitionValue(f)
    {
      Known(f, {"type", "state", "cycleId", "turnId", "cause", "stopReason", "outcome"});
      var state, cycleId, turnId := ReadCycle(f);
      var cause := Identifier(f, "cause", true);
      var stopReason := Identifier(f, "stopReason", false);
      var outcome := Identifier(f, "outcome", false);
      t := Transition(ParseForeground(state), cycleId, turnId, ParseCause(cause), stopReason, ParseOutcome(outcome));
      FailWhen(W.TransitionRuleDefect(t));
    }

    method ReadEvent(f: W.Members) returns (e: Event)
      modifies `err
      ensures err == Noted(old(err), W.EventDefect(f))
      ensures err.None? ==> e == W.EventValue(f)
    {
      if "type" !in f || (!f["type"].JText? && !f["type"].JNull?) {
        Fail(MalformedEnvelope);
        return Unusable(false);
      }
      var name := W.Text(f, "type");
      if name == "lifecycle_snapshot" {
        var snapshot := ReadSnapshot(f);
        e := SnapshotEvent(snapshot);
      } else if name == "prompt_accepted" {
        var accepted := ReadAccepted(f);
        e := AcceptedEvent(accepted);
      } else if name == "state_update" {
        var transition := ReadTransition(f);
        e := StateEvent(transition);
      } else if name == "activity_update" {
        Known(f, {"type", "activity"});
        var activity := ReadActivity(W.Member(f, "activity"));
        e := ActivityEvent(activity);
      } else if name == "action_update" {
        Known(f, {"type", "action"});
        var action := ReadAction(W.Member(f, "action"));
        e := ActionEvent(action);
      } else {
        Fail(UnknownEventType);
        e := Unusable(false);
      }
    }

    // ---- the envelope ----

    method Version(f: W.Members)
      modifies `err
      ensures err == Noted(old(err), W.VersionDefect(f))
    {
      var defect := W.VersionDefect(f);
      if defect.Some? {
        Fail(defect.value);
      }
    }

    method Positive(f: W.Members) returns (n: nat)
      modifies `err
      ensures err == Noted(old(err), W.Malformed(W.SequenceValue(f) == 0)) && n == W.SequenceValue(f)
    {
      n := W.SequenceValue(f);
      FailWhen(n == 0);
    }

    /** envelope, on a decoder that has read nothing. */
    method ReadEnvelope(v: Json) returns (e: Event)
      requires err.None? && streamId == "" && sequence == 0
      modifies this
      ensures err == W.EnvelopeRefusal(v)
      ensures err.None? ==>
                && v.JObject? && streamId == W.Text(v.members, "streamId") && sequence == W.SequenceValue(v.members)
                && e == W.EventValue(W.Object(W.Member(v.members, "event")))
    {
      if !v.JObject? {
        Fail(IllegalCarrier);
        return Unusable(false);
      }
      var f := v.members;
      var id := Identifier(f, "streamId", true);
      streamId := id;
      var n := Positive(f);
      sequence := n;
      e := ReadBody(f);
    }

    /** What follows the ordering identity. */
    method ReadBody(f: W.Members) returns (e: Event)
      modifies `err
      ensures err == Noted(old(err), W.EnvelopeDefect(f))
      ensures err.None? ==> e == W.EventValue(W.Object(W.Member(f, "event")))
    {
      Version(f);
      Known(f, {"version", "streamId", "sequence", "event"});
      if !W.Member(f, "event").JObject? {
        Fail(MalformedEnvelope);
        return Unusable(false);
      }
      e := ReadEvent(W.Object(f["event"]));
    }
  }

  /** The records read so far are those of the first items. */
  predicate ActivityValuesSoFar(activities: seq<ActivityRecord>, items: seq<Json>) {
    |activities| <= |items| && forall j | 0 <= j < |activities| :: activities[j] == W.ActivityValue(items[j])
  }

  predicate ActionValuesSoFar(actions: seq<ActionUpdate>, items: seq<Json>) {
    |actions| <= |items| && forall j | 0 <= j < |actions| :: actions[j] == W.ActionValue(items[j])
  }

  lemma ActivityValuesOneMore(activities: seq<ActivityRecord>, items: seq<Json>, activity: ActivityRecord)
    requires ActivityValuesSoFar(activities, items) && |activities| < |items|
    requires activity == W.ActivityValue(items[|activities|])
    ensures ActivityValuesSoFar(activities + [activity], items)
  {
  }

  lemma ActivityListEnds(items: seq<Json>)
    ensures items[0..] == items && W.ActivityListDefect(items[|items|..]).None?
  {
  }

  lemma ActionValuesOneMore(actions: seq<ActionUpdate>, items: seq<Json>, action: ActionUpdate)
    requires ActionValuesSoFar(actions, items) && |actions| < |items| && action == W.ActionValue(items[|actions|])
    ensures ActionValuesSoFar(actions + [action], items)
  {
  }

  lemma ActionListEnds(items: seq<Json>)
    ensures items[0..] == items && W.ActionListDefect(items[|items|..]).None?
  {
  }

  lemma ActivityListSplit(items: seq<Json>, i: nat)
    requires i < |items|
    ensures W.ActivityListDefect(items[i..]) == W.Else(W.ActivityDefect(items[i]), W.ActivityListDefect(items[i + 1..]))
  {
    assert items[i..][1..] == items[i + 1..];
  }

  lemma ActionListSplit(items: seq<Json>, i: nat)
    requires i < |items|
    ensures W.ActionListDefect(items[i..]) == W.Else(W.ActionDefect(items[i]), W.ActionListDefect(items[i + 1..]))
  {
    assert items[i..][1..] == items[i + 1..];
  }

  method DecodeSessionUpdate(params: Option<Json>, negotiated: Negotiated)
    returns (r: Result<Delivery, W.DecodeError>)
    ensures r == W.Decode(params, negotiated)
  {
    if params.None? || !params.value.JObject? {
      return Err(W.RefusedFrame(Violation(MalformedEnvelope, "", 0)));
    }
    var notification := params.value.members;
    var meta := W.Object(W.Member(notification, "_meta"));
    if W.META_KEY !in meta {
      return Err(W.NoEnvelope);
    }
    if !negotiated.Present() {
      return Err(W.RefusedFrame(Violation(UnnegotiatedFact, "", 0)));
    }
    var decoder := new Decoder();
    var event := decoder.ReadEnvelope(meta[W.META_KEY]);
    if decoder.err.Some? {
      return Err(W.RefusedFrame(decoder.err.value));
    }
    if W.CarrierOf(W.Lookup(notification, "update")) != CarrierSessionInfo {
      return Err(W.RefusedFrame(Violation(IllegalCarrier, decoder.streamId, decoder.sequence)));
    }
    return Ok(Delivery(decoder.streamId, decoder.sequence, CarrierSessionInfo, event, params.value));
  }
}
