/**
 The emitter and the publisher as the objects they are (lifecycle/emit.go, lifecycle/publisher.go): each
 method updates the fields in place and does what `PublisherModel` says of the whole state. The emitter
 judges every event with a `Reducer` object of its own.
 */
module Publishers {
  import opened Wrappers
  import opened Values
  import opened Events
  import opened ReducerModel
  import opened Reducers
  import opened Wire
  import opened Decoders
  import PM = PublisherModel

  class Emitter {
    const id: string
    const reducer: Reducer
    var sequence: nat

    function View(): PM.Stream
      reads this, reducer
    {
      PM.Stream(id, reducer.View(), sequence)
    }

    constructor (id: string, negotiated: Negotiated)
      ensures View() == PM.NewStream(id, negotiated) && fresh(reducer)
    {
      this.id, sequence := id, 0;
      reducer := new Reducer(negotiated);
      new;
      reducer.DropFrames();
    }

    method Fence()
      modifies reducer
      ensures View() == old(View()).(core := Close(old(View()).core))
    {
      reducer.Close();
    }

    method Emit(e: Event) returns (envelope: Option<Json>)
      modifies this, reducer
      ensures (View(), envelope) == PM.StreamEmit(old(View()), e)
    {
      sequence := PM.Count(sequence);
      var rendered := Envelope(id, sequence, e);
      var decoded := DecodeSessionUpdate(Some(Notification(rendered)), reducer.negotiated);
      match decoded
      case Err(_) => envelope := None;
      case Ok(delivery) =>
        var refusal := reducer.Reduce(delivery);
        envelope := if refusal.Some? then None else Some(rendered);
    }
  }

  class Publisher {
    var stream: Emitter?
    var counter: nat
    var blockers: map<string, string>
    var deliver: Option<Json -> bool>
    var published: seq<Json>

    ghost function Repr(): set<object>
      reads this
    {
      {this} + if stream == null then {} else {stream, stream.reducer}
    }

    ghost function View(): PM.Publisher
      reads Repr()
    {
      PM.Publisher(if stream == null then None else Some(stream.View()), counter, blockers, deliver, published)
    }

    constructor ()
      ensures View() == PM.Zero() && fresh(Repr())
    {
      stream, counter, blockers, deliver, published := null, 0, map[], None, [];
    }

    method Active() returns (active: bool)
      ensures active == PM.Active(View())
    {
      active := stream != null && !stream.reducer.state.closed;
    }

    method NextID(kind: string) returns (name: string)
      modifies `counter
      ensures (View(), name) == PM.NextID(old(View()), kind)
    {
      counter := PM.Count(counter);
      name := PM.Name(kind, counter);
    }

    method Fence()
      modifies Repr()
      ensures View() == PM.Fence(old(View())) && stream == old(stream)
    {
      if stream != null {
        stream.Fence();
      }
    }

    /** A refused event or a failed delivery ends the incarnation. */
    method Emit(e: Event) returns (error: Option<PM.PublishError>)
      requires stream != null
      modifies Repr()
      ensures (View(), error) == PM.Emit(old(View()), e) && stream == old(stream)
    {
      var envelope := stream.Emit(e);
      error := HandOut(envelope);
    }

    method HandOut(envelope: Option<Json>) returns (error: Option<PM.PublishError>)
      requires stream != null
      modifies Repr()
      ensures (View(), error) == PM.HandOut(old(View()), envelope) && stream == old(stream)
    {
      if envelope.None? {
        Fence();
        return Some(PM.EventRefused);
      }
      if deliver.Some? && !deliver.value(envelope.value) {
        Fence();
        return Some(PM.DeliveryFailed);
      }
      published := published + [envelope.value];
      return None;
    }

    method Open(id: string, negotiated: Negotiated, deliver: Option<Json -> bool>)
      returns (error: Option<PM.PublishError>)
      modifies Repr()
      ensures (View(), error) == PM.Open(old(View()), id, negotiated, deliver)
      ensures fresh(Repr() - old(Repr()))
    {
      var active := Active();
      if !negotiated.Present() || active {
        return None;
      }
      var cycleId := Begin(id, negotiated, deliver);
      error := Emit(PM.SnapshotOf(cycleId));
    }

    /** A fresh stream with no blockers, and the name of its first cycle. */
    method Begin(id: string, negotiated: Negotiated, deliver: Option<Json -> bool>) returns (cycleId: string)
      modifies this
      ensures stream != null && fresh(stream) && fresh(stream.reducer) && cycleId == PM.Name("cycle", counter)
      ensures View() == PM.Publisher(Some(PM.NewStream(id, negotiated)), PM.Count(old(counter)), map[], deliver,
                                     old(published))
    {
      stream := new Emitter(id, negotiated);
      this.deliver, blockers := deliver, map[];
      cycleId := NextID("cycle");
    }

    method Accept(c: PM.Cycle, s: PM.SubmissionId) returns (cycle: PM.Cycle, error: Option<PM.PublishError>)
      modifies Repr()
      ensures (View(), cycle, error) == PM.Accept(old(View()), c, s) && stream == old(stream)
    {
      var active := Active();
      if !active {
        return c, None;
      }
      cycle := AllocateCycle(Cause.Submission, c.incarnation);
      error := Emit(PM.AcceptedOf(s, cycle.turnId));
      if error.None? {
        error := Emit(PM.TransitionOf(Running, cycle));
      }
    }

    method AllocateCycle(origin: Cause, incarnation: string) returns (cycle: PM.Cycle)
      modifies `counter
      ensures View() == PM.CountedTwice(old(View())) && cycle == PM.NextCycle(old(View()), origin, incarnation)
    {
      var turnId := NextID("turn");
      var cycleId := NextID("cycle");
      cycle := PM.Cycle(turnId, cycleId, origin, incarnation);
    }

    method NewAgentCycle() returns (cycle: PM.Cycle)
      modifies `counter
      ensures (View(), cycle) == PM.NewAgentCycle(old(View()))
    {
      var active := Active();
      if active {
        cycle := AllocateCycle(Cause.Activity, stream.id);
      } else {
        cycle := PM.Cycle("", "", Cause.Activity, "");
      }
    }

    method OpenAgentCycle(c: PM.Cycle) returns (error: Option<PM.PublishError>)
      modifies Repr()
      ensures (View(), error) == PM.OpenAgentCycle(old(View()), c) && stream == old(stream)
    {
      var active := Active();
      if !active {
        return None;
      }
      if c.incarnation != stream.id || !c.origin.Activity? || c.turnId == "" || c.cycleId == "" {
        return Some(PM.ForeignCycle);
      }
      error := Emit(PM.TransitionOf(Running, c));
    }

    method ActionPending(c: PM.Cycle, actionId: string, kind: ActionKind) returns (error: Option<PM.PublishError>)
      modifies Repr()
      ensures (View(), error) == PM.PendAction(old(View()), c, actionId, kind) && stream == old(stream)
    {
      var active := Active();
      if !active || c.turnId == "" {
        return None;
      }
      error := Emit(PM.PendingOf(actionId, kind, c.turnId));
      if error.Some? {
        return;
      }
      error := RequireAction(c);
      if error.Some? {
        return;
      }
      blockers := blockers[actionId := c.cycleId];
    }

    /** The cycle's first blocker moves it to requires_action. */
    method RequireAction(c: PM.Cycle) returns (error: Option<PM.PublishError>)
      requires stream != null
      modifies Repr()
      ensures (View(), error) == PM.RequireAction(old(View()), c) && stream == old(stream)
    {
      var pending := BlockedBy(c.cycleId);
      if |pending| == 0 {
        error := Emit(PM.TransitionOf(RequiresAction, c));
      } else {
        error := None;
      }
    }

    method ActionResolved(c: PM.Cycle, actionId: string, state: ActionState) returns (error: Option<PM.PublishError>)
      modifies Repr()
      ensures (View(), error) == PM.ResolveAction(old(View()), c, actionId, state) && stream == old(stream)
    {
      var active := Active();
      if actionId !in blockers || blockers[actionId] != c.cycleId || !active {
        return None;
      }
      blockers := blockers - {actionId};
      error := Emit(PM.ResolvedOf(actionId, state));
      if error.None? {
        var pending := BlockedBy(c.cycleId);
        if |pending| == 0 {
          error := Emit(PM.TransitionOf(Running, c));
        }
      }
    }

    method Idle(c: PM.Cycle, stopReason: string, outcome: Outcome) returns (error: Option<PM.PublishError>)
      modifies Repr()
      ensures (View(), error) == PM.EndIdle(old(View()), c, stopReason, outcome) && stream == old(stream)
    {
      var active := Active();
      if !active || c.turnId == "" {
        return None;
      }
      var ids := BlockedBy(c.cycleId);
      error := CancelAll(ids);
      if error.None? {
        error := Emit(PM.IdleOf(c, if outcome.Failed? then "" else stopReason, outcome));
      }
    }

    method CancelAll(ids: seq<string>) returns (error: Option<PM.PublishError>)
      requires stream != null
      modifies Repr()
      ensures (View(), error) == PM.CancelAll(old(View()), ids) && stream == old(stream)
    {
      var i := 0;
      while i < |ids|
        invariant 0 <= i <= |ids| && stream == old(stream)
        invariant PM.CancelAll(View(), ids[i..]) == PM.CancelAll(old(View()), ids)
      {
        error := CancelOne(ids[i]);
        if error.Some? {
          return;
        }
        assert ids[i..][1..] == ids[i + 1..];
        i := i + 1;
      }
      error := None;
    }

    method CancelOne(actionId: string) returns (error: Option<PM.PublishError>)
      requires stream != null
      modifies Repr()
      ensures (View(), error) == PM.CancelOne(old(View()), actionId) && stream == old(stream)
    {
      error := Emit(PM.ResolvedOf(actionId, ActionState.ActionCancelled));
      if error.None? {
        blockers := blockers - {actionId};
      }
    }

    /** The cycle's outstanding actions in a stable order. */
    method BlockedBy(cycleId: string) returns (ids: seq<string>)
      ensures ids == SortedKeys(PM.BlockedBy(blockers, cycleId))
      ensures |ids| == 0 <==> PM.BlockedBy(blockers, cycleId) == {}
    {
      var found, rest := {}, blockers.Keys;
      while rest != {}
        invariant rest <= blockers.Keys
        invariant found == set id | id in blockers && id !in rest && blockers[id] == cycleId
        decreases rest
      {
        var actionId :| actionId in rest;
        if blockers[actionId] == cycleId {
          found := found + {actionId};
        }
        rest := rest - {actionId};
      }
      ids := SortedKeys(found);
      assert found == PM.BlockedBy(blockers, cycleId);
    }
  }
}
