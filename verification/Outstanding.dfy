/**
 What every publisher call leaves outstanding (lifecycle/publisher.go), whether or not it was legal and however it
 failed.
 */
module Outstanding {
  import opened Wrappers
  import opened Values
  import opened Events
  import opened Wire
  import opened PublisherModel
  import opened PublisherRuns
  import opened Agreement
  import opened Handover

  function Those(ids: seq<string>): set<string> {
    set id | id in ids
  }

  lemma {:induction false} CancelAllReleases(p: Publisher, ids: seq<string>) returns (n: nat)
    requires p.stream.Some?
    ensures var (q, err) := CancelAll(p, ids);
            && n <= |ids| && q.blockers == p.blockers - Those(ids[..n]) && (err.None? <==> n == |ids|)
            && q.stream.Some?
    decreases |ids|
  {
    CancelAllKeepsStream(p, ids);
    n := 0;
    if ids != [] {
      EmitKeepsBlockers(p, ResolvedOf(ids[0], ActionState.ActionCancelled));
      var q := CancelOne(p, ids[0]).0;
      if CancelOne(p, ids[0]).1.None? {
        var m := CancelAllReleases(q, ids[1..]);
        n := m + 1;
        FirstReleased(p.blockers, ids, m);
      }
    }
  }

  lemma FirstReleased(blockers: map<string, string>, ids: seq<string>, m: nat)
    requires ids != [] && m < |ids|
    ensures blockers - {ids[0]} - Those(ids[1..][..m]) == blockers - Those(ids[..m + 1])
  {
    assert ids[..m + 1] == [ids[0]] + ids[1..][..m];
  }

  /** The call names an outstanding action of its cycle on an open incarnation. */
  predicate Resolves(p: Publisher, call: Call) {
    call.ResolveCall? && Active(p) && call.actionId in p.blockers && p.blockers[call.actionId] == call.cycle.cycleId
  }

  predicate Speaks(p: Publisher, call: Call) {
    Active(p) && ((call.PendCall? && call.cycle.turnId != "") || (call.IdleCall? && call.cycle.turnId != ""))
  }

  /** What the call leaves outstanding; of a failed ending, the cycle's first n actions were cancelled. */
  ghost predicate Leaves(p: Publisher, call: Call, n: nat, q: Publisher, err: Option<PublishError>) {
    if Begins(p, call) then q.blockers == map[]
    else if Resolves(p, call) then q.blockers == p.blockers - {call.actionId}
    else if Speaks(p, call) && call.PendCall? then
      q.blockers == if err.None? then p.blockers[call.actionId := call.cycle.cycleId] else p.blockers
    else if Speaks(p, call) then
      var ids := SortedKeys(BlockedBy(p.blockers, call.cycle.cycleId));
      && n <= |ids| && q.blockers == p.blockers - Those(ids[..n]) && (err.None? ==> n == |ids|)
    else q.blockers == p.blockers
  }

  lemma PendingOutstanding(p: Publisher, c: Cycle, id: string, kind: ActionKind)
    requires Active(p) && c.turnId != ""
    ensures var (q, err) := PendAction(p, c, id, kind);
            q.blockers == if err.None? then p.blockers[id := c.cycleId] else p.blockers
  {
    EmitKeepsBlockers(p, PendingOf(id, kind, c.turnId));
    EmitKeepsBlockers(Emit(p, PendingOf(id, kind, c.turnId)).0, TransitionOf(RequiresAction, c));
  }

  lemma ResolvedOutstanding(p: Publisher, c: Cycle, id: string, state: ActionState)
    requires Active(p) && id in p.blockers && p.blockers[id] == c.cycleId
    ensures ResolveAction(p, c, id, state).0.blockers == p.blockers - {id}
  {
    var q := p.(blockers := p.blockers - {id});
    ResolutionIs(p, q, c, id, state);
    EmitKeepsBlockers(q, ResolvedOf(id, state));
    EmitKeepsBlockers(Emit(q, ResolvedOf(id, state)).0, TransitionOf(Running, c));
  }

  lemma AcceptanceOutstanding(p: Publisher, c: Cycle, s: SubmissionId)
    requires Active(p)
    ensures Accept(p, c, s).0.blockers == p.blockers
  {
    var q, y := CountedTwice(p), NextCycle(p, Submission, c.incarnation);
    EmitKeepsBlockers(q, AcceptedOf(s, y.turnId));
    EmitKeepsBlockers(Emit(q, AcceptedOf(s, y.turnId)).0, TransitionOf(Running, y));
  }

  lemma OpeningOutstanding(p: Publisher, id: string, negotiated: Negotiated, deliver: Option<Json -> bool>)
    requires negotiated.Present() && !Active(p)
    ensures Open(p, id, negotiated, deliver).0.blockers == map[]
  {
    var speaker := Publisher(Some(NewStream(id, negotiated)), Count(p.counter), map[], deliver, p.published);
    EmitKeepsBlockers(speaker, SnapshotOf(Name("cycle", Count(p.counter))));
  }

  lemma EndingOutstanding(p: Publisher, c: Cycle, stopReason: string, outcome: Outcome) returns (n: nat)
    requires Active(p) && c.turnId != ""
    ensures var (q, err) := EndIdle(p, c, stopReason, outcome);
            var ids := SortedKeys(BlockedBy(p.blockers, c.cycleId));
            n <= |ids| && q.blockers == p.blockers - Those(ids[..n]) && (err.None? ==> n == |ids|)
  {
    var ids := SortedKeys(BlockedBy(p.blockers, c.cycleId));
    n := CancelAllReleases(p, ids);
    EmitKeepsBlockers(CancelAll(p, ids).0, IdleOf(c, if outcome.Failed? then "" else stopReason, outcome));
  }

  lemma PendingLeaves(p: Publisher, call: Call)
    requires call.PendCall?
    ensures Leaves(p, call, 0, Perform(p, call).0, Perform(p, call).1)
  {
    if Speaks(p, call) { PendingOutstanding(p, call.cycle, call.actionId, call.kind); }
  }

  lemma ResolvingLeaves(p: Publisher, call: Call)
    requires call.ResolveCall?
    ensures Leaves(p, call, 0, Perform(p, call).0, Perform(p, call).1)
  {
    if Resolves(p, call) { ResolvedOutstanding(p, call.cycle, call.actionId, call.state); }
  }

  lemma EndingLeaves(p: Publisher, c: Cycle, stopReason: string, outcome: Outcome) returns (n: nat)
    ensures var (q, err) := EndIdle(p, c, stopReason, outcome); Leaves(p, IdleCall(c, stopReason, outcome), n, q, err)
  {
    n := 0;
    if Active(p) && c.turnId != "" {
      n := EndingOutstanding(p, c, stopReason, outcome);
      var (q, err) := EndIdle(p, c, stopReason, outcome);
      CancelledLeaves(p, IdleCall(c, stopReason, outcome), n, q, err);
    }
  }

  lemma CancelledLeaves(p: Publisher, call: Call, n: nat, q: Publisher, err: Option<PublishError>)
    requires call.IdleCall? && Speaks(p, call)
    requires var ids := SortedKeys(BlockedBy(p.blockers, call.cycle.cycleId));
             n <= |ids| && q.blockers == p.blockers - Those(ids[..n]) && (err.None? ==> n == |ids|)
    ensures Leaves(p, call, n, q, err)
  {
  }

  lemma OpeningLeaves(p: Publisher, call: Call)
    requires call.OpenCall?
    ensures Leaves(p, call, 0, Perform(p, call).0, Perform(p, call).1)
  {
    if Begins(p, call) { OpeningOutstanding(p, call.id, call.negotiated, call.deliver); }
  }

  lemma OthersLeave(p: Publisher, call: Call)
    requires !call.PendCall? && !call.ResolveCall? && !call.IdleCall? && !call.OpenCall?
    ensures Leaves(p, call, 0, Perform(p, call).0, Perform(p, call).1)
  {
    if Active(p) && call.AcceptCall? { AcceptanceOutstanding(p, call.cycle, call.submission); }
    if Active(p) && call.OpenAgentCall? { EmitKeepsBlockers(p, TransitionOf(Running, call.cycle)); }
  }

  /**
   What is outstanding after a call: nothing once an incarnation opens; one action more once it was announced; one
   less as soon as its resolution is attempted; and after an ending none of its cycle, or, if it failed, only the
   cycle's actions that were not cancelled by then, in their order. No other call touches any.
   */
  lemma OutstandingAfter(p: Publisher, call: Call) returns (n: nat)
    ensures Leaves(p, call, n, Perform(p, call).0, Perform(p, call).1)
  {
    n := 0;
    if call.PendCall? {
      PendingLeaves(p, call);
    } else if call.ResolveCall? {
      ResolvingLeaves(p, call);
    } else if call.IdleCall? {
      n := EndingLeaves(p, call.cycle, call.stopReason, call.outcome);
    } else if call.OpenCall? {
      OpeningLeaves(p, call);
    } else {
      OthersLeave(p, call);
    }
  }
}
