/**
 The publisher and its reducer stay in simulation (lifecycle/publisher.go, lifecycle/emit.go): under the
 caller's rule no call is refused, and `blockers` is exactly the reducer's live blocking actions mapped to
 the cycles they stopped.
 */
module Simulation {
  import opened Wrappers
  import opened Numerals
  import opened Values
  import opened Events
  import opened ReducerModel
  import opened ReducerInvariant
  import opened ReducerRuns
  import opened Wire
  import opened WireRoundTrip
  import opened PublisherModel

  // ---- issued names ----

  /** The name came from the publisher's counter at or below n. */
  ghost predicate Issued(kind: string, name: string, n: nat) {
    exists k: nat | k <= n :: name == Name(kind, k)
  }

  lemma NameInjective(kind: string, j: nat, k: nat)
    requires Name(kind, j) == Name(kind, k)
    ensures j == k
  {
    var prefix := kind + "-";
    assert Digits(j) == Name(kind, j)[|prefix|..] == Name(kind, k)[|prefix|..] == Digits(k);
    DigitsInjective(j, k);
  }

  lemma NotYetIssued(kind: string, n: nat, m: nat)
    requires n < m
    ensures !Issued(kind, Name(kind, m), n)
  {
    forall k: nat | k <= n ensures Name(kind, m) != Name(kind, k) {
      if Name(kind, m) == Name(kind, k) { NameInjective(kind, m, k); }
    }
  }

  lemma NameIsId(kind: string, n: nat)
    requires n < UINT64_BOUND && |kind| <= 10
    ensures Id(Name(kind, n))
  {
    TenPowers();
    DigitsLength(n, 20);
  }

  lemma TenPowers()
    ensures UINT64_BOUND < Ten(20)
  {
    assert Ten(10) == 10_000_000_000;
    assert Ten(20) == 100_000_000_000_000_000_000;
  }

  lemma IssuedIsId(kind: string, name: string, n: nat)
    requires n < UINT64_BOUND && |kind| <= 10 && Issued(kind, name, n)
    ensures Id(name)
  {
    var k: nat :| k <= n && name == Name(kind, k);
    NameIsId(kind, k);
  }

  lemma IssuedMonotone(kind: string, name: string, n: nat, m: nat)
    requires Issued(kind, name, n) && n <= m
    ensures Issued(kind, name, m)
  {
    var k: nat :| k <= n && name == Name(kind, k);
    assert k <= m;
  }

  // ---- the simulation ----

  /** The emitter's reducer stands exactly at the sequence the stream claimed last. */
  ghost predicate Linked(p: Publisher) {
    Active(p) && LinkedStream(p.stream.value)
  }

  ghost predicate LiveAction(c: Core, id: string) {
    exists i | 0 <= i < |c.state.actions| :: c.state.actions[i].actionId == id && LiveBlocker(c.state.actions[i])
  }

  /** The publisher's bookkeeping is the reducer's. */
  ghost predicate Mirrors(c: Core, blockers: map<string, string>) {
    && c.blockedCycle == ""
    && (forall i | 0 <= i < |c.state.actions| ::
          c.state.actions[i].blocksForeground && Id(c.state.actions[i].actionId))
    && (forall id :: id in blockers <==> LiveAction(c, id))
    && (forall id | id in blockers ::
          id in c.actionCycle && c.actionCycle[id] == blockers[id] && blockers[id] != "")
  }

  /** Every turn and every cycle in use came from this publisher's counter. */
  ghost predicate Named(c: Core, blockers: map<string, string>, n: nat) {
    && (forall t | t in c.turnSeen :: Issued("turn", t, n))
    && (forall id | id in blockers :: Issued("cycle", blockers[id], n))
    && c.state.foreground.Some? && Issued("cycle", c.state.foreground.value.cycleId, n)
  }

  ghost predicate InSimulation(p: Publisher) {
    p.counter < UINT64_BOUND &&
    (Active(p) ==>
      && Linked(p) && Mirrors(p.stream.value.core, p.blockers)
      && Named(p.stream.value.core, p.blockers, p.counter))
  }

  lemma NamedMonotone(c: Core, blockers: map<string, string>, n: nat, m: nat)
    requires Named(c, blockers, n) && n <= m
    ensures Named(c, blockers, m)
  {
    forall t | t in c.turnSeen ensures Issued("turn", t, m) { IssuedMonotone("turn", t, n, m); }
    forall id | id in blockers ensures Issued("cycle", blockers[id], m) {
      IssuedMonotone("cycle", blockers[id], n, m);
    }
    IssuedMonotone("cycle", c.state.foreground.value.cycleId, n, m);
  }

  /** A cycle is blocked in the reducer exactly when the publisher lists a blocker of it. */
  lemma BlockedIffPending(c: Core, blockers: map<string, string>, cycleId: string)
    requires Mirrors(c, blockers) && cycleId != ""
    ensures Blocked(c, cycleId) <==> BlockedBy(blockers, cycleId) != {}
  {
    if Blocked(c, cycleId) {
      var i :| 0 <= i < |c.state.actions| && Blocks(c, i, cycleId);
      assert LiveAction(c, c.state.actions[i].actionId);
      assert c.state.actions[i].actionId in BlockedBy(blockers, cycleId);
    }
    if BlockedBy(blockers, cycleId) != {} {
      var id :| id in BlockedBy(blockers, cycleId);
      var i :| 0 <= i < |c.state.actions| && c.state.actions[i].actionId == id && LiveBlocker(c.state.actions[i]);
      assert Blocks(c, i, cycleId);
    }
  }

  /** A foreground cycle with a pending blocker is in requires_action. */
  lemma PendingRequiresAction(p: Publisher)
    requires InSimulation(p) && Active(p)
    requires var f := p.stream.value.core.state.foreground; f.Some? && BlockedBy(p.blockers, f.value.cycleId) != {}
    ensures p.stream.value.core.state.foreground.value.state.RequiresAction?
  {
    var c := p.stream.value.core;
    var f := c.state.foreground.value;
    IssuedIsId("cycle", f.cycleId, p.counter);
    BlockedIffPending(c, p.blockers, f.cycleId);
  }

  // ---- one emission ----

  function NextDelivery(s: Stream, e: Event): Delivery {
    var n := Notification(Envelope(s.id, Count(s.sequence), e));
    Delivery(s.id, Count(s.sequence), CarrierSessionInfo, e, n)
  }

  predicate Room(p: Publisher, events: nat)
    requires p.stream.Some?
  {
    p.stream.value.sequence + events < UINT64_BOUND
  }

  ghost predicate LinkedStream(s: Stream) {
    && Coherent(s.core) && s.core.frames.None? && s.core.negotiated.Present() && !s.core.state.closed
    && s.core.state.streamId == s.id && Id(s.id)
    && s.core.state.reducedThrough == s.sequence
  }

  /** The stream after an event it applied. */
  function Advanced(s: Stream, e: Event): Stream
    requires s.core.failed.None?
  {
    var d := NextDelivery(s, e);
    Stream(s.id, Commit(Apply(s.core, d), d), Count(s.sequence))
  }

  lemma ReduceAdvances(s: Stream, e: Event)
    requires LinkedStream(s) && s.sequence + 1 < UINT64_BOUND && !e.Opens()
    requires Apply(s.core, NextDelivery(s, e)).failed.None?
    ensures Reduce(s.core, NextDelivery(s, e)) == Advanced(s, e).core
  {
    NextIsCommitted(s.core, NextDelivery(s, e));
  }

  lemma AdvancedLinked(s: Stream, e: Event)
    requires LinkedStream(s) && s.sequence + 1 < UINT64_BOUND && !e.Opens()
    requires Apply(s.core, NextDelivery(s, e)).failed.None?
    ensures LinkedStream(Advanced(s, e)) && Advanced(s, e).sequence == s.sequence + 1
  {
    var d := NextDelivery(s, e);
    ApplyFrame(s.core, d);
    ApplyInv(s.core, d);
    CommitKeepsInv(Apply(s.core, d), d);
  }

  lemma StreamEmitApplied(s: Stream, e: Event)
    requires LinkedStream(s) && s.sequence + 1 < UINT64_BOUND && Admissible(e) && !e.Opens()
    requires Apply(s.core, NextDelivery(s, e)).failed.None?
    ensures StreamEmit(s, e) == (Advanced(s, e), Some(Envelope(s.id, s.sequence + 1, e)))
    ensures LinkedStream(Advanced(s, e)) && Advanced(s, e).sequence == s.sequence + 1
  {
    ReduceAdvances(s, e);
    AdvancedLinked(s, e);
    EncodeThenDecode(s.id, s.sequence + 1, e, s.core.negotiated);
  }

  /** What an emission that was not refused leaves: the advanced stream, or a fenced one. */
  ghost predicate Emitted(p: Publisher, stream: Stream, envelope: Json, p1: Publisher, err: Option<PublishError>) {
    && p1.counter == p.counter && p1.blockers == p.blockers && p1.deliver == p.deliver && p1.stream.Some?
    && (err == None || err == Some(DeliveryFailed))
    && (err.Some? ==> !Active(p1) && p1.published == p.published)
    && (err.None? ==> p1.stream.value == stream && p1.published == p.published + [envelope])
  }

  lemma HandedOut(p: Publisher, stream: Stream, envelope: Json)
    ensures var (p1, err) := HandOut(p.(stream := Some(stream)), Some(envelope));
            Emitted(p, stream, envelope, p1, err)
  {
  }

  /** An admissible event the reducer applies is published, or its failed delivery ends the incarnation. */
  lemma EmitApplied(p: Publisher, e: Event)
    requires Linked(p) && Room(p, 1) && Admissible(e) && !e.Opens()
    requires Apply(p.stream.value.core, NextDelivery(p.stream.value, e)).failed.None?
    ensures var s := p.stream.value;
            var (p1, err) := Emit(p, e);
            && Emitted(p, Advanced(s, e), Envelope(s.id, s.sequence + 1, e), p1, err)
            && LinkedStream(Advanced(s, e)) && Advanced(s, e).sequence == s.sequence + 1
  {
    var s := p.stream.value;
    StreamEmitApplied(s, e);
    EmitHandsOut(p, e, Advanced(s, e), Envelope(s.id, s.sequence + 1, e));
    HandedOut(p, Advanced(s, e), Envelope(s.id, s.sequence + 1, e));
  }

  lemma EmitHandsOut(p: Publisher, e: Event, s1: Stream, envelope: Json)
    requires p.stream.Some? && StreamEmit(p.stream.value, e) == (s1, Some(envelope))
    ensures Emit(p, e) == HandOut(p.(stream := Some(s1)), Some(envelope))
  {
  }

  /** The bookkeeping does not depend on what Commit writes. */
  lemma CommitMirrors(c: Core, d: Delivery, blockers: map<string, string>, n: nat)
    ensures Mirrors(Commit(c, d), blockers) == Mirrors(c, blockers)
    ensures Named(Commit(c, d), blockers, n) == Named(c, blockers, n)
  {
    var c1 := Commit(c, d);
    assert forall id :: LiveAction(c1, id) == LiveAction(c, id);
  }

  // ---- what the reducer does with each event the publisher builds ----

  /** Nothing the bookkeeping depends on changed, except perhaps which turns were introduced. */
  predicate SameBlocking(c: Core, c1: Core) {
    c1.state.actions == c.state.actions && c1.actionCycle == c.actionCycle
  }

  lemma SameBlockingMirrors(c: Core, c1: Core, blockers: map<string, string>)
    requires SameBlocking(c, c1) && Mirrors(c, blockers) && c1.blockedCycle == ""
    ensures Mirrors(c1, blockers)
  {
    assert forall id :: LiveAction(c1, id) == LiveAction(c, id);
  }

  lemma AcceptanceApplies(c: Core, d: Delivery, a: PromptAccepted)
    requires Inv(c) && c.failed.None? && a.turnId !in c.turnSeen
    ensures var c1 := ApplyPromptAccepted(c, d, a);
            && c1.failed.None? && SameBlocking(c, c1) && c1.blockedCycle == c.blockedCycle
            && c1.turnSeen == c.turnSeen + {a.turnId} && c1.state.foreground == c.state.foreground
            && TurnIsOpen(c1, a.turnId)
  {
    var c1 := ApplyPromptAccepted(c, d, a);
    assert a.turnId !in TurnIds(c.state.turns);
    assert c1.state.turns[|c.state.turns|].turnId == a.turnId;
  }

  /** A running transition onto an unblocked cycle of an open turn, or of an agent turn not seen before. */
  lemma RunningApplies(c: Core, d: Delivery, y: Cycle)
    requires Inv(c) && c.failed.None? && y.turnId != "" && y.cycleId != "" && c.blockedCycle == ""
    requires !Blocked(c, y.cycleId)
    requires TurnIsOpen(c, y.turnId) || (y.origin.Activity? && y.turnId !in TurnIds(c.state.turns))
    ensures var c1 := ApplyTransition(c, d, TransitionOf(Running, y).transition);
            && c1.failed.None? && SameBlocking(c, c1) && c1.blockedCycle == ""
            && c1.turnSeen <= c.turnSeen + {y.turnId}
            && c1.state.foreground == Some(Foreground(Running, y.cycleId, y.turnId, NoCause))
  {
    if TurnIsOpen(c, y.turnId) { OpenTurnIndex(c, y.turnId); }
  }

  lemma RequiresActionApplies(c: Core, d: Delivery, y: Cycle)
    requires Inv(c) && c.failed.None? && y.turnId != "" && y.cycleId != ""
    requires c.blockedCycle == "" || c.blockedCycle == y.cycleId
    requires Blocked(c, y.cycleId) && TurnIsOpen(c, y.turnId)
    ensures var c1 := ApplyTransition(c, d, TransitionOf(RequiresAction, y).transition);
            && c1.failed.None? && SameBlocking(c, c1) && c1.blockedCycle == ""
            && c1.turnSeen == c.turnSeen
            && c1.state.foreground == Some(Foreground(RequiresAction, y.cycleId, y.turnId, NoCause))
  {
    OpenTurnIndex(c, y.turnId);
  }

  lemma EndingApplies(c: Core, d: Delivery, y: Cycle, stopReason: string, outcome: Outcome)
    requires Inv(c) && c.failed.None? && y.turnId != "" && y.cycleId != "" && c.blockedCycle == ""
    requires !Blocked(c, y.cycleId) && TurnIsOpen(c, y.turnId)
    requires !outcome.NoOutcome? && (outcome.Failed? <==> stopReason == "")
    ensures var c1 := ApplyTransition(c, d, IdleOf(y, stopReason, outcome).transition);
            && c1.failed.None? && SameBlocking(c, c1) && c1.blockedCycle == ""
            && c1.turnSeen == c.turnSeen
            && c1.state.foreground == Some(Foreground(Idle, y.cycleId, "", NoCause))
  {
    OpenTurnIndex(c, y.turnId);
  }

  /** A fresh blocking action is recorded against the cycle current at its first sight. */
  lemma FirstSightApplies(c: Core, d: Delivery, u: ActionUpdate, blockers: map<string, string>)
    requires Inv(c) && c.failed.None? && Mirrors(c, blockers)
    requires u.actionId !in ActionIds(c.state.actions) && Id(u.actionId)
    requires !ActionIdentityDefect(u) && u.state.ActionPending? && u.blocksForeground == Some(true)
    requires u.owner.kind.OwnerTurn? && u.owner.id in c.turnSeen
    requires c.state.foreground.value.cycleId != ""
    ensures var c1 := ApplyAction(c, d, u);
            var f := c.state.foreground.value;
            && c1.failed.None? && c1.turnSeen == c.turnSeen && c1.state.foreground == c.state.foreground
            && c1.state.turns == c.state.turns
            && c1.blockedCycle == (if f.state.RequiresAction? then "" else f.cycleId)
            && Mirrors(c1.(blockedCycle := ""), blockers[u.actionId := f.cycleId])
            && Blocked(c1, f.cycleId)
  {
    var c1 := ApplyAction(c, d, u);
    var f := c.state.foreground.value;
    var c2 := c1.(blockedCycle := "");
    var n := |c.state.actions|;
    assert c1.state.actions[n] == RecordedAction(u) && c1.state.actions[..n] == c.state.actions;
    assert Blocks(c1, n, f.cycleId);
    OneMoreLive(c, c2, u.actionId);
  }

  lemma OneMoreLive(c: Core, c1: Core, actionId: string)
    requires |c1.state.actions| == |c.state.actions| + 1 && c1.state.actions[..|c.state.actions|] == c.state.actions
    requires var a := c1.state.actions[|c.state.actions|]; a.actionId == actionId && LiveBlocker(a)
    ensures forall id :: LiveAction(c1, id) <==> LiveAction(c, id) || id == actionId
  {
    var n := |c.state.actions|;
    forall id ensures LiveAction(c1, id) <==> LiveAction(c, id) || id == actionId {
      if LiveAction(c, id) {
        var i :| 0 <= i < n && c.state.actions[i].actionId == id && LiveBlocker(c.state.actions[i]);
        assert c1.state.actions[i] == c.state.actions[i];
      }
      if LiveAction(c1, id) && id != actionId {
        var i :| 0 <= i <= n && c1.state.actions[i].actionId == id && LiveBlocker(c1.state.actions[i]);
        assert c1.state.actions[i] == c.state.actions[i];
      }
    }
  }

  /** Resolving a live action releases exactly it. */
  lemma ResolutionApplies(c: Core, d: Delivery, id: string, state: ActionState, blockers: map<string, string>)
    requires Inv(c) && c.failed.None? && Mirrors(c, blockers) && id in blockers && state.Terminal()
    ensures var c1 := ApplyAction(c, d, ResolvedOf(id, state).action);
            && c1.failed.None? && c1.turnSeen == c.turnSeen && c1.state.foreground == c.state.foreground
            && c1.state.turns == c.state.turns && Mirrors(c1, blockers - {id})
  {
    var c1 := ApplyAction(c, d, ResolvedOf(id, state).action);
    var k := ResolutionPatches(c, d, id, state, blockers);
    assert forall i | 0 <= i < |c.state.actions| && i != k :: c1.state.actions[i] == c.state.actions[i];
    forall other ensures other in blockers - {id} <==> LiveAction(c1, other) {
      ResolutionReleases(c, c1, k, other);
    }
  }

  lemma ResolutionPatches(c: Core, d: Delivery, id: string, state: ActionState, blockers: map<string, string>)
    returns (k: nat)
    requires Inv(c) && c.failed.None? && Mirrors(c, blockers) && id in blockers && state.Terminal()
    ensures k < |c.state.actions| && c.state.actions[k].actionId == id
    ensures ApplyAction(c, d, ResolvedOf(id, state).action) ==
            c.(state := c.state.(actions := c.state.actions[k := c.state.actions[k].(state := state)]))
  {
    assert LiveAction(c, id);
    k :| 0 <= k < |c.state.actions| && c.state.actions[k].actionId == id && LiveBlocker(c.state.actions[k]);
    IndexOfDistinct(ActionIds(c.state.actions), k);
  }

  lemma ResolutionReleases(c: Core, c1: Core, k: nat, other: string)
    requires IdsUnique(c.state) && k < |c.state.actions| == |c1.state.actions|
    requires c1.state.actions == c.state.actions[k := c1.state.actions[k]]
    requires c1.state.actions[k].actionId == c.state.actions[k].actionId && !LiveBlocker(c1.state.actions[k])
    ensures LiveAction(c1, other) <==> LiveAction(c, other) && other != c.state.actions[k].actionId
  {
    var ids := ActionIds(c.state.actions);
    if LiveAction(c1, other) {
      var i :| 0 <= i < |c1.state.actions| && c1.state.actions[i].actionId == other && LiveBlocker(c1.state.actions[i]);
      assert c.state.actions[i] == c1.state.actions[i] && ids[i] != ids[k];
    }
    if LiveAction(c, other) && other != c.state.actions[k].actionId {
      var i :| 0 <= i < |c.state.actions| && c.state.actions[i].actionId == other && LiveBlocker(c.state.actions[i]);
      assert c1.state.actions[i] == c.state.actions[i];
    }
  }
}
