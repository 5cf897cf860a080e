/**
 Retransmissions are erased (lifecycle/reducer.go): copies of frames already reduced in the current
 incarnation change nothing but the counter that counts them.
 */
module Retransmission {
  import opened Wrappers
  import opened Values
  import opened Events
  import opened ReducerModel
  import opened ReducerInvariant
  import opened ReducerRuns
  import opened ReducerLimits

  /** One item of a stream that repeats itself: an input of the original run, or a repeated delivery. */
  datatype Item = Fresh(i: Input) | Copy(d: Delivery)

  function PaddedRun(c: Core, items: seq<Item>): Core {
    if items == [] then c
    else
      var before := PaddedRun(c, items[..|items| - 1]);
      match items[|items| - 1]
      case Fresh(i) => Step(before, i)
      case Copy(d) => Reduce(before, d)
  }

  /** The original run: the items that are not copies. */
  function Erase(items: seq<Item>): seq<Input> {
    if items == [] then []
    else
      var before := Erase(items[..|items| - 1]);
      match items[|items| - 1]
      case Fresh(i) => before + [i]
      case Copy(_) => before
  }

  /** The delivery repeats an identity this incarnation reduced, with a value-equal frame. */
  predicate Repeats(c: Core, d: Delivery) {
    && c.started && !c.state.closed && d.carrier.CarrierSessionInfo?
    && d.streamId == c.state.streamId && Retransmits(c, d)
  }

  /** Every copy repeats something the original run had reduced by then. */
  predicate CopiesRepeat(c: Core, items: seq<Item>) {
    items != [] ==>
      var prefix := items[..|items| - 1];
      CopiesRepeat(c, prefix)
      && (items[|items| - 1].Copy? ==> Repeats(Run(c, Erase(prefix)), items[|items| - 1].d))
  }

  /** How many copies arrived since the current incarnation opened. */
  function Copies(c: Core, items: seq<Item>): nat {
    if items == [] then 0
    else
      var prefix := items[..|items| - 1];
      match items[|items| - 1]
      case Copy(_) => Copies(c, prefix) + 1
      case Fresh(i) =>
        var before := Run(c, Erase(prefix));
        if Step(before, i).state.streamId == before.state.streamId then Copies(c, prefix) else 0
  }

  function Bump(c: Core, n: nat): Core {
    c.(state := c.state.(suppressed := c.state.suppressed + n))
  }

  // ---- bookkeeping no event looks at ----

  /** The same reducer with other bookkeeping: the counter, the retained digests, the retired streams. */
  function Rekey(c: Core, k: Books): Core {
    c.(state := c.state.(suppressed := k.suppressed), frames := k.frames, retired := k.retired)
  }

  datatype Books = Books(suppressed: nat, frames: Option<map<nat, string>>, retired: set<string>)

  lemma LiveRekey(c: Core, d: Delivery, t: Transition, k: Books)
    ensures ApplyLive(Rekey(c, k), d, t) == Rekey(ApplyLive(c, d, t), k)
  {
  }

  lemma IdleRekey(c: Core, d: Delivery, t: Transition, k: Books)
    ensures ApplyIdle(Rekey(c, k), d, t) == Rekey(ApplyIdle(c, d, t), k)
  {
  }

  lemma TransitionRekey(c: Core, d: Delivery, t: Transition, k: Books)
    requires c.failed.None?
    ensures ApplyTransition(Rekey(c, k), d, t) == Rekey(ApplyTransition(c, d, t), k)
  {
    BlockedFrame(c, Rekey(c, k), t.cycleId);
    var checked := CheckBlockedCycle(c, d, t);
    assert CheckBlockedCycle(Rekey(c, k), d, t) == Rekey(checked, k);
    LiveRekey(checked, d, t, k);
    IdleRekey(checked, d, t, k);
  }

  lemma PatchActivityRekey(c: Core, d: Delivery, index: nat, u: ActivityRecord, k: Books)
    requires index < |c.state.activities|
    ensures PatchActivity(Rekey(c, k), d, index, u) == Rekey(PatchActivity(c, d, index, u), k)
  {
    var b, id := Rekey(c, k), c.state.activities[index].activityId;
    assert LiveChild(b, id) == LiveChild(c, id);
    assert LiveOwnedAction(b, id) == LiveOwnedAction(c, id);
  }

  lemma ActivityRekey(c: Core, d: Delivery, u: ActivityRecord, k: Books)
    ensures ApplyActivity(Rekey(c, k), d, u) == Rekey(ApplyActivity(c, d, u), k)
  {
    var index := IndexOf(ActivityIds(c.state.activities), u.activityId);
    if index >= 0 {
      PatchActivityRekey(c, d, index, u, k);
    } else {
      assert FirstActivityDefect(Rekey(c, k), u) == FirstActivityDefect(c, u);
    }
  }

  lemma PatchActionRekey(c: Core, d: Delivery, index: nat, u: ActionUpdate, k: Books)
    requires index < |c.state.actions|
    ensures PatchAction(Rekey(c, k), d, index, u) == Rekey(PatchAction(c, d, index, u), k)
  {
  }

  lemma RecordActionRekey(c: Core, u: ActionUpdate, k: Books)
    requires u.blocksForeground.Some?
    ensures RecordAction(Rekey(c, k), u) == Rekey(RecordAction(c, u), k)
  {
  }

  lemma ActionRekey(c: Core, d: Delivery, u: ActionUpdate, k: Books)
    ensures ApplyAction(Rekey(c, k), d, u) == Rekey(ApplyAction(c, d, u), k)
  {
    var index := IndexOf(ActionIds(c.state.actions), u.actionId);
    if index >= 0 {
      PatchActionRekey(c, d, index, u, k);
    } else if u.blocksForeground.Some? {
      RecordActionRekey(c, u, k);
    }
  }

  lemma ApplyRekey(c: Core, d: Delivery, k: Books)
    requires c.failed.None?
    ensures Apply(Rekey(c, k), d) == Rekey(Apply(c, d), k)
  {
    match d.event
    case StateEvent(t) => TransitionRekey(c, d, t, k);
    case ActivityEvent(u) => ActivityRekey(c, d, u, k);
    case ActionEvent(u) => ActionRekey(c, d, u, k);
    case AcceptedEvent(a) => assert ApplyPromptAccepted(Rekey(c, k), d, a) == Rekey(ApplyPromptAccepted(c, d, a), k);
    case _ =>
  }

  lemma NextBump(c: Core, d: Delivery, n: nat)
    requires NextInStream(c, d) && Reduce(c, d).failed.None?
    ensures Reduce(Bump(c, n), d) == Bump(Reduce(c, d), n)
    ensures Reduce(c, d).state.streamId == c.state.streamId
  {
    NextIsCommitted(c, d);
    NextIsCommitted(Bump(c, n), d);
    var k := Books(c.state.suppressed + n, c.frames, c.retired);
    ApplyRekey(c, d, k);
    ApplyFrame(c, d);
    var applied := Apply(c, d);
    assert Bump(c, n) == Rekey(c, k);
    assert Bump(applied, n) == Rekey(applied, k);
    assert Bump(Commit(applied, d), n) == Commit(Bump(applied, n), d);
  }

  lemma StepBump(c: Core, i: Input, n: nat)
    requires Sound(c) && c.started && Step(c, i).failed.None?
    ensures Step(Bump(c, n), i) ==
            if Step(c, i).state.streamId == c.state.streamId then Bump(Step(c, i), n) else Step(c, i)
  {
    match i
    case Deliver(d) =>
      if d.streamId != c.state.streamId {
        ReduceForeignCoherent(c, d);
      } else if d.sequence > c.state.reducedThrough {
        NextBump(c, d, n);
      }
    case _ =>
  }

  // ---- erasure ----

  lemma {:induction false} NoCopiesBeforeStart(c: Core, items: seq<Item>)
    requires Sound(c) && CopiesRepeat(c, items) && Run(c, Erase(items)).failed.None?
    requires !Run(c, Erase(items)).started
    ensures Copies(c, items) == 0
  {
    if items != [] {
      var prefix, last := items[..|items| - 1], items[|items| - 1];
      var before := Run(c, Erase(prefix));
      if last.Fresh? {
        assert Erase(items)[..|Erase(items)| - 1] == Erase(prefix);
        LatchedStep(before, last.i);
        RunSound(c, Erase(prefix));
        if before.started {
          StaysStarted(before, last.i);
        }
        NoCopiesBeforeStart(c, prefix);
      }
    }
  }

  lemma StaysStarted(c: Core, i: Input)
    requires Sound(c) && Step(c, i).failed.None? && c.started
    ensures Step(c, i).started
  {
    StepContinues(c, i);
  }

  /**
   Repeats inserted anywhere leave an accepted run accepted and its state the same, except that the suppression
   counter counts exactly those of the current incarnation.
   */
  lemma {:induction false} RepeatsErased(c: Core, items: seq<Item>)
    requires Sound(c) && CopiesRepeat(c, items) && Run(c, Erase(items)).failed.None?
    ensures PaddedRun(c, items) == Bump(Run(c, Erase(items)), Copies(c, items))
  {
    if items != [] {
      var prefix, last := items[..|items| - 1], items[|items| - 1];
      RunSound(c, Erase(prefix));
      ErasedUnfailed(c, items);
      RepeatsErased(c, prefix);
      if last.Copy? {
        RepeatIsSuppressed(Bump(Run(c, Erase(prefix)), Copies(c, prefix)), last.d);
      } else {
        FreshRun(c, items);
        FreshErased(c, items);
      }
    }
  }

  lemma FreshRun(c: Core, items: seq<Item>)
    requires items != [] && items[|items| - 1].Fresh?
    ensures Run(c, Erase(items)) == Step(Run(c, Erase(items[..|items| - 1])), items[|items| - 1].i)
  {
    ErasedLast(c, items[..|items| - 1], items[|items| - 1].i);
    assert items[..|items| - 1] + [items[|items| - 1]] == items;
  }


  lemma FreshErased(c: Core, items: seq<Item>)
    requires items != [] && items[|items| - 1].Fresh?
    requires var prefix, i := items[..|items| - 1], items[|items| - 1].i;
             var before := Run(c, Erase(prefix));
             && Sound(c) && CopiesRepeat(c, prefix) && Sound(before) && before.failed.None?
             && Step(before, i).failed.None? && PaddedRun(c, prefix) == Bump(before, Copies(c, prefix))
    ensures PaddedRun(c, items)
            == Bump(Step(Run(c, Erase(items[..|items| - 1])), items[|items| - 1].i), Copies(c, items))
  {
    var prefix := items[..|items| - 1];
    var before := Run(c, Erase(prefix));
    if !before.started {
      NoCopiesBeforeStart(c, prefix);
    }
    FreshStep(before, items[|items| - 1].i, Copies(c, prefix));
  }

  lemma ErasedLast(c: Core, prefix: seq<Item>, i: Input)
    ensures Run(c, Erase(prefix + [Fresh(i)])) == Step(Run(c, Erase(prefix)), i)
  {
    assert (prefix + [Fresh(i)])[..|prefix|] == prefix;
    assert Erase(prefix + [Fresh(i)]) == Erase(prefix) + [i];
    assert (Erase(prefix) + [i])[..|Erase(prefix)|] == Erase(prefix);
  }

  lemma FreshStep(c: Core, i: Input, n: nat)
    requires Sound(c) && Step(c, i).failed.None? && (c.started || n == 0)
    ensures Step(Bump(c, n), i) == Bump(Step(c, i), if Step(c, i).state.streamId == c.state.streamId then n else 0)
  {
    assert Bump(c, 0) == c && Bump(Step(c, i), 0) == Step(c, i);
    if c.started {
      StepBump(c, i, n);
    }
  }

  lemma RepeatIsSuppressed(c: Core, d: Delivery)
    requires c.failed.None? && FramesContiguous(c) && Repeats(c, d)
    ensures Reduce(c, d) == Bump(c, 1)
  {
  }

  // ---- what is retained ----

  /** Some input of the run delivered this sequence of the current stream with this digest. */
  ghost predicate WasDelivered(c: Core, inputs: seq<Input>, n: nat) {
    exists k | 0 <= k < |inputs| ::
      inputs[k].Deliver? && inputs[k].d.streamId == c.state.streamId && inputs[k].d.sequence == n
      && c.frames.Some? && n in c.frames.value && c.frames.value[n] == Canonical(inputs[k].d.frame)
  }

  lemma StepFrames(c: Core, i: Input)
    requires Sound(c) && Step(c, i).failed.None? && Step(c, i).started
    ensures var c1 := Step(c, i);
            || (c.started && c1.frames == c.frames && c1.state.streamId == c.state.streamId)
            || (&& i.Deliver? && c1.state.streamId == i.d.streamId && c1.state.reducedThrough == i.d.sequence
                && (c1.frames.Some? ==>
                      && i.d.sequence in c1.frames.value && c1.frames.value[i.d.sequence] == Canonical(i.d.frame)
                      && forall n | n in c1.frames.value && n != i.d.sequence ::
                           c.started && c.state.streamId == i.d.streamId
                           && c.frames.Some? && n in c.frames.value && c.frames.value[n] == c1.frames.value[n]))
  {
    match i
    case Deliver(d) =>
      if !c.started {
        ReduceFirstCoherent(c, d);
        FirstFrames(c, d);
      } else if d.streamId != c.state.streamId {
        ReduceForeignCoherent(c, d);
        ReduceFirstCoherent(Reset(c.negotiated, c.retired, d.streamId), d);
        FirstFrames(Reset(c.negotiated, c.retired, d.streamId), d);
      } else if d.sequence > c.state.reducedThrough {
        NextIsCommitted(c, d);
        ApplyFrame(c, d);
      }
    case _ =>
  }

  lemma FirstFrames(c: Core, d: Delivery)
    requires Empty(c) && c.failed.None? && ReduceFirst(c, d).failed.None?
    requires c.frames.Some? ==> c.frames.value == map[]
    ensures ReduceFirst(c, d).frames ==
            if c.frames.Some? then Some(map[d.sequence := Canonical(d.frame)]) else None
  {
    var named := c.(state := c.state.(streamId := d.streamId), started := true, base := d.sequence);
    ApplySnapshotInv(named, d);
  }

  /** Every retained digest is that of a frame this run delivered at that identity. */
  lemma {:induction false} RetainedWereDelivered(c: Core, inputs: seq<Input>, n: nat)
    requires Sound(c) && Pristine(c) && Run(c, inputs).failed.None? && Run(c, inputs).started
    requires Run(c, inputs).frames.Some? && n in Run(c, inputs).frames.value
    ensures WasDelivered(Run(c, inputs), inputs, n)
  {
    if inputs != [] {
      var rest, last := inputs[..|inputs| - 1], inputs[|inputs| - 1];
      var before, after := Run(c, rest), Run(c, inputs);
      LatchedStep(before, last);
      RunSound(c, rest);
      StepFrames(before, last);
      if before.started && before.frames.Some? && n in before.frames.value
         && before.frames.value[n] == after.frames.value[n] && before.state.streamId == after.state.streamId {
        RetainedWereDelivered(c, rest, n);
        var k :| 0 <= k < |rest| && rest[k].Deliver? && rest[k].d.streamId == before.state.streamId
                 && rest[k].d.sequence == n && before.frames.value[n] == Canonical(rest[k].d.frame);
        assert inputs[k] == rest[k];
      } else {
        assert last.Deliver? && last.d.sequence == n;
        assert inputs[|inputs| - 1] == last;
      }
    }
  }

  /** A delivery is suppressed exactly when its frame is value-equal to the one reduced at its identity. */
  lemma SuppressedExactlyWhenEqual(c: Core, d: Delivery, reduced: Json)
    requires Coherent(c) && !c.state.closed && d.carrier.CarrierSessionInfo? && d.streamId == c.state.streamId
    requires c.frames.Some? && c.base <= d.sequence <= c.state.reducedThrough
    requires c.frames.value[d.sequence] == Canonical(reduced)
    ensures Reduce(c, d).failed.None? <==> ValueEqual(reduced, d.frame)
    ensures Reduce(c, d).failed.None? ==> Reduce(c, d) == Bump(c, 1)
  {
    DigestIsExact(reduced, d.frame);
  }

  // ---- every reduced frame is one that repeats ----

  /** The same identity on an eligible carrier, with a value-equal frame. */
  predicate CopyOf(d: Delivery, copy: Delivery) {
    && copy.streamId == d.streamId && copy.sequence == d.sequence && copy.carrier.CarrierSessionInfo?
    && ValueEqual(d.frame, copy.frame)
  }

  /** An accepted delivery leaves its digest under its sequence. */
  lemma ReducedIsRetained(c: Core, d: Delivery)
    requires Sound(c) && Reduce(c, d).failed.None? && Reduce(c, d).frames.Some?
    requires Reduce(c, d).state.streamId == d.streamId
    ensures var c1 := Reduce(c, d);
            d.sequence in c1.frames.value && c1.frames.value[d.sequence] == Canonical(d.frame)
  {
    if !c.started {
      FirstFrames(c, d);
    } else if d.streamId != c.state.streamId {
      FirstFrames(Reset(c.negotiated, c.retired, d.streamId), d);
    }
  }

  /** Within an incarnation no retained digest is ever lost or replaced. */
  lemma StepKeepsDigests(c: Core, i: Input, c1: Core)
    requires Coherent(c) && c.frames.Some?
    requires c1 == Step(c, i) && c1.failed.None? && c1.state.streamId == c.state.streamId
    ensures c1.frames.Some?
    ensures forall n | n in c.frames.value ::
              n in c1.frames.value && c1.frames.value[n] == c.frames.value[n]
  {
    match i
    case Deliver(d) =>
      if d.streamId != c.state.streamId {
        ReduceForeignCoherent(c, d);
      } else if NextInStream(c, d) {
        NextIsCommitted(c, d);
        ApplyFrame(c, d);
      }
    case _ =>
  }

  predicate Retained(c: Core, d: Delivery) {
    c.frames.Some? && d.sequence in c.frames.value && c.frames.value[d.sequence] == Canonical(d.frame)
  }

  lemma {:induction false} RetainedAt(c: Core, inputs: seq<Input>, m: nat, d: Delivery)
    requires Sound(c) && m <= |inputs| && Run(c, inputs[..m]).started && Run(c, inputs).failed.None?
    requires Run(c, inputs).state.streamId == Run(c, inputs[..m]).state.streamId
    requires Retained(Run(c, inputs[..m]), d)
    ensures Retained(Run(c, inputs), d)
    decreases |inputs| - m
  {
    if m == |inputs| {
      assert inputs[..m] == inputs;
    } else {
      Neighbours(c, inputs, m, m, m + 1);
      Midway(c, inputs, m, m + 1);
      RetainedNext(c, inputs, m, d);
      RetainedAt(c, inputs, m + 1, d);
    }
  }

  lemma RetainedNext(c: Core, inputs: seq<Input>, k: nat, d: Delivery)
    requires k < |inputs| && Coherent(Run(c, inputs[..k])) && Coherent(Run(c, inputs[..k + 1]))
    requires Run(c, inputs[..k + 1]).state.streamId == Run(c, inputs[..k]).state.streamId
    requires Retained(Run(c, inputs[..k]), d)
    ensures Retained(Run(c, inputs[..k + 1]), d)
  {
    RunOne(c, inputs, k);
    StepKeepsDigests(Run(c, inputs[..k]), inputs[k], Run(c, inputs[..k + 1]));
  }

  /** A reducer that retains frames keeps retaining them. */
  lemma {:induction false} RetentionStays(c: Core, inputs: seq<Input>)
    requires Sound(c) && c.frames.Some?
    ensures Run(c, inputs).frames.Some?
  {
    if inputs != [] {
      var before := Run(c, inputs[..|inputs| - 1]);
      RetentionStays(c, inputs[..|inputs| - 1]);
      RunSound(c, inputs[..|inputs| - 1]);
      StepRetains(before, inputs[|inputs| - 1]);
    }
  }

  lemma StepRetains(c: Core, i: Input)
    requires Sound(c) && c.frames.Some?
    ensures Step(c, i).frames.Some?
  {
    if i.Deliver? { ReduceRetains(c, i.d); }
  }

  lemma ReduceRetains(c: Core, d: Delivery)
    requires Sound(c) && c.frames.Some?
    ensures Reduce(c, d).frames.Some?
  {
    if c.failed.None? {
      if !c.started {
        FirstRetains(c, d);
      } else if d.streamId != c.state.streamId {
        FirstRetains(Reset(c.negotiated, c.retired, d.streamId), d);
      } else {
        ApplyFrame(c, d);
      }
    }
  }

  lemma FirstRetains(c: Core, d: Delivery)
    requires Empty(c) && c.failed.None? && c.frames.Some?
    ensures ReduceFirst(c, d).frames.Some?
  {
    var named := c.(state := c.state.(streamId := d.streamId), started := true, base := d.sequence);
    if d.event.SnapshotEvent? && SnapshotDefect(c.negotiated, d.event.snapshot).None? {
      StatedBlocking(d.event.snapshot);
      RecordActionsFrame(ProjectTree(named, d.event.snapshot), d.event.snapshot.actions);
    }
  }

  /** What the run reduced at step k it recognises at every later open state of the same incarnation. */
  lemma ReducedRepeats(c: Core, inputs: seq<Input>, k: nat, copy: Delivery)
    requires Sound(c) && c.frames.Some? && k < |inputs| && inputs[k].Deliver? && CopyOf(inputs[k].d, copy)
    requires var r := Run(c, inputs); r.failed.None? && !r.state.closed && r.state.streamId == inputs[k].d.streamId
    requires Run(c, inputs[..k + 1]).state.streamId == inputs[k].d.streamId
    ensures Repeats(Run(c, inputs), copy)
  {
    var d := inputs[k].d;
    PrefixUnfailed(c, inputs, k + 1);
    RunSound(c, inputs[..k]);
    RetentionStays(c, inputs[..k + 1]);
    RunOne(c, inputs, k);
    ReducedIsRetained(Run(c, inputs[..k]), d);
    AcceptedStarts(Run(c, inputs[..k]), d);
    RetainedAt(c, inputs, k + 1, d);
    Midway(c, inputs, k + 1, |inputs|);
    assert inputs[..|inputs|] == inputs;
    EqualValuesEncodeAlike(d.frame, copy.frame);
  }

  lemma AcceptedStarts(c: Core, d: Delivery)
    requires Sound(c) && Reduce(c, d).failed.None?
    ensures Reduce(c, d).started && Reduce(c, d).state.streamId == d.streamId
  {
    if !c.started {
      ReduceFirstCoherent(c, d);
    } else if d.streamId != c.state.streamId {
      ReduceForeignCoherent(c, d);
    } else {
      ApplyFrame(c, d);
    }
  }

  /** The delivery is a copy of one this run reduced, and its stream is still the open one. */
  predicate OwnCopy(c: Core, inputs: seq<Input>, copy: Delivery) {
    var r := Run(c, inputs);
    && r.started && !r.state.closed && r.state.streamId == copy.streamId
    && exists k | 0 <= k < |inputs| :: inputs[k].Deliver? && CopyOf(inputs[k].d, copy)
  }

  /** Every copy is of a frame the original run had reduced by then. */
  predicate CopiesOwn(c: Core, items: seq<Item>) {
    items != [] ==>
      var prefix := items[..|items| - 1];
      CopiesOwn(c, prefix)
      && (items[|items| - 1].Copy? ==> OwnCopy(c, Erase(prefix), items[|items| - 1].d))
  }

  lemma OwnRepeats(c: Core, inputs: seq<Input>, copy: Delivery)
    requires Sound(c) && c.frames.Some? && Run(c, inputs).failed.None? && OwnCopy(c, inputs, copy)
    ensures Repeats(Run(c, inputs), copy)
  {
    var k :| 0 <= k < |inputs| && inputs[k].Deliver? && CopyOf(inputs[k].d, copy);
    PrefixUnfailed(c, inputs, k + 1);
    RunSound(c, inputs[..k]);
    RunOne(c, inputs, k);
    AcceptedStarts(Run(c, inputs[..k]), inputs[k].d);
    ReducedRepeats(c, inputs, k, copy);
  }

  lemma {:induction false} OwnCopiesRepeat(c: Core, items: seq<Item>)
    requires Sound(c) && c.frames.Some? && CopiesOwn(c, items) && Run(c, Erase(items)).failed.None?
    ensures CopiesRepeat(c, items)
  {
    if items != [] {
      var prefix, last := items[..|items| - 1], items[|items| - 1];
      ErasedUnfailed(c, items);
      OwnCopiesRepeat(c, prefix);
      if last.Copy? { OwnRepeats(c, Erase(prefix), last.d); }
    }
  }

  lemma ErasedUnfailed(c: Core, items: seq<Item>)
    requires items != [] && Run(c, Erase(items)).failed.None?
    ensures Run(c, Erase(items[..|items| - 1])).failed.None?
  {
    if items[|items| - 1].Fresh? {
      FreshRun(c, items);
      LatchedStep(Run(c, Erase(items[..|items| - 1])), items[|items| - 1].i);
    }
  }

  /**
   Into an accepted run of a reducer that retains frames, insert anywhere any number of copies of frames it had
   by then reduced in its current incarnation: the run stays accepted with the same state, except that the
   suppression counter counts exactly the copies of the current incarnation.
   */
  lemma RetransmissionsErased(c: Core, items: seq<Item>)
    requires Sound(c) && c.frames.Some? && CopiesOwn(c, items) && Run(c, Erase(items)).failed.None?
    ensures PaddedRun(c, items) == Bump(Run(c, Erase(items)), Copies(c, items))
  {
    OwnCopiesRepeat(c, items);
    RepeatsErased(c, items);
  }
}
