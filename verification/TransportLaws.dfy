/**
 What every interleaving of the opening-publication protocol keeps (wire/transport.go): hooks are called in
 order, once, after their own response, and nobody is released early.
 */
module TransportLaws {
  import opened Wrappers
  import opened TransportModel

  // ---- exactly once ----

  /** The publication still waits for its response. */
  predicate Pending(t: Transport, p: nat)
    requires p < |t.publications|
  {
    var id := t.publications[p].request;
    id in t.hooks && t.hooks[id] == p
  }

  predicate HasTask(t: Transport, p: nat) {
    exists k | 0 <= k < |t.tasks| :: t.tasks[k].publication == p
  }

  /** A registered hook names its own publication, and its request is still recorded. */
  predicate HooksOwned(t: Transport) {
    forall id | id in t.hooks ::
      && t.hooks[id] < |t.publications| && t.publications[t.hooks[id]].request == id
      && id in t.requests
  }

  /** Each publication waits for its response or was released once. */
  predicate ReleasedOnce(t: Transport) {
    && (forall k | 0 <= k < |t.tasks| :: t.tasks[k].publication < |t.publications|)
    && (forall j, k | 0 <= j < k < |t.tasks| :: t.tasks[j].publication != t.tasks[k].publication)
    && (forall p | 0 <= p < |t.publications| :: Pending(t, p) <==> !HasTask(t, p))
  }

  /** The barriers closed are those of the publications that finished. */
  predicate ShutWhenFinished(t: Transport) {
    && (forall k | 0 <= k < |t.tasks| :: t.tasks[k].stage.Finished? <==> t.tasks[k].publication in t.shut)
    && (forall p | p in t.shut :: HasTask(t, p))
    && !t.reclosed
  }

  /** A hook was called exactly for the successful publications past their wait, unless they gave up. */
  predicate CalledOnce(t: Transport) {
    && (forall i, j | 0 <= i < j < |t.called| :: t.called[i] != t.called[j])
    && (forall p | p in t.called :: exists k | 0 <= k < |t.tasks| ::
          t.tasks[k].publication == p && t.tasks[k].success && !t.tasks[k].stage.Waiting?)
  }

  predicate Sound(t: Transport) {
    HooksOwned(t) && ReleasedOnce(t) && ShutWhenFinished(t) && CalledOnce(t)
  }

  lemma RegisterSound(t: Transport, id: string, session: string, hook: nat)
    requires Sound(t)
    ensures Sound(RegisterHook(t, id, session, hook).0)
  {
    var t1 := RegisterHook(t, id, session, hook).0;
    assert forall p :: HasTask(t1, p) == HasTask(t, p);
    if id in t.hooks {
      assert forall p | 0 <= p < |t.publications| :: Pending(t1, p) == Pending(t, p);
    } else if t1 != t {
      NewPending(t, t1, id);
    }
  }

  lemma NewPending(t: Transport, t1: Transport, id: string)
    requires Sound(t) && id !in t.hooks && id in t.requests && t1.requests == t.requests
    requires |t1.publications| == |t.publications| + 1 && t1.publications[..|t.publications|] == t.publications
    requires t1.publications[|t.publications|].request == id && t1.hooks == t.hooks[id := |t.publications|]
    requires t1.tasks == t.tasks && t1.shut == t.shut && t1.reclosed == t.reclosed && t1.called == t.called
    requires forall p :: HasTask(t1, p) == HasTask(t, p)
    ensures Sound(t1)
  {
    forall p | 0 <= p < |t1.publications| ensures Pending(t1, p) <==> !HasTask(t1, p) {
      if p < |t.publications| {
        assert t1.publications[p] == t.publications[p];
        assert Pending(t, p) <==> !HasTask(t, p);
      }
    }
    assert forall i | i in t.hooks :: t1.publications[t.hooks[i]] == t.publications[t.hooks[i]];
  }

  lemma RespondSound(t: Transport, id: string, success: bool)
    requires Sound(t)
    ensures Sound(ObserveResponse(t, id, success))
  {
    if id in t.requests {
      if id in t.hooks { ReleaseSound(t, id, success); } else { ForgetSound(t, id, success); }
      SameProtocol(Release(t, id, success), ObserveResponse(t, id, success));
    }
  }

  lemma ForgetSound(t: Transport, id: string, success: bool)
    requires Sound(t) && id !in t.hooks
    ensures Sound(Release(t, id, success))
  {
    SameTasks(t, Release(t, id, success));
  }

  lemma SameTasks(t: Transport, t1: Transport)
    requires t1.tasks == t.tasks && t1.publications == t.publications && t1.hooks == t.hooks
    ensures forall p :: HasTask(t1, p) == HasTask(t, p)
    ensures forall p | 0 <= p < |t.publications| :: Pending(t1, p) == Pending(t, p)
  {
  }

  lemma ReleaseSound(t: Transport, id: string, success: bool)
    requires Sound(t) && id in t.hooks
    ensures Sound(Release(t, id, success))
  {
    var t1 := Release(t, id, success);
    assert t1.tasks[..|t.tasks|] == t.tasks;
    assert Pending(t, t.hooks[id]);
    StartedTask(t, t1, t.hooks[id]);
    ReleasedHook(t, t1, id);
    StillCalled(t, t1);
  }

  lemma StartedTask(t: Transport, t1: Transport, p: nat)
    requires |t1.tasks| == |t.tasks| + 1 && t1.tasks[..|t.tasks|] == t.tasks && t1.tasks[|t.tasks|].publication == p
    ensures forall q :: HasTask(t1, q) <==> HasTask(t, q) || q == p
  {
    forall q ensures HasTask(t1, q) <==> HasTask(t, q) || q == p {
      if HasTask(t, q) {
        var k :| 0 <= k < |t.tasks| && t.tasks[k].publication == q;
        assert t1.tasks[k] == t.tasks[k];
      }
    }
  }

  lemma ReleasedHook(t: Transport, t1: Transport, id: string)
    requires HooksOwned(t) && ReleasedOnce(t) && id in t.hooks
    requires t1.publications == t.publications && t1.hooks == t.hooks - {id} && t1.requests == t.requests - {id}
    requires |t1.tasks| == |t.tasks| + 1 && t1.tasks[..|t.tasks|] == t.tasks
    requires t1.tasks[|t.tasks|].publication == t.hooks[id]
    requires forall q :: HasTask(t1, q) <==> HasTask(t, q) || q == t.hooks[id]
    requires !HasTask(t, t.hooks[id])
    ensures HooksOwned(t1) && ReleasedOnce(t1)
  {
    forall j | 0 <= j < |t.tasks| ensures t1.tasks[j] == t.tasks[j] && t.tasks[j].publication != t.hooks[id] {
      assert t1.tasks[..|t.tasks|][j] == t1.tasks[j];
      assert HasTask(t, t.tasks[j].publication);
    }
    forall p | 0 <= p < |t.publications| ensures Pending(t1, p) <==> !HasTask(t1, p) {
      assert Pending(t, p) <==> !HasTask(t, p);
    }
  }

  lemma StillCalled(t: Transport, t1: Transport)
    requires CalledOnce(t) && t1.called == t.called && |t.tasks| <= |t1.tasks| && t1.tasks[..|t.tasks|] == t.tasks
    ensures CalledOnce(t1)
  {
    forall p | p in t1.called
      ensures exists k | 0 <= k < |t1.tasks| ::
                t1.tasks[k].publication == p && t1.tasks[k].success && !t1.tasks[k].stage.Waiting?
    {
      var k :| 0 <= k < |t.tasks| && t.tasks[k].publication == p && t.tasks[k].success && !t.tasks[k].stage.Waiting?;
      assert t1.tasks[k] == t.tasks[k];
    }
  }

  /** Moving one task on changes no other. */
  lemma StageKeepsTasks(t: Transport, t1: Transport, k: nat, stage: Stage)
    requires k < |t.tasks| && t1.tasks == t.tasks[k := t.tasks[k].(stage := stage)]
    ensures forall p :: HasTask(t1, p) == HasTask(t, p)
  {
    forall p ensures HasTask(t1, p) == HasTask(t, p) {
      if HasTask(t, p) {
        var j :| 0 <= j < |t.tasks| && t.tasks[j].publication == p;
        assert t1.tasks[j].publication == p;
      }
      if HasTask(t1, p) {
        var j :| 0 <= j < |t1.tasks| && t1.tasks[j].publication == p;
        assert t.tasks[j].publication == p;
      }
    }
  }

  lemma SameReleases(t: Transport, t1: Transport)
    requires ReleasedOnce(t) && HooksOwned(t)
    requires t1.publications == t.publications && t1.hooks == t.hooks && t1.requests == t.requests
    requires |t1.tasks| == |t.tasks|
             && forall k | 0 <= k < |t.tasks| :: t1.tasks[k].publication == t.tasks[k].publication
    requires forall p :: HasTask(t1, p) == HasTask(t, p)
    ensures ReleasedOnce(t1) && HooksOwned(t1)
  {
    assert forall p | 0 <= p < |t.publications| :: Pending(t1, p) == Pending(t, p);
  }

  lemma NotYetCalled(t: Transport, k: nat)
    requires ReleasedOnce(t) && CalledOnce(t) && k < |t.tasks| && t.tasks[k].stage.Waiting?
    ensures t.tasks[k].publication !in t.called
  {
    forall p | p in t.called ensures p != t.tasks[k].publication {
      var j :| 0 <= j < |t.tasks| && t.tasks[j].publication == p && !t.tasks[j].stage.Waiting?;
    }
  }

  lemma EnterSound(t: Transport, k: nat)
    requires Sound(t)
    ensures Sound(Enter(t, k))
  {
    var t1 := Enter(t, k);
    if t1 != t {
      StageKeepsTasks(t, t1, k, Calling);
      SameReleases(t, t1);
      NotYetCalled(t, k);
      forall q | q in t1.called
        ensures exists j | 0 <= j < |t1.tasks| ::
                  t1.tasks[j].publication == q && t1.tasks[j].success && !t1.tasks[j].stage.Waiting?
      {
        if q in t.called {
          var j :| 0 <= j < |t.tasks| && t.tasks[j].publication == q && t.tasks[j].success
            && !t.tasks[j].stage.Waiting?;
          assert t1.tasks[j] == t.tasks[j];
        } else {
          assert t1.tasks[k].publication == q;
        }
      }
    }
  }

  lemma FinishSound(t: Transport, k: nat)
    requires Sound(t) && IsTask(t, k) && !t.tasks[k].stage.Finished?
    ensures Sound(Finish(t, k))
  {
    var t1 := Finish(t, k);
    StageKeepsTasks(t, t1, k, Finished);
    SameReleases(t, t1);
    assert HasTask(t, t.tasks[k].publication);
    forall q | q in t1.called
      ensures exists j | 0 <= j < |t1.tasks| ::
                t1.tasks[j].publication == q && t1.tasks[j].success && !t1.tasks[j].stage.Waiting?
    {
      var j :| 0 <= j < |t.tasks| && t.tasks[j].publication == q && t.tasks[j].success && !t.tasks[j].stage.Waiting?;
      assert t1.tasks[j].publication == q;
    }
  }

  lemma DoSound(t: Transport, a: Action)
    requires Sound(t)
    ensures Sound(Do(t, a))
  {
    match a
    case Inbound(id, r, params) => InboundSound(t, id, r, params);
    case Register(id, session, hook) => RegisterSound(t, id, session, hook);
    case Respond(id, success) => RespondSound(t, id, success);
    case EnterTask(k) => EnterSound(t, k);
    case LeaveTask(k) => if Leave(t, k) != t { FinishSound(t, k); }
    case AbandonTask(k) => if Abandon(t, k) != t { FinishSound(t, k); }
    case TakeRaw(_, _) => SameProtocol(t, Do(t, a));
    case CloseAll => SameProtocol(t, Do(t, a));
  }

  lemma SameProtocol(t: Transport, t1: Transport)
    requires Sound(t) && t1 == t.(raw := t1.raw, closed := t1.closed)
    ensures Sound(t1)
  {
    SameTasks(t, t1);
  }

  lemma InboundSound(t: Transport, id: string, r: Request, params: string)
    requires Sound(t)
    ensures Sound(ObserveInbound(t, id, r, params))
  {
    RecordedSound(t, id, r);
    SameProtocol(t.(requests := t.requests[id := r]), ObserveInbound(t, id, r, params));
  }

  lemma RecordedSound(t: Transport, id: string, r: Request)
    requires Sound(t)
    ensures Sound(t.(requests := t.requests[id := r]))
  {
    SameTasks(t, t.(requests := t.requests[id := r]));
  }

  /**
   Over every interleaving: no barrier is closed twice, no hook is called twice, each publication is released
   at most once, and a registered hook's request stays recorded until its response.
   */
  lemma {:induction false} EveryRunSound(actions: seq<Action>)
    ensures Sound(Run(actions))
  {
    if actions != [] {
      EveryRunSound(actions[..|actions| - 1]);
      DoSound(Run(actions[..|actions| - 1]), actions[|actions| - 1]);
    }
  }

  // ---- in order ----

  predicate SameSession(t: Transport, p: nat, q: nat)
    requires p < |t.publications| && q < |t.publications|
  {
    t.publications[p].session == t.publications[q].session
  }

  /** Every earlier publication of the session has completed. */
  predicate EarlierShut(t: Transport, p: nat)
    requires p < |t.publications|
  {
    forall q | 0 <= q < p && SameSession(t, q, p) :: q in t.shut
  }

  /** A publication waits for the one registered just before it, unless all of those had completed. */
  predicate Chained(t: Transport) {
    forall p | 0 <= p < |t.publications| ::
      match t.publications[p].previous
      case None => EarlierShut(t, p)
      case Some(q) => q < p && SameSession(t, q, p) && forall r | q < r < p :: !SameSession(t, r, p)
  }

  /** A session's tail is its last publication, as long as that has not completed. */
  predicate TailsLast(t: Transport) {
    && (forall s | s in t.ready ::
          var p := t.ready[s];
          p < |t.publications| && t.publications[p].session == s && p !in t.shut
          && forall r | p < r < |t.publications| :: t.publications[r].session != s)
    && (forall p | 0 <= p < |t.publications| && t.publications[p].session !in t.ready :: p in t.shut)
  }

  /** Whoever is past its wait has nothing unfinished before it. */
  predicate Past(t: Transport) {
    && (forall k | 0 <= k < |t.tasks| && !t.tasks[k].stage.Waiting? ::
          t.tasks[k].publication < |t.publications| && EarlierShut(t, t.tasks[k].publication))
    && (forall p | p in t.shut :: p < |t.publications| && EarlierShut(t, p))
  }

  /** Hooks of one session were called in the order they were registered. */
  predicate CalledInOrder(t: Transport) {
    && (forall i | 0 <= i < |t.called| :: t.called[i] < |t.publications| && EarlierShut(t, t.called[i]))
    && (forall i, j | 0 <= i < j < |t.called| && SameSession(t, t.called[i], t.called[j]) :: t.called[i] < t.called[j])
  }

  predicate Ordered(t: Transport) {
    Sound(t) && Chained(t) && TailsLast(t) && Past(t) && CalledInOrder(t)
  }

  /** More barriers closed, or more publications registered later, disturb nothing earlier. */
  lemma EarlierShutGrows(t: Transport, t1: Transport, p: nat)
    requires p < |t.publications| <= |t1.publications| && EarlierShut(t, p) && t.shut <= t1.shut
    requires forall q | 0 <= q < |t.publications| :: t1.publications[q].session == t.publications[q].session
    ensures EarlierShut(t1, p)
  {
    forall q | 0 <= q < p && SameSession(t1, q, p) ensures q in t1.shut {
      assert SameSession(t, q, p);
    }
  }

  /** Nothing the order depends on changed but the barriers closed and the session tails. */
  predicate SameOrder(t: Transport, t1: Transport) {
    && |t1.publications| == |t.publications| && t.shut <= t1.shut
    && forall q | 0 <= q < |t.publications| ::
         && t1.publications[q].session == t.publications[q].session
         && t1.publications[q].previous == t.publications[q].previous
  }

  lemma ChainedStays(t: Transport, t1: Transport)
    requires Chained(t) && SameOrder(t, t1)
    ensures Chained(t1)
  {
    forall p | 0 <= p < |t.publications|
      ensures match t1.publications[p].previous
              case None => EarlierShut(t1, p)
              case Some(q) => q < p && SameSession(t1, q, p) && forall r | q < r < p :: !SameSession(t1, r, p)
    {
      match t.publications[p].previous
      case None => EarlierShutGrows(t, t1, p);
      case Some(q) => assert forall r | q < r < p :: SameSession(t1, r, p) == SameSession(t, r, p);
    }
  }

  lemma PastStays(t: Transport, t1: Transport)
    requires Past(t) && SameOrder(t, t1)
    ensures forall p | p in t.shut :: p < |t1.publications| && EarlierShut(t1, p)
    ensures forall k | 0 <= k < |t.tasks| && !t.tasks[k].stage.Waiting? ::
              t.tasks[k].publication < |t1.publications| && EarlierShut(t1, t.tasks[k].publication)
  {
    forall p | p in t.shut ensures EarlierShut(t1, p) { EarlierShutGrows(t, t1, p); }
    forall k | 0 <= k < |t.tasks| && !t.tasks[k].stage.Waiting? ensures EarlierShut(t1, t.tasks[k].publication) {
      EarlierShutGrows(t, t1, t.tasks[k].publication);
    }
  }

  lemma CalledStays(t: Transport, t1: Transport)
    requires CalledInOrder(t) && SameOrder(t, t1) && t1.called == t.called
    ensures CalledInOrder(t1)
  {
    forall i | 0 <= i < |t.called| ensures EarlierShut(t1, t1.called[i]) { EarlierShutGrows(t, t1, t.called[i]); }
    forall i, j | 0 <= i < j < |t.called| && SameSession(t1, t.called[i], t.called[j])
      ensures t.called[i] < t.called[j]
    {
      assert SameSession(t, t.called[i], t.called[j]);
    }
  }

  /** Steps that touch neither publications, barriers, tails nor calls, and start tasks only as waiting. */
  lemma QuietOrdered(t: Transport, t1: Transport)
    requires Ordered(t) && Sound(t1) && SameOrder(t, t1)
    requires t1.ready == t.ready && t1.shut == t.shut && t1.called == t.called
    requires |t.tasks| <= |t1.tasks| && forall k | 0 <= k < |t1.tasks| ::
               if k < |t.tasks| then t1.tasks[k] == t.tasks[k] else t1.tasks[k].stage.Waiting?
    ensures Ordered(t1)
  {
    ChainedStays(t, t1);
    PastStays(t, t1);
    CalledStays(t, t1);
  }

  lemma NewPublicationOrdered(t: Transport, t1: Transport, p: nat, session: string)
    requires Ordered(t) && Sound(t1) && p == |t.publications| && |t1.publications| == p + 1
    requires t1.publications[..p] == t.publications && t1.publications[p].session == session
    requires t1.publications[p].previous == if session in t.ready then Some(t.ready[session]) else None
    requires t1.ready == t.ready[session := p] && t1.shut == t.shut && t1.called == t.called && t1.tasks == t.tasks
    ensures Ordered(t1)
  {
    assert forall q | 0 <= q < p :: t1.publications[q] == t.publications[q];
    NewChained(t, t1, p, session);
    NewTail(t, t1, p, session);
    NewPast(t, t1);
    NewCalled(t, t1);
  }

  lemma NewPast(t: Transport, t1: Transport)
    requires Past(t) && |t.publications| <= |t1.publications| && t1.tasks == t.tasks && t1.shut == t.shut
    requires forall q | 0 <= q < |t.publications| :: t1.publications[q] == t.publications[q]
    ensures Past(t1)
  {
    forall q | q in t1.shut ensures EarlierShut(t1, q) { EarlierShutGrows(t, t1, q); }
    forall k | 0 <= k < |t.tasks| && !t.tasks[k].stage.Waiting? ensures EarlierShut(t1, t.tasks[k].publication) {
      EarlierShutGrows(t, t1, t.tasks[k].publication);
    }
  }

  lemma NewCalled(t: Transport, t1: Transport)
    requires CalledInOrder(t) && |t.publications| <= |t1.publications| && t1.called == t.called && t1.shut == t.shut
    requires forall q | 0 <= q < |t.publications| :: t1.publications[q] == t.publications[q]
    ensures CalledInOrder(t1)
  {
    forall i | 0 <= i < |t.called| ensures EarlierShut(t1, t1.called[i]) { EarlierShutGrows(t, t1, t.called[i]); }
    assert forall i, j | 0 <= i < j < |t.called| ::
             SameSession(t1, t.called[i], t.called[j]) == SameSession(t, t.called[i], t.called[j]);
  }

  lemma NewChained(t: Transport, t1: Transport, p: nat, session: string)
    requires Chained(t) && TailsLast(t) && p == |t.publications| && |t1.publications| == p + 1
    requires forall q | 0 <= q < p :: t1.publications[q] == t.publications[q]
    requires t1.publications[p].session == session && t1.shut == t.shut
    requires t1.publications[p].previous == if session in t.ready then Some(t.ready[session]) else None
    ensures Chained(t1)
  {
    forall q | 0 <= q < p
      ensures match t1.publications[q].previous
              case None => EarlierShut(t1, q)
              case Some(r) => r < q && SameSession(t1, r, q) && forall x | r < x < q :: !SameSession(t1, x, q)
    {
      match t.publications[q].previous
      case None => EarlierShutGrows(t, t1, q);
      case Some(r) => assert forall x | r < x < q :: SameSession(t1, x, q) == SameSession(t, x, q);
    }
  }

  lemma NewTail(t: Transport, t1: Transport, p: nat, session: string)
    requires TailsLast(t) && Past(t) && p == |t.publications| && |t1.publications| == p + 1
    requires forall q | 0 <= q < p :: t1.publications[q] == t.publications[q]
    requires t1.publications[p].session == session && t1.shut == t.shut && t1.ready == t.ready[session := p]
    ensures TailsLast(t1)
  {
  }

  /** A publication admitted past its wait has nothing unfinished before it. */
  lemma AdmittedIsNext(t: Transport, k: nat)
    requires Ordered(t) && IsTask(t, k) && Admitted(t, k)
    ensures EarlierShut(t, t.tasks[k].publication)
  {
    var p := t.tasks[k].publication;
    match t.publications[p].previous
    case None =>
    case Some(q) =>
      forall r | 0 <= r < p && SameSession(t, r, p) ensures r in t.shut {
        if r < q { assert SameSession(t, r, q); }
      }
  }

  lemma EnterOrdered(t: Transport, k: nat)
    requires Ordered(t)
    ensures Ordered(Enter(t, k))
  {
    var t1 := Enter(t, k);
    EnterSound(t, k);
    if t1 != t {
      var p := t.tasks[k].publication;
      AdmittedIsNext(t, k);
      ChainedStays(t, t1);
      PastStays(t, t1);
      EarlierShutGrows(t, t1, p);
      EnterCalls(t, t1, k);
    }
  }

  lemma EnterCalls(t: Transport, t1: Transport, k: nat)
    requires Ordered(t) && IsTask(t, k) && t.tasks[k].stage.Waiting? && SameOrder(t, t1) && t1.shut == t.shut
    requires EarlierShut(t, t.tasks[k].publication)
    requires t1.called == t.called || t1.called == t.called + [t.tasks[k].publication]
    ensures CalledInOrder(t1)
  {
    var p := t.tasks[k].publication;
    NotYetCalled(t, k);
    forall i | 0 <= i < |t.called| ensures EarlierShut(t1, t.called[i]) { EarlierShutGrows(t, t1, t.called[i]); }
    EarlierShutGrows(t, t1, p);
    forall i | 0 <= i < |t.called| && SameSession(t1, t.called[i], p) ensures t.called[i] < p {
      assert p !in t.shut;
      assert t.called[i] != p;
      assert SameSession(t, p, t.called[i]);
    }
    assert forall i, j | 0 <= i < j < |t.called| ::
             SameSession(t1, t.called[i], t.called[j]) == SameSession(t, t.called[i], t.called[j]);
  }

  lemma FinishOrdered(t: Transport, k: nat)
    requires Ordered(t) && IsTask(t, k) && !t.tasks[k].stage.Finished? && EarlierShut(t, t.tasks[k].publication)
    ensures Ordered(Finish(t, k))
  {
    var t1 := Finish(t, k);
    FinishSound(t, k);
    ChainedStays(t, t1);
    PastStays(t, t1);
    CalledStays(t, t1);
    FinishTails(t, t1, t.tasks[k].publication);
  }

  lemma FinishTails(t: Transport, t1: Transport, p: nat)
    requires TailsLast(t) && p < |t.publications| && EarlierShut(t, p)
    requires t1.publications == t.publications && t1.shut == t.shut + {p}
    requires var s := t.publications[p].session;
             t1.ready == if s in t.ready && t.ready[s] == p then t.ready - {s} else t.ready
    ensures TailsLast(t1)
  {
    var s := t.publications[p].session;
    forall q | 0 <= q < |t.publications| && t.publications[q].session !in t1.ready ensures q in t1.shut {
      if t.publications[q].session == s && s in t.ready {
        assert t.ready[s] == p && q <= p;
        assert q < p ==> SameSession(t, q, p);
      }
    }
  }

  lemma RegisterOrdered(t: Transport, id: string, session: string, hook: nat)
    requires Ordered(t)
    ensures Ordered(RegisterHook(t, id, session, hook).0)
  {
    var t1 := RegisterHook(t, id, session, hook).0;
    RegisterSound(t, id, session, hook);
    if |t1.publications| > |t.publications| {
      NewPublicationOrdered(t, t1, |t.publications|, session);
    } else {
      QuietOrdered(t, t1);
    }
  }

  lemma RespondOrdered(t: Transport, id: string, success: bool)
    requires Ordered(t)
    ensures Ordered(ObserveResponse(t, id, success))
  {
    if id in t.requests {
      ReleaseOrdered(t, id, success);
      RawOrdered(Release(t, id, success), ObserveResponse(t, id, success));
    }
  }

  lemma ReleaseOrdered(t: Transport, id: string, success: bool)
    requires Ordered(t)
    ensures Ordered(Release(t, id, success))
  {
    if id in t.hooks { ReleaseSound(t, id, success); } else { ForgetSound(t, id, success); }
    QuietOrdered(t, Release(t, id, success));
  }

  lemma RawOrdered(t: Transport, t1: Transport)
    requires Ordered(t) && t1 == t.(raw := t1.raw, closed := t1.closed)
    ensures Ordered(t1)
  {
    SameProtocol(t, t1);
    QuietOrdered(t, t1);
  }

  lemma InboundOrdered(t: Transport, id: string, r: Request, params: string)
    requires Ordered(t)
    ensures Ordered(ObserveInbound(t, id, r, params))
  {
    var t0 := t.(requests := t.requests[id := r]);
    RecordedSound(t, id, r);
    QuietOrdered(t, t0);
    RawOrdered(t0, ObserveInbound(t, id, r, params));
  }

  /** A waiting publication is abandoned, as Close allows, before its predecessor has completed. */
  predicate GivesUp(t: Transport, a: Action) {
    && a.AbandonTask? && IsTask(t, a.k) && t.closed && t.tasks[a.k].stage.Waiting? && !Admitted(t, a.k)
  }

  lemma AbandonOrdered(t: Transport, k: nat)
    requires Ordered(t) && !GivesUp(t, AbandonTask(k))
    ensures Ordered(Abandon(t, k))
  {
    if Abandon(t, k) != t {
      AdmittedIsNext(t, k);
      FinishOrdered(t, k);
    }
  }

  lemma DoOrdered(t: Transport, a: Action)
    requires Ordered(t) && !GivesUp(t, a)
    ensures Ordered(Do(t, a))
  {
    match a
    case Inbound(id, r, params) => InboundOrdered(t, id, r, params);
    case Register(id, session, hook) => RegisterOrdered(t, id, session, hook);
    case Respond(id, success) => RespondOrdered(t, id, success);
    case EnterTask(k) => EnterOrdered(t, k);
    case LeaveTask(k) => if IsTask(t, k) && t.tasks[k].stage.Calling? { FinishOrdered(t, k); }
    case AbandonTask(k) => AbandonOrdered(t, k);
    case TakeRaw(_, _) => RawOrdered(t, Do(t, a));
    case CloseAll => RawOrdered(t, Do(t, a));
  }

  /** No publication of the run gives up on a predecessor that has not completed. */
  predicate Patient(actions: seq<Action>) {
    actions != [] ==>
      var rest := actions[..|actions| - 1];
      Patient(rest) && !GivesUp(Run(rest), actions[|actions| - 1])
  }

  /** Before Close nothing gives up. */
  lemma {:induction false} BeforeCloseIsPatient(actions: seq<Action>)
    requires forall i | 0 <= i < |actions| :: !actions[i].CloseAll?
    ensures Patient(actions) && !Run(actions).closed
  {
    if actions != [] {
      BeforeCloseIsPatient(actions[..|actions| - 1]);
      StaysOpen(Run(actions[..|actions| - 1]), actions[|actions| - 1]);
    }
  }

  lemma StaysOpen(t: Transport, a: Action)
    requires !a.CloseAll?
    ensures Do(t, a).closed == t.closed
  {
  }

  /**
   Over every patient interleaving, as all are before Close, hooks of one session are called in registration
   order, and each is called, and each barrier closed, only once every earlier publication of its session has
   completed.
   */
  lemma {:induction false} EveryRunOrdered(actions: seq<Action>)
    requires Patient(actions)
    ensures Ordered(Run(actions))
  {
    if actions != [] {
      EveryRunOrdered(actions[..|actions| - 1]);
      DoOrdered(Run(actions[..|actions| - 1]), actions[|actions| - 1]);
    }
  }

  /** Publications of one session completed in registration order. */
  predicate CompletedInOrder(t: Transport) {
    forall p | p in t.shut :: p < |t.publications| && EarlierShut(t, p)
  }

  /** Completion is in order throughout a run exactly when nothing in it gives up. */
  lemma {:induction false} PatientExactly(actions: seq<Action>)
    ensures Patient(actions) <==> forall n | 0 <= n <= |actions| :: CompletedInOrder(Run(actions[..n]))
  {
    if Patient(actions) {
      forall n | 0 <= n <= |actions| ensures CompletedInOrder(Run(actions[..n])) {
        PrefixPatient(actions, n);
        EveryRunOrdered(actions[..n]);
      }
    } else {
      var n := OutOfOrder(actions);
    }
  }

  lemma {:induction false} PrefixPatient(actions: seq<Action>, n: nat)
    requires Patient(actions) && n <= |actions|
    ensures Patient(actions[..n])
    decreases |actions|
  {
    if n == |actions| {
      assert actions[..n] == actions;
    } else {
      assert actions[..|actions| - 1][..n] == actions[..n];
      PrefixPatient(actions[..|actions| - 1], n);
    }
  }

  /** Giving up at once completes a publication before its predecessor. */
  lemma {:induction false} OutOfOrder(actions: seq<Action>) returns (n: nat)
    requires !Patient(actions)
    ensures n <= |actions| && !CompletedInOrder(Run(actions[..n]))
  {
    var rest := actions[..|actions| - 1];
    if Patient(rest) {
      n := |actions|;
      LastOvertakes(actions);
      assert actions[..n] == actions;
    } else {
      n := OutOfOrder(rest);
      assert actions[..n] == rest[..n];
    }
  }

  lemma LastOvertakes(actions: seq<Action>)
    requires !Patient(actions) && Patient(actions[..|actions| - 1])
    ensures !CompletedInOrder(Run(actions))
  {
    EveryRunOrdered(actions[..|actions| - 1]);
    GivingUpOvertakes(Run(actions[..|actions| - 1]), actions[|actions| - 1]);
  }

  lemma GivingUpOvertakes(t: Transport, a: Action)
    requires Ordered(t) && GivesUp(t, a)
    ensures !CompletedInOrder(Do(t, a))
  {
    var t1, p := Do(t, a), t.tasks[a.k].publication;
    var q := t.publications[p].previous.value;
    assert p in t1.shut && q !in t1.shut && SameSession(t1, q, p);
    assert !EarlierShut(t1, p);
  }

  /** The step that calls a hook finds every earlier publication of its session completed. */
  lemma CallFindsEarlierDone(actions: seq<Action>, k: nat)
    requires Patient(actions) && Enter(Run(actions), k).called != Run(actions).called
    ensures var t := Run(actions); IsTask(t, k) && t.tasks[k].success && EarlierShut(t, t.tasks[k].publication)
  {
    EveryRunOrdered(actions);
    AdmittedIsNext(Run(actions), k);
  }

  // ---- after its own response ----

  /** Input i is the response that released the publication: it waited for one, and this is to its request. */
  predicate ReleasedBy(actions: seq<Action>, i: nat, p: nat, success: bool) {
    i < |actions| &&
    var t := Run(actions[..i]);
    && p < |t.publications| && Pending(t, p) && p !in t.called
    && actions[i] == Respond(t.publications[p].request, success)
  }

  /** Every task was started by the response its publication was waiting for. */
  lemma {:induction false} TasksAnswered(actions: seq<Action>, k: nat) returns (i: nat)
    requires k < |Run(actions).tasks|
    ensures var t := Run(actions);
            && IsTask(t, k) && ReleasedBy(actions, i, t.tasks[k].publication, t.tasks[k].success)
            && t.publications[t.tasks[k].publication].request == actions[i].id
  {
    var rest, last := actions[..|actions| - 1], actions[|actions| - 1];
    var t := Run(rest);
    EveryRunSound(rest);
    TaskComesFrom(t, last, k);
    if k < |t.tasks| {
      i := TasksAnswered(rest, k);
      StaysReleased(actions, i, t.tasks[k].publication, t.tasks[k].success);
    } else {
      i := |actions| - 1;
      PendingNotCalled(t, Do(t, last).tasks[k].publication);
    }
  }

  lemma StaysReleased(actions: seq<Action>, i: nat, p: nat, success: bool)
    requires actions != [] && ReleasedBy(actions[..|actions| - 1], i, p, success)
    ensures ReleasedBy(actions, i, p, success) && actions[i] == actions[..|actions| - 1][i]
  {
    assert actions[..i] == actions[..|actions| - 1][..i];
  }

  lemma PendingNotCalled(t: Transport, p: nat)
    requires Sound(t) && p < |t.publications| && Pending(t, p)
    ensures p !in t.called
  {
    assert !HasTask(t, p);
  }

  /** What one step may do to a task: keep its publication and verdict, or start it for a response to its request. */
  predicate ComesFrom(t: Transport, a: Action, t1: Transport, k: nat) {
    IsTask(t1, k) &&
    var task, request := t1.tasks[k], t1.publications[t1.tasks[k].publication].request;
    if IsTask(t, k)
    then && task.publication == t.tasks[k].publication && task.success == t.tasks[k].success
         && request == t.publications[task.publication].request
    else && k >= |t.tasks| && a == Respond(request, task.success)
         && task.publication < |t.publications| && Pending(t, task.publication)
         && t.publications[task.publication].request == request
  }

  lemma TaskComesFrom(t: Transport, a: Action, k: nat)
    requires Sound(t) && k < |Do(t, a).tasks|
    ensures ComesFrom(t, a, Do(t, a), k)
  {
    match a
    case Respond(id, success) => ReleasedComesFrom(t, id, success, k);
    case Register(id, session, hook) => RegisteredComesFrom(t, id, session, hook, k);
    case _ => QuietComesFrom(t, a, k);
  }

  lemma RegisteredComesFrom(t: Transport, id: string, session: string, hook: nat, k: nat)
    requires Sound(t) && k < |t.tasks|
    ensures ComesFrom(t, Register(id, session, hook), RegisterHook(t, id, session, hook).0, k)
  {
  }

  lemma QuietComesFrom(t: Transport, a: Action, k: nat)
    requires Sound(t) && !a.Respond? && !a.Register? && k < |Do(t, a).tasks|
    ensures ComesFrom(t, a, Do(t, a), k)
  {
    QuietKeepsTasks(t, a);
    assert IsTask(t, k);
  }

  predicate SameVerdicts(t: Transport, t1: Transport) {
    && t1.publications == t.publications && |t1.tasks| == |t.tasks|
    && forall k | 0 <= k < |t.tasks| ::
         t1.tasks[k].publication == t.tasks[k].publication && t1.tasks[k].success == t.tasks[k].success
  }

  lemma FinishKeepsVerdicts(t: Transport, k: nat)
    requires IsTask(t, k)
    ensures SameVerdicts(t, Finish(t, k))
  {
  }

  lemma EnterKeepsVerdicts(t: Transport, k: nat)
    ensures SameVerdicts(t, Enter(t, k))
  {
  }

  lemma QuietKeepsTasks(t: Transport, a: Action)
    requires !a.Respond? && !a.Register?
    ensures SameVerdicts(t, Do(t, a))
  {
    match a
    case EnterTask(k) => EnterKeepsVerdicts(t, k);
    case LeaveTask(k) => if IsTask(t, k) { FinishKeepsVerdicts(t, k); }
    case AbandonTask(k) => if IsTask(t, k) { FinishKeepsVerdicts(t, k); }
    case _ =>
  }

  lemma ReleasedComesFrom(t: Transport, id: string, success: bool, k: nat)
    requires Sound(t) && k < |ObserveResponse(t, id, success).tasks|
    ensures ComesFrom(t, Respond(id, success), ObserveResponse(t, id, success), k)
  {
    if k < |t.tasks| { assert IsTask(t, k); }
  }

  /**
   A hook is called only after its own response: the run holds a successful response to its request that found
   the publication registered, waiting and not yet called, and released it.
   */
  lemma CalledAfterItsResponse(actions: seq<Action>, p: nat) returns (i: nat)
    requires p in Run(actions).called
    ensures p < |Run(actions).publications| && ReleasedBy(actions, i, p, true)
    ensures actions[i].id == Run(actions).publications[p].request
  {
    EveryRunSound(actions);
    var t := Run(actions);
    var k :| 0 <= k < |t.tasks| && t.tasks[k].publication == p && t.tasks[k].success && !t.tasks[k].stage.Waiting?;
    i := TasksAnswered(actions, k);
  }

  // ---- and always then ----

  /** A closed transport lets this publication give up its wait. */
  predicate Quits(t: Transport, k: nat) {
    IsTask(t, k) && t.closed && t.tasks[k].stage.Waiting? && t.publications[t.tasks[k].publication].previous.Some?
  }

  /** Some step of the run made this publication give up. */
  predicate GaveUp(actions: seq<Action>, k: nat) {
    actions != [] &&
    var rest := actions[..|actions| - 1];
    GaveUp(rest, k) || (actions[|actions| - 1] == AbandonTask(k) && Quits(Run(rest), k))
  }

  lemma {:induction false} GaveUpIsFinished(actions: seq<Action>, k: nat)
    requires GaveUp(actions, k)
    ensures k < |Run(actions).tasks| && Run(actions).tasks[k].stage.Finished?
  {
    var rest, last := actions[..|actions| - 1], actions[|actions| - 1];
    if GaveUp(rest, k) {
      GaveUpIsFinished(rest, k);
      FinishedStays(Run(rest), last, k);
    }
  }

  lemma FinishedStays(t: Transport, a: Action, k: nat)
    requires k < |t.tasks| && t.tasks[k].stage.Finished?
    ensures k < |Do(t, a).tasks| && Do(t, a).tasks[k] == t.tasks[k]
  {
  }

  /** What one step does to a task's hook: called as the wait ends, if the response succeeded. */
  predicate CallsAsItEnters(t: Transport, a: Action, t1: Transport, k: nat) {
    k < |t1.tasks| &&
    var p, called := t1.tasks[k].publication, t1.tasks[k].publication in t1.called;
    if k >= |t.tasks| then t1.tasks[k].stage.Waiting? && !called
    else if t.tasks[k].stage.Waiting? && !t1.tasks[k].stage.Waiting?
    then called == (t1.tasks[k].success && !(a == AbandonTask(k) && Quits(t, k)))
    else called == (t.tasks[k].publication in t.called) && !(a == AbandonTask(k) && Quits(t, k))
  }

  lemma StepCalls(t: Transport, a: Action, k: nat)
    requires Sound(t) && k < |Do(t, a).tasks|
    ensures CallsAsItEnters(t, a, Do(t, a), k)
  {
    match a
    case EnterTask(j) => EnterCallsOnly(t, j, k);
    case LeaveTask(j) => LeaveCallsNothing(t, j, k);
    case AbandonTask(j) => AbandonCallsNothing(t, j, k);
    case Respond(id, success) => RespondCallsNothing(t, id, success, k);
    case _ =>
  }

  lemma EnterCallsOnly(t: Transport, j: nat, k: nat)
    requires Sound(t) && k < |t.tasks|
    ensures CallsAsItEnters(t, EnterTask(j), Enter(t, j), k)
  {
    if Enter(t, j) != t {
      NotYetCalled(t, j);
      assert j != k ==> t.tasks[j].publication != t.tasks[k].publication;
    }
  }

  lemma LeaveCallsNothing(t: Transport, j: nat, k: nat)
    requires k < |t.tasks|
    ensures CallsAsItEnters(t, LeaveTask(j), Leave(t, j), k)
  {
  }

  lemma AbandonCallsNothing(t: Transport, j: nat, k: nat)
    requires Sound(t) && k < |t.tasks|
    ensures CallsAsItEnters(t, AbandonTask(j), Abandon(t, j), k)
  {
    if t.tasks[k].stage.Waiting? { NotYetCalled(t, k); }
  }

  lemma RespondCallsNothing(t: Transport, id: string, success: bool, k: nat)
    requires Sound(t) && k < |ObserveResponse(t, id, success).tasks|
    ensures CallsAsItEnters(t, Respond(id, success), ObserveResponse(t, id, success), k)
  {
    if k >= |t.tasks| { PendingNotCalled(t, t.hooks[id]); }
  }

  /**
   In every run, a released publication's hook has been called exactly when its response succeeded and it went past
   its wait without giving up.
   */
  lemma {:induction false} CalledExactly(actions: seq<Action>, k: nat)
    requires k < |Run(actions).tasks|
    ensures var t := Run(actions);
            t.tasks[k].publication in t.called
            <==> t.tasks[k].success && !t.tasks[k].stage.Waiting? && !GaveUp(actions, k)
  {
    var rest, last := actions[..|actions| - 1], actions[|actions| - 1];
    var t := Run(rest);
    EveryRunSound(rest);
    StepCalls(t, last, k);
    TaskComesFrom(t, last, k);
    if GaveUp(rest, k) { GaveUpIsFinished(rest, k); }
    if k < |t.tasks| {
      CalledExactly(rest, k);
      WaitsNoMore(t, last, k);
    }
  }

  lemma WaitsNoMore(t: Transport, a: Action, k: nat)
    requires k < |t.tasks| && k < |Do(t, a).tasks|
    ensures Do(t, a).tasks[k].stage.Waiting? ==> t.tasks[k].stage.Waiting?
  {
  }

  lemma {:induction false} GivesUpOnlyClosed(actions: seq<Action>, k: nat)
    requires forall i | 0 <= i < |actions| :: !actions[i].CloseAll?
    ensures !GaveUp(actions, k)
  {
    if actions != [] {
      GivesUpOnlyClosed(actions[..|actions| - 1], k);
      BeforeCloseIsPatient(actions[..|actions| - 1]);
    }
  }

  /** A response that released a publication started its task, with that verdict. */
  lemma {:induction false} ReleaseStarts(actions: seq<Action>, i: nat, p: nat, success: bool) returns (k: nat)
    requires ReleasedBy(actions, i, p, success)
    ensures k < |Run(actions).tasks| && Run(actions).tasks[k].publication == p
            && Run(actions).tasks[k].success == success
    decreases |actions|
  {
    var rest, last := actions[..|actions| - 1], actions[|actions| - 1];
    EveryRunSound(rest);
    if i == |rest| {
      assert actions[..i] == rest;
      k := ReleasedNow(Run(rest), p, success);
    } else {
      assert rest[..i] == actions[..i];
      k := ReleaseStarts(rest, i, p, success);
      TaskStays(Run(rest), last, k);
      TaskComesFrom(Run(rest), last, k);
    }
  }

  lemma ReleasedNow(t: Transport, p: nat, success: bool) returns (k: nat)
    requires Sound(t) && p < |t.publications| && Pending(t, p)
    ensures var t1 := ObserveResponse(t, t.publications[p].request, success);
            k < |t1.tasks| && t1.tasks[k].publication == p && t1.tasks[k].success == success
  {
    k := |t.tasks|;
  }

  lemma TaskStays(t: Transport, a: Action, k: nat)
    requires k < |t.tasks|
    ensures k < |Do(t, a).tasks|
  {
  }

  /**
   So before Close, a publication that has completed was called exactly when its own response was observed to
   succeed: no hook is skipped.
   */
  lemma CompletedWereCalled(actions: seq<Action>, p: nat)
    requires forall i | 0 <= i < |actions| :: !actions[i].CloseAll?
    requires p in Run(actions).shut
    ensures p in Run(actions).called <==> exists i | 0 <= i < |actions| :: ReleasedBy(actions, i, p, true)
  {
    var t := Run(actions);
    EveryRunSound(actions);
    assert HasTask(t, p);
    var k :| 0 <= k < |t.tasks| && t.tasks[k].publication == p;
    CalledExactly(actions, k);
    GivesUpOnlyClosed(actions, k);
    if p in t.called {
      var i := TasksAnswered(actions, k);
      assert ReleasedBy(actions, i, p, true);
    }
    if i :| 0 <= i < |actions| && ReleasedBy(actions, i, p, true) {
      var j := ReleaseStarts(actions, i, p, true);
      assert j == k;
    }
  }

  // ---- registering ----

  /**
   A hook is taken exactly for a request in flight that establishes the session. It then waits under that request,
   behind the session's tail, or in place of the hook already waiting there.
   */
  lemma RegisterMeans(t: Transport, id: string, session: string, hook: nat)
    requires Sound(t)
    ensures var (t1, taken) := RegisterHook(t, id, session, hook);
            && (taken <==> id in t.requests &&
                           var r := t.requests[id];
                           || r.verb.NewSession?
                           || (r.session == session && (r.verb.LoadSession? || r.verb.ResumeSession?)))
            && (!taken ==> t1 == t)
            && (taken ==> id in t1.hooks && t1.hooks[id] < |t1.publications|
                          && t1.publications[t1.hooks[id]].hook == hook
                          && t1.tasks == t.tasks && t1.shut == t.shut && t1.called == t.called)
            && (taken && id in t.hooks ==>
                  var p := t.hooks[id];
                  && t1.hooks == t.hooks && t1.ready == t.ready
                  && t1.publications == t.publications[p := t.publications[p].(hook := hook)])
            && (taken && id !in t.hooks ==>
                  var tail := if session in t.ready then Some(t.ready[session]) else None;
                  && t1.publications == t.publications + [Publication(session, id, hook, tail)]
                  && t1.ready == t.ready[session := |t.publications|])
  {
  }

  // ---- waiting ----

  /** AwaitSession returns nil exactly when no registered publication of the session is incomplete. */
  lemma AwaitIsExact(actions: seq<Action>, session: string)
    requires Patient(actions)
    ensures var t := Run(actions);
            AwaitReturns(t, session) <==>
            forall p | 0 <= p < |t.publications| && t.publications[p].session == session :: p in t.shut
  {
    EveryRunOrdered(actions);
  }

  predicate CanMove(t: Transport, k: nat) {
    IsTask(t, k) && (t.tasks[k].stage.Calling? || (t.tasks[k].stage.Waiting? && Admitted(t, k)))
  }

  /** The first unfinished publication of a session. */
  lemma {:induction false} FirstOpen(t: Transport, p: nat) returns (q: nat)
    requires p < |t.publications| && p !in t.shut
    ensures q <= p && SameSession(t, q, p) && q !in t.shut && EarlierShut(t, q)
  {
    if EarlierShut(t, p) {
      q := p;
    } else {
      var r :| 0 <= r < p && SameSession(t, r, p) && r !in t.shut;
      q := FirstOpen(t, r);
    }
  }

  /**
   Nothing deadlocks: as long as a session has an incomplete publication, either one of its publications still
   waits for a response or one of them can move.
   */
  lemma NeverStuck(actions: seq<Action>, session: string)
    requires Patient(actions) && !AwaitReturns(Run(actions), session)
    ensures var t := Run(actions);
            exists p | 0 <= p < |t.publications| :: t.publications[p].session == session && p !in t.shut
              && (Pending(t, p) || exists k | 0 <= k < |t.tasks| :: t.tasks[k].publication == p && CanMove(t, k))
  {
    EveryRunOrdered(actions);
    var t := Run(actions);
    var p := FirstOpen(t, t.ready[session]);
    if !Pending(t, p) {
      assert HasTask(t, p);
      var k :| 0 <= k < |t.tasks| && t.tasks[k].publication == p;
      if t.tasks[k].stage.Waiting? && t.publications[p].previous.Some? {
        assert SameSession(t, t.publications[p].previous.value, p);
      }
      assert CanMove(t, k);
    }
  }

  lemma RunMore(actions: seq<Action>, a: Action)
    ensures Run(actions + [a]) == Do(Run(actions), a)
  {
    assert (actions + [a])[..|actions|] == actions;
  }

  /** What can move does: a wait that is over becomes a call, and a call ends in a closed barrier. */
  function Move(t: Transport, k: nat): Action
    requires k < |t.tasks|
  {
    if t.tasks[k].stage.Calling? then LeaveTask(k) else EnterTask(k)
  }

  /** How many steps the released publications still have before them. */
  function Work(tasks: seq<Task>): nat {
    if tasks == [] then 0
    else Work(tasks[..|tasks| - 1]) + (match tasks[|tasks| - 1].stage
                                       case Waiting => 2
                                       case Calling => 1
                                       case Finished => 0)
  }

  lemma {:induction false} LessWork(tasks: seq<Task>, k: nat, task: Task)
    requires k < |tasks|
    requires (tasks[k].stage.Waiting? && task.stage.Calling?) || (tasks[k].stage.Calling? && task.stage.Finished?)
    ensures Work(tasks[k := task]) + 1 == Work(tasks)
  {
    var n := |tasks| - 1;
    if k == n {
      assert tasks[k := task][..n] == tasks[..n];
    } else {
      assert tasks[k := task][..n] == tasks[..n][k := task];
      LessWork(tasks[..n], k, task);
    }
  }

  lemma MovesOn(t: Transport, k: nat)
    requires CanMove(t, k)
    ensures var t1 := Do(t, Move(t, k));
            && t1.publications == t.publications && t1.hooks == t.hooks && Work(t1.tasks) + 1 == Work(t.tasks)
            && (t.tasks[k].stage.Calling? ==> t.tasks[k].publication in t1.shut)
            && !GivesUp(t, Move(t, k))
  {
    LessWork(t.tasks, k, Do(t, Move(t, k)).tasks[k]);
  }

  /** No registered publication still waits for its response. */
  predicate AllAnswered(t: Transport) {
    forall p | 0 <= p < |t.publications| :: !Pending(t, p)
  }

  predicate AllComplete(t: Transport) {
    forall p | 0 <= p < |t.publications| :: p in t.shut
  }

  /**
   Once every response was observed, the publications can always run to completion, each by entering and leaving in
   its turn, whatever happened before.
   */
  lemma {:induction false} RunsToCompletion(actions: seq<Action>) returns (more: seq<Action>)
    requires Patient(actions) && AllAnswered(Run(actions))
    ensures Patient(actions + more) && AllComplete(Run(actions + more))
    ensures Run(actions + more).publications == Run(actions).publications
    decreases Work(Run(actions).tasks)
  {
    var t := Run(actions);
    if AllComplete(t) {
      more := [];
      assert actions + more == actions;
    } else {
      var k := SomeoneMoves(actions);
      var next := Move(t, k);
      MovesOn(t, k);
      RunMore(actions, next);
      assert (actions + [next])[..|actions|] == actions;
      assert AllAnswered(Run(actions + [next])) by {
        assert forall p | 0 <= p < |t.publications| :: Pending(Run(actions + [next]), p) == Pending(t, p);
      }
      var rest := RunsToCompletion(actions + [next]);
      more := [next] + rest;
      assert actions + more == actions + [next] + rest;
    }
  }

  lemma SomeoneMoves(actions: seq<Action>) returns (k: nat)
    requires Patient(actions) && AllAnswered(Run(actions)) && !AllComplete(Run(actions))
    ensures CanMove(Run(actions), k)
  {
    var t := Run(actions);
    var p :| 0 <= p < |t.publications| && p !in t.shut;
    AwaitIsExact(actions, t.publications[p].session);
    NeverStuck(actions, t.publications[p].session);
    var q :| 0 <= q < |t.publications| && t.publications[q].session == t.publications[p].session && q !in t.shut
             && (Pending(t, q) || exists k | 0 <= k < |t.tasks| :: t.tasks[k].publication == q && CanMove(t, k));
    k :| 0 <= k < |t.tasks| && t.tasks[k].publication == q && CanMove(t, k);
  }

  // ---- raw parameters ----

  /** Every kept entry belongs to a request in flight, in that request's queue, once. */
  predicate RawOwned(t: Transport) {
    forall key, i | key in t.raw && 0 <= i < |t.raw[key]| ::
      && t.raw[key][i].id in t.requests && RawKey(t.requests[t.raw[key][i].id]) == Some(key)
      && forall j | 0 <= j < i :: t.raw[key][j].id != t.raw[key][i].id
  }

  /** Parameters are kept for the two methods that need them, together only for prompts of one session. */
  lemma QueuesApart(r: Request, s: Request)
    ensures RawKey(r).Some? <==> r.verb.Initialize? || r.verb.Prompt?
    ensures RawKey(r).Some? ==>
              (RawKey(r) == RawKey(s) <==> r.verb == s.verb && (r.verb.Prompt? ==> r.session == s.session))
  {
    if r.verb.Prompt? && s.verb.Prompt? {
      assert ("prompt/" + r.session)[7..] == r.session && ("prompt/" + s.session)[7..] == s.session;
    }
    assert "initialize"[0] == 'i';
    assert ("prompt/" + r.session)[0] == 'p' && ("prompt/" + s.session)[0] == 'p';
  }

  predicate DistinctIds(queue: seq<RawParams>) {
    forall i, j | 0 <= i < j < |queue| :: queue[i].id != queue[j].id
  }

  predicate Holds(queue: seq<RawParams>, id: string) {
    exists i | 0 <= i < |queue| :: queue[i].id == id
  }

  /** Dropping an id from a queue that names it at most once leaves every other entry, in order. */
  lemma {:induction false} DroppedMeans(queue: seq<RawParams>, id: string)
    requires DistinctIds(queue)
    ensures DistinctIds(Dropped(queue, id)) && !Holds(Dropped(queue, id), id)
    ensures forall r :: r in Dropped(queue, id) <==> r in queue && r.id != id
  {
    if queue != [] {
      assert queue == [queue[0]] + queue[1..];
      if queue[0].id != id {
        DroppedMeans(queue[1..], id);
        var rest := Dropped(queue[1..], id);
        forall j | 0 <= j < |rest| ensures queue[0].id != rest[j].id { assert rest[j] in queue[1..]; }
      } else {
        assert forall r | r in queue[1..] :: r.id != id;
      }
    }
  }

  lemma RespondRaw(t: Transport, id: string, success: bool)
    requires RawOwned(t)
    ensures RawOwned(ObserveResponse(t, id, success))
    ensures forall key | key in ObserveResponse(t, id, success).raw ::
            !Holds(ObserveResponse(t, id, success).raw[key], id)
  {
    var t1 := ObserveResponse(t, id, success);
    if id in t.requests && RawKey(t.requests[id]).Some? {
      var key := RawKey(t.requests[id]).value;
      var queue := Queue(t.raw, key);
      assert DistinctIds(queue);
      DroppedMeans(queue, id);
      var after := t1.raw[key];
      forall i | 0 <= i < |after|
        ensures after[i].id in t1.requests && RawKey(t1.requests[after[i].id]) == Some(key)
        ensures forall j | 0 <= j < i :: after[j].id != after[i].id
      {
        assert after[i] in queue;
      }
    }
  }

  lemma TakeRawOwned(t: Transport, key: string, index: nat)
    requires RawOwned(t)
    ensures RawOwned(Do(t, TakeRaw(key, index)))
  {
    var queue := Queue(t.raw, key);
    if index < |queue| {
      var after := queue[..index] + queue[index + 1..];
      assert forall i | 0 <= i < |after| :: after[i] == queue[if i < index then i else i + 1];
    }
  }

  /** Request ids are unique while in flight, as JSON-RPC demands. */
  predicate UniqueInFlight(actions: seq<Action>) {
    actions != [] ==>
      var rest, last := actions[..|actions| - 1], actions[|actions| - 1];
      UniqueInFlight(rest) && (last.Inbound? ==> last.id !in Run(rest).requests)
  }

  lemma RegisterRaw(t: Transport, id: string, session: string, hook: nat)
    requires RawOwned(t)
    ensures RawOwned(RegisterHook(t, id, session, hook).0)
  {
  }

  lemma InboundRaw(t: Transport, id: string, r: Request, params: string)
    requires RawOwned(t) && id !in t.requests
    ensures RawOwned(ObserveInbound(t, id, r, params))
  {
  }

  lemma DoRaw(t: Transport, a: Action)
    requires RawOwned(t) && (a.Inbound? ==> a.id !in t.requests)
    ensures RawOwned(Do(t, a))
  {
    match a
    case Inbound(id, r, params) => InboundRaw(t, id, r, params);
    case Register(id, session, hook) => RegisterRaw(t, id, session, hook);
    case Respond(id, success) => RespondRaw(t, id, success);
    case TakeRaw(key, i) => TakeRawOwned(t, key, i);
    case _ =>
  }

  /** Raw parameters are kept only for requests in flight: none outlives its response. */
  lemma {:induction false} RawNeverOutlives(actions: seq<Action>)
    requires UniqueInFlight(actions)
    ensures RawOwned(Run(actions))
    ensures actions != [] && actions[|actions| - 1].Respond? ==>
              forall key | key in Run(actions).raw :: !Holds(Run(actions).raw[key], actions[|actions| - 1].id)
  {
    if actions != [] {
      var rest, last := actions[..|actions| - 1], actions[|actions| - 1];
      RawNeverOutlives(rest);
      DoRaw(Run(rest), last);
      if last.Respond? { RespondRaw(Run(rest), last.id, last.success); }
    }
  }

  /** The parameters of the request as it last arrived. */
  function ParamsOf(actions: seq<Action>, id: string): string {
    if actions == [] then ""
    else
      var last := actions[|actions| - 1];
      if last.Inbound? && last.id == id then last.params else ParamsOf(actions[..|actions| - 1], id)
  }

  /** Since the request last arrived, nobody took its parameters. */
  predicate Untaken(actions: seq<Action>, id: string) {
    actions != [] &&
    var rest, last := actions[..|actions| - 1], actions[|actions| - 1];
    if last.Inbound? && last.id == id then true
    else Untaken(rest, id) && !Takes(Run(rest), last, id)
  }

  predicate Takes(t: Transport, a: Action, id: string) {
    a.TakeRaw? && a.index < |Queue(t.raw, a.key)| && Queue(t.raw, a.key)[a.index].id == id
  }

  /** The request's parameters are kept. */
  predicate Kept(t: Transport, id: string, params: string)
    requires id in t.requests && RawKey(t.requests[id]).Some?
  {
    RawParams(id, params) in Queue(t.raw, RawKey(t.requests[id]).value)
  }

  lemma StillKept(t: Transport, a: Action, id: string, params: string)
    requires RawOwned(t) && id in t.requests && RawKey(t.requests[id]).Some?
    requires id in Do(t, a).requests && Do(t, a).requests[id] == t.requests[id]
    requires a.Inbound? ==> a.id != id
    ensures Kept(Do(t, a), id, params) <==> Kept(t, id, params) && !Takes(t, a, id)
  {
    match a
    case TakeRaw(key, i) => TakeKeeps(t, key, i, id, params);
    case Respond(other, success) => RespondKeeps(t, other, success, id, params);
    case _ =>
  }

  lemma RespondKeeps(t: Transport, other: string, success: bool, id: string, params: string)
    requires RawOwned(t) && id in t.requests && RawKey(t.requests[id]).Some?
    requires id in ObserveResponse(t, other, success).requests
    ensures Kept(ObserveResponse(t, other, success), id, params) <==> Kept(t, id, params)
  {
    if other in t.requests && RawKey(t.requests[other]).Some? {
      DroppedMeans(Queue(t.raw, RawKey(t.requests[other]).value), other);
    }
  }

  lemma TakeKeeps(t: Transport, key: string, i: nat, id: string, params: string)
    requires RawOwned(t) && id in t.requests && RawKey(t.requests[id]).Some?
    ensures var t1 := Do(t, TakeRaw(key, i));
            Kept(t1, id, params) <==> Kept(t, id, params) && !Takes(t, TakeRaw(key, i), id)
  {
    var queue := Queue(t.raw, key);
    if i < |queue| {
      WithoutOne(queue, i, RawParams(id, params));
      assert DistinctIds(queue);
    }
  }

  lemma WithoutOne(queue: seq<RawParams>, i: nat, r: RawParams)
    requires i < |queue|
    ensures r in queue[..i] + queue[i + 1..] <==> exists j | 0 <= j < |queue| :: j != i && queue[j] == r
  {
    var rest := queue[..i] + queue[i + 1..];
    if j :| 0 <= j < |queue| && j != i && queue[j] == r { assert rest[if j < i then j else j - 1] == r; }
    if r in rest {
      var j :| 0 <= j < |rest| && rest[j] == r;
      assert queue[if j < i then j else j + 1] == r;
    }
  }

  /** The parameters of a request in flight are kept as they arrived exactly until somebody takes them. */
  lemma {:induction false} RawKeptUntilTaken(actions: seq<Action>, id: string)
    requires UniqueInFlight(actions) && id in Run(actions).requests && RawKey(Run(actions).requests[id]).Some?
    ensures Kept(Run(actions), id, ParamsOf(actions, id)) <==> Untaken(actions, id)
  {
    var rest, last := actions[..|actions| - 1], actions[|actions| - 1];
    if !(last.Inbound? && last.id == id) {
      RequestStays(Run(rest), last, id);
      RawKeptUntilTaken(rest, id);
      RawNeverOutlives(rest);
      StillKept(Run(rest), last, id, ParamsOf(rest, id));
    }
  }

  lemma RequestStays(t: Transport, a: Action, id: string)
    requires id in Do(t, a).requests && !(a.Inbound? && a.id == id)
    ensures id in t.requests && Do(t, a).requests[id] == t.requests[id]
  {
  }

  // ---- why before Close ----

  const OPENING := Request(LoadSession, "s")

  /** Two publications of one session, only the later one answered. */
  predicate TwoRegistered(t: Transport) {
    && t.publications == [Publication("s", "a", 0, None), Publication("s", "b", 0, Some(0))]
    && t.tasks == [Task(1, true, Waiting)] && t.ready == map["s" := 1] && t.shut == {} && t.called == []
    && "c" !in t.hooks
  }

  /** After Close the later one gave up, and a third registered with nothing to wait for. */
  predicate ThirdRegistered(t: Transport) {
    && |t.publications| == 3 && t.publications[0].session == "s" && t.publications[2] == Publication("s", "c", 0, None)
    && |t.tasks| == 1 && 0 !in t.shut && t.called == []
    && "c" in t.hooks && t.hooks["c"] == 2 && "c" in t.requests
  }

  lemma OpenTwo()
    ensures TwoRegistered(Do(Do(Do(Do(Do(New(), Inbound("a", OPENING, "")), Register("a", "s", 0)),
                                   Inbound("b", OPENING, "")), Register("b", "s", 0)), Respond("b", true)))
  {
  }

  lemma CloseAndOpenThird(t: Transport)
    requires TwoRegistered(t)
    ensures ThirdRegistered(Do(Do(Do(Do(t, CloseAll), AbandonTask(0)), Inbound("c", OPENING, "")),
                               Register("c", "s", 0)))
  {
  }

  lemma ThirdCalled(t: Transport)
    requires ThirdRegistered(t)
    ensures var t1 := Do(Do(t, Respond("c", true)), EnterTask(1));
            t1.called == [2] && |t1.publications| == 3 && SameSession(t1, 0, 2) && 0 !in t1.shut
  {
  }

  lemma MoveOne(actions: seq<Action>, more: seq<Action>)
    requires more != []
    ensures actions + [more[0]] + more[1..] == actions + more
  {
  }

  lemma {:induction false} RunOn(actions: seq<Action>, more: seq<Action>)
    ensures Run(actions + more) == DoAll(Run(actions), more)
    decreases |more|
  {
    if more == [] {
      assert actions + more == actions;
    } else {
      RunMore(actions, more[0]);
      RunOn(actions + [more[0]], more[1..]);
      MoveOne(actions, more);
    }
  }

  lemma DoTwo(t: Transport, a: Action, b: Action)
    ensures DoAll(t, [a, b]) == Do(Do(t, a), b)
  {
    assert [a, b][1..] == [b] && [b][1..] == [];
    assert DoAll(Do(t, a), [b]) == DoAll(Do(Do(t, a), b), []);
  }

  lemma DoFour(t: Transport, a: Action, b: Action, c: Action, d: Action)
    ensures DoAll(t, [a, b, c, d]) == Do(Do(Do(Do(t, a), b), c), d)
  {
    assert [a, b, c, d][1..] == [b, c, d] && [b, c, d][1..] == [c, d];
    DoTwo(Do(Do(t, a), b), c, d);
  }

  lemma DoFive(t: Transport, a: Action, b: Action, c: Action, d: Action, e: Action)
    ensures DoAll(t, [a, b, c, d, e]) == Do(Do(Do(Do(Do(t, a), b), c), d), e)
  {
    assert [a, b, c, d, e][1..] == [b, c, d, e];
    DoFour(Do(t, a), b, c, d, e);
  }

  function DoAll(t: Transport, actions: seq<Action>): Transport
    decreases |actions|
  {
    if actions == [] then t else DoAll(Do(t, actions[0]), actions[1..])
  }

  /**
   Once the transport is closed, a publication may give up before its predecessors, and a later hook overtake them.
   */
  lemma CloseBreaksOrder() returns (actions: seq<Action>)
    ensures var t := Run(actions);
            && t.called == [2] && |t.publications| == 3 && SameSession(t, 0, 2) && 0 !in t.shut
  {
    var first := [Inbound("a", OPENING, ""), Register("a", "s", 0), Inbound("b", OPENING, ""), Register("b", "s", 0),
                  Respond("b", true)];
    var second := [CloseAll, AbandonTask(0), Inbound("c", OPENING, ""), Register("c", "s", 0)];
    var third := [Respond("c", true), EnterTask(1)];
    OpenTwo();
    RunOn([], first);
    DoFive(New(), first[0], first[1], first[2], first[3], first[4]);
    assert [] + first == first;
    DoFour(Run(first), second[0], second[1], second[2], second[3]);
    DoTwo(Run(first + second), third[0], third[1]);
    CloseAndOpenThird(Run(first));
    RunOn(first, second);
    ThirdCalled(Run(first + second));
    RunOn(first + second, third);
    actions := first + second + third;
  }
}
