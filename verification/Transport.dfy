/**
 The transport as the object it is (wire/transport.go): each method is one section run under the lock and does
 what `TransportModel` says of the whole state.
 */
module Transports {
  import opened Wrappers
  import TM = TransportModel

  lemma {:induction false} DroppedAt(queue: seq<TM.RawParams>, id: string, i: nat)
    requires i <= |queue| && (forall j | 0 <= j < i :: queue[j].id != id) && (i < |queue| ==> queue[i].id == id)
    ensures TM.Dropped(queue, id) == if i < |queue| then queue[..i] + queue[i + 1..] else queue
  {
    if i > 0 {
      DroppedAt(queue[1..], id, i - 1);
      CutPast(queue, i);
    } else if queue != [] {
      assert queue[..0] + queue[1..] == queue[1..];
    }
  }

  lemma CutPast(queue: seq<TM.RawParams>, i: nat)
    requires 0 < i <= |queue|
    ensures queue == [queue[0]] + queue[1..]
    ensures i < |queue| ==> queue[..i] + queue[i + 1..] == [queue[0]] + (queue[1..][..i - 1] + queue[1..][i..])
  {
  }

  class Transport {
    var requests: map<string, TM.Request>
    var raw: map<string, seq<TM.RawParams>>
    var hooks: map<string, nat>
    var ready: map<string, nat>
    var publications: seq<TM.Publication>
    var tasks: seq<TM.Task>
    var shut: set<nat>
    var reclosed: bool
    var called: seq<nat>
    var closed: bool

    function View(): TM.Transport
      reads this
    {
      TM.Transport(requests, raw, hooks, ready, publications, tasks, shut, reclosed, called, closed)
    }

    constructor ()
      ensures View() == TM.New()
    {
      requests, raw, hooks, ready, publications, tasks := map[], map[], map[], map[], [], [];
      shut, reclosed, called, closed := {}, false, [], false;
    }

    method Close()
      modifies `closed
      ensures View() == TM.Do(old(View()), TM.CloseAll)
    {
      closed := true;
    }

    method ObserveInbound(id: string, r: TM.Request, params: string)
      modifies this
      ensures View() == TM.ObserveInbound(old(View()), id, r, params)
    {
      requests := requests[id := r];
      var key := TM.RawKey(r);
      if key.Some? {
        raw := raw[key.value := TM.Queue(raw, key.value) + [TM.RawParams(id, params)]];
      }
    }

    /** TakeRaw and TakeRawPrompt, once the entry is chosen. */
    method Take(key: string, index: nat) returns (params: Option<string>)
      modifies `raw
      ensures View() == TM.Do(old(View()), TM.TakeRaw(key, index))
      ensures params == if index < |TM.Queue(old(raw), key)| then Some(TM.Queue(old(raw), key)[index].params) else None
    {
      var queue := TM.Queue(raw, key);
      if index >= |queue| {
        return None;
      }
      raw := raw[key := queue[..index] + queue[index + 1..]];
      return Some(queue[index].params);
    }

    /** dropRaw: the first entry the response answers, if any. */
    method DropRaw(key: string, id: string)
      modifies `raw
      ensures raw == old(raw)[key := TM.Dropped(TM.Queue(old(raw), key), id)]
    {
      var queue := TM.Queue(raw, key);
      var i := 0;
      while i < |queue| && queue[i].id != id
        invariant i <= |queue| && forall j | 0 <= j < i :: queue[j].id != id
      {
        i := i + 1;
      }
      DroppedAt(queue, id, i);
      raw := raw[key := if i < |queue| then queue[..i] + queue[i + 1..] else queue];
    }

    method RegisterHook(id: string, session: string, hook: nat) returns (ok: bool)
      modifies this
      ensures (View(), ok) == TM.RegisterHook(old(View()), id, session, hook)
    {
      if id !in requests || !TM.Establishes(requests[id], session) {
        return false;
      }
      if id in hooks && hooks[id] < |publications| {
        var p := hooks[id];
        publications := publications[p := publications[p].(hook := hook)];
        return true;
      }
      var p := |publications|;
      var previous := if session in ready then Some(ready[session]) else None;
      publications := publications + [TM.Publication(session, id, hook, previous)];
      ready, hooks := ready[session := p], hooks[id := p];
      return true;
    }

    /** observeOutboundFrame of a response. */
    method ObserveResponse(id: string, success: bool)
      modifies this
      ensures View() == TM.ObserveResponse(old(View()), id, success)
    {
      if id !in requests {
        return;
      }
      var request := requests[id];
      requests := requests - {id};
      var key := TM.RawKey(request);
      if key.Some? {
        DropRaw(key.value, id);
      }
      if id in hooks {
        tasks := tasks + [TM.Task(hooks[id], success, TM.Waiting)];
      }
      hooks := hooks - {id};
    }

    // ---- publishOpening ----

    method Enter(k: nat)
      modifies this
      ensures View() == TM.Enter(old(View()), k)
    {
      if !TM.IsTask(View(), k) || !tasks[k].stage.Waiting? || !TM.Admitted(View(), k) {
        return;
      }
      var task := tasks[k];
      tasks := tasks[k := task.(stage := TM.Calling)];
      if task.success {
        called := called + [task.publication];
      }
    }

    method Leave(k: nat)
      modifies this
      ensures View() == TM.Leave(old(View()), k)
    {
      if TM.IsTask(View(), k) && tasks[k].stage.Calling? {
        Finish(k);
      }
    }

    method Abandon(k: nat)
      modifies this
      ensures View() == TM.Abandon(old(View()), k)
    {
      if TM.IsTask(View(), k) && closed && tasks[k].stage.Waiting?
         && publications[tasks[k].publication].previous.Some? {
        Finish(k);
      }
    }

    method Finish(k: nat)
      requires TM.IsTask(View(), k)
      modifies this
      ensures View() == TM.Finish(old(View()), k)
    {
      var p := tasks[k].publication;
      var session := publications[p].session;
      if session in ready && ready[session] == p {
        ready := ready - {session};
      }
      reclosed, shut := reclosed || p in shut, shut + {p};
      tasks := tasks[k := tasks[k].(stage := TM.Finished)];
    }

    /** One look of AwaitSession. */
    method AwaitLooks(session: string) returns (nothing: bool)
      ensures nothing == TM.AwaitReturns(View(), session)
    {
      nothing := session !in ready;
    }
  }
}
