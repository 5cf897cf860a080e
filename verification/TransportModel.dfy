/**
 The transport's opening-publication protocol (wire/transport.go) as atomic steps, one for each section the
 source runs under its lock and one for each point where a publication's goroutine waits, calls or ends.

 A barrier is the index of its publication: `shut` holds those closed, and `reclosed` records a second close,
 which would be a panic. `called` lists the publications whose hooks were called, in order.
 */
module TransportModel {
  import opened Wrappers

  datatype Method = Initialize | NewSession | LoadSession | ResumeSession | Prompt | OtherMethod

  datatype Request = Request(verb: Method, session: string)

  datatype RawParams = RawParams(id: string, params: string)

  datatype Publication = Publication(session: string, request: string, hook: nat, previous: Option<nat>)

  datatype Stage = Waiting | Calling | Finished

  /** One publishOpening goroutine. */
  datatype Task = Task(publication: nat, success: bool, stage: Stage)

  datatype Transport = Transport(
    requests: map<string, Request>, raw: map<string, seq<RawParams>>, hooks: map<string, nat>, ready: map<string, nat>,
    publications: seq<Publication>, tasks: seq<Task>, shut: set<nat>, reclosed: bool, called: seq<nat>, closed: bool)

  function New(): Transport {
    Transport(map[], map[], map[], map[], [], [], {}, false, [], false)
  }

  // ---- raw parameters ----

  function RawKey(r: Request): Option<string> {
    match r.verb
    case Initialize => Some("initialize")
    case Prompt => Some("prompt/" + r.session)
    case _ => None
  }

  function Queue(raw: map<string, seq<RawParams>>, key: string): seq<RawParams> {
    if key in raw then raw[key] else []
  }

  /** The queue without the first entry a response answers. */
  function Dropped(queue: seq<RawParams>, id: string): seq<RawParams> {
    if queue == [] then []
    else if queue[0].id == id then queue[1..]
    else [queue[0]] + Dropped(queue[1..], id)
  }

  // ---- the steps ----

  /** A queue changed by a request that keeps its raw parameters. */
  function WithQueue(t: Transport, r: Request, change: seq<RawParams> -> seq<RawParams>): Transport {
    match RawKey(r)
    case None => t
    case Some(key) => t.(raw := t.raw[key := change(Queue(t.raw, key))])
  }

  /** observeInbound. */
  function ObserveInbound(t: Transport, id: string, r: Request, params: string): Transport {
    WithQueue(t.(requests := t.requests[id := r]), r, queue => queue + [RawParams(id, params)])
  }

  predicate Establishes(r: Request, session: string) {
    r.verb.NewSession? || ((r.verb.LoadSession? || r.verb.ResumeSession?) && r.session == session)
  }

  /** RegisterHook; a second registration under one request only replaces its hook. */
  function RegisterHook(t: Transport, id: string, session: string, hook: nat): (Transport, bool) {
    if id !in t.requests || !Establishes(t.requests[id], session) then (t, false)
    else if id in t.hooks && t.hooks[id] < |t.publications| then
      var p := t.hooks[id];
      (t.(publications := t.publications[p := t.publications[p].(hook := hook)]), true)
    else
      var p := |t.publications|;
      var previous := if session in t.ready then Some(t.ready[session]) else None;
      (t.(publications := t.publications + [Publication(session, id, hook, previous)],
          ready := t.ready[session := p], hooks := t.hooks[id := p]), true)
  }

  /** The request is forgotten and its publication released. */
  function Release(t: Transport, id: string, success: bool): Transport {
    t.(requests := t.requests - {id}, hooks := t.hooks - {id},
       tasks := if id in t.hooks then t.tasks + [Task(t.hooks[id], success, Waiting)] else t.tasks)
  }

  /** observeOutboundFrame of a response. */
  function ObserveResponse(t: Transport, id: string, success: bool): Transport {
    if id !in t.requests then t
    else WithQueue(Release(t, id, success), t.requests[id], queue => Dropped(queue, id))
  }

  predicate IsTask(t: Transport, k: nat) {
    k < |t.tasks| && t.tasks[k].publication < |t.publications|
  }

  /** The predecessor's barrier, if there is one, is closed. */
  predicate Admitted(t: Transport, k: nat)
    requires IsTask(t, k)
  {
    var previous := t.publications[t.tasks[k].publication].previous;
    previous.None? || previous.value in t.shut
  }

  /** publishOpening past its wait: the hook is called if the response succeeded. */
  function Enter(t: Transport, k: nat): Transport {
    if !IsTask(t, k) || !t.tasks[k].stage.Waiting? || !Admitted(t, k) then t
    else
      var task := t.tasks[k];
      t.(tasks := t.tasks[k := task.(stage := Calling)],
         called := if task.success then t.called + [task.publication] else t.called)
  }

  /**
   The deferred end of publishOpening: the session's tail is cleared if it is still this one, and the barrier
   closed.
   */
  function Finish(t: Transport, k: nat): Transport
    requires IsTask(t, k)
  {
    var p := t.tasks[k].publication;
    var session := t.publications[p].session;
    t.(tasks := t.tasks[k := t.tasks[k].(stage := Finished)],
       ready := if session in t.ready && t.ready[session] == p then t.ready - {session} else t.ready,
       reclosed := t.reclosed || p in t.shut, shut := t.shut + {p})
  }

  function Leave(t: Transport, k: nat): Transport {
    if IsTask(t, k) && t.tasks[k].stage.Calling? then Finish(t, k) else t
  }

  /** A closed transport lets a waiting publication give up. */
  function Abandon(t: Transport, k: nat): Transport {
    if IsTask(t, k) && t.closed && t.tasks[k].stage.Waiting? && t.publications[t.tasks[k].publication].previous.Some?
    then Finish(t, k) else t
  }

  /** One look of AwaitSession: it returns nil exactly when the session has no tail to wait for. */
  predicate AwaitReturns(t: Transport, session: string) {
    session !in t.ready
  }

  datatype Action =
    | Inbound(id: string, request: Request, params: string)
    | Register(id: string, session: string, hook: nat)
    | Respond(id: string, success: bool)
    | EnterTask(k: nat) | LeaveTask(k: nat) | AbandonTask(k: nat)
    | TakeRaw(key: string, index: nat)
    | CloseAll

  function Do(t: Transport, a: Action): Transport {
    match a
    case Inbound(id, r, params) => ObserveInbound(t, id, r, params)
    case Register(id, session, hook) => RegisterHook(t, id, session, hook).0
    case Respond(id, success) => ObserveResponse(t, id, success)
    case EnterTask(k) => Enter(t, k)
    case LeaveTask(k) => Leave(t, k)
    case AbandonTask(k) => Abandon(t, k)
    case TakeRaw(key, i) =>
      var queue := Queue(t.raw, key);
      if i < |queue| then t.(raw := t.raw[key := queue[..i] + queue[i + 1..]]) else t
    case CloseAll => t.(closed := true)
  }

  function Run(actions: seq<Action>): Transport {
    if actions == [] then New() else Do(Run(actions[..|actions| - 1]), actions[|actions| - 1])
  }
}
