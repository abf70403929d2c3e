/** `HttpSession` and `HttpServer` as objects: the callbacks, written the way
    the program runs them, carry out exactly the steps of `HttpProtocol`. The
    library's side (bytes arriving, operations completing) is a method too. */
module HttpServers {
  import opened Prelude
  import opened Http
  import opened HttpRouting
  import opened HttpProtocol

  /** The thread pool all sessions post to: jobs not yet taken, oldest first. */
  class WorkerPool {
    var queue: seq<Job>

    constructor ()
      ensures queue == []
    {
      queue := [];
    }

    method Post(job: Job)
      modifies this
      ensures queue == old(queue) + [job]
    {
      queue := queue + [job];
    }

    method Take() returns (job: Job)
      requires queue != []
      modifies this
      ensures old(queue) == [job] + queue
    {
      job, queue := queue[0], queue[1..];
    }
  }

  /** `sid` stands for the session a posted closure captures. */
  class HttpSession {
    const framing: Framing
    const router: HttpRouter
    const pool: WorkerPool
    const sid: nat
    var buffer: Bytes
    var parser: Option<Bytes>
    var open: bool
    ghost var input: Bytes
    ghost var taken: Bytes
    ghost var released: seq<RawRequest>
    ghost var answers: seq<Answer>
    ghost var written: seq<RawResponse>
    ghost var fault: bool
    var unread: Bytes

    ghost function View(): Session
      reads this
    {
      Session(input, taken, unread, buffer, parser, open, released, answers, written, fault)
    }

    constructor (framing: Framing, router: HttpRouter, pool: WorkerPool, sid: nat, bytes: Bytes)
      ensures View() == NewSession(bytes)
      ensures this.framing == framing && this.router == router && this.pool == pool && this.sid == sid
    {
      this.framing, this.router, this.pool, this.sid := framing, router, pool, sid;
      this.buffer, this.parser, this.open, this.unread := [], None, true, bytes;
      this.input, this.taken, this.released, this.answers, this.written, this.fault := bytes, [], [], [], [], false;
    }

    method Start() returns (effect: Effect)
      modifies this
      ensures View() == StartRead(old(View())) && effect == StartsRead
    {
      effect := Read();
    }

    method Read() returns (effect: Effect)
      modifies this
      ensures View() == StartRead(old(View())) && effect == StartsRead
    {
      parser := Some([]);
      effect := StartsRead;
    }

    /** The network puts bytes into the buffer. */
    method ReceiveBytes(count: nat)
      requires count <= |unread|
      modifies this
      ensures View() == old(View()).(buffer := old(buffer + unread[..count]), unread := old(unread[count..]))
    {
      buffer, unread := buffer + unread[..count], unread[count..];
    }

    /** The parser takes bytes out of the buffer. */
    method ConsumeBytes(count: nat)
      requires parser.Some? && count <= |buffer|
      modifies this
      ensures View() == old(View()).(parser := Some(old(parser.value + buffer[..count])), buffer := old(buffer[count..]))
    {
      parser, buffer := Some(parser.value + buffer[..count]), buffer[count..];
    }

    method OnReadDone(failed: bool, known: bool) returns (effect: Effect)
      requires !failed ==> CanRelease(framing, View())
      modifies this, pool
      ensures (View(), effect) == OnRead(framing, old(View()), failed, known)
      ensures pool.queue == QueueAfter(old(pool.queue), sid, effect)
    {
      if !failed && open {
        var req := framing(parser.value).req;
        taken := taken + parser.value;
        released := released + [req];
        parser := None;
        HandleRequest(req);
        effect := PostsJob(req);
      } else if !known {
        effect := Crashes;
      } else {
        Close();
        effect := Ends;
      }
    }

    method ReadCompleted(result: ReadResult)
      modifies this
      ensures View() == old(View()).(fault := old(fault) || result.ReadFault?)
    {
      fault := fault || result.ReadFault?;
    }

    method WriteCompleted(response: RawResponse, ok: bool)
      modifies this
      ensures View() == if ok then old(View()).(written := old(written) + [response]) else old(View()).(fault := true)
    {
      if ok {
        written := written + [response];
      } else {
        fault := true;
      }
    }

    /** Posts one job for the request behind whatever other sessions posted; the session itself stays as it is. */
    method HandleRequest(req: RawRequest)
      modifies pool
      ensures pool.queue == old(pool.queue) + [Job(sid, req)]
    {
      pool.Post(Job(sid, req));
    }

    /** The closure posted to the pool. */
    method RunPosted(req: RawRequest, world: World) returns (effect: Effect)
      modifies this
      ensures (View(), effect) == RunJob(router.routes, old(View()), req, world)
    {
      var response := router.HandleRequest(req, world);
      answers := answers + [Answer(world, response)];
      effect := StartsWrite(response, req.keepAlive);
    }

    method OnWriteDone(keepAlive: bool, failed: bool, known: bool) returns (effect: Effect)
      modifies this
      ensures (View(), effect) == OnWrite(old(View()), keepAlive, failed, known)
    {
      if failed {
        Close();
        return Ends;
      }
      if keepAlive && open {
        effect := Read();
      } else if !known {
        effect := Crashes;
      } else {
        Close();
        effect := Ends;
      }
    }

    method Close()
      modifies this
      ensures View() == CloseSocket(old(View()))
    {
      open := false;
    }
  }

  ghost function Views(sessions: seq<HttpSession>): (views: seq<Session>)
    reads sessions
    ensures |views| == |sessions|
    ensures forall i :: 0 <= i < |sessions| ==> views[i] == sessions[i].View()
  {
    seq(|sessions|, i requires 0 <= i < |sessions| reads sessions => sessions[i].View())
  }

  lemma ViewsAppended(sessions: seq<HttpSession>, session: HttpSession)
    ensures Views(sessions + [session]) == Views(sessions) + [session.View()]
  {
  }

  function ActsAfter(acts: map<nat, Activity>, id: nat, sid: nat, effect: Effect): map<nat, Activity> {
    match effect
    case Crashes => acts
    case StartsRead => acts[id := Reading(sid)]
    case StartsWrite(response, keepAlive) => acts[id := Writing(sid, response, keepAlive)]
    case _ => acts - {id}
  }

  function QueueAfter(queue: seq<Job>, sid: nat, effect: Effect): seq<Job> {
    if effect.PostsJob? then queue + [Job(sid, effect.req)] else queue
  }

  /** `Apply`, field by field. */
  lemma ApplyByFields(st: State, id: nat, sid: nat, after: (Session, Effect))
    requires st.alive && sid < |st.sessions| && (after.1.Crashes? ==> after.0 == st.sessions[sid])
    ensures Apply(st, id, sid, after)
         == st.(alive := st.alive && !after.1.Crashes?, sessions := st.sessions[sid := after.0],
                acts := ActsAfter(st.acts, id, sid, after.1), queue := QueueAfter(st.queue, sid, after.1))
  {
    if after.1.Crashes? {
      assert st.sessions[sid := after.0] == st.sessions;
    }
  }

  class HttpServer {
    const framing: Framing
    const threadCount: nat
    var router: HttpRouter?
    var threads: seq<nat>
    var backlog: seq<Arrival>
    var sessions: seq<HttpSession>
    var acts: map<nat, Activity>
    var next: nat
    const pool: WorkerPool
    var alive: bool
    ghost var arrived: nat
    ghost var accepted: nat

    ghost predicate Valid()
      reads this, sessions
    {
      && router != null
      && (forall i, j :: 0 <= i < j < |sessions| ==> sessions[i] != sessions[j])
      && (forall i :: 0 <= i < |sessions| ==> sessions[i].framing == framing && sessions[i].router == router)
      && (forall i :: 0 <= i < |sessions| ==> sessions[i].pool == pool && sessions[i].sid == i)
    }

    ghost function View(): State
      reads this, sessions, pool
    {
      State(alive, backlog, arrived, accepted, Views(sessions), acts, next, pool.queue)
    }

    /** What a run depends on and never changes. */
    ghost function Setting(): Config
      requires router != null
      reads this, router
    {
      Config(framing, router.routes, threadCount)
    }

    constructor (framing: Framing, threadCount: nat, backlog: seq<Arrival>)
      ensures router == null && sessions == [] && pool.queue == [] && this.backlog == backlog
      ensures this.framing == framing && this.threadCount == threadCount
    {
      this.framing, this.threadCount, this.backlog := framing, threadCount, backlog;
      router, sessions, acts, next, threads := null, [], map[], 0, [];
      alive, arrived, accepted := true, 0, 0;
      pool := new WorkerPool();
    }

    method SetRouter(router: HttpRouter)
      modifies this`router
      ensures this.router == router
    {
      this.router := router;
    }

    /** Throws without a router; else arms the listener and starts the io threads. */
    method Start() returns (threw: bool)
      requires sessions == [] && pool.queue == []
      modifies this
      ensures sessions == [] && router == old(router) && backlog == old(backlog)
      ensures threw <==> router == null
      ensures !threw ==> Valid() && View() == Init(backlog) && |threads| == threadCount
    {
      if router == null {
        return true;
      }
      alive, arrived, accepted, acts, next := true, 0, 0, map[], 0;
      Accept(0);
      next := 1;
      threads := [];
      for i := 0 to threadCount
        invariant |threads| == i
        invariant sessions == [] && router == old(router) && backlog == old(backlog)
        invariant View() == Init(backlog)
      {
        threads := threads + [i];
      }
      threw := false;
    }

    /** `async_accept` under an operation identifier. */
    method Accept(id: nat)
      modifies this`acts
      ensures acts == old(acts)[id := Accepting]
    {
      acts := acts[id := Accepting];
    }

    method NewStarted(input: Bytes) returns (session: HttpSession)
      requires router != null
      ensures fresh(session) && session.View() == StartRead(NewSession(input))
      ensures session.framing == framing && session.router == router
      ensures session.pool == pool && session.sid == |sessions|
    {
      session := new HttpSession(framing, router, pool, |sessions|, input);
      var effect := session.Start();
    }

    /** `make_shared<HttpSession>(...)->start()`, then `accept()` again. */
    method Admit(id: nat, input: Bytes) returns (session: HttpSession)
      requires Valid()
      modifies this`sessions, this`acts, this`next, this`accepted
      ensures fresh(session) && session.View() == StartRead(NewSession(input))
      ensures session.framing == framing && session.router == router
      ensures session.pool == pool && session.sid == old(|sessions|)
      ensures sessions == old(sessions) + [session]
      ensures acts == old(acts)[id := Accepting][old(next) := Reading(old(|sessions|))]
      ensures next == old(next) + 1 && accepted == old(accepted) + 1
    {
      session := NewStarted(input);
      accepted := accepted + 1;
      sessions := sessions + [session];
      Accept(id);
      acts := acts[next := Reading(|sessions| - 1)];
      next := next + 1;
    }

    /** The same, on the state as a whole. */
    method Register(id: nat, input: Bytes)
      requires Valid()
      modifies this
      ensures Valid() && router == old(router)
      ensures (forall i :: 0 <= i < |sessions| ==> sessions[i] in old(sessions) || fresh(sessions[i]))
      ensures View() == old(View()).(
                accepted := old(accepted) + 1,
                sessions := old(View()).sessions + [StartRead(NewSession(input))],
                acts := old(acts)[id := Accepting][old(next) := Reading(|old(View()).sessions|)],
                next := old(next) + 1)
    {
      var session := Admit(id, input);
      ViewsAppended(old(sessions), session);
      assert Views(old(sessions)) == old(Views(sessions));
    }

    /** The completion handler of `async_accept`: the peer is looked up first. */
    method OnAccept(id: nat, known: bool)
      requires Valid() && Enabled(Setting(), View(), RunAccepted(id, known))
      modifies this
      ensures Valid() && View() == Next(Setting(), old(View()), RunAccepted(id, known))
      ensures router == old(router) && (forall i :: 0 <= i < |sessions| ==> sessions[i] in old(sessions) || fresh(sessions[i]))
    {
      var arrival := acts[id].arrival;
      if arrival.AcceptError? || !known {
        alive := false;
      } else {
        Register(id, arrival.input);
      }
    }

    /** Carries out what a callback of session `sid`, running as `id`, started. */
    method Perform(id: nat, sid: nat, effect: Effect)
      modifies this`alive, this`acts
      ensures alive == (old(alive) && !effect.Crashes?)
      ensures acts == ActsAfter(old(acts), id, sid, effect)
    {
      match effect
      case Crashes => alive := false;
      case StartsRead => acts := acts[id := Reading(sid)];
      case StartsWrite(response, keepAlive) => acts := acts[id := Writing(sid, response, keepAlive)];
      case PostsJob(_) => acts := acts - {id};
      case Ends => acts := acts - {id};
    }

    /** Only session `sid` may differ between two lists of views. */
    twostate lemma OnlyOneMoved(sid: nat)
      requires Valid() && sessions == old(sessions) && sid < |sessions|
      requires forall i :: 0 <= i < |sessions| && i != sid ==> unchanged(sessions[i])
      ensures Views(sessions) == old(Views(sessions))[sid := sessions[sid].View()]
    {
    }

    /** The completion handler of `async_read`, on the strand of its session. */
    method OnReadReady(id: nat, known: bool)
      requires Valid() && alive && Holds(View(), id) && acts[id].ReadReady?
      requires !acts[id].failed ==> CanRelease(framing, sessions[acts[id].sid].View())
      modifies this, sessions, pool
      ensures Valid()
      ensures var a := old(acts[id]);
              View() == Apply(old(View()), id, a.sid, OnRead(framing, old(sessions[acts[id].sid].View()), a.failed, known))
      ensures router == old(router) && sessions == old(sessions)
    {
      var a := acts[id];
      var effect := sessions[a.sid].OnReadDone(a.failed, known);
      Perform(id, a.sid, effect);
      OnlyOneMoved(a.sid);
      ApplyByFields(old(View()), id, a.sid, (sessions[a.sid].View(), effect));
    }

    /** A posted job, on a pool thread. */
    method RunWorker(id: nat, world: World)
      requires Valid() && alive && Holds(View(), id) && acts[id].Working?
      modifies this, sessions
      ensures Valid()
      ensures var a := old(acts[id]);
              View() == Apply(old(View()), id, a.sid, RunJob(router.routes, old(sessions[acts[id].sid].View()), a.req, world))
      ensures router == old(router) && sessions == old(sessions)
    {
      var a := acts[id];
      var effect := sessions[a.sid].RunPosted(a.req, world);
      Perform(id, a.sid, effect);
      OnlyOneMoved(a.sid);
      ApplyByFields(old(View()), id, a.sid, (sessions[a.sid].View(), effect));
    }

    /** The completion handler of `async_write`, on the strand of its session. */
    method OnWritten(id: nat, known: bool)
      requires Valid() && alive && Holds(View(), id) && acts[id].WriteReady?
      modifies this, sessions
      ensures Valid()
      ensures var a := old(acts[id]);
              View() == Apply(old(View()), id, a.sid, OnWrite(old(sessions[acts[id].sid].View()), a.keepAlive, a.failed, known))
      ensures router == old(router) && sessions == old(sessions)
    {
      var a := acts[id];
      var effect := sessions[a.sid].OnWriteDone(a.keepAlive, a.failed, known);
      Perform(id, a.sid, effect);
      OnlyOneMoved(a.sid);
      ApplyByFields(old(View()), id, a.sid, (sessions[a.sid].View(), effect));
    }

    /** The network delivers bytes to a read in flight. */
    method Deliver(id: nat, count: nat)
      requires Valid() && Enabled(Setting(), View(), Receive(id, count))
      modifies this, sessions
      ensures Valid() && View() == Next(Setting(), old(View()), Receive(id, count))
      ensures router == old(router) && sessions == old(sessions)
    {
      sessions[acts[id].sid].ReceiveBytes(count);
      OnlyOneMoved(acts[id].sid);
    }

    /** The parser of a read in flight goes on. */
    method Parse(id: nat, count: nat)
      requires Valid() && Enabled(Setting(), View(), Consume(id, count))
      modifies this, sessions
      ensures Valid() && View() == Next(Setting(), old(View()), Consume(id, count))
      ensures router == old(router) && sessions == old(sessions)
    {
      sessions[acts[id].sid].ConsumeBytes(count);
      OnlyOneMoved(acts[id].sid);
    }

    /** A read in flight completes. */
    method CompleteRead(id: nat, result: ReadResult)
      requires Valid() && Enabled(Setting(), View(), FinishRead(id, result))
      modifies this, sessions
      ensures Valid() && View() == Next(Setting(), old(View()), FinishRead(id, result))
      ensures router == old(router) && sessions == old(sessions)
    {
      var sid := acts[id].sid;
      sessions[sid].ReadCompleted(result);
      acts := acts[id := ReadReady(sid, !result.ReadOk?)];
      OnlyOneMoved(sid);
    }

    /** A write in flight completes. */
    method CompleteWrite(id: nat, ok: bool)
      requires Valid() && Enabled(Setting(), View(), FinishWrite(id, ok))
      modifies this, sessions
      ensures Valid() && View() == Next(Setting(), old(View()), FinishWrite(id, ok))
      ensures router == old(router) && sessions == old(sessions)
    {
      var a := acts[id];
      sessions[a.sid].WriteCompleted(a.response, ok);
      acts := acts[id := WriteReady(a.sid, a.keepAlive, !ok)];
      OnlyOneMoved(a.sid);
    }

    /** A pool thread takes the oldest job. */
    method TakeWork()
      requires Valid() && Enabled(Setting(), View(), TakeJob)
      modifies this, sessions, pool
      ensures Valid() && View() == Next(Setting(), old(View()), TakeJob)
      ensures router == old(router) && sessions == old(sessions)
    {
      var job := pool.Take();
      acts, next := acts[next := Working(job.sid, job.req)], next + 1;
    }

    /** The pending accept completes. */
    method Connect(id: nat)
      requires Valid() && Enabled(Setting(), View(), Arrive(id))
      modifies this, sessions
      ensures Valid() && View() == Next(Setting(), old(View()), Arrive(id))
      ensures router == old(router) && sessions == old(sessions)
    {
      acts, backlog, arrived := acts[id := Accepted(backlog[0])], backlog[1..], arrived + 1;
    }

    method Dispatch(ev: Event)
      requires Valid() && Enabled(Setting(), View(), ev)
      modifies this, sessions, pool
      ensures Valid() && View() == Next(Setting(), old(View()), ev)
      ensures router == old(router) && (forall i :: 0 <= i < |sessions| ==> sessions[i] in old(sessions) || fresh(sessions[i]))
    {
      match ev {
        case RunAccepted(id, known) => OnAccept(id, known);
        case RunReadReady(id, known) => OnReadReady(id, known);
        case FinishJob(id, world) => RunWorker(id, world);
        case RunWriteReady(id, known) => OnWritten(id, known);
        case Receive(id, count) => Deliver(id, count);
        case Consume(id, count) => Parse(id, count);
        case FinishRead(id, result) => CompleteRead(id, result);
        case FinishWrite(id, ok) => CompleteWrite(id, ok);
        case TakeJob => TakeWork();
        case Arrive(id) => Connect(id);
      }
    }

    /** The objects follow every run of the state machine, so all that is proved of its runs holds of them. */
    method Play(evs: seq<Event>)
      requires Valid() && Legal(Setting(), View(), evs)
      modifies this, sessions, pool
      ensures Valid() && View() == Run(old(Setting()), old(View()), evs)
    {
      ghost var setting := Setting();
      for i := 0 to |evs|
        invariant Valid() && router == old(router) && Setting() == setting
        invariant (forall i :: 0 <= i < |sessions| ==> sessions[i] in old(sessions) || fresh(sessions[i]))
        invariant Legal(setting, View(), evs[i..])
        invariant Run(setting, View(), evs[i..]) == Run(setting, old(View()), evs)
      {
        assert evs[i..][0] == evs[i] && evs[i..][1..] == evs[i + 1..];
        Dispatch(evs[i]);
      }
    }
  }
}
