/** The concurrent HTTP server as a state machine: one listener, any number of
    sessions, a worker pool, and an environment that decides how bytes arrive,
    which operation completes next and what fails. A callback runs as one step:
    it touches its session before the call that starts the next operation. */
module HttpProtocol {
  import opened Prelude
  import opened Http
  import opened HttpRouting

  // ----------------------------------------------------------------- framing

  /** What the request parser says of the bytes it has consumed so far. */
  datatype Verdict = More | Done(req: RawRequest) | Malformed

  type Framing = Bytes -> Verdict

  /** The shortest prefix of `s`, no shorter than `from`, at which the parser stops. */
  function StopFrom(framing: Framing, s: Bytes, from: nat): (n: Option<nat>)
    requires from <= |s|
    ensures n.Some? ==> from <= n.value <= |s| && !framing(s[..n.value]).More?
    ensures n.Some? ==> forall k :: from <= k < n.value ==> framing(s[..k]).More?
    ensures n.None? ==> forall k :: from <= k <= |s| ==> framing(s[..k]).More?
    decreases |s| - from
  {
    if !framing(s[..from]).More? then Some(from)
    else if from == |s| then None
    else StopFrom(framing, s, from + 1)
  }

  /** The sequential reference: the requests a connection asks for, in arrival
      order, up to the first that does not keep the connection alive, the first
      malformed one, or the end of the stream. The first byte is always taken. */
  function RequestsOf(framing: Framing, s: Bytes): seq<RawRequest>
    decreases |s|
  {
    if s == [] then []
    else
      match StopFrom(framing, s, 1)
      case None => []
      case Some(n) =>
        match framing(s[..n])
        case Done(req) => [req] + (if req.keepAlive then RequestsOf(framing, s[n..]) else [])
        case _ => []
  }

  // ------------------------------------------------------------------- state

  datatype Answer = Answer(world: World, response: RawResponse)

  /** One connection. `input`, `taken`, `released`, `answers`, `written` and
      `fault` are its history; the rest are the fields of the session object
      and, for `unread`, the bytes the network still holds. */
  datatype Session = Session(
    input: Bytes, taken: Bytes, unread: Bytes,
    buffer: Bytes, parser: Option<Bytes>, open: bool,
    released: seq<RawRequest>, answers: seq<Answer>, written: seq<RawResponse>, fault: bool)

  /** An operation in flight or a callback ready to run. */
  datatype Activity =
    | Accepting
    | Accepted(arrival: Arrival)
    | Reading(sid: nat)
    | ReadReady(sid: nat, failed: bool)
    | Working(sid: nat, req: RawRequest)
    | Writing(sid: nat, response: RawResponse, keepAlive: bool)
    | WriteReady(sid: nat, keepAlive: bool, failed: bool)

  datatype Job = Job(sid: nat, req: RawRequest)

  /** What the listener will see: a connection that will send `input`, or a failed accept. */
  datatype Arrival = Connection(input: Bytes) | AcceptError

  /** `alive` is false once an exception has left a callback: nothing catches it
      on an io thread, so the process terminates. */
  datatype State = State(
    alive: bool, backlog: seq<Arrival>, arrived: nat, accepted: nat,
    sessions: seq<Session>, acts: map<nat, Activity>, next: nat, queue: seq<Job>)

  datatype Config = Config(framing: Framing, routes: seq<Route>, threads: nat)

  function Init(backlog: seq<Arrival>): State {
    State(true, backlog, 0, 0, [], map[0 := Accepting], 1, [])
  }

  // ----------------------------------------------- what one session's code does

  /** A session just created, before `start`. */
  function NewSession(input: Bytes): Session {
    Session(input, [], input, [], None, true, [], [], [], false)
  }

  /** `read`: a fresh parser, the same buffer. */
  function StartRead(s: Session): Session {
    s.(parser := Some([]))
  }

  predicate CanRelease(framing: Framing, s: Session) {
    s.parser.Some? && s.parser.value != [] && framing(s.parser.value).Done?
  }

  /** `m_parser->release()`. */
  function Release(framing: Framing, s: Session): Session
    requires CanRelease(framing, s)
  {
    s.(taken := s.taken + s.parser.value, parser := None, released := s.released + [framing(s.parser.value).req])
  }

  function CloseSocket(s: Session): Session {
    s.(open := false)
  }

  /** What a callback starts before it ends; `Crashes` is an exception leaving it. */
  datatype Effect = StartsRead | PostsJob(req: RawRequest) | StartsWrite(response: RawResponse, keepAlive: bool) | Ends | Crashes

  /** The completion handler of `async_read`. `known` says whether `remote_endpoint` finds a peer. */
  function OnRead(framing: Framing, s: Session, failed: bool, known: bool): (Session, Effect)
    requires !failed ==> CanRelease(framing, s)
  {
    if !failed && s.open then (Release(framing, s), PostsJob(framing(s.parser.value).req))
    else if !known then (s, Crashes)
    else (CloseSocket(s), Ends)
  }

  /** The job a pool thread runs: route, then start the write. */
  function RunJob(routes: seq<Route>, s: Session, req: RawRequest, world: World): (Session, Effect) {
    var response := Respond(routes, req, world);
    (s.(answers := s.answers + [Answer(world, response)]), StartsWrite(response, req.keepAlive))
  }

  /** The completion handler of `async_write`. */
  function OnWrite(s: Session, keepAlive: bool, failed: bool, known: bool): (Session, Effect) {
    if failed then (CloseSocket(s), Ends)
    else if keepAlive && s.open then (StartRead(s), StartsRead)
    else if !known then (s, Crashes)
    else (CloseSocket(s), Ends)
  }

  // ------------------------------------------------------------------- steps

  datatype ReadResult = ReadOk | ReadEnd | ReadMalformed | ReadFault

  datatype Event =
    | Arrive(id: nat)
    | RunAccepted(id: nat, known: bool)
    | Receive(id: nat, count: nat)
    | Consume(id: nat, count: nat)
    | FinishRead(id: nat, result: ReadResult)
    | RunReadReady(id: nat, known: bool)
    | TakeJob
    | FinishJob(id: nat, world: World)
    | FinishWrite(id: nat, ok: bool)
    | RunWriteReady(id: nat, known: bool)

  /** When the read in flight may complete with a result. */
  predicate CanFinishRead(framing: Framing, s: Session, result: ReadResult) {
    s.parser.Some?
    && match result
       case ReadOk => CanRelease(framing, s)
       case ReadMalformed => s.parser.value != [] && framing(s.parser.value).Malformed?
       case ReadEnd => s.unread == [] && PendingIsPartial(framing, s)
       case ReadFault => true
  }

  /** No request ends inside the bytes the session has received. */
  predicate PendingIsPartial(framing: Framing, s: Session)
    requires s.parser.Some?
  {
    forall k :: 0 <= k <= |s.buffer| && 0 < |s.parser.value| + k ==> framing(s.parser.value + s.buffer[..k]).More?
  }

  /** The parser takes the next bytes of the buffer and stops where its verdict is final. */
  predicate CanConsume(framing: Framing, s: Session, count: nat) {
    s.parser.Some? && 0 < count <= |s.buffer|
    && forall k :: 0 <= k < count && 0 < |s.parser.value| + k ==> framing(s.parser.value + s.buffer[..k]).More?
  }

  /** Sum of a weight over the activities with identifiers below `upTo`. */
  function SumActs(acts: map<nat, Activity>, weight: Activity -> nat, upTo: nat): nat {
    if upTo == 0 then 0
    else SumActs(acts, weight, upTo - 1) + if upTo - 1 in acts then weight(acts[upTo - 1]) else 0
  }

  function WorkerLoad(a: Activity): nat {
    if a.Working? then 1 else 0
  }

  function BusyWorkers(st: State): nat {
    SumActs(st.acts, WorkerLoad, st.next)
  }

  predicate Holds(st: State, id: nat) {
    id in st.acts
    && match st.acts[id]
       case Accepting => true
       case Accepted(_) => true
       case a => a.sid < |st.sessions|
  }

  predicate Enabled(c: Config, st: State, ev: Event) {
    st.alive
    && match ev
       case Arrive(id) => Holds(st, id) && st.acts[id].Accepting? && st.backlog != []
       case RunAccepted(id, _) => c.threads > 0 && Holds(st, id) && st.acts[id].Accepted?
       case Receive(id, count) =>
         Holds(st, id) && st.acts[id].Reading? && 0 < count <= |st.sessions[st.acts[id].sid].unread|
       case Consume(id, count) =>
         c.threads > 0 && Holds(st, id) && st.acts[id].Reading? && CanConsume(c.framing, st.sessions[st.acts[id].sid], count)
       case FinishRead(id, result) =>
         c.threads > 0 && Holds(st, id) && st.acts[id].Reading? && CanFinishRead(c.framing, st.sessions[st.acts[id].sid], result)
       case RunReadReady(id, _) =>
         c.threads > 0 && Holds(st, id) && st.acts[id].ReadReady?
         && (!st.acts[id].failed ==> CanRelease(c.framing, st.sessions[st.acts[id].sid]))
       case TakeJob => st.queue != [] && BusyWorkers(st) < c.threads
       case FinishJob(id, _) => Holds(st, id) && st.acts[id].Working?
       case FinishWrite(id, _) => c.threads > 0 && Holds(st, id) && st.acts[id].Writing?
       case RunWriteReady(id, _) => c.threads > 0 && Holds(st, id) && st.acts[id].WriteReady?
  }

  /** Carries out what a callback of session `sid`, run as activity `id`, started. */
  function Apply(st: State, id: nat, sid: nat, after: (Session, Effect)): State
    requires sid < |st.sessions|
  {
    match after.1
    case Crashes => st.(alive := false)
    case StartsRead => st.(sessions := st.sessions[sid := after.0], acts := st.acts[id := Reading(sid)])
    case StartsWrite(response, keepAlive) =>
      st.(sessions := st.sessions[sid := after.0], acts := st.acts[id := Writing(sid, response, keepAlive)])
    case PostsJob(req) =>
      st.(sessions := st.sessions[sid := after.0], acts := st.acts - {id}, queue := st.queue + [Job(sid, req)])
    case Ends => st.(sessions := st.sessions[sid := after.0], acts := st.acts - {id})
  }

  function Next(c: Config, st: State, ev: Event): State
    requires Enabled(c, st, ev)
  {
    match ev
    case Arrive(id) =>
      st.(acts := st.acts[id := Accepted(st.backlog[0])], backlog := st.backlog[1..], arrived := st.arrived + 1)
    case RunAccepted(id, known) =>
      // The peer is looked up before the error code is checked, and a failed accept has no peer.
      (match st.acts[id].arrival
       case AcceptError => st.(alive := false)
       case Connection(input) =>
         if !known then st.(alive := false)
         else
           st.(accepted := st.accepted + 1,
               sessions := st.sessions + [StartRead(NewSession(input))],
               acts := st.acts[id := Accepting][st.next := Reading(|st.sessions|)],
               next := st.next + 1))
    case Receive(id, count) =>
      var sid := st.acts[id].sid;
      var s := st.sessions[sid];
      st.(sessions := st.sessions[sid := s.(buffer := s.buffer + s.unread[..count], unread := s.unread[count..])])
    case Consume(id, count) =>
      var sid := st.acts[id].sid;
      var s := st.sessions[sid];
      st.(sessions := st.sessions[sid := s.(parser := Some(s.parser.value + s.buffer[..count]), buffer := s.buffer[count..])])
    case FinishRead(id, result) =>
      var sid := st.acts[id].sid;
      st.(sessions := st.sessions[sid := st.sessions[sid].(fault := st.sessions[sid].fault || result.ReadFault?)],
          acts := st.acts[id := ReadReady(sid, !result.ReadOk?)])
    case RunReadReady(id, known) =>
      var sid := st.acts[id].sid;
      Apply(st, id, sid, OnRead(c.framing, st.sessions[sid], st.acts[id].failed, known))
    case TakeJob =>
      st.(acts := st.acts[st.next := Working(st.queue[0].sid, st.queue[0].req)], next := st.next + 1, queue := st.queue[1..])
    case FinishJob(id, world) =>
      var sid := st.acts[id].sid;
      Apply(st, id, sid, RunJob(c.routes, st.sessions[sid], st.acts[id].req, world))
    case FinishWrite(id, ok) =>
      var a := st.acts[id];
      var s := st.sessions[a.sid];
      st.(sessions := st.sessions[a.sid := if ok then s.(written := s.written + [a.response]) else s.(fault := true)],
          acts := st.acts[id := WriteReady(a.sid, a.keepAlive, !ok)])
    case RunWriteReady(id, known) =>
      var a := st.acts[id];
      Apply(st, id, a.sid, OnWrite(st.sessions[a.sid], a.keepAlive, a.failed, known))
  }

  /** A run: every event enabled when it happens. */
  predicate Legal(c: Config, st: State, evs: seq<Event>)
    decreases |evs|
  {
    evs == [] || (Enabled(c, st, evs[0]) && Legal(c, Next(c, st, evs[0]), evs[1..]))
  }

  function Run(c: Config, st: State, evs: seq<Event>): State
    requires Legal(c, st, evs)
    decreases |evs|
  {
    if evs == [] then st else Run(c, Next(c, st, evs[0]), evs[1..])
  }
}
