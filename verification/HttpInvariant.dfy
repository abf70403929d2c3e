/** What every step of the HTTP server keeps: each open session has exactly one
    owner, and every session is a prefix of its sequential run. */
module HttpInvariant {
  import opened Prelude
  import opened Http
  import opened HttpRouting
  import opened HttpProtocol

  // --------------------------------------------------------------- ownership

  /** Who an activity belongs to: a session, or the listener. */
  function Owner(a: Activity): int {
    match a
    case Accepting => -1
    case Accepted(_) => -1
    case _ => a.sid
  }

  type Acts = map<nat, Activity>

  predicate IsOpen(sessions: seq<Session>, sid: int) {
    0 <= sid < |sessions| && sessions[sid].open
  }

  ghost predicate Owned(acts: Acts, queue: seq<Job>, sid: nat) {
    (exists id :: id in acts && Owner(acts[id]) == sid) || (exists job :: job in queue && job.sid == sid)
  }

  /** No two pending activities have the same owner. */
  ghost predicate Distinct(acts: Acts, queue: seq<Job>) {
    && (forall x, y :: x in acts && y in acts && x != y ==> Owner(acts[x]) != Owner(acts[y]))
    && (forall i, j :: 0 <= i < j < |queue| ==> queue[i].sid != queue[j].sid)
    && (forall x, job :: x in acts && job in queue ==> Owner(acts[x]) != job.sid)
  }

  /** Only open sessions, and the listener, own anything. */
  ghost predicate OwnersOpen(sessions: seq<Session>, acts: Acts, queue: seq<Job>) {
    && (forall x :: x in acts ==> Owner(acts[x]) == -1 || IsOpen(sessions, Owner(acts[x])))
    && (forall job :: job in queue ==> IsOpen(sessions, job.sid))
  }

  /** Every open session owns something. */
  ghost predicate Covered(sessions: seq<Session>, acts: Acts, queue: seq<Job>) {
    forall sid: nat :: IsOpen(sessions, sid) ==> Owned(acts, queue, sid)
  }

  ghost predicate Listens(acts: Acts) {
    exists id :: id in acts && Owner(acts[id]) == -1
  }

  /** The single-owner invariant: an open session has exactly one pending
      activity, a closed one has none, the listener has one. */
  ghost predicate Ownership(st: State) {
    && (forall id :: id in st.acts ==> id < st.next)
    && Distinct(st.acts, st.queue)
    && OwnersOpen(st.sessions, st.acts, st.queue)
    && Covered(st.sessions, st.acts, st.queue)
    && Listens(st.acts)
  }

  // --------------------------------------------------------------- a session

  predicate AllKeep(reqs: seq<RawRequest>) {
    forall i :: 0 <= i < |reqs| ==> reqs[i].keepAlive
  }

  /** Bytes received or still to come that no released request has used. */
  function Pending(s: Session): Bytes {
    (if s.parser.Some? then s.parser.value else []) + s.buffer + s.unread
  }

  function Remaining(c: Config, s: Session): seq<RawRequest> {
    if AllKeep(s.released) then RequestsOf(c.framing, Pending(s)) else []
  }

  /** The history of a session, whatever it is doing: no byte lost or made up,
      requests released in the order of the reference, answers routed from
      them, writes a prefix of the answers. */
  predicate SessionOk(c: Config, s: Session) {
    && s.input == s.taken + Pending(s)
    && RequestsOf(c.framing, s.input) == s.released + Remaining(c, s)
    && |s.written| <= |s.answers| <= |s.released|
    && (forall i :: 0 <= i < |s.answers| ==>
          s.answers[i].response == Respond(c.routes, s.released[i], s.answers[i].world))
    && (forall i :: 0 <= i < |s.written| ==> s.written[i] == s.answers[i].response)
  }

  /** A closed session has routed every request it released, and without an
      I/O error it has answered everything it was asked. */
  predicate ClosedOk(c: Config, s: Session) {
    !s.open && |s.answers| == |s.released|
    && (!s.fault ==> |s.written| == |s.released| && Remaining(c, s) == [])
  }

  predicate ReadOpen(c: Config, s: Session) {
    && s.open && s.parser.Some? && AllKeep(s.released)
    && |s.written| == |s.answers| == |s.released|
    && (forall k :: 0 < k < |s.parser.value| ==> c.framing(s.parser.value[..k]).More?)
  }

  predicate InRequest(s: Session, keepAlive: bool) {
    && s.open && s.parser.None? && s.released != []
    && AllKeep(s.released[..|s.released| - 1])
    && s.released[|s.released| - 1].keepAlive == keepAlive
  }

  predicate JobOk(s: Session, req: RawRequest) {
    && InRequest(s, req.keepAlive) && !s.fault
    && s.released[|s.released| - 1] == req
    && |s.answers| == |s.written| == |s.released| - 1
  }

  /** What a pending activity tells about its session. */
  predicate ActOk(c: Config, s: Session, a: Activity) {
    match a
    case Reading(_) => ReadOpen(c, s) && !s.fault
    case ReadReady(_, failed) =>
      ReadOpen(c, s)
      && (!failed ==> !s.fault && CanRelease(c.framing, s))
      && (failed && !s.fault ==> Remaining(c, s) == [])
    case Working(_, req) => JobOk(s, req)
    case Writing(_, response, keepAlive) =>
      InRequest(s, keepAlive) && !s.fault
      && |s.answers| == |s.released| && |s.written| == |s.released| - 1
      && s.answers[|s.answers| - 1].response == response
    case WriteReady(_, keepAlive, failed) =>
      InRequest(s, keepAlive)
      && |s.answers| == |s.released|
      && (if failed then s.fault else !s.fault && |s.written| == |s.released|)
    case _ => true
  }

  predicate EverySession(c: Config, sessions: seq<Session>) {
    forall sid :: 0 <= sid < |sessions| ==>
      SessionOk(c, sessions[sid]) && (sessions[sid].open || ClosedOk(c, sessions[sid]))
  }

  predicate EveryAct(c: Config, sessions: seq<Session>, acts: Acts) {
    forall id :: id in acts && Owner(acts[id]) >= 0 ==>
      acts[id].sid < |sessions| && ActOk(c, sessions[acts[id].sid], acts[id])
  }

  predicate EveryJob(sessions: seq<Session>, queue: seq<Job>) {
    forall job :: job in queue ==> job.sid < |sessions| && JobOk(sessions[job.sid], job.req)
  }

  ghost predicate Local(c: Config, st: State) {
    EverySession(c, st.sessions) && EveryAct(c, st.sessions, st.acts) && EveryJob(st.sessions, st.queue)
  }

  /** Connections are counted once: accepted ones are the sessions, and at most one more has arrived. */
  ghost predicate Counted(st: State) {
    && st.accepted == |st.sessions|
    && (forall id :: id in st.acts && st.acts[id].Accepting? ==> st.arrived == st.accepted)
    && (forall id :: id in st.acts && st.acts[id].Accepted? ==> st.arrived == st.accepted + 1)
  }

  ghost predicate Inv(c: Config, st: State) {
    Ownership(st) && Local(c, st) && Counted(st)
  }

  // --------------------------------------------- what each session step keeps

  lemma StartKeeps(c: Config, input: Bytes)
    ensures var s := StartRead(NewSession(input)); SessionOk(c, s) && ActOk(c, s, Reading(0))
  {
    var s := StartRead(NewSession(input));
    assert Pending(s) == input;
    assert s.taken + Pending(s) == input;
  }

  lemma ReceiveKeeps(c: Config, s: Session, count: nat)
    requires SessionOk(c, s) && ReadOpen(c, s) && count <= |s.unread|
    ensures var t := s.(buffer := s.buffer + s.unread[..count], unread := s.unread[count..]);
            SessionOk(c, t) && ReadOpen(c, t)
  {
    var t := s.(buffer := s.buffer + s.unread[..count], unread := s.unread[count..]);
    assert Pending(t) == Pending(s);
  }

  lemma ConsumedIsPartial(framing: Framing, p: Bytes, buffer: Bytes, count: nat)
    requires count <= |buffer|
    requires forall k :: 0 < k < |p| ==> framing(p[..k]).More?
    requires forall k :: 0 <= k < count && 0 < |p| + k ==> framing(p + buffer[..k]).More?
    ensures var q := p + buffer[..count]; forall k :: 0 < k < |q| ==> framing(q[..k]).More?
  {
    var q := p + buffer[..count];
    forall k | 0 < k < |q| ensures framing(q[..k]).More? {
      if k < |p| {
        assert q[..k] == p[..k];
      } else {
        assert q[..k] == p + buffer[..k - |p|];
      }
    }
  }

  lemma ConsumeKeeps(c: Config, s: Session, count: nat)
    requires SessionOk(c, s) && ReadOpen(c, s) && CanConsume(c.framing, s, count)
    ensures var t := s.(parser := Some(s.parser.value + s.buffer[..count]), buffer := s.buffer[count..]);
            SessionOk(c, t) && ReadOpen(c, t)
  {
    var t := s.(parser := Some(s.parser.value + s.buffer[..count]), buffer := s.buffer[count..]);
    assert Pending(t) == Pending(s);
    ConsumedIsPartial(c.framing, s.parser.value, s.buffer, count);
  }

  /** Where the parser stopped is where the reference cuts the stream. */
  lemma StopsHere(framing: Framing, p: Bytes, rest: Bytes)
    requires p != [] && !framing(p).More?
    requires forall k :: 0 < k < |p| ==> framing(p[..k]).More?
    ensures StopFrom(framing, p + rest, 1) == Some(|p|)
    ensures (p + rest)[..|p|] == p && (p + rest)[|p|..] == rest
  {
    var s := p + rest;
    assert s[..|p|] == p;
    forall k | 1 <= k < |p| ensures framing(s[..k]).More? {
      assert s[..k] == p[..k];
    }
  }

  lemma FinishReadKeeps(c: Config, s: Session, result: ReadResult)
    requires SessionOk(c, s) && ReadOpen(c, s) && !s.fault && CanFinishRead(c.framing, s, result)
    ensures var t := s.(fault := s.fault || result.ReadFault?);
            SessionOk(c, t) && ActOk(c, t, ReadReady(0, !result.ReadOk?))
  {
    var t := s.(fault := s.fault || result.ReadFault?);
    assert Pending(t) == Pending(s);
    var p := s.parser.value;
    if result.ReadMalformed? {
      assert Pending(s) == p + (s.buffer + s.unread);
      StopsHere(c.framing, p, s.buffer + s.unread);
    } else if result.ReadEnd? {
      var all := Pending(s);
      assert all == p + s.buffer;
      forall k | 1 <= k <= |all| ensures c.framing(all[..k]).More? {
        if k < |p| {
          assert all[..k] == p[..k];
        } else {
          assert all[..k] == p + s.buffer[..k - |p|];
        }
      }
    }
  }

  /** The reference takes the same request off the front of the stream. */
  lemma ReferenceTakes(framing: Framing, p: Bytes, rest: Bytes)
    requires p != [] && framing(p).Done?
    requires forall k :: 0 < k < |p| ==> framing(p[..k]).More?
    ensures var req := framing(p).req;
            RequestsOf(framing, p + rest) == [req] + (if req.keepAlive then RequestsOf(framing, rest) else [])
  {
    StopsHere(framing, p, rest);
  }

  lemma AllKeepAppended(reqs: seq<RawRequest>, req: RawRequest)
    requires AllKeep(reqs)
    ensures AllKeep(reqs + [req]) <==> req.keepAlive
  {
    assert (reqs + [req])[|reqs|] == req;
  }

  lemma ReleaseBytes(c: Config, s: Session)
    requires CanRelease(c.framing, s) && s.input == s.taken + Pending(s)
    ensures var t := Release(c.framing, s); Pending(t) == s.buffer + s.unread && t.input == t.taken + Pending(t)
  {
    assert Pending(s) == s.parser.value + (s.buffer + s.unread);
  }

  lemma RemainingAfter(c: Config, s: Session)
    requires ReadOpen(c, s) && CanRelease(c.framing, s)
    ensures Remaining(c, s) == [c.framing(s.parser.value).req] + Remaining(c, Release(c.framing, s))
  {
    var t := Release(c.framing, s);
    var p := s.parser.value;
    var rest := s.buffer + s.unread;
    assert Pending(s) == p + rest && Pending(t) == rest;
    ReferenceTakes(c.framing, p, rest);
    AllKeepAppended(s.released, c.framing(p).req);
  }

  lemma ReleaseReference(c: Config, s: Session)
    requires ReadOpen(c, s) && CanRelease(c.framing, s)
    ensures var t := Release(c.framing, s); t.released + Remaining(c, t) == s.released + Remaining(c, s)
  {
    RemainingAfter(c, s);
    var more := Remaining(c, Release(c.framing, s));
    var req := c.framing(s.parser.value).req;
    assert (s.released + [req]) + more == s.released + ([req] + more);
  }

  lemma ReleaseKeeps(c: Config, s: Session)
    requires SessionOk(c, s) && ReadOpen(c, s) && !s.fault && CanRelease(c.framing, s)
    ensures var t := Release(c.framing, s);
            SessionOk(c, t) && JobOk(t, c.framing(s.parser.value).req)
  {
    ReleaseBytes(c, s);
    ReleaseReference(c, s);
    assert Release(c.framing, s).released[..|s.released|] == s.released;
  }

  lemma OnReadKeeps(c: Config, s: Session, failed: bool, known: bool)
    requires SessionOk(c, s) && ActOk(c, s, ReadReady(0, failed))
    ensures var (t, effect) := OnRead(c.framing, s, failed, known);
            && SessionOk(c, t)
            && (effect.PostsJob? || effect.Ends? || effect.Crashes?)
            && (effect.PostsJob? <==> !failed)
            && (effect.PostsJob? ==> JobOk(t, effect.req))
            && (effect.Ends? ==> ClosedOk(c, t))
  {
    if !failed {
      ReleaseKeeps(c, s);
    } else {
      assert Pending(CloseSocket(s)) == Pending(s);
    }
  }

  lemma RunJobKeeps(c: Config, s: Session, req: RawRequest, world: World)
    requires SessionOk(c, s) && JobOk(s, req)
    ensures var (t, effect) := RunJob(c.routes, s, req, world);
            SessionOk(c, t) && effect.StartsWrite? && ActOk(c, t, Writing(0, effect.response, effect.keepAlive))
  {
    var (t, effect) := RunJob(c.routes, s, req, world);
    assert Pending(t) == Pending(s);
  }

  lemma FinishWriteKeeps(c: Config, s: Session, a: Activity, ok: bool)
    requires a.Writing? && SessionOk(c, s) && ActOk(c, s, a)
    ensures var t := if ok then s.(written := s.written + [a.response]) else s.(fault := true);
            SessionOk(c, t) && ActOk(c, t, WriteReady(a.sid, a.keepAlive, !ok))
  {
    var t := if ok then s.(written := s.written + [a.response]) else s.(fault := true);
    assert Pending(t) == Pending(s);
  }

  lemma OnWriteKeeps(c: Config, s: Session, keepAlive: bool, failed: bool, known: bool)
    requires SessionOk(c, s) && ActOk(c, s, WriteReady(0, keepAlive, failed))
    ensures var (t, effect) := OnWrite(s, keepAlive, failed, known);
            && SessionOk(c, t)
            && (effect.StartsRead? || effect.Ends? || effect.Crashes?)
            && (effect.StartsRead? <==> keepAlive && !failed)
            && (effect.StartsRead? ==> ActOk(c, t, Reading(0)))
            && (effect.Ends? ==> ClosedOk(c, t))
  {
    var (t, effect) := OnWrite(s, keepAlive, failed, known);
    assert Pending(t) == Pending(s);
    var n := |s.released| - 1;
    assert s.released == s.released[..n] + [s.released[n]];
    assert AllKeep(s.released) <==> keepAlive;
  }

  // ------------------------------------------------ what each global move keeps

  /** Coverage survives a move that only takes something away from session `sid`. */
  lemma CoverageMoves(sessions: seq<Session>, acts: Acts, queue: seq<Job>,
                      sessions': seq<Session>, acts': Acts, queue': seq<Job>, sid: nat)
    requires Covered(sessions, acts, queue)
    requires forall k: nat :: IsOpen(sessions', k) && k != sid ==> IsOpen(sessions, k)
    requires forall x :: x in acts && Owner(acts[x]) != sid ==> x in acts' && Owner(acts'[x]) == Owner(acts[x])
    requires forall job :: job in queue && job.sid != sid ==> job in queue'
    requires IsOpen(sessions', sid) ==> Owned(acts', queue', sid)
    ensures Covered(sessions', acts', queue')
  {
    forall k: nat | IsOpen(sessions', k) ensures Owned(acts', queue', k) {
      if k != sid {
        assert Owned(acts, queue, k);
      }
    }
  }

  lemma ListeningStays(acts: Acts, acts': Acts)
    requires Listens(acts)
    requires forall x :: x in acts && Owner(acts[x]) == -1 ==> x in acts' && Owner(acts'[x]) == -1
    ensures Listens(acts')
  {
  }

  /** A move that changes no owner and closes no session keeps who owns what. */
  lemma OwnersStay(sessions: seq<Session>, acts: Acts, queue: seq<Job>, sessions': seq<Session>, acts': Acts)
    requires Distinct(acts, queue) && OwnersOpen(sessions, acts, queue)
    requires forall x :: x in acts' ==> x in acts && Owner(acts'[x]) == Owner(acts[x])
    requires forall k :: IsOpen(sessions, k) ==> IsOpen(sessions', k)
    ensures Distinct(acts', queue) && OwnersOpen(sessions', acts', queue)
  {
  }

  lemma ReplaceOwns(st: State, id: nat, s: Session, a: Activity)
    requires Ownership(st) && id in st.acts && Owner(st.acts[id]) >= 0 && Owner(a) == Owner(st.acts[id]) && s.open
    ensures Ownership(st.(sessions := st.sessions[Owner(a) := s], acts := st.acts[id := a]))
  {
    var sid := Owner(a);
    var t := st.(sessions := st.sessions[sid := s], acts := st.acts[id := a]);
    assert id in t.acts && Owner(t.acts[id]) == sid;
    OwnersStay(st.sessions, st.acts, st.queue, t.sessions, t.acts);
    CoverageMoves(st.sessions, st.acts, st.queue, t.sessions, t.acts, t.queue, sid);
    ListeningStays(st.acts, t.acts);
  }

  lemma EndOwns(st: State, id: nat, s: Session)
    requires Ownership(st) && id in st.acts && Owner(st.acts[id]) >= 0 && !s.open
    ensures Ownership(st.(sessions := st.sessions[Owner(st.acts[id]) := s], acts := st.acts - {id}))
  {
    var sid := Owner(st.acts[id]);
    var t := st.(sessions := st.sessions[sid := s], acts := st.acts - {id});
    CoverageMoves(st.sessions, st.acts, st.queue, t.sessions, t.acts, t.queue, sid);
    ListeningStays(st.acts, t.acts);
  }

  lemma QueueGrows(queue: seq<Job>, job: Job)
    ensures forall j :: j in queue + [job] <==> j == job || j in queue
    ensures forall i :: 0 <= i < |queue| ==> queue[i] in queue
  {
  }

  lemma PostOwners(sessions: seq<Session>, acts: Acts, queue: seq<Job>, id: nat, job: Job)
    requires Distinct(acts, queue) && OwnersOpen(sessions, acts, queue) && id in acts && Owner(acts[id]) == job.sid
    ensures Distinct(acts - {id}, queue + [job]) && OwnersOpen(sessions, acts - {id}, queue + [job])
  {
    QueueGrows(queue, job);
  }

  lemma PostOwns(st: State, id: nat, s: Session, req: RawRequest)
    requires Ownership(st) && id in st.acts && Owner(st.acts[id]) >= 0 && s.open
    ensures var sid := Owner(st.acts[id]);
            Ownership(st.(sessions := st.sessions[sid := s], acts := st.acts - {id}, queue := st.queue + [Job(sid, req)]))
  {
    var sid := Owner(st.acts[id]);
    var job := Job(sid, req);
    var sessions, acts, queue := st.sessions[sid := s], st.acts - {id}, st.queue + [job];
    OwnersStay(st.sessions, st.acts, st.queue, sessions, st.acts);
    PostOwners(sessions, st.acts, st.queue, id, job);
    QueueGrows(st.queue, job);
    CoverageMoves(st.sessions, st.acts, st.queue, sessions, acts, queue, sid);
    ListeningStays(st.acts, acts);
  }

  lemma QueueHead(acts: Acts, queue: seq<Job>)
    requires Distinct(acts, queue) && queue != []
    ensures queue[0] in queue
    ensures forall j :: j in queue[1..] ==> j in queue && j.sid != queue[0].sid
    ensures forall j :: j in queue && j.sid != queue[0].sid ==> j in queue[1..]
    ensures Distinct(acts, queue[1..])
  {
    assert queue == [queue[0]] + queue[1..];
  }

  /** The oldest job becomes the activity of its session. */
  lemma TakeOwners(sessions: seq<Session>, acts: Acts, queue: seq<Job>, next: nat, a: Activity)
    requires Distinct(acts, queue) && OwnersOpen(sessions, acts, queue)
    requires queue != [] && next !in acts && Owner(a) == queue[0].sid
    ensures Distinct(acts[next := a], queue[1..]) && OwnersOpen(sessions, acts[next := a], queue[1..])
  {
    QueueHead(acts, queue);
  }

  lemma TakeOwns(st: State)
    requires Ownership(st) && st.queue != []
    ensures Ownership(st.(acts := st.acts[st.next := Working(st.queue[0].sid, st.queue[0].req)],
                          next := st.next + 1, queue := st.queue[1..]))
  {
    var job := st.queue[0];
    var acts := st.acts[st.next := Working(job.sid, job.req)];
    TakeOwners(st.sessions, st.acts, st.queue, st.next, Working(job.sid, job.req));
    QueueHead(st.acts, st.queue);
    assert Owner(acts[st.next]) == job.sid;
    CoverageMoves(st.sessions, st.acts, st.queue, st.sessions, acts, st.queue[1..], job.sid);
    ListeningStays(st.acts, acts);
  }

  lemma OwnersBounded(sessions: seq<Session>, acts: Acts, queue: seq<Job>)
    requires OwnersOpen(sessions, acts, queue)
    ensures forall x :: x in acts ==> Owner(acts[x]) < |sessions|
    ensures forall job :: job in queue ==> job.sid < |sessions|
  {
  }

  /** An activity of a session that owned nothing before clashes with nothing. */
  lemma AddOwner(sessions: seq<Session>, acts: Acts, queue: seq<Job>, next: nat, a: Activity, n: nat)
    requires Distinct(acts, queue) && OwnersOpen(sessions, acts, queue)
    requires next !in acts && Owner(a) == n && IsOpen(sessions, n)
    requires forall x :: x in acts ==> Owner(acts[x]) < n
    requires forall job :: job in queue ==> job.sid < n
    ensures Distinct(acts[next := a], queue) && OwnersOpen(sessions, acts[next := a], queue)
  {
  }

  lemma AcceptOwns(st: State, id: nat, s: Session)
    requires Ownership(st) && id in st.acts && st.acts[id].Accepted? && s.open
    ensures Ownership(st.(accepted := st.accepted + 1, sessions := st.sessions + [s],
                          acts := st.acts[id := Accepting][st.next := Reading(|st.sessions|)], next := st.next + 1))
  {
    var n := |st.sessions|;
    var grown, listening := st.sessions + [s], st.acts[id := Accepting];
    var acts := listening[st.next := Reading(n)];
    OwnersBounded(st.sessions, st.acts, st.queue);
    OwnersStay(st.sessions, st.acts, st.queue, grown, listening);
    AddOwner(grown, listening, st.queue, st.next, Reading(n), n);
    assert acts[st.next] == Reading(n);
    CoverageMoves(st.sessions, st.acts, st.queue, grown, acts, st.queue, n);
    ListeningStays(st.acts, acts);
  }

  lemma ArriveOwns(st: State, id: nat)
    requires Ownership(st) && id in st.acts && st.acts[id].Accepting? && st.backlog != []
    ensures Ownership(st.(acts := st.acts[id := Accepted(st.backlog[0])], backlog := st.backlog[1..], arrived := st.arrived + 1))
  {
    var t := st.(acts := st.acts[id := Accepted(st.backlog[0])], backlog := st.backlog[1..], arrived := st.arrived + 1);
    assert forall x :: x in t.acts ==> x in st.acts && Owner(t.acts[x]) == Owner(st.acts[x]);
    OwnersStay(st.sessions, st.acts, st.queue, t.sessions, t.acts);
    CoverageMoves(st.sessions, st.acts, st.queue, t.sessions, t.acts, t.queue, |st.sessions|);
    ListeningStays(st.acts, t.acts);
  }

  /** Local facts survive a move that changes one session and what that session owns. */
  lemma LocalMoves(c: Config, sessions: seq<Session>, acts: Acts, queue: seq<Job>,
                   sessions': seq<Session>, acts': Acts, queue': seq<Job>, sid: nat)
    requires EverySession(c, sessions) && EveryAct(c, sessions, acts) && EveryJob(sessions, queue)
    requires |sessions| <= |sessions'| && sid < |sessions'| && (|sessions| < |sessions'| ==> |sessions'| == |sessions| + 1 == sid + 1)
    requires forall k :: 0 <= k < |sessions| && k != sid ==> sessions'[k] == sessions[k]
    requires SessionOk(c, sessions'[sid]) && (sessions'[sid].open || ClosedOk(c, sessions'[sid]))
    requires forall x :: x in acts' && Owner(acts'[x]) >= 0 ==>
               if Owner(acts'[x]) == sid then ActOk(c, sessions'[sid], acts'[x]) else x in acts && acts[x] == acts'[x]
    requires forall job :: job in queue' ==>
               if job.sid == sid then JobOk(sessions'[sid], job.req) else job in queue
    ensures EverySession(c, sessions') && EveryAct(c, sessions', acts') && EveryJob(sessions', queue')
  {
  }

  lemma CountedStays(st: State, t: State)
    requires Counted(st) && t.accepted == st.accepted && t.arrived == st.arrived && |t.sessions| == |st.sessions|
    requires forall x :: x in t.acts && Owner(t.acts[x]) == -1 ==> x in st.acts && t.acts[x] == st.acts[x]
    ensures Counted(t)
  {
  }

  /** An activity of a session turns into another one of the same session. */
  lemma ReplaceKeeps(c: Config, st: State, id: nat, s: Session, a: Activity)
    requires Inv(c, st) && id in st.acts && Owner(st.acts[id]) >= 0 && Owner(a) == Owner(st.acts[id])
    requires SessionOk(c, s) && s.open && ActOk(c, s, a)
    ensures Inv(c, st.(sessions := st.sessions[Owner(a) := s], acts := st.acts[id := a]))
  {
    var t := st.(sessions := st.sessions[Owner(a) := s], acts := st.acts[id := a]);
    ReplaceOwns(st, id, s, a);
    CountedStays(st, t);
    LocalMoves(c, st.sessions, st.acts, st.queue, t.sessions, t.acts, t.queue, Owner(a));
  }

  /** The last activity of a session ends and its socket is closed. */
  lemma EndKeeps(c: Config, st: State, id: nat, s: Session)
    requires Inv(c, st) && id in st.acts && Owner(st.acts[id]) >= 0
    requires SessionOk(c, s) && ClosedOk(c, s)
    ensures Inv(c, st.(sessions := st.sessions[Owner(st.acts[id]) := s], acts := st.acts - {id}))
  {
    var t := st.(sessions := st.sessions[Owner(st.acts[id]) := s], acts := st.acts - {id});
    EndOwns(st, id, s);
    LocalMoves(c, st.sessions, st.acts, st.queue, t.sessions, t.acts, t.queue, Owner(st.acts[id]));
  }

  lemma PostLocal(c: Config, st: State, id: nat, s: Session, req: RawRequest)
    requires Local(c, st) && Distinct(st.acts, st.queue) && id in st.acts && Owner(st.acts[id]) >= 0
    requires SessionOk(c, s) && JobOk(s, req)
    ensures var sid := Owner(st.acts[id]);
            Local(c, st.(sessions := st.sessions[sid := s], acts := st.acts - {id}, queue := st.queue + [Job(sid, req)]))
  {
    var sid := Owner(st.acts[id]);
    LocalMoves(c, st.sessions, st.acts, st.queue,
               st.sessions[sid := s], st.acts - {id}, st.queue + [Job(sid, req)], sid);
  }

  /** A session hands its request to the pool. */
  lemma PostKeeps(c: Config, st: State, id: nat, s: Session, req: RawRequest)
    requires Inv(c, st) && id in st.acts && Owner(st.acts[id]) >= 0
    requires SessionOk(c, s) && JobOk(s, req)
    ensures var sid := Owner(st.acts[id]);
            Inv(c, st.(sessions := st.sessions[sid := s], acts := st.acts - {id}, queue := st.queue + [Job(sid, req)]))
  {
    PostOwns(st, id, s, req);
    PostLocal(c, st, id, s, req);
  }

  lemma TakeLocal(c: Config, st: State)
    requires Local(c, st) && Distinct(st.acts, st.queue) && st.next !in st.acts && st.queue != []
    ensures Local(c, st.(acts := st.acts[st.next := Working(st.queue[0].sid, st.queue[0].req)],
                         next := st.next + 1, queue := st.queue[1..]))
  {
    QueueHead(st.acts, st.queue);
    var job := st.queue[0];
    var acts := st.acts[st.next := Working(job.sid, job.req)];
    assert EveryAct(c, st.sessions, acts);
    assert EveryJob(st.sessions, st.queue[1..]);
  }

  lemma FreshId(st: State)
    requires Ownership(st)
    ensures st.next !in st.acts
  {
  }

  /** A worker takes the oldest job. */
  lemma TakeKeeps(c: Config, st: State)
    requires Inv(c, st) && st.queue != []
    ensures Inv(c, st.(acts := st.acts[st.next := Working(st.queue[0].sid, st.queue[0].req)],
                       next := st.next + 1, queue := st.queue[1..]))
  {
    FreshId(st);
    TakeOwns(st);
    TakeLocal(c, st);
  }

  lemma AcceptLocal(c: Config, st: State, id: nat, input: Bytes)
    requires Local(c, st) && OwnersOpen(st.sessions, st.acts, st.queue) && st.next !in st.acts && id in st.acts
    ensures var n := |st.sessions|;
            Local(c, st.(sessions := st.sessions + [StartRead(NewSession(input))],
                         acts := st.acts[id := Accepting][st.next := Reading(n)]))
  {
    StartKeeps(c, input);
    OwnersBounded(st.sessions, st.acts, st.queue);
    LocalMoves(c, st.sessions, st.acts, st.queue, st.sessions + [StartRead(NewSession(input))],
               st.acts[id := Accepting][st.next := Reading(|st.sessions|)], st.queue, |st.sessions|);
  }

  /** A connection is accepted: one more session with its read, and the listener re-armed. */
  lemma AcceptKeeps(c: Config, st: State, id: nat, input: Bytes)
    requires Inv(c, st) && id in st.acts && st.acts[id].Accepted?
    ensures var n := |st.sessions|;
            Inv(c, st.(accepted := st.accepted + 1, sessions := st.sessions + [StartRead(NewSession(input))],
                       acts := st.acts[id := Accepting][st.next := Reading(n)], next := st.next + 1))
  {
    FreshId(st);
    AcceptOwns(st, id, StartRead(NewSession(input)));
    AcceptLocal(c, st, id, input);
    OnlyListener(st, id);
  }

  lemma OnlyListener(st: State, id: nat)
    requires Ownership(st) && id in st.acts && Owner(st.acts[id]) == -1
    ensures forall x :: x in st.acts && x != id ==> !st.acts[x].Accepting? && !st.acts[x].Accepted?
  {
  }

  lemma ArriveKeeps(c: Config, st: State, id: nat)
    requires Inv(c, st) && id in st.acts && st.acts[id].Accepting? && st.backlog != []
    ensures Inv(c, st.(acts := st.acts[id := Accepted(st.backlog[0])], backlog := st.backlog[1..], arrived := st.arrived + 1))
  {
    ArriveOwns(st, id);
    OnlyListener(st, id);
  }

  // ------------------------------------------------------------ steps and runs

  lemma CallbackKeeps(c: Config, st: State, id: nat, after: (Session, Effect))
    requires Inv(c, st) && Holds(st, id) && Owner(st.acts[id]) >= 0
    requires SessionOk(c, after.0)
    requires after.1.StartsRead? ==> ActOk(c, after.0, Reading(0))
    requires after.1.StartsWrite? ==> ActOk(c, after.0, Writing(0, after.1.response, after.1.keepAlive))
    requires after.1.PostsJob? ==> JobOk(after.0, after.1.req)
    requires after.1.Ends? ==> ClosedOk(c, after.0)
    ensures Inv(c, Apply(st, id, st.acts[id].sid, after))
  {
    var sid := st.acts[id].sid;
    match after.1
    case Crashes =>
    case StartsRead => ReplaceKeeps(c, st, id, after.0, Reading(sid));
    case StartsWrite(response, keepAlive) => ReplaceKeeps(c, st, id, after.0, Writing(sid, response, keepAlive));
    case PostsJob(req) => PostKeeps(c, st, id, after.0, req);
    case Ends => EndKeeps(c, st, id, after.0);
  }

  lemma ActHolds(c: Config, st: State, id: nat)
    requires Inv(c, st) && Holds(st, id) && Owner(st.acts[id]) >= 0
    ensures SessionOk(c, st.sessions[st.acts[id].sid]) && ActOk(c, st.sessions[st.acts[id].sid], st.acts[id])
  {
  }

  lemma ReceiveStep(c: Config, st: State, id: nat, count: nat)
    requires Inv(c, st) && Enabled(c, st, Receive(id, count))
    ensures Inv(c, Next(c, st, Receive(id, count)))
  {
    ActHolds(c, st, id);
    var s := st.sessions[st.acts[id].sid];
    ReceiveKeeps(c, s, count);
    ReplaceKeeps(c, st, id, s.(buffer := s.buffer + s.unread[..count], unread := s.unread[count..]), st.acts[id]);
    assert st.acts[id := st.acts[id]] == st.acts;
  }

  lemma ConsumeStep(c: Config, st: State, id: nat, count: nat)
    requires Inv(c, st) && Enabled(c, st, Consume(id, count))
    ensures Inv(c, Next(c, st, Consume(id, count)))
  {
    ActHolds(c, st, id);
    var s := st.sessions[st.acts[id].sid];
    ConsumeKeeps(c, s, count);
    ReplaceKeeps(c, st, id, s.(parser := Some(s.parser.value + s.buffer[..count]), buffer := s.buffer[count..]), st.acts[id]);
    assert st.acts[id := st.acts[id]] == st.acts;
  }

  lemma FinishReadStep(c: Config, st: State, id: nat, result: ReadResult)
    requires Inv(c, st) && Enabled(c, st, FinishRead(id, result))
    ensures Inv(c, Next(c, st, FinishRead(id, result)))
  {
    ActHolds(c, st, id);
    var s := st.sessions[st.acts[id].sid];
    FinishReadKeeps(c, s, result);
    ReplaceKeeps(c, st, id, s.(fault := s.fault || result.ReadFault?), ReadReady(st.acts[id].sid, !result.ReadOk?));
  }

  lemma FinishWriteStep(c: Config, st: State, id: nat, ok: bool)
    requires Inv(c, st) && Enabled(c, st, FinishWrite(id, ok))
    ensures Inv(c, Next(c, st, FinishWrite(id, ok)))
  {
    ActHolds(c, st, id);
    var a := st.acts[id];
    var s := st.sessions[a.sid];
    FinishWriteKeeps(c, s, a, ok);
    ReplaceKeeps(c, st, id, if ok then s.(written := s.written + [a.response]) else s.(fault := true),
                 WriteReady(a.sid, a.keepAlive, !ok));
  }

  lemma ReadReadyStep(c: Config, st: State, id: nat, known: bool)
    requires Inv(c, st) && Enabled(c, st, RunReadReady(id, known))
    ensures Inv(c, Next(c, st, RunReadReady(id, known)))
  {
    ActHolds(c, st, id);
    var a := st.acts[id];
    OnReadKeeps(c, st.sessions[a.sid], a.failed, known);
    CallbackKeeps(c, st, id, OnRead(c.framing, st.sessions[a.sid], a.failed, known));
  }

  lemma JobStep(c: Config, st: State, id: nat, world: World)
    requires Inv(c, st) && Enabled(c, st, FinishJob(id, world))
    ensures Inv(c, Next(c, st, FinishJob(id, world)))
  {
    ActHolds(c, st, id);
    var a := st.acts[id];
    RunJobKeeps(c, st.sessions[a.sid], a.req, world);
    CallbackKeeps(c, st, id, RunJob(c.routes, st.sessions[a.sid], a.req, world));
  }

  lemma WriteReadyStep(c: Config, st: State, id: nat, known: bool)
    requires Inv(c, st) && Enabled(c, st, RunWriteReady(id, known))
    ensures Inv(c, Next(c, st, RunWriteReady(id, known)))
  {
    ActHolds(c, st, id);
    var a := st.acts[id];
    OnWriteKeeps(c, st.sessions[a.sid], a.keepAlive, a.failed, known);
    CallbackKeeps(c, st, id, OnWrite(st.sessions[a.sid], a.keepAlive, a.failed, known));
  }

  lemma StepKeeps(c: Config, st: State, ev: Event)
    requires Inv(c, st) && Enabled(c, st, ev)
    ensures Inv(c, Next(c, st, ev))
  {
    match ev
    case Arrive(id) => ArriveKeeps(c, st, id);
    case RunAccepted(id, known) =>
      if st.acts[id].arrival.Connection? && known {
        AcceptKeeps(c, st, id, st.acts[id].arrival.input);
      }
    case Receive(id, count) => ReceiveStep(c, st, id, count);
    case Consume(id, count) => ConsumeStep(c, st, id, count);
    case FinishRead(id, result) => FinishReadStep(c, st, id, result);
    case TakeJob => TakeKeeps(c, st);
    case FinishWrite(id, ok) => FinishWriteStep(c, st, id, ok);
    case RunReadReady(id, known) => ReadReadyStep(c, st, id, known);
    case FinishJob(id, world) => JobStep(c, st, id, world);
    case RunWriteReady(id, known) => WriteReadyStep(c, st, id, known);
  }

  lemma InitHolds(c: Config, backlog: seq<Arrival>)
    ensures Inv(c, Init(backlog))
  {
    assert 0 in Init(backlog).acts && Owner(Init(backlog).acts[0]) == -1;
  }

  lemma {:induction false} RunKeeps(c: Config, st: State, evs: seq<Event>)
    requires Inv(c, st) && Legal(c, st, evs)
    ensures Inv(c, Run(c, st, evs))
    decreases |evs|
  {
    if evs != [] {
      StepKeeps(c, st, evs[0]);
      RunKeeps(c, Next(c, st, evs[0]), evs[1..]);
    }
  }
}
