/** What the invariant says of whole runs of the HTTP server. */
module HttpTheorems {
  import opened Prelude
  import opened Http
  import opened HttpRouting
  import opened HttpProtocol
  import opened HttpInvariant

  /** A state some run of the server reaches. */
  function After(c: Config, backlog: seq<Arrival>, evs: seq<Event>): State
    requires Legal(c, Init(backlog), evs)
  {
    Run(c, Init(backlog), evs)
  }

  lemma ReachedKeeps(c: Config, backlog: seq<Arrival>, evs: seq<Event>)
    requires Legal(c, Init(backlog), evs)
    ensures Inv(c, After(c, backlog, evs))
  {
    InitHolds(c, backlog);
    RunKeeps(c, Init(backlog), evs);
  }

  // ------------------------------------------------------ connections in order

  /** The sessions are the first arrivals, in order. */
  ghost predicate Matched(total: seq<Arrival>, st: State) {
    && st.arrived <= |total| && st.backlog == total[st.arrived..]
    && |st.sessions| <= st.arrived
    && (forall i :: 0 <= i < |st.sessions| ==> total[i] == Connection(st.sessions[i].input))
    && (forall id :: id in st.acts && st.acts[id].Accepted? ==> st.arrived > 0 && st.acts[id] == Accepted(total[st.arrived - 1]))
  }

  /** Nothing but an arrival and its callback touches what `Matched` speaks of. */
  lemma SessionsKeepInput(c: Config, st: State, ev: Event)
    requires Enabled(c, st, ev) && !ev.Arrive? && !ev.RunAccepted?
    ensures var t := Next(c, st, ev);
            && t.backlog == st.backlog && t.arrived == st.arrived
            && |t.sessions| == |st.sessions|
            && (forall i :: 0 <= i < |st.sessions| ==> t.sessions[i].input == st.sessions[i].input)
            && (forall id :: id in t.acts && t.acts[id].Accepted? ==> id in st.acts && t.acts[id] == st.acts[id])
  {
  }

  lemma ArriveKeepsMatched(c: Config, total: seq<Arrival>, st: State, id: nat)
    requires Ownership(st) && Counted(st) && Matched(total, st) && Enabled(c, st, Arrive(id))
    ensures Matched(total, Next(c, st, Arrive(id)))
  {
    OnlyListener(st, id);
    assert total[st.arrived..][1..] == total[st.arrived + 1..];
  }

  lemma AcceptKeepsMatched(c: Config, total: seq<Arrival>, st: State, id: nat, known: bool)
    requires Ownership(st) && Counted(st) && Matched(total, st) && Enabled(c, st, RunAccepted(id, known))
    ensures Matched(total, Next(c, st, RunAccepted(id, known)))
  {
    OnlyListener(st, id);
  }

  lemma StepKeepsMatched(c: Config, total: seq<Arrival>, st: State, ev: Event)
    requires Ownership(st) && Counted(st) && Matched(total, st) && Enabled(c, st, ev)
    ensures Matched(total, Next(c, st, ev))
  {
    match ev
    case Arrive(id) => ArriveKeepsMatched(c, total, st, id);
    case RunAccepted(id, known) => AcceptKeepsMatched(c, total, st, id, known);
    case _ => SessionsKeepInput(c, st, ev);
  }

  lemma {:induction false} RunKeepsMatched(c: Config, total: seq<Arrival>, st: State, evs: seq<Event>)
    requires Inv(c, st) && Matched(total, st) && Legal(c, st, evs)
    ensures Matched(total, Run(c, st, evs))
    decreases |evs|
  {
    if evs != [] {
      StepKeeps(c, st, evs[0]);
      StepKeepsMatched(c, total, st, evs[0]);
      RunKeepsMatched(c, total, Next(c, st, evs[0]), evs[1..]);
    }
  }

  // ------------------------------------------------------------- the refinement

  /** The sequential server: request `i` answered in the world of its own job. */
  function Serve(routes: seq<Route>, reqs: seq<RawRequest>, worlds: seq<World>): seq<RawResponse>
    requires |worlds| <= |reqs|
  {
    seq(|worlds|, i requires 0 <= i < |worlds| => Respond(routes, reqs[i], worlds[i]))
  }

  // ------------------------------------------- what the events say of a session

  /** Whether `ev` completes an activity of session `sid`. */
  predicate Concerns(st: State, ev: Event, sid: nat) {
    match ev
    case FinishJob(id, _) => Holds(st, id) && st.acts[id].Working? && st.acts[id].sid == sid
    case FinishWrite(id, _) => Holds(st, id) && st.acts[id].Writing? && st.acts[id].sid == sid
    case _ => false
  }

  function JobWorld(st: State, ev: Event, sid: nat): seq<World> {
    if ev.FinishJob? && Concerns(st, ev, sid) then [ev.world] else []
  }

  /** What the environment let the jobs of session `sid` observe, job after job. */
  function JobWorlds(c: Config, st: State, evs: seq<Event>, sid: nat): seq<World>
    requires Legal(c, st, evs)
    decreases |evs|
  {
    if evs == [] then [] else JobWorld(st, evs[0], sid) + JobWorlds(c, Next(c, st, evs[0]), evs[1..], sid)
  }

  function WriteDone(st: State, ev: Event, sid: nat): nat {
    if ev.FinishWrite? && ev.ok && Concerns(st, ev, sid) then 1 else 0
  }

  /** How many writes of session `sid` the network completed. */
  function WritesDone(c: Config, st: State, evs: seq<Event>, sid: nat): nat
    requires Legal(c, st, evs)
    decreases |evs|
  {
    if evs == [] then 0 else WriteDone(st, evs[0], sid) + WritesDone(c, Next(c, st, evs[0]), evs[1..], sid)
  }

  function AnswerWorlds(st: State, sid: nat): seq<World> {
    if sid < |st.sessions|
    then var answers := st.sessions[sid].answers; seq(|answers|, i requires 0 <= i < |answers| => answers[i].world)
    else []
  }

  function Written(st: State, sid: nat): nat {
    if sid < |st.sessions| then |st.sessions[sid].written| else 0
  }

  lemma JobRecorded(c: Config, st: State, id: nat, world: World, sid: nat)
    requires Enabled(c, st, FinishJob(id, world))
    ensures var t := Next(c, st, FinishJob(id, world));
            AnswerWorlds(t, sid) == AnswerWorlds(st, sid) + JobWorld(st, FinishJob(id, world), sid) && Written(t, sid) == Written(st, sid)
  {
  }

  lemma NothingRecorded(c: Config, st: State, ev: Event, sid: nat)
    requires Enabled(c, st, ev) && !ev.FinishJob? && !ev.FinishWrite?
    ensures var t := Next(c, st, ev); AnswerWorlds(t, sid) == AnswerWorlds(st, sid) && Written(t, sid) == Written(st, sid)
  {
  }

  lemma StepRecords(c: Config, st: State, ev: Event, sid: nat)
    requires Enabled(c, st, ev)
    ensures var t := Next(c, st, ev);
            && AnswerWorlds(t, sid) == AnswerWorlds(st, sid) + JobWorld(st, ev, sid)
            && Written(t, sid) == Written(st, sid) + WriteDone(st, ev, sid)
  {
    if ev.FinishJob? {
      JobRecorded(c, st, ev.id, ev.world, sid);
    } else if !ev.FinishWrite? {
      NothingRecorded(c, st, ev, sid);
    }
  }

  lemma {:induction false} RunRecordsWorlds(c: Config, st: State, evs: seq<Event>, sid: nat)
    requires Legal(c, st, evs)
    ensures AnswerWorlds(Run(c, st, evs), sid) == AnswerWorlds(st, sid) + JobWorlds(c, st, evs, sid)
    decreases |evs|
  {
    if evs == [] {
      Associates(AnswerWorlds(st, sid), [], []);
    } else {
      var next, rest := Next(c, st, evs[0]), evs[1..];
      StepRecords(c, st, evs[0], sid);
      RunRecordsWorlds(c, next, rest, sid);
      Associates(AnswerWorlds(st, sid), JobWorld(st, evs[0], sid), JobWorlds(c, next, rest, sid));
    }
  }

  lemma {:induction false} RunRecordsWrites(c: Config, st: State, evs: seq<Event>, sid: nat)
    requires Legal(c, st, evs)
    ensures Written(Run(c, st, evs), sid) == Written(st, sid) + WritesDone(c, st, evs, sid)
    decreases |evs|
  {
    if evs != [] {
      StepRecords(c, st, evs[0], sid);
      RunRecordsWrites(c, Next(c, st, evs[0]), evs[1..], sid);
    }
  }

  /** The record a session keeps is what happened to it: its handlers observed
      what the events of its jobs gave them, it wrote once per completed write. */
  lemma RecordsAreTrue(c: Config, backlog: seq<Arrival>, evs: seq<Event>, sid: nat)
    requires Legal(c, Init(backlog), evs) && sid < |After(c, backlog, evs).sessions|
    ensures var s := After(c, backlog, evs).sessions[sid];
            var worlds := JobWorlds(c, Init(backlog), evs, sid);
            && |s.answers| == |worlds| && (forall i :: 0 <= i < |worlds| ==> s.answers[i].world == worlds[i])
            && |s.written| == WritesDone(c, Init(backlog), evs, sid)
  {
    RunRecordsWorlds(c, Init(backlog), evs, sid);
    RunRecordsWrites(c, Init(backlog), evs, sid);
    var st := After(c, backlog, evs);
    assert AnswerWorlds(st, sid) == JobWorlds(c, Init(backlog), evs, sid);
    assert forall i :: 0 <= i < |st.sessions[sid].answers| ==> AnswerWorlds(st, sid)[i] == st.sessions[sid].answers[i].world;
  }

  // ---------------------------------------------------------------- the pool

  /** The job an event posts. */
  function PostedAt(c: Config, st: State, ev: Event): seq<Job>
    requires Enabled(c, st, ev)
  {
    if ev.RunReadReady? && !st.acts[ev.id].failed && st.sessions[st.acts[ev.id].sid].open
    then [Job(st.acts[ev.id].sid, c.framing(st.sessions[st.acts[ev.id].sid].parser.value).req)]
    else []
  }

  /** The job an event starts on a pool thread. */
  function StartedAt(c: Config, st: State, ev: Event): seq<Job>
    requires Enabled(c, st, ev)
  {
    var acts := Next(c, st, ev).acts;
    if st.next in acts && acts[st.next].Working? then [Job(acts[st.next].sid, acts[st.next].req)] else []
  }

  function Posted(c: Config, st: State, evs: seq<Event>): seq<Job>
    requires Legal(c, st, evs)
    decreases |evs|
  {
    if evs == [] then [] else PostedAt(c, st, evs[0]) + Posted(c, Next(c, st, evs[0]), evs[1..])
  }

  function Started(c: Config, st: State, evs: seq<Event>): seq<Job>
    requires Legal(c, st, evs)
    decreases |evs|
  {
    if evs == [] then [] else StartedAt(c, st, evs[0]) + Started(c, Next(c, st, evs[0]), evs[1..])
  }

  lemma TakeKeepsJobOrder(c: Config, st: State)
    requires Enabled(c, st, TakeJob)
    ensures st.queue + PostedAt(c, st, TakeJob) == StartedAt(c, st, TakeJob) + Next(c, st, TakeJob).queue
  {
    assert st.queue == [st.queue[0]] + st.queue[1..];
    Associates(st.queue, [], []);
  }

  lemma ReadKeepsJobOrder(c: Config, st: State, id: nat, known: bool)
    requires st.next !in st.acts && id < st.next && Enabled(c, st, RunReadReady(id, known))
    ensures var ev := RunReadReady(id, known);
            st.queue + PostedAt(c, st, ev) == StartedAt(c, st, ev) + Next(c, st, ev).queue
  {
    Associates(st.queue, [], []);
  }

  lemma OthersKeepJobOrder(c: Config, st: State, ev: Event)
    requires st.next !in st.acts && Enabled(c, st, ev) && !ev.TakeJob? && !ev.RunReadReady?
    requires forall id :: id in st.acts ==> id < st.next
    ensures PostedAt(c, st, ev) == [] && StartedAt(c, st, ev) == [] && Next(c, st, ev).queue == st.queue
  {
  }

  lemma StepKeepsJobOrder(c: Config, st: State, ev: Event)
    requires Inv(c, st) && Enabled(c, st, ev)
    ensures st.queue + PostedAt(c, st, ev) == StartedAt(c, st, ev) + Next(c, st, ev).queue
  {
    FreshId(st);
    match ev
    case TakeJob => TakeKeepsJobOrder(c, st);
    case RunReadReady(id, known) => ReadKeepsJobOrder(c, st, id, known);
    case _ =>
      OthersKeepJobOrder(c, st, ev);
      Associates(st.queue, [], []);
  }

  lemma {:induction false} RunKeepsJobOrder(c: Config, st: State, evs: seq<Event>)
    requires Inv(c, st) && Legal(c, st, evs)
    ensures st.queue + Posted(c, st, evs) == Started(c, st, evs) + Run(c, st, evs).queue
    decreases |evs|
  {
    if evs == [] {
      Associates(st.queue, [], []);
    } else {
      var next, rest := Next(c, st, evs[0]), evs[1..];
      StepKeeps(c, st, evs[0]);
      StepKeepsJobOrder(c, st, evs[0]);
      RunKeepsJobOrder(c, next, rest);
      Associates(st.queue, PostedAt(c, st, evs[0]), Posted(c, next, rest));
      Associates(StartedAt(c, st, evs[0]), next.queue, Posted(c, next, rest));
      Associates(StartedAt(c, st, evs[0]), Started(c, next, rest), Run(c, st, evs).queue);
    }
  }

  /** The pool is first in, first out: what was posted is what was started,
      in the same order, followed by what is still queued. */
  lemma JobsStartInOrder(c: Config, backlog: seq<Arrival>, evs: seq<Event>)
    requires Legal(c, Init(backlog), evs)
    ensures Posted(c, Init(backlog), evs) == Started(c, Init(backlog), evs) + After(c, backlog, evs).queue
  {
    InitHolds(c, backlog);
    RunKeepsJobOrder(c, Init(backlog), evs);
    assert [] + Posted(c, Init(backlog), evs) == Posted(c, Init(backlog), evs);
  }

  /** Schedule-independent refinement. In every run, for every session: it
      serves the arrival of its own number, the requests its handlers got are a
      prefix of the requests in that input, and the responses it wrote, one per
      completed write, are the sequential server's on a prefix of them, in order,
      each in the world its own job was given. */
  lemma RefinesSequentialServer(c: Config, backlog: seq<Arrival>, evs: seq<Event>, sid: nat)
    requires Legal(c, Init(backlog), evs) && sid < |After(c, backlog, evs).sessions|
    ensures var s := After(c, backlog, evs).sessions[sid];
            var worlds := JobWorlds(c, Init(backlog), evs, sid);
            var n := WritesDone(c, Init(backlog), evs, sid);
            && sid < |backlog| && backlog[sid] == Connection(s.input)
            && s.released <= RequestsOf(c.framing, s.input)
            && n <= |worlds| <= |s.released|
            && s.written == Serve(c.routes, RequestsOf(c.framing, s.input), worlds[..n])
  {
    ReachedKeeps(c, backlog, evs);
    RunMatched(c, backlog, evs);
    RecordsAreTrue(c, backlog, evs, sid);
    var s := After(c, backlog, evs).sessions[sid];
    assert SessionOk(c, s);
    assert forall i :: 0 <= i < |s.released| ==> s.released[i] == RequestsOf(c.framing, s.input)[i];
  }

  lemma RunMatched(c: Config, backlog: seq<Arrival>, evs: seq<Event>)
    requires Legal(c, Init(backlog), evs)
    ensures Matched(backlog, After(c, backlog, evs))
  {
    InitHolds(c, backlog);
    RunKeepsMatched(c, backlog, Init(backlog), evs);
  }

  /** A session that closed without an I/O error wrote the whole sequential run. */
  lemma CleanCloseAnswersAll(c: Config, backlog: seq<Arrival>, evs: seq<Event>, sid: nat)
    requires Legal(c, Init(backlog), evs) && sid < |After(c, backlog, evs).sessions|
    requires var s := After(c, backlog, evs).sessions[sid]; !s.open && !s.fault
    ensures var s := After(c, backlog, evs).sessions[sid];
            |s.written| == |RequestsOf(c.framing, s.input)|
  {
    ReachedKeeps(c, backlog, evs);
    var s := After(c, backlog, evs).sessions[sid];
    assert SessionOk(c, s) && ClosedOk(c, s);
  }

  /** Bytes are conserved: used, at the parser, buffered or still to come. */
  lemma BytesAreConserved(c: Config, backlog: seq<Arrival>, evs: seq<Event>, sid: nat)
    requires Legal(c, Init(backlog), evs) && sid < |After(c, backlog, evs).sessions|
    ensures var s := After(c, backlog, evs).sessions[sid];
            s.input == s.taken + ((if s.parser.Some? then s.parser.value else []) + s.buffer + s.unread)
  {
    ReachedKeeps(c, backlog, evs);
    assert SessionOk(c, After(c, backlog, evs).sessions[sid]);
  }

  /** Chunking independence and non-interference. Take two runs, with any other
      sessions, splits of the bytes and schedules: two sessions fed the same
      bytes release the same requests as far as both go, write the same
      responses wherever their jobs were given the same world, and once
      closed without I/O error have answered equally many requests. */
  lemma SameBytesSameService(c: Config, backlog: seq<Arrival>, evs: seq<Event>, sid: nat,
                             backlog': seq<Arrival>, evs': seq<Event>, sid': nat)
    requires Legal(c, Init(backlog), evs) && sid < |After(c, backlog, evs).sessions|
    requires Legal(c, Init(backlog'), evs') && sid' < |After(c, backlog', evs').sessions|
    requires After(c, backlog, evs).sessions[sid].input == After(c, backlog', evs').sessions[sid'].input
    ensures var s, s' := After(c, backlog, evs).sessions[sid], After(c, backlog', evs').sessions[sid'];
            var worlds, worlds' := JobWorlds(c, Init(backlog), evs, sid), JobWorlds(c, Init(backlog'), evs', sid');
            && |s.written| <= |worlds| && |s'.written| <= |worlds'|
            && (s.released <= s'.released || s'.released <= s.released)
            && (forall i :: 0 <= i < |s.written| && i < |s'.written| && worlds[i] == worlds'[i] ==> s.written[i] == s'.written[i])
            && (!s.open && !s.fault && !s'.open && !s'.fault ==> |s.written| == |s'.written|)
  {
    RefinesSequentialServer(c, backlog, evs, sid);
    RefinesSequentialServer(c, backlog', evs', sid');
    RecordsAreTrue(c, backlog, evs, sid);
    RecordsAreTrue(c, backlog', evs', sid');
    var s, s' := After(c, backlog, evs).sessions[sid], After(c, backlog', evs').sessions[sid'];
    var all := RequestsOf(c.framing, s.input);
    SamePrefixes(s.released, s'.released, all);
    if !s.open && !s.fault && !s'.open && !s'.fault {
      CleanCloseAnswersAll(c, backlog, evs, sid);
      CleanCloseAnswersAll(c, backlog', evs', sid');
    }
  }

  lemma SamePrefixes(a: seq<RawRequest>, b: seq<RawRequest>, all: seq<RawRequest>)
    requires a <= all && b <= all
    ensures a <= b || b <= a
  {
    if |a| <= |b| {
      assert a == all[..|a|] && b[..|a|] == all[..|a|];
    } else {
      assert b == all[..|b|] && a[..|b|] == all[..|b|];
    }
  }

  // ------------------------------------------------------------- single owner

  function ActsOf(acts: Acts, sid: nat): set<nat> {
    set id | id in acts && Owner(acts[id]) == sid
  }

  function JobsOf(queue: seq<Job>, sid: nat): set<nat> {
    set i: nat | i < |queue| && queue[i].sid == sid
  }

  lemma AtMostOne(s: set<nat>)
    requires forall x, y :: x in s && y in s ==> x == y
    ensures |s| <= 1
  {
    if x :| x in s {
      assert s == {x};
    }
  }

  lemma JobsInQueue(queue: seq<Job>, sid: nat)
    ensures JobsOf(queue, sid) != {} <==> exists job :: job in queue && job.sid == sid
    ensures forall i :: i in JobsOf(queue, sid) ==> queue[i] in queue
  {
    if job :| job in queue && job.sid == sid {
      var i :| 0 <= i < |queue| && queue[i] == job;
      assert i in JobsOf(queue, sid);
    }
    if i :| i in JobsOf(queue, sid) {
      assert queue[i] in queue;
    }
  }

  lemma OwnersAreOne(st: State, sid: nat)
    requires Distinct(st.acts, st.queue)
    ensures |ActsOf(st.acts, sid)| <= 1 && |JobsOf(st.queue, sid)| <= 1
    ensures ActsOf(st.acts, sid) == {} || JobsOf(st.queue, sid) == {}
  {
    JobsInQueue(st.queue, sid);
    AtMostOne(ActsOf(st.acts, sid));
    AtMostOne(JobsOf(st.queue, sid));
  }

  lemma OpenIsOwned(st: State, sid: nat)
    requires Ownership(st) && sid < |st.sessions|
    ensures ActsOf(st.acts, sid) == {} && JobsOf(st.queue, sid) == {} <==> !st.sessions[sid].open
  {
    JobsInQueue(st.queue, sid);
    if st.sessions[sid].open {
      assert IsOpen(st.sessions, sid);
      assert Owned(st.acts, st.queue, sid);
      if id :| id in st.acts && Owner(st.acts[id]) == sid {
        assert id in ActsOf(st.acts, sid);
      }
    }
  }

  /** Single owner: an open session has exactly one read, job, write or callback pending, a closed one none. */
  lemma ExactlyOneOwner(c: Config, backlog: seq<Arrival>, evs: seq<Event>, sid: nat)
    requires Legal(c, Init(backlog), evs) && sid < |After(c, backlog, evs).sessions|
    ensures var st := After(c, backlog, evs);
            |ActsOf(st.acts, sid)| + |JobsOf(st.queue, sid)| == if st.sessions[sid].open then 1 else 0
  {
    ReachedKeeps(c, backlog, evs);
    var st := After(c, backlog, evs);
    OwnersAreOne(st, sid);
    OpenIsOwned(st, sid);
  }

  /** A request is posted once, run at most once and answered by at most one
      write: what is released but not routed is the one job of the session. */
  lemma RequestsAreAccounted(c: Config, backlog: seq<Arrival>, evs: seq<Event>, sid: nat)
    requires Legal(c, Init(backlog), evs) && sid < |After(c, backlog, evs).sessions|
    ensures var st := After(c, backlog, evs);
            var s := st.sessions[sid];
            && |s.written| <= |s.answers|
            && |s.released| - |s.answers|
               == if JobsOf(st.queue, sid) != {} || (exists id :: id in ActsOf(st.acts, sid) && st.acts[id].Working?) then 1 else 0
  {
    ReachedKeeps(c, backlog, evs);
    ExactlyOneOwner(c, backlog, evs, sid);
    var st := After(c, backlog, evs);
    var s := st.sessions[sid];
    assert SessionOk(c, s);
    if !s.open {
      assert ClosedOk(c, s);
    } else if id :| id in ActsOf(st.acts, sid) {
      assert ActOk(c, s, st.acts[id]);
      OwnersAreOne(st, sid);
      assert forall x :: x in ActsOf(st.acts, sid) ==> x == id;
    } else {
      JobsInQueue(st.queue, sid);
      var i :| i in JobsOf(st.queue, sid);
      assert st.queue[i] in st.queue && JobOk(s, st.queue[i].req);
    }
  }

  function Listening(acts: Acts): set<nat> {
    set id | id in acts && (acts[id].Accepting? || acts[id].Accepted?)
  }

  lemma OneListener(st: State) returns (id: nat)
    requires Ownership(st)
    ensures Listening(st.acts) == {id} && id in st.acts
  {
    id :| id in st.acts && Owner(st.acts[id]) == -1;
    OnlyListener(st, id);
  }

  /** The listener: exactly one accept is pending or being handled, every
      connection accepted is a session, open or closed, and no arrival is lost. */
  lemma ConnectionsAreConserved(c: Config, backlog: seq<Arrival>, evs: seq<Event>)
    requires Legal(c, Init(backlog), evs)
    ensures var st := After(c, backlog, evs);
            && |Listening(st.acts)| == 1
            && st.accepted == |st.sessions|
            && (forall id :: id in Listening(st.acts) ==> st.arrived == st.accepted + (if st.acts[id].Accepted? then 1 else 0))
            && |st.backlog| + st.arrived == |backlog|
  {
    ReachedKeeps(c, backlog, evs);
    RunMatched(c, backlog, evs);
    var id := OneListener(After(c, backlog, evs));
  }
}
