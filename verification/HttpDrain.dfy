/** Runs of the HTTP server end, and a run that can go no further has drained
    exactly when no callback let an exception out. */
module HttpDrain {
  import opened Prelude
  import opened Http
  import opened HttpRouting
  import opened HttpProtocol
  import opened HttpInvariant
  import opened HttpTheorems

  // ------------------------------------------------------------------ weights

  function ByteWeight(s: Session): nat {
    10 * |s.unread| + 9 * |s.buffer| + (if s.parser.Some? then 8 * |s.parser.value| else 0)
  }

  function ArrivalWeight(a: Arrival): nat {
    if a.Connection? then 10 * |a.input| + 4 else 4
  }

  function ActWeight(a: Activity): nat {
    match a
    case Accepting => 0
    case Accepted(arrival) => ArrivalWeight(arrival) - 1
    case Reading(_) => 2
    case ReadReady(_, _) => 1
    case Working(_, _) => 6
    case Writing(_, _, _) => 5
    case WriteReady(_, _, _) => 4
  }

  const JOB_WEIGHT := 7

  function SumSessions(sessions: seq<Session>): nat {
    if sessions == [] then 0
    else SumSessions(sessions[..|sessions| - 1]) + ByteWeight(sessions[|sessions| - 1])
  }

  function SumArrivals(backlog: seq<Arrival>): nat {
    if backlog == [] then 0 else ArrivalWeight(backlog[0]) + SumArrivals(backlog[1..])
  }

  /** Bytes not yet used, weighted by how far they have come, and the distance
      of every pending activity from the end of its cycle. */
  function Measure(st: State): nat {
    (if st.alive then 1 else 0) + SumArrivals(st.backlog) + SumSessions(st.sessions)
    + SumActs(st.acts, ActWeight, st.next) + JOB_WEIGHT * |st.queue|
  }

  // --------------------------------------------------------------------- sums

  lemma {:induction false} SumSame(acts: Acts, acts': Acts, weight: Activity -> nat, upTo: nat)
    requires forall id :: 0 <= id < upTo ==> (id in acts <==> id in acts') && (id in acts ==> acts[id] == acts'[id])
    ensures SumActs(acts, weight, upTo) == SumActs(acts', weight, upTo)
  {
    if upTo > 0 {
      SumSame(acts, acts', weight, upTo - 1);
    }
  }

  lemma {:induction false} SumReplaced(acts: Acts, weight: Activity -> nat, id: nat, a: Activity, upTo: nat)
    requires id in acts && id < upTo
    ensures SumActs(acts[id := a], weight, upTo) == SumActs(acts, weight, upTo) - weight(acts[id]) + weight(a)
  {
    if id == upTo - 1 {
      SumSame(acts, acts[id := a], weight, upTo - 1);
    } else {
      SumReplaced(acts, weight, id, a, upTo - 1);
    }
  }

  lemma {:induction false} SumRemoved(acts: Acts, weight: Activity -> nat, id: nat, upTo: nat)
    requires id in acts && id < upTo
    ensures SumActs(acts - {id}, weight, upTo) == SumActs(acts, weight, upTo) - weight(acts[id])
  {
    if id == upTo - 1 {
      SumSame(acts, acts - {id}, weight, upTo - 1);
    } else {
      SumRemoved(acts, weight, id, upTo - 1);
    }
  }

  lemma SumAdded(acts: Acts, weight: Activity -> nat, next: nat, a: Activity)
    ensures SumActs(acts[next := a], weight, next + 1) == SumActs(acts, weight, next) + weight(a)
  {
    SumSame(acts, acts[next := a], weight, next);
  }

  lemma {:induction false} SumSessionReplaced(sessions: seq<Session>, sid: nat, s: Session)
    requires sid < |sessions|
    ensures SumSessions(sessions[sid := s]) == SumSessions(sessions) - ByteWeight(sessions[sid]) + ByteWeight(s)
  {
    var n := |sessions| - 1;
    if sid == n {
      assert sessions[sid := s][..n] == sessions[..n];
    } else {
      assert sessions[sid := s][..n] == sessions[..n][sid := s];
      SumSessionReplaced(sessions[..n], sid, s);
    }
  }

  lemma SumSessionAdded(sessions: seq<Session>, s: Session)
    ensures SumSessions(sessions + [s]) == SumSessions(sessions) + ByteWeight(s)
  {
    assert (sessions + [s])[..|sessions|] == sessions;
  }

  // -------------------------------------------------------------- termination

  /** How a callback changes the weight of its activity and session together. */
  lemma ApplyMeasure(st: State, id: nat, sid: nat, after: (Session, Effect))
    requires st.alive && id in st.acts && id < st.next && sid < |st.sessions|
    requires after.1.Crashes? || EffectWeight(after) < ByteWeight(st.sessions[sid]) + ActWeight(st.acts[id])
    ensures Measure(Apply(st, id, sid, after)) < Measure(st)
  {
    SumSessionReplaced(st.sessions, sid, after.0);
    match after.1
    case Crashes =>
    case StartsRead => SumReplaced(st.acts, ActWeight, id, Reading(sid), st.next);
    case StartsWrite(response, keepAlive) => SumReplaced(st.acts, ActWeight, id, Writing(sid, response, keepAlive), st.next);
    case PostsJob(req) => SumRemoved(st.acts, ActWeight, id, st.next);
    case Ends => SumRemoved(st.acts, ActWeight, id, st.next);
  }

  function EffectWeight(after: (Session, Effect)): nat {
    ByteWeight(after.0)
    + match after.1
      case StartsRead => 2
      case StartsWrite(_, _) => 5
      case PostsJob(_) => JOB_WEIGHT
      case _ => 0
  }

  lemma ListenerDecreases(c: Config, st: State, ev: Event)
    requires Ownership(st) && Enabled(c, st, ev) && (ev.Arrive? || ev.RunAccepted?)
    ensures Measure(Next(c, st, ev)) < Measure(st)
  {
    var id := ev.id;
    if ev.Arrive? {
      SumReplaced(st.acts, ActWeight, id, Accepted(st.backlog[0]), st.next);
    } else if st.acts[id].arrival.Connection? && ev.known {
      var s := StartRead(NewSession(st.acts[id].arrival.input));
      SumReplaced(st.acts, ActWeight, id, Accepting, st.next);
      SumAdded(st.acts[id := Accepting], ActWeight, st.next, Reading(|st.sessions|));
      SumSessionAdded(st.sessions, s);
    }
  }

  lemma BytesDecrease(c: Config, st: State, ev: Event)
    requires Ownership(st) && Enabled(c, st, ev) && (ev.Receive? || ev.Consume?)
    ensures Measure(Next(c, st, ev)) < Measure(st)
  {
    var sid := st.acts[ev.id].sid;
    SumSessionReplaced(st.sessions, sid, Next(c, st, ev).sessions[sid]);
  }

  lemma FinishReadDecreases(c: Config, st: State, id: nat, result: ReadResult)
    requires Ownership(st) && Enabled(c, st, FinishRead(id, result))
    ensures Measure(Next(c, st, FinishRead(id, result))) < Measure(st)
  {
    var sid := st.acts[id].sid;
    SumSessionReplaced(st.sessions, sid, Next(c, st, FinishRead(id, result)).sessions[sid]);
    SumReplaced(st.acts, ActWeight, id, ReadReady(sid, !result.ReadOk?), st.next);
  }

  lemma FinishWriteDecreases(c: Config, st: State, id: nat, ok: bool)
    requires Ownership(st) && Enabled(c, st, FinishWrite(id, ok))
    ensures Measure(Next(c, st, FinishWrite(id, ok))) < Measure(st)
  {
    var a := st.acts[id];
    SumSessionReplaced(st.sessions, a.sid, Next(c, st, FinishWrite(id, ok)).sessions[a.sid]);
    SumReplaced(st.acts, ActWeight, id, WriteReady(a.sid, a.keepAlive, !ok), st.next);
  }

  /** Every step of a run decreases the measure. */
  lemma StepDecreases(c: Config, st: State, ev: Event)
    requires Ownership(st) && Enabled(c, st, ev)
    ensures Measure(Next(c, st, ev)) < Measure(st)
  {
    match ev
    case RunReadReady(id, known) =>
      var sid := st.acts[id].sid;
      ApplyMeasure(st, id, sid, OnRead(c.framing, st.sessions[sid], st.acts[id].failed, known));
    case FinishJob(id, world) =>
      var sid := st.acts[id].sid;
      ApplyMeasure(st, id, sid, RunJob(c.routes, st.sessions[sid], st.acts[id].req, world));
    case RunWriteReady(id, known) =>
      var a := st.acts[id];
      RestartWeight(st.sessions[a.sid]);
      ApplyMeasure(st, id, a.sid, OnWrite(st.sessions[a.sid], a.keepAlive, a.failed, known));
    case Arrive(_) => ListenerDecreases(c, st, ev);
    case RunAccepted(_, _) => ListenerDecreases(c, st, ev);
    case FinishRead(id, result) => FinishReadDecreases(c, st, id, result);
    case FinishWrite(id, ok) => FinishWriteDecreases(c, st, id, ok);
    case TakeJob => SumAdded(st.acts, ActWeight, st.next, Working(st.queue[0].sid, st.queue[0].req));
    case _ => BytesDecrease(c, st, ev);
  }

  lemma RestartWeight(s: Session)
    ensures ByteWeight(StartRead(s)) <= ByteWeight(s)
  {
  }

  /** No run is longer than the measure of its first state. */
  lemma {:induction false} RunsEnd(c: Config, st: State, evs: seq<Event>)
    requires Inv(c, st) && Legal(c, st, evs)
    ensures |evs| + Measure(Run(c, st, evs)) <= Measure(st)
    decreases |evs|
  {
    if evs != [] {
      StepKeeps(c, st, evs[0]);
      StepDecreases(c, st, evs[0]);
      RunsEnd(c, Next(c, st, evs[0]), evs[1..]);
    }
  }

  /** Starting with its listener armed, the server takes a number of steps bounded by its input. */
  lemma EveryRunIsBounded(c: Config, backlog: seq<Arrival>, evs: seq<Event>)
    requires Legal(c, Init(backlog), evs)
    ensures |evs| <= 1 + SumArrivals(backlog)
  {
    InitHolds(c, backlog);
    RunsEnd(c, Init(backlog), evs);
    assert SumActs(Init(backlog).acts, ActWeight, 1) == SumActs(Init(backlog).acts, ActWeight, 0) + ActWeight(Accepting);
  }

  // ------------------------------------------------------------------ workers

  lemma ApplyLoad(st: State, id: nat, sid: nat, after: (Session, Effect))
    requires id in st.acts && id < st.next && sid < |st.sessions|
    ensures BusyWorkers(Apply(st, id, sid, after)) <= BusyWorkers(st)
  {
    match after.1
    case Crashes =>
    case StartsRead => SumReplaced(st.acts, WorkerLoad, id, Reading(sid), st.next);
    case StartsWrite(response, keepAlive) => SumReplaced(st.acts, WorkerLoad, id, Writing(sid, response, keepAlive), st.next);
    case PostsJob(req) => SumRemoved(st.acts, WorkerLoad, id, st.next);
    case Ends => SumRemoved(st.acts, WorkerLoad, id, st.next);
  }

  lemma ListenerLoad(c: Config, st: State, ev: Event)
    requires Ownership(st) && Enabled(c, st, ev) && (ev.Arrive? || ev.RunAccepted?)
    ensures BusyWorkers(Next(c, st, ev)) == BusyWorkers(st)
  {
    if ev.Arrive? {
      SumReplaced(st.acts, WorkerLoad, ev.id, Accepted(st.backlog[0]), st.next);
    } else {
      SumReplaced(st.acts, WorkerLoad, ev.id, Accepting, st.next);
      SumAdded(st.acts[ev.id := Accepting], WorkerLoad, st.next, Reading(|st.sessions|));
    }
  }

  lemma CallbackLoad(c: Config, st: State, ev: Event)
    requires Ownership(st) && Enabled(c, st, ev) && (ev.RunReadReady? || ev.FinishJob? || ev.RunWriteReady?)
    ensures BusyWorkers(Next(c, st, ev)) <= BusyWorkers(st)
  {
    var a := st.acts[ev.id];
    var s := st.sessions[a.sid];
    match ev
    case RunReadReady(id, known) => ApplyLoad(st, id, a.sid, OnRead(c.framing, s, a.failed, known));
    case FinishJob(id, world) => ApplyLoad(st, id, a.sid, RunJob(c.routes, s, a.req, world));
    case RunWriteReady(id, known) => ApplyLoad(st, id, a.sid, OnWrite(s, a.keepAlive, a.failed, known));
  }

  lemma StepKeepsWorkerBound(c: Config, st: State, ev: Event)
    requires Ownership(st) && Enabled(c, st, ev) && BusyWorkers(st) <= c.threads
    ensures BusyWorkers(Next(c, st, ev)) <= c.threads
  {
    if ev.Arrive? || ev.RunAccepted? {
      ListenerLoad(c, st, ev);
    } else if ev.RunReadReady? || ev.FinishJob? || ev.RunWriteReady? {
      CallbackLoad(c, st, ev);
    } else {
      match ev
      case FinishRead(id, result) =>
        SumReplaced(st.acts, WorkerLoad, id, ReadReady(st.acts[id].sid, !result.ReadOk?), st.next);
      case FinishWrite(id, ok) =>
        SumReplaced(st.acts, WorkerLoad, id, WriteReady(st.acts[id].sid, st.acts[id].keepAlive, !ok), st.next);
      case TakeJob => SumAdded(st.acts, WorkerLoad, st.next, Working(st.queue[0].sid, st.queue[0].req));
      case _ =>
    }
  }

  lemma {:induction false} RunKeepsWorkerBound(c: Config, st: State, evs: seq<Event>)
    requires Inv(c, st) && Legal(c, st, evs) && BusyWorkers(st) <= c.threads
    ensures BusyWorkers(Run(c, st, evs)) <= c.threads
    decreases |evs|
  {
    if evs != [] {
      StepKeeps(c, st, evs[0]);
      StepKeepsWorkerBound(c, st, evs[0]);
      RunKeepsWorkerBound(c, Next(c, st, evs[0]), evs[1..]);
    }
  }

  /** A pool of `threads` threads, as `TakeJob` describes it, never has more jobs running. */
  lemma PoolIsBounded(c: Config, backlog: seq<Arrival>, evs: seq<Event>)
    requires Legal(c, Init(backlog), evs)
    ensures BusyWorkers(After(c, backlog, evs)) <= c.threads
  {
    InitHolds(c, backlog);
    assert SumActs(Init(backlog).acts, WorkerLoad, 1) == SumActs(Init(backlog).acts, WorkerLoad, 0) + WorkerLoad(Accepting);
    RunKeepsWorkerBound(c, Init(backlog), evs);
  }

  lemma {:induction false} BusyMeansWorking(acts: Acts, upTo: nat)
    requires SumActs(acts, WorkerLoad, upTo) > 0
    ensures exists id :: id in acts && acts[id].Working?
  {
    if !(upTo - 1 in acts && acts[upTo - 1].Working?) {
      BusyMeansWorking(acts, upTo - 1);
    }
  }

  // ----------------------------------------------------------------- draining

  /** An event in which the environment makes something fail. */
  predicate Faulty(ev: Event) {
    match ev
    case RunAccepted(_, known) => !known
    case RunReadReady(_, known) => !known
    case RunWriteReady(_, known) => !known
    case FinishRead(_, result) => result.ReadFault?
    case FinishWrite(_, ok) => !ok
    case _ => false
  }

  /** Nothing can happen without a further failure. */
  ghost predicate Quiet(c: Config, st: State) {
    forall ev :: Enabled(c, st, ev) ==> Faulty(ev)
  }

  /** All sessions closed, pool queue and backlog empty, only the accept pending. */
  predicate Drained(st: State) {
    && (forall sid :: 0 <= sid < |st.sessions| ==> !st.sessions[sid].open)
    && st.queue == [] && st.backlog == []
    && (forall id :: id in st.acts ==> st.acts[id].Accepting?)
  }

  /** With all bytes received, the parser has stopped, can take more, or sees the end of the stream. */
  lemma ParserProgresses(framing: Framing, s: Session) returns (count: nat)
    requires s.parser.Some? && s.unread == []
    requires forall k :: 0 < k < |s.parser.value| ==> framing(s.parser.value[..k]).More?
    requires s.parser.value != [] ==> framing(s.parser.value).More?
    ensures CanConsume(framing, s, count) || CanFinishRead(framing, s, ReadEnd)
  {
    var p := s.parser.value;
    var all := p + s.buffer;
    count := 0;
    if all != [] {
      assert forall k :: 0 <= k <= |s.buffer| ==> all[..|p| + k] == p + s.buffer[..k];
      assert forall k :: 0 <= k <= |p| ==> all[..k] == p[..k];
      match StopFrom(framing, all, 1)
      case None =>
        forall k | 0 <= k <= |s.buffer| && 0 < |p| + k ensures framing(p + s.buffer[..k]).More? {
          assert framing(all[..|p| + k]).More?;
        }
      case Some(n) =>
        if n <= |p| {
          assert false;
        }
        forall k | 0 <= k < n - |p| && 0 < |p| + k ensures framing(p + s.buffer[..k]).More? {
          assert framing(all[..|p| + k]).More?;
        }
        count := n - |p|;
    }
  }

  /** A read in flight can always go on. */
  lemma ReadProgresses(c: Config, st: State, id: nat) returns (ev: Event)
    requires Inv(c, st) && st.alive && c.threads > 0 && Holds(st, id) && st.acts[id].Reading?
    ensures Enabled(c, st, ev) && !Faulty(ev)
  {
    var s := st.sessions[st.acts[id].sid];
    ActHolds(c, st, id);
    var p := s.parser.value;
    if s.unread != [] {
      ev := Receive(id, 1);
    } else if p != [] && !c.framing(p).More? {
      ev := FinishRead(id, if c.framing(p).Done? then ReadOk else ReadMalformed);
    } else {
      var count := ParserProgresses(c.framing, s);
      ev := if CanConsume(c.framing, s, count) then Consume(id, count) else FinishRead(id, ReadEnd);
    }
  }

  /** Every activity but an idle accept can go on. */
  lemma ActProgresses(c: Config, st: State, id: nat) returns (ev: Event)
    requires Inv(c, st) && st.alive && c.threads > 0 && id in st.acts && !st.acts[id].Accepting?
    ensures Enabled(c, st, ev) && !Faulty(ev)
  {
    assert Holds(st, id);
    match st.acts[id]
    case Accepted(_) => ev := RunAccepted(id, true);
    case Reading(_) => ev := ReadProgresses(c, st, id);
    case ReadReady(_, _) =>
      ActHolds(c, st, id);
      ev := RunReadReady(id, true);
    case Working(_, _) => ev := FinishJob(id, World([], None));
    case Writing(_, _, _) => ev := FinishWrite(id, true);
    case WriteReady(_, _, _) => ev := RunWriteReady(id, true);
  }

  /** While the process lives, a quiet state is a drained one. */
  lemma QuietMeansDrained(c: Config, st: State)
    requires Inv(c, st) && st.alive && c.threads > 0 && Quiet(c, st)
    ensures Drained(st)
  {
    forall id | id in st.acts ensures st.acts[id].Accepting? {
      if !st.acts[id].Accepting? {
        var ev := ActProgresses(c, st, id);
      }
    }
    if st.backlog != [] {
      var id :| id in st.acts && Owner(st.acts[id]) == -1;
      assert Enabled(c, st, Arrive(id));
    }
    if st.queue != [] {
      if BusyWorkers(st) < c.threads {
        assert Enabled(c, st, TakeJob);
      } else {
        BusyMeansWorking(st.acts, st.next);
      }
      assert false;
    }
    forall sid: nat | sid < |st.sessions| ensures !st.sessions[sid].open {
      if IsOpen(st.sessions, sid) {
        assert false;
      }
    }
  }

  /** The steps in which an exception leaves a callback: the peer lookup fails,
      which it always does on the socket of a failed accept. */
  predicate Crashing(st: State, ev: Event) {
    match ev
    case RunAccepted(id, known) => id in st.acts && st.acts[id].Accepted? && (st.acts[id].arrival.AcceptError? || !known)
    case RunReadReady(id, known) => id in st.acts && st.acts[id].ReadReady? && st.acts[id].failed && !known
    case RunWriteReady(id, known) =>
      id in st.acts && st.acts[id].WriteReady? && !st.acts[id].failed && !st.acts[id].keepAlive && !known
    case _ => false
  }

  predicate NoCrash(c: Config, st: State, evs: seq<Event>)
    requires Legal(c, st, evs)
    decreases |evs|
  {
    evs == [] || (!Crashing(st, evs[0]) && NoCrash(c, Next(c, st, evs[0]), evs[1..]))
  }

  /** A dead process died in a callback, which stays where it was. */
  ghost predicate DiedInCallback(st: State) {
    st.alive || exists id :: id in st.acts && !st.acts[id].Accepting?
  }

  lemma CallbackDies(c: Config, st: State, ev: Event)
    requires Enabled(c, st, ev) && (ev.RunReadReady? || ev.RunWriteReady?)
    requires st.sessions[st.acts[ev.id].sid].open
    ensures Next(c, st, ev).alive <==> !Crashing(st, ev)
    ensures !Next(c, st, ev).alive ==> Next(c, st, ev).acts == st.acts
  {
  }

  lemma OthersDie(c: Config, st: State, ev: Event)
    requires Enabled(c, st, ev) && !ev.RunReadReady? && !ev.RunWriteReady?
    ensures Next(c, st, ev).alive <==> !Crashing(st, ev)
    ensures !Next(c, st, ev).alive ==> Next(c, st, ev).acts == st.acts
  {
  }

  lemma StepDies(c: Config, st: State, ev: Event)
    requires Inv(c, st) && Enabled(c, st, ev)
    ensures DiedInCallback(Next(c, st, ev))
    ensures Next(c, st, ev).alive <==> !Crashing(st, ev)
  {
    if ev.RunReadReady? || ev.RunWriteReady? {
      ActHolds(c, st, ev.id);
      CallbackDies(c, st, ev);
    } else {
      OthersDie(c, st, ev);
    }
    var t := Next(c, st, ev);
    if !t.alive {
      assert ev.id in t.acts && !t.acts[ev.id].Accepting?;
    }
  }

  lemma {:induction false} AliveIffNoCrash(c: Config, st: State, evs: seq<Event>)
    requires Inv(c, st) && Legal(c, st, evs) && st.alive
    ensures Run(c, st, evs).alive <==> NoCrash(c, st, evs)
    ensures DiedInCallback(Run(c, st, evs))
    decreases |evs|
  {
    if evs != [] {
      StepKeeps(c, st, evs[0]);
      StepDies(c, st, evs[0]);
      var next := Next(c, st, evs[0]);
      if next.alive {
        AliveIffNoCrash(c, next, evs[1..]);
      } else {
        assert evs[1..] == [];
      }
    }
  }

  /** Drain: a run that cannot go on without a further failure has closed every
      session and emptied the pool exactly when no exception left a callback. */
  lemma MaximalRunsDrain(c: Config, backlog: seq<Arrival>, evs: seq<Event>)
    requires Legal(c, Init(backlog), evs) && c.threads > 0
    requires Quiet(c, After(c, backlog, evs))
    ensures Drained(After(c, backlog, evs)) <==> NoCrash(c, Init(backlog), evs)
  {
    InitHolds(c, backlog);
    ReachedKeeps(c, backlog, evs);
    AliveIffNoCrash(c, Init(backlog), evs);
    if After(c, backlog, evs).alive {
      QuietMeansDrained(c, After(c, backlog, evs));
    }
  }

  /** No accept that has happened or is still to come is a failed one. */
  predicate AcceptsSucceed(st: State) {
    && (forall i :: 0 <= i < |st.backlog| ==> st.backlog[i].Connection?)
    && (forall id :: id in st.acts && st.acts[id].Accepted? ==> st.acts[id].arrival.Connection?)
  }

  lemma StepKeepsAccepts(c: Config, st: State, ev: Event)
    requires AcceptsSucceed(st) && Enabled(c, st, ev)
    ensures AcceptsSucceed(Next(c, st, ev))
  {
  }

  lemma DrainFrom(c: Config, st: State) returns (evs: seq<Event>)
    requires Inv(c, st) && st.alive && c.threads > 0 && AcceptsSucceed(st)
    ensures Legal(c, st, evs) && Drained(Run(c, st, evs)) && Run(c, st, evs).alive
    ensures forall ev :: ev in evs ==> !Faulty(ev)
    decreases Measure(st)
  {
    if Quiet(c, st) {
      QuietMeansDrained(c, st);
      evs := [];
    } else {
      var ev :| Enabled(c, st, ev) && !Faulty(ev);
      StepKeeps(c, st, ev);
      StepDecreases(c, st, ev);
      StepDies(c, st, ev);
      StepKeepsAccepts(c, st, ev);
      var rest := DrainFrom(c, Next(c, st, ev));
      evs := [ev] + rest;
      assert evs[1..] == rest;
    }
  }

  /** No deadlock and no trap: when every arrival is a connection, any run in which
      no exception left a callback can go on, without a further failure, until the
      server has drained. */
  lemma CanAlwaysDrain(c: Config, backlog: seq<Arrival>, evs: seq<Event>) returns (more: seq<Event>)
    requires Legal(c, Init(backlog), evs) && c.threads > 0
    requires forall i :: 0 <= i < |backlog| ==> backlog[i].Connection?
    requires NoCrash(c, Init(backlog), evs)
    ensures Legal(c, After(c, backlog, evs), more) && (forall ev :: ev in more ==> !Faulty(ev))
    ensures Drained(Run(c, After(c, backlog, evs), more))
  {
    InitHolds(c, backlog);
    ReachedKeeps(c, backlog, evs);
    RunMatched(c, backlog, evs);
    AliveIffNoCrash(c, Init(backlog), evs);
    more := DrainFrom(c, After(c, backlog, evs));
  }

  // ------------------------------------------------------- runs without failures

  predicate FaultFree(evs: seq<Event>) {
    forall i :: 0 <= i < |evs| ==> !Faulty(evs[i])
  }

  lemma {:induction false} FaultFreeIsCrashFree(c: Config, st: State, evs: seq<Event>)
    requires Legal(c, st, evs) && AcceptsSucceed(st) && FaultFree(evs)
    ensures NoCrash(c, st, evs)
    decreases |evs|
  {
    if evs != [] {
      assert !Faulty(evs[0]);
      StepKeepsAccepts(c, st, evs[0]);
      FaultFreeIsCrashFree(c, Next(c, st, evs[0]), evs[1..]);
    }
  }

  predicate NoFaults(st: State) {
    forall sid :: 0 <= sid < |st.sessions| ==> !st.sessions[sid].fault
  }

  lemma StepKeepsNoFaults(c: Config, st: State, ev: Event)
    requires NoFaults(st) && Enabled(c, st, ev) && !Faulty(ev)
    ensures NoFaults(Next(c, st, ev))
  {
  }

  lemma {:induction false} FaultFreeLeavesNoFaults(c: Config, st: State, evs: seq<Event>)
    requires Legal(c, st, evs) && NoFaults(st) && FaultFree(evs)
    ensures NoFaults(Run(c, st, evs))
    decreases |evs|
  {
    if evs != [] {
      assert !Faulty(evs[0]);
      StepKeepsNoFaults(c, st, evs[0]);
      FaultFreeLeavesNoFaults(c, Next(c, st, evs[0]), evs[1..]);
    }
  }

  /** A drained server has a session for every arrival, in order, so no arrival was a failed accept. */
  lemma DrainedServesEveryArrival(c: Config, backlog: seq<Arrival>, evs: seq<Event>)
    requires Legal(c, Init(backlog), evs) && Drained(After(c, backlog, evs))
    ensures var st := After(c, backlog, evs);
            |st.sessions| == |backlog| && forall i :: 0 <= i < |backlog| ==> backlog[i] == Connection(st.sessions[i].input)
  {
    RunMatched(c, backlog, evs);
    ConnectionsAreConserved(c, backlog, evs);
    var st := After(c, backlog, evs);
    var id :| id in Listening(st.acts);
    assert st.acts[id].Accepting?;
  }

  /** Drain, on the input alone. A maximal run in which nothing fails has closed
      every session and emptied the pool exactly when no arrival is a failed accept. */
  lemma DrainsIffAcceptsSucceed(c: Config, backlog: seq<Arrival>, evs: seq<Event>)
    requires Legal(c, Init(backlog), evs) && c.threads > 0
    requires Quiet(c, After(c, backlog, evs)) && FaultFree(evs)
    ensures Drained(After(c, backlog, evs)) <==> forall i :: 0 <= i < |backlog| ==> backlog[i].Connection?
  {
    if forall i :: 0 <= i < |backlog| ==> backlog[i].Connection? {
      FaultFreeIsCrashFree(c, Init(backlog), evs);
      MaximalRunsDrain(c, backlog, evs);
    } else if Drained(After(c, backlog, evs)) {
      DrainedServesEveryArrival(c, backlog, evs);
      assert false;
    }
  }

  /** Refinement and drain together. In every maximal run without a failure, all
      arrivals being connections: one session per arrival, in order, each closed
      with the sequential server's answers to all the requests of its input, each
      in the world its own job was given. */
  lemma EveryConnectionIsServed(c: Config, backlog: seq<Arrival>, evs: seq<Event>)
    requires Legal(c, Init(backlog), evs) && c.threads > 0
    requires Quiet(c, After(c, backlog, evs)) && FaultFree(evs)
    requires forall i :: 0 <= i < |backlog| ==> backlog[i].Connection?
    ensures var sessions := After(c, backlog, evs).sessions;
            && |sessions| == |backlog|
            && (forall sid :: 0 <= sid < |sessions| ==>
                  var s := sessions[sid];
                  var all := RequestsOf(c.framing, s.input);
                  var worlds := JobWorlds(c, Init(backlog), evs, sid);
                  && backlog[sid] == Connection(s.input) && !s.open
                  && |worlds| == |all| && s.written == Serve(c.routes, all, worlds))
  {
    DrainsIffAcceptsSucceed(c, backlog, evs);
    DrainedServesEveryArrival(c, backlog, evs);
    FaultFreeLeavesNoFaults(c, Init(backlog), evs);
    var sessions := After(c, backlog, evs).sessions;
    forall sid | 0 <= sid < |sessions|
      ensures var s := sessions[sid];
              var all := RequestsOf(c.framing, s.input);
              var worlds := JobWorlds(c, Init(backlog), evs, sid);
              && backlog[sid] == Connection(s.input) && !s.open
              && |worlds| == |all| && s.written == Serve(c.routes, all, worlds)
    {
      RefinesSequentialServer(c, backlog, evs, sid);
      CleanCloseAnswersAll(c, backlog, evs, sid);
      RecordsAreTrue(c, backlog, evs, sid);
      var worlds := JobWorlds(c, Init(backlog), evs, sid);
      assert worlds[..|worlds|] == worlds;
    }
  }

  /** A failed accept: the connection accepted before it is never served and its socket stays open. */
  lemma FailedAcceptStrandsSessions(c: Config, input: Bytes) returns (evs: seq<Event>)
    requires c.threads > 0
    ensures Legal(c, Init([Connection(input), AcceptError]), evs)
    ensures var st := After(c, [Connection(input), AcceptError], evs);
            !st.alive && |st.sessions| == 1 && st.sessions[0].open && st.sessions[0].written == [] && Quiet(c, st)
  {
    var st0 := Init([Connection(input), AcceptError]);
    evs := [Arrive(0), RunAccepted(0, true), Arrive(0), RunAccepted(0, true)];
    var st1 := Next(c, st0, evs[0]);
    var st2 := Next(c, st1, evs[1]);
    assert st2.backlog == [AcceptError] && st2.acts[0] == Accepting;
    var st3 := Next(c, st2, evs[2]);
    var st4 := Next(c, st3, evs[3]);
    assert evs[1..] == [evs[1], evs[2], evs[3]] && evs[1..][1..] == [evs[2], evs[3]];
    assert evs[1..][1..][1..] == [evs[3]] && evs[1..][1..][1..][1..] == [];
    assert Legal(c, st4, []);
    assert Legal(c, st3, [evs[3]]) && Run(c, st3, [evs[3]]) == st4;
    assert Legal(c, st2, [evs[2], evs[3]]) && Run(c, st2, [evs[2], evs[3]]) == st4;
    assert Legal(c, st1, evs[1..]) && Run(c, st1, evs[1..]) == st4;
  }
}
