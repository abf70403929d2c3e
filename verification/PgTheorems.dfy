/** Linearisation of database calls, and what an outcome says of the effect. */
module PgTheorems {
  import opened Prelude
  import opened PgProtocol
  import Users

  // ------------------------------------------------------------------ invariant

  predicate DistinctIds(ids: seq<nat>) {
    forall i, j :: 0 <= i < j < |ids| ==> ids[i] != ids[j]
  }

  /** The bodies run so far are the first of the order of posting. */
  predicate LogIsOrdered<T(!new)>(calls: seq<Call>, st: State<T>)
    requires |st.stages| == |calls|
  {
    && |st.order| == |st.log| + |st.strand|
    && (forall k :: 0 <= k < |st.log| ==>
          st.log[k].id == st.order[k] < |calls| && st.stages[st.log[k].id].Finished?)
  }

  /** The calls waiting on the strand are the rest of that order. */
  predicate StrandIsOrdered<T(!new)>(calls: seq<Call>, st: State<T>)
    requires |st.stages| == |calls| && |st.order| == |st.log| + |st.strand|
  {
    forall k :: 0 <= k < |st.strand| ==>
      st.strand[k] == st.order[|st.log| + k] < |calls| && st.stages[st.strand[k]].Queued?
  }

  /** The strand is first in, first out, and no call is on it twice. */
  predicate Queueing<T(!new)>(calls: seq<Call>, st: State<T>) {
    && |st.stages| == |calls|
    && LogIsOrdered(calls, st)
    && StrandIsOrdered(calls, st)
    && DistinctIds(st.order)
  }

  predicate NoneSkipped<T(!new)>(st: State<T>) {
    forall id :: 0 <= id < |st.stages| && st.stages[id].Finished? ==> !st.stages[id].turn.skipped
  }

  /** Database and results are those of the serial run. */
  ghost predicate MatchesSerial<T(!new)>(b: Backend<T>, db: Db, calls: seq<Call>, st: State<T>)
    requires Queueing(calls, st)
  {
    var serial := SerialRun(b, db, calls, st.log);
    st.db == serial.db
    && forall k :: 0 <= k < |st.log| ==> st.stages[st.log[k].id] == Finished(serial.turns[k])
  }

  lemma OrderIsPosted<T(!new)>(calls: seq<Call>, st: State<T>)
    requires Queueing(calls, st)
    ensures forall k :: 0 <= k < |st.order| ==>
              st.order[k] < |calls| && (st.stages[st.order[k]].Finished? || st.stages[st.order[k]].Queued?)
  {
    forall k | 0 <= k < |st.order|
      ensures st.order[k] < |calls| && (st.stages[st.order[k]].Finished? || st.stages[st.order[k]].Queued?)
    {
      if k < |st.log| {
        assert st.log[k].id == st.order[k];
      } else {
        assert st.strand[k - |st.log|] == st.order[k];
      }
    }
  }

  lemma BeginKeepsQueueing<T(!new)>(b: Backend<T>, calls: seq<Call>, st: State<T>, id: nat)
    requires Queueing(calls, st) && Enabled(calls, st, Begin(id))
    ensures Queueing(calls, Next(b, calls, st, Begin(id)))
  {
    OrderIsPosted(calls, st);
    var t := Next(b, calls, st, Begin(id));
    assert forall k :: 0 <= k < |st.log| ==> t.stages[st.log[k].id] == st.stages[st.log[k].id];
    assert forall k :: 0 <= k < |st.strand| ==> t.stages[st.strand[k]] == st.stages[st.strand[k]];
  }

  lemma PostKeepsQueueing<T(!new)>(b: Backend<T>, calls: seq<Call>, st: State<T>, id: nat)
    requires Queueing(calls, st) && Enabled(calls, st, Post(id))
    ensures Queueing(calls, Next(b, calls, st, Post(id)))
  {
    OrderIsPosted(calls, st);
    assert forall k :: 0 <= k < |st.order| ==> st.order[k] != id;
  }

  lemma TurnKeepsQueueing<T(!new)>(b: Backend<T>, calls: seq<Call>, st: State<T>, env: Env<T>)
    requires Queueing(calls, st) && Enabled(calls, st, Turn(env))
    ensures Queueing(calls, Next(b, calls, st, Turn(env)))
  {
    var t := Next(b, calls, st, Turn(env));
    var id := st.strand[0];
    assert id == st.order[|st.log|];
    forall k | 0 <= k < |t.strand|
      ensures t.strand[k] == t.order[|t.log| + k] < |calls| && t.stages[t.strand[k]].Queued?
    {
      assert t.strand[k] == st.strand[k + 1];
      assert st.order[|st.log| + (k + 1)] != id;
    }
    forall k | 0 <= k < |t.log|
      ensures t.log[k].id == t.order[k] < |calls| && t.stages[t.log[k].id].Finished?
    {
      if k < |st.log| {
        assert t.log[k] == st.log[k];
      }
    }
  }

  lemma StepKeepsQueueing<T(!new)>(b: Backend<T>, calls: seq<Call>, st: State<T>, ev: Event<T>)
    requires Queueing(calls, st) && Enabled(calls, st, ev)
    ensures Queueing(calls, Next(b, calls, st, ev))
  {
    match ev
    case Begin(id) => BeginKeepsQueueing(b, calls, st, id);
    case Post(id) => PostKeepsQueueing(b, calls, st, id);
    case Turn(env) => TurnKeepsQueueing(b, calls, st, env);
  }

  lemma StillNoneSkipped<T(!new)>(b: Backend<T>, calls: seq<Call>, st: State<T>, ev: Event<T>)
    requires Queueing(calls, st) && Enabled(calls, st, ev) && NoneSkipped(Next(b, calls, st, ev))
    ensures NoneSkipped(st)
    ensures ev.Turn? ==> CodeIn(st.cells, calls[st.strand[0]].cell) == NoError
  {
    var t := Next(b, calls, st, ev);
    forall id | 0 <= id < |st.stages| && st.stages[id].Finished? ensures !st.stages[id].turn.skipped {
      assert t.stages[id] == st.stages[id];
    }
    if ev.Turn? {
      assert t.stages[st.strand[0]].Finished?;
    }
  }

  lemma TurnKeepsSerial<T(!new)>(b: Backend<T>, db: Db, calls: seq<Call>, st: State<T>, env: Env<T>)
    requires Queueing(calls, st) && Enabled(calls, st, Turn(env)) && MatchesSerial(b, db, calls, st)
    requires CodeIn(st.cells, calls[st.strand[0]].cell) == NoError
    requires Queueing(calls, Next(b, calls, st, Turn(env)))
    ensures MatchesSerial(b, db, calls, Next(b, calls, st, Turn(env)))
  {
    var t := Next(b, calls, st, Turn(env));
    var n := |st.log|;
    assert t.log[..n] == st.log;
    assert forall k :: 0 <= k < n ==> st.log[k].id != st.strand[0];
  }

  lemma StepKeepsSerial<T(!new)>(b: Backend<T>, db: Db, calls: seq<Call>, st: State<T>, ev: Event<T>)
    requires Queueing(calls, st) && Enabled(calls, st, ev)
    requires NoneSkipped(st) ==> MatchesSerial(b, db, calls, st)
    requires Queueing(calls, Next(b, calls, st, ev))
    ensures NoneSkipped(Next(b, calls, st, ev)) ==> MatchesSerial(b, db, calls, Next(b, calls, st, ev))
  {
    if NoneSkipped(Next(b, calls, st, ev)) {
      StillNoneSkipped(b, calls, st, ev);
      if ev.Turn? {
        TurnKeepsSerial(b, db, calls, st, ev.env);
      }
    }
  }

  lemma {:induction false} RunKeepsSerial<T(!new)>(b: Backend<T>, db: Db, calls: seq<Call>, st: State<T>, evs: seq<Event<T>>)
    requires Queueing(calls, st) && (NoneSkipped(st) ==> MatchesSerial(b, db, calls, st))
    requires Legal(b, calls, st, evs)
    ensures var t := Run(b, calls, st, evs); Queueing(calls, t) && (NoneSkipped(t) ==> MatchesSerial(b, db, calls, t))
    decreases |evs|
  {
    if evs != [] {
      StepKeepsQueueing(b, calls, st, evs[0]);
      StepKeepsSerial(b, db, calls, st, evs[0]);
      RunKeepsSerial(b, db, calls, Next(b, calls, st, evs[0]), evs[1..]);
    }
  }

  // ---------------------------------------------------- the log, from the events

  /** The calls in the order the events post them. */
  function PostsOf<T>(evs: seq<Event<T>>): seq<nat> {
    if evs == [] then [] else (if evs[0].Post? then [evs[0].id] else []) + PostsOf(evs[1..])
  }

  /** What surrounds the bodies, in the order the events run them. */
  function EnvsOf<T>(evs: seq<Event<T>>): seq<Env<T>> {
    if evs == [] then [] else (if evs[0].Turn? then [evs[0].env] else []) + EnvsOf(evs[1..])
  }

  function LogEnvs<T>(log: seq<Entry<T>>): seq<Env<T>> {
    seq(|log|, k requires 0 <= k < |log| => log[k].env)
  }

  lemma StepRecords<T(!new)>(b: Backend<T>, calls: seq<Call>, st: State<T>, ev: Event<T>)
    requires Enabled(calls, st, ev)
    ensures var t := Next(b, calls, st, ev);
            && t.order == st.order + (if ev.Post? then [ev.id] else [])
            && LogEnvs(t.log) == LogEnvs(st.log) + (if ev.Turn? then [ev.env] else [])
  {
  }

  lemma {:induction false} RunRecordsPosts<T(!new)>(b: Backend<T>, calls: seq<Call>, st: State<T>, evs: seq<Event<T>>)
    requires Legal(b, calls, st, evs)
    ensures Run(b, calls, st, evs).order == st.order + PostsOf(evs)
    decreases |evs|
  {
    if evs == [] {
      Associates(st.order, [], []);
    } else {
      var ev, rest := evs[0], evs[1..];
      StepRecords(b, calls, st, ev);
      RunRecordsPosts(b, calls, Next(b, calls, st, ev), rest);
      Associates(st.order, if ev.Post? then [ev.id] else [], PostsOf(rest));
    }
  }

  lemma {:induction false} RunRecordsEnvs<T(!new)>(b: Backend<T>, calls: seq<Call>, st: State<T>, evs: seq<Event<T>>)
    requires Legal(b, calls, st, evs)
    ensures LogEnvs(Run(b, calls, st, evs).log) == LogEnvs(st.log) + EnvsOf(evs)
    decreases |evs|
  {
    if evs == [] {
      Associates(LogEnvs(st.log), [], []);
    } else {
      var ev, rest := evs[0], evs[1..];
      StepRecords(b, calls, st, ev);
      RunRecordsEnvs(b, calls, Next(b, calls, st, ev), rest);
      Associates(LogEnvs(st.log), if ev.Turn? then [ev.env] else [], EnvsOf(rest));
    }
  }

  /** Entry `k` of the log is the `k`-th call posted, run in the surroundings of the `k`-th turn. */
  ghost predicate LogIsTrue<T(!new)>(evs: seq<Event<T>>, log: seq<Entry<T>>) {
    |log| == |EnvsOf(evs)| <= |PostsOf(evs)|
    && forall k :: 0 <= k < |log| ==> log[k] == Entry(PostsOf(evs)[k], EnvsOf(evs)[k])
  }

  lemma LogFollowsEvents<T(!new)>(b: Backend<T>, db: Db, calls: seq<Call>, evs: seq<Event<T>>)
    requires Legal(b, calls, Init(db, calls), evs) && Queueing(calls, Run(b, calls, Init(db, calls), evs))
    ensures LogIsTrue(evs, Run(b, calls, Init(db, calls), evs).log)
  {
    RunRecordsPosts(b, calls, Init(db, calls), evs);
    RunRecordsEnvs(b, calls, Init(db, calls), evs);
    var st := Run(b, calls, Init(db, calls), evs);
    assert LogEnvs(st.log) == EnvsOf(evs) && st.order == PostsOf(evs);
    forall k | 0 <= k < |st.log| ensures st.log[k] == Entry(PostsOf(evs)[k], EnvsOf(evs)[k]) {
      assert LogEnvs(st.log)[k] == st.log[k].env;
    }
  }

  lemma InitHolds<T(!new)>(b: Backend<T>, db: Db, calls: seq<Call>)
    ensures Queueing(calls, Init<T>(db, calls)) && MatchesSerial(b, db, calls, Init<T>(db, calls))
  {
  }

  /** Linearisation. In every run in which no body was stopped by the pre-check,
      the database and every caller's result are those of running the calls one
      at a time in the order they were posted, each in the surroundings its own turn had. */
  lemma CallsLinearise<T(!new)>(b: Backend<T>, db: Db, calls: seq<Call>, evs: seq<Event<T>>)
    requires Legal(b, calls, Init(db, calls), evs)
    requires NoneSkipped(Run(b, calls, Init(db, calls), evs))
    ensures var st := Run(b, calls, Init(db, calls), evs);
            Queueing(calls, st) && LogIsTrue(evs, st.log) && MatchesSerial(b, db, calls, st)
  {
    InitHolds(b, db, calls);
    RunKeepsSerial(b, db, calls, Init(db, calls), evs);
    LogFollowsEvents(b, db, calls, evs);
  }

  // ----------------------------------------------------------- one call at a time

  /** The events of running the calls of a log alone, one after the other. */
  function Solo<T>(log: seq<Entry<T>>): seq<Event<T>> {
    if log == [] then []
    else
      var entry := log[|log| - 1];
      Solo(log[..|log| - 1]) + [Begin(entry.id), Post(entry.id), Turn(entry.env)]
  }

  lemma {:induction false} RunAppended<T(!new)>(b: Backend<T>, calls: seq<Call>, st: State<T>, evs: seq<Event<T>>, more: seq<Event<T>>)
    requires Legal(b, calls, st, evs) && Legal(b, calls, Run(b, calls, st, evs), more)
    ensures Legal(b, calls, st, evs + more)
    ensures Run(b, calls, st, evs + more) == Run(b, calls, Run(b, calls, st, evs), more)
    decreases |evs|
  {
    if evs == [] {
      assert evs + more == more;
    } else {
      assert (evs + more)[0] == evs[0] && (evs + more)[1..] == evs[1..] + more;
      RunAppended(b, calls, Next(b, calls, st, evs[0]), evs[1..], more);
    }
  }

  /** A call run alone from a state with nothing waiting. */
  lemma SoloCall<T(!new)>(b: Backend<T>, calls: seq<Call>, st: State<T>, id: nat, env: Env<T>)
    requires |st.stages| == |calls| && id < |calls| && st.stages[id].Idle? && st.strand == []
    ensures Legal(b, calls, st, [Begin(id), Post(id), Turn(env)])
    ensures var t := Run(b, calls, st, [Begin(id), Post(id), Turn(env)]);
            var turn := TurnOf(b, st.db, calls[id].kind, calls[id].query, NoError, env);
            t.db == turn.db && t.stages == st.stages[id := Finished(turn)] && t.strand == []
  {
    var e0: Event<T>, e1: Event<T>, e2: Event<T> := Begin(id), Post(id), Turn(env);
    var s1 := Next(b, calls, st, e0);
    var s2 := Next(b, calls, s1, e1);
    var s3 := Next(b, calls, s2, e2);
    assert s2.strand == [id] && s2.cells[calls[id].cell] == NoError;
    assert [e0, e1, e2][1..] == [e1, e2] && [e1, e2][1..] == [e2] && [e2][1..] == [];
    assert Legal(b, calls, s3, []);
    assert Legal(b, calls, s2, [e2]) && Run(b, calls, s2, [e2]) == s3;
    assert Legal(b, calls, s1, [e1, e2]) && Run(b, calls, s1, [e1, e2]) == s3;
  }

  /** The serial reference is itself a run: the calls of the log, one at a time. */
  lemma {:induction false} SerialIsARun<T(!new)>(b: Backend<T>, db: Db, calls: seq<Call>, log: seq<Entry<T>>)
    requires forall k :: 0 <= k < |log| ==> log[k].id < |calls|
    requires forall i, j :: 0 <= i < j < |log| ==> log[i].id != log[j].id
    ensures Legal(b, calls, Init(db, calls), Solo(log))
    ensures var st := Run(b, calls, Init(db, calls), Solo(log));
            var serial := SerialRun(b, db, calls, log);
            && st.db == serial.db && st.strand == [] && |st.stages| == |calls|
            && (forall k :: 0 <= k < |log| ==> st.stages[log[k].id] == Finished(serial.turns[k]))
            && (forall id :: 0 <= id < |calls| && (forall k :: 0 <= k < |log| ==> log[k].id != id) ==> st.stages[id].Idle?)
    decreases |log|
  {
    if log != [] {
      var n := |log| - 1;
      var entry := log[n];
      SerialIsARun(b, db, calls, log[..n]);
      var st := Run(b, calls, Init(db, calls), Solo(log[..n]));
      assert st.stages[entry.id].Idle?;
      SoloCall(b, calls, st, entry.id, entry.env);
      RunAppended(b, calls, Init(db, calls), Solo(log[..n]), [Begin(entry.id), Post(entry.id), Turn(entry.env)]);
      var t := Run(b, calls, Init(db, calls), Solo(log));
      forall k | 0 <= k < |log| ensures t.stages[log[k].id] == Finished(SerialRun(b, db, calls, log).turns[k]) {
        assert k < n ==> log[..n][k] == log[k];
      }
      forall id | 0 <= id < |calls| && (forall k :: 0 <= k < |log| ==> log[k].id != id) ensures t.stages[id].Idle? {
        assert log[n].id != id;
        assert forall k :: 0 <= k < n ==> log[..n][k].id != id;
      }
    }
  }

  /** So a concurrent run without skips ends as the run of the same calls one at
      a time does: same database, same outcome for every caller that has one. */
  lemma SameAsOneAtATime<T(!new)>(b: Backend<T>, db: Db, calls: seq<Call>, evs: seq<Event<T>>)
    requires Legal(b, calls, Init(db, calls), evs)
    requires NoneSkipped(Run(b, calls, Init(db, calls), evs))
    ensures var st := Run(b, calls, Init(db, calls), evs);
            && LogIsTrue(evs, st.log)
            && Legal(b, calls, Init(db, calls), Solo(st.log))
            && var solo := Run(b, calls, Init(db, calls), Solo(st.log));
               && st.db == solo.db && |solo.stages| == |st.stages|
               && (forall k :: 0 <= k < |st.log| ==> st.log[k].id < |st.stages|)
               && (forall k :: 0 <= k < |st.log| ==> st.stages[st.log[k].id] == solo.stages[st.log[k].id])
  {
    CallsLinearise(b, db, calls, evs);
    var st := Run(b, calls, Init(db, calls), evs);
    assert forall k :: 0 <= k < |st.log| ==> st.log[k].id == st.order[k];
    SerialIsARun(b, db, calls, st.log);
  }

  // ------------------------------------------------------------------ error cells

  predicate Unshared(calls: seq<Call>) {
    forall i, j :: 0 <= i < j < |calls| ==> calls[i].cell != calls[j].cell
  }

  predicate Waiting<T>(stage: Stage<T>) {
    stage.Cleared? || stage.Queued?
  }

  /** A call that itself failed and left its error in a cell. */
  predicate LeftError<T(!new)>(calls: seq<Call>, st: State<T>, j: nat, cell: nat) {
    |st.stages| == |calls| && j < |calls| && calls[j].cell == cell
    && st.stages[j].Finished? && !st.stages[j].turn.skipped && st.stages[j].turn.code == CodeIn(st.cells, cell)
  }

  /** An error a waiting or skipped call can see was left by a call that shares its cell and failed. */
  ghost predicate ErrorsHaveCause<T(!new)>(calls: seq<Call>, st: State<T>) {
    |st.stages| == |calls|
    && forall id :: 0 <= id < |calls| && Waiting(st.stages[id]) && CodeIn(st.cells, calls[id].cell) != NoError
         ==> exists j :: LeftError(calls, st, j, calls[id].cell)
  }

  ghost predicate SkipsHaveCause<T(!new)>(calls: seq<Call>, st: State<T>) {
    |st.stages| == |calls|
    && forall id :: 0 <= id < |calls| && st.stages[id].Finished? && st.stages[id].turn.skipped
         ==> exists j :: FailedOn(calls, st, j, calls[id].cell) && j != id
  }

  predicate FailedOn<T(!new)>(calls: seq<Call>, st: State<T>, j: nat, cell: nat) {
    |st.stages| == |calls| && j < |calls| && calls[j].cell == cell
    && st.stages[j].Finished? && !st.stages[j].turn.skipped && st.stages[j].turn.code != NoError
  }

  lemma StepKeepsCauses<T(!new)>(b: Backend<T>, calls: seq<Call>, st: State<T>, ev: Event<T>)
    requires Queueing(calls, st) && ErrorsHaveCause(calls, st) && SkipsHaveCause(calls, st) && Enabled(calls, st, ev)
    ensures ErrorsHaveCause(calls, Next(b, calls, st, ev)) && SkipsHaveCause(calls, Next(b, calls, st, ev))
  {
    var t := Next(b, calls, st, ev);
    forall id | 0 <= id < |calls| && Waiting(t.stages[id]) && CodeIn(t.cells, calls[id].cell) != NoError
      ensures exists j :: LeftError(calls, t, j, calls[id].cell)
    {
      var cell := calls[id].cell;
      if ev.Turn? && calls[st.strand[0]].cell == cell && CodeIn(st.cells, cell) == NoError {
        assert LeftError(calls, t, st.strand[0], cell);
      } else {
        assert Waiting(st.stages[id]) || ev.Begin?;
        assert CodeIn(st.cells, cell) == CodeIn(t.cells, cell);
        var j :| LeftError(calls, st, j, cell);
        assert LeftError(calls, t, j, cell);
      }
    }
    forall id | 0 <= id < |calls| && t.stages[id].Finished? && t.stages[id].turn.skipped
      ensures exists j :: FailedOn(calls, t, j, calls[id].cell) && j != id
    {
      var cell := calls[id].cell;
      if st.stages[id].Finished? {
        var j :| FailedOn(calls, st, j, cell) && j != id;
        assert FailedOn(calls, t, j, cell);
      } else {
        var j :| LeftError(calls, st, j, cell);
        assert FailedOn(calls, t, j, cell);
      }
    }
  }

  lemma {:induction false} RunKeepsCauses<T(!new)>(b: Backend<T>, calls: seq<Call>, st: State<T>, evs: seq<Event<T>>)
    requires Queueing(calls, st) && ErrorsHaveCause(calls, st) && SkipsHaveCause(calls, st) && Legal(b, calls, st, evs)
    ensures SkipsHaveCause(calls, Run(b, calls, st, evs))
    decreases |evs|
  {
    if evs != [] {
      StepKeepsQueueing(b, calls, st, evs[0]);
      StepKeepsCauses(b, calls, st, evs[0]);
      RunKeepsCauses(b, calls, Next(b, calls, st, evs[0]), evs[1..]);
    }
  }

  /** A call is skipped only after another call sharing its error cell ran and failed. */
  lemma SkipsNeedSharedFailure<T(!new)>(b: Backend<T>, db: Db, calls: seq<Call>, evs: seq<Event<T>>)
    requires Legal(b, calls, Init(db, calls), evs)
    ensures SkipsHaveCause(calls, Run(b, calls, Init(db, calls), evs))
  {
    InitHolds(b, db, calls);
    RunKeepsCauses(b, calls, Init(db, calls), evs);
  }

  /** With an error cell per call, no call is ever skipped, so every run linearises. */
  lemma UnsharedCallsLinearise<T(!new)>(b: Backend<T>, db: Db, calls: seq<Call>, evs: seq<Event<T>>)
    requires Unshared(calls) && Legal(b, calls, Init(db, calls), evs)
    ensures var st := Run(b, calls, Init(db, calls), evs);
            NoneSkipped(st) && Queueing(calls, st) && LogIsTrue(evs, st.log) && MatchesSerial(b, db, calls, st)
  {
    SkipsNeedSharedFailure(b, db, calls, evs);
    CallsLinearise'(b, db, calls, evs);
  }

  lemma CallsLinearise'<T(!new)>(b: Backend<T>, db: Db, calls: seq<Call>, evs: seq<Event<T>>)
    requires Unshared(calls) && Legal(b, calls, Init(db, calls), evs)
    requires SkipsHaveCause(calls, Run(b, calls, Init(db, calls), evs))
    ensures var st := Run(b, calls, Init(db, calls), evs);
            NoneSkipped(st) && Queueing(calls, st) && LogIsTrue(evs, st.log) && MatchesSerial(b, db, calls, st)
  {
    var st := Run(b, calls, Init(db, calls), evs);
    forall id | 0 <= id < |st.stages| && st.stages[id].Finished? ensures !st.stages[id].turn.skipped {
      if st.stages[id].turn.skipped {
        assert false;
      }
    }
    CallsLinearise(b, db, calls, evs);
  }

  /** Two calls on one cell, the connection lost under the first: the second is
      skipped and reports the error of the first, though alone, on the same
      database, it would have had its effect whenever its query succeeds. */
  lemma SharedCellSkips<T(!new)>(b: Backend<T>, db: Db, calls: seq<Call>, i: nat, j: nat) returns (evs: seq<Event<T>>)
    requires i < j < |calls| && calls[i].cell == calls[j].cell
    ensures Legal(b, calls, Init(db, calls), evs)
    ensures var st := Run(b, calls, Init(db, calls), evs);
            && |st.stages| == |calls| && st.stages[j].Finished?
            && st.stages[j].turn.skipped && st.stages[j].turn.code == Canceled && st.db == db
    ensures b.exec(db, calls[j].query).Rows? ==>
              TurnOf(b, db, calls[j].kind, calls[j].query, NoError, Env(true, NoFault, None)).applied
  {
    var lost: Event<T>, after: Event<T> := Turn(Env(true, BeginBreaks, None)), Turn(Env(true, NoFault, None));
    var e0: Event<T>, e1: Event<T>, e2: Event<T>, e3: Event<T> := Begin(i), Begin(j), Post(i), Post(j);
    evs := [e0, e1, e2, e3, lost, after];
    var s1 := Next(b, calls, Init<T>(db, calls), e0);
    var s2 := Next(b, calls, s1, e1);
    var s3 := Next(b, calls, s2, e2);
    var s4 := Next(b, calls, s3, e3);
    assert s4.strand == [i, j];
    var s5 := Next(b, calls, s4, lost);
    assert s5.strand == [j] && s5.cells[calls[j].cell] == Canceled;
    var s6 := Next(b, calls, s5, after);
    OneStep(b, calls, s5, after, []);
    OneStep(b, calls, s4, lost, [after]);
    OneStep(b, calls, s3, e3, [lost, after]);
    OneStep(b, calls, s2, e2, [e3, lost, after]);
    OneStep(b, calls, s1, e1, [e2, e3, lost, after]);
    OneStep(b, calls, Init(db, calls), e0, [e1, e2, e3, lost, after]);
    assert [e0] + [e1, e2, e3, lost, after] == evs && [e1] + [e2, e3, lost, after] == [e1, e2, e3, lost, after];
    assert [e2] + [e3, lost, after] == [e2, e3, lost, after] && [e3] + [lost, after] == [e3, lost, after];
    assert [lost] + [after] == [lost, after] && [after] + [] == [after];
  }

  lemma OneStep<T(!new)>(b: Backend<T>, calls: seq<Call>, st: State<T>, ev: Event<T>, rest: seq<Event<T>>)
    requires Enabled(calls, st, ev) && Legal(b, calls, Next(b, calls, st, ev), rest)
    ensures Legal(b, calls, st, [ev] + rest)
    ensures Run(b, calls, st, [ev] + rest) == Run(b, calls, Next(b, calls, st, ev), rest)
  {
    assert ([ev] + rest)[1..] == rest;
  }

  ghost predicate SkipFree<T(!new)>(b: Backend<T>, db: Db, calls: seq<Call>) {
    forall evs :: Legal(b, calls, Init(db, calls), evs) ==> NoneSkipped(Run(b, calls, Init(db, calls), evs))
  }

  /** Exactly when every call has an error cell of its own, no run ever skips a call. */
  lemma SkipFreeIffUnshared<T(!new)>(b: Backend<T>, db: Db, calls: seq<Call>)
    ensures SkipFree(b, db, calls) <==> Unshared(calls)
  {
    if Unshared(calls) {
      forall evs: seq<Event<T>> | Legal(b, calls, Init(db, calls), evs)
        ensures NoneSkipped(Run(b, calls, Init(db, calls), evs))
      {
        UnsharedCallsLinearise(b, db, calls, evs);
      }
    } else {
      var i, j :| 0 <= i < j < |calls| && calls[i].cell == calls[j].cell;
      var evs := SharedCellSkips(b, db, calls, i, j);
    }
  }

  // ------------------------------------------------------------ outcome and effect

  /** The rows the call looks at do not map. */
  predicate MappingFails<T>(b: Backend<T>, kind: Kind, rows: seq<Users.Row>, env: Env<T>) {
    match kind
    case ManyRows => MapAll(b, rows).None?
    case OneRow => |rows| <= 1 && (if rows == [] then env.frontOfEmpty else b.mapRow(rows[0])).None?
    case NoRows => false
  }

  /** The value of a single-result call: its one row mapped, or what the library makes of an empty result. */
  function SingleValue<T>(b: Backend<T>, rows: seq<Users.Row>, env: Env<T>): Option<T> {
    if |rows| > 1 then None else if rows == [] then env.frontOfEmpty else b.mapRow(rows[0])
  }

  /** The transaction commits and its commit is known to have succeeded. */
  predicate Commits<T>(b: Backend<T>, db: Db, query: Bytes, env: Env<T>) {
    env.open && env.fault.NoFault? && b.exec(db, query).Rows?
  }

  /** What a call that was not skipped returns, reports and leaves behind, case by case. */
  lemma OutcomeVersusEffect<T>(b: Backend<T>, db: Db, kind: Kind, query: Bytes, env: Env<T>)
    ensures var t := TurnOf(b, db, kind, query, NoError, env);
            // exactly once or not at all
            && !t.skipped
            && (t.applied <==> env.open && b.exec(db, query).Rows? && (env.fault.NoFault? || env.fault == CommitInDoubt(true)))
            && t.db == (if t.applied then b.exec(db, query).db else db)
            // the answer: values or a value exactly when the transaction commits and the rows map
            && (t.answer.Done? <==> kind == NoRows)
            && (t.answer.Values? <==> kind == ManyRows && Commits(b, db, query, env) && MapAll(b, b.exec(db, query).rows).Some?)
            && (t.answer.Values? ==> Some(t.answer.values) == MapAll(b, b.exec(db, query).rows))
            && (t.answer.Value? <==> kind == OneRow && Commits(b, db, query, env) && SingleValue(b, b.exec(db, query).rows, env).Some?)
            && (t.answer.Value? ==> Some(t.answer.value) == SingleValue(b, b.exec(db, query).rows, env))
            // bad_message: an SQL error or a refused commit, without effect, or too many rows, with it
            && (t.code.BadMessage? && !t.applied <==>
                  env.open && !env.fault.BeginBreaks? && !env.fault.ExecBreaks?
                  && (b.exec(db, query).SqlError? || (b.exec(db, query).Rows? && env.fault.CommitSqlError?)))
            && (t.code.BadMessage? && t.applied <==>
                  kind == OneRow && Commits(b, db, query, env) && |b.exec(db, query).rows| > 1)
            // operation_canceled: the connection broke, without effect; or with it, a row that does not map or a commit in doubt
            && (t.code.Canceled? && !t.applied <==>
                  env.open
                  && (env.fault.BeginBreaks? || env.fault.ExecBreaks? || b.exec(db, query).Broken?
                      || (b.exec(db, query).Rows? && (env.fault.CommitBreaks? || env.fault == CommitInDoubt(false)))))
            && (t.code.Canceled? && t.applied <==>
                  env.open && b.exec(db, query).Rows?
                  && (env.fault == CommitInDoubt(true)
                      || (env.fault.NoFault? && MappingFails(b, kind, b.exec(db, query).rows, env))))
  {
  }

  /** The corollaries a caller relies on. A result means applied without error; an
      empty optional with a clear code means exactly that the connection was closed,
      and so does a clear code without an effect. */
  lemma ResultsMeanEffects<T>(b: Backend<T>, db: Db, kind: Kind, query: Bytes, env: Env<T>)
    ensures var t := TurnOf(b, db, kind, query, NoError, env);
            && (t.answer.Values? || t.answer.Value? ==> t.applied && t.code.NoError?)
            && (t.code.NoError? ==> (t.applied <==> env.open))
            && (kind != NoRows ==> (t.answer.Nothing? && t.code.NoError? <==> !env.open))
  {
    OutcomeVersusEffect(b, db, kind, query, env);
  }

  /** A call whose cell already holds an error touches nothing and reports that error. */
  lemma SkippedChangesNothing<T>(b: Backend<T>, db: Db, kind: Kind, query: Bytes, code: ErrorCode, env: Env<T>)
    requires code != NoError
    ensures var t := TurnOf(b, db, kind, query, code, env);
            && t.skipped && !t.applied && t.db == db && t.code == code
            && t.answer == if kind == NoRows then Done else Nothing
  {
  }

  /** A row that does not map leaves the effect committed and reports no partial list. */
  lemma UnmappableRowIsCommitted<T>(b: Backend<T>, db: Db, query: Bytes, env: Env<T>)
    requires env.open && env.fault.NoFault? && b.exec(db, query).Rows?
    ensures var t := TurnOf(b, db, ManyRows, query, NoError, env);
            var rows := b.exec(db, query).rows;
            && t.applied
            && (t.code.Canceled? && t.answer.Nothing? <==> exists i :: 0 <= i < |rows| && b.mapRow(rows[i]).None?)
            && (t.answer.Values? ==> |t.answer.values| == |rows|)
            && (t.answer.Values? ==> forall i :: 0 <= i < |rows| ==> b.mapRow(rows[i]) == Some(t.answer.values[i]))
            && (t.answer.Values? || t.answer.Nothing?)
  {
    MapAllIsPointwise(b, b.exec(db, query).rows);
  }

  lemma {:induction false} MapAllIsPointwise<T>(b: Backend<T>, rows: seq<Users.Row>)
    ensures MapAll(b, rows).None? <==> exists i :: 0 <= i < |rows| && b.mapRow(rows[i]).None?
    ensures MapAll(b, rows).Some? ==> |MapAll(b, rows).value| == |rows|
    ensures MapAll(b, rows).Some? ==> forall i :: 0 <= i < |rows| ==> b.mapRow(rows[i]) == Some(MapAll(b, rows).value[i])
  {
    if rows != [] {
      MapAllIsPointwise(b, rows[1..]);
      if i :| 0 <= i < |rows| && b.mapRow(rows[i]).None? {
        assert i > 0 ==> rows[1..][i - 1] == rows[i];
      }
      if MapAll(b, rows).Some? {
        var values := MapAll(b, rows[1..]).value;
        forall i | 0 <= i < |rows| ensures b.mapRow(rows[i]) == Some(MapAll(b, rows).value[i]) {
          assert i > 0 ==> rows[i] == rows[1..][i - 1];
        }
      }
    }
  }

  // ----------------------------------------------------------- effects over a run

  /** The database after applying, in strand order, the effects of the calls marked as applied. */
  function Replay<T>(b: Backend<T>, db: Db, calls: seq<Call>, log: seq<Entry<T>>, applied: seq<bool>): Option<Db>
    requires |applied| == |log| && forall k :: 0 <= k < |log| ==> log[k].id < |calls|
  {
    if log == [] then Some(db)
    else
      var n := |log| - 1;
      match Replay(b, db, calls, log[..n], applied[..n])
      case None => None
      case Some(before) =>
        if !applied[n] then Some(before)
        else
          match b.exec(before, calls[log[n].id].query)
          case Rows(after, _) => Some(after)
          case _ => None
  }

  /** Which entries of the log had their effect applied, as their results record it. */
  function AppliedIn<T(!new)>(calls: seq<Call>, st: State<T>): seq<bool>
    requires Queueing(calls, st)
  {
    seq(|st.log|, k requires 0 <= k < |st.log| => st.stages[st.log[k].id].turn.applied)
  }

  ghost predicate IsReplay<T(!new)>(b: Backend<T>, db: Db, calls: seq<Call>, st: State<T>)
    requires Queueing(calls, st)
  {
    Replay(b, db, calls, st.log, AppliedIn(calls, st)) == Some(st.db)
  }

  lemma StepKeepsReplay<T(!new)>(b: Backend<T>, db: Db, calls: seq<Call>, st: State<T>, ev: Event<T>)
    requires Queueing(calls, st) && IsReplay(b, db, calls, st) && Enabled(calls, st, ev)
    requires Queueing(calls, Next(b, calls, st, ev))
    ensures IsReplay(b, db, calls, Next(b, calls, st, ev))
  {
    var t := Next(b, calls, st, ev);
    match ev
    case Turn(env) =>
      var n := |st.log|;
      var id := st.strand[0];
      assert t.log[..n] == st.log;
      assert forall k :: 0 <= k < n ==> st.log[k].id != id;
      assert AppliedIn(calls, t)[..n] == AppliedIn(calls, st);
      OutcomeVersusEffect(b, st.db, calls[id].kind, calls[id].query, env);
    case _ =>
      assert AppliedIn(calls, t) == AppliedIn(calls, st);
  }

  lemma {:induction false} RunKeepsReplay<T(!new)>(b: Backend<T>, db: Db, calls: seq<Call>, st: State<T>, evs: seq<Event<T>>)
    requires Queueing(calls, st) && IsReplay(b, db, calls, st) && Legal(b, calls, st, evs)
    ensures Queueing(calls, Run(b, calls, st, evs)) && IsReplay(b, db, calls, Run(b, calls, st, evs))
    decreases |evs|
  {
    if evs != [] {
      StepKeepsQueueing(b, calls, st, evs[0]);
      StepKeepsReplay(b, db, calls, st, evs[0]);
      RunKeepsReplay(b, db, calls, Next(b, calls, st, evs[0]), evs[1..]);
    }
  }

  /** In every run, cells shared or not: each call runs at most once, and the
      database is the initial one with the queries of exactly the calls marked as
      applied, each once, in strand order. */
  lemma EffectsAreExact<T(!new)>(b: Backend<T>, db: Db, calls: seq<Call>, evs: seq<Event<T>>)
    requires Legal(b, calls, Init(db, calls), evs)
    ensures var st := Run(b, calls, Init(db, calls), evs);
            Queueing(calls, st) && LogIsTrue(evs, st.log) && IsReplay(b, db, calls, st)
  {
    InitHolds(b, db, calls);
    RunKeepsReplay(b, db, calls, Init(db, calls), evs);
    LogFollowsEvents(b, db, calls, evs);
  }
}
