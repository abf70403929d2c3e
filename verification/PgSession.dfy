/** `PgSession` and the error cells its callers share, as objects. Each of the
    three calls is split where it waits for the strand. */
module PgSessions {
  import opened Prelude
  import opened PgProtocol
  import Users

  /** The `shared_ptr<error_code>` of a caller; two callers may hold the same one. */
  class ErrorCell {
    var code: ErrorCode

    constructor ()
      ensures code == NoError
    {
      code := NoError;
    }
  }

  /** What is already in the result list, followed by what the rest of the rows maps to. */
  function Prefixed<T>(done: seq<T>, rest: Option<seq<T>>): (all: Option<seq<T>>)
    ensures done == [] ==> all == rest
    ensures rest == Some([]) ==> all == Some(done)
  {
    match rest
    case Some(values) =>
      assert done == [] ==> done + values == values;
      assert values == [] ==> done + values == done;
      Some(done + values)
    case None => None
  }

  lemma PushedBack<T>(done: seq<T>, value: T, rest: Option<seq<T>>)
    ensures Prefixed(done + [value], rest)
         == Prefixed(done, match rest case Some(values) => Some([value] + values) case None => None)
  {
    if rest.Some? {
      assert (done + [value]) + rest.value == done + ([value] + rest.value);
    }
  }

  class PgSession<T(!new)> {
    const backend: Backend<T>
    var db: Db

    constructor (backend: Backend<T>, db: Db)
      ensures this.backend == backend && this.db == db
    {
      this.backend, this.db := backend, db;
    }

    /** What a call does before it waits for the strand. */
    method Enter(ec: ErrorCell)
      modifies ec
      ensures ec.code == NoError
    {
      ec.code := NoError;
    }

    /** `pqxx::work`, `exec`, `commit`; `None` when one of them throws, with the code the handler sets. */
    method RunTransaction(query: Bytes, fault: Fault, ec: ErrorCell) returns (rows: Option<seq<Users.Row>>)
      modifies this`db, ec
      ensures match Transact(backend, old(db), query, fault)
              case Committed(after, all) => db == after && ec.code == old(ec.code) && rows == Some(all)
              case Failed(code, after) => db == after && ec.code == code && rows == None
    {
      rows := None;
      if fault.BeginBreaks? || fault.ExecBreaks? {
        ec.code := Canceled;
        return;
      }
      match backend.exec(db, query)
      case SqlError =>
        ec.code := BadMessage;
      case Broken =>
        ec.code := Canceled;
      case Rows(after, all) =>
        if fault.CommitSqlError? {
          ec.code := BadMessage;
        } else if fault.CommitBreaks? {
          ec.code := Canceled;
        } else if fault.CommitInDoubt? {
          ec.code := Canceled;
          db := if fault.applied then after else db;
        } else {
          db := after;
          rows := Some(all);
        }
    }

    /** `async_execute` on the strand: all rows, or none. */
    method ExecuteTurn(query: Bytes, ec: ErrorCell, env: Env<T>) returns (answer: Answer<T>)
      modifies this`db, ec
      ensures var t := TurnOf(backend, old(db), ManyRows, query, old(ec.code), env);
              db == t.db && ec.code == t.code && answer == t.answer
    {
      if ec.code != NoError || !env.open {
        return Nothing;
      }
      var rows := RunTransaction(query, env.fault, ec);
      if rows.None? {
        return Nothing;
      }
      var results: seq<T> := [];
      assert rows.value[0..] == rows.value;
      for i := 0 to |rows.value|
        modifies ec
        invariant ec.code == NoError
        invariant MapAll(backend, rows.value) == Prefixed(results, MapAll(backend, rows.value[i..]))
      {
        assert rows.value[i..][0] == rows.value[i] && rows.value[i..][1..] == rows.value[i + 1..];
        var mapped := backend.mapRow(rows.value[i]);
        if mapped.None? {
          ec.code := Canceled;
          return Nothing;
        }
        PushedBack(results, mapped.value, MapAll(backend, rows.value[i + 1..]));
        results := results + [mapped.value];
      }
      assert MapAll(backend, rows.value) == Some(results);
      answer := Values(results);
    }

    /** `async_execute_single_res` on the strand: the row count is checked after the commit. */
    method SingleTurn(query: Bytes, ec: ErrorCell, env: Env<T>) returns (answer: Answer<T>)
      modifies this`db, ec
      ensures var t := TurnOf(backend, old(db), OneRow, query, old(ec.code), env);
              db == t.db && ec.code == t.code && answer == t.answer
    {
      if ec.code != NoError || !env.open {
        return Nothing;
      }
      var rows := RunTransaction(query, env.fault, ec);
      if rows.None? {
        return Nothing;
      }
      if |rows.value| > 1 {
        ec.code := BadMessage;
        return Nothing;
      }
      var mapped := if rows.value == [] then env.frontOfEmpty else backend.mapRow(rows.value[0]);
      if mapped.None? {
        ec.code := Canceled;
        return Nothing;
      }
      answer := Value(mapped.value);
    }

    /** `async_execute_no_res` on the strand. */
    method NoResTurn(query: Bytes, ec: ErrorCell, env: Env<T>)
      modifies this`db, ec
      ensures var t := TurnOf(backend, old(db), NoRows, query, old(ec.code), env);
              db == t.db && ec.code == t.code && t.answer == Done
    {
      if ec.code != NoError || !env.open {
        return;
      }
      var rows := RunTransaction(query, env.fault, ec);
    }
  }

  /** Callers, their cells and the strand: the objects follow every run of the state machine. */
  class PgDriver<T(!new)> {
    const session: PgSession<T>
    const calls: seq<Call>
    const cells: seq<ErrorCell>
    var strand: seq<nat>
    ghost var stages: seq<Stage<T>>
    ghost var log: seq<Entry<T>>
    ghost var order: seq<nat>

    /** The state of the machine these objects are in. */
    ghost predicate Shows(st: State<T>)
      reads this, session, cells
    {
      && (forall i, j :: 0 <= i < j < |cells| ==> cells[i] != cells[j])
      && (forall i :: 0 <= i < |calls| ==> calls[i].cell < |cells|)
      && st.db == session.db && st.stages == stages && st.strand == strand && st.log == log && st.order == order
      && (forall i :: 0 <= i < |cells| ==> CodeIn(st.cells, i) == cells[i].code)
    }

    constructor (session: PgSession<T>, calls: seq<Call>, cells: seq<ErrorCell>)
      requires forall i, j :: 0 <= i < j < |cells| ==> cells[i] != cells[j]
      requires forall i :: 0 <= i < |calls| ==> calls[i].cell < |cells|
      requires forall i :: 0 <= i < |cells| ==> cells[i].code == NoError
      ensures this.session == session && this.calls == calls && this.cells == cells
      ensures Shows(Init(session.db, calls))
    {
      this.session, this.calls, this.cells := session, calls, cells;
      this.strand := [];
      this.stages, this.log, this.order := Init<T>(session.db, calls).stages, [], [];
    }

    method BeginCall(id: nat, ghost st: State<T>)
      requires Shows(st) && Enabled(calls, st, Begin(id))
      modifies this, cells
      ensures Shows(Next(session.backend, calls, st, Begin(id)))
    {
      session.Enter(cells[calls[id].cell]);
      stages := stages[id := Cleared];
    }

    method PostCall(id: nat, ghost st: State<T>)
      requires Shows(st) && Enabled(calls, st, Post(id))
      modifies this
      ensures Shows(Next(session.backend, calls, st, Post(id)))
    {
      stages := stages[id := Queued];
      strand := strand + [id];
      order := order + [id];
    }

    /** The strand runs the body of the call at its front. */
    method RunFront(env: Env<T>, ghost st: State<T>) returns (answer: Answer<T>)
      requires Shows(st) && Enabled(calls, st, Turn(env))
      modifies this, session, cells
      ensures Shows(Next(session.backend, calls, st, Turn(env)))
      ensures Next(session.backend, calls, st, Turn(env)).stages[st.strand[0]].turn.answer == answer
    {
      var id := strand[0];
      var call := calls[id];
      var ec := cells[call.cell];
      ghost var turn := TurnOf(session.backend, session.db, call.kind, call.query, ec.code, env);
      match call.kind {
        case ManyRows => answer := session.ExecuteTurn(call.query, ec, env);
        case OneRow => answer := session.SingleTurn(call.query, ec, env);
        case NoRows =>
          session.NoResTurn(call.query, ec, env);
          answer := Done;
      }
      strand := strand[1..];
      stages := stages[id := Finished(turn)];
      log := log + [Entry(id, env)];
    }

    method Play(evs: seq<Event<T>>, ghost st: State<T>)
      requires Shows(st) && Legal(session.backend, calls, st, evs)
      modifies this, session, cells
      ensures Shows(Run(session.backend, calls, st, evs))
    {
      ghost var now := st;
      for i := 0 to |evs|
        invariant Shows(now) && Legal(session.backend, calls, now, evs[i..])
        invariant Run(session.backend, calls, now, evs[i..]) == Run(session.backend, calls, st, evs)
      {
        assert evs[i..][0] == evs[i] && evs[i..][1..] == evs[i + 1..];
        match evs[i] {
          case Begin(id) => BeginCall(id, now);
          case Post(id) => PostCall(id, now);
          case Turn(env) => var answer := RunFront(env, now);
        }
        now := Next(session.backend, calls, now, evs[i]);
      }
    }
  }
}
