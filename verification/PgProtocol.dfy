/** Database calls of concurrent coroutines on one session. Each call clears
    its error cell, is queued on the session's strand, and later runs its body
    there; nothing else runs on the strand meanwhile. */
module PgProtocol {
  import opened Prelude
  import Users

  type Db(!new)

  // ------------------------------------------------------------ one transaction

  /** What the server does with a query, transaction not yet committed. */
  datatype Execution = Rows(db: Db, rows: seq<Users.Row>) | SqlError | Broken

  /** The database server and the row mapper of the entity asked for. */
  datatype Backend<!T> = Backend(exec: (Db, Bytes) -> Execution, mapRow: Users.Row -> Option<T>)

  /** Failures outside the query: connection lost before, during or at the end
      of the transaction, a commit refused, a commit whose outcome is unknown. */
  datatype Fault = NoFault | BeginBreaks | ExecBreaks | CommitSqlError | CommitBreaks | CommitInDoubt(applied: bool)

  datatype ErrorCode = NoError | BadMessage | Canceled

  datatype Transaction = Committed(db: Db, rows: seq<Users.Row>) | Failed(code: ErrorCode, db: Db)

  /** `work`, `exec`, `commit`, and the handler that catches what they throw. */
  function Transact<T>(b: Backend<T>, db: Db, query: Bytes, fault: Fault): Transaction {
    if fault.BeginBreaks? || fault.ExecBreaks? then Failed(Canceled, db)
    else
      match b.exec(db, query)
      case SqlError => Failed(BadMessage, db)
      case Broken => Failed(Canceled, db)
      case Rows(after, rows) =>
        match fault
        case CommitSqlError => Failed(BadMessage, db)
        case CommitBreaks => Failed(Canceled, db)
        case CommitInDoubt(applied) => Failed(Canceled, if applied then after else db)
        case _ => Committed(after, rows)
  }

  // ------------------------------------------------------------------- one call

  datatype Kind = ManyRows | OneRow | NoRows

  datatype Answer<+T> = Values(values: seq<T>) | Value(value: T) | Nothing | Done

  /** What surrounds a call when its body runs: whether the connection is open,
      what fails, and what the library makes of the front row of an empty result. */
  datatype Env<+T> = Env(open: bool, fault: Fault, frontOfEmpty: Option<T>)

  /** The end of a call. `skipped` and `applied` are its history: whether the
      pre-check stopped it, and whether its effect is in the database. */
  datatype Turned<+T> = Turned(db: Db, code: ErrorCode, answer: Answer<T>, skipped: bool, applied: bool)

  /** All rows mapped in order; `None` as soon as one does not map. */
  function MapAll<T>(b: Backend<T>, rows: seq<Users.Row>): Option<seq<T>> {
    if rows == [] then Some([])
    else
      match (b.mapRow(rows[0]), MapAll(b, rows[1..]))
      case (Some(value), Some(values)) => Some([value] + values)
      case _ => None
  }

  /** What a call returns when it has no result: an empty optional, or nothing at all. */
  function NoAnswer<T>(kind: Kind): Answer<T> {
    if kind.NoRows? then Done else Nothing
  }

  function AnswerOf<T>(b: Backend<T>, db: Db, kind: Kind, rows: seq<Users.Row>, env: Env<T>): Turned<T> {
    match kind
    case ManyRows =>
      (match MapAll(b, rows)
       case Some(values) => Turned(db, NoError, Values(values), false, true)
       case None => Turned(db, Canceled, Nothing, false, true))
    case OneRow =>
      if |rows| > 1 then Turned(db, BadMessage, Nothing, false, true)
      else (match if rows == [] then env.frontOfEmpty else b.mapRow(rows[0])
            case Some(value) => Turned(db, NoError, Value(value), false, true)
            case None => Turned(db, Canceled, Nothing, false, true))
    case NoRows => Turned(db, NoError, Done, false, true)
  }

  /** The body of a call on the strand, its error cell holding `code`. */
  function TurnOf<T>(b: Backend<T>, db: Db, kind: Kind, query: Bytes, code: ErrorCode, env: Env<T>): Turned<T> {
    if code != NoError then Turned(db, code, NoAnswer(kind), true, false)
    else if !env.open then Turned(db, NoError, NoAnswer(kind), false, false)
    else
      match Transact(b, db, query, env.fault)
      case Failed(code', db') => Turned(db', code', NoAnswer(kind), false, env.fault == CommitInDoubt(true) && b.exec(db, query).Rows?)
      case Committed(db', rows) => AnswerOf(b, db', kind, rows, env)
  }

  // ------------------------------------------------------------- concurrent calls

  /** A call and the error cell its caller passed. */
  datatype Call = Call(kind: Kind, query: Bytes, cell: nat)

  datatype Stage<+T> = Idle | Cleared | Queued | Finished(turn: Turned<T>)

  /** One body run on the strand. */
  datatype Entry<+T> = Entry(id: nat, env: Env<T>)

  datatype State<+T> = State(
    db: Db, cells: map<nat, ErrorCode>, stages: seq<Stage<T>>, strand: seq<nat>,
    log: seq<Entry<T>>, order: seq<nat>)

  datatype Event<+T> = Begin(id: nat) | Post(id: nat) | Turn(env: Env<T>)

  function Init<T>(db: Db, calls: seq<Call>): State<T> {
    State(db, map[], seq(|calls|, i => Idle), [], [], [])
  }

  function CodeIn(cells: map<nat, ErrorCode>, cell: nat): ErrorCode {
    if cell in cells then cells[cell] else NoError
  }

  predicate Enabled<T(!new)>(calls: seq<Call>, st: State<T>, ev: Event<T>) {
    |st.stages| == |calls|
    && match ev
       case Begin(id) => id < |calls| && st.stages[id].Idle?
       case Post(id) => id < |calls| && st.stages[id].Cleared?
       case Turn(_) => st.strand != [] && st.strand[0] < |calls|
  }

  function Next<T(!new)>(b: Backend<T>, calls: seq<Call>, st: State<T>, ev: Event<T>): State<T>
    requires Enabled(calls, st, ev)
  {
    match ev
    case Begin(id) =>
      st.(cells := st.cells[calls[id].cell := NoError], stages := st.stages[id := Cleared])
    case Post(id) =>
      st.(stages := st.stages[id := Queued], strand := st.strand + [id], order := st.order + [id])
    case Turn(env) =>
      var id := st.strand[0];
      var call := calls[id];
      var t := TurnOf(b, st.db, call.kind, call.query, CodeIn(st.cells, call.cell), env);
      st.(db := t.db, cells := st.cells[call.cell := t.code], stages := st.stages[id := Finished(t)],
          strand := st.strand[1..], log := st.log + [Entry(id, env)])
  }

  predicate Legal<T(!new)>(b: Backend<T>, calls: seq<Call>, st: State<T>, evs: seq<Event<T>>)
    decreases |evs|
  {
    evs == [] || (Enabled(calls, st, evs[0]) && Legal(b, calls, Next(b, calls, st, evs[0]), evs[1..]))
  }

  function Run<T(!new)>(b: Backend<T>, calls: seq<Call>, st: State<T>, evs: seq<Event<T>>): State<T>
    requires Legal(b, calls, st, evs)
    decreases |evs|
  {
    if evs == [] then st else Run(b, calls, Next(b, calls, st, evs[0]), evs[1..])
  }

  // ----------------------------------------------------------- one call at a time

  datatype Serial<+T> = Serial(db: Db, turns: seq<Turned<T>>)

  /** The reference: the calls of a log run alone, one after the other, each with its cell just cleared. */
  function SerialRun<T>(b: Backend<T>, db: Db, calls: seq<Call>, log: seq<Entry<T>>): (r: Serial<T>)
    requires forall k :: 0 <= k < |log| ==> log[k].id < |calls|
    ensures |r.turns| == |log|
  {
    if log == [] then Serial(db, [])
    else
      var before := SerialRun(b, db, calls, log[..|log| - 1]);
      var entry := log[|log| - 1];
      var call := calls[entry.id];
      var t := TurnOf(b, before.db, call.kind, call.query, NoError, entry.env);
      Serial(t.db, before.turns + [t])
  }
}
