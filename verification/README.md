# Verification of the cyctius server

A Dafny model of a small HTTP and WebSocket server with a PostgreSQL session
behind it, and proofs of what its step protocols guarantee over every
interleaving. The code's objects (sessions, routers, response and request
objects, buffers, database session) are classes whose methods follow the source
statement by statement; each is proved against a function or a state machine on
values, and the theorems are about those.

## The parts

- **The concurrent HTTP server** (`HttpProtocol`, `HttpInvariant`,
  `HttpTheorems`, `HttpDrain`, `HttpServers`). One listener, any number of
  sessions, any number of io and pool threads. The environment decides how bytes
  arrive, which operation completes next, what a handler observes and what fails.
  Proved of every run: the responses a session writes are those of a sequential
  server on a prefix of the requests in its input, whatever the schedule, the
  splitting of the bytes and the other sessions do; each open session has exactly
  one pending activity, so its parser, buffer and socket are never shared although
  the write starts off the strand; nothing is lost or duplicated; runs end and
  drain, and a run in which nothing fails answers every request of every
  connection. The objects of `HttpServers` are proved to follow every run.
- **Database calls** (`PgProtocol`, `PgTheorems`, `PgSessions`). Any number of
  concurrent callers of the three execute variants on one strand: linearisation,
  when a call is skipped, and the exact relation of outcome and effect.
- **The WebSocket session** (`WebsocketProtocol`, `WebsocketSessions`,
  `FlatBuffers`). The recursive read loop over byte-array buffers equals a list
  function on frames; closes may interleave anywhere. Session, buffers and stream
  are proved to follow every such run.
- **What these compose with**: both HTTP routers and the WebSocket router,
  request folding, response building with its fallback, the JSON printer and
  parser, the mappers, and the two handlers end to end (`Hello`). `JsonGrammar`
  writes out the grammar of RFC 8259 as syntax trees that know neither printer nor
  parser, and `JsonExact` proves the parser exact for it; UTF-8 is proved to be
  the encoding of RFC 3629.

## How the source is read

- A callback is one step: what it does to its session comes before the call that
  starts the next operation, and the strand orders the callbacks of one session.
  The write, started on a pool thread, is a step of its own.
- The request parser is any function from the bytes consumed so far to *more*,
  *done* or *malformed*. It stops at the first prefix that is not *more*, so
  framing is prefix-free by construction. The body limit is part of *malformed*.
- A handler is any function of the request and of what it observes (`World`: the
  clock and the answer of the database); it may return a response, null, or throw.
  The same holds of WebSocket handlers.
- A pool of `n` threads runs at most `n` jobs at a time: that is how the step by
  which a thread takes a job is defined.
- After `co_await post(m_strand, ...)` a database call runs on the strand alone
  until it ends. Whether the connection is open and what fails in a transaction
  are up to the environment. A row that does not map is not an SQL error.
- In the WebSocket session the open check and the close that follows are one step.
  On a stream that is not open the library's reads and writes fail.

## What the proofs found

- `get_ip_port` throws when the socket has no peer, and in the accept handler it
  runs before the error code is looked at. A failed accept therefore always ends
  the process: the branch that logs it and accepts again is never taken
  (`HttpDrain.FailedAcceptStrandsSessions`). The same lookup in the two close
  paths can end the process too. `HttpDrain.MaximalRunsDrain` is exact about it:
  the server drains if and only if none of these lookups failed in the run; and
  `HttpDrain.DrainsIffAcceptsSucceed` puts it on the input: when nothing fails, it
  drains if and only if no arrival is a failed accept.
- Two database calls that share an error cell can make the second one skip:
  no run skips a call if and only if no cell is shared
  (`PgTheorems.SkipFreeIffUnshared`).
- `async_execute_single_res` reports `bad_message` for too many rows after the
  commit, and a row that does not map is reported after the commit as well
  (`PgTheorems.OutcomeVersusEffect`). An empty optional with a clear error code
  means that the connection was closed.
- The error responses built from string literals carry the JSON text `null`, not
  their message: a literal has type `const char*`, for which only the default
  mapper exists (`HttpResponses.LiteralBuilds`).
- The content-type member of a request and its entry in the header map differ
  exactly when the first and last such lines differ (`HttpRequests.ContentTypeAgrees`).
- Payloads reach the WebSocket handler byte for byte exactly when the read buffer
  starts empty; bytes read ahead by the HTTP side would go in front of the first
  (`WebsocketProtocol.PayloadsAreExact`).

## Model

| member | source | states |
|---|---|---|
| HttpTheorems.RefinesSequentialServer | src/core/async/http_session.cpp:18-93 | in every run and for every session: it serves the arrival of its own number, its handlers got a prefix of the requests in its input in order, and what it wrote, one response per completed write, is the sequential server's answers to a prefix of them, each in the world the events gave its own job |
| HttpTheorems.RecordsAreTrue | src/core/async/http_session.cpp:58-70 | handlers observed exactly what the events of their jobs gave them, job after job, and as many responses were written as writes completed |
| HttpTheorems.JobsStartInOrder | src/core/async/http_session.cpp:58-60 | over any run the jobs started are the jobs posted, of all sessions, in order, up to those still queued |
| HttpTheorems.CleanCloseAnswersAll | src/core/async/http_session.cpp:66-91 | a session closed without an I/O error has answered every request up to the first that ends the connection, the first malformed one or the end of the stream |
| HttpTheorems.SameBytesSameService | src/core/async/http_session.cpp:18-93 | two sessions with equal input, in any two runs with any chunking, schedule and other sessions, release the same requests, write the same response wherever their jobs were given the same world, and after clean closes have answered equally many |
| HttpTheorems.BytesAreConserved | src/core/async/http_session.cpp:20-32 | used bytes, bytes at the parser, buffered bytes and unread bytes always make up the input |
| HttpTheorems.ExactlyOneOwner | src/core/async/http_session.cpp:20-92 | in every reachable state an open session has exactly one pending read, job, write or callback, and a closed one has none |
| HttpTheorems.RequestsAreAccounted | src/core/async/http_session.cpp:55-91 | for open and closed sessions alike, released requests not yet routed are exactly the one queued or running job of the session, and writes never outnumber routed requests: posted once, run once, answered by at most one write |
| HttpTheorems.ConnectionsAreConserved | src/core/async/http_server.cpp:45-62 | exactly one accept is pending or being handled, accepted connections are the sessions, and no arrival is lost |
| HttpTheorems.ReachedKeeps | src/core/async/http_session.cpp:18-93 | every state a run reaches satisfies the invariant |
| HttpTheorems.RunMatched | src/core/async/http_server.cpp:45-62 | sessions are created in the order of arrival and keep their input |
| HttpInvariant.StepKeeps | src/core/async/http_session.cpp:18-93 | every step of listener, sessions, pool or network keeps ownership, the session histories and the connection count |
| HttpInvariant.InitHolds | src/core/async/http_server.cpp:24-28 | the armed listener satisfies the invariant |
| HttpInvariant.RunKeeps | src/core/async/http_session.cpp:18-93 | every run keeps the invariant |
| HttpInvariant.OnReadKeeps | src/core/async/http_session.cpp:30-39 | the read callback posts exactly the next request of the reference, or closes a session with nothing left to answer |
| HttpInvariant.RunJobKeeps | src/core/async/http_session.cpp:60-68 | the job answers the request just released and starts its write |
| HttpInvariant.FinishWriteKeeps | src/core/async/http_session.cpp:64-70 | a write that succeeds sends the answer to the latest request; one that fails marks the session |
| HttpInvariant.OnWriteKeeps | src/core/async/http_session.cpp:69-89 | the write callback reads again exactly when the reference has the connection continue |
| HttpInvariant.ReleaseKeeps | src/core/async/http_session.cpp:32 | releasing a request takes exactly the first request off the remaining reference |
| HttpInvariant.ConsumeKeeps | src/core/async/http_session.cpp:24-28 | the parser taking buffered bytes loses none and does not go past the end of a request |
| HttpInvariant.ReceiveKeeps | src/core/async/http_session.h:27-28 | bytes put into the persistent buffer stay in order |
| HttpInvariant.FinishReadKeeps | src/core/async/http_session.cpp:24-40 | a completed read has either a whole request or nothing left to answer, unless the network failed |
| HttpInvariant.AcceptKeeps | src/core/async/http_server.cpp:51-59 | a new session gets one read and the listener one accept |
| HttpDrain.StepDecreases | src/core/async/http_session.cpp:18-93 | every step, keep-alive reads included, decreases the measure |
| HttpDrain.EveryRunIsBounded | src/core/async/http_session.cpp:30-89 | a run is no longer than a bound computed from the bytes of its connections |
| HttpDrain.QuietMeansDrained | src/core/async/http_session.cpp:30-89 | while the process lives, a state in which nothing can happen without a failure has all sessions closed and the queue empty |
| HttpDrain.EveryConnectionIsServed | src/core/async/http_session.cpp:18-93 | in every maximal run without a failure, all arrivals being connections: one session per arrival, in order, each closed with the sequential server's answers to all requests of its input, each in the world its own job was given |
| HttpDrain.DrainsIffAcceptsSucceed | src/core/async/http_server.cpp:45-62 | a maximal run in which nothing fails has drained if and only if no arrival is a failed accept |
| HttpDrain.DrainedServesEveryArrival | src/core/async/http_server.cpp:51-59 | a drained server has one session per arrival, in order, with its input |
| HttpDrain.MaximalRunsDrain | src/core/async/http_session.cpp:30-89 | a run that cannot go on without a further failure has drained if and only if no exception left a callback |
| HttpDrain.CanAlwaysDrain | src/core/async/http_session.cpp:30-89 | when every arrival is a connection, any run in which no exception left a callback can go on, without a further failure, to a drained server |
| HttpDrain.AliveIffNoCrash | src/core/common/socket_utils.h:3-9 | the process is alive after a run if and only if no peer lookup threw in it |
| HttpDrain.FailedAcceptStrandsSessions | src/core/async/http_server.cpp:47-59 | a failed accept ends the process and leaves the connection before it open and unanswered |
| HttpDrain.ParserProgresses | src/core/async/http_session.cpp:24-40 | once all bytes have come, the parser can go on or the read ends |
| HttpProtocol.StopFrom | src/core/async/http_session.cpp:20-32 | the parser stops at the shortest prefix its verdict is final on |
| HttpServers.HttpSession.constructor | src/core/async/http_session.cpp:9-16 | a new session: empty buffer, no parser, open socket, the given router and pool |
| HttpServers.HttpSession.Start | src/core/async/http_session.cpp:43-46 | starting is reading |
| HttpServers.HttpSession.Read | src/core/async/http_session.cpp:18-41 | a fresh parser, the same buffer, a read in flight |
| HttpServers.HttpSession.OnReadDone | src/core/async/http_session.cpp:30-39 | does what the state machine's read callback does to the session, and posts to the pool exactly when that does |
| HttpServers.HttpSession.HandleRequest | src/core/async/http_session.cpp:55-60 | puts one job for this session and request behind whatever the shared pool holds; the session stays as it is |
| HttpServers.HttpSession.RunPosted | src/core/async/http_session.cpp:60-68 | routes the request and starts the write with its keep-alive |
| HttpServers.HttpSession.OnWriteDone | src/core/async/http_session.cpp:69-89 | does what the state machine's write callback does |
| HttpServers.HttpSession.Close | src/core/async/http_session.cpp:48-53 | closes the socket and touches nothing else |
| HttpServers.HttpServer.SetRouter | src/core/async/http_server.cpp:19-22 | sets the router |
| HttpServers.HttpServer.Start | src/core/async/http_server.cpp:24-42 | throws exactly without a router; else the initial state and one thread per configured thread |
| HttpServers.HttpServer.Accept | src/core/async/http_server.cpp:45-46 | arms one accept |
| HttpServers.HttpServer.OnAccept | src/core/async/http_server.cpp:47-60 | the accept callback is the state machine's step, the peer lookup before the error check |
| HttpServers.HttpServer.OnReadReady | src/core/async/http_session.cpp:28-39 | a read callback on the server's objects is the state machine's step, other sessions untouched |
| HttpServers.HttpServer.RunWorker | src/core/async/http_session.cpp:58-92 | running a job on the server's objects is the state machine's step, other sessions untouched |
| HttpServers.HttpServer.OnWritten | src/core/async/http_session.cpp:67-90 | a write callback on the server's objects is the state machine's step, other sessions untouched |
| HttpServers.HttpServer.Dispatch | src/core/async/http_server.cpp:33-37 | every enabled event carried out on the objects is the state machine's step |
| HttpServers.HttpServer.Play | src/core/async/http_server.cpp:24-43 | the objects follow every run of the state machine |
| HttpRouting.FindIsTableLookup | src/core/async/http_router.cpp:39-52 | the scan finds a route exactly when a table ignoring later duplicates has one, and it is that one |
| HttpRouting.FindInExtended | src/core/async/http_router.h:14-24 | one more route changes a lookup only where it failed |
| HttpRouting.FindIsFirst | src/core/async/http_router.cpp:39-52 | the scan succeeds exactly when some route has the verb and path, and finds the first of them |
| HttpRouting.LadderOutcome | src/core/async/http_router.cpp:7-37 | one response always: 500 for a target that does not parse, 400 when no route has the verb and path, else the reply of the first such route's handler, 500 when it returns null or throws; error responses have version 11, date, server name and the body `null` |
| HttpRouting.AddRouteKeepsAnswers | src/core/async/http_router.h:14-24 | registering a route changes no request that already had one |
| HttpRouting.DuplicateRouteIsIgnored | src/core/async/http_router.h:14-24 | registering a taken verb and path changes no request at all |
| HttpRouting.DecoderFailureIs500 | src/core/async/http_router.h:19-22 | a request the body decoder rejects gets a response with status 500 |
| HttpRouting.HandlerSeesItsRoute | src/core/async/http_router.h:18-23 | the handler of a route gets the verb and path of that route with headers, query parameters, content type and body as the raw request says, and what it replies is sent, 500 if it does not |
| HttpRouting.LiteralError | src/core/common/http_response.h:70-84 | the responses made from literals: the status asked for, the two default headers and `null` |
| HttpRouting.HttpRouter.AddRoute | src/core/async/http_router.h:14-24 | appends the decode-then-handle closure; a taken verb and path leaves the table as it was |
| HttpRouting.HttpRouter.GetRouteHandler | src/core/async/http_router.cpp:39-52 | the first route for verb and path, or none |
| HttpRouting.HttpRouter.HandleRequest | src/core/async/http_router.cpp:7-37 | the response of the ladder: 400 without a route, 500 for a bad target, a null or an exception, else the reply of the first matching route's handler |
| HttpRouting.HttpRouterCoro.AddRoute | src/core/coro/http_router_coro.h:19-29 | appends the decode-then-handle closure |
| HttpRouting.HttpRouterCoro.GetRouteHandler | src/core/coro/http_router_coro.cpp:40-52 | the first route for verb and path, or none |
| HttpRouting.HttpRouterCoro.BeginRequest | src/core/coro/http_router_coro.cpp:9-19 | up to the `co_await`: a 400 or 500, or exactly the handler to await |
| HttpRouting.HttpRouterCoro.ResumeRequest | src/core/coro/http_router_coro.cpp:19-38 | after it: the handler's response, or 500 for null and exceptions |
| HttpRouting.HttpRouterCoro.HandleRequest | src/core/coro/http_router_coro.cpp:9-38 | the response of the ladder: 400 without a route, 500 for a bad target, a null or an exception, else the reply of the first matching route's handler |
| HttpRouting.RoutersAgree | src/core/coro/http_router_coro.cpp:9-38 | with the same routes both routers answer every request alike |
| HttpRequests.FromRequest | src/core/common/http_request.h:25-55 | throws exactly when target or body does not decode; else every name in `headers` has its last line's value, every key in `query_params` its first parameter's, the content type is the first such line's or empty, and the rest is the raw request's |
| HttpRequests.TypedIsFold | src/core/common/http_request.h:25-55 | the same of the specification function all routes use |
| HttpRequests.HttpRequest.FoldHeaders | src/core/common/http_request.h:44-46 | the header loop assigns line after line, a later one replacing an earlier one |
| HttpRequests.HttpRequest.FoldParams | src/core/common/http_request.h:48-50 | the query loop emplaces parameter after parameter, a later one never replacing an earlier one |
| HttpRequests.HeaderNames | src/core/common/http_request.h:44-46 | `headers` has exactly the names present |
| HttpRequests.HeadersKeepLast | src/core/common/http_request.h:44-46 | each name has the value of its last line |
| HttpRequests.QueryParamKeys | src/core/common/http_request.h:48-50 | `query_params` has exactly the keys present |
| HttpRequests.QueryParamsKeepFirst | src/core/common/http_request.h:48-50 | each key has the value of its first parameter |
| HttpRequests.FirstLineIsFirst | src/core/common/http_request.h:40-42 | the content type is that of the first such line |
| HttpRequests.ContentTypeAgrees | src/core/common/http_request.h:40-46 | it equals the map entry if and only if the first and last such lines agree |
| HttpResponses.HttpResponse.SetBody | src/core/common/http_response.h:17-19 | sets the body only |
| HttpResponses.HttpResponse.SetHeader | src/core/common/http_response.h:21-23 | sets one header, replacing an earlier value |
| HttpResponses.HttpResponse.SetFields | src/core/common/http_response.h:31-40 | walking the header map in any order gives the defaults overridden by it |
| HttpResponses.HttpResponse.Build | src/core/common/http_response.h:25-52 | terminates with at most one nested fallback and yields what the specification says for every body |
| HttpResponses.HttpResponse.InternalServerError | src/core/common/http_response.h:70-76 | builds with status 500 and no explicit header |
| HttpResponses.HttpResponse.BadRequest | src/core/common/http_response.h:78-84 | builds with status 400 and no explicit header |
| HttpResponses.LiteralBuilds | src/core/common/http_response.h:45-47 | a response built from a literal always builds; its body is `null` |
| HttpResponses.BuildOutcome | src/core/common/response_traits.h:8-22 | a body that serializes goes out with the status and version asked for and parses back at the client; a standard exception gives a bare 500 without the explicit headers; an exception leaves only from a mapper that throws something else |
| HttpResponses.SerializedCarries | src/core/common/response_traits.h:8-54 | a body serializes exactly when its mapper succeeds and all its text is valid UTF-8, and its text parses to its value |
| HttpResponses.ExplicitHeadersWin | src/core/common/http_response.h:31-40 | explicit headers override the defaults, defaults stay where not overridden, nothing else appears |
| PgTheorems.CallsLinearise | src/core/db/pg_session.h:21-124 | if no body was stopped by the pre-check, database and every result are those of the calls one at a time in the order the events post them, each in the surroundings of its own turn |
| PgTheorems.LogFollowsEvents | src/core/db/pg_session.h:27 | body number `k` on the strand is that of the `k`-th call posted, run in the surroundings of the `k`-th turn |
| PgTheorems.UnsharedCallsLinearise | src/core/db/pg_session.h:21-124 | with an error cell per call no call is skipped and every run linearises |
| PgTheorems.SerialIsARun | src/core/db/pg_session.h:21-124 | the sequential reference is itself a run: each call entered, queued and run before the next |
| PgTheorems.SameAsOneAtATime | src/core/db/pg_session.h:21-124 | a concurrent run without skips ends with the database and outcomes of that run |
| PgTheorems.SkipsNeedSharedFailure | src/core/db/pg_session.h:29-31 | a call is skipped only after another call on its cell ran and failed |
| PgTheorems.SharedCellSkips | src/core/db/pg_session.h:23-31 | for any two calls on one cell there is a run in which the second is skipped with the error of the first, though alone it would have had its effect |
| PgTheorems.SkipFreeIffUnshared | src/core/db/pg_session.h:23-31 | no run skips a call if and only if no two calls share a cell |
| PgTheorems.OutcomeVersusEffect | src/core/db/pg_session.h:36-53 | answer, code and effect of each variant in every case: effect exactly once or not at all; a value exactly when the transaction commits and the rows map, and then what they map to; `bad_message` exactly for an SQL error or a refused commit, without effect, or too many rows, with it; `operation_canceled` exactly for a broken connection, without it, or a row that does not map or a commit in doubt, with it |
| PgTheorems.ResultsMeanEffects | src/core/db/pg_session.h:29-53 | a result means applied without error; an empty optional with a clear code means exactly that the connection was closed |
| PgTheorems.SkippedChangesNothing | src/core/db/pg_session.h:29-31 | a call that finds an error in its cell touches nothing and reports that error |
| PgTheorems.UnmappableRowIsCommitted | src/core/db/pg_session.h:38-42 | all rows mapped in order, or no list at all exactly when some row does not map, the effect committed either way |
| PgTheorems.MapAllIsPointwise | src/core/db/pg_session.h:40-42 | the row loop succeeds exactly when every row maps, and maps each |
| PgTheorems.EffectsAreExact | src/core/db/pg_session.h:21-124 | in every run each call runs at most once, and the database is the first one with exactly the queries recorded as applied, in strand order |
| PgTheorems.StepKeepsQueueing | src/core/db/pg_session.h:27 | the strand is first in, first out, and holds no call twice |
| PgSessions.PgSession.Enter | src/core/db/pg_session.h:23 | clears the error cell |
| PgSessions.PgSession.RunTransaction | src/core/db/pg_session.h:36-38 | begin, execute, commit and the two exception handlers |
| PgSessions.PgSession.ExecuteTurn | src/core/db/pg_session.h:29-55 | the body of `async_execute` with its row loop has the specified database, code and result |
| PgSessions.PgSession.SingleTurn | src/core/db/pg_session.h:65-92 | the same for `async_execute_single_res`, rows counted after the commit |
| PgSessions.PgSession.NoResTurn | src/core/db/pg_session.h:101-123 | the same for `async_execute_no_res` |
| PgSessions.PgDriver.BeginCall | src/core/db/pg_session.h:23 | entering a call on the objects is the state machine's step |
| PgSessions.PgDriver.PostCall | src/core/db/pg_session.h:27 | queueing a call on the objects is the state machine's step |
| PgSessions.PgDriver.RunFront | src/core/db/pg_session.h:27-56 | running the body at the front of the strand is the state machine's step and returns that caller's answer |
| PgSessions.PgDriver.Play | src/core/db/pg_session.h:21-124 | the objects, shared cells included, follow every run |
| WebsocketProtocol.LoopRefinesListFunction | src/core/coro/websocket_session.cpp:79-104 | over every run with closes and failures anywhere: data frames sent are a prefix of the list function on the first frames, each handler call observing what its event gives it, all of it at every loop head; every frame is handled once the loop waits with none left; the read buffer is empty at every later loop head |
| WebsocketProtocol.UndisturbedAnswersAll | src/core/coro/websocket_session.cpp:97-103 | no null reply, no frame and no handler exception ends the loop: a run that nothing closes or breaks goes on until every frame is handled, and then every reply is sent |
| WebsocketProtocol.PayloadsAreExact | src/core/coro/websocket_session.cpp:93-96 | payloads are the frames byte for byte if and only if the buffer started empty or no frame came |
| WebsocketProtocol.CloseTakesEffect | src/core/coro/websocket_session.cpp:106-115 | whenever a close is called on an open stream, exactly one close frame goes out and nothing after it; on any other it changes nothing |
| WebsocketProtocol.CloseIsFinal | src/core/coro/websocket_session.cpp:106-115 | at most one close is issued, nothing follows a close frame, and the stream is not open after it |
| WebsocketProtocol.StepOnStream | src/core/coro/websocket_session.cpp:79-127 | what each other step puts on the wire, when it leaves the stream open and when it ends the loop |
| WebsocketProtocol.NothingAfterClose | src/core/coro/websocket_session.cpp:106-127 | once the stream is not open it stays so, nothing more is sent and no close issued |
| WebsocketProtocol.StepKeepsLoop | src/core/coro/websocket_session.cpp:79-104 | every step keeps payloads taken, replies sent, replies owed and both buffers consistent |
| WebsocketProtocol.StepKeepsClose | src/core/coro/websocket_session.cpp:106-115 | every step keeps one close frame at most, last on the wire |
| WebsocketProtocol.RepliesConcat | src/core/coro/websocket_session.cpp:97-103 | the replies to two lists of frames, one after the other, are the replies to both |
| WebsocketProtocol.OneTurn | src/core/coro/websocket_session.cpp:97-103 | one turn of the loop adds the reply of its frame in front of the rest |
| WebsocketSessions.WebsocketSession.constructor | src/core/coro/websocket_session.cpp:11-22 | takes the given buffer as read buffer, the write buffer starts empty |
| WebsocketSessions.WebsocketSession.TakeMessage | src/core/coro/websocket_session.cpp:80-95 | from an open stream, a copy of buffer and frame with the read buffer empty afterwards; nothing changes when the read fails, as it does on a closed stream |
| WebsocketSessions.WebsocketSession.FillWriteBuffer | src/core/coro/websocket_session.cpp:122-125 | the write buffer holds exactly the message, whatever it held before |
| WebsocketSessions.WebsocketSession.SendWriteBuffer | src/core/coro/websocket_session.cpp:127 | sends exactly the write buffer, or throws: always on a stream that is not open |
| WebsocketSessions.WebsocketSession.AsyncWrite | src/core/coro/websocket_session.cpp:117-128 | null sends nothing; else the write buffer equals the message and exactly it is sent, on an open stream only |
| WebsocketSessions.WebsocketSession.AnswerFrame | src/core/coro/websocket_session.cpp:93-101 | one turn: the payload copied out, routed, and its reply, if not null, sent |
| WebsocketSessions.WebsocketSession.AsyncRead | src/core/coro/websocket_session.cpp:79-104 | on an open stream the recursion sends what the list function yields, cut where a write fails and then throwing, read buffer empty and write buffer the last reply; on a closed one it sends nothing |
| WebsocketSessions.WebsocketSession.AsyncWait | src/core/coro/websocket_session.cpp:52-77 | a refused handshake or unparsable target sends nothing, else the loop runs on the target's path and no exception escapes |
| WebsocketSessions.WebsocketSession.AsyncClose | src/core/coro/websocket_session.cpp:106-115 | closes once; on a stream not open it changes nothing |
| WebsocketSessions.SentIsDelivered | src/core/coro/websocket_session.cpp:97-103 | what the loop puts on the wire is the replies up to the first failed write, each as one data frame, and after all of them the answer to the peer's close |
| WebsocketSessions.WebsocketDriver.FrameArrived | src/core/coro/websocket_session.cpp:80-97 | the loop resuming with a message is the state machine's step |
| WebsocketSessions.WebsocketDriver.ReadEnded | src/core/coro/websocket_session.cpp:82-90 | the loop resuming with a read error is the state machine's step |
| WebsocketSessions.WebsocketDriver.HandlerFinished | src/core/coro/websocket_session.cpp:97-125 | the loop resuming after the handler, with the write buffer filled or the next read started, is the state machine's step |
| WebsocketSessions.WebsocketDriver.SendFinished | src/core/coro/websocket_session.cpp:100-103 | the loop resuming after a write, or ended by its exception, is the state machine's step |
| WebsocketSessions.WebsocketDriver.Closed | src/core/coro/websocket_session.cpp:106-115 | the separately spawned close is the state machine's step at any stage of the loop |
| WebsocketSessions.WebsocketDriver.Play | src/core/coro/websocket_session.cpp:30-128 | session, byte-array buffers and stream follow every run, closes interleaved anywhere |
| FlatBuffers.FlatBuffer.Read | src/core/coro/websocket_session.cpp:92-94 | a copy of the readable bytes |
| FlatBuffers.FlatBuffer.Clear | src/core/coro/websocket_session.cpp:95 | no readable bytes, same array |
| FlatBuffers.FlatBuffer.Prepare | src/core/coro/websocket_session.cpp:123 | room for the message; readable bytes unchanged through compaction and reallocation |
| FlatBuffers.FlatBuffer.CopyIn | src/core/coro/websocket_session.cpp:124 | the writable area holds the message, readable bytes unchanged |
| FlatBuffers.FlatBuffer.Commit | src/core/coro/websocket_session.cpp:125 | moves the end of the readable bytes by at most what is writable |
| FlatBuffers.FlatBuffer.Append | src/core/coro/websocket_session.cpp:123-125 | prepare, copy and commit append exactly the message |
| WebsocketRouting.FirstRegistrationWins | src/core/coro/websocket_router.h:20-29 | a path has the handler of its first registration |
| WebsocketRouting.PathsRegistered | src/core/coro/websocket_router.cpp:35-46 | lookup succeeds exactly for registered paths |
| WebsocketRouting.RepliesComeFromFirst | src/core/coro/websocket_router.cpp:15-32 | a reply comes exactly from the first registered handler of the path when it returns one; no route, null and exceptions give none |
| WebsocketRouting.EmplaceOne | src/core/coro/websocket_router.h:20-29 | one more registration only adds a path not yet there |
| WebsocketRouting.WebsocketRouter.AddRoute | src/core/coro/websocket_router.h:19-30 | `emplace` of the decode-then-handle closure; the map stays the one all registrations so far yield |
| WebsocketRouting.WebsocketRouter.GetRouteHandler | src/core/coro/websocket_router.cpp:35-46 | after any sequence of `add_route` calls, a handler exactly for a registered path, and the one registered first |
| WebsocketRouting.WebsocketRouter.HandleRequest | src/core/coro/websocket_router.cpp:10-33 | the handler's message; no reply without a route, for null and for exceptions |
| Messages.CodecRoundTrip | src/core/common/websocket_message.h:8-33 | a message encodes exactly when its text is valid UTF-8, and decoding gives it back |
| Messages.DecodesExactly | src/message.h:20-26 | a frame decodes to a message exactly when it is, by the grammar, a JSON document of an object whose last member named "message" is a string of that text |
| Messages.SpacedFrame | src/core/common/websocket_content_traits.h:23-34 | white space between the tokens of a frame makes no difference |
| Messages.MessageBytes | src/core/common/websocket_content_traits.h:12-21 | the bytes of every encoded message |
| Messages.EchoBytes | src/hello_route.cpp:43-51 | the bytes of a plain frame and of its echo |
| Messages.DecodedIsValid | src/core/common/websocket_content_traits.h:23-34 | whatever bytes it was decoded from, a message has valid text |
| Messages.EchoAnswers | src/hello_route.cpp:43-51 | a frame is answered exactly when it decodes, and the answer decodes to its echo |
| Messages.InvalidTextFails | src/core/common/websocket_content_traits.h:12-21 | text that is not UTF-8 makes the printer throw |
| Hello.EchoReply | src/core/coro/websocket_router.h:20-29 | a router with the `/hello_ws` route replies to a frame exactly when it decodes, with its echo |
| Hello.EchoEndToEnd | src/hello_route.cpp:43-51 | on `/hello_ws` the replies are one per decodable frame, in order, each "Echo: " and its text |
| Hello.EchoOverRuns | src/core/coro/websocket_session.cpp:79-104 | over every run of the session the data frames are the echoes of the first messages in order, of all once all frames are taken |
| Hello.RunHelloJson | src/hello_route.cpp:23-41 | the handler answers 400 for a null request and without a list, and else builds the list's JSON |
| Hello.UsersResponse | src/hello_route.cpp:34-40 | status 200 with the bytes of the list, which parse back to exactly the users; a bare 500 as soon as one name is not valid UTF-8; a bare 400 without a list |
| Hello.RowsToJson | src/core/db/pg_session.h:40-55 | from rows to the client: 200 and one entry per row in row order; 400 exactly when a row does not map; 500 exactly when a name is bad |
| Hello.UserRowsToJson | src/user.h:13-22 | with the program's row mapper: the entries are exactly the id, name and age columns of the rows, in row order; 400 exactly when a row lacks one or it does not convert |
| Hello.MappedIsRow | src/user.h:13-22 | a row maps exactly when its three columns are there and convert, and then to a user equal to them |
| Users.MapUsers | src/user.h:38-51 | the accumulation loop yields the array of all users in order |
| Users.UserFields | src/user.h:25-35 | the object has its three members in key order, whatever order they were set in |
| Users.UserRoundTrip | src/user.h:25-35 | id, name and age can be read back |
| Users.UsersTextRoundTrip | src/user.h:38-51 | the printed list parses back to exactly the users |
| Users.UserPrints | src/user.h:25-35 | the bytes of one user |
| Users.UsersPrint | src/user.h:38-51 | the bytes of every list |
| Users.BadNameFails | src/user.h:25-51 | one name that is not UTF-8 and nothing is printed |
| JsonExact.ParsesExactlyDocuments | src/core/common/websocket_content_traits.h:26 | the parser accepts precisely the documents of the RFC 8259 grammar, floating-point numbers included, and gives precisely the value they stand for: any white space, members in any order, every escape |
| JsonExact.DocumentParses | src/core/common/websocket_content_traits.h:26 | completeness: the text of every syntax tree parses to what the tree stands for |
| JsonExact.ParsedIsDocument | src/core/common/websocket_content_traits.h:26 | soundness: whatever parses is the text of a syntax tree with that value |
| JsonGrammar.MemberLookup | src/message.h:23 | under a key an object holds the value of its last member with that key |
| JsonExact.PrintedChar | src/core/common/websocket_content_traits.h:14 | a printed character is a piece of the grammar, the shortest for its code point, in lower-case hexadecimal |
| JsonExact.PlainTextPrints | src/core/common/websocket_content_traits.h:14 | text without control characters, quotes and backslashes is printed as it is |
| JsonExact.IntPrints | src/core/common/websocket_content_traits.h:14 | integers are printed in decimal without leading zeros |
| JsonExact.PrintedDenotes | src/core/common/websocket_content_traits.h:14 | what is printed is, by the grammar, a document of the value printed |
| JsonRoundTrip.DumpIffUtf8 | src/core/common/websocket_content_traits.h:12-21 | printing fails exactly on a string or key that is not valid UTF-8 |
| JsonRoundTrip.RoundTrip | src/core/common/websocket_content_traits.h:12-34 | parsing the printed text gives the value back, for every value with valid strings, ordered keys, integers in range and no floating point |
| JsonRoundTrip.ScanDumpedChars | src/core/common/websocket_content_traits.h:14-26 | scanning an escaped string gives its bytes back, quotes, backslashes and control characters included |
| JsonRoundTrip.DumpCharsIffValid | src/core/common/websocket_content_traits.h:14 | a string prints exactly when it is valid UTF-8 |
| JsonRoundTrip.ScannedIsValid | src/core/common/websocket_content_traits.h:26 | every string the parser accepts is valid UTF-8, `\u` escapes and surrogate pairs included |
| JsonRoundTrip.ScanDumpedInt | src/core/common/websocket_content_traits.h:14-26 | integers in the library's range survive printing and parsing |
| JsonRoundTrip.ParseDumped | src/core/common/websocket_content_traits.h:14-26 | the printed value is read back whole, whatever follows it |
| JsonRoundTrip.ParsedIsWellFormed | src/core/common/websocket_content_traits.h:26 | what the parser builds has valid strings and ordered, distinct keys |
| JsonRoundTrip.PutKeepsOrder | src/message.h:15 | setting a member keeps the object ordered and puts nothing else into it |
| JsonGrammar.AtPut | src/message.h:15 | setting a member changes the lookup of exactly that member |
| Utf8.Encode | src/core/common/websocket_content_traits.h:26 | every code point that is not a surrogate becomes one well-formed character |
| Utf8.EncodeDecodes | src/core/common/websocket_content_traits.h:26 | decoding an encoded code point gives it back |
| Utf8.ValidIffEncoded | src/core/common/websocket_content_traits.h:14-26 | valid text is exactly the encodings of sequences of Unicode scalar values |
| Utf8.ValidConcat | src/hello_route.cpp:48 | joining two valid texts gives a valid text |

## Left out

- Sockets, Beast's HTTP parsing and WebSocket framing, handshakes and URL parsing: the parser is an arbitrary verdict function, a message is a byte sequence, and a request carries what the URL and keep-alive logic of the library make of it.
- The request body decoders of `content_traits.h`: a decoder is an arbitrary partial function.
- The database server and libpqxx: an arbitrary function from database and query to rows or failure, plus the failures of begin, execute and commit; a transaction is all or nothing, and a commit may be in doubt.
- `single_res` on an empty result: whether `front()` yields a value is up to the environment (`frontOfEmpty`).
- Connecting, closing and waiting in `pg_session.cpp`, `PgDataBase` and its round robin, `DetectSession`, the coroutine HTTP session and server, `main*.cpp`, configuration and logging.
- Time-outs and idle peers: a read ends when bytes, the end of the stream or a network failure come; `HttpDrain` is about inputs that end.
- Fairness: nothing forces an enabled step to happen; `MaximalRunsDrain` and `CanAlwaysDrain` say where runs can and do end.
- `socket.close()` in the write callback is taken to succeed; `shutdown` errors are ignored, as in the code.
- Header values copied through `.data()` and references to temporaries on a failed lookup: the intended values are modelled; the reference is never read.
- The order of header lines on the wire, and what `prepare_payload` adds: a response's headers are a map.
- Text of error bodies: claims are about status; the bodies are the JSON text `null`.
- JsonRoundTrip.RoundTrip: does not cover floating-point numbers. They are kept as the text they were read from; overflow to infinity and the shortest printing of a double are not modelled. No mapper of the program produces one.
- JsonRoundTrip.ParseDumped: the same, it is the induction behind `RoundTrip`.
- HttpTheorems.SameBytesSameService: compares responses only where the handlers observed the same clock and database answer; what a handler observes is not the session's to decide.
- HttpServers.HttpServer.Start: the threads are counted, not run; what they run is `Dispatch`, in any order.
- WebsocketSessions.WebsocketSession.AsyncRead: is about a loop during which nothing else closes the stream; closes at any point are in `WebsocketSessions.WebsocketDriver.Play`.
