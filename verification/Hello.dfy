/** The two handlers of the program, end to end: from frames to echo frames,
    and from database rows to the JSON a client parses. */
module Hello {
  import opened Prelude
  import opened Http
  import opened Messages
  import opened WebsocketRouting
  import opened WebsocketProtocol
  import opened HttpResponses
  import HttpRouting
  import Json
  import PgProtocol
  import PgTheorems
  import Users
  import Utf8

  // --------------------------------------------------------------- /hello_ws

  // "/hello_ws"
  const HELLO_WS: Bytes := [47, 104, 101, 108, 108, 111, 95, 119, 115]

  function DecodedOne(raw: Bytes): seq<Message> {
    match FromMessage(raw)
    case Some(m) => [m]
    case None => []
  }

  /** The messages of the payloads that decode, in order. */
  function Decoded(payloads: seq<Bytes>): seq<Message> {
    if payloads == [] then [] else DecodedOne(payloads[0]) + Decoded(payloads[1..])
  }

  /** The reply to one frame decodes to the echo of what the frame decodes to;
      a frame that does not decode gets none. */
  predicate Echoes(raw: Bytes, reply: Option<Bytes>) {
    match FromMessage(raw)
    case None => reply == None
    case Some(m) => reply.Some? && FromMessage(reply.value) == Some(Message([69, 99, 104, 111, 58, 32] + m.message))
  }

  lemma EchoReply(routes: map<Bytes, WsHandler>, raw: Bytes, world: World)
    requires HELLO_WS in routes && routes[HELLO_WS] == WrapMessage(HelloHandler)
    ensures Echoes(raw, WsRespond(routes, HELLO_WS, raw, world))
  {
    assert routes[HELLO_WS](raw, world) == HelloHandler(FromMessage(raw), world);
    assert WsRespond(routes, HELLO_WS, raw, world) == WsHelloJson(FromMessage(raw));
    EchoAnswers(raw);
  }

  /** Reply `k` decodes to the echo of message `k`. */
  predicate EchoList(messages: seq<Message>, replies: seq<Bytes>) {
    |replies| == |messages|
    && forall k :: 0 <= k < |messages| ==> FromMessage(replies[k]) == Some(Message([69, 99, 104, 111, 58, 32] + messages[k].message))
  }

  lemma EchoListGrows(m: Message, reply: Bytes, messages: seq<Message>, replies: seq<Bytes>)
    requires EchoList(messages, replies) && FromMessage(reply) == Some(Message([69, 99, 104, 111, 58, 32] + m.message))
    ensures EchoList([m] + messages, [reply] + replies)
  {
  }

  /** End-to-end echo: on `/hello_ws` the replies are, in order, one per frame
      that decodes, each decoding to "Echo: " and the text of its frame. */
  lemma {:induction false} EchoEndToEnd(routes: map<Bytes, WsHandler>, payloads: seq<Bytes>, worlds: seq<World>)
    requires HELLO_WS in routes && routes[HELLO_WS] == WrapMessage(HelloHandler)
    requires |payloads| == |worlds|
    ensures EchoList(Decoded(payloads), Replies(routes, HELLO_WS, payloads, worlds))
  {
    if payloads != [] {
      var raw := payloads[0];
      var reply := WsRespond(routes, HELLO_WS, raw, worlds[0]);
      EchoReply(routes, raw, worlds[0]);
      EchoEndToEnd(routes, payloads[1..], worlds[1..]);
      var messages, replies := Decoded(payloads[1..]), Replies(routes, HELLO_WS, payloads[1..], worlds[1..]);
      if reply.Some? {
        EchoListGrows(FromMessage(raw).value, reply.value, messages, replies);
      } else {
        assert [] + messages == messages && [] + replies == replies;
      }
    }
  }

  lemma {:induction false} DecodedPrefix(payloads: seq<Bytes>, n: nat)
    requires n <= |payloads|
    ensures Decoded(payloads[..n]) <= Decoded(payloads)
  {
    if n > 0 {
      var front, rest := payloads[..n], payloads[1..];
      assert front[0] == payloads[0] && front[1..] == rest[..n - 1];
      DecodedPrefix(rest, n - 1);
      assert Decoded(front) == DecodedOne(payloads[0]) + Decoded(rest[..n - 1]);
    }
  }

  /** End-to-end echo over runs: whatever closes and failures interleave with the
      loop, the data frames on the wire are the echoes of the first messages in
      order, and of all of them once every frame has been taken; and nothing in a
      frame can end the session. */
  lemma EchoOverRuns(routes: map<Bytes, WsHandler>, frames: seq<Bytes>, evs: seq<Event>)
    requires HELLO_WS in routes && routes[HELLO_WS] == WrapMessage(HelloHandler)
    requires Legal(routes, HELLO_WS, Init([], frames), evs)
    ensures var s := Run(routes, HELLO_WS, Init([], frames), evs);
            var data, messages := DataOf(s.wire), Decoded(frames);
            && |data| <= |messages| && EchoList(messages[..|data|], data)
            && (s.stage.AtRead? && s.incoming == [] ==> |data| == |messages|)
            && (Undisturbed(evs) ==> s.open && !s.stage.Ended?)
  {
    if Undisturbed(evs) {
      UndisturbedAnswersAll(routes, HELLO_WS, [], frames, evs);
    }
    LoopRefinesListFunction(routes, HELLO_WS, [], frames, evs);
    PayloadsAreExact([], frames);
    var s := Run(routes, HELLO_WS, Init([], frames), evs);
    var n := |WorldsOf(evs)|;
    EchoEndToEnd(routes, frames[..n], WorldsOf(evs));
    DecodedPrefix(frames, n);
    assert n == |frames| ==> frames[..n] == frames;
  }

  // ------------------------------------------------------------------ /hello

  /** What `hello_json` makes of the answer of the database. */
  function HelloJson(world: World): HttpRouting.Outcome {
    match world.users
    case None => HttpRouting.Reply(LiteralResponse(STATUS_BAD_REQUEST, 11, world.date))
    case Some(users) =>
      match BuildOf(STATUS_OK, 11, map[], Mapped(MapsTo(Users.UsersToJson(users))), world.date)
      case Built(response) => HttpRouting.Reply(response)
      case BuildThrows => HttpRouting.ThrowsOther
  }

  /** `isNull` is a null request, which `from_request` never makes. */
  method RunHelloJson(isNull: bool, world: World) returns (outcome: HttpRouting.Outcome)
    ensures outcome == HelloJson(if isNull then World(world.date, None) else world)
  {
    var built;
    if isNull || world.users.None? {
      built := HttpResponse.BadRequest(LITERAL_BODY, 11, world.date);
      LiteralBuilds(STATUS_BAD_REQUEST, 11, world.date);
    } else {
      var response := new HttpResponse(11, STATUS_OK);
      var body := Users.MapUsers(world.users.value);
      response.SetBody(Mapped(MapsTo(body)));
      built := response.Build(world.date);
    }
    match built
    case Built(response) => outcome := HttpRouting.Reply(response);
    case BuildThrows => outcome := HttpRouting.ThrowsOther;
  }

  /** The optional list `async_execute` hands its caller. */
  function UsersAnswer(answer: PgProtocol.Answer<User>): Option<seq<User>> {
    match answer
    case Values(users) => Some(users)
    case _ => None
  }

  predicate NamesAreValid(users: seq<User>) {
    forall i :: 0 <= i < |users| ==> Utf8.Valid(users[i].name)
  }

  /** What the client gets for a list of users: 200 and the bytes of the list, a
      body that parses back to exactly those users, or a bare 500 as soon as one
      name is not valid UTF-8; and without a list a bare 400. */
  lemma {:induction false} UsersResponse(users: seq<User>, date: Bytes)
    ensures HelloJson(World(date, Some(users))).Reply? && HelloJson(World(date, None)).Reply?
    ensures IsBareError(HelloJson(World(date, None)).response, 400, 11, date)
    ensures !NamesAreValid(users) ==> IsBareError(HelloJson(World(date, Some(users))).response, 500, 11, date)
    ensures NamesAreValid(users) ==>
              var response := HelloJson(World(date, Some(users))).response;
              && response.status == 200 && response.version == 11
              && response.headers.Keys == {Server, Date} && response.headers[Date] == date
              && (forall i :: 0 <= i < |users| ==> Json.DumpChars(users[i].name).Some?)
              && response.body == [123, 34, 117, 115, 101, 114, 115, 34, 58, 91] + Users.UserTexts(users) + [93, 125]
              && Json.ParseText(response.body).Some?
              && Users.UsersOf(Json.ParseText(response.body).value) == Some(users)
  {
    if NamesAreValid(users) {
      ListResponse(users, date);
    } else {
      var i :| 0 <= i < |users| && !Utf8.Valid(users[i].name);
      Users.BadNameFails(users, i);
    }
  }

  lemma {:induction false} ListResponse(users: seq<User>, date: Bytes)
    requires NamesAreValid(users)
    ensures HelloJson(World(date, Some(users))).Reply?
    ensures var response := HelloJson(World(date, Some(users))).response;
            && response.status == 200 && response.version == 11
            && response.headers.Keys == {Server, Date} && response.headers[Date] == date
            && (forall i :: 0 <= i < |users| ==> Json.DumpChars(users[i].name).Some?)
            && response.body == [123, 34, 117, 115, 101, 114, 115, 34, 58, 91] + Users.UserTexts(users) + [93, 125]
            && Json.ParseText(response.body).Some?
            && Users.UsersOf(Json.ParseText(response.body).value) == Some(users)
  {
    Users.UsersPrint(users);
    Users.UsersTextRoundTrip(users);
    var none: map<HeaderField, Bytes> := map[];
    assert DefaultHeaders(date) + none == DefaultHeaders(date);
  }

  /** Rows to JSON. With the query committed, the client gets 200 and one entry
      per row, in row order, equal to the mapped row, exactly when every row maps
      and every name is valid UTF-8; an unmappable row gives 400 and no partial
      list, a bad name 500. */
  lemma RowsToJson(b: PgProtocol.Backend<User>, db: PgProtocol.Db, query: Bytes, env: PgProtocol.Env<User>, date: Bytes)
    requires env.open && env.fault.NoFault? && b.exec(db, query).Rows?
    ensures var rows := b.exec(db, query).rows;
            var t := PgProtocol.TurnOf(b, db, PgProtocol.ManyRows, query, PgProtocol.NoError, env);
            var outcome := HelloJson(World(date, UsersAnswer(t.answer)));
            && outcome.Reply?
            && (outcome.response.status == 400 <==> exists i :: 0 <= i < |rows| && b.mapRow(rows[i]).None?)
            && (outcome.response.status == 200 ==>
                  var parsed := Json.ParseText(outcome.response.body);
                  && parsed.Some? && Users.UsersOf(parsed.value).Some?
                  && var list := Users.UsersOf(parsed.value).value;
                     |list| == |rows| && forall i :: 0 <= i < |rows| ==> b.mapRow(rows[i]) == Some(list[i]))
            && (outcome.response.status == 500 <==>
                  (forall i :: 0 <= i < |rows| ==> b.mapRow(rows[i]).Some?)
                  && exists i :: 0 <= i < |rows| && !Utf8.Valid(b.mapRow(rows[i]).value.name))
  {
    PgTheorems.UnmappableRowIsCommitted(b, db, query, env);
    var t := PgProtocol.TurnOf(b, db, PgProtocol.ManyRows, query, PgProtocol.NoError, env);
    if t.answer.Values? {
      var rows, users := b.exec(db, query).rows, t.answer.values;
      UsersResponse(users, date);
      assert forall i :: 0 <= i < |rows| ==> b.mapRow(rows[i]) == Some(users[i]);
      assert NamesAreValid(users) <==> forall i :: 0 <= i < |rows| ==> Utf8.Valid(b.mapRow(rows[i]).value.name);
    }
  }

  /** A user is its row: the columns "id", "name" and "age" convert to its members. */
  predicate IsRowOf(row: Users.Row, user: User) {
    && Converts(row)
    && row[[105, 100]].asInt == Some(user.id) && row[[110, 97, 109, 101]].asText == Some(user.name)
    && row[[97, 103, 101]].asInt == Some(user.age)
  }

  /** All three columns are there and convert. */
  predicate Converts(row: Users.Row) {
    && [105, 100] in row && [110, 97, 109, 101] in row && [97, 103, 101] in row
    && row[[105, 100]].asInt.Some? && row[[110, 97, 109, 101]].asText.Some? && row[[97, 103, 101]].asInt.Some?
  }

  lemma MappedIsRow(row: Users.Row)
    ensures Users.MapRow(row).Some? <==> Converts(row)
    ensures forall user :: Users.MapRow(row) == Some(user) <==> IsRowOf(row, user)
  {
  }

  /** The same with the program's own row mapper: the list the client parses has
      exactly the id, name and age columns of the rows, in row order; 400 exactly
      when a row lacks one of them or it does not convert. */
  lemma UserRowsToJson(b: PgProtocol.Backend<User>, db: PgProtocol.Db, query: Bytes, env: PgProtocol.Env<User>, date: Bytes)
    requires env.open && env.fault.NoFault? && b.exec(db, query).Rows? && b.mapRow == Users.MapRow
    ensures var rows := b.exec(db, query).rows;
            var t := PgProtocol.TurnOf(b, db, PgProtocol.ManyRows, query, PgProtocol.NoError, env);
            var outcome := HelloJson(World(date, UsersAnswer(t.answer)));
            && outcome.Reply?
            && (outcome.response.status == 400
                <==> exists i :: 0 <= i < |rows| && !Converts(rows[i]))
            && (outcome.response.status == 200 ==>
                  var parsed := Json.ParseText(outcome.response.body);
                  && parsed.Some? && Users.UsersOf(parsed.value).Some?
                  && var list := Users.UsersOf(parsed.value).value;
                     |list| == |rows| && forall i :: 0 <= i < |rows| ==> IsRowOf(rows[i], list[i]))
  {
    RowsToJson(b, db, query, env, date);
    var rows := b.exec(db, query).rows;
    forall i | 0 <= i < |rows|
      ensures b.mapRow(rows[i]).None? <==> !Converts(rows[i])
      ensures forall user :: b.mapRow(rows[i]) == Some(user) <==> IsRowOf(rows[i], user)
    {
      MappedIsRow(rows[i]);
    }
  }
}
