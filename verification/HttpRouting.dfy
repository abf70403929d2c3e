/** The two HTTP routers: registration, lookup and the response ladder. */
module HttpRouting {
  import opened Prelude
  import opened Http
  import HttpRequests
  import HttpResponses

  /** Everything a handler can do. */
  datatype Outcome = Reply(response: RawResponse) | NullReply | ThrowsStd | ThrowsOther

  type Handler = (RawRequest, World) -> Outcome

  type TypedHandler = (HttpRequests.TypedRequest, World) -> Outcome

  datatype Route = Route(verb: Verb, path: Bytes, handler: Handler)

  /** The closure `add_route` stores: decode, then call the handler. */
  function Wrap(decode: HttpRequests.Decoder, handler: TypedHandler): Handler {
    (req: RawRequest, world: World) =>
      match HttpRequests.Typed(req, decode)
      case None => ThrowsStd
      case Some(typed) => handler(typed, world)
  }

  // ------------------------------------------------------------------ lookup

  /** The first route registered for a verb and path. */
  function Find(routes: seq<Route>, verb: Verb, path: Bytes): Option<Route> {
    if routes == [] then None
    else if routes[0].path == path && routes[0].verb == verb then Some(routes[0])
    else Find(routes[1..], verb, path)
  }

  /** The reference for lookup: a table that ignores a second registration. */
  ghost function Table(routes: seq<Route>): map<(Verb, Bytes), Handler> {
    if routes == [] then map[]
    else
      var before := Table(routes[..|routes| - 1]);
      var last := routes[|routes| - 1];
      if (last.verb, last.path) in before then before
      else before[(last.verb, last.path) := last.handler]
  }

  lemma {:induction false} FindInExtended(routes: seq<Route>, more: Route, verb: Verb, path: Bytes)
    ensures Find(routes + [more], verb, path)
         == if Find(routes, verb, path).Some? then Find(routes, verb, path) else Find([more], verb, path)
  {
    if routes == [] {
      assert routes + [more] == [more];
    } else {
      assert (routes + [more])[1..] == routes[1..] + [more];
      FindInExtended(routes[1..], more, verb, path);
    }
  }

  /** The vector scan computes the first-wins table. */
  lemma {:induction false} FindIsTableLookup(routes: seq<Route>, verb: Verb, path: Bytes)
    ensures Find(routes, verb, path).Some? <==> (verb, path) in Table(routes)
    ensures Find(routes, verb, path).Some? ==>
              Find(routes, verb, path).value == Route(verb, path, Table(routes)[(verb, path)])
  {
    if routes != [] {
      var n := |routes| - 1;
      FindIsTableLookup(routes[..n], verb, path);
      assert routes[..n] + [routes[n]] == routes;
      FindInExtended(routes[..n], routes[n], verb, path);
      assert [routes[n]][1..] == [];
    }
  }

  ghost predicate IsFirstRoute(routes: seq<Route>, i: nat, verb: Verb, path: Bytes) {
    i < |routes| && routes[i].verb == verb && routes[i].path == path
    && forall k :: 0 <= k < i ==> !(routes[k].verb == verb && routes[k].path == path)
  }

  ghost predicate HasRoute(routes: seq<Route>, verb: Verb, path: Bytes) {
    exists i :: 0 <= i < |routes| && routes[i].verb == verb && routes[i].path == path
  }

  /** A lookup succeeds exactly when some route has the verb and path, and finds the first of them. */
  lemma {:induction false} FindIsFirst(routes: seq<Route>, verb: Verb, path: Bytes)
    ensures Find(routes, verb, path).Some? <==> HasRoute(routes, verb, path)
    ensures forall i: nat :: IsFirstRoute(routes, i, verb, path) ==> Find(routes, verb, path) == Some(routes[i])
  {
    if routes != [] && !(routes[0].verb == verb && routes[0].path == path) {
      var rest := routes[1..];
      FindIsFirst(rest, verb, path);
      assert HasRoute(rest, verb, path) <==> HasRoute(routes, verb, path) by {
        if i :| 0 <= i < |routes| && routes[i].verb == verb && routes[i].path == path {
          assert rest[i - 1] == routes[i];
        }
      }
      forall i: nat | IsFirstRoute(routes, i, verb, path) ensures Find(routes, verb, path) == Some(routes[i]) {
        assert forall k :: 0 <= k < i - 1 ==> rest[k] == routes[k + 1];
        assert IsFirstRoute(rest, i - 1, verb, path);
      }
    }
  }

  // ------------------------------------------------------------------ ladder

  function ErrorResponse(status: nat, world: World): RawResponse {
    HttpResponses.LiteralResponse(status, 11, world.date)
  }

  /** The one response every request gets. */
  function Respond(routes: seq<Route>, req: RawRequest, world: World): RawResponse {
    match req.url
    case None => ErrorResponse(STATUS_INTERNAL_ERROR, world)
    case Some(url) =>
      match Find(routes, req.verb, url.path)
      case None => ErrorResponse(STATUS_BAD_REQUEST, world)
      case Some(route) =>
        match route.handler(req, world)
        case Reply(response) => response
        case _ => ErrorResponse(STATUS_INTERNAL_ERROR, world)
  }

  predicate Reports(response: RawResponse, status: nat, world: World) {
    HttpResponses.IsBareError(response, status, 11, world.date)
  }

  /** The ladder as its users see it: 500 for a target that does not parse, 400
      when nothing matches, else the reply of the first matching route's handler,
      500 when that returns null or throws. */
  ghost predicate IsAnswer(routes: seq<Route>, req: RawRequest, world: World, response: RawResponse) {
    && (req.url.None? ==> Reports(response, 500, world))
    && (req.url.Some? && !HasRoute(routes, req.verb, req.url.value.path) ==> Reports(response, 400, world))
    && (req.url.Some? ==>
          forall i: nat :: IsFirstRoute(routes, i, req.verb, req.url.value.path) ==>
            match routes[i].handler(req, world)
            case Reply(reply) => response == reply
            case _ => Reports(response, 500, world))
  }

  ghost predicate Matches(routes: seq<Route>, req: RawRequest) {
    req.url.Some? && (req.verb, req.url.value.path) in Table(routes)
  }

  /** Who wrote the response: the matched handler exactly when it returned one,
      else the router, with 400 exactly when the target parses and nothing matches. */
  lemma LadderOutcome(routes: seq<Route>, req: RawRequest, world: World)
    ensures Matches(routes, req) ==>
              var outcome := Table(routes)[(req.verb, req.url.value.path)](req, world);
              Respond(routes, req, world) == if outcome.Reply? then outcome.response else ErrorResponse(STATUS_INTERNAL_ERROR, world)
    ensures !Matches(routes, req) ==>
              Respond(routes, req, world)
              == ErrorResponse(if req.url.Some? then STATUS_BAD_REQUEST else STATUS_INTERNAL_ERROR, world)
    ensures IsAnswer(routes, req, world, Respond(routes, req, world))
    ensures req.url.Some? ==> (Matches(routes, req) <==> HasRoute(routes, req.verb, req.url.value.path))
  {
    if req.url.Some? {
      FindIsTableLookup(routes, req.verb, req.url.value.path);
      FindIsFirst(routes, req.verb, req.url.value.path);
    }
  }

  /** Registering one more route changes no answer of a request that already had a route. */
  lemma AddRouteKeepsAnswers(routes: seq<Route>, more: Route, req: RawRequest, world: World)
    requires Matches(routes, req)
    ensures Matches(routes + [more], req)
    ensures Respond(routes + [more], req, world) == Respond(routes, req, world)
  {
    var path := req.url.value.path;
    FindIsTableLookup(routes, req.verb, path);
    FindInExtended(routes, more, req.verb, path);
    FindIsTableLookup(routes + [more], req.verb, path);
  }

  /** A registration for a verb and path already taken has no effect on any request. */
  lemma DuplicateRouteIsIgnored(routes: seq<Route>, more: Route, req: RawRequest, world: World)
    requires (more.verb, more.path) in Table(routes)
    ensures Respond(routes + [more], req, world) == Respond(routes, req, world)
  {
    if req.url.Some? {
      var path := req.url.value.path;
      FindInExtended(routes, more, req.verb, path);
      FindIsTableLookup(routes, req.verb, path);
      assert [more][1..] == [];
    }
  }

  /** A request its decoder rejects gets 500 from a route added with that decoder. */
  lemma DecoderFailureIs500(routes: seq<Route>, decode: HttpRequests.Decoder, handler: TypedHandler, req: RawRequest, world: World)
    requires Matches(routes, req)
    requires Table(routes)[(req.verb, req.url.value.path)] == Wrap(decode, handler)
    requires decode(req.body).None?
    ensures Respond(routes, req, world) == ErrorResponse(STATUS_INTERNAL_ERROR, world)
    ensures Reports(Respond(routes, req, world), 500, world)
  {
    assert HttpRequests.Typed(req, decode) == None;
    LadderOutcome(routes, req, world);
  }

  /** The handler of a route gets a request that names that very route, and the
      response is what it returns for it, or 500. */
  lemma HandlerSeesItsRoute(routes: seq<Route>, verb: Verb, path: Bytes, decode: HttpRequests.Decoder, handler: TypedHandler,
                            req: RawRequest, world: World)
    requires (verb, path) in Table(routes) && Table(routes)[(verb, path)] == Wrap(decode, handler)
    requires req.verb == verb && req.url.Some? && req.url.value.path == path && decode(req.body).Some?
    ensures HttpRequests.Typed(req, decode).Some?
    ensures var typed := HttpRequests.Typed(req, decode).value;
            && typed.verb == verb && typed.endpoint == path
            && HttpRequests.IsFoldOf(req, typed) && decode(req.body) == Some(typed.body)
            && match handler(typed, world)
               case Reply(reply) => Respond(routes, req, world) == reply
               case _ => Reports(Respond(routes, req, world), 500, world)
  {
    HttpRequests.TypedIsFold(req, decode);
    LadderOutcome(routes, req, world);
  }

  // ----------------------------------------------------------------- classes

  /** A response built from a string literal: the factories never fail on it. */
  method LiteralError(status: nat, world: World) returns (response: RawResponse)
    requires status == STATUS_BAD_REQUEST || status == STATUS_INTERNAL_ERROR
    ensures response == ErrorResponse(status, world) && Reports(response, status, world)
  {
    var built;
    if status == STATUS_BAD_REQUEST {
      built := HttpResponses.HttpResponse.BadRequest(HttpResponses.LITERAL_BODY, 11, world.date);
    } else {
      built := HttpResponses.HttpResponse.InternalServerError(HttpResponses.LITERAL_BODY, 11, world.date);
    }
    HttpResponses.LiteralBuilds(status, 11, world.date);
    response := built.response;
  }

  class HttpRouter {
    var routes: seq<Route>

    constructor ()
      ensures routes == []
    {
      routes := [];
    }

    method AddRoute(verb: Verb, path: Bytes, decode: HttpRequests.Decoder, handler: TypedHandler)
      modifies this
      ensures routes == old(routes) + [Route(verb, path, Wrap(decode, handler))]
      ensures (verb, path) in Table(old(routes)) ==> Table(routes) == Table(old(routes))
      ensures (verb, path) !in Table(old(routes)) ==> Table(routes) == Table(old(routes))[(verb, path) := Wrap(decode, handler)]
    {
      routes := routes + [Route(verb, path, Wrap(decode, handler))];
      assert routes[..|routes| - 1] == old(routes);
    }

    /** `find_if` over the vector. */
    method GetRouteHandler(verb: Verb, path: Bytes) returns (route: Option<Route>)
      ensures route == Find(routes, verb, path)
    {
      var i := 0;
      while i < |routes| && !(routes[i].path == path && routes[i].verb == verb)
        invariant i <= |routes|
        invariant Find(routes[i..], verb, path) == Find(routes, verb, path)
      {
        assert routes[i..][1..] == routes[i + 1..];
        i := i + 1;
      }
      if i == |routes| {
        return None;
      }
      assert routes[i..][0] == routes[i];
      return Some(routes[i]);
    }

    method HandleRequest(req: RawRequest, world: World) returns (response: RawResponse)
      ensures response == Respond(routes, req, world) && IsAnswer(routes, req, world, response)
    {
      LadderOutcome(routes, req, world);
      if req.url.None? {
        response := LiteralError(STATUS_INTERNAL_ERROR, world);
        return;
      }
      var route := GetRouteHandler(req.verb, req.url.value.path);
      if route.None? {
        response := LiteralError(STATUS_BAD_REQUEST, world);
        return;
      }
      var outcome := route.value.handler(req, world);
      match outcome
      case Reply(r) =>
        response := r;
      case NullReply =>
        response := LiteralError(STATUS_INTERNAL_ERROR, world);
      case ThrowsStd =>
        response := LiteralError(STATUS_INTERNAL_ERROR, world);
      case ThrowsOther =>
        response := LiteralError(STATUS_INTERNAL_ERROR, world);
    }
  }

  /** The coroutine router. Its handler is awaited: the body stops at the call
      and resumes with the outcome, so it is two methods here. */
  class HttpRouterCoro {
    var routes: seq<Route>

    constructor ()
      ensures routes == []
    {
      routes := [];
    }

    method AddRoute(verb: Verb, path: Bytes, decode: HttpRequests.Decoder, handler: TypedHandler)
      modifies this
      ensures routes == old(routes) + [Route(verb, path, Wrap(decode, handler))]
    {
      routes := routes + [Route(verb, path, Wrap(decode, handler))];
    }

    method GetRouteHandler(verb: Verb, path: Bytes) returns (route: Option<Route>)
      ensures route == Find(routes, verb, path)
    {
      for i := 0 to |routes|
        invariant Find(routes[i..], verb, path) == Find(routes, verb, path)
      {
        assert routes[i..][0] == routes[i] && routes[i..][1..] == routes[i + 1..];
        if routes[i].path == path && routes[i].verb == verb {
          return Some(routes[i]);
        }
      }
      route := None;
    }

    /** Up to the `co_await`: either the final response or the handler to await. */
    method BeginRequest(req: RawRequest, world: World) returns (done: Option<RawResponse>, awaited: Option<Route>)
      ensures done.Some? <==> awaited.None?
      ensures awaited == if req.url.Some? then Find(routes, req.verb, req.url.value.path) else None
      ensures done.Some? ==> done.value == Respond(routes, req, world)
      ensures done.Some? ==> Reports(done.value, if req.url.Some? then 400 else 500, world)
    {
      done, awaited := None, None;
      if req.url.Some? {
        awaited := GetRouteHandler(req.verb, req.url.value.path);
      }
      if awaited.None? {
        var response := LiteralError(if req.url.Some? then STATUS_BAD_REQUEST else STATUS_INTERNAL_ERROR, world);
        done := Some(response);
      }
    }

    /** After the `co_await`, once the handler has produced its outcome. */
    method ResumeRequest(outcome: Outcome, world: World) returns (response: RawResponse)
      ensures response == if outcome.Reply? then outcome.response else ErrorResponse(STATUS_INTERNAL_ERROR, world)
      ensures !outcome.Reply? ==> Reports(response, 500, world)
    {
      if outcome.Reply? {
        response := outcome.response;
      } else {
        response := LiteralError(STATUS_INTERNAL_ERROR, world);
      }
    }

    method HandleRequest(req: RawRequest, world: World) returns (response: RawResponse)
      ensures response == Respond(routes, req, world) && IsAnswer(routes, req, world, response)
    {
      LadderOutcome(routes, req, world);
      var done, awaited := BeginRequest(req, world);
      if done.Some? {
        response := done.value;
      } else {
        response := ResumeRequest(awaited.value.handler(req, world), world);
      }
    }
  }

  /** Registered alike, the two routers give every request the same response. */
  method RoutersAgree(router: HttpRouter, coro: HttpRouterCoro, req: RawRequest, world: World)
    returns (response: RawResponse, coroResponse: RawResponse)
    requires router.routes == coro.routes
    ensures response == coroResponse
  {
    response := router.HandleRequest(req, world);
    coroResponse := coro.HandleRequest(req, world);
  }
}
