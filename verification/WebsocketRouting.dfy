/** The WebSocket router: a map filled by `emplace`, errors turned into silence. */
module WebsocketRouting {
  import opened Prelude
  import opened Http
  import opened Messages

  /** Everything an awaited handler can do. */
  datatype WsOutcome = WsReply(message: Bytes) | WsNull | WsThrows

  /** A handler sees its message and whatever else it observes while it runs. */
  type WsHandler = (Bytes, World) -> WsOutcome

  type MessageHandler = (Option<Message>, World) -> WsOutcome

  datatype Registration = Registration(path: Bytes, handler: WsHandler)

  /** The closure `add_route<Message>` stores. */
  function WrapMessage(handler: MessageHandler): WsHandler {
    (raw: Bytes, world: World) => handler(FromMessage(raw), world)
  }

  function HelloHandler(msg: Option<Message>, world: World): WsOutcome {
    match WsHelloJson(msg)
    case Some(reply) => WsReply(reply)
    case None => WsNull
  }

  /** The reply to one frame; `None` sends nothing. */
  function WsRespond(routes: map<Bytes, WsHandler>, path: Bytes, raw: Bytes, world: World): Option<Bytes> {
    if path !in routes then None
    else
      match routes[path](raw, world)
      case WsReply(message) => Some(message)
      case _ => None
  }

  /** The map after a list of registrations, `emplace` after `emplace`. */
  function Emplaced(registrations: seq<Registration>): map<Bytes, WsHandler> {
    if registrations == [] then map[]
    else
      var before := Emplaced(registrations[..|registrations| - 1]);
      var last := registrations[|registrations| - 1];
      if last.path in before then before else before[last.path := last.handler]
  }

  ghost predicate IsRegistered(registrations: seq<Registration>, path: Bytes) {
    exists i :: 0 <= i < |registrations| && registrations[i].path == path
  }

  predicate IsFirstFor(registrations: seq<Registration>, i: int, path: Bytes) {
    0 <= i < |registrations| && registrations[i].path == path
    && forall k :: 0 <= k < i ==> registrations[k].path != path
  }

  /** The same first-wins rule as the scan of the HTTP routers: a path has the handler of its first registration. */
  lemma {:induction false} FirstRegistrationWins(registrations: seq<Registration>, i: nat, path: Bytes)
    requires IsFirstFor(registrations, i, path)
    ensures path in Emplaced(registrations) && Emplaced(registrations)[path] == registrations[i].handler
  {
    var n := |registrations| - 1;
    if i < n {
      FirstRegistrationWins(registrations[..n], i, path);
    } else {
      PathsRegistered(registrations[..n], path);
    }
  }

  lemma {:induction false} PathsRegistered(registrations: seq<Registration>, path: Bytes)
    ensures path in Emplaced(registrations) <==> IsRegistered(registrations, path)
  {
    if registrations != [] {
      var front := registrations[..|registrations| - 1];
      PathsRegistered(front, path);
      if i :| 0 <= i < |registrations| && registrations[i].path == path {
        assert i < |front| ==> front[i].path == path;
      }
    }
  }

  /** One more registration is one more `emplace`. */
  lemma EmplaceOne(before: seq<Registration>, more: Registration)
    ensures Emplaced(before + [more])
         == if more.path in Emplaced(before) then Emplaced(before) else Emplaced(before)[more.path := more.handler]
  {
    assert (before + [more])[..|before|] == before;
  }

  /** A reply comes exactly from the handler registered first for the path, and
      only when it returns one: no route, a null and an exception are all silence. */
  lemma RepliesComeFromFirst(registrations: seq<Registration>, path: Bytes, raw: Bytes, world: World)
    ensures !IsRegistered(registrations, path) ==> WsRespond(Emplaced(registrations), path, raw, world) == None
    ensures forall i: nat :: IsFirstFor(registrations, i, path) ==>
              WsRespond(Emplaced(registrations), path, raw, world)
              == match registrations[i].handler(raw, world)
                 case WsReply(message) => Some(message)
                 case WsNull => None
                 case WsThrows => None
  {
    PathsRegistered(registrations, path);
    forall i: nat | IsFirstFor(registrations, i, path)
      ensures path in Emplaced(registrations) && Emplaced(registrations)[path] == registrations[i].handler
    {
      FirstRegistrationWins(registrations, i, path);
    }
  }

  /** `registrations` is history: every call of `add_route`, in order. */
  class WebsocketRouter {
    var routes: map<Bytes, WsHandler>
    ghost var registrations: seq<Registration>

    ghost predicate Valid()
      reads this
    {
      routes == Emplaced(registrations)
    }

    constructor ()
      ensures Valid() && registrations == []
    {
      routes, registrations := map[], [];
    }

    /** `emplace`: a path already present keeps its handler. */
    method AddRoute(path: Bytes, handler: MessageHandler)
      requires Valid()
      modifies this
      ensures Valid() && registrations == old(registrations) + [Registration(path, WrapMessage(handler))]
      ensures routes == if path in old(routes) then old(routes) else old(routes)[path := WrapMessage(handler)]
    {
      var wrapped := WrapMessage(handler);
      EmplaceOne(registrations, Registration(path, wrapped));
      if path !in routes {
        routes := routes[path := wrapped];
      }
      registrations := registrations + [Registration(path, wrapped)];
    }

    /** Finds a handler exactly for a registered path, the one registered first. */
    method GetRouteHandler(path: Bytes) returns (handler: Option<WsHandler>)
      requires Valid()
      ensures handler == if path in routes then Some(routes[path]) else None
      ensures handler.Some? <==> IsRegistered(registrations, path)
      ensures forall i :: IsFirstFor(registrations, i, path) ==> handler == Some(registrations[i].handler)
    {
      PathsRegistered(registrations, path);
      forall i | IsFirstFor(registrations, i, path)
        ensures path in routes && routes[path] == registrations[i].handler
      {
        FirstRegistrationWins(registrations, i, path);
      }
      handler := if path in routes then Some(routes[path]) else None;
    }

    method HandleRequest(path: Bytes, raw: Bytes, world: World) returns (reply: Option<Bytes>)
      requires Valid()
      ensures reply == WsRespond(routes, path, raw, world)
      ensures !IsRegistered(registrations, path) ==> reply == None
      ensures forall i: nat :: IsFirstFor(registrations, i, path) ==>
                match registrations[i].handler(raw, world)
                case WsReply(message) => reply == Some(message)
                case _ => reply == None
    {
      RepliesComeFromFirst(registrations, path, raw, world);
      var handler := GetRouteHandler(path);
      if handler.Some? {
        match handler.value(raw, world)
        case WsReply(message) => return Some(message);
        case WsNull => return None;
        case WsThrows => return None;
      }
      reply := None;
    }
  }
}
