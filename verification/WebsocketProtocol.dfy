/** The frame loop of a WebSocket session as a list function, and as a state
    machine that a separately spawned close can interrupt anywhere. */
module WebsocketProtocol {
  import opened Prelude
  import opened Http
  import opened Messages
  import opened WebsocketRouting

  // ------------------------------------------------------------ the list function

  /** What the handler gets for each frame: its payload, the first one behind
      whatever the read buffer held before the loop started. */
  function Payloads(carry: Bytes, frames: seq<Bytes>): (payloads: seq<Bytes>)
    ensures |payloads| == |frames|
    ensures frames != [] ==> carry <= payloads[0] && payloads[0][|carry|..] == frames[0] && payloads[1..] == frames[1..]
  {
    if frames == [] then [] else [carry + frames[0]] + frames[1..]
  }

  function AsList(reply: Option<Bytes>): seq<Bytes> {
    match reply
    case Some(message) => [message]
    case None => []
  }

  /** The non-null replies to a list of payloads, in order; handler call `i` observes `worlds[i]`. */
  function Replies(routes: map<Bytes, WsHandler>, path: Bytes, payloads: seq<Bytes>, worlds: seq<World>): seq<Bytes>
    requires |payloads| == |worlds|
  {
    if payloads == [] then []
    else AsList(WsRespond(routes, path, payloads[0], worlds[0])) + Replies(routes, path, payloads[1..], worlds[1..])
  }

  /** What reaches the peer when only `writable` writes succeed. */
  function Delivered(replies: seq<Bytes>, writable: nat): seq<Bytes> {
    if |replies| > writable then replies[..writable] else replies
  }

  /** The last of a list of messages, or what was there before. */
  function LastOr(messages: seq<Bytes>, before: Bytes): Bytes {
    if messages == [] then before else messages[|messages| - 1]
  }

  /** One turn of the loop, on lists. */
  lemma OneTurn(routes: map<Bytes, WsHandler>, path: Bytes, raw: Bytes, world: World, rest: seq<Bytes>, worlds: seq<World>)
    requires |rest| == |worlds|
    ensures Replies(routes, path, [raw] + rest, [world] + worlds)
         == AsList(WsRespond(routes, path, raw, world)) + Replies(routes, path, rest, worlds)
  {
    assert ([raw] + rest)[1..] == rest && ([world] + worlds)[1..] == worlds;
  }

  lemma {:induction false} RepliesConcat(routes: map<Bytes, WsHandler>, path: Bytes,
                                         a: seq<Bytes>, v: seq<World>, b: seq<Bytes>, w: seq<World>)
    requires |a| == |v| && |b| == |w|
    ensures Replies(routes, path, a + b, v + w) == Replies(routes, path, a, v) + Replies(routes, path, b, w)
  {
    if a == [] {
      assert a + b == b && v + w == w;
    } else {
      var (raw, rest, world, worlds) := (a[0], a[1..], v[0], v[1..]);
      assert a == [raw] + rest && a + b == [raw] + (rest + b);
      assert v == [world] + worlds && v + w == [world] + (worlds + w);
      RepliesConcat(routes, path, rest, worlds, b, w);
      OneTurn(routes, path, raw, world, rest, worlds);
      OneTurn(routes, path, raw, world, rest + b, worlds + w);
    }
  }

  lemma RepliesAppended(routes: map<Bytes, WsHandler>, path: Bytes, a: seq<Bytes>, v: seq<World>, raw: Bytes, world: World)
    requires |a| == |v|
    ensures Replies(routes, path, a + [raw], v + [world])
         == Replies(routes, path, a, v) + AsList(WsRespond(routes, path, raw, world))
  {
    RepliesConcat(routes, path, a, v, [raw], [world]);
    OneTurn(routes, path, raw, world, [], []);
    assert [raw] + [] == [raw] && [world] + [] == [world];
    var reply := AsList(WsRespond(routes, path, raw, world));
    assert reply + [] == reply;
  }

  /** Payloads reach the router byte for byte exactly when the buffer was empty at the start. */
  lemma PayloadsAreExact(carry: Bytes, frames: seq<Bytes>)
    ensures Payloads(carry, frames) == frames <==> carry == [] || frames == []
  {
    if frames != [] {
      assert frames == [frames[0]] + frames[1..];
      assert Payloads(carry, frames)[0] == carry + frames[0];
      assert carry == [] ==> carry + frames[0] == frames[0];
      assert |carry + frames[0]| == |carry| + |frames[0]|;
    }
  }

  // ------------------------------------------------------------ the state machine

  datatype Wire = Data(bytes: Bytes) | CloseFrame

  datatype Stage = AtRead | Handling(raw: Bytes) | Sending(message: Bytes) | Ended

  /** `received`, `worlds` and `issued` are history: the payloads handed to the
      router, what each finished handler call observed, the closes `async_close` issued. */
  datatype Session = Session(
    stage: Stage, open: bool, readBuffer: Bytes, writeBuffer: Bytes, incoming: seq<Bytes>,
    received: seq<Bytes>, worlds: seq<World>, wire: seq<Wire>, issued: nat)

  /** What the environment does next. `accepted` is the network's part in a write. */
  datatype Event =
    | FrameArrives
    | PeerCloses
    | ReadFails
    | HandlerDone(world: World)
    | SendDone(accepted: bool)
    | CloseCalled

  function Init(carry: Bytes, incoming: seq<Bytes>): Session {
    Session(AtRead, true, carry, [], incoming, [], [], [], 0)
  }

  predicate Enabled(s: Session, ev: Event) {
    match ev
    case FrameArrives => s.stage.AtRead? && s.incoming != []
    case PeerCloses => s.stage.AtRead?
    case ReadFails => s.stage.AtRead?
    case HandlerDone(_) => s.stage.Handling?
    case SendDone(_) => s.stage.Sending?
    case CloseCalled => true
  }

  /** On a stream that is not open, reads and writes fail. */
  function Next(routes: map<Bytes, WsHandler>, path: Bytes, s: Session, ev: Event): Session
    requires Enabled(s, ev)
  {
    match ev
    case FrameArrives =>
      if s.open then
        var raw := s.readBuffer + s.incoming[0];
        s.(stage := Handling(raw), readBuffer := [], incoming := s.incoming[1..], received := s.received + [raw])
      else s.(stage := Ended)
    case PeerCloses =>
      // The library answers the peer's close frame itself.
      if s.open then s.(stage := Ended, open := false, wire := s.wire + [CloseFrame]) else s.(stage := Ended)
    case ReadFails => s.(stage := Ended, open := false)
    case HandlerDone(world) =>
      (match WsRespond(routes, path, s.stage.raw, world)
       case Some(message) => s.(stage := Sending(message), writeBuffer := message, worlds := s.worlds + [world])
       case None => s.(stage := AtRead, worlds := s.worlds + [world]))
    case SendDone(accepted) =>
      if s.open && accepted then s.(stage := AtRead, wire := s.wire + [Data(s.writeBuffer)])
      else s.(stage := Ended, open := false)
    case CloseCalled =>
      if s.open then s.(open := false, wire := s.wire + [CloseFrame], issued := s.issued + 1) else s
  }

  predicate Legal(routes: map<Bytes, WsHandler>, path: Bytes, s: Session, evs: seq<Event>)
    decreases |evs|
  {
    evs == [] || (Enabled(s, evs[0]) && Legal(routes, path, Next(routes, path, s, evs[0]), evs[1..]))
  }

  function Run(routes: map<Bytes, WsHandler>, path: Bytes, s: Session, evs: seq<Event>): Session
    requires Legal(routes, path, s, evs)
    decreases |evs|
  {
    if evs == [] then s else Run(routes, path, Next(routes, path, s, evs[0]), evs[1..])
  }

  /** The data frames on the wire. */
  function DataOf(wire: seq<Wire>): seq<Bytes> {
    if wire == [] then []
    else
      var last := wire[|wire| - 1];
      DataOf(wire[..|wire| - 1]) + (if last.Data? then [last.bytes] else [])
  }

  // -------------------------------------------------------------- invariants

  /** The payloads whose handler call has finished. */
  function Handled(s: Session): (payloads: seq<Bytes>)
    requires |s.worlds| <= |s.received|
    ensures |payloads| == |s.worlds|
  {
    s.received[..|s.worlds|]
  }

  /** The payloads received are those of the frames taken so far, and all but the one being handled have been answered. */
  predicate PayloadsOk(carry: Bytes, frames: seq<Bytes>, s: Session) {
    && |s.received| <= |frames| && s.incoming == frames[|s.received|..]
    && s.received == Payloads(carry, frames)[..|s.received|]
    && s.readBuffer == (if s.received == [] then carry else [])
    && |s.received| == |s.worlds| + (if s.stage.Handling? then 1 else 0)
    && (s.stage.Handling? ==> s.received[|s.worlds|] == s.stage.raw)
  }

  /** Their replies are the data frames sent plus the one being sent. */
  predicate RepliesOk(routes: map<Bytes, WsHandler>, path: Bytes, s: Session)
    requires |s.worlds| <= |s.received|
  {
    var replies := Replies(routes, path, Handled(s), s.worlds);
    && (s.stage.Sending? ==> s.writeBuffer == s.stage.message)
    && DataOf(s.wire) <= replies
    && (!s.stage.Ended? ==> DataOf(s.wire) + (if s.stage.Sending? then [s.stage.message] else []) == replies)
  }

  predicate LoopOk(routes: map<Bytes, WsHandler>, path: Bytes, carry: Bytes, frames: seq<Bytes>, s: Session) {
    PayloadsOk(carry, frames, s) && RepliesOk(routes, path, s)
  }

  /** One close frame at most, nothing after it, and only on a stream no longer open. */
  predicate CloseOk(s: Session) {
    && (forall i :: 0 <= i < |s.wire| && s.wire[i].CloseFrame? ==> i == |s.wire| - 1 && !s.open)
    && s.issued <= 1 && (s.issued == 1 ==> !s.open)
  }

  lemma FrameStep(routes: map<Bytes, WsHandler>, path: Bytes, carry: Bytes, frames: seq<Bytes>, s: Session)
    requires LoopOk(routes, path, carry, frames, s) && Enabled(s, FrameArrives)
    ensures LoopOk(routes, path, carry, frames, Next(routes, path, s, FrameArrives))
  {
    var n := |s.received|;
    var t := Next(routes, path, s, FrameArrives);
    assert Handled(t) == Handled(s);
    if s.open {
      assert t.incoming == frames[n + 1..];
      assert t.stage.raw == Payloads(carry, frames)[n] by {
        assert s.incoming[0] == frames[n];
        assert n > 0 ==> [] + frames[n] == frames[n];
      }
      assert t.received == Payloads(carry, frames)[..n + 1];
    }
  }

  lemma HandlerReplies(routes: map<Bytes, WsHandler>, path: Bytes, s: Session, world: World)
    requires |s.received| == |s.worlds| + 1 && s.stage == Handling(s.received[|s.worlds|]) && RepliesOk(routes, path, s)
    ensures RepliesOk(routes, path, Next(routes, path, s, HandlerDone(world)))
  {
    var t := Next(routes, path, s, HandlerDone(world));
    var raw := s.stage.raw;
    var reply := AsList(WsRespond(routes, path, raw, world));
    var sent := DataOf(s.wire);
    assert sent + [] == sent;
    assert Handled(t) == Handled(s) + [raw];
    RepliesAppended(routes, path, Handled(s), s.worlds, raw, world);
    assert Replies(routes, path, Handled(t), t.worlds) == sent + reply;
  }

  lemma HandlerStep(routes: map<Bytes, WsHandler>, path: Bytes, carry: Bytes, frames: seq<Bytes>, s: Session, world: World)
    requires LoopOk(routes, path, carry, frames, s) && Enabled(s, HandlerDone(world))
    ensures LoopOk(routes, path, carry, frames, Next(routes, path, s, HandlerDone(world)))
  {
    HandlerReplies(routes, path, s, world);
  }

  lemma DataAppended(wire: seq<Wire>, w: Wire)
    ensures DataOf(wire + [w]) == DataOf(wire) + (if w.Data? then [w.bytes] else [])
  {
    assert (wire + [w])[..|wire|] == wire;
  }

  lemma SendStep(routes: map<Bytes, WsHandler>, path: Bytes, carry: Bytes, frames: seq<Bytes>, s: Session, accepted: bool)
    requires LoopOk(routes, path, carry, frames, s) && Enabled(s, SendDone(accepted))
    ensures LoopOk(routes, path, carry, frames, Next(routes, path, s, SendDone(accepted)))
  {
    DataAppended(s.wire, Data(s.writeBuffer));
    var t := Next(routes, path, s, SendDone(accepted));
    assert Handled(t) == Handled(s);
    assert t.stage.AtRead? ==> DataOf(t.wire) + [] == DataOf(s.wire) + [s.stage.message];
  }

  lemma CloseStep(routes: map<Bytes, WsHandler>, path: Bytes, carry: Bytes, frames: seq<Bytes>, s: Session, ev: Event)
    requires LoopOk(routes, path, carry, frames, s) && Enabled(s, ev)
    requires ev.PeerCloses? || ev.ReadFails? || ev.CloseCalled?
    ensures LoopOk(routes, path, carry, frames, Next(routes, path, s, ev))
  {
    DataAppended(s.wire, CloseFrame);
    assert DataOf(s.wire) + [] == DataOf(s.wire);
    assert Handled(Next(routes, path, s, ev)) == Handled(s);
  }

  lemma StepKeepsLoop(routes: map<Bytes, WsHandler>, path: Bytes, carry: Bytes, frames: seq<Bytes>, s: Session, ev: Event)
    requires LoopOk(routes, path, carry, frames, s) && Enabled(s, ev)
    ensures LoopOk(routes, path, carry, frames, Next(routes, path, s, ev))
  {
    match ev
    case FrameArrives => FrameStep(routes, path, carry, frames, s);
    case HandlerDone(world) => HandlerStep(routes, path, carry, frames, s, world);
    case SendDone(accepted) => SendStep(routes, path, carry, frames, s, accepted);
    case _ => CloseStep(routes, path, carry, frames, s, ev);
  }

  lemma StepKeepsClose(routes: map<Bytes, WsHandler>, path: Bytes, s: Session, ev: Event)
    requires CloseOk(s) && Enabled(s, ev)
    ensures CloseOk(Next(routes, path, s, ev))
  {
  }

  lemma {:induction false} RunKeeps(routes: map<Bytes, WsHandler>, path: Bytes, carry: Bytes, frames: seq<Bytes>, s: Session, evs: seq<Event>)
    requires LoopOk(routes, path, carry, frames, s) && CloseOk(s) && Legal(routes, path, s, evs)
    ensures LoopOk(routes, path, carry, frames, Run(routes, path, s, evs)) && CloseOk(Run(routes, path, s, evs))
    decreases |evs|
  {
    if evs != [] {
      StepKeepsLoop(routes, path, carry, frames, s, evs[0]);
      StepKeepsClose(routes, path, s, evs[0]);
      RunKeeps(routes, path, carry, frames, Next(routes, path, s, evs[0]), evs[1..]);
    }
  }

  /** What the events let the handler calls observe, call after call. */
  function WorldsOf(evs: seq<Event>): seq<World> {
    if evs == [] then [] else (if evs[0].HandlerDone? then [evs[0].world] else []) + WorldsOf(evs[1..])
  }

  lemma {:induction false} RunRecordsWorlds(routes: map<Bytes, WsHandler>, path: Bytes, s: Session, evs: seq<Event>)
    requires Legal(routes, path, s, evs)
    ensures Run(routes, path, s, evs).worlds == s.worlds + WorldsOf(evs)
    decreases |evs|
  {
    if evs == [] {
      Associates(s.worlds, [], []);
    } else {
      var ev, rest := evs[0], evs[1..];
      var next := Next(routes, path, s, ev);
      RunRecordsWorlds(routes, path, next, rest);
      var here := if ev.HandlerDone? then [ev.world] else [];
      assert next.worlds == s.worlds + here;
      Associates(s.worlds, here, WorldsOf(rest));
    }
  }

  /** Loop refinement. Whatever closes, failures and handler delays interleave
      with the loop: the payloads handled are the first of the incoming frames',
      the data frames sent are a prefix of the list function on them, each handler
      call observing what its event gives it, all of it at every loop head, and the
      read buffer is empty at every later loop head. */
  lemma LoopRefinesListFunction(routes: map<Bytes, WsHandler>, path: Bytes, carry: Bytes, frames: seq<Bytes>, evs: seq<Event>)
    requires Legal(routes, path, Init(carry, frames), evs)
    ensures var s := Run(routes, path, Init(carry, frames), evs);
            var worlds := WorldsOf(evs);
            var n := |worlds|;
            && s.received <= Payloads(carry, frames) && n <= |s.received|
            && DataOf(s.wire) <= Replies(routes, path, Payloads(carry, frames)[..n], worlds)
            && (s.stage.AtRead? ==> DataOf(s.wire) == Replies(routes, path, Payloads(carry, frames)[..n], worlds))
            && (s.stage.AtRead? && s.incoming == [] ==> n == |frames|)
            && (s.received != [] ==> s.readBuffer == [])
  {
    RunKeeps(routes, path, carry, frames, Init(carry, frames), evs);
    RunRecordsWorlds(routes, path, Init(carry, frames), evs);
    var s := Run(routes, path, Init(carry, frames), evs);
    assert [] + WorldsOf(evs) == WorldsOf(evs);
    assert Handled(s) == Payloads(carry, frames)[..|s.worlds|];
    assert s.stage.AtRead? ==> DataOf(s.wire) + [] == DataOf(s.wire);
  }

  /** An event that neither closes nor breaks the connection. */
  predicate Undisturbing(ev: Event) {
    match ev
    case PeerCloses => false
    case ReadFails => false
    case CloseCalled => false
    case SendDone(accepted) => accepted
    case _ => true
  }

  predicate Undisturbed(evs: seq<Event>) {
    forall i :: 0 <= i < |evs| ==> Undisturbing(evs[i])
  }

  lemma {:induction false} UndisturbedLoopsOn(routes: map<Bytes, WsHandler>, path: Bytes, s: Session, evs: seq<Event>)
    requires Legal(routes, path, s, evs) && Undisturbed(evs) && s.open && !s.stage.Ended?
    ensures var t := Run(routes, path, s, evs); t.open && !t.stage.Ended?
    decreases |evs|
  {
    if evs != [] {
      assert Undisturbing(evs[0]);
      UndisturbedLoopsOn(routes, path, Next(routes, path, s, evs[0]), evs[1..]);
    }
  }

  /** Neither a null reply, nor a frame that is not understood, nor an exception of
      a handler ends the loop: an undisturbed run goes on until it has handled
      every frame, and then it has sent every reply. */
  lemma UndisturbedAnswersAll(routes: map<Bytes, WsHandler>, path: Bytes, carry: Bytes, frames: seq<Bytes>, evs: seq<Event>)
    requires Legal(routes, path, Init(carry, frames), evs) && Undisturbed(evs)
    ensures var s := Run(routes, path, Init(carry, frames), evs);
            && s.open && !s.stage.Ended?
            && ((forall ev :: Enabled(s, ev) ==> !Undisturbing(ev)) ==>
                  |WorldsOf(evs)| == |frames| && DataOf(s.wire) == Replies(routes, path, Payloads(carry, frames), WorldsOf(evs)))
  {
    UndisturbedLoopsOn(routes, path, Init(carry, frames), evs);
    LoopRefinesListFunction(routes, path, carry, frames, evs);
    var s := Run(routes, path, Init(carry, frames), evs);
    if forall ev :: Enabled(s, ev) ==> !Undisturbing(ev) {
      assert Enabled(s, SendDone(true)) <==> s.stage.Sending?;
      assert Enabled(s, HandlerDone(World([], None))) <==> s.stage.Handling?;
      assert Enabled(s, FrameArrives) <==> s.stage.AtRead? && s.incoming != [];
      assert Payloads(carry, frames)[..|frames|] == Payloads(carry, frames);
    }
  }

  /** Close safety: over any run at most one close is issued, at most one close
      frame is sent, and no data frame follows it. */
  lemma CloseIsFinal(routes: map<Bytes, WsHandler>, path: Bytes, carry: Bytes, frames: seq<Bytes>, evs: seq<Event>)
    requires Legal(routes, path, Init(carry, frames), evs)
    ensures var s := Run(routes, path, Init(carry, frames), evs);
            && s.issued <= 1
            && (forall i :: 0 <= i < |s.wire| - 1 ==> s.wire[i].Data?)
            && (s.wire != [] && s.wire[|s.wire| - 1].CloseFrame? ==> !s.open)
  {
    RunKeeps(routes, path, carry, frames, Init(carry, frames), evs);
  }

  /** Once the stream is not open, nothing that happens later puts anything on the wire. */
  lemma {:induction false} NothingAfterClose(routes: map<Bytes, WsHandler>, path: Bytes, s: Session, evs: seq<Event>)
    requires !s.open && Legal(routes, path, s, evs)
    ensures var t := Run(routes, path, s, evs); !t.open && t.wire == s.wire && t.issued == s.issued
    decreases |evs|
  {
    if evs != [] {
      NothingAfterClose(routes, path, Next(routes, path, s, evs[0]), evs[1..]);
    }
  }

  lemma {:induction false} RunSplits(routes: map<Bytes, WsHandler>, path: Bytes, s: Session, a: seq<Event>, b: seq<Event>)
    requires Legal(routes, path, s, a + b)
    ensures Legal(routes, path, s, a) && Legal(routes, path, Run(routes, path, s, a), b)
    ensures Run(routes, path, s, a + b) == Run(routes, path, Run(routes, path, s, a), b)
    decreases |a|
  {
    if a == [] {
      assert a + b == b;
    } else {
      assert (a + b)[0] == a[0] && (a + b)[1..] == a[1..] + b;
      RunSplits(routes, path, Next(routes, path, s, a[0]), a[1..], b);
    }
  }

  /** A close takes effect whenever it is called: on an open stream exactly one
      close frame goes out, then nothing more; on any other it changes nothing. */
  lemma CloseTakesEffect(routes: map<Bytes, WsHandler>, path: Bytes, s: Session, before: seq<Event>, after: seq<Event>)
    requires Legal(routes, path, s, before + ([CloseCalled] + after))
    ensures Legal(routes, path, s, before)
    ensures var u, t := Run(routes, path, s, before), Run(routes, path, s, before + ([CloseCalled] + after));
            && !t.open
            && t.wire == (if u.open then u.wire + [CloseFrame] else u.wire)
            && t.issued == u.issued + (if u.open then 1 else 0)
  {
    RunSplits(routes, path, s, before, [CloseCalled] + after);
    var u := Run(routes, path, s, before);
    assert ([CloseCalled] + after)[1..] == after;
    NothingAfterClose(routes, path, Next(routes, path, u, CloseCalled), after);
  }

  /** What a step other than `CloseCalled` does to the stream. */
  lemma StepOnStream(routes: map<Bytes, WsHandler>, path: Bytes, s: Session, ev: Event)
    requires Enabled(s, ev) && !ev.CloseCalled?
    ensures var t := Next(routes, path, s, ev);
            && (t.open <==> s.open && Undisturbing(ev))
            && t.issued == s.issued
            && (if !s.open then t.wire == s.wire
                else if ev.PeerCloses? then t.wire == s.wire + [CloseFrame]
                else if ev == SendDone(true) then t.wire == s.wire + [Data(s.writeBuffer)]
                else t.wire == s.wire)
            && (t.stage.Ended? <==> !t.open && !ev.HandlerDone?)
  {
  }
}
