/** `WebsocketSession` as objects: its two reused buffers, the stream it reads
    and writes, the recursive read loop, and the coroutines that run it. */
module WebsocketSessions {
  import opened Prelude
  import opened Http
  import opened WebsocketRouting
  import opened WebsocketProtocol
  import opened FlatBuffers

  /** The library's stream. The peer will send `incoming`; what the network does
      with a write is a parameter. On a stream that is not open everything fails. */
  class WebsocketStream {
    var incoming: seq<Bytes>
    var started: bool
    var open: bool
    var wire: seq<Wire>
    var issued: nat

    constructor (incoming: seq<Bytes>)
      ensures this.incoming == incoming && !started && !open && wire == [] && issued == 0
    {
      this.incoming, this.started, this.open, this.wire, this.issued := incoming, false, false, [], 0;
    }

    /** `async_accept`, once in the life of a stream: it is open when the handshake succeeds. */
    method Accept(accepted: bool)
      requires !started
      modifies this`started, this`open
      ensures started && open == accepted
    {
      started, open := true, accepted;
    }

    /** `async_read` with a frame there: appends one whole message to the buffer, or fails. */
    method Read(buffer: FlatBuffer) returns (ok: bool)
      requires buffer.Valid()
      modifies this`incoming, buffer, buffer.data
      ensures buffer.Valid() && (buffer.data == old(buffer.data) || fresh(buffer.data))
      ensures ok <==> open && old(incoming) != []
      ensures ok ==> incoming == old(incoming[1..]) && buffer.Contents() == old(buffer.Contents() + incoming[0])
      ensures !ok ==> incoming == old(incoming) && buffer.Contents() == old(buffer.Contents())
    {
      if !open || incoming == [] {
        return false;
      }
      buffer.Append(incoming[0]);
      incoming := incoming[1..];
      ok := true;
    }

    /** The read ends without a frame: the peer closes, and the library answers its close frame, or the connection breaks. */
    method ReadEnds(peerCloses: bool)
      modifies this`open, this`wire
      ensures !open
      ensures wire == if old(open) && peerCloses then old(wire) + [CloseFrame] else old(wire)
    {
      if open && peerCloses {
        wire := wire + [CloseFrame];
      }
      open := false;
    }

    /** `async_write`: sends one message, or fails with an exception. */
    method Write(message: Bytes, accepted: bool) returns (ok: bool)
      modifies this`open, this`wire
      ensures ok <==> old(open) && accepted
      ensures open == ok
      ensures wire == if ok then old(wire) + [Data(message)] else old(wire)
    {
      if !open || !accepted {
        open := false;
        return false;
      }
      wire := wire + [Data(message)];
      ok := true;
    }

    method Close()
      requires open
      modifies this`open, this`wire, this`issued
      ensures !open && wire == old(wire) + [CloseFrame] && issued == old(issued) + 1
    {
      open, wire, issued := false, wire + [CloseFrame], issued + 1;
    }
  }

  /** With an empty buffer the payloads are the frames. */
  lemma NoCarry(frames: seq<Bytes>)
    ensures Payloads([], frames) == frames
  {
    PayloadsAreExact([], frames);
  }

  /** What the loop puts on the wire for a list of replies, when `writable` writes
      succeed and the peer's close, if it sends one, is answered at the end. */
  function Sent(replies: seq<Bytes>, writable: nat, peerCloses: bool): seq<Wire> {
    if replies == [] then (if peerCloses then [CloseFrame] else [])
    else if writable == 0 then []
    else [Data(replies[0])] + Sent(replies[1..], writable - 1, peerCloses)
  }

  lemma {:induction false} SentIsDelivered(replies: seq<Bytes>, writable: nat, peerCloses: bool)
    ensures var wire := Sent(replies, writable, peerCloses);
            var delivered := Delivered(replies, writable);
            && |delivered| <= |wire| && (forall i :: 0 <= i < |delivered| ==> wire[i] == Data(delivered[i]))
            && wire[|delivered|..] == if |replies| <= writable && peerCloses then [CloseFrame] else []
  {
    if replies != [] && writable > 0 {
      SentIsDelivered(replies[1..], writable - 1, peerCloses);
      var rest := Delivered(replies[1..], writable - 1);
      assert Delivered(replies, writable) == [replies[0]] + rest;
      assert Sent(replies, writable, peerCloses)[1 + |rest|..]
          == Sent(replies[1..], writable - 1, peerCloses)[|rest|..];
    }
  }

  /** What one turn puts on the wire before the rest of the loop runs. */
  lemma OneTurnSends(wire: seq<Wire>, reply: Bytes, replies: seq<Bytes>, writable: nat, peerCloses: bool)
    ensures var all := AsList(Some(reply)) + replies;
            && |all| == |replies| + 1
            && (forall before :: LastOr(all, before) == LastOr(replies, reply))
            && (writable == 0 ==> wire + Sent(all, writable, peerCloses) == wire)
            && (writable > 0 ==>
                  wire + Sent(all, writable, peerCloses) == (wire + [Data(reply)]) + Sent(replies, writable - 1, peerCloses))
  {
    assert ([reply] + replies)[1..] == replies;
  }

  class WebsocketSession {
    const router: WebsocketRouter
    const stream: WebsocketStream
    const readBuffer: FlatBuffer
    const writeBuffer: FlatBuffer

    ghost predicate Valid()
      reads this, readBuffer, writeBuffer
    {
      readBuffer != writeBuffer && readBuffer.data != writeBuffer.data && readBuffer.Valid() && writeBuffer.Valid()
    }

    /** `buffer` may still hold bytes the HTTP side read ahead. */
    constructor (router: WebsocketRouter, stream: WebsocketStream, buffer: FlatBuffer)
      requires buffer.Valid()
      ensures Valid() && this.router == router && this.stream == stream && this.readBuffer == buffer
      ensures writeBuffer.Contents() == [] && fresh(writeBuffer) && fresh(writeBuffer.data)
    {
      this.router, this.stream, this.readBuffer := router, stream, buffer;
      this.writeBuffer := new FlatBuffer();
    }

    /** The replies of the list function to the frames still to come. */
    ghost function Expected(path: Bytes, worlds: seq<World>): seq<Bytes>
      requires Valid() && |worlds| == |stream.incoming|
      reads this, router, stream, readBuffer, writeBuffer, readBuffer.data
    {
      Replies(router.routes, path, Payloads(readBuffer.Contents(), stream.incoming), worlds)
    }

    /** Reads a message, copies it out and clears the buffer. */
    method TakeMessage() returns (raw: Option<Bytes>)
      requires Valid()
      modifies stream`incoming, readBuffer, readBuffer.data
      ensures Valid() && (readBuffer.data == old(readBuffer.data) || fresh(readBuffer.data))
      ensures raw.Some? <==> stream.open && old(stream.incoming) != []
      ensures raw.None? ==> stream.incoming == old(stream.incoming) && readBuffer.Contents() == old(readBuffer.Contents())
      ensures raw.Some? ==>
                && raw == Some(old(readBuffer.Contents() + stream.incoming[0]))
                && stream.incoming == old(stream.incoming[1..]) && readBuffer.Contents() == []
    {
      var ok := stream.Read(readBuffer);
      if !ok {
        return None;
      }
      var bytes := readBuffer.Read();
      readBuffer.Clear();
      raw := Some(bytes);
    }

    /** `async_write` up to its `co_await`: the message in the write buffer. */
    method FillWriteBuffer(message: Bytes)
      requires Valid()
      modifies writeBuffer, writeBuffer.data
      ensures Valid() && (writeBuffer.data == old(writeBuffer.data) || fresh(writeBuffer.data))
      ensures writeBuffer.Contents() == message
    {
      writeBuffer.Clear();
      writeBuffer.Append(message);
    }

    /** The `co_await` of `async_write`: the stream is given the write buffer. */
    method SendWriteBuffer(accepted: bool) returns (threw: bool)
      requires Valid()
      modifies stream`open, stream`wire
      ensures Valid() && (threw <==> !(old(stream.open) && accepted)) && stream.open == !threw
      ensures stream.wire == if threw then old(stream.wire) else old(stream.wire) + [Data(writeBuffer.Contents())]
    {
      var bytes := writeBuffer.Read();
      var ok := stream.Write(bytes, accepted);
      threw := !ok;
    }

    method AsyncWrite(message: Option<Bytes>, accepted: bool) returns (threw: bool)
      requires Valid()
      modifies stream`open, stream`wire, writeBuffer, writeBuffer.data
      ensures Valid() && (writeBuffer.data == old(writeBuffer.data) || fresh(writeBuffer.data))
      ensures threw <==> message.Some? && !(old(stream.open) && accepted)
      ensures message.Some? ==> writeBuffer.Contents() == message.value && stream.open == !threw
      ensures message.None? ==> stream.open == old(stream.open) && writeBuffer.Contents() == old(writeBuffer.Contents())
      ensures stream.wire == if message.None? || threw then old(stream.wire) else old(stream.wire) + [Data(message.value)]
    {
      if message.None? {
        return false;
      }
      FillWriteBuffer(message.value);
      threw := SendWriteBuffer(accepted);
    }

    /** One turn of the loop: a message taken, handled and, unless the reply is null, answered. */
    method AnswerFrame(path: Bytes, world: World, accepted: bool) returns (raw: Option<Bytes>, response: Option<Bytes>, threw: bool)
      requires Valid() && router.Valid() && stream.open && stream.incoming != []
      modifies stream`incoming, stream`open, stream`wire, readBuffer, readBuffer.data, writeBuffer, writeBuffer.data
      ensures Valid() && (readBuffer.data == old(readBuffer.data) || fresh(readBuffer.data))
      ensures writeBuffer.data == old(writeBuffer.data) || fresh(writeBuffer.data)
      ensures raw == Some(old(readBuffer.Contents() + stream.incoming[0]))
      ensures stream.incoming == old(stream.incoming[1..]) && readBuffer.Contents() == []
      ensures response == WsRespond(router.routes, path, raw.value, world)
      ensures (threw <==> response.Some? && !accepted) && stream.open == !threw
      ensures stream.wire == if response.None? || threw then old(stream.wire) else old(stream.wire) + [Data(response.value)]
      ensures writeBuffer.Contents() == if response.Some? then response.value else old(writeBuffer.Contents())
    {
      raw := TakeMessage();
      response := router.HandleRequest(path, raw.value, world);
      threw := AsyncWrite(response, accepted);
    }

    /** The read loop, nothing else closing the stream meanwhile. The network
        takes `writable` writes, handler call `i` observes `worlds[i]`, and after its
        frames the peer closes or goes away. `threw` is the exception of a failed write. */
    method AsyncRead(path: Bytes, worlds: seq<World>, writable: nat, peerCloses: bool) returns (threw: bool)
      requires Valid() && router.Valid() && |worlds| == |stream.incoming|
      modifies stream`incoming, stream`open, stream`wire, readBuffer, readBuffer.data, writeBuffer, writeBuffer.data
      ensures Valid() && !stream.open
      ensures !old(stream.open) ==> !threw && stream.wire == old(stream.wire) && stream.incoming == old(stream.incoming)
      ensures old(stream.open) ==>
                && (threw <==> |old(Expected(path, worlds))| > writable)
                && stream.wire == old(stream.wire) + Sent(old(Expected(path, worlds)), writable, peerCloses)
                && (!threw ==> stream.incoming == [])
                && (!threw ==>
                      writeBuffer.Contents() == LastOr(old(Expected(path, worlds)), old(writeBuffer.Contents())))
      ensures readBuffer.Contents()
           == if old(stream.open && stream.incoming != []) then [] else old(readBuffer.Contents())
      decreases |stream.incoming|
    {
      if !stream.open || stream.incoming == [] {
        // The read fails, and the loop ends without a sound.
        stream.ReadEnds(peerCloses);
        return false;
      }
      ghost var wire, payloads, incoming := stream.wire, Payloads(readBuffer.Contents(), stream.incoming), stream.incoming[1..];
      ghost var all, rest := Replies(router.routes, path, payloads, worlds), Replies(router.routes, path, incoming, worlds[1..]);
      var raw, response;
      raw, response, threw := AnswerFrame(path, worlds[0], writable > 0);
      assert payloads == [raw.value] + incoming && worlds == [worlds[0]] + worlds[1..];
      OneTurn(router.routes, path, raw.value, worlds[0], incoming, worlds[1..]);
      assert all == AsList(response) + rest;
      if response.Some? {
        OneTurnSends(wire, response.value, rest, writable, peerCloses);
      } else {
        assert all == rest;
      }
      if threw {
        return;
      }
      NoCarry(incoming);
      var left := if response.Some? then writable - 1 else writable;
      ghost var sent := stream.wire;
      assert wire + Sent(all, writable, peerCloses) == sent + Sent(rest, left, peerCloses);
      assert Expected(path, worlds[1..]) == rest;
      threw := AsyncRead(path, worlds[1..], left, peerCloses);
      assert stream.wire == sent + Sent(rest, left, peerCloses);
    }

    /** The whole session from the handshake on; nothing escapes it. */
    method AsyncWait(req: RawRequest, accepted: bool, worlds: seq<World>, writable: nat, peerCloses: bool)
      requires Valid() && router.Valid() && |worlds| == |stream.incoming| && !stream.started
      modifies stream`started, stream`incoming, stream`open, stream`wire, readBuffer, readBuffer.data, writeBuffer, writeBuffer.data
      ensures !accepted || req.url.None? ==> stream.wire == old(stream.wire)
      ensures accepted && req.url.Some? ==>
                var expected := old(Expected(req.url.value.path, worlds));
                stream.wire == old(stream.wire) + Sent(expected, writable, peerCloses)
    {
      stream.Accept(accepted);
      if !accepted || req.url.None? {
        return;
      }
      var threw := AsyncRead(req.url.value.path, worlds, writable, peerCloses);
    }

    /** A second close, or one after the peer's, changes nothing. */
    method AsyncClose()
      modifies stream`open, stream`wire, stream`issued
      ensures !stream.open
      ensures old(stream.open) ==> stream.wire == old(stream.wire) + [CloseFrame] && stream.issued == old(stream.issued) + 1
      ensures !old(stream.open) ==> stream.wire == old(stream.wire) && stream.issued == old(stream.issued)
    {
      if !stream.open {
        return;
      }
      stream.Close();
    }
  }

  /** The coroutines of a session, suspended at the `co_await` that `stage` names:
      the session, its byte-array buffers and its stream follow every run. */
  class WebsocketDriver {
    const session: WebsocketSession
    const path: Bytes
    var stage: Stage
    ghost var received: seq<Bytes>
    ghost var worlds: seq<World>

    ghost predicate Valid()
      reads this, session, session.readBuffer, session.writeBuffer, session.router
    {
      session.Valid() && session.router.Valid()
    }

    /** The state of the machine these objects are in. */
    ghost function View(): Session
      requires Valid()
      reads this, session, session.router, session.stream, session.readBuffer, session.writeBuffer
      reads session.readBuffer.data, session.writeBuffer.data
    {
      Session(stage, session.stream.open, session.readBuffer.Contents(), session.writeBuffer.Contents(),
              session.stream.incoming, received, worlds, session.stream.wire, session.stream.issued)
    }

    /** Just after the handshake. */
    constructor (session: WebsocketSession, path: Bytes)
      requires session.Valid() && session.router.Valid() && session.writeBuffer.Contents() == []
      requires session.stream.open && session.stream.wire == [] && session.stream.issued == 0
      ensures this.session == session && this.path == path
      ensures Valid() && View() == Init(session.readBuffer.Contents(), session.stream.incoming)
    {
      this.session, this.path := session, path;
      this.stage, this.received, this.worlds := AtRead, [], [];
    }

    /** `async_read` resumes with a message; the handler starts. */
    method FrameArrived()
      requires Valid() && Enabled(View(), FrameArrives)
      modifies this, session.stream`incoming, session.readBuffer, session.readBuffer.data
      ensures Valid() && (session.readBuffer.data == old(session.readBuffer.data) || fresh(session.readBuffer.data))
      ensures View() == Next(session.router.routes, path, old(View()), FrameArrives)
    {
      var raw := session.TakeMessage();
      if raw.None? {
        stage := Ended;
      } else {
        received := received + [raw.value];
        stage := Handling(raw.value);
      }
    }

    /** `async_read` resumes with an error. */
    method ReadEnded(peerCloses: bool)
      requires Valid() && stage.AtRead?
      modifies this, session.stream`open, session.stream`wire
      ensures Valid()
      ensures View() == Next(session.router.routes, path, old(View()), if peerCloses then PeerCloses else ReadFails)
    {
      session.stream.ReadEnds(peerCloses);
      stage := Ended;
    }

    /** The handler has finished: either its reply is on its way, or the next read starts. */
    method HandlerFinished(world: World)
      requires Valid() && Enabled(View(), HandlerDone(world))
      modifies this, session.writeBuffer, session.writeBuffer.data
      ensures Valid() && (session.writeBuffer.data == old(session.writeBuffer.data) || fresh(session.writeBuffer.data))
      ensures View() == Next(session.router.routes, path, old(View()), HandlerDone(world))
    {
      var response := session.router.HandleRequest(path, stage.raw, world);
      worlds := worlds + [world];
      if response.Some? {
        session.FillWriteBuffer(response.value);
        stage := Sending(response.value);
      } else {
        stage := AtRead;
      }
    }

    /** `async_write` resumes: the next read starts, or its exception ends the loop. */
    method SendFinished(accepted: bool)
      requires Valid() && Enabled(View(), SendDone(accepted))
      modifies this, session.stream`open, session.stream`wire
      ensures Valid() && View() == Next(session.router.routes, path, old(View()), SendDone(accepted))
    {
      var threw := session.SendWriteBuffer(accepted);
      stage := if threw then Ended else AtRead;
    }

    /** The separately spawned close. */
    method Closed()
      requires Valid()
      modifies session.stream`open, session.stream`wire, session.stream`issued
      ensures Valid() && View() == Next(session.router.routes, path, old(View()), CloseCalled)
    {
      session.AsyncClose();
    }

    method Dispatch(ev: Event)
      requires Valid() && Enabled(View(), ev)
      modifies this, session.stream, session.readBuffer, session.readBuffer.data, session.writeBuffer, session.writeBuffer.data
      ensures Valid() && View() == Next(session.router.routes, path, old(View()), ev)
      ensures session.readBuffer.data == old(session.readBuffer.data) || fresh(session.readBuffer.data)
      ensures session.writeBuffer.data == old(session.writeBuffer.data) || fresh(session.writeBuffer.data)
    {
      match ev {
        case FrameArrives => FrameArrived();
        case PeerCloses => ReadEnded(true);
        case ReadFails => ReadEnded(false);
        case HandlerDone(world) => HandlerFinished(world);
        case SendDone(accepted) => SendFinished(accepted);
        case CloseCalled => Closed();
      }
    }

    /** The objects follow every run of the state machine, closes interleaved
        anywhere, so all that is proved of its runs holds of them. */
    method Play(evs: seq<Event>)
      requires Valid() && Legal(session.router.routes, path, View(), evs)
      modifies this, session.stream, session.readBuffer, session.readBuffer.data, session.writeBuffer, session.writeBuffer.data
      ensures Valid() && View() == Run(session.router.routes, path, old(View()), evs)
    {
      ghost var routes := session.router.routes;
      for i := 0 to |evs|
        invariant Valid() && session.router.routes == routes
        invariant session.readBuffer.data == old(session.readBuffer.data) || fresh(session.readBuffer.data)
        invariant session.writeBuffer.data == old(session.writeBuffer.data) || fresh(session.writeBuffer.data)
        invariant Legal(routes, path, View(), evs[i..])
        invariant Run(routes, path, View(), evs[i..]) == Run(routes, path, old(View()), evs)
      {
        assert evs[i..][0] == evs[i] && evs[i..][1..] == evs[i + 1..];
        Dispatch(evs[i]);
      }
    }
  }
}
