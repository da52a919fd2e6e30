/**
  Whole transfers through the real objects: payload lists sent with `SendFrame` or
  `Session::Send`, carried over the wire, and recovered with `RecvFrame` or `Receive`. The
  loops leave every partial send, partial receive and chunk size open, so each contract holds
  for every schedule.
 */
module Transfers {
  import opened Framing
  import opened Connection
  import opened FrameBuffers
  import opened Dispatcher
  import opened PacketStreams

  lemma SentAllCons(p: Bytes, ps: seq<Bytes>)
    ensures SentAll([p] + ps) == SentFrame(p) + SentAll(ps)
  {
    assert ([p] + ps)[1..] == ps;
  }

  lemma HeadFirst<T>(s: seq<T>, x: T)
    requires s != []
    ensures s + [x] == [s[0]] + (s[1..] + [x]) && [s[0]] + s[1..] == s
  {
  }

  lemma {:induction false} SentAllSnoc(ps: seq<Bytes>, p: Bytes)
    ensures SentAll(ps + [p]) == SentAll(ps) + SentFrame(p)
  {
    if ps == [] {
      SentAllCons(p, []);
      assert ps + [p] == [p] + [];
    } else {
      SentAllSnoc(ps[1..], p);
      HeadFirst(ps, p);
      SentAllCons(ps[0], ps[1..] + [p]);
      Assoc(SentFrame(ps[0]), SentAll(ps[1..]), SentFrame(p));
    }
  }

  lemma {:induction false} FrameAllSnoc(ps: seq<Bytes>, p: Bytes)
    ensures FrameAll(ps + [p]) == FrameAll(ps) + Frame(p)
  {
    if ps == [] {
      FrameAllCons(p, []);
      assert ps + [p] == [p] + [];
    } else {
      FrameAllSnoc(ps[1..], p);
      HeadFirst(ps, p);
      FrameAllCons(ps[0], ps[1..] + [p]);
      FrameAllCons(ps[0], ps[1..]);
      Assoc(Frame(ps[0]), FrameAll(ps[1..]), Frame(p));
    }
  }

  // ---------------------------------------------------------------- sending

  /** One SendFrame per payload until one fails. The wire holds all frames of the payloads
      sent, then at most a proper prefix of the next. */
  method SendFrames(stream: PacketStream, ps: seq<Bytes>) returns (r: Res, n: nat)
    modifies stream.socket`sent
    ensures n <= |ps| && (r.Ok? <==> n == |ps|)
    ensures r.Ok? ==> stream.socket.sent == old(stream.socket.sent) + SentAll(ps)
    ensures r.Err? ==>
      exists k | 0 <= k < |SentFrame(ps[n])| ::
        stream.socket.sent == old(stream.socket.sent) + SentAll(ps[..n]) + SentFrame(ps[n])[..k]
    ensures stream.socket.connected && stream.socket.reliable ==> r.Ok?
  {
    r, n := Ok, 0;
    assert old(stream.socket.sent) + SentAll(ps[..0]) == old(stream.socket.sent);
    while n < |ps|
      invariant n <= |ps| && r.Ok?
      invariant stream.socket.sent == old(stream.socket.sent) + SentAll(ps[..n])
    {
      r := stream.SendFrame(ps[n]);
      if r.Err? {
        return;
      }
      assert ps[..n + 1] == ps[..n] + [ps[n]];
      SentAllSnoc(ps[..n], ps[n]);
      n := n + 1;
    }
    assert ps[..n] == ps;
  }

  /** What of a list of payloads fits the session's send buffer. */
  function Postable(ps: seq<Bytes>): seq<Bytes>
  {
    if ps == [] then []
    else
      var init, last := ps[..|ps| - 1], ps[|ps| - 1];
      if Fits(last) then Postable(init) + [last] else Postable(init)
  }

  /** One Session::Send per payload on an open connection: the wire gets the frames of
      exactly the payloads that fit, in order. */
  method PostAll(ps: seq<Bytes>) returns (wire: Bytes)
    ensures wire == FrameAll(Postable(ps))
  {
    wire := [];
    assert ps[..0] == [];
    for i := 0 to |ps|
      invariant wire == FrameAll(Postable(ps[..i]))
    {
      PostableSnoc(ps[..i], ps[i]);
      assert ps[..i + 1] == ps[..i] + [ps[i]];
      var posted := SessionSend(true, ps[i]);
      if posted.Post? {
        wire := wire + posted.frame;
      }
    }
    assert ps[..|ps|] == ps;
  }

  predicate Fits(p: Bytes)
  {
    |p| <= 1020
  }

  lemma PostableSnoc(ps: seq<Bytes>, p: Bytes)
    ensures Fits(p) ==> FrameAll(Postable(ps + [p])) == FrameAll(Postable(ps)) + Frame(p)
    ensures !Fits(p) ==> Postable(ps + [p]) == Postable(ps)
  {
    PostableStep(ps, p);
    FrameAllSnoc(Postable(ps), p);
  }

  lemma PostableStep(ps: seq<Bytes>, p: Bytes)
    ensures Postable(ps + [p]) == if Fits(p) then Postable(ps) + [p] else Postable(ps)
  {
    assert (ps + [p])[..|ps|] == ps;
  }

  lemma {:induction false} PostableFits(ps: seq<Bytes>)
    ensures PayloadsWithin(Postable(ps), 1020)
    ensures PayloadsWithin(ps, 1020) ==> Postable(ps) == ps
  {
    if ps != [] {
      PostableFits(ps[..|ps| - 1]);
      assert ps == ps[..|ps| - 1] + [ps[|ps| - 1]];
    }
  }

  // ---------------------------------------------------------------- pulling

  /** RecvFrame until the first error: everything the pull decoder makes of the stream, on a
      socket that may also fail early a prefix of it. */
  method RecvFrames(stream: PacketStream) returns (got: seq<Bytes>)
    requires 0 < stream.maxFrameSize <= MAX_FRAME_SIZE
    modifies stream.socket`incoming
    ensures got <= PullAll(stream.maxFrameSize, old(stream.socket.incoming))
    ensures stream.socket.connected && stream.socket.reliable ==>
      got == PullAll(stream.maxFrameSize, old(stream.socket.incoming))
  {
    got := [];
    ghost var all := PullAll(stream.maxFrameSize, stream.socket.incoming);
    assert got + all == all;
    while true
      invariant got + PullAll(stream.maxFrameSize, stream.socket.incoming) == all
      decreases |stream.socket.incoming|
    {
      ghost var wire := stream.socket.incoming;
      var r, payload := stream.RecvFrame();
      if r.ErrSize? {
        assert stream.socket.connected && stream.socket.reliable ==> PullAll(stream.maxFrameSize, wire) == [];
        return;
      }
      PullStep(stream.maxFrameSize, wire, got, payload, stream.socket.incoming);
      got := got + [payload];
    }
  }

  lemma PullStep(maxFrameSize: nat, wire: Bytes, got: seq<Bytes>, payload: Bytes, rest: Bytes)
    requires PullFrame(maxFrameSize, wire) == Got(payload, rest)
    ensures got + PullAll(maxFrameSize, wire) == got + [payload] + PullAll(maxFrameSize, rest)
    ensures |rest| < |wire|
  {
    assert PullAll(maxFrameSize, wire) == [payload] + PullAll(maxFrameSize, rest);
    Append3(got, [payload], PullAll(maxFrameSize, rest));
  }

  lemma Append3<T>(a: seq<T>, b: seq<T>, c: seq<T>)
    ensures a + (b + c) == a + b + c
  {
  }

  // ---------------------------------------------------------------- pushing

  /** The client and what it has queued are those of a connection fed with `chunks`. */
  ghost predicate FedWith(dispatcher: PacketDispatcher, client: Client, chunks: seq<Bytes>, before: seq<Command>)
    reads dispatcher, dispatcher.queue, client, client.frameBuf, client.frameBuf.buf
  {
    var c := Feed(dispatcher.valid, chunks);
    && client.frameBuf.Valid() && client.frameBuf.Data() == c.buffer && client.connected == c.life.Live?
    && dispatcher.queue.writeQueue == before + Commands(client, dispatcher.typeOf, c.pushed)
  }

  method ReceiveChunk(dispatcher: PacketDispatcher, client: Client, chunk: Bytes,
                      ghost chunks: seq<Bytes>, ghost before: seq<Command>)
    requires FedWith(dispatcher, client, chunks, before) && client.connected
    modifies client, client.frameBuf, client.frameBuf.buf
    modifies dispatcher.queue, dispatcher`queueGauge, dispatcher`validated, dispatcher`rejected
    ensures FedWith(dispatcher, client, chunks + [chunk], before)
  {
    ghost var c := Feed(dispatcher.valid, chunks);
    FeedSnoc(dispatcher.valid, chunks, chunk);
    PushedSince(dispatcher.valid, client, dispatcher.typeOf, c, chunk);
    dispatcher.Receive(client, chunk);
    ghost var part := OnChunk(dispatcher.valid, Conn(c.buffer, [], Live), chunk);
    Append3(before, Commands(client, dispatcher.typeOf, c.pushed), Commands(client, dispatcher.typeOf, part.pushed));
  }

  /** The wire arrives in chunks of any sizes a receive buffer allows, until it is all there
      or the client has been closed. */
  method ReceiveWire(dispatcher: PacketDispatcher, client: Client, wire: Bytes) returns (ghost chunks: seq<Bytes>)
    requires client.frameBuf.Valid() && client.frameBuf.Data() == [] && client.connected
    modifies client, client.frameBuf, client.frameBuf.buf
    modifies dispatcher.queue, dispatcher`queueGauge, dispatcher`validated, dispatcher`rejected
    ensures ChunksWithin(chunks, RECV_BUFFER_SIZE) && Flatten(chunks) <= wire
    ensures client.connected ==> Flatten(chunks) == wire
    ensures FedWith(dispatcher, client, chunks, old(dispatcher.queue.writeQueue))
  {
    chunks := [];
    var at := 0;
    while at < |wire| && client.connected
      invariant at <= |wire|
      invariant ChunksWithin(chunks, RECV_BUFFER_SIZE) && Flatten(chunks) == wire[..at]
      invariant FedWith(dispatcher, client, chunks, old(dispatcher.queue.writeQueue))
      decreases |wire| - at
    {
      var n :| 0 < n <= RECV_BUFFER_SIZE && at + n <= |wire|;
      var chunk := wire[at..at + n];
      ReceiveChunk(dispatcher, client, chunk, chunks, old(dispatcher.queue.writeQueue));
      ChunkAdded(chunks, wire, at, n);
      chunks := chunks + [chunk];
      at := at + n;
    }
  }

  lemma ChunkAdded(chunks: seq<Bytes>, wire: Bytes, at: nat, n: nat)
    requires ChunksWithin(chunks, RECV_BUFFER_SIZE) && n <= RECV_BUFFER_SIZE
    requires at + n <= |wire| && Flatten(chunks) == wire[..at]
    ensures var longer := chunks + [wire[at..at + n]];
            ChunksWithin(longer, RECV_BUFFER_SIZE) && Flatten(longer) == wire[..at + n]
  {
    FlattenSnoc(chunks, wire[at..at + n]);
    JoinSlices(wire, at, n);
  }

  lemma JoinSlices(wire: Bytes, at: nat, n: nat)
    requires at + n <= |wire|
    ensures wire[..at] + wire[at..at + n] == wire[..at + n]
  {
  }

  lemma FlattenSnoc(chunks: seq<Bytes>, chunk: Bytes)
    ensures Flatten(chunks + [chunk]) == Flatten(chunks) + chunk
  {
    assert (chunks + [chunk])[..|chunks|] == chunks;
  }

  lemma FeedSnoc(valid: Verifier, chunks: seq<Bytes>, chunk: Bytes)
    ensures Feed(valid, chunks + [chunk]) == OnChunk(valid, Feed(valid, chunks), chunk)
    ensures Flatten(chunks + [chunk]) == Flatten(chunks) + chunk
  {
    assert (chunks + [chunk])[..|chunks|] == chunks;
  }

  /** What a chunk adds does not depend on what was pushed before. */
  lemma PushedSince(valid: Verifier, client: Client, typeOf: Bytes -> PayloadType, c: Conn, chunk: Bytes)
    requires c.life.Live?
    ensures var whole, part := OnChunk(valid, c, chunk), OnChunk(valid, Conn(c.buffer, [], Live), chunk);
      && whole.buffer == part.buffer && whole.life == part.life
      && Commands(client, typeOf, whole.pushed)
         == Commands(client, typeOf, c.pushed) + Commands(client, typeOf, part.pushed)
  {
  }

  // ---------------------------------------------------------------- round trips

  /** Whatever was sent before a send failed is frames of a prefix of the payloads and less
      than one frame more. */
  ghost predicate SentPrefix(wire: Bytes, ps: seq<Bytes>)
  {
    exists n | 0 <= n <= |ps| :: SentUpTo(wire, ps, n)
  }

  ghost predicate SentUpTo(wire: Bytes, ps: seq<Bytes>, n: nat)
    requires n <= |ps|
  {
    || (n == |ps| && wire == SentAll(ps))
    || (n < |ps| && exists k | 0 <= k < |SentFrame(ps[n])| :: wire == SentAll(ps[..n]) + SentFrame(ps[n])[..k])
  }

  /** A connection on which no call fails. */
  ghost predicate Sound(socket: TcpClientSocket)
    reads socket
  {
    socket.connected && socket.reliable
  }

  /** SendFrame for each payload on a new connection: all of them, or a prefix on failure. */
  method SendNew(sender: PacketStream, ps: seq<Bytes>)
    requires sender.socket.sent == []
    modifies sender.socket`sent
    ensures SentPrefix(sender.socket.sent, ps)
    ensures sender.socket.connected && sender.socket.reliable ==> sender.socket.sent == SentAll(ps)
  {
    var r, n := SendFrames(sender, ps);
    if r.Ok? {
      assert [] + SentAll(ps) == SentAll(ps);
    } else {
      assert [] + SentAll(ps[..n]) == SentAll(ps[..n]);
    }
    assert SentUpTo(sender.socket.sent, ps, n);
  }

  lemma {:induction false} SentAllAppend(a: seq<Bytes>, b: seq<Bytes>)
    ensures SentAll(a + b) == SentAll(a) + SentAll(b)
  {
    if a == [] {
      assert a + b == b;
    } else {
      assert (a + b)[1..] == a[1..] + b;
      SentAllAppend(a[1..], b);
      Assoc(SentFrame(a[0]), SentAll(a[1..]), SentAll(b));
    }
  }

  /** What was sent is a prefix of the whole. */
  lemma SentPrefixIsPrefix(wire: Bytes, ps: seq<Bytes>)
    requires SentPrefix(wire, ps)
    ensures wire <= SentAll(ps)
  {
    var n :| 0 <= n <= |ps| && SentUpTo(wire, ps, n);
    if n < |ps| {
      var f := SentFrame(ps[n]);
      var k :| 0 <= k < |f| && wire == SentAll(ps[..n]) + f[..k];
      var rest := SentAll(ps[n + 1..]);
      assert ps == ps[..n] + ([ps[n]] + ps[n + 1..]);
      SentAllAppend(ps[..n], [ps[n]] + ps[n + 1..]);
      SentAllCons(ps[n], ps[n + 1..]);
      PrefixOfJoin(SentAll(ps[..n]), f, k, rest);
    }
  }

  lemma PrefixOfJoin(a: Bytes, f: Bytes, k: nat, rest: Bytes)
    requires k <= |f|
    ensures a + f[..k] <= a + (f + rest)
  {
  }

  /** A prefix of framed payloads pulls as a prefix of the payloads. */
  lemma {:induction false} PullPrefix(maxFrameSize: nat, ps: seq<Bytes>, wire: Bytes)
    requires maxFrameSize <= MAX_FRAME_SIZE && PayloadsWithin(ps, maxFrameSize) && wire <= FrameAll(ps)
    ensures PullAll(maxFrameSize, wire) <= ps
    decreases |ps|
  {
    if ps != [] {
      var f := Frame(ps[0]);
      FrameAllCons(ps[0], ps[1..]);
      assert [ps[0]] + ps[1..] == ps;
      if |f| <= |wire| {
        var rest := wire[|f|..];
        assert wire == f + rest && rest <= FrameAll(ps[1..]);
        PullOneFrame(maxFrameSize, ps[0], rest);
        PullPrefix(maxFrameSize, ps[1..], rest);
      } else {
        ShortPulls(maxFrameSize, ps[0], wire);
      }
    }
  }

  lemma ShortPulls(maxFrameSize: nat, p: Bytes, wire: Bytes)
    requires |p| <= maxFrameSize <= MAX_FRAME_SIZE && wire <= Frame(p) && |wire| < |Frame(p)|
    ensures PullAll(maxFrameSize, wire) == []
  {
    if |wire| >= HEADER_SIZE {
      FrameParts(p, []);
      assert Frame(p) + [] == Frame(p) && wire[..HEADER_SIZE] == Frame(p)[..HEADER_SIZE];
    }
  }

  /** Whatever SendFrame puts on a connection, pulling with RecvFrame recovers: a prefix of the
      payloads, in order and unchanged, wherever either side fails, and all of them when
      neither does. */
  method PullTransfer(sender: PacketStream, receiver: PacketStream, ps: seq<Bytes>) returns (got: seq<Bytes>)
    requires sender.socket != receiver.socket && sender.socket.sent == []
    requires 0 < receiver.maxFrameSize <= MAX_FRAME_SIZE && PayloadsWithin(ps, receiver.maxFrameSize)
    modifies sender.socket`sent, receiver.socket`incoming
    ensures got <= ps
    ensures Sound(sender.socket) && Sound(receiver.socket) ==> got == ps
  {
    PulledBack(receiver.maxFrameSize, ps);
    SendNew(sender, ps);
    var wire := sender.socket.sent;
    SentPrefixIsPrefix(wire, ps);
    SentAllIsFrameAll(ps);
    PullPrefix(receiver.maxFrameSize, ps, wire);
    receiver.socket.incoming := wire;
    got := RecvFrames(receiver);
  }

  lemma PullExactly(maxFrameSize: nat, ps: seq<Bytes>)
    requires maxFrameSize <= MAX_FRAME_SIZE && PayloadsWithin(ps, maxFrameSize)
    ensures PullAll(maxFrameSize, FrameAll(ps)) == ps
  {
    PullRoundTrip(maxFrameSize, ps, []);
    assert FrameAll(ps) + [] == FrameAll(ps) && ps + [] == ps;
  }

  lemma PulledBack(maxFrameSize: nat, ps: seq<Bytes>)
    requires maxFrameSize <= MAX_FRAME_SIZE && PayloadsWithin(ps, maxFrameSize)
    ensures PullAll(maxFrameSize, SentAll(ps)) == ps
  {
    SentAllIsFrameAll(ps);
    PullExactly(maxFrameSize, ps);
  }

  /** Whatever SendFrame puts on a connection, `Receive` pushes, chunk sizes chosen freely: a
      prefix of the payloads with the client still open, wherever the connection breaks off;
      all of them, with an empty buffer, when it does not. */
  method PushTransfer(sender: PacketStream, dispatcher: PacketDispatcher, client: Client, ps: seq<Bytes>,
                      arrives: nat) returns (n: nat)
    requires sender.socket.sent == []
    requires client.frameBuf.Valid() && client.frameBuf.Data() == [] && client.connected
    requires Acceptable(dispatcher.valid, ps) && PayloadsWithin(ps, SAFE_PAYLOAD)
    modifies sender.socket`sent, client, client.frameBuf, client.frameBuf.buf
    modifies dispatcher.queue, dispatcher`queueGauge, dispatcher`validated, dispatcher`rejected
    ensures n <= |ps| && client.frameBuf.Valid() && client.connected
    ensures dispatcher.queue.writeQueue
         == old(dispatcher.queue.writeQueue) + Commands(client, dispatcher.typeOf, ps[..n])
    ensures sender.socket.connected && sender.socket.reliable && arrives >= |SentAll(ps)| ==>
              n == |ps| && client.frameBuf.Data() == []
  {
    SendNew(sender, ps);
    var sent := sender.socket.sent;
    SentPrefixIsPrefix(sent, ps);
    SentAllIsFrameAll(ps);
    var wire := if arrives < |sent| then sent[..arrives] else sent;
    n := PushWire(dispatcher, client, wire, ps);
  }

  /** Any part of the frames that arrives: how many payloads were pushed. */
  method PushWire(dispatcher: PacketDispatcher, client: Client, wire: Bytes, ghost ps: seq<Bytes>) returns (n: nat)
    requires client.frameBuf.Valid() && client.frameBuf.Data() == [] && client.connected
    requires Acceptable(dispatcher.valid, ps) && PayloadsWithin(ps, SAFE_PAYLOAD) && wire <= FrameAll(ps)
    modifies client, client.frameBuf, client.frameBuf.buf
    modifies dispatcher.queue, dispatcher`queueGauge, dispatcher`validated, dispatcher`rejected
    ensures n <= |ps| && client.frameBuf.Valid() && client.connected
    ensures dispatcher.queue.writeQueue
         == old(dispatcher.queue.writeQueue) + Commands(client, dispatcher.typeOf, ps[..n])
    ensures wire == FrameAll(ps) ==> n == |ps| && client.frameBuf.Data() == []
  {
    var before := |dispatcher.queue.writeQueue|;
    ghost var chunks := ReceiveWire(dispatcher, client, wire);
    PushedBack(dispatcher.valid, ps, chunks);
    n := |dispatcher.queue.writeQueue| - before;
  }

  lemma PushedBack(valid: Verifier, ps: seq<Bytes>, chunks: seq<Bytes>)
    requires Acceptable(valid, ps) && PayloadsWithin(ps, SAFE_PAYLOAD)
    requires ChunksWithin(chunks, RECV_BUFFER_SIZE) && Flatten(chunks) <= FrameAll(ps)
    ensures var c := Feed(valid, chunks);
      && c.life.Live? && c.pushed <= ps && c.pushed == ps[..|c.pushed|]
      && (Flatten(chunks) == FrameAll(ps) ==> c == Conn([], ps, Live))
  {
    PrefixNeverCloses(valid, ps, chunks);
    PushedPrefix(valid, ps, chunks);
    if Flatten(chunks) == FrameAll(ps) {
      PushRoundTrip(valid, ps, chunks);
    }
  }

  lemma PushedPrefix(valid: Verifier, ps: seq<Bytes>, chunks: seq<Bytes>)
    requires Acceptable(valid, ps) && PayloadsWithin(ps, SAFE_PAYLOAD)
    requires ChunksWithin(chunks, RECV_BUFFER_SIZE) && Flatten(chunks) <= FrameAll(ps)
    ensures Feed(valid, chunks).pushed <= ps
  {
    ChunkingIndependence(valid, chunks);
    DeframePrefix(valid, ps, Flatten(chunks));
  }

  lemma WholeMeaning(valid: Verifier, ps: seq<Bytes>)
    requires Acceptable(valid, ps)
    ensures Deframe(valid, FrameAll(ps)) == Deframed(ps, [], Open)
  {
    DeframeFrames(valid, ps, []);
    assert FrameAll(ps) + [] == FrameAll(ps) && ps + [] == ps;
  }

  lemma ContinueExtends(valid: Verifier, d: Deframed, t: Bytes)
    ensures d.payloads <= Continue(valid, d, t).payloads
    ensures Continue(valid, d, t).status.Open? ==> d.status.Open?
  {
  }

  /** Every prefix of valid frames is open and means a prefix of their payloads. */
  lemma DeframePrefix(valid: Verifier, ps: seq<Bytes>, s: Bytes)
    requires Acceptable(valid, ps) && s <= FrameAll(ps)
    ensures Deframe(valid, s).status.Open? && Deframe(valid, s).payloads <= ps
  {
    var t := FrameAll(ps)[|s|..];
    assert FrameAll(ps) == s + t;
    DeframeAppend(valid, s, t);
    WholeMeaning(valid, ps);
    ContinueExtends(valid, Deframe(valid, s), t);
  }

  /** Valid frames within the bound keep the connection open at every point of the stream. */
  lemma PrefixNeverCloses(valid: Verifier, ps: seq<Bytes>, chunks: seq<Bytes>)
    requires Acceptable(valid, ps) && PayloadsWithin(ps, SAFE_PAYLOAD)
    requires ChunksWithin(chunks, RECV_BUFFER_SIZE) && Flatten(chunks) <= FrameAll(ps)
    ensures Feed(valid, chunks).life.Live?
  {
    NeverOverflows(valid, ps, chunks);
    ChunkingIndependence(valid, chunks);
    DeframePrefix(valid, ps, Flatten(chunks));
  }

  /** A list of payloads posted by a session is recovered by RecvFrame, except the ones too
      big for the send buffer; nothing is lost when all fit, and an interrupted receiver has
      a prefix. */
  method SessionTransfer(receiver: PacketStream, ps: seq<Bytes>) returns (got: seq<Bytes>)
    requires 1020 <= receiver.maxFrameSize <= MAX_FRAME_SIZE
    modifies receiver.socket`incoming
    ensures got <= Postable(ps)
    ensures receiver.socket.connected && receiver.socket.reliable ==> got == Postable(ps)
    ensures PayloadsWithin(ps, 1020) ==> Postable(ps) == ps
  {
    PostableFits(ps);
    PullExactly(receiver.maxFrameSize, Postable(ps));
    receiver.socket.incoming := PostAll(ps);
    got := RecvFrames(receiver);
  }
}
