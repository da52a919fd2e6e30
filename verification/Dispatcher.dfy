/** The command queue and the packet dispatcher that fills and drains it. */
module Dispatcher {
  import opened Framing
  import opened FrameBuffers
  import opened Connection

  type PayloadType = int

  datatype Command = Command(client: Client, payloadType: PayloadType, data: Bytes)

  /** Multiple producers push under a lock; the single consumer swaps the whole vector out. */
  class CommandQueue {
    var writeQueue: seq<Command>

    constructor ()
      ensures writeQueue == []
    {
      writeQueue := [];
    }

    method Push(item: Command)
      modifies this
      ensures writeQueue == old(writeQueue) + [item]
    {
      writeQueue := writeQueue + [item];
    }

    /** `out` is the caller's previous batch; its contents are discarded. */
    method DrainTo(out: seq<Command>) returns (drained: seq<Command>)
      modifies this
      ensures drained == old(writeQueue) && writeQueue == []
    {
      drained := out;
      drained := [];
      drained, writeQueue := writeQueue, drained;
    }
  }

  class Client {
    const frameBuf: FrameBuffer
    var connected: bool

    constructor ()
      ensures connected && frameBuf.Valid() && frameBuf.Data() == []
      ensures fresh(frameBuf) && fresh(frameBuf.buf)
    {
      frameBuf := new FrameBuffer();
      connected := true;
    }

    method Close()
      modifies this
      ensures !connected
    {
      connected := false;
    }
  }

  /** The commands that carry `payloads` of one client. */
  function Commands(client: Client, typeOf: Bytes -> PayloadType, payloads: seq<Bytes>): (cs: seq<Command>)
    ensures |cs| == |payloads|
  {
    seq(|payloads|, i requires 0 <= i < |payloads| => Command(client, typeOf(payloads[i]), payloads[i]))
  }

  lemma CommandsSnoc(client: Client, typeOf: Bytes -> PayloadType, payloads: seq<Bytes>, p: Bytes)
    ensures Commands(client, typeOf, payloads + [p])
         == Commands(client, typeOf, payloads) + [Command(client, typeOf(p), p)]
  {
  }

  /** What is left in the buffer after a pass: a whole frame is consumed whether or not it
      verified. */
  function Consumed(buf: Bytes, r: ScanResult): Bytes
    requires r.Accepted? || r.Rejected? ==> r.frameSize <= |buf|
  {
    if r.Accepted? || r.Rejected? then buf[r.frameSize..] else buf
  }

  lemma DeframeAccepted(valid: Verifier, sofar: seq<Bytes>, buf: Bytes)
    requires Scan(valid, buf).Accepted?
    ensures var r := Scan(valid, buf);
            Prepend(sofar, Deframe(valid, buf)) == Prepend(sofar + [r.payload], Deframe(valid, Consumed(buf, r)))
  {
    var r := Scan(valid, buf);
    PrependPrepend(sofar, [r.payload], Deframe(valid, buf[r.frameSize..]));
  }

  lemma DeframeStopped(valid: Verifier, sofar: seq<Bytes>, buf: Bytes)
    requires !Scan(valid, buf).Accepted?
    ensures var r := Scan(valid, buf);
            && Prepend(sofar, Deframe(valid, buf)) == Deframed(sofar, Consumed(buf, r), Deframe(valid, buf).status)
            && (Deframe(valid, buf).status.Open? <==> r.NeedMore?)
  {
    assert sofar + [] == sofar;
  }

  /** The commands a handler is registered for, in order. */
  function Handled(handlers: set<PayloadType>, batch: seq<Command>): seq<Command>
  {
    if batch == [] then []
    else
      var init, last := batch[..|batch| - 1], batch[|batch| - 1];
      Handled(handlers, init) + if last.payloadType in handlers then [last] else []
  }

  /** Every command of one client has a handler. */
  predicate AllHandled(handlers: set<PayloadType>, batch: seq<Command>, client: Client)
  {
    forall cmd <- batch | cmd.client == client :: cmd.payloadType in handlers
  }

  lemma HandledSnoc(handlers: set<PayloadType>, batch: seq<Command>, cmd: Command)
    ensures Handled(handlers, batch + [cmd])
         == Handled(handlers, batch) + if cmd.payloadType in handlers then [cmd] else []
    ensures forall c: Client {:trigger AllHandled(handlers, batch + [cmd], c)} ::
      AllHandled(handlers, batch + [cmd], c) <==>
        AllHandled(handlers, batch, c) && (cmd.client == c ==> cmd.payloadType in handlers)
  {
    assert (batch + [cmd])[..|batch|] == batch;
  }

  lemma {:induction false} HandledMember(handlers: set<PayloadType>, batch: seq<Command>, cmd: Command)
    ensures cmd in Handled(handlers, batch) <==> cmd in batch && cmd.payloadType in handlers
  {
    if batch != [] {
      HandledMember(handlers, batch[..|batch| - 1], cmd);
      LastOrBefore(batch, cmd);
    }
  }

  lemma LastOrBefore(batch: seq<Command>, cmd: Command)
    requires batch != []
    ensures cmd in batch <==> cmd in batch[..|batch| - 1] || cmd == batch[|batch| - 1]
  {
    assert batch == batch[..|batch| - 1] + [batch[|batch| - 1]];
  }

  lemma {:induction false} HandledAll(handlers: set<PayloadType>, batch: seq<Command>)
    requires forall i | 0 <= i < |batch| :: batch[i].payloadType in handlers
    ensures Handled(handlers, batch) == batch
  {
    if batch != [] {
      HandledAll(handlers, batch[..|batch| - 1]);
    }
  }

  /** Exactly the commands with a handler, and all of them in order when every one has one. */
  lemma HandledExactly(handlers: set<PayloadType>, batch: seq<Command>)
    ensures forall cmd :: cmd in Handled(handlers, batch) <==> cmd in batch && cmd.payloadType in handlers
    ensures (forall cmd <- batch :: cmd.payloadType in handlers) ==> Handled(handlers, batch) == batch
  {
    forall cmd
      ensures cmd in Handled(handlers, batch) <==> cmd in batch && cmd.payloadType in handlers
    {
      HandledMember(handlers, batch, cmd);
    }
    if forall cmd <- batch :: cmd.payloadType in handlers {
      HandledAll(handlers, batch);
    }
  }

  class PacketDispatcher {
    const valid: Verifier
    const typeOf: Bytes -> PayloadType
    const handlers: set<PayloadType>
    const queue: CommandQueue
    var tickBatch: seq<Command>
    var queueGauge: int
    var validated: nat
    var rejected: nat

    constructor (valid: Verifier, typeOf: Bytes -> PayloadType, handlers: set<PayloadType>)
      ensures this.valid == valid && this.typeOf == typeOf && this.handlers == handlers
      ensures fresh(queue) && queue.writeQueue == [] && tickBatch == []
      ensures queueGauge == 0 && validated == 0 && rejected == 0
    {
      this.valid := valid;
      this.typeOf := typeOf;
      this.handlers := handlers;
      queue := new CommandQueue();
      tickBatch, queueGauge, validated, rejected := [], 0, 0, 0;
    }

    method PushCommand(client: Client, payload: Bytes)
      modifies queue, `queueGauge
      ensures queue.writeQueue == old(queue.writeQueue) + [Command(client, typeOf(payload), payload)]
      ensures queueGauge == old(queueGauge) + 1
    {
      queue.Push(Command(client, typeOf(payload), payload));
      queueGauge := queueGauge + 1;
    }

    /** One pass of the frame assembly loop; the loop goes on exactly after `Accepted`. */
    method AssembleFrame(client: Client) returns (r: ScanResult)
      requires client.frameBuf.Valid()
      modifies client, client.frameBuf, client.frameBuf.buf, queue, `queueGauge, `validated, `rejected
      ensures client.frameBuf.Valid()
      ensures r == Scan(valid, old(client.frameBuf.Data()))
      ensures client.frameBuf.Data() == Consumed(old(client.frameBuf.Data()), r)
      ensures client.connected == (old(client.connected) && (r.NeedMore? || r.Accepted?))
      ensures queue.writeQueue == old(queue.writeQueue)
                + if r.Accepted? then [Command(client, typeOf(r.payload), r.payload)] else []
      ensures queueGauge == old(queueGauge) + if r.Accepted? then 1 else 0
      ensures validated == old(validated) + if r.Accepted? then 1 else 0
      ensures rejected == old(rejected) + if r.TooLarge? || r.Rejected? then 1 else 0
    {
      var buf := client.frameBuf.Data();
      if |buf| < HEADER_SIZE {
        return NeedMore;
      }
      NtohlReadsBigEndian(buf[..HEADER_SIZE]);
      var payloadLen := SwapWord(LoadWord(buf[..HEADER_SIZE]));
      if payloadLen > MAX_FRAME_SIZE {
        rejected := rejected + 1;
        client.Close();
        return TooLarge;
      }
      var frameSize := HEADER_SIZE + payloadLen;
      if |buf| < frameSize {
        return NeedMore;
      }
      var payload := buf[HEADER_SIZE..frameSize];
      if !valid(payload) {
        rejected := rejected + 1;
        client.Close();
        client.frameBuf.Consume(frameSize);
        return Rejected(frameSize);
      }
      validated := validated + 1;
      PushCommand(client, payload);
      client.frameBuf.Consume(frameSize);
      return Accepted(payload, frameSize);
    }

    /** The frame assembly loop: everything the buffer means is pushed, in order, and every
        accepted frame and every failure is counted once. Each pass consumes a whole frame. */
    method AssembleFrames(client: Client)
      requires client.frameBuf.Valid()
      modifies client, client.frameBuf, client.frameBuf.buf, queue, `queueGauge, `validated, `rejected
      ensures client.frameBuf.Valid()
      ensures
        var d := Deframe(valid, old(client.frameBuf.Data()));
        && client.frameBuf.Data() == d.rest
        && client.connected == (old(client.connected) && d.status.Open?)
        && queue.writeQueue == old(queue.writeQueue) + Commands(client, typeOf, d.payloads)
        && queueGauge == old(queueGauge) + |d.payloads|
        && validated == old(validated) + |d.payloads|
        && rejected == old(rejected) + if d.status.Open? then 0 else 1
    {
      ghost var whole := Deframe(valid, client.frameBuf.Data());
      ghost var sofar: seq<Bytes> := [];
      PrependPrepend([], [], whole);
      var more := true;
      while more
        invariant client.frameBuf.Valid()
        invariant more ==> client.connected == old(client.connected) && rejected == old(rejected)
        invariant more ==> whole == Prepend(sofar, Deframe(valid, client.frameBuf.Data()))
        invariant !more ==>
          && whole == Deframed(sofar, client.frameBuf.Data(), whole.status)
          && client.connected == (old(client.connected) && whole.status.Open?)
          && rejected == old(rejected) + if whole.status.Open? then 0 else 1
        invariant queue.writeQueue == old(queue.writeQueue) + Commands(client, typeOf, sofar)
        invariant queueGauge == old(queueGauge) + |sofar|
        invariant validated == old(validated) + |sofar|
        decreases more, |client.frameBuf.Data()|
      {
        ghost var buf := client.frameBuf.Data();
        var r := AssembleFrame(client);
        more := r.Accepted?;
        if more {
          CommandsSnoc(client, typeOf, sofar, r.payload);
          DeframeAccepted(valid, sofar, buf);
          sofar := sofar + [r.payload];
        } else {
          DeframeStopped(valid, sofar, buf);
        }
      }
    }

    /** One received chunk: the buffer, the pushed commands and the fate of the client are
        those of `OnChunk`. */
    method Receive(client: Client, data: Bytes)
      requires client.frameBuf.Valid()
      modifies client, client.frameBuf, client.frameBuf.buf, queue, `queueGauge, `validated, `rejected
      ensures client.frameBuf.Valid()
      ensures
        var after := OnChunk(valid, Conn(old(client.frameBuf.Data()), [], Live), data);
        && client.frameBuf.Data() == after.buffer
        && client.connected == (old(client.connected) && after.life.Live?)
        && queue.writeQueue == old(queue.writeQueue) + Commands(client, typeOf, after.pushed)
        && queueGauge == old(queueGauge) + |after.pushed|
        && validated == old(validated) + |after.pushed|
        && rejected == old(rejected) + if after.life.Live? then 0 else 1
    {
      var ok := client.frameBuf.Append(data);
      if ok {
        AssembleFrames(client);
      } else {
        rejected := rejected + 1;
        client.Close();
      }
    }

    /** One tick: everything queued is taken, the commands with a handler are dispatched in
        push order, and exactly the clients of the others are closed. */
    method Tick() returns (dispatched: seq<Command>)
      modifies queue, `tickBatch, `queueGauge, set cmd <- queue.writeQueue :: cmd.client
      ensures tickBatch == old(queue.writeQueue) && queue.writeQueue == []
      ensures queueGauge == old(queueGauge) - |old(queue.writeQueue)|
      ensures dispatched == Handled(handlers, tickBatch)
      ensures forall cmd :: cmd in dispatched <==> cmd in tickBatch && cmd.payloadType in handlers
      ensures (forall cmd <- tickBatch :: cmd.payloadType in handlers) ==> dispatched == tickBatch
      ensures forall cmd <- tickBatch ::
        cmd.client.connected == (old(cmd.client.connected) && AllHandled(handlers, tickBatch, cmd.client))
    {
      tickBatch := queue.DrainTo(tickBatch);
      queueGauge := queueGauge - |tickBatch|;
      dispatched := [];
      assert tickBatch[..0] == [];
      for i := 0 to |tickBatch|
        invariant tickBatch == old(queue.writeQueue) && queue.writeQueue == []
        invariant queueGauge == old(queueGauge) - |tickBatch|
        invariant dispatched == Handled(handlers, tickBatch[..i])
        invariant forall cmd <- tickBatch ::
          cmd.client.connected == (old(cmd.client.connected) && AllHandled(handlers, tickBatch[..i], cmd.client))
      {
        var cmd := tickBatch[i];
        assert tickBatch[..i + 1] == tickBatch[..i] + [cmd];
        HandledSnoc(handlers, tickBatch[..i], cmd);
        if cmd.payloadType in handlers {
          dispatched := dispatched + [cmd];
        } else {
          cmd.client.Close();
        }
      }
      assert tickBatch[..|tickBatch|] == tickBatch;
      HandledExactly(handlers, tickBatch);
    }
  }
}
