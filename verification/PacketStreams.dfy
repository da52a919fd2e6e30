/**
  The sending side and the pull decoder: partial sends and receives are arbitrary, so every
  contract below holds for every schedule the operating system may choose.
 */
module PacketStreams {
  import opened Basics
  import opened Framing
  import opened Connection

  datatype NetworkError = SocketInvalid | WsaSendFailed | WsaRecvFailed | WsaInvalidArgs | WsaNoBufferSpace

  datatype Res = Ok | Err(error: NetworkError)

  datatype ResWithSize = OkSize(size: nat) | ErrSize(error: NetworkError)

  /** A connected stream socket. `sent` is everything handed to the peer so far, `incoming`
      everything the peer will still deliver. On a `reliable` socket the system calls make
      progress whenever they can; otherwise they may fail at any time. */
  class TcpClientSocket {
    const reliable: bool
    var connected: bool
    var sent: Bytes
    var incoming: Bytes

    constructor (reliable: bool, incoming: Bytes)
      ensures this.reliable == reliable && this.incoming == incoming && connected && sent == []
    {
      this.reliable := reliable;
      this.incoming := incoming;
      connected, sent := true, [];
    }

    /** send(): takes any number of bytes from the front, or reports an error. */
    method OsSend(data: Bytes) returns (n: int)
      requires data != []
      modifies `sent
      ensures n <= |data| && (reliable ==> n > 0)
      ensures sent == old(sent) + data[..if n > 0 then n else 0]
    {
      n :| -1 <= n <= |data| && (reliable ==> n > 0);
      if n > 0 {
        sent := sent + data[..n];
      }
    }

    /** recv(): any number of the available bytes, 0 for a closed peer, or an error. */
    method OsRecv(size: nat) returns (n: int, bytes: Bytes)
      requires size > 0
      modifies `incoming
      ensures n <= size && |bytes| == (if n > 0 then n else 0)
      ensures old(incoming) == bytes + incoming
      ensures reliable ==> n >= 0 && (n == 0 ==> incoming == [])
    {
      if reliable && incoming != [] {
        n :| 0 < n <= size && n <= |incoming|;
      } else if reliable {
        n := 0;
      } else {
        n :| -1 <= n <= size && n <= |incoming|;
      }
      bytes := incoming[..if n > 0 then n else 0];
      incoming := incoming[|bytes|..];
    }

    /** All bytes in order, or an error after some proper prefix of them. */
    method SendAll(data: Bytes) returns (r: Res)
      modifies `sent
      ensures !connected ==> r == Err(SocketInvalid) && sent == old(sent)
      ensures r.Ok? ==> sent == old(sent) + data
      ensures connected && r.Err? ==>
                r.error == WsaSendFailed && exists k | 0 <= k < |data| :: sent == old(sent) + data[..k]
      ensures connected && reliable ==> r.Ok?
    {
      if !connected {
        return Err(SocketInvalid);
      }
      var sentBytes := 0;
      while sentBytes < |data|
        invariant 0 <= sentBytes <= |data|
        invariant sent == old(sent) + data[..sentBytes]
      {
        var remain := |data| - sentBytes;
        var currentChunkSize := if remain < INT_MAX then remain else INT_MAX;
        var chunk := data[sentBytes..sentBytes + currentChunkSize];
        var n := OsSend(chunk);
        if n <= 0 {
          assert old(sent) + data[..sentBytes] + chunk[..0] == old(sent) + data[..sentBytes];
          return Err(WsaSendFailed);
        }
        assert data[..sentBytes] + chunk[..n] == data[..sentBytes + n];
        sentBytes := sentBytes + n;
      }
      assert data[..sentBytes] == data;
      return Ok;
    }

    /** One receive into `buffer[from..]`. */
    method RecvSome(buffer: array<byte>, from: nat) returns (r: ResWithSize)
      requires from <= buffer.Length
      modifies `incoming, buffer
      ensures !connected ==> r == ErrSize(SocketInvalid)
      ensures buffer[..from] == old(buffer[..from])
      ensures r.ErrSize? ==> incoming == old(incoming) && r.error in {SocketInvalid, WsaRecvFailed}
      ensures r.OkSize? ==>
                && from + r.size <= buffer.Length
                && old(incoming) == buffer[from..from + r.size] + incoming
      ensures connected && reliable && from < buffer.Length ==>
                r.OkSize? && (r.size == 0 ==> incoming == [])
    {
      if !connected {
        return ErrSize(SocketInvalid);
      }
      if from == buffer.Length {
        assert buffer[from..from] == [];
        return OkSize(0);
      }
      var n, bytes := OsRecv(buffer.Length - from);
      if n < 0 {
        var closed: bool := *;
        return ErrSize(if closed then SocketInvalid else WsaRecvFailed);
      }
      for i := 0 to n
        modifies buffer
        invariant buffer[..from] == old(buffer[..from])
        invariant buffer[from..from + i] == bytes[..i]
      {
        buffer[from + i] := bytes[i];
      }
      return OkSize(n);
    }
  }

  // ---------------------------------------------------------------- the pull decoder, as a function

  datatype Pulled = Short | TooBig | Got(payload: Bytes, rest: Bytes)

  /** One frame off the front of the incoming bytes. */
  function PullFrame(maxFrameSize: nat, s: Bytes): Pulled
  {
    if |s| < HEADER_SIZE then Short else
    var n := HeaderValue(s[..HEADER_SIZE]);
    if n > maxFrameSize then TooBig
    else if |s| < HEADER_SIZE + n then Short
    else Got(s[HEADER_SIZE..HEADER_SIZE + n], s[HEADER_SIZE + n..])
  }

  /** Everything a receiver that keeps pulling gets. */
  function PullAll(maxFrameSize: nat, s: Bytes): seq<Bytes>
    decreases |s|
  {
    match PullFrame(maxFrameSize, s)
    case Got(payload, rest) => [payload] + PullAll(maxFrameSize, rest)
    case _ => []
  }

  /** The bytes SendFrame writes. The copy of the payload is guarded by the swapped header
      word, so a payload whose size is a multiple of 2^32 is sent as zeros. */
  ghost function SentFrame(payload: Bytes): (f: Bytes)
    ensures |f| == HEADER_SIZE + |payload|
  {
    Header(|payload|) + if |payload| % UINT32 == 0 then Zeros(|payload|) else payload
  }

  /** Below 2^32 bytes that is the frame. */
  lemma SentFrameIsFrame(payload: Bytes)
    ensures SentFrame(payload) == Frame(payload) <==> |payload| % UINT32 != 0 || payload == Zeros(|payload|)
    ensures |payload| < UINT32 ==> SentFrame(payload) == Frame(payload)
  {
    var f, g := SentFrame(payload), Frame(payload);
    assert f == g <==> f[HEADER_SIZE..] == g[HEADER_SIZE..];
    if |payload| < UINT32 && |payload| % UINT32 == 0 {
      assert |payload| == 0;
    }
  }

  lemma ZeroWord(b0: nat, b1: nat, b2: nat, b3: nat)
    ensures Word(b0, b1, b2, b3) == 0 <==> b0 == b1 == b2 == b3 == 0
  {
  }

  lemma SwapZero(w: nat)
    requires w < UINT32
    ensures SwapWord(w) == 0 <==> w == 0
  {
    var b0, b1, b2, b3 := ByteOf(w, 0), ByteOf(w, 1), ByteOf(w, 2), ByteOf(w, 3);
    assert w == Word(b0, b1, b2, b3) by { WordOfBytes(w); }
    assert SwapWord(w) == Word(b3, b2, b1, b0);
    ZeroWord(b0, b1, b2, b3);
    ZeroWord(b3, b2, b1, b0);
  }

  method BuildFrame(payload: Bytes) returns (frame: Bytes)
    ensures frame == SentFrame(payload)
  {
    var payloadSize := SwapWord(|payload| % UINT32);
    HtonlWritesHeader(|payload|);
    SwapZero(|payload| % UINT32);
    var header := StoreWord(payloadSize);
    var buf := new byte[HEADER_SIZE + |payload|](_ => 0);
    assert buf[HEADER_SIZE..] == Zeros(|payload|);
    CopyInto(buf, 0, header);
    assert buf[..] == header + Zeros(|payload|);
    if payloadSize > 0 {
      CopyInto(buf, HEADER_SIZE, payload);
      assert buf[..] == header + payload;
    }
    frame := buf[..];
  }

  lemma Received(got: Bytes, more: Bytes, rest: Bytes)
    ensures got + (more + rest) == got + more + rest
    ensures more == [] ==> got + (more + rest) == got + rest && (got + rest)[|got|..] == rest
  {
  }

  lemma BodyOf(s: Bytes, n: nat)
    requires HEADER_SIZE + n <= |s|
    ensures s[HEADER_SIZE..][..n] == s[HEADER_SIZE..HEADER_SIZE + n] && s[HEADER_SIZE..][n..] == s[HEADER_SIZE + n..]
  {
  }

  class PacketStream {
    const socket: TcpClientSocket
    const maxFrameSize: nat

    constructor (socket: TcpClientSocket, maxFrameSize: nat)
      ensures this.socket == socket && this.maxFrameSize == maxFrameSize
    {
      this.socket := socket;
      this.maxFrameSize := maxFrameSize;
    }

    /** Puts exactly one frame on the wire, or fails after a proper prefix of it. */
    method SendFrame(payload: Bytes) returns (r: Res)
      modifies socket`sent
      ensures r.Ok? ==> socket.sent == old(socket.sent) + SentFrame(payload)
      ensures r.Err? ==>
                exists k | 0 <= k < |SentFrame(payload)| :: socket.sent == old(socket.sent) + SentFrame(payload)[..k]
      ensures socket.connected && socket.reliable ==> r.Ok?
    {
      var frame := BuildFrame(payload);
      r := socket.SendAll(frame);
      assert !socket.connected ==> socket.sent == old(socket.sent) + SentFrame(payload)[..0];
    }

    /** One receive behind the bytes already in the buffer; `stream` is all of them and all
        that is still to come. */
    method RecvMore(buffer: array<byte>, from: nat, ghost stream: Bytes) returns (r: ResWithSize)
      requires from < buffer.Length && stream == buffer[..from] + socket.incoming
      modifies socket`incoming, buffer
      ensures r.OkSize? ==> from + r.size <= buffer.Length && stream == buffer[..from + r.size] + socket.incoming
      ensures r.ErrSize? ==> r.error in {SocketInvalid, WsaRecvFailed}
      ensures r.ErrSize? || r.size == 0 ==> from <= |stream| && socket.incoming == stream[from..]
      ensures socket.connected && socket.reliable ==> r.OkSize? && (r.size == 0 ==> socket.incoming == [])
    {
      ghost var got, left := buffer[..from], socket.incoming;
      r := socket.RecvSome(buffer, from);
      if r.ErrSize? {
        Received(got, [], left);
      } else {
        ghost var more := buffer[from..from + r.size];
        Received(got, more, socket.incoming);
        assert buffer[..from + r.size] == got + more;
      }
    }

    /** Receive until the buffer is full or nothing more comes. */
    method RecvLoop(buffer: array<byte>, ghost stream: Bytes) returns (r: Res, n: nat)
      requires stream == socket.incoming
      modifies socket`incoming, buffer
      ensures n <= buffer.Length && (r.Ok? <==> n == buffer.Length)
      ensures r.Ok? ==> stream == buffer[..n] + socket.incoming
      ensures r.Err? ==> r.error in {SocketInvalid, WsaRecvFailed} && n <= |stream| && socket.incoming == stream[n..]
      ensures socket.connected && socket.reliable && r.Err? ==> n == |stream|
    {
      n := 0;
      while n < buffer.Length
        invariant n <= buffer.Length
        invariant stream == buffer[..n] + socket.incoming
      {
        var res := RecvMore(buffer, n, stream);
        if res.ErrSize? {
          return Err(res.error), n;
        }
        if res.size == 0 {
          return Err(SocketInvalid), n;
        }
        n := n + res.size;
      }
      r := Ok;
    }

    /** Fills `buffer` from the front of the stream, or fails after a proper prefix of it. */
    method RecvExact(buffer: array<byte>) returns (r: Res)
      modifies socket`incoming, buffer
      ensures r.Ok? ==> old(socket.incoming) == buffer[..] + socket.incoming
      ensures r.Err? ==>
                && r.error in {SocketInvalid, WsaRecvFailed}
                && exists k | 0 <= k < buffer.Length && k <= |old(socket.incoming)| ::
                     socket.incoming == old(socket.incoming)[k..]
      ensures socket.connected && socket.reliable ==>
                (r.Ok? <==> buffer.Length <= |old(socket.incoming)|)
    {
      var n;
      r, n := RecvLoop(buffer, socket.incoming);
      assert buffer[..buffer.Length] == buffer[..];
    }

    /** Exactly the next `n` bytes. */
    method RecvBytes(n: nat) returns (res: Res, bytes: Bytes)
      modifies socket`incoming
      ensures res.Ok? ==>
                && n <= |old(socket.incoming)| && bytes == old(socket.incoming)[..n]
                && socket.incoming == old(socket.incoming)[n..]
      ensures res.Err? ==>
                && res.error in {SocketInvalid, WsaRecvFailed}
                && exists k | 0 <= k <= |old(socket.incoming)| :: socket.incoming == old(socket.incoming)[k..]
      ensures socket.connected && socket.reliable ==> (res.Ok? <==> n <= |old(socket.incoming)|)
    {
      var buffer := new byte[n](_ => 0);
      res := RecvExact(buffer);
      bytes := buffer[..];
    }

    /** The length header. */
    method RecvHeader() returns (res: Res, size: nat)
      modifies socket`incoming
      ensures res.Ok? ==>
                && HEADER_SIZE <= |old(socket.incoming)| && size == HeaderValue(old(socket.incoming)[..HEADER_SIZE])
                && socket.incoming == old(socket.incoming)[HEADER_SIZE..]
      ensures res.Err? ==>
                && res.error in {SocketInvalid, WsaRecvFailed}
                && exists k | 0 <= k <= |old(socket.incoming)| :: socket.incoming == old(socket.incoming)[k..]
      ensures socket.connected && socket.reliable ==> (res.Ok? <==> HEADER_SIZE <= |old(socket.incoming)|)
    {
      var buf;
      res, buf := RecvBytes(HEADER_SIZE);
      size := 0;
      if res.Ok? {
        NtohlReadsBigEndian(buf);
        size := SwapWord(LoadWord(buf));
      }
    }

    /** One frame: on success exactly the frame `PullFrame` finds is consumed and returned,
        an oversized header costs exactly its four bytes, and a badly configured limit
        touches nothing. On a reliable socket the outcome is determined. */
    method RecvFrame() returns (r: ResWithSize, payload: Bytes)
      modifies socket`incoming
      ensures maxFrameSize == 0 || maxFrameSize > MAX_FRAME_SIZE <==> r == ErrSize(WsaInvalidArgs)
      ensures r == ErrSize(WsaInvalidArgs) ==> socket.incoming == old(socket.incoming)
      ensures r.OkSize? ==>
                PullFrame(maxFrameSize, old(socket.incoming)) == Got(payload, socket.incoming) && r.size == |payload|
      ensures r == ErrSize(WsaNoBufferSpace) ==>
                && PullFrame(maxFrameSize, old(socket.incoming)).TooBig?
                && socket.incoming == old(socket.incoming)[HEADER_SIZE..]
      ensures exists k | 0 <= k <= |old(socket.incoming)| :: socket.incoming == old(socket.incoming)[k..]
      ensures socket.connected && socket.reliable && r != ErrSize(WsaInvalidArgs) ==>
                match PullFrame(maxFrameSize, old(socket.incoming))
                case Got(_, _) => r.OkSize?
                case TooBig => r == ErrSize(WsaNoBufferSpace)
                case Short => r == ErrSize(SocketInvalid) || r == ErrSize(WsaRecvFailed)
    {
      ghost var stream := socket.incoming;
      if maxFrameSize == 0 || maxFrameSize > MAX_FRAME_SIZE {
        assert stream[0..] == stream;
        return ErrSize(WsaInvalidArgs), [];
      }
      var res, payloadSize := RecvHeader();
      if res.Err? {
        return ErrSize(res.error), [];
      }
      if payloadSize > maxFrameSize {
        return ErrSize(WsaNoBufferSpace), [];
      }
      if payloadSize == 0 {
        assert stream[HEADER_SIZE..HEADER_SIZE + 0] == [];
        return OkSize(0), [];
      }
      ghost var body := socket.incoming;
      res, payload := RecvBytes(payloadSize);
      if res.Err? {
        ghost var k :| 0 <= k <= |body| && socket.incoming == body[k..];
        assert socket.incoming == stream[HEADER_SIZE + k..];
        return ErrSize(res.error), [];
      }
      BodyOf(stream, payloadSize);
      return OkSize(payloadSize), payload;
    }
  }

  /** memcpy into a vector. */
  method CopyInto(dst: array<byte>, at: nat, src: Bytes)
    requires at + |src| <= dst.Length
    modifies dst
    ensures dst[..] == old(dst[..at]) + src + old(dst[at + |src|..])
  {
    for i := 0 to |src|
      invariant dst[..at + i] == old(dst[..at]) + src[..i]
      invariant dst[at + i..] == old(dst[at + i..])
    {
      dst[at + i] := src[i];
    }
    assert dst[..] == dst[..at + |src|] + dst[at + |src|..];
  }

  /** Two copies into a zeroed vector. */
  method Fill(header: Bytes, payload: Bytes) returns (frame: Bytes)
    ensures frame == header + payload
  {
    var buf := new byte[|header| + |payload|](_ => 0);
    CopyInto(buf, 0, header);
    CopyInto(buf, |header|, payload);
    frame := buf[..];
  }

  datatype Posted = NotConnected | Refused | Post(frame: Bytes)

  /** Session::Send: the frame handed to the asynchronous send, if any. The 32-bit guard is
      implied by the send buffer guard behind it. */
  method SessionSend(connected: bool, payload: Bytes) returns (r: Posted)
    ensures !connected <==> r == NotConnected
    ensures connected && |payload| > 1020 ==> r == Refused
    ensures connected && |payload| <= 1020 ==> r == Post(Frame(payload))
  {
    if !connected {
      return NotConnected;
    }
    if |payload| > UINT32 - 1 {
      return Refused;
    }
    var frameSize := HEADER_SIZE + |payload|;
    if frameSize > SEND_BUFFER_SIZE {
      return Refused;
    }
    HtonlWritesHeader(|payload|);
    var frame := Fill(StoreWord(SwapWord(|payload| % UINT32)), payload);
    return Post(frame);
  }

  // ---------------------------------------------------------------- round trips

  lemma PullOneFrame(maxFrameSize: nat, p: Bytes, t: Bytes)
    requires |p| <= maxFrameSize <= MAX_FRAME_SIZE
    ensures PullFrame(maxFrameSize, Frame(p) + t) == Got(p, t)
  {
    FrameParts(p, t);
  }

  lemma SeqCons(ps: seq<Bytes>, qs: seq<Bytes>)
    requires ps != []
    ensures [ps[0]] + (ps[1..] + qs) == ps + qs
  {
  }

  /** The pull decoder recovers every payload list within its limit, whatever follows it. */
  lemma {:induction false} PullRoundTrip(maxFrameSize: nat, ps: seq<Bytes>, t: Bytes)
    requires maxFrameSize <= MAX_FRAME_SIZE && PayloadsWithin(ps, maxFrameSize)
    ensures PullAll(maxFrameSize, FrameAll(ps) + t) == ps + PullAll(maxFrameSize, t)
  {
    if ps == [] {
      assert FrameAll(ps) + t == t;
    } else {
      Assoc(Frame(ps[0]), FrameAll(ps[1..]), t);
      PullOneFrame(maxFrameSize, ps[0], FrameAll(ps[1..]) + t);
      PullRoundTrip(maxFrameSize, ps[1..], t);
      SeqCons(ps, PullAll(maxFrameSize, t));
    }
  }

  /** On every byte string whatever the two decoders agree: the push decoder stops early
      exactly at the first payload that fails verification. */
  lemma {:induction false} PushPullAgree(valid: Verifier, s: Bytes)
    ensures var d, pulled := Deframe(valid, s), PullAll(MAX_FRAME_SIZE, s);
            && d.payloads <= pulled
            && (!d.status.ClosedInvalid? ==> d.payloads == pulled)
            && (d.status.ClosedInvalid? ==> |d.payloads| < |pulled| && !valid(pulled[|d.payloads|]))
    decreases |s|
  {
    var r := Scan(valid, s);
    if r.Accepted? {
      PushPullAgree(valid, s[r.frameSize..]);
    }
  }

  /** What consecutive successful SendFrame calls put on the wire. */
  ghost function SentAll(ps: seq<Bytes>): Bytes
  {
    if ps == [] then [] else SentFrame(ps[0]) + SentAll(ps[1..])
  }

  lemma {:induction false} SentAllIsFrameAll(ps: seq<Bytes>)
    requires PayloadsWithin(ps, MAX_FRAME_SIZE)
    ensures SentAll(ps) == FrameAll(ps)
  {
    if ps != [] {
      SentFrameIsFrame(ps[0]);
      SentAllIsFrameAll(ps[1..]);
    }
  }
}
