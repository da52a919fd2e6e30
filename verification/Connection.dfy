/**
  One connection on the receiving side, as a value: its frame buffer, the payloads it has
  pushed, and whether it is still alive. `OnChunk` is one call of `Receive`; `Feed` is the
  whole life of a connection under one chunking of its byte stream.
 */
module Connection {
  import opened Framing

  datatype Life = Live | Overflowed | TooLargeHeader | InvalidPayload

  datatype Conn = Conn(buffer: Bytes, pushed: seq<Bytes>, life: Life)

  const FRESH: Conn := Conn([], [], Live)

  function LifeOf(status: Status): Life
  {
    match status
    case Open => Live
    case ClosedTooLarge => TooLargeHeader
    case ClosedInvalid => InvalidPayload
  }

  /** One received chunk. A closed connection posts no further receive. */
  function OnChunk(valid: Verifier, c: Conn, chunk: Bytes): Conn
  {
    if !c.life.Live? then c
    else if |c.buffer| + |chunk| > MAX_FRAME_SIZE then c.(life := Overflowed)
    else
      var d := Deframe(valid, c.buffer + chunk);
      Conn(d.rest, c.pushed + d.payloads, LifeOf(d.status))
  }

  function Feed(valid: Verifier, chunks: seq<Bytes>): Conn
  {
    if chunks == [] then FRESH
    else OnChunk(valid, Feed(valid, chunks[..|chunks| - 1]), chunks[|chunks| - 1])
  }

  function Flatten(chunks: seq<Bytes>): Bytes
  {
    if chunks == [] then [] else Flatten(chunks[..|chunks| - 1]) + chunks[|chunks| - 1]
  }

  ghost predicate ChunksWithin(chunks: seq<Bytes>, n: nat)
  {
    forall c <- chunks :: |c| <= n
  }

  ghost predicate PayloadsWithin(ps: seq<Bytes>, n: nat)
  {
    forall p <- ps :: |p| <= n
  }

  // ---------------------------------------------------------------- chunking independence

  /** What a connection that never overflowed must look like after reading `d`. */
  ghost predicate Agrees(c: Conn, d: Deframed)
  {
    && c.pushed == d.payloads
    && c.life == LifeOf(d.status)
    && (c.life.Live? ==> c.buffer == d.rest)
  }

  /** However a byte stream is cut into chunks, a connection that does not overflow pushes
      exactly the payloads of the concatenation, keeps exactly its residue, and is closed
      exactly when the concatenation is; one that overflows has pushed a prefix. */
  lemma {:induction false} ChunkingIndependence(valid: Verifier, chunks: seq<Bytes>)
    ensures var c, d := Feed(valid, chunks), Deframe(valid, Flatten(chunks));
            && (!c.life.Overflowed? ==> Agrees(c, d))
            && c.pushed <= d.payloads
            && |c.buffer| <= MAX_FRAME_SIZE
  {
    if chunks != [] {
      var init, last := chunks[..|chunks| - 1], chunks[|chunks| - 1];
      ChunkingIndependence(valid, init);
      DeframeAppend(valid, Flatten(init), last);
    }
  }

  /** Two chunkings of one stream, neither overflowing, cannot be told apart. */
  lemma ChunkingsAgree(valid: Verifier, xs: seq<Bytes>, ys: seq<Bytes>)
    requires Flatten(xs) == Flatten(ys)
    requires !Feed(valid, xs).life.Overflowed? && !Feed(valid, ys).life.Overflowed?
    ensures Feed(valid, xs).pushed == Feed(valid, ys).pushed
    ensures Feed(valid, xs).life == Feed(valid, ys).life
    ensures Feed(valid, xs).life.Live? ==> Feed(valid, xs) == Feed(valid, ys)
  {
    ChunkingIndependence(valid, xs);
    ChunkingIndependence(valid, ys);
  }

  // ---------------------------------------------------------------- the sharp buffer bound

  /** The largest payload bound under which 4096-byte chunks can never overflow. */
  const SAFE_PAYLOAD: nat := 61437

  /** The largest payload whose frame fits the buffer at all. */
  const DELIVERABLE_PAYLOAD: nat := 65532

  /** The residue of any prefix of a frame sequence is shorter than one of its frames. */
  lemma {:induction false} ResidueBound(valid: Verifier, ps: seq<Bytes>, s: Bytes, n: nat)
    requires PayloadsWithin(ps, n) && n <= MAX_FRAME_SIZE
    requires s <= FrameAll(ps)
    requires Deframe(valid, s).status.Open?
    ensures |Deframe(valid, s).rest| < HEADER_SIZE + n
  {
    if ps != [] {
      var p, f := ps[0], Frame(ps[0]);
      if |s| < |f| {
        ProperPrefixNeedsMore(valid, p, s);
      } else {
        var t := s[|f|..];
        SplitPrefix(f, FrameAll(ps[1..]), s);
        ScanFrame(valid, p, t);
        ResidueBound(valid, ps[1..], t, n);
      }
    }
  }

  lemma SplitPrefix(a: Bytes, b: Bytes, s: Bytes)
    requires s <= a + b && |a| <= |s|
    ensures s == a + s[|a|..] && s[|a|..] <= b
  {
  }

  lemma ProperPrefixNeedsMore(valid: Verifier, p: Bytes, s: Bytes)
    requires |p| <= MAX_FRAME_SIZE && s <= Frame(p) && |s| < |Frame(p)|
    ensures Scan(valid, s).NeedMore?
  {
    if |s| >= HEADER_SIZE {
      var f := Frame(p);
      FrameParts(p, []);
      assert f + [] == f;
      assert s[..HEADER_SIZE] == f[..HEADER_SIZE];
      assert HeaderValue(s[..HEADER_SIZE]) == |p|;
    }
  }

  lemma {:induction false} NeverOverflows(valid: Verifier, ps: seq<Bytes>, chunks: seq<Bytes>)
    requires PayloadsWithin(ps, SAFE_PAYLOAD)
    requires ChunksWithin(chunks, RECV_BUFFER_SIZE)
    requires Flatten(chunks) <= FrameAll(ps)
    ensures !Feed(valid, chunks).life.Overflowed?
  {
    if chunks != [] {
      var init := chunks[..|chunks| - 1];
      assert Flatten(init) <= FrameAll(ps);
      NeverOverflows(valid, ps, init);
      ChunkingIndependence(valid, init);
      if Feed(valid, init).life.Live? {
        ResidueBound(valid, ps, Flatten(init), SAFE_PAYLOAD);
      }
    }
  }

  lemma {:induction false} SmallStreamNeverOverflows(valid: Verifier, chunks: seq<Bytes>)
    requires |Flatten(chunks)| <= MAX_FRAME_SIZE
    ensures !Feed(valid, chunks).life.Overflowed?
  {
    if chunks != [] {
      var init := chunks[..|chunks| - 1];
      SmallStreamNeverOverflows(valid, init);
      ChunkingIndependence(valid, init);
    }
  }

  /** Cut a string into receive-buffer sized chunks. */
  function Chop(s: Bytes): (cs: seq<Bytes>)
    ensures forall c <- cs :: |c| <= RECV_BUFFER_SIZE
    ensures Flatten(cs) == s
    decreases |s|
  {
    if s == [] then []
    else if |s| <= RECV_BUFFER_SIZE then assert Flatten([]) == []; assert [s][..0] == []; [s]
    else
      var k := |s| - RECV_BUFFER_SIZE;
      var cs := Chop(s[..k]) + [s[k..]];
      assert cs[..|cs| - 1] == Chop(s[..k]);
      cs
  }

  /** `n` bytes of padding. */
  function Zeros(n: nat): (z: Bytes)
    ensures |z| == n
  {
    seq(n, _ => 0)
  }

  /** An incomplete frame stays in the buffer, however it arrives. */
  lemma PartialFrameIsKept(valid: Verifier, p: Bytes, s: Bytes, chunks: seq<Bytes>)
    requires |p| <= MAX_FRAME_SIZE && s <= Frame(p) && |s| < |Frame(p)| && |s| <= MAX_FRAME_SIZE
    requires Flatten(chunks) == s
    ensures Feed(valid, chunks).life.Live? && Feed(valid, chunks).buffer == s
  {
    ProperPrefixNeedsMore(valid, p, s);
    SmallStreamNeverOverflows(valid, chunks);
    ChunkingIndependence(valid, chunks);
  }

  lemma OneMoreChunk(valid: Verifier, chunks: seq<Bytes>, last: Bytes)
    requires Feed(valid, chunks).life.Live? && |Feed(valid, chunks).buffer| + |last| > MAX_FRAME_SIZE
    ensures Feed(valid, chunks + [last]).life.Overflowed?
    ensures Flatten(chunks + [last]) == Flatten(chunks) + last
  {
    assert (chunks + [last])[..|chunks|] == chunks;
  }

  /** All of a frame but its last byte, then the rest in one chunk. */
  lemma CutBeforeLast(valid: Verifier, p: Bytes, f: Bytes, tail: Bytes) returns (chunks: seq<Bytes>)
    requires f == Frame(p) && |f| - 1 <= MAX_FRAME_SIZE < |f| + |tail| && |p| <= MAX_FRAME_SIZE
    requires 1 + |tail| <= RECV_BUFFER_SIZE
    ensures ChunksWithin(chunks, RECV_BUFFER_SIZE) && Flatten(chunks) == f + tail
    ensures Feed(valid, chunks).life.Overflowed?
  {
    var k := |f| - 1;
    var most, last := f[..k], f[k..] + tail;
    var init := Chop(most);
    PartialFrameIsKept(valid, p, most, init);
    OneMoreChunk(valid, init, last);
    MoreWithin(init, last);
    CutAndJoin(f, k, tail);
    chunks := init + [last];
  }

  lemma MoreWithin(chunks: seq<Bytes>, last: Bytes)
    requires ChunksWithin(chunks, RECV_BUFFER_SIZE) && |last| <= RECV_BUFFER_SIZE
    ensures ChunksWithin(chunks + [last], RECV_BUFFER_SIZE)
  {
  }

  lemma CutAndJoin(f: Bytes, k: nat, tail: Bytes)
    requires k <= |f|
    ensures f[..k] + (f[k..] + tail) == f + tail
  {
  }

  /** One byte short of a maximal frame, then a full receive buffer: 65537 bytes. */
  lemma OverflowWitness(valid: Verifier) returns (ps: seq<Bytes>, chunks: seq<Bytes>)
    ensures PayloadsWithin(ps, SAFE_PAYLOAD + 1)
    ensures ChunksWithin(chunks, RECV_BUFFER_SIZE)
    ensures Flatten(chunks) == FrameAll(ps)
    ensures Feed(valid, chunks).life.Overflowed?
  {
    var p, q := Zeros(SAFE_PAYLOAD + 1), Zeros(RECV_BUFFER_SIZE - 1 - HEADER_SIZE);
    ps := [p, q];
    TwoFrames(p, q);
    chunks := CutBeforeLast(valid, p, Frame(p), Frame(q));
  }

  lemma TwoFrames(p: Bytes, q: Bytes)
    ensures FrameAll([p, q]) == Frame(p) + Frame(q)
    ensures FrameAll([p]) == Frame(p)
  {
    FrameAllCons(p, [q]);
    FrameAllCons(q, []);
    FrameAllCons(p, []);
    assert [p] + [q] == [p, q] && [q] + [] == [q] && [p] + [] == [p];
  }

  /** No chunking of any stream of payloads of at most `n` bytes can overflow. */
  ghost predicate SafeFor(valid: Verifier, n: nat)
  {
    forall ps: seq<Bytes>, chunks: seq<Bytes>
      {:trigger PayloadsWithin(ps, n), ChunksWithin(chunks, RECV_BUFFER_SIZE)} ::
      PayloadsWithin(ps, n) && ChunksWithin(chunks, RECV_BUFFER_SIZE) && Flatten(chunks) <= FrameAll(ps)
      ==> !Feed(valid, chunks).life.Overflowed?
  }

  /** 61437 is the exact bound. */
  lemma SharpBufferBound(valid: Verifier, n: nat)
    ensures SafeFor(valid, n) <==> n <= 61437
  {
    if n <= SAFE_PAYLOAD {
      forall ps: seq<Bytes>, chunks: seq<Bytes> |
        PayloadsWithin(ps, n) && ChunksWithin(chunks, RECV_BUFFER_SIZE) && Flatten(chunks) <= FrameAll(ps)
        ensures !Feed(valid, chunks).life.Overflowed?
      {
        assert PayloadsWithin(ps, SAFE_PAYLOAD);
        NeverOverflows(valid, ps, chunks);
      }
    } else {
      var ps, chunks := OverflowWitness(valid);
      assert PayloadsWithin(ps, n);
    }
  }

  // ---------------------------------------------------------------- what can be delivered

  lemma {:induction false} DeframedFit(valid: Verifier, s: Bytes)
    ensures forall p <- Deframe(valid, s).payloads :: valid(p) && HEADER_SIZE + |p| <= |s|
    decreases |s|
  {
    if Scan(valid, s).Accepted? {
      DeframedFit(valid, s[Scan(valid, s).frameSize..]);
    }
  }

  lemma {:induction false} PushedFit(valid: Verifier, chunks: seq<Bytes>)
    ensures forall p <- Feed(valid, chunks).pushed :: valid(p) && |p| <= DELIVERABLE_PAYLOAD
  {
    if chunks != [] {
      var init, last := chunks[..|chunks| - 1], chunks[|chunks| - 1];
      PushedFit(valid, init);
      DeframedFit(valid, Feed(valid, init).buffer + last);
    }
  }

  ghost predicate Deliverable(valid: Verifier, p: Bytes)
  {
    exists chunks: seq<Bytes> :: ChunksWithin(chunks, RECV_BUFFER_SIZE) && p in Feed(valid, chunks).pushed
  }

  /** A payload reaches the queue in some run exactly when it verifies and its frame fits
      the buffer; lengths 65533 to 65536 pass the size test and are delivered in no run. */
  lemma DeliverableExactly(valid: Verifier, p: Bytes)
    ensures Deliverable(valid, p) <==> valid(p) && |p| <= 65532
  {
    if Deliverable(valid, p) {
      var chunks: seq<Bytes> :| ChunksWithin(chunks, RECV_BUFFER_SIZE) && p in Feed(valid, chunks).pushed;
      PushedFit(valid, chunks);
    }
    if valid(p) && |p| <= DELIVERABLE_PAYLOAD {
      var chunks := Chop(Frame(p));
      SmallStreamNeverOverflows(valid, chunks);
      ChunkingIndependence(valid, chunks);
      OneFrame(valid, p);
      assert ChunksWithin(chunks, RECV_BUFFER_SIZE) && p in Feed(valid, chunks).pushed;
    }
  }

  lemma OneFrame(valid: Verifier, p: Bytes)
    requires valid(p) && |p| <= DELIVERABLE_PAYLOAD
    ensures Deframe(valid, Frame(p)) == Deframed([p], [], Open)
  {
    TwoFrames(p, p);
    DeframeCharacterised(valid, Frame(p), Deframed([p], [], Open));
    assert Frame(p) == FrameAll([p]) + [];
  }

  /** The push decoder recovers any acceptable payload list from any 4096-byte chunking. */
  lemma PushRoundTrip(valid: Verifier, ps: seq<Bytes>, chunks: seq<Bytes>)
    requires Acceptable(valid, ps) && PayloadsWithin(ps, SAFE_PAYLOAD)
    requires ChunksWithin(chunks, RECV_BUFFER_SIZE)
    requires Flatten(chunks) == FrameAll(ps)
    ensures Feed(valid, chunks) == Conn([], ps, Live)
  {
    NeverOverflows(valid, ps, chunks);
    ChunkingIndependence(valid, chunks);
    DeframeFrames(valid, ps, []);
    assert FrameAll(ps) + [] == FrameAll(ps);
    assert ps + [] == ps;
  }
}
