/**
  The wire format: a 4-byte big-endian length followed by that many payload bytes.

  `Scan` is one look at the front of a receive buffer, `Deframe` is what a whole byte
  string means, and `Splits` says the same thing declaratively, without any scanning.
 */
module Framing {
  import opened Basics

  type byte = x: int | 0 <= x < 256
  type Bytes = seq<byte>

  const HEADER_SIZE: nat := 4
  const MAX_FRAME_SIZE: nat := 65536
  const RECV_BUFFER_SIZE: nat := 4096
  const SEND_BUFFER_SIZE: nat := 1024

  /** FlatBuffers verification of a payload: any total predicate. */
  type Verifier = Bytes -> bool

  // ---------------------------------------------------------------- length header

  /** The word whose bytes, least significant first, are `b0` to `b3`. */
  function Word(b0: int, b1: int, b2: int, b3: int): int
  {
    b0 + 0x100 * b1 + 0x1_0000 * b2 + 0x100_0000 * b3
  }

  /** Byte `i` of a word, least significant first. */
  function ByteOf(w: nat, i: nat): (b: byte)
  {
    (if i == 0 then w else if i == 1 then w / 0x100 else if i == 2 then w / 0x1_0000 else w / 0x100_0000) % 0x100
  }

  lemma LowByte(b: int, high: int)
    requires 0 <= b < 0x100 && high >= 0
    ensures (b + 0x100 * high) % 0x100 == b && (b + 0x100 * high) / 0x100 == high
  {
  }

  lemma DropTwoBytes(low: int, high: int)
    requires 0 <= low < 0x1_0000 && high >= 0
    ensures (low + 0x1_0000 * high) / 0x1_0000 == high
  {
  }

  lemma DropThreeBytes(low: int, high: int)
    requires 0 <= low < 0x100_0000 && high >= 0
    ensures (low + 0x100_0000 * high) / 0x100_0000 == high
  {
  }

  lemma WordBytes(b0: byte, b1: byte, b2: byte, b3: byte)
    ensures var w := Word(b0, b1, b2, b3);
            && 0 <= w < UINT32
            && ByteOf(w, 0) == b0 && ByteOf(w, 1) == b1 && ByteOf(w, 2) == b2 && ByteOf(w, 3) == b3
  {
    LowByte(b0, b1 + 0x100 * b2 + 0x1_0000 * b3);
    LowByte(b1, b2 + 0x100 * b3);
    LowByte(b2, b3);
    DropTwoBytes(b0 + 0x100 * b1, b2 + 0x100 * b3);
    DropThreeBytes(b0 + 0x100 * b1 + 0x1_0000 * b2, b3);
  }

  lemma WordOfBytes(w: nat)
    requires w < UINT32
    ensures Word(ByteOf(w, 0), ByteOf(w, 1), ByteOf(w, 2), ByteOf(w, 3)) == w
  {
    assert w / 0x1_0000 == w / 0x100 / 0x100;
    assert w / 0x100_0000 == w / 0x1_0000 / 0x100;
  }

  /** memcpy of four bytes into a uint32_t on the little-endian host. */
  function LoadWord(b: Bytes): (w: int)
    requires |b| == HEADER_SIZE
  {
    Word(b[0], b[1], b[2], b[3])
  }

  /** memcpy of a uint32_t into four bytes. */
  function StoreWord(w: nat): (b: Bytes)
  {
    [ByteOf(w, 0), ByteOf(w, 1), ByteOf(w, 2), ByteOf(w, 3)]
  }

  /** ntohl and htonl: reverse the four bytes of a word. */
  function SwapWord(w: nat): (r: nat)
  {
    Word(ByteOf(w, 3), ByteOf(w, 2), ByteOf(w, 1), ByteOf(w, 0))
  }

  lemma SwapTwice(w: nat)
    requires w < UINT32
    ensures 0 <= SwapWord(w) < UINT32 && SwapWord(SwapWord(w)) == w
  {
    WordBytes(ByteOf(w, 3), ByteOf(w, 2), ByteOf(w, 1), ByteOf(w, 0));
    WordOfBytes(w);
  }

  /** The length a header announces: its big-endian value. */
  function HeaderValue(b: Bytes): (n: nat)
    requires |b| == HEADER_SIZE
    ensures n < UINT32
  {
    Word(b[3], b[2], b[1], b[0])
  }

  /** Every reader copies the four bytes into a word and swaps it. */
  lemma NtohlReadsBigEndian(b: Bytes)
    requires |b| == HEADER_SIZE
    ensures LoadWord(b) >= 0 && SwapWord(LoadWord(b)) == HeaderValue(b)
  {
    WordBytes(b[0], b[1], b[2], b[3]);
  }

  /** The header in front of a payload of `n` bytes holds a uint32_t, so a size of 2^32 or
      more is truncated. */
  ghost function Header(n: nat): (b: Bytes)
    ensures |b| == HEADER_SIZE && HeaderValue(b) == n % UINT32
  {
    HtonlBytes(n);
    var b: Bytes :| |b| == HEADER_SIZE && HeaderValue(b) == n % UINT32;
    b
  }

  lemma HtonlBytes(n: nat)
    ensures var b := StoreWord(SwapWord(n % UINT32));
            |b| == HEADER_SIZE && HeaderValue(b) == n % UINT32
  {
    var w := n % UINT32;
    SwapTwice(w);
    WordOfBytes(SwapWord(w));
    var b := StoreWord(SwapWord(w));
    NtohlReadsBigEndian(b);
    assert LoadWord(b) == SwapWord(w);
  }

  lemma HeaderInjective(b: Bytes, c: Bytes)
    requires |b| == HEADER_SIZE && |c| == HEADER_SIZE && HeaderValue(b) == HeaderValue(c)
    ensures b == c
  {
    var w := HeaderValue(b);
    assert b == [ByteOf(w, 3), ByteOf(w, 2), ByteOf(w, 1), ByteOf(w, 0)] by { WordBytes(b[3], b[2], b[1], b[0]); }
    assert c == [ByteOf(w, 3), ByteOf(w, 2), ByteOf(w, 1), ByteOf(w, 0)] by { WordBytes(c[3], c[2], c[1], c[0]); }
  }

  /** Every writer swaps the truncated size and copies the word out. */
  lemma HtonlWritesHeader(n: nat)
    ensures StoreWord(SwapWord(n % UINT32)) == Header(n)
  {
    HtonlBytes(n);
    HeaderInjective(StoreWord(SwapWord(n % UINT32)), Header(n));
  }

  lemma HeaderOfValue(b: Bytes)
    requires |b| == HEADER_SIZE
    ensures Header(HeaderValue(b)) == b
  {
    assert HeaderValue(b) % UINT32 == HeaderValue(b);
    HeaderInjective(Header(HeaderValue(b)), b);
  }

  // ---------------------------------------------------------------- frames

  ghost function Frame(payload: Bytes): (f: Bytes)
    ensures |f| == HEADER_SIZE + |payload|
  {
    Header(|payload|) + payload
  }

  ghost function FrameAll(payloads: seq<Bytes>): Bytes
  {
    if payloads == [] then [] else Frame(payloads[0]) + FrameAll(payloads[1..])
  }

  /** One look at the front of a buffer. */
  datatype ScanResult =
    | NeedMore
    | TooLarge
    | Rejected(frameSize: nat)
    | Accepted(payload: Bytes, frameSize: nat)

  function Scan(valid: Verifier, s: Bytes): (r: ScanResult)
    ensures r.Rejected? || r.Accepted? ==> HEADER_SIZE <= r.frameSize <= |s|
  {
    if |s| < HEADER_SIZE then NeedMore else
    var n := HeaderValue(s[..HEADER_SIZE]);
    if n > MAX_FRAME_SIZE then TooLarge
    else if |s| < HEADER_SIZE + n then NeedMore
    else
      var payload := s[HEADER_SIZE..HEADER_SIZE + n];
      if valid(payload) then Accepted(payload, HEADER_SIZE + n) else Rejected(HEADER_SIZE + n)
  }

  datatype Status = Open | ClosedTooLarge | ClosedInvalid

  datatype Deframed = Deframed(payloads: seq<Bytes>, rest: Bytes, status: Status)

  /** What a byte string means: the accepted payloads, the bytes left over, and whether
      the connection survives. */
  function Deframe(valid: Verifier, s: Bytes): (d: Deframed)
    ensures |d.rest| <= |s|
    decreases |s|
  {
    match Scan(valid, s)
    case NeedMore => Deframed([], s, Open)
    case TooLarge => Deframed([], s, ClosedTooLarge)
    case Rejected(k) => Deframed([], s[k..], ClosedInvalid)
    case Accepted(p, k) => Prepend([p], Deframe(valid, s[k..]))
  }

  function Prepend(ps: seq<Bytes>, d: Deframed): Deframed
  {
    d.(payloads := ps + d.payloads)
  }

  /** What reading `t` after `d` gives: a closed connection reads nothing more. */
  function Continue(valid: Verifier, d: Deframed, t: Bytes): Deframed
  {
    if d.status.Open? then Prepend(d.payloads, Deframe(valid, d.rest + t)) else d.(rest := d.rest + t)
  }

  ghost predicate Acceptable(valid: Verifier, ps: seq<Bytes>)
  {
    forall p <- ps :: valid(p) && |p| <= MAX_FRAME_SIZE
  }

  /** The declarative reading of a byte string: whole acceptable frames, then either an
      incomplete frame, an oversized header, or a complete frame that fails verification. */
  ghost predicate Splits(valid: Verifier, s: Bytes, d: Deframed)
  {
    && Acceptable(valid, d.payloads)
    && match d.status
       case Open =>
         && s == FrameAll(d.payloads) + d.rest
         && (|d.rest| < HEADER_SIZE
             || (HeaderValue(d.rest[..HEADER_SIZE]) <= MAX_FRAME_SIZE
                 && |d.rest| < HEADER_SIZE + HeaderValue(d.rest[..HEADER_SIZE])))
       case ClosedTooLarge =>
         && s == FrameAll(d.payloads) + d.rest
         && |d.rest| >= HEADER_SIZE
         && HeaderValue(d.rest[..HEADER_SIZE]) > MAX_FRAME_SIZE
       case ClosedInvalid =>
         exists bad: Bytes :: !valid(bad) && |bad| <= MAX_FRAME_SIZE
           && s == FrameAll(d.payloads) + (Frame(bad) + d.rest)
  }

  // ---------------------------------------------------------------- scanning a frame

  lemma FrameParts(p: Bytes, t: Bytes)
    requires |p| <= MAX_FRAME_SIZE
    ensures (Frame(p) + t)[..HEADER_SIZE] == Header(|p|)
    ensures HeaderValue(Header(|p|)) == |p|
    ensures (Frame(p) + t)[HEADER_SIZE..HEADER_SIZE + |p|] == p
    ensures (Frame(p) + t)[HEADER_SIZE + |p|..] == t
  {
    assert |p| % UINT32 == |p|;
  }

  lemma ScanFrame(valid: Verifier, p: Bytes, t: Bytes)
    requires |p| <= MAX_FRAME_SIZE
    ensures Scan(valid, Frame(p) + t)
         == if valid(p) then Accepted(p, HEADER_SIZE + |p|) else Rejected(HEADER_SIZE + |p|)
    ensures (Frame(p) + t)[HEADER_SIZE + |p|..] == t
  {
    FrameParts(p, t);
  }

  /** Whenever a scan finds a whole frame, the buffer starts with exactly that frame. */
  lemma ScanSound(valid: Verifier, s: Bytes)
    ensures Scan(valid, s).Accepted? ==>
              var r := Scan(valid, s);
              s == Frame(r.payload) + s[r.frameSize..] && valid(r.payload) && |r.payload| <= MAX_FRAME_SIZE
    ensures Scan(valid, s).Rejected? ==>
              var r := Scan(valid, s);
              var bad := s[HEADER_SIZE..r.frameSize];
              s == Frame(bad) + s[r.frameSize..] && !valid(bad) && |bad| <= MAX_FRAME_SIZE
  {
    if |s| >= HEADER_SIZE {
      HeaderOfValue(s[..HEADER_SIZE]);
    }
  }

  /** A verdict about the front of a buffer does not change when bytes are appended. */
  lemma ScanExtends(valid: Verifier, s: Bytes, t: Bytes)
    ensures !Scan(valid, s).NeedMore? ==> Scan(valid, s + t) == Scan(valid, s)
  {
    if |s| >= HEADER_SIZE {
      assert (s + t)[..HEADER_SIZE] == s[..HEADER_SIZE];
      var n := HeaderValue(s[..HEADER_SIZE]);
      if |s| >= HEADER_SIZE + n {
        assert (s + t)[HEADER_SIZE..HEADER_SIZE + n] == s[HEADER_SIZE..HEADER_SIZE + n];
      }
    }
  }

  // ---------------------------------------------------------------- laws of Deframe

  lemma Assoc(a: Bytes, b: Bytes, c: Bytes)
    ensures a + (b + c) == a + b + c
  {
  }

  lemma PrependPrepend(ps: seq<Bytes>, qs: seq<Bytes>, d: Deframed)
    ensures Prepend(ps, Prepend(qs, d)) == Prepend(ps + qs, d)
    ensures Prepend([], d) == d
  {
    assert ps + (qs + d.payloads) == ps + qs + d.payloads;
  }

  /** Reading a longer string continues from the residue of the shorter one; a closed
      connection keeps its verdict and its payloads whatever follows. */
  lemma {:induction false} DeframeAppend(valid: Verifier, s: Bytes, t: Bytes)
    ensures Deframe(valid, s + t) == Continue(valid, Deframe(valid, s), t)
    decreases |s|
  {
    ScanExtends(valid, s, t);
    match Scan(valid, s)
    case NeedMore => PrependPrepend([], [], Deframe(valid, s + t));
    case TooLarge =>
    case Rejected(k) => assert (s + t)[k..] == s[k..] + t;
    case Accepted(p, k) =>
      assert (s + t)[k..] == s[k..] + t;
      DeframeAppend(valid, s[k..], t);
      var d := Deframe(valid, s[k..]);
      PrependPrepend([p], d.payloads, Deframe(valid, d.rest + t));
  }

  /** Reading is idempotent: the residue of an open stream holds no further verdict. */
  lemma {:induction false} RestNeedsMore(valid: Verifier, s: Bytes)
    requires Deframe(valid, s).status.Open?
    ensures Scan(valid, Deframe(valid, s).rest).NeedMore?
    decreases |s|
  {
    if Scan(valid, s).Accepted? {
      RestNeedsMore(valid, s[Scan(valid, s).frameSize..]);
    }
  }

  /** Whole acceptable frames in front of anything are read off one by one. */
  lemma {:induction false} DeframeFrames(valid: Verifier, ps: seq<Bytes>, t: Bytes)
    requires Acceptable(valid, ps)
    ensures Deframe(valid, FrameAll(ps) + t) == Prepend(ps, Deframe(valid, t))
  {
    if ps == [] {
      assert FrameAll(ps) + t == t;
      PrependPrepend([], [], Deframe(valid, t));
    } else {
      var tail := FrameAll(ps[1..]) + t;
      Assoc(Frame(ps[0]), FrameAll(ps[1..]), t);
      ScanFrame(valid, ps[0], tail);
      DeframeFrames(valid, ps[1..], t);
      PrependPrepend([ps[0]], ps[1..], Deframe(valid, t));
      assert [ps[0]] + ps[1..] == ps;
    }
  }

  lemma FrameAllCons(p: Bytes, ps: seq<Bytes>)
    ensures FrameAll([p] + ps) == Frame(p) + FrameAll(ps)
  {
    assert ([p] + ps)[1..] == ps;
  }

  lemma SplitsCons(valid: Verifier, p: Bytes, s: Bytes, d: Deframed)
    requires valid(p) && |p| <= MAX_FRAME_SIZE && Splits(valid, s, d)
    ensures Splits(valid, Frame(p) + s, Prepend([p], d))
  {
    FrameAllCons(p, d.payloads);
    var t := Frame(p) + s;
    var e := Prepend([p], d);
    if d.status.ClosedInvalid? {
      var bad: Bytes :| !valid(bad) && |bad| <= MAX_FRAME_SIZE
        && s == FrameAll(d.payloads) + (Frame(bad) + d.rest);
      Assoc(Frame(p), FrameAll(d.payloads), Frame(bad) + d.rest);
      assert t == FrameAll(e.payloads) + (Frame(bad) + e.rest);
    } else {
      Assoc(Frame(p), FrameAll(d.payloads), d.rest);
      assert t == FrameAll(e.payloads) + e.rest;
    }
  }

  lemma NoFramesBefore(s: Bytes)
    ensures FrameAll([]) + s == s
  {
  }

  lemma RejectSplits(valid: Verifier, s: Bytes, bad: Bytes, rest: Bytes)
    requires s == Frame(bad) + rest && !valid(bad) && |bad| <= MAX_FRAME_SIZE
    ensures Splits(valid, s, Deframed([], rest, ClosedInvalid))
  {
    NoFramesBefore(Frame(bad) + rest);
    assert s == FrameAll([]) + (Frame(bad) + rest);
  }

  lemma StopSplits(valid: Verifier, s: Bytes)
    requires !Scan(valid, s).Accepted?
    ensures Splits(valid, s, Deframe(valid, s))
  {
    var r := Scan(valid, s);
    if r.Rejected? {
      ScanSound(valid, s);
      RejectSplits(valid, s, s[HEADER_SIZE..r.frameSize], s[r.frameSize..]);
    } else if r.NeedMore? {
      NeedMoreSplits(valid, s);
    } else {
      TooLargeSplits(valid, s);
    }
  }

  lemma NeedMoreSplits(valid: Verifier, s: Bytes)
    requires Scan(valid, s).NeedMore?
    ensures Splits(valid, s, Deframed([], s, Open))
  {
    NoFramesBefore(s);
  }

  lemma TooLargeSplits(valid: Verifier, s: Bytes)
    requires Scan(valid, s).TooLarge?
    ensures Splits(valid, s, Deframed([], s, ClosedTooLarge))
  {
    NoFramesBefore(s);
  }

  lemma {:induction false} DeframeSplits(valid: Verifier, s: Bytes)
    ensures Splits(valid, s, Deframe(valid, s))
    decreases |s|
  {
    var r := Scan(valid, s);
    if r.Accepted? {
      ScanSound(valid, s);
      DeframeSplits(valid, s[r.frameSize..]);
      SplitsCons(valid, r.payload, s[r.frameSize..], Deframe(valid, s[r.frameSize..]));
    } else {
      StopSplits(valid, s);
    }
  }

  lemma SplitsUnique(valid: Verifier, s: Bytes, d: Deframed)
    requires Splits(valid, s, d)
    ensures d == Deframe(valid, s)
  {
    assert d.payloads + [] == d.payloads;
    if d.status.ClosedInvalid? {
      var bad: Bytes :| !valid(bad) && |bad| <= MAX_FRAME_SIZE
        && s == FrameAll(d.payloads) + (Frame(bad) + d.rest);
      RejectedAfter(valid, d.payloads, bad, d.rest);
    } else {
      DeframeFrames(valid, d.payloads, d.rest);
    }
  }

  lemma RejectedAfter(valid: Verifier, ps: seq<Bytes>, bad: Bytes, t: Bytes)
    requires Acceptable(valid, ps) && !valid(bad) && |bad| <= MAX_FRAME_SIZE
    ensures Deframe(valid, FrameAll(ps) + (Frame(bad) + t)) == Deframed(ps, t, ClosedInvalid)
  {
    var s := Frame(bad) + t;
    DeframeFrames(valid, ps, s);
    ScanFrame(valid, bad, t);
    assert ps + [] == ps;
  }

  /** `Deframe` is the only reading: it holds of `d` exactly when `d` splits the string. */
  lemma DeframeCharacterised(valid: Verifier, s: Bytes, d: Deframed)
    ensures Splits(valid, s, d) <==> d == Deframe(valid, s)
  {
    DeframeSplits(valid, s);
    if Splits(valid, s, d) {
      SplitsUnique(valid, s, d);
    }
  }
}
