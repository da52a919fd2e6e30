/** Tracking of outstanding requests: every operation runs under one mutex. */
module Requests {
  import opened Basics

  type Sequence = nat

  /** `id` numbers the effective calls of TrackRequest. */
  datatype Pending = Pending(id: nat, responseType: int, sentAtNs: nat, deadlineNs: nat)

  datatype Ending = Resolved | TimedOut | Replaced

  /** The pending map, how each ended request ended, and the round-trip times observed. */
  datatype Books = Books(
    pending: map<Sequence, Pending>,
    tracked: nat,
    ended: map<nat, Ending>,
    rtts: seq<nat>)

  const EMPTY: Books := Books(map[], 0, map[], [])

  datatype Op =
    | TrackOp(sequence: Sequence, responseType: int, timeoutMs: int, nowNs: nat)
    | ResolveOp(sequence: Sequence, receivedType: int, nowNs: nat)
    | ExpireOp(nowNs: nat)

  function Nanoseconds(ms: int): int
  {
    1_000_000 * ms
  }

  /** The deadline is a uint64_t: the sum wraps, and 0 means none. */
  function Deadline(timeoutMs: int, nowNs: nat): nat
  {
    if timeoutMs > 0 then (nowNs + Nanoseconds(timeoutMs)) % UINT64 else 0
  }

  predicate Expired(p: Pending, nowNs: nat)
  {
    p.deadlineNs != 0 && nowNs >= p.deadlineNs
  }

  /** The request under `k` ends. */
  function Close(b: Books, k: Sequence, ending: Ending): Books
    requires k in b.pending
  {
    b.(pending := b.pending - {k}, ended := b.ended[b.pending[k].id := ending])
  }

  function Track(b: Books, sequence: Sequence, responseType: int, timeoutMs: int, nowNs: nat): Books
  {
    if sequence == 0 || responseType == 0 then b
    else
      var c := if sequence in b.pending then Close(b, sequence, Replaced) else b;
      c.(pending := c.pending[sequence := Pending(b.tracked, responseType, nowNs, Deadline(timeoutMs, nowNs))],
         tracked := b.tracked + 1)
  }

  predicate Answers(pending: map<Sequence, Pending>, sequence: Sequence, receivedType: int)
  {
    sequence != 0 && sequence in pending && pending[sequence].responseType == receivedType
  }

  function Resolve(b: Books, sequence: Sequence, receivedType: int, nowNs: nat): Books
  {
    if !Answers(b.pending, sequence, receivedType) then b
    else
      var p := b.pending[sequence];
      Close(b, sequence, Resolved).(rtts := if nowNs >= p.sentAtNs then b.rtts + [nowNs - p.sentAtNs] else b.rtts)
  }

  function ExpiredKeys(m: map<Sequence, Pending>, nowNs: nat): set<Sequence>
  {
    set k | k in m && Expired(m[k], nowNs)
  }

  /** The requests under the keys `gone` time out, one after the other. */
  ghost function GiveUp(b: Books, gone: set<Sequence>): Books
    requires gone <= b.pending.Keys
    decreases |gone|
  {
    if gone == {} then b
    else
      var k :| k in gone;
      GiveUp(Close(b, k, TimedOut), gone - {k})
  }

  /** Exactly the entries whose nonzero deadline has passed time out. */
  ghost function Expire(b: Books, nowNs: nat): Books
  {
    GiveUp(b, ExpiredKeys(b.pending, nowNs))
  }

  ghost function Apply(b: Books, op: Op): Books
  {
    match op
    case TrackOp(s, r, t, n) => Track(b, s, r, t, n)
    case ResolveOp(s, r, n) => Resolve(b, s, r, n)
    case ExpireOp(n) => Expire(b, n)
  }

  /** Any interleaving of calls is some sequence of operations. */
  ghost function RunOps(ops: seq<Op>): Books
  {
    if ops == [] then EMPTY else Apply(RunOps(ops[..|ops| - 1]), ops[|ops| - 1])
  }

  /** What the program itself keeps of the books: its timeout counter counts exactly the
      requests that ended by timing out. */
  datatype Fields = Fields(pending: map<Sequence, Pending>, rtts: seq<nat>, tracked: nat, timeouts: nat)

  function FieldsOf(b: Books): Fields
  {
    Fields(b.pending, b.rtts, b.tracked, |Having(b, TimedOut)|)
  }

  /** What one call does to the fields. */
  function Act(f: Fields, op: Op): Fields
  {
    match op
    case TrackOp(s, r, t, n) =>
      if s == 0 || r == 0 then f
      else f.(pending := f.pending[s := Pending(f.tracked, r, n, Deadline(t, n))], tracked := f.tracked + 1)
    case ResolveOp(s, r, n) =>
      if !Answers(f.pending, s, r) then f
      else
        var sent := f.pending[s].sentAtNs;
        f.(pending := f.pending - {s}, rtts := if n >= sent then f.rtts + [n - sent] else f.rtts)
    case ExpireOp(n) =>
      var gone := ExpiredKeys(f.pending, n);
      f.(pending := f.pending - gone, timeouts := f.timeouts + |gone|)
  }

  /** The tracker as the program changes it; `Pending.id` and `tracked` only name requests. */
  class RequestTracker {
    var pendingRequests: map<Sequence, Pending>
    var responseTimeoutTotal: nat
    var requestRtt: seq<nat>
    var tracked: nat

    function State(): Fields
      reads this
    {
      Fields(pendingRequests, requestRtt, tracked, responseTimeoutTotal)
    }

    constructor ()
      ensures State() == FieldsOf(EMPTY)
    {
      pendingRequests, responseTimeoutTotal, requestRtt, tracked := map[], 0, [], 0;
    }

    /** A pending request under the same sequence number is replaced. */
    method TrackRequest(sequence: Sequence, responseType: int, timeoutMs: int, nowNs: nat)
      modifies this
      ensures State() == Act(old(State()), TrackOp(sequence, responseType, timeoutMs, nowNs))
    {
      if sequence == 0 || responseType == 0 {
        return;
      }
      var timeoutNs := if timeoutMs > 0 then Nanoseconds(timeoutMs) else 0;
      var deadlineNs := if timeoutNs > 0 then (nowNs + timeoutNs) % UINT64 else 0;
      pendingRequests := pendingRequests[sequence := Pending(tracked, responseType, nowNs, deadlineNs)];
      tracked := tracked + 1;
    }

    /** A response of the expected type ends its request; a clock that went back is not
        observed. */
    method ResolveRequest(sequence: Sequence, receivedType: int, nowNs: nat)
      modifies this
      ensures State() == Act(old(State()), ResolveOp(sequence, receivedType, nowNs))
    {
      if sequence == 0 {
        return;
      }
      if sequence !in pendingRequests {
        return;
      }
      var found := pendingRequests[sequence];
      if found.responseType != receivedType {
        return;
      }
      if nowNs >= found.sentAtNs {
        requestRtt := requestRtt + [nowNs - found.sentAtNs];
      }
      pendingRequests := pendingRequests - {sequence};
    }

    method ExpireTimedOutRequests(nowNs: nat)
      modifies `pendingRequests, `responseTimeoutTotal
      ensures State() == Act(old(State()), ExpireOp(nowNs))
    {
      var left, timeouts := EraseExpired(pendingRequests, nowNs);
      pendingRequests := left;
      responseTimeoutTotal := responseTimeoutTotal + timeouts;
    }

    method Do(op: Op)
      modifies this
      ensures State() == Act(old(State()), op)
    {
      match op
      case TrackOp(s, r, t, n) => TrackRequest(s, r, t, n);
      case ResolveOp(s, r, n) => ResolveRequest(s, r, n);
      case ExpireOp(n) => ExpireTimedOutRequests(n);
    }
  }

  /** Any calls in any order on a new tracker: its table, its round trips and its timeout
      counter are those of the run's books. */
  method RunTracker(ops: seq<Op>) returns (tracker: RequestTracker)
    ensures fresh(tracker) && tracker.State() == FieldsOf(RunOps(ops))
  {
    tracker := new RequestTracker();
    assert ops[..0] == [];
    for i := 0 to |ops|
      invariant fresh(tracker) && tracker.State() == FieldsOf(RunOps(ops[..i]))
    {
      tracker.Do(ops[i]);
      RunStep(ops, i);
    }
    assert ops[..|ops|] == ops;
  }

  lemma RunStep(ops: seq<Op>, i: nat)
    requires i < |ops|
    ensures FieldsOf(RunOps(ops[..i + 1])) == Act(FieldsOf(RunOps(ops[..i])), ops[i])
  {
    assert ops[..i + 1][..i] == ops[..i];
    RunInv(ops[..i]);
    ActFollows(RunOps(ops[..i]), ops[i]);
  }

  lemma ActFollows(b: Books, op: Op)
    requires Inv(b)
    ensures FieldsOf(Apply(b, op)) == Act(FieldsOf(b), op)
  {
    match op
    case TrackOp(s, r, t, n) => TrackEffect(b, s, r, t, n);
    case ResolveOp(s, r, n) => ResolveEffect(b, s, r, n);
    case ExpireOp(n) => ExpireEffect(b, n);
  }

  /** Erase while iterating: every entry is looked at once, the expired ones go and are
      counted. */
  method EraseExpired(all: map<Sequence, Pending>, nowNs: nat) returns (left: map<Sequence, Pending>, timeouts: nat)
    ensures left == all - ExpiredKeys(all, nowNs)
    ensures timeouts == |ExpiredKeys(all, nowNs)|
  {
    ghost var expired := ExpiredKeys(all, nowNs);
    var todo := all.Keys;
    left, timeouts := all, 0;
    while todo != {}
      invariant todo <= all.Keys
      invariant left == all - (expired - todo)
      invariant timeouts == |expired - todo|
      decreases todo
    {
      var key :| key in todo;
      VisitOne(all, expired, todo, key);
      todo := todo - {key};
      if left[key].deadlineNs != 0 && nowNs >= left[key].deadlineNs {
        timeouts := timeouts + 1;
        left := left - {key};
      }
    }
    assert expired - {} == expired;
  }

  lemma VisitOne(all: map<Sequence, Pending>, expired: set<Sequence>, todo: set<Sequence>, key: Sequence)
    requires key in todo && todo <= all.Keys
    ensures key in all - (expired - todo)
    ensures key in expired ==>
              && |expired - (todo - {key})| == |expired - todo| + 1
              && all - (expired - (todo - {key})) == all - (expired - todo) - {key}
    ensures key !in expired ==> expired - (todo - {key}) == expired - todo
  {
    if key in expired {
      assert expired - (todo - {key}) == (expired - todo) + {key};
    } else {
      assert expired - (todo - {key}) == expired - todo;
    }
  }

  lemma {:induction false} GiveUpRemoves(b: Books, gone: set<Sequence>)
    requires gone <= b.pending.Keys
    ensures GiveUp(b, gone) == b.(pending := b.pending - gone, ended := GiveUp(b, gone).ended)
    decreases |gone|
  {
    if gone == {} {
      assert b.pending - {} == b.pending;
    } else {
      var k :| k in gone && GiveUp(b, gone) == GiveUp(Close(b, k, TimedOut), gone - {k});
      GiveUpRemoves(Close(b, k, TimedOut), gone - {k});
      assert b.pending - {k} - (gone - {k}) == b.pending - gone;
    }
  }

  // ---------------------------------------------------------------- counting timeouts

  /** The ids that ended one way. */
  function Having(b: Books, ending: Ending): set<nat>
  {
    set i | i in b.ended && b.ended[i] == ending
  }

  lemma SameEndings(b: Books, c: Books)
    requires b.ended == c.ended
    ensures Having(b, TimedOut) == Having(c, TimedOut)
  {
  }

  lemma CloseCounts(b: Books, k: Sequence, ending: Ending)
    requires k in b.pending && b.pending[k].id !in b.ended
    ensures |Having(Close(b, k, ending), TimedOut)| == |Having(b, TimedOut)| + if ending == TimedOut then 1 else 0
  {
    HavingAfterClose(b, k, ending);
    var i, before := b.pending[k].id, Having(b, TimedOut);
    assert i !in before && |before + {i}| == |before| + 1;
  }

  lemma HavingAfterClose(b: Books, k: Sequence, ending: Ending)
    requires k in b.pending && b.pending[k].id !in b.ended
    ensures Having(Close(b, k, ending), TimedOut)
         == if ending == TimedOut then Having(b, TimedOut) + {b.pending[k].id} else Having(b, TimedOut)
  {
    var i, ended := b.pending[k].id, b.ended[b.pending[k].id := ending];
    assert forall j | j in ended :: j == i || (j in b.ended && ended[j] == b.ended[j]);
  }

  lemma TrackEffect(b: Books, sequence: Sequence, responseType: int, timeoutMs: int, nowNs: nat)
    requires Inv(b)
    ensures var c := Track(b, sequence, responseType, timeoutMs, nowNs);
      && c.rtts == b.rtts && |Having(c, TimedOut)| == |Having(b, TimedOut)|
      && (sequence == 0 || responseType == 0 ==> c == b)
      && (sequence != 0 && responseType != 0 ==>
            && c.tracked == b.tracked + 1
            && c.pending == b.pending[sequence := Pending(b.tracked, responseType, nowNs, Deadline(timeoutMs, nowNs))])
  {
    var c := Track(b, sequence, responseType, timeoutMs, nowNs);
    if sequence != 0 && responseType != 0 && sequence in b.pending {
      CloseCounts(b, sequence, Replaced);
      SameEndings(Close(b, sequence, Replaced), c);
      SetAgain(b.pending, sequence, c.pending[sequence]);
    } else {
      SameEndings(b, c);
    }
  }

  lemma SetAgain(m: map<Sequence, Pending>, k: Sequence, p: Pending)
    ensures (m - {k})[k := p] == m[k := p]
  {
  }

  lemma ResolveEffect(b: Books, sequence: Sequence, receivedType: int, nowNs: nat)
    requires Inv(b)
    ensures var c := Resolve(b, sequence, receivedType, nowNs);
      && c.tracked == b.tracked && |Having(c, TimedOut)| == |Having(b, TimedOut)|
      && (Answers(b.pending, sequence, receivedType) ==>
            && c.pending == b.pending - {sequence}
            && var sent := b.pending[sequence].sentAtNs;
            && c.rtts == if nowNs >= sent then b.rtts + [nowNs - sent] else b.rtts)
  {
    if Answers(b.pending, sequence, receivedType) {
      CloseCounts(b, sequence, Resolved);
      SameEndings(Close(b, sequence, Resolved), Resolve(b, sequence, receivedType, nowNs));
    }
  }

  lemma ExpireEffect(b: Books, nowNs: nat)
    requires Inv(b)
    ensures var c, gone := Expire(b, nowNs), ExpiredKeys(b.pending, nowNs);
      && c.pending == b.pending - gone && c.tracked == b.tracked && c.rtts == b.rtts
      && |Having(c, TimedOut)| == |Having(b, TimedOut)| + |gone|
  {
    var gone := ExpiredKeys(b.pending, nowNs);
    GiveUpRemoves(b, gone);
    GiveUpCounts(b, gone);
  }

  lemma {:induction false} GiveUpCounts(b: Books, gone: set<Sequence>)
    requires Inv(b) && gone <= b.pending.Keys
    ensures |Having(GiveUp(b, gone), TimedOut)| == |Having(b, TimedOut)| + |gone|
    decreases |gone|
  {
    if gone != {} {
      var k :| k in gone && GiveUp(b, gone) == GiveUp(Close(b, k, TimedOut), gone - {k});
      CloseKeeps(b, k, TimedOut);
      CloseCounts(b, k, TimedOut);
      GiveUpCounts(Close(b, k, TimedOut), gone - {k});
    }
  }

  // ---------------------------------------------------------------- conservation

  /** Every tracked request is pending under one sequence number or has ended, not both. */
  ghost predicate Inv(b: Books)
  {
    && (forall k <- b.pending :: k != 0 && b.pending[k].id < b.tracked && b.pending[k].id !in b.ended)
    && (forall j <- b.pending, k <- b.pending :: b.pending[j].id == b.pending[k].id ==> j == k)
    && (forall i <- b.ended :: i < b.tracked)
    && b.tracked == |b.pending| + |b.ended|
  }

  lemma CloseKeeps(b: Books, k: Sequence, ending: Ending)
    requires Inv(b) && k in b.pending
    ensures Inv(Close(b, k, ending))
  {
    MapRemove(b.pending, k);
    MapAdd(b.ended, b.pending[k].id, ending);
  }

  lemma OpenKeeps(b: Books, k: Sequence, p: Pending)
    requires Inv(b) && k != 0 && k !in b.pending && p.id == b.tracked
    ensures Inv(b.(pending := b.pending[k := p], tracked := b.tracked + 1))
  {
    MapAdd(b.pending, k, p);
  }

  lemma TrackKeeps(b: Books, sequence: Sequence, responseType: int, timeoutMs: int, nowNs: nat)
    requires Inv(b)
    ensures Inv(Track(b, sequence, responseType, timeoutMs, nowNs))
  {
    if sequence != 0 && responseType != 0 {
      if sequence in b.pending {
        CloseKeeps(b, sequence, Replaced);
      }
      var c := if sequence in b.pending then Close(b, sequence, Replaced) else b;
      OpenKeeps(c, sequence, Pending(b.tracked, responseType, nowNs, Deadline(timeoutMs, nowNs)));
    }
  }

  lemma {:induction false} GiveUpKeeps(b: Books, gone: set<Sequence>)
    requires Inv(b) && gone <= b.pending.Keys
    ensures Inv(GiveUp(b, gone))
    decreases |gone|
  {
    if gone != {} {
      var k :| k in gone && GiveUp(b, gone) == GiveUp(Close(b, k, TimedOut), gone - {k});
      CloseKeeps(b, k, TimedOut);
      GiveUpKeeps(Close(b, k, TimedOut), gone - {k});
    }
  }

  /** Giving up changes no ending. */
  lemma {:induction false} GiveUpFinal(b: Books, gone: set<Sequence>, i: nat)
    requires Inv(b) && gone <= b.pending.Keys && i in b.ended
    ensures i in GiveUp(b, gone).ended && GiveUp(b, gone).ended[i] == b.ended[i]
    decreases |gone|
  {
    if gone != {} {
      var k :| k in gone && GiveUp(b, gone) == GiveUp(Close(b, k, TimedOut), gone - {k});
      CloseKeeps(b, k, TimedOut);
      GiveUpFinal(Close(b, k, TimedOut), gone - {k}, i);
    }
  }

  /** What is given up has timed out. */
  lemma {:induction false} GiveUpEnds(b: Books, gone: set<Sequence>, j: Sequence)
    requires Inv(b) && gone <= b.pending.Keys && j in gone
    ensures var e, i := GiveUp(b, gone).ended, b.pending[j].id; i in e && e[i] == TimedOut
    decreases |gone|
  {
    var k :| k in gone && GiveUp(b, gone) == GiveUp(Close(b, k, TimedOut), gone - {k});
    CloseKeeps(b, k, TimedOut);
    if j == k {
      GiveUpFinal(Close(b, k, TimedOut), gone - {k}, b.pending[k].id);
    } else {
      GiveUpEnds(Close(b, k, TimedOut), gone - {k}, j);
    }
  }

  lemma {:induction false} RunInv(ops: seq<Op>)
    ensures Inv(RunOps(ops))
  {
    if ops != [] {
      RunInv(ops[..|ops| - 1]);
      var b := RunOps(ops[..|ops| - 1]);
      match ops[|ops| - 1]
      case TrackOp(s, r, t, n) => TrackKeeps(b, s, r, t, n);
      case ResolveOp(s, r, n) =>
        if Resolve(b, s, r, n) != b { CloseKeeps(b, s, Resolved); }
      case ExpireOp(n) => GiveUpKeeps(b, ExpiredKeys(b.pending, n));
    }
  }

  /** Over every run: tracked = resolved + timed out + replaced + still pending, and a request
      that has ended is no longer pending. */
  lemma RequestsConserved(ops: seq<Op>)
    ensures var b := RunOps(ops);
            && b.tracked == |Having(b, Resolved)| + |Having(b, TimedOut)| + |Having(b, Replaced)| + |b.pending|
            && forall k <- b.pending :: b.pending[k].id !in b.ended
  {
    RunInv(ops);
    CountEndings(RunOps(ops));
  }

  lemma CountEndings(b: Books)
    ensures |b.ended| == |Having(b, Resolved)| + |Having(b, TimedOut)| + |Having(b, Replaced)|
  {
    var r, t, p := Having(b, Resolved), Having(b, TimedOut), Having(b, Replaced);
    assert b.ended.Keys == r + t + p;
    CountThree(r, t, p);
  }

  lemma CountThree(r: set<nat>, t: set<nat>, p: set<nat>)
    requires r !! t && r !! p && t !! p
    ensures |r + t + p| == |r| + |t| + |p|
  {
    assert |r + t| == |r| + |t|;
  }

  /** A request ends at most once: how it ended never changes afterwards. */
  lemma {:induction false} EndingsAreFinal(ops: seq<Op>, more: seq<Op>, i: nat)
    requires i in RunOps(ops).ended
    ensures i in RunOps(ops + more).ended && RunOps(ops + more).ended[i] == RunOps(ops).ended[i]
    decreases |more|
  {
    if more == [] {
      assert ops + more == ops;
    } else {
      var init := more[..|more| - 1];
      EndingsAreFinal(ops, init, i);
      RunInv(ops + init);
      ApplyFinal(RunOps(ops + init), more[|more| - 1], i);
      RunOpsSnoc(ops, more);
    }
  }

  lemma RunOpsSnoc(ops: seq<Op>, more: seq<Op>)
    requires more != []
    ensures RunOps(ops + more) == Apply(RunOps(ops + more[..|more| - 1]), more[|more| - 1])
  {
    assert (ops + more)[..|ops + more| - 1] == ops + more[..|more| - 1];
  }

  lemma ApplyFinal(b: Books, op: Op, i: nat)
    requires Inv(b) && i in b.ended
    ensures i in Apply(b, op).ended && Apply(b, op).ended[i] == b.ended[i]
  {
    if op.ExpireOp? {
      GiveUpFinal(b, ExpiredKeys(b.pending, op.nowNs), i);
    }
  }

  /** Expiry, key by key: an entry goes exactly when its nonzero deadline has passed, and then
      its request has timed out. */
  lemma ExpiryIsExact(b: Books, nowNs: nat, k: Sequence)
    requires Inv(b) && k in b.pending
    ensures var b', p := Expire(b, nowNs), b.pending[k];
            && (k in b'.pending <==> p.deadlineNs == 0 || nowNs < p.deadlineNs)
            && (k in b'.pending ==> b'.pending[k] == p && p.id !in b'.ended)
            && (k !in b'.pending ==> p.id in b'.ended && b'.ended[p.id] == TimedOut)
  {
    var gone := ExpiredKeys(b.pending, nowNs);
    GiveUpKeeps(b, gone);
    GiveUpRemoves(b, gone);
    if k in gone {
      GiveUpEnds(b, gone, k);
    }
  }

  // ---------------------------------------------------------------- one request through a run

  lemma RunOne(ops: seq<Op>, j: nat)
    requires j < |ops|
    ensures RunOps(ops[..j + 1]) == Apply(RunOps(ops[..j]), ops[j]) && Inv(RunOps(ops[..j]))
  {
    assert ops[..j + 1][..j] == ops[..j];
    RunInv(ops[..j]);
  }

  /** The request that the i-th call tracked is neither replaced nor answered before the j-th:
      no call with its sequence number and a type tracks again, none with its type resolves. */
  ghost predicate LeftToWait(ops: seq<Op>, i: nat, j: nat)
    requires i < j <= |ops| && ops[i].TrackOp?
  {
    forall k | i < k < j ::
      && !(ops[k].TrackOp? && ops[k].sequence == ops[i].sequence && ops[k].responseType != 0)
      && !(ops[k].ResolveOp? && ops[k].sequence == ops[i].sequence && ops[k].receivedType == ops[i].responseType)
  }

  /** Some expiry between the two calls came at or after `deadline`. */
  ghost predicate ExpiredBefore(ops: seq<Op>, i: nat, j: nat, deadline: nat)
  {
    exists k | i < k < j && k < |ops| :: ops[k].ExpireOp? && ops[k].nowNs >= deadline
  }

  predicate Waits(b: Books, sequence: Sequence, p: Pending)
  {
    sequence in b.pending && b.pending[sequence] == p
  }

  /** A call that leaves the request alone keeps it, unless it is an expiry whose time has come,
      and never brings it back. */
  lemma WaitStep(b: Books, op: Op, sequence: Sequence, p: Pending)
    requires Inv(b) && (sequence in b.pending ==> b.pending[sequence] == p)
    requires !(op.TrackOp? && op.sequence == sequence && op.responseType != 0)
    requires !(op.ResolveOp? && op.sequence == sequence && op.receivedType == p.responseType)
    ensures var b' := Apply(b, op);
      && (sequence in b'.pending ==> b'.pending[sequence] == p)
      && (sequence in b'.pending <==>
            sequence in b.pending && !(op.ExpireOp? && p.deadlineNs != 0 && op.nowNs >= p.deadlineNs))
  {
    if op.ExpireOp? {
      ExpireEffect(b, op.nowNs);
    }
  }

  /** The time a track sets, on 64 bits; 0 stands for none. */
  function TimeLimit(op: Op): nat
    requires op.TrackOp?
  {
    if op.timeoutMs > 0 then (op.nowNs + 1_000_000 * op.timeoutMs) % 18446744073709551616 else 0
  }

  lemma Tracked(b: Books, op: Op)
    requires op.TrackOp? && op.sequence != 0 && op.responseType != 0
    ensures Waits(Apply(b, op), op.sequence, Pending(b.tracked, op.responseType, op.nowNs, TimeLimit(op)))
  {
  }

  lemma {:induction false} WaitsThrough(ops: seq<Op>, i: nat, j: nat, p: Pending)
    requires i < j <= |ops| && ops[i].TrackOp? && LeftToWait(ops, i, j) && p.responseType == ops[i].responseType
    requires Waits(RunOps(ops[..i + 1]), ops[i].sequence, p)
    ensures var b, q := RunOps(ops[..j]), ops[i].sequence;
      && (q in b.pending ==> b.pending[q] == p)
      && (q in b.pending <==> p.deadlineNs == 0 || !ExpiredBefore(ops, i, j, p.deadlineNs))
    decreases j
  {
    if i + 1 < j {
      LeftEarlier(ops, i, j);
      WaitsThrough(ops, i, j - 1, p);
      RunOne(ops, j - 1);
      WaitStep(RunOps(ops[..j - 1]), ops[j - 1], ops[i].sequence, p);
      OneMore(ops, i, j, p.deadlineNs);
    }
  }

  lemma LeftEarlier(ops: seq<Op>, i: nat, j: nat)
    requires i + 1 < j <= |ops| && ops[i].TrackOp? && LeftToWait(ops, i, j)
    ensures LeftToWait(ops, i, j - 1)
    ensures var op := ops[j - 1];
      && !(op.TrackOp? && op.sequence == ops[i].sequence && op.responseType != 0)
      && !(op.ResolveOp? && op.sequence == ops[i].sequence && op.receivedType == ops[i].responseType)
  {
  }

  lemma OneMore(ops: seq<Op>, i: nat, j: nat, deadline: nat)
    requires i + 1 < j <= |ops|
    ensures ExpiredBefore(ops, i, j, deadline) <==>
              ExpiredBefore(ops, i, j - 1, deadline) || (ops[j - 1].ExpireOp? && ops[j - 1].nowNs >= deadline)
  {
  }

  /** A request tracked at `n` with a timeout of T > 0 milliseconds, neither replaced nor
      answered since, is still pending if and only if no expiry since has come at or after
      n + 1000000 T nanoseconds, as long as that is below 2^64; with a timeout of 0 or less it
      is pending for ever. Beyond 2^64 the time wraps, and at 0 it means none. */
  lemma TimesOutExactly(ops: seq<Op>, i: nat, j: nat)
    requires i < j <= |ops| && ops[i].TrackOp? && ops[i].sequence != 0 && ops[i].responseType != 0
    requires LeftToWait(ops, i, j)
    ensures var b, op := RunOps(ops[..j]), ops[i];
      && (op.timeoutMs <= 0 ==> op.sequence in b.pending)
      && (op.timeoutMs > 0 && op.nowNs + 1_000_000 * op.timeoutMs < 18446744073709551616 ==>
            (op.sequence in b.pending <==> !ExpiredBefore(ops, i, j, op.nowNs + 1_000_000 * op.timeoutMs)))
      && (op.sequence in b.pending <==> TimeLimit(op) == 0 || !ExpiredBefore(ops, i, j, TimeLimit(op)))
      && (op.sequence in b.pending ==> b.pending[op.sequence].id == RunOps(ops[..i]).tracked)
  {
    RunOne(ops, i);
    var b, op := RunOps(ops[..i]), ops[i];
    Tracked(b, op);
    WaitsThrough(ops, i, j, Pending(b.tracked, op.responseType, op.nowNs, TimeLimit(op)));
    LimitInRange(op);
  }

  lemma LimitInRange(op: Op)
    requires op.TrackOp?
    ensures op.timeoutMs <= 0 ==> TimeLimit(op) == 0
    ensures op.timeoutMs > 0 && op.nowNs + 1_000_000 * op.timeoutMs < 18446744073709551616 ==>
      TimeLimit(op) == op.nowNs + 1_000_000 * op.timeoutMs && TimeLimit(op) != 0
  {
  }

  /** A response ends a request if and only if one is pending under its sequence number and has
      its type; the round trip is observed unless the clock went back; otherwise nothing
      changes. */
  lemma AnswerLaw(ops: seq<Op>, sequence: Sequence, receivedType: int, nowNs: nat)
    ensures var b, b' := RunOps(ops), RunOps(ops + [ResolveOp(sequence, receivedType, nowNs)]);
      if sequence in b.pending && b.pending[sequence].responseType == receivedType then
        var p := b.pending[sequence];
        && b'.pending == b.pending - {sequence} && b'.tracked == b.tracked
        && b'.ended == b.ended[p.id := Resolved]
        && b'.rtts == b.rtts + if nowNs >= p.sentAtNs then [nowNs - p.sentAtNs] else []
      else b' == b
  {
    var op := ResolveOp(sequence, receivedType, nowNs);
    assert (ops + [op])[..|ops|] == ops;
    RunInv(ops);
  }

  /** A track with a sequence number and a type enters a new request, ending a pending one under
      the same number as replaced; any other changes nothing. */
  lemma TrackLaw(ops: seq<Op>, sequence: Sequence, responseType: int, timeoutMs: int, nowNs: nat)
    ensures var b, b' := RunOps(ops), RunOps(ops + [TrackOp(sequence, responseType, timeoutMs, nowNs)]);
      if sequence != 0 && responseType != 0 then
        && b'.tracked == b.tracked + 1 && b'.rtts == b.rtts
        && b'.pending.Keys == b.pending.Keys + {sequence}
        && (forall k <- b.pending | k != sequence :: b'.pending[k] == b.pending[k])
        && b'.pending[sequence].id == b.tracked && b'.pending[sequence].responseType == responseType
        && b'.pending[sequence].sentAtNs == nowNs
        && b'.ended == if sequence in b.pending then b.ended[b.pending[sequence].id := Replaced] else b.ended
      else b' == b
  {
    assert (ops + [TrackOp(sequence, responseType, timeoutMs, nowNs)])[..|ops|] == ops;
  }
}
