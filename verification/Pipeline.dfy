/**
  The receive pipeline as a whole: any number of worker threads assembling frames for any
  number of clients, one logic thread ticking, and the shutdown protocol, interleaved at the
  granularity of single lock-protected operations and gauge updates.

  A `ClientId` names one connection, which starts with an empty frame buffer. At most one
  worker handles a connection at a time, because the next receive is posted only after
  `OnRecv` has returned. The logic thread may close a client whose command it cannot dispatch;
  that needs no step of its own here, since it only keeps later chunks from being delivered.
 */
module Pipeline {
  import opened Framing
  import opened Connection

  type ClientId = nat
  type WorkerId = nat

  datatype Queued = Queued(client: ClientId, data: Bytes)

  /** `chunks` is everything ever delivered for the connection, lost chunks included, and
      `left` whether it was disconnected; `overflowed` records that a chunk did not fit. */
  datatype Peer = Peer(chunks: seq<Bytes>, left: bool, buffer: Bytes, closed: bool, overflowed: bool)

  datatype Worker =
    | Waiting
    | Scanning(client: ClientId)
    | Reporting(client: ClientId, frameSize: nat)
    | Exited

  /** The logic thread. `last` marks the deferred tick behind the loop. */
  datatype Logic =
    | NotStarted
    | Testing
    | Draining(last: bool)
    | ReportingDrain(last: bool)
    | Processing(last: bool)
    | Finished

  datatype Server = Running | JoiningWorkers | WorkersJoined | JoiningLogic | Stopped

  datatype State = State(
    conns: map<ClientId, Peer>,
    workers: map<WorkerId, Worker>,
    logic: Logic,
    server: Server,
    queue: seq<Queued>,
    batch: seq<Queued>,
    gauge: int,
    pushed: seq<Queued>,
    taken: seq<Queued>)

  datatype Step =
    | Accept(w: WorkerId, c: ClientId)
    | Deliver(w: WorkerId, c: ClientId, chunk: Bytes)
    | Disconnect(w: WorkerId, c: ClientId)
    | ScanBuffer(w: WorkerId)
    | ReportPush(w: WorkerId)
    | ExitWorker(w: WorkerId)
    | StartLogic
    | TestStop
    | Drain
    | ReportDrain
    | Take
    | EndTick
    | StopServer
    | JoinWorkers
    | StopLogic
    | JoinLogic

  predicate Handles(w: Worker, c: ClientId)
  {
    (w.Scanning? || w.Reporting?) && w.client == c
  }

  predicate Idle(s: State, c: ClientId)
  {
    forall w <- s.workers :: !Handles(s.workers[w], c)
  }

  predicate WaitingWorker(s: State, w: WorkerId)
  {
    w in s.workers && s.workers[w] == Waiting
  }

  /** GameLoop::_hasStopped: from then on received data is dropped. */
  predicate HasStopped(s: State)
  {
    s.server.JoiningLogic? || s.server.Stopped?
  }

  predicate Init(s: State)
  {
    && s.conns == map[]
    && (forall w <- s.workers :: s.workers[w] == Waiting)
    && s.logic == NotStarted && s.server == Running
    && s.queue == s.batch == s.pushed == s.taken == []
    && s.gauge == 0
  }

  predicate Enabled(s: State, step: Step)
  {
    match step
    case Accept(w, c) => WaitingWorker(s, w) && c !in s.conns
    case Deliver(w, c, chunk) => WaitingWorker(s, w) && c in s.conns && !s.conns[c].closed && Idle(s, c)
    case Disconnect(w, c) => WaitingWorker(s, w) && c in s.conns && Idle(s, c)
    case ScanBuffer(w) => w in s.workers && s.workers[w].Scanning? && s.workers[w].client in s.conns
    case ReportPush(w) =>
      w in s.workers && s.workers[w].Reporting? && s.workers[w].client in s.conns
      && s.workers[w].frameSize <= |s.conns[s.workers[w].client].buffer|
    case ExitWorker(w) => WaitingWorker(s, w)
    case StartLogic => s.logic.NotStarted? && s.server.Running?
    case TestStop => s.logic.Testing?
    case Drain => s.logic.Draining?
    case ReportDrain => s.logic.ReportingDrain?
    case Take => s.logic.Processing? && s.batch != []
    case EndTick => s.logic.Processing? && s.batch == []
    case StopServer => s.server.Running? && !s.logic.NotStarted?
    case JoinWorkers => s.server.JoiningWorkers? && forall w <- s.workers :: s.workers[w].Exited?
    case StopLogic => s.server.WorkersJoined?
    case JoinLogic => s.server.JoiningLogic? && s.logic.Finished?
  }

  function SetWorker(s: State, w: WorkerId, phase: Worker): State
  {
    s.(workers := s.workers[w := phase])
  }

  function SetConn(s: State, c: ClientId, conn: Peer): State
  {
    s.(conns := s.conns[c := conn])
  }

  /** The worker appends a chunk and enters the frame loop, unless the buffer overflows or
      the game loop has already stopped. */
  function DoDeliver(s: State, w: WorkerId, c: ClientId, chunk: Bytes): State
    requires Enabled(s, Deliver(w, c, chunk))
  {
    var conn := s.conns[c].(chunks := s.conns[c].chunks + [chunk]);
    if HasStopped(s) then SetConn(s, c, conn)
    else if |conn.buffer| + |chunk| > MAX_FRAME_SIZE then SetConn(s, c, conn.(closed := true, overflowed := true))
    else SetWorker(SetConn(s, c, conn.(buffer := conn.buffer + chunk)), w, Scanning(c))
  }

  /** One look at the buffer; an accepted frame is pushed and consumed after the report. */
  function DoScan(valid: Verifier, s: State, w: WorkerId): State
    requires Enabled(s, ScanBuffer(w))
  {
    var c := s.workers[w].client;
    var conn := s.conns[c];
    match Scan(valid, conn.buffer)
    case NeedMore => SetWorker(s, w, Waiting)
    case TooLarge => SetWorker(SetConn(s, c, conn.(closed := true)), w, Waiting)
    case Rejected(k) => SetWorker(SetConn(s, c, conn.(closed := true, buffer := conn.buffer[k..])), w, Waiting)
    case Accepted(p, k) =>
      SetWorker(s.(queue := s.queue + [Queued(c, p)], pushed := s.pushed + [Queued(c, p)]), w, Reporting(c, k))
  }

  function DoReportPush(s: State, w: WorkerId): State
    requires Enabled(s, ReportPush(w))
  {
    var Reporting(c, k) := s.workers[w];
    var conn := s.conns[c];
    SetWorker(SetConn(s, c, conn.(buffer := conn.buffer[k..])), w, Scanning(c)).(gauge := s.gauge + 1)
  }

  function Next(valid: Verifier, s: State, step: Step): State
    requires Enabled(s, step)
  {
    match step
    case Accept(w, c) => SetConn(s, c, Peer([], false, [], false, false))
    case Deliver(w, c, chunk) => DoDeliver(s, w, c, chunk)
    case Disconnect(w, c) => SetConn(s, c, s.conns[c].(closed := true, left := true))
    case ScanBuffer(w) => DoScan(valid, s, w)
    case ReportPush(w) => DoReportPush(s, w)
    case ExitWorker(w) => SetWorker(s, w, Exited)
    case StartLogic => s.(logic := Testing)
    case TestStop => s.(logic := Draining(s.server.JoiningLogic?))
    case Drain => s.(batch := s.queue, queue := [], logic := ReportingDrain(s.logic.last))
    case ReportDrain => s.(gauge := s.gauge - |s.batch|, logic := Processing(s.logic.last))
    case Take => s.(taken := s.taken + [s.batch[0]], batch := s.batch[1..])
    case EndTick => s.(logic := if s.logic.last then Finished else Testing)
    case StopServer => s.(server := JoiningWorkers)
    case JoinWorkers => s.(server := WorkersJoined)
    case StopLogic => s.(server := JoiningLogic)
    case JoinLogic => s.(server := Stopped)
  }

  /** A run is an initial state and a sequence of enabled steps. */
  ghost predicate Run(valid: Verifier, trace: seq<State>, steps: seq<Step>)
  {
    && |trace| == |steps| + 1
    && Init(trace[0])
    && forall i | 0 <= i < |steps| :: Enabled(trace[i], steps[i]) && trace[i + 1] == Next(valid, trace[i], steps[i])
  }

  // ---------------------------------------------------------------- invariant: queue and order

  /** Every pushed command is taken, in the current batch, or queued, in push order. */
  ghost predicate OrderInv(s: State)
  {
    s.pushed == s.taken + s.batch + s.queue
  }

  ghost predicate LogicInv(s: State)
  {
    && (s.logic.NotStarted? || s.logic.Testing? || s.logic.Draining? || s.logic.Finished? ==> s.batch == [])
    && (s.logic.NotStarted? ==> s.server.Running?)
    && ((s.logic.Draining? || s.logic.ReportingDrain? || s.logic.Processing?) && s.logic.last ==> HasStopped(s))
    && ((s.logic.ReportingDrain? || s.logic.Processing?) && s.logic.last ==> s.queue == [])
    && (s.logic.Finished? ==> HasStopped(s) && s.queue == [])
    && (s.server.Stopped? ==> s.logic.Finished?)
  }

  ghost predicate WorkersInv(s: State)
  {
    && (!s.server.Running? && !s.server.JoiningWorkers? ==> forall w <- s.workers :: s.workers[w].Exited?)
    && (forall w <- s.workers :: s.workers[w].Scanning? || s.workers[w].Reporting? ==> s.workers[w].client in s.conns)
    && (forall v <- s.workers, w <- s.workers ::
          v != w && (s.workers[v].Scanning? || s.workers[v].Reporting?) ==> !Handles(s.workers[w], s.workers[v].client))
  }

  // ---------------------------------------------------------------- invariant: the gauge

  function ReportingSet(s: State): set<WorkerId>
  {
    set w | w in s.workers && s.workers[w].Reporting?
  }

  /** Drained commands the logic thread has not yet subtracted. */
  function UnreportedDrain(s: State): nat
  {
    if s.logic.ReportingDrain? then |s.batch| else 0
  }

  ghost predicate GaugeInv(s: State)
  {
    s.gauge == |s.queue| - |ReportingSet(s)| + UnreportedDrain(s)
  }

  // ---------------------------------------------------------------- invariant: the streams

  function PayloadsOf(cmds: seq<Queued>, c: ClientId): seq<Bytes>
  {
    if cmds == [] then []
    else
      var last := cmds[|cmds| - 1];
      PayloadsOf(cmds[..|cmds| - 1], c) + if last.client == c then [last.data] else []
  }

  /** A connection that has pushed `done` and still has to read a string that means `d`. */
  function Resume(done: seq<Bytes>, d: Deframed): Conn
  {
    Conn(d.rest, done + d.payloads, LifeOf(d.status))
  }

  /** The pushed payloads of `c`, resumed at `rest`, are what its chunks make of a connection. */
  ghost predicate Synced(valid: Verifier, s: State, c: ClientId, rest: Bytes)
    requires c in s.conns
  {
    Feed(valid, s.conns[c].chunks) == Resume(PayloadsOf(s.pushed, c), Deframe(valid, rest))
  }

  /** A worker inside the frame loop; a frame it has pushed but not yet consumed is behind it. */
  ghost predicate WorkerStreamInv(valid: Verifier, s: State, w: WorkerId)
    requires w in s.workers
  {
    var phase := s.workers[w];
    phase.Scanning? || phase.Reporting? ==>
      && phase.client in s.conns
      && var conn := s.conns[phase.client];
      && !conn.closed && !conn.left && !conn.overflowed
      && (phase.Scanning? ==> Synced(valid, s, phase.client, conn.buffer))
      && (phase.Reporting? ==>
            phase.frameSize <= |conn.buffer| && Synced(valid, s, phase.client, conn.buffer[phase.frameSize..]))
  }

  /** Between deliveries a connection is exactly what its chunks make of it. */
  ghost predicate FollowsFeed(valid: Verifier, s: State, c: ClientId, chunks: seq<Bytes>, left: bool)
    requires c in s.conns
  {
    var conn, f := s.conns[c], Feed(valid, chunks);
    && conn.buffer == f.buffer && PayloadsOf(s.pushed, c) == f.pushed
    && (conn.overflowed <==> f.life.Overflowed?)
    && (conn.closed <==> left || !f.life.Live?)
  }

  ghost predicate ConnStreamInv(valid: Verifier, s: State, c: ClientId)
    requires c in s.conns
  {
    Idle(s, c) ==> FollowsFeed(valid, s, c, s.conns[c].chunks, s.conns[c].left)
  }

  ghost predicate StreamInv(valid: Verifier, s: State)
  {
    && (forall w <- s.workers :: WorkerStreamInv(valid, s, w))
    && (forall c <- s.conns :: ConnStreamInv(valid, s, c))
    && (forall cmd <- s.pushed :: cmd.client in s.conns)
  }

  ghost predicate Inv(valid: Verifier, s: State)
  {
    OrderInv(s) && LogicInv(s) && WorkersInv(s) && GaugeInv(s) && StreamInv(valid, s)
  }

  // ---------------------------------------------------------------- preservation

  lemma PayloadsOfSnoc(cmds: seq<Queued>, cmd: Queued, c: ClientId)
    ensures PayloadsOf(cmds + [cmd], c) == PayloadsOf(cmds, c) + if cmd.client == c then [cmd.data] else []
  {
    assert (cmds + [cmd])[..|cmds|] == cmds;
  }

  lemma {:induction false} PayloadsOfNone(cmds: seq<Queued>, c: ClientId)
    requires forall cmd <- cmds :: cmd.client != c
    ensures PayloadsOf(cmds, c) == []
  {
    if cmds != [] {
      PayloadsOfNone(cmds[..|cmds| - 1], c);
    }
  }

  lemma {:induction false} PayloadsOfAppend(a: seq<Queued>, b: seq<Queued>, c: ClientId)
    ensures PayloadsOf(a + b, c) == PayloadsOf(a, c) + PayloadsOf(b, c)
  {
    if b == [] {
      assert a + b == a;
    } else {
      var init, last := b[..|b| - 1], b[|b| - 1];
      assert a + b == a + init + [last];
      PayloadsOfSnoc(a + init, last, c);
      PayloadsOfAppend(a, init, c);
    }
  }

  lemma ScanOrder(valid: Verifier, s: State, w: WorkerId)
    requires OrderInv(s) && Enabled(s, ScanBuffer(w))
    ensures OrderInv(DoScan(valid, s, w))
  {
  }

  /** The steps that neither push nor take anything. */
  lemma QuietOrder(valid: Verifier, s: State, step: Step)
    requires OrderInv(s) && Enabled(s, step) && !step.ScanBuffer? && !step.Drain? && !step.Take?
    ensures OrderInv(Next(valid, s, step))
  {
  }

  lemma NextOrder(valid: Verifier, s: State, step: Step)
    requires OrderInv(s) && LogicInv(s) && Enabled(s, step)
    ensures OrderInv(Next(valid, s, step))
  {
    match step
    case ScanBuffer(w) => ScanOrder(valid, s, w);
    case Drain => assert s.taken + [] + s.queue == s.taken + s.queue + [];
    case Take => assert s.batch == [s.batch[0]] + s.batch[1..];
    case _ => QuietOrder(valid, s, step);
  }

  predicate WorkerStep(step: Step)
  {
    step.Accept? || step.Deliver? || step.Disconnect? || step.ScanBuffer? || step.ReportPush? || step.ExitWorker?
  }

  /** A worker changes neither the logic thread nor the server, and it can only push while the
      workers have not been joined. */
  lemma WorkerLogic(valid: Verifier, s: State, step: Step)
    requires LogicInv(s) && WorkersInv(s) && Enabled(s, step) && WorkerStep(step)
    ensures LogicInv(Next(valid, s, step))
  {
    var s' := Next(valid, s, step);
    assert s'.logic == s.logic && s'.server == s.server && s'.batch == s.batch;
    assert HasStopped(s) ==> s'.queue == s.queue;
  }

  lemma OwnLogic(valid: Verifier, s: State, step: Step)
    requires LogicInv(s) && WorkersInv(s) && Enabled(s, step) && !WorkerStep(step)
    ensures LogicInv(Next(valid, s, step))
  {
  }

  lemma NextLogic(valid: Verifier, s: State, step: Step)
    requires LogicInv(s) && WorkersInv(s) && Enabled(s, step)
    ensures LogicInv(Next(valid, s, step))
  {
    if WorkerStep(step) {
      WorkerLogic(valid, s, step);
    } else {
      OwnLogic(valid, s, step);
    }
  }

  /** One worker changes phase, and only to a connection it or nobody handled. */
  lemma WorkerMoves(s: State, s': State, w: WorkerId, phase: Worker)
    requires WorkersInv(s) && w in s.workers && !s.workers[w].Exited?
    requires s'.workers == s.workers[w := phase] && s'.server == s.server && s.conns.Keys <= s'.conns.Keys
    requires phase.Scanning? || phase.Reporting? ==>
      && phase.client in s'.conns
      && (Handles(s.workers[w], phase.client) || Idle(s, phase.client))
    ensures WorkersInv(s')
  {
  }

  lemma NextWorkers(valid: Verifier, s: State, step: Step)
    requires WorkersInv(s) && Enabled(s, step)
    ensures WorkersInv(Next(valid, s, step))
  {
    var s' := Next(valid, s, step);
    match step
    case Deliver(w, c, chunk) =>
      DeliverChanges(s, w, c, chunk);
      WorkerMoves(s, s', w, s'.workers[w]);
    case ScanBuffer(w) => ScanWorkers(valid, s, w);
    case ReportPush(w) => WorkerMoves(s, s', w, s'.workers[w]);
    case ExitWorker(w) => WorkerMoves(s, s', w, Exited);
    case _ => QuietWorkers(valid, s, step);
  }

  lemma ScanWorkers(valid: Verifier, s: State, w: WorkerId)
    requires WorkersInv(s) && Enabled(s, ScanBuffer(w))
    ensures WorkersInv(DoScan(valid, s, w))
  {
    var s' := DoScan(valid, s, w);
    WorkerMoves(s, s', w, s'.workers[w]);
  }

  /** The steps that change no worker. */
  lemma QuietWorkers(valid: Verifier, s: State, step: Step)
    requires WorkersInv(s) && Enabled(s, step)
    requires !step.Deliver? && !step.ScanBuffer? && !step.ReportPush? && !step.ExitWorker?
    ensures WorkersInv(Next(valid, s, step))
  {
  }

  lemma ScanGauge(valid: Verifier, s: State, w: WorkerId)
    requires GaugeInv(s) && Enabled(s, ScanBuffer(w))
    ensures GaugeInv(DoScan(valid, s, w))
  {
    var s' := DoScan(valid, s, w);
    if s'.workers[w].Reporting? {
      assert ReportingSet(s') == ReportingSet(s) + {w};
    } else {
      assert ReportingSet(s') == ReportingSet(s);
    }
  }

  lemma NextGauge(valid: Verifier, s: State, step: Step)
    requires GaugeInv(s) && LogicInv(s) && Enabled(s, step)
    ensures GaugeInv(Next(valid, s, step))
  {
    match step
    case ScanBuffer(w) =>
      ScanGauge(valid, s, w);
    case ReportPush(w) =>
      ReportGauge(s, w);
    case _ =>
      QuietGauge(valid, s, step);
  }

  lemma ReportGauge(s: State, w: WorkerId)
    requires GaugeInv(s) && Enabled(s, ReportPush(w))
    ensures GaugeInv(DoReportPush(s, w))
  {
    var before, after := ReportingSet(s), ReportingSet(DoReportPush(s, w));
    assert w !in after && before == after + {w};
    assert |before| == |after| + 1;
  }

  /** The steps that push nothing and report no push. */
  lemma QuietGauge(valid: Verifier, s: State, step: Step)
    requires GaugeInv(s) && LogicInv(s) && Enabled(s, step) && !step.ScanBuffer? && !step.ReportPush?
    ensures GaugeInv(Next(valid, s, step))
  {
    SameReporters(valid, s, step);
  }

  lemma SameReporters(valid: Verifier, s: State, step: Step)
    requires Enabled(s, step) && !step.ScanBuffer? && !step.ReportPush?
    ensures ReportingSet(Next(valid, s, step)) == ReportingSet(s)
  {
  }

  /** A worker keeps its invariant if its connection and that client's pushes are untouched. */
  lemma WorkerFrame(valid: Verifier, s: State, s': State, v: WorkerId)
    requires v in s.workers && v in s'.workers && s.workers[v] == s'.workers[v]
    requires WorkerStreamInv(valid, s, v)
    requires s.workers[v].Scanning? || s.workers[v].Reporting? ==>
               var c := s.workers[v].client;
               c in s'.conns && s'.conns[c] == s.conns[c] && PayloadsOf(s'.pushed, c) == PayloadsOf(s.pushed, c)
    ensures WorkerStreamInv(valid, s', v)
  {
  }

  lemma ConnFrame(valid: Verifier, s: State, s': State, d: ClientId)
    requires d in s.conns && d in s'.conns && s.conns[d] == s'.conns[d]
    requires PayloadsOf(s'.pushed, d) == PayloadsOf(s.pushed, d)
    requires ConnStreamInv(valid, s, d)
    requires Idle(s', d) ==> Idle(s, d)
    ensures ConnStreamInv(valid, s', d)
  {
  }

  /** A step of worker `w` on connection `c` need only account for `w` and `c`. */
  lemma StreamFrame(valid: Verifier, s: State, s': State, w: WorkerId, c: ClientId)
    requires WorkersInv(s) && StreamInv(valid, s) && w in s.workers && c in s.conns
    requires Handles(s.workers[w], c) || Idle(s, c)
    requires w in s'.workers && s'.workers == s.workers[w := s'.workers[w]]
    requires c in s'.conns && s'.conns == s.conns[c := s'.conns[c]]
    requires s'.workers[w].Scanning? || s'.workers[w].Reporting? ==> s'.workers[w].client == c
    requires s.workers[w].Scanning? || s.workers[w].Reporting? ==> s.workers[w].client == c
    requires forall d | d != c :: PayloadsOf(s'.pushed, d) == PayloadsOf(s.pushed, d)
    requires forall cmd <- s'.pushed :: cmd.client in s'.conns
    requires WorkerStreamInv(valid, s', w) && ConnStreamInv(valid, s', c)
    ensures StreamInv(valid, s')
  {
    forall v <- s'.workers ensures WorkerStreamInv(valid, s', v) {
      if v != w {
        assert WorkerStreamInv(valid, s, v) && !Handles(s.workers[v], c);
        WorkerFrame(valid, s, s', v);
      }
    }
    forall d <- s'.conns ensures ConnStreamInv(valid, s', d) {
      if d != c {
        IdleElsewhere(s, s', w, d);
        assert ConnStreamInv(valid, s, d);
        ConnFrame(valid, s, s', d);
      }
    }
  }

  lemma IdleElsewhere(s: State, s': State, w: WorkerId, d: ClientId)
    requires w in s.workers && w in s'.workers && s'.workers == s.workers[w := s'.workers[w]]
    requires !Handles(s.workers[w], d)
    ensures Idle(s', d) ==> Idle(s, d)
  {
    if Idle(s', d) {
      forall v <- s.workers ensures !Handles(s.workers[v], d) {
        assert v in s'.workers;
      }
    }
  }

  lemma DeliverStreams(valid: Verifier, s: State, w: WorkerId, c: ClientId, chunk: Bytes)
    requires WorkersInv(s) && StreamInv(valid, s) && Enabled(s, Deliver(w, c, chunk))
    ensures StreamInv(valid, DoDeliver(s, w, c, chunk))
  {
    var s' := DoDeliver(s, w, c, chunk);
    assert ConnStreamInv(valid, s, c);
    FeedSnoc(valid, s.conns[c].chunks, chunk);
    DeliverChanges(s, w, c, chunk);
    if s'.workers[w].Scanning? {
      assert Handles(s'.workers[w], c);
    }
    StreamFrame(valid, s, s', w, c);
  }

  lemma FeedSnoc(valid: Verifier, chunks: seq<Bytes>, chunk: Bytes)
    ensures Feed(valid, chunks + [chunk]) == OnChunk(valid, Feed(valid, chunks), chunk)
    ensures Flatten(chunks + [chunk]) == Flatten(chunks) + chunk
  {
    assert (chunks + [chunk])[..|chunks|] == chunks;
  }

  lemma DeliverChanges(s: State, w: WorkerId, c: ClientId, chunk: Bytes)
    requires Enabled(s, Deliver(w, c, chunk))
    ensures var s' := DoDeliver(s, w, c, chunk);
            && w in s'.workers && c in s'.conns && s'.pushed == s.pushed
            && s'.workers == s.workers[w := s'.workers[w]] && s'.conns == s.conns[c := s'.conns[c]]
  {
  }

  lemma PushStreams(valid: Verifier, s: State, w: WorkerId)
    requires WorkersInv(s) && StreamInv(valid, s) && Enabled(s, ScanBuffer(w))
    requires Scan(valid, s.conns[s.workers[w].client].buffer).Accepted?
    ensures StreamInv(valid, DoScan(valid, s, w))
  {
    var s' := DoScan(valid, s, w);
    var c := s.workers[w].client;
    var buf, done := s.conns[c].buffer, PayloadsOf(s.pushed, c);
    var r := Scan(valid, buf);
    assert WorkerStreamInv(valid, s, w);
    ResumeAccepted(valid, done, buf);
    forall d ensures PayloadsOf(s'.pushed, d) == PayloadsOf(s.pushed, d) + if d == c then [r.payload] else [] {
      PayloadsOfSnoc(s.pushed, Queued(c, r.payload), d);
    }
    assert Synced(valid, s', c, buf[r.frameSize..]);
    ScanChanges(valid, s, w);
    assert Handles(s'.workers[w], c);
    StreamFrame(valid, s, s', w, c);
  }

  lemma ResumeAccepted(valid: Verifier, done: seq<Bytes>, buf: Bytes)
    requires Scan(valid, buf).Accepted?
    ensures var r := Scan(valid, buf);
            Resume(done, Deframe(valid, buf)) == Resume(done + [r.payload], Deframe(valid, buf[r.frameSize..]))
  {
    var r := Scan(valid, buf);
    PrependPrepend(done, [r.payload], Deframe(valid, buf[r.frameSize..]));
  }

  lemma ResumeStopped(valid: Verifier, done: seq<Bytes>, buf: Bytes)
    requires !Scan(valid, buf).Accepted?
    ensures var r, f := Scan(valid, buf), Resume(done, Deframe(valid, buf));
      && f.pushed == done && !f.life.Overflowed?
      && (f.life.Live? <==> r.NeedMore?)
      && f.buffer == if r.Rejected? then buf[r.frameSize..] else buf
  {
    assert done + [] == done;
  }

  lemma StopScanStreams(valid: Verifier, s: State, w: WorkerId)
    requires WorkersInv(s) && StreamInv(valid, s) && Enabled(s, ScanBuffer(w))
    requires !Scan(valid, s.conns[s.workers[w].client].buffer).Accepted?
    ensures StreamInv(valid, DoScan(valid, s, w))
  {
    var s' := DoScan(valid, s, w);
    var c := s.workers[w].client;
    var done := PayloadsOf(s.pushed, c);
    assert WorkerStreamInv(valid, s, w);
    ResumeStopped(valid, done, s.conns[c].buffer);
    ScanChanges(valid, s, w);
    StreamFrame(valid, s, s', w, c);
  }

  lemma ScanChanges(valid: Verifier, s: State, w: WorkerId)
    requires Enabled(s, ScanBuffer(w))
    ensures var s', c := DoScan(valid, s, w), s.workers[w].client;
            && w in s'.workers && c in s'.conns
            && s'.workers == s.workers[w := s'.workers[w]] && s'.conns == s.conns[c := s'.conns[c]]
  {
  }

  lemma ReportStreams(valid: Verifier, s: State, w: WorkerId)
    requires WorkersInv(s) && StreamInv(valid, s) && Enabled(s, ReportPush(w))
    ensures StreamInv(valid, DoReportPush(s, w))
  {
    var s' := DoReportPush(s, w);
    var c := s.workers[w].client;
    assert WorkerStreamInv(valid, s, w);
    assert s'.workers == s.workers[w := s'.workers[w]] && s'.conns == s.conns[c := s'.conns[c]];
    assert Handles(s'.workers[w], c);
    StreamFrame(valid, s, s', w, c);
  }

  lemma AcceptStreams(valid: Verifier, s: State, w: WorkerId, c: ClientId)
    requires StreamInv(valid, s) && Enabled(s, Accept(w, c))
    ensures StreamInv(valid, Next(valid, s, Accept(w, c)))
  {
    var s' := Next(valid, s, Accept(w, c));
    PayloadsOfNone(s.pushed, c);
    forall v <- s'.workers ensures WorkerStreamInv(valid, s', v) {
      assert WorkerStreamInv(valid, s, v);
      WorkerFrame(valid, s, s', v);
    }
    forall d <- s'.conns ensures ConnStreamInv(valid, s', d) {
      if d != c {
        assert ConnStreamInv(valid, s, d);
        ConnFrame(valid, s, s', d);
      }
    }
  }

  lemma DisconnectStreams(valid: Verifier, s: State, w: WorkerId, c: ClientId)
    requires WorkersInv(s) && StreamInv(valid, s) && Enabled(s, Disconnect(w, c))
    ensures StreamInv(valid, Next(valid, s, Disconnect(w, c)))
  {
    var s' := Next(valid, s, Disconnect(w, c));
    assert ConnStreamInv(valid, s, c);
    assert s'.workers == s.workers[w := Waiting] && s'.conns == s.conns[c := s'.conns[c]];
    StreamFrame(valid, s, s', w, c);
  }

  lemma ExitStreams(valid: Verifier, s: State, w: WorkerId)
    requires StreamInv(valid, s) && Enabled(s, ExitWorker(w))
    ensures StreamInv(valid, Next(valid, s, ExitWorker(w)))
  {
    var s' := Next(valid, s, ExitWorker(w));
    forall v <- s'.workers ensures WorkerStreamInv(valid, s', v) {
      assert WorkerStreamInv(valid, s, v);
      if v != w { WorkerFrame(valid, s, s', v); }
    }
    forall d <- s'.conns ensures ConnStreamInv(valid, s', d) {
      assert s'.workers == s.workers[w := Exited];
      IdleElsewhere(s, s', w, d);
      assert ConnStreamInv(valid, s, d);
      ConnFrame(valid, s, s', d);
    }
  }

  /** Steps of the logic thread and of the shutdown protocol touch no stream. */
  lemma OtherStreams(valid: Verifier, s: State, s': State)
    requires StreamInv(valid, s)
    requires s'.conns == s.conns && s'.workers == s.workers && s'.pushed == s.pushed
    ensures StreamInv(valid, s')
  {
    forall v <- s'.workers ensures WorkerStreamInv(valid, s', v) {
      assert WorkerStreamInv(valid, s, v);
      WorkerFrame(valid, s, s', v);
    }
    forall d <- s'.conns ensures ConnStreamInv(valid, s', d) {
      assert ConnStreamInv(valid, s, d);
      ConnFrame(valid, s, s', d);
    }
  }

  lemma NextStreams(valid: Verifier, s: State, step: Step)
    requires WorkersInv(s) && StreamInv(valid, s) && Enabled(s, step)
    ensures StreamInv(valid, Next(valid, s, step))
  {
    match step
    case Accept(w, c) => AcceptStreams(valid, s, w, c);
    case Deliver(w, c, chunk) => DeliverStreams(valid, s, w, c, chunk);
    case Disconnect(w, c) => DisconnectStreams(valid, s, w, c);
    case ScanBuffer(w) =>
      if Scan(valid, s.conns[s.workers[w].client].buffer).Accepted? {
        PushStreams(valid, s, w);
      } else {
        StopScanStreams(valid, s, w);
      }
    case ReportPush(w) => ReportStreams(valid, s, w);
    case ExitWorker(w) => ExitStreams(valid, s, w);
    case _ => OtherStreams(valid, s, Next(valid, s, step));
  }

  lemma InitInv(valid: Verifier, s: State)
    requires Init(s)
    ensures Inv(valid, s)
  {
    assert ReportingSet(s) == {};
  }

  lemma NextInv(valid: Verifier, s: State, step: Step)
    requires Inv(valid, s) && Enabled(s, step)
    ensures Inv(valid, Next(valid, s, step))
  {
    NextOrder(valid, s, step);
    NextLogic(valid, s, step);
    NextWorkers(valid, s, step);
    NextGauge(valid, s, step);
    NextStreams(valid, s, step);
  }

  /** Every state of every run satisfies the invariant. */
  lemma {:induction false} RunInv(valid: Verifier, trace: seq<State>, steps: seq<Step>, i: nat)
    requires Run(valid, trace, steps) && i < |trace|
    ensures Inv(valid, trace[i])
  {
    if i == 0 {
      InitInv(valid, trace[0]);
    } else {
      RunInv(valid, trace, steps, i - 1);
      assert trace[i - 1 + 1] == Next(valid, trace[i - 1], steps[i - 1]);
      NextInv(valid, trace[i - 1], steps[i - 1]);
    }
  }

  // ---------------------------------------------------------------- what every run guarantees

  /** The chunks delivered to a client, and whether it was disconnected, read off the steps. */
  function ChunksOf(steps: seq<Step>, c: ClientId): seq<Bytes>
  {
    if steps == [] then []
    else
      var last := steps[|steps| - 1];
      ChunksOf(steps[..|steps| - 1], c) + if last.Deliver? && last.c == c then [last.chunk] else []
  }

  function HasLeft(steps: seq<Step>, c: ClientId): bool
  {
    exists k | 0 <= k < |steps| :: steps[k].Disconnect? && steps[k].c == c
  }

  function StreamOf(steps: seq<Step>, c: ClientId): Bytes
  {
    Flatten(ChunksOf(steps, c))
  }

  lemma HistoryStep(steps: seq<Step>, i: nat, c: ClientId)
    requires i < |steps|
    ensures ChunksOf(steps[..i + 1], c)
         == ChunksOf(steps[..i], c) + if steps[i].Deliver? && steps[i].c == c then [steps[i].chunk] else []
    ensures HasLeft(steps[..i + 1], c) <==> HasLeft(steps[..i], c) || (steps[i].Disconnect? && steps[i].c == c)
  {
    assert steps[..i + 1][..i] == steps[..i];
    if HasLeft(steps[..i], c) {
      var k :| 0 <= k < i && steps[..i][k].Disconnect? && steps[..i][k].c == c;
      assert steps[..i + 1][k] == steps[..i][k];
    }
    if steps[i].Disconnect? && steps[i].c == c {
      assert steps[..i + 1][i] == steps[i];
    }
    if HasLeft(steps[..i + 1], c) {
      var k :| 0 <= k <= i && steps[..i + 1][k].Disconnect? && steps[..i + 1][k].c == c;
      assert k < i ==> steps[..i][k] == steps[..i + 1][k];
    }
  }

  /** What one step adds to the history of a client that is there. */
  lemma HistoryKept(valid: Verifier, s: State, step: Step, c: ClientId)
    requires Enabled(s, step) && c in s.conns
    ensures var s' := Next(valid, s, step);
      && c in s'.conns
      && s'.conns[c].chunks == s.conns[c].chunks + (if step.Deliver? && step.c == c then [step.chunk] else [])
      && (s'.conns[c].left <==> s.conns[c].left || (step.Disconnect? && step.c == c))
  {
    match step
    case Deliver(w, d, chunk) => DeliverHistory(s, w, d, chunk, c);
    case ScanBuffer(w) => ScanHistory(valid, s, w, c);
    case _ =>
  }

  lemma DeliverHistory(s: State, w: WorkerId, d: ClientId, chunk: Bytes, c: ClientId)
    requires Enabled(s, Deliver(w, d, chunk)) && c in s.conns
    ensures var s' := DoDeliver(s, w, d, chunk);
      && c in s'.conns && s'.conns[c].left == s.conns[c].left
      && s'.conns[c].chunks == s.conns[c].chunks + (if d == c then [chunk] else [])
  {
  }

  lemma ScanHistory(valid: Verifier, s: State, w: WorkerId, c: ClientId)
    requires Enabled(s, ScanBuffer(w)) && c in s.conns
    ensures var s' := DoScan(valid, s, w);
      c in s'.conns && s'.conns[c].left == s.conns[c].left && s'.conns[c].chunks == s.conns[c].chunks
  {
  }

  /** Nothing happens to a client before it is accepted, and then it starts fresh. */
  lemma NotThereYet(valid: Verifier, s: State, step: Step, c: ClientId)
    requires Enabled(s, step) && c !in s.conns
    ensures !(step.Deliver? && step.c == c) && !(step.Disconnect? && step.c == c)
    ensures var s' := Next(valid, s, step);
            c in s'.conns ==> s'.conns[c] == Peer([], false, [], false, false)
  {
  }

  lemma StepOf(valid: Verifier, trace: seq<State>, steps: seq<Step>, i: nat)
    requires Run(valid, trace, steps) && i < |steps|
    ensures Enabled(trace[i], steps[i]) && trace[i + 1] == Next(valid, trace[i], steps[i])
  {
  }

  lemma {:induction false} NotThereBefore(valid: Verifier, trace: seq<State>, steps: seq<Step>,
                                          k: nat, i: nat, c: ClientId)
    requires Run(valid, trace, steps) && k <= i < |trace| && c !in trace[i].conns
    ensures c !in trace[k].conns
    decreases i - k
  {
    if k < i {
      StepOf(valid, trace, steps, i - 1);
      if c in trace[i - 1].conns {
        HistoryKept(valid, trace[i - 1], steps[i - 1], c);
      }
      NotThereBefore(valid, trace, steps, k, i - 1, c);
    }
  }

  /** The history a state keeps of a client is the one read off the steps; a client that has
      not been accepted has none. */
  ghost predicate TrueHistory(s: State, past: seq<Step>, c: ClientId)
  {
    if c in s.conns then s.conns[c].chunks == ChunksOf(past, c) && (s.conns[c].left <==> HasLeft(past, c))
    else ChunksOf(past, c) == [] && !HasLeft(past, c)
  }

  lemma HistoryByStep(valid: Verifier, s: State, step: Step, steps: seq<Step>, i: nat, c: ClientId)
    requires i < |steps| && step == steps[i] && Enabled(s, step) && TrueHistory(s, steps[..i], c)
    ensures TrueHistory(Next(valid, s, step), steps[..i + 1], c)
  {
    HistoryStep(steps, i, c);
    if c in s.conns {
      HistoryKept(valid, s, step, c);
    } else {
      NotThereYet(valid, s, step, c);
    }
  }

  lemma {:induction false} HistoryHolds(valid: Verifier, trace: seq<State>, steps: seq<Step>, i: nat, c: ClientId)
    requires Run(valid, trace, steps) && i < |trace|
    ensures TrueHistory(trace[i], steps[..i], c)
  {
    if i > 0 {
      HistoryHolds(valid, trace, steps, i - 1, c);
      StepOf(valid, trace, steps, i - 1);
      HistoryByStep(valid, trace[i - 1], steps[i - 1], steps, i - 1, c);
    }
  }

  lemma HistoryIsTrue(valid: Verifier, trace: seq<State>, steps: seq<Step>, i: nat, c: ClientId)
    requires Run(valid, trace, steps) && i < |trace| && c in trace[i].conns
    ensures trace[i].conns[c].chunks == ChunksOf(steps[..i], c)
    ensures trace[i].conns[c].left <==> HasLeft(steps[..i], c)
  {
    HistoryHolds(valid, trace, steps, i, c);
  }

  /** In every interleaving, a connection no worker is handling is exactly what feeding it the
      chunks its deliveries carried makes of it: its buffer, what it has pushed, and whether
      it is open, overflowed or closed. */
  lemma RunFollowsFeed(valid: Verifier, trace: seq<State>, steps: seq<Step>, i: nat, c: ClientId)
    requires Run(valid, trace, steps) && i < |trace| && c in trace[i].conns && Idle(trace[i], c)
    ensures FollowsFeed(valid, trace[i], c, ChunksOf(steps[..i], c), HasLeft(steps[..i], c))
  {
    RunInv(valid, trace, steps, i);
    HistoryIsTrue(valid, trace, steps, i, c);
    assert ConnStreamInv(valid, trace[i], c);
  }

  /** A connection is marked overflowed if and only if some delivery met a buffer with less
      than the chunk's room left of the 65536 bytes. */
  ghost predicate MetFullBuffer(trace: seq<State>, steps: seq<Step>, i: nat, c: ClientId)
    requires |trace| == |steps| + 1 && i <= |steps|
  {
    exists k | 0 <= k < i :: DidNotFit(trace[k], steps[k], c)
  }

  predicate DidNotFit(s: State, step: Step, c: ClientId)
  {
    step.Deliver? && step.c == c && c in s.conns && |s.conns[c].buffer| + |step.chunk| > 65536
  }

  lemma DeliverOverflows(s: State, w: WorkerId, c: ClientId, chunk: Bytes)
    requires WorkersInv(s) && Enabled(s, Deliver(w, c, chunk))
    ensures DoDeliver(s, w, c, chunk).conns[c].overflowed <==>
              s.conns[c].overflowed || |s.conns[c].buffer| + |chunk| > 65536
  {
  }

  lemma OverflowStep(valid: Verifier, s: State, step: Step, c: ClientId)
    requires WorkersInv(s) && Enabled(s, step) && c in s.conns
    ensures c in Next(valid, s, step).conns
    ensures Next(valid, s, step).conns[c].overflowed <==> s.conns[c].overflowed || DidNotFit(s, step, c)
  {
    if step.Deliver? {
      DeliverChanges(s, step.w, step.c, step.chunk);
      DeliverOverflows(s, step.w, step.c, step.chunk);
    }
  }

  lemma {:induction false} OverflowExactly(valid: Verifier, trace: seq<State>, steps: seq<Step>, i: nat, c: ClientId)
    requires Run(valid, trace, steps) && i < |trace| && c in trace[i].conns
    ensures trace[i].conns[c].overflowed <==> MetFullBuffer(trace, steps, i, c)
  {
    if i > 0 {
      StepOf(valid, trace, steps, i - 1);
      if c in trace[i - 1].conns {
        OverflowExactly(valid, trace, steps, i - 1, c);
        RunInv(valid, trace, steps, i - 1);
        OverflowStep(valid, trace[i - 1], steps[i - 1], c);
        MetStep(trace, steps, i - 1, c);
      } else {
        NotThereYet(valid, trace[i - 1], steps[i - 1], c);
        NothingMet(valid, trace, steps, i, c);
      }
    }
  }

  lemma MetStep(trace: seq<State>, steps: seq<Step>, i: nat, c: ClientId)
    requires |trace| == |steps| + 1 && i < |steps|
    ensures MetFullBuffer(trace, steps, i + 1, c) <==>
              MetFullBuffer(trace, steps, i, c) || DidNotFit(trace[i], steps[i], c)
  {
  }

  lemma NothingMet(valid: Verifier, trace: seq<State>, steps: seq<Step>, i: nat, c: ClientId)
    requires Run(valid, trace, steps) && 0 < i < |trace| && c !in trace[i - 1].conns
    ensures !MetFullBuffer(trace, steps, i, c)
  {
    forall k | 0 <= k < i
      ensures !DidNotFit(trace[k], steps[k], c)
    {
      NotThereBefore(valid, trace, steps, k, i - 1, c);
    }
  }

  /** In every interleaving, what the logic thread has taken for a client is, in order, a
      prefix of what that client's byte stream means: nothing invented, repeated, reordered. */
  lemma TakenIsPrefix(valid: Verifier, trace: seq<State>, steps: seq<Step>, i: nat, c: ClientId)
    requires Run(valid, trace, steps) && i < |trace| && c in trace[i].conns
    ensures PayloadsOf(trace[i].taken, c) <= Deframe(valid, StreamOf(steps[..i], c)).payloads
  {
    RunInv(valid, trace, steps, i);
    HistoryIsTrue(valid, trace, steps, i, c);
    TakenBeforePushed(trace[i], c);
    PushedIsPrefix(valid, trace[i], c);
  }

  lemma TakenBeforePushed(s: State, c: ClientId)
    requires OrderInv(s)
    ensures PayloadsOf(s.taken, c) <= PayloadsOf(s.pushed, c)
  {
    assert s.pushed == s.taken + (s.batch + s.queue);
    PayloadsOfAppend(s.taken, s.batch + s.queue, c);
  }

  lemma PushedIsPrefix(valid: Verifier, s: State, c: ClientId)
    requires Inv(valid, s) && c in s.conns
    ensures PayloadsOf(s.pushed, c) <= Deframe(valid, Flatten(s.conns[c].chunks)).payloads
  {
    ChunkingIndependence(valid, s.conns[c].chunks);
    assert ConnStreamInv(valid, s, c);
    if !Idle(s, c) {
      var w :| w in s.workers && Handles(s.workers[w], c);
      assert WorkerStreamInv(valid, s, w);
    }
  }

  /** When the server has stopped, every command ever pushed has been taken exactly once and
      in push order, the gauge reads zero, and every connection, open or closed for whatever
      reason, has had everything handled that its stream means; only a connection that was
      delivered a chunk its buffer had no room for may have lost some. */
  lemma StopLosesNothing(valid: Verifier, trace: seq<State>, steps: seq<Step>, i: nat)
    requires Run(valid, trace, steps) && i < |trace| && trace[i].server.Stopped?
    ensures var s := trace[i];
            && s.taken == s.pushed
            && s.gauge == 0
            && forall c <- s.conns :: !MetFullBuffer(trace, steps, i, c) ==>
                 PayloadsOf(s.taken, c) == Deframe(valid, StreamOf(steps[..i], c)).payloads
  {
    RunInv(valid, trace, steps, i);
    var s := trace[i];
    assert s.taken + [] + [] == s.taken;
    assert ReportingSet(s) == {};
    forall c <- s.conns | !MetFullBuffer(trace, steps, i, c)
      ensures PayloadsOf(s.taken, c) == Deframe(valid, StreamOf(steps[..i], c)).payloads
    {
      OverflowExactly(valid, trace, steps, i, c);
      assert Idle(s, c);
      RunFollowsFeed(valid, trace, steps, i, c);
      ChunkingIndependence(valid, ChunksOf(steps[..i], c));
    }
  }

  /** A client that sends frames of payloads of at most 61437 bytes never overflows, whatever
      the chunks of at most 4096 bytes, and when the server has stopped, every payload of a
      client whose valid frames all arrived has been taken. */
  lemma FramesAreTaken(valid: Verifier, trace: seq<State>, steps: seq<Step>, i: nat, c: ClientId, ps: seq<Bytes>)
    requires Run(valid, trace, steps) && i < |trace| && c in trace[i].conns
    requires ChunksWithin(ChunksOf(steps[..i], c), 4096) && PayloadsWithin(ps, 61437)
    requires StreamOf(steps[..i], c) <= FrameAll(ps)
    ensures !trace[i].conns[c].overflowed
    ensures trace[i].server.Stopped? && Acceptable(valid, ps) && StreamOf(steps[..i], c) == FrameAll(ps) ==>
      PayloadsOf(trace[i].taken, c) == ps
  {
    RunInv(valid, trace, steps, i);
    var chunks := ChunksOf(steps[..i], c);
    NeverOverflows(valid, ps, chunks);
    if Idle(trace[i], c) {
      RunFollowsFeed(valid, trace, steps, i, c);
    } else {
      var w :| w in trace[i].workers && Handles(trace[i].workers[w], c);
      assert WorkerStreamInv(valid, trace[i], w);
    }
    if trace[i].server.Stopped? && Acceptable(valid, ps) && Flatten(chunks) == FrameAll(ps) {
      PushRoundTrip(valid, ps, chunks);
      OverflowExactly(valid, trace, steps, i, c);
      StopLosesNothing(valid, trace, steps, i);
      ChunkingIndependence(valid, chunks);
    }
  }

  /** The gauge is the queue length, less the pushes not yet reported, plus the drained
      commands not yet reported; at a quiescent point it is the queue length. */
  lemma GaugeIsExact(valid: Verifier, trace: seq<State>, steps: seq<Step>, i: nat)
    requires Run(valid, trace, steps) && i < |trace|
    ensures var s := trace[i];
            && s.gauge == |s.queue| - |ReportingSet(s)| + UnreportedDrain(s)
            && ((forall w <- s.workers :: !s.workers[w].Reporting?) && !s.logic.ReportingDrain? ==>
                  s.gauge == |s.queue|)
  {
    RunInv(valid, trace, steps, i);
    var s := trace[i];
    if forall w <- s.workers :: !s.workers[w].Reporting? {
      assert ReportingSet(s) == {};
    }
  }

  /** A worker inside the frame loop is never stuck, whatever the other threads do. */
  lemma WorkerProgress(valid: Verifier, trace: seq<State>, steps: seq<Step>, i: nat, w: WorkerId)
    requires Run(valid, trace, steps) && i < |trace| && w in trace[i].workers
    ensures trace[i].workers[w].Scanning? ==> Enabled(trace[i], ScanBuffer(w))
    ensures trace[i].workers[w].Reporting? ==> Enabled(trace[i], ReportPush(w))
  {
    RunInv(valid, trace, steps, i);
    assert WorkerStreamInv(valid, trace[i], w);
  }
}
