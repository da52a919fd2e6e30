/**
  Shutdown can always be completed: from every state a run reaches with the logic thread
  running, some further steps lead to the stopped server.
 */
module PipelineStops {
  import opened Basics
  import opened Framing
  import opened Connection
  import opened Pipeline

  ghost predicate Path(valid: Verifier, s: State, steps: seq<Step>, t: State)
    decreases |steps|
  {
    if steps == [] then s == t
    else Enabled(s, steps[0]) && Path(valid, Next(valid, s, steps[0]), steps[1..], t)
  }

  ghost predicate Leads(valid: Verifier, s: State, t: State)
  {
    exists steps :: Path(valid, s, steps, t)
  }

  lemma Here(valid: Verifier, s: State)
    ensures Leads(valid, s, s)
  {
    assert Path(valid, s, [], s);
  }

  lemma {:induction false} PathInv(valid: Verifier, s: State, steps: seq<Step>, t: State)
    requires Inv(valid, s) && Path(valid, s, steps, t)
    ensures Inv(valid, t)
    decreases |steps|
  {
    if steps != [] {
      NextInv(valid, s, steps[0]);
      PathInv(valid, Next(valid, s, steps[0]), steps[1..], t);
    }
  }

  lemma LeadsInv(valid: Verifier, s: State, t: State)
    requires Inv(valid, s) && Leads(valid, s, t)
    ensures Inv(valid, t)
  {
    var steps :| Path(valid, s, steps, t);
    PathInv(valid, s, steps, t);
  }

  lemma {:induction false} PathSnoc(valid: Verifier, s: State, steps: seq<Step>, t: State, step: Step)
    requires Path(valid, s, steps, t) && Enabled(t, step)
    ensures Path(valid, s, steps + [step], Next(valid, t, step))
    decreases |steps|
  {
    if steps == [] {
      assert ([step])[1..] == [] && steps + [step] == [step];
      assert Path(valid, Next(valid, t, step), [], Next(valid, t, step));
    } else {
      PathSnoc(valid, Next(valid, s, steps[0]), steps[1..], t, step);
      assert (steps + [step])[1..] == steps[1..] + [step];
    }
  }

  lemma Then(valid: Verifier, s: State, t: State, step: Step) returns (u: State)
    requires Leads(valid, s, t) && Enabled(t, step)
    ensures u == Next(valid, t, step) && Leads(valid, s, u)
  {
    var steps :| Path(valid, s, steps, t);
    PathSnoc(valid, s, steps, t, step);
    u := Next(valid, t, step);
  }

  // ---------------------------------------------------------------- the workers

  /** No connection came, went or was delivered anything. */
  predicate SameHistory(s: State, t: State)
  {
    && t.conns.Keys == s.conns.Keys
    && forall c <- s.conns :: t.conns[c].chunks == s.conns[c].chunks && t.conns[c].left == s.conns[c].left
  }

  /** Nothing but buffers, queue and one worker changed. */
  predicate OnlyWorker(s: State, t: State, w: WorkerId, phase: Worker)
  {
    && t.workers == s.workers[w := phase] && t.logic == s.logic && t.server == s.server
    && SameHistory(s, t)
  }

  lemma ScanEffect(valid: Verifier, s: State, w: WorkerId)
    requires Enabled(s, ScanBuffer(w))
    ensures var t, c := Next(valid, s, ScanBuffer(w)), s.workers[w].client;
      var r := Scan(valid, s.conns[c].buffer);
      && (r.Accepted? ==> OnlyWorker(s, t, w, Reporting(c, r.frameSize)) && t.conns == s.conns)
      && (!r.Accepted? ==> OnlyWorker(s, t, w, Waiting))
  {
  }

  lemma ReportEffect(valid: Verifier, s: State, w: WorkerId)
    requires Enabled(s, ReportPush(w))
    ensures var t, c, k := Next(valid, s, ReportPush(w)), s.workers[w].client, s.workers[w].frameSize;
      && OnlyWorker(s, t, w, Scanning(c)) && c in t.conns && t.conns[c].buffer == s.conns[c].buffer[k..]
  {
  }

  /** A worker in the frame loop can take its step. */
  lemma Ready(valid: Verifier, s0: State, s: State, w: WorkerId)
    requires Inv(valid, s0) && Leads(valid, s0, s) && w in s.workers
    ensures s.workers[w].Scanning? ==> Enabled(s, ScanBuffer(w))
    ensures s.workers[w].Reporting? ==> Enabled(s, ReportPush(w))
  {
    LeadsInv(valid, s0, s);
    assert WorkerStreamInv(valid, s, w);
  }

  lemma SetTwice(m: map<WorkerId, Worker>, w: WorkerId, a: Worker, b: Worker)
    ensures m[w := a][w := b] == m[w := b]
  {
  }

  lemma Report(valid: Verifier, s0: State, s: State, w: WorkerId) returns (t: State)
    requires Inv(valid, s0) && Leads(valid, s0, s) && w in s.workers && s.workers[w].Reporting?
    ensures Leads(valid, s0, t) && s.workers[w].client in s.conns
    ensures OnlyWorker(s, t, w, Scanning(s.workers[w].client)) && s.workers[w].client in t.conns
    ensures s.workers[w].frameSize <= |s.conns[s.workers[w].client].buffer|
    ensures t.conns[s.workers[w].client].buffer == s.conns[s.workers[w].client].buffer[s.workers[w].frameSize..]
  {
    Ready(valid, s0, s, w);
    ReportEffect(valid, s, w);
    t := Then(valid, s0, s, ReportPush(w));
  }

  /** A worker in the frame loop gets to its end: every pass consumes at least a header. */
  lemma {:induction false} FinishLoop(valid: Verifier, s0: State, s: State, w: WorkerId) returns (t: State)
    requires Inv(valid, s0) && Leads(valid, s0, s)
    requires w in s.workers && s.workers[w].Scanning? && s.workers[w].client in s.conns
    ensures Leads(valid, s0, t) && OnlyWorker(s, t, w, Waiting)
    decreases |s.conns[s.workers[w].client].buffer|
  {
    Ready(valid, s0, s, w);
    ScanEffect(valid, s, w);
    var r := Scan(valid, s.conns[s.workers[w].client].buffer);
    t := Then(valid, s0, s, ScanBuffer(w));
    if r.Accepted? {
      var u := Report(valid, s0, t, w);
      SetTwice(s.workers, w, t.workers[w], u.workers[w]);
      t := FinishLoop(valid, s0, u, w);
      SetTwice(s.workers, w, u.workers[w], Waiting);
    }
  }

  lemma WaitAgain(valid: Verifier, s0: State, s: State, w: WorkerId) returns (t: State)
    requires Inv(valid, s0) && Leads(valid, s0, s) && w in s.workers && !s.workers[w].Exited?
    ensures Leads(valid, s0, t) && OnlyWorker(s, t, w, Waiting)
  {
    if s.workers[w].Waiting? {
      t := s;
      assert s.workers[w := Waiting] == s.workers;
    } else if s.workers[w].Scanning? {
      Ready(valid, s0, s, w);
      t := FinishLoop(valid, s0, s, w);
    } else {
      var u := Report(valid, s0, s, w);
      t := FinishLoop(valid, s0, u, w);
      SetTwice(s.workers, w, u.workers[w], Waiting);
    }
  }

  function Working(s: State): set<WorkerId>
  {
    set w | w in s.workers && !s.workers[w].Exited?
  }

  lemma OneExits(valid: Verifier, s0: State, s: State, w: WorkerId) returns (t: State)
    requires Inv(valid, s0) && Leads(valid, s0, s) && w in Working(s)
    ensures Leads(valid, s0, t) && OnlyWorker(s, t, w, Exited)
  {
    var u := WaitAgain(valid, s0, s, w);
    t := Then(valid, s0, u, ExitWorker(w));
    SetTwice(s.workers, w, Waiting, Exited);
  }

  lemma WorkingLess(s: State, t: State, w: WorkerId)
    requires w in Working(s) && t.workers == s.workers[w := Exited]
    ensures Working(t) == Working(s) - {w}
  {
  }

  lemma {:induction false} AllExit(valid: Verifier, s0: State, s: State) returns (t: State)
    requires Inv(valid, s0) && Leads(valid, s0, s)
    ensures Leads(valid, s0, t) && t.logic == s.logic && t.server == s.server && SameHistory(s, t)
    ensures forall w <- t.workers :: t.workers[w].Exited?
    decreases |Working(s)|
  {
    if Working(s) == {} {
      t := s;
      forall w <- t.workers
        ensures t.workers[w].Exited?
      {
        assert w !in Working(s);
      }
    } else {
      var w :| w in Working(s);
      var u := OneExits(valid, s0, s, w);
      WorkingLess(s, u, w);
      t := AllExit(valid, s0, u);
    }
  }

  // ---------------------------------------------------------------- the logic thread

  lemma {:induction false} TakeAll(valid: Verifier, s0: State, s: State) returns (t: State)
    requires Leads(valid, s0, s) && s.logic.Processing?
    ensures Leads(valid, s0, t) && t.server == s.server && t.conns == s.conns
    ensures t.logic == if s.logic.last then Finished else Testing
    decreases |s.batch|
  {
    if s.batch == [] {
      t := Then(valid, s0, s, EndTick);
    } else {
      t := Then(valid, s0, s, Take);
      t := TakeAll(valid, s0, t);
    }
  }

  lemma FinishTick(valid: Verifier, s0: State, s: State) returns (t: State)
    requires Leads(valid, s0, s) && (s.logic.Draining? || s.logic.ReportingDrain? || s.logic.Processing?)
    ensures Leads(valid, s0, t) && t.server == s.server && t.conns == s.conns
    ensures t.logic == if s.logic.last then Finished else Testing
  {
    t := s;
    if t.logic.Draining? {
      t := Then(valid, s0, t, Drain);
    }
    if t.logic.ReportingDrain? {
      t := Then(valid, s0, t, ReportDrain);
    }
    t := TakeAll(valid, s0, t);
  }

  lemma FinishLogic(valid: Verifier, s0: State, s: State) returns (t: State)
    requires Leads(valid, s0, s) && s.server.JoiningLogic? && !s.logic.NotStarted?
    ensures Leads(valid, s0, t) && t.server == s.server && t.logic.Finished? && t.conns == s.conns
  {
    t := s;
    if !t.logic.Finished? && !t.logic.Testing? {
      t := FinishTick(valid, s0, t);
    }
    if t.logic.Testing? {
      t := Then(valid, s0, t, TestStop);
      t := FinishTick(valid, s0, t);
    }
  }

  // ---------------------------------------------------------------- the server

  lemma StopAndJoin(valid: Verifier, s: State) returns (t: State)
    requires Inv(valid, s) && !s.logic.NotStarted?
    ensures Leads(valid, s, t) && !t.logic.NotStarted? && (t.server.JoiningLogic? || t.server.Stopped?)
    ensures SameHistory(s, t)
  {
    Here(valid, s);
    t := s;
    if t.server.Running? {
      t := Then(valid, s, t, StopServer);
    }
    if t.server.JoiningWorkers? {
      t := AllExit(valid, s, t);
      t := Then(valid, s, t, JoinWorkers);
    }
    if t.server.WorkersJoined? {
      t := Then(valid, s, t, StopLogic);
    }
  }

  lemma CanStop(valid: Verifier, s: State) returns (t: State)
    requires Inv(valid, s) && !s.logic.NotStarted?
    ensures Leads(valid, s, t) && t.server.Stopped? && SameHistory(s, t)
  {
    t := StopAndJoin(valid, s);
    if !t.server.Stopped? {
      t := FinishLogic(valid, s, t);
      t := Then(valid, s, t, JoinLogic);
    }
  }

  lemma {:induction false} PathExtends(valid: Verifier, trace: seq<State>, steps: seq<Step>, more: seq<Step>, t: State)
    returns (longer: seq<State>)
    requires Run(valid, trace, steps) && Path(valid, trace[|trace| - 1], more, t)
    ensures Run(valid, longer, steps + more) && trace <= longer && longer[|longer| - 1] == t
    decreases |more|
  {
    if more == [] {
      longer := trace;
      assert steps + more == steps;
    } else {
      var next := RunExtends(valid, trace, steps, more[0]);
      longer := PathExtends(valid, trace + [next], steps + [more[0]], more[1..], t);
      assert steps + [more[0]] + more[1..] == steps + more;
    }
  }

  lemma RunExtends(valid: Verifier, trace: seq<State>, steps: seq<Step>, step: Step) returns (next: State)
    requires Run(valid, trace, steps) && Enabled(trace[|trace| - 1], step)
    ensures next == Next(valid, trace[|trace| - 1], step) && Run(valid, trace + [next], steps + [step])
  {
    next := Next(valid, trace[|trace| - 1], step);
    var longer, taken := trace + [next], steps + [step];
    forall i | 0 <= i < |taken|
      ensures Enabled(longer[i], taken[i]) && longer[i + 1] == Next(valid, longer[i], taken[i])
    {
      if i < |steps| {
        assert longer[i] == trace[i] && longer[i + 1] == trace[i + 1];
      }
    }
  }

  /** Every run whose logic thread has started can be continued to a stopped server. */
  lemma StopIsReachable(valid: Verifier, trace: seq<State>, steps: seq<Step>)
    returns (longer: seq<State>, more: seq<Step>)
    requires Run(valid, trace, steps) && !trace[|trace| - 1].logic.NotStarted?
    ensures Run(valid, longer, steps + more) && trace <= longer && longer[|longer| - 1].server.Stopped?
  {
    RunInv(valid, trace, steps, |trace| - 1);
    var s := trace[|trace| - 1];
    var t := CanStop(valid, s);
    more :| Path(valid, s, more, t);
    longer := PathExtends(valid, trace, steps, more, t);
  }

  // ---------------------------------------------------------------- every stream can be handled

  /** The only worker waits, the logic thread runs and client 0 has been delivered `chunks`. */
  ghost predicate Delivered(s: State, chunks: seq<Bytes>)
  {
    && s.workers == map[0 := Waiting] && s.logic.Testing? && s.server.Running?
    && 0 in s.conns && s.conns[0].chunks == chunks && !s.conns[0].left
  }

  lemma BeginServer(valid: Verifier) returns (s0: State, t: State)
    ensures Init(s0) && Inv(valid, s0) && Leads(valid, s0, t) && Delivered(t, [])
  {
    s0 := State(map[], map[0 := Waiting], NotStarted, Running, [], [], 0, [], []);
    InitInv(valid, s0);
    Here(valid, s0);
    t := Then(valid, s0, s0, StartLogic);
    t := Then(valid, s0, t, Accept(0, 0));
  }

  lemma CanDeliver(valid: Verifier, s0: State, s: State, chunks: seq<Bytes>, chunk: Bytes)
    requires Inv(valid, s0) && Leads(valid, s0, s) && Delivered(s, chunks) && Feed(valid, chunks).life.Live?
    ensures Enabled(s, Deliver(0, 0, chunk))
  {
    LeadsInv(valid, s0, s);
    assert ConnStreamInv(valid, s, 0) && Idle(s, 0);
  }

  lemma DeliverEffect(valid: Verifier, s: State, chunks: seq<Bytes>, chunk: Bytes)
    requires Delivered(s, chunks) && Enabled(s, Deliver(0, 0, chunk))
    ensures var t := Next(valid, s, Deliver(0, 0, chunk));
      && t.workers.Keys == {0} && !t.workers[0].Exited? && t.logic == s.logic && t.server == s.server
      && 0 in t.conns && t.conns[0].chunks == chunks + [chunk] && !t.conns[0].left
  {
  }

  lemma OnlyOneWorker(m: map<WorkerId, Worker>)
    requires m.Keys == {0}
    ensures m[0 := Waiting] == map[0 := Waiting]
  {
  }

  /** An open connection can be delivered any chunk, and the worker gets through with it. */
  lemma DeliverOne(valid: Verifier, s0: State, s: State, chunks: seq<Bytes>, chunk: Bytes) returns (t: State)
    requires Inv(valid, s0) && Leads(valid, s0, s) && Delivered(s, chunks) && Feed(valid, chunks).life.Live?
    ensures Leads(valid, s0, t) && Delivered(t, chunks + [chunk])
  {
    CanDeliver(valid, s0, s, chunks, chunk);
    DeliverEffect(valid, s, chunks, chunk);
    var u := Then(valid, s0, s, Deliver(0, 0, chunk));
    OnlyOneWorker(u.workers);
    t := WaitAgain(valid, s0, u, 0);
  }

  lemma {:induction false} DeliverAll(valid: Verifier, chunks: seq<Bytes>) returns (s0: State, t: State)
    requires forall k | 0 <= k < |chunks| :: Feed(valid, chunks[..k]).life.Live?
    ensures Init(s0) && Inv(valid, s0) && Leads(valid, s0, t) && Delivered(t, chunks)
  {
    if chunks == [] {
      s0, t := BeginServer(valid);
    } else {
      var init, last := chunks[..|chunks| - 1], chunks[|chunks| - 1];
      forall k | 0 <= k < |init|
        ensures Feed(valid, init[..k]).life.Live?
      {
        assert init[..k] == chunks[..k];
      }
      var s;
      s0, s := DeliverAll(valid, init);
      assert init + [last] == chunks;
      t := DeliverOne(valid, s0, s, init, last);
    }
  }

  lemma StoppedRun(valid: Verifier, chunks: seq<Bytes>) returns (trace: seq<State>, steps: seq<Step>)
    requires forall k | 0 <= k < |chunks| :: Feed(valid, chunks[..k]).life.Live?
    ensures Run(valid, trace, steps)
    ensures var s := trace[|trace| - 1]; s.server.Stopped? && 0 in s.conns && s.conns[0].chunks == chunks
  {
    var s0, s := DeliverAll(valid, chunks);
    LeadsInv(valid, s0, s);
    var t := CanStop(valid, s);
    var more :| Path(valid, s0, more, s);
    var rest :| Path(valid, s, rest, t);
    var start: seq<Step> := [];
    trace := PathExtends(valid, [s0], start, more, s);
    trace := PathExtends(valid, trace, start + more, rest, t);
    steps := start + more + rest;
  }

  lemma AllExitedAtStop(valid: Verifier, trace: seq<State>, steps: seq<Step>, i: nat, c: ClientId)
    requires Run(valid, trace, steps) && i < |trace| && trace[i].server.Stopped?
    ensures Idle(trace[i], c) && trace[i].taken == trace[i].pushed
  {
    RunInv(valid, trace, steps, i);
    StopLosesNothing(valid, trace, steps, i);
  }

  /** Whatever chunks a client sends, up to and including the first that closes it, some run
      delivers exactly those and ends stopped, with exactly what they mean taken. */
  lemma EveryStreamIsHandled(valid: Verifier, chunks: seq<Bytes>) returns (trace: seq<State>, steps: seq<Step>)
    requires forall k | 0 <= k < |chunks| :: Feed(valid, chunks[..k]).life.Live?
    ensures Run(valid, trace, steps) && ChunksOf(steps, 0) == chunks
    ensures var s := trace[|trace| - 1];
      s.server.Stopped? && PayloadsOf(s.taken, 0) == Feed(valid, chunks).pushed
  {
    trace, steps := StoppedRun(valid, chunks);
    var i := |trace| - 1;
    assert steps[..i] == steps;
    HistoryIsTrue(valid, trace, steps, i, 0);
    AllExitedAtStop(valid, trace, steps, i, 0);
    RunFollowsFeed(valid, trace, steps, i, 0);
  }
}
