/**
  A timing window shared by observing threads and snapshots, at the granularity of single
  atomic operations. A state records every observation and every drain ever begun, each at
  its own stage, so any number of threads may be anywhere in between.

  The client raises the maximum with a compare-and-swap loop, the server with a load followed
  by a store. Both are step relations over the same states.
 */
module TimingWindows {
  import opened Basics

  type uint64 = x: nat | x < UINT64

  datatype Stage =
    | Begun
    | Counted
    | Totalled
    | Comparing(observed: uint64)
    | Done

  datatype Observation = Observation(value: uint64, stage: Stage)

  /** `exchanged` of the three fields have been taken so far; the others still read 0. */
  datatype Drain = Drain(exchanged: nat, count: uint64, total: uint64, max: uint64)

  /** The wrap counters record how often an addition overflowed 64 bits. */
  datatype State = State(
    count: uint64,
    total: uint64,
    max: uint64,
    observations: seq<Observation>,
    drains: seq<Drain>,
    countWraps: nat,
    totalWraps: nat)

  const INITIAL: State := State(0, 0, 0, [], [], 0, 0)

  datatype Step =
    | Begin(value: uint64)
    | AddCount(i: nat)
    | AddTotal(i: nat)
    | Load(i: nat)
    | Swap(i: nat)
    | SwapFails(i: nat)
    | Finish(i: nat)
    | LoadOnce(i: nat)
    | Store(i: nat)
    | BeginDrain
    | TakeCount(j: nat)
    | TakeTotal(j: nat)
    | TakeMax(j: nat)

  predicate AtStage(s: State, i: nat, stage: Stage)
  {
    i < |s.observations| && s.observations[i].stage == stage
  }

  predicate IsComparing(s: State, i: nat)
  {
    i < |s.observations| && s.observations[i].stage.Comparing?
  }

  predicate Draining(s: State, j: nat, exchanged: nat)
  {
    j < |s.drains| && s.drains[j].exchanged == exchanged
  }

  predicate Enabled(s: State, step: Step)
  {
    match step
    case Begin(_) => true
    case AddCount(i) => AtStage(s, i, Begun)
    case AddTotal(i) => AtStage(s, i, Counted)
    case Load(i) => AtStage(s, i, Totalled)
    case Swap(i) =>
      IsComparing(s, i) && s.observations[i].stage.observed < s.observations[i].value
      && s.max == s.observations[i].stage.observed
    case SwapFails(i) => IsComparing(s, i) && s.observations[i].stage.observed < s.observations[i].value
    case Finish(i) => IsComparing(s, i) && s.observations[i].value <= s.observations[i].stage.observed
    case LoadOnce(i) => AtStage(s, i, Totalled)
    case Store(i) => IsComparing(s, i)
    case BeginDrain => true
    case TakeCount(j) => Draining(s, j, 0)
    case TakeTotal(j) => Draining(s, j, 1)
    case TakeMax(j) => Draining(s, j, 2)
  }

  function SetStage(s: State, i: nat, stage: Stage): State
    requires i < |s.observations|
  {
    s.(observations := s.observations[i := s.observations[i].(stage := stage)])
  }

  function SetDrain(s: State, j: nat, d: Drain): State
    requires j < |s.drains|
  {
    s.(drains := s.drains[j := d])
  }

  function Next(s: State, step: Step): State
    requires Enabled(s, step)
  {
    match step
    case Begin(v) => s.(observations := s.observations + [Observation(v, Begun)])
    case AddCount(i) =>
      var n := s.count + 1;
      SetStage(s, i, Counted).(
        count := if n < UINT64 then n else n - UINT64,
        countWraps := s.countWraps + if n < UINT64 then 0 else 1)
    case AddTotal(i) =>
      var n := s.total + s.observations[i].value;
      SetStage(s, i, Totalled).(
        total := if n < UINT64 then n else n - UINT64,
        totalWraps := s.totalWraps + if n < UINT64 then 0 else 1)
    case Load(i) => SetStage(s, i, Comparing(s.max))
    case Swap(i) => SetStage(s, i, Done).(max := s.observations[i].value)
    case SwapFails(i) => SetStage(s, i, Comparing(s.max))
    case Finish(i) => SetStage(s, i, Done)
    case LoadOnce(i) => SetStage(s, i, if s.observations[i].value > s.max then Comparing(s.max) else Done)
    case Store(i) => SetStage(s, i, Done).(max := s.observations[i].value)
    case BeginDrain => s.(drains := s.drains + [Drain(0, 0, 0, 0)])
    case TakeCount(j) => SetDrain(s, j, s.drains[j].(exchanged := 1, count := s.count)).(count := 0)
    case TakeTotal(j) => SetDrain(s, j, s.drains[j].(exchanged := 2, total := s.total)).(total := 0)
    case TakeMax(j) => SetDrain(s, j, s.drains[j].(exchanged := 3, max := s.max)).(max := 0)
  }

  /** The steps of the compare-and-swap implementation. A weak compare-and-swap may fail
      although the values agree. */
  predicate ClientStep(step: Step)
  {
    !step.LoadOnce? && !step.Store?
  }

  predicate ServerStep(step: Step)
  {
    !step.Load? && !step.Swap? && !step.SwapFails? && !step.Finish?
  }

  predicate AllDone(s: State)
  {
    forall i | 0 <= i < |s.observations| :: s.observations[i].stage == Done
  }

  /** One observing thread: it begins an observation only after finishing the last. */
  predicate SingleWriter(s: State, step: Step)
  {
    step.Begin? ==> AllDone(s)
  }

  /** Any run, of either implementation. */
  ghost predicate Run(trace: seq<State>, steps: seq<Step>)
  {
    && |trace| == |steps| + 1 && trace[0] == INITIAL
    && forall k | 0 <= k < |steps| :: Enabled(trace[k], steps[k]) && trace[k + 1] == Next(trace[k], steps[k])
  }

  ghost predicate ClientRun(trace: seq<State>, steps: seq<Step>)
  {
    Run(trace, steps) && forall k | 0 <= k < |steps| :: ClientStep(steps[k])
  }

  ghost predicate ServerRun(trace: seq<State>, steps: seq<Step>)
  {
    Run(trace, steps) && forall k | 0 <= k < |steps| :: ServerStep(steps[k])
  }

  ghost predicate OneWriterRun(trace: seq<State>, steps: seq<Step>)
  {
    ServerRun(trace, steps) && forall k | 0 <= k < |steps| :: SingleWriter(trace[k], steps[k])
  }

  // ---------------------------------------------------------------- sums and maxima

  function Increments(os: seq<Observation>): nat
  {
    if os == [] then 0
    else Increments(os[..|os| - 1]) + if os[|os| - 1].stage.Begun? then 0 else 1
  }

  function Added(os: seq<Observation>): nat
  {
    if os == [] then 0
    else
      var last := os[|os| - 1];
      Added(os[..|os| - 1]) + if last.stage.Begun? || last.stage.Counted? then 0 else last.value
  }

  function DrainedCount(ds: seq<Drain>): nat
  {
    if ds == [] then 0 else DrainedCount(ds[..|ds| - 1]) + ds[|ds| - 1].count
  }

  function DrainedTotal(ds: seq<Drain>): nat
  {
    if ds == [] then 0 else DrainedTotal(ds[..|ds| - 1]) + ds[|ds| - 1].total
  }

  function DrainedMax(ds: seq<Drain>): nat
  {
    if ds == [] then 0 else Max(DrainedMax(ds[..|ds| - 1]), ds[|ds| - 1].max)
  }

  /** The largest maximum reported by any drain or still in the window. */
  function Peak(s: State): nat
  {
    Max(DrainedMax(s.drains), s.max)
  }

  lemma {:induction false} SetObservation(os: seq<Observation>, i: nat, o: Observation)
    requires i < |os| && o.value == os[i].value
    ensures Increments(os[i := o]) + (if os[i].stage.Begun? then 0 else 1)
         == Increments(os) + if o.stage.Begun? then 0 else 1
    ensures Added(os[i := o]) + (if os[i].stage.Begun? || os[i].stage.Counted? then 0 else o.value)
         == Added(os) + if o.stage.Begun? || o.stage.Counted? then 0 else o.value
  {
    var n := |os| - 1;
    if i < n {
      assert os[i := o][..n] == os[..n][i := o];
      SetObservation(os[..n], i, o);
    } else {
      assert os[i := o][..n] == os[..n];
    }
  }

  lemma {:induction false} SetDrained(ds: seq<Drain>, j: nat, d: Drain)
    requires j < |ds|
    ensures DrainedCount(ds[j := d]) + ds[j].count == DrainedCount(ds) + d.count
    ensures DrainedTotal(ds[j := d]) + ds[j].total == DrainedTotal(ds) + d.total
    ensures ds[j].max <= d.max ==> DrainedMax(ds[j := d]) == Max(DrainedMax(ds), d.max)
  {
    var n := |ds| - 1;
    if j < n {
      assert ds[j := d][..n] == ds[..n][j := d];
      SetDrained(ds[..n], j, d);
    } else {
      assert ds[j := d][..n] == ds[..n];
    }
  }

  // ---------------------------------------------------------------- conservation

  /** What `n` overflows have taken away. */
  function Wrapped(n: nat): nat
  {
    if n == 0 then 0 else UINT64 + Wrapped(n - 1)
  }

  ghost predicate Conserved(s: State)
  {
    && DrainedCount(s.drains) + s.count + Wrapped(s.countWraps) == Increments(s.observations)
    && DrainedTotal(s.drains) + s.total + Wrapped(s.totalWraps) == Added(s.observations)
  }

  /** Fields not yet exchanged read 0. */
  ghost predicate DrainsInv(s: State)
  {
    forall j | 0 <= j < |s.drains| ::
      var d := s.drains[j];
      (d.exchanged < 1 ==> d.count == 0) && (d.exchanged < 2 ==> d.total == 0) && (d.exchanged < 3 ==> d.max == 0)
  }

  lemma BeginAddsNothing(os: seq<Observation>, v: uint64)
    ensures Increments(os + [Observation(v, Begun)]) == Increments(os)
    ensures Added(os + [Observation(v, Begun)]) == Added(os)
  {
    assert (os + [Observation(v, Begun)])[..|os|] == os;
  }

  lemma NewDrainIsEmpty(ds: seq<Drain>)
    ensures DrainedCount(ds + [Drain(0, 0, 0, 0)]) == DrainedCount(ds)
    ensures DrainedTotal(ds + [Drain(0, 0, 0, 0)]) == DrainedTotal(ds)
  {
    assert (ds + [Drain(0, 0, 0, 0)])[..|ds|] == ds;
  }

  lemma NextDrainsInv(s: State, step: Step)
    requires DrainsInv(s) && Enabled(s, step)
    ensures DrainsInv(Next(s, step))
  {
  }

  lemma BeginConserved(s: State, step: Step)
    requires Conserved(s) && Enabled(s, step) && (step.Begin? || step.BeginDrain?)
    ensures Conserved(Next(s, step))
  {
    if step.Begin? {
      BeginAddsNothing(s.observations, step.value);
    } else {
      NewDrainIsEmpty(s.drains);
    }
  }

  lemma DrainConserved(s: State, step: Step)
    requires Conserved(s) && DrainsInv(s) && Enabled(s, step)
    requires step.TakeCount? || step.TakeTotal? || step.TakeMax?
    ensures Conserved(Next(s, step))
  {
    SetDrained(s.drains, step.j, Next(s, step).drains[step.j]);
  }

  lemma AddCountConserved(s: State, i: nat)
    requires Conserved(s) && Enabled(s, AddCount(i))
    ensures Conserved(Next(s, AddCount(i)))
  {
    SetObservation(s.observations, i, s.observations[i].(stage := Counted));
  }

  lemma AddTotalConserved(s: State, i: nat)
    requires Conserved(s) && Enabled(s, AddTotal(i))
    ensures Conserved(Next(s, AddTotal(i)))
  {
    SetObservation(s.observations, i, s.observations[i].(stage := Totalled));
  }

  /** The steps that work on the maximum. */
  lemma MaxStepConserved(s: State, step: Step)
    requires Conserved(s) && Enabled(s, step)
    requires step.Load? || step.Swap? || step.SwapFails? || step.Finish? || step.LoadOnce? || step.Store?
    ensures Conserved(Next(s, step))
  {
    SetObservation(s.observations, step.i, Next(s, step).observations[step.i]);
  }

  lemma NextConserved(s: State, step: Step)
    requires Conserved(s) && DrainsInv(s) && Enabled(s, step)
    ensures Conserved(Next(s, step)) && DrainsInv(Next(s, step))
  {
    NextDrainsInv(s, step);
    if step.Begin? || step.BeginDrain? {
      BeginConserved(s, step);
    } else if step.TakeCount? || step.TakeTotal? || step.TakeMax? {
      DrainConserved(s, step);
    } else if step.AddCount? {
      AddCountConserved(s, step.i);
    } else if step.AddTotal? {
      AddTotalConserved(s, step.i);
    } else {
      MaxStepConserved(s, step);
    }
  }

  // ---------------------------------------------------------------- maxima

  /** Nothing is lost: whatever an observer has read is still accounted for, and a finished
      observation is below the peak. */
  ghost predicate NotLost(s: State, i: nat)
    requires i < |s.observations|
  {
    Below(s.observations[i], Peak(s))
  }

  ghost predicate Below(o: Observation, peak: nat)
  {
    (o.stage.Comparing? ==> o.stage.observed <= peak) && (o.stage == Done ==> o.value <= peak)
  }

  /** Nothing is invented: every maximum is 0 or a value that was observed. */
  ghost predicate Observed(s: State, m: nat)
  {
    m == 0 || exists i | 0 <= i < |s.observations| :: s.observations[i].value == m
  }

  ghost predicate MaxInv(s: State)
  {
    && (forall i | 0 <= i < |s.observations| :: NotLost(s, i))
    && Observed(s, s.max)
    && forall j | 0 <= j < |s.drains| :: Observed(s, s.drains[j].max)
  }

  /** A client step never lowers the peak. */
  lemma PeakRises(s: State, step: Step)
    requires DrainsInv(s) && Enabled(s, step) && ClientStep(step)
    ensures Peak(s) <= Peak(Next(s, step))
  {
    var s' := Next(s, step);
    match step
    case BeginDrain => assert s'.drains[..|s.drains|] == s.drains;
    case TakeCount(j) => SetDrained(s.drains, j, s'.drains[j]);
    case TakeTotal(j) => SetDrained(s.drains, j, s'.drains[j]);
    case TakeMax(j) => SetDrained(s.drains, j, s'.drains[j]);
    case _ =>
  }

  /** Under a peak that does not fall, a client step keeps every observation below it. */
  lemma NextBelow(s: State, step: Step, peak: nat, peak': nat)
    requires Enabled(s, step) && ClientStep(step) && peak <= peak'
    requires s.max <= peak && Next(s, step).max <= peak'
    requires forall i | 0 <= i < |s.observations| :: Below(s.observations[i], peak)
    ensures forall i | 0 <= i < |Next(s, step).observations| :: Below(Next(s, step).observations[i], peak')
  {
  }

  lemma NextNotLost(s: State, step: Step)
    requires DrainsInv(s) && Enabled(s, step) && ClientStep(step)
    requires forall i | 0 <= i < |s.observations| :: NotLost(s, i)
    ensures forall i | 0 <= i < |Next(s, step).observations| :: NotLost(Next(s, step), i)
  {
    var s' := Next(s, step);
    PeakRises(s, step);
    forall i | 0 <= i < |s.observations|
      ensures Below(s.observations[i], Peak(s))
    {
      assert NotLost(s, i);
    }
    NextBelow(s, step, Peak(s), Peak(s'));
  }

  /** Values never change, and observations are only added. */
  ghost predicate SameValues(os: seq<Observation>, os': seq<Observation>)
  {
    |os| <= |os'| && forall i | 0 <= i < |os| :: os'[i].value == os[i].value
  }

  lemma NextValues(s: State, step: Step)
    requires Enabled(s, step)
    ensures SameValues(s.observations, Next(s, step).observations)
  {
  }

  lemma StillObserved(s: State, s': State, m: nat)
    requires Observed(s, m) && SameValues(s.observations, s'.observations)
    ensures Observed(s', m)
  {
    if m != 0 {
      var i :| 0 <= i < |s.observations| && s.observations[i].value == m;
      assert s'.observations[i].value == m;
    }
  }

  lemma NextMaxObserved(s: State, step: Step)
    requires Enabled(s, step) && ClientStep(step) && Observed(s, s.max)
    ensures Observed(Next(s, step), Next(s, step).max)
  {
    var s' := Next(s, step);
    if step.Swap? {
      assert s'.observations[step.i].value == s'.max;
    } else if s'.max == s.max {
      NextValues(s, step);
      StillObserved(s, s', s.max);
    }
  }

  lemma NextDrainObserved(s: State, step: Step, j: nat)
    requires Enabled(s, step) && ClientStep(step) && Observed(s, s.max) && j < |Next(s, step).drains|
    requires j < |s.drains| ==> Observed(s, s.drains[j].max)
    ensures Observed(Next(s, step), Next(s, step).drains[j].max)
  {
    var s' := Next(s, step);
    NextValues(s, step);
    if step.TakeMax? && step.j == j {
      StillObserved(s, s', s.max);
    } else if j < |s.drains| {
      StillObserved(s, s', s.drains[j].max);
    }
  }

  lemma NextMax(s: State, step: Step)
    requires MaxInv(s) && DrainsInv(s) && Enabled(s, step) && ClientStep(step)
    ensures MaxInv(Next(s, step))
  {
    NextNotLost(s, step);
    NextMaxObserved(s, step);
    forall j | 0 <= j < |Next(s, step).drains|
      ensures Observed(Next(s, step), Next(s, step).drains[j].max)
    {
      NextDrainObserved(s, step, j);
    }
  }

  lemma {:induction false} RunConserved(trace: seq<State>, steps: seq<Step>, k: nat)
    requires Run(trace, steps) && k < |trace|
    ensures Conserved(trace[k]) && DrainsInv(trace[k])
  {
    if k > 0 {
      RunConserved(trace, steps, k - 1);
      assert trace[k - 1 + 1] == Next(trace[k - 1], steps[k - 1]);
      NextConserved(trace[k - 1], steps[k - 1]);
    }
  }

  lemma {:induction false} ClientRunInv(trace: seq<State>, steps: seq<Step>, k: nat)
    requires ClientRun(trace, steps) && k < |trace|
    ensures MaxInv(trace[k])
  {
    if k > 0 {
      ClientRunInv(trace, steps, k - 1);
      RunConserved(trace, steps, k - 1);
      assert trace[k - 1 + 1] == Next(trace[k - 1], steps[k - 1]);
      NextMax(trace[k - 1], steps[k - 1]);
    }
  }

  /** Counts and totals balance in every state of every run, up to 64-bit wrap-around, and
      exactly as long as fewer than 2^64 have been added. */
  lemma WindowsBalance(trace: seq<State>, steps: seq<Step>, k: nat)
    requires Run(trace, steps) && k < |trace|
    ensures var s := trace[k];
            && (DrainedCount(s.drains) + s.count) % UINT64 == Increments(s.observations) % UINT64
            && (DrainedTotal(s.drains) + s.total) % UINT64 == Added(s.observations) % UINT64
            && (Increments(s.observations) < UINT64 ==> DrainedCount(s.drains) + s.count == Increments(s.observations))
            && (Added(s.observations) < UINT64 ==> DrainedTotal(s.drains) + s.total == Added(s.observations))
  {
    RunConserved(trace, steps, k);
    var s := trace[k];
    Balanced(DrainedCount(s.drains) + s.count, s.countWraps, Increments(s.observations));
    Balanced(DrainedTotal(s.drains) + s.total, s.totalWraps, Added(s.observations));
  }

  lemma Balanced(a: nat, wraps: nat, sum: nat)
    requires a + Wrapped(wraps) == sum
    ensures a % UINT64 == sum % UINT64 && (sum < UINT64 ==> a == sum)
  {
    Congruent(a, wraps);
  }

  lemma {:induction false} Congruent(a: nat, n: nat)
    ensures (a + Wrapped(n)) % UINT64 == a % UINT64
    decreases n
  {
    if n > 0 {
      Congruent(a + UINT64, n - 1);
    }
  }

  /** The compare-and-swap loop never loses a maximum: a finished observation is at most the
      largest of all drained maxima and the current one. */
  lemma NoMaximumLost(trace: seq<State>, steps: seq<Step>, k: nat, i: nat)
    requires ClientRun(trace, steps) && k < |trace| && AtStage(trace[k], i, Done)
    ensures trace[k].observations[i].value <= Peak(trace[k])
  {
    ClientRunInv(trace, steps, k);
    assert NotLost(trace[k], i);
  }

  lemma {:induction false} DrainedMaxMember(ds: seq<Drain>)
    ensures DrainedMax(ds) == 0 || exists j | 0 <= j < |ds| :: ds[j].max == DrainedMax(ds)
  {
    if ds != [] {
      DrainedMaxMember(ds[..|ds| - 1]);
      if DrainedMax(ds) == ds[|ds| - 1].max {
        assert ds[|ds| - 1].max == DrainedMax(ds);
      } else if DrainedMax(ds) != 0 {
        var j :| 0 <= j < |ds| - 1 && ds[..|ds| - 1][j].max == DrainedMax(ds);
        assert ds[j].max == DrainedMax(ds);
      }
    }
  }

  /** Once every observation has finished, the peak is exactly the largest value observed. */
  lemma PeakIsExact(trace: seq<State>, steps: seq<Step>, k: nat)
    requires ClientRun(trace, steps) && k < |trace| && AllDone(trace[k])
    ensures var s := trace[k];
            && (forall i | 0 <= i < |s.observations| :: s.observations[i].value <= Peak(s))
            && Observed(s, Peak(s))
  {
    ClientRunInv(trace, steps, k);
    var s := trace[k];
    forall i | 0 <= i < |s.observations| ensures s.observations[i].value <= Peak(s) {
      assert NotLost(s, i);
    }
    DrainedMaxMember(s.drains);
  }

  // ---------------------------------------------------------------- the server, one writer

  /** Between its load and its store the only writer can see drains, which only lower the
      maximum; everybody else has finished. */
  ghost predicate WriterInv(s: State)
  {
    && (forall i | 0 <= i < |s.observations| && s.observations[i].stage.Comparing? ::
          s.max <= s.observations[i].stage.observed < s.observations[i].value)
    && (forall i, j | 0 <= i < j < |s.observations| ::
          s.observations[i].stage == Done || s.observations[j].stage == Done)
  }

  lemma NextWriter(s: State, step: Step)
    requires WriterInv(s) && Enabled(s, step) && ServerStep(step) && SingleWriter(s, step)
    ensures WriterInv(Next(s, step))
  {
  }

  /** `s'` follows from `s` by client steps. */
  ghost predicate ClientSteps(s: State, steps: seq<Step>, s': State)
    decreases |steps|
  {
    if steps == [] then s == s'
    else ClientStep(steps[0]) && Enabled(s, steps[0]) && ClientSteps(Next(s, steps[0]), steps[1..], s')
  }

  lemma OneClientStep(s: State, step: Step)
    requires ClientStep(step) && Enabled(s, step)
    ensures ClientSteps(s, [step], Next(s, step))
  {
    assert ClientSteps(Next(s, step), [step][1..], Next(s, step));
  }

  lemma TwoClientSteps(s: State, a: Step, b: Step)
    requires ClientStep(a) && Enabled(s, a) && ClientStep(b) && Enabled(Next(s, a), b)
    ensures ClientSteps(s, [a, b], Next(Next(s, a), b))
  {
    OneClientStep(Next(s, a), b);
    assert [a, b][1..] == [b];
  }

  /** Every step of the load-then-store form is one or two steps of the loop: a store that
      overwrites a drained maximum is a failed swap followed by a successful one. */
  lemma ServerStepRefines(s: State, step: Step) returns (steps: seq<Step>)
    requires WriterInv(s) && Enabled(s, step) && ServerStep(step)
    ensures ClientSteps(s, steps, Next(s, step))
  {
    match step
    case LoadOnce(i) =>
      if s.observations[i].value > s.max {
        OneClientStep(s, Load(i));
        steps := [Load(i)];
      } else {
        TwoClientSteps(s, Load(i), Finish(i));
        steps := [Load(i), Finish(i)];
        assert Next(Next(s, Load(i)), Finish(i)).observations == Next(s, step).observations;
      }
    case Store(i) =>
      if s.max == s.observations[i].stage.observed {
        OneClientStep(s, Swap(i));
        steps := [Swap(i)];
      } else {
        TwoClientSteps(s, SwapFails(i), Swap(i));
        steps := [SwapFails(i), Swap(i)];
        assert Next(Next(s, SwapFails(i)), Swap(i)).observations == Next(s, step).observations;
      }
    case _ =>
      OneClientStep(s, step);
      steps := [step];
  }

  lemma {:induction false} ClientStepsInv(s: State, steps: seq<Step>, s': State)
    requires ClientSteps(s, steps, s') && Conserved(s) && DrainsInv(s) && MaxInv(s)
    ensures MaxInv(s')
    decreases |steps|
  {
    if steps != [] {
      NextConserved(s, steps[0]);
      NextMax(s, steps[0]);
      ClientStepsInv(Next(s, steps[0]), steps[1..], s');
    }
  }

  lemma {:induction false} ServerRunInv(trace: seq<State>, steps: seq<Step>, k: nat)
    requires OneWriterRun(trace, steps) && k < |trace|
    ensures WriterInv(trace[k]) && MaxInv(trace[k])
  {
    if k > 0 {
      ServerRunInv(trace, steps, k - 1);
      RunConserved(trace, steps, k - 1);
      var s, step := trace[k - 1], steps[k - 1];
      assert trace[k - 1 + 1] == Next(s, step);
      NextWriter(s, step);
      var cs := ServerStepRefines(s, step);
      ClientStepsInv(s, cs, trace[k]);
    }
  }

  lemma {:induction false} ClientStepsAppend(s: State, a: seq<Step>, m: State, b: seq<Step>, s': State)
    requires ClientSteps(s, a, m) && ClientSteps(m, b, s')
    ensures ClientSteps(s, a + b, s')
    decreases |a|
  {
    if a == [] {
      assert a + b == b;
    } else {
      ClientStepsAppend(Next(s, a[0]), a[1..], m, b, s');
      assert (a + b)[1..] == a[1..] + b;
    }
  }

  /** With one observing thread, every state the server reaches the client reaches too. */
  lemma {:induction false} OneWriterRefinesClient(trace: seq<State>, steps: seq<Step>, k: nat) returns (cs: seq<Step>)
    requires OneWriterRun(trace, steps) && k < |trace|
    ensures ClientSteps(INITIAL, cs, trace[k])
  {
    if k == 0 {
      cs := [];
    } else {
      var before := OneWriterRefinesClient(trace, steps, k - 1);
      ServerRunInv(trace, steps, k - 1);
      assert trace[k - 1 + 1] == Next(trace[k - 1], steps[k - 1]);
      var last := ServerStepRefines(trace[k - 1], steps[k - 1]);
      ClientStepsAppend(INITIAL, before, trace[k - 1], last, trace[k]);
      cs := before + last;
    }
  }

  /** So one writer never loses a maximum either. */
  lemma OneWriterLosesNoMaximum(trace: seq<State>, steps: seq<Step>, k: nat, i: nat)
    requires OneWriterRun(trace, steps) && k < |trace| && AtStage(trace[k], i, Done)
    ensures trace[k].observations[i].value <= Peak(trace[k])
  {
    ServerRunInv(trace, steps, k);
    assert NotLost(trace[k], i);
  }

  const LOSING_STEPS: seq<Step> := [
    Begin(5), Begin(3), AddCount(0), AddCount(1), AddTotal(0), AddTotal(1),
    LoadOnce(0), LoadOnce(1), Store(0), Store(1)]

  function Both(count: uint64, total: uint64, max: uint64, five: Stage, three: Stage): State
  {
    State(count, total, max, [Observation(5, five), Observation(3, three)], [], 0, 0)
  }

  const LOSING_TRACE: seq<State> := [
    INITIAL,
    State(0, 0, 0, [Observation(5, Begun)], [], 0, 0),
    Both(0, 0, 0, Begun, Begun),
    Both(1, 0, 0, Counted, Begun),
    Both(2, 0, 0, Counted, Counted),
    Both(2, 5, 0, Totalled, Counted),
    Both(2, 8, 0, Totalled, Totalled),
    Both(2, 8, 0, Comparing(0), Totalled),
    Both(2, 8, 0, Comparing(0), Comparing(0)),
    Both(2, 8, 5, Done, Comparing(0)),
    Both(2, 8, 3, Done, Done)]

  ghost predicate Follows(s: State, step: Step, s': State)
  {
    ServerStep(step) && Enabled(s, step) && s' == Next(s, step)
  }

  lemma LosingRunBegins()
    ensures forall k | 0 <= k < 6 :: Follows(LOSING_TRACE[k], LOSING_STEPS[k], LOSING_TRACE[k + 1])
  {
  }

  lemma LosingRunEnds()
    ensures forall k | 6 <= k < 10 :: Follows(LOSING_TRACE[k], LOSING_STEPS[k], LOSING_TRACE[k + 1])
  {
  }

  /** Two writers can: both load 0, the larger is stored first and the smaller over it. */
  lemma TwoWritersCanLoseAMaximum() returns (trace: seq<State>, steps: seq<Step>)
    ensures ServerRun(trace, steps) && forall k | 0 <= k < |trace| :: |trace[k].observations| <= 2
    ensures var s := trace[|trace| - 1];
            AllDone(s) && |s.observations| == 2 && s.observations[0].value > Peak(s)
  {
    LosingRunBegins();
    LosingRunEnds();
    LosingRunFacts();
    FollowingIsRun(LOSING_TRACE, LOSING_STEPS);
    trace, steps := LOSING_TRACE, LOSING_STEPS;
  }

  lemma LosingRunFacts()
    ensures |LOSING_STEPS| == 10 && |LOSING_TRACE| == 11 && LOSING_TRACE[0] == INITIAL
    ensures forall k | 0 <= k < 11 :: |LOSING_TRACE[k].observations| <= 2
    ensures LOSING_TRACE[10] == Both(2, 8, 3, Done, Done)
  {
  }

  lemma FollowingIsRun(trace: seq<State>, steps: seq<Step>)
    requires |trace| == |steps| + 1 && trace[0] == INITIAL
    requires forall k | 0 <= k < |steps| :: Follows(trace[k], steps[k], trace[k + 1])
    ensures ServerRun(trace, steps)
  {
    forall k | 0 <= k < |steps|
      ensures ServerStep(steps[k]) && Enabled(trace[k], steps[k]) && trace[k + 1] == Next(trace[k], steps[k])
    {
      assert Follows(trace[k], steps[k], trace[k + 1]);
    }
  }

  // ---------------------------------------------------------------- how many writers are safe

  /** Observations begun and not yet finished. */
  function InFlight(os: seq<Observation>): nat
  {
    if os == [] then 0 else InFlight(os[..|os| - 1]) + if os[|os| - 1].stage == Done then 0 else 1
  }

  lemma {:induction false} InFlightBound(os: seq<Observation>)
    ensures InFlight(os) <= |os|
    ensures InFlight(os) == 0 ==> forall i | 0 <= i < |os| :: os[i].stage == Done
  {
    if os != [] {
      InFlightBound(os[..|os| - 1]);
    }
  }

  ghost predicate InFlightAtMost(trace: seq<State>, n: nat)
  {
    forall k | 0 <= k < |trace| :: InFlight(trace[k].observations) <= n
  }

  ghost predicate KeepsMaxima(s: State)
  {
    forall i | 0 <= i < |s.observations| && s.observations[i].stage == Done :: s.observations[i].value <= Peak(s)
  }

  /** No run of the load-then-store form with at most `n` observations in flight at once ever
      loses a finished maximum. */
  ghost predicate Safe(n: nat)
  {
    forall trace: seq<State>, steps: seq<Step> | ServerRun(trace, steps) && InFlightAtMost(trace, n) ::
      KeepsMaxima(trace[|trace| - 1])
  }

  lemma OneInFlightIsOneWriter(trace: seq<State>, steps: seq<Step>)
    requires ServerRun(trace, steps) && InFlightAtMost(trace, 1)
    ensures OneWriterRun(trace, steps)
  {
    forall k | 0 <= k < |steps|
      ensures SingleWriter(trace[k], steps[k])
    {
      if steps[k].Begin? {
        var os, os' := trace[k].observations, trace[k + 1].observations;
        assert os' == os + [Observation(steps[k].value, Begun)];
        assert os'[..|os|] == os && InFlight(os') <= 1;
        InFlightBound(os);
      }
    }
  }

  /** The server's maximum is safe exactly for one observation at a time. */
  lemma SafeForOneWriterOnly(n: nat)
    ensures Safe(n) <==> n <= 1
  {
    if n <= 1 {
      forall trace: seq<State>, steps: seq<Step> | ServerRun(trace, steps) && InFlightAtMost(trace, n)
        ensures KeepsMaxima(trace[|trace| - 1])
      {
        assert InFlightAtMost(trace, 1);
        OneInFlightIsOneWriter(trace, steps);
        var k := |trace| - 1;
        forall i | 0 <= i < |trace[k].observations| && trace[k].observations[i].stage == Done
          ensures trace[k].observations[i].value <= Peak(trace[k])
        {
          OneWriterLosesNoMaximum(trace, steps, k, i);
        }
      }
    } else {
      var trace, steps := TwoWritersCanLoseAMaximum();
      forall k | 0 <= k < |trace|
        ensures InFlight(trace[k].observations) <= n
      {
        InFlightBound(trace[k].observations);
      }
      assert InFlightAtMost(trace, n);
      assert !KeepsMaxima(trace[|trace| - 1]);
    }
  }

  // ---------------------------------------------------------------- what drains take

  lemma StepOf(trace: seq<State>, steps: seq<Step>, k: nat)
    requires Run(trace, steps) && k < |steps|
    ensures Enabled(trace[k], steps[k]) && trace[k + 1] == Next(trace[k], steps[k])
  {
  }

  /** Only drain `j` differs, and in nothing but what `d` says. */
  predicate OnlyDrain(s: State, t: State, j: nat, d: Drain)
  {
    && j < |s.drains| && t.drains == s.drains[j := d]
    && t.observations == s.observations
  }

  /** In every run each exchange leaves its field 0, puts exactly the field's previous value
      into that drain and changes nothing else; a drain begins with nothing taken; and apart
      from exchanges only additions and raised maxima change the window. */
  lemma ExchangeLaw(trace: seq<State>, steps: seq<Step>, k: nat)
    requires Run(trace, steps) && k < |steps|
    ensures var s, t, step := trace[k], trace[k + 1], steps[k];
      && (step.TakeCount? ==>
            && Draining(s, step.j, 0) && t.count == 0 && t.total == s.total && t.max == s.max
            && OnlyDrain(s, t, step.j, s.drains[step.j].(exchanged := 1, count := s.count)))
      && (step.TakeTotal? ==>
            && Draining(s, step.j, 1) && t.total == 0 && t.count == s.count && t.max == s.max
            && OnlyDrain(s, t, step.j, s.drains[step.j].(exchanged := 2, total := s.total)))
      && (step.TakeMax? ==>
            && Draining(s, step.j, 2) && t.max == 0 && t.count == s.count && t.total == s.total
            && OnlyDrain(s, t, step.j, s.drains[step.j].(exchanged := 3, max := s.max)))
      && (step.BeginDrain? ==> t == s.(drains := s.drains + [Drain(0, 0, 0, 0)]))
      && (!step.TakeCount? && !step.AddCount? ==> t.count == s.count)
      && (!step.TakeTotal? && !step.AddTotal? ==> t.total == s.total)
      && (!step.TakeMax? && !step.Swap? && !step.Store? ==> t.max == s.max)
  {
    StepOf(trace, steps, k);
  }

  ghost predicate NoBegin(steps: seq<Step>, b: nat, k: nat)
  {
    b <= k <= |steps| && forall i | b <= i < k :: !steps[i].Begin?
  }

  /** Every observation is over, and what drain `j` has exchanged has been 0 since. */
  ghost predicate Drained(s: State, j: nat)
  {
    && AllDone(s)
    && (j < |s.drains| ==>
          && (s.drains[j].exchanged >= 1 ==> s.count == 0)
          && (s.drains[j].exchanged >= 2 ==> s.total == 0)
          && (s.drains[j].exchanged >= 3 ==> s.max == 0))
  }

  lemma DrainedStep(s: State, step: Step, j: nat)
    requires Drained(s, j) && Enabled(s, step) && !step.Begin?
    ensures Drained(Next(s, step), j) && Next(s, step).observations == s.observations
  {
  }

  lemma {:induction false} StaysDrained(trace: seq<State>, steps: seq<Step>, b: nat, k: nat, j: nat)
    requires Run(trace, steps) && NoBegin(steps, b, k) && AllDone(trace[b]) && j >= |trace[b].drains|
    ensures Drained(trace[k], j) && trace[k].observations == trace[b].observations
    decreases k - b
  {
    if b < k {
      StaysDrained(trace, steps, b, k - 1, j);
      DrainedByStep(trace, steps, k - 1, j);
    }
  }

  lemma DrainedByStep(trace: seq<State>, steps: seq<Step>, k: nat, j: nat)
    requires Run(trace, steps) && k < |steps| && !steps[k].Begin? && Drained(trace[k], j)
    ensures Drained(trace[k + 1], j) && trace[k + 1].observations == trace[k].observations
  {
    StepOf(trace, steps, k);
    DrainedStep(trace[k], steps[k], j);
  }

  /** If every observation was over when a drain began, none has begun since and the drain is
      complete, then the window is empty, the drains alone account for every increment and
      everything added, below 2^64, and their maxima alone for every value observed. */
  lemma DrainTakesEverything(trace: seq<State>, steps: seq<Step>, b: nat, k: nat, j: nat)
    requires ClientRun(trace, steps) || OneWriterRun(trace, steps)
    requires b < |steps| && steps[b].BeginDrain? && j == |trace[b].drains| && AllDone(trace[b])
    requires NoBegin(steps, b, k) && j < |trace[k].drains| && trace[k].drains[j].exchanged == 3
    ensures var s := trace[k];
      && s.count == 0 && s.total == 0 && s.max == 0
      && (|s.observations| < 18446744073709551616 ==> DrainedCount(s.drains) == |s.observations|)
      && (Added(s.observations) < 18446744073709551616 ==> DrainedTotal(s.drains) == Added(s.observations))
      && Added(s.observations) == SumOf(s.observations)
      && forall i | 0 <= i < |s.observations| :: s.observations[i].value <= DrainedMax(s.drains)
  {
    StaysDrained(trace, steps, b, k, j);
    WindowsBalance(trace, steps, k);
    AllDoneCounts(trace[k].observations);
    forall i | 0 <= i < |trace[k].observations|
      ensures trace[k].observations[i].value <= DrainedMax(trace[k].drains)
    {
      if ClientRun(trace, steps) {
        NoMaximumLost(trace, steps, k, i);
      } else {
        OneWriterLosesNoMaximum(trace, steps, k, i);
      }
    }
  }

  function SumOf(os: seq<Observation>): nat
  {
    if os == [] then 0 else SumOf(os[..|os| - 1]) + os[|os| - 1].value
  }

  lemma {:induction false} AllDoneCounts(os: seq<Observation>)
    requires forall i | 0 <= i < |os| :: os[i].stage == Done
    ensures Increments(os) == |os| && Added(os) == SumOf(os)
  {
    if os != [] {
      AllDoneCounts(os[..|os| - 1]);
    }
  }
}
