/**
  The allocation bound of `Ownership` is attained for every peak and every number of threads:
  one thread borrows objects one at a time, each of the others gives 99 of them back and so
  keeps them in its local pool for good, and in the end the first borrows `lent` at once.
 */
module PoolSharpness {
  import opened Basics
  import opened ObjectPool
  import opened Scope
  import opened Ownership

  ghost predicate Reachable(s: State)
  {
    exists trace: seq<State>, steps: seq<Step> :: Run(trace, steps) && trace[|trace| - 1] == s
  }

  lemma ReachInitial()
    ensures Reachable(INITIAL)
  {
    var trace: seq<State>, steps: seq<Step> := [INITIAL], [];
    assert Run(trace, steps) && trace[|trace| - 1] == INITIAL;
  }

  lemma Extend(trace: seq<State>, steps: seq<Step>, step: Step) returns (longer: seq<State>)
    requires Run(trace, steps) && Enabled(trace[|trace| - 1], step)
    ensures longer == trace + [Next(trace[|trace| - 1], step)] && Run(longer, steps + [step])
  {
    longer := trace + [Next(trace[|trace| - 1], step)];
    var taken := steps + [step];
    forall i | 0 <= i < |taken|
      ensures Enabled(longer[i], taken[i]) && longer[i + 1] == Next(longer[i], taken[i])
    {
      if i < |steps| {
        assert longer[i] == trace[i] && longer[i + 1] == trace[i + 1];
      }
    }
  }

  lemma ReachNext(s: State, step: Step)
    requires Reachable(s) && Enabled(s, step)
    ensures Reachable(Next(s, step))
  {
    var trace: seq<State>, steps: seq<Step> :| Run(trace, steps) && trace[|trace| - 1] == s;
    var longer := Extend(trace, steps, step);
    assert longer[|longer| - 1] == Next(s, step);
  }

  /** `threads` threads are alive. Thread 0 has an empty pool, the ones below `k` hold 99
      objects each, thread `k` holds `kept`, the rest nothing; `out` objects are on loan. */
  ghost predicate Stocked(s: State, threads: nat, k: nat, kept: nat, out: nat)
  {
    && 1 <= k <= threads && kept <= 99 && (k == threads ==> kept == 0)
    && Pools(s.pool, threads, k, kept)
    && s.pool.created == 99 * (k - 1) + kept + out
    && Loans(s, out)
    && s.peakThreads == threads
  }

  ghost predicate Pools(p: Pool, threads: nat, k: nat, kept: nat)
  {
    && (forall t: nat :: t in p.locals <==> t < threads) && |p.locals| == threads
    && (forall t: nat | t < threads :: |p.locals[t]| == Size(k, kept, t))
    && p.global == []
  }

  function Size(k: nat, kept: nat, t: nat): nat
  {
    if t == 0 || t > k then 0 else if t < k then 99 else kept
  }

  ghost predicate Loans(s: State, out: nat)
  {
    && (forall c: nat :: c in s.ctxs <==> c < out)
    && (forall c: nat | c < out :: s.ctxs[c].Live? && s.ctxs[c].cleanups == [ReturnToPool])
    && Outstanding(s) == out
  }

  /** Thread 0 finds nothing anywhere and makes an object. */
  lemma LendMakes(p: Pool, threads: nat, k: nat, kept: nat)
    requires threads >= 1 && Pools(p, threads, k, kept)
    ensures Lend(p, 0) == Lent(p.created, p.(created := p.created + 1))
  {
    assert |p.locals[0]| == Size(k, kept, 0) == 0;
    LendFromNothing(p, 0);
  }

  lemma LendFromNothing(p: Pool, t: ThreadId)
    requires t in p.locals && p.locals[t] == [] && p.global == []
    ensures Lend(p, t) == Lent(p.created, p.(created := p.created + 1))
  {
    assert Last(0, p.global) == [] && DropLast(0, p.global) == [];
    assert p.locals[t := []] == p.locals;
  }

  lemma Borrow(s: State, threads: nat, k: nat, kept: nat, out: nat) returns (s': State)
    requires Reachable(s) && Stocked(s, threads, k, kept, out)
    ensures Reachable(s') && Stocked(s', threads, k, kept, out + 1) && s'.peakLent == Max(s.peakLent, out + 1)
  {
    ReachNext(s, Get(0, out));
    LendMakes(s.pool, threads, k, kept);
    s' := Next(s, Get(0, out));
  }

  /** What a return by thread `k` does to its pool while there is room. */
  lemma GiveBackKept(p: Pool, threads: nat, k: nat, kept: nat, item: Obj)
    requires 1 <= k < threads && kept < 99 && Pools(p, threads, k, kept)
    ensures Pools(GiveBack(p, k, item), threads, k, kept + 1) && GiveBack(p, k, item).created == p.created
  {
    var q := GiveBack(p, k, item);
    assert |p.locals[k]| == kept;
    assert q == p.(locals := p.locals[k := p.locals[k] + [item]]);
    assert q.locals.Keys == p.locals.Keys;
    assert |q.locals| == |q.locals.Keys| && |p.locals| == |p.locals.Keys|;
  }

  /** One object is borrowed by thread 0 and given back by thread `k`. */
  lemma Pass(s: State, threads: nat, k: nat, kept: nat) returns (s': State)
    requires Reachable(s) && Stocked(s, threads, k, kept, 0) && k < threads && kept < 99 && s.peakLent <= 1
    ensures Reachable(s') && Stocked(s', threads, k, kept + 1, 0) && s'.peakLent <= 1
  {
    var m := Borrow(s, threads, k, kept, 0);
    ReachNext(m, ScopeExit(k, 0));
    ScopeExitContents(m, k, 0);
    NextPeaks(m, ScopeExit(k, 0));
    GiveBackKept(m.pool, threads, k, kept, m.ctxs[0].item);
    s' := Next(m, ScopeExit(k, 0));
    assert Loans(s', 0);
  }

  lemma {:induction false} FillOne(s: State, threads: nat, k: nat, kept: nat) returns (s': State)
    requires Reachable(s) && Stocked(s, threads, k, kept, 0) && k < threads && s.peakLent <= 1
    ensures Reachable(s') && Stocked(s', threads, k + 1, 0, 0) && s'.peakLent <= 1
    decreases 99 - kept
  {
    if kept == 99 {
      s' := s;
      forall t: nat | t < threads
        ensures |s.pool.locals[t]| == Size(k + 1, 0, t)
      {
        assert |s.pool.locals[t]| == Size(k, kept, t);
      }
    } else {
      s' := Pass(s, threads, k, kept);
      s' := FillOne(s', threads, k, kept + 1);
    }
  }

  lemma {:induction false} FillAll(s: State, threads: nat, k: nat) returns (s': State)
    requires Reachable(s) && Stocked(s, threads, k, 0, 0) && s.peakLent <= 1
    ensures Reachable(s') && Stocked(s', threads, threads, 0, 0) && s'.peakLent <= 1
    decreases threads - k
  {
    s' := s;
    if k < threads {
      s' := FillOne(s, threads, k, 0);
      s' := FillAll(s', threads, k + 1);
    }
  }

  lemma {:induction false} StartAll(threads: nat) returns (s: State)
    requires threads >= 1
    ensures Reachable(s) && Stocked(s, threads, 1, 0, 0) && s.peakLent == 0
  {
    var t := threads - 1;
    if t == 0 {
      ReachInitial();
      s := INITIAL;
    } else {
      s := StartAll(t);
    }
    ReachNext(s, StartThread(t));
    var s' := Next(s, StartThread(t));
    assert s'.pool.locals == s.pool.locals[t := []];
    MapAdd(s.pool.locals, t, []);
    s := s';
  }

  lemma {:induction false} BorrowMany(s: State, threads: nat, out: nat, lent: nat) returns (s': State)
    requires Reachable(s) && Stocked(s, threads, threads, 0, out)
    requires out <= lent && lent >= 1 && s.peakLent <= Max(1, out)
    ensures Reachable(s') && Stocked(s', threads, threads, 0, lent) && s'.peakLent <= lent
    decreases lent - out
  {
    s' := s;
    if out < lent {
      s' := Borrow(s, threads, threads, 0, out);
      s' := BorrowMany(s', threads, out + 1, lent);
    }
  }

  lemma RunPeak(s: State)
    requires Reachable(s)
    ensures Outstanding(s) <= s.peakLent
  {
    var trace: seq<State>, steps: seq<Step> :| Run(trace, steps) && trace[|trace| - 1] == s;
    RunInv(trace, steps, |trace| - 1);
  }

  /** For every peak and every number of threads some run meets the allocation bound with
      equality. */
  lemma AllocationBoundIsSharp(lent: nat, threads: nat)
    requires lent >= 1 && threads >= 1
    ensures exists s :: Reachable(s) && s.peakLent == lent && s.peakThreads == threads
                     && s.pool.created == lent + 99 * (threads - 1)
  {
    var s := StartAll(threads);
    s := FillAll(s, threads, 1);
    s := BorrowMany(s, threads, 0, lent);
    RunPeak(s);
    assert Reachable(s);
  }
}
