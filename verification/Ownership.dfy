/**
  Every run of the pool together with its contexts and the holder: gets, moves, holds,
  releases, scope exits and thread exits, in any interleaving, each as one step. Parking a
  context that was moved from, under the null key, owns nothing and leaves no trace here.
 */
module Ownership {
  import opened Basics
  import opened Totals
  import opened ObjectPool
  import opened Scope

  type CtxId = nat

  /** One executed cleanup. */
  datatype Ran = Ran(lend: nat, item: Obj, cleanup: Cleanup)

  /** `lends` counts the loans made; `returned` and `log` are the histories of loans given
      back and of cleanups run; the peaks are over the run so far. */
  datatype State = State(
    pool: Pool,
    ctxs: map<CtxId, Context>,
    holder: map<Obj, Context>,
    lends: nat,
    returned: seq<nat>,
    log: seq<Ran>,
    peakLent: int,
    peakThreads: nat)

  datatype Step =
    | StartThread(t: ThreadId)
    | ExitThread(t: ThreadId)
    | Get(t: ThreadId, c: CtxId)
    | Register(c: CtxId, tag: nat)
    | MoveConstruct(from: CtxId, to: CtxId)
    | Hold(t: ThreadId, c: CtxId)
    | Release(key: Obj, to: CtxId)
    | Erase(t: ThreadId, key: Obj)
    | ScopeExit(t: ThreadId, c: CtxId)

  const INITIAL: State := State(Pool([], map[], 0), map[], map[], 0, [], [], 0, 0)

  predicate Enabled(s: State, step: Step)
  {
    match step
    case StartThread(t) => t !in s.pool.locals
    case ExitThread(t) => t in s.pool.locals
    case Get(t, c) => t in s.pool.locals && c !in s.ctxs
    case Register(c, _) => c in s.ctxs
    case MoveConstruct(c, d) => c in s.ctxs && d !in s.ctxs
    case Hold(t, c) => t in s.pool.locals && c in s.ctxs
    case Release(_, d) => d !in s.ctxs
    case Erase(t, _) => t in s.pool.locals
    case ScopeExit(t, c) => t in s.pool.locals && c in s.ctxs
  }

  function RunOne(s: State, t: ThreadId, lend: nat, item: Obj, fn: Cleanup): State
    requires t in s.pool.locals
    ensures t in RunOne(s, t, lend, item, fn).pool.locals
  {
    var s := s.(log := s.log + [Ran(lend, item, fn)]);
    if fn.ReturnToPool? then s.(pool := GiveBack(s.pool, t, item), returned := s.returned + [lend]) else s
  }

  function RunAll(s: State, t: ThreadId, lend: nat, item: Obj, fns: seq<Cleanup>): (r: State)
    requires t in s.pool.locals
    ensures r.peakLent == s.peakLent && r.peakThreads == s.peakThreads
    ensures r.ctxs == s.ctxs && r.holder == s.holder && r.lends == s.lends
    decreases |fns|
  {
    if fns == [] then s else RunAll(RunOne(s, t, lend, item, fns[0]), t, lend, item, fns[1..])
  }

  /** The destructor of a context, on thread `t`. */
  function Destroy(s: State, t: ThreadId, ctx: Context): State
    requires t in s.pool.locals
  {
    if ctx.Live? then RunAll(s, t, ctx.lend, ctx.item, Reversed(ctx.cleanups)) else s
  }

  function Apply(s: State, step: Step): State
    requires Enabled(s, step)
  {
    match step
    case StartThread(t) => s.(pool := s.pool.(locals := s.pool.locals[t := []]))
    case ExitThread(t) => s.(pool := Retire(s.pool, t))
    case Get(t, c) =>
      var r := Lend(s.pool, t);
      s.(pool := r.pool, ctxs := s.ctxs[c := Live(s.lends, r.item, [ReturnToPool])], lends := s.lends + 1)
    case Register(c, tag) =>
      s.(ctxs := s.ctxs[c := Registered(s.ctxs[c], User(tag))])
    case MoveConstruct(c, d) => s.(ctxs := s.ctxs[d := s.ctxs[c]][c := Moved])
    case Hold(t, c) =>
      var ctx := s.ctxs[c];
      var s := s.(ctxs := s.ctxs[c := Moved]);
      if ctx.Moved? then s
      else if ctx.item in s.holder then Destroy(s, t, ctx) else s.(holder := s.holder[ctx.item := ctx])
    case Release(key, d) =>
      if key in s.holder then s.(holder := s.holder - {key}, ctxs := s.ctxs[d := s.holder[key]]) else s
    case Erase(t, key) =>
      if key in s.holder then Destroy(s.(holder := s.holder - {key}), t, s.holder[key]) else s
    case ScopeExit(t, c) => Destroy(s.(ctxs := s.ctxs - {c}), t, s.ctxs[c])
  }

  /** Loans not yet given back. */
  function Outstanding(s: State): int
  {
    s.lends - |s.returned|
  }

  function Next(s: State, step: Step): State
    requires Enabled(s, step)
  {
    var s := Apply(s, step);
    s.(peakLent := Max(s.peakLent, Outstanding(s)), peakThreads := Max(s.peakThreads, |s.pool.locals|))
  }

  ghost predicate Run(trace: seq<State>, steps: seq<Step>)
  {
    && |trace| == |steps| + 1
    && trace[0] == INITIAL
    && forall i | 0 <= i < |steps| :: Enabled(trace[i], steps[i]) && trace[i + 1] == Next(trace[i], steps[i])
  }

  // ---------------------------------------------------------------- bags over contexts

  function ItemOf(ctx: Context): seq<nat>
  {
    if ctx.Live? then [ctx.item] else []
  }

  function LendOf(ctx: Context): seq<nat>
  {
    if ctx.Live? then [ctx.lend] else []
  }

  function Project(m: map<nat, Context>, f: Context -> seq<nat>): map<nat, seq<nat>>
  {
    map k | k in m :: f(m[k])
  }

  ghost function BagOf(m: map<nat, Context>, f: Context -> seq<nat>): multiset<nat>
  {
    Total(Project(m, f))
  }

  lemma BagAdd(m: map<nat, Context>, k: nat, v: Context, f: Context -> seq<nat>)
    requires k !in m
    ensures BagOf(m[k := v], f) == BagOf(m, f) + multiset(f(v))
  {
    assert Project(m[k := v], f) == Project(m, f)[k := f(v)];
    TotalAdd(Project(m, f), k, f(v));
  }

  lemma BagRemove(m: map<nat, Context>, k: nat, f: Context -> seq<nat>)
    requires k in m
    ensures BagOf(m, f) == BagOf(m - {k}, f) + multiset(f(m[k]))
  {
    assert Project(m - {k}, f) == Project(m, f) - {k};
    TotalRemove(Project(m, f), k);
  }

  lemma BagSet(m: map<nat, Context>, k: nat, v: Context, f: Context -> seq<nat>)
    requires k in m
    ensures BagOf(m[k := v], f) == BagOf(m - {k}, f) + multiset(f(v))
    ensures BagOf(m, f) == BagOf(m - {k}, f) + multiset(f(m[k]))
  {
    BagRemove(m, k, f);
    assert m[k := v] - {k} == m - {k};
    BagRemove(m[k := v], k, f);
  }

  /** Everything out on loan, in contexts or parked. */
  ghost function Held(s: State, f: Context -> seq<nat>): multiset<nat>
  {
    BagOf(s.ctxs, f) + BagOf(s.holder, f)
  }

  // ---------------------------------------------------------------- the invariant

  /** The pool's own cleanup was registered first, so it runs last. */
  ghost predicate Shaped(ctx: Context)
  {
    ctx.Live? ==>
      ctx.cleanups != [] && ctx.cleanups[0].ReturnToPool? && forall i | 0 < i < |ctx.cleanups| :: ctx.cleanups[i].User?
  }

  ghost predicate ShapeInv(s: State)
  {
    && (forall c <- s.ctxs :: Shaped(s.ctxs[c]))
    && (forall k <- s.holder :: s.holder[k].Live? && s.holder[k].item == k && Shaped(s.holder[k]))
  }

  /** Objects: pooled or held, each once. Loans: held or returned, each once. */
  ghost predicate Conserved(s: State)
  {
    && Pooled(s.pool) + Held(s, ItemOf) == Iota(s.pool.created)
    && Held(s, LendOf) + multiset(s.returned) == Iota(s.lends)
    && |Held(s, ItemOf)| == |Held(s, LendOf)|
  }

  ghost predicate BoundInv(s: State)
  {
    && s.peakLent >= Outstanding(s) && s.peakThreads >= |s.pool.locals|
    && (s.pool.created == 0 || s.pool.created <= s.peakLent + (LOCAL_MAX_CAPACITY - 1) * (s.peakThreads - 1))
  }

  ghost predicate Inv(s: State)
  {
    ShapeInv(s) && LocalsSmall(s.pool) && Conserved(s) && BoundInv(s)
  }

  // ---------------------------------------------------------------- what destruction does

  function LogOf(lend: nat, item: Obj, fns: seq<Cleanup>): seq<Ran>
  {
    seq(|fns|, i requires 0 <= i < |fns| => Ran(lend, item, fns[i]))
  }

  lemma {:induction false} RunUsersThenReturn(s: State, t: ThreadId, lend: nat, item: Obj, fns: seq<Cleanup>)
    requires t in s.pool.locals
    requires fns != [] && fns[|fns| - 1].ReturnToPool? && forall i | 0 <= i < |fns| - 1 :: fns[i].User?
    ensures RunAll(s, t, lend, item, fns)
         == s.(pool := GiveBack(s.pool, t, item), returned := s.returned + [lend],
               log := s.log + LogOf(lend, item, fns))
    decreases |fns|
  {
    var s' := RunOne(s, t, lend, item, fns[0]);
    if |fns| == 1 {
      assert RunAll(s', t, lend, item, fns[1..]) == s';
      assert LogOf(lend, item, fns) == [Ran(lend, item, fns[0])];
    } else {
      RunUsersThenReturn(s', t, lend, item, fns[1..]);
      assert LogOf(lend, item, fns) == [Ran(lend, item, fns[0])] + LogOf(lend, item, fns[1..]);
      assert s.log + ([Ran(lend, item, fns[0])] + LogOf(lend, item, fns[1..])) == s'.log + LogOf(lend, item, fns[1..]);
    }
  }

  /** Destroying an owning context runs every cleanup once, last registered first, and gives
      the object back as the very last act. */
  lemma DestroyEffect(s: State, t: ThreadId, ctx: Context)
    requires t in s.pool.locals && ctx.Live? && Shaped(ctx)
    ensures Destroy(s, t, ctx)
         == s.(pool := GiveBack(s.pool, t, ctx.item), returned := s.returned + [ctx.lend],
               log := s.log + LogOf(ctx.lend, ctx.item, Reversed(ctx.cleanups)))
  {
    RunUsersThenReturn(s, t, ctx.lend, ctx.item, Reversed(ctx.cleanups));
  }

  // ---------------------------------------------------------------- preservation

  /** Ownership changes hands inside the held part; nothing else moves. */
  ghost predicate Shuffled(s: State, s': State)
  {
    && s'.pool == s.pool && s'.lends == s.lends && s'.returned == s.returned
    && Held(s', ItemOf) == Held(s, ItemOf) && Held(s', LendOf) == Held(s, LendOf)
  }

  /** Exactly the loan of `ctx` leaves the held part. */
  ghost predicate Dropped(s: State, s': State, ctx: Context)
  {
    && s'.pool == s.pool && s'.lends == s.lends && s'.returned == s.returned
    && Held(s, ItemOf) == Held(s', ItemOf) + multiset(ItemOf(ctx))
    && Held(s, LendOf) == Held(s', LendOf) + multiset(LendOf(ctx))
  }

  /** The held part depends on the contexts and the holder only. */
  lemma SameHeld(s: State, s': State)
    requires s'.ctxs == s.ctxs && s'.holder == s.holder
    ensures Held(s', ItemOf) == Held(s, ItemOf) && Held(s', LendOf) == Held(s, LendOf)
  {
  }

  /** The books after the loan of `ctx` left the held part and came back to the pools. */
  lemma GivenBackBooks(s: State, mid: State, s': State, t: ThreadId, ctx: Context)
    requires LocalsSmall(s.pool) && Conserved(s) && Dropped(s, mid, ctx) && ctx.Live? && t in s.pool.locals
    requires s'.pool == GiveBack(s.pool, t, ctx.item) && s'.returned == s.returned + [ctx.lend]
    requires s'.lends == s.lends && s'.ctxs == mid.ctxs && s'.holder == mid.holder
    ensures Conserved(s')
  {
    GiveBackKeeps(s.pool, t, ctx.item);
    SameHeld(mid, s');
    assert multiset(s'.returned) == multiset(s.returned) + multiset{ctx.lend};
    ReturnBooks(Pooled(s.pool), Held(mid, ItemOf), ctx.item, Held(mid, LendOf), multiset(s.returned), ctx.lend);
  }

  /** A moved-from context has nothing to give back. */
  lemma NothingDropped(s: State, mid: State)
    requires Conserved(s) && Dropped(s, mid, Moved)
    ensures Conserved(mid)
  {
    assert multiset(ItemOf(Moved)) == multiset{} && multiset(LendOf(Moved)) == multiset{};
    AddNothing(Held(mid, ItemOf));
    AddNothing(Held(mid, LendOf));
  }

  lemma DropThenDestroy(s: State, mid: State, t: ThreadId, ctx: Context)
    requires LocalsSmall(s.pool) && Conserved(s) && Dropped(s, mid, ctx) && Shaped(ctx) && t in s.pool.locals
    ensures var s' := Destroy(mid, t, ctx);
            && LocalsSmall(s'.pool) && Conserved(s') && s'.ctxs == mid.ctxs && s'.holder == mid.holder
            && s'.pool.created == s.pool.created && s'.pool.locals.Keys == s.pool.locals.Keys
            && Outstanding(s') <= Outstanding(s)
            && s'.peakLent == mid.peakLent && s'.peakThreads == mid.peakThreads
  {
    var s' := Destroy(mid, t, ctx);
    if ctx.Live? {
      DestroyEffect(mid, t, ctx);
      assert Conserved(s') by { GivenBackBooks(s, mid, s', t, ctx); }
      GiveBackKeeps(s.pool, t, ctx.item);
    } else {
      NothingDropped(s, mid);
    }
  }

  lemma ReturnBooks(pooled: multiset<nat>, items: multiset<nat>, x: nat,
                    lends: multiset<nat>, back: multiset<nat>, l: nat)
    requires |items + multiset{x}| == |lends + multiset{l}|
    ensures pooled + multiset{x} + items == pooled + (items + multiset{x})
    ensures lends + (back + multiset{l}) == lends + multiset{l} + back
    ensures |items| == |lends|
  {
    Reassociate(pooled, multiset{x}, items);
    Reassociate(lends, multiset{l}, back);
  }

  lemma Reassociate(a: multiset<nat>, b: multiset<nat>, c: multiset<nat>)
    ensures a + b + c == a + (c + b) && a + b + c == a + c + b
  {
  }

  lemma MoveShuffles(s: State, c: CtxId, d: CtxId, f: Context -> seq<nat>)
    requires c in s.ctxs && d !in s.ctxs && f(Moved) == []
    ensures BagOf(s.ctxs[d := s.ctxs[c]][c := Moved], f) == BagOf(s.ctxs, f)
  {
    var m := s.ctxs[d := s.ctxs[c]];
    BagAdd(s.ctxs, d, s.ctxs[c], f);
    BagSet(m, c, Moved, f);
    Cancel(BagOf(m - {c}, f), BagOf(s.ctxs, f), multiset(f(s.ctxs[c])));
    assert multiset(f(Moved)) == multiset{};
  }

  lemma Cancel(a: multiset<nat>, b: multiset<nat>, x: multiset<nat>)
    requires a + x == b + x
    ensures a == b
  {
    forall e ensures a[e] == b[e] {
      assert (a + x)[e] == (b + x)[e];
    }
  }

  lemma HoldShuffles(s: State, c: CtxId, f: Context -> seq<nat>)
    requires c in s.ctxs && s.ctxs[c].Live? && s.ctxs[c].item !in s.holder && f(Moved) == []
    ensures BagOf(s.ctxs[c := Moved], f) + BagOf(s.holder[s.ctxs[c].item := s.ctxs[c]], f) == Held(s, f)
  {
    var ctx := s.ctxs[c];
    BagSet(s.ctxs, c, Moved, f);
    BagAdd(s.holder, ctx.item, ctx, f);
    assert multiset(f(Moved)) == multiset{};
    Reassociate(BagOf(s.ctxs - {c}, f), multiset(f(ctx)), BagOf(s.holder, f));
  }

  lemma ReleaseShuffles(s: State, key: Obj, d: CtxId, f: Context -> seq<nat>)
    requires key in s.holder && d !in s.ctxs
    ensures BagOf(s.ctxs[d := s.holder[key]], f) + BagOf(s.holder - {key}, f) == Held(s, f)
  {
    BagAdd(s.ctxs, d, s.holder[key], f);
    BagRemove(s.holder, key, f);
    Reassociate(BagOf(s.ctxs, f), multiset(f(s.holder[key])), BagOf(s.holder - {key}, f));
  }

  lemma RegisterShuffles(s: State, c: CtxId, v: Context, f: Context -> seq<nat>)
    requires c in s.ctxs && f(v) == f(s.ctxs[c])
    ensures BagOf(s.ctxs[c := v], f) == BagOf(s.ctxs, f)
  {
    BagSet(s.ctxs, c, v, f);
  }

  /** An object held by a context is not parked as well. */
  lemma NotParked(s: State, c: CtxId)
    requires ShapeInv(s) && Conserved(s) && c in s.ctxs && s.ctxs[c].Live?
    ensures s.ctxs[c].item !in s.holder
  {
    var o := s.ctxs[c].item;
    if o in s.holder {
      BagRemove(s.ctxs, c, ItemOf);
      BagRemove(s.holder, o, ItemOf);
      assert multiset(ItemOf(s.ctxs[c]))[o] == 1 && multiset(ItemOf(s.holder[o]))[o] == 1;
      assert (Pooled(s.pool) + Held(s, ItemOf))[o] >= 2;
      IotaOnce(s.pool.created, o);
    }
  }

  lemma ShuffleKeeps(s: State, s': State)
    requires LocalsSmall(s.pool) && Conserved(s) && BoundInv(s) && Shuffled(s, s')
    requires s'.peakLent == s.peakLent && s'.peakThreads == s.peakThreads
    ensures LocalsSmall(s'.pool) && Conserved(s') && BoundInv(s')
  {
  }

  lemma GetHeld(s: State, c: CtxId, ctx: Context, x: nat, f: Context -> seq<nat>)
    requires c !in s.ctxs && f(ctx) == [x]
    ensures BagOf(s.ctxs[c := ctx], f) + BagOf(s.holder, f) == Held(s, f) + multiset{x}
  {
    BagAdd(s.ctxs, c, ctx, f);
    Reassociate(BagOf(s.ctxs, f), multiset{x}, BagOf(s.holder, f));
  }

  lemma GetItems(pooled: multiset<nat>, pooled': multiset<nat>, held: multiset<nat>, x: nat, n: nat, n': nat)
    requires pooled + held == Iota(n)
    requires (n' == n && pooled == pooled' + multiset{x}) || (n' == n + 1 && x == n && pooled == pooled')
    ensures pooled' + (held + multiset{x}) == Iota(n')
  {
    Reassociate(pooled', multiset{x}, held);
  }

  /** What a new loan adds to the held part. */
  lemma HeldAfterLoan(s: State, s': State, c: CtxId, x: Obj, l: nat)
    requires c !in s.ctxs && s'.ctxs == s.ctxs[c := Live(l, x, [ReturnToPool])] && s'.holder == s.holder
    ensures Held(s', ItemOf) == Held(s, ItemOf) + multiset{x}
    ensures Held(s', LendOf) == Held(s, LendOf) + multiset{l}
  {
    var ctx := Live(l, x, [ReturnToPool]);
    GetHeld(s, c, ctx, x, ItemOf);
    GetHeld(s, c, ctx, l, LendOf);
  }

  /** The books after a loan of `x`, either taken out of the pools or newly made. */
  lemma LoanConserved(s: State, s': State, x: Obj)
    requires Conserved(s) && s'.returned == s.returned && s'.lends == s.lends + 1
    requires Held(s', ItemOf) == Held(s, ItemOf) + multiset{x}
    requires Held(s', LendOf) == Held(s, LendOf) + multiset{s.lends}
    requires
      var p, q := s.pool, s'.pool;
      (q.created == p.created && Pooled(p) == Pooled(q) + multiset{x})
      || (q.created == p.created + 1 && x == p.created && Pooled(p) == Pooled(q))
    ensures Conserved(s')
  {
    LoanBooks(Pooled(s.pool), Pooled(s'.pool), Held(s, ItemOf), x, s.pool.created, s'.pool.created,
              Held(s, LendOf), multiset(s.returned), s.lends);
  }

  lemma LoanBooks(pooled: multiset<nat>, pooled': multiset<nat>, items: multiset<nat>, x: nat, n: nat, n': nat,
                  lends: multiset<nat>, back: multiset<nat>, m: nat)
    requires pooled + items == Iota(n)
    requires (n' == n && pooled == pooled' + multiset{x}) || (n' == n + 1 && x == n && pooled == pooled')
    requires lends + back == Iota(m) && |items| == |lends|
    ensures pooled' + (items + multiset{x}) == Iota(n')
    ensures lends + multiset{m} + back == Iota(m + 1)
    ensures |items + multiset{x}| == |lends + multiset{m}|
  {
    GetItems(pooled, pooled', items, x, n, n');
    Reassociate(lends, multiset{m}, back);
  }

  lemma GetConserved(s: State, t: ThreadId, c: CtxId)
    requires LocalsSmall(s.pool) && Conserved(s) && Enabled(s, Get(t, c))
    ensures Conserved(Apply(s, Get(t, c)))
  {
    var s', x := Apply(s, Get(t, c)), Lend(s.pool, t).item;
    HeldAfterLoan(s, s', c, x, s.lends);
    LendKeeps(s.pool, t);
    LoanConserved(s, s', x);
  }

  /** The books in numbers. */
  lemma Balance(s: State)
    requires Conserved(s)
    ensures Outstanding(s) == |Held(s, ItemOf)|
    ensures s.pool.created == |s.pool.global| + |Total(s.pool.locals)| + Outstanding(s)
  {
    IotaOnce(s.pool.created, 0);
    IotaOnce(s.lends, 0);
    assert |Held(s, LendOf) + multiset(s.returned)| == |Held(s, LendOf)| + |s.returned|;
    assert |Pooled(s.pool) + Held(s, ItemOf)| == |Pooled(s.pool)| + |Held(s, ItemOf)|;
    assert |Pooled(s.pool)| == |s.pool.global| + |Total(s.pool.locals)|;
  }

  /** The only step that makes an object: both pools of the caller were empty, so every
      other object is out on loan or in one of the other threads' pools. */
  lemma GetBound(s: State, t: ThreadId, c: CtxId)
    requires LocalsSmall(s.pool) && Conserved(s) && BoundInv(s) && Enabled(s, Get(t, c))
    ensures BoundInv(Next(s, Get(t, c)))
  {
    var r := Lend(s.pool, t);
    LendKeeps(s.pool, t);
    assert |r.pool.locals| == |r.pool.locals.Keys| == |s.pool.locals.Keys| == |s.pool.locals|;
    Balance(s);
    if r.pool.created != s.pool.created {
      OthersBound(s.pool, t);
    }
  }

  lemma GetKeeps(s: State, t: ThreadId, c: CtxId)
    requires Inv(s) && Enabled(s, Get(t, c))
    ensures Inv(Next(s, Get(t, c)))
  {
    var a, s' := Apply(s, Get(t, c)), Next(s, Get(t, c));
    assert LocalsSmall(s'.pool) by { LendKeeps(s.pool, t); }
    assert ShapeInv(s') by { assert Shaped(s'.ctxs[c]); }
    assert Conserved(s') by { GetConserved(s, t, c); PeaksOnly(a, s'); }
    GetBound(s, t, c);
  }

  lemma PeaksOnly(s: State, s': State)
    requires Conserved(s) && s' == s.(peakLent := s'.peakLent, peakThreads := s'.peakThreads)
    ensures Conserved(s')
  {
    assert Held(s', ItemOf) == Held(s, ItemOf) && Held(s', LendOf) == Held(s, LendOf);
  }

  /** Every context is destroyed by its scope or by the holder, never twice. */
  lemma DestroyKeeps(s: State, mid: State, t: ThreadId, ctx: Context, step: Step)
    requires Inv(s) && Enabled(s, step) && t in s.pool.locals
    requires Dropped(s, mid, ctx) && Shaped(ctx) && ShapeInv(mid)
    requires Apply(s, step) == Destroy(mid, t, ctx)
    requires mid.peakLent == s.peakLent && mid.peakThreads == s.peakThreads
    ensures Inv(Next(s, step))
  {
    DropThenDestroy(s, mid, t, ctx);
    var s' := Destroy(mid, t, ctx);
    PeaksOnly(s', Next(s, step));
    assert BoundInv(Next(s, step)) by { BoundStays(s, Next(s, step)); }
  }

  lemma BoundStays(s: State, s': State)
    requires BoundInv(s) && s'.pool.created == s.pool.created && s'.pool.locals.Keys == s.pool.locals.Keys
    requires Outstanding(s') <= Outstanding(s)
    requires s'.peakLent == Max(s.peakLent, Outstanding(s')) && s'.peakThreads == Max(s.peakThreads, |s'.pool.locals|)
    ensures BoundInv(s')
  {
    assert |s'.pool.locals| == |s'.pool.locals.Keys| == |s.pool.locals.Keys| == |s.pool.locals|;
  }

  lemma ExitDropped(s: State, c: CtxId)
    requires c in s.ctxs
    ensures Dropped(s, s.(ctxs := s.ctxs - {c}), s.ctxs[c])
  {
    ExitDrops(s, c, ItemOf);
    ExitDrops(s, c, LendOf);
  }

  lemma ScopeExitKeeps(s: State, t: ThreadId, c: CtxId)
    requires Inv(s) && Enabled(s, ScopeExit(t, c))
    ensures Inv(Next(s, ScopeExit(t, c)))
  {
    var mid := s.(ctxs := s.ctxs - {c});
    assert ShapeInv(mid);
    ExitDropped(s, c);
    DestroyKeeps(s, mid, t, s.ctxs[c], ScopeExit(t, c));
  }

  lemma EraseDrops(s: State, key: Obj, f: Context -> seq<nat>)
    requires key in s.holder
    ensures Held(s, f) == BagOf(s.ctxs, f) + BagOf(s.holder - {key}, f) + multiset(f(s.holder[key]))
  {
    BagRemove(s.holder, key, f);
  }

  lemma ExitDrops(s: State, c: CtxId, f: Context -> seq<nat>)
    requires c in s.ctxs
    ensures Held(s, f) == BagOf(s.ctxs - {c}, f) + BagOf(s.holder, f) + multiset(f(s.ctxs[c]))
  {
    BagRemove(s.ctxs, c, f);
    Reassociate(BagOf(s.ctxs - {c}, f), multiset(f(s.ctxs[c])), BagOf(s.holder, f));
  }

  lemma EraseDropped(s: State, key: Obj)
    requires key in s.holder
    ensures Dropped(s, s.(holder := s.holder - {key}), s.holder[key])
  {
    EraseDrops(s, key, ItemOf);
    EraseDrops(s, key, LendOf);
  }

  lemma EraseKeeps(s: State, t: ThreadId, key: Obj)
    requires Inv(s) && Enabled(s, Erase(t, key)) && key in s.holder
    ensures Inv(Next(s, Erase(t, key)))
  {
    var mid := s.(holder := s.holder - {key});
    assert ShapeInv(mid);
    EraseDropped(s, key);
    DestroyKeeps(s, mid, t, s.holder[key], Erase(t, key));
  }

  /** Steps that only move ownership around. */
  lemma ShuffleStep(s: State, step: Step)
    requires Inv(s) && Enabled(s, step) && ShapeInv(Apply(s, step)) && Shuffled(s, Apply(s, step))
    requires Apply(s, step).peakLent == s.peakLent && Apply(s, step).peakThreads == s.peakThreads
    ensures Inv(Next(s, step))
  {
    ShuffleKeeps(s, Apply(s, step));
    PeaksOnly(Apply(s, step), Next(s, step));
  }

  lemma MoveKeeps(s: State, c: CtxId, d: CtxId)
    requires Inv(s) && Enabled(s, MoveConstruct(c, d))
    ensures Inv(Next(s, MoveConstruct(c, d)))
  {
    MoveShuffled(s, c, d);
    ShuffleStep(s, MoveConstruct(c, d));
  }

  lemma MoveShuffled(s: State, c: CtxId, d: CtxId)
    requires c in s.ctxs && d !in s.ctxs
    ensures Shuffled(s, Apply(s, MoveConstruct(c, d)))
  {
    MoveShuffles(s, c, d, ItemOf);
    MoveShuffles(s, c, d, LendOf);
  }

  lemma HoldShuffled(s: State, t: ThreadId, c: CtxId)
    requires Enabled(s, Hold(t, c)) && s.ctxs[c].Live? && s.ctxs[c].item !in s.holder
    ensures Shuffled(s, Apply(s, Hold(t, c)))
  {
    assert Apply(s, Hold(t, c)) == s.(ctxs := s.ctxs[c := Moved], holder := s.holder[s.ctxs[c].item := s.ctxs[c]]);
    HoldShuffles(s, c, ItemOf);
    HoldShuffles(s, c, LendOf);
  }

  lemma HoldKeeps(s: State, t: ThreadId, c: CtxId)
    requires Inv(s) && Enabled(s, Hold(t, c))
    ensures Inv(Next(s, Hold(t, c)))
  {
    if s.ctxs[c].Live? {
      NotParked(s, c);
      HoldShape(s, t, c);
      HoldShuffled(s, t, c);
      ShuffleStep(s, Hold(t, c));
    } else {
      HoldMoved(s, t, c);
      PeaksOnly(s, Next(s, Hold(t, c)));
    }
  }

  lemma HoldMoved(s: State, t: ThreadId, c: CtxId)
    requires Enabled(s, Hold(t, c)) && s.ctxs[c].Moved?
    ensures Apply(s, Hold(t, c)) == s
  {
    assert s.ctxs[c := Moved] == s.ctxs;
  }

  lemma HoldShape(s: State, t: ThreadId, c: CtxId)
    requires ShapeInv(s) && Enabled(s, Hold(t, c)) && s.ctxs[c].Live? && s.ctxs[c].item !in s.holder
    ensures var s' := Apply(s, Hold(t, c));
            ShapeInv(s') && s'.peakLent == s.peakLent && s'.peakThreads == s.peakThreads
  {
    assert Shaped(s.ctxs[c]);
  }

  lemma ReleaseShuffled(s: State, key: Obj, d: CtxId)
    requires d !in s.ctxs
    ensures Shuffled(s, Apply(s, Release(key, d)))
  {
    HeldAfterRelease(s, key, d, ItemOf);
    HeldAfterRelease(s, key, d, LendOf);
  }

  lemma HeldAfterRelease(s: State, key: Obj, d: CtxId, f: Context -> seq<nat>)
    requires d !in s.ctxs
    ensures Held(Apply(s, Release(key, d)), f) == Held(s, f)
  {
    if key in s.holder {
      ReleaseShuffles(s, key, d, f);
    }
  }

  lemma ReleaseKeeps(s: State, key: Obj, d: CtxId)
    requires Inv(s) && Enabled(s, Release(key, d))
    ensures Inv(Next(s, Release(key, d)))
  {
    ReleaseShape(s, key, d);
    ReleaseShuffled(s, key, d);
    ShuffleStep(s, Release(key, d));
  }

  lemma ReleaseShape(s: State, key: Obj, d: CtxId)
    requires ShapeInv(s) && d !in s.ctxs
    ensures var s' := Apply(s, Release(key, d));
            ShapeInv(s') && s'.peakLent == s.peakLent && s'.peakThreads == s.peakThreads
  {
  }

  lemma RegisterShuffled(s: State, c: CtxId, tag: nat)
    requires Enabled(s, Register(c, tag))
    ensures Shuffled(s, Apply(s, Register(c, tag)))
  {
    var v := Registered(s.ctxs[c], User(tag));
    RegisterShuffles(s, c, v, ItemOf);
    RegisterShuffles(s, c, v, LendOf);
  }

  lemma RegisterKeeps(s: State, c: CtxId, tag: nat)
    requires Inv(s) && Enabled(s, Register(c, tag))
    ensures Inv(Next(s, Register(c, tag)))
  {
    RegisterShape(s, c, tag);
    RegisterShuffled(s, c, tag);
    ShuffleStep(s, Register(c, tag));
  }

  lemma RegisterShape(s: State, c: CtxId, tag: nat)
    requires ShapeInv(s) && Enabled(s, Register(c, tag))
    ensures var s' := Apply(s, Register(c, tag));
            ShapeInv(s') && s'.peakLent == s.peakLent && s'.peakThreads == s.peakThreads
  {
    assert Shaped(s.ctxs[c]);
  }

  /** Starting or ending a thread moves nothing into or out of the pools. */
  lemma ThreadPools(p: Pool, q: Pool, t: ThreadId)
    requires LocalsSmall(p)
    requires (t !in p.locals && q == p.(locals := p.locals[t := []])) || (t in p.locals && q == Retire(p, t))
    ensures Pooled(q) == Pooled(p) && LocalsSmall(q) && q.created == p.created
  {
    if t in p.locals {
      RetireKeeps(p, t);
    } else {
      TotalAdd(p.locals, t, []);
      assert multiset(q.locals[t]) == multiset{};
    }
  }

  lemma ThreadKeeps(s: State, step: Step)
    requires Inv(s) && Enabled(s, step) && (step.StartThread? || step.ExitThread?)
    ensures Inv(Next(s, step))
  {
    var s' := Next(s, step);
    ThreadPools(s.pool, s'.pool, step.t);
    assert Held(s', ItemOf) == Held(s, ItemOf) && Held(s', LendOf) == Held(s, LendOf);
    assert Conserved(s');
  }

  lemma NextKeeps(s: State, step: Step)
    requires Inv(s) && Enabled(s, step)
    ensures Inv(Next(s, step))
  {
    match step
    case StartThread(t) => ThreadKeeps(s, step);
    case ExitThread(t) => ThreadKeeps(s, step);
    case Get(t, c) => GetKeeps(s, t, c);
    case Register(c, tag) => RegisterKeeps(s, c, tag);
    case MoveConstruct(c, d) => MoveKeeps(s, c, d);
    case Hold(t, c) => HoldKeeps(s, t, c);
    case Release(key, d) => ReleaseKeeps(s, key, d);
    case Erase(t, key) =>
      if key in s.holder { EraseKeeps(s, t, key); } else { ShuffleStep(s, step); }
    case ScopeExit(t, c) => ScopeExitKeeps(s, t, c);
  }

  lemma {:induction false} RunInv(trace: seq<State>, steps: seq<Step>, i: nat)
    requires Run(trace, steps) && i < |trace|
    ensures Inv(trace[i])
  {
    if i == 0 {
      assert Project(INITIAL.ctxs, ItemOf) == map[] && Project(INITIAL.ctxs, LendOf) == map[];
      assert Project(INITIAL.holder, ItemOf) == map[] && Project(INITIAL.holder, LendOf) == map[];
    } else {
      RunInv(trace, steps, i - 1);
      assert trace[i - 1 + 1] == Next(trace[i - 1], steps[i - 1]);
      NextKeeps(trace[i - 1], steps[i - 1]);
    }
  }

  // ---------------------------------------------------------------- what every run guarantees

  /** Local pools never hold more than 99 objects. */
  lemma LocalPoolsStaySmall(trace: seq<State>, steps: seq<Step>, i: nat, t: ThreadId)
    requires Run(trace, steps) && i < |trace| && t in trace[i].pool.locals
    ensures |trace[i].pool.locals[t]| <= 99
  {
    RunInv(trace, steps, i);
  }

  lemma {:induction false} PeaksAreLeast(trace: seq<State>, steps: seq<Step>, i: nat, lent: nat, threads: nat)
    requires Run(trace, steps) && i < |trace|
    requires forall j | 0 <= j <= i :: Outstanding(trace[j]) <= lent && |trace[j].pool.locals| <= threads
    ensures trace[i].peakLent <= lent && trace[i].peakThreads <= threads
  {
    if i > 0 {
      PeaksAreLeast(trace, steps, i - 1, lent, threads);
      assert trace[i - 1 + 1] == Next(trace[i - 1], steps[i - 1]);
      NextPeaks(trace[i - 1], steps[i - 1]);
    }
  }

  lemma NextPeaks(s: State, step: Step)
    requires Enabled(s, step)
    ensures var s' := Next(s, step);
            s'.peakLent == Max(s.peakLent, Outstanding(s')) && s'.peakThreads == Max(s.peakThreads, |s'.pool.locals|)
  {
    assert Apply(s, step).peakLent == s.peakLent && Apply(s, step).peakThreads == s.peakThreads;
  }

  /** If at most `lent` objects are ever out at once and at most `threads` threads are ever
      alive at once, no more than `lent + 99 * (threads - 1)` objects are ever made. */
  lemma AllocationBound(trace: seq<State>, steps: seq<Step>, i: nat, lent: nat, threads: nat)
    requires Run(trace, steps) && i < |trace| && threads >= 1
    requires forall j | 0 <= j <= i :: |Held(trace[j], ItemOf)| <= lent && |trace[j].pool.locals| <= threads
    ensures trace[i].pool.created <= lent + 99 * (threads - 1)
  {
    forall j | 0 <= j <= i ensures Outstanding(trace[j]) <= lent {
      RunInv(trace, steps, j);
      Balance(trace[j]);
    }
    RunInv(trace, steps, i);
    PeaksAreLeast(trace, steps, i, lent, threads);
  }

  datatype Place = InGlobal(i: nat) | InLocal(t: ThreadId, i: nat) | InContext(c: CtxId) | InHolder(key: Obj)

  predicate At(s: State, o: Obj, p: Place)
  {
    match p
    case InGlobal(i) => i < |s.pool.global| && s.pool.global[i] == o
    case InLocal(t, i) => t in s.pool.locals && i < |s.pool.locals[t]| && s.pool.locals[t][i] == o
    case InContext(c) => c in s.ctxs && s.ctxs[c].Live? && s.ctxs[c].item == o
    case InHolder(k) => k in s.holder && s.holder[k].Live? && s.holder[k].item == o
  }

  /** The part of the store a place belongs to. */
  ghost function Part(s: State, p: Place): multiset<nat>
  {
    match p
    case InGlobal(_) => multiset(s.pool.global)
    case InLocal(_, _) => Total(s.pool.locals)
    case InContext(_) => BagOf(s.ctxs, ItemOf)
    case InHolder(_) => BagOf(s.holder, ItemOf)
  }

  lemma SameIndex(s: seq<nat>, x: nat, i: nat, j: nat)
    requires i < |s| && j < |s| && s[i] == s[j] == x && multiset(s)[x] <= 1
    ensures i == j
  {
    if i < j {
      TwoOccurrences(s, x, i, j);
    } else if j < i {
      TwoOccurrences(s, x, j, i);
    }
  }

  lemma TwoOccurrences(s: seq<nat>, x: nat, i: nat, j: nat)
    requires i < j < |s| && s[i] == s[j] == x
    ensures multiset(s)[x] >= 2
  {
    assert s == s[..j] + s[j..] && x in s[..j] && x in s[j..];
  }

  lemma BagMember(m: map<nat, Context>, x: nat)
    ensures x in BagOf(m, ItemOf) <==> exists k <- m :: m[k].Live? && m[k].item == x
  {
    TotalMember(Project(m, ItemOf), x);
    if k :| k in m && m[k].Live? && m[k].item == x {
      assert x in Project(m, ItemOf)[k];
    }
  }

  lemma AtInPart(s: State, o: Obj, p: Place)
    requires At(s, o, p)
    ensures o in Part(s, p)
  {
    match p
    case InGlobal(i) =>
    case InLocal(t, i) => TotalMember(s.pool.locals, o);
    case InContext(c) => BagMember(s.ctxs, o);
    case InHolder(k) => BagMember(s.holder, o);
  }

  lemma SamePart(s: State, o: Obj, p: Place, q: Place)
    requires At(s, o, p) && At(s, o, q) && Part(s, p)[o] <= 1
    requires p.InGlobal? == q.InGlobal? && p.InLocal? == q.InLocal? && p.InContext? == q.InContext?
    ensures p == q
  {
    match p
    case InGlobal(i) =>
      SameIndex(s.pool.global, o, i, q.i);
    case InLocal(t, i) =>
      TotalOnce(s.pool.locals, o, t, q.t);
      TotalRemove(s.pool.locals, t);
      SameIndex(s.pool.locals[t], o, i, q.i);
    case InContext(c) =>
      TotalOnce(Project(s.ctxs, ItemOf), o, c, q.c);
    case InHolder(k) =>
      TotalOnce(Project(s.holder, ItemOf), o, k, q.key);
  }

  /** Every object ever made is in exactly one place. */
  lemma ExactlyOnePlace(trace: seq<State>, steps: seq<Step>, i: nat, o: Obj)
    requires Run(trace, steps) && i < |trace| && o < trace[i].pool.created
    ensures exists p :: At(trace[i], o, p)
    ensures forall p, q :: At(trace[i], o, p) && At(trace[i], o, q) ==> p == q
  {
    RunInv(trace, steps, i);
    var s := trace[i];
    OccursOnce(s, o);
    SomePlace(s, o);
    forall p, q | At(s, o, p) && At(s, o, q) ensures p == q {
      AtInPart(s, o, p);
      AtInPart(s, o, q);
      SamePart(s, o, p, q);
    }
  }

  lemma OccursOnce(s: State, o: Obj)
    requires Conserved(s) && o < s.pool.created
    ensures multiset(s.pool.global)[o] + Total(s.pool.locals)[o]
          + BagOf(s.ctxs, ItemOf)[o] + BagOf(s.holder, ItemOf)[o] == 1
  {
    IotaOnce(s.pool.created, o);
    assert (Pooled(s.pool) + Held(s, ItemOf))[o] == 1;
  }

  lemma SomePlace(s: State, o: Obj)
    requires
      || o in s.pool.global || o in Total(s.pool.locals)
      || o in BagOf(s.ctxs, ItemOf) || o in BagOf(s.holder, ItemOf)
    ensures exists p :: At(s, o, p)
  {
    if o in s.pool.global {
      var i :| 0 <= i < |s.pool.global| && s.pool.global[i] == o;
      assert At(s, o, InGlobal(i));
    } else if o in Total(s.pool.locals) {
      TotalMember(s.pool.locals, o);
      var t :| t in s.pool.locals && o in s.pool.locals[t];
      var i :| 0 <= i < |s.pool.locals[t]| && s.pool.locals[t][i] == o;
      assert At(s, o, InLocal(t, i));
    } else if o in BagOf(s.ctxs, ItemOf) {
      BagMember(s.ctxs, o);
      var c :| c in s.ctxs && s.ctxs[c].Live? && s.ctxs[c].item == o;
      assert At(s, o, InContext(c));
    } else {
      BagMember(s.holder, o);
      var k :| k in s.holder && s.holder[k].Live? && s.holder[k].item == o;
      assert At(s, o, InHolder(k));
    }
  }

  /** Every loan is given back at most once: never while still held, never twice. */
  lemma ReturnedAtMostOnce(trace: seq<State>, steps: seq<Step>, i: nat, l: nat)
    requires Run(trace, steps) && i < |trace|
    ensures multiset(trace[i].returned)[l] + Held(trace[i], LendOf)[l] == if l < trace[i].lends then 1 else 0
  {
    RunInv(trace, steps, i);
    var s := trace[i];
    IotaOnce(s.lends, l);
    assert (Held(s, LendOf) + multiset(s.returned))[l] == Held(s, LendOf)[l] + multiset(s.returned)[l];
  }

  // ---------------------------------------------------------------- the order of cleanups

  /** Whatever was cleaned up has been given back, and giving back came last. */
  ghost predicate LogInv(s: State)
  {
    && (forall i | 0 <= i < |s.log| :: s.log[i].lend in s.returned)
    && (forall i, j | 0 <= i < j < |s.log| && s.log[i].lend == s.log[j].lend :: s.log[i].cleanup.User?)
  }

  lemma DestroyLog(s: State, t: ThreadId, ctx: Context)
    requires LogInv(s) && t in s.pool.locals && Shaped(ctx) && (ctx.Live? ==> ctx.lend !in s.returned)
    ensures LogInv(Destroy(s, t, ctx))
  {
    if ctx.Live? {
      DestroyEffect(s, t, ctx);
    }
  }

  lemma HeldNotReturned(s: State, ctx: Context)
    requires Conserved(s) && ctx.Live? && ctx.lend in Held(s, LendOf)
    ensures ctx.lend !in s.returned
  {
    IotaOnce(s.lends, ctx.lend);
    assert (Held(s, LendOf) + multiset(s.returned))[ctx.lend] <= 1;
  }

  lemma EraseLog(s: State, t: ThreadId, key: Obj)
    requires ShapeInv(s) && Conserved(s) && LogInv(s) && t in s.pool.locals && key in s.holder
    ensures LogInv(Destroy(s.(holder := s.holder - {key}), t, s.holder[key]))
  {
    BagRemove(s.holder, key, LendOf);
    HeldNotReturned(s, s.holder[key]);
    DestroyLog(s.(holder := s.holder - {key}), t, s.holder[key]);
  }

  lemma ExitLog(s: State, t: ThreadId, c: CtxId)
    requires ShapeInv(s) && Conserved(s) && LogInv(s) && t in s.pool.locals && c in s.ctxs
    ensures LogInv(Destroy(s.(ctxs := s.ctxs - {c}), t, s.ctxs[c]))
  {
    if s.ctxs[c].Live? {
      BagRemove(s.ctxs, c, LendOf);
      HeldNotReturned(s, s.ctxs[c]);
    }
    DestroyLog(s.(ctxs := s.ctxs - {c}), t, s.ctxs[c]);
  }

  lemma NextLog(s: State, step: Step)
    requires Inv(s) && LogInv(s) && Enabled(s, step)
    ensures LogInv(Next(s, step))
  {
    match step
    case Hold(t, c) =>
      if s.ctxs[c].Live? { NotParked(s, c); }
    case Erase(t, key) =>
      if key in s.holder { EraseLog(s, t, key); }
    case ScopeExit(t, c) => ExitLog(s, t, c);
    case _ =>
  }

  lemma {:induction false} RunLog(trace: seq<State>, steps: seq<Step>, i: nat)
    requires Run(trace, steps) && i < |trace|
    ensures LogInv(trace[i])
  {
    if i > 0 {
      RunLog(trace, steps, i - 1);
      RunInv(trace, steps, i - 1);
      assert trace[i - 1 + 1] == Next(trace[i - 1], steps[i - 1]);
      NextLog(trace[i - 1], steps[i - 1]);
    }
  }

  /** No cleanup ever touches an object after its loan was given back. */
  lemma NothingAfterReturn(trace: seq<State>, steps: seq<Step>, n: nat, i: nat, j: nat)
    requires Run(trace, steps) && n < |trace| && i < j < |trace[n].log|
    requires trace[n].log[i].cleanup.ReturnToPool?
    ensures trace[n].log[j].lend != trace[n].log[i].lend
  {
    RunLog(trace, steps, n);
  }

  /** The context a step destroys, moved-from when there is none. */
  function DestroyedBy(s: State, step: Step): Context
    requires Enabled(s, step)
  {
    match step
    case ScopeExit(_, c) => s.ctxs[c]
    case Erase(_, key) => if key in s.holder then s.holder[key] else Moved
    case _ => Moved
  }

  function CleanupLog(ctx: Context): seq<Ran>
  {
    if ctx.Live? then LogOf(ctx.lend, ctx.item, Reversed(ctx.cleanups)) else []
  }

  lemma DestroyLogs(s: State, t: ThreadId, ctx: Context)
    requires t in s.pool.locals && Shaped(ctx)
    ensures Destroy(s, t, ctx).log == s.log + CleanupLog(ctx)
  {
    if ctx.Live? {
      DestroyEffect(s, t, ctx);
    }
  }

  lemma StepLogs(s: State, step: Step)
    requires ShapeInv(s) && Enabled(s, step)
    requires step.Hold? && s.ctxs[step.c].Live? ==> s.ctxs[step.c].item !in s.holder
    ensures Apply(s, step).log == s.log + CleanupLog(DestroyedBy(s, step))
  {
    match step
    case ScopeExit(t, c) => DestroyLogs(s.(ctxs := s.ctxs - {c}), t, s.ctxs[c]);
    case Erase(t, key) =>
      if key in s.holder { DestroyLogs(s.(holder := s.holder - {key}), t, s.holder[key]); }
    case _ =>
  }

  /** In every run, a step that destroys an owning context, in its scope or in the holder,
      runs exactly that context's cleanups, last registered first; no other step runs any. */
  lemma CleanupsRunInReverse(trace: seq<State>, steps: seq<Step>, i: nat)
    requires Run(trace, steps) && i < |steps|
    ensures trace[i + 1].log == trace[i].log + CleanupLog(DestroyedBy(trace[i], steps[i]))
  {
    RunInv(trace, steps, i);
    var s, step := trace[i], steps[i];
    if step.Hold? && s.ctxs[step.c].Live? {
      NotParked(s, step.c);
    }
    StepLogs(s, step);
  }

  // ---------------------------------------------------------------- the pool in runs

  /** In every run a get and a destruction that gives its object back do to the pools exactly
      what their contents say, a thread starts with an empty pool and leaves its objects behind
      the global ones, and no other step touches the pools. */
  lemma PoolStepLaw(trace: seq<State>, steps: seq<Step>, i: nat)
    requires Run(trace, steps) && i < |steps|
    ensures var s, t, step := trace[i], trace[i + 1], steps[i];
      && (step.Get? ==>
            && step.c in t.ctxs && t.ctxs[step.c].Live?
            && AfterGet(s.pool, t.pool, step.t, t.ctxs[step.c].item))
      && (step.ScopeExit? || step.Erase? ==>
            var ctx := DestroyedBy(s, step);
            if ctx.Live? then AfterReturn(s.pool, t.pool, step.t, ctx.item) else t.pool == s.pool)
      && (step.Register? || step.MoveConstruct? || step.Hold? || step.Release? ==> t.pool == s.pool)
      && (step.StartThread? ==> t.pool == s.pool.(locals := s.pool.locals[step.t := []]))
      && (step.ExitThread? ==>
            t.pool == Pool(s.pool.global + s.pool.locals[step.t], s.pool.locals - {step.t}, s.pool.created))
  {
    RunInv(trace, steps, i);
    PoolStep(trace[i], steps[i]);
  }

  lemma PoolStep(s: State, step: Step)
    requires ShapeInv(s) && Conserved(s) && Enabled(s, step)
    ensures var t := Next(s, step);
      && (step.Get? ==>
            && step.c in t.ctxs && t.ctxs[step.c].Live?
            && AfterGet(s.pool, t.pool, step.t, t.ctxs[step.c].item))
      && (step.ScopeExit? || step.Erase? ==>
            var ctx := DestroyedBy(s, step);
            if ctx.Live? then AfterReturn(s.pool, t.pool, step.t, ctx.item) else t.pool == s.pool)
      && (step.Register? || step.MoveConstruct? || step.Hold? || step.Release? ==> t.pool == s.pool)
      && (step.StartThread? ==> t.pool == s.pool.(locals := s.pool.locals[step.t := []]))
      && (step.ExitThread? ==>
            t.pool == Pool(s.pool.global + s.pool.locals[step.t], s.pool.locals - {step.t}, s.pool.created))
  {
    match step
    case Get(t, c) => GetPool(s, t, c);
    case ScopeExit(t, c) => DestroyReturns(s.(ctxs := s.ctxs - {c}), t, s.ctxs[c]);
    case Erase(t, key) =>
      if key in s.holder { DestroyReturns(s.(holder := s.holder - {key}), t, s.holder[key]); }
    case Hold(t, c) => HoldPool(s, t, c);
    case _ =>
  }

  lemma GetPool(s: State, t: ThreadId, c: CtxId)
    requires Enabled(s, Get(t, c))
    ensures var s' := Next(s, Get(t, c));
      c in s'.ctxs && s'.ctxs[c].Live? && AfterGet(s.pool, s'.pool, t, s'.ctxs[c].item)
  {
    GetContents(s.pool, t);
  }

  lemma HoldPool(s: State, t: ThreadId, c: CtxId)
    requires ShapeInv(s) && Conserved(s) && Enabled(s, Hold(t, c))
    ensures Next(s, Hold(t, c)).pool == s.pool
  {
    if s.ctxs[c].Live? {
      NotParked(s, c);
    }
  }

  lemma DestroyReturns(s: State, t: ThreadId, ctx: Context)
    requires t in s.pool.locals && Shaped(ctx)
    ensures var q := Destroy(s, t, ctx).pool;
      if ctx.Live? then AfterReturn(s.pool, q, t, ctx.item) else q == s.pool
  {
    if ctx.Live? {
      DestroyEffect(s, t, ctx);
      ReturnContents(s.pool, t, ctx.item);
    }
  }

  // ---------------------------------------------------------------- contexts in runs

  /** In every run a cleanup is registered behind all earlier ones of an owning context, a move
      hands a context over whole, parking and unparking move it to and from the holder, and
      each of these leaves every other context and every other parked object alone. */
  lemma ContextStepLaw(trace: seq<State>, steps: seq<Step>, i: nat)
    requires Run(trace, steps) && i < |steps|
    ensures var s, t, step := trace[i], trace[i + 1], steps[i];
      && (step.Register? && s.ctxs[step.c].Live? ==>
            var ctx := s.ctxs[step.c];
            && t.ctxs == s.ctxs[step.c := Live(ctx.lend, ctx.item, ctx.cleanups + [User(step.tag)])]
            && t.holder == s.holder)
      && (step.MoveConstruct? && step.from != step.to ==>
            t.ctxs == s.ctxs[step.to := s.ctxs[step.from]][step.from := Moved] && t.holder == s.holder)
      && (step.Hold? && s.ctxs[step.c].Live? ==>
            var ctx := s.ctxs[step.c];
            && ctx.item !in s.holder && t.holder == s.holder[ctx.item := ctx] && t.ctxs == s.ctxs[step.c := Moved])
      && (step.Release? && step.key in s.holder ==>
            t.ctxs == s.ctxs[step.to := s.holder[step.key]] && t.holder == s.holder - {step.key})
  {
    RunInv(trace, steps, i);
    var s, step := trace[i], steps[i];
    if step.Hold? && s.ctxs[step.c].Live? {
      NotParked(s, step.c);
    }
    ContextStep(s, step);
  }

  lemma ContextStep(s: State, step: Step)
    requires Enabled(s, step)
    requires step.Hold? && s.ctxs[step.c].Live? ==> s.ctxs[step.c].item !in s.holder
    ensures var t := Next(s, step);
      && (step.Register? && s.ctxs[step.c].Live? ==>
            var ctx := s.ctxs[step.c];
            && t.ctxs == s.ctxs[step.c := Live(ctx.lend, ctx.item, ctx.cleanups + [User(step.tag)])]
            && t.holder == s.holder)
      && (step.MoveConstruct? && step.from != step.to ==>
            t.ctxs == s.ctxs[step.to := s.ctxs[step.from]][step.from := Moved] && t.holder == s.holder)
      && (step.Hold? && s.ctxs[step.c].Live? ==>
            var ctx := s.ctxs[step.c];
            t.holder == s.holder[ctx.item := ctx] && t.ctxs == s.ctxs[step.c := Moved])
      && (step.Release? && step.key in s.holder ==>
            t.ctxs == s.ctxs[step.to := s.holder[step.key]] && t.holder == s.holder - {step.key})
  {
  }

  // ---------------------------------------------------------------- the acceptor

  /** Steps of other threads leave a context alone that they have no handle on. */
  predicate Touches(step: Step, c: CtxId)
  {
    match step
    case Get(_, d) => d == c
    case Register(d, _) => d == c
    case MoveConstruct(from, to) => from == c || to == c
    case Hold(_, d) => d == c
    case Release(_, to) => to == c
    case ScopeExit(_, d) => d == c
    case _ => false
  }

  ghost predicate LeftAlone(steps: seq<Step>, i: nat, j: nat, c: CtxId)
  {
    i <= j <= |steps| && forall k | i <= k < j :: !Touches(steps[k], c)
  }

  lemma StepLeaves(s: State, step: Step, c: CtxId)
    requires Enabled(s, step) && !Touches(step, c) && c in s.ctxs
    ensures c in Next(s, step).ctxs && Next(s, step).ctxs[c] == s.ctxs[c]
  {
  }

  lemma {:induction false} Untouched(trace: seq<State>, steps: seq<Step>, i: nat, j: nat, c: CtxId)
    requires Run(trace, steps) && LeftAlone(steps, i, j, c) && c in trace[i].ctxs
    ensures c in trace[j].ctxs && trace[j].ctxs[c] == trace[i].ctxs[c]
    decreases j - i
  {
    if i < j {
      Untouched(trace, steps, i, j - 1, c);
      assert trace[j - 1 + 1] == Next(trace[j - 1], steps[j - 1]);
      StepLeaves(trace[j - 1], steps[j - 1], c);
    }
  }

  /** A context just filled by a get still holds its loan when its thread comes back to it. */
  lemma StillBorrowed(trace: seq<State>, steps: seq<Step>, t: ThreadId, c: CtxId, i: nat, j: nat)
    requires Run(trace, steps) && i < j < |steps| && steps[i] == Get(t, c) && LeftAlone(steps, i + 1, j, c)
    ensures c in trace[j].ctxs
    ensures trace[j].ctxs[c] == Live(trace[i].lends, Lend(trace[i].pool, t).item, [ReturnToPool])
  {
    assert trace[i + 1] == Next(trace[i], steps[i]);
    Untouched(trace, steps, i + 1, j, c);
  }

  /** What leaving the scope of a context does, whatever it holds. */
  lemma ScopeExitContents(s: State, t: ThreadId, c: CtxId)
    requires Enabled(s, ScopeExit(t, c)) && Shaped(s.ctxs[c])
    ensures var s', ctx := Next(s, ScopeExit(t, c)), s.ctxs[c];
            && s'.ctxs == s.ctxs - {c} && s'.holder == s.holder && s'.lends == s.lends
            && s'.returned == s.returned + LendOf(ctx)
            && s'.pool == if ctx.Live? then GiveBack(s.pool, t, ctx.item) else s.pool
  {
    if s.ctxs[c].Live? {
      DestroyEffect(s.(ctxs := s.ctxs - {c}), t, s.ctxs[c]);
    }
  }

  lemma HoldContents(s: State, t: ThreadId, c: CtxId)
    requires Enabled(s, Hold(t, c)) && s.ctxs[c].Live? && s.ctxs[c].item !in s.holder
    ensures var s', o := Next(s, Hold(t, c)), s.ctxs[c].item;
            && s'.ctxs == s.ctxs[c := Moved] && s'.holder == s.holder[o := s.ctxs[c]]
            && s'.returned == s.returned && s'.lends == s.lends && s'.pool == s.pool
  {
  }

  /** A borrowed object was not out on loan before. */
  lemma BorrowedWasFree(s: State, t: ThreadId, c: CtxId)
    requires Inv(s) && Enabled(s, Get(t, c))
    ensures Held(s, ItemOf)[Lend(s.pool, t).item] == 0
  {
    var s', o := Apply(s, Get(t, c)), Lend(s.pool, t).item;
    GetConserved(s, t, c);
    HeldAfterLoan(s, s', c, o, s.lends);
    IotaOnce(s'.pool.created, o);
    assert (Pooled(s'.pool) + Held(s', ItemOf))[o] <= 1;
  }

  /** PostAccept when the post succeeds, with any steps of other threads between its own: the
      object borrowed was free, at the hold it is parked under the new loan and nothing else
      in the holder changes, and leaving the scope gives nothing back. */
  lemma PostAcceptParks(trace: seq<State>, steps: seq<Step>, t: ThreadId, c: CtxId, i: nat, j: nat, k: nat)
    requires Run(trace, steps) && i < j < k < |steps|
    requires steps[i] == Get(t, c) && steps[j] == Hold(t, c) && steps[k] == ScopeExit(t, c)
    requires LeftAlone(steps, i + 1, j, c) && LeftAlone(steps, j + 1, k, c)
    ensures var o, l := Lend(trace[i].pool, t).item, trace[i].lends;
      && Held(trace[i], ItemOf)[o] == 0 && o !in trace[j].holder
      && trace[j + 1].holder == trace[j].holder[o := Live(l, o, [ReturnToPool])]
      && trace[j + 1].returned == trace[j].returned && trace[j + 1].pool == trace[j].pool
      && trace[k + 1].ctxs == trace[k].ctxs - {c} && trace[k + 1].holder == trace[k].holder
      && trace[k + 1].returned == trace[k].returned && trace[k + 1].pool == trace[k].pool
  {
    RunInv(trace, steps, i);
    BorrowedWasFree(trace[i], t, c);
    StillBorrowed(trace, steps, t, c, i, j);
    ParkedAt(trace, steps, t, c, j);
    Untouched(trace, steps, j + 1, k, c);
    ScopeExitContents(trace[k], t, c);
  }

  lemma ParkedAt(trace: seq<State>, steps: seq<Step>, t: ThreadId, c: CtxId, j: nat)
    requires Run(trace, steps) && j < |steps| && steps[j] == Hold(t, c) && trace[j].ctxs[c].Live?
    ensures var s', o := trace[j + 1], trace[j].ctxs[c].item;
      && o !in trace[j].holder && s'.holder == trace[j].holder[o := trace[j].ctxs[c]]
      && c in s'.ctxs && s'.ctxs[c] == Moved
      && s'.returned == trace[j].returned && s'.pool == trace[j].pool
  {
    RunInv(trace, steps, j);
    NotParked(trace[j], c);
    HoldContents(trace[j], t, c);
  }

  /** PostAccept when the post fails: leaving the scope gives exactly the borrowed object back,
      whatever other threads did in between. */
  lemma FailedPostGivesBack(trace: seq<State>, steps: seq<Step>, t: ThreadId, c: CtxId, i: nat, j: nat)
    requires Run(trace, steps) && i < j < |steps| && steps[i] == Get(t, c) && steps[j] == ScopeExit(t, c)
    requires LeftAlone(steps, i + 1, j, c)
    ensures var s', o, l := trace[j + 1], Lend(trace[i].pool, t).item, trace[i].lends;
      && s'.returned == trace[j].returned + [l] && s'.pool == GiveBack(trace[j].pool, t, o)
      && s'.ctxs == trace[j].ctxs - {c} && s'.holder == trace[j].holder
  {
    StillBorrowed(trace, steps, t, c, i, j);
    ScopeExitContents(trace[j], t, c);
  }

  /** OnAcceptComplete: a completion that finds its object takes it out of the holder, and when
      it returns gives back exactly that loan, whatever other threads did in between; one that
      does not find it changes nothing. */
  lemma CompletionGivesBack(trace: seq<State>, steps: seq<Step>, t: ThreadId, key: Obj, c: CtxId, i: nat, j: nat)
    requires Run(trace, steps) && i < |steps| && steps[i] == Release(key, c)
    ensures key !in trace[i].holder ==>
      && trace[i + 1].ctxs == trace[i].ctxs && trace[i + 1].holder == trace[i].holder
      && trace[i + 1].returned == trace[i].returned && trace[i + 1].pool == trace[i].pool
    ensures key in trace[i].holder ==> trace[i].holder[key].Live? && trace[i + 1].holder == trace[i].holder - {key}
    ensures
      (key in trace[i].holder && i < j < |steps| && steps[j] == ScopeExit(t, c) && LeftAlone(steps, i + 1, j, c)) ==>
      && trace[i].holder[key].Live? && trace[j + 1].returned == trace[j].returned + [trace[i].holder[key].lend]
      && trace[j + 1].pool == GiveBack(trace[j].pool, t, key)
      && trace[j + 1].ctxs == trace[j].ctxs - {c} && trace[j + 1].holder == trace[j].holder
  {
    RunInv(trace, steps, i);
    assert trace[i + 1] == Next(trace[i], steps[i]);
    if key in trace[i].holder && i < j < |steps| && steps[j] == ScopeExit(t, c) && LeftAlone(steps, i + 1, j, c) {
      Untouched(trace, steps, i + 1, j, c);
      ScopeExitContents(trace[j], t, c);
    }
  }
}
