/** Thread-local pools in front of one global pool. Objects are named in allocation order. */
module ObjectPool {
  import opened Basics
  import opened Totals

  type Obj = nat
  type ThreadId = nat

  const LOCAL_MAX_CAPACITY: nat := 100
  const CHUNK_SIZE: nat := 50

  datatype Pool = Pool(global: seq<Obj>, locals: map<ThreadId, seq<Obj>>, created: nat)

  datatype Lent = Lent(item: Obj, pool: Pool)

  function Last(n: nat, s: seq<Obj>): seq<Obj>
    requires n <= |s|
  {
    s[|s| - n..]
  }

  function DropLast(n: nat, s: seq<Obj>): seq<Obj>
    requires n <= |s|
  {
    s[..|s| - n]
  }

  /** Refill an empty local pool with up to one chunk from the global pool. */
  function Refill(p: Pool, t: ThreadId): Pool
    requires t in p.locals
  {
    if p.locals[t] != [] then p
    else
      var n := if |p.global| < CHUNK_SIZE then |p.global| else CHUNK_SIZE;
      p.(locals := p.locals[t := Last(n, p.global)], global := DropLast(n, p.global))
  }

  /** Take the newest object of a nonempty local pool. */
  function TakeNewest(p: Pool, t: ThreadId): Lent
    requires t in p.locals && p.locals[t] != []
  {
    var local := p.locals[t];
    Lent(local[|local| - 1], p.(locals := p.locals[t := DropLast(1, local)]))
  }

  /** Lend the newest local object; allocate only when both pools are empty. */
  function Lend(p: Pool, t: ThreadId): Lent
    requires t in p.locals
  {
    var q := Refill(p, t);
    if q.locals[t] == [] then Lent(q.created, q.(created := q.created + 1))
    else TakeNewest(q, t)
  }

  /** Give an object to a thread's local pool; a full local pool spills one chunk. */
  function GiveBack(p: Pool, t: ThreadId, item: Obj): Pool
    requires t in p.locals
  {
    var local := p.locals[t] + [item];
    if |local| >= LOCAL_MAX_CAPACITY then
      p.(global := p.global + Last(CHUNK_SIZE, local), locals := p.locals[t := DropLast(CHUNK_SIZE, local)])
    else p.(locals := p.locals[t := local])
  }

  /** A thread ends: its local pool goes to the global one. */
  function Retire(p: Pool, t: ThreadId): Pool
    requires t in p.locals
  {
    Pool(p.global + p.locals[t], p.locals - {t}, p.created)
  }

  // ---------------------------------------------------------------- what the operations do, by contents

  /** No other thread's pool has changed. */
  predicate OthersSame(p: Pool, q: Pool, t: ThreadId)
  {
    && t in p.locals && q.locals.Keys == p.locals.Keys
    && forall u <- p.locals | u != t :: q.locals[u] == p.locals[u]
  }

  /** A get: the newest local object; from an empty local pool the newest of the last 50 global
      objects, or of all if there are fewer, the others of which stay local in order; a new
      object only when there is none. */
  predicate AfterGet(p: Pool, q: Pool, t: ThreadId, item: Obj)
  {
    && OthersSame(p, q, t)
    && var local, g := p.locals[t], |p.global|;
    var n := if g < 50 then g else 50;
    && (local != [] ==>
          && item == local[|local| - 1] && q.locals[t] == local[..|local| - 1]
          && q.global == p.global && q.created == p.created)
    && (local == [] && g > 0 ==>
          && item == p.global[g - 1] && q.locals[t] == p.global[g - n..g - 1]
          && q.global == p.global[..g - n] && q.created == p.created)
    && (local == [] && g == 0 ==>
          && item == p.created && q.locals[t] == [] && q.global == [] && q.created == p.created + 1)
  }

  /** A return: behind the local objects; when that makes 100 or more, the newest 50 go behind
      the global ones, in order. */
  predicate AfterReturn(p: Pool, q: Pool, t: ThreadId, item: Obj)
  {
    && OthersSame(p, q, t) && q.created == p.created
    && var all := p.locals[t] + [item];
    && (|p.locals[t]| < 99 ==> q.locals[t] == all && q.global == p.global)
    && (|p.locals[t]| >= 99 ==>
          q.locals[t] == all[..|all| - 50] && q.global == p.global + all[|all| - 50..])
  }

  lemma GetContents(p: Pool, t: ThreadId)
    requires t in p.locals
    ensures AfterGet(p, Lend(p, t).pool, t, Lend(p, t).item)
  {
    if p.locals[t] == [] && |p.global| > 0 {
      var g := |p.global|;
      var n := if g < 50 then g else 50;
      assert Last(n, p.global)[..n - 1] == p.global[g - n..g - 1];
    }
  }

  /** A refill of an empty local pool: the last 50 global objects, or all, in order. */
  lemma RefillContents(p: Pool, t: ThreadId)
    requires t in p.locals && p.locals[t] == []
    ensures var q, g := Refill(p, t), |p.global|;
      var n := if g < 50 then g else 50;
      q == Pool(p.global[..g - n], p.locals[t := p.global[g - n..]], p.created)
  {
  }

  lemma ReturnContents(p: Pool, t: ThreadId, item: Obj)
    requires t in p.locals
    ensures AfterReturn(p, GiveBack(p, t, item), t, item)
  {
  }

  /** The pool as the program changes it. The mutex-protected vector and the thread-local
      vectors are fields; the calling thread is a parameter. */
  class HybridObjectPool {
    var globalPool: seq<Obj>
    var locals: map<ThreadId, seq<Obj>>
    var created: nat

    function State(): Pool
      reads this
    {
      Pool(globalPool, locals, created)
    }

    constructor ()
      ensures State() == Pool([], map[], 0)
    {
      globalPool, locals, created := [], map[], 0;
    }

    method PopLocal(t: ThreadId) returns (item: Obj)
      requires t in locals && locals[t] != []
      modifies `locals
      ensures Lent(item, State()) == TakeNewest(old(State()), t)
    {
      var local := locals[t];
      item := local[|local| - 1];
      locals := locals[t := local[..|local| - 1]];
    }

    /** Under the lock: move up to one chunk to an empty local pool. */
    method FetchChunk(t: ThreadId)
      requires t in locals && locals[t] == []
      modifies `locals, `globalPool
      ensures State() == Refill(old(State()), t)
    {
      var size := |globalPool|;
      if size > 0 {
        var fetchCount := if size < CHUNK_SIZE then size else CHUNK_SIZE;
        var from := size - fetchCount;
        assert locals[t] + globalPool[from..] == Last(fetchCount, globalPool);
        locals := locals[t := locals[t] + globalPool[from..]];
        globalPool := globalPool[..from];
      } else {
        assert globalPool == [] && locals == locals[t := []];
      }
    }

    method Get(t: ThreadId) returns (item: Obj)
      requires t in locals
      modifies this
      ensures Lent(item, State()) == Lend(old(State()), t) && AfterGet(old(State()), State(), t, item)
    {
      GetContents(State(), t);
      item := LendItem(t);
    }

    method LendItem(t: ThreadId) returns (item: Obj)
      requires t in locals
      modifies this
      ensures Lent(item, State()) == Lend(old(State()), t)
    {
      if locals[t] != [] {
        item := PopLocal(t);
        return;
      }
      FetchChunk(t);
      if locals[t] == [] {
        item := created;
        created := created + 1;
        return;
      }
      item := PopLocal(t);
    }

    method Return(t: ThreadId, item: Obj)
      requires t in locals
      modifies this
      ensures State() == GiveBack(old(State()), t, item) && AfterReturn(old(State()), State(), t, item)
    {
      ReturnContents(State(), t, item);
      Deposit(t, item);
    }

    method Deposit(t: ThreadId, item: Obj)
      requires t in locals
      modifies this
      ensures State() == GiveBack(old(State()), t, item)
    {
      locals := locals[t := locals[t] + [item]];
      if |locals[t]| >= LOCAL_MAX_CAPACITY {
        var from := |locals[t]| - CHUNK_SIZE;
        globalPool := globalPool + locals[t][from..];
        locals := locals[t := locals[t][..from]];
      }
    }

    /** The destructor of a thread's local storage. */
    method ExitThread(t: ThreadId)
      requires t in locals
      modifies this
      ensures State() == Retire(old(State()), t)
    {
      var pool := locals[t];
      if pool != [] {
        for i := 0 to |pool|
          invariant globalPool == old(globalPool) + pool[..i]
          invariant locals == old(locals) && created == old(created)
        {
          globalPool := globalPool + [pool[i]];
        }
      }
      locals := locals - {t};
    }
  }

  // ---------------------------------------------------------------- conservation

  /** Everything the pools hold. */
  ghost function Pooled(p: Pool): multiset<nat>
  {
    multiset(p.global) + Total(p.locals)
  }

  ghost predicate LocalsSmall(p: Pool)
  {
    forall t <- p.locals :: |p.locals[t]| < LOCAL_MAX_CAPACITY
  }

  lemma SplitBag(s: seq<Obj>, n: nat)
    requires n <= |s|
    ensures multiset(s) == multiset(DropLast(n, s)) + multiset(Last(n, s))
  {
    assert s == DropLast(n, s) + Last(n, s);
  }

  lemma Regroup(g': multiset<nat>, l': multiset<nat>, gone: multiset<nat>,
                g: multiset<nat>, l: multiset<nat>, more: multiset<nat>, rest: multiset<nat>)
    requires g' + l' + gone == g + l + more
    ensures g' + (rest + l') + gone == g + (rest + l) + more
  {
    forall x ensures (g' + (rest + l') + gone)[x] == (g + (rest + l) + more)[x] {
      assert (g' + l' + gone)[x] == (g + l + more)[x];
    }
  }

  lemma AddNothing(a: multiset<nat>)
    ensures a + multiset{} == a
  {
  }

  /** Replacing one local pool and the global pool by pools with `more` added in all. */
  lemma ReplaceLocal(p: Pool, t: ThreadId, global: seq<Obj>, local: seq<Obj>, gone: multiset<nat>, more: multiset<nat>)
    requires t in p.locals && LocalsSmall(p) && |local| < LOCAL_MAX_CAPACITY
    requires multiset(global) + multiset(local) + gone == multiset(p.global) + multiset(p.locals[t]) + more
    ensures var q := p.(global := global, locals := p.locals[t := local]);
            && Pooled(q) + gone == Pooled(p) + more && LocalsSmall(q) && q.locals.Keys == p.locals.Keys
  {
    TotalUpdate(p.locals, t, local);
    Regroup(multiset(global), multiset(local), gone, multiset(p.global), multiset(p.locals[t]), more,
            Total(p.locals - {t}));
    assert p.locals[t := local].Keys == p.locals.Keys;
  }

  lemma RefillKeeps(p: Pool, t: ThreadId)
    requires t in p.locals && LocalsSmall(p)
    ensures Pooled(Refill(p, t)) == Pooled(p) && LocalsSmall(Refill(p, t))
    ensures Refill(p, t).locals.Keys == p.locals.Keys
  {
    if p.locals[t] == [] {
      var n := if |p.global| < CHUNK_SIZE then |p.global| else CHUNK_SIZE;
      SplitBag(p.global, n);
      ReplaceLocal(p, t, DropLast(n, p.global), Last(n, p.global), multiset{}, multiset{});
      AddNothing(Pooled(p));
      AddNothing(Pooled(Refill(p, t)));
    }
  }

  /** Lending moves exactly one object out; a new one is made only when the global pool and
      the caller's own pool are both empty. */
  lemma LendKeeps(p: Pool, t: ThreadId)
    requires t in p.locals && LocalsSmall(p)
    ensures var r := Lend(p, t);
            && r.pool.locals.Keys == p.locals.Keys && LocalsSmall(r.pool)
            && if r.pool.created == p.created
               then Pooled(p) == Pooled(r.pool) + multiset{r.item}
               else r.pool.created == p.created + 1 && r.item == p.created
                    && p.global == [] && p.locals[t] == [] && Pooled(p) == Pooled(r.pool)
  {
    RefillKeeps(p, t);
    var q := Refill(p, t);
    var local := q.locals[t];
    if local != [] {
      SplitBag(local, 1);
      assert Last(1, local) == [local[|local| - 1]];
      ReplaceLocal(q, t, q.global, DropLast(1, local), multiset{local[|local| - 1]}, multiset{});
      assert q.(global := q.global, locals := q.locals[t := DropLast(1, local)]) == Lend(p, t).pool;
    }
  }

  /** Giving back moves exactly one object in. */
  lemma GiveBackKeeps(p: Pool, t: ThreadId, item: Obj)
    requires t in p.locals && LocalsSmall(p)
    ensures var q := GiveBack(p, t, item);
            && Pooled(q) == Pooled(p) + multiset{item} && LocalsSmall(q)
            && q.locals.Keys == p.locals.Keys && q.created == p.created
  {
    var local := p.locals[t] + [item];
    assert multiset(local) == multiset(p.locals[t]) + multiset{item};
    if |local| >= LOCAL_MAX_CAPACITY {
      var spill := Last(CHUNK_SIZE, local);
      SplitBag(local, CHUNK_SIZE);
      var keep := DropLast(CHUNK_SIZE, local);
      assert multiset(p.global + spill) + multiset(keep) == multiset(p.global) + multiset(local);
      ReplaceLocal(p, t, p.global + spill, keep, multiset{}, multiset{item});
    } else {
      ReplaceLocal(p, t, p.global, local, multiset{}, multiset{item});
    }
    AddNothing(Pooled(GiveBack(p, t, item)));
  }

  /** A thread's end loses nothing. */
  lemma RetireKeeps(p: Pool, t: ThreadId)
    requires t in p.locals && LocalsSmall(p)
    ensures Pooled(Retire(p, t)) == Pooled(p) && LocalsSmall(Retire(p, t))
  {
    TotalRemove(p.locals, t);
  }

  /** When the caller's own pool is empty, the others hold at most 99 each. */
  lemma OthersBound(p: Pool, t: ThreadId)
    requires t in p.locals && LocalsSmall(p) && p.locals[t] == []
    ensures |Total(p.locals)| <= (LOCAL_MAX_CAPACITY - 1) * (|p.locals| - 1)
  {
    TotalRemove(p.locals, t);
    MapRemove(p.locals, t);
    TotalBound(p.locals - {t}, LOCAL_MAX_CAPACITY - 1);
  }
}
