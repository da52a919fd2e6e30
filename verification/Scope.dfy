/** Scoped ownership of lent objects: move-only contexts and the holder that parks them. */
module Scope {
  import opened Basics
  import opened ObjectPool

  /** A registered cleanup: giving the object back, or anything else a caller deferred. */
  datatype Cleanup = ReturnToPool | User(tag: nat)

  /** What a context owns: the `lend`-th loan, its object and the registered cleanups.
      A context that has been moved from owns nothing. */
  datatype Context = Live(lend: nat, item: Obj, cleanups: seq<Cleanup>) | Moved

  function Reversed<T>(s: seq<T>): (r: seq<T>)
    ensures |r| == |s|
    ensures forall i | 0 <= i < |s| :: r[i] == s[|s| - 1 - i]
  {
    seq(|s|, i requires 0 <= i < |s| => s[|s| - 1 - i])
  }

  function Registered(ctx: Context, fn: Cleanup): Context
  {
    if ctx.Live? then ctx.(cleanups := ctx.cleanups + [fn]) else Moved
  }

  class DeferContext {
    var lend: nat
    var item: Option<Obj>
    var deferFns: seq<Cleanup>
    var needReturn: bool

    ghost predicate Valid()
      reads this
    {
      needReturn <==> item.Some?
    }

    function Value(): Context
      requires Valid()
      reads this
    {
      if needReturn then Live(lend, item.value, deferFns) else Moved
    }

    constructor (lend: nat, item: Obj, deferFn: Cleanup)
      ensures Valid() && Value() == Live(lend, item, [deferFn])
    {
      this.lend := lend;
      this.item := Some(item);
      deferFns := [deferFn];
      needReturn := true;
    }

    /** Move construction: the new context owns everything, the old one nothing. */
    constructor Move(from: DeferContext)
      requires from.Valid()
      modifies from
      ensures Valid() && Value() == old(from.Value())
      ensures from.Valid() && from.Value() == Moved && from.item == None
    {
      lend := from.lend;
      item, deferFns, needReturn := None, [], true;
      new;
      MoveFrom(from);
    }

    method MoveFrom(from: DeferContext)
      requires from != this && from.Valid()
      modifies this, from
      ensures Valid() && Value() == old(from.Value())
      ensures from.Valid() && from.Value() == Moved && from.item == None
    {
      lend := from.lend;
      item := from.item;
      from.item := None;
      deferFns := from.deferFns;
      from.deferFns := [];
      needReturn := from.needReturn;
      from.needReturn := false;
    }

    /** A cleanup registered on a context that was moved from never runs. */
    method Defer(deferFn: Cleanup)
      requires Valid()
      modifies `deferFns
      ensures Valid() && deferFns == old(deferFns) + [deferFn]
      ensures Value() == Registered(old(Value()), deferFn)
    {
      deferFns := deferFns + [deferFn];
    }

    /** The destructor: an owning context runs its cleanups last registered first. */
    method Destroy() returns (ran: seq<Cleanup>)
      requires Valid()
      modifies `deferFns
      ensures ran == if old(needReturn) then Reversed(old(deferFns)) else []
    {
      ran := [];
      if !needReturn {
        return;
      }
      var i := |deferFns|;
      while i > 0
        invariant 0 <= i <= |deferFns| && deferFns == old(deferFns)
        invariant |ran| == |deferFns| - i
        invariant forall j | 0 <= j < |ran| :: ran[j] == deferFns[|deferFns| - 1 - j]
      {
        i := i - 1;
        ran := ran + [deferFns[i]];
      }
      deferFns := [];
    }
  }

  /** The key of a context is its object; one that was moved from has the null key. */
  function KeyOf(ctx: Context): Option<Obj>
  {
    if ctx.Live? then Some(ctx.item) else None
  }

  class DeferredItemHolder {
    var items: map<Option<Obj>, Context>

    constructor ()
      ensures items == map[]
    {
      items := map[];
    }

    /** Park a context under its key. A key already in use keeps its entry, and the node built
        for the new context is destroyed. */
    method Hold(ctx: DeferContext) returns (destroyed: Context)
      requires ctx.Valid()
      modifies this, ctx
      ensures ctx.Valid() && ctx.Value() == Moved
      ensures var v := old(ctx.Value());
              && (KeyOf(v) !in old(items) ==> items == old(items)[KeyOf(v) := v] && destroyed == Moved)
              && (KeyOf(v) in old(items) ==> items == old(items) && destroyed == v)
    {
      var key := ctx.item;
      var node := new DeferContext.Move(ctx);
      if key in items {
        destroyed := node.Value();
      } else {
        items := items[key := node.Value()];
        destroyed := Moved;
      }
    }

    /** Unpark: the caller owns the context now. */
    method Release(key: Option<Obj>) returns (r: Option<Context>)
      modifies this
      ensures r == if key in old(items) then Some(old(items)[key]) else None
      ensures items == old(items) - {key}
    {
      if key !in items {
        assert items - {key} == items;
        return None;
      }
      r := Some(items[key]);
      items := items - {key};
    }

    /** The entry is destroyed where it is: what it owned, if anything, is cleaned up here. */
    method Erase(key: Option<Obj>) returns (destroyed: Context)
      modifies this
      ensures destroyed == if key in old(items) then old(items)[key] else Moved
      ensures items == old(items) - {key}
    {
      destroyed := if key in items then items[key] else Moved;
      items := items - {key};
    }
  }
}
