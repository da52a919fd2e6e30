/** The multiset of everything stored in a family of sequences. */
module Totals {
  import opened Basics

  ghost function Total<K>(m: map<K, seq<nat>>): multiset<nat>
    decreases |m|
  {
    if m == map[] then multiset{}
    else
      var k :| k in m;
      assert |m - {k}| < |m| by { MapRemove(m, k); }
      multiset(m[k]) + Total(m - {k})
  }

  lemma {:induction false} TotalRemove<K>(m: map<K, seq<nat>>, k: K)
    requires k in m
    ensures Total(m) == multiset(m[k]) + Total(m - {k})
    decreases |m|
  {
    var j :| j in m && Total(m) == multiset(m[j]) + Total(m - {j});
    if j != k {
      MapRemove(m, j);
      MapRemove(m, k);
      TotalRemove(m - {j}, k);
      TotalRemove(m - {k}, j);
      assert m - {j} - {k} == m - {k} - {j};
    }
  }

  lemma TotalAdd<K>(m: map<K, seq<nat>>, k: K, v: seq<nat>)
    requires k !in m
    ensures Total(m[k := v]) == Total(m) + multiset(v)
  {
    TotalRemove(m[k := v], k);
    assert m[k := v] - {k} == m;
  }

  lemma TotalUpdate<K>(m: map<K, seq<nat>>, k: K, v: seq<nat>)
    requires k in m
    ensures Total(m[k := v]) == Total(m - {k}) + multiset(v)
    ensures Total(m) == Total(m - {k}) + multiset(m[k])
  {
    TotalRemove(m, k);
    TotalRemove(m[k := v], k);
    assert m[k := v] - {k} == m - {k};
  }

  /** Something is in the total exactly when it is in one of the sequences. */
  lemma {:induction false} TotalMember<K>(m: map<K, seq<nat>>, x: nat)
    ensures x in Total(m) <==> exists k <- m :: x in m[k]
    decreases |m|
  {
    if m != map[] {
      var k :| k in m;
      MapRemove(m, k);
      TotalRemove(m, k);
      TotalMember(m - {k}, x);
      assert forall j <- m :: j == k || j in m - {k};
    }
  }

  /** Something that occurs once in the total is in one sequence only. */
  lemma TotalOnce<K>(m: map<K, seq<nat>>, x: nat, j: K, k: K)
    requires Total(m)[x] <= 1 && j in m && k in m && x in m[j] && x in m[k]
    ensures j == k
  {
    if j != k {
      assert k in m - {j} && (m - {j})[k] == m[k];
      TotalMember(m - {j}, x);
      TotalRemove(m, j);
    }
  }

  lemma {:induction false} TotalBound<K>(m: map<K, seq<nat>>, n: nat)
    requires forall k <- m :: |m[k]| <= n
    ensures |Total(m)| <= n * |m|
    decreases |m|
  {
    if m != map[] {
      var k :| k in m;
      MapRemove(m, k);
      TotalRemove(m, k);
      TotalBound(m - {k}, n);
      Times(n, |m - {k}|, |m|);
    }
  }

  lemma Times(n: nat, a: nat, b: nat)
    requires a + 1 == b
    ensures n * b == n * a + n
  {
  }

  /** The numbers below `n`, once each. */
  ghost function Iota(n: nat): multiset<nat>
  {
    if n == 0 then multiset{} else Iota(n - 1) + multiset{n - 1}
  }

  lemma {:induction false} IotaOnce(n: nat, x: nat)
    ensures Iota(n)[x] == (if x < n then 1 else 0) && |Iota(n)| == n
  {
    if n > 0 {
      IotaOnce(n - 1, x);
    }
  }
}
