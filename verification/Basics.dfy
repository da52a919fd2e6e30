/** Small things every other module shares. */
module Basics {
  datatype Option<T> = None | Some(value: T)

  const INT_MAX: int := 0x7FFF_FFFF
  const UINT32: nat := 0x1_0000_0000
  const UINT64: nat := 0x1_0000_0000_0000_0000

  function Max(a: int, b: int): int
  {
    if a < b then b else a
  }

  lemma MapRemove<K, V>(m: map<K, V>, k: K)
    requires k in m
    ensures |m - {k}| + 1 == |m|
  {
    assert m.Keys == (m - {k}).Keys + {k};
    assert |m| == |m.Keys| && |m - {k}| == |(m - {k}).Keys|;
  }

  lemma MapAdd<K, V>(m: map<K, V>, k: K, v: V)
    requires k !in m
    ensures |m[k := v]| == |m| + 1
  {
    assert m[k := v].Keys == m.Keys + {k};
    assert |m[k := v]| == |m[k := v].Keys| && |m| == |m.Keys|;
  }
}
