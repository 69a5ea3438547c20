/** Totals over the entries of a map. */
module MapSums {

  /** The sum of `f` over the entries of `m`, whatever order they are taken in. */
  ghost function Sum<K(!new), V(!new)>(m: map<K, V>, f: (K, V) -> int): int
    decreases |m|
  {
    if m == map[] then 0
    else
      var k :| k in m;
      f(k, m[k]) + Sum(m - {k}, f)
  }

  lemma {:induction false} SumTake<K(!new), V(!new)>(m: map<K, V>, f: (K, V) -> int, k: K)
    requires k in m
    ensures Sum(m, f) == f(k, m[k]) + Sum(m - {k}, f)
    decreases |m|
  {
    var k0 :| k0 in m && Sum(m, f) == f(k0, m[k0]) + Sum(m - {k0}, f);
    if k0 != k {
      SumTake(m - {k0}, f, k);
      SumTake(m - {k}, f, k0);
      assert m - {k0} - {k} == m - {k} - {k0};
    }
  }

  /** Writing one entry replaces that entry's contribution and no other. */
  lemma SumPut<K(!new), V(!new)>(m: map<K, V>, f: (K, V) -> int, k: K, v: V)
    ensures Sum(m[k := v], f) == Sum(m, f) - (if k in m then f(k, m[k]) else 0) + f(k, v)
  {
    SumTake(m[k := v], f, k);
    assert m[k := v] - {k} == m - {k};
    if k in m {
      SumTake(m, f, k);
    } else {
      assert m - {k} == m;
    }
  }

  lemma {:induction false} SumSame<K(!new), V(!new)>(m: map<K, V>, n: map<K, V>, f: (K, V) -> int)
    requires m.Keys == n.Keys
    requires forall k :: k in m ==> f(k, m[k]) == f(k, n[k])
    ensures Sum(m, f) == Sum(n, f)
    decreases |m|
  {
    if m != map[] {
      var k :| k in m;
      SumTake(m, f, k);
      SumTake(n, f, k);
      SumSame(m - {k}, n - {k}, f);
    }
  }
}
