/** The sum of a map's values. */
module Sums {
  ghost function Total<K>(m: map<K, nat>): nat
    decreases |m|
  {
    if m == map[] then 0
    else
      var k :| k in m;
      Fewer(m, k);
      m[k] + Total(m - {k})
  }

  lemma Fewer<K>(m: map<K, nat>, k: K)
    requires k in m
    ensures |m - {k}| == |m| - 1
  {
    assert (m - {k}).Keys == m.Keys - {k};
  }

  /** The sum does not depend on the order. */
  lemma {:induction false} TotalWithout<K>(m: map<K, nat>, k: K)
    requires k in m
    ensures Total(m) == m[k] + Total(m - {k})
    decreases |m|
  {
    var j :| j in m && Total(m) == m[j] + Total(m - {j});
    if j != k {
      Fewer(m, j);
      Fewer(m, k);
      TotalWithout(m - {j}, k);
      TotalWithout(m - {k}, j);
      assert m - {j} - {k} == m - {k} - {j};
    }
  }

  lemma TotalSet<K>(m: map<K, nat>, k: K, v: nat)
    ensures Total(m[k := v]) + (if k in m then m[k] else 0) == Total(m) + v
  {
    TotalWithout(m[k := v], k);
    assert m[k := v] - {k} == m - {k};
    if k in m {
      TotalWithout(m, k);
    } else {
      assert m - {k} == m;
    }
  }

  lemma SubsetSize<T>(a: set<T>, b: set<T>)
    requires a <= b
    ensures |a| <= |b|
  {
    assert b == a + (b - a);
  }
}
