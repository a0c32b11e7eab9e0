/** Sums over finite maps. */
module Sums {

  ghost function Total<K(!new)>(m: map<K, nat>): nat
    decreases |m|
  {
    if m == map[] then 0
    else
      var k :| k in m;
      m[k] + Total(m - {k})
  }

  lemma {:induction false} TotalRemove<K(!new)>(m: map<K, nat>, k: K)
    requires k in m
    ensures Total(m) == m[k] + Total(m - {k})
    decreases |m|
  {
    var j :| j in m && Total(m) == m[j] + Total(m - {j});
    if j != k {
      TotalRemove(m - {j}, k);
      TotalRemove(m - {k}, j);
      assert m - {j} - {k} == m - {k} - {j};
    }
  }

  lemma TotalInsert<K(!new)>(m: map<K, nat>, k: K, v: nat)
    requires k !in m
    ensures Total(m[k := v]) == v + Total(m)
  {
    TotalRemove(m[k := v], k);
    assert m[k := v] - {k} == m;
  }

  lemma {:induction false} TotalUnion<K(!new)>(m: map<K, nat>, n: map<K, nat>)
    requires m.Keys !! n.Keys
    ensures Total(m + n) == Total(m) + Total(n)
    decreases |n|
  {
    if n == map[] {
      assert m + n == m;
    } else {
      var k :| k in n;
      TotalUnion(m, n - {k});
      UnionStep(m, n, k);
    }
  }

  lemma UnionStep<K(!new)>(m: map<K, nat>, n: map<K, nat>, k: K)
    requires m.Keys !! n.Keys && k in n && Total(m + (n - {k})) == Total(m) + Total(n - {k})
    ensures Total(m + n) == Total(m) + Total(n)
  {
    hide Total;
    UnionRemove(m, n, k);
    TotalRemove(n, k);
    TotalRemove(m + n, k);
  }

  lemma UnionRemove<K(!new)>(m: map<K, nat>, n: map<K, nat>, k: K)
    requires m.Keys !! n.Keys && k in n
    ensures k in m + n && (m + n)[k] == n[k] && m + n - {k} == m + (n - {k})
  {
  }
}
