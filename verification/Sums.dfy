/** Totals over the entries of a map. */
module Sums {

  ghost function Sum<K>(m: map<K, int>): int {
    if m == map[] then 0
    else
      var k :| k in m;
      m[k] + Sum(m - {k})
  }

  lemma {:induction false} SumRemove<K>(m: map<K, int>, k: K)
    requires k in m
    ensures Sum(m) == m[k] + Sum(m - {k})
    decreases |m|
  {
    var j :| j in m && Sum(m) == m[j] + Sum(m - {j});
    if j != k {
      assert |m - {j}| < |m| && |m - {k}| < |m| by {
        assert m == (m - {j})[j := m[j]] && m == (m - {k})[k := m[k]];
      }
      SumRemove(m - {j}, k);
      SumRemove(m - {k}, j);
      assert m - {j} - {k} == m - {k} - {j};
    }
  }

  lemma SumUpdate<K>(m: map<K, int>, k: K, v: int)
    ensures Sum(m[k := v]) == Sum(m) + v - (if k in m then m[k] else 0)
  {
    SumRemove(m[k := v], k);
    assert m[k := v] - {k} == m - {k};
    if k in m {
      SumRemove(m, k);
    } else {
      assert m - {k} == m;
    }
  }

  lemma {:induction false} SumAdd<K>(m: map<K, int>, n: map<K, int>, r: map<K, int>)
    requires m.Keys == n.Keys == r.Keys && forall k | k in r :: r[k] == m[k] + n[k]
    ensures Sum(r) == Sum(m) + Sum(n)
    decreases |r|
  {
    if r == map[] {
      assert m == map[] && n == map[];
    } else {
      var k :| k in r;
      SumRemove(r, k);
      SumRemove(m, k);
      SumRemove(n, k);
      assert |r - {k}| < |r| by { assert r == (r - {k})[k := r[k]]; }
      SumAdd(m - {k}, n - {k}, r - {k});
    }
  }

  lemma {:induction false} SumAtMost<K>(m: map<K, int>, n: map<K, int>)
    requires m.Keys == n.Keys && forall k | k in m :: m[k] <= n[k]
    ensures Sum(m) <= Sum(n)
    decreases |m|
  {
    if m == map[] {
      assert n == map[];
    } else {
      var k :| k in m;
      SumRemove(m, k);
      SumRemove(n, k);
      assert |m - {k}| < |m| by { assert m == (m - {k})[k := m[k]]; }
      SumAtMost(m - {k}, n - {k});
    }
  }

  /** Entries that are zero may be left out. */
  lemma {:induction false} SumZeros<K>(m: map<K, int>, n: map<K, int>)
    requires n.Keys <= m.Keys && forall k | k in m :: if k in n then n[k] == m[k] else m[k] == 0
    ensures Sum(m) == Sum(n)
    decreases |m|
  {
    if k :| k in m && k !in n {
      SumRemove(m, k);
      assert |m - {k}| < |m| by { assert m == (m - {k})[k := m[k]]; }
      SumZeros(m - {k}, n);
    } else {
      assert m == n;
    }
  }
}
