/**
 Totals of finite maps: the balances of an account table or of a token.
 */
module Sums {
  // An absent entry counts as zero, as a read that default-inserts does.
  function Get<K>(m: map<K, nat>, k: K): nat {
    if k in m then m[k] else 0
  }

  ghost function Sum<K>(m: map<K, nat>): nat {
    if m == map[] then 0
    else
      var k :| k in m;
      m[k] + Sum(m - {k})
  }

  // The order in which entries are added up does not matter.
  lemma {:induction false} SumRemove<K>(m: map<K, nat>, k: K)
    requires k in m
    ensures Sum(m) == m[k] + Sum(m - {k})
    decreases |m|
  {
    var j :| j in m && Sum(m) == m[j] + Sum(m - {j});
    if j != k {
      SumRemove(m - {j}, k);
      SumRemove(m - {k}, j);
      assert m - {j} - {k} == m - {k} - {j};
    }
  }

  lemma SumUpdate<K>(m: map<K, nat>, k: K, v: nat)
    ensures Sum(m[k := v]) == Sum(m) - Get(m, k) + v
  {
    SumRemove(m[k := v], k);
    assert m[k := v] - {k} == m - {k};
    if k in m {
      SumRemove(m, k);
    } else {
      assert m - {k} == m;
    }
  }

  lemma SumAtLeast<K>(m: map<K, nat>, k: K)
    ensures Get(m, k) <= Sum(m)
  {
    if k in m {
      SumRemove(m, k);
    }
  }

  lemma SumAtLeastTwo<K>(m: map<K, nat>, j: K, k: K)
    requires j != k
    ensures Get(m, j) + Get(m, k) <= Sum(m)
  {
    if j in m {
      SumRemove(m, j);
      SumAtLeast(m - {j}, k);
    } else {
      SumAtLeast(m, k);
    }
  }

  // New entries of zero change nothing.
  lemma {:induction false} SumOfExtended<K>(m: map<K, nat>, n: map<K, nat>)
    requires m.Keys <= n.Keys && forall k :: k in n ==> n[k] == Get(m, k)
    ensures Sum(n) == Sum(m)
    decreases |n|
  {
    if n.Keys <= m.Keys {
      assert n == m;
    } else {
      var k :| k in n.Keys && k !in m.Keys;
      SumRemove(n, k);
      SumOfExtended(m, n - {k});
    }
  }
}
