/** Sums over the values of a map. */
module Sums {
  ghost function Sum<K>(m: map<K, nat>): nat {
    if m == map[] then 0 else var k :| k in m; m[k] + Sum(m - {k})
  }

  // Whichever entry is taken out first.
  lemma {:induction false} SumSplit<K>(m: map<K, nat>, k: K)
    requires k in m
    ensures Sum(m) == m[k] + Sum(m - {k})
  {
    var j :| j in m && Sum(m) == m[j] + Sum(m - {j});
    if j != k {
      SumSplit(m - {j}, k);
      SumSplit(m - {k}, j);
      assert m - {j} - {k} == m - {k} - {j};
    }
  }

  /** A changed or new entry changes the sum by the difference. */
  lemma SumPut<K>(m: map<K, nat>, k: K, n: nat)
    ensures Sum(m[k := n]) + (if k in m then m[k] else 0) == Sum(m) + n
  {
    SumSplit(m[k := n], k);
    if k in m {
      SumSplit(m, k);
      assert m[k := n] - {k} == m - {k};
    } else {
      assert m[k := n] - {k} == m;
    }
  }

  lemma SumHas<K>(m: map<K, nat>, k: K)
    requires k in m
    ensures m[k] <= Sum(m)
  {
    SumSplit(m, k);
  }
}
