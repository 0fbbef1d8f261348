/** The total of a finite integer-valued map: account balances, list lengths, message-code lengths. */
module MapSums {

  ghost function MapSum<K>(m: map<K, int>): int
    decreases |m|
  {
    if m == map[] then 0
    else
      var k :| k in m;
      assert (m - {k}).Keys == m.Keys - {k};
      m[k] + MapSum(m - {k})
  }

  /** Any key may be taken out first. */
  lemma {:induction false} MapSumRemove<K>(m: map<K, int>, k: K)
    requires k in m
    ensures MapSum(m) == m[k] + MapSum(m - {k})
    decreases |m|
  {
    var x :| x in m && MapSum(m) == m[x] + MapSum(m - {x});
    if x != k {
      assert (m - {x}).Keys == m.Keys - {x};
      assert (m - {k}).Keys == m.Keys - {k};
      MapSumRemove(m - {x}, k);
      MapSumRemove(m - {k}, x);
      assert m - {x} - {k} == m - {k} - {x};
    }
  }

  lemma MapSumUpdate<K>(m: map<K, int>, k: K, v: int)
    ensures MapSum(m[k := v]) == MapSum(m) - (if k in m then m[k] else 0) + v
  {
    MapSumRemove(m[k := v], k);
    if k in m {
      MapSumRemove(m, k);
      assert m[k := v] - {k} == m - {k};
    } else {
      assert m[k := v] - {k} == m;
    }
  }

  lemma {:induction false} MapSumNonNegative<K>(m: map<K, int>)
    requires forall k :: k in m ==> m[k] >= 0
    ensures MapSum(m) >= 0
    ensures forall k :: k in m ==> m[k] <= MapSum(m)
    decreases |m|
  {
    forall k | k in m
      ensures 0 <= m[k] <= MapSum(m)
    {
      assert (m - {k}).Keys == m.Keys - {k};
      MapSumRemove(m, k);
      MapSumNonNegative(m - {k});
    }
  }

  /** Pointwise order carries over to totals; strictness at one key carries over too. */
  lemma {:induction false} MapSumMonotone<K>(m: map<K, int>, n: map<K, int>)
    requires m.Keys == n.Keys
    requires forall k :: k in m ==> m[k] <= n[k]
    ensures MapSum(m) <= MapSum(n)
    ensures (exists k :: k in m && m[k] < n[k]) ==> MapSum(m) < MapSum(n)
    decreases |m|
  {
    if m != map[] {
      var k :| k in m && ((exists j :: j in m && m[j] < n[j]) ==> m[k] < n[k]);
      assert (m - {k}).Keys == m.Keys - {k};
      MapSumRemove(m, k);
      MapSumRemove(n, k);
      MapSumMonotone(m - {k}, n - {k});
    } else {
      assert n == map[];
    }
  }
}
