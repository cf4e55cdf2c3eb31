/** Sums over finite maps, independent of the order in which entries are visited.

    Resident bytes, a tenant's bytes, bytes on their way to the counter and bytes admitted but not
    yet stored are all such sums. The lemmas say how a sum moves when one entry is set, taken out or
    bounded. */
module Sums {

  ghost function Sum<K>(m: map<K, int>): (r: int)
    decreases |m|
  {
    if m == map[] then 0
    else
      var k :| k in m;
      assert |m - {k}| < |m| by { SmallerMap(m, k); }
      m[k] + Sum(m - {k})
  }

  lemma {:induction false} SmallerMap<K, V>(m: map<K, V>, k: K)
    requires k in m
    ensures |m - {k}| == |m| - 1
  {
    assert (m - {k}).Keys == m.Keys - {k};
    assert |m.Keys| == |m| && |(m - {k}).Keys| == |m - {k}|;
  }

  /** Any key can be taken out first. */
  lemma {:induction false} SumTake<K>(m: map<K, int>, k: K)
    requires k in m
    ensures Sum(m) == m[k] + Sum(m - {k})
    decreases |m|
  {
    var j :| j in m && Sum(m) == m[j] + Sum(m - {j});
    if j != k {
      SmallerMap(m, j);
      SmallerMap(m, k);
      SumTake(m - {j}, k);
      SumTake(m - {k}, j);
      assert m - {j} - {k} == m - {k} - {j};
    }
  }

  lemma {:induction false} SumRemove<K>(m: map<K, int>, k: K)
    ensures Sum(m - {k}) == Sum(m) - (if k in m then m[k] else 0)
  {
    if k in m {
      SumTake(m, k);
    } else {
      assert m - {k} == m;
    }
  }

  lemma {:induction false} SumUpdate<K>(m: map<K, int>, k: K, v: int)
    ensures Sum(m[k := v]) == Sum(m) - (if k in m then m[k] else 0) + v
  {
    SumTake(m[k := v], k);
    SumRemove(m, k);
    assert m[k := v] - {k} == m - {k};
  }

  lemma {:induction false} SumBumped<K>(a: map<K, int>, b: map<K, int>, k: K, d: int)
    requires k in a && b == a[k := a[k] + d]
    ensures Sum(b) == Sum(a) + d
  {
    SumUpdate(a, k, a[k] + d);
  }

  lemma {:induction false} SumNonNegative<K>(m: map<K, int>)
    requires forall k :: k in m ==> m[k] >= 0
    ensures Sum(m) >= 0
    decreases |m|
  {
    if m != map[] {
      var k :| k in m;
      SumTake(m, k);
      SmallerMap(m, k);
      SumNonNegative(m - {k});
    }
  }

  lemma {:induction false} SumNonPositive<K>(m: map<K, int>)
    requires forall k :: k in m ==> m[k] <= 0
    ensures Sum(m) <= 0
    decreases |m|
  {
    if m != map[] {
      var k :| k in m;
      SumTake(m, k);
      SmallerMap(m, k);
      SumNonPositive(m - {k});
    }
  }

  lemma {:induction false} SumAtMost<K>(m: map<K, int>, bound: nat)
    requires forall k :: k in m ==> m[k] <= bound
    ensures Sum(m) <= |m| * bound
    decreases |m|
  {
    if m != map[] {
      var k :| k in m;
      SumTake(m, k);
      SmallerMap(m, k);
      SumAtMost(m - {k}, bound);
      OneMore(|m| - 1, bound);
    }
  }

  lemma {:induction false} OneMore(n: nat, bound: nat)
    ensures (n + 1) * bound == n * bound + bound
  {
  }
}
