/** Sums of the values of finite maps. */
module MapSums {

  ghost function Sum<K(!new)>(m: map<K, nat>): nat
    decreases |m|
  {
    if m == map[] then 0
    else
      var k :| k in m;
      m[k] + Sum(m - {k})
  }

  lemma {:induction false} SumWithout<K(!new)>(m: map<K, nat>, k: K)
    requires k in m
    ensures Sum(m) == m[k] + Sum(m - {k})
    decreases |m|
  {
    assert exists j :: j in m;
    var j :| j in m && Sum(m) == m[j] + Sum(m - {j});
    if j != k {
      SumWithout(m - {j}, k);
      SumWithout(m - {k}, j);
      assert m - {j} - {k} == m - {k} - {j};
    }
  }

  lemma SumOfUpdate<K(!new)>(m: map<K, nat>, k: K, v: nat)
    ensures k !in m ==> Sum(m[k := v]) == Sum(m) + v
    ensures k in m ==> Sum(m[k := v]) == Sum(m) - m[k] + v
  {
    SumWithout(m[k := v], k);
    if k in m {
      SumWithout(m, k);
      assert m[k := v] - {k} == m - {k};
    } else {
      assert m[k := v] - {k} == m;
    }
  }

  /** A map with fewer keys or smaller values has a smaller sum. */
  lemma {:induction false} SumIsMonotonic<K(!new)>(a: map<K, nat>, b: map<K, nat>)
    requires forall k :: k in a ==> k in b && a[k] <= b[k]
    ensures Sum(a) <= Sum(b)
    decreases |a|
  {
    if k :| k in a {
      SumWithout(a, k);
      SumWithout(b, k);
      SumIsMonotonic(a - {k}, b - {k});
    }
  }
}
