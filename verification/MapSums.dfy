/** Sums of a measure over the values of a finite map. */
module MapSums {

  ghost function Sum<K, V>(m: map<K, V>, f: V -> real): real
    decreases |m|
  {
    if m == map[] then 0.0
    else
      var k :| k in m;
      assert m[k] == m[k] && |m - {k}| < |m|;
      f(m[k]) + Sum(m - {k}, f)
  }

  /** The order in which the keys are taken does not matter. */
  lemma {:induction false} SumRemove<K, V>(m: map<K, V>, k: K, f: V -> real)
    requires k in m
    ensures Sum(m, f) == f(m[k]) + Sum(m - {k}, f)
    decreases |m|
  {
    var j :| j in m && Sum(m, f) == f(m[j]) + Sum(m - {j}, f);
    if j != k {
      SumRemove(m - {j}, k, f);
      SumRemove(m - {k}, j, f);
      assert m - {j} - {k} == m - {k} - {j};
    }
  }

  lemma SumInsert<K, V>(m: map<K, V>, k: K, v: V, f: V -> real)
    ensures Sum(m[k := v], f) == f(v) + Sum(m - {k}, f)
  {
    SumRemove(m[k := v], k, f);
    assert m[k := v] - {k} == m - {k};
  }

  lemma SumUpdate<K, V>(m: map<K, V>, k: K, v: V, f: V -> real)
    ensures Sum(m[k := v], f) == Sum(m, f) - (if k in m then f(m[k]) else 0.0) + f(v)
  {
    SumInsert(m, k, v, f);
    if k in m { SumRemove(m, k, f); } else { assert m - {k} == m; }
  }
}
