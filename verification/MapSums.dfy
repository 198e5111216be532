/** Sums over the values of a map. */
module MapSums {

  ghost function SumBy<V>(m: map<string, V>, f: V -> real): real
    decreases |m|
  {
    if m == map[] then 0.0
    else
      var k :| k in m;
      f(m[k]) + SumBy(m - {k}, f)
  }

  /** The sum does not depend on the order in which keys are taken out. */
  lemma {:induction false} SumByRemove<V>(m: map<string, V>, f: V -> real, k: string)
    requires k in m
    ensures SumBy(m, f) == f(m[k]) + SumBy(m - {k}, f)
    decreases |m|
  {
    var k' :| k' in m && SumBy(m, f) == f(m[k']) + SumBy(m - {k'}, f);
    if k' != k {
      SumByRemove(m - {k'}, f, k);
      SumByRemove(m - {k}, f, k');
      assert m - {k'} - {k} == m - {k} - {k'};
    }
  }

  lemma SumByUpdate<V>(m: map<string, V>, f: V -> real, k: string, v: V)
    ensures SumBy(m[k := v], f) == SumBy(m, f) + f(v) - if k in m then f(m[k]) else 0.0
  {
    SumByRemove(m[k := v], f, k);
    assert m[k := v] - {k} == m - {k};
    if k in m {
      SumByRemove(m, f, k);
    } else {
      assert m - {k} == m;
    }
  }
}
