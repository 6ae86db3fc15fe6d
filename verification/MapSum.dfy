/** The sum of the values of a finite map: what the allocators keep in their byte counters. */
module MapSum {

  ghost function Sum(m: map<nat, nat>): nat {
    if m == map[] then 0
    else var k :| k in m; m[k] + Sum(m - {k})
  }

  lemma {:induction false} SumRemove(m: map<nat, nat>, k: nat)
    requires k in m
    ensures Sum(m) == m[k] + Sum(m - {k})
    decreases |m|
  {
    var j :| j in m && Sum(m) == m[j] + Sum(m - {j});
    if j != k {
      SumRemove(m - {j}, k);
      SumRemove(m - {k}, j);
      assert m - {j} - {k} == m - {k} - {j};
    }
  }

  lemma SumAdd(m: map<nat, nat>, k: nat, v: nat)
    requires k !in m
    ensures Sum(m[k := v]) == Sum(m) + v
  {
    SumRemove(m[k := v], k);
    assert m[k := v] - {k} == m;
  }

  lemma SumUpdate(m: map<nat, nat>, k: nat, v: nat)
    requires k in m
    ensures Sum(m[k := v]) == Sum(m) - m[k] + v && m[k] <= Sum(m)
  {
    SumRemove(m, k);
    SumRemove(m[k := v], k);
    assert m[k := v] - {k} == m - {k};
  }
}
