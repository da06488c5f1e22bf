/** Sums of a weight over the values of a map: what the receivers' running budgets stand for. */
module Totals {
  ghost function Total<K(!new), V>(m: map<K, V>, weight: V -> nat): nat
    decreases |m|
  {
    if m == map[] then 0
    else var k :| k in m; weight(m[k]) + Total(m - {k}, weight)
  }

  lemma {:induction false} TotalRemove<K(!new), V>(m: map<K, V>, weight: V -> nat, k: K)
    requires k in m
    ensures Total(m, weight) == weight(m[k]) + Total(m - {k}, weight)
    decreases |m|
  {
    var j :| j in m && Total(m, weight) == weight(m[j]) + Total(m - {j}, weight);
    if j != k {
      TotalRemove(m - {j}, weight, k);
      TotalRemove(m - {k}, weight, j);
      assert m - {j} - {k} == m - {k} - {j};
    }
  }

  lemma TotalInsert<K(!new), V>(m: map<K, V>, weight: V -> nat, k: K, v: V)
    requires k !in m
    ensures Total(m[k := v], weight) == Total(m, weight) + weight(v)
  {
    TotalRemove(m[k := v], weight, k);
    assert m[k := v] - {k} == m;
  }

  lemma TotalReplace<K(!new), V>(m: map<K, V>, weight: V -> nat, k: K, v: V)
    requires k in m
    ensures Total(m[k := v], weight) == Total(m, weight) - weight(m[k]) + weight(v)
  {
    TotalRemove(m, weight, k);
    TotalRemove(m[k := v], weight, k);
    assert m[k := v] - {k} == m - {k};
  }

  lemma {:induction false} TotalRemoveSome<K(!new), V>(m: map<K, V>, weight: V -> nat, gone: set<K>)
    ensures Total(m - gone, weight) <= Total(m, weight)
    decreases gone
  {
    if gone == {} {
      assert m - gone == m;
    } else {
      var k :| k in gone;
      TotalRemoveSome(m, weight, gone - {k});
      var rest := m - (gone - {k});
      assert m - gone == rest - {k};
      if k in rest {
        TotalRemove(rest, weight, k);
      } else {
        assert rest - {k} == rest;
      }
    }
  }

  lemma UnionWithout<K, V>(a: map<K, V>, b: map<K, V>, k: K)
    requires k in b && k !in a
    ensures k in a + b && (a + b)[k] == b[k] && (a + b) - {k} == a + (b - {k})
  {}

  lemma {:induction false} TotalUnion<K(!new), V>(a: map<K, V>, b: map<K, V>, weight: V -> nat)
    requires a.Keys !! b.Keys
    ensures Total(a + b, weight) == Total(a, weight) + Total(b, weight)
    decreases |b|
  {
    if b == map[] {
      assert a + b == a;
    } else {
      var k :| k in b;
      TotalUnion(a, b - {k}, weight);
      TotalRemove(b, weight, k);
      UnionWithout(a, b, k);
      TotalRemove(a + b, weight, k);
    }
  }

  /** What each value loses adds up. */
  lemma {:induction false} TotalLost<K(!new), V>(
    after: map<K, V>, before: map<K, V>, weight: V -> nat, lost: V -> nat)
    requires after.Keys == before.Keys
    requires forall k <- after :: weight(after[k]) + lost(before[k]) == weight(before[k])
    ensures Total(after, weight) + Total(before, lost) == Total(before, weight)
    decreases |after|
  {
    if after == map[] {
      assert before == map[];
    } else {
      var k :| k in after;
      TotalRemove(after, weight, k);
      TotalRemove(before, weight, k);
      TotalRemove(before, lost, k);
      TotalLost(after - {k}, before - {k}, weight, lost);
    }
  }
}
