/** Sums over maps, and sizes of sets. */
module Counting {
  lemma SubsetCount<T>(a: set<T>, b: set<T>)
    requires a <= b
    ensures |a| <= |b|
  {
    assert b == a + (b - a);
  }

  /** The sum over the values of a map. */
  ghost function Sum<K, V, X>(values: map<K, V>, g: V -> multiset<X>): multiset<X>
    decreases |values|
  {
    if values == map[] then multiset{}
    else
      var k :| k in values;
      g(values[k]) + Sum(values - {k}, g)
  }

  lemma {:induction false} SumWithout<K, V, X>(values: map<K, V>, k: K, g: V -> multiset<X>)
    requires k in values
    ensures Sum(values, g) == g(values[k]) + Sum(values - {k}, g)
    decreases |values|
  {
    var j :| j in values && Sum(values, g) == g(values[j]) + Sum(values - {j}, g);
    if j != k {
      SumWithout(values - {j}, k, g);
      SumWithout(values - {k}, j, g);
      assert values - {j} - {k} == values - {k} - {j};
    }
  }

  lemma SumAdded<K, V, X>(values: map<K, V>, k: K, v: V, g: V -> multiset<X>)
    requires k !in values
    ensures Sum(values[k := v], g) == Sum(values, g) + g(v)
  {
    SumWithout(values[k := v], k, g);
    assert values[k := v] - {k} == values;
  }

  lemma SumChanged<K, V, X>(values: map<K, V>, k: K, v: V, g: V -> multiset<X>)
    requires k in values
    ensures Sum(values[k := v], g) + g(values[k]) == Sum(values, g) + g(v)
  {
    SumWithout(values[k := v], k, g);
    SumWithout(values, k, g);
    assert values[k := v] - {k} == values - {k};
  }

  lemma {:induction false} SumOfNothing<K, V, X>(values: map<K, V>, g: V -> multiset<X>)
    requires forall k :: k in values ==> g(values[k]) == multiset{}
    ensures Sum(values, g) == multiset{}
    decreases |values|
  {
    if values != map[] {
      var k :| k in values;
      SumWithout(values, k, g);
      SumOfNothing(values - {k}, g);
    }
  }
}
