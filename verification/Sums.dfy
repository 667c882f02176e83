// Sums over finite maps.
module Sums {

  // The sum of the values of a map.
  ghost function Sum<K(!new)>(m: map<K, nat>): nat
    decreases |m|
  {
    if m == map[] then 0
    else
      var k :| k in m;
      m[k] + Sum(m - {k})
  }

  lemma {:induction false} SumRemove<K(!new)>(m: map<K, nat>, k: K)
    requires k in m
    ensures Sum(m) == m[k] + Sum(m - {k})
    decreases |m|
  {
    var first :| first in m && Sum(m) == m[first] + Sum(m - {first});
    if first != k {
      SumRemove(m - {first}, k);
      SumRemove(m - {k}, first);
      assert m - {first} - {k} == m - {k} - {first};
    }
  }

  lemma SumUpdate<K(!new)>(m: map<K, nat>, k: K, v: nat)
    ensures Sum(m[k := v]) == Sum(m) - (if k in m then m[k] else 0) + v
  {
    var n := m[k := v];
    SumRemove(n, k);
    assert n - {k} == m - {k};
    if k in m {
      SumRemove(m, k);
    } else {
      assert m - {k} == m;
    }
  }

  lemma {:induction false} SumOfZeros<K(!new)>(m: map<K, nat>)
    requires forall k :: k in m ==> m[k] == 0
    ensures Sum(m) == 0
    decreases |m|
  {
    if m != map[] {
      var k :| k in m;
      SumRemove(m, k);
      SumOfZeros(m - {k});
    }
  }

  // The sum of a weight over the values of a map.
  ghost function Total<K(!new), V(!new)>(m: map<K, V>, weight: V -> nat): nat {
    Sum(map k | k in m :: weight(m[k]))
  }

  lemma TotalUpdate<K(!new), V(!new)>(m: map<K, V>, k: K, v: V, weight: V -> nat)
    ensures Total(m[k := v], weight) == Total(m, weight) - (if k in m then weight(m[k]) else 0) + weight(v)
  {
    var w := map i | i in m :: weight(m[i]);
    SumUpdate(w, k, weight(v));
    var n := m[k := v];
    assert (map i | i in n :: weight(n[i])) == w[k := weight(v)];
  }
}
