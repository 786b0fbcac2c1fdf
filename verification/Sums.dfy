/** Sums over the entries of a map, used for pool values and order book volumes. */
module Sums {

  ghost function Sum<K, V>(m: map<K, V>, w: (K, V) -> int): int
    decreases |m|
  {
    if m == map[] then 0 else
      var k :| k in m;
      w(k, m[k]) + Sum(m - {k}, w)
  }

  /** The sum does not depend on the order in which entries are taken out. */
  lemma {:induction false} SumRemove<K, V>(m: map<K, V>, w: (K, V) -> int, k: K)
    requires k in m
    ensures Sum(m, w) == w(k, m[k]) + Sum(m - {k}, w)
    decreases |m|
  {
    var j :| j in m && Sum(m, w) == w(j, m[j]) + Sum(m - {j}, w);
    if j != k {
      SumRemove(m - {j}, w, k);
      SumRemove(m - {k}, w, j);
      assert m - {j} - {k} == m - {k} - {j};
    }
  }

  lemma SumInsert<K, V>(m: map<K, V>, w: (K, V) -> int, k: K, v: V)
    requires k !in m
    ensures Sum(m[k := v], w) == Sum(m, w) + w(k, v)
  {
    SumRemove(m[k := v], w, k);
    assert m[k := v] - {k} == m;
  }

  lemma SumUpdate<K, V>(m: map<K, V>, w: (K, V) -> int, k: K, v: V)
    requires k in m
    ensures Sum(m[k := v], w) == Sum(m, w) - w(k, m[k]) + w(k, v)
  {
    SumRemove(m, w, k);
    SumRemove(m[k := v], w, k);
    assert m[k := v] - {k} == m - {k};
  }

  /** A sum of non-negative weights is at least each of them. */
  lemma {:induction false} SumBounds<K, V>(m: map<K, V>, w: (K, V) -> int)
    requires forall k :: k in m ==> w(k, m[k]) >= 0
    ensures Sum(m, w) >= 0
    ensures forall k :: k in m ==> Sum(m, w) >= w(k, m[k])
    decreases |m|
  {
    if m != map[] {
      var j :| j in m;
      SumRemove(m, w, j);
      SumBounds(m - {j}, w);
      forall k | k in m ensures Sum(m, w) >= w(k, m[k]) {
        if k != j { assert k in m - {j}; }
      }
    }
  }
}
