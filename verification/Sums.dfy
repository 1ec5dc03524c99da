/** Sums of a weight over the entries of a finite map, and how they move when one entry does. */
module Sums {

  /** The sum of `weight` over the values of `m`; the order of the additions does not matter (TotalSplit). */
  ghost function Total<K, V>(m: map<K, V>, weight: V -> int): int
    decreases |m|
  {
    if m == map[] then
      0
    else
      var k :| k in m;
      assert (m - {k}).Keys == m.Keys - {k};
      weight(m[k]) + Total(m - {k}, weight)
  }

  /** Any entry may be taken out first. */
  lemma {:induction false} TotalSplit<K, V>(m: map<K, V>, k: K, weight: V -> int)
    requires k in m
    ensures Total(m, weight) == weight(m[k]) + Total(m - {k}, weight)
    decreases |m|
  {
    var first :| first in m && Total(m, weight) == weight(m[first]) + Total(m - {first}, weight);
    if first != k {
      assert (m - {first}).Keys == m.Keys - {first};
      assert (m - {k}).Keys == m.Keys - {k};
      TotalSplit(m - {first}, k, weight);
      TotalSplit(m - {k}, first, weight);
      assert m - {first} - {k} == m - {k} - {first};
    }
  }

  /** Writing one entry moves the sum by the difference of the two weights. */
  lemma TotalPut<K, V>(m: map<K, V>, k: K, v: V, weight: V -> int)
    ensures Total(m[k := v], weight) ==
            Total(m, weight) - (if k in m then weight(m[k]) else 0) + weight(v)
  {
    TotalSplit(m[k := v], k, weight);
    if k in m {
      TotalSplit(m, k, weight);
      assert m[k := v] - {k} == m - {k};
    } else {
      assert m[k := v] - {k} == m;
    }
  }

  /** A sum of non-negative weights is non-negative. */
  lemma {:induction false} TotalNonNegative<K, V>(m: map<K, V>, weight: V -> int)
    requires forall k :: k in m ==> weight(m[k]) >= 0
    ensures Total(m, weight) >= 0
    decreases |m|
  {
    if m != map[] {
      var k :| k in m;
      TotalSplit(m, k, weight);
      assert (m - {k}).Keys == m.Keys - {k};
      TotalNonNegative(m - {k}, weight);
    }
  }

  /** A sum of zero weights is zero. */
  lemma {:induction false} TotalZero<K, V>(m: map<K, V>, weight: V -> int)
    requires forall k :: k in m ==> weight(m[k]) == 0
    ensures Total(m, weight) == 0
    decreases |m|
  {
    if m != map[] {
      var k :| k in m;
      TotalSplit(m, k, weight);
      assert (m - {k}).Keys == m.Keys - {k};
      TotalZero(m - {k}, weight);
    }
  }
}
