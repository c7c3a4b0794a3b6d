/** Totals over maps: what a loop that ranges over a map in any order adds up to. */
module Sums {
  ghost function Sum<K(!new)>(m: map<K, int>): int {
    if m == map[] then 0
    else
      var k :| k in m;
      m[k] + Sum(m - {k})
  }

  /** Any key can be taken first: the order of the map does not show. */
  lemma {:induction false} SumPick<K(!new)>(m: map<K, int>, k: K)
    requires k in m
    ensures Sum(m) == m[k] + Sum(m - {k})
    decreases m.Keys
  {
    var j :| j in m && Sum(m) == m[j] + Sum(m - {j});
    if j != k {
      SumPick(m - {j}, k);
      SumPick(m - {k}, j);
      assert m - {j} - {k} == m - {k} - {j};
    }
  }

  lemma SumAdd<K(!new)>(m: map<K, int>, k: K, v: int)
    requires k !in m
    ensures Sum(m[k := v]) == Sum(m) + v
  {
    SumPick(m[k := v], k);
    assert m[k := v] - {k} == m;
  }

  lemma {:induction false} SumUnion<K(!new)>(a: map<K, int>, b: map<K, int>)
    requires a.Keys !! b.Keys
    ensures Sum(a + b) == Sum(a) + Sum(b)
    decreases b.Keys
  {
    if b == map[] {
      assert a + b == a;
    } else {
      var k :| k in b;
      SumPick(b, k);
      SumPick(a + b, k);
      assert (a + b) - {k} == a + (b - {k});
      SumUnion(a, b - {k});
    }
  }

  /** A total splits over any partition of the keys. */
  lemma SumSplit<K(!new)>(m: map<K, int>, a: map<K, int>, b: map<K, int>)
    requires m == a + b && a.Keys !! b.Keys
    ensures Sum(m) == Sum(a) + Sum(b)
  {
    SumUnion(a, b);
  }

  lemma {:induction false} SumDifference<K(!new)>(m: map<K, int>, a: map<K, int>, b: map<K, int>)
    requires m.Keys == a.Keys == b.Keys
    requires forall k :: k in m ==> m[k] == a[k] - b[k]
    ensures Sum(m) == Sum(a) - Sum(b)
    decreases m.Keys
  {
    if m != map[] {
      var k :| k in m;
      SumPick(m, k);
      SumPick(a, k);
      SumPick(b, k);
      SumDifference(m - {k}, a - {k}, b - {k});
    }
  }

  lemma {:induction false} SumZero<K(!new)>(m: map<K, int>)
    requires forall k :: k in m ==> m[k] == 0
    ensures Sum(m) == 0
    decreases m.Keys
  {
    if m != map[] {
      var k :| k in m;
      SumPick(m, k);
      SumZero(m - {k});
    }
  }

  /** Reading a map at `keys`, with 0 where it has none, misses what it holds elsewhere. */
  lemma SumRestricted<K(!new)>(m: map<K, int>, keys: set<K>, read: map<K, int>)
    requires read.Keys == keys
    requires forall k :: k in keys ==> read[k] == if k in m then m[k] else 0
    ensures Sum(read) == Sum(m) - Sum(m - keys)
  {
    hide Sum;
    var common := map k | k in m && k in keys :: m[k];
    var absent := read - m.Keys;
    SumZero(absent);
    assert read == common + absent;
    SumUnion(common, absent);
    assert m == common + (m - keys);
    SumUnion(common, m - keys);
  }

  lemma {:induction false} SumMonotone<K(!new)>(a: map<K, int>, b: map<K, int>)
    requires a.Keys <= b.Keys
    requires forall k :: k in a ==> a[k] <= b[k]
    requires forall k :: k in b && k !in a ==> 0 <= b[k]
    ensures Sum(a) <= Sum(b)
    decreases b.Keys
  {
    if b != map[] {
      var k :| k in b;
      SumPick(b, k);
      if k in a {
        SumPick(a, k);
      } else {
        assert a - {k} == a;
      }
      SumMonotone(a - {k}, b - {k});
    }
  }

  /** The same for a map of reals. */
  ghost function RealSum<K(!new)>(m: map<K, real>): real {
    if m == map[] then 0.0
    else
      var k :| k in m;
      m[k] + RealSum(m - {k})
  }

  lemma {:induction false} RealSumPick<K(!new)>(m: map<K, real>, k: K)
    requires k in m
    ensures RealSum(m) == m[k] + RealSum(m - {k})
    decreases m.Keys
  {
    var j :| j in m && RealSum(m) == m[j] + RealSum(m - {j});
    if j != k {
      RealSumPick(m - {j}, k);
      RealSumPick(m - {k}, j);
      assert m - {j} - {k} == m - {k} - {j};
    }
  }

  lemma RealSumAdd<K(!new)>(m: map<K, real>, k: K, v: real)
    requires k !in m
    ensures RealSum(m[k := v]) == RealSum(m) + v
  {
    RealSumPick(m[k := v], k);
    assert m[k := v] - {k} == m;
  }
}
