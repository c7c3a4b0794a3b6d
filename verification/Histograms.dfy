/** Windowed histograms: cumulative snapshots, their deltas, and quantile interpolation. */
module Histograms {
  /** A uint64, with its wrap-around. */
  type U64 = n: int | 0 <= n < 0x1_0000_0000_0000_0000

  function Wrap(n: int): U64 { n % 0x1_0000_0000_0000_0000 }

  /** Per-bucket counts: bucket i is (bounds[i-1], bounds[i]], the last one is unbounded. */
  datatype Histogram = Histogram(sum: real, count: U64, bounds: seq<real>, counts: seq<U64>)

  const EMPTY := Histogram(0.0, 0, [], [])

  function Total(counts: seq<U64>): nat {
    if counts == [] then 0 else Total(counts[..|counts| - 1]) + counts[|counts| - 1]
  }

  predicate Increasing(bounds: seq<real>) {
    forall i, j :: 0 <= i < j < |bounds| ==> bounds[i] < bounds[j]
  }

  predicate WellFormed(h: Histogram) {
    && |h.bounds| > 0 && |h.counts| == |h.bounds| + 1
    && Increasing(h.bounds)
    && h.count == Total(h.counts)
  }

  // ----- Quantiles -----

  /** The value at rank `target` in a bucket (lower, upper] of c observations with `below` before it. */
  function Interpolated(lower: real, upper: real, below: real, c: real, target: real): real
    requires c != 0.0
  {
    lower + (upper - lower) * ((target - below) / c)
  }

  /** The search for the bucket holding the target rank, from bucket i on, with `cum`
      observations below it. */
  function From(h: Histogram, target: real, i: nat, cum: U64): real
    requires |h.bounds| > 0 && i <= |h.counts|
    requires i > 0 ==> (cum as real) < target
    decreases |h.counts| - i
  {
    var last := h.bounds[|h.bounds| - 1];
    if i == |h.counts| then last
    else
      var newCum := Wrap(cum + h.counts[i]);
      if newCum as real >= target then
        if i >= |h.bounds| then last
        else if i == 0 then h.bounds[0]
        else
          // A bucket that reaches the rank after the first cannot be empty.
          assert h.counts[i] != 0;
          Interpolated(h.bounds[i - 1], h.bounds[i], cum as real, h.counts[i] as real, target)
      else From(h, target, i + 1, newCum)
  }

  function Rank(q: real, count: U64): real { q * count as real }

  function Quantile(h: Histogram, q: real): real {
    if h.count == 0 || |h.bounds| == 0 then 0.0 else From(h, Rank(q, h.count), 0, 0)
  }

  /** No division by zero can happen here, whatever the histogram and the rank. */
  method ComputeQuantile(h: Histogram, q: real) returns (r: real)
    ensures r == Quantile(h, q)
  {
    hide Rank, Interpolated;
    if h.count == 0 || |h.bounds| == 0 {
      return 0.0;
    }
    var target := Rank(q, h.count);
    var cum: U64 := 0;
    for i := 0 to |h.counts|
      invariant i > 0 ==> (cum as real) < target
      invariant From(h, target, i, cum) == Quantile(h, q)
    {
      var c := h.counts[i];
      var newCum := Wrap(cum + c);
      if newCum as real >= target {
        if i >= |h.bounds| {
          return h.bounds[|h.bounds| - 1];
        }
        if i == 0 {
          return h.bounds[0];
        }
        return Interpolated(h.bounds[i - 1], h.bounds[i], cum as real, c as real, target);
      }
      cum := newCum;
    }
    return h.bounds[|h.bounds| - 1];
  }

  /** The lower edge of what can still come out from bucket i on. */
  function Floor(h: Histogram, i: nat): real
    requires |h.bounds| > 0
  {
    if i == 0 then h.bounds[0] else if i <= |h.bounds| then h.bounds[i - 1] else h.bounds[|h.bounds| - 1]
  }

  lemma Scaled(d: real, f: real)
    requires 0.0 <= d && 0.0 <= f <= 1.0
    ensures 0.0 <= d * f <= d
  {
    assert d * f <= d * 1.0;
  }

  lemma Fraction(x: real, c: real)
    requires 0.0 < c && 0.0 <= x <= c
    ensures 0.0 <= x / c <= 1.0
  {
  }

  lemma Interpolates(lower: real, upper: real, below: real, c: real, target: real)
    requires lower <= upper && c > 0.0 && below <= target <= below + c
    ensures lower <= Interpolated(lower, upper, below, c, target) <= upper
  {
    var d, f := upper - lower, (target - below) / c;
    Fraction(target - below, c);
    Scaled(d, f);
    assert Interpolated(lower, upper, below, c, target) == lower + d * f;
  }

  lemma FractionMonotone(x: real, y: real, c: real)
    requires 0.0 < c && x <= y
    ensures x / c <= y / c
  {
    assert y / c - x / c == (y - x) / c;
  }

  lemma InterpolationMonotone(lower: real, upper: real, below: real, c: real, t: real, t': real)
    requires lower <= upper && c > 0.0 && t <= t'
    ensures Interpolated(lower, upper, below, c, t) <= Interpolated(lower, upper, below, c, t')
  {
    var f, f' := (t - below) / c, (t' - below) / c;
    FractionMonotone(t - below, t' - below, c);
    assert (upper - lower) * (f' - f) >= 0.0;
    assert (upper - lower) * (f' - f) == (upper - lower) * f' - (upper - lower) * f;
  }

  /** A search that starts at bucket i ends between that bucket's lower edge and the last bound. */
  lemma {:induction false} FromBounded(h: Histogram, target: real, i: nat, cum: U64)
    requires |h.bounds| > 0 && Increasing(h.bounds) && i <= |h.counts|
    requires i > 0 ==> (cum as real) < target
    ensures Floor(h, i) <= From(h, target, i, cum) <= h.bounds[|h.bounds| - 1]
    decreases |h.counts| - i
  {
    hide Interpolated;
    if i < |h.counts| {
      var newCum := Wrap(cum + h.counts[i]);
      if newCum as real >= target {
        if 0 < i < |h.bounds| {
          assert newCum <= cum + h.counts[i];
          Interpolates(h.bounds[i - 1], h.bounds[i], cum as real, h.counts[i] as real, target);
        }
      } else {
        FromBounded(h, target, i + 1, newCum);
      }
    }
  }

  lemma {:induction false} FromMonotone(h: Histogram, t: real, t': real, i: nat, cum: U64)
    requires |h.bounds| > 0 && Increasing(h.bounds) && i <= |h.counts|
    requires t <= t' && (i > 0 ==> (cum as real) < t)
    ensures From(h, t, i, cum) <= From(h, t', i, cum)
    decreases |h.counts| - i
  {
    hide Interpolated;
    if i < |h.counts| {
      var newCum := Wrap(cum + h.counts[i]);
      if newCum as real >= t' {
        if 0 < i < |h.bounds| {
          InterpolationMonotone(h.bounds[i - 1], h.bounds[i], cum as real, h.counts[i] as real, t, t');
        }
      } else if newCum as real >= t {
        FromBounded(h, t', i + 1, newCum);
        if 0 < i < |h.bounds| {
          assert newCum <= cum + h.counts[i];
          Interpolates(h.bounds[i - 1], h.bounds[i], cum as real, h.counts[i] as real, t);
        }
      } else {
        FromMonotone(h, t, t', i + 1, newCum);
      }
    }
  }

  lemma RankMonotone(q: real, q': real, count: U64)
    requires q <= q'
    ensures Rank(q, count) <= Rank(q', count)
  {
    assert (q' - q) * count as real >= 0.0;
  }

  /** Between the first and the last bound, and monotone in q, for every rank. */
  lemma QuantileBoundedMonotone(h: Histogram, q: real, q': real)
    requires |h.bounds| > 0 && Increasing(h.bounds) && h.count > 0 && q <= q'
    ensures h.bounds[0] <= Quantile(h, q) <= Quantile(h, q') <= h.bounds[|h.bounds| - 1]
  {
    hide Rank, From, Interpolated;
    var t, t' := Rank(q, h.count), Rank(q', h.count);
    RankMonotone(q, q', h.count);
    FromBounded(h, t, 0, 0);
    FromBounded(h, t', 0, 0);
    FromMonotone(h, t, t', 0, 0);
  }

  lemma {:induction false} TotalMono(counts: seq<U64>, i: nat, j: nat)
    requires i <= j <= |counts|
    ensures Total(counts[..i]) <= Total(counts[..j])
    decreases j
  {
    if i < j {
      assert counts[..j][..j - 1] == counts[..j - 1];
      TotalMono(counts, i, j - 1);
    }
  }

  lemma TotalStep(counts: seq<U64>, i: nat)
    requires i < |counts|
    ensures Total(counts[..i + 1]) == Total(counts[..i]) + counts[i]
  {
    assert counts[..i + 1][..i] == counts[..i];
  }

  lemma InterpolatesEnd(lower: real, upper: real, below: real, c: real)
    requires c > 0.0
    ensures Interpolated(lower, upper, below, c, below + c) == upper
  {
    assert c / c == 1.0;
  }

  /** One step of the search, with the comparison made on the counts themselves. */
  lemma Advance(h: Histogram, target: U64, i: nat, cum: U64)
    requires |h.bounds| > 0 && i < |h.counts| && cum + h.counts[i] < target
    ensures From(h, target as real, i, cum) == From(h, target as real, i + 1, cum + h.counts[i])
  {
    hide Interpolated, Increasing;
  }

  lemma Land(h: Histogram, target: U64, i: nat, cum: U64)
    requires |h.bounds| > 0 && i < |h.counts| && i < |h.bounds|
    requires cum + h.counts[i] == target && (i > 0 ==> h.counts[i] > 0)
    ensures From(h, target as real, i, cum) == h.bounds[i]
  {
    hide Interpolated, Increasing;
    if i > 0 {
      var below, c: real := cum as real, h.counts[i] as real;
      assert target as real == below + c;
      InterpolatesEnd(h.bounds[i - 1], h.bounds[i], below, c);
    }
  }

  lemma {:induction false} FromHits(h: Histogram, target: U64, i: nat, cum: U64, k: nat)
    requires WellFormed(h) && i <= k < |h.bounds| && (k > 0 ==> h.counts[k] > 0)
    requires cum == Total(h.counts[..i]) && target == Total(h.counts[..k + 1])
    requires i > 0 ==> cum < target
    ensures From(h, target as real, i, cum) == h.bounds[k]
    decreases k - i
  {
    hide From, Interpolated, Total, Increasing;
    TotalStep(h.counts, i);
    if i < k {
      TotalStep(h.counts, k);
      TotalMono(h.counts, i + 1, k);
      Advance(h, target, i, cum);
      FromHits(h, target, i + 1, cum + h.counts[i], k);
    } else {
      Land(h, target, i, cum);
    }
  }

  /** The interpolation is anchored: at the rank where a non-empty bucket ends, the quantile
      is that bucket's upper bound. */
  lemma QuantileHitsBounds(h: Histogram, k: nat)
    requires WellFormed(h) && h.count > 0 && k < |h.bounds| && (k > 0 ==> h.counts[k] > 0)
    ensures Quantile(h, Total(h.counts[..k + 1]) as real / h.count as real) == h.bounds[k]
  {
    var n, t := h.count, Total(h.counts[..k + 1]);
    assert Rank(t as real / n as real, n) == t as real;
    TotalMono(h.counts, k + 1, |h.counts|);
    assert h.counts[..|h.counts|] == h.counts && h.counts[..0] == [];
    hide Rank, From, Interpolated;
    FromHits(h, t, 0, 0, k);
  }

  // ----- Inside a bucket -----

  /** The search passes every bucket that ends below the rank. */
  lemma {:induction false} SearchPasses(h: Histogram, r: real, i: nat, k: nat)
    requires WellFormed(h) && i <= k <= |h.counts|
    requires Total(h.counts[..k]) as real < r || i == k
    requires i > 0 ==> Total(h.counts[..i]) as real < r
    ensures Total(h.counts[..i]) <= Total(h.counts[..k]) <= h.count
    ensures k > 0 ==> Total(h.counts[..k]) as real < r
    ensures From(h, r, i, Total(h.counts[..i])) == From(h, r, k, Total(h.counts[..k]))
    decreases k - i
  {
    hide From, Interpolated, Total, Increasing;
    TotalWithin(h, i, k);
    if i < k {
      TotalWithin(h, i + 1, k);
      TotalStep(h.counts, i);
      SearchStep(h, r, i, Total(h.counts[..i]));
      SearchPasses(h, r, i + 1, k);
    }
  }

  lemma TotalWithin(h: Histogram, i: nat, k: nat)
    requires h.count == Total(h.counts) && i <= k <= |h.counts|
    ensures Total(h.counts[..i]) <= Total(h.counts[..k]) <= h.count
  {
    hide Total;
    TotalMono(h.counts, i, k);
    TotalMono(h.counts, k, |h.counts|);
    Whole(h.counts);
  }

  lemma SearchStep(h: Histogram, r: real, i: nat, cum: U64)
    requires |h.bounds| > 0 && i < |h.counts| && cum + h.counts[i] < 0x1_0000_0000_0000_0000
    requires (cum + h.counts[i]) as real < r
    ensures From(h, r, i, cum) == From(h, r, i + 1, cum + h.counts[i])
  {
    hide Interpolated, Increasing;
  }

  /** Inside bucket k, from its lower to its upper bound, the quantile rises in proportion to how far
      the rank r has come into the bucket's observations. */
  lemma QuantileInterpolates(h: Histogram, k: nat, r: real)
    requires WellFormed(h) && 0 < k < |h.bounds| && h.counts[k] > 0
    requires Total(h.counts[..k]) as real < r <= (Total(h.counts[..k]) + h.counts[k]) as real
    ensures h.count > 0
    ensures (Quantile(h, r / h.count as real) - h.bounds[k - 1]) * h.counts[k] as real
            == (h.bounds[k] - h.bounds[k - 1]) * (r - Total(h.counts[..k]) as real)
  {
    hide Total, From, Increasing;
    var cum := Total(h.counts[..k]);
    TotalWithin(h, k, k + 1);
    TotalStep(h.counts, k);
    QuantileSearches(h, r);
    SearchPasses(h, r, 0, k);
    assert Total(h.counts[..0]) == 0 by { TotalNothing(); assert h.counts[..0] == []; }
    SearchLands(h, r, k, cum);
    Proportion(h.bounds[k] - h.bounds[k - 1], r - cum as real, h.counts[k] as real);
  }

  lemma QuantileSearches(h: Histogram, r: real)
    requires h.count > 0 && |h.bounds| > 0
    ensures Quantile(h, r / h.count as real) == From(h, r, 0, 0)
  {
    hide From;
    assert Rank(r / h.count as real, h.count) == r;
  }

  lemma SearchLands(h: Histogram, r: real, k: nat, cum: U64)
    requires 0 < k < |h.bounds| && k < |h.counts| && h.counts[k] > 0
    requires cum + h.counts[k] < 0x1_0000_0000_0000_0000
    requires cum as real < r <= (cum + h.counts[k]) as real
    ensures From(h, r, k, cum) ==
            h.bounds[k - 1] + (h.bounds[k] - h.bounds[k - 1]) * ((r - cum as real) / h.counts[k] as real)
  {
    assert Wrap(cum + h.counts[k]) == cum + h.counts[k];
  }

  lemma Proportion(d: real, x: real, c: real)
    requires c > 0.0
    ensures d * (x / c) * c == d * x
  {
    assert x / c * c == x;
    assert d * (x / c) * c == d * (x / c * c);
  }

  /** In the first bucket, which has no lower bound, the quantile is its upper bound; in the last one,
      which has no upper bound, its lower bound. */
  lemma QuantileAtTheEnds(h: Histogram, r: real)
    requires WellFormed(h) && h.count > 0
    ensures r <= h.counts[0] as real ==> Quantile(h, r / h.count as real) == h.bounds[0]
    ensures r > Total(h.counts[..|h.bounds|]) as real ==> Quantile(h, r / h.count as real) == h.bounds[|h.bounds| - 1]
  {
    var n := |h.bounds|;
    hide Total, From, Increasing;
    QuantileSearches(h, r);
    TotalWithin(h, 0, 1);
    TotalWithin(h, 0, n);
    assert Total(h.counts[..0]) == 0 by { TotalNothing(); assert h.counts[..0] == []; }
    if r <= h.counts[0] as real {
      FirstBucket(h, r);
    }
    if r > Total(h.counts[..n]) as real {
      SearchPasses(h, r, 0, n);
      LastBucket(h, r, Total(h.counts[..n]));
    }
  }

  lemma FirstBucket(h: Histogram, r: real)
    requires |h.bounds| > 0 && |h.counts| > 0 && r <= h.counts[0] as real
    ensures From(h, r, 0, 0) == h.bounds[0]
  {
    assert Wrap(0 + h.counts[0]) == h.counts[0];
  }

  lemma LastBucket(h: Histogram, r: real, cum: U64)
    requires |h.bounds| > 0 && |h.counts| == |h.bounds| + 1 && cum as real < r
    ensures From(h, r, |h.bounds|, cum) == h.bounds[|h.bounds| - 1]
  {
    hide Interpolated;
  }

  // ----- Deltas -----

  function CountAt(h: Histogram, i: nat): U64 {
    if i < |h.counts| then h.counts[i] else 0
  }

  function Delta(start: Histogram, end: Histogram): Histogram {
    Histogram(end.sum - start.sum, Wrap(end.count - start.count), end.bounds,
              seq(|end.counts|, i requires 0 <= i < |end.counts| => Wrap(end.counts[i] - CountAt(start, i))))
  }

  method SubtractHistogram(start: Histogram, end: Histogram) returns (out: Histogram)
    ensures out == Delta(start, end)
  {
    var counts: seq<U64> := [];
    for i := 0 to |end.counts|
      invariant |counts| == i
      invariant forall j :: 0 <= j < i ==> counts[j] == Wrap(end.counts[j] - CountAt(start, j))
    {
      var s: U64 := 0;
      if i < |start.counts| {
        s := start.counts[i];
      }
      counts := counts + [Wrap(end.counts[i] - s)];
    }
    out := Histogram(end.sum - start.sum, Wrap(end.count - start.count), end.bounds, counts);
  }

  /** Whatever the snapshots, start and difference add up to the end modulo 2^64, bucket by bucket. */
  lemma DeltaModular(start: Histogram, end: Histogram, i: nat)
    requires i < |end.counts|
    ensures var d := Delta(start, end);
            var was: int := if i < |start.counts| then start.counts[i] else 0;
            && |d.counts| == |end.counts| && d.bounds == end.bounds && d.sum == end.sum - start.sum
            && (d.count as int + start.count as int - end.count as int) % 0x1_0000_0000_0000_0000 == 0
            && (d.counts[i] as int + was - end.counts[i] as int) % 0x1_0000_0000_0000_0000 == 0
  {
  }

  /** `end` continues `start`: the same layout and no bucket shrinking, or a series that did
      not exist yet. */
  predicate Continues(start: Histogram, end: Histogram) {
    && WellFormed(end)
    && (start == EMPTY || (WellFormed(start) && start.bounds == end.bounds))
    && forall i :: 0 <= i < |end.counts| ==> CountAt(start, i) <= end.counts[i]
  }

  lemma DeltaAt(start: Histogram, end: Histogram, i: nat)
    requires i < |end.counts| && CountAt(start, i) <= end.counts[i]
    ensures |Delta(start, end).counts| == |end.counts|
    ensures Delta(start, end).counts[i] == end.counts[i] - CountAt(start, i)
  {
  }

  lemma {:induction false} TotalDelta(start: Histogram, end: Histogram, n: nat)
    requires n <= |end.counts| && (start.counts == [] || |start.counts| == |end.counts|)
    requires forall i :: 0 <= i < |end.counts| ==> CountAt(start, i) <= end.counts[i]
    ensures |Delta(start, end).counts| == |end.counts|
    ensures Total(Delta(start, end).counts[..n]) ==
            Total(end.counts[..n]) - (if start.counts == [] then 0 else Total(start.counts[..n]))
  {
    if n > 0 {
      TotalDelta(start, end, n - 1);
      DeltaAt(start, end, n - 1);
      hide Total, Delta;
      TotalStep(end.counts, n - 1);
      TotalStep(Delta(start, end).counts, n - 1);
      if start.counts != [] {
        TotalStep(start.counts, n - 1);
      }
    }
  }

  /** The delta of two cumulative snapshots is a histogram again: nothing wraps, and the
      bucket counts still add up to the count. */
  lemma DeltaWellFormed(start: Histogram, end: Histogram)
    requires Continues(start, end)
    ensures WellFormed(Delta(start, end))
    ensures Delta(start, end).count == end.count - start.count
    ensures Delta(start, end).sum == end.sum - start.sum && Delta(start, end).bounds == end.bounds
    ensures forall i :: 0 <= i < |end.counts| ==> Delta(start, end).counts[i] == end.counts[i] - CountAt(start, i)
  {
    hide Total, CountAt, Delta, Increasing;
    TotalDelta(start, end, |end.counts|);
    Whole(end.counts);
    Whole(Delta(start, end).counts);
    Whole(start.counts);
    DeltaHeads(start, end);
    assert Total([]) == 0 by { TotalNothing(); }
    forall i | 0 <= i < |end.counts| ensures Delta(start, end).counts[i] == end.counts[i] - CountAt(start, i) {
      DeltaAt(start, end, i);
    }
  }

  lemma Whole<T>(s: seq<T>)
    ensures s[..|s|] == s
  {
  }

  lemma TotalNothing()
    ensures Total([]) == 0
  {
  }

  lemma DeltaHeads(start: Histogram, end: Histogram)
    ensures Delta(start, end).bounds == end.bounds && Delta(start, end).sum == end.sum - start.sum
    ensures start.count <= end.count ==> Delta(start, end).count == end.count - start.count
  {
    hide CountAt;
  }
}
