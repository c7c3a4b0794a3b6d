/** `chunk_windows` and the cap `_classify_chunks` puts on its plan. */
module Windows {
  import opened Wrappers

  datatype PlanError = WindowNotPositive

  /** A half-open range of tokens. */
  datatype Window = Window(start: int, end: int)

  function Clamp(overlap: int, window: int): int {
    if overlap < 0 || overlap >= window then 0 else overlap
  }

  function CeilDiv(a: int, b: int): int
    requires b > 0
  {
    (a + b - 1) / b
  }

  /** How many windows the plan has. */
  function Count(total: int, window: int, overlap: int): (n: nat)
    requires total > 0 && window > 0
  {
    var o := Clamp(overlap, window);
    if total <= window then 1 else CeilDiv(total - o, window - o)
  }

  /** The i-th window, for a clamped overlap. */
  function At(total: int, window: int, overlap: int, i: nat): Window {
    var start := i * (window - overlap);
    Window(start, if start + window < total then start + window else total)
  }

  function Plan(total: int, window: int, overlap: int): seq<Window>
    requires total > 0 && window > 0
  {
    seq(Count(total, window, overlap), i requires i >= 0 => At(total, window, Clamp(overlap, window), i))
  }

  // ----- The functions as written -----

  method ChunkWindows(total: int, window: int, overlap: int) returns (r: Result<seq<Window>, PlanError>)
    ensures total <= 0 ==> r == Ok([])
    ensures total > 0 && window <= 0 ==> r == Err(WindowNotPositive)
    ensures total > 0 && window > 0 ==> r == Ok(Plan(total, window, overlap))
  {
    if total <= 0 {
      return Ok([]);
    }
    if window <= 0 {
      return Err(WindowNotPositive);
    }
    var o := overlap;
    if o < 0 || o >= window {
      o := 0;
    }
    if total <= window {
      assert Plan(total, window, overlap) == [At(total, window, o, 0)];
      return Ok([Window(0, total)]);
    }
    var stride := window - o;
    var out: seq<Window> := [];
    var start := 0;
    ghost var n: nat := 0;
    while start < total
      invariant start == n * stride && n == |out|
      invariant n > 0 ==> start + o < total
      invariant forall i :: 0 <= i < n ==> out[i] == At(total, window, o, i)
      decreases total - start
    {
      var end := if start + window < total then start + window else total;
      out := out + [Window(start, end)];
      if end >= total {
        CountIs(total, stride, o, n);
        assert out == Plan(total, window, overlap);
        return Ok(out);
      }
      NextMultiple(n, stride);
      start, n := start + stride, n + 1;
    }
  }

  lemma NextMultiple(n: nat, stride: int)
    ensures (n + 1) * stride == n * stride + stride
  {
  }

  lemma MulMono(i: int, j: int, stride: int)
    requires i <= j && stride >= 0
    ensures i * stride <= j * stride
  {
    var k := j - i;
    assert j * stride == i * stride + k * stride && k * stride >= 0;
  }

  /** The window that first reaches the end is the last one of the closed form. */
  lemma CountIs(total: int, stride: int, o: int, n: nat)
    requires stride > 0 && o >= 0 && total > stride + o
    requires n * stride + stride + o >= total
    requires n > 0 ==> n * stride + o < total
    ensures CeilDiv(total - o, stride) == n + 1
  {
    var a := total - o + stride - 1;
    var q := a / stride;
    assert q * stride <= a < q * stride + stride;
    NextMultiple(n, stride);
    NextMultiple(n + 1, stride);
    if q <= n { MulMono(q, n, stride); }
    if q >= n + 2 { MulMono(n + 2, q, stride); }
  }

  // ----- What the plan guarantees -----

  /** The `length` positions from `a` on lie whole in some window. */
  ghost predicate Inside(ws: seq<Window>, a: int, length: int) {
    exists i :: 0 <= i < |ws| && ws[i].start <= a && a + length <= ws[i].end
  }

  ghost predicate Covered(ws: seq<Window>, total: int) {
    forall p :: 0 <= p < total ==> Inside(ws, p, 1)
  }

  /** The closed form stops exactly where the end is reached. */
  lemma LastReaches(total: int, window: int, overlap: int)
    requires total > 0 && window > 0
    ensures var n, o := Count(total, window, overlap), Clamp(overlap, window);
            && n > 0
            && (n - 1) * (window - o) < total <= (n - 1) * (window - o) + window
            && (n > 1 ==> (n - 1) * (window - o) + o < total)
  {
    var o := Clamp(overlap, window);
    var stride := window - o;
    if total > window {
      var a := total - o + stride - 1;
      var n := a / stride;
      assert n * stride <= a < n * stride + stride;
      if n < 1 { MulMono(n, 0, stride); }
      NextMultiple(n - 1, stride);
    }
  }

  /** Where the i-th of n windows stands relative to the last. */
  lemma StartOf(total: int, window: int, overlap: int, i: nat)
    requires total > 0 && window > 0 && i < Count(total, window, overlap)
    ensures var n, stride := Count(total, window, overlap), window - Clamp(overlap, window);
            && 0 <= i * stride < total
            && (i > 0 ==> i * stride >= stride)
            && (i == n - 1 ==> i * stride + window >= total)
            && (i < n - 1 ==> i * stride + window < total && (i + 1) * stride == i * stride + stride)
  {
    var n, o := Count(total, window, overlap), Clamp(overlap, window);
    var stride := window - o;
    LastReaches(total, window, overlap);
    NextMultiple(i, stride);
    MulMono(0, i, stride);
    MulMono(i, n - 1, stride);
    if i > 0 { MulMono(1, i, stride); }
    if i < n - 1 { MulMono(i + 1, n - 1, stride); }
  }

  /** The i-th window itself: in range, of the asked length unless it is the last. */
  lemma WindowOf(total: int, window: int, overlap: int, i: nat)
    requires total > 0 && window > 0 && i < |Plan(total, window, overlap)|
    ensures var ws, o := Plan(total, window, overlap), Clamp(overlap, window);
            && 0 <= ws[i].start < total
            && (i == 0 ==> ws[i].start == 0)
            && (i > 0 ==> ws[i].start >= window - o)
            && (i == |ws| - 1 ==> ws[i].end == total <= ws[i].start + window)
            && (i < |ws| - 1 ==> ws[i].end == ws[i].start + window < total && ws[i + 1].start == ws[i].end - o)
  {
    StartOf(total, window, overlap, i);
  }

  lemma PlanNotEmpty(total: int, window: int, overlap: int)
    requires total > 0 && window > 0
    ensures |Plan(total, window, overlap)| > 0
  {
    LastReaches(total, window, overlap);
  }

  /** Windows lie in range, none is empty or longer than asked, neighbours share the overlap,
      and the last one ends with the input. */
  lemma PlanShape(total: int, window: int, overlap: int)
    requires total > 0 && window > 0
    ensures var ws, o := Plan(total, window, overlap), if 0 <= overlap < window then overlap else 0;
            && |ws| > 0 && ws[0].start == 0 && ws[|ws| - 1].end == total
            && (forall i :: 0 <= i < |ws| ==>
                  0 <= ws[i].start < ws[i].end <= total && ws[i].end - ws[i].start <= window)
            && (forall i :: 0 <= i < |ws| - 1 ==> ws[i].end - ws[i + 1].start == o && ws[i].end < total)
  {
    var ws, o := Plan(total, window, overlap), Clamp(overlap, window);
    hide Count, Plan, At;
    PlanNotEmpty(total, window, overlap);
    forall i | 0 <= i < |ws|
      ensures 0 <= ws[i].start < ws[i].end <= total && ws[i].end - ws[i].start <= window
      ensures i == 0 ==> ws[i].start == 0
      ensures i == |ws| - 1 ==> ws[i].end == total
    {
      WindowOf(total, window, overlap, i);
    }
    forall i | 0 <= i < |ws| - 1 ensures ws[i].end - ws[i + 1].start == o && ws[i].end < total {
      WindowOf(total, window, overlap, i);
    }
  }

  /** Any interval of at most overlap+1 tokens lies whole in some window. */
  lemma ShortIntervalsWhole(total: int, window: int, overlap: int, a: int, length: int)
    requires total > 0 && window > 0
    requires 0 <= a < total && 0 <= length <= Clamp(overlap, window) + 1 && a + length <= total
    ensures Inside(Plan(total, window, overlap), a, length)
  {
    var ws, o := Plan(total, window, overlap), Clamp(overlap, window);
    var n, stride := |ws|, window - o;
    LastReaches(total, window, overlap);
    var q := Quotient(a, stride);
    var i: nat := if q >= n - 1 then n - 1 else q;
    assert ws[i].start <= a by { MulMono(i, q, stride); }
    assert i < n - 1 ==> a < ws[i].start + stride;
    hide Plan, At, Count;
    WindowOf(total, window, overlap, i);
    assert ws[i].start <= a && a + length <= ws[i].end;
  }

  lemma Quotient(a: nat, stride: int) returns (q: nat)
    requires stride > 0
    ensures q * stride <= a < q * stride + stride
  {
    q := a / stride;
    if q < 0 { MulMono(q + 1, 0, stride); }
  }

  /** The windows cover the whole input. */
  lemma PlanCovers(total: int, window: int, overlap: int)
    requires total > 0 && window > 0
    ensures Covered(Plan(total, window, overlap), total)
  {
    forall p | 0 <= p < total ensures Inside(Plan(total, window, overlap), p, 1) {
      ShortIntervalsWhole(total, window, overlap, p, 1);
    }
  }

  /** overlap+1 is the best bound: unless one window takes everything, some interval of
      overlap+2 tokens straddles a boundary. */
  lemma WholeExactlyUpToOverlapPlusOne(total: int, window: int, overlap: int, length: int)
    requires total > 0 && window > 0 && 0 <= length <= total
    ensures (forall a :: 0 <= a < total && a <= total - length ==> Inside(Plan(total, window, overlap), a, length))
            <==> (length <= Clamp(overlap, window) + 1 || total <= window)
  {
    var ws, o := Plan(total, window, overlap), Clamp(overlap, window);
    PlanShape(total, window, overlap);
    if length <= o + 1 {
      forall a | 0 <= a < total && a <= total - length ensures Inside(ws, a, length) {
        ShortIntervalsWhole(total, window, overlap, a, length);
      }
    } else if total <= window {
      forall a | 0 <= a < total && a <= total - length ensures Inside(ws, a, length) {
        assert ws[0].start <= a && a + length <= ws[0].end;
      }
    } else {
      var a := Straddles(total, window, overlap, length);
    }
  }

  lemma Straddles(total: int, window: int, overlap: int, length: int) returns (a: int)
    requires 0 < window < total && Clamp(overlap, window) + 1 < length <= total
    ensures 0 <= a < total && a <= total - length && !Inside(Plan(total, window, overlap), a, length)
  {
    var ws, o := Plan(total, window, overlap), Clamp(overlap, window);
    var stride := window - o;
    a := if stride - 1 + length <= total then stride - 1 else total - length;
    forall i | 0 <= i < |ws| ensures !(ws[i].start <= a && a + length <= ws[i].end) {
      WindowOf(total, window, overlap, i);
    }
  }

  // ----- The cap on the number of windows -----

  /** The plan for the window asked for, cut down to what the model takes when that is known. */
  function FullPlan(total: nat, maxTokens: int, window: int, overlap: int): seq<Window>
    requires total == 0 || window > 0
  {
    if total == 0 then []
    else if 0 < maxTokens < window then Plan(total, maxTokens, overlap)
    else Plan(total, window, overlap)
  }

  /** How many of n elements Python's `ws[:cap]` keeps; a negative cap drops from the end. */
  function Kept(n: nat, cap: int): nat {
    if cap >= n then n else if cap >= 0 then cap else if n + cap > 0 then n + cap else 0
  }

  method ClassifyChunks(total: nat, maxTokens: int, window: int, overlap: int, maxChunks: int)
      returns (r: Result<(seq<Window>, bool), PlanError>)
    ensures r.Err? <==> total > 0 && window <= 0
    ensures r.Ok? ==>
      var all := FullPlan(total, maxTokens, window, overlap);
      && r.value.0 == all[..Kept(|all|, maxChunks)]
      && (maxChunks >= 0 ==> |r.value.0| == if |all| <= maxChunks then |all| else maxChunks)
      && (maxChunks < 0 ==> |r.value.0| == if |all| + maxChunks <= 0 then 0 else |all| + maxChunks)
      && (r.value.1 <==> |all| > maxChunks)
    ensures r.Ok? ==> forall w :: w in r.value.0 ==>
      && w.end - w.start <= window
      && (maxTokens > 0 ==> w.end - w.start <= maxTokens)
  {
    var w := if 0 < maxTokens < window then maxTokens else window;
    var plan := ChunkWindows(total, w, overlap);
    if plan.Err? {
      return Err(plan.error);
    }
    var windows, truncated := plan.value, false;
    if |windows| > maxChunks {
      windows := windows[..Kept(|windows|, maxChunks)];
      truncated := true;
    }
    if total > 0 {
      PlanShape(total, w, overlap);
    }
    return Ok((windows, truncated));
  }

  /** A window is as long as asked and as the model takes, unless the input ends there: no narrower plan is
      made than the two limits call for. */
  lemma WindowsReachTheLimit(total: nat, maxTokens: int, window: int, overlap: int, i: nat)
    requires total > 0 && window > 0 && i < |FullPlan(total, maxTokens, window, overlap)|
    ensures var w := FullPlan(total, maxTokens, window, overlap)[i];
            w.end == total || w.end - w.start == window || (w.end - w.start == maxTokens < window)
  {
    WindowOf(total, if 0 < maxTokens < window then maxTokens else window, overlap, i);
  }

  /** `truncated` tells the truth about coverage exactly when the cap is not negative or there
      was something to scan: a negative cap flags even an empty input. */
  lemma TruncatedMeansUncovered(total: nat, window: int, overlap: int, maxChunks: int)
    requires window > 0
    ensures var all := if total == 0 then [] else Plan(total, window, overlap);
            ((|all| > maxChunks) <==> !Covered(all[..Kept(|all|, maxChunks)], total)) <==> (maxChunks >= 0 || total > 0)
  {
    if total > 0 {
      var all := Plan(total, window, overlap);
      var kept := all[..Kept(|all|, maxChunks)];
      PlanCovers(total, window, overlap);
      PlanShape(total, window, overlap);
      assert all[..|all|] == all;
      if |all| > maxChunks {
        forall i | 0 <= i < |kept| ensures kept[i].end <= total - 1 {
          assert kept[i] == all[i] && i < |all| - 1;
        }
        assert !Inside(kept, total - 1, 1);
      }
    }
  }
}
