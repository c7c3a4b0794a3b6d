/** One latency histogram a provider: the windowed deltas of all its series, merged. */
module MergedHistograms {
  import opened Histograms
  import opened Order
  import opened Sums
  import opened Wrappers
  import C = Counters
  import L = LabelKeys

  type Histories = map<C.LabelKey, Histogram>

  function HistogramValue(m: Histories, key: C.LabelKey): Histogram {
    if key in m then m[key] else EMPTY
  }

  predicate Names(key: C.LabelKey, provider: string) {
    C.Get(key, C.PROVIDER) == provider
  }

  /** A series keyed by a plain label set is the provider's exactly if that names it. */
  lemma NamesItsProvider(attrs: seq<L.Attribute>, provider: string)
    requires L.PlainSet(attrs)
    ensures Names(L.EncodeLabels(attrs), provider) <==> L.ValueOf(attrs, "gen_ai.provider.name") == provider
  {
    C.NamesClean();
    L.PlainValuesReadBack(attrs, "gen_ai.provider.name");
    hide L.Scan, L.EncodeLabels, L.ValueOf;
  }

  /** Every series of the provider has one bucket layout, as the metrics library guarantees. */
  predicate OneLayout(cur: Histories, provider: string, bounds: seq<real>) {
    forall k :: k in cur && Names(k, provider) ==> cur[k].bounds == bounds && |cur[k].counts| == |bounds| + 1
  }

  function Deltas(prev: Histories, cur: Histories, provider: string): Histories {
    map k | k in cur && Names(k, provider) :: Delta(HistogramValue(prev, k), cur[k])
  }

  // ----- The merge as sums -----

  function Column(deltas: Histories, i: nat): map<C.LabelKey, int> {
    map k | k in deltas :: CountAt(deltas[k], i)
  }

  function Observations(deltas: Histories): map<C.LabelKey, int> {
    map k | k in deltas :: deltas[k].count
  }

  function Times(deltas: Histories): map<C.LabelKey, real> {
    map k | k in deltas :: deltas[k].sum
  }

  ghost function Merged(deltas: Histories, bounds: seq<real>): Histogram {
    if deltas == map[] then EMPTY
    else
      Histogram(RealSum(Times(deltas)), Wrap(Sum(Observations(deltas))), bounds,
                seq(|bounds| + 1, i requires 0 <= i < |bounds| + 1 => Wrap(Sum(Column(deltas, i)))))
  }

  function AddWrap(a: int, b: int): U64 { Wrap(a + b) }

  lemma WrapAdd(a: int, b: int)
    ensures AddWrap(Wrap(a), b) == Wrap(a + b)
  {
  }

  /** One series more: every column, the count and the sum grow by that series. */
  lemma ColumnAdd(deltas: Histories, k: C.LabelKey, d: Histogram, i: nat)
    requires k !in deltas
    ensures Sum(Column(deltas[k := d], i)) == Sum(Column(deltas, i)) + CountAt(d, i)
  {
    assert Column(deltas[k := d], i) == Column(deltas, i)[k := CountAt(d, i)];
    hide CountAt, Sum;
    SumAdd(Column(deltas, i), k, CountAt(d, i));
  }

  lemma ObservationsAdd(deltas: Histories, k: C.LabelKey, d: Histogram)
    requires k !in deltas
    ensures Sum(Observations(deltas[k := d])) == Sum(Observations(deltas)) + d.count
  {
    assert Observations(deltas[k := d]) == Observations(deltas)[k := d.count];
    hide Sum;
    SumAdd(Observations(deltas), k, d.count);
  }

  lemma TimesAdd(deltas: Histories, k: C.LabelKey, d: Histogram)
    requires k !in deltas
    ensures RealSum(Times(deltas[k := d])) == RealSum(Times(deltas)) + d.sum
  {
    assert Times(deltas[k := d]) == Times(deltas)[k := d.sum];
    hide RealSum;
    RealSumAdd(Times(deltas), k, d.sum);
  }

  function Plus(a: Histogram, d: Histogram): Histogram
    requires |d.counts| <= |a.counts|
  {
    Histogram(a.sum + d.sum, AddWrap(a.count, d.count), a.bounds,
              seq(|a.counts|, i requires 0 <= i < |a.counts| =>
                if i < |d.counts| then AddWrap(a.counts[i], d.counts[i]) else a.counts[i]))
  }

  function Zero(d: Histogram): Histogram {
    Histogram(0.0, 0, d.bounds, seq(|d.counts|, i => 0))
  }

  lemma MergedStep(deltas: Histories, k: C.LabelKey, d: Histogram, bounds: seq<real>)
    requires k !in deltas && d.bounds == bounds && |d.counts| == |bounds| + 1
    ensures Merged(deltas[k := d], bounds) ==
            Plus(if deltas == map[] then Zero(d) else Merged(deltas, bounds), d)
  {
    hide Column, Observations, Times, Wrap;
    var next := deltas[k := d];
    ObservationsAdd(deltas, k, d);
    TimesAdd(deltas, k, d);
    WrapAdd(Sum(Observations(deltas)), d.count);
    forall i | 0 <= i < |bounds| + 1
      ensures Sum(Column(next, i)) == Sum(Column(deltas, i)) + d.counts[i]
      ensures Wrap(Sum(Column(next, i))) == AddWrap(Wrap(Sum(Column(deltas, i))), d.counts[i])
    {
      ColumnAdd(deltas, k, d, i);
      WrapAdd(Sum(Column(deltas, i)), d.counts[i]);
    }
    if deltas == map[] {
      NothingMerged();
    }
  }

  lemma NothingMerged()
    ensures Wrap(0) == 0 && Sum(Observations(map[])) == 0 && RealSum(Times(map[])) == 0.0
    ensures forall i: nat :: Sum(Column(map[], i)) == 0
  {
  }

  datatype MergeError = IndexOutOfRange

  // ----- The merge in one order -----

  /** Some order in which a range over the map may meet the provider's series. */
  ghost predicate IsOrder(cur: Histories, provider: string, order: seq<C.LabelKey>) {
    && Distinct(order)
    && forall k :: k in order <==> k in cur && Names(k, provider)
  }

  predicate Known(cur: Histories, order: seq<C.LabelKey>) {
    forall k :: k in order ==> k in cur
  }

  /** One more series. The merge takes over the layout of the first one with buckets, and has no room
      for one with more. */
  function Absorb(r: Result<Histogram, MergeError>, d: Histogram): Result<Histogram, MergeError> {
    if r.Err? then r
    else
      var merged := if |r.value.counts| == 0 then Zero(d) else r.value;
      if |d.counts| > |merged.counts| then Err(IndexOutOfRange) else Ok(Plus(merged, d))
  }

  function MergeInOrder(prev: Histories, cur: Histories, order: seq<C.LabelKey>): Result<Histogram, MergeError>
    requires Known(cur, order)
  {
    if order == [] then Ok(EMPTY)
    else
      var n := |order| - 1;
      Absorb(MergeInOrder(prev, cur, order[..n]), Delta(HistogramValue(prev, order[n]), cur[order[n]]))
  }

  ghost predicate MergeOfSomeOrder(prev: Histories, cur: Histories, provider: string,
                                   r: Result<Histogram, MergeError>) {
    exists order :: IsOrder(cur, provider, order) && Known(cur, order) && r == MergeInOrder(prev, cur, order)
  }

  /** The series are met in some order; with one bucket layout it does not show which. */
  method ProviderHistogramDelta(prev: Histories, cur: Histories, provider: string)
    returns (r: Result<Histogram, MergeError>)
    ensures MergeOfSomeOrder(prev, cur, provider, r)
    ensures forall bounds :: OneLayout(cur, provider, bounds) ==> r == Ok(Merged(Deltas(prev, cur, provider), bounds))
  {
    hide *;
    var merged := EMPTY;
    var todo := cur.Keys;
    ghost var order: seq<C.LabelKey> := [];
    NothingMet(prev, cur, provider, todo);
    while todo != {}
      invariant todo <= cur.Keys && MetSoFar(prev, cur, provider, todo, order, Ok(merged))
    {
      var k :| k in todo;
      var end := cur[k];
      MeetNext(prev, cur, provider, todo, order, Ok(merged), k);
      if Names(k, provider) {
        var delta := SubtractHistogram(HistogramValue(prev, k), end);
        AbsorbIs(merged, delta);
        if |merged.counts| == 0 {
          merged := Histogram(0.0, 0, delta.bounds, seq(|delta.counts|, i => 0));
        }
        order := order + [k];
        if |delta.counts| > |merged.counts| {
          MetWithError(prev, cur, provider, todo - {k}, order);
          return Err(IndexOutOfRange);
        }
        merged := AddInto(merged, delta);
      }
      todo := todo - {k};
    }
    AllMet(prev, cur, provider, order, Ok(merged));
    return Ok(merged);
  }

  method AddInto(merged: Histogram, delta: Histogram) returns (out: Histogram)
    requires |delta.counts| <= |merged.counts|
    ensures out == Plus(merged, delta)
  {
    var counts := merged.counts;
    for i := 0 to |delta.counts|
      invariant |counts| == |merged.counts|
      invariant forall j :: 0 <= j < |counts| ==>
                  counts[j] == if j < i then AddWrap(merged.counts[j], delta.counts[j]) else merged.counts[j]
    {
      counts := counts[i := AddWrap(counts[i], delta.counts[i])];
    }
    out := Histogram(merged.sum + delta.sum, AddWrap(merged.count, delta.count), merged.bounds, counts);
  }

  lemma AbsorbIs(merged: Histogram, d: Histogram)
    ensures var z := if |merged.counts| == 0 then Histogram(0.0, 0, d.bounds, seq(|d.counts|, i => 0)) else merged;
            && (|merged.counts| == 0 ==> |z.counts| == |d.counts|)
            && Absorb(Ok(merged), d) ==
               if |d.counts| > |z.counts| then Err(IndexOutOfRange) else Ok(Plus(z, d))
  {
    hide Plus;
  }

  /** The provider's series outside `todo` have been met, in this order. */
  ghost predicate MetSoFar(prev: Histories, cur: Histories, provider: string, todo: set<C.LabelKey>,
                           order: seq<C.LabelKey>, r: Result<Histogram, MergeError>) {
    && Distinct(order)
    && (forall k :: k in order <==> k in cur && k !in todo && Names(k, provider))
    && Known(cur, order) && r == MergeInOrder(prev, cur, order)
  }

  lemma NothingMet(prev: Histories, cur: Histories, provider: string, todo: set<C.LabelKey>)
    requires todo == cur.Keys
    ensures MetSoFar(prev, cur, provider, todo, [], Ok(EMPTY))
  {
  }

  lemma MeetNext(prev: Histories, cur: Histories, provider: string, todo: set<C.LabelKey>,
                 order: seq<C.LabelKey>, r: Result<Histogram, MergeError>, k: C.LabelKey)
    requires k in todo && todo <= cur.Keys && MetSoFar(prev, cur, provider, todo, order, r)
    ensures if Names(k, provider) then
              MetSoFar(prev, cur, provider, todo - {k}, order + [k],
                       Absorb(r, Delta(HistogramValue(prev, k), cur[k])))
            else MetSoFar(prev, cur, provider, todo - {k}, order, r)
  {
    hide Absorb, Delta, HistogramValue, Names;
    assert (order + [k])[..|order|] == order;
  }

  lemma {:induction false} ErrorStays(prev: Histories, cur: Histories, order: seq<C.LabelKey>, n: nat)
    requires Known(cur, order) && n <= |order| && MergeInOrder(prev, cur, order[..n]).Err?
    ensures MergeInOrder(prev, cur, order) == Err(IndexOutOfRange)
  {
    hide Plus, Delta, HistogramValue;
    if n < |order| {
      var m := |order| - 1;
      assert order[..m][..n] == order[..n];
      ErrorStays(prev, cur, order[..m], n);
    } else {
      assert order[..n] == order;
      OneError(MergeInOrder(prev, cur, order));
    }
  }

  lemma OneError(r: Result<Histogram, MergeError>)
    requires r.Err?
    ensures r == Err(IndexOutOfRange)
  {
    assert r.error.IndexOutOfRange?;
  }

  lemma DistinctJoin<T>(a: seq<T>, b: seq<T>)
    requires Distinct(a) && Distinct(b) && forall x :: x in a ==> x !in b
    ensures Distinct(a + b)
  {
    forall i, j | 0 <= i < j < |a + b| ensures (a + b)[i] != (a + b)[j] {
      assert i < |a| ==> (a + b)[i] in a;
    }
  }

  lemma {:induction false} Enumerated<T>(s: set<T>) returns (order: seq<T>)
    ensures Distinct(order) && forall k :: k in order <==> k in s
    decreases s
  {
    if s == {} {
      order := [];
    } else {
      var k :| k in s;
      order := Enumerated(s - {k});
      order := [k] + order;
    }
  }

  /** Whatever order the rest would have come in, the error was there. */
  lemma MetWithError(prev: Histories, cur: Histories, provider: string, todo: set<C.LabelKey>, order: seq<C.LabelKey>)
    requires MetSoFar(prev, cur, provider, todo, order, Err(IndexOutOfRange))
    ensures MergeOfSomeOrder(prev, cur, provider, Err(IndexOutOfRange))
    ensures forall bounds :: !OneLayout(cur, provider, bounds)
  {
    hide MergeInOrder, Names;
    var rest := Enumerated(set k | k in todo && k in cur && Names(k, provider));
    var all := order + rest;
    assert all[..|order|] == order;
    ErrorStays(prev, cur, all, |order|);
    hide MetSoFar;
    AllMet(prev, cur, provider, all, Err(IndexOutOfRange)) by {
      MetAll(prev, cur, provider, todo, order, rest);
    }
  }

  lemma MetAll(prev: Histories, cur: Histories, provider: string, todo: set<C.LabelKey>,
               order: seq<C.LabelKey>, rest: seq<C.LabelKey>)
    requires MetSoFar(prev, cur, provider, todo, order, Err(IndexOutOfRange)) && Distinct(rest)
    requires forall k :: k in rest <==> k in todo && k in cur && Names(k, provider)
    ensures MetSoFar(prev, cur, provider, {}, order + rest, Err(IndexOutOfRange))
  {
    hide MergeInOrder, Names;
    assert (order + rest)[..|order|] == order;
    ErrorStays(prev, cur, order + rest, |order|);
    DistinctJoin(order, rest);
  }

  lemma AllMet(prev: Histories, cur: Histories, provider: string, order: seq<C.LabelKey>,
               r: Result<Histogram, MergeError>)
    requires MetSoFar(prev, cur, provider, {}, order, r)
    ensures MergeOfSomeOrder(prev, cur, provider, r)
    ensures forall bounds :: OneLayout(cur, provider, bounds) ==> r == Ok(Merged(Deltas(prev, cur, provider), bounds))
  {
    hide MergeInOrder, Names, OneLayout, Merged, Deltas;
    assert IsOrder(cur, provider, order);
    forall bounds | OneLayout(cur, provider, bounds) ensures r == Ok(Merged(Deltas(prev, cur, provider), bounds)) {
      OneLayoutMerge(prev, cur, provider, order, bounds);
    }
  }

  // ----- When the merge succeeds -----

  /** How many buckets the first series with any has, 0 if none has. */
  function FirstSize(cur: Histories, order: seq<C.LabelKey>): nat
    requires Known(cur, order)
  {
    if order == [] then 0
    else
      var n := |order| - 1;
      var before := FirstSize(cur, order[..n]);
      if before > 0 then before else |cur[order[n]].counts|
  }

  /** In a given order the merge succeeds exactly when no series has more buckets than the first one
      with any. */
  lemma {:induction false} SucceedsInOrder(prev: Histories, cur: Histories, order: seq<C.LabelKey>)
    requires Known(cur, order)
    ensures MergeInOrder(prev, cur, order).Ok? <==>
            forall k :: k in order ==> |cur[k].counts| <= FirstSize(cur, order)
    ensures MergeInOrder(prev, cur, order).Ok? ==>
              |MergeInOrder(prev, cur, order).value.counts| == FirstSize(cur, order)
  {
    if order != [] {
      var n := |order| - 1;
      var front, k := order[..n], order[n];
      assert order == front + [k];
      SucceedsInOrder(prev, cur, front);
      DeltaSize(prev, cur, k);
      FirstSizeGrows(cur, order);
      FirstSizeWitness(cur, front);
      hide Delta, HistogramValue, FirstSize;
      assert k in order && forall x :: x in order <==> x in front || x == k;
    }
  }

  lemma FirstSizeGrows(cur: Histories, order: seq<C.LabelKey>)
    requires Known(cur, order) && order != []
    ensures var n := |order| - 1; var before := FirstSize(cur, order[..n]);
            && FirstSize(cur, order) == if before > 0 then before else |cur[order[n]].counts|
  {
  }

  predicate HasBuckets(cur: Histories, provider: string, k: C.LabelKey) {
    k in cur && Names(k, provider) && cur[k].counts != []
  }

  /** All the provider's series that have buckets have equally many. */
  ghost predicate SameBuckets(cur: Histories, provider: string) {
    forall j, k :: HasBuckets(cur, provider, j) && HasBuckets(cur, provider, k) ==>
      |cur[j].counts| == |cur[k].counts|
  }

  /** The merge succeeds whatever order the map is met in exactly when all the provider's series that
      have buckets have equally many. */
  lemma SucceedsInEveryOrder(prev: Histories, cur: Histories, provider: string)
    ensures (forall r :: MergeOfSomeOrder(prev, cur, provider, r) ==> r.Ok?) <==> SameBuckets(cur, provider)
  {
    hide Names;
    if SameBuckets(cur, provider) {
      forall r | MergeOfSomeOrder(prev, cur, provider, r) ensures r.Ok? {
        var order :| IsOrder(cur, provider, order) && Known(cur, order) && r == MergeInOrder(prev, cur, order);
        SucceedsInOrder(prev, cur, order);
        FirstSizeWitness(cur, order);
        hide MergeInOrder;
      }
    } else {
      var j, k :| HasBuckets(cur, provider, j) && HasBuckets(cur, provider, k)
                  && |cur[j].counts| < |cur[k].counts|;
      FailsInOrder(prev, cur, provider, j, k);
    }
  }

  lemma {:induction false} FirstSizeWitness(cur: Histories, order: seq<C.LabelKey>)
    requires Known(cur, order)
    ensures FirstSize(cur, order) > 0 ==> exists k :: k in order && |cur[k].counts| == FirstSize(cur, order)
    ensures FirstSize(cur, order) == 0 ==> forall k :: k in order ==> cur[k].counts == []
  {
    if order != [] {
      var n := |order| - 1;
      assert order == order[..n] + [order[n]];
      FirstSizeWitness(cur, order[..n]);
    }
  }

  lemma FailsInOrder(prev: Histories, cur: Histories, provider: string, j: C.LabelKey, k: C.LabelKey)
    requires j in cur && k in cur && Names(j, provider) && Names(k, provider)
    requires 0 < |cur[j].counts| < |cur[k].counts|
    ensures MergeOfSomeOrder(prev, cur, provider, Err(IndexOutOfRange))
  {
    hide Names;
    var rest := Enumerated(set x | x in cur && Names(x, provider) && x != j && x != k);
    var order := [j, k] + rest;
    assert order[..2] == [j, k] && [j, k][..1] == [j] && [j][..0] == [];
    DistinctJoin([j, k], rest);
    assert IsOrder(cur, provider, order);
    SucceedsInOrder(prev, cur, [j, k]);
    assert FirstSize(cur, [j]) == |cur[j].counts| && k in [j, k];
    hide MergeInOrder;
    ErrorStays(prev, cur, order, 2);
  }

  // ----- One layout -----

  function DeltasOf(prev: Histories, cur: Histories, order: seq<C.LabelKey>): Histories {
    map k | k in order && k in cur :: Delta(HistogramValue(prev, k), cur[k])
  }

  lemma OneLayoutMerge(prev: Histories, cur: Histories, provider: string, order: seq<C.LabelKey>, bounds: seq<real>)
    requires IsOrder(cur, provider, order) && Known(cur, order) && OneLayout(cur, provider, bounds)
    ensures MergeInOrder(prev, cur, order) == Ok(Merged(Deltas(prev, cur, provider), bounds))
  {
    OrderDeltas(prev, cur, provider, order);
    hide Merged, Delta, HistogramValue, Names, MergeInOrder, DeltasOf, Deltas;
    OneLayoutPrefix(prev, cur, order, bounds);
  }

  lemma OrderDeltas(prev: Histories, cur: Histories, provider: string, order: seq<C.LabelKey>)
    requires IsOrder(cur, provider, order)
    ensures DeltasOf(prev, cur, order) == Deltas(prev, cur, provider)
  {
    hide Delta, HistogramValue, Names;
  }

  lemma {:induction false} OneLayoutPrefix(prev: Histories, cur: Histories, order: seq<C.LabelKey>, bounds: seq<real>)
    requires Distinct(order) && Known(cur, order)
    requires forall k :: k in order ==> cur[k].bounds == bounds && |cur[k].counts| == |bounds| + 1
    ensures MergeInOrder(prev, cur, order) == Ok(Merged(DeltasOf(prev, cur, order), bounds))
  {
    hide Merged, Plus, Zero, Delta, HistogramValue, Absorb;
    if order == [] {
      assert DeltasOf(prev, cur, order) == map[];
      MergedNothing(bounds);
    } else {
      var n := |order| - 1;
      var front, k := order[..n], order[n];
      assert order == front + [k];
      OneLayoutPrefix(prev, cur, front, bounds);
      var done, d := DeltasOf(prev, cur, front), Delta(HistogramValue(prev, k), cur[k]);
      assert DeltasOf(prev, cur, order) == done[k := d];
      DeltaSize(prev, cur, k);
      MergedStep(done, k, d, bounds);
      AbsorbMerged(done, d, bounds);
    }
  }

  lemma MergedNothing(bounds: seq<real>)
    ensures Merged(map[], bounds) == EMPTY
  {
  }

  lemma AbsorbMerged(done: Histories, d: Histogram, bounds: seq<real>)
    requires |d.counts| == |bounds| + 1
    ensures Absorb(Ok(Merged(done, bounds)), d) ==
            Ok(Plus(if done == map[] then Zero(d) else Merged(done, bounds), d))
  {
    MergedShape(done, bounds);
    hide Merged, Plus;
  }

  lemma DeltaSize(prev: Histories, cur: Histories, k: C.LabelKey)
    requires k in cur
    ensures var d := Delta(HistogramValue(prev, k), cur[k]);
            |d.counts| == |cur[k].counts| && d.bounds == cur[k].bounds
  {
  }

  lemma MergedShape(deltas: Histories, bounds: seq<real>)
    ensures |Merged(deltas, bounds).counts| == if deltas == map[] then 0 else |bounds| + 1
  {
  }

  // ----- The merge of well-formed deltas -----

  function UpTo(deltas: Histories, n: nat): map<C.LabelKey, int>
    requires forall k :: k in deltas ==> n <= |deltas[k].counts|
  {
    map k | k in deltas :: Total(deltas[k].counts[..n])
  }

  ghost function Columns(deltas: Histories, n: nat): int {
    if n == 0 then 0 else Columns(deltas, n - 1) + Sum(Column(deltas, n - 1))
  }

  /** Adding by bucket and adding by series give the same total. */
  lemma {:induction false} ExchangeSums(deltas: Histories, n: nat)
    requires forall k :: k in deltas ==> n <= |deltas[k].counts|
    ensures Columns(deltas, n) == Sum(UpTo(deltas, n))
  {
    if n == 0 {
      SumZero(UpTo(deltas, n));
    } else {
      ExchangeSums(deltas, n - 1);
      forall k | k in deltas
        ensures Total(deltas[k].counts[..n]) - Total(deltas[k].counts[..n - 1]) == CountAt(deltas[k], n - 1)
      {
        TotalStep(deltas[k].counts, n - 1);
      }
      hide Total;
      SumDifference(Column(deltas, n - 1), UpTo(deltas, n), UpTo(deltas, n - 1));
    }
  }

  lemma {:induction false} ColumnsGrow(deltas: Histories, i: nat, n: nat)
    requires i < n
    ensures 0 <= Sum(Column(deltas, i)) <= Columns(deltas, n)
    ensures 0 <= Columns(deltas, n - 1)
    decreases n
  {
    SumMonotone(map[], Column(deltas, i));
    if n > 1 {
      ColumnsGrow(deltas, if i < n - 1 then i else 0, n - 1);
      SumMonotone(map[], Column(deltas, n - 2));
      SumMonotone(map[], Column(deltas, n - 1));
    }
  }

  lemma {:induction false} TotalIsColumns(deltas: Histories, counts: seq<U64>, n: nat)
    requires n <= |counts| && forall i :: 0 <= i < |counts| ==> counts[i] == Sum(Column(deltas, i))
    ensures Total(counts[..n]) == Columns(deltas, n)
  {
    if n > 0 {
      TotalIsColumns(deltas, counts, n - 1);
      TotalStep(counts, n - 1);
    }
  }

  ghost predicate AllWellFormed(deltas: Histories, bounds: seq<real>) {
    forall k :: k in deltas ==> WellFormed(deltas[k]) && deltas[k].bounds == bounds
  }

  lemma ObservationsAreTotals(deltas: Histories, bounds: seq<real>)
    requires AllWellFormed(deltas, bounds)
    ensures forall k :: k in deltas ==> |bounds| + 1 <= |deltas[k].counts|
    ensures Observations(deltas) == UpTo(deltas, |bounds| + 1)
  {
    forall k | k in deltas ensures deltas[k].counts[..|bounds| + 1] == deltas[k].counts {
    }
  }

  lemma MergedColumns(deltas: Histories, bounds: seq<real>)
    requires deltas != map[] && Columns(deltas, |bounds| + 1) < 0x1_0000_0000_0000_0000
    ensures var m := Merged(deltas, bounds);
            |m.counts| == |bounds| + 1 && m.bounds == bounds &&
            Total(m.counts) == Columns(deltas, |bounds| + 1)
  {
    var m, n := Merged(deltas, bounds), |bounds| + 1;
    hide Column, Observations, Times, Columns, Sum, Total;
    forall i | 0 <= i < n ensures m.counts[i] == Sum(Column(deltas, i)) {
      ColumnsGrow(deltas, i, n);
    }
    TotalIsColumns(deltas, m.counts, n);
    assert m.counts[..n] == m.counts;
  }

  /** Merging keeps bucket counts and count in step, whatever the series. */
  lemma MergedWellFormed(deltas: Histories, bounds: seq<real>)
    requires deltas != map[] && AllWellFormed(deltas, bounds)
    requires Sum(Observations(deltas)) < 0x1_0000_0000_0000_0000
    ensures WellFormed(Merged(deltas, bounds))
    ensures Merged(deltas, bounds).count == Sum(Observations(deltas))
    ensures Merged(deltas, bounds).bounds == bounds
  {
    var n := |bounds| + 1;
    SomeBounds(deltas, bounds);
    MergedCount(deltas, bounds);
    ObservationsByColumn(deltas, bounds);
    hide *;
    MergedColumns(deltas, bounds);
    InStep(Merged(deltas, bounds), bounds);
  }

  lemma SomeBounds(deltas: Histories, bounds: seq<real>)
    requires deltas != map[] && AllWellFormed(deltas, bounds)
    ensures bounds != [] && Increasing(bounds)
  {
    var k :| k in deltas;
    assert WellFormed(deltas[k]);
  }

  lemma MergedCount(deltas: Histories, bounds: seq<real>)
    requires deltas != map[]
    ensures Merged(deltas, bounds).count == Wrap(Sum(Observations(deltas))) && Merged(deltas, bounds).bounds == bounds
    ensures forall n :: 0 <= n < 0x1_0000_0000_0000_0000 ==> Wrap(n) == n
  {
    hide Sum, Observations, Column, Times, RealSum;
  }

  lemma InStep(h: Histogram, bounds: seq<real>)
    requires bounds != [] && Increasing(bounds) && h.bounds == bounds
    requires |h.counts| == |bounds| + 1 && Total(h.counts) == h.count
    ensures WellFormed(h)
  {
    hide Total;
  }

  lemma ObservationsByColumn(deltas: Histories, bounds: seq<real>)
    requires AllWellFormed(deltas, bounds)
    ensures Sum(Observations(deltas)) == Columns(deltas, |bounds| + 1) >= 0
  {
    ObservationsAreTotals(deltas, bounds);
    hide AllWellFormed, WellFormed, Total, Observations, Column, Columns, Sum;
    ExchangeSums(deltas, |bounds| + 1);
    ColumnsGrow(deltas, 0, |bounds| + 2);
  }

  /** Each provider's p95, like any other quantile of it, lies between the outer bounds and
      grows with the rank: the series of a provider may come and go in any number. */
  lemma ProviderQuantileBounded(prev: Histories, cur: Histories, provider: string, bounds: seq<real>, q: real, q': real)
    requires AllContinue(prev, cur, provider, bounds)
    requires Sum(Observations(Deltas(prev, cur, provider))) < 0x1_0000_0000_0000_0000
    requires q <= q'
    ensures var h := Merged(Deltas(prev, cur, provider), bounds);
            if h.count == 0 then Quantile(h, q) == 0.0
            else |bounds| > 0 && bounds[0] <= Quantile(h, q) <= Quantile(h, q') <= bounds[|bounds| - 1]
  {
    var deltas := Deltas(prev, cur, provider);
    DeltasWellFormed(prev, cur, provider, bounds);
    var h := Merged(deltas, bounds);
    assert deltas == map[] ==> h == EMPTY;
    hide *;
    if deltas != map[] {
      MergedWellFormed(deltas, bounds);
    }
    OrEmptyBounded(h, bounds, q, q');
  }

  lemma OrEmptyBounded(h: Histogram, bounds: seq<real>, q: real, q': real)
    requires h == EMPTY || (WellFormed(h) && h.bounds == bounds)
    requires q <= q'
    ensures if h.count == 0 then Quantile(h, q) == 0.0
            else |bounds| > 0 && bounds[0] <= Quantile(h, q) <= Quantile(h, q') <= bounds[|bounds| - 1]
  {
    hide From, Rank, Total;
    if h.count > 0 {
      hide Quantile;
      QuantileBoundedMonotone(h, q, q');
    }
  }

  /** What the series held in bucket i before, 0 if it is new. */
  function CountBefore(prev: Histories, k: C.LabelKey, i: nat): int {
    if k in prev && i < |prev[k].counts| then prev[k].counts[i] else 0
  }

  /** The growth of the provider's series in bucket i. */
  function Growth(prev: Histories, cur: Histories, provider: string, i: nat): map<C.LabelKey, int> {
    map k | k in cur && Names(k, provider) && i < |cur[k].counts| :: cur[k].counts[i] - CountBefore(prev, k, i)
  }

  function TimeGrowth(prev: Histories, cur: Histories, provider: string): map<C.LabelKey, real> {
    map k | k in cur && Names(k, provider) :: cur[k].sum - if k in prev then prev[k].sum else 0.0
  }

  /** With one layout and series that only grow, the merge holds in each bucket the provider's whole growth
      there, and in its sum the time its requests took. */
  lemma MergedIsGrowth(prev: Histories, cur: Histories, provider: string, bounds: seq<real>, i: nat)
    requires AllContinue(prev, cur, provider, bounds) && Deltas(prev, cur, provider) != map[]
    requires Sum(Observations(Deltas(prev, cur, provider))) < 0x1_0000_0000_0000_0000
    requires i <= |bounds|
    ensures var m := Merged(Deltas(prev, cur, provider), bounds);
            && |m.counts| == |bounds| + 1
            && m.counts[i] == Sum(Growth(prev, cur, provider, i))
            && m.sum == RealSum(TimeGrowth(prev, cur, provider))
  {
    hide *;
    var deltas := Deltas(prev, cur, provider);
    DeltasWellFormed(prev, cur, provider, bounds);
    ObservationsByColumn(deltas, bounds);
    ColumnsGrow(deltas, i, |bounds| + 1);
    GrowthIsColumn(prev, cur, provider, bounds, i);
    MergedBucket(deltas, bounds, i);
  }

  lemma MergedBucket(deltas: Histories, bounds: seq<real>, i: nat)
    requires deltas != map[] && i <= |bounds| && 0 <= Sum(Column(deltas, i)) < 0x1_0000_0000_0000_0000
    ensures var m := Merged(deltas, bounds);
            && |m.counts| == |bounds| + 1
            && m.counts[i] == Sum(Column(deltas, i))
            && m.sum == RealSum(Times(deltas))
  {
    hide Sum, RealSum, Column, Times, Observations;
  }

  lemma GrowthIsColumn(prev: Histories, cur: Histories, provider: string, bounds: seq<real>, i: nat)
    requires AllContinue(prev, cur, provider, bounds) && i <= |bounds|
    ensures Column(Deltas(prev, cur, provider), i) == Growth(prev, cur, provider, i)
    ensures Times(Deltas(prev, cur, provider)) == TimeGrowth(prev, cur, provider)
  {
    hide Delta, HistogramValue, CountBefore, CountAt, AllContinue, Names;
    forall k | k in cur && Names(k, provider)
      ensures i < |cur[k].counts|
      ensures CountAt(Delta(HistogramValue(prev, k), cur[k]), i) == cur[k].counts[i] - CountBefore(prev, k, i)
      ensures Delta(HistogramValue(prev, k), cur[k]).sum == cur[k].sum - if k in prev then prev[k].sum else 0.0
    {
      ContinuesHere(prev, cur, provider, bounds, k);
      SeriesGrowth(prev, cur, k, i, bounds);
    }
  }

  lemma ContinuesHere(prev: Histories, cur: Histories, provider: string, bounds: seq<real>, k: C.LabelKey)
    requires AllContinue(prev, cur, provider, bounds) && k in cur && Names(k, provider)
    ensures Continues(HistogramValue(prev, k), cur[k]) && cur[k].bounds == bounds
  {
    hide Continues, Names, HistogramValue;
  }

  lemma SeriesGrowth(prev: Histories, cur: Histories, k: C.LabelKey, i: nat, bounds: seq<real>)
    requires k in cur && Continues(HistogramValue(prev, k), cur[k]) && cur[k].bounds == bounds && i <= |bounds|
    ensures i < |cur[k].counts|
    ensures CountAt(Delta(HistogramValue(prev, k), cur[k]), i) == cur[k].counts[i] - CountBefore(prev, k, i)
    ensures Delta(HistogramValue(prev, k), cur[k]).sum == cur[k].sum - if k in prev then prev[k].sum else 0.0
  {
    DeltaAt(HistogramValue(prev, k), cur[k], i);
    hide Total, Increasing;
  }

  ghost predicate AllContinue(prev: Histories, cur: Histories, provider: string, bounds: seq<real>) {
    forall k :: k in cur && Names(k, provider) ==>
                  Continues(HistogramValue(prev, k), cur[k]) && cur[k].bounds == bounds
  }

  lemma DeltasWellFormed(prev: Histories, cur: Histories, provider: string, bounds: seq<real>)
    requires AllContinue(prev, cur, provider, bounds)
    ensures AllWellFormed(Deltas(prev, cur, provider), bounds)
  {
    var deltas := Deltas(prev, cur, provider);
    forall k | k in deltas ensures WellFormed(deltas[k]) && deltas[k].bounds == bounds {
      var start, end := HistogramValue(prev, k), cur[k];
      assert Continues(start, end) && deltas[k] == Delta(start, end);
      assert Delta(start, end).bounds == end.bounds;
      hide *;
      DeltaWellFormed(start, end);
    }
  }
}
