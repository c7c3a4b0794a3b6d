/** Windowed counters: deltas per series, the headline totals, and the per-label rows. */
module Counters {
  import opened Wrappers
  import opened Order
  import opened Sums
  import L = LabelKeys

  /** The attributes of one series, as text. */
  type LabelKey = string

  /** The value that the scan of the text finds under a name. */
  function Get(key: LabelKey, name: string): string {
    L.Scan(key, name + "=")
  }

  const PROVIDER := "gen_ai.provider.name"
  const STATUS := "http.response.status_code"

  type Series = map<LabelKey, int>

  function At(m: Series, key: LabelKey): int {
    if key in m then m[key] else 0
  }

  // ----- Deltas -----

  function Delta(start: Series, end: Series): Series {
    map k | k in end :: end[k] - At(start, k)
  }

  method CounterDelta(start: Series, end: Series) returns (out: Series)
    ensures out == Delta(start, end)
    ensures out.Keys == end.Keys && forall k :: k in end ==> out[k] == if k in start then end[k] - start[k] else end[k]
  {
    out := map[];
    var todo := end.Keys;
    while todo != {}
      invariant todo <= end.Keys && out.Keys == end.Keys - todo
      invariant forall k :: k in out ==> out[k] == end[k] - At(start, k)
    {
      var k :| k in todo;
      out := out[k := end[k] - At(start, k)];
      todo := todo - {k};
    }
  }

  /** What the start sample held in series that the end sample has lost. */
  ghost function Lost(start: Series, end: Series): int {
    Sum(start - end.Keys)
  }

  /** The total of the deltas is the difference of the totals, but for the lost series. */
  lemma DeltaTotal(start: Series, end: Series)
    ensures Sum(Delta(start, end)) == Sum(end) - Sum(start) + Lost(start, end)
  {
    var earlier := map k | k in end :: At(start, k);
    SumDifference(Delta(start, end), end, earlier);
    SumRestricted(start, end.Keys, earlier);
  }

  // ----- Headline totals -----

  predicate StatusStarts(key: LabelKey, c: char) {
    var status := Get(key, STATUS);
    status != "" && status[0] == c
  }

  predicate IsSuccess(key: LabelKey) { StatusStarts(key, '2') }

  predicate IsErrored(key: LabelKey) { StatusStarts(key, '4') || StatusStarts(key, '5') }

  function Where(m: Series, p: LabelKey -> bool): Series {
    map k | k in m && p(k) :: m[k]
  }

  lemma WhereAdd(m: Series, p: LabelKey -> bool, k: LabelKey, v: int)
    requires k !in m
    ensures Sum(Where(m[k := v], p)) == Sum(Where(m, p)) + (if p(k) then v else 0)
  {
    if p(k) {
      SumAdd(Where(m, p), k, v);
      assert Where(m[k := v], p) == Where(m, p)[k := v];
    } else {
      assert Where(m[k := v], p) == Where(m, p);
    }
  }

  lemma WhereSplit(m: Series, p: LabelKey -> bool, q: LabelKey -> bool)
    requires forall k :: k in m ==> p(k) == !q(k)
    ensures Sum(Where(m, p)) + Sum(Where(m, q)) == Sum(m)
  {
    SumSplit(m, Where(m, p), Where(m, q));
  }

  lemma NothingWhere(p: LabelKey -> bool)
    ensures Sum(Where(map[], p)) == 0
  {
  }

  method ClassifyTotals(deltas: Series) returns (total: int, success: int, errored: int)
    ensures total == Sum(deltas)
    ensures success == Sum(Where(deltas, IsSuccess)) && errored == Sum(Where(deltas, IsErrored))
  {
    hide Where, Get;
    total, success, errored := 0, 0, 0;
    NothingWhere(IsSuccess);
    NothingWhere(IsErrored);
    var todo := deltas.Keys;
    ghost var done: Series := map[];
    while todo != {}
      invariant todo <= deltas.Keys && done == deltas - todo
      invariant total == Sum(done)
      invariant success == Sum(Where(done, IsSuccess)) && errored == Sum(Where(done, IsErrored))
    {
      var k :| k in todo;
      var v := deltas[k];
      total := total + v;
      if IsSuccess(k) {
        success := success + v;
      } else if IsErrored(k) {
        errored := errored + v;
      }
      SumAdd(done, k, v);
      WhereAdd(done, IsSuccess, k, v);
      WhereAdd(done, IsErrored, k, v);
      done := done[k := v];
      todo := todo - {k};
    }
    assert done == deltas;
  }

  predicate IsOther(key: LabelKey) { !IsSuccess(key) && !IsErrored(key) }

  predicate IsAnswered(key: LabelKey) { !IsOther(key) }

  /** What is neither success nor error shows up as the residual of the total. */
  lemma ResidualIsOther(m: Series)
    ensures Sum(m) == Sum(Where(m, IsSuccess)) + Sum(Where(m, IsErrored)) + Sum(Where(m, IsOther))
  {
    hide StatusStarts, Sum, Where;
    WhereSplit(m, IsOther, IsAnswered);
    AnsweredSplit(m);
    WhereSplit(Where(m, IsAnswered), IsSuccess, IsErrored);
  }

  lemma AnsweredSplit(m: Series)
    ensures var answered := Where(m, IsAnswered);
            && Where(answered, IsSuccess) == Where(m, IsSuccess)
            && Where(answered, IsErrored) == Where(m, IsErrored)
            && forall k :: k in answered ==> IsSuccess(k) == !IsErrored(k)
  {
    hide Get;
  }

  // ----- Rows per label -----

  function ProviderOf(key: LabelKey): Option<string> {
    var p := Get(key, PROVIDER);
    if p == "" then None else Some(p)
  }

  function ProtocolOf(key: LabelKey): Option<(string, string)> {
    var p, q := Get(key, PROVIDER), Get(key, "slipspace.protocol");
    if p == "" || q == "" then None else Some((p, q))
  }

  function ConfigurationOf(key: LabelKey): Option<string> {
    var c := Get(key, "slipspace.configuration");
    if c == "" then None else Some(c)
  }

  datatype Row<G> = Row(group: G, requests: int, errorRate: real)

  function Ratio(num: int, denom: int): real {
    if denom == 0 then 0.0 else num as real / denom as real
  }

  function Of<G(==)>(m: Series, groupOf: LabelKey -> Option<G>, g: G): Series {
    map k | k in m && groupOf(k) == Some(g) :: m[k]
  }

  function Unlabelled<G>(m: Series, groupOf: LabelKey -> Option<G>): Series {
    map k | k in m && groupOf(k).None? :: m[k]
  }

  ghost function RowFor<G>(m: Series, groupOf: LabelKey -> Option<G>, g: G): Row<G> {
    var mine := Of(m, groupOf, g);
    Row(g, Sum(mine), Ratio(Sum(Where(mine, IsErrored)), Sum(mine)))
  }

  predicate BusierFirst<G>(a: Row<G>, b: Row<G>) { a.requests >= b.requests }

  predicate DistinctGroups<G(==)>(rows: seq<Row<G>>) {
    forall i, j :: 0 <= i < j < |rows| ==> rows[i].group != rows[j].group
  }

  /** One row a group that saw traffic, each with its group's totals, the busiest first. */
  ghost predicate IsTable<G(!new)>(m: Series, groupOf: LabelKey -> Option<G>, rows: seq<Row<G>>) {
    && DistinctGroups(rows)
    && (forall r :: r in rows ==> r == RowFor(m, groupOf, r.group))
    && (forall g :: (exists r :: r in rows && r.group == g) <==> (exists k :: k in m && groupOf(k) == Some(g)))
    && SortedBy(rows, BusierFirst)
  }

  lemma OfAdd<G>(m: Series, groupOf: LabelKey -> Option<G>, g: G, k: LabelKey, v: int)
    requires k !in m
    ensures Of(m[k := v], groupOf, g) ==
            if groupOf(k) == Some(g) then Of(m, groupOf, g)[k := v] else Of(m, groupOf, g)
    ensures k !in Of(m, groupOf, g)
  {
  }

  datatype Acc = Acc(requests: int, errored: int)

  ghost function AccFor(mine: Series): Acc {
    Acc(Sum(mine), Sum(Where(mine, IsErrored)))
  }

  lemma AccAdd(mine: Series, k: LabelKey, v: int)
    requires k !in mine
    ensures AccFor(mine[k := v]) ==
            Acc(AccFor(mine).requests + v, AccFor(mine).errored + if IsErrored(k) then v else 0)
  {
    SumAdd(mine, k, v);
    WhereAdd(mine, IsErrored, k, v);
  }

  lemma AccNothing()
    ensures AccFor(map[]) == Acc(0, 0)
  {
    NothingWhere(IsErrored);
  }

  ghost predicate Accumulated<G(!new)>(m: Series, groupOf: LabelKey -> Option<G>, acc: map<G, Acc>) {
    && (forall g :: g in acc ==> acc[g] == AccFor(Of(m, groupOf, g)))
    && (forall g :: g !in acc ==> Of(m, groupOf, g) == map[])
    && (forall g :: g in acc ==> Of(m, groupOf, g) != map[])
  }

  function Absorb<G(==)>(acc: map<G, Acc>, group: Option<G>, k: LabelKey, v: int): map<G, Acc> {
    if group.None? then acc
    else
      var g := group.value;
      var a := if g in acc then acc[g] else Acc(0, 0);
      acc[g := Acc(a.requests + v, a.errored + if IsErrored(k) then v else 0)]
  }

  lemma OneGroupGrows<G>(m: Series, groupOf: LabelKey -> Option<G>, g: G, k: LabelKey, v: int, a: Acc)
    requires k !in m && groupOf(k) == Some(g)
    requires a == AccFor(Of(m, groupOf, g))
    ensures AccFor(Of(m[k := v], groupOf, g)) == Acc(a.requests + v, a.errored + if IsErrored(k) then v else 0)
  {
    hide AccFor, IsErrored;
    OfAdd(m, groupOf, g, k, v);
    AccAdd(Of(m, groupOf, g), k, v);
  }

  lemma AccumulatedStep<G(!new)>(m: Series, groupOf: LabelKey -> Option<G>, acc: map<G, Acc>, k: LabelKey, v: int)
    requires k !in m && Accumulated(m, groupOf, acc)
    ensures Accumulated(m[k := v], groupOf, Absorb(acc, groupOf(k), k, v))
  {
    hide AccFor, IsErrored, Of;
    AccNothing();
    if groupOf(k).Some? {
      var g := groupOf(k).value;
      OneGroupGrows(m, groupOf, g, k, v, if g in acc then acc[g] else Acc(0, 0));
    }
    var m', acc' := m[k := v], Absorb(acc, groupOf(k), k, v);
    forall g ensures Of(m', groupOf, g) == map[] <==> g !in acc'
             ensures g in acc' ==> acc'[g] == AccFor(Of(m', groupOf, g))
    {
      OfAdd(m, groupOf, g, k, v);
      if groupOf(k) == Some(g) {
        assert k in Of(m', groupOf, g);
      }
    }
  }

  lemma OneMoreDone(m: Series, todo: set<LabelKey>, k: LabelKey)
    requires k in todo && k in m
    ensures m - (todo - {k}) == (m - todo)[k := m[k]] && k !in m - todo
  {
  }

  /** The loop the provider, protocol and configuration tables share. */
  method Accumulate<G(==,!new)>(deltas: Series, groupOf: LabelKey -> Option<G>) returns (acc: map<G, Acc>)
    ensures Accumulated(deltas, groupOf, acc)
  {
    hide Accumulated, IsErrored;
    acc := map[];
    var todo := deltas.Keys;
    NothingAccumulated(deltas - todo, groupOf);
    while todo != {}
      invariant todo <= deltas.Keys
      invariant Accumulated(deltas - todo, groupOf, acc)
    {
      var k :| k in todo;
      var v := deltas[k];
      AccumulatedStep(deltas - todo, groupOf, acc, k, v) by { OneMoreDone(deltas, todo, k); }
      OneMoreDone(deltas, todo, k);
      var group := groupOf(k);
      if group.Some? {
        var g := group.value;
        var a := if g in acc then acc[g] else Acc(0, 0);
        a := a.(requests := a.requests + v);
        if IsErrored(k) {
          a := a.(errored := a.errored + v);
        }
        acc := acc[g := a];
      }
      todo := todo - {k};
    }
    assert deltas - todo == deltas;
  }

  lemma NothingAccumulated<G(!new)>(m: Series, groupOf: LabelKey -> Option<G>)
    requires m == map[]
    ensures Accumulated(m, groupOf, map[])
  {
  }

  /** The table the three functions below share, by the label they group on. */
  method ComputeRows<G(==,!new)>(deltas: Series, groupOf: LabelKey -> Option<G>) returns (rows: seq<Row<G>>)
    ensures IsTable(deltas, groupOf, rows)
    ensures forall i, j :: 0 <= i < j < |rows| ==> rows[i].requests >= rows[j].requests
  {
    var acc := Accumulate(deltas, groupOf);
    hide Accumulated, IsTable, Ratio;
    var out: seq<Row<G>> := [];
    var todo := acc.Keys;
    while todo != {}
      invariant todo <= acc.Keys && RowsOfAcc(acc, todo, out)
    {
      var g :| g in todo;
      var a := acc[g];
      out := out + [Row(g, a.requests, Ratio(a.errored, a.requests))];
      todo := todo - {g};
    }
    rows := Sort(out, BusierFirst);
    RowsFromAcc(deltas, groupOf, acc, out);
    Descending(deltas, groupOf, rows);
  }

  lemma Descending<G(!new)>(m: Series, groupOf: LabelKey -> Option<G>, rows: seq<Row<G>>)
    requires IsTable(m, groupOf, rows)
    ensures forall i, j :: 0 <= i < j < |rows| ==> rows[i].requests >= rows[j].requests
  {
    hide RowFor, DistinctGroups;
    forall i, j | 0 <= i < j < |rows| ensures rows[i].requests >= rows[j].requests {
      SortedPair(rows, BusierFirst, i, j);
    }
  }

  ghost predicate RowsOfAcc<G(!new)>(acc: map<G, Acc>, todo: set<G>, out: seq<Row<G>>) {
    && DistinctGroups(out)
    && (forall r :: r in out ==> r.group in acc && r.group !in todo && r == RowOfAcc(r.group, acc[r.group]))
    && (forall g :: g in acc && g !in todo ==> RowOfAcc(g, acc[g]) in out)
  }

  function RowOfAcc<G>(g: G, a: Acc): Row<G> { Row(g, a.requests, Ratio(a.errored, a.requests)) }

  lemma DistinctPermutation<G(!new)>(out: seq<Row<G>>, rows: seq<Row<G>>)
    requires DistinctGroups(out) && multiset(rows) == multiset(out)
    ensures DistinctGroups(rows)
    ensures forall r :: r in rows <==> r in out
  {
    SameMembers(rows, out);
    assert Distinct(out);
    DistinctPermuted(out, rows);
    forall i, j | 0 <= i < j < |rows| ensures rows[i].group != rows[j].group {
      assert rows[i] in rows && rows[j] in rows;
    }
  }

  lemma BusierOrder<G(!new)>()
    ensures TotalPreorder<Row<G>>(BusierFirst)
  {
  }

  lemma RowsFromAcc<G(!new)>(m: Series, groupOf: LabelKey -> Option<G>, acc: map<G, Acc>, out: seq<Row<G>>)
    requires Accumulated(m, groupOf, acc) && RowsOfAcc(acc, {}, out)
    ensures IsTable(m, groupOf, Sort(out, BusierFirst))
  {
    BusierOrder<G>();
    SortSorted(out, BusierFirst);
    SortPermutes(out, BusierFirst);
    DistinctPermutation(out, Sort(out, BusierFirst));
    AccGroups(m, groupOf, acc, out);
    hide Accumulated, Of, AccFor;
    forall r | r in out ensures r == RowFor(m, groupOf, r.group) {
      AccRow(m, groupOf, acc, r);
    }
  }

  lemma AccRow<G(!new)>(m: Series, groupOf: LabelKey -> Option<G>, acc: map<G, Acc>, r: Row<G>)
    requires Accumulated(m, groupOf, acc) && r.group in acc && r == RowOfAcc(r.group, acc[r.group])
    ensures r == RowFor(m, groupOf, r.group)
  {
    hide Of, Where, Ratio;
  }

  lemma AccGroups<G(!new)>(m: Series, groupOf: LabelKey -> Option<G>, acc: map<G, Acc>, out: seq<Row<G>>)
    requires Accumulated(m, groupOf, acc) && RowsOfAcc(acc, {}, out)
    ensures forall g :: (exists r :: r in out && r.group == g) <==> (exists k :: k in m && groupOf(k) == Some(g))
  {
    hide AccFor, Ratio, DistinctGroups;
    forall g ensures (exists r :: r in out && r.group == g) <==> (exists k :: k in m && groupOf(k) == Some(g)) {
      assert (exists r :: r in out && r.group == g) <==> g in acc;
      assert g in acc <==> Of(m, groupOf, g) != map[];
      if k :| k in Of(m, groupOf, g) {
        assert k in m && groupOf(k) == Some(g);
      }
      if k :| k in m && groupOf(k) == Some(g) {
        assert k in Of(m, groupOf, g);
      }
    }
  }

  // ----- The tables against the headline -----

  function RowsTotal<G>(rows: seq<Row<G>>): int {
    if rows == [] then 0 else rows[0].requests + RowsTotal(rows[1..])
  }

  /** The errored requests the rows' rates stand for. */
  function RowsErrors<G>(rows: seq<Row<G>>): real {
    if rows == [] then 0.0 else Errors(rows[0]) + RowsErrors(rows[1..])
  }

  function Errors<G>(r: Row<G>): real { r.errorRate * r.requests as real }

  ghost predicate HasRow<G(!new)>(rows: seq<Row<G>>, group: Option<G>) {
    exists r :: r in rows && group == Some(r.group)
  }

  ghost function Covered<G(!new)>(m: Series, groupOf: LabelKey -> Option<G>, rows: seq<Row<G>>): Series {
    map k | k in m && HasRow(rows, groupOf(k)) :: m[k]
  }

  ghost function GroupTotals<G(!new)>(m: Series, groupOf: LabelKey -> Option<G>, rows: seq<Row<G>>): int {
    if rows == [] then 0 else Sum(Of(m, groupOf, rows[0].group)) + GroupTotals(m, groupOf, rows[1..])
  }

  lemma {:induction false} GroupsPartition<G(!new)>(m: Series, groupOf: LabelKey -> Option<G>, rows: seq<Row<G>>)
    requires DistinctGroups(rows)
    ensures GroupTotals(m, groupOf, rows) == Sum(Covered(m, groupOf, rows))
  {
    if rows == [] {
      assert Covered(m, groupOf, rows) == map[];
    } else {
      var g, rest := rows[0].group, rows[1..];
      var a, b := Of(m, groupOf, g), Covered(m, groupOf, rest);
      assert !HasRow(rest, Some(g));
      forall k | k in m ensures HasRow(rows, groupOf(k)) <==> groupOf(k) == Some(g) || HasRow(rest, groupOf(k)) {
        HasRowStep(rows, groupOf(k));
      }
      SumSplit(Covered(m, groupOf, rows), a, b);
      GroupsPartition(m, groupOf, rest);
    }
  }

  lemma HasRowStep<G(!new)>(rows: seq<Row<G>>, group: Option<G>)
    requires rows != []
    ensures HasRow(rows, group) <==> group == Some(rows[0].group) || HasRow(rows[1..], group)
  {
    assert rows == [rows[0]] + rows[1..];
  }

  lemma LabelledHasRow<G(!new)>(m: Series, groupOf: LabelKey -> Option<G>, rows: seq<Row<G>>, k: LabelKey)
    requires IsTable(m, groupOf, rows) && k in m
    ensures HasRow(rows, groupOf(k)) <==> groupOf(k).Some?
  {
    hide RowFor, DistinctGroups, SortedBy;
    if groupOf(k).Some? {
      var g := groupOf(k).value;
      assert k in m && groupOf(k) == Some(g);
      var r :| r in rows && r.group == g;
    }
  }

  lemma CoveredOrUnlabelled<G(!new)>(m: Series, part: Series, groupOf: LabelKey -> Option<G>, rows: seq<Row<G>>)
    requires IsTable(m, groupOf, rows) && part.Keys <= m.Keys
    ensures Sum(Covered(part, groupOf, rows)) + Sum(Unlabelled(part, groupOf)) == Sum(part)
  {
    hide IsTable, HasRow, Sum;
    forall k | k in part ensures HasRow(rows, groupOf(k)) <==> groupOf(k).Some? {
      LabelledHasRow(m, groupOf, rows, k);
    }
    CoveredSplit(part, groupOf, rows);
    hide Covered, Unlabelled;
    SumSplit(part, Covered(part, groupOf, rows), Unlabelled(part, groupOf));
  }

  lemma CoveredSplit<G(!new)>(part: Series, groupOf: LabelKey -> Option<G>, rows: seq<Row<G>>)
    requires forall k :: k in part ==> (HasRow(rows, groupOf(k)) <==> groupOf(k).Some?)
    ensures var a, b := Covered(part, groupOf, rows), Unlabelled(part, groupOf); a.Keys !! b.Keys && part == a + b
  {
    hide HasRow;
  }

  lemma {:induction false} RowsAreGroupTotals<G(!new)>(m: Series, groupOf: LabelKey -> Option<G>, rows: seq<Row<G>>)
    requires forall r :: r in rows ==> r == RowFor(m, groupOf, r.group)
    ensures RowsTotal(rows) == GroupTotals(m, groupOf, rows)
  {
    if rows != [] {
      assert rows[0] in rows;
      RowsAreGroupTotals(m, groupOf, rows[1..]);
    }
  }

  /** The rows and the unlabelled residue add up to the headline total. */
  lemma TablePartitionsTotal<G(!new)>(m: Series, groupOf: LabelKey -> Option<G>, rows: seq<Row<G>>)
    requires IsTable(m, groupOf, rows)
    ensures RowsTotal(rows) + Sum(Unlabelled(m, groupOf)) == Sum(m)
  {
    RowsAreGroupTotals(m, groupOf, rows);
    GroupsPartition(m, groupOf, rows);
    CoveredOrUnlabelled(m, m, groupOf, rows);
  }

  predicate NonNegative(m: Series) {
    forall k :: k in m ==> 0 <= m[k]
  }

  lemma ErroredAmong(mine: Series)
    requires NonNegative(mine)
    ensures 0 <= Sum(Where(mine, IsErrored)) <= Sum(mine)
  {
    hide IsErrored;
    SumMonotone(Where(mine, IsErrored), mine);
    SumMonotone(map[], Where(mine, IsErrored));
  }

  lemma ErroredCommutes<G>(m: Series, groupOf: LabelKey -> Option<G>, g: G)
    ensures Where(Of(m, groupOf, g), IsErrored) == Of(Where(m, IsErrored), groupOf, g)
  {
    hide IsErrored;
  }

  lemma RateStandsForErrors<G(!new)>(m: Series, groupOf: LabelKey -> Option<G>, g: G)
    requires NonNegative(m)
    ensures var r := RowFor(m, groupOf, g);
            && Errors(r) == Sum(Of(Where(m, IsErrored), groupOf, g)) as real
            && 0.0 <= r.errorRate <= 1.0
  {
    var r, mine := RowFor(m, groupOf, g), Of(m, groupOf, g);
    var bad := Where(mine, IsErrored);
    assert NonNegative(mine) && r.requests == Sum(mine) && r.errorRate == Ratio(Sum(bad), Sum(mine));
    hide *;
    ErroredCommutes(m, groupOf, g);
    ErroredAmong(mine);
    RowRate(r, Sum(bad));
  }

  lemma RowRate<G>(r: Row<G>, errored: int)
    requires 0 <= errored <= r.requests && r.errorRate == Ratio(errored, r.requests)
    ensures Errors(r) == errored as real && 0.0 <= r.errorRate <= 1.0
  {
    if r.requests != 0 {
      var n, d := errored as real, r.requests as real;
      assert n / d * d == n;
      assert 0.0 <= n / d <= 1.0;
    }
  }

  lemma {:induction false} RowErrorsAreGroupTotals<G(!new)>(m: Series, groupOf: LabelKey -> Option<G>,
                                                            rows: seq<Row<G>>)
    requires NonNegative(m)
    requires forall r :: r in rows ==> r == RowFor(m, groupOf, r.group)
    ensures RowsErrors(rows) == GroupTotals(Where(m, IsErrored), groupOf, rows) as real
    ensures forall r :: r in rows ==> 0.0 <= r.errorRate <= 1.0
  {
    hide NonNegative, RowFor, Where, Of, Sum, Errors;
    if rows != [] {
      assert rows[0] in rows && rows == [rows[0]] + rows[1..];
      RateStandsForErrors(m, groupOf, rows[0].group);
      RowErrorsAreGroupTotals(m, groupOf, rows[1..]);
    }
  }

  /** With counters that never shrink the error rates are rates, and weighted by the requests
      they account for the headline's errored total, but for the unlabelled residue. */
  lemma TablePartitionsErrors<G(!new)>(m: Series, groupOf: LabelKey -> Option<G>, rows: seq<Row<G>>)
    requires IsTable(m, groupOf, rows) && NonNegative(m)
    ensures RowsErrors(rows) + Sum(Unlabelled(Where(m, IsErrored), groupOf)) as real
            == Sum(Where(m, IsErrored)) as real
    ensures forall r :: r in rows ==> 0.0 <= r.errorRate <= 1.0
  {
    var bad := Where(m, IsErrored);
    assert bad.Keys <= m.Keys;
    hide Where;
    RowErrorsAreGroupTotals(m, groupOf, rows);
    GroupsPartition(bad, groupOf, rows);
    CoveredOrUnlabelled(m, bad, groupOf, rows);
  }

  // ----- The three tables -----

  method ComputeByProvider(deltas: Series) returns (rows: seq<Row<string>>)
    ensures IsTable(deltas, ProviderOf, rows)
    ensures RowsTotal(rows) + Sum(Unlabelled(deltas, ProviderOf)) == Sum(deltas)
  {
    rows := ComputeRows(deltas, ProviderOf);
    TablePartitionsTotal(deltas, ProviderOf, rows);
  }

  method ComputeByProtocol(deltas: Series) returns (rows: seq<Row<(string, string)>>)
    ensures IsTable(deltas, ProtocolOf, rows)
    ensures RowsTotal(rows) + Sum(Unlabelled(deltas, ProtocolOf)) == Sum(deltas)
  {
    rows := ComputeRows(deltas, ProtocolOf);
    TablePartitionsTotal(deltas, ProtocolOf, rows);
  }

  method ComputeByConfiguration(deltas: Series) returns (rows: seq<Row<string>>)
    ensures IsTable(deltas, ConfigurationOf, rows)
    ensures RowsTotal(rows) + Sum(Unlabelled(deltas, ConfigurationOf)) == Sum(deltas)
  {
    rows := ComputeRows(deltas, ConfigurationOf);
    TablePartitionsTotal(deltas, ConfigurationOf, rows);
  }

  // ----- What the tables say of label sets -----

  /** Every series is keyed by the text of a plain label set. */
  ghost predicate PlainSeries(m: Series, labels: map<LabelKey, seq<L.Attribute>>) {
    forall k :: k in m ==> k in labels && L.PlainSet(labels[k]) && k == L.EncodeLabels(labels[k])
  }

  /** The series whose label set gives `name` the value `v`. */
  function With(m: Series, labels: map<LabelKey, seq<L.Attribute>>, name: string, v: string): Series {
    map k | k in m && k in labels && L.ValueOf(labels[k], name) == v :: m[k]
  }

  /** The series whose label set gives a status that starts with one of the digits. */
  function WithStatus(m: Series, labels: map<LabelKey, seq<L.Attribute>>, digits: set<char>): Series {
    map k | k in m && k in labels && StatusIn(labels[k], digits) :: m[k]
  }

  predicate StatusIn(attrs: seq<L.Attribute>, digits: set<char>) {
    var status := L.ValueOf(attrs, "http.response.status_code");
    status != "" && status[0] in digits
  }

  lemma ProviderClean()
    ensures L.CleanName("gen_ai.provider.name")
  {
  }

  lemma StatusClean()
    ensures L.CleanName("http.response.status_code")
  {
  }

  lemma ProtocolClean()
    ensures L.CleanName("slipspace.protocol")
  {
  }

  lemma ConfigurationClean()
    ensures L.CleanName("slipspace.configuration")
  {
  }

  lemma NamesClean()
    ensures L.CleanName("gen_ai.provider.name") && L.CleanName("http.response.status_code")
    ensures L.CleanName("slipspace.protocol") && L.CleanName("slipspace.configuration")
  {
    hide L.CleanName;
    ProviderClean();
    StatusClean();
    ProtocolClean();
    ConfigurationClean();
  }

  /** What the scan finds in each series is what its label set says. */
  lemma SeriesReadBack(m: Series, labels: map<LabelKey, seq<L.Attribute>>, k: LabelKey, name: string)
    requires PlainSeries(m, labels) && k in m && L.CleanName(name)
    ensures k in labels && Get(k, name) == L.ValueOf(labels[k], name)
  {
    L.PlainValuesReadBack(labels[k], name);
    hide L.PlainSet, L.EncodeLabels, L.ValueOf, L.Scan;
  }

  lemma StatusReadBack(m: Series, labels: map<LabelKey, seq<L.Attribute>>, k: LabelKey)
    requires PlainSeries(m, labels) && k in m
    ensures k in labels
    ensures IsSuccess(k) <==> StatusIn(labels[k], {'2'})
    ensures IsErrored(k) <==> StatusIn(labels[k], {'4', '5'})
  {
    NamesClean();
    SeriesReadBack(m, labels, k, "http.response.status_code");
    hide L.ValueOf, Get;
  }

  /** The headline's successes and errors are those of exactly the label sets whose status says so. */
  lemma HeadlineCountsLabelSets(m: Series, labels: map<LabelKey, seq<L.Attribute>>)
    requires PlainSeries(m, labels)
    ensures Sum(Where(m, IsSuccess)) == Sum(WithStatus(m, labels, {'2'}))
    ensures Sum(Where(m, IsErrored)) == Sum(WithStatus(m, labels, {'4', '5'}))
  {
    hide PlainSeries, IsSuccess, IsErrored, StatusIn, Sum;
    forall k | k in m
      ensures k in labels && (IsSuccess(k) <==> StatusIn(labels[k], {'2'}))
      ensures IsErrored(k) <==> StatusIn(labels[k], {'4', '5'})
    {
      StatusReadBack(m, labels, k);
    }
    assert Where(m, IsSuccess) == WithStatus(m, labels, {'2'});
    assert Where(m, IsErrored) == WithStatus(m, labels, {'4', '5'});
  }

  /** The row has the requests and the error rate of these series. */
  ghost predicate RowCounts<G>(r: Row<G>, mine: Series, labels: map<LabelKey, seq<L.Attribute>>) {
    var failing := Sum(WithStatus(mine, labels, {'4', '5'}));
    && r.requests == Sum(mine)
    && r.errorRate == if Sum(mine) == 0 then 0.0 else failing as real / Sum(mine) as real
  }

  lemma RowOfLabelSets<G(!new)>(m: Series, labels: map<LabelKey, seq<L.Attribute>>, groupOf: LabelKey -> Option<G>,
                                rows: seq<Row<G>>, r: Row<G>)
    requires PlainSeries(m, labels) && IsTable(m, groupOf, rows) && r in rows
    ensures RowCounts(r, Of(m, groupOf, r.group), labels)
    ensures exists k :: k in m && groupOf(k) == Some(r.group)
  {
    hide PlainSeries, DistinctGroups, SortedBy;
    var mine := Of(m, groupOf, r.group);
    assert r == RowFor(m, groupOf, r.group);
    PlainAmong(m, mine, labels);
    HeadlineCountsLabelSets(mine, labels);
  }

  lemma PlainAmong(m: Series, mine: Series, labels: map<LabelKey, seq<L.Attribute>>)
    requires PlainSeries(m, labels) && mine.Keys <= m.Keys
    ensures PlainSeries(mine, labels)
  {
    hide L.PlainSet, L.EncodeLabels;
  }

  /** Over plain label sets each row of the provider table counts exactly the label sets that name its
      provider, and every provider named has a row. */
  lemma ProviderRowsCountLabelSets(m: Series, labels: map<LabelKey, seq<L.Attribute>>, rows: seq<Row<string>>)
    requires PlainSeries(m, labels) && IsTable(m, ProviderOf, rows)
    ensures forall r :: r in rows ==>
              r.group != "" && RowCounts(r, With(m, labels, "gen_ai.provider.name", r.group), labels)
    ensures forall k :: k in m && L.ValueOf(labels[k], "gen_ai.provider.name") != "" ==>
              exists r :: r in rows && r.group == L.ValueOf(labels[k], "gen_ai.provider.name")
  {
    hide RowCounts;
    forall r | r in rows
      ensures r.group != "" && RowCounts(r, With(m, labels, "gen_ai.provider.name", r.group), labels)
    {
      RowOfLabelSets(m, labels, ProviderOf, rows, r);
      ProviderSeries(m, labels, r.group);
    }
    forall k | k in m && L.ValueOf(labels[k], "gen_ai.provider.name") != ""
      ensures exists r :: r in rows && r.group == L.ValueOf(labels[k], "gen_ai.provider.name")
    {
      NamesClean();
      SeriesReadBack(m, labels, k, "gen_ai.provider.name");
      HasItsRow(m, ProviderOf, rows, k, L.ValueOf(labels[k], "gen_ai.provider.name"));
    }
  }

  lemma HasItsRow<G(!new)>(m: Series, groupOf: LabelKey -> Option<G>, rows: seq<Row<G>>, k: LabelKey, g: G)
    requires IsTable(m, groupOf, rows) && k in m && groupOf(k) == Some(g)
    ensures exists r :: r in rows && r.group == g
  {
    hide RowFor, DistinctGroups, SortedBy;
  }

  lemma ProviderSeries(m: Series, labels: map<LabelKey, seq<L.Attribute>>, g: string)
    requires PlainSeries(m, labels) && exists k :: k in m && ProviderOf(k) == Some(g)
    ensures g != "" && Of(m, ProviderOf, g) == With(m, labels, "gen_ai.provider.name", g)
  {
    NamesClean();
    forall k | k in m ensures k in labels
                      ensures Get(k, "gen_ai.provider.name") == L.ValueOf(labels[k], "gen_ai.provider.name")
    {
      SeriesReadBack(m, labels, k, "gen_ai.provider.name");
    }
    hide PlainSeries, Get, L.ValueOf, L.CleanName;
  }

  /** Likewise for the table by provider and protocol. */
  lemma ProtocolRowsCountLabelSets(m: Series, labels: map<LabelKey, seq<L.Attribute>>, rows: seq<Row<(string, string)>>)
    requires PlainSeries(m, labels) && IsTable(m, ProtocolOf, rows)
    ensures forall r :: r in rows ==>
              && r.group.0 != "" && r.group.1 != ""
              && RowCounts(r, With(With(m, labels, "gen_ai.provider.name", r.group.0), labels,
                                   "slipspace.protocol", r.group.1), labels)
  {
    hide RowCounts;
    forall r | r in rows
      ensures r.group.0 != "" && r.group.1 != ""
      ensures RowCounts(r, With(With(m, labels, "gen_ai.provider.name", r.group.0), labels,
                                "slipspace.protocol", r.group.1), labels)
    {
      RowOfLabelSets(m, labels, ProtocolOf, rows, r);
      ProtocolSeries(m, labels, r.group);
    }
  }

  lemma ProtocolSeries(m: Series, labels: map<LabelKey, seq<L.Attribute>>, g: (string, string))
    requires PlainSeries(m, labels) && exists k :: k in m && ProtocolOf(k) == Some(g)
    ensures g.0 != "" && g.1 != ""
    ensures Of(m, ProtocolOf, g) ==
            With(With(m, labels, "gen_ai.provider.name", g.0), labels, "slipspace.protocol", g.1)
  {
    NamesClean();
    forall k | k in m ensures k in labels
                      ensures Get(k, "gen_ai.provider.name") == L.ValueOf(labels[k], "gen_ai.provider.name")
                      ensures Get(k, "slipspace.protocol") == L.ValueOf(labels[k], "slipspace.protocol")
    {
      SeriesReadBack(m, labels, k, "gen_ai.provider.name");
      SeriesReadBack(m, labels, k, "slipspace.protocol");
    }
    hide PlainSeries, Get, L.ValueOf, L.CleanName;
  }

  /** And for the configurations. */
  lemma ConfigurationRowsCountLabelSets(m: Series, labels: map<LabelKey, seq<L.Attribute>>, rows: seq<Row<string>>)
    requires PlainSeries(m, labels) && IsTable(m, ConfigurationOf, rows)
    ensures forall r :: r in rows ==>
              r.group != "" && RowCounts(r, With(m, labels, "slipspace.configuration", r.group), labels)
  {
    hide RowCounts;
    forall r | r in rows
      ensures r.group != "" && RowCounts(r, With(m, labels, "slipspace.configuration", r.group), labels)
    {
      RowOfLabelSets(m, labels, ConfigurationOf, rows, r);
      ConfigurationSeries(m, labels, r.group);
    }
  }

  lemma ConfigurationSeries(m: Series, labels: map<LabelKey, seq<L.Attribute>>, g: string)
    requires PlainSeries(m, labels) && exists k :: k in m && ConfigurationOf(k) == Some(g)
    ensures g != "" && Of(m, ConfigurationOf, g) == With(m, labels, "slipspace.configuration", g)
  {
    NamesClean();
    forall k | k in m ensures k in labels
                      ensures Get(k, "slipspace.configuration") == L.ValueOf(labels[k], "slipspace.configuration")
    {
      SeriesReadBack(m, labels, k, "slipspace.configuration");
    }
    hide PlainSeries, Get, L.ValueOf, L.CleanName;
  }

  // ----- The requests-per-second series -----

  /** A snapshot: when it was taken, in seconds, and the request counters it holds. */
  datatype Sample = Sample(at: real, requests: Series)

  datatype Point = Point(timestamp: real, value: real)

  method TotalRequestsDelta(prev: Series, cur: Series) returns (delta: int)
    ensures delta == Sum(Delta(prev, cur))
  {
    delta := 0;
    var todo := cur.Keys;
    ghost var all := Delta(prev, cur);
    while todo != {}
      invariant todo <= cur.Keys
      invariant delta == Sum(all - todo)
    {
      var k :| k in todo;
      delta := delta + (cur[k] - At(prev, k));
      SumAdd(all - todo, k, all[k]);
      assert all - (todo - {k}) == (all - todo)[k := all[k]];
      todo := todo - {k};
    }
    assert all - todo == all;
  }

  ghost function Growth(prev: Sample, cur: Sample): int {
    Sum(Delta(prev.requests, cur.requests))
  }

  ghost function Rates(samples: seq<Sample>): seq<Point> {
    var n := |samples|;
    if n < 2 then []
    else
      var prev, cur := samples[n - 2], samples[n - 1];
      var secs := cur.at - prev.at;
      Rates(samples[..n - 1]) + if secs <= 0.0 then [] else [Point(cur.at, Growth(prev, cur) as real / secs)]
  }

  method RpsSeries(samples: seq<Sample>) returns (points: seq<Point>)
    ensures points == Rates(samples)
  {
    points := [];
    var i := 1;
    while i < |samples|
      invariant 1 <= i && (i <= |samples| || points == Rates(samples))
      invariant i <= |samples| ==> points == Rates(samples[..i])
    {
      var prev, cur := samples[i - 1], samples[i];
      var secs := cur.at - prev.at;
      assert samples[..i + 1][..i] == samples[..i];
      if secs > 0.0 {
        var delta := TotalRequestsDelta(prev.requests, cur.requests);
        points := points + [Point(cur.at, delta as real / secs)];
      }
      i := i + 1;
    }
    assert |samples| > 0 ==> samples[..|samples|] == samples;
  }

  /** The area under the curve: each rate over the time since the point before. */
  function Area(points: seq<Point>, from: real): real {
    var n := |points|;
    if n == 0 then 0.0
    else Area(points[..n - 1], from) + Slab(points[n - 1], LastTime(points[..n - 1], from))
  }

  function Slab(p: Point, since: real): real { p.value * (p.timestamp - since) }

  function LastTime(points: seq<Point>, from: real): real {
    if points == [] then from else points[|points| - 1].timestamp
  }

  predicate Chronological(samples: seq<Sample>) {
    forall i :: 0 < i < |samples| ==> samples[i - 1].at <= samples[i].at
  }

  /** Growth in intervals of no length, which make no point. */
  ghost function Skipped(samples: seq<Sample>): int {
    var n := |samples|;
    if n < 2 then 0
    else Skipped(samples[..n - 1]) +
         if samples[n - 1].at <= samples[n - 2].at then Growth(samples[n - 2], samples[n - 1]) else 0
  }

  ghost function LostOnTheWay(samples: seq<Sample>): int {
    var n := |samples|;
    if n < 2 then 0
    else LostOnTheWay(samples[..n - 1]) + Lost(samples[n - 2].requests, samples[n - 1].requests)
  }

  lemma Quotient(x: real, y: real)
    requires y != 0.0
    ensures x / y * y == x
  {
  }

  lemma AreaStep(points: seq<Point>, from: real, at: real, growth: int)
    requires at > LastTime(points, from)
    ensures var p := Point(at, growth as real / (at - LastTime(points, from)));
            Area(points + [p], from) == Area(points, from) + growth as real
  {
    var secs, total := at - LastTime(points, from), growth as real;
    var p := Point(at, total / secs);
    assert Slab(p, LastTime(points, from)) == total by { Quotient(total, secs); }
    hide Slab;
    assert (points + [p])[..|points|] == points;
  }

  /** One more sample: either no time has passed, or there is one more point. */
  lemma OneMoreSample(samples: seq<Sample>)
    requires |samples| >= 2
    ensures var n := |samples|;
            var before, prev, cur := samples[..n - 1], samples[n - 2], samples[n - 1];
            && before[0] == samples[0] && before[|before| - 1] == prev
            && LostOnTheWay(samples) == LostOnTheWay(before) + Lost(prev.requests, cur.requests)
            && (if cur.at <= prev.at
                then Rates(samples) == Rates(before) && Skipped(samples) == Skipped(before) + Growth(prev, cur)
                else
                  && Rates(samples) == Rates(before) + [Point(cur.at, Growth(prev, cur) as real / (cur.at - prev.at))]
                  && Skipped(samples) == Skipped(before))
  {
    hide Growth, Lost;
  }

  /** The curve telescopes: its area is the growth of the grand total, give or take the lost
      series and the intervals of no length. */
  lemma {:induction false} RpsTelescopes(samples: seq<Sample>)
    requires Chronological(samples) && samples != []
    ensures LastTime(Rates(samples), samples[0].at) == samples[|samples| - 1].at
    ensures Area(Rates(samples), samples[0].at) ==
            (Sum(samples[|samples| - 1].requests) - Sum(samples[0].requests)
             + LostOnTheWay(samples) - Skipped(samples)) as real
  {
    var n := |samples|;
    if n >= 2 {
      var before, prev, cur := samples[..n - 1], samples[n - 2], samples[n - 1];
      RpsTelescopes(before);
      DeltaTotal(prev.requests, cur.requests);
      OneMoreSample(samples);
      assert prev.at <= cur.at;
      assert Growth(prev, cur) == Sum(cur.requests) - Sum(prev.requests) + Lost(prev.requests, cur.requests);
      hide Sum, Delta, Lost, Area, Rates, Skipped, LostOnTheWay, Growth, Chronological;
      if prev.at < cur.at {
        AreaStep(Rates(before), samples[0].at, cur.at, Growth(prev, cur));
      }
    }
  }

  lemma NothingLost(samples: seq<Sample>)
    requires forall i :: 0 < i < |samples| ==> samples[i - 1].requests.Keys <= samples[i].requests.Keys
    ensures LostOnTheWay(samples) == 0
    ensures samples != [] ==> samples[0].requests.Keys <= samples[|samples| - 1].requests.Keys
  {
    var n := |samples|;
    if n >= 2 {
      NothingLost(samples[..n - 1]);
      assert samples[n - 2].requests - samples[n - 1].requests.Keys == map[];
    }
  }

  lemma NothingSkipped(samples: seq<Sample>)
    requires forall i :: 0 < i < |samples| ==> samples[i - 1].at < samples[i].at
    ensures Skipped(samples) == 0 && (samples != [] ==> |Rates(samples)| == |samples| - 1)
  {
    if |samples| >= 2 {
      NothingSkipped(samples[..|samples| - 1]);
    }
  }

  /** When series only appear and time only advances, the area under the curve is the total
      that the summary shows for the same window. */
  lemma RpsAgreesWithHeadline(samples: seq<Sample>)
    requires samples != []
    requires forall i :: 0 < i < |samples| ==> samples[i - 1].at < samples[i].at
    requires forall i :: 0 < i < |samples| ==> samples[i - 1].requests.Keys <= samples[i].requests.Keys
    ensures |Rates(samples)| == |samples| - 1
    ensures Area(Rates(samples), samples[0].at) ==
            Sum(Delta(samples[0].requests, samples[|samples| - 1].requests)) as real
  {
    var first, last := samples[0].requests, samples[|samples| - 1].requests;
    RpsTelescopes(samples);
    NothingLost(samples);
    NothingSkipped(samples);
    DeltaTotal(first, last);
    assert first - last.Keys == map[];
  }
}
