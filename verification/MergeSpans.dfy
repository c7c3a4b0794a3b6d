/** `merge_spans`: the union of two PII engines' findings, one per overlapping cluster. */
module MergeSpans {
  import opened Wrappers
  import opened Order
  import opened Spans

  // ----- Specification -----

  function SpansOf(findings: seq<Finding>, threshold: real): seq<Span> {
    if findings == [] then []
    else
      var f := findings[0];
      (if f.score >= threshold && f.Spanned() then [f] else []) + SpansOf(findings[1..], threshold)
  }

  function WholesOf(findings: seq<Finding>, threshold: real): seq<Finding> {
    if findings == [] then []
    else
      var f := findings[0];
      (if f.score >= threshold && !f.Spanned() then [f] else []) + WholesOf(findings[1..], threshold)
  }

  /** Sort key (start, -end, category). */
  predicate SweepLe(f: Span, g: Span) {
    || Lo(f) < Lo(g)
    || (Lo(f) == Lo(g) && (Hi(f) > Hi(g) || (Hi(f) == Hi(g) && StrLe(f.category, g.category))))
  }

  function StartKey(f: Finding): int {
    if f.start.Some? then f.start.value else -1
  }

  /** Sort key (start or -1, category). */
  predicate FinalLe(f: Finding, g: Finding) {
    StartKey(f) < StartKey(g) || (StartKey(f) == StartKey(g) && StrLe(f.category, g.category))
  }

  predicate Overlaps(g: Span, f: Span) {
    g.category == f.category && Lo(f) < Hi(g) && Lo(g) < Hi(f)
  }

  /** The first position of `out` that overlaps `f`, or `|out|`. */
  function FirstOverlap(out: seq<Span>, f: Span): (i: nat)
    ensures i <= |out|
    ensures i < |out| ==> Overlaps(out[i], f)
    ensures forall j :: 0 <= j < i ==> !Overlaps(out[j], f)
  {
    if out == [] || Overlaps(out[0], f) then 0 else 1 + FirstOverlap(out[1..], f)
  }

  function MergeInto(out: seq<Span>, f: Span): seq<Span> {
    var i := FirstOverlap(out, f);
    if i < |out| then out[i := Combine(out[i], f)] else out + [f]
  }

  function MergeAll(s: seq<Span>): seq<Span> {
    if s == [] then [] else MergeInto(MergeAll(s[..|s| - 1]), s[|s| - 1])
  }

  /** Which output each sorted input ended up in. */
  ghost function Owners(s: seq<Span>): seq<nat> {
    if s == [] then [] else Owners(s[..|s| - 1]) + [FirstOverlap(MergeAll(s[..|s| - 1]), s[|s| - 1])]
  }

  /** The first position of `best` with category `c`, or `|best|`. */
  function CategoryIndex(best: seq<Finding>, c: string): (i: nat)
    ensures i <= |best|
    ensures i < |best| ==> best[i].category == c
    ensures forall j :: 0 <= j < i ==> best[j].category != c
  {
    if best == [] || best[0].category == c then 0 else 1 + CategoryIndex(best[1..], c)
  }

  function KeepBest(best: seq<Finding>, f: Finding): seq<Finding> {
    var i := CategoryIndex(best, f.category);
    if i == |best| then best + [f]
    else if f.score > best[i].score then best[i := f]
    else best
  }

  function BestWholes(s: seq<Finding>): seq<Finding> {
    if s == [] then [] else KeepBest(BestWholes(s[..|s| - 1]), s[|s| - 1])
  }

  function Merged(findings: seq<Finding>, threshold: real): seq<Finding> {
    var groups: seq<Finding> := MergeAll(Sort(SpansOf(findings, threshold), SweepLe));
    Sort(groups + BestWholes(WholesOf(findings, threshold)), FinalLe)
  }

  // ----- The function as written -----

  method MergeSpans(findings: seq<Finding>, threshold: real) returns (res: seq<Finding>)
    ensures res == Merged(findings, threshold)
  {
    var spanned := SpansOf(findings, threshold);
    var whole := WholesOf(findings, threshold);
    var best := CollectWholes(whole);
    var out: seq<Finding> := CollectSpans(Sort(spanned, SweepLe));
    res := Sort(out + best, FinalLe);
  }

  method CollectWholes(whole: seq<Finding>) returns (best: seq<Finding>)
    ensures best == BestWholes(whole)
  {
    best := [];
    for n := 0 to |whole|
      invariant best == BestWholes(whole[..n])
    {
      assert whole[..n + 1][..n] == whole[..n];
      var i := CategoryIndex(best, whole[n].category);
      if i == |best| {
        best := best + [whole[n]];
      } else if whole[n].score > best[i].score {
        best := best[i := whole[n]];
      }
    }
    assert whole[..|whole|] == whole;
  }

  method CollectSpans(spanned: seq<Span>) returns (out: seq<Span>)
    ensures out == MergeAll(spanned)
  {
    out := [];
    for n := 0 to |spanned|
      invariant out == MergeAll(spanned[..n])
    {
      assert spanned[..n + 1][..n] == spanned[..n];
      hide FirstOverlap;
      var f := spanned[n];
      var i := FindOverlap(out, f);
      if i < |out| {
        out := out[i := Combine(out[i], f)];
      } else {
        out := out + [f];
      }
    }
    assert spanned[..|spanned|] == spanned;
  }

  /** The inner loop, up to its break. */
  method FindOverlap(out: seq<Span>, f: Span) returns (i: nat)
    ensures i == FirstOverlap(out, f)
  {
    hide FirstOverlap;
    i := 0;
    while i < |out| && !(out[i].category == f.category && Lo(f) < Hi(out[i]) && Lo(out[i]) < Hi(f))
      invariant 0 <= i <= FirstOverlap(out, f)
    {
      i := i + 1;
    }
  }

  // ----- Orders -----

  lemma SweepOrder()
    ensures TotalPreorder(SweepLe)
  {
    forall f, g: Span ensures SweepLe(f, g) || SweepLe(g, f) {
      StrTotal(f.category, g.category);
    }
    forall f, g, h: Span | SweepLe(f, g) && SweepLe(g, h) ensures SweepLe(f, h) {
      if StrLe(f.category, g.category) && StrLe(g.category, h.category) {
        StrTransitive(f.category, g.category, h.category);
      }
    }
  }

  lemma FinalOrder()
    ensures TotalPreorder(FinalLe)
  {
    forall f, g ensures FinalLe(f, g) || FinalLe(g, f) {
      StrTotal(f.category, g.category);
    }
    forall f, g, h | FinalLe(f, g) && FinalLe(g, h) ensures FinalLe(f, h) {
      if StrLe(f.category, g.category) && StrLe(g.category, h.category) {
        StrTransitive(f.category, g.category, h.category);
      }
    }
  }

  // ----- Components -----

  /** No seam inside a group: wherever its extent is cut, some member lies across the cut. */
  ghost predicate Bridged(s: seq<Span>, owner: seq<nat>, k: nat, o: Span)
    requires |owner| == |s|
  {
    forall x :: Lo(o) < x < Hi(o) ==> Across(s, owner, k, x)
  }

  ghost predicate Across(s: seq<Span>, owner: seq<nat>, k: nat, x: int)
    requires |owner| == |s|
  {
    exists m :: 0 <= m < |s| && owner[m] == k && Lo(s[m]) < x < Hi(s[m])
  }

  /** Groups that start together stand in the order of their ends. */
  ghost predicate WiderFirst(out: seq<Span>) {
    forall k, l :: 0 <= k < l < |out| && out[k].category == out[l].category && Lo(out[k]) == Lo(out[l]) ==>
      Hi(out[k]) >= Hi(out[l])
  }

  /** What holds after each sorted span, whatever the spans. */
  ghost predicate Progress(s: seq<Span>, out: seq<Span>, owner: seq<nat>) {
    && GroupsOk(-1, s, out, owner)
    && Separated(-1, out)
    && WiderFirst(out)
    && forall k :: 0 <= k < |out| ==> Bridged(s, owner, k, out[k])
  }

  lemma {:induction false} MergeAllProgress(s: seq<Span>)
    requires SortedBy(s, SweepLe)
    ensures |Owners(s)| == |s| && Progress(s, MergeAll(s), Owners(s))
  {
    if s != [] {
      var n := |s| - 1;
      var init, f := s[..n], s[n];
      MergeAllProgress(init);
      assert s == init + [f];
      assert forall i :: 0 <= i < n ==> SweepLe(s[i], s[n]);
      MergeStep(init, MergeAll(init), Owners(init), f);
    }
  }

  lemma MergeStep(s: seq<Span>, out: seq<Span>, owner: seq<nat>, f: Span)
    requires Progress(s, out, owner) && forall i :: 0 <= i < |s| ==> SweepLe(s[i], f)
    ensures Progress(s + [f], MergeInto(out, f), owner + [FirstOverlap(out, f)])
  {
    hide Progress, SweepLe;
    var i := FirstOverlap(out, f);
    if i < |out| {
      MergeJoin(s, out, owner, f, i);
    } else {
      assert forall k :: 0 <= k < |out| ==> !Overlaps(out[k], f) && !Near(-1, out[k], f);
      MergeOpen(s, out, owner, f);
    }
  }

  lemma MergeOpen(s: seq<Span>, out: seq<Span>, owner: seq<nat>, f: Span)
    requires Progress(s, out, owner) && forall i :: 0 <= i < |s| ==> SweepLe(s[i], f)
    requires forall k :: 0 <= k < |out| ==> !Near(-1, out[k], f)
    ensures Progress(s + [f], out + [f], owner + [|out|])
  {
    assert |owner| == |s|;
    hide GroupsOk, Bridged, Separated, WiderFirst, SweepLe, Near;
    OpenGroup(-1, s, out, owner, f);
    OpenWider(s, out, owner, f);
    OpenBridged(s, out, owner, f);
  }

  lemma MergeJoin(s: seq<Span>, out: seq<Span>, owner: seq<nat>, f: Span, i: nat)
    requires Progress(s, out, owner) && forall i :: 0 <= i < |s| ==> SweepLe(s[i], f)
    requires i < |out| && Overlaps(out[i], f)
    ensures Progress(s + [f], out[i := Combine(out[i], f)], owner + [i])
  {
    hide Summary, Filled, Bridged, Separated, WiderFirst;
    assert Sweeps(s, f);
    forall k | 0 <= k < |out| && out[k].category == f.category ensures Lo(out[k]) <= Lo(f) {
      OutStarts(-1, s, out, owner, f, k);
    }
    hide GroupsOk, SweepLe, Sweeps;
    JoinGroup(-1, s, out, owner, f, i);
    JoinSeparated(-1, out, f, i);
    JoinWider(out, f, i);
    JoinBridged(s, out, owner, f, i);
  }

  /** Of the groups that start with f, each ends no earlier than f. */
  lemma StartTogether(s: seq<Span>, out: seq<Span>, owner: seq<nat>, f: Span, k: nat)
    requires GroupsOk(-1, s, out, owner) && forall i :: 0 <= i < |s| ==> SweepLe(s[i], f)
    requires k < |out| && Lo(out[k]) == Lo(f)
    ensures Hi(out[k]) >= Hi(f)
  {
    assert Summary(s, owner, k, out[k]);
    var i :| 0 <= i < |s| && owner[i] == k && Lo(s[i]) == Lo(out[k]);
    assert SweepLe(s[i], f);
  }

  lemma OpenWider(s: seq<Span>, out: seq<Span>, owner: seq<nat>, f: Span)
    requires GroupsOk(-1, s, out, owner) && WiderFirst(out) && Separated(-1, out)
    requires forall i :: 0 <= i < |s| ==> SweepLe(s[i], f)
    requires forall k :: 0 <= k < |out| ==> !Near(-1, out[k], f)
    ensures WiderFirst(out + [f]) && Separated(-1, out + [f])
  {
    forall k | 0 <= k < |out| && Lo(out[k]) == Lo(f) ensures Hi(out[k]) >= Hi(f) {
      StartTogether(s, out, owner, f, k);
    }
    hide GroupsOk;
  }

  lemma JoinWider(out: seq<Span>, f: Span, i: nat)
    requires WiderFirst(out) && Separated(-1, out)
    requires i < |out| && Near(-1, out[i], f) && Lo(out[i]) <= Lo(f)
    ensures WiderFirst(out[i := Combine(out[i], f)])
  {
    var out' := out[i := Combine(out[i], f)];
    forall k, l | 0 <= k < l < |out| && out'[k].category == out'[l].category && Lo(out'[k]) == Lo(out'[l])
      ensures Hi(out'[k]) >= Hi(out'[l])
    {
      assert Hi(out[k]) >= Hi(out[l]) && !Near(-1, out[k], out[l]);
    }
  }

  lemma StillAcross(s: seq<Span>, owner: seq<nat>, f: Span, n: nat, k: nat, o: Span)
    requires |owner| == |s| && Bridged(s, owner, k, o)
    ensures Bridged(s + [f], owner + [n], k, o)
  {
    var s', owner' := s + [f], owner + [n];
    forall x | Lo(o) < x < Hi(o) ensures Across(s', owner', k, x) {
      assert Across(s, owner, k, x);
      var m :| 0 <= m < |s| && owner[m] == k && Lo(s[m]) < x < Hi(s[m]);
      assert owner'[m] == k && Lo(s'[m]) < x < Hi(s'[m]);
    }
  }

  lemma OpenBridged(s: seq<Span>, out: seq<Span>, owner: seq<nat>, f: Span)
    requires |owner| == |s| && forall k :: 0 <= k < |out| ==> Bridged(s, owner, k, out[k])
    ensures forall k :: 0 <= k < |out + [f]| ==> Bridged(s + [f], owner + [|out|], k, (out + [f])[k])
  {
    var s', owner' := s + [f], owner + [|out|];
    forall k | 0 <= k <= |out| ensures Bridged(s', owner', k, (out + [f])[k]) {
      if k < |out| {
        StillAcross(s, owner, f, |out|, k, out[k]);
      } else {
        assert owner'[|s|] == k && s'[|s|] == f;
      }
    }
  }

  lemma JoinBridged(s: seq<Span>, out: seq<Span>, owner: seq<nat>, f: Span, i: nat)
    requires |owner| == |s| && forall k :: 0 <= k < |out| ==> Bridged(s, owner, k, out[k])
    requires i < |out| && Near(-1, out[i], f) && Lo(out[i]) <= Lo(f)
    ensures var out' := out[i := Combine(out[i], f)];
            forall k :: 0 <= k < |out'| ==> Bridged(s + [f], owner + [i], k, out'[k])
  {
    var s', owner', out' := s + [f], owner + [i], out[i := Combine(out[i], f)];
    forall k | 0 <= k < |out| ensures Bridged(s', owner', k, out'[k]) {
      StillAcross(s, owner, f, i, k, out[k]);
      if k == i {
        assert owner'[|s|] == k && s'[|s|] == f;
        forall x | Lo(out'[k]) < x < Hi(out'[k]) ensures Across(s', owner', k, x) {
          if x >= Hi(out[k]) {
            assert Lo(s'[|s|]) < x < Hi(s'[|s|]);
          }
        }
      }
    }
  }

  // ----- Which spans are merged without overlapping any -----

  /** Some span of the category lies across the cut at x. */
  ghost predicate Inside(s: seq<Span>, c: string, x: int) {
    exists m :: m in s && m.category == c && Lo(m) < x < Hi(m)
  }

  /** The span is empty or ends before it starts, and spans of its category lie across all the cuts
      between its end and its start. */
  ghost predicate Enclosed(s: seq<Span>, f: Span) {
    Hi(f) <= Lo(f) && forall x :: Hi(f) <= x <= Lo(f) ==> Inside(s, f.category, x)
  }

  ghost predicate Overlapped(s: seq<Span>, f: Span) {
    exists m :: m in s && Near(-1, m, f)
  }

  /** Whatever is enclosed by spans together is overlapped by one of them. */
  ghost predicate NoneStranded(s: seq<Span>) {
    forall f :: f in s && Enclosed(s, f) ==> Overlapped(s, f)
  }

  /** Only spans sorted earlier matter to a span, so the condition holds of every prefix. */
  lemma PrefixNoneStranded(s: seq<Span>, n: nat)
    requires SortedBy(s, SweepLe) && NoneStranded(s) && n <= |s|
    ensures NoneStranded(s[..n])
  {
    forall f | f in s[..n] && Enclosed(s[..n], f) ensures Overlapped(s[..n], f) {
      EnclosedByMore(s, n, f);
      assert Overlapped(s, f);
      OverlappedEarlier(s, n, f);
    }
  }

  lemma EnclosedByMore(s: seq<Span>, n: nat, f: Span)
    requires n <= |s| && Enclosed(s[..n], f)
    ensures Enclosed(s, f)
  {
    forall x | Hi(f) <= x <= Lo(f) ensures Inside(s, f.category, x) {
      assert Inside(s[..n], f.category, x);
    }
  }

  lemma OverlappedEarlier(s: seq<Span>, n: nat, f: Span)
    requires SortedBy(s, SweepLe) && n <= |s| && f in s[..n] && Hi(f) <= Lo(f) && Overlapped(s, f)
    ensures Overlapped(s[..n], f)
  {
    var m :| m in s && Near(-1, m, f);
    var i :| 0 <= i < |s| && s[i] == m;
    var j :| 0 <= j < n && s[j] == f;
    EarlierStarts(s, j, i);
    assert s[..n][i] == m;
  }

  lemma EarlierStarts(s: seq<Span>, j: nat, i: nat)
    requires SortedBy(s, SweepLe) && j < |s| && i < |s| && Lo(s[i]) < Lo(s[j])
    ensures i < j
  {
    assert j < i ==> SweepLe(s[j], s[i]);
  }

  /** A group is joined only through one of its members. */
  lemma MergeContact(s: seq<Span>, out: seq<Span>, owner: seq<nat>, f: Span, i: nat)
    requires Progress(s, out, owner) && Sweeps(s, f) && NoneStranded(s + [f])
    requires i < |out| && Near(-1, out[i], f)
    ensures Contact(-1, s, owner, i, f)
  {
    assert Summary(s, owner, i, out[i]);
    if Lo(f) < Hi(f) {
      var m :| 0 <= m < |s| && owner[m] == i && Hi(s[m]) == Hi(out[i]);
      assert Near(-1, s[m], f);
    } else {
      EnclosedByGroup(s, out, owner, f, i);
      var m :| m in s + [f] && Near(-1, m, f);
      var j :| 0 <= j < |s| && s[j] == m;
      assert Summary(s, owner, owner[j], out[owner[j]]);
      SeparatedPair(out, owner[j], i);
    }
  }

  lemma EnclosedByGroup(s: seq<Span>, out: seq<Span>, owner: seq<nat>, f: Span, i: nat)
    requires Progress(s, out, owner) && i < |out| && Near(-1, out[i], f) && Hi(f) <= Lo(f)
    ensures Enclosed(s + [f], f)
  {
    assert Bridged(s, owner, i, out[i]) && Summary(s, owner, i, out[i]);
    forall x | Hi(f) <= x <= Lo(f) ensures Inside(s + [f], f.category, x) {
      assert Across(s, owner, i, x);
      var m :| 0 <= m < |s| && owner[m] == i && Lo(s[m]) < x < Hi(s[m]);
      assert s[m] in s + [f];
    }
  }

  lemma {:induction false} MergeAllLinked(s: seq<Span>)
    requires SortedBy(s, SweepLe) && NoneStranded(s)
    ensures SameGroupLinked(-1, s, Owners(s))
  {
    if s != [] {
      var n := |s| - 1;
      var init, f := s[..n], s[n];
      assert s == init + [f];
      PrefixNoneStranded(s, n);
      MergeAllLinked(init);
      MergeAllProgress(init);
      assert Sweeps(init, f) by {
        assert forall j :: 0 <= j < n ==> SweepLe(s[j], s[n]);
      }
      assert Owners(s) == Owners(init) + [FirstOverlap(MergeAll(init), f)];
      hide *;
      LinkStep(init, MergeAll(init), Owners(init), f);
    }
  }

  lemma LinkStep(s: seq<Span>, out: seq<Span>, owner: seq<nat>, f: Span)
    requires Progress(s, out, owner) && SameGroupLinked(-1, s, owner) && Sweeps(s, f) && NoneStranded(s + [f])
    ensures SameGroupLinked(-1, s + [f], owner + [FirstOverlap(out, f)])
  {
    var i := FirstOverlap(out, f);
    hide Separated, WiderFirst, SameGroupLinked, Sweeps, Summary, Filled, Bridged, NoneStranded;
    if i < |out| {
      MergeContact(s, out, owner, f, i);
      JoinLinked(-1, s, owner, f, i);
    } else {
      OpenLinked(-1, s, owner, f, i);
    }
  }

  /** Spans across neighbouring cuts overlap, so one hull lies across all of a closed run of cuts. */
  lemma {:induction false} HullAcross(s: seq<Span>, out: seq<Span>, owner: seq<nat>, c: string, a: int, b: int)
      returns (m: nat)
    requires GroupsOk(-1, s, out, owner) && Separated(-1, out)
    requires a <= b && forall x :: a <= x <= b ==> Inside(s, c, x)
    ensures m < |s| && s[m].category == c && Lo(s[m]) < a < Hi(s[m])
    ensures owner[m] < |out| && Summary(s, owner, owner[m], out[owner[m]]) && b < Hi(out[owner[m]])
    decreases b - a
  {
    assert Inside(s, c, b);
    var top :| top in s && top.category == c && Lo(top) < b < Hi(top);
    var t :| 0 <= t < |s| && s[t] == top;
    assert Summary(s, owner, owner[t], out[owner[t]]);
    if a == b {
      m := t;
    } else {
      m := HullAcross(s, out, owner, c, a, b - 1);
      SeparatedPair(out, owner[m], owner[t]);
    }
  }

  /** In a grouping nothing is stranded: what is enclosed shares its group, hence a chain. */
  lemma GroupedNotStranded(s: seq<Span>, out: seq<Span>, owner: seq<nat>, f: Span)
    requires IsGrouping(-1, s, out, owner) && f in s && Enclosed(s, f)
    ensures Overlapped(s, f)
  {
    var j :| 0 <= j < |s| && s[j] == f;
    var m := HullAcross(s, out, owner, f.category, Hi(f), Lo(f));
    assert Summary(s, owner, owner[j], out[owner[j]]);
    SeparatedPair(out, owner[m], owner[j]);
    ChainStarts(s, j, m);
  }

  lemma ChainStarts(s: seq<Span>, j: nat, m: nat)
    requires j < |s| && m < |s| && s[j] != s[m] && Linked(-1, s, j, m)
    ensures Overlapped(s, s[j])
  {
    var path :| IsPath(-1, s, path) && path[0] == j && path[|path| - 1] == m;
    assert |path| > 1;
    assert Near(-1, s[path[0]], s[path[0 + 1]]) && s[path[1]] in s;
  }

  predicate DistinctCategories(s: seq<Finding>) {
    forall i, j :: 0 <= i < j < |s| ==> s[i].category != s[j].category
  }

  ghost predicate Outdone(best: seq<Finding>, f: Finding) {
    exists b :: b in best && b.category == f.category && b.score >= f.score
  }

  /** Distinct categories, and for each the first finding to reach its best score. */
  ghost predicate IsBestPerCategory(s: seq<Finding>, best: seq<Finding>) {
    && DistinctCategories(best)
    && (forall f :: f in s ==> Outdone(best, f))
    && (forall b :: b in best ==> FirstBest(s, b))
  }

  ghost predicate FirstBestAt(s: seq<Finding>, b: Finding, i: int) {
    && 0 <= i < |s| && s[i] == b
    && (forall j :: 0 <= j < |s| && s[j].category == b.category ==> s[j].score <= b.score)
    && (forall j :: 0 <= j < i && s[j].category == b.category ==> s[j].score < b.score)
  }

  ghost predicate FirstBest(s: seq<Finding>, b: Finding) {
    exists i :: FirstBestAt(s, b, i)
  }

  lemma {:induction false} BestWholesCorrect(s: seq<Finding>)
    ensures IsBestPerCategory(s, BestWholes(s))
  {
    if s != [] {
      var n := |s| - 1;
      BestWholesCorrect(s[..n]);
      assert s == s[..n] + [s[n]];
      KeepBestStep(s[..n], BestWholes(s[..n]), s[n]);
    }
  }

  lemma AtIndex(best: seq<Finding>, b: Finding)
    requires DistinctCategories(best) && b in best
    ensures CategoryIndex(best, b.category) < |best| && best[CategoryIndex(best, b.category)] == b
  {
    var k :| 0 <= k < |best| && best[k] == b;
  }

  lemma KeepBestStep(s: seq<Finding>, best: seq<Finding>, f: Finding)
    requires IsBestPerCategory(s, best)
    ensures IsBestPerCategory(s + [f], KeepBest(best, f))
  {
    hide FirstBest;
    var after := KeepBest(best, f);
    var i := CategoryIndex(best, f.category);
    forall k | 0 <= k < |after| ensures FirstBest(s + [f], after[k]) {
      if after[k] == f && (i == |best| || f.score > best[i].score) {
        NewBest(s, best, f);
      } else {
        assert best[k] in best;
        StillBest(s, best[k], f);
      }
    }
    forall g | g in s + [f] ensures Outdone(after, g) {
      if g in s {
        var b :| b in best && b.category == g.category && b.score >= g.score;
        AtIndex(best, b);
      }
      assert after[CategoryIndex(best, g.category)] in after;
    }
  }

  lemma StillBest(s: seq<Finding>, b: Finding, f: Finding)
    requires FirstBest(s, b) && (f.category == b.category ==> f.score <= b.score)
    ensures FirstBest(s + [f], b)
  {
    var m :| FirstBestAt(s, b, m);
    assert FirstBestAt(s + [f], b, m);
  }

  lemma NewBest(s: seq<Finding>, best: seq<Finding>, f: Finding)
    requires IsBestPerCategory(s, best)
    requires var i := CategoryIndex(best, f.category); i == |best| || f.score > best[i].score
    ensures FirstBest(s + [f], f)
  {
    forall j | 0 <= j < |s| && s[j].category == f.category ensures s[j].score < f.score {
      NewBeats(s, best, f, s[j]);
    }
    hide *;
    LastIsBest(s, f);
  }

  lemma LastIsBest(s: seq<Finding>, f: Finding)
    requires forall j :: 0 <= j < |s| && s[j].category == f.category ==> s[j].score < f.score
    ensures FirstBest(s + [f], f)
  {
    assert FirstBestAt(s + [f], f, |s|);
  }

  lemma NewBeats(s: seq<Finding>, best: seq<Finding>, f: Finding, g: Finding)
    requires IsBestPerCategory(s, best) && g in s && g.category == f.category
    requires var i := CategoryIndex(best, f.category); i == |best| || f.score > best[i].score
    ensures g.score < f.score
  {
    hide FirstBest, CategoryIndex;
    assert Outdone(best, g);
    var b :| b in best && b.category == g.category && b.score >= g.score;
    AtIndex(best, b);
  }

  lemma {:induction false} SpansOfMembers(findings: seq<Finding>, threshold: real)
    ensures forall f :: f in SpansOf(findings, threshold) <==> f in findings && f.score >= threshold && f.Spanned()
    ensures forall f :: f in WholesOf(findings, threshold) <==> f in findings && f.score >= threshold && !f.Spanned()
  {
    if findings != [] {
      SpansOfMembers(findings[1..], threshold);
      assert findings == [findings[0]] + findings[1..];
    }
  }

  /** The result, whatever the spans: separated hulls without gaps, one whole-unit finding per
      category, in order. The hulls are one per connected component of same-category overlap among
      the spans at or above the threshold exactly when none of these is stranded. */
  lemma MergeSpansCorrect(findings: seq<Finding>, threshold: real)
      returns (order: seq<Span>, groups: seq<Span>, owner: seq<nat>, best: seq<Finding>)
    ensures multiset(order) == multiset(SpansOf(findings, threshold))
    ensures GroupsOk(-1, order, groups, owner) && Separated(-1, groups) && WiderFirst(groups)
    ensures IsGrouping(-1, order, groups, owner) <==> NoneStranded(SpansOf(findings, threshold))
    ensures IsBestPerCategory(WholesOf(findings, threshold), best)
    ensures multiset(Merged(findings, threshold)) == multiset(groups) + multiset(best)
    ensures SortedBy(Merged(findings, threshold), Refined(FinalLe, SweepThenWholes))
  {
    var spans := SpansOf(findings, threshold);
    order := Sort(spans, SweepLe);
    groups, owner := MergeAll(order), Owners(order);
    best := BestWholes(WholesOf(findings, threshold));
    SweepOrder();
    SortSorted(spans, SweepLe);
    SortPermutes(spans, SweepLe);
    MergeAllProgress(order);
    BestWholesCorrect(WholesOf(findings, threshold));
    FinallySorted(findings, threshold, groups, best);
    ComponentsExactly(spans, order);
  }

  lemma ComponentsExactly(spans: seq<Span>, order: seq<Span>)
    requires multiset(order) == multiset(spans) && SortedBy(order, SweepLe)
    ensures IsGrouping(-1, order, MergeAll(order), Owners(order)) <==> NoneStranded(spans)
  {
    var groups, owner := MergeAll(order), Owners(order);
    MergeAllProgress(order);
    SameStranded(spans, order);
    hide GroupsOk, Separated, WiderFirst, Bridged, SortedBy, IsGrouping, SameGroupLinked;
    if NoneStranded(order) {
      MergeAllLinked(order);
      GroupsAreComponents(-1, order, groups, owner);
    }
    if IsGrouping(-1, order, groups, owner) {
      forall f | f in order && Enclosed(order, f) ensures Overlapped(order, f) {
        GroupedNotStranded(order, groups, owner, f);
      }
    }
  }

  lemma SameStranded(a: seq<Span>, b: seq<Span>)
    requires multiset(a) == multiset(b)
    ensures NoneStranded(a) <==> NoneStranded(b)
  {
    SameMembers(a, b);
    forall f ensures Enclosed(a, f) <==> Enclosed(b, f) {
      assert forall x :: Inside(a, f.category, x) <==> Inside(b, f.category, x);
    }
    assert forall f :: Overlapped(a, f) <==> Overlapped(b, f);
  }

  /** Spans in sweep order, then the whole-unit findings. */
  predicate SweepThenWholes(f: Finding, g: Finding) {
    if f.Spanned() then g.Spanned() ==> SweepLe(f, g) else !g.Spanned()
  }

  lemma FinallySorted(findings: seq<Finding>, threshold: real, groups: seq<Span>, best: seq<Finding>)
    requires WiderFirst(groups) && groups == MergeAll(Sort(SpansOf(findings, threshold), SweepLe))
    requires best == BestWholes(WholesOf(findings, threshold))
    ensures multiset(Merged(findings, threshold)) == multiset(groups) + multiset(best)
    ensures SortedBy(Merged(findings, threshold), Refined(FinalLe, SweepThenWholes))
  {
    var g: seq<Finding> := groups;
    var all: seq<Finding> := g + best;
    WholesUnspanned(findings, threshold);
    FinalOrder();
    SortPermutes(all, FinalLe);
    forall i, j | 0 <= i < j < |all| && FinalLe(all[i], all[j]) && FinalLe(all[j], all[i])
      ensures SweepThenWholes(all[i], all[j])
    {
      StrAntisymmetric(all[i].category, all[j].category);
      StrTotal(all[i].category, all[i].category);
      if j < |groups| {
        assert Hi(groups[i]) >= Hi(groups[j]);
      } else {
        assert all[j] in best;
      }
    }
    SortStable(all, FinalLe, SweepThenWholes);
  }

  lemma WholesUnspanned(findings: seq<Finding>, threshold: real)
    ensures forall b :: b in BestWholes(WholesOf(findings, threshold)) ==> !b.Spanned()
  {
    var best := BestWholes(WholesOf(findings, threshold));
    SpansOfMembers(findings, threshold);
    BestWholesCorrect(WholesOf(findings, threshold));
    forall b | b in best ensures !b.Spanned() {
      assert FirstBest(WholesOf(findings, threshold), b);
    }
  }

  // ----- Selection and order -----

  function LoudSpan(threshold: real): Finding -> bool {
    (f: Finding) => f.score >= threshold && f.Spanned()
  }

  function LoudWhole(threshold: real): Finding -> bool {
    (f: Finding) => f.score >= threshold && !f.Spanned()
  }

  /** The two selections lose nothing, take nothing else and keep the order. */
  lemma {:induction false} SelectsLoud(findings: seq<Finding>, threshold: real) returns (at: seq<nat>, rest: seq<nat>)
    ensures Selects(findings, LoudSpan(threshold), SpansOf(findings, threshold), at)
    ensures Selects(findings, LoudWhole(threshold), WholesOf(findings, threshold), rest)
  {
    hide Selects;
    at, rest := [], [];
    if findings == [] {
      SelectsNothing(LoudSpan(threshold));
      SelectsNothing(LoudWhole(threshold));
    } else {
      at, rest := SelectsLoud(findings[1..], threshold);
      at := SelectsCons(findings, LoudSpan(threshold), SpansOf(findings[1..], threshold), at);
      rest := SelectsCons(findings, LoudWhole(threshold), WholesOf(findings[1..], threshold), rest);
    }
  }

  /** Where the sort of the result puts a finding: a start that is missing counts as -1. */
  predicate NoLaterThan(f: Finding, g: Finding) {
    var x, y := if f.start.None? then -1 else f.start.value, if g.start.None? then -1 else g.start.value;
    x < y || (x == y && StrLe(f.category, g.category))
  }

  /** The result stands by start, then category, and spans that tie in both by their ends, the wider first. */
  lemma MergedInOrder(findings: seq<Finding>, threshold: real, i: nat, j: nat)
    requires i < j < |Merged(findings, threshold)|
    ensures var f, g := Merged(findings, threshold)[i], Merged(findings, threshold)[j];
            && NoLaterThan(f, g)
            && (f.Spanned() && g.Spanned() && f.start == g.start && f.category == g.category ==> Hi(f) >= Hi(g))
  {
    hide *;
    var order, groups, owner, best := MergeSpansCorrect(findings, threshold);
    SortedPair(Merged(findings, threshold), Refined(FinalLe, SweepThenWholes), i, j);
    FinalMeans(Merged(findings, threshold)[i], Merged(findings, threshold)[j]);
  }

  lemma FinalMeans(f: Finding, g: Finding)
    requires Refined(FinalLe, SweepThenWholes)(f, g)
    ensures NoLaterThan(f, g)
    ensures f.Spanned() && g.Spanned() && f.start == g.start && f.category == g.category ==> Hi(f) >= Hi(g)
  {
    RefinedIs(FinalLe, SweepThenWholes, f, g);
    assert FinalLe(f, g) && (FinalLe(g, f) ==> SweepThenWholes(f, g));
    StrTotal(f.category, f.category);
  }

  predicate Covers(f: Finding, c: string, p: int) {
    f.Spanned() && f.category == c && Lo(f) <= p < Hi(f)
  }

  ghost predicate AtMostOneCovers(s: seq<Finding>, c: string, p: int) {
    forall o, o' :: o in s && o' in s && Covers(o, c, p) && Covers(o', c, p) ==> o == o'
  }

  /** No position is gained or lost, and none is reported twice in a category. */
  lemma MergedPositions(findings: seq<Finding>, threshold: real, c: string, p: int)
    ensures (exists o :: o in Merged(findings, threshold) && Covers(o, c, p)) <==>
            (exists f :: f in findings && f.score >= threshold && Covers(f, c, p))
    ensures AtMostOneCovers(Merged(findings, threshold), c, p)
  {
    var order, groups, owner, best := MergeSpansCorrect(findings, threshold);
    hide Merged, NoneStranded, IsBestPerCategory, FinalLe, SortedBy;
    SpansOfMembers(findings, threshold);
    SameMembers(order, SpansOf(findings, threshold));
    MergedMembers(findings, threshold, groups, best);
    hide SpansOf, WholesOf;
    GroupedCoverage(order, groups, owner, c, p);
    GroupedDisjoint(groups, c, p);
    hide *;
    if f :| f in findings && f.score >= threshold && Covers(f, c, p) {
      assert f in order;
    }
  }

  lemma GroupedCoverage(order: seq<Span>, groups: seq<Span>, owner: seq<nat>, c: string, p: int)
    requires GroupsOk(-1, order, groups, owner)
    ensures (exists o :: o in groups && Covers(o, c, p)) <==> (exists f :: f in order && Covers(f, c, p))
  {
    hide GroupsOk, Covers;
    if o :| o in groups && Covers(o, c, p) {
      var k :| 0 <= k < |groups| && groups[k] == o;
      GroupCoversOnly(order, groups, owner, c, p, k);
    }
    if f :| f in order && Covers(f, c, p) {
      var i :| 0 <= i < |order| && order[i] == f;
      GroupCoversMember(order, groups, owner, c, p, i);
    }
  }

  lemma GroupCoversOnly(order: seq<Span>, groups: seq<Span>, owner: seq<nat>, c: string, p: int, k: nat)
    requires GroupsOk(-1, order, groups, owner) && k < |groups| && Covers(groups[k], c, p)
    ensures exists f :: f in order && Covers(f, c, p)
  {
    assert Filled(-1, order, owner, k, p) && Summary(order, owner, k, groups[k]);
    var i :| 0 <= i < |order| && owner[i] == k && Lo(order[i]) <= p < Hi(order[i]);
    assert order[i] in order && Covers(order[i], c, p);
  }

  lemma GroupCoversMember(order: seq<Span>, groups: seq<Span>, owner: seq<nat>, c: string, p: int, i: nat)
    requires GroupsOk(-1, order, groups, owner) && i < |order| && Covers(order[i], c, p)
    ensures exists o :: o in groups && Covers(o, c, p)
  {
    hide Filled;
    assert Summary(order, owner, owner[i], groups[owner[i]]);
    assert groups[owner[i]] in groups && Covers(groups[owner[i]], c, p);
  }

  lemma SeparatedPair(groups: seq<Span>, k: nat, l: nat)
    requires Separated(-1, groups) && k < |groups| && l < |groups|
    ensures k == l || !Near(-1, groups[k], groups[l])
  {
    assert l < k ==> !Near(-1, groups[l], groups[k]);
  }

  lemma GroupedDisjoint(groups: seq<Span>, c: string, p: int)
    requires Separated(-1, groups)
    ensures AtMostOneCovers(groups, c, p)
  {
    forall o, o' | o in groups && o' in groups && Covers(o, c, p) && Covers(o', c, p) ensures o == o' {
      var k :| 0 <= k < |groups| && groups[k] == o;
      var l :| 0 <= l < |groups| && groups[l] == o';
      SeparatedPair(groups, k, l);
    }
  }

  lemma MergedMembers(findings: seq<Finding>, threshold: real, groups: seq<Span>, best: seq<Finding>)
    requires multiset(Merged(findings, threshold)) == multiset(groups) + multiset(best)
    requires IsBestPerCategory(WholesOf(findings, threshold), best)
    ensures forall o :: o in Merged(findings, threshold) && o.Spanned() <==> o in groups
    ensures forall o :: o in Merged(findings, threshold) && !o.Spanned() <==> o in best
  {
    SpansOfMembers(findings, threshold);
    var out := Merged(findings, threshold);
    forall o ensures o in out <==> o in groups || o in best {
      assert o in out <==> o in multiset(out);
    }
    forall b | b in best ensures !b.Spanned() {
      assert FirstBest(WholesOf(findings, threshold), b);
    }
  }

  // ----- Idempotence -----

  lemma {:induction false} MergeSeparated(s: seq<Span>)
    requires Separated(-1, s)
    ensures MergeAll(s) == s
  {
    if s != [] {
      var n := |s| - 1;
      assert Separated(-1, s[..n]);
      MergeSeparated(s[..n]);
      var i := FirstOverlap(s[..n], s[n]);
      assert i < n ==> Near(-1, s[i], s[n]);
    }
  }

  lemma {:induction false} WholesDistinct(s: seq<Finding>)
    requires DistinctCategories(s)
    ensures BestWholes(s) == s
  {
    if s != [] {
      var n := |s| - 1;
      WholesDistinct(s[..n]);
      assert CategoryIndex(s[..n], s[n].category) == n;
      assert s == s[..n] + [s[n]];
    }
  }

  /** Selection commutes with reordering. */
  lemma {:induction false} SelectionCounts(s: seq<Finding>, threshold: real, f: Finding)
    ensures f.Spanned() ==> multiset(SpansOf(s, threshold))[f] == if f.score >= threshold then multiset(s)[f] else 0
    ensures multiset(WholesOf(s, threshold))[f] == if f.score >= threshold && !f.Spanned() then multiset(s)[f] else 0
  {
    if s != [] {
      assert s == [s[0]] + s[1..];
      SelectionCounts(s[1..], threshold, f);
    }
  }

  /** Applied to a result, the two selections recover its groups and its whole-unit findings. */
  lemma Reselect(out: seq<Finding>, threshold: real, groups: seq<Span>, best: seq<Finding>)
    requires multiset(out) == multiset(groups) + multiset(best)
    requires forall o :: o in out ==> o.score >= threshold
    requires forall b :: b in best ==> !b.Spanned()
    ensures multiset(SpansOf(out, threshold)) == multiset(groups)
    ensures multiset(WholesOf(out, threshold)) == multiset(best)
  {
    forall f: Span ensures multiset(SpansOf(out, threshold))[f] == multiset(groups)[f] {
      ReselectSpan(out, threshold, groups, best, f);
    }
    forall f: Finding ensures multiset(WholesOf(out, threshold))[f] == multiset(best)[f] {
      ReselectWhole(out, threshold, groups, best, f);
    }
  }

  lemma ReselectSpan(out: seq<Finding>, threshold: real, groups: seq<Span>, best: seq<Finding>, f: Span)
    requires multiset(out) == multiset(groups) + multiset(best)
    requires forall o :: o in out ==> o.score >= threshold
    requires forall b :: b in best ==> !b.Spanned()
    ensures multiset(SpansOf(out, threshold))[f] == multiset(groups)[f]
  {
    assert f in multiset(out) ==> f in out;
    SelectionCounts(out, threshold, f);
    assert f !in best;
  }

  lemma ReselectWhole(out: seq<Finding>, threshold: real, groups: seq<Span>, best: seq<Finding>, f: Finding)
    requires multiset(out) == multiset(groups) + multiset(best)
    requires forall o :: o in out ==> o.score >= threshold
    requires forall b :: b in best ==> !b.Spanned()
    ensures multiset(WholesOf(out, threshold))[f] == multiset(best)[f]
  {
    assert f in multiset(out) ==> f in out;
    SelectionCounts(out, threshold, f);
    assert f.Spanned() ==> f !in best;
  }

  lemma SeparatedPermuted(a: seq<Span>, b: seq<Span>)
    requires multiset(a) == multiset(b) && Separated(-1, a)
    ensures Separated(-1, b)
  {
    SameMembers(a, b);
    forall i, j | 0 <= i < j < |b| ensures !Near(-1, b[i], b[j]) {
      if b[i] == b[j] {
        CountTwice(b, i, j);
        var k, l := TwoPlaces(a, b[i]);
        assert !Near(-1, a[k], a[l]);
      } else {
        assert b[i] in a && b[j] in a;
        var k :| 0 <= k < |a| && a[k] == b[i];
        var l :| 0 <= l < |a| && a[l] == b[j];
        assert if k < l then !Near(-1, a[k], a[l]) else !Near(-1, a[l], a[k]);
      }
    }
  }

  lemma CategoriesPermuted(a: seq<Finding>, b: seq<Finding>)
    requires multiset(a) == multiset(b) && DistinctCategories(a)
    ensures DistinctCategories(b)
  {
    DistinctPermuted(a, b);
    SameMembers(a, b);
    forall i, j | 0 <= i < j < |b| ensures b[i].category != b[j].category {
      assert b[i] in a && b[j] in a;
      var k :| 0 <= k < |a| && a[k] == b[i];
      var l :| 0 <= l < |a| && a[l] == b[j];
    }
  }

  lemma SweepThenWholesOrder()
    ensures TotalPreorder(SweepThenWholes)
  {
    SweepOrder();
    forall f, g ensures SweepThenWholes(f, g) || SweepThenWholes(g, f) {
      if f.Spanned() && g.Spanned() {
        assert SweepLe(f, g) || SweepLe(g, f);
      }
    }
    forall f, g, h | SweepThenWholes(f, g) && SweepThenWholes(g, h) ensures SweepThenWholes(f, h) {
      if f.Spanned() && g.Spanned() && h.Spanned() {
        assert SweepLe(f, g) && SweepLe(g, h);
      }
    }
  }

  lemma {:induction false} InsertSpan(f: Span, spans: seq<Span>, wholes: seq<Finding>)
    requires forall w :: w in wholes ==> !w.Spanned()
    ensures var s: seq<Finding> := spans; var t: seq<Finding> := Insert(f, spans, SweepLe);
            Insert(f, s + wholes, SweepThenWholes) == t + wholes
  {
    var s: seq<Finding> := spans;
    if spans == [] {
      assert wholes != [] ==> wholes[0] in wholes;
      assert s + wholes == wholes;
    } else if !SweepLe(f, spans[0]) {
      InsertSpan(f, spans[1..], wholes);
      assert (s + wholes)[1..] == s[1..] + wholes;
    }
  }

  lemma {:induction false} InsertWhole(w: Finding, spans: seq<Span>, wholes: seq<Finding>)
    requires !w.Spanned() && forall v :: v in wholes ==> !v.Spanned()
    ensures var s: seq<Finding> := spans; Insert(w, s + wholes, SweepThenWholes) == s + [w] + wholes
  {
    var s: seq<Finding> := spans;
    if spans == [] {
      assert wholes != [] ==> wholes[0] in wholes;
      assert s + wholes == wholes && s + [w] + wholes == [w] + wholes;
    } else {
      InsertWhole(w, spans[1..], wholes);
      assert (s + wholes)[1..] == s[1..] + wholes;
      assert s + [w] + wholes == [s[0]] + (s[1..] + [w] + wholes);
    }
  }

  /** Selecting and sorting the spans amounts to one sort of everything. */
  lemma {:induction false} SelectIsSort(out: seq<Finding>, threshold: real)
    requires forall o :: o in out ==> o.score >= threshold
    ensures var t: seq<Finding> := Sort(SpansOf(out, threshold), SweepLe);
            Sort(out, SweepThenWholes) == t + WholesOf(out, threshold)
  {
    if out != [] {
      var rest := out[1..];
      assert out[0] in out && forall o :: o in rest ==> o in out;
      SelectIsSort(rest, threshold);
      hide *;
      SelectHead(out, threshold);
      SortHead(out, SweepThenWholes);
      var spans, wholes := SpansOf(rest, threshold), WholesOf(rest, threshold);
      if out[0].Spanned() {
        SortedWithSpan(out[0], spans, wholes);
      } else {
        SortedWithWhole(out[0], spans, wholes);
      }
    }
  }

  lemma SortHead<T>(s: seq<T>, le: (T, T) -> bool)
    requires s != []
    ensures Sort(s, le) == Insert(s[0], Sort(s[1..], le), le)
  {
  }

  lemma SortedWithWhole(w: Finding, spans: seq<Span>, wholes: seq<Finding>)
    requires !w.Spanned() && forall v :: v in wholes ==> !v.Spanned()
    ensures var t: seq<Finding> := Sort(spans, SweepLe);
            Insert(w, t + wholes, SweepThenWholes) == t + ([w] + wholes)
  {
    hide *;
    InsertWhole(w, Sort(spans, SweepLe), wholes);
    var t: seq<Finding> := Sort(spans, SweepLe);
    assert t + [w] + wholes == t + ([w] + wholes);
  }

  lemma SortedWithSpan(f: Span, spans: seq<Span>, wholes: seq<Finding>)
    requires forall w :: w in wholes ==> !w.Spanned()
    ensures var t: seq<Finding> := Sort(spans, SweepLe); var t': seq<Finding> := Sort([f] + spans, SweepLe);
            Insert(f, t + wholes, SweepThenWholes) == t' + wholes
  {
    InsertSpan(f, Sort(spans, SweepLe), wholes);
    assert ([f] + spans)[1..] == spans;
    hide Insert;
  }

  lemma SelectHead(out: seq<Finding>, threshold: real)
    requires out != [] && out[0].score >= threshold
    ensures forall w :: w in WholesOf(out[1..], threshold) ==> !w.Spanned()
    ensures if out[0].Spanned() then
              var f: Span := out[0];
              && SpansOf(out, threshold) == [f] + SpansOf(out[1..], threshold)
              && WholesOf(out, threshold) == WholesOf(out[1..], threshold)
            else
              && SpansOf(out, threshold) == SpansOf(out[1..], threshold)
              && WholesOf(out, threshold) == [out[0]] + WholesOf(out[1..], threshold)
  {
    SpansOfMembers(out[1..], threshold);
  }

  lemma MergedScores(findings: seq<Finding>, threshold: real, o: Finding)
    requires o in Merged(findings, threshold)
    ensures o.score >= threshold
  {
    var order, groups, owner, best := MergeSpansCorrect(findings, threshold);
    hide Separated, WiderFirst, SortedBy, NoneStranded, IsGrouping, Merged;
    SpansOfMembers(findings, threshold);
    SameMembers(order, SpansOf(findings, threshold));
    assert o in multiset(Merged(findings, threshold));
    if o in groups {
      var k :| 0 <= k < |groups| && groups[k] == o;
      assert Summary(order, owner, k, groups[k]);
      var i :| 0 <= i < |order| && owner[i] == k && Lo(order[i]) == Lo(groups[k]);
      assert order[i] in order;
    } else {
      assert o in best && FirstBest(WholesOf(findings, threshold), o);
    }
  }

  /** Merging again changes nothing, not even the order, whatever the spans. */
  lemma MergeIdempotent(findings: seq<Finding>, threshold: real)
    ensures Merged(Merged(findings, threshold), threshold) == Merged(findings, threshold)
  {
    var out := Merged(findings, threshold);
    var order, groups, owner, best := MergeSpansCorrect(findings, threshold);
    forall o | o in out ensures o.score >= threshold {
      MergedScores(findings, threshold, o);
    }
    WholesOfBest(findings, threshold, best);
    hide Merged, IsGrouping, IsBestPerCategory, GroupsOk, NoneStranded;
    Reselect(out, threshold, groups, best);
    SecondPass(out, threshold, groups, best);
  }

  lemma WholesOfBest(findings: seq<Finding>, threshold: real, best: seq<Finding>)
    requires IsBestPerCategory(WholesOf(findings, threshold), best)
    ensures DistinctCategories(best) && forall b :: b in best ==> !b.Spanned()
  {
    SpansOfMembers(findings, threshold);
    forall b | b in best ensures !b.Spanned() {
      assert FirstBest(WholesOf(findings, threshold), b);
    }
  }

  /** A second pass finds nothing to merge, and its two sorts undo each other. */
  lemma SecondPass(out: seq<Finding>, threshold: real, groups: seq<Span>, best: seq<Finding>)
    requires multiset(SpansOf(out, threshold)) == multiset(groups) && Separated(-1, groups)
    requires multiset(WholesOf(out, threshold)) == multiset(best) && DistinctCategories(best)
    requires forall o :: o in out ==> o.score >= threshold
    requires SortedBy(out, Refined(FinalLe, SweepThenWholes))
    ensures Merged(out, threshold) == out
  {
    var spans, wholes := SpansOf(out, threshold), WholesOf(out, threshold);
    SortPermutes(spans, SweepLe);
    SeparatedPermuted(groups, Sort(spans, SweepLe));
    MergeSeparated(Sort(spans, SweepLe));
    CategoriesPermuted(best, wholes);
    WholesDistinct(wholes);
    hide Separated, DistinctCategories, SortedBy, FinalLe, SweepThenWholes, MergeAll, BestWholes;
    SelectIsSort(out, threshold);
    SweepThenWholesOrder();
    FinalOrder();
    SortTwice(out, SweepThenWholes, FinalLe);
  }

  /** A span that ends before it starts can overlap a hull but none of its members. */
  lemma InvertedJoinsNobody()
    ensures var a := Finding("c", 1.0, "", Some(0), Some(5));
            var b := Finding("c", 1.0, "", Some(4), Some(9));
            var f := Finding("c", 1.0, "", Some(7), Some(3));
            && MergeAll([a, b, f]) == [Finding("c", 1.0, "", Some(0), Some(9))]
            && !Near(-1, a, f) && !Near(-1, b, f)
            && SweepLe(a, b) && SweepLe(b, f)
  {
    var a: Span := Finding("c", 1.0, "", Some(0), Some(5));
    var b: Span := Finding("c", 1.0, "", Some(4), Some(9));
    var f: Span := Finding("c", 1.0, "", Some(7), Some(3));
    var ab: Span := Finding("c", 1.0, "", Some(0), Some(9));
    assert Combine(a, b) == ab && Combine(ab, f) == ab && Overlaps(a, b) && Overlaps(ab, f);
    hide Combine, Overlaps;
    OneSpan(a);
    MergeLast([a], b, a);
    MergeLast([a, b], f, ab);
    assert [a] + [b] == [a, b] && [a, b] + [f] == [a, b, f];
  }

  lemma OneSpan(a: Span)
    ensures MergeAll([a]) == [a]
  {
    assert [a][..0] == [];
  }

  lemma MergeLast(s: seq<Span>, f: Span, g: Span)
    requires MergeAll(s) == [g] && Overlaps(g, f)
    ensures MergeAll(s + [f]) == [Combine(g, f)]
  {
    hide Combine;
    assert (s + [f])[..|s|] == s;
    assert FirstOverlap([g], f) == 0;
  }
}
