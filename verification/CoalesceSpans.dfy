/** `coalesce_adjacent`: re-joins an entity that the model split into neighbouring fragments. */
module CoalesceSpans {
  import opened Wrappers
  import opened Order
  import opened Spans

  // ----- Specification -----

  function SpannedOf(findings: seq<Finding>): seq<Span> {
    if findings == [] then []
    else (if findings[0].Spanned() then [findings[0]] else []) + SpannedOf(findings[1..])
  }

  function UnspannedOf(findings: seq<Finding>): seq<Finding> {
    if findings == [] then []
    else (if !findings[0].Spanned() then [findings[0]] else []) + UnspannedOf(findings[1..])
  }

  /** Sort key (category, start, end). */
  predicate CategoryLe(f: Span, g: Span) {
    if f.category == g.category then Lo(f) < Lo(g) || (Lo(f) == Lo(g) && Hi(f) <= Hi(g))
    else StrLe(f.category, g.category)
  }

  /** Only the last output is a candidate, and it keeps its own start. */
  function CoalesceInto(out: seq<Span>, f: Span, maxGap: int): seq<Span> {
    if out == [] then [f]
    else
      var last := |out| - 1;
      var g := out[last];
      if g.category == f.category && Lo(f) <= Hi(g) + maxGap
      then out[last := Finding(g.category,
                               if g.score >= f.score then g.score else f.score,
                               if g.score >= f.score then g.rawLabel else f.rawLabel,
                               g.start, Some(Max(Hi(g), Hi(f))))]
      else out + [f]
  }

  function CoalesceAll(s: seq<Span>, maxGap: int): seq<Span> {
    if s == [] then [] else CoalesceInto(CoalesceAll(s[..|s| - 1], maxGap), s[|s| - 1], maxGap)
  }

  function Coalesced(findings: seq<Finding>, maxGap: int): seq<Finding> {
    var joined: seq<Finding> := CoalesceAll(Sort(SpannedOf(findings), CategoryLe), maxGap);
    joined + UnspannedOf(findings)
  }

  // ----- The function as written -----

  method CoalesceAdjacent(findings: seq<Finding>, maxGap: int) returns (res: seq<Finding>)
    ensures res == Coalesced(findings, maxGap)
  {
    hide Sort, CategoryLe;
    var spanned := Sort(SpannedOf(findings), CategoryLe);
    var whole := UnspannedOf(findings);
    var out: seq<Span> := [];
    for n := 0 to |spanned|
      invariant out == CoalesceAll(spanned[..n], maxGap)
    {
      assert spanned[..n + 1][..n] == spanned[..n];
      var f := spanned[n];
      if |out| > 0 {
        var g := out[|out| - 1];
        if g.category == f.category && Lo(f) <= Hi(g) + maxGap {
          var score := if g.score >= f.score then g.score else f.score;
          var rawLabel := if g.score >= f.score then g.rawLabel else f.rawLabel;
          out := out[|out| - 1 := Finding(g.category, score, rawLabel, g.start, Some(Max(Hi(g), Hi(f))))];
          continue;
        }
      }
      out := out + [f];
    }
    assert spanned[..|spanned|] == spanned;
    var joined: seq<Finding> := out;
    res := joined + whole;
  }

  // ----- Components -----

  lemma CategoryOrder()
    ensures TotalPreorder(CategoryLe)
  {
    forall f, g: Span ensures CategoryLe(f, g) || CategoryLe(g, f) {
      StrTotal(f.category, g.category);
    }
    forall f, g, h: Span | CategoryLe(f, g) && CategoryLe(g, h) ensures CategoryLe(f, h) {
      if f.category != g.category && g.category != h.category {
        StrTransitive(f.category, g.category, h.category);
        if f.category == h.category {
          StrAntisymmetric(f.category, g.category);
        }
      }
    }
  }

  /** In order, and of one category each starting more than the gap after all before it end. */
  ghost predicate Apart(out: seq<Span>, maxGap: int) {
    forall k, l :: 0 <= k < l < |out| ==> Precedes(out[k], out[l], maxGap)
  }

  predicate Precedes(g: Span, f: Span, maxGap: int) {
    CategoryLe(g, f) && (g.category == f.category ==> Lo(f) > Hi(g) + maxGap)
  }

  /** What holds after each sorted span, whatever the spans and the gap. */
  ghost predicate Progress(s: seq<Span>, out: seq<Span>, owner: seq<nat>, maxGap: int) {
    && GroupsOk(maxGap, s, out, owner)
    && Apart(out, maxGap)
    && (out == [] <==> s == [])
    && (s != [] ==> Ends(out[|out| - 1], s[|s| - 1]))
  }

  /** The last output has the last span's category, and its end if they start together. */
  predicate Ends(g: Span, last: Span) {
    g.category == last.category && Lo(g) <= Lo(last) && (Lo(g) == Lo(last) ==> Hi(g) == Hi(last))
  }

  ghost function Owner(out: seq<Span>, f: Span, maxGap: int): nat {
    if Reaches(out, f, maxGap) then |out| - 1 else |out|
  }

  ghost function Owners(s: seq<Span>, maxGap: int): seq<nat> {
    if s == [] then []
    else
      var init := s[..|s| - 1];
      Owners(init, maxGap) + [Owner(CoalesceAll(init, maxGap), s[|s| - 1], maxGap)]
  }

  predicate Reaches(out: seq<Span>, f: Span, maxGap: int) {
    out != [] && out[|out| - 1].category == f.category && Lo(f) <= Hi(out[|out| - 1]) + maxGap
  }

  /** Out of the last output's reach, a span comes after every output. */
  lemma AfterAll(out: seq<Span>, last: Span, f: Span, maxGap: int)
    requires Apart(out, maxGap) && out != [] && Ends(out[|out| - 1], last) && CategoryLe(last, f)
    requires !Reaches(out, f, maxGap)
    ensures Apart(out + [f], maxGap)
  {
    CategoryOrder();
    var g := out[|out| - 1];
    assert Precedes(g, f, maxGap);
    forall k | 0 <= k < |out| ensures Precedes(out[k], f, maxGap) {
      if k < |out| - 1 {
        assert Precedes(out[k], g, maxGap);
        Between(out[k], g, f);
      }
    }
  }

  /** Sorted by category, what lies between two of one category is of that category. */
  lemma Between(a: Span, g: Span, f: Span)
    requires CategoryLe(a, g) && CategoryLe(g, f)
    ensures CategoryLe(a, f)
    ensures a.category == f.category ==> g.category == f.category && Lo(g) <= Lo(f)
  {
    CategoryOrder();
    if a.category == f.category && g.category != f.category {
      StrAntisymmetric(g.category, f.category);
    }
  }

  lemma CoalesceStep(s: seq<Span>, out: seq<Span>, owner: seq<nat>, f: Span, maxGap: int)
    requires Progress(s, out, owner, maxGap) && Sweeps(s, f)
    requires s != [] ==> CategoryLe(s[|s| - 1], f)
    ensures Progress(s + [f], CoalesceInto(out, f, maxGap), owner + [Owner(out, f, maxGap)], maxGap)
  {
    hide GroupsOk, CategoryLe;
    if Reaches(out, f, maxGap) {
      CoalesceJoin(s, out, owner, f, maxGap);
    } else {
      assert CoalesceInto(out, f, maxGap) == out + [f] && Owner(out, f, maxGap) == |out|;
      assert Ends((out + [f])[|out|], (s + [f])[|s|]);
      OpenGroup(maxGap, s, out, owner, f);
      if out != [] {
        AfterAll(out, s[|s| - 1], f, maxGap);
      }
    }
  }

  lemma CoalesceJoin(s: seq<Span>, out: seq<Span>, owner: seq<nat>, f: Span, maxGap: int)
    requires Progress(s, out, owner, maxGap) && Sweeps(s, f) && s != [] && CategoryLe(s[|s| - 1], f)
    requires Reaches(out, f, maxGap)
    ensures Progress(s + [f], CoalesceInto(out, f, maxGap), owner + [Owner(out, f, maxGap)], maxGap)
  {
    hide Summary, Filled;
    var last := |out| - 1;
    OutStarts(maxGap, s, out, owner, f, last);
    JoinGroup(maxGap, s, out, owner, f, last);
    hide GroupsOk;
    var out' := out[last := Combine(out[last], f)];
    assert CoalesceInto(out, f, maxGap) == out';
    forall k | 0 <= k < last ensures Precedes(out'[k], out'[last], maxGap) {
      assert Precedes(out[k], out[last], maxGap);
    }
  }

  lemma {:induction false} CoalesceAllProgress(s: seq<Span>, maxGap: int)
    requires SortedBy(s, CategoryLe)
    ensures |Owners(s, maxGap)| == |s| && Progress(s, CoalesceAll(s, maxGap), Owners(s, maxGap), maxGap)
  {
    if s != [] {
      var n := |s| - 1;
      var init, f := s[..n], s[n];
      NextSweeps(s);
      LastCoalesced(s, maxGap);
      hide *;
      CoalesceAllProgress(init, maxGap);
      CoalesceStep(init, CoalesceAll(init, maxGap), Owners(init, maxGap), f, maxGap);
      ProgressSizes(s, CoalesceAll(s, maxGap), Owners(s, maxGap), maxGap);
    }
  }

  lemma LastCoalesced(s: seq<Span>, maxGap: int)
    requires s != []
    ensures var init, f := s[..|s| - 1], s[|s| - 1];
            && s == init + [f]
            && CoalesceAll(s, maxGap) == CoalesceInto(CoalesceAll(init, maxGap), f, maxGap)
            && Owners(s, maxGap) == Owners(init, maxGap) + [Owner(CoalesceAll(init, maxGap), f, maxGap)]
  {
    hide CoalesceInto, Owner;
  }

  lemma ProgressSizes(s: seq<Span>, out: seq<Span>, owner: seq<nat>, maxGap: int)
    requires Progress(s, out, owner, maxGap)
    ensures |owner| == |s|
  {
  }

  lemma NextSweeps(s: seq<Span>)
    requires s != [] && SortedBy(s, CategoryLe)
    ensures var n := |s| - 1;
            Sweeps(s[..n], s[n]) && (n > 0 ==> CategoryLe(s[n - 1], s[n])) && SortedBy(s[..n], CategoryLe)
  {
    var n := |s| - 1;
    forall i | 0 <= i < n ensures CategoryLe(s[i], s[n]) {}
  }

  // ----- Chains -----

  /** An earlier span of the category ends at most the gap before f starts. */
  ghost predicate Reached(s: seq<Span>, f: Span, maxGap: int) {
    exists m :: m in s && m.category == f.category && Lo(m) < Lo(f) <= Hi(m) + maxGap
  }

  ghost predicate HasNeighbour(s: seq<Span>, f: Span, maxGap: int) {
    exists m :: m in s && Near(maxGap, m, f)
  }

  /** Whatever ends more than the gap before it starts, and is reached all the same, is near one. */
  ghost predicate NoneStranded(s: seq<Span>, maxGap: int) {
    forall f :: f in s && !Near(maxGap, f, f) && Reached(s, f, maxGap) ==> HasNeighbour(s, f, maxGap)
  }

  /** Only spans sorted earlier matter to a span, so the condition holds of every prefix. */
  lemma PrefixNoneStranded(s: seq<Span>, n: nat, maxGap: int)
    requires SortedBy(s, CategoryLe) && NoneStranded(s, maxGap) && n <= |s|
    ensures NoneStranded(s[..n], maxGap)
  {
    forall f | f in s[..n] && !Near(maxGap, f, f) && Reached(s[..n], f, maxGap)
      ensures HasNeighbour(s[..n], f, maxGap)
    {
      assert Reached(s, f, maxGap);
      var m :| m in s && Near(maxGap, m, f);
      var i :| 0 <= i < |s| && s[i] == m;
      var j :| 0 <= j < n && s[j] == f;
      assert i >= n ==> CategoryLe(s[j], s[i]);
      assert s[..n][i] == m;
    }
  }

  lemma {:induction false} CoalesceAllLinked(s: seq<Span>, maxGap: int)
    requires SortedBy(s, CategoryLe) && NoneStranded(s, maxGap)
    ensures SameGroupLinked(maxGap, s, Owners(s, maxGap))
  {
    if s != [] {
      var n := |s| - 1;
      var init, f := s[..n], s[n];
      assert s == init + [f];
      assert n > 0 ==> CategoryLe(s[n - 1], s[n]);
      NextSweeps(s);
      PrefixNoneStranded(s, n, maxGap);
      CoalesceAllLinked(init, maxGap);
      CoalesceAllProgress(init, maxGap);
      assert forall i :: 0 <= i < n ==> CategoryLe(s[i], s[n]);
      assert Owners(s, maxGap) == Owners(init, maxGap) + [Owner(CoalesceAll(init, maxGap), f, maxGap)];
      hide *;
      LinkStep(init, CoalesceAll(init, maxGap), Owners(init, maxGap), f, maxGap);
    }
  }

  lemma LinkStep(s: seq<Span>, out: seq<Span>, owner: seq<nat>, f: Span, maxGap: int)
    requires Progress(s, out, owner, maxGap) && SameGroupLinked(maxGap, s, owner)
    requires Sweeps(s, f) && NoneStranded(s + [f], maxGap) && forall i :: 0 <= i < |s| ==> CategoryLe(s[i], f)
    ensures SameGroupLinked(maxGap, s + [f], owner + [Owner(out, f, maxGap)])
  {
    hide SameGroupLinked, Summary, Filled, Apart, NoneStranded, CategoryLe;
    if Reaches(out, f, maxGap) {
      var last := |out| - 1;
      HullContact(s, out, owner, f, maxGap);
      JoinLinked(maxGap, s, owner, f, last);
    } else {
      OpenLinked(maxGap, s, owner, f, |out|);
    }
  }

  lemma ApartAt(out: seq<Span>, k: nat, l: nat, maxGap: int)
    requires Apart(out, maxGap) && k < |out| && l < |out|
    ensures k < l ==> Precedes(out[k], out[l], maxGap)
  {
  }

  /** A hull is joined only through one of its members. */
  lemma HullContact(s: seq<Span>, out: seq<Span>, owner: seq<nat>, f: Span, maxGap: int)
    requires Progress(s, out, owner, maxGap) && Sweeps(s, f) && Reaches(out, f, maxGap)
    requires NoneStranded(s + [f], maxGap) && forall i :: 0 <= i < |s| ==> CategoryLe(s[i], f)
    ensures Contact(maxGap, s, owner, |out| - 1, f)
  {
    var last := |out| - 1;
    assert Summary(s, owner, last, out[last]);
    var m :| 0 <= m < |s| && owner[m] == last && Hi(s[m]) == Hi(out[last]);
    if Near(maxGap, f, f) {
      assert Near(maxGap, s[m], f);
    } else {
      assert CategoryLe(s[m], f) && s[m] in s + [f];
      assert Reached(s + [f], f, maxGap);
      var g :| g in s + [f] && Near(maxGap, g, f);
      var j :| 0 <= j < |s| && s[j] == g;
      assert Summary(s, owner, owner[j], out[owner[j]]);
      OutStarts(maxGap, s, out, owner, f, last);
      ApartAt(out, owner[j], last, maxGap);
    }
  }

  /** Outputs are filled one after the other. */
  lemma {:induction false} OwnersAscend(s: seq<Span>, maxGap: int, i: nat, j: nat)
    requires SortedBy(s, CategoryLe) && i <= j < |s|
    ensures |Owners(s, maxGap)| == |s| && Owners(s, maxGap)[i] <= Owners(s, maxGap)[j]
  {
    var n := |s| - 1;
    CoalesceAllProgress(s[..n], maxGap);
    if j < n {
      OwnersAscend(s[..n], maxGap, i, j);
    }
  }

  /** In a grouping nothing is stranded: what is reached shares its group, hence a chain. */
  lemma GroupedNotStranded(s: seq<Span>, maxGap: int, f: Span)
    requires SortedBy(s, CategoryLe) && IsGrouping(maxGap, s, CoalesceAll(s, maxGap), Owners(s, maxGap))
    requires f in s && !Near(maxGap, f, f) && Reached(s, f, maxGap)
    ensures HasNeighbour(s, f, maxGap)
  {
    var out, owner := CoalesceAll(s, maxGap), Owners(s, maxGap);
    var g :| g in s && g.category == f.category && Lo(g) < Lo(f) <= Hi(g) + maxGap;
    var j :| 0 <= j < |s| && s[j] == f;
    var m :| 0 <= m < |s| && s[m] == g;
    assert j < m ==> CategoryLe(s[j], s[m]);
    CoalesceAllProgress(s, maxGap);
    OwnersAscend(s, maxGap, m, j);
    assert Summary(s, owner, owner[m], out[owner[m]]) && Summary(s, owner, owner[j], out[owner[j]]);
    ApartAt(out, owner[m], owner[j], maxGap);
    hide GroupsOk, Separated, Apart, SortedBy, Owners, CoalesceAll;
    assert Linked(maxGap, s, j, m);
    ChainStarts(maxGap, s, j, m);
  }

  lemma ChainStarts(maxGap: int, s: seq<Span>, j: nat, m: nat)
    requires j < |s| && m < |s| && s[j] != s[m] && Linked(maxGap, s, j, m)
    ensures HasNeighbour(s, s[j], maxGap)
  {
    var path :| IsPath(maxGap, s, path) && path[0] == j && path[|path| - 1] == m;
    assert |path| > 1;
    assert Near(maxGap, s[path[0]], s[path[0 + 1]]) && s[path[1]] in s;
  }

  /** By category, within one by start, and by end where both start together. */
  predicate SweptBefore(f: Span, g: Span) {
    && StrLe(f.category, g.category)
    && (f.category == g.category ==> Lo(f) <= Lo(g) && (Lo(f) == Lo(g) ==> Hi(f) <= Hi(g)))
  }

  /** The result, whatever the spans and the gap: hulls that add nothing but gaps of at most
      `maxGap`, in order and further apart than that, then the whole-unit findings as they came.
      The hulls are one per chain of same-category spans no two neighbours of which are more than
      `maxGap` apart exactly when no span is stranded. */
  lemma CoalesceCorrect(findings: seq<Finding>, maxGap: int)
      returns (order: seq<Span>, groups: seq<Span>, owner: seq<nat>)
    ensures multiset(order) == multiset(SpannedOf(findings))
    ensures GroupsOk(maxGap, order, groups, owner) && Apart(groups, maxGap)
    ensures IsGrouping(maxGap, order, groups, owner) <==> NoneStranded(SpannedOf(findings), maxGap)
    ensures Coalesced(findings, maxGap) == groups + UnspannedOf(findings)
    ensures forall i, j :: 0 <= i < j < |order| ==> SweptBefore(order[i], order[j])
  {
    var spans := SpannedOf(findings);
    order := Sort(spans, CategoryLe);
    groups, owner := CoalesceAll(order, maxGap), Owners(order, maxGap);
    CategoryOrder();
    SortSorted(spans, CategoryLe);
    SortPermutes(spans, CategoryLe);
    CoalesceAllProgress(order, maxGap);
    ChainsExactly(spans, order, maxGap);
    InSweepOrder(order);
  }

  lemma InSweepOrder(order: seq<Span>)
    requires SortedBy(order, CategoryLe)
    ensures forall i, j :: 0 <= i < j < |order| ==> SweptBefore(order[i], order[j])
  {
    forall i, j | 0 <= i < j < |order| ensures SweptBefore(order[i], order[j]) {
      assert CategoryLe(order[i], order[j]);
      StrTotal(order[i].category, order[i].category);
    }
  }

  // ----- The findings accounted for -----

  lemma {:induction false} SelectsOffsets(findings: seq<Finding>) returns (at: seq<nat>)
    ensures Selects(findings, HasOffsets, SpannedOf(findings), at)
  {
    hide Selects;
    at := [];
    if findings == [] {
      SelectsNothing(HasOffsets);
    } else {
      at := SelectsOffsets(findings[1..]);
      at := SelectsCons(findings, HasOffsets, SpannedOf(findings[1..]), at);
    }
  }

  lemma {:induction false} SelectsUnit(findings: seq<Finding>) returns (at: seq<nat>)
    ensures Selects(findings, AboutTheUnit, UnspannedOf(findings), at)
  {
    hide Selects;
    at := [];
    if findings == [] {
      SelectsNothing(AboutTheUnit);
    } else {
      at := SelectsUnit(findings[1..]);
      at := SelectsCons(findings, AboutTheUnit, UnspannedOf(findings[1..]), at);
    }
  }

  /** The output contains the finding, with at least its score. */
  predicate Takes(o: Finding, f: Finding) {
    && HasOffsets(o) && HasOffsets(f) && o.category == f.category
    && o.start.value <= f.start.value && f.end.value <= o.end.value && f.score <= o.score
  }

  /** Category, both ends, and score with its label are each some finding's own. */
  ghost predicate MadeOf(o: Finding, findings: seq<Finding>) {
    && (exists f :: f in findings && HasOffsets(f) && f.category == o.category && f.start == o.start)
    && (exists f :: f in findings && HasOffsets(f) && f.category == o.category && f.end == o.end)
    && (exists f :: f in findings && HasOffsets(f) && f.category == o.category
                    && f.score == o.score && f.rawLabel == o.rawLabel)
  }

  /** No finding is lost and none is made up: the first n outputs have offsets, every finding with
      offsets is contained in one of them, each of them is made of such findings; and the rest are the
      findings about the whole unit, all of them, in their order. */
  lemma CoalesceAccounts(findings: seq<Finding>, maxGap: int) returns (n: nat, at: seq<nat>)
    ensures n <= |Coalesced(findings, maxGap)|
    ensures forall f :: f in findings && HasOffsets(f) ==>
              exists k :: 0 <= k < n && Takes(Coalesced(findings, maxGap)[k], f)
    ensures forall k :: 0 <= k < n ==> HasOffsets(Coalesced(findings, maxGap)[k])
                                       && MadeOf(Coalesced(findings, maxGap)[k], findings)
    ensures Selects(findings, AboutTheUnit, Coalesced(findings, maxGap)[n..], at)
  {
    var order, groups, owner := CoalesceCorrect(findings, maxGap);
    hide NoneStranded, IsGrouping, Apart, Coalesced, GroupsOk, Takes, MadeOf;
    n := |groups|;
    at := SelectsUnit(findings);
    var places := SelectsOffsets(findings);
    OffsetMembers(findings, order, places);
    assert Coalesced(findings, maxGap)[n..] == UnspannedOf(findings);
    forall f | f in findings && HasOffsets(f)
      ensures exists k :: 0 <= k < n && Takes(Coalesced(findings, maxGap)[k], f)
    {
      var k := GroupTakes(order, groups, owner, f, maxGap);
      assert Coalesced(findings, maxGap)[k] == groups[k];
    }
    forall k | 0 <= k < n ensures HasOffsets(Coalesced(findings, maxGap)[k])
                          ensures MadeOf(Coalesced(findings, maxGap)[k], findings)
    {
      assert Coalesced(findings, maxGap)[k] == groups[k];
      GroupMadeOf(order, groups, owner, k, findings, maxGap);
    }
  }

  lemma OffsetMembers(findings: seq<Finding>, order: seq<Span>, at: seq<nat>)
    requires Selects(findings, HasOffsets, SpannedOf(findings), at)
    requires multiset(order) == multiset(SpannedOf(findings))
    ensures forall f :: f in findings && HasOffsets(f) <==> f in order
  {
    SameMembers(order, SpannedOf(findings));
    hide SpannedOf;
    forall f ensures f in findings && HasOffsets(f) <==> f in SpannedOf(findings) {
      if f in findings && HasOffsets(f) {
        var i :| 0 <= i < |findings| && findings[i] == f;
        assert i in at;
        var k :| 0 <= k < |at| && at[k] == i;
        assert SpannedOf(findings)[k] == f;
      }
      if f in SpannedOf(findings) {
        var k :| 0 <= k < |at| && SpannedOf(findings)[k] == f;
        assert at[k] in at;
      }
    }
  }

  lemma GroupTakes(order: seq<Span>, groups: seq<Span>, owner: seq<nat>, f: Finding, maxGap: int) returns (k: nat)
    requires GroupsOk(maxGap, order, groups, owner) && f in order
    ensures k < |groups| && Takes(groups[k], f)
  {
    var i :| 0 <= i < |order| && order[i] == f;
    k := owner[i];
    assert Summary(order, owner, k, groups[k]);
  }

  lemma GroupMadeOf(order: seq<Span>, groups: seq<Span>, owner: seq<nat>, k: nat, findings: seq<Finding>, maxGap: int)
    requires GroupsOk(maxGap, order, groups, owner) && k < |groups|
    requires forall f :: f in order ==> f in findings
    ensures HasOffsets(groups[k]) && MadeOf(groups[k], findings)
  {
    hide Filled;
    assert Summary(order, owner, k, groups[k]);
    var a :| 0 <= a < |order| && owner[a] == k && Lo(order[a]) == Lo(groups[k]);
    var b :| 0 <= b < |order| && owner[b] == k && Hi(order[b]) == Hi(groups[k]);
    var c :| 0 <= c < |order| && owner[c] == k && order[c].score == groups[k].score
             && order[c].rawLabel == groups[k].rawLabel;
    assert order[a] in findings && order[b] in findings && order[c] in findings;
  }

  lemma ChainsExactly(spans: seq<Span>, order: seq<Span>, maxGap: int)
    requires multiset(order) == multiset(spans) && SortedBy(order, CategoryLe)
    ensures IsGrouping(maxGap, order, CoalesceAll(order, maxGap), Owners(order, maxGap)) <==>
            NoneStranded(spans, maxGap)
  {
    var groups, owner := CoalesceAll(order, maxGap), Owners(order, maxGap);
    CoalesceAllProgress(order, maxGap);
    ApartSeparated(groups, maxGap);
    SameStranded(spans, order, maxGap);
    hide GroupsOk, SameGroupLinked, Separated, Apart, SortedBy, IsGrouping;
    if NoneStranded(order, maxGap) {
      CoalesceAllLinked(order, maxGap);
      GroupsAreComponents(maxGap, order, groups, owner);
    }
    if IsGrouping(maxGap, order, groups, owner) {
      forall f | f in order && !Near(maxGap, f, f) && Reached(order, f, maxGap) ensures HasNeighbour(order, f, maxGap) {
        GroupedNotStranded(order, maxGap, f);
      }
    }
  }

  lemma SameStranded(a: seq<Span>, b: seq<Span>, maxGap: int)
    requires multiset(a) == multiset(b)
    ensures NoneStranded(a, maxGap) <==> NoneStranded(b, maxGap)
  {
    SameMembers(a, b);
    assert forall f :: Reached(a, f, maxGap) <==> Reached(b, f, maxGap);
    assert forall f :: HasNeighbour(a, f, maxGap) <==> HasNeighbour(b, f, maxGap);
  }

  /** A span that ends before it starts can be absorbed although it is near nothing. */
  lemma InvertedIsAbsorbed()
    ensures var g := Finding("c", 1.0, "", Some(5), Some(11));
            var f := Finding("c", 1.0, "", Some(10), Some(0));
            !Near(2, g, f) && CategoryLe(g, f) && CoalesceAll([g, f], 2) == [g]
  {
    var g: Span := Finding("c", 1.0, "", Some(5), Some(11));
    var f: Span := Finding("c", 1.0, "", Some(10), Some(0));
    assert [g, f][..1] == [g] && [g][..0] == [];
    assert CoalesceAll([g], 2) == [g];
  }

  lemma ApartSeparated(groups: seq<Span>, maxGap: int)
    requires Apart(groups, maxGap)
    ensures Separated(maxGap, groups)
  {
    forall k, l | 0 <= k < l < |groups| ensures !Near(maxGap, groups[k], groups[l]) {
      assert Precedes(groups[k], groups[l], maxGap);
    }
  }

  // ----- Idempotence -----

  lemma {:induction false} CoalesceApart(s: seq<Span>, maxGap: int)
    requires Apart(s, maxGap)
    ensures CoalesceAll(s, maxGap) == s
  {
    if s != [] {
      var n := |s| - 1;
      assert s == s[..n] + [s[n]];
      CoalesceApart(s[..n], maxGap);
      assert n > 0 ==> Precedes(s[n - 1], s[n], maxGap);
    }
  }

  lemma {:induction false} SpannedOfMembers(findings: seq<Finding>)
    ensures forall f :: f in UnspannedOf(findings) ==> !f.Spanned()
  {
    if findings != [] {
      SpannedOfMembers(findings[1..]);
    }
  }

  lemma {:induction false} Reselect(groups: seq<Span>, wholes: seq<Finding>)
    requires forall f :: f in wholes ==> !f.Spanned()
    ensures SpannedOf(groups + wholes) == groups && UnspannedOf(groups + wholes) == wholes
  {
    var all: seq<Finding> := groups + wholes;
    if groups != [] {
      Reselect(groups[1..], wholes);
      assert all[1..] == groups[1..] + wholes;
    } else if wholes != [] {
      assert wholes[0] in wholes;
      Reselect([], wholes[1..]);
      assert all == wholes && wholes[1..] == [] + wholes[1..];
    }
  }

  /** Coalescing again changes nothing, whatever the spans and the gap. */
  lemma CoalesceIdempotent(findings: seq<Finding>, maxGap: int)
    ensures Coalesced(Coalesced(findings, maxGap), maxGap) == Coalesced(findings, maxGap)
  {
    var order, groups, owner := CoalesceCorrect(findings, maxGap);
    hide GroupsOk, NoneStranded, IsGrouping;
    SpannedOfMembers(findings);
    Reselect(groups, UnspannedOf(findings));
    assert SortedBy(groups, CategoryLe) by {
      assert forall k, l :: 0 <= k < l < |groups| ==> Precedes(groups[k], groups[l], maxGap);
    }
    SortIdentity(groups, CategoryLe);
    CoalesceApart(groups, maxGap);
  }
}
