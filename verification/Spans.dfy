/**
 The span algebra under the PII detectors: grouping findings of one category that overlap
 (`merge_spans`) or nearly touch (`coalesce_adjacent`).

 Both are instances of one problem. Call two findings near at distance d when they share a
 category and the gap between them is at most d; overlapping by at least one position is
 d = -1, separated by at most g positions is d = g. Either function must return exactly one
 finding per connected component of that relation.
 */
module Spans {
  import opened Wrappers

  datatype Finding = Finding(category: string, score: real, rawLabel: string, start: Option<int>, end: Option<int>) {
    predicate Spanned() { start.Some? && end.Some? }
  }

  /** A finding that carries offsets, as opposed to one about the whole unit. */
  type Span = f: Finding | f.Spanned() witness Finding("", 0.0, "", Some(0), Some(0))

  predicate HasOffsets(f: Finding) { f.Spanned() }

  predicate AboutTheUnit(f: Finding) { !f.Spanned() }

  function Lo(f: Span): int { f.start.value }

  function Hi(f: Span): int { f.end.value }

  function Max(a: int, b: int): int { if a < b then b else a }

  function Min(a: int, b: int): int { if b < a then b else a }

  predicate Near(d: int, f: Span, g: Span) {
    f.category == g.category && Lo(f) <= Hi(g) + d && Lo(g) <= Hi(f) + d
  }

  // ----- What a grouping must be -----

  ghost predicate IsPath(d: int, s: seq<Span>, path: seq<nat>) {
    && path != []
    && (forall p :: 0 <= p < |path| ==> path[p] < |s|)
    && (forall p :: 0 <= p < |path| - 1 ==> Near(d, s[path[p]], s[path[p + 1]]))
  }

  /** Connected through a chain of near findings. */
  ghost predicate Linked(d: int, s: seq<Span>, i: nat, j: nat) {
    exists path :: IsPath(d, s, path) && path[0] == i && path[|path| - 1] == j
  }

  /** `o` sums up the findings assigned to group k: its extent is their hull, its score their
      maximum, and its label that of the first to reach the maximum. */
  ghost predicate Summary(s: seq<Span>, owner: seq<nat>, k: nat, o: Span)
    requires |owner| == |s|
  {
    && (forall i :: 0 <= i < |s| && owner[i] == k ==>
          s[i].category == o.category && Lo(o) <= Lo(s[i]) && Hi(s[i]) <= Hi(o) && s[i].score <= o.score)
    && (exists i :: 0 <= i < |s| && owner[i] == k && Lo(s[i]) == Lo(o))
    && (exists i :: 0 <= i < |s| && owner[i] == k && Hi(s[i]) == Hi(o))
    && (exists i :: 0 <= i < |s| && owner[i] == k && s[i].score == o.score && s[i].rawLabel == o.rawLabel
                    && forall j :: 0 <= j < i && owner[j] == k ==> s[j].score < o.score)
  }

  ghost predicate Separated(d: int, out: seq<Span>) {
    forall k, l :: 0 <= k < l < |out| ==> !Near(d, out[k], out[l])
  }

  /** Position p of a group is covered by a member, or lies in a gap of at most d between two. */
  ghost predicate Filled(d: int, s: seq<Span>, owner: seq<nat>, k: nat, p: int)
    requires |owner| == |s|
  {
    || (exists i :: 0 <= i < |s| && owner[i] == k && Lo(s[i]) <= p < Hi(s[i]))
    || (exists i, j :: 0 <= i < |s| && 0 <= j < |s| && owner[i] == k && owner[j] == k
                       && Hi(s[i]) <= p < Lo(s[j]) <= Hi(s[i]) + d)
  }

  /** Every group is summed up by its output and adds no position beyond small gaps. */
  ghost predicate GroupsOk(d: int, s: seq<Span>, out: seq<Span>, owner: seq<nat>) {
    && |owner| == |s|
    && (forall i :: 0 <= i < |s| ==> owner[i] < |out|)
    && (forall k :: 0 <= k < |out| ==> Summary(s, owner, k, out[k]))
    && (forall k, p :: 0 <= k < |out| && Lo(out[k]) <= p < Hi(out[k]) ==> Filled(d, s, owner, k, p))
  }

  ghost predicate SameGroupLinked(d: int, s: seq<Span>, owner: seq<nat>) {
    |owner| == |s| && forall i, j :: 0 <= i < |s| && 0 <= j < |s| && owner[i] == owner[j] ==> Linked(d, s, i, j)
  }

  /** The outputs are the connected components of nearness, one each. */
  ghost predicate IsGrouping(d: int, s: seq<Span>, out: seq<Span>, owner: seq<nat>) {
    && GroupsOk(d, s, out, owner)
    && Separated(d, out)
    && (forall i, j :: 0 <= i < |s| && 0 <= j < |s| ==> (owner[i] == owner[j] <==> Linked(d, s, i, j)))
  }

  // ----- Linking -----

  lemma LinkRefl(d: int, s: seq<Span>, i: nat)
    requires i < |s|
    ensures Linked(d, s, i, i)
  {
    assert IsPath(d, s, [i]);
  }

  lemma LinkTrans(d: int, s: seq<Span>, i: nat, j: nat, k: nat)
    requires i < |s| && j < |s| && k < |s| && Linked(d, s, i, j) && Near(d, s[j], s[k])
    ensures Linked(d, s, i, k)
  {
    var path :| IsPath(d, s, path) && path[0] == i && path[|path| - 1] == j;
    assert IsPath(d, s, path + [k]);
  }

  lemma LinkSym(d: int, s: seq<Span>, i: nat, j: nat)
    requires Linked(d, s, i, j)
    ensures Linked(d, s, j, i)
  {
    var path :| IsPath(d, s, path) && path[0] == i && path[|path| - 1] == j;
    var back := seq(|path|, p requires 0 <= p < |path| => path[|path| - 1 - p]);
    forall p | 0 <= p < |back| - 1 ensures Near(d, s[back[p]], s[back[p + 1]]) {
      var q := |path| - 2 - p;
      assert Near(d, s[path[q]], s[path[q + 1]]);
    }
    assert IsPath(d, s, back);
  }

  lemma LinkMono(d: int, s: seq<Span>, f: Span, i: nat, j: nat)
    requires Linked(d, s, i, j)
    ensures Linked(d, s + [f], i, j)
  {
    var path :| IsPath(d, s, path) && path[0] == i && path[|path| - 1] == j;
    assert IsPath(d, s + [f], path);
  }

  /** When the outputs are separated hulls, a chain never leaves a group. */
  lemma {:induction false} PathStaysInGroup(d: int, s: seq<Span>, out: seq<Span>, owner: seq<nat>, path: seq<nat>)
    requires GroupsOk(d, s, out, owner) && Separated(d, out) && IsPath(d, s, path)
    ensures owner[path[0]] == owner[path[|path| - 1]]
  {
    if |path| > 1 {
      var init := path[..|path| - 1];
      assert IsPath(d, s, init) by {
        forall p | 0 <= p < |init| - 1 ensures Near(d, s[init[p]], s[init[p + 1]]) {
          assert Near(d, s[path[p]], s[path[p + 1]]);
        }
      }
      PathStaysInGroup(d, s, out, owner, init);
      var i, j := path[|path| - 2], path[|path| - 1];
      assert Near(d, s[path[|path| - 2]], s[path[|path| - 2 + 1]]);
      assert Summary(s, owner, owner[i], out[owner[i]]) && Summary(s, owner, owner[j], out[owner[j]]);
      assert Near(d, out[owner[i]], out[owner[j]]) && Near(d, out[owner[j]], out[owner[i]]);
    }
  }

  /** Separated, well-summed groups of linked findings are exactly the components. */
  lemma GroupsAreComponents(d: int, s: seq<Span>, out: seq<Span>, owner: seq<nat>)
    requires GroupsOk(d, s, out, owner) && Separated(d, out) && SameGroupLinked(d, s, owner)
    ensures IsGrouping(d, s, out, owner)
  {
    forall i, j | 0 <= i < |s| && 0 <= j < |s| && Linked(d, s, i, j) ensures owner[i] == owner[j] {
      var path :| IsPath(d, s, path) && path[0] == i && path[|path| - 1] == j;
      PathStaysInGroup(d, s, out, owner, path);
    }
  }

  // ----- Adding one finding -----

  function Combine(g: Span, f: Span): (r: Span)
    ensures r.category == g.category && Lo(r) == Min(Lo(g), Lo(f)) && Hi(r) == Max(Hi(g), Hi(f))
    ensures r.score >= g.score && r.score >= f.score && (r.score == g.score || r.score == f.score)
    ensures r.rawLabel == if g.score >= f.score then g.rawLabel else f.rawLabel
  {
    Finding(g.category,
            if g.score >= f.score then g.score else f.score,
            if g.score >= f.score then g.rawLabel else f.rawLabel,
            Some(Min(Lo(g), Lo(f))), Some(Max(Hi(g), Hi(f))))
  }

  /** `f` starts no earlier than anything of its category seen so far. */
  ghost predicate Sweeps(s: seq<Span>, f: Span) {
    forall i :: 0 <= i < |s| && s[i].category == f.category ==> Lo(s[i]) <= Lo(f)
  }

  lemma OutStarts(d: int, s: seq<Span>, out: seq<Span>, owner: seq<nat>, f: Span, k: nat)
    requires GroupsOk(d, s, out, owner) && Sweeps(s, f) && k < |out| && out[k].category == f.category
    ensures Lo(out[k]) <= Lo(f)
  {
    assert Summary(s, owner, k, out[k]);
    var i :| 0 <= i < |s| && owner[i] == k && Lo(s[i]) == Lo(out[k]);
  }

  lemma AppendSummary(s: seq<Span>, owner: seq<nat>, k: nat, o: Span, f: Span, n: nat)
    requires |owner| == |s| && Summary(s, owner, k, o) && n != k
    ensures Summary(s + [f], owner + [n], k, o)
  {
    var s', owner' := s + [f], owner + [n];
    var i :| 0 <= i < |s| && owner[i] == k && Lo(s[i]) == Lo(o);
    assert owner'[i] == k && Lo(s'[i]) == Lo(o);
    var j :| 0 <= j < |s| && owner[j] == k && Hi(s[j]) == Hi(o);
    assert owner'[j] == k && Hi(s'[j]) == Hi(o);
    var m :| 0 <= m < |s| && owner[m] == k && s[m].score == o.score && s[m].rawLabel == o.rawLabel
             && forall j :: 0 <= j < m && owner[j] == k ==> s[j].score < o.score;
    assert owner'[m] == k && s'[m].score == o.score;
  }

  lemma AppendFilled(d: int, s: seq<Span>, owner: seq<nat>, k: nat, p: int, f: Span, n: nat)
    requires |owner| == |s| && Filled(d, s, owner, k, p)
    ensures Filled(d, s + [f], owner + [n], k, p)
  {
    var s', owner' := s + [f], owner + [n];
    if i :| 0 <= i < |s| && owner[i] == k && Lo(s[i]) <= p < Hi(s[i]) {
      assert owner'[i] == k && Lo(s'[i]) <= p < Hi(s'[i]);
    } else {
      var i, j :| 0 <= i < |s| && 0 <= j < |s| && owner[i] == k && owner[j] == k
                  && Hi(s[i]) <= p < Lo(s[j]) <= Hi(s[i]) + d;
      assert owner'[i] == k && owner'[j] == k && Hi(s'[i]) <= p < Lo(s'[j]) <= Hi(s'[i]) + d;
    }
  }

  /** The finding opens a group of its own. */
  lemma OpenGroup(d: int, s: seq<Span>, out: seq<Span>, owner: seq<nat>, f: Span)
    requires GroupsOk(d, s, out, owner)
    ensures GroupsOk(d, s + [f], out + [f], owner + [|out|])
  {
    var s', out', owner' := s + [f], out + [f], owner + [|out|];
    forall k | 0 <= k < |out'| ensures Summary(s', owner', k, out'[k]) {
      if k < |out| {
        AppendSummary(s, owner, k, out[k], f, |out|);
      } else {
        assert owner'[|s|] == k && s'[|s|] == f;
      }
    }
    forall k, p | 0 <= k < |out'| && Lo(out'[k]) <= p < Hi(out'[k]) ensures Filled(d, s', owner', k, p) {
      if k < |out| {
        AppendFilled(d, s, owner, k, p, f, |out|);
      } else {
        assert owner'[|s|] == k && s'[|s|] == f;
      }
    }
  }

  lemma JoinSummary(d: int, s: seq<Span>, out: seq<Span>, owner: seq<nat>, f: Span, k: nat)
    requires GroupsOk(d, s, out, owner) && k < |out| && out[k].category == f.category
    ensures Summary(s + [f], owner + [k], k, Combine(out[k], f))
  {
    var s', owner', g := s + [f], owner + [k], out[k];
    var o := Combine(g, f);
    assert Summary(s, owner, k, g);
    assert s'[|s|] == f && owner'[|s|] == k;
    var i :| 0 <= i < |s| && owner[i] == k && Lo(s[i]) == Lo(g);
    assert owner'[i] == k && Lo(s'[i]) == Lo(g);
    var j :| 0 <= j < |s| && owner[j] == k && Hi(s[j]) == Hi(g);
    assert owner'[j] == k && Hi(s'[j]) == Hi(g);
    var m :| 0 <= m < |s| && owner[m] == k && s[m].score == g.score && s[m].rawLabel == g.rawLabel
             && forall j :: 0 <= j < m && owner[j] == k ==> s[j].score < g.score;
    if g.score >= f.score {
      assert owner'[m] == k && s'[m].score == o.score && s'[m].rawLabel == o.rawLabel;
    } else {
      assert owner'[|s|] == k && s'[|s|].score == o.score && s'[|s|].rawLabel == o.rawLabel;
    }
  }

  lemma JoinFilled(d: int, s: seq<Span>, out: seq<Span>, owner: seq<nat>, f: Span, k: nat, p: int)
    requires GroupsOk(d, s, out, owner) && k < |out| && Lo(out[k]) <= Lo(f) <= Hi(out[k]) + d
    requires Lo(out[k]) <= p < Max(Hi(out[k]), Hi(f))
    ensures Filled(d, s + [f], owner + [k], k, p)
  {
    var s', owner', g := s + [f], owner + [k], out[k];
    assert s'[|s|] == f && owner'[|s|] == k;
    if p < Hi(g) {
      AppendFilled(d, s, owner, k, p, f, k);
    } else if p < Lo(f) {
      assert Summary(s, owner, k, g);
      var i :| 0 <= i < |s| && owner[i] == k && Hi(s[i]) == Hi(g);
      assert owner'[i] == k && Hi(s'[i]) <= p < Lo(s'[|s|]) <= Hi(s'[i]) + d;
    }
  }

  /** The finding joins a group that it starts in, or at most d after. */
  lemma JoinGroup(d: int, s: seq<Span>, out: seq<Span>, owner: seq<nat>, f: Span, k: nat)
    requires GroupsOk(d, s, out, owner) && k < |out|
    requires out[k].category == f.category && Lo(out[k]) <= Lo(f) <= Hi(out[k]) + d
    ensures GroupsOk(d, s + [f], out[k := Combine(out[k], f)], owner + [k])
  {
    var s', out', owner' := s + [f], out[k := Combine(out[k], f)], owner + [k];
    forall l | 0 <= l < |out'| ensures Summary(s', owner', l, out'[l]) {
      if l == k {
        JoinSummary(d, s, out, owner, f, k);
      } else {
        AppendSummary(s, owner, l, out[l], f, k);
      }
    }
    forall l, p | 0 <= l < |out'| && Lo(out'[l]) <= p < Hi(out'[l]) ensures Filled(d, s', owner', l, p) {
      if l == k {
        JoinFilled(d, s, out, owner, f, k, p);
      } else {
        AppendFilled(d, s, owner, l, p, f, k);
      }
    }
  }

  lemma JoinSeparated(d: int, out: seq<Span>, f: Span, k: nat)
    requires Separated(d, out) && k < |out| && Near(d, out[k], f)
    requires forall l :: 0 <= l < |out| && out[l].category == f.category ==> Lo(out[l]) <= Lo(f)
    ensures Separated(d, out[k := Combine(out[k], f)])
  {
    var out' := out[k := Combine(out[k], f)];
    forall l | 0 <= l < |out| && l != k ensures !Near(d, out'[k], out[l]) && !Near(d, out[l], out'[k]) {
      assert !Near(d, out[k], out[l]) by {
        if l < k { assert !Near(d, out[l], out[k]); }
      }
    }
  }

  // ----- Linking what is added -----

  /** Some member of group k is near f. */
  ghost predicate Contact(d: int, s: seq<Span>, owner: seq<nat>, k: nat, f: Span)
    requires |owner| == |s|
  {
    exists m :: 0 <= m < |s| && owner[m] == k && Near(d, s[m], f)
  }

  lemma OpenLinked(d: int, s: seq<Span>, owner: seq<nat>, f: Span, n: nat)
    requires SameGroupLinked(d, s, owner) && forall i :: 0 <= i < |s| ==> owner[i] < n
    ensures SameGroupLinked(d, s + [f], owner + [n])
  {
    var s', owner' := s + [f], owner + [n];
    forall i, j | 0 <= i < |s'| && 0 <= j < |s'| && owner'[i] == owner'[j] ensures Linked(d, s', i, j) {
      if i < |s| && j < |s| {
        LinkMono(d, s, f, i, j);
      } else {
        LinkRefl(d, s', |s|);
      }
    }
  }

  /** A finding near one member of a group is linked to them all. */
  lemma LinkedToGroup(d: int, s: seq<Span>, owner: seq<nat>, f: Span, k: nat, i: nat)
    requires SameGroupLinked(d, s, owner) && Contact(d, s, owner, k, f) && i < |s| && owner[i] == k
    ensures Linked(d, s + [f], i, |s|)
  {
    var m :| 0 <= m < |s| && owner[m] == k && Near(d, s[m], f);
    assert Linked(d, s, i, m);
    LinkMono(d, s, f, i, m);
    LinkTrans(d, s + [f], i, m, |s|);
  }

  lemma JoinLinked(d: int, s: seq<Span>, owner: seq<nat>, f: Span, k: nat)
    requires SameGroupLinked(d, s, owner) && Contact(d, s, owner, k, f)
    ensures SameGroupLinked(d, s + [f], owner + [k])
  {
    var s', owner' := s + [f], owner + [k];
    forall i, j | 0 <= i < |s'| && 0 <= j < |s'| && owner'[i] == owner'[j] ensures Linked(d, s', i, j) {
      if i < |s| && j < |s| {
        LinkMono(d, s, f, i, j);
      } else if i < |s| {
        LinkedToGroup(d, s, owner, f, k, i);
      } else if j < |s| {
        LinkedToGroup(d, s, owner, f, k, j);
        LinkSym(d, s', j, i);
      } else {
        LinkRefl(d, s', |s|);
      }
    }
  }
}
