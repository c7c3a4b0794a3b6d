/**
 Whole runs of the canned-response registry. Each staged entry gets a number, in staging
 order, and the history remembers what became of it.
 */
module CannedRuns {
  import opened Wrappers
  import opened CannedResponses

  datatype Staged = Staged(session: string, response: Canned)

  /** The pools, the numbers of their entries place by place, every entry ever staged, how
      often each was served, and which were cleared away. */
  datatype History = History(pools: Pools, tags: map<string, seq<nat>>,
                             staged: seq<Staged>, served: seq<nat>, cleared: set<nat>)

  const START := History(map[], map[], [], [], {})

  function TagsOf(tags: map<string, seq<nat>>, session: string): seq<nat> {
    if session in tags then tags[session] else []
  }

  function AfterAdd(h: History, session: string, c: Canned): History {
    History(h.pools[session := PoolOf(h.pools, session) + [c]],
            h.tags[session := TagsOf(h.tags, session) + [|h.staged|]],
            h.staged + [Staged(session, c)], h.served + [0], h.cleared)
  }

  function AfterClear(h: History, session: string): History {
    h.(pools := h.pools - {session}, tags := h.tags - {session},
       cleared := h.cleared + set t | t in TagsOf(h.tags, session))
  }

  function AfterClearAll(h: History): History {
    h.(pools := map[], tags := map[],
       cleared := h.cleared + set s, i | s in h.tags && 0 <= i < |h.tags[s]| :: h.tags[s][i])
  }

  function AfterReplace(h: History, responses: seq<Canned>): History {
    if responses == [] then AfterClearAll(h)
    else AfterAdd(AfterReplace(h, responses[..|responses| - 1]), "", responses[|responses| - 1])
  }

  function AfterServing(h: History, session: string, i: nat): History
    requires i < |PoolOf(h.pools, session)| && |TagsOf(h.tags, session)| == |PoolOf(h.pools, session)|
  {
    var tags := TagsOf(h.tags, session);
    var left := if PoolOf(h.pools, session)[i].max == 1 then Without(tags, i) else tags;
    h.(pools := Served(h.pools, session, i),
       tags := StoredTags(h.tags, session, left),
       served := if tags[i] < |h.served| then h.served[tags[i] := h.served[tags[i]] + 1] else h.served)
  }

  // ----- The invariant -----

  /** A limited entry holds what is left of its limit, an unlimited one is as it was staged. */
  predicate EntryOk(e: Canned, original: Canned, served: nat) {
    if original.max > 0 then e == original.(max := original.max - served) && e.max > 0
    else e == original
  }

  predicate Increasing(tags: seq<nat>) {
    forall i, j :: 0 <= i < j < |tags| ==> tags[i] < tags[j]
  }

  ghost predicate PoolOk(session: string, pool: seq<Canned>, tags: seq<nat>, staged: seq<Staged>, served: seq<nat>) {
    && pool != [] && |tags| == |pool| && |served| == |staged| && Increasing(tags)
    && forall i :: 0 <= i < |tags| ==>
         && tags[i] < |staged| && staged[tags[i]].session == session
         && EntryOk(pool[i], staged[tags[i]].response, served[tags[i]])
  }

  predicate InPool(h: History, t: nat) {
    t < |h.staged| && t in TagsOf(h.tags, h.staged[t].session)
  }

  /** Every entry is still in its pool, or cleared away, or was served as often as it may be. */
  predicate Accounted(h: History, t: nat) {
    && t < |h.staged| && t < |h.served|
    && (InPool(h, t) ==> t !in h.cleared)
    && (!InPool(h, t) && t !in h.cleared ==> h.staged[t].response.max > 0 && h.served[t] == h.staged[t].response.max)
    && (h.staged[t].response.max > 0 ==> h.served[t] <= h.staged[t].response.max)
  }

  ghost predicate Inv(h: History) {
    && h.tags.Keys == h.pools.Keys && |h.served| == |h.staged|
    && (forall s :: s in h.pools ==> PoolOk(s, h.pools[s], h.tags[s], h.staged, h.served))
    && (forall t :: 0 <= t < |h.staged| ==> Accounted(h, t))
    && (forall t :: t in h.cleared ==> t < |h.staged|)
  }

  function After(fold: Fold, h: History, op: Op): History
    requires Inv(h)
  {
    match op
    case Add(session, c) => AfterAdd(h, session, c)
    case ClearSession(session) => AfterClear(h, session)
    case ClearAll => AfterClearAll(h)
    case Replace(responses) => AfterReplace(h, responses)
    case Match(session, req) =>
      var a := Answering(fold, h.pools, session, req);
      if a.None? then h else AfterServing(h, a.value, First(fold, PoolOf(h.pools, a.value), req))
  }

  lemma AddKeepsInv(h: History, session: string, c: Canned)
    requires Inv(h)
    ensures Inv(AfterAdd(h, session, c))
  {
    var h' := AfterAdd(h, session, c);
    AddKeepsPools(h, session, c);
    hide PoolOk;
    forall t | 0 <= t < |h'.staged| ensures Accounted(h', t) {
      AddKeepsAccounts(h, session, c, t);
    }
  }

  lemma AddKeepsAccounts(h: History, session: string, c: Canned, t: nat)
    requires h.tags.Keys == h.pools.Keys && |h.served| == |h.staged|
    requires t < |h.staged| ==> Accounted(h, t)
    requires t == |h.staged| ==> t !in h.cleared
    requires t <= |h.staged|
    ensures Accounted(AfterAdd(h, session, c), t)
  {
    var h' := AfterAdd(h, session, c);
    assert h'.tags[session] == TagsOf(h.tags, session) + [|h.staged|];
    assert InPool(h', t) <==> t == |h.staged| || InPool(h, t);
  }

  lemma AddKeepsPools(h: History, session: string, c: Canned)
    requires Inv(h)
    ensures var h' := AfterAdd(h, session, c);
            forall s :: s in h'.pools ==> PoolOk(s, h'.pools[s], h'.tags[s], h'.staged, h'.served)
  {
    hide Accounted;
    var h' := AfterAdd(h, session, c);
    forall s | s in h'.pools ensures PoolOk(s, h'.pools[s], h'.tags[s], h'.staged, h'.served) {
      if s in h.pools {
        assert PoolOk(s, h.pools[s], h.tags[s], h.staged, h.served);
        AddKeepsPool(s, h.pools[s], h.tags[s], h.staged, h.served, Staged(session, c));
      }
    }
  }

  lemma AddKeepsPool(s: string, pool: seq<Canned>, tags: seq<nat>, staged: seq<Staged>, served: seq<nat>, e: Staged)
    requires PoolOk(s, pool, tags, staged, served)
    ensures PoolOk(s, pool, tags, staged + [e], served + [0])
    ensures e.session == s ==>
              PoolOk(s, pool + [e.response], tags + [|staged|], staged + [e], served + [0])
  {
    hide EntryOk;
    assert EntryOk(e.response, e.response, 0) by { FreshEntryOk(e.response); }
  }

  lemma FreshEntryOk(c: Canned)
    ensures EntryOk(c, c, 0)
  {
  }

  lemma ClearKeepsInv(h: History, session: string)
    requires Inv(h)
    ensures Inv(AfterClear(h, session))
  {
    var h' := AfterClear(h, session);
    forall t | 0 <= t < |h'.staged| ensures Accounted(h', t) {
      assert Accounted(h, t);
    }
  }

  lemma {:induction false} ReplaceKeepsInv(h: History, responses: seq<Canned>)
    requires Inv(h)
    ensures Inv(AfterReplace(h, responses))
  {
    hide Inv, AfterAdd, AfterClearAll;
    if responses == [] {
      ClearAllKeepsInv(h);
    } else {
      var n := |responses| - 1;
      ReplaceKeepsInv(h, responses[..n]);
      AddKeepsInv(AfterReplace(h, responses[..n]), "", responses[n]);
    }
  }

  /** Replacing is clearing everything and staging the new entries globally, one by one. */
  lemma {:induction false} ReplaceIsClearAndAdd(h: History, responses: seq<Canned>)
    ensures AfterReplace(h, responses).pools == Stored(map[], "", responses)
  {
    if responses != [] {
      var n := |responses| - 1;
      ReplaceIsClearAndAdd(h, responses[..n]);
      assert responses == responses[..n] + [responses[n]];
    }
  }

  /** Each step of a run changes the pools as the registry's own operation does. */
  lemma PoolsFollowRegistry(fold: Fold, h: History, op: Op)
    requires Inv(h)
    ensures After(fold, h, op).pools == PoolsAfter(fold, h.pools, op)
  {
    hide Inv;
    if op.Replace? {
      ReplaceIsClearAndAdd(h, op.responses);
    }
  }

  /** Clearing a session empties its pool and no other; clearing all empties every one; and what is
      added comes last in its own pool. */
  lemma PoolsTouched(fold: Fold, h: History, session: string, c: Canned, s: string)
    requires Inv(h)
    ensures PoolOf(After(fold, h, ClearSession(session)).pools, s) ==
            if s == session then [] else PoolOf(h.pools, s)
    ensures PoolOf(After(fold, h, ClearAll).pools, s) == []
    ensures PoolOf(After(fold, h, Add(session, c)).pools, s) ==
            if s == session then PoolOf(h.pools, s) + [c] else PoolOf(h.pools, s)
  {
    hide Inv;
  }

  lemma ClearAllKeepsInv(h: History)
    requires Inv(h)
    ensures Inv(AfterClearAll(h))
  {
    var h' := AfterClearAll(h);
    forall t | 0 <= t < |h.staged| ensures Accounted(h', t) {
      assert Accounted(h, t);
    }
    forall t | t in h'.cleared ensures t < |h.staged| {
      if t !in h.cleared {
        var s, i :| s in h.tags && 0 <= i < |h.tags[s]| && h.tags[s][i] == t;
        assert PoolOk(s, h.pools[s], h.tags[s], h.staged, h.served);
      }
    }
  }

  lemma SpentPoolOk(session: string, pool: seq<Canned>, tags: seq<nat>, staged: seq<Staged>, served: seq<nat>, i: nat)
    requires PoolOk(session, pool, tags, staged, served) && i < |pool| && |pool| > 1
    ensures PoolOk(session, Without(pool, i), Without(tags, i), staged, served[tags[i] := served[tags[i]] + 1])
  {
    hide EntryOk;
    var served' := served[tags[i] := served[tags[i]] + 1];
    var left, rest := Without(tags, i), Without(pool, i);
    forall j | 0 <= j < |left|
      ensures left[j] < |staged| && staged[left[j]].session == session
      ensures EntryOk(rest[j], staged[left[j]].response, served'[left[j]])
    {
      var k := if j < i then j else j + 1;
      assert left[j] == tags[k] && rest[j] == pool[k];
    }
  }

  lemma CountedPoolOk(session: string, pool: seq<Canned>, tags: seq<nat>, staged: seq<Staged>, served: seq<nat>,
                      i: nat, e: Canned)
    requires PoolOk(session, pool, tags, staged, served) && i < |pool| && pool[i].max != 1
    requires e == if pool[i].max <= 0 then pool[i] else pool[i].(max := pool[i].max - 1)
    ensures PoolOk(session, pool[i := e], tags, staged, served[tags[i] := served[tags[i]] + 1])
  {
    ServedEntryOk(pool[i], staged[tags[i]].response, served[tags[i]], e);
    hide EntryOk;
  }

  /** The pool that answered is in order again. */
  lemma ServedPoolOk(session: string, pool: seq<Canned>, tags: seq<nat>, staged: seq<Staged>, served: seq<nat>, i: nat)
    requires PoolOk(session, pool, tags, staged, served) && i < |pool|
    ensures var left := if pool[i].max == 1 then Without(tags, i) else tags;
            && |Popped(pool, i)| == |left|
            && (left != [] ==> PoolOk(session, Popped(pool, i), left, staged, served[tags[i] := served[tags[i]] + 1]))
  {
    if pool[i].max == 1 {
      if |pool| > 1 {
        SpentPoolOk(session, pool, tags, staged, served, i);
      }
    } else {
      var e := if pool[i].max <= 0 then pool[i] else pool[i].(max := pool[i].max - 1);
      CountedPoolOk(session, pool, tags, staged, served, i, e);
      hide PoolOk;
      assert Popped(pool, i) == pool[i := e];
    }
  }

  lemma ServedEntryOk(e: Canned, original: Canned, served: nat, e': Canned)
    requires EntryOk(e, original, served) && e.max != 1
    requires e' == if e.max <= 0 then e else e.(max := e.max - 1)
    ensures EntryOk(e', original, served + 1)
  {
  }

  lemma OtherPoolOk(session: string, pool: seq<Canned>, tags: seq<nat>, staged: seq<Staged>, served: seq<nat>, t: nat)
    requires PoolOk(session, pool, tags, staged, served) && t < |staged| && staged[t].session != session
    ensures PoolOk(session, pool, tags, staged, served[t := served[t] + 1])
  {
    hide EntryOk;
  }

  function StoredTags(tags: map<string, seq<nat>>, session: string, left: seq<nat>): map<string, seq<nat>> {
    if left == [] then tags - {session} else tags[session := left]
  }

  lemma StoredPoolsOk(pools: Pools, tags: map<string, seq<nat>>, session: string, rest: seq<Canned>, left: seq<nat>,
                      staged: seq<Staged>, served: seq<nat>)
    requires tags.Keys == pools.Keys && |rest| == |left|
    requires left != [] ==> PoolOk(session, rest, left, staged, served)
    requires forall s :: s in pools && s != session ==> PoolOk(s, pools[s], tags[s], staged, served)
    ensures var pools', tags' := Stored(pools, session, rest), StoredTags(tags, session, left);
            && tags'.Keys == pools'.Keys
            && forall s :: s in pools' ==> PoolOk(s, pools'[s], tags'[s], staged, served)
  {
    hide PoolOk;
  }

  lemma OtherPoolsOk(h: History, session: string, t: nat)
    requires Inv(h) && t < |h.staged| && h.staged[t].session == session
    ensures forall s :: s in h.pools && s != session ==>
              PoolOk(s, h.pools[s], h.tags[s], h.staged, h.served[t := h.served[t] + 1])
  {
    hide EntryOk, Accounted, Increasing;
    forall s | s in h.pools && s != session
      ensures PoolOk(s, h.pools[s], h.tags[s], h.staged, h.served[t := h.served[t] + 1])
    {
      OtherPoolOk(s, h.pools[s], h.tags[s], h.staged, h.served, t);
    }
  }

  lemma TagOf(h: History, session: string, i: nat)
    requires Inv(h) && i < |PoolOf(h.pools, session)|
    ensures session in h.pools && h.pools.Keys == h.tags.Keys && |h.served| == |h.staged|
    ensures PoolOf(h.pools, session) == h.pools[session] && TagsOf(h.tags, session) == h.tags[session]
    ensures |h.tags[session]| == |h.pools[session]| && h.tags[session][i] < |h.staged|
    ensures h.staged[h.tags[session][i]].session == session
    ensures PoolOk(session, h.pools[session], h.tags[session], h.staged, h.served)
  {
    assert PoolOk(session, h.pools[session], h.tags[session], h.staged, h.served);
  }

  lemma ServingIs(h: History, session: string, i: nat)
    requires session in h.pools && session in h.tags && i < |h.pools[session]| == |h.tags[session]|
    requires h.tags[session][i] < |h.served|
    ensures var pool, tags := h.pools[session], h.tags[session];
            var left := if pool[i].max == 1 then Without(tags, i) else tags;
            PoolOf(h.pools, session) == pool && TagsOf(h.tags, session) == tags &&
            AfterServing(h, session, i) ==
            h.(pools := Stored(h.pools, session, Popped(pool, i)),
               tags := StoredTags(h.tags, session, left),
               served := h.served[tags[i] := h.served[tags[i]] + 1])
  {
  }

  lemma PoolsAfterServing(h: History, session: string, i: nat)
    requires Inv(h) && i < |PoolOf(h.pools, session)|
    ensures |TagsOf(h.tags, session)| == |PoolOf(h.pools, session)|
    ensures var h' := AfterServing(h, session, i);
            && h'.tags.Keys == h'.pools.Keys && |h'.served| == |h'.staged|
            && forall s :: s in h'.pools ==> PoolOk(s, h'.pools[s], h'.tags[s], h'.staged, h'.served)
  {
    hide *;
    TagOf(h, session, i);
    var pool, tags := h.pools[session], h.tags[session];
    var t := tags[i];
    var served := h.served[t := h.served[t] + 1];
    var rest, left := Popped(pool, i), if pool[i].max == 1 then Without(tags, i) else tags;
    ServingIs(h, session, i);
    OtherPoolsOk(h, session, t);
    ServedPoolOk(session, pool, tags, h.staged, h.served, i);
    StoredPoolsOk(h.pools, h.tags, session, rest, left, h.staged, served);
  }

  lemma WithoutMembers(tags: seq<nat>, i: nat, u: nat)
    requires Increasing(tags) && i < |tags|
    ensures u in Without(tags, i) <==> u in tags && u != tags[i]
  {
    var left := Without(tags, i);
    if u in tags && u != tags[i] {
      var k :| 0 <= k < |tags| && tags[k] == u;
      assert left[if k < i then k else k - 1] == u;
    }
  }

  lemma AccountedAfterServing(h: History, session: string, i: nat, u: nat)
    requires Inv(h) && i < |PoolOf(h.pools, session)| && u < |h.staged|
    requires |TagsOf(h.tags, session)| == |PoolOf(h.pools, session)|
    ensures Accounted(AfterServing(h, session, i), u)
  {
    var pool, tags := h.pools[session], h.tags[session];
    assert PoolOk(session, pool, tags, h.staged, h.served);
    var t := tags[i];
    assert Accounted(h, u) && Accounted(h, t) && EntryOk(pool[i], h.staged[t].response, h.served[t]);
    assert InPool(h, t);
    WithoutMembers(tags, i, u);
    hide PoolOk, Inv;
  }

  lemma ServeKeepsInv(h: History, session: string, i: nat)
    requires Inv(h) && i < |PoolOf(h.pools, session)|
    ensures |TagsOf(h.tags, session)| == |PoolOf(h.pools, session)|
    ensures Inv(AfterServing(h, session, i))
  {
    PoolsAfterServing(h, session, i);
    var h' := AfterServing(h, session, i);
    assert h'.staged == h.staged && h'.cleared == h.cleared;
    hide PoolOk, Accounted;
    forall u | 0 <= u < |h'.staged| ensures Accounted(h', u) {
      AccountedAfterServing(h, session, i, u);
    }
  }

  // ----- Runs -----

  lemma StepKeepsInv(fold: Fold, h: History, op: Op)
    requires Inv(h)
    ensures Inv(After(fold, h, op))
  {
    hide Inv, AfterAdd, AfterClear, AfterClearAll, AfterServing;
    match op
    case Add(session, c) => AddKeepsInv(h, session, c);
    case ClearSession(session) => ClearKeepsInv(h, session);
    case ClearAll => ClearAllKeepsInv(h);
    case Replace(responses) => ReplaceKeepsInv(h, responses);
    case Match(session, req) =>
      var a := Answering(fold, h.pools, session, req);
      if a.Some? {
        ServeKeepsInv(h, a.value, First(fold, PoolOf(h.pools, a.value), req));
      }
  }

  /** The history of a run, from the empty registry. */
  ghost function Run(fold: Fold, ops: seq<Op>): (h: History)
    ensures Inv(h)
  {
    if ops == [] then START
    else
      var before, op := Run(fold, ops[..|ops| - 1]), ops[|ops| - 1];
      StepKeepsInv(fold, before, op);
      After(fold, before, op)
  }

  /** Where the t-th staged entry stands in its pool. */
  ghost predicate StandsAt(h: History, t: nat, i: nat) {
    && t < |h.staged|
    && i < |TagsOf(h.tags, h.staged[t].session)| && TagsOf(h.tags, h.staged[t].session)[i] == t
  }

  /** In every reachable state: an entry limited to n > 0 servings has been served at most n
      times; as long as it stays staged, what is left of its limit and its servings add up to
      n; and it leaves its pool only by being cleared or by using up its limit. */
  lemma ServingsConserved(fold: Fold, ops: seq<Op>, t: nat)
    requires t < |Run(fold, ops).staged|
    ensures var h := Run(fold, ops);
            var original := h.staged[t].response;
            && |h.served| == |h.staged|
            && (original.max > 0 ==> h.served[t] <= original.max)
            && (forall i: nat :: StandsAt(h, t, i) ==>
                  && i < |PoolOf(h.pools, h.staged[t].session)|
                  && EntryOk(PoolOf(h.pools, h.staged[t].session)[i], original, h.served[t]))
            && ((forall i: nat :: !StandsAt(h, t, i)) && t !in h.cleared ==>
                  original.max > 0 && h.served[t] == original.max)
  {
    var h := Run(fold, ops);
    assert Accounted(h, t);
    var s := h.staged[t].session;
    if s in h.pools {
      assert PoolOk(s, h.pools[s], h.tags[s], h.staged, h.served);
    }
    if InPool(h, t) {
      var i :| 0 <= i < |h.tags[s]| && h.tags[s][i] == t;
      assert StandsAt(h, t, i);
    }
  }

  /** The order of what remains is the order it was staged in. */
  lemma OrderKept(fold: Fold, ops: seq<Op>, session: string)
    ensures var h := Run(fold, ops);
            && Increasing(TagsOf(h.tags, session))
            && |TagsOf(h.tags, session)| == |PoolOf(h.pools, session)|
            && (session in h.pools ==> h.pools[session] != [])
            && forall i :: 0 <= i < |TagsOf(h.tags, session)| ==>
                 var t := TagsOf(h.tags, session)[i]; t < |h.staged| && h.staged[t].session == session
  {
    var h := Run(fold, ops);
    if session in h.pools {
      assert PoolOk(session, h.pools[session], h.tags[session], h.staged, h.served);
    }
  }

  /** Each criterion that is given is met: method and path up to letter case, and somewhere in the body
      the text looked for. */
  ghost predicate Meets(fold: Fold, c: Canned, req: Request) {
    && (c.verb == "" || fold(c.verb, req.verb))
    && (c.path == "" || fold(c.path, req.path))
    && (c.contains == "" || exists before, after :: req.body == before + c.contains + after)
  }

  lemma MatchesMeets(fold: Fold, c: Canned, req: Request)
    ensures Matches(fold, c, req) <==> Meets(fold, c, req)
  {
    var part, body := c.contains, req.body;
    if i :| 0 <= i <= |body| - |part| && body[i..][..|part|] == part {
      assert body == body[..i] + part + body[i + |part|..];
    }
    if before, after :| body == before + part + after {
      var i := |before|;
      assert body[i..][..|part|] == part;
    }
  }

  ghost predicate NoMatch(fold: Fold, pools: Pools, session: string, req: Request) {
    forall c :: c in PoolOf(pools, session) ==> !Meets(fold, c, req)
  }

  /** The session's pool answers when it has a match, the global pool only on a miss there. */
  lemma AnsweringExact(fold: Fold, pools: Pools, session: string, req: Request)
    ensures var a := Answering(fold, pools, session, req);
            && (a == Some(session) || a == Some("") || a == None)
            && (a.None? <==> NoMatch(fold, pools, session, req) && NoMatch(fold, pools, "", req))
            && (a.Some? && a.value != session ==> NoMatch(fold, pools, session, req))
            && (a.Some? ==> First(fold, PoolOf(pools, a.value), req) < |PoolOf(pools, a.value)|)
  {
    hide Matches, Meets, First;
    NoMatchInPool(fold, PoolOf(pools, session), req);
    NoMatchInPool(fold, PoolOf(pools, ""), req);
  }

  /** A match serves the earliest staged entry that matches in the pool that answers, touches
      no other pool, and counts no other serving. */
  lemma MatchServesOldest(fold: Fold, h: History, session: string, req: Request)
    requires Inv(h)
    ensures var h' := After(fold, h, Match(session, req));
            var a := Answering(fold, h.pools, session, req);
            if a.None? then h' == h
            else
              && (forall s :: s != a.value ==> PoolOf(h'.pools, s) == PoolOf(h.pools, s))
              && exists i: nat :: ServedFirst(fold, h, h', a.value, req, i)
  {
    var a := Answering(fold, h.pools, session, req);
    AnsweringExact(fold, h.pools, session, req);
    if a.Some? {
      var i := First(fold, PoolOf(h.pools, a.value), req);
      FirstIsOldest(fold, h, a.value, req);
      var h' := After(fold, h, Match(session, req));
      assert h' == AfterServing(h, a.value, i);
      hide *;
      OthersUntouched(h, a.value, i);
      assert ServedFirst(fold, h, h', a.value, req, i);
    }
  }

  lemma OthersUntouched(h: History, session: string, i: nat)
    requires i < |PoolOf(h.pools, session)| && |TagsOf(h.tags, session)| == |PoolOf(h.pools, session)|
    ensures forall s :: s != session ==> PoolOf(AfterServing(h, session, i).pools, s) == PoolOf(h.pools, s)
  {
  }

  lemma NoMatchInPool(fold: Fold, pool: seq<Canned>, req: Request)
    ensures First(fold, pool, req) == |pool| <==> forall c :: c in pool ==> !Meets(fold, c, req)
  {
    forall c ensures Matches(fold, c, req) <==> Meets(fold, c, req) {
      MatchesMeets(fold, c, req);
    }
    hide Matches, Meets;
    var i := First(fold, pool, req);
    if i < |pool| {
      assert pool[i] in pool;
    }
  }

  /** The i-th entry of the pool was served, and every other match there was staged later. */
  ghost predicate ServedFirst(fold: Fold, h: History, h': History, session: string, req: Request, i: nat) {
    var pool, tags := PoolOf(h.pools, session), TagsOf(h.tags, session);
    && i < |pool| && |tags| == |pool| && tags[i] < |h.served|
    && Meets(fold, pool[i], req)
    && (forall j :: 0 <= j < |pool| && Meets(fold, pool[j], req) ==> tags[i] <= tags[j])
    && h'.served == h.served[tags[i] := h.served[tags[i]] + 1]
  }

  lemma FirstIsOldest(fold: Fold, h: History, session: string, req: Request)
    requires Inv(h) && First(fold, PoolOf(h.pools, session), req) < |PoolOf(h.pools, session)|
    ensures var i := First(fold, PoolOf(h.pools, session), req);
            && |TagsOf(h.tags, session)| == |PoolOf(h.pools, session)|
            && ServedFirst(fold, h, AfterServing(h, session, i), session, req, i)
  {
    forall c ensures Matches(fold, c, req) <==> Meets(fold, c, req) {
      MatchesMeets(fold, c, req);
    }
    assert PoolOk(session, h.pools[session], h.tags[session], h.staged, h.served);
    hide EntryOk, Matches, Meets, Accounted;
  }
}
