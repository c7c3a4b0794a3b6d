/** Pools of canned responses, one a session, with pop semantics and a global fall-back. */
module CannedResponses {
  import opened Wrappers

  /** A staged response: its three criteria, how often it may be served (not positive: always),
      and what it answers. */
  datatype Canned = Canned(verb: string, path: string, contains: string, max: int, answer: string)

  datatype Request = Request(verb: string, path: string, body: string)

  /** Equality up to letter case. */
  type Fold = (string, string) -> bool

  function Contains(body: string, part: string): (found: bool)
    ensures found <==> exists i :: 0 <= i <= |body| - |part| && body[i..][..|part|] == part
  {
    if |body| < |part| then false
    else if body[..|part|] == part then
      assert body[0..][..|part|] == part;
      true
    else
      var found := if body == "" then false else Contains(body[1..], part);
      assert body != "" ==> forall i :: 0 <= i <= |body| - 1 - |part| ==> body[1..][i..] == body[i + 1..];
      assert forall i :: 0 < i <= |body| - |part| ==> body[i..] == body[1..][i - 1..];
      assert body[0..] == body;
      found
  }

  function MatchesField(fold: Fold, criterion: string, actual: string): bool {
    criterion == "" || fold(criterion, actual)
  }

  function Matches(fold: Fold, c: Canned, req: Request): bool {
    && MatchesField(fold, c.verb, req.verb)
    && MatchesField(fold, c.path, req.path)
    && (c.contains == "" || Contains(req.body, c.contains))
  }

  type Pools = map<string, seq<Canned>>

  function PoolOf(pools: Pools, session: string): seq<Canned> {
    if session in pools then pools[session] else []
  }

  /** The first entry that matches. */
  function First(fold: Fold, pool: seq<Canned>, req: Request): (i: nat)
    ensures i <= |pool| && (i < |pool| ==> Matches(fold, pool[i], req))
    ensures forall j :: 0 <= j < i ==> !Matches(fold, pool[j], req)
  {
    if pool == [] || Matches(fold, pool[0], req) then 0 else 1 + First(fold, pool[1..], req)
  }

  /** The pool once its i-th entry has been served. */
  function Popped(pool: seq<Canned>, i: nat): seq<Canned>
    requires i < |pool|
  {
    var c := pool[i];
    if c.max <= 0 then pool
    else if c.max == 1 then Without(pool, i)
    else pool[i := c.(max := c.max - 1)]
  }

  function Stored(pools: Pools, session: string, pool: seq<Canned>): Pools {
    if pool == [] then pools - {session} else pools[session := pool]
  }

  function Served(pools: Pools, session: string, i: nat): Pools
    requires i < |PoolOf(pools, session)|
  {
    Stored(pools, session, Popped(PoolOf(pools, session), i))
  }

  /** The pool that answers: the session's own when it has a match, else the global one. */
  function Answering(fold: Fold, pools: Pools, session: string, req: Request): Option<string> {
    if First(fold, PoolOf(pools, session), req) < |PoolOf(pools, session)| then Some(session)
    else if session != "" && First(fold, PoolOf(pools, ""), req) < |PoolOf(pools, "")| then Some("")
    else None
  }

  /** What a caller of the registry may ask for. */
  datatype Op =
    | Add(session: string, response: Canned)
    | ClearSession(session: string)
    | ClearAll
    | Replace(responses: seq<Canned>)
    | Match(session: string, req: Request)

  /** The pools that an operation leaves. */
  function PoolsAfter(fold: Fold, pools: Pools, op: Op): Pools {
    match op
    case Add(session, c) => pools[session := PoolOf(pools, session) + [c]]
    case ClearSession(session) => pools - {session}
    case ClearAll => map[]
    case Replace(responses) => Stored(map[], "", responses)
    case Match(session, req) =>
      var a := Answering(fold, pools, session, req);
      if a.None? then pools else Served(pools, a.value, First(fold, PoolOf(pools, a.value), req))
  }

  // ----- Slices: storage that a pool fills up to its length -----

  datatype Slice = Slice(data: array<Canned>, len: nat) {
    predicate Fits() { len <= data.Length }

    function Entries(): seq<Canned>
      requires Fits()
      reads data
    {
      data[..len]
    }
  }

  /** One more entry, in the storage at hand if there is room behind the last one. */
  method Append(s: Slice, c: Canned) returns (grown: Slice)
    requires s.Fits()
    modifies s.data
    ensures grown.Fits() && if s.len < s.data.Length then grown.data == s.data else fresh(grown.data)
    ensures grown.Entries() == old(s.Entries()) + [c]
  {
    var data := s.data;
    if s.len == data.Length {
      data := new Canned[2 * s.len + 1];
      for i := 0 to s.len
        invariant data[..i] == old(s.data[..i])
        invariant s.data[..] == old(s.data[..])
      {
        data[i] := s.data[i];
      }
    }
    data[s.len] := c;
    grown := Slice(data, s.len + 1);
  }

  /** A slice of its own with the same entries. */
  method Copy(entries: seq<Canned>) returns (s: Slice)
    ensures s.Fits() && fresh(s.data) && s.Entries() == entries
  {
    var data := new Canned[|entries|];
    for i := 0 to |entries|
      invariant data[..i] == entries[..i]
    {
      data[i] := entries[i];
    }
    s := Slice(data, |entries|);
  }

  function Without<T>(s: seq<T>, i: nat): seq<T>
    requires i < |s|
  {
    s[..i] + s[i + 1..]
  }

  lemma WithoutAt<T>(s: seq<T>, i: nat, left: seq<T>)
    requires i < |s| && |left| == |s| - 1
    requires forall j :: 0 <= j < i ==> left[j] == s[j]
    requires forall j :: i <= j < |left| ==> left[j] == s[j + 1]
    ensures left == Without(s, i)
  {
    assert forall j :: 0 <= j < |left| ==> left[j] == Without(s, i)[j];
  }

  /** The removal as it happens in the slice: the entries behind move up one place, in order,
      and the storage past the shortened slice is left as it was. */
  method RemoveInPlace(s: Slice, i: nat) returns (left: Slice)
    requires s.Fits() && i < s.len
    modifies s.data
    ensures left == Slice(s.data, s.len - 1) && left.Entries() == Without(old(s.Entries()), i)
    ensures s.data[left.len..] == old(s.data[s.len - 1..])
  {
    var pool := s.data;
    ghost var was := pool[..];
    var k := i;
    while k + 1 < s.len
      invariant i <= k < s.len
      invariant forall j :: 0 <= j < pool.Length && !(i <= j < k) ==> pool[j] == was[j]
      invariant forall j :: i <= j < k ==> pool[j] == was[j + 1]
    {
      pool[k] := pool[k + 1];
      k := k + 1;
    }
    left := Slice(pool, s.len - 1);
    WithoutAt(was[..s.len], i, pool[..left.len]);
  }

  // ----- The registry -----

  class Registry {
    var sessions: map<string, Slice>
    const fold: Fold

    ghost function Storage(): set<array<Canned>>
      reads this
    {
      set s | s in sessions :: sessions[s].data
    }

    /** No two pools share their storage. */
    ghost predicate Valid()
      reads this
    {
      && (forall s :: s in sessions ==> sessions[s].Fits())
      && (forall s, t :: s in sessions && t in sessions && sessions[s].data == sessions[t].data ==> s == t)
    }

    ghost function Contents(): Pools
      requires Valid()
      reads this, Storage()
    {
      map s | s in sessions :: sessions[s].Entries()
    }

    constructor (fold: Fold)
      ensures Valid() && Contents() == map[] && this.fold == fold
    {
      sessions := map[];
      this.fold := fold;
    }

    /** A write to one pool's storage reaches no other pool. */
    twostate lemma OthersKept(session: string)
      requires old(Valid()) && Valid() && sessions == old(sessions)
      requires forall s :: s in sessions && s != session ==> sessions[s].Entries() == old(sessions[s].Entries())
      ensures Contents() - {session} == old(Contents()) - {session}
    {
    }

    method Store(session: string, pool: Slice)
      requires Valid() && pool.Fits() && forall s :: s in sessions && s != session ==> sessions[s].data != pool.data
      modifies this
      ensures Valid() && sessions == old(sessions)[session := pool]
      ensures Contents() == old(Contents())[session := old(pool.Entries())]
    {
      sessions := sessions[session := pool];
      assert forall s :: s in sessions && s != session ==> s in old(sessions) && sessions[s] == old(sessions[s]);
    }

    method Add(session: string, c: Canned)
      requires Valid()
      modifies this, Storage()
      ensures Valid() && fresh(Storage() - old(Storage()))
      ensures Contents() == PoolsAfter(fold, old(Contents()), Op.Add(session, c))
    {
      var none := new Canned[0];
      var pool := Append(if session in sessions then sessions[session] else Slice(none, 0), c);
      OthersKept(session);
      SameApart(Contents(), old(Contents()), session, pool.Entries());
      Store(session, pool);
    }

    method ClearSession(session: string)
      requires Valid()
      modifies this
      ensures Valid() && Storage() <= old(Storage())
      ensures Contents() == PoolsAfter(fold, old(Contents()), Op.ClearSession(session))
    {
      sessions := sessions - {session};
    }

    method ClearAll()
      requires Valid()
      modifies this
      ensures Valid() && Storage() == {}
      ensures Contents() == PoolsAfter(fold, old(Contents()), Op.ClearAll)
    {
      sessions := map[];
    }

    method Replace(responses: seq<Canned>)
      requires Valid()
      modifies this
      ensures Valid() && fresh(Storage())
      ensures Contents() == PoolsAfter(fold, old(Contents()), Op.Replace(responses))
    {
      sessions := map[];
      if |responses| > 0 {
        var pool := Copy(responses);
        sessions := sessions["" := pool];
      }
    }

    method Match(session: string, req: Request) returns (c: Option<Canned>)
      requires Valid()
      modifies this, Storage()
      ensures Valid() && Storage() <= old(Storage())
      ensures Contents() == PoolsAfter(fold, old(Contents()), Op.Match(session, req))
      ensures var a := Answering(fold, old(Contents()), session, req);
              if a.None? then c.None?
              else
                var pool := PoolOf(old(Contents()), a.value);
                c == Some(pool[First(fold, pool, req)])
    {
      c := MatchInPool(session, req);
      if c.Some? {
        return;
      }
      if session != "" {
        c := MatchInPool("", req);
      }
    }

    method MatchInPool(session: string, req: Request) returns (c: Option<Canned>)
      requires Valid()
      modifies this, Storage()
      ensures Valid() && Storage() <= old(Storage())
      ensures var pool := PoolOf(old(Contents()), session);
              var i := First(fold, pool, req);
              if i == |pool| then c.None? && Contents() == old(Contents())
              else c == Some(pool[i]) && Contents() == Served(old(Contents()), session, i)
    {
      if session !in sessions {
        return None;
      }
      var pool := sessions[session];
      ghost var entries := pool.Entries();
      ghost var first := First(fold, entries, req);
      var i := 0;
      while i < pool.len
        invariant 0 <= i <= first
      {
        var e := pool.data[i];
        if !MatchesField(fold, e.verb, req.verb) {
          i := i + 1;
          continue;
        }
        if !MatchesField(fold, e.path, req.path) {
          i := i + 1;
          continue;
        }
        if e.contains != "" && !Contains(req.body, e.contains) {
          i := i + 1;
          continue;
        }
        Pop(session, i);
        return Some(e);
      }
      return None;
    }

    /** The bookkeeping of a match: a limited entry is counted down, or removed at its last serving. */
    method Pop(session: string, i: nat)
      requires Valid() && session in sessions && i < sessions[session].len
      modifies this, Storage()
      ensures Valid() && Storage() <= old(Storage())
      ensures Contents() == Served(old(Contents()), session, i)
    {
      var e := sessions[session].data[i];
      if e.max > 0 {
        var remaining := e.max - 1;
        if remaining == 0 {
          Remove(session, i);
        } else {
          Overwrite(session, i, e.(max := remaining));
        }
      }
    }

    method Remove(session: string, i: nat)
      requires Valid() && session in sessions && i < sessions[session].len
      modifies this, sessions[session].data
      ensures Valid() && Storage() <= old(Storage())
      ensures Contents() == Stored(old(Contents()), session, Without(old(Contents())[session], i))
    {
      var pool := RemoveInPlace(sessions[session], i);
      OthersKept(session);
      SameApart(Contents(), old(Contents()), session, pool.Entries());
      if pool.len == 0 {
        ClearSession(session);
      } else {
        Store(session, pool);
      }
    }

    method Overwrite(session: string, i: nat, e: Canned)
      requires Valid() && session in sessions && i < sessions[session].len
      modifies this, sessions[session].data
      ensures Valid() && Storage() <= old(Storage())
      ensures Contents() == old(Contents())[session := old(Contents())[session][i := e]]
    {
      var pool := sessions[session];
      pool.data[i] := e;
      OthersKept(session);
      SameApart(Contents(), old(Contents()), session, pool.Entries());
      Store(session, pool);
    }
  }

  lemma SameApart(pools: Pools, was: Pools, session: string, pool: seq<Canned>)
    requires pools - {session} == was - {session}
    ensures pools[session := pool] == was[session := pool]
  {
    assert pools[session := pool] == (pools - {session})[session := pool];
    assert was[session := pool] == (was - {session})[session := pool];
  }
}
