/**
 A register filled to capacity, half a percent of it expired: what a sweep then costs the
 conversations that are still live.
 */
module AdvisoryEviction {
  import opened Wrappers
  import opened Decimal
  import opened AgentRegister
  import opened AdvisoryProtocol
  import opened AdvisoryRuns
  import opened AdvisoryTtl

  // ----- Filling the register -----

  /** The first 500 conversations are short-lived. */
  function Ttl(k: nat): int { if k < 500 then 1 else 10 }

  function NewLife(key: string, at: int, ttl: int): Life {
    Life(key, 3, ["m"], at, at + ttl, [None], [], None, false)
  }

  function LifeOf(k: nat): Life { NewLife(Numeral(k), 0, Ttl(k)) }

  /** A request that opens an entry in a register with room. */
  function Opened(s: State, key: string, at: int, ttl: int): State {
    State(s.reg[key := Birth(at, ttl)], s.owner[key := |s.lives|], s.now,
          s.lives + [NewLife(key, at, ttl)], s.calls[|s.lives| := Fired], s.sem)
  }

  /** No open life loses its entry to the new one. */
  ghost predicate Undisturbed(s: State, key: string) {
    && key !in s.reg && s.owner.Keys == s.reg.Keys
    && forall i :: 0 <= i < |s.lives| && s.lives[i].ending.None? ==> s.lives[i].key in s.reg
  }

  lemma OpenStep(s: State, key: string, at: int, ttl: int)
    requires Undisturbed(s, key) && |s.reg| < MAX_ENTRIES && at <= s.now
    ensures Next(s, Opened(s, key, at, ttl))
    ensures at == s.now ==> NextOnTheClock(s, Opened(s, key, at, ttl))
  {
    hide Swept, Birth;
    var s', request := Opened(s, key, at, ttl), Request(key, at, ttl, 3, ["m"]);
    assert KeptOwners(s.owner, s'.reg) == s.owner;
    forall i | 0 <= i < |s.lives| ensures s'.lives[i] == Close(s.lives[i], key, s'.reg, at) {
    }
    assert RequestStep(s, s', key, at, ttl, 3, ["m"]);
    assert NextBy(s, s', request);
    assert at == s.now ==> ReadsNow(s, request);
  }

  const NOTHING := State(map[], map[], 0, [], map[], 0)

  /** After one request each of n conversations, all at time 0. */
  function Fill(n: nat): State {
    if n == 0 then NOTHING else Opened(Fill(n - 1), Numeral(n - 1), 0, Ttl(n - 1))
  }

  /** Conversation k goes by the numeral of k, and there are n of them. */
  ghost predicate Numbered(reg: Table, owner: map<string, nat>, n: nat) {
    && reg.Keys == owner.Keys && |reg| == n
    && (forall key :: key in owner ==> owner[key] < n && key == Numeral(owner[key]))
    && (forall key :: key in reg && key in owner ==> reg[key] == Birth(0, Ttl(owner[key])))
    && (forall k :: 0 <= k < n ==> Numeral(k) in owner)
  }

  lemma FreshNumeral(n: nat, reg: Table, owner: map<string, nat>)
    requires Numbered(reg, owner, n)
    ensures Numeral(n) !in owner && Numeral(n) !in reg
  {
    if Numeral(n) in owner {
      NumeralInjective(n, owner[Numeral(n)]);
      assert false;
    }
  }

  lemma OneMore(reg: Table, owner: map<string, nat>, n: nat)
    requires Numbered(reg, owner, n)
    ensures Numbered(reg[Numeral(n) := Birth(0, Ttl(n))], owner[Numeral(n) := n], n + 1)
  {
    FreshNumeral(n, reg, owner);
    hide Numeral, Ttl, Birth;
    SizeUpdate(reg, Numeral(n), Birth(0, Ttl(n)));
  }

  lemma {:induction false} FillNumbered(n: nat)
    ensures Numbered(Fill(n).reg, Fill(n).owner, n)
  {
    if n > 0 {
      FillNumbered(n - 1);
      FillLives(n - 1);
      hide Numbered;
      OneMore(Fill(n - 1).reg, Fill(n - 1).owner, n - 1);
    }
  }

  lemma {:induction false} FillLives(n: nat)
    ensures |Fill(n).lives| == n && Fill(n).now == 0 && Fill(n).sem == 0
    ensures forall k :: 0 <= k < n ==> Fill(n).lives[k] == LifeOf(k)
  {
    if n > 0 {
      FillGrows(n);
      hide *;
      FillLives(n - 1);
    }
  }

  lemma FillGrows(n: nat)
    requires n > 0
    ensures Fill(n).lives == Fill(n - 1).lives + [LifeOf(n - 1)]
    ensures Fill(n).now == Fill(n - 1).now && Fill(n).sem == Fill(n - 1).sem
  {
    hide Numeral, Ttl, Birth;
  }

  /** The conversations from number m on. */
  function From(owner: map<string, nat>, m: nat): set<string> {
    set key | key in owner && owner[key] >= m
  }

  lemma {:induction false} CountFrom(n: nat, m: nat)
    requires m <= n
    ensures |From(Fill(n).owner, m)| == n - m
  {
    if m == n {
      NoneFrom(n);
    } else {
      OwnersGrow(n - 1);
      hide *;
      CountFrom(n - 1, m);
      FromGrows(Fill(n - 1).owner, Numeral(n - 1), n - 1, m);
    }
  }

  lemma OwnersGrow(n: nat)
    ensures Numeral(n) !in Fill(n).owner && Fill(n + 1).owner == Fill(n).owner[Numeral(n) := n]
  {
    FillNumbered(n);
    FillLives(n);
    FreshNumeral(n, Fill(n).reg, Fill(n).owner);
    hide Numeral, Ttl, Numbered;
  }

  lemma FromGrows(owner: map<string, nat>, key: string, n: nat, m: nat)
    requires key !in owner && m <= n
    ensures |From(owner[key := n], m)| == |From(owner, m)| + 1
  {
    assert From(owner[key := n], m) == From(owner, m) + {key};
  }

  lemma NoneFrom(n: nat)
    ensures From(Fill(n).owner, n) == {}
  {
    FillNumbered(n);
    hide Numeral, Fill;
  }

  lemma FillStep(n: nat)
    requires n < MAX_ENTRIES
    ensures NextOnTheClock(Fill(n), Fill(n + 1))
  {
    FillNumbered(n);
    FillLives(n);
    FreshNumeral(n, Fill(n).reg, Fill(n).owner);
    assert Fill(n + 1) == Opened(Fill(n), Numeral(n), 0, Ttl(n));
    hide Fill, Numeral, Ttl;
    assert Undisturbed(Fill(n), Numeral(n));
    hide *;
    OpenStep(Fill(n), Numeral(n), 0, Ttl(n));
  }

  function FillRun(n: nat): seq<State> {
    if n == 0 then [NOTHING] else FillRun(n - 1) + [Fill(n)]
  }

  lemma {:induction false} FillRuns(n: nat)
    requires n <= MAX_ENTRIES
    ensures |FillRun(n)| == n + 1 && FillRun(n)[n] == Fill(n) && OnTheClock(FillRun(n))
  {
    if n > 0 {
      FillRuns(n - 1);
      FillStep(n - 1);
      hide Fill, NextOnTheClock, Init, IsRun;
      Longer(FillRun(n - 1), Fill(n));
    }
  }

  /** A run goes on by any step. */
  lemma Longer(run: seq<State>, s: State)
    requires OnTheClock(run) && NextOnTheClock(run[|run| - 1], s)
    ensures OnTheClock(run + [s])
  {
    hide NextBy, ReadsNow, Init;
    var next := run + [s];
    forall i | 0 <= i < |next| - 1 ensures NextOnTheClock(next[i], next[i + 1]) && Next(next[i], next[i + 1]) {
      if i < |run| - 1 {
        assert next[i] == run[i] && next[i + 1] == run[i + 1];
        assert NextOnTheClock(run[i], run[i + 1]);
      } else {
        assert next[i] == run[|run| - 1] && next[i + 1] == s;
      }
    }
  }

  // ----- The sweep -----

  /** At time 5 the register is full, the first 500 have expired, and one more conversation comes:
      the sweep keeps those from number 1000 on. */
  function Full(n: nat): State { Fill(n).(now := 5) }

  function Kept(n: nat): Table {
    map key | key in From(Full(n).owner, 1000) && key in Full(n).reg :: Full(n).reg[key]
  }

  const NEWCOMER := "new"

  /** The newcomer's request, after a sweep that leaves `kept`. */
  function SweptBy(s: State, kept: Table): State {
    var reg := kept[NEWCOMER := Birth(5, 10)];
    State(reg, KeptOwners(s.owner, reg)[NEWCOMER := |s.lives|], s.now,
          seq(|s.lives|, i requires 0 <= i < |s.lives| => Close(s.lives[i], NEWCOMER, reg, 5))
            + [NewLife(NEWCOMER, 5, 10)],
          s.calls[|s.lives| := Fired], s.sem)
  }

  function AfterSweep(n: nat): State { SweptBy(Full(n), Kept(n)) }

  /** A conversation the sweep dropped comes back, on a clock reading of its own. */
  function Back(n: nat, k: nat, at: int): State { Opened(AfterSweep(n), Numeral(k), at, 10) }

  lemma FullRegister(n: nat)
    requires n >= 1000
    ensures |Full(n).reg| == n
    ensures Numbered(Full(n).reg, Full(n).owner, n)
    ensures LiveKeys(Full(n).reg, 5) == From(Full(n).owner, 500)
    ensures |From(Full(n).owner, 500)| == n - 500 && |From(Full(n).owner, 1000)| == n - 1000
  {
    hide Fill, Numeral, Numbered, From, LiveKeys;
    FillNumbered(n);
    CountFrom(n, 500);
    CountFrom(n, 1000);
    LiveFrom(Full(n).reg, Full(n).owner, n);
  }

  lemma LiveFrom(reg: Table, owner: map<string, nat>, n: nat)
    requires Numbered(reg, owner, n)
    ensures |reg| == n && LiveKeys(reg, 5) == From(owner, 500)
  {
    hide Numeral;
  }

  /** A register at capacity with expired entries in it, from which every sweep drops live ones
      too: fewer had expired than the headroom asks for. */
  lemma SweepDropsLive() returns (before: Table)
    ensures |before| == MAX_ENTRIES && |LiveKeys(before, 5)| == MAX_ENTRIES - 500
    ensures forall after :: Swept(before, 5, after) ==> exists key :: key in LiveKeys(before, 5) && key !in after
  {
    var n := MAX_ENTRIES;
    before := Full(n).reg;
    FullRegister(n);
    hide Full, Numbered, From;
    forall after | Swept(before, 5, after) ensures exists key :: key in LiveKeys(before, 5) && key !in after {
      DropsSome(before, after);
    }
  }

  lemma DropsSome(before: Table, after: Table)
    requires Swept(before, 5, after) && |LiveKeys(before, 5)| > SWEEP_TARGET
    ensures exists key :: key in LiveKeys(before, 5) && key !in after
  {
    var live := LiveKeys(before, 5);
    hide LiveKeys;
    if live <= after.Keys {
      SubsetSize(live, after.Keys);
      assert false;
    }
    var key :| key in live && key !in after;
  }

  // ----- An eviction is repeated -----

  lemma KeptIsSwept(n: nat)
    requires n == MAX_ENTRIES
    ensures Swept(Full(n).reg, 5, Kept(n))
    ensures Kept(n).Keys == From(Full(n).owner, 1000)
  {
    assert n >= 1000 && n - 500 > SWEEP_TARGET == n - 1000;
    hide *;
    FullRegister(n);
    KeptKeys(n);
    FromNested(Full(n).owner);
    KeptSwept(Full(n).reg, Kept(n));
  }

  lemma KeptKeys(n: nat)
    ensures Kept(n).Keys == From(Full(n).owner, 1000)
    ensures forall key :: key in Kept(n) ==> key in Full(n).reg && Kept(n)[key] == Full(n).reg[key]
  {
    OwnersAreEntries(n);
    hide Full;
  }

  lemma FromNested(owner: map<string, nat>)
    ensures From(owner, 1000) <= From(owner, 500)
  {
  }

  lemma KeptSwept(before: Table, kept: Table)
    requires kept.Keys <= LiveKeys(before, 5) && |LiveKeys(before, 5)| > SWEEP_TARGET == |kept.Keys|
    requires forall key :: key in kept ==> key in before && kept[key] == before[key]
    ensures Swept(before, 5, kept)
  {
    hide LiveKeys;
    assert |kept| == |kept.Keys|;
  }

  lemma OwnersAreEntries(n: nat)
    ensures Full(n).reg.Keys == Full(n).owner.Keys
  {
    FillNumbered(n);
    hide Fill;
  }

  lemma NewcomerIsNew(n: nat)
    ensures NEWCOMER !in Full(n).owner && NEWCOMER !in Full(n).reg
    ensures forall k: nat :: Numeral(k) != NEWCOMER
  {
    FillNumbered(n);
    forall k: nat ensures Numeral(k) != NEWCOMER {
      NumeralIs(k);
      assert NEWCOMER[0] == 'n';
    }
    hide Fill, Numeral;
  }

  lemma SweptObserved(before: Table, kept: Table)
    requires NEWCOMER !in before && |before| == MAX_ENTRIES && Swept(before, 5, kept)
    ensures Observed(before, NEWCOMER, 5, 10, kept[NEWCOMER := Birth(5, 10)], None, true)
    ensures !Hit(before, NEWCOMER, 5)
  {
    assert NEWCOMER !in kept;
    assert kept[NEWCOMER := Birth(5, 10)] - {NEWCOMER} == kept;
  }

  lemma SweepStep(s: State, kept: Table)
    requires NEWCOMER !in s.reg && |s.reg| == MAX_ENTRIES && Swept(s.reg, 5, kept) && s.now == 5
    ensures NextOnTheClock(s, SweptBy(s, kept))
  {
    SweptObserved(s.reg, kept);
    hide Swept, Observed, Hit, Close, KeptOwners, Birth;
    var s', request := SweptBy(s, kept), Request(NEWCOMER, 5, 10, 3, ["m"]);
    assert RequestStep(s, s', NEWCOMER, 5, 10, 3, ["m"]);
    assert NextBy(s, s', request) && ReadsNow(s, request);
  }

  /** The first thousand are not among those the sweep keeps. */
  lemma NotKept(n: nat, k: nat)
    requires k < 1000 && n == MAX_ENTRIES
    ensures Numeral(k) !in Kept(n) && Numeral(k) !in AfterSweep(n).reg
  {
    FillNumbered(n);
    NewcomerIsNew(n);
    KeptIsSwept(n);
    if Numeral(k) in From(Full(n).owner, 1000) {
      NumeralInjective(k, Full(n).owner[Numeral(k)]);
      assert false;
    }
    hide Fill, Numeral, Full, Swept;
  }

  /** What the history says of the first thousand after the sweep: the first 500 lapsed, the others
      were evicted before their time. */
  lemma FirstThousand(n: nat, k: nat)
    requires k < 1000 && n == MAX_ENTRIES
    ensures |AfterSweep(n).lives| == n + 1
    ensures var l := AfterSweep(n).lives[k];
            && l.key == Numeral(k) && l.expires == Ttl(k)
            && l.ending == Some(if k < 500 then Lapsed(5) else Evicted)
    ensures forall m :: k < m < |AfterSweep(n).lives| ==> AfterSweep(n).lives[m].key != Numeral(k)
  {
    NotKept(n, k);
    NewcomerIsNew(n);
    SweptLife(n, k);
    hide Fill, Numeral, Kept, AfterSweep;
    forall m | k < m < |AfterSweep(n).lives| ensures AfterSweep(n).lives[m].key != Numeral(k) {
      SweptLife(n, m);
      OtherNumeral(m, k);
    }
  }

  lemma OtherNumeral(m: nat, k: nat)
    requires m != k
    ensures Numeral(m) != Numeral(k)
  {
    if Numeral(m) == Numeral(k) {
      NumeralInjective(m, k);
    }
  }

  /** The history after the sweep, life by life. */
  lemma SweptLife(n: nat, k: nat)
    requires k <= n
    ensures |AfterSweep(n).lives| == n + 1
    ensures AfterSweep(n).lives[k] ==
            if k < n then Close(LifeOf(k), NEWCOMER, AfterSweep(n).reg, 5) else NewLife(NEWCOMER, 5, 10)
    ensures AfterSweep(n).lives[k].key == if k < n then Numeral(k) else NEWCOMER
  {
    FillLives(n);
    hide Fill, Numeral, Kept, Ttl;
  }

  lemma BackStep(n: nat, k: nat, at: int)
    requires k < 1000 && at <= 5 && n == MAX_ENTRIES
    ensures Next(AfterSweep(n), Back(n, k, at))
    ensures at == 5 ==> NextOnTheClock(AfterSweep(n), Back(n, k, at))
  {
    SweepLeavesRoom(n);
    OpenLivesKept(n, k);
    assert Back(n, k, at) == Opened(AfterSweep(n), Numeral(k), at, 10) && AfterSweep(n).now == 5;
    hide *;
    OpenStep(AfterSweep(n), Numeral(k), at, 10);
  }

  function SweepRun(n: nat): seq<State> { FillRun(n) + [Full(n)] + [AfterSweep(n)] }

  lemma SweepRuns(n: nat)
    requires n == MAX_ENTRIES
    ensures |SweepRun(n)| > 0 && SweepRun(n)[|SweepRun(n)| - 1] == AfterSweep(n) && OnTheClock(SweepRun(n))
  {
    hide *;
    SweepRunIs(n);
    FillRuns(n);
    WaitStep(n);
    SweptIn(n);
    TwoLonger(FillRun(n), Full(n), AfterSweep(n));
  }

  lemma SweepRunIs(n: nat)
    ensures SweepRun(n) == FillRun(n) + [Full(n)] + [AfterSweep(n)]
  {
    hide FillRun, Full, AfterSweep;
  }

  lemma TwoLonger(run: seq<State>, s: State, s': State)
    requires OnTheClock(run) && run != [] && NextOnTheClock(run[|run| - 1], s) && NextOnTheClock(s, s')
    ensures OnTheClock(run + [s] + [s']) && (run + [s] + [s'])[|run + [s] + [s']| - 1] == s'
  {
    hide *;
    Longer(run, s);
    Longer(run + [s], s');
  }

  /** A run at whose end a conversation evicted by a sweep is classified again, within the time to
      live of the entry it lost. */
  lemma EvictedCallIsRepeated() returns (run: seq<State>, l: nat, l': nat)
    ensures OnTheClock(run) && run != []
    ensures var lives := run[|run| - 1].lives;
            && Consecutive(lives, l, l') && lives[l].ending == Some(Evicted)
            && lives[l'].born <= lives[l].expires
  {
    var n := MAX_ENTRIES;
    run, l, l' := SweepRun(n) + [Back(n, 500, 5)], 500, n + 1;
    BackAgain(n, 500, 5);
    SweepRuns(n);
    BackStep(n, 500, 5);
    assert Ttl(500) == 10;
    hide *;
    Longer(SweepRun(n), Back(n, 500, 5));
  }

  /** A run in which a request that read the clock before a sweep did fires within the time to live
      of the entry that the sweep found expired. */
  lemma OvertakenCallIsRepeated() returns (run: seq<State>, l: nat, l': nat)
    ensures IsRun(run) && run != []
    ensures var lives := run[|run| - 1].lives;
            && Consecutive(lives, l, l') && lives[l].ending == Some(Lapsed(5))
            && lives[l'].born <= lives[l].expires < 5
  {
    var n := MAX_ENTRIES;
    run, l, l' := SweepRun(n) + [Back(n, 0, 1)], 0, n + 1;
    BackAgain(n, 0, 1);
    SweepRuns(n);
    BackStep(n, 0, 1);
    assert Ttl(0) == 1;
    assert IsRun(SweepRun(n));
    hide *;
    LongerRun(SweepRun(n), Back(n, 0, 1));
  }

  lemma LongerRun(run: seq<State>, s: State)
    requires IsRun(run) && Next(run[|run| - 1], s)
    ensures IsRun(run + [s])
  {
    hide Next, Init;
    var next := run + [s];
    forall i | 0 <= i < |next| - 1 ensures Next(next[i], next[i + 1]) {
      if i < |run| - 1 {
        assert next[i] == run[i] && next[i + 1] == run[i + 1];
      }
    }
  }

  lemma SweptIn(n: nat)
    requires n == MAX_ENTRIES
    ensures NextOnTheClock(Full(n), AfterSweep(n))
  {
    NewcomerIsNew(n);
    FullRegister(n);
    KeptIsSwept(n);
    assert Full(n).now == 5 && AfterSweep(n) == SweptBy(Full(n), Kept(n));
    hide *;
    SweepStep(Full(n), Kept(n));
  }

  lemma BackAgain(n: nat, k: nat, at: int)
    requires k < 1000 && n == MAX_ENTRIES
    ensures var lives := Back(n, k, at).lives;
            && Consecutive(lives, k, n + 1)
            && lives[k].ending == Some(if k < 500 then Lapsed(5) else Evicted)
            && lives[k].expires == Ttl(k) && lives[n + 1].born == at
  {
    FirstThousand(n, k);
    hide AfterSweep, Numeral, Ttl;
  }

  lemma WaitStep(n: nat)
    ensures NextOnTheClock(Fill(n), Full(n))
  {
    FillLives(n);
    hide Fill;
    assert NextBy(Fill(n), Full(n), Tick) && ReadsNow(Fill(n), Tick);
  }

  lemma SweepLeavesRoom(n: nat)
    requires n == MAX_ENTRIES
    ensures |AfterSweep(n).reg| < MAX_ENTRIES
    ensures AfterSweep(n).owner.Keys == AfterSweep(n).reg.Keys
  {
    assert AfterSweep(n) == SweptBy(Full(n), Kept(n)) && SWEEP_TARGET < MAX_ENTRIES;
    hide *;
    KeptIsSwept(n);
    OwnersAreEntries(n);
    SweepMakesRoom(Full(n).reg, 5, Kept(n));
    SweptByShape(Full(n), Kept(n));
  }

  lemma SweptByShape(s: State, kept: Table)
    requires s.reg.Keys == s.owner.Keys && kept.Keys <= s.reg.Keys
    ensures |SweptBy(s, kept).reg| <= |kept| + 1
    ensures SweptBy(s, kept).owner.Keys == SweptBy(s, kept).reg.Keys
  {
    SizeUpdate(kept, NEWCOMER, Birth(5, 10));
    hide Close, Birth;
  }

  lemma OpenLivesKept(n: nat, k: nat)
    requires k < 1000 && n == MAX_ENTRIES
    ensures Undisturbed(AfterSweep(n), Numeral(k))
  {
    NotKept(n, k);
    SweepLeavesRoom(n);
    SweptLife(n, 0);
    hide Fill, Numeral, Kept, AfterSweep, Full, Ttl;
    forall i | 0 <= i < |AfterSweep(n).lives| && AfterSweep(n).lives[i].ending.None?
      ensures AfterSweep(n).lives[i].key in AfterSweep(n).reg
    {
      SweptLife(n, i);
      NewcomerIsIn(n);
    }
  }

  lemma NewcomerIsIn(n: nat)
    ensures NEWCOMER in AfterSweep(n).reg
  {
    hide Kept, Full;
  }
}
