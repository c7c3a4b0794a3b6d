/**
 What the advisory protocol guarantees over whole runs: first without any assumption on
 timing, then for runs in which every call lands before its entry lapses.
 */
module AdvisoryRuns {
  import opened Wrappers
  import opened AgentRegister
  import opened AdvisoryProtocol

  lemma StepOf(run: seq<State>, i: nat) returns (step: Step)
    requires IsRun(run) && i + 1 < |run|
    ensures NextBy(run[i], run[i + 1], step)
  {
    hide NextBy, Init;
    assert Next(run[i], run[i + 1]);
    step :| NextBy(run[i], run[i + 1], step);
  }

  lemma {:induction false} RunKeepsInv(run: seq<State>, i: nat)
    requires IsRun(run) && i < |run|
    ensures Inv(run[i])
  {
    hide *;
    if i == 0 {
      StartKeepsInv(run);
    } else {
      RunKeepsInv(run, i - 1);
      var step := StepOf(run, i - 1);
      NextKeepsInv(run[i - 1], run[i], step);
    }
  }

  lemma StartKeepsInv(run: seq<State>)
    requires IsRun(run)
    ensures run != [] && Inv(run[0])
  {
    hide Next;
    assert Holders(run[0].calls) == {};
  }

  /** Capacity and back-pressure hold in every reachable state: the register never outgrows
      its cap, and the semaphore counts exactly the calls that hold a slot. */
  lemma EveryStateBounded(run: seq<State>, i: nat)
    requires IsRun(run) && i < |run|
    ensures |run[i].reg| <= 100_000
    ensures run[i].sem == |set c | c in run[i].calls && run[i].calls[c] in {Running, Landed}| <= 8
  {
    hide *;
    RunKeepsInv(run, i);
    Bounded(run[i]);
  }

  lemma Bounded(s: State)
    requires Inv(s)
    ensures |s.reg| <= 100_000
    ensures s.sem == |set c | c in s.calls && s.calls[c] in {Running, Landed}| <= 8
  {
    hide OwnersOk, EntriesOk, LivesOk, NoneForgotten;
    assert Holders(s.calls) == set c | c in s.calls && s.calls[c] in {Running, Landed};
  }

  // ----- Pins within one lifetime -----

  lemma {:induction false} PinByFacts(vs: seq<Verdict>, a: nat, b: nat, w: nat)
    requires a <= b
    requires forall i :: 0 <= i < |vs| ==> vs[i].at >= 1
    ensures PinBy(vs, 0) == None
    ensures PinBy(vs, a).Some? ==> PinBy(vs, b).Some?
    ensures PinBy(vs, w) == None && w <= b && (forall i :: 0 <= i < |vs| ==> vs[i].window <= w) ==> PinBy(vs, b) == None
  {
    if vs != [] {
      PinByFacts(vs[..|vs| - 1], a, b, w);
    }
  }

  lemma {:induction false} PinByWitness(vs: seq<Verdict>, a: nat)
    requires PinBy(vs, a).Some?
    ensures exists i :: 0 <= i < |vs| && vs[i].Applied() && vs[i].pin == PinBy(vs, a) && vs[i].at <= a
  {
    var last := |vs| - 1;
    if !(vs[last].Applied() && vs[last].at <= a) {
      PinByWitness(vs[..last], a);
    }
  }

  /** `p` was recommended by a call dispatched for this conversation, its model was on the
      allow-list captured at that dispatch, and it landed inside that call's apply window. */
  ghost predicate Vouched(lives: seq<Life>, l: Life, p: Pin, request: nat) {
    exists i :: 0 <= i < |l.verdicts| &&
      var v := l.verdicts[i];
      && v.pin == Some(p) && v.at <= request && v.at <= v.window
      && v.call < |lives| && lives[v.call].key == l.key
      && v.window == lives[v.call].window
      && p.model in lives[v.call].allowed
  }

  /** The first request of a lifetime is unpinned, and a pin once shown stays. */
  predicate PinsStay(life: Life) {
    && life.seen != [] && life.seen[0] == None
    && forall a, b :: 0 <= a <= b < |life.seen| && life.seen[a].Some? ==> life.seen[b].Some?
  }

  /** If request w+1 is unpinned, w bounding the windows in play, no later one is pinned. */
  predicate WindowCloses(life: Life, w: nat) {
    w < |life.seen| && life.seen[w] == None && (forall v :: v in life.verdicts ==> v.window <= w) ==>
      forall b :: w <= b < |life.seen| ==> life.seen[b] == None
  }

  ghost predicate AllVouched(lives: seq<Life>, life: Life) {
    forall a :: 0 <= a < |life.seen| && life.seen[a].Some? ==> Vouched(lives, life, life.seen[a].value, a)
  }

  /** Over any interleaving, within one entry's lifetime: the first request runs as
      configured; once a request is pinned every later one is; if request w+1 is unpinned,
      w bounding the apply windows in play, none ever will be; and every pin shown was
      vouched for before the request that saw it. */
  lemma PinVisibility(run: seq<State>, i: nat, l: nat, w: nat)
    requires IsRun(run) && i < |run| && l < |run[i].lives|
    ensures var life := run[i].lives[l];
            PinsStay(life) && WindowCloses(life, w) && AllVouched(run[i].lives, life)
  {
    hide *;
    RunKeepsInv(run, i);
    LifeAt(run[i], l);
    LifePinsStay(run[i].lives, run[i].lives[l]);
    LifeWindowCloses(run[i].lives, run[i].lives[l], w);
    LifeVouched(run[i].lives, run[i].lives[l]);
  }

  lemma LifeAt(s: State, l: nat)
    requires Inv(s) && l < |s.lives|
    ensures LifeOk(s.lives, s.lives[l])
  {
    hide LifeOk, OwnersOk, EntriesOk, CallsOk, NoneForgotten;
  }

  lemma VerdictsAfterFirst(lives: seq<Life>, life: Life)
    requires LifeOk(lives, life)
    ensures forall i :: 0 <= i < |life.verdicts| ==> life.verdicts[i].at >= 1
  {
    hide SeenOk, EndingOk;
  }

  lemma LifePinsStay(lives: seq<Life>, life: Life)
    requires LifeOk(lives, life)
    ensures PinsStay(life)
  {
    VerdictsAfterFirst(lives, life);
    hide VerdictOk, EndingOk, PinBy;
    forall a, b | 0 <= a <= b < |life.seen|
      ensures life.seen[0] == None && (life.seen[a].Some? ==> life.seen[b].Some?)
    {
      PinByFacts(life.verdicts, a, b, 0);
    }
  }

  lemma LifeWindowCloses(lives: seq<Life>, life: Life, w: nat)
    requires LifeOk(lives, life)
    ensures WindowCloses(life, w)
  {
    VerdictsAfterFirst(lives, life);
    hide VerdictOk, EndingOk, PinBy;
    assert forall i :: 0 <= i < |life.verdicts| ==> life.verdicts[i] in life.verdicts;
    forall b | w <= b < |life.seen| && life.seen[w] == None && (forall v :: v in life.verdicts ==> v.window <= w)
      ensures life.seen[b] == None
    {
      PinByFacts(life.verdicts, w, b, w);
    }
  }

  lemma LifeVouched(lives: seq<Life>, life: Life)
    requires LifeOk(lives, life)
    ensures AllVouched(lives, life)
  {
    hide EndingOk, PinBy;
    forall a | 0 <= a < |life.seen| && life.seen[a].Some?
      ensures Vouched(lives, life, life.seen[a].value, a)
    {
      PinByWitness(life.verdicts, a);
      var i :| 0 <= i < |life.verdicts| && life.verdicts[i].Applied() && life.verdicts[i].pin == life.seen[a]
               && life.verdicts[i].at <= a;
      assert VerdictOk(lives, life.key, |life.seen|, life.verdicts[i]);
    }
  }

  /** A conversation is classified again only after its earlier entry is over: it lapsed, it
      was evicted to make room, or a failed call abandoned it before any verdict. */
  lemma RefireMeansEnded(run: seq<State>, i: nat, l: nat, l': nat)
    requires IsRun(run) && i < |run| && l < l' < |run[i].lives|
    requires run[i].lives[l].key == run[i].lives[l'].key
    ensures run[i].lives[l].ending.Some?
    ensures match run[i].lives[l].ending.value
            case Lapsed(at) => at > run[i].lives[l].expires
            case Evicted => true
            case Abandoned(c) => run[i].lives[l].verdicts == []
  {
    RunKeepsInv(run, i);
    assert LifeOk(run[i].lives, run[i].lives[l]);
    hide Inv, LivesOk, SeenOk;
    EarlierLivesEnded(run, i, l, l');
  }

  lemma {:induction false} EarlierLivesEnded(run: seq<State>, i: nat, l: nat, l': nat)
    requires IsRun(run) && i < |run| && l < l' < |run[i].lives|
    requires run[i].lives[l].key == run[i].lives[l'].key
    ensures run[i].lives[l].ending.Some?
  {
    hide Inv, NextBy, IsRun;
    StartsEmpty(run);
    if i > 0 {
      RunKeepsInv(run, i - 1);
      var step := StepOf(run, i - 1);
      HistoryGrows(run[i - 1], run[i], step);
      if l' < |run[i - 1].lives| {
        EarlierLivesEnded(run, i - 1, l, l');
      } else if l < |run[i - 1].lives| {
        assert run[i].lives[l].key == run[i].lives[l'].key;
      }
    }
  }

  lemma StartsEmpty(run: seq<State>)
    requires IsRun(run)
    ensures run != [] && run[0].lives == []
  {
    hide Next;
  }

  /** History is append-only: an ended life stays as it is, and a birth finds every earlier
      life of its key over. */
  ghost predicate Grows(lives: seq<Life>, lives': seq<Life>) {
    && |lives| <= |lives'|
    && (forall k :: 0 <= k < |lives| ==>
          lives'[k].key == lives[k].key && lives'[k].born == lives[k].born && lives'[k].expires == lives[k].expires)
    && (forall k :: 0 <= k < |lives| && lives[k].ending.Some? ==> lives'[k].ending == lives[k].ending)
    && |lives'| <= |lives| + 1
    && (forall k :: 0 <= k < |lives| < |lives'| && lives'[k].key == lives'[|lives|].key ==> lives'[k].ending.Some?)
  }

  lemma HistoryGrows(s: State, s': State, step: Step)
    requires Inv(s) && NextBy(s, s', step)
    ensures Grows(s.lives, s'.lives)
  {
    hide EntriesOk, LivesOk, CallsOk, NoneForgotten, AfterFail, AfterVerdict, RequestStep, Grows;
    match step {
      case Tick | Acquire(_) | Saturate(_) | Release(_) => SameGrows(s.lives);
      case Panic(c) => PanicGrows(s.lives, c);
      case ShutOut(c) => LandingGrows(s, c, None);
      case LandError(c) => LandingGrows(s, c, None);
      case LandVerdict(c, switch, model, reason) =>
        LandingGrows(s, c, PinOf(s.lives[c].allowed, switch, model, reason));
      case Request(key, at, ttl, window, allowed) =>
        RequestGrows(s, s', key, at, ttl, window, allowed);
    }
  }

  lemma SameGrows(lives: seq<Life>)
    ensures Grows(lives, lives)
  {
  }

  lemma PanicGrows(lives: seq<Life>, c: nat)
    requires c < |lives|
    ensures Grows(lives, lives[c := lives[c].(panicked := true)])
  {
  }

  lemma LandingGrows(s: State, c: nat, pin: Option<Pin>)
    requires OwnersOk(s.reg, s.owner, s.lives) && c < |s.lives|
    ensures Grows(s.lives, AfterFail(s, c).lives) && Grows(s.lives, AfterVerdict(s, c, pin).lives)
  {
    hide Failed, Completed;
    var key := s.lives[c].key;
    if key in s.reg && key in s.owner && s.owner[key] < |s.lives| {
      var l := s.owner[key];
      var v := Verdict(c, pin, s.lives[c].window, s.reg[key].seen);
      OneGrows(s.lives, l, s.lives[l].(ending := Some(Abandoned(c))));
      OneGrows(s.lives, l, s.lives[l].(verdicts := s.lives[l].verdicts + [v]));
    }
    SameGrows(s.lives);
    hide Grows;
  }

  lemma OneGrows(lives: seq<Life>, l: nat, life: Life)
    requires l < |lives| && lives[l].ending.None?
    requires life.key == lives[l].key && life.born == lives[l].born && life.expires == lives[l].expires
    ensures Grows(lives, lives[l := life])
  {
  }

  lemma RequestGrows(s: State, s': State, key: string, at: int, ttl: int, window: int, allowed: seq<string>)
    requires RequestStep(s, s', key, at, ttl, window, allowed)
    ensures Grows(s.lives, s'.lives)
  {
    hide Observed;
    if !Hit(s.reg, key, at) {
      forall k | 0 <= k < |s.lives|
        ensures s'.lives[k].key == s.lives[k].key
        ensures s'.lives[k].born == s.lives[k].born && s'.lives[k].expires == s.lives[k].expires
        ensures s.lives[k].ending.Some? ==> s'.lives[k].ending == s.lives[k].ending
        ensures s.lives[k].key == key ==> s'.lives[k].ending.Some?
      {
        assert s'.lives[k] == Close(s.lives[k], key, s'.reg, at);
      }
    }
  }

  // ----- Timely runs -----

  /** Every call that has not landed is still within the lifetime of the entry it opened. */
  ghost predicate Timely(s: State) {
    forall c :: c in s.calls && Pending(s.calls, c) && c < |s.lives| ==> s.now <= s.lives[c].expires
  }

  ghost predicate NoneEvicted(s: State) {
    forall l :: 0 <= l < |s.lives| ==> s.lives[l].ending != Some(Evicted)
  }

  ghost predicate TimelyRun(run: seq<State>) {
    && IsRun(run)
    && forall i :: 0 <= i < |run| ==> Timely(run[i]) && NoneEvicted(run[i])
  }

  /** Calls act on nothing but the entry that fired them. */
  ghost predicate KeptApart(s: State) {
    && (forall c :: c in s.calls && Pending(s.calls, c) ==>
          c < |s.lives| && s.lives[c].ending.None? && s.lives[c].verdicts == [])
    && (forall l :: 0 <= l < |s.lives| ==> OwnOnly(s.lives[l], l))
  }

  predicate OwnOnly(life: Life, l: nat) {
    && (life.verdicts == [] || (|life.verdicts| == 1 && life.verdicts[0].call == l))
    && (life.ending.Some? && life.ending.value.Abandoned? ==> life.ending.value.call == l)
  }

  lemma NextKeepsApart(s: State, s': State, step: Step)
    requires Inv(s) && KeptApart(s) && NextBy(s, s', step)
    requires Timely(s) && NoneEvicted(s')
    ensures KeptApart(s')
  {
    hide Inv, AfterFail, AfterVerdict, RequestStep, KeptApart, OwnOnly, Timely, NoneEvicted;
    match step {
      case Tick | Acquire(_) | Saturate(_) | Release(_) => CallMoveKeepsApart(s, s', step);
      case Panic(c) => PanicKeepsApart(s, s', c);
      case ShutOut(c) =>
        FailKeepsApart(s, c);
        LandingKeepsApart(s, s', c);
      case LandError(c) =>
        FailKeepsApart(s, c);
        LandingKeepsApart(s, s', c);
      case LandVerdict(c, switch, model, reason) =>
        VerdictKeepsApart(s, c, PinOf(s.lives[c].allowed, switch, model, reason));
        LandingKeepsApart(s, s', c);
      case Request(key, at, ttl, window, allowed) =>
        RequestKeepsApart(s, s', key, at, ttl, window, allowed);
    }
  }

  lemma CallMoveKeepsApart(s: State, s': State, step: Step)
    requires KeptApart(s) && NextBy(s, s', step)
    requires step.Tick? || step.Acquire? || step.Saturate? || step.Release?
    ensures KeptApart(s')
  {
    hide AfterFail, AfterVerdict, RequestStep, OwnOnly;
  }

  lemma PanicKeepsApart(s: State, s': State, c: nat)
    requires KeptApart(s) && NextBy(s, s', Panic(c))
    ensures KeptApart(s')
  {
    hide AfterFail, AfterVerdict, RequestStep;
  }

  lemma LandingKeepsApart(s: State, s': State, c: nat)
    requires KeptApart(s) && c < |s.lives| == |s'.lives|
    requires s'.calls == s.calls - {c} || s'.calls == s.calls[c := Landed]
    requires forall l :: 0 <= l < |s.lives| && l != c ==> s'.lives[l] == s.lives[l]
    requires OwnOnly(s'.lives[c], c)
    ensures KeptApart(s')
  {
    hide OwnOnly;
  }

  lemma RequestKeepsApart(s: State, s': State, key: string, at: int, ttl: int, window: int, allowed: seq<string>)
    requires Inv(s) && KeptApart(s) && RequestStep(s, s', key, at, ttl, window, allowed)
    requires Timely(s) && NoneEvicted(s')
    ensures KeptApart(s')
  {
    hide Inv, Timely, KeptApart, NoneEvicted, Observed, Close;
    if Hit(s.reg, key, at) {
      HitKeepsApart(s, s', key, at, ttl, window, allowed);
    } else {
      FireKeepsApart(s, s', key, at, ttl, window, allowed);
    }
  }

  lemma HitKeepsApart(s: State, s': State, key: string, at: int, ttl: int, window: int, allowed: seq<string>)
    requires Inv(s) && KeptApart(s) && RequestStep(s, s', key, at, ttl, window, allowed) && Hit(s.reg, key, at)
    ensures KeptApart(s')
  {
    hide EntriesOk, LivesOk, CallsOk, NoneForgotten, Observed, OwnOnly, Timely, NoneEvicted;
    var o := s.owner[key];
    assert OwnOnly(s.lives[o], o);
    forall l | 0 <= l < |s'.lives| ensures OwnOnly(s'.lives[l], l) {
      OwnOnlySeen(s.lives[o], o, s'.lives[o].seen);
    }
  }

  lemma OwnOnlySeen(life: Life, l: nat, seen: seq<Option<Pin>>)
    requires OwnOnly(life, l)
    ensures OwnOnly(life.(seen := seen), l)
  {
  }

  lemma FireKeepsApart(s: State, s': State, key: string, at: int, ttl: int, window: int, allowed: seq<string>)
    requires Inv(s) && KeptApart(s) && RequestStep(s, s', key, at, ttl, window, allowed) && !Hit(s.reg, key, at)
    requires Timely(s) && NoneEvicted(s')
    ensures KeptApart(s')
  {
    hide OwnersOk, EntriesOk, LivesOk, CallsOk, NoneForgotten, Observed;
    forall l | 0 <= l < |s.lives|
      ensures OwnOnly(s'.lives[l], l)
      ensures Pending(s.calls, l) ==> s'.lives[l] == s.lives[l]
    {
      assert s'.lives[l] == Close(s.lives[l], key, s'.reg, at);
      assert s'.lives[l].ending != Some(Evicted);
    }
    hide Close, Timely, NoneEvicted, Inv;
  }

  lemma FailKeepsApart(s: State, c: nat)
    requires Inv(s) && KeptApart(s) && c in s.calls && Pending(s.calls, c)
    ensures var s' := AfterFail(s, c);
            && |s'.lives| == |s.lives|
            && (forall l :: 0 <= l < |s.lives| && l != c ==> s'.lives[l] == s.lives[l])
            && OwnOnly(s'.lives[c], c)
  {
    hide EntriesOk, LivesOk, CallsOk, NoneForgotten;
  }

  lemma VerdictKeepsApart(s: State, c: nat, pin: Option<Pin>)
    requires Inv(s) && KeptApart(s) && c in s.calls && Pending(s.calls, c)
    ensures var s' := AfterVerdict(s, c, pin);
            && |s'.lives| == |s.lives|
            && (forall l :: 0 <= l < |s.lives| && l != c ==> s'.lives[l] == s.lives[l])
            && OwnOnly(s'.lives[c], c)
  {
    hide EntriesOk, LivesOk, CallsOk, NoneForgotten;
  }

  lemma {:induction false} RunKeepsApart(run: seq<State>, i: nat)
    requires TimelyRun(run) && i < |run|
    ensures KeptApart(run[i])
  {
    hide *;
    TimelyAt(run, i);
    if i == 0 {
      StartsApart(run);
    } else {
      RunKeepsApart(run, i - 1);
      RunKeepsInv(run, i - 1);
      TimelyAt(run, i - 1);
      var step := StepOf(run, i - 1);
      NextKeepsApart(run[i - 1], run[i], step);
    }
  }

  lemma TimelyAt(run: seq<State>, i: nat)
    requires TimelyRun(run) && i < |run|
    ensures IsRun(run) && Timely(run[i]) && NoneEvicted(run[i])
  {
    hide IsRun, Timely, NoneEvicted;
  }

  lemma StartsApart(run: seq<State>)
    requires IsRun(run)
    ensures run != [] && KeptApart(run[0])
  {
    hide Next;
  }

  /** At most one advisory call is under way for a conversation, and it is the one its
      current entry fired. */
  lemma OneCallPerConversation(run: seq<State>, i: nat, c: nat, c': nat)
    requires TimelyRun(run) && i < |run|
    requires Pending(run[i].calls, c) && Pending(run[i].calls, c')
    requires c < |run[i].lives| && c' < |run[i].lives| && run[i].lives[c].key == run[i].lives[c'].key
    ensures c == c'
    ensures run[i].lives[c].key in run[i].reg
    ensures run[i].lives[c].key in run[i].owner && run[i].owner[run[i].lives[c].key] == c
  {
    RunKeepsInv(run, i);
    RunKeepsApart(run, i);
    hide EntriesOk, LivesOk, CallsOk, NoneForgotten;
  }

  /** All requests of the life that were shown a pin were shown the same one. */
  predicate OnePinSeen(life: Life) {
    forall a, b :: 0 <= a < |life.seen| && 0 <= b < |life.seen| && life.seen[a].Some? && life.seen[b].Some? ==>
      life.seen[a] == life.seen[b]
  }

  /** Each entry receives at most one verdict, its own call's, so a pin once shown never
      changes. */
  lemma OneVerdictPerEntry(run: seq<State>, i: nat, l: nat)
    requires TimelyRun(run) && i < |run| && l < |run[i].lives|
    ensures var life := run[i].lives[l];
            && |life.verdicts| <= 1
            && (forall v :: v in life.verdicts ==> v.call == l)
            && OnePinSeen(life)
  {
    hide *;
    OwnLife(run, i, l);
    OwnOnlyVerdicts(run[i].lives[l], l);
    OneVerdictOnePin(run[i].lives, run[i].lives[l]);
  }

  lemma OwnLife(run: seq<State>, i: nat, l: nat)
    requires TimelyRun(run) && i < |run| && l < |run[i].lives|
    ensures LifeOk(run[i].lives, run[i].lives[l]) && OwnOnly(run[i].lives[l], l)
  {
    TimelyAt(run, i);
    RunKeepsInv(run, i);
    RunKeepsApart(run, i);
    hide TimelyRun, IsRun, LifeOk, OwnOnly, OwnersOk, EntriesOk, CallsOk, NoneForgotten;
  }

  lemma OwnOnlyVerdicts(life: Life, l: nat)
    requires OwnOnly(life, l)
    ensures |life.verdicts| <= 1 && forall v :: v in life.verdicts ==> v.call == l
  {
  }

  lemma OneVerdictOnePin(lives: seq<Life>, life: Life)
    requires LifeOk(lives, life) && |life.verdicts| <= 1
    ensures OnePinSeen(life)
  {
    hide VerdictOk, EndingOk, PinBy;
    forall a, b | 0 <= a < |life.seen| && 0 <= b < |life.seen| && life.seen[a].Some? && life.seen[b].Some?
      ensures life.seen[a] == life.seen[b]
    {
      PinByWitness(life.verdicts, a);
      PinByWitness(life.verdicts, b);
    }
  }

  /** A second call for a conversation means the first entry lapsed, or its own call failed
      without any verdict having landed. */
  lemma RefireMeansLapseOrFailure(run: seq<State>, i: nat, l: nat, l': nat)
    requires TimelyRun(run) && i < |run| && l < l' < |run[i].lives|
    requires run[i].lives[l].key == run[i].lives[l'].key
    ensures run[i].lives[l].ending.Some?
    ensures match run[i].lives[l].ending.value
            case Lapsed(at) => at > run[i].lives[l].expires
            case Evicted => false
            case Abandoned(c) => c == l && run[i].lives[l].verdicts == []
  {
    RefireMeansEnded(run, i, l, l');
    RunKeepsApart(run, i);
    assert OwnOnly(run[i].lives[l], l) && run[i].lives[l].ending != Some(Evicted);
  }

  /** No entry is left waiting for nobody: one without a verdict has its own call on the way,
      unless that very call panicked. This needs no timing assumption. */
  lemma WaitingMeansPending(run: seq<State>, i: nat, key: string)
    requires IsRun(run) && i < |run| && key in run[i].reg && !run[i].reg[key].decided
    ensures key in run[i].owner && run[i].owner[key] < |run[i].lives|
    ensures var l := run[i].owner[key];
            && run[i].lives[l].key == key && run[i].lives[l].ending.None?
            && (Pending(run[i].calls, l) || run[i].lives[l].panicked)
  {
    RunKeepsInv(run, i);
    Current(run[i], key);
    hide LivesOk, CallsOk, OwnersOk, EntriesOk;
  }

  // ----- Why timeliness is needed -----

  /** A run in which the advisor is slower than the time to live: two calls are under way for
      one conversation, and the first one's verdict lands on the second one's entry. */
  lemma StaleVerdictReachesSuccessor() returns (run: seq<State>)
    ensures IsRun(run) && |run| == 6
    ensures |run[4].lives| == 2 && run[4].lives[0].key == run[4].lives[1].key
    ensures Pending(run[4].calls, 0) && Pending(run[4].calls, 1)
    ensures |run[5].lives| == 2 && |run[5].lives[1].verdicts| == 1 && run[5].lives[1].verdicts[0].call == 0
    ensures !TimelyRun(run)
  {
    var s5 := AfterVerdict(TwoCallsOut(), 0, Some(Pin("m", "r"))).(calls := map[0 := Landed, 1 := Fired]);
    run := [State(map[], map[], 0, [], map[], 0), OneCallOut(Fired, 0), OneCallOut(Running, 0), OneCallOut(Running, 5),
            TwoCallsOut(), s5];
    FirstCall();
    CallStarts();
    SecondCall();
    StaleLands();
    assert Init(run[0]);
    assert !Timely(run[3]) by {
      assert 0 in run[3].calls && Pending(run[3].calls, 0);
    }
    hide AfterVerdict, Timely, Next, OneCallOut;
    assert run[4] == TwoCallsOut();
  }

  function OneCallOut(phase: Phase, now: int): State {
    State(map["k" := Birth(0, 1)], map["k" := 0], now, [Life("k", 3, ["m"], 0, 1, [None], [], None, false)],
          map[0 := phase], Holding(phase))
  }

  function TwoCallsOut(): State {
    State(map["k" := Birth(5, 1)], map["k" := 1], 5,
          [Life("k", 3, ["m"], 0, 1, [None], [], Some(Lapsed(5)), false),
           Life("k", 3, ["m"], 5, 6, [None], [], None, false)],
          map[0 := Running, 1 := Fired], 1)
  }

  lemma FirstCall()
    ensures Next(State(map[], map[], 0, [], map[], 0), OneCallOut(Fired, 0))
  {
    hide Swept;
    var s0, s1 := State(map[], map[], 0, [], map[], 0), OneCallOut(Fired, 0);
    assert KeptOwners(s0.owner, s1.reg) == map[];
    assert NextBy(s0, s1, Request("k", 0, 1, 3, ["m"]));
  }

  lemma SecondCall()
    ensures Next(OneCallOut(Running, 5), TwoCallsOut())
  {
    hide Swept;
    var s3, s4 := OneCallOut(Running, 5), TwoCallsOut();
    assert s4.owner == KeptOwners(s3.owner, s4.reg)["k" := 1];
    assert NextBy(s3, s4, Request("k", 5, 1, 3, ["m"]));
  }

  lemma CallStarts()
    ensures Next(OneCallOut(Fired, 0), OneCallOut(Running, 0))
    ensures Next(OneCallOut(Running, 0), OneCallOut(Running, 5))
  {
    hide RequestStep, AfterFail, AfterVerdict;
    assert NextBy(OneCallOut(Fired, 0), OneCallOut(Running, 0), Acquire(0));
    assert NextBy(OneCallOut(Running, 0), OneCallOut(Running, 5), Tick);
  }

  lemma StaleLands()
    ensures var s5 := AfterVerdict(TwoCallsOut(), 0, Some(Pin("m", "r"))).(calls := map[0 := Landed, 1 := Fired]);
            && Next(TwoCallsOut(), s5)
            && |s5.lives| == 2 && s5.lives[1].verdicts == [Verdict(0, Some(Pin("m", "r")), 3, 1)]
  {
    hide RequestStep, AfterFail, Completed;
    var s4 := TwoCallsOut();
    assert s4.calls[0 := Landed] == map[0 := Landed, 1 := Fired];
    var s5 := AfterVerdict(s4, 0, Some(Pin("m", "r"))).(calls := s4.calls[0 := Landed]);
    assert NextBy(s4, s5, LandVerdict(0, true, "m", "r"));
  }
}
