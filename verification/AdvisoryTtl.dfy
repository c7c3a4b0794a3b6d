/**
 Is a conversation classified once per time to live? Exactly when it is not, and the runs that
 show it.
 */
module AdvisoryTtl {
  import opened Wrappers
  import opened AgentRegister
  import opened AdvisoryProtocol
  import opened AdvisoryRuns

  // ----- The exact condition -----

  /** The latest life of a conversation so far. */
  ghost predicate Latest(lives: seq<Life>, l: nat) {
    l < |lives| && forall m :: l < m < |lives| ==> lives[m].key != lives[l].key
  }

  /** Two lives of one conversation with no other in between. */
  ghost predicate Consecutive(lives: seq<Life>, l: nat, l': nat) {
    && l < l' < |lives| && lives[l].key == lives[l'].key
    && forall m :: l < m < l' ==> lives[m].key != lives[l].key
  }

  /** Exactly when a request that comes within the time to live of its conversation's latest
      entry fires a call all the same: that entry is over. It was evicted, abandoned by a failed
      call, or dropped as expired on a later clock reading than this request's own. */
  lemma FiresWithinTtl(run: seq<State>, i: nat, l: nat, at: int, ttl: int, window: int, allowed: seq<string>)
    requires IsRun(run) && i + 1 < |run| && Latest(run[i].lives, l)
    requires RequestStep(run[i], run[i + 1], run[i].lives[l].key, at, ttl, window, allowed)
    requires at <= run[i].lives[l].expires
    ensures |run[i + 1].lives| > |run[i].lives| <==> run[i].lives[l].ending.Some?
    ensures run[i].lives[l].ending.Some? ==>
              match run[i].lives[l].ending.value
              case Lapsed(t) => t > at
              case Evicted => true
              case Abandoned(c) => run[i].lives[l].verdicts == []
  {
    RunKeepsInv(run, i);
    LatestOpenIsHit(run, i, l, at);
    assert LifeOk(run[i].lives, run[i].lives[l]);
    hide Inv, LivesOk, SeenOk, Observed, Latest, Hit;
  }

  lemma LatestOpenIsHit(run: seq<State>, i: nat, l: nat, at: int)
    requires IsRun(run) && i < |run| && Latest(run[i].lives, l) && at <= run[i].lives[l].expires
    ensures l < |run[i].lives|
    ensures Hit(run[i].reg, run[i].lives[l].key, at) <==> run[i].lives[l].ending.None?
  {
    var s := run[i];
    var key := s.lives[l].key;
    RunKeepsInv(run, i);
    hide *;
    if key in s.reg {
      Current(s, key);
      LatestOwns(run, i, l, s.owner[key]);
      TellsExpiry(s.reg[key], s.lives[l], at);
      HitIs(s.reg, key, at);
    } else {
      HitIs(s.reg, key, at);
      LatestIsThere(s.lives, l);
      OpenIsOwned(s, l);
    }
  }

  lemma HitIs(reg: Table, key: string, at: int)
    ensures Hit(reg, key, at) <==> key in reg && at <= reg[key].expires
  {
  }

  lemma TellsExpiry(e: EntryState, l: Life, at: int)
    requires Tells(e, l)
    ensures e.expires == l.expires
  {
  }

  lemma OpenIsOwned(s: State, l: nat)
    requires Inv(s) && l < |s.lives|
    ensures s.lives[l].ending.None? ==> s.lives[l].key in s.reg
  {
  }

  lemma LatestIsThere(lives: seq<Life>, l: nat)
    requires Latest(lives, l)
    ensures l < |lives|
  {
  }

  lemma LatestOwns(run: seq<State>, i: nat, l: nat, o: nat)
    requires IsRun(run) && i < |run| && Latest(run[i].lives, l)
    requires o < |run[i].lives| && run[i].lives[o].key == run[i].lives[l].key && run[i].lives[o].ending.None?
    ensures o == l
  {
    hide IsRun;
    if o < l {
      EarlierLivesEnded(run, i, o, l);
    }
  }

  // ----- Told from the history -----

  /** A request of another conversation, on clock reading `t`, swept the key's entry from the full register. */
  ghost predicate SweptAway(s: State, s': State, key: string, t: int) {
    exists other, ttl, window, allowed ::
      && RequestStep(s, s', other, t, ttl, window, allowed)
      && other != key && other !in s.reg && |s.reg| >= MAX_ENTRIES
      && key in s.reg && key !in s'.reg
  }

  ghost predicate SweptBefore(run: seq<State>, i: nat, key: string, t: int) {
    exists j :: 0 <= j < i < |run| && SweptAway(run[j], run[j + 1], key, t)
  }

  /** A second call within the time to live of the entry before means that a failed call abandoned
      that entry, or that another conversation's request swept it from the full register. */
  lemma SecondCallWithinTtl(run: seq<State>, i: nat, l: nat, l': nat)
    requires IsRun(run) && i < |run| && Consecutive(run[i].lives, l, l')
    requires run[i].lives[l'].born <= run[i].lives[l].expires
    ensures run[i].lives[l].ending.Some?
    ensures var life := run[i].lives[l];
            match life.ending.value
            case Abandoned(c) => life.verdicts == []
            case Lapsed(t) => t > life.expires && SweptBefore(run, i, life.key, t)
            case Evicted => exists t :: t <= life.expires && SweptBefore(run, i, life.key, t)
  {
    RefireMeansEnded(run, i, l, l');
    EndedHow(run, i, l);
    hide IsRun, SweptBefore;
    if m: nat :| Consecutive(run[i].lives, l, m) && run[i].lives[l].ending == Some(Lapsed(run[i].lives[m].born)) {
      NextIsUnique(run[i].lives, l, l', m);
    }
  }

  lemma NextIsUnique(lives: seq<Life>, l: nat, m: nat, m': nat)
    requires Consecutive(lives, l, m) && Consecutive(lives, l, m')
    ensures m == m'
  {
  }

  /** The next life of the conversation was born at `t`. */
  ghost predicate ReplacedAt(lives: seq<Life>, l: nat, t: int) {
    exists m: nat :: Consecutive(lives, l, m) && lives[m].born == t
  }

  /** How an entry that lapsed or was evicted went: swept by another conversation's request, or,
      once expired, replaced by the next entry of its own. */
  ghost predicate Gone(run: seq<State>, i: nat, l: nat)
    requires i < |run| && l < |run[i].lives| && run[i].lives[l].ending.Some?
  {
    match run[i].lives[l].ending.value
    case Abandoned(_) => true
    case Evicted => exists t :: t <= run[i].lives[l].expires && SweptBefore(run, i, run[i].lives[l].key, t)
    case Lapsed(t) =>
      SweptBefore(run, i, run[i].lives[l].key, t) || ReplacedAt(run[i].lives, l, t)
  }

  lemma {:induction false} EndedHow(run: seq<State>, i: nat, l: nat)
    requires IsRun(run) && i < |run| && l < |run[i].lives| && run[i].lives[l].ending.Some?
    ensures Gone(run, i, l)
  {
    hide Inv, NextBy, IsRun, Gone, SweptAway;
    StartsEmpty(run);
    if i > 0 {
      RunKeepsInv(run, i - 1);
      var step := StepOf(run, i - 1);
      HistoryGrows(run[i - 1], run[i], step);
      if l < |run[i - 1].lives| && run[i - 1].lives[l].ending.Some? {
        EndedHow(run, i - 1, l);
        GoneStays(run, i, l);
      } else if l < |run[i - 1].lives| {
        EndsNow(run[i - 1], run[i], step, l);
        OpenIsLatest(run, i - 1, l);
        GoneNow(run, i, l);
      } else {
        BirthIsOpen(run[i - 1], run[i], step);
      }
    }
  }

  lemma GoneStays(run: seq<State>, i: nat, l: nat)
    requires 0 < i < |run| && l < |run[i - 1].lives| && run[i - 1].lives[l].ending.Some?
    requires Grows(run[i - 1].lives, run[i].lives) && Gone(run, i - 1, l)
    ensures Gone(run, i, l)
  {
    ReplacedStays(run[i - 1].lives, run[i].lives, l);
    hide SweptAway, ReplacedAt, Consecutive;
    match run[i].lives[l].ending.value
    case Abandoned(_) =>
    case Lapsed(t) => SweptStays(run, i, run[i].lives[l].key, t);
    case Evicted =>
      var t :| t <= run[i].lives[l].expires && SweptBefore(run, i - 1, run[i].lives[l].key, t);
      SweptStays(run, i, run[i].lives[l].key, t);
  }

  lemma SweptStays(run: seq<State>, i: nat, key: string, t: int)
    requires 0 < i < |run|
    ensures SweptBefore(run, i - 1, key, t) || SweptAway(run[i - 1], run[i], key, t) ==> SweptBefore(run, i, key, t)
  {
    hide SweptAway;
    assert SweptAway(run[i - 1], run[i - 1 + 1], key, t) ==> SweptBefore(run, i, key, t);
  }

  lemma ReplacedStays(lives: seq<Life>, lives': seq<Life>, l: nat)
    requires Grows(lives, lives')
    ensures forall t :: ReplacedAt(lives, l, t) ==> ReplacedAt(lives', l, t)
  {
    forall t | ReplacedAt(lives, l, t) ensures ReplacedAt(lives', l, t) {
      var m: nat :| Consecutive(lives, l, m) && lives[m].born == t;
      assert Consecutive(lives', l, m);
    }
  }

  /** An entry goes without a failed call: the key's own request replaced it once expired, or
      another's swept it. */
  ghost predicate GoesNow(s: State, s': State, l: nat)
    requires l < |s.lives| && l < |s'.lives| && s'.lives[l].ending.Some?
  {
    match s'.lives[l].ending.value
    case Abandoned(_) => true
    case Evicted => exists t :: t <= s.lives[l].expires && SweptAway(s, s', s.lives[l].key, t)
    case Lapsed(t) =>
      || SweptAway(s, s', s.lives[l].key, t)
      || (|s'.lives| == |s.lives| + 1 && s'.lives[|s.lives|].key == s.lives[l].key && s'.lives[|s.lives|].born == t)
  }

  lemma EndsNow(s: State, s': State, step: Step, l: nat)
    requires Inv(s) && NextBy(s, s', step) && l < |s.lives| && s.lives[l].ending.None?
    requires l < |s'.lives| && s'.lives[l].ending.Some?
    ensures GoesNow(s, s', l)
  {
    hide Inv, AfterFail, AfterVerdict, RequestStep, SweptAway;
    match step {
      case Tick | Acquire(_) | Saturate(_) | Release(_) | Panic(_) =>
      case ShutOut(c) => LandingReaches(s, c, None, l);
      case LandError(c) => LandingReaches(s, c, None, l);
      case LandVerdict(c, switch, model, reason) =>
        LandingReaches(s, c, PinOf(s.lives[c].allowed, switch, model, reason), l);
      case Request(key, at, ttl, window, allowed) =>
        RequestEnds(s, s', key, at, ttl, window, allowed, l);
    }
  }

  lemma RequestEnds(s: State, s': State, key: string, at: int, ttl: int, window: int, allowed: seq<string>, l: nat)
    requires Inv(s) && RequestStep(s, s', key, at, ttl, window, allowed) && l < |s.lives| && s.lives[l].ending.None?
    requires l < |s'.lives| && s'.lives[l].ending.Some?
    ensures GoesNow(s, s', l)
  {
    hide *;
    OpenIsHeld(s, l);
    RequestCloses(s, s', key, at, ttl, window, allowed, l);
    HitIs(s.reg, key, at);
    if s.lives[l].key != key {
      RequestSweeps(s, s', key, at, ttl, window, allowed, s.lives[l].key);
    }
    GoesWith(s, s', l, at);
  }

  lemma GoesWith(s: State, s': State, l: nat, at: int)
    requires l < |s.lives| && l < |s'.lives|
    requires s'.lives[l].ending == Some(if at > s.lives[l].expires then Lapsed(at) else Evicted)
    requires SweptAway(s, s', s.lives[l].key, at)
             || (at > s.lives[l].expires && |s'.lives| == |s.lives| + 1
                 && s'.lives[|s.lives|].key == s.lives[l].key && s'.lives[|s.lives|].born == at)
    ensures GoesNow(s, s', l)
  {
    hide SweptAway;
  }

  lemma RequestCloses(s: State, s': State, key: string, at: int, ttl: int, window: int, allowed: seq<string>, l: nat)
    requires RequestStep(s, s', key, at, ttl, window, allowed) && l < |s.lives| && s.lives[l].ending.None?
    requires l < |s'.lives| && s'.lives[l].ending.Some?
    ensures s'.lives[l].ending.value == if at > s.lives[l].expires then Lapsed(at) else Evicted
    ensures |s'.lives| == |s.lives| + 1 && s'.lives[|s.lives|].key == key && s'.lives[|s.lives|].born == at
    ensures s.lives[l].key != key ==> s.lives[l].key !in s'.reg
    ensures !Hit(s.reg, key, at)
  {
    hide Observed, Hit;
    if !Hit(s.reg, key, at) {
      assert s'.lives[l] == Close(s.lives[l], key, s'.reg, at);
    }
  }

  lemma RequestSweeps(s: State, s': State, key: string, at: int, ttl: int, window: int, allowed: seq<string>, k: string)
    requires RequestStep(s, s', key, at, ttl, window, allowed) && k != key && k in s.reg && k !in s'.reg
    ensures SweptAway(s, s', k, at)
  {
    hide Swept, Close;
  }

  lemma OpenIsHeld(s: State, l: nat)
    requires Inv(s) && l < |s.lives| && s.lives[l].ending.None?
    ensures var key := s.lives[l].key;
            && key in s.reg && s.reg[key].expires == s.lives[l].expires
  {
    hide EntriesOk, LivesOk, CallsOk, NoneForgotten;
    var key := s.lives[l].key;
    Current(s, key);
    TellsExpiry(s.reg[key], s.lives[l], 0);
  }

  lemma OpenIsLatest(run: seq<State>, i: nat, l: nat)
    requires IsRun(run) && i < |run| && l < |run[i].lives| && run[i].lives[l].ending.None?
    ensures Latest(run[i].lives, l)
  {
    hide IsRun;
    forall m | l < m < |run[i].lives| ensures run[i].lives[m].key != run[i].lives[l].key {
      if run[i].lives[m].key == run[i].lives[l].key {
        EarlierLivesEnded(run, i, l, m);
      }
    }
  }

  lemma GoneNow(run: seq<State>, i: nat, l: nat)
    requires 0 < i < |run| && Latest(run[i - 1].lives, l)
    requires Grows(run[i - 1].lives, run[i].lives) && run[i].lives[l].ending.Some?
    requires GoesNow(run[i - 1], run[i], l)
    ensures Gone(run, i, l)
  {
    NewReplaces(run[i - 1].lives, run[i].lives, l);
    hide SweptAway, ReplacedAt, Latest;
    match run[i].lives[l].ending.value
    case Abandoned(_) =>
    case Lapsed(t) => SweptStays(run, i, run[i].lives[l].key, t);
    case Evicted =>
      var t :| t <= run[i].lives[l].expires && SweptAway(run[i - 1], run[i], run[i].lives[l].key, t);
      SweptStays(run, i, run[i].lives[l].key, t);
  }

  lemma NewReplaces(lives: seq<Life>, lives': seq<Life>, l: nat)
    requires Latest(lives, l) && Grows(lives, lives')
    ensures |lives'| > |lives| && lives'[|lives|].key == lives[l].key ==> ReplacedAt(lives', l, lives'[|lives|].born)
  {
    assert |lives'| > |lives| && lives'[|lives|].key == lives[l].key ==> Consecutive(lives', l, |lives|);
  }

  lemma BirthIsOpen(s: State, s': State, step: Step)
    requires Inv(s) && NextBy(s, s', step) && |s'.lives| > |s.lives|
    ensures s'.lives[|s.lives|].ending.None?
  {
    hide Inv, AfterFail, AfterVerdict, RequestStep, Observed;
    match step {
      case Tick | Acquire(_) | Saturate(_) | Release(_) | Panic(_) =>
      case ShutOut(c) => LandingReaches(s, c, None, c);
      case LandError(c) => LandingReaches(s, c, None, c);
      case LandVerdict(c, switch, model, reason) =>
        LandingReaches(s, c, PinOf(s.lives[c].allowed, switch, model, reason), c);
      case Request(key, at, ttl, window, allowed) =>
        BornOpen(s, s', key, at, ttl, window, allowed);
    }
  }

  lemma BornOpen(s: State, s': State, key: string, at: int, ttl: int, window: int, allowed: seq<string>)
    requires RequestStep(s, s', key, at, ttl, window, allowed) && |s'.lives| > |s.lives|
    ensures s'.lives[|s.lives|].ending.None?
  {
    hide Observed;
  }

  // ----- With clock readings in order -----

  /** Every request reads the clock as it gets hold of the register. */
  ghost predicate OnTheClock(run: seq<State>) {
    && IsRun(run)
    && forall i :: 0 <= i < |run| - 1 ==> NextOnTheClock(run[i], run[i + 1])
  }

  ghost predicate NextOnTheClock(s: State, s': State) {
    exists step :: NextBy(s, s', step) && ReadsNow(s, step)
  }

  predicate ReadsNow(s: State, step: Step) {
    step.Request? ==> step.at == s.now
  }

  /** Lives are born, and entries dropped as expired, by the clock's present reading. */
  ghost predicate Dated(s: State) {
    && (forall l :: 0 <= l < |s.lives| ==> s.lives[l].born <= s.now)
    && (forall l :: 0 <= l < |s.lives| && s.lives[l].ending.Some? && s.lives[l].ending.value.Lapsed? ==>
          s.lives[l].ending.value.at <= s.now)
    && (forall l, l' :: 0 <= l < l' < |s.lives| && s.lives[l].key == s.lives[l'].key ==>
          DroppedBefore(s.lives[l], s.lives[l']))
  }

  predicate DroppedBefore(l: Life, l': Life) {
    l.ending.Some? && (l.ending.value.Lapsed? ==> l.ending.value.at <= l'.born)
  }

  lemma {:induction false} ClockKeepsDates(run: seq<State>, i: nat)
    requires OnTheClock(run) && i < |run|
    ensures Dated(run[i])
  {
    if i == 0 {
      StartsEmpty(run);
    } else {
      ClockKeepsDates(run, i - 1);
      RunKeepsInv(run, i - 1);
      var s, s' := run[i - 1], run[i];
      assert NextOnTheClock(s, run[i - 1 + 1]);
      var step :| NextBy(s, s', step) && ReadsNow(s, step);
      hide OnTheClock, IsRun, Inv;
      StepKeepsDates(s, s', step);
    }
  }

  lemma StepKeepsDates(s: State, s': State, step: Step)
    requires Inv(s) && Dated(s) && NextBy(s, s', step) && ReadsNow(s, step)
    ensures Dated(s')
  {
    hide Inv, Dated, AfterFail, AfterVerdict, RequestStep;
    match step {
      case Tick | Acquire(_) | Saturate(_) | Release(_) => SameLivesDated(s, s');
      case Panic(c) => PanicDated(s, s', c);
      case ShutOut(c) =>
        LandingTakesNoTime(s, c, None);
        LandingDated(s, s', c, None);
      case LandError(c) =>
        LandingTakesNoTime(s, c, None);
        LandingDated(s, s', c, None);
      case LandVerdict(c, switch, model, reason) =>
        LandingTakesNoTime(s, c, PinOf(s.lives[c].allowed, switch, model, reason));
        LandingDated(s, s', c, PinOf(s.lives[c].allowed, switch, model, reason));
      case Request(key, at, ttl, window, allowed) => RequestDated(s, s', key, at, ttl, window, allowed);
    }
  }

  lemma SameLivesDated(s: State, s': State)
    requires Dated(s) && s'.lives == s.lives && s'.now >= s.now
    ensures Dated(s')
  {
    hide DroppedBefore;
  }

  lemma PanicDated(s: State, s': State, c: nat)
    requires Dated(s) && c < |s.lives| && s'.now == s.now
    requires s'.lives == s.lives[c := s.lives[c].(panicked := true)]
    ensures Dated(s')
  {
  }

  lemma LandingTakesNoTime(s: State, c: nat, pin: Option<Pin>)
    requires c < |s.lives|
    ensures AfterFail(s, c).now == s.now && AfterVerdict(s, c, pin).now == s.now
  {
    hide Failed, Completed;
  }

  /** A landing leaves a life as it is, adds a verdict, or abandons it. */
  predicate Reached(l: Life, l': Life) {
    && l'.key == l.key && l'.born == l.born
    && (l'.ending == l.ending || (l'.ending.Some? && l'.ending.value.Abandoned?))
  }

  lemma LandingReaches(s: State, c: nat, pin: Option<Pin>, k: nat)
    requires c < |s.lives| && k < |s.lives|
    ensures |AfterFail(s, c).lives| == |s.lives| && Reached(s.lives[k], AfterFail(s, c).lives[k])
    ensures |AfterVerdict(s, c, pin).lives| == |s.lives| && Reached(s.lives[k], AfterVerdict(s, c, pin).lives[k])
  {
    hide Failed, Completed;
  }

  lemma LandingDated(s: State, s': State, c: nat, pin: Option<Pin>)
    requires Dated(s) && c < |s.lives| && s'.now == s.now
    requires s'.lives == AfterFail(s, c).lives || s'.lives == AfterVerdict(s, c, pin).lives
    ensures Dated(s')
  {
    hide AfterFail, AfterVerdict, Dated;
    LandingReaches(s, c, pin, c);
    forall k | 0 <= k < |s.lives| ensures Reached(s.lives[k], s'.lives[k]) {
      LandingReaches(s, c, pin, k);
    }
    ReachedDated(s, s');
  }

  lemma ReachedDated(s: State, s': State)
    requires Dated(s) && |s'.lives| == |s.lives| && s'.now == s.now
    requires forall k :: 0 <= k < |s.lives| ==> Reached(s.lives[k], s'.lives[k])
    ensures Dated(s')
  {
    forall l, l' | 0 <= l < l' < |s.lives| && s'.lives[l].key == s'.lives[l'].key
      ensures DroppedBefore(s'.lives[l], s'.lives[l'])
    {
      assert DroppedBefore(s.lives[l], s.lives[l']);
    }
  }

  lemma RequestDated(s: State, s': State, key: string, at: int, ttl: int, window: int, allowed: seq<string>)
    requires Inv(s) && Dated(s) && RequestStep(s, s', key, at, ttl, window, allowed) && at == s.now
    ensures Dated(s')
  {
    hide Inv, Observed, Dated, Close;
    if Hit(s.reg, key, at) {
      forall k | 0 <= k < |s.lives| ensures Reached(s.lives[k], s'.lives[k]) {
      }
      ReachedDated(s, s');
    } else {
      BirthDated(s, s', key, at);
    }
  }

  lemma BirthDated(s: State, s': State, key: string, at: int)
    requires Dated(s) && at == s.now == s'.now
    requires |s'.lives| == |s.lives| + 1 && s'.lives[|s.lives|].key == key && s'.lives[|s.lives|].born == at
    requires s'.lives[|s.lives|].ending.None?
    requires forall i :: 0 <= i < |s.lives| ==> s'.lives[i] == Close(s.lives[i], key, s'.reg, at)
    ensures Dated(s')
  {
    forall l, l' | 0 <= l < l' < |s'.lives| && s'.lives[l].key == s'.lives[l'].key
      ensures DroppedBefore(s'.lives[l], s'.lives[l'])
    {
      if l' < |s.lives| {
        assert DroppedBefore(s.lives[l], s.lives[l']);
      }
    }
  }

  predicate GoneEarly(l: Life) {
    l.ending.Some? && (l.ending.value.Evicted? || l.ending.value.Abandoned?)
  }

  /** With clock readings in order, a conversation comes back within the time to live only to an
      entry that was evicted or abandoned. */
  lemma BackOnTheClock(run: seq<State>, i: nat, l: nat, l': nat)
    requires OnTheClock(run) && i < |run| && Consecutive(run[i].lives, l, l')
    requires run[i].lives[l'].born <= run[i].lives[l].expires
    ensures GoneEarly(run[i].lives[l])
  {
    ClockKeepsDates(run, i);
    RefireMeansEnded(run, i, l, l');
    hide OnTheClock, IsRun;
    assert DroppedBefore(run[i].lives[l], run[i].lives[l']);
  }

  /** And a request within the time to live of its conversation's latest entry fires exactly when
      that entry was evicted or abandoned. */
  lemma FiresOnTheClock(run: seq<State>, i: nat, l: nat, ttl: int, window: int, allowed: seq<string>)
    requires OnTheClock(run) && i + 1 < |run| && Latest(run[i].lives, l)
    requires RequestStep(run[i], run[i + 1], run[i].lives[l].key, run[i].now, ttl, window, allowed)
    requires run[i].now <= run[i].lives[l].expires
    ensures |run[i + 1].lives| > |run[i].lives| <==> GoneEarly(run[i].lives[l])
  {
    ClockKeepsDates(run, i);
    hide RequestStep;
    FiresWithinTtl(run, i, l, run[i].now, ttl, window, allowed);
    hide IsRun, Latest;
  }

  // ----- A failed call is repeated -----

  /** A run in which every call lands in time and nothing is evicted, and yet the conversation is
      classified twice within one time to live: the first call failed. */
  lemma FailedCallIsRepeated() returns (run: seq<State>)
    ensures TimelyRun(run) && OnTheClock(run) && |run| == 5
    ensures Consecutive(run[4].lives, 0, 1) && run[4].lives[0].ending == Some(Abandoned(0))
    ensures run[4].lives[1].born <= run[4].lives[0].expires
  {
    var s0 := State(map[], map[], 0, [], map[], 0);
    run := [s0, Patient(Fired), Patient(Running), CallFailed(), Repeated()];
    RepeatSteps();
    InTime();
    hide *;
    OnTheClockIs(run);
    TimelyIs(run);
  }

  lemma OnTheClockIs(run: seq<State>)
    requires |run| == 5 && Init(run[0])
    requires NextOnTheClock(run[0], run[1]) && NextOnTheClock(run[1], run[2])
    requires NextOnTheClock(run[2], run[3]) && NextOnTheClock(run[3], run[4])
    ensures IsRun(run) && OnTheClock(run)
  {
    hide Init, NextBy, ReadsNow;
  }

  lemma TimelyIs(run: seq<State>)
    requires |run| == 5 && IsRun(run)
    requires Timely(run[0]) && NoneEvicted(run[0]) && Timely(run[1]) && NoneEvicted(run[1])
    requires Timely(run[2]) && NoneEvicted(run[2]) && Timely(run[3]) && NoneEvicted(run[3])
    requires Timely(run[4]) && NoneEvicted(run[4])
    ensures TimelyRun(run)
  {
    hide IsRun, Timely, NoneEvicted;
  }

  function Patient(phase: Phase): State {
    State(map["k" := Birth(0, 10)], map["k" := 0], 0, [Life("k", 3, ["m"], 0, 10, [None], [], None, false)],
          map[0 := phase], Holding(phase))
  }

  function CallFailed(): State {
    State(map[], map[], 0, [Life("k", 3, ["m"], 0, 10, [None], [], Some(Abandoned(0)), false)], map[0 := Landed], 1)
  }

  function Repeated(): State {
    var life := Life("k", 3, ["m"], 0, 10, [None], [], None, false);
    State(map["k" := Birth(0, 10)], map["k" := 1], 0, [life.(ending := Some(Abandoned(0))), life],
          map[0 := Landed, 1 := Fired], 1)
  }

  lemma InTime()
    ensures var s0 := State(map[], map[], 0, [], map[], 0);
            && Timely(s0) && NoneEvicted(s0)
            && Timely(Patient(Fired)) && NoneEvicted(Patient(Fired))
            && Timely(Patient(Running)) && NoneEvicted(Patient(Running))
            && Timely(CallFailed()) && NoneEvicted(CallFailed())
            && Timely(Repeated()) && NoneEvicted(Repeated())
  {
  }

  lemma RepeatSteps()
    ensures var s0 := State(map[], map[], 0, [], map[], 0);
            && Init(s0)
            && NextOnTheClock(s0, Patient(Fired))
            && NextOnTheClock(Patient(Fired), Patient(Running))
            && NextOnTheClock(Patient(Running), CallFailed())
            && NextOnTheClock(CallFailed(), Repeated())
    ensures Consecutive(Repeated().lives, 0, 1) && Repeated().lives[0].ending == Some(Abandoned(0))
    ensures Repeated().lives[1].born <= Repeated().lives[0].expires
  {
    FirstRequest();
    CallRuns();
    CallFails();
    RequestAgain();
    hide NextOnTheClock;
  }

  lemma FirstRequest()
    ensures NextOnTheClock(State(map[], map[], 0, [], map[], 0), Patient(Fired))
  {
    hide Swept, AfterVerdict, AfterFail;
    var s, request := State(map[], map[], 0, [], map[], 0), Request("k", 0, 10, 3, ["m"]);
    assert KeptOwners(map[], Patient(Fired).reg) == map[];
    assert NextBy(s, Patient(Fired), request) && ReadsNow(s, request);
  }

  lemma CallRuns()
    ensures NextOnTheClock(Patient(Fired), Patient(Running))
  {
    hide RequestStep, AfterVerdict, AfterFail;
    assert NextBy(Patient(Fired), Patient(Running), Acquire(0)) && ReadsNow(Patient(Fired), Acquire(0));
  }

  lemma CallFails()
    ensures NextOnTheClock(Patient(Running), CallFailed())
  {
    hide RequestStep, AfterVerdict;
    assert Failed(map["k" := Birth(0, 10)], "k") == map[];
    assert map["k" := 0] - {"k"} == map[];
    assert NextBy(Patient(Running), CallFailed(), LandError(0)) && ReadsNow(Patient(Running), LandError(0));
  }

  lemma RequestAgain()
    ensures NextOnTheClock(CallFailed(), Repeated())
  {
    hide Swept, AfterVerdict, AfterFail;
    var request := Request("k", 0, 10, 3, ["m"]);
    assert KeptOwners(map[], Repeated().reg) == map[];
    assert NextBy(CallFailed(), Repeated(), request) && ReadsNow(CallFailed(), request);
  }
}
