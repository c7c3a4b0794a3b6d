/**
 Where a call's verdict or failure lands: on the entry that fired the call, or, if that is over
 and its conversation has come back, on the entry of the new lifetime.
 */
module AdvisoryStray {
  import opened Wrappers
  import opened AgentRegister
  import opened AdvisoryProtocol
  import opened AdvisoryRuns

  /** The call's own entry is over and another one has taken its place. */
  predicate Strays(s: State, c: nat) {
    c < |s.lives| && s.lives[c].ending.Some? && s.lives[c].key in s.reg
  }

  /** The entry now under a call's key is the call's own exactly while the life it opened lasts. */
  lemma OwnEntry(run: seq<State>, i: nat, c: nat)
    requires IsRun(run) && i < |run| && c < |run[i].lives| && run[i].lives[c].key in run[i].reg
    ensures run[i].lives[c].key in run[i].owner
    ensures run[i].owner[run[i].lives[c].key] == c <==> run[i].lives[c].ending.None?
  {
    RunKeepsInv(run, i);
    OwnOrOver(run[i], c);
  }

  lemma OwnOrOver(s: State, c: nat)
    requires Inv(s) && c < |s.lives| && s.lives[c].key in s.reg
    ensures s.lives[c].key in s.owner && s.owner[s.lives[c].key] < |s.lives|
    ensures s.owner[s.lives[c].key] == c <==> s.lives[c].ending.None?
    ensures s.lives[s.owner[s.lives[c].key]].ending.None?
  {
    hide EntriesOk, LivesOk, CallsOk, NoneForgotten;
  }

  // ----- One landing -----

  /** A verdict lands on whatever entry is under the key, or on none. */
  lemma VerdictEffect(s: State, s': State, c: nat, switch: bool, model: string, reason: string)
    requires Inv(s) && NextBy(s, s', LandVerdict(c, switch, model, reason))
    ensures c < |s.lives| && Pending(s.calls, c) && !Pending(s'.calls, c)
    ensures forall d :: Pending(s'.calls, d) ==> Pending(s.calls, d)
    ensures s.lives[c].key !in s.reg ==> s'.lives == s.lives
    ensures s.lives[c].key in s.reg ==>
              && s.lives[c].key in s.owner && s.owner[s.lives[c].key] < |s.lives|
              && Gains(s, s', s.owner[s.lives[c].key], c)
              && (s.owner[s.lives[c].key] == c <==> s.lives[c].ending.None?)
  {
    hide RequestStep, AfterFail, Completed, Inv;
    if s.lives[c].key in s.reg {
      OwnOrOver(s, c);
    }
  }

  function WithVerdict(lives: seq<Life>, o: nat, v: Verdict): seq<Life>
    requires o < |lives|
  {
    lives[o := lives[o].(verdicts := lives[o].verdicts + [v])]
  }

  /** The only change to the lives: call c's verdict is added to life o. */
  ghost predicate Gains(s: State, s': State, o: nat, c: nat) {
    && o < |s.lives|
    && exists v: Verdict :: v.call == c && s'.lives == WithVerdict(s.lives, o, v)
  }

  /** Some life other than the call's own receives a verdict. */
  ghost predicate ReachesAnother(s: State, s': State, c: nat) {
    |s'.lives| == |s.lives| &&
    exists l :: 0 <= l < |s.lives| && l != c && |s'.lives[l].verdicts| > |s.lives[l].verdicts|
  }

  /** Exactly when a verdict lands on another entry than the one whose call it answers. */
  lemma VerdictStraysExactly(run: seq<State>, i: nat, c: nat, switch: bool, model: string, reason: string)
    requires IsRun(run) && i + 1 < |run| && NextBy(run[i], run[i + 1], LandVerdict(c, switch, model, reason))
    ensures ReachesAnother(run[i], run[i + 1], c) <==> Strays(run[i], c)
  {
    RunKeepsInv(run, i);
    VerdictEffect(run[i], run[i + 1], c, switch, model, reason);
    hide NextBy, IsRun, Inv;
  }

  /** Some life other than the call's own is ended. */
  ghost predicate EndsAnother(s: State, s': State, c: nat) {
    |s'.lives| == |s.lives| &&
    exists l :: 0 <= l < |s.lives| && l != c && s.lives[l].ending.None? && s'.lives[l].ending.Some?
  }

  /** Exactly when a failure abandons another entry than the one whose call failed; that entry's own
      call is then still out, unless it panicked. */
  lemma FailureStraysExactly(run: seq<State>, i: nat, c: nat)
    requires IsRun(run) && i + 1 < |run|
    requires NextBy(run[i], run[i + 1], LandError(c)) || NextBy(run[i], run[i + 1], ShutOut(c))
    ensures EndsAnother(run[i], run[i + 1], c) <==> Strays(run[i], c) && !run[i].reg[run[i].lives[c].key].decided
    ensures EndsAnother(run[i], run[i + 1], c) ==>
              var o := run[i].owner[run[i].lives[c].key];
              && o < |run[i].lives| && o != c && run[i + 1].lives[o].ending == Some(Abandoned(c))
              && (Pending(run[i].calls, o) || run[i].lives[o].panicked)
  {
    RunKeepsInv(run, i);
    FailureEffect(run[i], run[i + 1], c);
    if run[i].lives[c].key in run[i].reg && !run[i].reg[run[i].lives[c].key].decided {
      WaitingMeansPending(run, i, run[i].lives[c].key);
    }
    hide NextBy, IsRun, Inv;
  }

  lemma FailureEffect(s: State, s': State, c: nat)
    requires Inv(s) && (NextBy(s, s', LandError(c)) || NextBy(s, s', ShutOut(c)))
    ensures c < |s.lives|
    ensures var key := s.lives[c].key;
            if key in s.reg && !s.reg[key].decided then
              && key in s.owner && s.owner[key] < |s.lives| && s.lives[s.owner[key]].ending.None?
              && s'.lives == s.lives[s.owner[key] := s.lives[s.owner[key]].(ending := Some(Abandoned(c)))]
              && (s.owner[key] == c <==> s.lives[c].ending.None?)
            else s'.lives == s.lives
  {
    hide RequestStep, AfterVerdict, Failed, Inv;
    if s.lives[c].key in s.reg {
      OwnOrOver(s, c);
    }
  }

  // ----- Whole runs -----

  /** A verdict that strays lands between two states. */
  ghost predicate StrayLanding(s: State, s': State) {
    exists c: nat, switch, model, reason :: NextBy(s, s', LandVerdict(c, switch, model, reason)) && Strays(s, c)
  }

  /** Each verdict is from the call that the life itself fired. */
  ghost predicate AllOwn(lives: seq<Life>) {
    forall l, v :: 0 <= l < |lives| && v in lives[l].verdicts ==> v.call == l
  }

  /** No call has landed twice, and none that landed is still pending. */
  ghost predicate LandedOnce(s: State) {
    && (forall l, v :: 0 <= l < |s.lives| && v in s.lives[l].verdicts ==>
          v.call < |s.lives| && !Pending(s.calls, v.call))
    && (forall l, a, b :: 0 <= l < |s.lives| && 0 <= a < b < |s.lives[l].verdicts| ==>
          s.lives[l].verdicts[a].call != s.lives[l].verdicts[b].call)
  }

  /** No verdict lands in this step. */
  ghost predicate Quiet(s: State, s': State) {
    && |s.lives| <= |s'.lives|
    && (forall l :: 0 <= l < |s'.lives| ==> s'.lives[l].verdicts == if l < |s.lives| then s.lives[l].verdicts else [])
    && (forall d :: 0 <= d < |s.lives| && Pending(s'.calls, d) ==> Pending(s.calls, d))
  }

  lemma QuietStep(s: State, s': State, step: Step)
    requires Inv(s) && NextBy(s, s', step) && !step.LandVerdict?
    ensures Quiet(s, s')
  {
    hide RequestStep, AfterFail, AfterVerdict, Inv;
    match step {
      case Tick | Acquire(_) | Saturate(_) | Release(_) | Panic(_) =>
      case ShutOut(c) => FailureEffect(s, s', c);
      case LandError(c) => FailureEffect(s, s', c);
      case Request(key, at, ttl, window, allowed) => RequestQuiet(s, s', key, at, ttl, window, allowed);
    }
  }

  lemma RequestQuiet(s: State, s': State, key: string, at: int, ttl: int, window: int, allowed: seq<string>)
    requires RequestStep(s, s', key, at, ttl, window, allowed)
    ensures Quiet(s, s')
  {
    hide Observed, Hit;
    if !Hit(s.reg, key, at) {
      forall l | 0 <= l < |s.lives| ensures s'.lives[l].verdicts == s.lives[l].verdicts {
        assert s'.lives[l] == Close(s.lives[l], key, s'.reg, at);
      }
    }
  }

  lemma QuietKeeps(s: State, s': State)
    requires Quiet(s, s')
    ensures AllOwn(s'.lives) <==> AllOwn(s.lives)
    ensures LandedOnce(s) ==> LandedOnce(s')
  {
    hide Pending;
    if AllOwn(s'.lives) {
      forall l, v | 0 <= l < |s.lives| && v in s.lives[l].verdicts ensures v.call == l {
        assert v in s'.lives[l].verdicts;
      }
    }
  }

  lemma QuietNotStray(s: State, s': State)
    requires Inv(s) && Quiet(s, s')
    ensures !StrayLanding(s, s')
  {
    if c: nat, switch, model, reason :| NextBy(s, s', LandVerdict(c, switch, model, reason)) && Strays(s, c) {
      VerdictEffect(s, s', c, switch, model, reason);
      hide NextBy, Inv;
      assert false;
    }
  }

  lemma VerdictKeeps(s: State, s': State, o: nat, c: nat)
    requires Gains(s, s', o, c) && LandedOnce(s) && c < |s.lives| && Pending(s.calls, c) && !Pending(s'.calls, c)
    requires forall d :: Pending(s'.calls, d) ==> Pending(s.calls, d)
    ensures AllOwn(s'.lives) <==> AllOwn(s.lives) && o == c
    ensures LandedOnce(s')
  {
    hide Pending;
    var w: Verdict :| w.call == c && s'.lives == WithVerdict(s.lives, o, w);
    assert w in s'.lives[o].verdicts;
    forall l, v | 0 <= l < |s.lives| && v in s.lives[l].verdicts ensures v in s'.lives[l].verdicts {
    }
    forall l, a, b | 0 <= l < |s'.lives| && 0 <= a < b < |s'.lives[l].verdicts|
      ensures s'.lives[l].verdicts[a].call != s'.lives[l].verdicts[b].call
    {
      assert l == o && b == |s.lives[o].verdicts| ==> s.lives[o].verdicts[a] in s.lives[o].verdicts;
    }
  }

  lemma LandingOwn(s: State, s': State, c: nat, switch: bool, model: string, reason: string)
    requires Inv(s) && LandedOnce(s) && NextBy(s, s', LandVerdict(c, switch, model, reason))
    ensures AllOwn(s'.lives) <==> AllOwn(s.lives) && !StrayLanding(s, s')
    ensures LandedOnce(s')
  {
    hide *;
    VerdictEffect(s, s', c, switch, model, reason);
    StrayIs(s, s', c, switch, model, reason);
    if s.lives[c].key in s.reg {
      VerdictKeeps(s, s', s.owner[s.lives[c].key], c);
      StraysIs(s, c);
    } else {
      StraysIs(s, c);
      NothingLands(s, s');
      QuietKeeps(s, s');
    }
  }

  lemma StraysIs(s: State, c: nat)
    requires c < |s.lives|
    ensures Strays(s, c) <==> s.lives[c].ending.Some? && s.lives[c].key in s.reg
  {
  }

  lemma NothingLands(s: State, s': State)
    requires s'.lives == s.lives && forall d :: Pending(s'.calls, d) ==> Pending(s.calls, d)
    ensures Quiet(s, s')
  {
  }

  /** A transition by which a verdict lands can be explained by no other call's verdict. */
  lemma StrayIs(s: State, s': State, c: nat, switch: bool, model: string, reason: string)
    requires Inv(s) && NextBy(s, s', LandVerdict(c, switch, model, reason))
    ensures StrayLanding(s, s') <==> Strays(s, c)
  {
    hide NextBy, Inv;
    assert Strays(s, c) ==> StrayLanding(s, s');
    if d: nat, w, m, r :| NextBy(s, s', LandVerdict(d, w, m, r)) && Strays(s, d) {
      VerdictEffect(s, s', c, switch, model, reason);
      VerdictEffect(s, s', d, w, m, r);
      if s.lives[c].key in s.reg {
        SameLanding(s, s', s.owner[s.lives[c].key], c, s.owner[s.lives[d].key], d);
      } else {
        GainsSomething(s, s', s.owner[s.lives[d].key], d);
      }
    }
  }

  lemma GainsSomething(s: State, s': State, o: nat, c: nat)
    requires Gains(s, s', o, c)
    ensures s'.lives != s.lives
  {
    var v: Verdict :| v.call == c && s'.lives == WithVerdict(s.lives, o, v);
    assert |s'.lives[o].verdicts| > |s.lives[o].verdicts|;
  }

  lemma SameLanding(s: State, s': State, o: nat, c: nat, o': nat, d: nat)
    requires Gains(s, s', o, c) && Gains(s, s', o', d)
    ensures o == o' && c == d
  {
    var v: Verdict :| v.call == c && s'.lives == WithVerdict(s.lives, o, v);
    var w: Verdict :| w.call == d && s'.lives == WithVerdict(s.lives, o', w);
    assert s'.lives[o].verdicts == s.lives[o].verdicts + [v];
    assert |s'.lives[o].verdicts| > |s.lives[o].verdicts|;
    assert s'.lives[o'].verdicts == s.lives[o'].verdicts + [w];
    assert s'.lives[o].verdicts[|s.lives[o].verdicts|] == v;
  }

  /** No verdict has strayed on the way to state i. */
  ghost predicate NoneStrayed(run: seq<State>, i: nat)
    requires i < |run|
  {
    forall j :: 0 <= j < i ==> !StrayLanding(run[j], run[j + 1])
  }

  lemma {:induction false} RunOwn(run: seq<State>, i: nat)
    requires IsRun(run) && i < |run|
    ensures LandedOnce(run[i])
    ensures AllOwn(run[i].lives) <==> NoneStrayed(run, i)
  {
    if i == 0 {
      StartsEmpty(run);
      hide StrayLanding, IsRun;
    } else {
      hide *;
      RunOwn(run, i - 1);
      RunKeepsInv(run, i - 1);
      var step := StepOf(run, i - 1);
      StepOwn(run[i - 1], run[i], step);
      NoneStrayedStep(run, i);
    }
  }

  lemma NoneStrayedStep(run: seq<State>, i: nat)
    requires 0 < i < |run|
    ensures NoneStrayed(run, i) <==> NoneStrayed(run, i - 1) && !StrayLanding(run[i - 1], run[i])
  {
    hide StrayLanding;
    assert NoneStrayed(run, i) ==> !StrayLanding(run[i - 1], run[i - 1 + 1]);
  }

  lemma StepOwn(s: State, s': State, step: Step)
    requires Inv(s) && LandedOnce(s) && NextBy(s, s', step)
    ensures AllOwn(s'.lives) <==> AllOwn(s.lives) && !StrayLanding(s, s')
    ensures LandedOnce(s')
  {
    hide *;
    match step {
      case LandVerdict(c, switch, model, reason) => LandingOwn(s, s', c, switch, model, reason);
      case _ =>
        QuietStep(s, s', step);
        QuietKeeps(s, s');
        QuietNotStray(s, s');
    }
  }

  /** Exactly when every entry has had at most one verdict, its own call's: no verdict has strayed.
      Then all requests of a lifetime that were shown a pin were shown the same one. */
  lemma OneVerdictExactly(run: seq<State>, i: nat)
    requires IsRun(run) && i < |run|
    ensures AllOwn(run[i].lives) <==> NoneStrayed(run, i)
    ensures AllOwn(run[i].lives) ==>
              forall l :: 0 <= l < |run[i].lives| ==> |run[i].lives[l].verdicts| <= 1 && OnePinSeen(run[i].lives[l])
  {
    hide *;
    RunOwn(run, i);
    if AllOwn(run[i].lives) {
      forall l | 0 <= l < |run[i].lives| ensures |run[i].lives[l].verdicts| <= 1 && OnePinSeen(run[i].lives[l]) {
        OwnMeansOne(run, i, l);
      }
    }
  }

  lemma OwnMeansOne(run: seq<State>, i: nat, l: nat)
    requires IsRun(run) && i < |run| && l < |run[i].lives| && AllOwn(run[i].lives) && LandedOnce(run[i])
    ensures |run[i].lives[l].verdicts| <= 1 && OnePinSeen(run[i].lives[l])
  {
    hide *;
    RunKeepsInv(run, i);
    LifeAt(run[i], l);
    OwnAtMostOne(run[i], l);
    OneVerdictOnePin(run[i].lives, run[i].lives[l]);
  }

  lemma OwnAtMostOne(s: State, l: nat)
    requires l < |s.lives| && AllOwn(s.lives) && LandedOnce(s)
    ensures |s.lives[l].verdicts| <= 1
  {
    hide *;
    FirstTwoOwn(s, l);
    FirstTwoDiffer(s, l);
  }

  lemma FirstTwoOwn(s: State, l: nat)
    requires l < |s.lives| && AllOwn(s.lives)
    ensures var vs := s.lives[l].verdicts; |vs| > 1 ==> vs[0].call == l && vs[1].call == l
  {
  }

  lemma FirstTwoDiffer(s: State, l: nat)
    requires l < |s.lives| && LandedOnce(s)
    ensures var vs := s.lives[l].verdicts; |vs| > 1 ==> vs[0].call != vs[1].call
  {
    hide Pending;
  }

  // ----- A failure that strays -----

  /** A run in which the first call of a conversation fails after its entry has lapsed, and abandons
      the entry of the new lifetime, whose own call has just been fired. */
  lemma StaleFailureReachesSuccessor() returns (run: seq<State>)
    ensures IsRun(run) && |run| == 6
    ensures |run[4].lives| == 2 && Pending(run[4].calls, 1) && run[4].lives[1].ending.None?
    ensures |run[5].lives| == 2 && run[5].lives[1].ending == Some(Abandoned(0))
  {
    var s0 := State(map[], map[], 0, [], map[], 0);
    var s5 := AfterFail(TwoCallsOut(), 0).(calls := map[0 := Landed, 1 := Fired]);
    run := [s0, OneCallOut(Fired, 0), OneCallOut(Running, 0), OneCallOut(Running, 5), TwoCallsOut(), s5];
    FirstCall();
    CallStarts();
    SecondCall();
    StaleFailure();
    assert Init(run[0]);
    hide AfterFail, Next, OneCallOut, Init;
    assert run[4] == TwoCallsOut();
  }

  lemma StaleFailure()
    ensures var s5 := AfterFail(TwoCallsOut(), 0).(calls := map[0 := Landed, 1 := Fired]);
            && Next(TwoCallsOut(), s5)
            && |s5.lives| == 2 && s5.lives[1].ending == Some(Abandoned(0))
  {
    hide RequestStep, AfterVerdict, Failed;
    var s4 := TwoCallsOut();
    assert s4.calls[0 := Landed] == map[0 := Landed, 1 := Fired];
    var s5 := AfterFail(s4, 0).(calls := s4.calls[0 := Landed]);
    assert NextBy(s4, s5, LandError(0));
  }
}
