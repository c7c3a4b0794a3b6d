/**
 From the advisor's answer to the request that sees it: what a landing verdict leaves in the
 register, which request is shown it, and where every pin shown came from.
 */
module AdvisoryPins {
  import opened Wrappers
  import opened AgentRegister
  import opened AdvisoryProtocol
  import opened AdvisoryRuns
  import opened AdvisoryStray

  // ----- What lands -----

  /** A verdict counts if the advisor asked for a switch to a model on the list captured at the call's
      dispatch, and the entry had then seen no more requests than the window captured with it. */
  predicate Counts(call: Life, e: EntryState, switch: bool, model: string) {
    switch && model in call.allowed && e.seen <= call.window
  }

  /** Exactly what a landing verdict does to the register: the entry under the call's key, if any, is
      decided, and pinned to the model and reason the advisor gave if the verdict counts. */
  lemma VerdictLeaves(s: State, s': State, c: nat, switch: bool, model: string, reason: string)
    requires NextBy(s, s', LandVerdict(c, switch, model, reason))
    ensures c < |s.lives| && s'.reg.Keys == s.reg.Keys
    ensures forall k :: k in s.reg && k != s.lives[c].key ==> s'.reg[k] == s.reg[k]
    ensures s.lives[c].key in s.reg ==>
              var e := s.reg[s.lives[c].key];
              s'.reg[s.lives[c].key] ==
                EntryState(if Counts(s.lives[c], e, switch, model) then Some(Pin(model, reason)) else e.pin,
                           true, e.seen, e.expires)
  {
    hide RequestStep, AfterFail;
  }

  // ----- What is shown -----

  /** A life keeps its key, and verdicts only ever come to be added to it. */
  ghost predicate Accumulates(lives: seq<Life>, lives': seq<Life>) {
    && |lives| <= |lives'|
    && forall k :: 0 <= k < |lives| ==> lives'[k].key == lives[k].key && lives[k].verdicts <= lives'[k].verdicts
  }

  lemma StepAccumulates(s: State, s': State, step: Step)
    requires Inv(s) && NextBy(s, s', step)
    ensures Accumulates(s.lives, s'.lives)
  {
    hide *;
    HistoryGrows(s, s', step);
    if step.LandVerdict? {
      VerdictEffect(s, s', step.call, step.switch, step.model, step.reason);
      GainsAccumulates(s, s', step.call);
    } else {
      QuietStep(s, s', step);
      QuietAccumulates(s, s');
    }
  }

  lemma QuietAccumulates(s: State, s': State)
    requires Quiet(s, s') && Grows(s.lives, s'.lives)
    ensures Accumulates(s.lives, s'.lives)
  {
    hide Pending;
  }

  lemma GainsAccumulates(s: State, s': State, c: nat)
    requires c < |s.lives|
    requires s'.lives == s.lives || exists o: nat :: Gains(s, s', o, c)
    ensures Accumulates(s.lives, s'.lives)
  {
    if s'.lives != s.lives {
      var o: nat :| Gains(s, s', o, c);
      var v: Verdict :| v.call == c && s'.lives == WithVerdict(s.lives, o, v);
    }
  }

  lemma {:induction false} RunAccumulates(run: seq<State>, i: nat, j: nat)
    requires IsRun(run) && i <= j < |run|
    ensures Accumulates(run[i].lives, run[j].lives)
    decreases j
  {
    hide *;
    if i < j {
      RunAccumulates(run, i, j - 1);
      RunKeepsInv(run, j - 1);
      var step := StepOf(run, j - 1);
      StepAccumulates(run[j - 1], run[j], step);
      AccumulatesFurther(run[i].lives, run[j - 1].lives, run[j].lives);
    } else {
      AccumulatesFurther(run[i].lives, run[i].lives, run[i].lives);
    }
  }

  lemma AccumulatesFurther(a: seq<Life>, b: seq<Life>, c: seq<Life>)
    ensures Accumulates(a, a)
    ensures Accumulates(a, b) && Accumulates(b, c) ==> Accumulates(a, c)
  {
  }

  /** As long as an entry lives and no further verdict lands on it, it keeps its pin. */
  lemma PinKept(run: seq<State>, i: nat, j: nat, o: nat)
    requires IsRun(run) && i <= j < |run| && o < |run[i].lives| && o < |run[j].lives|
    requires run[i].lives[o].ending.None? && run[j].lives[o].ending.None?
    requires |run[j].lives[o].verdicts| == |run[i].lives[o].verdicts|
    ensures var key := run[i].lives[o].key;
            && run[j].lives[o].key == key && key in run[i].reg && key in run[j].reg
            && key in run[j].owner && run[j].owner[key] == o
            && run[j].reg[key].pin == run[i].reg[key].pin
  {
    hide *;
    RunAccumulates(run, i, j);
    SameVerdicts(run[i].lives, run[j].lives, o);
    RunKeepsInv(run, i);
    RunKeepsInv(run, j);
    PinTold(run[i], o);
    PinTold(run[j], o);
    var vs, n, m := run[i].lives[o].verdicts, |run[i].lives[o].seen|, |run[j].lives[o].seen|;
    if n <= m {
      PinByBound(vs, n, m);
    } else {
      PinByBound(vs, m, n);
    }
  }

  lemma SameVerdicts(lives: seq<Life>, lives': seq<Life>, o: nat)
    requires Accumulates(lives, lives') && o < |lives| && o < |lives'|
    requires |lives'[o].verdicts| == |lives[o].verdicts|
    ensures lives'[o].verdicts == lives[o].verdicts && lives'[o].key == lives[o].key
  {
  }

  /** The entry of an open life has the pin its verdicts amount to. */
  lemma PinTold(s: State, o: nat)
    requires Inv(s) && o < |s.lives| && s.lives[o].ending.None?
    ensures var l := s.lives[o];
            && l.key in s.reg && l.key in s.owner && s.owner[l.key] == o
            && s.reg[l.key].pin == PinBy(l.verdicts, |l.seen|)
            && forall v :: 0 <= v < |l.verdicts| ==> l.verdicts[v].at <= |l.seen|
  {
    OpenIsOwn(s, o);
    Current(s, s.lives[o].key);
    hide Inv, PinBy, SeenOk, EndingOk;
  }

  lemma OpenIsOwn(s: State, o: nat)
    requires Inv(s) && o < |s.lives| && s.lives[o].ending.None?
    ensures s.lives[o].key in s.reg && s.lives[o].key in s.owner && s.owner[s.lives[o].key] == o
  {
    hide EntriesOk, LivesOk, CallsOk, NoneForgotten;
  }

  /** The pin under a call's key once its verdict has landed. */
  function LeftPin(s: State, c: nat, switch: bool, model: string, reason: string): Option<Pin>
    requires c < |s.lives| && s.lives[c].key in s.reg
  {
    var e := s.reg[s.lives[c].key];
    if Counts(s.lives[c], e, switch, model) then Some(Pin(model, reason)) else e.pin
  }

  /** The next request that finds the entry on which a verdict has landed, however much later, is shown
      the very pin the advisor gave, or the earlier one if the verdict does not count. */
  lemma LandedPinIsShown(run: seq<State>, i: nat, j: nat, o: nat,
                         c: nat, switch: bool, model: string, reason: string,
                         at: int, ttl: int, window: int, allowed: seq<string>)
    requires IsRun(run) && i < j && j + 1 < |run|
    requires c < |run[i].lives| && NextBy(run[i], run[i + 1], LandVerdict(c, switch, model, reason))
    requires run[i].lives[c].key in run[i].reg && run[i].lives[c].key in run[i].owner
    requires o == run[i].owner[run[i].lives[c].key] && o < |run[i + 1].lives| && o < |run[j].lives|
    requires run[j].lives[o].ending.None? && |run[j].lives[o].verdicts| == |run[i + 1].lives[o].verdicts|
    requires RequestStep(run[j], run[j + 1], run[i].lives[c].key, at, ttl, window, allowed)
    requires Hit(run[j].reg, run[i].lives[c].key, at)
    ensures var pin := LeftPin(run[i], c, switch, model, reason);
            && Observed(run[j].reg, run[i].lives[c].key, at, ttl, run[j + 1].reg, pin, false)
            && o < |run[j + 1].lives| && run[j + 1].lives[o].seen == run[j].lives[o].seen + [pin]
  {
    hide *;
    RunKeepsInv(run, i);
    OwnOrOver(run[i], c);
    VerdictLeaves(run[i], run[i + 1], c, switch, model, reason);
    VerdictLeavesOpen(run[i], run[i + 1], c, switch, model, reason);
    PinKept(run, i + 1, j, o);
    HitShows(run[j], run[j + 1], run[i].lives[c].key, at, ttl, window, allowed);
    LeftPinIs(run[i], c, switch, model, reason);
  }

  lemma LeftPinIs(s: State, c: nat, switch: bool, model: string, reason: string)
    requires c < |s.lives| && s.lives[c].key in s.reg
    ensures var e := s.reg[s.lives[c].key];
            LeftPin(s, c, switch, model, reason) ==
              if Counts(s.lives[c], e, switch, model) then Some(Pin(model, reason)) else e.pin
  {
  }

  lemma VerdictLeavesOpen(s: State, s': State, c: nat, switch: bool, model: string, reason: string)
    requires Inv(s) && NextBy(s, s', LandVerdict(c, switch, model, reason))
    requires c < |s.lives| && s.lives[c].key in s.reg && s.lives[c].key in s.owner
    ensures var o := s.owner[s.lives[c].key];
            o < |s'.lives| && s'.lives[o].ending.None? && s'.lives[o].key == s.lives[c].key
  {
    hide *;
    OwnOrOver(s, c);
    OwnerHolds(s, s.lives[c].key);
    VerdictEffect(s, s', c, switch, model, reason);
    GainsKeepsEnding(s, s', s.owner[s.lives[c].key], c);
  }

  lemma OwnerHolds(s: State, key: string)
    requires Inv(s) && key in s.reg
    ensures key in s.owner && s.owner[key] < |s.lives|
    ensures s.lives[s.owner[key]].key == key && s.lives[s.owner[key]].ending.None?
  {
    hide EntriesOk, LivesOk, CallsOk, NoneForgotten;
  }

  lemma GainsKeepsEnding(s: State, s': State, o: nat, c: nat)
    requires Gains(s, s', o, c)
    ensures o < |s.lives| == |s'.lives| && s'.lives[o].ending == s.lives[o].ending && s'.lives[o].key == s.lives[o].key
  {
  }

  lemma HitShows(s: State, s': State, key: string, at: int, ttl: int, window: int, allowed: seq<string>)
    requires RequestStep(s, s', key, at, ttl, window, allowed) && Hit(s.reg, key, at)
    ensures key in s.reg && key in s.owner && s.owner[key] < |s.lives| && s.owner[key] < |s'.lives|
    ensures Observed(s.reg, key, at, ttl, s'.reg, s.reg[key].pin, false)
    ensures s'.lives[s.owner[key]].seen == s.lives[s.owner[key]].seen + [s.reg[key].pin]
  {
    hide Observed;
  }

  // ----- Where a pin came from -----

  /** Call c answered with this pin, and the answer landed before state i. */
  ghost predicate Answered(run: seq<State>, i: nat, c: nat, p: Pin) {
    exists j :: 0 <= j < i < |run| && NextBy(run[j], run[j + 1], LandVerdict(c, true, p.model, p.reason))
  }

  /** What a landing verdict adds to any life is the advisor's answer. */
  lemma NewVerdict(s: State, s': State, c: nat, switch: bool, model: string, reason: string, l: nat, v: Verdict)
    requires NextBy(s, s', LandVerdict(c, switch, model, reason))
    requires l < |s'.lives| && v in s'.lives[l].verdicts && !(l < |s.lives| && v in s.lives[l].verdicts)
    ensures v.call == c && (v.pin.Some? ==> switch && v.pin.value == Pin(model, reason))
  {
    hide RequestStep, AfterFail, Completed;
  }

  lemma {:induction false} VerdictsAnswered(run: seq<State>, i: nat, l: nat, v: Verdict)
    requires IsRun(run) && i < |run| && l < |run[i].lives| && v in run[i].lives[l].verdicts && v.pin.Some?
    ensures Answered(run, i, v.call, v.pin.value)
  {
    hide *;
    StartsEmpty(run);
    if i > 0 {
      RunKeepsInv(run, i - 1);
      var step := StepOf(run, i - 1);
      if l < |run[i - 1].lives| && v in run[i - 1].lives[l].verdicts {
        VerdictsAnswered(run, i - 1, l, v);
      } else if step.LandVerdict? {
        NewVerdict(run[i - 1], run[i], step.call, step.switch, step.model, step.reason, l, v);
      } else {
        QuietStep(run[i - 1], run[i], step);
        QuietAddsNothing(run[i - 1], run[i], l, v);
      }
      AnsweredBy(run, i, v.call, v.pin.value, step);
    }
  }

  lemma QuietAddsNothing(s: State, s': State, l: nat, v: Verdict)
    requires Quiet(s, s') && l < |s'.lives| && v in s'.lives[l].verdicts
    ensures l < |s.lives| && v in s.lives[l].verdicts
  {
    hide Pending;
  }

  lemma AnsweredBy(run: seq<State>, i: nat, c: nat, p: Pin, step: Step)
    requires 0 < i < |run|
    requires Answered(run, i - 1, c, p)
             || (NextBy(run[i - 1], run[i], step) && step == LandVerdict(c, true, p.model, p.reason))
    ensures Answered(run, i, c, p)
  {
    hide NextBy;
    if !Answered(run, i - 1, c, p) {
      assert NextBy(run[i - 1], run[i - 1 + 1], step);
    }
  }

  /** In every run, each pin ever shown to a request of a conversation is the model and reason with
      which some call for that conversation answered, a model on that call's allow-list. */
  lemma ShownPinsAnswered(run: seq<State>, i: nat, l: nat, a: nat)
    requires IsRun(run) && i < |run| && l < |run[i].lives|
    requires a < |run[i].lives[l].seen| && run[i].lives[l].seen[a].Some?
    ensures var p := run[i].lives[l].seen[a].value;
            exists c: nat :: && c < |run[i].lives| && run[i].lives[c].key == run[i].lives[l].key
                             && p.model in run[i].lives[c].allowed && Answered(run, i, c, p)
  {
    hide *;
    var life := run[i].lives[l];
    RunKeepsInv(run, i);
    LifeAt(run[i], l);
    var v := ShownVerdict(run[i].lives, life, a);
    VerdictsAnswered(run, i, l, v);
  }

  lemma ShownVerdict(lives: seq<Life>, life: Life, a: nat) returns (v: Verdict)
    requires LifeOk(lives, life) && a < |life.seen| && life.seen[a].Some?
    ensures v in life.verdicts && v.pin == life.seen[a] && v.call < |lives|
    ensures lives[v.call].key == life.key && v.pin.value.model in lives[v.call].allowed
  {
    LifeVouched(lives, life);
    assert Vouched(lives, life, life.seen[a].value, a);
    hide LifeOk, AllVouched;
    var k :| 0 <= k < |life.verdicts| && life.verdicts[k].pin == life.seen[a] && life.verdicts[k].call < |lives|
             && lives[life.verdicts[k].call].key == life.key
             && life.seen[a].value.model in lives[life.verdicts[k].call].allowed;
    v := life.verdicts[k];
  }
}
