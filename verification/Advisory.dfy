/**
 The advisory protocol: requests, the bounded background calls they launch, and the
 register both drive. One step per critical section, so every interleaving is a run.

 The state carries a history (`lives`, one record per register entry ever created) that
 no step reads to decide anything; the theorems speak about it.
 */
module AdvisoryProtocol {
  import opened Wrappers
  import opened AgentRegister

  /** Capacity of the semaphore channel. */
  const MAX_INFLIGHT: nat := 8

  /** Where the call fired by one observation stands: not yet past the semaphore, turned
      away by it, holding a slot with the advisor still answering, or holding a slot with
      the answer delivered. */
  datatype Phase = Fired | Saturated | Running | Landed

  /** A verdict as it landed: from which call, with which apply window, and how many
      requests the entry it reached had seen by then. */
  datatype Verdict = Verdict(call: nat, pin: Option<Pin>, window: int, at: nat) {
    predicate Applied() { pin.Some? && at <= window }
  }

  datatype Ending = Lapsed(at: int) | Evicted | Abandoned(call: nat)

  /** The lifetime of one entry. Its index is the number of the call that it fired;
      `seen[i]` is the pin that request i+1 of the lifetime was given. */
  datatype Life = Life(key: string, window: int, allowed: seq<string>, born: int, expires: int,
                       seen: seq<Option<Pin>>, verdicts: seq<Verdict>,
                       ending: Option<Ending>, panicked: bool)

  datatype State = State(reg: Table, owner: map<string, nat>, now: int,
                         lives: seq<Life>, calls: map<nat, Phase>, sem: nat)

  datatype Step =
    | Tick
    | Request(key: string, at: int, ttl: int, window: int, allowed: seq<string>)
    | Acquire(call: nat)
    | Saturate(call: nat)
    | ShutOut(call: nat)
    | LandError(call: nat)
    | LandVerdict(call: nat, switch: bool, model: string, reason: string)
    | Panic(call: nat)
    | Release(call: nat)

  predicate Init(s: State) {
    s.reg == map[] && s.owner == map[] && s.lives == [] && s.calls == map[] && s.sem == 0
  }

  predicate InPhase(s: State, c: nat, p: Phase) {
    c < |s.lives| && c in s.calls && s.calls[c] == p
  }

  // ----- The steps -----

  /** A lifetime that is over once the register has become `reg`, in which `key` was reborn. */
  function Close(l: Life, key: string, reg: Table, now: int): Life {
    if l.ending.None? && (l.key == key || l.key !in reg)
    then l.(ending := Some(if now > l.expires then Lapsed(now) else Evicted))
    else l
  }

  function KeptOwners(owner: map<string, nat>, reg: Table): map<string, nat> {
    map k | k in owner && k in reg :: owner[k]
  }

  /** One eligible request: `Observe`, and on a fire the capture of the policy's window and
      allow-list that the background call will be held to. It read the clock before it got
      hold of the register, at `at`, and others may have gone ahead of it since. */
  ghost predicate RequestStep(s: State, s': State, key: string, at: int, ttl: int, window: int, allowed: seq<string>) {
    && at <= s.now && s'.now == s.now && s'.sem == s.sem
    && if Hit(s.reg, key, at) then
         && Observed(s.reg, key, at, ttl, s'.reg, s.reg[key].pin, false)
         && s'.calls == s.calls && s'.owner == s.owner
         && key in s.owner && s.owner[key] < |s.lives|
         && var l := s.lives[s.owner[key]];
            s'.lives == s.lives[s.owner[key] := l.(seen := l.seen + [s.reg[key].pin])]
       else
         var id := |s.lives|;
         && Observed(s.reg, key, at, ttl, s'.reg, None, true)
         && s'.calls == s.calls[id := Fired]
         && s'.owner == KeptOwners(s.owner, s'.reg)[key := id]
         && |s'.lives| == id + 1
         && s'.lives[id] == Life(key, window, allowed, at, at + ttl, [None], [], None, false)
         && (forall i :: 0 <= i < id ==> s'.lives[i] == Close(s.lives[i], key, s'.reg, at))
  }

  /** `Fail` on behalf of call `c`: it acts on whatever entry now sits under the key. */
  function AfterFail(s: State, c: nat): State
    requires c < |s.lives|
  {
    var key := s.lives[c].key;
    if key in s.reg && !s.reg[key].decided && key in s.owner && s.owner[key] < |s.lives| then
      var l := s.owner[key];
      s.(reg := Failed(s.reg, key), owner := s.owner - {key},
         lives := s.lives[l := s.lives[l].(ending := Some(Abandoned(c)))])
    else s.(reg := Failed(s.reg, key))
  }

  /** The verdict switch: a declined or disallowed model lands as "continue". */
  function PinOf(allowed: seq<string>, switch: bool, model: string, reason: string): Option<Pin> {
    if switch && model in allowed then Some(Pin(model, reason)) else None
  }

  /** `Complete` on behalf of call `c`, again on whatever entry sits under the key. */
  function AfterVerdict(s: State, c: nat, pin: Option<Pin>): State
    requires c < |s.lives|
  {
    var call := s.lives[c];
    var reg := Completed(s.reg, call.key, pin, call.window);
    if call.key in s.reg && call.key in s.owner && s.owner[call.key] < |s.lives| then
      var l := s.owner[call.key];
      var v := Verdict(c, pin, call.window, s.reg[call.key].seen);
      s.(reg := reg, lives := s.lives[l := s.lives[l].(verdicts := s.lives[l].verdicts + [v])])
    else s.(reg := reg)
  }

  ghost predicate NextBy(s: State, s': State, step: Step) {
    match step
    case Tick => s' == s.(now := s'.now) && s'.now >= s.now
    case Request(key, at, ttl, window, allowed) => RequestStep(s, s', key, at, ttl, window, allowed)
    case Acquire(c) =>
      && InPhase(s, c, Fired) && s.sem < MAX_INFLIGHT
      && s' == s.(calls := s.calls[c := Running], sem := s.sem + 1)
    case Saturate(c) =>
      && InPhase(s, c, Fired) && s.sem >= MAX_INFLIGHT
      && s' == s.(calls := s.calls[c := Saturated])
    case ShutOut(c) =>
      && InPhase(s, c, Saturated)
      && s' == AfterFail(s, c).(calls := s.calls - {c})
    case LandError(c) =>
      && InPhase(s, c, Running)
      && s' == AfterFail(s, c).(calls := s.calls[c := Landed])
    case LandVerdict(c, switch, model, reason) =>
      && InPhase(s, c, Running)
      && s' == AfterVerdict(s, c, PinOf(s.lives[c].allowed, switch, model, reason)).(calls := s.calls[c := Landed])
    case Panic(c) =>
      && InPhase(s, c, Running)
      && s' == s.(calls := s.calls[c := Landed], lives := s.lives[c := s.lives[c].(panicked := true)])
    case Release(c) =>
      && InPhase(s, c, Landed) && s.sem > 0
      && s' == s.(calls := s.calls - {c}, sem := s.sem - 1)
  }

  ghost predicate Next(s: State, s': State) {
    exists step :: NextBy(s, s', step)
  }

  ghost predicate IsRun(run: seq<State>) {
    && |run| > 0
    && Init(run[0])
    && forall i :: 0 <= i < |run| - 1 ==> Next(run[i], run[i + 1])
  }

  // ----- The inductive invariant -----

  function Holding(p: Phase): nat {
    if p.Running? || p.Landed? then 1 else 0
  }

  function Holders(calls: map<nat, Phase>): set<nat> {
    set c | c in calls && Holding(calls[c]) == 1
  }

  /** What a lifetime's request number j+1 is shown: the last applied verdict that landed
      before it. */
  function PinBy(vs: seq<Verdict>, j: nat): Option<Pin> {
    if vs == [] then None
    else
      var v := vs[|vs| - 1];
      if v.Applied() && v.at <= j then v.pin else PinBy(vs[..|vs| - 1], j)
  }

  ghost predicate VerdictOk(lives: seq<Life>, key: string, n: nat, v: Verdict) {
    && v.call < |lives|
    && 1 <= v.at <= n
    && v.window == lives[v.call].window
    && lives[v.call].key == key
    && (v.pin.Some? ==> v.pin.value.model in lives[v.call].allowed)
  }

  ghost predicate EndingOk(lives: seq<Life>, l: Life) {
    match l.ending
    case None => true
    case Some(Lapsed(at)) => at > l.expires
    case Some(Evicted) => true
    case Some(Abandoned(c)) => l.verdicts == [] && c < |lives| && lives[c].key == l.key
  }

  ghost predicate SeenOk(l: Life) {
    && l.seen != []
    && forall j :: 0 <= j < |l.seen| ==> l.seen[j] == PinBy(l.verdicts, j)
  }

  ghost predicate LifeOk(lives: seq<Life>, l: Life) {
    && SeenOk(l)
    && (forall i :: 0 <= i < |l.verdicts| ==> VerdictOk(lives, l.key, |l.seen|, l.verdicts[i]))
    && EndingOk(lives, l)
  }

  ghost predicate LivesOk(lives: seq<Life>) {
    forall i :: 0 <= i < |lives| ==> LifeOk(lives, lives[i])
  }

  /** A lifetime is open exactly while the register's entry for its key is the one it tells of. */
  ghost predicate OwnersOk(reg: Table, owner: map<string, nat>, lives: seq<Life>) {
    && owner.Keys == reg.Keys
    && (forall k :: k in owner ==> owner[k] < |lives| && lives[owner[k]].key == k && lives[owner[k]].ending.None?)
    && (forall i :: 0 <= i < |lives| && lives[i].ending.None? ==> lives[i].key in owner && owner[lives[i].key] == i)
  }

  ghost predicate Tells(e: EntryState, l: Life) {
    && e.seen == |l.seen|
    && e.expires == l.expires
    && (e.decided <==> l.verdicts != [])
    && e.pin == PinBy(l.verdicts, |l.seen|)
  }

  ghost predicate EntriesOk(reg: Table, owner: map<string, nat>, lives: seq<Life>) {
    forall k :: k in reg && k in owner && owner[k] < |lives| ==> Tells(reg[k], lives[owner[k]])
  }

  ghost predicate CallsOk(n: nat, calls: map<nat, Phase>, sem: nat) {
    && (forall c :: c in calls ==> c < n)
    && sem == |Holders(calls)| <= MAX_INFLIGHT
  }

  /** The fired call has not yet reached the register with an answer or a failure. */
  predicate Pending(calls: map<nat, Phase>, c: nat) {
    c in calls && !calls[c].Landed?
  }

  /** An open entry still waiting for a verdict has its own call on the way, unless that
      call panicked. */
  ghost predicate NoneForgotten(lives: seq<Life>, calls: map<nat, Phase>) {
    forall i :: 0 <= i < |lives| && lives[i].ending.None? && lives[i].verdicts == [] ==>
      Pending(calls, i) || lives[i].panicked
  }

  ghost predicate Inv(s: State) {
    && |s.reg| <= MAX_ENTRIES
    && OwnersOk(s.reg, s.owner, s.lives)
    && EntriesOk(s.reg, s.owner, s.lives)
    && LivesOk(s.lives)
    && CallsOk(|s.lives|, s.calls, s.sem)
    && NoneForgotten(s.lives, s.calls)
  }

  // ----- Preservation: the history -----

  lemma {:induction false} PinByBound(vs: seq<Verdict>, n: nat, j: nat)
    requires forall i :: 0 <= i < |vs| ==> vs[i].at <= n
    requires n <= j
    ensures PinBy(vs, j) == PinBy(vs, n)
  {
    if vs != [] {
      PinByBound(vs[..|vs| - 1], n, j);
    }
  }

  lemma PinBySnoc(vs: seq<Verdict>, v: Verdict, j: nat)
    ensures PinBy(vs + [v], j) == if v.Applied() && v.at <= j then v.pin else PinBy(vs, j)
  {
    assert (vs + [v])[..|vs|] == vs;
  }

  /** What a history says of a life is unaffected by later entries in the history. */
  ghost predicate Extends(lives': seq<Life>, lives: seq<Life>) {
    && |lives| <= |lives'|
    && forall i :: 0 <= i < |lives| ==>
         && lives'[i].key == lives[i].key
         && lives'[i].window == lives[i].window
         && lives'[i].allowed == lives[i].allowed
  }

  lemma LifeOkMono(lives: seq<Life>, lives': seq<Life>, l: Life)
    requires LifeOk(lives, l) && Extends(lives', lives)
    ensures LifeOk(lives', l)
  {
    forall i | 0 <= i < |l.verdicts| ensures VerdictOk(lives', l.key, |l.seen|, l.verdicts[i]) {
      assert VerdictOk(lives, l.key, |l.seen|, l.verdicts[i]);
    }
  }

  lemma LivesOkUpdate(lives: seq<Life>, o: nat, l: Life)
    requires LivesOk(lives) && o < |lives| && LifeOk(lives, l)
    requires l.key == lives[o].key && l.window == lives[o].window && l.allowed == lives[o].allowed
    ensures LivesOk(lives[o := l])
  {
    var lives' := lives[o := l];
    forall i | 0 <= i < |lives'| ensures LifeOk(lives', lives'[i]) {
      LifeOkMono(lives, lives', if i == o then l else lives[i]);
    }
  }

  lemma LivesOkBirth(lives: seq<Life>, lives': seq<Life>, key: string, reg: Table, now: int)
    requires LivesOk(lives)
    requires |lives'| == |lives| + 1
    requires forall i :: 0 <= i < |lives| ==> lives'[i] == Close(lives[i], key, reg, now)
    requires lives'[|lives|].seen == [None] && lives'[|lives|].verdicts == [] && lives'[|lives|].ending == None
    ensures LivesOk(lives')
  {
    forall i | 0 <= i < |lives'| ensures LifeOk(lives', lives'[i]) {
      if i < |lives| {
        assert LifeOk(lives, lives[i]);
        assert LifeOk(lives, lives'[i]);
        LifeOkMono(lives, lives', lives'[i]);
      }
    }
  }

  lemma SeenAppend(lives: seq<Life>, l: Life, pin: Option<Pin>)
    requires LifeOk(lives, l) && pin == PinBy(l.verdicts, |l.seen|)
    ensures LifeOk(lives, l.(seen := l.seen + [pin]))
    ensures PinBy(l.verdicts, |l.seen| + 1) == pin
  {
    var l' := l.(seen := l.seen + [pin]);
    forall i | 0 <= i < |l.verdicts| ensures VerdictOk(lives, l'.key, |l'.seen|, l.verdicts[i]) {
      assert VerdictOk(lives, l.key, |l.seen|, l.verdicts[i]);
    }
    PinByBound(l.verdicts, |l.seen|, |l.seen| + 1);
  }

  lemma VerdictAppend(lives: seq<Life>, l: Life, v: Verdict)
    requires LifeOk(lives, l) && VerdictOk(lives, l.key, |l.seen|, v) && v.at == |l.seen| && l.ending == None
    ensures LifeOk(lives, l.(verdicts := l.verdicts + [v]))
    ensures PinBy(l.verdicts + [v], |l.seen|) == if v.Applied() then v.pin else PinBy(l.verdicts, |l.seen|)
  {
    var l' := l.(verdicts := l.verdicts + [v]);
    forall i | 0 <= i < |l'.verdicts| ensures VerdictOk(lives, l'.key, |l'.seen|, l'.verdicts[i]) {
      if i < |l.verdicts| {
        assert VerdictOk(lives, l.key, |l.seen|, l.verdicts[i]);
      }
    }
    forall j | 0 <= j <= |l.seen|
      ensures PinBy(l'.verdicts, j) == if v.Applied() && v.at <= j then v.pin else PinBy(l.verdicts, j)
    {
      PinBySnoc(l.verdicts, v, j);
    }
  }

  // ----- Preservation: register against history -----

  /** The entry under `key` and the life it belongs to change together. */
  lemma EntryUpdate(reg: Table, owner: map<string, nat>, lives: seq<Life>, key: string, e: EntryState, l: Life)
    requires OwnersOk(reg, owner, lives) && EntriesOk(reg, owner, lives) && key in reg
    requires l.key == key && l.ending.None? && Tells(e, l)
    ensures OwnersOk(reg[key := e], owner, lives[owner[key] := l])
    ensures EntriesOk(reg[key := e], owner, lives[owner[key] := l])
    ensures |reg[key := e]| == |reg|
  {
    hide PinBy, Tells;
    SizeUpdate(reg, key, e);
    var reg', lives' := reg[key := e], lives[owner[key] := l];
    forall k | k in reg' ensures Tells(reg'[k], lives'[owner[k]]) {
      if k != key {
        assert owner[k] != owner[key];
      }
    }
  }

  /** The entry under `key` goes and its life ends. */
  lemma EntryDrop(reg: Table, owner: map<string, nat>, lives: seq<Life>, key: string, ending: Ending)
    requires OwnersOk(reg, owner, lives) && EntriesOk(reg, owner, lives) && key in reg
    ensures var lives' := lives[owner[key] := lives[owner[key]].(ending := Some(ending))];
            && OwnersOk(reg - {key}, owner - {key}, lives')
            && EntriesOk(reg - {key}, owner - {key}, lives')
    ensures |reg - {key}| < |reg|
  {
    hide PinBy, Tells;
    SizeWithout(reg, key);
  }

  /** How a fire changes the register, its owners and the history. */
  ghost predicate Reborn(s: State, s': State, key: string, at: int) {
    && (forall k :: k in s'.reg && k != key ==> k in s.reg && s'.reg[k] == s.reg[k])
    && key in s'.reg
    && s'.owner == KeptOwners(s.owner, s'.reg)[key := |s.lives|]
    && |s'.lives| == |s.lives| + 1
    && (forall i :: 0 <= i < |s.lives| ==> s'.lives[i] == Close(s.lives[i], key, s'.reg, at))
    && s'.lives[|s.lives|].key == key
    && s'.lives[|s.lives|].ending.None?
    && Tells(s'.reg[key], s'.lives[|s.lives|])
  }

  lemma BirthKeepsOwners(s: State, s': State, key: string, at: int)
    requires OwnersOk(s.reg, s.owner, s.lives) && Reborn(s, s', key, at)
    ensures OwnersOk(s'.reg, s'.owner, s'.lives)
  {
    hide PinBy, Tells;
    BirthOwns(s, s', key, at);
    BirthKeys(s, s', key, at);
    hide Close, KeptOwners, OwnersOk;
    forall k | k in s'.owner && k != key
      ensures s'.owner[k] < |s.lives| && s'.lives[s'.owner[k]].key == k && s'.lives[s'.owner[k]].ending.None?
    {
      StaysOpen(s, s', key, at, k);
    }
    hide Reborn;
    OwnersAre(s'.reg, s'.owner, s'.lives);
  }

  lemma OwnersAre(reg: Table, owner: map<string, nat>, lives: seq<Life>)
    requires owner.Keys == reg.Keys
    requires forall k :: k in owner ==> owner[k] < |lives| && lives[owner[k]].key == k && lives[owner[k]].ending.None?
    requires forall i :: 0 <= i < |lives| && lives[i].ending.None? ==>
               lives[i].key in owner && owner[lives[i].key] == i
    ensures OwnersOk(reg, owner, lives)
  {
  }

  lemma BirthKeys(s: State, s': State, key: string, at: int)
    requires OwnersOk(s.reg, s.owner, s.lives) && Reborn(s, s', key, at)
    ensures s'.owner.Keys == s'.reg.Keys && key in s'.owner && s'.owner[key] == |s.lives|
  {
    hide PinBy, Tells, Close;
  }

  lemma StaysOpen(s: State, s': State, key: string, at: int, k: string)
    requires OwnersOk(s.reg, s.owner, s.lives) && Reborn(s, s', key, at) && k in s'.owner && k != key
    ensures k in s.owner && s'.owner[k] == s.owner[k] < |s.lives| && s'.lives[s.owner[k]] == s.lives[s.owner[k]]
    ensures s.lives[s.owner[k]].key == k && s.lives[s.owner[k]].ending.None?
  {
    hide PinBy, Tells;
  }

  lemma BirthOwns(s: State, s': State, key: string, at: int)
    requires OwnersOk(s.reg, s.owner, s.lives) && Reborn(s, s', key, at)
    ensures forall i :: 0 <= i < |s.lives| && s'.lives[i].ending.None? ==>
              s'.lives[i].key in s'.owner && s'.owner[s'.lives[i].key] == i
  {
    hide PinBy, Tells;
    forall i | 0 <= i < |s.lives| && s'.lives[i].ending.None?
      ensures s'.lives[i].key in s'.owner && s'.owner[s'.lives[i].key] == i
    {
      assert s.lives[i].ending.None? && s'.lives[i] == s.lives[i];
    }
  }

  lemma BirthKeepsEntries(s: State, s': State, key: string, at: int)
    requires OwnersOk(s.reg, s.owner, s.lives) && EntriesOk(s.reg, s.owner, s.lives) && Reborn(s, s', key, at)
    ensures EntriesOk(s'.reg, s'.owner, s'.lives)
  {
    hide PinBy, Tells;
    forall k | k in s'.reg && k != key
      ensures k in s'.owner && s'.lives[s'.owner[k]] == s.lives[s.owner[k]]
      ensures Tells(s'.reg[k], s'.lives[s'.owner[k]])
    {
      assert s.lives[s.owner[k]].key == k && Tells(s.reg[k], s.lives[s.owner[k]]);
    }
  }

  // ----- Preservation: the steps -----

  /** The life behind a current entry. */
  lemma Current(s: State, key: string)
    requires Inv(s) && key in s.reg
    ensures key in s.owner && s.owner[key] < |s.lives|
    ensures var l := s.lives[s.owner[key]];
            && l.key == key && l.ending.None? && Tells(s.reg[key], l)
            && LifeOk(s.lives, l) && |l.seen| > 0
  {
    hide PinBy, VerdictOk, CallsOk, NoneForgotten;
    assert LifeOk(s.lives, s.lives[s.owner[key]]);
  }

  lemma HitKeepsInv(s: State, s': State, key: string, at: int, ttl: int, window: int, allowed: seq<string>)
    requires Inv(s) && RequestStep(s, s', key, at, ttl, window, allowed) && Hit(s.reg, key, at)
    ensures Inv(s')
  {
    hide LifeOk, PinBy, CallsOk, LivesOk, OwnersOk, EntriesOk, NoneForgotten;
    Current(s, key);
    var o := s.owner[key];
    SeenAppend(s.lives, s.lives[o], s.reg[key].pin);
    LivesOkUpdate(s.lives, o, s'.lives[o]);
    EntryUpdate(s.reg, s.owner, s.lives, key, s'.reg[key], s'.lives[o]);
    StillPending(s.lives, s.calls, o, s'.lives[o]);
  }

  lemma StillPending(lives: seq<Life>, calls: map<nat, Phase>, o: nat, l: Life)
    requires NoneForgotten(lives, calls) && o < |lives|
    requires l.ending == lives[o].ending && l.verdicts == lives[o].verdicts && l.panicked == lives[o].panicked
    ensures NoneForgotten(lives[o := l], calls)
  {
  }

  lemma FireIsBirth(s: State, s': State, key: string, at: int, ttl: int, window: int, allowed: seq<string>)
    requires RequestStep(s, s', key, at, ttl, window, allowed) && !Hit(s.reg, key, at)
    ensures Reborn(s, s', key, at)
  {
    forall k | k in s'.reg && k != key ensures k in s.reg && s'.reg[k] == s.reg[k] {
      assert k in s'.reg - {key};
    }
  }

  lemma FireKeepsInv(s: State, s': State, key: string, at: int, ttl: int, window: int, allowed: seq<string>)
    requires Inv(s) && RequestStep(s, s', key, at, ttl, window, allowed) && !Hit(s.reg, key, at)
    ensures Inv(s')
  {
    hide LivesOk, OwnersOk, EntriesOk;
    FireIsBirth(s, s', key, at, ttl, window, allowed);
    CapacityKept(s.reg, key, at, ttl, s'.reg, None, true);
    LivesOkBirth(s.lives, s'.lives, key, s'.reg, at);
    BirthKeepsOwners(s, s', key, at);
    BirthKeepsEntries(s, s', key, at);
    hide Reborn;
    hide Observed;
    assert Holders(s'.calls) == Holders(s.calls);
    hide CallsOk;
    BirthPending(s.lives, s'.lives, s.calls, key, s'.reg, at);
  }

  lemma BirthPending(lives: seq<Life>, lives': seq<Life>, calls: map<nat, Phase>, key: string, reg: Table, at: int)
    requires NoneForgotten(lives, calls) && |lives'| == |lives| + 1
    requires forall i :: 0 <= i < |lives| ==> lives'[i] == Close(lives[i], key, reg, at)
    ensures NoneForgotten(lives', calls[|lives| := Fired])
  {
    forall i | 0 <= i < |lives'| && lives'[i].ending.None? && lives'[i].verdicts == []
      ensures Pending(calls[|lives| := Fired], i) || lives'[i].panicked
    {
      if i < |lives| {
        assert lives'[i] == lives[i];
      }
    }
  }

  /** Facts that hold of a step in which call `c` reaches the register. */
  ghost predicate LandingOk(s: State, s': State, c: nat) {
    && |s'.reg| <= MAX_ENTRIES
    && OwnersOk(s'.reg, s'.owner, s'.lives)
    && EntriesOk(s'.reg, s'.owner, s'.lives)
    && LivesOk(s'.lives)
    && |s'.lives| == |s.lives|
    && (forall i :: 0 <= i < |s'.lives| && s'.lives[i].ending.None? && s'.lives[i].verdicts == [] ==>
          i != c && (Pending(s.calls, i) || s'.lives[i].panicked))
  }

  lemma FailKeepsInv(s: State, c: nat)
    requires Inv(s) && c < |s.lives|
    ensures LandingOk(s, AfterFail(s, c), c)
  {
    hide PinBy, VerdictOk, CallsOk, LivesOk, OwnersOk, EntriesOk, NoneForgotten;
    var key := s.lives[c].key;
    if key in s.reg {
      Current(s, key);
      var o := s.owner[key];
      if !s.reg[key].decided {
        EntryDrop(s.reg, s.owner, s.lives, key, Abandoned(c));
        LivesOkUpdate(s.lives, o, s.lives[o].(ending := Some(Abandoned(c))));
      }
    }
    FailLeavesPending(s, c);
  }

  lemma FailLeavesPending(s: State, c: nat)
    requires OwnersOk(s.reg, s.owner, s.lives) && NoneForgotten(s.lives, s.calls)
    requires EntriesOk(s.reg, s.owner, s.lives)
    requires c < |s.lives|
    ensures var lives := AfterFail(s, c).lives;
            forall i :: 0 <= i < |lives| && lives[i].ending.None? && lives[i].verdicts == [] ==>
              i != c && (Pending(s.calls, i) || lives[i].panicked)
  {
    hide PinBy, Failed;
  }

  lemma VerdictKeepsInv(s: State, c: nat, pin: Option<Pin>)
    requires Inv(s) && c < |s.lives|
    requires pin.Some? ==> pin.value.model in s.lives[c].allowed
    ensures LandingOk(s, AfterVerdict(s, c, pin), c)
  {
    hide PinBy, LifeOk, CallsOk, LivesOk, OwnersOk, EntriesOk, NoneForgotten;
    var key := s.lives[c].key;
    var s' := AfterVerdict(s, c, pin);
    if key in s.reg {
      Current(s, key);
      var o := s.owner[key];
      var v := Verdict(c, pin, s.lives[c].window, s.reg[key].seen);
      VerdictAppend(s.lives, s.lives[o], v);
      LivesOkUpdate(s.lives, o, s'.lives[o]);
      EntryUpdate(s.reg, s.owner, s.lives, key, s'.reg[key], s'.lives[o]);
    }
    VerdictLeavesPending(s, c, pin);
  }

  lemma VerdictLeavesPending(s: State, c: nat, pin: Option<Pin>)
    requires OwnersOk(s.reg, s.owner, s.lives) && NoneForgotten(s.lives, s.calls)
    requires c < |s.lives|
    ensures var lives := AfterVerdict(s, c, pin).lives;
            forall i :: 0 <= i < |lives| && lives[i].ending.None? && lives[i].verdicts == [] ==>
              i != c && (Pending(s.calls, i) || lives[i].panicked)
  {
    hide Completed;
  }

  lemma HoldersMove(calls: map<nat, Phase>, c: nat, p: Phase)
    requires c in calls
    ensures |Holders(calls[c := p])| == |Holders(calls)| - Holding(calls[c]) + Holding(p)
  {
    var hs := Holders(calls);
    assert Holders(calls[c := p]) == hs - {c} + if Holding(p) == 1 then {c} else {};
  }

  lemma HoldersLeave(calls: map<nat, Phase>, c: nat)
    requires c in calls
    ensures |Holders(calls - {c})| == |Holders(calls)| - Holding(calls[c])
  {
    assert Holders(calls - {c}) == Holders(calls) - {c};
  }

  lemma CallMoveKeepsInv(s: State, s': State, step: Step)
    requires Inv(s) && NextBy(s, s', step)
    requires step.Tick? || step.Acquire? || step.Saturate? || step.Release?
    ensures Inv(s')
  {
    hide LivesOk, OwnersOk, EntriesOk, RequestStep, AfterFail, AfterVerdict;
    match step {
      case Tick =>
      case Acquire(c) => HoldersMove(s.calls, c, Running);
      case Saturate(c) => HoldersMove(s.calls, c, Saturated);
      case Release(c) => HoldersLeave(s.calls, c);
    }
    assert CallsOk(|s'.lives|, s'.calls, s'.sem);
    hide Holders, CallsOk;
    assert NoneForgotten(s'.lives, s'.calls);
  }

  /** The three landings differ only in what the call does to the register. */
  lemma LandingKeepsInv(s: State, s': State, landed: State, c: nat)
    requires Inv(s) && c in s.calls && LandingOk(s, landed, c)
    requires landed.calls == s.calls && landed.sem == s.sem
    requires if Holding(s.calls[c]) == 0 then s' == landed.(calls := s.calls - {c})
             else s' == landed.(calls := s.calls[c := Landed])
    ensures Inv(s')
  {
    hide LivesOk, OwnersOk, EntriesOk;
    HoldersLeave(s.calls, c);
    HoldersMove(s.calls, c, Landed);
  }

  lemma PanicKeepsInv(s: State, s': State, c: nat)
    requires Inv(s) && NextBy(s, s', Panic(c))
    ensures Inv(s')
  {
    hide LivesOk, OwnersOk, EntriesOk, CallsOk, NoneForgotten, RequestStep, AfterFail, AfterVerdict;
    PanicCalls(s.lives, s.calls, s.sem, c);
    PanicLives(s.lives, c);
    Annotate(s.reg, s.owner, s.lives, c, s'.lives[c]);
  }

  lemma PanicCalls(lives: seq<Life>, calls: map<nat, Phase>, sem: nat, c: nat)
    requires CallsOk(|lives|, calls, sem) && NoneForgotten(lives, calls)
    requires c in calls && calls[c].Running? && c < |lives|
    ensures CallsOk(|lives|, calls[c := Landed], sem)
    ensures NoneForgotten(lives[c := lives[c].(panicked := true)], calls[c := Landed])
  {
    HoldersMove(calls, c, Landed);
    hide Holders;
  }

  lemma PanicLives(lives: seq<Life>, c: nat)
    requires LivesOk(lives) && c < |lives|
    ensures LivesOk(lives[c := lives[c].(panicked := true)])
  {
    var l := lives[c].(panicked := true);
    assert LifeOk(lives, lives[c]);
    hide VerdictOk, PinBy;
    assert LifeOk(lives, l);
    hide LifeOk, LivesOk;
    LivesOkUpdate(lives, c, l);
  }

  lemma Annotate(reg: Table, owner: map<string, nat>, lives: seq<Life>, c: nat, l: Life)
    requires OwnersOk(reg, owner, lives) && EntriesOk(reg, owner, lives) && c < |lives|
    requires l == lives[c].(panicked := true)
    ensures OwnersOk(reg, owner, lives[c := l]) && EntriesOk(reg, owner, lives[c := l])
  {
    hide PinBy;
  }

  lemma NextKeepsInv(s: State, s': State, step: Step)
    requires Inv(s) && NextBy(s, s', step)
    ensures Inv(s')
  {
    hide Inv, LandingOk, RequestStep;
    match step {
      case Tick | Acquire(_) | Saturate(_) | Release(_) => CallMoveKeepsInv(s, s', step);
      case ShutOut(c) =>
        FailKeepsInv(s, c);
        LandingKeepsInv(s, s', AfterFail(s, c), c);
      case LandError(c) =>
        FailKeepsInv(s, c);
        LandingKeepsInv(s, s', AfterFail(s, c), c);
      case LandVerdict(c, switch, model, reason) =>
        var pin := PinOf(s.lives[c].allowed, switch, model, reason);
        VerdictKeepsInv(s, c, pin);
        LandingKeepsInv(s, s', AfterVerdict(s, c, pin), c);
      case Panic(c) => PanicKeepsInv(s, s', c);
      case Request(key, at, ttl, window, allowed) =>
        if Hit(s.reg, key, at) {
          HitKeepsInv(s, s', key, at, ttl, window, allowed);
        } else {
          FireKeepsInv(s, s', key, at, ttl, window, allowed);
        }
    }
  }
}
