/**
 The in-process pin store of agent-aware routing: one entry per conversation, with a
 time to live, an apply window and a capacity sweep.

 The first half is the specification on values (a `Table` and its transitions); the
 second half is the store itself, whose methods update the map and its entries in place
 and are proved against those transitions.
 */
module AgentRegister {
  import opened Wrappers

  /** Capacity of the register, and what a sweep brings it down to: 1% headroom. */
  const MAX_ENTRIES: nat := 100_000
  const SWEEP_TARGET: nat := MAX_ENTRIES - MAX_ENTRIES / 100

  datatype Pin = Pin(model: string, reason: string)

  datatype EntryState = EntryState(pin: Option<Pin>, decided: bool, seen: nat, expires: int)

  type Table = map<string, EntryState>

  // ----- Specification -----

  predicate Expired(e: EntryState, now: int) {
    now > e.expires
  }

  function LiveKeys(t: Table, now: int): set<string> {
    set k | k in t && !Expired(t[k], now)
  }

  function Birth(now: int, ttl: int): EntryState {
    EntryState(None, false, 1, now + ttl)
  }

  /** What a sweep may do. Which live entries go is up to the map's iteration order. */
  ghost predicate Swept(before: Table, now: int, after: Table) {
    var live := LiveKeys(before, now);
    && after.Keys <= live
    && (forall k :: k in after ==> after[k] == before[k])
    && (if |live| <= SWEEP_TARGET then after.Keys == live else |after| == SWEEP_TARGET)
  }

  /** Does a request for `key` find a usable entry? */
  predicate Hit(t: Table, key: string, now: int) {
    key in t && !Expired(t[key], now)
  }

  /** One eligible request: count it on a hit, otherwise open a new entry and fire. */
  ghost predicate Observed(before: Table, key: string, now: int, ttl: int,
                           after: Table, pin: Option<Pin>, fire: bool) {
    if Hit(before, key, now) then
      && !fire
      && pin == before[key].pin
      && after == before[key := before[key].(seen := before[key].seen + 1)]
    else
      && fire
      && pin == None
      && key in after
      && after[key] == Birth(now, ttl)
      && (if key !in before && |before| >= MAX_ENTRIES
          then Swept(before, now, after - {key})
          else after == before[key := Birth(now, ttl)])
  }

  function Completed(t: Table, key: string, pin: Option<Pin>, window: int): Table {
    if key !in t then t
    else
      var e := t[key].(decided := true);
      t[key := if pin.Some? && e.seen <= window then e.(pin := pin) else e]
  }

  function Failed(t: Table, key: string): Table {
    if key in t && !t[key].decided then t - {key} else t
  }

  lemma SubsetSize<T>(a: set<T>, b: set<T>)
    requires a <= b
    ensures |a| <= |b|
    ensures |a| == |b| ==> a == b
  {
    assert b == a + (b - a);
    assert |b| == |a| + |b - a|;
  }

  /** The two loops of a sweep. */
  lemma SweptIs(before: Table, now: int, after: Table)
    requires Trimmed(OnlyLive(before, now), SWEEP_TARGET, after)
    ensures Swept(before, now, after)
  {
    assert OnlyLive(before, now).Keys == LiveKeys(before, now);
    assert |OnlyLive(before, now)| == |OnlyLive(before, now).Keys|;
  }

  /** A sweep leaves no expired entry and at least 1% of the capacity free, whatever
      order the map is walked in. */
  lemma SweepMakesRoom(before: Table, now: int, after: Table)
    requires Swept(before, now, after)
    ensures |after| <= 99_000
    ensures forall k :: k in after ==> k in before && after[k] == before[k] && !Expired(after[k], now)
    ensures |LiveKeys(before, now)| <= SWEEP_TARGET ==> after.Keys == LiveKeys(before, now)
  {
    assert |after| == |after.Keys|;
    SubsetSize(after.Keys, LiveKeys(before, now));
  }

  lemma SizeWithout<K, V>(m: map<K, V>, k: K)
    requires k in m
    ensures |m| == |m - {k}| + 1
  {
    assert m.Keys == (m - {k}).Keys + {k};
    assert |m| == |m.Keys| && |m - {k}| == |(m - {k}).Keys|;
  }

  lemma SizeUpdate<K, V>(m: map<K, V>, k: K, v: V)
    ensures |m[k := v]| == if k in m then |m| else |m| + 1
  {
    assert m[k := v].Keys == m.Keys + {k};
    assert |m| == |m.Keys| && |m[k := v]| == |m[k := v].Keys|;
  }

  /** No transition takes the register past its capacity. */
  lemma CapacityKept(before: Table, key: string, now: int, ttl: int, after: Table, pin: Option<Pin>, fire: bool)
    requires |before| <= MAX_ENTRIES
    requires Observed(before, key, now, ttl, after, pin, fire)
    ensures |after| <= MAX_ENTRIES == 100_000
  {
    if Hit(before, key, now) {
      SizeUpdate(before, key, before[key].(seen := before[key].seen + 1));
    } else if key !in before && |before| >= MAX_ENTRIES {
      SweepMakesRoom(before, now, after - {key});
      SizeWithout(after, key);
    } else {
      SizeUpdate(before, key, Birth(now, ttl));
    }
  }

  function OnlyLive(t: Table, now: int): Table {
    map k | k in t && !Expired(t[k], now) :: t[k]
  }

  /** Cut down to a size, by dropping any entries. */
  ghost predicate Trimmed(before: Table, target: nat, after: Table) {
    && after.Keys <= before.Keys
    && (forall k :: k in after ==> after[k] == before[k])
    && (if |before| <= target then after == before else |after| == target)
  }

  // ----- The store -----

  /** One conversation's lifecycle; the register hands out and updates it by reference. */
  class Entry {
    var pin: Option<Pin>
    var decided: bool
    var seen: nat
    var expires: int

    constructor (seen: nat, expires: int)
      ensures State() == EntryState(None, false, seen, expires)
    {
      this.pin, this.decided := None, false;
      this.seen, this.expires := seen, expires;
    }

    function State(): EntryState
      reads this
    {
      EntryState(pin, decided, seen, expires)
    }
  }

  class Register {
    var entries: map<string, Entry>

    /** No two conversations share an entry object, and the capacity is respected. */
    ghost predicate Valid()
      reads this
    {
      && (forall k, l :: k in entries && l in entries && entries[k] == entries[l] ==> k == l)
      && |entries| <= MAX_ENTRIES
    }

    ghost function Contents(): Table
      reads this, entries.Values
    {
      map k | k in entries :: entries[k].State()
    }

    lemma ContentsSize()
      ensures Contents().Keys == entries.Keys && |Contents()| == |entries|
    {
      assert Contents().Keys == entries.Keys;
      assert |Contents().Keys| == |Contents()| && |entries.Keys| == |entries|;
    }

    constructor ()
      ensures Valid() && Contents() == map[]
    {
      entries := map[];
    }

    method Observe(key: string, now: int, ttl: int) returns (pin: Option<Pin>, fire: bool)
      requires Valid()
      modifies this, entries.Values
      ensures Valid() && fresh(entries.Values - old(entries.Values))
      ensures Observed(old(Contents()), key, now, ttl, Contents(), pin, fire)
    {
      if key !in entries || now > entries[key].expires {
        Renew(key, now, ttl);
        return None, true;
      }
      pin := Count(key);
      return pin, false;
    }

    /** One more request of a live conversation. */
    method Count(key: string) returns (pin: Option<Pin>)
      requires Valid() && key in entries
      modifies entries[key]
      ensures Valid() && pin == old(entries[key].pin)
      ensures Contents() == old(Contents())[key := old(entries[key].State()).(seen := old(entries[key].seen) + 1)]
    {
      var e := entries[key];
      e.seen := e.seen + 1;
      pin := e.pin;
    }

    /** The first request of a conversation, or the first after its entry lapsed. */
    method Renew(key: string, now: int, ttl: int)
      requires Valid() && !Hit(Contents(), key, now)
      modifies this
      ensures Valid() && fresh(entries.Values - old(entries.Values))
      ensures Observed(old(Contents()), key, now, ttl, Contents(), None, true)
    {
      hide Contents, Swept;
      ghost var before := Contents();
      ContentsSize();
      if key !in entries && |entries| >= MAX_ENTRIES {
        SweepLocked(now);
        ContentsSize();
      }
      Open(key, now, ttl);
      CapacityKept(before, key, now, ttl, Contents(), None, true);
      ContentsSize();
    }

    /** Installs a new entry for `key`, replacing any expired one. */
    method Open(key: string, now: int, ttl: int)
      requires forall k, l :: k in entries && l in entries && entries[k] == entries[l] ==> k == l
      modifies this
      ensures forall k, l :: k in entries && l in entries && entries[k] == entries[l] ==> k == l
      ensures fresh(entries.Values - old(entries.Values))
      ensures Contents() == old(Contents())[key := Birth(now, ttl)]
      ensures key !in old(entries) ==> Contents() - {key} == old(Contents())
    {
      var e := new Entry(1, now + ttl);
      entries := entries[key := e];
      assert Contents() == old(Contents())[key := Birth(now, ttl)];
    }

    method Complete(key: string, pin: Option<Pin>, window: int)
      requires Valid()
      modifies entries.Values
      ensures Valid() && Contents() == Completed(old(Contents()), key, pin, window)
    {
      if key !in entries {
        return;
      }
      var e := entries[key];
      e.decided := true;
      if pin.Some? && e.seen <= window {
        e.pin := pin;
      }
      assert Contents() == Completed(old(Contents()), key, pin, window);
    }

    method Fail(key: string)
      requires Valid()
      modifies this
      ensures Valid() && entries.Values <= old(entries.Values)
      ensures Contents() == Failed(old(Contents()), key)
    {
      if key in entries && !entries[key].decided {
        SubsetSize((entries - {key}).Keys, entries.Keys);
        assert |(entries - {key}).Keys| == |entries - {key}| && |entries.Keys| == |entries|;
        entries := entries - {key};
      }
      assert Contents() == Failed(old(Contents()), key);
    }

    /** Drops expired entries, then arbitrary ones until the headroom exists. */
    method SweepLocked(now: int)
      requires Valid()
      modifies this
      ensures Valid() && entries.Values <= old(entries.Values) && entries.Keys <= old(entries.Keys)
      ensures Swept(old(Contents()), now, Contents())
    {
      hide Contents, Trimmed, OnlyLive, Swept, Valid;
      ghost var before := Contents();
      DropExpired(now);
      DropDownTo(SWEEP_TARGET);
      SweptIs(before, now, Contents());
    }

    /** The choice of `k` in the two loops below stands for the map's iteration order. */
    method DropExpired(now: int)
      requires Valid()
      modifies this
      ensures Valid() && entries.Values <= old(entries.Values) && entries.Keys <= old(entries.Keys)
      ensures Contents() == OnlyLive(old(Contents()), now)
    {
      hide Contents, OnlyLive;
      var todo := entries.Keys;
      while todo != {}
        invariant todo <= entries.Keys <= old(entries.Keys)
        invariant forall k :: k in entries ==> entries[k] == old(entries)[k]
        invariant forall k :: k in old(entries) && k !in todo ==> (k in entries <==> now <= old(entries)[k].expires)
        decreases |todo|
      {
        var k :| k in todo;
        todo := todo - {k};
        if now > entries[k].expires {
          entries := entries - {k};
        }
      }
      FewerSize(old(entries), entries);
      LiveLeft(now);
    }

    /** What a selection of the entries leaves of the contents. */
    twostate lemma LiveLeft(now: int)
      requires forall k :: k in entries ==> k in old(entries) && entries[k] == old(entries)[k]
      requires forall k :: k in old(entries) ==> old(entries)[k].State() == old(entries[k].State())
      requires forall k :: k in old(entries) ==> (k in entries <==> now <= old(entries[k].expires))
      ensures Contents() == OnlyLive(old(Contents()), now)
    {
    }

    method DropDownTo(target: nat)
      requires Valid()
      modifies this
      ensures Valid() && entries.Values <= old(entries.Values) && entries.Keys <= old(entries.Keys)
      ensures Trimmed(old(Contents()), target, Contents())
    {
      hide Contents, Trimmed;
      var over := |entries| - target;
      var rest := entries.Keys;
      while rest != {} && over > 0
        invariant rest <= entries.Keys <= old(entries.Keys)
        invariant forall k :: k in entries ==> entries[k] == old(entries)[k]
        invariant over == |entries| - target
        invariant over > 0 ==> rest == entries.Keys
        invariant entries == old(entries) || over >= 0
        invariant |old(entries)| <= target ==> entries == old(entries)
        decreases |rest|
      {
        var k :| k in rest;
        SizeWithout(entries, k);
        rest, entries, over := rest - {k}, entries - {k}, over - 1;
      }
      FewerSize(old(entries), entries);
      SomeLeft(target);
    }

    twostate lemma SomeLeft(target: nat)
      requires forall k :: k in entries ==> k in old(entries) && entries[k] == old(entries)[k]
      requires forall k :: k in old(entries) ==> old(entries)[k].State() == old(entries[k].State())
      requires if |old(entries)| <= target then entries == old(entries) else |entries| == target
      ensures Trimmed(old(Contents()), target, Contents())
    {
      ContentsSize();
      assert old(Contents()).Keys == old(entries).Keys;
      assert |old(Contents()).Keys| == |old(Contents())| && |old(entries).Keys| == |old(entries)|;
    }
  }

  lemma FewerSize<V>(was: map<string, V>, left: map<string, V>)
    requires left.Keys <= was.Keys
    ensures |left| <= |was|
  {
    assert |left| == |left.Keys| && |was| == |was.Keys|;
    SubsetSize(left.Keys, was.Keys);
  }
}
