/**
 Record sinks kept in step with the connector list: what each configuration snapshot tears
 down, what it builds, and what is live after any run of snapshots with build failures.
 */
module Sinks {
  import opened Wrappers

  /** A connector entry; its settings stand for the content its fingerprint encodes. */
  datatype Connector = Connector(name: string, kind: string, settings: string)

  predicate IsWebhook(c: Connector) { c.kind == "webhook" }

  /** A running pusher or spool track: the entry it was built from, and a serial number that
      tells it from every other sink ever built. */
  datatype Sink = Sink(built: Connector, serial: nat)

  /** What is running. A missing spool takes no tracks. */
  datatype Live = Live(pushers: map<string, Sink>, tracks: map<string, Sink>, spool: bool, serial: nat)

  // ----- The difference of two lists -----

  /** The entry a name stands for: the last one listed. */
  function Lookup(list: seq<Connector>, name: string): Option<Connector> {
    if list == [] then None
    else if list[|list| - 1].name == name then Some(list[|list| - 1])
    else Lookup(list[..|list| - 1], name)
  }

  /** The entries of `list` that are not, or not with the same settings, in `other`. */
  function Changed(list: seq<Connector>, other: seq<Connector>): seq<Connector> {
    if list == [] then []
    else
      var c := list[|list| - 1];
      Changed(list[..|list| - 1], other) + if Lookup(other, c.name) == Some(c) then [] else [c]
  }

  method Index(list: seq<Connector>) returns (m: map<string, Connector>)
    ensures forall n :: (if n in m then Some(m[n]) else None) == Lookup(list, n)
  {
    m := map[];
    for i := 0 to |list|
      invariant forall n :: (if n in m then Some(m[n]) else None) == Lookup(list[..i], n)
    {
      assert list[..i + 1][..i] == list[..i];
      m := m[list[i].name := list[i]];
    }
    assert list[..|list|] == list;
  }

  method DiffConnectors(earlier: seq<Connector>, cur: seq<Connector>)
    returns (removed: seq<Connector>, added: seq<Connector>)
    ensures removed == Changed(earlier, cur) && added == Changed(cur, earlier)
  {
    var prev := Index(earlier);
    var next := Index(cur);
    removed, added := [], [];
    for i := 0 to |earlier|
      invariant removed == Changed(earlier[..i], cur)
    {
      var c := earlier[i];
      assert earlier[..i + 1][..i] == earlier[..i];
      if c.name !in next || next[c.name] != c {
        assert Lookup(cur, c.name) != Some(c);
        removed := removed + [c];
      }
    }
    assert earlier[..|earlier|] == earlier;
    for i := 0 to |cur|
      invariant added == Changed(cur[..i], earlier)
    {
      var c := cur[i];
      assert cur[..i + 1][..i] == cur[..i];
      if c.name !in prev || prev[c.name] != c {
        assert Lookup(earlier, c.name) != Some(c);
        added := added + [c];
      }
    }
    assert cur[..|cur|] == cur;
  }

  // ----- One sink -----

  /** An unregister that times out has still taken the track off the spool. */
  function Removed(live: Live, c: Connector): Live {
    if IsWebhook(c) then live.(pushers := live.pushers - {c.name})
    else if !live.spool then live
    else live.(tracks := live.tracks - {c.name})
  }

  /** `ok`: the entries whose pusher, connector or track can be built just now. */
  predicate Buildable(live: Live, c: Connector, ok: set<Connector>) {
    c in ok && (IsWebhook(c) || live.spool)
  }

  function Added(live: Live, c: Connector, ok: set<Connector>): Live {
    if !Buildable(live, c, ok) then live
    else if IsWebhook(c) then
      live.(pushers := live.pushers[c.name := Sink(c, live.serial)], serial := live.serial + 1)
    else if c.name in live.tracks then live
    else
      live.(tracks := live.tracks[c.name := Sink(c, live.serial)], serial := live.serial + 1)
  }

  function RemovedAll(live: Live, list: seq<Connector>): Live {
    if list == [] then live else Removed(RemovedAll(live, list[..|list| - 1]), list[|list| - 1])
  }

  function AddedAll(live: Live, list: seq<Connector>, ok: set<Connector>): Live {
    if list == [] then live else Added(AddedAll(live, list[..|list| - 1], ok), list[|list| - 1], ok)
  }

  function Reconciled(live: Live, last: seq<Connector>, cur: seq<Connector>, ok: set<Connector>): Live {
    AddedAll(RemovedAll(live, Changed(last, cur)), Changed(cur, last), ok)
  }

  class SinkReconciler {
    var last: seq<Connector>
    var pushers: map<string, Sink>
    var tracks: map<string, Sink>
    const spool: bool
    var serial: nat

    constructor (boot: seq<Connector>, running: Live)
      ensures last == boot && Now() == running
    {
      last, pushers, tracks, spool, serial := boot, running.pushers, running.tracks, running.spool, running.serial;
    }

    function Now(): Live
      reads this
    {
      Live(pushers, tracks, spool, serial)
    }

    /** No snapshot, no change. */
    method OnSnapshot(cfg: Option<seq<Connector>>, ok: set<Connector>)
      modifies this
      ensures last == if cfg.Some? then cfg.value else old(last)
      ensures Now() == if cfg.Some? then Reconciled(old(Now()), old(last), cfg.value, ok) else old(Now())
    {
      if cfg.None? {
        return;
      }
      var removed, added := DiffConnectors(last, cfg.value);
      last := cfg.value;
      if removed == [] && added == [] {
        return;
      }
      Apply(removed, added, ok);
    }

    method Apply(removed: seq<Connector>, added: seq<Connector>, ok: set<Connector>)
      modifies this`pushers, this`tracks, this`serial
      ensures Now() == AddedAll(RemovedAll(old(Now()), removed), added, ok)
    {
      ghost var before := Now();
      for i := 0 to |removed|
        invariant Now() == RemovedAll(before, removed[..i])
      {
        assert removed[..i + 1][..i] == removed[..i];
        RemoveSink(removed[i]);
      }
      assert removed[..|removed|] == removed;
      ghost var between := Now();
      for i := 0 to |added|
        invariant Now() == AddedAll(between, added[..i], ok)
      {
        assert added[..i + 1][..i] == added[..i];
        AddSink(added[i], ok);
      }
      assert added[..|added|] == added;
    }

    method RemoveSink(c: Connector)
      modifies this`pushers, this`tracks
      ensures Now() == Removed(old(Now()), c)
    {
      if c.kind == "webhook" {
        pushers := pushers - {c.name};
        return;
      }
      if !spool {
        return;
      }
      tracks := tracks - {c.name};
    }

    method AddSink(c: Connector, ok: set<Connector>)
      modifies this`pushers, this`tracks, this`serial
      ensures Now() == Added(old(Now()), c, ok)
    {
      if c.kind == "webhook" {
        if c !in ok {
          return;
        }
        pushers := pushers[c.name := Sink(c, serial)];
        serial := serial + 1;
        return;
      }
      if !spool || c !in ok {
        return;
      }
      if c.name in tracks {
        return;
      }
      tracks := tracks[c.name := Sink(c, serial)];
      serial := serial + 1;
    }
  }

  // ----- What is live, seen entry by entry -----

  predicate UniqueNames(list: seq<Connector>) {
    forall i, j :: 0 <= i < j < |list| ==> list[i].name != list[j].name
  }

  /** The sink that serves an entry, if one built from that very entry is running. */
  function SinkOf(live: Live, c: Connector): Option<Sink> {
    var sinks := if IsWebhook(c) then live.pushers else live.tracks;
    if c.name in sinks && sinks[c.name].built == c then Some(sinks[c.name]) else None
  }

  /** Every sink runs under its own entry's name and in its own kind's place, and was built
      from one of `list`. */
  ghost predicate BuiltFrom(live: Live, list: seq<Connector>) {
    && (forall n :: n in live.pushers ==>
          var c := live.pushers[n].built; c in list && c.name == n && IsWebhook(c))
    && (forall n :: n in live.tracks ==>
          var c := live.tracks[n].built; c in list && c.name == n && !IsWebhook(c))
    && (live.tracks != map[] ==> live.spool)
  }

  lemma SameEntry(list: seq<Connector>, c: Connector, d: Connector)
    requires UniqueNames(list) && c in list && d in list && c.name == d.name
    ensures c == d
  {
    var i :| 0 <= i < |list| && list[i] == c;
    var j :| 0 <= j < |list| && list[j] == d;
  }

  lemma {:induction false} LookupUnique(list: seq<Connector>, name: string, c: Connector)
    requires UniqueNames(list)
    ensures Lookup(list, name) == Some(c) <==> c in list && c.name == name
  {
    if list != [] {
      var k := |list| - 1;
      assert list == list[..k] + [list[k]];
      LookupUnique(list[..k], name, c);
    }
  }

  /** The difference is the entries one list has and the other has not, names and settings. */
  lemma {:induction false} ChangedIs(list: seq<Connector>, other: seq<Connector>)
    requires UniqueNames(list) && UniqueNames(other)
    ensures forall c :: c in Changed(list, other) <==> c in list && c !in other
    ensures UniqueNames(Changed(list, other))
  {
    if list != [] {
      var k := |list| - 1;
      var c := list[k];
      assert list == list[..k] + [c];
      ChangedIs(list[..k], other);
      LookupUnique(other, c.name, c);
      forall d | d in Changed(list[..k], other) ensures d.name != c.name {
        var i :| 0 <= i < k && list[i] == d;
      }
    }
  }

  lemma RemoveOne(live: Live, list: seq<Connector>, c: Connector)
    requires BuiltFrom(live, list) && UniqueNames(list) && c in list
    ensures BuiltFrom(Removed(live, c), list)
    ensures forall d :: SinkOf(Removed(live, c), d) == if d == c then None else SinkOf(live, d)
  {
    hide UniqueNames;
    var after := Removed(live, c);
    forall d ensures SinkOf(after, d) == if d == c then None else SinkOf(live, d) {
      if d in list && d.name == c.name {
        SameEntry(list, c, d);
      }
    }
  }

  lemma {:induction false} RemoveEvery(live: Live, list: seq<Connector>, gone: seq<Connector>)
    requires BuiltFrom(live, list) && UniqueNames(list) && forall c :: c in gone ==> c in list
    ensures var after := RemovedAll(live, gone);
            && BuiltFrom(after, list) && after.spool == live.spool && after.serial == live.serial
            && forall d :: SinkOf(after, d) == if d in gone then None else SinkOf(live, d)
  {
    hide BuiltFrom, UniqueNames, SinkOf;
    if gone != [] {
      var k := |gone| - 1;
      assert gone == gone[..k] + [gone[k]];
      RemoveEvery(live, list, gone[..k]);
      RemoveOne(RemovedAll(live, gone[..k]), list, gone[k]);
    }
  }

  lemma NameFree(live: Live, list: seq<Connector>, c: Connector)
    requires BuiltFrom(live, list) && UniqueNames(list) && c in list && SinkOf(live, c).None?
    ensures c.name !in live.pushers && c.name !in live.tracks
  {
    hide UniqueNames;
    if c.name in live.pushers {
      SameEntry(list, c, live.pushers[c.name].built);
    }
    if c.name in live.tracks {
      SameEntry(list, c, live.tracks[c.name].built);
    }
  }

  lemma AddOne(live: Live, list: seq<Connector>, c: Connector, ok: set<Connector>)
    requires BuiltFrom(live, list) && UniqueNames(list) && c in list && SinkOf(live, c).None?
    ensures var after := Added(live, c, ok);
            && BuiltFrom(after, list) && after.serial >= live.serial
            && (forall d :: d != c ==> SinkOf(after, d) == SinkOf(live, d))
            && SinkOf(after, c) == if Buildable(live, c, ok) then Some(Sink(c, live.serial)) else None
  {
    NameFree(live, list, c);
    hide UniqueNames;
    AddToFree(live, list, c, ok);
    hide BuiltFrom;
  }

  lemma AddToFree(live: Live, list: seq<Connector>, c: Connector, ok: set<Connector>)
    requires BuiltFrom(live, list) && c in list && c.name !in live.pushers && c.name !in live.tracks
    ensures BuiltFrom(Added(live, c, ok), list)
  {
  }

  /** What adding promises for one new entry. */
  predicate Built(live: Live, sink: Option<Sink>, c: Connector, ok: set<Connector>) {
    if Buildable(live, c, ok) then sink.Some? && sink.value.built == c && sink.value.serial >= live.serial
    else sink.None?
  }

  lemma {:induction false} AddEvery(live: Live, list: seq<Connector>, added: seq<Connector>, ok: set<Connector>)
    requires BuiltFrom(live, list) && UniqueNames(list) && UniqueNames(added)
    requires forall c :: c in added ==> c in list && SinkOf(live, c).None?
    ensures var after := AddedAll(live, added, ok);
            && BuiltFrom(after, list) && after.spool == live.spool && after.serial >= live.serial
            && (forall d :: d !in added ==> SinkOf(after, d) == SinkOf(live, d))
            && (forall d :: d in added ==> Built(live, SinkOf(after, d), d, ok))
  {
    if added != [] {
      var k := |added| - 1;
      var c := added[k];
      assert added == added[..k] + [c];
      assert c !in added[..k];
      AddEvery(live, list, added[..k], ok);
      hide BuiltFrom, UniqueNames, SinkOf;
      AddOne(AddedAll(live, added[..k], ok), list, c, ok);
    }
  }

  lemma Rebased(live: Live, last: seq<Connector>, cur: seq<Connector>)
    requires BuiltFrom(live, last)
    requires forall c :: c in last && c !in cur ==> SinkOf(live, c).None?
    ensures BuiltFrom(live, cur)
  {
    forall n | n in live.pushers ensures live.pushers[n].built in cur {
      assert SinkOf(live, live.pushers[n].built).Some?;
    }
    forall n | n in live.tracks ensures live.tracks[n].built in cur {
      assert SinkOf(live, live.tracks[n].built).Some?;
    }
  }

  /** What one snapshot does, entry by entry: an unchanged entry keeps the very sink it had,
      one that left or changed has none, and a new one has a new sink unless its own build failed. */
  lemma SnapshotExact(live: Live, last: seq<Connector>, cur: seq<Connector>, ok: set<Connector>)
    requires BuiltFrom(live, last) && UniqueNames(last) && UniqueNames(cur)
    ensures var after := Reconciled(live, last, cur, ok);
            && BuiltFrom(after, cur) && after.spool == live.spool && after.serial >= live.serial
            && (forall c :: c in cur && c in last ==> SinkOf(after, c) == SinkOf(live, c))
            && (forall c :: c !in cur ==> SinkOf(after, c).None?)
            && (forall c :: c in cur && c !in last ==> Built(live, SinkOf(after, c), c, ok))
  {
    var gone, added := Changed(last, cur), Changed(cur, last);
    ChangedIs(last, cur);
    ChangedIs(cur, last);
    RemoveEvery(live, last, gone);
    var between := RemovedAll(live, gone);
    forall c | c !in last ensures SinkOf(between, c).None? {
    }
    hide UniqueNames;
    Rebased(between, last, cur);
    hide SinkOf, BuiltFrom;
    AddEvery(between, cur, added, ok);
  }

  /** No name runs both as a pusher and as a track, even when a connector changes its kind. */
  lemma NeverBoth(live: Live, list: seq<Connector>)
    requires BuiltFrom(live, list) && UniqueNames(list)
    ensures live.pushers.Keys !! live.tracks.Keys
  {
    hide UniqueNames;
    forall n | n in live.pushers && n in live.tracks ensures live.pushers[n].built == live.tracks[n].built {
      SameEntry(list, live.pushers[n].built, live.tracks[n].built);
    }
  }

  // ----- Runs of snapshots -----

  datatype Snapshot = Snapshot(connectors: seq<Connector>, ok: set<Connector>)

  datatype Boot = Boot(connectors: seq<Connector>, live: Live)

  function ListAfter(boot: Boot, run: seq<Snapshot>): seq<Connector> {
    if run == [] then boot.connectors else run[|run| - 1].connectors
  }

  function LiveAfter(boot: Boot, run: seq<Snapshot>): Live {
    if run == [] then boot.live
    else
      var before, s := run[..|run| - 1], run[|run| - 1];
      Reconciled(LiveAfter(boot, before), ListAfter(boot, before), s.connectors, s.ok)
  }

  ghost predicate Proper(boot: Boot, run: seq<Snapshot>) {
    && UniqueNames(boot.connectors) && BuiltFrom(boot.live, boot.connectors)
    && forall s :: s in run ==> UniqueNames(s.connectors)
  }

  /** Whether the build made when the entry was last (re)introduced succeeded, from the lists
      and the outcomes alone. */
  predicate Served(boot: Boot, run: seq<Snapshot>, c: Connector) {
    if run == [] then SinkOf(boot.live, c).Some?
    else
      var before, s := run[..|run| - 1], run[|run| - 1];
      && c in s.connectors
      && if c in ListAfter(boot, before) then Served(boot, before, c)
         else c in s.ok && (IsWebhook(c) || boot.live.spool)
  }

  /** After any run every sink was built from the current entry, and an entry has a sink
      exactly when its latest introduction succeeded: no other entry's failure matters. */
  lemma {:induction false} RunExact(boot: Boot, run: seq<Snapshot>)
    requires Proper(boot, run)
    ensures BuiltFrom(LiveAfter(boot, run), ListAfter(boot, run)) && UniqueNames(ListAfter(boot, run))
    ensures LiveAfter(boot, run).spool == boot.live.spool
    ensures forall c :: SinkOf(LiveAfter(boot, run), c).Some? <==> Served(boot, run, c)
  {
    if run != [] {
      var before, s := run[..|run| - 1], run[|run| - 1];
      RunExact(boot, before);
      hide SinkOf, BuiltFrom, UniqueNames, Reconciled;
      SnapshotExact(LiveAfter(boot, before), ListAfter(boot, before), s.connectors, s.ok);
    }
  }

  /** After any run pushers stand for webhooks and tracks for all other kinds, each under its entry's name. */
  lemma KindsKeptApart(boot: Boot, run: seq<Snapshot>, name: string)
    requires Proper(boot, run)
    ensures var live := LiveAfter(boot, run);
            && (name in live.pushers ==>
                  live.pushers[name].built.kind == "webhook" && live.pushers[name].built.name == name)
            && (name in live.tracks ==>
                  live.tracks[name].built.kind != "webhook" && live.tracks[name].built.name == name)
  {
    RunExact(boot, run);
  }

  lemma StepKeeps(boot: Boot, run: seq<Snapshot>, c: Connector)
    requires Proper(boot, run) && run != []
    requires c in ListAfter(boot, run) && c in ListAfter(boot, run[..|run| - 1])
    ensures SinkOf(LiveAfter(boot, run), c) == SinkOf(LiveAfter(boot, run[..|run| - 1]), c)
  {
    var before, s := run[..|run| - 1], run[|run| - 1];
    RunExact(boot, before);
    hide SinkOf, BuiltFrom, UniqueNames, Reconciled;
    SnapshotExact(LiveAfter(boot, before), ListAfter(boot, before), s.connectors, s.ok);
  }

  /** A connector that stays listed unchanged keeps the very sink it had. */
  lemma {:induction false} NeverTornDown(boot: Boot, run: seq<Snapshot>, m: nat, n: nat, c: Connector)
    requires Proper(boot, run) && m <= n <= |run|
    requires forall i :: m <= i <= n ==> c in ListAfter(boot, run[..i])
    ensures SinkOf(LiveAfter(boot, run[..n]), c) == SinkOf(LiveAfter(boot, run[..m]), c)
    decreases n
  {
    if n > m {
      NeverTornDown(boot, run, m, n - 1, c);
      assert run[..n][..n - 1] == run[..n - 1];
      assert Proper(boot, run[..n]);
      hide *;
      StepKeeps(boot, run[..n], c);
    }
  }

  /** What is served: under each name, the entry its sink was built from. */
  ghost predicate Serves(live: Live, name: string, c: Connector) {
    (name in live.pushers && live.pushers[name].built == c) || (name in live.tracks && live.tracks[name].built == c)
  }

  ghost predicate AllBuilt(boot: Boot, run: seq<Snapshot>) {
    && (forall c :: c in boot.connectors && (IsWebhook(c) || boot.live.spool) ==> SinkOf(boot.live, c).Some?)
    && forall s :: s in run ==> forall c :: c in s.connectors ==> c in s.ok
  }

  lemma {:induction false} AllServed(boot: Boot, run: seq<Snapshot>, c: Connector)
    requires Proper(boot, run) && AllBuilt(boot, run)
    ensures Served(boot, run, c) <==> c in ListAfter(boot, run) && (IsWebhook(c) || boot.live.spool)
  {
    if run == [] {
      assert SinkOf(boot.live, c).Some? ==> c in boot.connectors && (IsWebhook(c) || boot.live.spool);
    } else {
      AllServed(boot, run[..|run| - 1], c);
      assert run[|run| - 1] in run;
    }
  }

  /** When every build succeeds, what is served is the last list, or its webhooks if the gateway
      runs without a spool, and nothing of the way there. */
  lemma OnlyLastListMatters(boot: Boot, run: seq<Snapshot>, name: string, c: Connector)
    requires Proper(boot, run) && AllBuilt(boot, run)
    ensures Serves(LiveAfter(boot, run), name, c) <==>
            c in ListAfter(boot, run) && c.name == name && (IsWebhook(c) || boot.live.spool)
  {
    RunExact(boot, run);
    AllServed(boot, run, c);
    var live := LiveAfter(boot, run);
    hide AllBuilt, Served, UniqueNames, Proper;
    assert SinkOf(live, c).Some? <==> Serves(live, c.name, c);
  }

  /** One snapshot that changes a connector's settings and leaves another alone: the first gets a new sink,
      the other keeps its own although it could not be built again. */
  lemma ChangeRebuilds()
    ensures var a, b, c := Connector("n", "webhook", "1"), Connector("n", "webhook", "2"), Connector("m", "s3", "");
            var boot := Boot([a, c], Live(map["n" := Sink(a, 0)], map["m" := Sink(c, 1)], true, 2));
            var run := [Snapshot([c, b], {b})];
            && Proper(boot, run)
            && SinkOf(LiveAfter(boot, run), b).Some? && SinkOf(LiveAfter(boot, run), c) == Some(Sink(c, 1))
            && SinkOf(LiveAfter(boot, run), a).None?
  {
    var a, b, c := Connector("n", "webhook", "1"), Connector("n", "webhook", "2"), Connector("m", "s3", "");
    var boot := Boot([a, c], Live(map["n" := Sink(a, 0)], map["m" := Sink(c, 1)], true, 2));
    var run := [Snapshot([c, b], {b})];
    assert run[..0] == [] && ListAfter(boot, run) == [c, b] && ListAfter(boot, []) == [a, c];
    assert Proper(boot, run) && LiveAfter(boot, []) == boot.live;
    RunExact(boot, run);
    assert Served(boot, run, b) && !Served(boot, run, a);
    hide LiveAfter, Served, BuiltFrom;
    StepKeeps(boot, run, c);
  }

  /** Duplicate names, which configuration validation turns away before they get here, would break
      all this: applying one list twice changes what is served. */
  lemma DuplicateNamesChurn()
    ensures var a, b := Connector("n", "webhook", "1"), Connector("n", "webhook", "2");
            var live := Live(map["n" := Sink(b, 0)], map[], true, 1);
            Reconciled(live, [a, b], [a, b], {a, b}).pushers == map["n" := Sink(a, 1)]
  {
    var a, b := Connector("n", "webhook", "1"), Connector("n", "webhook", "2");
    assert [a, b][..1] == [a] && [a][..0] == [];
    assert Lookup([a, b], "n") == Some(b);
    assert Changed([a], [a, b]) == [a];
    assert Changed([a, b], [a, b]) == [a];
    var live := Live(map["n" := Sink(b, 0)], map[], true, 1);
    assert RemovedAll(live, []) == live && RemovedAll(live, [a]) == Live(map[], map[], true, 1);
    assert AddedAll(Live(map[], map[], true, 1), [], {a, b}) == Live(map[], map[], true, 1);
  }
}
