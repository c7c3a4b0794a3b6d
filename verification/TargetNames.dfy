/** The identities a group gives its targets, and when they are distinct. */
module TargetNames {
  import opened Order
  import opened Decimal

  datatype Target = Target(provider: string, alias: string)

  function Count(targets: seq<Target>, provider: string): nat {
    if targets == [] then 0
    else Count(targets[..|targets| - 1], provider) + if targets[|targets| - 1].provider == provider then 1 else 0
  }

  function Positional(targets: seq<Target>, i: nat): string
    requires i < |targets|
  {
    targets[i].provider + "#" + Numeral(i + 1)
  }

  /** The name a target asks for, before collisions are looked at. */
  function Wanted(targets: seq<Target>, i: nat): string
    requires i < |targets|
  {
    var t := targets[i];
    if Count(targets, t.provider) <= 1 then t.provider
    else if t.alias != "" then t.provider + "#" + t.alias
    else Positional(targets, i)
  }

  /** The names of the first n targets. */
  function Names(targets: seq<Target>, n: nat): (names: seq<string>)
    requires n <= |targets|
    ensures |names| == n
  {
    if n == 0 then []
    else
      var before := Names(targets, n - 1);
      var name := Wanted(targets, n - 1);
      before + [if name in before then Positional(targets, n - 1) else name]
  }

  method TargetNames(targets: seq<Target>) returns (names: seq<string>)
    ensures names == Names(targets, |targets|)
  {
    var counts: map<string, int> := map[];
    for i := 0 to |targets|
      invariant forall p :: (if p in counts then counts[p] else 0) == Count(targets[..i], p)
    {
      assert targets[..i + 1][..i] == targets[..i];
      var p := targets[i].provider;
      counts := counts[p := 1 + if p in counts then counts[p] else 0];
    }
    assert targets[..|targets|] == targets;
    names := [];
    var used: set<string> := {};
    for i := 0 to |targets|
      invariant names == Names(targets, i)
      invariant forall s :: s in used <==> s in names
    {
      var t := targets[i];
      var name := t.provider;
      CountOne(targets, i);
      if counts[t.provider] > 1 {
        if t.alias != "" {
          name := t.provider + "#" + t.alias;
        } else {
          name := t.provider + "#" + Numeral(i + 1);
        }
      }
      if name in used {
        name := t.provider + "#" + Numeral(i + 1);
      }
      used := used + {name};
      names := names + [name];
    }
  }

  lemma {:induction false} CountOne(targets: seq<Target>, i: nat)
    requires i < |targets|
    ensures Count(targets, targets[i].provider) >= 1
  {
    if i < |targets| - 1 {
      CountOne(targets[..|targets| - 1], i);
    }
  }

  lemma {:induction false} CountTwo(targets: seq<Target>, i: nat, j: nat)
    requires i < j < |targets| && targets[i].provider == targets[j].provider
    ensures Count(targets, targets[j].provider) >= 2
  {
    if j < |targets| - 1 {
      CountTwo(targets[..|targets| - 1], i, j);
    } else {
      CountOne(targets[..|targets| - 1], i);
    }
  }

  /** No other target has its provider. */
  predicate ListedOnce(targets: seq<Target>, i: nat)
    requires i < |targets|
  {
    forall k :: 0 <= k < |targets| && k != i ==> targets[k].provider != targets[i].provider
  }

  lemma {:induction false} CountNone(targets: seq<Target>, p: string)
    requires forall k :: 0 <= k < |targets| ==> targets[k].provider != p
    ensures Count(targets, p) == 0
  {
    if targets != [] {
      CountNone(targets[..|targets| - 1], p);
    }
  }

  lemma {:induction false} CountIsOne(targets: seq<Target>, i: nat)
    requires i < |targets|
    ensures Count(targets, targets[i].provider) == 1 <==> ListedOnce(targets, i)
  {
    if ListedOnce(targets, i) {
      var n := |targets| - 1;
      if i < n {
        CountIsOne(targets[..n], i);
      } else {
        CountNone(targets[..n], targets[i].provider);
      }
    } else {
      var k :| 0 <= k < |targets| && k != i && targets[k].provider == targets[i].provider;
      if k < i {
        CountTwo(targets, k, i);
      } else {
        CountTwo(targets, i, k);
      }
    }
  }

  // ----- Who falls back, told from the wanted names alone -----

  /** An earlier target wants the same name, or fell back to it. */
  ghost predicate FallsBack(targets: seq<Target>, j: nat)
    requires j < |targets|
    decreases j, 1
  {
    Taken(targets, j, Wanted(targets, j))
  }

  ghost predicate Takes(targets: seq<Target>, i: nat, name: string)
    requires i < |targets|
    decreases i, 2
  {
    Wanted(targets, i) == name || (FallsBack(targets, i) && Positional(targets, i) == name)
  }

  ghost predicate Taken(targets: seq<Target>, n: nat, name: string)
    requires n <= |targets|
    decreases n, 0
  {
    exists i :: 0 <= i < n && Takes(targets, i, name)
  }

  lemma TakenStep(targets: seq<Target>, n: nat, name: string)
    requires n < |targets|
    ensures Taken(targets, n + 1, name) <==> Taken(targets, n, name) || Takes(targets, n, name)
  {
    hide Takes;
  }

  /** Which names are in use after n targets. */
  lemma {:induction false} NamesTaken(targets: seq<Target>, n: nat, name: string)
    requires n <= |targets|
    ensures name in Names(targets, n) <==> Taken(targets, n, name)
  {
    if n > 0 {
      TakenStep(targets, n - 1, name);
      NamesTaken(targets, n - 1, name);
      NamesTaken(targets, n - 1, Wanted(targets, n - 1));
      hide Wanted, Positional, Taken;
    }
  }

  lemma {:induction false} NameAt(targets: seq<Target>, n: nat, i: nat)
    requires i < n <= |targets|
    ensures Names(targets, n)[i] == if FallsBack(targets, i) then Positional(targets, i) else Wanted(targets, i)
    ensures Names(targets, n)[..i] == Names(targets, i)
  {
    hide Wanted, Positional, Taken;
    if i < n - 1 {
      NameAt(targets, n - 1, i);
    } else {
      NamesTaken(targets, i, Wanted(targets, i));
    }
  }

  lemma HashFree(a: string, x: string, b: string, y: string)
    requires a + "#" + x == b + "#" + y && '#' !in x && '#' !in y
    ensures a == b && x == y
  {
    var s := a + "#" + x;
    var i, j := |a|, |b|;
    assert s[i] == '#' && s[j] == '#';
    assert s[i + 1..] == x && s[j + 1..] == y;
    assert forall k :: i < k < |s| ==> s[k] == x[k - i - 1];
    assert forall k :: j < k < |s| ==> s[k] == y[k - j - 1];
    assert i == j;
    assert s[..i] == a && s[..j] == b && s[i + 1..] == x && s[j + 1..] == y;
  }

  lemma HashFreeFront(a: string, x: string, b: string, y: string)
    requires a + "#" + x == b + "#" + y && '#' !in a && '#' !in b
    ensures a == b && x == y
  {
    var s := a + "#" + x;
    var i, j := |a|, |b|;
    assert s[i] == '#' && s[j] == '#';
    assert forall k :: 0 <= k < i ==> s[k] == a[k];
    assert forall k :: 0 <= k < j ==> s[k] == b[k];
    assert i == j;
    assert s[..i] == a && s[..j] == b && s[i + 1..] == x && s[j + 1..] == y;
  }

  /** No two positional names are equal, whatever the providers are called. */
  lemma PositionalInjective(targets: seq<Target>, i: nat, j: nat)
    requires i < |targets| && j < |targets| && Positional(targets, i) == Positional(targets, j)
    ensures i == j
  {
    NumeralIs(i + 1);
    NumeralIs(j + 1);
    HashFree(targets[i].provider, Numeral(i + 1), targets[j].provider, Numeral(j + 1));
    NumeralInjective(i + 1, j + 1);
  }

  // ----- When the names are distinct -----

  /** A target that falls back finds its positional name free. */
  ghost predicate FallbackFree(targets: seq<Target>, n: nat)
    requires n <= |targets|
  {
    forall i, j :: 0 <= i < j < n && FallsBack(targets, j) ==> Wanted(targets, i) != Positional(targets, j)
  }

  lemma {:induction false} FreeMeansDistinct(targets: seq<Target>, n: nat)
    requires n <= |targets| && FallbackFree(targets, n)
    ensures Distinct(Names(targets, n))
  {
    if n > 0 {
      FreeMeansDistinct(targets, n - 1);
      LastIsNew(targets, n - 1);
    }
  }

  lemma LastIsNew(targets: seq<Target>, last: nat)
    requires last < |targets| && FallbackFree(targets, last + 1)
    ensures Names(targets, last + 1)[last] !in Names(targets, last)
  {
    hide Wanted, Positional, Names;
    NameAt(targets, last + 1, last);
    var name := Names(targets, last + 1)[last];
    NamesTaken(targets, last, name);
    if FallsBack(targets, last) {
      forall i | 0 <= i < last ensures !Takes(targets, i, name) {
        if Positional(targets, i) == name {
          PositionalInjective(targets, i, last);
        }
      }
    }
  }

  /** The names are distinct exactly when no target asks, as its own name, for the positional
      name a later target has to fall back to. */
  lemma DistinctIffFallbackFree(targets: seq<Target>)
    ensures Distinct(Names(targets, |targets|)) <==> FallbackFree(targets, |targets|)
  {
    var n := |targets|;
    if FallbackFree(targets, n) {
      FreeMeansDistinct(targets, n);
    } else {
      var i, j :| 0 <= i < j < n && FallsBack(targets, j) && Wanted(targets, i) == Positional(targets, j);
      SpelledTwice(targets, i, j);
    }
  }

  lemma SpelledTwice(targets: seq<Target>, i: nat, j: nat)
    requires i < j < |targets| && FallsBack(targets, j) && Wanted(targets, i) == Positional(targets, j)
    ensures !Distinct(Names(targets, |targets|))
  {
    hide Wanted, Positional, Names, FallsBack;
    var all, name := Names(targets, |targets|), Positional(targets, j);
    assert Takes(targets, i, name);
    NamesTaken(targets, j, name);
    NameAt(targets, |targets|, j);
    var k :| 0 <= k < j && all[..j][k] == name;
    assert all[k] == name && all[j] == name;
  }

  predicate PlainProviders(targets: seq<Target>) {
    forall i :: 0 <= i < |targets| ==> '#' !in targets[i].provider
  }

  /** Providers without '#' and aliases that are no numerals give distinct names, for any group. */
  lemma PlainGroupsDistinct(targets: seq<Target>)
    requires PlainProviders(targets)
    requires forall i :: 0 <= i < |targets| ==> !IsNumeral(targets[i].alias)
    ensures Distinct(Names(targets, |targets|))
  {
    forall i, j | 0 <= i < j < |targets| ensures Wanted(targets, i) != Positional(targets, j) {
      NumeralIs(j + 1);
      hide Wanted, Positional, IsNumeral;
      if Wanted(targets, i) == Positional(targets, j) {
        WantedPositional(targets, i, j);
        assert false;
      }
    }
    assert FallbackFree(targets, |targets|) by { hide Wanted, Positional, FallsBack; }
    hide *;
    DistinctIffFallbackFree(targets);
  }

  /** What it takes to ask for another target's positional name. */
  lemma WantedPositional(targets: seq<Target>, i: nat, j: nat)
    requires i < |targets| && j < |targets| && i != j && PlainProviders(targets)
    requires Wanted(targets, i) == Positional(targets, j)
    ensures targets[i].provider == targets[j].provider && targets[i].alias == Numeral(j + 1)
  {
    var t, u := targets[i], targets[j];
    assert Positional(targets, j)[|u.provider|] == '#';
    if Count(targets, t.provider) > 1 {
      if t.alias != "" {
        HashFreeFront(t.provider, t.alias, u.provider, Numeral(j + 1));
      } else {
        PositionalInjective(targets, i, j);
      }
    }
  }

  /** A provider listed once keeps its plain name. */
  lemma ListedOnceKeepsName(targets: seq<Target>, i: nat)
    requires PlainProviders(targets) && i < |targets| && ListedOnce(targets, i)
    ensures Names(targets, |targets|)[i] == targets[i].provider
  {
    CountIsOne(targets, i);
    assert Wanted(targets, i) == targets[i].provider;
    hide Wanted, Positional, Names, Takes, Taken, Count, PlainProviders;
    NameAt(targets, |targets|, i);
    ListedOnceIsFree(targets, i);
  }

  lemma ListedOnceIsFree(targets: seq<Target>, i: nat)
    requires PlainProviders(targets) && i < |targets| && Count(targets, targets[i].provider) == 1
    ensures !Taken(targets, i, targets[i].provider)
  {
    hide Takes, Count, PlainProviders;
    forall k | 0 <= k < i ensures !Takes(targets, k, targets[i].provider) {
      DoesNotTake(targets, k, i);
    }
  }

  lemma DoesNotTake(targets: seq<Target>, k: nat, i: nat)
    requires k < i < |targets| && PlainProviders(targets) && Count(targets, targets[i].provider) == 1
    ensures !Takes(targets, k, targets[i].provider)
  {
    hide FallsBack, Taken, Count;
    assert Positional(targets, k)[|targets[k].provider|] == '#';
    if targets[k].provider == targets[i].provider {
      CountTwo(targets, k, i);
    }
  }

  /** The name of each target of such a group, told from the list alone: plain if its provider
      is listed once, provider#alias for the first target with that alias, provider#position
      otherwise. */
  lemma PlainGroupNames(targets: seq<Target>, i: nat)
    requires PlainProviders(targets) && i < |targets|
    requires forall k :: 0 <= k < |targets| ==> !IsNumeral(targets[k].alias)
    ensures Names(targets, |targets|)[i] ==
            if ListedOnce(targets, i) then targets[i].provider
            else if targets[i].alias != "" && (forall k :: 0 <= k < i ==> targets[k] != targets[i])
            then targets[i].provider + "#" + targets[i].alias
            else targets[i].provider + "#" + Numeral(i + 1)
  {
    var t := targets[i];
    CountOne(targets, i);
    CountIsOne(targets, i);
    if ListedOnce(targets, i) {
      ListedOnceKeepsName(targets, i);
    } else {
      NameAt(targets, |targets|, i);
      if t.alias != "" {
        AliasTaken(targets, i);
      }
    }
  }

  lemma AliasTaken(targets: seq<Target>, i: nat)
    requires PlainProviders(targets) && i < |targets|
    requires forall k :: 0 <= k < |targets| ==> !IsNumeral(targets[k].alias)
    requires Count(targets, targets[i].provider) > 1 && targets[i].alias != ""
    ensures FallsBack(targets, i) <==> exists k :: 0 <= k < i && targets[k] == targets[i]
  {
    hide FallsBack, IsNumeral, Count;
    forall k | 0 <= k < i ensures Takes(targets, k, Wanted(targets, i)) <==> targets[k] == targets[i] {
      AliasTakenBy(targets, k, i);
    }
    hide Takes, Wanted;
    assert FallsBack(targets, i) <==> Taken(targets, i, Wanted(targets, i)) by { FallsBackIs(targets, i); }
  }

  lemma FallsBackIs(targets: seq<Target>, i: nat)
    requires i < |targets|
    ensures FallsBack(targets, i) <==> Taken(targets, i, Wanted(targets, i))
  {
    hide Taken, Wanted;
  }

  lemma AliasTakenBy(targets: seq<Target>, k: nat, i: nat)
    requires PlainProviders(targets) && k < i < |targets|
    requires !IsNumeral(targets[i].alias)
    requires Count(targets, targets[i].provider) > 1 && targets[i].alias != ""
    ensures Takes(targets, k, Wanted(targets, i)) <==> targets[k] == targets[i]
  {
    hide FallsBack, Taken, Count, IsNumeral;
    var t, u := targets[k], targets[i];
    NumeralIs(k + 1);
    assert Wanted(targets, i)[|u.provider|] == '#';
    if Positional(targets, k) == Wanted(targets, i) {
      HashFreeFront(t.provider, Numeral(k + 1), u.provider, u.alias);
      assert false;
    }
    if t.alias != "" && t.provider + "#" + t.alias == Wanted(targets, i) {
      HashFreeFront(t.provider, t.alias, u.provider, u.alias);
    }
  }

  /** In general the promise fails: an alias can spell a later target's position. */
  lemma AliasCanSpellPosition()
    ensures var targets := [Target("p", "3"), Target("p", "x"), Target("p", "x")];
            !Distinct(Names(targets, |targets|))
  {
    var targets := [Target("p", "3"), Target("p", "x"), Target("p", "x")];
    assert targets[..2] == [Target("p", "3"), Target("p", "x")] && targets[..1] == [Target("p", "3")];
    assert targets[..2][..1] == [Target("p", "3")];
    assert Count(targets[..1], "p") == 1 && Count(targets[..2], "p") == 2 && Count(targets, "p") == 3;
    assert Wanted(targets, 0) == "p#3" && Wanted(targets, 1) == "p#x" && Wanted(targets, 2) == "p#x";
    assert Takes(targets, 1, Wanted(targets, 2));
    assert FallsBack(targets, 2) && Positional(targets, 2) == "p#3";
    DistinctIffFallbackFree(targets);
  }
}
