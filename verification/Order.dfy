/**
 Ordering: the lexicographic order both Go and Python put on strings, and the stable sort
 the components rely on.
 */
module Order {
  /** Code-point-wise lexicographic order. */
  predicate StrLe(a: string, b: string) {
    a == [] || (b != [] && (a[0] < b[0] || (a[0] == b[0] && StrLe(a[1..], b[1..]))))
  }

  predicate StrLt(a: string, b: string) {
    StrLe(a, b) && a != b
  }

  /** a and b agree before k, and there a is smaller. */
  predicate SmallerAt(a: string, b: string, k: int) {
    0 <= k < |a| && k < |b| && a[..k] == b[..k] && a[k] < b[k]
  }

  /** a comes before b exactly if it is the beginning of b, or smaller at the first difference. */
  lemma {:induction false} StrLeMeans(a: string, b: string)
    ensures StrLe(a, b) <==> a <= b || exists k :: SmallerAt(a, b, k)
  {
    if a != [] && b != [] {
      if a[0] == b[0] {
        StrLeMeans(a[1..], b[1..]);
        SameHeads(a, b);
      } else if a[0] < b[0] {
        assert SmallerAt(a, b, 0);
      } else {
        LargerHead(a, b);
      }
      hide SmallerAt;
    }
  }

  lemma SameHeads(a: string, b: string)
    requires a != [] && b != [] && a[0] == b[0]
    ensures a <= b <==> a[1..] <= b[1..]
    ensures (exists k :: SmallerAt(a, b, k)) <==> exists k :: SmallerAt(a[1..], b[1..], k)
  {
    assert a == [a[0]] + a[1..] && b == [b[0]] + b[1..];
    if k :| SmallerAt(a, b, k) {
      assert a[1..][..k - 1] == a[..k][1..] && b[1..][..k - 1] == b[..k][1..];
      assert SmallerAt(a[1..], b[1..], k - 1);
    }
    if k :| SmallerAt(a[1..], b[1..], k) {
      assert a[..k + 1] == [a[0]] + a[1..][..k] && b[..k + 1] == [b[0]] + b[1..][..k];
      assert SmallerAt(a, b, k + 1);
    }
  }

  lemma LargerHead(a: string, b: string)
    requires a != [] && b != [] && a[0] > b[0]
    ensures !(a <= b) && forall k :: !SmallerAt(a, b, k)
  {
    forall k ensures !SmallerAt(a, b, k) {
      assert 0 < k < |a| && k < |b| ==> a[..k][0] == a[0] && b[..k][0] == b[0];
    }
  }

  /** And strictly before exactly if it is a shorter beginning of b or smaller at the first difference. */
  lemma StrLtMeans(a: string, b: string)
    ensures StrLt(a, b) <==> a < b || exists k :: SmallerAt(a, b, k)
  {
    StrLeMeans(a, b);
    hide StrLe;
  }

  lemma StrTotal(a: string, b: string)
    ensures StrLe(a, b) || StrLe(b, a)
  {
  }

  lemma {:induction false} StrAntisymmetric(a: string, b: string)
    requires StrLe(a, b) && StrLe(b, a)
    ensures a == b
  {
    if a != [] {
      StrAntisymmetric(a[1..], b[1..]);
      assert a == [a[0]] + a[1..] && b == [b[0]] + b[1..];
    }
  }

  lemma {:induction false} StrTransitive(a: string, b: string, c: string)
    requires StrLe(a, b) && StrLe(b, c)
    ensures StrLe(a, c)
  {
    if a != [] && a[0] == b[0] == c[0] {
      StrTransitive(a[1..], b[1..], c[1..]);
    }
  }

  // ----- Sorting by a relation -----

  ghost predicate TotalPreorder<T(!new)>(le: (T, T) -> bool) {
    && (forall a, b :: le(a, b) || le(b, a))
    && (forall a, b, c :: le(a, b) && le(b, c) ==> le(a, c))
  }

  ghost predicate SortedBy<T>(s: seq<T>, le: (T, T) -> bool) {
    forall i, j :: 0 <= i < j < |s| ==> le(s[i], s[j])
  }

  lemma SortedPair<T>(s: seq<T>, le: (T, T) -> bool, i: nat, j: nat)
    requires SortedBy(s, le) && i < j < |s|
    ensures le(s[i], s[j])
  {
  }

  function Insert<T>(x: T, s: seq<T>, le: (T, T) -> bool): seq<T> {
    if s == [] || le(x, s[0]) then [x] + s else [s[0]] + Insert(x, s[1..], le)
  }

  /** Stable: among elements that compare equal, the earlier one stays earlier. */
  function Sort<T>(s: seq<T>, le: (T, T) -> bool): seq<T> {
    if s == [] then [] else Insert(s[0], Sort(s[1..], le), le)
  }

  lemma {:induction false} InsertPermutes<T>(x: T, s: seq<T>, le: (T, T) -> bool)
    ensures multiset(Insert(x, s, le)) == multiset{x} + multiset(s)
  {
    if s != [] && !le(x, s[0]) {
      InsertPermutes(x, s[1..], le);
      assert s == [s[0]] + s[1..];
    }
  }

  lemma {:induction false} SortPermutes<T>(s: seq<T>, le: (T, T) -> bool)
    ensures multiset(Sort(s, le)) == multiset(s)
    ensures |Sort(s, le)| == |s|
  {
    if s != [] {
      SortPermutes(s[1..], le);
      InsertPermutes(s[0], Sort(s[1..], le), le);
      assert s == [s[0]] + s[1..];
    }
    SameSize(Sort(s, le), s);
  }

  lemma SameSize<T>(a: seq<T>, b: seq<T>)
    requires multiset(a) == multiset(b)
    ensures |a| == |b|
  {
    assert |multiset(a)| == |a| && |multiset(b)| == |b|;
  }

  lemma SameMembers<T>(a: seq<T>, b: seq<T>)
    requires multiset(a) == multiset(b)
    ensures forall x :: x in a <==> x in b
  {
    forall x ensures x in a <==> x in b {
      assert x in a <==> x in multiset(a);
      assert x in b <==> x in multiset(b);
    }
  }

  lemma {:induction false} InsertSorted<T(!new)>(x: T, s: seq<T>, le: (T, T) -> bool)
    requires TotalPreorder(le) && SortedBy(s, le)
    ensures SortedBy(Insert(x, s, le), le)
  {
    if s != [] && !le(x, s[0]) {
      InsertSorted(x, s[1..], le);
      var r := Insert(x, s[1..], le);
      InsertPermutes(x, s[1..], le);
      forall y | y in r ensures le(s[0], y) {
        assert y in multiset(r);
        assert y == x || y in s[1..];
      }
    }
  }

  lemma {:induction false} SortSorted<T(!new)>(s: seq<T>, le: (T, T) -> bool)
    requires TotalPreorder(le)
    ensures SortedBy(Sort(s, le), le)
  {
    if s != [] {
      SortSorted(s[1..], le);
      InsertSorted(s[0], Sort(s[1..], le), le);
    }
  }

  lemma {:induction false} SortIdentity<T(!new)>(s: seq<T>, le: (T, T) -> bool)
    requires SortedBy(s, le)
    ensures Sort(s, le) == s
  {
    if s != [] {
      SortIdentity(s[1..], le);
      assert |s| > 1 ==> le(s[0], s[1]);
    }
  }

  /** `le` refined by a tie-break. */
  function Refined<T(!new)>(le: (T, T) -> bool, tie: (T, T) -> bool): (T, T) -> bool {
    (a, b) => le(a, b) && (le(b, a) ==> tie(a, b))
  }

  lemma RefinedIs<T(!new)>(le: (T, T) -> bool, tie: (T, T) -> bool, a: T, b: T)
    ensures Refined(le, tie)(a, b) <==> le(a, b) && (le(b, a) ==> tie(a, b))
  {
  }

  lemma {:induction false} InsertStable<T(!new)>(x: T, s: seq<T>, le: (T, T) -> bool, tie: (T, T) -> bool)
    requires TotalPreorder(le) && SortedBy(s, Refined(le, tie))
    requires forall y :: y in s && le(x, y) && le(y, x) ==> tie(x, y)
    ensures SortedBy(Insert(x, s, le), Refined(le, tie))
  {
    if s == [] {
    } else if le(x, s[0]) {
      forall j | 0 <= j < |s| ensures Refined(le, tie)(x, s[j]) {
        assert j > 0 ==> Refined(le, tie)(s[0], s[j]);
      }
    } else {
      InsertStable(x, s[1..], le, tie);
      var r := Insert(x, s[1..], le);
      InsertPermutes(x, s[1..], le);
      forall y | y in r ensures Refined(le, tie)(s[0], y) {
        assert y in multiset(r);
        assert y == x || y in s[1..];
      }
    }
  }

  /** If ties already stand in tie-break order, the sort leaves them so. */
  lemma {:induction false} SortStable<T(!new)>(s: seq<T>, le: (T, T) -> bool, tie: (T, T) -> bool)
    requires TotalPreorder(le)
    requires forall i, j :: 0 <= i < j < |s| && le(s[i], s[j]) && le(s[j], s[i]) ==> tie(s[i], s[j])
    ensures SortedBy(Sort(s, le), Refined(le, tie))
  {
    if s != [] {
      SortStable(s[1..], le, tie);
      SortPermutes(s[1..], le);
      SameMembers(Sort(s[1..], le), s[1..]);
      InsertStable(s[0], Sort(s[1..], le), le, tie);
    }
  }

  lemma SortedSameHead<T(!new)>(a: seq<T>, b: seq<T>, le: (T, T) -> bool)
    requires multiset(a) == multiset(b) && SortedBy(a, le) && SortedBy(b, le) && a != [] && b != []
    requires forall x, y :: x in a && y in a && le(x, y) && le(y, x) ==> x == y
    ensures a[0] == b[0]
  {
    SameMembers(a, b);
    assert a[0] in b && b[0] in a;
    var i :| 0 <= i < |b| && b[i] == a[0];
    var j :| 0 <= j < |a| && a[j] == b[0];
  }

  /** Two sorted arrangements of the same elements agree when no two of them tie. */
  lemma {:induction false} SortedUnique<T(!new)>(a: seq<T>, b: seq<T>, le: (T, T) -> bool)
    requires multiset(a) == multiset(b) && SortedBy(a, le) && SortedBy(b, le)
    requires forall x, y :: x in a && y in a && le(x, y) && le(y, x) ==> x == y
    ensures a == b
  {
    assert |multiset(a)| == |a| && |multiset(b)| == |b|;
    if a != [] {
      SortedSameHead(a, b, le);
      SameTails(a, b);
      SortedUnique(a[1..], b[1..], le);
      assert a == [a[0]] + a[1..] && b == [b[0]] + b[1..];
    }
  }

  lemma SameTails<T>(a: seq<T>, b: seq<T>)
    requires multiset(a) == multiset(b) && a != [] && b != [] && a[0] == b[0]
    ensures multiset(a[1..]) == multiset(b[1..])
    ensures forall x :: x in a[1..] ==> x in a
  {
    assert a == [a[0]] + a[1..] && b == [b[0]] + b[1..];
    assert multiset(a[1..]) == multiset(a) - multiset{a[0]} == multiset(b[1..]);
  }

  // ----- Selection -----

  /** `out` is what of `s` satisfies `p`, in the order of `s`: its elements stand at the places `at`. */
  ghost predicate Selects<T>(s: seq<T>, p: T -> bool, out: seq<T>, at: seq<nat>) {
    && |at| == |out|
    && (forall k :: 0 <= k < |at| ==> at[k] < |s| && out[k] == s[at[k]])
    && (forall k, l :: 0 <= k < l < |at| ==> at[k] < at[l])
    && (forall i: nat :: i in at <==> i < |s| && p(s[i]))
  }

  function Shifted(at: seq<nat>): seq<nat> {
    seq(|at|, i requires 0 <= i < |at| => at[i] + 1)
  }

  lemma ShiftedMembers(at: seq<nat>, i: nat)
    ensures i in Shifted(at) <==> i > 0 && i - 1 in at
  {
    if i > 0 && i - 1 in at {
      var k :| 0 <= k < |at| && at[k] == i - 1;
      assert Shifted(at)[k] == i;
    }
  }

  /** One more element in front, selected or not. */
  lemma SelectsCons<T>(s: seq<T>, p: T -> bool, out: seq<T>, at: seq<nat>) returns (more: seq<nat>)
    requires s != [] && Selects(s[1..], p, out, at)
    ensures Selects(s, p, (if p(s[0]) then [s[0]] else []) + out, more)
  {
    hide Selects;
    if p(s[0]) {
      more := [0] + Shifted(at);
      SelectsTake(s, p, out, at);
    } else {
      more := Shifted(at);
      assert [] + out == out;
      SelectsSkip(s, p, out, at);
    }
  }

  lemma SelectsSkip<T>(s: seq<T>, p: T -> bool, out: seq<T>, at: seq<nat>)
    requires s != [] && Selects(s[1..], p, out, at) && !p(s[0])
    ensures Selects(s, p, out, Shifted(at))
  {
    hide Shifted;
    ShiftedAt(at);
    forall i: nat ensures i in Shifted(at) <==> i < |s| && p(s[i]) {
      ShiftedMembers(at, i);
    }
  }

  lemma ShiftedAt(at: seq<nat>)
    ensures |Shifted(at)| == |at| && forall k :: 0 <= k < |at| ==> Shifted(at)[k] == at[k] + 1
  {
  }

  lemma SelectsTake<T>(s: seq<T>, p: T -> bool, out: seq<T>, at: seq<nat>)
    requires s != [] && Selects(s[1..], p, out, at) && p(s[0])
    ensures Selects(s, p, [s[0]] + out, [0] + Shifted(at))
  {
    hide Shifted;
    ShiftedAt(at);
    forall i: nat ensures i in [0] + Shifted(at) <==> i < |s| && p(s[i]) {
      ShiftedMembers(at, i);
    }
  }

  lemma SelectsNothing<T>(p: T -> bool)
    ensures Selects([], p, [], [])
  {
  }

  // ----- Sequences without repetition -----

  predicate Distinct<T(==)>(s: seq<T>) {
    forall i, j :: 0 <= i < j < |s| ==> s[i] != s[j]
  }

  lemma {:induction false} CountOnce<T>(a: seq<T>, x: T)
    requires Distinct(a)
    ensures multiset(a)[x] <= 1
  {
    if a != [] {
      assert a == [a[0]] + a[1..];
      CountOnce(a[1..], x);
    }
  }

  lemma CountTwice<T>(b: seq<T>, i: nat, j: nat)
    requires i < j < |b| && b[i] == b[j]
    ensures multiset(b)[b[i]] >= 2
  {
    assert b == b[..i] + [b[i]] + b[i + 1..j] + [b[j]] + b[j + 1..];
  }

  lemma DistinctPermuted<T>(a: seq<T>, b: seq<T>)
    requires multiset(a) == multiset(b) && Distinct(a)
    ensures Distinct(b)
  {
    forall i, j | 0 <= i < j < |b| ensures b[i] != b[j] {
      CountOnce(a, b[i]);
      if b[i] == b[j] {
        CountTwice(b, i, j);
      }
    }
  }

  lemma {:induction false} TwoPlaces<T>(a: seq<T>, x: T) returns (i: nat, j: nat)
    requires multiset(a)[x] >= 2
    ensures i < j < |a| && a[i] == x && a[j] == x
  {
    var n := |a| - 1;
    assert a == a[..n] + [a[n]];
    if a[n] == x {
      assert x in multiset(a[..n]);
      i :| 0 <= i < n && a[i] == x;
      j := n;
    } else {
      i, j := TwoPlaces(a[..n], x);
    }
  }

  // ----- Sorting twice -----

  /** A value with the place it came from. */
  datatype Tagged<T> = Tagged(value: T, place: nat)

  function Tag<T>(s: seq<T>): seq<Tagged<T>> {
    seq(|s|, i requires 0 <= i < |s| => Tagged(s[i], i))
  }

  function Untag<T>(s: seq<Tagged<T>>): seq<T> {
    if s == [] then [] else [s[0].value] + Untag(s[1..])
  }

  function ByValue<T>(le: (T, T) -> bool): (Tagged<T>, Tagged<T>) -> bool {
    (a: Tagged<T>, b: Tagged<T>) => le(a.value, b.value)
  }

  function ByPlace<T>(): (Tagged<T>, Tagged<T>) -> bool {
    (a: Tagged<T>, b: Tagged<T>) => a.place <= b.place
  }

  lemma StableIs<T(!new)>(le: (T, T) -> bool, a: Tagged<T>, b: Tagged<T>)
    ensures Refined(ByValue(le), ByPlace())(a, b) <==>
            le(a.value, b.value) && (le(b.value, a.value) ==> a.place <= b.place)
  {
  }

  lemma {:induction false} UntagIs<T>(s: seq<Tagged<T>>)
    ensures |Untag(s)| == |s| && forall i :: 0 <= i < |s| ==> Untag(s)[i] == s[i].value
  {
    if s != [] {
      UntagIs(s[1..]);
    }
  }

  lemma {:induction false} UntagInsert<T>(x: Tagged<T>, s: seq<Tagged<T>>, le: (T, T) -> bool)
    ensures Untag(Insert(x, s, ByValue(le))) == Insert(x.value, Untag(s), le)
  {
    if s != [] && !le(x.value, s[0].value) {
      UntagInsert(x, s[1..], le);
      assert Untag(s)[1..] == Untag(s[1..]);
      assert Insert(x, s, ByValue(le))[1..] == Insert(x, s[1..], ByValue(le));
    }
  }

  lemma {:induction false} UntagSort<T>(s: seq<Tagged<T>>, le: (T, T) -> bool)
    ensures Untag(Sort(s, ByValue(le))) == Sort(Untag(s), le)
  {
    if s != [] {
      UntagSort(s[1..], le);
      UntagInsert(s[0], Sort(s[1..], ByValue(le)), le);
      assert Untag(s)[1..] == Untag(s[1..]);
    }
  }

  lemma ByValueOrder<T(!new)>(le: (T, T) -> bool)
    requires TotalPreorder(le)
    ensures TotalPreorder(ByValue(le))
  {
    forall a: Tagged<T>, b: Tagged<T> ensures ByValue(le)(a, b) || ByValue(le)(b, a) {
      assert le(a.value, b.value) || le(b.value, a.value);
    }
    forall a: Tagged<T>, b: Tagged<T>, c: Tagged<T> | ByValue(le)(a, b) && ByValue(le)(b, c) ensures ByValue(le)(a, c) {
      assert le(a.value, b.value) && le(b.value, c.value);
    }
  }

  /** Sorting by one order and then by another gives a sequence back that was sorted by the
      second and, where that ties, by the first. */
  lemma SortTwice<T(!new)>(s: seq<T>, le1: (T, T) -> bool, le2: (T, T) -> bool)
    requires TotalPreorder(le1) && TotalPreorder(le2)
    requires SortedBy(s, Refined(le2, le1))
    ensures Sort(Sort(s, le1), le2) == s
  {
    var t := Tag(s);
    UntagIs(t);
    assert Untag(t) == s;
    assert forall i, j :: 0 <= i < j < |s| ==> Refined(le2, le1)(s[i], s[j]);
    hide TotalPreorder, Sort, Untag;
    var u := Sort(t, ByValue(le1));
    StableTag(t, le1);
    PlacesKept(s, u, le1, le2);
    var v := Sort(u, ByValue(le2));
    StableTag(u, le2);
    TagUnique(s, v, le2);
    UntagSort(t, le1);
    UntagSort(u, le2);
  }

  /** Where `le` ties, places stand in order. */
  ghost predicate PlacesInOrder<T(!new)>(u: seq<Tagged<T>>, le: (T, T) -> bool) {
    forall i, j :: 0 <= i < j < |u| && le(u[i].value, u[j].value) && le(u[j].value, u[i].value) ==>
      u[i].place <= u[j].place
  }

  ghost predicate SortedStably<T(!new)>(u: seq<Tagged<T>>, le: (T, T) -> bool) {
    forall i, j :: 0 <= i < j < |u| ==> Stable(u[i], u[j], le)
  }

  predicate Stable<T>(a: Tagged<T>, b: Tagged<T>, le: (T, T) -> bool) {
    le(a.value, b.value) && (le(b.value, a.value) ==> a.place <= b.place)
  }

  lemma StableTag<T(!new)>(t: seq<Tagged<T>>, le: (T, T) -> bool)
    requires TotalPreorder(le) && (t == Tag(Untag(t)) || PlacesInOrder(t, le))
    ensures multiset(Sort(t, ByValue(le))) == multiset(t)
    ensures SortedStably(Sort(t, ByValue(le)), le)
  {
    ByValueOrder(le);
    SortPermutes(t, ByValue(le));
    forall i, j | 0 <= i < j < |t| && le(t[i].value, t[j].value) && le(t[j].value, t[i].value)
      ensures t[i].place <= t[j].place
    {
      UntagIs(t);
    }
    SortStable(t, ByValue(le), ByPlace());
    var u := Sort(t, ByValue(le));
    forall i, j | 0 <= i < j < |u| ensures Stable(u[i], u[j], le) {
      StableIs(le, u[i], u[j]);
      assert Refined(ByValue(le), ByPlace())(u[i], u[j]);
    }
  }

  lemma PlacesKept<T(!new)>(s: seq<T>, u: seq<Tagged<T>>, le1: (T, T) -> bool, le2: (T, T) -> bool)
    requires forall i, j :: 0 <= i < j < |s| ==> le2(s[i], s[j]) && (le2(s[j], s[i]) ==> le1(s[i], s[j]))
    requires multiset(u) == multiset(Tag(s)) && SortedStably(u, le1)
    ensures PlacesInOrder(u, le2)
  {
    SameMembers(u, Tag(s));
    forall i, j | 0 <= i < j < |u| && le2(u[i].value, u[j].value) && le2(u[j].value, u[i].value)
      ensures u[i].place <= u[j].place
    {
      var a, b := u[i], u[j];
      assert a in Tag(s) && b in Tag(s) && Stable(a, b, le1);
      InOrderAt(s, b.place, a.place, le1, le2);
    }
  }

  lemma InOrderAt<T(!new)>(s: seq<T>, i: nat, j: nat, le1: (T, T) -> bool, le2: (T, T) -> bool)
    requires forall i, j :: 0 <= i < j < |s| ==> le2(s[i], s[j]) && (le2(s[j], s[i]) ==> le1(s[i], s[j]))
    requires i < |s| && j < |s|
    ensures i < j && le2(s[j], s[i]) ==> le1(s[i], s[j])
  {
  }

  lemma TagUnique<T(!new)>(s: seq<T>, v: seq<Tagged<T>>, le2: (T, T) -> bool)
    requires multiset(v) == multiset(Tag(s)) && SortedStably(v, le2)
    requires forall i, j :: 0 <= i < j < |s| ==> le2(s[i], s[j])
    ensures v == Tag(s)
  {
    var t, order := Tag(s), (a: Tagged<T>, b: Tagged<T>) => Stable(a, b, le2);
    forall x, y | x in t && y in t && order(x, y) && order(y, x) ensures x == y {
      assert Stable(x, y, le2) && Stable(y, x, le2);
      assert x.place == y.place;
    }
    forall i, j | 0 <= i < j < |t| ensures order(t[i], t[j]) {
      assert le2(s[i], s[j]);
    }
    SortedUnique(t, v, order);
  }

  lemma StrOrder()
    ensures TotalPreorder(StrLe)
  {
    forall a, b ensures StrLe(a, b) || StrLe(b, a) {
      StrTotal(a, b);
    }
    forall a, b, c | StrLe(a, b) && StrLe(b, c) ensures StrLe(a, c) {
      StrTransitive(a, b, c);
    }
  }

  ghost predicate StrictlySorted(s: seq<string>) {
    forall i, j :: 0 <= i < j < |s| ==> StrLt(s[i], s[j])
  }

  /** Distinct strings sort strictly. */
  lemma SortStrict(keys: seq<string>)
    requires Distinct(keys)
    ensures StrictlySorted(Sort(keys, StrLe))
    ensures |Sort(keys, StrLe)| == |keys|
    ensures forall k :: k in Sort(keys, StrLe) <==> k in keys
  {
    StrOrder();
    SortSorted(keys, StrLe);
    SortPermutes(keys, StrLe);
    hide Sort, StrLe;
    DistinctPermuted(keys, Sort(keys, StrLe));
    SameMembers(keys, Sort(keys, StrLe));
  }
}
