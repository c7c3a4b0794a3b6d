/** The text form of a metric's label set, and the scan that reads one attribute back. */
module LabelKeys {
  import opened Order

  datatype Attribute = Attribute(key: string, value: string)

  // ----- Encoding -----

  function Rendered(a: Attribute): string { a.key + "=" + a.value }

  function Pairs(attrs: seq<Attribute>): seq<string> {
    if attrs == [] then [] else [Rendered(attrs[0])] + Pairs(attrs[1..])
  }

  function Joined(pairs: seq<string>): string {
    if pairs == [] then "" else if |pairs| == 1 then pairs[0] else pairs[0] + "," + Joined(pairs[1..])
  }

  function EncodeLabels(attrs: seq<Attribute>): string {
    Joined(Sort(Pairs(attrs), StrLe))
  }

  /** The same attributes in another order make the same key. */
  lemma OrderForgotten(a: seq<Attribute>, b: seq<Attribute>)
    requires multiset(a) == multiset(b)
    ensures EncodeLabels(a) == EncodeLabels(b)
  {
    PairsPermuted(a, b);
    StrOrder();
    SortPermutes(Pairs(a), StrLe);
    SortPermutes(Pairs(b), StrLe);
    SortSorted(Pairs(a), StrLe);
    SortSorted(Pairs(b), StrLe);
    forall x, y | StrLe(x, y) && StrLe(y, x) ensures x == y {
      StrAntisymmetric(x, y);
    }
    SortedUnique(Sort(Pairs(a), StrLe), Sort(Pairs(b), StrLe), StrLe);
  }

  lemma {:induction false} PairsPermuted(a: seq<Attribute>, b: seq<Attribute>)
    requires multiset(a) == multiset(b)
    ensures multiset(Pairs(a)) == multiset(Pairs(b))
  {
    if a == [] {
      assert |multiset(b)| == |b|;
    } else {
      var x, rest := a[0], a[1..];
      assert a == [x] + rest;
      assert x in multiset(b);
      var j :| 0 <= j < |b| && b[j] == x;
      var front, back := b[..j], b[j + 1..];
      TakenOut(rest, x, front, back, b);
      PairsPermuted(rest, front + back);
      MoveFront(x, front, back);
      assert Pairs(a) == [Rendered(x)] + Pairs(rest);
      hide Pairs, Rendered;
    }
  }

  lemma TakenOut(rest: seq<Attribute>, x: Attribute, front: seq<Attribute>, back: seq<Attribute>, b: seq<Attribute>)
    requires b == front + [x] + back && multiset([x] + rest) == multiset(b)
    ensures multiset(rest) == multiset(front + back) && b == front + ([x] + back)
  {
    assert b == front + ([x] + back);
    assert multiset(b) == multiset(front + back) + multiset{x};
    Alike(multiset(rest), multiset(front + back), multiset{x});
  }

  lemma Alike<T>(a: multiset<T>, b: multiset<T>, c: multiset<T>)
    requires a + c == b + c
    ensures a == b
  {
    assert a == (a + c) - c && b == (b + c) - c;
  }

  lemma MoveFront(x: Attribute, front: seq<Attribute>, back: seq<Attribute>)
    ensures multiset(Pairs(front + ([x] + back))) == multiset{Rendered(x)} + multiset(Pairs(front + back))
  {
    assert Pairs([x] + back) == [Rendered(x)] + Pairs(back) by { assert ([x] + back)[1..] == back; }
    hide Pairs, Rendered;
    PairsConcat(front, back);
    PairsConcat(front, [x] + back);
  }

  lemma {:induction false} PairsConcat(a: seq<Attribute>, b: seq<Attribute>)
    ensures Pairs(a + b) == Pairs(a) + Pairs(b)
  {
    hide Rendered;
    if a == [] {
      assert a + b == b;
    } else {
      PairsConcat(a[1..], b);
      assert (a + b)[1..] == a[1..] + b;
    }
  }

  // ----- The scan as written -----

  /** `part` occurs in s at j. */
  predicate At(s: string, part: string, j: nat) {
    j + |part| <= |s| && s[j..j + |part|] == part
  }

  lemma AtSuffix(s: string, part: string, k: nat, j: nat)
    requires k <= |s|
    ensures At(s[k..], part, j) <==> At(s, part, k + j)
  {
    if k + j + |part| <= |s| {
      assert s[k..][j..j + |part|] == s[k + j..k + j + |part|];
    }
  }

  lemma AtTail(s: string, part: string)
    requires s != ""
    ensures forall j: nat :: At(s[1..], part, j) <==> At(s, part, j + 1)
  {
    forall j: nat ensures At(s[1..], part, j) <==> At(s, part, j + 1) {
      AtSuffix(s, part, 1, j);
    }
  }

  /** strings.Index: the first place where `part` occurs, or -1. */
  function Index(s: string, part: string): (i: int)
    ensures -1 <= i && (i >= 0 ==> At(s, part, i))
    ensures forall j: nat :: (i < 0 || j < i) ==> !At(s, part, j)
  {
    if At(s, part, 0) then 0
    else if s == "" then -1
    else
      var rest := Index(s[1..], part);
      AtTail(s, part);
      assert forall j: nat :: j > 0 && At(s, part, j) ==> At(s[1..], part, j - 1);
      if rest < 0 then -1 else rest + 1
  }

  function Comma(s: string): (i: int)
    ensures -1 <= i < |s| && (i >= 0 ==> s[i] == ',')
    ensures forall j :: 0 <= j < (if i < 0 then |s| else i) ==> s[j] != ','
  {
    if s == "" then -1
    else if s[0] == ',' then 0
    else
      var rest := Comma(s[1..]);
      if rest < 0 then -1 else rest + 1
  }

  function UpToComma(s: string): string {
    var j := Comma(s);
    if j >= 0 then s[..j] else s
  }

  /** The place of the occurrence after which the scan reads, -1 if it gives up. */
  function ReadsAt(s: string, prefix: string): (r: int)
    requires prefix != ""
    ensures -1 <= r && (r >= 0 ==> r + |prefix| <= |s|)
    decreases |s|
  {
    var i := Index(s, prefix);
    if i < 0 then -1
    else if Skips(s, i) then
      var n := i + |prefix|;
      var r := ReadsAt(s[n..], prefix);
      if r < 0 then -1 else n + r
    else i
  }

  /** An occurrence at i is passed over: it neither starts the text nor follows a comma. */
  predicate Skips(s: string, i: nat)
    requires i <= |s|
  {
    i != 0 && s[i - 1] != ','
  }

  function Scan(s: string, prefix: string): string
    requires prefix != ""
  {
    var r := ReadsAt(s, prefix);
    if r < 0 then "" else UpToComma(s[r + |prefix|..])
  }

  method Get(key: string, name: string) returns (value: string)
    ensures value == Scan(key, name + "=")
  {
    hide *;
    var s, prefix := key, name + "=";
    ghost var gone := 0;
    if key == "" {
      EmptyScan(prefix);
      return "";
    }
    while true
      invariant 0 <= gone <= |key| && s == key[gone..]
      invariant ReadsAt(key, prefix) == if ReadsAt(s, prefix) < 0 then -1 else gone + ReadsAt(s, prefix)
      decreases |s|
    {
      var i := Index(s, prefix);
      ScanIs(key, prefix);
      if i < 0 {
        ReadsNothing(s, prefix);
        return "";
      }
      AtFits(s, prefix, i);
      SameRest(key, gone, i + |prefix|);
      if i != 0 && s[i - 1] != ',' {
        ReadsOn(s, prefix, i);
        s, gone := s[i + |prefix|..], gone + i + |prefix|;
        continue;
      }
      ReadsHere(s, prefix, i);
      var val := s[i + |prefix|..];
      UpToCommaIs(val);
      var j := Comma(val);
      if j >= 0 {
        return val[..j];
      }
      return val;
    }
  }

  lemma ScanIs(s: string, prefix: string)
    requires prefix != ""
    ensures var r := ReadsAt(s, prefix); Scan(s, prefix) == if r < 0 then "" else UpToComma(s[r + |prefix|..])
  {
    hide ReadsAt, UpToComma;
  }

  lemma UpToCommaIs(s: string)
    ensures var j := Comma(s); UpToComma(s) == if j >= 0 then s[..j] else s
  {
    hide Comma;
  }

  lemma AtFits(s: string, part: string, i: nat)
    requires At(s, part, i)
    ensures i + |part| <= |s|
  {
  }

  lemma EmptyScan(prefix: string)
    requires prefix != ""
    ensures Scan("", prefix) == ""
  {
  }

  // ----- Where the scan reads -----

  lemma SameRest(s: string, n: nat, k: nat)
    requires n + k <= |s|
    ensures s[n..][k..] == s[n + k..]
  {
  }

  /** An occurrence that the scan takes for a key: it starts the text, follows a comma, or directly
      follows another occurrence, which the scan has skipped. */
  predicate Stop(s: string, prefix: string, p: nat) {
    At(s, prefix, p) && (p == 0 || s[p - 1] == ',' || (p >= |prefix| && At(s, prefix, p - |prefix|)))
  }

  /** Names hold no sign, so occurrences of a name with its sign never overlap. */
  lemma NoOverlap(s: string, name: string, a: nat, b: nat)
    requires '=' !in name && At(s, name + "=", a) && At(s, name + "=", b) && a < b
    ensures a + |name| + 1 <= b
  {
    EndsInSign(s, name, a);
    SignFree(s, name, b);
  }

  lemma SignFree(s: string, name: string, p: nat)
    requires '=' !in name && At(s, name + "=", p)
    ensures forall j :: p <= j < p + |name| ==> s[j] != '='
  {
    var prefix := name + "=";
    forall j | p <= j < p + |name| ensures s[j] != '=' {
      assert s[p..p + |prefix|][j - p] == s[j] && prefix[j - p] == name[j - p];
    }
  }

  ghost predicate NoStopBefore(s: string, prefix: string, n: int) {
    forall p: nat :: (n < 0 || p < n) ==> !Stop(s, prefix, p)
  }

  /** The scan reads after the first stop, and gives up exactly when there is none. What it has
      skipped so far is text up to k, which is 0 or the end of an occurrence. */
  lemma {:induction false} ReadsFirstStop(s: string, name: string, k: nat)
    requires '=' !in name && k <= |s|
    requires k == 0 || (k >= |name| + 1 && At(s, name + "=", k - |name| - 1))
    requires NoStopBefore(s, name + "=", k)
    ensures var prefix := name + "="; var r := ReadsAt(s[k..], prefix);
            if r < 0 then NoStopBefore(s, prefix, -1)
            else Stop(s, prefix, k + r) && NoStopBefore(s, prefix, k + r)
    decreases |s| - k
  {
    hide *;
    var prefix, rest := name + "=", s[k..];
    var i := Index(rest, prefix);
    if i < 0 {
      NoneFrom(s, prefix, k);
      ReadsNothing(rest, prefix);
    } else {
      FirstFrom(s, name, k, i);
      if i != 0 && rest[i - 1] != ',' {
        SkippedNoStop(s, name, k, k + i);
        SameRest(s, k, i + |prefix|);
        ReadsFirstStop(s, name, k + i + |prefix|);
        ReadsOn(rest, prefix, i);
      } else {
        ReadsHere(rest, prefix, i);
      }
    }
  }

  lemma ReadsNothing(s: string, prefix: string)
    requires prefix != "" && Index(s, prefix) < 0
    ensures ReadsAt(s, prefix) == -1
  {
  }

  lemma ReadsHere(s: string, prefix: string, i: nat)
    requires prefix != "" && Index(s, prefix) == i && i < |s| && (i == 0 || s[i - 1] == ',')
    ensures ReadsAt(s, prefix) == i
  {
    hide Index;
  }

  lemma ReadsOn(s: string, prefix: string, i: nat)
    requires prefix != "" && Index(s, prefix) == i && 0 < i && i + |prefix| <= |s| && s[i - 1] != ','
    ensures var r := ReadsAt(s[i + |prefix|..], prefix);
            ReadsAt(s, prefix) == if r < 0 then -1 else i + |prefix| + r
  {
    hide Index;
  }

  lemma NoneFrom(s: string, prefix: string, k: nat)
    requires k <= |s| && Index(s[k..], prefix) < 0 && NoStopBefore(s, prefix, k)
    ensures NoStopBefore(s, prefix, -1)
  {
    hide At;
    forall p: nat ensures !Stop(s, prefix, p) {
      if p >= k {
        AtSuffix(s, prefix, k, p - k);
      }
    }
  }

  lemma FirstFrom(s: string, name: string, k: nat, i: nat)
    requires '=' !in name && k <= |s| && i == Index(s[k..], name + "=")
    requires k == 0 || (k >= |name| + 1 && At(s, name + "=", k - |name| - 1))
    requires NoStopBefore(s, name + "=", k)
    ensures var prefix := name + "=";
            && At(s, prefix, k + i) && k + i + |prefix| <= |s| && i < |s[k..]|
            && NoStopBefore(s, prefix, k + i)
            && (forall p: nat :: k <= p < k + i ==> !At(s, prefix, p))
            && (i == 0 || s[k..][i - 1] == ',' ==> Stop(s, prefix, k + i))
  {
    hide *;
    var prefix := name + "=";
    AtSuffix(s, prefix, k, i);
    AtFits(s, prefix, k + i);
    forall p: nat | k <= p < k + i ensures !At(s, prefix, p) {
      AtSuffix(s, prefix, k, p - k);
    }
    NoneBetween(s, prefix, k, k + i);
    if i == 0 || s[k..][i - 1] == ',' {
      StopAt(s, prefix, k + i, k);
    }
  }

  lemma NoneBetween(s: string, prefix: string, k: nat, n: nat)
    requires NoStopBefore(s, prefix, k) && forall p: nat :: k <= p < n ==> !At(s, prefix, p)
    ensures NoStopBefore(s, prefix, n)
  {
    hide At;
  }

  lemma StopAt(s: string, prefix: string, p: nat, k: nat)
    requires At(s, prefix, p) && p < |s|
    requires p == k || (p > 0 && s[p - 1] == ',')
    requires k == 0 || (k >= |prefix| && At(s, prefix, k - |prefix|))
    ensures Stop(s, prefix, p)
  {
    hide At;
  }

  /** An occurrence the scan skips is no stop, and there is none inside it. */
  lemma SkippedNoStop(s: string, name: string, k: nat, q: nat)
    requires '=' !in name && k < q && At(s, name + "=", q) && s[q - 1] != ','
    requires k == 0 || (k >= |name| + 1 && At(s, name + "=", k - |name| - 1))
    requires NoStopBefore(s, name + "=", q)
    requires forall p: nat :: k <= p < q ==> !At(s, name + "=", p)
    ensures NoStopBefore(s, name + "=", q + |name| + 1)
  {
    var prefix := name + "=";
    hide At;
    if q >= |prefix| && At(s, prefix, q - |prefix|) {
      NoOverlap(s, name, k - |prefix|, q - |prefix|);
      assert false;
    }
    forall p: nat | p < q + |prefix| ensures !Stop(s, prefix, p) {
      if p > q && At(s, prefix, p) {
        NoOverlap(s, name, q, p);
      }
    }
  }

  // ----- Where an attribute's own pair stands -----

  predicate CleanName(name: string) { ',' !in name && '=' !in name }

  predicate DistinctKeys(attrs: seq<Attribute>) {
    forall i, j :: 0 <= i < j < |attrs| ==> attrs[i].key != attrs[j].key
  }

  /** The value a label set gives a name, "" if it has none. */
  function ValueOf(attrs: seq<Attribute>, name: string): string {
    if attrs == [] then ""
    else if attrs[0].key == name then attrs[0].value
    else ValueOf(attrs[1..], name)
  }

  /** The first pair that starts with the prefix, `|pairs|` if none does. */
  function FirstWith(pairs: seq<string>, prefix: string): (k: nat)
    ensures k <= |pairs| && (k < |pairs| ==> prefix <= pairs[k])
    ensures forall j :: 0 <= j < k ==> !(prefix <= pairs[j])
  {
    if pairs == [] || prefix <= pairs[0] then 0 else 1 + FirstWith(pairs[1..], prefix)
  }

  /** Where the k-th pair starts in the joined text. */
  function Start(pairs: seq<string>, k: nat): nat
    requires k <= |pairs|
  {
    if k == 0 then 0 else |pairs[0]| + 1 + Start(pairs[1..], k - 1)
  }

  /** Where the pair for a name starts in the encoded label set, -1 if there is none. */
  function OwnStart(attrs: seq<Attribute>, name: string): int {
    var pairs := Sort(Pairs(attrs), StrLe);
    var k := FirstWith(pairs, name + "=");
    if k == |pairs| then -1 else Start(pairs, k)
  }

  /** From its start on the text is the pair, then the end or a comma. */
  lemma {:induction false} StartsThere(pairs: seq<string>, k: nat) returns (more: string)
    requires k < |pairs|
    ensures Start(pairs, k) <= |Joined(pairs)| && Joined(pairs)[Start(pairs, k)..] == pairs[k] + more
    ensures more == "" || more[0] == ','
    ensures k == 0 ==> Start(pairs, k) == 0
    ensures k > 0 ==> Start(pairs, k) > 0 && Joined(pairs)[Start(pairs, k) - 1] == ','
  {
    if k == 0 {
      more := if |pairs| == 1 then "" else "," + Joined(pairs[1..]);
      assert Joined(pairs) == pairs[0] + more;
    } else {
      more := StartsThere(pairs[1..], k - 1);
      var n, rest := |pairs[0]| + 1, Joined(pairs[1..]);
      assert Joined(pairs) == (pairs[0] + ",") + rest;
      assert Joined(pairs)[n + Start(pairs[1..], k - 1)..] == rest[Start(pairs[1..], k - 1)..];
      assert k > 1 ==> Joined(pairs)[n + Start(pairs[1..], k - 1) - 1] == rest[Start(pairs[1..], k - 1) - 1];
    }
  }

  lemma StartsIn(p: string, more: string, prefix: string)
    requires ',' !in prefix && (more == "" || more[0] == ',')
    ensures At(p + more, prefix, 0) <==> prefix <= p
  {
    var s := p + more;
    if |prefix| <= |p| {
      assert s[0..|prefix|] == p[..|prefix|];
    } else if |prefix| <= |s| {
      assert s[0..|prefix|][|p|] == ',';
    }
  }

  lemma CommaAfterPair(p: string, more: string)
    requires ',' !in p && (more == "" || more[0] == ',')
    ensures Comma(p + more) == if more == "" then -1 else |p|
  {
    var s := p + more;
    assert more != "" ==> s[|p|] == ',';
    assert forall k :: 0 <= k < |p| ==> s[k] == p[k];
  }

  lemma RenderedStarts(a: Attribute, name: string)
    requires '=' !in a.key && CleanName(name)
    ensures name + "=" <= Rendered(a) <==> a.key == name
    ensures a.key == name ==> Rendered(a)[|name + "="|..] == a.value
  {
    var r, n, k := Rendered(a), |name|, |a.key|;
    assert r[k] == '=';
    if name + "=" <= r {
      assert (name + "=")[n] == '=' && r[..n + 1][n] == r[n];
      assert forall j :: 0 <= j < n ==> r[..n + 1][j] == name[j] == r[j];
      assert forall j :: 0 <= j < k ==> r[j] == a.key[j];
      assert a.key == r[..k] && name == r[..n];
    }
  }

  lemma {:induction false} PairsMembers(attrs: seq<Attribute>, p: string)
    ensures p in Pairs(attrs) <==> exists a :: a in attrs && p == Rendered(a)
  {
    if attrs != [] {
      PairsMembers(attrs[1..], p);
      assert attrs == [attrs[0]] + attrs[1..];
    }
  }

  lemma {:induction false} ValueOfIs(attrs: seq<Attribute>, name: string, a: Attribute)
    requires DistinctKeys(attrs) && a in attrs && a.key == name
    ensures ValueOf(attrs, name) == a.value
  {
    assert attrs == [attrs[0]] + attrs[1..];
    if attrs[0].key == name {
      var i :| 0 <= i < |attrs| && attrs[i] == a;
      assert i == 0;
    } else {
      ValueOfIs(attrs[1..], name, a);
    }
  }

  lemma {:induction false} ValueOfNone(attrs: seq<Attribute>, name: string)
    requires forall a :: a in attrs ==> a.key != name
    ensures ValueOf(attrs, name) == ""
  {
    if attrs != [] {
      assert attrs[0] in attrs;
      ValueOfNone(attrs[1..], name);
    }
  }

  /** The pair the encoding holds for a name, if any, is the name's own. */
  lemma OwnPair(attrs: seq<Attribute>, name: string)
    requires DistinctKeys(attrs) && CleanName(name) && forall a :: a in attrs ==> '=' !in a.key
    ensures var pairs := Sort(Pairs(attrs), StrLe); var k := FirstWith(pairs, name + "=");
            if k < |pairs| then pairs[k] == name + "=" + ValueOf(attrs, name) else ValueOf(attrs, name) == ""
  {
    var pairs, prefix := Sort(Pairs(attrs), StrLe), name + "=";
    SortPermutes(Pairs(attrs), StrLe);
    SameMembers(pairs, Pairs(attrs));
    hide Sort;
    var k := FirstWith(pairs, prefix);
    if k < |pairs| {
      assert pairs[k] in pairs;
      PairsMembers(attrs, pairs[k]);
      var a :| a in attrs && pairs[k] == Rendered(a);
      RenderedStarts(a, name);
      ValueOfIs(attrs, name, a);
    } else {
      forall a | a in attrs ensures a.key != name {
        PairsMembers(attrs, Rendered(a));
        RenderedStarts(a, name);
      }
      ValueOfNone(attrs, name);
    }
  }

  /** The start of the name's own pair is a stop, and what follows the name there is its value up to
      the first comma. */
  lemma OwnStop(attrs: seq<Attribute>, name: string)
    requires DistinctKeys(attrs) && CleanName(name) && forall a :: a in attrs ==> '=' !in a.key
    requires OwnStart(attrs, name) >= 0
    ensures var text, own, prefix := EncodeLabels(attrs), OwnStart(attrs, name), name + "=";
            && Stop(text, prefix, own) && own + |prefix| <= |text|
            && (UpToComma(text[own + |prefix|..]) == ValueOf(attrs, name) <==> ',' !in ValueOf(attrs, name))
  {
    hide *;
    var pairs := Sort(Pairs(attrs), StrLe);
    OwnPair(attrs, name);
    OwnStartIs(attrs, name);
    PairStop(pairs, FirstWith(pairs, name + "="), name + "=", ValueOf(attrs, name));
  }

  lemma OwnStartIs(attrs: seq<Attribute>, name: string)
    ensures var pairs := Sort(Pairs(attrs), StrLe); var k := FirstWith(pairs, name + "=");
            && EncodeLabels(attrs) == Joined(pairs)
            && OwnStart(attrs, name) == if k == |pairs| then -1 else Start(pairs, k)
  {
    hide Sort, Pairs, FirstWith, Start, Joined;
  }

  lemma PairStop(pairs: seq<string>, k: nat, prefix: string, value: string)
    requires k < |pairs| && pairs[k] == prefix + value
    ensures var text, own := Joined(pairs), Start(pairs, k);
            && Stop(text, prefix, own) && own + |prefix| <= |text|
            && (UpToComma(text[own + |prefix|..]) == value <==> ',' !in value)
  {
    hide *;
    var more := StartsThere(pairs, k);
    var text, own := Joined(pairs), Start(pairs, k);
    assert pairs[k] + more == prefix + (value + more);
    AtStart(text, own, prefix, value + more);
    ValueUpToComma(value, more);
    StopsThere(text, prefix, own);
  }

  lemma StopsThere(text: string, prefix: string, p: nat)
    requires At(text, prefix, p) && p <= |text| && (p == 0 || text[p - 1] == ',')
    ensures Stop(text, prefix, p)
  {
    hide At;
  }

  lemma AtStart(text: string, own: nat, prefix: string, rest: string)
    requires own <= |text| && text[own..] == prefix + rest
    ensures At(text, prefix, own) && own + |prefix| <= |text| && text[own + |prefix|..] == rest
  {
    assert text[own..own + |prefix|] == text[own..][..|prefix|];
    assert text[own + |prefix|..] == text[own..][|prefix|..];
  }

  lemma ValueUpToComma(value: string, more: string)
    requires more == "" || more[0] == ','
    ensures UpToComma(value + more) == value <==> ',' !in value
  {
    if ',' !in value {
      CommaAfterPair(value, more);
    } else {
      var i :| 0 <= i < |value| && value[i] == ',';
      assert (value + more)[i] == ',';
      assert Comma(value + more) <= i;
    }
  }

  // ----- Reading an attribute back -----

  /** The scan reads at `own` (or nowhere, if -1) exactly when no stop comes earlier; and having read
      there it gives the value exactly when that holds no comma. */
  ghost predicate ReadsBack(text: string, prefix: string, own: int, value: string)
    requires prefix != ""
  {
    && (ReadsAt(text, prefix) == own <==> NoStopBefore(text, prefix, own))
    && (ReadsAt(text, prefix) == own ==> (Scan(text, prefix) == value <==> ',' !in value))
  }

  /** Where the scan reads is where the name's own pair stands, or nowhere if the label set has no
      such name, exactly when no occurrence that it takes for a key starts earlier; and having found
      the pair it reads the value exactly when that holds no comma. */
  lemma GetReadsBack(attrs: seq<Attribute>, name: string)
    requires DistinctKeys(attrs) && CleanName(name) && forall a :: a in attrs ==> '=' !in a.key
    ensures ReadsBack(EncodeLabels(attrs), name + "=", OwnStart(attrs, name), ValueOf(attrs, name))
  {
    hide *;
    var own := OwnStart(attrs, name);
    OwnPair(attrs, name);
    OwnStartIs(attrs, name);
    if own >= 0 {
      OwnStop(attrs, name);
    }
    NoSign(name);
    TextReadsBack(EncodeLabels(attrs), name, own, ValueOf(attrs, name));
  }

  lemma NoSign(name: string)
    requires CleanName(name)
    ensures '=' !in name && ',' !in name
  {
  }

  lemma TextReadsBack(text: string, name: string, own: int, value: string)
    requires '=' !in name && own >= -1 && (own < 0 ==> value == "")
    requires own >= 0 ==> Stop(text, name + "=", own) && own + |name| + 1 <= |text|
    requires own >= 0 ==> (UpToComma(text[own + |name| + 1..]) == value <==> ',' !in value)
    ensures ReadsBack(text, name + "=", own, value)
  {
    hide ReadsAt, Scan, UpToComma, Stop, At, NoStopBefore;
    var prefix := name + "=";
    assert text[0..] == text;
    NothingBefore(text, prefix);
    ReadsFirstStop(text, name, 0);
    OwnOrNone(text, prefix, own, ReadsAt(text, prefix));
    ScanIs(text, prefix);
  }

  lemma NothingBefore(text: string, prefix: string)
    ensures NoStopBefore(text, prefix, 0)
  {
  }

  /** The first stop is the own pair's exactly when no stop comes before that. */
  lemma OwnOrNone(text: string, prefix: string, own: int, r: int)
    requires own < 0 ==> own == -1
    requires own >= 0 ==> Stop(text, prefix, own)
    requires if r < 0 then r == -1 && NoStopBefore(text, prefix, -1)
             else Stop(text, prefix, r) && NoStopBefore(text, prefix, r)
    ensures r == own <==> NoStopBefore(text, prefix, own)
  {
    hide Stop;
  }

  // ----- Plain values -----

  predicate Clean(a: Attribute) {
    ',' !in a.key && '=' !in a.key && ',' !in a.value
  }

  lemma CommaFree(s: string, prefix: string, i: nat)
    requires ',' !in prefix && At(s, prefix, i)
    ensures forall k :: i <= k < i + |prefix| ==> s[k] != ','
  {
    forall k | i <= k < i + |prefix| ensures s[k] != ',' {
      assert s[i..i + |prefix|][k - i] == s[k];
    }
  }

  /** In a joined list of pairs with one sign each, a comma lies between any two signs. */
  lemma {:induction false} CommaBetweenSigns(pairs: seq<string>, i: nat, j: nat)
    requires forall p :: p in pairs ==> OneSign(p)
    requires i < j < |Joined(pairs)| && Joined(pairs)[i] == '=' && Joined(pairs)[j] == '='
    ensures exists k :: i < k < j && Joined(pairs)[k] == ','
  {
    var p := pairs[0];
    assert p in pairs;
    if |pairs| > 1 {
      var rest, n := Joined(pairs[1..]), |p| + 1;
      assert Joined(pairs) == p + "," + rest && Joined(pairs)[|p|] == ',';
      if i >= n {
        CommaBetweenSigns(pairs[1..], i - n, j - n);
        var k :| i - n < k < j - n && rest[k] == ',';
        assert Joined(pairs)[n + k] == ',';
      }
    }
  }

  predicate OneSign(p: string) {
    forall i, j :: 0 <= i < j < |p| ==> p[i] != '=' || p[j] != '='
  }

  lemma EndsInSign(s: string, name: string, p: nat)
    requires At(s, name + "=", p)
    ensures p + |name| < |s| && s[p + |name|] == '='
  {
    var prefix := name + "=";
    assert prefix[|name|] == '=';
    assert s[p..p + |prefix|][|name|] == s[p + |name|];
  }

  /** Between pairs with one sign each, no name follows itself. */
  lemma NotTwice(pairs: seq<string>, name: string, p: nat)
    requires CleanName(name) && (forall q :: q in pairs ==> OneSign(q)) && At(Joined(pairs), name + "=", p)
    ensures !At(Joined(pairs), name + "=", p + |name| + 1)
  {
    var s, n := Joined(pairs), |name| + 1;
    hide Joined, At, OneSign;
    if At(s, name + "=", p + n) {
      CommaFree(s, name + "=", p + n);
      EndsInSign(s, name, p);
      EndsInSign(s, name, p + n);
      CommaBetweenSigns(pairs, p + n - 1, p + n + n - 1);
    }
  }

  /** In a list of pairs without commas, only pairs start after a comma. */
  lemma {:induction false} PairStartsHere(pairs: seq<string>, p: nat) returns (k: nat)
    requires forall q :: q in pairs ==> ',' !in q
    requires p < |Joined(pairs)| && (p == 0 || Joined(pairs)[p - 1] == ',')
    ensures k < |pairs| && Start(pairs, k) == p
  {
    if p == 0 {
      k := 0;
    } else {
      var n := |pairs[0]| + 1;
      assert pairs[0] in pairs;
      assert Joined(pairs)[..|pairs[0]|] == pairs[0];
      assert |pairs| > 1 ==> Joined(pairs) == (pairs[0] + ",") + Joined(pairs[1..]);
      assert forall j :: 0 <= j < |pairs[0]| ==> Joined(pairs)[j] == pairs[0][j];
      assert p >= n;
      assert p > n ==> Joined(pairs)[p - 1] == Joined(pairs[1..])[p - n - 1];
      k := PairStartsHere(pairs[1..], p - n);
      k := k + 1;
    }
  }

  /** A label set without a comma or a sign in any key or value. */
  predicate PlainSet(attrs: seq<Attribute>) {
    DistinctKeys(attrs) && forall a :: a in attrs ==> Clean(a) && '=' !in a.value
  }

  /** So nothing can go wrong as long as no key and no value holds a comma or a sign. */
  lemma PlainValuesReadBack(attrs: seq<Attribute>, name: string)
    requires PlainSet(attrs) && CleanName(name)
    ensures Scan(EncodeLabels(attrs), name + "=") == ValueOf(attrs, name)
  {
    GetReadsBack(attrs, name);
    PlainStops(attrs, name);
    PlainValue(attrs, name);
  }

  /** And two plain label sets with one key give every name the same value, so no series stands for both. */
  lemma KeyTellsValues(a: seq<Attribute>, b: seq<Attribute>, name: string)
    requires PlainSet(a) && PlainSet(b) && CleanName(name) && EncodeLabels(a) == EncodeLabels(b)
    ensures ValueOf(a, name) == ValueOf(b, name)
  {
    PlainValuesReadBack(a, name);
    PlainValuesReadBack(b, name);
  }

  lemma {:induction false} PlainValue(attrs: seq<Attribute>, name: string)
    requires forall a :: a in attrs ==> Clean(a)
    ensures ',' !in ValueOf(attrs, name)
  {
    if attrs != [] {
      assert attrs[0] in attrs && forall a :: a in attrs[1..] ==> a in attrs;
      PlainValue(attrs[1..], name);
    }
  }

  lemma PlainStops(attrs: seq<Attribute>, name: string)
    requires CleanName(name) && forall a :: a in attrs ==> Clean(a) && '=' !in a.value
    ensures NoStopBefore(EncodeLabels(attrs), name + "=", OwnStart(attrs, name))
  {
    var pairs, prefix := Sort(Pairs(attrs), StrLe), name + "=";
    SortPermutes(Pairs(attrs), StrLe);
    SameMembers(pairs, Pairs(attrs));
    hide Sort;
    forall p | p in pairs ensures OneSign(p) && ',' !in p {
      PairsMembers(attrs, p);
    }
    hide OneSign, Pairs;
    forall p: nat | Stop(Joined(pairs), prefix, p) ensures OwnStart(attrs, name) >= 0 && p >= OwnStart(attrs, name) {
      StopIsPair(pairs, name, p);
    }
  }

  lemma StopIsPair(pairs: seq<string>, name: string, p: nat)
    requires CleanName(name) && Stop(Joined(pairs), name + "=", p)
    requires forall q :: q in pairs ==> OneSign(q) && ',' !in q
    ensures var k := FirstWith(pairs, name + "="); k < |pairs| && p >= Start(pairs, k)
  {
    hide *;
    var s, prefix := Joined(pairs), name + "=";
    NoSign(name);
    StopCases(s, prefix, p);
    if p >= |prefix| && At(s, prefix, p - |prefix|) {
      NotTwice(pairs, name, p - |prefix|);
    }
    var j := PairStartsHere(pairs, p);
    PairThere(pairs, prefix, j);
    StartsGrow(pairs, FirstWith(pairs, prefix), j);
  }

  lemma StopCases(s: string, prefix: string, p: nat)
    requires Stop(s, prefix, p)
    ensures At(s, prefix, p) && p + |prefix| <= |s|
    ensures p == 0 || s[p - 1] == ',' || (p >= |prefix| && At(s, prefix, p - |prefix|))
  {
    AtFits(s, prefix, p);
    hide At;
  }

  lemma PairThere(pairs: seq<string>, prefix: string, j: nat)
    requires j < |pairs| && ',' !in prefix && At(Joined(pairs), prefix, Start(pairs, j))
    ensures FirstWith(pairs, prefix) <= j
  {
    hide Joined, Start, FirstWith;
    var more := StartsThere(pairs, j);
    AtSuffix(Joined(pairs), prefix, Start(pairs, j), 0);
    StartsIn(pairs[j], more, prefix);
  }

  lemma {:induction false} StartsGrow(pairs: seq<string>, k: nat, j: nat)
    requires k <= j < |pairs|
    ensures Start(pairs, k) <= Start(pairs, j)
  {
    if k > 0 {
      StartsGrow(pairs[1..], k - 1, j - 1);
    }
  }

  // ----- Two ways to be misled -----

  lemma SortOne(p: string)
    ensures Sort([p], StrLe) == [p]
  {
    hide StrLe;
    assert [p][1..] == [];
  }

  lemma OneAttribute(a: Attribute)
    ensures EncodeLabels([a]) == Rendered(a)
    ensures forall name :: ValueOf([a], name) == if a.key == name then a.value else ""
  {
    hide Rendered, StrLe;
    assert [a][1..] == [] && Pairs([a]) == [Rendered(a)];
    SortOne(Rendered(a));
    hide Sort;
  }

  /** After an occurrence it skips, the scan takes what follows for a key. */
  lemma SkippedNameMisleads()
    ensures var attrs := [Attribute("ba", "a=x")];
            Scan(EncodeLabels(attrs), "a=") == "x" && ValueOf(attrs, "a") == ""
  {
    SkippedRendered();
    hide *;
    OneAttribute(Attribute("ba", "a=x"));
    SkippedText("ba=a=x", "a=");
    Reads("ba=a=x", "a=", 3, "x");
  }

  lemma SkippedRendered()
    ensures Rendered(Attribute("ba", "a=x")) == "ba=a=x"
  {
  }

  lemma SkippedText(s: string, prefix: string)
    requires s == "ba=a=x" && prefix == "a="
    ensures ReadsAt(s, prefix) == 3 && s[5..] == "x"
  {
    assert s[0..2][0] == 'b' && s[1..3] == prefix && s[3..] == "a=x";
    assert !At(s, prefix, 0) && At(s, prefix, 1) && At("a=x", prefix, 0);
    hide *;
    ReadsHere("a=x", prefix, 0);
    ReadsOn(s, prefix, 1);
    assert s[5..] == "x";
  }

  /** A comma inside a value ends the pair as far as the scan can tell. */
  lemma CommaMisleads()
    ensures var attrs := [Attribute("x", "v,a=1")];
            Scan(EncodeLabels(attrs), "a=") == "1" && ValueOf(attrs, "a") == ""
  {
    assert Rendered(Attribute("x", "v,a=1")) == "x=v,a=1";
    hide *;
    OneAttribute(Attribute("x", "v,a=1"));
    CommaText("x=v,a=1", "a=");
    ReadsHere("x=v,a=1", "a=", 4);
    Reads("x=v,a=1", "a=", 4, "1");
  }

  lemma Reads(s: string, prefix: string, r: nat, value: string)
    requires prefix != "" && ReadsAt(s, prefix) == r
    requires r + |prefix| <= |s| && s[r + |prefix|..] == value && ',' !in value
    ensures Scan(s, prefix) == value
  {
    hide *;
    ScanIs(s, prefix);
    UpToCommaIs(value);
  }

  lemma CommaText(s: string, prefix: string)
    requires s == "x=v,a=1" && prefix == "a="
    ensures Index(s, prefix) == 4 && s[3] == ',' && s[6..] == "1"
  {
    assert s[0..2][0] == 'x' && s[1..3][0] == '=' && s[2..4][0] == 'v' && s[3..5][0] == ',' && s[4..6] == prefix;
    assert !At(s, prefix, 0) && !At(s, prefix, 1) && !At(s, prefix, 2) && !At(s, prefix, 3) && At(s, prefix, 4);
    hide At, Index;
    var i := Index(s, prefix);
    assert i >= 0 && i <= 4 && i != 0 && i != 1 && i != 2 && i != 3;
  }
}
