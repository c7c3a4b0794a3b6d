/** The grammar of write targets: a scope prefix and a dotted path of bare identifiers. */
module RewriteTarget {
  import opened Wrappers
  import opened JsonTree

  datatype Scope = RequestBody | ResponseBody

  datatype Target = Target(scope: Scope, path: Path)

  datatype TargetError = NoScope | EmptyPath | BadSegment(segment: string)

  predicate IsLetter(c: char) { 'A' <= c <= 'Z' || 'a' <= c <= 'z' || c == '_' }

  predicate IsIdent(s: string) {
    s != "" && IsLetter(s[0]) && forall c :: c in s ==> IsLetter(c) || '0' <= c <= '9'
  }

  predicate IsPath(p: Path) {
    p != [] && forall seg :: seg in p ==> IsIdent(seg)
  }

  /** Unicode white space. */
  predicate IsSpace(c: char) {
    || 9 <= c as int <= 13 || c == ' ' || c as int in {0x85, 0xA0, 0x1680, 0x2028, 0x2029, 0x202F, 0x205F, 0x3000}
    || 0x2000 <= c as int <= 0x200A
  }

  function TrimSpace(s: string): string
    decreases |s|
  {
    if s == "" then s
    else if IsSpace(s[0]) then TrimSpace(s[1..])
    else if IsSpace(s[|s| - 1]) then TrimSpace(s[..|s| - 1])
    else s
  }

  function Split(s: string): (segs: seq<string>)
    ensures segs != []
  {
    if s == "" then [""]
    else
      var rest := Split(s[1..]);
      if s[0] == '.' then [""] + rest else [[s[0]] + rest[0]] + rest[1..]
  }

  function Join(segs: seq<string>): string
    requires segs != []
  {
    if |segs| == 1 then segs[0] else segs[0] + "." + Join(segs[1..])
  }

  function Prefix(scope: Scope): string {
    match scope case RequestBody => "request.body." case ResponseBody => "response.body."
  }

  function FirstBad(segs: seq<string>): Option<string> {
    if segs == [] then None else if !IsIdent(segs[0]) then Some(segs[0]) else FirstBad(segs[1..])
  }

  function ParseTarget(input: string): Result<Target, TargetError> {
    var raw := TrimSpace(input);
    if Prefix(RequestBody) <= raw then ParsePath(RequestBody, raw[|Prefix(RequestBody)|..])
    else if Prefix(ResponseBody) <= raw then ParsePath(ResponseBody, raw[|Prefix(ResponseBody)|..])
    else Err(NoScope)
  }

  function ParsePath(scope: Scope, rest: string): Result<Target, TargetError> {
    if rest == "" then Err(EmptyPath)
    else match FirstBad(Split(rest)) case Some(seg) => Err(BadSegment(seg)) case None => Ok(Target(scope, Split(rest)))
  }

  function Render(t: Target): string
    requires t.path != []
  {
    Prefix(t.scope) + Join(t.path)
  }

  lemma {:induction false} JoinSplit(s: string)
    ensures Join(Split(s)) == s
  {
    if s != "" {
      JoinSplit(s[1..]);
      var rest := Split(s[1..]);
      if s[0] == '.' {
        assert Split(s)[1..] == rest;
      } else if |rest| > 1 {
        assert Split(s)[1..] == rest[1..];
      }
    }
  }

  lemma {:induction false} SplitWord(w: string)
    requires '.' !in w
    ensures Split(w) == [w]
  {
    if w != "" {
      SplitWord(w[1..]);
      assert [w[0]] + w[1..] == w;
    }
  }

  lemma {:induction false} SplitDotted(w: string, rest: string)
    requires '.' !in w
    ensures Split(w + "." + rest) == [w] + Split(rest)
  {
    var s := w + "." + rest;
    if w == "" {
      assert s[1..] == rest;
    } else {
      SplitDotted(w[1..], rest);
      assert s[1..] == w[1..] + "." + rest;
      assert Split(s[1..])[1..] == Split(rest) && [w[0]] + w[1..] == w;
    }
  }

  lemma {:induction false} SplitJoin(p: seq<string>)
    requires p != [] && forall seg :: seg in p ==> '.' !in seg
    ensures Split(Join(p)) == p
  {
    if |p| == 1 {
      SplitWord(p[0]);
    } else {
      SplitJoin(p[1..]);
      SplitDotted(p[0], Join(p[1..]));
      assert p == [p[0]] + p[1..];
    }
  }

  lemma {:induction false} FirstBadMeaning(segs: seq<string>)
    ensures FirstBad(segs) == None <==> forall seg :: seg in segs ==> IsIdent(seg)
  {
    if segs != [] {
      FirstBadMeaning(segs[1..]);
      assert segs == [segs[0]] + segs[1..];
    }
  }

  lemma {:induction false} JoinEnds(p: Path)
    requires IsPath(p)
    ensures Join(p) != "" && !IsSpace(Join(p)[|Join(p)| - 1])
  {
    if |p| == 1 {
      var s := p[0];
      assert s in p && s[|s| - 1] in s;
    } else {
      assert forall seg :: seg in p[1..] ==> seg in p;
      JoinEnds(p[1..]);
    }
  }

  /** Every well-formed target parses back to itself, white space around it or not. */
  lemma ParseRender(t: Target, before: string, after: string)
    requires IsPath(t.path)
    requires (forall c :: c in before ==> IsSpace(c)) && (forall c :: c in after ==> IsSpace(c))
    ensures ParseTarget(before + Render(t) + after) == Ok(t)
  {
    JoinEnds(t.path);
    hide IsSpace, TrimSpace, Join, Split, FirstBad;
    var raw := Render(t);
    assert !IsSpace(raw[0]) by { PrefixNotSpace(t.scope); }
    TrimRight(raw, after);
    TrimLeft(before, raw + after);
    assert before + raw + after == before + (raw + after);
    forall seg | seg in t.path ensures '.' !in seg {
      assert IsIdent(seg);
    }
    SplitJoin(t.path);
    FirstBadMeaning(t.path);
    hide IsIdent;
    ScopesDiffer(t.scope, Join(t.path));
  }

  lemma PrefixNotSpace(scope: Scope)
    ensures !IsSpace(Prefix(scope)[0])
  {
  }

  /** The scope prefix is recognised, and what follows it is recovered. */
  lemma ScopesDiffer(scope: Scope, rest: string)
    ensures var raw := Prefix(scope) + rest;
            && Prefix(scope) <= raw && raw[|Prefix(scope)|..] == rest
            && (scope == ResponseBody ==> !(Prefix(RequestBody) <= raw))
  {
    var raw := Prefix(scope) + rest;
    assert Prefix(RequestBody)[2] == 'q' && Prefix(ResponseBody)[2] == 's';
    assert raw[2] == Prefix(scope)[2];
  }

  lemma {:induction false} TrimLeft(before: string, s: string)
    requires forall c :: c in before ==> IsSpace(c)
    ensures TrimSpace(before + s) == TrimSpace(s)
  {
    hide IsSpace;
    if before == "" {
      assert before + s == s;
    } else {
      assert (before + s)[0] == before[0] && before[0] in before;
      assert (before + s)[1..] == before[1..] + s;
      TrimLeft(before[1..], s);
    }
  }

  lemma {:induction false} TrimRight(s: string, after: string)
    requires s != "" && !IsSpace(s[0]) && !IsSpace(s[|s| - 1])
    requires forall c :: c in after ==> IsSpace(c)
    ensures TrimSpace(s + after) == s
  {
    hide IsSpace;
    var n := |after| - 1;
    if after == "" {
      assert s + after == s;
    } else {
      assert (s + after)[0] == s[0] && (s + after)[|s| + n] == after[n] && after[n] in after;
      assert (s + after)[..|s| + n] == s + after[..n];
      TrimRight(s, after[..n]);
    }
  }

  /** Whatever parses is a rendered target: nothing but identifier paths gets through. */
  lemma RenderParse(raw: string)
    requires ParseTarget(raw).Ok?
    ensures var t := ParseTarget(raw).value; IsPath(t.path) && Render(t) == TrimSpace(raw)
  {
    var t, trimmed := ParseTarget(raw).value, TrimSpace(raw);
    FirstBadMeaning(t.path);
    JoinSplit(trimmed[|Prefix(t.scope)|..]);
  }

  /** Why a target is rejected: no scope, nothing after the scope, or a segment that is no identifier, of
      which the first is named. */
  lemma TargetErrors(raw: string)
    ensures var s := TrimSpace(raw);
            && (ParseTarget(raw) == Err(NoScope) <==> !("request.body." <= s) && !("response.body." <= s))
            && (ParseTarget(raw) == Err(EmptyPath) <==> s == "request.body." || s == "response.body.")
    ensures ParseTarget(raw).Err? && ParseTarget(raw).error.BadSegment? ==>
              exists scope, segs, k :: NamesFirstBad(TrimSpace(raw), scope, segs, k, ParseTarget(raw).error.segment)
  {
    var s := TrimSpace(raw);
    hide TrimSpace, IsIdent;
    assert Prefix(RequestBody)[2] == 'q' && Prefix(ResponseBody)[2] == 's';
    var scope := if Prefix(RequestBody) <= s then RequestBody else ResponseBody;
    if Prefix(scope) <= s {
      var rest := s[|Prefix(scope)|..];
      assert s == Prefix(scope) + rest;
      JoinSplit(rest);
      hide Split, Join;
      var k := FirstBadAt(Split(rest));
      if rest != "" && k < |Split(rest)| {
        assert NamesFirstBad(s, scope, Split(rest), k, Split(rest)[k]);
      }
    }
  }

  /** The text is the scope and these segments, the k-th being the first that is no identifier. */
  predicate NamesFirstBad(s: string, scope: Scope, segs: seq<string>, k: int, bad: string) {
    && segs != [] && s == Prefix(scope) + Join(segs)
    && 0 <= k < |segs| && segs[k] == bad && !IsIdent(bad)
    && forall j :: 0 <= j < k ==> IsIdent(segs[j])
  }

  lemma {:induction false} FirstBadAt(segs: seq<string>) returns (k: nat)
    ensures k <= |segs| && forall j :: 0 <= j < k ==> IsIdent(segs[j])
    ensures FirstBad(segs) == if k < |segs| then Some(segs[k]) else None
    ensures k < |segs| ==> !IsIdent(segs[k])
  {
    hide IsIdent;
    if segs == [] || !IsIdent(segs[0]) {
      k := 0;
    } else {
      k := FirstBadAt(segs[1..]);
      k := k + 1;
    }
  }

  // ----- The alphabet -----

  lemma TrimmedStays(s: string)
    requires s != "" && !IsSpace(s[0]) && !IsSpace(s[|s| - 1])
    ensures TrimSpace(s) == s
  {
  }

  /** The two scopes by their names. */
  lemma ScopeNames()
    ensures ParseTarget("request.body.a") == Ok(Target(RequestBody, ["a"]))
    ensures ParseTarget("response.body.a") == Ok(Target(ResponseBody, ["a"]))
  {
    ParseRender(Target(RequestBody, ["a"]), "", "");
    ParseRender(Target(ResponseBody, ["a"]), "", "");
    assert Render(Target(RequestBody, ["a"])) == "request.body.a";
    assert Render(Target(ResponseBody, ["a"])) == "response.body.a";
    assert "" + "request.body.a" + "" == "request.body.a" && "" + "response.body.a" + "" == "response.body.a";
    hide ParseTarget;
  }

  /** What may stand alone as a segment. */
  lemma OneChar(c: char)
    ensures ParseTarget("request.body." + [c]).Ok? <==> 'A' <= c <= 'Z' || 'a' <= c <= 'z' || c == '_'
  {
    hide TrimSpace, Split;
    var raw := "request.body." + [c];
    if IsSpace(c) {
      TrimmedStays("request.body.");
      TrimRight("request.body.", [c]);
      assert "request.body."[13..] == "";
    } else {
      TrimmedStays(raw);
      assert raw[13..] == [c];
      SplitOne(c);
      assert c != '.' ==> FirstBad([[c]]) == if IsIdent([c]) then None else Some([c]);
    }
    hide IsSpace;
  }

  /** What may follow a letter: also a digit, or white space, which is cut off. */
  lemma NextChar(c: char)
    ensures ParseTarget("request.body.a" + [c]).Ok? <==>
            'A' <= c <= 'Z' || 'a' <= c <= 'z' || c == '_' || '0' <= c <= '9' || IsSpace(c)
  {
    hide TrimSpace, Split;
    var raw := "request.body.a" + [c];
    if IsSpace(c) {
      ParseRender(Target(RequestBody, ["a"]), "", [c]);
      assert Render(Target(RequestBody, ["a"])) == "request.body.a" && "" + "request.body.a" + [c] == raw;
      hide ParseTarget;
    } else {
      TrimmedStays(raw);
      assert raw[13..] == ['a', c];
      SplitTwo(c);
      TwoLetters(c);
    }
    hide IsSpace, FirstBad;
  }

  lemma TwoLetters(c: char)
    ensures FirstBad([['a', c]]).None? <==> 'A' <= c <= 'Z' || 'a' <= c <= 'z' || c == '_' || '0' <= c <= '9'
    ensures FirstBad(["a", ""]).Some?
  {
    assert FirstBad([['a', c]]) == if IsIdent(['a', c]) then None else Some(['a', c]);
    assert forall x :: x in ['a', c] <==> x == 'a' || x == c;
    assert c in ['a', c];
    assert ["a", ""][1..] == [""];
  }

  /** The white space that may surround a target: Unicode's, as of Go's strings package. */
  lemma LeadingChar(c: char)
    ensures ParseTarget([c] + "request.body.a").Ok? <==>
            c as int in {9, 10, 11, 12, 13, 32, 0x85, 0xA0, 0x1680, 0x2000, 0x2001, 0x2002, 0x2003, 0x2004, 0x2005,
                         0x2006, 0x2007, 0x2008, 0x2009, 0x200A, 0x2028, 0x2029, 0x202F, 0x205F, 0x3000}
  {
    var raw := [c] + "request.body.a";
    if IsSpace(c) {
      hide TrimSpace;
      ParseRender(Target(RequestBody, ["a"]), [c], "");
      assert Render(Target(RequestBody, ["a"])) == "request.body.a" && [c] + "request.body.a" + "" == raw;
    } else {
      TrimmedStays(raw);
      assert raw[0] == c && raw[1] == 'r' && raw[2] == 'e';
      assert Prefix(RequestBody)[0] == 'r' && Prefix(RequestBody)[1] == 'e' && Prefix(ResponseBody)[0] == 'r';
      assert Prefix(ResponseBody)[1] == 'e';
    }
  }

  lemma SplitOne(c: char)
    ensures Split([c]) == if c == '.' then ["", ""] else [[c]]
  {
    if c == '.' {
      SplitDotted("", "");
      assert "" + "." + "" == [c];
    } else {
      SplitWord([c]);
    }
    hide Split;
  }

  lemma SplitTwo(c: char)
    ensures Split(['a', c]) == if c == '.' then ["a", ""] else [['a', c]]
  {
    if c == '.' {
      SplitDotted("a", "");
      assert "a" + "." + "" == ['a', c];
    } else {
      SplitWord(['a', c]);
    }
    hide Split;
  }
}
