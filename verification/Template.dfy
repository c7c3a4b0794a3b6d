/** Value templates: literal text with `{ref}` substitutions. */
module Template {
  import opened Wrappers
  import opened JsonTree

  datatype Token = Token(isRef: bool, text: string)

  /** Position of the first `c` at or after i, or -1. */
  function IndexFrom(s: string, c: char, i: nat): (r: int)
    requires i <= |s|
    ensures r == -1 || (i <= r < |s| && s[r] == c)
    ensures forall k :: i <= k < (if r < 0 then |s| else r) ==> s[k] != c
    decreases |s| - i
  {
    if i == |s| then -1 else if s[i] == c then i else IndexFrom(s, c, i + 1)
  }

  function Literal(s: string): seq<Token> {
    if s == [] then [] else [Token(false, s)]
  }

  /** The tokens of the template from position i on. */
  function TokensFrom(s: string, i: nat): seq<Token>
    requires i <= |s|
    decreases |s| - i
  {
    var open := IndexFrom(s, '{', i);
    if open < 0 then Literal(s[i..])
    else
      var close := IndexFrom(s, '}', open);
      if close < 0 then Literal(s[i..open]) + Literal(s[open..])
      else Literal(s[i..open]) + [Token(true, s[open + 1..close])] + TokensFrom(s, close + 1)
  }

  function Tokens(s: string): seq<Token> {
    TokensFrom(s, 0)
  }

  /** One unfolding of `TokensFrom`, for proofs that hide its recursion. */
  lemma Unfold(s: string, i: nat)
    requires i <= |s|
    ensures var open := IndexFrom(s, '{', i);
            if open < 0 then TokensFrom(s, i) == Literal(s[i..])
            else
              var close := IndexFrom(s, '}', open);
              if close < 0 then TokensFrom(s, i) == Literal(s[i..open]) + Literal(s[open..])
              else
                var ref := Token(true, s[open + 1..close]);
                TokensFrom(s, i) == Literal(s[i..open]) + [ref] + TokensFrom(s, close + 1)
  {
  }

  method Tokenize(s: string) returns (toks: seq<Token>)
    ensures toks == Tokens(s)
  {
    hide TokensFrom, IndexFrom;
    toks := [];
    var i := 0;
    while i < |s|
      invariant 0 <= i <= |s|
      invariant toks + TokensFrom(s, i) == Tokens(s)
      decreases |s| - i
    {
      Unfold(s, i);
      var open := IndexFrom(s, '{', i);
      if open < 0 {
        toks := toks + [Token(false, s[i..])];
        return;
      }
      if open > i {
        toks := toks + [Token(false, s[i..open])];
      }
      var close := IndexFrom(s, '}', open);
      if close < 0 {
        toks := toks + [Token(false, s[open..])];
        return;
      }
      toks := toks + [Token(true, s[open + 1..close])];
      i := close + 1;
    }
    NothingLeft(s);
  }

  lemma NothingLeft(s: string)
    ensures TokensFrom(s, |s|) == []
  {
  }

  // ----- Tokenizing loses nothing -----

  function Rendered(t: Token): string {
    if t.isRef then "{" + t.text + "}" else t.text
  }

  function Render(toks: seq<Token>): string {
    if toks == [] then "" else Rendered(toks[0]) + Render(toks[1..])
  }

  lemma {:induction false} RenderConcat(a: seq<Token>, b: seq<Token>)
    ensures Render(a + b) == Render(a) + Render(b)
  {
    hide *;
    if a == [] {
      assert a + b == b;
      RenderNothing();
    } else {
      RenderConcat(a[1..], b);
      RenderCons(a[0], a[1..]);
      RenderCons(a[0], a[1..] + b);
      assert a == [a[0]] + a[1..] && a + b == [a[0]] + (a[1..] + b);
    }
  }

  lemma RenderNothing()
    ensures Render([]) == ""
  {
  }

  lemma RenderCons(t: Token, rest: seq<Token>)
    ensures Render([t] + rest) == Rendered(t) + Render(rest)
  {
    assert ([t] + rest)[1..] == rest;
  }

  lemma RenderOne(t: Token)
    ensures Render([t]) == Rendered(t)
  {
    assert [t][1..] == [];
  }

  lemma RenderLiteral(s: string)
    ensures Render(Literal(s)) == s
  {
    if s != [] {
      RenderOne(Token(false, s));
    }
  }

  lemma RenderRef(name: string)
    ensures Render([Token(true, name)]) == "{" + name + "}"
  {
    RenderOne(Token(true, name));
  }

  lemma RenderAround(text: string, name: string, rest: seq<Token>)
    ensures Render(Literal(text) + [Token(true, name)] + rest) == text + ("{" + name + "}") + Render(rest)
  {
    hide *;
    RenderLiteral(text);
    RenderRef(name);
    RenderConcat(Literal(text), [Token(true, name)]);
    RenderConcat(Literal(text) + [Token(true, name)], rest);
  }

  lemma Pieces(s: string, i: nat, open: nat, close: nat)
    requires i <= open < close < |s| && s[open] == '{' && s[close] == '}'
    ensures s[i..] == s[i..open] + ("{" + s[open + 1..close] + "}") + s[close + 1..]
  {
  }

  lemma {:induction false} RenderFrom(s: string, i: nat)
    requires i <= |s|
    ensures Render(TokensFrom(s, i)) == s[i..]
    decreases |s| - i
  {
    hide *;
    Unfold(s, i);
    var open := IndexFrom(s, '{', i);
    if open < 0 {
      RenderLiteral(s[i..]);
    } else {
      RenderLiteral(s[i..open]);
      var close := IndexFrom(s, '}', open);
      if close < 0 {
        RenderLiteral(s[open..]);
        RenderConcat(Literal(s[i..open]), Literal(s[open..]));
        assert s[i..] == s[i..open] + s[open..];
      } else {
        RenderFrom(s, close + 1);
        RenderAround(s[i..open], s[open + 1..close], TokensFrom(s, close + 1));
        Pieces(s, i, open, close);
      }
    }
  }

  /** Rendering the tokens gives the template back, balanced braces or not. */
  lemma RenderTokens(s: string)
    ensures Render(Tokens(s)) == s
  {
    RenderFrom(s, 0);
  }

  /** References never contain a closing brace and literals are never empty. */
  lemma {:induction false} TokenShapes(s: string, i: nat)
    requires i <= |s|
    ensures forall t :: t in TokensFrom(s, i) ==> if t.isRef then '}' !in t.text else t.text != ""
    decreases |s| - i
  {
    hide *;
    Unfold(s, i);
    var open := IndexFrom(s, '{', i);
    if open < 0 {
      LiteralShape(s[i..]);
    } else {
      var close := IndexFrom(s, '}', open);
      LiteralShape(s[i..open]);
      if close < 0 {
        LiteralShape(s[open..]);
      } else {
        TokenShapes(s, close + 1);
        NoneInside(s, open, close);
      }
    }
  }

  lemma LiteralShape(text: string)
    ensures forall t :: t in Literal(text) ==> !t.isRef && t.text != ""
  {
  }

  lemma NoneInside(s: string, open: nat, close: nat)
    requires open < close < |s| && forall k :: open <= k < close ==> s[k] != '}'
    ensures '}' !in s[open + 1..close]
  {
  }

  predicate IsSingleRef(s: string) {
    |s| >= 2 && s[0] == '{' && s[|s| - 1] == '}' && '}' !in s[1..|s| - 1]
  }

  /** A template is one reference exactly when braces enclose it and no brace closes earlier. */
  lemma SingleRef(s: string)
    ensures (|Tokens(s)| == 1 && Tokens(s)[0].isRef) <==> IsSingleRef(s)
    ensures IsSingleRef(s) ==> Tokens(s) == [Token(true, s[1..|s| - 1])]
  {
    if IsSingleRef(s) {
      LoneRefTokens(s);
    }
    if |Tokens(s)| == 1 && Tokens(s)[0].isRef {
      var t := Tokens(s)[0];
      assert Tokens(s) == [t];
      RenderTokens(s);
      TokenShapes(s, 0);
      RenderOne(t);
      assert s == "{" + t.text + "}";
      assert s[1..|s| - 1] == t.text;
    }
  }

  lemma LoneRefTokens(s: string)
    requires IsSingleRef(s)
    ensures Tokens(s) == [Token(true, s[1..|s| - 1])]
  {
    hide TokensFrom;
    Unfold(s, 0);
    NothingLeft(s);
    var n := |s| - 1;
    assert IndexFrom(s, '{', 0) == 0;
    var close := IndexFrom(s, '}', 0);
    assert forall k :: 0 < k < n ==> s[1..n][k - 1] == s[k];
    assert s[n] == '}';
    assert close == n;
  }

  // ----- References -----

  datatype Phase = PhaseRequest | PhaseResponse

  /** What a template may refer to. `read` and `text` stand for the JSON library: looking up
      a query in a document, and the string form of a value. */
  datatype Refs = Refs(phase: Phase, pathParams: map<string, string>, provider: string, protocol: string,
                       externalURL: string, requestBody: Option<Json>,
                       read: (Json, string) -> Option<Json>, text: Json -> string)

  const REQUEST_BODY := "request.body."
  const RESPONSE_BODY := "response.body."
  const PATH_PARAMS := "path_params."

  predicate IsBodyRef(name: string) {
    REQUEST_BODY <= name || RESPONSE_BODY <= name
  }

  /** A body reference, resolved against the document its phase makes available. */
  function BodyField(working: Json, name: string, refs: Refs): Option<Json>
    requires IsBodyRef(name)
  {
    if REQUEST_BODY <= name then
      var path := name[|REQUEST_BODY|..];
      if refs.phase == PhaseResponse then
        (match refs.requestBody case None => None case Some(b) => refs.read(b, path))
      else refs.read(working, path)
    else if refs.phase != PhaseResponse then None
    else refs.read(working, name[|RESPONSE_BODY|..])
  }

  /** Looking up a missing parameter gives the empty string. */
  function PathParam(refs: Refs, key: string): string {
    if key in refs.pathParams then refs.pathParams[key] else ""
  }

  /** A reference with its JSON type, for a template that is nothing else. */
  function ResolveRaw(working: Json, name: string, refs: Refs): Option<Json> {
    if IsBodyRef(name) then
      var r := BodyField(working, name, refs);
      if r.Some? then Some(r.value) else None
    else if PATH_PARAMS <= name then
      var v := PathParam(refs, name[|PATH_PARAMS|..]);
      if v != "" then Some(Str(v)) else None
    else if name == "state.provider" then
      if refs.provider != "" then Some(Str(refs.provider)) else None
    else if name == "state.protocol" then
      if refs.protocol != "" then Some(Str(refs.protocol)) else None
    else if name == "external_url" then
      if refs.externalURL != "" then Some(Str(refs.externalURL)) else None
    else None
  }

  /** A reference as text, for a template that mixes. */
  function ResolveString(working: Json, name: string, refs: Refs): Option<string> {
    if IsBodyRef(name) then
      var r := BodyField(working, name, refs);
      if r.Some? then Some(refs.text(r.value)) else None
    else if PATH_PARAMS <= name then
      var v := PathParam(refs, name[|PATH_PARAMS|..]);
      if v != "" then Some(v) else None
    else if name == "state.provider" then Known(refs.provider)
    else if name == "state.protocol" then Known(refs.protocol)
    else if name == "external_url" then Known(refs.externalURL)
    else None
  }

  function Known(s: string): Option<string> {
    if s != "" then Some(s) else None
  }

  /** Both resolvers know the same references, and where both answer they answer alike. */
  lemma ResolversAgree(working: Json, name: string, refs: Refs)
    ensures ResolveRaw(working, name, refs).Some? <==> ResolveString(working, name, refs).Some?
    ensures ResolveRaw(working, name, refs).Some? ==>
      var raw := ResolveRaw(working, name, refs).value;
      ResolveString(working, name, refs).value ==
        if IsBodyRef(name) then refs.text(raw) else if raw.Str? then raw.s else ""
    ensures !IsBodyRef(name) && ResolveRaw(working, name, refs).Some? ==> ResolveRaw(working, name, refs).value.Str?
    ensures RESPONSE_BODY <= name && refs.phase == PhaseRequest ==> ResolveRaw(working, name, refs) == None
  {
    assert RESPONSE_BODY[2] == 's' && REQUEST_BODY[2] == 'q';
  }

  /** A body reference reads its path in the body its name and the phase single out: while the request is
      patched the request is the document itself; afterwards it is the request as it was sent, if any,
      and the document is the response. */
  lemma BodyReferences(working: Json, path: string, refs: Refs)
    ensures refs.phase == PhaseRequest ==>
              && ResolveRaw(working, "request.body." + path, refs) == refs.read(working, path)
              && ResolveRaw(working, "response.body." + path, refs) == None
    ensures refs.phase == PhaseResponse ==>
              && ResolveRaw(working, "response.body." + path, refs) == refs.read(working, path)
              && (refs.requestBody.None? ==> ResolveRaw(working, "request.body." + path, refs) == None)
              && (refs.requestBody.Some? ==>
                    ResolveRaw(working, "request.body." + path, refs) == refs.read(refs.requestBody.value, path))
  {
    var a, b := "request.body." + path, "response.body." + path;
    assert a[|REQUEST_BODY|..] == path && b[|RESPONSE_BODY|..] == path;
    assert b[2] == 's' && REQUEST_BODY[2] == 'q';
  }

  /** The other references, each missing when what it stands for is empty. */
  lemma OtherReferences(working: Json, key: string, refs: Refs)
    ensures ResolveRaw(working, "state.provider", refs) ==
            if refs.provider == "" then None else Some(Str(refs.provider))
    ensures ResolveRaw(working, "state.protocol", refs) ==
            if refs.protocol == "" then None else Some(Str(refs.protocol))
    ensures ResolveRaw(working, "external_url", refs) ==
            if refs.externalURL == "" then None else Some(Str(refs.externalURL))
    ensures ResolveRaw(working, "path_params." + key, refs) ==
            if key in refs.pathParams && refs.pathParams[key] != "" then Some(Str(refs.pathParams[key])) else None
  {
    var p := "path_params." + key;
    assert p[|PATH_PARAMS|..] == key;
    assert p[0] == 'p' && "state.provider"[0] == 's' && "external_url"[0] == 'e';
    assert REQUEST_BODY[0] == 'r' && RESPONSE_BODY[0] == 'r' && PATH_PARAMS[0] == 'p' && "state.protocol"[0] == 's';
    assert "state.provider"[9] == 'v' && "state.protocol"[9] == 't';
  }

  /** There are no other references. */
  lemma NoOtherReferences(working: Json, name: string, refs: Refs)
    requires !("request.body." <= name) && !("response.body." <= name) && !("path_params." <= name)
    requires name !in {"state.provider", "state.protocol", "external_url"}
    ensures ResolveRaw(working, name, refs) == None
  {
  }

  // ----- Templates -----

  function TokenText(working: Json, t: Token, refs: Refs): string {
    if t.isRef then OrEmpty(ResolveString(working, t.text, refs)) else t.text
  }

  function Substitute(working: Json, toks: seq<Token>, refs: Refs): string {
    if toks == [] then ""
    else
      Substitute(working, toks[..|toks| - 1], refs) + TokenText(working, toks[|toks| - 1], refs)
  }

  /** A lone reference keeps its type; anything else becomes a string. None drops the op. */
  function Resolve(working: Json, tmpl: string, refs: Refs): Option<Json> {
    var toks := Tokens(tmpl);
    if |toks| == 1 && toks[0].isRef then ResolveRaw(working, toks[0].text, refs)
    else Some(Str(Substitute(working, toks, refs)))
  }

  method ResolveTemplate(working: Json, tmpl: string, refs: Refs) returns (r: Option<Json>)
    ensures r == Resolve(working, tmpl, refs)
  {
    hide Tokens, ResolveRaw, ResolveString;
    var toks := Tokenize(tmpl);
    if |toks| == 1 && toks[0].isRef {
      return ResolveRaw(working, toks[0].text, refs);
    }
    var sb := "";
    for i := 0 to |toks|
      invariant sb == Substitute(working, toks[..i], refs)
    {
      assert toks[..i + 1][..i] == toks[..i];
      var t := toks[i];
      if !t.isRef {
        sb := sb + t.text;
        continue;
      }
      var s := ResolveString(working, t.text, refs);
      if s.Some? {
        sb := sb + s.value;
      }
    }
    assert toks[..|toks|] == toks;
    return Some(Str(sb));
  }

  /** A template is dropped only when it is a single reference, and that reference misses. */
  lemma DroppedMeansLoneMiss(working: Json, tmpl: string, refs: Refs)
    ensures Resolve(working, tmpl, refs) == None <==>
            IsSingleRef(tmpl) && ResolveString(working, tmpl[1..|tmpl| - 1], refs) == None
  {
    SingleRef(tmpl);
    if IsSingleRef(tmpl) {
      ResolversAgree(working, tmpl[1..|tmpl| - 1], refs);
    }
  }

  // ----- What a mixed template stands for -----

  /** The text a template resolves to when it is not a lone reference. */
  function TextOf(working: Json, tmpl: string, refs: Refs): string {
    Substitute(working, Tokens(tmpl), refs)
  }

  function OrEmpty(s: Option<string>): string {
    if s.Some? then s.value else ""
  }

  /** A template that is one reference resolves to what the reference stands for, of whatever type; every
      other one to its text. */
  lemma TemplateStandsFor(working: Json, tmpl: string, refs: Refs)
    ensures IsSingleRef(tmpl) ==> Resolve(working, tmpl, refs) == ResolveRaw(working, tmpl[1..|tmpl| - 1], refs)
    ensures !IsSingleRef(tmpl) ==> Resolve(working, tmpl, refs) == Some(Str(TextOf(working, tmpl, refs)))
  {
    SingleRef(tmpl);
    hide Tokens, ResolveRaw, Substitute;
  }

  lemma IndexShift(s: string, c: char, n: nat, i: nat)
    requires n + i <= |s|
    ensures IndexFrom(s, c, n + i) == if IndexFrom(s[n..], c, i) < 0 then -1 else n + IndexFrom(s[n..], c, i)
  {
    var t := s[n..];
    var a, b := IndexFrom(s, c, n + i), IndexFrom(t, c, i);
    assert a >= 0 ==> t[a - n] == c;
    assert b >= 0 ==> s[n + b] == c;
  }

  /** The text t is what s holds from n on. */
  predicate Rest(s: string, n: nat, t: string) {
    n <= |s| && t == s[n..]
  }

  /** The tokens from a position on are those of the text from there. */
  lemma {:induction false} TokensShift(s: string, n: nat, t: string, i: nat)
    requires Rest(s, n, t) && n + i <= |s| && i <= |t|
    ensures TokensFrom(s, n + i) == TokensFrom(t, i)
    decreases |s| - i
  {
    hide *;
    RestLength(s, n, t);
    Unfold(s, n + i);
    Unfold(t, i);
    IndexRest(s, '{', n, t, i);
    var open := IndexFrom(t, '{', i);
    if open < 0 {
      SliceRest(s, n, t, i, i);
    } else {
      SliceRest(s, n, t, i, open);
      SliceRest(s, n, t, open, open);
      IndexRest(s, '}', n, t, open);
      var close := IndexFrom(t, '}', open);
      if close >= 0 {
        SliceRest(s, n, t, open + 1, close);
        TokensShift(s, n, t, close + 1);
      }
    }
  }

  lemma RestLength(s: string, n: nat, t: string)
    requires Rest(s, n, t)
    ensures |s| == n + |t|
  {
  }

  lemma IndexRest(s: string, c: char, n: nat, t: string, i: nat)
    requires Rest(s, n, t) && n + i <= |s| && i <= |t|
    ensures IndexFrom(s, c, n + i) == if IndexFrom(t, c, i) < 0 then -1 else n + IndexFrom(t, c, i)
  {
    IndexShift(s, c, n, i);
  }

  lemma SliceRest(s: string, n: nat, t: string, i: nat, j: nat)
    requires Rest(s, n, t) && n + i <= |s| && i <= j <= |t| && n + j <= |s|
    ensures t[i..] == s[n + i..] && t[i..j] == s[n + i..n + j]
  {
  }

  lemma {:induction false} SubstituteConcat(working: Json, a: seq<Token>, b: seq<Token>, refs: Refs)
    ensures Substitute(working, a + b, refs) == Substitute(working, a, refs) + Substitute(working, b, refs)
  {
    hide *;
    if b == [] {
      assert a + b == a;
      SubstituteNone(working, refs);
    } else {
      var front, t := b[..|b| - 1], b[|b| - 1];
      SubstituteConcat(working, a, front, refs);
      SubstituteSnoc(working, a + front, t, refs);
      SubstituteSnoc(working, front, t, refs);
      SnocJoins(a, b);
    }
  }

  lemma SnocJoins<T>(a: seq<T>, b: seq<T>)
    requires b != []
    ensures b == b[..|b| - 1] + [b[|b| - 1]] && a + b == a + b[..|b| - 1] + [b[|b| - 1]]
  {
  }

  lemma SubstituteNone(working: Json, refs: Refs)
    ensures Substitute(working, [], refs) == ""
  {
  }

  lemma SubstituteSnoc(working: Json, toks: seq<Token>, t: Token, refs: Refs)
    ensures Substitute(working, toks + [t], refs) == Substitute(working, toks, refs) + TokenText(working, t, refs)
  {
    hide ResolveString;
    assert (toks + [t])[..|toks|] == toks;
  }

  lemma SubstituteOne(working: Json, t: Token, refs: Refs)
    ensures Substitute(working, [t], refs) == TokenText(working, t, refs)
  {
    hide ResolveString;
    assert [t][..0] == [];
  }

  lemma SubstituteLiteral(working: Json, s: string, refs: Refs)
    ensures Substitute(working, Literal(s), refs) == s
  {
    if s != "" {
      SubstituteOne(working, Token(false, s), refs);
    }
  }

  /** Literal text stands for itself and each reference for what it resolves to, or nothing, in
      place and in order. */
  lemma SubstitutesInPlace(working: Json, before: string, name: string, rest: string, refs: Refs)
    requires '{' !in before && '}' !in name
    ensures TextOf(working, before + "{" + name + "}" + rest, refs) ==
            before + OrEmpty(ResolveString(working, name, refs)) + TextOf(working, rest, refs)
  {
    TokensSplit(before, name, rest);
    hide Tokens, Substitute, ResolveString, Literal;
    SubstituteConcat(working, Literal(before) + [Token(true, name)], Tokens(rest), refs);
    SubstituteConcat(working, Literal(before), [Token(true, name)], refs);
    SubstituteOne(working, Token(true, name), refs);
    SubstituteLiteral(working, before, refs);
  }

  lemma TokensSplit(before: string, name: string, rest: string)
    requires '{' !in before && '}' !in name
    ensures Tokens(before + "{" + name + "}" + rest) == Literal(before) + [Token(true, name)] + Tokens(rest)
  {
    var s, b := before + "{" + name + "}" + rest, |before|;
    var e := b + 1 + |name|;
    hide IndexFrom, TokensFrom, Literal;
    Slices(before, name, rest);
    FirstBraces(before, name, rest);
    SplitAt(s, b, e);
  }

  lemma SplitAt(s: string, b: nat, e: nat)
    requires b < e < |s| && IndexFrom(s, '{', 0) == b && IndexFrom(s, '}', b) == e
    ensures Tokens(s) == Literal(s[0..b]) + [Token(true, s[b + 1..e])] + Tokens(s[e + 1..])
  {
    hide IndexFrom, TokensFrom, Literal;
    Unfold(s, 0);
    TokensShift(s, e + 1, s[e + 1..], 0);
  }

  lemma Slices(before: string, name: string, rest: string)
    ensures var s, b := before + "{" + name + "}" + rest, |before|;
            var e := b + 1 + |name|;
            e < |s| && s[0..b] == before && s[b + 1..e] == name && s[e + 1..] == rest
  {
  }

  lemma FirstBraces(before: string, name: string, rest: string)
    requires '{' !in before && '}' !in name
    ensures var s, b := before + "{" + name + "}" + rest, |before|;
            IndexFrom(s, '{', 0) == b && IndexFrom(s, '}', b) == b + 1 + |name|
  {
    var s, b := before + "{" + name + "}" + rest, |before|;
    var e := b + 1 + |name|;
    hide IndexFrom;
    assert s[b] == '{' && forall k :: 0 <= k < b ==> s[k] == before[k];
    assert s[e] == '}' && forall k :: b < k < e ==> s[k] == name[k - b - 1];
  }

  /** Text that never opens a reference, or opens one and never closes it, stands for itself. */
  lemma SubstitutesNothing(working: Json, before: string, tail: string, refs: Refs)
    requires '{' !in before && (tail == "" || tail[0] == '{') && '}' !in tail
    ensures TextOf(working, before + tail, refs) == before + tail
  {
    var s, n := before + tail, |before|;
    assert forall k :: 0 <= k < n ==> s[k] == before[k];
    assert forall k :: n <= k < |s| ==> s[k] == tail[k - n];
    Unfold(s, 0);
    hide TokensFrom;
    if tail == "" {
      assert IndexFrom(s, '{', 0) == -1 && s[0..] == before == s;
    } else {
      assert s[n] == '{' && IndexFrom(s, '{', 0) == n && IndexFrom(s, '}', n) == -1;
      assert s[0..n] == before && s[n..] == tail;
    }
    hide IndexFrom, Literal, Substitute;
    SubstituteConcat(working, Literal(before), Literal(tail), refs);
    SubstituteLiteral(working, before, refs);
    SubstituteLiteral(working, tail, refs);
  }
}
