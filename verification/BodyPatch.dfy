/** The body-patch engine: an ordered batch of writes on one JSON document. */
module BodyPatch {
  import opened Wrappers
  import opened JsonTree
  import opened RewriteTarget
  import opened Template

  datatype OpKind = OpSet | OpRemove | OpAppend | OtherKind

  datatype ValueKind = LiteralValue | TemplateValue | StructuredValue | OtherValue

  datatype RewriteValue = RewriteValue(kind: ValueKind, literal: Option<Json>, template: string)

  /** Write paths have been through `ParseTarget`. */
  type WritePath = p: Path | IsPath(p) witness ["a"]

  datatype Op = Op(kind: OpKind, path: WritePath, value: RewriteValue, actionType: string)

  datatype Reason = NoReason | PathTraversesPrimitive | AppendNonArray | TemplateRefMiss | ApplyError

  datatype OpResult = OpResult(actionType: string, path: Path, applied: bool, reason: Reason)

  // ----- Specification -----

  predicate ScalarAt(doc: Json, path: Path) {
    Get(doc, path).Some? && Get(doc, path).value.IsScalar()
  }

  /** Some strict, non-empty prefix of the path holds a scalar. */
  predicate Traverses(doc: Json, path: Path) {
    exists i :: 0 < i < |path| && ScalarAt(doc, path[..i])
  }

  function ResolveValue(working: Json, v: RewriteValue, refs: Refs): Option<Json> {
    match v.kind
    case LiteralValue | StructuredValue => Some(if v.literal.Some? then v.literal.value else Null)
    case TemplateValue => Resolve(working, v.template, refs)
    case OtherValue => None
  }

  function Write(doc: Json, path: Path, w: JsonTree.Write): (Json, bool, Reason) {
    match Put(doc, path, w) case Ok(next) => (next, true, NoReason) case Err(_) => (doc, false, ApplyError)
  }

  function Outcome(doc: Json, op: Op, refs: Refs): (Json, bool, Reason) {
    match op.kind
    case OpRemove => (Delete(doc, op.path), true, NoReason)
    case OpSet =>
      if Traverses(doc, op.path) then (doc, false, PathTraversesPrimitive)
      else
        (match ResolveValue(doc, op.value, refs)
         case None => (doc, false, TemplateRefMiss)
         case Some(v) => Write(doc, op.path, Replace(v)))
    case OpAppend =>
      if Get(doc, op.path).Some? && !Get(doc, op.path).value.Arr? then (doc, false, AppendNonArray)
      else
        (match ResolveValue(doc, op.value, refs)
         case None => (doc, false, TemplateRefMiss)
         case Some(v) => Write(doc, op.path, Push(v)))
    case OtherKind => (doc, false, NoReason)
  }

  function ApplyAll(doc: Json, ops: seq<Op>, refs: Refs): (Json, seq<OpResult>) {
    if ops == [] then (doc, [])
    else
      var (before, results) := ApplyAll(doc, ops[..|ops| - 1], refs);
      var op := ops[|ops| - 1];
      var (after, applied, reason) := Outcome(before, op, refs);
      (after, results + [OpResult(op.actionType, op.path, applied, reason)])
  }

  // ----- The engine as written -----

  method TraversesPrimitive(body: Json, path: Path) returns (b: bool)
    requires path != []
    ensures b <==> Traverses(body, path)
  {
    if |path| < 2 {
      return false;
    }
    var prefix: Path := [];
    for i := 0 to |path| - 1
      invariant prefix == path[..i]
      invariant forall j :: 0 < j <= i ==> !ScalarAt(body, path[..j])
    {
      prefix := prefix + [path[i]];
      assert prefix == path[..i + 1];
      var r := Get(body, prefix);
      if r.Some? && !r.value.Arr? && !r.value.Obj? {
        assert ScalarAt(body, path[..i + 1]);
        return true;
      }
    }
    return false;
  }

  method ResolveOperand(working: Json, v: RewriteValue, refs: Refs) returns (r: Option<Json>)
    ensures r == ResolveValue(working, v, refs)
  {
    match v.kind {
      case LiteralValue | StructuredValue =>
        if v.literal.None? {
          return Some(Null);
        }
        return v.literal;
      case TemplateValue => r := ResolveTemplate(working, v.template, refs);
      case OtherValue => return None;
    }
  }

  method Apply(body: Json, ops: seq<Op>, refs: Refs) returns (doc: Json, results: seq<OpResult>)
    ensures (doc, results) == ApplyAll(body, ops, refs)
  {
    if |ops| == 0 {
      return body, [];
    }
    var working := body;
    results := [];
    for i := 0 to |ops|
      invariant (working, results) == ApplyAll(body, ops[..i], refs)
    {
      assert ops[..i + 1][..i] == ops[..i];
      var op := ops[i];
      var res := OpResult(op.actionType, op.path, false, NoReason);
      match op.kind {
        case OpRemove =>
          working := Delete(working, op.path);
          res := res.(applied := true);
        case OpSet =>
          var blocked := TraversesPrimitive(working, op.path);
          if blocked {
            results := results + [res.(reason := PathTraversesPrimitive)];
            continue;
          }
          var v := ResolveOperand(working, op.value, refs);
          if v.None? {
            results := results + [res.(reason := TemplateRefMiss)];
            continue;
          }
          var next := Put(working, op.path, Replace(v.value));
          if next.Err? {
            results := results + [res.(reason := ApplyError)];
            continue;
          }
          working := next.value;
          res := res.(applied := true);
        case OpAppend =>
          var existing := Get(working, op.path);
          if existing.Some? && !existing.value.Arr? {
            results := results + [res.(reason := AppendNonArray)];
            continue;
          }
          var v := ResolveOperand(working, op.value, refs);
          if v.None? {
            results := results + [res.(reason := TemplateRefMiss)];
            continue;
          }
          var next := Put(working, op.path, Push(v.value));
          if next.Err? {
            results := results + [res.(reason := ApplyError)];
            continue;
          }
          working := next.value;
          res := res.(applied := true);
        case OtherKind =>
      }
      results := results + [res];
    }
    assert ops[..|ops|] == ops;
    doc := working;
  }

  // ----- What one op does -----

  /** A dropped op leaves the document as it was, and only drops carry a reason. */
  lemma DroppedChangesNothing(doc: Json, op: Op, refs: Refs)
    ensures var (doc', applied, reason) := Outcome(doc, op, refs);
            && (!applied ==> doc' == doc)
            && (applied ==> reason == NoReason)
            && (op.kind != OtherKind && !applied ==> reason != NoReason)
  {
  }

  /** The value stands for nothing: its kind is unknown, or its template is dropped. */
  predicate StandsForNothing(working: Json, v: RewriteValue, refs: Refs) {
    v.kind == OtherValue || (v.kind == TemplateValue && Resolve(working, v.template, refs) == None)
  }

  /** j is what the value stands for: a literal or structured value is itself, null if there is none,
      and a template is what it resolves to. */
  predicate StandsFor(working: Json, v: RewriteValue, refs: Refs, j: Json) {
    && (v.kind in {LiteralValue, StructuredValue} && v.literal.Some? ==> v.literal == Some(j))
    && (v.kind in {LiteralValue, StructuredValue} && v.literal.None? ==> j == Null)
    && (v.kind == TemplateValue ==> Resolve(working, v.template, refs) == Some(j))
    && v.kind != OtherValue
  }

  lemma ValueStandsFor(working: Json, v: RewriteValue, refs: Refs)
    ensures ResolveValue(working, v, refs) == None <==> StandsForNothing(working, v, refs)
    ensures forall j :: ResolveValue(working, v, refs) == Some(j) <==> StandsFor(working, v, refs, j)
  {
    hide Resolve;
  }

  /** Exactly when a set is dropped, and why; otherwise the path holds what its value stands for. */
  lemma SetOutcome(doc: Json, op: Op, refs: Refs)
    requires op.kind == OpSet
    ensures var (doc', applied, reason) := Outcome(doc, op, refs);
            var nothing := StandsForNothing(doc, op.value, refs);
            && (reason == PathTraversesPrimitive <==> Traverses(doc, op.path))
            && (reason == TemplateRefMiss <==> !Traverses(doc, op.path) && nothing)
            && (reason == ApplyError <==> !Traverses(doc, op.path) && !nothing && ThroughArray(doc, op.path))
            && reason != AppendNonArray
            && (applied <==> reason == NoReason)
            && (applied ==> Get(doc', op.path).Some? && StandsFor(doc, op.value, refs, Get(doc', op.path).value))
  {
    ValueStandsFor(doc, op.value, refs);
    hide StandsFor, StandsForNothing, ResolveValue;
    if !Traverses(doc, op.path) && ResolveValue(doc, op.value, refs).Some? {
      var w := Replace(ResolveValue(doc, op.value, refs).value);
      PutFails(doc, op.path, w);
      if Put(doc, op.path, w).Ok? {
        PutGet(doc, op.path, w);
      }
    }
  }

  /** The array grew by exactly one element, which the value stands for; an absent one was empty. */
  predicate GrewBy(was: Option<Json>, now: Option<Json>, working: Json, v: RewriteValue, refs: Refs) {
    && now.Some? && now.value.Arr? && now.value.items != []
    && (was.Some? ==> was.value.Arr?)
    && now.value.items[..|now.value.items| - 1] == (if was.Some? then was.value.items else [])
    && StandsFor(working, v, refs, now.value.items[|now.value.items| - 1])
  }

  /** Exactly when an append is dropped, and why; otherwise the array grew by what its value stands for. */
  lemma AppendOutcome(doc: Json, op: Op, refs: Refs)
    requires op.kind == OpAppend
    ensures var (doc', applied, reason) := Outcome(doc, op, refs);
            var nothing, was := StandsForNothing(doc, op.value, refs), Get(doc, op.path);
            && (reason == AppendNonArray <==> was.Some? && !was.value.Arr?)
            && (reason == TemplateRefMiss <==> (was.Some? ==> was.value.Arr?) && nothing)
            && (reason == ApplyError <==> (was.Some? ==> was.value.Arr?) && !nothing && ThroughArray(doc, op.path))
            && reason != PathTraversesPrimitive
            && (applied <==> reason == NoReason)
            && (applied ==> GrewBy(was, Get(doc', op.path), doc, op.value, refs))
  {
    ValueStandsFor(doc, op.value, refs);
    hide StandsFor, StandsForNothing, ResolveValue;
    var was := Get(doc, op.path);
    if (was.Some? ==> was.value.Arr?) && ResolveValue(doc, op.value, refs).Some? {
      var v := ResolveValue(doc, op.value, refs).value;
      PutFails(doc, op.path, Push(v));
      if Put(doc, op.path, Push(v)).Ok? {
        PutGet(doc, op.path, Push(v));
        assert was.None? ==> Fill(was, Push(v)) == Arr([v]) && [] + [v] == [v];
      }
    }
  }

  /** A batch that ends in a literal: if that op is reported as applied, the document ends up holding
      the literal as it was given, at the path or as the last element there. */
  lemma LiteralArrives(doc: Json, ops: seq<Op>, op: Op, refs: Refs)
    requires op.kind in {OpSet, OpAppend} && op.value.kind in {LiteralValue, StructuredValue}
    requires op.value.literal.Some?
    ensures var (end, results) := ApplyAll(doc, ops + [op], refs);
            && |results| > 0 && results[|results| - 1].path == op.path
            && results[|results| - 1].reason != TemplateRefMiss
            && (results[|results| - 1].applied ==>
                  var now := Get(end, op.path);
                  && now.Some?
                  && (op.kind == OpSet ==> now == op.value.literal)
                  && (op.kind == OpAppend ==>
                        && now.value.Arr? && now.value.items != []
                        && op.value.literal == Some(now.value.items[|now.value.items| - 1])))
  {
    var mid := LastOp(doc, ops, op, refs);
    hide Outcome, ApplyAll, Resolve, Traverses, ThroughArray;
    if op.kind == OpSet {
      SetOutcome(mid, op, refs);
    } else {
      AppendOutcome(mid, op, refs);
    }
  }

  /** The last op of a batch acts on what the others leave, and its result comes last. */
  lemma LastOp(doc: Json, ops: seq<Op>, op: Op, refs: Refs) returns (mid: Json)
    ensures mid == ApplyAll(doc, ops, refs).0
    ensures var (end, applied, reason) := Outcome(mid, op, refs);
            ApplyAll(doc, ops + [op], refs) ==
              (end, ApplyAll(doc, ops, refs).1 + [OpResult(op.actionType, op.path, applied, reason)])
  {
    hide Outcome;
    mid := ApplyAll(doc, ops, refs).0;
    assert (ops + [op])[..|ops|] == ops;
  }

  /** An op of an unknown kind does nothing and gives no reason. */
  lemma UnknownOp(doc: Json, op: Op, refs: Refs)
    requires op.kind !in {OpSet, OpRemove, OpAppend}
    ensures Outcome(doc, op, refs) == (doc, false, NoReason)
  {
  }

  /** A remove is always reported as applied, yet it changes the body only if the path was
      there: the flag's promise holds exactly on paths that exist. */
  lemma RemoveReportsApplied(doc: Json, op: Op, refs: Refs)
    requires op.kind == OpRemove
    ensures var (doc', applied, reason) := Outcome(doc, op, refs);
            && applied
            && Get(doc', op.path) == None
            && ((applied <==> doc' != doc) <==> Get(doc, op.path).Some?)
  {
    DeleteFacts(doc, op.path, op.path);
  }

  lemma {:induction false} PutOpensPrefixes(doc: Json, path: Path, w: JsonTree.Write, i: nat)
    requires Put(doc, path, w).Ok? && i < |path|
    ensures var r := Get(Put(doc, path, w).value, path[..i]); r.Some? && r.value.Obj?
  {
    var doc' := Put(doc, path, w).value;
    if i > 0 {
      GetStep(doc', path, i);
      if doc.Obj? && path[0] in doc.members {
        PutOpensPrefixes(doc.members[path[0]], path[1..], w, i - 1);
      } else {
        BuildOpensPrefixes(path[1..], w, i - 1);
      }
    }
  }

  lemma {:induction false} BuildOpensPrefixes(path: Path, w: JsonTree.Write, i: nat)
    requires i < |path|
    ensures var r := Get(Build(path, w), path[..i]); r.Some? && r.value.Obj?
  {
    if i > 0 {
      GetStep(Build(path, w), path, i);
      BuildOpensPrefixes(path[1..], w, i - 1);
    }
  }

  /** After an applied write every strict prefix of its path is an object. For a set none of them
      was a scalar before; an append has no such guard, so for it a scalar there was replaced. */
  lemma ScalarsOnTheWay(doc: Json, op: Op, refs: Refs, i: nat)
    requires op.kind in {OpSet, OpAppend} && Outcome(doc, op, refs).1
    requires 0 < i < |op.path|
    ensures var doc' := Outcome(doc, op, refs).0;
            && Get(doc', op.path[..i]).Some? && Get(doc', op.path[..i]).value.Obj?
            && !ScalarAt(doc', op.path[..i])
            && (op.kind == OpSet ==> !ScalarAt(doc, op.path[..i]))
  {
    var v := ResolveValue(doc, op.value, refs).value;
    PutOpensPrefixes(doc, op.path, if op.kind == OpSet then Replace(v) else Push(v), i);
  }

  lemma AppendOverwritesScalar(refs: Refs)
    ensures var doc := Obj(map["m" := Str("x")]);
            var op := Op(OpAppend, ["m", "xs"], RewriteValue(LiteralValue, None, ""), "appendField");
            ScalarAt(doc, ["m"]) && Outcome(doc, op, refs).1 && !ScalarAt(Outcome(doc, op, refs).0, ["m"])
  {
    var doc := Obj(map["m" := Str("x")]);
    var op := Op(OpAppend, ["m", "xs"], RewriteValue(LiteralValue, None, ""), "appendField");
    assert op.path[..1] == ["m"] && op.path[1..] == ["xs"] && ["m"][1..] == [];
    assert Get(doc, ["m"]) == Some(Str("x"));
    assert Get(doc, op.path) == None;
    PutOpensPrefixes(doc, op.path, Push(Null), 1);
  }

  // ----- What a batch does -----

  /** Whatever lies neither above nor below any op's path keeps its value. */
  lemma {:induction false} BatchFrame(doc: Json, ops: seq<Op>, refs: Refs, q: Path)
    requires forall op :: op in ops ==> !(op.path <= q) && !(q <= op.path)
    ensures Get(ApplyAll(doc, ops, refs).0, q) == Get(doc, q)
  {
    if ops != [] {
      var n := |ops| - 1;
      assert ops[n] in ops && forall op :: op in ops[..n] ==> op in ops;
      BatchFrame(doc, ops[..n], refs, q);
      DivergeMeaning(ops[n].path, q);
      OpFrame(ApplyAll(doc, ops[..n], refs).0, ops[n], refs, q);
    }
  }

  lemma OpFrame(doc: Json, op: Op, refs: Refs, q: Path)
    requires Diverge(op.path, q)
    ensures Get(Outcome(doc, op, refs).0, q) == Get(doc, q)
  {
    if op.kind == OpRemove {
      DeleteFacts(doc, op.path, q);
    } else if op.kind in {OpSet, OpAppend} && Outcome(doc, op, refs).1 {
      var v := ResolveValue(doc, op.value, refs).value;
      PutFrame(doc, op.path, if op.kind == OpSet then Replace(v) else Push(v), q);
    }
  }

  /** An object document stays one, and every op is reported on, in order. */
  lemma {:induction false} BatchKeepsObject(doc: Json, ops: seq<Op>, refs: Refs)
    requires doc.Obj?
    ensures var (doc', results) := ApplyAll(doc, ops, refs);
            && doc'.Obj?
            && |results| == |ops|
            && forall i :: 0 <= i < |ops| ==>
                 results[i].path == ops[i].path && results[i].actionType == ops[i].actionType
  {
    if ops != [] {
      BatchKeepsObject(doc, ops[..|ops| - 1], refs);
    }
  }

  /** A batch is its halves in turn: later ops see what earlier ones did, and nothing else
      passes between them. */
  lemma {:induction false} BatchConcat(doc: Json, a: seq<Op>, b: seq<Op>, refs: Refs)
    ensures var (mid, first) := ApplyAll(doc, a, refs);
            var (end, second) := ApplyAll(mid, b, refs);
            ApplyAll(doc, a + b, refs) == (end, first + second)
  {
    if b == [] {
      assert a + b == a;
      var first := ApplyAll(doc, a, refs).1;
      assert first + [] == first;
    } else {
      var n := |b| - 1;
      BatchConcat(doc, a, b[..n], refs);
      assert (a + b)[..|a + b| - 1] == a + b[..n] && (a + b)[|a + b| - 1] == b[n];
      var (mid, first) := ApplyAll(doc, a, refs);
      var (before, second) := ApplyAll(mid, b[..n], refs);
      var (_, applied, reason) := Outcome(before, b[n], refs);
      var r := OpResult(b[n].actionType, b[n].path, applied, reason);
      assert (first + second) + [r] == first + (second + [r]);
    }
  }
}
