/**
 JSON documents as trees, objects being finite maps (section 4 of RFC 8259), with the reads
 and writes the body-patch engine asks of its JSON library on identifier paths.
 */
module JsonTree {
  import opened Wrappers

  datatype Json =
    | Null
    | Bool(b: bool)
    | Num(digits: string)
    | Str(s: string)
    | Arr(items: seq<Json>)
    | Obj(members: map<string, Json>)
  {
    predicate IsScalar() { !Arr? && !Obj? }
  }

  type Path = seq<string>

  /** What to leave at the end of a path: a value, or one more array element. */
  datatype Write = Replace(v: Json) | Push(v: Json)

  datatype SetError = ArrayNeedsIndex

  function Get(doc: Json, path: Path): Option<Json> {
    if path == [] then Some(doc)
    else if doc.Obj? && path[0] in doc.members then Get(doc.members[path[0]], path[1..])
    else None
  }

  /** The new value at the end of the path. Pushing onto a non-array writes the literal key
      "-1"; the engine's guard keeps it from getting there. */
  function Fill(existing: Option<Json>, w: Write): Json {
    match w
    case Replace(v) => v
    case Push(v) =>
      match existing
      case None => Arr([v])
      case Some(Arr(items)) => Arr(items + [v])
      case Some(Obj(members)) => Obj(members["-1" := v])
      case Some(_) => Obj(map["-1" := v])
  }

  function Build(path: Path, w: Write): Json {
    if path == [] then Fill(None, w) else Obj(map[path[0] := Build(path[1..], w)])
  }

  /** Missing objects are created; a scalar in the way is overwritten; an array cannot be
      entered by name. */
  function Put(doc: Json, path: Path, w: Write): Result<Json, SetError> {
    if path == [] then Ok(Fill(Some(doc), w))
    else
      match doc
      case Obj(members) =>
        if path[0] in members then
          match Put(members[path[0]], path[1..], w)
          case Ok(child) => Ok(Obj(members[path[0] := child]))
          case Err(e) => Err(e)
        else Ok(Obj(members[path[0] := Build(path[1..], w)]))
      case Arr(_) => Err(ArrayNeedsIndex)
      case _ => Ok(Obj(map[path[0] := Build(path[1..], w)]))
  }

  /** Deleting what is not there is no error and no change. */
  function Delete(doc: Json, path: Path): Json {
    if path != [] && doc.Obj? && path[0] in doc.members then
      if |path| == 1 then Obj(doc.members - {path[0]})
      else Obj(doc.members[path[0] := Delete(doc.members[path[0]], path[1..])])
    else doc
  }

  /** Neither path is a prefix of the other. */
  predicate Diverge(p: Path, q: Path) {
    p != [] && q != [] && (p[0] != q[0] || Diverge(p[1..], q[1..]))
  }

  lemma {:induction false} DivergeMeaning(p: Path, q: Path)
    ensures Diverge(p, q) <==> !(p <= q) && !(q <= p)
  {
    if p != [] && q != [] {
      DivergeMeaning(p[1..], q[1..]);
      assert p == [p[0]] + p[1..] && q == [q[0]] + q[1..];
    }
  }

  lemma {:induction false} BuildGet(path: Path, w: Write)
    ensures Get(Build(path, w), path) == Some(Fill(None, w))
  {
    if path != [] {
      BuildGet(path[1..], w);
    }
  }

  lemma {:induction false} BuildDiverges(path: Path, w: Write, q: Path)
    requires Diverge(path, q)
    ensures Get(Build(path, w), q) == None
  {
    if path[0] == q[0] {
      BuildDiverges(path[1..], w, q[1..]);
    }
  }

  /** A write is read back. */
  lemma {:induction false} PutGet(doc: Json, path: Path, w: Write)
    requires Put(doc, path, w).Ok?
    ensures Get(Put(doc, path, w).value, path) == Some(Fill(Get(doc, path), w))
  {
    if path != [] {
      if doc.Obj? && path[0] in doc.members {
        PutGet(doc.members[path[0]], path[1..], w);
      } else {
        BuildGet(path[1..], w);
      }
    }
  }

  /** A write touches nothing off its path. */
  lemma {:induction false} PutFrame(doc: Json, path: Path, w: Write, q: Path)
    requires Put(doc, path, w).Ok? && Diverge(path, q)
    ensures Get(Put(doc, path, w).value, q) == Get(doc, q)
  {
    if path[0] == q[0] {
      if doc.Obj? && path[0] in doc.members {
        PutFrame(doc.members[path[0]], path[1..], w, q[1..]);
      } else {
        BuildDiverges(path[1..], w, q[1..]);
      }
    }
  }

  ghost predicate ThroughArray(doc: Json, path: Path) {
    exists i :: 0 <= i < |path| && Get(doc, path[..i]).Some? && Get(doc, path[..i]).value.Arr?
  }

  lemma GetStep(doc: Json, path: Path, i: nat)
    requires 0 < i <= |path| && doc.Obj? && path[0] in doc.members
    ensures Get(doc, path[..i]) == Get(doc.members[path[0]], path[1..][..i - 1])
  {
    assert path[..i][1..] == path[1..][..i - 1];
  }

  /** The one way a write fails: an array lies strictly before the end of the path. */
  lemma {:induction false} PutFails(doc: Json, path: Path, w: Write)
    ensures Put(doc, path, w).Err? <==> ThroughArray(doc, path)
  {
    if path != [] {
      assert Get(doc, path[..0]) == Some(doc);
      if doc.Obj? && path[0] in doc.members {
        var child, rest := doc.members[path[0]], path[1..];
        PutFails(child, rest, w);
        if i :| 0 <= i < |rest| && Get(child, rest[..i]).Some? && Get(child, rest[..i]).value.Arr? {
          GetStep(doc, path, i + 1);
        }
        if i :| 0 < i < |path| && Get(doc, path[..i]).Some? && Get(doc, path[..i]).value.Arr? {
          GetStep(doc, path, i);
          assert Get(child, rest[..i - 1]).value.Arr?;
        }
      } else {
        forall i | 0 < i < |path| ensures Get(doc, path[..i]) == None {
          assert path[..i][0] == path[0];
        }
      }
    }
  }

  /** A delete leaves nothing at its path, nothing else changed, and is the identity exactly
      when there was nothing to delete. */
  lemma {:induction false} DeleteFacts(doc: Json, path: Path, q: Path)
    requires path != []
    ensures Get(Delete(doc, path), path) == None
    ensures Diverge(path, q) ==> Get(Delete(doc, path), q) == Get(doc, q)
    ensures Delete(doc, path) == doc <==> Get(doc, path) == None
  {
    if doc.Obj? && path[0] in doc.members {
      var child := doc.members[path[0]];
      if |path| == 1 {
        assert Get(child, path[1..]) == Some(child) && path[1..] == [];
        if q != [] {
          assert !Diverge(path[1..], q[1..]);
        }
        assert path[0] !in (doc.members - {path[0]});
      } else {
        DeleteFacts(child, path[1..], if q == [] then [] else q[1..]);
        var child' := Delete(child, path[1..]);
        assert doc.members[path[0] := child'][path[0]] == child';
        if child' == child {
          assert doc.members[path[0] := child'] == doc.members;
        }
      }
    }
  }
}
