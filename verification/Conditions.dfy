/**
 The recursive condition codec: a registry that dispatches on the "type" discriminator, a
 fallback for types it does not know, and groups whose children are conditions again.
 */
module Conditions {
  import opened Wrappers
  import opened JsonTree
  import opened DynamicModel

  // ----- The condition types -----

  const LEAVES := {"provider", "protocol", "modelName", "header", "tag", "bodyField"}

  function Text(name: string): FieldInfo { FieldInfo(name, StringField, false) }

  function Flag(name: string): FieldInfo { FieldInfo(name, BoolField, true) }

  /** The typed fields of each leaf type, in declaration order. */
  function SchemaOf(disc: string): Schema {
    if disc == "provider" then [Text("type"), Text("operator"), Text("expected_provider"), Flag("not")]
    else if disc == "protocol" then [Text("type"), Text("operator"), Text("expected_protocol"), Flag("not")]
    else if disc == "modelName" then
      [Text("type"), Text("operator"), Text("expected_model_name"), Flag("case_insensitive"), Flag("not")]
    else if disc == "header" then
      [Text("type"), Text("key_operator"), Text("key_pattern"), FieldInfo("value_operator", OptStringField, true),
       FieldInfo("value_pattern", StringField, true), Flag("case_insensitive"), Flag("not")]
    else if disc == "tag" then [Text("type"), Text("operator"), Text("expected_tag"), Flag("not")]
    else if disc == "bodyField" then
      [Text("type"), Text("target"), Text("operator"), FieldInfo("value", StringField, true), Flag("not")]
    else [Text("type")]
  }

  const GROUP_NAMES := {"type", "logical_operator", "children", "not"}

  /** A Go value of the Condition interface. A group's children may be a nil slice. */
  datatype Condition =
    | Leaf(disc: string, fields: Fields, extra: Object)
    | Unknown(typ: string, extra: Object)
    | Group(typ: string, op: string, children: Children, not: bool, extra: Object)

  datatype Children = NilSlice | Slice(items: seq<Condition>)

  /** What Go's types guarantee of any such value. */
  predicate WellTyped(c: Condition) {
    match c
    case Leaf(disc, fields, _) => disc in LEAVES && Typed(SchemaOf(disc), fields)
    case Unknown(_, _) => true
    case Group(_, _, children, _, _) => children.Slice? ==> forall d :: d in children.items ==> WellTyped(d)
  }

  datatype DecodeError = NotObject | MissingType | TypeNotString | BadField | InChild(index: nat, inner: DecodeError)

  // ----- Specification -----

  function Peek(j: Json): Result<string, DecodeError> {
    if !j.Obj? then Err(NotObject)
    else if "type" !in j.members then Err(MissingType)
    else match j.members["type"]
      case Str(s) => Ok(s)
      case Null => Ok("")
      case _ => Err(TypeNotString)
  }

  /** An optional string or bool member of the group wire form; absent and null mean zero. */
  function OptString(obj: Object, name: string): Option<string> {
    if name !in obj || obj[name].Null? then Some("") else if obj[name].Str? then Some(obj[name].s) else None
  }

  function OptBool(obj: Object, name: string): Option<bool> {
    if name !in obj || obj[name].Null? then Some(false) else if obj[name].Bool? then Some(obj[name].b) else None
  }

  predicate ChildrenOk(obj: Object) {
    "children" in obj ==> obj["children"].Null? || obj["children"].Arr?
  }

  function Decode(j: Json): Result<Condition, DecodeError>
    decreases j, 1
  {
    match Peek(j)
    case Err(e) => Err(e)
    case Ok(disc) =>
      if disc in LEAVES then DecodeLeaf(disc, j.members)
      else if disc == "group" then DecodeGroup(j)
      else Ok(Unknown(disc, j.members - {"type"}))
  }

  function DecodeLeaf(disc: string, obj: Object): Result<Condition, DecodeError> {
    var schema := SchemaOf(disc);
    SchemasDistinct(disc);
    ZerosTyped(schema);
    if !Decodable(schema, Zeros(schema), obj) then Err(BadField)
    else Ok(Leaf(disc, DecodedFields(schema, Zeros(schema), obj), DecodedExtra(schema, obj)))
  }

  function DecodeGroup(j: Json): Result<Condition, DecodeError>
    requires j.Obj?
    decreases j, 0
  {
    var obj := j.members;
    var typ, op, not := OptString(obj, "type"), OptString(obj, "logical_operator"), OptBool(obj, "not");
    if typ.None? || op.None? || not.None? || !ChildrenOk(obj) then Err(BadField)
    else if "children" in obj && obj["children"].Arr? then
      match DecodeAll(obj["children"].items)
      case Err(e) => Err(e)
      case Ok(cs) => Ok(Group(typ.value, op.value, Slice(cs), not.value, obj - GROUP_NAMES))
    else Ok(Group(typ.value, op.value, Slice([]), not.value, obj - GROUP_NAMES))
  }

  function DecodeAll(items: seq<Json>): Result<seq<Condition>, DecodeError>
    decreases items
  {
    if items == [] then Ok([])
    else
      var n := |items| - 1;
      match DecodeAll(items[..n])
      case Err(e) => Err(e)
      case Ok(cs) =>
        match Decode(items[n])
        case Err(e) => Err(InChild(n, e))
        case Ok(c) => Ok(cs + [c])
  }

  function Encode(c: Condition): Json
    requires WellTyped(c)
    decreases c, 0
  {
    match c
    case Leaf(disc, fields, extra) => Obj(Encoded(SchemaOf(disc), fields, extra))
    case Unknown(typ, extra) => Obj(extra["type" := Str(typ)])
    case Group(typ, op, children, not, extra) =>
      Obj(GroupObject(typ, op, if children.NilSlice? then Null else Arr(EncodeAll(children.items)), not, extra))
  }

  function GroupObject(typ: string, op: string, children: Json, not: bool, extra: Object): Object {
    var out := extra["type" := Str(typ)]["logical_operator" := Str(op)];
    (if not then out["not" := Bool(true)] else out)["children" := children]
  }

  function EncodeAll(cs: seq<Condition>): (js: seq<Json>)
    requires forall c :: c in cs ==> WellTyped(c)
    ensures |js| == |cs|
    decreases cs
  {
    if cs == [] then [] else EncodeAll(cs[..|cs| - 1]) + [Encode(cs[|cs| - 1])]
  }

  /** Exactly which discriminators are rejected as no strings: null is let through as "". */
  lemma DiscriminatorErrors(j: Json)
    requires j.Obj? && "type" in j.members
    ensures Decode(j) == Err(TypeNotString) <==> !j.members["type"].Str? && !j.members["type"].Null?
    ensures j.members["type"].Null? ==> Decode(j) == Ok(Unknown("", j.members - {"type"}))
  {
    hide SchemaOf;
    if j.members["type"].Str? && "children" in j.members && j.members["children"].Arr? {
      ChildErrors(j.members["children"].items);
    }
  }

  lemma {:induction false} ChildErrors(items: seq<Json>)
    ensures DecodeAll(items).Err? ==> DecodeAll(items).error.InChild?
  {
    if items != [] {
      ChildErrors(items[..|items| - 1]);
    }
  }

  // ----- The decoder as written -----

  method UnmarshalCondition(j: Json) returns (r: Result<Condition, DecodeError>)
    ensures r == Decode(j)
    decreases j, 2
  {
    var disc := Peek(j);
    if disc.Err? {
      return Err(disc.error);
    }
    if disc.value in LEAVES {
      var schema := SchemaOf(disc.value);
      SchemasDistinct(disc.value);
      var v := new DynamicStruct(schema);
      var ok := v.Unmarshal(j);
      if !ok {
        return Err(BadField);
      }
      return Ok(Leaf(disc.value, v.fields, v.extra));
    }
    if disc.value == "group" {
      r := UnmarshalGroup(j);
      return;
    }
    return Ok(Unknown(disc.value, j.members - {"type"}));
  }

  method UnmarshalGroup(j: Json) returns (r: Result<Condition, DecodeError>)
    requires j.Obj?
    ensures r == DecodeGroup(j)
    decreases j, 1
  {
    var obj := j.members;
    var typ, op, not := OptString(obj, "type"), OptString(obj, "logical_operator"), OptBool(obj, "not");
    if typ.None? || op.None? || not.None? || !ChildrenOk(obj) {
      return Err(BadField);
    }
    var children: seq<Condition> := [];
    if "children" in obj && obj["children"].Arr? {
      var items := obj["children"].items;
      for i := 0 to |items|
        invariant DecodeAll(items[..i]) == Ok(children)
      {
        assert items[..i + 1][..i] == items[..i];
        var c := UnmarshalCondition(items[i]);
        if c.Err? {
          FirstErrorWins(items, i);
          return Err(InChild(i, c.error));
        }
        children := children + [c.value];
      }
      assert items[..|items|] == items;
    }
    return Ok(Group(typ.value, op.value, Slice(children), not.value, obj - GROUP_NAMES));
  }

  // ----- The encoder as written -----

  method MarshalCondition(c: Condition) returns (j: Json)
    requires WellTyped(c)
    ensures j == Encode(c)
    decreases c, 1
  {
    match c {
      case Leaf(disc, fields, extra) =>
        SchemasDistinct(disc);
        j := MarshalFields(SchemaOf(disc), fields, extra);
      case Unknown(typ, extra) =>
        UnknownFields(typ, extra);
        j := MarshalFields([Text("type")], map["type" := VString(typ)], extra);
      case Group(_, _, _, _, _) =>
        j := MarshalGroup(c);
    }
  }

  lemma UnknownFields(typ: string, extra: Object)
    ensures var schema, fields := [Text("type")], map["type" := VString(typ)];
            && DistinctNames(schema) && Typed(schema, fields)
            && Encoded(schema, fields, extra) == extra["type" := Str(typ)]
  {
    var schema := [Text("type")];
    assert schema[0] == Text("type") && schema[..0] == [];
  }

  method MarshalFields(schema: Schema, fields: Fields, extra: Object) returns (j: Json)
    requires DistinctNames(schema) && Typed(schema, fields)
    ensures j == Obj(Encoded(schema, fields, extra))
  {
    var v := new DynamicStruct(schema);
    v.fields, v.extra := fields, extra;
    var members := v.Marshal();
    var obj := Collect(members);
    return Obj(obj);
  }

  /** The members read as an object. */
  method Collect(members: Members) returns (obj: Object)
    requires Sorted(members)
    ensures forall o: Object :: Spells(members, o) ==> o == obj
  {
    obj := map[];
    for i := 0 to |members|
      invariant forall k :: k in obj <==> exists j :: 0 <= j < i && members[j].0 == k
      invariant forall j :: 0 <= j < i ==> members[j].0 in obj && obj[members[j].0] == members[j].1
    {
      KeysDiffer(members, i);
      obj := obj[members[i].0 := members[i].1];
    }
    forall o: Object | Spells(members, o) ensures o == obj {
      SpelledOnce(members, o, obj);
    }
  }

  lemma KeysDiffer(members: Members, i: nat)
    requires Sorted(members) && i < |members|
    ensures forall j :: 0 <= j < i ==> members[j].0 != members[i].0
  {
  }

  lemma SpelledOnce(members: Members, o: Object, obj: Object)
    requires Sorted(members) && Spells(members, o)
    requires forall k :: k in obj <==> exists j :: 0 <= j < |members| && members[j].0 == k
    requires forall j :: 0 <= j < |members| ==> members[j].0 in obj && obj[members[j].0] == members[j].1
    ensures o == obj
  {
    assert obj.Keys <= o.Keys;
    var keys := KeysOf(members);
    assert obj.Keys == keys;
    KeysCount(members);
    SameSize(obj.Keys, o.Keys);
  }

  function KeysOf(members: Members): set<string> {
    set j | 0 <= j < |members| :: members[j].0
  }

  lemma {:induction false} KeysCount(members: Members)
    requires Sorted(members)
    ensures |KeysOf(members)| == |members|
  {
    if members != [] {
      var n := |members| - 1;
      KeysCount(members[..n]);
      KeysDiffer(members, n);
      assert KeysOf(members) == KeysOf(members[..n]) + {members[n].0};
    }
  }

  lemma SameSize(a: set<string>, b: set<string>)
    requires a <= b && |a| == |b|
    ensures a == b
  {
    assert b == a + (b - a);
  }

  method MarshalGroup(c: Condition) returns (j: Json)
    requires c.Group? && WellTyped(c)
    ensures j == Encode(c)
    decreases c, 0
  {
    var out: Object := map[];
    var todo := c.extra.Keys;
    while todo != {}
      invariant todo <= c.extra.Keys && out == c.extra - todo
    {
      var k :| k in todo;
      out := out[k := c.extra[k]];
      todo := todo - {k};
    }
    assert out == c.extra;
    out := out["type" := Str(c.typ)];
    out := out["logical_operator" := Str(c.op)];
    if c.not {
      out := out["not" := Bool(true)];
    }
    if c.children.NilSlice? {
      return Obj(out["children" := Null]);
    }
    var items := c.children.items;
    var js: seq<Json> := [];
    for i := 0 to |items|
      invariant js == EncodeAll(items[..i])
    {
      assert items[..i + 1][..i] == items[..i];
      var child := MarshalCondition(items[i]);
      js := js + [child];
    }
    assert items[..|items|] == items;
    return Obj(out["children" := Arr(js)]);
  }

  lemma {:induction false} FirstErrorWins(items: seq<Json>, i: nat)
    requires i < |items| && DecodeAll(items[..i]).Ok? && Decode(items[i]).Err?
    ensures DecodeAll(items) == Err(InChild(i, Decode(items[i]).error))
    decreases |items|
  {
    var n := |items| - 1;
    if i < n {
      assert items[..n][..i] == items[..i];
      FirstErrorWins(items[..n], i);
    }
  }

  // ----- Round trips -----

  lemma SchemasDistinct(disc: string)
    ensures DistinctNames(SchemaOf(disc))
    ensures Text("type") in SchemaOf(disc)
  {
    assert SchemaOf(disc)[0] == Text("type");
  }

  /** The values decoding can produce: discriminator and Go type agree, no extra key shadows a
      typed field, and no group's children are nil. */
  predicate Canonical(c: Condition) {
    match c
    case Leaf(disc, fields, extra) =>
      && "type" in fields && fields["type"] == VString(disc)
      && Coherent(SchemaOf(disc), extra)
    case Unknown(typ, extra) => typ !in LEAVES && typ != "group" && "type" !in extra
    case Group(typ, op, children, not, extra) =>
      && typ == "group"
      && children.Slice? && (forall d :: d in children.items ==> Canonical(d))
      && extra.Keys !! GROUP_NAMES
  }

  lemma {:induction false} DecodeCanonical(j: Json)
    requires Decode(j).Ok?
    ensures WellTyped(Decode(j).value) && Canonical(Decode(j).value)
    decreases j, 1
  {
    var disc, obj := Peek(j).value, j.members;
    if disc in LEAVES {
      LeafCanonical(disc, obj);
    } else if disc == "group" && "children" in obj && obj["children"].Arr? {
      DecodeAllCanonical(obj["children"].items);
    }
  }

  lemma {:induction false} DecodeAllCanonical(items: seq<Json>)
    requires DecodeAll(items).Ok?
    ensures forall c :: c in DecodeAll(items).value ==> WellTyped(c) && Canonical(c)
    decreases items
  {
    if items != [] {
      var n := |items| - 1;
      DecodeAllCanonical(items[..n]);
      DecodeCanonical(items[n]);
    }
  }

  lemma LeafCanonical(disc: string, obj: Object)
    requires disc in LEAVES && Peek(Obj(obj)) == Ok(disc) && DecodeLeaf(disc, obj).Ok?
    ensures WellTyped(DecodeLeaf(disc, obj).value) && Canonical(DecodeLeaf(disc, obj).value)
  {
    SchemasDistinct(disc);
    hide SchemaOf;
    var schema := SchemaOf(disc);
    ZerosTyped(schema);
    DecodedTyped(schema, obj);
    DecodedAt(schema, Zeros(schema), obj);
  }

  /** Encoding a canonical tree and decoding it gives the same tree back, whatever its depth. */
  lemma {:induction false} CanonicalRoundTrip(c: Condition)
    requires WellTyped(c) && Canonical(c)
    ensures Decode(Encode(c)) == Ok(c)
    decreases c, 1
  {
    hide SchemaOf;
    match c {
      case Leaf(disc, fields, extra) => LeafRoundTrip(disc, fields, extra);
      case Unknown(typ, extra) => assert extra["type" := Str(typ)] - {"type"} == extra;
      case Group(typ, op, children, not, extra) =>
        EncodeAllRoundTrip(children.items);
        hide EncodeAll, DecodeAll, DecodeLeaf, Encoded;
        GroupRoundTrip(op, EncodeAll(children.items), children.items, not, extra);
    }
  }

  lemma GroupRoundTrip(op: string, items: seq<Json>, cs: seq<Condition>, not: bool, extra: Object)
    requires extra.Keys !! GROUP_NAMES && DecodeAll(items) == Ok(cs)
    ensures Decode(Obj(GroupObject("group", op, Arr(items), not, extra))) ==
            Ok(Group("group", op, Slice(cs), not, extra))
  {
    hide SchemaOf, DecodeAll, DecodeLeaf;
    var obj := GroupObject("group", op, Arr(items), not, extra);
    assert "not" !in extra && obj - GROUP_NAMES == extra;
  }

  lemma LeafRoundTrip(disc: string, fields: Fields, extra: Object)
    requires var c := Leaf(disc, fields, extra); WellTyped(c) && Canonical(c)
    ensures Decode(Encode(Leaf(disc, fields, extra))) == Ok(Leaf(disc, fields, extra))
  {
    SchemasDistinct(disc);
    hide SchemaOf;
    EncodeDecode(SchemaOf(disc), fields, extra);
    EncodedAt(SchemaOf(disc), fields, extra);
  }

  lemma {:induction false} EncodeAllRoundTrip(cs: seq<Condition>)
    requires forall c :: c in cs ==> WellTyped(c) && Canonical(c)
    ensures DecodeAll(EncodeAll(cs)) == Ok(cs)
    decreases cs, 0
  {
    if cs != [] {
      var n := |cs| - 1;
      EncodeAllRoundTrip(cs[..n]);
      CanonicalRoundTrip(cs[n]);
      assert EncodeAll(cs) == EncodeAll(cs[..n]) + [Encode(cs[n])];
      hide *;
      DecodeOneMore(EncodeAll(cs[..n]), Encode(cs[n]), cs[..n], cs[n]);
      assert cs == cs[..n] + [cs[n]];
    }
  }

  lemma DecodeOneMore(js: seq<Json>, j: Json, cs: seq<Condition>, c: Condition)
    requires DecodeAll(js) == Ok(cs) && Decode(j) == Ok(c)
    ensures DecodeAll(js + [j]) == Ok(cs + [c])
  {
    hide Decode;
    assert (js + [j])[..|js|] == js;
  }

  /** The round trip holds exactly for canonical trees. What it rules out: a type field that
      contradicts the Go type, extra keys named like typed ones, and groups whose children
      are a nil slice, which go out as null and come back as an empty one. */
  lemma RoundTripIffCanonical(c: Condition)
    requires WellTyped(c)
    ensures Decode(Encode(c)) == Ok(c) <==> Canonical(c)
  {
    if Canonical(c) {
      CanonicalRoundTrip(c);
    }
    if Decode(Encode(c)) == Ok(c) {
      DecodeCanonical(Encode(c));
    }
  }

  /** A second decode and encode of the output changes nothing. */
  lemma SecondPassStable(j: Json)
    requires Decode(j).Ok?
    ensures WellTyped(Decode(j).value) && Decode(Encode(Decode(j).value)) == Decode(j)
  {
    DecodeCanonical(j);
    CanonicalRoundTrip(Decode(j).value);
  }

  /** The keys that the type named by a discriminator declares. */
  function KnownNames(disc: string): set<string> {
    if disc == "group" then GROUP_NAMES else Names(SchemaOf(disc))
  }

  ghost predicate LevelKept(known: set<string>, obj: Object, out: Object) {
    && (forall k :: k in obj && k !in known ==> k in out && out[k] == obj[k])
    && (forall k :: k in out && k !in known ==> k in obj)
  }

  /** At every level of the tree, unknown keys come out with the values they went in with. */
  ghost predicate UnknownKept(j: Json, out: Json)
    decreases j
  {
    && j.Obj? && out.Obj? && Peek(j).Ok?
    && LevelKept(KnownNames(Peek(j).value), j.members, out.members)
    && (Peek(j).value == "group" && "children" in j.members && j.members["children"].Arr? ==>
          && "children" in out.members && out.members["children"].Arr?
          && var ins, outs := j.members["children"].items, out.members["children"].items;
             |outs| == |ins| && forall i :: 0 <= i < |ins| ==> UnknownKept(ins[i], outs[i]))
  }

  /** Nothing the gateway does not understand is lost between decoding and encoding. */
  lemma {:induction false} UnknownFieldsSurvive(j: Json)
    requires Decode(j).Ok?
    ensures WellTyped(Decode(j).value) && UnknownKept(j, Encode(Decode(j).value))
    decreases j, 1
  {
    DecodeCanonical(j);
    var disc, obj := Peek(j).value, j.members;
    if disc in LEAVES {
      LeafSurvives(disc, obj);
    } else if disc == "group" {
      if "children" in obj && obj["children"].Arr? {
        ChildrenSurvive(obj["children"].items);
      }
    } else {
      assert SchemaOf(disc) == [Text("type")];
      assert Names([Text("type")]) == {"type"};
    }
  }

  lemma LeafSurvives(disc: string, obj: Object)
    requires disc in LEAVES && DecodeLeaf(disc, obj).Ok? && WellTyped(DecodeLeaf(disc, obj).value)
    ensures LevelKept(Names(SchemaOf(disc)), obj, Encode(DecodeLeaf(disc, obj).value).members)
  {
    SchemasDistinct(disc);
    hide SchemaOf, Names;
    ZerosTyped(SchemaOf(disc));
    DecodeEncodeStable(SchemaOf(disc), obj);
  }

  lemma {:induction false} ChildrenSurvive(items: seq<Json>)
    requires DecodeAll(items).Ok?
    ensures var cs := DecodeAll(items).value;
            && (forall c :: c in cs ==> WellTyped(c))
            && |cs| == |items|
            && forall i :: 0 <= i < |items| ==> UnknownKept(items[i], EncodeAll(cs)[i])
    decreases items, 0
  {
    hide *;
    if items == [] {
      NoChildren();
    } else {
      var n := |items| - 1;
      LastChild(items);
      ChildrenSurvive(items[..n]);
      UnknownFieldsSurvive(items[n]);
      var init, c := DecodeAll(items[..n]).value, Decode(items[n]).value;
      var js := EncodeAll(init + [c]);
      forall i | 0 <= i < |items| ensures UnknownKept(items[i], js[i]) {
        if i < n {
          assert js[i] == EncodeAll(init)[i] && items[i] == items[..n][i];
        }
      }
    }
  }

  lemma NoChildren()
    ensures DecodeAll([]) == Ok([])
  {
  }

  lemma LastChild(items: seq<Json>)
    requires items != [] && DecodeAll(items).Ok?
    ensures var n := |items| - 1;
            && DecodeAll(items[..n]).Ok? && Decode(items[n]).Ok?
            && var init, c := DecodeAll(items[..n]).value, Decode(items[n]).value;
               && DecodeAll(items).value == init + [c]
               && (forall d :: d in init + [c] ==> WellTyped(d))
               && EncodeAll(init + [c]) == EncodeAll(init) + [Encode(c)]
  {
    hide Decode, Encode, WellTyped, Canonical;
    var n := |items| - 1;
    DecodeAllCanonical(items[..n]);
    DecodeCanonical(items[n]);
    var init, c := DecodeAll(items[..n]).value, Decode(items[n]).value;
    assert (init + [c])[..|init|] == init;
  }
}
