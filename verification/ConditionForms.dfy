/**
 The wire forms of conditions, member by member: which objects are accepted, what their members
 become, and what a value is written as.
 */
module ConditionForms {
  import opened Wrappers
  import opened JsonTree
  import opened DynamicModel
  import opened Conditions

  // ----- Accepting -----

  /** The member may be missing or null. */
  predicate Missing(obj: Object, name: string) {
    name !in obj || obj[name].Null?
  }

  lemma {:induction false} EachDecodes(items: seq<Json>)
    ensures DecodeAll(items).Ok? <==> forall i :: 0 <= i < |items| ==> Decode(items[i]).Ok?
    ensures DecodeAll(items).Ok? ==>
              && |DecodeAll(items).value| == |items|
              && forall i :: 0 <= i < |items| ==> Decode(items[i]) == Ok(DecodeAll(items).value[i])
  {
    hide Decode;
    if items != [] {
      var n := |items| - 1;
      EachDecodes(items[..n]);
      assert items[..n] + [items[n]] == items;
    }
  }

  /** The elements that are decoded as children, none if there is no array. */
  function ItemsOf(obj: Object): seq<Json> {
    if "children" in obj && obj["children"].Arr? then obj["children"].items else []
  }

  /** A group is accepted exactly if each of its members is missing, null or of its type, and every
      child is accepted. */
  lemma GroupAccepted(j: Json)
    requires j.Obj? && "type" in j.members && j.members["type"] == Str("group")
    ensures var obj := j.members;
            Decode(j).Ok? <==>
              && (Missing(obj, "logical_operator") || obj["logical_operator"].Str?)
              && (Missing(obj, "not") || obj["not"].Bool?)
              && (Missing(obj, "children") || obj["children"].Arr?)
              && forall i :: 0 <= i < |ItemsOf(obj)| ==> Decode(ItemsOf(obj)[i]).Ok?
  {
    GroupDecodes(j);
    EachDecodes(ItemsOf(j.members));
    hide Decode, DecodeAll;
  }

  /** What an accepted group's members become. */
  lemma GroupRead(j: Json)
    requires j.Obj? && "type" in j.members && j.members["type"] == Str("group") && Decode(j).Ok?
    ensures var obj, c := j.members, Decode(j).value;
            && c.Group? && c.typ == "group"
            && c.op == (if Missing(obj, "logical_operator") then ""
                        else if obj["logical_operator"].Str? then obj["logical_operator"].s else "")
            && (c.not <==> "not" in obj && obj["not"] == Bool(true))
            && c.children.Slice? && |c.children.items| == |ItemsOf(obj)|
            && (forall i :: 0 <= i < |ItemsOf(obj)| ==> Decode(ItemsOf(obj)[i]) == Ok(c.children.items[i]))
            && (forall k :: k in c.extra <==> k in obj && k !in {"type", "logical_operator", "children", "not"})
            && (forall k :: k in c.extra ==> c.extra[k] == obj[k])
  {
    GroupAccepted(j);
    GroupDecodes(j);
    EachDecodes(ItemsOf(j.members));
    hide Decode, DecodeAll;
  }

  lemma GroupDecodes(j: Json)
    requires j.Obj? && "type" in j.members && j.members["type"] == Str("group")
    ensures var obj, cs := j.members, DecodeAll(ItemsOf(j.members));
            var op, not := OptString(obj, "logical_operator"), OptBool(obj, "not");
            if op.None? || not.None? || !ChildrenOk(obj) then Decode(j) == Err(BadField)
            else if cs.Err? then Decode(j) == Err(cs.error)
            else Decode(j) == Ok(Group("group", op.value, Slice(cs.value), not.value, obj - GROUP_NAMES))
  {
    hide OptBool;
    assert "group" !in LEAVES;
    NoItems();
  }

  lemma NoItems()
    ensures DecodeAll([]) == Ok([])
  {
  }

  /** The JSON type that a field takes, null apart. */
  predicate Fits(f: FieldInfo, j: Json) {
    if f.kind == BoolField then j.Bool? else j.Str?
  }

  /** A leaf is accepted exactly if each of its declared members is missing, null or of its type. */
  lemma LeafAccepted(j: Json, disc: string)
    requires j.Obj? && "type" in j.members && j.members["type"] == Str(disc) && disc in LEAVES
    ensures Decode(j).Ok? <==>
            forall f :: f in SchemaOf(disc) ==> Missing(j.members, f.name) || Fits(f, j.members[f.name])
  {
    SchemasDistinct(disc);
    hide SchemaOf;
    var schema := SchemaOf(disc);
    ZerosTyped(schema);
  }

  /** What an accepted leaf's members become: a missing or null one the zero value of its type. */
  lemma LeafRead(j: Json, disc: string)
    requires j.Obj? && "type" in j.members && j.members["type"] == Str(disc) && disc in LEAVES && Decode(j).Ok?
    ensures var obj, c := j.members, Decode(j).value;
            && c.Leaf? && c.disc == disc
            && (forall f :: f in SchemaOf(disc) ==>
                  f.name in c.fields && c.fields[f.name] == ReadAs(f.kind, obj, f.name))
            && (forall k :: k in c.extra <==> k in obj && forall f :: f in SchemaOf(disc) ==> f.name != k)
            && (forall k :: k in c.extra ==> c.extra[k] == obj[k])
  {
    SchemasDistinct(disc);
    LeafDecodes(j, disc);
    hide *;
    var schema, obj := SchemaOf(disc), j.members;
    ZerosTyped(schema);
    DecodedAt(schema, Zeros(schema), obj);
    forall f | f in schema
      ensures f.name in Decode(j).value.fields && Decode(j).value.fields[f.name] == ReadAs(f.kind, obj, f.name)
    {
      ReadIs(schema, f, obj);
    }
    NamesAre(schema);
  }

  lemma NamesAre(schema: Schema)
    ensures forall k :: k in Names(schema) <==> exists f :: f in schema && f.name == k
  {
  }

  lemma LeafDecodes(j: Json, disc: string)
    requires j.Obj? && "type" in j.members && j.members["type"] == Str(disc) && disc in LEAVES && Decode(j).Ok?
    ensures var schema, obj := SchemaOf(disc), j.members;
            && (forall f :: f in schema ==> f.name in Zeros(schema))
            && Decodable(schema, Zeros(schema), obj)
            && Decode(j) == Ok(Leaf(disc, DecodedFields(schema, Zeros(schema), obj), obj - Names(schema)))
  {
    SchemasDistinct(disc);
    hide SchemaOf, DecodedFields, Decodable;
    ZerosTyped(SchemaOf(disc));
  }

  lemma ReadIs(schema: Schema, f: FieldInfo, obj: Object)
    requires (forall g :: g in schema ==> g.name in Zeros(schema)) && Decodable(schema, Zeros(schema), obj)
    requires f in schema && Zeros(schema)[f.name] == Zero(f.kind)
    ensures (if f.name in obj then DecodeValue(f.kind, Zeros(schema)[f.name], obj[f.name])
             else Some(Zeros(schema)[f.name])) == Some(ReadAs(f.kind, obj, f.name))
  {
    hide Zeros;
  }

  function ReadAs(kind: Kind, obj: Object, name: string): Value {
    match kind
    case StringField => VString(if name in obj && obj[name].Str? then obj[name].s else "")
    case BoolField => VBool(name in obj && obj[name].Bool? && obj[name].b)
    case OptStringField => VOptString(if name in obj && obj[name].Str? then Some(obj[name].s) else None)
  }

  /** Whatever type is neither a leaf's nor the group's is kept whole. */
  lemma UnknownRead(j: Json, disc: string)
    requires j.Obj? && "type" in j.members && j.members["type"] == Str(disc)
    requires disc !in {"provider", "protocol", "modelName", "header", "tag", "bodyField", "group"}
    ensures Decode(j).Ok? && Decode(j).value.Unknown? && Decode(j).value.typ == disc
    ensures forall k :: k in Decode(j).value.extra <==> k in j.members && k != "type"
    ensures forall k :: k in Decode(j).value.extra ==> Decode(j).value.extra[k] == j.members[k]
  {
    hide SchemaOf, DecodeAll;
  }

  /** Without a discriminator nothing is accepted. */
  lemma NoTypeNoCondition(j: Json)
    ensures !j.Obj? ==> Decode(j) == Err(NotObject)
    ensures j.Obj? && "type" !in j.members ==> Decode(j) == Err(MissingType)
  {
    hide SchemaOf, DecodeAll;
  }

  // ----- Writing -----

  /** A field left out for being empty holds "", false or nothing. */
  predicate LeftOut(f: FieldInfo, v: Value) {
    f.omitEmpty && v in {VString(""), VBool(false), VOptString(None)}
  }

  function WrittenAs(v: Value): Json {
    match v
    case VString(s) => Str(s)
    case VBool(b) => Bool(b)
    case VOptString(o) => if o.Some? then Str(o.value) else Null
  }

  /** A leaf is written as its declared fields, but for those left out, and its other members. */
  lemma LeafWritten(c: Condition)
    requires c.Leaf? && WellTyped(c)
    ensures Encode(c).Obj?
    ensures forall f :: f in SchemaOf(c.disc) ==>
              && f.name in c.fields
              && (f.name in Encode(c).members <==> !LeftOut(f, c.fields[f.name]))
              && (f.name in Encode(c).members ==> Encode(c).members[f.name] == WrittenAs(c.fields[f.name]))
    ensures forall k :: (forall f :: f in SchemaOf(c.disc) ==> f.name != k) ==>
              && (k in Encode(c).members <==> k in c.extra)
              && (k in Encode(c).members ==> Encode(c).members[k] == c.extra[k])
  {
    LeafEncodes(c);
    var schema, out := SchemaOf(c.disc), Encode(c).members;
    SchemasDistinct(c.disc);
    hide SchemaOf, Encode, Encoded, LeftOut, WrittenAs, IsEmpty, EncodeValue;
    EncodedAt(schema, c.fields, c.extra);
    forall f | f in schema
      ensures f.omitEmpty && IsEmpty(c.fields[f.name]) <==> LeftOut(f, c.fields[f.name])
      ensures EncodeValue(c.fields[f.name]) == WrittenAs(c.fields[f.name])
    {
      ValueWritten(f, c.fields[f.name]);
    }
    hide WellTyped;
    forall k | forall f :: f in schema ==> f.name != k ensures k !in Names(schema) {
    }
  }

  lemma LeafEncodes(c: Condition)
    requires c.Leaf? && WellTyped(c)
    ensures Encode(c) == Obj(Encoded(SchemaOf(c.disc), c.fields, c.extra))
  {
    hide SchemaOf, Encoded;
  }

  lemma ValueWritten(f: FieldInfo, v: Value)
    ensures f.omitEmpty && IsEmpty(v) <==> LeftOut(f, v)
    ensures EncodeValue(v) == WrittenAs(v)
  {
  }

  lemma {:induction false} EachEncodes(cs: seq<Condition>)
    requires forall c :: c in cs ==> WellTyped(c)
    ensures forall i :: 0 <= i < |cs| ==> EncodeAll(cs)[i] == Encode(cs[i])
  {
    hide Encode, WellTyped;
    if cs != [] {
      var n := |cs| - 1;
      assert cs[..n] + [cs[n]] == cs;
      EachEncodes(cs[..n]);
    }
  }

  /** A group is written with its four members, `not` only when set and a nil slice as null, over its
      other ones. */
  lemma GroupWritten(c: Condition)
    requires c.Group? && WellTyped(c)
    ensures Encode(c).Obj?
    ensures var out := Encode(c).members;
            && "type" in out && out["type"] == Str(c.typ)
            && "logical_operator" in out && out["logical_operator"] == Str(c.op)
            && (c.not ==> "not" in out && out["not"] == Bool(true))
            && (!c.not ==> ("not" in out <==> "not" in c.extra))
            && "children" in out
            && (c.children.NilSlice? ==> out["children"] == Null)
            && (c.children.Slice? ==>
                  && out["children"].Arr? && |out["children"].items| == |c.children.items|
                  && forall i :: 0 <= i < |c.children.items| ==>
                       out["children"].items[i] == Encode(c.children.items[i]))
            && (forall k :: k !in {"type", "logical_operator", "children", "not"} ==>
                  (k in out <==> k in c.extra) && (k in out ==> out[k] == c.extra[k]))
  {
    if c.children.Slice? {
      EachEncodes(c.children.items);
    }
    hide EncodeAll;
  }

  // ----- What the types declare -----

  /** The members each leaf type declares, in declaration order. */
  lemma DeclaredNames(disc: string, i: nat)
    requires disc in LEAVES && i < |SchemaOf(disc)|
    ensures var name := SchemaOf(disc)[i].name;
            match disc
            case "provider" => |SchemaOf(disc)| == 4 && name == ["type", "operator", "expected_provider", "not"][i]
            case "protocol" => |SchemaOf(disc)| == 4 && name == ["type", "operator", "expected_protocol", "not"][i]
            case "tag" => |SchemaOf(disc)| == 4 && name == ["type", "operator", "expected_tag", "not"][i]
            case "modelName" =>
              && |SchemaOf(disc)| == 5
              && name == ["type", "operator", "expected_model_name", "case_insensitive", "not"][i]
            case "header" =>
              && |SchemaOf(disc)| == 7
              && name == ["type", "key_operator", "key_pattern", "value_operator", "value_pattern",
                          "case_insensitive", "not"][i]
            case "bodyField" => |SchemaOf(disc)| == 5 && name == ["type", "target", "operator", "value", "not"][i]
            case _ => false
  {
  }

  /** The flags are booleans and left out when false; the second operator of a header is optional. */
  lemma DeclaredKinds(disc: string, i: nat)
    requires disc in LEAVES && i < |SchemaOf(disc)|
    ensures var f := SchemaOf(disc)[i];
            && (f.kind == BoolField <==> f.name in {"not", "case_insensitive"})
            && (f.kind == OptStringField <==> f.name == "value_operator")
            && (f.omitEmpty <==> f.name in {"not", "case_insensitive", "value_operator", "value_pattern", "value"})
  {
  }
}
