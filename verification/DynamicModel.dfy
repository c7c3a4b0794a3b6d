/**
 Structs that keep the JSON fields they do not know: `MarshalDynamic` and
 `UnmarshalDynamic` over a struct described by its list of typed fields.
 */
module DynamicModel {
  import opened Wrappers
  import opened Order
  import opened JsonTree

  // ----- Field codecs -----

  /** The Go types of the fields in use: string (and string enums), bool, *string enum. */
  datatype Kind = StringField | BoolField | OptStringField

  datatype Value = VString(s: string) | VBool(b: bool) | VOptString(o: Option<string>)

  datatype FieldInfo = FieldInfo(name: string, kind: Kind, omitEmpty: bool)

  type Schema = seq<FieldInfo>

  type Fields = map<string, Value>

  type Object = map<string, Json>

  function Zero(kind: Kind): Value {
    match kind case StringField => VString("") case BoolField => VBool(false) case OptStringField => VOptString(None)
  }

  predicate HasKind(v: Value, kind: Kind) {
    match kind case StringField => v.VString? case BoolField => v.VBool? case OptStringField => v.VOptString?
  }

  predicate IsEmpty(v: Value) {
    match v case VString(s) => s == "" case VBool(b) => !b case VOptString(o) => o.None?
  }

  function EncodeValue(v: Value): Json {
    match v
    case VString(s) => Str(s)
    case VBool(b) => Bool(b)
    case VOptString(None) => Null
    case VOptString(Some(s)) => Str(s)
  }

  /** Decoding into a field that already holds `prior`; null leaves a plain field alone. */
  function DecodeValue(kind: Kind, prior: Value, j: Json): Option<Value> {
    match kind
    case StringField => (match j case Str(s) => Some(VString(s)) case Null => Some(prior) case _ => None)
    case BoolField => (match j case Bool(b) => Some(VBool(b)) case Null => Some(prior) case _ => None)
    case OptStringField =>
      (match j case Str(s) => Some(VOptString(Some(s))) case Null => Some(VOptString(None)) case _ => None)
  }

  // ----- Specification -----

  function Names(schema: Schema): set<string> {
    set f | f in schema :: f.name
  }

  predicate DistinctNames(schema: Schema) {
    forall i, j :: 0 <= i < j < |schema| ==> schema[i].name != schema[j].name
  }

  /** What the Go type system guarantees: one value of the right type per field. */
  predicate Typed(schema: Schema, fields: Fields) {
    && fields.Keys == Names(schema)
    && forall f :: f in schema ==> f.name in fields && HasKind(fields[f.name], f.kind)
  }

  function Zeros(schema: Schema): Fields {
    if schema == [] then map[] else Zeros(schema[1..])[schema[0].name := Zero(schema[0].kind)]
  }

  function Encoded(schema: Schema, fields: Fields, extra: Object): Object
    requires forall f :: f in schema ==> f.name in fields
  {
    if schema == [] then extra
    else
      var n := |schema| - 1;
      var f := schema[n];
      var out := Encoded(schema[..n], fields, extra);
      if f.omitEmpty && IsEmpty(fields[f.name]) then out - {f.name} else out[f.name := EncodeValue(fields[f.name])]
  }

  predicate Decodable(schema: Schema, prior: Fields, obj: Object)
    requires forall f :: f in schema ==> f.name in prior
  {
    forall f :: f in schema && f.name in obj ==> DecodeValue(f.kind, prior[f.name], obj[f.name]).Some?
  }

  function DecodedFields(schema: Schema, prior: Fields, obj: Object): Fields
    requires forall f :: f in schema ==> f.name in prior
    requires Decodable(schema, prior, obj)
  {
    if schema == [] then prior
    else
      var n := |schema| - 1;
      var f := schema[n];
      var before := DecodedFields(schema[..n], prior, obj);
      if f.name in obj then before[f.name := DecodeValue(f.kind, prior[f.name], obj[f.name]).value] else before
  }

  function DecodedExtra(schema: Schema, obj: Object): Object {
    obj - Names(schema)
  }

  // ----- The codec as written -----

  /** Members in output order. */
  type Members = seq<(string, Json)>

  ghost predicate Sorted(members: Members) {
    forall i, j :: 0 <= i < j < |members| ==> StrLt(members[i].0, members[j].0)
  }

  ghost predicate Spells(members: Members, obj: Object) {
    && |members| == |obj|
    && forall i :: 0 <= i < |members| ==> members[i].0 in obj && obj[members[i].0] == members[i].1
  }

  class DynamicStruct {
    const schema: Schema
    var fields: Fields
    var extra: Object

    ghost predicate Valid()
      reads this
    {
      DistinctNames(schema) && Typed(schema, fields)
    }

    constructor (schema: Schema)
      requires DistinctNames(schema)
      ensures this.schema == schema && Valid() && fields == Zeros(schema) && extra == map[]
    {
      this.schema := schema;
      fields, extra := Zeros(schema), map[];
      ZerosTyped(schema);
    }

    /** Merges the typed fields over the extra ones and emits the keys in order. */
    method Marshal() returns (members: Members)
      requires Valid()
      ensures Sorted(members) && Spells(members, Encoded(schema, fields, extra))
    {
      var out := extra;
      for i := 0 to |schema|
        invariant out == Encoded(schema[..i], fields, extra)
      {
        assert schema[..i + 1][..i] == schema[..i];
        var f := schema[i];
        if f.omitEmpty && IsEmpty(fields[f.name]) {
          out := out - {f.name};
        } else {
          out := out[f.name := EncodeValue(fields[f.name])];
        }
      }
      assert schema[..|schema|] == schema;
      members := EmitSorted(out);
    }

    /** Decodes an object; null counts as an empty one, and nothing else is accepted. */
    method Unmarshal(j: Json) returns (ok: bool)
      requires Valid()
      modifies this
      ensures Valid()
      ensures ok <==> (j.Obj? || j.Null?) && Decodable(schema, old(fields), MembersOf(j))
      ensures ok ==> fields == DecodedFields(schema, old(fields), MembersOf(j))
      ensures ok ==> extra == DecodedExtra(schema, MembersOf(j))
      ensures !ok ==> extra == old(extra)
    {
      if j.Obj? {
        ok := Split(j.members);
      } else if j.Null? {
        ok := Split(map[]);
      } else {
        ok := false;
      }
    }

    /** Fills the typed fields, in whatever order the object is walked, and keeps the rest as
        extra. On a type mismatch nothing but typed fields may have changed. */
    method Split(obj: Object) returns (ok: bool)
      requires Valid()
      modifies this
      ensures Valid() && ok == Decodable(schema, old(fields), obj)
      ensures ok ==> fields == DecodedFields(schema, old(fields), obj) && extra == DecodedExtra(schema, obj)
      ensures !ok ==> extra == old(extra)
    {
      hide DecodedExtra, Decodable, DecodedFields, Partway, Remaining, Names, DistinctNames, Typed;
      ghost var prior := fields;
      var raw, todo := obj, obj.Keys;
      PartwayStart(schema, prior, obj);
      while todo != {}
        invariant todo <= obj.Keys && raw == Remaining(schema, obj, todo)
        invariant Partway(schema, prior, obj, todo, fields)
        invariant extra == old(extra)
        decreases |todo|
      {
        var name :| name in todo;
        RemainingStep(schema, obj, todo, name);
        var i := FieldIndex(schema, name);
        if i < |schema| {
          var f := schema[i];
          PartwayField(schema, prior, obj, todo, fields, f);
          var v := DecodeValue(f.kind, fields[name], obj[name]);
          if v.None? {
            PartwayTyped(schema, prior, obj, todo, fields);
            return false;
          }
          fields := fields[name := v.value];
          raw := raw - {name};
        } else {
          PartwaySkip(schema, prior, obj, todo, fields, name);
        }
        todo := todo - {name};
      }
      PartwayEnd(schema, prior, obj, fields);
      PartwayTyped(schema, prior, obj, todo, fields);
      extra := raw;
      return true;
    }
  }

  function MembersOf(j: Json): Object {
    if j.Obj? then j.members else map[]
  }

  /** The keys not yet visited, or not typed. */
  ghost function Remaining(schema: Schema, obj: Object, todo: set<string>): Object {
    obj - (Names(schema) * (obj.Keys - todo))
  }

  lemma RemainingStep(schema: Schema, obj: Object, todo: set<string>, name: string)
    requires name in todo && todo <= obj.Keys
    ensures Remaining(schema, obj, todo - {name}) ==
            if name in Names(schema) then Remaining(schema, obj, todo) - {name} else Remaining(schema, obj, todo)
  {
    hide Names;
  }

  lemma PartwayStart(schema: Schema, prior: Fields, obj: Object)
    requires DistinctNames(schema) && Typed(schema, prior)
    ensures Partway(schema, prior, obj, obj.Keys, prior) && Remaining(schema, obj, obj.Keys) == obj
  {
  }

  lemma PartwayEnd(schema: Schema, prior: Fields, obj: Object, fields: Fields)
    requires Partway(schema, prior, obj, {}, fields)
    ensures Decodable(schema, prior, obj) && fields == DecodedFields(schema, prior, obj)
    ensures Remaining(schema, obj, {}) == DecodedExtra(schema, obj)
  {
    DecodedUnique(schema, prior, obj, fields);
  }

  /** Typed fields whose key has been visited are decoded, the others still as they were. */
  ghost predicate Partway(schema: Schema, prior: Fields, obj: Object, todo: set<string>, fields: Fields) {
    && DistinctNames(schema) && Typed(schema, prior) && Typed(schema, fields)
    && forall f :: f in schema ==>
         if f.name in obj && f.name !in todo
         then DecodeValue(f.kind, prior[f.name], obj[f.name]) == Some(fields[f.name])
         else fields[f.name] == prior[f.name]
  }

  lemma PartwayTyped(schema: Schema, prior: Fields, obj: Object, todo: set<string>, fields: Fields)
    requires Partway(schema, prior, obj, todo, fields)
    ensures DistinctNames(schema) && Typed(schema, fields) && Typed(schema, prior)
  {
  }

  lemma PartwayField(schema: Schema, prior: Fields, obj: Object, todo: set<string>, fields: Fields, f: FieldInfo)
    requires Partway(schema, prior, obj, todo, fields) && f in schema && f.name in todo && todo <= obj.Keys
    ensures f.name in fields && f.name in prior && fields[f.name] == prior[f.name]
    ensures var v := DecodeValue(f.kind, prior[f.name], obj[f.name]);
            if v.None? then !Decodable(schema, prior, obj)
            else Partway(schema, prior, obj, todo - {f.name}, fields[f.name := v.value])
  {
    var v := DecodeValue(f.kind, prior[f.name], obj[f.name]);
    if v.Some? {
      DecodeKeepsKind(f.kind, prior[f.name], obj[f.name]);
      var after := fields[f.name := v.value];
      forall g | g in schema && g.name == f.name ensures g == f {
        var i :| 0 <= i < |schema| && schema[i] == g;
        var j :| 0 <= j < |schema| && schema[j] == f;
      }
    }
  }

  lemma PartwaySkip(schema: Schema, prior: Fields, obj: Object, todo: set<string>, fields: Fields, name: string)
    requires Partway(schema, prior, obj, todo, fields) && name !in Names(schema)
    ensures Partway(schema, prior, obj, todo - {name}, fields)
  {
  }

  function FieldIndex(schema: Schema, name: string): (i: nat)
    ensures i <= |schema|
    ensures i < |schema| ==> schema[i].name == name
    ensures i == |schema| <==> name !in Names(schema)
  {
    if schema == [] then 0
    else if schema[0].name == name then assert schema[0] in schema; 0
    else
      var r := FieldIndex(schema[1..], name);
      assert forall f :: f in schema <==> f == schema[0] || f in schema[1..];
      1 + r
  }

  /** The map's keys, in some order. */
  method CollectKeys(out: Object) returns (keys: seq<string>)
    ensures |keys| == |out| && Distinct(keys)
    ensures forall k :: k in keys <==> k in out
  {
    keys := [];
    var todo := out.Keys;
    while todo != {}
      invariant todo <= out.Keys
      invariant |keys| + |todo| == |out.Keys|
      invariant forall k :: k in keys <==> k in out && k !in todo
      invariant Distinct(keys)
      decreases |todo|
    {
      var k :| k in todo;
      todo, keys := todo - {k}, keys + [k];
    }
    assert |out.Keys| == |out|;
  }

  method EmitSorted(out: Object) returns (members: Members)
    ensures Sorted(members) && Spells(members, out)
  {
    var keys := CollectKeys(out);
    SortStrict(keys);
    keys := Sort(keys, StrLe);
    members := [];
    for i := 0 to |keys|
      invariant |members| == i
      invariant forall j :: 0 <= j < i ==> keys[j] in out && members[j] == (keys[j], out[keys[j]])
    {
      assert keys[i] in keys;
      members := members + [(keys[i], out[keys[i]])];
    }
  }

  lemma {:induction false} ZerosTyped(schema: Schema)
    requires DistinctNames(schema)
    ensures Typed(schema, Zeros(schema))
    ensures forall f :: f in schema ==> Zeros(schema)[f.name] == Zero(f.kind)
  {
    if schema != [] {
      ZerosTyped(schema[1..]);
      assert forall f :: f in schema <==> f == schema[0] || f in schema[1..];
    }
  }

  lemma DecodeKeepsKind(kind: Kind, prior: Value, j: Json)
    requires HasKind(prior, kind) && DecodeValue(kind, prior, j).Some?
    ensures HasKind(DecodeValue(kind, prior, j).value, kind)
  {
  }

  /** Field by field, what decoding leaves. */
  lemma {:induction false} DecodedAt(schema: Schema, prior: Fields, obj: Object)
    requires DistinctNames(schema) && (forall f :: f in schema ==> f.name in prior) && Decodable(schema, prior, obj)
    ensures var after := DecodedFields(schema, prior, obj);
            && after.Keys == prior.Keys
            && (forall n :: n in prior && n !in Names(schema) ==> after[n] == prior[n])
            && (forall f :: f in schema ==>
                  after[f.name] == if f.name in obj then DecodeValue(f.kind, prior[f.name], obj[f.name]).value
                                   else prior[f.name])
  {
    if schema != [] {
      var n := |schema| - 1;
      var init := schema[..n];
      assert forall f :: f in schema <==> f in init || f == schema[n];
      DecodedAt(init, prior, obj);
    }
  }

  lemma DecodedUnique(schema: Schema, prior: Fields, obj: Object, fields: Fields)
    requires DistinctNames(schema) && Typed(schema, prior) && fields.Keys == prior.Keys
    requires forall f :: f in schema ==>
      if f.name in obj then DecodeValue(f.kind, prior[f.name], obj[f.name]) == Some(fields[f.name])
      else fields[f.name] == prior[f.name]
    ensures Decodable(schema, prior, obj) && fields == DecodedFields(schema, prior, obj)
  {
    DecodedAt(schema, prior, obj);
    var after := DecodedFields(schema, prior, obj);
    forall n | n in fields ensures fields[n] == after[n] {
      var f :| f in schema && f.name == n;
    }
  }

  /** Key by key, what encoding emits: typed fields win over extra ones, and an omitted
      typed field hides an extra one of the same name. */
  lemma {:induction false} EncodedAt(schema: Schema, fields: Fields, extra: Object)
    requires DistinctNames(schema) && forall f :: f in schema ==> f.name in fields
    ensures var out := Encoded(schema, fields, extra);
            && (forall k :: k !in Names(schema) ==> (k in out <==> k in extra) && (k in out ==> out[k] == extra[k]))
            && (forall f :: f in schema ==>
                  && (f.name in out <==> !(f.omitEmpty && IsEmpty(fields[f.name])))
                  && (f.name in out ==> out[f.name] == EncodeValue(fields[f.name])))
  {
    if schema != [] {
      var n := |schema| - 1;
      var init := schema[..n];
      assert forall f :: f in schema <==> f in init || f == schema[n];
      EncodedAt(init, fields, extra);
    }
  }

  // ----- Losslessness -----

  /** Nothing in `extra` shadows a typed field. */
  predicate Coherent(schema: Schema, extra: Object) {
    extra.Keys !! Names(schema)
  }

  lemma ValueRoundTrip(kind: Kind, v: Value)
    requires HasKind(v, kind)
    ensures DecodeValue(kind, Zero(kind), EncodeValue(v)) == Some(v)
    ensures IsEmpty(v) ==> v == Zero(kind)
  {
  }

  /** Encoding then decoding into a fresh struct gives the same struct back, exactly when no
      extra key shadows a typed field. */
  lemma EncodeDecode(schema: Schema, fields: Fields, extra: Object)
    requires DistinctNames(schema) && Typed(schema, fields)
    ensures var obj, zeros := Encoded(schema, fields, extra), Zeros(schema);
            && Typed(schema, zeros)
            && Decodable(schema, zeros, obj)
            && DecodedFields(schema, zeros, obj) == fields
            && (DecodedExtra(schema, obj) == extra <==> Coherent(schema, extra))
  {
    var obj, zeros := Encoded(schema, fields, extra), Zeros(schema);
    ZerosTyped(schema);
    EncodedAt(schema, fields, extra);
    forall f | f in schema
      ensures if f.name in obj then DecodeValue(f.kind, zeros[f.name], obj[f.name]) == Some(fields[f.name])
              else fields[f.name] == zeros[f.name]
    {
      ValueRoundTrip(f.kind, fields[f.name]);
    }
    DecodedUnique(schema, zeros, obj, fields);
    assert forall k :: k in DecodedExtra(schema, obj) <==> k in extra && k !in Names(schema);
  }

  /** Decoding then encoding keeps every unknown key with its value, and a second pass over
      the result is the identity. */
  lemma DecodeEncodeStable(schema: Schema, obj: Object)
    requires DistinctNames(schema) && Typed(schema, Zeros(schema)) && Decodable(schema, Zeros(schema), obj)
    ensures var fields, extra := DecodedFields(schema, Zeros(schema), obj), DecodedExtra(schema, obj);
            && Typed(schema, fields)
            && var once := Encoded(schema, fields, extra);
               && (forall k :: k !in Names(schema) ==> (k in once <==> k in obj) && (k in once ==> once[k] == obj[k]))
               && Decodable(schema, Zeros(schema), once)
               && DecodedFields(schema, Zeros(schema), once) == fields
               && DecodedExtra(schema, once) == extra
  {
    DecodedTyped(schema, obj);
    var fields, extra := DecodedFields(schema, Zeros(schema), obj), DecodedExtra(schema, obj);
    EncodedAt(schema, fields, extra);
    EncodeDecode(schema, fields, extra);
  }

  lemma DecodedTyped(schema: Schema, obj: Object)
    requires DistinctNames(schema) && Typed(schema, Zeros(schema)) && Decodable(schema, Zeros(schema), obj)
    ensures Typed(schema, DecodedFields(schema, Zeros(schema), obj))
  {
    DecodedAt(schema, Zeros(schema), obj);
    forall f | f in schema ensures HasKind(DecodedFields(schema, Zeros(schema), obj)[f.name], f.kind) {
      if f.name in obj {
        DecodeKeepsKind(f.kind, Zeros(schema)[f.name], obj[f.name]);
      }
    }
  }
}
