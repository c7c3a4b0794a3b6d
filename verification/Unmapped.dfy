/** `CollectUnmapped`: the dotted paths of the fields a provider sent that no model declares. */
module Unmapped {
  import opened Order
  import opened JsonTree
  import opened DynamicModel

  /** A Go value as reflection sees it. Of an `Extra` map only the keys matter. */
  datatype GoValue =
    | Nil
    | Ptr(elem: GoValue)
    | Struct(fields: seq<Field>, extra: set<string>)
    | Slice(items: seq<GoValue>)
    | Map(entries: map<string, GoValue>)
    | Bytes
    | Scalar

  datatype Field = Field(name: string, value: GoValue)

  const MAX_DEPTH: nat := 64

  function JoinPath(parent: string, name: string): string {
    if parent == "" then name else parent + "." + name
  }

  // ----- The walk -----

  /** What the walk adds from `v` down, reached at `path` and `depth`. */
  ghost function Collected(v: GoValue, path: string, depth: nat): set<string>
    decreases v
  {
    if depth > MAX_DEPTH then {}
    else
      var below := depth + 1;
      match v
      case Ptr(elem) => Collected(elem, path, depth)
      case Struct(fields, extra) =>
        (set k | k in extra :: JoinPath(path, k))
        + (set f, p | f in fields && p in Collected(f.value, JoinPath(path, f.name), below) :: p)
      case Slice(items) => set w, p | w in items && p in Collected(w, path, below) :: p
      case Map(entries) => set k, p | k in entries && p in Collected(entries[k], path, below) :: p
      case _ => {}
  }

  method CollectUnmapped(v: GoValue) returns (out: seq<string>)
    ensures StrictlySorted(out)
    ensures forall p :: p in out <==> p in Collected(v, "", 0)
  {
    var paths := Collect(v, "", {}, 0);
    var keys: seq<string> := [];
    var todo := paths;
    while todo != {}
      invariant todo <= paths && Distinct(keys)
      invariant forall k :: k in keys <==> k in paths && k !in todo
      decreases |todo|
    {
      var k :| k in todo;
      todo, keys := todo - {k}, keys + [k];
    }
    SortStrict(keys);
    out := Sort(keys, StrLe);
  }

  method Collect(v: GoValue, path: string, acc: set<string>, depth: nat) returns (out: set<string>)
    ensures out == acc + Collected(v, path, depth)
    decreases v, 1
  {
    out := acc;
    if depth > MAX_DEPTH {
      return;
    }
    match v {
      case Ptr(elem) => out := Collect(elem, path, acc, depth);
      case Struct(_, _) => out := CollectStruct(v, path, acc, depth);
      case Slice(_) => out := CollectSlice(v, path, acc, depth);
      case Map(_) => out := CollectMap(v, path, acc, depth);
      case _ =>
    }
  }

  method CollectStruct(v: GoValue, path: string, acc: set<string>, depth: nat) returns (out: set<string>)
    requires v.Struct? && depth <= MAX_DEPTH
    ensures out == acc + Collected(v, path, depth)
    decreases v, 0
  {
    ghost var below, all := depth + 1, Collected(v, path, depth);
    out := acc + set k | k in v.extra :: JoinPath(path, k);
    for i := 0 to |v.fields|
      invariant acc + (set k | k in v.extra :: JoinPath(path, k)) <= out <= acc + all
      invariant forall j :: 0 <= j < i ==> Collected(v.fields[j].value, JoinPath(path, v.fields[j].name), below) <= out
    {
      var f := v.fields[i];
      assert f in v.fields;
      out := Collect(f.value, JoinPath(path, f.name), out, depth + 1);
    }
    assert all <= out;
  }

  method CollectSlice(v: GoValue, path: string, acc: set<string>, depth: nat) returns (out: set<string>)
    requires v.Slice? && depth <= MAX_DEPTH
    ensures out == acc + Collected(v, path, depth)
    decreases v, 0
  {
    ghost var below, all := depth + 1, Collected(v, path, depth);
    out := acc;
    for i := 0 to |v.items|
      invariant acc <= out <= acc + all
      invariant forall j :: 0 <= j < i ==> Collected(v.items[j], path, below) <= out
    {
      assert v.items[i] in v.items;
      out := Collect(v.items[i], path, out, depth + 1);
    }
    assert all <= out;
  }

  method CollectMap(v: GoValue, path: string, acc: set<string>, depth: nat) returns (out: set<string>)
    requires v.Map? && depth <= MAX_DEPTH
    ensures out == acc + Collected(v, path, depth)
    decreases v, 0
  {
    ghost var below, all := depth + 1, Collected(v, path, depth);
    out := acc;
    var todo := v.entries.Keys;
    while todo != {}
      invariant todo <= v.entries.Keys
      invariant acc <= out <= acc + all
      invariant forall k :: k in v.entries && k !in todo ==> Collected(v.entries[k], path, below) <= out
      decreases |todo|
    {
      var k :| k in todo;
      out := Collect(v.entries[k], path, out, depth + 1);
      todo := todo - {k};
    }
    assert all <= out;
  }

  // ----- What the paths mean -----

  /** Some struct reached from `v` by the field names of `route`, through any pointers, slice
      elements and map values, holds `key` as an unmodelled field; and no more than `room` steps
      lead there, a pointer not counting as one. */
  ghost predicate Holds(v: GoValue, route: seq<string>, key: string, room: nat)
    decreases v
  {
    match v
    case Ptr(elem) => Holds(elem, route, key, room)
    case Struct(fields, extra) =>
      if route == [] then key in extra
      else room > 0 && exists f :: f in fields && f.name == route[0] && Holds(f.value, route[1..], key, room - 1)
    case Slice(items) => room > 0 && exists w :: w in items && Holds(w, route, key, room - 1)
    case Map(entries) => room > 0 && exists k :: k in entries && Holds(entries[k], route, key, room - 1)
    case _ => false
  }

  function Dotted(path: string, route: seq<string>, key: string): string
    decreases |route|
  {
    if route == [] then JoinPath(path, key) else Dotted(JoinPath(path, route[0]), route[1..], key)
  }

  /** The names in order with a dot between any two. */
  function Dots(names: seq<string>): string
    requires names != []
  {
    if |names| == 1 then names[0] else Dots(names[..|names| - 1]) + "." + names[|names| - 1]
  }

  lemma {:induction false} DottedIsDots(before: seq<string>, route: seq<string>, key: string)
    requires before != [] && Dots(before) != ""
    ensures Dotted(Dots(before), route, key) == Dots(before + route + [key])
    decreases |route|
  {
    if route == [] {
      assert before + route + [key] == before + [key];
      DotsSnoc(before, key);
    } else {
      DotsSnoc(before, route[0]);
      DottedIsDots(before + [route[0]], route[1..], key);
      assert before + [route[0]] + route[1..] + [key] == before + route + [key];
    }
  }

  lemma DotsSnoc(names: seq<string>, name: string)
    requires names != []
    ensures Dots(names + [name]) == Dots(names) + "." + name
  {
    assert (names + [name])[..|names|] == names;
  }

  /** The path of a key is its route and itself, dotted, as soon as the first field has a name. */
  lemma PathIsDotted(route: seq<string>, key: string)
    requires route == [] || route[0] != ""
    ensures Dotted("", route, key) == Dots(route + [key])
  {
    if route == [] {
      assert route + [key] == [key];
    } else {
      assert Dots([route[0]]) == route[0];
      DottedIsDots([route[0]], route[1..], key);
      assert [route[0]] + route[1..] + [key] == route + [key];
    }
  }

  lemma JustTheKey(path: string, key: string)
    ensures Dotted(path, [], key) == JoinPath(path, key)
  {
  }

  lemma OneFieldDown(v: GoValue, f: Field, path: string, route: seq<string>, key: string, room: nat)
    requires v.Struct? && f in v.fields && room > 0 && Holds(f.value, route, key, room - 1)
    ensures Holds(v, [f.name] + route, key, room)
    ensures Dotted(path, [f.name] + route, key) == Dotted(JoinPath(path, f.name), route, key)
  {
    var whole := [f.name] + route;
    assert whole[0] == f.name && whole[1..] == route;
  }

  lemma {:induction false} CollectedHolds(v: GoValue, path: string, depth: nat, p: string)
    requires p in Collected(v, path, depth)
    ensures depth <= MAX_DEPTH
    ensures exists route, key :: Holds(v, route, key, MAX_DEPTH - depth) && p == Dotted(path, route, key)
    decreases v
  {
    hide Dotted, JoinPath;
    var room := MAX_DEPTH - depth;
    match v {
      case Ptr(elem) =>
        CollectedHolds(elem, path, depth, p);
        var route, key :| Holds(elem, route, key, room) && p == Dotted(path, route, key);
        assert Holds(v, route, key, room);
      case Struct(fields, extra) =>
        if k :| k in extra && p == JoinPath(path, k) {
          assert Holds(v, [], k, room) && p == Dotted(path, [], k) by { JustTheKey(path, k); }
        } else {
          var f :| f in fields && p in Collected(f.value, JoinPath(path, f.name), depth + 1);
          CollectedHolds(f.value, JoinPath(path, f.name), depth + 1, p);
          var route, key :| Holds(f.value, route, key, room - 1) && p == Dotted(JoinPath(path, f.name), route, key);
          OneFieldDown(v, f, path, route, key, room);
        }
      case Slice(items) =>
        var w :| w in items && p in Collected(w, path, depth + 1);
        CollectedHolds(w, path, depth + 1, p);
        var route, key :| Holds(w, route, key, room - 1) && p == Dotted(path, route, key);
        assert Holds(v, route, key, room);
      case Map(entries) =>
        var k :| k in entries && p in Collected(entries[k], path, depth + 1);
        CollectedHolds(entries[k], path, depth + 1, p);
        var route, key :| Holds(entries[k], route, key, room - 1) && p == Dotted(path, route, key);
        assert Holds(v, route, key, room);
    }
  }

  lemma {:induction false} HoldsCollected(v: GoValue, path: string, depth: nat, route: seq<string>, key: string)
    requires depth <= MAX_DEPTH && Holds(v, route, key, MAX_DEPTH - depth)
    ensures Dotted(path, route, key) in Collected(v, path, depth)
    decreases v
  {
    var room, below := MAX_DEPTH - depth, depth + 1;
    match v {
      case Ptr(elem) => HoldsCollected(elem, path, depth, route, key);
      case Struct(fields, extra) =>
        if route != [] {
          var f :| f in fields && f.name == route[0] && Holds(f.value, route[1..], key, room - 1);
          HoldsCollected(f.value, JoinPath(path, f.name), depth + 1, route[1..], key);
          assert Dotted(path, route, key) in Collected(f.value, JoinPath(path, f.name), below);
        }
      case Slice(items) =>
        var w :| w in items && Holds(w, route, key, room - 1);
        HoldsCollected(w, path, depth + 1, route, key);
        assert Dotted(path, route, key) in Collected(w, path, below);
      case Map(entries) =>
        var k :| k in entries && Holds(entries[k], route, key, room - 1);
        HoldsCollected(entries[k], path, depth + 1, route, key);
        assert Dotted(path, route, key) in Collected(entries[k], path, below);
    }
  }

  /** The result is exactly the dotted paths of the keys held in some `Extra` at most 64 steps down. */
  lemma CollectedExactly(v: GoValue, p: string)
    ensures p in Collected(v, "", 0) <==> exists route, key :: Holds(v, route, key, 64) && p == Dotted("", route, key)
  {
    if p in Collected(v, "", 0) {
      CollectedHolds(v, "", 0, p);
    }
    if route, key :| Holds(v, route, key, 64) && p == Dotted("", route, key) {
      HoldsCollected(v, "", 0, route, key);
    }
  }

  // ----- What the result does not depend on -----

  /** Every shape in `v` occurs in `w`: slice elements may be permuted, repeated, or more. */
  ghost predicate Embeds(v: GoValue, w: GoValue)
    decreases v
  {
    match v
    case Ptr(elem) => w.Ptr? && Embeds(elem, w.elem)
    case Struct(fields, extra) =>
      && w.Struct? && extra <= w.extra && |fields| == |w.fields|
      && forall i :: 0 <= i < |fields| ==>
           fields[i].name == w.fields[i].name && Embeds(fields[i].value, w.fields[i].value)
    case Slice(items) => w.Slice? && forall x :: x in items ==> exists y :: y in w.items && Embeds(x, y)
    case Map(entries) => w.Map? && forall k :: k in entries ==> k in w.entries && Embeds(entries[k], w.entries[k])
    case _ => v == w
  }

  lemma {:induction false} EmbedsCollected(v: GoValue, w: GoValue, path: string, depth: nat)
    requires Embeds(v, w)
    ensures Collected(v, path, depth) <= Collected(w, path, depth)
    decreases v
  {
    if depth <= MAX_DEPTH {
      match v {
        case Ptr(elem) => EmbedsCollected(elem, w.elem, path, depth);
        case Struct(fields, extra) =>
          forall i | 0 <= i < |fields|
            ensures Collected(fields[i].value, JoinPath(path, fields[i].name), depth + 1)
                    <= Collected(w.fields[i].value, JoinPath(path, w.fields[i].name), depth + 1)
          {
            EmbedsCollected(fields[i].value, w.fields[i].value, JoinPath(path, fields[i].name), depth + 1);
          }
          StructMono(v, w, path, depth);
        case Slice(items) =>
          forall x, p | x in items && p in Collected(x, path, depth + 1) ensures p in Collected(w, path, depth) {
            var y :| y in w.items && Embeds(x, y);
            EmbedsCollected(x, y, path, depth + 1);
          }
        case Map(entries) =>
          forall k | k in entries
            ensures Collected(entries[k], path, depth + 1) <= Collected(w.entries[k], path, depth + 1)
          {
            EmbedsCollected(entries[k], w.entries[k], path, depth + 1);
          }
        case _ =>
      }
    }
  }

  lemma StructMono(v: GoValue, w: GoValue, path: string, depth: nat)
    requires v.Struct? && w.Struct? && v.extra <= w.extra && |v.fields| == |w.fields| && depth <= MAX_DEPTH
    requires forall i :: 0 <= i < |v.fields| ==>
      Collected(v.fields[i].value, JoinPath(path, v.fields[i].name), depth + 1)
      <= Collected(w.fields[i].value, JoinPath(path, w.fields[i].name), depth + 1)
    ensures Collected(v, path, depth) <= Collected(w, path, depth)
  {
    forall p | p in Collected(v, path, depth) ensures p in Collected(w, path, depth) {
      if f :| f in v.fields && p in Collected(f.value, JoinPath(path, f.name), depth + 1) {
        var i :| 0 <= i < |v.fields| && v.fields[i] == f;
        var g := w.fields[i];
        assert g in w.fields && p in Collected(g.value, JoinPath(path, g.name), depth + 1);
      }
    }
  }

  /** Reordering or repeating slice elements, anywhere in the tree, changes nothing. */
  lemma OrderAndRepetitionIrrelevant(v: GoValue, w: GoValue)
    requires Embeds(v, w) && Embeds(w, v)
    ensures Collected(v, "", 0) == Collected(w, "", 0)
  {
    EmbedsCollected(v, w, "", 0);
    EmbedsCollected(w, v, "", 0);
  }

  lemma {:induction false} EmbedsSelf(v: GoValue)
    ensures Embeds(v, v)
    decreases v
  {
    match v {
      case Ptr(elem) => EmbedsSelf(elem);
      case Struct(fields, _) =>
        forall i | 0 <= i < |fields| ensures Embeds(fields[i].value, fields[i].value) {
          EmbedsSelf(fields[i].value);
        }
      case Slice(items) => forall x | x in items ensures Embeds(x, x) { EmbedsSelf(x); }
      case Map(entries) => forall k | k in entries ensures Embeds(entries[k], entries[k]) { EmbedsSelf(entries[k]); }
      case _ =>
    }
  }

  /** The case of one slice: only which elements occur matters. */
  lemma SliceAsSet(items: seq<GoValue>, items': seq<GoValue>)
    requires forall x :: x in items <==> x in items'
    ensures Collected(Slice(items), "", 0) == Collected(Slice(items'), "", 0)
  {
    forall x | x in items ensures Embeds(x, x) { EmbedsSelf(x); }
    OrderAndRepetitionIrrelevant(Slice(items), Slice(items'));
  }

  // ----- Decoded objects -----

  /** A struct with scalar fields, fresh from `UnmarshalDynamic`. */
  function FlatStruct(schema: Schema, obj: Object): GoValue {
    Struct(seq(|schema|, i requires 0 <= i < |schema| => Field(schema[i].name, Scalar)), DecodedExtra(schema, obj).Keys)
  }

  /** What is reported of it is what the wire object has beyond the schema. */
  lemma FlatReportsUnknownKeys(schema: Schema, obj: Object)
    ensures Collected(FlatStruct(schema, obj), "", 0) == obj.Keys - Names(schema)
  {
    var v := FlatStruct(schema, obj);
    assert forall f :: f in v.fields ==> Collected(f.value, JoinPath("", f.name), 1) == {};
    assert (set k | k in v.extra :: JoinPath("", k)) == v.extra;
  }
}
