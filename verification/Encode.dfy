/**
 How a typed value becomes the tree the wire carries (transport_encode.go, emptyarray.go): a
 walk that keeps transported and promised values whole, an encoding/json round trip for
 everything else, and a rewrite that makes nil slices empty arrays.
 */
module Encode {
  import opened Wrappers
  import opened Reaches

  /** A Go value, beside the static type reflection gives it. */
  datatype Value =
    | Scalar(typ: string, text: Option<string>, quoted: Option<string>)
    | PointerTo(typ: string, to: Option<Value>)
    | Holding(typ: string, holds: Option<Value>)
    | SliceOf(typ: string, isNil: bool, items: seq<Value>)
    | ArrayOf(typ: string, items: seq<Value>)
    | MapOf(typ: string, isNil: bool, entries: map<string, Value>)
    | StructOf(typ: string, fields: seq<FieldValue>)

  /**
   One of the properties jsonFields lists for a struct: where it is, the value there unless an
   embedded pointer on the way is nil, whether its options drop this value, and `,string`.
   */
  datatype FieldValue = FieldValue(name: string, index: seq<nat>, reached: Option<Value>, omitted: bool, quoted: bool)

  /** What json.Unmarshal makes of a document. */
  datatype Json = Null | Atom(text: string) | List(items: seq<Json>) | Object(props: map<string, Json>)

  /** What the walk makes: the same, around Go values it kept whole. */
  datatype Tree = Plain(json: Json) | Items(items: seq<Tree>) | Props(props: map<string, Tree>) | Kept(value: Value)

  /**
   What the code asks reflection and encoding/json: the types of kind uint8 and of kind string, the
   types that marshal themselves and what they write, the base64 of a byte slice, and which promises
   were never made.
   */
  datatype Env = Env(
    graph: Graph,
    promises: bool,
    bytes: set<string>,
    strings: set<string>,
    marshals: set<string>,
    own: Value -> Option<Json>,
    base64: seq<Value> -> string,
    zero: Value -> bool)

  predicate IsEarly(e: Env, v: Value) {
    Early(e.graph, e.promises, v.typ)
  }

  predicate IsBytes(e: Env, typ: string) {
    typ in e.graph.shapes && e.graph.shapes[typ].Slice? && e.graph.shapes[typ].elem in e.bytes
  }

  predicate StringKeys(e: Env, typ: string) {
    typ in e.graph.shapes && e.graph.shapes[typ].Map? && e.graph.shapes[typ].key in e.strings
  }

  /** A property that is written: its value is reached and its options do not drop it. */
  predicate IsWritten(f: FieldValue) {
    f.reached.Some? && !f.omitted
  }

  // ---------------------------------------------------------------- collecting parts that may fail

  function AllSome<T>(s: seq<Option<T>>): Option<seq<T>> {
    if forall i :: 0 <= i < |s| ==> s[i].Some? then Some(seq(|s|, i requires 0 <= i < |s| => s[i].value)) else None
  }

  function AllSomeOf<T>(m: map<string, Option<T>>): Option<map<string, T>> {
    if forall k :: k in m ==> m[k].Some? then Some(map k | k in m :: m[k].value) else None
  }

  /** The object made of the written properties, in the order they are listed. */
  function Assemble<T>(fields: seq<FieldValue>, outs: seq<Option<T>>): Option<map<string, T>>
    requires |fields| == |outs|
  {
    if fields == [] then Some(map[])
    else
      var n := |fields| - 1;
      var before := Assemble(fields[..n], outs[..n]);
      if !IsWritten(fields[n]) then before
      else if before.Some? && outs[n].Some? then Some(before.value[fields[n].name := outs[n].value])
      else None
  }

  /** What the assembled object is, for properties of distinct names. */
  lemma {:induction false} AssembleIs<T>(fields: seq<FieldValue>, outs: seq<Option<T>>)
    requires |fields| == |outs| && DistinctNames(fields)
    ensures Assemble(fields, outs).Some? <==> forall i :: 0 <= i < |fields| && IsWritten(fields[i]) ==> outs[i].Some?
    ensures Assemble(fields, outs).Some? ==>
      && (forall i :: 0 <= i < |fields| && IsWritten(fields[i]) ==>
            fields[i].name in Assemble(fields, outs).value &&
            Assemble(fields, outs).value[fields[i].name] == outs[i].value)
      && (forall k :: k in Assemble(fields, outs).value ==> WrittenName(fields, k))
  {
    if fields != [] {
      var n := |fields| - 1;
      AssembleIs(fields[..n], outs[..n]);
      assert forall i :: 0 <= i < n ==> fields[..n][i] == fields[i] && outs[..n][i] == outs[i];
      if Assemble(fields, outs).Some? {
        forall k | k in Assemble(fields, outs).value ensures WrittenName(fields, k) {
          if k in Assemble(fields[..n], outs[..n]).value {
            assert WrittenName(fields[..n], k);
          }
        }
      }
    }
  }

  predicate WrittenName(fields: seq<FieldValue>, k: string) {
    exists i :: 0 <= i < |fields| && IsWritten(fields[i]) && fields[i].name == k
  }

  predicate DistinctNames(fields: seq<FieldValue>) {
    forall i, j :: 0 <= i < j < |fields| ==> fields[i].name != fields[j].name
  }

  // ---------------------------------------------------------------- encoding/json

  /** `,string` applies to a scalar or a pointer to one, when neither marshals itself. */
  predicate Quotes(e: Env, v: Value) {
    && v.typ !in e.marshals
    && (v.Scalar? || (v.PointerTo? && v.to.Some? && v.to.value.Scalar? && v.to.value.typ !in e.marshals))
  }

  function QuotedText(e: Env, v: Value): Option<Json>
    requires Quotes(e, v)
  {
    var text := if v.Scalar? then v.quoted else v.to.value.quoted;
    if text.Some? then Some(Atom(text.value)) else None
  }

  function ListOf(parts: seq<Option<Json>>): Option<Json> {
    var all := AllSome(parts);
    if all.Some? then Some(List(all.value)) else None
  }

  function ObjectOf(props: Option<map<string, Json>>): Option<Json> {
    if props.Some? then Some(Object(props.value)) else None
  }

  /** The JSON of a value, as json.Marshal and json.Unmarshal leave it. */
  function RoundTrip(e: Env, v: Value): Option<Json>
    decreases v, 1
  {
    if v.typ in e.marshals then e.own(v)
    else
      match v
      case Scalar(_, text, _) => if text.Some? then Some(Atom(text.value)) else None
      case PointerTo(_, to) => if to.Some? then RoundTrip(e, to.value) else Some(Null)
      case Holding(_, holds) => if holds.Some? then RoundTrip(e, holds.value) else Some(Null)
      case SliceOf(_, isNil, items) =>
        if isNil then Some(Null)
        else if IsBytes(e, v.typ) then Some(Atom(e.base64(items)))
        else ListOf(ItemsRoundTrip(e, v))
      case ArrayOf(_, _) => ListOf(ItemsRoundTrip(e, v))
      case MapOf(_, isNil, _) => if isNil then Some(Null) else ObjectOf(AllSomeOf(EntriesRoundTrip(e, v)))
      case StructOf(_, fields) => ObjectOf(Assemble(fields, FieldsRoundTrip(e, v)))
  }

  function ItemsRoundTrip(e: Env, v: Value): (r: seq<Option<Json>>)
    requires v.SliceOf? || v.ArrayOf?
    ensures |r| == |v.items|
    ensures forall i :: 0 <= i < |v.items| ==> r[i] == RoundTrip(e, v.items[i])
    decreases v, 0
  {
    seq(|v.items|, i requires 0 <= i < |v.items| => RoundTrip(e, v.items[i]))
  }

  function EntriesRoundTrip(e: Env, v: Value): (r: map<string, Option<Json>>)
    requires v.MapOf?
    ensures r.Keys == v.entries.Keys
    ensures forall k :: k in v.entries ==> r[k] == RoundTrip(e, v.entries[k])
    decreases v, 0
  {
    map k | k in v.entries :: RoundTrip(e, v.entries[k])
  }

  function FieldsRoundTrip(e: Env, v: Value): (r: seq<Option<Json>>)
    requires v.StructOf?
    ensures |r| == |v.fields|
    ensures forall i :: 0 <= i < |v.fields| ==> r[i] == FieldRoundTrip(e, v.fields[i])
    decreases v, 0
  {
    seq(|v.fields|, i requires 0 <= i < |v.fields| => FieldRoundTrip(e, v.fields[i]))
  }

  function FieldRoundTrip(e: Env, f: FieldValue): Option<Json>
    decreases f, 0
  {
    if f.reached.None? then None
    else if f.quoted && Quotes(e, f.reached.value) then QuotedText(e, f.reached.value)
    else RoundTrip(e, f.reached.value)
  }

  /** The same, by an encoder that writes `[]` for a nil slice that is not a byte slice. */
  function OnePass(e: Env, v: Value): Option<Json>
    decreases v, 1
  {
    if v.typ in e.marshals then e.own(v)
    else
      match v
      case Scalar(_, text, _) => if text.Some? then Some(Atom(text.value)) else None
      case PointerTo(_, to) => if to.Some? then OnePass(e, to.value) else Some(Null)
      case Holding(_, holds) => if holds.Some? then OnePass(e, holds.value) else Some(Null)
      case SliceOf(_, isNil, items) =>
        if IsBytes(e, v.typ) then Some(if isNil then Null else Atom(e.base64(items)))
        else if isNil then Some(List([]))
        else ListOf(ItemsOnePass(e, v))
      case ArrayOf(_, _) => ListOf(ItemsOnePass(e, v))
      case MapOf(_, isNil, _) => if isNil then Some(Null) else ObjectOf(AllSomeOf(EntriesOnePass(e, v)))
      case StructOf(_, fields) => ObjectOf(Assemble(fields, FieldsOnePass(e, v)))
  }

  function ItemsOnePass(e: Env, v: Value): (r: seq<Option<Json>>)
    requires v.SliceOf? || v.ArrayOf?
    ensures |r| == |v.items|
    ensures forall i :: 0 <= i < |v.items| ==> r[i] == OnePass(e, v.items[i])
    decreases v, 0
  {
    seq(|v.items|, i requires 0 <= i < |v.items| => OnePass(e, v.items[i]))
  }

  function EntriesOnePass(e: Env, v: Value): (r: map<string, Option<Json>>)
    requires v.MapOf?
    ensures r.Keys == v.entries.Keys
    ensures forall k :: k in v.entries ==> r[k] == OnePass(e, v.entries[k])
    decreases v, 0
  {
    map k | k in v.entries :: OnePass(e, v.entries[k])
  }

  function FieldsOnePass(e: Env, v: Value): (r: seq<Option<Json>>)
    requires v.StructOf?
    ensures |r| == |v.fields|
    ensures forall i :: 0 <= i < |v.fields| ==> r[i] == FieldOnePass(e, v.fields[i])
    decreases v, 0
  {
    seq(|v.fields|, i requires 0 <= i < |v.fields| => FieldOnePass(e, v.fields[i]))
  }

  function FieldOnePass(e: Env, f: FieldValue): Option<Json>
    decreases f, 0
  {
    if f.reached.None? then None
    else if f.quoted && Quotes(e, f.reached.value) then QuotedText(e, f.reached.value)
    else OnePass(e, f.reached.value)
  }

  // ---------------------------------------------------------------- well-typed values

  /** The type found along an index chain, dereferencing an embedded pointer on the way. */
  function TypeAlong(g: Graph, typ: string, index: seq<nat>): Option<string>
    decreases |index|
  {
    if index == [] then Some(typ)
    else if typ !in g.shapes || !g.shapes[typ].Struct? || index[0] >= |g.shapes[typ].fields| ||
      Skipped(g.shapes[typ].fields[index[0]])
    then None
    else
      var t := g.shapes[typ].fields[index[0]].typ;
      if |index| > 1 && t in g.shapes && g.shapes[t].Pointer? then TypeAlong(g, g.shapes[t].elem, index[1..])
      else TypeAlong(g, t, index[1..])
  }

  /** The value is one reflection could describe: each part has the type its place declares. */
  ghost predicate WellTyped(e: Env, v: Value)
    decreases v
  {
    && v.typ in e.graph.shapes
    && var shape := e.graph.shapes[v.typ];
       match v
       case Scalar(_, _, _) => shape.Basic?
       case PointerTo(_, to) => shape.Pointer? && (to.Some? ==> to.value.typ == shape.elem && WellTyped(e, to.value))
       case Holding(_, holds) => shape.Interface? && (holds.Some? ==> WellTyped(e, holds.value))
       case SliceOf(_, isNil, items) =>
         && shape.Slice? && (isNil ==> items == [])
         && forall i :: 0 <= i < |items| ==> items[i].typ == shape.elem && WellTyped(e, items[i])
       case ArrayOf(_, items) =>
         shape.Array? && forall i :: 0 <= i < |items| ==> items[i].typ == shape.elem && WellTyped(e, items[i])
       case MapOf(_, isNil, entries) =>
         && shape.Map? && (isNil ==> entries == map[])
         && forall k :: k in entries ==> entries[k].typ == shape.elem && WellTyped(e, entries[k])
       case StructOf(_, fields) =>
         shape.Struct? && DistinctNames(fields) && forall i :: 0 <= i < |fields| ==> WellPlaced(e, v.typ, fields[i])
  }

  ghost predicate WellPlaced(e: Env, typ: string, f: FieldValue)
    decreases f
  {
    f.reached.Some? ==> TypeAlong(e.graph, typ, f.index) == Some(f.reached.value.typ) && WellTyped(e, f.reached.value)
  }

  // ---------------------------------------------------------------- emptyArrays

  /**
   emptyArrays: over the round trip of a value, the rewrite is the encoder that writes `[]` for nil
   slices in the first place.
   */
  method EmptyArrays(e: Env, v: Value, tree: Json) returns (r: Json)
    requires WellTyped(e, v)
    ensures RoundTrip(e, v) == Some(tree) ==> OnePass(e, v) == Some(r)
    ensures v.Scalar? || (v.PointerTo? && v.to.Some? && v.to.value.Scalar?) ==> r == tree
    decreases v
  {
    if v.typ in e.marshals {
      return tree;
    }
    match v
    case Scalar(_, _, _) =>
      return tree;
    case PointerTo(_, to) =>
      if to.None? {
        return tree;
      }
      r := EmptyArrays(e, to.value, tree);
    case Holding(_, holds) =>
      if holds.None? {
        return tree;
      }
      r := EmptyArrays(e, holds.value, tree);
    case SliceOf(_, isNil, items) =>
      if IsBytes(e, v.typ) {
        return tree;
      }
      if tree == Null && isNil {
        return List([]);
      }
      if !tree.List? || |tree.items| != |items| {
        ListIsNot(ItemsRoundTrip(e, v), tree);
        return tree;
      }
      var out := EmptyItems(e, v, tree.items);
      ListIs(ItemsRoundTrip(e, v), tree.items);
      ListIs(ItemsOnePass(e, v), out);
      return List(out);
    case ArrayOf(_, items) =>
      if !tree.List? || |tree.items| != |items| {
        ListIsNot(ItemsRoundTrip(e, v), tree);
        return tree;
      }
      var out := EmptyItems(e, v, tree.items);
      ListIs(ItemsRoundTrip(e, v), tree.items);
      ListIs(ItemsOnePass(e, v), out);
      return List(out);
    case MapOf(_, _, _) =>
      if !tree.Object? {
        return tree;
      }
      var out := EmptyEntries(e, v, tree.props);
      ObjectIs(EntriesRoundTrip(e, v), tree.props);
      ObjectIs(EntriesOnePass(e, v), out);
      return Object(out);
    case StructOf(_, fields) =>
      if !tree.Object? {
        return tree;
      }
      var out := EmptyArrayFields(e, v, tree.props);
      StructIs(fields, FieldsRoundTrip(e, v), tree.props);
      StructIs(fields, FieldsOnePass(e, v), out);
      return Object(out);
  }

  lemma ListIsNot(parts: seq<Option<Json>>, tree: Json)
    requires !tree.List? || |tree.items| != |parts|
    ensures ListOf(parts) != Some(tree)
  {
    if tree.List? {
      ListIs(parts, tree.items);
    }
  }

  lemma ListIs(parts: seq<Option<Json>>, all: seq<Json>)
    ensures ListOf(parts) == Some(List(all)) <==>
      |parts| == |all| && forall i :: 0 <= i < |parts| ==> parts[i] == Some(all[i])
  {
    if |parts| == |all| && forall i :: 0 <= i < |parts| ==> parts[i] == Some(all[i]) {
      assert AllSome(parts).value == all;
    }
  }

  lemma ObjectIs(parts: map<string, Option<Json>>, all: map<string, Json>)
    ensures ObjectOf(AllSomeOf(parts)) == Some(Object(all)) <==>
      parts.Keys == all.Keys && forall k :: k in parts ==> parts[k] == Some(all[k])
  {
    if AllSomeOf(parts).Some? {
      var made := AllSomeOf(parts).value;
      assert made.Keys == parts.Keys;
      if parts.Keys == all.Keys && forall k :: k in parts ==> parts[k] == Some(all[k]) {
        assert made == all;
      }
    }
  }

  lemma StructIs(fields: seq<FieldValue>, outs: seq<Option<Json>>, all: map<string, Json>)
    requires |fields| == |outs| && DistinctNames(fields)
    ensures ObjectOf(Assemble(fields, outs)) == Some(Object(all)) <==>
      && (forall i :: 0 <= i < |fields| && IsWritten(fields[i]) ==>
        fields[i].name in all && outs[i] == Some(all[fields[i].name]))
      && (forall k :: k in all ==> WrittenName(fields, k))
  {
    AssembleIs(fields, outs);
    if (forall i :: 0 <= i < |fields| && IsWritten(fields[i]) ==>
      fields[i].name in all && outs[i] == Some(all[fields[i].name]))
       && (forall k :: k in all ==> WrittenName(fields, k)) {
      var m := Assemble(fields, outs).value;
      assert m.Keys == all.Keys;
      assert m == all;
    }
  }

  /** The loop over a list's items, each overwritten in turn. */
  method EmptyItems(e: Env, v: Value, items: seq<Json>) returns (out: seq<Json>)
    requires (v.SliceOf? || v.ArrayOf?) && WellTyped(e, v) && |v.items| == |items|
    ensures |out| == |items|
    ensures forall i :: 0 <= i < |items| && RoundTrip(e, v.items[i]) == Some(items[i]) ==>
      OnePass(e, v.items[i]) == Some(out[i])
    decreases v, 0
  {
    out := items;
    for i := 0 to |items|
      invariant |out| == |items|
      invariant forall k :: i <= k < |items| ==> out[k] == items[k]
      invariant forall k :: 0 <= k < i && RoundTrip(e, v.items[k]) == Some(items[k]) ==>
        OnePass(e, v.items[k]) == Some(out[k])
    {
      var item := EmptyArrays(e, v.items[i], out[i]);
      out := out[i := item];
    }
  }

  /** The loop over a map's entries, in whatever order. */
  method EmptyEntries(e: Env, v: Value, props: map<string, Json>) returns (out: map<string, Json>)
    requires v.MapOf? && WellTyped(e, v)
    ensures out.Keys == props.Keys
    ensures forall k :: k in v.entries && k in props && RoundTrip(e, v.entries[k]) == Some(props[k]) ==>
      OnePass(e, v.entries[k]) == Some(out[k])
    decreases v, 0
  {
    out := props;
    var left := v.entries.Keys;
    while left != {}
      invariant left <= v.entries.Keys && out.Keys == props.Keys
      invariant forall k :: k in left && k in props ==> out[k] == props[k]
      invariant forall k ::
        k in v.entries && k !in left && k in props && RoundTrip(e, v.entries[k]) == Some(props[k]) ==>
        OnePass(e, v.entries[k]) == Some(out[k])
      decreases |left|
    {
      var k :| k in left;
      left := left - {k};
      if k in out {
        var item := EmptyArrays(e, v.entries[k], out[k]);
        out := out[k := item];
      }
    }
  }

  /** emptyArrayFields: the property each listed field produced, where it produced one. */
  method EmptyArrayFields(e: Env, v: Value, props: map<string, Json>) returns (out: map<string, Json>)
    requires v.StructOf? && WellTyped(e, v)
    ensures out.Keys == props.Keys
    ensures forall i :: 0 <= i < |v.fields| && IsWritten(v.fields[i]) && v.fields[i].name in props ==>
      FieldRoundTrip(e, v.fields[i]) == Some(props[v.fields[i].name]) ==>
        FieldOnePass(e, v.fields[i]) == Some(out[v.fields[i].name])
    decreases v, 0
  {
    out := props;
    var fields := v.fields;
    for i := 0 to |fields|
      invariant out.Keys == props.Keys
      invariant forall k :: i <= k < |fields| && fields[k].name in props ==>
        out[fields[k].name] == props[fields[k].name]
      invariant forall k :: 0 <= k < i && IsWritten(fields[k]) && fields[k].name in props ==>
        FieldRoundTrip(e, fields[k]) == Some(props[fields[k].name]) ==>
          FieldOnePass(e, fields[k]) == Some(out[fields[k].name])
    {
      var f := fields[i];
      if f.name !in out || f.reached.None? {
        continue;
      }
      assert WellPlaced(e, v.typ, f);
      var item := EmptyArrays(e, f.reached.value, out[f.name]);
      out := out[f.name := item];
    }
  }

  /** encodeValue. */
  method EncodeValue(e: Env, v: Value) returns (r: Option<Json>)
    requires WellTyped(e, v)
    ensures r == OnePass(e, v)
  {
    Corrected(e, v);
    var tree := RoundTrip(e, v);
    if tree.None? {
      return None;
    }
    var out := EmptyArrays(e, v, tree.value);
    return Some(out);
  }

  /** One tree is another in which some nulls have become empty arrays. */
  predicate OnlyEmpties(a: Json, b: Json)
    decreases a
  {
    || a == b
    || (a == Null && b == List([]))
    || (a.List? && b.List? && |a.items| == |b.items| && forall i :: 0 <= i < |a.items| ==>
      OnlyEmpties(a.items[i], b.items[i]))
    || (a.Object? && b.Object? && a.props.Keys == b.props.Keys && forall k :: k in a.props ==>
      OnlyEmpties(a.props[k], b.props[k]))
  }

  /** The correction never fails, and it changes nothing but nulls, which become empty arrays. */
  lemma {:induction false} Corrected(e: Env, v: Value)
    requires WellTyped(e, v)
    ensures RoundTrip(e, v).Some? <==> OnePass(e, v).Some?
    ensures RoundTrip(e, v).Some? ==> OnlyEmpties(RoundTrip(e, v).value, OnePass(e, v).value)
    decreases v
  {
    if v.typ !in e.marshals {
      match v
      case Scalar(_, _, _) =>
      case PointerTo(_, to) =>
        if to.Some? { Corrected(e, to.value); }
      case Holding(_, holds) =>
        if holds.Some? { Corrected(e, holds.value); }
      case SliceOf(_, _, items) =>
        forall i | 0 <= i < |items|
          ensures RoundTrip(e, items[i]).Some? <==> OnePass(e, items[i]).Some?
          ensures RoundTrip(e, items[i]).Some? ==> OnlyEmpties(RoundTrip(e, items[i]).value, OnePass(e, items[i]).value)
        {
          Corrected(e, items[i]);
        }
      case ArrayOf(_, items) =>
        forall i | 0 <= i < |items|
          ensures RoundTrip(e, items[i]).Some? <==> OnePass(e, items[i]).Some?
          ensures RoundTrip(e, items[i]).Some? ==> OnlyEmpties(RoundTrip(e, items[i]).value, OnePass(e, items[i]).value)
        {
          Corrected(e, items[i]);
        }
      case MapOf(_, _, entries) =>
        forall k | k in entries
          ensures RoundTrip(e, entries[k]).Some? <==> OnePass(e, entries[k]).Some?
          ensures RoundTrip(e, entries[k]).Some? ==>
            OnlyEmpties(RoundTrip(e, entries[k]).value, OnePass(e, entries[k]).value)
        {
          Corrected(e, entries[k]);
        }
      case StructOf(_, fields) =>
        CorrectedFields(e, v);
    }
  }

  lemma {:induction false} CorrectedFields(e: Env, v: Value)
    requires v.StructOf? && v.typ !in e.marshals && WellTyped(e, v)
    ensures RoundTrip(e, v).Some? <==> OnePass(e, v).Some?
    ensures RoundTrip(e, v).Some? ==> OnlyEmpties(RoundTrip(e, v).value, OnePass(e, v).value)
    decreases v, 0
  {
    var fields, was, now := v.fields, FieldsRoundTrip(e, v), FieldsOnePass(e, v);
    forall i | 0 <= i < |fields| && IsWritten(fields[i])
      ensures was[i].Some? <==> now[i].Some?
      ensures was[i].Some? ==> OnlyEmpties(was[i].value, now[i].value)
    {
      assert WellPlaced(e, v.typ, fields[i]);
      Corrected(e, fields[i].reached.value);
    }
    AssembleIs(fields, was);
    AssembleIs(fields, now);
    if Assemble(fields, was).Some? {
      var a, b := Assemble(fields, was).value, Assemble(fields, now).value;
      forall k | k in a ensures k in b && OnlyEmpties(a[k], b[k]) {
        assert WrittenName(fields, k);
      }
      forall k | k in b ensures k in a {
        assert WrittenName(fields, k);
      }
    }
  }
}
