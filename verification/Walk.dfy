/**
 encodeTree's walk (transport_encode.go): it descends only into values whose type can reach a
 transported or promised one, keeps those whole, and hands everything else to encodeValue.
 */
module Walk {
  import opened Wrappers
  import opened Reaches
  import opened Encode

  // ---------------------------------------------------------------- the walk

  ghost predicate Reaching(e: Env, v: Value) {
    Reachable(e.graph, e.promises, v.typ)
  }

  function PlainOf(j: Option<Json>): Option<Tree> {
    if j.Some? then Some(Plain(j.value)) else None
  }

  function ItemsOf(parts: seq<Option<Tree>>): Option<Tree> {
    var all := AllSome(parts);
    if all.Some? then Some(Items(all.value)) else None
  }

  function PropsOf(props: Option<map<string, Tree>>): Option<Tree> {
    if props.Some? then Some(Props(props.value)) else None
  }

  /** The tree the walk makes of a value, or None where it returns an error. */
  ghost function Walked(e: Env, v: Value): Option<Tree>
    decreases v, 1
  {
    if !Reaching(e, v) then PlainOf(OnePass(e, v))
    else if e.promises && v.typ in e.graph.promised then if e.zero(v) then None else Some(Kept(v))
    else if v.typ in e.graph.claimed then Some(Kept(v))
    else
      match v
      case Scalar(_, _, _) => PlainOf(OnePass(e, v))
      case PointerTo(_, to) => if to.Some? then Walked(e, to.value) else Some(Plain(Null))
      case Holding(_, holds) => if holds.Some? then Walked(e, holds.value) else Some(Plain(Null))
      case SliceOf(_, isNil, _) =>
        if !isNil then ItemsOf(ItemsWalked(e, v))
        else if IsBytes(e, v.typ) then Some(Plain(Null))
        else Some(Items([]))
      case ArrayOf(_, _) => ItemsOf(ItemsWalked(e, v))
      case MapOf(_, isNil, _) =>
        if isNil then Some(Plain(Null))
        else if !StringKeys(e, v.typ) then None
        else PropsOf(AllSomeOf(EntriesWalked(e, v)))
      case StructOf(_, fields) => PropsOf(Assemble(fields, FieldsWalked(e, v)))
  }

  ghost function ItemsWalked(e: Env, v: Value): (r: seq<Option<Tree>>)
    requires v.SliceOf? || v.ArrayOf?
    ensures |r| == |v.items|
    ensures forall i :: 0 <= i < |v.items| ==> r[i] == Walked(e, v.items[i])
    decreases v, 0
  {
    seq(|v.items|, i requires 0 <= i < |v.items| => Walked(e, v.items[i]))
  }

  ghost function EntriesWalked(e: Env, v: Value): (r: map<string, Option<Tree>>)
    requires v.MapOf?
    ensures r.Keys == v.entries.Keys
    ensures forall k :: k in v.entries ==> r[k] == Walked(e, v.entries[k])
    decreases v, 0
  {
    map k | k in v.entries :: Walked(e, v.entries[k])
  }

  ghost function FieldsWalked(e: Env, v: Value): (r: seq<Option<Tree>>)
    requires v.StructOf?
    ensures |r| == |v.fields|
    ensures forall i :: 0 <= i < |v.fields| ==> r[i] == FieldWalked(e, v.fields[i])
    decreases v, 0
  {
    seq(|v.fields|, i requires 0 <= i < |v.fields| => FieldWalked(e, v.fields[i]))
  }

  ghost function FieldWalked(e: Env, f: FieldValue): Option<Tree>
    decreases f, 0
  {
    if f.reached.None? then None else Walked(e, f.reached.value)
  }

  /** walk. */
  method WalkValue(encoder: TreeEncoder, e: Env, v: Value) returns (r: Option<Tree>)
    requires encoder.Valid() && encoder.graph == e.graph && WellTyped(e, v)
    modifies encoder
    ensures encoder.Valid()
    ensures r == Walked(e, v)
    decreases v, 1
  {
    var reaches := encoder.Reaches(e.promises, v.typ);
    if !reaches {
      var json := EncodeValue(e, v);
      return PlainOf(json);
    }
    if e.promises && v.typ in e.graph.promised {
      return if e.zero(v) then None else Some(Kept(v));
    }
    if v.typ in e.graph.claimed {
      return Some(Kept(v));
    }
    match v {
      case Scalar(_, _, _) =>
        var json := EncodeValue(e, v);
        return PlainOf(json);
      case PointerTo(_, to) =>
        if to.None? {
          return Some(Plain(Null));
        }
        r := WalkValue(encoder, e, to.value);
      case Holding(_, holds) =>
        if holds.None? {
          return Some(Plain(Null));
        }
        r := WalkValue(encoder, e, holds.value);
      case SliceOf(_, isNil, _) =>
        if isNil {
          return if IsBytes(e, v.typ) then Some(Plain(Null)) else Some(Items([]));
        }
        r := WalkItems(encoder, e, v);
      case ArrayOf(_, _) =>
        r := WalkItems(encoder, e, v);
      case MapOf(_, isNil, _) =>
        if isNil {
          return Some(Plain(Null));
        }
        if !StringKeys(e, v.typ) {
          return None;
        }
        r := WalkEntries(encoder, e, v);
      case StructOf(_, _) =>
        var props := StructFields(encoder, e, v);
        return PropsOf(props);
    }
  }

  method WalkItems(encoder: TreeEncoder, e: Env, v: Value) returns (r: Option<Tree>)
    requires encoder.Valid() && encoder.graph == e.graph && WellTyped(e, v)
    requires v.SliceOf? || v.ArrayOf?
    modifies encoder
    ensures encoder.Valid()
    ensures r == ItemsOf(ItemsWalked(e, v))
    decreases v, 0
  {
    var out: seq<Tree> := [];
    for i := 0 to |v.items|
      invariant encoder.Valid()
      invariant |out| == i && forall k :: 0 <= k < i ==> Walked(e, v.items[k]) == Some(out[k])
    {
      var item := WalkValue(encoder, e, v.items[i]);
      if item.None? {
        return None;
      }
      out := out + [item.value];
    }
    assert AllSome(ItemsWalked(e, v)).value == out;
    return Some(Items(out));
  }

  /** A map's entries, in whatever order. */
  method WalkEntries(encoder: TreeEncoder, e: Env, v: Value) returns (r: Option<Tree>)
    requires encoder.Valid() && encoder.graph == e.graph && WellTyped(e, v)
    requires v.MapOf?
    modifies encoder
    ensures encoder.Valid()
    ensures r == PropsOf(AllSomeOf(EntriesWalked(e, v)))
    decreases v, 0
  {
    var out: map<string, Tree> := map[];
    var left := v.entries.Keys;
    hide Walked, WellTyped, AllSomeOf;
    while left != {}
      invariant encoder.Valid()
      invariant left <= v.entries.Keys && out.Keys == v.entries.Keys - left
      invariant forall k :: k in out ==> Walked(e, v.entries[k]) == Some(out[k])
      decreases |left|
    {
      var k :| k in left;
      var item := WalkValue(encoder, e, v.entries[k]);
      if item.None? {
        return None;
      }
      left := left - {k};
      out := out[k := item.value];
    }
    AllCollected(EntriesWalked(e, v), out);
    return Some(Props(out));
  }

  lemma AllCollected(parts: map<string, Option<Tree>>, out: map<string, Tree>)
    requires parts.Keys == out.Keys && forall k :: k in out ==> parts[k] == Some(out[k])
    ensures AllSomeOf(parts) == Some(out)
  {
    assert AllSomeOf(parts).value == out;
  }

  /** structFields. */
  method StructFields(encoder: TreeEncoder, e: Env, v: Value) returns (r: Option<map<string, Tree>>)
    requires encoder.Valid() && encoder.graph == e.graph && WellTyped(e, v)
    requires v.StructOf?
    modifies encoder
    ensures encoder.Valid()
    ensures r == Assemble(v.fields, FieldsWalked(e, v))
    decreases v, 0
  {
    var obj: map<string, Tree> := map[];
    ghost var outs := FieldsWalked(e, v);
    AssembleIs(v.fields, outs);
    assert v.fields[..|v.fields|] == v.fields && outs[..|v.fields|] == outs;
    assert Assemble(v.fields[..0], outs[..0]) == Some(map[]);
    hide Walked, Assemble, WellTyped, WellPlaced;
    for i := 0 to |v.fields|
      invariant encoder.Valid()
      invariant Assemble(v.fields[..i], outs[..i]) == Some(obj)
    {
      var f := v.fields[i];
      AssembleNext(v.fields, outs, i);
      if f.reached.None? || f.omitted {
        continue;
      }
      PlacedField(e, v, i);
      var encoded := WalkValue(encoder, e, f.reached.value);
      if encoded.None? {
        return None;
      }
      obj := obj[f.name := encoded.value];
    }
    return Some(obj);
  }

  lemma PlacedField(e: Env, v: Value, i: nat)
    requires v.StructOf? && WellTyped(e, v) && i < |v.fields| && v.fields[i].reached.Some?
    ensures WellTyped(e, v.fields[i].reached.value)
  {
    assert WellPlaced(e, v.typ, v.fields[i]);
  }

  lemma AssembleNext<T>(fields: seq<FieldValue>, outs: seq<Option<T>>, i: nat)
    requires i < |fields| == |outs|
    ensures
      var before := Assemble(fields[..i], outs[..i]);
      Assemble(fields[..i + 1], outs[..i + 1]) ==
      if !IsWritten(fields[i]) then before
      else if before.Some? && outs[i].Some? then Some(before.value[fields[i].name := outs[i].value])
      else None
  {
    assert fields[..i + 1][..i] == fields[..i] && outs[..i + 1][..i] == outs[..i];
  }

  // ---------------------------------------------------------------- agreement with encodeValue

  /** Each kept value replaced by its plain encoding. */
  function Fill(e: Env, t: Tree): Option<Json>
    decreases t, 1
  {
    match t
    case Plain(json) => Some(json)
    case Kept(v) => OnePass(e, v)
    case Items(_) => ListOf(FillItems(e, t))
    case Props(_) => ObjectOf(AllSomeOf(FillProps(e, t)))
  }

  function FillItems(e: Env, t: Tree): (r: seq<Option<Json>>)
    requires t.Items?
    ensures |r| == |t.items| && forall i :: 0 <= i < |t.items| ==> r[i] == Fill(e, t.items[i])
    decreases t, 0
  {
    seq(|t.items|, i requires 0 <= i < |t.items| => Fill(e, t.items[i]))
  }

  function FillProps(e: Env, t: Tree): (r: map<string, Option<Json>>)
    requires t.Props?
    ensures r.Keys == t.props.Keys && forall k :: k in t.props ==> r[k] == Fill(e, t.props[k])
    decreases t, 0
  {
    map k | k in t.props :: Fill(e, t.props[k])
  }

  function Filled(e: Env, t: Option<Tree>): Option<Json> {
    if t.Some? then Fill(e, t.value) else None
  }

  /**
   Where the walk goes it finds nothing encoding/json would write another way: no type that marshals
   itself, no scalar under `,string`, no byte slice, no map with other keys than strings, no promise
   never made.
   */
  ghost predicate Agreeable(e: Env, v: Value)
    decreases v, 1
  {
    Reaching(e, v) ==>
      if e.promises && v.typ in e.graph.promised then !e.zero(v)
      else if v.typ in e.graph.claimed then true
      else
        && v.typ !in e.marshals
        && match v
           case Scalar(_, _, _) => true
           case PointerTo(_, to) => to.Some? ==> Agreeable(e, to.value)
           case Holding(_, holds) => holds.Some? ==> Agreeable(e, holds.value)
           case SliceOf(_, isNil, items) =>
             (IsBytes(e, v.typ) ==> isNil) && forall i :: 0 <= i < |items| ==> Agreeable(e, items[i])
           case ArrayOf(_, items) => forall i :: 0 <= i < |items| ==> Agreeable(e, items[i])
           case MapOf(_, isNil, entries) =>
             (StringKeys(e, v.typ) || isNil) && forall k :: k in entries ==> Agreeable(e, entries[k])
           case StructOf(_, fields) => forall i :: 0 <= i < |fields| && IsWritten(fields[i]) ==>
             AgreeableField(e, fields[i])
  }

  ghost predicate AgreeableField(e: Env, f: FieldValue)
    decreases f, 0
  {
    f.reached.Some? ==> !(f.quoted && Quotes(e, f.reached.value)) && Agreeable(e, f.reached.value)
  }

  /** The walk, its kept values filled in with their plain encodings, is encodeValue. */
  lemma {:induction false} FillingIsEncoding(e: Env, v: Value)
    requires WellTyped(e, v) && Agreeable(e, v)
    ensures Filled(e, Walked(e, v)) == OnePass(e, v)
    decreases v, 1
  {
    if Reaching(e, v) && !(e.promises && v.typ in e.graph.promised) && v.typ !in e.graph.claimed {
      match v
      case Scalar(_, _, _) =>
      case PointerTo(_, to) =>
        if to.Some? { FillingIsEncoding(e, to.value); }
      case Holding(_, holds) =>
        if holds.Some? { FillingIsEncoding(e, holds.value); }
      case SliceOf(_, isNil, _) =>
        if !isNil { FillingItems(e, v); } else { ListIs(FillItems(e, Items([])), []); }
      case ArrayOf(_, _) => FillingItems(e, v);
      case MapOf(_, isNil, _) =>
        if !isNil { FillingEntries(e, v); }
      case StructOf(_, _) => FillingFields(e, v);
    }
  }

  lemma {:induction false} FillingItems(e: Env, v: Value)
    requires v.SliceOf? || v.ArrayOf?
    requires WellTyped(e, v)
    requires forall i :: 0 <= i < |v.items| ==> Agreeable(e, v.items[i])
    ensures Filled(e, ItemsOf(ItemsWalked(e, v))) == ListOf(ItemsOnePass(e, v))
    decreases v, 0
  {
    var walked, plain := ItemsWalked(e, v), ItemsOnePass(e, v);
    forall i | 0 <= i < |v.items| ensures Filled(e, walked[i]) == plain[i] {
      FillingIsEncoding(e, v.items[i]);
    }
    if AllSome(walked).Some? {
      assert FillItems(e, Items(AllSome(walked).value)) == plain;
    } else {
      var i :| 0 <= i < |walked| && walked[i].None?;
      assert plain[i].None?;
    }
  }

  lemma {:induction false} FillingEntries(e: Env, v: Value)
    requires v.MapOf? && WellTyped(e, v)
    requires forall k :: k in v.entries ==> Agreeable(e, v.entries[k])
    ensures Filled(e, PropsOf(AllSomeOf(EntriesWalked(e, v)))) == ObjectOf(AllSomeOf(EntriesOnePass(e, v)))
    decreases v, 0
  {
    var walked, plain := EntriesWalked(e, v), EntriesOnePass(e, v);
    forall k | k in v.entries ensures Filled(e, walked[k]) == plain[k] {
      FillingIsEncoding(e, v.entries[k]);
    }
    FillingProps(e, walked, plain);
  }

  lemma FillingProps(e: Env, walked: map<string, Option<Tree>>, plain: map<string, Option<Json>>)
    requires walked.Keys == plain.Keys
    requires forall k :: k in walked ==> Filled(e, walked[k]) == plain[k]
    ensures Filled(e, PropsOf(AllSomeOf(walked))) == ObjectOf(AllSomeOf(plain))
  {
    if AllSomeOf(walked).Some? {
      assert FillProps(e, Props(AllSomeOf(walked).value)) == plain;
    } else {
      var k :| k in walked && walked[k].None?;
      assert plain[k].None?;
    }
  }

  lemma {:induction false} FillingFields(e: Env, v: Value)
    requires v.StructOf? && WellTyped(e, v)
    requires forall i :: 0 <= i < |v.fields| && IsWritten(v.fields[i]) ==> AgreeableField(e, v.fields[i])
    ensures Filled(e,
      PropsOf(Assemble(v.fields, FieldsWalked(e, v)))) == ObjectOf(Assemble(v.fields, FieldsOnePass(e, v)))
    decreases v, 0
  {
    var fields, walked, plain := v.fields, FieldsWalked(e, v), FieldsOnePass(e, v);
    forall i | 0 <= i < |fields| && IsWritten(fields[i]) ensures Filled(e, walked[i]) == plain[i] {
      assert WellPlaced(e, v.typ, fields[i]);
      FillingIsEncoding(e, fields[i].reached.value);
    }
    FillingAssembled(e, fields, walked, plain);
  }

  lemma FillingAssembled(e: Env, fields: seq<FieldValue>, walked: seq<Option<Tree>>, plain: seq<Option<Json>>)
    requires |fields| == |walked| == |plain| && DistinctNames(fields)
    requires forall i :: 0 <= i < |fields| && IsWritten(fields[i]) ==> Filled(e, walked[i]) == plain[i]
    ensures Filled(e, PropsOf(Assemble(fields, walked))) == ObjectOf(Assemble(fields, plain))
  {
    AssembleIs(fields, walked);
    AssembleIs(fields, plain);
    if Assemble(fields, walked).Some? {
      FillingObject(e, fields, walked, plain);
    } else {
      var i :| 0 <= i < |fields| && IsWritten(fields[i]) && walked[i].None?;
      assert plain[i].None?;
    }
  }

  lemma FillingObject(e: Env, fields: seq<FieldValue>, walked: seq<Option<Tree>>, plain: seq<Option<Json>>)
    requires |fields| == |walked| == |plain| && DistinctNames(fields)
    requires forall i :: 0 <= i < |fields| && IsWritten(fields[i]) ==> Filled(e, walked[i]) == plain[i]
    requires Assemble(fields, walked).Some?
    ensures Filled(e, PropsOf(Assemble(fields, walked))) == ObjectOf(Assemble(fields, plain))
  {
    AssembleIs(fields, walked);
    AssembleIs(fields, plain);
    var props := Assemble(fields, walked).value;
    var parts := FillProps(e, Props(props));
    assert Filled(e, PropsOf(Some(props))) == ObjectOf(AllSomeOf(parts));
    hide Fill, Assemble;
    forall i | 0 <= i < |fields| && IsWritten(fields[i]) ensures parts[fields[i].name] == plain[i] {
      assert fields[i].name in props;
    }
    forall k | k in parts ensures WrittenName(fields, k) {}
    if Assemble(fields, plain).Some? {
      FillingNames(e, fields, walked, plain);
      ObjectIs(parts, Assemble(fields, plain).value);
    } else {
      var i :| 0 <= i < |fields| && IsWritten(fields[i]) && plain[i].None?;
      assert fields[i].name in parts;
    }
  }

  lemma FillingNames(e: Env, fields: seq<FieldValue>, walked: seq<Option<Tree>>, plain: seq<Option<Json>>)
    requires |fields| == |walked| == |plain| && DistinctNames(fields)
    requires forall i :: 0 <= i < |fields| && IsWritten(fields[i]) ==> Filled(e, walked[i]) == plain[i]
    requires Assemble(fields, walked).Some? && Assemble(fields, plain).Some?
    ensures
      var props, all := Assemble(fields, walked).value, Assemble(fields, plain).value;
      props.Keys == all.Keys && forall k :: k in props ==> Fill(e, props[k]) == Some(all[k])
  {
    AssembleIs(fields, walked);
    AssembleIs(fields, plain);
    hide Fill, Assemble;
    var props, all := Assemble(fields, walked).value, Assemble(fields, plain).value;
    forall k | k in props ensures k in all && Fill(e, props[k]) == Some(all[k]) {
      assert WrittenName(fields, k);
    }
    forall k | k in all ensures k in props {
      assert WrittenName(fields, k);
    }
  }

  // ---------------------------------------------------------------- exactly when they agree

  /** The walks of a struct's properties, their kept values filled in. */
  ghost function FieldsFilled(e: Env, v: Value): (r: seq<Option<Json>>)
    requires v.StructOf?
    ensures |r| == |v.fields|
  {
    seq(|v.fields|, i requires 0 <= i < |v.fields| => Filled(e, FieldWalked(e, v.fields[i])))
  }

  ghost function ItemsFilled(e: Env, v: Value): (r: seq<Option<Json>>)
    requires v.SliceOf? || v.ArrayOf?
    ensures |r| == |v.items|
  {
    seq(|v.items|, i requires 0 <= i < |v.items| => Filled(e, Walked(e, v.items[i])))
  }

  ghost function EntriesFilled(e: Env, v: Value): (r: map<string, Option<Json>>)
    requires v.MapOf?
    ensures r.Keys == v.entries.Keys
  {
    map k | k in v.entries :: Filled(e, Walked(e, v.entries[k]))
  }

  /** What the walk makes of a value's parts, their kept values filled in, put together again. */
  ghost function FilledParts(e: Env, v: Value): Option<Json> {
    match v
    case Scalar(_, _, _) => OnePass(e, v)
    case PointerTo(_, to) => if to.Some? then Filled(e, Walked(e, to.value)) else Some(Null)
    case Holding(_, holds) => if holds.Some? then Filled(e, Walked(e, holds.value)) else Some(Null)
    case SliceOf(_, isNil, _) =>
      if !isNil then ListOf(ItemsFilled(e, v)) else if IsBytes(e, v.typ) then Some(Null) else Some(List([]))
    case ArrayOf(_, _) => ListOf(ItemsFilled(e, v))
    case MapOf(_, isNil, _) =>
      if isNil then Some(Null) else if !StringKeys(e, v.typ) then None else ObjectOf(AllSomeOf(EntriesFilled(e, v)))
    case StructOf(_, fields) => ObjectOf(Assemble(fields, FieldsFilled(e, v)))
  }

  /** Where the walk goes into a value, it goes into its parts. */
  lemma WalksIntoParts(e: Env, v: Value)
    requires WellTyped(e, v) && Reaching(e, v) && !IsEarly(e, v)
    ensures Filled(e, Walked(e, v)) == FilledParts(e, v)
  {
    match v
    case Scalar(_, _, _) =>
    case PointerTo(_, _) =>
    case Holding(_, _) =>
    case SliceOf(_, isNil, _) =>
      if isNil {
        ListIs(FillItems(e, Items([])), []);
      } else {
        ItemsFill(e, v);
      }
    case ArrayOf(_, _) => ItemsFill(e, v);
    case MapOf(_, _, _) => FillingProps(e, EntriesWalked(e, v), EntriesFilled(e, v));
    case StructOf(_, fields) => FillingAssembled(e, fields, FieldsWalked(e, v), FieldsFilled(e, v));
  }

  lemma ItemsFill(e: Env, v: Value)
    requires v.SliceOf? || v.ArrayOf?
    ensures Filled(e, ItemsOf(ItemsWalked(e, v))) == ListOf(ItemsFilled(e, v))
  {
    var walked, filled := ItemsWalked(e, v), ItemsFilled(e, v);
    if AllSome(walked).Some? {
      assert FillItems(e, Items(AllSome(walked).value)) == filled;
    } else {
      var i :| 0 <= i < |walked| && walked[i].None?;
      assert filled[i].None?;
    }
  }

  /** The scalar a `,string` option quotes. */
  function ScalarOf(n: Value): Value
    requires n.Scalar? || (n.PointerTo? && n.to.Some?)
  {
    if n.Scalar? then n else n.to.value
  }

  /**
   The walk and encoding/json write the same: nothing the walk goes into is a promise never made, a
   byte slice, or a map with other keys than strings; a type that marshals itself writes what its
   parts are walked into; and a scalar under `,string` is quoted as itself.
   */
  ghost predicate Agrees(e: Env, v: Value)
    decreases v, 1
  {
    Reaching(e, v) ==>
      if e.promises && v.typ in e.graph.promised then !e.zero(v)
      else if v.typ in e.graph.claimed then true
      else if v.typ in e.marshals then e.own(v) == FilledParts(e, v)
      else
        match v
        case Scalar(_, _, _) => true
        case PointerTo(_, to) => to.Some? ==> Agrees(e, to.value)
        case Holding(_, holds) => holds.Some? ==> Agrees(e, holds.value)
        case SliceOf(_, isNil, items) =>
          (IsBytes(e, v.typ) ==> isNil) && forall i :: 0 <= i < |items| ==> Agrees(e, items[i])
        case ArrayOf(_, items) => forall i :: 0 <= i < |items| ==> Agrees(e, items[i])
        case MapOf(_, isNil, entries) =>
          (StringKeys(e, v.typ) || isNil) && forall k :: k in entries ==> Agrees(e, entries[k])
        case StructOf(_, fields) => forall i :: 0 <= i < |fields| && IsWritten(fields[i]) ==> AgreesField(e, fields[i])
  }

  ghost predicate AgreesField(e: Env, f: FieldValue)
    decreases f, 0
  {
    f.reached.Some? ==>
      && Agrees(e, f.reached.value)
      && (f.quoted && Quotes(e, f.reached.value) ==> ScalarOf(f.reached.value).text == ScalarOf(f.reached.value).quoted)
  }

  lemma ScalarAgrees(e: Env, n: Value, q: string)
    requires n.Scalar? && n.typ !in e.marshals
    ensures Filled(e, Walked(e, n)) == Some(Atom(q)) <==> Agrees(e, n) && n.text == Some(q)
  {
  }

  /** What is quoted agrees exactly where its scalar is quoted as itself. */
  lemma QuotedAgrees(e: Env, n: Value, q: string)
    requires Quotes(e, n)
    ensures Filled(e, Walked(e, n)) == Some(Atom(q)) <==> Agrees(e, n) && ScalarOf(n).text == Some(q)
  {
    ScalarAgrees(e, ScalarOf(n), q);
    if n.PointerTo? {
      assert OnePass(e, n) == OnePass(e, n.to.value);
    }
  }

  lemma ListsDiffer(a: seq<Option<Json>>, b: seq<Option<Json>>)
    requires |a| == |b| && ListOf(b).Some?
    ensures ListOf(a) == ListOf(b) <==> forall i :: 0 <= i < |a| ==> a[i] == b[i]
    ensures forall i :: 0 <= i < |b| ==> b[i].Some?
  {
    assert (forall i :: 0 <= i < |a| ==> a[i] == b[i]) ==> a == b;
    if ListOf(a) == ListOf(b) {
      var x, y := AllSome(a).value, AllSome(b).value;
      assert x == y;
      forall i | 0 <= i < |a| ensures a[i] == b[i] {
        assert x[i] == a[i].value && y[i] == b[i].value;
      }
    }
  }

  lemma ObjectsDiffer(a: map<string, Option<Json>>, b: map<string, Option<Json>>)
    requires a.Keys == b.Keys && ObjectOf(AllSomeOf(b)).Some?
    ensures ObjectOf(AllSomeOf(a)) == ObjectOf(AllSomeOf(b)) <==> forall k :: k in a ==> a[k] == b[k]
    ensures forall k :: k in b ==> b[k].Some?
  {
    assert (forall k :: k in a ==> a[k] == b[k]) ==> a == b;
    if ObjectOf(AllSomeOf(a)) == ObjectOf(AllSomeOf(b)) {
      var x, y := AllSomeOf(a).value, AllSomeOf(b).value;
      assert x == y;
      forall k | k in a ensures a[k] == b[k] {
        assert x[k] == a[k].value && y[k] == b[k].value;
      }
    }
  }

  lemma AssembledDiffer(fields: seq<FieldValue>, a: seq<Option<Json>>, b: seq<Option<Json>>)
    requires |fields| == |a| == |b| && DistinctNames(fields) && Assemble(fields, b).Some?
    ensures Assemble(fields, a) == Assemble(fields, b) <==>
      forall i :: 0 <= i < |fields| && IsWritten(fields[i]) ==> a[i] == b[i]
    ensures forall i :: 0 <= i < |fields| && IsWritten(fields[i]) ==> b[i].Some?
  {
    AssembleIs(fields, a);
    AssembleIs(fields, b);
    hide Assemble;
    if forall i :: 0 <= i < |fields| && IsWritten(fields[i]) ==> a[i] == b[i] {
      var x, y := Assemble(fields, a).value, Assemble(fields, b).value;
      forall k | k in x ensures k in y && x[k] == y[k] {
        assert WrittenName(fields, k);
      }
      forall k | k in y ensures k in x {
        assert WrittenName(fields, k);
      }
      assert x == y;
    }
  }

  /** For a value encoding/json can write: the walk writes the same exactly where the value agrees. */
  lemma {:induction false} AgreesExactly(e: Env, v: Value)
    requires WellTyped(e, v) && OnePass(e, v).Some?
    ensures Filled(e, Walked(e, v)) == OnePass(e, v) <==> Agrees(e, v)
    decreases v, 1
  {
    if Reaching(e, v) && !IsEarly(e, v) {
      WalksIntoParts(e, v);
      if v.typ !in e.marshals {
        match v
        case Scalar(_, _, _) =>
        case PointerTo(_, to) =>
          if to.Some? { AgreesExactly(e, to.value); }
        case Holding(_, holds) =>
          if holds.Some? { AgreesExactly(e, holds.value); }
        case SliceOf(_, isNil, _) =>
          if !isNil && !IsBytes(e, v.typ) { AgreesItems(e, v); }
        case ArrayOf(_, _) => AgreesItems(e, v);
        case MapOf(_, isNil, _) =>
          if !isNil { AgreesEntries(e, v); }
        case StructOf(_, _) => AgreesFields(e, v);
      }
    }
  }

  lemma {:induction false} AgreesItems(e: Env, v: Value)
    requires (v.SliceOf? || v.ArrayOf?) && WellTyped(e, v) && ListOf(ItemsOnePass(e, v)).Some?
    ensures ListOf(ItemsFilled(e, v)) == ListOf(ItemsOnePass(e, v)) <==>
      forall i :: 0 <= i < |v.items| ==> Agrees(e, v.items[i])
    decreases v, 0
  {
    ListsDiffer(ItemsFilled(e, v), ItemsOnePass(e, v));
    forall i | 0 <= i < |v.items| ensures ItemsFilled(e, v)[i] == ItemsOnePass(e, v)[i] <==> Agrees(e, v.items[i]) {
      AgreesExactly(e, v.items[i]);
    }
  }

  lemma {:induction false} AgreesEntries(e: Env, v: Value)
    requires v.MapOf? && WellTyped(e, v) && ObjectOf(AllSomeOf(EntriesOnePass(e, v))).Some?
    ensures ObjectOf(AllSomeOf(EntriesFilled(e, v))) == ObjectOf(AllSomeOf(EntriesOnePass(e, v))) <==>
      forall k :: k in v.entries ==> Agrees(e, v.entries[k])
    decreases v, 0
  {
    ObjectsDiffer(EntriesFilled(e, v), EntriesOnePass(e, v));
    forall k | k in v.entries ensures EntriesFilled(e, v)[k] == EntriesOnePass(e, v)[k] <==> Agrees(e, v.entries[k]) {
      AgreesExactly(e, v.entries[k]);
    }
  }

  lemma {:induction false} AgreesFields(e: Env, v: Value)
    requires v.StructOf? && WellTyped(e, v) && Assemble(v.fields, FieldsOnePass(e, v)).Some?
    ensures ObjectOf(Assemble(v.fields, FieldsFilled(e, v))) == ObjectOf(Assemble(v.fields, FieldsOnePass(e, v))) <==>
      forall i :: 0 <= i < |v.fields| && IsWritten(v.fields[i]) ==> AgreesField(e, v.fields[i])
    decreases v, 0
  {
    var fields, filled, plain := v.fields, FieldsFilled(e, v), FieldsOnePass(e, v);
    AssembledDiffer(fields, filled, plain);
    forall i | 0 <= i < |fields| && IsWritten(fields[i]) ensures filled[i] == plain[i] <==> AgreesField(e, fields[i]) {
      assert WellPlaced(e, v.typ, fields[i]);
      AgreesAt(e, fields[i], plain[i]);
    }
  }

  lemma {:induction false} AgreesAt(e: Env, f: FieldValue, plain: Option<Json>)
    requires f.reached.Some? && WellTyped(e, f.reached.value) && plain == FieldOnePass(e, f) && plain.Some?
    ensures Filled(e, FieldWalked(e, f)) == plain <==> AgreesField(e, f)
    decreases f, 2
  {
    var n := f.reached.value;
    if f.quoted && Quotes(e, n) {
      QuotedAgrees(e, n, plain.value.text);
    } else {
      AgreesExactly(e, n);
    }
  }

  /** The walk of a value, its kept values filled in, comes to something. */
  ghost predicate Fillable(e: Env, v: Value)
    decreases v, 1
  {
    if !Reaching(e, v) then OnePass(e, v).Some?
    else if e.promises && v.typ in e.graph.promised then !e.zero(v) && OnePass(e, v).Some?
    else if v.typ in e.graph.claimed then OnePass(e, v).Some?
    else
      match v
      case Scalar(_, _, _) => OnePass(e, v).Some?
      case PointerTo(_, to) => to.Some? ==> Fillable(e, to.value)
      case Holding(_, holds) => holds.Some? ==> Fillable(e, holds.value)
      case SliceOf(_, _, items) => forall i :: 0 <= i < |items| ==> Fillable(e, items[i])
      case ArrayOf(_, items) => forall i :: 0 <= i < |items| ==> Fillable(e, items[i])
      case MapOf(_, isNil, entries) => isNil ||
        (StringKeys(e, v.typ) && forall k :: k in entries ==> Fillable(e, entries[k]))
      case StructOf(_, fields) => forall i :: 0 <= i < |fields| && IsWritten(fields[i]) ==> FillableField(e, fields[i])
  }

  ghost predicate FillableField(e: Env, f: FieldValue)
    decreases f, 0
  {
    f.reached.Some? ==> Fillable(e, f.reached.value)
  }

  lemma {:induction false} FillsExactly(e: Env, v: Value)
    requires WellTyped(e, v)
    ensures Filled(e, Walked(e, v)).Some? <==> Fillable(e, v)
    decreases v, 1
  {
    if Reaching(e, v) && !IsEarly(e, v) {
      WalksIntoParts(e, v);
      match v
      case Scalar(_, _, _) =>
      case PointerTo(_, to) =>
        if to.Some? { FillsExactly(e, to.value); }
      case Holding(_, holds) =>
        if holds.Some? { FillsExactly(e, holds.value); }
      case SliceOf(_, isNil, _) =>
        if !isNil { FillsItems(e, v); }
      case ArrayOf(_, _) => FillsItems(e, v);
      case MapOf(_, isNil, entries) =>
        forall k | k in entries ensures EntriesFilled(e, v)[k].Some? <==> Fillable(e, entries[k]) {
          FillsExactly(e, entries[k]);
        }
      case StructOf(_, fields) => FillsFields(e, v);
    }
  }

  lemma {:induction false} FillsItems(e: Env, v: Value)
    requires (v.SliceOf? || v.ArrayOf?) && WellTyped(e, v)
    ensures ListOf(ItemsFilled(e, v)).Some? <==> forall i :: 0 <= i < |v.items| ==> Fillable(e, v.items[i])
    decreases v, 0
  {
    forall i | 0 <= i < |v.items| ensures ItemsFilled(e, v)[i].Some? <==> Fillable(e, v.items[i]) {
      FillsExactly(e, v.items[i]);
    }
  }

  lemma {:induction false} FillsFields(e: Env, v: Value)
    requires v.StructOf? && WellTyped(e, v)
    ensures ObjectOf(Assemble(v.fields, FieldsFilled(e, v))).Some? <==>
      forall i :: 0 <= i < |v.fields| && IsWritten(v.fields[i]) ==> FillableField(e, v.fields[i])
    decreases v, 0
  {
    var fields, filled := v.fields, FieldsFilled(e, v);
    AssembleIs(fields, filled);
    forall i | 0 <= i < |fields| && IsWritten(fields[i]) ensures filled[i].Some? <==> FillableField(e, fields[i]) {
      assert WellPlaced(e, v.typ, fields[i]);
      FillsExactly(e, fields[i].reached.value);
    }
  }

  /**
   For every value reflection could describe: filling the walk's kept values gives exactly what
   encodeValue does if and only if the value agrees, or, where encodeValue fails, the walk fails too.
   */
  lemma WalkAgreesExactly(e: Env, v: Value)
    requires WellTyped(e, v)
    ensures Filled(e, Walked(e, v)) == OnePass(e, v) <==> if OnePass(e, v).Some? then Agrees(e, v) else !Fillable(e, v)
  {
    FillsExactly(e, v);
    if OnePass(e, v).Some? {
      AgreesExactly(e, v);
    }
  }

  // ---------------------------------------------------------------- nothing is lost to encoding/json

  /** x is a transported or promised value that v shows, no other such value around it. */
  ghost predicate Exposes(e: Env, v: Value, x: Value)
    decreases v, 1
  {
    if IsEarly(e, v) then x == v
    else
      match v
      case Scalar(_, _, _) => false
      case PointerTo(_, to) => to.Some? && Exposes(e, to.value, x)
      case Holding(_, holds) => holds.Some? && Exposes(e, holds.value, x)
      case SliceOf(_, _, items) => exists i :: 0 <= i < |items| && Exposes(e, items[i], x)
      case ArrayOf(_, items) => exists i :: 0 <= i < |items| && Exposes(e, items[i], x)
      case MapOf(_, _, entries) => exists k :: k in entries && Exposes(e, entries[k], x)
      case StructOf(_, fields) => exists i :: 0 <= i < |fields| && FieldExposes(e, fields[i], x)
  }

  ghost predicate FieldExposes(e: Env, f: FieldValue, x: Value)
    decreases f, 0
  {
    IsWritten(f) && Exposes(e, f.reached.value, x)
  }

  /** x is one of the values a tree keeps. */
  ghost predicate Keeps(t: Tree, x: Value) {
    match t
    case Plain(_) => false
    case Kept(v) => x == v
    case Items(items) => exists i :: 0 <= i < |items| && Keeps(items[i], x)
    case Props(props) => exists k :: k in props && Keeps(props[k], x)
  }

  lemma EdgeBack(g: Graph, promises: bool, t: string, u: string)
    requires Edge(g, t, u) && Reachable(g, promises, u)
    ensures Reachable(g, promises, t)
  {
    var q :| Leads(g, promises, u, q);
    var p := [t] + q;
    forall i | 0 <= i < |p| - 1 ensures Edge(g, p[i], p[i + 1]) {
      if i > 0 {
        assert Edge(g, q[i - 1], q[i]);
      }
    }
    assert Leads(g, promises, t, p);
  }

  /** The properties of a struct sit along edges of the type graph, promoted ones included. */
  lemma {:induction false} AlongBack(g: Graph, promises: bool, t: string, index: seq<nat>)
    requires TypeAlong(g, t, index).Some?
    requires Reachable(g, promises, TypeAlong(g, t, index).value)
    ensures Reachable(g, promises, t)
    decreases |index|
  {
    if index != [] {
      var u := g.shapes[t].fields[index[0]].typ;
      assert Edge(g, t, u);
      if |index| > 1 && u in g.shapes && g.shapes[u].Pointer? {
        AlongBack(g, promises, g.shapes[u].elem, index[1..]);
        EdgeBack(g, promises, u, g.shapes[u].elem);
      } else {
        AlongBack(g, promises, u, index[1..]);
      }
      EdgeBack(g, promises, t, u);
    }
  }

  lemma EarlyReaches(e: Env, v: Value)
    requires IsEarly(e, v)
    ensures Reaching(e, v)
  {
    assert Leads(e.graph, e.promises, v.typ, [v.typ]);
  }

  /** A value shows something only if its type reaches something: skipping the others loses nothing. */
  lemma {:induction false} ShownIsReached(e: Env, v: Value, x: Value)
    requires WellTyped(e, v) && Exposes(e, v, x)
    ensures Reaching(e, v)
    ensures e.graph.claimed != {} || e.promises
    decreases v
  {
    var g := e.graph;
    if IsEarly(e, v) {
      EarlyReaches(e, v);
    } else {
      match v
      case PointerTo(_, to) =>
        ShownIsReached(e, to.value, x);
        EdgeBack(g, e.promises, v.typ, to.value.typ);
      case Holding(_, holds) =>
        ShownIsReached(e, holds.value, x);
        assert Leads(g, e.promises, v.typ, [v.typ]);
      case SliceOf(_, _, items) =>
        var i :| 0 <= i < |items| && Exposes(e, items[i], x);
        ShownIsReached(e, items[i], x);
        EdgeBack(g, e.promises, v.typ, items[i].typ);
      case ArrayOf(_, items) =>
        var i :| 0 <= i < |items| && Exposes(e, items[i], x);
        ShownIsReached(e, items[i], x);
        EdgeBack(g, e.promises, v.typ, items[i].typ);
      case MapOf(_, _, entries) =>
        var k :| k in entries && Exposes(e, entries[k], x);
        ShownIsReached(e, entries[k], x);
        EdgeBack(g, e.promises, v.typ, entries[k].typ);
      case StructOf(_, fields) =>
        var i :| 0 <= i < |fields| && FieldExposes(e, fields[i], x);
        assert WellPlaced(e, v.typ, fields[i]);
        ShownIsReached(e, fields[i].reached.value, x);
        AlongBack(g, e.promises, v.typ, fields[i].index);
    }
  }

  /** The walk keeps exactly the transported and promised values the value shows. */
  lemma {:induction false} KeepsWhatIsShown(e: Env, v: Value, x: Value)
    requires WellTyped(e, v) && Walked(e, v).Some?
    ensures Keeps(Walked(e, v).value, x) <==> Exposes(e, v, x)
    decreases v, 2
  {
    if !Reaching(e, v) {
      if Exposes(e, v, x) {
        ShownIsReached(e, v, x);
      }
    } else if !IsEarly(e, v) {
      KeepsWithin(e, v, x);
    }
  }

  /** The same where the walk goes into the value. */
  lemma {:induction false} KeepsWithin(e: Env, v: Value, x: Value)
    requires WellTyped(e, v) && Walked(e, v).Some? && Reaching(e, v) && !IsEarly(e, v)
    ensures Keeps(Walked(e, v).value, x) <==> Exposes(e, v, x)
    decreases v, 1
  {
    hide WellTyped;
    match v
    case Scalar(_, _, _) =>
    case PointerTo(_, _) => KeepsPointed(e, v, x);
    case Holding(_, _) => KeepsPointed(e, v, x);
    case SliceOf(_, isNil, _) =>
      if isNil { NilIsEmpty(e, v); } else { KeepsItems(e, v, x); }
    case ArrayOf(_, _) => KeepsItems(e, v, x);
    case MapOf(_, isNil, _) =>
      if isNil { NilIsEmpty(e, v); } else { KeepsEntries(e, v, x); }
    case StructOf(_, _) => KeepsFields(e, v, x);
  }

  lemma NilIsEmpty(e: Env, v: Value)
    requires WellTyped(e, v)
    ensures v.SliceOf? && v.isNil ==> v.items == []
    ensures v.MapOf? && v.isNil ==> v.entries == map[]
  {
  }

  lemma {:induction false} KeepsPointed(e: Env, v: Value, x: Value)
    requires v.PointerTo? || v.Holding?
    requires WellTyped(e, v) && Walked(e, v).Some? && Reaching(e, v) && !IsEarly(e, v)
    ensures Keeps(Walked(e, v).value, x) <==> Exposes(e, v, x)
    decreases v, 0
  {
    if v.PointerTo? && v.to.Some? {
      KeepsWhatIsShown(e, v.to.value, x);
    } else if v.Holding? && v.holds.Some? {
      KeepsWhatIsShown(e, v.holds.value, x);
    }
  }

  lemma {:induction false} KeepsItems(e: Env, v: Value, x: Value)
    requires v.SliceOf? || v.ArrayOf?
    requires WellTyped(e, v) && AllSome(ItemsWalked(e, v)).Some?
    ensures Keeps(Items(AllSome(ItemsWalked(e, v)).value), x) <==>
      exists i :: 0 <= i < |v.items| && Exposes(e, v.items[i], x)
    decreases v, 0
  {
    var items := AllSome(ItemsWalked(e, v)).value;
    forall i | 0 <= i < |v.items| ensures Keeps(items[i], x) <==> Exposes(e, v.items[i], x) {
      assert ItemsWalked(e, v)[i] == Some(items[i]);
      KeepsWhatIsShown(e, v.items[i], x);
    }
  }

  lemma {:induction false} KeepsEntries(e: Env, v: Value, x: Value)
    requires v.MapOf? && WellTyped(e, v) && AllSomeOf(EntriesWalked(e, v)).Some?
    ensures Keeps(Props(AllSomeOf(EntriesWalked(e, v)).value), x) <==>
      exists k :: k in v.entries && Exposes(e, v.entries[k], x)
    decreases v, 0
  {
    var props := AllSomeOf(EntriesWalked(e, v)).value;
    forall k | k in v.entries ensures Keeps(props[k], x) <==> Exposes(e, v.entries[k], x) {
      assert EntriesWalked(e, v)[k] == Some(props[k]);
      KeepsWhatIsShown(e, v.entries[k], x);
    }
  }

  lemma {:induction false} KeepsFields(e: Env, v: Value, x: Value)
    requires v.StructOf? && WellTyped(e, v) && Assemble(v.fields, FieldsWalked(e, v)).Some?
    ensures Keeps(Props(Assemble(v.fields, FieldsWalked(e, v)).value), x) <==>
      exists i :: 0 <= i < |v.fields| && FieldExposes(e, v.fields[i], x)
    decreases v, 0
  {
    var fields, props := v.fields, Assemble(v.fields, FieldsWalked(e, v)).value;
    AssembleIs(fields, FieldsWalked(e, v));
    forall i | 0 <= i < |fields| && IsWritten(fields[i])
      ensures fields[i].name in props && (Keeps(props[fields[i].name], x) <==> FieldExposes(e, fields[i], x))
    {
      assert WellPlaced(e, v.typ, fields[i]);
      assert FieldsWalked(e, v)[i] == Some(props[fields[i].name]);
      KeepsWhatIsShown(e, fields[i].reached.value, x);
    }
    forall k | k in props ensures WrittenName(fields, k) {}
  }

  // ---------------------------------------------------------------- why the walk and encoding/json can part

  /** A struct the walk goes into writes a `,string` field bare. */
  lemma QuotedFieldsPart(e: Env, v: Value, i: nat)
    requires WellTyped(e, v) && v.StructOf? && Reaching(e, v) && !IsEarly(e, v) && v.typ !in e.marshals
    requires i < |v.fields| && IsWritten(v.fields[i]) && v.fields[i].quoted
    requires
      var n := v.fields[i].reached.value;
      n.Scalar? && n.typ !in e.marshals && !IsEarly(e, n) && n.text.Some? && n.quoted.Some? && n.text != n.quoted
    requires OnePass(e, v).Some?
    ensures Filled(e, Walked(e, v)) != OnePass(e, v)
  {
    var f := v.fields[i];
    var n := f.reached.value;
    var plain, walked := FieldsOnePass(e, v), FieldsWalked(e, v);
    AssembleIs(v.fields, plain);
    AssembleIs(v.fields, walked);
    ScalarWalks(e, n);
    assert plain[i] == Some(Atom(n.quoted.value)) && walked[i] == Some(Plain(Atom(n.text.value)));
    hide Assemble, AllSomeOf, WellTyped;
    if Assemble(v.fields, walked).Some? {
      var props := Assemble(v.fields, walked).value;
      FilledProp(e, props, f.name);
    }
  }

  lemma ScalarWalks(e: Env, n: Value)
    requires n.Scalar? && n.typ !in e.marshals && !IsEarly(e, n) && n.text.Some?
    ensures Walked(e, n) == Some(Plain(Atom(n.text.value)))
  {
  }

  lemma FilledProp(e: Env, props: map<string, Tree>, k: string)
    requires k in props
    ensures Fill(e, Props(props)).Some? ==>
      var all := Fill(e, Props(props)).value;
      all.Object? && k in all.props && Fill(e, props[k]) == Some(all.props[k])
  {
    assert k in FillProps(e, Props(props));
  }

  /**
   A struct that marshals itself and is not claimed is written from its fields all the same, so the
   two encoders agree on it if and only if that is what it writes itself.
   */
  lemma OwnMarshalingIsPassedOver(e: Env, v: Value)
    requires WellTyped(e, v) && v.StructOf? && Reaching(e, v) && !IsEarly(e, v) && v.typ in e.marshals
    ensures Filled(e, Walked(e, v)) == OnePass(e, v) <==> e.own(v) == ObjectOf(Assemble(v.fields, FieldsFilled(e, v)))
  {
    FillingAssembled(e, v.fields, FieldsWalked(e, v), FieldsFilled(e, v));
    hide Assemble, FieldWalked, Filled;
  }

  /** Where its fields themselves are agreeable, that is what encoding/json would write without its marshaler. */
  lemma OwnMarshalingOfAgreeableFields(e: Env, v: Value)
    requires WellTyped(e, v) && v.StructOf? && Reaching(e, v) && !IsEarly(e, v) && v.typ in e.marshals
    requires forall i :: 0 <= i < |v.fields| && IsWritten(v.fields[i]) ==> AgreeableField(e, v.fields[i])
    ensures Filled(e, Walked(e, v)) == OnePass(e, v) <==> e.own(v) == ObjectOf(Assemble(v.fields, FieldsOnePass(e, v)))
  {
    FillingFields(e, v);
    hide Assemble, FieldWalked, Filled;
  }
}
