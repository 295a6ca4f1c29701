/**
 Which properties a struct type has in JSON (jsonfields.go): a breadth-first sweep of the
 embedding tree that skips types it has already visited, and the annihilation pass that
 resolves name collisions.

 The reference is the embedding tree itself, which is infinite for a recursive type: every
 chain of field indexes that reaches a property through embedded structs.
 */
module JsonFields {
  import opened Wrappers
  import opened Ordering

  /**
   A declared struct field as the sweep reads it. `embeds` is the struct type its type
   names, directly or behind one pointer; `tagName` is the name part of its json tag when
   encoding/json accepts it and "" otherwise; `skipped` is the tag "-".
   */
  datatype GoField = GoField(
    goName: string,
    anonymous: bool,
    exported: bool,
    embeds: Option<nat>,
    skipped: bool,
    tagName: string,
    omitEmpty: bool,
    omitZero: bool)

  /** Struct types are numbered; a type is the list of its fields. */
  type Types = seq<seq<GoField>>

  ghost predicate ValidTypes(types: Types) {
    forall t, k :: 0 <= t < |types| && 0 <= k < |types[t]| && types[t][k].embeds.Some? ==>
                   types[t][k].embeds.value < |types|
  }

  datatype JsonField = JsonField(name: string, tagged: bool, index: seq<nat>, omitEmpty: bool, omitZero: bool)

  /** encoding/json looks at the field at all. */
  predicate Considered(f: GoField) {
    && (if f.anonymous then f.exported || f.embeds.Some? else f.exported)
    && !f.skipped
  }

  /** An untagged embedded struct, whose own fields are promoted. */
  predicate Explored(f: GoField) {
    Considered(f) && f.tagName == "" && f.anonymous && f.embeds.Some?
  }

  /** A field that is a property itself. */
  predicate Property(f: GoField) {
    Considered(f) && !Explored(f)
  }

  function FieldOf(f: GoField, index: seq<nat>): JsonField {
    JsonField(if f.tagName != "" then f.tagName else f.goName, f.tagName != "", index, f.omitEmpty, f.omitZero)
  }

  // ---------------------------------------------------------------- the embedding tree

  function Front(s: seq<nat>): seq<nat>
    requires s != []
  {
    s[..|s| - 1]
  }

  function Last(s: seq<nat>): nat
    requires s != []
  {
    s[|s| - 1]
  }

  /** The struct type an embedding path leads to. */
  function TypeAt(types: Types, root: nat, path: seq<nat>): (t: Option<nat>)
    requires ValidTypes(types) && root < |types|
    ensures t.Some? ==> t.value < |types|
    decreases |path|
  {
    if path == [] then Some(root)
    else
      match TypeAt(types, root, Front(path))
      case None => None
      case Some(t) =>
        if Last(path) < |types[t]| && Explored(types[t][Last(path)]) then types[t][Last(path)].embeds else None
  }

  /** The index chain reaches a property, at any depth. */
  predicate Occurs(types: Types, root: nat, index: seq<nat>)
    requires ValidTypes(types) && root < |types|
  {
    && index != []
    && TypeAt(types, root, Front(index)).Some?
    && var t := TypeAt(types, root, Front(index)).value;
       Last(index) < |types[t]| && Property(types[t][Last(index)])
  }

  function FieldAt(types: Types, root: nat, index: seq<nat>): JsonField
    requires ValidTypes(types) && root < |types| && Occurs(types, root, index)
  {
    FieldOf(types[TypeAt(types, root, Front(index)).value][Last(index)], index)
  }

  /** g is as shallow and as strongly tagged as f, or better, and has its name. */
  predicate Hides(g: JsonField, f: JsonField) {
    && g.name == f.name
    && (|g.index| < |f.index| || (|g.index| == |f.index| && (g.tagged || !f.tagged)))
  }

  /** Go's visibility rule over the whole embedding tree. */
  ghost predicate Visible(types: Types, root: nat, index: seq<nat>)
    requires ValidTypes(types) && root < |types|
  {
    && Occurs(types, root, index)
    && forall other :: Occurs(types, root, other) && other != index ==>
         !Hides(FieldAt(types, root, other), FieldAt(types, root, index))
  }

  /** No path shorter than this one leads to the same type. */
  ghost predicate Shortest(types: Types, root: nat, path: seq<nat>)
    requires ValidTypes(types) && root < |types|
  {
    && TypeAt(types, root, path).Some?
    && forall p :: TypeAt(types, root, p) == TypeAt(types, root, path) ==> |path| <= |p|
  }

  /** Another path of the same length leads to the same type. */
  ghost predicate Forked(types: Types, root: nat, path: seq<nat>)
    requires ValidTypes(types) && root < |types|
  {
    exists p :: p != path && |p| == |path| && TypeAt(types, root, p) == TypeAt(types, root, path)
  }

  predicate EmbedsNothing(fields: seq<GoField>) {
    forall k :: 0 <= k < |fields| ==> !Explored(fields[k])
  }

  /**
   Where the sweep's count is Go's: a type embedded twice at its shallowest depth embeds
   no further struct. It holds in particular when no type is embedded twice there.
   */
  ghost predicate PlainForks(types: Types, root: nat)
    requires ValidTypes(types) && root < |types|
  {
    forall path {:trigger Forked(types, root, path)} ::
      Shortest(types, root, path) && Forked(types, root, path) ==>
        EmbedsNothing(types[TypeAt(types, root, path).value])
  }

  // ---------------------------------------------------------------- what the sweep keeps

  /**
   Embedding paths the sweep has processed, and the ones it doubled. The first `done` fields
   of the type at `current` count as processed too, doubled or not as `doubling` says.
   */
  datatype Progress = Progress(homes: set<seq<nat>>, doubles: set<seq<nat>>, current: seq<nat>, done: nat,
    doubling: bool)

  ghost predicate Swept(g: Progress, index: seq<nat>) {
    index != [] && (Front(index) in g.homes || (Front(index) == g.current && Last(index) < g.done))
  }

  ghost predicate Doubled(g: Progress, index: seq<nat>)
    requires index != []
  {
    Front(index) in g.doubles || (g.doubling && Front(index) == g.current)
  }

  ghost predicate Listed(fields: seq<JsonField>, index: seq<nat>) {
    exists i :: 0 <= i < |fields| && fields[i].index == index
  }

  ghost predicate Twin(fields: seq<JsonField>, i: nat)
    requires i < |fields|
  {
    exists j :: 0 <= j < |fields| && j != i && fields[j].index == fields[i].index
  }

  /** The collected fields are exactly those swept, each once or, where doubled, twice. */
  ghost predicate Collected(types: Types, root: nat, g: Progress, fields: seq<JsonField>)
    requires ValidTypes(types) && root < |types|
  {
    && (forall f :: f in fields ==>
          Occurs(types, root, f.index) && Swept(g, f.index) && f == FieldAt(types, root, f.index))
    && (forall index {:trigger Listed(fields, index)} ::
          Swept(g, index) && Occurs(types, root, index) ==> Listed(fields, index))
    && (forall i: nat {:trigger Twin(fields, i)} :: i < |fields| ==> (Twin(fields, i) <==> Doubled(g, fields[i].index)))
  }

  datatype Embedded = Embedded(index: seq<nat>, typ: nat)

  function CountOf(count: map<nat, nat>, t: nat): nat {
    if t in count then count[t] else 0
  }

  /** A path found one level below the paths processed at this one. */
  ghost predicate Found(types: Types, root: nat, level: set<seq<nat>>, current: seq<nat>, done: nat, path: seq<nat>)
    requires ValidTypes(types) && root < |types|
  {
    && path != [] && TypeAt(types, root, path).Some?
    && (Front(path) in level || (Front(path) == current && Last(path) < done))
  }

  ghost predicate InQueue(next: seq<Embedded>, t: nat) {
    exists i :: 0 <= i < |next| && next[i].typ == t
  }

  /** Two different paths to the type were found. */
  ghost predicate FoundTwice(types: Types, root: nat, level: set<seq<nat>>, current: seq<nat>, done: nat, t: nat)
    requires ValidTypes(types) && root < |types|
  {
    exists p, q :: p != q && Found(types, root, level, current, done, p) && Found(types, root, level, current, done, q)
                   && TypeAt(types, root, p) == TypeAt(types, root, q) == Some(t)
  }

  /** The queue for the next level holds each type found once, and the counts say how often. */
  ghost predicate Queued(types: Types, root: nat, level: set<seq<nat>>, current: seq<nat>, done: nat,
                         next: seq<Embedded>, count: map<nat, nat>)
    requires ValidTypes(types) && root < |types|
  {
    && (forall e :: e in next ==>
      Found(types, root, level, current, done, e.index) && TypeAt(types, root, e.index) == Some(e.typ))
    && (forall i, j :: 0 <= i < j < |next| ==> next[i].typ != next[j].typ)
    && (forall t {:trigger InQueue(next, t)} :: t in count <==> InQueue(next, t))
    && (forall t :: t in count ==> count[t] >= 1)
    && (forall p :: Found(types, root, level, current, done, p) ==> TypeAt(types, root, p).value in count)
    && (forall t {:trigger FoundTwice(types, root, level, current, done, t)} ::
          t in count ==> (count[t] > 1 <==> FoundTwice(types, root, level, current, done, t)))
  }

  lemma Chain(types: Types, root: nat, path: seq<nat>, t: nat, k: nat)
    requires ValidTypes(types) && root < |types| && TypeAt(types, root, path) == Some(t) && k < |types[t]|
    ensures Front(path + [k]) == path && Last(path + [k]) == k
    ensures TypeAt(types, root, path + [k]) == if Explored(types[t][k]) then types[t][k].embeds else None
    ensures Occurs(types, root, path + [k]) <==> Property(types[t][k])
  {
    assert Front(path + [k]) == path;
  }

  /** What one more field of the current type adds to what is swept: itself. */
  lemma SweptGrows(g: Progress, at: seq<nat>, index: seq<nat>)
    requires at == g.current + [g.done] && index != []
    ensures Swept(g.(done := g.done + 1), index) <==> Swept(g, index) || index == at
    ensures Front(at) == g.current && Last(at) == g.done
  {
    if Front(index) == g.current && Last(index) == g.done {
      assert index == Front(index) + [Last(index)];
    }
  }

  lemma NewToAll(types: Types, root: nat, g: Progress, fields: seq<JsonField>, at: seq<nat>, x: JsonField)
    requires ValidTypes(types) && root < |types| && Collected(types, root, g, fields) && x in fields
    requires g.current !in g.homes && at == g.current + [g.done]
    ensures x.index != at
  {
    assert Swept(g, x.index);
  }

  /** One property of the current type is collected, twice where the type is doubled. */
  lemma CollectOne(types: Types, root: nat, g: Progress, fields: seq<JsonField>, f: JsonField, copies: seq<JsonField>)
    requires ValidTypes(types) && root < |types| && Collected(types, root, g, fields)
    requires TypeAt(types, root, g.current).Some? && g.current !in g.homes && g.current !in g.doubles
    requires Occurs(types, root, f.index) && f == FieldAt(types, root, f.index)
    requires f.index == g.current + [g.done]
    requires copies == if g.doubling then [f, f] else [f]
    ensures Collected(types, root, g.(done := g.done + 1), fields + copies)
  {
    hide TypeAt, Occurs, FieldAt;
    var g' := g.(done := g.done + 1);
    var all := fields + copies;
    forall index | index != [] ensures Swept(g', index) <==> Swept(g, index) || index == f.index {
      SweptGrows(g, f.index, index);
    }
    forall index | Swept(g', index) && Occurs(types, root, index) ensures Listed(all, index) {
      if index == f.index {
        assert all[|fields|].index == index;
      } else {
        assert Listed(fields, index);
        var i :| 0 <= i < |fields| && fields[i].index == index;
        assert all[i].index == index;
      }
    }
    forall i: nat | i < |all| ensures Twin(all, i) <==> Doubled(g', all[i].index) {
      CollectTwin(types, root, g, fields, f, copies, i);
    }
    assert forall x :: x in all <==> x in fields || x == f;
    hide Twin, Listed, Doubled, Swept;
  }

  lemma CollectTwin(types: Types, root: nat, g: Progress, fields: seq<JsonField>, f: JsonField,
                    copies: seq<JsonField>, i: nat)
    requires ValidTypes(types) && root < |types| && Collected(types, root, g, fields)
    requires g.current !in g.homes && g.current !in g.doubles
    requires Occurs(types, root, f.index) && f.index == g.current + [g.done]
    requires copies == if g.doubling then [f, f] else [f]
    requires i < |fields + copies|
    ensures Twin(fields + copies, i) <==> Doubled(g.(done := g.done + 1), (fields + copies)[i].index)
  {
    hide TypeAt, Occurs, FieldAt;
    var all := fields + copies;
    SweptGrows(g, f.index, f.index);
    forall x | x in fields ensures x.index != f.index {
      NewToAll(types, root, g, fields, f.index, x);
    }
    if i < |fields| {
      assert all[i] == fields[i] && fields[i] in fields;
      TwinAfter(fields, copies, i);
    } else if g.doubling {
      assert all[|fields|].index == f.index && all[|fields| + 1].index == f.index;
    } else {
      assert i == |fields| && all[i] == f;
      assert forall j :: 0 <= j < |all| && j != i ==> all[j] in fields;
    }
  }

  lemma TwinAfter(fields: seq<JsonField>, copies: seq<JsonField>, i: nat)
    requires i < |fields| && forall f :: f in copies ==> f.index != fields[i].index
    ensures Twin(fields + copies, i) <==> Twin(fields, i)
  {
    var all := fields + copies;
    assert forall j :: |fields| <= j < |all| ==> all[j] in copies;
    if Twin(all, i) {
      var j :| 0 <= j < |all| && j != i && all[j].index == all[i].index;
      assert fields[j].index == fields[i].index;
    }
    if Twin(fields, i) {
      var j :| 0 <= j < |fields| && j != i && fields[j].index == fields[i].index;
      assert all[j].index == all[i].index;
    }
  }

  /** A field that is no property changes nothing. */
  lemma CollectNone(types: Types, root: nat, g: Progress, fields: seq<JsonField>)
    requires ValidTypes(types) && root < |types| && Collected(types, root, g, fields)
    requires !Occurs(types, root, g.current + [g.done])
    ensures Collected(types, root, g.(done := g.done + 1), fields)
  {
    var g' := g.(done := g.done + 1);
    forall index | Swept(g', index) && Occurs(types, root, index) ensures Swept(g, index) {
      assert index == Front(index) + [Last(index)];
    }
  }

  lemma FoundGrows(types: Types, root: nat, level: set<seq<nat>>, current: seq<nat>, done: nat, p: seq<nat>)
    requires ValidTypes(types) && root < |types|
    ensures Found(types, root, level, current, done + 1, p) <==>
            Found(types, root, level, current, done, p) || (p == current + [done] && TypeAt(types, root, p).Some?)
  {
    assert Front(current + [done]) == current;
    if p != [] && Front(p) == current && Last(p) == done {
      assert p == Front(p) + [Last(p)];
    }
  }

  lemma TwiceGrows(types: Types, root: nat, level: set<seq<nat>>, current: seq<nat>, done: nat, e: Embedded, t: nat)
    requires ValidTypes(types) && root < |types|
    requires current !in level && e.index == current + [done] && TypeAt(types, root, e.index) == Some(e.typ)
    ensures FoundTwice(types, root, level, current, done + 1, t) <==>
      || FoundTwice(types, root, level, current, done, t)
      || (t == e.typ && exists p :: Found(types, root, level, current, done, p) && TypeAt(types, root, p) == Some(t))
  {
    assert Front(e.index) == current && Last(e.index) == done;
    assert !Found(types, root, level, current, done, e.index);
    FoundGrows(types, root, level, current, done, e.index);
    if FoundTwice(types, root, level, current, done + 1, t) {
      var p, q :| p != q && Found(types, root, level, current, done + 1, p) &&
        Found(types, root, level, current, done + 1, q)
        && TypeAt(types, root, p) == TypeAt(types, root, q) == Some(t);
      FoundGrows(types, root, level, current, done, p);
      FoundGrows(types, root, level, current, done, q);
    }
    if FoundTwice(types, root, level, current, done, t) {
      var p, q :| p != q && Found(types, root, level, current, done, p) && Found(types, root, level, current, done, q)
        && TypeAt(types, root, p) == TypeAt(types, root, q) == Some(t);
      FoundGrows(types, root, level, current, done, p);
      FoundGrows(types, root, level, current, done, q);
    }
    if p :| t == e.typ && Found(types, root, level, current, done, p) && TypeAt(types, root, p) == Some(t) {
      FoundGrows(types, root, level, current, done, p);
      assert p != e.index;
    }
  }

  lemma InQueueGrows(next: seq<Embedded>, e: Embedded, t: nat)
    ensures InQueue(next + [e], t) <==> InQueue(next, t) || t == e.typ
  {
    var next' := next + [e];
    assert next'[|next|] == e;
    if InQueue(next, t) {
      var i :| 0 <= i < |next| && next[i].typ == t;
      assert next'[i].typ == t;
    }
    if InQueue(next', t) && t != e.typ {
      var i :| 0 <= i < |next'| && next'[i].typ == t;
      assert next[i].typ == t;
    }
  }

  /** An explored field's type is queued when first found, and counted every time. */
  lemma EnqueueOne(types: Types, root: nat, level: set<seq<nat>>, current: seq<nat>, done: nat,
                   next: seq<Embedded>, count: map<nat, nat>, e: Embedded)
    requires ValidTypes(types) && root < |types| && Queued(types, root, level, current, done, next, count)
    requires current !in level && e.index == current + [done] && TypeAt(types, root, e.index) == Some(e.typ)
    ensures Queued(types, root, level, current, done + 1,
                   if e.typ in count then next else next + [e], count[e.typ := CountOf(count, e.typ) + 1])
    ensures e.typ in count <==> CountOf(count, e.typ) > 0
  {
    hide TypeAt;
    hide Found;
    var next' := if e.typ in count then next else next + [e];
    var count' := count[e.typ := CountOf(count, e.typ) + 1];
    forall p
      ensures Found(types, root, level, current, done + 1, p) <==>
        Found(types, root, level, current, done, p) || p == e.index
    {
      FoundGrows(types, root, level, current, done, p);
    }
    assert InQueue(next, e.typ) <==> e.typ in count;
    forall t ensures t in count' <==> InQueue(next', t) {
      assert t in count <==> InQueue(next, t);
      InQueueGrows(next, e, t);
    }
    if e.typ !in count {
      forall i | 0 <= i < |next| ensures next[i].typ != e.typ {
        assert InQueue(next, next[i].typ);
      }
    }
    forall t | t in count'
      ensures count'[t] > 1 <==> FoundTwice(types, root, level, current, done + 1, t)
    {
      TwiceGrows(types, root, level, current, done, e, t);
      if t in count {
        assert count[t] > 1 <==> FoundTwice(types, root, level, current, done, t);
        assert InQueue(next, t);
        var i :| 0 <= i < |next| && next[i].typ == t;
        assert next[i] in next;
      } else {
        assert !FoundTwice(types, root, level, current, done, t);
      }
    }
  }

  lemma EnqueueNone(types: Types, root: nat, level: set<seq<nat>>, current: seq<nat>, done: nat,
                    next: seq<Embedded>, count: map<nat, nat>)
    requires ValidTypes(types) && root < |types| && Queued(types, root, level, current, done, next, count)
    requires TypeAt(types, root, current + [done]).None?
    ensures Queued(types, root, level, current, done + 1, next, count)
  {
    forall p ensures Found(types, root, level, current, done + 1, p) <==> Found(types, root, level, current, done, p) {
      if p != [] && Front(p) == current && Last(p) == done {
        assert p == Front(p) + [Last(p)];
      }
    }
    forall t | t in count
      ensures FoundTwice(types, root, level, current, done, t) <==> FoundTwice(types, root, level, current, done + 1, t)
    {
    }
  }

  /** The loop over one struct's fields. */
  method ExploreType(types: Types, ghost root: nat, e: Embedded, doubling: bool,
                     ghost homes: set<seq<nat>>, ghost doubles: set<seq<nat>>, ghost level: set<seq<nat>>,
                     fields0: seq<JsonField>, next0: seq<Embedded>, count0: map<nat, nat>)
    returns (fields: seq<JsonField>, next: seq<Embedded>, count: map<nat, nat>)
    requires ValidTypes(types) && root < |types| && TypeAt(types, root, e.index) == Some(e.typ)
    requires e.index !in homes && e.index !in doubles && e.index !in level
    requires Collected(types, root, Progress(homes, doubles, e.index, 0, doubling), fields0)
    requires Queued(types, root, level, e.index, 0, next0, count0)
    ensures Collected(types, root, Progress(homes, doubles, e.index, |types[e.typ]|, doubling), fields)
    ensures Queued(types, root, level, e.index, |types[e.typ]|, next, count)
  {
    fields, next, count := fields0, next0, count0;
    hide Collected, Queued, TypeAt;
    for i := 0 to |types[e.typ]|
      invariant Collected(types, root, Progress(homes, doubles, e.index, i, doubling), fields)
      invariant Queued(types, root, level, e.index, i, next, count)
    {
      var sf := types[e.typ][i];
      var index := e.index + [i];
      Chain(types, root, e.index, e.typ, i);
      ghost var g := Progress(homes, doubles, e.index, i, doubling);
      if !Considered(sf) {
        CollectNone(types, root, g, fields);
        EnqueueNone(types, root, level, e.index, i, next, count);
        continue;
      }
      if sf.tagName != "" || !sf.anonymous || sf.embeds.None? {
        var f := FieldOf(sf, index);
        ghost var before := fields;
        fields := fields + [f];
        if doubling {
          fields := fields + [fields[|fields| - 1]];
          assert fields == before + [f, f];
        }
        CollectOne(types, root, g, before, f, if doubling then [f, f] else [f]);
        EnqueueNone(types, root, level, e.index, i, next, count);
        continue;
      }
      var ft := sf.embeds.value;
      CollectNone(types, root, g, fields);
      EnqueueOne(types, root, level, e.index, i, next, count, Embedded(index, ft));
      count := count[ft := CountOf(count, ft) + 1];
      if count[ft] == 1 {
        next := next + [Embedded(index, ft)];
      }
    }
  }

  // ---------------------------------------------------------------- the sweep

  /** The path extends a home by one step, or is the empty one. */
  ghost predicate Rooted(homes: set<seq<nat>>, h: seq<nat>) {
    h != [] ==> Front(h) in homes
  }

  /** Another path of the same length, one step behind a home, leads to the same type. */
  ghost predicate Recounted(types: Types, root: nat, homes: set<seq<nat>>, path: seq<nat>)
    requires ValidTypes(types) && root < |types|
  {
    exists q :: q != [] && q != path && |q| == |path| && Front(q) in homes
      && TypeAt(types, root, q) == TypeAt(types, root, path)
  }

  /** Homes of other lengths do not matter to the count. */
  lemma SameRecount(types: Types, root: nat, homes: set<seq<nat>>, more: set<seq<nat>>, path: seq<nat>)
    requires ValidTypes(types) && root < |types|
    requires homes <= more && forall h :: h in more && h !in homes ==> |h| + 1 != |path|
    ensures Recounted(types, root, homes, path) <==> Recounted(types, root, more, path)
  {
  }

  /** The type at the end of the path, if there is one, is visited. */
  ghost predicate Covered(types: Types, root: nat, visited: set<nat>, p: seq<nat>)
    requires ValidTypes(types) && root < |types|
  {
    TypeAt(types, root, p).Some? ==> TypeAt(types, root, p).value in visited
  }

  ghost predicate Homed(types: Types, root: nat, homes: set<seq<nat>>, t: nat)
    requires ValidTypes(types) && root < |types|
  {
    exists h :: h in homes && TypeAt(types, root, h) == Some(t)
  }

  /**
   Every visited type has one home, a shortest path to it; all paths shorter than `depth`
   lead to visited types; and a home is doubled when its type is embedded again, at the same
   depth, by a type that was visited.
   */
  ghost predicate Visited(types: Types, root: nat, depth: nat, homes: set<seq<nat>>, doubles: set<seq<nat>>,
                          visited: set<nat>)
    requires ValidTypes(types) && root < |types|
  {
    && doubles <= homes
    && (forall h :: h in homes ==> Shortest(types, root, h))
    && (forall h, g :: h in homes && g in homes && TypeAt(types, root, h) == TypeAt(types, root, g) ==> h == g)
    && (forall h {:trigger Rooted(homes, h)} :: h in homes ==> Rooted(homes, h))
    && (forall t {:trigger Homed(types, root, homes, t)} :: t in visited <==> Homed(types, root, homes, t))
    && (forall p {:trigger Covered(types, root, visited, p)} :: |p| < depth ==> Covered(types, root, visited, p))
    && (forall h {:trigger Recounted(types, root, homes, h)} :: h in homes ==>
      (h in doubles <==> Recounted(types, root, homes, h)))
  }

  /** The queue covers every type first reached at this depth, and its counts tell the recounted ones. */
  ghost predicate Ready(types: Types, root: nat, depth: nat, homes: set<seq<nat>>, visited: set<nat>,
                        next: seq<Embedded>, count: map<nat, nat>)
    requires ValidTypes(types) && root < |types|
  {
    && (forall e :: e in next ==> |e.index| == depth && TypeAt(types, root, e.index) == Some(e.typ))
    && (forall e :: e in next && depth > 0 ==> Front(e.index) in homes)
    && (forall i, j :: 0 <= i < j < |next| ==> next[i].typ != next[j].typ)
    && (forall p {:trigger Covered(types, root, visited, p)} :: |p| == depth ==>
          Covered(types, root, visited, p) || InQueue(next, TypeAt(types, root, p).value))
    && (forall e {:trigger Recounted(types, root, homes, e.index)} :: e in next && e.typ !in visited ==>
          (CountOf(count, e.typ) > 1 <==> Recounted(types, root, homes, e.index)))
  }

  function Closed(homes: set<seq<nat>>, doubles: set<seq<nat>>): Progress {
    Progress(homes, doubles, [], 0, false)
  }

  lemma CollectedOpen(types: Types, root: nat, homes: set<seq<nat>>, doubles: set<seq<nat>>, path: seq<nat>,
                      doubling: bool, fields: seq<JsonField>)
    requires ValidTypes(types) && root < |types| && path !in homes
    requires Collected(types, root, Closed(homes, doubles), fields)
    ensures Collected(types, root, Progress(homes, doubles, path, 0, doubling), fields)
  {
    forall i: nat | i < |fields|
      ensures Twin(fields, i) <==> Doubled(Progress(homes, doubles, path, 0, doubling), fields[i].index)
    {
      assert fields[i] in fields;
      assert Swept(Closed(homes, doubles), fields[i].index);
      assert Twin(fields, i) <==> Doubled(Closed(homes, doubles), fields[i].index);
    }
  }

  lemma CollectedClose(types: Types, root: nat, g: Progress, t: nat, fields: seq<JsonField>)
    requires ValidTypes(types) && root < |types| && TypeAt(types, root, g.current) == Some(t) && g.done == |types[t]|
    requires Collected(types, root, g, fields)
    ensures Collected(types, root,
      Closed(g.homes + {g.current}, if g.doubling then g.doubles + {g.current} else g.doubles), fields)
  {
    var g' := Closed(g.homes + {g.current}, if g.doubling then g.doubles + {g.current} else g.doubles);
    forall index | Occurs(types, root, index) ensures Swept(g', index) <==> Swept(g, index) {
    }
    forall i: nat | i < |fields| ensures Twin(fields, i) <==> Doubled(g', fields[i].index) {
      assert fields[i] in fields;
      assert Twin(fields, i) <==> Doubled(g, fields[i].index);
    }
  }

  lemma QueuedOpen(types: Types, root: nat, level: set<seq<nat>>, path: seq<nat>, next: seq<Embedded>,
                   count: map<nat, nat>)
    requires ValidTypes(types) && root < |types| && Queued(types, root, level, [], 0, next, count)
    ensures Queued(types, root, level, path, 0, next, count)
  {
    assert forall p :: Found(types, root, level, path, 0, p) <==> Found(types, root, level, [], 0, p);
    forall t | t in count ensures count[t] > 1 <==> FoundTwice(types, root, level, path, 0, t) {
      assert FoundTwice(types, root, level, [], 0, t) <==> FoundTwice(types, root, level, path, 0, t);
    }
  }

  lemma QueuedClose(types: Types, root: nat, level: set<seq<nat>>, path: seq<nat>, t: nat, next: seq<Embedded>,
                    count: map<nat, nat>)
    requires ValidTypes(types) && root < |types| && TypeAt(types, root, path) == Some(t)
    requires Queued(types, root, level, path, |types[t]|, next, count)
    ensures Queued(types, root, level + {path}, [], 0, next, count)
  {
    var n := |types[t]|;
    assert forall p :: Found(types, root, level, path, n, p) <==> Found(types, root, level + {path}, [], 0, p);
    forall t | t in count ensures count[t] > 1 <==> FoundTwice(types, root, level + {path}, [], 0, t) {
      assert FoundTwice(types, root, level, path, n, t) <==> FoundTwice(types, root, level + {path}, [], 0, t);
    }
  }

  /** A queued path to an unvisited type is a shortest one. */
  lemma FirstIsShortest(types: Types, root: nat, depth: nat, homes: set<seq<nat>>, doubles: set<seq<nat>>,
                        visited: set<nat>, e: Embedded)
    requires ValidTypes(types) && root < |types| && Visited(types, root, depth, homes, doubles, visited)
    requires |e.index| == depth && TypeAt(types, root, e.index) == Some(e.typ) && e.typ !in visited
    ensures Shortest(types, root, e.index)
    ensures forall h :: h in homes ==> TypeAt(types, root, h) != Some(e.typ)
    ensures forall p :: |p| < depth ==> Covered(types, root, visited + {e.typ}, p)
  {
    hide TypeAt;
    assert e.typ in visited <==> Homed(types, root, homes, e.typ);
    forall p | TypeAt(types, root, p) == Some(e.typ) ensures depth <= |p| {
      assert |p| < depth ==> Covered(types, root, visited, p);
    }
    forall p | |p| < depth ensures Covered(types, root, visited + {e.typ}, p) {
      assert Covered(types, root, visited, p);
    }
  }

  lemma OneMoreHome(types: Types, root: nat, homes: set<seq<nat>>, visited: set<nat>, e: Embedded)
    requires ValidTypes(types) && root < |types| && TypeAt(types, root, e.index) == Some(e.typ)
    requires forall t {:trigger Homed(types, root, homes, t)} :: t in visited <==> Homed(types, root, homes, t)
    ensures forall t {:trigger Homed(types, root, homes + {e.index}, t)} :: t in visited + {e.typ} <==>
      Homed(types, root, homes + {e.index}, t)
  {
    hide TypeAt;
    forall t ensures t in visited + {e.typ} <==> Homed(types, root, homes + {e.index}, t) {
      assert t in visited <==> Homed(types, root, homes, t);
      assert e.index in homes + {e.index};
      if h :| h in homes && TypeAt(types, root, h) == Some(t) {
        assert h in homes + {e.index};
      }
    }
  }

  lemma RecountsStay(types: Types, root: nat, depth: nat, homes: set<seq<nat>>, path: seq<nat>)
    requires ValidTypes(types) && root < |types| && |path| == depth
    requires forall h :: h in homes ==> |h| <= depth
    ensures forall h {:trigger Recounted(types, root, homes + {path}, h)} :: h in homes + {path} ==>
              (Recounted(types, root, homes + {path}, h) <==> Recounted(types, root, homes, h))
  {
    forall h | h in homes + {path}
      ensures Recounted(types, root, homes + {path}, h) <==> Recounted(types, root, homes, h)
    {
      SameRecount(types, root, homes, homes + {path}, h);
    }
  }

  lemma RootedStays(homes: set<seq<nat>>, path: seq<nat>)
    requires forall h {:trigger Rooted(homes, h)} :: h in homes ==> Rooted(homes, h)
    requires Rooted(homes, path)
    ensures forall h {:trigger Rooted(homes + {path}, h)} :: h in homes + {path} ==> Rooted(homes + {path}, h)
  {
    forall h {:trigger Rooted(homes + {path}, h)} | h in homes + {path} ensures Rooted(homes + {path}, h) {
      assert h in homes ==> Rooted(homes, h);
    }
  }

  /** An unvisited type of this level becomes visited, with its queued path as its home. */
  lemma VisitOne(types: Types, root: nat, depth: nat, homes: set<seq<nat>>, doubles: set<seq<nat>>, visited: set<nat>,
                 e: Embedded, doubling: bool)
    requires ValidTypes(types) && root < |types| && Visited(types, root, depth, homes, doubles, visited)
    requires |e.index| == depth && TypeAt(types, root, e.index) == Some(e.typ) && e.typ !in visited
    requires doubling <==> Recounted(types, root, homes, e.index)
    requires depth > 0 ==> Front(e.index) in homes
    requires forall h :: h in homes ==> |h| <= depth
    ensures e.index !in homes
    ensures Visited(types, root, depth, homes + {e.index}, if doubling then doubles + {e.index} else doubles,
      visited + {e.typ})
  {
    hide TypeAt, Recounted, Homed, Covered, Shortest;
    FirstIsShortest(types, root, depth, homes, doubles, visited, e);
    OneMoreHome(types, root, homes, visited, e);
    RecountsStay(types, root, depth, homes, e.index);
    var homes' := homes + {e.index};
    RootedStays(homes, e.index);
    var doubles' := if doubling then doubles + {e.index} else doubles;
    forall h | h in homes' ensures h in doubles' <==> Recounted(types, root, homes', h) {
      assert Recounted(types, root, homes', h) <==> Recounted(types, root, homes, h);
    }
  }

  /** A step along an explored field depends only on the type it starts from. */
  lemma SameStep(types: Types, root: nat, p: seq<nat>, q: seq<nat>, k: nat)
    requires ValidTypes(types) && root < |types|
    requires TypeAt(types, root, p).Some? && TypeAt(types, root, p) == TypeAt(types, root, q)
    ensures TypeAt(types, root, p + [k]) == TypeAt(types, root, q + [k])
  {
    assert Front(p + [k]) == p && Front(q + [k]) == q;
  }

  lemma Explores(types: Types, root: nat, p: seq<nat>)
    requires ValidTypes(types) && root < |types| && p != [] && TypeAt(types, root, p).Some?
    ensures TypeAt(types, root, Front(p)).Some?
    ensures !EmbedsNothing(types[TypeAt(types, root, Front(p)).value])
  {
  }

  /** Where forks are plain, a home of a type that embeds something is the only path of its length. */
  lemma OnlyPath(types: Types, root: nat, h: seq<nat>, p: seq<nat>)
    requires ValidTypes(types) && root < |types| && PlainForks(types, root)
    requires p != [] && TypeAt(types, root, p).Some? && |h| == |Front(p)|
    requires Shortest(types, root, h) && TypeAt(types, root, h) == TypeAt(types, root, Front(p))
    ensures h == Front(p)
  {
    Explores(types, root, p);
    hide TypeAt;
    assert !Forked(types, root, h);
  }

  /** A path's front leads to a type with a home, and the last step is the same from there. */
  lemma StepFromHome(types: Types, root: nat, homes: set<seq<nat>>, p: seq<nat>) returns (h: seq<nat>)
    requires ValidTypes(types) && root < |types|
    requires p != [] && TypeAt(types, root, p).Some?
    requires TypeAt(types, root, Front(p)).Some? ==> Homed(types, root, homes, TypeAt(types, root, Front(p)).value)
    ensures h in homes && TypeAt(types, root, h).Some? && TypeAt(types, root, h) == TypeAt(types, root, Front(p))
    ensures TypeAt(types, root, h + [Last(p)]) == TypeAt(types, root, p)
  {
    h :| h in homes && TypeAt(types, root, h) == TypeAt(types, root, Front(p));
    SameStep(types, root, Front(p), h, Last(p));
    assert Front(p) + [Last(p)] == p;
  }

  /** Whatever lies one deeper lies behind the home of the type before it. */
  lemma BehindHome(types: Types, root: nat, depth: nat, homes: set<seq<nat>>, doubles: set<seq<nat>>,
                   visited: set<nat>, p: seq<nat>)
    returns (h: seq<nat>)
    requires ValidTypes(types) && root < |types| && Visited(types, root, depth + 1, homes, doubles, visited)
    requires |p| == depth + 1 && TypeAt(types, root, p).Some?
    ensures h in homes && |h| <= depth
    ensures TypeAt(types, root, h).Some? && TypeAt(types, root, h) == TypeAt(types, root, Front(p))
    ensures TypeAt(types, root, h + [Last(p)]) == TypeAt(types, root, p)
    ensures |h| < depth ==> TypeAt(types, root, p).value in visited
  {
    hide TypeAt;
    assert Covered(types, root, visited, Front(p));
    if TypeAt(types, root, Front(p)).Some? {
      assert Homed(types, root, homes, TypeAt(types, root, Front(p)).value);
    }
    h := StepFromHome(types, root, homes, p);
    assert Shortest(types, root, h);
    assert |h| < depth ==> Covered(types, root, visited, h + [Last(p)]);
  }

  lemma NextIsReady(types: Types, root: nat, depth: nat, homes: set<seq<nat>>, doubles: set<seq<nat>>,
                    visited: set<nat>,
                    level: set<seq<nat>>, next: seq<Embedded>, count: map<nat, nat>)
    requires ValidTypes(types) && root < |types| && Visited(types, root, depth + 1, homes, doubles, visited)
    requires forall h :: h in level <==> h in homes && |h| == depth
    requires Queued(types, root, level, [], 0, next, count)
    ensures Ready(types, root, depth + 1, homes, visited, next, count)
  {
    hide TypeAt;
    forall p | |p| == depth + 1 && TypeAt(types, root, p).Some?
      ensures Covered(types, root, visited, p) || InQueue(next, TypeAt(types, root, p).value)
    {
      var h := BehindHome(types, root, depth, homes, doubles, visited, p);
      if |h| == depth {
        assert Front(h + [Last(p)]) == h;
        assert Found(types, root, level, [], 0, h + [Last(p)]);
        assert InQueue(next, TypeAt(types, root, p).value);
      }
    }
    forall e | e in next && e.typ !in visited
      ensures CountOf(count, e.typ) > 1 <==> Recounted(types, root, homes, e.index)
    {
      var i :| 0 <= i < |next| && next[i] == e;
      assert InQueue(next, e.typ);
      assert count[e.typ] > 1 <==> FoundTwice(types, root, level, [], 0, e.typ);
      if q :|
        && q != [] && q != e.index && |q| == |e.index| && Front(q) in homes
        && TypeAt(types, root, q) == TypeAt(types, root, e.index)
      {
        assert Found(types, root, level, [], 0, q);
        assert Found(types, root, level, [], 0, e.index);
      }
    }
  }

  /** What holds while a level is being processed. */
  ghost predicate InLevel(types: Types, root: nat, depth: nat, homes: set<seq<nat>>, doubles: set<seq<nat>>,
                          visited: set<nat>,
                          level: set<seq<nat>>, fields: seq<JsonField>, next: seq<Embedded>, count: map<nat, nat>)
    requires ValidTypes(types) && root < |types|
  {
    && Visited(types, root, depth, homes, doubles, visited)
    && (forall h :: h in homes ==> |h| <= depth)
    && (forall h :: h in level <==> h in homes && |h| == depth)
    && Collected(types, root, Closed(homes, doubles), fields)
    && Queued(types, root, level, [], 0, next, count)
  }

  /** An unvisited entry of the level is visited. */
  method VisitEntry(types: Types, ghost root: nat, ghost depth: nat, e: Embedded, doubling: bool,
                    ghost homes: set<seq<nat>>, ghost doubles: set<seq<nat>>, ghost visited: set<nat>,
                    ghost level: set<seq<nat>>,
                    fields0: seq<JsonField>, next0: seq<Embedded>, count0: map<nat, nat>)
    returns (fields: seq<JsonField>, next: seq<Embedded>, count: map<nat, nat>)
    requires ValidTypes(types) && root < |types|
    requires InLevel(types, root, depth, homes, doubles, visited, level, fields0, next0, count0)
    requires |e.index| == depth && TypeAt(types, root, e.index) == Some(e.typ) && e.typ !in visited
    requires doubling <==> Recounted(types, root, homes, e.index)
    requires depth > 0 ==> Front(e.index) in homes
    ensures InLevel(types, root, depth, homes + {e.index}, if doubling then doubles + {e.index} else doubles,
                    visited + {e.typ}, level + {e.index}, fields, next, count)
  {
    hide TypeAt;
    VisitOne(types, root, depth, homes, doubles, visited, e, doubling);
    CollectedOpen(types, root, homes, doubles, e.index, doubling, fields0);
    QueuedOpen(types, root, level, e.index, next0, count0);
    fields, next, count := ExploreType(types, root, e, doubling, homes, doubles, level, fields0, next0, count0);
    CollectedClose(types, root, Progress(homes, doubles, e.index, |types[e.typ]|, doubling), e.typ, fields);
    QueuedClose(types, root, level, e.index, e.typ, next, count);
  }

  lemma LevelDone(types: Types, root: nat, depth: nat, homes0: set<seq<nat>>, visited0: set<nat>,
                  current: seq<Embedded>, count0: map<nat, nat>,
                  homes: set<seq<nat>>, doubles: set<seq<nat>>, visited: set<nat>,
                  level: set<seq<nat>>, fields: seq<JsonField>, next: seq<Embedded>, count: map<nat, nat>)
    requires ValidTypes(types) && root < |types|
    requires Ready(types, root, depth, homes0, visited0, current, count0)
    requires InLevel(types, root, depth, homes, doubles, visited, level, fields, next, count)
    requires visited0 <= visited && forall j :: 0 <= j < |current| ==> current[j].typ in visited
    ensures Visited(types, root, depth + 1, homes, doubles, visited)
    ensures Ready(types, root, depth + 1, homes, visited, next, count)
  {
    hide TypeAt;
    forall p | |p| < depth + 1 ensures Covered(types, root, visited, p) {
      if |p| == depth {
        assert Covered(types, root, visited0, p) || InQueue(current, TypeAt(types, root, p).value);
      }
    }
    NextIsReady(types, root, depth, homes, doubles, visited, level, next, count);
  }

  /** Processes one level of the queue. */
  method SweepLevel(types: Types, ghost root: nat, ghost depth: nat, current: seq<Embedded>, count: map<nat, nat>,
                    ghost homes0: set<seq<nat>>, ghost doubles0: set<seq<nat>>, visited0: set<nat>,
                    fields0: seq<JsonField>)
    returns (ghost homes: set<seq<nat>>, ghost doubles: set<seq<nat>>, visited: set<nat>, fields: seq<JsonField>,
             next: seq<Embedded>, nextCount: map<nat, nat>)
    requires ValidTypes(types) && root < |types|
    requires Visited(types, root, depth, homes0, doubles0, visited0)
    requires forall h :: h in homes0 ==> |h| < depth
    requires Collected(types, root, Closed(homes0, doubles0), fields0)
    requires Ready(types, root, depth, homes0, visited0, current, count)
    ensures Visited(types, root, depth + 1, homes, doubles, visited)
    ensures forall h :: h in homes ==> |h| < depth + 1
    ensures Collected(types, root, Closed(homes, doubles), fields)
    ensures Ready(types, root, depth + 1, homes, visited, next, nextCount)
    ensures visited0 <= visited && (visited == visited0 ==> next == [])
  {
    hide TypeAt, Visited, Collected, Queued;
    homes, doubles, visited, fields, next, nextCount := homes0, doubles0, visited0, fields0, [], map[];
    ghost var level: set<seq<nat>> := {};
    EmptyQueue(types, root);
    for k := 0 to |current|
      invariant InLevel(types, root, depth, homes, doubles, visited, level, fields, next, nextCount)
      invariant forall j :: 0 <= j < k ==> current[j].typ in visited
      invariant visited0 <= visited && (visited == visited0 ==> next == [])
      invariant homes0 <= homes && forall h :: h in homes && h !in homes0 ==> |h| == depth
    {
      var e := current[k];
      assert e in current;
      if e.typ in visited {
        continue;
      }
      var doubling := CountOf(count, e.typ) > 1;
      SameRecount(types, root, homes0, homes, e.index);
      fields, next, nextCount :=
        VisitEntry(types, root, depth, e, doubling, homes, doubles, visited, level, fields, next, nextCount);
      visited := visited + {e.typ};
      level := level + {e.index};
      homes := homes + {e.index};
      doubles := if doubling then doubles + {e.index} else doubles;
    }
    LevelDone(types, root, depth, homes0, visited0, current, count, homes, doubles, visited, level, fields, next,
      nextCount);
  }

  lemma EmptyQueue(types: Types, root: nat)
    requires ValidTypes(types) && root < |types|
    ensures Queued(types, root, {}, [], 0, [], map[])
  {
  }

  ghost predicate Settled(types: Types, root: nat, homes: set<seq<nat>>, p: seq<nat>)
    requires ValidTypes(types) && root < |types|
  {
    TypeAt(types, root, p).Some? ==> Homed(types, root, homes, TypeAt(types, root, p).value)
  }

  /** Every reachable type has one home, a shortest path; the recounted homes are doubled. */
  ghost predicate Complete(types: Types, root: nat, homes: set<seq<nat>>, doubles: set<seq<nat>>)
    requires ValidTypes(types) && root < |types|
  {
    && doubles <= homes
    && (forall h :: h in homes ==> Shortest(types, root, h))
    && (forall h, g :: h in homes && g in homes && TypeAt(types, root, h) == TypeAt(types, root, g) ==> h == g)
    && (forall h {:trigger Rooted(homes, h)} :: h in homes ==> Rooted(homes, h))
    && (forall p {:trigger Settled(types, root, homes, p)} :: Settled(types, root, homes, p))
    && (forall h {:trigger Recounted(types, root, homes, h)} :: h in homes ==>
      (h in doubles <==> Recounted(types, root, homes, h)))
  }

  /** When a level queues nothing, nothing deeper is left either. */
  lemma {:induction false} AllReached(types: Types, root: nat, depth: nat, homes: set<seq<nat>>, doubles: set<seq<nat>>,
                                      visited: set<nat>, count: map<nat, nat>, p: seq<nat>)
    requires ValidTypes(types) && root < |types|
    requires Visited(types, root, depth, homes, doubles, visited) &&
      Ready(types, root, depth, homes, visited, [], count)
    requires forall h :: h in homes ==> |h| < depth
    requires TypeAt(types, root, p).Some?
    ensures TypeAt(types, root, p).value in visited
    decreases |p|
  {
    if |p| > depth {
      AllReached(types, root, depth, homes, doubles, visited, count, Front(p));
      hide TypeAt;
      assert Homed(types, root, homes, TypeAt(types, root, Front(p)).value);
      var h := StepFromHome(types, root, homes, p);
      AllReached(types, root, depth, homes, doubles, visited, count, h + [Last(p)]);
    } else {
      assert Covered(types, root, visited, p) || InQueue([], TypeAt(types, root, p).value);
    }
  }

  lemma SweepStart(types: Types, root: nat)
    requires ValidTypes(types) && root < |types|
    ensures Visited(types, root, 0, {}, {}, {})
    ensures Ready(types, root, 0, {}, {}, [Embedded([], root)], map[])
    ensures Collected(types, root, Closed({}, {}), [])
  {
    var next := [Embedded([], root)];
    assert next[0].typ == root && InQueue(next, root);
  }

  ghost function Unvisited(types: Types, visited: set<nat>): set<nat> {
    set t: nat | t < |types| && t !in visited
  }

  /** A newly visited type is a type. */
  lemma VisitedIsType(types: Types, root: nat, depth: nat, homes: set<seq<nat>>, doubles: set<seq<nat>>,
                      visited: set<nat>, t: nat)
    requires ValidTypes(types) && root < |types| && Visited(types, root, depth, homes, doubles, visited) && t in visited
    ensures t < |types|
  {
    hide TypeAt;
    assert Homed(types, root, homes, t);
  }

  lemma SweepEnd(types: Types, root: nat, depth: nat, homes: set<seq<nat>>, doubles: set<seq<nat>>, visited: set<nat>,
                 count: map<nat, nat>)
    requires ValidTypes(types) && root < |types|
    requires Visited(types, root, depth, homes, doubles, visited) &&
      Ready(types, root, depth, homes, visited, [], count)
    requires forall h :: h in homes ==> |h| < depth
    ensures Complete(types, root, homes, doubles)
  {
    hide TypeAt;
    forall p ensures Settled(types, root, homes, p) {
      if TypeAt(types, root, p).Some? {
        AllReached(types, root, depth, homes, doubles, visited, count, p);
        assert Homed(types, root, homes, TypeAt(types, root, p).value);
      }
    }
  }

  /**
   The breadth-first sweep. It terminates on recursive types, and collects the properties of
   every reachable struct type along one shortest path each.
   */
  method Sweep(types: Types, root: nat)
    returns (ghost homes: set<seq<nat>>, ghost doubles: set<seq<nat>>, fields: seq<JsonField>)
    requires ValidTypes(types) && root < |types|
    ensures Complete(types, root, homes, doubles)
    ensures Collected(types, root, Closed(homes, doubles), fields)
    ensures forall f :: f in fields ==> Occurs(types, root, f.index) && f == FieldAt(types, root, f.index)
  {
    homes, doubles, fields := {}, {}, [];
    var next, nextCount := [Embedded([], root)], map[];
    var visited: set<nat> := {};
    ghost var depth := 0;
    SweepStart(types, root);
    hide TypeAt, Collected, Ready, Visited, Complete;
    while |next| > 0
      invariant Visited(types, root, depth, homes, doubles, visited)
      invariant forall h :: h in homes ==> |h| < depth
      invariant Collected(types, root, Closed(homes, doubles), fields)
      invariant Ready(types, root, depth, homes, visited, next, nextCount)
      decreases Unvisited(types, visited), |next|
    {
      ghost var before := visited;
      homes, doubles, visited, fields, next, nextCount :=
        SweepLevel(types, root, depth, next, nextCount, homes, doubles, visited, fields);
      depth := depth + 1;
      if visited != before {
        var t :| t in visited && t !in before;
        VisitedIsType(types, root, depth, homes, doubles, visited, t);
        assert t in Unvisited(types, before) && t !in Unvisited(types, visited);
      }
    }
    SweepEnd(types, root, depth, homes, doubles, visited, nextCount);
    OnlyProperties(types, root, Closed(homes, doubles), fields);
  }

  lemma OnlyProperties(types: Types, root: nat, g: Progress, fields: seq<JsonField>)
    requires ValidTypes(types) && root < |types| && Collected(types, root, g, fields)
    ensures forall f :: f in fields ==> Occurs(types, root, f.index) && f == FieldAt(types, root, f.index)
  {
  }

  /** In any type, only forked homes are doubled. */
  lemma DoublesAreForked(types: Types, root: nat, homes: set<seq<nat>>, doubles: set<seq<nat>>, h: seq<nat>)
    requires ValidTypes(types) && root < |types|
    requires Complete(types, root, homes, doubles) && h in homes && h in doubles
    ensures Forked(types, root, h)
  {
    hide TypeAt;
    assert h in doubles <==> Recounted(types, root, homes, h);
  }

  /** Where forks are plain, the homes the sweep doubles are exactly the forked ones. */
  lemma PlainForksAreCounted(types: Types, root: nat, homes: set<seq<nat>>, doubles: set<seq<nat>>, h: seq<nat>)
    requires ValidTypes(types) && root < |types| && PlainForks(types, root)
    requires Complete(types, root, homes, doubles) && h in homes
    ensures h in doubles <==> Forked(types, root, h)
  {
    hide TypeAt;
    assert h in doubles <==> Recounted(types, root, homes, h);
    if p :| p != h && |p| == |h| && TypeAt(types, root, p) == TypeAt(types, root, h) {
      FrontIsHome(types, root, homes, doubles, p);
      assert Recounted(types, root, homes, h);
    }
  }

  /** A shortest path of positive length steps from a home. */
  lemma FrontIsHome(types: Types, root: nat, homes: set<seq<nat>>, doubles: set<seq<nat>>, p: seq<nat>)
    requires ValidTypes(types) && root < |types| && PlainForks(types, root)
    requires Complete(types, root, homes, doubles) && p != [] && Shortest(types, root, p)
    ensures Front(p) in homes
  {
    Explores(types, root, p);
    hide TypeAt;
    assert Settled(types, root, homes, Front(p));
    var g := StepFromHome(types, root, homes, p);
    assert Shortest(types, root, g);
    assert |p| <= |g + [Last(p)]|;
    OnlyPath(types, root, g, p);
  }
}
