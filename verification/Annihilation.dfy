/**
 The annihilation pass over the collected fields, and the main theorem about the whole of
 typeJSONFields (jsonfields.go:94-255).
 */
module Annihilation {
  import opened Wrappers
  import opened Ordering
  import opened JsonFields

  /** No other collected occurrence of the name is as shallow and as strongly tagged, or better. */
  ghost predicate Survivor(fields: seq<JsonField>, i: nat)
    requires i < |fields|
  {
    forall k :: 0 <= k < |fields| && k != i ==> !Hides(fields[k], fields[i])
  }

  /** The order of the first sort: names group, and within a group the better occurrence comes first. */
  predicate ByName(a: JsonField, b: JsonField) {
    if a.name != b.name then Lex(Codes(a.name), Codes(b.name))
    else if |a.index| != |b.index| then |a.index| < |b.index|
    else if a.tagged != b.tagged then a.tagged
    else Lex(a.index, b.index)
  }

  predicate ByIndex(a: JsonField, b: JsonField) {
    Lex(a.index, b.index)
  }

  lemma ByNameTransitive(a: JsonField, b: JsonField, c: JsonField)
    requires ByName(a, b) && ByName(b, c)
    ensures ByName(a, c)
  {
    if a.name != b.name || b.name != c.name {
      LexTransitive(Codes(a.name), Codes(b.name), Codes(c.name)) by {
        LexTotal(Codes(a.name), Codes(a.name));
        LexTotal(Codes(b.name), Codes(b.name));
      }
      LexTotal(Codes(a.name), Codes(b.name));
      if a.name == c.name {
        CodesInjective(a.name, b.name);
      }
    } else if |a.index| == |b.index| == |c.index| && a.tagged == b.tagged == c.tagged {
      LexTransitive(a.index, b.index, c.index);
    }
  }

  lemma Orders()
    ensures TotalOrder(ByName) && TotalOrder(ByIndex)
  {
    forall a: JsonField, b: JsonField ensures (ByName(a, b) || ByName(b, a)) && (ByIndex(a, b) || ByIndex(b, a)) {
      LexTotal(Codes(a.name), Codes(b.name));
      LexTotal(a.index, b.index);
    }
    forall a: JsonField, b: JsonField, c: JsonField | ByName(a, b) && ByName(b, c) ensures ByName(a, c) {
      ByNameTransitive(a, b, c);
    }
    forall a: JsonField, b: JsonField, c: JsonField | ByIndex(a, b) && ByIndex(b, c) ensures ByIndex(a, c) {
      LexTransitive(a.index, b.index, c.index);
    }
  }

  /** In a list sorted by name, equal names stand together. */
  lemma Together(s: seq<JsonField>, i: nat, k: nat, j: nat)
    requires SortedBy(s, ByName) && i <= k <= j < |s| && s[i].name == s[j].name
    ensures s[k].name == s[i].name
  {
    if s[k].name != s[i].name {
      assert ByName(s[i], s[k]) && ByName(s[k], s[j]);
      LexTotal(Codes(s[i].name), Codes(s[k].name));
      CodesInjective(s[i].name, s[k].name);
    }
  }

  /** Among sorted fields that share a name, the first wins unless the second ties with it. */
  function DominantField(fields: seq<JsonField>): Option<JsonField>
    requires fields != []
  {
    if |fields| > 1 && |fields[0].index| == |fields[1].index| && fields[0].tagged == fields[1].tagged then None
    else Some(fields[0])
  }

  /** The group from i to j holds every occurrence of its name. */
  ghost predicate Group(s: seq<JsonField>, i: nat, j: nat) {
    && i < j <= |s|
    && (forall k :: i <= k < j ==> s[k].name == s[i].name)
    && (forall k :: 0 <= k < |s| && (k < i || j <= k) ==> s[k].name != s[i].name)
  }

  lemma DominantIsSurvivor(s: seq<JsonField>, i: nat, j: nat)
    requires SortedBy(s, ByName) && Group(s, i, j)
    ensures DominantField(s[i..j]).Some? <==> Survivor(s, i)
    ensures DominantField(s[i..j]).Some? ==> DominantField(s[i..j]).value == s[i]
    ensures forall k :: i < k < j ==> !Survivor(s, k)
  {
    forall k | i < k < j ensures Hides(s[i], s[k]) && (Hides(s[k], s[i]) ==> Hides(s[i + 1], s[i])) {
      assert ByName(s[i], s[k]);
      if k > i + 1 {
        assert ByName(s[i + 1], s[k]);
      }
    }
    if j > i + 1 {
      assert s[i..j][1] == s[i + 1];
      assert ByName(s[i], s[i + 1]);
      assert Hides(s[i + 1], s[i]) <==> DominantField(s[i..j]).None?;
    }
  }

  /** The kept fields are the survivors among the first n, with all names different. */
  ghost predicate Kept(s: seq<JsonField>, n: nat, out: seq<JsonField>)
    requires n <= |s|
  {
    && (forall f :: f in out <==> exists i :: 0 <= i < n && Survivor(s, i) && f == s[i])
    && (forall a, b :: 0 <= a < b < |out| ==> out[a].name != out[b].name)
  }

  lemma KeepGroup(s: seq<JsonField>, i: nat, j: nat, out: seq<JsonField>)
    requires SortedBy(s, ByName) && Group(s, i, j) && Kept(s, i, out)
    ensures Kept(s, j, out + match DominantField(s[i..j]) case None => [] case Some(f) => [f])
  {
    DominantIsSurvivor(s, i, j);
    var more := match DominantField(s[i..j]) case None => [] case Some(f) => [f];
    var out' := out + more;
    forall f ensures f in out' <==> exists k :: 0 <= k < j && Survivor(s, k) && f == s[k] {
      if f in out {
        var k :| 0 <= k < i && Survivor(s, k) && f == s[k];
      }
      if k :| 0 <= k < j && Survivor(s, k) && f == s[k] {
        if k < i {
          assert f in out;
        } else {
          assert k == i && f in more;
        }
      }
    }
    forall a, b | 0 <= a < b < |out'| ensures out'[a].name != out'[b].name {
      if b >= |out| {
        assert out'[a] in out && out'[b] == s[i];
        var k :| 0 <= k < i && Survivor(s, k) && out'[a] == s[k];
      }
    }
  }

  /** How many fields from i on share its name. */
  method GroupLength(fields: array<JsonField>, i: nat, ghost s: seq<JsonField>) returns (advance: nat)
    requires i < fields.Length == |s| && SortedBy(s, ByName)
    requires forall k :: i <= k < |s| ==> fields[k] == s[k]
    requires forall k :: 0 <= k < i ==> s[k].name != s[i].name
    ensures i + advance <= |s| && Group(s, i, i + advance)
    ensures i + advance < |s| ==> forall k :: 0 <= k < i + advance ==> s[k].name != s[i + advance].name
  {
    advance := 1;
    while i + advance < fields.Length && fields[i + advance].name == fields[i].name
      invariant 1 <= advance && i + advance <= |s|
      invariant forall k :: i <= k < i + advance ==> s[k].name == s[i].name
    {
      advance := advance + 1;
    }
    var j := i + advance;
    forall k | j <= k < |s| ensures s[k].name != s[i].name {
      if s[k].name == s[i].name {
        Together(s, i, j, k);
      }
    }
    if j < |s| {
      forall k | 0 <= k < j ensures s[k].name != s[j].name {
        if k < i && s[k].name == s[j].name {
          Together(s, k, i, j);
        }
      }
    }
  }

  /** The append to `fields[:0]`, which writes into the array being filtered. */
  method Keep(fields: array<JsonField>, kept0: nat, dominant: Option<JsonField>) returns (kept: nat)
    requires kept0 < fields.Length
    modifies fields
    ensures kept <= kept0 + 1 && forall k :: kept0 < k < fields.Length ==> fields[k] == old(fields[k])
    ensures kept <= fields.Length
    ensures fields[..kept] == old(fields[..kept0]) + match dominant case None => [] case Some(f) => [f]
  {
    kept := kept0;
    if dominant.Some? {
      fields[kept] := dominant.value;
      kept := kept + 1;
    }
  }

  lemma OneAlone(s: seq<JsonField>, i: nat)
    requires i < |s|
    ensures DominantField(s[i..i + 1]) == Some(s[i])
  {
  }

  /** One group is resolved: its dominant field, if any, is kept. */
  method ResolveGroup(fields: array<JsonField>, i: nat, kept0: nat, ghost s: seq<JsonField>)
    returns (advance: nat, kept: nat)
    requires kept0 <= i < fields.Length == |s| && SortedBy(s, ByName)
    requires forall k :: i <= k < |s| ==> fields[k] == s[k]
    requires forall k :: 0 <= k < i ==> s[k].name != s[i].name
    requires Kept(s, i, fields[..kept0])
    modifies fields
    ensures 0 < advance && kept <= i + advance <= |s|
    ensures forall k :: i + advance <= k < |s| ==> fields[k] == s[k]
    ensures i + advance < |s| ==> forall k :: 0 <= k < i + advance ==> s[k].name != s[i + advance].name
    ensures Kept(s, i + advance, fields[..kept])
  {
    hide Kept, DominantField;
    advance := GroupLength(fields, i, s);
    KeepGroup(s, i, i + advance, fields[..kept0]);
    var dominant := Some(fields[i]);
    if advance == 1 {
      OneAlone(s, i);
    } else {
      assert fields[i..i + advance] == s[i..i + advance];
      dominant := DominantField(fields[i..i + advance]);
    }
    assert dominant == DominantField(s[i..i + advance]);
    kept := Keep(fields, kept0, dominant);
  }

  lemma NoneKept(s: seq<JsonField>)
    ensures Kept(s, 0, [])
  {
  }

  /** The pass itself: filters the array in place and returns how many fields it kept. */
  method Annihilate(fields: array<JsonField>) returns (kept: nat)
    requires SortedBy(fields[..], ByName)
    modifies fields
    ensures kept <= fields.Length
    ensures Kept(old(fields[..]), fields.Length, fields[..kept])
  {
    hide Kept, SortedBy;
    ghost var s := fields[..];
    kept := 0;
    NoneKept(s);
    assert fields[..kept] == [];
    var i := 0;
    while i < fields.Length
      invariant kept <= i <= fields.Length
      invariant forall k :: i <= k < fields.Length ==> fields[k] == s[k]
      invariant i < fields.Length ==> forall k :: 0 <= k < i ==> s[k].name != s[i].name
      invariant Kept(s, i, fields[..kept])
    {
      var advance: nat;
      advance, kept := ResolveGroup(fields, i, kept, s);
      i := i + advance;
    }
  }

  // ---------------------------------------------------------------- the whole function

  /** Survival only depends on how often each field was collected, not on the order. */
  lemma SurvivorByCount(s: seq<JsonField>, i: nat)
    requires i < |s|
    ensures Survivor(s, i) <==> forall g :: g in multiset(s)[s[i] := multiset(s)[s[i]] - 1] ==> !Hides(g, s[i])
  {
    hide Hides, Survivor;
    var rest := s[..i] + s[i + 1..];
    LeavesOut(s, i);
    forall k | 0 <= k < |s| && k != i ensures s[k] in rest {
      assert s[k] == rest[if k < i then k else k - 1];
    }
    forall g | g in rest ensures exists k :: 0 <= k < |s| && k != i && s[k] == g {
      var k :| 0 <= k < |rest| && rest[k] == g;
      assert s[if k < i then k else k + 1] == g;
    }
    assert forall g :: g in multiset(rest) <==> g in rest;
    SurvivesBeside(s, i, rest);
  }

  lemma SurvivesBeside(s: seq<JsonField>, i: nat, rest: seq<JsonField>)
    requires i < |s|
    requires forall k :: 0 <= k < |s| && k != i ==> s[k] in rest
    requires forall g :: g in rest ==> exists k :: 0 <= k < |s| && k != i && s[k] == g
    ensures Survivor(s, i) <==> forall g :: g in rest ==> !Hides(g, s[i])
  {
    hide Hides;
  }

  lemma LeavesOut(s: seq<JsonField>, i: nat)
    requires i < |s|
    ensures multiset(s)[s[i] := multiset(s)[s[i]] - 1] == multiset(s[..i] + s[i + 1..])
  {
    var rest := s[..i] + s[i + 1..];
    assert s == s[..i] + [s[i]] + s[i + 1..];
    assert multiset(s) == multiset(rest) + multiset{s[i]};
  }

  lemma SurvivorsOfPermutation(s: seq<JsonField>, t: seq<JsonField>, i: nat) returns (j: nat)
    requires multiset(s) == multiset(t) && i < |s| && Survivor(s, i)
    ensures j < |t| && t[j] == s[i] && Survivor(t, j)
  {
    assert s[i] in multiset(t);
    j :| 0 <= j < |t| && t[j] == s[i];
    SurvivorByCount(s, i);
    SurvivorByCount(t, j);
  }

  /** The home of the type a property belongs to, and the field collected for it there. */
  lemma CollectedAtHome(types: Types, root: nat, homes: set<seq<nat>>, doubles: set<seq<nat>>, fields: seq<JsonField>,
                        index: seq<nat>)
    returns (h: seq<nat>, j: nat)
    requires ValidTypes(types) && root < |types|
    requires Complete(types, root, homes, doubles) && Collected(types, root, Closed(homes, doubles), fields)
    requires Occurs(types, root, index)
    ensures h in homes && TypeAt(types, root, h) == TypeAt(types, root, Front(index)) && |h| <= |Front(index)|
    ensures j < |fields| && fields[j].index == h + [Last(index)]
    ensures Front(fields[j].index) == h && Last(fields[j].index) == Last(index)
    ensures fields[j].name == FieldAt(types, root, index).name && fields[j].tagged == FieldAt(types, root, index).tagged
    ensures Occurs(types, root, fields[j].index) && fields[j] == FieldAt(types, root, fields[j].index)
  {
    assert Settled(types, root, homes, Front(index));
    h :| h in homes && TypeAt(types, root, h) == TypeAt(types, root, Front(index));
    assert Shortest(types, root, h);
    var at := h + [Last(index)];
    assert Front(at) == h;
    assert Listed(fields, at);
    j :| 0 <= j < |fields| && fields[j].index == at;
    assert fields[j] in fields;
  }

  /** A field collected twice hides itself. */
  lemma SurvivorIsAlone(types: Types, root: nat, g: Progress, fields: seq<JsonField>, i: nat)
    requires ValidTypes(types) && root < |types| && Collected(types, root, g, fields)
    requires i < |fields| && Survivor(fields, i)
    ensures !Twin(fields, i)
  {
    assert forall k :: 0 <= k < |fields| && fields[k].index == fields[i].index ==> Hides(fields[k], fields[i]);
  }

  /** What survives is what Go makes visible, unless its embedding path is forked: then it is a false survivor. */
  lemma SurvivorIsVisible(types: Types, root: nat, homes: set<seq<nat>>, doubles: set<seq<nat>>,
                          fields: seq<JsonField>, i: nat)
    requires ValidTypes(types) && root < |types|
    requires Complete(types, root, homes, doubles) && Collected(types, root, Closed(homes, doubles), fields)
    requires i < |fields| && Survivor(fields, i)
    ensures fields[i].index != [] && fields[i] == FieldAt(types, root, fields[i].index)
    ensures Visible(types, root, fields[i].index) <==> !Forked(types, root, Front(fields[i].index))
  {
    hide TypeAt;
    var f := fields[i];
    assert f in fields;
    if Forked(types, root, Front(f.index)) {
      ForkHides(types, root, f.index);
    } else {
      forall other | Occurs(types, root, other) && other != f.index
        ensures !Hides(FieldAt(types, root, other), f)
      {
        var h, j := CollectedAtHome(types, root, homes, doubles, fields, other);
        if j != i {
          assert !Hides(fields[j], f);
        } else {
          // Another path to the very same field: it is longer, as this one is not forked.
          assert other == Front(other) + [Last(other)];
          assert Front(other) != h;
        }
      }
    }
  }

  /** Where another path of the same length leads to its type, a property is hidden by its copy there. */
  lemma ForkHides(types: Types, root: nat, index: seq<nat>)
    requires ValidTypes(types) && root < |types|
    requires Occurs(types, root, index) && Forked(types, root, Front(index))
    ensures !Visible(types, root, index)
  {
    hide TypeAt;
    var h := Front(index);
    assert index == h + [Last(index)];
    var p :| p != h && |p| == |h| && TypeAt(types, root, p) == TypeAt(types, root, h);
    var other := p + [Last(index)];
    assert Front(other) == p;
    assert Occurs(types, root, other) && Hides(FieldAt(types, root, other), FieldAt(types, root, index));
  }

  /** Every property Go makes visible, in any type, survives. */
  lemma VisibleSurvives(types: Types, root: nat, homes: set<seq<nat>>, doubles: set<seq<nat>>, fields: seq<JsonField>,
                        index: seq<nat>)
    returns (i: nat)
    requires ValidTypes(types) && root < |types|
    requires Complete(types, root, homes, doubles) && Collected(types, root, Closed(homes, doubles), fields)
    requires Visible(types, root, index)
    ensures i < |fields| && Survivor(fields, i) && fields[i] == FieldAt(types, root, index)
  {
    var h, j := CollectedAtHome(types, root, homes, doubles, fields, index);
    i := j;
    assert index == Front(index) + [Last(index)];
    assert fields[j].index == index;
    forall k | 0 <= k < |fields| && k != i ensures !Hides(fields[k], fields[i]) {
      assert fields[k] in fields;
      if fields[k].index == index {
        assert Twin(fields, i) <==> Doubled(Closed(homes, doubles), index);
        assert Twin(fields, i);
        DoublesAreForked(types, root, homes, doubles, h);
        ForkHides(types, root, index);
      }
    }
  }

  /** Two paths come to their struct from the same struct by the same field. */
  predicate SameStepIn(types: Types, root: nat, p: seq<nat>, q: seq<nat>)
    requires ValidTypes(types) && root < |types|
  {
    p != [] && q != [] && Last(p) == Last(q) && TypeAt(types, root, Front(p)) == TypeAt(types, root, Front(q))
  }

  /**
   A property of a forked struct that the count takes for one: every shortest path to the struct
   comes in by the same field of the same struct, and nothing but the property's own copies hides it.
   */
  ghost predicate LoneFork(types: Types, root: nat, index: seq<nat>)
    requires ValidTypes(types) && root < |types|
  {
    && Occurs(types, root, index)
    && Shortest(types, root, Front(index)) && Forked(types, root, Front(index))
    && (forall q :: |q| == |Front(index)| && TypeAt(types, root, q) == TypeAt(types, root, Front(index)) ==>
          SameStepIn(types, root, q, Front(index)))
    && (forall other {:trigger FieldAt(types, root, other)} ::
          Occurs(types, root, other) && !SameStepIn(types, root, other, index) ==>
          !Hides(FieldAt(types, root, other), FieldAt(types, root, index)))
  }

  /** The one home of such a struct is counted once. */
  lemma LoneForkIsSingle(types: Types, root: nat, homes: set<seq<nat>>, doubles: set<seq<nat>>, index: seq<nat>,
                         h: seq<nat>)
    requires ValidTypes(types) && root < |types| && LoneFork(types, root, index)
    requires Complete(types, root, homes, doubles) && h in homes
    requires TypeAt(types, root, h) == TypeAt(types, root, Front(index))
    ensures h !in doubles && Forked(types, root, h) && |h| == |Front(index)|
  {
    hide TypeAt;
    var p := Front(index);
    assert Shortest(types, root, h) && Rooted(homes, h);
    assert h in doubles <==> Recounted(types, root, homes, h);
    var r :| r != p && |r| == |p| && TypeAt(types, root, r) == TypeAt(types, root, p);
    assert Forked(types, root, h) by {
      assert (r != h && |r| == |h|) || (p != h && |p| == |h|);
    }
    forall q | q != [] && |q| == |h| && Front(q) in homes && TypeAt(types, root, q) == TypeAt(types, root, h)
      ensures q == h
    {
      assert SameStepIn(types, root, q, p) && SameStepIn(types, root, h, p);
      assert q == Front(q) + [Last(q)] && h == Front(h) + [Last(h)];
    }
  }

  lemma LoneForkSurvives(types: Types, root: nat, homes: set<seq<nat>>, doubles: set<seq<nat>>,
                         fields: seq<JsonField>, index: seq<nat>)
    returns (i: nat)
    requires ValidTypes(types) && root < |types| && LoneFork(types, root, index)
    requires Complete(types, root, homes, doubles) && Collected(types, root, Closed(homes, doubles), fields)
    ensures i < |fields| && Survivor(fields, i) && fields[i].index != [] && Forked(types, root, Front(fields[i].index))
  {
    hide TypeAt, Complete, Shortest;
    var h, j := CollectedAtHome(types, root, homes, doubles, fields, index);
    i := j;
    LoneForkIsSingle(types, root, homes, doubles, index, h);
    assert Twin(fields, i) <==> Doubled(Closed(homes, doubles), fields[i].index);
    forall k | 0 <= k < |fields| && k != i ensures !Hides(fields[k], fields[i]) {
      assert fields[k] in fields && Swept(Closed(homes, doubles), fields[k].index);
      var other := fields[k].index;
      OneCopy(types, root, homes, doubles, other, h, index);
      assert !Hides(FieldAt(types, root, other), FieldAt(types, root, index));
    }
  }

  /** A property has one copy at the homes. */
  lemma OneCopy(types: Types, root: nat, homes: set<seq<nat>>, doubles: set<seq<nat>>, other: seq<nat>, h: seq<nat>,
                index: seq<nat>)
    requires ValidTypes(types) && root < |types| && Complete(types, root, homes, doubles)
    requires other != [] && index != [] && Front(other) in homes && h in homes
    requires TypeAt(types, root, h) == TypeAt(types, root, Front(index))
    ensures SameStepIn(types, root, other, index) ==> other == h + [Last(index)]
  {
    hide TypeAt;
    assert other == Front(other) + [Last(other)];
  }

  /** A survivor that is forked is of that kind. */
  lemma ForkedSurvivorIsLone(types: Types, root: nat, homes: set<seq<nat>>, doubles: set<seq<nat>>,
                             fields: seq<JsonField>, i: nat)
    requires ValidTypes(types) && root < |types|
    requires Complete(types, root, homes, doubles) && Collected(types, root, Closed(homes, doubles), fields)
    requires i < |fields| && Survivor(fields, i) && fields[i].index != [] && Forked(types, root, Front(fields[i].index))
    ensures LoneFork(types, root, fields[i].index)
  {
    hide TypeAt;
    var f := fields[i];
    var index := f.index;
    assert f in fields && Swept(Closed(homes, doubles), index);
    SurvivorIsAlone(types, root, Closed(homes, doubles), fields, i);
    assert Twin(fields, i) <==> Doubled(Closed(homes, doubles), index);
    var h := Front(index);
    forall q | |q| == |h| && TypeAt(types, root, q) == TypeAt(types, root, h) ensures SameStepIn(types, root, q, h) {
      OneStepIn(types, root, homes, doubles, h, q);
    }
    forall other | Occurs(types, root, other) && !SameStepIn(types, root, other, index)
      ensures !Hides(FieldAt(types, root, other), f)
    {
      var g, k := CollectedAtHome(types, root, homes, doubles, fields, other);
      assert !Hides(fields[k], f);
    }
  }

  /** Shortest paths to a struct counted once all come in by one field of one struct. */
  lemma OneStepIn(types: Types, root: nat, homes: set<seq<nat>>, doubles: set<seq<nat>>, h: seq<nat>, q: seq<nat>)
    requires ValidTypes(types) && root < |types|
    requires Complete(types, root, homes, doubles) && h in homes && h !in doubles && Forked(types, root, h)
    requires |q| == |h| && TypeAt(types, root, q) == TypeAt(types, root, h)
    ensures SameStepIn(types, root, q, h)
  {
    assert Shortest(types, root, h) && h != [];
    Explores(types, root, q);
    hide TypeAt;
    assert h in doubles <==> Recounted(types, root, homes, h);
    assert Settled(types, root, homes, Front(q));
    var g := StepFromHome(types, root, homes, q);
    var at := g + [Last(q)];
    assert Front(at) == g && Last(at) == Last(q);
    assert Shortest(types, root, g);
    assert |g| <= |Front(q)| && |h| <= |at|;
    assert TypeAt(types, root, at) == TypeAt(types, root, h) && |at| == |h|;
  }

  /** The output is what survives among one collection of a complete sweep. */
  ghost predicate Resolved(types: Types, root: nat, out: seq<JsonField>)
    requires ValidTypes(types) && root < |types|
  {
    exists homes, doubles, fields ::
      && Complete(types, root, homes, doubles) && Collected(types, root, Closed(homes, doubles), fields)
      && Kept(fields, |fields|, out)
  }

  /** f is the property Go's rules make visible at its index chain. */
  ghost predicate IsProperty(types: Types, root: nat, f: JsonField)
    requires ValidTypes(types) && root < |types|
  {
    Visible(types, root, f.index) && f == FieldAt(types, root, f.index)
  }

  /**
   typeJSONFields. It ends for every type, recursive or not, with the survivors of its sweep
   under distinct names in index order. Every property that Go's visibility rule picks from the
   whole embedding tree is among them, and one of them is such a property exactly when its
   embedding path is not forked: they are exactly those properties if and only if there is no lone
   fork. Where no type that is embedded twice at its shallowest depth
   embeds a further struct, they are therefore exactly those properties.
   */
  method TypeJSONFields(types: Types, root: nat) returns (out: seq<JsonField>)
    requires ValidTypes(types) && root < |types|
    ensures forall f :: f in out ==> Occurs(types, root, f.index) && f == FieldAt(types, root, f.index)
    ensures forall a, b :: 0 <= a < b < |out| ==>
      out[a].name != out[b].name && out[a].index != out[b].index && Lex(out[a].index, out[b].index)
    ensures Resolved(types, root, out)
    ensures forall f :: IsProperty(types, root, f) ==> f in out
    ensures forall f :: f in out ==> (IsProperty(types, root, f) <==> !Forked(types, root, Front(f.index)))
    ensures (forall f :: f in out <==> IsProperty(types, root, f)) <==> forall index :: !LoneFork(types, root, index)
    ensures PlainForks(types, root) ==> forall f :: f in out <==> IsProperty(types, root, f)
  {
    hide TypeAt, Complete, Collected, Visible, PlainForks;
    ghost var homes, doubles;
    var collected;
    homes, doubles, collected := Sweep(types, root);
    Orders();
    SortedSorts(collected, ByName);
    var sorted := Sorted(collected, ByName);
    var fields := new JsonField[|sorted|](i requires 0 <= i < |sorted| => sorted[i]);
    assert fields[..] == sorted;
    var kept := Annihilate(fields);
    var dominant := fields[..kept];
    SortedSorts(dominant, ByIndex);
    out := Sorted(dominant, ByIndex);
    SortedOutput(types, root, Closed(homes, doubles), collected, sorted, dominant, out);
    KeptFromPermutation(sorted, collected, dominant, out);
    assert Kept(collected, |collected|, out);
    PropertiesFound(types, root, homes, doubles, collected, out);
    ExactWithoutLoneForks(types, root, homes, doubles, collected, out);
    if PlainForks(types, root) {
      NoPlainForkIsKept(types, root, homes, doubles, collected, out);
    }
  }

  lemma KeptFromPermutation(sorted: seq<JsonField>, collected: seq<JsonField>, dominant: seq<JsonField>,
                            out: seq<JsonField>)
    requires multiset(sorted) == multiset(collected) && Kept(sorted, |sorted|, dominant)
    requires forall f :: f in out <==> f in dominant
    requires forall a, b :: 0 <= a < b < |out| ==> out[a].name != out[b].name
    ensures Kept(collected, |collected|, out)
  {
    forall f ensures f in out <==> exists i :: 0 <= i < |collected| && Survivor(collected, i) && f == collected[i] {
      if f in dominant {
        var i :| 0 <= i < |sorted| && Survivor(sorted, i) && f == sorted[i];
        var j := SurvivorsOfPermutation(sorted, collected, i);
      }
      if i :| 0 <= i < |collected| && Survivor(collected, i) && f == collected[i] {
        var j := SurvivorsOfPermutation(collected, sorted, i);
      }
    }
  }

  lemma SortedOutput(types: Types, root: nat, g: Progress, collected: seq<JsonField>, sorted: seq<JsonField>,
                     dominant: seq<JsonField>, out: seq<JsonField>)
    requires ValidTypes(types) && root < |types| && Collected(types, root, g, collected)
    requires multiset(sorted) == multiset(collected) && Kept(sorted, |sorted|, dominant)
    requires multiset(out) == multiset(dominant) && SortedBy(out, ByIndex)
    ensures forall f :: f in out <==> f in dominant
    ensures forall f :: f in out ==> Occurs(types, root, f.index) && f == FieldAt(types, root, f.index)
    ensures forall a, b :: 0 <= a < b < |out| ==>
      out[a].name != out[b].name && out[a].index != out[b].index && Lex(out[a].index, out[b].index)
  {
    hide TypeAt;
    forall f ensures f in out <==> f in dominant {
      assert f in multiset(out) <==> f in multiset(dominant);
    }
    forall f | f in out ensures f in collected {
      var i :| 0 <= i < |sorted| && Survivor(sorted, i) && f == sorted[i];
      assert f in multiset(collected);
    }
    NamesStayDistinct(dominant, out);
    forall a, b | 0 <= a < b < |out| ensures out[a].index != out[b].index && Lex(out[a].index, out[b].index) {
      assert out[a] in out && out[b] in out;
      assert ByIndex(out[a], out[b]);
    }
  }

  lemma NamesStayDistinct(s: seq<JsonField>, t: seq<JsonField>)
    requires multiset(s) == multiset(t) && forall a, b :: 0 <= a < b < |s| ==> s[a].name != s[b].name
    ensures forall a, b :: 0 <= a < b < |t| ==> t[a].name != t[b].name
  {
    forall a, b | 0 <= a < b < |t| ensures t[a].name != t[b].name {
      if t[a].name == t[b].name {
        assert t[a] in multiset(s) && t[b] in multiset(s);
        var i :| 0 <= i < |s| && s[i] == t[a];
        var j :| 0 <= j < |s| && s[j] == t[b];
        assert i == j;
        TwiceCounts(t, a, b);
        OnceCounts(s, i);
      }
    }
  }

  lemma OnceCounts(s: seq<JsonField>, i: nat)
    requires i < |s| && forall k :: 0 <= k < |s| && k != i ==> s[k] != s[i]
    ensures multiset(s)[s[i]] == 1
  {
    assert s == s[..i] + [s[i]] + s[i + 1..];
    assert s[i] !in s[..i] && s[i] !in s[i + 1..];
  }

  lemma TwiceCounts(t: seq<JsonField>, a: nat, b: nat)
    requires a < b < |t| && t[a] == t[b]
    ensures multiset(t)[t[a]] >= 2
  {
    assert t == t[..b] + [t[b]] + t[b + 1..];
    assert t[a] in t[..b];
  }

  /** Nothing visible is lost, and what is kept beside it is forked. */
  lemma PropertiesFound(types: Types, root: nat, homes: set<seq<nat>>, doubles: set<seq<nat>>,
                        collected: seq<JsonField>, out: seq<JsonField>)
    requires ValidTypes(types) && root < |types|
    requires Complete(types, root, homes, doubles) && Collected(types, root, Closed(homes, doubles), collected)
    requires Kept(collected, |collected|, out)
    ensures forall f :: IsProperty(types, root, f) ==> f in out
    ensures forall f :: f in out ==>
      Occurs(types, root, f.index) && (IsProperty(types, root, f) <==> !Forked(types, root, Front(f.index)))
  {
    hide TypeAt, Complete;
    forall f | IsProperty(types, root, f) ensures f in out {
      var i := VisibleSurvives(types, root, homes, doubles, collected, f.index);
    }
    forall f | f in out
      ensures Occurs(types, root, f.index) && (IsProperty(types, root, f) <==> !Forked(types, root, Front(f.index)))
    {
      var i :| 0 <= i < |collected| && Survivor(collected, i) && f == collected[i];
      assert f in collected;
      SurvivorIsVisible(types, root, homes, doubles, collected, i);
    }
  }

  /** Exactly the visible properties are kept unless there is a lone fork. */
  lemma ExactWithoutLoneForks(types: Types, root: nat, homes: set<seq<nat>>, doubles: set<seq<nat>>,
                              collected: seq<JsonField>, out: seq<JsonField>)
    requires ValidTypes(types) && root < |types|
    requires Complete(types, root, homes, doubles) && Collected(types, root, Closed(homes, doubles), collected)
    requires Kept(collected, |collected|, out)
    requires forall f :: IsProperty(types, root, f) ==> f in out
    requires forall f :: f in out ==>
      Occurs(types, root, f.index) && (IsProperty(types, root, f) <==> !Forked(types, root, Front(f.index)))
    ensures (forall f :: f in out <==> IsProperty(types, root, f)) <==> forall index :: !LoneFork(types, root, index)
  {
    hide TypeAt, Complete, Collected, Visible, LoneFork, Forked, Hides, Occurs, IsProperty;
    if index :| LoneFork(types, root, index) {
      var i := LoneForkSurvives(types, root, homes, doubles, collected, index);
      assert collected[i] in out;
    }
    if f :| f in out && !IsProperty(types, root, f) {
      var i :| 0 <= i < |collected| && Survivor(collected, i) && f == collected[i];
      OccursSomewhere(types, root, f.index);
      ForkedSurvivorIsLone(types, root, homes, doubles, collected, i);
    }
  }

  lemma OccursSomewhere(types: Types, root: nat, index: seq<nat>)
    requires ValidTypes(types) && root < |types| && Occurs(types, root, index)
    ensures index != []
  {
  }

  /** Where forks are plain no kept property is forked: a forked home is doubled, and twins hide each other. */
  lemma NoPlainForkIsKept(types: Types, root: nat, homes: set<seq<nat>>, doubles: set<seq<nat>>,
                          collected: seq<JsonField>, out: seq<JsonField>)
    requires ValidTypes(types) && root < |types| && PlainForks(types, root)
    requires Complete(types, root, homes, doubles) && Collected(types, root, Closed(homes, doubles), collected)
    requires Kept(collected, |collected|, out)
    ensures forall f :: f in out ==> f.index != [] && !Forked(types, root, Front(f.index))
  {
    hide TypeAt;
    forall f | f in out ensures f.index != [] && !Forked(types, root, Front(f.index)) {
      var i :| 0 <= i < |collected| && Survivor(collected, i) && f == collected[i];
      assert f in collected;
      SurvivorIsAlone(types, root, Closed(homes, doubles), collected, i);
      assert Twin(collected, i) <==> Doubled(Closed(homes, doubles), f.index);
      PlainForksAreCounted(types, root, homes, doubles, Front(f.index));
    }
  }

  // ---------------------------------------------------------------- why a kept property can be hidden

  function Embed(t: nat): GoField {
    GoField("", true, true, Some(t), false, "", false, false)
  }

  /** Two structs embed T, which embeds U, which has the one field X. */
  function Diamond(): Types {
    [[Embed(1), Embed(2)], [Embed(3)], [Embed(3)], [Embed(4)],
      [GoField("X", false, true, None, false, "", false, false)]]
  }

  lemma DiamondSteps(p: seq<nat>)
    requires ValidTypes(Diamond()) && p != [] && TypeAt(Diamond(), 0, p).Some?
    ensures
      var from := TypeAt(Diamond(), 0, Front(p));
      var to := TypeAt(Diamond(), 0, p).value;
      && from.Some? && (to == 4 <==> from == Some(3)) && (to == 3 <==> from == Some(1) || from == Some(2))
      && (to == 1 <==> from == Some(0) && Last(p) == 0) && (to == 2 <==> from == Some(0) && Last(p) == 1)
      && (from.value != 0 ==> Last(p) == 0) && to != 0
  {
  }

  lemma DiamondPaths()
    ensures ValidTypes(Diamond())
    ensures TypeAt(Diamond(), 0, [0, 0, 0]) == TypeAt(Diamond(), 0, [1, 0, 0]) == Some(4)
  {
    var d := Diamond();
    assert TypeAt(d, 0, []) == Some(0);
    assert Explored(d[0][0]) && Explored(d[0][1]) && Explored(d[1][0]) && Explored(d[2][0]) && Explored(d[3][0]);
    hide TypeAt, Diamond, ValidTypes;
    Down(d, [], 0, 0, 1, [0]);
    Down(d, [], 0, 1, 2, [1]);
    Down(d, [0], 1, 0, 3, [0, 0]);
    Down(d, [1], 2, 0, 3, [1, 0]);
    Down(d, [0, 0], 3, 0, 4, [0, 0, 0]);
    Down(d, [1, 0], 3, 0, 4, [1, 0, 0]);
  }

  lemma Down(d: Types, path: seq<nat>, t: nat, k: nat, u: nat, below: seq<nat>)
    requires ValidTypes(d) && |d| > 0 && TypeAt(d, 0, path) == Some(t) && t < |d| && k < |d[t]|
    requires Explored(d[t][k]) && d[t][k].embeds == Some(u) && below == path + [k]
    ensures TypeAt(d, 0, below) == Some(u)
  {
    hide TypeAt;
    Chain(d, 0, path, t, k);
  }

  /** X is the only property, and it belongs to U. */
  lemma DiamondProperty(index: seq<nat>)
    requires ValidTypes(Diamond()) && Occurs(Diamond(), 0, index)
    ensures TypeAt(Diamond(), 0, Front(index)) == Some(4) && index == Front(index) + [0]
    ensures FieldAt(Diamond(), 0, index) == JsonField("X", false, index, false, false)
  {
    hide TypeAt;
    assert index == Front(index) + [Last(index)];
  }

  /** In the embedding tree X is reached twice at the same depth, so Go hides it. */
  lemma DiamondHidesX(index: seq<nat>)
    requires ValidTypes(Diamond()) && Occurs(Diamond(), 0, index)
    ensures FieldAt(Diamond(), 0, index).name == "X" && !Visible(Diamond(), 0, index)
  {
    var d := Diamond();
    DiamondPaths();
    hide TypeAt;
    DiamondProperty(index);
    DiamondDepth(Front(index));
    var v := if Front(index) == [0, 0, 0] then [1, 0, 0] else [0, 0, 0];
    Chain(d, 0, v, 4, 0);
    var other := v + [0];
    assert Front(other) == v && v != Front(index);
    DiamondProperty(other);
    assert Hides(FieldAt(d, 0, other), FieldAt(d, 0, index));
  }

  lemma DiamondDepth(u: seq<nat>)
    requires ValidTypes(Diamond()) && TypeAt(Diamond(), 0, u) == Some(4)
    ensures |u| == 3
  {
    var d := Diamond();
    DiamondSteps(u);
    DiamondSteps(Front(u));
    DiamondSteps(Front(Front(u)));
    if Front(Front(Front(u))) != [] {
      DiamondSteps(Front(Front(Front(u))));
    }
  }

  /** A field is reported that Go's rule over the embedding tree hides. */
  ghost predicate ReportsHidden(out: seq<JsonField>)
    requires ValidTypes(Diamond())
  {
    exists f :: f in out && f.name == "X" && !Visible(Diamond(), 0, f.index)
  }

  /**
   The sweep counts U once although T was embedded twice, so X survives: whatever the function
   answers here, it reports a property that Go's rule over the embedding tree hides.
   */
  lemma DiamondKeepsX()
    ensures ValidTypes(Diamond())
    ensures forall out :: Resolved(Diamond(), 0, out) ==> ReportsHidden(out)
  {
    var d := Diamond();
    DiamondPaths();
    hide TypeAt, Diamond;
    forall out | Resolved(d, 0, out) ensures ReportsHidden(out) {
      var homes: set<seq<nat>>, doubles: set<seq<nat>>, fields: seq<JsonField> :|
        && Complete(d, 0, homes, doubles) && Collected(d, 0, Closed(homes, doubles), fields)
        && Kept(fields, |fields|, out);
      var i := DiamondCollectsX(homes, doubles, fields);
      DiamondHidesX(fields[i].index);
      assert fields[i] in out;
    }
  }

  lemma DiamondCollectsX(homes: set<seq<nat>>, doubles: set<seq<nat>>, fields: seq<JsonField>) returns (i: nat)
    requires ValidTypes(Diamond()) && Complete(Diamond(), 0, homes, doubles)
    requires Collected(Diamond(), 0, Closed(homes, doubles), fields)
    ensures i < |fields| && Survivor(fields, i) && fields[i].name == "X" && Occurs(Diamond(), 0, fields[i].index)
  {
    var d := Diamond();
    DiamondPaths();
    hide TypeAt, Diamond, Occurs, FieldAt;
    assert Settled(d, 0, homes, [0, 0, 0]);
    var u :| u in homes && TypeAt(d, 0, u) == Some(4);
    DiamondCountsOnce(homes, doubles, u);
    var x := u + [0];
    DiamondX(u, x);
    assert Listed(fields, x);
    i :| 0 <= i < |fields| && fields[i].index == x;
    assert fields[i] in fields;
    DiamondProperty(x);
    assert Twin(fields, i) <==> Doubled(Closed(homes, doubles), x);
    forall k | 0 <= k < |fields| ensures fields[k].index == fields[i].index {
      assert fields[k] in fields && Swept(Closed(homes, doubles), fields[k].index);
      DiamondOneIndex(homes, fields[k].index, fields[i].index);
    }
    LoneSurvivor(fields, i);
  }

  lemma DiamondX(u: seq<nat>, x: seq<nat>)
    requires ValidTypes(Diamond()) && TypeAt(Diamond(), 0, u) == Some(4) && x == u + [0]
    ensures Occurs(Diamond(), 0, x) && Front(x) == u && Last(x) == 0
  {
    hide TypeAt;
    Chain(Diamond(), 0, u, 4, 0);
  }

  /** With one home for a type there is one index for X. */
  lemma DiamondOneIndex(homes: set<seq<nat>>, a: seq<nat>, b: seq<nat>)
    requires ValidTypes(Diamond()) && Occurs(Diamond(), 0, a) && Occurs(Diamond(), 0, b)
    requires Front(a) in homes && Front(b) in homes
    requires forall g, h :: g in homes && h in homes && TypeAt(Diamond(), 0, g) == TypeAt(Diamond(), 0, h) ==> g == h
    ensures a == b
  {
    DiamondProperty(a);
    DiamondProperty(b);
    hide TypeAt;
  }

  /** A field collected once, with no other index beside its own, survives. */
  lemma LoneSurvivor(fields: seq<JsonField>, i: nat)
    requires i < |fields| && !Twin(fields, i)
    requires forall k :: 0 <= k < |fields| ==> fields[k].index == fields[i].index
    ensures Survivor(fields, i)
  {
  }

  /** U's home is recounted by nothing: its only parent is T's one home. */
  lemma DiamondCountsOnce(homes: set<seq<nat>>, doubles: set<seq<nat>>, u: seq<nat>)
    requires ValidTypes(Diamond()) && u in homes && TypeAt(Diamond(), 0, u) == Some(4)
    requires Rooted(homes, u) && (u in doubles <==> Recounted(Diamond(), 0, homes, u))
    requires forall g, h :: g in homes && h in homes && TypeAt(Diamond(), 0, g) == TypeAt(Diamond(), 0, h) ==> g == h
    ensures u !in doubles
  {
    var d := Diamond();
    DiamondDepth(u);
    DiamondSteps(u);
    hide TypeAt;
    forall q | q != [] && |q| == |u| && Front(q) in homes && TypeAt(d, 0, q) == TypeAt(d, 0, u) ensures q == u {
      DiamondSteps(q);
      assert q == Front(q) + [0] && u == Front(u) + [0];
    }
    assert !Recounted(d, 0, homes, u);
  }
}
