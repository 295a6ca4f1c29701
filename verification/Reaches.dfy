/**
 Which types can hold a transported or a promised value (transport_encode.go): a search of the
 type graph that terminates on recursive types by refusing to enter a type it is already inside,
 behind a cache of the answers it gives from an empty stack.
 */
module Reaches {

  /** A struct's field, as far as the search looks at it. */
  datatype Field = Field(typ: string, exported: bool, embedded: bool, dash: bool)

  /** What reflection says of a type. */
  datatype Shape =
    | Interface
    | Pointer(elem: string)
    | Slice(elem: string)
    | Array(elem: string)
    | Map(key: string, elem: string)
    | Struct(fields: seq<Field>)
    | Basic

  /** The app's types, the ones a transporter claims, and the Deferred ones. */
  datatype Graph = Graph(shapes: map<string, Shape>, claimed: set<string>, promised: set<string>)

  /** A field the search skips: unexported and not embedded, or tagged "-". */
  predicate Skipped(f: Field) {
    (!f.exported && !f.embedded) || f.dash
  }

  predicate Edge(g: Graph, t: string, u: string) {
    && t in g.shapes
    && match g.shapes[t]
       case Pointer(elem) => u == elem
       case Slice(elem) => u == elem
       case Array(elem) => u == elem
       case Map(_, elem) => u == elem
       case Struct(fields) => exists i :: 0 <= i < |fields| && !Skipped(fields[i]) && fields[i].typ == u
       case _ => false
  }

  /** Every type a type is made of is a type of the app. */
  ghost predicate Closed(g: Graph) {
    forall t, u :: Edge(g, t, u) ==> u in g.shapes
  }

  /** Claimed by a transporter, or a promise where promises are allowed. */
  predicate Early(g: Graph, promises: bool, t: string) {
    t in g.claimed || (promises && t in g.promised)
  }

  /** An interface, which may hold anything, where there is anything to look for. */
  predicate Opaque(g: Graph, promises: bool, t: string) {
    t in g.shapes && g.shapes[t].Interface? && (g.claimed != {} || promises)
  }

  ghost predicate Steps(g: Graph, p: seq<string>) {
    forall i {:trigger p[i]} :: 0 <= i < |p| - 1 ==> Edge(g, p[i], p[i + 1])
  }

  /** A path through the type graph to something that may be a transported or promised value. */
  ghost predicate Leads(g: Graph, promises: bool, t: string, p: seq<string>) {
    && |p| > 0 && p[0] == t
    && Steps(g, p)
    && (Early(g, promises, p[|p| - 1]) || Opaque(g, promises, p[|p| - 1]))
  }

  ghost predicate Reachable(g: Graph, promises: bool, t: string) {
    exists p :: Leads(g, promises, t, p)
  }

  /** The same, along a path that enters no type of a set, unless to find it claimed or promised. */
  ghost predicate LeadsAround(g: Graph, promises: bool, t: string, seen: set<string>, p: seq<string>) {
    && Leads(g, promises, t, p)
    && forall i :: 0 <= i < |p| && p[i] in seen ==> i == |p| - 1 && Early(g, promises, p[i])
  }

  ghost predicate ReachableAround(g: Graph, promises: bool, t: string, seen: set<string>) {
    exists p :: LeadsAround(g, promises, t, seen, p)
  }

  lemma AroundNothing(g: Graph, promises: bool, t: string)
    ensures ReachableAround(g, promises, t, {}) <==> Reachable(g, promises, t)
  {
    forall p | Leads(g, promises, t, p) ensures LeadsAround(g, promises, t, {}, p) {}
  }

  /** One step out of t, never to come back to it. */
  ghost predicate StepsOut(g: Graph, promises: bool, t: string, seen: set<string>, u: string) {
    Edge(g, t, u) && ReachableAround(g, promises, u, seen + {t})
  }

  function LastAt(p: seq<string>, t: string): (j: nat)
    requires t in p
    ensures j < |p| && p[j] == t && t !in p[j + 1..]
  {
    var n := |p| - 1;
    if p[n] == t then n
    else
      var j := LastAt(p[..n], t);
      assert p[j + 1..] == p[..n][j + 1..] + [p[n]];
      j
  }

  lemma StepsFrom(g: Graph, p: seq<string>, j: nat)
    requires Steps(g, p) && j <= |p|
    ensures Steps(g, p[j..])
  {
    var q := p[j..];
    forall i | 0 <= i < |q| - 1 ensures Edge(g, q[i], q[i + 1]) {
      assert q[i] == p[j + i] && q[i + 1] == p[j + i + 1];
    }
  }

  /** A path out of t can leave t for good: cut it after the last time it is there. */
  lemma CutsLoops(g: Graph, promises: bool, t: string, seen: set<string>, p: seq<string>)
    requires LeadsAround(g, promises, t, seen, p)
    requires !Early(g, promises, t)
    ensures t !in seen
    ensures Opaque(g, promises, t) || exists u :: StepsOut(g, promises, t, seen, u)
  {
    var j := LastAt(p, t);
    if j < |p| - 1 {
      var q := p[j + 1..];
      StepsFrom(g, p, j + 1);
      assert Edge(g, p[j], p[j + 1]);
      assert q[|q| - 1] == p[|p| - 1];
      assert forall i :: 0 <= i < |q| ==> q[i] == p[j + 1 + i];
      assert LeadsAround(g, promises, q[0], seen + {t}, q);
      assert StepsOut(g, promises, t, seen, q[0]);
    }
  }

  lemma Prepends(g: Graph, promises: bool, t: string, seen: set<string>, u: string)
    requires t !in seen && StepsOut(g, promises, t, seen, u)
    ensures ReachableAround(g, promises, t, seen)
  {
    var q :| LeadsAround(g, promises, u, seen + {t}, q);
    var p := [t] + q;
    assert Steps(g, p) by {
      forall i | 0 <= i < |p| - 1 ensures Edge(g, p[i], p[i + 1]) {
        if i > 0 {
          assert Edge(g, q[i - 1], q[i]);
        }
      }
    }
    assert LeadsAround(g, promises, t, seen, p);
  }

  /** What reachability is, one type at a time: the recursion reachesWith makes. */
  lemma OneStep(g: Graph, promises: bool, t: string, seen: set<string>)
    ensures ReachableAround(g, promises, t, seen) <==>
      || Early(g, promises, t)
      || (t !in seen && (Opaque(g, promises, t) || exists u :: StepsOut(g, promises, t, seen, u)))
  {
    if Early(g, promises, t) || (t !in seen && Opaque(g, promises, t)) {
      assert LeadsAround(g, promises, t, seen, [t]);
    } else if t !in seen && exists u :: StepsOut(g, promises, t, seen, u) {
      var u :| StepsOut(g, promises, t, seen, u);
      Prepends(g, promises, t, seen, u);
    } else if ReachableAround(g, promises, t, seen) {
      var p :| LeadsAround(g, promises, t, seen, p);
      CutsLoops(g, promises, t, seen, p);
    }
  }

  lemma OneEdge(g: Graph, promises: bool, t: string, seen: set<string>, elem: string)
    requires forall u :: Edge(g, t, u) <==> u == elem
    ensures Edge(g, t, elem)
    ensures (exists u :: StepsOut(g, promises, t, seen, u)) <==> ReachableAround(g, promises, elem, seen + {t})
  {
    assert StepsOut(g, promises, t, seen, elem) <==> ReachableAround(g, promises, elem, seen + {t});
  }

  /** The types on the stack, shared by the whole recursion. */
  class Seen {
    var types: set<string>

    constructor ()
      ensures types == {}
    {
      types := {};
    }
  }

  class TreeEncoder {
    const graph: Graph

    /** reachCache, which encoders of load results share with encoders of everything else. */
    var cache: map<(bool, string), bool>

    /** Every cached answer is reachability. */
    ghost predicate Valid()
      reads this
    {
      && Closed(graph)
      && forall promises, t :: (promises, t) in cache ==> (cache[(promises, t)] <==> Reachable(graph, promises, t))
    }

    constructor (graph: Graph)
      requires Closed(graph)
      ensures Valid() && this.graph == graph
    {
      this.graph := graph;
      cache := map[];
    }

    /** reaches: the answer is reachability, cached or not. */
    method Reaches(promises: bool, t: string) returns (yes: bool)
      requires Valid() && t in graph.shapes
      modifies this
      ensures Valid()
      ensures yes <==> Reachable(graph, promises, t)
      ensures cache == old(cache)[(promises, t) := yes]
    {
      if (promises, t) in cache {
        return cache[(promises, t)];
      }
      var seen := new Seen();
      yes := ReachesWith(promises, t, seen);
      AroundNothing(graph, promises, t);
      cache := cache[(promises, t) := yes];
    }

    /**
     reachesWith: whether something is reachable without entering a type already on the stack. It
     leaves the stack as it found it.
     */
    method ReachesWith(promises: bool, t: string, seen: Seen) returns (yes: bool)
      requires Closed(graph) && t in graph.shapes
      modifies seen
      ensures seen.types == old(seen.types)
      ensures yes <==> ReachableAround(graph, promises, t, old(seen.types))
      decreases |graph.shapes.Keys - seen.types|, 0
    {
      OneStep(graph, promises, t, seen.types);
      if t in graph.claimed {
        return true;
      }
      if promises && t in graph.promised {
        return true;
      }
      if t in seen.types {
        return false;
      }
      ghost var before := seen.types;
      Shrinks(graph.shapes.Keys, before, t);
      seen.types := seen.types + {t};

      match graph.shapes[t] {
      case Interface =>
        yes := graph.claimed != {} || promises;
      case Basic =>
        yes := false;
      case Struct(fields) =>
        yes := FieldsReach(promises, t, before, seen);
      case Pointer(elem) =>
        OneEdge(graph, promises, t, before, elem);
        yes := ReachesWith(promises, elem, seen);
      case Slice(elem) =>
        OneEdge(graph, promises, t, before, elem);
        yes := ReachesWith(promises, elem, seen);
      case Array(elem) =>
        OneEdge(graph, promises, t, before, elem);
        yes := ReachesWith(promises, elem, seen);
      case Map(_, elem) =>
        OneEdge(graph, promises, t, before, elem);
        yes := ReachesWith(promises, elem, seen);
      }
      assert t !in before && seen.types == before + {t};
      seen.types := seen.types - {t};
      assert seen.types == before;
    }

    /** The loop over a struct's fields. */
    method FieldsReach(promises: bool, t: string, ghost before: set<string>, seen: Seen) returns (yes: bool)
      requires Closed(graph) && t in graph.shapes && graph.shapes[t].Struct?
      requires seen.types == before + {t} && t !in before
      modifies seen
      ensures seen.types == old(seen.types)
      ensures yes <==> exists u :: StepsOut(graph, promises, t, before, u)
      decreases |graph.shapes.Keys - seen.types|, 1
    {
      var fields := graph.shapes[t].fields;
      for i := 0 to |fields|
        invariant seen.types == before + {t}
        invariant forall k :: 0 <= k < i && !Skipped(fields[k]) ==> !StepsOut(graph, promises, t, before, fields[k].typ)
      {
        if Skipped(fields[i]) {
          continue;
        }
        assert Edge(graph, t, fields[i].typ);
        var found := ReachesWith(promises, fields[i].typ, seen);
        if found {
          assert StepsOut(graph, promises, t, before, fields[i].typ);
          return true;
        }
      }
      return false;
    }
  }

  lemma Shrinks(all: set<string>, seen: set<string>, t: string)
    requires t in all && t !in seen
    ensures |all - (seen + {t})| < |all - seen|
  {
    assert all - seen == (all - (seen + {t})) + {t};
  }

  // ---------------------------------------------------------------- why inner answers are not cached

  /** `type a struct { B *b; C c }` and `type b struct { A *a }`, where c is transported. */
  function Loop(): Graph {
    Graph(map["a" := Struct([Field("b", true, false, false), Field("c", true, false, false)]),
              "b" := Struct([Field("a", true, false, false)]),
              "c" := Basic],
          {"c"}, {})
  }

  /**
   b reaches c through a, yet the search inside a says it does not: only answers from an empty stack
   are true of the type.
   */
  lemma InnerAnswersAreWeaker()
    ensures Closed(Loop())
    ensures Reachable(Loop(), false, "b")
    ensures !ReachableAround(Loop(), false, "b", {"a"})
  {
    var g := Loop();
    assert Edge(g, "b", "a") by {
      assert g.shapes["b"].fields[0].typ == "a";
    }
    assert Edge(g, "a", "c") by {
      assert g.shapes["a"].fields[1].typ == "c";
    }
    assert Leads(g, false, "b", ["b", "a", "c"]);
    OneStep(g, false, "b", {"a"});
    forall u ensures !StepsOut(g, false, "b", {"a"}, u) {
      OneStep(g, false, "a", {"a", "b"});
      assert {"a"} + {"b"} == {"a", "b"};
    }
  }
}
