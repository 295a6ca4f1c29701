/**
 The evaluation of a route's branch (data.go, runBranchWith) and the ancestor merge its
 loads may ask for (loadevent.go, Parent), as a state machine.

 One goroutine is started per asked node. Each calls its node's memoised function, which
 the first caller runs and every other caller waits for; a load may ask for its parents any
 number of times, which calls the memoised functions of all outer nodes in order, on the
 same goroutine. A schedule is the sequence of goroutines that move, so a statement about
 every schedule is a statement about every interleaving.
 */
module Branch {
  import opened Wrappers

  datatype Json = Json(text: string)

  /** What a load's value is once encoded: an object, something else, or nothing at all. */
  datatype Data = Fields(fields: map<string, Json>) | NotObject | Unencodable

  /** One node's result: `dataNode` with its kind spelled as a constructor. */
  datatype Node =
    | Skip
    | Empty
    | Value(data: Data)
    | Error(message: string)
    | Redirect(location: string)

  /** What `Parent` answers its load. */
  datatype Parents = Merged(fields: map<string, Json>) | Failed(message: string) | Away(location: string)

  datatype Outcome = Returned(data: Data) | Threw(message: string) | Redirected(location: string)

  datatype Move = Ask | Finish(outcome: Outcome)

  /**
   A load, as a pure function of what `Parent` has answered it so far. It may ask again
   depending on the answers, but not more often than its budget.
   */
  datatype Load = Load(decide: seq<Parents> -> Move, budget: nat)

  ghost predicate ValidLoad(load: Load) {
    forall h: seq<Parents> :: |h| >= load.budget ==> load.decide(h).Finish?
  }

  /** `branch[i]` is None where the source's slot is nil; `asked` is the client's mask. */
  datatype Config = Config(branch: seq<Option<Load>>, asked: seq<bool>)

  ghost predicate ValidConfig(c: Config) {
    && |c.asked| == |c.branch|
    && forall i :: 0 <= i < |c.branch| && c.branch[i].Some? ==> ValidLoad(c.branch[i].value)
  }

  function NodeOf(outcome: Outcome): Node {
    match outcome
    case Returned(data) => Value(data)
    case Threw(message) => Error(message)
    case Redirected(location) => Redirect(location)
  }

  predicate Fails(node: Node) {
    node.Error? || node.Redirect?
  }

  // ---------------------------------------------------------------- the ancestor merge

  const ENCODING_FAILED := "skgo: encoding parent data"

  /** One round of Parent's loop: an outer node's result meets what is merged so far. */
  function Absorb(merged: map<string, Json>, node: Node): Parents {
    match node
    case Redirect(location) => Away(location)
    case Error(message) => Failed(message)
    case Value(Fields(fields)) => Merged(merged + fields)
    case Value(Unencodable) => Failed(ENCODING_FAILED)
    case _ => Merged(merged)
  }

  /** The whole loop over the results of the outer nodes, outermost first. */
  function Merge(nodes: seq<Node>): Parents {
    if nodes == [] then Merged(map[])
    else
      match Merge(nodes[..|nodes| - 1])
      case Merged(merged) => Absorb(merged, nodes[|nodes| - 1])
      case stopped => stopped
  }

  /** Node j holds the field and no node between j and the asking load does. */
  ghost predicate Deepest(nodes: seq<Node>, key: string, j: nat) {
    && j < |nodes| && nodes[j].Value? && nodes[j].data.Fields? && key in nodes[j].data.fields
    && forall k :: j < k < |nodes| && nodes[k].Value? && nodes[k].data.Fields? ==> key !in nodes[k].data.fields
  }

  /** A merge that succeeds carries a field exactly when a node does, and the deepest wins. */
  lemma {:induction false} DeeperFieldsWin(nodes: seq<Node>, key: string)
    requires Merge(nodes).Merged?
    ensures key in Merge(nodes).fields <==> exists j: nat :: Deepest(nodes, key, j)
    ensures forall j: nat :: Deepest(nodes, key, j) ==> Merge(nodes).fields[key] == nodes[j].data.fields[key]
  {
    if nodes == [] {
    } else {
      var n := |nodes| - 1;
      var front := nodes[..n];
      DeeperFieldsWin(front, key);
      if nodes[n].Value? && nodes[n].data.Fields? && key in nodes[n].data.fields {
        assert Deepest(nodes, key, n);
      } else {
        forall j: nat ensures Deepest(nodes, key, j) <==> Deepest(front, key, j) {
          assert forall k :: 0 <= k < n ==> front[k] == nodes[k];
        }
      }
    }
  }

  /** A failed ancestor stops the merge: the outermost failure is the one reported. */
  lemma {:induction false} OutermostFailureWins(nodes: seq<Node>, j: nat)
    requires j < |nodes|
    requires Fails(nodes[j]) || nodes[j] == Value(Unencodable)
    requires forall k :: 0 <= k < j ==> !Fails(nodes[k]) && nodes[k] != Value(Unencodable)
    ensures Merge(nodes) == Absorb(map[], nodes[j])
  {
    if j == |nodes| - 1 {
      MergeOfHealthy(nodes[..j]);
    } else {
      OutermostFailureWins(nodes[..|nodes| - 1], j);
    }
  }

  lemma {:induction false} MergeOfHealthy(nodes: seq<Node>)
    requires forall k :: 0 <= k < |nodes| ==> !Fails(nodes[k]) && nodes[k] != Value(Unencodable)
    ensures Merge(nodes).Merged?
  {
    if nodes != [] {
      MergeOfHealthy(nodes[..|nodes| - 1]);
    }
  }

  // ---------------------------------------------------------------- the reference

  function Repeat(answer: Parents, times: nat): (h: seq<Parents>)
    ensures |h| == times
  {
    seq(times, _ => answer)
  }

  /** What a load produces when every Parent call answers the same. */
  ghost function Play(load: Load, answer: Parents, asks: nat): Outcome
    requires ValidLoad(load)
    decreases load.budget - asks
  {
    match load.decide(Repeat(answer, asks))
    case Finish(outcome) => outcome
    case Ask => Play(load, answer, asks + 1)
  }

  /** Sequential evaluation: node i is computed from the results of the nodes before it. */
  ghost function Sequential(c: Config, count: nat): (nodes: seq<Node>)
    requires ValidConfig(c) && count <= |c.branch|
    ensures |nodes| == count
  {
    if count == 0 then []
    else
      var before := Sequential(c, count - 1);
      before + [
        match c.branch[count - 1]
        case None => Empty
        case Some(load) => NodeOf(Play(load, Merge(before), 0))
      ]
  }

  lemma {:induction false} SequentialPrefix(c: Config, k: nat, count: nat)
    requires ValidConfig(c) && k <= count <= |c.branch|
    ensures Sequential(c, count)[..k] == Sequential(c, k)
    decreases count
  {
    if k < count {
      SequentialPrefix(c, k, count - 1);
      assert Sequential(c, count)[..k] == Sequential(c, count - 1)[..k];
    } else {
      assert Sequential(c, count)[..k] == Sequential(c, count);
    }
  }

  // ---------------------------------------------------------------- the machine

  /** Where one memoised function stands. */
  datatype Phase =
    | Idle
    | Claimed
    | Loading(answers: seq<Parents>)
    | Walking(answers: seq<Parents>, next: nat, merged: map<string, Json>)
    | Leaving(node: Node)
    | Settled(node: Node)

  predicate Active(p: Phase) {
    !p.Idle? && !p.Settled?
  }

  /**
   `stacks[t]` lists the memoised functions goroutine t is inside, its own first. `nodes`
   is the array runBranchWith returns; `runs` counts how often each load was started.
   */
  datatype State = State(
    phases: seq<Phase>,
    stacks: seq<seq<nat>>,
    nodes: seq<Option<Node>>,
    aborted: bool,
    runs: seq<nat>)

  function Initial(c: Config): State
    requires |c.asked| == |c.branch|
  {
    var n := |c.branch|;
    State(
      seq(n, _ => Idle),
      seq(n, _ => []),
      seq(n, i requires 0 <= i < n => if c.asked[i] then None else Some(Skip)),
      false,
      seq(n, _ => 0))
  }

  ghost predicate Shaped(c: Config, s: State) {
    var n := |c.branch|;
    && |c.asked| == n && |s.phases| == n && |s.stacks| == n && |s.nodes| == n && |s.runs| == n
    && (forall t, k :: 0 <= t < n && 0 <= k < |s.stacks[t]| ==> s.stacks[t][k] < n)
    && (forall i :: 0 <= i < n && (s.phases[i].Loading? || s.phases[i].Walking?) ==> c.branch[i].Some?)
  }

  function Top(stack: seq<nat>): nat
    requires stack != []
  {
    stack[|stack| - 1]
  }

  /** The function goroutine t is about to call, if its next step is a call. */
  function Callee(s: State, t: nat): Option<nat>
    requires t < |s.stacks| && |s.phases| == |s.stacks|
    requires s.stacks[t] != [] ==> Top(s.stacks[t]) < |s.phases|
  {
    if s.stacks[t] == [] then Some(t)
    else
      var p := s.phases[Top(s.stacks[t])];
      if p.Walking? && p.next < Top(s.stacks[t]) then Some(p.next) else None
  }

  /** A goroutine moves unless it has finished or waits for a function another is inside. */
  ghost predicate Enabled(c: Config, s: State, t: nat)
    requires Shaped(c, s)
  {
    && t < |c.branch|
    && s.nodes[t].None?
    && (Callee(s, t).Some? ==> !Active(s.phases[Callee(s, t).value]))
  }

  /** One step of goroutine t. */
  ghost function Step(c: Config, s: State, t: nat): State
    requires Shaped(c, s) && Enabled(c, s, t)
  {
    var callee := Callee(s, t);
    if callee.Some? && s.phases[callee.value].Idle? then
      // First caller: it runs the function itself.
      s.(phases := s.phases[callee.value := Claimed], stacks := s.stacks[t := s.stacks[t] + [callee.value]])
    else if s.stacks[t] == [] then
      s.(nodes := s.nodes[t := Some(s.phases[t].node)])
    else
      var i := Top(s.stacks[t]);
      match s.phases[i]
      case Claimed =>
        if !c.asked[i] && s.aborted then s.(phases := s.phases[i := Leaving(Skip)])
        else if c.branch[i].None? then s.(phases := s.phases[i := Leaving(Empty)])
        else s.(phases := s.phases[i := Loading([])], runs := s.runs[i := s.runs[i] + 1])
      case Loading(answers) =>
        (match c.branch[i].value.decide(answers)
         case Ask => s.(phases := s.phases[i := Walking(answers, 0, map[])])
         case Finish(outcome) =>
           s.(phases := s.phases[i := Leaving(NodeOf(outcome))], aborted := s.aborted || Fails(NodeOf(outcome))))
      case Walking(answers, next, merged) =>
        if next >= i then s.(phases := s.phases[i := Loading(answers + [Merged(merged)])])
        else
          (match Absorb(merged, s.phases[next].node)
           case Merged(more) => s.(phases := s.phases[i := Walking(answers, next + 1, more)])
           case stopped => s.(phases := s.phases[i := Loading(answers + [stopped])]))
      case Leaving(node) =>
        s.(phases := s.phases[i := Settled(node)], stacks := s.stacks[t := s.stacks[t][..|s.stacks[t]| - 1]])
      case _ => s
  }

  // ---------------------------------------------------------------- structural invariant

  /** Goroutine t is inside function i. */
  ghost predicate Inside(s: State, t: nat, i: nat) {
    t < |s.stacks| && i in s.stacks[t]
  }

  ghost predicate Ordered(stack: seq<nat>) {
    forall a, b :: 0 <= a < b < |stack| ==> stack[a] > stack[b]
  }

  /**
   Stacks descend towards the root, start at their own goroutine's node and share nothing;
   a function is on a stack exactly while it is active.
   */
  ghost predicate StackInv(c: Config, s: State) {
    var n := |c.branch|;
    && Shaped(c, s)
    && (forall t :: 0 <= t < n ==> Ordered(s.stacks[t]))
    && (forall t :: 0 <= t < n && s.stacks[t] != [] ==> s.nodes[t].None? && s.stacks[t][0] == t)
    && (forall t: nat, u: nat, i: nat :: Inside(s, t, i) && Inside(s, u, i) ==> t == u)
    && (forall t: nat, i: nat :: Inside(s, t, i) ==> Active(s.phases[i]))
    && (forall i: nat :: i < n && Active(s.phases[i]) ==> exists t: nat :: Inside(s, t, i))
  }

  /**
   A started load stays within its budget and is counted once, and a finished goroutine's
   node is the settled result of its function.
   */
  ghost predicate NodeInv(c: Config, s: State, i: nat)
    requires Shaped(c, s) && i < |c.branch|
  {
    var p := s.phases[i];
    && (p.Walking? ==> p.next <= i && |p.answers| < c.branch[i].value.budget)
    && (p.Loading? ==> |p.answers| <= c.branch[i].value.budget)
    && (!c.asked[i] ==> s.nodes[i] == Some(Skip))
    && (c.asked[i] && s.nodes[i].Some? ==> p == Settled(s.nodes[i].value))
    && (p.Idle? || p.Claimed? || c.branch[i].None? ==> s.runs[i] == 0)
    && (p.Loading? || p.Walking? ==> s.runs[i] == 1)
    && (c.asked[i] && c.branch[i].Some? && (p.Leaving? || p.Settled?) ==> s.runs[i] == 1)
    && s.runs[i] <= 1
  }

  ghost predicate Inv(c: Config, s: State) {
    && StackInv(c, s)
    && forall i :: 0 <= i < |c.branch| ==> NodeInv(c, s, i)
  }

  lemma InitialInv(c: Config)
    requires ValidConfig(c)
    ensures Inv(c, Initial(c))
  {
  }

  /** A call that finds its function idle puts it on the caller's stack. */
  lemma PushKeepsStacks(c: Config, s: State, t: nat, j: nat)
    requires StackInv(c, s) && t < |c.branch| && j < |c.branch| && s.nodes[t].None?
    requires s.phases[j].Idle?
    requires if s.stacks[t] == [] then j == t else j < Top(s.stacks[t])
    ensures StackInv(c, s.(phases := s.phases[j := Claimed], stacks := s.stacks[t := s.stacks[t] + [j]]))
  {
    var s' := s.(phases := s.phases[j := Claimed], stacks := s.stacks[t := s.stacks[t] + [j]]);
    forall u: nat, i: nat ensures Inside(s', u, i) <==> Inside(s, u, i) || (u == t && i == j) {
    }
    forall i: nat | i < |c.branch| && Active(s'.phases[i]) ensures exists u: nat :: Inside(s', u, i) {
      if i == j {
        assert Inside(s', t, i);
      } else {
        var u: nat :| Inside(s, u, i);
        assert Inside(s', u, i);
      }
    }
  }

  /** The innermost function returns and leaves the stack. */
  lemma PopKeepsStacks(c: Config, s: State, t: nat, node: Node)
    requires StackInv(c, s) && t < |c.branch| && s.stacks[t] != []
    ensures
      var i := Top(s.stacks[t]);
      StackInv(c, s.(phases := s.phases[i := Settled(node)], stacks := s.stacks[t := s.stacks[t][..|s.stacks[t]| - 1]]))
  {
    var i := Top(s.stacks[t]);
    var s' := s.(phases := s.phases[i := Settled(node)], stacks := s.stacks[t := s.stacks[t][..|s.stacks[t]| - 1]]);
    assert Inside(s, t, i);
    assert forall a :: 0 <= a < |s.stacks[t]| - 1 ==> s.stacks[t][a] != i;
    forall u: nat, k: nat ensures Inside(s', u, k) <==> Inside(s, u, k) && k != i {
      if u != t {
        assert Inside(s', u, k) ==> Inside(s, u, k);
      }
      if u == t && Inside(s, u, k) && k != i {
        var a :| 0 <= a < |s.stacks[t]| && s.stacks[t][a] == k;
        assert s'.stacks[t][a] == k;
      }
    }
    forall k: nat | k < |c.branch| && Active(s'.phases[k]) ensures exists u: nat :: Inside(s', u, k) {
      var u: nat :| Inside(s, u, k);
      assert Inside(s', u, k);
    }
  }

  /** A step that only moves the innermost function on, and it stays active. */
  lemma WorkKeepsStacks(c: Config, s: State, s': State, t: nat, p: Phase)
    requires StackInv(c, s) && t < |c.branch| && s.stacks[t] != [] && Active(p)
    requires p.Loading? || p.Walking? ==> c.branch[Top(s.stacks[t])].Some?
    requires s'.phases == s.phases[Top(s.stacks[t]) := p] && |s'.runs| == |s.runs|
    requires s'.stacks == s.stacks && s'.nodes == s.nodes
    ensures StackInv(c, s')
  {
    assert Inside(s, t, Top(s.stacks[t]));
    forall u: nat, i: nat ensures Inside(s', u, i) <==> Inside(s, u, i) {
    }
    forall i: nat | i < |c.branch| && Active(s'.phases[i]) ensures exists u: nat :: Inside(s', u, i) {
      var u: nat :| Inside(s, u, i);
      assert Inside(s', u, i);
    }
  }

  /** A goroutine stores its settled result. */
  lemma StoreKeepsStacks(c: Config, s: State, t: nat, node: Node)
    requires StackInv(c, s) && t < |c.branch| && s.stacks[t] == []
    ensures StackInv(c, s.(nodes := s.nodes[t := Some(node)]))
  {
    var s' := s.(nodes := s.nodes[t := Some(node)]);
    forall u: nat, i: nat ensures Inside(s', u, i) <==> Inside(s, u, i) {
    }
    forall i: nat | i < |c.branch| && Active(s'.phases[i]) ensures exists u: nat :: Inside(s', u, i) {
      var u: nat :| Inside(s, u, i);
      assert Inside(s', u, i);
    }
  }

  /** A function goroutine t is inside moves on, whatever its phase. */
  lemma StepKeepsTop(c: Config, s: State, t: nat)
    requires ValidConfig(c) && Shaped(c, s) && Enabled(c, s, t) && s.stacks[t] != []
    requires !(Callee(s, t).Some? && s.phases[Callee(s, t).value].Idle?)
    requires Active(s.phases[Top(s.stacks[t])]) && NodeInv(c, s, Top(s.stacks[t]))
    ensures Shaped(c, Step(c, s, t)) && NodeInv(c, Step(c, s, t), Top(s.stacks[t]))
  {
    var i := Top(s.stacks[t]);
    if s.phases[i].Loading? {
      var load := c.branch[i].value;
      assert load.decide(s.phases[i].answers).Ask? ==> |s.phases[i].answers| < load.budget;
    }
  }

  /** A step leaves every function alone but the one it calls or is inside. */
  lemma StepKeepsOthers(c: Config, s: State, t: nat, k: nat)
    requires Shaped(c, s) && Enabled(c, s, t) && k < |c.branch|
    requires s.stacks[t] != [] ==> k != Top(s.stacks[t])
    requires Callee(s, t).Some? && s.phases[Callee(s, t).value].Idle? ==> k != Callee(s, t).value
    ensures
      var s' := Step(c, s, t);
      && |s'.phases| == |s.phases| && s'.phases[k] == s.phases[k]
      && |s'.runs| == |s.runs| && s'.runs[k] == s.runs[k]
  {
  }

  lemma StepKeepsNode(c: Config, s: State, t: nat, k: nat)
    requires ValidConfig(c) && Inv(c, s) && Enabled(c, s, t) && k < |c.branch|
    requires Shaped(c, Step(c, s, t))
    ensures NodeInv(c, Step(c, s, t), k)
  {
    assert NodeInv(c, s, k);
    var callee := Callee(s, t);
    if callee.Some? && s.phases[callee.value].Idle? {
      assert NodeInv(c, s, callee.value);
    } else if s.stacks[t] == [] {
    } else {
      var i := Top(s.stacks[t]);
      assert Inside(s, t, i);
      assert NodeInv(c, s, i);
      if k == i {
        StepKeepsTop(c, s, t);
      } else {
        StepKeepsOthers(c, s, t, k);
      }
    }
  }

  lemma StepKeepsInv(c: Config, s: State, t: nat)
    requires ValidConfig(c) && Inv(c, s) && Enabled(c, s, t)
    ensures Inv(c, Step(c, s, t))
  {
    hide NodeInv, ValidConfig, Absorb;
    var s' := Step(c, s, t);
    var callee := Callee(s, t);
    assert StackInv(c, s') by {
      if callee.Some? && s.phases[callee.value].Idle? {
        PushKeepsStacks(c, s, t, callee.value);
      } else if s.stacks[t] == [] {
        StoreKeepsStacks(c, s, t, s.phases[t].node);
      } else {
        var i := Top(s.stacks[t]);
        assert Inside(s, t, i);
        if s.phases[i].Leaving? {
          PopKeepsStacks(c, s, t, s.phases[i].node);
        } else {
          WorkKeepsStacks(c, s, s', t, s'.phases[i]);
        }
      }
    }
    forall k | 0 <= k < |c.branch| ensures NodeInv(c, s', k) {
      StepKeepsNode(c, s, t, k);
    }
  }
}
