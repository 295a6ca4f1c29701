/**
 What a finished run of a branch holds (data.go, runBranchWith): where the abort flag cannot matter,
 the nodes sequential evaluation in index order gives.
 */
module BranchResults {
  import opened Wrappers
  import opened Branch
  import opened BranchRuns

  // ---------------------------------------------------------------- results

  /** Which slots hold a load. */
  function Presence(c: Config): (present: seq<bool>)
    ensures |present| == |c.branch| && forall i :: 0 <= i < |c.branch| ==> (present[i] <==> c.branch[i].Some?)
  {
    seq(|c.branch|, i requires 0 <= i < |c.branch| => c.branch[i].Some?)
  }

  /** No load that was not asked for has two asked ones below it. */
  ghost predicate SafeMask(present: seq<bool>, asked: seq<bool>)
    requires |present| == |asked|
  {
    forall m, i, j :: 0 <= m < i < j < |asked| && present[m] && !asked[m] ==>
      !(present[i] && asked[i] && present[j] && asked[j])
  }

  /** The abort flag cannot change a result: by the mask, or because nothing fails. */
  ghost predicate Steady(c: Config)
    requires ValidConfig(c)
  {
    || SafeMask(Presence(c), c.asked)
    || (forall i :: 0 <= i < |c.branch| ==> !Fails(Sequential(c, |c.branch|)[i]))
  }

  /** The result of a node, or for a slot that is empty and not asked for what means as little. */
  predicate Stands(c: Config, r: seq<Node>, i: nat, node: Node)
    requires |r| == |c.branch| == |c.asked| && i < |c.branch|
  {
    node == r[i] || (!c.asked[i] && node == Skip && r[i] == Empty)
  }

  /** Node i stands where sequential evaluation would have it, given all results r. */
  ghost predicate OnCourse(c: Config, r: seq<Node>, i: nat, p: Phase)
    requires ValidConfig(c) && |r| == |c.branch| && i < |c.branch|
  {
    match p
    case Idle => true
    case Claimed => true
    case Loading(answers) =>
      && c.branch[i].Some?
      && answers == Repeat(Merge(r[..i]), |answers|)
      && NodeOf(Play(c.branch[i].value, Merge(r[..i]), |answers|)) == r[i]
    case Walking(answers, next, merged) =>
      && c.branch[i].Some? && next <= i
      && answers == Repeat(Merge(r[..i]), |answers|)
      && NodeOf(Play(c.branch[i].value, Merge(r[..i]), |answers| + 1)) == r[i]
      && Merge(r[..next]) == Merged(merged)
    case Leaving(node) => Stands(c, r, i, node)
    case Settled(node) => Stands(c, r, i, node)
  }

  predicate Done(p: Phase) {
    p.Leaving? || p.Settled?
  }

  /** Outer functions come first: before a walk's next one, and before one nobody asked for. */
  ghost predicate OuterFirst(c: Config, r: seq<Node>, s: State, i: nat)
    requires Shaped(c, s) && |r| == |c.branch| && i < |c.branch|
  {
    && (s.phases[i].Walking? ==> forall l :: 0 <= l < s.phases[i].next && l < |c.branch| ==> s.phases[l].Settled?)
    && (!c.asked[i] && !s.phases[i].Idle? ==> Merge(r[..i]).Merged? && forall l :: 0 <= l < i ==> s.phases[l].Settled?)
    && (|s.stacks[i]| > 1 ==> s.phases[i].Walking?)
  }

  ghost predicate ResultInv(c: Config, s: State)
    requires ValidConfig(c) && Shaped(c, s)
  {
    var r := Sequential(c, |c.branch|);
    && (forall i :: 0 <= i < |c.branch| ==> OnCourse(c, r, i, s.phases[i]))
    && (forall i :: 0 <= i < |c.branch| ==> OuterFirst(c, r, s, i))
    && (s.aborted ==> exists k :: 0 <= k < |c.branch| && Fails(r[k]) && Done(s.phases[k]))
  }

  /** Nobody merges past a failure. */
  lemma {:induction false} MergedPast(r: seq<Node>, k: nat, i: nat)
    requires k < i <= |r| && Merge(r[..i]).Merged?
    ensures !Fails(r[k])
  {
    if k == i - 1 {
      assert r[..i][..i - 1] == r[..i - 1] && r[..i][i - 1] == r[k];
    } else {
      assert r[..i][..i - 1] == r[..i - 1];
      MergedPast(r, k, i - 1);
    }
  }

  /**
   When a load nobody asked for is about to start and the flag is set, the goroutine that called it
   and the one that failed were both asked for, and both are below it.
   */
  lemma SkipsOnlyUnsafely(c: Config, s: State, t: nat)
    requires ValidConfig(c) && Inv(c, s) && ResultInv(c, s)
    requires t < |c.branch| && s.nodes[t].None? && s.stacks[t] != []
    requires var i := Top(s.stacks[t]); s.phases[i].Claimed? && !c.asked[i] && c.branch[i].Some?
    requires s.aborted
    ensures !Steady(c)
  {
    hide Sequential, OnCourse, Merge, Play;
    var i := Top(s.stacks[t]);
    var r := Sequential(c, |c.branch|);
    var k :| 0 <= k < |c.branch| && Fails(r[k]) && Done(s.phases[k]);
    assert OuterFirst(c, r, s, i) && OuterFirst(c, r, s, k) && OuterFirst(c, r, s, t);
    assert NodeInv(c, s, t);
    SequentialAt(c, k);
    if k < i {
      MergedPast(r, k, i);
    }
    assert i < k && c.asked[k];
    assert t > i && s.phases[t].Walking? && c.asked[t];
    var present := Presence(c);
    if t < k {
      assert present[i] && present[t] && present[k] && !SafeMask(present, c.asked);
    } else {
      assert k < t && present[i] && present[t] && present[k] && !SafeMask(present, c.asked);
    }
  }

  lemma SequentialAt(c: Config, i: nat)
    requires ValidConfig(c) && i < |c.branch|
    ensures
      var r := Sequential(c, |c.branch|);
      r[i] == match c.branch[i]
              case None => Empty
              case Some(load) => NodeOf(Play(load, Merge(r[..i]), 0))
  {
    SequentialPrefix(c, i, |c.branch|);
    SequentialPrefix(c, i + 1, |c.branch|);
    assert Sequential(c, |c.branch|)[i] == Sequential(c, |c.branch|)[..i + 1][i];
  }

  /** Once the merge has stopped at an outer node, later nodes do not matter. */
  lemma {:induction false} MergeStops(r: seq<Node>, j: nat, i: nat)
    requires j <= i <= |r| && !Merge(r[..j]).Merged?
    ensures Merge(r[..i]) == Merge(r[..j])
  {
    if j < i {
      MergeStops(r, j, i - 1);
      assert r[..i][..i - 1] == r[..i - 1];
    }
  }

  lemma MergeNext(r: seq<Node>, j: nat)
    requires j < |r| && Merge(r[..j]).Merged?
    ensures Merge(r[..j + 1]) == Absorb(Merge(r[..j]).fields, r[j])
  {
    assert r[..j + 1][..j] == r[..j];
  }

  /** A load decides on the answers it would have had sequentially. */
  lemma LoadingStaysOnCourse(c: Config, r: seq<Node>, i: nat, answers: seq<Parents>)
    requires ValidConfig(c) && |r| == |c.branch| && i < |c.branch|
    requires OnCourse(c, r, i, Loading(answers))
    ensures
      match c.branch[i].value.decide(answers)
      case Ask => OnCourse(c, r, i, Walking(answers, 0, map[]))
      case Finish(outcome) => OnCourse(c, r, i, Leaving(NodeOf(outcome)))
  {
    assert r[..0] == [];
  }

  /** Parent's loop takes in one more outer node, or returns. */
  lemma WalkingStaysOnCourse(c: Config, r: seq<Node>, i: nat, answers: seq<Parents>, next: nat,
                             merged: map<string, Json>)
    requires ValidConfig(c) && |r| == |c.branch| && i < |c.branch|
    requires OnCourse(c, r, i, Walking(answers, next, merged))
    ensures next == i ==> OnCourse(c, r, i, Loading(answers + [Merged(merged)]))
    ensures next < i ==>
      match Absorb(merged, r[next])
      case Merged(more) => OnCourse(c, r, i, Walking(answers, next + 1, more))
      case stopped => OnCourse(c, r, i, Loading(answers + [stopped]))
  {
    var answer := Merge(r[..i]);
    assert answers + [answer] == Repeat(answer, |answers| + 1);
    if next < i {
      MergeNext(r, next);
      if !Merge(r[..next + 1]).Merged? {
        MergeStops(r, next + 1, i);
      }
    }
  }

  /** A function that starts, and is skipped only where that means nothing. */
  lemma ClaimedStaysOnCourse(c: Config, r: seq<Node>, s: State, t: nat)
    requires ValidConfig(c) && Shaped(c, s) && Enabled(c, s, t) && s.stacks[t] != [] && |r| == |c.branch|
    requires
      var i := Top(s.stacks[t]);
      && s.phases[i].Claimed?
      && !(s.aborted && !c.asked[i] && c.branch[i].Some?)
      && (c.branch[i].None? ==> r[i] == Empty)
      && (c.branch[i].Some? ==> r[i] == NodeOf(Play(c.branch[i].value, Merge(r[..i]), 0)))
    ensures
      var i := Top(s.stacks[t]);
      var s' := Step(c, s, t);
      && |s'.phases| == |s.phases| && OnCourse(c, r, i, s'.phases[i]) && s'.aborted == s.aborted
  {
    var i := Top(s.stacks[t]);
    assert Repeat(Merge(r[..i]), 0) == [];
  }

  /** A function that is on its way, given that the next one is on course. */
  lemma WorkStaysOnCourse(c: Config, r: seq<Node>, s: State, t: nat)
    requires ValidConfig(c) && Shaped(c, s) && Enabled(c, s, t) && s.stacks[t] != [] && |r| == |c.branch|
    requires
      var i := Top(s.stacks[t]);
      && Active(s.phases[i]) && !s.phases[i].Claimed? && OnCourse(c, r, i, s.phases[i])
      && (s.phases[i].Walking? && s.phases[i].next < i ==>
            s.phases[s.phases[i].next].Settled? && OnCourse(c, r, s.phases[i].next, s.phases[s.phases[i].next]))
    ensures
      var i := Top(s.stacks[t]);
      var s' := Step(c, s, t);
      && |s'.phases| == |s.phases|
      && OnCourse(c, r, i, s'.phases[i])
      && (s'.aborted && !s.aborted ==> Fails(r[i]) && Done(s'.phases[i]))
  {
    hide Merge, Play, ValidConfig;
    var i := Top(s.stacks[t]);
    match s.phases[i]
    case Loading(answers) =>
      LoadingStaysOnCourse(c, r, i, answers);
    case Walking(answers, next, merged) =>
      WalkingStaysOnCourse(c, r, i, answers, next, merged);
    case Leaving(node) =>
  }

  lemma TopStaysOnCourse(c: Config, s: State, t: nat)
    requires ValidConfig(c) && Steady(c) && Inv(c, s) && Enabled(c, s, t) && ResultInv(c, s)
    requires s.stacks[t] != [] && !(Callee(s, t).Some? && s.phases[Callee(s, t).value].Idle?)
    requires Active(s.phases[Top(s.stacks[t])])
    ensures
      var i := Top(s.stacks[t]);
      var s' := Step(c, s, t);
      var r := Sequential(c, |c.branch|);
      && |s'.phases| == |s.phases|
      && OnCourse(c, r, i, s'.phases[i])
      && (s'.aborted && !s.aborted ==> Fails(r[i]) && Done(s'.phases[i]))
  {
    hide Step, OnCourse, Steady, Sequential, Merge, Play, Absorb, OuterFirst;
    var i := Top(s.stacks[t]);
    var r := Sequential(c, |c.branch|);
    assert OnCourse(c, r, i, s.phases[i]);
    if s.phases[i].Claimed? {
      SequentialAt(c, i);
      if s.aborted && !c.asked[i] && c.branch[i].Some? {
        SkipsOnlyUnsafely(c, s, t);
      }
      ClaimedStaysOnCourse(c, r, s, t);
    } else {
      WorkStaysOnCourse(c, r, s, t);
    }
  }

  lemma PushKeepsOrder(c: Config, r: seq<Node>, s: State, t: nat, j: nat, k: nat)
    requires Shaped(c, s) && |r| == |c.branch| && t < |c.branch| && j < |c.branch| && k < |c.branch|
    requires OuterFirst(c, r, s, k) && s.phases[j].Idle?
    requires
      if s.stacks[t] == [] then j == t && c.asked[t]
      else
        var i := Top(s.stacks[t]);
        && s.stacks[t][0] == t && OuterFirst(c, r, s, i)
        && s.phases[i].Walking? && s.phases[i].next == j && Merge(r[..j]).Merged?
    ensures OuterFirst(c, r, s.(phases := s.phases[j := Claimed], stacks := s.stacks[t := s.stacks[t] + [j]]), k)
  {
    hide Merge;
  }

  lemma WorkKeepsOrder(c: Config, r: seq<Node>, s: State, s': State, i: nat, k: nat)
    requires Shaped(c, s) && Shaped(c, s') && |r| == |c.branch| && i < |c.branch| && k < |c.branch|
    requires OuterFirst(c, r, s, k) && OuterFirst(c, r, s, i) && Active(s.phases[i])
    requires s'.phases == s.phases[i := s'.phases[i]] && !s'.phases[i].Idle?
    requires s'.phases[i].Walking? && s'.phases[i].next > 0 ==>
      s.phases[i].Walking? && s'.phases[i].next == s.phases[i].next + 1 && s.phases[i].next < i &&
      s.phases[s.phases[i].next].Settled?
    requires |s.stacks[i]| <= 1 && forall u :: 0 <= u < |c.branch| ==> |s'.stacks[u]| <= |s.stacks[u]|
    ensures OuterFirst(c, r, s', k)
  {
    hide Merge;
  }

  /** What a step makes of the function its goroutine is inside. */
  lemma WorkMovesOn(c: Config, s: State, t: nat)
    requires Shaped(c, s) && Enabled(c, s, t) && s.stacks[t] != [] && Shaped(c, Step(c, s, t))
    requires !(Callee(s, t).Some? && s.phases[Callee(s, t).value].Idle?) && Active(s.phases[Top(s.stacks[t])])
    ensures
      var i, s' := Top(s.stacks[t]), Step(c, s, t);
      && s'.phases == s.phases[i := s'.phases[i]] && !s'.phases[i].Idle?
      && (s'.phases[i].Walking? && s'.phases[i].next > 0 ==>
            s.phases[i].Walking? && s'.phases[i].next == s.phases[i].next + 1 && s.phases[i].next < i &&
            s.phases[s.phases[i].next].Settled?)
      && forall u :: 0 <= u < |c.branch| ==> |s'.stacks[u]| <= |s.stacks[u]|
  {
  }

  /** The innermost function's own goroutine has called nothing else. */
  lemma TopIsAlone(c: Config, s: State, t: nat)
    requires StackInv(c, s) && t < |c.branch| && s.stacks[t] != []
    ensures s.stacks[t][0] == t && Active(s.phases[Top(s.stacks[t])]) && |s.stacks[Top(s.stacks[t])]| <= 1
  {
    var i := Top(s.stacks[t]);
    assert Inside(s, t, i);
    if s.stacks[i] != [] {
      assert Inside(s, i, i);
    }
  }

  lemma StepKeepsOrder(c: Config, s: State, t: nat, k: nat)
    requires ValidConfig(c) && Inv(c, s) && Enabled(c, s, t) && ResultInv(c, s) && k < |c.branch|
    requires Shaped(c, s) && Shaped(c, Step(c, s, t))
    ensures OuterFirst(c, Sequential(c, |c.branch|), Step(c, s, t), k)
  {
    hide StackInv, OuterFirst, Sequential, Merge, Play, ValidConfig;
    var s' := Step(c, s, t);
    var r := Sequential(c, |c.branch|);
    var callee := Callee(s, t);
    assert OuterFirst(c, r, s, k) && NodeInv(c, s, t);
    if s.stacks[t] != [] {
      TopIsAlone(c, s, t);
    }
    if callee.Some? && s.phases[callee.value].Idle? {
      if s.stacks[t] != [] {
        assert OnCourse(c, r, Top(s.stacks[t]), s.phases[Top(s.stacks[t])]);
      }
      PushKeepsOrder(c, r, s, t, callee.value, k);
    } else if s.stacks[t] == [] {
      StoreKeepsOrder(c, r, s, t, k);
    } else {
      WorkMovesOn(c, s, t);
      WorkKeepsOrder(c, r, s, s', Top(s.stacks[t]), k);
    }
  }

  lemma StoreKeepsOrder(c: Config, r: seq<Node>, s: State, t: nat, k: nat)
    requires Shaped(c, s) && Enabled(c, s, t) && s.stacks[t] == [] && !s.phases[t].Idle? && Shaped(c, Step(c, s, t))
    requires |r| == |c.branch| && k < |c.branch| && OuterFirst(c, r, s, k)
    ensures OuterFirst(c, r, Step(c, s, t), k)
  {
  }

  lemma StepKeepsResults(c: Config, s: State, t: nat)
    requires ValidConfig(c) && Steady(c) && Inv(c, s) && Enabled(c, s, t) && ResultInv(c, s)
    ensures Shaped(c, Step(c, s, t)) && ResultInv(c, Step(c, s, t))
  {
    StepKeepsInv(c, s, t);
    var s' := Step(c, s, t);
    var r := Sequential(c, |c.branch|);
    var callee := Callee(s, t);
    forall k | 0 <= k < |c.branch| ensures OnCourse(c, r, k, s'.phases[k]) && OuterFirst(c, r, s', k) {
      assert OnCourse(c, r, k, s.phases[k]);
      StepKeepsOrder(c, s, t, k);
      if callee.Some? && s.phases[callee.value].Idle? {
      } else if s.stacks[t] == [] {
      } else if k == Top(s.stacks[t]) {
        assert Inside(s, t, k);
        TopStaysOnCourse(c, s, t);
      } else {
        StepKeepsOthers(c, s, t, k);
      }
    }
    StepKeepsBlame(c, s, t);
  }

  /** When the flag is set, a function that failed is done. */
  lemma StepKeepsBlame(c: Config, s: State, t: nat)
    requires ValidConfig(c) && Steady(c) && Inv(c, s) && Enabled(c, s, t) && ResultInv(c, s)
    requires Shaped(c, Step(c, s, t))
    ensures
      var r := Sequential(c, |c.branch|);
      Step(c, s, t).aborted ==> exists k :: 0 <= k < |c.branch| && Fails(r[k]) && Done(Step(c, s, t).phases[k])
  {
    var s' := Step(c, s, t);
    var r := Sequential(c, |c.branch|);
    if s'.aborted && !s.aborted {
      var i := Top(s.stacks[t]);
      assert Inside(s, t, i);
      TopStaysOnCourse(c, s, t);
      assert Done(s'.phases[i]);
    } else if s'.aborted {
      var k :| 0 <= k < |c.branch| && Fails(r[k]) && Done(s.phases[k]);
      DoneStays(c, s, t, k);
    }
  }

  /** A function that is done stays so, with its result. */
  lemma DoneStays(c: Config, s: State, t: nat, k: nat)
    requires Inv(c, s) && Enabled(c, s, t) && k < |c.branch| && Done(s.phases[k])
    ensures
      var s' := Step(c, s, t);
      |s'.phases| == |c.branch| && Done(s'.phases[k]) && s'.phases[k].node == s.phases[k].node
  {
    if s.stacks[t] != [] {
      assert Inside(s, t, Top(s.stacks[t]));
    }
    if !(s.stacks[t] != [] && k == Top(s.stacks[t])) {
      StepKeepsOthers(c, s, t, k);
    }
  }

  lemma {:induction false} RunKeepsResults(c: Config, s: State, schedule: seq<nat>)
    requires ValidConfig(c) && Steady(c) && Inv(c, s) && ResultInv(c, s) && Admits(c, s, schedule)
    ensures Inv(c, Run(c, s, schedule)) && ResultInv(c, Run(c, s, schedule))
    decreases |schedule|
  {
    if schedule != [] {
      StepKeepsInv(c, s, schedule[0]);
      StepKeepsResults(c, s, schedule[0]);
      RunKeepsResults(c, Step(c, s, schedule[0]), schedule[1..]);
    }
  }

  /**
   However the goroutines interleave, a finished run holds what sequential evaluation in
   index order produces in every asked slot, and "skip" in the others, whatever the loads do
   under a safe mask, and under any mask if none fails.
   */
  lemma EveryInterleavingAgrees(c: Config, schedule: seq<nat>)
    requires ValidConfig(c) && Steady(c)
    requires Admits(c, Initial(c), schedule)
    ensures
      var s := Run(c, Initial(c), schedule);
      && Shaped(c, s)
      && (Finished(c, s) ==>
            forall i :: 0 <= i < |c.branch| ==>
              s.nodes[i] == Some(if c.asked[i] then Sequential(c, |c.branch|)[i] else Skip))
  {
    InitialInv(c);
    RunKeepsResults(c, Initial(c), schedule);
    var s := Run(c, Initial(c), schedule);
    var r := Sequential(c, |c.branch|);
    if Finished(c, s) {
      forall i | 0 <= i < |c.branch| ensures s.nodes[i] == Some(if c.asked[i] then r[i] else Skip) {
        assert NodeInv(c, s, i) && OnCourse(c, r, i, s.phases[i]);
      }
    }
  }
}
