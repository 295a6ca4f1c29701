/**
 Whole runs of a branch (data.go, runBranchWith): no interleaving gets stuck, every one ends, and no
 load runs twice.
 */
module BranchRuns {
  import opened Wrappers
  import opened Branch

  // ---------------------------------------------------------------- no deadlock

  ghost predicate Finished(c: Config, s: State)
    requires Shaped(c, s)
  {
    forall i :: 0 <= i < |c.branch| ==> s.nodes[i].Some?
  }

  lemma {:induction false} OutermostActive(phases: seq<Phase>, i: nat) returns (m: nat)
    requires i < |phases| && Active(phases[i])
    ensures m <= i && Active(phases[m])
    ensures forall k :: 0 <= k < m ==> !Active(phases[k])
    decreases i
  {
    if k :| 0 <= k < i && Active(phases[k]) {
      m := OutermostActive(phases, k);
    } else {
      m := i;
    }
  }

  /** The goroutine inside the outermost active function can always move. */
  lemma NeverStuck(c: Config, s: State)
    requires Inv(c, s) && !Finished(c, s)
    ensures exists t: nat :: Enabled(c, s, t)
  {
    if i :| 0 <= i < |c.branch| && Active(s.phases[i]) {
      var m := OutermostActive(s.phases, i);
      var t: nat :| Inside(s, t, m);
      var top := Top(s.stacks[t]);
      assert Inside(s, t, top);
      assert top <= m;
      assert top == m;
      assert Enabled(c, s, t);
    } else {
      var t: nat :| t < |c.branch| && s.nodes[t].None?;
      assert s.stacks[t] != [] ==> Inside(s, t, t);
      assert Enabled(c, s, t);
    }
  }

  // ---------------------------------------------------------------- termination

  /** Enough steps for `rounds` more calls of Parent by node i. */
  function Rounds(i: nat, rounds: nat): nat {
    if rounds == 0 then 0 else Rounds(i, rounds - 1) + i + 2
  }

  function Budget(c: Config, i: nat): nat
    requires i < |c.branch|
  {
    match c.branch[i] case None => 0 case Some(load) => load.budget
  }

  ghost function Left(c: Config, i: nat, p: Phase): nat
    requires i < |c.branch|
  {
    match p
    case Idle => 4 + Rounds(i, Budget(c, i))
    case Claimed => 3 + Rounds(i, Budget(c, i))
    case Loading(answers) =>
      2 + (if |answers| <= Budget(c, i) then Rounds(i, Budget(c, i) - |answers|) else 0)
    case Walking(answers, next, _) =>
      3 + (if next <= i then i - next else 0)
      + (if |answers| < Budget(c, i) then Rounds(i, Budget(c, i) - |answers| - 1) else 0)
    case Leaving(_) => 1
    case Settled(_) => 0
  }

  ghost function LeftFrom(c: Config, phases: seq<Phase>, nodes: seq<Option<Node>>, k: nat): nat
    requires |phases| == |nodes| == |c.branch| && k <= |c.branch|
  {
    if k == 0 then 0
    else LeftFrom(c, phases, nodes, k - 1) + Left(c, k - 1, phases[k - 1]) + (if nodes[k - 1].None? then 1 else 0)
  }

  /** An upper bound on the number of steps still to come. */
  ghost function Remaining(c: Config, s: State): nat
    requires Shaped(c, s)
  {
    LeftFrom(c, s.phases, s.nodes, |c.branch|)
  }

  lemma {:induction false} LessLeft(c: Config, p: seq<Phase>, n: seq<Option<Node>>, p': seq<Phase>,
                                    n': seq<Option<Node>>, i: nat, k: nat)
    requires |p| == |n| == |p'| == |n'| == |c.branch| && k <= |c.branch| && i < |c.branch|
    requires forall j :: 0 <= j < |c.branch| && j != i ==> p'[j] == p[j] && n'[j] == n[j]
    requires Left(c, i, p'[i]) + (if n'[i].None? then 1 else 0) < Left(c, i, p[i]) + (if n[i].None? then 1 else 0)
    ensures LeftFrom(c, p', n', k) <= LeftFrom(c, p, n, k)
    ensures i < k ==> LeftFrom(c, p', n', k) < LeftFrom(c, p, n, k)
  {
    if k > 0 {
      LessLeft(c, p, n, p', n', i, k - 1);
    }
  }

  lemma TopGetsCloser(c: Config, s: State, t: nat)
    requires ValidConfig(c) && Shaped(c, s) && Enabled(c, s, t) && s.stacks[t] != []
    requires !(Callee(s, t).Some? && s.phases[Callee(s, t).value].Idle?)
    requires Active(s.phases[Top(s.stacks[t])]) && NodeInv(c, s, Top(s.stacks[t]))
    ensures
      var i := Top(s.stacks[t]);
      && |Step(c, s, t).phases| == |s.phases|
      && Left(c, i, Step(c, s, t).phases[i]) < Left(c, i, s.phases[i])
  {
    var i := Top(s.stacks[t]);
    if s.phases[i].Loading? {
      var load := c.branch[i].value;
      assert load.decide(s.phases[i].answers).Ask? ==> |s.phases[i].answers| < load.budget;
    }
  }

  lemma StepGetsCloser(c: Config, s: State, t: nat)
    requires ValidConfig(c) && Inv(c, s) && Enabled(c, s, t)
    ensures Shaped(c, Step(c, s, t))
    ensures Remaining(c, Step(c, s, t)) < Remaining(c, s)
  {
    StepKeepsInv(c, s, t);
    var callee := Callee(s, t);
    if s.stacks[t] != [] && !(callee.Some? && s.phases[callee.value].Idle?) {
      InsideGetsCloser(c, s, t);
    } else {
      var s' := Step(c, s, t);
      var touched := if callee.Some? && s.phases[callee.value].Idle? then callee.value else t;
      hide Inv, NodeInv, ValidConfig;
      LessLeft(c, s.phases, s.nodes, s'.phases, s'.nodes, touched, |c.branch|);
    }
  }

  /** A step of the load a goroutine is inside. */
  lemma InsideGetsCloser(c: Config, s: State, t: nat)
    requires ValidConfig(c) && Inv(c, s) && Enabled(c, s, t) && s.stacks[t] != []
    requires !(Callee(s, t).Some? && s.phases[Callee(s, t).value].Idle?)
    requires Shaped(c, Step(c, s, t))
    ensures Remaining(c, Step(c, s, t)) < Remaining(c, s)
  {
    var s' := Step(c, s, t);
    var touched := Top(s.stacks[t]);
    assert Inside(s, t, touched);
    assert NodeInv(c, s, touched);
    TopGetsCloser(c, s, t);
    forall j | 0 <= j < |c.branch| && j != touched ensures s'.phases[j] == s.phases[j] {
      StepKeepsOthers(c, s, t, j);
    }
    hide Inv, NodeInv, Left;
    LessLeft(c, s.phases, s.nodes, s'.phases, s'.nodes, touched, |c.branch|);
  }

  // ---------------------------------------------------------------- schedules

  /** The goroutines of `schedule` can move in this order. */
  ghost predicate Admits(c: Config, s: State, schedule: seq<nat>)
    decreases |schedule|
  {
    schedule == [] ||
    (Shaped(c, s) && Enabled(c, s, schedule[0]) && Admits(c, Step(c, s, schedule[0]), schedule[1..]))
  }

  ghost function Run(c: Config, s: State, schedule: seq<nat>): State
    requires Admits(c, s, schedule)
    decreases |schedule|
  {
    if schedule == [] then s else Run(c, Step(c, s, schedule[0]), schedule[1..])
  }

  lemma {:induction false} RunKeepsInv(c: Config, s: State, schedule: seq<nat>)
    requires ValidConfig(c) && Inv(c, s) && Admits(c, s, schedule)
    ensures Inv(c, Run(c, s, schedule))
    ensures |schedule| + Remaining(c, Run(c, s, schedule)) <= Remaining(c, s)
    decreases |schedule|
  {
    if schedule != [] {
      StepKeepsInv(c, s, schedule[0]);
      StepGetsCloser(c, s, schedule[0]);
      RunKeepsInv(c, Step(c, s, schedule[0]), schedule[1..]);
    }
  }

  /**
   Every interleaving is finite and can only stop with every goroutine finished; no load is
   ever started twice, and when it has stopped every asked load was started exactly once.
   */
  lemma EveryInterleavingEnds(c: Config, schedule: seq<nat>)
    requires ValidConfig(c) && Admits(c, Initial(c), schedule)
    ensures
      var s := Run(c, Initial(c), schedule);
      && |schedule| <= Remaining(c, Initial(c))
      && Shaped(c, s)
      && (Finished(c, s) || exists t: nat :: Enabled(c, s, t))
      && (forall i :: 0 <= i < |c.branch| ==> s.runs[i] <= 1)
      && (Finished(c, s) ==> forall i :: 0 <= i < |c.branch| && c.asked[i] && c.branch[i].Some? ==> s.runs[i] == 1)
  {
    InitialInv(c);
    RunKeepsInv(c, Initial(c), schedule);
    var s := Run(c, Initial(c), schedule);
    if !Finished(c, s) {
      NeverStuck(c, s);
    }
    forall i | 0 <= i < |c.branch| ensures s.runs[i] <= 1 {
      assert NodeInv(c, s, i);
    }
    forall i | 0 <= i < |c.branch| && c.asked[i] && c.branch[i].Some? && Finished(c, s) ensures s.runs[i] == 1 {
      assert NodeInv(c, s, i);
    }
  }
}
