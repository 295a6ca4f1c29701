/**
 Which masks make a branch's results depend on the schedule (data.go:259-284, the abort flag):
 exactly those that leave out a load with two asked ones below it.
 */
module BranchRace {
  import opened Wrappers
  import opened Branch
  import opened BranchResults
  import opened BranchRuns

  // ---------------------------------------------------------------- reachable states

  lemma {:induction false} Extend(c: Config, s: State, schedule: seq<nat>, t: nat)
    requires Admits(c, s, schedule) && Shaped(c, Run(c, s, schedule)) && Enabled(c, Run(c, s, schedule), t)
    ensures Admits(c, s, schedule + [t])
    ensures Run(c, s, schedule + [t]) == Step(c, Run(c, s, schedule), t)
    decreases |schedule|
  {
    if schedule == [] {
      assert ([] + [t])[1..] == [];
    } else {
      Extend(c, Step(c, s, schedule[0]), schedule[1..], t);
      assert (schedule + [t])[1..] == schedule[1..] + [t];
      assert (schedule + [t])[0] == schedule[0];
    }
  }

  ghost predicate Reachable(c: Config, s: State)
    requires |c.asked| == |c.branch|
  {
    exists schedule: seq<nat> :: Admits(c, Initial(c), schedule) && Run(c, Initial(c), schedule) == s
  }

  lemma OneMore(c: Config, s: State, t: nat)
    requires |c.asked| == |c.branch| && Reachable(c, s) && Shaped(c, s) && Enabled(c, s, t)
    ensures Reachable(c, Step(c, s, t))
  {
    var schedule: seq<nat> :| Admits(c, Initial(c), schedule) && Run(c, Initial(c), schedule) == s;
    Extend(c, Initial(c), schedule, t);
  }

  lemma ReachableInv(c: Config, s: State)
    requires ValidConfig(c) && Reachable(c, s)
    ensures Inv(c, s)
  {
    var schedule: seq<nat> :| Admits(c, Initial(c), schedule) && Run(c, Initial(c), schedule) == s;
    InitialInv(c);
    RunKeepsInv(c, Initial(c), schedule);
  }

  lemma StartReachable(c: Config)
    requires ValidConfig(c)
    ensures Reachable(c, Initial(c))
  {
    assert Run(c, Initial(c), []) == Initial(c);
  }

  /** Any run can be carried on until every goroutine has finished, and what is done stays as it is. */
  lemma {:induction false} Finishes(c: Config, s: State, a: nat, node: Node) returns (end: State)
    requires ValidConfig(c) && Reachable(c, s) && Inv(c, s)
    requires a < |c.branch| && c.asked[a] && Done(s.phases[a]) && s.phases[a].node == node
    ensures Reachable(c, end) && Shaped(c, end) && Finished(c, end) && end.nodes[a] == Some(node)
    decreases Remaining(c, s)
  {
    hide Run, Step;
    if Finished(c, s) {
      end := s;
      assert NodeInv(c, s, a);
    } else {
      NeverStuck(c, s);
      var t: nat :| Enabled(c, s, t);
      StepKeepsInv(c, s, t);
      StepGetsCloser(c, s, t);
      OneMore(c, s, t);
      DoneStays(c, s, t, a);
      end := Finishes(c, Step(c, s, t), a, node);
    }
  }

  // ---------------------------------------------------------------- a branch that races

  const USER: map<string, Json> := map["user" := Json("1")]

  function LoadAt(x: nat, m: nat, a: nat, b: nat): Load {
    if x == m then Load((_: seq<Parents>) => Finish(Returned(Fields(USER))), 0)
    else if x == a then
      Load(
        (h: seq<Parents>) =>
          if h == [] then Ask else Finish(Returned(if h[0].Merged? then Fields(h[0].fields) else NotObject)),
        1)
    else if x == b then Load((_: seq<Parents>) => Finish(Threw("no")), 0)
    else Load((_: seq<Parents>) => Finish(Returned(NotObject)), 0)
  }

  /** A load at m that nobody asked for, one at a that copies its parents, and one at b that fails. */
  function Racing(present: seq<bool>, asked: seq<bool>, m: nat, a: nat, b: nat): Config {
    Config(seq(|present|, x requires 0 <= x < |present| => if present[x] then Some(LoadAt(x, m, a, b)) else None),
      asked)
  }

  /** What the runs below need to know of it. */
  ghost predicate Races(c: Config, m: nat, a: nat, b: nat) {
    && ValidConfig(c) && m < a < b < |c.branch|
    && c.branch[m].Some? && c.branch[a].Some? && c.branch[b].Some?
    && !c.asked[m] && c.asked[a] && c.asked[b]
    && c.branch[a].value.decide([]) == Ask
    && (forall fields :: c.branch[a].value.decide([Merged(fields)]) == Finish(Returned(Fields(fields))))
    && c.branch[b].value.decide([]) == Finish(Threw("no"))
    && (forall x :: 0 <= x < a && c.branch[x].Some? ==>
          c.branch[x].value.decide([]) == Finish(Returned(if x == m then Fields(USER) else NotObject)))
  }

  lemma RacingRaces(present: seq<bool>, asked: seq<bool>, m: nat, a: nat, b: nat)
    requires |present| == |asked| && m < a < b < |asked|
    requires present[m] && present[a] && present[b] && !asked[m] && asked[a] && asked[b]
    ensures Races(Racing(present, asked, m, a, b), m, a, b) && Presence(Racing(present, asked, m, a, b)) == present
  {
    var c := Racing(present, asked, m, a, b);
    forall i | 0 <= i < |c.branch| && c.branch[i].Some? ensures ValidLoad(c.branch[i].value) {
      assert c.branch[i].value == LoadAt(i, m, a, b);
    }
  }

  /** What the node at x comes to, above the one that copies, without or with the flag set. */
  function Result(c: Config, m: nat, x: nat, flag: bool): Node
    requires x < |c.branch| == |c.asked|
  {
    if !c.asked[x] && flag then Skip
    else if c.branch[x].None? then Empty
    else Value(if x == m then Fields(USER) else NotObject)
  }

  /** What is merged once the walk has passed l. */
  function MergedAt(m: nat, l: nat, flag: bool): map<string, Json> {
    if m < l && !flag then USER else map[]
  }

  // ---------------------------------------------------------------- one goroutine on its own

  /** Outside function a, all functions before l are settled, and those from there on are not started. */
  ghost predicate Around(c: Config, s: State, a: nat, l: nat, flag: bool) {
    && Shaped(c, s) && l <= a < |c.branch| && s.nodes[a].None? && s.aborted == flag
    && (forall x :: 0 <= x < l ==> s.phases[x].Settled?)
    && (forall x :: l < x < a ==> s.phases[x].Idle?)
  }

  /** Goroutine a walks, about to call l. */
  ghost predicate AtWalk(c: Config, s: State, m: nat, a: nat, l: nat, flag: bool) {
    && Around(c, s, a, l, flag) && (l < a ==> s.phases[l].Idle?)
    && s.stacks[a] == [a] && s.phases[a] == Walking([], l, MergedAt(m, l, flag))
  }

  /** It is inside l. */
  ghost predicate AtNode(c: Config, s: State, m: nat, a: nat, l: nat, flag: bool, p: Phase) {
    && l < a && Around(c, s, a, l, flag) && s.phases[l] == p
    && s.stacks[a] == [a, l] && s.phases[a] == Walking([], l, MergedAt(m, l, flag))
  }

  /** It is back from l. */
  ghost predicate AtBack(c: Config, s: State, m: nat, a: nat, l: nat, flag: bool) {
    && l < a && Around(c, s, a, l, flag) && s.phases[l] == Settled(Result(c, m, l, flag))
    && s.stacks[a] == [a] && s.phases[a] == Walking([], l, MergedAt(m, l, flag))
  }

  lemma Calls(c: Config, s: State, m: nat, a: nat, b: nat, l: nat, flag: bool) returns (s': State)
    requires Races(c, m, a, b) && Reachable(c, s) && AtWalk(c, s, m, a, l, flag) && l < a
    ensures Reachable(c, s') && AtNode(c, s', m, a, l, flag, Claimed)
  {
    hide Reachable, Races, Absorb, MergedAt;
    OneMore(c, s, a);
    s' := Step(c, s, a);
    assert [a] + [l] == [a, l];
  }

  lemma Starts(c: Config, s: State, m: nat, a: nat, b: nat, l: nat, flag: bool) returns (s': State)
    requires Races(c, m, a, b) && Reachable(c, s) && AtNode(c, s, m, a, l, flag, Claimed)
    ensures Reachable(c, s')
    ensures AtNode(c, s', m, a, l, flag, if (!c.asked[l] && flag) ||
      c.branch[l].None? then Leaving(Result(c, m, l, flag)) else Loading([]))
  {
    hide Reachable, Races, Absorb, MergedAt;
    OneMore(c, s, a);
    s' := Step(c, s, a);
  }

  lemma Leaves(c: Config, s: State, m: nat, a: nat, b: nat, l: nat, flag: bool) returns (s': State)
    requires Races(c, m, a, b) && Reachable(c, s) && AtNode(c, s, m, a, l, flag, Loading([]))
    requires c.branch[l].Some? && (c.asked[l] || !flag)
    ensures Reachable(c, s') && AtNode(c, s', m, a, l, flag, Leaving(Result(c, m, l, flag)))
  {
    hide Reachable, Absorb, MergedAt;
    OneMore(c, s, a);
    s' := Step(c, s, a);
  }

  lemma Returns(c: Config, s: State, m: nat, a: nat, b: nat, l: nat, flag: bool) returns (s': State)
    requires Races(c, m, a, b) && Reachable(c, s) && l < a &&
      AtNode(c, s, m, a, l, flag, Leaving(Result(c, m, l, flag)))
    ensures Reachable(c, s') && AtBack(c, s', m, a, l, flag)
  {
    hide Reachable, Races, Absorb, MergedAt, Result;
    OneMore(c, s, a);
    s' := Step(c, s, a);
    assert [a, l][..1] == [a];
  }

  lemma Absorbs(c: Config, s: State, m: nat, a: nat, b: nat, l: nat, flag: bool) returns (s': State)
    requires Races(c, m, a, b) && Reachable(c, s) && AtBack(c, s, m, a, l, flag)
    ensures Reachable(c, s') && AtWalk(c, s', m, a, l + 1, flag)
  {
    hide Reachable, Absorb, MergedAt, Result;
    AbsorbsResult(c, m, l, flag);
    OneMore(c, s, a);
    s' := Step(c, s, a);
  }

  lemma AbsorbsResult(c: Config, m: nat, l: nat, flag: bool)
    requires l < |c.branch| == |c.asked| && m < |c.branch| && c.branch[m].Some? && !c.asked[m]
    ensures Absorb(MergedAt(m, l, flag), Result(c, m, l, flag)) == Merged(MergedAt(m, l + 1, flag))
  {
    assert map[] + USER == USER;
  }

  lemma Round(c: Config, s: State, m: nat, a: nat, b: nat, l: nat, flag: bool) returns (s': State)
    requires Races(c, m, a, b) && Reachable(c, s) && AtWalk(c, s, m, a, l, flag) && l < a
    ensures Reachable(c, s') && AtWalk(c, s', m, a, l + 1, flag)
  {
    assert a < |c.branch| == |c.asked|;
    hide Races, AtNode, AtWalk, AtBack, Reachable, Result, MergedAt;
    s' := Calls(c, s, m, a, b, l, flag);
    s' := Starts(c, s', m, a, b, l, flag);
    if c.branch[l].Some? && (c.asked[l] || !flag) {
      s' := Leaves(c, s', m, a, b, l, flag);
    }
    s' := Returns(c, s', m, a, b, l, flag);
    s' := Absorbs(c, s', m, a, b, l, flag);
  }

  lemma {:induction false} Walks(c: Config, s: State, m: nat, a: nat, b: nat, l: nat, flag: bool) returns (s': State)
    requires Races(c, m, a, b) && Reachable(c, s) && l <= a && AtWalk(c, s, m, a, l, flag)
    ensures Reachable(c, s') && AtWalk(c, s', m, a, a, flag)
    decreases a - l
  {
    hide Races, AtWalk, Reachable;
    s' := s;
    if l < a {
      s' := Round(c, s, m, a, b, l, flag);
      s' := Walks(c, s', m, a, b, l + 1, flag);
    }
  }

  /** Nothing at or above a has been started. */
  ghost predicate Fresh(c: Config, s: State, a: nat, flag: bool) {
    && Around(c, s, a, 0, flag) && (forall x :: 0 <= x <= a ==> s.phases[x].Idle?) && s.stacks[a] == []
  }

  /** Goroutine a is inside its own function. */
  ghost predicate AtOwn(c: Config, s: State, a: nat, flag: bool, p: Phase) {
    && Around(c, s, a, 0, flag) && (forall x :: 0 <= x < a ==> s.phases[x].Idle?)
    && s.stacks[a] == [a] && s.phases[a] == p
  }

  lemma SetsOut(c: Config, s: State, m: nat, a: nat, b: nat, flag: bool) returns (s': State)
    requires Races(c, m, a, b) && Reachable(c, s) && Fresh(c, s, a, flag)
    ensures Reachable(c, s') && AtOwn(c, s', a, flag, Claimed)
  {
    hide Reachable, Races, Absorb;
    OneMore(c, s, a);
    s' := Step(c, s, a);
    assert [] + [a] == [a];
  }

  lemma StartsOwn(c: Config, s: State, m: nat, a: nat, b: nat, flag: bool) returns (s': State)
    requires Races(c, m, a, b) && Reachable(c, s) && AtOwn(c, s, a, flag, Claimed)
    ensures Reachable(c, s') && AtOwn(c, s', a, flag, Loading([]))
  {
    hide Reachable, Absorb;
    OneMore(c, s, a);
    s' := Step(c, s, a);
  }

  lemma Asks(c: Config, s: State, m: nat, a: nat, b: nat, flag: bool) returns (s': State)
    requires Races(c, m, a, b) && Reachable(c, s) && AtOwn(c, s, a, flag, Loading([]))
    ensures Reachable(c, s') && AtWalk(c, s', m, a, 0, flag)
  {
    hide Reachable, Absorb;
    OneMore(c, s, a);
    s' := Step(c, s, a);
  }

  lemma Copies(c: Config, s: State, m: nat, a: nat, b: nat, flag: bool) returns (s': State)
    requires Races(c, m, a, b) && Reachable(c, s) && AtWalk(c, s, m, a, a, flag)
    ensures Reachable(c, s') && Shaped(c, s') && s'.phases[a] == Leaving(Value(Fields(MergedAt(m, a, flag))))
  {
    hide Reachable;
    OneMore(c, s, a);
    s' := Step(c, s, a);
    assert [] + [Merged(MergedAt(m, a, flag))] == [Merged(MergedAt(m, a, flag))];
    assert Shaped(c, s') && s'.phases[a] == Loading([Merged(MergedAt(m, a, flag))]) && s'.stacks[a] == [a];
    OneMore(c, s', a);
    s' := Step(c, s', a);
  }

  /** Goroutine b is inside its own function, and nothing else has moved. */
  ghost predicate AtFailing(c: Config, s: State, a: nat, b: nat, p: Phase) {
    && a < b && Fresh(c, s, a, false) && b < |c.branch|
    && s.nodes[b].None? && s.stacks[b] == [b] && s.phases[b] == p
  }

  lemma Begins(c: Config, m: nat, a: nat, b: nat) returns (s: State)
    requires Races(c, m, a, b)
    ensures Reachable(c, s) && Fresh(c, s, a, false)
    ensures s.nodes[b].None? && s.stacks[b] == [] && s.phases[b].Idle?
  {
    hide Reachable;
    StartReachable(c);
    s := Initial(c);
  }

  lemma FailureSetsOut(c: Config, m: nat, a: nat, b: nat) returns (s: State)
    requires Races(c, m, a, b)
    ensures Reachable(c, s) && AtFailing(c, s, a, b, Claimed)
  {
    hide Reachable;
    s := Begins(c, m, a, b);
    OneMore(c, s, b);
    s := Step(c, s, b);
    assert [] + [b] == [b];
  }

  lemma FailureStarts(c: Config, m: nat, a: nat, b: nat) returns (s: State)
    requires Races(c, m, a, b)
    ensures Reachable(c, s) && AtFailing(c, s, a, b, Loading([]))
  {
    hide Reachable;
    s := FailureSetsOut(c, m, a, b);
    OneMore(c, s, b);
    s := Step(c, s, b);
  }

  /** The load at b fails before anything else has moved. */
  lemma FailsFirst(c: Config, m: nat, a: nat, b: nat) returns (s: State)
    requires Races(c, m, a, b)
    ensures Reachable(c, s) && Fresh(c, s, a, true)
  {
    hide Reachable;
    s := FailureStarts(c, m, a, b);
    OneMore(c, s, b);
    s := Step(c, s, b);
  }

  /** A run in which goroutine a does its work before or after the load at b fails, carried on to the end. */
  lemma RunsToTheEnd(c: Config, m: nat, a: nat, b: nat, flag: bool) returns (end: State)
    requires Races(c, m, a, b)
    ensures Reachable(c, end) && Shaped(c, end) && Finished(c, end)
    ensures end.nodes[a] == Some(Value(Fields(if flag then map[] else USER)))
  {
    hide Reachable, Fresh, AtWalk, AtOwn;
    var s;
    if flag {
      s := FailsFirst(c, m, a, b);
    } else {
      s := Begins(c, m, a, b);
    }
    s := SetsOut(c, s, m, a, b, flag);
    s := StartsOwn(c, s, m, a, b, flag);
    s := Asks(c, s, m, a, b, flag);
    s := Walks(c, s, m, a, b, 0, flag);
    s := Copies(c, s, m, a, b, flag);
    ReachableInv(c, s);
    end := Finishes(c, s, a, Value(Fields(MergedAt(m, a, flag))));
  }

  // ---------------------------------------------------------------- exactly when

  /** Every finished run holds what sequential evaluation gives in the asked slots, and "skip" in the others. */
  ghost predicate Agrees(c: Config)
    requires ValidConfig(c)
  {
    forall s :: Reachable(c, s) && Shaped(c, s) && Finished(c, s) ==>
      forall i :: 0 <= i < |c.branch| ==> s.nodes[i] == Some(if c.asked[i] then Sequential(c, |c.branch|)[i] else Skip)
  }

  ghost predicate HasMask(c: Config, present: seq<bool>, asked: seq<bool>) {
    ValidConfig(c) && Presence(c) == present && c.asked == asked
  }

  lemma SafeMaskAgrees(c: Config)
    requires ValidConfig(c) && Steady(c)
    ensures Agrees(c)
  {
    forall s | Reachable(c, s) && Shaped(c, s) && Finished(c, s)
      ensures forall i :: 0 <= i < |c.branch| ==>
        s.nodes[i] == Some(if c.asked[i] then Sequential(c, |c.branch|)[i] else Skip)
    {
      var schedule: seq<nat> :| Admits(c, Initial(c), schedule) && Run(c, Initial(c), schedule) == s;
      EveryInterleavingAgrees(c, schedule);
    }
  }

  /** Two finished runs return different nodes. */
  ghost predicate Depends(c: Config)
    requires ValidConfig(c)
  {
    exists s, s' ::
      && Reachable(c, s) && Shaped(c, s) && Finished(c, s)
      && Reachable(c, s') && Shaped(c, s') && Finished(c, s')
      && s.nodes != s'.nodes
  }

  /**
   Under an unsafe mask the nodes returned can depend on the schedule: the load nobody asked for is
   merged into the copying one when that runs before the failure, and skipped when it runs after it.
   */
  lemma PartialMaskCanRace(present: seq<bool>, asked: seq<bool>)
    requires |present| == |asked| && !SafeMask(present, asked)
    ensures exists c :: HasMask(c, present, asked) && Depends(c) && !Agrees(c)
  {
    var m, a, b :| 0 <= m < a < b < |asked| && present[m] && !asked[m] && present[a] && asked[a] && present[b] &&
      asked[b];
    RacingRaces(present, asked, m, a, b);
    var c := Racing(present, asked, m, a, b);
    hide Reachable, Shaped, Finished, Racing, Sequential, Inv;
    var s := RunsToTheEnd(c, m, a, b, false);
    var s' := RunsToTheEnd(c, m, a, b, true);
    assert "user" in USER;
    assert s.nodes[a] != s'.nodes[a];
    assert HasMask(c, present, asked) && Depends(c) && !Agrees(c);
  }

  /**
   The exact condition on the mask: every finished run of every branch with these slots agrees with
   sequential evaluation if and only if no load that was not asked for has two asked ones below it.
   */
  lemma SafeMaskIsExact(present: seq<bool>, asked: seq<bool>)
    requires |present| == |asked|
    ensures SafeMask(present, asked) <==> forall c :: HasMask(c, present, asked) ==> Agrees(c)
  {
    if SafeMask(present, asked) {
      forall c | HasMask(c, present, asked) ensures Agrees(c) {
        SafeMaskAgrees(c);
      }
    } else {
      PartialMaskCanRace(present, asked);
    }
  }

  /** Where all runs agree, none depends on its schedule. */
  lemma AgreementIsIndependence(c: Config)
    requires ValidConfig(c) && Agrees(c)
    ensures !Depends(c)
  {
    forall s, s' | Reachable(c, s) && Shaped(c, s) && Finished(c, s) && Reachable(c, s') && Shaped(c, s') &&
    Finished(c, s')
      ensures s.nodes == s'.nodes
    {
      assert forall i :: 0 <= i < |c.branch| ==> s.nodes[i] == s'.nodes[i];
    }
  }
}
