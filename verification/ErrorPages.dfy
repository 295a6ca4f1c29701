/**
 Which +error page stands in for a failing node (document.go): one walk up a branch from the
 failure, and one chain of guards worked out beforehand, that have to pick the same page.
 */
module ErrorPages {
  import opened Wrappers

  /** An error page that may answer: its node, and how far down the branch it attaches. */
  datatype ErrorPage = ErrorPage(node: int, idx: nat)

  /** A slot declares an error page; errors may be shorter than the branch. */
  predicate Declared(errors: seq<int>, j: int) {
    0 <= j < |errors| && errors[j] >= 0
  }

  // ---------------------------------------------------------------- the walk from a failure

  /** The nearest slot above i that declares a page. */
  function NearestAbove(errors: seq<int>, i: nat): (r: Option<nat>)
    ensures r.Some? ==> r.value < i && Declared(errors, r.value) && forall j :: r.value < j < i ==> !Declared(errors, j)
    ensures r.None? ==> forall j :: 0 <= j < i ==> !Declared(errors, j)
  {
    if i == 0 then None
    else if Declared(errors, i - 1) then Some(i - 1)
    else NearestAbove(errors, i - 1)
  }

  /** The nearest filled slot at or above j, or the first slot. */
  function Rewound(filled: seq<bool>, j: nat): (r: nat)
    requires j < |filled|
    ensures r <= j && (r == 0 || filled[r]) && forall k :: r < k <= j ==> !filled[k]
  {
    if j > 0 && !filled[j] then Rewound(filled, j - 1) else j
  }

  /** The pages declared above i, nearest first, each attached at the layout it belongs to. */
  function Pages(i: nat, filled: seq<bool>, errors: seq<int>): seq<ErrorPage>
    requires i <= |filled|
  {
    match NearestAbove(errors, i)
    case None => []
    case Some(j) => [ErrorPage(errors[j], Rewound(filled, j) + 1)] + Pages(j, filled, errors)
  }

  lemma PagesStep(n: nat, filled: seq<bool>, errors: seq<int>, out: seq<ErrorPage>)
    requires n < |filled|
    ensures !Declared(errors, n) ==> Pages(n + 1, filled, errors) == Pages(n, filled, errors)
    ensures Declared(errors, n) ==>
      out + Pages(n + 1, filled, errors) ==
      out + [ErrorPage(errors[n], Rewound(filled, n) + 1)] + Pages(n, filled, errors)
  {
    if Declared(errors, n) {
      var page := ErrorPage(errors[n], Rewound(filled, n) + 1);
      assert Pages(n + 1, filled, errors) == [page] + Pages(n, filled, errors);
      assert out + ([page] + Pages(n, filled, errors)) == out + [page] + Pages(n, filled, errors);
    }
  }

  /** The inner loop of nearestErrorPages: up past the empty slots. */
  method Rewind(filled: seq<bool>, n: nat) returns (j: nat)
    requires n < |filled|
    ensures j == Rewound(filled, n)
  {
    j := n;
    while j > 0 && !filled[j]
      invariant j <= n
      invariant Rewound(filled, n) == Rewound(filled, j)
    {
      j := j - 1;
    }
  }

  method NearestErrorPages(i: nat, filled: seq<bool>, errors: seq<int>) returns (out: seq<ErrorPage>)
    requires i <= |filled|
    ensures out == Pages(i, filled, errors)
  {
    out := [];
    var n: nat := i;
    assert [] + Pages(i, filled, errors) == Pages(i, filled, errors);
    assert Pages(0, filled, errors) == [];
    hide Pages, Rewound;
    while n > 0
      invariant n <= |filled|
      invariant Pages(i, filled, errors) == out + Pages(n, filled, errors)
    {
      n := n - 1;
      PagesStep(n, filled, errors, out);
      if n >= |errors| || errors[n] < 0 {
        continue;
      }
      var j := Rewind(filled, n);
      out := out + [ErrorPage(errors[n], j + 1)];
    }
    assert out + [] == out;
  }

  // ---------------------------------------------------------------- the chain of guards

  /** The inner loop of buildErrorChain: down from j to a declared page, or to the slot after last. */
  function Seek(errors: seq<int>, j: int, last: int): (r: int)
    requires last < j
    ensures last < r <= j
    ensures Declared(errors, r) || r == last + 1
    ensures forall k :: r < k <= j ==> !Declared(errors, k)
    decreases j - last
  {
    if j > last + 1 && !Declared(errors, j) then Seek(errors, j - 1, last) else j
  }

  /** lastIdx once the slots before n have been given their guards. */
  function Last(filled: seq<bool>, errors: seq<int>, n: nat): (r: int)
    requires n <= |filled|
    ensures -1 <= r && (n > 0 ==> r < n - 1) && (n == 0 ==> r == -1)
  {
    if n <= 1 then -1
    else if !filled[n - 1] then Last(filled, errors, n - 1)
    else Seek(errors, n - 2, Last(filled, errors, n - 1))
  }

  /** The slot whose page guards slot i. */
  function Guard(filled: seq<bool>, errors: seq<int>, i: nat): Option<nat>
    requires 0 < i < |filled| && filled[i]
  {
    var j := Seek(errors, i - 1, Last(filled, errors, i));
    if Declared(errors, j) then Some(j) else None
  }

  /** The guards of the filled slots before n, the root layout first. */
  function Chain(filled: seq<bool>, errors: seq<int>, n: nat): (r: seq<Option<nat>>)
    requires n <= |filled|
    ensures |r| > 0
  {
    if n <= 1 then [None]
    else if filled[n - 1] then Chain(filled, errors, n - 1) + [Guard(filled, errors, n - 1)]
    else Chain(filled, errors, n - 1)
  }

  function NodeOf(errors: seq<int>, guard: Option<nat>): Option<int> {
    if guard.Some? && guard.value < |errors| then Some(errors[guard.value]) else None
  }

  function Nodes(errors: seq<int>, chain: seq<Option<nat>>): (r: seq<Option<int>>)
    ensures |r| == |chain| && forall k :: 0 <= k < |chain| ==> r[k] == NodeOf(errors, chain[k])
  {
    seq(|chain|, k requires 0 <= k < |chain| => NodeOf(errors, chain[k]))
  }

  method BuildErrorChain(filled: seq<bool>, errors: seq<int>) returns (chain: seq<Option<int>>)
    ensures chain == Nodes(errors, Chain(filled, errors, |filled|))
  {
    chain := [None];
    var lastIdx := -1;
    var i := 1;
    while i < |filled|
      invariant 1 <= i && (i <= |filled| || (|filled| == 0 && i == 1))
      invariant |filled| > 0 ==> lastIdx == Last(filled, errors, i)
      invariant |filled| > 0 ==> chain == Nodes(errors, Chain(filled, errors, i))
      invariant |filled| == 0 ==> chain == [None]
    {
      if filled[i] {
        var j := i - 1;
        while j > lastIdx + 1 && (j >= |errors| || errors[j] < 0)
          invariant lastIdx < j < i
          invariant Seek(errors, i - 1, lastIdx) == Seek(errors, j, lastIdx)
          decreases j - lastIdx
        {
          j := j - 1;
        }
        assert j == Seek(errors, i - 1, Last(filled, errors, i));
        lastIdx := j;
        var guard: Option<int> := None;
        if 0 <= j < |errors| && errors[j] >= 0 {
          guard := Some(errors[j]);
        }
        chain := chain + [guard];
      }
      i := i + 1;
    }
  }

  // ---------------------------------------------------------------- they agree

  /** The first guard met walking the chain outward from a position. */
  function Outward<T>(chain: seq<Option<T>>, k: nat): Option<T>
    requires k < |chain|
  {
    if chain[k].Some? || k == 0 then chain[k] else Outward(chain, k - 1)
  }

  /** How many slots in 1..i are filled: where slot i's guard is in the chain. */
  function Position(filled: seq<bool>, i: nat): nat
    requires i < |filled|
  {
    if i == 0 then 0 else Position(filled, i - 1) + if filled[i] then 1 else 0
  }

  lemma OutwardOfPrefix<T>(chain: seq<Option<T>>, more: seq<Option<T>>, k: nat)
    requires k < |chain|
    ensures Outward(chain + more, k) == Outward(chain, k)
  {
    if chain[k].None? && k > 0 {
      OutwardOfPrefix(chain, more, k - 1);
    }
  }

  lemma {:induction false} ChainGrows(filled: seq<bool>, errors: seq<int>, i: nat, n: nat)
    requires i < n <= |filled|
    ensures |Chain(filled, errors, i + 1)| == Position(filled, i) + 1
    ensures Chain(filled, errors, i + 1) <= Chain(filled, errors, n)
    decreases n
  {
    if i + 1 < n {
      ChainGrows(filled, errors, i, n - 1);
    } else if i > 0 {
      ChainGrows(filled, errors, i - 1, n - 1);
    }
  }

  /** Up to a slot, the chain's last guard is as near as any page declared above the last filled slot. */
  ghost predicate Agrees(filled: seq<bool>, errors: seq<int>, i: nat)
    requires i < |filled|
  {
    var chain := Chain(filled, errors, i + 1);
    && Outward(chain, |chain| - 1) == NearestAbove(errors, Rewound(filled, i))
    && Last(filled, errors, i + 1) < Rewound(filled, i)
    && forall k :: Last(filled, errors, i + 1) < k < Rewound(filled, i) ==> !Declared(errors, k)
  }

  lemma {:induction false} GuardsAgree(filled: seq<bool>, errors: seq<int>, i: nat)
    requires i < |filled|
    ensures Agrees(filled, errors, i)
  {
    if i > 0 {
      GuardsAgree(filled, errors, i - 1);
      if filled[i] {
        hide Agrees;
        NextGuardAgrees(filled, errors, i);
      }
    }
  }

  lemma NextGuardAgrees(filled: seq<bool>, errors: seq<int>, i: nat)
    requires 0 < i < |filled| && filled[i] && Agrees(filled, errors, i - 1)
    ensures Agrees(filled, errors, i)
  {
    var before, last := Chain(filled, errors, i), Last(filled, errors, i);
    var j := Seek(errors, i - 1, last);
    var guard := Guard(filled, errors, i);
    var prev := Rewound(filled, i - 1);
    assert Rewound(filled, i) == i && Last(filled, errors, i + 1) == j;
    assert Chain(filled, errors, i + 1) == before + [guard];
    hide Chain, Seek, Last, Rewound;
    if guard.None? {
      OutwardOfPrefix(before, [guard], |before| - 1);
      assert Outward(before + [guard], |before|) == Outward(before, |before| - 1);
      NearestSkips(errors, prev, i, last);
    } else {
      NearestIs(errors, i, j);
    }
  }

  lemma NearestIs(errors: seq<int>, i: nat, j: nat)
    requires j < i && Declared(errors, j) && forall k :: j < k < i ==> !Declared(errors, k)
    ensures NearestAbove(errors, i) == Some(j)
  {
  }

  lemma NearestSkips(errors: seq<int>, prev: nat, i: nat, last: int)
    requires last < prev <= i
    requires forall k :: last < k < i ==> !Declared(errors, k)
    ensures NearestAbove(errors, i) == NearestAbove(errors, prev)
  {
  }

  /**
   The two walks pick the same page. From any filled slot, the first page of the walk up and the
   nearest guard met walking the chain outward are the same node, or neither finds one.
   */
  lemma SamePage(filled: seq<bool>, errors: seq<int>, i: nat)
    requires i < |filled| && (filled[i] || i == 0)
    ensures Position(filled, i) < |Chain(filled, errors, |filled|)|
    ensures
      var guard := Outward(Nodes(errors, Chain(filled, errors, |filled|)), Position(filled, i));
      var pages := Pages(i, filled, errors);
      && (pages == [] <==> guard.None?)
      && (pages != [] ==> guard == Some(pages[0].node))
  {
    var chain := Chain(filled, errors, |filled|);
    var upTo := Chain(filled, errors, i + 1);
    ChainGrows(filled, errors, i, |filled|);
    GuardsAgree(filled, errors, i);
    assert chain == upTo + chain[|upTo|..];
    OutwardOfPrefix(upTo, chain[|upTo|..], |upTo| - 1);
    GuardsGoInward(filled, errors, |filled|);
    OutwardNodes(errors, chain, |upTo| - 1);
  }

  lemma {:induction false} OutwardNodes(errors: seq<int>, chain: seq<Option<nat>>, k: nat)
    requires k < |chain|
    requires forall m :: 0 <= m < |chain| && chain[m].Some? ==> Declared(errors, chain[m].value)
    ensures Outward(Nodes(errors, chain), k) == NodeOf(errors, Outward(chain, k))
  {
    if chain[k].None? && k > 0 {
      OutwardNodes(errors, chain, k - 1);
    }
  }

  /** Guards that are declared pages, none beyond a slot, each further in than those before it. */
  ghost predicate GoInward(errors: seq<int>, chain: seq<Option<nat>>, last: int) {
    && (forall k :: 0 <= k < |chain| && chain[k].Some? ==> Declared(errors, chain[k].value) && chain[k].value <= last)
    && (forall k, m :: 0 <= k < m < |chain| && chain[k].Some? && chain[m].Some? ==> chain[k].value < chain[m].value)
  }

  lemma GoInwardAppend(errors: seq<int>, chain: seq<Option<nat>>, last: int, guard: Option<nat>, next: int)
    requires GoInward(errors, chain, last) && last < next
    requires guard.Some? ==> guard.value == next && Declared(errors, next)
    ensures GoInward(errors, chain + [guard], next)
  {
  }

  /** Each guard is a declared page, and no page guards two slots: they go strictly inward. */
  lemma {:induction false} GuardsGoInward(filled: seq<bool>, errors: seq<int>, n: nat)
    requires n <= |filled|
    ensures GoInward(errors, Chain(filled, errors, n), Last(filled, errors, n))
  {
    if n > 1 {
      GuardsGoInward(filled, errors, n - 1);
      if filled[n - 1] {
        GoInwardAppend(errors, Chain(filled, errors, n - 1), Last(filled, errors, n - 1),
                       Guard(filled, errors, n - 1), Last(filled, errors, n));
      }
    }
  }

  /** The chain lines up with the compacted branch exactly when the root layout's slot is filled. */
  lemma ChainLinesUp(filled: seq<bool>, errors: seq<int>)
    requires |filled| > 0
    ensures |Chain(filled, errors, |filled|)| == Position(filled, |filled| - 1) + 1
    ensures |Chain(filled, errors, |filled|)| == Filled(filled, |filled|) <==> filled[0]
  {
    ChainGrows(filled, errors, |filled| - 1, |filled|);
    CountsFilled(filled, |filled| - 1);
  }

  /** The length of the branch with its empty slots removed. */
  function Filled(filled: seq<bool>, n: nat): nat
    requires n <= |filled|
  {
    if n == 0 then 0 else Filled(filled, n - 1) + if filled[n - 1] then 1 else 0
  }

  lemma {:induction false} CountsFilled(filled: seq<bool>, i: nat)
    requires i < |filled|
    ensures Filled(filled, i + 1) == Position(filled, i) + if filled[0] then 1 else 0
  {
    if i > 0 {
      CountsFilled(filled, i - 1);
    }
  }
}
