/** A run of allocations on which the unique constraint refuses an account although its
    parent has numbers left. */
module ChartCollision {
  import opened Money
  import opened Chart

  /** n accounts asked for under one parent. */
  function Grown(chart: seq<Account>, parent: Option<nat>, n: nat): seq<Account> {
    if n == 0 then chart else Allocate(Grown(chart, parent, n - 1), parent).0
  }

  function Asked(parent: Option<nat>, n: nat): (requests: seq<Option<nat>>)
    ensures |requests| == n
  {
    if n == 0 then [] else Asked(parent, n - 1) + [parent]
  }

  lemma RunOneMore(requests: seq<Option<nat>>, parent: Option<nat>)
    ensures Run(requests + [parent]) == Allocate(Run(requests), parent).0
  {
    assert (requests + [parent])[..|requests|] == requests;
  }

  lemma GrowsOneMore(chart: seq<Account>, parent: Option<nat>, n: nat, before: seq<Account>, after: seq<Account>)
    requires Grown(chart, parent, n) == before && Allocate(before, parent).0 == after
    ensures Grown(chart, parent, n + 1) == after
  {}

  lemma BothGrow(requests: seq<Option<nat>>, parent: Option<nat>, n: nat, chart: seq<Account>)
    requires Run(requests + Asked(parent, n)) == Grown(chart, parent, n)
    ensures Run(requests + Asked(parent, n + 1)) == Grown(chart, parent, n + 1)
  {
    var front := requests + Asked(parent, n);
    RunOneMore(front, parent);
    assert requests + Asked(parent, n + 1) == front + [parent];
    GrowsOneMore(chart, parent, n, Run(front), Run(front + [parent]));
  }

  lemma {:induction false} RunGrows(requests: seq<Option<nat>>, parent: Option<nat>, n: nat)
    ensures Run(requests + Asked(parent, n)) == Grown(Run(requests), parent, n)
  {
    if n == 0 {
      assert requests + [] == requests;
    } else {
      RunGrows(requests, parent, n - 1);
      BothGrow(requests, parent, n - 1, Run(requests));
    }
  }

  /** Accounts numbered 1 to n under one parent, their codes following base. */
  function Block(parent: Option<nat>, level: nat, base: nat, n: nat): (accounts: seq<Account>)
    ensures |accounts| == n
    ensures forall k :: 0 <= k < n ==> accounts[k] == Account(parent, level, k + 1, base + k + 1, level == MAX_LEVEL)
  {
    seq(n, k requires 0 <= k < n => Account(parent, level, k + 1, base + k + 1, level == MAX_LEVEL))
  }

  predicate Childless(chart: seq<Account>, parent: Option<nat>) {
    forall a :: 0 <= a < |chart| ==> chart[a].parent != parent
  }

  /** No code of the chart lies in base + 1 .. base + n. */
  predicate Clear(chart: seq<Account>, base: nat, n: nat) {
    forall a :: 0 <= a < |chart| ==> chart[a].fullCode <= base || chart[a].fullCode > base + n
  }

  lemma {:induction false} LargestOfBlock(chart: seq<Account>, parent: Option<nat>, level: nat, base: nat, n: nat)
    requires Childless(chart, parent)
    ensures MaxSibling(chart + Block(parent, level, base, n), parent) == n
  {
    var all := chart + Block(parent, level, base, n);
    if n > 0 {
      LargestOfBlock(chart, parent, level, base, n - 1);
      assert all[..|all| - 1] == chart + Block(parent, level, base, n - 1);
    } else {
      assert all == chart;
      NoneIsZero(chart, parent);
    }
  }

  lemma {:induction false} NoneIsZero(chart: seq<Account>, parent: Option<nat>)
    requires Childless(chart, parent)
    ensures MaxSibling(chart, parent) == 0
  {
    if |chart| > 0 {
      NoneIsZero(chart[..|chart| - 1], parent);
    }
  }

  predicate CanHold(chart: seq<Account>, parent: Option<nat>, level: nat, base: nat) {
    && (parent.Some? ==> parent.value < |chart| && level == chart[parent.value].level + 1
                         && base == Append(chart[parent.value].fullCode, level, 0))
    && (parent.None? ==> level == 1 && base == 0)
    && 1 <= level <= MAX_LEVEL
  }

  lemma AppendAdds(front: nat, level: nat, segment: nat)
    ensures Append(front, level, segment) == Append(front, level, 0) + segment
  {}

  /** What asking for the next account under a parent with n of them comes to. */
  lemma NextInBlock(chart: seq<Account>, parent: Option<nat>, level: nat, base: nat, n: nat)
    requires Childless(chart, parent) && CanHold(chart, parent, level, base) && n + 1 < Slot(level)
    ensures var all := chart + Block(parent, level, base, n);
            Allocate(all, parent)
            == if exists a :: 0 <= a < |all| && all[a].fullCode == base + n + 1 then (all, Refused(CodeTaken))
               else (all + [Account(parent, level, n + 1, base + n + 1, level == MAX_LEVEL)], Created(|all|))
  {
    var all := chart + Block(parent, level, base, n);
    LargestOfBlock(chart, parent, level, base, n);
    if parent.Some? {
      assert all[parent.value] == chart[parent.value];
      AppendAdds(chart[parent.value].fullCode, level, n + 1);
    }
  }

  lemma NextIsClear(chart: seq<Account>, parent: Option<nat>, level: nat, base: nat, n: nat)
    requires Clear(chart, base, n + 1)
    ensures var all := chart + Block(parent, level, base, n);
            !exists a :: 0 <= a < |all| && all[a].fullCode == base + n + 1
  {}

  lemma BlockOneMore(parent: Option<nat>, level: nat, base: nat, n: nat)
    ensures Block(parent, level, base, n + 1)
         == Block(parent, level, base, n) + [Account(parent, level, n + 1, base + n + 1, level == MAX_LEVEL)]
  {}

  lemma BlockGrows(chart: seq<Account>, parent: Option<nat>, level: nat, base: nat, n: nat)
    requires Childless(chart, parent) && CanHold(chart, parent, level, base)
    requires n + 1 < Slot(level) && Clear(chart, base, n + 1)
    requires Grown(chart, parent, n) == chart + Block(parent, level, base, n)
    ensures Grown(chart, parent, n + 1) == chart + Block(parent, level, base, n + 1)
  {
    var before, after := chart + Block(parent, level, base, n), chart + Block(parent, level, base, n + 1);
    NextInBlock(chart, parent, level, base, n);
    NextIsClear(chart, parent, level, base, n);
    BlockOneMore(parent, level, base, n);
    assert after == before + [Account(parent, level, n + 1, base + n + 1, level == MAX_LEVEL)];
    GrowsOneMore(chart, parent, n, before, after);
  }

  /** n accounts fit under the childless parent without meeting a code. */
  predicate Fits(chart: seq<Account>, parent: Option<nat>, level: nat, base: nat, n: nat) {
    Childless(chart, parent) && CanHold(chart, parent, level, base) && n < Slot(level) && Clear(chart, base, n)
  }

  lemma FewerFit(chart: seq<Account>, parent: Option<nat>, level: nat, base: nat, n: nat)
    requires Fits(chart, parent, level, base, n + 1)
    ensures Fits(chart, parent, level, base, n)
  {}

  lemma {:induction false} GrownIsBlock(chart: seq<Account>, parent: Option<nat>, level: nat, base: nat, n: nat)
    requires Fits(chart, parent, level, base, n)
    ensures Grown(chart, parent, n) == chart + Block(parent, level, base, n)
  {
    if n == 0 {
      assert chart + [] == chart;
    } else {
      FewerFit(chart, parent, level, base, n - 1);
      GrownIsBlock(chart, parent, level, base, n - 1);
      BlockGrows(chart, parent, level, base, n - 1);
    }
  }

  // ----- the run: 100 roots, one branch down to level 4, and 100 accounts twice over -----

  const ROOTS: seq<Account> := Block(None, 1, 0, 100)
  const BRANCH: seq<Account> := [Account(Some(0), 2, 1, 10_001, false), Account(Some(100), 3, 1, 10_001_001, false),
                                 Account(Some(101), 4, 1, 1_000_100_101, false)]
  const SECOND: seq<Account> := Block(Some(99), 2, 1_000_000, 100)
  const THIRD: seq<Account> := Block(Some(202), 3, 1_000_100_000, 100)

  const REQUESTS: seq<Option<nat>> := Asked(None, 100) + Asked(Some(0), 1) + Asked(Some(100), 1) + Asked(Some(101), 1)
                                      + Asked(Some(99), 100) + Asked(Some(202), 100)

  lemma RootsGrow()
    ensures Run(Asked(None, 100)) == ROOTS
  {
    RunGrows([], None, 100);
    assert [] + Asked(None, 100) == Asked(None, 100);
    GrownIsBlock([], None, 1, 0, 100);
    assert [] + ROOTS == ROOTS;
  }

  const ONE: seq<Account> := ROOTS + [BRANCH[0]]
  const TWO: seq<Account> := ROOTS + [BRANCH[0]] + [BRANCH[1]]

  lemma FirstBranch()
    ensures Grown(ROOTS, Some(0), 1) == ONE
  {
    GrownIsBlock(ROOTS, Some(0), 2, 10_000, 1);
    assert Block(Some(0), 2, 10_000, 1) == [BRANCH[0]];
  }

  lemma SecondBranch()
    ensures Grown(ONE, Some(100), 1) == TWO
  {
    assert ONE[100] == BRANCH[0] && forall a :: 0 <= a < 100 ==> ONE[a] == ROOTS[a];
    GrownIsBlock(ONE, Some(100), 3, 10_001_000, 1);
    assert Block(Some(100), 3, 10_001_000, 1) == [BRANCH[1]];
  }

  lemma ThirdBranch()
    ensures Grown(TWO, Some(101), 1) == ROOTS + BRANCH
  {
    assert TWO[101] == BRANCH[1] && TWO[100] == BRANCH[0] && forall a :: 0 <= a < 100 ==> TWO[a] == ROOTS[a];
    GrownIsBlock(TWO, Some(101), 4, 1_000_100_100, 1);
    assert Block(Some(101), 4, 1_000_100_100, 1) == [BRANCH[2]];
    assert TWO + [BRANCH[2]] == ROOTS + BRANCH;
  }

  lemma BranchGrows()
    ensures Run(Asked(None, 100) + Asked(Some(0), 1) + Asked(Some(100), 1) + Asked(Some(101), 1)) == ROOTS + BRANCH
  {
    RootsGrow();
    RunGrows(Asked(None, 100), Some(0), 1);
    FirstBranch();
    RunGrows(Asked(None, 100) + Asked(Some(0), 1), Some(100), 1);
    SecondBranch();
    RunGrows(Asked(None, 100) + Asked(Some(0), 1) + Asked(Some(100), 1), Some(101), 1);
    ThirdBranch();
  }

  lemma SecondFits()
    ensures Fits(ROOTS + BRANCH, Some(99), 2, 1_000_000, 100)
  {
    var chart := ROOTS + BRANCH;
    assert forall a :: 0 <= a < 100 ==> chart[a] == ROOTS[a];
    assert forall a :: 100 <= a < 103 ==> chart[a] == BRANCH[a - 100];
  }

  lemma SecondGrows()
    ensures Run(Asked(None, 100) + Asked(Some(0), 1) + Asked(Some(100), 1) + Asked(Some(101), 1) + Asked(Some(99), 100))
         == ROOTS + BRANCH + SECOND
  {
    BranchGrows();
    SecondFits();
    RunGrows(Asked(None, 100) + Asked(Some(0), 1) + Asked(Some(100), 1) + Asked(Some(101), 1), Some(99), 100);
    GrownIsBlock(ROOTS + BRANCH, Some(99), 2, 1_000_000, 100);
  }

  lemma ThirdIsClear()
    ensures var chart := ROOTS + BRANCH + SECOND;
            && Childless(chart, Some(202)) && CanHold(chart, Some(202), 3, 1_000_100_000)
            && Clear(chart, 1_000_100_000, 100)
            && chart[102].fullCode == 1_000_100_101
  {
    var chart := ROOTS + BRANCH + SECOND;
    assert forall a :: 0 <= a < 100 ==> chart[a] == ROOTS[a];
    assert forall a :: 100 <= a < 103 ==> chart[a] == BRANCH[a - 100];
    assert forall a :: 103 <= a < 203 ==> chart[a] == SECOND[a - 103];
    assert chart[102] == BRANCH[2] && chart[202] == SECOND[99];
  }

  /** The run, and the request it ends with: account 101 under 100.100 would carry the code
      of 1.1.1.1 and is refused. */
  lemma CollisionIsReached()
    ensures Run(REQUESTS) == ROOTS + BRANCH + SECOND + THIRD
    ensures Allocate(Run(REQUESTS), Some(202)).1 == Refused(CodeTaken)
    ensures MaxSibling(Run(REQUESTS), Some(202)) == 100
  {
    var chart := ROOTS + BRANCH + SECOND;
    SecondGrows();
    ThirdIsClear();
    RunGrows(Asked(None, 100) + Asked(Some(0), 1) + Asked(Some(100), 1) + Asked(Some(101), 1) + Asked(Some(99), 100),
             Some(202), 100);
    GrownIsBlock(chart, Some(202), 3, 1_000_100_000, 100);
    NextInBlock(chart, Some(202), 3, 1_000_100_000, 100);
    LargestOfBlock(chart, Some(202), 3, 1_000_100_000, 100);
    assert (chart + THIRD)[102] == chart[102];
  }
}
