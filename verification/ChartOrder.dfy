/** The order in which the tree lists a coded chart: its dotted codes sorted as strings,
    against the numbers the coder gave out. */
module ChartOrder {
  import opened Money
  import opened Chart
  import opened ChartTree
  import opened Numbering

  /** format_full_code: the segments of a position, dotted apart. */
  function Dotted(path: seq<nat>): string {
    if |path| == 0 then ""
    else if |path| == 1 then Decimal(path[0])
    else Dotted(path[..|path| - 1]) + "." + Decimal(path[|path| - 1])
  }

  /** The code column of a chart: every packed code as it is displayed. */
  function Codes(chart: seq<Account>): (codes: seq<string>)
    ensures |codes| == |chart|
  {
    seq(|chart|, a requires 0 <= a < |chart| => Dotted(Unpack(chart[a].fullCode, chart[a].level)))
  }

  /** What every child of p has in front of its own number. */
  ghost function Lead(chart: seq<Account>, p: Option<nat>): string
    requires Coded(chart) && (p.Some? ==> p.value < |chart|)
  {
    if p.Some? then Dotted(PathOf(chart, p.value)) + "." else ""
  }

  lemma CodeOfChild(chart: seq<Account>, a: nat)
    requires Coded(chart) && a < |chart|
    ensures chart[a].parent.Some? ==> chart[a].parent.value < |chart|
    ensures CodeOf(Codes(chart), a) == Lead(chart, chart[a].parent) + Decimal(chart[a].segment)
  {
    assert Placed(chart, a);
    CodeIsPosition(chart, a);
    var path := PathOf(chart, a);
    if chart[a].parent.Some? {
      var front := PathOf(chart, chart[a].parent.value);
      Located(chart, chart[a].parent.value);
      assert path == front + [chart[a].segment] && path[..|path| - 1] == front;
    } else {
      assert "" + Decimal(chart[a].segment) == Decimal(chart[a].segment);
    }
  }

  /** Siblings compare as the numerals of their own numbers do. */
  lemma SiblingsCompare(chart: seq<Account>, a: nat, b: nat)
    requires Coded(chart) && a < |chart| && b < |chart| && chart[a].parent == chart[b].parent
    ensures LexLess(CodeOf(Codes(chart), a), CodeOf(Codes(chart), b))
            <==> LexLess(Decimal(chart[a].segment), Decimal(chart[b].segment))
  {
    CodeOfChild(chart, a);
    CodeOfChild(chart, b);
    LexCommonPrefix(Lead(chart, chart[a].parent), Decimal(chart[a].segment), Decimal(chart[b].segment));
  }

  lemma SingleDigits(m: nat, n: nat)
    requires m < 10 && n < 10
    ensures LexLess(Decimal(m), Decimal(n)) <==> m < n
  {
    assert Decimal(m)[1..] == "" && Decimal(n)[1..] == "";
  }

  lemma TenBeforeTwo()
    ensures LexLess(Decimal(10), Decimal(2))
  {
    assert Decimal(10) == [Digit(1)] + [Digit(0)];
    assert Decimal(2) == [Digit(2)];
  }

  /** The children of p are listed in the order of their numbers. */
  ghost predicate ListedByNumber(chart: seq<Account>, p: Option<nat>) {
    var ids := Children(ParentColumn(chart), Codes(chart), p);
    forall i, j :: 0 <= i < j < |ids| ==> chart[ids[i]].segment < chart[ids[j]].segment
  }

  lemma {:induction false} DistinctWhenOnce(ids: seq<nat>, i: nat, j: nat)
    requires i < j < |ids| && forall a: nat :: Occurs(ids, a) <= 1
    ensures ids[i] != ids[j]
  {
    if i > 0 {
      forall a: nat ensures Occurs(ids[1..], a) <= 1 {
        assert Occurs(ids, a) <= 1;
      }
      DistinctWhenOnce(ids[1..], i - 1, j - 1);
    } else {
      OccursIsMembership(ids[1..], ids[j]);
      assert ids[1..][j - 1] == ids[j];
      assert Occurs(ids, ids[j]) <= 1;
    }
  }

  lemma UpToNineAreListedByNumber(chart: seq<Account>, p: Option<nat>)
    requires Coded(chart) && MaxSibling(chart, p) <= 9
    ensures ListedByNumber(chart, p)
  {
    var parents, codes := ParentColumn(chart), Codes(chart);
    var ids := Children(parents, codes, p);
    ChildrenInCodeOrder(parents, codes, p);
    forall i, j | 0 <= i < j < |ids| ensures chart[ids[i]].segment < chart[ids[j]].segment {
      DistinctWhenOnce(ids, i, j);
      assert chart[ids[i]].parent == p && chart[ids[j]].parent == p;
      SiblingsCompare(chart, ids[j], ids[i]);
      SingleDigits(chart[ids[j]].segment, chart[ids[i]].segment);
      assert chart[ids[i]].segment != chart[ids[j]].segment;
    }
  }

  /** Every number up to the largest was given to somebody. */
  lemma {:induction false} NumberIsHeld(chart: seq<Account>, p: Option<nat>, k: nat)
    requires k < |Segments(chart, p)|
    ensures exists a :: 0 <= a < |chart| && chart[a].parent == p && chart[a].segment == Segments(chart, p)[k]
  {
    var front, last := chart[..|chart| - 1], chart[|chart| - 1];
    if k < |Segments(front, p)| {
      NumberIsHeld(front, p, k);
      var a :| 0 <= a < |front| && front[a].parent == p && front[a].segment == Segments(front, p)[k];
      assert chart[a] == front[a];
    } else {
      assert chart[|chart| - 1].parent == p;
    }
  }

  lemma SomebodyHolds(requests: seq<Option<nat>>, p: Option<nat>, n: nat)
    requires 1 <= n <= MaxSibling(Run(requests), p)
    ensures exists a :: 0 <= a < |Run(requests)| && Run(requests)[a].parent == p && Run(requests)[a].segment == n
  {
    SiblingsRunFromOne(requests, p);
    NumberIsHeld(Run(requests), p, n - 1);
  }

  lemma PlaceOf(parents: seq<Option<nat>>, codes: seq<string>, p: Option<nat>, a: nat) returns (i: nat)
    requires a < |parents| && parents[a] == p
    ensures i < |Children(parents, codes, p)| && Children(parents, codes, p)[i] == a
  {
    ChildrenInCodeOrder(parents, codes, p);
    OccursIsMembership(Children(parents, codes, p), a);
    i :| 0 <= i < |Children(parents, codes, p)| && Children(parents, codes, p)[i] == a;
  }

  lemma TenIsListedBeforeTwo(chart: seq<Account>, p: Option<nat>, two: nat, ten: nat)
    requires Coded(chart) && two < |chart| && ten < |chart| && chart[two].parent == p && chart[ten].parent == p
    requires chart[two].segment == 2 && chart[ten].segment == 10
    ensures !ListedByNumber(chart, p)
  {
    var i := PlaceOf(ParentColumn(chart), Codes(chart), p, two);
    var j := PlaceOf(ParentColumn(chart), Codes(chart), p, ten);
    ChildrenInCodeOrder(ParentColumn(chart), Codes(chart), p);
    SiblingsCompare(chart, ten, two);
    TenBeforeTwo();
    assert j < i;
  }

  lemma TenAreNotListedByNumber(requests: seq<Option<nat>>, p: Option<nat>)
    requires MaxSibling(Run(requests), p) >= 10
    ensures !ListedByNumber(Run(requests), p)
  {
    RunIsCoded(requests);
    SomebodyHolds(requests, p, 2);
    SomebodyHolds(requests, p, 10);
    var chart := Run(requests);
    var two :| 0 <= two < |chart| && chart[two].parent == p && chart[two].segment == 2;
    var ten :| 0 <= ten < |chart| && chart[ten].parent == p && chart[ten].segment == 10;
    TenIsListedBeforeTwo(chart, p, two, ten);
  }

  /** The tree lists a parent's children in the order of their numbers exactly while there
      are at most nine of them: the tenth sorts before the second. */
  lemma ListedByNumberIff(requests: seq<Option<nat>>, p: Option<nat>)
    ensures ListedByNumber(Run(requests), p) <==> MaxSibling(Run(requests), p) <= 9
  {
    RunIsCoded(requests);
    if MaxSibling(Run(requests), p) <= 9 {
      UpToNineAreListedByNumber(Run(requests), p);
    } else {
      TenAreNotListedByNumber(requests, p);
    }
  }
}
