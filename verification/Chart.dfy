/** The five-level chart of accounts: server-allocated segments packed into one
    positional code. */
module Chart {
  import opened Money

  const MAX_LEVEL := 5

  datatype Account = Account(parent: Option<nat>, level: nat, segment: nat, fullCode: nat, postable: bool)
  datatype Refusal = NoSuchParent | TooDeep | NoNumbersLeft | CodeTaken
  datatype Allocation = Created(id: nat) | Refused(why: Refusal)

  /** 10^width of the level's own digits: widths 4, 4, 3, 2, 4. */
  function Slot(level: nat): (s: nat)
    ensures s >= 1
  {
    match level
    case 1 => 10_000
    case 2 => 10_000
    case 3 => 1_000
    case 4 => 100
    case 5 => 10_000
    case _ => 1
  }

  /** compute_full_code: a segment packed onto its parent's code. */
  function Append(front: nat, level: nat, segment: nat): nat {
    match level
    case 1 => front * 10_000 + segment
    case 2 => front * 10_000 + segment
    case 3 => front * 1_000 + segment
    case 4 => front * 100 + segment
    case 5 => front * 10_000 + segment
    case _ => front + segment
  }

  function MaxSibling(chart: seq<Account>, parent: Option<nat>): (m: nat)
    ensures forall a :: 0 <= a < |chart| && chart[a].parent == parent ==> chart[a].segment <= m
  {
    if |chart| == 0 then 0
    else
      var m := MaxSibling(chart[..|chart| - 1], parent);
      var last := chart[|chart| - 1];
      if last.parent == parent && last.segment > m then last.segment else m
  }

  /** allocate_account under an existing parent (or as a root), with the unique
      constraint on the packed code. */
  function Allocate(chart: seq<Account>, parent: Option<nat>): (r: (seq<Account>, Allocation))
    ensures r.1.Refused? ==> r.0 == chart
  {
    if parent.Some? && parent.value >= |chart| then (chart, Refused(NoSuchParent)) else
    var level := if parent.Some? then chart[parent.value].level + 1 else 1;
    if level > MAX_LEVEL then (chart, Refused(TooDeep)) else
    var segment := MaxSibling(chart, parent) + 1;
    if segment > Slot(level) - 1 then (chart, Refused(NoNumbersLeft)) else
    var full := Append(if parent.Some? then chart[parent.value].fullCode else 0, level, segment);
    if exists a :: 0 <= a < |chart| && chart[a].fullCode == full then (chart, Refused(CodeTaken)) else
    (chart + [Account(parent, level, segment, full, level == MAX_LEVEL)], Created(|chart|))
  }

  function Run(requests: seq<Option<nat>>): seq<Account> {
    if |requests| == 0 then [] else Allocate(Run(requests[..|requests| - 1]), requests[|requests| - 1]).0
  }

  // ----- the shape every run keeps -----

  predicate Placed(chart: seq<Account>, a: nat)
    requires a < |chart|
  {
    var x := chart[a];
    && 1 <= x.level <= MAX_LEVEL && 1 <= x.segment < Slot(x.level) && (x.postable <==> x.level == MAX_LEVEL)
    && (x.parent.None? ==> x.level == 1 && x.fullCode == x.segment)
    && (x.parent.Some? ==>
          && x.parent.value < a && x.level == chart[x.parent.value].level + 1
          && x.fullCode == Append(chart[x.parent.value].fullCode, x.level, x.segment))
  }

  /** A forest by construction, one level per step, leaves and only leaves postable,
      siblings with distinct segments. */
  ghost predicate Coded(chart: seq<Account>) {
    && (forall a :: 0 <= a < |chart| ==> Placed(chart, a))
    && (forall a, b :: 0 <= a < b < |chart| && chart[a].parent == chart[b].parent ==>
          chart[a].segment != chart[b].segment)
  }

  lemma AllocateKeepsCoded(chart: seq<Account>, parent: Option<nat>)
    requires Coded(chart)
    ensures Coded(Allocate(chart, parent).0)
  {
    var chart' := Allocate(chart, parent).0;
    forall a | 0 <= a < |chart'| ensures Placed(chart', a) {
      assert a < |chart| ==> Placed(chart, a);
      if parent.Some? && parent.value < |chart| {
        assert Placed(chart, parent.value);
      }
    }
  }

  lemma {:induction false} RunIsCoded(requests: seq<Option<nat>>)
    ensures Coded(Run(requests))
  {
    if |requests| > 0 {
      RunIsCoded(requests[..|requests| - 1]);
      AllocateKeepsCoded(Run(requests[..|requests| - 1]), requests[|requests| - 1]);
    }
  }

  /** The numbers given out under one parent, in the order they were given. */
  function Segments(chart: seq<Account>, parent: Option<nat>): seq<nat> {
    if |chart| == 0 then []
    else
      var last := chart[|chart| - 1];
      Segments(chart[..|chart| - 1], parent) + if last.parent == parent then [last.segment] else []
  }

  lemma AllocationAppends(chart: seq<Account>, parent: Option<nat>)
    ensures var chart' := Allocate(chart, parent).0;
            chart' == chart
            || (|chart'| == |chart| + 1 && chart'[..|chart|] == chart
                && chart'[|chart|].parent == parent && chart'[|chart|].segment == MaxSibling(chart, parent) + 1)
  {}

  ghost predicate Sequential(segments: seq<nat>, last: nat) {
    |segments| == last && forall k :: 0 <= k < |segments| ==> segments[k] == k + 1
  }

  /** Under every parent, and among the roots, the numbers run 1, 2, 3, ... */
  lemma {:induction false} SiblingsRunFromOne(requests: seq<Option<nat>>, parent: Option<nat>)
    ensures Sequential(Segments(Run(requests), parent), MaxSibling(Run(requests), parent))
  {
    if |requests| > 0 {
      var before, last := Run(requests[..|requests| - 1]), requests[|requests| - 1];
      SiblingsRunFromOne(requests[..|requests| - 1], parent);
      AllocationAppends(before, last);
      var after := Allocate(before, last).0;
      if |after| > |before| {
        NumberedNext(before, after, parent);
      }
    }
  }

  lemma NumberedNext(chart: seq<Account>, chart': seq<Account>, parent: Option<nat>)
    requires |chart'| == |chart| + 1 && chart'[..|chart|] == chart
    requires chart'[|chart|].segment == MaxSibling(chart, chart'[|chart|].parent) + 1
    requires Sequential(Segments(chart, parent), MaxSibling(chart, parent))
    ensures Sequential(Segments(chart', parent), MaxSibling(chart', parent))
  {
    var last := chart'[|chart|];
    assert chart'[..|chart'| - 1] == chart;
    if last.parent == parent {
      assert Segments(chart', parent) == Segments(chart, parent) + [last.segment];
      assert MaxSibling(chart', parent) == last.segment;
    } else {
      assert Segments(chart', parent) == Segments(chart, parent);
      assert MaxSibling(chart', parent) == MaxSibling(chart, parent);
    }
  }

  // ----- packing and unpacking -----

  /** A position in the tree: the segments from the root down. */
  predicate ValidPath(path: seq<nat>) {
    1 <= |path| <= MAX_LEVEL && forall i :: 0 <= i < |path| ==> 1 <= path[i] < Slot(i + 1)
  }

  function Pack(path: seq<nat>): nat {
    if |path| == 0 then 0 else Append(Pack(path[..|path| - 1]), |path|, path[|path| - 1])
  }

  /** The segments a packed code displays at a level. */
  function Unpack(code: nat, level: nat): (path: seq<nat>)
    ensures |path| == level
  {
    if level == 0 then [] else Unpack(code / Slot(level), level - 1) + [code % Slot(level)]
  }

  lemma UnpackOne(code: nat, level: nat, front: nat, last: nat)
    requires 1 <= level <= MAX_LEVEL && last < Slot(level) && code == Append(front, level, last)
    ensures Unpack(code, level) == Unpack(front, level - 1) + [last]
  {
  }

  lemma FrontIsValid(path: seq<nat>)
    requires ValidPath(path)
    ensures var front := path[..|path| - 1]; front == [] || ValidPath(front)
    ensures path == path[..|path| - 1] + [path[|path| - 1]]
  {}

  lemma {:induction false} UnpackUndoesPack(path: seq<nat>)
    requires ValidPath(path) || path == []
    ensures Unpack(Pack(path), |path|) == path
  {
    if |path| > 0 {
      var front, last, level := path[..|path| - 1], path[|path| - 1], |path|;
      FrontIsValid(path);
      UnpackUndoesPack(front);
      var code := Pack(path);
      assert code == Append(Pack(front), level, last) && last < Slot(level);
      UnpackOne(code, level, Pack(front), last);
    }
  }

  /** format_full_code's loop: digits peeled off from the leaf up. */
  method FormatSegments(code: nat, level: nat) returns (segments: seq<nat>)
    requires level <= MAX_LEVEL
    ensures segments == Unpack(code, level)
  {
    var remaining: nat := code;
    var reversed: seq<nat> := [];
    var l := level;
    while l > 0
      invariant 0 <= l <= level
      invariant Unpack(code, level) == Unpack(remaining, l) + reversed
    {
      reversed := [remaining % Slot(l)] + reversed;
      remaining := remaining / Slot(l);
      l := l - 1;
    }
    segments := reversed;
  }

  function PathOf(chart: seq<Account>, a: nat): (path: seq<nat>)
    requires a < |chart| && forall b :: 0 <= b < |chart| ==> Placed(chart, b)
    ensures |path| == chart[a].level
  {
    assert Placed(chart, a);
    if chart[a].parent.Some? then PathOf(chart, chart[a].parent.value) + [chart[a].segment] else [chart[a].segment]
  }

  lemma PackOneMore(front: seq<nat>, last: nat, path: seq<nat>)
    requires (front == [] || ValidPath(front)) && |front| < MAX_LEVEL && 1 <= last < Slot(|front| + 1)
    requires path == front + [last]
    ensures ValidPath(path) && Pack(path) == Append(Pack(front), |path|, last)
  {
    assert path[..|path| - 1] == front;
  }

  lemma {:induction false} Located(chart: seq<Account>, a: nat)
    requires Coded(chart) && a < |chart|
    ensures ValidPath(PathOf(chart, a)) && Pack(PathOf(chart, a)) == chart[a].fullCode
    decreases a
  {
    assert Placed(chart, a);
    if chart[a].parent.Some? {
      var parent := chart[a].parent.value;
      Located(chart, parent);
      PackOneMore(PathOf(chart, parent), chart[a].segment, PathOf(chart, a));
    } else {
      PackOneMore([], chart[a].segment, PathOf(chart, a));
    }
  }

  /** Every account's code packs its own position, and displays it back. */
  lemma CodeIsPosition(chart: seq<Account>, a: nat)
    requires Coded(chart) && a < |chart|
    ensures ValidPath(PathOf(chart, a)) && Pack(PathOf(chart, a)) == chart[a].fullCode
    ensures Unpack(chart[a].fullCode, chart[a].level) == PathOf(chart, a)
  {
    Located(chart, a);
    UnpackUndoesPack(PathOf(chart, a));
  }

  lemma {:induction false} PositionIsUnique(chart: seq<Account>, a: nat, b: nat)
    requires Coded(chart) && a < |chart| && b < |chart| && PathOf(chart, a) == PathOf(chart, b)
    ensures a == b
    decreases a
  {
    assert Placed(chart, a) && Placed(chart, b);
    var p, q := PathOf(chart, a), PathOf(chart, b);
    assert p[|p| - 1] == chart[a].segment && q[|q| - 1] == chart[b].segment;
    if chart[a].parent.Some? {
      assert Placed(chart, chart[a].parent.value);
      assert chart[b].parent.Some?;
      assert p[..|p| - 1] == PathOf(chart, chart[a].parent.value)
          && q[..|q| - 1] == PathOf(chart, chart[b].parent.value);
      PositionIsUnique(chart, chart[a].parent.value, chart[b].parent.value);
    }
  }

  /** On one level the packed code identifies the account. */
  lemma SameLevelCodesDiffer(chart: seq<Account>, a: nat, b: nat)
    requires Coded(chart) && a < |chart| && b < |chart|
    requires chart[a].level == chart[b].level && chart[a].fullCode == chart[b].fullCode
    ensures a == b
  {
    CodeIsPosition(chart, a);
    CodeIsPosition(chart, b);
    PositionIsUnique(chart, a, b);
  }

  // ----- sorting by the packed code -----

  predicate Before(p: seq<nat>, q: seq<nat>)
    requires |p| == |q|
  {
    |p| > 0 && (Before(p[..|p| - 1], q[..|q| - 1]) || (p[..|p| - 1] == q[..|q| - 1] && p[|p| - 1] < q[|q| - 1]))
  }

  lemma AppendOrder(a: nat, b: nat, level: nat, s: nat, t: nat)
    requires 1 <= level <= MAX_LEVEL && s < Slot(level) && t < Slot(level)
    ensures Append(a, level, s) < Append(b, level, t) <==> a < b || (a == b && s < t)
  {}

  lemma SameCodeSamePosition(p: seq<nat>, q: seq<nat>)
    requires |p| == |q| && (p == [] || ValidPath(p)) && (q == [] || ValidPath(q)) && Pack(p) == Pack(q)
    ensures p == q
  {
    UnpackUndoesPack(p);
    UnpackUndoesPack(q);
  }

  lemma SortStep(p: seq<nat>, q: seq<nat>, f: seq<nat>, g: seq<nat>, s: nat, t: nat)
    requires p == f + [s] && q == g + [t] && |f| == |g| < MAX_LEVEL && s < Slot(|p|) && t < Slot(|p|)
    requires (Pack(f) < Pack(g) <==> Before(f, g)) && (Pack(f) == Pack(g) <==> f == g)
    ensures Pack(p) < Pack(q) <==> Before(p, q)
  {
    assert p[..|f|] == f && q[..|g|] == g;
    AppendOrder(Pack(f), Pack(g), |p|, s, t);
  }

  /** Codes of one level sort exactly as positions in the tree do. */
  lemma {:induction false} SortsLikeTheTree(p: seq<nat>, q: seq<nat>)
    requires |p| == |q| && (p == [] || ValidPath(p)) && (q == [] || ValidPath(q))
    ensures Pack(p) < Pack(q) <==> Before(p, q)
  {
    if |p| > 0 {
      var f, g := p[..|p| - 1], q[..|q| - 1];
      FrontIsValid(p);
      FrontIsValid(q);
      SortsLikeTheTree(f, g);
      if Pack(f) == Pack(g) {
        SameCodeSamePosition(f, g);
      }
      SortStep(p, q, f, g, p[|p| - 1], q[|q| - 1]);
    }
  }

  // ----- across levels -----

  /** Where the codes of a level lie when the root segment is r. */
  lemma CodeRange(path: seq<nat>)
    requires ValidPath(path)
    ensures |path| == 1 ==> Pack(path) == path[0]
    ensures |path| == 2 ==> path[0] * 10_000 < Pack(path) < (path[0] + 1) * 10_000
    ensures |path| == 3 ==> path[0] * 10_000_000 < Pack(path) < (path[0] + 1) * 10_000_000
    ensures |path| == 4 ==> path[0] * 1_000_000_000 < Pack(path) < (path[0] + 1) * 1_000_000_000
    ensures |path| == 5 ==> path[0] * 10_000_000_000_000 < Pack(path) < (path[0] + 1) * 10_000_000_000_000
  {
    if |path| > 1 {
      CodeRange(path[..|path| - 1]);
    } else {
      assert path[..0] == [];
    }
  }

  lemma LevelsApart(p: seq<nat>, q: seq<nat>)
    requires ValidPath(p) && ValidPath(q) && p[0] <= 99 && q[0] <= 99 && |p| < |q|
    ensures Pack(p) < Pack(q)
  {
    CodeRange(p);
    CodeRange(q);
  }

  const TALL: seq<nat> := [1, 1, 1, 1]
  const WIDE: seq<nat> := [100, 100, 101]

  lemma TallAndWideCollide()
    ensures ValidPath(TALL) && ValidPath(WIDE) && Pack(TALL) == Pack(WIDE) == 1_000_100_101
  {
    assert TALL[..3] == [1, 1, 1] && TALL[..3][..2] == [1, 1] && TALL[..3][..2][..1] == [1] && [1][..0] == [];
    assert WIDE[..2] == [100, 100] && WIDE[..2][..1] == [100] && [100][..0] == [];
    assert Pack([1]) == 1 && Pack(TALL[..3][..2]) == 10_001 && Pack(TALL[..3]) == 10_001_001;
    assert Pack([100]) == 100 && Pack(WIDE[..2]) == 1_000_100;
  }

  /** The packed code identifies the position across the whole chart exactly while
      root segments stay at or below 99. */
  lemma CodesUniqueExactlyTo99(roots: nat)
    ensures (forall p, q :: ValidPath(p) && ValidPath(q) && p[0] <= roots && q[0] <= roots && Pack(p) == Pack(q) ==>
               p == q)
            <==> roots <= 99
  {
    if roots <= 99 {
      forall p, q | ValidPath(p) && ValidPath(q) && p[0] <= roots && q[0] <= roots && Pack(p) == Pack(q)
        ensures p == q
      {
        if |p| == |q| {
          SameCodeSamePosition(p, q);
        } else if |p| < |q| {
          LevelsApart(p, q);
        } else {
          LevelsApart(q, p);
        }
      }
    } else {
      TallAndWideCollide();
      assert TALL[0] <= roots && WIDE[0] <= roots && Pack(TALL) == Pack(WIDE) && |TALL| != |WIDE|;
    }
  }

  /** So up to 99 sections the unique constraint never refuses an allocation. */
  lemma NoCodeTakenWithin99(requests: seq<Option<nat>>, parent: Option<nat>)
    requires forall a :: 0 <= a < |Run(requests)| && Run(requests)[a].parent.None? ==> Run(requests)[a].segment < 99
    ensures Allocate(Run(requests), parent).1 != Refused(CodeTaken)
  {
    RunIsCoded(requests);
    CodeIsNotTaken(Run(requests), parent);
  }

  lemma CodeIsNotTaken(chart: seq<Account>, parent: Option<nat>)
    requires Coded(chart)
    requires forall b :: 0 <= b < |chart| && chart[b].parent.None? ==> chart[b].segment < 99
    ensures Allocate(chart, parent).1 != Refused(CodeTaken)
  {
    if (parent.Some? ==> parent.value < |chart|) && NextLevel(chart, parent) <= MAX_LEVEL
       && MaxSibling(chart, parent) + 1 < Slot(NextLevel(chart, parent)) {
      NewPosition(chart, parent);
      NewCodeIsFree(chart, parent);
    }
  }

  lemma NewCodeIsFree(chart: seq<Account>, parent: Option<nat>)
    requires Coded(chart) && (parent.Some? ==> parent.value < |chart|)
    requires forall b :: 0 <= b < |chart| && chart[b].parent.None? ==> chart[b].segment < 99
    requires ValidPath(NextPath(chart, parent)) && NextPath(chart, parent)[0] <= 99
    ensures forall a :: 0 <= a < |chart| ==> chart[a].fullCode != Pack(NextPath(chart, parent))
  {
    forall a | 0 <= a < |chart| ensures chart[a].fullCode != Pack(NextPath(chart, parent)) {
      if chart[a].fullCode == Pack(NextPath(chart, parent)) {
        SamePosition(chart, a, NextPath(chart, parent));
        FreshPath(chart, parent, a);
      }
    }
  }

  function NextLevel(chart: seq<Account>, parent: Option<nat>): nat
    requires parent.Some? ==> parent.value < |chart|
  {
    if parent.Some? then chart[parent.value].level + 1 else 1
  }

  ghost function NextPath(chart: seq<Account>, parent: Option<nat>): seq<nat>
    requires Coded(chart) && (parent.Some? ==> parent.value < |chart|)
  {
    (if parent.Some? then PathOf(chart, parent.value) else []) + [MaxSibling(chart, parent) + 1]
  }

  lemma SamePosition(chart: seq<Account>, a: nat, path: seq<nat>)
    requires Coded(chart) && a < |chart|
    requires forall b :: 0 <= b < |chart| && chart[b].parent.None? ==> chart[b].segment < 99
    requires ValidPath(path) && path[0] <= 99 && chart[a].fullCode == Pack(path)
    ensures PathOf(chart, a) == path
  {
    Located(chart, a);
    RootBound(chart, a);
    CodesUniqueExactlyTo99(99);
  }

  lemma {:induction false} RootBound(chart: seq<Account>, a: nat)
    requires Coded(chart) && a < |chart|
    requires forall b :: 0 <= b < |chart| && chart[b].parent.None? ==> chart[b].segment < 99
    ensures PathOf(chart, a)[0] < 99
    decreases a
  {
    assert Placed(chart, a);
    if chart[a].parent.Some? {
      RootBound(chart, chart[a].parent.value);
    }
  }

  lemma {:induction false} MaxIsAttained(chart: seq<Account>, parent: Option<nat>)
    ensures MaxSibling(chart, parent) == 0 ||
            exists a :: 0 <= a < |chart| && chart[a].parent == parent && chart[a].segment == MaxSibling(chart, parent)
  {
    if |chart| > 0 {
      var front := chart[..|chart| - 1];
      MaxIsAttained(front, parent);
      if MaxSibling(chart, parent) == MaxSibling(front, parent) > 0 {
        var a :| 0 <= a < |front| && front[a].parent == parent && front[a].segment == MaxSibling(front, parent);
        assert chart[a] == front[a];
      }
    }
  }

  lemma NextRoot(chart: seq<Account>)
    requires forall b :: 0 <= b < |chart| && chart[b].parent.None? ==> chart[b].segment < 99
    ensures MaxSibling(chart, None) + 1 <= 99
  {
    MaxIsAttained(chart, None);
  }

  lemma NewPosition(chart: seq<Account>, parent: Option<nat>)
    requires Coded(chart) && (parent.Some? ==> parent.value < |chart|)
    requires forall b :: 0 <= b < |chart| && chart[b].parent.None? ==> chart[b].segment < 99
    requires NextLevel(chart, parent) <= MAX_LEVEL && MaxSibling(chart, parent) + 1 < Slot(NextLevel(chart, parent))
    ensures ValidPath(NextPath(chart, parent)) && NextPath(chart, parent)[0] <= 99
    ensures Pack(NextPath(chart, parent))
         == Append(if parent.Some? then chart[parent.value].fullCode else 0,
                   NextLevel(chart, parent), MaxSibling(chart, parent) + 1)
  {
    var segment, path := MaxSibling(chart, parent) + 1, NextPath(chart, parent);
    if parent.Some? {
      Located(chart, parent.value);
      RootBound(chart, parent.value);
      var front := PathOf(chart, parent.value);
      PackOneMore(front, segment, path);
    } else {
      NextRoot(chart);
      PackOneMore([], segment, path);
    }
  }

  lemma FreshPath(chart: seq<Account>, parent: Option<nat>, a: nat)
    requires Coded(chart) && (parent.Some? ==> parent.value < |chart|) && a < |chart|
    ensures PathOf(chart, a) != NextPath(chart, parent)
  {
    assert Placed(chart, a);
    var path := NextPath(chart, parent);
    if PathOf(chart, a) == path {
      assert path[|path| - 1] == chart[a].segment;
      if parent.Some? && chart[a].parent.Some? {
        assert PathOf(chart, a)[..|path| - 1] == PathOf(chart, chart[a].parent.value);
        assert path[..|path| - 1] == PathOf(chart, parent.value);
        PositionIsUnique(chart, parent.value, chart[a].parent.value);
      }
    }
  }
}
