/** The nested chart of accounts: serialised to a bounded depth over any parent
    column, flattened for the pickers, pruned by the search box. */
module ChartTree {
  import opened Money
  import Chart
  import Numbering

  /** How deep get_children walks. */
  const MAX_TREE_DEPTH: nat := 12

  datatype Tree = Node(id: nat, children: seq<Tree>)

  /** parents[a] is the parent column of account a. A foreign key, so it names a row;
      nothing here rules out a cycle. */
  ghost predicate ForeignKeys(parents: seq<Option<nat>>) {
    forall a :: 0 <= a < |parents| && parents[a].Some? ==> parents[a].value < |parents|
  }

  /** The accounts under p (or the roots), as they are stored. */
  function ChildIds(parents: seq<Option<nat>>, p: Option<nat>, upTo: nat): (ids: seq<nat>)
    requires upTo <= |parents|
    ensures forall i :: 0 <= i < |ids| ==> ids[i] < upTo && parents[ids[i]] == p
  {
    if upTo == 0 then []
    else ChildIds(parents, p, upTo - 1) + (if parents[upTo - 1] == p then [upTo - 1] else [])
  }

  function CodeOf(codes: seq<string>, a: nat): string { if a < |codes| then codes[a] else "" }

  /** Sorting by the code column, as strings; equal codes keep their order. */
  function InsertByCode(codes: seq<string>, ids: seq<nat>, x: nat): (r: seq<nat>)
    ensures |r| == |ids| + 1 && forall a :: a in r <==> a in ids || a == x
  {
    if |ids| == 0 then [x]
    else
      var front, last := ids[..|ids| - 1], ids[|ids| - 1];
      assert ids == front + [last];
      if Numbering.LexLess(CodeOf(codes, x), CodeOf(codes, last)) then InsertByCode(codes, front, x) + [last]
      else ids + [x]
  }

  function SortedByCode(codes: seq<string>, ids: seq<nat>): (r: seq<nat>)
    ensures |r| == |ids| && forall a :: a in r <==> a in ids
  {
    if |ids| == 0 then []
    else
      assert ids == ids[..|ids| - 1] + [ids[|ids| - 1]];
      InsertByCode(codes, SortedByCode(codes, ids[..|ids| - 1]), ids[|ids| - 1])
  }

  /** The children of p (or the roots) as the tree lists them. */
  function Children(parents: seq<Option<nat>>, codes: seq<string>, p: Option<nat>): (ids: seq<nat>)
    ensures forall i :: 0 <= i < |ids| ==> ids[i] < |parents| && parents[ids[i]] == p
  {
    var ids := SortedByCode(codes, ChildIds(parents, p, |parents|));
    assert forall i :: 0 <= i < |ids| ==> ids[i] in ids;
    ids
  }

  function Serialise(parents: seq<Option<nat>>, codes: seq<string>, id: nat, depth: nat): (t: Tree)
    requires depth <= MAX_TREE_DEPTH
    ensures t.id == id
    decreases MAX_TREE_DEPTH - depth, 0
  {
    if depth >= MAX_TREE_DEPTH then Node(id, [])
    else Node(id, SerialiseAll(parents, codes, Children(parents, codes, Some(id)), depth + 1))
  }

  function SerialiseAll(parents: seq<Option<nat>>, codes: seq<string>, ids: seq<nat>, depth: nat): seq<Tree>
    requires depth <= MAX_TREE_DEPTH
    decreases MAX_TREE_DEPTH - depth, 1, |ids|
  {
    if |ids| == 0 then []
    else [Serialise(parents, codes, ids[0], depth)] + SerialiseAll(parents, codes, ids[1..], depth)
  }

  function Roots(parents: seq<Option<nat>>, codes: seq<string>): seq<nat> { Children(parents, codes, None) }

  /** The body of GET /accounts/tree/. */
  function Chartwide(parents: seq<Option<nat>>, codes: seq<string>): seq<Tree> {
    SerialiseAll(parents, codes, Roots(parents, codes), 0)
  }

  // ----- flattening -----

  function Flatten(t: Tree): seq<nat> { [t.id] + FlattenAll(t.children) }

  function FlattenAll(ts: seq<Tree>): seq<nat> {
    if |ts| == 0 then [] else Flatten(ts[0]) + FlattenAll(ts[1..])
  }

  /** flattenAccounts: a walk pushing onto one list. */
  class Picker {
    var out: seq<nat>

    constructor ()
      ensures out == []
    {
      out := [];
    }

    method Walk(ts: seq<Tree>)
      modifies this
      ensures out == old(out) + FlattenAll(ts)
      decreases ts
    {
      ghost var before := out;
      for i := 0 to |ts|
        invariant out + FlattenAll(ts[i..]) == before + FlattenAll(ts)
      {
        ghost var now := out;
        out := out + [ts[i].id];
        Walk(ts[i].children);
        assert out == now + Flatten(ts[i]);
        assert ts[i..][1..] == ts[i + 1..];
      }
      assert ts[|ts|..] == [];
    }
  }

  // ----- each account once -----

  function Occurs(ids: seq<nat>, a: nat): nat {
    if |ids| == 0 then 0 else (if ids[0] == a then 1 else 0) + Occurs(ids[1..], a)
  }

  lemma {:induction false} OccursInConcatenation(x: seq<nat>, y: seq<nat>, a: nat)
    ensures Occurs(x + y, a) == Occurs(x, a) + Occurs(y, a)
  {
    if |x| == 0 {
      assert x + y == y;
    } else {
      OccursInConcatenation(x[1..], y, a);
      assert (x + y)[1..] == x[1..] + y;
    }
  }

  lemma {:induction false} OccursIsMembership(ids: seq<nat>, a: nat)
    ensures Occurs(ids, a) > 0 <==> a in ids
  {
    if |ids| > 0 {
      OccursIsMembership(ids[1..], a);
      assert ids == [ids[0]] + ids[1..];
    }
  }

  /** The steps k <= n at which climbing from a meets id. */
  function Meets(parents: seq<Option<nat>>, a: nat, id: nat, n: nat): nat
    requires ForeignKeys(parents) && a < |parents|
    decreases n
  {
    (if a == id then 1 else 0)
    + if n > 0 && parents[a].Some? then Meets(parents, parents[a].value, id, n - 1) else 0
  }

  function MeetsChildOf(parents: seq<Option<nat>>, a: nat, p: Option<nat>, n: nat): nat
    requires ForeignKeys(parents) && a < |parents|
    decreases n
  {
    (if parents[a] == p then 1 else 0)
    + if n > 0 && parents[a].Some? then MeetsChildOf(parents, parents[a].value, p, n - 1) else 0
  }

  function MeetsAny(parents: seq<Option<nat>>, ids: seq<nat>, a: nat, n: nat): nat
    requires ForeignKeys(parents) && a < |parents|
  {
    if |ids| == 0 then 0 else Meets(parents, a, ids[0], n) + MeetsAny(parents, ids[1..], a, n)
  }

  lemma {:induction false} MeetsAnyStep(parents: seq<Option<nat>>, ids: seq<nat>, a: nat, n: nat)
    requires ForeignKeys(parents) && a < |parents|
    ensures MeetsAny(parents, ids, a, n) == Occurs(ids, a)
            + if n > 0 && parents[a].Some? then MeetsAny(parents, ids, parents[a].value, n - 1) else 0
  {
    if |ids| > 0 {
      MeetsAnyStep(parents, ids[1..], a, n);
    }
  }

  lemma {:induction false} ChildrenOnce(parents: seq<Option<nat>>, p: Option<nat>, upTo: nat, a: nat)
    requires upTo <= |parents|
    ensures Occurs(ChildIds(parents, p, upTo), a) == if a < upTo && parents[a] == p then 1 else 0
  {
    if upTo > 0 {
      var front, last := ChildIds(parents, p, upTo - 1), upTo - 1;
      ChildrenOnce(parents, p, last, a);
      if parents[last] == p {
        OccursOnceMore(front, last, a);
      } else {
        assert ChildIds(parents, p, upTo) == front;
      }
    }
  }

  lemma OccursOnceMore(ids: seq<nat>, last: nat, a: nat)
    ensures Occurs(ids + [last], a) == Occurs(ids, a) + if last == a then 1 else 0
  {
    OccursInConcatenation(ids, [last], a);
    assert Occurs([last], a) == if last == a then 1 else 0;
  }

  lemma {:induction false} InsertOccurs(codes: seq<string>, ids: seq<nat>, x: nat, a: nat)
    ensures Occurs(InsertByCode(codes, ids, x), a) == Occurs(ids, a) + if x == a then 1 else 0
  {
    if |ids| > 0 {
      var front, last := ids[..|ids| - 1], ids[|ids| - 1];
      InsertOccurs(codes, front, x, a);
      assert ids == front + [last];
      OccursOnceMore(front, last, a);
      OccursOnceMore(InsertByCode(codes, front, x), last, a);
      OccursOnceMore(ids, x, a);
    } else {
      OccursOnceMore([], x, a);
    }
  }

  lemma SortOccursOnceMore(codes: seq<string>, front: seq<nat>, last: nat, a: nat)
    requires Occurs(SortedByCode(codes, front), a) == Occurs(front, a)
    ensures Occurs(SortedByCode(codes, front + [last]), a) == Occurs(front + [last], a)
  {
    assert (front + [last])[..|front|] == front;
    InsertOccurs(codes, SortedByCode(codes, front), last, a);
    OccursOnceMore(front, last, a);
  }

  lemma {:induction false} SortOccurs(codes: seq<string>, ids: seq<nat>, a: nat)
    ensures Occurs(SortedByCode(codes, ids), a) == Occurs(ids, a)
  {
    if |ids| > 0 {
      var front, last := ids[..|ids| - 1], ids[|ids| - 1];
      SortOccurs(codes, front, a);
      SortOccursOnceMore(codes, front, last, a);
      assert ids == front + [last];
    }
  }

  ghost predicate InCodeOrder(codes: seq<string>, ids: seq<nat>) {
    forall i, j :: 0 <= i < j < |ids| ==> !Numbering.LexLess(CodeOf(codes, ids[j]), CodeOf(codes, ids[i]))
  }

  lemma {:induction false} InsertKeepsCodeOrder(codes: seq<string>, ids: seq<nat>, x: nat)
    requires InCodeOrder(codes, ids)
    ensures InCodeOrder(codes, InsertByCode(codes, ids, x))
  {
    if |ids| > 0 {
      var front, last := ids[..|ids| - 1], ids[|ids| - 1];
      if Numbering.LexLess(CodeOf(codes, x), CodeOf(codes, last)) {
        InsertKeepsCodeOrder(codes, front, x);
        var r := InsertByCode(codes, front, x);
        forall i | 0 <= i < |r| ensures !Numbering.LexLess(CodeOf(codes, last), CodeOf(codes, r[i])) {
          assert r[i] in r;
          Numbering.LexAsymmetric(CodeOf(codes, x), CodeOf(codes, last));
          if r[i] in front {
            var k :| 0 <= k < |front| && front[k] == r[i];
            assert ids[k] == r[i];
          }
        }
      } else {
        forall i | 0 <= i < |ids| ensures !Numbering.LexLess(CodeOf(codes, x), CodeOf(codes, ids[i])) {
          Numbering.LexTransitive(CodeOf(codes, x), CodeOf(codes, ids[i]), CodeOf(codes, last));
        }
      }
    }
  }

  /** Siblings come in the string order of their codes. */
  lemma {:induction false} SortIsInCodeOrder(codes: seq<string>, ids: seq<nat>)
    ensures InCodeOrder(codes, SortedByCode(codes, ids))
  {
    if |ids| > 0 {
      SortIsInCodeOrder(codes, ids[..|ids| - 1]);
      InsertKeepsCodeOrder(codes, SortedByCode(codes, ids[..|ids| - 1]), ids[|ids| - 1]);
    }
  }

  lemma ChildrenInCodeOrder(parents: seq<Option<nat>>, codes: seq<string>, p: Option<nat>)
    ensures InCodeOrder(codes, Children(parents, codes, p))
    ensures forall a: nat :: Occurs(Children(parents, codes, p), a) == if a < |parents| && parents[a] == p then 1 else 0
  {
    SortIsInCodeOrder(codes, ChildIds(parents, p, |parents|));
    forall a: nat ensures Occurs(Children(parents, codes, p), a) == if a < |parents| && parents[a] == p then 1 else 0 {
      SortOccurs(codes, ChildIds(parents, p, |parents|), a);
      ChildrenOnce(parents, p, |parents|, a);
    }
  }

  lemma {:induction false} MeetsAChild(parents: seq<Option<nat>>, codes: seq<string>, p: Option<nat>, a: nat, n: nat)
    requires ForeignKeys(parents) && a < |parents|
    ensures MeetsAny(parents, Children(parents, codes, p), a, n) == MeetsChildOf(parents, a, p, n)
    decreases n
  {
    var ids := Children(parents, codes, p);
    MeetsAnyStep(parents, ids, a, n);
    ChildrenInCodeOrder(parents, codes, p);
    if n > 0 && parents[a].Some? {
      MeetsAChild(parents, codes, p, parents[a].value, n - 1);
    }
  }

  lemma {:induction false} MeetsThroughAChild(parents: seq<Option<nat>>, id: nat, a: nat, n: nat)
    requires ForeignKeys(parents) && a < |parents|
    ensures Meets(parents, a, id, n + 1) == (if a == id then 1 else 0) + MeetsChildOf(parents, a, Some(id), n)
    decreases n
  {
    if n > 0 && parents[a].Some? {
      MeetsThroughAChild(parents, id, parents[a].value, n - 1);
    }
  }

  lemma OccursInNode(t: Tree, a: nat)
    ensures Occurs(Flatten(t), a) == (if a == t.id then 1 else 0) + Occurs(FlattenAll(t.children), a)
  {
    OccursInConcatenation([t.id], FlattenAll(t.children), a);
    OccursOnceMore([], t.id, a);
    assert [] + [t.id] == [t.id];
  }

  lemma MeetsAtOrBelow(parents: seq<Option<nat>>, codes: seq<string>, id: nat, a: nat, below: nat)
    requires ForeignKeys(parents) && a < |parents|
    ensures (if a == id then 1 else 0) + MeetsAny(parents, Children(parents, codes, Some(id)), a, below)
         == Meets(parents, a, id, below + 1)
  {
    MeetsAChild(parents, codes, Some(id), a, below);
    MeetsThroughAChild(parents, id, a, below);
  }

  lemma SubtreeIs(parents: seq<Option<nat>>, codes: seq<string>, id: nat, depth: nat)
    requires depth <= MAX_TREE_DEPTH
    ensures Serialise(parents, codes, id, depth)
         == Node(id, if depth == MAX_TREE_DEPTH then []
                     else SerialiseAll(parents, codes, Children(parents, codes, Some(id)), depth + 1))
  {}

  lemma OccursWithChildren(parents: seq<Option<nat>>, codes: seq<string>, id: nat, depth: nat, a: nat, below: nat)
    requires ForeignKeys(parents) && a < |parents| && depth < MAX_TREE_DEPTH
    requires Occurs(FlattenAll(SerialiseAll(parents, codes, Children(parents, codes, Some(id)), depth + 1)), a)
          == MeetsAny(parents, Children(parents, codes, Some(id)), a, below)
    ensures Occurs(Flatten(Serialise(parents, codes, id, depth)), a) == Meets(parents, a, id, below + 1)
  {
    SubtreeIs(parents, codes, id, depth);
    OccursInNode(Serialise(parents, codes, id, depth), a);
    MeetsAtOrBelow(parents, codes, id, a, below);
  }

  lemma {:induction false} OccursInSubtree(parents: seq<Option<nat>>, codes: seq<string>, id: nat, depth: nat, a: nat)
    requires ForeignKeys(parents) && a < |parents| && depth <= MAX_TREE_DEPTH
    ensures Occurs(Flatten(Serialise(parents, codes, id, depth)), a) == Meets(parents, a, id, MAX_TREE_DEPTH - depth)
    decreases MAX_TREE_DEPTH - depth, 0
  {
    if depth < MAX_TREE_DEPTH {
      OccursInAll(parents, codes, Children(parents, codes, Some(id)), depth + 1, a);
      OccursWithChildren(parents, codes, id, depth, a, MAX_TREE_DEPTH - depth - 1);
    } else {
      OccursInNode(Node(id, []), a);
      assert Serialise(parents, codes, id, depth) == Node(id, []) && Occurs(FlattenAll([]), a) == 0;
    }
  }

  lemma {:induction false} OccursInAll(parents: seq<Option<nat>>, codes: seq<string>, ids: seq<nat>, depth: nat, a: nat)
    requires ForeignKeys(parents) && a < |parents| && depth <= MAX_TREE_DEPTH
    ensures Occurs(FlattenAll(SerialiseAll(parents, codes, ids, depth)), a)
            == MeetsAny(parents, ids, a, MAX_TREE_DEPTH - depth)
    decreases MAX_TREE_DEPTH - depth, 1, |ids|
  {
    if |ids| > 0 {
      OccursInSubtree(parents, codes, ids[0], depth, a);
      OccursInAll(parents, codes, ids[1..], depth, a);
      OccursInConcatenation(Flatten(Serialise(parents, codes, ids[0], depth)),
                            FlattenAll(SerialiseAll(parents, codes, ids[1..], depth)), a);
    }
  }

  /** a climbs to a root in at most n steps. */
  predicate DepthWithin(parents: seq<Option<nat>>, a: nat, n: nat)
    requires ForeignKeys(parents) && a < |parents|
    decreases n
  {
    parents[a].None? || (n > 0 && DepthWithin(parents, parents[a].value, n - 1))
  }

  lemma {:induction false} OneRootAtMost(parents: seq<Option<nat>>, a: nat, n: nat)
    requires ForeignKeys(parents) && a < |parents|
    ensures MeetsChildOf(parents, a, None, n) == if DepthWithin(parents, a, n) then 1 else 0
    decreases n
  {
    if n > 0 && parents[a].Some? {
      OneRootAtMost(parents, parents[a].value, n - 1);
    }
  }

  /** Over any parent column, cyclic ones included: an account is listed once if it
      lies within the bound below a root, and otherwise not at all. */
  lemma ListedExactlyOnce(parents: seq<Option<nat>>, codes: seq<string>, a: nat)
    requires ForeignKeys(parents) && a < |parents|
    ensures Occurs(FlattenAll(Chartwide(parents, codes)), a) == if DepthWithin(parents, a, MAX_TREE_DEPTH) then 1 else 0
  {
    OccursInAll(parents, codes, Roots(parents, codes), 0, a);
    MeetsAChild(parents, codes, None, a, MAX_TREE_DEPTH);
    OneRootAtMost(parents, a, MAX_TREE_DEPTH);
  }

  // ----- charts made by the coder -----

  function ParentColumn(chart: seq<Chart.Account>): (parents: seq<Option<nat>>)
    ensures |parents| == |chart| && forall a :: 0 <= a < |chart| ==> parents[a] == chart[a].parent
  {
    seq(|chart|, a requires 0 <= a < |chart| => chart[a].parent)
  }

  lemma {:induction false} LevelBoundsDepth(chart: seq<Chart.Account>, a: nat)
    requires Chart.Coded(chart) && a < |chart| && ForeignKeys(ParentColumn(chart))
    ensures chart[a].level >= 1 && DepthWithin(ParentColumn(chart), a, chart[a].level - 1)
    decreases a
  {
    assert Chart.Placed(chart, a);
    if chart[a].parent.Some? {
      assert Chart.Placed(chart, chart[a].parent.value);
      LevelBoundsDepth(chart, chart[a].parent.value);
    }
  }

  lemma {:induction false} DepthWithinMore(parents: seq<Option<nat>>, a: nat, n: nat, m: nat)
    requires ForeignKeys(parents) && a < |parents| && n <= m && DepthWithin(parents, a, n)
    ensures DepthWithin(parents, a, m)
    decreases n
  {
    if parents[a].Some? {
      DepthWithinMore(parents, parents[a].value, n - 1, m - 1);
    }
  }

  /** Whatever is asked of the coder, the tree then lists every account once. */
  lemma CodedChartIsListed(requests: seq<Option<nat>>, codes: seq<string>, a: nat)
    requires a < |Chart.Run(requests)|
    ensures var parents := ParentColumn(Chart.Run(requests));
            ForeignKeys(parents) && Occurs(FlattenAll(Chartwide(parents, codes)), a) == 1
  {
    CodedIsShallow(requests, a);
    DepthWithinMore(ParentColumn(Chart.Run(requests)), a, 4, MAX_TREE_DEPTH);
    ListedExactlyOnce(ParentColumn(Chart.Run(requests)), codes, a);
  }

  /** Charts made by the coder are at most five levels deep. */
  lemma CodedIsShallow(requests: seq<Option<nat>>, a: nat)
    requires a < |Chart.Run(requests)|
    ensures var parents := ParentColumn(Chart.Run(requests)); ForeignKeys(parents) && DepthWithin(parents, a, 4)
  {
    var chart := Chart.Run(requests);
    Chart.RunIsCoded(requests);
    var parents := ParentColumn(chart);
    forall b | 0 <= b < |parents| && parents[b].Some? ensures parents[b].value < |parents| {
      assert Chart.Placed(chart, b);
    }
    LevelBoundsDepth(chart, a);
    assert Chart.Placed(chart, a);
    DepthWithinMore(parents, a, chart[a].level - 1, 4);
  }

  // ----- the cycle check of validate_parent -----

  method ValidateParent(parents: seq<Option<nat>>, instance: nat, parent: nat) returns (refused: bool)
    requires ForeignKeys(parents) && parent < |parents|
    ensures refused <==> Above(parents, parent, instance, MAX_TREE_DEPTH - 1)
  {
    var node: Option<nat> := Some(parent);
    var seen: nat := 0;
    while node.Some? && seen < MAX_TREE_DEPTH
      invariant 0 <= seen <= MAX_TREE_DEPTH && (node.Some? ==> node.value < |parents|)
      invariant Above(parents, parent, instance, MAX_TREE_DEPTH - 1)
                <==> (node.Some? && seen < MAX_TREE_DEPTH
                      && Above(parents, node.value, instance, MAX_TREE_DEPTH - 1 - seen))
      decreases MAX_TREE_DEPTH - seen
    {
      if node.value == instance {
        return true;
      }
      node := parents[node.value];
      seen := seen + 1;
    }
    return false;
  }

  ghost predicate ClimbsForEver(parents: seq<Option<nat>>, a: nat)
    requires ForeignKeys(parents) && a < |parents|
  {
    forall n: nat :: !DepthWithin(parents, a, n)
  }

  lemma {:induction false} Trapped(parents: seq<Option<nat>>, instance: nat, parent: nat, p: nat, n: nat, m: nat,
                                   loop: nat)
    requires ForeignKeys(parents) && instance < |parents| && parent < |parents| && p < |parents|
    requires Above(parents, parent, instance, loop) && Above(parents, p, instance, m)
    ensures ForeignKeys(parents[instance := Some(parent)]) && !DepthWithin(parents[instance := Some(parent)], p, n)
    decreases n
  {
    if n > 0 {
      if p == instance {
        Trapped(parents, instance, parent, parent, n - 1, loop, loop);
      } else {
        Trapped(parents, instance, parent, parents[p].value, n - 1, m - 1, loop);
      }
    }
  }

  lemma {:induction false} Untouched(parents: seq<Option<nat>>, instance: nat, parent: nat, p: nat, m: nat)
    requires ForeignKeys(parents) && instance < |parents| && parent < |parents| && p < |parents|
    requires !Above(parents, p, instance, m)
    ensures ForeignKeys(parents[instance := Some(parent)])
    ensures DepthWithin(parents[instance := Some(parent)], p, m) <==> DepthWithin(parents, p, m)
    decreases m
  {
    if m > 0 && parents[p].Some? {
      Untouched(parents, instance, parent, parents[p].value, m - 1);
    }
  }

  lemma ClimbsIn(parents: seq<Option<nat>>, a: nat, n: nat)
    requires ForeignKeys(parents) && a < |parents| && DepthWithin(parents, a, n)
    ensures !ClimbsForEver(parents, a)
  {}

  ghost predicate Descends(parents: seq<Option<nat>>, parent: nat, instance: nat)
    requires ForeignKeys(parents) && parent < |parents|
  {
    exists n: nat :: Above(parents, parent, instance, n)
  }

  /** After a move the account climbs for ever exactly when the new parent descends from
      it, at whatever depth, or climbed for ever already. */
  lemma MoveIsCyclicIff(parents: seq<Option<nat>>, instance: nat, parent: nat)
    requires ForeignKeys(parents) && instance < |parents| && parent < |parents|
    ensures var moved := parents[instance := Some(parent)];
            && ForeignKeys(moved)
            && (ClimbsForEver(moved, instance)
                <==> Descends(parents, parent, instance) || ClimbsForEver(parents, parent))
  {
    var moved := parents[instance := Some(parent)];
    assert ForeignKeys(moved);
    if Descends(parents, parent, instance) {
      var loop: nat :| Above(parents, parent, instance, loop);
      forall n: nat ensures !DepthWithin(moved, instance, n) {
        Trapped(parents, instance, parent, instance, n, 0, loop);
      }
    } else if ClimbsForEver(parents, parent) {
      forall n: nat ensures !DepthWithin(moved, instance, n) {
        if n > 0 {
          Untouched(parents, instance, parent, parent, n - 1);
        }
      }
    } else {
      var n: nat :| DepthWithin(parents, parent, n);
      Untouched(parents, instance, parent, parent, n);
      ClimbsIn(moved, instance, n + 1);
    }
  }

  /** The check refuses only cycles, all of them while the new parent lies above the bound,
      and misses exactly those that close twelve or more steps up. */
  lemma RefusesExactlyTheCycles(parents: seq<Option<nat>>, instance: nat, parent: nat)
    requires ForeignKeys(parents) && instance < |parents| && parent < |parents|
    ensures var moved := parents[instance := Some(parent)];
            var refused := Above(parents, parent, instance, MAX_TREE_DEPTH - 1);
            && ForeignKeys(moved)
            && (refused ==> ClimbsForEver(moved, instance))
            && (DepthWithin(parents, parent, MAX_TREE_DEPTH - 1) ==> (refused <==> ClimbsForEver(moved, instance)))
            && (!ClimbsForEver(parents, parent) ==>
                  (!refused && ClimbsForEver(moved, instance)
                   <==> Descends(parents, parent, instance) && !Above(parents, parent, instance, MAX_TREE_DEPTH - 1)))
  {
    MoveIsCyclicIff(parents, instance, parent);
    if DepthWithin(parents, parent, MAX_TREE_DEPTH - 1) {
      ClimbsIn(parents, parent, MAX_TREE_DEPTH - 1);
      if Descends(parents, parent, instance) {
        var n: nat :| Above(parents, parent, instance, n);
        MeetsWithinDepth(parents, parent, instance, n, MAX_TREE_DEPTH - 1);
      }
    }
  }

  lemma {:induction false} MeetsWithinDepth(parents: seq<Option<nat>>, b: nat, a: nat, n: nat, d: nat)
    requires ForeignKeys(parents) && b < |parents| && Above(parents, b, a, n) && DepthWithin(parents, b, d)
    ensures Above(parents, b, a, d)
    decreases n
  {
    if b != a {
      MeetsWithinDepth(parents, parents[b].value, a, n - 1, d - 1);
    }
  }

  /** On a chart made by the coder the check refuses exactly the moves that would close a
      cycle. */
  lemma CodedCheckIsExact(requests: seq<Option<nat>>, instance: nat, parent: nat)
    requires instance < |Chart.Run(requests)| && parent < |Chart.Run(requests)|
    ensures var parents := ParentColumn(Chart.Run(requests));
            && ForeignKeys(parents) && ForeignKeys(parents[instance := Some(parent)])
            && (Above(parents, parent, instance, MAX_TREE_DEPTH - 1)
                <==> ClimbsForEver(parents[instance := Some(parent)], instance))
  {
    CodedIsShallow(requests, parent);
    DepthWithinMore(ParentColumn(Chart.Run(requests)), parent, 4, MAX_TREE_DEPTH - 1);
    RefusesExactlyTheCycles(ParentColumn(Chart.Run(requests)), instance, parent);
  }

  /** Each account under the one before: deeper than the coder ever goes. */
  function Chain(n: nat): (parents: seq<Option<nat>>)
    ensures |parents| == n && ForeignKeys(parents)
  {
    seq(n, k requires 0 <= k < n => if k == 0 then None else Some(k - 1))
  }

  lemma {:induction false} ChainClimbs(n: nat, k: nat, m: nat)
    requires k < n
    ensures Above(Chain(n), k, 0, m) <==> m >= k
    decreases m
  {
    if k > 0 && m > 0 {
      ChainClimbs(n, k - 1, m - 1);
    }
  }

  /** Thirteen accounts in a chain: moving the first under the last passes the check and
      closes a cycle. */
  lemma MissedCycle()
    ensures var parents := Chain(13);
            !Above(parents, 12, 0, MAX_TREE_DEPTH - 1) && ClimbsForEver(parents[0 := Some(12)], 0)
  {
    ChainClimbs(13, 12, 11);
    ChainClimbs(13, 12, 12);
    assert Descends(Chain(13), 12, 0);
    MoveIsCyclicIff(Chain(13), 0, 12);
  }

  // ----- searching -----

  /** renderTree's rows: a node is dropped when it does not match and nothing
      below it was kept. */
  function Shown(t: Tree, hits: set<nat>): seq<nat> {
    var below := ShownAll(t.children, hits);
    if t.id !in hits && below == [] then [] else [t.id] + below
  }

  function ShownAll(ts: seq<Tree>, hits: set<nat>): seq<nat> {
    if |ts| == 0 then [] else Shown(ts[0], hits) + ShownAll(ts[1..], hits)
  }

  ghost predicate AnyHit(ids: seq<nat>, hits: set<nat>) { exists b :: b in ids && b in hits }

  lemma {:induction false} ShownIffHit(t: Tree, hits: set<nat>)
    ensures Shown(t, hits) != [] <==> AnyHit(Flatten(t), hits)
    decreases t, 0
  {
    AllShownIffHit(t.children, hits);
    assert t.id in Flatten(t);
    assert forall b :: b in Flatten(t) <==> b == t.id || b in FlattenAll(t.children);
  }

  lemma {:induction false} AllShownIffHit(ts: seq<Tree>, hits: set<nat>)
    ensures ShownAll(ts, hits) != [] <==> AnyHit(FlattenAll(ts), hits)
    decreases ts, 1
  {
    if |ts| > 0 {
      ShownIffHit(ts[0], hits);
      AllShownIffHit(ts[1..], hits);
      assert forall b :: b in FlattenAll(ts) <==> b in Flatten(ts[0]) || b in FlattenAll(ts[1..]);
    }
  }

  /** a is b or one of the first n ancestors of b. */
  predicate Above(parents: seq<Option<nat>>, b: nat, a: nat, n: nat)
    requires ForeignKeys(parents) && b < |parents|
    decreases n
  {
    b == a || (n > 0 && parents[b].Some? && Above(parents, parents[b].value, a, n - 1))
  }

  lemma {:induction false} AboveIffMeets(parents: seq<Option<nat>>, b: nat, a: nat, n: nat)
    requires ForeignKeys(parents) && b < |parents|
    ensures Above(parents, b, a, n) <==> Meets(parents, b, a, n) > 0
    decreases n
  {
    if n > 0 && parents[b].Some? {
      AboveIffMeets(parents, parents[b].value, a, n - 1);
    }
  }

  /** What the search is meant to show: the matching accounts and their ancestors. */
  ghost predicate Relevant(parents: seq<Option<nat>>, hits: set<nat>, a: nat)
    requires ForeignKeys(parents)
  {
    exists b :: b < |parents| && b in hits && DepthWithin(parents, b, MAX_TREE_DEPTH)
                && Above(parents, b, a, MAX_TREE_DEPTH)
  }

  predicate DepthIs(parents: seq<Option<nat>>, a: nat, d: nat)
    requires ForeignKeys(parents) && a < |parents|
    decreases d
  {
    if parents[a].None? then d == 0 else d > 0 && DepthIs(parents, parents[a].value, d - 1)
  }

  lemma {:induction false} DepthAdds(parents: seq<Option<nat>>, b: nat, a: nat, d: nat, n: nat)
    requires ForeignKeys(parents) && a < |parents| && b < |parents| && DepthIs(parents, a, d) && d <= n
    ensures Above(parents, b, a, n - d) ==> DepthWithin(parents, b, n)
    decreases n
  {
    if b == a {
      if d > 0 {
        DepthAdds(parents, parents[a].value, parents[a].value, d - 1, n - 1);
      }
    } else if n > d && parents[b].Some? {
      DepthAdds(parents, parents[b].value, a, d, n - 1);
    }
  }

  lemma {:induction false} DepthSplits(parents: seq<Option<nat>>, b: nat, a: nat, d: nat, n: nat, m: nat)
    requires ForeignKeys(parents) && a < |parents| && b < |parents| && DepthIs(parents, a, d)
    requires DepthWithin(parents, b, n) && Above(parents, b, a, m)
    ensures d <= n && Above(parents, b, a, n - d)
    decreases n
  {
    if b == a {
      if d > 0 {
        DepthSplits(parents, parents[a].value, parents[a].value, d - 1, n - 1, 0);
      }
    } else {
      DepthSplits(parents, parents[b].value, a, d, n - 1, m - 1);
    }
  }

  lemma InSubtreeIff(parents: seq<Option<nat>>, codes: seq<string>, id: nat, depth: nat, b: nat)
    requires ForeignKeys(parents) && b < |parents|
    requires id < |parents| && depth <= MAX_TREE_DEPTH && DepthIs(parents, id, depth)
    ensures b in Flatten(Serialise(parents, codes, id, depth))
            <==> DepthWithin(parents, b, MAX_TREE_DEPTH) && Above(parents, b, id, MAX_TREE_DEPTH)
  {
    OccursIsMembership(Flatten(Serialise(parents, codes, id, depth)), b);
    OccursInSubtree(parents, codes, id, depth, b);
    AboveIffMeets(parents, b, id, MAX_TREE_DEPTH - depth);
    DepthAdds(parents, b, id, depth, MAX_TREE_DEPTH);
    if DepthWithin(parents, b, MAX_TREE_DEPTH) && Above(parents, b, id, MAX_TREE_DEPTH) {
      DepthSplits(parents, b, id, depth, MAX_TREE_DEPTH, MAX_TREE_DEPTH);
    }
    AboveWithinMore(parents, b, id, MAX_TREE_DEPTH - depth, MAX_TREE_DEPTH);
  }

  lemma ShownIffRelevant(parents: seq<Option<nat>>, codes: seq<string>, hits: set<nat>, id: nat, depth: nat)
    requires ForeignKeys(parents) && (forall b :: b in hits ==> b < |parents|)
    requires id < |parents| && depth <= MAX_TREE_DEPTH && DepthIs(parents, id, depth)
    ensures Shown(Serialise(parents, codes, id, depth), hits) != [] <==> Relevant(parents, hits, id)
  {
    ShownIffHit(Serialise(parents, codes, id, depth), hits);
    forall b | b in hits
      ensures b in Flatten(Serialise(parents, codes, id, depth))
              <==> DepthWithin(parents, b, MAX_TREE_DEPTH) && Above(parents, b, id, MAX_TREE_DEPTH)
    {
      InSubtreeIff(parents, codes, id, depth, b);
    }
  }

  lemma {:induction false} AboveWithinMore(parents: seq<Option<nat>>, b: nat, a: nat, n: nat, m: nat)
    requires ForeignKeys(parents) && b < |parents| && n <= m
    ensures Above(parents, b, a, n) ==> Above(parents, b, a, m)
    decreases n
  {
    if n > 0 && parents[b].Some? {
      AboveWithinMore(parents, parents[b].value, a, n - 1, m - 1);
    }
  }

  ghost function Relevants(parents: seq<Option<nat>>, hits: set<nat>): (rs: set<nat>)
    requires ForeignKeys(parents)
    ensures forall a: nat :: a in rs <==> a < |parents| && Relevant(parents, hits, a)
  {
    set a: nat | a < |parents| && Relevant(parents, hits, a)
  }

  function Only(ids: seq<nat>, keep: set<nat>): seq<nat> {
    if |ids| == 0 then [] else (if ids[0] in keep then [ids[0]] else []) + Only(ids[1..], keep)
  }

  lemma {:induction false} OnlyConcatenates(x: seq<nat>, y: seq<nat>, keep: set<nat>)
    ensures Only(x + y, keep) == Only(x, keep) + Only(y, keep)
  {
    if |x| == 0 {
      assert x + y == y;
    } else {
      OnlyConcatenates(x[1..], y, keep);
      assert (x + y)[1..] == x[1..] + y && (x + y)[0] == x[0];
      var first := if x[0] in keep then [x[0]] else [];
      assert first + (Only(x[1..], keep) + Only(y, keep)) == (first + Only(x[1..], keep)) + Only(y, keep);
    }
  }

  lemma {:induction false} SubtreeSearch(parents: seq<Option<nat>>, codes: seq<string>, hits: set<nat>, id: nat,
                                         depth: nat)
    requires ForeignKeys(parents) && (forall b :: b in hits ==> b < |parents|)
    requires id < |parents| && depth <= MAX_TREE_DEPTH && DepthIs(parents, id, depth)
    ensures Shown(Serialise(parents, codes, id, depth), hits)
            == Only(Flatten(Serialise(parents, codes, id, depth)), Relevants(parents, hits))
    decreases MAX_TREE_DEPTH - depth, 0
  {
    var t, keep := Serialise(parents, codes, id, depth), Relevants(parents, hits);
    ShownIffRelevant(parents, codes, hits, id, depth);
    OnlyConcatenates([id], FlattenAll(t.children), keep);
    assert Only([id], keep) == if id in keep then [id] else [];
    if depth < MAX_TREE_DEPTH {
      ForestSearch(parents, codes, hits, Children(parents, codes, Some(id)), depth + 1);
    }
  }

  lemma {:induction false} ForestSearch(parents: seq<Option<nat>>, codes: seq<string>, hits: set<nat>, ids: seq<nat>,
                                        depth: nat)
    requires ForeignKeys(parents) && (forall b :: b in hits ==> b < |parents|) && depth <= MAX_TREE_DEPTH
    requires forall i :: 0 <= i < |ids| ==> ids[i] < |parents| && DepthIs(parents, ids[i], depth)
    ensures ShownAll(SerialiseAll(parents, codes, ids, depth), hits)
            == Only(FlattenAll(SerialiseAll(parents, codes, ids, depth)), Relevants(parents, hits))
    decreases MAX_TREE_DEPTH - depth, 1, |ids|
  {
    if |ids| > 0 {
      SubtreeSearch(parents, codes, hits, ids[0], depth);
      ForestSearch(parents, codes, hits, ids[1..], depth);
      OnlyConcatenates(Flatten(Serialise(parents, codes, ids[0], depth)),
                       FlattenAll(SerialiseAll(parents, codes, ids[1..], depth)), Relevants(parents, hits));
    }
  }

  /** The search view is the full view with exactly the matching accounts and their
      ancestors kept, in the same order. */
  lemma SearchShowsHitsAndAncestors(parents: seq<Option<nat>>, codes: seq<string>, hits: set<nat>)
    requires ForeignKeys(parents) && (forall b :: b in hits ==> b < |parents|)
    ensures ShownAll(Chartwide(parents, codes), hits)
            == Only(FlattenAll(Chartwide(parents, codes)), Relevants(parents, hits))
  {
    ForestSearch(parents, codes, hits, Roots(parents, codes), 0);
  }
}
