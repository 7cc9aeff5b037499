/** Materialised department paths: a prefix query standing in for the transitive
    closure of `parent`, and rebuilding the column from any stale state. */
module Departments {
  import opened Money

  datatype Department = Department(code: string, parent: Option<nat>)

  /** A rank that drops from child to parent witnesses that `parent` has no cycle. */
  ghost predicate IsForest(org: seq<Department>, rank: seq<nat>) {
    && |rank| == |org|
    && forall d :: 0 <= d < |org| && org[d].parent.Some? ==>
         org[d].parent.value < |org| && rank[org[d].parent.value] < rank[d]
  }

  predicate NoSlash(code: string) {
    forall i :: 0 <= i < |code| ==> code[i] != '/'
  }

  /** What the unique constraint enforces. */
  ghost predicate CodesUnique(org: seq<Department>) {
    forall a, d :: 0 <= a < d < |org| ==> org[a].code != org[d].code
  }

  /** What nothing enforces. */
  ghost predicate CodesOk(org: seq<Department>) {
    CodesUnique(org) && forall d :: 0 <= d < |org| ==> NoSlash(org[d].code)
  }

  /** build_path: from the parent's stored path, or as a root when that is blank. */
  function BuildPath(org: seq<Department>, paths: seq<string>, d: nat): string
    requires d < |org| == |paths| && (org[d].parent.Some? ==> org[d].parent.value < |org|)
  {
    var p := org[d].parent;
    (if p.Some? && paths[p.value] != "" then paths[p.value] else "/") + org[d].code + "/"
  }

  function SubtreePrefix(org: seq<Department>, paths: seq<string>, d: nat): string
    requires d < |org| == |paths| && (org[d].parent.Some? ==> org[d].parent.value < |org|)
  {
    if paths[d] != "" then paths[d] else BuildPath(org, paths, d)
  }

  /** Over any column, stale ones included: a department's own query finds it exactly when its
      path is stored, and then asks for that path; without one it asks below the parent's. */
  lemma FindsItselfIff(org: seq<Department>, paths: seq<string>, d: nat)
    requires d < |org| == |paths| && (org[d].parent.Some? ==> org[d].parent.value < |org|)
    ensures var prefix := SubtreePrefix(org, paths, d);
            && (prefix <= paths[d] <==> paths[d] != "") && (paths[d] != "" ==> prefix == paths[d])
            && (paths[d] == "" && org[d].parent.Some? ==> paths[org[d].parent.value] <= prefix)
  {}

  /** The path the hierarchy itself determines. */
  ghost function PathOf(org: seq<Department>, rank: seq<nat>, d: nat): string
    requires IsForest(org, rank) && d < |org|
    decreases rank[d]
  {
    (if org[d].parent.Some? then PathOf(org, rank, org[d].parent.value) else "/") + org[d].code + "/"
  }

  /** a is d or one of its ancestors. */
  ghost predicate Above(org: seq<Department>, rank: seq<nat>, a: nat, d: nat)
    requires IsForest(org, rank) && a < |org| && d < |org|
    decreases rank[d]
  {
    a == d || (org[d].parent.Some? && Above(org, rank, a, org[d].parent.value))
  }

  // ----- prefix if and only if ancestor -----

  predicate EndsInSlash(s: string) {
    |s| > 0 && s[|s| - 1] == '/'
  }

  /** A slash-terminated prefix of q/code/ stops inside q/ or is all of it. */
  lemma PrefixStopsAtSlash(p: string, q: string, code: string)
    requires EndsInSlash(p) && EndsInSlash(q) && NoSlash(code) && p <= q + code + "/"
    ensures p <= q || p == q + code + "/"
  {
    var s := q + code + "/";
    assert forall i :: |q| <= i < |q| + |code| ==> s[i] == code[i - |q|];
    assert s[|p| - 1] == '/';
    if |p| <= |q| {
      assert p == s[..|p|] == q[..|p|];
    }
  }

  /** Two slash-terminated paths that agree have the same last segment. */
  lemma LastSegment(q: string, code: string, r: string, other: string)
    requires EndsInSlash(q) && EndsInSlash(r) && NoSlash(code) && NoSlash(other)
    requires q + code + "/" == r + other + "/"
    ensures code == other
  {
    var s, t := q + code + "/", r + other + "/";
    assert s[|q| - 1] == '/' && t[|r| - 1] == '/';
    assert forall i :: |q| <= i < |q| + |code| ==> s[i] == code[i - |q|];
    assert forall i :: |r| <= i < |r| + |other| ==> t[i] == other[i - |r|];
    assert |q| == |r|;
    assert code == s[|q|..|s| - 1] && other == t[|r|..|t| - 1];
  }

  lemma {:induction false} PathShape(org: seq<Department>, rank: seq<nat>, d: nat)
    requires IsForest(org, rank) && d < |org|
    ensures EndsInSlash(PathOf(org, rank, d)) && |PathOf(org, rank, d)| >= 2
    decreases rank[d]
  {
    if org[d].parent.Some? {
      PathShape(org, rank, org[d].parent.value);
    }
  }

  lemma {:induction false} AncestorIsPrefix(org: seq<Department>, rank: seq<nat>, a: nat, d: nat)
    requires IsForest(org, rank) && a < |org| && d < |org| && Above(org, rank, a, d)
    ensures PathOf(org, rank, a) <= PathOf(org, rank, d)
    decreases rank[d]
  {
    if a != d {
      AncestorIsPrefix(org, rank, a, org[d].parent.value);
    }
  }

  lemma {:induction false} PrefixIsAncestor(org: seq<Department>, rank: seq<nat>, a: nat, d: nat)
    requires IsForest(org, rank) && CodesOk(org) && a < |org| && d < |org|
    requires PathOf(org, rank, a) <= PathOf(org, rank, d)
    ensures Above(org, rank, a, d)
    decreases rank[d]
  {
    var p := PathOf(org, rank, a);
    var q := if org[d].parent.Some? then PathOf(org, rank, org[d].parent.value) else "/";
    PathShape(org, rank, a);
    if org[d].parent.Some? {
      PathShape(org, rank, org[d].parent.value);
    }
    PrefixStopsAtSlash(p, q, org[d].code);
    if p <= q {
      assert org[d].parent.Some?;
      PrefixIsAncestor(org, rank, a, org[d].parent.value);
    } else {
      var r := if org[a].parent.Some? then PathOf(org, rank, org[a].parent.value) else "/";
      if org[a].parent.Some? {
        PathShape(org, rank, org[a].parent.value);
      }
      LastSegment(r, org[a].code, q, org[d].code);
    }
  }

  /** In every forest with unique slash-free codes the indexed prefix query returns
      exactly the department and its descendants. */
  lemma PrefixIffAncestor(org: seq<Department>, rank: seq<nat>, a: nat, d: nat)
    requires IsForest(org, rank) && CodesOk(org) && a < |org| && d < |org|
    ensures PathOf(org, rank, a) <= PathOf(org, rank, d) <==> Above(org, rank, a, d)
  {
    if Above(org, rank, a, d) {
      AncestorIsPrefix(org, rank, a, d);
    }
    if PathOf(org, rank, a) <= PathOf(org, rank, d) {
      PrefixIsAncestor(org, rank, a, d);
    }
  }

  function TwoRoots(x: string, y: string): seq<Department> { [Department(x, None), Department(y, None)] }

  /** The trailing slash does its job only for slash-free codes: whatever x and y, a root
      coded x/y falls into the subtree of the root coded x. */
  lemma SlashInCodeLeaksIntoSubtree(x: string, y: string)
    ensures var org, rank := TwoRoots(x, x + "/" + y), [0, 0];
            && IsForest(org, rank) && CodesUnique(org)
            && PathOf(org, rank, 0) <= PathOf(org, rank, 1) && !Above(org, rank, 0, 1)
  {
    var org, rank := TwoRoots(x, x + "/" + y), [0, 0];
    assert PathOf(org, rank, 0) == "/" + x + "/" && PathOf(org, rank, 1) == "/" + (x + "/" + y) + "/";
    assert PathOf(org, rank, 1) == "/" + x + "/" + (y + "/");
    assert |org[1].code| > |org[0].code|;
  }

  /** Every prefix query of the forest returns a department and its descendants. */
  ghost predicate QueriesExact(org: seq<Department>, rank: seq<nat>)
    requires IsForest(org, rank)
  {
    forall a, d :: 0 <= a < |org| && 0 <= d < |org| ==>
      (PathOf(org, rank, a) <= PathOf(org, rank, d) <==> Above(org, rank, a, d))
  }

  /** c among any other unique codes that hold no slash. */
  ghost predicate SafeCode(c: string) {
    forall org: seq<Department>, rank: seq<nat> ::
      IsForest(org, rank) && CodesOkBut(org, c) ==> QueriesExact(org, rank)
  }

  ghost predicate CodesOkBut(org: seq<Department>, c: string) {
    CodesUnique(org) && forall k :: 0 <= k < |org| ==> org[k].code == c || NoSlash(org[k].code)
  }

  /** A code keeps the prefix query exact, wherever it is put, exactly when it has no slash. */
  lemma CodeIsSafeIff(c: string)
    ensures SafeCode(c) <==> NoSlash(c)
  {
    if NoSlash(c) {
      forall org: seq<Department>, rank: seq<nat> | IsForest(org, rank) && CodesOkBut(org, c)
        ensures QueriesExact(org, rank)
      {
        forall a, d | 0 <= a < |org| && 0 <= d < |org|
          ensures PathOf(org, rank, a) <= PathOf(org, rank, d) <==> Above(org, rank, a, d)
        {
          PrefixIffAncestor(org, rank, a, d);
        }
      }
    } else {
      var i := FirstSlash(c);
      var x, y := c[..i], c[i + 1..];
      assert c == x + "/" + y;
      SlashInCodeLeaksIntoSubtree(x, y);
      var org, rank := TwoRoots(x, c), [0, 0];
      assert IsForest(org, rank) && !QueriesExact(org, rank);
    }
  }

  function FirstSlash(c: string): (i: nat)
    requires !NoSlash(c)
    ensures i < |c| && c[i] == '/' && NoSlash(c[..i])
  {
    if c[0] == '/' then 0
    else
      assert !NoSlash(c[1..]) by {
        var k :| 0 <= k < |c| && c[k] == '/';
        assert c[1..][k - 1] == '/';
      }
      var k := FirstSlash(c[1..]);
      assert c[..k + 1] == [c[0]] + c[1..][..k];
      k + 1
  }

  // ----- rebuilding the column -----

  function Rebuild(org: seq<Department>, paths: seq<string>, order: seq<nat>): (r: seq<string>)
    requires |paths| == |org|
    requires forall d :: 0 <= d < |org| && org[d].parent.Some? ==> org[d].parent.value < |org|
    requires forall k :: 0 <= k < |order| ==> order[k] < |org|
    ensures |r| == |org|
  {
    if |order| == 0 then paths
    else
      var before := Rebuild(org, paths, order[..|order| - 1]);
      before[order[|order| - 1] := BuildPath(org, before, order[|order| - 1])]
  }

  ghost predicate ParentFirst(org: seq<Department>, order: seq<nat>) {
    forall k :: 0 <= k < |order| ==>
      order[k] < |org| && (org[order[k]].parent.Some? ==> org[order[k]].parent.value in order[..k])
  }

  lemma BuildFromCorrectParent(org: seq<Department>, rank: seq<nat>, paths: seq<string>, d: nat)
    requires IsForest(org, rank) && d < |org| == |paths|
    requires org[d].parent.Some? ==> paths[org[d].parent.value] == PathOf(org, rank, org[d].parent.value)
    ensures BuildPath(org, paths, d) == PathOf(org, rank, d)
  {
    if org[d].parent.Some? {
      PathShape(org, rank, org[d].parent.value);
    }
  }

  /** One parent-first pass repairs the listed departments whatever the column held. */
  lemma {:induction false} ParentFirstPassRepairs(org: seq<Department>, rank: seq<nat>, paths: seq<string>,
                                                  order: seq<nat>)
    requires IsForest(org, rank) && |paths| == |org| && ParentFirst(org, order)
    ensures forall d :: d in order ==> d < |org| && Rebuild(org, paths, order)[d] == PathOf(org, rank, d)
  {
    if |order| > 0 {
      var front, last := order[..|order| - 1], order[|order| - 1];
      assert forall k :: 0 <= k < |front| ==> front[..k] == order[..k];
      ParentFirstPassRepairs(org, rank, paths, front);
      BuildFromCorrectParent(org, rank, Rebuild(org, paths, front), last);
      assert order == front + [last];
    }
  }

  /** So after one such pass over all departments the indexed query, run on the stored
      column, returns exactly the subtree. */
  lemma SubtreeQueryIsExact(org: seq<Department>, rank: seq<nat>, paths: seq<string>, order: seq<nat>, a: nat, d: nat)
    requires IsForest(org, rank) && CodesOk(org) && |paths| == |org| && ParentFirst(org, order)
    requires a in order && d in order
    ensures a < |org| && d < |org|
    ensures var column := Rebuild(org, paths, order);
            SubtreePrefix(org, column, a) <= column[d] <==> Above(org, rank, a, d)
  {
    ParentFirstPassRepairs(org, rank, paths, order);
    PathShape(org, rank, a);
    PrefixIffAncestor(org, rank, a, d);
  }

  ghost function Depth(org: seq<Department>, rank: seq<nat>, d: nat): nat
    requires IsForest(org, rank) && d < |org|
    decreases rank[d]
  {
    if org[d].parent.Some? then 1 + Depth(org, rank, org[d].parent.value) else 0
  }

  ghost predicate CorrectBelow(org: seq<Department>, rank: seq<nat>, paths: seq<string>, n: nat)
    requires IsForest(org, rank) && |paths| == |org|
  {
    forall d :: 0 <= d < |org| && Depth(org, rank, d) < n ==> paths[d] == PathOf(org, rank, d)
  }

  lemma {:induction false} PassDeepens(org: seq<Department>, rank: seq<nat>, paths: seq<string>, order: seq<nat>,
                                       n: nat)
    requires IsForest(org, rank) && |paths| == |org| && forall k :: 0 <= k < |order| ==> order[k] < |org|
    requires CorrectBelow(org, rank, paths, n)
    ensures CorrectBelow(org, rank, Rebuild(org, paths, order), n)
    ensures forall d :: d in order && Depth(org, rank, d) <= n ==> Rebuild(org, paths, order)[d] == PathOf(org, rank, d)
  {
    if |order| > 0 {
      var front, last := order[..|order| - 1], order[|order| - 1];
      PassDeepens(org, rank, paths, front, n);
      assert order == front + [last];
      if Depth(org, rank, last) <= n {
        BuildFromCorrectParent(org, rank, Rebuild(org, paths, front), last);
      }
    }
  }

  function Passes(org: seq<Department>, paths: seq<string>, order: seq<nat>, n: nat): (r: seq<string>)
    requires |paths| == |org|
    requires forall d :: 0 <= d < |org| && org[d].parent.Some? ==> org[d].parent.value < |org|
    requires forall k :: 0 <= k < |order| ==> order[k] < |org|
    ensures |r| == |org|
  {
    if n == 0 then paths else Rebuild(org, Passes(org, paths, order, n - 1), order)
  }

  /** In an arbitrary order each full pass repairs one more level: n passes make every
      department of depth below n right. */
  lemma {:induction false} EveryPassRepairsOneLevel(org: seq<Department>, rank: seq<nat>, paths: seq<string>,
                                                    order: seq<nat>, n: nat)
    requires IsForest(org, rank) && |paths| == |org| && forall k :: 0 <= k < |order| ==> order[k] < |org|
    requires forall d :: 0 <= d < |org| ==> d in order
    ensures CorrectBelow(org, rank, Passes(org, paths, order, n), n)
  {
    if n > 0 {
      EveryPassRepairsOneLevel(org, rank, paths, order, n - 1);
      PassDeepens(org, rank, Passes(org, paths, order, n - 1), order, n - 1);
    }
  }

  /** Order matters within a single pass: child first over a blank column files the
      child as a root. */
  lemma ChildFirstFilesChildAsRoot()
    ensures var org := [Department("p", None), Department("c", Some(0))];
            && IsForest(org, [0, 1]) && Rebuild(org, ["", ""], [1, 0]) == ["/p/", "/c/"]
            && PathOf(org, [0, 1], 1) == "/p/c/"
  {
    var org := [Department("p", None), Department("c", Some(0))];
    assert [1, 0][..1] == [1] && [1][..0] == [];
    assert BuildPath(org, ["", ""], 1) == "/c/";
    assert Rebuild(org, ["", ""], [1][..0]) == ["", ""];
    assert Rebuild(org, ["", ""], [1]) == ["", ""][1 := "/c/"] == ["", "/c/"];
    assert BuildPath(org, ["", "/c/"], 0) == "/p/";
    assert PathOf(org, [0, 1], 0) == "/p/";
    assert PathOf(org, [0, 1], 1) == "/p/" + "c" + "/";
  }
}
