/** Largest-remainder apportionment of an amount over weights. */
module Allocation {
  import opened Money
  import opened Sums
  import Scaled

  // ----- shares as numerators over one positive denominator -----

  /** The sign of the weight total, folded into the numerators. */
  function Numerators(total: int, weights: seq<int>): (num: seq<int>)
    ensures |num| == |weights|
  {
    seq(|weights|, i requires 0 <= i < |weights| =>
      if Sum(weights) > 0 then total * weights[i] else -(total * weights[i]))
  }

  /** In minor units, share i is exactly Numerators[i] / Denominator. */
  function Denominator(weights: seq<int>, unit: int): (den: int)
    requires Sum(weights) != 0 && unit > 0
    ensures den > 0
  {
    Scaled.Positive(Abs(Sum(weights)), unit);
    Abs(Sum(weights)) * unit
  }

  function Floors(num: seq<int>, den: int): (f: seq<int>)
    requires den > 0
    ensures |f| == |num|
  {
    seq(|num|, i requires 0 <= i < |num| => Truncate(num[i], den))
  }

  function Remainders(num: seq<int>, den: int): (r: seq<int>)
    requires den > 0
    ensures |r| == |num|
  {
    seq(|num|, i requires 0 <= i < |num| => num[i] - Truncate(num[i], den) * den)
  }

  // ----- the order in which leftover units are handed out -----

  /** i is served before j: larger remainder first, earlier index on a tie. */
  predicate Precedes(keys: seq<int>, i: nat, j: nat)
    requires i < |keys| && j < |keys|
  {
    keys[i] > keys[j] || (keys[i] == keys[j] && i < j)
  }

  ghost predicate IsOrder(keys: seq<int>, n: nat, order: seq<nat>)
    requires n <= |keys|
  {
    && |order| == n
    && (forall a :: 0 <= a < n ==> order[a] < n)
    && (forall a, b :: 0 <= a < b < n ==> Precedes(keys, order[a], order[b]))
    && (forall i :: 0 <= i < n ==> i in order)
  }

  /** Where x goes: after every earlier index whose key is at least its own. */
  function Place(keys: seq<int>, order: seq<nat>, x: nat, at: nat): (p: nat)
    requires x < |keys| && IsOrder(keys, x, order) && at <= |order|
    requires forall a :: at <= a < |order| ==> keys[order[a]] < keys[x]
    ensures p <= |order|
    ensures forall a :: 0 <= a < |order| ==> (a < p <==> keys[order[a]] >= keys[x])
  {
    if at == 0 then 0
    else if keys[order[at - 1]] >= keys[x] then
      assert forall a :: 0 <= a < at - 1 ==> Precedes(keys, order[a], order[at - 1]);
      at
    else Place(keys, order, x, at - 1)
  }

  function Insert(order: seq<nat>, x: nat, p: nat): (r: seq<nat>)
    requires p <= |order|
    ensures |r| == |order| + 1
    ensures forall a :: 0 <= a < |r| ==> r[a] == if a < p then order[a] else if a == p then x else order[a - 1]
  {
    order[..p] + [x] + order[p..]
  }

  /** sorted(range(n), key=keys, reverse=True): a stable descending sort. */
  function ByRemainder(keys: seq<int>, n: nat): (order: seq<nat>)
    requires n <= |keys|
    ensures IsOrder(keys, n, order)
  {
    if n == 0 then []
    else
      var rest := ByRemainder(keys, n - 1);
      var p := Place(keys, rest, n - 1, |rest|);
      InsertKeepsOrder(keys, rest, n - 1, p);
      Insert(rest, n - 1, p)
  }

  lemma InsertKeepsOrder(keys: seq<int>, order: seq<nat>, x: nat, p: nat)
    requires x < |keys| && IsOrder(keys, x, order) && p <= |order|
    requires forall a :: 0 <= a < |order| ==> (a < p <==> keys[order[a]] >= keys[x])
    ensures IsOrder(keys, x + 1, Insert(order, x, p))
  {
    var r := Insert(order, x, p);
    forall a, b | 0 <= a < b < x + 1 ensures Precedes(keys, r[a], r[b]) {
      if a < p && p < b {
        assert Precedes(keys, order[a], order[b - 1]);
      }
    }
    forall i | 0 <= i < x + 1 ensures i in r {
      if i == x {
        assert r[p] == x;
      } else {
        assert i in order;
        var a :| 0 <= a < |order| && order[a] == i;
        assert r[if a < p then a else a + 1] == i;
      }
    }
  }

  // ----- the allocation, in minor units -----

  function Indicator(n: nat, chosen: seq<nat>): (s: seq<int>)
    ensures |s| == n
  {
    seq(n, i requires 0 <= i < n => if i in chosen then 1 else 0)
  }

  /** How many leftover units there are to hand out. */
  function Residual(num: seq<int>, den: int, target: int): int
    requires den > 0
  {
    target - Sum(Floors(num, den))
  }

  /** The first `count` places of the order get one unit on top of their floor. */
  function Apportion(floors: seq<int>, rems: seq<int>, count: nat): (units: seq<int>)
    requires count <= |floors| == |rems|
    ensures |units| == |floors|
  {
    var order := ByRemainder(rems, |rems|);
    seq(|floors|, i requires 0 <= i < |floors| => floors[i] + if i in order[..count] then 1 else 0)
  }

  function Units(total: int, weights: seq<int>, unit: int): (units: seq<int>)
    requires Sum(weights) != 0 && unit > 0
    ensures |units| == |weights|
  {
    var num, den := Numerators(total, weights), Denominator(weights, unit);
    var residual := Residual(num, den, RoundHalfUp(total, unit));
    ResidualIsSmall(total, weights, unit);
    Apportion(Floors(num, den), Remainders(num, den), if residual > 0 then residual else 0)
  }

  // ----- facts about floors and remainders -----

  lemma TruncateParts(n: int, d: int)
    requires d > 0
    ensures n >= 0 ==> 0 <= n - Truncate(n, d) * d < d && Truncate(n, d) >= 0
    ensures n <= 0 ==> -d < n - Truncate(n, d) * d <= 0 && Truncate(n, d) <= 0
  {
    Scaled.DivMod(n, d);
    Scaled.DivMod(-n, d);
    if n >= 0 {
      Scaled.NonNegative(n / d, d);
    } else {
      Scaled.NonNegative(-n / d, d);
      assert (-(-n / d)) * d == -((-n / d) * d);
    }
  }

  /** The micro-units that truncation drops, over all shares together. */
  function Dropped(total: int, weights: seq<int>, unit: int): int
    requires Sum(weights) != 0 && unit > 0
  {
    total - Sum(Floors(Numerators(total, weights), Denominator(weights, unit))) * unit
  }

  lemma NumeratorTotal(total: int, weights: seq<int>)
    requires Sum(weights) != 0
    ensures Sum(Numerators(total, weights)) == total * Abs(Sum(weights))
  {
    var num := Numerators(total, weights);
    var signed := if Sum(weights) > 0 then total else -total;
    var zeros := seq(|weights|, i => 0);
    forall i | 0 <= i < |num| ensures num[i] == signed * weights[i] + zeros[i] {
      Scaled.Negate(total, weights[i]);
    }
    SumLinear(num, signed, weights, zeros);
    SumZero(zeros);
    Scaled.Negate(total, Sum(weights));
  }

  lemma FloorsAndRemainders(num: seq<int>, den: int)
    requires den > 0
    ensures Sum(num) == den * Sum(Floors(num, den)) + Sum(Remainders(num, den))
  {
    var floors, rems := Floors(num, den), Remainders(num, den);
    forall i | 0 <= i < |num| ensures num[i] == den * floors[i] + rems[i] {}
    SumLinear(num, den, floors, rems);
  }

  lemma DroppedIsSumOfRemainders(total: int, weights: seq<int>, unit: int)
    requires Sum(weights) != 0 && unit > 0
    ensures Sum(Remainders(Numerators(total, weights), Denominator(weights, unit)))
         == Dropped(total, weights, unit) * Abs(Sum(weights))
  {
    var num, den := Numerators(total, weights), Denominator(weights, unit);
    NumeratorTotal(total, weights);
    FloorsAndRemainders(num, den);
    Scaled.Regroup(total, Sum(Floors(num, den)), unit, Abs(Sum(weights)));
  }

  lemma RemaindersAreSmall(num: seq<int>, den: int)
    requires den > 0 && |num| > 0
    ensures -(den * |num|) < Sum(Remainders(num, den)) < den * |num|
  {
    var rems := Remainders(num, den);
    forall i | 0 <= i < |rems| ensures -(den - 1) <= rems[i] <= den - 1 {
      TruncateParts(num[i], den);
    }
    SumBound(rems, -(den - 1), den - 1);
    Scaled.Distribute(den, 1, |num|);
    Scaled.Negate(den - 1, |num|);
  }

  lemma DroppedIsSmall(total: int, weights: seq<int>, unit: int)
    requires Sum(weights) != 0 && unit > 0
    ensures -(|weights| * unit) < Dropped(total, weights, unit) < |weights| * unit
  {
    var num, den := Numerators(total, weights), Denominator(weights, unit);
    var n, w, dropped := |weights|, Abs(Sum(weights)), Dropped(total, weights, unit);
    DroppedIsSumOfRemainders(total, weights, unit);
    assert n > 0;
    RemaindersAreSmall(num, den);
    Scaled.Reorder(w, unit, n);
    if dropped >= n * unit {
      Scaled.Monotone(n * unit, dropped, w);
    } else if dropped <= -(n * unit) {
      Scaled.Monotone(dropped, -(n * unit), w);
      Scaled.Negate(n * unit, w);
    }
  }

  /** Rounding moves by at most the whole units between a count and its target. */
  lemma TargetWithin(total: int, unit: int, floors: int, n: nat)
    requires unit > 0 && total - floors * unit < n * unit
    ensures RoundHalfUp(total, unit) - floors <= n
  {
    var target := RoundHalfUp(total, unit);
    RoundHalfUpIsNearest(total, unit, target);
    if target - floors > n {
      Scaled.Step(n + floors, target, unit);
      Scaled.Distribute(n, floors, unit);
    }
  }

  /** There is never more than one leftover unit per weight. */
  lemma ResidualIsSmall(total: int, weights: seq<int>, unit: int)
    requires Sum(weights) != 0 && unit > 0
    ensures Residual(Numerators(total, weights), Denominator(weights, unit), RoundHalfUp(total, unit))
         <= |weights|
  {
    var floors := Sum(Floors(Numerators(total, weights), Denominator(weights, unit)));
    DroppedIsSmall(total, weights, unit);
    TargetWithin(total, unit, floors, |weights|);
  }
}
