/** What the largest-remainder allocation promises, and exactly when it keeps it. */
module AllocationLaws {
  import opened Money
  import opened Sums
  import opened Allocation
  import Scaled

  // ----- the in-place algorithm -----

  /** Split `total` over `weights`; None is the "zero total weight" refusal. */
  method Allocate(total: int, weights: seq<int>, currency: string) returns (parts: Option<seq<int>>)
    ensures parts.None? <==> Sum(weights) == 0
    ensures parts.Some? ==>
              var unit := MinorUnit(currency);
              && |parts.value| == |weights|
              && forall k :: 0 <= k < |weights| ==> parts.value[k] == Units(total, weights, unit)[k] * unit
  {
    if Sum(weights) == 0 {
      return None;
    }
    var unit, n := MinorUnit(currency), |weights|;
    var num, den := Numerators(total, weights), Denominator(weights, unit);
    var floors, keys := Floors(num, den), Remainders(num, den);
    var floored := new int[n](i requires 0 <= i < n => floors[i] * unit);
    var residual := Quantize(total, unit) - Sum(floored[..]);
    ghost var count := Residual(num, den, RoundHalfUp(total, unit));
    ResidualIsSmall(total, weights, unit);
    ResidualInMicros(floors, unit, floored[..], RoundHalfUp(total, unit));
    HandOut(floored, ByRemainder(keys, n), residual, unit, floors, keys, count);
    return Some(floored[..]);
  }

  /** One minor unit at a time to the front of the order, in place. */
  method HandOut(floored: array<int>, order: seq<nat>, due: int, unit: int,
                 ghost floors: seq<int>, ghost keys: seq<int>, ghost count: int)
    requires unit > 0 && floored.Length == |floors| == |keys| && order == ByRemainder(keys, |keys|)
    requires count <= |floors| && due == count * unit
    requires forall k :: 0 <= k < |floors| ==> floored[k] == floors[k] * unit
    modifies floored
    ensures forall k :: 0 <= k < |floors| ==>
              floored[k] == Apportion(floors, keys, if count > 0 then count else 0)[k] * unit
  {
    var residual, i := due, 0;
    ghost var left := count;
    while residual > 0 && |order| > 0
      invariant 0 <= i <= |order| && left == count - i && (i > 0 ==> left >= 0)
      invariant residual == left * unit
      invariant Scales(floored[..], Apportion(floors, keys, i), unit)
      decreases residual
    {
      Scaled.LeftPositive(left, unit);
      Scaled.SmallMod(i, |order|);
      var at := order[i % |order|];
      ghost var before := floored[..];
      NextInLine(floors, keys, i);
      OneUnitMore(before, Apportion(floors, keys, i), Apportion(floors, keys, i + 1), at, unit);
      Scaled.Distribute(left, 1, unit);
      left := left - 1;
      floored[at] := floored[at] + unit;
      assert floored[..] == before[at := before[at] + unit];
      residual := residual - unit;
      i := i + 1;
    }
    if residual <= 0 {
      Scaled.LeftNonPositive(left, unit);
    }
  }

  /** parts are the units, in micro-units. */
  ghost predicate Scales(parts: seq<int>, units: seq<int>, unit: int) {
    |parts| == |units| && forall k :: 0 <= k < |units| ==> parts[k] == units[k] * unit
  }

  lemma OneUnitMore(parts: seq<int>, before: seq<int>, after: seq<int>, at: nat, unit: int)
    requires at < |parts| && Scales(parts, before, unit) && |after| == |before|
    requires forall k :: 0 <= k < |before| ==> after[k] == before[k] + if k == at then 1 else 0
    ensures Scales(parts[at := parts[at] + unit], after, unit)
  {
    Scaled.Distribute(before[at], 1, unit);
    assert after[at] == before[at] + 1;
  }

  lemma PlacesAreDistinct(rems: seq<int>, order: seq<nat>, i: nat)
    requires IsOrder(rems, |rems|, order) && i < |rems|
    ensures order[i] !in order[..i]
  {
    forall a | 0 <= a < i ensures order[a] != order[i] {
      assert Precedes(rems, order[a], order[i]);
    }
  }

  lemma OneMorePlace(order: seq<nat>, i: nat, k: nat)
    requires i < |order|
    ensures k in order[..i + 1] <==> k in order[..i] || k == order[i]
  {
    assert order[..i + 1] == order[..i] + [order[i]];
  }

  /** Serving one more place raises that place and no other. */
  lemma NextInLine(floors: seq<int>, rems: seq<int>, i: nat)
    requires i < |floors| == |rems|
    ensures var at := ByRemainder(rems, |rems|)[i];
            && at < |floors|
            && forall k :: 0 <= k < |floors| ==>
                 Apportion(floors, rems, i + 1)[k] == Apportion(floors, rems, i)[k] + if k == at then 1 else 0
  {
    var order := ByRemainder(rems, |rems|);
    PlacesAreDistinct(rems, order, i);
    var before, after := Apportion(floors, rems, i), Apportion(floors, rems, i + 1);
    forall k | 0 <= k < |floors| ensures after[k] == before[k] + if k == order[i] then 1 else 0 {
      OneMorePlace(order, i, k);
    }
  }

  lemma ResidualInMicros(floors: seq<int>, unit: int, floored: seq<int>, target: int)
    requires |floored| == |floors| && forall i :: 0 <= i < |floors| ==> floored[i] == floors[i] * unit
    ensures target * unit - Sum(floored) == (target - Sum(floors)) * unit
  {
    ScaledSum(floors, unit, floored);
    Scaled.Distribute(target, Sum(floors), unit);
  }

  lemma {:induction false} ScaledSum(a: seq<int>, k: int, b: seq<int>)
    requires |a| == |b| && forall i :: 0 <= i < |a| ==> b[i] == a[i] * k
    ensures Sum(b) == Sum(a) * k
  {
    if |a| > 0 {
      ScaledSum(a[..|a| - 1], k, b[..|a| - 1]);
      Scaled.Distribute(Sum(a[..|a| - 1]), a[|a| - 1], k);
    }
  }

  // ----- an independent description of the result -----

  /** Every share is its floor or one unit more, `count` units are handed out in
      all, and whoever gets one precedes whoever does not. */
  ghost predicate LargestRemainder(floors: seq<int>, rems: seq<int>, units: seq<int>, count: nat)
    requires |floors| == |rems|
  {
    && |units| == |floors|
    && (forall i :: 0 <= i < |floors| ==> units[i] == floors[i] || units[i] == floors[i] + 1)
    && Sum(units) == Sum(floors) + count
    && (forall i, j :: 0 <= i < |floors| && 0 <= j < |floors| && units[i] > floors[i] && units[j] == floors[j]
                       ==> Precedes(rems, i, j))
  }

  lemma {:induction false} IndicatorSum(keys: seq<int>, n: nat, order: seq<nat>, k: nat)
    requires n <= |keys| && IsOrder(keys, n, order) && k <= n
    ensures Sum(Indicator(n, order[..k])) == k
  {
    if k == 0 {
      SumZero(Indicator(n, order[..0]));
    } else {
      IndicatorSum(keys, n, order, k - 1);
      var before, x := Indicator(n, order[..k - 1]), order[k - 1];
      assert order[..k] == order[..k - 1] + [x];
      assert x !in order[..k - 1];
      SumUpdate(before, x, 1);
      assert Indicator(n, order[..k]) == before[x := 1];
    }
  }

  lemma ApportionIsLargestRemainder(floors: seq<int>, rems: seq<int>, count: nat)
    requires count <= |floors| == |rems|
    ensures LargestRemainder(floors, rems, Apportion(floors, rems, count), count)
  {
    var order, units := ByRemainder(rems, |rems|), Apportion(floors, rems, count);
    IndicatorSum(rems, |rems|, order, count);
    SumLinear(units, 1, Indicator(|rems|, order[..count]), floors);
    forall i, j | 0 <= i < |floors| && 0 <= j < |floors| && units[i] > floors[i] && units[j] == floors[j]
      ensures Precedes(rems, i, j)
    {
      assert i in order && j in order && i in order[..count] && j !in order[..count];
      assert forall a :: 0 <= a < count ==> order[..count][a] == order[a];
      var a :| 0 <= a < count && order[a] == i;
      var b :| 0 <= b < |floors| && order[b] == j;
    }
  }

  lemma NoTrade(floors: seq<int>, rems: seq<int>, p: seq<int>, q: seq<int>, count: nat, i: nat, j: nat)
    requires |floors| == |rems| && i < |rems| && j < |rems|
    requires LargestRemainder(floors, rems, p, count) && LargestRemainder(floors, rems, q, count)
    ensures p[i] <= q[i] || q[j] <= p[j]
  {
    if p[i] == floors[i] + 1 && q[i] == floors[i] && q[j] == floors[j] + 1 {
      assert p[j] == floors[j] ==> Precedes(rems, i, j);
    }
  }

  /** The description determines the result: no two lists satisfy it. */
  lemma LargestRemainderIsUnique(floors: seq<int>, rems: seq<int>, p: seq<int>, q: seq<int>, count: nat)
    requires |floors| == |rems|
    requires LargestRemainder(floors, rems, p, count) && LargestRemainder(floors, rems, q, count)
    ensures p == q
  {
    forall i, j | 0 <= i < |rems| && 0 <= j < |rems| ensures p[i] <= q[i] || q[j] <= p[j] {
      NoTrade(floors, rems, p, q, count, i, j);
    }
    if forall i :: 0 <= i < |p| ==> p[i] <= q[i] {
      SumMonotone(p, q);
    } else {
      SumMonotone(q, p);
    }
  }

  /** What the allocation of any total over any weights is. */
  ghost predicate IsAllocation(total: int, weights: seq<int>, unit: int, units: seq<int>)
    requires Sum(weights) != 0 && unit > 0
  {
    var num, den := Numerators(total, weights), Denominator(weights, unit);
    var residual := Residual(num, den, RoundHalfUp(total, unit));
    LargestRemainder(Floors(num, den), Remainders(num, den), units, if residual > 0 then residual else 0)
  }

  lemma UnitsAreLargestRemainder(total: int, weights: seq<int>, unit: int, units: seq<int>)
    requires Sum(weights) != 0 && unit > 0
    ensures units == Units(total, weights, unit) <==> IsAllocation(total, weights, unit, units)
  {
    var num, den := Numerators(total, weights), Denominator(weights, unit);
    var floors, rems := Floors(num, den), Remainders(num, den);
    var residual := Residual(num, den, RoundHalfUp(total, unit));
    ResidualIsSmall(total, weights, unit);
    var count := if residual > 0 then residual else 0;
    ApportionIsLargestRemainder(floors, rems, count);
    if LargestRemainder(floors, rems, units, count) {
      LargestRemainderIsUnique(floors, rems, units, Apportion(floors, rems, count), count);
    }
  }

  // ----- conservation -----

  /** The allocated parts add up to the rounded total. */
  ghost predicate Conserves(total: int, weights: seq<int>, unit: int)
    requires Sum(weights) != 0 && unit > 0
  {
    Sum(Units(total, weights, unit)) * unit == Quantize(total, unit)
  }

  /** For every input: conserved exactly when truncation did not overshoot the
      rounded total, which is when the hand-out loop's guard can be reached. */
  lemma ConservedIffNoOvershoot(total: int, weights: seq<int>, unit: int)
    requires Sum(weights) != 0 && unit > 0
    ensures Conserves(total, weights, unit) <==>
            Sum(Floors(Numerators(total, weights), Denominator(weights, unit))) <= RoundHalfUp(total, unit)
  {
    UnitsAreLargestRemainder(total, weights, unit, Units(total, weights, unit));
    var a, b := Sum(Units(total, weights, unit)), RoundHalfUp(total, unit);
    if a < b {
      Scaled.Step(a, b, unit);
    } else if b < a {
      Scaled.Step(b, a, unit);
    }
  }

  /** `sum(result) == total`, the promise itself: kept exactly when the parts add up to the
      rounded total and the total was whole minor units to begin with. */
  lemma SumEqualsTotalIff(total: int, weights: seq<int>, unit: int)
    requires Sum(weights) != 0 && unit > 0
    ensures Sum(Units(total, weights, unit)) * unit == total
            <==> (total % unit == 0
                  && Sum(Floors(Numerators(total, weights), Denominator(weights, unit))) <= total / unit)
  {
    var sum := Sum(Units(total, weights, unit));
    ConservedIffNoOvershoot(total, weights, unit);
    QuantizeFixesWholeUnits(total, unit);
    Scaled.DivMod(total, unit);
    if total % unit == 0 {
      RoundingMultiple(total / unit, unit);
      if sum * unit == total {
        Scaled.Unique(total, unit, sum, 0);
      }
    } else if sum * unit == total {
      Scaled.Unique(total, unit, sum, 0);
    }
  }

  /** For shares of one sign, non-negative: exactly the totals in whole minor units. */
  lemma NonNegativeSumEqualsTotalIff(total: int, weights: seq<int>, unit: int)
    requires Sum(weights) != 0 && unit > 0 && SharesNonNegative(total, weights)
    ensures Sum(Units(total, weights, unit)) * unit == total <==> total % unit == 0
  {
    NonNegativeSharesConserve(total, weights, unit);
    ConservedIffNoOvershoot(total, weights, unit);
    SumEqualsTotalIff(total, weights, unit);
    if total % unit == 0 {
      Scaled.DivMod(total, unit);
      RoundingMultiple(total / unit, unit);
    }
  }

  /** 0.005 over one weight at two decimals comes back as 0.01. */
  lemma HalfCentGrows()
    ensures Sum([1]) == 1 && Conserves(5_000, [1], 10_000) && Sum(Units(5_000, [1], 10_000)) * 10_000 == 10_000
  {
    SumSnoc([], 1);
    assert [] + [1] == [1];
    assert Numerators(5_000, [1])[0] == 5_000;
    NonNegativeSharesConserve(5_000, [1], 10_000);
    assert RoundHalfUp(5_000, 10_000) == 1;
  }

  ghost predicate SharesNonNegative(total: int, weights: seq<int>) {
    forall i :: 0 <= i < |weights| ==> Numerators(total, weights)[i] >= 0
  }

  ghost predicate SharesNonPositive(total: int, weights: seq<int>) {
    forall i :: 0 <= i < |weights| ==> Numerators(total, weights)[i] <= 0
  }

  lemma DroppedSign(total: int, weights: seq<int>, unit: int)
    requires Sum(weights) != 0 && unit > 0
    ensures SharesNonNegative(total, weights) ==> Dropped(total, weights, unit) >= 0
    ensures SharesNonPositive(total, weights) ==> Dropped(total, weights, unit) <= 0
  {
    var num, den := Numerators(total, weights), Denominator(weights, unit);
    var rems, zeros := Remainders(num, den), seq(|weights|, i => 0);
    var w, dropped := Abs(Sum(weights)), Dropped(total, weights, unit);
    DroppedIsSumOfRemainders(total, weights, unit);
    SumZero(zeros);
    if SharesNonNegative(total, weights) {
      forall i | 0 <= i < |rems| ensures zeros[i] <= rems[i] { TruncateParts(num[i], den); }
      SumMonotone(zeros, rems);
      Scaled.NonNegative(dropped, w);
    }
    if SharesNonPositive(total, weights) {
      forall i | 0 <= i < |rems| ensures rems[i] <= zeros[i] { TruncateParts(num[i], den); }
      SumMonotone(rems, zeros);
      Scaled.Negate(dropped, w);
      Scaled.NonNegative(-dropped, w);
    }
  }

  /** "Zero cent leakage" for every total and weights of one sign. */
  lemma NonNegativeSharesConserve(total: int, weights: seq<int>, unit: int)
    requires Sum(weights) != 0 && unit > 0 && SharesNonNegative(total, weights)
    ensures Conserves(total, weights, unit)
  {
    var floors := Sum(Floors(Numerators(total, weights), Denominator(weights, unit)));
    DroppedSign(total, weights, unit);
    RoundHalfUpIsNearest(total, unit, RoundHalfUp(total, unit));
    if RoundHalfUp(total, unit) < floors {
      Scaled.Step(RoundHalfUp(total, unit), floors, unit);
      assert false;
    }
    ConservedIffNoOvershoot(total, weights, unit);
  }

  /** Negative totals (a refund, a credit) are conserved exactly when the dropped
      fractions add up to less than half a minor unit. */
  lemma NonPositiveSharesConserveIff(total: int, weights: seq<int>, unit: int)
    requires Sum(weights) != 0 && unit > 0 && SharesNonPositive(total, weights)
    ensures Conserves(total, weights, unit) <==> 2 * Abs(Dropped(total, weights, unit)) < unit
  {
    var num, den := Numerators(total, weights), Denominator(weights, unit);
    var floors, target := Sum(Floors(num, den)), RoundHalfUp(total, unit);
    DroppedSign(total, weights, unit);
    ConservedIffNoOvershoot(total, weights, unit);
    RoundHalfUpIsNearest(total, unit, target);
    RoundHalfUpIsNearest(total, unit, floors);
    FloorsNonPositive(num, den);
    Scaled.Negate(floors, unit);
    Scaled.NonNegative2(-floors, unit);
    if target > floors {
      Scaled.Step(floors, target, unit);
      assert false;
    }
  }

  lemma FloorsNonPositive(num: seq<int>, den: int)
    requires den > 0 && forall i :: 0 <= i < |num| ==> num[i] <= 0
    ensures Sum(Floors(num, den)) <= 0
  {
    var floors, zeros := Floors(num, den), seq(|num|, i => 0);
    forall i | 0 <= i < |num| ensures floors[i] <= zeros[i] { TruncateParts(num[i], den); }
    SumMonotone(floors, zeros);
    SumZero(zeros);
  }

  lemma AllZeroIffSumZero(rems: seq<int>)
    requires forall i :: 0 <= i < |rems| ==> rems[i] <= 0
    ensures Sum(rems) == 0 <==> forall i :: 0 <= i < |rems| ==> rems[i] == 0
  {
    var zeros := seq(|rems|, i => 0);
    SumZero(zeros);
    SumMonotone(rems, zeros);
    if forall i :: 0 <= i < |rems| ==> rems[i] == 0 {
      SumZero(rems);
    }
  }

  lemma NoRemaindersIffNothingDropped(total: int, weights: seq<int>, unit: int)
    requires Sum(weights) != 0 && unit > 0 && SharesNonPositive(total, weights)
    ensures Dropped(total, weights, unit) == 0 <==>
            forall i :: 0 <= i < |weights| ==>
              Remainders(Numerators(total, weights), Denominator(weights, unit))[i] == 0
  {
    var num, den := Numerators(total, weights), Denominator(weights, unit);
    var rems := Remainders(num, den);
    DroppedIsSumOfRemainders(total, weights, unit);
    forall i | 0 <= i < |rems| ensures rems[i] <= 0 { TruncateParts(num[i], den); }
    AllZeroIffSumZero(rems);
    Scaled.SmallMultiple(Dropped(total, weights, unit), Abs(Sum(weights)));
  }

  /** A negative total already in whole minor units leaks unless every share
      comes out whole. */
  lemma NegativeWholeTotalConservesIff(total: int, weights: seq<int>, unit: int)
    requires Sum(weights) != 0 && unit > 0 && SharesNonPositive(total, weights) && total % unit == 0
    ensures Conserves(total, weights, unit) <==>
            forall i :: 0 <= i < |weights| ==>
              Remainders(Numerators(total, weights), Denominator(weights, unit))[i] == 0
  {
    var floors := Sum(Floors(Numerators(total, weights), Denominator(weights, unit)));
    NonPositiveSharesConserveIff(total, weights, unit);
    NoRemaindersIffNothingDropped(total, weights, unit);
    Scaled.DivMod(total, unit);
    Scaled.Distribute(total / unit, floors, unit);
    Scaled.SmallMultiple(total / unit - floors, unit);
  }

  lemma SumOfThree(x: int)
    ensures Sum([x, x, x]) == 3 * x
  {
    SumSnoc([x, x], x);
    SumSnoc([x], x);
    SumSnoc([], x);
    assert [x, x] + [x] == [x, x, x] && [x] + [x] == [x, x] && [] + [x] == [x];
  }

  lemma ThirdsOfMinusOne()
    ensures Sum([1, 1, 1]) == 3
    ensures var num, den := Numerators(-1_000_000, [1, 1, 1]), Denominator([1, 1, 1], 10_000);
            den == 30_000 && Floors(num, den) == [-33, -33, -33] && Remainders(num, den) == [-10_000, -10_000, -10_000]
  {
    SumOfThree(1);
    var num, den := Numerators(-1_000_000, [1, 1, 1]), Denominator([1, 1, 1], 10_000);
    assert num == [-1_000_000, -1_000_000, -1_000_000] && den == 30_000;
  }

  /** The smallest such leak: -1.00 EGP over three equal weights gives -0.99. */
  lemma NegativeTotalLeaks()
    ensures Sum([1, 1, 1]) == 3 && Units(-1_000_000, [1, 1, 1], 10_000) == [-33, -33, -33]
    ensures !Conserves(-1_000_000, [1, 1, 1], 10_000)
  {
    var total, weights, unit := -1_000_000, [1, 1, 1], 10_000;
    ThirdsOfMinusOne();
    SumOfThree(-33);
    UnitsAreLargestRemainder(total, weights, unit, [-33, -33, -33]);
  }

  // ----- optimality: no exchange of one unit helps -----

  /** How far p units are from the exact share n / den. */
  function Gap(n: int, den: int, p: int): int { Abs(p * den - n) }

  /** What one unit more, or one unit less, adds to the gap. */
  function Up(n: int, den: int, p: int): int { Gap(n, den, p + 1) - Gap(n, den, p) }
  function Down(n: int, den: int, p: int): int { Gap(n, den, p - 1) - Gap(n, den, p) }

  lemma StepsAreConvex(n: int, den: int, p: int)
    requires den > 0
    ensures Up(n, den, p) <= Up(n, den, p + 1) && Down(n, den, p) <= Down(n, den, p - 1)
    ensures Up(n, den, p) + Down(n, den, p) >= 0
    ensures Down(n, den, p + 1) == -Up(n, den, p)
  {
    var x := p * den;
    assert (p + 1) * den == x + den && (p + 2) * den == x + 2 * den;
    assert (p - 1) * den == x - den && (p - 2) * den == x - 2 * den;
  }

  lemma {:induction false} MoreCosts(n: int, den: int, p: int, k: nat, slope: int)
    requires den > 0 && slope <= Up(n, den, p)
    ensures Gap(n, den, p + k) - Gap(n, den, p) >= slope * k
    decreases k
  {
    if k > 0 {
      StepsAreConvex(n, den, p);
      MoreCosts(n, den, p + 1, k - 1, slope);
      Scaled.Distribute(k, 1, slope);
    }
  }

  lemma {:induction false} LessCosts(n: int, den: int, p: int, k: nat, slope: int)
    requires den > 0 && -slope <= Down(n, den, p)
    ensures Gap(n, den, p - k) - Gap(n, den, p) >= -(slope * k)
    decreases k
  {
    if k > 0 {
      StepsAreConvex(n, den, p);
      LessCosts(n, den, p - 1, k - 1, slope);
      Scaled.Distribute(k, 1, slope);
    }
  }

  /** At a slope between the two step costs no integer beats p. */
  lemma SlopeSupports(n: int, den: int, p: int, q: int, slope: int)
    requires den > 0 && -Down(n, den, p) <= slope <= Up(n, den, p)
    ensures Gap(n, den, q) - slope * q >= Gap(n, den, p) - slope * p
  {
    Scaled.Spread(slope, q, p);
    if q >= p {
      MoreCosts(n, den, p, q - p, slope);
    } else {
      LessCosts(n, den, p, p - q, slope);
      Scaled.Spread(slope, p, q);
    }
  }

  function Gaps(num: seq<int>, den: int, units: seq<int>): (s: seq<int>)
    requires |units| == |num|
    ensures |s| == |num| && forall i :: 0 <= i < |num| ==> s[i] == Gap(num[i], den, units[i])
  {
    seq(|num|, i requires 0 <= i < |num| => Gap(num[i], den, units[i]))
  }

  /** Total absolute deviation from the exact shares, over the common denominator. */
  function Deviation(num: seq<int>, den: int, units: seq<int>): int
    requires |units| == |num|
  {
    Sum(Gaps(num, den, units))
  }

  /** No list of whole units with the same sum deviates less. */
  ghost predicate Optimal(num: seq<int>, den: int, units: seq<int>)
    requires |units| == |num|
  {
    forall other: seq<int> :: |other| == |num| && Sum(other) == Sum(units) ==>
      Deviation(num, den, units) <= Deviation(num, den, other)
  }

  /** Taking a unit from j and giving it to i never helps. */
  ghost predicate NoExchangeHelps(num: seq<int>, den: int, units: seq<int>)
    requires |units| == |num|
  {
    forall i, j :: 0 <= i < |num| && 0 <= j < |num| ==> Up(num[i], den, units[i]) + Down(num[j], den, units[j]) >= 0
  }

  /** The deviation less slope times the units handed out. */
  function Penalties(num: seq<int>, den: int, slope: int, units: seq<int>): (s: seq<int>)
    requires |units| == |num|
    ensures |s| == |num| && forall i :: 0 <= i < |num| ==> s[i] == Gap(num[i], den, units[i]) - slope * units[i]
  {
    seq(|num|, i requires 0 <= i < |num| => Gap(num[i], den, units[i]) - slope * units[i])
  }

  lemma PenaltySum(num: seq<int>, den: int, slope: int, units: seq<int>)
    requires |units| == |num|
    ensures Sum(Penalties(num, den, slope, units)) == Deviation(num, den, units) - slope * Sum(units)
  {
    SumLess(Penalties(num, den, slope, units), Gaps(num, den, units), slope, units);
  }

  lemma SumLess(penalties: seq<int>, gaps: seq<int>, slope: int, units: seq<int>)
    requires |penalties| == |gaps| == |units|
    requires forall i :: 0 <= i < |units| ==> penalties[i] == gaps[i] - slope * units[i]
    ensures Sum(penalties) == Sum(gaps) - slope * Sum(units)
  {
    forall i | 0 <= i < |units| ensures penalties[i] == (-slope) * units[i] + gaps[i] {
      Scaled.Negate(slope, units[i]);
    }
    SumLinear(penalties, -slope, units, gaps);
    Scaled.Negate(slope, Sum(units));
  }

  lemma LeastUp(num: seq<int>, den: int, units: seq<int>) returns (at: nat)
    requires |units| == |num| > 0
    ensures at < |num| && forall i :: 0 <= i < |num| ==> Up(num[at], den, units[at]) <= Up(num[i], den, units[i])
  {
    at := 0;
    for k := 1 to |num|
      invariant at < |num| && forall i :: 0 <= i < k ==> Up(num[at], den, units[at]) <= Up(num[i], den, units[i])
    {
      if Up(num[k], den, units[k]) < Up(num[at], den, units[at]) {
        at := k;
      }
    }
  }

  lemma UnhelpedIsOptimal(num: seq<int>, den: int, units: seq<int>, other: seq<int>)
    requires den > 0 && |units| == |num| == |other| && Sum(other) == Sum(units) && NoExchangeHelps(num, den, units)
    ensures Deviation(num, den, units) <= Deviation(num, den, other)
  {
    if |num| > 0 {
      var at := LeastUp(num, den, units);
      var slope := Up(num[at], den, units[at]);
      var a, b := Penalties(num, den, slope, units), Penalties(num, den, slope, other);
      forall i | 0 <= i < |num| ensures a[i] <= b[i] {
        SlopeSupports(num[i], den, units[i], other[i], slope);
      }
      SumMonotone(a, b);
      PenaltySum(num, den, slope, units);
      PenaltySum(num, den, slope, other);
    }
  }

  lemma ExchangeDeviates(num: seq<int>, den: int, units: seq<int>, i: nat, j: nat)
    requires |units| == |num| && i < |num| && j < |num| && i != j
    ensures var other := units[i := units[i] + 1][j := units[j] - 1];
            && Sum(other) == Sum(units)
            && Deviation(num, den, other)
               == Deviation(num, den, units) + Up(num[i], den, units[i]) + Down(num[j], den, units[j])
  {
    var first := units[i := units[i] + 1];
    var other := first[j := units[j] - 1];
    SumUpdate(units, i, units[i] + 1);
    SumUpdate(first, j, units[j] - 1);
    var up, down := Gap(num[i], den, units[i] + 1), Gap(num[j], den, units[j] - 1);
    assert Gaps(num, den, first) == Gaps(num, den, units)[i := up];
    assert Gaps(num, den, other) == Gaps(num, den, first)[j := down];
    SumUpdate(Gaps(num, den, units), i, up);
    SumUpdate(Gaps(num, den, first), j, down);
  }

  /** For any list: optimal if and only if no exchange of one unit helps. */
  lemma OptimalIffNoExchangeHelps(num: seq<int>, den: int, units: seq<int>)
    requires den > 0 && |units| == |num|
    ensures Optimal(num, den, units) <==> NoExchangeHelps(num, den, units)
  {
    if NoExchangeHelps(num, den, units) {
      forall other: seq<int> | |other| == |num| && Sum(other) == Sum(units)
        ensures Deviation(num, den, units) <= Deviation(num, den, other)
      {
        UnhelpedIsOptimal(num, den, units, other);
      }
    } else {
      var i, j :| 0 <= i < |num| && 0 <= j < |num| && Up(num[i], den, units[i]) + Down(num[j], den, units[j]) < 0;
      StepsAreConvex(num[i], den, units[i]);
      ExchangeDeviates(num, den, units, i, j);
    }
  }

  // ----- what an exchange costs an allocation -----

  lemma GapOfPart(n: int, den: int, floor: int, rem: int, extra: int)
    requires n == floor * den + rem
    ensures Gap(n, den, floor + extra) == Abs(extra * den - rem)
  {
    Scaled.Distribute(floor, -extra, den);
    Scaled.Negate(extra, den);
  }

  /** i is left at its truncation or served; so is j; whoever is served has the larger
      remainder. */
  lemma ExchangeHelpsIff(n: int, floor: int, rem: int, p: int, m: int, floor': int, rem': int, q: int, den: int)
    requires n == floor * den + rem && m == floor' * den + rem' && -den < rem < den && -den < rem' < den
    requires (p == floor || p == floor + 1) && (q == floor' || q == floor' + 1)
    requires p == floor && q > floor' ==> rem' >= rem
    ensures Up(n, den, p) + Down(m, den, q) < 0 <==> p == floor && rem - rem' > den
  {
    GapOfPart(n, den, floor, rem, 0);
    GapOfPart(n, den, floor, rem, 1);
    GapOfPart(n, den, floor, rem, 2);
    GapOfPart(m, den, floor', rem', -1);
    GapOfPart(m, den, floor', rem', 0);
    GapOfPart(m, den, floor', rem', 1);
  }

  /** No share left at its truncation has a remainder larger than another's by more than
      a whole unit: computable from total and weights. */
  ghost predicate RemaindersAreClose(num: seq<int>, den: int, units: seq<int>)
    requires den > 0 && |units| == |num|
  {
    forall i, j :: 0 <= i < |num| && 0 <= j < |num| && units[i] == Floors(num, den)[i] ==>
      Remainders(num, den)[i] - Remainders(num, den)[j] <= den
  }

  lemma CloseIffNoExchangeHelps(num: seq<int>, den: int, units: seq<int>, count: nat)
    requires den > 0 && LargestRemainder(Floors(num, den), Remainders(num, den), units, count)
    ensures RemaindersAreClose(num, den, units) <==> NoExchangeHelps(num, den, units)
  {
    var floors, rems := Floors(num, den), Remainders(num, den);
    forall i, j | 0 <= i < |num| && 0 <= j < |num|
      ensures Up(num[i], den, units[i]) + Down(num[j], den, units[j]) < 0
              <==> units[i] == floors[i] && rems[i] - rems[j] > den
    {
      TruncateParts(num[i], den);
      TruncateParts(num[j], den);
      assert units[i] == floors[i] && units[j] > floors[j] ==> Precedes(rems, j, i);
      ExchangeHelpsIff(num[i], floors[i], rems[i], units[i], num[j], floors[j], rems[j], units[j], den);
    }
  }

  /** For every total and weights: no list of whole units with the same sum deviates less
      from the exact shares, if and only if the remainders are close. */
  lemma AllocationIsOptimalIff(total: int, weights: seq<int>, unit: int)
    requires Sum(weights) != 0 && unit > 0
    ensures var num, den, units := Numerators(total, weights), Denominator(weights, unit), Units(total, weights, unit);
            Optimal(num, den, units) <==> RemaindersAreClose(num, den, units)
  {
    var num, den, units := Numerators(total, weights), Denominator(weights, unit), Units(total, weights, unit);
    var residual := Residual(num, den, RoundHalfUp(total, unit));
    UnitsAreLargestRemainder(total, weights, unit, units);
    CloseIffNoExchangeHelps(num, den, units, if residual > 0 then residual else 0);
    OptimalIffNoExchangeHelps(num, den, units);
  }

  /** Shares of one sign are always allocated optimally. */
  lemma AllocationIsOptimal(total: int, weights: seq<int>, unit: int, other: seq<int>)
    requires Sum(weights) != 0 && unit > 0 && (SharesNonNegative(total, weights) || SharesNonPositive(total, weights))
    requires |other| == |weights| && Sum(other) == Sum(Units(total, weights, unit))
    ensures var num, den := Numerators(total, weights), Denominator(weights, unit);
            Deviation(num, den, Units(total, weights, unit)) <= Deviation(num, den, other)
  {
    var num, den, units := Numerators(total, weights), Denominator(weights, unit), Units(total, weights, unit);
    AllocationIsOptimalIff(total, weights, unit);
    forall i, j | 0 <= i < |num| && 0 <= j < |num| && units[i] == Floors(num, den)[i]
      ensures Remainders(num, den)[i] - Remainders(num, den)[j] <= den
    {
      TruncateParts(num[i], den);
      TruncateParts(num[j], den);
    }
  }

  lemma MixedSignParts()
    ensures Sum([-9, 19]) == 10
    ensures var num, den := Numerators(10_000, [-9, 19]), Denominator([-9, 19], 10_000);
            && num == [-90_000, 190_000] && den == 100_000
            && Floors(num, den) == [0, 1] && Remainders(num, den) == [-90_000, 90_000]
  {
    SumOfPair(-9, 19);
    var num := Numerators(10_000, [-9, 19]);
    assert num[0] == -90_000 && num[1] == 190_000;
  }

  lemma SumOfPair(x: int, y: int)
    ensures Sum([x, y]) == x + y
  {
    SumSnoc([x], y);
    SumSnoc([], x);
    assert [x] + [y] == [x, y] && [] + [x] == [x];
  }

  /** 0.01 over weights -9 and 19 comes out as [0, 1], which deviates nine times as much
      as [-1, 2]. */
  lemma MixedSignsAreNotOptimal()
    ensures Sum([-9, 19]) == 10 && Units(10_000, [-9, 19], 10_000) == [0, 1]
    ensures var num, den := Numerators(10_000, [-9, 19]), Denominator([-9, 19], 10_000);
            && Deviation(num, den, [0, 1]) == 180_000 && Deviation(num, den, [-1, 2]) == 20_000
            && Sum([-1, 2]) == Sum([0, 1]) && !Optimal(num, den, [0, 1])
  {
    MixedSignParts();
    var num, den := Numerators(10_000, [-9, 19]), Denominator([-9, 19], 10_000);
    SumOfPair(0, 1);
    SumOfPair(-1, 2);
    UnitsAreLargestRemainder(10_000, [-9, 19], 10_000, [0, 1]);
    assert Gaps(num, den, [0, 1]) == [90_000, 90_000] && Gaps(num, den, [-1, 2]) == [10_000, 10_000];
    SumOfPair(90_000, 90_000);
    SumOfPair(10_000, 10_000);
  }

  // ----- fairness -----

  lemma HigherPlaceNeverGetsLess(floors: seq<int>, rems: seq<int>, units: seq<int>, count: nat, i: nat, j: nat)
    requires |floors| == |rems| && LargestRemainder(floors, rems, units, count)
    requires i < |rems| && j < |rems|
    ensures floors[i] > floors[j] || (floors[i] == floors[j] && rems[i] > rems[j]) ==> units[i] >= units[j]
    ensures floors[i] == floors[j] && rems[i] == rems[j] && i < j ==> units[j] <= units[i] <= units[j] + 1
  {}

  /** Whatever the signs, a larger share never gets less; equal shares differ by at most one unit,
      and the earlier one is favoured. */
  lemma LargerShareNeverGetsLess(total: int, weights: seq<int>, unit: int, i: nat, j: nat)
    requires Sum(weights) != 0 && unit > 0 && i < |weights| && j < |weights|
    ensures var num, units := Numerators(total, weights), Units(total, weights, unit);
            && (num[i] > num[j] ==> units[i] >= units[j])
            && (num[i] == num[j] && i < j ==> units[j] <= units[i] <= units[j] + 1)
  {
    var num, den := Numerators(total, weights), Denominator(weights, unit);
    var units, residual := Units(total, weights, unit), Residual(num, den, RoundHalfUp(total, unit));
    UnitsAreLargestRemainder(total, weights, unit, units);
    HigherPlaceNeverGetsLess(Floors(num, den), Remainders(num, den), units,
                             if residual > 0 then residual else 0, i, j);
    if num[i] >= num[j] {
      TruncateIsMonotone(num[j], num[i], den);
    }
  }

  lemma TruncateIsMonotone(a: int, b: int, d: int)
    requires a <= b && d > 0
    ensures Truncate(a, d) <= Truncate(b, d)
  {
    TruncateParts(a, d);
    TruncateParts(b, d);
    if Truncate(b, d) < Truncate(a, d) {
      Scaled.Step(Truncate(b, d), Truncate(a, d), d);
    }
  }

  /** Remainders capped by `den` where flagged and by nothing elsewhere. */
  lemma {:induction false} FlaggedSum(rems: seq<int>, flags: seq<int>, den: int)
    requires |flags| == |rems|
    requires forall j :: 0 <= j < |rems| ==> (flags[j] == 1 && rems[j] <= den) || (flags[j] == 0 && rems[j] <= 0)
    ensures Sum(rems) <= den * Sum(flags)
  {
    if |rems| > 0 {
      var n := |rems| - 1;
      FlaggedSum(rems[..n], flags[..n], den);
      Scaled.Distribute(Sum(flags[..n]), flags[n], den);
    }
  }

  /** If a whole share were given a unit, fewer than `count` shares would carry
      all the remainders. */
  lemma BumpedWholeShareBound(floors: seq<int>, rems: seq<int>, den: int, units: seq<int>, count: nat, i: nat)
    requires |floors| == |rems| && LargestRemainder(floors, rems, units, count) && i < |rems|
    requires forall j :: 0 <= j < |rems| ==> rems[j] <= den
    requires rems[i] == 0 && units[i] > floors[i]
    ensures Sum(rems) <= den * (count - 1)
  {
    var bumps := seq(|rems|, j requires 0 <= j < |rems| => units[j] - floors[j]);
    SumLinear(units, 1, floors, bumps);
    SumUpdate(bumps, i, 0);
    forall j | 0 <= j < |rems| && j != i && units[j] == floors[j] ensures rems[j] <= 0 {
      assert Precedes(rems, i, j);
    }
    FlaggedSum(rems, bumps[i := 0], den);
  }

  lemma BumpedMeansManyRemainders(total: int, weights: seq<int>, unit: int)
    requires Sum(weights) != 0 && unit > 0
    ensures var num, den := Numerators(total, weights), Denominator(weights, unit);
            Sum(Remainders(num, den)) > den * (Residual(num, den, RoundHalfUp(total, unit)) - 1)
  {
    var num, den := Numerators(total, weights), Denominator(weights, unit);
    DroppedIsSumOfRemainders(total, weights, unit);
    ResidualNeedsRemainders(total, unit, Sum(Floors(num, den)),
                            Residual(num, den, RoundHalfUp(total, unit)), Abs(Sum(weights)));
  }

  lemma BoundedRemainders(num: seq<int>, den: int)
    requires den > 0
    ensures forall j :: 0 <= j < |num| ==> Remainders(num, den)[j] <= den
  {
    forall j | 0 <= j < |num| ensures Remainders(num, den)[j] <= den { TruncateParts(num[j], den); }
  }

  lemma WholeShareKeepsFloor(total: int, weights: seq<int>, unit: int, i: nat)
    requires Sum(weights) != 0 && unit > 0 && i < |weights|
    requires Remainders(Numerators(total, weights), Denominator(weights, unit))[i] == 0
    ensures Units(total, weights, unit)[i] == Floors(Numerators(total, weights), Denominator(weights, unit))[i]
  {
    var num, den := Numerators(total, weights), Denominator(weights, unit);
    UnitsAreLargestRemainder(total, weights, unit, Units(total, weights, unit));
    BumpedMeansManyRemainders(total, weights, unit);
    BoundedRemainders(num, den);
    KeepsFloor(Floors(num, den), Remainders(num, den), den, Units(total, weights, unit),
               Residual(num, den, RoundHalfUp(total, unit)), i);
  }

  lemma KeepsFloor(floors: seq<int>, rems: seq<int>, den: int, units: seq<int>, residual: int, i: nat)
    requires |floors| == |rems| && i < |rems| && rems[i] == 0
    requires LargestRemainder(floors, rems, units, if residual > 0 then residual else 0)
    requires forall j :: 0 <= j < |rems| ==> rems[j] <= den
    requires Sum(rems) > den * (residual - 1)
    ensures units[i] == floors[i]
  {
    if residual <= 0 {
      NobodyServed(floors, rems, units);
    } else if units[i] > floors[i] {
      BumpedWholeShareBound(floors, rems, den, units, residual, i);
    }
  }

  /** Whatever the signs, a share that is already whole is handed out unchanged. */
  lemma WholeSharesUntouched(total: int, weights: seq<int>, unit: int, i: nat)
    requires Sum(weights) != 0 && unit > 0 && i < |weights|
    requires Remainders(Numerators(total, weights), Denominator(weights, unit))[i] == 0
    ensures Units(total, weights, unit)[i] * Denominator(weights, unit) == Numerators(total, weights)[i]
  {
    WholeShareKeepsFloor(total, weights, unit, i);
  }

  lemma NobodyServed(floors: seq<int>, rems: seq<int>, units: seq<int>)
    requires |floors| == |rems| && LargestRemainder(floors, rems, units, 0)
    ensures units == floors
  {
    SumMonotone(floors, units);
  }

  /** `count` leftover units mean more than count - 1 units were dropped. */
  lemma ResidualNeedsRemainders(total: int, unit: int, floors: int, count: int, w: int)
    requires unit > 0 && w > 0 && count == RoundHalfUp(total, unit) - floors
    ensures (total - floors * unit) * w > (w * unit) * (count - 1)
  {
    var target := RoundHalfUp(total, unit);
    RoundHalfUpIsNearest(total, unit, target);
    Scaled.Distribute(target, floors, unit);
    Scaled.Distribute(count, 1, unit);
    Scaled.Step((count - 1) * unit, total - floors * unit, w);
    Scaled.Reorder(w, unit, count - 1);
  }

  /** Scaling every weight by the same positive factor changes nothing. */
  lemma ScaleInvariant(total: int, weights: seq<int>, scaled: seq<int>, c: int, unit: int)
    requires Sum(weights) != 0 && unit > 0 && c > 0
    requires |scaled| == |weights| && forall i :: 0 <= i < |weights| ==> scaled[i] == c * weights[i]
    ensures Sum(scaled) != 0 && Units(total, scaled, unit) == Units(total, weights, unit)
  {
    ScaledInputs(total, weights, scaled, c, unit);
    var num, den := Numerators(total, weights), Denominator(weights, unit);
    var num', den' := Numerators(total, scaled), Denominator(scaled, unit);
    ScaledShares(num, den, num', den', c);
    UnitsAreLargestRemainder(total, weights, unit, Units(total, weights, unit));
    var p, q := Units(total, weights, unit), Units(total, scaled, unit);
    UnitsAreLargestRemainder(total, scaled, unit, q);
    var residual := Residual(num, den, RoundHalfUp(total, unit));
    forall i, j | 0 <= i < |num| && 0 <= j < |num| && q[i] > Floors(num, den)[i] && q[j] == Floors(num, den)[j]
      ensures Precedes(Remainders(num, den), i, j)
    {
      assert Precedes(Remainders(num', den'), i, j);
      Scaled.Cancel(Remainders(num, den)[i], Remainders(num, den)[j], c);
    }
    LargestRemainderIsUnique(Floors(num, den), Remainders(num, den), p, q, if residual > 0 then residual else 0);
  }

  lemma ScaledInputs(total: int, weights: seq<int>, scaled: seq<int>, c: int, unit: int)
    requires Sum(weights) != 0 && unit > 0 && c > 0
    requires |scaled| == |weights| && forall i :: 0 <= i < |weights| ==> scaled[i] == c * weights[i]
    ensures Sum(scaled) != 0
    ensures Denominator(scaled, unit) == c * Denominator(weights, unit)
    ensures forall i :: 0 <= i < |weights| ==> Numerators(total, scaled)[i] == c * Numerators(total, weights)[i]
  {
    var zeros := seq(|weights|, i => 0);
    SumZero(zeros);
    SumLinear(scaled, c, weights, zeros);
    Scaled.SignOfProduct(c, Sum(weights));
    Scaled.Negate(c, Sum(weights));
    Scaled.ScaleTwo(c, Abs(Sum(weights)), unit);
    forall i | 0 <= i < |weights| ensures Numerators(total, scaled)[i] == c * Numerators(total, weights)[i] {
      NumeratorScaled(c, weights[i], total);
    }
  }

  lemma NumeratorScaled(c: int, w: int, total: int)
    ensures total * (c * w) == c * (total * w)
    ensures -(total * (c * w)) == c * (-(total * w))
  {}

  lemma ScaledShares(num: seq<int>, den: int, num': seq<int>, den': int, c: int)
    requires den > 0 && c > 0 && den' > 0 && den' == c * den && |num'| == |num|
    requires forall i :: 0 <= i < |num| ==> num'[i] == c * num[i]
    ensures Floors(num', den') == Floors(num, den)
    ensures forall i :: 0 <= i < |num| ==> Remainders(num', den')[i] == c * Remainders(num, den)[i]
  {
    forall i | 0 <= i < |num|
      ensures Truncate(num'[i], den') == Truncate(num[i], den)
      ensures Remainders(num', den')[i] == c * Remainders(num, den)[i]
    {
      TruncateScaled(num[i], den, c);
      Scaled.ScaleTwo(c, den, Truncate(num[i], den));
      Scaled.Distribute(num[i], Truncate(num[i], den) * den, c);
    }
  }

  lemma TruncateScaled(n: int, d: int, c: int)
    requires d > 0 && c > 0
    ensures c * d > 0 && Truncate(c * n, c * d) == Truncate(n, d)
  {
    Scaled.Positive(c, d);
    var m := if n >= 0 then n else -n;
    Scaled.DivMod(m, d);
    Scaled.ScaleTwo(c, d, m / d);
    Scaled.Distribute((m / d) * d, m % d, c);
    Scaled.SignOfProduct(c, n);
    Scaled.Negate(c, n);
    Scaled.NonNegative2(m % d, c);
    Scaled.Step(m % d, d, c);
    Scaled.Unique(c * m, c * d, m / d, c * (m % d));
  }
}
