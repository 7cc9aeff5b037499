/** Money as whole numbers of micro-units (numeric(19,6) stores six decimals), the
    minor unit of each currency, and the two roundings the ledger uses: half away
    from zero (posting) and toward zero (the first pass of an allocation). */
module Money {
  import Scaled

  datatype Option<+T> = None | Some(value: T)

  /** Micro-units in one unit of any currency. */
  const MICROS := 1_000_000

  const NO_DECIMALS: set<string> := {"JPY", "KRW", "VND", "CLP", "ISK", "XAF", "XOF"}
  const THREE_DECIMALS: set<string> := {"BHD", "IQD", "JOD", "KWD", "LYD", "OMR", "TND"}

  function UpperChar(c: char): char {
    if 'a' <= c <= 'z' then ((c as int) - 32) as char else c
  }

  function Upper(s: string): (u: string)
    ensures |u| == |s|
    ensures forall i :: 0 <= i < |s| ==> u[i] == UpperChar(s[i])
  {
    if s == "" then "" else [UpperChar(s[0])] + Upper(s[1..])
  }

  function MinorUnits(currency: string): (digits: nat)
    ensures digits in {0, 2, 3}
  {
    var code := Upper(currency);
    if code in NO_DECIMALS then 0 else if code in THREE_DECIMALS then 3 else 2
  }

  /** One minor unit of the currency, in micro-units. */
  function MinorUnit(currency: string): (unit: int)
    ensures unit > 0 && MICROS % unit == 0
  {
    match MinorUnits(currency)
    case 0 => 1_000_000
    case 3 => 1_000
    case _ => 10_000
  }

  function Abs(n: int): nat {
    if n < 0 then -n else n
  }

  /** The integer nearest to n/d, ties away from zero (ROUND_HALF_UP). */
  function RoundHalfUp(n: int, d: int): int
    requires d > 0
  {
    if n >= 0 then (2 * n + d) / (2 * d) else -((-2 * n + d) / (2 * d))
  }

  /** n/d with the fraction dropped (ROUND_DOWN). */
  function Truncate(n: int, d: int): int
    requires d > 0
  {
    if n >= 0 then n / d else -(-n / d)
  }

  /** An amount of n/d micro-units at the precision of `unit`. */
  function QuantizeRatio(n: int, d: int, unit: int): int
    requires d > 0 && unit > 0
  {
    Scaled.Positive(d, unit);
    RoundHalfUp(n, d * unit) * unit
  }

  function Quantize(amount: int, unit: int): int
    requires unit > 0
  {
    RoundHalfUp(amount, unit) * unit
  }

  /** r is the nearest integer to n/d, and on a tie the one further from zero. */
  ghost predicate IsNearest(n: int, d: int, r: int)
    requires d > 0
  {
    || 2 * Abs(n - r * d) < d
    || (2 * Abs(n - r * d) == d && Abs(r * d) > Abs(n))
  }

  lemma NearestWhenNonNegative(n: int, d: int)
    requires d > 0 && n >= 0
    ensures IsNearest(n, d, RoundHalfUp(n, d)) && RoundHalfUp(n, d) >= 0
  {
    var r := (2 * n + d) / (2 * d);
    var m := (2 * n + d) % (2 * d);
    Scaled.DivMod(2 * n + d, 2 * d);
    assert 2 * (r * d) == 2 * n + d - m by { assert (2 * d) * r == 2 * (r * d); }
    Scaled.NonNegative(r, d);
  }

  lemma RoundingIsOdd(n: int, d: int)
    requires d > 0
    ensures RoundHalfUp(-n, d) == -RoundHalfUp(n, d)
  {
    if n == 0 {
      Scaled.Unique(d, 2 * d, 0, d);
    }
  }

  lemma NearestIsUnique(n: int, d: int, q: int, r: int)
    requires d > 0 && IsNearest(n, d, q) && IsNearest(n, d, r)
    ensures q == r
  {
    if q < r {
      OneIsNearer(n, d, q, r);
    } else if r < q {
      OneIsNearer(n, d, r, q);
    }
  }

  lemma OneIsNearer(n: int, d: int, q: int, r: int)
    requires d > 0 && q < r
    ensures !IsNearest(n, d, q) || !IsNearest(n, d, r)
  {
    Scaled.Step(q, r, d);
    if q >= 0 {
      Scaled.NonNegative2(q, d);
    } else if r <= 0 {
      Scaled.Monotone(r, 0, d);
    } else {
      Scaled.Step(q, 0, d);
      Scaled.Grows(r, d);
    }
  }

  /** Rounding is exactly nearest with ties away from zero: no other integer qualifies. */
  lemma RoundHalfUpIsNearest(n: int, d: int, r: int)
    requires d > 0
    ensures r == RoundHalfUp(n, d) <==> IsNearest(n, d, r)
  {
    var q := RoundHalfUp(n, d);
    if n >= 0 {
      NearestWhenNonNegative(n, d);
    } else {
      NearestWhenNonNegative(-n, d);
      RoundingIsOdd(n, d);
      assert (-n) - (-q) * d == -(n - q * d) by { assert (-q) * d == -(q * d); }
      assert (-q) * d == -(q * d);
    }
    if IsNearest(n, d, r) {
      NearestIsUnique(n, d, q, r);
    }
  }

  lemma RoundingMultiple(k: int, d: int)
    requires d > 0
    ensures RoundHalfUp(k * d, d) == k
  {
    RoundHalfUpIsNearest(k * d, d, k);
  }

  /** Rounding error is at most half a unit. */
  lemma QuantizeError(amount: int, unit: int)
    requires unit > 0
    ensures 2 * Abs(Quantize(amount, unit) - amount) <= unit
  {
    RoundHalfUpIsNearest(amount, unit, RoundHalfUp(amount, unit));
  }

  lemma QuantizeRatioError(n: int, d: int, unit: int)
    requires d > 0 && unit > 0
    ensures 2 * Abs(QuantizeRatio(n, d, unit) * d - n) <= d * unit
  {
    Scaled.Positive(d, unit);
    var r := RoundHalfUp(n, d * unit);
    RoundHalfUpIsNearest(n, d * unit, r);
    assert r * unit * d == r * (d * unit);
  }

  /** An amount is left alone exactly when it is already a whole number of units. */
  lemma QuantizeFixesWholeUnits(amount: int, unit: int)
    requires unit > 0
    ensures Quantize(amount, unit) == amount <==> amount % unit == 0
  {
    var k := amount / unit;
    Scaled.DivMod(amount, unit);
    if amount % unit == 0 {
      assert amount == k * unit;
      RoundingMultiple(k, unit);
    }
    if Quantize(amount, unit) == amount {
      Scaled.Unique(amount, unit, RoundHalfUp(amount, unit), 0);
    }
  }

  /** What a currency can express: thousandths in the three-decimal ones alone, hundredths in
      all but the ones without decimals, whole units in every one, and nothing finer. */
  lemma PrecisionOfCurrency(currency: string)
    ensures var unit, code := MinorUnit(currency), Upper(currency);
            && (Quantize(1_000, unit) == 1_000 <==> code !in NO_DECIMALS && code in THREE_DECIMALS)
            && (Quantize(10_000, unit) == 10_000 <==> code !in NO_DECIMALS)
            && Quantize(MICROS, unit) == MICROS && Quantize(100, unit) != 100
  {
    var unit := MinorUnit(currency);
    QuantizeFixesWholeUnits(1_000, unit);
    QuantizeFixesWholeUnits(10_000, unit);
    QuantizeFixesWholeUnits(MICROS, unit);
    QuantizeFixesWholeUnits(100, unit);
  }

  /** Half a minor unit rounds up: 0.0005 dinars, 0.005 pounds, 0.5 yen or francs, in upper
      or lower case. */
  lemma HalfUnitsRoundUp()
    ensures Quantize(500, MinorUnit("KWD")) == 1_000 && Quantize(500, MinorUnit("kwd")) == 1_000
    ensures Quantize(5_000, MinorUnit("EGP")) == 10_000 && Quantize(4_999, MinorUnit("EGP")) == 0
    ensures Quantize(500_000, MinorUnit("JPY")) == 1_000_000 && Quantize(-500_000, MinorUnit("jpy")) == -1_000_000
    ensures Quantize(500_000, MinorUnit("XAF")) == 1_000_000 == Quantize(500_000, MinorUnit("xaf"))
  {
    assert Upper("XAF") == "XAF" == Upper("xaf");
    assert Upper("KWD") == "KWD" == Upper("kwd") && Upper("EGP") == "EGP" && Upper("JPY") == "JPY" == Upper("jpy");
    assert "KWD"[0] == 'K' && "EGP"[0] == 'E' && "BHD"[0] == 'B';
  }

  lemma QuantizedIsWhole(amount: int, unit: int)
    requires unit > 0
    ensures Quantize(amount, unit) % unit == 0
    ensures Quantize(Quantize(amount, unit), unit) == Quantize(amount, unit)
  {
    Scaled.Unique(Quantize(amount, unit), unit, RoundHalfUp(amount, unit), 0);
    RoundingMultiple(RoundHalfUp(amount, unit), unit);
  }

  lemma QuantizeIsMonotone(a: int, b: int, unit: int)
    requires unit > 0 && a <= b
    ensures Quantize(a, unit) <= Quantize(b, unit)
  {
    var p, q := RoundHalfUp(a, unit), RoundHalfUp(b, unit);
    RoundHalfUpIsNearest(a, unit, p);
    RoundHalfUpIsNearest(b, unit, q);
    if p > q {
      Scaled.Step(q, p, unit);
      assert false;
    }
    Scaled.Monotone(p, q, unit);
  }

  /** Multiplying numerator and denominator alike does not change the rounding. */
  lemma RoundingScales(n: int, d: int, k: int)
    requires d > 0 && k > 0
    ensures k * d > 0 && RoundHalfUp(n * k, k * d) == RoundHalfUp(n, d)
  {
    Scaled.Positive(k, d);
    var r := RoundHalfUp(n, d);
    RoundHalfUpIsNearest(n, d, r);
    RoundHalfUpIsNearest(n * k, k * d, r);
    NearestScales(n, r * d, d, k);
    Scaled.ScaleTwo(k, d, r);
  }

  lemma AbsScales(n: int, k: int)
    requires k > 0
    ensures Abs(n * k) == Abs(n) * k
  {
    Scaled.AbsProduct(n, k);
  }

  lemma DoubleScales(a: int, d: int, k: int)
    requires k > 0
    ensures 2 * a < d ==> 2 * (a * k) < d * k
    ensures 2 * a == d ==> 2 * (a * k) == d * k
  {
    assert (2 * a) * k == 2 * (a * k);
    if 2 * a < d {
      Scaled.Step(2 * a, d, k);
    }
  }

  lemma NearestScales(n: int, m: int, d: int, k: int)
    requires k > 0
    ensures 2 * Abs(n - m) < d ==> 2 * Abs(n * k - m * k) < d * k
    ensures 2 * Abs(n - m) == d ==> 2 * Abs(n * k - m * k) == d * k
    ensures Abs(m) > Abs(n) ==> Abs(m * k) > Abs(n * k)
  {
    var p, q, a := n * k, m * k, Abs(n - m);
    assert Abs(p - q) == a * k by {
      Scaled.Distribute(n, m, k);
      AbsScales(n - m, k);
    }
    DoubleScales(a, d, k);
    assert Abs(p) == Abs(n) * k && Abs(q) == Abs(m) * k by {
      AbsScales(n, k);
      AbsScales(m, k);
    }
    if Abs(m) > Abs(n) {
      Scaled.Step(Abs(n), Abs(m), k);
    }
  }

  /** Converting at rate one is plain rounding. */
  lemma QuantizeAtRateOne(amount: int, unit: int)
    requires unit > 0
    ensures QuantizeRatio(amount * MICROS, MICROS, unit) == Quantize(amount, unit)
  {
    RoundingScales(amount, unit, MICROS);
  }
}
