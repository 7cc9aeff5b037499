/** The few facts about products and quotients the other modules lean on. */
module Scaled {

  lemma Distribute(a: int, b: int, k: int)
    ensures (a - b) * k == a * k - b * k
    ensures (a + b) * k == a * k + b * k
  {}

  lemma Spread(k: int, a: int, b: int)
    ensures k * (a - b) == k * a - k * b
  {}

  lemma Negate(a: int, b: int)
    ensures (-a) * b == -(a * b) == a * (-b)
  {}

  lemma Reorder(a: int, b: int, c: int)
    ensures (a * b) * c == (c * b) * a == a * (b * c)
  {}

  lemma Regroup(t: int, f: int, u: int, w: int)
    ensures (t - f * u) * w == t * w - (w * u) * f
  {}

  lemma LeftPositive(a: int, b: int)
    requires b > 0 && a * b > 0
    ensures a > 0
  {
    if a <= 0 {
      Monotone(a, 0, b);
    }
  }

  lemma LeftNonPositive(a: int, b: int)
    requires b > 0 && a * b <= 0
    ensures a <= 0
  {
    if a > 0 {
      Grows(a, b);
    }
  }

  lemma NonNegative2(a: int, b: int)
    requires a >= 0 && b >= 0
    ensures a * b >= 0
  {}

  lemma SmallMultiple(a: int, b: int)
    requires b > 0
    ensures a != 0 ==> a * b >= b || a * b <= -b
  {
    if a > 0 {
      Grows(a, b);
    } else if a < 0 {
      Step(a, 0, b);
    }
  }

  lemma SignOfProduct(c: int, a: int)
    requires c > 0
    ensures (c * a > 0 <==> a > 0) && (c * a < 0 <==> a < 0)
  {}

  lemma ScaleTwo(c: int, a: int, b: int)
    ensures (c * a) * b == c * (a * b) == b * (c * a) == c * (b * a)
  {}

  lemma Cancel(a: int, b: int, c: int)
    requires c > 0
    ensures c * a > c * b <==> a > b
    ensures c * a == c * b <==> a == b
  {
    if a > b {
      Step(b, a, c);
    } else if a < b {
      Step(a, b, c);
    }
  }

  lemma Positive(a: int, b: int)
    requires a > 0 && b > 0
    ensures a * b > 0
  {}

  lemma Grows(a: int, k: int)
    requires a >= 1 && k >= 0
    ensures a * k >= k
  {}

  lemma Monotone(a: int, b: int, k: int)
    requires a <= b && k >= 0
    ensures a * k <= b * k
  {}

  lemma Step(a: int, b: int, k: int)
    requires a < b && k >= 0
    ensures b * k >= a * k + k
  {
    Monotone(a + 1, b, k);
    Distribute(a, 1, k);
  }

  lemma NonNegative(a: int, b: int)
    requires b > 0 && a * b > -b
    ensures a >= 0
  {
    if a < 0 {
      Step(a, 0, b);
    }
  }

  lemma DivMod(n: int, d: int)
    requires d > 0
    ensures n == d * (n / d) + n % d && 0 <= n % d < d
    ensures n == (n / d) * d + n % d
  {}

  lemma AbsProduct(a: int, k: int)
    requires k > 0
    ensures (if a * k < 0 then -(a * k) else a * k) == (if a < 0 then -a else a) * k
  {
    Negate(a, k);
  }

  lemma SmallMod(i: int, n: int)
    requires 0 <= i < n
    ensures i % n == i
  {}

  lemma WholeSum(a: int, b: int, unit: int)
    requires unit > 0 && a % unit == 0 && b % unit == 0
    ensures (a + b) % unit == 0
  {
    DivMod(a, unit);
    DivMod(b, unit);
    Distribute(a / unit, -(b / unit), unit);
    Unique(a + b, unit, a / unit + b / unit, 0);
  }

  /** Quotient and remainder are determined by n == q*d + r with 0 <= r < d. */
  lemma Unique(n: int, d: int, q: int, r: int)
    requires d > 0 && n == q * d + r && 0 <= r < d
    ensures n / d == q && n % d == r
  {
    DivMod(n, d);
    if n / d > q {
      Step(q, n / d, d);
    } else if n / d < q {
      Step(n / d, q, d);
    }
  }
}
