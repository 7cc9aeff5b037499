/** Document numbers: printing, reading back, sorting, and gapless allocation. */
module Numbering {
  import Scaled

  // ----- decimal numerals -----

  function Digit(d: nat): char
    requires d < 10
  {
    ('0' as int + d) as char
  }

  predicate IsDigit(c: char) {
    '0' <= c <= '9'
  }

  function Decimal(n: nat): (s: string)
    ensures |s| >= 1 && forall i :: 0 <= i < |s| ==> IsDigit(s[i])
  {
    if n < 10 then [Digit(n)] else Decimal(n / 10) + [Digit(n % 10)]
  }

  function Zeros(k: nat): (s: string)
    ensures |s| == k && forall i :: 0 <= i < k ==> s[i] == '0'
  {
    seq(k, i => '0')
  }

  /** The value zero-padded to at least `width` digits. */
  function Padded(n: nat, width: nat): (s: string)
    ensures |s| >= 1 && |s| >= width && forall i :: 0 <= i < |s| ==> IsDigit(s[i])
  {
    var digits := Decimal(n);
    if |digits| < width then Zeros(width - |digits|) + digits else digits
  }

  function ReadDecimal(s: string): nat
    requires forall i :: 0 <= i < |s| ==> IsDigit(s[i])
  {
    if |s| == 0 then 0
    else
      assert IsDigit(s[|s| - 1]);
      10 * ReadDecimal(s[..|s| - 1]) + (s[|s| - 1] as int - '0' as int)
  }

  lemma ReadDigits(n: nat)
    ensures ReadDecimal(Decimal(n)) == n
  {
    if n < 10 {
      assert Decimal(n)[..0] == "";
    } else {
      ReadDigits(n / 10);
      assert Decimal(n)[..|Decimal(n)| - 1] == Decimal(n / 10);
    }
  }

  lemma {:induction false} ReadLeadingZeros(k: nat, s: string)
    requires forall i :: 0 <= i < |s| ==> IsDigit(s[i])
    ensures ReadDecimal(Zeros(k) + s) == ReadDecimal(s)
  {
    if |s| > 0 {
      ReadLeadingZeros(k, s[..|s| - 1]);
      assert (Zeros(k) + s)[..|Zeros(k) + s| - 1] == Zeros(k) + s[..|s| - 1];
    } else if k > 0 {
      ReadLeadingZeros(k - 1, "");
      assert Zeros(k) + "" == Zeros(k) && Zeros(k)[..k - 1] == Zeros(k - 1) + "";
    }
  }

  lemma ReadPadded(n: nat, width: nat)
    ensures ReadDecimal(Padded(n, width)) == n
  {
    ReadDigits(n);
    if |Decimal(n)| < width {
      ReadLeadingZeros(width - |Decimal(n)|, Decimal(n));
    }
  }

  // ----- DocumentSequence.format and its inverse -----

  function Format(prefix: string, year: nat, value: nat, padding: nat): string {
    prefix + "-" + Decimal(year) + "-" + Padded(value, padding)
  }

  datatype Parsed = NotANumber | Document(prefix: string, year: nat, value: nat)

  /** Position of the last dash, or -1. */
  function LastDash(s: string): (i: int)
    ensures -1 <= i < |s|
    ensures i >= 0 ==> s[i] == '-'
    ensures forall k :: i < k < |s| ==> s[k] != '-'
  {
    if |s| == 0 then -1 else if s[|s| - 1] == '-' then |s| - 1 else LastDash(s[..|s| - 1])
  }

  predicate AllDigits(s: string) {
    |s| > 0 && forall i :: 0 <= i < |s| ==> IsDigit(s[i])
  }

  /** Read a number from the right, so that the prefix may hold dashes of its own. */
  function Parse(s: string): Parsed {
    var i := LastDash(s);
    if i < 0 then NotANumber else
    var j := LastDash(s[..i]);
    if j < 0 then NotANumber else
    if AllDigits(s[i + 1..]) && AllDigits(s[j + 1..i])
    then Document(s[..j], ReadDecimal(s[j + 1..i]), ReadDecimal(s[i + 1..]))
    else NotANumber
  }

  lemma {:induction false} LastDashOf(head: string, tail: string)
    requires forall i :: 0 <= i < |tail| ==> IsDigit(tail[i])
    ensures LastDash(head + "-" + tail) == |head|
  {
    var s := head + "-" + tail;
    if |tail| > 0 {
      LastDashOf(head, tail[..|tail| - 1]);
      assert s[..|s| - 1] == head + "-" + tail[..|tail| - 1];
      assert s[|s| - 1] == tail[|tail| - 1];
    }
  }

  /** Printing loses nothing: for every prefix, year, value and padding. */
  lemma ParseUndoesFormat(prefix: string, year: nat, value: nat, padding: nat)
    ensures Parse(Format(prefix, year, value, padding)) == Document(prefix, year, value)
  {
    var s, y, v := Format(prefix, year, value, padding), Decimal(year), Padded(value, padding);
    var head := prefix + "-" + y;
    assert s == head + "-" + v;
    LastDashOf(head, v);
    assert s[..|head|] == head && s[|head| + 1..] == v;
    LastDashOf(prefix, y);
    assert s[|prefix| + 1..|head|] == y && head[..|prefix|] == prefix;
    assert s[..|prefix|] == prefix;
    ReadDigits(year);
    ReadPadded(value, padding);
  }

  lemma FormatIsInjective(prefix: string, year: nat, padding: nat, v: nat, w: nat)
    requires Format(prefix, year, v, padding) == Format(prefix, year, w, padding)
    ensures v == w
  {
    ParseUndoesFormat(prefix, year, v, padding);
    ParseUndoesFormat(prefix, year, w, padding);
  }

  // ----- string order against numeric order -----

  predicate LexLess(a: string, b: string) {
    if |b| == 0 then false
    else if |a| == 0 then true
    else if a[0] != b[0] then a[0] < b[0]
    else LexLess(a[1..], b[1..])
  }

  lemma {:induction false} LexAsymmetric(a: string, b: string)
    requires LexLess(a, b)
    ensures !LexLess(b, a)
  {
    if |a| > 0 && a[0] == b[0] {
      LexAsymmetric(a[1..], b[1..]);
    }
  }

  lemma {:induction false} LexTransitive(a: string, b: string, c: string)
    ensures LexLess(a, b) && !LexLess(c, b) ==> LexLess(a, c)
  {
    if |a| > 0 && |b| > 0 && |c| > 0 {
      LexTransitive(a[1..], b[1..], c[1..]);
    }
  }

  lemma {:induction false} LexCommonPrefix(p: string, a: string, b: string)
    ensures LexLess(p + a, p + b) == LexLess(a, b)
  {
    if |p| == 0 {
      assert p + a == a && p + b == b;
    } else {
      assert (p + a)[1..] == p[1..] + a && (p + b)[1..] == p[1..] + b;
      LexCommonPrefix(p[1..], a, b);
    }
  }

  function Pow10(k: nat): (p: nat)
    ensures p >= 1
  {
    if k == 0 then 1 else 10 * Pow10(k - 1)
  }

  lemma {:induction false} ReadBound(s: string)
    requires forall i :: 0 <= i < |s| ==> IsDigit(s[i])
    ensures ReadDecimal(s) < Pow10(|s|)
  {
    if |s| > 0 {
      ReadBound(s[..|s| - 1]);
    }
  }

  lemma {:induction false} ReadHead(s: string)
    requires |s| > 0 && forall i :: 0 <= i < |s| ==> IsDigit(s[i])
    ensures ReadDecimal(s) == (s[0] as int - '0' as int) * Pow10(|s| - 1) + ReadDecimal(s[1..])
  {
    var n := |s| - 1;
    if n > 0 {
      ReadHead(s[..n]);
      assert s[..n][1..] == s[1..][..n - 1] && s[1..][n - 1] == s[n];
      Scaled.ScaleTwo(10, Pow10(n - 1), s[0] as int - '0' as int);
    }
  }

  /** Numerals of equal length sort as strings exactly as their values do. */
  lemma {:induction false} EqualLengthOrder(a: string, b: string)
    requires |a| == |b|
    requires forall i :: 0 <= i < |a| ==> IsDigit(a[i]) && IsDigit(b[i])
    ensures LexLess(a, b) <==> ReadDecimal(a) < ReadDecimal(b)
  {
    if |a| > 0 {
      ReadHead(a);
      ReadHead(b);
      ReadBound(a[1..]);
      ReadBound(b[1..]);
      EqualLengthOrder(a[1..], b[1..]);
      var x, y, p := a[0] as int - '0' as int, b[0] as int - '0' as int, Pow10(|a| - 1);
      if x < y {
        Scaled.Step(x, y, p);
      } else if y < x {
        Scaled.Step(y, x, p);
      }
    }
  }

  lemma {:induction false} DecimalLength(n: nat, k: nat)
    requires k >= 1
    ensures |Decimal(n)| <= k <==> n < Pow10(k)
  {
    if n >= 10 && k > 1 {
      DecimalLength(n / 10, k - 1);
    }
  }

  /** The number of digits every padded value has until it outgrows its padding. */
  function Width(padding: nat): nat {
    if padding == 0 then 1 else padding
  }

  lemma PaddedLength(n: nat, padding: nat)
    requires n < Pow10(Width(padding))
    ensures |Padded(n, padding)| == Width(padding)
  {
    DecimalLength(n, Width(padding));
  }

  lemma FormatOrder(prefix: string, year: nat, padding: nat, v: nat, w: nat)
    ensures LexLess(Format(prefix, year, v, padding), Format(prefix, year, w, padding))
         == LexLess(Padded(v, padding), Padded(w, padding))
  {
    LexCommonPrefix(prefix + "-" + Decimal(year) + "-", Padded(v, padding), Padded(w, padding));
  }

  lemma {:induction false} LeadingDigits(k: nat)
    ensures Pow10(k) > 0 && Decimal(Pow10(k))[0] == '1'
    ensures k >= 1 ==> Decimal(Pow10(k) - 1)[0] == '9'
  {
    if k > 0 {
      LeadingDigits(k - 1);
      var n := Pow10(k - 1);
      assert Pow10(k) == 10 * n && (10 * n) / 10 == n;
      if k > 1 {
        assert (10 * n - 1) / 10 == n - 1;
      }
    }
  }

  /** String order equals numeric order on all values below `bound` exactly up to the
      padding: the first value one digit wider sorts before its predecessor. */
  lemma SortsExactlyBelow(prefix: string, year: nat, padding: nat, bound: nat)
    ensures (forall v, w :: 0 <= v < w < bound ==>
               LexLess(Format(prefix, year, v, padding), Format(prefix, year, w, padding)))
            <==> bound <= Pow10(Width(padding))
  {
    var limit := Pow10(Width(padding));
    if bound <= limit {
      forall v, w | 0 <= v < w < bound
        ensures LexLess(Format(prefix, year, v, padding), Format(prefix, year, w, padding))
      {
        FormatOrder(prefix, year, padding, v, w);
        PaddedLength(v, padding);
        PaddedLength(w, padding);
        EqualLengthOrder(Padded(v, padding), Padded(w, padding));
        ReadPadded(v, padding);
        ReadPadded(w, padding);
      }
    } else {
      FormatOrder(prefix, year, padding, limit - 1, limit);
      LeadingDigits(Width(padding));
      PaddedLength(limit - 1, padding);
      DecimalLength(limit, Width(padding));
      NoLeadingZero(limit - 1, padding);
      assert !LexLess(Padded(limit - 1, padding), Padded(limit, padding));
    }
  }

  lemma NoLeadingZero(n: nat, padding: nat)
    requires n == Pow10(Width(padding)) - 1
    ensures Padded(n, padding) == Decimal(n)
  {
    if Width(padding) > 1 {
      DecimalLength(n, Width(padding) - 1);
    }
  }

  // ----- allocation -----

  /** One counter row. */
  class DocumentSequence {
    const prefix: string
    const year: nat
    const padding: nat
    var nextValue: nat

    constructor (prefix: string, year: nat, padding: nat)
      ensures this.prefix == prefix && this.year == year && this.padding == padding && nextValue == 1
    {
      this.prefix, this.year, this.padding, nextValue := prefix, year, padding, 1;
    }

    /** The next number nobody holds; `taken` is empty when no collision check was asked for. */
    method Allocate(taken: set<string>) returns (number: string, value: nat)
      modifies this
      ensures value >= old(nextValue) && number == Format(prefix, year, value, padding) && number !in taken
      ensures forall v :: old(nextValue) <= v < value ==> Format(prefix, year, v, padding) in taken
      ensures nextValue == value + 1
    {
      value := nextValue;
      number := Format(prefix, year, value, padding);
      ghost var passed: set<string> := {};
      while number in taken
        invariant nextValue == old(nextValue) <= value && number == Format(prefix, year, value, padding)
        invariant forall v :: nextValue <= v < value ==> Format(prefix, year, v, padding) in taken
        invariant passed <= taken
        invariant forall s :: s in passed ==>
                    exists v :: nextValue <= v < value && s == Format(prefix, year, v, padding)
        decreases taken - passed
      {
        if number in passed {
          var v :| nextValue <= v < value && number == Format(prefix, year, v, padding);
          FormatIsInjective(prefix, year, padding, v, value);
        }
        passed := passed + {number};
        value := value + 1;
        number := Format(prefix, year, value, padding);
      }
      nextValue := value + 1;
    }
  }

  // ----- gaplessness under commit and rollback -----

  /** Transactions meet at the row lock: one of them holds it with what it took. */
  datatype Row = Row(next: nat, committed: seq<nat>, holder: int, taken: seq<nat>)
  datatype Step = Take(who: nat) | CommitBy(who: nat) | RollbackBy(who: nat)

  /** A step of a transaction that does not hold the lock waits (nothing happens). */
  function After(r: Row, s: Step): Row {
    match s
    case Take(who) =>
      if r.holder == -1 then r.(holder := who, taken := [r.next])
      else if r.holder == who then r.(taken := r.taken + [r.next + |r.taken|]) else r
    case CommitBy(who) =>
      if r.holder == who then Row(r.next + |r.taken|, r.committed + r.taken, -1, []) else r
    case RollbackBy(who) =>
      if r.holder == who then r.(holder := -1, taken := []) else r
  }

  function Steps(s: seq<Step>): Row {
    if |s| == 0 then Row(1, [], -1, []) else After(Steps(s[..|s| - 1]), s[|s| - 1])
  }

  function Counting(from: nat, n: nat): (s: seq<nat>)
    ensures |s| == n && forall i :: 0 <= i < n ==> s[i] == from + i
  {
    seq(n, i requires 0 <= i < n => from + i)
  }

  // ----- one transaction among others -----

  function From(r: Row, s: seq<Step>): Row {
    if |s| == 0 then r else After(From(r, s[..|s| - 1]), s[|s| - 1])
  }

  /** How many values `who` asks for. */
  function Asked(s: seq<Step>, who: nat): nat {
    if |s| == 0 then 0 else Asked(s[..|s| - 1], who) + if s[|s| - 1] == Take(who) then 1 else 0
  }

  predicate StaysOpen(s: seq<Step>, who: nat) {
    forall i :: 0 <= i < |s| ==> s[i] != CommitBy(who) && s[i] != RollbackBy(who)
  }

  /** While a transaction holds the row the others wait, whatever they try. */
  lemma {:induction false} OthersWait(r: Row, s: seq<Step>, who: nat)
    requires r.holder == who && r.taken == Counting(r.next, |r.taken|) && StaysOpen(s, who)
    ensures From(r, s) == r.(taken := Counting(r.next, |r.taken| + Asked(s, who)))
  {
    if |s| > 0 {
      OthersWait(r, s[..|s| - 1], who);
    }
  }

  lemma FromThen(r: Row, s: seq<Step>, last: Step)
    ensures From(r, s + [last]) == After(From(r, s), last)
  {
    assert (s + [last])[..|s|] == s;
  }

  /** A transaction that finds the row free gets it. Whatever others try meanwhile, it takes
      the next values in order, one for each time it asks, and a commit adds exactly those; a
      rollback leaves the row as it was found. */
  lemma TransactionRunsAlone(r: Row, who: nat, meanwhile: seq<Step>)
    requires r.holder == -1 && r.taken == [] && StaysOpen(meanwhile, who)
    ensures var held := After(r, Take(who));
            var n := 1 + Asked(meanwhile, who);
            && From(held, meanwhile + [CommitBy(who)]) == Row(r.next + n, r.committed + Counting(r.next, n), -1, [])
            && From(held, meanwhile + [RollbackBy(who)]) == r
  {
    var held := After(r, Take(who));
    assert held.taken == Counting(r.next, 1);
    OthersWait(held, meanwhile, who);
    FromThen(held, meanwhile, CommitBy(who));
    FromThen(held, meanwhile, RollbackBy(who));
  }

  /** Whatever mix of transactions commits, rolls back or waits, the committed values
      are exactly 1 .. next-1, in order and each once. */
  lemma {:induction false} CommittedIsGapless(s: seq<Step>)
    ensures var r := Steps(s);
            && r.next >= 1 && r.committed == Counting(1, r.next - 1)
            && r.taken == Counting(r.next, |r.taken|) && (r.holder == -1 ==> r.taken == [])
  {
    if |s| > 0 {
      CommittedIsGapless(s[..|s| - 1]);
      var r, r' := Steps(s[..|s| - 1]), Steps(s);
      if s[|s| - 1].CommitBy? && r'.committed != r.committed {
        assert r'.committed == Counting(1, r'.next - 1);
      }
    }
  }
}
