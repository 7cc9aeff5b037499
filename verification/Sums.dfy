/** Finite sums of integer sequences. */
module Sums {

  function Sum(s: seq<int>): int {
    if |s| == 0 then 0 else Sum(s[..|s| - 1]) + s[|s| - 1]
  }

  lemma SumSnoc(s: seq<int>, x: int)
    ensures Sum(s + [x]) == Sum(s) + x
  {
    assert (s + [x])[..|s|] == s;
  }

  lemma {:induction false} SumAppend(a: seq<int>, b: seq<int>)
    ensures Sum(a + b) == Sum(a) + Sum(b)
  {
    if |b| == 0 {
      assert a + b == a;
    } else {
      var front := b[..|b| - 1];
      SumAppend(a, front);
      assert a + b == (a + front) + [b[|b| - 1]];
      SumSnoc(a + front, b[|b| - 1]);
    }
  }

  lemma SumSplit(s: seq<int>, k: nat)
    requires k <= |s|
    ensures Sum(s) == Sum(s[..k]) + Sum(s[k..])
  {
    SumAppend(s[..k], s[k..]);
    assert s[..k] + s[k..] == s;
  }

  lemma SumUpdate(s: seq<int>, i: nat, v: int)
    requires i < |s|
    ensures Sum(s[i := v]) == Sum(s) - s[i] + v
  {
    var t := s[i := v];
    SumSplit(s, i + 1);
    SumSplit(t, i + 1);
    assert s[..i + 1] == s[..i] + [s[i]] && t[..i + 1] == s[..i] + [v] && t[i + 1..] == s[i + 1..];
    SumSnoc(s[..i], s[i]);
    SumSnoc(s[..i], v);
  }

  lemma {:induction false} SumMonotone(a: seq<int>, b: seq<int>)
    requires |a| == |b| && forall i :: 0 <= i < |a| ==> a[i] <= b[i]
    ensures Sum(a) <= Sum(b)
    ensures (exists i :: 0 <= i < |a| && a[i] < b[i]) ==> Sum(a) < Sum(b)
  {
    if |a| > 0 {
      SumMonotone(a[..|a| - 1], b[..|b| - 1]);
      if i :| 0 <= i < |a| && a[i] < b[i] {
        assert i < |a| - 1 ==> a[..|a| - 1][i] < b[..|b| - 1][i];
      }
    }
  }

  /** Pointwise a[i] == x*b[i] + c[i] carries over to the sums. */
  lemma {:induction false} SumLinear(a: seq<int>, x: int, b: seq<int>, c: seq<int>)
    requires |a| == |b| == |c| && forall i :: 0 <= i < |a| ==> a[i] == x * b[i] + c[i]
    ensures Sum(a) == x * Sum(b) + Sum(c)
  {
    if |a| > 0 {
      var n := |a| - 1;
      SumLinear(a[..n], x, b[..n], c[..n]);
      assert x * (Sum(b[..n]) + b[n]) == x * Sum(b[..n]) + x * b[n];
    }
  }

  lemma {:induction false} SumZero(s: seq<int>)
    requires forall i :: 0 <= i < |s| ==> s[i] == 0
    ensures Sum(s) == 0
  {
    if |s| > 0 {
      SumZero(s[..|s| - 1]);
    }
  }

  lemma {:induction false} SumBound(s: seq<int>, lo: int, hi: int)
    requires forall i :: 0 <= i < |s| ==> lo <= s[i] <= hi
    ensures lo * |s| <= Sum(s) <= hi * |s|
  {
    if |s| > 0 {
      SumBound(s[..|s| - 1], lo, hi);
    }
  }
}
