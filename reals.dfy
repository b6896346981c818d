/** Real-number helpers: sums, integer powers, truncation, Python rounding and an extended real for inf. */
module Reals {

  import opened Wrappers

  /** Sum of a sequence, accumulated left to right as the source's loops and `sum` do. */
  function Sum(s: seq<real>): real
  {
    if |s| == 0 then 0.0 else Sum(s[..|s| - 1]) + s[|s| - 1]
  }

  lemma {:induction false} SumAppend(a: seq<real>, b: seq<real>)
    ensures Sum(a + b) == Sum(a) + Sum(b)
  {
    if |b| == 0 {
      assert a + b == a;
    } else {
      assert (a + b)[..|a + b| - 1] == a + b[..|b| - 1];
      SumAppend(a, b[..|b| - 1]);
    }
  }

  lemma {:induction false} SumSingle(x: real)
    ensures Sum([x]) == x
  {
    assert [x][..0] == [];
  }

  lemma {:induction false} SumCons(x: real, s: seq<real>)
    ensures Sum([x] + s) == x + Sum(s)
  {
    SumAppend([x], s);
    SumSingle(x);
  }

  lemma {:induction false} SumNonNegative(s: seq<real>)
    requires forall i :: 0 <= i < |s| ==> s[i] >= 0.0
    ensures Sum(s) >= 0.0
  {
    if |s| > 0 {
      SumNonNegative(s[..|s| - 1]);
    }
  }

  lemma {:induction false} SumLe(a: seq<real>, b: seq<real>)
    requires |a| == |b|
    requires forall i :: 0 <= i < |a| ==> a[i] <= b[i]
    ensures Sum(a) <= Sum(b)
  {
    if |a| > 0 {
      SumLe(a[..|a| - 1], b[..|b| - 1]);
    }
  }

  lemma {:induction false} SumAllZero(s: seq<real>)
    requires forall i :: 0 <= i < |s| ==> s[i] == 0.0
    ensures Sum(s) == 0.0
  {
    if |s| > 0 {
      SumAllZero(s[..|s| - 1]);
    }
  }

  /** In a sum of non-negative terms no term exceeds the sum. */
  lemma {:induction false} ElementAtMostSum(s: seq<real>, k: nat)
    requires k < |s|
    requires forall i :: 0 <= i < |s| ==> s[i] >= 0.0
    ensures s[k] <= Sum(s)
  {
    if k < |s| - 1 {
      ElementAtMostSum(s[..|s| - 1], k);
    } else {
      SumNonNegative(s[..|s| - 1]);
    }
  }

  /** Running totals, as `cumsum()` gives them: the i-th is the sum of the first i+1 elements. */
  function PrefixSums(s: seq<real>): (p: seq<real>)
    ensures |p| == |s|
    ensures forall i :: 0 <= i < |s| ==> p[i] == Sum(s[..i + 1])
  {
    if |s| == 0 then []
    else
      var init := PrefixSums(s[..|s| - 1]);
      assert forall j :: 0 < j < |s| ==> s[..|s| - 1][..j] == s[..j];
      assert s[..|s|] == s;
      init + [Sum(s)]
  }

  /** With positive elements the running totals rise strictly and end at the full sum. */
  lemma {:induction false} PrefixSumsIncreasing(s: seq<real>)
    requires forall i :: 0 <= i < |s| ==> s[i] > 0.0
    ensures forall i, j :: 0 <= i < j < |s| ==> PrefixSums(s)[i] < PrefixSums(s)[j]
    ensures |s| > 0 ==> PrefixSums(s)[|s| - 1] == Sum(s)
  {
    forall i, j | 0 <= i < j < |s|
      ensures PrefixSums(s)[i] < PrefixSums(s)[j]
    {
      SumLonger(s, i + 1, j + 1);
    }
    if |s| > 0 {
      assert s[..|s|] == s;
    }
  }

  lemma {:induction false} SumLonger(s: seq<real>, m: nat, n: nat)
    requires m < n <= |s|
    requires forall i :: 0 <= i < |s| ==> s[i] > 0.0
    ensures Sum(s[..m]) < Sum(s[..n])
  {
    assert s[..n] == s[..m] + s[m..n];
    SumAppend(s[..m], s[m..n]);
    SumPositive(s[m..n]);
  }

  lemma {:induction false} SumPositive(s: seq<real>)
    requires |s| > 0
    requires forall i :: 0 <= i < |s| ==> s[i] > 0.0
    ensures Sum(s) > 0.0
  {
    SumNonNegative(s[..|s| - 1]);
  }

  /** The least element (the first of equal ones, as `min` picks). */
  function MinOf(s: seq<real>): (m: real)
    requires |s| > 0
    ensures m in s
    ensures forall i :: 0 <= i < |s| ==> m <= s[i]
  {
    if |s| == 1 then s[0]
    else
      var rest := MinOf(s[..|s| - 1]);
      assert forall i :: 0 <= i < |s| - 1 ==> s[..|s| - 1][i] == s[i];
      if s[|s| - 1] < rest then s[|s| - 1] else rest
  }

  /** The greatest element. */
  function MaxOf(s: seq<real>): (m: real)
    requires |s| > 0
    ensures m in s
    ensures forall i :: 0 <= i < |s| ==> s[i] <= m
  {
    if |s| == 1 then s[0]
    else
      var rest := MaxOf(s[..|s| - 1]);
      assert forall i :: 0 <= i < |s| - 1 ==> s[..|s| - 1][i] == s[i];
      if s[|s| - 1] > rest then s[|s| - 1] else rest
  }

  /** The mean lies between the least and the greatest element. */
  lemma {:induction false} MeanBetween(s: seq<real>)
    requires |s| > 0
    ensures MinOf(s) <= Sum(s) / |s| as real <= MaxOf(s)
  {
    MeanWithin(s, MinOf(s), MaxOf(s));
  }

  lemma {:induction false} MeanWithin(s: seq<real>, m: real, M: real)
    requires |s| > 0
    requires forall i :: 0 <= i < |s| ==> m <= s[i] <= M
    ensures m <= Sum(s) / |s| as real <= M
  {
    SumWithin(s, m, M);
    QuotientBetween(Sum(s), m, M, |s| as real);
  }

  lemma {:induction false} SumWithin(s: seq<real>, m: real, M: real)
    requires forall i :: 0 <= i < |s| ==> m <= s[i] <= M
    ensures m * |s| as real <= Sum(s) <= M * |s| as real
  {
    if |s| > 0 {
      SumWithin(s[..|s| - 1], m, M);
      var k := (|s| - 1) as real;
      assert m * |s| as real == m * k + m;
      assert M * |s| as real == M * k + M;
    }
  }

  lemma {:induction false} QuotientBetween(a: real, lo: real, hi: real, n: real)
    requires n > 0.0 && lo * n <= a <= hi * n
    ensures lo <= a / n <= hi
  {
    assert a / n * n == a;
  }

  /** Every element multiplied by `c`. */
  function Scale(c: real, s: seq<real>): (t: seq<real>)
    ensures |t| == |s|
  {
    if |s| == 0 then [] else Scale(c, s[..|s| - 1]) + [c * s[|s| - 1]]
  }

  /** Each entry of a scaled sequence is the original entry times the factor. */
  lemma {:induction false} ScaleAt(c: real, s: seq<real>, i: nat)
    requires i < |s|
    ensures Scale(c, s)[i] == c * s[i]
    decreases |s|
  {
    if i < |s| - 1 {
      ScaleAt(c, s[..|s| - 1], i);
    }
  }

  lemma Distributes(c: real, a: real, b: real, total: real)
    requires total == a + b
    ensures c * total == c * a + c * b
  {
  }

  lemma {:induction false} SumScale(c: real, s: seq<real>)
    ensures Sum(Scale(c, s)) == c * Sum(s)
  {
    if |s| > 0 {
      var init := s[..|s| - 1];
      assert Scale(c, s) == Scale(c, init) + [c * s[|s| - 1]];
      SumScale(c, init);
      SumAppend(Scale(c, init), [c * s[|s| - 1]]);
      SumSingle(c * s[|s| - 1]);
      Distributes(c, Sum(init), s[|s| - 1], Sum(s));
    }
  }

  /** Pointwise `c * a[i] <= e[i]` sums to `c * Sum(a) <= Sum(e)`. */
  lemma {:induction false} SumAtLeastScaled(a: seq<real>, e: seq<real>, c: real)
    requires |a| == |e|
    requires forall i :: 0 <= i < |a| ==> c * a[i] <= e[i]
    ensures c * Sum(a) <= Sum(e)
  {
    if |a| > 0 {
      var n := |a| - 1;
      SumAtLeastScaled(a[..n], e[..n], c);
      Distributes(c, Sum(a[..n]), a[n], Sum(a));
    }
  }

  /** Pointwise `e[i] <= c * a[i]` sums to `Sum(e) <= c * Sum(a)`. */
  lemma {:induction false} SumAtMostScaled(a: seq<real>, e: seq<real>, c: real)
    requires |a| == |e|
    requires forall i :: 0 <= i < |a| ==> e[i] <= c * a[i]
    ensures Sum(e) <= c * Sum(a)
  {
    if |a| > 0 {
      var n := |a| - 1;
      SumAtMostScaled(a[..n], e[..n], c);
      Distributes(c, Sum(a[..n]), a[n], Sum(a));
    }
  }

  lemma {:induction false} SumConstant(s: seq<real>, c: real)
    requires forall i :: 0 <= i < |s| ==> s[i] == c
    ensures Sum(s) == c * |s| as real
  {
    if |s| > 0 {
      SumConstant(s[..|s| - 1], c);
    }
  }

  /** x to a natural power, by repeated multiplication. */
  function Pow(x: real, n: nat): real
  {
    if n == 0 then 1.0 else x * Pow(x, n - 1)
  }

  lemma {:induction false} PowPositive(x: real, n: nat)
    requires x > 0.0
    ensures Pow(x, n) > 0.0
  {
    if n > 0 {
      PowPositive(x, n - 1);
    }
  }

  lemma {:induction false} PowAtLeastOne(x: real, n: nat)
    requires x >= 1.0
    ensures Pow(x, n) >= 1.0
  {
    if n > 0 {
      PowAtLeastOne(x, n - 1);
    }
  }

  lemma {:induction false} PowGreaterThanOne(x: real, n: nat)
    requires x > 1.0 && n > 0
    ensures Pow(x, n) > 1.0
  {
    if n > 1 {
      PowGreaterThanOne(x, n - 1);
    } else {
      assert Pow(x, 1) == x * Pow(x, 0);
    }
  }

  lemma {:induction false} PowNonZero(x: real, n: nat)
    requires x != 0.0
    ensures Pow(x, n) != 0.0
  {
    if n > 0 {
      PowNonZero(x, n - 1);
    }
  }

  lemma {:induction false} PowAdd(x: real, m: nat, n: nat)
    ensures Pow(x, m + n) == Pow(x, m) * Pow(x, n)
  {
    if n > 0 {
      PowAdd(x, m, n - 1);
      assert Pow(x, m + n) == x * Pow(x, m + n - 1);
    }
  }

  /** Python's `x ** n` for an integer exponent; None where Python raises ZeroDivisionError. */
  function IntPow(x: real, n: int): (r: Option<real>)
    ensures r.None? <==> (x == 0.0 && n < 0)
    ensures n >= 0 ==> r == Some(Pow(x, n))
  {
    if n >= 0 then Some(Pow(x, n))
    else if x == 0.0 then None
    else PowNonZero(x, -n); Some(1.0 / Pow(x, -n))
  }

  lemma {:induction false} IntPowZero(x: real, n: int)
    ensures IntPow(x, n) == Some(0.0) <==> x == 0.0 && n > 0
  {
    if x != 0.0 {
      PowNonZero(x, if n >= 0 then n else -n);
    }
  }

  function Max(a: real, b: real): real { if a >= b then a else b }

  function Min(a: real, b: real): real { if a <= b then a else b }

  /** Python's `abs` on a float. */
  function Abs(x: real): real
  {
    if x < 0.0 then -x else x
  }

  /** Python's `int(x)` for a float: truncation toward zero. */
  function Trunc(x: real): (r: int)
    ensures x >= 0.0 ==> r as real <= x < r as real + 1.0
    ensures x < 0.0 ==> r as real - 1.0 < x <= r as real
  {
    if x >= 0.0 then x.Floor else -((-x).Floor)
  }

  /** Python's `round(x)`: nearest integer, ties to the even one. */
  function RoundHalfEven(x: real): (r: int)
    ensures x - 0.5 <= r as real <= x + 0.5
    ensures r as real == x - 0.5 || r as real == x + 0.5 ==> r % 2 == 0
  {
    var f := x.Floor;
    var frac := x - f as real;
    if frac < 0.5 then f
    else if frac > 0.5 then f + 1
    else if f % 2 == 0 then f else f + 1
  }

  /** A float that may be `inf`, ordered with `inf` above every finite value. */
  datatype ExtReal = Finite(v: real) | Infinite
  {
    predicate Le(other: ExtReal)
    {
      match (this, other)
      case (_, Infinite) => true
      case (Infinite, Finite(_)) => false
      case (Finite(a), Finite(b)) => a <= b
    }
  }

  /** `this <= threshold` for a finite threshold: `inf <= t` is False in Python. */
  predicate AtMost(x: ExtReal, threshold: real)
  {
    x.Finite? && x.v <= threshold
  }

  lemma {:induction false} MulNonNegative(x: real, y: real)
    requires x >= 0.0 && y >= 0.0
    ensures x * y >= 0.0
  {
  }

  /** `a * (1 - t) + b * t` for `0 <= t <= 1` lies between `a` and `b`. */
  lemma {:induction false} LerpBetween(a: real, b: real, t: real)
    requires 0.0 <= t <= 1.0
    ensures Min(a, b) <= a * (1.0 - t) + b * t <= Max(a, b)
  {
    var r := a * (1.0 - t) + b * t;
    assert r == a + t * (b - a);
    var d := if a <= b then b - a else a - b;
    MulNonNegative(t, d);
    MulNonNegative(1.0 - t, d);
    assert (1.0 - t) * d == d - t * d;
  }
}
