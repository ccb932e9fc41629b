/** Finite sums of reals: `sum(values, Decimal("0"))`. */
module Sums {

  function Sum(xs: seq<real>): real {
    var n := |xs|;
    if n == 0 then 0.0 else Sum(xs[..n - 1]) + xs[n - 1]
  }

  function Positioned(x: real, n: nat): real {
    x * n as real
  }

  /** The sum with every element multiplied by its position, counted from one. */
  function TimeSum(xs: seq<real>): real {
    var n := |xs|;
    if n == 0 then 0.0 else TimeSum(xs[..n - 1]) + Positioned(xs[n - 1], n)
  }

  ghost predicate NonNegative(xs: seq<real>) {
    forall k :: 0 <= k < |xs| ==> xs[k] >= 0.0
  }

  lemma SumExtend(xs: seq<real>, k: nat)
    requires k < |xs|
    ensures Sum(xs[..k + 1]) == Sum(xs[..k]) + xs[k]
  {
    assert xs[..k + 1][..k] == xs[..k];
  }

  lemma {:induction false} SumAppend(xs: seq<real>, ys: seq<real>)
    ensures Sum(xs + ys) == Sum(xs) + Sum(ys)
  {
    if ys == [] {
      assert xs + ys == xs;
    } else {
      var n := |ys| - 1;
      SumAppend(xs, ys[..n]);
      assert (xs + ys)[..|xs + ys| - 1] == xs + ys[..n];
    }
  }

  lemma {:induction false} SumMonotone(xs: seq<real>, ys: seq<real>)
    requires |xs| == |ys|
    requires forall k :: 0 <= k < |xs| ==> xs[k] <= ys[k]
    ensures Sum(xs) <= Sum(ys)
    ensures |xs| > 0 && xs[|xs| - 1] < ys[|xs| - 1] ==> Sum(xs) < Sum(ys)
  {
    if xs != [] {
      SumMonotone(xs[..|xs| - 1], ys[..|xs| - 1]);
    }
  }

  lemma {:induction false} SumNonNegative(xs: seq<real>)
    requires NonNegative(xs)
    ensures Sum(xs) >= 0.0
    ensures |xs| > 0 && xs[|xs| - 1] > 0.0 ==> Sum(xs) > 0.0
  {
    if xs != [] {
      SumNonNegative(xs[..|xs| - 1]);
    }
  }

  lemma LastAdded(xs: seq<real>, x: real)
    ensures Sum(xs + [x]) == Sum(xs) + x
    ensures TimeSum(xs + [x]) == TimeSum(xs) + Positioned(x, |xs| + 1)
  {
    hide Positioned;
    assert (xs + [x])[..|xs|] == xs;
  }

  lemma PositionedNext(x: real, n: nat)
    ensures Positioned(x, n + 1) == Positioned(x, n) + x
  {}

  lemma Distribute(k: real, a: real, b: real, sum: real)
    requires sum == a + b
    ensures k * sum == k * a + k * b
  {}

  /** A positive multiple has the sign of the other factor. */
  lemma Signs(m: real, x: real)
    requires m > 0.0
    ensures m * x > 0.0 <==> x > 0.0
    ensures m * x == 0.0 <==> x == 0.0
    ensures m * x < 0.0 <==> x < 0.0
  {}

  lemma Scale(c: real, x: real, y: real)
    requires c >= 0.0 && x <= y
    ensures c * x <= c * y
    ensures c > 0.0 && x < y ==> c * x < c * y
  {
    assert c * (y - x) == c * y - c * x;
    if c > 0.0 {
      Signs(c, y - x);
    }
  }

  lemma {:induction false} SumAtMost(xs: seq<real>, x: real)
    requires forall i | 0 <= i < |xs| :: xs[i] <= x
    ensures Sum(xs) <= Positioned(x, |xs|)
  {
    hide Positioned;
    if xs == [] {
      PositionedZero(x);
    } else {
      SumAtMost(xs[..|xs| - 1], x);
      PositionedNext(x, |xs| - 1);
    }
  }

  lemma {:induction false} SumAtLeast(xs: seq<real>, x: real)
    requires forall i | 0 <= i < |xs| :: x <= xs[i]
    ensures Positioned(x, |xs|) <= Sum(xs)
  {
    hide Positioned;
    if xs == [] {
      PositionedZero(x);
    } else {
      SumAtLeast(xs[..|xs| - 1], x);
      PositionedNext(x, |xs| - 1);
    }
  }

  lemma PositionedZero(x: real)
    ensures Positioned(x, 0) == 0.0
  {}

  lemma QuotientAtLeast(n: real, low: real, sum: real)
    requires n > 0.0 && n * low <= sum
    ensures low <= sum / n
  {
    var q := sum / n;
    assert n * q == sum;
    assert n * (q - low) == n * q - n * low;
    Signs(n, q - low);
  }

  lemma QuotientAtMost(n: real, sum: real, high: real)
    requires n > 0.0 && sum <= n * high
    ensures sum / n <= high
  {
    var q := sum / n;
    assert n * q == sum;
    assert n * (high - q) == n * high - n * q;
    Signs(n, high - q);
  }
}
