/**
 * Descriptive metrics of a profit-and-loss sequence: one pass for the maximum drawdown, a sorted
 * tail for the expected shortfall. Amounts are exact reals.
 */
module Metrics {
  import opened Common
  import opened Sums
  import Sorting

  // ---------------------------------------------------------------- order statistics

  predicate RealLe(a: real, b: real) {
    a <= b
  }

  function Ascending(xs: seq<real>): seq<real> {
    Sorting.Sort(RealLe, xs)
  }

  predicate Sorted(xs: seq<real>) {
    forall i, j | 0 <= i < j < |xs| :: xs[i] <= xs[j]
  }

  lemma RealOrder()
    ensures Sorting.IsOrder(RealLe)
  {
  }

  lemma AscendingFacts(xs: seq<real>)
    ensures Sorted(Ascending(xs)) && multiset(Ascending(xs)) == multiset(xs) && |Ascending(xs)| == |xs|
    ensures Sum(Ascending(xs)) == Sum(xs)
  {
    RealOrder();
    Sorting.SortPermutes(RealLe, xs);
    Sorting.SortSorts(RealLe, xs);
    assert Sorting.SortedBy(RealLe, Ascending(xs));
    SortKeepsSum(xs);
  }

  lemma {:induction false} SortKeepsSum(xs: seq<real>)
    ensures Sum(Ascending(xs)) == Sum(xs)
  {
    if xs != [] {
      SortKeepsSum(xs[1..]);
      InsertAddsToSum(xs[0], Ascending(xs[1..]));
      assert xs == [xs[0]] + xs[1..];
      SumAppend([xs[0]], xs[1..]);
      assert [xs[0]][..0] == [];
    }
  }

  lemma {:induction false} InsertAddsToSum(x: real, xs: seq<real>)
    ensures Sum(Sorting.Insert(RealLe, x, xs)) == x + Sum(xs)
  {
    assert Sum([x]) == x by {
      assert [x][..0] == [];
    }
    if xs == [] || RealLe(x, xs[0]) {
      SumAppend([x], xs);
    } else {
      InsertAddsToSum(x, xs[1..]);
      SumAppend([xs[0]], Sorting.Insert(RealLe, x, xs[1..]));
      SumAppend([xs[0]], xs[1..]);
      assert xs == [xs[0]] + xs[1..];
      assert [xs[0]][..0] == [];
    }
  }

  lemma OrderDoesNotMatter(xs: seq<real>, ys: seq<real>)
    requires multiset(xs) == multiset(ys)
    ensures Ascending(xs) == Ascending(ys) && Sum(xs) == Sum(ys)
  {
    RealOrder();
    Sorting.SortIgnoresOrder(RealLe, xs, ys);
    SortKeepsSum(xs);
    SortKeepsSum(ys);
  }

  // ---------------------------------------------------------------- definitions

  /** The running total after the first k observations. */
  function Equity(pnls: seq<real>, k: nat): real
    requires k <= |pnls|
  {
    Sum(pnls[..k])
  }

  /** The largest fall from an earlier running total to a later one. */
  ghost predicate IsMaximumDrawdown(pnls: seq<real>, d: real) {
    && (forall i, j | 0 <= i <= j <= |pnls| :: Equity(pnls, i) - Equity(pnls, j) <= d)
    && (exists i, j | 0 <= i <= j <= |pnls| :: Equity(pnls, i) - Equity(pnls, j) == d)
  }

  function Ceiling(x: real): int {
    -((-x).Floor)
  }

  function TailShare(n: nat, confidence: real): real {
    n as real * (1.0 - confidence)
  }

  function TailCount(n: nat, confidence: real): int {
    var k := Ceiling(TailShare(n, confidence));
    if k > 1 then k else 1
  }

  function Average(sum: real, k: int): real
    requires k > 0
  {
    sum / k as real
  }

  /** The average of the worst observations, as many as the confidence leaves over. */
  function Shortfall(pnls: seq<real>, confidence: real): real
    requires pnls != [] && 0.0 < confidence < 1.0
  {
    AscendingFacts(pnls);
    TailCountInRange(|pnls|, confidence);
    var k := TailCount(|pnls|, confidence);
    Average(Sum(Ascending(pnls)[..k]), k)
  }

  function Mean(pnls: seq<real>): real
    requires pnls != []
  {
    Average(Sum(pnls), |pnls|)
  }

  function Median(values: seq<real>): real
    requires values != []
  {
    Sorting.SortPermutes(RealLe, values);
    var ordered := Ascending(values);
    var midpoint := |ordered| / 2;
    if |ordered| % 2 == 1 then ordered[midpoint] else (ordered[midpoint - 1] + ordered[midpoint]) / 2.0
  }

  function Gain(pnl: real): seq<real> {
    if pnl > 0.0 then [pnl] else []
  }

  function Loss(pnl: real): seq<real> {
    if pnl < 0.0 then [pnl] else []
  }

  function Gains(pnls: seq<real>): seq<real> {
    if pnls == [] then [] else Gains(pnls[..|pnls| - 1]) + Gain(pnls[|pnls| - 1])
  }

  function Losses(pnls: seq<real>): seq<real> {
    if pnls == [] then [] else Losses(pnls[..|pnls| - 1]) + Loss(pnls[|pnls| - 1])
  }

  /** A factor of None is the source's infinity. */
  datatype Performance = Performance(
    sampleSize: nat, total: real, mean: real, median: real, winRate: real,
    profitFactor: Option<real>, maximumDrawdown: real, expectedShortfall: real, confidence: real)

  datatype MetricsError = NoObservations | ConfidenceOutOfRange

  ghost predicate Describes(p: Performance, pnls: seq<real>, confidence: real)
    requires pnls != [] && 0.0 < confidence < 1.0
  {
    var n := |pnls|;
    && p.sampleSize == n && p.confidence == confidence
    && p.total == Sum(pnls) && p.mean == Mean(pnls)
    && p.median == Median(pnls)
    && p.winRate == Average(|Gains(pnls)| as real, n)
    && p.profitFactor == (if Sum(Losses(pnls)) < 0.0 then Some(Sum(Gains(pnls)) / -Sum(Losses(pnls))) else None)
    && IsMaximumDrawdown(pnls, p.maximumDrawdown)
    && p.expectedShortfall == Shortfall(pnls, confidence)
  }

  method EvaluatePnlSeries(pnls: seq<real>, confidence: real) returns (r: Result<Performance, MetricsError>)
    ensures if pnls == [] then r == Err(NoObservations)
            else if !(0.0 < confidence < 1.0) then r == Err(ConfidenceOutOfRange)
            else r.Ok? && Describes(r.value, pnls, confidence)
  {
    if pnls == [] {
      return Err(NoObservations);
    }
    if !(0.0 < confidence < 1.0) {
      return Err(ConfidenceOutOfRange);
    }
    var total := Sum(pnls);
    var grossProfit := Sum(Gains(pnls));
    var grossLoss := -Sum(Losses(pnls));
    var profitFactor := if grossLoss > 0.0 then Some(grossProfit / grossLoss) else None;
    var maximumDrawdown := MaximumDrawdown(pnls);
    var tailCount := TailCount(|pnls|, confidence);
    TailCountInRange(|pnls|, confidence);
    AscendingFacts(pnls);
    var tail := Ascending(pnls)[..tailCount];
    return Ok(Performance(|pnls|, total, Average(total, |pnls|), Median(pnls), Average(|Gains(pnls)| as real, |pnls|),
                          profitFactor, maximumDrawdown, Average(Sum(tail), tailCount), confidence));
  }

  // ---------------------------------------------------------------- drawdown

  ghost predicate IsPeak(pnls: seq<real>, k: nat, peak: real)
    requires k <= |pnls|
  {
    && (forall i | 0 <= i <= k :: Equity(pnls, i) <= peak)
    && (exists i | 0 <= i <= k :: Equity(pnls, i) == peak)
  }

  ghost predicate IsDrawdownUpTo(pnls: seq<real>, k: nat, d: real)
    requires k <= |pnls|
  {
    && (forall i, j | 0 <= i <= j <= k :: Equity(pnls, i) - Equity(pnls, j) <= d)
    && (exists i, j | 0 <= i <= j <= k :: Equity(pnls, i) - Equity(pnls, j) == d)
  }

  method MaximumDrawdown(pnls: seq<real>) returns (d: real)
    ensures IsMaximumDrawdown(pnls, d)
  {
    hide IsPeak, IsDrawdownUpTo, IsMaximumDrawdown, Equity;
    var equity, peak := 0.0, 0.0;
    d := 0.0;
    FlatAtFirst(pnls);
    for k := 0 to |pnls|
      invariant equity == Equity(pnls, k)
      invariant IsPeak(pnls, k, peak)
      invariant IsDrawdownUpTo(pnls, k, d)
    {
      equity := equity + pnls[k];
      EquityMoves(pnls, k);
      PeakRises(pnls, k, peak);
      peak := Max(peak, equity);
      DrawdownRises(pnls, k, peak, d);
      d := Max(d, peak - equity);
    }
    UpToTheEnd(pnls, d);
  }

  lemma FlatAtFirst(pnls: seq<real>)
    ensures Equity(pnls, 0) == 0.0 && IsPeak(pnls, 0, 0.0) && IsDrawdownUpTo(pnls, 0, 0.0)
  {
    assert Equity(pnls, 0) == 0.0;
  }

  lemma EquityMoves(pnls: seq<real>, k: nat)
    requires k < |pnls|
    ensures Equity(pnls, k + 1) == Equity(pnls, k) + pnls[k]
  {
    SumExtend(pnls, k);
  }

  lemma UpToTheEnd(pnls: seq<real>, d: real)
    requires IsDrawdownUpTo(pnls, |pnls|, d)
    ensures IsMaximumDrawdown(pnls, d)
  {
    hide Equity;
  }

  lemma PeakRises(pnls: seq<real>, k: nat, peak: real)
    requires k < |pnls| && IsPeak(pnls, k, peak)
    ensures IsPeak(pnls, k + 1, Max(peak, Equity(pnls, k + 1)))
  {
    hide Equity;
    var i :| 0 <= i <= k && Equity(pnls, i) == peak;
    assert peak >= Equity(pnls, k + 1) ==> Equity(pnls, i) == Max(peak, Equity(pnls, k + 1));
  }

  lemma DrawdownRises(pnls: seq<real>, k: nat, peak: real, d: real)
    requires k < |pnls| && IsPeak(pnls, k + 1, peak) && IsDrawdownUpTo(pnls, k, d)
    ensures IsDrawdownUpTo(pnls, k + 1, Max(d, peak - Equity(pnls, k + 1)))
  {
    hide Equity;
    var last := Equity(pnls, k + 1);
    if d >= peak - last {
      var i, j :| 0 <= i <= j <= k && Equity(pnls, i) - Equity(pnls, j) == d;
      assert 0 <= i <= j <= k + 1;
    } else {
      var i :| 0 <= i <= k + 1 && Equity(pnls, i) == peak;
      assert Equity(pnls, i) - Equity(pnls, k + 1) == peak - last;
    }
  }

  // ---------------------------------------------------------------- expected shortfall

  lemma ShareBounds(n: nat, confidence: real)
    requires n >= 1 && 0.0 < confidence < 1.0
    ensures 0.0 < TailShare(n, confidence) < n as real
  {
  }

  /** The tail holds at least one observation and never more than there are. */
  lemma TailCountInRange(n: nat, confidence: real)
    requires n >= 1 && 0.0 < confidence < 1.0
    ensures 1 <= TailCount(n, confidence) <= n
  {
    ShareBounds(n, confidence);
  }

  lemma ShareFalls(n: nat, low: real, high: real)
    requires low <= high
    ensures TailShare(n, high) <= TailShare(n, low)
  {
    Scale(n as real, 1.0 - high, 1.0 - low);
  }

  lemma TailCountFalls(n: nat, low: real, high: real)
    requires low <= high
    ensures TailCount(n, high) <= TailCount(n, low)
  {
    hide TailShare;
    ShareFalls(n, low, high);
  }

  lemma SumOfOne(x: real)
    ensures Sum([x]) == x
  {
    assert [x][..0] == [];
  }

  lemma SumWithout(xs: seq<real>, i: nat)
    requires i < |xs|
    ensures Sum(xs) == Sum(xs[..i] + xs[i + 1..]) + xs[i]
  {
    hide Sum;
    var front, back, x := xs[..i], xs[i + 1..], [xs[i]];
    assert xs == front + (x + back);
    SumAppend(front, x + back);
    SumAppend(x, back);
    SumAppend(front, back);
    SumOfOne(xs[i]);
  }

  /** Among the choices of k observations the first k of the sorted ones have the least sum. */
  lemma {:induction false} SortedPrefixIsLeast(s: seq<real>, chosen: seq<real>)
    requires Sorted(s) && multiset(chosen) <= multiset(s)
    ensures |chosen| <= |s| && Sum(s[..|chosen|]) <= Sum(chosen)
    decreases |s|
  {
    hide Sum;
    SmallerIsShorter(chosen, s);
    if chosen == [] {
      assert s[..0] == chosen;
    } else {
      var n, last := |s| - 1, s[|s| - 1];
      assert s == s[..n] + [last];
      if multiset(chosen)[last] < multiset(s)[last] {
        LastNotNeeded(chosen, s);
        SortedPrefixIsLeast(s[..n], chosen);
        assert s[..n][..|chosen|] == s[..|chosen|];
      } else {
        assert last in multiset(s) && last in multiset(chosen);
        var rest := TakeOut(chosen, s);
        SortedPrefixIsLeast(s[..n], rest);
        assert s[..n][..|rest|] == s[..|rest|];
        SumExtend(s, |rest|);
        assert s[|rest|] <= last;
      }
    }
  }

  lemma LastNotNeeded(chosen: seq<real>, s: seq<real>)
    requires s != [] && multiset(chosen) <= multiset(s) && multiset(chosen)[s[|s| - 1]] < multiset(s)[s[|s| - 1]]
    ensures multiset(chosen) <= multiset(s[..|s| - 1])
  {
    var n, last := |s| - 1, s[|s| - 1];
    assert s == s[..n] + [last];
    assert multiset(s) == multiset(s[..n]) + multiset{last};
    forall v
      ensures multiset(chosen)[v] <= multiset(s[..n])[v]
    {
      assert multiset(chosen)[v] <= multiset(s)[v];
    }
  }

  lemma TakeOut(chosen: seq<real>, s: seq<real>) returns (rest: seq<real>)
    requires s != [] && multiset(chosen) <= multiset(s) && s[|s| - 1] in chosen
    ensures |rest| + 1 == |chosen| && multiset(rest) <= multiset(s[..|s| - 1]) && Sum(chosen) == Sum(rest) + s[|s| - 1]
  {
    hide Sum;
    var n, last := |s| - 1, s[|s| - 1];
    var i :| 0 <= i < |chosen| && chosen[i] == last;
    rest := chosen[..i] + chosen[i + 1..];
    SumWithout(chosen, i);
    Sorting.BagWithout(chosen, i);
    assert s == s[..n] + [last];
    assert multiset(s) == multiset(s[..n]) + multiset{last};
    Sorting.CancelOne(multiset(rest), multiset(s[..n]), last);
  }

  lemma SmallerIsShorter(xs: seq<real>, ys: seq<real>)
    requires multiset(xs) <= multiset(ys)
    ensures |xs| <= |ys|
  {
    var more := multiset(ys) - multiset(xs);
    assert multiset(ys) == multiset(xs) + more;
    assert |multiset(ys)| == |multiset(xs)| + |more|;
  }

  lemma AverageMonotone(a: real, b: real, k: int)
    requires k > 0 && a <= b
    ensures Average(a, k) <= Average(b, k)
  {
  }

  lemma AverageRises(sum: real, x: real, k: nat)
    requires k > 0 && sum <= Positioned(x, k)
    ensures Average(sum, k) <= Average(sum + x, k + 1)
  {
    var a := Average(sum, k);
    assert sum == a * k as real;
    assert a <= x;
    assert (sum + x) >= a * (k + 1) as real;
  }

  lemma {:induction false} PrefixAveragesRise(s: seq<real>, j: nat, k: nat)
    requires Sorted(s) && 1 <= j <= k <= |s|
    ensures Average(Sum(s[..j]), j) <= Average(Sum(s[..k]), k)
  {
    hide Average, Positioned;
    if j < k {
      PrefixAveragesRise(s, j, k - 1);
      SumAtMost(s[..k - 1], s[k - 1]);
      AverageRises(Sum(s[..k - 1]), s[k - 1], k - 1);
      SumExtend(s, k - 1);
    }
  }

  /** The expected shortfall is the least average of any choice of that many observations, hence at most the mean. */
  lemma ShortfallIsTheWorstAverage(pnls: seq<real>, confidence: real, chosen: seq<real>)
    requires pnls != [] && 0.0 < confidence < 1.0
    requires multiset(chosen) <= multiset(pnls) && |chosen| == TailCount(|pnls|, confidence)
    ensures Shortfall(pnls, confidence) <= Average(Sum(chosen), |chosen|)
    ensures Shortfall(pnls, confidence) <= Mean(pnls)
  {
    hide Average;
    AscendingFacts(pnls);
    var s, k := Ascending(pnls), |chosen|;
    SortedPrefixIsLeast(s, chosen);
    AverageMonotone(Sum(s[..k]), Sum(chosen), k);
    PrefixAveragesRise(s, k, |s|);
    assert s[..|s|] == s;
  }

  /** Asking for more confidence never raises the expected shortfall. */
  lemma ShortfallFallsWithConfidence(pnls: seq<real>, low: real, high: real)
    requires pnls != [] && 0.0 < low <= high < 1.0
    ensures Shortfall(pnls, high) <= Shortfall(pnls, low)
  {
    hide Average, TailCount;
    AscendingFacts(pnls);
    TailCountInRange(|pnls|, low);
    TailCountInRange(|pnls|, high);
    TailCountFalls(|pnls|, low, high);
    PrefixAveragesRise(Ascending(pnls), TailCount(|pnls|, high), TailCount(|pnls|, low));
  }

  // ---------------------------------------------------------------- relations between the metrics

  lemma OneSided(x: real)
    ensures Sum(Gain(x)) + Sum(Loss(x)) == x
    ensures Sum(Gain(x)) >= 0.0 >= Sum(Loss(x))
    ensures |Gain(x)| + |Loss(x)| <= 1
  {
    SumOfOne(x);
  }

  lemma {:induction false} ProfitsAndLosses(pnls: seq<real>)
    ensures Sum(pnls) == Sum(Gains(pnls)) + Sum(Losses(pnls))
    ensures Sum(Gains(pnls)) >= 0.0 >= Sum(Losses(pnls))
    ensures |Gains(pnls)| + |Losses(pnls)| <= |pnls|
  {
    if pnls != [] {
      hide Gain, Loss;
      var before, x := pnls[..|pnls| - 1], pnls[|pnls| - 1];
      ProfitsAndLosses(before);
      SumAppend(Gains(before), Gain(x));
      SumAppend(Losses(before), Loss(x));
      OneSided(x);
    }
  }

  lemma FactorAboveOne(gains: real, losses: real)
    requires losses < 0.0
    ensures gains / -losses > 1.0 <==> gains + losses > 0.0
  {
    var q := gains / -losses;
    assert q * -losses == gains;
    if q > 1.0 {
      assert q * -losses > -losses;
    } else {
      assert q * -losses <= -losses;
    }
  }

  lemma ShareOfAll(k: nat, n: nat)
    requires k <= n && n > 0
    ensures 0.0 <= Average(k as real, n) <= 1.0
  {
  }

  /** Where there are losses, a profit factor above one is the same as a positive total; wins are a share. */
  lemma FactorAgreesWithTotal(pnls: seq<real>, p: Performance)
    requires pnls != [] && 0.0 < p.confidence < 1.0 && Describes(p, pnls, p.confidence)
    ensures p.profitFactor.Some? ==> (p.profitFactor.value > 1.0 <==> p.total > 0.0)
    ensures p.profitFactor.None? ==> p.total >= 0.0
    ensures 0.0 <= p.winRate <= 1.0
  {
    hide IsMaximumDrawdown, Median, Shortfall, Mean, Average, Gains, Losses;
    ProfitsAndLosses(pnls);
    ShareOfAll(|Gains(pnls)|, |pnls|);
    var gains, losses := Sum(Gains(pnls)), Sum(Losses(pnls));
    if losses < 0.0 {
      FactorAboveOne(gains, losses);
    }
  }

  lemma AverageAtLeast(xs: seq<real>, x: real)
    requires xs != [] && forall i | 0 <= i < |xs| :: x <= xs[i]
    ensures x <= Average(Sum(xs), |xs|)
  {
    SumAtLeast(xs, x);
    QuotientAtLeast(|xs| as real, x, Sum(xs));
  }

  /** The drawdown covers the final loss, every single loss, and the expected shortfall. */
  lemma DrawdownCoversLosses(pnls: seq<real>, d: real, confidence: real)
    requires pnls != [] && 0.0 < confidence < 1.0 && IsMaximumDrawdown(pnls, d)
    ensures d >= 0.0 && d >= -Sum(pnls)
    ensures forall x | x in pnls :: d >= -x
    ensures d >= -Shortfall(pnls, confidence)
  {
    hide Average, TailCount;
    var n := |pnls|;
    TailCountInRange(n, confidence);
    assert Equity(pnls, 0) == 0.0 && Equity(pnls, n) == Sum(pnls) by {
      assert pnls[..n] == pnls;
    }
    assert Equity(pnls, 0) - Equity(pnls, 0) <= d && Equity(pnls, 0) - Equity(pnls, n) <= d;
    forall x | x in pnls
      ensures d >= -x
    {
      var k :| 0 <= k < n && pnls[k] == x;
      SumExtend(pnls, k);
      assert Equity(pnls, k) - Equity(pnls, k + 1) <= d;
    }
    AscendingFacts(pnls);
    var tail := Ascending(pnls)[..TailCount(n, confidence)];
    forall i | 0 <= i < |tail|
      ensures -d <= tail[i]
    {
      assert tail[i] in multiset(Ascending(pnls));
      assert tail[i] in pnls;
    }
    AverageAtLeast(tail, -d);
  }

  lemma SameMedian(xs: seq<real>, ys: seq<real>)
    requires xs != [] && ys != [] && multiset(xs) == multiset(ys)
    ensures Median(xs) == Median(ys)
  {
    OrderDoesNotMatter(xs, ys);
  }

  /** All metrics but the drawdown depend only on which observations there are, not on their order. */
  lemma OnlyDrawdownNeedsTheOrder(xs: seq<real>, ys: seq<real>, p: Performance, q: Performance)
    requires xs != [] && ys != [] && multiset(xs) == multiset(ys)
    requires 0.0 < p.confidence == q.confidence < 1.0 && Describes(p, xs, p.confidence)
             && Describes(q, ys, q.confidence)
    ensures p.(maximumDrawdown := 0.0) == q.(maximumDrawdown := 0.0)
  {
    hide IsMaximumDrawdown, TailCount, Average, Median, Gains, Losses, Ascending;
    OrderDoesNotMatter(xs, ys);
    SameMedian(xs, ys);
    Sorting.SameMultiset(xs, ys);
    SortKeepsSplit(xs);
    SortKeepsSplit(ys);
    assert Split(xs) == Split(ys);
  }

  lemma {:induction false} SplitAppend(xs: seq<real>, ys: seq<real>)
    ensures Gains(xs + ys) == Gains(xs) + Gains(ys) && Losses(xs + ys) == Losses(xs) + Losses(ys)
  {
    hide Gain, Loss;
    if ys == [] {
      assert xs + ys == xs;
      assert Gains(xs) + [] == Gains(xs) && Losses(xs) + [] == Losses(xs);
    } else {
      var n, last := |ys| - 1, ys[|ys| - 1];
      SplitAppend(xs, ys[..n]);
      assert (xs + ys)[..|xs + ys| - 1] == xs + ys[..n];
      assert Gains(xs) + Gains(ys[..n]) + Gain(last) == Gains(xs) + (Gains(ys[..n]) + Gain(last));
      assert Losses(xs) + Losses(ys[..n]) + Loss(last) == Losses(xs) + (Losses(ys[..n]) + Loss(last));
    }
  }

  /** The sums and the number of gains and losses. */
  function Split(xs: seq<real>): (real, nat, real) {
    (Sum(Gains(xs)), |Gains(xs)|, Sum(Losses(xs)))
  }

  function Join(a: (real, nat, real), b: (real, nat, real)): (real, nat, real) {
    (a.0 + b.0, a.1 + b.1, a.2 + b.2)
  }

  lemma SplitJoins(xs: seq<real>, ys: seq<real>)
    ensures Split(xs + ys) == Join(Split(xs), Split(ys))
  {
    hide Gains, Losses;
    SplitAppend(xs, ys);
    SumAppend(Gains(xs), Gains(ys));
    SumAppend(Losses(xs), Losses(ys));
  }

  lemma {:induction false} InsertKeepsSplit(x: real, xs: seq<real>)
    ensures Split(Sorting.Insert(RealLe, x, xs)) == Join(Split([x]), Split(xs))
  {
    hide Split;
    SplitJoins([x], xs);
    if !(xs == [] || RealLe(x, xs[0])) {
      var rest := Sorting.Insert(RealLe, x, xs[1..]);
      InsertKeepsSplit(x, xs[1..]);
      SplitJoins([xs[0]], rest);
      SplitJoins([xs[0]], xs[1..]);
      assert xs == [xs[0]] + xs[1..];
    }
  }

  lemma {:induction false} SortKeepsSplit(xs: seq<real>)
    ensures Split(Ascending(xs)) == Split(xs)
  {
    hide Split;
    if xs != [] {
      SortKeepsSplit(xs[1..]);
      InsertKeepsSplit(xs[0], Ascending(xs[1..]));
      SplitJoins([xs[0]], xs[1..]);
      assert xs == [xs[0]] + xs[1..];
    }
  }

  // ---------------------------------------------------------------- what the figures say

  function CountBelow(xs: seq<real>, x: real): nat {
    if xs == [] then 0 else (if xs[0] < x then 1 else 0) + CountBelow(xs[1..], x)
  }

  function CountAbove(xs: seq<real>, x: real): nat {
    if xs == [] then 0 else (if xs[0] > x then 1 else 0) + CountAbove(xs[1..], x)
  }

  /** With k observations before it and the others after it, x is in place when they are sorted. */
  predicate Stands(xs: seq<real>, k: nat, x: real) {
    x in xs && CountBelow(xs, x) <= k && CountAbove(xs, x) < |xs| - k
  }

  lemma {:induction false} InsertCounts(y: real, xs: seq<real>, x: real)
    ensures CountBelow(Sorting.Insert(RealLe, y, xs), x) == CountBelow(xs, x) + if y < x then 1 else 0
    ensures CountAbove(Sorting.Insert(RealLe, y, xs), x) == CountAbove(xs, x) + if y > x then 1 else 0
  {
    if xs == [] || RealLe(y, xs[0]) {
      assert ([y] + xs)[1..] == xs;
    } else {
      InsertCounts(y, xs[1..], x);
      assert ([xs[0]] + Sorting.Insert(RealLe, y, xs[1..]))[1..] == Sorting.Insert(RealLe, y, xs[1..]);
    }
  }

  lemma {:induction false} SortCounts(xs: seq<real>, x: real)
    ensures CountBelow(Ascending(xs), x) == CountBelow(xs, x) && CountAbove(Ascending(xs), x) == CountAbove(xs, x)
  {
    if xs != [] {
      SortCounts(xs[1..], x);
      InsertCounts(xs[0], Ascending(xs[1..]), x);
    }
  }

  lemma {:induction false} SortedCounts(xs: seq<real>, k: nat)
    requires Sorted(xs) && k < |xs|
    ensures CountBelow(xs, xs[k]) <= k && CountAbove(xs, xs[k]) < |xs| - k
  {
    if k > 0 {
      SortedCounts(xs[1..], k - 1);
    } else {
      NoneBelow(xs, xs[0]);
      AtMostAll(xs[1..], xs[0]);
    }
  }

  lemma {:induction false} NoneBelow(xs: seq<real>, x: real)
    requires forall i | 0 <= i < |xs| :: x <= xs[i]
    ensures CountBelow(xs, x) == 0
  {
    if xs != [] {
      NoneBelow(xs[1..], x);
    }
  }

  lemma {:induction false} AtMostAll(xs: seq<real>, x: real)
    ensures CountAbove(xs, x) <= |xs|
  {
    if xs != [] {
      AtMostAll(xs[1..], x);
    }
  }

  lemma InPlace(xs: seq<real>, k: nat)
    requires k < |xs|
    ensures |Ascending(xs)| == |xs| && Stands(xs, k, Ascending(xs)[k])
  {
    AscendingFacts(xs);
    SortCounts(xs, Ascending(xs)[k]);
    SortedCounts(Ascending(xs), k);
    assert Ascending(xs)[k] in multiset(xs);
  }

  /** The two observations around the middle of an even number. */
  predicate AroundTheMiddle(xs: seq<real>, a: real, b: real)
    requires xs != []
  {
    |xs| % 2 == 0 && Stands(xs, |xs| / 2 - 1, a) && Stands(xs, |xs| / 2, b)
  }

  /** The observation in the middle, or the mean of the two there. */
  ghost predicate IsMedian(xs: seq<real>, m: real)
    requires xs != []
  {
    if |xs| % 2 == 1 then Stands(xs, |xs| / 2, m)
    else exists a, b :: AroundTheMiddle(xs, a, b) && m + m == a + b
  }

  lemma MedianIsInTheMiddle(xs: seq<real>)
    requires xs != []
    ensures IsMedian(xs, Median(xs))
  {
    hide Stands;
    var n := |xs|;
    InPlace(xs, n / 2);
    if n % 2 == 0 {
      InPlace(xs, n / 2 - 1);
      assert AroundTheMiddle(xs, Ascending(xs)[n / 2 - 1], Ascending(xs)[n / 2]);
    }
  }

  function Won(x: real): real {
    if x > 0.0 then x else 0.0
  }

  function Lost(x: real): real {
    if x < 0.0 then -x else 0.0
  }

  function WinsAt(pnls: seq<real>): set<nat> {
    set k: nat | k < |pnls| && pnls[k] > 0.0
  }

  lemma {:induction false} GainsAre(pnls: seq<real>)
    ensures Sum(Gains(pnls)) == Sum(Sorting.Map(Won, pnls))
  {
    if pnls != [] {
      var n := |pnls| - 1;
      GainsAre(pnls[..n]);
      assert Sorting.Map(Won, pnls)[..n] == Sorting.Map(Won, pnls[..n]);
      OneSided(pnls[n]);
      SumAppend(Gains(pnls[..n]), Gain(pnls[n]));
    }
  }

  lemma {:induction false} GainsAreWins(pnls: seq<real>)
    ensures |Gains(pnls)| == |WinsAt(pnls)|
  {
    if pnls != [] {
      var n := |pnls| - 1;
      GainsAreWins(pnls[..n]);
      assert WinsAt(pnls) == WinsAt(pnls[..n]) + if pnls[n] > 0.0 then {n} else {};
    }
  }

  lemma {:induction false} LossesAre(pnls: seq<real>)
    ensures -Sum(Losses(pnls)) == Sum(Sorting.Map(Lost, pnls))
  {
    if pnls != [] {
      var n := |pnls| - 1;
      LossesAre(pnls[..n]);
      assert Sorting.Map(Lost, pnls)[..n] == Sorting.Map(Lost, pnls[..n]);
      OneSided(pnls[n]);
      SumAppend(Losses(pnls[..n]), Loss(pnls[n]));
    }
  }

  /** The tail is the least number of observations, one at least, that the confidence leaves over. */
  lemma TailIsLeastCover(n: nat, confidence: real)
    requires n > 0 && 0.0 < confidence < 1.0
    ensures var k := TailCount(n, confidence);
            && k >= 1 && k as real >= n as real * (1.0 - confidence)
            && (k > 1 ==> (k - 1) as real < n as real * (1.0 - confidence))
  {
  }

  /** The tail's observations: as many, among those there are, and no other choice has a smaller sum. */
  ghost predicate IsWorst(pnls: seq<real>, k: int, tail: seq<real>) {
    && |tail| == k && multiset(tail) <= multiset(pnls)
    && forall chosen: seq<real> | |chosen| == k && multiset(chosen) <= multiset(pnls) :: Sum(tail) <= Sum(chosen)
  }

  lemma WorstTail(pnls: seq<real>, k: int)
    requires 0 < k <= |pnls|
    ensures |Ascending(pnls)| == |pnls| && IsWorst(pnls, k, Ascending(pnls)[..k])
  {
    AscendingFacts(pnls);
    var sorted := Ascending(pnls);
    hide Ascending, Sum;
    assert sorted == sorted[..k] + sorted[k..];
    forall chosen: seq<real> | |chosen| == k && multiset(chosen) <= multiset(pnls)
      ensures Sum(sorted[..k]) <= Sum(chosen)
    {
      SortedPrefixIsLeast(sorted, chosen);
    }
  }

  /** The expected shortfall is the average of the tail. */
  ghost predicate IsTailAverage(pnls: seq<real>, confidence: real, s: real) {
    exists tail :: IsWorst(pnls, TailCount(|pnls|, confidence), tail) && Portion(s, |tail|) == Sum(tail)
  }

  function Portion(share: real, n: nat): real {
    share * n as real
  }

  lemma AverageTimes(sum: real, k: int)
    requires k > 0
    ensures Portion(Average(sum, k), k) == sum
  {
  }

  lemma ShortfallIsTailAverage(pnls: seq<real>, confidence: real)
    requires pnls != [] && 0.0 < confidence < 1.0
    ensures IsTailAverage(pnls, confidence, Shortfall(pnls, confidence))
  {
    var k := TailCount(|pnls|, confidence);
    TailCountInRange(|pnls|, confidence);
    WorstTail(pnls, k);
    hide Ascending, Sum, IsWorst, TailCount, Average, Portion;
    AverageTimes(Sum(Ascending(pnls)[..k]), k);
  }

  /** Every figure of a described series, in terms of its observations. */
  lemma FiguresMean(p: Performance, pnls: seq<real>, confidence: real)
    requires pnls != [] && 0.0 < confidence < 1.0 && Describes(p, pnls, confidence)
    ensures p.sampleSize == |pnls| && p.confidence == confidence && p.total == Sum(pnls)
    ensures Portion(p.mean, |pnls|) == Sum(pnls)
    ensures IsMedian(pnls, p.median)
    ensures Portion(p.winRate, |pnls|) == |WinsAt(pnls)| as real
    ensures p.profitFactor.None? <==> Sum(Sorting.Map(Lost, pnls)) == 0.0
    ensures p.profitFactor.Some? ==>
              p.profitFactor.value * Sum(Sorting.Map(Lost, pnls)) == Sum(Sorting.Map(Won, pnls))
    ensures IsMaximumDrawdown(pnls, p.maximumDrawdown)
    ensures IsTailAverage(pnls, confidence, p.expectedShortfall)
  {
    hide Median, Shortfall, TailCount, IsMaximumDrawdown, IsMedian, IsTailAverage, Average, Portion, Gains, Losses, Sum;
    hide Won, Lost, WinsAt;
    MedianIsInTheMiddle(pnls);
    ShortfallIsTailAverage(pnls, confidence);
    GainsAre(pnls);
    GainsAreWins(pnls);
    LossesAre(pnls);
    ProfitsAndLosses(pnls);
    AverageTimes(Sum(pnls), |pnls|);
    AverageTimes(|Gains(pnls)| as real, |pnls|);
    if p.profitFactor.Some? {
      QuotientTimes(Sum(Gains(pnls)), -Sum(Losses(pnls)));
    }
  }

  lemma QuotientTimes(a: real, b: real)
    requires b > 0.0
    ensures a / b * b == a
  {
  }
}
