/** The laws of bond prices and durations. */
module BondTheorems {
  import opened Common
  import opened Powers
  import opened Sums
  import opened Bonds
  import opened BondValues

  function Factor(b: Bond, y: real): real
    requires b.Admits(y)
  {
    1.0 / b.Growth(y)
  }

  function Price(b: Bond, y: real): real
    requires b.Live() && b.Admits(y)
  {
    BondPriceFromYield(b, y).value
  }

  function Years(b: Bond, y: real): real
    requires b.Live() && b.Admits(y)
  {
    Duration(b, y).value
  }

  function Values(b: Bond, y: real): seq<real>
    requires b.Live() && b.Admits(y)
  {
    Discounted(b.Payments(), Factor(b, y))
  }

  lemma LivePayments(b: Bond)
    requires b.Live()
    ensures b.Coupon() >= 0.0 && (b.Coupon() > 0.0 <==> b.couponRate > 0.0)
    ensures |b.Payments()| == b.Periods() && NonNegative(b.Payments())
    ensures b.Payments()[b.Periods() - 1] > 0.0
  {
    CouponSign(b.face, b.couponRate, b.periodsPerYear as real, b.Coupon());
  }

  lemma CouponSign(face: real, rate: real, m: real, coupon: real)
    requires face > 0.0 && rate >= 0.0 && m > 0.0 && coupon == face * rate / m
    ensures coupon >= 0.0 && (coupon > 0.0 <==> rate > 0.0)
  {
    assert coupon * m == face * rate;
  }

  /** At least one payment is left, so the price is the positive sum of the discounted payments. */
  lemma LiveValues(b: Bond, y: real)
    requires b.Live() && b.Admits(y)
    ensures Price(b, y) == Sum(Values(b, y)) > 0.0
    ensures NonNegative(Values(b, y))
    ensures Years(b, y) == MeanYears(Values(b, y), b.periodsPerYear)
    ensures Factor(b, y) > 0.0
  {
    LivePayments(b);
    PositiveReciprocal(b.Growth(y));
    PriceIsPresentValue(b, y);
    DiscountedNonNegative(b.Payments(), Factor(b, y));
  }

  lemma PositiveReciprocal(x: real)
    requires x > 0.0
    ensures 1.0 / x > 0.0
  {}

  // ---------------------------------------------------------------- price against yield

  /** Raising the yield strictly lowers the price. */
  lemma PriceFallsAsYieldRises(b: Bond, y1: real, y2: real)
    requires b.Live() && b.Admits(y1) && y1 < y2
    ensures b.Admits(y2) && Price(b, y2) < Price(b, y1)
  {
    GrowthRises(y1, y2, b.periodsPerYear as real);
    LargerReciprocal(b.Growth(y1), b.Growth(y2));
    LiveValues(b, y1);
    LiveValues(b, y2);
    LivePayments(b);
    ValueIncreases(b.Payments(), Factor(b, y2), Factor(b, y1));
  }

  lemma GrowthRises(y1: real, y2: real, m: real)
    requires y1 < y2 && m > 0.0
    ensures 1.0 + y1 / m < 1.0 + y2 / m
  {}

  lemma LargerReciprocal(x: real, y: real)
    requires 0.0 < x < y
    ensures 0.0 < 1.0 / y < 1.0 / x
  {}

  /** The bond trades at its face value exactly when its yield is its coupon rate. */
  lemma ParExactlyAtCouponRate(b: Bond, y: real)
    requires b.Live() && b.Admits(y)
    ensures Price(b, y) == b.face <==> y == b.couponRate
  {
    PriceAtCouponRate(b);
    if y < b.couponRate {
      PriceFallsAsYieldRises(b, y, b.couponRate);
    } else if b.couponRate < y {
      PriceFallsAsYieldRises(b, b.couponRate, y);
    }
  }

  lemma PriceAtCouponRate(b: Bond)
    requires b.Live()
    ensures b.Admits(b.couponRate) && Price(b, b.couponRate) == b.face
  {
    hide ClosedForm;
    var r := b.couponRate / b.periodsPerYear as real;
    CouponAsYield(b.face, b.couponRate, b.periodsPerYear as real, b.Coupon(), r);
    ClosedFormAtPar(b.Coupon(), b.face, r, b.Periods());
  }

  lemma CouponAsYield(face: real, rate: real, m: real, coupon: real, r: real)
    requires rate >= 0.0 && m > 0.0 && coupon == face * rate / m && r == rate / m
    ensures coupon == face * r && r >= 0.0
  {
    assert r * m == rate;
    assert coupon * m == face * rate;
  }

  lemma ClosedFormAtPar(coupon: real, face: real, r: real, n: nat)
    requires coupon == face * r && r >= 0.0
    ensures ClosedForm(coupon, face, r, n) == face
  {
    if r != 0.0 {
      hide AnnuityAndPrincipal;
      PowPositive(1.0 + r, n);
      AnnuityAtPar(coupon, face, r, Pow(1.0 + r, n));
    } else {
      assert coupon * n as real == 0.0;
    }
  }

  lemma AnnuityAtPar(coupon: real, face: real, r: real, discount: real)
    requires coupon == face * r && r != 0.0 && discount != 0.0
    ensures AnnuityAndPrincipal(coupon, face, r, discount) == face
  {
    var q := 1.0 / discount;
    assert coupon * (1.0 - q) / r == face * (1.0 - q);
    assert face / discount == face * q;
  }

  // ---------------------------------------------------------------- duration as a bound on price moves

  /**
   * Convexity: whatever the yield does, the price ends at or above the first-order estimate
   * fed with modified duration (Macaulay duration over one period's growth).
   */
  lemma ConvexityTangent(b: Bond, y1: real, y2: real)
    requires b.Live() && b.Admits(y1) && b.Admits(y2)
    ensures Price(b, y2) - Price(b, y1)
         >= PriceChangeFromDuration(Years(b, y1) / b.Growth(y1), Price(b, y1), y2 - y1)
  {
    LiveValues(b, y1);
    LiveValues(b, y2);
    LivePayments(b);
    var g1, g2, m := b.Growth(y1), b.Growth(y2), b.periodsPerYear as real;
    var s := 1.0 - Factor(b, y1) / Factor(b, y2);
    TangentBound(b.Payments(), Factor(b, y1), Factor(b, y2), s);
    GrowthRatio(g1, g2, y1, y2, m, s);
    FirstOrder(Sum(Values(b, y1)), TimeSum(Values(b, y1)), Sum(Values(b, y2)), s, m, g1, y2 - y1, Years(b, y1));
  }

  lemma GrowthRatio(g1: real, g2: real, y1: real, y2: real, m: real, s: real)
    requires g1 > 0.0 && g2 > 0.0 && m > 0.0 && g1 == 1.0 + y1 / m && g2 == 1.0 + y2 / m
    requires s == 1.0 - (1.0 / g1) / (1.0 / g2)
    ensures s * (g1 * m) == y1 - y2
  {
    assert (1.0 / g1) / (1.0 / g2) == g2 / g1;
    assert s * g1 == g1 - g2;
    assert g1 * m == m + y1 && g2 * m == m + y2;
    assert s * (g1 * m) == (s * g1) * m;
  }

  lemma FirstOrder(p: real, t: real, p': real, s: real, m: real, g: real, change: real, years: real)
    requires p > 0.0 && m > 0.0 && g > 0.0 && years == t / p / m
    requires OnOrAboveTangent(p, p', t, s) && s * (g * m) == -change
    ensures p' - p >= PriceChangeFromDuration(years / g, p, change)
  {
    assert years * (p * m) == t;
    var d := years / g;
    assert d * g == years;
    assert d * p * (g * m) == t;
    assert (d * p) * change == -(d * p * (g * m)) * s;
  }

  /** At a non-negative yield, raw Macaulay duration never understates the loss from a yield rise. */
  lemma RawDurationCoversTheLoss(b: Bond, y1: real, y2: real)
    requires b.Live() && b.periodsPerYear >= 1 && 0.0 <= y1 <= y2
    ensures b.Admits(y1) && b.Admits(y2)
    ensures Price(b, y2) - Price(b, y1) >= PriceChangeFromDuration(Years(b, y1), Price(b, y1), y2 - y1)
  {
    hide PriceChangeFromDuration;
    GrowthAtLeastOne(y1, b.periodsPerYear as real);
    GrowthAtLeastOne(y2, b.periodsPerYear as real);
    ConvexityTangent(b, y1, y2);
    LiveValues(b, y1);
    DurationWithinLife(b, y1);
    SteeperEstimate(Years(b, y1), b.Growth(y1), Price(b, y1), y2 - y1);
  }

  lemma GrowthAtLeastOne(y: real, m: real)
    requires y >= 0.0 && m > 0.0
    ensures 1.0 + y / m >= 1.0
  {}

  lemma SteeperEstimate(years: real, g: real, price: real, change: real)
    requires years >= 0.0 && g >= 1.0 && price > 0.0 && change >= 0.0
    ensures PriceChangeFromDuration(years / g, price, change) >= PriceChangeFromDuration(years, price, change)
  {
    var d := years / g;
    assert d * g == years;
    assert d >= 0.0;
    assert d * (g - 1.0) >= 0.0;
    Scale(price * change, d, years);
  }

  // ---------------------------------------------------------------- where duration lies

  /**
   * Duration lies between the first and the last payment date, and reaches the last one
   * exactly for a zero-coupon bond or a single remaining payment.
   */
  lemma DurationWithinLife(b: Bond, y: real)
    requires b.Live() && b.Admits(y)
    ensures 0.0 < 1.0 / b.periodsPerYear as real <= Years(b, y) <= b.Periods() as real / b.periodsPerYear as real
    ensures Years(b, y) == b.Periods() as real / b.periodsPerYear as real <==> b.couponRate == 0.0 || b.Periods() == 1
  {
    hide AllAtLast, PaymentValue;
    var xs, n := Values(b, y), b.Periods();
    LiveValues(b, y);
    TimeSumBounds(xs, n);
    ReachesLast(b, y);
    YearsFromBounds(Sum(xs), TimeSum(xs), n as real, b.periodsPerYear as real, Years(b, y));
  }

  lemma YearsFromBounds(p: real, t: real, n: real, m: real, years: real)
    requires p > 0.0 && m > 0.0 && p <= t <= n * p && years == t / p / m
    ensures 0.0 < 1.0 / m <= years <= n / m
    ensures years == n / m <==> AllAtLast(p, t, n)
  {
    var d := t / p;
    assert d * p == t;
    assert 1.0 <= d <= n by {
      assert (d - 1.0) * p >= 0.0;
      assert (n - d) * p >= 0.0;
    }
    assert d == n <==> t == n * p;
    Quotient(d, n, m);
  }

  lemma Quotient(d: real, n: real, m: real)
    requires m > 0.0 && 1.0 <= d <= n
    ensures 0.0 < 1.0 / m <= d / m <= n / m
    ensures d / m == n / m <==> d == n
  {
    assert (d / m) * m == d && (n / m) * m == n;
  }

  /** The time-weighted sum puts everything at the last position. */
  predicate AllAtLast(sum: real, timeSum: real, last: real) {
    timeSum == last * sum
  }

  lemma ReachesLast(b: Bond, y: real)
    requires b.Live() && b.Admits(y)
    ensures AllAtLast(Sum(Values(b, y)), TimeSum(Values(b, y)), b.Periods() as real)
       <==> b.couponRate == 0.0 || b.Periods() == 1
  {
    hide AllAtLast, PaymentValue;
    var xs, n := Values(b, y), b.Periods();
    LivePayments(b);
    LiveValues(b, y);
    AllAtTheEnd(xs);
    forall k | 0 <= k < n - 1 ensures xs[k] == 0.0 <==> b.couponRate == 0.0 {
      EarlyPayment(b, y, k);
    }
    if n > 1 && b.couponRate != 0.0 {
      assert xs[0] != 0.0;
    }
  }

  lemma EarlyPayment(b: Bond, y: real, k: nat)
    requires b.Live() && b.Admits(y) && k < b.Periods() - 1
    ensures Values(b, y)[k] == 0.0 <==> b.couponRate == 0.0
  {
    hide PaymentValue;
    LivePayments(b);
    LiveValues(b, y);
    DiscountedAt(b.Payments(), Factor(b, y), k);
    PowPositive(Factor(b, y), k + 1);
    ValueSign(b.Payments()[k], Pow(Factor(b, y), k + 1));
  }

  lemma ValueSign(c: real, p: real)
    requires c >= 0.0 && p > 0.0
    ensures PaymentValue(c, p) == 0.0 <==> c == 0.0
  {}

  /** The mean position is the last one exactly when everything before it is zero. */
  lemma AllAtTheEnd(xs: seq<real>)
    requires NonNegative(xs) && |xs| >= 1
    ensures AllAtLast(Sum(xs), TimeSum(xs), |xs| as real) <==> forall k :: 0 <= k < |xs| - 1 ==> xs[k] == 0.0
  {
    var n := |xs|;
    Lateness(xs[..n - 1], n);
    NotLater(xs[..n - 1], n);
    AtLastStep(xs[n - 1], n, n, Sum(xs[..n - 1]), TimeSum(xs[..n - 1]), Sum(xs), TimeSum(xs));
    assert forall k :: 0 <= k < n - 1 ==> xs[..n - 1][k] == xs[k];
  }

  lemma {:induction false} Lateness(xs: seq<real>, last: nat)
    requires NonNegative(xs) && |xs| < last
    ensures AllAtLast(Sum(xs), TimeSum(xs), last as real) <==> forall k :: 0 <= k < |xs| ==> xs[k] == 0.0
  {
    var n := |xs|;
    if n > 0 {
      hide AllAtLast;
      Lateness(xs[..n - 1], last);
      NotLater(xs[..n - 1], last);
      AtLastStep(xs[n - 1], n, last, Sum(xs[..n - 1]), TimeSum(xs[..n - 1]), Sum(xs), TimeSum(xs));
      assert xs == xs[..n - 1] + [xs[n - 1]];
    }
  }

  predicate NoLaterThan(sum: real, timeSum: real, last: real) {
    timeSum <= last * sum
  }

  lemma NotLater(xs: seq<real>, last: nat)
    requires NonNegative(xs) && |xs| <= last
    ensures NoLaterThan(Sum(xs), TimeSum(xs), last as real)
  {
    TimeSumBounds(xs, last);
  }

  lemma AtLastStep(x: real, k: nat, n: nat, p: real, t: real, p': real, t': real)
    requires x >= 0.0 && k <= n && NoLaterThan(p, t, n as real) && p' == p + x && t' == t + Positioned(x, k)
    ensures AllAtLast(p', t', n as real) <==> AllAtLast(p, t, n as real) && (x == 0.0 || k == n)
  {
    var last, gap := n as real, (n - k) as real;
    assert last * p' - t' == (last * p - t) + gap * x;
    assert gap * x >= 0.0;
    assert gap * x == 0.0 <==> x == 0.0 || k == n;
  }

  /**
   * A higher yield never lengthens duration, and shortens it exactly for a coupon bond with at
   * least two payments left.
   */
  lemma DurationFallsAsYieldRises(b: Bond, y1: real, y2: real)
    requires b.Live() && b.Admits(y1) && y1 <= y2
    ensures b.Admits(y2) && Years(b, y2) <= Years(b, y1)
    ensures Years(b, y2) < Years(b, y1) <==> y1 < y2 && b.couponRate > 0.0 && b.Periods() >= 2
  {
    if y1 < y2 {
      hide MeanYears, Duration;
      GrowthRises(y1, y2, b.periodsPerYear as real);
      LivePayments(b);
      LiveValues(b, y1);
      LiveValues(b, y2);
      ReachesLast(b, y1);
      MeanFallsWithGrowth(b.Payments(), b.Growth(y1), b.Growth(y2), Factor(b, y1), Factor(b, y2), b.periodsPerYear);
      if b.couponRate == 0.0 || b.Periods() == 1 {
        DurationWithinLife(b, y1);
        DurationWithinLife(b, y2);
      }
    }
  }

  lemma MeanFallsWithGrowth(payments: seq<real>, g1: real, g2: real, v: real, w: real, m: int)
    requires NonNegative(payments) && m >= 1 && payments != [] && payments[|payments| - 1] > 0.0
    requires 0.0 < g1 < g2 && v == 1.0 / g1 && w == 1.0 / g2
    requires Sum(Discounted(payments, v)) > 0.0 && Sum(Discounted(payments, w)) > 0.0
    ensures MeanYears(Discounted(payments, w), m) <= MeanYears(Discounted(payments, v), m)
    ensures !AllAtLast(Sum(Discounted(payments, v)), TimeSum(Discounted(payments, v)), |payments| as real)
            ==> MeanYears(Discounted(payments, w), m) < MeanYears(Discounted(payments, v), m)
  {
    hide MeanYears, AllAtLast;
    FactorRatio(g1, g2, g1 / g2, v, w);
    MeanFalls(payments, v, g1 / g2, w, m);
  }

  lemma MeanFalls(payments: seq<real>, v: real, q: real, w: real, m: int)
    requires NonNegative(payments) && payments != [] && payments[|payments| - 1] > 0.0
    requires v > 0.0 && 0.0 < q < 1.0 && w == v * q && m >= 1
    requires Sum(Discounted(payments, v)) > 0.0 && Sum(Discounted(payments, w)) > 0.0
    ensures MeanYears(Discounted(payments, w), m) <= MeanYears(Discounted(payments, v), m)
    ensures !AllAtLast(Sum(Discounted(payments, v)), TimeSum(Discounted(payments, v)), |payments| as real)
            ==> MeanYears(Discounted(payments, w), m) < MeanYears(Discounted(payments, v), m)
  {
    hide MomentOfSums, PaymentValue, AllAtLast;
    var xs, ys := Discounted(payments, v), Discounted(payments, w);
    DiscountedNonNegative(payments, v);
    TimeSumBounds(xs, |xs|);
    var d := MeanIsZeroMoment(Sum(xs), TimeSum(xs));
    MeanBeforeLast(Sum(xs), TimeSum(xs), d, |xs| as real);
    MomentAboutTime(xs, d);
    MomentAboutTime(ys, d);
    MeanTimeFalls(payments, v, q, d);
    MeanBelow(Sum(ys), TimeSum(ys), d, m as real);
  }

  /** The mean lies before the last position unless everything is there. */
  lemma MeanBeforeLast(p: real, t: real, d: real, n: real)
    requires p > 0.0 && d == t / p && t <= n * p
    ensures d < n <==> !AllAtLast(p, t, n)
  {
    assert p * d == t;
    assert p * (n - d) == n * p - t;
    Signs(p, n - d);
  }

  lemma FactorRatio(g1: real, g2: real, q: real, v: real, w: real)
    requires 0.0 < g1 < g2 && q == g1 / g2 && v == 1.0 / g1 && w == 1.0 / g2
    ensures 0.0 < q < 1.0 && v * q == w
  {
    assert q * g2 == g1;
    assert g2 * (1.0 - q) == g2 - g1;
    Signs(g2, 1.0 - q);
    Signs(g2, q);
  }

  lemma MeanIsZeroMoment(p: real, t: real) returns (d: real)
    requires p > 0.0 && t >= p
    ensures d == t / p && d >= 0.0 && MomentOfSums(p, t, d) == 0.0
  {
    d := t / p;
  }

  lemma MeanBelow(p: real, t: real, d: real, m: real)
    requires p > 0.0 && m > 0.0 && MomentOfSums(p, t, d) <= 0.0
    ensures t / p / m <= d / m
    ensures MomentOfSums(p, t, d) < 0.0 ==> t / p / m < d / m
  {
    var e := t / p;
    assert p * e == t;
    assert p * (d - e) == d * p - t;
    Signs(p, d - e);
    var f, g := e / m, d / m;
    assert m * f == e && m * g == d;
    assert m * (g - f) == d - e;
    Signs(m, g - f);
  }

  // ---------------------------------------------------------------- refusals and empty bonds

  /** Part of a period does not count, whichever way the years run. */
  lemma PeriodsAreWhole(b: Bond)
    ensures var x, n := b.years * b.periodsPerYear as real, b.Periods() as real;
            && (x >= 0.0 ==> n <= x < n + 1.0)
            && (x <= 0.0 ==> n - 1.0 < x <= n)
  {
  }

  /** A price is refused for no period a year, for negative years, and where a period's growth is zero. */
  lemma PriceIsRefusedExactlyWhen(b: Bond, y: real)
    ensures var r := BondPriceFromYield(b, y);
            && (r == Err(PeriodsPerYearInvalid) <==> b.periodsPerYear <= 0)
            && (r == Err(YearsNegative) <==> b.periodsPerYear >= 1 && b.years < 0.0)
            && (r == Err(DivisionUndefined) <==>
                  b.periodsPerYear >= 1 && b.years >= 0.0 && 1.0 + y / b.periodsPerYear as real == 0.0)
  {
    hide ClosedForm;
  }

  /** Each payment is the coupon of a period, with the face value in the last. */
  lemma PaymentsAre(b: Bond, k: nat)
    requires b.periodsPerYear >= 1 && k < |b.Payments()|
    ensures |b.Payments()| == if b.Periods() > 0 then b.Periods() else 0
    ensures b.Payments()[k] * b.periodsPerYear as real
         == b.face * b.couponRate + if k == b.Periods() - 1 then b.face * b.periodsPerYear as real else 0.0
  {
    hide Bond.Periods;
    TimesPeriods(b.face * b.couponRate, b.periodsPerYear as real, if k == b.Periods() - 1 then b.face else 0.0);
  }

  lemma TimesPeriods(a: real, m: real, extra: real)
    requires m > 0.0
    ensures (a / m + extra) * m == a + extra * m
  {
  }

  /** With no payment left the price is the face value and the duration zero. */
  lemma EmptyBond(b: Bond, y: real)
    requires b.periodsPerYear >= 1 && b.years >= 0.0 && b.Growth(y) != 0.0 && b.Periods() == 0
    ensures BondPriceFromYield(b, y) == Ok(b.face) && Duration(b, y) == Ok(0.0)
  {
    NothingLeft(b.Coupon(), b.face, y / b.periodsPerYear as real);
  }

  /**
   * The duration is refused only where it would divide by zero. It is zero for values that add up to
   * nothing, and their mean time otherwise.
   */
  lemma DurationAnswers(b: Bond, y: real)
    ensures Duration(b, y).Err? <==> b.periodsPerYear == 0 || (b.Growth(y) == 0.0 && b.Periods() > 0)
    ensures b.periodsPerYear != 0 && b.Growth(y) == 0.0 && b.Periods() <= 0 ==> Duration(b, y) == Ok(0.0)
    ensures b.periodsPerYear != 0 && b.Growth(y) != 0.0 ==>
              var values := Discounted(b.Payments(), 1.0 / b.Growth(y));
              && Duration(b, y).Ok?
              && (Sum(values) == 0.0 ==> Duration(b, y).value == 0.0)
              && (Sum(values) != 0.0 ==>
                    MeanTime(Duration(b, y).value, b.periodsPerYear as real, Sum(values), TimeSum(values)))
  {
    hide Bond.Periods, Bond.Payments, Bond.Growth, Discounted, TimeSum, Sum;
    if b.periodsPerYear != 0 && b.Growth(y) != 0.0 {
      var values := Discounted(b.Payments(), 1.0 / b.Growth(y));
      if Sum(values) != 0.0 {
        QuotientOfQuotient(TimeSum(values), Sum(values), b.periodsPerYear as real);
      }
    }
  }

  /** The years times the periods in one and the total are the time-weighted total. */
  predicate MeanTime(years: real, periodsPerYear: real, total: real, weighted: real) {
    years * periodsPerYear * total == weighted
  }

  lemma QuotientOfQuotient(a: real, b: real, c: real)
    requires b != 0.0 && c != 0.0
    ensures MeanTime(a / b / c, c, b, a)
  {
    var q := a / b;
    assert q * b == a;
    assert q / c * c == q;
  }
}
