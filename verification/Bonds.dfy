/**
 * Bond arithmetic of rates_futures.py over exact reals.
 *
 * The price is a closed-form annuity; the duration comes from a loop that discounts one
 * payment at a time. Both are related to one reference: the sequence of discounted payments,
 * whose element k - 1 falls due at the end of period k.
 */
module Bonds {
  import opened Common
  import opened Powers
  import opened Sums

  datatype BondError = PeriodsPerYearInvalid | YearsNegative | DivisionUndefined

  datatype Bond = Bond(face: real, couponRate: real, years: real, periodsPerYear: int) {

    /** `int(years * periods_per_year)`: truncation toward zero. */
    function Periods(): int {
      var x := years * periodsPerYear as real;
      if x >= 0.0 then x.Floor else -(-x).Floor
    }

    function Coupon(): real
      requires periodsPerYear != 0
    {
      face * couponRate / periodsPerYear as real
    }

    /** The payments of periods 1 to `Periods()`. */
    function Payments(): seq<real>
      requires periodsPerYear != 0
    {
      BondPayments(Coupon(), face, if Periods() >= 0 then Periods() else 0)
    }

    function Growth(yieldRate: real): real
      requires periodsPerYear != 0
    {
      1.0 + yieldRate / periodsPerYear as real
    }

    /** A bond with at least one payment left, whose payments are not negative. */
    predicate Live() {
      face > 0.0 && couponRate >= 0.0 && periodsPerYear >= 1 && years >= 0.0 && Periods() >= 1
    }

    /** The yields at which one period's growth factor is positive. */
    predicate Admits(yieldRate: real) {
      periodsPerYear >= 1 && Growth(yieldRate) > 0.0
    }
  }

  function BondPayments(coupon: real, face: real, n: nat): seq<real> {
    seq(n, k => coupon + if k == n - 1 then face else 0.0)
  }

  function PaymentValue(payment: real, discountFactor: real): real {
    payment * discountFactor
  }

  /** The payments discounted at factor v per period. */
  function Discounted(payments: seq<real>, v: real): (r: seq<real>)
    ensures |r| == |payments|
  {
    var n := |payments|;
    if n == 0 then [] else Discounted(payments[..n - 1], v) + [PaymentValue(payments[n - 1], Pow(v, n))]
  }

  lemma {:induction false} DiscountedAt(payments: seq<real>, v: real, k: nat)
    requires k < |payments|
    ensures Discounted(payments, v)[k] == PaymentValue(payments[k], Pow(v, k + 1))
  {
    hide PaymentValue;
    var n := |payments| - 1;
    if k < n {
      DiscountedAt(payments[..n], v, k);
    }
  }

  function BondPriceFromYield(b: Bond, yieldRate: real): Result<real, BondError> {
    if b.periodsPerYear < 1 then Err(PeriodsPerYearInvalid)
    else if b.years < 0.0 then Err(YearsNegative)
    else if b.Growth(yieldRate) == 0.0 then Err(DivisionUndefined)
    else Ok(ClosedForm(b.Coupon(), b.face, yieldRate / b.periodsPerYear as real, b.Periods()))
  }

  /** The coupon annuity plus the principal, at perPeriod yield per period. */
  function ClosedForm(coupon: real, face: real, perPeriod: real, n: nat): real
    requires 1.0 + perPeriod != 0.0
  {
    if perPeriod == 0.0 then coupon * n as real + face
    else
      PowReciprocal(1.0 + perPeriod, n);
      AnnuityAndPrincipal(coupon, face, perPeriod, Pow(1.0 + perPeriod, n))
  }

  function AnnuityAndPrincipal(coupon: real, face: real, perPeriod: real, discount: real): real
    requires perPeriod != 0.0 && discount != 0.0
  {
    var pvCoupons := coupon * (1.0 - 1.0 / discount) / perPeriod;
    pvCoupons + face / discount
  }

  /** What the duration loop returns, in terms of the discounted payments. */
  function Duration(b: Bond, yieldRate: real): Result<real, BondError> {
    if b.periodsPerYear == 0 then Err(DivisionUndefined)
    else if b.Growth(yieldRate) == 0.0 then
      if b.Periods() >= 1 then Err(DivisionUndefined) else Ok(0.0)
    else Ok(MeanYears(Discounted(b.Payments(), 1.0 / b.Growth(yieldRate)), b.periodsPerYear))
  }

  /** The mean time of the values, in years. */
  function MeanYears(values: seq<real>, periodsPerYear: int): real
    requires periodsPerYear != 0
  {
    if Sum(values) == 0.0 then 0.0 else TimeSum(values) / Sum(values) / periodsPerYear as real
  }

  method MacaulayDuration(b: Bond, yieldRate: real) returns (r: Result<real, BondError>)
    ensures r == Duration(b, yieldRate)
  {
    hide PaymentValue, Positioned;
    if b.periodsPerYear == 0 {
      return Err(DivisionUndefined);
    }
    var n := b.Periods();
    var coupon := b.Coupon();
    var growth := 1.0 + yieldRate / b.periodsPerYear as real;
    var total, weighted := 0.0, 0.0;
    ghost var payments := b.Payments();
    ghost var v := if growth == 0.0 then 0.0 else 1.0 / growth;
    for period := 1 to if n >= 1 then n + 1 else 1
      invariant growth == 0.0 ==> period == 1
      invariant total == Sum(Discounted(payments[..period - 1], v))
      invariant weighted == TimeSum(Discounted(payments[..period - 1], v))
    {
      if growth == 0.0 {
        return Err(DivisionUndefined);
      }
      var cash := coupon + if period == n then b.face else 0.0;
      DividedByGrowth(cash, growth, period);
      var pv := cash / Pow(growth, period);
      PaymentAdded(payments, v, period, pv);
      total := total + pv;
      weighted := weighted + Positioned(pv, period);
    }
    assert payments[..|payments|] == payments;
    if total == 0.0 {
      return Ok(0.0);
    }
    r := Ok(weighted / total / b.periodsPerYear as real);
  }

  /** Dividing by the growth factor's power is multiplying by the discount factor's. */
  lemma DividedByGrowth(cash: real, growth: real, k: nat)
    requires growth != 0.0
    ensures Pow(growth, k) != 0.0
    ensures cash / Pow(growth, k) == PaymentValue(cash, Pow(1.0 / growth, k))
  {
    PowReciprocal(growth, k);
  }

  lemma PaymentAdded(payments: seq<real>, v: real, k: nat, pv: real)
    requires 1 <= k <= |payments| && pv == PaymentValue(payments[k - 1], Pow(v, k))
    ensures Sum(Discounted(payments[..k], v)) == Sum(Discounted(payments[..k - 1], v)) + pv
    ensures TimeSum(Discounted(payments[..k], v)) == TimeSum(Discounted(payments[..k - 1], v)) + Positioned(pv, k)
  {
    hide PaymentValue, Positioned;
    assert payments[..k][..k - 1] == payments[..k - 1];
    assert Discounted(payments[..k], v) == Discounted(payments[..k - 1], v) + [pv];
    LastAdded(Discounted(payments[..k - 1], v), pv);
  }

  function PriceChangeFromDuration(duration: real, price: real, yieldChange: real): real {
    -duration * price * yieldChange
  }
}
