/** Present values of arbitrary streams of non-negative payments. */
module BondValues {
  import opened Common
  import opened Powers
  import opened Sums
  import opened Bonds

  // ---------------------------------------------------------------- sequences of values

  /** Each payment's time lies between one period and the last period. */
  lemma {:induction false} TimeSumBounds(xs: seq<real>, last: nat)
    requires NonNegative(xs) && |xs| <= last
    ensures Sum(xs) <= TimeSum(xs) <= last as real * Sum(xs)
  {
    if xs != [] {
      var n := |xs|;
      TimeSumBounds(xs[..n - 1], last);
      TermBounds(xs[n - 1], n, last);
      Distribute(last as real, Sum(xs[..n - 1]), xs[n - 1], Sum(xs));
    }
  }

  lemma TermBounds(t: real, n: nat, last: nat)
    requires t >= 0.0 && 1 <= n <= last
    ensures t <= Positioned(t, n) <= last as real * t
  {}

  /** y lies on or above the line through x with the given slope, at distance s. */
  ghost predicate OnOrAboveTangent(x: real, y: real, slope: real, s: real) {
    y >= x + slope * s
  }

  /** The same for a payment's value x due after k periods, whose slope is x * k. */
  ghost predicate OnOrAboveItsTangent(x: real, y: real, k: nat, s: real) {
    y >= x + Positioned(x, k) * s
  }

  lemma {:induction false} TangentOfSums(xs: seq<real>, ys: seq<real>, s: real)
    requires |xs| == |ys|
    requires forall k :: 0 <= k < |xs| ==> OnOrAboveItsTangent(xs[k], ys[k], k + 1, s)
    ensures OnOrAboveTangent(Sum(xs), Sum(ys), TimeSum(xs), s)
  {
    if xs != [] {
      hide OnOrAboveTangent, OnOrAboveItsTangent;
      var n := |xs| - 1;
      TangentOfSums(xs[..n], ys[..n], s);
      TangentStep(xs[n], ys[n], n + 1, s, Sum(xs[..n]), Sum(ys[..n]), TimeSum(xs[..n]), TimeSum(xs));
    }
  }

  lemma TangentStep(x: real, y: real, k: nat, s: real, sx: real, sy: real, tx: real, tx': real)
    requires OnOrAboveItsTangent(x, y, k, s) && OnOrAboveTangent(sx, sy, tx, s) && tx' == tx + Positioned(x, k)
    ensures OnOrAboveTangent(sx + x, sy + y, tx', s)
  {}

  /** A value's moment: its distance from the time d, weighted. */
  function Lever(n: nat, d: real, x: real): real {
    (n as real - d) * x
  }

  /** The moment of xs about the time d. */
  function Moment(xs: seq<real>, d: real): real {
    var n := |xs|;
    if n == 0 then 0.0 else Moment(xs[..n - 1], d) + Lever(n, d, xs[n - 1])
  }

  /** The same moment from the plain and the time-weighted sum. */
  function MomentOfSums(sum: real, timeSum: real, d: real): real {
    timeSum - d * sum
  }

  lemma {:induction false} MomentAboutTime(xs: seq<real>, d: real)
    ensures Moment(xs, d) == MomentOfSums(Sum(xs), TimeSum(xs), d)
  {
    if xs != [] {
      hide MomentOfSums, Lever;
      var n := |xs|;
      MomentAboutTime(xs[..n - 1], d);
      MomentTerm(n, d, xs[n - 1], Sum(xs[..n - 1]), TimeSum(xs[..n - 1]), Sum(xs), TimeSum(xs));
    } else {
      assert d * Sum(xs) == 0.0;
    }
  }

  lemma MomentTerm(n: nat, d: real, x: real, p: real, t: real, p': real, t': real)
    requires p' == p + x && t' == t + Positioned(x, n)
    ensures MomentOfSums(p', t', d) == MomentOfSums(p, t, d) + Lever(n, d, x)
  {}

  /** y lies above r * x before time d and below it after time d. */
  ghost predicate CrossesAt(n: nat, x: real, y: real, d: real, r: real) {
    && (n as real <= d ==> r * x <= y)
    && (n as real >= d ==> y <= r * x)
  }

  ghost predicate Crosses(xs: seq<real>, ys: seq<real>, d: real, r: real)
    requires |xs| == |ys|
  {
    forall k :: 0 <= k < |xs| ==> CrossesAt(k + 1, xs[k], ys[k], d, r)
  }

  ghost predicate Below(y: real, x: real, r: real) {
    y < r * x
  }

  ghost predicate AtMost(y: real, x: real, r: real) {
    y <= r * x
  }

  lemma {:induction false} MomentShrinks(xs: seq<real>, ys: seq<real>, d: real, r: real)
    requires |xs| == |ys| && Crosses(xs, ys, d, r)
    ensures AtMost(Moment(ys, d), Moment(xs, d), r)
    ensures xs != [] && d < |xs| as real && Below(ys[|ys| - 1], xs[|xs| - 1], r)
            ==> Below(Moment(ys, d), Moment(xs, d), r)
  {
    if xs != [] {
      hide CrossesAt, Lever, Below, AtMost;
      var n := |xs|;
      MomentShrinks(xs[..n - 1], ys[..n - 1], d, r);
      MomentStep(n, d, xs[n - 1], ys[n - 1], r, Moment(xs[..n - 1], d), Moment(ys[..n - 1], d));
    }
  }

  lemma MomentStep(n: nat, d: real, x: real, y: real, r: real, mx: real, my: real)
    requires CrossesAt(n, x, y, d, r) && AtMost(my, mx, r)
    ensures AtMost(my + Lever(n, d, y), mx + Lever(n, d, x), r)
    ensures d < n as real && Below(y, x, r) ==> Below(my + Lever(n, d, y), mx + Lever(n, d, x), r)
  {
    var g, e := n as real - d, r * x - y;
    if g > 0.0 {
      Signs(g, e);
    } else if g < 0.0 {
      Signs(-g, -e);
      assert -g * -e == g * e;
    }
    assert g * e == r * (g * x) - g * y;
    assert r * (mx + g * x) == r * mx + r * (g * x);
  }

  // ---------------------------------------------------------------- discounting

  lemma DiscountedNonNegative(payments: seq<real>, v: real)
    requires NonNegative(payments) && v > 0.0
    ensures NonNegative(Discounted(payments, v))
    ensures |payments| > 0 && payments[|payments| - 1] > 0.0 ==> Sum(Discounted(payments, v)) > 0.0
  {
    var xs := Discounted(payments, v);
    forall k | 0 <= k < |xs| ensures xs[k] >= 0.0 && (payments[k] > 0.0 ==> xs[k] > 0.0) {
      PowPositive(v, k + 1);
      DiscountedAt(payments, v, k);
      Scale(payments[k], 0.0, Pow(v, k + 1));
    }
    SumNonNegative(xs);
  }

  /** A larger discount factor is worth more. */
  lemma ValueIncreases(payments: seq<real>, w: real, v: real)
    requires NonNegative(payments) && 0.0 < w < v
    ensures Sum(Discounted(payments, w)) <= Sum(Discounted(payments, v))
    ensures |payments| > 0 && payments[|payments| - 1] > 0.0
            ==> Sum(Discounted(payments, w)) < Sum(Discounted(payments, v))
  {
    forall k | 0 <= k < |payments|
      ensures Discounted(payments, w)[k] <= Discounted(payments, v)[k]
      ensures payments[k] > 0.0 ==> Discounted(payments, w)[k] < Discounted(payments, v)[k]
    {
      PaymentIncreases(payments, w, v, k);
    }
    SumMonotone(Discounted(payments, w), Discounted(payments, v));
  }

  lemma PaymentIncreases(payments: seq<real>, w: real, v: real, k: nat)
    requires k < |payments| && payments[k] >= 0.0 && 0.0 < w < v
    ensures Discounted(payments, w)[k] <= Discounted(payments, v)[k]
    ensures payments[k] > 0.0 ==> Discounted(payments, w)[k] < Discounted(payments, v)[k]
  {
    hide PaymentValue;
    PowStrictlyMonotone(w, v, k + 1);
    ValueScales(payments[k], Pow(w, k + 1), Pow(v, k + 1));
    DiscountedAt(payments, w, k);
    DiscountedAt(payments, v, k);
  }

  lemma ValueScales(c: real, p: real, q: real)
    requires c >= 0.0 && p < q
    ensures PaymentValue(c, p) <= PaymentValue(c, q)
    ensures c > 0.0 ==> PaymentValue(c, p) < PaymentValue(c, q)
  {
    ScaleUp(c, q - p);
    Distribute(c, p, q - p, q);
  }

  lemma ScaleUp(c: real, x: real)
    requires c >= 0.0 && x > 0.0
    ensures c * x >= 0.0 && (c > 0.0 ==> c * x > 0.0)
  {
  }

  /** The value at any factor w lies on or above the tangent at v, taken in the growth rate. */
  lemma TangentBound(payments: seq<real>, v: real, w: real, s: real)
    requires NonNegative(payments) && v > 0.0 && w > 0.0 && s == 1.0 - v / w
    ensures OnOrAboveTangent(Sum(Discounted(payments, v)), Sum(Discounted(payments, w)),
                             TimeSum(Discounted(payments, v)), s)
  {
    hide OnOrAboveTangent, OnOrAboveItsTangent;
    forall k | 0 <= k < |payments|
      ensures OnOrAboveItsTangent(Discounted(payments, v)[k], Discounted(payments, w)[k], k + 1, s)
    {
      PaymentTangent(payments, v, w, k, s);
    }
    TangentOfSums(Discounted(payments, v), Discounted(payments, w), s);
  }

  lemma PaymentTangent(payments: seq<real>, v: real, w: real, k: nat, s: real)
    requires k < |payments| && payments[k] >= 0.0 && v > 0.0 && w > 0.0 && s == 1.0 - v / w
    ensures OnOrAboveItsTangent(Discounted(payments, v)[k], Discounted(payments, w)[k], k + 1, s)
  {
    hide PaymentValue, OnOrAboveItsTangent;
    DiscountedAt(payments, v, k);
    DiscountedAt(payments, w, k);
    TermTangent(payments[k], v, w, k + 1, s);
  }

  lemma TermTangent(c: real, v: real, w: real, k: nat, s: real)
    requires c >= 0.0 && v > 0.0 && w > 0.0 && s == 1.0 - v / w
    ensures OnOrAboveItsTangent(PaymentValue(c, Pow(v, k)), PaymentValue(c, Pow(w, k)), k, s)
  {
    hide PaymentValue, OnOrAboveItsTangent;
    var x := w / v;
    Ratio(v, w, x, s);
    Bernoulli(x, k);
    PowPositive(v, k);
    PowProduct(v, x, k);
    TangentAlgebra(c, Pow(v, k), k, s, x - 1.0, Pow(x, k), Pow(w, k));
  }

  lemma Ratio(v: real, w: real, x: real, s: real)
    requires v > 0.0 && w > 0.0 && x == w / v && s == 1.0 - v / w
    ensures x > 0.0 && v * x == w && s <= x - 1.0
  {
    var y := v / w;
    assert v * x == w && w * y == v;
    assert x > 0.0;
    Inverse(v, w, x, y);
    AboveTwo(x, y);
  }

  lemma Inverse(v: real, w: real, x: real, y: real)
    requires v > 0.0 && v * x == w && w * y == v
    ensures x * y == 1.0
  {
    assert v * (x * y) == v;
  }

  lemma AboveTwo(x: real, y: real)
    requires x > 0.0 && x * y == 1.0
    ensures x + y >= 2.0
  {
    assert (x - 1.0) * (x - 1.0) == x * (x + y - 2.0);
  }

  lemma TangentAlgebra(c: real, p: real, n: nat, s: real, slope: real, x: real, q: real)
    requires c >= 0.0 && p > 0.0 && s <= slope && x >= 1.0 + n as real * slope && q == p * x
    ensures OnOrAboveItsTangent(PaymentValue(c, p), PaymentValue(c, q), n, s)
  {
    var k := n as real;
    Scale(k, s, slope);
    var low := 1.0 + k * s;
    Scale(c * p, low, x);
    assert c * p * low == c * p + c * p * k * s;
    assert c * p * x == c * q;
  }

  // ---------------------------------------------------------------- mean times

  lemma {:induction false} PowFalls(q: real, j: nat, k: nat)
    requires 0.0 < q <= 1.0 && j <= k
    ensures Pow(q, k) <= Pow(q, j)
  {
    if j < k {
      PowFalls(q, j, k - 1);
      PowPositive(q, k - 1);
      Scale(Pow(q, k - 1), q, 1.0);
    }
  }

  lemma PowFallsStrictly(q: real, j: nat, k: nat)
    requires 0.0 < q < 1.0 && j < k
    ensures Pow(q, k) < Pow(q, j)
  {
    PowFalls(q, j, k - 1);
    PowPositive(q, k - 1);
    Scale(Pow(q, k - 1), q, 1.0);
  }

  lemma ScaledValue(c: real, p: real, q: real, r: real, pq: real)
    requires c >= 0.0 && p > 0.0 && pq == p * q
    ensures q >= r ==> r * PaymentValue(c, p) <= PaymentValue(c, pq)
    ensures q <= r ==> PaymentValue(c, pq) <= r * PaymentValue(c, p)
    ensures q < r && c > 0.0 ==> PaymentValue(c, pq) < r * PaymentValue(c, p)
  {
    assert PaymentValue(c, pq) == PaymentValue(c, p) * q;
    var x := PaymentValue(c, p);
    Scale(p, 0.0, c);
    assert x >= 0.0;
    assert x * (q - r) == x * q - r * x;
    if c > 0.0 {
      Signs(x, q - r);
    }
  }

  /** A payment's value at the factor v * q is its value at v, times a power of q. */
  lemma PaymentCrosses(c: real, v: real, q: real, k: nat, d: real, r: real)
    requires c >= 0.0 && v > 0.0 && 0.0 < q <= 1.0 && d >= 0.0 && r == Pow(q, d.Floor)
    ensures CrossesAt(k, PaymentValue(c, Pow(v, k)), PaymentValue(c, Pow(v * q, k)), d, r)
  {
    hide PaymentValue, Pow;
    PowProduct(v, q, k);
    PowPositive(v, k);
    ScaledValue(c, Pow(v, k), Pow(q, k), r, Pow(v * q, k));
    if k as real <= d {
      PowFalls(q, k, d.Floor);
    }
    if k as real >= d {
      PowFalls(q, d.Floor, k);
    }
  }

  /** The last payment's value falls below its share when it comes after time d. */
  lemma LastCrosses(payments: seq<real>, v: real, q: real, d: real, r: real)
    requires payments != [] && payments[|payments| - 1] > 0.0 && v > 0.0 && 0.0 < q < 1.0
    requires 0.0 <= d < |payments| as real && r == Pow(q, d.Floor)
    ensures Below(Discounted(payments, v * q)[|payments| - 1], Discounted(payments, v)[|payments| - 1], r)
  {
    hide PaymentValue;
    var n := |payments|;
    DiscountedAt(payments, v, n - 1);
    DiscountedAt(payments, v * q, n - 1);
    PowFallsStrictly(q, d.Floor, n);
    PowProduct(v, q, n);
    PowPositive(v, n);
    ScaledValue(payments[n - 1], Pow(v, n), Pow(q, n), r, Pow(v * q, n));
  }

  /** Discounting harder moves weight from the payments after time d to those before it. */
  lemma DiscountingCrosses(payments: seq<real>, v: real, q: real, d: real, r: real)
    requires NonNegative(payments) && v > 0.0 && 0.0 < q <= 1.0
    requires d >= 0.0 && r == Pow(q, d.Floor)
    ensures Crosses(Discounted(payments, v), Discounted(payments, v * q), d, r)
  {
    hide PaymentValue, CrossesAt, Pow;
    forall k | 0 <= k < |payments|
      ensures CrossesAt(k + 1, Discounted(payments, v)[k], Discounted(payments, v * q)[k], d, r)
    {
      DiscountedAt(payments, v, k);
      DiscountedAt(payments, v * q, k);
      PaymentCrosses(payments[k], v, q, k + 1, d, r);
    }
  }

  /** The mean time at a smaller discount factor is at most d, the mean time at a larger one. */
  lemma MeanTimeFalls(payments: seq<real>, v: real, q: real, d: real)
    requires NonNegative(payments) && v > 0.0 && 0.0 < q <= 1.0 && d >= 0.0
    requires Moment(Discounted(payments, v), d) == 0.0
    ensures Moment(Discounted(payments, v * q), d) <= 0.0
    ensures q < 1.0 && payments != [] && payments[|payments| - 1] > 0.0 && d < |payments| as real
            ==> Moment(Discounted(payments, v * q), d) < 0.0
  {
    hide Crosses, CrossesAt, Moment;
    var r := Pow(q, d.Floor);
    DiscountingCrosses(payments, v, q, d, r);
    MomentShrinks(Discounted(payments, v), Discounted(payments, v * q), d, r);
    if q < 1.0 && payments != [] && payments[|payments| - 1] > 0.0 && d < |payments| as real {
      LastCrosses(payments, v, q, d, r);
    }
  }

  // ---------------------------------------------------------------- the price is the value

  /** What a level stream of coupons is worth: the annuity formula without its division. */
  ghost predicate AnnuityTotal(total: real, coupon: real, r: real, p: real) {
    total * r == coupon * (1.0 - p)
  }

  function Level(coupon: real, n: nat): seq<real> {
    seq(n, _ => coupon)
  }

  lemma LevelFront(coupon: real, n: nat)
    ensures |Level(coupon, n)| == n
    ensures n > 0 ==> Level(coupon, n)[n - 1] == coupon && Level(coupon, n)[..n - 1] == Level(coupon, n - 1)
  {}

  lemma {:induction false} AnnuityValue(coupon: real, v: real, r: real, n: nat)
    requires Reciprocals(v, 1.0 + r)
    ensures AnnuityTotal(Sum(Discounted(Level(coupon, n), v)), coupon, r, Pow(v, n))
  {
    if n > 0 {
      hide Level, PaymentValue, AnnuityTotal, Reciprocals, Pow;
      AnnuityValue(coupon, v, r, n - 1);
      LevelFront(coupon, n);
      var before := Sum(Discounted(Level(coupon, n - 1), v));
      LastValue(Level(coupon, n), v, before, Sum(Discounted(Level(coupon, n), v)));
      AnnuityStep(coupon, v, r, n, before);
    }
  }

  lemma LastValue(payments: seq<real>, v: real, before: real, total: real)
    requires |payments| > 0 && before == Sum(Discounted(payments[..|payments| - 1], v))
    requires total == Sum(Discounted(payments, v))
    ensures total == before + PaymentValue(payments[|payments| - 1], Pow(v, |payments|))
  {
    hide PaymentValue;
    var n := |payments|;
    assert payments[..n] == payments;
    PaymentAdded(payments, v, n, PaymentValue(payments[n - 1], Pow(v, n)));
  }

  lemma AnnuityStep(c: real, v: real, r: real, n: nat, before: real)
    requires n > 0 && Reciprocals(v, 1.0 + r) && AnnuityTotal(before, c, r, Pow(v, n - 1))
    ensures AnnuityTotal(before + PaymentValue(c, Pow(v, n)), c, r, Pow(v, n))
  {
    var p, q := Pow(v, n - 1), Pow(v, n);
    assert q + q * r == p * (v * (1.0 + r)) == p;
    assert (before + PaymentValue(c, q)) * r == before * r + c * (q * r);
  }

  lemma {:induction false} UndiscountedValue(coupon: real, n: nat)
    ensures Sum(Discounted(Level(coupon, n), 1.0)) == Positioned(coupon, n)
  {
    hide Level, PaymentValue, Positioned, Pow;
    LevelFront(coupon, n);
    if n == 0 {
      PositionedZero(coupon);
    } else {
      UndiscountedValue(coupon, n - 1);
      LastValue(Level(coupon, n), 1.0, Sum(Discounted(Level(coupon, n - 1), 1.0)),
                Sum(Discounted(Level(coupon, n), 1.0)));
      PowOne(n);
      AtPar(coupon);
      PositionedNext(coupon, n - 1);
    }
  }

  lemma AtPar(x: real)
    ensures PaymentValue(x, 1.0) == x
  {}

  /** The final coupon and the face value fall due together. */
  lemma BondValue(coupon: real, face: real, v: real, n: nat)
    requires n >= 1
    ensures Sum(Discounted(BondPayments(coupon, face, n), v))
         == Sum(Discounted(Level(coupon, n), v)) + PaymentValue(face, Pow(v, n))
  {
    hide PaymentValue, Pow;
    var level := Level(coupon, n);
    var payments := BondPayments(coupon, face, n);
    var p := Pow(v, n);
    assert payments[..n - 1] == level[..n - 1];
    var before := Sum(Discounted(level[..n - 1], v));
    LastValue(level, v, before, Sum(Discounted(level, v)));
    LastValue(payments, v, before, Sum(Discounted(payments, v)));
    FaceAndCoupon(coupon, face, p);
  }

  lemma FaceAndCoupon(coupon: real, face: real, p: real)
    ensures PaymentValue(coupon + face, p) == PaymentValue(coupon, p) + PaymentValue(face, p)
  {}

  lemma ClosedFormIsPresentValue(coupon: real, face: real, r: real, v: real, n: nat)
    requires n >= 1 && Reciprocals(v, 1.0 + r)
    ensures 1.0 + r != 0.0
    ensures ClosedForm(coupon, face, r, n) == Sum(Discounted(BondPayments(coupon, face, n), v))
  {
    ReciprocalIs(v, 1.0 + r);
    BondValue(coupon, face, v, n);
    if r == 0.0 {
      UndiscountedValue(coupon, n);
      PowOne(n);
      AtPar(face);
    } else {
      hide PaymentValue, AnnuityAndPrincipal, AnnuityTotal, Reciprocals;
      AnnuityValue(coupon, v, r, n);
      PowReciprocals(v, 1.0 + r, n);
      ReciprocalIs(Pow(v, n), Pow(1.0 + r, n));
      Quotients(coupon, face, r, Sum(Discounted(Level(coupon, n), v)), Pow(v, n), Pow(1.0 + r, n));
    }
  }

  lemma Quotients(coupon: real, face: real, r: real, total: real, p: real, discount: real)
    requires r != 0.0 && discount != 0.0 && Reciprocals(p, discount)
    requires AnnuityTotal(total, coupon, r, p)
    ensures AnnuityAndPrincipal(coupon, face, r, discount) == total + PaymentValue(face, p)
  {
    ReciprocalIs(p, discount);
    assert coupon * (1.0 - 1.0 / discount) / r == total;
  }

  /**
   * The closed form is the total that the duration loop accumulates, in both branches,
   * exactly when at least one payment is left (or the face value is zero).
   */
  lemma PriceIsPresentValue(b: Bond, y: real)
    requires b.periodsPerYear >= 1 && b.years >= 0.0 && b.Growth(y) != 0.0
    ensures BondPriceFromYield(b, y).Ok?
    ensures BondPriceFromYield(b, y).value == Sum(Discounted(b.Payments(), 1.0 / b.Growth(y)))
       <==> b.Periods() >= 1 || b.face == 0.0
  {
    var n, r, v := b.Periods(), y / b.periodsPerYear as real, 1.0 / b.Growth(y);
    if n >= 1 {
      hide ClosedForm;
      ReciprocalsOf(b.Growth(y));
      ClosedFormIsPresentValue(b.Coupon(), b.face, r, v, n);
    } else {
      NothingLeft(b.Coupon(), b.face, r);
    }
  }

  lemma NothingLeft(coupon: real, face: real, r: real)
    requires 1.0 + r != 0.0
    ensures ClosedForm(coupon, face, r, 0) == face
  {}
}
