/** Directional inference of stat_inference.py: exact one-sided test and Wilson interval. */
module StatInference {
  import opened Common
  import opened Binomial
  import opened Sums

  const WILSON_95_Z := 1.959963984540054

  datatype PolicyFields = PolicyFields(nullHitRate: real, alpha: real, minimumSampleSize: int) {
    /** What the policy's constructor enforces. */
    predicate Accepted() {
      0.0 < nullHitRate < 1.0 && 0.0 < alpha < 1.0 && minimumSampleSize > 0
    }
  }

  type Policy = p: PolicyFields | p.Accepted() witness PolicyFields(0.5, 0.005, 100)

  datatype InferenceStatus = InsufficientSample | ValidatedMethodResult

  datatype Inference = Inference(
    sampleSize: nat,
    successes: nat,
    observedHitRate: real,
    nullHitRate: real,
    alpha: real,
    pValue: Option<real>,
    interval: Option<(real, real)>,
    significant: Option<bool>,
    status: InferenceStatus)

  datatype InferenceError = OutcomesRequired

  // ---------------------------------------------------------------- the Wilson interval

  /** The quantity whose square root the interval's half-width uses. */
  function Radicand(z: real, n: real, rate: real): real
    requires n > 0.0
  {
    rate * (1.0 - rate) / n + z * z / (4.0 * n * n)
  }

  /** root is the non-negative square root of x. */
  predicate IsRoot(root: real, x: real) {
    root >= 0.0 && root * root == x
  }

  function Denominator(z: real, n: real): real
    requires n > 0.0
  {
    1.0 + z * z / n
  }

  function Center(z: real, n: real, rate: real): real
    requires n > 0.0
    requires Denominator(z, n) != 0.0
  {
    (rate + z * z / (2.0 * n)) / Denominator(z, n)
  }

  function Margin(z: real, n: real, root: real): real
    requires n > 0.0
    requires Denominator(z, n) != 0.0
  {
    z * root / Denominator(z, n)
  }

  lemma DenominatorPositive(z: real, n: real)
    requires n > 0.0
    ensures Denominator(z, n) > 0.0
  {
    assert z * z >= 0.0;
  }

  /** `_wilson_95`, with the square root of the radicand supplied. */
  function Wilson95(successes: nat, sampleSize: nat, root: real): (real, real)
    requires sampleSize > 0
  {
    var n := sampleSize as real;
    var rate := successes as real / n;
    DenominatorPositive(WILSON_95_Z, n);
    var center, margin := Center(WILSON_95_Z, n, rate), Margin(WILSON_95_Z, n, root);
    (Max(0.0, center - margin), Min(1.0, center + margin))
  }

  /** The observed rate is exactly z standard errors away from p, with the error taken at p. */
  predicate OnBoundary(z: real, n: real, rate: real, p: real) {
    n * (rate - p) * (rate - p) == z * z * p * (1.0 - p)
  }

  /** How far the squared distance exceeds the allowance; zero exactly on the boundary. */
  function Excess(z: real, n: real, rate: real, p: real): real {
    n * (rate - p) * (rate - p) - z * z * p * (1.0 - p)
  }

  /** The centre before dividing by the denominator. */
  function Offset(z: real, n: real, rate: real): real
    requires n > 0.0
  {
    rate + z * z / (2.0 * n)
  }

  /** The difference of the squares of x and y, n times. */
  function SquareGap(n: real, x: real, y: real): real {
    n * (x * x - y * y)
  }

  /** Completing the square: the excess is a difference of two squares. */
  lemma CompletedSquare(z: real, n: real, rate: real, p: real, root: real, d: real, b: real, m: real)
    requires n > 0.0 && IsRoot(root, Radicand(z, n, rate))
    requires d == Denominator(z, n) && b == Offset(z, n, rate) && m == z * root
    ensures Excess(z, n, rate, p) * d == SquareGap(n, d * p - b, m)
  {
    hide SquareGap, Excess, IsRoot;
    var u := z * z / n;
    RatioForms(z, n, u);
    RadicandForm(z, n, rate, u, root);
    ExcessForm(z, n, rate, p, u);
    SquareIdentity(rate, p, u, n, z, root, Excess(z, n, rate, p), d, b, m);
  }

  lemma RatioForms(z: real, n: real, u: real)
    requires n > 0.0 && u == z * z / n
    ensures z * z == u * n && z * z / (2.0 * n) == u / 2.0
  {
    assert z * z == u * n;
    var h := z * z / (2.0 * n);
    assert h * (2.0 * n) == u * n;
  }

  lemma RadicandForm(z: real, n: real, rate: real, u: real, root: real)
    requires n > 0.0 && z * z == u * n && IsRoot(root, Radicand(z, n, rate))
    ensures n * (root * root) == rate * (1.0 - rate) + u / 4.0
  {
    var f, w := rate * (1.0 - rate), z * z / (4.0 * n * n);
    assert n * (f / n) == f;
    assert w * (4.0 * n * n) == z * z;
    Cancel(4.0 * (w * n), u, n);
    assert root * root == f / n + w;
  }

  lemma Cancel(a: real, b: real, n: real)
    requires n > 0.0 && a * n == b * n
    ensures a == b
  {
    assert (a - b) * n == 0.0;
  }

  lemma ExcessForm(z: real, n: real, rate: real, p: real, u: real)
    requires z * z == u * n
    ensures Excess(z, n, rate, p) == n * ((rate - p) * (rate - p) - u * (p * (1.0 - p)))
  {}

  lemma SquareIdentity(x: real, p: real, u: real, n: real, z: real, root: real, excess: real, d: real, b: real, m: real)
    requires z * z == u * n && n * (root * root) == x * (1.0 - x) + u / 4.0
    requires excess == n * ((x - p) * (x - p) - u * (p * (1.0 - p)))
    requires d == 1.0 + u && b == x + u / 2.0 && m == z * root
    ensures excess * d == SquareGap(n, d * p - b, m)
  {
    var e := d * p - b;
    assert e * e - u * (x * (1.0 - x) + u / 4.0) == ((x - p) * (x - p) - u * (p * (1.0 - p))) * d;
    assert m * m == u * (n * (root * root));
  }

  // ---------------------------------------------------------------- theorems about the interval

  /** The rate of an observed sample lies in [0, 1]. */
  function Rate(successes: nat, sampleSize: nat): real
    requires sampleSize > 0
  {
    successes as real / sampleSize as real
  }

  lemma RateInUnit(successes: nat, sampleSize: nat)
    requires 0 < sampleSize && successes <= sampleSize
    ensures 0.0 <= Rate(successes, sampleSize) <= 1.0
    ensures Rate(successes, sampleSize) == 0.0 <==> successes == 0
    ensures Rate(successes, sampleSize) == 1.0 <==> successes == sampleSize
  {
    var r, n := Rate(successes, sampleSize), sampleSize as real;
    assert r * n == successes as real;
    Signs(n, 1.0 - r);
    Signs(n, r);
    assert (1.0 - r) * n == n - successes as real;
  }

  lemma EqualSquares(n: real, x: real, y: real)
    requires n > 0.0 && y >= 0.0
    ensures SquareGap(n, x, y) == 0.0 <==> x == y || x == -y
    ensures SquareGap(n, x, y) <= 0.0 <==> -y <= x <= y
  {
    var g := (x - y) * (x + y);
    assert x * x - y * y == g;
    assert SquareGap(n, x, y) == g * n;
    Signs(n, g);
    Signs(n, -g);
    if x > y {
      Signs(x + y, x - y);
    } else if x < -y {
      assert g == (y - x) * (-x - y);
      Signs(-x - y, y - x);
    } else if -y < x < y {
      Signs(x + y, x - y);
    }
  }

  lemma EndpointForm(d: real, b: real, m: real, p: real)
    requires d > 0.0
    ensures d * p - b == m <==> p == b / d + m / d
    ensures d * p - b >= m <==> p >= b / d + m / d
  {
    var c, e := b / d, m / d;
    assert c * d == b && e * d == m;
    var x := p - c - e;
    Signs(d, x);
    assert d * p - b - m == x * d;
  }

  lemma NegatedQuotient(m: real, d: real)
    requires d > 0.0
    ensures (-m) / d == -(m / d)
  {
    var e := m / d;
    assert e * d == m;
    Cancel((-m) / d, -e, d);
  }

  lemma ExcessMeansBoundary(z: real, n: real, rate: real, p: real)
    ensures OnBoundary(z, n, rate, p) <==> Excess(z, n, rate, p) == 0.0
  {}

  /** Where p lies relative to the endpoints decides the sign of the excess, and conversely. */
  lemma ExcessSign(z: real, n: real, rate: real, root: real, p: real)
    requires n > 0.0 && z >= 0.0 && IsRoot(root, Radicand(z, n, rate))
    ensures Denominator(z, n) > 0.0
    ensures var low, high := Center(z, n, rate) - Margin(z, n, root), Center(z, n, rate) + Margin(z, n, root);
      && (Excess(z, n, rate, p) == 0.0 <==> p == low || p == high)
      && (Excess(z, n, rate, p) <= 0.0 <==> low <= p <= high)
  {
    hide SquareGap, Radicand, Excess;
    DenominatorPositive(z, n);
    var d, b, m, excess := Denominator(z, n), Offset(z, n, rate), z * root, Excess(z, n, rate, p);
    assert m >= 0.0;
    CompletedSquare(z, n, rate, p, root, d, b, m);
    var x := d * p - b;
    SignOfEndpoints(n, d, b, m, p, excess);
  }

  lemma SignOfEndpoints(n: real, d: real, b: real, m: real, p: real, excess: real)
    requires n > 0.0 && d > 0.0 && m >= 0.0 && excess * d == SquareGap(n, d * p - b, m)
    ensures excess == 0.0 <==> p == b / d - m / d || p == b / d + m / d
    ensures excess <= 0.0 <==> b / d - m / d <= p <= b / d + m / d
  {
    hide SquareGap;
    EqualSquares(n, d * p - b, m);
    EndpointForm(d, b, m, p);
    EndpointForm(d, b, -m, p);
    NegatedQuotient(m, d);
    Signs(d, excess);
    Signs(d, -excess);
  }

  lemma ExcessAtRate(z: real, n: real, rate: real)
    requires 0.0 <= rate <= 1.0
    ensures Excess(z, n, rate, rate) <= 0.0
  {
    Square(z);
    NonNegativeProduct(rate, 1.0 - rate);
    NonNegativeProduct(z * z, rate * (1.0 - rate));
    assert n * (rate - rate) * (rate - rate) == 0.0;
    assert z * z * rate * (1.0 - rate) == (z * z) * (rate * (1.0 - rate));
  }

  lemma ExcessAtEnds(z: real, n: real, rate: real)
    requires n > 0.0
    ensures Excess(z, n, rate, 0.0) == 0.0 <==> rate == 0.0
    ensures Excess(z, n, rate, 1.0) == 0.0 <==> rate == 1.0
  {
    Square(rate);
    Square(rate - 1.0);
    Signs(n, rate * rate);
    Signs(n, (rate - 1.0) * (rate - 1.0));
    assert Excess(z, n, rate, 0.0) == (rate * rate) * n;
    assert Excess(z, n, rate, 1.0) == ((rate - 1.0) * (rate - 1.0)) * n;
  }

  /** No probability outside [0, 1] is within reach of the observed rate. */
  lemma ExcessOutsideUnit(z: real, n: real, rate: real, p: real)
    requires n > 0.0 && 0.0 <= rate <= 1.0 && (p < 0.0 || p > 1.0)
    ensures Excess(z, n, rate, p) > 0.0
  {
    var gap, spread := (rate - p) * (rate - p), -p * (1.0 - p);
    Square(rate - p);
    Signs(n, gap);
    Square(z);
    if p < 0.0 {
      NonNegativeProduct(-p, 1.0 - p);
    } else {
      NonNegativeProduct(p, p - 1.0);
    }
    NonNegativeProduct(z * z, spread);
    assert Excess(z, n, rate, p) == gap * n + (z * z) * spread;
  }

  lemma NonNegativeProduct(a: real, b: real)
    requires a >= 0.0 && b >= 0.0
    ensures a * b >= 0.0
  {}

  lemma Square(x: real)
    ensures x * x >= 0.0 && (x * x == 0.0 <==> x == 0.0)
  {
    if x > 0.0 {
      Signs(x, x);
    } else if x < 0.0 {
      Signs(-x, -x);
      assert (-x) * (-x) == x * x;
    }
  }

  /** The interval is not a single point, since the margin is positive. */
  lemma MarginPositive(z: real, n: real, rate: real, root: real)
    requires n > 0.0 && z > 0.0 && 0.0 <= rate <= 1.0 && IsRoot(root, Radicand(z, n, rate))
    ensures Denominator(z, n) > 0.0 && Margin(z, n, root) > 0.0
  {
    DenominatorPositive(z, n);
    var u := z * z / n;
    RatioForms(z, n, u);
    RadicandForm(z, n, rate, u, root);
    Square(z);
    Signs(n, u);
    NonNegativeProduct(rate, 1.0 - rate);
    Square(root);
    assert root > 0.0;
    Signs(root, z);
    PositiveQuotient(z * root, Denominator(z, n));
  }

  lemma PositiveQuotient(a: real, b: real)
    requires a > 0.0 && b > 0.0
    ensures a / b > 0.0
  {
    Signs(b, a / b);
  }

  /**
   * The Wilson interval: its endpoints are exactly the two solutions of the score equation, it
   * contains the observed hit rate, both clamps change nothing, and it touches 0 exactly when
   * there were no hits and 1 exactly when everything hit.
   */
  lemma WilsonInterval(successes: nat, sampleSize: nat, root: real)
    requires 0 < sampleSize && successes <= sampleSize
    requires IsRoot(root, Radicand(WILSON_95_Z, sampleSize as real, Rate(successes, sampleSize)))
    ensures var (low, high) := Wilson95(successes, sampleSize, root);
      var n, rate := sampleSize as real, Rate(successes, sampleSize);
      && (forall p :: OnBoundary(WILSON_95_Z, n, rate, p) <==> p == low || p == high)
      && 0.0 <= low <= rate <= high <= 1.0
      && low < high
      && (low == 0.0 <==> successes == 0)
      && (high == 1.0 <==> successes == sampleSize)
  {
    hide Excess, Radicand, IsRoot, OnBoundary, Denominator, Center, Margin;
    var n, rate := sampleSize as real, Rate(successes, sampleSize);
    DenominatorPositive(WILSON_95_Z, n);
    var low := Center(WILSON_95_Z, n, rate) - Margin(WILSON_95_Z, n, root);
    var high := Center(WILSON_95_Z, n, rate) + Margin(WILSON_95_Z, n, root);
    RateInUnit(successes, sampleSize);
    MarginPositive(WILSON_95_Z, n, rate, root);
    ExcessAtRate(WILSON_95_Z, n, rate);
    ExcessAtEnds(WILSON_95_Z, n, rate);
    ExcessSign(WILSON_95_Z, n, rate, root, rate);
    ExcessSign(WILSON_95_Z, n, rate, root, 0.0);
    ExcessSign(WILSON_95_Z, n, rate, root, 1.0);
    forall p ensures OnBoundary(WILSON_95_Z, n, rate, p) <==> p == low || p == high {
      ExcessMeansBoundary(WILSON_95_Z, n, rate, p);
      ExcessSign(WILSON_95_Z, n, rate, root, p);
    }
    InsideUnit(WILSON_95_Z, n, rate, root, low);
    InsideUnit(WILSON_95_Z, n, rate, root, high);
  }

  lemma InsideUnit(z: real, n: real, rate: real, root: real, p: real)
    requires n > 0.0 && z >= 0.0 && 0.0 <= rate <= 1.0 && IsRoot(root, Radicand(z, n, rate))
    requires Denominator(z, n) > 0.0
    requires p == Center(z, n, rate) - Margin(z, n, root) || p == Center(z, n, rate) + Margin(z, n, root)
    ensures 0.0 <= p <= 1.0
  {
    hide Excess, Radicand, IsRoot, Denominator, Center, Margin;
    ExcessSign(z, n, rate, root, p);
    if p < 0.0 || p > 1.0 {
      ExcessOutsideUnit(z, n, rate, p);
    }
  }

  // ---------------------------------------------------------------- the directional test

  function EvaluateDirectionalHits(outcomes: seq<bool>, policy: Policy, root: real): Result<Inference, InferenceError> {
    if outcomes == [] then Err(OutcomesRequired)
    else
      var successes, n := Hits(outcomes), |outcomes|;
      var rate := successes as real / n as real;
      if n < policy.minimumSampleSize then
        Ok(Inference(n, successes, rate, policy.nullHitRate, policy.alpha, None, None, None, InsufficientSample))
      else
        var pValue := UpperTail(successes, n, policy.nullHitRate);
        Ok(Inference(n, successes, rate, policy.nullHitRate, policy.alpha, Some(pValue),
                     Some(Wilson95(successes, n, root)), Some(pValue <= policy.alpha), ValidatedMethodResult))
  }

  lemma {:induction false} HitsBounded(outcome: seq<bool>)
    ensures Hits(outcome) <= |outcome|
  {
    if outcome != [] {
      HitsBounded(outcome[1..]);
    }
  }

  /**
   * A published p-value is the chance, under the null, of at least the observed hits; it is
   * positive, and 1 exactly when nothing hit.
   */
  lemma PValueIsNullProbability(outcomes: seq<bool>, policy: Policy, root: real)
    requires outcomes != []
    ensures EvaluateDirectionalHits(outcomes, policy, root).Ok?
    ensures var r := EvaluateDirectionalHits(outcomes, policy, root).value;
      && (r.pValue.Some? <==> |outcomes| >= policy.minimumSampleSize)
      && (r.significant.Some? <==> r.pValue.Some?)
      && (r.pValue.Some? ==>
            && r.pValue.value == EventProbability(|outcomes|, Hits(outcomes), policy.nullHitRate)
            && 0.0 < r.pValue.value <= 1.0
            && (r.pValue.value == 1.0 <==> Hits(outcomes) == 0))
  {
    hide Term, EventProbability;
    HitsBounded(outcomes);
    TailIsProbability(Hits(outcomes), |outcomes|, policy.nullHitRate);
    TailFallsWithHits(0, Hits(outcomes), |outcomes|, policy.nullHitRate);
    TailFromZero(|outcomes|, policy.nullHitRate);
  }

  /** Where the outcomes hit. */
  function HitsAt(outcomes: seq<bool>): set<nat> {
    set k: nat | k < |outcomes| && outcomes[k]
  }

  lemma {:induction false} HitsCount(outcomes: seq<bool>)
    ensures Hits(outcomes) == |HitsAt(outcomes)|
  {
    if outcomes != [] {
      var n := |outcomes| - 1;
      HitsCount(outcomes[..n]);
      HitsAppend(outcomes[..n], outcomes[n]);
      assert outcomes == outcomes[..n] + [outcomes[n]];
      assert HitsAt(outcomes) == HitsAt(outcomes[..n]) + if outcomes[n] then {n} else {};
    }
  }

  lemma {:induction false} HitsAppend(outcomes: seq<bool>, last: bool)
    ensures Hits(outcomes + [last]) == Hits(outcomes) + if last then 1 else 0
  {
    if outcomes == [] {
      assert outcomes + [last] == [last];
    } else {
      HitsAppend(outcomes[1..], last);
      assert (outcomes + [last])[1..] == outcomes[1..] + [last];
    }
  }

  /** p is as far from the observed rate as 1.96 standard errors at p. */
  predicate AtNinetyFivePercent(n: nat, rate: real, p: real) {
    n as real * (rate - p) * (rate - p) == 1.959963984540054 * 1.959963984540054 * p * (1.0 - p)
  }

  /** What the answer says of the sample, published or not. */
  lemma InferenceDescribesTheSample(outcomes: seq<bool>, policy: Policy, root: real)
    ensures EvaluateDirectionalHits(outcomes, policy, root).Err? <==> outcomes == []
    ensures outcomes != [] ==>
              var r := EvaluateDirectionalHits(outcomes, policy, root).value;
              && r.sampleSize == |outcomes| && r.successes == |HitsAt(outcomes)|
              && r.observedHitRate * |outcomes| as real == |HitsAt(outcomes)| as real
              && r.nullHitRate == policy.nullHitRate && r.alpha == policy.alpha
              && (r.status.ValidatedMethodResult? <==> |outcomes| >= policy.minimumSampleSize)
              && (r.status.InsufficientSample? ==> r.pValue.None? && r.interval.None? && r.significant.None?)
  {
    HitsCount(outcomes);
  }

  /**
   * From the minimum sample on the verdict is that the chance, under the null, of at least the
   * observed hits is at most alpha, and the interval ends at the two hit rates that lie 1.96 of
   * their own standard errors from the observed one.
   */
  lemma PublishedVerdict(outcomes: seq<bool>, policy: Policy, root: real)
    requires outcomes != [] && |outcomes| >= policy.minimumSampleSize
    requires IsRoot(root, Radicand(WILSON_95_Z, |outcomes| as real, Rate(|HitsAt(outcomes)|, |outcomes|)))
    ensures var r := EvaluateDirectionalHits(outcomes, policy, root).value;
            var n, hits := |outcomes|, |HitsAt(outcomes)|;
            && r.significant.Some?
            && (r.significant.value <==> EventProbability(n, hits, policy.nullHitRate) <= policy.alpha)
            && r.interval.Some?
            && r.interval.value.0 < r.interval.value.1
            && r.interval.value.0 <= r.observedHitRate <= r.interval.value.1
            && forall p ::
                 AtNinetyFivePercent(n, r.observedHitRate, p)
                 <==> p == r.interval.value.0 || p == r.interval.value.1
  {
    hide Term, EventProbability, Wilson95, Radicand, OnBoundary, AtNinetyFivePercent;
    HitsCount(outcomes);
    HitsBounded(outcomes);
    PValueIsNullProbability(outcomes, policy, root);
    WilsonInterval(Hits(outcomes), |outcomes|, root);
    forall p
      ensures AtNinetyFivePercent(|outcomes|, Rate(Hits(outcomes), |outcomes|), p)
         <==> OnBoundary(WILSON_95_Z, |outcomes| as real, Rate(Hits(outcomes), |outcomes|), p)
    {
      SameBoundary(|outcomes|, Rate(Hits(outcomes), |outcomes|), p);
    }
  }

  lemma SameBoundary(n: nat, rate: real, p: real)
    ensures AtNinetyFivePercent(n, rate, p) <==> OnBoundary(WILSON_95_Z, n as real, rate, p)
  {
  }

  ghost predicate Significant(outcomes: seq<bool>, policy: Policy, root: real) {
    var r := EvaluateDirectionalHits(outcomes, policy, root);
    r.Ok? && r.value.significant == Some(true)
  }

  /**
   * At a fixed sample size, more hits, an easier null or a looser alpha never turns a
   * significant verdict into another one.
   */
  lemma SignificanceIsMonotone(a: seq<bool>, b: seq<bool>, pa: Policy, pb: Policy, ra: real, rb: real)
    requires |a| == |b| && Hits(a) <= Hits(b)
    requires pb.nullHitRate <= pa.nullHitRate && pa.alpha <= pb.alpha
    requires pb.minimumSampleSize <= pa.minimumSampleSize
    requires Significant(a, pa, ra)
    ensures Significant(b, pb, rb)
  {
    hide Term;
    TailFallsWithHits(Hits(a), Hits(b), |a|, pa.nullHitRate);
    TailRisesWithChance(Hits(b), |b|, pb.nullHitRate, pa.nullHitRate);
  }
}
