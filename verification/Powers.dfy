/** Integer powers of a real base, as `Decimal ** int` computes them before rounding. */
module Powers {
  import opened Sums

  function Pow(b: real, n: nat): real {
    if n == 0 then 1.0 else b * Pow(b, n - 1)
  }

  lemma {:induction false} PowPositive(b: real, n: nat)
    requires b > 0.0
    ensures Pow(b, n) > 0.0
  {
    if n > 0 {
      PowPositive(b, n - 1);
    }
  }

  lemma {:induction false} PowProduct(a: real, b: real, n: nat)
    ensures Pow(a * b, n) == Pow(a, n) * Pow(b, n)
  {
    if n > 0 {
      PowProduct(a, b, n - 1);
      var p, q := Pow(a, n - 1), Pow(b, n - 1);
      assert (a * b) * (p * q) == (a * p) * (b * q);
    }
  }

  lemma {:induction false} PowOne(n: nat)
    ensures Pow(1.0, n) == 1.0
  {
    if n > 0 {
      PowOne(n - 1);
    }
  }

  lemma {:induction false} PowReciprocal(b: real, n: nat)
    requires b != 0.0
    ensures Pow(b, n) != 0.0 && Pow(1.0 / b, n) == 1.0 / Pow(b, n)
  {
    if n > 0 {
      PowReciprocal(b, n - 1);
      ReciprocalProduct(b, Pow(b, n - 1));
    }
  }

  lemma ReciprocalProduct(a: real, b: real)
    requires a != 0.0 && b != 0.0
    ensures a * b != 0.0 && (1.0 / a) * (1.0 / b) == 1.0 / (a * b)
  {
    var p := (1.0 / a) * (1.0 / b);
    assert p * (a * b) == ((1.0 / a) * a) * ((1.0 / b) * b) == 1.0;
  }

  ghost predicate Reciprocals(a: real, b: real) {
    a * b == 1.0
  }

  lemma ReciprocalsOf(b: real)
    requires b != 0.0
    ensures Reciprocals(1.0 / b, b)
  {}

  lemma ReciprocalIs(a: real, b: real)
    requires Reciprocals(a, b)
    ensures b != 0.0 && a == 1.0 / b
  {}

  lemma {:induction false} PowReciprocals(a: real, b: real, n: nat)
    requires Reciprocals(a, b)
    ensures Reciprocals(Pow(a, n), Pow(b, n))
  {
    if n > 0 {
      PowReciprocals(a, b, n - 1);
      ReciprocalProducts(a, b, Pow(a, n - 1), Pow(b, n - 1), Pow(a, n), Pow(b, n));
    }
  }

  lemma ReciprocalProducts(a: real, b: real, p: real, q: real, ap: real, bq: real)
    requires Reciprocals(a, b) && Reciprocals(p, q) && ap == a * p && bq == b * q
    ensures Reciprocals(ap, bq)
  {
    assert ap * bq == (a * b) * (p * q);
  }

  lemma LargerProduct(a: real, b: real, p: real, q: real)
    requires 0.0 < a < b && 0.0 < p < q
    ensures a * p < b * q
  {
    Signs(b - a, p);
    Signs(b, q - p);
    assert b * q - a * p == (b - a) * p + b * (q - p);
  }

  lemma {:induction false} PowStrictlyMonotone(a: real, b: real, n: nat)
    requires 0.0 < a < b && n > 0
    ensures Pow(a, n) < Pow(b, n)
  {
    if n == 1 {
      assert Pow(a, 0) == 1.0 == Pow(b, 0);
    } else {
      PowStrictlyMonotone(a, b, n - 1);
      PowPositive(a, n - 1);
      LargerProduct(a, b, Pow(a, n - 1), Pow(b, n - 1));
    }
  }

  /** Bernoulli's inequality. */
  lemma {:induction false} Bernoulli(x: real, n: nat)
    requires x > 0.0
    ensures Pow(x, n) >= 1.0 + n as real * (x - 1.0)
  {
    if n > 0 {
      Bernoulli(x, n - 1);
      BernoulliStep(x, Pow(x, n - 1), (n - 1) as real);
    }
  }

  lemma BernoulliStep(x: real, p: real, k: real)
    requires x > 0.0 && k >= 0.0 && p >= 1.0 + k * (x - 1.0)
    ensures x * p >= 1.0 + (k + 1.0) * (x - 1.0)
  {
    var d := x - 1.0;
    var q := 1.0 + k * d;
    assert x * p >= x * q;
    assert x * q == 1.0 + (k + 1.0) * d + k * (d * d);
    assert k * (d * d) >= 0.0;
  }
}
