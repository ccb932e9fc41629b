/** Forecast calibration: the Brier score beside the mean forecast and the observed event rate. */
module Calibration {
  import opened Common
  import opened Sums
  import Sorting

  datatype Forecast = Forecast(id: string, probability: real, outcome: bool)

  /** What the constructor of a forecast lets through. */
  predicate WellFormed(f: Forecast) {
    0.0 <= f.probability <= 1.0
  }

  predicate DistinctForecasts(fs: seq<Forecast>) {
    forall i, j | 0 <= i < j < |fs| :: fs[i].id != fs[j].id
  }

  function Event(f: Forecast): real {
    if f.outcome then 1.0 else 0.0
  }

  function Square(x: real): real {
    x * x
  }

  function Probabilities(fs: seq<Forecast>): (r: seq<real>)
    ensures |r| == |fs|
  {
    seq(|fs|, k requires 0 <= k < |fs| => fs[k].probability)
  }

  function Events(fs: seq<Forecast>): (r: seq<real>)
    ensures |r| == |fs|
  {
    seq(|fs|, k requires 0 <= k < |fs| => Event(fs[k]))
  }

  function SquaredErrors(fs: seq<Forecast>): (r: seq<real>)
    ensures |r| == |fs|
  {
    seq(|fs|, k requires 0 <= k < |fs| => Square(fs[k].probability - Event(fs[k])))
  }

  datatype Evaluation = Evaluation(sampleSize: nat, brier: real, meanForecast: real, eventRate: real, sufficient: bool)

  datatype CalibrationError = NoObservations | DuplicateIds

  function Evaluate(fs: seq<Forecast>, minimumSample: nat): (r: Result<Evaluation, CalibrationError>)
    ensures r == Err(NoObservations) <==> fs == []
    ensures r == Err(DuplicateIds) <==> !DistinctForecasts(fs)
  {
    if fs == [] then Err(NoObservations)
    else if !DistinctForecasts(fs) then Err(DuplicateIds)
    else
      var n := |fs| as real;
      Ok(Evaluation(|fs|, Sum(SquaredErrors(fs)) / n, Sum(Probabilities(fs)) / n, Sum(Events(fs)) / n,
                    |fs| >= minimumSample))
  }

  // ---------------------------------------------------------------- Jensen

  function Errors(fs: seq<Forecast>): (r: seq<real>)
    ensures |r| == |fs|
  {
    seq(|fs|, k requires 0 <= k < |fs| => fs[k].probability - Event(fs[k]))
  }

  lemma SquareSign(x: real)
    ensures Square(x) >= 0.0
    ensures Square(x) == 0.0 <==> x == 0.0
  {
    if x > 0.0 {
      Signs(x, x);
    } else if x < 0.0 {
      Signs(-x, -x);
      assert Square(x) == -x * -x;
    }
  }

  /** nQ - S^2: by how much the squared errors exceed what equal errors of that sum would give. */
  function Gap(n: nat, s: real, q: real): real {
    Positioned(q, n) - Square(s)
  }

  /** One more error multiplies the gap and adds the square of its distance from the others' mean. */
  lemma GapIdentity(m: real, s: real, q: real, d: real)
    ensures m * ((q + d * d) * (m + 1.0) - (s + d) * (s + d)) == (m + 1.0) * (q * m - s * s) + (m * d - s) * (m * d - s)
  {
    var qm, md, sd := q * m, m * d, s * d;
    var dd := d * d;
    assert (q + dd) * (m + 1.0) == qm + q + dd * m + dd;
    assert (s + d) * (s + d) == s * s + 2.0 * sd + dd;
    assert (md - s) * (md - s) == md * md - 2.0 * (md * s) + s * s;
    assert md * s == m * sd && md * md == m * (m * dd) && m * qm == qm * m && dd * m == m * dd;
    assert m * (qm + q + m * dd + dd - s * s - 2.0 * sd - dd) == m * qm + qm + md * md - m * (s * s) - 2.0 * (m * sd);
    assert (m + 1.0) * (qm - s * s) == m * qm - m * (s * s) + qm - s * s;
  }

  lemma GapOfOneMore(n: nat, s: real, q: real, d: real)
    ensures n as real * Gap(n + 1, s + d, q + Square(d)) == (n as real + 1.0) * Gap(n, s, q) + Square(n as real * d - s)
  {
    GapIdentity(n as real, s, q, d);
  }

  lemma PositionedIs(d: real, n: nat)
    ensures Positioned(d, n) == n as real * d
  {
  }

  lemma GapGrows(n: nat, s: real, q: real, d: real)
    requires n > 0 && Gap(n, s, q) >= 0.0
    ensures Gap(n + 1, s + d, q + Square(d)) >= 0.0
    ensures Gap(n + 1, s + d, q + Square(d)) == 0.0 <==> Gap(n, s, q) == 0.0 && Positioned(d, n) == s
  {
    hide Square, Gap, Positioned;
    GapOfOneMore(n, s, q, d);
    PositionedIs(d, n);
    GapSigns(n as real, Gap(n, s, q), Gap(n + 1, s + d, q + Square(d)), n as real * d - s);
  }

  lemma GapSigns(m: real, before: real, after: real, off: real)
    requires m > 0.0 && before >= 0.0 && m * after == (m + 1.0) * before + Square(off)
    ensures after >= 0.0
    ensures after == 0.0 <==> before == 0.0 && off == 0.0
  {
    hide Square;
    SquareSign(off);
    Signs(m, after);
    Signs(m + 1.0, before);
  }

  /** All forecasts miss by the same amount. */
  predicate EqualErrors(fs: seq<Forecast>) {
    forall i, j | 0 <= i < j < |fs| :: Errors(fs)[i] == Errors(fs)[j]
  }

  /** Equal errors sum to a multiple of any one of them. */
  lemma {:induction false} EqualErrorsSum(fs: seq<Forecast>)
    requires fs != [] && EqualErrors(fs)
    ensures Sum(Errors(fs)) == Positioned(Errors(fs)[0], |fs|)
  {
    var e := Errors(fs)[0];
    SumAtMost(Errors(fs), e);
    SumAtLeast(Errors(fs), e);
  }

  lemma LastError(fs: seq<Forecast>)
    requires |fs| > 1 && EqualErrors(fs[..|fs| - 1])
    ensures EqualErrors(fs) <==> Errors(fs)[|fs| - 1] == Errors(fs)[0]
  {
    var n := |fs| - 1;
    assert Errors(fs[..n]) == Errors(fs)[..n];
    if Errors(fs)[n] == Errors(fs)[0] {
      forall i, j | 0 <= i < j < |fs|
        ensures Errors(fs)[i] == Errors(fs)[j]
      {
        assert i < n && Errors(fs[..n])[i] == Errors(fs)[i];
        assert j < n ==> Errors(fs[..n])[j] == Errors(fs)[j];
      }
    }
  }

  lemma SameMultiple(n: nat, d: real, e: real)
    requires n > 0
    ensures Positioned(d, n) == Positioned(e, n) <==> d == e
  {
    var m := n as real;
    assert m * (d - e) == Positioned(d, n) - Positioned(e, n);
    Signs(m, d - e);
  }

  /** Jensen's inequality for the errors, and when it is an equality. */
  lemma {:induction false} Jensen(fs: seq<Forecast>)
    requires fs != []
    ensures Gap(|fs|, Sum(Errors(fs)), Sum(SquaredErrors(fs))) >= 0.0
    ensures Gap(|fs|, Sum(Errors(fs)), Sum(SquaredErrors(fs))) == 0.0 <==> EqualErrors(fs)
  {
    hide Square, Positioned, EqualErrors, Gap;
    var n := |fs| - 1;
    var before, d := fs[..n], Errors(fs)[n];
    assert Errors(fs)[..n] == Errors(before) && SquaredErrors(fs)[..n] == SquaredErrors(before);
    if n == 0 {
      OneError(fs);
    } else {
      Jensen(before);
      GapGrows(n, Sum(Errors(before)), Sum(SquaredErrors(before)), d);
      if EqualErrors(before) {
        EqualErrorsSum(before);
        SameMultiple(n, d, Errors(before)[0]);
        LastError(fs);
      } else {
        FewerEqualErrors(fs);
      }
    }
  }

  lemma OneError(fs: seq<Forecast>)
    requires |fs| == 1
    ensures Gap(1, Sum(Errors(fs)), Sum(SquaredErrors(fs))) == 0.0 && EqualErrors(fs)
  {
    assert Errors(fs)[..0] == [] && SquaredErrors(fs)[..0] == [];
  }

  lemma FewerEqualErrors(fs: seq<Forecast>)
    requires fs != []
    ensures EqualErrors(fs) ==> EqualErrors(fs[..|fs| - 1])
  {
    assert Errors(fs[..|fs| - 1]) == Errors(fs)[..|fs| - 1];
  }

  lemma {:induction false} ErrorsSum(fs: seq<Forecast>)
    ensures Sum(Errors(fs)) == Sum(Probabilities(fs)) - Sum(Events(fs))
  {
    if fs != [] {
      var n := |fs| - 1;
      ErrorsSum(fs[..n]);
      assert Errors(fs)[..n] == Errors(fs[..n]) && Probabilities(fs)[..n] == Probabilities(fs[..n])
             && Events(fs)[..n] == Events(fs[..n]);
    }
  }

  lemma UnitSquare(e: real)
    requires -1.0 <= e <= 1.0
    ensures 0.0 <= Square(e) <= 1.0
  {
    var a := if e >= 0.0 then e else -e;
    assert Square(e) == a * a;
    Scale(a, 0.0, a);
    Scale(a, a, 1.0);
  }

  lemma SquaredErrorAtMostOne(f: Forecast)
    requires WellFormed(f)
    ensures 0.0 <= Square(f.probability - Event(f)) <= 1.0
  {
    UnitSquare(f.probability - Event(f));
  }

  lemma {:induction false} SquaredErrorsAtMostOne(fs: seq<Forecast>)
    requires forall k | 0 <= k < |fs| :: WellFormed(fs[k])
    ensures Sum(SquaredErrors(fs)) <= |fs| as real
  {
    hide Square;
    if fs != [] {
      var n := |fs| - 1;
      SquaredErrorsAtMostOne(fs[..n]);
      assert SquaredErrors(fs)[..n] == SquaredErrors(fs[..n]);
      SquaredErrorAtMostOne(fs[n]);
    }
  }

  lemma DivideThrough(n: nat, s: real, q: real)
    requires n > 0 && Gap(n, s, q) >= 0.0 && q <= n as real
    ensures Square(s / n as real) <= q / n as real <= 1.0
    ensures Square(s / n as real) == q / n as real <==> Gap(n, s, q) == 0.0
  {
    var m := n as real;
    var a, b := s / m, q / m;
    assert s == a * m && q == b * m;
    assert Gap(n, s, q) == m * (m * (b - Square(a))) by {
      assert (a * m) * (a * m) == m * (m * (a * a));
      assert (b * m) * m == m * (m * b);
    }
    TwiceScaled(m, b - Square(a));
    QuotientAtMost(m, q, 1.0);
  }

  lemma TwiceScaled(m: real, x: real)
    requires m > 0.0
    ensures m * (m * x) >= 0.0 <==> x >= 0.0
    ensures m * (m * x) == 0.0 <==> x == 0.0
  {
    Signs(m, x);
    Signs(m, m * x);
  }

  /**
   * The Brier score is at least the squared gap between mean forecast and event rate, exactly
   * that gap when all forecasts miss by the same amount, and at most one.
   */
  lemma BrierCoversTheBias(fs: seq<Forecast>, minimumSample: nat)
    requires Evaluate(fs, minimumSample).Ok? && forall k | 0 <= k < |fs| :: WellFormed(fs[k])
    ensures var e := Evaluate(fs, minimumSample).value;
            && Square(e.meanForecast - e.eventRate) <= e.brier <= 1.0
            && (Square(e.meanForecast - e.eventRate) == e.brier <==> EqualErrors(fs))
  {
    hide Square, Gap, Sum, Errors, SquaredErrors, Probabilities, Events, EqualErrors;
    Jensen(fs);
    ErrorsSum(fs);
    SquaredErrorsAtMostOne(fs);
    var n := |fs| as real;
    DivideThrough(|fs|, Sum(Errors(fs)), Sum(SquaredErrors(fs)));
    DivideDifference(Sum(Probabilities(fs)), Sum(Events(fs)), n);
  }

  lemma DivideDifference(a: real, b: real, n: real)
    requires n > 0.0
    ensures (a - b) / n == a / n - b / n
  {
  }

  // ---------------------------------------------------------------- what the figures mean

  function Happened(fs: seq<Forecast>): nat {
    if fs == [] then 0 else Happened(fs[..|fs| - 1]) + if fs[|fs| - 1].outcome then 1 else 0
  }

  lemma {:induction false} EventsAreCounted(fs: seq<Forecast>)
    ensures Sum(Events(fs)) == Happened(fs) as real
  {
    if fs != [] {
      EventsAreCounted(fs[..|fs| - 1]);
      assert Events(fs)[..|fs| - 1] == Events(fs[..|fs| - 1]);
    }
  }

  lemma {:induction false} NoErrorNoScore(fs: seq<Forecast>)
    ensures Sum(SquaredErrors(fs)) >= 0.0
    ensures Sum(SquaredErrors(fs)) == 0.0 <==> forall k | 0 <= k < |fs| :: fs[k].probability == Event(fs[k])
  {
    hide Square;
    if fs != [] {
      var n := |fs| - 1;
      NoErrorNoScore(fs[..n]);
      assert SquaredErrors(fs)[..n] == SquaredErrors(fs[..n]);
      SquareSign(fs[n].probability - Event(fs[n]));
    }
  }

  lemma ZeroQuotient(a: real, n: real)
    requires n > 0.0
    ensures a / n == 0.0 <==> a == 0.0
  {
    assert (a / n) * n == a;
  }

  lemma TimesBack(a: real, n: real)
    requires n > 0.0
    ensures (a / n) * n == a
  {
  }

  /** The square of the distance between what was forecast and what came. */
  function Penalty(f: Forecast): real {
    if f.outcome then (1.0 - f.probability) * (1.0 - f.probability) else f.probability * f.probability
  }

  lemma SquareOfMiss(p: real)
    ensures Square(p - 1.0) == (1.0 - p) * (1.0 - p) && Square(p - 0.0) == p * p
  {
  }

  lemma {:induction false} PenaltiesAre(fs: seq<Forecast>)
    ensures Sum(SquaredErrors(fs)) == Sum(Sorting.Map(Penalty, fs))
  {
    forall k | 0 <= k < |fs|
      ensures SquaredErrors(fs)[k] == Penalty(fs[k])
    {
      SquareOfMiss(fs[k].probability);
    }
    assert SquaredErrors(fs) == Sorting.Map(Penalty, fs);
  }

  /**
   * The mean forecast has the forecasts' total, the event rate is the share of events, and the
   * score has the total of the penalties, so it is zero exactly for forecasts that were certain and
   * right.
   */
  ghost predicate Describes(e: Evaluation, fs: seq<Forecast>, minimumSample: nat)
    requires fs != []
  {
    && e.sampleSize == |fs| && (e.sufficient <==> minimumSample <= |fs|)
    && Positioned(e.meanForecast, |fs|) == Sum(Probabilities(fs))
    && e.eventRate == Happened(fs) as real / |fs| as real
    && Positioned(e.brier, |fs|) == Sum(Sorting.Map(Penalty, fs))
    && (e.brier == 0.0 <==> forall k | 0 <= k < |fs| :: fs[k].probability == Event(fs[k]))
  }

  lemma FiguresDescribe(fs: seq<Forecast>, minimumSample: nat)
    requires fs != [] && DistinctForecasts(fs)
    ensures Evaluate(fs, minimumSample).Ok? && Describes(Evaluate(fs, minimumSample).value, fs, minimumSample)
  {
    hide Square, Sum, SquaredErrors, Events, Probabilities, DistinctForecasts, Penalty;
    PenaltiesAre(fs);
    TimesBack(Sum(SquaredErrors(fs)), |fs| as real);
    EventsAreCounted(fs);
    NoErrorNoScore(fs);
    ZeroQuotient(Sum(SquaredErrors(fs)), |fs| as real);
    TimesBack(Sum(Probabilities(fs)), |fs| as real);
  }

  /** Only an empty list and repeated identities are refused; otherwise the figures mean what they say. */
  lemma FiguresMean(fs: seq<Forecast>, minimumSample: nat)
    ensures var r := Evaluate(fs, minimumSample);
            if fs == [] then r == Err(NoObservations)
            else if exists i, j | 0 <= i < j < |fs| :: fs[i].id == fs[j].id then r == Err(DuplicateIds)
            else r.Ok? && Describes(r.value, fs, minimumSample)
  {
    hide Evaluate, Describes;
    if fs != [] && DistinctForecasts(fs) {
      FiguresDescribe(fs, minimumSample);
    }
  }
}
