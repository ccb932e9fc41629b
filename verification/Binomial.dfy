/** The exact binomial tail of stat_inference.py, and what it is the probability of. */
module Binomial {
  import opened Powers

  /** `math.comb`, by Pascal's rule. */
  function Comb(n: nat, k: nat): nat {
    if k == 0 then 1 else if n == 0 then 0 else Comb(n - 1, k - 1) + Comb(n - 1, k)
  }

  function Product(count: nat, hit: real, miss: real): real {
    count as real * hit * miss
  }

  /** The summand of the tail: k hits and n - k misses, in any order. */
  function Term(n: nat, k: nat, p: real): real {
    if k > n then 0.0 else Product(Comb(n, k), Pow(p, k), Pow(1.0 - p, n - k))
  }

  /** `_exact_upper_binomial_tail`: the terms from `successes` to n. */
  function UpperTail(successes: nat, n: nat, p: real): real
    decreases n + 1 - successes
  {
    if successes > n then 0.0 else Term(n, successes, p) + UpperTail(successes + 1, n, p)
  }

  // ---------------------------------------------------------------- the reference: outcome sequences

  function Hits(outcome: seq<bool>): nat {
    if outcome == [] then 0 else (if outcome[0] then 1 else 0) + Hits(outcome[1..])
  }

  function Choose(hit: bool, p: real): real {
    if hit then p else 1.0 - p
  }

  function Times(a: real, b: real): real {
    a * b
  }

  /** The probability of one outcome sequence when every outcome hits independently with chance p. */
  function Chance(outcome: seq<bool>, p: real): real {
    if outcome == [] then 1.0 else Times(Choose(outcome[0], p), Chance(outcome[1..], p))
  }

  function Prepend(hit: bool, outcomes: seq<seq<bool>>): (r: seq<seq<bool>>)
    ensures |r| == |outcomes|
  {
    if outcomes == [] then [] else [[hit] + outcomes[0]] + Prepend(hit, outcomes[1..])
  }

  lemma {:induction false} PrependEach(hit: bool, outcomes: seq<seq<bool>>, i: nat)
    requires i < |outcomes|
    ensures Prepend(hit, outcomes)[i] == [hit] + outcomes[i]
  {
    if i > 0 {
      PrependEach(hit, outcomes[1..], i - 1);
    }
  }

  /** All outcome sequences of length n. */
  function Outcomes(n: nat): seq<seq<bool>> {
    if n == 0 then [[]] else Prepend(true, Outcomes(n - 1)) + Prepend(false, Outcomes(n - 1))
  }

  /** The total probability of the listed outcome sequences with at least the given hits. */
  function Probability(outcomes: seq<seq<bool>>, atLeast: int, p: real): real {
    if outcomes == [] then 0.0
    else (if Hits(outcomes[0]) >= atLeast then Chance(outcomes[0], p) else 0.0) + Probability(outcomes[1..], atLeast, p)
  }

  /** The probability of at least the given number of hits in n trials. */
  function EventProbability(n: nat, atLeast: int, p: real): real {
    Probability(Outcomes(n), atLeast, p)
  }

  lemma OutcomesOf(n: nat)
    requires n > 0
    ensures Outcomes(n) == Prepend(true, Outcomes(n - 1)) + Prepend(false, Outcomes(n - 1))
  {
  }

  /** The list holds every outcome sequence of length n, and nothing else. */
  lemma {:induction false} OutcomesComplete(n: nat, o: seq<bool>)
    ensures o in Outcomes(n) <==> |o| == n
  {
    if n > 0 {
      OutcomesOf(n);
      hide Prepend, Outcomes;
      var before := Outcomes(n - 1);
      if |o| > 0 {
        OutcomesComplete(n - 1, o[1..]);
        PrependMember(o, before);
      } else {
        PrependNonempty(o, before);
      }
    }
  }

  lemma PrependNonempty(o: seq<bool>, os: seq<seq<bool>>)
    ensures o in Prepend(true, os) + Prepend(false, os) ==> |o| > 0
  {
    hide Prepend;
    var both := Prepend(true, os) + Prepend(false, os);
    if o in both {
      var i :| 0 <= i < |both| && both[i] == o;
      PrependAt(os, i);
    }
  }

  lemma PrependMember(o: seq<bool>, os: seq<seq<bool>>)
    requires |o| > 0
    ensures o in Prepend(true, os) + Prepend(false, os) <==> o[1..] in os
  {
    hide Prepend;
    var both := Prepend(true, os) + Prepend(false, os);
    if o in both {
      var i :| 0 <= i < |both| && both[i] == o;
      PrependAt(os, i);
    }
    if o[1..] in os {
      var i :| 0 <= i < |os| && os[i] == o[1..];
      var j := if o[0] then i else i + |os|;
      PrependAt(os, j);
      assert o == [o[0]] + o[1..] && both[j] == [both[j][0]] + both[j][1..];
    }
  }

  /** The list holds no outcome sequence twice. */
  lemma {:induction false} OutcomesDistinct(n: nat, i: nat, j: nat)
    requires i < j < |Outcomes(n)|
    ensures Outcomes(n)[i] != Outcomes(n)[j]
  {
    if n > 0 {
      OutcomesOf(n);
      hide Prepend, Outcomes;
      var os := Outcomes(n - 1);
      if i < j < |os| {
        OutcomesDistinct(n - 1, i, j);
      } else if |os| <= i < j {
        OutcomesDistinct(n - 1, i - |os|, j - |os|);
      }
      PrependedDiffer(os, i, j);
    }
  }

  lemma PrependedDiffer(os: seq<seq<bool>>, i: nat, j: nat)
    requires i < j < 2 * |os|
    requires j < |os| ==> os[i] != os[j]
    requires |os| <= i ==> os[i - |os|] != os[j - |os|]
    ensures (Prepend(true, os) + Prepend(false, os))[i] != (Prepend(true, os) + Prepend(false, os))[j]
  {
    hide Prepend;
    PrependAt(os, i);
    PrependAt(os, j);
  }

  lemma PrependAt(os: seq<seq<bool>>, i: nat)
    requires i < 2 * |os|
    ensures var o := (Prepend(true, os) + Prepend(false, os))[i];
      |o| > 0 && o[0] == (i < |os|) && o[1..] == os[if i < |os| then i else i - |os|]
  {
    hide Prepend;
    if i < |os| {
      PrependEach(true, os, i);
    } else {
      PrependEach(false, os, i - |os|);
    }
  }

  lemma {:induction false} ProbabilityAppend(xs: seq<seq<bool>>, ys: seq<seq<bool>>, atLeast: int, p: real)
    ensures Probability(xs + ys, atLeast, p) == Probability(xs, atLeast, p) + Probability(ys, atLeast, p)
  {
    if xs == [] {
      assert xs + ys == ys;
    } else {
      ProbabilityAppend(xs[1..], ys, atLeast, p);
      assert (xs + ys)[1..] == xs[1..] + ys;
    }
  }

  lemma {:induction false} ProbabilityPrepend(hit: bool, os: seq<seq<bool>>, atLeast: int, p: real)
    ensures Probability(Prepend(hit, os), atLeast, p)
         == Times(Choose(hit, p), Probability(os, if hit then atLeast - 1 else atLeast, p))
  {
    if os != [] {
      hide Times, Choose;
      var need := if hit then atLeast - 1 else atLeast;
      ProbabilityPrepend(hit, os[1..], atLeast, p);
      var o := [hit] + os[0];
      assert o[0] == hit && o[1..] == os[0];
      TimesSum(Choose(hit, p), if Hits(os[0]) >= need then Chance(os[0], p) else 0.0, Probability(os[1..], need, p));
      TimesZero(Choose(hit, p));
    } else {
      TimesZero(Choose(hit, p));
    }
  }

  lemma TimesSum(a: real, x: real, y: real)
    ensures Times(a, x + y) == Times(a, x) + Times(a, y)
  {}

  lemma TimesZero(a: real)
    ensures Times(a, 0.0) == 0.0
  {}

  /** Conditioning the reference on the first outcome. */
  lemma ProbabilityStep(n: nat, atLeast: int, p: real)
    ensures EventProbability(n + 1, atLeast, p)
         == Times(p, EventProbability(n, atLeast - 1, p)) + Times(1.0 - p, EventProbability(n, atLeast, p))
  {
    hide Times;
    var os := Outcomes(n);
    ProbabilityAppend(Prepend(true, os), Prepend(false, os), atLeast, p);
    ProbabilityPrepend(true, os, atLeast, p);
    ProbabilityPrepend(false, os, atLeast, p);
  }

  // ---------------------------------------------------------------- the tail's recurrence

  lemma {:induction false} CombAbove(n: nat, k: nat)
    requires k > n
    ensures Comb(n, k) == 0
  {
    if n > 0 {
      CombAbove(n - 1, k - 1);
      CombAbove(n - 1, k);
    }
  }

  lemma TermStep(n: nat, k: nat, p: real)
    ensures Term(n + 1, k + 1, p) == Times(p, Term(n, k, p)) + Times(1.0 - p, Term(n, k + 1, p))
  {
    hide Product, Times;
    TimesZero(p);
    TimesZero(1.0 - p);
    if k < n {
      SplitTerm(Comb(n, k), Comb(n, k + 1), p, Pow(p, k), Pow(p, k + 1), 1.0 - p, Pow(1.0 - p, n - k - 1),
                Pow(1.0 - p, n - k));
    } else if k == n {
      CombAbove(n, k + 1);
      LastTerm(Comb(n, k), p, Pow(p, k), Pow(p, k + 1), Pow(1.0 - p, 0));
    }
  }

  lemma SplitTerm(c: nat, d: nat, p: real, a: real, a': real, q: real, b: real, b': real)
    requires a' == p * a && b' == q * b
    ensures Product(c + d, a', b') == Times(p, Product(c, a, b')) + Times(q, Product(d, a', b))
  {}

  lemma LastTerm(c: nat, p: real, a: real, a': real, b: real)
    requires a' == p * a
    ensures Product(c, a', b) == Times(p, Product(c, a, b))
  {}

  /** Conditioning the tail on the first outcome. */
  lemma {:induction false} TailStep(s: nat, n: nat, p: real)
    ensures UpperTail(s + 1, n + 1, p) == Times(p, UpperTail(s, n, p)) + Times(1.0 - p, UpperTail(s + 1, n, p))
    decreases n + 1 - s
  {
    hide Times, Term;
    TimesZero(p);
    TimesZero(1.0 - p);
    if s <= n {
      TailStep(s + 1, n, p);
      TermStep(n, s, p);
      TermAbove(n, p);
      TimesSum(p, Term(n, s, p), UpperTail(s + 1, n, p));
      TimesSum(1.0 - p, Term(n, s + 1, p), UpperTail(s + 2, n, p));
    }
  }

  lemma TermAbove(n: nat, p: real)
    ensures Term(n, n + 1, p) == 0.0
  {}

  /** Some number of hits occurs. */
  lemma {:induction false} TailFromZero(n: nat, p: real)
    ensures UpperTail(0, n, p) == 1.0
  {
    hide Times, UpperTail;
    if n > 0 {
      TailFromZero(n - 1, p);
      var rest, rest' := UpperTail(1, n - 1, p), UpperTail(1, n, p);
      NoHits(n - 1, p, rest);
      NoHits(n, p, rest');
      TailStep(0, n - 1, p);
      TotalOne(p, rest, Pow(1.0 - p, n - 1), Pow(1.0 - p, n));
    } else {
      NoHits(0, p, UpperTail(1, 0, p));
      NothingBeyond(0, p);
    }
  }

  lemma NothingBeyond(n: nat, p: real)
    ensures UpperTail(n + 1, n, p) == 0.0
  {}

  lemma NoHits(n: nat, p: real, rest: real)
    requires rest == UpperTail(1, n, p)
    ensures UpperTail(0, n, p) == Pow(1.0 - p, n) + rest
  {}

  lemma TotalOne(p: real, rest: real, a: real, b: real)
    requires a + rest == 1.0 && b == (1.0 - p) * a
    ensures b + (Times(p, 1.0) + Times(1.0 - p, rest)) == 1.0
  {
    assert Times(1.0 - p, rest) == (1.0 - p) * (1.0 - a);
  }

  // ---------------------------------------------------------------- theorems

  /** The tail is the total probability of all outcome sequences with at least that many hits. */
  lemma {:induction false} TailIsProbability(s: nat, n: nat, p: real)
    ensures UpperTail(s, n, p) == EventProbability(n, s, p)
    decreases n
  {
    hide Times, Term, EventProbability;
    if s == 0 {
      TailFromZero(n, p);
      CertainEvent(n, 0, p);
    } else if n == 0 {
      NoTrials(s, p);
    } else {
      TailStep(s - 1, n - 1, p);
      TailIsProbability(s - 1, n - 1, p);
      TailIsProbability(s, n - 1, p);
      ProbabilityStep(n - 1, s, p);
    }
  }

  lemma NoTrials(atLeast: int, p: real)
    ensures EventProbability(0, atLeast, p) == if atLeast <= 0 then 1.0 else 0.0
  {
    hide Times;
    var os := Outcomes(0);
    assert os == [[]] && os[0] == [] && os[1..] == [];
    assert Hits(os[0]) == 0 && Chance(os[0], p) == 1.0;
    assert Probability(os[1..], atLeast, p) == 0.0;
    assert Probability(os, atLeast, p) == if 0 >= atLeast then 1.0 else 0.0;
  }

  lemma {:induction false} CertainEvent(n: nat, atLeast: int, p: real)
    requires atLeast <= 0
    ensures EventProbability(n, atLeast, p) == 1.0
  {
    hide Times, EventProbability;
    if n == 0 {
      NoTrials(atLeast, p);
    } else {
      CertainEvent(n - 1, atLeast - 1, p);
      CertainEvent(n - 1, atLeast, p);
      ProbabilityStep(n - 1, atLeast, p);
      HitOrMiss(p);
    }
  }

  lemma HitOrMiss(p: real)
    ensures Times(p, 1.0) + Times(1.0 - p, 1.0) == 1.0
  {}

  lemma {:induction false} CombPositive(n: nat, k: nat)
    requires k <= n
    ensures Comb(n, k) > 0
  {
    if k > 0 {
      CombPositive(n - 1, k - 1);
    }
  }

  lemma TermSign(n: nat, k: nat, p: real)
    requires 0.0 < p < 1.0
    ensures Term(n, k, p) >= 0.0 && (k <= n ==> Term(n, k, p) > 0.0)
  {
    if k <= n {
      CombPositive(n, k);
      PowPositive(p, k);
      PowPositive(1.0 - p, n - k);
      TermPositive(Comb(n, k), Pow(p, k), Pow(1.0 - p, n - k));
    }
  }

  lemma TermPositive(c: nat, a: real, b: real)
    requires c > 0 && a > 0.0 && b > 0.0
    ensures Product(c, a, b) > 0.0
  {
    var x := c as real * a;
    assert x > 0.0;
  }

  /** More required hits make the tail strictly smaller, down to nothing beyond the sample size. */
  lemma {:induction false} TailFallsWithHits(s: nat, t: nat, n: nat, p: real)
    requires 0.0 < p < 1.0 && s <= t
    ensures 0.0 <= UpperTail(t, n, p) <= UpperTail(s, n, p) <= 1.0
    ensures s < t && s <= n ==> UpperTail(t, n, p) < UpperTail(s, n, p)
    ensures UpperTail(t, n, p) == 0.0 <==> t > n
    decreases t
  {
    if s < t {
      TailFallsWithHits(s, t - 1, n, p);
      TermSign(n, t - 1, p);
      TailNonNegative(t, n, p);
    } else if s == 0 {
      TailFromZero(n, p);
    } else {
      TailFallsWithHits(s - 1, s - 1, n, p);
      TermSign(n, s - 1, p);
      TailNonNegative(s, n, p);
    }
  }

  lemma {:induction false} TailNonNegative(s: nat, n: nat, p: real)
    requires 0.0 < p < 1.0
    ensures UpperTail(s, n, p) >= 0.0
    ensures UpperTail(s, n, p) == 0.0 <==> s > n
    decreases n + 1 - s
  {
    if s <= n {
      TailNonNegative(s + 1, n, p);
      TermSign(n, s, p);
    }
  }

  /** A higher chance of hitting never makes the tail smaller. */
  lemma {:induction false} TailRisesWithChance(s: nat, n: nat, p: real, p': real)
    requires 0.0 < p <= p' < 1.0
    ensures UpperTail(s, n, p) <= UpperTail(s, n, p')
    decreases n
  {
    if s == 0 {
      TailFromZero(n, p);
      TailFromZero(n, p');
    } else if s <= n {
      hide Term;
      TailStep(s - 1, n - 1, p);
      TailStep(s - 1, n - 1, p');
      TailRisesWithChance(s - 1, n - 1, p, p');
      TailRisesWithChance(s, n - 1, p, p');
      TailFallsWithHits(s - 1, s, n - 1, p');
      Mixture(p, p', UpperTail(s - 1, n - 1, p), UpperTail(s, n - 1, p), UpperTail(s - 1, n - 1, p'),
              UpperTail(s, n - 1, p'));
    }
  }

  lemma Mixture(p: real, p': real, a: real, b: real, a': real, b': real)
    requires 0.0 < p <= p' < 1.0 && a <= a' && b <= b' <= a'
    ensures Times(p, a) + Times(1.0 - p, b) <= Times(p', a') + Times(1.0 - p', b')
  {
    MixtureIdentity(p, p' - p, a, b, a' - a, b' - b, a' - b', a', b', p');
  }

  lemma MixtureIdentity(p: real, d: real, a: real, b: real, e: real, f: real, g: real, a': real, b': real, p': real)
    requires 0.0 < p && d >= 0.0 && p' == p + d <= 1.0 && e >= 0.0 && f >= 0.0 && g >= 0.0
    requires a' == a + e && b' == b + f && a' == b' + g
    ensures p * a + (1.0 - p) * b <= p' * a' + (1.0 - p') * b'
  {
    var q := 1.0 - p;
    assert p * a' + q * b' == p * a + q * b + p * e + q * f;
    assert p * e >= 0.0 && q * f >= 0.0 && d * g >= 0.0;
    assert p' * a' + (1.0 - p') * b' == p * a' + q * b' + d * g;
  }
}
