/**
 * What the answers of the dividend universe say: which observations give each reason, and what
 * every published figure is an average of, in whatever order the observations came.
 */
module DividendReasons {
  import opened Collections
  import opened Common
  import opened Sums
  import opened Dividends
  import opened DividendTheorems
  import HashChain
  import Metrics
  import Sorting

  // ---------------------------------------------------------------- the refusals

  /** The three refusals, in their order. */
  lemma RefusedExactlyWhen(companies: seq<Company>, decision: Timestamp)
    ensures var refused := Refused(companies, decision);
            var unnamed := exists i | 0 <= i < |companies| :: companies[i].symbol == "";
            var repeated := exists i, j | 0 <= i < j < |companies| :: companies[i].symbol == companies[j].symbol;
            && (refused == Some(EmptyUniverse) <==> companies == [])
            && (refused == Some(SymbolsInvalid) <==> unnamed || repeated)
            && (refused == Some(DecisionTimeNotAware) <==>
                  companies != [] && !unnamed && !repeated && decision.Naive?)
  {
    var symbols := Symbols(companies);
    assert forall i | 0 <= i < |companies| :: symbols[i] == companies[i].symbol;
    if i :| 0 <= i < |companies| && companies[i].symbol == "" {
      assert symbols[i] in symbols;
    }
    if "" in symbols {
      var i :| 0 <= i < |symbols| && symbols[i] == "";
      assert companies[i].symbol == "";
    }
    if !Distinct(symbols) {
      var i, j :| 0 <= i < j < |symbols| && symbols[i] == symbols[j];
      assert companies[i].symbol == companies[j].symbol;
    }
    if i, j :| 0 <= i < j < |companies| && companies[i].symbol == companies[j].symbol {
      assert symbols[i] == symbols[j];
    }
  }

  // ---------------------------------------------------------------- the reasons

  /** The fiscal years are those from the first on, each once. */
  ghost predicate YearsRunFrom(observations: seq<Observation>, first: int) {
    && (forall i, j | 0 <= i < j < |observations| :: observations[i].year != observations[j].year)
    && (forall o | o in observations :: first <= o.year < first + |observations|)
  }

  ghost predicate YearsRun(observations: seq<Observation>) {
    exists first :: YearsRunFrom(observations, first)
  }

  lemma YearsAreDistinct(observations: seq<Observation>)
    ensures Distinct(YearsOf(observations))
       <==> forall i, j | 0 <= i < j < |observations| :: observations[i].year != observations[j].year
  {
    var years := YearsOf(observations);
    assert forall i | 0 <= i < |years| :: years[i] == Year(observations[i]);
    if !Distinct(years) {
      var i, j :| 0 <= i < j < |years| && years[i] == years[j];
      assert observations[i].year == observations[j].year;
    }
    if i, j :| 0 <= i < j < |observations| && observations[i].year == observations[j].year {
      assert years[i] == years[j];
    }
  }

  lemma ConsecutiveMeansRun(observations: seq<Observation>)
    ensures var years := Sorting.Sort(IntLe, YearsOf(observations));
            && (Consecutive(years) <==> YearsRun(observations))
            && (Distinct(years) <==> Distinct(YearsOf(observations)))
  {
    hide YearsOf;
    var years, n := Sorting.Sort(IntLe, YearsOf(observations)), |observations|;
    YearsAre(observations);
    YearsAreDistinct(observations);
    if Distinct(years) {
      Sorting.DistinctPermutes(years, YearsOf(observations));
    }
    if Distinct(YearsOf(observations)) {
      Sorting.DistinctPermutes(YearsOf(observations), years);
    }
    if Consecutive(years) {
      assert forall i, j | 0 <= i < j < n :: years[i] != years[j];
      assert YearsRunFrom(observations, if n == 0 then 0 else years[0]);
    }
    if first :| YearsRunFrom(observations, first) {
      assert forall k | 0 <= k < n :: years[k] in years;
      WithoutGaps(years, first);
    }
  }

  lemma WithoutGaps(years: seq<int>, first: int)
    requires Distinct(years) && Sorting.SortedBy(IntLe, years)
    requires forall k | 0 <= k < |years| :: first <= years[k] < first + |years|
    ensures forall k | 0 <= k < |years| :: years[k] == first + k
  {
    forall k | 0 <= k < |years|
      ensures years[k] == first + k
    {
      AtLeastOneApart(years, 0, k);
      AtLeastOneApart(years, k, |years| - 1);
    }
  }

  /** What of a history gives the reason. The reasons of the policy are given only to histories without these. */
  ghost predicate HistoryGives(os: seq<Observation>, decision: int, reason: Reason) {
    match reason
    case TenYearHistoryRequired => |os| != 10
    case YearsNotConsecutive => !YearsRun(os)
    case DuplicateYear => exists i, j | 0 <= i < j < |os| :: os[i].year == os[j].year
    case TimestampNotAware => exists o | o in os :: o.availableAt.Naive?
    case Lookahead =>
      (forall o | o in os :: o.availableAt.Aware?) && exists o | o in os :: decision < o.availableAt.instant
    case SourceHashInvalid => exists o | o in os :: !HashChain.IsHash(o.source)
    case InputInvalid =>
      exists o | o in os :: o.dividends < 0.0 || o.price <= 0.0 || o.cap <= 0.0 || o.buybacks < 0.0 || o.issuance < 0.0
    case CoverageUnavailable => exists o | o in os :: o.earnings <= 0.0
    case _ => false
  }

  lemma HistoryReasonsAre(os: seq<Observation>, decision: int)
    ensures forall reason :: reason in HistoryReasons(os, decision) <==> HistoryGives(os, decision, reason)
  {
    hide HistoryGives;
    forall reason
      ensures reason in HistoryReasons(os, decision) <==> HistoryGives(os, decision, reason)
    {
      HistoryReasonsOf(os, decision, reason);
      Given(os, decision, reason);
    }
  }

  /** What the reason is added for. */
  predicate AddedFor(os: seq<Observation>, decision: int, reason: Reason) {
    match reason
    case TenYearHistoryRequired => |os| != 10
    case YearsNotConsecutive => !Consecutive(Sorting.Sort(IntLe, YearsOf(os)))
    case DuplicateYear => !Distinct(Sorting.Sort(IntLe, YearsOf(os)))
    case TimestampNotAware => SomeNaive(os)
    case Lookahead => !SomeNaive(os) && SomeLater(os, decision)
    case SourceHashInvalid => SomeBadSource(os)
    case InputInvalid => SomeBadInput(os)
    case CoverageUnavailable => SomeWithoutEarnings(os)
    case _ => false
  }

  lemma HistoryReasonsOf(os: seq<Observation>, decision: int, reason: Reason)
    ensures reason in HistoryReasons(os, decision) <==> AddedFor(os, decision, reason)
  {
    hide Consecutive, Distinct, SomeNaive, SomeLater, SomeBadSource, SomeBadInput, SomeWithoutEarnings, YearsOf;
    hide Sorting.Sort;
  }

  lemma Given(os: seq<Observation>, decision: int, reason: Reason)
    ensures AddedFor(os, decision, reason) <==> HistoryGives(os, decision, reason)
  {
    hide Consecutive, YearsRun, HashChain.IsHash, Distinct, Sorting.Sort, YearsOf;
    ConsecutiveMeansRun(os);
    YearsAreDistinct(os);
  }

  // ---------------------------------------------------------------- the figures

  function Over(a: real, b: real): real {
    if b == 0.0 then 0.0 else a / b
  }

  function DividendOverPrice(o: Observation): real {
    Over(o.dividends, o.price)
  }

  function DividendOverEarnings(o: Observation): real {
    Over(o.dividends, o.earnings)
  }

  function NetOverPriceAndCap(o: Observation): real {
    Over(o.dividends, o.price) + Over(o.buybacks - o.issuance, o.cap)
  }

  function TenYearAverage(f: Observation -> real, os: seq<Observation>): real {
    Sum(Sorting.Map(f, os)) / 10.0
  }

  /** The years that pay less than the year before. */
  function Falls(os: seq<Observation>): set<(Observation, Observation)> {
    set a, b | a in os && b in os && b.year == a.year + 1 && b.dividends < a.dividends :: (a, b)
  }

  lemma {:induction false} CutsAreFalls(ordered: seq<Observation>, first: int)
    requires forall k | 0 <= k < |ordered| :: ordered[k].year == first + k
    ensures Cuts(ordered) == |Falls(ordered)|
  {
    if |ordered| < 2 {
      assert Falls(ordered) == {};
    } else {
      var n := |ordered| - 1;
      CutsAreFalls(ordered[..n], first);
      LastFall(ordered, first);
    }
  }

  /** The last year adds its own fall. */
  lemma LastFall(ordered: seq<Observation>, first: int)
    requires |ordered| >= 2 && forall k | 0 <= k < |ordered| :: ordered[k].year == first + k
    ensures var n := |ordered| - 1;
            |Falls(ordered)|
            == |Falls(ordered[..n])| + if ordered[n].dividends < ordered[n - 1].dividends then 1 else 0
  {
    hide Falls;
    var n := |ordered| - 1;
    var before, last, previous := ordered[..n], ordered[n], ordered[n - 1];
    var one := if last.dividends < previous.dividends then {(previous, last)} else {};
    forall p: (Observation, Observation)
      ensures p in Falls(ordered) <==> p in Falls(before) + one
    {
      FallsOf(ordered, first, p.0, p.1);
      FallsOf(before, first, p.0, p.1);
    }
    assert Falls(ordered) == Falls(before) + one;
    FallsOf(before, first, previous, last);
  }

  predicate FallAt(ordered: seq<Observation>, k: nat, a: Observation, b: Observation) {
    k + 1 < |ordered| && ordered[k] == a && ordered[k + 1] == b && b.dividends < a.dividends
  }

  lemma FallsOf(ordered: seq<Observation>, first: int, a: Observation, b: Observation)
    requires forall k | 0 <= k < |ordered| :: ordered[k].year == first + k
    ensures (a, b) in Falls(ordered) <==> a.year >= first && FallAt(ordered, a.year - first, a, b)
  {
    if a in ordered && b in ordered {
      var i :| 0 <= i < |ordered| && ordered[i] == a;
      var j :| 0 <= j < |ordered| && ordered[j] == b;
    }
  }

  lemma SameAverages(os: seq<Observation>, decision: int)
    requires HistoryReasons(os, decision) == {}
    ensures AllComputable(ByYear(os))
    ensures var f := FiguresOf(ByYear(os));
            && f.dividendYield == TenYearAverage(DividendOverPrice, os)
            && f.payout == TenYearAverage(DividendOverEarnings, os)
            && f.netYield == TenYearAverage(NetOverPriceAndCap, os)
  {
    hide HistoryReasons, Yields, Payouts, NetYields, Sum;
    AdmissibleIsComputable(os, decision);
    Sorting.SortPermutes(YearLe, os);
    var ordered := ByYear(os);
    RatiosAre(ordered);
    SumOfSame(DividendOverPrice, os, ordered);
    SumOfSame(DividendOverEarnings, os, ordered);
    SumOfSame(NetOverPriceAndCap, os, ordered);
  }

  lemma RatiosAre(ordered: seq<Observation>)
    requires AllComputable(ordered)
    ensures Yields(ordered) == Sorting.Map(DividendOverPrice, ordered)
    ensures Payouts(ordered) == Sorting.Map(DividendOverEarnings, ordered)
    ensures NetYields(ordered) == Sorting.Map(NetOverPriceAndCap, ordered)
  {
  }

  lemma SumOfSame(f: Observation -> real, os: seq<Observation>, ordered: seq<Observation>)
    requires multiset(os) == multiset(ordered)
    ensures Sum(Sorting.Map(f, os)) == Sum(Sorting.Map(f, ordered))
  {
    Sorting.MapPermutes(f, os, ordered);
    Metrics.OrderDoesNotMatter(Sorting.Map(f, os), Sorting.Map(f, ordered));
  }

  lemma CutsOfAHistory(os: seq<Observation>, decision: int)
    requires HistoryReasons(os, decision) == {}
    ensures Cuts(ByYear(os)) == |Falls(os)|
  {
    hide HistoryReasons, Cuts, Falls;
    YearsStrictlyRise(os, decision);
    ByYearHolds(os);
    HistoryReasonsAre(os, decision);
    assert !HistoryGives(os, decision, YearsNotConsecutive);
    assert !HistoryGives(os, decision, TenYearHistoryRequired);
    var ordered := ByYear(os);
    Sorting.SortPermutes(YearLe, os);
    var first :| YearsRunFrom(os, first);
    forall k | 0 <= k < |ordered|
      ensures ordered[k].year == first + k
    {
      RisesByOne(ordered, 0, k);
      RisesByOne(ordered, k, |ordered| - 1);
      assert ordered[0] in os && ordered[|ordered| - 1] in os;
    }
    CutsAreFalls(ordered, first);
    SameFalls(ordered, os);
  }

  lemma SameFalls(ordered: seq<Observation>, os: seq<Observation>)
    requires forall o :: o in ordered <==> o in os
    ensures Falls(ordered) == Falls(os)
  {
  }

  lemma {:induction false} RisesByOne(ordered: seq<Observation>, i: nat, j: nat)
    requires i <= j < |ordered| && forall k, m | 0 <= k < m < |ordered| :: ordered[k].year < ordered[m].year
    ensures ordered[j].year >= ordered[i].year + j - i
    decreases j
  {
    if i < j {
      RisesByOne(ordered, i, j - 1);
    }
  }

  /** The published figures are averages over all ten observations, and the number of falls. */
  ghost predicate ShowsAverages(f: Figures, os: seq<Observation>) {
    && f.dividendYield == TenYearAverage(DividendOverPrice, os)
    && f.payout == TenYearAverage(DividendOverEarnings, os)
    && f.netYield == TenYearAverage(NetOverPriceAndCap, os)
    && f.cuts == |Falls(os)|
  }

  /**
   * One history: refused for a naive decision time, otherwise the reasons it gives, and figures
   * exactly without any.
   */
  lemma HistoryAnswers(os: seq<Observation>, decision: Timestamp)
    ensures var r := EvaluateHistory(os, decision);
            && (r.Err? <==> decision.Naive?)
            && (r.Ok? ==>
                  && (forall reason :: reason in r.value.reasons <==> HistoryGives(os, decision.instant, reason))
                  && (r.value.figures.Some? <==> r.value.reasons == {})
                  && (r.value.figures.Some? ==>
                        ShowsAverages(r.value.figures.value, os) && r.value.cuts == r.value.figures.value.cuts))
  {
    hide HistoryReasons, FiguresOf, Cuts, ByYear, HistoryGives;
    HistoryReasonsAre(os, decision.instant);
    if HistoryReasons(os, decision.instant) == {} {
      SameAverages(os, decision.instant);
      CutsOfAHistory(os, decision.instant);
      FiguresHoldCuts(os, decision.instant);
    }
  }

  lemma FiguresHoldCuts(os: seq<Observation>, decision: int)
    requires HistoryReasons(os, decision) == {} && AllComputable(ByYear(os))
    ensures FiguresOf(ByYear(os)).cuts == Cuts(ByYear(os))
  {
  }

  // ---------------------------------------------------------------- the universe

  /** What of an admissible history misses the policy. */
  predicate PolicyGives(os: seq<Observation>, p: Policy, reason: Reason) {
    match reason
    case NonpositivePayout => TenYearAverage(DividendOverEarnings, os) <= 0.0
    case PayoutAbovePolicy => TenYearAverage(DividendOverEarnings, os) > p.maximumPayout
    case CutsAbovePolicy => |Falls(os)| > p.maximumCuts
    case NetYieldBelowPolicy => TenYearAverage(NetOverPriceAndCap, os) < p.minimumNetYield
    case _ => false
  }

  ghost predicate IsAdmissible(os: seq<Observation>, decision: int) {
    forall reason :: !HistoryGives(os, decision, reason)
  }

  /** Everything that keeps a company out: what its history gives, or if nothing, what misses the policy. */
  ghost predicate KeepsOut(c: Company, decision: int, p: Policy, reason: Reason) {
    || HistoryGives(c.observations, decision, reason)
    || (IsAdmissible(c.observations, decision) && PolicyGives(c.observations, p, reason))
  }

  lemma ScreenIs(c: Company, decision: int, p: Policy)
    ensures forall reason :: reason in Screen(c, decision, p) <==> KeepsOut(c, decision, p, reason)
  {
    hide HistoryGives, EvaluateHistory, TenYearAverage, Falls;
    HistoryAnswers(c.observations, Aware(decision));
    var result := EvaluateHistory(c.observations, Aware(decision)).value;
    if result.figures.Some? {
      PolicyReasonsAre(result.figures.value, c.observations, p);
    }
  }

  lemma PolicyReasonsAre(f: Figures, os: seq<Observation>, p: Policy)
    requires ShowsAverages(f, os)
    ensures forall reason :: reason in PolicyReasons(f, p) <==> PolicyGives(os, p, reason)
  {
    hide TenYearAverage, Falls;
  }

  /** The evaluation lists the symbol among its rejections, with that reason. */
  ghost predicate Gives(e: Evaluation, symbol: string, reason: Reason) {
    exists k | 0 <= k < |e.rejected| :: e.rejected[k].0 == symbol && reason in e.rejected[k].1
  }

  /** A company of the universe is given a reason exactly when that keeps it out. */
  lemma ReasonIsGivenExactlyWhen(companies: seq<Company>, decision: int, p: Policy, c: Company, reason: Reason)
    requires Distinct(Symbols(companies)) && c in companies
    ensures Gives(Universe(companies, decision, p), c.symbol, reason) <==> KeepsOut(c, decision, p, reason)
  {
    hide Screen, Universe, KeepsOut;
    var e := Universe(companies, decision, p);
    UniverseIsAPartition(companies, decision, p);
    ScreenIs(c, decision, p);
    assert GoesOneWay(e, c, decision, p);
    forall k | 0 <= k < |e.rejected| && e.rejected[k].0 == c.symbol
      ensures e.rejected[k].1 == Screen(c, decision, p)
    {
      assert RejectionFrom(companies, e.rejected[k], decision, p);
      var d :| d in companies && IsRejection(d, e.rejected[k], decision, p);
      SameSymbolSameCompany(companies, c, d);
    }
  }

  /** A candidate shows the averages of a company that nothing keeps out, and their quotient, by which it is ranked. */
  lemma CandidateShowsAverages(companies: seq<Company>, decision: int, p: Policy, k: nat) returns (c: Company)
    requires Distinct(Symbols(companies)) && k < |Universe(companies, decision, p).candidates|
    ensures c in companies && forall reason :: !KeepsOut(c, decision, p, reason)
    ensures var candidate := Universe(companies, decision, p).candidates[k];
            && candidate.rank == k + 1 && candidate.entry.symbol == c.symbol
            && ShowsAverages(candidate.entry.figures, c.observations)
            && candidate.yieldPerPayout * candidate.entry.figures.payout == candidate.entry.figures.dividendYield
  {
    hide Universe, KeepsOut, Screen, ShowsAverages, Efficiency, EvaluateHistory;
    var e := Universe(companies, decision, p);
    UniverseIsAPartition(companies, decision, p);
    CandidatesMeetThePolicy(companies, decision, p, k);
    RanksFollowScores(companies, decision, p);
    assert EntryFrom(companies, e.candidates[k].entry, decision, p);
    c :| c in companies && IsEntry(c, e.candidates[k].entry, decision, p);
    ScreenIs(c, decision, p);
    EntryShows(c, decision, p);
    EfficiencyIs(e.candidates[k].entry.figures);
  }

  lemma EntryShows(c: Company, decision: int, p: Policy)
    requires Screen(c, decision, p) == {}
    ensures ShowsAverages(EntryOf(c, decision, p).figures, c.observations)
  {
    hide EvaluateHistory, ShowsAverages, PolicyReasons;
    HistoryAnswers(c.observations, Aware(decision));
  }

  lemma EfficiencyIs(f: Figures)
    requires f.payout > 0.0
    ensures Efficiency(f) * f.payout == f.dividendYield
  {
  }

  predicate SymbolsAscend(rs: Rejections) {
    forall i, j | 0 <= i < j < |rs| :: Sorting.StringLe(rs[i].0, rs[j].0)
  }

  /** The rejections are listed by symbol. */
  lemma RejectionsFollowSymbols(companies: seq<Company>, decision: int, p: Policy)
    ensures SymbolsAscend(Universe(companies, decision, p).rejected)
  {
    CompanyOrder();
    Sorting.SortSorts(CompanyLe, companies);
    RejectedAscend(Sorting.Sort(CompanyLe, companies), decision, p);
  }

  predicate Below(rs: Rejections, c: Company) {
    forall i | 0 <= i < |rs| :: Sorting.StringLe(rs[i].0, c.symbol)
  }

  lemma {:induction false} RejectedAscend(cs: seq<Company>, decision: int, p: Policy)
    requires Sorting.SortedBy(CompanyLe, cs)
    ensures SymbolsAscend(Rejected(cs, decision, p))
  {
    hide Screen, Sorting.StringLe;
    if cs != [] {
      var before, last := cs[..|cs| - 1], cs[|cs| - 1];
      RejectedAscend(before, decision, p);
      RejectedBelow(before, last, decision, p);
    }
  }

  lemma {:induction false} RejectedBelow(cs: seq<Company>, c: Company, decision: int, p: Policy)
    requires forall k | 0 <= k < |cs| :: CompanyLe(cs[k], c)
    ensures Below(Rejected(cs, decision, p), c)
  {
    hide Screen, Sorting.StringLe;
    if cs != [] {
      RejectedBelow(cs[..|cs| - 1], c, decision, p);
    }
  }
}
