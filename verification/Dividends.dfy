/**
 * Ten-year dividend research: each history is screened and averaged, and the universe is split
 * into ranked candidates and rejections. Amounts are exact reals.
 */
module Dividends {
  import opened Collections
  import opened Common
  import opened Sums
  import HashChain
  import Sorting

  datatype Observation = Observation(
    year: int, dividends: real, earnings: real, price: real, buybacks: real, issuance: real, cap: real,
    availableAt: Timestamp, source: string)

  datatype Company = Company(symbol: string, observations: seq<Observation>)

  datatype Policy = Policy(maximumPayout: real, maximumCuts: int, minimumNetYield: real)

  datatype Reason =
    | TenYearHistoryRequired | YearsNotConsecutive | DuplicateYear | TimestampNotAware | Lookahead
    | SourceHashInvalid | InputInvalid | CoverageUnavailable
    | NonpositivePayout | PayoutAbovePolicy | CutsAbovePolicy | NetYieldBelowPolicy

  // ---------------------------------------------------------------- one history

  predicate IntLe(a: int, b: int) {
    a <= b
  }

  predicate YearLe(a: Observation, b: Observation) {
    a.year <= b.year
  }

  function Year(o: Observation): int {
    o.year
  }

  function YearsOf(observations: seq<Observation>): (years: seq<int>)
    ensures |years| == |observations|
  {
    Sorting.Map(Year, observations)
  }

  function ByYear(observations: seq<Observation>): seq<Observation> {
    Sorting.Sort(YearLe, observations)
  }

  predicate Consecutive(years: seq<int>) {
    forall k | 0 <= k < |years| :: years[k] == years[0] + k
  }

  predicate BadInput(o: Observation) {
    o.dividends < 0.0 || o.price <= 0.0 || o.cap <= 0.0 || o.buybacks < 0.0 || o.issuance < 0.0
  }

  predicate SomeNaive(observations: seq<Observation>) {
    exists o | o in observations :: o.availableAt.Naive?
  }

  predicate SomeLater(observations: seq<Observation>, decision: int) {
    exists o | o in observations :: o.availableAt.instant > decision
  }

  predicate SomeBadSource(observations: seq<Observation>) {
    exists o | o in observations :: !HashChain.IsHash(o.source)
  }

  predicate SomeBadInput(observations: seq<Observation>) {
    exists o | o in observations :: BadInput(o)
  }

  predicate SomeWithoutEarnings(observations: seq<Observation>) {
    exists o | o in observations :: o.earnings <= 0.0
  }

  /** `decision` is the instant of an aware decision time. */
  function HistoryReasons(observations: seq<Observation>, decision: int): set<Reason> {
    var years := Sorting.Sort(IntLe, YearsOf(observations));
    When(|observations| != 10, TenYearHistoryRequired)
    + When(!Consecutive(years), YearsNotConsecutive)
    + When(!Distinct(years), DuplicateYear)
    + When(SomeNaive(observations), TimestampNotAware)
    + When(!SomeNaive(observations) && SomeLater(observations, decision), Lookahead)
    + When(SomeBadSource(observations), SourceHashInvalid)
    + When(SomeBadInput(observations), InputInvalid)
    + When(SomeWithoutEarnings(observations), CoverageUnavailable)
  }

  function Cuts(ordered: seq<Observation>): nat {
    if |ordered| < 2 then 0
    else Cuts(ordered[..|ordered| - 1])
         + if ordered[|ordered| - 1].dividends < ordered[|ordered| - 2].dividends then 1 else 0
  }

  datatype Figures = Figures(dividendYield: real, payout: real, netYield: real, cuts: nat)

  predicate Computable(o: Observation) {
    o.price > 0.0 && o.earnings > 0.0 && o.cap > 0.0
  }

  predicate AllComputable(observations: seq<Observation>) {
    observations != [] && forall k | 0 <= k < |observations| :: Computable(observations[k])
  }

  function Yields(os: seq<Observation>): seq<real>
    requires AllComputable(os)
  {
    seq(|os|, k requires 0 <= k < |os| => os[k].dividends / os[k].price)
  }

  function Payouts(os: seq<Observation>): seq<real>
    requires AllComputable(os)
  {
    seq(|os|, k requires 0 <= k < |os| => os[k].dividends / os[k].earnings)
  }

  function NetYields(os: seq<Observation>): seq<real>
    requires AllComputable(os)
  {
    seq(|os|, k requires 0 <= k < |os| => os[k].dividends / os[k].price + (os[k].buybacks - os[k].issuance) / os[k].cap)
  }

  function FiguresOf(ordered: seq<Observation>): Figures
    requires AllComputable(ordered)
  {
    var n := |ordered| as real;
    Figures(Sum(Yields(ordered)) / n, Sum(Payouts(ordered)) / n, Sum(NetYields(ordered)) / n, Cuts(ordered))
  }

  lemma AdmissibleIsComputable(observations: seq<Observation>, decision: int)
    requires HistoryReasons(observations, decision) == {}
    ensures |observations| == 10 && AllComputable(ByYear(observations))
            && Distinct(Sorting.Sort(IntLe, YearsOf(observations)))
  {
    Sorting.SortPermutes(YearLe, observations);
    NoReason(observations, decision);
    forall k | 0 <= k < |ByYear(observations)|
      ensures Computable(ByYear(observations)[k])
    {
      assert ByYear(observations)[k] in observations;
    }
  }

  lemma NoReason(observations: seq<Observation>, decision: int)
    requires HistoryReasons(observations, decision) == {}
    ensures |observations| == 10
    ensures Distinct(Sorting.Sort(IntLe, YearsOf(observations)))
    ensures forall o | o in observations :: !BadInput(o) && o.earnings > 0.0
  {
    var all := HistoryReasons(observations, decision);
    assert TenYearHistoryRequired !in all && DuplicateYear !in all && InputInvalid !in all
           && CoverageUnavailable !in all;
  }

  datatype DividendError = DecisionTimeNotAware | EmptyUniverse | SymbolsInvalid

  datatype HistoryResult = HistoryResult(reasons: set<Reason>, figures: Option<Figures>, cuts: nat)

  function EvaluateHistory(observations: seq<Observation>, decision: Timestamp): Result<HistoryResult, DividendError> {
    if decision.Naive? then Err(DecisionTimeNotAware)
    else
      var reasons := HistoryReasons(observations, decision.instant);
      if reasons == {} then
        AdmissibleIsComputable(observations, decision.instant);
        Ok(HistoryResult({}, Some(FiguresOf(ByYear(observations))), Cuts(ByYear(observations))))
      else Ok(HistoryResult(reasons, None, Cuts(ByYear(observations))))
  }

  // ---------------------------------------------------------------- the universe

  function PolicyReasons(f: Figures, p: Policy): set<Reason> {
    When(f.payout <= 0.0, NonpositivePayout)
    + When(f.payout > p.maximumPayout, PayoutAbovePolicy)
    + When(f.cuts > p.maximumCuts, CutsAbovePolicy)
    + When(f.netYield < p.minimumNetYield, NetYieldBelowPolicy)
  }

  /** Everything that keeps a company out. */
  function Screen(c: Company, decision: int, p: Policy): set<Reason> {
    var result := EvaluateHistory(c.observations, Aware(decision)).value;
    result.reasons + if result.figures.Some? then PolicyReasons(result.figures.value, p) else {}
  }

  datatype Entry = Entry(symbol: string, figures: Figures)

  function Efficiency(f: Figures): real {
    if f.payout == 0.0 then 0.0 else f.dividendYield / f.payout
  }

  /** The better entry first: efficiency, then net yield, then symbol. */
  predicate EntryLe(a: Entry, b: Entry) {
    var x, y := Efficiency(a.figures), Efficiency(b.figures);
    x > y || (x == y && (a.figures.netYield > b.figures.netYield
                         || (a.figures.netYield == b.figures.netYield && Sorting.StringLe(a.symbol, b.symbol))))
  }

  predicate CompanyLe(a: Company, b: Company) {
    Sorting.StringLe(a.symbol, b.symbol)
  }

  type Rejections = seq<(string, set<Reason>)>

  function EntryOf(c: Company, decision: int, p: Policy): (e: Entry)
    requires Screen(c, decision, p) == {}
    ensures e.symbol == c.symbol
  {
    Entry(c.symbol, EvaluateHistory(c.observations, Aware(decision)).value.figures.value)
  }

  function Admitted(companies: seq<Company>, decision: int, p: Policy): seq<Entry> {
    if companies == [] then []
    else
      var c := companies[|companies| - 1];
      Admitted(companies[..|companies| - 1], decision, p)
      + if Screen(c, decision, p) == {} then [EntryOf(c, decision, p)] else []
  }

  function Rejected(companies: seq<Company>, decision: int, p: Policy): Rejections {
    if companies == [] then []
    else
      var c := companies[|companies| - 1];
      Rejected(companies[..|companies| - 1], decision, p)
      + if Screen(c, decision, p) == {} then [] else [(c.symbol, Screen(c, decision, p))]
  }

  datatype Candidate = Candidate(rank: nat, entry: Entry, yieldPerPayout: real)

  function Ranked(entries: seq<Entry>): (r: seq<Candidate>)
    ensures |r| == |entries|
    ensures forall k | 0 <= k < |r| :: r[k] == Candidate(k + 1, entries[k], Efficiency(entries[k].figures))
  {
    seq(|entries|, k requires 0 <= k < |entries| => Candidate(k + 1, entries[k], Efficiency(entries[k].figures)))
  }

  datatype Evaluation = Evaluation(candidates: seq<Candidate>, rejected: Rejections)

  function Symbols(companies: seq<Company>): (r: seq<string>)
    ensures |r| == |companies|
  {
    seq(|companies|, k requires 0 <= k < |companies| => companies[k].symbol)
  }

  predicate GoodSymbols(companies: seq<Company>) {
    Distinct(Symbols(companies)) && "" !in Symbols(companies)
  }

  function Refused(companies: seq<Company>, decision: Timestamp): Option<DividendError> {
    if companies == [] then Some(EmptyUniverse)
    else if !GoodSymbols(companies) then Some(SymbolsInvalid)
    else if decision.Naive? then Some(DecisionTimeNotAware)
    else None
  }

  function Universe(companies: seq<Company>, decision: int, p: Policy): Evaluation {
    var ordered := Sorting.Sort(CompanyLe, companies);
    Evaluation(Ranked(Sorting.Sort(EntryLe, Admitted(ordered, decision, p))), Rejected(ordered, decision, p))
  }

  /** The loop over the companies in symbol order: one history at a time, kept or turned away. */
  method SplitCompanies(ordered: seq<Company>, decision: int, p: Policy)
    returns (admitted: seq<Entry>, rejected: Rejections)
    ensures admitted == Admitted(ordered, decision, p) && rejected == Rejected(ordered, decision, p)
  {
    hide HistoryReasons, PolicyReasons, ByYear, FiguresOf;
    admitted, rejected := [], [];
    for k := 0 to |ordered|
      invariant admitted == Admitted(ordered[..k], decision, p)
      invariant rejected == Rejected(ordered[..k], decision, p)
    {
      var company := ordered[k];
      assert ordered[..k + 1][..k] == ordered[..k] && ordered[..k + 1][k] == company;
      var result := EvaluateHistory(company.observations, Aware(decision)).value;
      var reasons := result.reasons;
      if result.figures.Some? {
        reasons := reasons + PolicyReasons(result.figures.value, p);
      }
      assert reasons == Screen(company, decision, p);
      if reasons != {} {
        rejected := rejected + [(company.symbol, reasons)];
      } else {
        admitted := admitted + [Entry(company.symbol, result.figures.value)];
      }
    }
    assert ordered[..|ordered|] == ordered;
  }

  method EvaluateUniverse(companies: seq<Company>, decision: Timestamp, p: Policy)
    returns (r: Result<Evaluation, DividendError>)
    ensures var refused := Refused(companies, decision);
            r == if refused.Some? then Err(refused.value) else Ok(Universe(companies, decision.instant, p))
  {
    if companies == [] {
      return Err(EmptyUniverse);
    }
    if !GoodSymbols(companies) {
      return Err(SymbolsInvalid);
    }
    if decision.Naive? {
      return Err(DecisionTimeNotAware);
    }
    var admitted, rejected := SplitCompanies(Sorting.Sort(CompanyLe, companies), decision.instant, p);
    return Ok(Evaluation(Ranked(Sorting.Sort(EntryLe, admitted)), rejected));
  }
}
