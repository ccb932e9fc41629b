/** What the dividend universe promises: nobody lost, ranks in score order, and no trace of the input order. */
module DividendTheorems {
  import opened Collections
  import opened Common
  import opened Sums
  import opened Dividends
  import HashChain
  import Sorting

  // ---------------------------------------------------------------- the orders

  lemma CompanyOrder()
    ensures Sorting.IsOrder(CompanyLe)
  {
    Sorting.StringOrder();
  }

  lemma EntryOrder()
    ensures Sorting.IsOrder(EntryLe)
  {
    hide Sorting.StringLe, Efficiency;
    Sorting.StringOrder();
    forall a, b
      ensures EntryLe(a, b) || EntryLe(b, a)
    {
    }
    forall a, b, c | EntryLe(a, b) && EntryLe(b, c)
      ensures EntryLe(a, c)
    {
    }
  }

  lemma NoTiedCompanies(companies: seq<Company>)
    requires Distinct(Symbols(companies))
    ensures Sorting.NoTies(CompanyLe, companies)
  {
    Sorting.StringOrder();
    forall x, y | x in companies && y in companies && CompanyLe(x, y) && CompanyLe(y, x)
      ensures x == y
    {
      Sorting.StringLeTotal(x.symbol, y.symbol);
      var i :| 0 <= i < |companies| && companies[i] == x;
      var j :| 0 <= j < |companies| && companies[j] == y;
      assert Symbols(companies)[i] == Symbols(companies)[j];
    }
  }

  // ---------------------------------------------------------------- input order

  /** Listing the companies in another order changes nothing. */
  lemma OrderOfCompaniesIsIrrelevant(xs: seq<Company>, ys: seq<Company>, decision: int, p: Policy)
    requires multiset(xs) == multiset(ys) && Distinct(Symbols(xs))
    ensures Universe(xs, decision, p) == Universe(ys, decision, p)
  {
    CompanyOrder();
    NoTiedCompanies(xs);
    Sorting.SortIgnoresOrder(CompanyLe, xs, ys);
  }

  /** Two histories with the same observations in any order. */
  predicate SameHistory(x: seq<Observation>, y: seq<Observation>) {
    multiset(x) == multiset(y)
  }

  predicate Rearranged(x: Company, y: Company) {
    x.symbol == y.symbol && SameHistory(x.observations, y.observations)
  }

  predicate AllRearranged(xs: seq<Company>, ys: seq<Company>) {
    Sorting.AllRelated(Rearranged, xs, ys)
  }

  lemma SameReasons(xs: seq<Observation>, ys: seq<Observation>, decision: int)
    requires SameHistory(xs, ys)
    ensures HistoryReasons(xs, decision) == HistoryReasons(ys, decision)
  {
    hide BadInput, HashChain.IsHash, Consecutive, Distinct, When;
    Sorting.SameMultiset(xs, ys);
    Sorting.MapPermutes(Year, xs, ys);
    Sorting.SortIgnoresOrder(IntLe, YearsOf(xs), YearsOf(ys));
    assert forall o :: o in xs <==> o in ys;
  }

  lemma DistinctYearsNoTies(xs: seq<Observation>)
    requires Distinct(Sorting.Sort(IntLe, YearsOf(xs)))
    ensures Sorting.NoTies(YearLe, xs)
  {
    Sorting.SortPermutes(IntLe, YearsOf(xs));
    Sorting.DistinctPermutes(Sorting.Sort(IntLe, YearsOf(xs)), YearsOf(xs));
    forall x, y | x in xs && y in xs && YearLe(x, y) && YearLe(y, x)
      ensures x == y
    {
      var i :| 0 <= i < |xs| && xs[i] == x;
      var j :| 0 <= j < |xs| && xs[j] == y;
      assert YearsOf(xs)[i] == YearsOf(xs)[j];
    }
  }

  lemma SameFigures(xs: seq<Observation>, ys: seq<Observation>, decision: int)
    requires SameHistory(xs, ys) && HistoryReasons(xs, decision) == {}
    ensures ByYear(xs) == ByYear(ys)
  {
    NoReason(xs, decision);
    DistinctYearsNoTies(xs);
    Sorting.SortIgnoresOrder(YearLe, xs, ys);
  }

  lemma SameScreen(x: Company, y: Company, decision: int, p: Policy)
    requires Rearranged(x, y)
    ensures Screen(x, decision, p) == Screen(y, decision, p)
    ensures Screen(x, decision, p) == {} ==>
              EvaluateHistory(x.observations, Aware(decision)) == EvaluateHistory(y.observations, Aware(decision))
  {
    hide HistoryReasons, ByYear, FiguresOf, PolicyReasons;
    SameReasons(x.observations, y.observations, decision);
    if HistoryReasons(x.observations, decision) == {} {
      SameFigures(x.observations, y.observations, decision);
    }
  }

  lemma {:induction false} SplitRearranged(xs: seq<Company>, ys: seq<Company>, decision: int, p: Policy)
    requires AllRearranged(xs, ys)
    ensures Admitted(xs, decision, p) == Admitted(ys, decision, p)
            && Rejected(xs, decision, p) == Rejected(ys, decision, p)
  {
    hide SameHistory, Screen, EvaluateHistory;
    if xs != [] {
      var n := |xs| - 1;
      SplitRearranged(xs[..n], ys[..n], decision, p);
      SameScreen(xs[n], ys[n], decision, p);
    }
  }

  /** Nor does the order of the observations inside each history. */
  lemma OrderOfObservationsIsIrrelevant(xs: seq<Company>, ys: seq<Company>, decision: int, p: Policy)
    requires AllRearranged(xs, ys)
    ensures Universe(xs, decision, p) == Universe(ys, decision, p)
  {
    Sorting.SortRelates(CompanyLe, Rearranged, xs, ys);
    SplitRearranged(Sorting.Sort(CompanyLe, xs), Sorting.Sort(CompanyLe, ys), decision, p);
  }

  // ---------------------------------------------------------------- partition

  predicate IsEntry(c: Company, e: Entry, decision: int, p: Policy) {
    && Screen(c, decision, p) == {}
    && e == EntryOf(c, decision, p)
  }

  predicate IsRejection(c: Company, r: (string, set<Reason>), decision: int, p: Policy) {
    Screen(c, decision, p) != {} && r == (c.symbol, Screen(c, decision, p))
  }

  lemma {:induction false} AdmittedAre(cs: seq<Company>, decision: int, p: Policy)
    ensures forall c | c in cs && Screen(c, decision, p) == {} ::
              EntryOf(c, decision, p) in Admitted(cs, decision, p)
    ensures forall e | e in Admitted(cs, decision, p) :: exists c :: c in cs && IsEntry(c, e, decision, p)
    ensures forall c | c in cs && Screen(c, decision, p) != {} ::
              (c.symbol, Screen(c, decision, p)) in Rejected(cs, decision, p)
    ensures forall r | r in Rejected(cs, decision, p) :: exists c :: c in cs && IsRejection(c, r, decision, p)
    ensures |Admitted(cs, decision, p)| + |Rejected(cs, decision, p)| == |cs|
  {
    hide Screen, EntryOf;
    if cs != [] {
      var before, last := cs[..|cs| - 1], cs[|cs| - 1];
      AdmittedAre(before, decision, p);
      assert cs == before + [last];
      forall e | e in Admitted(cs, decision, p)
        ensures exists c :: c in cs && IsEntry(c, e, decision, p)
      {
        if e in Admitted(before, decision, p) {
          var c :| c in before && IsEntry(c, e, decision, p);
          assert c in cs;
        } else {
          assert IsEntry(last, e, decision, p);
        }
      }
      forall r | r in Rejected(cs, decision, p)
        ensures exists c :: c in cs && IsRejection(c, r, decision, p)
      {
        if r in Rejected(before, decision, p) {
          var c :| c in before && IsRejection(c, r, decision, p);
          assert c in cs;
        } else {
          assert IsRejection(last, r, decision, p);
        }
      }
    }
  }

  ghost predicate IsCandidate(e: Evaluation, symbol: string) {
    exists k | 0 <= k < |e.candidates| :: e.candidates[k].entry.symbol == symbol
  }

  ghost predicate IsRejected(e: Evaluation, symbol: string) {
    exists k | 0 <= k < |e.rejected| :: e.rejected[k].0 == symbol
  }

  lemma SameSymbolSameCompany(companies: seq<Company>, a: Company, b: Company)
    requires Distinct(Symbols(companies)) && a in companies && b in companies && a.symbol == b.symbol
    ensures a == b
  {
    var i :| 0 <= i < |companies| && companies[i] == a;
    var j :| 0 <= j < |companies| && companies[j] == b;
    assert Symbols(companies)[i] == Symbols(companies)[j];
  }

  /** A candidate exactly when nothing keeps the company out, a rejection exactly otherwise. */
  ghost predicate GoesOneWay(e: Evaluation, c: Company, decision: int, p: Policy) {
    && (IsCandidate(e, c.symbol) <==> Screen(c, decision, p) == {})
    && (IsRejected(e, c.symbol) <==> Screen(c, decision, p) != {})
  }

  ghost predicate EntryFrom(companies: seq<Company>, e: Entry, decision: int, p: Policy) {
    exists c :: c in companies && IsEntry(c, e, decision, p)
  }

  ghost predicate RejectionFrom(companies: seq<Company>, r: (string, set<Reason>), decision: int, p: Policy) {
    exists c :: c in companies && IsRejection(c, r, decision, p)
  }

  lemma UniverseLists(companies: seq<Company>, decision: int, p: Policy)
    returns (ordered: seq<Company>, admitted: seq<Entry>)
    ensures ordered == Sorting.Sort(CompanyLe, companies) && admitted == Admitted(ordered, decision, p)
    ensures forall c :: c in ordered <==> c in companies
    ensures var e := Universe(companies, decision, p);
            && |ordered| == |companies| && |e.candidates| == |admitted|
            && e.rejected == Rejected(ordered, decision, p)
            && (forall k | 0 <= k < |e.candidates| :: e.candidates[k].entry in admitted)
            && (forall x | x in admitted :: exists k | 0 <= k < |e.candidates| :: e.candidates[k].entry == x)
  {
    hide Screen, EntryOf, Admitted, Rejected, EntryLe, CompanyLe;
    ordered := Sorting.Sort(CompanyLe, companies);
    admitted := Admitted(ordered, decision, p);
    Sorting.SortPermutes(CompanyLe, companies);
    Sorting.SortPermutes(EntryLe, admitted);
    var sorted, e := Sorting.Sort(EntryLe, admitted), Universe(companies, decision, p);
    forall x | x in admitted
      ensures exists k | 0 <= k < |e.candidates| :: e.candidates[k].entry == x
    {
      assert x in sorted;
      var k :| 0 <= k < |sorted| && sorted[k] == x;
      assert e.candidates[k].entry == x;
    }
  }

  /**
   * Every company ends in exactly one of the two lists, a candidate exactly when nothing keeps it
   * out, a rejection with precisely the reasons; nobody else appears and nobody appears twice.
   */
  lemma UniverseIsAPartition(companies: seq<Company>, decision: int, p: Policy)
    requires Distinct(Symbols(companies))
    ensures var e := Universe(companies, decision, p);
            && |e.candidates| + |e.rejected| == |companies|
            && (forall c | c in companies :: GoesOneWay(e, c, decision, p))
            && (forall k | 0 <= k < |e.candidates| :: EntryFrom(companies, e.candidates[k].entry, decision, p))
            && (forall k | 0 <= k < |e.rejected| :: RejectionFrom(companies, e.rejected[k], decision, p))
  {
    hide Screen, EntryOf, Universe, Admitted, Rejected, GoesOneWay;
    var ordered, admitted := UniverseLists(companies, decision, p);
    var e := Universe(companies, decision, p);
    AdmittedAre(ordered, decision, p);
    forall k | 0 <= k < |e.candidates|
      ensures EntryFrom(companies, e.candidates[k].entry, decision, p)
    {
      var c :| c in ordered && IsEntry(c, e.candidates[k].entry, decision, p);
      assert c in companies;
    }
    forall k | 0 <= k < |e.rejected|
      ensures RejectionFrom(companies, e.rejected[k], decision, p)
    {
      assert e.rejected[k] in Rejected(ordered, decision, p);
      var c :| c in ordered && IsRejection(c, e.rejected[k], decision, p);
      assert c in companies;
    }
    forall c | c in companies
      ensures GoesOneWay(e, c, decision, p)
    {
      CompanyGoesOneWay(companies, c, decision, p);
    }
  }

  lemma CompanyGoesOneWay(companies: seq<Company>, c: Company, decision: int, p: Policy)
    requires Distinct(Symbols(companies)) && c in companies
    ensures GoesOneWay(Universe(companies, decision, p), c, decision, p)
  {
    hide Screen, EntryOf, Universe, Admitted, Rejected;
    var ordered, admitted := UniverseLists(companies, decision, p);
    var e := Universe(companies, decision, p);
    AdmittedAre(ordered, decision, p);
    if Screen(c, decision, p) == {} {
      var entry := EntryOf(c, decision, p);
      assert entry in admitted;
      var k :| 0 <= k < |e.candidates| && e.candidates[k].entry == entry;
      assert e.candidates[k].entry.symbol == c.symbol;
    } else {
      var rejection := (c.symbol, Screen(c, decision, p));
      assert rejection in e.rejected;
      var k :| 0 <= k < |e.rejected| && e.rejected[k] == rejection;
      assert e.rejected[k].0 == c.symbol;
    }
    if k :| 0 <= k < |e.candidates| && e.candidates[k].entry.symbol == c.symbol {
      var d :| d in ordered && IsEntry(d, e.candidates[k].entry, decision, p);
      SameSymbolSameCompany(companies, c, d);
    }
    if k :| 0 <= k < |e.rejected| && e.rejected[k].0 == c.symbol {
      assert e.rejected[k] in Rejected(ordered, decision, p);
      var d :| d in ordered && IsRejection(d, e.rejected[k], decision, p);
      SameSymbolSameCompany(companies, c, d);
    }
  }

  // ---------------------------------------------------------------- ranks

  /**
   * Ranks run from one in score order: a better rank never has the worse score, and ties go by net
   * yield, then symbol.
   */
  lemma RanksFollowScores(companies: seq<Company>, decision: int, p: Policy)
    ensures var cs := Universe(companies, decision, p).candidates;
            && (forall k | 0 <= k < |cs| ::
                  cs[k].rank == k + 1 && cs[k].yieldPerPayout == Efficiency(cs[k].entry.figures))
            && (forall i, j | 0 <= i < j < |cs| ::
                  var a, b := cs[i].entry, cs[j].entry;
                  || cs[i].yieldPerPayout > cs[j].yieldPerPayout
                  || (cs[i].yieldPerPayout == cs[j].yieldPerPayout
                      && (a.figures.netYield > b.figures.netYield
                          || (a.figures.netYield == b.figures.netYield && Sorting.StringLe(a.symbol, b.symbol)))))
  {
    EntryOrder();
    Sorting.SortSorts(EntryLe, Admitted(Sorting.Sort(CompanyLe, companies), decision, p));
  }

  lemma {:induction false} PositivePayoutPositiveYield(os: seq<Observation>)
    requires AllComputable(os) && forall k | 0 <= k < |os| :: os[k].dividends >= 0.0
    ensures Sum(Yields(os)) >= 0.0 && Sum(Payouts(os)) >= 0.0
    ensures Sum(Payouts(os)) > 0.0 ==> Sum(Yields(os)) > 0.0
  {
    var n := |os| - 1;
    var o := os[n];
    QuotientSign(o.dividends, o.price);
    QuotientSign(o.dividends, o.earnings);
    if n == 0 {
      assert Yields(os)[..0] == [] && Payouts(os)[..0] == [];
    } else {
      PositivePayoutPositiveYield(os[..n]);
      assert Yields(os)[..n] == Yields(os[..n]) && Payouts(os)[..n] == Payouts(os[..n]);
    }
  }

  lemma QuotientSign(a: real, b: real)
    requires a >= 0.0 && b > 0.0
    ensures a / b >= 0.0 && (a / b > 0.0 <==> a > 0.0)
  {
  }

  /** Whoever is admitted meets the policy, and has a positive efficiency to be ranked by. */
  lemma CandidatesMeetThePolicy(companies: seq<Company>, decision: int, p: Policy, k: nat)
    requires Distinct(Symbols(companies)) && k < |Universe(companies, decision, p).candidates|
    ensures var c := Universe(companies, decision, p).candidates[k];
            && 0.0 < c.entry.figures.payout <= p.maximumPayout
            && c.entry.figures.cuts <= p.maximumCuts
            && c.entry.figures.netYield >= p.minimumNetYield
            && c.yieldPerPayout > 0.0
  {
    UniverseIsAPartition(companies, decision, p);
    var candidate := Universe(companies, decision, p).candidates[k];
    var c :| c in companies && IsEntry(c, candidate.entry, decision, p);
    EntryMeetsThePolicy(c, candidate.entry, decision, p);
  }

  lemma EntryMeetsThePolicy(c: Company, e: Entry, decision: int, p: Policy)
    requires IsEntry(c, e, decision, p)
    ensures 0.0 < e.figures.payout <= p.maximumPayout && e.figures.cuts <= p.maximumCuts
            && e.figures.netYield >= p.minimumNetYield
    ensures Efficiency(e.figures) > 0.0
  {
    hide HistoryReasons;
    AdmissibleIsComputable(c.observations, decision);
    NoReason(c.observations, decision);
    var ordered := ByYear(c.observations);
    Sorting.SortPermutes(YearLe, c.observations);
    forall i | 0 <= i < |ordered|
      ensures ordered[i].dividends >= 0.0
    {
      assert ordered[i] in c.observations;
    }
    NoPolicyReason(e.figures, p);
    PositivePayoutPositiveYield(ordered);
    AveragesArePositive(Sum(Yields(ordered)), Sum(Payouts(ordered)), |ordered| as real);
  }

  lemma NoPolicyReason(f: Figures, p: Policy)
    requires PolicyReasons(f, p) == {}
    ensures 0.0 < f.payout <= p.maximumPayout && f.cuts <= p.maximumCuts && f.netYield >= p.minimumNetYield
  {
    var all := PolicyReasons(f, p);
    assert NonpositivePayout !in all && PayoutAbovePolicy !in all && CutsAbovePolicy !in all
           && NetYieldBelowPolicy !in all;
  }

  lemma AveragesArePositive(gains: real, payouts: real, n: real)
    requires n > 0.0 && payouts / n > 0.0 && (payouts > 0.0 ==> gains > 0.0)
    ensures gains / n > 0.0 && (gains / n) / (payouts / n) > 0.0
  {
    assert payouts > 0.0;
  }

  // ---------------------------------------------------------------- what admission means

  /** Ten observations with ten different fiscal years, all among the ten from the first on. */
  ghost predicate TenYearsFrom(observations: seq<Observation>, first: int) {
    && |observations| == 10
    && Distinct(YearsOf(observations))
    && forall o | o in observations :: first <= o.year < first + 10
  }

  predicate Trusted(o: Observation, decision: int) {
    && o.availableAt.Aware? && o.availableAt.instant <= decision
    && HashChain.IsHash(o.source)
    && !BadInput(o) && o.earnings > 0.0
  }

  lemma YearsAre(observations: seq<Observation>)
    ensures var years := Sorting.Sort(IntLe, YearsOf(observations));
            && |years| == |observations|
            && multiset(years) == multiset(YearsOf(observations))
            && (forall i, j | 0 <= i < j < |years| :: years[i] <= years[j])
            && (forall k | 0 <= k < |years| :: exists o :: o in observations && o.year == years[k])
            && (forall o | o in observations :: o.year in years)
  {
    var years := YearsOf(observations);
    var sorted := Sorting.Sort(IntLe, years);
    Sorting.SortPermutes(IntLe, years);
    Sorting.SortSorts(IntLe, years);
    forall k | 0 <= k < |sorted|
      ensures exists o :: o in observations && o.year == sorted[k]
    {
      assert sorted[k] in years;
      var i :| 0 <= i < |years| && years[i] == sorted[k];
      assert observations[i] in observations;
    }
    forall o | o in observations
      ensures o.year in sorted
    {
      var i :| 0 <= i < |observations| && observations[i] == o;
      assert years[i] in years;
    }
  }

  lemma {:induction false} AtLeastOneApart(years: seq<int>, i: nat, j: nat)
    requires i <= j < |years| && (forall k, m | 0 <= k < m < |years| :: years[k] < years[m])
    ensures years[j] >= years[i] + j - i
    decreases j
  {
    if i < j {
      AtLeastOneApart(years, i, j - 1);
    }
  }

  /** Sorted years that are distinct and consecutive are a run of years, and the other way round. */
  lemma RunOfYears(observations: seq<Observation>)
    requires |observations| == 10
    ensures var years := Sorting.Sort(IntLe, YearsOf(observations));
            |years| == 10
            && (Consecutive(years) && Distinct(years) <==> exists first :: TenYearsFrom(observations, first))
  {
    hide YearsOf;
    var years := Sorting.Sort(IntLe, YearsOf(observations));
    YearsAre(observations);
    if Consecutive(years) && Distinct(years) {
      Sorting.DistinctPermutes(years, YearsOf(observations));
      assert TenYearsFrom(observations, years[0]);
    }
    if first :| TenYearsFrom(observations, first) {
      Sorting.DistinctPermutes(YearsOf(observations), years);
      forall k | 0 <= k < 10
        ensures years[k] == first + k
      {
        AtLeastOneApart(years, 0, k);
        AtLeastOneApart(years, k, 9);
      }
    }
  }

  /** A history is admissible exactly when it is ten consecutive fiscal years of trusted observations. */
  lemma AdmissibleMeans(observations: seq<Observation>, decision: int)
    ensures HistoryReasons(observations, decision) == {}
       <==> (exists first :: TenYearsFrom(observations, first)) && forall o | o in observations :: Trusted(o, decision)
  {
    hide TenYearsFrom, HashChain.IsHash, BadInput;
    var all := HistoryReasons(observations, decision);
    if |observations| == 10 {
      RunOfYears(observations);
    } else {
      NotTen(observations);
    }
    if all == {} {
      assert TenYearHistoryRequired !in all && YearsNotConsecutive !in all && DuplicateYear !in all;
      assert TimestampNotAware !in all && Lookahead !in all && SourceHashInvalid !in all && InputInvalid !in all
             && CoverageUnavailable !in all;
    }
  }

  lemma NotTen(observations: seq<Observation>)
    requires |observations| != 10
    ensures forall first :: !TenYearsFrom(observations, first)
  {
  }

  // ---------------------------------------------------------------- what the figures mean

  /** No payment is below the one before it. */
  predicate NoFalls(ordered: seq<Observation>) {
    forall k | 0 < k < |ordered| :: ordered[k - 1].dividends <= ordered[k].dividends
  }

  lemma LastFall(ordered: seq<Observation>)
    requires |ordered| >= 2
    ensures var n := |ordered| - 1;
            NoFalls(ordered) <==> NoFalls(ordered[..n]) && ordered[n - 1].dividends <= ordered[n].dividends
  {
    var n := |ordered| - 1;
    if NoFalls(ordered[..n]) && ordered[n - 1].dividends <= ordered[n].dividends {
      forall k | 0 < k < |ordered|
        ensures ordered[k - 1].dividends <= ordered[k].dividends
      {
        if k < n {
          assert ordered[..n][k - 1].dividends <= ordered[..n][k].dividends;
        }
      }
    }
  }

  lemma {:induction false} CutsCountFalls(ordered: seq<Observation>)
    ensures Cuts(ordered) == 0 <==> NoFalls(ordered)
  {
    if |ordered| >= 2 {
      CutsCountFalls(ordered[..|ordered| - 1]);
      LastFall(ordered);
      hide NoFalls;
    }
  }

  lemma {:induction false} NeverFalls(ordered: seq<Observation>, i: nat, j: nat)
    requires i <= j < |ordered| && NoFalls(ordered)
    ensures ordered[i].dividends <= ordered[j].dividends
    decreases j
  {
    if i < j {
      NeverFalls(ordered, i, j - 1);
    }
  }

  lemma NeverLessBetweenYears(ordered: seq<Observation>)
    requires forall i, j | 0 <= i < j < |ordered| :: ordered[i].year < ordered[j].year
    ensures Cuts(ordered) == 0
       <==> forall a, b | a in ordered && b in ordered && a.year < b.year :: a.dividends <= b.dividends
  {
    hide Cuts;
    CutsCountFalls(ordered);
    if Cuts(ordered) == 0 {
      forall a, b | a in ordered && b in ordered && a.year < b.year
        ensures a.dividends <= b.dividends
      {
        var i :| 0 <= i < |ordered| && ordered[i] == a;
        var j :| 0 <= j < |ordered| && ordered[j] == b;
        assert i < j;
        NeverFalls(ordered, i, j);
      }
    } else {
      var k :| 0 < k < |ordered| && !(ordered[k - 1].dividends <= ordered[k].dividends);
      assert ordered[k - 1] in ordered && ordered[k] in ordered;
    }
  }

  /** No cuts are counted exactly when a later fiscal year never pays less than an earlier one. */
  lemma NoCutsMeansNeverLess(observations: seq<Observation>, decision: int)
    requires HistoryReasons(observations, decision) == {}
    ensures Cuts(ByYear(observations)) == 0
       <==> forall a, b | a in observations && b in observations && a.year < b.year :: a.dividends <= b.dividends
  {
    hide HistoryReasons, Cuts, ByYear;
    YearsStrictlyRise(observations, decision);
    NeverLessBetweenYears(ByYear(observations));
    ByYearHolds(observations);
  }

  lemma ByYearHolds(observations: seq<Observation>)
    ensures forall o :: o in ByYear(observations) <==> o in observations
  {
    Sorting.SortPermutes(YearLe, observations);
  }

  lemma YearsStrictlyRise(observations: seq<Observation>, decision: int)
    requires HistoryReasons(observations, decision) == {}
    ensures forall i, j | 0 <= i < j < |ByYear(observations)| ::
              ByYear(observations)[i].year < ByYear(observations)[j].year
  {
    var ordered := ByYear(observations);
    NoReason(observations, decision);
    Sorting.SortPermutes(YearLe, observations);
    Sorting.SortSorts(YearLe, observations);
    Sorting.MapPermutes(Year, observations, ordered);
    Sorting.SortPermutes(IntLe, YearsOf(observations));
    Sorting.DistinctPermutes(Sorting.Sort(IntLe, YearsOf(observations)), YearsOf(ordered));
    forall i, j | 0 <= i < j < |ordered|
      ensures ordered[i].year < ordered[j].year
    {
      assert YearLe(ordered[i], ordered[j]);
      assert YearsOf(ordered)[i] != YearsOf(ordered)[j];
    }
  }

  predicate Between(xs: seq<real>, low: real, high: real) {
    forall k | 0 <= k < |xs| :: low <= xs[k] <= high
  }

  lemma AverageBetween(xs: seq<real>, low: real, high: real)
    requires xs != [] && Between(xs, low, high)
    ensures low <= Sum(xs) / |xs| as real <= high
  {
    SumAtLeast(xs, low);
    SumAtMost(xs, high);
    QuotientAtLeast(|xs| as real, low, Sum(xs));
    QuotientAtMost(|xs| as real, Sum(xs), high);
  }

  /** Every year's ratio of two columns, dividends first. */
  predicate PaysBetween(o: Observation, base: real, low: real, high: real) {
    base > 0.0 && low * base <= o.dividends <= high * base
  }

  lemma RatioBetween(dividends: real, base: real, low: real, high: real)
    requires base > 0.0 && low * base <= dividends <= high * base
    ensures low <= dividends / base <= high
  {
    QuotientAtLeast(base, low, dividends);
    QuotientAtMost(base, dividends, high);
  }

  /** The average yield, over prices, stays within what every single year satisfies. */
  lemma YieldStaysWithinTheYears(os: seq<Observation>, low: real, high: real)
    requires AllComputable(os) && forall k | 0 <= k < |os| :: PaysBetween(os[k], os[k].price, low, high)
    ensures low <= FiguresOf(os).dividendYield <= high
  {
    hide Cuts;
    forall k | 0 <= k < |os|
      ensures low <= Yields(os)[k] <= high
    {
      RatioBetween(os[k].dividends, os[k].price, low, high);
    }
    AverageBetween(Yields(os), low, high);
  }

  /** The average payout ratio, over earnings, does too. */
  lemma PayoutStaysWithinTheYears(os: seq<Observation>, low: real, high: real)
    requires AllComputable(os) && forall k | 0 <= k < |os| :: PaysBetween(os[k], os[k].earnings, low, high)
    ensures low <= FiguresOf(os).payout <= high
  {
    hide Cuts;
    forall k | 0 <= k < |os|
      ensures low <= Payouts(os)[k] <= high
    {
      RatioBetween(os[k].dividends, os[k].earnings, low, high);
    }
    AverageBetween(Payouts(os), low, high);
  }

  /** Companies that buy back at least what they issue return more than their dividends, and the other way round. */
  lemma BuybacksRaiseTheNetYield(os: seq<Observation>)
    requires AllComputable(os)
    ensures (forall k | 0 <= k < |os| :: os[k].buybacks >= os[k].issuance)
              ==> FiguresOf(os).netYield >= FiguresOf(os).dividendYield
    ensures (forall k | 0 <= k < |os| :: os[k].buybacks <= os[k].issuance)
              ==> FiguresOf(os).netYield <= FiguresOf(os).dividendYield
  {
    hide Cuts;
    var n := |os| as real;
    if forall k | 0 <= k < |os| :: os[k].buybacks >= os[k].issuance {
      forall k | 0 <= k < |os|
        ensures Yields(os)[k] <= NetYields(os)[k]
      {
        SignedQuotient(os[k].buybacks - os[k].issuance, os[k].cap);
      }
      SumMonotone(Yields(os), NetYields(os));
      DivideOrder(Sum(Yields(os)), Sum(NetYields(os)), n);
    }
    if forall k | 0 <= k < |os| :: os[k].buybacks <= os[k].issuance {
      forall k | 0 <= k < |os|
        ensures NetYields(os)[k] <= Yields(os)[k]
      {
        SignedQuotient(os[k].buybacks - os[k].issuance, os[k].cap);
      }
      SumMonotone(NetYields(os), Yields(os));
      DivideOrder(Sum(NetYields(os)), Sum(Yields(os)), n);
    }
  }

  lemma SignedQuotient(a: real, b: real)
    requires b > 0.0
    ensures (a >= 0.0 ==> a / b >= 0.0) && (a <= 0.0 ==> a / b <= 0.0)
  {
  }

  lemma DivideOrder(a: real, b: real, n: real)
    requires n > 0.0 && a <= b
    ensures a / n <= b / n
  {
  }
}
