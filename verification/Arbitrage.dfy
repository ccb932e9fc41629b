/**
 * Executable-side arbitrage research: every leg is bought at the ask and sold at the bid, the
 * package's edge is taken net of all costs, and what clears every gate is ranked.
 */
module Arbitrage {
  import opened Collections
  import opened Common
  import opened Sums
  import HashChain
  import Sorting

  datatype Side = Buy | Sell

  /** Settlement dates are day numbers. */
  datatype Leg = Leg(id: string, side: Side, bid: real, ask: real, size: int, quotedAt: Timestamp, settlement: int,
                     source: string)

  datatype Package = Package(
    id: string, legs: seq<Leg>, quantity: int, multiplier: int, terminalValue: real,
    fees: real, slippage: real, financing: real, buffer: real)

  datatype Reason =
    | QuoteNotAware | QuotesNotSynchronized | SettlementMismatch | InsufficientDepth
    | InvalidQuote | SourceHashInvalid | EdgeBelowBuffer

  datatype ArbitrageError = PackageIncomplete | DuplicateLegs | NegativeCost | EmptyUniverse | IdsInvalid

  const TOLERANCE := 1_000_000

  // ---------------------------------------------------------------- one package

  function Id(l: Leg): string {
    l.id
  }

  function Malformed(p: Package): Option<ArbitrageError> {
    if |p.legs| < 2 || p.quantity <= 0 || p.multiplier <= 0 then Some(PackageIncomplete)
    else if !Distinct(Sorting.Map(Id, p.legs)) then Some(DuplicateLegs)
    else if p.fees < 0.0 || p.slippage < 0.0 || p.financing < 0.0 || p.buffer < 0.0 then Some(NegativeCost)
    else None
  }

  function Units(p: Package): int {
    p.multiplier * p.quantity
  }

  /** Cash from trading a leg at a price. */
  function Flow(side: Side, price: real, units: int): real {
    if side.Sell? then price * units as real else -price * units as real
  }

  function ExecutablePrice(l: Leg): real {
    if l.side.Sell? then l.bid else l.ask
  }

  function ExecutableFlow(units: int): Leg -> real {
    (l: Leg) => Flow(l.side, ExecutablePrice(l), units)
  }

  function EntryCashflow(legs: seq<Leg>, units: int): real {
    Sum(Sorting.Map(ExecutableFlow(units), legs))
  }

  function Costs(p: Package): real {
    p.fees + p.slippage + p.financing
  }

  function NetEdge(p: Package): real {
    EntryCashflow(p.legs, Units(p)) + p.terminalValue - p.fees - p.slippage - p.financing
  }

  predicate BadQuote(l: Leg) {
    l.bid < 0.0 || l.ask <= 0.0 || l.ask < l.bid
  }

  /** Spread over more than the tolerance: `max(times) - min(times)`. */
  predicate Spread(legs: seq<Leg>) {
    exists a, b :: a in legs && b in legs && a.quotedAt.instant - b.quotedAt.instant > TOLERANCE
  }

  predicate SomeNaive(legs: seq<Leg>) {
    exists l | l in legs :: l.quotedAt.Naive?
  }

  predicate SettleApart(legs: seq<Leg>) {
    exists a, b | a in legs && b in legs :: a.settlement != b.settlement
  }

  predicate SomeShallow(legs: seq<Leg>, quantity: int) {
    exists l | l in legs :: l.size < quantity
  }

  predicate SomeBadQuote(legs: seq<Leg>) {
    exists l | l in legs :: BadQuote(l)
  }

  predicate SomeBadSource(legs: seq<Leg>) {
    exists l | l in legs :: !HashChain.IsHash(l.source)
  }

  function Reasons(p: Package): set<Reason> {
    When(SomeNaive(p.legs), QuoteNotAware)
    + When(!SomeNaive(p.legs) && Spread(p.legs), QuotesNotSynchronized)
    + When(SettleApart(p.legs), SettlementMismatch)
    + When(SomeShallow(p.legs, p.quantity), InsufficientDepth)
    + When(SomeBadQuote(p.legs), InvalidQuote)
    + When(SomeBadSource(p.legs), SourceHashInvalid)
    + When(NetEdge(p) < p.buffer, EdgeBelowBuffer)
  }

  // ---------------------------------------------------------------- the universe

  function PackageId(p: Package): string {
    p.id
  }

  predicate IdLe(a: Package, b: Package) {
    Sorting.StringLe(a.id, b.id)
  }

  /** The larger edge first, then the id. */
  predicate EdgeLe(a: Package, b: Package) {
    NetEdge(a) > NetEdge(b) || (NetEdge(a) == NetEdge(b) && Sorting.StringLe(a.id, b.id))
  }

  function Passing(ps: seq<Package>): seq<Package> {
    if ps == [] then [] else Passing(ps[..|ps| - 1]) + if Reasons(ps[|ps| - 1]) == {} then [ps[|ps| - 1]] else []
  }

  function Failing(ps: seq<Package>): seq<Package> {
    if ps == [] then [] else Failing(ps[..|ps| - 1]) + if Reasons(ps[|ps| - 1]) == {} then [] else [ps[|ps| - 1]]
  }

  function Source(l: Leg): string {
    l.source
  }

  datatype Candidate = Candidate(rank: nat, id: string, cashflow: real, edge: real, sources: seq<string>)

  function CandidateOf(rank: nat, p: Package): Candidate {
    Candidate(rank, p.id, EntryCashflow(p.legs, Units(p)), NetEdge(p),
              Sorting.Sort(Sorting.StringLe, Sorting.Map(Source, p.legs)))
  }

  function Ranked(ps: seq<Package>): (r: seq<Candidate>)
    ensures |r| == |ps|
    ensures forall k | 0 <= k < |r| :: r[k] == CandidateOf(k + 1, ps[k])
  {
    seq(|ps|, k requires 0 <= k < |ps| => CandidateOf(k + 1, ps[k]))
  }

  function Rejection(p: Package): (string, set<Reason>) {
    (p.id, Reasons(p))
  }

  datatype Evaluation = Evaluation(candidates: seq<Candidate>, rejected: seq<(string, set<Reason>)>)

  function Universe(ps: seq<Package>): Evaluation {
    var ordered := Sorting.Sort(IdLe, ps);
    Evaluation(Ranked(Sorting.Sort(EdgeLe, Passing(ordered))), Sorting.Map(Rejection, Failing(ordered)))
  }

  /** The first malformed package in id order stops the evaluation. */
  function FirstMalformed(ordered: seq<Package>): Option<ArbitrageError> {
    if ordered == [] then None
    else
      var earlier := FirstMalformed(ordered[..|ordered| - 1]);
      if earlier.Some? then earlier else Malformed(ordered[|ordered| - 1])
  }

  function Refused(ps: seq<Package>): Option<ArbitrageError> {
    var ids := Sorting.Map(PackageId, ps);
    if ps == [] then Some(EmptyUniverse)
    else if "" in ids || !Distinct(ids) then Some(IdsInvalid)
    else FirstMalformed(Sorting.Sort(IdLe, ps))
  }

  /** What the evaluation answers: its error, or the ranked universe. */
  function Answer(ps: seq<Package>): Result<Evaluation, ArbitrageError> {
    if Refused(ps).Some? then Err(Refused(ps).value) else Ok(Universe(ps))
  }

  method EvaluateUniverse(ps: seq<Package>) returns (r: Result<Evaluation, ArbitrageError>)
    ensures r == Answer(ps)
  {
    hide Reasons, Malformed, Sorting.Sort, Ranked;
    var ids := Sorting.Map(PackageId, ps);
    if ps == [] {
      return Err(EmptyUniverse);
    }
    if "" in ids || !Distinct(ids) {
      return Err(IdsInvalid);
    }
    var ordered := Sorting.Sort(IdLe, ps);
    var admitted: seq<Package>, rejected: seq<(string, set<Reason>)> := [], [];
    for k := 0 to |ordered|
      invariant FirstMalformed(ordered[..k]).None?
      invariant admitted == Passing(ordered[..k])
      invariant rejected == Sorting.Map(Rejection, Failing(ordered[..k]))
    {
      var p := ordered[k];
      assert ordered[..k + 1][..k] == ordered[..k] && ordered[..k + 1][k] == p;
      var malformed := Malformed(p);
      if malformed.Some? {
        FirstStays(ordered, k + 1);
        return Err(malformed.value);
      }
      var reasons := Reasons(p);
      if reasons != {} {
        rejected := rejected + [(p.id, reasons)];
      } else {
        admitted := admitted + [p];
      }
    }
    assert ordered[..|ordered|] == ordered;
    return Ok(Evaluation(Ranked(Sorting.Sort(EdgeLe, admitted)), rejected));
  }

  lemma {:induction false} FirstStays(ordered: seq<Package>, k: nat)
    requires k <= |ordered| && FirstMalformed(ordered[..k]).Some?
    ensures FirstMalformed(ordered) == FirstMalformed(ordered[..k])
    decreases |ordered|
  {
    hide Malformed;
    if k == |ordered| {
      assert ordered[..k] == ordered;
    } else {
      assert ordered[..|ordered| - 1][..k] == ordered[..k];
      FirstStays(ordered[..|ordered| - 1], k);
    }
  }
}

/** What the arbitrage universe promises. */
module ArbitrageTheorems {
  import opened Collections
  import opened Common
  import opened Sums
  import opened Arbitrage
  import Metrics
  import Sorting

  // ---------------------------------------------------------------- economics

  /** Prices at which the legs might trade: anywhere between bid and ask. */
  predicate WithinQuotes(legs: seq<Leg>, prices: seq<real>) {
    |prices| == |legs| && forall k | 0 <= k < |legs| :: legs[k].bid <= prices[k] <= legs[k].ask
  }

  function FlowsAt(legs: seq<Leg>, prices: seq<real>, units: int): (flows: seq<real>)
    requires |prices| == |legs|
    ensures |flows| == |legs|
  {
    seq(|legs|, k requires 0 <= k < |legs| => Flow(legs[k].side, prices[k], units))
  }

  function CashflowAt(legs: seq<Leg>, prices: seq<real>, units: int): real
    requires |prices| == |legs|
  {
    Sum(FlowsAt(legs, prices, units))
  }

  lemma FlowAtWorst(l: Leg, price: real, units: int)
    requires l.bid <= price <= l.ask && units > 0
    ensures Flow(l.side, ExecutablePrice(l), units) <= Flow(l.side, price, units)
  {
    var u := units as real;
    if l.side.Sell? {
      Scale(u, l.bid, price);
    } else {
      Scale(u, price, l.ask);
    }
  }

  lemma UnitsPositive(p: Package)
    requires Malformed(p).None?
    ensures Units(p) > 0
  {
    assert p.multiplier * p.quantity > 0;
  }

  /**
   * The executable side is the worst case: whatever the fills between bid and ask, a package
   * without reasons pays at least its buffer after all costs.
   */
  lemma EdgeIsGuaranteed(p: Package, prices: seq<real>)
    requires Malformed(p).None? && Reasons(p) == {} && WithinQuotes(p.legs, prices)
    ensures CashflowAt(p.legs, prices, Units(p)) >= EntryCashflow(p.legs, Units(p))
    ensures CashflowAt(p.legs, prices, Units(p)) + p.terminalValue - Costs(p) >= p.buffer >= 0.0
  {
    hide Flow, Units;
    var units := Units(p);
    UnitsPositive(p);
    var worst := Sorting.Map(ExecutableFlow(units), p.legs);
    var actual := FlowsAt(p.legs, prices, units);
    forall k | 0 <= k < |worst|
      ensures worst[k] <= actual[k]
    {
      FlowAtWorst(p.legs[k], prices[k], units);
    }
    SumMonotone(worst, actual);
    assert EdgeBelowBuffer !in Reasons(p);
  }

  function ExecutablePrices(legs: seq<Leg>): (prices: seq<real>)
    ensures |prices| == |legs|
  {
    Sorting.Map(ExecutablePrice, legs)
  }

  /**
   * What a package without reasons is: deep enough, quoted within a second, settling on one day,
   * and the worst case is itself a fill.
   */
  lemma AdmittedPackagesAreTradable(p: Package)
    requires Reasons(p) == {}
    ensures forall l | l in p.legs :: l.size >= p.quantity && l.quotedAt.Aware? && 0.0 <= l.bid <= l.ask && l.ask > 0.0
    ensures forall a, b | a in p.legs && b in p.legs ::
              a.settlement == b.settlement && -TOLERANCE <= a.quotedAt.instant - b.quotedAt.instant <= TOLERANCE
    ensures WithinQuotes(p.legs, ExecutablePrices(p.legs))
    ensures CashflowAt(p.legs, ExecutablePrices(p.legs), Units(p)) == EntryCashflow(p.legs, Units(p))
  {
    hide NetEdge, Flow, Units;
    var all := Reasons(p);
    assert QuoteNotAware !in all && QuotesNotSynchronized !in all && SettlementMismatch !in all;
    assert InsufficientDepth !in all && InvalidQuote !in all;
    forall k | 0 <= k < |p.legs|
      ensures p.legs[k].bid <= ExecutablePrices(p.legs)[k] <= p.legs[k].ask
    {
      assert !BadQuote(p.legs[k]);
    }
    assert FlowsAt(p.legs, ExecutablePrices(p.legs), Units(p)) == Sorting.Map(ExecutableFlow(Units(p)), p.legs);
  }

  // ---------------------------------------------------------------- partition and ranks

  lemma {:induction false} SplitIsComplete(ps: seq<Package>)
    ensures multiset(ps) == multiset(Passing(ps)) + multiset(Failing(ps))
  {
    hide Reasons;
    if ps != [] {
      var before, last := ps[..|ps| - 1], ps[|ps| - 1];
      SplitIsComplete(before);
      assert ps == before + [last];
      LastGoesOneWay(ps);
    }
  }

  lemma LastGoesOneWay(ps: seq<Package>)
    requires ps != []
    ensures var before, last := ps[..|ps| - 1], ps[|ps| - 1];
            if Reasons(last) == {} then Passing(ps) == Passing(before) + [last] && Failing(ps) == Failing(before)
            else Passing(ps) == Passing(before) && Failing(ps) == Failing(before) + [last]
  {
    hide Reasons;
  }

  lemma {:induction false} SplitByReasons(ps: seq<Package>)
    ensures forall k | 0 <= k < |Passing(ps)| :: Reasons(Passing(ps)[k]) == {}
    ensures forall k | 0 <= k < |Failing(ps)| :: Reasons(Failing(ps)[k]) != {}
  {
    hide Reasons;
    if ps != [] {
      SplitByReasons(ps[..|ps| - 1]);
      LastGoesOneWay(ps);
    }
  }

  /** The lists behind the evaluation: together they are exactly the packages, each once, parted by having reasons. */
  lemma UniverseIsAPartition(ps: seq<Package>) returns (passed: seq<Package>, failed: seq<Package>)
    ensures multiset(passed) + multiset(failed) == multiset(ps)
    ensures Universe(ps) == Evaluation(Ranked(passed), Sorting.Map(Rejection, failed))
    ensures forall k | 0 <= k < |passed| :: Reasons(passed[k]) == {}
    ensures forall k | 0 <= k < |failed| :: Reasons(failed[k]) != {}
  {
    hide Reasons, Ranked;
    var ordered := Sorting.Sort(IdLe, ps);
    passed, failed := Sorting.Sort(EdgeLe, Passing(ordered)), Failing(ordered);
    Sorting.SortPermutes(IdLe, ps);
    Sorting.SortPermutes(EdgeLe, Passing(ordered));
    SplitIsComplete(ordered);
    SplitByReasons(ordered);
    forall k | 0 <= k < |passed|
      ensures Reasons(passed[k]) == {}
    {
      assert passed[k] in Passing(ordered);
    }
  }

  lemma EdgeOrder()
    ensures Sorting.IsOrder(EdgeLe)
  {
    hide Sorting.StringLe, NetEdge;
    Sorting.StringOrder();
    forall a, b, c | EdgeLe(a, b) && EdgeLe(b, c)
      ensures EdgeLe(a, c)
    {
    }
  }

  lemma RanksFollowEdges(ps: seq<Package>)
    ensures var cs := Universe(ps).candidates;
            && (forall k | 0 <= k < |cs| :: cs[k].rank == k + 1)
            && (forall i, j | 0 <= i < j < |cs| ::
                  cs[i].edge > cs[j].edge || (cs[i].edge == cs[j].edge && Sorting.StringLe(cs[i].id, cs[j].id)))
  {
    hide NetEdge, EntryCashflow;
    EdgeOrder();
    var passing := Passing(Sorting.Sort(IdLe, ps));
    Sorting.SortSorts(EdgeLe, passing);
    var sorted := Sorting.Sort(EdgeLe, passing);
    forall i, j | 0 <= i < j < |sorted|
      ensures EdgeLe(sorted[i], sorted[j])
    {
    }
  }

  // ---------------------------------------------------------------- input order

  lemma IdsDoNotTie(ps: seq<Package>)
    requires Distinct(Sorting.Map(PackageId, ps))
    ensures Sorting.IsOrder(IdLe) && Sorting.NoTies(IdLe, ps)
  {
    Sorting.StringOrder();
    forall x, y | x in ps && y in ps && IdLe(x, y) && IdLe(y, x)
      ensures x == y
    {
      Sorting.StringLeTotal(x.id, y.id);
      var i :| 0 <= i < |ps| && ps[i] == x;
      var j :| 0 <= j < |ps| && ps[j] == y;
      assert Sorting.Map(PackageId, ps)[i] == Sorting.Map(PackageId, ps)[j];
    }
  }

  lemma SameIds(ps: seq<Package>, qs: seq<Package>)
    requires multiset(ps) == multiset(qs)
    ensures Distinct(Sorting.Map(PackageId, ps)) <==> Distinct(Sorting.Map(PackageId, qs))
    ensures "" in Sorting.Map(PackageId, ps) <==> "" in Sorting.Map(PackageId, qs)
    ensures ps == [] <==> qs == []
  {
    var xs, ys := Sorting.Map(PackageId, ps), Sorting.Map(PackageId, qs);
    Sorting.SameMultiset(ps, qs);
    Sorting.MapPermutes(PackageId, ps, qs);
    Sorting.SameMultiset(xs, ys);
    if Distinct(xs) {
      Sorting.DistinctPermutes(xs, ys);
    }
    if Distinct(ys) {
      Sorting.DistinctPermutes(ys, xs);
    }
  }

  /** The whole answer, error or evaluation, does not depend on the order of the packages. */
  lemma OrderOfPackagesIsIrrelevant(ps: seq<Package>, qs: seq<Package>)
    requires multiset(ps) == multiset(qs)
    ensures Answer(ps) == Answer(qs)
  {
    hide Universe, FirstMalformed, Sorting.Map;
    SameIds(ps, qs);
    if Distinct(Sorting.Map(PackageId, ps)) {
      IdsDoNotTie(ps);
      Sorting.SortIgnoresOrder(IdLe, ps, qs);
      SameOrderSameUniverse(ps, qs);
    }
  }

  lemma SameOrderSameUniverse(ps: seq<Package>, qs: seq<Package>)
    requires Sorting.Sort(IdLe, ps) == Sorting.Sort(IdLe, qs)
    ensures Universe(ps) == Universe(qs)
  {
  }

  /** The same package with its legs listed in another order. */
  predicate Rearranged(p: Package, q: Package) {
    multiset(p.legs) == multiset(q.legs) && p.(legs := []) == q.(legs := [])
  }

  lemma SameEdge(p: Package, q: Package)
    requires Rearranged(p, q)
    ensures EntryCashflow(p.legs, Units(p)) == EntryCashflow(q.legs, Units(q)) && NetEdge(p) == NetEdge(q)
    ensures p.id == q.id && p.quantity == q.quantity && p.buffer == q.buffer && Units(p) == Units(q)
  {
    hide Flow;
    var units := Units(p);
    Sorting.MapPermutes(ExecutableFlow(units), p.legs, q.legs);
    Metrics.OrderDoesNotMatter(Sorting.Map(ExecutableFlow(units), p.legs), Sorting.Map(ExecutableFlow(units), q.legs));
  }

  lemma SameReasons(p: Package, q: Package)
    requires Rearranged(p, q)
    ensures Reasons(p) == Reasons(q)
  {
    hide NetEdge, BadQuote, HashChain.IsHash, When;
    SameEdge(p, q);
    Sorting.SameMultiset(p.legs, q.legs);
    assert forall l :: l in p.legs <==> l in q.legs;
    assert Spread(p.legs) <==> Spread(q.legs);
  }

  lemma {:induction false} SplitRearranged(ps: seq<Package>, qs: seq<Package>)
    requires Sorting.AllRelated(Rearranged, ps, qs)
    ensures Sorting.AllRelated(Rearranged, Passing(ps), Passing(qs))
    ensures Sorting.Map(Rejection, Failing(ps)) == Sorting.Map(Rejection, Failing(qs))
  {
    hide Rearranged, Reasons;
    if ps != [] {
      var n := |ps| - 1;
      SplitRearranged(ps[..n], qs[..n]);
      SameReasons(ps[n], qs[n]);
      SameId(ps[n], qs[n]);
    }
  }

  lemma SameId(p: Package, q: Package)
    requires Rearranged(p, q)
    ensures p.id == q.id
  {
  }

  lemma OrdersRespectRearranging()
    ensures Sorting.Respects(IdLe, Rearranged) && Sorting.Respects(EdgeLe, Rearranged)
  {
    hide NetEdge, Rearranged, Sorting.StringLe;
    forall a, b, x, y | Rearranged(a, x) && Rearranged(b, y)
      ensures (IdLe(a, b) <==> IdLe(x, y)) && (EdgeLe(a, b) <==> EdgeLe(x, y))
    {
      SameEdge(a, x);
      SameEdge(b, y);
    }
  }

  lemma SameCandidate(rank: nat, p: Package, q: Package)
    requires Rearranged(p, q)
    ensures CandidateOf(rank, p) == CandidateOf(rank, q)
  {
    hide NetEdge, EntryCashflow, Units, Sorting.Map;
    SameEdge(p, q);
    Sorting.MapPermutes(Source, p.legs, q.legs);
    Sorting.StringOrder();
    var sources := Sorting.Map(Source, p.legs);
    Sorting.StringsDoNotTie(sources);
    Sorting.SortIgnoresOrder(Sorting.StringLe, sources, Sorting.Map(Source, q.legs));
  }

  lemma SameRanked(ps: seq<Package>, qs: seq<Package>)
    requires Sorting.AllRelated(Rearranged, ps, qs)
    ensures Ranked(ps) == Ranked(qs)
  {
    hide CandidateOf, Rearranged;
    forall k | 0 <= k < |ps|
      ensures Ranked(ps)[k] == Ranked(qs)[k]
    {
      SameCandidate(k + 1, ps[k], qs[k]);
    }
  }

  lemma SameMalformed(p: Package, q: Package)
    requires Rearranged(p, q)
    ensures Malformed(p) == Malformed(q)
  {
    var xs, ys := Sorting.Map(Id, p.legs), Sorting.Map(Id, q.legs);
    Sorting.SameMultiset(p.legs, q.legs);
    Sorting.MapPermutes(Id, p.legs, q.legs);
    if Distinct(xs) {
      Sorting.DistinctPermutes(xs, ys);
    }
    if Distinct(ys) {
      Sorting.DistinctPermutes(ys, xs);
    }
  }

  lemma {:induction false} SameFirstMalformed(ps: seq<Package>, qs: seq<Package>)
    requires Sorting.AllRelated(Rearranged, ps, qs)
    ensures FirstMalformed(ps) == FirstMalformed(qs)
  {
    hide Malformed, Rearranged;
    if ps != [] {
      var n := |ps| - 1;
      SameFirstMalformed(ps[..n], qs[..n]);
      SameMalformed(ps[n], qs[n]);
    }
  }

  lemma SameIdList(ps: seq<Package>, qs: seq<Package>)
    requires Sorting.AllRelated(Rearranged, ps, qs)
    ensures Sorting.Map(PackageId, ps) == Sorting.Map(PackageId, qs)
  {
    hide Rearranged;
    forall k | 0 <= k < |ps|
      ensures ps[k].id == qs[k].id
    {
      SameId(ps[k], qs[k]);
    }
  }

  /** Nor does the answer depend on the order of the legs inside each package. */
  lemma OrderOfLegsIsIrrelevant(ps: seq<Package>, qs: seq<Package>)
    requires Sorting.AllRelated(Rearranged, ps, qs)
    ensures Answer(ps) == Answer(qs)
  {
    hide Rearranged, Universe, FirstMalformed;
    OrdersRespectRearranging();
    Sorting.SortRelates(IdLe, Rearranged, ps, qs);
    SameIdList(ps, qs);
    SameFirstMalformed(Sorting.Sort(IdLe, ps), Sorting.Sort(IdLe, qs));
    LegsLeaveTheUniverse(ps, qs);
  }

  lemma LegsLeaveTheUniverse(ps: seq<Package>, qs: seq<Package>)
    requires Sorting.AllRelated(Rearranged, ps, qs)
    ensures Universe(ps) == Universe(qs)
  {
    hide Rearranged, Reasons, Ranked;
    OrdersRespectRearranging();
    Sorting.SortRelates(IdLe, Rearranged, ps, qs);
    SplitRearranged(Sorting.Sort(IdLe, ps), Sorting.Sort(IdLe, qs));
    Sorting.SortRelates(EdgeLe, Rearranged, Passing(Sorting.Sort(IdLe, ps)), Passing(Sorting.Sort(IdLe, qs)));
    SameRanked(Sorting.Sort(EdgeLe, Passing(Sorting.Sort(IdLe, ps))),
               Sorting.Sort(EdgeLe, Passing(Sorting.Sort(IdLe, qs))));
  }
}
