/**
 * What the answers of the arbitrage universe say: which package gives each refusal and reason, and
 * what its edge is.
 */
module ArbitrageReasons {
  import opened Collections
  import opened Common
  import opened Sums
  import opened Arbitrage
  import A = ArbitrageTheorems
  import HashChain
  import Sorting

  // ---------------------------------------------------------------- one package

  /** Which packages are malformed, and how, in the order of the checks. */
  lemma MalformedExactlyWhen(p: Package)
    ensures var unfit := |p.legs| < 2 || p.quantity < 1 || p.multiplier < 1;
            var twice := exists i, j | 0 <= i < j < |p.legs| :: p.legs[i].id == p.legs[j].id;
            var owed := p.fees < 0.0 || p.slippage < 0.0 || p.financing < 0.0 || p.buffer < 0.0;
            && (Malformed(p) == Some(PackageIncomplete) <==> unfit)
            && (Malformed(p) == Some(DuplicateLegs) <==> !unfit && twice)
            && (Malformed(p) == Some(NegativeCost) <==> !unfit && !twice && owed)
            && (Malformed(p) == None <==> !unfit && !twice && !owed)
  {
    var ids := Sorting.Map(Id, p.legs);
    assert forall i | 0 <= i < |ids| :: ids[i] == p.legs[i].id;
    if i, j :| 0 <= i < j < |p.legs| && p.legs[i].id == p.legs[j].id {
      assert ids[i] == ids[j];
    }
    if !Distinct(ids) {
      var i, j :| 0 <= i < j < |ids| && ids[i] == ids[j];
      assert p.legs[i].id == p.legs[j].id;
    }
  }

  /** What a unit of a leg brings: a sale its bid, a purchase its ask, which is paid. */
  function Brings(l: Leg): real {
    match l.side
    case Sell => l.bid
    case Buy => -l.ask
  }

  /** The cash that the package brings at the executable side of every quote. */
  function ExecutableCash(p: Package): real {
    (p.quantity * p.multiplier) as real * Sum(Sorting.Map(Brings, p.legs))
  }

  function EdgeAfterCosts(p: Package): real {
    ExecutableCash(p) + p.terminalValue - (p.fees + p.slippage + p.financing)
  }

  lemma {:induction false} CashIs(legs: seq<Leg>, units: int)
    ensures EntryCashflow(legs, units) == units as real * Sum(Sorting.Map(Brings, legs))
  {
    var flows, each := Sorting.Map(ExecutableFlow(units), legs), Sorting.Map(Brings, legs);
    if legs != [] {
      var n := |legs| - 1;
      CashIs(legs[..n], units);
      assert flows[..n] == Sorting.Map(ExecutableFlow(units), legs[..n]);
      assert each[..n] == Sorting.Map(Brings, legs[..n]);
      OneLeg(legs[n], units);
      Distribute(units as real, Sum(each[..n]), each[n], Sum(each));
    }
  }

  lemma OneLeg(l: Leg, units: int)
    ensures Flow(l.side, ExecutablePrice(l), units) == units as real * Brings(l)
  {
  }

  lemma EdgeIs(p: Package)
    ensures EntryCashflow(p.legs, Units(p)) == ExecutableCash(p) && NetEdge(p) == EdgeAfterCosts(p)
  {
    hide EntryCashflow;
    CashIs(p.legs, Units(p));
    assert Units(p) == p.quantity * p.multiplier;
  }

  /** What of a package gives the reason; quotes are compared only where all carry a zone. */
  ghost predicate PackageGives(p: Package, reason: Reason) {
    match reason
    case QuoteNotAware => exists l | l in p.legs :: l.quotedAt.Naive?
    case QuotesNotSynchronized =>
      && (forall l | l in p.legs :: l.quotedAt.Aware?)
      && exists a, b | a in p.legs && b in p.legs :: a.quotedAt.instant > b.quotedAt.instant + 1_000_000
    case SettlementMismatch => exists a, b | a in p.legs && b in p.legs :: a.settlement != b.settlement
    case InsufficientDepth => exists l | l in p.legs :: l.size < p.quantity
    case InvalidQuote => exists l | l in p.legs :: l.bid < 0.0 || l.ask <= 0.0 || l.ask < l.bid
    case SourceHashInvalid => exists l | l in p.legs :: !HashChain.IsHash(l.source)
    case EdgeBelowBuffer => EdgeAfterCosts(p) < p.buffer
  }

  lemma ReasonsAre(p: Package)
    ensures forall reason :: reason in Reasons(p) <==> PackageGives(p, reason)
  {
    hide PackageGives;
    EdgeIs(p);
    forall reason
      ensures reason in Reasons(p) <==> PackageGives(p, reason)
    {
      ReasonsOf(p, reason);
      Given(p, reason);
    }
  }

  /** What the reason is added for. */
  predicate AddedFor(p: Package, reason: Reason) {
    match reason
    case QuoteNotAware => SomeNaive(p.legs)
    case QuotesNotSynchronized => !SomeNaive(p.legs) && Spread(p.legs)
    case SettlementMismatch => SettleApart(p.legs)
    case InsufficientDepth => SomeShallow(p.legs, p.quantity)
    case InvalidQuote => SomeBadQuote(p.legs)
    case SourceHashInvalid => SomeBadSource(p.legs)
    case EdgeBelowBuffer => NetEdge(p) < p.buffer
  }

  lemma ReasonsOf(p: Package, reason: Reason)
    ensures reason in Reasons(p) <==> AddedFor(p, reason)
  {
    hide SomeNaive, Spread, SettleApart, SomeShallow, SomeBadQuote, SomeBadSource, NetEdge;
  }

  lemma Given(p: Package, reason: Reason)
    requires NetEdge(p) == EdgeAfterCosts(p)
    ensures AddedFor(p, reason) <==> PackageGives(p, reason)
  {
    hide NetEdge, EdgeAfterCosts, HashChain.IsHash;
  }

  // ---------------------------------------------------------------- the universe

  ghost predicate Unnamed(ps: seq<Package>) {
    exists i | 0 <= i < |ps| :: ps[i].id == ""
  }

  ghost predicate Repeated(ps: seq<Package>) {
    exists i, j | 0 <= i < j < |ps| :: ps[i].id == ps[j].id
  }

  /** The package is malformed so, and no malformed one comes before it in the order of the names. */
  ghost predicate FirstMalformedIs(ps: seq<Package>, p: Package, error: ArbitrageError) {
    p in ps && Malformed(p) == Some(error)
    && forall q | q in ps && Malformed(q).Some? :: Sorting.StringLe(p.id, q.id)
  }

  lemma IdsAre(ps: seq<Package>)
    ensures var ids := Sorting.Map(PackageId, ps);
            ("" in ids <==> Unnamed(ps)) && (Distinct(ids) <==> !Repeated(ps))
  {
    var ids := Sorting.Map(PackageId, ps);
    assert forall i | 0 <= i < |ids| :: ids[i] == ps[i].id;
    if i :| 0 <= i < |ps| && ps[i].id == "" {
      assert ids[i] in ids;
    }
    if "" in ids {
      var i :| 0 <= i < |ids| && ids[i] == "";
      assert ps[i].id == "";
    }
    if !Distinct(ids) {
      var i, j :| 0 <= i < j < |ids| && ids[i] == ids[j];
      assert ps[i].id == ps[j].id;
    }
    if i, j :| 0 <= i < j < |ps| && ps[i].id == ps[j].id {
      assert ids[i] == ids[j];
    }
  }

  lemma {:induction false} FirstOfSorted(ordered: seq<Package>)
    requires Sorting.SortedBy(IdLe, ordered)
    ensures FirstMalformed(ordered).None? <==> forall p | p in ordered :: Malformed(p).None?
    ensures FirstMalformed(ordered).Some? ==> exists p :: FirstMalformedIs(ordered, p, FirstMalformed(ordered).value)
  {
    hide Malformed, Sorting.StringLe;
    if ordered != [] {
      var before, last := ordered[..|ordered| - 1], ordered[|ordered| - 1];
      FirstOfSorted(before);
      forall q | q in before
        ensures Sorting.StringLe(q.id, last.id)
      {
        var k :| 0 <= k < |before| && before[k] == q;
        assert IdLe(ordered[k], last);
      }
      SameName(last);
      if FirstMalformed(before).Some? {
        var p :| FirstMalformedIs(before, p, FirstMalformed(before).value);
        assert FirstMalformedIs(ordered, p, FirstMalformed(ordered).value);
      } else if Malformed(last).Some? {
        assert FirstMalformedIs(ordered, last, FirstMalformed(ordered).value);
      }
    }
  }

  lemma IdOrder()
    ensures Sorting.IsOrder(IdLe)
  {
    Sorting.StringOrder();
  }

  lemma SameName(p: Package)
    ensures Sorting.StringLe(p.id, p.id)
  {
    Sorting.StringLeTotal(p.id, p.id);
  }

  /** Empty, unnamed or repeated packages are refused, then the first malformed one in the order of the names. */
  lemma RefusedExactlyWhen(ps: seq<Package>)
    ensures var answer := Answer(ps);
            && (answer == Err(EmptyUniverse) <==> ps == [])
            && (answer == Err(IdsInvalid) <==> Unnamed(ps) || Repeated(ps))
            && (answer.Ok? <==>
                  ps != [] && !Unnamed(ps) && !Repeated(ps) && forall p | p in ps :: Malformed(p).None?)
            && (answer.Err? && answer.error !in {EmptyUniverse, IdsInvalid} ==>
                  exists p :: FirstMalformedIs(ps, p, answer.error))
  {
    hide Malformed, Universe, Sorting.Sort, Sorting.StringLe;
    IdsAre(ps);
    IdOrder();
    var ordered := Sorting.Sort(IdLe, ps);
    Sorting.SortPermutes(IdLe, ps);
    Sorting.SortSorts(IdLe, ps);
    FirstOfSorted(ordered);
    MalformedIsSpecial(ps);
    if FirstMalformed(ordered).Some? {
      var p :| FirstMalformedIs(ordered, p, FirstMalformed(ordered).value);
      assert FirstMalformedIs(ps, p, FirstMalformed(ordered).value);
    }
  }

  lemma MalformedIsSpecial(ps: seq<Package>)
    ensures forall p | p in ps && Malformed(p).Some? :: Malformed(p).value !in {EmptyUniverse, IdsInvalid}
  {
  }

  /** The candidate shows the package: its cash, its edge after costs, and the digests of its sources in order. */
  ghost predicate ShowsPackage(c: Candidate, p: Package) {
    && c.id == p.id && c.cashflow == ExecutableCash(p) && c.edge == EdgeAfterCosts(p)
    && multiset(c.sources) == multiset(Sorting.Map(Source, p.legs))
    && Sorting.SortedBy(Sorting.StringLe, c.sources)
  }

  lemma CandidateShows(rank: nat, p: Package)
    ensures ShowsPackage(CandidateOf(rank, p), p)
  {
    hide EntryCashflow, NetEdge, Sorting.StringLe, ExecutableCash, EdgeAfterCosts;
    EdgeIs(p);
    Sorting.StringOrder();
    Sorting.SortPermutes(Sorting.StringLe, Sorting.Map(Source, p.legs));
    Sorting.SortSorts(Sorting.StringLe, Sorting.Map(Source, p.legs));
  }

  ghost predicate Rejects(e: Evaluation, p: Package) {
    exists k | 0 <= k < |e.rejected| :: e.rejected[k].0 == p.id
  }

  ghost predicate Gives(e: Evaluation, p: Package, reason: Reason) {
    exists k | 0 <= k < |e.rejected| :: e.rejected[k].0 == p.id && reason in e.rejected[k].1
  }

  ghost predicate Ranks(e: Evaluation, p: Package) {
    exists k | 0 <= k < |e.candidates| :: ShowsPackage(e.candidates[k], p)
  }

  /**
   * With distinct names a package is given a reason exactly when it gives it, is rejected exactly
   * with one, and is a candidate that shows its edge otherwise.
   */
  lemma ReasonIsGivenExactlyWhen(ps: seq<Package>, p: Package, reason: Reason)
    requires !Repeated(ps) && p in ps
    ensures var e := Universe(ps);
            && (Gives(e, p, reason) <==> PackageGives(p, reason))
            && (Rejects(e, p) <==> exists any :: PackageGives(p, any))
            && (Rejects(e, p) || Ranks(e, p))
  {
    hide Reasons, PackageGives, ShowsPackage, CandidateOf, Universe, Repeated;
    var e := Universe(ps);
    var passed, failed := A.UniverseIsAPartition(ps);
    ReasonsAre(p);
    forall q | q in passed || q in failed
      ensures q in ps && (q.id == p.id ==> q == p)
    {
      assert multiset(ps)[q] == multiset(passed)[q] + multiset(failed)[q];
      OneName(ps, p, q);
    }
    assert multiset(ps)[p] == multiset(passed)[p] + multiset(failed)[p];
    if p in failed {
      var k :| 0 <= k < |failed| && failed[k] == p;
      assert e.rejected[k] == Rejection(failed[k]);
      var any :| any in Reasons(p);
      assert PackageGives(p, any);
    } else {
      assert p in passed;
      var k :| 0 <= k < |passed| && passed[k] == p;
      CandidateShows(k + 1, p);
      assert ShowsPackage(e.candidates[k], p);
    }
    forall k | 0 <= k < |e.rejected|
      ensures e.rejected[k] == (failed[k].id, Reasons(failed[k]))
    {
    }
  }

  lemma OneName(ps: seq<Package>, p: Package, q: Package)
    requires !Repeated(ps) && p in ps && q in ps
    ensures q.id == p.id ==> q == p
  {
    var i :| 0 <= i < |ps| && ps[i] == p;
    var j :| 0 <= j < |ps| && ps[j] == q;
  }

  predicate NamesAscend(e: Evaluation) {
    forall i, j | 0 <= i < j < |e.rejected| :: Sorting.StringLe(e.rejected[i].0, e.rejected[j].0)
  }

  /** The rejections are listed by name. */
  lemma RejectionsFollowNames(ps: seq<Package>)
    ensures NamesAscend(Universe(ps))
  {
    hide Reasons, Sorting.StringLe, Sorting.Sort;
    IdOrder();
    Sorting.SortSorts(IdLe, ps);
    var failed := Failing(Sorting.Sort(IdLe, ps));
    FailingAscends(Sorting.Sort(IdLe, ps));
    forall i, j | 0 <= i < j < |failed|
      ensures Sorting.StringLe(failed[i].id, failed[j].id)
    {
      assert IdLe(failed[i], failed[j]);
    }
  }

  lemma {:induction false} FailingAscends(ordered: seq<Package>)
    requires Sorting.SortedBy(IdLe, ordered)
    ensures Sorting.SortedBy(IdLe, Failing(ordered))
  {
    hide Reasons, IdLe;
    if ordered != [] {
      var before, last := ordered[..|ordered| - 1], ordered[|ordered| - 1];
      FailingAscends(before);
      FailingBelow(before, last);
    }
  }

  lemma {:induction false} FailingBelow(ordered: seq<Package>, last: Package)
    requires forall k | 0 <= k < |ordered| :: IdLe(ordered[k], last)
    ensures forall k | 0 <= k < |Failing(ordered)| :: IdLe(Failing(ordered)[k], last)
  {
    hide Reasons, IdLe;
    if ordered != [] {
      FailingBelow(ordered[..|ordered| - 1], last);
    }
  }
}
