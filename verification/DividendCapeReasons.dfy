/** What the answers of the CAPE universe say: which input gives each reason, and what the score is. */
module DividendCapeReasons {
  import opened Collections
  import opened Common
  import opened Dividends
  import opened DividendCape
  import opened DividendReasons
  import C = DividendCapeTheorems
  import HashChain
  import T = DividendTheorems

  /** What of a CAPE observation gives the reason; timestamps are compared only where both carry a zone. */
  predicate ObservationGives(item: Input, decision: int, reason: CapeReason) {
    var c := item.cape;
    match reason
    case SymbolMismatch => c.symbol != item.history.symbol
    case CapeNotAware => c.observedAt.Naive? || c.receivedAt.Naive?
    case ReceivedBeforeObserved =>
      c.observedAt.Aware? && c.receivedAt.Aware? && c.receivedAt.instant < c.observedAt.instant
    case CapeLookahead => c.observedAt.Aware? && c.receivedAt.Aware? && decision < c.receivedAt.instant
    case RatioInvalid => c.ratio <= 0.0
    case CapeSourceInvalid => !HashChain.IsHash(c.source)
    case _ => false
  }

  /** Everything that keeps an input out: what keeps its company out of the first universe, and its own observation. */
  ghost predicate KeepsInputOut(item: Input, decision: int, p: Policy, reason: CapeReason) {
    || (reason.FromHistory? && KeepsOut(item.history, decision, p, reason.reason))
    || ObservationGives(item, decision, reason)
  }

  lemma CapeScreenIs(item: Input, decision: int, p: Policy)
    ensures forall reason :: reason in CapeScreen(item, decision, p) <==> KeepsInputOut(item, decision, p, reason)
  {
    hide Screen, KeepsOut;
    ScreenIs(item.history, decision, p);
    ObservationReasonsAre(item, decision);
    hide CapeReasons, ObservationGives;
  }

  lemma ObservationReasonsAre(item: Input, decision: int)
    ensures forall reason :: reason in CapeReasons(item, decision) <==> ObservationGives(item, decision, reason)
  {
  }

  /** An input is given a reason exactly when that keeps it out, and is a candidate exactly when nothing does. */
  lemma CapeReasonIsGivenExactlyWhen(e: CapeEvaluation, inputs: seq<Input>, decision: int, p: Policy, item: Input,
                                     reason: CapeReason)
    requires IsCapeEvaluation(e, inputs, decision, p) && item in inputs
    ensures item.history.symbol in e.rejected && reason in e.rejected[item.history.symbol]
       <==> KeepsInputOut(item, decision, p, reason)
    ensures item.history.symbol in e.rejected <==> exists any :: KeepsInputOut(item, decision, p, any)
  {
    hide CapeScreen, KeepsInputOut;
    CapeScreenIs(item, decision, p);
    assert Reports(e.rejected, item.history.symbol, CapeScreen(item, decision, p));
    if CapeScreen(item, decision, p) != {} {
      var any :| any in CapeScreen(item, decision, p);
      assert KeepsInputOut(item, decision, p, any);
    }
  }

  /** The entry's score times its CAPE is its efficiency, and that times the average payout is the average yield. */
  predicate ShowsScore(c: CapeEntry, item: Input) {
    && c.symbol == item.history.symbol && c.ratio == item.cape.ratio
    && c.score * c.ratio == c.efficiency
    && c.efficiency * TenYearAverage(DividendOverEarnings, item.history.observations)
       == TenYearAverage(DividendOverPrice, item.history.observations)
  }

  /** A candidate comes from an input that nothing keeps out, with the score of that input. */
  lemma CapeCandidateShowsScore(e: CapeEvaluation, inputs: seq<Input>, decision: int, p: Policy, k: nat)
    returns (item: Input)
    requires IsCapeEvaluation(e, inputs, decision, p) && k < |e.candidates|
    ensures item in inputs && forall reason :: !KeepsInputOut(item, decision, p, reason)
    ensures e.candidates[k].rank == k + 1 && ShowsScore(e.candidates[k].entry, item)
  {
    hide CapeScreen, KeepsInputOut, ShowsScore, C.IsCapeEntry;
    item := C.CandidateComesFrom(e, inputs, decision, p, k);
    CapeScreenIs(item, decision, p);
    EntryShowsScore(item, e.candidates[k].entry, decision, p);
  }

  lemma EntryShowsScore(item: Input, c: CapeEntry, decision: int, p: Policy)
    requires C.IsCapeEntry(item, c, decision, p)
    ensures CapeScreen(item, decision, p) == {} && ShowsScore(c, item)
  {
    hide Screen, Efficiency, TenYearAverage, CapeReasons, EvaluateHistory, Quotient;
    C.EntryPassed(item, c, decision, p);
    EntryShows(item.history, decision, p);
    T.EntryMeetsThePolicy(item.history, EntryOf(item.history, decision, p), decision, p);
    EfficiencyIs(EntryOf(item.history, decision, p).figures);
    ScoreTimesRatio(c);
  }

  lemma ScoreTimesRatio(c: CapeEntry)
    requires c.ratio > 0.0 && c.score == c.efficiency / c.ratio
    ensures c.score * c.ratio == c.efficiency
  {
  }
}
