/** The second gate: dividend candidates with a point-in-time CAPE observation, ranked by efficiency over CAPE. */
module DividendCape {
  import opened Collections
  import opened Common
  import opened Dividends
  import HashChain
  import Sorting
  import T = DividendTheorems

  datatype Cape = Cape(symbol: string, ratio: real, observedAt: Timestamp, receivedAt: Timestamp, source: string)

  datatype Input = Input(history: Company, cape: Cape)

  datatype CapeReason =
    | FromHistory(reason: Reason)
    | SymbolMismatch | CapeNotAware | ReceivedBeforeObserved | CapeLookahead | RatioInvalid | CapeSourceInvalid
    | HistoryNotAdmissible

  function Histories(inputs: seq<Input>): (r: seq<Company>)
    ensures |r| == |inputs|
  {
    seq(|inputs|, k requires 0 <= k < |inputs| => inputs[k].history)
  }

  function Lift(reasons: set<Reason>): set<CapeReason> {
    set r | r in reasons :: FromHistory(r)
  }

  /** What is wrong with the CAPE observation itself. */
  function CapeReasons(item: Input, decision: int): set<CapeReason> {
    var c := item.cape;
    var aware := c.observedAt.Aware? && c.receivedAt.Aware?;
    When(c.symbol != item.history.symbol, SymbolMismatch)
    + When(!aware, CapeNotAware)
    + When(aware && c.receivedAt.instant < c.observedAt.instant, ReceivedBeforeObserved)
    + When(aware && c.receivedAt.instant > decision, CapeLookahead)
    + When(c.ratio <= 0.0, RatioInvalid)
    + When(!HashChain.IsHash(c.source), CapeSourceInvalid)
  }

  /** Everything that keeps an input out: the reasons of both gates together. */
  function CapeScreen(item: Input, decision: int, p: Policy): set<CapeReason> {
    Lift(Screen(item.history, decision, p)) + CapeReasons(item, decision)
  }

  datatype CapeEntry = CapeEntry(symbol: string, ratio: real, efficiency: real, score: real)

  datatype CapeCandidate = CapeCandidate(rank: nat, entry: CapeEntry)

  predicate CapeLe(a: CapeEntry, b: CapeEntry) {
    a.score > b.score || (a.score == b.score && Sorting.StringLe(a.symbol, b.symbol))
  }

  predicate InputLe(a: Input, b: Input) {
    CompanyLe(a.history, b.history)
  }

  function Quotient(efficiency: real, ratio: real): real {
    if ratio == 0.0 then 0.0 else efficiency / ratio
  }

  function CapeEntryOf(item: Input, decision: int, p: Policy): (e: CapeEntry)
    requires CapeScreen(item, decision, p) == {}
    ensures e.symbol == item.history.symbol && e.ratio == item.cape.ratio
  {
    assert Lift(Screen(item.history, decision, p)) == {};
    LiftEmpty(Screen(item.history, decision, p));
    var efficiency := Efficiency(EntryOf(item.history, decision, p).figures);
    CapeEntry(item.history.symbol, item.cape.ratio, efficiency, Quotient(efficiency, item.cape.ratio))
  }

  lemma LiftEmpty(reasons: set<Reason>)
    ensures Lift(reasons) == {} <==> reasons == {}
  {
    if reasons != {} {
      var r :| r in reasons;
      assert FromHistory(r) in Lift(reasons);
    }
  }

  function CapeAdmitted(items: seq<Input>, decision: int, p: Policy): seq<CapeEntry> {
    if items == [] then []
    else
      var item := items[|items| - 1];
      CapeAdmitted(items[..|items| - 1], decision, p)
      + if CapeScreen(item, decision, p) == {} then [CapeEntryOf(item, decision, p)] else []
  }

  function CapeRanked(entries: seq<CapeEntry>): (r: seq<CapeCandidate>)
    ensures |r| == |entries|
    ensures forall k | 0 <= k < |r| :: r[k] == CapeCandidate(k + 1, entries[k])
  {
    seq(|entries|, k requires 0 <= k < |entries| => CapeCandidate(k + 1, entries[k]))
  }

  /** The rejections are a dictionary that is finally listed by symbol. */
  datatype CapeEvaluation = CapeEvaluation(candidates: seq<CapeCandidate>, rejected: map<string, set<CapeReason>>)

  /** Rejected are exactly the inputs that something keeps out, each with everything that does. */
  ghost predicate RejectsExactly(rejected: map<string, set<CapeReason>>, inputs: seq<Input>, decision: int, p: Policy) {
    && (forall item | item in inputs :: Reports(rejected, item.history.symbol, CapeScreen(item, decision, p)))
    && (forall s | s in rejected :: s in Symbols(Histories(inputs)))
  }

  predicate Reports(rejected: map<string, set<CapeReason>>, symbol: string, reasons: set<CapeReason>) {
    if reasons == {} then symbol !in rejected else symbol in rejected && rejected[symbol] == reasons
  }

  ghost predicate IsCapeEvaluation(e: CapeEvaluation, inputs: seq<Input>, decision: int, p: Policy) {
    && e.candidates == CapeRanked(Sorting.Sort(CapeLe, CapeAdmitted(Sorting.Sort(InputLe, inputs), decision, p)))
    && RejectsExactly(e.rejected, inputs, decision, p)
  }

  // ---------------------------------------------------------------- the program

  /** `{item.symbol: item for item in candidates}`, kept to the one field that is used. */
  method RankedBySymbol(candidates: seq<Candidate>) returns (ranked: map<string, real>)
    requires forall i, j | 0 <= i < j < |candidates| ::
               candidates[i].entry.symbol == candidates[j].entry.symbol
               ==> candidates[i].yieldPerPayout == candidates[j].yieldPerPayout
    ensures forall s :: s in ranked <==> exists k | 0 <= k < |candidates| :: candidates[k].entry.symbol == s
    ensures forall k | 0 <= k < |candidates| :: ranked[candidates[k].entry.symbol] == candidates[k].yieldPerPayout
  {
    ranked := map[];
    for i := 0 to |candidates|
      invariant forall s :: s in ranked <==> exists k | 0 <= k < i :: candidates[k].entry.symbol == s
      invariant forall k | 0 <= k < i ::
                  candidates[k].entry.symbol in ranked
                  && ranked[candidates[k].entry.symbol] == candidates[k].yieldPerPayout
    {
      ranked := ranked[candidates[i].entry.symbol := candidates[i].yieldPerPayout];
    }
  }

  method RejectedBySymbol(rejections: Rejections) returns (rejected: map<string, set<CapeReason>>)
    requires forall i, j | 0 <= i < j < |rejections| ::
               rejections[i].0 == rejections[j].0 ==> rejections[i].1 == rejections[j].1
    ensures forall s :: s in rejected <==> exists k | 0 <= k < |rejections| :: rejections[k].0 == s
    ensures forall k | 0 <= k < |rejections| :: rejected[rejections[k].0] == Lift(rejections[k].1)
  {
    rejected := map[];
    for i := 0 to |rejections|
      invariant forall s :: s in rejected <==> exists k | 0 <= k < i :: rejections[k].0 == s
      invariant forall k | 0 <= k < i ::
                  rejections[k].0 in rejected && rejected[rejections[k].0] == Lift(rejections[k].1)
    {
      rejected := rejected[rejections[i].0 := Lift(rejections[i].1)];
    }
  }

  /** The first gate's answer, as the second reads it; an input already judged has all its reasons listed. */
  ghost predicate Listed(rejected: map<string, set<CapeReason>>, item: Input, decision: int, p: Policy) {
    || Reports(rejected, item.history.symbol, Lift(Screen(item.history, decision, p)))
    || Reports(rejected, item.history.symbol, CapeScreen(item, decision, p))
  }

  ghost predicate Scored(ranked: map<string, real>, item: Input, decision: int, p: Policy) {
    var s, screen := item.history.symbol, Screen(item.history, decision, p);
    && (s in ranked <==> screen == {})
    && (screen == {} ==> ranked[s] == Efficiency(EntryOf(item.history, decision, p).figures))
  }

  /** One input of the second loop. The HistoryNotAdmissible branch is kept as the program has it. */
  method Judge(item: Input, ranked: map<string, real>, rejected: map<string, set<CapeReason>>, decision: int,
               ghost p: Policy)
    returns (reasons: set<CapeReason>, entry: CapeEntry)
    requires Listed(rejected, item, decision, p) && Scored(ranked, item, decision, p)
    ensures reasons == CapeScreen(item, decision, p)
    ensures reasons == {} ==> entry == CapeEntryOf(item, decision, p)
  {
    hide Screen, CapeReasons;
    var symbol := item.history.symbol;
    LiftEmpty(Screen(item.history, decision, p));
    reasons := (if symbol in rejected then rejected[symbol] else {}) + CapeReasons(item, decision);
    if symbol !in ranked && reasons == {} {
      reasons := reasons + {HistoryNotAdmissible};
    }
    entry := CapeEntry(symbol, item.cape.ratio, 0.0, 0.0);
    if reasons == {} {
      entry := CapeEntry(symbol, item.cape.ratio, ranked[symbol], Quotient(ranked[symbol], item.cape.ratio));
    }
  }

  lemma SameSymbolSameInput(inputs: seq<Input>, a: Input, b: Input)
    requires Distinct(Symbols(Histories(inputs))) && a in inputs && b in inputs && a.history.symbol == b.history.symbol
    ensures a == b
  {
    var i :| 0 <= i < |inputs| && inputs[i] == a;
    var j :| 0 <= j < |inputs| && inputs[j] == b;
    assert Symbols(Histories(inputs))[i] == Symbols(Histories(inputs))[j];
  }

  function Judged(rejected: map<string, set<CapeReason>>, symbol: string,
                  reasons: set<CapeReason>): map<string, set<CapeReason>>
  {
    if reasons == {} then rejected else rejected[symbol := reasons]
  }

  predicate Final(rejected: map<string, set<CapeReason>>, item: Input, decision: int, p: Policy) {
    Reports(rejected, item.history.symbol, CapeScreen(item, decision, p))
  }

  /** Judging one input settles it and leaves every other input's entry as it was. */
  lemma JudgedSettles(inputs: seq<Input>, rejected: map<string, set<CapeReason>>, item: Input, other: Input,
                      decision: int, p: Policy)
    requires Distinct(Symbols(Histories(inputs))) && item in inputs && other in inputs
    requires Listed(rejected, item, decision, p) && Listed(rejected, other, decision, p)
    ensures var after := Judged(rejected, item.history.symbol, CapeScreen(item, decision, p));
            && Listed(after, other, decision, p)
            && (other == item || Final(rejected, other, decision, p) ==> Final(after, other, decision, p))
  {
    hide Screen, CapeReasons;
    LiftEmpty(Screen(item.history, decision, p));
    if other.history.symbol == item.history.symbol {
      SameSymbolSameInput(inputs, item, other);
    }
  }

  ghost predicate FirstGate(ranked: map<string, real>, rejected: map<string, set<CapeReason>>, inputs: seq<Input>,
                            decision: int, p: Policy)
  {
    && (forall item | item in inputs :: Listed(rejected, item, decision, p) && Scored(ranked, item, decision, p))
    && (forall s | s in rejected :: s in Symbols(Histories(inputs)))
  }

  /** The second loop, over the inputs in symbol order. */
  method JudgeAll(ordered: seq<Input>, ranked: map<string, real>, listed: map<string, set<CapeReason>>, decision: int,
                  ghost p: Policy, ghost inputs: seq<Input>)
    returns (admitted: seq<CapeEntry>, rejected: map<string, set<CapeReason>>)
    requires Distinct(Symbols(Histories(inputs))) && FirstGate(ranked, listed, inputs, decision, p)
    requires forall item :: item in ordered <==> item in inputs
    ensures admitted == CapeAdmitted(ordered, decision, p)
    ensures RejectsExactly(rejected, inputs, decision, p)
  {
    hide CapeScreen, Listed, Scored, CapeEntryOf;
    admitted, rejected := [], listed;
    for k := 0 to |ordered|
      invariant admitted == CapeAdmitted(ordered[..k], decision, p)
      invariant forall item | item in inputs :: Listed(rejected, item, decision, p)
      invariant forall i | 0 <= i < k :: Final(rejected, ordered[i], decision, p)
      invariant forall s | s in rejected :: s in Symbols(Histories(inputs))
    {
      var item := ordered[k];
      assert item in inputs;
      assert ordered[..k + 1][..k] == ordered[..k] && ordered[..k + 1][k] == item;
      var reasons, entry := Judge(item, ranked, rejected, decision, p);
      forall other | other in inputs
        ensures Listed(Judged(rejected, item.history.symbol, reasons), other, decision, p)
        ensures other == item || Final(rejected, other, decision, p)
                ==> Final(Judged(rejected, item.history.symbol, reasons), other, decision, p)
      {
        JudgedSettles(inputs, rejected, item, other, decision, p);
      }
      SymbolIsListed(inputs, item);
      ghost var before := rejected;
      if reasons != {} {
        rejected := rejected[item.history.symbol := reasons];
      } else {
        admitted := admitted + [entry];
      }
      assert rejected == Judged(before, item.history.symbol, reasons);
    }
    assert ordered[..|ordered|] == ordered;
    forall item | item in inputs
      ensures Reports(rejected, item.history.symbol, CapeScreen(item, decision, p))
    {
      assert item in ordered;
      var i :| 0 <= i < |ordered| && ordered[i] == item;
      assert Final(rejected, ordered[i], decision, p);
    }
  }

  lemma SymbolIsListed(inputs: seq<Input>, item: Input)
    requires item in inputs
    ensures item.history.symbol in Symbols(Histories(inputs)) && item.history in Histories(inputs)
  {
    var i :| 0 <= i < |inputs| && inputs[i] == item;
    assert Histories(inputs)[i] == item.history && Symbols(Histories(inputs))[i] == item.history.symbol;
  }

  // ---------------------------------------------------------------- the first gate, as a dictionary

  lemma OneFigureEach(companies: seq<Company>, decision: int, p: Policy)
    requires Distinct(Symbols(companies))
    ensures var cs := Universe(companies, decision, p).candidates;
            forall i, j | 0 <= i < j < |cs| ::
              cs[i].entry.symbol == cs[j].entry.symbol ==> cs[i].yieldPerPayout == cs[j].yieldPerPayout
    ensures var rs := Universe(companies, decision, p).rejected;
            forall i, j | 0 <= i < j < |rs| :: rs[i].0 == rs[j].0 ==> rs[i].1 == rs[j].1
  {
    hide Screen, EntryOf, Efficiency;
    T.UniverseIsAPartition(companies, decision, p);
    T.RanksFollowScores(companies, decision, p);
    hide Universe;
    var e := Universe(companies, decision, p);
    forall i, j | 0 <= i < j < |e.candidates| && e.candidates[i].entry.symbol == e.candidates[j].entry.symbol
      ensures e.candidates[i].yieldPerPayout == e.candidates[j].yieldPerPayout
    {
      var a :| a in companies && T.IsEntry(a, e.candidates[i].entry, decision, p);
      var b :| b in companies && T.IsEntry(b, e.candidates[j].entry, decision, p);
      T.SameSymbolSameCompany(companies, a, b);
    }
    forall i, j | 0 <= i < j < |e.rejected| && e.rejected[i].0 == e.rejected[j].0
      ensures e.rejected[i].1 == e.rejected[j].1
    {
      var a :| a in companies && T.IsRejection(a, e.rejected[i], decision, p);
      var b :| b in companies && T.IsRejection(b, e.rejected[j], decision, p);
      T.SameSymbolSameCompany(companies, a, b);
    }
  }

  /** What the two dictionaries hold, in terms of the first gate's lists. */
  ghost predicate AreDictionaries(ranked: map<string, real>, rejected: map<string, set<CapeReason>>, e: Evaluation) {
    && (forall s :: s in ranked <==> T.IsCandidate(e, s))
    && (forall k | 0 <= k < |e.candidates| ::
          e.candidates[k].entry.symbol in ranked
          && ranked[e.candidates[k].entry.symbol] == e.candidates[k].yieldPerPayout)
    && (forall s :: s in rejected <==> T.IsRejected(e, s))
    && (forall k | 0 <= k < |e.rejected| ::
          e.rejected[k].0 in rejected && rejected[e.rejected[k].0] == Lift(e.rejected[k].1))
  }

  lemma ItemThroughTheGate(ranked: map<string, real>, rejected: map<string, set<CapeReason>>, companies: seq<Company>,
                           item: Input, decision: int, p: Policy)
    requires Distinct(Symbols(companies)) && item.history in companies
    requires AreDictionaries(ranked, rejected, Universe(companies, decision, p))
    ensures Listed(rejected, item, decision, p) && Scored(ranked, item, decision, p)
  {
    hide Screen, EntryOf, Efficiency, CapeScreen;
    var c, screen := item.history, Screen(item.history, decision, p);
    T.UniverseIsAPartition(companies, decision, p);
    T.RanksFollowScores(companies, decision, p);
    hide Universe;
    var e := Universe(companies, decision, p);
    assert T.GoesOneWay(e, c, decision, p);
    LiftEmpty(screen);
    if screen == {} {
      var k :| 0 <= k < |e.candidates| && e.candidates[k].entry.symbol == c.symbol;
      var d :| d in companies && T.IsEntry(d, e.candidates[k].entry, decision, p);
      T.SameSymbolSameCompany(companies, c, d);
    } else {
      var k :| 0 <= k < |e.rejected| && e.rejected[k].0 == c.symbol;
      var d :| d in companies && T.IsRejection(d, e.rejected[k], decision, p);
      T.SameSymbolSameCompany(companies, c, d);
    }
  }

  lemma RejectedAreListed(e: Evaluation, companies: seq<Company>, decision: int, p: Policy, s: string)
    requires Distinct(Symbols(companies)) && e == Universe(companies, decision, p) && T.IsRejected(e, s)
    ensures s in Symbols(companies)
  {
    hide Screen, EntryOf, Universe;
    T.UniverseIsAPartition(companies, decision, p);
    var k :| 0 <= k < |e.rejected| && e.rejected[k].0 == s;
    var d :| d in companies && T.IsRejection(d, e.rejected[k], decision, p);
    var i :| 0 <= i < |companies| && companies[i] == d;
    assert Symbols(companies)[i] == s;
  }

  method EvaluateCapeUniverse(inputs: seq<Input>, decision: Timestamp, p: Policy)
    returns (r: Result<CapeEvaluation, DividendError>)
    ensures var refused := Refused(Histories(inputs), decision);
            if refused.Some? then r == Err(refused.value)
            else r.Ok? && IsCapeEvaluation(r.value, inputs, decision.instant, p)
  {
    hide Screen, CapeScreen, Universe, Listed, Scored, GoodSymbols;
    if inputs == [] {
      return Err(EmptyUniverse);
    }
    var histories := Histories(inputs);
    if !GoodSymbols(histories) {
      return Err(SymbolsInvalid);
    }
    DistinctSymbols(histories);
    var universe := EvaluateUniverse(histories, decision, p);
    if universe.Err? {
      return Err(universe.error);
    }
    var t := decision.instant;
    OneFigureEach(histories, t, p);
    var ranked := RankedBySymbol(universe.value.candidates);
    var listed := RejectedBySymbol(universe.value.rejected);
    assert AreDictionaries(ranked, listed, universe.value);
    forall item | item in inputs
      ensures Listed(listed, item, t, p) && Scored(ranked, item, t, p)
    {
      SymbolIsListed(inputs, item);
      ItemThroughTheGate(ranked, listed, histories, item, t, p);
    }
    forall s | s in listed
      ensures s in Symbols(histories)
    {
      RejectedAreListed(universe.value, histories, t, p, s);
    }
    var ordered := Sorting.Sort(InputLe, inputs);
    Sorting.SortPermutes(InputLe, inputs);
    var admitted, rejected := JudgeAll(ordered, ranked, listed, t, p, inputs);
    return Ok(CapeEvaluation(CapeRanked(Sorting.Sort(CapeLe, admitted)), rejected));
  }

  lemma DistinctSymbols(companies: seq<Company>)
    requires GoodSymbols(companies)
    ensures Distinct(Symbols(companies))
  {
  }
}
