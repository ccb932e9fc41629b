/** What the two dividend gates promise together. */
module DividendCapeTheorems {
  import opened Collections
  import opened Dividends
  import opened DividendCape
  import Sorting
  import T = DividendTheorems

  predicate IsCapeEntry(item: Input, e: CapeEntry, decision: int, p: Policy) {
    CapeScreen(item, decision, p) == {} && e == CapeEntryOf(item, decision, p)
  }

  ghost predicate IsCapeCandidate(e: CapeEvaluation, item: Input, decision: int, p: Policy) {
    exists k | 0 <= k < |e.candidates| :: IsCapeEntry(item, e.candidates[k].entry, decision, p)
  }

  lemma {:induction false} CapeAdmittedAre(items: seq<Input>, decision: int, p: Policy)
    ensures forall item | item in items && CapeScreen(item, decision, p) == {} ::
              CapeEntryOf(item, decision, p) in CapeAdmitted(items, decision, p)
    ensures forall e | e in CapeAdmitted(items, decision, p) ::
              exists item :: item in items && IsCapeEntry(item, e, decision, p)
  {
    hide CapeScreen, CapeEntryOf;
    if items != [] {
      var before, last := items[..|items| - 1], items[|items| - 1];
      CapeAdmittedAre(before, decision, p);
      assert items == before + [last];
      forall e | e in CapeAdmitted(items, decision, p)
        ensures exists item :: item in items && IsCapeEntry(item, e, decision, p)
      {
        if e in CapeAdmitted(before, decision, p) {
          var item :| item in before && IsCapeEntry(item, e, decision, p);
          assert item in items;
        } else {
          assert IsCapeEntry(last, e, decision, p);
        }
      }
    }
  }

  lemma NotAmongTheReasons(item: Input, decision: int, p: Policy)
    ensures HistoryNotAdmissible !in CapeScreen(item, decision, p)
  {
    hide Screen;
    assert HistoryNotAdmissible !in Lift(Screen(item.history, decision, p));
    assert HistoryNotAdmissible !in CapeReasons(item, decision);
  }

  /** The reasons of both gates are all a rejection can show: the extra HistoryNotAdmissible code is never given. */
  lemma HistoryNotAdmissibleIsNeverGiven(e: CapeEvaluation, inputs: seq<Input>, decision: int, p: Policy, s: string)
    requires IsCapeEvaluation(e, inputs, decision, p) && s in e.rejected
    ensures HistoryNotAdmissible !in e.rejected[s] && e.rejected[s] != {}
  {
    hide CapeScreen, CapeRanked;
    var histories := Histories(inputs);
    var i :| 0 <= i < |inputs| && Symbols(histories)[i] == s;
    var item := inputs[i];
    assert item in inputs;
    assert Reports(e.rejected, item.history.symbol, CapeScreen(item, decision, p));
    NotAmongTheReasons(item, decision, p);
  }

  lemma CandidateOf(e: CapeEvaluation, inputs: seq<Input>, decision: int, p: Policy, item: Input)
    requires IsCapeEvaluation(e, inputs, decision, p) && item in inputs
    ensures IsCapeCandidate(e, item, decision, p) <==> CapeScreen(item, decision, p) == {}
  {
    hide CapeScreen, CapeEntryOf;
    var ordered := Sorting.Sort(InputLe, inputs);
    var admitted := CapeAdmitted(ordered, decision, p);
    var sorted := Sorting.Sort(CapeLe, admitted);
    Sorting.SortPermutes(InputLe, inputs);
    Sorting.SortPermutes(CapeLe, admitted);
    CapeAdmittedAre(ordered, decision, p);
    if CapeScreen(item, decision, p) == {} {
      assert item in ordered && CapeEntryOf(item, decision, p) in sorted;
      var k :| 0 <= k < |sorted| && sorted[k] == CapeEntryOf(item, decision, p);
      assert IsCapeEntry(item, e.candidates[k].entry, decision, p);
    }
  }

  function SymbolOf(item: Input): string {
    item.history.symbol
  }

  /** The symbols of the inputs that something keeps out. */
  function FailingSymbols(items: seq<Input>, decision: int, p: Policy): set<string> {
    set k | 0 <= k < |items| && CapeScreen(items[k], decision, p) != {} :: SymbolOf(items[k])
  }

  lemma {:induction false} EachOnce(items: seq<Input>, decision: int, p: Policy)
    requires Distinct(Sorting.Map(SymbolOf, items))
    ensures |CapeAdmitted(items, decision, p)| + |FailingSymbols(items, decision, p)| == |items|
  {
    hide CapeScreen, CapeEntryOf;
    if items != [] {
      var n := |items| - 1;
      assert Sorting.Map(SymbolOf, items[..n]) == Sorting.Map(SymbolOf, items)[..n];
      EachOnce(items[..n], decision, p);
      LastFails(items, decision, p);
    }
  }

  lemma LastFails(items: seq<Input>, decision: int, p: Policy)
    requires items != [] && Distinct(Sorting.Map(SymbolOf, items))
    ensures var n := |items| - 1;
            && SymbolOf(items[n]) !in FailingSymbols(items[..n], decision, p)
            && FailingSymbols(items, decision, p)
               == FailingSymbols(items[..n], decision, p)
                    + if CapeScreen(items[n], decision, p) != {} then {SymbolOf(items[n])} else {}
  {
    hide CapeScreen;
    var n := |items| - 1;
    var all, some := FailingSymbols(items, decision, p), FailingSymbols(items[..n], decision, p);
    forall k | 0 <= k < n
      ensures SymbolOf(items[k]) != SymbolOf(items[n])
    {
      assert Sorting.Map(SymbolOf, items)[k] != Sorting.Map(SymbolOf, items)[n];
    }
    forall s
      ensures s in all <==> s in some || (CapeScreen(items[n], decision, p) != {} && s == SymbolOf(items[n]))
    {
      if s in some {
        var k :| 0 <= k < n && CapeScreen(items[..n][k], decision, p) != {} && SymbolOf(items[..n][k]) == s;
        assert items[k] == items[..n][k];
      }
    }
  }

  lemma RejectedKeys(e: CapeEvaluation, inputs: seq<Input>, ordered: seq<Input>, decision: int, p: Policy)
    requires RejectsExactly(e.rejected, inputs, decision, p) && forall item :: item in ordered <==> item in inputs
    ensures e.rejected.Keys == FailingSymbols(ordered, decision, p)
  {
    hide CapeScreen;
    forall s
      ensures s in e.rejected.Keys <==> s in FailingSymbols(ordered, decision, p)
    {
      if s in e.rejected {
        var i :| 0 <= i < |inputs| && Symbols(Histories(inputs))[i] == s;
        assert inputs[i] in inputs && inputs[i] in ordered;
        assert Reports(e.rejected, s, CapeScreen(inputs[i], decision, p));
        var k :| 0 <= k < |ordered| && ordered[k] == inputs[i];
      }
      if s in FailingSymbols(ordered, decision, p) {
        var k :| 0 <= k < |ordered| && CapeScreen(ordered[k], decision, p) != {} && SymbolOf(ordered[k]) == s;
        assert ordered[k] in inputs;
      }
    }
  }

  /**
   * Every input is a candidate exactly when no reason of either gate holds, and rejected with all
   * of them otherwise; with distinct symbols each appears once.
   */
  lemma CapeUniverseIsAPartition(e: CapeEvaluation, inputs: seq<Input>, decision: int, p: Policy)
    requires IsCapeEvaluation(e, inputs, decision, p)
    ensures Distinct(Symbols(Histories(inputs))) ==> |e.candidates| + |e.rejected| == |inputs|
    ensures forall item | item in inputs ::
              && (IsCapeCandidate(e, item, decision, p) <==> item.history.symbol !in e.rejected)
              && (item.history.symbol in e.rejected
                  ==> e.rejected[item.history.symbol] == CapeScreen(item, decision, p))
  {
    hide CapeScreen, IsCapeCandidate;
    forall item | item in inputs
      ensures IsCapeCandidate(e, item, decision, p) <==> item.history.symbol !in e.rejected
      ensures item.history.symbol in e.rejected ==> e.rejected[item.history.symbol] == CapeScreen(item, decision, p)
    {
      CandidateOf(e, inputs, decision, p, item);
      assert Reports(e.rejected, item.history.symbol, CapeScreen(item, decision, p));
    }
    if Distinct(Symbols(Histories(inputs))) {
      CapeCount(e, inputs, decision, p);
    }
  }

  lemma CapeCount(e: CapeEvaluation, inputs: seq<Input>, decision: int, p: Policy)
    requires IsCapeEvaluation(e, inputs, decision, p) && Distinct(Symbols(Histories(inputs)))
    ensures |e.candidates| + |e.rejected| == |inputs|
  {
    hide CapeScreen, CapeAdmitted, RejectsExactly;
    var ordered := Sorting.Sort(InputLe, inputs);
    Sorting.SortPermutes(InputLe, inputs);
    Sorting.SortPermutes(CapeLe, CapeAdmitted(ordered, decision, p));
    assert Symbols(Histories(inputs)) == Sorting.Map(SymbolOf, inputs);
    Sorting.MapPermutes(SymbolOf, inputs, ordered);
    Sorting.DistinctPermutes(Sorting.Map(SymbolOf, inputs), Sorting.Map(SymbolOf, ordered));
    EachOnce(ordered, decision, p);
    RejectedKeys(e, inputs, ordered, decision, p);
    assert |e.rejected| == |e.rejected.Keys|;
  }

  lemma CandidateComesFrom(e: CapeEvaluation, inputs: seq<Input>, decision: int, p: Policy, k: nat)
    returns (item: Input)
    requires IsCapeEvaluation(e, inputs, decision, p) && k < |e.candidates|
    ensures item in inputs && IsCapeEntry(item, e.candidates[k].entry, decision, p)
  {
    hide CapeScreen, CapeEntryOf;
    var ordered := Sorting.Sort(InputLe, inputs);
    var admitted := CapeAdmitted(ordered, decision, p);
    Sorting.SortPermutes(InputLe, inputs);
    Sorting.SortPermutes(CapeLe, admitted);
    CapeAdmittedAre(ordered, decision, p);
    assert e.candidates[k].entry in admitted;
    item :| item in ordered && IsCapeEntry(item, e.candidates[k].entry, decision, p);
  }

  /** The item passed the first gate with this efficiency. */
  predicate Passed(item: Input, c: CapeEntry, decision: int, p: Policy) {
    && item.history.symbol == c.symbol
    && Screen(item.history, decision, p) == {}
    && c.efficiency == Efficiency(EntryOf(item.history, decision, p).figures)
  }

  lemma EntryPassed(item: Input, c: CapeEntry, decision: int, p: Policy)
    requires IsCapeEntry(item, c, decision, p)
    ensures Passed(item, c, decision, p) && c.ratio > 0.0 && c.score == c.efficiency / c.ratio
  {
    hide Screen, EntryOf, CapeReasons;
    BothGates(item, decision, p);
  }

  /**
   * A CAPE candidate is a candidate of the dividend universe too, scored by that universe's
   * efficiency over its CAPE.
   */
  lemma CapeCandidatesPassedTheFirstGate(e: CapeEvaluation, inputs: seq<Input>, decision: int, p: Policy, k: nat)
    requires IsCapeEvaluation(e, inputs, decision, p) && Distinct(Symbols(Histories(inputs))) && k < |e.candidates|
    ensures var c := e.candidates[k].entry;
            && T.IsCandidate(Universe(Histories(inputs), decision, p), c.symbol)
            && c.ratio > 0.0 && c.score == c.efficiency / c.ratio
            && exists item :: item in inputs && Passed(item, c, decision, p)
  {
    hide Screen, EntryOf, CapeScreen, CapeEntryOf, Universe;
    var item := CandidateComesFrom(e, inputs, decision, p, k);
    EntryPassed(item, e.candidates[k].entry, decision, p);
    SymbolIsListed(inputs, item);
    T.UniverseIsAPartition(Histories(inputs), decision, p);
    assert T.GoesOneWay(Universe(Histories(inputs), decision, p), item.history, decision, p);
  }

  lemma BothGates(item: Input, decision: int, p: Policy)
    requires CapeScreen(item, decision, p) == {}
    ensures Screen(item.history, decision, p) == {} && item.cape.ratio > 0.0
  {
    hide Screen;
    LiftEmpty(Screen(item.history, decision, p));
    assert RatioInvalid !in CapeReasons(item, decision);
  }

  lemma CapeOrder()
    ensures Sorting.IsOrder(CapeLe)
  {
    hide Sorting.StringLe;
    Sorting.StringOrder();
    forall a, b, c | CapeLe(a, b) && CapeLe(b, c)
      ensures CapeLe(a, c)
    {
    }
  }

  lemma CapeRanksFollowScores(e: CapeEvaluation, inputs: seq<Input>, decision: int, p: Policy)
    requires IsCapeEvaluation(e, inputs, decision, p)
    ensures forall k | 0 <= k < |e.candidates| :: e.candidates[k].rank == k + 1
    ensures forall i, j | 0 <= i < j < |e.candidates| ::
              || e.candidates[i].entry.score > e.candidates[j].entry.score
              || (e.candidates[i].entry.score == e.candidates[j].entry.score
                  && Sorting.StringLe(e.candidates[i].entry.symbol, e.candidates[j].entry.symbol))
  {
    hide CapeAdmitted, RejectsExactly, InputLe, Sorting.StringLe;
    CapeOrder();
    Sorting.SortSorts(CapeLe, CapeAdmitted(Sorting.Sort(InputLe, inputs), decision, p));
  }

  lemma InputOrder(inputs: seq<Input>)
    requires Distinct(Symbols(Histories(inputs)))
    ensures Sorting.IsOrder(InputLe) && Sorting.NoTies(InputLe, inputs)
  {
    Sorting.StringOrder();
    forall x, y | x in inputs && y in inputs && InputLe(x, y) && InputLe(y, x)
      ensures x == y
    {
      Sorting.StringLeTotal(x.history.symbol, y.history.symbol);
      SameSymbolSameInput(inputs, x, y);
    }
  }

  /** Two evaluations of the same inputs in different orders are the same evaluation. */
  lemma OrderOfInputsIsIrrelevant(e: CapeEvaluation, f: CapeEvaluation, xs: seq<Input>, ys: seq<Input>, decision: int,
                                  p: Policy)
    requires IsCapeEvaluation(e, xs, decision, p) && IsCapeEvaluation(f, ys, decision, p)
    requires multiset(xs) == multiset(ys) && Distinct(Symbols(Histories(xs)))
    ensures e == f
  {
    SameInputOrder(xs, ys);
    hide RejectsExactly, CapeRanked, CapeAdmitted, InputLe;
    Sorting.SameMultiset(xs, ys);
    SameRejectionMaps(e.rejected, f.rejected, xs, ys, decision, p);
  }

  lemma SameInputOrder(xs: seq<Input>, ys: seq<Input>)
    requires multiset(xs) == multiset(ys) && Distinct(Symbols(Histories(xs)))
    ensures Sorting.Sort(InputLe, xs) == Sorting.Sort(InputLe, ys)
  {
    hide InputLe;
    InputOrder(xs);
    Sorting.SortIgnoresOrder(InputLe, xs, ys);
  }

  lemma SameRejectionMaps(a: map<string, set<CapeReason>>, b: map<string, set<CapeReason>>, xs: seq<Input>,
                          ys: seq<Input>, decision: int, p: Policy)
    requires RejectsExactly(a, xs, decision, p) && RejectsExactly(b, ys, decision, p)
    requires forall item :: item in xs <==> item in ys
    ensures a == b
  {
    SameRejections(a, b, xs, ys, decision, p);
    SameRejections(b, a, ys, xs, decision, p);
    hide RejectsExactly;
    assert a.Keys == b.Keys;
  }

  lemma SameRejections(a: map<string, set<CapeReason>>, b: map<string, set<CapeReason>>, xs: seq<Input>,
                       ys: seq<Input>, decision: int, p: Policy)
    requires RejectsExactly(a, xs, decision, p) && RejectsExactly(b, ys, decision, p)
    requires forall item :: item in xs <==> item in ys
    ensures forall s | s in a :: s in b && b[s] == a[s]
  {
    hide CapeScreen;
    forall s | s in a
      ensures s in b && b[s] == a[s]
    {
      var i :| 0 <= i < |xs| && Symbols(Histories(xs))[i] == s;
      var item := xs[i];
      assert item in xs && item in ys;
      assert Reports(a, s, CapeScreen(item, decision, p)) && Reports(b, s, CapeScreen(item, decision, p));
    }
  }
}
