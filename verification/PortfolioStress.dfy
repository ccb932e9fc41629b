/**
 * The combined stress report: it follows its own capital path beside the metrics of the same
 * profits and losses, and hands the metrics' drawdown to the circuit breaker.
 */
module PortfolioStress {
  import opened Common
  import opened Sums
  import opened Metrics
  import Sorting

  datatype Shock = Shock(project: string, gross: real, costs: real)

  datatype Scenario = Scenario(id: string, shocks: seq<Shock>)

  function Net(s: Shock): real {
    s.gross - s.costs
  }

  // ---------------------------------------------------------------- net results by project

  type Dict = seq<(string, real)>

  /** Assignment to a dictionary in insertion order. */
  function SetItem(d: Dict, key: string, value: real): Dict {
    if d == [] then [(key, value)]
    else if d[0].0 == key then [(key, value)] + d[1..]
    else [d[0]] + SetItem(d[1..], key, value)
  }

  /** The dictionary comprehension over the shocks, starting from a dictionary. */
  function Collect(d: Dict, shocks: seq<Shock>): Dict
    decreases |shocks|
  {
    if shocks == [] then d else Collect(SetItem(d, shocks[0].project, Net(shocks[0])), shocks[1..])
  }

  function Values(d: Dict): real {
    if d == [] then 0.0 else d[0].1 + Values(d[1..])
  }

  function ScenarioPnl(s: Scenario): real {
    Values(Collect([], s.shocks))
  }

  function Projects(shocks: seq<Shock>): set<string> {
    set k | 0 <= k < |shocks| :: shocks[k].project
  }

  function NetOfAll(shocks: seq<Shock>): real {
    if shocks == [] then 0.0 else Net(shocks[0]) + NetOfAll(shocks[1..])
  }

  /** The shocks that a later shock of the same project overwrites. */
  function NetOfSuperseded(shocks: seq<Shock>): real {
    if shocks == [] then 0.0
    else (if shocks[0].project in Projects(shocks[1..]) then Net(shocks[0]) else 0.0) + NetOfSuperseded(shocks[1..])
  }

  predicate DistinctKeys(d: Dict) {
    forall i, j | 0 <= i < j < |d| :: d[i].0 != d[j].0
  }

  predicate DistinctProjects(shocks: seq<Shock>) {
    forall i, j | 0 <= i < j < |shocks| :: shocks[i].project != shocks[j].project
  }

  /** The total of the entries whose keys are not listed. */
  function Outside(d: Dict, keys: set<string>): real {
    if d == [] then 0.0 else (if d[0].0 in keys then 0.0 else d[0].1) + Outside(d[1..], keys)
  }

  lemma {:induction false} SetItemKeepsKeys(d: Dict, key: string, value: real)
    requires DistinctKeys(d)
    ensures DistinctKeys(SetItem(d, key, value))
    ensures forall e | e in SetItem(d, key, value) :: e.0 == key || exists f | f in d :: f.0 == e.0
  {
    if d != [] && d[0].0 != key {
      SetItemKeepsKeys(d[1..], key, value);
    }
  }

  lemma {:induction false} OutsideAbsent(d: Dict, keys: set<string>, key: string)
    requires forall i | 0 <= i < |d| :: d[i].0 != key
    ensures Outside(d, keys + {key}) == Outside(d, keys)
  {
    if d != [] {
      OutsideAbsent(d[1..], keys, key);
    }
  }

  lemma {:induction false} OutsideSetItem(d: Dict, key: string, value: real, keys: set<string>)
    requires DistinctKeys(d)
    ensures Outside(SetItem(d, key, value), keys) == Outside(d, keys + {key}) + if key in keys then 0.0 else value
  {
    if d != [] {
      if d[0].0 == key {
        OutsideAbsent(d[1..], keys, key);
      } else {
        OutsideSetItem(d[1..], key, value, keys);
      }
    }
  }

  lemma {:induction false} CollectTotals(d: Dict, shocks: seq<Shock>)
    requires DistinctKeys(d)
    ensures Values(Collect(d, shocks)) == Outside(d, Projects(shocks)) + NetOfAll(shocks) - NetOfSuperseded(shocks)
    decreases |shocks|
  {
    if shocks == [] {
      NothingOutside(d);
    } else {
      var s, rest := shocks[0], shocks[1..];
      SetItemKeepsKeys(d, s.project, Net(s));
      CollectTotals(SetItem(d, s.project, Net(s)), rest);
      OutsideSetItem(d, s.project, Net(s), Projects(rest));
      assert Projects(shocks) == Projects(rest) + {s.project};
    }
  }

  lemma {:induction false} NothingOutside(d: Dict)
    ensures Values(d) == Outside(d, Projects([]))
  {
    if d != [] {
      NothingOutside(d[1..]);
    }
  }

  /**
   * A scenario's result leaves out exactly the shocks that a later shock of the same project
   * overwrites; it is the total of all shocks exactly when those cancel, as with distinct projects.
   */
  lemma OverwrittenShocksAreLost(s: Scenario)
    ensures ScenarioPnl(s) == NetOfAll(s.shocks) - NetOfSuperseded(s.shocks)
    ensures ScenarioPnl(s) == NetOfAll(s.shocks) <==> NetOfSuperseded(s.shocks) == 0.0
    ensures DistinctProjects(s.shocks) ==> NetOfSuperseded(s.shocks) == 0.0
  {
    CollectTotals([], s.shocks);
    if DistinctProjects(s.shocks) {
      NothingSuperseded(s.shocks);
    }
  }

  lemma {:induction false} NothingSuperseded(shocks: seq<Shock>)
    requires DistinctProjects(shocks)
    ensures NetOfSuperseded(shocks) == 0.0
  {
    if shocks != [] {
      NothingSuperseded(shocks[1..]);
    }
  }

  // ---------------------------------------------------------------- the report

  datatype Line = Line(id: string, pnl: real, endingCapital: real, drawdown: real, frozen: bool)

  datatype Report = Report(startingCapital: real, fraction: real, lines: seq<Line>, metrics: Performance)

  datatype StressError = CapitalNotPositive | FractionOutOfRange | DuplicateScenario | NoScenarios

  const CONFIDENCE := 0.8

  function Limit(startingCapital: real, fraction: real): real {
    startingCapital * fraction
  }

  function Pnls(scenarios: seq<Scenario>): (r: seq<real>)
    ensures |r| == |scenarios|
  {
    seq(|scenarios|, k requires 0 <= k < |scenarios| => ScenarioPnl(scenarios[k]))
  }

  predicate DistinctIds(scenarios: seq<Scenario>) {
    forall i, j | 0 <= i < j < |scenarios| :: scenarios[i].id != scenarios[j].id
  }

  /** Line k of a capital path that starts at the capital and moves by the profits and losses. */
  ghost predicate IsLine(line: Line, pnls: seq<real>, k: nat, start: real, fraction: real)
    requires k < |pnls|
  {
    && line.pnl == pnls[k]
    && line.endingCapital == start + Equity(pnls, k + 1)
    && IsPeak(pnls, k + 1, line.drawdown + Equity(pnls, k + 1))
    && line.frozen == (line.drawdown > Limit(start, fraction))
  }

  ghost predicate IsReport(r: Report, scenarios: seq<Scenario>, start: real, fraction: real) {
    && r.startingCapital == start && r.fraction == fraction
    && scenarios != [] && |r.lines| == |scenarios|
    && (forall k | 0 <= k < |scenarios| ::
          r.lines[k].id == scenarios[k].id && IsLine(r.lines[k], Pnls(scenarios), k, start, fraction))
    && Describes(r.metrics, Pnls(scenarios), CONFIDENCE)
  }

  function Check(scenarios: seq<Scenario>, start: real, fraction: real): Option<StressError> {
    if start <= 0.0 then Some(CapitalNotPositive)
    else if !(0.0 < fraction < 1.0) then Some(FractionOutOfRange)
    else if !DistinctIds(scenarios) then Some(DuplicateScenario)
    else if scenarios == [] then Some(NoScenarios)
    else None
  }

  lemma NoPeakYet(pnls: seq<real>)
    ensures Equity(pnls, 0) == 0.0 && IsPeak(pnls, 0, 0.0)
  {
    assert Equity(pnls, 0) == 0.0;
  }

  ghost predicate AreLines(lines: seq<Line>, scenarios: seq<Scenario>, pnls: seq<real>, start: real, fraction: real)
    requires |lines| <= |scenarios| == |pnls|
  {
    forall i | 0 <= i < |lines| :: lines[i].id == scenarios[i].id && IsLine(lines[i], pnls, i, start, fraction)
  }

  /** The loop over the scenarios: the report's lines and the sequence handed to the metrics. */
  method CapitalPath(scenarios: seq<Scenario>, start: real, fraction: real)
    returns (lines: seq<Line>, sequence: seq<real>)
    ensures sequence == Pnls(scenarios) && |lines| == |scenarios|
    ensures AreLines(lines, scenarios, Pnls(scenarios), start, fraction)
  {
    hide Equity, IsPeak, Limit, Max;
    ghost var pnls := Pnls(scenarios);
    lines, sequence := [], [];
    var capital, peak := start, start;
    NoPeakYet(pnls);
    for k := 0 to |scenarios|
      invariant sequence == pnls[..k] && |lines| == k
      invariant capital == start + Equity(pnls, k)
      invariant IsPeak(pnls, k, peak - start)
      invariant AreLines(lines, scenarios, pnls, start, fraction)
    {
      var pnl := ScenarioPnl(scenarios[k]);
      sequence := sequence + [pnl];
      EquityMoves(pnls, k);
      capital := capital + pnl;
      PeakRises(pnls, k, peak - start);
      MaxShifts(peak, capital, start);
      peak := Max(peak, capital);
      var drawdown := peak - capital;
      lines := lines + [Line(scenarios[k].id, pnl, capital, drawdown, drawdown > Limit(start, fraction))];
      assert IsLine(lines[k], pnls, k, start, fraction);
    }
  }

  lemma MaxShifts(a: real, b: real, shift: real)
    ensures Max(a - shift, b - shift) == Max(a, b) - shift
  {
  }

  method BuildReport(scenarios: seq<Scenario>, start: real, fraction: real) returns (r: Result<Report, StressError>)
    ensures var error := Check(scenarios, start, fraction);
            if error.Some? then r == Err(error.value) else r.Ok? && IsReport(r.value, scenarios, start, fraction)
  {
    hide IsLine, Describes, DistinctIds, Pnls;
    if start <= 0.0 {
      return Err(CapitalNotPositive);
    }
    if !(0.0 < fraction < 1.0) {
      return Err(FractionOutOfRange);
    }
    if !DistinctIds(scenarios) {
      return Err(DuplicateScenario);
    }
    var lines, sequence := CapitalPath(scenarios, start, fraction);
    var metrics := EvaluatePnlSeries(sequence, CONFIDENCE);
    if metrics.Err? {
      return Err(NoScenarios);
    }
    return Ok(Report(start, fraction, lines, metrics.value));
  }

  /** The breaker's answer: whether new risk is frozen. */
  datatype BreakerError = InvalidDrawdown | IntegrityFailed

  function Breaker(current: real, maximum: real): Result<bool, BreakerError> {
    if current < 0.0 || maximum <= 0.0 then Err(InvalidDrawdown) else Ok(current > maximum)
  }

  // ---------------------------------------------------------------- the two paths agree

  lemma LineDrawdown(line: Line, pnls: seq<real>, k: nat, start: real, fraction: real, d: real)
    requires k < |pnls| && IsLine(line, pnls, k, start, fraction) && IsMaximumDrawdown(pnls, d)
    ensures 0.0 <= line.drawdown <= d
  {
    hide Equity, Limit;
    var i :| 0 <= i <= k + 1 && Equity(pnls, i) == line.drawdown + Equity(pnls, k + 1);
    assert Equity(pnls, i) - Equity(pnls, k + 1) <= d;
  }

  /** The line on which the metrics' maximum drawdown is reached. */
  lemma DeepestLine(lines: seq<Line>, pnls: seq<real>, start: real, fraction: real, d: real) returns (k: nat)
    requires |lines| == |pnls| > 0 && forall k | 0 <= k < |lines| :: IsLine(lines[k], pnls, k, start, fraction)
    requires IsMaximumDrawdown(pnls, d)
    ensures k < |lines| && lines[k].drawdown == d
  {
    hide Equity, Limit;
    var i, j :| 0 <= i <= j <= |pnls| && Equity(pnls, i) - Equity(pnls, j) == d;
    k := if j == 0 then 0 else j - 1;
    LineDrawdown(lines[k], pnls, k, start, fraction, d);
    assert j > 0 ==> Equity(pnls, i) <= lines[k].drawdown + Equity(pnls, j);
  }

  /** The metrics' maximum drawdown is the largest drawdown of the report's own capital path. */
  lemma PathsAgree(r: Report, scenarios: seq<Scenario>, start: real, fraction: real)
    requires IsReport(r, scenarios, start, fraction)
    ensures forall k | 0 <= k < |r.lines| :: r.lines[k].drawdown <= r.metrics.maximumDrawdown
    ensures exists k | 0 <= k < |r.lines| :: r.lines[k].drawdown == r.metrics.maximumDrawdown
    ensures r.lines[|r.lines| - 1].endingCapital == start + Sum(Pnls(scenarios))
  {
    hide Equity, Limit, Pnls, IsMaximumDrawdown;
    var pnls, d := Pnls(scenarios), r.metrics.maximumDrawdown;
    forall k | 0 <= k < |r.lines|
      ensures r.lines[k].drawdown <= d
    {
      LineDrawdown(r.lines[k], pnls, k, start, fraction, d);
    }
    var k := DeepestLine(r.lines, pnls, start, fraction, d);
    LastEquity(pnls);
    assert IsLine(r.lines[|r.lines| - 1], pnls, |r.lines| - 1, start, fraction);
  }

  lemma LastEquity(pnls: seq<real>)
    ensures Equity(pnls, |pnls|) == Sum(pnls)
  {
    assert pnls[..|pnls|] == pnls;
  }

  lemma LimitPositive(start: real, fraction: real)
    requires start > 0.0 && fraction > 0.0
    ensures Limit(start, fraction) > 0.0
  {
  }

  /** The breaker accepts every report and freezes new risk exactly when some scenario did. */
  lemma BreakerFreezesExactlyWhenALineDoes(r: Report, scenarios: seq<Scenario>, start: real, fraction: real)
    requires Check(scenarios, start, fraction).None? && IsReport(r, scenarios, start, fraction)
    ensures Breaker(r.metrics.maximumDrawdown, Limit(start, fraction))
         == Ok(exists k | 0 <= k < |r.lines| :: r.lines[k].frozen)
  {
    hide Equity, Limit, Pnls;
    PathsAgree(r, scenarios, start, fraction);
    LimitPositive(start, fraction);
    DrawdownCoversLosses(Pnls(scenarios), r.metrics.maximumDrawdown, CONFIDENCE);
    var k :| 0 <= k < |r.lines| && r.lines[k].drawdown == r.metrics.maximumDrawdown;
    assert IsLine(r.lines[k], Pnls(scenarios), k, start, fraction);
    if i :| 0 <= i < |r.lines| && r.lines[i].frozen {
      assert IsLine(r.lines[i], Pnls(scenarios), i, start, fraction);
    }
  }

  // ---------------------------------------------------------------- what the answers say

  /** The refusals, in their order. */
  lemma CheckMeans(scenarios: seq<Scenario>, start: real, fraction: real)
    ensures var error := Check(scenarios, start, fraction);
            var within := 0.0 < fraction && fraction < 1.0;
            var repeated := exists i, j | 0 <= i < j < |scenarios| :: scenarios[i].id == scenarios[j].id;
            && (error == Some(CapitalNotPositive) <==> start <= 0.0)
            && (error == Some(FractionOutOfRange) <==> start > 0.0 && !within)
            && (error == Some(DuplicateScenario) <==> start > 0.0 && within && repeated)
            && (error == Some(NoScenarios) <==> start > 0.0 && within && scenarios == [])
            && (error == None <==> start > 0.0 && within && !repeated && scenarios != [])
  {
  }

  /** The shocks that no later one of the same project overwrites. */
  function Remaining(shocks: seq<Shock>): seq<Shock> {
    if shocks == [] then []
    else (if exists k | 0 < k < |shocks| :: shocks[k].project == shocks[0].project then [] else [shocks[0]])
         + Remaining(shocks[1..])
  }

  function Gross(s: Shock): real {
    s.gross
  }

  function Costs(s: Shock): real {
    s.costs
  }

  lemma {:induction false} NetOfRemaining(shocks: seq<Shock>)
    ensures Sum(Sorting.Map(Gross, Remaining(shocks))) - Sum(Sorting.Map(Costs, Remaining(shocks)))
         == NetOfAll(shocks) - NetOfSuperseded(shocks)
  {
    if shocks != [] {
      var first, left := shocks[0], Remaining(shocks[1..]);
      NetOfRemaining(shocks[1..]);
      LaterProjects(shocks);
      OneMoreShock(first, left);
      assert [] + left == left;
      hide Sum, Gross, Costs, Remaining, Projects;
      assert Remaining(shocks) == (if first.project in Projects(shocks[1..]) then [] else [first]) + left by {
        RemainingStep(shocks);
      }
    }
  }

  lemma RemainingStep(shocks: seq<Shock>)
    requires shocks != []
    ensures Remaining(shocks)
         == (if shocks[0].project in Projects(shocks[1..]) then [] else [shocks[0]]) + Remaining(shocks[1..])
  {
    LaterProjects(shocks);
  }

  lemma OneMoreShock(s: Shock, left: seq<Shock>)
    ensures Sum(Sorting.Map(Gross, [s] + left)) == s.gross + Sum(Sorting.Map(Gross, left))
    ensures Sum(Sorting.Map(Costs, [s] + left)) == s.costs + Sum(Sorting.Map(Costs, left))
  {
    assert Sorting.Map(Gross, [s] + left) == [s.gross] + Sorting.Map(Gross, left);
    assert Sorting.Map(Costs, [s] + left) == [s.costs] + Sorting.Map(Costs, left);
    SumAppend([s.gross], Sorting.Map(Gross, left));
    SumAppend([s.costs], Sorting.Map(Costs, left));
    SumOfOne(s.gross);
    SumOfOne(s.costs);
  }

  lemma LaterProjects(shocks: seq<Shock>)
    requires shocks != []
    ensures shocks[0].project in Projects(shocks[1..])
       <==> exists k | 0 < k < |shocks| :: shocks[k].project == shocks[0].project
  {
    if shocks[0].project in Projects(shocks[1..]) {
      var k :| 0 <= k < |shocks[1..]| && shocks[1..][k].project == shocks[0].project;
      assert shocks[k + 1].project == shocks[0].project;
    }
    if k :| 0 < k < |shocks| && shocks[k].project == shocks[0].project {
      assert shocks[1..][k - 1].project == shocks[0].project;
    }
  }

  /** A scenario's result is the gross result less the costs of the last shock of every project. */
  lemma ScenarioPnlMeans(s: Scenario)
    ensures ScenarioPnl(s)
         == Sum(Sorting.Map(Gross, Remaining(s.shocks))) - Sum(Sorting.Map(Costs, Remaining(s.shocks)))
  {
    OverwrittenShocksAreLost(s);
    NetOfRemaining(s.shocks);
  }

  /** The capital after the first k scenarios. */
  function CapitalAfter(scenarios: seq<Scenario>, start: real, k: nat): real
    requires k <= |scenarios|
  {
    if k == 0 then start else CapitalAfter(scenarios, start, k - 1) + ScenarioPnl(scenarios[k - 1])
  }

  /** What line k says: the capital after it, the fall from the highest capital so far, and whether that is too deep. */
  ghost predicate LineSays(line: Line, scenarios: seq<Scenario>, start: real, fraction: real, k: nat)
    requires k < |scenarios|
  {
    && line.id == scenarios[k].id && line.pnl == ScenarioPnl(scenarios[k])
    && line.endingCapital == CapitalAfter(scenarios, start, k + 1)
    && (forall i | 0 <= i <= k + 1 :: CapitalAfter(scenarios, start, i) <= line.endingCapital + line.drawdown)
    && (exists i | 0 <= i <= k + 1 :: CapitalAfter(scenarios, start, i) == line.endingCapital + line.drawdown)
    && (line.frozen <==> line.drawdown > start * fraction)
  }

  lemma {:induction false} CapitalIs(scenarios: seq<Scenario>, start: real, k: nat)
    requires k <= |scenarios|
    ensures CapitalAfter(scenarios, start, k) == start + Equity(Pnls(scenarios), k)
  {
    if k > 0 {
      CapitalIs(scenarios, start, k - 1);
      EquityMoves(Pnls(scenarios), k - 1);
    }
  }

  lemma LineMeans(line: Line, scenarios: seq<Scenario>, start: real, fraction: real, k: nat)
    requires k < |scenarios| && IsLine(line, Pnls(scenarios), k, start, fraction) && line.id == scenarios[k].id
    ensures LineSays(line, scenarios, start, fraction, k)
  {
    hide Equity, CapitalAfter, ScenarioPnl;
    forall i | 0 <= i <= k + 1
      ensures CapitalAfter(scenarios, start, i) == start + Equity(Pnls(scenarios), i)
    {
      CapitalIs(scenarios, start, i);
    }
    var i :| 0 <= i <= k + 1 && Equity(Pnls(scenarios), i) == line.drawdown + Equity(Pnls(scenarios), k + 1);
    assert CapitalAfter(scenarios, start, i) == line.endingCapital + line.drawdown;
  }

  /** Every line of a report, and that its metrics leave the worst fifth of the scenarios to the shortfall. */
  lemma ReportMeans(r: Report, scenarios: seq<Scenario>, start: real, fraction: real)
    requires IsReport(r, scenarios, start, fraction)
    ensures r.startingCapital == start && r.fraction == fraction && |r.lines| == |scenarios| > 0
    ensures forall k: nat | k < |scenarios| :: LineSays(r.lines[k], scenarios, start, fraction, k)
    ensures Describes(r.metrics, Pnls(scenarios), 0.8)
  {
    hide IsLine, Describes, LineSays, Pnls;
    forall k: nat | k < |scenarios|
      ensures LineSays(r.lines[k], scenarios, start, fraction, k)
    {
      LineMeans(r.lines[k], scenarios, start, fraction, k);
    }
  }

  /**
   * The bridge to the breaker, for a report that comes with its digest. A report of some scenarios
   * under its own digest is never refused, and freezes new risk exactly when some scenario of it
   * is frozen; a report under another digest is refused for that, whatever it says.
   */
  method CircuitBreaker(digest: Report -> string, r: Report, claimed: string, ghost scenarios: seq<Scenario>)
      returns (frozen: Result<bool, BreakerError>)
    ensures frozen == Err(IntegrityFailed) <==> claimed != digest(r)
    ensures claimed == digest(r) && Check(scenarios, r.startingCapital, r.fraction).None?
            && IsReport(r, scenarios, r.startingCapital, r.fraction)
            ==> frozen == Ok(exists k | 0 <= k < |r.lines| :: r.lines[k].frozen)
    ensures frozen == Err(InvalidDrawdown)
            <==> claimed == digest(r)
                 && (r.metrics.maximumDrawdown < 0.0 || r.startingCapital * r.fraction <= 0.0)
    ensures frozen.Ok? ==> (frozen.value <==> r.metrics.maximumDrawdown > r.startingCapital * r.fraction)
  {
    hide Check, IsReport;
    if Check(scenarios, r.startingCapital, r.fraction).None? && IsReport(r, scenarios, r.startingCapital, r.fraction) {
      BreakerFreezesExactlyWhenALineDoes(r, scenarios, r.startingCapital, r.fraction);
    }
    if claimed != digest(r) {
      return Err(IntegrityFailed);
    }
    return Breaker(r.metrics.maximumDrawdown, Limit(r.startingCapital, r.fraction));
  }
}
