/**
 * The seed as the workbench reads it, its validation, and the weekly refresh that replaces it or
 * marks it as kept.
 */
module OptionsSeedStore {
  import opened Common
  import opened OptionsSeed

  const SYMBOL := "SPY"

  /** A number in the dictionary: null, not a number, or read. */
  datatype Field = Null | Unreadable | Number(value: real)

  datatype Refresh = RefreshOk(at: int) | FetchFailed(at: int, reason: string, previousAsOf: Option<int>)

  /** Dates and instants that are missing or empty are None. */
  datatype Seed = Seed(
    schemaVersion: string, dataMode: string, symbol: string, contractId: string, strike: Field, expiration: Option<int>,
    dte: Option<int>, bid: Field, ask: Field, mid: Field, iv: Field, delta: Field, gamma: Field, theta: Field,
    vega: Field, rho: Field, unavailable: seq<string>, openInterest: int, volume: int,
    underlyingBid: real, underlyingAsk: real, underlyingPrice: real,
    asOf: Option<int>, source: string, refresh: Refresh)

  function ToField(v: Option<real>): Field {
    if v.Some? then Number(v.value) else Null
  }

  function SeedToDict(s: SeedContract, symbol: string, c: Chain, asOf: int, refresh: Refresh): Seed {
    Seed(SEED_SCHEMA_VERSION, DATA_MODE, symbol, s.contractId, Number(s.strike), Some(s.expiration), Some(s.dte),
         Number(s.bid), Number(s.ask), Number(s.mid), ToField(s.iv), Number(s.delta), ToField(s.gamma),
         ToField(s.theta), ToField(s.vega), ToField(s.rho), s.unavailable, s.openInterest, s.volume,
         c.bid, c.ask, c.currentPrice, Some(asOf), "cboe-delayed", refresh)
  }

  datatype SeedError =
    | BadSchemaVersion | UnknownDataMode | MissingField(field: string) | DteOutOfScope
    | BadMoney | UnexecutableQuote | NullOrZeroIv
    | UndeclaredGreek(field: string) | ZeroFilledGreek(field: string)

  /** The check of one Greek: null and declared, or present and not zero. */
  function GreekError(d: Seed, field: string, v: Field): Option<SeedError> {
    match v
    case Null => if field in d.unavailable then None else Some(UndeclaredGreek(field))
    case Unreadable => Some(BadMoney)
    case Number(x) => if x == 0.0 then Some(ZeroFilledGreek(field)) else None
  }

  function Greeks(d: Seed): seq<(string, Field)> {
    [("delta", d.delta), ("gamma", d.gamma), ("theta", d.theta), ("vega", d.vega), ("rho", d.rho)]
  }

  predicate GreeksFine(d: Seed) {
    forall k | 0 <= k < |Greeks(d)| :: GreekError(d, Greeks(d)[k].0, Greeks(d)[k].1).None?
  }

  /** Everything that must hold for the workbench to accept a seed. */
  predicate Valid(d: Seed) {
    && d.schemaVersion == SEED_SCHEMA_VERSION && d.dataMode in DATA_MODES
    && d.contractId != "" && d.expiration.Some? && d.asOf.Some? && d.source != ""
    && d.dte.Some? && 0 < d.dte.value <= MAX_DTE
    && d.bid.Number? && d.ask.Number? && 0.0 < d.bid.value <= d.ask.value
    && d.iv.Number? && d.iv.value > 0.0
    && GreeksFine(d)
  }

  /** The dictionary says what it is: its schema, and how the data came. */
  predicate Labelled(d: Seed) {
    d.schemaVersion == "hedge-desk-options-seed-1.0.0" && d.dataMode in {"batch", "live", "scenario"}
  }

  predicate Identified(d: Seed) {
    Labelled(d) && d.contractId != "" && d.expiration != None && d.asOf != None && d.source != ""
  }

  predicate Scoped(d: Seed) {
    Identified(d) && d.dte.Some? && 1 <= d.dte.value <= 30
  }

  predicate Quoted(d: Seed) {
    Scoped(d) && d.bid.Number? && d.ask.Number? && 0.0 < d.bid.value <= d.ask.value
  }

  predicate Priced(d: Seed) {
    Quoted(d) && d.iv.Number? && d.iv.value > 0.0
  }

  /** The first Greek, in the order of the loop, whose check fails, fails so. */
  predicate FirstGreekError(d: Seed, error: SeedError) {
    exists k ::
      && 0 <= k < |Greeks(d)| && GreekError(d, Greeks(d)[k].0, Greeks(d)[k].1) == Some(error)
      && forall i | 0 <= i < k :: GreekError(d, Greeks(d)[i].0, Greeks(d)[i].1).None?
  }

  /** Everything is checked in one order, and the first check that fails names the error. */
  method ValidateSeed(d: Seed) returns (error: Option<SeedError>)
    ensures error.None? <==> Valid(d)
    ensures error == Some(BadSchemaVersion) <==> d.schemaVersion != "hedge-desk-options-seed-1.0.0"
    ensures error == Some(UnknownDataMode)
       <==> d.schemaVersion == "hedge-desk-options-seed-1.0.0" && d.dataMode !in {"batch", "live", "scenario"}
    ensures error == Some(MissingField("contract_id")) <==> Labelled(d) && d.contractId == ""
    ensures error == Some(MissingField("expiration")) <==> Labelled(d) && d.contractId != "" && d.expiration == None
    ensures error == Some(MissingField("as_of"))
       <==> Labelled(d) && d.contractId != "" && d.expiration != None && d.asOf == None
    ensures error == Some(MissingField("source"))
       <==> Labelled(d) && d.contractId != "" && d.expiration != None && d.asOf != None && d.source == ""
    ensures error.Some? && error.value.MissingField? ==>
              error.value.field in {"contract_id", "expiration", "as_of", "source"}
    ensures error == Some(DteOutOfScope) <==> Identified(d) && !Scoped(d)
    ensures error == Some(UnexecutableQuote) <==> Scoped(d) && d.bid.Number? && d.ask.Number? && !Quoted(d)
    ensures error == Some(NullOrZeroIv) <==> Quoted(d) && !d.iv.Unreadable? && !Priced(d)
    ensures error == Some(BadMoney)
       <==> || (Scoped(d) && !(d.bid.Number? && d.ask.Number?))
            || (Quoted(d) && d.iv.Unreadable?)
            || (Priced(d) && FirstGreekError(d, BadMoney))
    ensures Priced(d) && !Valid(d) ==> error.Some? && FirstGreekError(d, error.value)
  {
    if d.schemaVersion != SEED_SCHEMA_VERSION {
      return Some(BadSchemaVersion);
    }
    if d.dataMode !in DATA_MODES {
      return Some(UnknownDataMode);
    }
    if d.contractId == "" {
      return Some(MissingField("contract_id"));
    }
    if d.expiration == None {
      return Some(MissingField("expiration"));
    }
    if d.asOf == None {
      return Some(MissingField("as_of"));
    }
    if d.source == "" {
      return Some(MissingField("source"));
    }
    if d.dte == None || d.dte.value <= 0 || d.dte.value > MAX_DTE {
      return Some(DteOutOfScope);
    }
    if !d.bid.Number? || !d.ask.Number? {
      return Some(BadMoney);
    }
    if d.bid.value <= 0.0 || d.ask.value <= 0.0 || d.ask.value < d.bid.value {
      return Some(UnexecutableQuote);
    }
    if d.iv.Unreadable? {
      return Some(BadMoney);
    }
    if d.iv.Null? || d.iv.value <= 0.0 {
      return Some(NullOrZeroIv);
    }
    var greeks := Greeks(d);
    for k := 0 to |greeks|
      invariant forall i | 0 <= i < k :: GreekError(d, greeks[i].0, greeks[i].1).None?
    {
      var problem := GreekError(d, greeks[k].0, greeks[k].1);
      if problem.Some? {
        return problem;
      }
    }
    return None;
  }

  // ---------------------------------------------------------------- producer and validator agree

  /** An option symbol that parses is not empty. */
  predicate WellRead(c: Chain) {
    forall k | 0 <= k < |c.options| :: c.options[k].parsed.Some? ==> c.options[k].contract != ""
  }

  lemma GreekFine(d: Seed, field: string, v: Option<real>)
    requires forall f | f in Note(field, v) :: f in d.unavailable
    ensures GreekError(d, field, ToField(OrNull(v))).None?
  {
    assert Missing(v) ==> field in Note(field, v);
  }

  /** Whatever the selection picks, the dictionary made of it passes the validation. */
  lemma ProducedSeedsAreValid(s: SeedContract, symbol: string, c: Chain, today: int, asOf: int, refresh: Refresh)
    requires WellRead(c) && IsSelection(s, c, symbol, today)
    ensures Valid(SeedToDict(s, symbol, c, asOf, refresh))
  {
    hide SelectedBy, UnderlyingMid, IsChosenExpiry, Wins, Tied;
    var e, q :| SelectedBy(s, c, symbol, today, e, q);
    SelectedFacts(s, c, symbol, today, e, q);
    ContractOf(s, symbol, c, asOf, refresh, q, e, today);
  }

  lemma ContractOf(s: SeedContract, symbol: string, c: Chain, asOf: int, refresh: Refresh, q: Quote, expiry: int,
                   today: int)
    requires WellRead(c) && q in c.options && Eligible(expiry, today)
    requires q.parsed.Some? && q.delta.Some? && q.openInterest.Some? && q.volume.Some? && s == SeedOf(q, expiry, today)
    requires Executable(q) && !NoIv(q.iv) && !Missing(q.delta)
    ensures Valid(SeedToDict(s, symbol, c, asOf, refresh))
  {
    var d := SeedToDict(s, symbol, c, asOf, refresh);
    var k :| 0 <= k < |c.options| && c.options[k] == q;
    GreekFine(d, "gamma", q.gamma);
    GreekFine(d, "theta", q.theta);
    GreekFine(d, "vega", q.vega);
    GreekFine(d, "rho", q.rho);
    assert GreekError(d, "delta", d.delta).None?;
  }

  // ---------------------------------------------------------------- refreshes

  /** One run of the refresh job: the chain it fetched, if any, and the text of the failure if it fails. */
  datatype Attempt = Attempt(now: int, fetched: Option<Chain>, reason: string)

  ghost predicate Succeeds(a: Attempt) {
    a.fetched.Some? && exists s :: IsSelection(s, a.fetched.value, SYMBOL, a.now / DAY)
  }

  ghost function Picked(a: Attempt): (s: SeedContract)
    requires Succeeds(a)
    ensures IsSelection(s, a.fetched.value, SYMBOL, a.now / DAY)
  {
    var s :| IsSelection(s, a.fetched.value, SYMBOL, a.now / DAY);
    s
  }

  ghost function Made(a: Attempt, refresh: Refresh): Seed
    requires Succeeds(a)
  {
    SeedToDict(Picked(a), SYMBOL, a.fetched.value, a.now, refresh)
  }

  /** The stored file and the exit code after one attempt. */
  ghost function Step(stored: Option<Seed>, a: Attempt): (Option<Seed>, int) {
    if Succeeds(a) then (Some(Made(a, RefreshOk(a.now))), 0)
    else if stored.None? then (None, 1)
    else (Some(stored.value.(refresh := FetchFailed(a.now, a.reason, stored.value.asOf))), 0)
  }

  class SeedFile {
    var stored: Option<Seed>

    constructor ()
      ensures stored == None
    {
      stored := None;
    }

    method Refresh(a: Attempt) returns (exit: int)
      modifies this
      ensures (stored, exit) == Step(old(stored), a)
    {
      hide IsSelection, Explains, SeedToDict;
      if a.fetched.Some? {
        var seed := SelectSeedPut(a.fetched.value, SYMBOL, a.now / DAY);
        if seed.Ok? {
          SelectionIsUnique(seed.value, Picked(a), a.fetched.value, SYMBOL, a.now / DAY);
          stored := Some(SeedToDict(seed.value, SYMBOL, a.fetched.value, a.now, RefreshOk(a.now)));
          return 0;
        }
        forall s
          ensures !IsSelection(s, a.fetched.value, SYMBOL, a.now / DAY)
        {
          RefusalsAreExact(seed.error, s, a.fetched.value, SYMBOL, a.now / DAY);
        }
      }
      if stored == None {
        return 1;
      }
      stored := Some(stored.value.(refresh := FetchFailed(a.now, a.reason, stored.value.asOf)));
      return 0;
    }
  }

  ghost function Run(initial: Option<Seed>, history: seq<Attempt>): Option<Seed> {
    if history == [] then initial else Step(Run(initial, history[..|history| - 1]), history[|history| - 1]).0
  }

  ghost function LastSuccess(history: seq<Attempt>): (r: Option<nat>)
    ensures r.Some? ==> r.value < |history| && Succeeds(history[r.value])
                        && forall k | r.value < k < |history| :: !Succeeds(history[k])
    ensures r.None? ==> forall k | 0 <= k < |history| :: !Succeeds(history[k])
  {
    hide Succeeds;
    if history == [] then None
    else if Succeeds(history[|history| - 1]) then Some(|history| - 1)
    else LastSuccess(history[..|history| - 1])
  }

  /** Equal in every field but the refresh block. */
  predicate SameContract(a: Seed, b: Seed) {
    a == b.(refresh := a.refresh)
  }

  /**
   * After any history of refreshes the stored seed is the one the last success made, apart from
   * its refresh block, or the file that was there before; absent only if there never was one.
   */
  lemma {:induction false} StoredSeedIsTheLastGood(initial: Option<Seed>, history: seq<Attempt>)
    ensures var stored, last := Run(initial, history), LastSuccess(history);
            && (stored.None? <==> initial.None? && last.None?)
            && (stored.Some?
                ==> SameContract(stored.value,
                                 if last.Some? then Made(history[last.value], stored.value.refresh)
                                 else initial.value))
            && (history != [] && stored.Some?
                ==> (stored.value.refresh.RefreshOk? <==> Succeeds(history[|history| - 1])))
  {
    hide Succeeds, Made;
    if history != [] {
      var before, a := history[..|history| - 1], history[|history| - 1];
      StoredSeedIsTheLastGood(initial, before);
      MadeDiffersInRefreshOnly(history);
    }
  }

  lemma MadeDiffersInRefreshOnly(history: seq<Attempt>)
    ensures forall k, r, s | 0 <= k < |history| && Succeeds(history[k]) ::
              Made(history[k], r) == Made(history[k], s).(refresh := r)
  {
    hide Succeeds;
  }

  /**
   * Starting without a file, what is stored is always valid, and a run fails with exit code 1
   * exactly when nothing was ever picked.
   */
  lemma {:induction false} StoredSeedIsAlwaysValid(history: seq<Attempt>)
    requires forall k | 0 <= k < |history| && history[k].fetched.Some? :: WellRead(history[k].fetched.value)
    ensures var stored := Run(None, history); stored.Some? ==> Valid(stored.value)
    ensures history != [] ==>
              (Step(Run(None, history[..|history| - 1]), history[|history| - 1]).1 == 1
               <==> forall k | 0 <= k < |history| :: !Succeeds(history[k]))
  {
    hide Succeeds, Valid;
    StoredSeedIsTheLastGood(None, history);
    var last, stored := LastSuccess(history), Run(None, history);
    if last.Some? {
      var a := history[last.value];
      SuccessFetched(a);
      MadeIsValid(a, stored.value.refresh);
      assert SameContract(stored.value, Made(a, stored.value.refresh));
      SameContractSameRefresh(stored.value, Made(a, stored.value.refresh));
    }
    if history != [] {
      StoredSeedIsTheLastGood(None, history[..|history| - 1]);
    }
  }

  lemma SuccessFetched(a: Attempt)
    requires Succeeds(a)
    ensures a.fetched.Some?
  {
  }

  lemma SameContractSameRefresh(a: Seed, b: Seed)
    requires SameContract(a, b) && a.refresh == b.refresh
    ensures a == b
  {
  }

  lemma MadeIsValid(a: Attempt, refresh: Refresh)
    requires Succeeds(a) && WellRead(a.fetched.value)
    ensures Valid(Made(a, refresh)) && Made(a, refresh).refresh == refresh
  {
    ProducedSeedsAreValid(Picked(a), SYMBOL, a.fetched.value, a.now / DAY, a.now, refresh);
  }
}
