/**
 * The weekly options seed: one out-of-the-money put picked from a chain, written as a dictionary
 * that the workbench validates, and kept through failed refreshes. Prices and Greeks are exact
 * reals; a field that cannot be read is None.
 */
module OptionsSeed {
  import opened Common
  import Sorting

  const TARGET_DTE := 30
  const MIN_DTE := 7
  const MAX_DTE := 30
  const TARGET_PUT_DELTA := -0.30
  const SEED_SCHEMA_VERSION := "hedge-desk-options-seed-1.0.0"
  const DATA_MODE := "batch"
  const DATA_MODES := {"batch", "live", "scenario"}

  /** What the option symbol says: days are counted from any fixed date. */
  datatype Parsed = Parsed(underlying: string, expiry: int, isPut: bool, strike: real)

  /** One option's dictionary: what is read of it, and as one text whatever else it holds. */
  datatype Quote = Quote(
    contract: string, parsed: Option<Parsed>, bid: real, ask: real, bidSize: Option<int>, askSize: Option<int>,
    iv: Option<real>, delta: Option<real>, gamma: Option<real>, theta: Option<real>, vega: Option<real>,
    rho: Option<real>, openInterest: Option<int>, volume: Option<int>, unread: string)

  datatype Chain = Chain(options: seq<Quote>, bid: real, ask: real, currentPrice: real)

  datatype SelectError =
    | SymbolRequired | NoOptions | UnderlyingInvalid | NoExpiry
    | OpenInterestUnreadable | NoSelectablePut | TiedQuotes | VolumeUnreadable

  // ---------------------------------------------------------------- selection

  function UnderlyingMid(c: Chain): real {
    var mid := (c.bid + c.ask) / 2.0;
    if mid <= 0.0 then c.currentPrice else mid
  }

  predicate IsPutOn(q: Quote, symbol: string) {
    q.parsed.Some? && q.parsed.value.underlying == symbol && q.parsed.value.isPut
  }

  predicate Eligible(expiry: int, today: int) {
    MIN_DTE < expiry - today <= MAX_DTE
  }

  predicate Expires(q: Quote, expiry: int) {
    q.parsed.Some? && q.parsed.value.expiry == expiry
  }

  function Abs(x: real): real {
    if x < 0.0 then -x else x
  }

  function AbsInt(x: int): int {
    if x < 0 then -x else x
  }

  /** The order of the pairs (distance from the target, expiry). */
  predicate ExpiryLe(a: (int, int), b: (int, int)) {
    a.0 < b.0 || (a.0 == b.0 && a.1 <= b.1)
  }

  function Distance(expiry: int, today: int): (int, int) {
    (AbsInt(expiry - today - TARGET_DTE), expiry)
  }

  predicate Missing(v: Option<real>) {
    v.None? || v.value == 0.0
  }

  predicate NoIv(v: Option<real>) {
    v.None? || v.value <= 0.0
  }

  predicate Sized(size: Option<int>) {
    size.Some? && size.value > 0
  }

  predicate Executable(q: Quote) {
    q.bid > 0.0 && q.ask > 0.0 && q.ask >= q.bid && Sized(q.bidSize) && Sized(q.askSize)
  }

  /** An executable out-of-the-money put of the chosen expiry with an implied volatility and a delta. */
  predicate Selectable(q: Quote, symbol: string, expiry: int, mid: real) {
    && IsPutOn(q, symbol) && q.parsed.value.expiry == expiry && q.parsed.value.strike < mid
    && Executable(q) && !NoIv(q.iv) && !Missing(q.delta)
  }

  /** The sort key before the dictionary itself: distance from the target delta, open interest downwards, ask. */
  function Key(q: Quote): (real, int, real)
    requires q.delta.Some? && q.openInterest.Some?
  {
    (Abs(q.delta.value - TARGET_PUT_DELTA), -q.openInterest.value, q.ask)
  }

  predicate KeyLe(a: (real, int, real), b: (real, int, real)) {
    a.0 < b.0 || (a.0 == b.0 && (a.1 < b.1 || (a.1 == b.1 && a.2 <= b.2)))
  }

  type Ranked = seq<((real, int, real), Quote)>

  predicate RankLe(a: ((real, int, real), Quote), b: ((real, int, real), Quote)) {
    KeyLe(a.0, b.0)
  }

  /** Two different dictionaries with one key: comparing them raises TypeError, wherever they stand in the list. */
  predicate HasTie(ranked: Ranked) {
    exists i, j | 0 <= i < j < |ranked| :: ranked[i].0 == ranked[j].0 && ranked[i].1 != ranked[j].1
  }

  datatype SeedContract = SeedContract(
    contractId: string, strike: real, expiration: int, dte: int, bid: real, ask: real, mid: real,
    iv: Option<real>, delta: real, gamma: Option<real>, theta: Option<real>, vega: Option<real>, rho: Option<real>,
    unavailable: seq<string>, openInterest: int, volume: int)

  function OrNull(v: Option<real>): Option<real> {
    if Missing(v) then None else v
  }

  function Note(field: string, v: Option<real>): seq<string> {
    if Missing(v) then [field] else []
  }

  function SeedOf(q: Quote, expiry: int, today: int): SeedContract
    requires q.parsed.Some? && q.delta.Some? && q.openInterest.Some? && q.volume.Some?
  {
    SeedContract(q.contract, q.parsed.value.strike, expiry, expiry - today, q.bid, q.ask, (q.bid + q.ask) / 2.0,
                 OrNull(q.iv), q.delta.value, OrNull(q.gamma), OrNull(q.theta), OrNull(q.vega), OrNull(q.rho),
                 Note("implied_volatility", q.iv) + Note("gamma", q.gamma) + Note("theta", q.theta)
                   + Note("vega", q.vega) + Note("rho", q.rho),
                 q.openInterest.value, q.volume.value)
  }

  /** The latest expiry the desk may use: the one closest to thirty days from below. */
  ghost predicate IsChosenExpiry(options: seq<Quote>, symbol: string, today: int, expiry: int) {
    && Eligible(expiry, today)
    && (exists q :: q in options && IsPutOn(q, symbol) && Expires(q, expiry))
    && (forall q | q in options && IsPutOn(q, symbol) && Eligible(q.parsed.value.expiry, today) ::
          q.parsed.value.expiry <= expiry)
  }

  /** The quote wins: nothing selectable is better, and nothing but its own copies is as good. */
  ghost predicate Wins(q: Quote, options: seq<Quote>, symbol: string, expiry: int, mid: real) {
    && q in options && Selectable(q, symbol, expiry, mid) && q.openInterest.Some?
    && forall x | x in options && Selectable(x, symbol, expiry, mid) ::
         x.openInterest.Some? && KeyLe(Key(q), Key(x)) && (Key(x) == Key(q) ==> x == q)
  }

  /** Two selectable quotes of the expiry that share a key and are not the same dictionary. */
  ghost predicate Tied(options: seq<Quote>, symbol: string, expiry: int, mid: real) {
    exists x, y :: x in options && y in options && x != y
      && Selectable(x, symbol, expiry, mid) && Selectable(y, symbol, expiry, mid)
      && x.openInterest.Some? && y.openInterest.Some? && Key(x) == Key(y)
  }

  method ChooseExpiry(puts: seq<Quote>, symbol: string, today: int, ghost options: seq<Quote>)
    returns (expiry: Option<int>)
    requires forall q :: q in puts <==> q in options && IsPutOn(q, symbol)
    ensures expiry.Some? ==> IsChosenExpiry(options, symbol, today, expiry.value)
    ensures expiry.None? ==> forall q | q in options && IsPutOn(q, symbol) :: !Eligible(q.parsed.value.expiry, today)
  {
    var candidates: seq<(int, int)> := [];
    for i := 0 to |puts|
      invariant forall c | c in candidates ::
                  Eligible(c.1, today) && c == Distance(c.1, today) && exists k | 0 <= k < i :: Expires(puts[k], c.1)
      invariant forall k, e | 0 <= k < i && Expires(puts[k], e) && Eligible(e, today) ::
                  Distance(e, today) in candidates
    {
      assert puts[i] in puts;
      var e := puts[i].parsed.value.expiry;
      if Eligible(e, today) {
        candidates := candidates + [Distance(e, today)];
      }
    }
    if candidates == [] {
      forall q | q in options && IsPutOn(q, symbol)
        ensures !Eligible(q.parsed.value.expiry, today)
      {
        assert q in puts;
      }
      return None;
    }
    var sorted := Sorting.Sort(ExpiryLe, candidates);
    SortedHead(candidates);
    var chosen := sorted[0];
    var k :| 0 <= k < |puts| && Expires(puts[k], chosen.1);
    assert puts[k] in puts;
    forall q | q in options && IsPutOn(q, symbol) && Eligible(q.parsed.value.expiry, today)
      ensures q.parsed.value.expiry <= chosen.1
    {
      assert q in puts;
      var i :| 0 <= i < |puts| && puts[i] == q;
      assert Expires(puts[i], q.parsed.value.expiry);
    }
    return Some(chosen.1);
  }

  lemma SortedHead(candidates: seq<(int, int)>)
    requires candidates != []
    ensures var sorted := Sorting.Sort(ExpiryLe, candidates);
            sorted != [] && sorted[0] in candidates && forall c | c in candidates :: ExpiryLe(sorted[0], c)
  {
    Sorting.SortPermutes(ExpiryLe, candidates);
    Sorting.SortSorts(ExpiryLe, candidates);
    var sorted := Sorting.Sort(ExpiryLe, candidates);
    forall c | c in candidates
      ensures ExpiryLe(sorted[0], c)
    {
      assert c in sorted;
    }
  }

  /** The ranking loop over the puts; None when some selectable quote's open interest cannot be read. */
  method Rank(puts: seq<Quote>, symbol: string, expiry: int, mid: real) returns (ranked: Option<Ranked>)
    ensures ranked.None? ==> exists q :: q in puts && Selectable(q, symbol, expiry, mid) && q.openInterest.None?
    ensures ranked.Some? ==> RanksAll(ranked.value, puts, symbol, expiry, mid)
  {
    var found: Ranked := [];
    for i := 0 to |puts|
      invariant RanksAll(found, puts[..i], symbol, expiry, mid)
    {
      var q := puts[i];
      assert puts[..i + 1] == puts[..i] + [q];
      if Selectable(q, symbol, expiry, mid) {
        if q.openInterest.None? {
          return None;
        }
        found := found + [(Key(q), q)];
      }
    }
    assert puts[..|puts|] == puts;
    return Some(found);
  }

  /** The list holds exactly the selectable quotes with their keys. */
  ghost predicate RanksAll(ranked: Ranked, quotes: seq<Quote>, symbol: string, expiry: int, mid: real) {
    && (forall q | q in quotes && Selectable(q, symbol, expiry, mid) :: q.openInterest.Some? && (Key(q), q) in ranked)
    && (forall r | r in ranked ::
          r.1 in quotes && Selectable(r.1, symbol, expiry, mid) && r.1.openInterest.Some? && r.0 == Key(r.1))
  }

  lemma KeyOrder()
    ensures Sorting.IsOrder(RankLe)
  {
  }

  lemma {:induction false} BestOf(ranked: Ranked)
    requires ranked != []
    ensures var sorted := Sorting.Sort(RankLe, ranked);
            sorted != [] && sorted[0] in ranked && forall r | r in ranked :: KeyLe(sorted[0].0, r.0)
  {
    KeyOrder();
    Sorting.SortPermutes(RankLe, ranked);
    Sorting.SortSorts(RankLe, ranked);
    var sorted := Sorting.Sort(RankLe, ranked);
    forall r | r in ranked
      ensures KeyLe(sorted[0].0, r.0)
    {
      assert r in sorted;
    }
  }

  /** What each refusal means. */
  ghost predicate Explains(error: SelectError, c: Chain, symbol: string, today: int) {
    match error
    case SymbolRequired => symbol == ""
    case NoOptions => c.options == []
    case UnderlyingInvalid => UnderlyingMid(c) <= 0.0
    case NoExpiry => forall q | q in c.options && IsPutOn(q, symbol) :: !Eligible(q.parsed.value.expiry, today)
    case OpenInterestUnreadable =>
      exists e, q :: IsChosenExpiry(c.options, symbol, today, e)
        && q in c.options && Selectable(q, symbol, e, UnderlyingMid(c)) && q.openInterest.None?
    case NoSelectablePut =>
      exists e :: IsChosenExpiry(c.options, symbol, today, e)
        && forall q | q in c.options :: !Selectable(q, symbol, e, UnderlyingMid(c))
    case TiedQuotes =>
      exists e :: IsChosenExpiry(c.options, symbol, today, e) && Tied(c.options, symbol, e, UnderlyingMid(c))
    case VolumeUnreadable =>
      exists e, q ::
        IsChosenExpiry(c.options, symbol, today, e) && Wins(q, c.options, symbol, e, UnderlyingMid(c)) && q.volume.None?
  }

  /** The place of the check in the selection. */
  function Place(error: SelectError): nat {
    match error
    case SymbolRequired => 0
    case NoOptions => 1
    case UnderlyingInvalid => 2
    case NoExpiry => 3
    case OpenInterestUnreadable => 4
    case NoSelectablePut => 5
    case TiedQuotes => 6
    case VolumeUnreadable => 7
  }

  /** The first check that refuses. */
  ghost predicate FirstRefusal(error: SelectError, c: Chain, symbol: string, today: int) {
    Explains(error, c, symbol, today)
    && forall e: SelectError | Place(e) < Place(error) :: !Explains(e, c, symbol, today)
  }

  /** The seed is the winner's contract on the chosen expiry, and no two selectable quotes there tie. */
  ghost predicate SelectedBy(seed: SeedContract, c: Chain, symbol: string, today: int, expiry: int, q: Quote) {
    && IsChosenExpiry(c.options, symbol, today, expiry)
    && Wins(q, c.options, symbol, expiry, UnderlyingMid(c))
    && !Tied(c.options, symbol, expiry, UnderlyingMid(c))
    && q.volume.Some? && seed == SeedOf(q, expiry, today)
  }

  ghost predicate IsSelection(seed: SeedContract, c: Chain, symbol: string, today: int) {
    symbol != "" && UnderlyingMid(c) > 0.0 && exists e, q :: SelectedBy(seed, c, symbol, today, e, q)
  }

  method SelectSeedPut(c: Chain, symbol: string, today: int) returns (r: Result<SeedContract, SelectError>)
    ensures if r.Ok? then IsSelection(r.value, c, symbol, today) else FirstRefusal(r.error, c, symbol, today)
  {
    hide Selectable, Key, KeyLe, UnderlyingMid, Eligible, SeedOf, Tied, HasTie;
    if symbol == "" {
      return Err(SymbolRequired);
    }
    if c.options == [] {
      return Err(NoOptions);
    }
    var mid := UnderlyingMid(c);
    if mid <= 0.0 {
      return Err(UnderlyingInvalid);
    }
    var puts := ParsePuts(c.options, symbol);
    var chosen := ChooseExpiry(puts, symbol, today, c.options);
    if chosen.None? {
      return Err(NoExpiry);
    }
    var expiry := chosen.value;
    PutsAreEnough(c.options, puts, symbol, expiry, mid);
    OnlyExpiry(c.options, symbol, today, expiry);
    assert !Explains(NoExpiry, c, symbol, today);
    var ranked := Rank(puts, symbol, expiry, mid);
    if ranked.None? {
      return Err(OpenInterestUnreadable);
    }
    assert !Explains(OpenInterestUnreadable, c, symbol, today);
    if ranked.value == [] {
      assert forall q | q in c.options :: !Selectable(q, symbol, expiry, mid);
      return Err(NoSelectablePut);
    }
    assert !Explains(NoSelectablePut, c, symbol, today) by {
      assert ranked.value[0] in ranked.value;
    }
    if HasTie(ranked.value) {
      TieMeans(ranked.value, puts, c.options, symbol, expiry, mid);
      return Err(TiedQuotes);
    }
    var best := Sorting.Sort(RankLe, ranked.value);
    BestOf(ranked.value);
    var q := best[0].1;
    BestWins(ranked.value, puts, c.options, symbol, expiry, mid);
    NoTieMeans(ranked.value, puts, c.options, symbol, expiry, mid);
    if q.volume.None? {
      return Err(VolumeUnreadable);
    }
    SelectableHas(q, symbol, expiry, mid);
    assert SelectedBy(SeedOf(q, expiry, today), c, symbol, today, expiry, q);
    return Ok(SeedOf(q, expiry, today));
  }

  lemma OnlyExpiry(options: seq<Quote>, symbol: string, today: int, expiry: int)
    requires IsChosenExpiry(options, symbol, today, expiry)
    ensures forall e | IsChosenExpiry(options, symbol, today, e) :: e == expiry
  {
    forall e | IsChosenExpiry(options, symbol, today, e)
      ensures e == expiry
    {
      OneExpiry(options, symbol, today, e, expiry);
    }
  }

  lemma SelectableHas(q: Quote, symbol: string, expiry: int, mid: real)
    requires Selectable(q, symbol, expiry, mid)
    ensures q.parsed.Some? && q.delta.Some? && IsPutOn(q, symbol)
  {
  }

  method ParsePuts(options: seq<Quote>, symbol: string) returns (puts: seq<Quote>)
    ensures forall q :: q in puts <==> q in options && IsPutOn(q, symbol)
  {
    puts := [];
    for i := 0 to |options|
      invariant forall q :: q in puts <==> q in options[..i] && IsPutOn(q, symbol)
    {
      assert options[..i + 1] == options[..i] + [options[i]];
      if options[i].parsed.Some? && options[i].parsed.value.underlying == symbol && options[i].parsed.value.isPut {
        puts := puts + [options[i]];
      }
    }
    assert options[..|options|] == options;
  }

  lemma PutsAreEnough(options: seq<Quote>, puts: seq<Quote>, symbol: string, expiry: int, mid: real)
    requires forall q :: q in puts <==> q in options && IsPutOn(q, symbol)
    ensures forall q | Selectable(q, symbol, expiry, mid) :: q in puts <==> q in options
  {
  }

  lemma TieMeans(ranked: Ranked, puts: seq<Quote>, options: seq<Quote>, symbol: string, expiry: int, mid: real)
    requires RanksAll(ranked, puts, symbol, expiry, mid) && HasTie(ranked)
    requires forall q | Selectable(q, symbol, expiry, mid) :: q in puts <==> q in options
    ensures Tied(options, symbol, expiry, mid)
  {
    hide Selectable, Key;
    var i, j :| 0 <= i < j < |ranked| && ranked[i].0 == ranked[j].0 && ranked[i].1 != ranked[j].1;
    assert ranked[i] in ranked && ranked[j] in ranked;
  }

  lemma BestWins(ranked: Ranked, puts: seq<Quote>, options: seq<Quote>, symbol: string, expiry: int, mid: real)
    requires RanksAll(ranked, puts, symbol, expiry, mid) && !HasTie(ranked) && ranked != []
    requires forall q | Selectable(q, symbol, expiry, mid) :: q in puts <==> q in options
    ensures Sorting.Sort(RankLe, ranked) != [] && Wins(Sorting.Sort(RankLe, ranked)[0].1, options, symbol, expiry, mid)
  {
    hide Selectable, Key, KeyLe;
    BestOf(ranked);
    var best := Sorting.Sort(RankLe, ranked)[0];
    SelectableHas(best.1, symbol, expiry, mid);
    forall x | x in options && Selectable(x, symbol, expiry, mid)
      ensures x.openInterest.Some? && x.delta.Some? && KeyLe(Key(best.1), Key(x))
              && (Key(x) == Key(best.1) ==> x == best.1)
    {
      SelectableHas(x, symbol, expiry, mid);
      assert (Key(x), x) in ranked;
      var i :| 0 <= i < |ranked| && ranked[i] == (Key(x), x);
      var j :| 0 <= j < |ranked| && ranked[j] == best;
      assert i < j || j < i || x == best.1;
    }
  }

  lemma NoTieMeans(ranked: Ranked, puts: seq<Quote>, options: seq<Quote>, symbol: string, expiry: int, mid: real)
    requires RanksAll(ranked, puts, symbol, expiry, mid) && !HasTie(ranked)
    requires forall q | Selectable(q, symbol, expiry, mid) :: q in puts <==> q in options
    ensures !Tied(options, symbol, expiry, mid)
  {
    hide Selectable, Key;
    forall x, y | x in options && y in options && x != y && Selectable(x, symbol, expiry, mid)
           && Selectable(y, symbol, expiry, mid)
      ensures x.openInterest.Some? && y.openInterest.Some? && x.delta.Some? && y.delta.Some? ==> Key(x) != Key(y)
    {
      SelectableHas(x, symbol, expiry, mid);
      SelectableHas(y, symbol, expiry, mid);
      assert (Key(x), x) in ranked && (Key(y), y) in ranked;
      var i :| 0 <= i < |ranked| && ranked[i] == (Key(x), x);
      var j :| 0 <= j < |ranked| && ranked[j] == (Key(y), y);
      assert i < j || j < i;
    }
  }

  lemma OneExpiry(options: seq<Quote>, symbol: string, today: int, d: int, e: int)
    requires IsChosenExpiry(options, symbol, today, d) && IsChosenExpiry(options, symbol, today, e)
    ensures d == e
  {
    var x :| x in options && IsPutOn(x, symbol) && Expires(x, d);
    var y :| y in options && IsPutOn(y, symbol) && Expires(y, e);
  }

  lemma OneWinner(options: seq<Quote>, symbol: string, expiry: int, mid: real, x: Quote, y: Quote)
    requires Wins(x, options, symbol, expiry, mid) && Wins(y, options, symbol, expiry, mid)
    ensures x == y
  {
    hide Selectable, Key;
    SelectableHas(x, symbol, expiry, mid);
    SelectableHas(y, symbol, expiry, mid);
  }

  lemma SelectedFacts(seed: SeedContract, c: Chain, symbol: string, today: int, expiry: int, q: Quote)
    requires SelectedBy(seed, c, symbol, today, expiry, q)
    ensures IsChosenExpiry(c.options, symbol, today, expiry) && Wins(q, c.options, symbol, expiry, UnderlyingMid(c))
    ensures !Tied(c.options, symbol, expiry, UnderlyingMid(c))
    ensures q in c.options && Selectable(q, symbol, expiry, UnderlyingMid(c)) && Eligible(expiry, today)
    ensures q.parsed.Some? && q.delta.Some? && q.openInterest.Some? && q.volume.Some?
            && seed == SeedOf(q, expiry, today)
    ensures forall x | x in c.options && Selectable(x, symbol, expiry, UnderlyingMid(c)) :: x.openInterest.Some?
  {
  }

  /** There is only one seed a chain can yield. */
  lemma SelectionIsUnique(a: SeedContract, b: SeedContract, c: Chain, symbol: string, today: int)
    requires IsSelection(a, c, symbol, today) && IsSelection(b, c, symbol, today)
    ensures a == b
  {
    hide SelectedBy, Wins, IsChosenExpiry, SeedOf, Tied, UnderlyingMid;
    var d, x :| SelectedBy(a, c, symbol, today, d, x);
    var e, y :| SelectedBy(b, c, symbol, today, e, y);
    SelectedFacts(a, c, symbol, today, d, x);
    SelectedFacts(b, c, symbol, today, e, y);
    OneExpiry(c.options, symbol, today, d, e);
    OneWinner(c.options, symbol, d, UnderlyingMid(c), x, y);
  }

  /**
   * A refusal is never given where a seed exists: with the method's contract, selection succeeds
   * exactly when no refusal applies.
   */
  lemma RefusalsAreExact(error: SelectError, seed: SeedContract, c: Chain, symbol: string, today: int)
    requires Explains(error, c, symbol, today)
    ensures !IsSelection(seed, c, symbol, today)
  {
    hide SelectedBy, Selectable, Key, KeyLe, UnderlyingMid, Eligible, SeedOf, Tied, Wins;
    if IsSelection(seed, c, symbol, today) {
      var mid := UnderlyingMid(c);
      var d, x :| SelectedBy(seed, c, symbol, today, d, x);
      SelectedFacts(seed, c, symbol, today, d, x);
      NotExplained(error, c, symbol, today, d, x, mid);
      assert false;
    }
  }

  lemma NotExplained(error: SelectError, c: Chain, symbol: string, today: int, d: int, x: Quote, mid: real)
    requires mid == UnderlyingMid(c) > 0.0 && symbol != ""
    requires IsChosenExpiry(c.options, symbol, today, d) && Wins(x, c.options, symbol, d, mid) && x.volume.Some?
    requires !Tied(c.options, symbol, d, mid) && x in c.options && Selectable(x, symbol, d, mid)
    requires forall y | y in c.options && Selectable(y, symbol, d, mid) :: y.openInterest.Some?
    ensures !Explains(error, c, symbol, today)
  {
    hide Selectable, UnderlyingMid, Tied, Wins;
    forall e | IsChosenExpiry(c.options, symbol, today, e)
      ensures e == d
    {
      OneExpiry(c.options, symbol, today, d, e);
    }
    forall q | Wins(q, c.options, symbol, d, mid)
      ensures q == x
    {
      OneWinner(c.options, symbol, d, mid, x, q);
    }
  }

  /**
   * What was picked: an executable out-of-the-money put, more than 7 and at most 30 days out,
   * marked between bid and ask.
   */
  lemma PickedContract(seed: SeedContract, c: Chain, symbol: string, today: int)
    requires IsSelection(seed, c, symbol, today)
    ensures MIN_DTE < seed.dte <= MAX_DTE && seed.expiration == today + seed.dte
    ensures 0.0 < seed.bid <= seed.mid <= seed.ask && seed.mid - seed.bid == seed.ask - seed.mid
    ensures seed.strike < UnderlyingMid(c) && seed.delta != 0.0 && seed.iv.Some? && seed.iv.value > 0.0
    ensures exists q ::
              q in c.options && IsPutOn(q, symbol) && q.contract == seed.contractId && Expires(q, seed.expiration)
  {
    hide SelectedBy, UnderlyingMid, IsChosenExpiry, Wins, Tied;
    var e, q :| SelectedBy(seed, c, symbol, today, e, q);
    SelectedFacts(seed, c, symbol, today, e, q);
  }
}
