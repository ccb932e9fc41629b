/** What the seed selection answers, in terms of the quotes alone: which contract, and why there is none. */
module OptionsSeedAnswers {
  import opened Common
  import opened OptionsSeed
  import opened OptionsSeedStore

  // ---------------------------------------------------------------- the quotes

  /** Half way between bid and ask, or the current price where that is not positive. */
  function Price(c: Chain): real {
    if c.bid + c.ask > 0.0 then (c.bid + c.ask) / 2.0 else c.currentPrice
  }

  /** A put on the symbol with that expiry. */
  predicate PutAt(q: Quote, symbol: string, expiry: int) {
    match q.parsed
    case None => false
    case Some(p) => p.underlying == symbol && p.isPut && p.expiry == expiry
  }

  predicate InScope(expiry: int, today: int) {
    today + 8 <= expiry <= today + 30
  }

  /** Of the put expiries 8 to 30 days out, the latest. */
  ghost predicate Latest(c: Chain, symbol: string, today: int, expiry: int) {
    && InScope(expiry, today) && (exists q :: q in c.options && PutAt(q, symbol, expiry))
    && forall q, e | q in c.options && PutAt(q, symbol, e) && InScope(e, today) :: e <= expiry
  }

  /** Out of the money, with sizes on both sides of an uncrossed market, an implied volatility and a delta. */
  predicate Fit(q: Quote, price: real) {
    && q.parsed.Some? && q.parsed.value.strike < price
    && 0.0 < q.bid <= q.ask && q.bidSize.Some? && q.bidSize.value >= 1 && q.askSize.Some? && q.askSize.value >= 1
    && q.iv.Some? && q.iv.value > 0.0 && q.delta.Some? && q.delta.value != 0.0
  }

  predicate Rival(c: Chain, symbol: string, expiry: int, q: Quote) {
    q in c.options && PutAt(q, symbol, expiry) && Fit(q, Price(c))
  }

  /** How far the delta is from -0.30. */
  function Miss(q: Quote): real
    requires q.delta.Some?
  {
    if q.delta.value >= -0.30 then q.delta.value + 0.30 else -0.30 - q.delta.value
  }

  /** The nearer delta, then the larger open interest, then the lower ask. */
  predicate Better(a: Quote, b: Quote)
    requires a.delta.Some? && a.openInterest.Some? && b.delta.Some? && b.openInterest.Some?
  {
    || Miss(a) < Miss(b)
    || (Miss(a) == Miss(b) && a.openInterest.value > b.openInterest.value)
    || (Miss(a) == Miss(b) && a.openInterest == b.openInterest && a.ask < b.ask)
  }

  /** Among the rivals the quote is the best, all of them can be compared, and no two are level. */
  ghost predicate Best(c: Chain, symbol: string, expiry: int, q: Quote) {
    && Rival(c, symbol, expiry, q) && q.openInterest.Some?
    && (forall x | Rival(c, symbol, expiry, x) :: x.openInterest.Some?)
    && (forall x | Rival(c, symbol, expiry, x) && x != q :: Better(q, x))
    && !Level(c, symbol, expiry)
  }

  /** Two different rivals of which neither is better. */
  ghost predicate Level(c: Chain, symbol: string, expiry: int) {
    exists x, y ::
      && Rival(c, symbol, expiry, x) && Rival(c, symbol, expiry, y) && x != y
      && x.openInterest.Some? && y.openInterest.Some? && !Better(x, y) && !Better(y, x)
  }

  lemma PriceIs(c: Chain)
    ensures UnderlyingMid(c) == Price(c)
  {
  }

  lemma RivalIs(c: Chain, symbol: string, expiry: int, q: Quote)
    ensures q in c.options && Selectable(q, symbol, expiry, UnderlyingMid(c)) <==> Rival(c, symbol, expiry, q)
  {
    PriceIs(c);
  }

  lemma LatestIs(c: Chain, symbol: string, today: int, expiry: int)
    ensures IsChosenExpiry(c.options, symbol, today, expiry) <==> Latest(c, symbol, today, expiry)
  {
    assert forall q, e :: PutAt(q, symbol, e) <==> IsPutOn(q, symbol) && Expires(q, e);
    assert forall e :: InScope(e, today) <==> Eligible(e, today);
    if Latest(c, symbol, today, expiry) {
      forall q | q in c.options && IsPutOn(q, symbol) && Eligible(q.parsed.value.expiry, today)
        ensures q.parsed.value.expiry <= expiry
      {
        assert PutAt(q, symbol, q.parsed.value.expiry);
      }
    }
  }

  lemma OrderIs(a: Quote, b: Quote)
    requires a.delta.Some? && a.openInterest.Some? && b.delta.Some? && b.openInterest.Some?
    ensures KeyLe(Key(a), Key(b)) <==> !Better(b, a)
    ensures Key(a) == Key(b) <==> !Better(a, b) && !Better(b, a)
  {
  }

  lemma LevelIs(c: Chain, symbol: string, expiry: int)
    ensures Tied(c.options, symbol, expiry, UnderlyingMid(c)) <==> Level(c, symbol, expiry)
  {
    hide Selectable, Key, Better, UnderlyingMid, PutAt;
    var mid := UnderlyingMid(c);
    forall x | x in c.options
      ensures Selectable(x, symbol, expiry, mid) <==> Rival(c, symbol, expiry, x)
      ensures Rival(c, symbol, expiry, x) ==> x.delta.Some?
    {
      RivalIs(c, symbol, expiry, x);
    }
    forall x: Quote, y: Quote | x.delta.Some? && x.openInterest.Some? && y.delta.Some? && y.openInterest.Some?
      ensures Key(x) == Key(y) <==> !Better(x, y) && !Better(y, x)
    {
      OrderIs(x, y);
    }
    hide Rival, Fit;
  }

  /** The quote is the best rival exactly when it wins without a tie anywhere. */
  lemma BestIs(c: Chain, symbol: string, expiry: int, q: Quote)
    ensures Wins(q, c.options, symbol, expiry, UnderlyingMid(c)) && !Tied(c.options, symbol, expiry, UnderlyingMid(c))
       <==> Best(c, symbol, expiry, q)
  {
    hide Selectable, Key, KeyLe, Better, UnderlyingMid, PutAt, Tied, Level;
    LevelIs(c, symbol, expiry);
    var mid := UnderlyingMid(c);
    forall x | x in c.options
      ensures Selectable(x, symbol, expiry, mid) <==> Rival(c, symbol, expiry, x)
      ensures Rival(c, symbol, expiry, x) ==> x.delta.Some?
    {
      RivalIs(c, symbol, expiry, x);
    }
    forall x: Quote, y: Quote | x.delta.Some? && x.openInterest.Some? && y.delta.Some? && y.openInterest.Some?
      ensures KeyLe(Key(x), Key(y)) <==> !Better(y, x)
      ensures Key(x) == Key(y) <==> !Better(x, y) && !Better(y, x)
      ensures !(Better(x, y) && Better(y, x))
    {
      OrderIs(x, y);
      OneIsBetter(x, y);
    }
    hide Rival, Fit;
  }

  lemma OneIsBetter(a: Quote, b: Quote)
    requires a.delta.Some? && a.openInterest.Some? && b.delta.Some? && b.openInterest.Some?
    ensures !(Better(a, b) && Better(b, a))
  {
  }

  // ---------------------------------------------------------------- the seed

  /** The names of the values that the source did not compute, in the order given. */
  function Uncomputed(values: seq<(string, Option<real>)>): seq<string> {
    if values == [] then []
    else (if values[0].1 in {None, Some(0.0)} then [values[0].0] else []) + Uncomputed(values[1..])
  }

  /** A Greek that the source did not compute is absent, never a zero. */
  function Computed(v: Option<real>): Option<real> {
    if v == Some(0.0) then None else v
  }

  /** What the seed says of the quote. */
  predicate SaysOf(seed: SeedContract, q: Quote, expiry: int, today: int) {
    && q.parsed.Some? && q.delta.Some? && q.openInterest.Some? && q.volume.Some?
    && seed.contractId == q.contract && seed.strike == q.parsed.value.strike
    && seed.expiration == expiry && seed.dte == expiry - today
    && seed.bid == q.bid && seed.ask == q.ask && seed.mid + seed.mid == q.bid + q.ask
    && seed.iv == Computed(q.iv) && seed.delta == q.delta.value
    && seed.gamma == Computed(q.gamma) && seed.theta == Computed(q.theta)
    && seed.vega == Computed(q.vega) && seed.rho == Computed(q.rho)
    && seed.openInterest == q.openInterest.value && seed.volume == q.volume.value
    && seed.unavailable == Uncomputed([("implied_volatility", q.iv), ("gamma", q.gamma), ("theta", q.theta),
                                       ("vega", q.vega), ("rho", q.rho)])
  }

  lemma SeedIs(seed: SeedContract, q: Quote, expiry: int, today: int)
    requires q.parsed.Some? && q.delta.Some? && q.openInterest.Some? && q.volume.Some?
    ensures seed == SeedOf(q, expiry, today) <==> SaysOf(seed, q, expiry, today)
  {
    UncomputedAre(q);
    hide Uncomputed, Note;
  }

  lemma UncomputedAre(q: Quote)
    ensures Uncomputed([("implied_volatility", q.iv), ("gamma", q.gamma), ("theta", q.theta), ("vega", q.vega),
                        ("rho", q.rho)])
         == Note("implied_volatility", q.iv) + Note("gamma", q.gamma) + Note("theta", q.theta)
            + Note("vega", q.vega) + Note("rho", q.rho)
  {
    hide Uncomputed, Note;
    var iv, gamma, theta := ("implied_volatility", q.iv), ("gamma", q.gamma), ("theta", q.theta);
    var vega, rho := ("vega", q.vega), ("rho", q.rho);
    NoneMore();
    OneMore("rho", q.rho, []);
    OneMore("vega", q.vega, [rho] + []);
    OneMore("theta", q.theta, [vega] + ([rho] + []));
    OneMore("gamma", q.gamma, [theta] + ([vega] + ([rho] + [])));
    OneMore("implied_volatility", q.iv, [gamma] + ([theta] + ([vega] + ([rho] + []))));
    assert [iv] + ([gamma] + ([theta] + ([vega] + ([rho] + [])))) == [iv, gamma, theta, vega, rho];
    assert Note("rho", q.rho) + [] == Note("rho", q.rho);
  }

  lemma NoneMore()
    ensures Uncomputed([]) == []
  {
  }

  lemma OneMore(field: string, v: Option<real>, rest: seq<(string, Option<real>)>)
    ensures Uncomputed([(field, v)] + rest) == Note(field, v) + Uncomputed(rest)
  {
    assert ([(field, v)] + rest)[1..] == rest;
  }

  ghost predicate Picks(seed: SeedContract, c: Chain, symbol: string, today: int, expiry: int, q: Quote) {
    Latest(c, symbol, today, expiry) && Best(c, symbol, expiry, q) && SaysOf(seed, q, expiry, today)
  }

  /** A seed is selected exactly when it describes the best rival on the latest expiry in scope. */
  lemma SelectsExactlyWhen(seed: SeedContract, c: Chain, symbol: string, today: int)
    ensures IsSelection(seed, c, symbol, today)
       <==> symbol != "" && Price(c) > 0.0 && exists e, q :: Picks(seed, c, symbol, today, e, q)
  {
    hide UnderlyingMid, IsChosenExpiry, Wins, Tied, SeedOf, Price, Latest, Best, SaysOf;
    PriceIs(c);
    forall e, q
      ensures SelectedBy(seed, c, symbol, today, e, q) <==> Picks(seed, c, symbol, today, e, q)
    {
      LatestIs(c, symbol, today, e);
      BestIs(c, symbol, e, q);
      BestHas(c, symbol, e, q);
      if q.parsed.Some? && q.delta.Some? && q.openInterest.Some? && q.volume.Some? {
        SeedIs(seed, q, e, today);
      }
      SaysOfWhom(seed, q, e, today);
    }
  }

  lemma BestHas(c: Chain, symbol: string, expiry: int, q: Quote)
    ensures Best(c, symbol, expiry, q) ==> q.parsed.Some? && q.delta.Some? && q.openInterest.Some?
  {
  }

  lemma SaysOfWhom(seed: SeedContract, q: Quote, expiry: int, today: int)
    ensures SaysOf(seed, q, expiry, today) ==> q.volume.Some?
  {
  }

  /** What makes the selection refuse, check by check. */
  ghost predicate Refuses(error: SelectError, c: Chain, symbol: string, today: int) {
    match error
    case SymbolRequired => symbol == ""
    case NoOptions => |c.options| == 0
    case UnderlyingInvalid => Price(c) <= 0.0
    case NoExpiry => forall q, e | q in c.options && PutAt(q, symbol, e) :: !InScope(e, today)
    case OpenInterestUnreadable =>
      exists e, q :: Latest(c, symbol, today, e) && Rival(c, symbol, e, q) && q.openInterest.None?
    case NoSelectablePut => exists e :: Latest(c, symbol, today, e) && forall q :: !Rival(c, symbol, e, q)
    case TiedQuotes => exists e :: Latest(c, symbol, today, e) && Level(c, symbol, e)
    case VolumeUnreadable =>
      exists e, q :: Latest(c, symbol, today, e) && Best(c, symbol, e, q) && q.volume.None?
  }

  /** The checks in their order. */
  function Checks(): seq<SelectError> {
    [SymbolRequired, NoOptions, UnderlyingInvalid, NoExpiry, OpenInterestUnreadable, NoSelectablePut, TiedQuotes,
     VolumeUnreadable]
  }

  lemma PlacesAre(i: nat)
    requires i < |Checks()|
    ensures Place(Checks()[i]) == i
  {
  }

  /** The refusal that is given holds of the quotes, and none that is checked before it does. */
  lemma RefusalMeans(error: SelectError, c: Chain, symbol: string, today: int)
    requires FirstRefusal(error, c, symbol, today)
    ensures Refuses(error, c, symbol, today)
    ensures forall i, j | 0 <= i < j < |Checks()| && Checks()[j] == error :: !Refuses(Checks()[i], c, symbol, today)
  {
    hide Place, Refuses, Explains;
    RefusesIs(error, c, symbol, today);
    forall i, j | 0 <= i < j < |Checks()| && Checks()[j] == error
      ensures !Refuses(Checks()[i], c, symbol, today)
    {
      PlacesAre(i);
      PlacesAre(j);
      RefusesIs(Checks()[i], c, symbol, today);
    }
    if error.VolumeUnreadable? {
      TieComesBefore();
      assert !Explains(TiedQuotes, c, symbol, today);
    }
  }

  lemma TieComesBefore()
    ensures Place(TiedQuotes) < Place(VolumeUnreadable)
  {
  }

  lemma RefusesIs(error: SelectError, c: Chain, symbol: string, today: int)
    ensures Refuses(error, c, symbol, today) ==> Explains(error, c, symbol, today)
    ensures Explains(error, c, symbol, today) && !Explains(TiedQuotes, c, symbol, today) ==>
              Refuses(error, c, symbol, today)
    ensures Explains(error, c, symbol, today) && error != VolumeUnreadable ==> Refuses(error, c, symbol, today)
  {
    PriceIs(c);
    forall q
      ensures IsPutOn(q, symbol) ==> (Eligible(q.parsed.value.expiry, today) <==> InScope(q.parsed.value.expiry, today))
      ensures IsPutOn(q, symbol) ==> PutAt(q, symbol, q.parsed.value.expiry)
      ensures forall e :: PutAt(q, symbol, e) ==> IsPutOn(q, symbol) && q.parsed.value.expiry == e
    {
    }
    forall e
      ensures IsChosenExpiry(c.options, symbol, today, e) <==> Latest(c, symbol, today, e)
      ensures Tied(c.options, symbol, e, UnderlyingMid(c)) <==> Level(c, symbol, e)
    {
      LatestIs(c, symbol, today, e);
      LevelIs(c, symbol, e);
    }
    var mid := UnderlyingMid(c);
    forall e, q
      ensures q in c.options && Selectable(q, symbol, e, mid) <==> Rival(c, symbol, e, q)
      ensures Wins(q, c.options, symbol, e, mid) && !Tied(c.options, symbol, e, mid) <==> Best(c, symbol, e, q)
    {
      RivalIs(c, symbol, e, q);
      BestIs(c, symbol, e, q);
    }
    hide UnderlyingMid, IsPutOn, Eligible, InScope, PutAt, IsChosenExpiry, Latest, Tied, Level, Selectable, Rival, Wins;
    hide Best, Price;
  }

  // ---------------------------------------------------------------- the dictionary and the file

  /** Every field of the dictionary that is written, constants included. */
  lemma DictSays(s: SeedContract, symbol: string, c: Chain, asOf: int, refresh: Refresh)
    ensures var d := SeedToDict(s, symbol, c, asOf, refresh);
            && d.schemaVersion == "hedge-desk-options-seed-1.0.0" && d.dataMode == "batch"
            && d.source == "cboe-delayed" && d.symbol == symbol && d.refresh == refresh && d.asOf == Some(asOf)
            && d.contractId == s.contractId && d.strike == Number(s.strike)
            && d.expiration == Some(s.expiration) && d.dte == Some(s.dte)
            && d.bid == Number(s.bid) && d.ask == Number(s.ask) && d.mid == Number(s.mid) && d.delta == Number(s.delta)
            && (forall k, v | (k, v) in [(s.iv, d.iv), (s.gamma, d.gamma), (s.theta, d.theta), (s.vega, d.vega),
                                         (s.rho, d.rho)] ::
                  (k.None? <==> v == Null) && (k.Some? ==> v == Number(k.value)))
            && d.unavailable == s.unavailable && d.openInterest == s.openInterest && d.volume == s.volume
            && d.underlyingBid == c.bid && d.underlyingAsk == c.ask && d.underlyingPrice == c.currentPrice
  {
  }

  /** A Greek is given or declared unavailable, and never a zero. */
  predicate GreekGiven(d: Seed, field: string, v: Field) {
    (v.Null? && field in d.unavailable) || (v.Number? && v.value != 0.0)
  }

  /** What the workbench accepts. */
  lemma ValidMeans(d: Seed)
    ensures Valid(d)
       <==> && d.schemaVersion == "hedge-desk-options-seed-1.0.0" && d.dataMode in {"batch", "live", "scenario"}
            && d.contractId != "" && d.source != "" && d.expiration != None && d.asOf != None
            && d.dte.Some? && 1 <= d.dte.value <= 30
            && d.bid.Number? && d.ask.Number? && 0.0 < d.bid.value && d.bid.value <= d.ask.value
            && d.iv.Number? && d.iv.value > 0.0
            && GreekGiven(d, "delta", d.delta) && GreekGiven(d, "gamma", d.gamma) && GreekGiven(d, "theta", d.theta)
            && GreekGiven(d, "vega", d.vega) && GreekGiven(d, "rho", d.rho)
  {
    var greeks := Greeks(d);
    assert greeks[0] == ("delta", d.delta) && greeks[1] == ("gamma", d.gamma) && greeks[2] == ("theta", d.theta);
    assert greeks[3] == ("vega", d.vega) && greeks[4] == ("rho", d.rho);
  }

  /** What is wrong with the Greek. */
  predicate WrongSo(d: Seed, field: string, v: Field, error: SeedError) {
    match error
    case UndeclaredGreek(named) => named == field && v.Null? && field !in d.unavailable
    case ZeroFilledGreek(named) => named == field && v == Number(0.0)
    case BadMoney => v.Unreadable?
    case _ => false
  }

  /** With everything else in order, the error is the one of the first Greek that is neither given nor declared. */
  lemma GreekErrorMeans(d: Seed, error: SeedError)
    ensures FirstGreekError(d, error)
       <==> exists k ::
              && 0 <= k < |Listed(d)| && WrongSo(d, Listed(d)[k].0, Listed(d)[k].1, error)
              && forall i | 0 <= i < k :: GreekGiven(d, Listed(d)[i].0, Listed(d)[i].1)
  {
    hide GreekError, WrongSo, GreekGiven;
    assert Greeks(d) == Listed(d);
    forall k | 0 <= k < |Listed(d)|
      ensures GreekError(d, Listed(d)[k].0, Listed(d)[k].1) == Some(error)
         <==> WrongSo(d, Listed(d)[k].0, Listed(d)[k].1, error)
      ensures GreekError(d, Listed(d)[k].0, Listed(d)[k].1).None?
         <==> GreekGiven(d, Listed(d)[k].0, Listed(d)[k].1)
    {
      OneGreek(d, Listed(d)[k].0, Listed(d)[k].1, error);
    }
  }

  function Listed(d: Seed): seq<(string, Field)> {
    [("delta", d.delta), ("gamma", d.gamma), ("theta", d.theta), ("vega", d.vega), ("rho", d.rho)]
  }

  lemma OneGreek(d: Seed, field: string, v: Field, error: SeedError)
    ensures GreekError(d, field, v) == Some(error) <==> WrongSo(d, field, v, error)
    ensures GreekError(d, field, v).None? <==> GreekGiven(d, field, v)
  {
  }

  /** The seed is the selection of SPY on the day of the attempt. */
  ghost predicate IsToday(a: Attempt, s: SeedContract) {
    a.fetched.Some? && IsSelection(s, a.fetched.value, "SPY", a.now / 86_400_000_000)
  }

  /**
   * A refresh stores the day's selection if there is one. Otherwise it keeps what was stored and
   * says since when, or without that fails with exit code 1.
   */
  lemma RefreshMeans(stored: Option<Seed>, a: Attempt)
    ensures forall s | IsToday(a, s) ::
              Step(stored, a) == (Some(SeedToDict(s, "SPY", a.fetched.value, a.now, RefreshOk(a.now))), 0)
    ensures (forall s :: !IsToday(a, s)) ==>
              Step(stored, a) == match stored
                                 case None => (None, 1)
                                 case Some(d) => (Some(d.(refresh := FetchFailed(a.now, a.reason, d.asOf))), 0)
  {
    hide IsSelection, SeedToDict;
    if Succeeds(a) {
      assert IsToday(a, Picked(a));
      forall s | IsToday(a, s)
        ensures s == Picked(a)
      {
        SelectionIsUnique(s, Picked(a), a.fetched.value, "SPY", a.now / 86_400_000_000);
      }
    }
  }
}
