/**
 * Where the limiters and the code table meet. The limiters live in the process and the codes
 * outlive it: while no restart comes between, an address never has more than five live sign-in
 * codes, and the two stores agree on every code of an address that names itself; a restart can
 * leave six.
 */
module CodeBudget {
  import opened Common
  import opened Membership
  import opened Otps
  import opened QueryText
  import opened AuthApp
  import opened AuthTheorems
  import Limits = AuthRateLimits
  import MembershipTheorems
  import RateLimiter

  // ---------------------------------------------------------------- what the limiters saw

  predicate AsksForCode(r: Request) {
    r.action.RequestCode? && LooksLikeEmail(r.action.email)
  }

  /** The requests for codes since the last start. */
  function CodeRequests(rs: seq<Request>): seq<Limits.Request> {
    if rs == [] then []
    else
      var before, r := rs[..|rs| - 1], rs[|rs| - 1];
      if r.action.Restart? then []
      else if AsksForCode(r) then CodeRequests(before) + [LimitedRequest(r.action)]
      else CodeRequests(before)
  }

  lemma OwnLimitsMove(c: Config, hash: string -> string, app: App, r: Request)
    requires Possible(c, app, hash, r) && !AsksWho(r.action)
    ensures Step(c, hash, app, r).0.limits
         == if r.action.Restart? then NO_REQUESTS
            else if AsksForCode(r) then Limits.RequestStep(app.limits, LimitedRequest(r.action)).0
            else app.limits
  {
    hide StoreStep, Limits.RequestStep, RateLimiter.AllowStep, Opened, Spent, AccessDecisionFor, Seen, RoleFor,
         CallerStep;
  }

  lemma LimitsMove(c: Config, hash: string -> string, app: App, r: Request)
    requires Possible(c, app, hash, r)
    ensures Step(c, hash, app, r).0.limits
         == if r.action.Restart? then NO_REQUESTS
            else if AsksForCode(r) then Limits.RequestStep(app.limits, LimitedRequest(r.action)).0
            else app.limits
  {
    hide Step, Possible;
    if AsksWho(r.action) {
      CallerStepKeeps(c, hash, app, r);
    } else {
      OwnLimitsMove(c, hash, app, r);
    }
  }

  /** The limiters are where the requests since the last start alone would have taken them. */
  lemma {:induction false} LimitersSawThose(c: Config, hash: string -> string, rs: seq<Request>)
    ensures Reach(c, hash, rs).limits == Limits.RunRequests(CodeRequests(rs))
  {
    hide Step, Limits.RequestStep;
    if rs != [] {
      var before, r := rs[..|rs| - 1], rs[|rs| - 1];
      LimitersSawThose(c, hash, before);
      if Possible(c, Reach(c, hash, before), hash, r) {
        LimitsMove(c, hash, Reach(c, hash, before), r);
      }
      if AsksForCode(r) {
        assert CodeRequests(rs)[..|CodeRequests(rs)| - 1] == CodeRequests(before);
      }
    }
  }

  predicate SameProcess(rs: seq<Request>, j: int, k: int)
    requires -1 <= j <= |rs| && k <= |rs|
  {
    forall m | j < m < k :: !rs[m].action.Restart?
  }

  /**
   * Later on the limiters' clock, and codes requested within a code's lifetime lie less than the
   * limiters' window apart.
   */
  predicate TicksFit(a: Request, b: Request)
    requires a.action.RequestCode? && b.action.RequestCode?
  {
    && a.action.tick <= b.action.tick
    && (b.now - a.now <= OTP_TTL ==> b.action.tick - a.action.tick < 900.0)
  }

  /** Within one process the monotonic clock does not run back, nor half as fast again as the wall clock. */
  ghost predicate ClocksAgree(rs: seq<Request>) {
    forall j, k | 0 <= j <= k < |rs| && AsksForCode(rs[j]) && AsksForCode(rs[k]) && SameProcess(rs, j, k) ::
      TicksFit(rs[j], rs[k])
  }

  lemma ClocksAgreeBefore(rs: seq<Request>)
    requires rs != [] && ClocksAgree(rs)
    ensures ClocksAgree(rs[..|rs| - 1])
  {
    hide TicksFit;
    var before := rs[..|rs| - 1];
    forall j, k | 0 <= j <= k < |before| && AsksForCode(before[j]) && AsksForCode(before[k])
           && SameProcess(before, j, k)
      ensures TicksFit(before[j], before[k])
    {
      assert forall m | j < m < k :: before[m] == rs[m];
      assert SameProcess(rs, j, k);
    }
  }

  lemma {:induction false} SeenAt(rs: seq<Request>, i: nat) returns (j: nat)
    requires i < |CodeRequests(rs)|
    ensures j < |rs| && AsksForCode(rs[j]) && SameProcess(rs, j, |rs|)
            && CodeRequests(rs)[i] == LimitedRequest(rs[j].action)
  {
    hide AsksForCode, LimitedRequest;
    var before, r := rs[..|rs| - 1], rs[|rs| - 1];
    if i < |CodeRequests(before)| {
      j := SeenAt(before, i);
      assert forall m | j < m < |before| :: rs[m] == before[m] && !before[m].action.Restart?;
    } else {
      j := |before|;
    }
  }

  lemma {:induction false} SeenAscend(rs: seq<Request>)
    requires ClocksAgree(rs)
    ensures forall i, j | 0 <= i < j < |CodeRequests(rs)| ::
              CodeRequests(rs)[i].emailTime <= CodeRequests(rs)[j].emailTime
  {
    if rs != [] {
      var before, r := rs[..|rs| - 1], rs[|rs| - 1];
      ClocksAgreeBefore(rs);
      SeenAscend(before);
      if AsksForCode(r) {
        forall i | 0 <= i < |CodeRequests(before)|
          ensures CodeRequests(before)[i].emailTime <= r.action.tick
        {
          EarlierTick(rs, i);
        }
      }
    }
  }

  lemma EarlierTick(rs: seq<Request>, i: nat)
    requires rs != [] && ClocksAgree(rs) && AsksForCode(rs[|rs| - 1]) && i < |CodeRequests(rs[..|rs| - 1])|
    ensures CodeRequests(rs[..|rs| - 1])[i].emailTime <= rs[|rs| - 1].action.tick
  {
    var before, last := rs[..|rs| - 1], |rs| - 1;
    var j := SeenAt(before, i);
    assert forall m | j < m < last :: before[m] == rs[m];
    assert SameProcess(rs, j, last);
    assert TicksFit(rs[j], rs[last]);
  }

  // ---------------------------------------------------------------- counting codes

  lemma {:induction false} CountAppend(times: seq<real>, t: real, from: real, to: real)
    ensures RateLimiter.CountBetween(times + [t], from, to)
              == RateLimiter.CountBetween(times, from, to) + if from < t <= to then 1 else 0
  {
    if times == [] {
      assert times + [t] == [t];
    } else {
      assert (times + [t])[1..] == times[1..] + [t];
      CountAppend(times[1..], t, from, to);
    }
  }

  lemma {:induction false} NothingBetween(times: seq<real>, t: real)
    ensures RateLimiter.CountBetween(times, t, t) == 0
  {
    if times != [] {
      NothingBetween(times[1..], t);
    }
  }

  lemma LastIsCounted(otps: seq<Otp>, email: string, purpose: string, since: int)
    requires otps != []
    ensures IssuedAfter(otps, email, purpose, since)
         == IssuedAfter(otps[..|otps| - 1], email, purpose, since)
            + if IssuedSince(otps[|otps| - 1], email, purpose, since) then 1 else 0
  {
    hide IssuedSince;
    var last := |otps| - 1;
    var all, some := IssuedRows(otps, email, purpose, since), IssuedRows(otps[..last], email, purpose, since);
    assert last !in some;
    assert all == some + if IssuedSince(otps[last], email, purpose, since) then {last} else {};
  }

  /** Only a granted request of that address, and only after the instant, adds to the count. */
  lemma IssuedMove(c: Config, hash: string -> string, app: App, r: Request, email: string, since: int)
    requires Possible(c, app, hash, r)
    ensures IssuedAfter(Step(c, hash, app, r).0.otps, email, "signin", since)
         <= IssuedAfter(app.otps, email, "signin", since)
           + if GrantsCode(app, r) && r.action.email == email && since < r.now then 1 else 0
  {
    hide Step, Possible, GrantsCode, IssuedAfter;
    var after, n := Step(c, hash, app, r).0.otps, |app.otps|;
    CodesMove(c, hash, app, r);
    UseIsNotCounted(app.otps, after[..n], email, "signin", since);
    if |after| > n {
      assert after[..|after| - 1] == after[..n];
      LastIsCounted(after, email, "signin", since);
    } else {
      assert after[..n] == after;
    }
  }

  lemma UseIsNotCounted(otps: seq<Otp>, after: seq<Otp>, email: string, purpose: string, since: int)
    requires |after| == |otps|
    requires forall i | 0 <= i < |otps| :: after[i] == otps[i] || after[i] == otps[i].(used := true)
    ensures IssuedAfter(after, email, purpose, since) == IssuedAfter(otps, email, purpose, since)
  {
    assert IssuedRows(after, email, purpose, since) == IssuedRows(otps, email, purpose, since);
  }

  /** The address's codes since the instant were asked for at ticks in (from, to], with no restart since. */
  ghost predicate AskedWithin(rs: seq<Request>, email: string, since: int, from: real, to: real) {
    forall j | 0 <= j < |rs| && AsksForCode(rs[j]) && rs[j].action.email == email && since < rs[j].now ::
      from < rs[j].action.tick <= to && SameProcess(rs, j, |rs|)
  }

  lemma AskedWithinBefore(rs: seq<Request>, email: string, since: int, from: real, to: real)
    requires rs != [] && AskedWithin(rs, email, since, from, to)
    ensures AskedWithin(rs[..|rs| - 1], email, since, from, to)
    ensures rs[|rs| - 1].action.Restart? ==> AskedWithin(rs[..|rs| - 1], email, since, 0.0, 0.0)
  {
    var before, last := rs[..|rs| - 1], |rs| - 1;
    forall j | 0 <= j < |before| && AsksForCode(before[j]) && before[j].action.email == email && since < before[j].now
      ensures from < before[j].action.tick <= to && SameProcess(before, j, |before|) && !rs[last].action.Restart?
    {
      assert before[j] == rs[j] && SameProcess(rs, j, |rs|);
      assert forall m | j < m < |before| :: before[m] == rs[m];
    }
  }

  lemma {:induction false} CodesAreCounted(c: Config, hash: string -> string, rs: seq<Request>, email: string,
                                           since: int, from: real, to: real)
    requires AskedWithin(rs, email, since, from, to)
    ensures IssuedAfter(Reach(c, hash, rs).otps, email, "signin", since)
         <= RateLimiter.CountBetween(Limits.GrantTimes(CodeRequests(rs), email), from, to)
  {
    hide Step, Possible, IssuedAfter, AskedWithin, GrantsCode, LimitedRequest;
    if rs == [] {
      NothingIssued(email, since);
    } else {
      var before, r := rs[..|rs| - 1], rs[|rs| - 1];
      var app := Reach(c, hash, before);
      AskedWithinBefore(rs, email, since, from, to);
      CodesAreCounted(c, hash, before, email, since, from, to);
      if r.action.Restart? {
        CodesAreCounted(c, hash, before, email, since, 0.0, 0.0);
        NothingBetween(Limits.GrantTimes(CodeRequests(before), email), 0.0);
      }
      if Possible(c, app, hash, r) {
        IssuedMove(c, hash, app, r, email, since);
        GrantsMove(c, hash, rs, email, since, from, to);
      } else {
        ImpossibleIsNoRequest(c, app, hash, r);
      }
    }
  }

  lemma NothingIssued(email: string, since: int)
    ensures IssuedAfter([], email, "signin", since) == 0
  {
    assert IssuedRows([], email, "signin", since) == {};
  }

  lemma ImpossibleIsNoRequest(c: Config, app: App, hash: string -> string, r: Request)
    requires !Possible(c, app, hash, r)
    ensures !r.action.Restart? && !AsksForCode(r)
  {
  }

  lemma GrantsMove(c: Config, hash: string -> string, rs: seq<Request>, email: string, since: int, from: real, to: real)
    requires rs != [] && AskedWithin(rs, email, since, from, to)
    ensures var before, r := rs[..|rs| - 1], rs[|rs| - 1];
            r.action.Restart? ||
            RateLimiter.CountBetween(Limits.GrantTimes(CodeRequests(rs), email), from, to)
            >= RateLimiter.CountBetween(Limits.GrantTimes(CodeRequests(before), email), from, to)
               + if GrantsCode(Reach(c, hash, before), r) && r.action.email == email && since < r.now then 1 else 0
    ensures rs[|rs| - 1].action.Restart? ==> !GrantsCode(Reach(c, hash, rs[..|rs| - 1]), rs[|rs| - 1])
  {
    hide Reach, RateLimiter.CountBetween, Limits.RequestStep, Limits.RunRequests;
    var before, r := rs[..|rs| - 1], rs[|rs| - 1];
    LimitersSawThose(c, hash, before);
    var times := Limits.GrantTimes(CodeRequests(before), email);
    if AsksForCode(r) {
      assert CodeRequests(rs)[..|CodeRequests(rs)| - 1] == CodeRequests(before);
      assert Limits.Accepted(CodeRequests(before), LimitedRequest(r.action)) == GrantsCode(Reach(c, hash, before), r);
      CountAppend(times, r.action.tick, from, to);
      assert times + [] == times;
    }
  }

  // ---------------------------------------------------------------- the stores agree

  lemma {:induction false} ReachIsStamped(c: Config, hash: string -> string, rs: seq<Request>)
    ensures Stamped(Reach(c, hash, rs).otps)
  {
    hide Step, Possible;
    if rs != [] {
      var before, r := rs[..|rs| - 1], rs[|rs| - 1];
      ReachIsStamped(c, hash, before);
      if Possible(c, Reach(c, hash, before), hash, r) {
        CodesMove(c, hash, Reach(c, hash, before), r);
      }
    }
  }

  /** A restart came after a request for a code of the address that could still be alive. */
  ghost predicate RestartedOverLiveCode(rs: seq<Request>, email: string, now: int) {
    exists j, k :: 0 <= j < k < |rs| && AsksLately(rs[j], email, now) && rs[k].action.Restart?
  }

  predicate AsksLately(r: Request, email: string, now: int) {
    AsksForCode(r) && r.action.email == email && now - OTP_TTL <= r.now
  }

  /** The last request that asks for a code of the address, if any. */
  lemma {:induction false} LastAsk(rs: seq<Request>, email: string, now: int) returns (last: int)
    ensures -1 <= last < |rs| && (last >= 0 ==> AsksLately(rs[last], email, now))
    ensures forall j | last < j < |rs| :: !AsksLately(rs[j], email, now)
  {
    hide AsksLately;
    if rs == [] {
      last := -1;
    } else if AsksLately(rs[|rs| - 1], email, now) {
      last := |rs| - 1;
    } else {
      last := LastAsk(rs[..|rs| - 1], email, now);
    }
  }

  /** Without such a restart the limiter keeps every address at five live sign-in codes. */
  lemma AtMostFiveLiveCodes(c: Config, hash: string -> string, rs: seq<Request>, email: string, now: int)
    requires ClocksAgree(rs) && forall j | 0 <= j < |rs| :: rs[j].now <= now
    requires !RestartedOverLiveCode(rs, email, now)
    ensures |LiveRows(Reach(c, hash, rs).otps, email, "signin", now)| <= NEWEST
  {
    hide Reach, LiveRows, IssuedAfter;
    var since := now - OTP_TTL - 1;
    var last := LastAsk(rs, email, now);
    var to := if last >= 0 then rs[last].action.tick else 0.0;
    AsksLieWithin(rs, email, now, last, to);
    CodesAreCounted(c, hash, rs, email, since, to - 900.0, to);
    SeenAscend(rs);
    var start := if CodeRequests(rs) == [] then 0.0 else CodeRequests(rs)[0].emailTime;
    Limits.AtMostFiveCodesPerAddress(start, CodeRequests(rs), email, to);
    ReachIsStamped(c, hash, rs);
    LiveWereIssued(Reach(c, hash, rs).otps, email, "signin", now, since);
  }

  lemma AsksLieWithin(rs: seq<Request>, email: string, now: int, last: int, to: real)
    requires ClocksAgree(rs) && forall j | 0 <= j < |rs| :: rs[j].now <= now
    requires !RestartedOverLiveCode(rs, email, now)
    requires -1 <= last < |rs| && (last >= 0 ==> AsksLately(rs[last], email, now) && to == rs[last].action.tick)
    requires forall j | last < j < |rs| :: !AsksLately(rs[j], email, now)
    ensures AskedWithin(rs, email, now - OTP_TTL - 1, to - 900.0, to)
  {
    forall j | 0 <= j < |rs| && AsksForCode(rs[j]) && rs[j].action.email == email && now - OTP_TTL - 1 < rs[j].now
      ensures to - 900.0 < rs[j].action.tick <= to && SameProcess(rs, j, |rs|)
    {
      assert AsksLately(rs[j], email, now);
      assert SameProcess(rs, j, last);
      assert TicksFit(rs[j], rs[last]);
    }
  }

  /**
   * In every reachable state, of either backend, the stores' queries accept the same sign-in codes
   * of an address that names itself unless the server restarted over one of its live codes. What
   * decides is the number of live codes: up to five they agree, beyond five, hashed differently,
   * they do not.
   */
  lemma CodesAgreeUnlessRestarted(c: Config, hash: string -> string, rs: seq<Request>, email: string, now: int,
                                  newest: seq<nat>, rows: seq<nat>)
    requires ClocksAgree(rs) && forall j | 0 <= j < |rs| :: rs[j].now <= now
    requires Named(email) && NewestRows(Reach(c, hash, rs).otps, email, "signin", newest)
    requires AllRows(c.codeServer, Reach(c, hash, rs).otps, email, "signin", rows)
    ensures var otps := Reach(c, hash, rs).otps;
            && (!RestartedOverLiveCode(rs, email, now)
                ==> forall codeHash :: SameAnswer(otps, newest, rows, now, codeHash))
            && (HashesDiffer(otps, email, "signin", now) ==>
                  ((forall codeHash :: SameAnswer(otps, newest, rows, now, codeHash))
                     <==> |LiveRows(otps, email, "signin", now)| <= NEWEST))
  {
    hide *;
    ReachIsStamped(c, hash, rs);
    StoresAgreeExactlyWhenFewAreLive(c.codeServer, Reach(c, hash, rs).otps, email, "signin", now, newest, rows);
    if !RestartedOverLiveCode(rs, email, now) {
      AtMostFiveLiveCodes(c, hash, rs, email, now);
    }
  }

  // ---------------------------------------------------------------- attempts at a code

  /** What the verification limiter was asked since the last start. */
  function Attempts(c: Config, hash: string -> string, rs: seq<Request>): seq<RateLimiter.Call> {
    if rs == [] then []
    else
      var before, r := rs[..|rs| - 1], rs[|rs| - 1];
      if r.action.Restart? then []
      else if r.action.Verify? && Possible(c, Reach(c, hash, before), hash, r) then
        Attempts(c, hash, before) + [RateLimiter.Allow(r.action.email, r.action.tick)]
      else Attempts(c, hash, before)
  }

  /** When, since the last start, attempts under an address as it is spelled were let through. */
  function SpelledAttempts(c: Config, hash: string -> string, rs: seq<Request>, email: string): seq<real> {
    if rs == [] then []
    else
      var before, r := rs[..|rs| - 1], rs[|rs| - 1];
      var app := Reach(c, hash, before);
      if r.action.Restart? then []
      else
        SpelledAttempts(c, hash, before, email)
        + if Possible(c, app, hash, r) && GrantsAttempt(app, r) && r.action.email == email then [r.action.tick] else []
  }

  lemma OwnVerifiesMove(c: Config, hash: string -> string, app: App, r: Request)
    requires Possible(c, app, hash, r) && !AsksWho(r.action)
    ensures Step(c, hash, app, r).0.verifies
         == if r.action.Restart? then map[]
            else if r.action.Verify? then
              RateLimiter.AllowStep(Limits.VERIFY_PER_EMAIL, app.verifies, r.action.email, r.action.tick).0
            else app.verifies
  {
    hide StoreStep, Limits.RequestStep, RateLimiter.AllowStep, Opened, Spent, AccessDecisionFor, Seen, RoleFor,
         CallerStep;
  }

  lemma VerifiesMove(c: Config, hash: string -> string, app: App, r: Request)
    requires Possible(c, app, hash, r)
    ensures Step(c, hash, app, r).0.verifies
         == if r.action.Restart? then map[]
            else if r.action.Verify? then
              RateLimiter.AllowStep(Limits.VERIFY_PER_EMAIL, app.verifies, r.action.email, r.action.tick).0
            else app.verifies
  {
    hide Step, Possible;
    if AsksWho(r.action) {
      CallerStepKeeps(c, hash, app, r);
    } else {
      OwnVerifiesMove(c, hash, app, r);
    }
  }

  lemma RestartIsPossible(c: Config, app: App, hash: string -> string, r: Request)
    ensures r.action.Restart? ==> Possible(c, app, hash, r)
  {
  }

  /** The verification limiter is where those calls take it, and its accepted events are the counted attempts. */
  lemma {:induction false} AttemptsAreARun(c: Config, hash: string -> string, rs: seq<Request>, start: real,
                                           email: string)
    ensures var run := RateLimiter.Run(Limits.VERIFY_PER_EMAIL, start, Attempts(c, hash, rs));
            && Reach(c, hash, rs).verifies == run.events
            && SpelledAttempts(c, hash, rs, email) == RateLimiter.Get(run.history, email)
  {
    hide Step, Possible, RateLimiter.AllowStep;
    if rs != [] {
      var before, r := rs[..|rs| - 1], rs[|rs| - 1];
      var app, calls := Reach(c, hash, before), Attempts(c, hash, before);
      AttemptsAreARun(c, hash, before, start, email);
      RestartIsPossible(c, app, hash, r);
      if Possible(c, app, hash, r) {
        VerifiesMove(c, hash, app, r);
        if r.action.Verify? {
          assert (calls + [RateLimiter.Allow(r.action.email, r.action.tick)])[..|calls|] == calls;
        }
      }
    }
  }

  /** Within one process the limiters' clock does not run back between attempts. */
  ghost predicate AttemptsInOrder(rs: seq<Request>) {
    forall j, k | 0 <= j <= k < |rs| && rs[j].action.Verify? && rs[k].action.Verify? && SameProcess(rs, j, k) ::
      rs[j].action.tick <= rs[k].action.tick
  }

  lemma AttemptsInOrderBefore(rs: seq<Request>)
    requires rs != [] && AttemptsInOrder(rs)
    ensures AttemptsInOrder(rs[..|rs| - 1])
  {
    var before := rs[..|rs| - 1];
    forall j, k | 0 <= j <= k < |before| && before[j].action.Verify? && before[k].action.Verify?
           && SameProcess(before, j, k)
      ensures before[j].action.tick <= before[k].action.tick
    {
      assert forall m | j < m < k :: before[m] == rs[m];
      assert SameProcess(rs, j, k);
    }
  }

  lemma {:induction false} AttemptAt(c: Config, hash: string -> string, rs: seq<Request>, i: nat) returns (j: nat)
    requires i < |Attempts(c, hash, rs)|
    ensures j < |rs| && rs[j].action.Verify? && SameProcess(rs, j, |rs|)
    ensures Attempts(c, hash, rs)[i] == RateLimiter.Allow(rs[j].action.email, rs[j].action.tick)
  {
    hide Possible, Reach;
    var before := rs[..|rs| - 1];
    if i < |Attempts(c, hash, before)| {
      j := AttemptAt(c, hash, before, i);
      assert forall m | j < m < |before| :: rs[m] == before[m] && !before[m].action.Restart?;
    } else {
      j := |before|;
    }
  }

  lemma {:induction false} AttemptsAscend(c: Config, hash: string -> string, rs: seq<Request>)
    requires AttemptsInOrder(rs)
    ensures forall i | 0 <= i < |Attempts(c, hash, rs)| :: Attempts(c, hash, rs)[i].Allow?
    ensures forall i, j | 0 <= i < j < |Attempts(c, hash, rs)| ::
              Attempts(c, hash, rs)[i].now <= Attempts(c, hash, rs)[j].now
  {
    if rs != [] {
      hide Possible, Reach, AttemptsInOrder;
      var before, r := rs[..|rs| - 1], rs[|rs| - 1];
      AttemptsInOrderBefore(rs);
      AttemptsAscend(c, hash, before);
      if r.action.Verify? {
        forall i | 0 <= i < |Attempts(c, hash, before)|
          ensures Attempts(c, hash, before)[i].now <= r.action.tick
        {
          EarlierAttempt(c, hash, rs, i);
        }
      }
    }
  }

  lemma EarlierAttempt(c: Config, hash: string -> string, rs: seq<Request>, i: nat)
    requires rs != [] && AttemptsInOrder(rs) && rs[|rs| - 1].action.Verify? && i < |Attempts(c, hash, rs[..|rs| - 1])|
    ensures Attempts(c, hash, rs[..|rs| - 1])[i].Allow?
    ensures Attempts(c, hash, rs[..|rs| - 1])[i].now <= rs[|rs| - 1].action.tick
  {
    hide Possible, Reach, Attempts;
    var before, last := rs[..|rs| - 1], |rs| - 1;
    var j := AttemptAt(c, hash, before, i);
    assert forall m | j < m < last :: before[m] == rs[m];
    assert SameProcess(rs, j, last);
  }

  /** At most ten attempts under one spelling of an address are let through in any 900 seconds of one process. */
  lemma AtMostTenAttemptsPerSpelling(c: Config, hash: string -> string, rs: seq<Request>, email: string, t: real)
    requires AttemptsInOrder(rs)
    ensures RateLimiter.CountBetween(SpelledAttempts(c, hash, rs, email), t - 900.0, t) <= 10
  {
    hide Reach, AttemptsInOrder, RateLimiter.Clocked, RateLimiter.Run, RateLimiter.CountBetween;
    var calls := Attempts(c, hash, rs);
    AttemptsAscend(c, hash, rs);
    assert calls != [] ==> calls[0].Allow?;
    var start := if calls == [] then 0.0 else calls[0].now;
    AttemptsAreARun(c, hash, rs, start, email);
    hide Attempts, SpelledAttempts;
    RateLimiter.AllowsAreClocked(Limits.VERIFY_PER_EMAIL, start, calls);
    RateLimiter.NoWindowOverLimit(Limits.VERIFY_PER_EMAIL, start, calls, email, t);
  }

  /** The request is an attempt that is let through and looks at the codes of the address, however it spells that. */
  predicate Tries(c: Config, app: App, r: Request, email: string) {
    r.action.Verify? && GrantsAttempt(app, r) && CodesAnswer(c, r.action.email)
    && AddressRead(c, r.action.email) == email
  }

  /** When, since the last start, the codes of the address were tried. No other request looks at them to sign in. */
  function TriedCodes(c: Config, hash: string -> string, rs: seq<Request>, email: string): seq<real> {
    if rs == [] then []
    else
      var before, r := rs[..|rs| - 1], rs[|rs| - 1];
      var app := Reach(c, hash, before);
      if r.action.Restart? then []
      else
        TriedCodes(c, hash, before, email)
        + if Possible(c, app, hash, r) && Tries(c, app, r, email) then [r.action.tick] else []
  }

  /** The addresses in verifications are such as the store takes for themselves; with SQLite all are. */
  ghost predicate VerifiesDirect(c: Config, rs: seq<Request>) {
    forall k | 0 <= k < |rs| && rs[k].action.Verify? :: Direct(c.backend, rs[k].action.email)
  }

  predicate AtMostTen(c: Config, hash: string -> string, rs: seq<Request>, email: string, t: real) {
    RateLimiter.CountBetween(TriedCodes(c, hash, rs, email), t - 900.0, t) <= 10
  }

  lemma DirectAnswers(c: Config, email: string)
    requires Direct(c.backend, email)
    ensures CodesAnswer(c, email) && AddressRead(c, email) == email
  {
    hide Asked, Sendable, Further;
    NamedExactlyWhen(email);
  }

  /** Such attempts look at the codes of the address that they spell. */
  lemma {:induction false} DirectTriesAreSpelled(c: Config, hash: string -> string, rs: seq<Request>, email: string)
    requires VerifiesDirect(c, rs)
    ensures TriedCodes(c, hash, rs, email) == SpelledAttempts(c, hash, rs, email)
  {
    hide Possible, Reach, Direct, CodesAnswer, AddressRead, RateLimiter.AllowStep;
    if rs != [] {
      var before, r := rs[..|rs| - 1], rs[|rs| - 1];
      DirectTriesAreSpelled(c, hash, before, email);
      if r.action.Verify? {
        DirectAnswers(c, r.action.email);
      }
    }
  }

  /**
   * Over every run in which verifications name addresses that the store takes for themselves, the
   * codes of an address are tried at most ten times in any 900 seconds of one process.
   */
  lemma AtMostTenAttempts(c: Config, hash: string -> string, rs: seq<Request>, email: string, t: real)
    requires AttemptsInOrder(rs) && VerifiesDirect(c, rs)
    ensures AtMostTen(c, hash, rs, email, t)
  {
    hide AttemptsInOrder, VerifiesDirect, TriedCodes, SpelledAttempts, RateLimiter.CountBetween;
    AtMostTenAttemptsPerSpelling(c, hash, rs, email, t);
    DirectTriesAreSpelled(c, hash, rs, email);
  }

  // ---------------------------------------------------------------- a restart leaves six

  function Ask(email: string, clientIp: string, code: string, now: int, tick: real): Request {
    Request(now, "", RequestCode(email, clientIp, tick, tick, code, true))
  }

  /** Five requests for a code, a restart, and a sixth, one microsecond after the other. */
  function SixAsks(email: string, clientIp: string, codes: seq<string>, now: int, tick: real): seq<Request>
    requires |codes| == 6
  {
    Asks(email, clientIp, codes, now, tick, 5)
      + [Request(now + 5, "", Restart), Ask(email, clientIp, codes[5], now + 5, tick)]
  }

  function Asks(email: string, clientIp: string, codes: seq<string>, now: int, tick: real, n: nat): seq<Request>
    requires n <= |codes|
  {
    if n == 0 then []
    else Asks(email, clientIp, codes, now, tick, n - 1) + [Ask(email, clientIp, codes[n - 1], now + (n - 1), tick)]
  }

  /** What a limiter holds after n requests at one tick. */
  function Held(key: string, tick: real, n: nat): RateLimiter.Events {
    if n == 0 then map[] else map[key := seq(n, _ => tick)]
  }

  lemma OneMoreHeld(limit: RateLimiter.Config, key: string, tick: real, n: nat)
    requires n < 5 <= limit.limit && limit.window == 900.0 && limit.maxKeys == Limits.MAX_KEYS
    ensures RateLimiter.AllowStep(limit, Held(key, tick, n), key, tick) == (Held(key, tick, n + 1), true)
  {
    var times := seq(n, _ => tick);
    RateLimiter.NothingExpired(times, tick - 900.0);
    assert seq(n + 1, _ => tick) == times + [tick];
    assert RateLimiter.Get(Held(key, tick, n), key) == times;
    assert Held(key, tick, n)[key := times + [tick]] == Held(key, tick, n + 1);
  }

  function Hashes(hash: string -> string, codes: seq<string>): seq<string> {
    seq(|codes|, k requires 0 <= k < |codes| => hash(codes[k]))
  }

  predicate HoldsCodes(app: App, hash: string -> string, email: string, clientIp: string, codes: seq<string>, now: int,
                       tick: real, n: nat, m: nat)
    requires m <= |codes|
  {
    && app.limits == Limits.Limits(Held(email, tick, n), Held(Limits.IpKey(clientIp), tick, n))
    && app.otps == Batch(email, Hashes(hash, codes[..m]), "signin", now)
  }

  lemma DirectUpsert(b: Backend, members: Members, email: string, now: int)
    requires Direct(b, email)
    ensures StoreStep(b, members, UpsertGuest(email), now).1.Returned?
  {
    hide StoreStep, Direct;
    MembershipTheorems.DirectStep(b, members, UpsertGuest(email), now);
  }

  lemma AskIsGranted(c: Config, hash: string -> string, app: App, email: string, clientIp: string, codes: seq<string>,
                     now: int, tick: real, n: nat, m: nat)
    requires n < 5 && m < |codes| && LooksLikeEmail(email) && Direct(c.backend, email)
    requires HoldsCodes(app, hash, email, clientIp, codes, now, tick, n, m)
    ensures var r := Ask(email, clientIp, codes[m], now + m, tick);
            HoldsCodes(Step(c, hash, app, r).0, hash, email, clientIp, codes, now, tick, n + 1, m + 1)
            && Step(c, hash, app, r).1 == CodeSent
  {
    hide Held, StoreStep, MembershipTheorems.CleanStep, RateLimiter.AllowStep, Direct;
    DirectUpsert(c.backend, app.members, email, now + m);
    OneMoreHeld(Limits.PER_EMAIL, email, tick, n);
    OneMoreHeld(Limits.PER_IP, Limits.IpKey(clientIp), tick, n);
    assert Batch(email, Hashes(hash, codes[..m + 1]), "signin", now)
        == Batch(email, Hashes(hash, codes[..m]), "signin", now) + [Issued(email, hash(codes[m]), "signin", now + m)];
  }

  lemma NoCodesYet(hash: string -> string, email: string, clientIp: string, codes: seq<string>, now: int, tick: real)
    ensures HoldsCodes(EMPTY_APP, hash, email, clientIp, codes, now, tick, 0, 0)
  {
  }

  lemma {:induction false} AsksAreGranted(c: Config, hash: string -> string, email: string, clientIp: string,
                                          codes: seq<string>, now: int, tick: real, n: nat)
    requires n <= 5 && n <= |codes| && LooksLikeEmail(email) && Direct(c.backend, email)
    ensures HoldsCodes(Reach(c, hash, Asks(email, clientIp, codes, now, tick, n)), hash, email, clientIp, codes, now,
                       tick, n, n)
  {
    hide Step, LooksLikeEmail, HoldsCodes, Direct;
    var rs := Asks(email, clientIp, codes, now, tick, n);
    if n == 0 {
      NoCodesYet(hash, email, clientIp, codes, now, tick);
    } else {
      AsksAreGranted(c, hash, email, clientIp, codes, now, tick, n - 1);
      assert rs[..|rs| - 1] == Asks(email, clientIp, codes, now, tick, n - 1);
      AskIsGranted(c, hash, Reach(c, hash, rs[..|rs| - 1]), email, clientIp, codes, now, tick, n - 1, n - 1);
    }
  }

  lemma RestartClearsLimits(c: Config, hash: string -> string, app: App, now: int)
    ensures var after := Step(c, hash, app, Request(now, "", Restart)).0;
            after.limits == NO_REQUESTS && after.otps == app.otps
  {
    hide StoreStep;
  }

  lemma SixAreIssued(c: Config, hash: string -> string, email: string, clientIp: string, codes: seq<string>, now: int,
                     tick: real)
    requires |codes| == 6 && LooksLikeEmail(email) && Direct(c.backend, email)
    ensures Reach(c, hash, SixAsks(email, clientIp, codes, now, tick)).otps
              == Batch(email, Hashes(hash, codes), "signin", now)
  {
    hide Step, LooksLikeEmail, Reach, Direct;
    var five := Asks(email, clientIp, codes, now, tick, 5);
    var restart, sixth := Request(now + 5, "", Restart), Ask(email, clientIp, codes[5], now + 5, tick);
    AsksAreGranted(c, hash, email, clientIp, codes, now, tick, 5);
    Earlier(c, hash, five, restart);
    RestartClearsLimits(c, hash, Reach(c, hash, five), now + 5);
    Earlier(c, hash, five + [restart], sixth);
    AskIsGranted(c, hash, Reach(c, hash, five + [restart]), email, clientIp, codes, now, tick, 0, 5);
    assert five + [restart] + [sixth] == SixAsks(email, clientIp, codes, now, tick);
    assert codes[..6] == codes;
  }

  /** All within the limits and six microseconds, and the first code opens only where all rows are looked at. */
  lemma RestartSplitsTheStores(c: Config, hash: string -> string, email: string, clientIp: string, codes: seq<string>,
                               now: int, tick: real, newest: seq<nat>, rows: seq<nat>)
    requires |codes| == 6 && LooksLikeEmail(email) && Named(email)
             && forall k | 0 < k < 6 :: hash(codes[k]) != hash(codes[0])
    requires var otps := Reach(c, hash, SixAsks(email, clientIp, codes, now, tick)).otps;
             NewestRows(otps, email, "signin", newest) && AllRows(c.codeServer, otps, email, "signin", rows)
    ensures var rs := SixAsks(email, clientIp, codes, now, tick);
            && ClocksAgree(rs) && ClockRuns(rs)
            && !SameAnswer(Reach(c, hash, rs).otps, newest, rows, now + 6, hash(codes[0]))
            && Opened(Reach(c, hash, rs).otps, rows, hash(codes[0]), now + 6) == Some(0)
  {
    hide Reach, NewestRows, AllRows, LooksLikeEmail, Opened, Named;
    SixAreIssued(c, hash, email, clientIp, codes, now, tick);
    SixCodesSplitTheStores(c.codeServer, email, Hashes(hash, codes), "signin", now, newest, rows);
    AsksRunOnTime(email, clientIp, codes, now, tick);
  }

  lemma AsksRunOnTime(email: string, clientIp: string, codes: seq<string>, now: int, tick: real)
    requires |codes| == 6
    ensures ClocksAgree(SixAsks(email, clientIp, codes, now, tick))
            && ClockRuns(SixAsks(email, clientIp, codes, now, tick))
  {
    AsksAt(email, clientIp, codes, now, tick, 5);
  }

  lemma {:induction false} AsksAt(email: string, clientIp: string, codes: seq<string>, now: int, tick: real, n: nat)
    requires n <= |codes|
    ensures var rs := Asks(email, clientIp, codes, now, tick, n);
            |rs| == n && forall k | 0 <= k < n :: rs[k] == Ask(email, clientIp, codes[k], now + k, tick)
  {
    if n > 0 {
      AsksAt(email, clientIp, codes, now, tick, n - 1);
      var before := Asks(email, clientIp, codes, now, tick, n - 1);
      assert Asks(email, clientIp, codes, now, tick, n)
               == before + [Ask(email, clientIp, codes[n - 1], now + (n - 1), tick)];
    }
  }

  // ---------------------------------------------------------------- attempts that the limiter counts apart

  /** One of the spellings under which Supabase looks at the codes of an address. */
  function Cut(email: string, n: nat): string {
    email + "#" + seq(n, _ => 'x')
  }

  function Guess(email: string, n: nat, guess: string, now: int, tick: real): Request {
    Request(now, "", Verify(Cut(email, n), guess, tick, [0], ""))
  }

  /** A code is issued, and then tried, all in one instant. */
  function Guesses(email: string, clientIp: string, code: string, guesses: seq<string>, now: int, tick: real,
                   n: nat): seq<Request>
    requires n <= |guesses|
  {
    if n == 0 then Asks(email, clientIp, [code], now, tick, 1)
    else Guesses(email, clientIp, code, guesses, now, tick, n - 1) + [Guess(email, n - 1, guesses[n - 1], now, tick)]
  }

  /** The one code is there, and the limiter has counted n spellings. */
  predicate Guessed(app: App, email: string, n: nat) {
    && |app.otps| == 1 && app.otps[0].email == email
    && |app.verifies| == n
    && forall key | key in app.verifies :: exists k | 0 <= k < n :: key == Cut(email, k)
  }

  lemma CutsDiffer(email: string, j: nat, k: nat)
    requires j != k
    ensures Cut(email, j) != Cut(email, k)
  {
    assert |Cut(email, j)| != |Cut(email, k)|;
  }

  lemma CutReads(c: Config, email: string, n: nat)
    requires c.backend.Supabase? && Named(email)
    ensures CodesAnswer(c, Cut(email, n)) && AddressRead(c, Cut(email, n)) == email
    ensures Answered(c.codeServer, Cut(email, n)) && Asked(Cut(email, n)) == email && Further(Cut(email, n)).None?
    ensures '#' in Cut(email, n)
  {
    hide Asked, Sendable, Further;
    CutAddress(email, seq(n, _ => 'x'));
  }

  lemma NewKeyIsGranted(verifies: RateLimiter.Events, key: string, tick: real)
    requires key !in verifies && |verifies| < Limits.MAX_KEYS
    ensures RateLimiter.AllowStep(Limits.VERIFY_PER_EMAIL, verifies, key, tick) == (verifies[key := [tick]], true)
  {
    assert [] + [tick] == [tick];
  }

  /** Every such attempt is possible, let through and looks at the code. */
  lemma GuessTries(c: Config, hash: string -> string, app: App, email: string, n: nat, guess: string, now: int,
                   tick: real)
    requires c.backend.Supabase? && Named(email) && n < Limits.MAX_KEYS && Guessed(app, email, n)
    ensures var r := Guess(email, n, guess, now, tick);
            && Possible(c, app, hash, r) && Tries(c, app, r, email)
            && Guessed(Step(c, hash, app, r).0, email, n + 1)
  {
    hide Named, Cut, Step, CodesAnswer, AddressRead, RateLimiter.AllowStep, Answered, Asked, Further;
    var r, key := Guess(email, n, guess, now, tick), Cut(email, n);
    CutReads(c, email, n);
    forall k | 0 <= k < n
      ensures key != Cut(email, k)
    {
      CutsDiffer(email, n, k);
    }
    NewKeyIsGranted(app.verifies, key, tick);
    assert Reads(c.codeServer, app.otps[0], key, "signin");
    assert AllRows(c.codeServer, app.otps, key, "signin", [0]);
    VerifiesMove(c, hash, app, r);
    CodesMove(c, hash, app, r);
    RateLimiter.UpdateSize(app.verifies, key, [tick]);
  }

  lemma FirstCodeIsThere(c: Config, hash: string -> string, email: string, clientIp: string, code: string, now: int,
                         tick: real)
    requires c.backend.Supabase? && Named(email) && LooksLikeEmail(email)
    ensures Guessed(Reach(c, hash, Asks(email, clientIp, [code], now, tick, 1)), email, 0)
  {
    hide Named, Step, LooksLikeEmail, HoldsCodes, Guessed, Reach, Asks, Ask;
    AsksAreGranted(c, hash, email, clientIp, [code], now, tick, 1);
    OneAsk(email, clientIp, code, now, tick);
    var app := Reach(c, hash, [Ask(email, clientIp, code, now, tick)]);
    HeldIsOne(app, hash, email, clientIp, code, now, tick);
    NothingVerifiedByAsk(c, hash, email, clientIp, code, now, tick);
    GuessedAtFirst(app, email);
  }

  lemma HeldIsOne(app: App, hash: string -> string, email: string, clientIp: string, code: string, now: int, tick: real)
    requires HoldsCodes(app, hash, email, clientIp, [code], now, tick, 1, 1)
    ensures |app.otps| == 1 && app.otps[0].email == email
  {
    hide Held;
  }

  lemma NothingVerifiedByAsk(c: Config, hash: string -> string, email: string, clientIp: string, code: string,
                             now: int, tick: real)
    ensures Reach(c, hash, [Ask(email, clientIp, code, now, tick)]).verifies == map[]
  {
    hide Step;
    var ask := Ask(email, clientIp, code, now, tick);
    assert [ask][..0] == [];
    VerifiesMove(c, hash, EMPTY_APP, ask);
  }

  lemma GuessedAtFirst(app: App, email: string)
    requires |app.otps| == 1 && app.otps[0].email == email && app.verifies == map[]
    ensures Guessed(app, email, 0)
  {
  }

  lemma OneAsk(email: string, clientIp: string, code: string, now: int, tick: real)
    ensures Asks(email, clientIp, [code], now, tick, 1) == [Ask(email, clientIp, code, now, tick)]
  {
    AsksAt(email, clientIp, [code], now, tick, 1);
  }

  lemma {:induction false} GuessesTry(c: Config, hash: string -> string, email: string, clientIp: string, code: string,
                                      guesses: seq<string>, now: int, tick: real, n: nat)
    requires c.backend.Supabase? && Named(email) && LooksLikeEmail(email) && n <= |guesses| && n <= Limits.MAX_KEYS
    ensures var rs := Guesses(email, clientIp, code, guesses, now, tick, n);
            && Guessed(Reach(c, hash, rs), email, n)
            && RateLimiter.CountBetween(TriedCodes(c, hash, rs, email), tick - 900.0, tick) == n
  {
    hide Named, LooksLikeEmail, Guessed, Possible, Step, Tries, RateLimiter.CountBetween;
    var rs := Guesses(email, clientIp, code, guesses, now, tick, n);
    if n == 0 {
      FirstCodeIsThere(c, hash, email, clientIp, code, now, tick);
      NothingTriedYet(c, hash, email, clientIp, code, now, tick);
    } else {
      var before := Guesses(email, clientIp, code, guesses, now, tick, n - 1);
      GuessesTry(c, hash, email, clientIp, code, guesses, now, tick, n - 1);
      assert rs[..|rs| - 1] == before;
      GuessTries(c, hash, Reach(c, hash, before), email, n - 1, guesses[n - 1], now, tick);
      CountAppend(TriedCodes(c, hash, before, email), tick, tick - 900.0, tick);
    }
  }

  lemma {:induction false} NothingTried(c: Config, hash: string -> string, rs: seq<Request>, email: string)
    requires forall r | r in rs :: !r.action.Verify?
    ensures TriedCodes(c, hash, rs, email) == []
  {
    hide Possible, Reach, GrantsAttempt, CodesAnswer, AddressRead;
    if rs != [] {
      assert rs[|rs| - 1] in rs;
      NothingTried(c, hash, rs[..|rs| - 1], email);
    }
  }

  lemma NothingTriedYet(c: Config, hash: string -> string, email: string, clientIp: string, code: string, now: int,
                        tick: real)
    ensures RateLimiter.CountBetween(TriedCodes(c, hash, Asks(email, clientIp, [code], now, tick, 1), email),
                                     tick - 900.0, tick) == 0
  {
    hide TriedCodes;
    AsksAt(email, clientIp, [code], now, tick, 1);
    NothingTried(c, hash, Asks(email, clientIp, [code], now, tick, 1), email);
  }

  lemma {:induction false} GuessesAtOnce(email: string, clientIp: string, code: string, guesses: seq<string>, now: int,
                                         tick: real, n: nat)
    requires n <= |guesses|
    ensures forall r | r in Guesses(email, clientIp, code, guesses, now, tick, n) ::
              r.now == now && !r.action.Restart? && (r.action.Verify? ==> r.action.tick == tick)
  {
    if n == 0 {
      AsksAt(email, clientIp, [code], now, tick, 1);
    } else {
      GuessesAtOnce(email, clientIp, code, guesses, now, tick, n - 1);
    }
  }

  /**
   * The limiter counts spellings, Supabase reads addresses: with as many spellings, up to the ten
   * thousand keys that the limiter holds, one code is tried as often in a single instant.
   */
  lemma CutAttemptsAreNotLimited(c: Config, hash: string -> string, email: string, clientIp: string, code: string,
                                 guesses: seq<string>, now: int, tick: real)
    requires c.backend.Supabase? && Named(email) && LooksLikeEmail(email) && |guesses| <= Limits.MAX_KEYS
    ensures var rs := Guesses(email, clientIp, code, guesses, now, tick, |guesses|);
            && AttemptsInOrder(rs) && (forall r | r in rs :: !r.action.Restart?)
            && RateLimiter.CountBetween(TriedCodes(c, hash, rs, email), tick - 900.0, tick) == |guesses|
  {
    hide Named, LooksLikeEmail, TriedCodes, RateLimiter.CountBetween, Guesses;
    GuessesTry(c, hash, email, clientIp, code, guesses, now, tick, |guesses|);
    GuessesAtOnce(email, clientIp, code, guesses, now, tick, |guesses|);
  }

  /** What rate_limit.py promises of verification holds in every ordered run exactly with the SQLite store. */
  lemma AttemptsAreLimitedExactlyWithSqlite(c: Config, hash: string -> string)
    ensures (forall rs, email, t | AttemptsInOrder(rs) && Named(email) :: AtMostTen(c, hash, rs, email, t))
              <==> c.backend.Sqlite?
  {
    hide AttemptsInOrder, Named, TriedCodes, Guesses, AtMostTen;
    if c.backend.Sqlite? {
      forall rs, email, t | AttemptsInOrder(rs) && Named(email)
        ensures AtMostTen(c, hash, rs, email, t)
      {
        AtMostTenAttempts(c, hash, rs, email, t);
      }
    } else {
      var email, guesses := "a@b.c", seq(11, _ => "");
      SomeAddressIsNamed();
      CutAttemptsAreNotLimited(c, hash, email, "", "", guesses, 0, 0.0);
      ElevenAreTooMany(c, hash, Guesses(email, "", "", guesses, 0, 0.0, 11), email, 0.0);
    }
  }

  lemma ElevenAreTooMany(c: Config, hash: string -> string, rs: seq<Request>, email: string, t: real)
    requires RateLimiter.CountBetween(TriedCodes(c, hash, rs, email), t - 900.0, t) == 11
    ensures !AtMostTen(c, hash, rs, email, t)
  {
  }

  lemma SomeAddressIsNamed()
    ensures Named("a@b.c") && LooksLikeEmail("a@b.c")
  {
    hide Named;
    var address := "a@b.c";
    assert address[1] == '@' && address[3] == '.';
    PlainIsNamed(address);
  }
}
