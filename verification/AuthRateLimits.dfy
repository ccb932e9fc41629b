/** The three limiters that guard the auth endpoints, and what their composition guarantees. */
module AuthRateLimits {
  import opened RateLimiter

  const MAX_KEYS := 10_000
  const PER_EMAIL := Config(5, 900.0, MAX_KEYS)
  const PER_IP := Config(20, 900.0, MAX_KEYS)
  const VERIFY_PER_EMAIL := Config(10, 900.0, MAX_KEYS)

  /** A code request. Each limiter reads the clock itself, the address limiter second. */
  datatype Request = Request(email: string, clientIp: string, ipTime: real, emailTime: real)

  function IpKey(clientIp: string): string {
    if clientIp == "" then "unknown" else clientIp
  }

  datatype Limits = Limits(perEmail: Events, perIp: Events)

  function RequestStep(s: Limits, r: Request): (Limits, bool) {
    var (perIp, ipOk) := AllowStep(PER_IP, s.perIp, IpKey(r.clientIp), r.ipTime);
    if !ipOk then (Limits(s.perEmail, perIp), false)
    else
      var (perEmail, ok) := AllowStep(PER_EMAIL, s.perEmail, r.email, r.emailTime);
      (Limits(perEmail, perIp), ok)
  }

  class AuthRateLimits {
    const requestPerEmail: SlidingWindowLimiter
    const requestPerIp: SlidingWindowLimiter
    const verifyPerEmail: SlidingWindowLimiter

    ghost predicate Valid() {
      && requestPerEmail.config == PER_EMAIL
      && requestPerIp.config == PER_IP
      && verifyPerEmail.config == VERIFY_PER_EMAIL
      && requestPerEmail != requestPerIp
      && requestPerEmail != verifyPerEmail
      && requestPerIp != verifyPerEmail
    }

    constructor ()
      ensures Valid() && fresh(requestPerEmail) && fresh(requestPerIp) && fresh(verifyPerEmail)
      ensures requestPerEmail.events == requestPerIp.events == verifyPerEmail.events == map[]
    {
      requestPerEmail := new SlidingWindowLimiter(PER_EMAIL);
      requestPerIp := new SlidingWindowLimiter(PER_IP);
      verifyPerEmail := new SlidingWindowLimiter(VERIFY_PER_EMAIL);
    }

    method AllowRequest(r: Request) returns (ok: bool)
      requires Valid()
      modifies requestPerEmail, requestPerIp
      ensures (Limits(requestPerEmail.events, requestPerIp.events), ok)
           == RequestStep(Limits(old(requestPerEmail.events), old(requestPerIp.events)), r)
    {
      var ipOk := requestPerIp.Allow(if r.clientIp == "" then "unknown" else r.clientIp, r.ipTime);
      if !ipOk {
        return false;
      }
      ok := requestPerEmail.Allow(r.email, r.emailTime);
    }

    method AllowVerify(email: string, now: real) returns (ok: bool)
      requires Valid()
      modifies verifyPerEmail
      ensures (verifyPerEmail.events, ok) == AllowStep(VERIFY_PER_EMAIL, old(verifyPerEmail.events), email, now)
    {
      ok := verifyPerEmail.Allow(email, now);
    }
  }

  // ---------------------------------------------------------------- runs of requests

  function RunRequests(requests: seq<Request>): Limits {
    if requests == [] then Limits(map[], map[])
    else RequestStep(RunRequests(requests[..|requests| - 1]), requests[|requests| - 1]).0
  }

  predicate IpAccepts(before: seq<Request>, r: Request) {
    AllowStep(PER_IP, RunRequests(before).perIp, IpKey(r.clientIp), r.ipTime).1
  }

  predicate Accepted(before: seq<Request>, r: Request) {
    RequestStep(RunRequests(before), r).1
  }

  /** The calls the address limiter sees: one for each request that the IP limiter let through. */
  function AddressCalls(requests: seq<Request>): seq<Call> {
    if requests == [] then []
    else
      var before, r := requests[..|requests| - 1], requests[|requests| - 1];
      AddressCalls(before) + if IpAccepts(before, r) then [Allow(r.email, r.emailTime)] else []
  }

  /** When codes were granted to an address. */
  function GrantTimes(requests: seq<Request>, email: string): seq<real> {
    if requests == [] then []
    else
      var before, r := requests[..|requests| - 1], requests[|requests| - 1];
      GrantTimes(before, email) + if Accepted(before, r) && r.email == email then [r.emailTime] else []
  }

  ghost predicate TimesAscend(start: real, requests: seq<Request>) {
    && (forall i :: 0 <= i < |requests| ==> start <= requests[i].emailTime)
    && (forall i, j :: 0 <= i < j < |requests| ==> requests[i].emailTime <= requests[j].emailTime)
  }

  /**
   * The address limiter ends in the state it would reach on the passed requests alone: a request
   * the IP limiter refused spends nothing of any address's budget.
   */
  lemma {:induction false} RefusedIpSpendsNoAddressBudget(start: real, requests: seq<Request>)
    ensures RunRequests(requests).perEmail == Run(PER_EMAIL, start, AddressCalls(requests)).events
  {
    hide AllowStep;
    if requests != [] {
      var before, r := requests[..|requests| - 1], requests[|requests| - 1];
      RefusedIpSpendsNoAddressBudget(start, before);
      if IpAccepts(before, r) {
        var calls := AddressCalls(before);
        assert (calls + [Allow(r.email, r.emailTime)])[..|calls|] == calls;
      } else {
        assert AddressCalls(requests) == AddressCalls(before);
      }
    }
  }

  lemma {:induction false} GrantsAreHistory(start: real, requests: seq<Request>, email: string)
    ensures GrantTimes(requests, email) == Get(Run(PER_EMAIL, start, AddressCalls(requests)).history, email)
  {
    hide AllowStep;
    if requests != [] {
      var before, r := requests[..|requests| - 1], requests[|requests| - 1];
      GrantsAreHistory(start, before, email);
      RefusedIpSpendsNoAddressBudget(start, before);
      if IpAccepts(before, r) {
        var calls := AddressCalls(before);
        assert (calls + [Allow(r.email, r.emailTime)])[..|calls|] == calls;
      } else {
        assert AddressCalls(requests) == AddressCalls(before);
      }
    }
  }

  lemma {:induction false} AddressCallsClocked(start: real, requests: seq<Request>)
    requires TimesAscend(start, requests)
    ensures Clocked(PER_EMAIL, start, AddressCalls(requests))
    ensures requests != [] ==>
              Run(PER_EMAIL, start, AddressCalls(requests)).clock <= requests[|requests| - 1].emailTime
    ensures requests == [] ==> Run(PER_EMAIL, start, AddressCalls(requests)).clock == start
  {
    hide AllowStep;
    if requests != [] {
      var before, r := requests[..|requests| - 1], requests[|requests| - 1];
      AddressCallsClocked(start, before);
      if IpAccepts(before, r) {
        ClockedExtend(PER_EMAIL, start, AddressCalls(before), Allow(r.email, r.emailTime));
      } else {
        assert AddressCalls(requests) == AddressCalls(before);
      }
    }
  }

  /** Whoever asks, from however many clients, an address is sent at most 5 codes in any 900 seconds. */
  lemma AtMostFiveCodesPerAddress(start: real, requests: seq<Request>, email: string, t: real)
    requires TimesAscend(start, requests)
    ensures CountBetween(GrantTimes(requests, email), t - 900.0, t) <= 5
  {
    AddressCallsClocked(start, requests);
    GrantsAreHistory(start, requests, email);
    NoWindowOverLimit(PER_EMAIL, start, AddressCalls(requests), email, t);
  }

  // ---------------------------------------------------------------- what the limits come to

  /** Two clients share a bucket: the same address, or both without one. */
  predicate SameClient(a: string, b: string) {
    a == b || (a in {"", "unknown"} && b in {"", "unknown"})
  }

  /** When requests of the client were let through by the IP limiter. */
  function ClientTimes(requests: seq<Request>, clientIp: string): seq<real> {
    if requests == [] then []
    else
      var before, r := requests[..|requests| - 1], requests[|requests| - 1];
      ClientTimes(before, clientIp)
      + if IpAccepts(before, r) && SameClient(r.clientIp, clientIp) then [r.ipTime] else []
  }

  ghost predicate IpTimesAscend(start: real, requests: seq<Request>) {
    && (forall i :: 0 <= i < |requests| ==> start <= requests[i].ipTime)
    && (forall i, j :: 0 <= i < j < |requests| ==> requests[i].ipTime <= requests[j].ipTime)
  }

  /** The calls the IP limiter sees. */
  function IpCalls(requests: seq<Request>): (calls: seq<Call>)
    ensures |calls| == |requests|
    ensures forall i | 0 <= i < |calls| :: calls[i] == Allow(IpKey(requests[i].clientIp), requests[i].ipTime)
  {
    seq(|requests|, i requires 0 <= i < |requests| => Allow(IpKey(requests[i].clientIp), requests[i].ipTime))
  }

  lemma SameClientSameKey(a: string, b: string)
    ensures SameClient(a, b) <==> IpKey(a) == IpKey(b)
  {
  }

  lemma {:induction false} IpRuns(start: real, requests: seq<Request>, clientIp: string)
    ensures RunRequests(requests).perIp == Run(PER_IP, start, IpCalls(requests)).events
    ensures ClientTimes(requests, clientIp) == Get(Run(PER_IP, start, IpCalls(requests)).history, IpKey(clientIp))
  {
    hide AllowStep, SameClient, IpKey;
    if requests != [] {
      var before, r := requests[..|requests| - 1], requests[|requests| - 1];
      IpRuns(start, before, clientIp);
      SameClientSameKey(r.clientIp, clientIp);
      assert IpCalls(requests) == IpCalls(before) + [Allow(IpKey(r.clientIp), r.ipTime)];
      assert IpCalls(requests)[..|before|] == IpCalls(before);
    }
  }

  /** The keys that have an event in the 900 seconds before. */
  function Busy(events: Events, now: real): set<string> {
    set k | k in events && events[k] != [] && events[k][|events[k]| - 1] > now - 900.0
  }

  /** There is a bucket for the key, or fewer than ten thousand others are in use. */
  predicate HasBucket(events: Events, key: string, now: real) {
    key in events || |Busy(events, now)| < 10_000
  }

  /** A limiter of this module answers by its accepted events of the last 900 seconds. */
  lemma WindowAnswer(c: Config, start: real, calls: seq<Call>, key: string, now: real)
    requires c.limit >= 1 && c.window == 900.0 && c.maxKeys == 10_000
    requires Clocked(c, start, calls) && now >= Run(c, start, calls).clock
    ensures var s := Run(c, start, calls);
            AllowStep(c, s.events, key, now).1
            <==> CountBetween(Get(s.history, key), now - 900.0, now) < c.limit && HasBucket(s.events, key, now)
  {
    hide Run, AllowStep, CountBetween, Clocked;
    var s := Run(c, start, calls);
    AllowAnswersByFullHistory(c, start, calls, key, now);
    RunIsGood(c, start, calls);
    EvictionKeepsLiveKeys(c, s, now);
    assert Evicted(s.events, now - c.window).Keys == Busy(s.events, now);
  }

  lemma IpCallsClocked(start: real, requests: seq<Request>, r: Request)
    requires IpTimesAscend(start, requests + [r])
    ensures Clocked(PER_IP, start, IpCalls(requests)) && r.ipTime >= Run(PER_IP, start, IpCalls(requests)).clock
  {
    hide Run, Clocked;
    assert forall i | 0 <= i < |requests| :: (requests + [r])[i] == requests[i];
    assert (requests + [r])[|requests|] == r;
    AllowsAreClocked(PER_IP, start, IpCalls(requests));
  }

  /**
   * With clocks that do not run back, the IP limiter lets a request through exactly when fewer than
   * 20 of the same client were let through in the 900 seconds before and there is a bucket for it.
   */
  lemma ClientAnswer(start: real, requests: seq<Request>, r: Request)
    requires IpTimesAscend(start, requests + [r])
    ensures IpAccepts(requests, r)
       <==> CountBetween(ClientTimes(requests, r.clientIp), r.ipTime - 900.0, r.ipTime) < 20
            && HasBucket(RunRequests(requests).perIp, if r.clientIp == "" then "unknown" else r.clientIp, r.ipTime)
  {
    hide AllowStep, CountBetween, HasBucket, Run, ClientTimes, RunRequests, Clocked, IpTimesAscend;
    IpRuns(start, requests, r.clientIp);
    IpCallsClocked(start, requests, r);
    WindowAnswer(PER_IP, start, IpCalls(requests), IpKey(r.clientIp), r.ipTime);
  }

  /** So no client gets more than 20 requests past it in any 900 seconds. */
  lemma AtMostTwentyPerClient(start: real, requests: seq<Request>, clientIp: string, t: real)
    requires IpTimesAscend(start, requests)
    ensures CountBetween(ClientTimes(requests, clientIp), t - 900.0, t) <= 20
  {
    hide CountBetween, Run;
    IpRuns(start, requests, clientIp);
    AllowsAreClocked(PER_IP, start, IpCalls(requests));
    NoWindowOverLimit(PER_IP, start, IpCalls(requests), IpKey(clientIp), t);
  }

  /**
   * What the IP limiter lets through is granted exactly when fewer than 5 codes were granted to the
   * address, whoever asked, in the 900 seconds before and there is a bucket for it.
   */
  lemma GrantAnswer(start: real, requests: seq<Request>, r: Request)
    requires TimesAscend(start, requests + [r])
    ensures Accepted(requests, r)
       <==> IpAccepts(requests, r)
            && CountBetween(GrantTimes(requests, r.email), r.emailTime - 900.0, r.emailTime) < 5
            && HasBucket(RunRequests(requests).perEmail, r.email, r.emailTime)
  {
    hide AllowStep, CountBetween, HasBucket, Run, GrantTimes, AddressCalls;
    assert forall i | 0 <= i < |requests| :: (requests + [r])[i] == requests[i];
    assert (requests + [r])[|requests|] == r;
    AddressCallsClocked(start, requests);
    RefusedIpSpendsNoAddressBudget(start, requests);
    GrantsAreHistory(start, requests, r.email);
    WindowAnswer(PER_EMAIL, start, AddressCalls(requests), r.email, r.emailTime);
  }

  /** The verification limiter likewise, at ten. */
  lemma VerifyAnswer(start: real, calls: seq<Call>, email: string, now: real)
    requires Clocked(VERIFY_PER_EMAIL, start, calls) && now >= Run(VERIFY_PER_EMAIL, start, calls).clock
    ensures var s := Run(VERIFY_PER_EMAIL, start, calls);
            AllowStep(VERIFY_PER_EMAIL, s.events, email, now).1
            <==> CountBetween(Get(s.history, email), now - 900.0, now) < 10 && HasBucket(s.events, email, now)
  {
    hide Run, AllowStep, CountBetween, Clocked, HasBucket;
    WindowAnswer(VERIFY_PER_EMAIL, start, calls, email, now);
  }
}
