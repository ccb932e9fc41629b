/**
 * The auth endpoints: one request is one step of a state made of the members table, the one-time
 * codes, the sessions, the broker links and the rate limiters. What the outside world decides
 * (clocks, random tokens, mail delivery, the identity provider, the broker, the rows a query
 * returns) comes with the request. The tables outlive the process, the limiters do not. A request
 * is one step: requests served at the same time are not.
 */
module AuthApp {
  import opened Common
  import opened Membership
  import opened MemberStores
  import opened Otps
  import opened QueryText
  import Limits = AuthRateLimits
  import RateLimiter

  const SESSION_TTL := 45 * DAY
  const INVITE_DAYS := 14

  datatype Session = Session(email: string, createdAt: int, expiresAt: int)

  /**
   * GP_EMAIL in lower case as given, and with surrounding blanks removed: the endpoints do not all
   * use the same one.
   */
  datatype Config = Config(backend: Backend, codeServer: CodeServer, gpRaw: string, gpAddr: string, socialOn: bool,
                           oauthOn: bool, brokerOn: bool)

  /** limits and verifies hold what the request and the verification limiters remember. */
  datatype App = App(members: Members, otps: seq<Otp>, sessions: map<string, Session>, links: set<string>,
                     limits: Limits.Limits, verifies: RateLimiter.Events)

  const NO_REQUESTS := Limits.Limits(map[], map[])
  const EMPTY_APP := App(map[], [], map[], {}, NO_REQUESTS, map[])

  datatype Exchange = ExchangeFailed | Incomplete | Granted

  datatype Saved = SavedOk | SaveInvalid | SaveFailed

  datatype Action =
    | Restart
    | Social(hasToken: bool, verified: string, session: string)
    | RequestCode(email: string, clientIp: string, ipTick: real, tick: real, code: string, mailed: bool)
    | Verify(email: string, code: string, tick: real, rows: seq<nat>, session: string)
    | Logout
    | Invite(email: string, token: string)
    | Subscribe(email: string)
    | Authorize(code: string)
    | Link(code: string, rows: seq<nat>, exchange: Exchange, saved: Saved)
    | Unlink
    | Me

  /** now is the wall clock; the ticks in an action are the limiters' own monotonic clock. */
  datatype Request = Request(now: int, cookie: string, action: Action)

  datatype Error =
    | MissingToken | SocialNotConfigured | InvalidToken | AccessDenied(reason: Reason)
    | InvalidEmail | RateLimited | MailUnavailable | InvalidCode
    | Unauthorized | InviteUnavailable | OperatorOnly | BrokerNotConfigured
    | InvalidState | TokenExchangeFailed | IncompleteTokens | LinkInvalid | LinkNotSaved

  datatype Response =
    | Started
    | SignedIn(email: string, role: Option<Role>, session: string)
    | CodeSent | LoggedOut | Invited(expires: int) | Subscribed
    | AuthorizeUrl(code: string) | Linked | Unlinked
    | Anonymous | Authenticated(email: string, role: Option<Role>, decision: AccessDecision)
    | Refused(status: nat, error: Error)
    | Crashed

  // ---------------------------------------------------------------- the step

  /** The address behind a cookie, "" for none. */
  function Recognised(app: App, hash: string -> string, cookie: string, now: int): string {
    if cookie == "" || hash(cookie) !in app.sessions then ""
    else
      var s := app.sessions[hash(cookie)];
      if s.expiresAt < now then "" else s.email
  }

  function RoleFor(c: Config, email: string, d: AccessDecision): Option<Role> {
    if email != "" && c.gpAddr != "" && email == c.gpAddr then Some(GP) else d.role
  }

  predicate LooksLikeEmail(email: string) {
    '@' in email && '.' in email
  }

  predicate IsOperator(c: Config, email: string) {
    c.gpAddr != "" && email == c.gpAddr
  }

  /** Access is checked, then a session row is inserted; the table refuses a second row under one hash. */
  function Admit(c: Config, hash: string -> string, app: App, email: string, session: string, now: int): (App, Response)
  {
    var decided := Decided(Seen(c.backend, app.members, email), now);
    if decided.Err? then (app, Crashed)
    else if !decided.value.allowed then (app, Refused(403, AccessDenied(decided.value.reason)))
    else if hash(session) in app.sessions then (app, Crashed)
    else (app.(sessions := app.sessions[hash(session) := Session(email, now, now + SESSION_TTL)]),
          SignedIn(email, RoleFor(c, email, decided.value), session))
  }

  function SocialStep(c: Config, hash: string -> string, app: App, a: Action, now: int): (App, Response)
    requires a.Social?
  {
    if !a.hasToken then (app, Refused(400, MissingToken))
    else if !c.socialOn then (app, Refused(503, SocialNotConfigured))
    else if a.verified == "" then (app, Refused(401, InvalidToken))
    else
      var (members, outcome) := StoreStep(c.backend, app.members, UpsertGuest(a.verified), now);
      if !outcome.Returned? then (app.(members := members), Crashed)
      else Admit(c, hash, app.(members := members), a.verified, a.session, now)
  }

  function LimitedRequest(a: Action): Limits.Request
    requires a.RequestCode?
  {
    Limits.Request(a.email, a.clientIp, a.ipTick, a.tick)
  }

  function RequestCodeStep(c: Config, hash: string -> string, app: App, a: Action, now: int): (App, Response)
    requires a.RequestCode?
  {
    if !LooksLikeEmail(a.email) then (app, Refused(400, InvalidEmail))
    else
      var (limits, granted) := Limits.RequestStep(app.limits, LimitedRequest(a));
      if !granted then (app.(limits := limits), Refused(429, RateLimited))
      else
        var (members, outcome) := StoreStep(c.backend, app.members, UpsertGuest(a.email), now);
        var counted := app.(limits := limits, members := members);
        if !outcome.Returned? then (counted, Crashed)
        else
          (counted.(otps := app.otps + [Issued(a.email, hash(a.code), "signin", now)]),
           if a.mailed then CodeSent else Refused(503, MailUnavailable))
  }

  /** The query of the code table does not fail. */
  predicate CodesAnswer(c: Config, email: string) {
    c.backend.Supabase? ==> Answered(c.codeServer, email)
  }

  function VerifyStep(c: Config, hash: string -> string, app: App, a: Action, now: int): (App, Response)
    requires a.Verify? && InTable(app.otps, a.rows)
  {
    var (verifies, granted) := RateLimiter.AllowStep(Limits.VERIFY_PER_EMAIL, app.verifies, a.email, a.tick);
    var counted := app.(verifies := verifies);
    if !granted then (counted, Refused(429, RateLimited))
    else if !CodesAnswer(c, a.email) then (counted, Crashed)
    else
      var row := Opened(app.otps, a.rows, hash(a.code), now);
      if row.None? then (counted, Refused(401, InvalidCode))
      else Admit(c, hash, counted.(otps := Spent(app.otps, row)), a.email, a.session, now)
  }

  function InviteStep(c: Config, app: App, a: Action, email: string, now: int): (App, Response)
    requires a.Invite?
  {
    if email == "" || email != c.gpRaw then (app, Refused(403, Unauthorized))
    else
      var (members, outcome) := StoreStep(c.backend, app.members, IssueLpInvite(a.email, a.token, INVITE_DAYS), now);
      (app.(members := members),
       if outcome.LpCapReached? || outcome.NotAscii? then Refused(409, InviteUnavailable)
       else if outcome.Nothing? then Invited(InviteExpiry(now, INVITE_DAYS))
       else Crashed)
  }

  function LinkStep(c: Config, hash: string -> string, app: App, a: Action, email: string, now: int): (App, Response)
    requires a.Link? && InTable(app.otps, a.rows)
  {
    if email == "" then (app, Refused(403, Unauthorized))
    else if Seen(c.backend, app.members, email).Err? then (app, Crashed)
    else if !IsOperator(c, email) then (app, Refused(403, OperatorOnly))
    else if !c.brokerOn then (app, Refused(503, BrokerNotConfigured))
    else if a.code == "" then (app, Refused(400, InvalidState))
    else if !CodesAnswer(c, email) then (app, Crashed)
    else
      var row := Opened(app.otps, a.rows, hash(a.code), now);
      if row.None? then (app, Refused(400, InvalidState))
      else
        var spent := app.(otps := Spent(app.otps, row));
        if a.exchange.ExchangeFailed? then (spent, Refused(502, TokenExchangeFailed))
        else if a.exchange.Incomplete? then (spent, Refused(502, IncompleteTokens))
        else
          match a.saved
          case SaveInvalid => (spent, Refused(400, LinkInvalid))
          case SaveFailed => (spent, Refused(503, LinkNotSaved))
          case SavedOk => (spent.(links := spent.links + {email}), Linked)
  }

  function AuthorizeStep(c: Config, hash: string -> string, app: App, a: Action, email: string,
                         now: int): (App, Response)
    requires a.Authorize?
  {
    if email == "" then (app, Refused(403, Unauthorized))
    else if Seen(c.backend, app.members, email).Err? then (app, Crashed)
    else if !IsOperator(c, email) then (app, Refused(403, OperatorOnly))
    else if !c.oauthOn then (app, Refused(503, BrokerNotConfigured))
    else (app.(otps := app.otps + [Issued(email, hash(a.code), "broker_state", now)]), AuthorizeUrl(a.code))
  }

  function SubscribeStep(c: Config, app: App, a: Action, email: string, now: int): (App, Response)
    requires a.Subscribe?
  {
    if email == "" || email != a.email then (app, Refused(403, Unauthorized))
    else
      var (members, outcome) := StoreStep(c.backend, app.members, SetSubscribed(a.email), now);
      (app.(members := members), if outcome.Returned? then Subscribed else Crashed)
  }

  function MeAnswer(c: Config, app: App, email: string, now: int): Response {
    if email == "" then Anonymous
    else
      var decided := Decided(Seen(c.backend, app.members, email), now);
      if decided.Err? then Crashed else Authenticated(email, RoleFor(c, email, decided.value), decided.value)
  }

  /** The requests that are decided by who asks. */
  predicate AsksWho(a: Action) {
    a.Invite? || a.Subscribe? || a.Authorize? || a.Link? || a.Unlink? || a.Me?
  }

  function CallerStep(c: Config, hash: string -> string, app: App, a: Action, email: string, now: int): (App, Response)
    requires AsksWho(a) && (a.Link? ==> InTable(app.otps, a.rows))
  {
    match a
    case Invite(_, _) => InviteStep(c, app, a, email, now)
    case Subscribe(_) => SubscribeStep(c, app, a, email, now)
    case Authorize(_) => AuthorizeStep(c, hash, app, a, email, now)
    case Link(_, _, _, _) => LinkStep(c, hash, app, a, email, now)
    case Unlink => if email == "" then (app, Refused(403, Unauthorized))
                   else (app.(links := app.links - {email}), Unlinked)
    case Me => (app, MeAnswer(c, app, email, now))
  }

  /** The rows the store's query may return; none if it fails. */
  predicate Selected(c: Config, otps: seq<Otp>, email: string, purpose: string, rows: seq<nat>) {
    if c.backend.Sqlite? then NewestRows(otps, email, purpose, rows)
    else if !Answered(c.codeServer, email) then rows == []
    else AllRows(c.codeServer, otps, email, purpose, rows)
  }

  /** The rows that come with a request are an answer of the code table's query. */
  predicate Possible(c: Config, app: App, hash: string -> string, r: Request) {
    match r.action
    case Verify(email, _, _, rows, _) => Selected(c, app.otps, email, "signin", rows)
    case Link(_, rows, _, _) => Selected(c, app.otps, Recognised(app, hash, r.cookie, r.now), "broker_state", rows)
    case _ => true
  }

  lemma RowsAreInTable(c: Config, app: App, hash: string -> string, r: Request)
    requires Possible(c, app, hash, r)
    ensures r.action.Verify? || r.action.Link? ==> InTable(app.otps, r.action.rows)
  {
  }

  /** A new process on the same tables. Whatever happens to the operator's row is not reported. */
  function Restarted(c: Config, app: App, now: int): App {
    app.(members := StoreStep(c.backend, app.members, EnsureGp(c.gpAddr), now).0, limits := NO_REQUESTS,
         verifies := map[])
  }

  function Step(c: Config, hash: string -> string, app: App, r: Request): (App, Response)
    requires Possible(c, app, hash, r)
  {
    var email := Recognised(app, hash, r.cookie, r.now);
    match r.action
    case Restart => (Restarted(c, app, r.now), Started)
    case Social(_, _, _) => SocialStep(c, hash, app, r.action, r.now)
    case RequestCode(_, _, _, _, _, _) => RequestCodeStep(c, hash, app, r.action, r.now)
    case Verify(_, _, _, _, _) => VerifyStep(c, hash, app, r.action, r.now)
    case Logout => (if r.cookie == "" then app else app.(sessions := app.sessions - {hash(r.cookie)}), LoggedOut)
    case _ => CallerStep(c, hash, app, r.action, email, r.now)
  }

  // ---------------------------------------------------------------- the server

  class AuthServer {
    const config: Config
    const hash: string -> string
    const store: MemberStore
    const codes: OtpTable
    var sessions: map<string, Session>
    var links: set<string>
    var limits: Limits.AuthRateLimits

    ghost predicate Valid()
      reads this
    {
      store.backend == config.backend && store.Valid() && limits.Valid()
    }

    ghost function State(): App
      reads this, store.sqlite, store.supabase, codes, limits.requestPerEmail, limits.requestPerIp,
            limits.verifyPerEmail
    {
      App(store.Members(), codes.otps, sessions, links,
          Limits.Limits(limits.requestPerEmail.events, limits.requestPerIp.events), limits.verifyPerEmail.events)
    }

    constructor (config: Config, hash: string -> string)
      ensures this.config == config && this.hash == hash && Valid() && fresh(store.sqlite) && fresh(store.supabase)
              && fresh(codes)
      ensures fresh(limits.requestPerEmail) && fresh(limits.requestPerIp) && fresh(limits.verifyPerEmail)
      ensures State() == EMPTY_APP
    {
      this.config := config;
      this.hash := hash;
      store := new MemberStore(config.backend);
      codes := new OtpTable();
      sessions := map[];
      links := {};
      limits := new Limits.AuthRateLimits();
    }

    method Start(now: int) returns (response: Response)
      requires Valid()
      modifies this`limits, store.sqlite, store.supabase
      ensures Valid()
      ensures limits == old(limits)
              || (fresh(limits.requestPerEmail) && fresh(limits.requestPerIp) && fresh(limits.verifyPerEmail))
      ensures State() == Restarted(config, old(State()), now) && response == Started
    {
      limits := new Limits.AuthRateLimits();
      var outcome := store.EnsureGp(config.gpAddr, now);
      return Started;
    }

    method LookupSession(cookie: string, now: int) returns (email: string)
      ensures email == Recognised(State(), hash, cookie, now)
    {
      if cookie == "" || hash(cookie) !in sessions {
        return "";
      }
      var s := sessions[hash(cookie)];
      if s.expiresAt < now {
        return "";
      }
      return s.email;
    }

    method SignIn(email: string, session: string, now: int) returns (response: Response)
      requires Valid()
      modifies this`sessions
      ensures (State(), response) == Admit(config, hash, old(State()), email, session, now)
    {
      var decided := store.AccessFor(email, now);
      if decided.Err? {
        return Crashed;
      }
      if !decided.value.allowed {
        return Refused(403, AccessDenied(decided.value.reason));
      }
      if hash(session) in sessions {
        return Crashed;
      }
      sessions := sessions[hash(session) := Session(email, now, now + SESSION_TTL)];
      return SignedIn(email, RoleFor(config, email, decided.value), session);
    }

    method DispatchSocial(a: Action, now: int) returns (response: Response)
      requires Valid() && a.Social?
      modifies this`sessions, store.sqlite, store.supabase
      ensures (State(), response) == SocialStep(config, hash, old(State()), a, now)
    {
      if !a.hasToken {
        return Refused(400, MissingToken);
      }
      if !config.socialOn {
        return Refused(503, SocialNotConfigured);
      }
      if a.verified == "" {
        return Refused(401, InvalidToken);
      }
      var outcome := store.UpsertGuest(a.verified, now);
      if !outcome.Returned? {
        return Crashed;
      }
      response := SignIn(a.verified, a.session, now);
    }

    method DispatchRequestCode(a: Action, now: int) returns (response: Response)
      requires Valid() && a.RequestCode?
      modifies store.sqlite, store.supabase, codes, limits.requestPerEmail, limits.requestPerIp, limits.verifyPerEmail
      ensures (State(), response) == RequestCodeStep(config, hash, old(State()), a, now)
    {
      if !('@' in a.email) || !('.' in a.email) {
        return Refused(400, InvalidEmail);
      }
      var granted := limits.AllowRequest(Limits.Request(a.email, a.clientIp, a.ipTick, a.tick));
      if !granted {
        return Refused(429, RateLimited);
      }
      var outcome := store.UpsertGuest(a.email, now);
      if !outcome.Returned? {
        return Crashed;
      }
      codes.Issue(a.email, hash(a.code), "signin", now);
      return if a.mailed then CodeSent else Refused(503, MailUnavailable);
    }

    method DispatchVerify(a: Action, now: int) returns (response: Response)
      requires Valid() && a.Verify? && InTable(codes.otps, a.rows)
      modifies this`sessions, codes, limits.verifyPerEmail
      ensures (State(), response) == VerifyStep(config, hash, old(State()), a, now)
    {
      var granted := limits.AllowVerify(a.email, a.tick);
      if !granted {
        return Refused(429, RateLimited);
      }
      if !CodesAnswer(config, a.email) {
        return Crashed;
      }
      var ok := codes.Verify(a.email, hash(a.code), "signin", now, a.rows);
      if !ok {
        return Refused(401, InvalidCode);
      }
      response := SignIn(a.email, a.session, now);
    }

    method DispatchInvite(a: Action, email: string, now: int) returns (response: Response)
      requires Valid() && a.Invite?
      modifies store.sqlite, store.supabase
      ensures (State(), response) == InviteStep(config, old(State()), a, email, now)
    {
      if email == "" || email != config.gpRaw {
        return Refused(403, Unauthorized);
      }
      var invite := store.IssueLpInvite(a.email, a.token, INVITE_DAYS, now);
      if invite.Ok? {
        return Invited(invite.value);
      }
      return if invite.error.LpCapReached? || invite.error.NotAscii? then Refused(409, InviteUnavailable) else Crashed;
    }

    method DispatchLink(a: Action, email: string, now: int) returns (response: Response)
      requires Valid() && a.Link? && InTable(codes.otps, a.rows)
      modifies this`links, codes
      ensures (State(), response) == LinkStep(config, hash, old(State()), a, email, now)
    {
      if email == "" {
        return Refused(403, Unauthorized);
      }
      var decided := store.AccessFor(email, now);
      if decided.Err? {
        return Crashed;
      }
      if config.gpAddr == "" || email != config.gpAddr {
        return Refused(403, OperatorOnly);
      }
      if !config.brokerOn {
        return Refused(503, BrokerNotConfigured);
      }
      if a.code == "" {
        return Refused(400, InvalidState);
      }
      if !CodesAnswer(config, email) {
        return Crashed;
      }
      var ok := codes.Verify(email, hash(a.code), "broker_state", now, a.rows);
      if !ok {
        return Refused(400, InvalidState);
      }
      if a.exchange == ExchangeFailed {
        return Refused(502, TokenExchangeFailed);
      }
      if a.exchange == Incomplete {
        return Refused(502, IncompleteTokens);
      }
      match a.saved
      case SaveInvalid =>
        return Refused(400, LinkInvalid);
      case SaveFailed =>
        return Refused(503, LinkNotSaved);
      case SavedOk =>
        links := links + {email};
        return Linked;
    }

    method DispatchAuthorize(a: Action, email: string, now: int) returns (response: Response)
      requires Valid() && a.Authorize?
      modifies codes
      ensures (State(), response) == AuthorizeStep(config, hash, old(State()), a, email, now)
    {
      if email == "" {
        return Refused(403, Unauthorized);
      }
      var decided := store.AccessFor(email, now);
      if decided.Err? {
        return Crashed;
      }
      if config.gpAddr == "" || email != config.gpAddr {
        return Refused(403, OperatorOnly);
      }
      if !config.oauthOn {
        return Refused(503, BrokerNotConfigured);
      }
      codes.Issue(email, hash(a.code), "broker_state", now);
      return AuthorizeUrl(a.code);
    }

    method DispatchSubscribe(a: Action, email: string, now: int) returns (response: Response)
      requires Valid() && a.Subscribe?
      modifies store.sqlite, store.supabase
      ensures (State(), response) == SubscribeStep(config, old(State()), a, email, now)
    {
      if email == "" || email != a.email {
        return Refused(403, Unauthorized);
      }
      var outcome := store.SetSubscribed(a.email, now);
      return if outcome.Returned? then Subscribed else Crashed;
    }

    method AnswerMe(email: string, now: int) returns (response: Response)
      requires Valid()
      ensures response == MeAnswer(config, State(), email, now)
    {
      if email == "" {
        return Anonymous;
      }
      var decided := store.AccessFor(email, now);
      return if decided.Err? then Crashed
             else Authenticated(email, RoleFor(config, email, decided.value), decided.value);
    }

    method DispatchCaller(a: Action, email: string, now: int) returns (response: Response)
      requires Valid() && AsksWho(a) && (a.Link? ==> InTable(codes.otps, a.rows))
      modifies this`links, codes, store.sqlite, store.supabase
      ensures (State(), response) == CallerStep(config, hash, old(State()), a, email, now)
    {
      hide InviteStep, SubscribeStep, AuthorizeStep, LinkStep, MeAnswer;
      match a
      case Invite(_, _) =>
        response := DispatchInvite(a, email, now);
      case Subscribe(_) =>
        response := DispatchSubscribe(a, email, now);
      case Authorize(_) =>
        response := DispatchAuthorize(a, email, now);
      case Link(_, _, _, _) =>
        response := DispatchLink(a, email, now);
      case Unlink =>
        if email == "" {
          return Refused(403, Unauthorized);
        }
        links := links - {email};
        return Unlinked;
      case Me =>
        response := AnswerMe(email, now);
    }

    method Dispatch(r: Request) returns (response: Response)
      requires Valid() && Possible(config, State(), hash, r)
      modifies this, store.sqlite, store.supabase, codes, limits.requestPerEmail, limits.requestPerIp,
               limits.verifyPerEmail
      ensures Valid()
      ensures limits == old(limits)
              || (fresh(limits.requestPerEmail) && fresh(limits.requestPerIp) && fresh(limits.verifyPerEmail))
      ensures (State(), response) == Step(config, hash, old(State()), r)
    {
      RowsAreInTable(config, State(), hash, r);
      hide SocialStep, RequestCodeStep, VerifyStep, CallerStep, Restarted, Possible, Recognised, InTable;
      var email := LookupSession(r.cookie, r.now);
      match r.action
      case Restart =>
        response := Start(r.now);
      case Social(_, _, _) =>
        response := DispatchSocial(r.action, r.now);
      case RequestCode(_, _, _, _, _, _) =>
        response := DispatchRequestCode(r.action, r.now);
      case Verify(_, _, _, _, _) =>
        response := DispatchVerify(r.action, r.now);
      case Logout =>
        if r.cookie != "" {
          sessions := sessions - {hash(r.cookie)};
        }
        return LoggedOut;
      case _ =>
        response := DispatchCaller(r.action, email, r.now);
    }
  }
}
