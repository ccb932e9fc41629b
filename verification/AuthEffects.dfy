/**
 * What each request does and how it is answered, column by column and status by status, with the
 * periods written out: the effect on every table of both stores, for the addresses that a store
 * takes for itself, and nothing else.
 */
module AuthEffects {
  import opened Collections
  import opened Common
  import opened Membership
  import opened Otps
  import opened QueryText
  import opened AuthApp
  import opened AuthTheorems
  import opened CodeBudget
  import opened MembershipHistory
  import Limits = AuthRateLimits
  import MembershipTheorems
  import RateLimiter

  /** In microseconds. */
  function Seconds(n: int): int {
    n * 1_000_000
  }

  // ---------------------------------------------------------------- who is let in

  /** The row that was found admits: a role that lasts, or a guest's expiry that has not passed. */
  predicate Admits(row: Option<Row>, now: int) {
    && row.Some?
    && (row.value.role in {LP, MEMBER, GP}
        || (row.value.role == GUEST && row.value.guestExpiresAt.Some? && now <= row.value.guestExpiresAt.value))
  }

  /** Why a row does not admit. */
  function WhyNot(row: Option<Row>): Reason {
    if row.None? then NotAMember
    else if row.value.role != GUEST then UnknownRole
    else if row.value.guestExpiresAt.None? then GuestNotActivated
    else GuestExpired
  }

  /** The role that the console shows: the operator's is GP, whatever the row says. */
  function Shown(c: Config, email: string, row: Option<Row>): Option<Role> {
    if c.gpAddr != "" && email == c.gpAddr then Some(GP)
    else if row.Some? then Some(row.value.role)
    else None
  }

  lemma DecisionMeans(c: Config, members: Members, email: string, now: int)
    ensures var found, d := Seen(c.backend, members, email), Decided(Seen(c.backend, members, email), now);
            && (d.Ok? <==> found.Ok?)
            && (d.Ok? ==>
                  && (d.value.allowed <==> Admits(found.value, now))
                  && (!d.value.allowed ==> d.value.reason == WhyNot(found.value))
                  && (d.value.allowed ==>
                        d.value.reason == if found.value.value.role == GUEST then GuestActive else RoleActive)
                  && d.value.role == (if found.value.Some? then Some(found.value.value.role) else None)
                  && RoleFor(c, email, d.value) == Shown(c, email, found.value))
    ensures Direct(c.backend, email) ==> Seen(c.backend, members, email) == Ok(Find(members, email))
    ensures c.backend.Supabase? ==> Seen(c.backend, members, email) == Got(c.backend.server, members, email)
  {
    hide Direct, Got;
    if Direct(c.backend, email) {
      MembershipTheorems.DirectSeen(c.backend, members, email);
    }
  }

  /** What a proved address gets: a session of 45 days if its row is found and admits it and the token is new. */
  ghost predicate LetsIn(c: Config, hash: string -> string, app: App, email: string, token: string, now: int,
                         after: App, answer: Response)
  {
    var found := Seen(c.backend, app.members, email);
    if found.Err? then after == app && answer == Crashed
    else if !Admits(found.value, now) then after == app && answer == Refused(403, AccessDenied(WhyNot(found.value)))
    else if hash(token) in app.sessions then after == app && answer == Crashed
    else
      && after == app.(sessions := app.sessions[hash(token) := Session(email, now, now + Days(45))])
      && answer == SignedIn(email, Shown(c, email, found.value), token)
  }

  lemma AdmitLetsIn(c: Config, hash: string -> string, app: App, email: string, token: string, now: int)
    ensures var (after, answer) := Admit(c, hash, app, email, token, now);
            LetsIn(c, hash, app, email, token, now, after, answer)
  {
    hide Seen, RoleFor, Admits, Shown, WhyNot, Decided;
    DecisionMeans(c, app.members, email, now);
  }

  // ---------------------------------------------------------------- requests by a cookie

  /** The caller's own address alone can be subscribed, and it always is. */
  lemma SubscribeAnswers(c: Config, hash: string -> string, app: App, r: Request)
    requires r.action.Subscribe?
    ensures var (after, answer) := Step(c, hash, app, r);
            var caller, email := Recognised(app, hash, r.cookie, r.now), r.action.email;
            && after == app.(members := after.members)
            && (caller == "" || caller != email ==> after == app && answer == Refused(403, Unauthorized))
            && (caller == email != "" ==>
                  && after.members == StoreStep(c.backend, app.members, SetSubscribed(email), r.now).0
                  && answer in {Subscribed, Crashed}
                  && (Direct(c.backend, email) ==>
                        && answer == Subscribed && OthersKept(app.members, after.members, email)
                        && email in after.members
                        && after.members[email]
                           == if email !in app.members then
                                Row(MEMBER, r.now, None, true, false, None, None, None, None)
                              else if app.members[email].role != GUEST then app.members[email]
                              else app.members[email].(role := MEMBER, subscribed := true, guestExpiresAt := None)))
  {
    hide StoreStep, Direct, Recognised, OthersKept;
    if Direct(c.backend, r.action.email) {
      SubscriptionWrites(c.backend, app.members, r.action.email, r.now);
    }
  }

  /**
   * The configured GP alone invites, whatever address: the store is asked for a seat and an invite
   * of 14 days. With 99 seats taken, or an address that no request line can hold, it is a conflict.
   */
  lemma InviteAnswers(c: Config, hash: string -> string, app: App, r: Request)
    requires r.action.Invite?
    ensures var (after, answer) := Step(c, hash, app, r);
            var caller, email := Recognised(app, hash, r.cookie, r.now), r.action.email;
            var op := IssueLpInvite(email, r.action.token, 14);
            var (members, outcome) := StoreStep(c.backend, app.members, op, r.now);
            && (caller == "" || caller != c.gpRaw ==> after == app && answer == Refused(403, Unauthorized))
            && (caller == c.gpRaw != "" ==>
                  && after == app.(members := members)
                  && (answer == Invited(r.now + Days(14)) <==> outcome == Nothing)
                  && (answer == Refused(409, InviteUnavailable) <==> outcome in {LpCapReached, NotAscii})
                  && (answer == Crashed <==> outcome !in {Nothing, LpCapReached, NotAscii})
                  && (Direct(c.backend, email) ==>
                        && (answer == Invited(r.now + Days(14)) <==> |LpEmails(app.members)| < 99)
                        && (answer == Refused(409, InviteUnavailable) <==> |LpEmails(app.members)| >= 99)
                        && (answer.Invited? ==> HoldsInvite(members, email, r.action.token, r.now + Days(14)))
                        && (answer.Refused? ==> members == app.members)
                        && OthersKept(app.members, members, email)))
  {
    hide StoreStep, Direct, Recognised, LpEmails;
    if Direct(c.backend, r.action.email) {
      InviteWrites(c.backend, app.members, r.action.email, r.action.token, 14, r.now);
    }
  }

  predicate HoldsInvite(members: Members, email: string, token: string, expires: int) {
    && email in members && members[email].role == LP && members[email].investor
    && members[email].inviteToken == Some(token) && members[email].inviteExpiresAt == Some(expires)
  }

  /** The operator asks for a broker code, which lives for ten minutes. */
  lemma AuthorizeAnswers(c: Config, hash: string -> string, app: App, r: Request)
    requires r.action.Authorize?
    ensures var (after, answer) := Step(c, hash, app, r);
            var caller := Recognised(app, hash, r.cookie, r.now);
            var found := Seen(c.backend, app.members, caller);
            && after == app.(otps := after.otps)
            && (after.otps == app.otps <==> !answer.AuthorizeUrl?)
            && (answer.AuthorizeUrl? ==>
                  && answer == AuthorizeUrl(r.action.code)
                  && after.otps == app.otps + [Otp(caller, hash(r.action.code), "broker_state", r.now + Seconds(600),
                                                   false, r.now)])
            && (answer == Refused(403, Unauthorized) <==> caller == "")
            && (answer == Crashed <==> caller != "" && found.Err?)
            && (answer == Refused(403, OperatorOnly) <==> caller != "" && found.Ok? && caller != c.gpAddr)
            && (answer == Refused(503, BrokerNotConfigured) <==>
                  caller != "" && found.Ok? && caller == c.gpAddr && !c.oauthOn)
            && (answer.AuthorizeUrl? <==> caller != "" && found.Ok? && caller == c.gpAddr && c.oauthOn)
  {
    hide Recognised, Seen;
  }

  /** The rows hold an unexpired code with the hash. */
  predicate CodeAmong(otps: seq<Otp>, rows: seq<nat>, codeHash: string, now: int)
    requires InTable(otps, rows)
  {
    exists k :: 0 <= k < |rows| && otps[rows[k]].codeHash == codeHash && now <= otps[rows[k]].expiresAt
  }

  /** Row k is the first of them. */
  predicate FirstAmong(otps: seq<Otp>, rows: seq<nat>, codeHash: string, now: int, k: nat)
    requires InTable(otps, rows)
  {
    && k < |rows| && otps[rows[k]].codeHash == codeHash && now <= otps[rows[k]].expiresAt
    && forall j :: 0 <= j < k ==> !(otps[rows[j]].codeHash == codeHash && now <= otps[rows[j]].expiresAt)
  }

  /** The first of them is used up, and no other row changes. */
  ghost predicate UsesFirst(otps: seq<Otp>, rows: seq<nat>, codeHash: string, now: int, after: seq<Otp>)
    requires InTable(otps, rows)
  {
    exists k: nat ::
      FirstAmong(otps, rows, codeHash, now, k) && after == otps[rows[k] := otps[rows[k]].(used := true)]
  }

  lemma {:induction false} FirstIsOpened(otps: seq<Otp>, rows: seq<nat>, codeHash: string, now: int)
    requires InTable(otps, rows)
    ensures var row := Opened(otps, rows, codeHash, now);
            && (row.None? ==> !CodeAmong(otps, rows, codeHash, now))
            && (row.Some? ==> exists k: nat :: FirstAmong(otps, rows, codeHash, now, k) && rows[k] == row.value)
  {
    if rows != [] {
      if Opens(otps[rows[0]], codeHash, now) {
        assert FirstAmong(otps, rows, codeHash, now, 0);
      } else {
        var rest := rows[1..];
        FirstIsOpened(otps, rest, codeHash, now);
        if k: nat :| FirstAmong(otps, rest, codeHash, now, k) && Opened(otps, rest, codeHash, now) == Some(rest[k]) {
          assert rows[k + 1] == rest[k];
          assert FirstAmong(otps, rows, codeHash, now, k + 1);
        }
      }
    }
  }

  lemma OpenedIsFirst(otps: seq<Otp>, rows: seq<nat>, codeHash: string, now: int)
    requires InTable(otps, rows)
    ensures var row := Opened(otps, rows, codeHash, now);
            && (row.Some? <==> CodeAmong(otps, rows, codeHash, now))
            && (row.Some? ==> UsesFirst(otps, rows, codeHash, now, Spent(otps, row)))
            && (row.None? ==> Spent(otps, row) == otps)
  {
    hide Opened;
    FirstIsOpened(otps, rows, codeHash, now);
  }

  /** The first thing that keeps a link from looking at a code. */
  function LinkRefusal(c: Config, app: App, a: Action, caller: string): Option<Response>
    requires a.Link?
  {
    if caller == "" then Some(Refused(403, Unauthorized))
    else if Seen(c.backend, app.members, caller).Err? then Some(Crashed)
    else if caller != c.gpAddr then Some(Refused(403, OperatorOnly))
    else if !c.brokerOn then Some(Refused(503, BrokerNotConfigured))
    else if a.code == "" then Some(Refused(400, InvalidState))
    else if !CodesAnswer(c, caller) then Some(Crashed)
    else None
  }

  /**
   * With a code used up, what the exchange and the store of links came to: the operator is linked
   * exactly when the one was granted and the other saved it.
   */
  predicate Exchanged(app: App, a: Action, caller: string, after: App, answer: Response)
    requires a.Link?
  {
    && after == app.(otps := after.otps, links := if answer == Linked then app.links + {caller} else app.links)
    && answer == match a.exchange
                 case ExchangeFailed => Refused(502, TokenExchangeFailed)
                 case Incomplete => Refused(502, IncompleteTokens)
                 case Granted =>
                   match a.saved
                   case SaveInvalid => Refused(400, LinkInvalid)
                   case SaveFailed => Refused(503, LinkNotSaved)
                   case SavedOk => Linked
  }

  /**
   * A link looks at a code only for the operator. A code that is there is used up whatever becomes
   * of the exchange.
   */
  lemma LinkAnswers(c: Config, hash: string -> string, app: App, r: Request)
    requires Possible(c, app, hash, r) && r.action.Link?
    ensures InTable(app.otps, r.action.rows)
    ensures var (after, answer) := Step(c, hash, app, r);
            var caller := Recognised(app, hash, r.cookie, r.now);
            var found := CodeAmong(app.otps, r.action.rows, hash(r.action.code), r.now);
            var refusal := LinkRefusal(c, app, r.action, caller);
            if refusal.Some? then after == app && answer == refusal.value
            else if !found then after == app && answer == Refused(400, InvalidState)
            else
              && UsesFirst(app.otps, r.action.rows, hash(r.action.code), r.now, after.otps)
              && Exchanged(app, r.action, caller, after, answer)
  {
    RowsAreInTable(c, app, hash, r);
    OpenedIsFirst(app.otps, r.action.rows, hash(r.action.code), r.now);
    hide Recognised, LinkRefusal, LinkStep, CodeAmong, UsesFirst, Opened, Spent, Possible, Exchanged;
    LinkMeans(c, hash, app, r.action, Recognised(app, hash, r.cookie, r.now), r.now);
  }

  lemma LinkMeans(c: Config, hash: string -> string, app: App, a: Action, caller: string, now: int)
    requires a.Link? && InTable(app.otps, a.rows)
    ensures var (after, answer) := LinkStep(c, hash, app, a, caller, now);
            var row := Opened(app.otps, a.rows, hash(a.code), now);
            var refusal := LinkRefusal(c, app, a, caller);
            if refusal.Some? then after == app && answer == refusal.value
            else if row.None? then after == app && answer == Refused(400, InvalidState)
            else after.otps == Spent(app.otps, row) && Exchanged(app, a, caller, after, answer)
  {
    hide Seen, CodesAnswer, Opened, Spent;
  }

  /** Whoever is recognised removes their own link, and no other. */
  lemma UnlinkAnswers(c: Config, hash: string -> string, app: App, r: Request)
    requires r.action.Unlink?
    ensures var (after, answer) := Step(c, hash, app, r);
            var caller := Recognised(app, hash, r.cookie, r.now);
            && (caller == "" ==> after == app && answer == Refused(403, Unauthorized))
            && (caller != "" ==> after == app.(links := app.links - {caller}) && answer == Unlinked)
  {
    hide Recognised;
  }

  /** Asking who one is changes nothing, and shows the role and whether the row that is found still admits. */
  lemma MeAnswers(c: Config, hash: string -> string, app: App, r: Request)
    requires r.action.Me?
    ensures var (after, answer) := Step(c, hash, app, r);
            var caller := Recognised(app, hash, r.cookie, r.now);
            var found := Seen(c.backend, app.members, caller);
            && after == app
            && (answer == Anonymous <==> caller == "")
            && (answer == Crashed <==> caller != "" && found.Err?)
            && (caller != "" && found.Ok? ==>
                  && answer.Authenticated? && answer.email == caller
                  && answer.role == Shown(c, caller, found.value)
                  && (answer.decision.allowed <==> Admits(found.value, r.now))
                  && (!answer.decision.allowed ==> answer.decision.reason == WhyNot(found.value)))
  {
    hide Recognised, Seen, Admits, WhyNot, Shown, RoleFor, Decided;
    DecisionMeans(c, app.members, Recognised(app, hash, r.cookie, r.now), r.now);
  }

  // ---------------------------------------------------------------- requests that need no cookie

  /** A logout removes the session of its cookie, and is always answered so. */
  lemma LogoutAnswers(c: Config, hash: string -> string, app: App, r: Request)
    requires r.action.Logout?
    ensures var (after, answer) := Step(c, hash, app, r);
            && answer == LoggedOut
            && after == app.(sessions := after.sessions)
            && (r.cookie == "" ==> after == app)
            && (r.cookie != "" ==> after.sessions == app.sessions - {hash(r.cookie)})
  {
    hide Recognised;
  }

  /** A start forgets what the limiters counted, keeps every table, and makes the operator's row the GP's. */
  lemma RestartAnswers(c: Config, hash: string -> string, app: App, r: Request)
    requires r.action.Restart?
    ensures var (after, answer) := Step(c, hash, app, r);
            && answer == Started
            && after == app.(members := after.members, verifies := map[], limits := Limits.Limits(map[], map[]))
            && after.members == StoreStep(c.backend, app.members, EnsureGp(c.gpAddr), r.now).0
            && (c.gpAddr == "" ==> after.members == app.members)
            && (c.gpAddr != "" && Direct(c.backend, c.gpAddr) ==>
                  && OthersKept(app.members, after.members, c.gpAddr)
                  && c.gpAddr in after.members && after.members[c.gpAddr].role == GP)
  {
    hide Recognised, Direct, StoreStep, OthersKept;
    if Direct(c.backend, c.gpAddr) {
      OperatorWrites(c.backend, app.members, c.gpAddr, r.now);
    } else {
      NothingIsDirect(c.backend);
    }
  }

  lemma NothingIsDirect(b: Backend)
    ensures Direct(b, "")
  {
    MembershipTheorems.EmptyIsNamed();
  }

  /** The sign-in's row of an address: its expiry is 31 days ahead, and a new one is a guest's. */
  predicate SignedIntoRow(members: Members, after: Members, email: string, now: int) {
    && OthersKept(members, after, email) && email in after
    && after[email] == if email in members then members[email].(guestExpiresAt := Some(now + Days(31)))
                       else Row(GUEST, now, Some(now + Days(31)), false, false, None, None, None, None)
  }

  /** What the identity provider vouches for is signed in, with or without a row before. */
  lemma SocialAnswers(c: Config, hash: string -> string, app: App, r: Request)
    requires r.action.Social?
    ensures var (after, answer) := Step(c, hash, app, r);
            var email := r.action.verified;
            var (members, outcome) := StoreStep(c.backend, app.members, UpsertGuest(email), r.now);
            && (!r.action.hasToken ==> after == app && answer == Refused(400, MissingToken))
            && (r.action.hasToken && !c.socialOn ==> after == app && answer == Refused(503, SocialNotConfigured))
            && (r.action.hasToken && c.socialOn && email == "" ==> after == app && answer == Refused(401, InvalidToken))
            && (r.action.hasToken && c.socialOn && email != "" ==>
                  && (!outcome.Returned? ==> after == app.(members := members) && answer == Crashed)
                  && (outcome.Returned? ==>
                        LetsIn(c, hash, app.(members := members), email, r.action.session, r.now, after, answer)))
            && (Direct(c.backend, email) ==>
                  outcome.Returned? && SignedIntoRow(app.members, members, email, r.now))
  {
    hide Recognised, Direct, StoreStep, SignedIntoRow, LetsIn, Admit;
    var email := r.action.verified;
    var members := StoreStep(c.backend, app.members, UpsertGuest(email), r.now).0;
    AdmitLetsIn(c, hash, app.(members := members), email, r.action.session, r.now);
    if Direct(c.backend, email) {
      SignInRow(c.backend, app.members, email, r.now);
    }
  }

  lemma SignInRow(b: Backend, members: Members, email: string, now: int)
    requires Direct(b, email)
    ensures var (after, outcome) := StoreStep(b, members, UpsertGuest(email), now);
            outcome.Returned? && SignedIntoRow(members, after, email, now)
  {
    hide StoreStep, Direct, OthersKept;
    SignInWrites(b, members, email, now);
  }

  /**
   * A code request that the limiters let through leaves a guest's row or a later expiry, and unless
   * the store fails a sign-in code of ten minutes, mailed or not. One that they refuse leaves its
   * trace in them alone.
   */
  lemma RequestCodeAnswers(c: Config, hash: string -> string, app: App, r: Request)
    requires r.action.RequestCode?
    ensures var (after, answer) := Step(c, hash, app, r);
            var a, email := r.action, r.action.email;
            var asked := Limits.Request(email, a.clientIp, a.ipTick, a.tick);
            var (limits, granted) := Limits.RequestStep(app.limits, asked);
            var (members, outcome) := StoreStep(c.backend, app.members, UpsertGuest(email), r.now);
            var readable := '@' in email && '.' in email;
            var code := Otp(email, hash(a.code), "signin", r.now + Seconds(600), false, r.now);
            && (answer == Refused(400, InvalidEmail) <==> !readable)
            && (answer == Refused(429, RateLimited) <==> readable && !granted)
            && (answer == Crashed <==> readable && granted && !outcome.Returned?)
            && (answer == CodeSent <==> readable && granted && outcome.Returned? && a.mailed)
            && (answer == Refused(503, MailUnavailable) <==> readable && granted && outcome.Returned? && !a.mailed)
            && (!readable ==> after == app)
            && (readable && !granted ==> after == app.(limits := limits))
            && (readable && granted ==>
                  after == app.(limits := limits, members := members,
                                otps := app.otps + if outcome.Returned? then [code] else []))
            && (Direct(c.backend, email) ==> outcome.Returned? && SignedIntoRow(app.members, members, email, r.now))
  {
    hide Recognised, Direct, StoreStep, SignedIntoRow, Limits.RequestStep;
    if Direct(c.backend, r.action.email) {
      SignInRow(c.backend, app.members, r.action.email, r.now);
    }
  }

  /**
   * A verification that the limiter lets through and whose query is answered signs in exactly with an
   * unexpired code among the rows of the answer; the code is used up even where the row then refuses.
   */
  lemma VerifyAnswers(c: Config, hash: string -> string, app: App, r: Request)
    requires Possible(c, app, hash, r) && r.action.Verify?
    ensures InTable(app.otps, r.action.rows)
    ensures var (after, answer) := Step(c, hash, app, r);
            var a, email := r.action, r.action.email;
            var (verifies, granted) := RateLimiter.AllowStep(Limits.VERIFY_PER_EMAIL, app.verifies, email, a.tick);
            var found := CodeAmong(app.otps, a.rows, hash(a.code), r.now);
            && (answer == Refused(429, RateLimited) <==> !granted)
            && (answer == Refused(401, InvalidCode) <==> granted && CodesAnswer(c, email) && !found)
            && (granted && !CodesAnswer(c, email) ==> answer == Crashed)
            && (!granted || !CodesAnswer(c, email) || !found ==> after == app.(verifies := verifies))
            && (granted && CodesAnswer(c, email) && found ==>
                  && UsesFirst(app.otps, a.rows, hash(a.code), r.now, after.otps)
                  && LetsIn(c, hash, app.(verifies := verifies, otps := after.otps), email, a.session, r.now,
                            after, answer))
    ensures Direct(c.backend, r.action.email) ==> CodesAnswer(c, r.action.email)
  {
    RowsAreInTable(c, app, hash, r);
    var a, email := r.action, r.action.email;
    OpenedIsFirst(app.otps, a.rows, hash(a.code), r.now);
    if Direct(c.backend, email) {
      DirectAnswers(c, email);
    }
    hide Recognised, Direct, LetsIn, Admit, RateLimiter.AllowStep, CodeAmong, UsesFirst, Opened, Spent, CodesAnswer;
    hide Possible;
    var row := Opened(app.otps, a.rows, hash(a.code), r.now);
    var verifies := RateLimiter.AllowStep(Limits.VERIFY_PER_EMAIL, app.verifies, email, a.tick).0;
    var spent := app.(verifies := verifies, otps := Spent(app.otps, row));
    AdmitLetsIn(c, hash, spent, email, a.session, r.now);
    AdmitKeepsTables(c, hash, spent, email, a.session, r.now);
    NotRefusedSo(c, hash, spent, email, a.session, r.now);
  }

  lemma AdmitKeepsTables(c: Config, hash: string -> string, app: App, email: string, token: string, now: int)
    ensures Admit(c, hash, app, email, token, now).0
         == app.(sessions := Admit(c, hash, app, email, token, now).0.sessions)
  {
    hide Seen, RoleFor;
  }

  lemma NotRefusedSo(c: Config, hash: string -> string, app: App, email: string, token: string, now: int)
    ensures Admit(c, hash, app, email, token, now).1 !in {Refused(429, RateLimited), Refused(401, InvalidCode)}
  {
    hide Seen, RoleFor;
  }

  /**
   * The rows for such an address: with Supabase every unused code of it for the purpose, with SQLite
   * at most five of them, the newest first, and any that is missing then is as old as they are or older.
   */
  lemma RowsAre(c: Config, otps: seq<Otp>, email: string, purpose: string, rows: seq<nat>)
    requires Direct(c.backend, email) && Selected(c, otps, email, purpose, rows)
    ensures InTable(otps, rows) && Distinct(rows)
    ensures forall i: nat | i in rows :: otps[i].email == email && otps[i].purpose == purpose && !otps[i].used
    ensures forall i: nat | i < |otps| && i !in rows ::
              otps[i].email != email || otps[i].purpose != purpose || otps[i].used
              || (c.backend.Sqlite? && |rows| == 5
                  && forall j: nat | j in rows :: otps[i].createdAt <= otps[j].createdAt)
    ensures c.backend.Sqlite? ==>
              forall a, b | 0 <= a < b < |rows| :: otps[rows[b]].createdAt <= otps[rows[a]].createdAt
  {
    if c.backend.Supabase? {
      NamedRows(c.codeServer, otps, email, purpose, rows);
    }
  }

  // ---------------------------------------------------------------- when the limiters refuse, over any run

  /**
   * A code request is answered 429 exactly when, since the last start, 20 requests of its client were
   * let through in the 900 seconds before, or 5 codes granted to its address, or a limiter has no
   * room to follow it.
   */
  lemma CodeRequestsAreLimitedExactlyWhen(c: Config, hash: string -> string, rs: seq<Request>, r: Request, start: real)
    requires r.action.RequestCode? && '@' in r.action.email && '.' in r.action.email
    requires Limits.IpTimesAscend(start, CodeRequests(rs) + [LimitedRequest(r.action)])
    requires Limits.TimesAscend(start, CodeRequests(rs) + [LimitedRequest(r.action)])
    ensures var a, seen, state := r.action, CodeRequests(rs), Reach(c, hash, rs);
            Step(c, hash, state, r).1 == Refused(429, RateLimited)
            <==> !(&& RateLimiter.CountBetween(Limits.ClientTimes(seen, a.clientIp), a.ipTick - 900.0, a.ipTick) < 20
                   && Limits.HasBucket(state.limits.perIp, if a.clientIp == "" then "unknown" else a.clientIp, a.ipTick)
                   && RateLimiter.CountBetween(Limits.GrantTimes(seen, a.email), a.tick - 900.0, a.tick) < 5
                   && Limits.HasBucket(state.limits.perEmail, a.email, a.tick))
  {
    hide Step, Reach, Limits.RequestStep, RateLimiter.AllowStep, RateLimiter.CountBetween, Limits.HasBucket;
    hide Limits.ClientTimes, Limits.GrantTimes, Limits.RunRequests, Limits.IpTimesAscend, Limits.TimesAscend;
    LimitersSawThose(c, hash, rs);
    RequestCodeAnswers(c, hash, Reach(c, hash, rs), r);
    Limits.ClientAnswer(start, CodeRequests(rs), LimitedRequest(r.action));
    Limits.GrantAnswer(start, CodeRequests(rs), LimitedRequest(r.action));
  }

  /**
   * A verification is answered 429 exactly when, since the last start, 10 attempts under its spelling
   * of the address were let through in the 900 seconds before, or the limiter has no room.
   */
  lemma AttemptsAreLimitedExactlyWhen(c: Config, hash: string -> string, rs: seq<Request>, r: Request)
    requires r.action.Verify? && AttemptsInOrder(rs + [r]) && Possible(c, Reach(c, hash, rs), hash, r)
    ensures var a, state := r.action, Reach(c, hash, rs);
            Step(c, hash, state, r).1 == Refused(429, RateLimited)
            <==> !(&& RateLimiter.CountBetween(SpelledAttempts(c, hash, rs, a.email), a.tick - 900.0, a.tick) < 10
                   && Limits.HasBucket(state.verifies, a.email, a.tick))
  {
    hide Step, Reach, Possible, Direct, RateLimiter.AllowStep, RateLimiter.CountBetween, Limits.HasBucket;
    hide AttemptsInOrder, RateLimiter.Run, RateLimiter.Clocked;
    var calls := Attempts(c, hash, rs);
    AttemptsClocked(c, hash, rs, r);
    var start := if calls == [] then r.action.tick else calls[0].now;
    AttemptsAreARun(c, hash, rs, start, r.action.email);
    hide Attempts, SpelledAttempts;
    VerifyAnswers(c, hash, Reach(c, hash, rs), r);
    Limits.VerifyAnswer(start, calls, r.action.email, r.action.tick);
  }

  lemma AttemptsClocked(c: Config, hash: string -> string, rs: seq<Request>, r: Request)
    requires AttemptsInOrder(rs + [r]) && r.action.Verify?
    ensures var calls := Attempts(c, hash, rs);
            && (calls != [] ==> calls[0].Allow?)
            && var start := if calls == [] then r.action.tick else calls[0].now;
               && RateLimiter.Clocked(Limits.VERIFY_PER_EMAIL, start, calls)
               && r.action.tick >= RateLimiter.Run(Limits.VERIFY_PER_EMAIL, start, calls).clock
  {
    hide Reach, AttemptsInOrder, RateLimiter.Run, RateLimiter.Clocked, Attempts;
    var all := rs + [r];
    assert all[..|all| - 1] == rs && all[|all| - 1] == r;
    var calls := Attempts(c, hash, rs);
    AttemptsInOrderBefore(all);
    AttemptsAscend(c, hash, rs);
    assert calls != [] ==> calls[0].Allow?;
    var start := if calls == [] then r.action.tick else calls[0].now;
    RateLimiter.AllowsAreClocked(Limits.VERIFY_PER_EMAIL, start, calls);
    if calls != [] {
      EarlierAttempt(c, hash, all, |calls| - 1);
    }
  }
}
