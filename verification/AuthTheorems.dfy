/**
 * Where authority comes from: over any sequence of requests, every LP seat, membership, session,
 * GP role and broker link traces back to the request that was entitled to create it; with the
 * Supabase store as far as the addresses name themselves in its queries.
 */
module AuthTheorems {
  import opened Common
  import opened Membership
  import opened Otps
  import opened QueryText
  import opened AuthApp
  import Collections
  import Limits = AuthRateLimits
  import opened MembershipTheorems
  import RateLimiter

  /** The state after a sequence of requests; one whose rows are no answer of the query did not take place. */
  function Reach(c: Config, hash: string -> string, rs: seq<Request>): App {
    if rs == [] then EMPTY_APP
    else
      var app, r := Reach(c, hash, rs[..|rs| - 1]), rs[|rs| - 1];
      if Possible(c, app, hash, r) then Step(c, hash, app, r).0 else app
  }

  predicate Happens(c: Config, hash: string -> string, rs: seq<Request>, k: nat) {
    k < |rs| && Possible(c, Reach(c, hash, rs[..k]), hash, rs[k])
  }

  function AnswerAt(c: Config, hash: string -> string, rs: seq<Request>, k: nat): Response
    requires Happens(c, hash, rs, k)
  {
    Step(c, hash, Reach(c, hash, rs[..k]), rs[k]).1
  }

  /** The address behind the cookie of request k when it arrives. */
  function CallerAt(c: Config, hash: string -> string, rs: seq<Request>, k: nat): string
    requires k < |rs|
  {
    Recognised(Reach(c, hash, rs[..k]), hash, rs[k].cookie, rs[k].now)
  }

  lemma Earlier(c: Config, hash: string -> string, rs: seq<Request>, r: Request)
    ensures (rs + [r])[..|rs|] == rs
    ensures forall k: nat | k < |rs| :: (rs + [r])[..k] == rs[..k] && (rs + [r])[k] == rs[k]
    ensures Reach(c, hash, rs + [r]) == (if Possible(c, Reach(c, hash, rs), hash, r) then
                                           Step(c, hash, Reach(c, hash, rs), r).0
                                         else
                                           Reach(c, hash, rs))
    ensures Happens(c, hash, rs + [r], |rs|) <==> Possible(c, Reach(c, hash, rs), hash, r)
  {
    assert (rs + [r])[..|rs|] == rs;
  }

  // ---------------------------------------------------------------- addresses the store takes for themselves

  /** The store takes the address in the request for itself. */
  predicate DirectRequest(c: Config, r: Request) {
    match r.action
    case Restart => Direct(c.backend, c.gpAddr)
    case Social(_, verified, _) => Direct(c.backend, verified)
    case RequestCode(email, _, _, _, _, _) => Direct(c.backend, email)
    case Verify(email, _, _, _, _) => Direct(c.backend, email)
    case Invite(email, _) => Direct(c.backend, email)
    case Subscribe(email) => Direct(c.backend, email)
    case _ => true
  }

  ghost predicate AllDirect(c: Config, rs: seq<Request>) {
    forall k | 0 <= k < |rs| :: DirectRequest(c, rs[k])
  }

  // ---------------------------------------------------------------- roles

  /** Request k is an invite of the address, answered with an invitation, from a live session of the configured GP. */
  predicate InvitedByGp(c: Config, hash: string -> string, rs: seq<Request>, k: nat, email: string) {
    && Happens(c, hash, rs, k)
    && rs[k].action.Invite? && rs[k].action.email == email
    && AnswerAt(c, hash, rs, k).Invited?
    && CallerAt(c, hash, rs, k) == c.gpRaw != ""
  }

  predicate SubscribedThemself(c: Config, hash: string -> string, rs: seq<Request>, k: nat, email: string) {
    && Happens(c, hash, rs, k)
    && rs[k].action == Subscribe(email)
    && AnswerAt(c, hash, rs, k).Subscribed?
    && CallerAt(c, hash, rs, k) == email != ""
  }

  ghost predicate RoleIsEarned(c: Config, hash: string -> string, rs: seq<Request>, email: string, role: Role) {
    match role
    case GP => email == c.gpAddr
    case LP => exists k: nat :: InvitedByGp(c, hash, rs, k, email)
    case MEMBER => exists k: nat :: SubscribedThemself(c, hash, rs, k, email)
    case GUEST => true
    case OtherRole(_) => false
  }

  predicate HasRole(members: Members, email: string, role: Role) {
    email in members && members[email].role == role
  }

  predicate MovesMembers(a: Action) {
    a.Restart? || a.Social? || a.RequestCode? || a.Invite? || a.Subscribe?
  }

  /** The one operation of the store that a request may come to. */
  function OperationOf(c: Config, a: Action): Op
    requires MovesMembers(a)
  {
    match a
    case Restart => EnsureGp(c.gpAddr)
    case Social(_, verified, _) => UpsertGuest(verified)
    case RequestCode(email, _, _, _, _, _) => UpsertGuest(email)
    case Invite(email, token) => IssueLpInvite(email, token, INVITE_DAYS)
    case Subscribe(email) => SetSubscribed(email)
  }

  /** How one request changes the roster: by that operation, or not at all. */
  lemma MembersMoveByOneOperation(c: Config, hash: string -> string, app: App, r: Request)
    requires Possible(c, app, hash, r)
    ensures var (after, answer) := Step(c, hash, app, r);
            var caller := Recognised(app, hash, r.cookie, r.now);
            || after.members == app.members
            || (&& MovesMembers(r.action)
                && var (members, outcome) := StoreStep(c.backend, app.members, OperationOf(c, r.action), r.now);
                   && after.members == members
                   && (r.action.Subscribe?
                       ==> caller == r.action.email != "" && (answer.Subscribed? <==> outcome.Returned?))
                   && (r.action.Invite? ==> caller == c.gpRaw != "" && (answer.Invited? <==> outcome.Nothing?)))
  {
    hide StoreStep, Limits.RequestStep, RateLimiter.AllowStep, Opened, Spent, AccessDecisionFor, Seen, Recognised;
  }

  lemma DirectOperation(c: Config, r: Request)
    requires DirectRequest(c, r) && MovesMembers(r.action)
    ensures Direct(c.backend, OperationOf(c, r.action).email)
  {
  }

  /** A role that one operation newly gives. */
  lemma NewRoleByOperation(b: Backend, members: Members, op: Op, now: int, email: string, role: Role)
    requires HasRole(CleanStep(b, members, op, now).0, email, role) && !HasRole(members, email, role)
    ensures op.email == email
    ensures CleanStep(b, members, op, now).1
         == if op.IssueLpInvite? then Nothing else Returned(CleanStep(b, members, op, now).0[email])
    ensures match role
            case GP => op.EnsureGp?
            case LP => TakesSeat(op)
            case MEMBER => op.SetSubscribed?
            case GUEST => op.UpsertGuest?
            case OtherRole(_) => false
  {
  }

  /** A role that one request newly gives: what the request must have been. */
  lemma NewRoleMeans(c: Config, hash: string -> string, app: App, r: Request, email: string, role: Role)
    requires Possible(c, app, hash, r) && DirectRequest(c, r)
    requires HasRole(Step(c, hash, app, r).0.members, email, role) && !HasRole(app.members, email, role)
    ensures var caller := Recognised(app, hash, r.cookie, r.now);
            match role
            case GP => email == c.gpAddr
            case LP => r.action.Invite? && r.action.email == email && Step(c, hash, app, r).1.Invited?
                       && caller == c.gpRaw != ""
            case MEMBER => r.action == Subscribe(email) && Step(c, hash, app, r).1.Subscribed? && caller == email != ""
            case GUEST => true
            case OtherRole(_) => false
  {
    hide Step, Possible, StoreStep, CleanStep, HasRole, Recognised, Direct, DirectRequest;
    MembersMoveByOneOperation(c, hash, app, r);
    DirectOperation(c, r);
    var op := OperationOf(c, r.action);
    DirectStep(c.backend, app.members, op, r.now);
    NewRoleByOperation(c.backend, app.members, op, r.now, email, role);
  }

  /**
   * GP is the configured address, every LP was invited by the GP, every MEMBER subscribed from a
   * session of their own.
   */
  lemma {:induction false} EveryRoleIsEarned(c: Config, hash: string -> string, rs: seq<Request>, email: string)
    requires AllDirect(c, rs)
    ensures var members := Reach(c, hash, rs).members;
            email in members ==> RoleIsEarned(c, hash, rs, email, members[email].role)
  {
    hide Step, Possible, DirectRequest;
    if rs != [] {
      var before, r := rs[..|rs| - 1], rs[|rs| - 1];
      assert rs == before + [r];
      Earlier(c, hash, before, r);
      EveryRoleIsEarned(c, hash, before, email);
      var members := Reach(c, hash, rs).members;
      if email in members {
        var role := members[email].role;
        if HasRole(Reach(c, hash, before).members, email, role) {
          EarnedStaysEarned(c, hash, before, r, email, role);
        } else {
          NewRoleMeans(c, hash, Reach(c, hash, before), r, email, role);
          assert role.LP? ==> InvitedByGp(c, hash, rs, |before|, email);
          assert role.MEMBER? ==> SubscribedThemself(c, hash, rs, |before|, email);
        }
      }
    }
  }

  lemma EarnedStaysEarned(c: Config, hash: string -> string, rs: seq<Request>, r: Request, email: string, role: Role)
    requires RoleIsEarned(c, hash, rs, email, role)
    ensures RoleIsEarned(c, hash, rs + [r], email, role)
  {
    hide Step, Possible, Reach;
    Earlier(c, hash, rs, r);
    if role.LP? {
      var k: nat :| InvitedByGp(c, hash, rs, k, email);
      assert InvitedByGp(c, hash, rs + [r], k, email);
    }
    if role.MEMBER? {
      var k: nat :| SubscribedThemself(c, hash, rs, k, email);
      assert SubscribedThemself(c, hash, rs + [r], k, email);
    }
  }

  /** No sequence of requests fills more than 99 seats, and only the configured GP ever holds a broker link. */
  lemma {:induction false} SeatsAndLinksAreBounded(c: Config, hash: string -> string, rs: seq<Request>)
    ensures AllDirect(c, rs) ==> |LpEmails(Reach(c, hash, rs).members)| <= MAX_LP_MEMBERS
    ensures forall e | e in Reach(c, hash, rs).links :: IsOperator(c, e)
  {
    hide Step, Possible, LpEmails, IsOperator, DirectRequest;
    if rs == [] {
      NoSeatsYet();
    } else {
      var app, r := Reach(c, hash, rs[..|rs| - 1]), rs[|rs| - 1];
      SeatsAndLinksAreBounded(c, hash, rs[..|rs| - 1]);
      if Possible(c, app, hash, r) {
        if AllDirect(c, rs) {
          SeatsStayBounded(c, hash, app, r);
        }
        LinksGrowByOperators(c, hash, app, r);
      }
    }
  }

  lemma NoSeatsYet()
    ensures |LpEmails(map[])| == 0
  {
    assert LpEmails(map[]) == {};
  }

  lemma LinksGrowByOperators(c: Config, hash: string -> string, app: App, r: Request)
    requires Possible(c, app, hash, r)
    ensures forall e | e in Step(c, hash, app, r).0.links :: e in app.links || IsOperator(c, e)
  {
    hide StoreStep, Limits.RequestStep, RateLimiter.AllowStep, Opened, Spent, AccessDecisionFor, Seen, RoleFor;
  }

  lemma SeatsStayBounded(c: Config, hash: string -> string, app: App, r: Request)
    requires Possible(c, app, hash, r) && DirectRequest(c, r) && |LpEmails(app.members)| <= MAX_LP_MEMBERS
    ensures |LpEmails(Step(c, hash, app, r).0.members)| <= MAX_LP_MEMBERS
  {
    hide Step, StoreStep, Direct, DirectRequest, LpEmails;
    MembersMoveByOneOperation(c, hash, app, r);
    var members := app.members;
    if Step(c, hash, app, r).0.members == members {
      return;
    }
    var op := OperationOf(c, r.action);
    DirectOperation(c, r);
    MembershipTheorems.StepAddsOneSeat(c.backend, members, op, r.now);
    Collections.SubsetSize(LpEmails(StoreStep(c.backend, members, op, r.now).0),
                    if TakesSeat(op) && !CapReached(members) then LpEmails(members) + {op.email}
                    else LpEmails(members));
  }

  // ---------------------------------------------------------------- an invite that seats another

  ghost predicate Earned(c: Config, hash: string -> string, rs: seq<Request>, email: string) {
    var members := Reach(c, hash, rs).members;
    email in members ==> RoleIsEarned(c, hash, rs, email, members[email].role)
  }

  /** The GP signs in, an address signs in, and the GP invites an address that goes on behind a `#`. */
  function CutInviteRun(c: Config, email: string, tail: string, cookie: string, now: int): seq<Request> {
    [Request(now, "", Social(true, c.gpRaw, cookie)), Request(now, "", Social(true, email, "")),
     Request(now, cookie, Invite(email + "#" + tail, ""))]
  }

  /**
   * A sign-in through the identity provider leaves a guest's row, if there was none, and a session,
   * if its hash is new.
   */
  lemma SocialSignsIn(c: Config, hash: string -> string, app: App, r: Request)
    requires r.action.Social? && r.action.hasToken && c.socialOn && r.action.verified != ""
             && Direct(c.backend, r.action.verified)
    requires forall e | e in app.members :: app.members[e].role.GUEST?
    ensures var after, email, h := Step(c, hash, app, r).0, r.action.verified, hash(r.action.session);
            && after.members.Keys == app.members.Keys + {email}
            && (forall e | e in after.members :: after.members[e].role.GUEST?)
            && (forall k | k in app.sessions :: k in after.sessions && after.sessions[k] == app.sessions[k])
            && h in after.sessions
            && (h !in app.sessions ==> after.sessions[h] == Session(email, r.now, r.now + SESSION_TTL))
  {
    hide StoreStep, CleanStep, Direct, Seen, RoleFor, AccessDecisionFor, Find;
    var email := r.action.verified;
    var after := CleanStep(c.backend, app.members, UpsertGuest(email), r.now).0;
    DirectStep(c.backend, app.members, UpsertGuest(email), r.now);
    DirectSeen(c.backend, after, email);
    GuestIsAdmitted(c.backend, app.members, email, r.now);
  }

  lemma GuestIsAdmitted(b: Backend, members: Members, email: string, now: int)
    requires forall e | e in members :: members[e].role.GUEST?
    ensures var (after, outcome) := CleanStep(b, members, UpsertGuest(email), now);
            && outcome.Returned? && after.Keys == members.Keys + {email}
            && (forall e | e in after :: after[e].role.GUEST?)
            && AccessDecisionFor(Find(after, email), now).allowed
  {
  }

  lemma GuestsTakeNoSeats(members: Members)
    requires forall e | e in members :: members[e].role.GUEST?
    ensures !CapReached(members)
  {
    assert LpEmails(members) == {};
  }

  /** With Supabase that invite seats the address before the `#` as well, which nobody invited. */
  lemma CutInviteSeatsAnother(c: Config, hash: string -> string, email: string, tail: string, cookie: string, now: int)
    requires c.backend.Supabase? && c.socialOn && c.gpRaw != "" && Named(c.gpRaw) && cookie != ""
    requires email != "" && Named(email) && '#' !in tail
    ensures var rs := CutInviteRun(c, email, tail, cookie, now);
            && HasRole(Reach(c, hash, rs).members, email, LP)
            && (forall k: nat :: !InvitedByGp(c, hash, rs, k, email))
            && !Earned(c, hash, rs, email)
  {
    hide Step, Named, LpEmails;
    var rs := CutInviteRun(c, email, tail, cookie, now);
    var first := Reach(c, hash, rs[..1]);
    var second := Reach(c, hash, rs[..2]);
    assert rs[..1] == [] + [rs[0]] && rs[..2] == rs[..1] + [rs[1]] && rs == rs[..2] + [rs[2]];
    Earlier(c, hash, [], rs[0]);
    Earlier(c, hash, rs[..1], rs[1]);
    Earlier(c, hash, rs[..2], rs[2]);
    SocialSignsIn(c, hash, EMPTY_APP, rs[0]);
    SocialSignsIn(c, hash, first, rs[1]);
    assert Recognised(second, hash, cookie, now) == c.gpRaw;
    GuestsTakeNoSeats(second.members);
    CutInviteStep(c, hash, second, rs[2], email, tail);
    assert email != email + "#" + tail;
  }

  lemma CutInviteStep(c: Config, hash: string -> string, app: App, r: Request, email: string, tail: string)
    requires c.backend.Supabase? && Named(email) && '#' !in tail && r.action.Invite?
             && r.action.email == email + "#" + tail
    requires Recognised(app, hash, r.cookie, r.now) == c.gpRaw != "" && email in app.members
    requires !CapReached(app.members)
    ensures HasRole(Step(c, hash, app, r).0.members, email, LP)
  {
    hide StoreStep, Named, LpEmails, Recognised, CapReached;
    MembershipTheorems.CutInviteReaches(c.backend.server, app.members, email, tail, r.action.token, INVITE_DAYS, r.now);
    assert StoreStep(c.backend, app.members, IssueLpInvite(r.action.email, r.action.token, INVITE_DAYS), r.now)
        == SupabaseStep(c.backend.server, app.members, IssueLpInvite(r.action.email, r.action.token, INVITE_DAYS),
                        r.now) by {
      StoreStepIs(c.backend, app.members, IssueLpInvite(r.action.email, r.action.token, INVITE_DAYS), r.now);
    }
  }

  lemma StoreStepIs(b: Backend, members: Members, op: Op, now: int)
    requires b.Supabase?
    ensures StoreStep(b, members, op, now) == SupabaseStep(b.server, members, op, now)
  {
    hide SupabaseStep;
  }

  /** So every role is earned in every run exactly with the SQLite store, wherever the GP can sign in. */
  lemma RolesAreEarnedExactlyWithSqlite(c: Config, hash: string -> string)
    requires c.socialOn && c.gpRaw != "" && Named(c.gpRaw)
    ensures (forall rs, email :: Earned(c, hash, rs, email)) <==> c.backend.Sqlite?
  {
    hide Named, Earned, Reach;
    if c.backend.Sqlite? {
      forall rs, email
        ensures Earned(c, hash, rs, email)
      {
        EarnedWithSqlite(c, hash, rs, email);
      }
    } else {
      CutInviteSeatsAnother(c, hash, c.gpRaw, "", "cookie", 0);
    }
  }

  lemma EarnedWithSqlite(c: Config, hash: string -> string, rs: seq<Request>, email: string)
    requires c.backend.Sqlite?
    ensures Earned(c, hash, rs, email)
  {
    hide Reach;
    EveryRoleIsEarned(c, hash, rs, email);
  }

  // ---------------------------------------------------------------- sessions

  predicate OpensSession(c: Config, hash: string -> string, rs: seq<Request>, k: nat, h: string, s: Session) {
    && Happens(c, hash, rs, k)
    && AnswerAt(c, hash, rs, k).SignedIn?
    && hash(AnswerAt(c, hash, rs, k).session) == h
    && s == Session(AnswerAt(c, hash, rs, k).email, rs[k].now, rs[k].now + SESSION_TTL)
  }

  predicate LogsOut(r: Request, hash: string -> string, h: string) {
    r.action.Logout? && r.cookie != "" && hash(r.cookie) == h
  }

  predicate HoldsSession(app: App, h: string, s: Session) {
    h in app.sessions && app.sessions[h] == s
  }

  ghost predicate LiveSignIn(c: Config, hash: string -> string, rs: seq<Request>, k: nat, h: string, s: Session) {
    OpensSession(c, hash, rs, k, h, s) && forall j | k < j < |rs| :: !LogsOut(rs[j], hash, h)
  }

  /** What the requests that are decided by who asks leave alone. */
  lemma CallerStepKeeps(c: Config, hash: string -> string, app: App, r: Request)
    requires Possible(c, app, hash, r) && AsksWho(r.action)
    ensures var (after, answer) := Step(c, hash, app, r);
            && after.sessions == app.sessions && after.limits == app.limits && after.verifies == app.verifies
            && !answer.SignedIn?
  {
    hide StoreStep, Opened, Spent, AccessDecisionFor, Seen, RoleFor, Recognised;
  }

  lemma OwnSessionsMove(c: Config, hash: string -> string, app: App, r: Request)
    requires Possible(c, app, hash, r) && !AsksWho(r.action)
    ensures var (after, answer) := Step(c, hash, app, r);
            if answer.SignedIn? then
              && !r.action.Logout? && hash(answer.session) !in app.sessions
              && after.sessions
                   == app.sessions[hash(answer.session) := Session(answer.email, r.now, r.now + SESSION_TTL)]
            else after.sessions
                 == if r.action.Logout? && r.cookie != "" then app.sessions - {hash(r.cookie)} else app.sessions
  {
    hide StoreStep, Limits.RequestStep, RateLimiter.AllowStep, Opened, Spent, AccessDecisionFor, Seen, RoleFor,
         CallerStep;
  }

  /** One request opens a session under a new hash, closes one, or leaves the sessions alone. */
  lemma SessionsMoveOneWay(c: Config, hash: string -> string, app: App, r: Request)
    requires Possible(c, app, hash, r)
    ensures var (after, answer) := Step(c, hash, app, r);
            if answer.SignedIn? then
              && !r.action.Logout? && hash(answer.session) !in app.sessions
              && after.sessions
                   == app.sessions[hash(answer.session) := Session(answer.email, r.now, r.now + SESSION_TTL)]
            else after.sessions
                 == if r.action.Logout? && r.cookie != "" then app.sessions - {hash(r.cookie)} else app.sessions
  {
    hide Step, Possible;
    if AsksWho(r.action) {
      CallerStepKeeps(c, hash, app, r);
    } else {
      OwnSessionsMove(c, hash, app, r);
    }
  }

  lemma SessionsMove(c: Config, hash: string -> string, app: App, r: Request, h: string, s: Session)
    requires Possible(c, app, hash, r)
    ensures var (after, answer) := Step(c, hash, app, r);
            if answer.SignedIn? && hash(answer.session) == h
            then h !in app.sessions && !LogsOut(r, hash, h)
                 && (HoldsSession(after, h, s) <==> s == Session(answer.email, r.now, r.now + SESSION_TTL))
            else HoldsSession(after, h, s) <==> HoldsSession(app, h, s) && !LogsOut(r, hash, h)
  {
    hide Step, Possible;
    SessionsMoveOneWay(c, hash, app, r);
  }

  lemma LogoutAlwaysHappens(c: Config, app: App, hash: string -> string, r: Request, h: string)
    ensures LogsOut(r, hash, h) ==> Possible(c, app, hash, r)
  {
  }

  /** A session row is there exactly when a sign-in put it there and no logout with that token came after. */
  lemma {:induction false} SessionsAreSignIns(c: Config, hash: string -> string, rs: seq<Request>, h: string,
                                              s: Session)
    ensures HoldsSession(Reach(c, hash, rs), h, s) <==> exists k: nat :: LiveSignIn(c, hash, rs, k, h, s)
  {
    hide Step, Possible;
    if rs != [] {
      var before, r := rs[..|rs| - 1], rs[|rs| - 1];
      var app, last := Reach(c, hash, before), |before|;
      assert rs == before + [r];
      Earlier(c, hash, before, r);
      SessionsAreSignIns(c, hash, before, h, s);
      assert forall k: nat | k < last :: OpensSession(c, hash, rs, k, h, s) <==> OpensSession(c, hash, before, k, h, s);
      LogoutAlwaysHappens(c, app, hash, r, h);
      if Possible(c, app, hash, r) {
        SessionsMove(c, hash, app, r, h, s);
      }
      if HoldsSession(Reach(c, hash, rs), h, s) {
        if HoldsSession(app, h, s) && !OpensSession(c, hash, rs, last, h, s) {
          var k: nat :| LiveSignIn(c, hash, before, k, h, s);
          assert LiveSignIn(c, hash, rs, k, h, s);
        } else {
          assert LiveSignIn(c, hash, rs, last, h, s);
        }
      }
      if k: nat :| LiveSignIn(c, hash, rs, k, h, s) {
        if k < last {
          assert LiveSignIn(c, hash, before, k, h, s);
        }
      }
    }
  }

  ghost predicate SignedInWithin(c: Config, hash: string -> string, rs: seq<Request>, k: nat, h: string, email: string,
                                 now: int)
  {
    && k < |rs|
    && LiveSignIn(c, hash, rs, k, h, Session(email, rs[k].now, rs[k].now + SESSION_TTL))
    && now <= rs[k].now + SESSION_TTL
  }

  /**
   * A cookie is recognised as an address exactly when a sign-in of that address at most 45 days
   * ago issued a token with its hash and nobody has logged that token out since.
   */
  lemma RecognisedExactlyWhen(c: Config, hash: string -> string, rs: seq<Request>, cookie: string, now: int,
                              email: string)
    requires email != ""
    ensures Recognised(Reach(c, hash, rs), hash, cookie, now) == email
       <==> cookie != "" && exists k: nat :: SignedInWithin(c, hash, rs, k, hash(cookie), email, now)
  {
    hide Step, Possible, Reach;
    var app, h := Reach(c, hash, rs), hash(cookie);
    if Recognised(app, hash, cookie, now) == email {
      var s := app.sessions[h];
      SessionsAreSignIns(c, hash, rs, h, s);
      var k: nat :| LiveSignIn(c, hash, rs, k, h, s);
      assert SignedInWithin(c, hash, rs, k, h, email, now);
    }
    if k: nat :| SignedInWithin(c, hash, rs, k, h, email, now) {
      var s := Session(email, rs[k].now, rs[k].now + SESSION_TTL);
      assert LiveSignIn(c, hash, rs, k, h, s);
      SessionsAreSignIns(c, hash, rs, h, s);
    }
  }

  // ---------------------------------------------------------------- one-time codes

  /** A request for a sign-in code that the limiters let through. */
  predicate GrantsCode(app: App, r: Request) {
    && r.action.RequestCode? && LooksLikeEmail(r.action.email)
    && Limits.RequestStep(app.limits, LimitedRequest(r.action)).1
  }

  predicate GrantsAttempt(app: App, r: Request) {
    && r.action.Verify?
    && RateLimiter.AllowStep(Limits.VERIFY_PER_EMAIL, app.verifies, r.action.email, r.action.tick).1
  }

  /** The request issues the code: a sign-in code to whoever asks, a broker code to the signed-in operator. */
  predicate Issues(c: Config, hash: string -> string, app: App, r: Request, o: Otp) {
    && o.createdAt == r.now && o.expiresAt == r.now + OTP_TTL
    && match r.action
       case RequestCode(email, _, _, _, code, _) =>
         o.purpose == "signin" && GrantsCode(app, r) && email == o.email && hash(code) == o.codeHash
       case Authorize(code) =>
         && o.purpose == "broker_state" && hash(code) == o.codeHash
         && Recognised(app, hash, r.cookie, r.now) == o.email != "" && IsOperator(c, o.email)
       case _ => false
  }

  lemma OwnCodesMove(c: Config, hash: string -> string, app: App, r: Request) returns (row: Option<nat>, o: Otp)
    requires Possible(c, app, hash, r) && !AsksWho(r.action)
    ensures row.Some? ==> row.value < |app.otps|
    ensures var after := Step(c, hash, app, r).0.otps;
            after == app.otps || after == Spent(app.otps, row)
            || (after == app.otps + [o] && !o.used && Issues(c, hash, app, r, o))
  {
    hide StoreStep, Limits.RequestStep, RateLimiter.AllowStep, AccessDecisionFor, Opened, Spent, Seen, CallerStep,
         Recognised;
    row := if r.action.Verify? then Opened(app.otps, r.action.rows, hash(r.action.code), r.now) else None;
    o := if r.action.RequestCode? then Issued(r.action.email, hash(r.action.code), "signin", r.now)
         else Issued("", "", "", 0);
  }

  lemma CallerCodesMove(c: Config, hash: string -> string, app: App, r: Request) returns (row: Option<nat>, o: Otp)
    requires Possible(c, app, hash, r) && AsksWho(r.action)
    ensures row.Some? ==> row.value < |app.otps|
    ensures var after := Step(c, hash, app, r).0.otps;
            after == app.otps || after == Spent(app.otps, row)
            || (after == app.otps + [o] && !o.used && Issues(c, hash, app, r, o))
  {
    hide StoreStep, Limits.RequestStep, RateLimiter.AllowStep, AccessDecisionFor, Opened, Spent, Seen, Recognised;
    row := if r.action.Link? then Opened(app.otps, r.action.rows, hash(r.action.code), r.now) else None;
    o := Issued(Recognised(app, hash, r.cookie, r.now),
                if r.action.Authorize? then hash(r.action.code) else "", "broker_state", r.now);
  }

  /** One request leaves the codes alone, uses one up, or appends one that it issues. */
  lemma CodesMoveOneWay(c: Config, hash: string -> string, app: App, r: Request) returns (row: Option<nat>, o: Otp)
    requires Possible(c, app, hash, r)
    ensures row.Some? ==> row.value < |app.otps|
    ensures var after := Step(c, hash, app, r).0.otps;
            after == Spent(app.otps, row) || (after == app.otps + [o] && !o.used && Issues(c, hash, app, r, o))
  {
    hide Step, Possible, Issues, Spent;
    if AsksWho(r.action) {
      row, o := CallerCodesMove(c, hash, app, r);
    } else {
      row, o := OwnCodesMove(c, hash, app, r);
    }
    if Step(c, hash, app, r).0.otps == app.otps {
      row := None;
      SpendingNothing(app.otps);
    }
  }

  lemma SpendingNothing(otps: seq<Otp>)
    ensures Spent(otps, None) == otps
  {
  }

  /** One request appends at most one code, which it issues; otherwise codes change only by being used up. */
  lemma CodesMove(c: Config, hash: string -> string, app: App, r: Request)
    requires Possible(c, app, hash, r)
    ensures var after := Step(c, hash, app, r).0.otps;
            && |app.otps| <= |after| <= |app.otps| + 1
            && (forall i | 0 <= i < |app.otps| ::
                  after[i] == app.otps[i] || (!app.otps[i].used && after[i] == app.otps[i].(used := true)))
            && (|after| > |app.otps| ==> !after[|app.otps|].used && Issues(c, hash, app, r, after[|app.otps|]))
  {
    hide Step, Possible, Issues;
    var row, o := CodesMoveOneWay(c, hash, app, r);
  }

  function OtpsAt(c: Config, hash: string -> string, rs: seq<Request>, k: nat): seq<Otp>
    requires k <= |rs|
  {
    Reach(c, hash, rs[..k]).otps
  }

  predicate IssuedAt(c: Config, hash: string -> string, rs: seq<Request>, j: nat, o: Otp) {
    Happens(c, hash, rs, j) && Issues(c, hash, Reach(c, hash, rs[..j]), rs[j], o)
  }

  lemma IssuesIgnoresUse(c: Config, hash: string -> string, app: App, r: Request, o: Otp, used: bool)
    requires Issues(c, hash, app, r, o)
    ensures Issues(c, hash, app, r, o.(used := used))
  {
  }

  /** Every row of the code table was issued by one of the requests. */
  lemma {:induction false} EveryCodeWasIssued(c: Config, hash: string -> string, rs: seq<Request>, i: nat)
    returns (j: nat)
    requires i < |Reach(c, hash, rs).otps|
    ensures IssuedAt(c, hash, rs, j, Reach(c, hash, rs).otps[i])
  {
    hide Step, Possible, Issues;
    var before, r := rs[..|rs| - 1], rs[|rs| - 1];
    assert rs == before + [r];
    var app := Reach(c, hash, before);
    Earlier(c, hash, before, r);
    if Possible(c, app, hash, r) {
      CodesMove(c, hash, app, r);
    }
    if i < |app.otps| {
      j := EveryCodeWasIssued(c, hash, before, i);
      IssuesIgnoresUse(c, hash, Reach(c, hash, before[..j]), before[j], app.otps[i], Reach(c, hash, rs).otps[i].used);
    } else {
      j := |before|;
    }
  }

  /** Rows are never removed, and a used code stays used. */
  lemma {:induction false} UsedStaysUsed(c: Config, hash: string -> string, rs: seq<Request>, k: nat, m: nat, i: nat)
    requires k <= m <= |rs| && i < |OtpsAt(c, hash, rs, k)|
    ensures i < |OtpsAt(c, hash, rs, m)|
    ensures OtpsAt(c, hash, rs, k)[i].used ==> OtpsAt(c, hash, rs, m)[i].used
  {
    hide Step, Possible, Issues;
    if k < m {
      UsedStaysUsed(c, hash, rs, k, m - 1, i);
      var app, r := Reach(c, hash, rs[..m - 1]), rs[m - 1];
      assert rs[..m] == rs[..m - 1] + [r];
      Earlier(c, hash, rs[..m - 1], r);
      if Possible(c, app, hash, r) {
        CodesMove(c, hash, app, r);
      }
    }
  }

  /** Request k uses up row i of the code table. */
  predicate UsesUp(c: Config, hash: string -> string, rs: seq<Request>, k: nat, i: nat) {
    && k < |rs|
    && i < |OtpsAt(c, hash, rs, k)| && i < |OtpsAt(c, hash, rs, k + 1)|
    && !OtpsAt(c, hash, rs, k)[i].used && OtpsAt(c, hash, rs, k + 1)[i].used
  }

  /** The row that a request's code opens, if it comes to that. */
  function RowOpened(c: Config, hash: string -> string, app: App, r: Request): (row: Option<nat>)
    requires Possible(c, app, hash, r)
  {
    RowsAreInTable(c, app, hash, r);
    var caller := Recognised(app, hash, r.cookie, r.now);
    if r.action.Verify? then
      if GrantsAttempt(app, r) && CodesAnswer(c, r.action.email) then
        Opened(app.otps, r.action.rows, hash(r.action.code), r.now)
      else
        None
    else if r.action.Link? then
      if caller == "" || Seen(c.backend, app.members, caller).Err? || !IsOperator(c, caller) || !c.brokerOn
         || r.action.code == ""
         || !CodesAnswer(c, caller)
      then None else Opened(app.otps, r.action.rows, hash(r.action.code), r.now)
    else None
  }

  /** The address whose codes the request may open. */
  function Claimed(app: App, hash: string -> string, r: Request): string {
    if r.action.Verify? then r.action.email else Recognised(app, hash, r.cookie, r.now)
  }

  /** The address that the store's query asks for, and whether it asks for the purpose and for unused codes. */
  function AddressRead(c: Config, email: string): string {
    if c.backend.Sqlite? then email else Asked(email)
  }

  predicate AsksForUnused(c: Config, email: string) {
    c.backend.Sqlite? || '#' !in email
  }

  lemma DirectReads(c: Config, email: string)
    requires Direct(c.backend, email)
    ensures AddressRead(c, email) == email && AsksForUnused(c, email)
  {
    hide Sendable, Asked;
    NamedExactlyWhen(email);
  }

  function PurposeOf(a: Action): string {
    if a.Verify? then "signin" else "broker_state"
  }

  /** What the opened row is, and that it is used up. */
  lemma OpenedRowIs(c: Config, hash: string -> string, app: App, r: Request)
    requires Possible(c, app, hash, r) && RowOpened(c, hash, app, r).Some?
    ensures var i, email, after := RowOpened(c, hash, app, r).value, Claimed(app, hash, r), Step(c, hash, app, r).0;
            && i < |app.otps| == |after.otps| && after.otps[i].used
            && app.otps[i].email == AddressRead(c, email) && app.otps[i].codeHash == hash(r.action.code)
            && r.now <= app.otps[i].expiresAt
            && (AsksForUnused(c, email) ==> !app.otps[i].used && app.otps[i].purpose == PurposeOf(r.action))
  {
    SpendsTheRow(c, hash, app, r);
    hide Step;
    RowsAreInTable(c, app, hash, r);
    SelectedRowIs(c, app.otps, Claimed(app, hash, r), PurposeOf(r.action), r.action.rows,
                  RowOpened(c, hash, app, r).value);
  }

  lemma SpendsTheRow(c: Config, hash: string -> string, app: App, r: Request)
    requires Possible(c, app, hash, r) && RowOpened(c, hash, app, r).Some?
    ensures Step(c, hash, app, r).0.otps == Spent(app.otps, RowOpened(c, hash, app, r))
  {
    hide StoreStep, Limits.RequestStep, RateLimiter.AllowStep, AccessDecisionFor, Seen, Opened, Spent, RoleFor;
  }

  lemma SelectedRowIs(c: Config, otps: seq<Otp>, email: string, purpose: string, rows: seq<nat>, i: nat)
    requires Selected(c, otps, email, purpose, rows) && i in rows && i < |otps|
    ensures otps[i].email == AddressRead(c, email)
    ensures AsksForUnused(c, email) ==> !otps[i].used && otps[i].purpose == purpose
  {
    hide Asked, Answered;
    var k :| 0 <= k < |rows| && rows[k] == i;
    if c.backend.Sqlite? {
      assert Matches(otps[rows[k]], email, purpose);
    } else if Answered(c.codeServer, email) {
      assert Reads(c.codeServer, otps[i], email, purpose);
    }
  }

  /** Request k opens row i of the code table. */
  predicate OpensAt(c: Config, hash: string -> string, rs: seq<Request>, k: nat, i: nat) {
    Happens(c, hash, rs, k) && RowOpened(c, hash, Reach(c, hash, rs[..k]), rs[k]) == Some(i)
  }

  /**
   * Requests taken one at a time, a code opens once: if a later request opens it again, its address
   * holds a `#`, behind which the Supabase query no longer asks for unused codes.
   */
  lemma EachCodeOpensOnce(c: Config, hash: string -> string, rs: seq<Request>, k: nat, m: nat, i: nat)
    requires OpensAt(c, hash, rs, k, i) && OpensAt(c, hash, rs, m, i) && k < m
    ensures c.backend.Supabase? && '#' in Claimed(Reach(c, hash, rs[..m]), hash, rs[m])
    ensures !Direct(c.backend, Claimed(Reach(c, hash, rs[..m]), hash, rs[m]))
  {
    hide Reach, Step, RowOpened, Possible, Claimed, Direct;
    OpenedRowIs(c, hash, Reach(c, hash, rs[..k]), rs[k]);
    OpenedRowIs(c, hash, Reach(c, hash, rs[..m]), rs[m]);
    assert rs[..k + 1] == rs[..k] + [rs[k]];
    Earlier(c, hash, rs[..k], rs[k]);
    UsedStaysUsed(c, hash, rs, k + 1, m, i);
    if Direct(c.backend, Claimed(Reach(c, hash, rs[..m]), hash, rs[m])) {
      DirectReads(c, Claimed(Reach(c, hash, rs[..m]), hash, rs[m]));
    }
  }

  /**
   * Behind a `#` that is so: any code of the address before it opens until it expires, used or not,
   * whatever it was issued for.
   */
  lemma CutVerificationOpensAnyCode(c: Config, hash: string -> string, app: App, r: Request, email: string,
                                    tail: string, i: nat)
    requires c.backend.Supabase? && Named(email) && '#' !in tail
    requires Possible(c, app, hash, r) && GrantsAttempt(app, r) && r.action.email == email + "#" + tail
    requires i < |app.otps| && app.otps[i].email == email && Opens(app.otps[i], hash(r.action.code), r.now)
    ensures RowOpened(c, hash, app, r).Some?
  {
    hide Named, AllRows, Opens, Opened, RateLimiter.AllowStep;
    CutAddress(email, tail);
    CutAddressOpensAnyCode(c.codeServer, app.otps, email, tail, "signin", hash(r.action.code), r.now, r.action.rows, i);
  }

  /**
   * Request k opens row i, which request j issued: at most 600 s before and for the address that
   * the query asks for.
   */
  ghost predicate ProvedByCode(c: Config, hash: string -> string, rs: seq<Request>, k: nat, i: nat, j: nat,
                               purpose: string, email: string)
  {
    && OpensAt(c, hash, rs, k, i) && (rs[k].action.Verify? || rs[k].action.Link?)
    && i < |OtpsAt(c, hash, rs, k)|
    && var o := OtpsAt(c, hash, rs, k)[i];
       && o.email == AddressRead(c, email) && o.codeHash == hash(rs[k].action.code) && rs[k].now <= o.expiresAt
       && (AsksForUnused(c, email) ==> o.purpose == purpose && UsesUp(c, hash, rs, k, i))
       && j < k && IssuedAt(c, hash, rs, j, o)
  }

  /**
   * For an address that the store takes for itself: by a sign-in or broker code of that very
   * address, unused until then.
   */
  lemma DirectProof(c: Config, hash: string -> string, rs: seq<Request>, k: nat, i: nat, j: nat, purpose: string,
                    email: string)
    requires ProvedByCode(c, hash, rs, k, i, j, purpose, email) && Direct(c.backend, email)
    ensures OtpsAt(c, hash, rs, k)[i].email == email && OtpsAt(c, hash, rs, k)[i].purpose == purpose
            && UsesUp(c, hash, rs, k, i)
  {
    hide Direct, UsesUp, OpensAt, IssuedAt, AddressRead, AsksForUnused;
    DirectReads(c, email);
  }

  /**
   * Every sign-in proved its address: the identity provider vouched for it, or the request opened a
   * code that an earlier request had issued at most 600 s before, for the address that the store's
   * query asks for. For an address that the store takes for itself it was a sign-in code of that
   * address, which it used up; a broker code then signs nobody in, it completes a link of the
   * operator who asked for it.
   */
  lemma EverySignInProvedTheAddress(c: Config, hash: string -> string, rs: seq<Request>, k: nat)
    requires Happens(c, hash, rs, k)
    ensures var answer := AnswerAt(c, hash, rs, k);
            && (answer.SignedIn? ==>
                  && (rs[k].action.Social? ==> c.socialOn && rs[k].action.verified == answer.email != "")
                  && (rs[k].action.Social? ||
                      (GrantsAttempt(Reach(c, hash, rs[..k]), rs[k]) &&
                       exists i: nat, j: nat :: ProvedByCode(c, hash, rs, k, i, j, "signin", answer.email))))
            && (answer.Linked? ==>
                  && rs[k].action.Link? && rs[k].action.exchange.Granted? && rs[k].action.saved.SavedOk?
                  && IsOperator(c, CallerAt(c, hash, rs, k))
                  && exists i: nat, j: nat ::
                       ProvedByCode(c, hash, rs, k, i, j, "broker_state", CallerAt(c, hash, rs, k)))
  {
    hide Step, Possible, Reach, RowOpened, IsOperator, GrantsAttempt;
    var app, r, answer := Reach(c, hash, rs[..k]), rs[k], AnswerAt(c, hash, rs, k);
    AdmitsWhom(c, hash, app, r);
    if (answer.SignedIn? && r.action.Verify?) || answer.Linked? {
      OpenedIsProof(c, hash, rs, k);
    }
  }

  lemma OpenedIsProof(c: Config, hash: string -> string, rs: seq<Request>, k: nat)
    requires Happens(c, hash, rs, k) && RowOpened(c, hash, Reach(c, hash, rs[..k]), rs[k]).Some?
    ensures exists i: nat, j: nat ::
              ProvedByCode(c, hash, rs, k, i, j, PurposeOf(rs[k].action), Claimed(Reach(c, hash, rs[..k]), hash, rs[k]))
  {
    hide Step, Possible, Reach, AddressRead, AsksForUnused, Claimed, IssuedAt;
    var app, r := Reach(c, hash, rs[..k]), rs[k];
    var i := RowOpened(c, hash, app, r).value;
    OpenedRowIs(c, hash, app, r);
    hide RowOpened;
    var j := CodeWasIssuedEarlier(c, hash, rs, k, i);
    OpenerCanClaim(c, hash, app, r);
    if AsksForUnused(c, Claimed(app, hash, r)) {
      SpentAt(c, hash, rs, k, i);
    }
    assert ProvedByCode(c, hash, rs, k, i, j, PurposeOf(r.action), Claimed(app, hash, r));
  }

  lemma OpenerCanClaim(c: Config, hash: string -> string, app: App, r: Request)
    requires Possible(c, app, hash, r) && RowOpened(c, hash, app, r).Some?
    ensures r.action.Verify? || r.action.Link?
  {
  }

  lemma AdmitsWhom(c: Config, hash: string -> string, app: App, r: Request)
    requires Possible(c, app, hash, r)
    ensures var answer := Step(c, hash, app, r).1;
            && (answer.SignedIn? ==>
                  || (r.action.Social? && c.socialOn && r.action.verified == answer.email != "")
                  || (r.action.Verify? && GrantsAttempt(app, r) && r.action.email == answer.email
                      && RowOpened(c, hash, app, r).Some?))
            && (answer.Linked? ==>
                  && r.action.Link? && r.action.exchange.Granted? && r.action.saved.SavedOk?
                  && IsOperator(c, Recognised(app, hash, r.cookie, r.now))
                  && RowOpened(c, hash, app, r).Some?)
  {
    hide StoreStep, Limits.RequestStep, RateLimiter.AllowStep, AccessDecisionFor, Seen, Opened, Spent, RoleFor;
  }

  lemma CodeWasIssuedEarlier(c: Config, hash: string -> string, rs: seq<Request>, k: nat, i: nat) returns (j: nat)
    requires k < |rs| && i < |OtpsAt(c, hash, rs, k)|
    ensures j < k && IssuedAt(c, hash, rs, j, OtpsAt(c, hash, rs, k)[i])
  {
    j := EveryCodeWasIssued(c, hash, rs[..k], i);
    assert rs[..k][..j] == rs[..j];
  }

  lemma SpentAt(c: Config, hash: string -> string, rs: seq<Request>, k: nat, i: nat)
    requires Happens(c, hash, rs, k) && i < |OtpsAt(c, hash, rs, k)|
    requires var after := Step(c, hash, Reach(c, hash, rs[..k]), rs[k]).0.otps;
             i < |after| && !OtpsAt(c, hash, rs, k)[i].used && after[i].used
    ensures UsesUp(c, hash, rs, k, i)
  {
    hide Step, Possible;
    assert rs[..k + 1] == rs[..k] + [rs[k]];
    Earlier(c, hash, rs[..k], rs[k]);
  }

  // ---------------------------------------------------------------- no sign-in is forbidden

  ghost predicate ClockRuns(rs: seq<Request>) {
    forall i, j | 0 <= i <= j < |rs| :: rs[i].now <= rs[j].now
  }

  /** The address has a known role, and as a guest is admitted until 31 days after the instant. */
  predicate Covered(members: Members, email: string, since: int) {
    && email in members
    && !members[email].role.OtherRole?
    && (members[email].role.GUEST? ==>
          members[email].guestExpiresAt.Some? && GuestExpiry(since) <= members[email].guestExpiresAt.value)
  }

  predicate CodeCovered(members: Members, o: Otp, clock: int) {
    && o.createdAt <= clock
    && o.expiresAt == o.createdAt + OTP_TTL
    && (o.purpose == "signin" ==> Covered(members, o.email, o.createdAt))
  }

  ghost predicate AllCovered(app: App, clock: int) {
    && (forall e | e in app.members :: !app.members[e].role.OtherRole?)
    && (forall i | 0 <= i < |app.otps| :: CodeCovered(app.members, app.otps[i], clock))
  }

  lemma OperationKeepsCovered(b: Backend, members: Members, op: Op, now: int, email: string, since: int)
    requires Covered(members, email, since) && since <= now
    ensures Covered(CleanStep(b, members, op, now).0, email, since)
  {
  }

  lemma OperationKeepsKnownRoles(b: Backend, members: Members, op: Op, now: int)
    requires forall e | e in members :: !members[e].role.OtherRole?
    ensures var after := CleanStep(b, members, op, now).0; forall e | e in after :: !after[e].role.OtherRole?
  {
  }

  lemma SignInCovers(b: Backend, members: Members, email: string, now: int)
    requires forall e | e in members :: !members[e].role.OtherRole?
    ensures Covered(CleanStep(b, members, UpsertGuest(email), now).0, email, now)
  {
  }

  lemma IssuingCovers(c: Config, hash: string -> string, app: App, r: Request)
    requires Possible(c, app, hash, r) && DirectRequest(c, r)
             && forall e | e in app.members :: !app.members[e].role.OtherRole?
    ensures var after := Step(c, hash, app, r).0;
            |after.otps| > |app.otps| ==> CodeCovered(after.members, after.otps[|app.otps|], r.now)
  {
    hide StoreStep, Limits.RequestStep, RateLimiter.AllowStep, AccessDecisionFor, Seen, Opened, RoleFor;
    if r.action.RequestCode? {
      DirectStep(c.backend, app.members, UpsertGuest(r.action.email), r.now);
      SignInCovers(c.backend, app.members, r.action.email, r.now);
    }
  }

  lemma StepKeepsCovered(c: Config, hash: string -> string, app: App, r: Request, clock: int)
    requires Possible(c, app, hash, r) && DirectRequest(c, r) && AllCovered(app, clock) && clock <= r.now
    ensures AllCovered(Step(c, hash, app, r).0, r.now)
  {
    hide Step, Possible, StoreStep, Covered, Issues;
    var after := Step(c, hash, app, r).0;
    MembersMoveByOneOperation(c, hash, app, r);
    CodesMove(c, hash, app, r);
    IssuingCovers(c, hash, app, r);
    if after.members == app.members {
      CoveredWithoutOperation(c, hash, app, r, clock);
      return;
    }
    var op := OperationOf(c, r.action);
    DirectOperation(c, r);
    DirectStep(c.backend, app.members, op, r.now);
    OperationKeepsKnownRoles(c.backend, app.members, op, r.now);
    forall i | 0 <= i < |after.otps|
      ensures CodeCovered(after.members, after.otps[i], r.now)
    {
      if i < |app.otps| {
        assert CodeCovered(app.members, app.otps[i], clock);
        if app.otps[i].purpose == "signin" {
          OperationKeepsCovered(c.backend, app.members, op, r.now, app.otps[i].email, app.otps[i].createdAt);
        }
      }
    }
  }

  lemma CoveredWithoutOperation(c: Config, hash: string -> string, app: App, r: Request, clock: int)
    requires Possible(c, app, hash, r) && AllCovered(app, clock) && clock <= r.now
    requires var after := Step(c, hash, app, r).0;
             && after.members == app.members
             && (|after.otps| > |app.otps| ==> CodeCovered(after.members, after.otps[|app.otps|], r.now))
    ensures AllCovered(Step(c, hash, app, r).0, r.now)
  {
    hide Step, Possible, Covered, Issues;
    CodesMove(c, hash, app, r);
    var after := Step(c, hash, app, r).0;
    forall i | 0 <= i < |after.otps|
      ensures CodeCovered(after.members, after.otps[i], r.now)
    {
      assert i < |app.otps| ==> CodeCovered(app.members, app.otps[i], clock);
    }
  }

  lemma {:induction false} ReachIsCovered(c: Config, hash: string -> string, rs: seq<Request>, clock: int)
    requires AllDirect(c, rs)
    requires ClockRuns(rs) && forall i | 0 <= i < |rs| :: rs[i].now <= clock
    ensures AllCovered(Reach(c, hash, rs), clock)
  {
    hide Step, Possible, DirectRequest;
    if rs != [] {
      var before, r := rs[..|rs| - 1], rs[|rs| - 1];
      ReachIsCovered(c, hash, before, r.now);
      if Possible(c, Reach(c, hash, before), hash, r) {
        StepKeepsCovered(c, hash, Reach(c, hash, before), r, r.now);
      }
    }
  }

  /** With a clock that never runs back the 403 answers of sign-in cannot occur: whoever proves an address is let in. */
  lemma SignInIsNeverForbidden(c: Config, hash: string -> string, rs: seq<Request>, k: nat)
    requires AllDirect(c, rs) && ClockRuns(rs) && Happens(c, hash, rs, k)
    requires rs[k].action.Social? || rs[k].action.Verify?
    ensures AnswerAt(c, hash, rs, k).Refused? ==> AnswerAt(c, hash, rs, k).status != 403
  {
    hide Step, Possible, DirectRequest, Reach;
    ReachIsCovered(c, hash, rs[..k], rs[k].now);
    assert DirectRequest(c, rs[k]);
    CoveredIsAdmitted(c, hash, Reach(c, hash, rs[..k]), rs[k]);
  }

  lemma CoveredIsAdmitted(c: Config, hash: string -> string, app: App, r: Request)
    requires Possible(c, app, hash, r) && DirectRequest(c, r) && AllCovered(app, r.now)
    requires r.action.Social? || r.action.Verify?
    ensures Step(c, hash, app, r).1.Refused? ==> Step(c, hash, app, r).1.status != 403
  {
    hide StoreStep, CleanStep, Limits.RequestStep, RateLimiter.AllowStep, Seen, Possible, Direct;
    RowsAreInTable(c, app, hash, r);
    if r.action.Social? {
      DirectStep(c.backend, app.members, UpsertGuest(r.action.verified), r.now);
      SignInCovers(c.backend, app.members, r.action.verified, r.now);
      DirectSeen(c.backend, CleanStep(c.backend, app.members, UpsertGuest(r.action.verified), r.now).0,
                 r.action.verified);
    } else {
      DirectSeen(c.backend, app.members, r.action.email);
      if RowOpened(c, hash, app, r).Some? {
        OpenedRowIs(c, hash, app, r);
        DirectReads(c, r.action.email);
        assert CodeCovered(app.members, app.otps[RowOpened(c, hash, app, r).value], r.now);
      }
    }
  }

  /**
   * The one way a role falls here: the GP invites the GP's own address, and the row stays an LP
   * seat until the next start.
   */
  lemma GpCanInviteThemself(c: Config, hash: string -> string, app: App, r: Request)
    requires r.action.Invite? && r.action.email == c.gpRaw == Recognised(app, hash, r.cookie, r.now) != ""
    requires !CapReached(app.members) && Direct(c.backend, c.gpRaw)
    ensures HasRole(Step(c, hash, app, r).0.members, c.gpRaw, LP)
    ensures c.gpAddr == c.gpRaw ==>
              HasRole(Step(c, hash, Step(c, hash, app, r).0, Request(r.now, r.cookie, Restart)).0.members, c.gpRaw, GP)
  {
    hide StoreStep, Direct, Recognised, CapReached;
    var op := IssueLpInvite(c.gpRaw, r.action.token, INVITE_DAYS);
    DirectStep(c.backend, app.members, op, r.now);
    var after := CleanStep(c.backend, app.members, op, r.now).0;
    DirectStep(c.backend, after, EnsureGp(c.gpRaw), r.now);
  }

  lemma SignedInByDecision(c: Config, hash: string -> string, app: App, r: Request)
    requires Possible(c, app, hash, r) && Step(c, hash, app, r).1.SignedIn?
    ensures var (after, answer) := Step(c, hash, app, r);
            var d := Decided(Seen(c.backend, after.members, answer.email), r.now);
            d.Ok? && d.value.allowed && answer.role == RoleFor(c, answer.email, d.value)
  {
    hide StoreStep, Limits.RequestStep, RateLimiter.AllowStep, Opened, Spent, Decided, Seen, RoleFor;
  }

  /**
   * The configured operator is shown as GP whatever the stored row says; anyone else by the row that
   * the store finds, which is then a live one. It is the row of the address if the store takes that
   * for itself.
   */
  lemma RoleShown(c: Config, hash: string -> string, app: App, r: Request)
    requires Possible(c, app, hash, r) && Step(c, hash, app, r).1.SignedIn?
    ensures var (after, answer) := Step(c, hash, app, r);
            var found := Seen(c.backend, after.members, answer.email);
            && found.Ok? && found.value.Some?
            && answer.role == (if IsOperator(c, answer.email) then Some(GP) else Some(found.value.value.role))
            && (found.value.value.role.GUEST? ==>
                  found.value.value.guestExpiresAt.Some? && r.now <= found.value.value.guestExpiresAt.value)
            && (Direct(c.backend, answer.email)
                ==> answer.email in after.members && found.value.value == after.members[answer.email])
  {
    hide Step, Possible, Direct, Seen;
    SignedInByDecision(c, hash, app, r);
    var (after, answer) := Step(c, hash, app, r);
    if Direct(c.backend, answer.email) {
      DirectSeen(c.backend, after.members, answer.email);
    }
  }
}
