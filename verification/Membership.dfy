/**
 * The members table behind both stores: membership.py over SQLite and supabase_membership.py
 * over PostgREST. Addresses are taken in lower case, as both stores reduce them first. Instants
 * are microseconds.
 */
module Membership {
  import opened Common
  import opened QueryText

  const GUEST_ACCESS_DAYS := 31
  const MAX_LP_MEMBERS := 99

  datatype Role = GP | LP | MEMBER | GUEST | OtherRole(name: string)

  datatype Row = Row(
    role: Role,
    createdAt: int,
    guestExpiresAt: Option<int>,
    subscribed: bool,
    investor: bool,
    feeType: Option<string>,
    feeRate: Option<string>,
    inviteToken: Option<string>,
    inviteExpiresAt: Option<int>)

  type Members = map<string, Row>

  function NewRow(role: Role, now: int): Row {
    Row(role, now, None, false, false, None, None, None, None)
  }

  function Find(members: Members, email: string): Option<Row> {
    if email in members then Some(members[email]) else None
  }

  function LpEmails(members: Members): set<string> {
    set e | e in members && members[e].role.LP?
  }

  // ---------------------------------------------------------------- the access decision

  datatype Reason = NotAMember | GuestNotActivated | GuestExpired | GuestActive | RoleActive | UnknownRole

  datatype AccessDecision = AccessDecision(allowed: bool, role: Option<Role>, reason: Reason)

  function AccessDecisionFor(member: Option<Row>, now: int): AccessDecision {
    if member.None? then AccessDecision(false, None, NotAMember)
    else
      var role := member.value.role;
      if role.GUEST? then
        var expires := member.value.guestExpiresAt;
        if expires.None? then AccessDecision(false, Some(role), GuestNotActivated)
        else if expires.value < now then AccessDecision(false, Some(role), GuestExpired)
        else AccessDecision(true, Some(role), GuestActive)
      else if role.LP? || role.MEMBER? || role.GP? then AccessDecision(true, Some(role), RoleActive)
      else AccessDecision(false, Some(role), UnknownRole)
  }

  /** The decision about the row that a store found, unless the search failed. */
  function Decided(found: Result<Option<Row>, Outcome>, now: int): Result<AccessDecision, Outcome> {
    if found.Err? then Err(found.error) else Ok(AccessDecisionFor(found.value, now))
  }

  // ---------------------------------------------------------------- operations

  datatype Op =
    | UpsertGuest(email: string)
    | EnsureGp(email: string)
    | SetSubscribed(email: string)
    | PromoteToLp(email: string)
    | SetLpFee(email: string, feeType: string, feeRate: string)
    | IssueLpInvite(email: string, token: string, ttlDays: int)

  /**
   * What the caller sees: the row, nothing, the cap error, the failed lookup of a missing row, or a
   * REST call that fails. One whose text is not ASCII fails with a ValueError, as the cap does.
   */
  datatype Outcome = Returned(row: Row) | Nothing | LpCapReached | RowMissing | CallFailed | NotAscii

  function GuestExpiry(now: int): int {
    now + GUEST_ACCESS_DAYS * DAY
  }

  function InviteExpiry(now: int, ttlDays: int): int {
    now + ttlDays * DAY
  }

  predicate TakesSeat(op: Op) {
    op.PromoteToLp? || op.IssueLpInvite?
  }

  predicate CapReached(members: Members) {
    |LpEmails(members)| >= MAX_LP_MEMBERS
  }

  /** The row of the operation's address once SQLite has carried the operation out. */
  function SqliteRow(before: Option<Row>, op: Op, now: int): Option<Row> {
    match op
    case UpsertGuest(_) =>
      var r := if before.None? then NewRow(GUEST, now) else before.value;
      Some(r.(guestExpiresAt := Some(GuestExpiry(now))))
    case EnsureGp(_) =>
      if before.None? then Some(NewRow(GP, now))
      else if before.value.role == GP then before
      else Some(before.value.(role := GP, guestExpiresAt := None))
    case SetSubscribed(_) =>
      if before.None? then Some(NewRow(MEMBER, now).(subscribed := true))
      else if before.value.role == GUEST then
        Some(before.value.(role := MEMBER, subscribed := true, guestExpiresAt := None))
      else before
    case PromoteToLp(_) =>
      var r := if before.None? then NewRow(LP, now) else before.value;
      Some(r.(role := LP, investor := true, guestExpiresAt := None, inviteToken := None, inviteExpiresAt := None))
    case SetLpFee(_, feeType, feeRate) =>
      if before.Some? && before.value.role == LP then
        Some(before.value.(feeType := Some(feeType), feeRate := Some(feeRate)))
      else before
    case IssueLpInvite(_, token, ttlDays) =>
      var r := if before.None? then NewRow(LP, now) else before.value;
      Some(r.(role := LP, investor := true, guestExpiresAt := None, inviteToken := Some(token),
              inviteExpiresAt := Some(InviteExpiry(now, ttlDays))))
  }

  /**
   * The same for Supabase and an address that names itself: a seat-taking call merges its whole
   * payload into an existing row.
   */
  function SupabaseRow(before: Option<Row>, op: Op, now: int): Option<Row> {
    match op
    case PromoteToLp(_) =>
      var r := if before.None? then NewRow(LP, now) else before.value;
      Some(r.(role := LP, createdAt := now, subscribed := false, investor := true, guestExpiresAt := None,
              inviteToken := None, inviteExpiresAt := None))
    case IssueLpInvite(_, token, ttlDays) =>
      var r := if before.None? then NewRow(LP, now) else before.value;
      Some(r.(role := LP, createdAt := now, subscribed := false, investor := true, inviteToken := Some(token),
              inviteExpiresAt := Some(InviteExpiry(now, ttlDays))))
    case _ => SqliteRow(before, op, now)
  }

  function Put(members: Members, email: string, row: Option<Row>): Members {
    if row.Some? then members[email := row.value] else members
  }

  /** Whether the operation is refused before it touches a row. */
  function Refusal(members: Members, op: Op): Option<Outcome> {
    if TakesSeat(op) && CapReached(members) then Some(LpCapReached)
    else if op.EnsureGp? && op.email == "" then Some(Nothing)
    else None
  }

  function Answer(row: Option<Row>, op: Op): Outcome {
    if op.IssueLpInvite? then Nothing else if row.Some? then Returned(row.value) else RowMissing
  }

  function SqliteStep(members: Members, op: Op, now: int): (Members, Outcome) {
    var refusal := Refusal(members, op);
    if refusal.Some? then (members, refusal.value)
    else
      var row := SqliteRow(Find(members, op.email), op, now);
      (Put(members, op.email, row), Answer(row, op))
  }

  function NamedSupabaseStep(members: Members, op: Op, now: int): (Members, Outcome) {
    var refusal := Refusal(members, op);
    if refusal.Some? then (members, refusal.value)
    else
      var row := SupabaseRow(Find(members, op.email), op, now);
      (Put(members, op.email, row), Answer(row, op))
  }

  // ---------------------------------------------------------------- Supabase, call by call

  type MemberServer = Server<(string, Row)>

  /** How the call fails that sends the address in a query. */
  function Failure(email: string): Outcome {
    if Sendable(email) || exists c | c in Kept(email) :: Control(c) then CallFailed else NotAscii
  }

  /**
   * The row that a query for the address selects: of the address asked for, if it passes the filter
   * on the role (lost behind a `#`) and the conditions that the address brings along.
   */
  function Hit(server: MemberServer, members: Members, email: string, filter: Option<Role>): (hit: Option<string>)
    ensures hit.Some? ==> hit.value == Asked(email) && hit.value in members
  {
    var asked := Asked(email);
    if asked in members && (filter.None? || '#' in email || members[asked].role == filter.value)
       && Passes(server, email, (asked, members[asked]))
    then Some(asked) else None
  }

  /** GET of one address. */
  function Got(server: MemberServer, members: Members, email: string): Result<Option<Row>, Outcome> {
    if !Answered(server, email) then Err(Failure(email))
    else
      var hit := Hit(server, members, email, None);
      Ok(if hit.Some? then Some(members[hit.value]) else None)
  }

  /** The lookup at the end of an operation, which must find a row. */
  function Looked(server: MemberServer, members: Members, email: string): Outcome {
    var got := Got(server, members, email);
    if got.Err? then got.error else if got.value.None? then RowMissing else Returned(got.value.value)
  }

  function Updated(members: Members, hit: Option<string>, row: Row -> Row): Members
    requires hit.Some? ==> hit.value in members
  {
    if hit.Some? then members[hit.value := row(members[hit.value])] else members
  }

  function SupabaseUpsert(server: MemberServer, members: Members, email: string, now: int): (Members, Outcome) {
    var got := Got(server, members, email);
    if got.Err? then (members, got.error)
    else if got.value.None? && email in members then (members, CallFailed)
    else
      var expires := Some(GuestExpiry(now));
      var after := if got.value.None? then members[email := NewRow(GUEST, now).(guestExpiresAt := expires)]
                   else Updated(members, Hit(server, members, email, None), (r: Row) => r.(guestExpiresAt := expires));
      (after, Looked(server, after, email))
  }

  function SupabaseEnsureGp(server: MemberServer, members: Members, email: string, now: int): (Members, Outcome) {
    var got := Got(server, members, email);
    if got.Err? then (members, got.error)
    else if got.value.None? && email in members then (members, CallFailed)
    else
      var after := if got.value.None? then members[email := NewRow(GP, now)]
                   else if got.value.value.role == GP then members
                   else Updated(members, Hit(server, members, email, None),
                                (r: Row) => r.(role := GP, guestExpiresAt := None));
      var looked := Looked(server, after, email);
      (after, if looked.RowMissing? then Nothing else looked)
  }

  function SupabaseSubscribe(server: MemberServer, members: Members, email: string, now: int): (Members, Outcome) {
    var got := Got(server, members, email);
    if got.Err? then (members, got.error)
    else
      var after := if got.value.None? then
          members[email := (if email in members then members[email] else NewRow(MEMBER, now)).(
            role := MEMBER, createdAt := now, subscribed := true, investor := false)]
        else if got.value.value.role == GUEST then
          Updated(members, Hit(server, members, email, Some(GUEST)),
                  (r: Row) => r.(role := MEMBER, subscribed := true, guestExpiresAt := None))
        else members;
      (after, Looked(server, after, email))
  }

  /** The merging POST of a seat, whose invite columns are left out of the payload or not. */
  function Seated(members: Members, email: string, now: int, token: Option<string>, expires: Option<int>): Members {
    var r := if email in members then members[email] else NewRow(LP, now);
    var seat := r.(role := LP, createdAt := now, investor := true, subscribed := false);
    members[email := if token.Some? then seat.(inviteToken := token, inviteExpiresAt := expires) else seat]
  }

  function SupabasePromote(server: MemberServer, members: Members, email: string, now: int): (Members, Outcome) {
    var posted := Seated(members, email, now, None, None);
    if !Answered(server, email) then (posted, Failure(email))
    else
      var after := Updated(posted, Hit(server, posted, email, None),
                           (r: Row) => r.(role := LP, investor := true, guestExpiresAt := None, inviteToken := None,
                                          inviteExpiresAt := None));
      (after, Looked(server, after, email))
  }

  function SupabaseFee(server: MemberServer, members: Members, email: string, feeType: string,
                       feeRate: string): (Members, Outcome)
  {
    if !Answered(server, email) then (members, Failure(email))
    else
      var after := Updated(members, Hit(server, members, email, Some(LP)),
                           (r: Row) => r.(feeType := Some(feeType), feeRate := Some(feeRate)));
      (after, Looked(server, after, email))
  }

  function SupabaseInvite(server: MemberServer, members: Members, email: string, token: string, ttlDays: int,
                          now: int): (Members, Outcome)
  {
    var expires := Some(InviteExpiry(now, ttlDays));
    var posted := Seated(members, email, now, Some(token), expires);
    if !Answered(server, email) then (posted, Failure(email))
    else
      (Updated(posted, Hit(server, posted, email, None),
               (r: Row) => r.(role := LP, investor := true, inviteToken := Some(token), inviteExpiresAt := expires)),
               Nothing)
  }

  function SupabaseStep(server: MemberServer, members: Members, op: Op, now: int): (Members, Outcome) {
    var refusal := Refusal(members, op);
    if refusal.Some? then (members, refusal.value)
    else
      match op
      case UpsertGuest(email) => SupabaseUpsert(server, members, email, now)
      case EnsureGp(email) => SupabaseEnsureGp(server, members, email, now)
      case SetSubscribed(email) => SupabaseSubscribe(server, members, email, now)
      case PromoteToLp(email) => SupabasePromote(server, members, email, now)
      case SetLpFee(email, feeType, feeRate) => SupabaseFee(server, members, email, feeType, feeRate)
      case IssueLpInvite(email, token, ttlDays) => SupabaseInvite(server, members, email, token, ttlDays, now)
  }

  // ---------------------------------------------------------------- either store

  /** Which of the two stores holds the tables. */
  datatype Backend = Sqlite | Supabase(server: MemberServer)

  function StoreStep(b: Backend, members: Members, op: Op, now: int): (Members, Outcome) {
    if b.Sqlite? then SqliteStep(members, op, now) else SupabaseStep(b.server, members, op, now)
  }

  /** The row that the store finds for an address. */
  function Seen(b: Backend, members: Members, email: string): Result<Option<Row>, Outcome> {
    if b.Sqlite? then Ok(Find(members, email)) else Got(b.server, members, email)
  }

  /** The store takes the address for itself. */
  predicate Direct(b: Backend, email: string) {
    b.Supabase? ==> Named(email)
  }
}

/** MembershipStore: one SQL statement an operation, all under one lock. */
module SqliteMembers {
  import opened Common
  import opened Membership

  /** `INSERT ... ON CONFLICT(email) DO UPDATE SET ... WHERE guard`. */
  function Upsert(members: Members, email: string, inserted: Row, update: Row -> Row, guard: Row -> bool): Members {
    if email !in members then members[email := inserted]
    else if guard(members[email]) then members[email := update(members[email])]
    else members
  }

  class SqliteStore {
    var members: Members

    constructor ()
      ensures members == map[]
    {
      members := map[];
    }

    method UpsertGuest(email: string, now: int) returns (row: Row)
      modifies this
      ensures (members, Returned(row)) == SqliteStep(old(members), Op.UpsertGuest(email), now)
    {
      var expires := Some(now + GUEST_ACCESS_DAYS * DAY);
      members := Upsert(members, email, Row(GUEST, now, expires, false, false, None, None, None, None),
                        (r: Row) => r.(guestExpiresAt := expires), (r: Row) => true);
      row := members[email];
    }

    method EnsureGp(email: string, now: int) returns (row: Option<Row>)
      modifies this
      ensures (members, if row.Some? then Returned(row.value) else Nothing)
                == SqliteStep(old(members), Op.EnsureGp(email), now)
    {
      if email == "" {
        return None;
      }
      members := Upsert(members, email, NewRow(GP, now),
                        (r: Row) => r.(role := GP, guestExpiresAt := None), (r: Row) => r.role != GP);
      row := Some(members[email]);
      assert members == SqliteStep(old(members), Op.EnsureGp(email), now).0;
    }

    method SetSubscribed(email: string, now: int) returns (row: Row)
      modifies this
      ensures (members, Returned(row)) == SqliteStep(old(members), Op.SetSubscribed(email), now)
    {
      members := Upsert(members, email, NewRow(MEMBER, now).(subscribed := true),
                        (r: Row) => r.(role := MEMBER, subscribed := true, guestExpiresAt := None),
                        (r: Row) => r.role == GUEST);
      row := members[email];
      assert members == SqliteStep(old(members), Op.SetSubscribed(email), now).0;
    }

    method PromoteToLp(email: string, now: int) returns (r: Outcome)
      modifies this
      ensures (members, r) == SqliteStep(old(members), Op.PromoteToLp(email), now)
    {
      var seats := LpCount();
      if seats >= MAX_LP_MEMBERS {
        return LpCapReached;
      }
      members := Upsert(members, email, NewRow(LP, now).(investor := true),
                        (r: Row) => r.(role := LP, investor := true, guestExpiresAt := None, inviteToken := None,
                                       inviteExpiresAt := None),
                        (r: Row) => true);
      r := Returned(members[email]);
    }

    method SetLpFee(email: string, feeType: string, feeRate: string, now: int) returns (r: Outcome)
      modifies this
      ensures (members, r) == SqliteStep(old(members), Op.SetLpFee(email, feeType, feeRate), now)
    {
      if email in members && members[email].role == LP {
        members := members[email := members[email].(feeType := Some(feeType), feeRate := Some(feeRate))];
      }
      r := if email in members then Returned(members[email]) else RowMissing;
      assert members == SqliteStep(old(members), Op.SetLpFee(email, feeType, feeRate), now).0;
    }

    method LpCount() returns (n: nat)
      ensures n == |LpEmails(members)|
    {
      var held := set e | e in members && members[e].role == LP;
      assert held == LpEmails(members);
      n := |held|;
    }

    /** The invite's expiry, or the cap error. */
    method IssueLpInvite(email: string, token: string, ttlDays: int, now: int) returns (r: Result<int, Outcome>)
      modifies this
      ensures (members, if r.Ok? then Nothing else r.error)
                == SqliteStep(old(members), Op.IssueLpInvite(email, token, ttlDays), now)
      ensures if r.Ok? then r.value == InviteExpiry(now, ttlDays) else r.error == LpCapReached
    {
      var seats := LpCount();
      if seats >= MAX_LP_MEMBERS {
        return Err(LpCapReached);
      }
      var expires := now + ttlDays * DAY;
      members := Upsert(members, email,
                        NewRow(LP, now).(investor := true, inviteToken := Some(token),
                                         inviteExpiresAt := Some(expires)),
                        (r: Row) => r.(role := LP, investor := true, guestExpiresAt := None, inviteToken := Some(token),
                                       inviteExpiresAt := Some(expires)),
                        (r: Row) => true);
      return Ok(expires);
    }

    method AccessFor(email: string, now: int) returns (d: AccessDecision)
      ensures d == AccessDecisionFor(Find(members, email), now)
    {
      if email !in members {
        return AccessDecision(false, None, NotAMember);
      }
      var row := members[email];
      if row.role == GUEST {
        if row.guestExpiresAt == None {
          return AccessDecision(false, Some(row.role), GuestNotActivated);
        }
        if row.guestExpiresAt.value < now {
          return AccessDecision(false, Some(row.role), GuestExpired);
        }
        return AccessDecision(true, Some(row.role), GuestActive);
      }
      if row.role in {LP, MEMBER, GP} {
        return AccessDecision(true, Some(row.role), RoleActive);
      }
      return AccessDecision(false, Some(row.role), UnknownRole);
    }
  }
}

/**
 * SupabaseMembershipStore: every operation is a sequence of REST calls, taken here without other
 * callers in between.
 */
module SupabaseMembers {
  import opened Common
  import opened Membership
  import opened QueryText

  /** A column of a request payload: left out, or set to a value. */
  datatype Field<+T> = Absent | To(value: T)

  datatype Payload = Payload(
    role: Field<Role>,
    createdAt: Field<int>,
    guestExpiresAt: Field<Option<int>>,
    subscribed: Field<bool>,
    investor: Field<bool>,
    feeType: Field<Option<string>>,
    feeRate: Field<Option<string>>,
    inviteToken: Field<Option<string>>,
    inviteExpiresAt: Field<Option<int>>)

  const EMPTY := Payload(Absent, Absent, Absent, Absent, Absent, Absent, Absent, Absent, Absent)

  function Keep<T>(f: Field<T>, current: T): T {
    if f.To? then f.value else current
  }

  /** Only the columns in the payload change. */
  function Patched(r: Row, p: Payload): Row {
    Row(Keep(p.role, r.role), Keep(p.createdAt, r.createdAt), Keep(p.guestExpiresAt, r.guestExpiresAt),
        Keep(p.subscribed, r.subscribed), Keep(p.investor, r.investor), Keep(p.feeType, r.feeType),
        Keep(p.feeRate, r.feeRate), Keep(p.inviteToken, r.inviteToken), Keep(p.inviteExpiresAt, r.inviteExpiresAt))
  }

  class SupabaseStore {
    const server: MemberServer
    var members: Members

    constructor (server: MemberServer)
      ensures this.server == server && members == map[]
    {
      this.server := server;
      members := map[];
    }

    /** GET of one address. */
    method GetMember(email: string) returns (r: Result<Option<Row>, Outcome>)
      ensures r == Got(server, members, email)
    {
      if !Answered(server, email) {
        return Err(Failure(email));
      }
      var hit := Hit(server, members, email, None);
      return Ok(if hit.Some? then Some(members[hit.value]) else None);
    }

    /** PATCH of the rows that a query for the address selects, as the filter on the role allows. */
    method Patch(email: string, filter: Option<Role>, p: Payload) returns (failed: Option<Outcome>)
      modifies this
      ensures failed == if Answered(server, email) then None else Some(Failure(email))
      ensures members == if failed.Some? then old(members)
                         else Updated(old(members), Hit(server, old(members), email, filter), (r: Row) => Patched(r, p))
    {
      if !Answered(server, email) {
        return Some(Failure(email));
      }
      var hit := Hit(server, members, email, filter);
      if hit.Some? {
        members := members[hit.value := Patched(members[hit.value], p)];
      }
      return None;
    }

    /** POST: a new row takes the table's defaults, an existing address is a conflict. */
    method Insert(email: string, p: Payload) returns (ok: bool)
      requires p.role.To? && p.createdAt.To?
      modifies this
      ensures ok == (email !in old(members))
      ensures members == if ok then old(members)[email := Patched(NewRow(p.role.value, p.createdAt.value), p)]
                         else old(members)
    {
      if email in members {
        return false;
      }
      members := members[email := Patched(NewRow(p.role.value, p.createdAt.value), p)];
      return true;
    }

    /** POST with merge-duplicates: an existing row takes every column of the payload. */
    method Merge(email: string, p: Payload)
      requires p.role.To? && p.createdAt.To?
      modifies this
      ensures members == old(members)[email := Patched(
                           if email in old(members) then old(members)[email]
                           else NewRow(p.role.value, p.createdAt.value), p)]
    {
      var row := if email in members then members[email] else NewRow(p.role.value, p.createdAt.value);
      members := members[email := Patched(row, p)];
    }

    /** The lookup and the assertion that end most operations. */
    method Look(email: string) returns (r: Outcome)
      ensures r == Looked(server, members, email)
    {
      var member := GetMember(email);
      if member.Err? {
        return member.error;
      }
      return if member.value.Some? then Returned(member.value.value) else RowMissing;
    }

    method UpsertGuest(email: string, now: int) returns (r: Outcome)
      modifies this
      ensures (members, r) == SupabaseStep(server, old(members), Op.UpsertGuest(email), now)
    {
      var expires := To(Some(now + GUEST_ACCESS_DAYS * DAY));
      var existing := GetMember(email);
      if existing.Err? {
        return existing.error;
      }
      if existing.value.None? {
        var ok := Insert(email, EMPTY.(role := To(GUEST), createdAt := To(now), guestExpiresAt := expires,
                                       subscribed := To(false), investor := To(false)));
        if !ok {
          return CallFailed;
        }
      } else {
        var failed := Patch(email, None, EMPTY.(guestExpiresAt := expires));
      }
      r := Look(email);
      assert members == SupabaseStep(server, old(members), Op.UpsertGuest(email), now).0;
    }

    method EnsureGp(email: string, now: int) returns (r: Outcome)
      modifies this
      ensures (members, r) == SupabaseStep(server, old(members), Op.EnsureGp(email), now)
    {
      if email == "" {
        return Nothing;
      }
      var existing := GetMember(email);
      if existing.Err? {
        return existing.error;
      }
      if existing.value.None? {
        var ok := Insert(email, EMPTY.(role := To(GP), createdAt := To(now), guestExpiresAt := To(None)));
        if !ok {
          return CallFailed;
        }
      } else if existing.value.value.role != GP {
        var failed := Patch(email, None, EMPTY.(role := To(GP), guestExpiresAt := To(None)));
      }
      r := Look(email);
      assert members == SupabaseStep(server, old(members), Op.EnsureGp(email), now).0;
      if r == RowMissing {
        return Nothing;
      }
    }

    method SetSubscribed(email: string, now: int) returns (r: Outcome)
      modifies this
      ensures (members, r) == SupabaseStep(server, old(members), Op.SetSubscribed(email), now)
    {
      var existing := GetMember(email);
      if existing.Err? {
        return existing.error;
      }
      if existing.value.None? {
        Merge(email, EMPTY.(role := To(MEMBER), createdAt := To(now), subscribed := To(true), investor := To(false)));
      } else if existing.value.value.role == GUEST {
        var failed := Patch(email, Some(GUEST),
                            EMPTY.(role := To(MEMBER), subscribed := To(true), guestExpiresAt := To(None)));
      }
      r := Look(email);
      assert members == SupabaseStep(server, old(members), Op.SetSubscribed(email), now).0;
    }

    method LpCount() returns (n: nat)
      ensures n == |LpEmails(members)|
    {
      var held := set e | e in members && members[e].role == LP;
      assert held == LpEmails(members);
      n := |held|;
    }

    method PromoteToLp(email: string, now: int) returns (r: Outcome)
      modifies this
      ensures (members, r) == SupabaseStep(server, old(members), Op.PromoteToLp(email), now)
    {
      var seats := LpCount();
      if seats >= MAX_LP_MEMBERS {
        return LpCapReached;
      }
      Merge(email, EMPTY.(role := To(LP), createdAt := To(now), investor := To(true), subscribed := To(false)));
      assert members == Seated(old(members), email, now, None, None);
      var failed := Patch(email, None, EMPTY.(role := To(LP), investor := To(true), guestExpiresAt := To(None),
                                              inviteToken := To(None), inviteExpiresAt := To(None)));
      if failed.Some? {
        return failed.value;
      }
      r := Look(email);
      assert members == SupabaseStep(server, old(members), Op.PromoteToLp(email), now).0;
    }

    method SetLpFee(email: string, feeType: string, feeRate: string, now: int) returns (r: Outcome)
      modifies this
      ensures (members, r) == SupabaseStep(server, old(members), Op.SetLpFee(email, feeType, feeRate), now)
    {
      var failed := Patch(email, Some(LP), EMPTY.(feeType := To(Some(feeType)), feeRate := To(Some(feeRate))));
      if failed.Some? {
        return failed.value;
      }
      r := Look(email);
      assert members == SupabaseStep(server, old(members), Op.SetLpFee(email, feeType, feeRate), now).0;
    }

    /** The invite's expiry, or the error. */
    method IssueLpInvite(email: string, token: string, ttlDays: int, now: int) returns (r: Result<int, Outcome>)
      modifies this
      ensures (members, if r.Ok? then Nothing else r.error)
                == SupabaseStep(server, old(members), Op.IssueLpInvite(email, token, ttlDays), now)
      ensures if r.Ok? then r.value == InviteExpiry(now, ttlDays) else r.error != Nothing
    {
      var seats := LpCount();
      if seats >= MAX_LP_MEMBERS {
        return Err(LpCapReached);
      }
      var expires := now + ttlDays * DAY;
      Merge(email, EMPTY.(role := To(LP), createdAt := To(now), investor := To(true), subscribed := To(false),
                          inviteToken := To(Some(token)), inviteExpiresAt := To(Some(expires))));
      assert members == Seated(old(members), email, now, Some(token), Some(expires));
      var failed := Patch(email, None, EMPTY.(role := To(LP), investor := To(true), inviteToken := To(Some(token)),
                                              inviteExpiresAt := To(Some(expires))));
      assert members == SupabaseStep(server, old(members), Op.IssueLpInvite(email, token, ttlDays), now).0;
      return if failed.Some? then Err(failed.value) else Ok(expires);
    }

    method AccessFor(email: string, now: int) returns (d: Result<AccessDecision, Outcome>)
      ensures d == Decided(Got(server, members, email), now)
    {
      var member := GetMember(email);
      if member.Err? {
        return Err(member.error);
      }
      return Ok(AccessDecisionFor(member.value, now));
    }
  }
}

/** The store that an application was built with, whichever of the two it is. */
module MemberStores {
  import opened Common
  import opened Membership
  import opened QueryText
  import SqliteMembers
  import SupabaseMembers

  class MemberStore {
    const backend: Backend
    const sqlite: SqliteMembers.SqliteStore
    const supabase: SupabaseMembers.SupabaseStore

    ghost predicate Valid() {
      backend.Supabase? ==> supabase.server == backend.server
    }

    ghost function Members(): Members
      reads sqlite, supabase
    {
      if backend.Sqlite? then sqlite.members else supabase.members
    }

    constructor (backend: Backend)
      ensures this.backend == backend && Valid() && fresh(sqlite) && fresh(supabase) && Members() == map[]
    {
      this.backend := backend;
      sqlite := new SqliteMembers.SqliteStore();
      var server := if backend.Supabase? then backend.server else Server(_ => false, (_, _) => false);
      supabase := new SupabaseMembers.SupabaseStore(server);
    }

    method UpsertGuest(email: string, now: int) returns (r: Outcome)
      requires Valid()
      modifies sqlite, supabase
      ensures (Members(), r) == StoreStep(backend, old(Members()), Op.UpsertGuest(email), now)
    {
      if backend.Sqlite? {
        var row := sqlite.UpsertGuest(email, now);
        return Returned(row);
      }
      r := supabase.UpsertGuest(email, now);
    }

    method EnsureGp(email: string, now: int) returns (r: Outcome)
      requires Valid()
      modifies sqlite, supabase
      ensures (Members(), r) == StoreStep(backend, old(Members()), Op.EnsureGp(email), now)
    {
      if backend.Sqlite? {
        var row := sqlite.EnsureGp(email, now);
        return if row.Some? then Returned(row.value) else Nothing;
      }
      r := supabase.EnsureGp(email, now);
    }

    method SetSubscribed(email: string, now: int) returns (r: Outcome)
      requires Valid()
      modifies sqlite, supabase
      ensures (Members(), r) == StoreStep(backend, old(Members()), Op.SetSubscribed(email), now)
    {
      if backend.Sqlite? {
        var row := sqlite.SetSubscribed(email, now);
        return Returned(row);
      }
      r := supabase.SetSubscribed(email, now);
    }

    method IssueLpInvite(email: string, token: string, ttlDays: int, now: int) returns (r: Result<int, Outcome>)
      requires Valid()
      modifies sqlite, supabase
      ensures (Members(), if r.Ok? then Nothing else r.error)
           == StoreStep(backend, old(Members()), Op.IssueLpInvite(email, token, ttlDays), now)
      ensures if r.Ok? then r.value == InviteExpiry(now, ttlDays) else r.error != Nothing
    {
      if backend.Sqlite? {
        r := sqlite.IssueLpInvite(email, token, ttlDays, now);
      } else {
        r := supabase.IssueLpInvite(email, token, ttlDays, now);
      }
    }

    method AccessFor(email: string, now: int) returns (d: Result<AccessDecision, Outcome>)
      requires Valid()
      ensures d == Decided(Seen(backend, Members(), email), now)
    {
      if backend.Sqlite? {
        var decision := sqlite.AccessFor(email, now);
        return Ok(decision);
      }
      d := supabase.AccessFor(email, now);
    }
  }
}
