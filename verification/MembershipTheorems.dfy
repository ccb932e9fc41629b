/**
 * The two member stores are one access policy for the addresses that name themselves in a query,
 * and for no others: driven by the same calls they then never disagree on who may enter, though
 * their tables do drift apart. Exactly when they drift, how many LP seats a run can hand out, and
 * where roles and guest access come from.
 */
module MembershipTheorems {
  import opened Common
  import opened Membership
  import opened QueryText
  import Collections

  datatype Call = Call(op: Op, now: int)

  datatype Run = Run(members: Members, outcomes: seq<Outcome>)

  function SqliteRun(calls: seq<Call>): (r: Run)
    ensures |r.outcomes| == |calls|
  {
    if calls == [] then Run(map[], [])
    else
      var before := SqliteRun(calls[..|calls| - 1]);
      var call := calls[|calls| - 1];
      var (members, outcome) := SqliteStep(before.members, call.op, call.now);
      Run(members, before.outcomes + [outcome])
  }

  function SupabaseRun(server: MemberServer, calls: seq<Call>): (r: Run)
    ensures |r.outcomes| == |calls|
  {
    if calls == [] then Run(map[], [])
    else
      var before := SupabaseRun(server, calls[..|calls| - 1]);
      var call := calls[|calls| - 1];
      var (members, outcome) := SupabaseStep(server, before.members, call.op, call.now);
      Run(members, before.outcomes + [outcome])
  }

  // ---------------------------------------------------------------- addresses that name themselves

  ghost predicate AllNamed(calls: seq<Call>) {
    forall k | 0 <= k < |calls| :: Named(calls[k].op.email)
  }

  /** A query for such an address selects its row and no other. */
  lemma NamedHit(server: MemberServer, members: Members, email: string, filter: Option<Role>)
    requires Named(email)
    ensures Answered(server, email) && Asked(email) == email
    ensures Hit(server, members, email, filter)
         == if email in members && (filter.None? || members[email].role == filter.value) then Some(email) else None
    ensures Got(server, members, email) == Ok(Find(members, email))
    ensures Looked(server, members, email) == if email in members then Returned(members[email]) else RowMissing
  {
    hide Asked, Sendable, Further;
    NamedExactlyWhen(email);
  }

  /** What the calls of an operation then amount to. */
  lemma NamedStep(server: MemberServer, members: Members, op: Op, now: int)
    requires Named(op.email)
    ensures SupabaseStep(server, members, op, now) == NamedSupabaseStep(members, op, now)
  {
    hide Hit, Got, Looked, Answered, Named;
    var email := op.email;
    NamedHit(server, members, email, None);
    NamedHit(server, members, email, Some(GUEST));
    NamedHit(server, members, email, Some(LP));
    NamedHit(server, SupabaseStep(server, members, op, now).0, email, None);
    match op {
      case PromoteToLp(_) => NamedHit(server, Seated(members, email, now, None, None), email, None);
      case IssueLpInvite(_, token, ttlDays) =>
        NamedHit(server, Seated(members, email, now, Some(token), Some(InviteExpiry(now, ttlDays))), email, None);
      case _ =>
    }
    assert SupabaseStep(server, members, op, now).0 == NamedSupabaseStep(members, op, now).0;
  }

  /** What a store's operation amounts to for an address that the store takes for itself. */
  function CleanStep(b: Backend, members: Members, op: Op, now: int): (Members, Outcome) {
    if b.Sqlite? then SqliteStep(members, op, now) else NamedSupabaseStep(members, op, now)
  }

  lemma DirectStep(b: Backend, members: Members, op: Op, now: int)
    requires Direct(b, op.email)
    ensures StoreStep(b, members, op, now) == CleanStep(b, members, op, now)
  {
    hide Named, SupabaseStep, SqliteStep, NamedSupabaseStep;
    if b.Supabase? {
      NamedStep(b.server, members, op, now);
    }
  }

  lemma DirectSeen(b: Backend, members: Members, email: string)
    requires Direct(b, email)
    ensures Seen(b, members, email) == Ok(Find(members, email))
  {
    hide Named, Got;
    if b.Supabase? {
      NamedHit(b.server, members, email, None);
    }
  }

  // ---------------------------------------------------------------- one access policy

  /** Everything an access decision or the console's fee and invite columns depend on. */
  predicate SameRow(a: Row, b: Row) {
    && a.role == b.role
    && a.investor == b.investor
    && a.feeType == b.feeType
    && a.feeRate == b.feeRate
    && a.inviteToken == b.inviteToken
    && a.inviteExpiresAt == b.inviteExpiresAt
    && (a.role.GUEST? ==> a.guestExpiresAt == b.guestExpiresAt)
  }

  predicate Coupled(a: Members, b: Members) {
    && a.Keys == b.Keys
    && forall e | e in a :: SameRow(a[e], b[e])
  }

  predicate SameOutcome(a: Outcome, b: Outcome) {
    if a.Returned? then b.Returned? && SameRow(a.row, b.row) else a == b
  }

  lemma CoupledSameSeats(a: Members, b: Members)
    requires Coupled(a, b)
    ensures LpEmails(a) == LpEmails(b)
  {
    forall e
      ensures e in LpEmails(a) <==> e in LpEmails(b)
    {
      assert e in a <==> e in b;
      assert e in a ==> SameRow(a[e], b[e]);
    }
  }

  predicate SameFind(a: Option<Row>, b: Option<Row>) {
    if a.Some? then b.Some? && SameRow(a.value, b.value) else b.None?
  }

  lemma RowStaysSame(a: Option<Row>, b: Option<Row>, op: Op, now: int)
    requires SameFind(a, b)
    ensures SameFind(SqliteRow(a, op, now), SupabaseRow(b, op, now))
  {
  }

  lemma StepKeepsCoupled(a: Members, b: Members, op: Op, now: int)
    requires Coupled(a, b)
    ensures Coupled(SqliteStep(a, op, now).0, NamedSupabaseStep(b, op, now).0)
    ensures SameOutcome(SqliteStep(a, op, now).1, NamedSupabaseStep(b, op, now).1)
  {
    hide SqliteRow, SupabaseRow, SameRow, LpEmails;
    CoupledSameSeats(a, b);
    if Refusal(a, op).None? {
      var was, also := Find(a, op.email), Find(b, op.email);
      assert SameFind(was, also) by {
        assert op.email in a <==> op.email in b;
      }
      RowStaysSame(was, also, op, now);
      PutKeepsCoupled(a, b, op.email, SqliteRow(was, op, now), SupabaseRow(also, op, now));
    }
  }

  lemma PutKeepsCoupled(a: Members, b: Members, email: string, x: Option<Row>, y: Option<Row>)
    requires Coupled(a, b) && SameFind(x, y)
    ensures Coupled(Put(a, email, x), Put(b, email, y))
  {
    hide SameRow;
  }

  predicate SameAccess(a: Members, server: MemberServer, b: Members, email: string, now: int) {
    Decided(Got(server, b, email), now) == Ok(AccessDecisionFor(Find(a, email), now))
  }

  lemma CoupledSameAccess(a: Members, server: MemberServer, b: Members, email: string, now: int)
    requires Coupled(a, b) && Named(email)
    ensures SameAccess(a, server, b, email, now)
  {
    hide Named;
    NamedHit(server, b, email, None);
    assert email in a <==> email in b;
    assert email in a ==> SameRow(a[email], b[email]);
  }

  /**
   * Every run of calls whose addresses name themselves leaves coupled tables, answers every call
   * alike and decides access alike, for any such address at any time.
   */
  lemma {:induction false} StoresAgreeOverEveryRun(server: MemberServer, calls: seq<Call>)
    requires AllNamed(calls)
    ensures Coupled(SqliteRun(calls).members, SupabaseRun(server, calls).members)
    ensures forall k | 0 <= k < |calls| ::
              SameOutcome(SqliteRun(calls).outcomes[k], SupabaseRun(server, calls).outcomes[k])
    ensures forall email, now | Named(email) ::
              SameAccess(SqliteRun(calls).members, server, SupabaseRun(server, calls).members, email, now)
  {
    hide Named, SqliteStep, SupabaseStep, SameAccess, SameOutcome;
    if calls != [] {
      var before, call := calls[..|calls| - 1], calls[|calls| - 1];
      StoresAgreeOverEveryRun(server, before);
      NamedStep(server, SupabaseRun(server, before).members, call.op, call.now);
      StepKeepsCoupled(SqliteRun(before).members, SupabaseRun(server, before).members, call.op, call.now);
    }
    forall email, now | Named(email)
      ensures SameAccess(SqliteRun(calls).members, server, SupabaseRun(server, calls).members, email, now)
    {
      CoupledSameAccess(SqliteRun(calls).members, server, SupabaseRun(server, calls).members, email, now);
    }
  }

  /** One call on one table: the stores leave coupled tables, answer alike and then treat the address alike. */
  predicate CallAgrees(server: MemberServer, members: Members, op: Op, now: int) {
    var (a, b) := (SqliteStep(members, op, now), SupabaseStep(server, members, op, now));
    Coupled(a.0, b.0) && SameOutcome(a.1, b.1) && SameAccess(a.0, server, b.0, op.email, now)
  }

  /**
   * The condition on the address is exact, for every operation and whatever the server makes of
   * conditions that an address brings along: the stores agree on all tables exactly when the
   * address names itself.
   */
  lemma CallsAgreeExactlyWhenNamed(server: MemberServer, op: Op)
    ensures (forall members, now :: CallAgrees(server, members, op, now)) <==> Named(op.email)
  {
    hide Named, CallAgrees;
    if Named(op.email) {
      forall members, now
        ensures CallAgrees(server, members, op, now)
      {
        NamedCallAgrees(server, members, op, now);
      }
    } else {
      var members := if op.SetLpFee? then map[op.email := NewRow(LP, 0)] else map[];
      assert !CallAgrees(server, members, op, 0) by {
        UnnamedCallDisagrees(server, op, 0);
      }
    }
  }

  lemma NamedCallAgrees(server: MemberServer, members: Members, op: Op, now: int)
    requires Named(op.email)
    ensures CallAgrees(server, members, op, now)
  {
    hide Named, SqliteStep, SupabaseStep, NamedSupabaseStep, SameAccess, SameOutcome, SameRow;
    NamedStep(server, members, op, now);
    CoupledWithItself(members);
    StepKeepsCoupled(members, members, op, now);
    CoupledSameAccess(SqliteStep(members, op, now).0, server, SupabaseStep(server, members, op, now).0, op.email, now);
  }

  lemma CoupledWithItself(members: Members)
    ensures Coupled(members, members)
  {
  }

  /** On a table without the address the Supabase store does not find what it has just written. */
  lemma UnnamedCallDisagrees(server: MemberServer, op: Op, now: int)
    requires !Named(op.email)
    ensures var members := if op.SetLpFee? then map[op.email := NewRow(LP, 0)] else map[];
            !CallAgrees(server, members, op, now)
  {
    hide Named, Got, SqliteStep, SupabaseStep;
    var members: Members := if op.SetLpFee? then map[op.email := NewRow(LP, 0)] else map[];
    NoSeats(members);
    EmptyIsNamed();
    WritesTheAddress(members, op, now);
    WritesNothingElse(server, members, op, now);
    UnnamedIsNotFound(server, SupabaseStep(server, members, op, now).0, op.email);
  }

  lemma EmptyIsNamed()
    ensures Named("")
  {
    NamedExactlyWhen("");
  }

  lemma WritesTheAddress(members: Members, op: Op, now: int)
    requires !CapReached(members) && op.email != "" && (op.SetLpFee? ==> op.email in members)
    ensures op.email in SqliteStep(members, op, now).0
  {
  }

  lemma WritesNothingElse(server: MemberServer, members: Members, op: Op, now: int)
    requires members.Keys <= {op.email}
    ensures SupabaseStep(server, members, op, now).0.Keys <= {op.email}
  {
    hide Asked, Answered, Passes, Looked;
  }

  lemma NoSeats(members: Members)
    requires |members.Keys| <= 1
    ensures !CapReached(members)
  {
    Collections.SubsetSize(LpEmails(members), members.Keys);
  }

  lemma UnnamedIsNotFound(server: MemberServer, members: Members, email: string)
    requires !Named(email) && members.Keys <= {email}
    ensures Got(server, members, email).Err? || Got(server, members, email) == Ok(None)
  {
    hide Asked, Sendable, Further;
  }

  // ---------------------------------------------------------------- drift

  /** The operation takes an LP seat for a row that a merge of the whole payload would alter. */
  predicate Drifts(members: Members, op: Op, now: int) {
    && TakesSeat(op)
    && !CapReached(members)
    && op.email in members
    && var row := members[op.email];
       row.subscribed || row.createdAt != now || (op.IssueLpInvite? && row.guestExpiresAt.Some?)
  }

  /** One call for an address that names itself leaves equal tables equal exactly when it is not such a seat. */
  lemma DriftsExactlyWhen(server: MemberServer, members: Members, op: Op, now: int)
    requires Named(op.email)
    ensures SqliteStep(members, op, now).0 == SupabaseStep(server, members, op, now).0 <==> !Drifts(members, op, now)
  {
    hide Named, SupabaseStep;
    NamedStep(server, members, op, now);
    var a, b := SqliteStep(members, op, now).0, NamedSupabaseStep(members, op, now).0;
    if Drifts(members, op, now) {
      assert a[op.email] != b[op.email];
    }
  }

  predicate EqualTables(server: MemberServer, calls: seq<Call>) {
    SqliteRun(calls).members == SupabaseRun(server, calls).members
  }

  predicate NoDriftAt(calls: seq<Call>, k: nat)
    requires k < |calls|
  {
    !Drifts(SqliteRun(calls[..k]).members, calls[k].op, calls[k].now)
  }

  lemma LastCallDrifts(server: MemberServer, calls: seq<Call>)
    requires calls != [] && EqualTables(server, calls[..|calls| - 1]) && Named(calls[|calls| - 1].op.email)
    ensures EqualTables(server, calls) <==> NoDriftAt(calls, |calls| - 1)
  {
    hide SqliteStep, SupabaseStep, Drifts, Named;
    var last := |calls| - 1;
    DriftsExactlyWhen(server, SqliteRun(calls[..last]).members, calls[last].op, calls[last].now);
  }

  predicate AlwaysEqual(server: MemberServer, calls: seq<Call>) {
    forall k | 0 <= k <= |calls| :: EqualTables(server, calls[..k])
  }

  predicate NeverDrifts(calls: seq<Call>) {
    forall k | 0 <= k < |calls| :: NoDriftAt(calls, k)
  }

  /** Over a whole run of such calls the tables are equal all along exactly when no call drifts. */
  lemma {:induction false} TablesStayEqualExactlyWhen(server: MemberServer, calls: seq<Call>)
    requires AllNamed(calls)
    ensures AlwaysEqual(server, calls) <==> NeverDrifts(calls)
  {
    hide EqualTables, NoDriftAt, Named;
    if calls == [] {
      assert EqualTables(server, calls[..0]) by {
        NothingIsEqual(server);
      }
    } else {
      var last := |calls| - 1;
      var before := calls[..last];
      TablesStayEqualExactlyWhen(server, before);
      SameDriftBefore(calls);
      EqualUpToTheLast(server, calls);
      assert before[..last] == before;
      if AlwaysEqual(server, before) {
        assert EqualTables(server, before[..last]);
        LastCallDrifts(server, calls);
      }
    }
  }

  lemma EqualUpToTheLast(server: MemberServer, calls: seq<Call>)
    requires calls != []
    ensures AlwaysEqual(server, calls) <==> AlwaysEqual(server, calls[..|calls| - 1]) && EqualTables(server, calls)
  {
    hide EqualTables;
    var last := |calls| - 1;
    var before := calls[..last];
    assert forall k | 0 <= k <= last :: before[..k] == calls[..k];
    assert calls[..|calls|] == calls;
    if AlwaysEqual(server, calls) {
      forall k | 0 <= k <= last
        ensures EqualTables(server, before[..k])
      {
        assert EqualTables(server, calls[..k]);
      }
      assert EqualTables(server, calls[..|calls|]);
    }
    if AlwaysEqual(server, before) && EqualTables(server, calls) {
      forall k | 0 <= k <= |calls|
        ensures EqualTables(server, calls[..k])
      {
        assert k <= last ==> EqualTables(server, before[..k]);
      }
    }
  }

  lemma NothingIsEqual(server: MemberServer)
    ensures EqualTables(server, [][..0])
  {
  }

  lemma SameDriftBefore(calls: seq<Call>)
    requires calls != []
    ensures NeverDrifts(calls) <==> NeverDrifts(calls[..|calls| - 1]) && NoDriftAt(calls, |calls| - 1)
  {
    hide SqliteRun, Drifts;
    var last := |calls| - 1;
    var before := calls[..last];
    forall k | 0 <= k < last
      ensures NoDriftAt(before, k) <==> NoDriftAt(calls, k)
    {
      assert before[..k] == calls[..k];
    }
    if NeverDrifts(before) && NoDriftAt(calls, last) {
      forall k | 0 <= k < |calls|
        ensures NoDriftAt(calls, k)
      {
        assert k < last ==> NoDriftAt(before, k);
      }
    }
  }

  /**
   * A guest who signed in and is then invited: Supabase forgets when the row was created and keeps
   * the guest expiry.
   */
  lemma InvitingAGuestDrifts(server: MemberServer, email: string, token: string)
    requires Named(email)
    ensures var calls := [Call(UpsertGuest(email), 0), Call(IssueLpInvite(email, token, 14), DAY)];
            var a, b := SqliteRun(calls).members, SupabaseRun(server, calls).members;
            && email in a && email in b
            && a[email].createdAt == 0 && b[email].createdAt == DAY
            && a[email].guestExpiresAt == None && b[email].guestExpiresAt == Some(GuestExpiry(0))
  {
    hide Named, SupabaseStep;
    var first, second := Call(UpsertGuest(email), 0), Call(IssueLpInvite(email, token, 14), DAY);
    var calls := [first, second];
    assert calls[..1] == [first] && [first][..0] == [];
    assert SqliteRun([]).members == map[] == SupabaseRun(server, []).members;
    var guest := NewRow(GUEST, 0).(guestExpiresAt := Some(GuestExpiry(0)));
    NamedStep(server, map[], first.op, 0);
    assert SqliteRun([first]).members == map[email := guest] == SupabaseRun(server, [first]).members;
    NamedStep(server, map[email := guest], second.op, DAY);
    assert LpEmails(map[email := guest]) == {};
  }

  // ---------------------------------------------------------------- seats

  lemma StepAddsOneSeat(b: Backend, members: Members, op: Op, now: int)
    requires Direct(b, op.email)
    ensures LpEmails(StoreStep(b, members, op, now).0) <= LpEmails(members) + {op.email}
    ensures !TakesSeat(op) || CapReached(members) ==> LpEmails(StoreStep(b, members, op, now).0) <= LpEmails(members)
  {
    hide SqliteRow, SupabaseRow, LpEmails, SupabaseStep, Named;
    if b.Supabase? {
      NamedStep(b.server, members, op, now);
    }
    var was := Find(members, op.email);
    var row := if b.Sqlite? then SqliteRow(was, op, now) else SupabaseRow(was, op, now);
    SeatRow(was, op, now);
    PutAddsOneSeat(members, op.email, row);
  }

  lemma SeatRow(before: Option<Row>, op: Op, now: int)
    ensures !TakesSeat(op) ==> SupabaseRow(before, op, now) == SqliteRow(before, op, now)
    ensures !TakesSeat(op) && SqliteRow(before, op, now).Some? && SqliteRow(before, op, now).value.role.LP?
            ==> before.Some? && before.value.role.LP?
  {
  }

  lemma PutAddsOneSeat(members: Members, email: string, row: Option<Row>)
    ensures LpEmails(Put(members, email, row)) <= LpEmails(members) + {email}
    ensures row.Some? && row.value.role.LP? && Find(members, email).Some? && Find(members, email).value.role.LP?
            ==> LpEmails(Put(members, email, row)) <= LpEmails(members)
    ensures row.Some? && !row.value.role.LP? ==> LpEmails(Put(members, email, row)) <= LpEmails(members)
    ensures row.None? ==> Put(members, email, row) == members
  {
  }

  /** The 99-seat cap holds in both stores after every run; in Supabase if the addresses name themselves. */
  lemma {:induction false} SeatsNeverExceedTheCap(server: MemberServer, calls: seq<Call>)
    ensures |LpEmails(SqliteRun(calls).members)| <= MAX_LP_MEMBERS
    ensures AllNamed(calls) ==> |LpEmails(SupabaseRun(server, calls).members)| <= MAX_LP_MEMBERS
  {
    hide SqliteStep, SupabaseStep, AllNamed;
    if AllNamed(calls) {
      StoresAgreeOverEveryRun(server, calls);
      CoupledSameSeats(SqliteRun(calls).members, SupabaseRun(server, calls).members);
    }
    if calls == [] {
      assert LpEmails(map[]) == {};
    } else {
      var call := calls[|calls| - 1];
      var before := SqliteRun(calls[..|calls| - 1]).members;
      SeatsNeverExceedTheCap(server, calls[..|calls| - 1]);
      StepAddsOneSeat(Sqlite, before, call.op, call.now);
      Collections.SubsetSize(LpEmails(SqliteRun(calls).members),
                      if TakesSeat(call.op) && !CapReached(before) then LpEmails(before) + {call.op.email}
                      else LpEmails(before));
    }
  }

  /** The addresses that a Supabase call seats: the one in the POST, and the one that the PATCH reaches. */
  function SeatedBy(server: MemberServer, members: Members, email: string): set<string> {
    {email} + if Answered(server, email) && Hit(server, members, email, None).Some? then {Asked(email)} else {}
  }

  lemma SeatsTaken(server: MemberServer, members: Members, email: string, token: string, ttlDays: int, now: int)
    requires !CapReached(members)
    ensures LpEmails(SupabaseStep(server, members, IssueLpInvite(email, token, ttlDays), now).0)
         == LpEmails(members) + SeatedBy(server, members, email)
  {
    hide Answered, Hit, LpEmails, Seated, Asked, Find;
    var expires := Some(InviteExpiry(now, ttlDays));
    var posted := Seated(members, email, now, Some(token), expires);
    PostTakesSeat(members, email, now, Some(token), expires);
    HitAfterPost(server, members, email, now, Some(token), expires);
    PatchTakesSeat(posted, Hit(server, posted, email, None), Some(token), expires);
  }

  lemma PostTakesSeat(members: Members, email: string, now: int, token: Option<string>, expires: Option<int>)
    ensures LpEmails(Seated(members, email, now, token, expires)) == LpEmails(members) + {email}
  {
  }

  /** Whether the address itself is found may depend on the POST, but that changes nothing about who is seated. */
  lemma HitAfterPost(server: MemberServer, members: Members, email: string, now: int, token: Option<string>,
                     expires: Option<int>)
    ensures var before, after :=
              Hit(server, members, email, None), Hit(server, Seated(members, email, now, token, expires), email, None);
            after == before || Asked(email) == email
    ensures var after := Hit(server, Seated(members, email, now, token, expires), email, None);
            after.Some? ==> after.value == Asked(email)
  {
    hide Asked, Passes;
  }

  lemma PatchTakesSeat(posted: Members, hit: Option<string>, token: Option<string>, expires: Option<int>)
    requires hit.Some? ==> hit.value in posted
    ensures LpEmails(Updated(posted, hit, (r: Row) => r.(role := LP, investor := true, inviteToken := token,
                                                         inviteExpiresAt := expires)))
         == LpEmails(posted) + if hit.Some? then {hit.value} else {}
  {
  }

  /** One invite of an address that is cut before its end takes two seats, so that 98 become 100. */
  lemma CutInviteTakesTwoSeats(server: MemberServer, members: Members, email: string, tail: string, token: string,
                               ttlDays: int, now: int)
    requires Named(email) && '#' !in tail && email in members
    requires !CapReached(members) && email !in LpEmails(members) && email + "#" + tail !in LpEmails(members)
    ensures var after := SupabaseStep(server, members, IssueLpInvite(email + "#" + tail, token, ttlDays), now).0;
            && email in LpEmails(after) && |LpEmails(after)| == |LpEmails(members)| + 2
  {
    hide Asked, Sendable, Further, SupabaseStep, LpEmails;
    CutAddress(email, tail);
    SeatsTaken(server, members, email + "#" + tail, token, ttlDays, now);
    assert SeatedBy(server, members, email + "#" + tail) == {email + "#" + tail, email};
    assert email != email + "#" + tail;
    assert LpEmails(members) + {email + "#" + tail, email} == LpEmails(members) + {email + "#" + tail} + {email};
  }

  lemma CutInviteReaches(server: MemberServer, members: Members, email: string, tail: string,
                         token: string, ttlDays: int, now: int)
    requires Named(email) && '#' !in tail && email in members && !CapReached(members)
    ensures var after := SupabaseStep(server, members, IssueLpInvite(email + "#" + tail, token, ttlDays), now).0;
            email in after && after[email].role == LP
  {
    hide Asked, Sendable, Further, SupabaseStep;
    CutAddress(email, tail);
    SeatsTaken(server, members, email + "#" + tail, token, ttlDays, now);
    assert email in SeatedBy(server, members, email + "#" + tail);
    assert email in LpEmails(SupabaseStep(server, members, IssueLpInvite(email + "#" + tail, token, ttlDays), now).0);
  }

  /**
   * One operation at a time is needed for the cap: two requests that both read a count of 98 before
   * either writes its Supabase row leave 100 seats, where one after the other the second is refused.
   */
  lemma InterleavedInvitesPassTheCap(server: MemberServer, members: Members, a: Op, b: Op, now: int)
    requires a.IssueLpInvite? && b.IssueLpInvite? && a.email != b.email && Named(a.email) && Named(b.email)
    requires |LpEmails(members)| == MAX_LP_MEMBERS - 1 && a.email !in LpEmails(members) && b.email !in LpEmails(members)
    ensures Refusal(members, a).None? && Refusal(members, b).None?
    ensures var first := Put(members, a.email, SupabaseRow(Find(members, a.email), a, now));
            && |LpEmails(Put(first, b.email, SupabaseRow(Find(first, b.email), b, now)))| == MAX_LP_MEMBERS + 1
            && SupabaseStep(server, SupabaseStep(server, members, a, now).0, b, now).1 == LpCapReached
  {
    hide Named, SupabaseStep;
    var first := Put(members, a.email, SupabaseRow(Find(members, a.email), a, now));
    var second := Put(first, b.email, SupabaseRow(Find(first, b.email), b, now));
    assert LpEmails(first) == LpEmails(members) + {a.email};
    assert LpEmails(second) == LpEmails(first) + {b.email};
    NamedStep(server, members, a, now);
    NamedStep(server, first, b, now);
  }

  // ---------------------------------------------------------------- roles

  function Rank(role: Role): nat {
    match role
    case GP => 4
    case LP => 3
    case MEMBER => 2
    case GUEST => 1
    case OtherRole(_) => 0
  }

  /** In SQLite, a role falls in exactly one way: a seat given to a GP. */
  predicate FallsInSqlite(members: Members, op: Op, email: string)
    requires email in members
  {
    TakesSeat(op) && !CapReached(members) && op.email == email && members[email].role == GP
  }

  /**
   * In Supabase the GP may also be the one that another address reaches, and a subscription lowers
   * an LP or GP row that its own address does not find.
   */
  predicate FallsInSupabase(server: MemberServer, members: Members, op: Op, email: string)
    requires email in members
  {
    || FallsInSqlite(members, op, email)
    || (&& TakesSeat(op) && !CapReached(members) && members[email].role == GP
        && Answered(server, op.email) && Hit(server, members, op.email, None) == Some(email))
    || (&& op.SetSubscribed? && op.email == email && members[email].role in {GP, LP}
        && Got(server, members, email) == Ok(None))
  }

  /**
   * No call removes a row, and when a role falls. For addresses that name themselves that is the
   * same in both stores.
   */
  lemma RoleFallsExactlyWhen(server: MemberServer, members: Members, op: Op, now: int, email: string)
    requires email in members
    ensures email in SqliteStep(members, op, now).0 && email in SupabaseStep(server, members, op, now).0
    ensures Rank(SqliteStep(members, op, now).0[email].role) < Rank(members[email].role)
            <==> FallsInSqlite(members, op, email)
    ensures Rank(SupabaseStep(server, members, op, now).0[email].role) < Rank(members[email].role)
            <==> FallsInSupabase(server, members, op, email)
    ensures Named(op.email) ==> (FallsInSupabase(server, members, op, email) <==> FallsInSqlite(members, op, email))
  {
    FallInSqlite(members, op, now, email);
    FallInSupabase(server, members, op, now, email);
    hide *;
    if Named(op.email) {
      NamedFall(server, members, op, email);
    }
  }

  lemma FallInSqlite(members: Members, op: Op, now: int, email: string)
    requires email in members
    ensures email in SqliteStep(members, op, now).0
    ensures Rank(SqliteStep(members, op, now).0[email].role) < Rank(members[email].role)
            <==> FallsInSqlite(members, op, email)
  {
  }

  lemma FallInSupabase(server: MemberServer, members: Members, op: Op, now: int, email: string)
    requires email in members
    ensures email in SupabaseStep(server, members, op, now).0
    ensures Rank(SupabaseStep(server, members, op, now).0[email].role) < Rank(members[email].role)
            <==> FallsInSupabase(server, members, op, email)
  {
    hide Asked, Answered, Passes, Looked, LpEmails;
  }

  lemma NamedFall(server: MemberServer, members: Members, op: Op, email: string)
    requires email in members && Named(op.email)
    ensures FallsInSupabase(server, members, op, email) <==> FallsInSqlite(members, op, email)
  {
    hide Named, Hit, Got, Answered;
    NamedHit(server, members, op.email, None);
  }

  /**
   * Signing in never touches a role, a seat or any column but an expiry: of that address, or in
   * Supabase of the address that it reaches.
   */
  lemma SignInTouchesOnlyTheExpiry(server: MemberServer, members: Members, email: string, now: int)
    ensures var a := SqliteStep(members, UpsertGuest(email), now).0;
            var b := SupabaseStep(server, members, UpsertGuest(email), now).0;
            && a.Keys == members.Keys + {email} && OnlyExpiry(members, a, email, now)
            && members.Keys <= b.Keys <= members.Keys + {email} && OnlyExpiry(members, b, Asked(email), now)
            && (Named(email) ==> a == b)
  {
    hide Asked, Answered, Passes, Looked, LpEmails, Named, OnlyExpiry;
    var a := SqliteStep(members, UpsertGuest(email), now).0;
    var b := SupabaseStep(server, members, UpsertGuest(email), now).0;
    ExpiryMoved(members, a, email, now);
    ExpiryMoved(members, b, Asked(email), now);
    if Named(email) {
      NamedStep(server, members, UpsertGuest(email), now);
    }
  }

  /** Rows are as they were, but for the expiry of one; added ones are guests. */
  predicate OnlyExpiry(members: Members, after: Members, email: string, now: int) {
    && members.Keys <= after.Keys
    && (forall e | e in members ::
          after[e] == members[e] || (e == email && after[e] == members[e].(guestExpiresAt := Some(GuestExpiry(now)))))
    && (forall e | e in after && e !in members :: after[e].role == GUEST)
    && LpEmails(after) == LpEmails(members)
  }

  lemma ExpiryMoved(members: Members, after: Members, email: string, now: int)
    requires members.Keys <= after.Keys
    requires forall e | e in members ::
               after[e] == members[e]
               || (e == email && after[e] == members[e].(guestExpiresAt := Some(GuestExpiry(now))))
    requires forall e | e in after && e !in members :: after[e].role == GUEST
    ensures OnlyExpiry(members, after, email, now)
  {
    forall e
      ensures e in LpEmails(after) <==> e in LpEmails(members)
    {
    }
  }

  // ---------------------------------------------------------------- guest access

  ghost predicate SignedInAt(calls: seq<Call>, email: string, at: int) {
    exists k | 0 <= k < |calls| :: calls[k] == Call(UpsertGuest(email), at)
  }

  /** Only the four roles occur, and a guest's expiry is 31 days after one of that address's sign-ins. */
  ghost predicate GuestsSignedIn(members: Members, calls: seq<Call>) {
    forall e | e in members ::
      && !members[e].role.OtherRole?
      && (members[e].role.GUEST? ==>
            members[e].guestExpiresAt.Some?
            && SignedInAt(calls, e, members[e].guestExpiresAt.value - GUEST_ACCESS_DAYS * DAY))
  }

  /** A guest's row was just signed in or is as it was; no operation makes up a role. */
  lemma GuestByStep(members: Members, op: Op, now: int, e: string)
    requires e in SqliteStep(members, op, now).0
    ensures var row := SqliteStep(members, op, now).0[e];
            && (row.role.OtherRole? ==> e in members && members[e].role == row.role)
            && (row.role.GUEST? ==> || (op == UpsertGuest(e) && row.guestExpiresAt == Some(GuestExpiry(now)))
                                    || (e in members && members[e] == row))
  {
  }

  lemma SignedInBefore(before: seq<Call>, call: Call, email: string, at: int)
    ensures SignedInAt(before, email, at) ==> SignedInAt(before + [call], email, at)
    ensures call == Call(UpsertGuest(email), at) ==> SignedInAt(before + [call], email, at)
  {
    var calls := before + [call];
    assert calls[|before|] == call;
    if k :| 0 <= k < |before| && before[k] == Call(UpsertGuest(email), at) {
      assert calls[k] == before[k];
    }
  }

  lemma {:induction false} EveryGuestSignedIn(calls: seq<Call>)
    ensures GuestsSignedIn(SqliteRun(calls).members, calls)
  {
    if calls != [] {
      hide SqliteStep, SignedInAt;
      var before, call := calls[..|calls| - 1], calls[|calls| - 1];
      EveryGuestSignedIn(before);
      var was, after := SqliteRun(before).members, SqliteRun(calls).members;
      assert calls == before + [call];
      forall e | e in after
        ensures !after[e].role.OtherRole?
        ensures after[e].role.GUEST? ==>
                  after[e].guestExpiresAt.Some?
                  && SignedInAt(calls, e, after[e].guestExpiresAt.value - GUEST_ACCESS_DAYS * DAY)
      {
        GuestByStep(was, call.op, call.now, e);
        if after[e].role.GUEST? {
          SignedInBefore(before, call, e, after[e].guestExpiresAt.value - GUEST_ACCESS_DAYS * DAY);
        }
      }
    }
  }

  /**
   * After any run the decision is one of four: no row, an expired guest, a live guest or a
   * long-lived role, in Supabase too if the addresses name themselves. A live guest signed in at most
   * 31 days before.
   */
  lemma GuestAccessComesFromASignIn(server: MemberServer, calls: seq<Call>, email: string, now: int)
    ensures var d := AccessDecisionFor(Find(SqliteRun(calls).members, email), now);
            && (AllNamed(calls) && Named(email)
                ==> Decided(Got(server, SupabaseRun(server, calls).members, email), now) == Ok(d))
            && d.reason in {NotAMember, GuestExpired, GuestActive, RoleActive}
            && (d.allowed <==> d.reason in {GuestActive, RoleActive})
            && (d.reason == GuestActive
                ==> exists at :: now <= at + GUEST_ACCESS_DAYS * DAY && SignedInAt(calls, email, at))
  {
    hide AllNamed, Named;
    if AllNamed(calls) && Named(email) {
      StoresAgreeOverEveryRun(server, calls);
      assert SameAccess(SqliteRun(calls).members, server, SupabaseRun(server, calls).members, email, now);
    }
    EveryGuestSignedIn(calls);
    var members := SqliteRun(calls).members;
    if email in members && members[email].role.GUEST? {
      var at := members[email].guestExpiresAt.value - GUEST_ACCESS_DAYS * DAY;
      assert SignedInAt(calls, email, at);
    }
  }
}
