/**
 * What the members table holds after any run of calls, told from the calls themselves: who has
 * which role, until when a guest may enter, and what each operation writes. Both stores are meant,
 * Supabase for addresses that name themselves.
 */
module MembershipHistory {
  import opened Common
  import opened Membership
  import opened MembershipTheorems
  import QueryText

  /** In microseconds. */
  function Days(n: int): int {
    n * 86_400_000_000
  }

  // ---------------------------------------------------------------- roles by history

  /** Call k seats the address: fewer than 99 seats were taken before it. */
  predicate Seats(calls: seq<Call>, e: string, k: nat) {
    && k < |calls| && calls[k].op.email == e && (calls[k].op.PromoteToLp? || calls[k].op.IssueLpInvite?)
    && |LpEmails(SqliteRun(calls[..k]).members)| < 99
  }

  predicate MakesGp(calls: seq<Call>, e: string, k: nat) {
    k < |calls| && calls[k].op == EnsureGp(e) && e != ""
  }

  predicate Subscribes(calls: seq<Call>, e: string, k: nat) {
    k < |calls| && calls[k].op == SetSubscribed(e)
  }

  predicate SignsIn(calls: seq<Call>, e: string, k: nat) {
    k < |calls| && calls[k].op == UpsertGuest(e)
  }

  /** Call k seats the address, and no later one makes it the GP or seats it again. */
  ghost predicate SeatedLast(calls: seq<Call>, e: string) {
    exists k: nat :: Seats(calls, e, k) && forall j: nat | j > k :: !Seats(calls, e, j) && !MakesGp(calls, e, j)
  }

  ghost predicate MadeGpLast(calls: seq<Call>, e: string) {
    exists k: nat :: MakesGp(calls, e, k) && forall j: nat | j > k :: !Seats(calls, e, j) && !MakesGp(calls, e, j)
  }

  ghost predicate EverSeatedOrGp(calls: seq<Call>, e: string) {
    exists k: nat :: Seats(calls, e, k) || MakesGp(calls, e, k)
  }

  ghost predicate EverSubscribed(calls: seq<Call>, e: string) {
    exists k: nat :: Subscribes(calls, e, k)
  }

  ghost predicate EverSignedIn(calls: seq<Call>, e: string) {
    exists k: nat :: SignsIn(calls, e, k)
  }

  /** The last sign-in of the address was at that time. */
  ghost predicate LastSignedInAt(calls: seq<Call>, e: string, at: int) {
    exists k: nat :: SignsIn(calls, e, k) && calls[k].now == at && forall j: nat | j > k :: !SignsIn(calls, e, j)
  }

  /** The row of the address, as the calls alone tell it. */
  ghost predicate RowFits(calls: seq<Call>, e: string, row: Option<Row>) {
    && (row.None? <==> !EverSeatedOrGp(calls, e) && !EverSubscribed(calls, e) && !EverSignedIn(calls, e))
    && (row.Some? ==>
          var role := row.value.role;
          && (role.LP? <==> SeatedLast(calls, e))
          && (role.GP? <==> MadeGpLast(calls, e))
          && (role.MEMBER? <==> !EverSeatedOrGp(calls, e) && EverSubscribed(calls, e))
          && (role.GUEST? <==> !EverSeatedOrGp(calls, e) && !EverSubscribed(calls, e))
          && (role.GUEST? ==>
                && row.value.guestExpiresAt.Some?
                && LastSignedInAt(calls, e, row.value.guestExpiresAt.value - Days(31))))
  }

  /** What one more call changes about all that. */
  lemma OneMoreCall(before: seq<Call>, call: Call, e: string)
    ensures var calls, n := before + [call], |before|;
            && (SeatedLast(calls, e) <==> Seats(calls, e, n) || (!MakesGp(calls, e, n) && SeatedLast(before, e)))
            && (MadeGpLast(calls, e) <==> MakesGp(calls, e, n) || (!Seats(calls, e, n) && MadeGpLast(before, e)))
            && (EverSeatedOrGp(calls, e) <==>
                  EverSeatedOrGp(before, e) || Seats(calls, e, n) || MakesGp(calls, e, n))
            && (EverSubscribed(calls, e) <==> EverSubscribed(before, e) || Subscribes(calls, e, n))
            && (EverSignedIn(calls, e) <==> EverSignedIn(before, e) || SignsIn(calls, e, n))
    ensures SignsIn(before + [call], e, |before|) ==> LastSignedInAt(before + [call], e, call.now)
    ensures forall at | !SignsIn(before + [call], e, |before|) && LastSignedInAt(before, e, at) ::
              LastSignedInAt(before + [call], e, at)
  {
    var calls, n := before + [call], |before|;
    SameEarlier(before, call, e);
    hide Seats, MakesGp, Subscribes, SignsIn;
  }

  lemma SameEarlier(before: seq<Call>, call: Call, e: string)
    ensures var calls, n := before + [call], |before|;
            && calls[n] == call
            && (forall k: nat | k < n :: calls[k] == before[k])
            && (forall k: nat | k != n :: Seats(calls, e, k) <==> Seats(before, e, k))
            && (forall k: nat | k != n :: MakesGp(calls, e, k) <==> MakesGp(before, e, k))
            && (forall k: nat | k != n :: Subscribes(calls, e, k) <==> Subscribes(before, e, k))
            && (forall k: nat | k != n :: SignsIn(calls, e, k) <==> SignsIn(before, e, k))
            && (forall k: nat | k >= n :: !Seats(before, e, k) && !MakesGp(before, e, k))
            && (forall k: nat | k >= n :: !Subscribes(before, e, k) && !SignsIn(before, e, k))
  {
    var calls := before + [call];
    assert forall k: nat | k < |before| :: calls[..k] == before[..k];
  }

  /** What the last call means for the row, in terms of the table before it. */
  lemma CallKinds(before: seq<Call>, call: Call, e: string)
    ensures var calls, n, op := before + [call], |before|, call.op;
            && (Seats(calls, e, n) <==>
                  TakesSeat(op) && op.email == e && !CapReached(SqliteRun(before).members))
            && (MakesGp(calls, e, n) <==> op == EnsureGp(e) && e != "")
            && (Subscribes(calls, e, n) <==> op == SetSubscribed(e))
            && (SignsIn(calls, e, n) <==> op == UpsertGuest(e))
  {
    assert (before + [call])[..|before|] == before;
  }

  lemma {:induction false} RowByHistory(calls: seq<Call>, e: string)
    ensures RowFits(calls, e, Find(SqliteRun(calls).members, e))
    ensures EverSeatedOrGp(calls, e) <==> SeatedLast(calls, e) || MadeGpLast(calls, e)
    ensures !(SeatedLast(calls, e) && MadeGpLast(calls, e))
  {
    hide Seats, MakesGp, Subscribes, SignsIn;
    if calls == [] {
      NothingYet(e);
    } else {
      hide SeatedLast, MadeGpLast, EverSeatedOrGp, EverSubscribed, EverSignedIn, LastSignedInAt, CapReached;
      var before, call := calls[..|calls| - 1], calls[|calls| - 1];
      assert calls == before + [call];
      RowByHistory(before, e);
      OneMoreCall(before, call, e);
      CallKinds(before, call, e);
      RowMoves(SqliteRun(before).members, call.op, call.now, e);
      hide SqliteStep;
    }
  }

  lemma NothingYet(e: string)
    ensures RowFits([], e, None) && !EverSeatedOrGp([], e) && !SeatedLast([], e) && !MadeGpLast([], e)
  {
  }

  /** The row of one address after one call: its role, and what happens to a guest's expiry. */
  lemma RowMoves(members: Members, op: Op, now: int, e: string)
    ensures var was, row := Find(members, e), Find(SqliteStep(members, op, now).0, e);
            var seat := TakesSeat(op) && op.email == e && !CapReached(members);
            if seat then row.Some? && row.value.role == LP
            else if op == EnsureGp(e) && e != "" then row.Some? && row.value.role == GP
            else if op == SetSubscribed(e) then
              row.Some? && row.value.role == if was.None? || was.value.role == GUEST then MEMBER else was.value.role
            else if op == UpsertGuest(e) then
              && row.Some? && row.value.role == (if was.None? then GUEST else was.value.role)
              && row.value.guestExpiresAt == Some(now + Days(31))
            else was.None? == row.None? && (was.Some? ==> SameStanding(was.value, row.value))
  {
    hide LpEmails;
  }

  predicate SameStanding(a: Row, b: Row) {
    a.role == b.role && a.guestExpiresAt == b.guestExpiresAt
  }

  lemma OneLastSignIn(calls: seq<Call>, e: string, a: int, b: int)
    requires LastSignedInAt(calls, e, a) && LastSignedInAt(calls, e, b)
    ensures a == b
  {
    var j: nat :| SignsIn(calls, e, j) && calls[j].now == a && forall i: nat | i > j :: !SignsIn(calls, e, i);
    var k: nat :| SignsIn(calls, e, k) && calls[k].now == b && forall i: nat | i > k :: !SignsIn(calls, e, i);
    assert j == k;
  }

  /** The address was seated, made the GP or subscribed at some time. */
  ghost predicate EverRaised(calls: seq<Call>, e: string) {
    EverSeatedOrGp(calls, e) || EverSubscribed(calls, e)
  }

  /** The last sign-in of the address was at most 31 days before. */
  ghost predicate SignedInWithin31Days(calls: seq<Call>, e: string, now: int) {
    exists at :: LastSignedInAt(calls, e, at) && now <= at + Days(31)
  }

  /**
   * Who is admitted after any run: whoever was ever seated, made the GP or subscribed, and a guest
   * for exactly 31 days from the last sign-in. The reason and the role that go with it say why.
   */
  lemma AccessExactlyWhen(server: MemberServer, calls: seq<Call>, e: string, now: int)
    ensures var d := AccessDecisionFor(Find(SqliteRun(calls).members, e), now);
            && (AllNamed(calls) && QueryText.Named(e)
                ==> Decided(Got(server, SupabaseRun(server, calls).members, e), now) == Ok(d))
            && (d.allowed <==> EverRaised(calls, e) || SignedInWithin31Days(calls, e, now))
            && (d.reason == NotAMember <==> !EverRaised(calls, e) && !EverSignedIn(calls, e))
            && (d.reason == GuestExpired <==>
                  !EverRaised(calls, e) && EverSignedIn(calls, e) && !SignedInWithin31Days(calls, e, now))
            && (d.reason == GuestActive <==> !EverRaised(calls, e) && SignedInWithin31Days(calls, e, now))
            && (d.reason == RoleActive <==> EverRaised(calls, e))
            && (d.role == Some(LP) <==> SeatedLast(calls, e))
            && (d.role == Some(GP) <==> MadeGpLast(calls, e))
            && (d.role == Some(MEMBER) <==> !EverSeatedOrGp(calls, e) && EverSubscribed(calls, e))
            && (d.role == Some(GUEST) <==> !EverRaised(calls, e) && EverSignedIn(calls, e))
  {
    RowByHistory(calls, e);
    SignInsHaveATime(calls, e);
    if AllNamed(calls) && QueryText.Named(e) {
      StoresAgreeOverEveryRun(server, calls);
      assert SameAccess(SqliteRun(calls).members, server, SupabaseRun(server, calls).members, e, now);
    }
    hide SeatedLast, MadeGpLast, EverSeatedOrGp, EverSubscribed, EverSignedIn, LastSignedInAt, AllNamed,
         QueryText.Named;
    hide SqliteRun, SupabaseRun, Got;
    var row := Find(SqliteRun(calls).members, e);
    if row.Some? && row.value.role.GUEST? {
      var at := row.value.guestExpiresAt.value - Days(31);
      forall t | LastSignedInAt(calls, e, t)
        ensures t == at
      {
        OneLastSignIn(calls, e, t, at);
      }
    }
  }

  lemma {:induction false} SignInsHaveATime(calls: seq<Call>, e: string)
    ensures EverSignedIn(calls, e) <==> exists at :: LastSignedInAt(calls, e, at)
  {
    hide SignsIn;
    if calls == [] {
      assert !EverSignedIn(calls, e) by {
        NothingYet(e);
      }
    } else {
      var before, call := calls[..|calls| - 1], calls[|calls| - 1];
      assert calls == before + [call];
      SignInsHaveATime(before, e);
      OneMoreCall(before, call, e);
      hide EverSignedIn, LastSignedInAt;
      if EverSignedIn(before, e) && !SignsIn(calls, e, |before|) {
        var at :| LastSignedInAt(before, e, at);
        assert LastSignedInAt(calls, e, at);
      }
      EverHas(calls, e);
    }
  }

  lemma EverHas(calls: seq<Call>, e: string)
    ensures forall at | LastSignedInAt(calls, e, at) :: EverSignedIn(calls, e)
  {
  }

  // ---------------------------------------------------------------- what each operation writes

  /** Every other row is as it was. */
  predicate OthersKept(members: Members, after: Members, email: string) {
    && (forall e | e in members && e != email :: e in after && after[e] == members[e])
    && (forall e | e in after && e != email :: e in members)
  }

  /** A sign-in moves the expiry of a row to 31 days ahead and nothing else; a new row is a guest's. */
  lemma SignInWrites(b: Backend, members: Members, email: string, now: int)
    requires Direct(b, email)
    ensures var (after, outcome) := StoreStep(b, members, UpsertGuest(email), now);
            && OthersKept(members, after, email) && email in after && outcome == Returned(after[email])
            && after[email] == if email in members then members[email].(guestExpiresAt := Some(now + Days(31)))
                               else Row(GUEST, now, Some(now + Days(31)), false, false, None, None, None, None)
  {
    DirectStep(b, members, UpsertGuest(email), now);
  }

  /** The operator's row becomes the GP's and loses a guest expiry; one that is the GP's stays as it is. */
  lemma OperatorWrites(b: Backend, members: Members, email: string, now: int)
    requires Direct(b, email)
    ensures var (after, outcome) := StoreStep(b, members, EnsureGp(email), now);
            if email == "" then after == members && outcome == Nothing
            else
              && OthersKept(members, after, email) && email in after && outcome == Returned(after[email])
              && after[email] == if email !in members then Row(GP, now, None, false, false, None, None, None, None)
                                 else if members[email].role == GP then members[email]
                                 else members[email].(role := GP, guestExpiresAt := None)
  {
    DirectStep(b, members, EnsureGp(email), now);
  }

  /** An absent or a guest's row becomes a subscribed member's without an expiry; any other stays as it is. */
  lemma SubscriptionWrites(b: Backend, members: Members, email: string, now: int)
    requires Direct(b, email)
    ensures var (after, outcome) := StoreStep(b, members, SetSubscribed(email), now);
            && OthersKept(members, after, email) && email in after && outcome == Returned(after[email])
            && after[email] == if email !in members then Row(MEMBER, now, None, true, false, None, None, None, None)
                               else if members[email].role != GUEST then members[email]
                               else members[email].(role := MEMBER, subscribed := true, guestExpiresAt := None)
  {
    DirectStep(b, members, SetSubscribed(email), now);
  }

  /** The fee of an LP's row, and of no other; a missing row is an error. */
  lemma FeeWrites(b: Backend, members: Members, email: string, feeType: string, feeRate: string, now: int)
    requires Direct(b, email)
    ensures var (after, outcome) := StoreStep(b, members, SetLpFee(email, feeType, feeRate), now);
            && OthersKept(members, after, email) && (email in after <==> email in members)
            && outcome == (if email in members then Returned(after[email]) else RowMissing)
            && (email in members ==>
                  after[email] == if members[email].role != LP then members[email]
                                  else members[email].(feeType := Some(feeType), feeRate := Some(feeRate)))
  {
    DirectStep(b, members, SetLpFee(email, feeType, feeRate), now);
  }

  /**
   * The row that gets a seat. Supabase writes the whole payload of its POST into a row that exists,
   * and SQLite does not.
   */
  function SeatedRow(b: Backend, members: Members, email: string, now: int): Row {
    if email !in members then Row(LP, now, None, false, true, None, None, None, None)
    else if b.Sqlite? then members[email].(role := LP, investor := true)
    else members[email].(role := LP, investor := true, createdAt := now, subscribed := false)
  }

  /**
   * With 99 seats taken an invite is refused and writes nothing. Otherwise the row holds a seat, the
   * token and its expiry, whose days the caller chose; a guest expiry stays in Supabase alone.
   */
  lemma InviteWrites(b: Backend, members: Members, email: string, token: string, ttlDays: int, now: int)
    requires Direct(b, email)
    ensures var (after, outcome) := StoreStep(b, members, IssueLpInvite(email, token, ttlDays), now);
            if |LpEmails(members)| >= 99 then after == members && outcome == LpCapReached
            else
              && OthersKept(members, after, email) && email in after && outcome == Nothing
              && var row := SeatedRow(b, members, email, now).(
                              inviteToken := Some(token), inviteExpiresAt := Some(now + Days(ttlDays)));
                 after[email] == if b.Sqlite? then row.(guestExpiresAt := None) else row
  {
    hide LpEmails;
    DirectStep(b, members, IssueLpInvite(email, token, ttlDays), now);
  }

  /** A promotion likewise, and it clears an invite and a guest expiry in both stores. */
  lemma PromotionWrites(b: Backend, members: Members, email: string, now: int)
    requires Direct(b, email)
    ensures var (after, outcome) := StoreStep(b, members, PromoteToLp(email), now);
            if |LpEmails(members)| >= 99 then after == members && outcome == LpCapReached
            else
              && OthersKept(members, after, email) && email in after && outcome == Returned(after[email])
              && after[email] == SeatedRow(b, members, email, now).(
                                   guestExpiresAt := None, inviteToken := None, inviteExpiresAt := None)
  {
    hide LpEmails;
    DirectStep(b, members, PromoteToLp(email), now);
  }
}
