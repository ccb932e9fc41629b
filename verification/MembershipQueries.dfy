/**
 * What a Supabase call does for an address that does not name itself: its query asks for another
 * address, or never reaches the server, while what it posts goes under the address itself.
 */
module MembershipQueries {
  import opened Common
  import opened Membership
  import opened MembershipHistory
  import opened QueryText

  /** There is a row of the address that the query asks for, and it passes what the address brings along. */
  predicate Finds(server: MemberServer, members: Members, email: string) {
    var asked := Asked(email);
    && asked in members
    && (Further(email).Some? ==> server.passes(Further(email).value, (asked, members[asked])))
  }

  /** What the last lookup of an operation returns. */
  function FoundLast(server: MemberServer, after: Members, email: string): Outcome {
    if Finds(server, after, email) then Returned(after[Asked(email)]) else RowMissing
  }

  /** http.client refuses blanks and control characters, and what is not ASCII in another way. */
  lemma LookupAnswers(server: MemberServer, members: Members, email: string)
    ensures var got := Got(server, members, email);
            var sent := forall c | c in Kept(email) :: 33 <= c as int <= 126;
            var taken := Further(email).Some? ==> server.takes(Further(email).value);
            && (got.Ok? <==> sent && taken)
            && (got == Err(NotAscii) <==>
                  && (exists c | c in Kept(email) :: c as int > 127)
                  && forall c | c in Kept(email) :: c as int > 32 && c as int != 127)
            && (got.Err? ==> got.error in {NotAscii, CallFailed})
            && (got.Ok? ==>
                  got.value == if Finds(server, members, email) then Some(members[Asked(email)]) else None)
  {
    hide Kept, Asked, Further;
    var kept := Kept(email);
    assert forall c: char :: Printable(c) <==> 33 <= c as int <= 126;
    assert forall c: char :: Control(c) <==> c as int <= 32 || c as int == 127;
  }

  /** The row of the POST that takes a seat. */
  function PostedRow(server: MemberServer, members: Members, op: Op, now: int): Row
    requires op.PromoteToLp? || op.IssueLpInvite?
  {
    var row := SeatedRow(Supabase(server), members, op.email, now);
    if op.PromoteToLp? then row
    else row.(inviteToken := Some(op.token), inviteExpiresAt := Some(now + Days(op.ttlDays)))
  }

  /**
   * A query that fails leaves the table as it was, but for a seat: that has been posted by then,
   * under an address that no query can hold.
   */
  lemma FailedQueryWrites(server: MemberServer, members: Members, op: Op, now: int)
    requires Got(server, members, op.email).Err?
    ensures var (after, outcome) := SupabaseStep(server, members, op, now);
            if !TakesSeat(op) then after == members && outcome == Got(server, members, op.email).error
            else if |LpEmails(members)| >= 99 then after == members && outcome == LpCapReached
            else
              && outcome == Got(server, members, op.email).error
              && after == members[op.email := PostedRow(server, members, op, now)]
  {
    hide LpEmails, Kept, Asked, Further;
    EmptyNamesItself(server, members);
  }

  lemma EmptyNamesItself(server: MemberServer, members: Members)
    ensures Named("") && Got(server, members, "").Ok?
  {
  }

  lemma AsksForAnother(server: MemberServer, members: Members, email: string)
    requires !Named(email) && Got(server, members, email).Ok?
    ensures Asked(email) != email && Answered(server, email)
    ensures Hit(server, members, email, None) == if Finds(server, members, email) then Some(Asked(email)) else None
  {
  }

  /** The query finds the row of another address: that is the one that is written. */
  lemma AnotherRowIsWritten(server: MemberServer, members: Members, op: Op, now: int)
    requires !Named(op.email) && Got(server, members, op.email).Ok? && Finds(server, members, op.email)
    requires !TakesSeat(op)
    ensures var (after, outcome) := SupabaseStep(server, members, op, now);
            var k := Asked(op.email);
            var row := members[k];
            && k != op.email
            && after == members[k :=
                  match op
                  case UpsertGuest(_) => row.(guestExpiresAt := Some(now + Days(31)))
                  case EnsureGp(_) => if row.role == GP then row else row.(role := GP, guestExpiresAt := None)
                  case SetSubscribed(_) =>
                    if row.role != GUEST then row
                    else row.(role := MEMBER, subscribed := true, guestExpiresAt := None)
                  case SetLpFee(_, feeType, feeRate) =>
                    if row.role == LP || '#' in op.email then row.(feeType := Some(feeType), feeRate := Some(feeRate))
                    else row
                  case _ => row]
            && outcome == match FoundLast(server, after, op.email)
                          case RowMissing => if op.EnsureGp? then Nothing else RowMissing
                          case found => found
  {
    hide Kept, Decoded, Further;
    EmptyNamesItself(server, members);
    AsksForAnother(server, members, op.email);
  }

  /** The query finds nothing: the row is inserted, and what is there already is not found again. */
  lemma NothingIsFound(server: MemberServer, members: Members, op: Op, now: int)
    requires !Named(op.email) && Got(server, members, op.email).Ok? && !Finds(server, members, op.email)
    requires !TakesSeat(op)
    ensures var (after, outcome) := SupabaseStep(server, members, op, now);
            var e := op.email;
            match op
            case UpsertGuest(_) =>
              if e in members then after == members && outcome == CallFailed
              else
                && after == members[e := Row(GUEST, now, Some(now + Days(31)), false, false, None, None, None, None)]
                && outcome == RowMissing
            case EnsureGp(_) =>
              if e in members then after == members && outcome == CallFailed
              else after == members[e := Row(GP, now, None, false, false, None, None, None, None)] && outcome == Nothing
            case SetSubscribed(_) =>
              && outcome == RowMissing
              && after == members[e :=
                    if e in members then
                      members[e].(role := MEMBER, createdAt := now, subscribed := true, investor := false)
                    else Row(MEMBER, now, None, true, false, None, None, None, None)]
            case _ => after == members && outcome == RowMissing
  {
    hide Kept, Decoded, Further;
    EmptyNamesItself(server, members);
    AsksForAnother(server, members, op.email);
  }

  /** A seat is posted under the address itself, and the row that the query finds gets one as well. */
  lemma SeatIsPosted(server: MemberServer, members: Members, op: Op, now: int)
    requires !Named(op.email) && Got(server, members, op.email).Ok? && TakesSeat(op) && |LpEmails(members)| < 99
    ensures var (after, outcome) := SupabaseStep(server, members, op, now);
            var k, posted := Asked(op.email), members[op.email := PostedRow(server, members, op, now)];
            && k != op.email
            && (!Finds(server, members, op.email) ==> after == posted)
            && (Finds(server, members, op.email) ==>
                  after == posted[k :=
                    if op.PromoteToLp? then
                      members[k].(role := LP, investor := true, guestExpiresAt := None, inviteToken := None,
                                  inviteExpiresAt := None)
                    else
                      members[k].(role := LP, investor := true, inviteToken := Some(op.token),
                                  inviteExpiresAt := Some(now + Days(op.ttlDays)))])
            && outcome == if op.IssueLpInvite? then Nothing else FoundLast(server, after, op.email)
  {
    hide Kept, Decoded, Further, LpEmails;
    AsksForAnother(server, members, op.email);
    var posted := members[op.email := PostedRow(server, members, op, now)];
    AsksForAnother(server, posted, op.email);
  }
}
