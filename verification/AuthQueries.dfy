/**
 * What the requests come to for addresses that Supabase does not take for themselves, and that the
 * code table's query always has an answer, so that the run theorems speak of every request.
 */
module AuthQueries {
  import opened Collections
  import opened Common
  import opened Membership
  import opened MembershipQueries
  import opened Otps
  import opened QueryText
  import opened AuthApp
  import opened AuthTheorems
  import Sorting

  // ---------------------------------------------------------------- every query has an answer

  function Indices(n: nat, keep: nat -> bool): (rows: seq<nat>)
    ensures Distinct(rows)
    ensures forall i: nat :: i in rows <==> i < n && keep(i)
  {
    if n == 0 then [] else Indices(n - 1, keep) + if keep(n - 1) then [n - 1] else []
  }

  /** There are rows that the store's query may return. */
  lemma EveryQueryHasAnAnswer(c: Config, otps: seq<Otp>, email: string, purpose: string) returns (rows: seq<nat>)
    ensures Selected(c, otps, email, purpose, rows)
  {
    hide Matches, Reads;
    if c.backend.Supabase? {
      rows := if Answered(c.codeServer, email)
      then Indices(|otps|, (i: nat) => i < |otps| && Reads(c.codeServer, otps[i], email, purpose)) else [];
      assert forall k | 0 <= k < |rows| :: rows[k] in rows;
    } else {
      var matching := Indices(|otps|, (i: nat) => i < |otps| && Matches(otps[i], email, purpose));
      rows := NewestFive(otps, email, purpose, matching);
    }
  }

  predicate Newer(otps: seq<Otp>, i: nat, j: nat) {
    i < |otps| ==> j < |otps| && otps[j].createdAt <= otps[i].createdAt
  }

  lemma ByAge(otps: seq<Otp>, matching: seq<nat>) returns (sorted: seq<nat>)
    requires Distinct(matching) && InTable(otps, matching)
    ensures Distinct(sorted) && InTable(otps, sorted)
    ensures forall i: nat :: i in sorted <==> i in matching
    ensures forall a, b | 0 <= a < b < |sorted| :: Newer(otps, sorted[a], sorted[b])
  {
    var newer := (i: nat, j: nat) => Age(otps, j) <= Age(otps, i);
    sorted := Sorting.Sort(newer, matching);
    Sorting.SortPermutes(newer, matching);
    Sorting.SortSorts(newer, matching);
    SameDistinct(matching, sorted);
    forall k | 0 <= k < |sorted|
      ensures sorted[k] < |otps|
    {
      assert sorted[k] in sorted;
      assert sorted[k] in matching;
    }
    forall a, b | 0 <= a < b < |sorted|
      ensures Newer(otps, sorted[a], sorted[b])
    {
      assert newer(sorted[a], sorted[b]);
    }
  }

  function Age(otps: seq<Otp>, i: nat): int {
    if i < |otps| then otps[i].createdAt else 0
  }

  lemma NewestFive(otps: seq<Otp>, email: string, purpose: string, matching: seq<nat>) returns (rows: seq<nat>)
    requires Distinct(matching)
    requires forall i: nat :: i in matching <==> i < |otps| && Matches(otps[i], email, purpose)
    ensures NewestRows(otps, email, purpose, rows)
  {
    hide Matches, Newer;
    assert forall k | 0 <= k < |matching| :: matching[k] in matching;
    var sorted := ByAge(otps, matching);
    assert forall k | 0 <= k < |sorted| :: sorted[k] in sorted;
    var n := if |sorted| <= NEWEST then |sorted| else NEWEST;
    rows := sorted[..n];
    assert Rows(otps, email, purpose, rows);
    forall a, b | 0 <= a < b < n
      ensures otps[rows[b]].createdAt <= otps[rows[a]].createdAt
    {
      NewerMeans(otps, sorted[a], sorted[b]);
    }
    forall i: nat | i < |otps| && Matches(otps[i], email, purpose) && i !in rows
      ensures n == NEWEST && forall k | 0 <= k < n :: otps[i].createdAt <= otps[rows[k]].createdAt
    {
      LeftOut(otps, sorted, n, i);
    }
  }

  lemma NewerMeans(otps: seq<Otp>, i: nat, j: nat)
    requires i < |otps| && Newer(otps, i, j)
    ensures j < |otps| && otps[j].createdAt <= otps[i].createdAt
  {
  }

  lemma LeftOut(otps: seq<Otp>, sorted: seq<nat>, n: nat, i: nat)
    requires n <= |sorted| && InTable(otps, sorted) && i in sorted && i !in sorted[..n]
    requires forall a, b | 0 <= a < b < |sorted| :: Newer(otps, sorted[a], sorted[b])
    ensures n < |sorted| && i < |otps|
    ensures forall k | 0 <= k < n :: otps[i].createdAt <= otps[sorted[k]].createdAt
  {
    assert sorted == sorted[..n] + sorted[n..];
    assert i in sorted[n..];
    var m :| 0 <= m < |sorted[n..]| && sorted[n..][m] == i;
    assert forall k | 0 <= k < n :: Newer(otps, sorted[k], sorted[n + m]);
  }

  lemma SameDistinct(xs: seq<nat>, ys: seq<nat>)
    requires Distinct(xs) && multiset(xs) == multiset(ys)
    ensures Distinct(ys)
  {
    forall i, j | 0 <= i < j < |ys|
      ensures ys[i] != ys[j]
    {
      if ys[i] == ys[j] {
        Twice(ys, i, j);
        Once(xs, ys[i]);
      }
    }
  }

  lemma Twice(ys: seq<nat>, i: nat, j: nat)
    requires i < j < |ys| && ys[i] == ys[j]
    ensures multiset(ys)[ys[i]] >= 2
  {
    var front, back := ys[..j], ys[j..];
    assert ys == front + back;
    assert front[i] == ys[i] && back[0] == ys[j];
    assert ys[i] in multiset(front) && ys[i] in multiset(back);
  }

  lemma {:induction false} Once(xs: seq<nat>, x: nat)
    requires Distinct(xs)
    ensures multiset(xs)[x] <= 1
  {
    if xs != [] {
      assert xs == [xs[0]] + xs[1..];
      Once(xs[1..], x);
      if xs[0] == x {
        assert x !in multiset(xs[1..]) by {
          assert forall k | 0 <= k < |xs[1..]| :: xs[1..][k] == xs[k + 1];
        }
      }
    }
  }

  // ---------------------------------------------------------------- invites

  /**
   * An invite that is answered as a conflict has taken a seat nevertheless when the cap was not
   * reached: that of an address that no query can hold.
   */
  lemma RefusedInviteMaySeat(c: Config, hash: string -> string, app: App, r: Request)
    requires r.action.Invite? && Step(c, hash, app, r).1 == Refused(409, InviteUnavailable)
    ensures var after, email := Step(c, hash, app, r).0, r.action.email;
            if |LpEmails(app.members)| >= 99 then after == app
            else
              && c.backend.Supabase? && (exists c | c in Kept(email) :: c as int > 127)
              && email in after.members && after.members[email].role == LP
              && after.members[email].inviteToken == Some(r.action.token)
  {
    hide LpEmails, Kept, Asked, Further, Got, Recognised;
    if c.backend.Supabase? {
      LookupAnswers(c.backend.server, app.members, r.action.email);
      var op := IssueLpInvite(r.action.email, r.action.token, INVITE_DAYS);
      if Got(c.backend.server, app.members, r.action.email).Err? {
        FailedQueryWrites(c.backend.server, app.members, op, r.now);
      }
    }
  }

  // ---------------------------------------------------------------- addresses with a plus

  /** No address that a request brings, nor the operator's, holds a blank. */
  predicate NoBlanks(c: Config, r: Request) {
    MovesMembers(r.action) ==> ' ' !in OperationOf(c, r.action).email
  }

  ghost predicate WithoutBlanks(c: Config, rs: seq<Request>) {
    forall k | 0 <= k < |rs| :: NoBlanks(c, rs[k])
  }

  ghost predicate NoBlankRows(members: Members) {
    forall e | e in members :: ' ' !in e
  }

  lemma {:induction false} NoRowHoldsABlank(c: Config, hash: string -> string, rs: seq<Request>)
    requires WithoutBlanks(c, rs)
    ensures NoBlankRows(Reach(c, hash, rs).members)
  {
    hide Step, Possible, StoreStep, MovesMembers, OperationOf;
    if rs != [] {
      var before, r := rs[..|rs| - 1], rs[|rs| - 1];
      assert rs == before + [r];
      Earlier(c, hash, before, r);
      NoRowHoldsABlank(c, hash, before);
      var app := Reach(c, hash, before);
      if Possible(c, app, hash, r) {
        MembersMoveByOneOperation(c, hash, app, r);
        assert NoBlanks(c, r);
        if Step(c, hash, app, r).0.members != app.members {
          AddsItsOwn(c.backend, app.members, OperationOf(c, r.action), r.now);
        }
      }
    }
  }

  lemma AddsItsOwn(b: Backend, members: Members, op: Op, now: int)
    ensures StoreStep(b, members, op, now).0.Keys <= members.Keys + {op.email}
  {
    hide CapReached, Kept, Decoded, First, Further, Answered, Passes;
  }

  /** A `+` in an address asks for a blank in its place. */
  lemma {:induction false} PlusAsksForABlank(text: string)
    requires '+' in text && '%' !in text
    ensures ' ' in Decoded(text)
  {
    if text[0] != '+' {
      assert text == [text[0]] + text[1..];
      PlusAsksForABlank(text[1..]);
      assert Decoded(text) == [text[0]] + Decoded(text[1..]);
    } else {
      assert Decoded(text) == " " + Decoded(text[1..]);
    }
  }

  /**
   * With Supabase nobody whose address holds a `+` ever signs in: over every run in which no address
   * holds a blank, the row that is inserted is never found.
   */
  lemma PlusNeverSignsIn(c: Config, hash: string -> string, rs: seq<Request>, r: Request)
    requires c.backend.Supabase? && WithoutBlanks(c, rs + [r]) && Possible(c, Reach(c, hash, rs), hash, r)
    ensures var answer := Step(c, hash, Reach(c, hash, rs), r).1;
            answer.SignedIn? && '+' in answer.email ==>
              '#' in answer.email || '&' in answer.email || '%' in answer.email
  {
    hide Step, Possible, Decoded, Further;
    var app := Reach(c, hash, rs);
    var (after, answer) := Step(c, hash, app, r);
    if answer.SignedIn? && '+' in answer.email && '#' !in answer.email && '&' !in answer.email
       && '%' !in answer.email {
      var e := answer.email;
      RoleShown(c, hash, app, r);
      Earlier(c, hash, rs, r);
      NoRowHoldsABlank(c, hash, rs + [r]);
      LookupAnswers(c.backend.server, after.members, e);
      FirstIsPrefix(e);
      PlusAsksForABlank(e);
      assert false;
    }
  }
}
