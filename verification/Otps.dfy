/**
 * One-time codes. SQLite looks only at the five newest unused codes of an address; Supabase at all
 * of them, but its query holds the address as it is. For addresses that name themselves the two
 * stores otherwise check codes alike. When the differences can be seen.
 */
module Otps {
  import opened Common
  import opened Collections
  import opened QueryText

  const OTP_TTL := 600 * SECOND
  const NEWEST := 5

  datatype Otp = Otp(email: string, codeHash: string, purpose: string, expiresAt: int, used: bool, createdAt: int)

  function Issued(email: string, codeHash: string, purpose: string, now: int): Otp {
    Otp(email, codeHash, purpose, now + OTP_TTL, false, now)
  }

  predicate Matches(o: Otp, email: string, purpose: string) {
    o.email == email && o.purpose == purpose && !o.used
  }

  predicate Opens(o: Otp, codeHash: string, now: int) {
    now <= o.expiresAt && o.codeHash == codeHash
  }

  predicate InTable(otps: seq<Otp>, rows: seq<nat>) {
    forall k | 0 <= k < |rows| :: rows[k] < |otps|
  }

  predicate Rows(otps: seq<Otp>, email: string, purpose: string, rows: seq<nat>) {
    && InTable(otps, rows)
    && (forall k | 0 <= k < |rows| :: Matches(otps[rows[k]], email, purpose))
    && Distinct(rows)
  }

  /** `... AND used=0 ORDER BY created_at DESC LIMIT 5`. Rows created at one instant come in any order. */
  predicate NewestRows(otps: seq<Otp>, email: string, purpose: string, rows: seq<nat>) {
    && Rows(otps, email, purpose, rows)
    && |rows| <= NEWEST
    && (forall a, b | 0 <= a < b < |rows| :: otps[rows[b]].createdAt <= otps[rows[a]].createdAt)
    && (forall i: nat | i < |otps| && Matches(otps[i], email, purpose) && i !in rows ::
          |rows| == NEWEST && forall k | 0 <= k < |rows| :: otps[i].createdAt <= otps[rows[k]].createdAt)
  }

  type CodeServer = Server<Otp>

  /**
   * Whether `email=eq.{address}&purpose=eq.{purpose}&used=eq.false` selects the row: behind a `#`
   * in the address the other two conditions are lost.
   */
  predicate Reads(server: CodeServer, o: Otp, email: string, purpose: string) {
    o.email == Asked(email) && ('#' in email || (o.purpose == purpose && !o.used)) && Passes(server, email, o)
  }

  /** The rows that the query selects, in whatever order. */
  predicate AllRows(server: CodeServer, otps: seq<Otp>, email: string, purpose: string, rows: seq<nat>) {
    && InTable(otps, rows)
    && Distinct(rows)
    && (forall i: nat | i < |otps| :: i in rows <==> Reads(server, otps[i], email, purpose))
  }

  /** The rows that it means. */
  predicate ExactRows(otps: seq<Otp>, email: string, purpose: string, rows: seq<nat>) {
    && Rows(otps, email, purpose, rows)
    && (forall i: nat | i < |otps| && Matches(otps[i], email, purpose) :: i in rows)
  }

  lemma NamedRows(server: CodeServer, otps: seq<Otp>, email: string, purpose: string, rows: seq<nat>)
    requires Named(email)
    ensures Answered(server, email)
    ensures AllRows(server, otps, email, purpose, rows) <==> ExactRows(otps, email, purpose, rows)
  {
    hide Asked, Sendable, Further;
    NamedExactlyWhen(email);
    if AllRows(server, otps, email, purpose, rows) {
      forall k | 0 <= k < |rows|
        ensures Matches(otps[rows[k]], email, purpose)
      {
        assert rows[k] in rows;
      }
    }
  }

  predicate QueryMeansIt(server: CodeServer, otps: seq<Otp>, email: string, purpose: string, rows: seq<nat>) {
    Answered(server, email) && AllRows(server, otps, email, purpose, rows) <==> ExactRows(otps, email, purpose, rows)
  }

  /** The query selects what it means, on every table, exactly for the addresses that name themselves. */
  lemma QueryIsExactWhenNamed(server: CodeServer, email: string, purpose: string)
    ensures (forall otps, rows :: QueryMeansIt(server, otps, email, purpose, rows)) <==> Named(email)
  {
    if Named(email) {
      forall otps, rows
        ensures QueryMeansIt(server, otps, email, purpose, rows)
      {
        NamedRows(server, otps, email, purpose, rows);
      }
    } else {
      var otp := Issued(email, "", purpose, 0);
      UnnamedQueryMisses(server, otp, email, purpose);
      if Answered(server, email) {
        assert !QueryMeansIt(server, [otp], email, purpose, [0]);
      } else {
        assert !QueryMeansIt(server, [], email, purpose, []);
      }
    }
  }

  lemma UnnamedQueryMisses(server: CodeServer, otp: Otp, email: string, purpose: string)
    requires !Named(email) && Matches(otp, email, purpose)
    ensures Answered(server, email) ==> !AllRows(server, [otp], email, purpose, [0])
    ensures ExactRows([otp], email, purpose, [0]) && ExactRows([], email, purpose, [])
  {
    hide Asked, Sendable, Further;
    if Answered(server, email) {
      assert 0 in [0] && !Reads(server, [otp][0], email, purpose);
    }
  }

  /** The first of the selected rows that the code opens. */
  function Opened(otps: seq<Otp>, rows: seq<nat>, codeHash: string, now: int): (r: Option<nat>)
    requires InTable(otps, rows)
    ensures r.Some? ==> r.value in rows && r.value < |otps| && Opens(otps[r.value], codeHash, now)
    ensures r.None? ==> forall k | 0 <= k < |rows| :: !Opens(otps[rows[k]], codeHash, now)
  {
    if rows == [] then None
    else if Opens(otps[rows[0]], codeHash, now) then Some(rows[0])
    else Opened(otps, rows[1..], codeHash, now)
  }

  function Spent(otps: seq<Otp>, row: Option<nat>): seq<Otp>
    requires row.Some? ==> row.value < |otps|
  {
    if row.Some? then otps[row.value := otps[row.value].(used := true)] else otps
  }

  class OtpTable {
    var otps: seq<Otp>

    constructor ()
      ensures otps == []
    {
      otps := [];
    }

    method Issue(email: string, codeHash: string, purpose: string, now: int)
      modifies this
      ensures otps == old(otps) + [Issued(email, codeHash, purpose, now)]
    {
      otps := otps + [Otp(email, codeHash, purpose, now + 600 * SECOND, false, now)];
    }

    /** The loop of both stores over the rows their query returned. */
    method Verify(email: string, codeHash: string, purpose: string, now: int, rows: seq<nat>) returns (ok: bool)
      requires InTable(otps, rows)
      modifies this
      ensures ok == Opened(old(otps), rows, codeHash, now).Some?
      ensures otps == Spent(old(otps), Opened(old(otps), rows, codeHash, now))
    {
      var i := 0;
      while i < |rows|
        invariant 0 <= i <= |rows|
        invariant Opened(otps, rows, codeHash, now) == Opened(otps, rows[i..], codeHash, now)
      {
        var row := otps[rows[i]];
        if row.expiresAt >= now && row.codeHash == codeHash {
          otps := otps[rows[i] := row.(used := true)];
          return true;
        }
        i := i + 1;
      }
      return false;
    }
  }

  // ---------------------------------------------------------------- when the stores differ

  predicate Live(otps: seq<Otp>, email: string, purpose: string, now: int, i: nat)
    requires i < |otps|
  {
    Matches(otps[i], email, purpose) && now <= otps[i].expiresAt
  }

  /** A live code outside the five newest that no live code among them shares its hash with. */
  predicate Hidden(otps: seq<Otp>, email: string, purpose: string, now: int, newest: seq<nat>, i: nat)
    requires i < |otps| && InTable(otps, newest)
  {
    && i !in newest
    && Live(otps, email, purpose, now, i)
    && forall k | 0 <= k < |newest| ::
         Live(otps, email, purpose, now, newest[k]) ==> otps[newest[k]].codeHash != otps[i].codeHash
  }

  predicate NothingHidden(otps: seq<Otp>, email: string, purpose: string, now: int, newest: seq<nat>)
    requires InTable(otps, newest)
  {
    forall i: nat | i < |otps| :: !Hidden(otps, email, purpose, now, newest, i)
  }

  predicate SameAnswer(otps: seq<Otp>, newest: seq<nat>, rows: seq<nat>, now: int, codeHash: string)
    requires InTable(otps, newest) && InTable(otps, rows)
  {
    Opened(otps, newest, codeHash, now).Some? == Opened(otps, rows, codeHash, now).Some?
  }

  /**
   * For an address that names itself the stores accept the same codes exactly when no live code is
   * hidden behind the five newest.
   */
  lemma StoresAgreeExactlyWhen(server: CodeServer, otps: seq<Otp>, email: string, purpose: string, now: int,
                               newest: seq<nat>, rows: seq<nat>)
    requires Named(email) && NewestRows(otps, email, purpose, newest) && AllRows(server, otps, email, purpose, rows)
    ensures (forall codeHash :: SameAnswer(otps, newest, rows, now, codeHash))
              <==> NothingHidden(otps, email, purpose, now, newest)
  {
    NamedRows(server, otps, email, purpose, rows);
    hide Named, AllRows;
    if forall codeHash :: SameAnswer(otps, newest, rows, now, codeHash) {
      forall i: nat | i < |otps|
        ensures !Hidden(otps, email, purpose, now, newest, i)
      {
        assert SameAnswer(otps, newest, rows, now, otps[i].codeHash);
      }
    }
    if NothingHidden(otps, email, purpose, now, newest) {
      forall codeHash
        ensures SameAnswer(otps, newest, rows, now, codeHash)
      {
        NothingHiddenSameAnswer(otps, email, purpose, now, newest, rows, codeHash);
      }
    }
  }

  lemma NothingHiddenSameAnswer(otps: seq<Otp>, email: string, purpose: string, now: int, newest: seq<nat>,
                                rows: seq<nat>, codeHash: string)
    requires NewestRows(otps, email, purpose, newest) && ExactRows(otps, email, purpose, rows)
    requires NothingHidden(otps, email, purpose, now, newest)
    ensures SameAnswer(otps, newest, rows, now, codeHash)
  {
    var among, first := Opened(otps, rows, codeHash, now), Opened(otps, newest, codeHash, now);
    if among.Some? && first.None? {
      assert Hidden(otps, email, purpose, now, newest, among.value);
      assert false;
    }
    if first.Some? {
      assert Matches(otps[first.value], email, purpose);
      assert first.value in rows;
    }
  }

  /** How many codes, used or not, an address was issued after an instant. */
  function IssuedAfter(otps: seq<Otp>, email: string, purpose: string, since: int): nat {
    |IssuedRows(otps, email, purpose, since)|
  }

  function IssuedRows(otps: seq<Otp>, email: string, purpose: string, since: int): set<nat> {
    set i: nat | i < |otps| && IssuedSince(otps[i], email, purpose, since)
  }

  predicate IssuedSince(o: Otp, email: string, purpose: string, since: int) {
    o.email == email && o.purpose == purpose && since < o.createdAt
  }

  predicate Stamped(otps: seq<Otp>) {
    forall i | 0 <= i < |otps| :: otps[i].expiresAt == otps[i].createdAt + OTP_TTL
  }

  function Members(rows: seq<nat>): set<nat> {
    set r | r in rows
  }

  lemma {:induction false} DistinctSize(rows: seq<nat>)
    requires Distinct(rows)
    ensures |Members(rows)| == |rows|
  {
    if rows != [] {
      var before, last := rows[..|rows| - 1], rows[|rows| - 1];
      DistinctSize(before);
      assert rows == before + [last] && last !in before;
      assert Members(rows) == Members(before) + {last};
    }
  }

  function LiveRows(otps: seq<Otp>, email: string, purpose: string, now: int): set<nat> {
    set i: nat | i < |otps| && Live(otps, email, purpose, now, i)
  }

  ghost predicate HashesDiffer(otps: seq<Otp>, email: string, purpose: string, now: int) {
    forall i: nat, j: nat | i < j < |otps| && Live(otps, email, purpose, now, i)
                            && Live(otps, email, purpose, now, j) ::
      otps[i].codeHash != otps[j].codeHash
  }

  /** A live code that the answer lacks comes with five newer ones in it, live as well. */
  lemma FiveNewerAreLive(otps: seq<Otp>, email: string, purpose: string, now: int, newest: seq<nat>, i: nat)
    requires NewestRows(otps, email, purpose, newest) && Stamped(otps)
    requires i < |otps| && Live(otps, email, purpose, now, i) && i !in newest
    ensures |LiveRows(otps, email, purpose, now)| > NEWEST
  {
    var six := Members(newest) + {i};
    DistinctSize(newest);
    assert |six| == NEWEST + 1;
    forall k | 0 <= k < |newest|
      ensures Live(otps, email, purpose, now, newest[k])
    {
      assert otps[i].createdAt <= otps[newest[k]].createdAt;
    }
    SubsetSize(six, LiveRows(otps, email, purpose, now));
  }

  /**
   * With at most five live codes the stores agree on every code; with six or more, all hashed
   * differently, some code opens in one store only.
   */
  lemma StoresAgreeExactlyWhenFewAreLive(server: CodeServer, otps: seq<Otp>, email: string, purpose: string, now: int,
                                         newest: seq<nat>, rows: seq<nat>)
    requires Named(email) && NewestRows(otps, email, purpose, newest) && AllRows(server, otps, email, purpose, rows)
             && Stamped(otps)
    ensures |LiveRows(otps, email, purpose, now)| <= NEWEST
            ==> forall codeHash :: SameAnswer(otps, newest, rows, now, codeHash)
    ensures HashesDiffer(otps, email, purpose, now) ==>
              ((forall codeHash :: SameAnswer(otps, newest, rows, now, codeHash))
                 <==> |LiveRows(otps, email, purpose, now)| <= NEWEST)
  {
    hide Named, AllRows;
    StoresAgreeExactlyWhen(server, otps, email, purpose, now, newest, rows);
    if |LiveRows(otps, email, purpose, now)| <= NEWEST {
      forall i: nat | i < |otps|
        ensures !Hidden(otps, email, purpose, now, newest, i)
      {
        if Hidden(otps, email, purpose, now, newest, i) {
          FiveNewerAreLive(otps, email, purpose, now, newest, i);
          assert false;
        }
      }
    } else if HashesDiffer(otps, email, purpose, now) {
      var i := SixthIsHidden(otps, email, purpose, now, newest);
    }
  }

  lemma SixthIsHidden(otps: seq<Otp>, email: string, purpose: string, now: int, newest: seq<nat>) returns (i: nat)
    requires NewestRows(otps, email, purpose, newest)
    requires HashesDiffer(otps, email, purpose, now) && |LiveRows(otps, email, purpose, now)| > NEWEST
    ensures i < |otps| && Hidden(otps, email, purpose, now, newest, i)
  {
    i := Outsider(LiveRows(otps, email, purpose, now), newest);
  }

  lemma Outsider(live: set<nat>, newest: seq<nat>) returns (i: nat)
    requires |live| > |newest|
    ensures i in live && i !in newest
  {
    MembersSize(newest);
    if live <= Members(newest) {
      SubsetSize(live, Members(newest));
      assert false;
    }
    i :| i in live && i !in Members(newest);
  }

  lemma {:induction false} MembersSize(rows: seq<nat>)
    ensures |Members(rows)| <= |rows|
  {
    if rows != [] {
      var before, last := rows[..|rows| - 1], rows[|rows| - 1];
      MembersSize(before);
      assert rows == before + [last];
      assert Members(rows) == Members(before) + {last};
    }
  }

  /**
   * At most five codes issued in the last 900 seconds, the promise of the per-address limiter,
   * keeps the two stores together: codes live only 600 seconds.
   */
  lemma FewCodesKeepTheStoresTogether(server: CodeServer, otps: seq<Otp>, email: string, purpose: string, now: int,
                                      newest: seq<nat>, rows: seq<nat>, codeHash: string)
    requires Named(email) && NewestRows(otps, email, purpose, newest) && AllRows(server, otps, email, purpose, rows)
    requires Stamped(otps)
    requires IssuedAfter(otps, email, purpose, now - 900 * SECOND) <= NEWEST
    ensures SameAnswer(otps, newest, rows, now, codeHash)
  {
    hide Named, AllRows;
    LiveWereIssued(otps, email, purpose, now, now - 900 * SECOND);
    StoresAgreeExactlyWhenFewAreLive(server, otps, email, purpose, now, newest, rows);
  }

  lemma LiveWereIssued(otps: seq<Otp>, email: string, purpose: string, now: int, since: int)
    requires Stamped(otps) && since < now - OTP_TTL
    ensures |LiveRows(otps, email, purpose, now)| <= IssuedAfter(otps, email, purpose, since)
  {
    SubsetSize(LiveRows(otps, email, purpose, now), IssuedRows(otps, email, purpose, since));
  }

  /** Codes issued one microsecond apart. */
  function Batch(email: string, hashes: seq<string>, purpose: string, now: int): seq<Otp> {
    seq(|hashes|, k requires 0 <= k < |hashes| => Issued(email, hashes[k], purpose, now + k))
  }

  /**
   * Of six codes issued within ten minutes the first opens only in the Supabase store. Nothing
   * limits broker codes, and a restart forgets the limit on sign-in codes.
   */
  lemma SixCodesSplitTheStores(server: CodeServer, email: string, hashes: seq<string>, purpose: string, now: int,
                               newest: seq<nat>, rows: seq<nat>)
    requires Named(email) && |hashes| == 6 && forall k | 0 < k < 6 :: hashes[k] != hashes[0]
    requires NewestRows(Batch(email, hashes, purpose, now), email, purpose, newest)
    requires AllRows(server, Batch(email, hashes, purpose, now), email, purpose, rows)
    ensures Opened(Batch(email, hashes, purpose, now), newest, hashes[0], now + 6).None?
    ensures Opened(Batch(email, hashes, purpose, now), rows, hashes[0], now + 6) == Some(0)
  {
    hide AllRows, ExactRows, Named;
    var otps := Batch(email, hashes, purpose, now);
    NamedRows(server, otps, email, purpose, rows);
    OldestIsNotInTheAnswer(otps, email, purpose, newest);
    OnlyTheOldestOpens(otps, email, hashes, purpose, now, newest, rows);
  }

  lemma OnlyTheOldestOpens(otps: seq<Otp>, email: string, hashes: seq<string>, purpose: string, now: int,
                           newest: seq<nat>, rows: seq<nat>)
    requires |otps| == |hashes| == 6 && forall k | 0 < k < 6 :: hashes[k] != hashes[0]
    requires forall k | 0 <= k < 6 :: otps[k] == Issued(email, hashes[k], purpose, now + k)
    requires Rows(otps, email, purpose, newest) && 0 !in newest
    requires ExactRows(otps, email, purpose, rows)
    ensures Opened(otps, newest, hashes[0], now + 6).None?
    ensures Opened(otps, rows, hashes[0], now + 6) == Some(0)
  {
    assert Matches(otps[0], email, purpose) && Opens(otps[0], hashes[0], now + 6);
    assert 0 in rows;
  }

  /** Were the oldest of six codes among the newest five, so would be the other five. */
  lemma OldestIsNotInTheAnswer(otps: seq<Otp>, email: string, purpose: string, newest: seq<nat>)
    requires |otps| == 6
             && forall i: nat | i < 6 :: Matches(otps[i], email, purpose) && otps[i].createdAt == otps[0].createdAt + i
    requires NewestRows(otps, email, purpose, newest)
    ensures 0 !in newest
  {
    if 0 in newest {
      forall i: nat | i < 6
        ensures i in newest
      {
        assert Matches(otps[i], email, purpose);
      }
      DistinctSize(newest);
      SubsetSize({0, 1, 2, 3, 4, 5}, Members(newest));
      assert false;
    }
  }

  // ---------------------------------------------------------------- what single use rests on

  /**
   * Behind a `#` the query has lost the conditions on purpose and use: any code of the address
   * before the `#` that has not expired opens, were it used already or issued for something else.
   */
  lemma CutAddressOpensAnyCode(server: CodeServer, otps: seq<Otp>, email: string, tail: string, purpose: string,
                               codeHash: string, now: int, rows: seq<nat>, i: nat)
    requires Named(email) && '#' !in tail && AllRows(server, otps, email + "#" + tail, purpose, rows)
    requires i < |otps| && otps[i].email == email && Opens(otps[i], codeHash, now)
    ensures Answered(server, email + "#" + tail) && Opened(otps, rows, codeHash, now).Some?
  {
    hide Asked, Sendable, Further;
    CutAddress(email, tail);
    assert Reads(server, otps[i], email + "#" + tail, purpose);
    assert i in rows;
  }

  /** No other unused code of the address and purpose has the hash. */
  predicate OnlyCode(otps: seq<Otp>, email: string, purpose: string, codeHash: string, i: nat) {
    && i < |otps| && Matches(otps[i], email, purpose) && otps[i].codeHash == codeHash
    && forall j: nat | j < |otps| && j != i && Matches(otps[j], email, purpose) :: otps[j].codeHash != codeHash
  }

  /**
   * Single use rests on one verification at a time. Two that both read before either writes accept
   * one code twice and leave it used, as after one; read after the write, the second is refused.
   */
  lemma InterleavedVerificationsShareACode(server: CodeServer, otps: seq<Otp>, email: string, purpose: string,
                                           codeHash: string, now: int, i: nat, first: seq<nat>,
                                           second: seq<nat>, later: seq<nat>)
    requires Named(email) && OnlyCode(otps, email, purpose, codeHash, i) && now <= otps[i].expiresAt
    requires AllRows(server, otps, email, purpose, first) && AllRows(server, otps, email, purpose, second)
    requires AllRows(server, Spent(otps, Opened(otps, first, codeHash, now)), email, purpose, later)
    ensures Opened(otps, first, codeHash, now) == Some(i) == Opened(otps, second, codeHash, now)
    ensures Spent(Spent(otps, Some(i)), Some(i)) == Spent(otps, Some(i))
    ensures Opened(Spent(otps, Some(i)), later, codeHash, now).None?
  {
    hide AllRows, Named;
    NamedRows(server, otps, email, purpose, first);
    NamedRows(server, otps, email, purpose, second);
    OnlyCodeOpens(otps, email, purpose, codeHash, now, i, first);
    OnlyCodeOpens(otps, email, purpose, codeHash, now, i, second);
    var after := Spent(otps, Some(i));
    NamedRows(server, after, email, purpose, later);
    forall k | 0 <= k < |later|
      ensures !Opens(after[later[k]], codeHash, now)
    {
      assert Matches(after[later[k]], email, purpose);
    }
  }

  lemma OnlyCodeOpens(otps: seq<Otp>, email: string, purpose: string, codeHash: string, now: int, i: nat,
                      rows: seq<nat>)
    requires OnlyCode(otps, email, purpose, codeHash, i) && now <= otps[i].expiresAt
             && ExactRows(otps, email, purpose, rows)
    ensures Opened(otps, rows, codeHash, now) == Some(i)
  {
    var found := Opened(otps, rows, codeHash, now);
    assert i in rows && Opens(otps[i], codeHash, now);
    if found.Some? {
      assert Matches(otps[found.value], email, purpose);
    }
  }
}
