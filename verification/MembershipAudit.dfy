/** The membership audit log of membership_audit.py: an append-only table of linked entries. */
module MembershipAudit {
  import opened HashChain

  datatype MembershipEvent = MembershipEvent(
    seqNo: int,
    event: string,
    email: string,
    actor: string,
    detail: string,
    createdAt: string)

  type Entry = Link<MembershipEvent>

  type Hasher = (MembershipEvent, string) -> string

  datatype Break = PrevHashMismatch(index: nat) | EntryHashMismatch(index: nat)

  const DEFAULT_LIMIT := 500

  /** The mismatches at entry i, in the order they are reported. */
  function BreaksAt(h: Hasher, entries: seq<Entry>, i: nat): seq<Break>
    requires i < |entries|
  {
    (if entries[i].previous != Head(entries[..i]) then [PrevHashMismatch(i)] else [])
    + (if entries[i].digest != h(entries[i].body, entries[i].previous) then [EntryHashMismatch(i)] else [])
  }

  function Breaks(h: Hasher, entries: seq<Entry>, n: nat): seq<Break>
    requires n <= |entries|
  {
    if n == 0 then [] else Breaks(h, entries, n - 1) + BreaksAt(h, entries, n - 1)
  }

  /** All mismatches, entry by entry. */
  function AllBreaks(h: Hasher, entries: seq<Entry>): seq<Break> {
    Breaks(h, entries, |entries|)
  }

  /** Reports every mismatch in order. */
  method VerifyChain(h: Hasher, entries: seq<Entry>) returns (reasons: seq<Break>)
    ensures reasons == AllBreaks(h, entries)
  {
    reasons := [];
    var prev := GENESIS;
    for i := 0 to |entries|
      invariant prev == Head(entries[..i])
      invariant reasons == Breaks(h, entries, i)
    {
      var e := entries[i];
      var before := reasons;
      if e.previous != prev {
        reasons := reasons + [PrevHashMismatch(i)];
      }
      if e.digest != h(e.body, e.previous) {
        reasons := reasons + [EntryHashMismatch(i)];
      }
      assert reasons == before + BreaksAt(h, entries, i);
      prev := e.digest;
    }
  }

  /** Nothing is reported for exactly the linked chains. */
  lemma {:induction false} NothingReportedExactlyWhenLinked(h: Hasher, entries: seq<Entry>)
    ensures AllBreaks(h, entries) == [] <==> Linked(h, entries)
  {
    NoBreaksMeansLinked(h, entries, |entries|);
  }

  lemma {:induction false} NoBreaksMeansLinked(h: Hasher, entries: seq<Entry>, n: nat)
    requires n <= |entries|
    ensures Breaks(h, entries, n) == [] <==> forall i :: 0 <= i < n ==> LinkOk(h, entries, i)
  {
    if n > 0 {
      NoBreaksMeansLinked(h, entries, n - 1);
      assert BreaksAt(h, entries, n - 1) == [] <==> LinkOk(h, entries, n - 1);
      assert Breaks(h, entries, n) == [] <==> Breaks(h, entries, n - 1) == [] && BreaksAt(h, entries, n - 1) == [];
    }
  }

  /** Entry i does not name the digest of the one before it, or zeros if it is the first. */
  predicate Unlinked(entries: seq<Entry>, i: nat)
    requires i < |entries|
  {
    if i == 0 then |entries[0].previous| != 64 || exists k | 0 <= k < 64 :: entries[0].previous[k] != '0'
    else entries[i].previous != entries[i - 1].digest
  }

  /** The reports are in the order of the entries, of an entry the one about its predecessor first. */
  predicate InOrder(a: Break, b: Break) {
    a.index < b.index || (a.index == b.index && a.PrevHashMismatch? && b.EntryHashMismatch?)
  }

  predicate AllInOrder(breaks: seq<Break>) {
    forall j, k | 0 <= j < k < |breaks| :: InOrder(breaks[j], breaks[k])
  }

  lemma {:induction false} BreaksOf(h: Hasher, entries: seq<Entry>, n: nat, i: nat)
    requires n <= |entries|
    ensures PrevHashMismatch(i) in Breaks(h, entries, n) <==> i < n && Unlinked(entries, i)
    ensures EntryHashMismatch(i) in Breaks(h, entries, n)
       <==> i < n && entries[i].digest != h(entries[i].body, entries[i].previous)
  {
    if n > 0 {
      BreaksOf(h, entries, n - 1, i);
      HeadBefore(entries, n - 1);
      hide Unlinked, Head;
    }
  }

  lemma {:induction false} BreaksInOrder(h: Hasher, entries: seq<Entry>, n: nat)
    requires n <= |entries|
    ensures AllInOrder(Breaks(h, entries, n))
    ensures forall k | 0 <= k < |Breaks(h, entries, n)| :: Breaks(h, entries, n)[k].index < n
  {
    hide Head;
    if n > 0 {
      BreaksInOrder(h, entries, n - 1);
    }
  }

  lemma HeadBefore(entries: seq<Entry>, i: nat)
    requires i < |entries|
    ensures entries[i].previous != Head(entries[..i]) <==> Unlinked(entries, i)
  {
    if i > 0 {
      assert entries[..i][|entries[..i]| - 1] == entries[i - 1];
    } else if |entries[0].previous| == 64 && forall k | 0 <= k < 64 :: entries[0].previous[k] == '0' {
      assert entries[0].previous == GENESIS;
    }
  }

  /** A mismatch is reported exactly when the entry has it, once, and in the order of the entries. */
  lemma BreakIsReportedExactlyWhen(h: Hasher, entries: seq<Entry>, i: nat)
    ensures PrevHashMismatch(i) in AllBreaks(h, entries) <==> i < |entries| && Unlinked(entries, i)
    ensures EntryHashMismatch(i) in AllBreaks(h, entries)
       <==> i < |entries| && entries[i].digest != h(entries[i].body, entries[i].previous)
    ensures AllInOrder(AllBreaks(h, entries))
  {
    BreaksOf(h, entries, |entries|, i);
    BreaksInOrder(h, entries, |entries|);
  }

  /** Row i of the table carries sequence number i + 1. */
  ghost predicate Numbered(entries: seq<Entry>) {
    forall i :: 0 <= i < |entries| ==> entries[i].body.seqNo == i + 1
  }

  /** The table, ordered by sequence number. */
  class MembershipAuditLog {
    var rows: seq<Entry>

    constructor ()
      ensures rows == []
    {
      rows := [];
    }

    ghost predicate Valid(h: Hasher)
      reads this
    {
      Linked(h, rows) && Numbered(rows)
    }

    /** Appends one entry and changes nothing already recorded. */
    method Record(h: Hasher, event: string, email: string, actor: string, detail: string, createdAt: string)
        returns (entry: Entry)
      requires Valid(h)
      modifies this
      ensures Valid(h)
      ensures rows == old(rows) + [entry]
      ensures entry.body == MembershipEvent(|rows|, event, email, actor, detail, createdAt)
    {
      var seqNo := if rows != [] then rows[|rows| - 1].body.seqNo + 1 else 1;
      var prev := if rows != [] then rows[|rows| - 1].digest else GENESIS;
      var body := MembershipEvent(seqNo, event, email, actor, detail, createdAt);
      entry := Link(body, prev, h(body, prev));
      LinkedExtend(h, rows, entry);
      rows := rows + [entry];
    }

    method Entries(limit: nat) returns (entries: seq<Entry>)
      ensures entries == rows[..if limit <= |rows| then limit else |rows|]
    {
      entries := rows[..if limit <= |rows| then limit else |rows|];
    }

    /** Reports intact exactly when the first 500 entries are linked. */
    method Verify(h: Hasher) returns (reasons: seq<Break>)
      ensures reasons == AllBreaks(h, Checked(rows))
      ensures reasons == [] <==> Linked(h, Checked(rows))
    {
      var entries := Entries(DEFAULT_LIMIT);
      reasons := VerifyChain(h, entries);
      NothingReportedExactlyWhenLinked(h, entries);
    }
  }

  /** The entries that `verify` looks at. */
  function Checked(entries: seq<Entry>): seq<Entry> {
    entries[..if DEFAULT_LIMIT <= |entries| then DEFAULT_LIMIT else |entries|]
  }

  /** Whatever happens to the entries after the first 500, `verify` reports the same. */
  lemma LaterEntriesAreNotChecked(h: Hasher, entries: seq<Entry>, later: seq<Entry>)
    requires |entries| >= 500
    ensures AllBreaks(h, Checked(entries[..500] + later)) == AllBreaks(h, Checked(entries))
  {
    assert Checked(entries[..DEFAULT_LIMIT] + later) == Checked(entries);
  }

  /**
   * In a log recorded by this class, deleting any entry that `verify` looks at is reported,
   * unless the entry is the log's last one or two entries collide.
   */
  lemma DeletionIsReported(h: Hasher, entries: seq<Entry>, i: nat)
    requires IsDigestFunction(h) && Linked(h, entries) && i < |entries|
    ensures Linked(h, Checked(Removed(entries, i))) && !HasCollision(entries, entries)
            ==> i == |entries| - 1 || i >= 500
    ensures i == |entries| - 1 || i >= 500 ==> Linked(h, Checked(Removed(entries, i)))
  {
    var seen := entries[..if DEFAULT_LIMIT < |entries| then DEFAULT_LIMIT + 1 else |entries|];
    LinkedPrefix(h, entries, |seen|);
    LinkedPrefix(h, entries, |Checked(entries)|);
    if i < |seen| {
      RemovalDetectedBeforeTheEnd(h, seen, i);
      CheckedAfterRemoval(entries, i);
      assert HasCollision(seen, seen) ==> HasCollision(entries, entries);
    } else {
      assert Checked(Removed(entries, i)) == entries[..DEFAULT_LIMIT];
    }
  }

  /** After a removal among the checked entries the next one moves into view. */
  lemma CheckedAfterRemoval(entries: seq<Entry>, i: nat)
    requires i < |entries| && i <= 500
    ensures var seen := entries[..if DEFAULT_LIMIT < |entries| then DEFAULT_LIMIT + 1 else |entries|];
            Checked(Removed(entries, i)) == Removed(seen, i)
  {
    var seen := entries[..if DEFAULT_LIMIT < |entries| then DEFAULT_LIMIT + 1 else |entries|];
    var left, right := Checked(Removed(entries, i)), Removed(seen, i);
    assert |left| == |right|;
    forall k | 0 <= k < |left|
      ensures left[k] == right[k]
    {
      assert left[k] == Removed(entries, i)[k];
    }
  }

  /**
   * In a log recorded by this class, rewriting an entry goes unreported exactly when `verify` does
   * not look at it, or when its digest is recomputed and nothing that `verify` looks at follows: it
   * is the last entry or the 500th. Failing that it takes a digest that two contents share.
   */
  lemma AlterationIsReported(h: Hasher, entries: seq<Entry>, i: nat, entry: Entry)
    requires Linked(h, entries) && i < |entries| && entry != entries[i]
    ensures Linked(h, Checked(entries[i := entry]))
            <==> i >= 500
                 || (Fits(h, entries, i, entry)
                     && (i == |entries| - 1 || i == 499 || entry.digest == entries[i].digest))
    ensures Fits(h, entries, i, entry) && entry.digest == entries[i].digest ==> Collide(entries[i], entry)
  {
    var seen := Checked(entries);
    LinkedPrefix(h, entries, |seen|);
    if i < DEFAULT_LIMIT {
      assert Checked(entries[i := entry]) == seen[i := entry];
      RewriteUnnoticedExactlyWhen(h, seen, i, entry);
    } else {
      assert Checked(entries[i := entry]) == seen;
    }
  }

  /** The head hash pins down the log's whole history, up to hash collisions. */
  lemma HeadHashDeterminesLog(h: Hasher, xs: seq<Entry>, ys: seq<Entry>)
    requires IsDigestFunction(h) && Linked(h, xs) && Linked(h, ys) && Head(xs) == Head(ys)
    ensures xs == ys || HasCollision(xs, ys)
  {
    HeadDeterminesChain(h, xs, ys);
  }
}
