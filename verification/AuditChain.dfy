/** The paper audit chain of audit.py: verification, append, and the reference fold. */
module AuditChain {
  import opened Common
  import opened HashChain
  import opened Sorting

  datatype AuditBody = AuditBody(
    sequence: int,
    runId: string,
    stage: string,
    occurredAt: Timestamp,
    artifactId: string,
    candidateId: string,
    inputSha256: string,
    outputSha256: string,
    componentVersion: string,
    policyVersion: string,
    reasonCodes: seq<string>)

  type AuditEvent = Link<AuditBody>

  type Hasher = (AuditBody, string) -> string

  datatype AuditReason =
    | RunIdMismatch
    | SequenceInvalid
    | PreviousHashInvalid
    | InputLineageInvalid
    | InputHashInvalid
    | OutputHashInvalid
    | EventHashInvalid
    | TimestampNotTimezoneAware
    | TimeOrderInvalid
    | ReasonCodesNoncanonical
    | MetadataIncomplete

  // ---------------------------------------------------------------- what each reason means

  /** The expected input of the next event: the last output, or the genesis hash. */
  function LastOutput(chain: seq<AuditEvent>): string {
    if chain == [] then GENESIS else chain[|chain| - 1].body.outputSha256
  }

  /** The latest timestamp with a time zone, scanning past those without one. */
  function PriorTime(chain: seq<AuditEvent>): Option<int> {
    if chain == [] then None
    else
      var last := chain[|chain| - 1].body.occurredAt;
      if last.Aware? then Some(last.instant) else PriorTime(chain[..|chain| - 1])
  }

  predicate HashAllowingZero(s: string, allowZero: bool) {
    IsHash(s) || (allowZero && IsHex64(s))
  }

  predicate MetadataMissing(b: AuditBody) {
    b.runId == "" || b.stage == "" || b.artifactId == "" || b.candidateId == ""
    || b.componentVersion == "" || b.policyVersion == ""
  }

  /** What an event is compared with, as the events before it determine. */
  datatype Expected = Expected(sequence: int, previous: string, input: string, priorTime: Option<int>)

  function ExpectedAfter(before: seq<AuditEvent>): Expected {
    Expected(|before| + 1, Head(before), LastOutput(before), PriorTime(before))
  }

  /** The event does not follow from the events before it. */
  predicate BreaksLineage(e: AuditEvent, x: Expected, reason: AuditReason) {
    match reason
    case SequenceInvalid => e.body.sequence != x.sequence
    case PreviousHashInvalid => e.previous != x.previous
    case InputLineageInvalid => e.body.inputSha256 != x.input
    case _ => false
  }

  /** A hash is malformed, zero where it may not be, or not the hash of the event. */
  predicate HasBadHash(h: Hasher, e: AuditEvent, first: bool, reason: AuditReason) {
    match reason
    case InputHashInvalid => !HashAllowingZero(e.body.inputSha256, first)
    case OutputHashInvalid => !IsHash(e.body.outputSha256)
    case PreviousHashInvalid => !HashAllowingZero(e.previous, first)
    case EventHashInvalid => !IsHash(e.digest) || e.digest != h(e.body, e.previous)
    case _ => false
  }

  predicate HasBadContent(b: AuditBody, priorTime: Option<int>, reason: AuditReason) {
    match reason
    case TimestampNotTimezoneAware => b.occurredAt.Naive?
    case TimeOrderInvalid => b.occurredAt.Aware? && priorTime.Some? && b.occurredAt.instant < priorTime.value
    case ReasonCodesNoncanonical => !IsCanonical(b.reasonCodes)
    case MetadataIncomplete => MetadataMissing(b)
    case _ => false
  }

  predicate Gives(h: Hasher, e: AuditEvent, x: Expected, reason: AuditReason) {
    BreaksLineage(e, x, reason) || HasBadHash(h, e, x.sequence == 1, reason)
    || HasBadContent(e.body, x.priorTime, reason)
  }

  predicate EventHas(h: Hasher, chain: seq<AuditEvent>, i: nat, reason: AuditReason)
    requires i < |chain|
  {
    if reason.RunIdMismatch? then chain[i].body.runId != chain[0].body.runId
    else Gives(h, chain[i], ExpectedAfter(chain[..i]), reason)
  }

  ghost predicate ChainHas(h: Hasher, chain: seq<AuditEvent>, reason: AuditReason) {
    exists i :: 0 <= i < |chain| && EventHas(h, chain, i, reason)
  }

  ghost predicate Intact(h: Hasher, chain: seq<AuditEvent>) {
    forall reason :: !ChainHas(h, chain, reason)
  }

  // ---------------------------------------------------------------- verification

  /** The reasons one event contributes. */
  method EventReasons(h: Hasher, e: AuditEvent, x: Expected) returns (found: set<AuditReason>)
    ensures forall r :: r in found <==> Gives(h, e, x, r)
  {
    hide BreaksLineage, HasBadHash, HasBadContent;
    var lineage := LineageReasons(e, x);
    var hashes := HashReasons(h, e, x.sequence == 1);
    var content := ContentReasons(e.body, x.priorTime);
    found := lineage + hashes + content;
  }

  method LineageReasons(e: AuditEvent, x: Expected) returns (found: set<AuditReason>)
    ensures forall r :: r in found <==> BreaksLineage(e, x, r)
  {
    found := {};
    if e.body.sequence != x.sequence {
      found := found + {SequenceInvalid};
    }
    if e.previous != x.previous {
      found := found + {PreviousHashInvalid};
    }
    if e.body.inputSha256 != x.input {
      found := found + {InputLineageInvalid};
    }
  }

  method HashReasons(h: Hasher, e: AuditEvent, first: bool) returns (found: set<AuditReason>)
    ensures forall r :: r in found <==> HasBadHash(h, e, first, r)
  {
    hide IsHash, HashAllowingZero;
    found := {};
    if !HashAllowingZero(e.body.inputSha256, first) {
      found := found + {InputHashInvalid};
    }
    if !IsHash(e.body.outputSha256) {
      found := found + {OutputHashInvalid};
    }
    if !HashAllowingZero(e.previous, first) {
      found := found + {PreviousHashInvalid};
    }
    if !IsHash(e.digest) || e.digest != h(e.body, e.previous) {
      found := found + {EventHashInvalid};
    }
  }

  method ContentReasons(b: AuditBody, priorTime: Option<int>) returns (found: set<AuditReason>)
    ensures forall r :: r in found <==> HasBadContent(b, priorTime, r)
  {
    hide IsCanonical, MetadataMissing;
    found := {};
    if b.occurredAt.Naive? {
      found := found + {TimestampNotTimezoneAware};
    } else if priorTime.Some? && b.occurredAt.instant < priorTime.value {
      found := found + {TimeOrderInvalid};
    }
    CanonicalFixed(b.reasonCodes);
    if b.reasonCodes != Canonical(b.reasonCodes) {
      found := found + {ReasonCodesNoncanonical};
    }
    if MetadataMissing(b) {
      found := found + {MetadataIncomplete};
    }
  }

  method VerifyAuditChain(h: Hasher, chain: seq<AuditEvent>) returns (reasons: set<AuditReason>)
    ensures forall r :: r in reasons <==> ChainHas(h, chain, r)
  {
    hide Gives, PriorTime;
    reasons := {};
    var runIds := set e | e in chain :: e.body.runId;
    MixedRunIds(h, chain, runIds);
    if |runIds| > 1 {
      reasons := {RunIdMismatch};
    }
    var x := ExpectedAfter([]);
    for i := 0 to |chain|
      invariant x == ExpectedAfter(chain[..i])
      invariant RunIdMismatch in reasons <==> ChainHas(h, chain, RunIdMismatch)
      invariant forall r :: r != RunIdMismatch ==>
        (r in reasons <==> exists j :: 0 <= j < i && EventHas(h, chain, j, r))
    {
      var e := chain[i];
      var found := EventReasons(h, e, x);
      NoRunIdFrom(h, e, x);
      forall r | r != RunIdMismatch ensures r in found <==> EventHas(h, chain, i, r) {}
      reasons := reasons + found;
      ExpectedNext(chain, i);
      x := Expected(i + 2, e.digest, e.body.outputSha256,
                    if e.body.occurredAt.Aware? then Some(e.body.occurredAt.instant) else x.priorTime);
    }
    assert chain[..|chain|] == chain;
  }

  lemma NoRunIdFrom(h: Hasher, e: AuditEvent, x: Expected)
    ensures !Gives(h, e, x, RunIdMismatch)
  {}

  lemma ExpectedNext(chain: seq<AuditEvent>, i: nat)
    requires i < |chain|
    ensures ExpectedAfter(chain[..i + 1])
         == Expected(i + 2, chain[i].digest, chain[i].body.outputSha256,
                     if chain[i].body.occurredAt.Aware? then Some(chain[i].body.occurredAt.instant)
                     else ExpectedAfter(chain[..i]).priorTime)
  {
    assert chain[..i + 1][..i] == chain[..i];
  }

  lemma MixedRunIds(h: Hasher, chain: seq<AuditEvent>, runIds: set<string>)
    requires runIds == set e | e in chain :: e.body.runId
    ensures |runIds| > 1 <==> ChainHas(h, chain, RunIdMismatch)
  {
    if chain != [] {
      var first := chain[0].body.runId;
      assert first in runIds;
      if ChainHas(h, chain, RunIdMismatch) {
        var i :| 0 <= i < |chain| && EventHas(h, chain, i, RunIdMismatch);
        TwoMembers(runIds, first, chain[i].body.runId);
      } else {
        forall id ensures id in runIds <==> id in {first} {
          if id in runIds {
            var i :| 0 <= i < |chain| && chain[i].body.runId == id;
            assert !EventHas(h, chain, i, RunIdMismatch);
          }
        }
        assert runIds == {first};
      }
    } else {
      assert runIds == {};
    }
  }

  lemma TwoMembers<T>(s: set<T>, a: T, b: T)
    requires a in s && b in s && a != b
    ensures |s| > 1
  {
    assert {a, b} <= s;
    assert |s - {a}| >= 1;
  }

  // ---------------------------------------------------------------- append

  /** The arguments of an append. */
  datatype Entry = Entry(
    runId: string,
    stage: string,
    occurredAt: Timestamp,
    artifactId: string,
    candidateId: string,
    inputSha256: string,
    outputSha256: string,
    componentVersion: string,
    policyVersion: string,
    reasonCodes: seq<string>)

  datatype AppendError =
    | TimestampNotAware
    | IdentityMissing
    | ChainInvalid
    | RunIdentityChanged
    | TimeMovedBackward
    | InputNotPriorOutput
    | ReasonCodeEmpty
    | HashesInvalid

  function BodyOf(sequence: int, n: Entry): AuditBody {
    AuditBody(sequence, n.runId, n.stage, n.occurredAt, n.artifactId, n.candidateId, n.inputSha256, n.outputSha256,
              n.componentVersion, n.policyVersion, Canonical(n.reasonCodes))
  }

  /** The event that an append adds. */
  function Sealed(h: Hasher, chain: seq<AuditEvent>, n: Entry): AuditEvent {
    var body := BodyOf(|chain| + 1, n);
    Link(body, Head(chain), h(body, Head(chain)))
  }

  /** The entry continues the chain's run, in time and in lineage. */
  predicate Continues(chain: seq<AuditEvent>, n: Entry) {
    && n.inputSha256 == LastOutput(chain)
    && (chain != [] ==>
          && n.runId == chain[|chain| - 1].body.runId
          && n.occurredAt.instant >= chain[|chain| - 1].body.occurredAt.instant)
  }

  predicate WellFormedEntry(n: Entry, first: bool) {
    && n.occurredAt.Aware?
    && !MetadataMissing(BodyOf(0, n))
    && "" !in n.reasonCodes
    && HashAllowingZero(n.inputSha256, first)
    && IsHash(n.outputSha256)
  }

  ghost predicate Appendable(h: Hasher, chain: seq<AuditEvent>, n: Entry) {
    Intact(h, chain) && WellFormedEntry(n, chain == []) && Continues(chain, n)
  }

  /** What the error objects to. */
  ghost predicate Objects(h: Hasher, chain: seq<AuditEvent>, n: Entry, error: AppendError) {
    var last := |chain| - 1;
    match error
    case TimestampNotAware => n.occurredAt.Naive?
    case IdentityMissing =>
      "" in [n.runId, n.stage, n.artifactId, n.candidateId, n.componentVersion, n.policyVersion]
    case ChainInvalid => exists reason :: ChainHas(h, chain, reason)
    case RunIdentityChanged => chain != [] && n.runId != chain[last].body.runId
    case TimeMovedBackward => chain != [] && n.occurredAt.instant < chain[last].body.occurredAt.instant
    case InputNotPriorOutput =>
      n.inputSha256 != if chain == [] then GENESIS else chain[last].body.outputSha256
    case ReasonCodeEmpty => "" in n.reasonCodes
    case HashesInvalid =>
      || !IsHex64(n.inputSha256) || (chain != [] && IsZero(n.inputSha256))
      || !IsHex64(n.outputSha256) || IsZero(n.outputSha256)
  }

  /** The place of the check in an append. */
  function Place(error: AppendError): nat {
    match error
    case TimestampNotAware => 0
    case IdentityMissing => 1
    case ChainInvalid => 2
    case RunIdentityChanged => 3
    case TimeMovedBackward => 4
    case InputNotPriorOutput => 5
    case ReasonCodeEmpty => 6
    case HashesInvalid => 7
  }

  /** The first check that objects. */
  ghost predicate ObjectsFirst(h: Hasher, chain: seq<AuditEvent>, n: Entry, error: AppendError) {
    Objects(h, chain, n, error) && forall e: AppendError | Place(e) < Place(error) :: !Objects(h, chain, n, e)
  }

  lemma HashesAreChecked(h: Hasher, chain: seq<AuditEvent>, n: Entry)
    ensures Objects(h, chain, n, HashesInvalid)
       <==> !HashAllowingZero(n.inputSha256, chain == []) || !IsHash(n.outputSha256)
  {
    hide IsHexDigit;
  }

  method AppendAuditEvent(h: Hasher, chain: seq<AuditEvent>, n: Entry)
      returns (r: Result<seq<AuditEvent>, AppendError>)
    ensures r.Ok? <==> Appendable(h, chain, n)
    ensures r.Ok? ==> r.value == chain + [Sealed(h, chain, n)]
    ensures r.Err? ==> ObjectsFirst(h, chain, n, r.error)
  {
    hide IsHash, HashAllowingZero, Gives, Canonical;
    if n.occurredAt.Naive? {
      return Err(TimestampNotAware);
    }
    if n.runId == "" || n.stage == "" || n.artifactId == "" || n.candidateId == ""
       || n.componentVersion == "" || n.policyVersion == ""
    {
      return Err(IdentityMissing);
    }
    var existing := VerifyAuditChain(h, chain);
    if existing != {} {
      var reason :| reason in existing;
      assert ChainHas(h, chain, reason);
      return Err(ChainInvalid);
    }
    if chain != [] && n.runId != chain[|chain| - 1].body.runId {
      return Err(RunIdentityChanged);
    }
    if chain != [] && n.occurredAt.instant < chain[|chain| - 1].body.occurredAt.instant {
      return Err(TimeMovedBackward);
    }
    var expectedInput := if chain != [] then chain[|chain| - 1].body.outputSha256 else GENESIS;
    if n.inputSha256 != expectedInput {
      return Err(InputNotPriorOutput);
    }
    if "" in n.reasonCodes {
      return Err(ReasonCodeEmpty);
    }
    HashesAreChecked(h, chain, n);
    if !HashAllowingZero(n.inputSha256, chain == []) || !IsHash(n.outputSha256) {
      return Err(HashesInvalid);
    }
    var previousHash := if chain != [] then chain[|chain| - 1].digest else GENESIS;
    var body := BodyOf(|chain| + 1, n);
    r := Ok(chain + [Link(body, previousHash, h(body, previousHash))]);
  }

  // ---------------------------------------------------------------- theorems

  /** No reason applies to event i. */
  ghost predicate Clean(h: Hasher, chain: seq<AuditEvent>, i: nat)
    requires i < |chain|
  {
    forall reason :: !EventHas(h, chain, i, reason)
  }

  lemma IntactHasNot(h: Hasher, chain: seq<AuditEvent>, i: nat, reason: AuditReason)
    requires Intact(h, chain) && i < |chain|
    ensures !EventHas(h, chain, i, reason)
  {
    hide EventHas;
    assert !ChainHas(h, chain, reason);
  }

  lemma IntactIsClean(h: Hasher, chain: seq<AuditEvent>)
    ensures Intact(h, chain) <==> forall i :: 0 <= i < |chain| ==> Clean(h, chain, i)
  {
    hide EventHas;
    if Intact(h, chain) {
      forall i, reason | 0 <= i < |chain| ensures !EventHas(h, chain, i, reason) {
        IntactHasNot(h, chain, i, reason);
      }
    } else {
      var reason :| ChainHas(h, chain, reason);
      var i :| 0 <= i < |chain| && EventHas(h, chain, i, reason);
      assert !Clean(h, chain, i);
    }
  }

  /** Removing events from the end of an intact chain leaves an intact chain. */
  lemma IntactPrefix(h: Hasher, chain: seq<AuditEvent>, n: nat)
    requires Intact(h, chain) && n <= |chain|
    ensures Intact(h, chain[..n])
  {
    hide Gives;
    IntactIsClean(h, chain);
    IntactIsClean(h, chain[..n]);
    forall i | 0 <= i < n ensures Clean(h, chain[..n], i) {
      assert Clean(h, chain, i);
      assert chain[..n][..i] == chain[..i];
      forall reason ensures !EventHas(h, chain[..n], i, reason) {
        assert !EventHas(h, chain, i, reason);
      }
    }
  }

  /** Appending to an intact chain leaves an intact chain. */
  lemma AppendKeepsIntact(h: Hasher, chain: seq<AuditEvent>, n: Entry)
    requires IsDigestFunction(h) && Appendable(h, chain, n)
    ensures Intact(h, chain + [Sealed(h, chain, n)])
  {
    hide Gives;
    var all := chain + [Sealed(h, chain, n)];
    IntactIsClean(h, chain);
    IntactIsClean(h, all);
    forall i | 0 <= i < |all| ensures Clean(h, all, i) {
      assert all[..i] == chain[..i];
      if i < |chain| {
        assert Clean(h, chain, i);
        forall reason ensures !EventHas(h, all, i, reason) {
          assert !EventHas(h, chain, i, reason);
        }
      } else {
        assert chain[..i] == chain;
        SealedIsClean(h, chain, n);
        SameRun(h, chain);
      }
    }
  }

  lemma SealedIsClean(h: Hasher, chain: seq<AuditEvent>, n: Entry)
    requires IsDigestFunction(h) && Appendable(h, chain, n)
    ensures forall reason :: !Gives(h, Sealed(h, chain, n), ExpectedAfter(chain), reason)
  {
    hide IsHex64, IsZero;
    CanonicalIs(n.reasonCodes);
    AwareHistory(h, chain);
    GenesisIsZero();
    if chain != [] {
      IntactHasNot(h, chain, |chain| - 1, EventHashInvalid);
    }
    assert IsHash(h(BodyOf(|chain| + 1, n), Head(chain)));
  }

  lemma GenesisIsZero()
    ensures IsHex64(GENESIS) && IsZero(GENESIS)
  {}

  lemma AwareHistory(h: Hasher, chain: seq<AuditEvent>)
    requires Intact(h, chain)
    ensures PriorTime(chain)
         == if chain == [] then None else Some(chain[|chain| - 1].body.occurredAt.instant)
    ensures chain != [] ==> chain[|chain| - 1].body.occurredAt.Aware?
  {
    if chain != [] {
      IntactHasNot(h, chain, |chain| - 1, TimestampNotTimezoneAware);
    }
  }

  lemma SameRun(h: Hasher, chain: seq<AuditEvent>)
    requires Intact(h, chain)
    ensures chain != [] ==> chain[|chain| - 1].body.runId == chain[0].body.runId
  {
    if chain != [] {
      IntactHasNot(h, chain, |chain| - 1, RunIdMismatch);
    }
  }

  lemma IntactIsLinked(h: Hasher, chain: seq<AuditEvent>)
    requires Intact(h, chain)
    ensures Linked(h, chain)
  {
    forall i | 0 <= i < |chain| ensures LinkOk(h, chain, i) {
      IntactHasNot(h, chain, i, PreviousHashInvalid);
      IntactHasNot(h, chain, i, EventHashInvalid);
    }
  }

  /** Two intact chains with one head hash are the same chain, or they exhibit a hash collision. */
  lemma HeadHashDeterminesAuditChain(h: Hasher, xs: seq<AuditEvent>, ys: seq<AuditEvent>)
    requires IsDigestFunction(h) && Intact(h, xs) && Intact(h, ys) && Head(xs) == Head(ys)
    ensures xs == ys || HasCollision(xs, ys)
  {
    IntactIsLinked(h, xs);
    IntactIsLinked(h, ys);
    HeadDeterminesChain(h, xs, ys);
  }

  /** The arguments that would append the event. */
  function EntryOf(b: AuditBody): Entry {
    Entry(b.runId, b.stage, b.occurredAt, b.artifactId, b.candidateId, b.inputSha256, b.outputSha256,
          b.componentVersion, b.policyVersion, b.reasonCodes)
  }

  /**
   * Verification accepts exactly what append could have built, event by event, except that it
   * lets an empty reason code pass.
   */
  lemma VerifiedMeansAppendable(h: Hasher, chain: seq<AuditEvent>)
    requires IsDigestFunction(h) && Intact(h, chain) && chain != []
    ensures var front, last := chain[..|chain| - 1], chain[|chain| - 1];
      && chain == front + [Sealed(h, front, EntryOf(last.body))]
      && (Appendable(h, front, EntryOf(last.body)) <==> "" !in last.body.reasonCodes)
  {
    hide IsHash, HashAllowingZero, IsCanonical;
    var n := |chain| - 1;
    var front, last := chain[..n], chain[n];
    IntactIsClean(h, chain);
    LastEventFits(h, chain);
    CanonicalFixed(last.body.reasonCodes);
    IntactPrefix(h, chain, n);
    AwareHistory(h, front);
    assert chain == front + [last];
    if front != [] {
      assert front[n - 1] == chain[n - 1];
      IntactHasNot(h, chain, n, RunIdMismatch);
      SameRun(h, front);
    }
  }

  lemma LastEventFits(h: Hasher, chain: seq<AuditEvent>)
    requires chain != [] && Clean(h, chain, |chain| - 1)
    ensures var n := |chain| - 1;
      var e, x := chain[n], ExpectedAfter(chain[..n]);
      var b := e.body;
      && b.sequence == n + 1 && e.previous == x.previous && b.inputSha256 == x.input
      && HashAllowingZero(b.inputSha256, n == 0) && IsHash(b.outputSha256) && e.digest == h(b, e.previous)
      && b.occurredAt.Aware? && (x.priorTime.Some? ==> b.occurredAt.instant >= x.priorTime.value)
      && IsCanonical(b.reasonCodes) && !MetadataMissing(b)
  {
    var n := |chain| - 1;
    assert !EventHas(h, chain, n, SequenceInvalid) && !EventHas(h, chain, n, PreviousHashInvalid);
    assert !EventHas(h, chain, n, InputLineageInvalid) && !EventHas(h, chain, n, InputHashInvalid);
    assert !EventHas(h, chain, n, OutputHashInvalid) && !EventHas(h, chain, n, EventHashInvalid);
    assert !EventHas(h, chain, n, TimestampNotTimezoneAware) && !EventHas(h, chain, n, TimeOrderInvalid);
    assert !EventHas(h, chain, n, ReasonCodesNoncanonical) && !EventHas(h, chain, n, MetadataIncomplete);
  }
}
