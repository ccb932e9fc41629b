/** What the audit chain's answers say, field by field: every reason, every refusal, and the event that is added. */
module AuditAnswers {
  import opened Common
  import opened HashChain
  import opened Sorting
  import opened AuditChain

  // ---------------------------------------------------------------- hashes

  predicate HexDigit(c: char) {
    '0' <= c <= '9' || 'a' <= c <= 'f' || 'A' <= c <= 'F'
  }

  /** 64 hexadecimal digits. */
  predicate SixtyFourDigits(s: string) {
    |s| == 64 && forall k | 0 <= k < 64 :: HexDigit(s[k])
  }

  predicate OnlyZeros(s: string) {
    forall k | 0 <= k < |s| :: s[k] == '0'
  }

  /** Before the first event stand 64 zeros. */
  predicate IsGenesis(s: string) {
    |s| == 64 && OnlyZeros(s)
  }

  lemma HashMeans(s: string)
    ensures IsHex64(s) <==> SixtyFourDigits(s)
    ensures IsHash(s) <==> SixtyFourDigits(s) && !OnlyZeros(s)
    ensures s == GENESIS <==> IsGenesis(s)
  {
  }

  // ---------------------------------------------------------------- verification

  /** A later event is earlier than i, and nothing between them has a time zone. */
  predicate RunsBackAt(chain: seq<AuditEvent>, j: nat, i: nat)
    requires j < i < |chain|
  {
    && chain[j].body.occurredAt.Aware? && chain[i].body.occurredAt.Aware?
    && chain[i].body.occurredAt.instant < chain[j].body.occurredAt.instant
    && forall k | j < k < i :: chain[k].body.occurredAt.Naive?
  }

  predicate SomethingMissing(b: AuditBody) {
    "" in [b.runId, b.stage, b.artifactId, b.candidateId, b.componentVersion, b.policyVersion]
  }

  /** Event i is what gives the chain the reason. */
  ghost predicate IsCause(h: Hasher, chain: seq<AuditEvent>, i: nat, reason: AuditReason)
    requires i < |chain|
  {
    var e, b := chain[i], chain[i].body;
    match reason
    case RunIdMismatch => b.runId != chain[0].body.runId
    case SequenceInvalid => b.sequence != i + 1
    case PreviousHashInvalid =>
      || (i == 0 && !IsGenesis(e.previous))
      || (i > 0 && (e.previous != chain[i - 1].digest || !SixtyFourDigits(e.previous) || OnlyZeros(e.previous)))
    case InputLineageInvalid =>
      if i == 0 then !IsGenesis(b.inputSha256) else b.inputSha256 != chain[i - 1].body.outputSha256
    case InputHashInvalid => !SixtyFourDigits(b.inputSha256) || (i > 0 && OnlyZeros(b.inputSha256))
    case OutputHashInvalid => !SixtyFourDigits(b.outputSha256) || OnlyZeros(b.outputSha256)
    case EventHashInvalid => e.digest != h(b, e.previous) || !SixtyFourDigits(e.digest) || OnlyZeros(e.digest)
    case TimestampNotTimezoneAware => b.occurredAt.Naive?
    case TimeOrderInvalid => exists j: nat | j < i :: RunsBackAt(chain, j, i)
    case ReasonCodesNoncanonical =>
      exists k, m | 0 <= k < m < |b.reasonCodes| ::
        b.reasonCodes[k] == b.reasonCodes[m] || !StringLe(b.reasonCodes[k], b.reasonCodes[m])
    case MetadataIncomplete => SomethingMissing(b)
  }

  /** The last event before i with a time zone, if there is one. */
  lemma {:induction false} PriorTimeAt(chain: seq<AuditEvent>, i: nat) returns (j: Option<nat>)
    requires i <= |chain|
    ensures j.None? ==> PriorTime(chain[..i]).None? && forall k | 0 <= k < i :: chain[k].body.occurredAt.Naive?
    ensures j.Some? ==> j.value < i && chain[j.value].body.occurredAt.Aware?
    ensures j.Some? ==> forall k | j.value < k < i :: chain[k].body.occurredAt.Naive?
    ensures j.Some? ==> PriorTime(chain[..i]) == Some(chain[j.value].body.occurredAt.instant)
  {
    if i == 0 {
      j := None;
    } else {
      assert chain[..i][..i - 1] == chain[..i - 1];
      if chain[i - 1].body.occurredAt.Aware? {
        j := Some(i - 1);
      } else {
        j := PriorTimeAt(chain, i - 1);
      }
    }
  }

  lemma TimeOrderIs(chain: seq<AuditEvent>, i: nat)
    requires i < |chain|
    ensures HasBadContent(chain[i].body, PriorTime(chain[..i]), TimeOrderInvalid)
       <==> exists j: nat | j < i :: RunsBackAt(chain, j, i)
  {
    hide PriorTime;
    var last := PriorTimeAt(chain, i);
    if j: nat :| j < i && RunsBackAt(chain, j, i) {
      assert last.Some? && j == last.value;
    }
    if HasBadContent(chain[i].body, PriorTime(chain[..i]), TimeOrderInvalid) {
      assert RunsBackAt(chain, last.value, i);
    }
  }

  lemma CauseIs(h: Hasher, chain: seq<AuditEvent>, i: nat, reason: AuditReason)
    requires i < |chain|
    ensures EventHas(h, chain, i, reason) <==> IsCause(h, chain, i, reason)
  {
    hide IsHash, IsHex64, SixtyFourDigits, OnlyZeros, IsGenesis, StringLe, PriorTime, RunsBackAt, IsZero;
    var e, before := chain[i], chain[..i];
    HashMeans(e.previous);
    HashMeans(e.body.inputSha256);
    HashMeans(e.body.outputSha256);
    HashMeans(e.digest);
    ZerosAre(e.previous);
    ZerosAre(e.body.inputSha256);
    TimeOrderIs(chain, i);
    if i > 0 {
      assert before[|before| - 1] == chain[i - 1];
    }
  }

  lemma ZerosAre(s: string)
    ensures IsGenesis(s) <==> SixtyFourDigits(s) && OnlyZeros(s)
    ensures IsZero(s) <==> OnlyZeros(s)
  {
  }

  /** A reason is reported exactly when some event is its cause. */
  lemma ReasonIsReportedExactlyWhen(h: Hasher, chain: seq<AuditEvent>, reason: AuditReason)
    ensures ChainHas(h, chain, reason) <==> exists i: nat | i < |chain| :: IsCause(h, chain, i, reason)
  {
    hide EventHas, IsCause;
    forall i: nat | i < |chain|
      ensures EventHas(h, chain, i, reason) <==> IsCause(h, chain, i, reason)
    {
      CauseIs(h, chain, i, reason);
    }
  }

  // ---------------------------------------------------------------- append

  /** The checks of an append in their order. */
  function Checks(): seq<AppendError> {
    [TimestampNotAware, IdentityMissing, ChainInvalid, RunIdentityChanged, TimeMovedBackward, InputNotPriorOutput,
     ReasonCodeEmpty, HashesInvalid]
  }

  lemma PlacesAre(i: nat)
    requires i < |Checks()|
    ensures Place(Checks()[i]) == i
  {
  }

  /** The error of a refused append objects, and no check before it does. */
  lemma FirstObjectionMeans(h: Hasher, chain: seq<AuditEvent>, n: Entry, error: AppendError)
    ensures ObjectsFirst(h, chain, n, error)
       <==> && Objects(h, chain, n, error)
            && forall i, j | 0 <= i < j < |Checks()| && Checks()[j] == error :: !Objects(h, chain, n, Checks()[i])
  {
    hide Place, Objects, Checks;
    forall i, j | 0 <= i < j < |Checks()| && Checks()[j] == error
      ensures Place(Checks()[i]) < Place(error)
    {
      PlacesAre(i);
      PlacesAre(j);
    }
    forall e: AppendError | Place(e) < Place(error)
      ensures exists i, j | 0 <= i < j < |Checks()| :: Checks()[i] == e && Checks()[j] == error
    {
      EveryCheck(e);
      EveryCheck(error);
    }
  }

  lemma EveryCheck(error: AppendError)
    ensures Place(error) < |Checks()| && Checks()[Place(error)] == error
  {
  }

  /** An append succeeds exactly when no check objects. */
  lemma AppendsUnlessObjected(h: Hasher, chain: seq<AuditEvent>, n: Entry)
    ensures Appendable(h, chain, n) <==> forall error :: !Objects(h, chain, n, error)
  {
    if !Appendable(h, chain, n) {
      var error := SomeObjection(h, chain, n);
    } else {
      HashesAreChecked(h, chain, n);
      hide IsHex64, IsZero, Canonical, EventHas, IsHash, HashAllowingZero;
    }
  }

  lemma SomeObjection(h: Hasher, chain: seq<AuditEvent>, n: Entry) returns (error: AppendError)
    requires !Appendable(h, chain, n)
    ensures Objects(h, chain, n, error)
  {
    HashesAreChecked(h, chain, n);
    hide IsHex64, IsZero, Canonical, EventHas, IsHash, HashAllowingZero;
    if !Intact(h, chain) {
      error := ChainInvalid;
    } else if n.occurredAt.Naive? {
      error := TimestampNotAware;
    } else if Objects(h, chain, n, IdentityMissing) {
      error := IdentityMissing;
    } else if Objects(h, chain, n, RunIdentityChanged) {
      error := RunIdentityChanged;
    } else if Objects(h, chain, n, TimeMovedBackward) {
      error := TimeMovedBackward;
    } else if Objects(h, chain, n, InputNotPriorOutput) {
      error := InputNotPriorOutput;
    } else if "" in n.reasonCodes {
      error := ReasonCodeEmpty;
    } else {
      error := HashesInvalid;
    }
  }

  /** The event that is added: the entry under the next number, tied to the last digest, sealed by its own. */
  lemma AddedEventIs(h: Hasher, chain: seq<AuditEvent>, n: Entry)
    ensures var e := Sealed(h, chain, n);
            && e.body.sequence == |chain| + 1
            && e.body.runId == n.runId && e.body.stage == n.stage && e.body.occurredAt == n.occurredAt
            && e.body.artifactId == n.artifactId && e.body.candidateId == n.candidateId
            && e.body.inputSha256 == n.inputSha256 && e.body.outputSha256 == n.outputSha256
            && e.body.componentVersion == n.componentVersion && e.body.policyVersion == n.policyVersion
            && IsCanonical(e.body.reasonCodes) && (forall c :: c in e.body.reasonCodes <==> c in n.reasonCodes)
            && (if chain == [] then IsGenesis(e.previous) else e.previous == chain[|chain| - 1].digest)
            && e.digest == h(e.body, e.previous)
  {
    HashMeans(Head(chain));
    CanonicalIs(n.reasonCodes);
  }
}
