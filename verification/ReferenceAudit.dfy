/** The replay gate of replay.py, and the fold of audit.py that turns an accepted replay into a chain. */
module ReferenceAudit {
  import opened Collections
  import opened Common
  import opened HashChain
  import opened Sorting
  import opened AuditChain

  datatype ReplayKind =
    | SourcePublished | SystemReceived | ValidationComplete | CandidateCreated | RiskComplete
    | ComplianceComplete | HumanPending | HumanApproved | PaperFill | Exit

  function KindName(kind: ReplayKind): string {
    match kind
    case SourcePublished => "SOURCE_PUBLISHED"
    case SystemReceived => "SYSTEM_RECEIVED"
    case ValidationComplete => "VALIDATION_COMPLETE"
    case CandidateCreated => "CANDIDATE_CREATED"
    case RiskComplete => "RISK_COMPLETE"
    case ComplianceComplete => "COMPLIANCE_COMPLETE"
    case HumanPending => "HUMAN_PENDING"
    case HumanApproved => "HUMAN_APPROVED"
    case PaperFill => "PAPER_FILL"
    case Exit => "EXIT"
  }

  const BEFORE_DECISION := [SourcePublished, SystemReceived, ValidationComplete, CandidateCreated, RiskComplete,
                            ComplianceComplete]
  const PENDING_ORDER := BEFORE_DECISION + [HumanPending]
  const EXECUTED_ORDER := BEFORE_DECISION + [HumanApproved, PaperFill, Exit]

  datatype ReplayEvent = ReplayEvent(kind: ReplayKind, eventTime: Timestamp, receivedTime: Timestamp,
                                     artifactId: string)

  datatype ReplayReason =
    | StageOrderInvalid | DuplicateStage | ReplayTimestampNotAware
    | ReceivedBeforeEvent | ReceiveOrderInvalid | ArtifactMissing

  function Kinds(events: seq<ReplayEvent>): (kinds: seq<ReplayKind>)
    ensures |kinds| == |events| && forall i :: 0 <= i < |events| ==> kinds[i] == events[i].kind
  {
    if events == [] then [] else [events[0].kind] + Kinds(events[1..])
  }

  predicate AllAware(events: seq<ReplayEvent>) {
    forall i :: 0 <= i < |events| ==> events[i].eventTime.Aware? && events[i].receivedTime.Aware?
  }

  predicate ReceivedInOrder(events: seq<ReplayEvent>) {
    forall i :: 0 <= i < |events| - 1 ==> events[i].receivedTime.instant <= events[i + 1].receivedTime.instant
  }

  predicate InSomeOrder(kinds: seq<ReplayKind>) {
    kinds == PENDING_ORDER || kinds == EXECUTED_ORDER
  }

  predicate Repeats(kinds: seq<ReplayKind>) {
    |set k | k in kinds| != |kinds|
  }

  predicate ReceivedEarly(events: seq<ReplayEvent>) {
    exists i :: 0 <= i < |events| && events[i].receivedTime.instant < events[i].eventTime.instant
  }

  predicate LacksArtifact(events: seq<ReplayEvent>) {
    exists i :: 0 <= i < |events| && events[i].artifactId == ""
  }

  function ValidateReplay(events: seq<ReplayEvent>): set<ReplayReason> {
    When(!InSomeOrder(Kinds(events)), StageOrderInvalid)
    + When(Repeats(Kinds(events)), DuplicateStage)
    + When(!AllAware(events), ReplayTimestampNotAware)
    + When(AllAware(events) && ReceivedEarly(events), ReceivedBeforeEvent)
    + When(AllAware(events) && !ReceivedInOrder(events), ReceiveOrderInvalid)
    + When(LacksArtifact(events), ArtifactMissing)
  }

  /** The output hash recorded for an artifact: its own identity if that is 64 hex digits, else its digest. */
  function OutputHash(sha: string -> string, artifactId: string): string {
    if IsHex64(artifactId) then artifactId else sha(artifactId)
  }

  ghost predicate IsTextDigest(sha: string -> string) {
    forall text :: IsHash(sha(text))
  }

  /** An artifact identity that audit.py passes on as an all-zero output hash. */
  predicate ZeroHash(artifactId: string) {
    IsHex64(artifactId) && IsZero(artifactId)
  }

  function Min3(a: nat, b: nat, c: nat): nat {
    var m := if a <= b then a else b;
    if m <= c then m else c
  }

  /** Who records: the run, its candidate, and the versions of the components and policies, stage by stage. */
  datatype Recorder = Recorder(runId: string, candidateId: string, components: seq<string>, policies: seq<string>)

  predicate Versioned(w: Recorder, i: nat) {
    i < |w.components| && i < |w.policies|
  }

  /** The chain's event i records the replay's event. */
  predicate Records(sha: string -> string, recorded: AuditEvent, event: ReplayEvent, w: Recorder, i: nat)
    requires Versioned(w, i)
  {
    var b := recorded.body;
    && b.stage == KindName(event.kind) && b.occurredAt == event.receivedTime
    && b.artifactId == event.artifactId && b.outputSha256 == OutputHash(sha, event.artifactId)
    && b.runId == w.runId && b.candidateId == w.candidateId
    && b.componentVersion == w.components[i] && b.policyVersion == w.policies[i] && b.reasonCodes == []
  }

  /** The entry that stands for an event of the replay. */
  function EntryFor(sha: string -> string, event: ReplayEvent, w: Recorder, i: nat,
                    priorOutput: string): AuditChain.Entry
    requires Versioned(w, i)
  {
    Entry(w.runId, KindName(event.kind), event.receivedTime, event.artifactId, w.candidateId, priorOutput,
          OutputHash(sha, event.artifactId), w.components[i], w.policies[i], [])
  }

  /** The chain is what the first n events were folded into. */
  ghost predicate Folded(h: Hasher, sha: string -> string, chain: seq<AuditEvent>, events: seq<ReplayEvent>,
                         w: Recorder, n: nat)
    requires n <= |events| && n <= |w.components| && n <= |w.policies|
  {
    && Intact(h, chain) && |chain| == n
    && HashAllowingZero(LastOutput(chain), n == 0)
    && forall j: nat | j < n :: !ZeroHash(events[j].artifactId) && Records(sha, chain[j], events[j], w, j)
  }

  /** The name of stage i of an accepted replay, which ends pending or goes on to the exit. */
  function StageName(i: nat, stages: nat): string
    requires i < stages && stages in {7, 9}
  {
    if i < 6 then
      ["SOURCE_PUBLISHED", "SYSTEM_RECEIVED", "VALIDATION_COMPLETE", "CANDIDATE_CREATED", "RISK_COMPLETE",
       "COMPLIANCE_COMPLETE"][i]
    else if stages == 7 then "HUMAN_PENDING"
    else ["HUMAN_APPROVED", "PAPER_FILL", "EXIT"][i - 6]
  }

  lemma StagesAre(events: seq<ReplayEvent>)
    requires ValidateReplay(events) == {}
    ensures |events| in {7, 9} && forall i: nat | i < |events| :: KindName(events[i].kind) == StageName(i, |events|)
  {
    hide ValidateReplay, Kinds, KindName, StageName;
    ReasonsOf(events);
    StageOrderIs(events);
  }

  /**
   * Over an accepted replay, building the chain fails exactly when some folded artifact identity
   * is 64 zeros; otherwise it yields an intact chain that records one stage after the other, as many
   * as there are events and versions for.
   */
  method BuildAudit(h: Hasher, sha: string -> string, events: seq<ReplayEvent>, w: Recorder)
      returns (r: Result<seq<AuditEvent>, AppendError>)
    requires IsDigestFunction(h) && IsTextDigest(sha)
    requires ValidateReplay(events) == {} && w.runId != "" && w.candidateId != ""
    requires "" !in w.components && "" !in w.policies
    ensures |events| in {7, 9}
    ensures r.Ok? <==> forall i: nat | i < |events| && Versioned(w, i) :: !ZeroHash(events[i].artifactId)
    ensures r.Err? ==> r.error == HashesInvalid
    ensures r.Ok? ==> Intact(h, r.value) && |r.value| <= |events|
    ensures r.Ok? ==> forall i: nat :: i < |r.value| <==> i < |events| && Versioned(w, i)
    ensures r.Ok? ==> forall i: nat | i < |r.value| :: Records(sha, r.value[i], events[i], w, i)
    ensures r.Ok? ==> forall i: nat | i < |r.value| :: r.value[i].body.stage == StageName(i, |events|)
  {
    StagesAre(events);
    hide Folded, EntryFor, Intact, Appendable, ZeroHash, ValidateReplay, Records, Sealed, LastOutput,
         IsDigestFunction, IsTextDigest, Objects, KindName, StageName, OutputHash, Versioned;
    var n := Min3(|events|, |w.components|, |w.policies|);
    FoldedAre(events, w);
    var chain: seq<AuditEvent> := [];
    NothingFolded(h, sha, events, w);
    var priorOutput := GENESIS;
    for i := 0 to n
      invariant Folded(h, sha, chain, events, w, i) && priorOutput == LastOutput(chain)
    {
      var event := events[i];
      var outputHash := OutputHash(sha, event.artifactId);
      var entry := EntryFor(sha, event, w, i, priorOutput);
      FoldStep(h, sha, chain, events, w, i);
      var appended := AppendAuditEvent(h, chain, entry);
      if appended.Err? {
        OnlyTheHash(h, sha, chain, events, w, i, appended.error);
        return Err(appended.error);
      }
      chain := appended.value;
      priorOutput := outputHash;
    }
    FoldedMeans(h, sha, chain, events, w, n);
    r := Ok(chain);
  }

  lemma FoldedAre(events: seq<ReplayEvent>, w: Recorder)
    ensures var n := Min3(|events|, |w.components|, |w.policies|);
            && n <= |events| && n <= |w.components| && n <= |w.policies|
            && forall i: nat :: i < n <==> i < |events| && Versioned(w, i)
    ensures forall i: nat | Versioned(w, i) :: i < |w.components| && i < |w.policies|
  {
  }

  /** Every field of the recorded event but its place in the chain. */
  lemma RecordsMean(sha: string -> string, recorded: AuditEvent, event: ReplayEvent, w: Recorder, i: nat)
    requires Versioned(w, i) && Records(sha, recorded, event, w, i)
    ensures recorded.body
         == AuditBody(recorded.body.sequence, w.runId, KindName(event.kind), event.receivedTime, event.artifactId,
                      w.candidateId, recorded.body.inputSha256,
                      if IsHex64(event.artifactId) then event.artifactId else sha(event.artifactId),
                      w.components[i], w.policies[i], [])
  {
  }

  lemma NothingFolded(h: Hasher, sha: string -> string, events: seq<ReplayEvent>, w: Recorder)
    ensures Folded(h, sha, [], events, w, 0) && LastOutput([]) == GENESIS
  {
    EmptyIsIntact(h);
  }

  lemma FoldedMeans(h: Hasher, sha: string -> string, chain: seq<AuditEvent>, events: seq<ReplayEvent>, w: Recorder,
                    n: nat)
    requires n <= |events| && n <= |w.components| && n <= |w.policies| && Folded(h, sha, chain, events, w, n)
    requires |events| in {7, 9}
    requires forall i: nat | i < |events| :: KindName(events[i].kind) == StageName(i, |events|)
    ensures Intact(h, chain) && |chain| == n
    ensures forall j: nat | j < n :: !ZeroHash(events[j].artifactId) && Records(sha, chain[j], events[j], w, j)
    ensures forall j: nat | j < n :: chain[j].body.stage == StageName(j, |events|)
  {
    hide KindName, StageName;
  }

  /** An append of the fold fails over the hashes, if at all. */
  lemma OnlyTheHash(h: Hasher, sha: string -> string, chain: seq<AuditEvent>, events: seq<ReplayEvent>, w: Recorder,
                    i: nat, error: AppendError)
    requires IsDigestFunction(h) && IsTextDigest(sha) && ValidateReplay(events) == {} && i < |events|
    requires Versioned(w, i) && w.runId != "" && w.candidateId != "" && w.components[i] != "" && w.policies[i] != ""
    requires Folded(h, sha, chain, events, w, i)
    requires Objects(h, chain, EntryFor(sha, events[i], w, i, LastOutput(chain)), error)
    ensures error == HashesInvalid
  {
    AcceptedReplay(events, i);
    KindNamed(events[i].kind);
    hide IsHash, IsHex64, IsZero, ZeroHash, ValidateReplay, Canonical, KindName, OutputHash, IsDigestFunction,
         IsTextDigest, EventHas;
    if i > 0 {
      assert Records(sha, chain[i - 1], events[i - 1], w, i - 1);
    }
  }

  /** The next event can be appended exactly when its artifact identity is not all zeros, and then is folded in. */
  lemma FoldStep(h: Hasher, sha: string -> string, chain: seq<AuditEvent>, events: seq<ReplayEvent>, w: Recorder,
                 i: nat)
    requires IsDigestFunction(h) && IsTextDigest(sha) && ValidateReplay(events) == {}
    requires w.runId != "" && w.candidateId != ""
    requires i < |events| && Versioned(w, i) && w.components[i] != "" && w.policies[i] != ""
    requires Folded(h, sha, chain, events, w, i)
    ensures var entry := EntryFor(sha, events[i], w, i, LastOutput(chain));
            && (Appendable(h, chain, entry) <==> !ZeroHash(events[i].artifactId))
            && (Appendable(h, chain, entry) ==>
                  && Folded(h, sha, chain + [Sealed(h, chain, entry)], events, w, i + 1)
                  && LastOutput(chain + [Sealed(h, chain, entry)]) == OutputHash(sha, events[i].artifactId))
  {
    hide IsHash, IsHex64, IsZero, Intact, Appendable, ZeroHash, ValidateReplay, KindName, OutputHash,
         IsDigestFunction, IsTextDigest;
    var entry := EntryFor(sha, events[i], w, i, LastOutput(chain));
    AcceptedReplay(events, i);
    KindNamed(events[i].kind);
    if i > 0 {
      assert Records(sha, chain[i - 1], events[i - 1], w, i - 1);
    }
    EntryAppendable(h, sha, chain, entry);
    if Appendable(h, chain, entry) {
      AppendKeepsIntact(h, chain, entry);
    }
  }

  lemma EntryAppendable(h: Hasher, sha: string -> string, chain: seq<AuditEvent>, entry: AuditChain.Entry)
    requires IsTextDigest(sha) && Intact(h, chain) && Continues(chain, entry)
    requires entry.occurredAt.Aware? && entry.reasonCodes == [] && HashAllowingZero(entry.inputSha256, chain == [])
    requires entry.outputSha256 == OutputHash(sha, entry.artifactId)
    requires !MetadataMissing(BodyOf(0, entry))
    ensures Appendable(h, chain, entry) <==> !ZeroHash(entry.artifactId)
    ensures !ZeroHash(entry.artifactId) ==> HashAllowingZero(entry.outputSha256, false)
  {
    hide IsHash, Intact, ZeroHash;
    OutputHashIsHash(sha, entry.artifactId);
  }

  lemma KindNamed(kind: ReplayKind)
    ensures KindName(kind) != ""
  {}

  lemma EmptyIsIntact(h: Hasher)
    ensures Intact(h, []) && HashAllowingZero(GENESIS, true)
  {
    GenesisIsZero();
  }

  lemma OutputHashIsHash(sha: string -> string, artifactId: string)
    requires IsTextDigest(sha)
    ensures IsHash(OutputHash(sha, artifactId)) <==> !ZeroHash(artifactId)
  {
    assert IsHash(sha(artifactId));
  }

  lemma AcceptedReplay(events: seq<ReplayEvent>, i: nat)
    requires ValidateReplay(events) == {} && i < |events|
    ensures events[i].receivedTime.Aware? && events[i].artifactId != ""
    ensures i > 0 ==> events[i - 1].receivedTime.instant <= events[i].receivedTime.instant
  {
    assert StageOrderInvalid !in ValidateReplay(events);
    assert ReplayTimestampNotAware !in ValidateReplay(events);
    assert ReceiveOrderInvalid !in ValidateReplay(events);
    assert ArtifactMissing !in ValidateReplay(events);
    if i > 0 {
      var j := i - 1;
      assert events[j].receivedTime.instant <= events[j + 1].receivedTime.instant;
    }
  }

  // ---------------------------------------------------------------- the replay gate

  /** What of a replay gives the reason; times are compared only where all carry a zone. */
  ghost predicate ReplayGives(events: seq<ReplayEvent>, reason: ReplayReason) {
    match reason
    case StageOrderInvalid =>
      !(|events| in {7, 9} && forall i: nat | i < |events| :: KindName(events[i].kind) == StageName(i, |events|))
    case DuplicateStage => exists i, j | 0 <= i < j < |events| :: events[i].kind == events[j].kind
    case ReplayTimestampNotAware => exists e | e in events :: e.eventTime.Naive? || e.receivedTime.Naive?
    case ReceivedBeforeEvent =>
      && (forall e | e in events :: e.eventTime.Aware? && e.receivedTime.Aware?)
      && exists e | e in events :: e.receivedTime.instant < e.eventTime.instant
    case ReceiveOrderInvalid =>
      && (forall e | e in events :: e.eventTime.Aware? && e.receivedTime.Aware?)
      && exists i | 0 < i < |events| :: events[i].receivedTime.instant < events[i - 1].receivedTime.instant
    case ArtifactMissing => exists e | e in events :: e.artifactId == ""
  }

  /** The reasons, as the gate adds them. */
  lemma ReasonsOf(events: seq<ReplayEvent>)
    ensures var all := ValidateReplay(events);
            && (StageOrderInvalid in all <==> !InSomeOrder(Kinds(events)))
            && (DuplicateStage in all <==> Repeats(Kinds(events)))
            && (ReplayTimestampNotAware in all <==> !AllAware(events))
            && (ReceivedBeforeEvent in all <==> AllAware(events) && ReceivedEarly(events))
            && (ReceiveOrderInvalid in all <==> AllAware(events) && !ReceivedInOrder(events))
            && (ArtifactMissing in all <==> LacksArtifact(events))
  {
    hide AllAware, ReceivedInOrder, ReceivedEarly, LacksArtifact, InSomeOrder, Repeats, Kinds;
  }

  /** A replay is given a reason exactly when something in it gives that. */
  lemma ReplayReasonsAre(events: seq<ReplayEvent>, reason: ReplayReason)
    ensures reason in ValidateReplay(events) <==> ReplayGives(events, reason)
  {
    ReasonsOf(events);
    StageOrderIs(events);
    Repetition(Kinds(events));
    OutOfOrder(events);
    ZonesAre(events);
    hide KindName, StageName, ValidateReplay, AllAware, ReceivedInOrder;
  }

  lemma ZonesAre(events: seq<ReplayEvent>)
    ensures AllAware(events) <==> forall e | e in events :: e.eventTime.Aware? && e.receivedTime.Aware?
  {
  }

  /** Both orders, stage by stage. */
  lemma OrdersAre(i: nat)
    ensures |PENDING_ORDER| == 7 && |EXECUTED_ORDER| == 9
    ensures i < 7 ==> KindName(PENDING_ORDER[i]) == StageName(i, 7)
    ensures i < 9 ==> KindName(EXECUTED_ORDER[i]) == StageName(i, 9)
  {
  }

  lemma StageOrderIs(events: seq<ReplayEvent>)
    ensures (Kinds(events) == PENDING_ORDER || Kinds(events) == EXECUTED_ORDER)
       <==> |events| in {7, 9} && forall i: nat | i < |events| :: KindName(events[i].kind) == StageName(i, |events|)
  {
    var kinds := Kinds(events);
    var order := if |events| == 7 then PENDING_ORDER else EXECUTED_ORDER;
    forall i: nat
      ensures |PENDING_ORDER| == 7 && |EXECUTED_ORDER| == 9
      ensures i < |events| == |order| ==>
                (KindName(kinds[i]) == StageName(i, |events|) <==> kinds[i] == order[i])
    {
      OrdersAre(i);
      if i < |events| == |order| {
        NamesDiffer(kinds[i], order[i]);
      }
    }
    hide KindName, StageName;
    if |events| in {7, 9} && forall i: nat | i < |events| :: KindName(events[i].kind) == StageName(i, |events|) {
      forall i: nat | i < |events|
        ensures kinds[i] == order[i]
      {
        assert kinds[i] == events[i].kind;
      }
      assert kinds == order;
    }
  }

  lemma NamesDiffer(a: ReplayKind, b: ReplayKind)
    ensures KindName(a) == KindName(b) ==> a == b
  {
  }

  lemma {:induction false} Repetition(kinds: seq<ReplayKind>)
    ensures |set k | k in kinds| <= |kinds|
    ensures |set k | k in kinds| != |kinds| <==> exists i, j | 0 <= i < j < |kinds| :: kinds[i] == kinds[j]
  {
    if kinds != [] {
      var n := |kinds| - 1;
      var before := kinds[..n];
      Repetition(before);
      OneMoreKind(before, kinds[n]);
      assert kinds == before + [kinds[n]];
      if kinds[n] in before {
        var i :| 0 <= i < n && before[i] == kinds[n];
        assert kinds[i] == kinds[n];
      } else {
        assert forall i | 0 <= i < n :: before[i] in before && before[i] == kinds[i];
      }
    }
  }

  lemma OneMoreKind(kinds: seq<ReplayKind>, last: ReplayKind)
    ensures |set k | k in kinds + [last]| == |set k | k in kinds| + if last in kinds then 0 else 1
  {
    assert (set k | k in kinds + [last]) == (set k | k in kinds) + {last};
  }

  lemma OutOfOrder(events: seq<ReplayEvent>)
    ensures !ReceivedInOrder(events)
       <==> exists i | 0 < i < |events| :: events[i].receivedTime.instant < events[i - 1].receivedTime.instant
  {
    if i :| 0 < i < |events| && events[i].receivedTime.instant < events[i - 1].receivedTime.instant {
      var j := i - 1;
      assert events[j].receivedTime.instant > events[j + 1].receivedTime.instant;
    }
  }
}
