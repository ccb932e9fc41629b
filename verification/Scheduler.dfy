/**
 * The paper scheduler of scheduler.py, with the one check of reporting.py that the ledger rests
 * on: a report is publishable only if it carries the digest of its own contents. What a report
 * builder returns is an input of each call; the digests of receipts and reports are parameters.
 */
module Scheduler {
  import opened Collections
  import opened Common
  import opened HashChain
  import opened Sorting

  const SCHEDULER_VERSION := "paper-scheduler-1.0.0"

  datatype Status = Complete | FailedClosed | DuplicateSuppressed

  datatype Request = Request(key: string, scheduledFor: Timestamp, environment: string, recoveryOf: Option<string>)

  /** The fields of a receipt that its digest covers. */
  datatype Content = Content(
    key: string,
    scheduledFor: Timestamp,
    status: Status,
    reasonCodes: seq<string>,
    reportSha256: Option<string>,
    version: string,
    recoveryOf: Option<string>)

  datatype Receipt = Receipt(content: Content, receiptSha256: string)

  type Hasher = Content -> string

  ghost predicate IsReceiptDigest(h: Hasher) {
    forall content :: IsHash(h(content))
  }

  /** SHA-256 of a report's canonical text without its own hash. */
  type ReportHasher = string -> string

  ghost predicate IsReportDigest(sha: ReportHasher) {
    forall text :: IsHash(sha(text))
  }

  /** What the validator's checks other than that of the hash come to: codes, or an exception of one of them. */
  datatype Checks = Codes(reasons: seq<string>) | CheckRaised

  /** A report: its canonical text, its hash field (None unless a text), and the other checks. */
  datatype Report = Report(text: string, hash: Option<string>, others: Checks)

  /** What the builder did. */
  datatype BuildOutcome = Raised | Returned(report: Report)

  /** `validate_report`: publishable exactly without reasons. An exception leaves one reason alone. */
  function ReportReasons(sha: ReportHasher, report: Report): seq<string> {
    if report.others.CheckRaised? then ["REPORT_SCHEMA_INVALID"]
    else (if report.hash != Some(sha(report.text)) then ["REPORT_HASH_INVALID"] else []) + report.others.reasons
  }

  datatype RequestError = KeyRequired | TimestampMustBeAware | RecoveryNeedsDistinctKey

  datatype ReceiptReason =
    | KeyMissing
    | TimestampNotAware
    | RecoveryIdentityInvalid
    | ReceiptHashInvalid
    | VersionInvalid
    | ReasonCodesNoncanonical
    | ReceiptHashMismatch
    | CompleteStateInvalid
    | NoncompleteReportHashPresent

  // ---------------------------------------------------------------- receipts

  function MakeReceipt(h: Hasher, request: Request, status: Status, reasons: seq<string>,
                       report: Option<string>): Receipt
  {
    var content := Content(request.key, request.scheduledFor, status, Canonical(reasons), report, SCHEDULER_VERSION,
                           request.recoveryOf);
    Receipt(content, h(content))
  }

  function ValidateReceipt(h: Hasher, r: Receipt): set<ReceiptReason> {
    var c := r.content;
    var expected := MakeReceipt(h, Request(c.key, c.scheduledFor, "paper", c.recoveryOf), c.status, c.reasonCodes,
                                c.reportSha256);
    When(c.key == "", KeyMissing)
    + When(c.scheduledFor.Naive?, TimestampNotAware)
    + When(c.recoveryOf.Some? && (c.recoveryOf.value == "" || c.recoveryOf.value == c.key), RecoveryIdentityInvalid)
    + When(!IsHash(r.receiptSha256), ReceiptHashInvalid)
    + When(c.version != SCHEDULER_VERSION, VersionInvalid)
    + When(c.reasonCodes != Canonical(c.reasonCodes), ReasonCodesNoncanonical)
    + When(r.receiptSha256 != expected.receiptSha256, ReceiptHashMismatch)
    + (if c.status.Complete?
       then When(c.reasonCodes != [] || c.reportSha256.None? || !IsHash(c.reportSha256.value), CompleteStateInvalid)
       else When(c.reportSha256.Some?, NoncompleteReportHashPresent))
  }

  predicate ValidReceipt(h: Hasher, r: Receipt) {
    ValidateReceipt(h, r) == {}
  }

  /** What validity amounts to, field by field. */
  lemma ValidReceiptMeans(h: Hasher, r: Receipt)
    ensures var c := r.content;
      ValidReceipt(h, r) <==>
        && c.key != "" && c.scheduledFor.Aware? && c.recoveryOf != Some("") && c.recoveryOf != Some(c.key)
        && c.version == SCHEDULER_VERSION && IsCanonical(c.reasonCodes)
        && IsHash(r.receiptSha256) && r.receiptSha256 == h(c)
        && (c.status.Complete? ==> c.reasonCodes == [] && c.reportSha256.Some? && IsHash(c.reportSha256.value))
        && (!c.status.Complete? ==> c.reportSha256.None?)
  {
    hide IsHash, Canonical, IsCanonical;
    var c := r.content;
    CanonicalFixed(c.reasonCodes);
    var v := ValidateReceipt(h, r);
    assert v == {} <==> forall reason :: reason !in v;
    assert c.version == SCHEDULER_VERSION && IsCanonical(c.reasonCodes) ==>
             MakeReceipt(h, Request(c.key, c.scheduledFor, "paper", c.recoveryOf), c.status, c.reasonCodes,
                         c.reportSha256).content == c;
  }

  // ---------------------------------------------------------------- one scheduled run

  /** The ledger afterwards, and whether the report builder was called. */
  datatype Execution = Execution(ledger: seq<Receipt>, built: bool)

  /** A receipt of the key's own run, as opposed to a suppressed duplicate. */
  predicate IsRunOf(r: Receipt, key: string) {
    r.content.key == key && !r.content.status.DuplicateSuppressed?
  }

  function RunsOf(ledger: seq<Receipt>, key: string): seq<Receipt> {
    if ledger == [] then []
    else (if IsRunOf(ledger[0], key) then [ledger[0]] else []) + RunsOf(ledger[1..], key)
  }

  predicate AllValid(h: Hasher, ledger: seq<Receipt>) {
    forall i :: 0 <= i < |ledger| ==> ValidReceipt(h, ledger[i])
  }

  /** The recovered run is the only run of its key, failed closed, and was scheduled for the same time. */
  predicate RecoveryAllowed(ledger: seq<Receipt>, request: Request) {
    request.recoveryOf.Some? ==>
      var sources := RunsOf(ledger, request.recoveryOf.value);
      |sources| == 1 && sources[0].content.status.FailedClosed?
      && sources[0].content.scheduledFor == request.scheduledFor
  }

  /** The status, reasons and report hash of the receipt, when no earlier check settles the run. */
  function Evaluated(sha: ReportHasher, outcome: BuildOutcome): (Status, seq<string>, Option<string>) {
    match outcome
    case Raised => (FailedClosed, ["EVALUATION_EXCEPTION"], None)
    case Returned(report) =>
      var reasons := ReportReasons(sha, report);
      if reasons != [] then (FailedClosed, reasons, None)
      else if report.hash.None? then (FailedClosed, ["EVALUATION_EXCEPTION"], None)
      else (Complete, [], report.hash)
  }

  /** A completed run records the true digest of its report, so the check for a missing hash never fires. */
  lemma CompleteMeansTrueDigest(sha: ReportHasher, outcome: BuildOutcome)
    ensures var (status, reasons, report) := Evaluated(sha, outcome);
      && (status.Complete? <==> outcome.Returned? && ReportReasons(sha, outcome.report) == [])
      && (status.Complete? <==> report.Some?)
      && (status.Complete? ==> reasons == [] && report == Some(sha(outcome.report.text)))
  {
  }

  function Accepts(request: Request): Option<RequestError> {
    if request.key == "" then Some(KeyRequired)
    else if request.scheduledFor.Naive? then Some(TimestampMustBeAware)
    else if request.recoveryOf == Some(request.key) then Some(RecoveryNeedsDistinctKey)
    else None
  }

  function ExecuteScheduledRun(h: Hasher, sha: ReportHasher, request: Request, prior: seq<Receipt>,
                               outcome: BuildOutcome)
      : Result<Execution, RequestError>
  {
    var refused := Accepts(request);
    if refused.Some? then Err(refused.value)
    else if !AllValid(h, prior) then
      Ok(Execution(prior + [MakeReceipt(h, request, FailedClosed, ["PRIOR_RECEIPT_INVALID"], None)], false))
    else if RunsOf(prior, request.key) != [] then
      Ok(Execution(prior + [MakeReceipt(h, request, DuplicateSuppressed, ["DUPLICATE_RUN_SUPPRESSED"], None)], false))
    else if !RecoveryAllowed(prior, request) then
      Ok(Execution(prior + [MakeReceipt(h, request, FailedClosed, ["INVALID_RECOVERY_REQUEST"], None)], false))
    else if request.environment != "paper" then
      Ok(Execution(prior + [MakeReceipt(h, request, FailedClosed, ["PAPER_ONLY_VIOLATION"], None)], false))
    else
      var (status, reasons, report) := Evaluated(sha, outcome);
      Ok(Execution(prior + [MakeReceipt(h, request, status, reasons, report)], true))
  }

  // ---------------------------------------------------------------- what a call answers

  /** The report is finished, no check objects to it, and it carries the digest of its own text. */
  predicate Publishable(sha: ReportHasher, outcome: BuildOutcome) {
    outcome.Returned? && outcome.report.others == Codes([]) && outcome.report.hash == Some(sha(outcome.report.text))
  }

  /**
   * A run is complete exactly with a publishable report, whose digest it records; otherwise it fails
   * closed with the report's own reasons, the one for its digest first, or with the one reason for
   * a check or a builder that raised.
   */
  lemma CompleteExactlyWhenPublishable(sha: ReportHasher, outcome: BuildOutcome)
    ensures var (status, reasons, report) := Evaluated(sha, outcome);
      && (status.Complete? <==> Publishable(sha, outcome))
      && (status.Complete? ==> reasons == [] && report == Some(sha(outcome.report.text)))
      && (!status.Complete? ==> status.FailedClosed? && report.None?)
      && (outcome.Raised? ==> reasons == ["EVALUATION_EXCEPTION"])
      && (outcome.Returned? && outcome.report.others.CheckRaised? ==> reasons == ["REPORT_SCHEMA_INVALID"])
      && (outcome.Returned? && outcome.report.others.Codes? ==>
            reasons == if outcome.report.hash == Some(sha(outcome.report.text)) then outcome.report.others.reasons
                       else ["REPORT_HASH_INVALID"] + outcome.report.others.reasons)
  {
  }

  /** Receipt i is a run of the key, as opposed to a suppressed duplicate of one. */
  predicate IsRunAt(ledger: seq<Receipt>, i: nat, key: string) {
    i < |ledger| && ledger[i].content.key == key && ledger[i].content.status in {Complete, FailedClosed}
  }

  ghost predicate HasRun(ledger: seq<Receipt>, key: string) {
    exists i: nat :: IsRunAt(ledger, i, key)
  }

  /** Receipt i is the only run of the key, it failed closed, and it was scheduled for that time. */
  ghost predicate OnlyFailure(ledger: seq<Receipt>, i: nat, key: string, scheduledFor: Timestamp) {
    && IsRunAt(ledger, i, key) && (forall j: nat :: IsRunAt(ledger, j, key) ==> j == i)
    && ledger[i].content.status == FailedClosed && ledger[i].content.scheduledFor == scheduledFor
  }

  lemma {:induction false} RunsExist(ledger: seq<Receipt>, key: string)
    ensures RunsOf(ledger, key) != [] <==> HasRun(ledger, key)
  {
    if ledger != [] {
      var rest := ledger[1..];
      RunsExist(rest, key);
      forall i: nat | IsRunAt(rest, i, key)
        ensures IsRunAt(ledger, i + 1, key)
      {
      }
      forall i: nat | i > 0 && IsRunAt(ledger, i, key)
        ensures IsRunAt(rest, i - 1, key)
      {
      }
      assert IsRunOf(ledger[0], key) <==> IsRunAt(ledger, 0, key);
    }
  }

  lemma {:induction false} OnlyRun(ledger: seq<Receipt>, key: string, i: nat)
    requires IsRunAt(ledger, i, key)
    ensures |RunsOf(ledger, key)| == 1 <==> forall j: nat :: IsRunAt(ledger, j, key) ==> j == i
    ensures |RunsOf(ledger, key)| == 1 ==> RunsOf(ledger, key)[0] == ledger[i]
  {
    var rest := ledger[1..];
    assert forall j: nat :: IsRunAt(rest, j, key) <==> IsRunAt(ledger, j + 1, key);
    assert IsRunOf(ledger[0], key) <==> IsRunAt(ledger, 0, key);
    RunsExist(rest, key);
    if IsRunAt(ledger, 0, key) {
      assert forall j: nat | j > 0 && IsRunAt(ledger, j, key) :: IsRunAt(rest, j - 1, key);
    } else {
      OnlyRun(rest, key, i - 1);
      assert forall j: nat | IsRunAt(ledger, j, key) :: IsRunAt(rest, j - 1, key);
    }
  }

  lemma RecoveryAllowedExactlyWhen(ledger: seq<Receipt>, request: Request)
    ensures RecoveryAllowed(ledger, request) <==>
              request.recoveryOf.None?
              || exists i: nat :: OnlyFailure(ledger, i, request.recoveryOf.value, request.scheduledFor)
  {
    if request.recoveryOf.Some? {
      var key := request.recoveryOf.value;
      RunsExist(ledger, key);
      if i: nat :| IsRunAt(ledger, i, key) {
        OnlyRun(ledger, key, i);
        if RecoveryAllowed(ledger, request) {
          assert OnlyFailure(ledger, i, key, request.scheduledFor);
        }
      }
    }
  }

  /** The receipt of a request: its fields, its codes without repetition, and its digest over all of them. */
  predicate IsReceipt(h: Hasher, r: Receipt, request: Request, status: Status, codes: seq<string>,
                      report: Option<string>)
  {
    && r.content.key == request.key && r.content.scheduledFor == request.scheduledFor
    && r.content.recoveryOf == request.recoveryOf && r.content.version == "paper-scheduler-1.0.0"
    && r.content.status == status && r.content.reportSha256 == report
    && IsCanonical(r.content.reasonCodes)
    && (forall c | c in r.content.reasonCodes :: c in codes) && (forall c | c in codes :: c in r.content.reasonCodes)
    && r.receiptSha256 == h(r.content)
  }

  lemma MadeReceiptIs(h: Hasher, request: Request, status: Status, codes: seq<string>, report: Option<string>)
    ensures IsReceipt(h, MakeReceipt(h, request, status, codes, report), request, status, codes, report)
  {
    CanonicalIs(codes);
  }

  /** The status and codes of the receipt when the report is not built, if some check forbids that. */
  ghost function Forbidden(h: Hasher, prior: seq<Receipt>, request: Request): Option<(Status, string)> {
    if exists i :: 0 <= i < |prior| && !ValidReceipt(h, prior[i]) then Some((FailedClosed, "PRIOR_RECEIPT_INVALID"))
    else if HasRun(prior, request.key) then Some((DuplicateSuppressed, "DUPLICATE_RUN_SUPPRESSED"))
    else if request.recoveryOf.Some?
            && !exists i: nat :: OnlyFailure(prior, i, request.recoveryOf.value, request.scheduledFor)
    then Some((FailedClosed, "INVALID_RECOVERY_REQUEST"))
    else if request.environment != "paper" then Some((FailedClosed, "PAPER_ONLY_VIOLATION"))
    else None
  }

  /**
   * A request without a key, with a naive time or recovering itself is refused. Any other adds one
   * receipt: of the first check that forbids the build, or of what the builder came to.
   */
  lemma EveryCallLeavesItsReceipt(h: Hasher, sha: ReportHasher, request: Request, prior: seq<Receipt>,
                                  outcome: BuildOutcome)
    ensures var r := ExecuteScheduledRun(h, sha, request, prior, outcome);
      && (r == Err(KeyRequired) <==> request.key == "")
      && (r == Err(TimestampMustBeAware) <==> request.key != "" && request.scheduledFor.Naive?)
      && (r == Err(RecoveryNeedsDistinctKey) <==>
            request.key != "" && request.scheduledFor.Aware? && request.recoveryOf == Some(request.key))
      && (r.Ok? ==>
            && |r.value.ledger| == |prior| + 1 && r.value.ledger[..|prior|] == prior
            && var receipt, forbidden := r.value.ledger[|prior|], Forbidden(h, prior, request);
            && (r.value.built <==> forbidden.None?)
            && (forbidden.Some? ==>
                  IsReceipt(h, receipt, request, forbidden.value.0, [forbidden.value.1], None))
            && (forbidden.None? && Publishable(sha, outcome) ==>
                  IsReceipt(h, receipt, request, Complete, [], Some(sha(outcome.report.text))))
            && (forbidden.None? && !Publishable(sha, outcome) ==>
                  IsReceipt(h, receipt, request, FailedClosed, Evaluated(sha, outcome).1, None)))
  {
    hide ValidReceipt, IsReceipt, MakeReceipt, RecoveryAllowed, OnlyFailure, Evaluated;
    RunsExist(prior, request.key);
    RecoveryAllowedExactlyWhen(prior, request);
    CompleteExactlyWhenPublishable(sha, outcome);
    if Accepts(request).None? {
      var forbidden := Forbidden(h, prior, request);
      if forbidden.Some? {
        MadeReceiptIs(h, request, forbidden.value.0, [forbidden.value.1], None);
      } else {
        var (status, reasons, report) := Evaluated(sha, outcome);
        MadeReceiptIs(h, request, status, reasons, report);
      }
    }
  }

  // ---------------------------------------------------------------- runs

  datatype Call = Call(request: Request, outcome: BuildOutcome)

  /** The ledger, and the requests whose report was built, in order. */
  datatype State = State(ledger: seq<Receipt>, built: seq<Request>)

  function Step(h: Hasher, sha: ReportHasher, s: State, call: Call): State {
    var r := ExecuteScheduledRun(h, sha, call.request, s.ledger, call.outcome);
    if r.Err? then s
    else State(r.value.ledger, if r.value.built then s.built + [call.request] else s.built)
  }

  /** The calls one after another, starting from any ledger. */
  function Run(h: Hasher, sha: ReportHasher, start: seq<Receipt>, calls: seq<Call>): State {
    if calls == [] then State(start, []) else Step(h, sha, Run(h, sha, start, calls[..|calls| - 1]), calls[|calls| - 1])
  }

  /**
   * A refused call moves nothing. Any other adds its receipt, and its request to those built exactly
   * if no check forbids that.
   */
  lemma CallMoves(h: Hasher, sha: ReportHasher, s: State, call: Call)
    ensures var r, after := ExecuteScheduledRun(h, sha, call.request, s.ledger, call.outcome), Step(h, sha, s, call);
            && (r.Err? ==> after == s)
            && (r.Ok? ==>
                  && after.ledger == r.value.ledger
                  && after.built == s.built + if Forbidden(h, s.ledger, call.request).None? then [call.request] else [])
  {
    hide ExecuteScheduledRun, Forbidden;
    EveryCallLeavesItsReceipt(h, sha, call.request, s.ledger, call.outcome);
  }

  lemma {:induction false} RunsOfAppend(ledger: seq<Receipt>, r: Receipt, key: string)
    ensures RunsOf(ledger + [r], key) == RunsOf(ledger, key) + if IsRunOf(r, key) then [r] else []
  {
    if ledger == [] {
      assert ledger + [r] == [r] && [r][1..] == [];
    } else {
      RunsOfAppend(ledger[1..], r, key);
      assert (ledger + [r])[1..] == ledger[1..] + [r];
    }
  }

  lemma {:induction false} RunsOfMembers(ledger: seq<Receipt>, key: string, r: Receipt)
    ensures r in RunsOf(ledger, key) <==> r in ledger && IsRunOf(r, key)
  {
    if ledger != [] {
      RunsOfMembers(ledger[1..], key, r);
      assert ledger == [ledger[0]] + ledger[1..];
    }
  }

  /** A step leaves everything alone or appends one receipt of the request. */
  lemma StepAppends(h: Hasher, sha: ReportHasher, s: State, call: Call)
    ensures var t := Step(h, sha, s, call);
      t.ledger == s.ledger || (
        && |t.ledger| == |s.ledger| + 1
        && t.ledger[..|s.ledger|] == s.ledger
        && t.ledger[|s.ledger|].content.key == call.request.key
        && Accepts(call.request).None?)
    ensures Accepts(call.request).Some? ==> Step(h, sha, s, call) == s
  {
    hide Canonical, AllValid, RunsOf, RecoveryAllowed;
  }

  // ---------------------------------------------------------------- at most one build per key

  /** What a build requires and leaves behind. */
  lemma BuildLeavesRun(h: Hasher, sha: ReportHasher, s: State, call: Call)
    requires Step(h, sha, s, call).built != s.built
    ensures Step(h, sha, s, call).built == s.built + [call.request]
    ensures call.request.environment == "paper" && RunsOf(s.ledger, call.request.key) == []
    ensures RunsOf(Step(h, sha, s, call).ledger, call.request.key) != []
  {
    hide Canonical, ValidateReceipt, RecoveryAllowed;
    var (status, reasons, report) := Evaluated(sha, call.outcome);
    RunsOfAppend(s.ledger, MakeReceipt(h, call.request, status, reasons, report), call.request.key);
  }

  /** Every built key has a run on record. */
  ghost predicate BuiltOnRecord(s: State) {
    forall i :: 0 <= i < |s.built| ==> RunsOf(s.ledger, s.built[i].key) != []
  }

  lemma RunsKept(h: Hasher, sha: ReportHasher, s: State, call: Call, key: string)
    requires RunsOf(s.ledger, key) != []
    ensures RunsOf(Step(h, sha, s, call).ledger, key) != []
  {
    StepAppends(h, sha, s, call);
    var t := Step(h, sha, s, call);
    if t.ledger != s.ledger {
      assert t.ledger == s.ledger + [t.ledger[|s.ledger|]];
      RunsOfAppend(s.ledger, t.ledger[|s.ledger|], key);
    }
  }

  lemma {:induction false} BuildsAreOnRecord(h: Hasher, sha: ReportHasher, start: seq<Receipt>, calls: seq<Call>)
    ensures BuiltOnRecord(Run(h, sha, start, calls))
  {
    hide Step;
    if calls != [] {
      var s, call := Run(h, sha, start, calls[..|calls| - 1]), calls[|calls| - 1];
      BuildsAreOnRecord(h, sha, start, calls[..|calls| - 1]);
      var t := Step(h, sha, s, call);
      if t.built != s.built {
        BuildLeavesRun(h, sha, s, call);
      }
      forall i | 0 <= i < |t.built| ensures RunsOf(t.ledger, t.built[i].key) != [] {
        if i < |s.built| {
          RunsKept(h, sha, s, call, s.built[i].key);
        }
      }
    }
  }

  /**
   * Over any sequence of requests, whatever ledger it starts from, whatever the digest and
   * whatever the reports, the report builder runs at most once per idempotency key and only in
   * the paper environment.
   */
  lemma {:induction false} BuilderRunsAtMostOncePerKey(h: Hasher, sha: ReportHasher, start: seq<Receipt>,
                                                       calls: seq<Call>)
    ensures var built := Run(h, sha, start, calls).built;
      && (forall i, j :: 0 <= i < j < |built| ==> built[i].key != built[j].key)
      && (forall i :: 0 <= i < |built| ==> built[i].environment == "paper")
  {
    hide Step;
    if calls != [] {
      var s, call := Run(h, sha, start, calls[..|calls| - 1]), calls[|calls| - 1];
      BuilderRunsAtMostOncePerKey(h, sha, start, calls[..|calls| - 1]);
      BuildsAreOnRecord(h, sha, start, calls[..|calls| - 1]);
      if Step(h, sha, s, call).built != s.built {
        BuildLeavesRun(h, sha, s, call);
      }
    }
  }

  // ---------------------------------------------------------------- which ledgers stay valid

  lemma MadeReceiptValid(h: Hasher, request: Request, status: Status, reasons: seq<string>, report: Option<string>)
    requires IsReceiptDigest(h) && Accepts(request).None?
    requires status.Complete? <==> report.Some?
    requires status.Complete? ==> reasons == []
    ensures ValidReceipt(h, MakeReceipt(h, request, status, reasons, report))
       <==> request.recoveryOf != Some("") && (report.Some? ==> IsHash(report.value))
  {
    hide IsHash, ValidateReceipt, ValidReceipt;
    var r := MakeReceipt(h, request, status, reasons, report);
    ValidReceiptMeans(h, r);
    CanonicalIs(reasons);
    assert IsHash(h(r.content));
  }

  /** The receipt of an accepted request validates exactly when the request does not name an empty recovery source. */
  lemma AppendedValidExactlyWhenNamed(h: Hasher, sha: ReportHasher, s: State, call: Call)
    requires IsReceiptDigest(h) && IsReportDigest(sha) && Accepts(call.request).None?
    ensures var t := Step(h, sha, s, call);
      && |t.ledger| == |s.ledger| + 1 && t.ledger[..|s.ledger|] == s.ledger
      && (ValidReceipt(h, t.ledger[|s.ledger|]) <==> call.request.recoveryOf != Some(""))
  {
    hide IsHash, ValidReceipt, Canonical, RunsOf, Evaluated;
    MadeReceiptValid(h, call.request, FailedClosed, ["PRIOR_RECEIPT_INVALID"], None);
    MadeReceiptValid(h, call.request, DuplicateSuppressed, ["DUPLICATE_RUN_SUPPRESSED"], None);
    MadeReceiptValid(h, call.request, FailedClosed, ["INVALID_RECOVERY_REQUEST"], None);
    MadeReceiptValid(h, call.request, FailedClosed, ["PAPER_ONLY_VIOLATION"], None);
    CompleteMeansTrueDigest(sha, call.outcome);
    var (status, reasons, report) := Evaluated(sha, call.outcome);
    MadeReceiptValid(h, call.request, status, reasons, report);
  }

  /**
   * A ledger grown from an empty one validates exactly when no accepted request named an empty
   * recovery source, whatever the builders returned.
   */
  lemma {:induction false} LedgerValidExactlyWhenNamed(h: Hasher, sha: ReportHasher, calls: seq<Call>)
    requires IsReceiptDigest(h) && IsReportDigest(sha)
    ensures AllValid(h, Run(h, sha, [], calls).ledger)
       <==> forall i :: 0 <= i < |calls| && Accepts(calls[i].request).None? ==> calls[i].request.recoveryOf != Some("")
  {
    hide Step, ValidReceipt, Accepts;
    if calls != [] {
      var n := |calls| - 1;
      LedgerValidExactlyWhenNamed(h, sha, calls[..n]);
      var s := Run(h, sha, [], calls[..n]);
      if Accepts(calls[n].request).None? {
        AppendedValidExactlyWhenNamed(h, sha, s, calls[n]);
        var t := Step(h, sha, s, calls[n]);
        assert t.ledger == s.ledger + [t.ledger[|s.ledger|]];
      } else {
        StepAppends(h, sha, s, calls[n]);
      }
    }
  }

  /**
   * Once a ledger holds an invalid receipt, no later call builds a report: every accepted one
   * fails closed.
   */
  lemma {:induction false} InvalidLedgerFailsClosed(h: Hasher, sha: ReportHasher, start: seq<Receipt>, calls: seq<Call>)
    requires !AllValid(h, start)
    ensures var s := Run(h, sha, start, calls);
      && s.built == [] && |start| <= |s.ledger| && s.ledger[..|start|] == start
      && forall i :: |start| <= i < |s.ledger| ==>
           s.ledger[i].content.status.FailedClosed? && s.ledger[i].content.reasonCodes == ["PRIOR_RECEIPT_INVALID"]
  {
    hide ValidReceipt;
    if calls != [] {
      var n := |calls| - 1;
      InvalidLedgerFailsClosed(h, sha, start, calls[..n]);
      var s := Run(h, sha, start, calls[..n]);
      var bad :| 0 <= bad < |start| && !ValidReceipt(h, start[bad]);
      assert s.ledger[bad] == start[bad];
    }
  }

  // ---------------------------------------------------------------- the shape of a valid ledger

  ghost predicate OneRunPerKey(ledger: seq<Receipt>) {
    forall key :: |RunsOf(ledger, key)| <= 1
  }

  /** A completed recovery points back to the one run of its source, which failed closed at the same time. */
  ghost predicate RecoveryLinked(ledger: seq<Receipt>, i: nat)
    requires i < |ledger|
  {
    var c := ledger[i].content;
    c.status.Complete? && c.recoveryOf.Some? ==>
      exists j :: 0 <= j < i && LinksTo(ledger, c, j)
  }

  predicate LinksTo(ledger: seq<Receipt>, c: Content, j: nat)
    requires j < |ledger| && c.recoveryOf.Some?
  {
    && RunsOf(ledger, c.recoveryOf.value) == [ledger[j]]
    && ledger[j].content.status.FailedClosed?
    && ledger[j].content.scheduledFor == c.scheduledFor
  }

  ghost predicate WellShaped(ledger: seq<Receipt>) {
    OneRunPerKey(ledger) && forall i :: 0 <= i < |ledger| ==> RecoveryLinked(ledger, i)
  }

  /** What the last receipt of a step on a valid ledger says about the ledger before it. */
  lemma NewReceipt(h: Hasher, sha: ReportHasher, s: State, call: Call)
    requires AllValid(h, s.ledger) && Accepts(call.request).None?
    ensures var t := Step(h, sha, s, call);
      && |t.ledger| == |s.ledger| + 1 && t.ledger[..|s.ledger|] == s.ledger
      && var c := t.ledger[|s.ledger|].content;
      && c.key == call.request.key && c.scheduledFor == call.request.scheduledFor
      && c.recoveryOf == call.request.recoveryOf
      && (!c.status.DuplicateSuppressed? ==> RunsOf(s.ledger, c.key) == [])
      && (c.status.Complete? ==> RecoveryAllowed(s.ledger, call.request))
  {
    hide ValidReceipt, Canonical, RunsOf, AllValid;
  }

  lemma StepKeepsShape(h: Hasher, sha: ReportHasher, s: State, call: Call)
    requires AllValid(h, s.ledger) && WellShaped(s.ledger)
    ensures WellShaped(Step(h, sha, s, call).ledger)
  {
    hide Step, ValidReceipt;
    StepAppends(h, sha, s, call);
    var t := Step(h, sha, s, call);
    if t.ledger != s.ledger {
      NewReceipt(h, sha, s, call);
      var r := t.ledger[|s.ledger|];
      assert t.ledger == s.ledger + [r];
      ExtendShape(s.ledger, r, call.request);
    }
  }

  lemma ExtendShape(ledger: seq<Receipt>, r: Receipt, request: Request)
    requires WellShaped(ledger) && r.content.key == request.key && r.content.key != ""
    requires r.content.recoveryOf == request.recoveryOf && request.recoveryOf != Some(request.key)
    requires r.content.scheduledFor == request.scheduledFor
    requires !r.content.status.DuplicateSuppressed? ==> RunsOf(ledger, r.content.key) == []
    requires r.content.status.Complete? ==> RecoveryAllowed(ledger, request)
    ensures WellShaped(ledger + [r])
  {
    hide RunsOf;
    var all := ledger + [r];
    forall key ensures |RunsOf(all, key)| <= 1 {
      RunsOfAppend(ledger, r, key);
    }
    forall i | 0 <= i < |all| ensures RecoveryLinked(all, i) {
      var c := all[i].content;
      if c.status.Complete? && c.recoveryOf.Some? {
        RunsOfAppend(ledger, r, c.recoveryOf.value);
        var j := if i < |ledger| then LinkOf(ledger, i) else SourceOf(ledger, request);
        assert LinksTo(all, c, j);
      }
    }
  }

  ghost function LinkOf(ledger: seq<Receipt>, i: nat): (j: nat)
    requires i < |ledger| && RecoveryLinked(ledger, i)
    requires ledger[i].content.status.Complete? && ledger[i].content.recoveryOf.Some?
    ensures j < i && LinksTo(ledger, ledger[i].content, j)
  {
    var j :| 0 <= j < i && LinksTo(ledger, ledger[i].content, j);
    j
  }

  ghost function SourceOf(ledger: seq<Receipt>, request: Request): (j: nat)
    requires request.recoveryOf.Some? && RecoveryAllowed(ledger, request)
    ensures j < |ledger| && RunsOf(ledger, request.recoveryOf.value) == [ledger[j]]
  {
    var source := RunsOf(ledger, request.recoveryOf.value)[0];
    RunsOfMembers(ledger, request.recoveryOf.value, source);
    var j :| 0 <= j < |ledger| && ledger[j] == source;
    j
  }

  /**
   * In a valid ledger grown from an empty one every key has at most one run, and every completed recovery
   * points to an earlier receipt that is the only run of its key, failed closed, and was
   * scheduled for the same time.
   */
  lemma {:induction false} ValidLedgerIsWellShaped(h: Hasher, sha: ReportHasher, calls: seq<Call>)
    requires IsReceiptDigest(h) && AllValid(h, Run(h, sha, [], calls).ledger)
    ensures WellShaped(Run(h, sha, [], calls).ledger)
  {
    hide Step, ValidReceipt;
    if calls != [] {
      var n := |calls| - 1;
      var s := Run(h, sha, [], calls[..n]);
      StepAppends(h, sha, s, calls[n]);
      var t := Step(h, sha, s, calls[n]);
      assert forall i :: 0 <= i < |s.ledger| ==> t.ledger[i] == s.ledger[i];
      ValidLedgerIsWellShaped(h, sha, calls[..n]);
      StepKeepsShape(h, sha, s, calls[n]);
    }
  }

  /**
   * A recovery does not use up the failed run it points to: whatever is called next, on a valid
   * ledger or under another key, the same failure may be recovered again.
   */
  lemma FailedRunStaysRecoverable(h: Hasher, sha: ReportHasher, s: State, call: Call, again: Request)
    requires again.recoveryOf.Some? && RecoveryAllowed(s.ledger, again)
    requires AllValid(h, s.ledger) || call.request.key != again.recoveryOf.value
    ensures RecoveryAllowed(Step(h, sha, s, call).ledger, again)
  {
    hide Step, RunsOf, AllValid;
    StepAppends(h, sha, s, call);
    var t := Step(h, sha, s, call);
    if t.ledger != s.ledger {
      if AllValid(h, s.ledger) {
        NewReceipt(h, sha, s, call);
      }
      assert t.ledger == s.ledger + [t.ledger[|s.ledger|]];
      RunsOfAppend(s.ledger, t.ledger[|s.ledger|], again.recoveryOf.value);
    }
  }
}
