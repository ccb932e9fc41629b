/**
 * The paper audit journal: one JSON object a line, read back and verified as a whole before every
 * append. A write either happens or fails without a trace.
 */
module AuditStore {
  import opened Common
  import opened HashChain
  import opened AuditChain

  // ---------------------------------------------------------------- lines

  datatype Json = Text(s: string) | Whole(n: int) | List(items: seq<Json>) | OtherJson(id: int)

  /** The names of an event's fields, and any other name. */
  datatype Key =
    | SequenceKey | RunIdKey | StageKey | OccurredAtKey
    | ArtifactIdKey | CandidateIdKey | InputSha256Key | OutputSha256Key
    | ComponentVersionKey | PolicyVersionKey | ReasonCodesKey | PreviousHashKey | EventHashKey | OtherKey(name: string)

  type Fields = map<Key, Json>

  datatype Row = Blank | NotJson | NotAnObject | Object(fields: Fields)

  /** What the libraries do: ISO timestamps and `str` of a value that is not a string. */
  datatype Codec = Codec(iso: Timestamp -> string, fromIso: string -> Option<Timestamp>, shown: Json -> string)

  ghost predicate ReadsItsTimestamps(c: Codec) {
    forall t :: c.fromIso(c.iso(t)) == Some(t)
  }

  function Str(c: Codec, j: Json): string {
    if j.Text? then j.s else c.shown(j)
  }

  const KEYS: set<Key> := {
    SequenceKey, RunIdKey, StageKey, OccurredAtKey, ArtifactIdKey, CandidateIdKey, InputSha256Key, OutputSha256Key,
    ComponentVersionKey, PolicyVersionKey, ReasonCodesKey, PreviousHashKey, EventHashKey}

  function Texts(codes: seq<string>): seq<Json> {
    seq(|codes|, k requires 0 <= k < |codes| => Text(codes[k]))
  }

  function Strings(c: Codec, items: seq<Json>): seq<string> {
    seq(|items|, k requires 0 <= k < |items| => Str(c, items[k]))
  }

  /** The text of a field that is written as one. */
  function TextOf(c: Codec, e: AuditEvent, k: Key): string
    requires !k.OtherKey? && !k.SequenceKey? && !k.ReasonCodesKey?
  {
    match k
    case RunIdKey => e.body.runId
    case StageKey => e.body.stage
    case OccurredAtKey => c.iso(e.body.occurredAt)
    case ArtifactIdKey => e.body.artifactId
    case CandidateIdKey => e.body.candidateId
    case InputSha256Key => e.body.inputSha256
    case OutputSha256Key => e.body.outputSha256
    case ComponentVersionKey => e.body.componentVersion
    case PolicyVersionKey => e.body.policyVersion
    case PreviousHashKey => e.previous
    case EventHashKey => e.digest
  }

  function Payload(c: Codec, e: AuditEvent): Fields {
    map k | k in KEYS ::
      if k.SequenceKey? then Whole(e.body.sequence)
      else if k.ReasonCodesKey? then List(Texts(e.body.reasonCodes))
      else Text(TextOf(c, e, k))
  }

  function ParseEvent(c: Codec, row: Row): Option<AuditEvent> {
    if !row.Object? || row.fields.Keys != KEYS then None
    else
      var v := row.fields;
      if !v[SequenceKey].Whole? || !v[ReasonCodesKey].List? then None
      else
        var at := c.fromIso(Str(c, v[OccurredAtKey]));
        if at.None? then None
        else Some(Link(
               AuditBody(v[SequenceKey].n, Str(c, v[RunIdKey]), Str(c, v[StageKey]), at.value, Str(c, v[ArtifactIdKey]),
                         Str(c, v[CandidateIdKey]), Str(c, v[InputSha256Key]), Str(c, v[OutputSha256Key]),
                         Str(c, v[ComponentVersionKey]), Str(c, v[PolicyVersionKey]),
                         Strings(c, v[ReasonCodesKey].items)),
               Str(c, v[PreviousHashKey]), Str(c, v[EventHashKey])))
  }

  /** The field reads as the event's: up to its type, unless it is the sequence. */
  predicate ReadsAs(c: Codec, j: Json, e: AuditEvent, k: Key)
    requires !k.OtherKey?
  {
    if k.SequenceKey? then j == Whole(e.body.sequence)
    else if k.ReasonCodesKey? then j.List? && Strings(c, j.items) == e.body.reasonCodes
    else if k.OccurredAtKey? then c.fromIso(Str(c, j)) == Some(e.body.occurredAt)
    else Str(c, j) == TextOf(c, e, k)
  }

  /** A line reads as the event exactly when it has the event's fields and no other, and each reads as the event's. */
  lemma LineReadsAsExactlyWhen(c: Codec, v: Fields, e: AuditEvent)
    ensures ParseEvent(c, Object(v)) == Some(e) <==> v.Keys == KEYS && forall k | k in KEYS :: ReadsAs(c, v[k], e, k)
  {
    hide Strings, Str;
    if v.Keys == KEYS {
      if forall k | k in KEYS :: ReadsAs(c, v[k], e, k) {
        FieldsDecide(c, v, e);
      }
    }
  }

  lemma FieldsDecide(c: Codec, v: Fields, e: AuditEvent)
    requires v.Keys == KEYS && forall k | k in KEYS :: ReadsAs(c, v[k], e, k)
    ensures ParseEvent(c, Object(v)) == Some(e)
  {
    hide Strings, Str;
    assert ReadsAs(c, v[SequenceKey], e, SequenceKey) && ReadsAs(c, v[ReasonCodesKey], e, ReasonCodesKey);
    assert ReadsAs(c, v[OccurredAtKey], e, OccurredAtKey) && ReadsAs(c, v[RunIdKey], e, RunIdKey);
    assert ReadsAs(c, v[StageKey], e, StageKey) && ReadsAs(c, v[ArtifactIdKey], e, ArtifactIdKey);
    assert ReadsAs(c, v[CandidateIdKey], e, CandidateIdKey) && ReadsAs(c, v[InputSha256Key], e, InputSha256Key);
    assert ReadsAs(c, v[OutputSha256Key], e, OutputSha256Key)
           && ReadsAs(c, v[ComponentVersionKey], e, ComponentVersionKey);
    assert ReadsAs(c, v[PolicyVersionKey], e, PolicyVersionKey) && ReadsAs(c, v[PreviousHashKey], e, PreviousHashKey);
    assert ReadsAs(c, v[EventHashKey], e, EventHashKey);
  }

  lemma PayloadReads(c: Codec, e: AuditEvent)
    requires ReadsItsTimestamps(c)
    ensures Payload(c, e).Keys == KEYS && forall k | k in KEYS :: ReadsAs(c, Payload(c, e)[k], e, k)
  {
    assert Strings(c, Texts(e.body.reasonCodes)) == e.body.reasonCodes;
  }

  /** Writing an event and parsing the line gives the event back. */
  lemma EventRoundTrip(c: Codec, e: AuditEvent)
    requires ReadsItsTimestamps(c)
    ensures ParseEvent(c, Object(Payload(c, e))) == Some(e)
  {
    hide Payload, ReadsAs;
    PayloadReads(c, e);
    LineReadsAsExactlyWhen(c, Payload(c, e), e);
  }

  /** `tuple(_parse_event(json.loads(line)) for line in lines if line)`; None stands for the exception. */
  function ParseRows(c: Codec, rows: seq<Row>): Option<seq<AuditEvent>> {
    if rows == [] then Some([])
    else
      var before, row := ParseRows(c, rows[..|rows| - 1]), rows[|rows| - 1];
      if before.None? || row.Blank? then before
      else
        var e := ParseEvent(c, row);
        if e.None? then None else Some(before.value + [e.value])
  }

  function Written(c: Codec, chain: seq<AuditEvent>): (rows: seq<Row>)
    ensures |rows| == |chain|
  {
    seq(|chain|, k requires 0 <= k < |chain| => Object(Payload(c, chain[k])))
  }

  lemma {:induction false} ChainRoundTrip(c: Codec, chain: seq<AuditEvent>)
    requires ReadsItsTimestamps(c)
    ensures ParseRows(c, Written(c, chain)) == Some(chain)
  {
    hide ParseEvent, Payload;
    if chain != [] {
      var before, last := chain[..|chain| - 1], chain[|chain| - 1];
      ChainRoundTrip(c, before);
      EventRoundTrip(c, last);
      assert Written(c, chain)[..|chain| - 1] == Written(c, before);
      assert chain == before + [last];
    }
  }

  // ---------------------------------------------------------------- the journal

  datatype ReadError = Corrupt | EmptyJournal | CorruptChain(reasons: set<AuditReason>)

  type File = Option<seq<Row>>

  ghost function ChainReasons(h: Hasher, chain: seq<AuditEvent>): set<AuditReason> {
    set r: AuditReason | ChainHas(h, chain, r)
  }

  lemma NoReasonsMeansIntact(h: Hasher, chain: seq<AuditEvent>)
    ensures ChainReasons(h, chain) == {} <==> Intact(h, chain)
  {
    hide ChainHas;
    if Intact(h, chain) {
      assert forall r :: !ChainHas(h, chain, r);
    } else {
      var r :| ChainHas(h, chain, r);
      assert r in ChainReasons(h, chain);
    }
  }

  ghost function Read(h: Hasher, c: Codec, file: File): Result<seq<AuditEvent>, ReadError> {
    if file.None? then Err(Corrupt)
    else
      var events := ParseRows(c, file.value);
      if events.None? then Err(Corrupt)
      else if events.value == [] then Err(EmptyJournal)
      else if ChainReasons(h, events.value) != {} then Err(CorruptChain(ChainReasons(h, events.value)))
      else Ok(events.value)
  }

  datatype Status = Blocked | Initialized | DuplicateSuppressed | Appended

  datatype JournalReason =
    | Verification(reason: AuditReason) | JournalEmpty | AlreadyExists | WriteFailed | JournalCorrupt

  datatype JournalResult = JournalResult(status: Status, count: nat, head: string, reasons: set<JournalReason>)

  function Lift(reasons: set<AuditReason>): set<JournalReason> {
    set r | r in reasons :: Verification(r)
  }

  ghost function InitializeStep(h: Hasher, c: Codec, file: File, chain: seq<AuditEvent>,
                                writable: bool): (File, JournalResult)
  {
    if chain == [] then (file, JournalResult(Blocked, 0, "", {JournalEmpty}))
    else if ChainReasons(h, chain) != {} then (file, JournalResult(Blocked, |chain|, "", Lift(ChainReasons(h, chain))))
    else if file.Some? then (file, JournalResult(Blocked, 0, "", {AlreadyExists}))
    else if !writable then (file, JournalResult(Blocked, 0, "", {WriteFailed}))
    else (Some(Written(c, chain)), JournalResult(Initialized, |chain|, Head(chain), {}))
  }

  ghost function AppendStep(h: Hasher, c: Codec, file: File, e: AuditEvent, writable: bool): (File, JournalResult) {
    var read := Read(h, c, file);
    if read.Err? then (file, JournalResult(Blocked, 0, "", {JournalCorrupt}))
    else
      var chain := read.value;
      var reasons := ChainReasons(h, chain + [e]);
      if e.digest == Head(chain) then (file, JournalResult(DuplicateSuppressed, |chain|, Head(chain), {}))
      else if reasons != {} then (file, JournalResult(Blocked, |chain|, Head(chain), Lift(reasons)))
      else if !writable then (file, JournalResult(Blocked, |chain|, Head(chain), {WriteFailed}))
      else (Some(file.value + [Object(Payload(c, e))]), JournalResult(Appended, |chain| + 1, e.digest, {}))
  }

  class Journal {
    const h: Hasher
    const codec: Codec
    var file: File

    constructor (h: Hasher, codec: Codec)
      ensures this.h == h && this.codec == codec && file == None
    {
      this.h := h;
      this.codec := codec;
      file := None;
    }

    method Verify(chain: seq<AuditEvent>) returns (reasons: set<AuditReason>)
      ensures reasons == ChainReasons(h, chain)
    {
      reasons := VerifyAuditChain(h, chain);
    }

    method ReadJournal() returns (r: Result<seq<AuditEvent>, ReadError>)
      ensures r == Read(h, codec, file)
    {
      if file == None {
        return Err(Corrupt);
      }
      var events := ParseRows(codec, file.value);
      if events == None {
        return Err(Corrupt);
      }
      if events.value == [] {
        return Err(EmptyJournal);
      }
      var reasons := Verify(events.value);
      if reasons != {} {
        return Err(CorruptChain(reasons));
      }
      return Ok(events.value);
    }

    method Initialize(chain: seq<AuditEvent>, writable: bool) returns (r: JournalResult)
      modifies this
      ensures (file, r) == InitializeStep(h, codec, old(file), chain, writable)
    {
      if chain == [] {
        return JournalResult(Blocked, 0, "", {JournalEmpty});
      }
      var reasons := Verify(chain);
      if reasons != {} {
        return JournalResult(Blocked, |chain|, "", Lift(reasons));
      }
      if file.Some? {
        return JournalResult(Blocked, 0, "", {AlreadyExists});
      }
      if !writable {
        return JournalResult(Blocked, 0, "", {WriteFailed});
      }
      file := Some(Written(codec, chain));
      return JournalResult(Initialized, |chain|, chain[|chain| - 1].digest, {});
    }

    method Append(e: AuditEvent, writable: bool) returns (r: JournalResult)
      modifies this
      ensures (file, r) == AppendStep(h, codec, old(file), e, writable)
    {
      hide ChainReasons, Payload;
      var read := ReadJournal();
      if read.Err? {
        return JournalResult(Blocked, 0, "", {JournalCorrupt});
      }
      var chain := read.value;
      if chain != [] && e.digest == chain[|chain| - 1].digest {
        return JournalResult(DuplicateSuppressed, |chain|, chain[|chain| - 1].digest, {});
      }
      var proposed := chain + [e];
      var reasons := Verify(proposed);
      if reasons != {} {
        return JournalResult(Blocked, |chain|, Head(chain), Lift(reasons));
      }
      if !writable {
        return JournalResult(Blocked, |chain|, Head(chain), {WriteFailed});
      }
      file := Some(file.value + [Object(Payload(codec, e))]);
      return JournalResult(Appended, |proposed|, e.digest, {});
    }
  }

  // ---------------------------------------------------------------- every run

  datatype Op = Init(chain: seq<AuditEvent>, writable: bool) | Add(e: AuditEvent, writable: bool)

  ghost function Step(h: Hasher, c: Codec, file: File, op: Op): (File, JournalResult) {
    match op
    case Init(chain, writable) => InitializeStep(h, c, file, chain, writable)
    case Add(e, writable) => AppendStep(h, c, file, e, writable)
  }

  ghost function Run(h: Hasher, c: Codec, ops: seq<Op>): File {
    if ops == [] then None else Step(h, c, Run(h, c, ops[..|ops| - 1]), ops[|ops| - 1]).0
  }

  /** The file is the rendering of a non-empty chain that verifies. */
  ghost predicate Holds(h: Hasher, c: Codec, file: File, chain: seq<AuditEvent>) {
    chain != [] && Intact(h, chain) && file == Some(Written(c, chain))
  }

  /** What the journal holds, nothing before it is initialised. */
  ghost function Contents(h: Hasher, c: Codec, file: File): seq<AuditEvent> {
    var read := Read(h, c, file);
    if read.Ok? then read.value else []
  }

  lemma HeldIsRead(h: Hasher, c: Codec, file: File, chain: seq<AuditEvent>)
    requires ReadsItsTimestamps(c) && Holds(h, c, file, chain)
    ensures Read(h, c, file) == Ok(chain)
  {
    ChainRoundTrip(c, chain);
    NoReasonsMeansIntact(h, chain);
  }

  ghost predicate Good(h: Hasher, c: Codec, file: File) {
    file.None? || Holds(h, c, file, Contents(h, c, file))
  }

  lemma StepKeepsGood(h: Hasher, c: Codec, file: File, op: Op)
    requires ReadsItsTimestamps(c) && Good(h, c, file)
    ensures var (after, r) := Step(h, c, file, op);
            && Good(h, c, after)
            && Contents(h, c, file) <= Contents(h, c, after)
            && (r.status == Appended ==> op.Add? && Contents(h, c, after) == Contents(h, c, file) + [op.e])
            && (r.status == Initialized ==> file.None? && op.Init? && Contents(h, c, after) == op.chain)
            && (r.status in {Blocked, DuplicateSuppressed} ==> after == file)
  {
    hide Payload, ChainReasons, ParseRows, Intact;
    var chain := Contents(h, c, file);
    if file.Some? {
      HeldIsRead(h, c, file, chain);
    }
    match op
    case Init(new_, writable) =>
      NoReasonsMeansIntact(h, new_);
      if new_ != [] && Intact(h, new_) {
        HeldIsRead(h, c, Some(Written(c, new_)), new_);
      }
    case Add(e, writable) =>
      var proposed := chain + [e];
      NoReasonsMeansIntact(h, proposed);
      if file.Some? && Intact(h, proposed) {
        WrittenAppend(c, chain, e);
        HeldIsRead(h, c, Some(Written(c, proposed)), proposed);
      }
  }

  lemma WrittenAppend(c: Codec, chain: seq<AuditEvent>, e: AuditEvent)
    ensures Written(c, chain + [e]) == Written(c, chain) + [Object(Payload(c, e))]
  {
    hide Payload;
  }

  /** Whatever is asked of it, the journal is absent or holds a verifying chain that reads back exactly. */
  lemma {:induction false} JournalIsAlwaysGood(h: Hasher, c: Codec, ops: seq<Op>)
    requires ReadsItsTimestamps(c)
    ensures Good(h, c, Run(h, c, ops))
  {
    hide Step, Good;
    if ops == [] {
      NoFileIsGood(h, c);
    } else {
      JournalIsAlwaysGood(h, c, ops[..|ops| - 1]);
      StepKeepsGood(h, c, Run(h, c, ops[..|ops| - 1]), ops[|ops| - 1]);
    }
  }

  /** The chain of the last call answered as initialised, and the events of the later ones answered as appended. */
  ghost function Recorded(h: Hasher, c: Codec, ops: seq<Op>): seq<AuditEvent> {
    if ops == [] then []
    else
      var before, op := ops[..|ops| - 1], ops[|ops| - 1];
      match Step(h, c, Run(h, c, before), op).1.status
      case Initialized => if op.Init? then op.chain else []
      case Appended => Recorded(h, c, before) + if op.Add? then [op.e] else []
      case _ => Recorded(h, c, before)
  }

  /** After any run the journal holds exactly what its answers say it took, in that order. */
  lemma {:induction false} JournalHoldsWhatItTook(h: Hasher, c: Codec, ops: seq<Op>)
    requires ReadsItsTimestamps(c)
    ensures Contents(h, c, Run(h, c, ops)) == Recorded(h, c, ops)
  {
    hide Step, Good;
    if ops != [] {
      var before := ops[..|ops| - 1];
      JournalHoldsWhatItTook(h, c, before);
      JournalIsAlwaysGood(h, c, before);
      StepKeepsGood(h, c, Run(h, c, before), ops[|ops| - 1]);
    }
  }

  lemma NoFileIsGood(h: Hasher, c: Codec)
    ensures Good(h, c, None)
  {
  }

  /** Recorded events are never lost or changed: an earlier journal is a prefix of every later one. */
  lemma {:induction false} JournalOnlyGrows(h: Hasher, c: Codec, ops: seq<Op>, k: nat)
    requires ReadsItsTimestamps(c) && k <= |ops|
    ensures Contents(h, c, Run(h, c, ops[..k])) <= Contents(h, c, Run(h, c, ops))
    decreases |ops|
  {
    hide Step, Good, Contents;
    if k == |ops| {
      assert ops[..k] == ops;
    } else {
      var before := ops[..|ops| - 1];
      JournalOnlyGrows(h, c, before, k);
      assert before[..k] == ops[..k];
      JournalIsAlwaysGood(h, c, before);
      StepKeepsGood(h, c, Run(h, c, before), ops[|ops| - 1]);
      PrefixOfPrefix(Contents(h, c, Run(h, c, ops[..k])), Contents(h, c, Run(h, c, before)),
                     Contents(h, c, Run(h, c, ops)));
    }
  }

  lemma PrefixOfPrefix<T>(a: seq<T>, b: seq<T>, c: seq<T>)
    requires a <= b <= c
    ensures a <= c
  {
  }

  /**
   * A journal with contents takes an event exactly when it can be written, its hash is new, and the
   * longer chain verifies.
   */
  lemma AppendsExactlyWhen(h: Hasher, c: Codec, file: File, e: AuditEvent, writable: bool)
    requires ReadsItsTimestamps(c) && Good(h, c, file)
    ensures AppendStep(h, c, file, e, writable).1.status == Appended
       <==> file.Some? && writable && e.digest != Head(Contents(h, c, file)) && Intact(h, Contents(h, c, file) + [e])
  {
    hide Payload, ChainReasons, ParseRows, Intact;
    if file.Some? {
      HeldIsRead(h, c, file, Contents(h, c, file));
      NoReasonsMeansIntact(h, Contents(h, c, file) + [e]);
    }
  }

  /** Appending again is suppressed, and so is any other event that only carries the last one's hash. */
  lemma RepeatedHashIsSuppressed(h: Hasher, c: Codec, file: File, e: AuditEvent, other: AuditEvent, writable: bool,
                                 again: bool)
    requires ReadsItsTimestamps(c) && Good(h, c, file)
    requires AppendStep(h, c, file, e, writable).1.status == Appended && other.digest == e.digest
    ensures var after := AppendStep(h, c, file, e, writable).0;
            AppendStep(h, c, after, other, again)
              == (after, JournalResult(DuplicateSuppressed, |Contents(h, c, after)|, e.digest, {}))
  {
    hide Payload, ChainReasons, ParseRows, Intact, AppendStep;
    var (after, r) := AppendStep(h, c, file, e, writable);
    StepKeepsGood(h, c, file, Add(e, writable));
    AfterAppend(h, c, file, after, e);
    SuppressedWhen(h, c, after, other, again);
  }

  lemma AfterAppend(h: Hasher, c: Codec, file: File, after: File, e: AuditEvent)
    requires Good(h, c, after) && Contents(h, c, after) == Contents(h, c, file) + [e]
    ensures after.Some? && Head(Contents(h, c, after)) == e.digest && Contents(h, c, after) != []
  {
    assert Contents(h, c, after) != [];
  }

  lemma SuppressedWhen(h: Hasher, c: Codec, file: File, e: AuditEvent, writable: bool)
    requires ReadsItsTimestamps(c) && Good(h, c, file) && file.Some? && e.digest == Head(Contents(h, c, file))
    ensures AppendStep(h, c, file, e, writable)
              == (file, JournalResult(DuplicateSuppressed, |Contents(h, c, file)|, e.digest, {}))
  {
    hide Payload, ChainReasons, ParseRows;
    HeldIsRead(h, c, file, Contents(h, c, file));
  }

  /** Two journals that can be read and end in one hash record the same events, or exhibit a collision. */
  lemma HeadHashDeterminesTheJournal(h: Hasher, c: Codec, a: File, b: File)
    requires IsDigestFunction(h) && Read(h, c, a).Ok? && Read(h, c, b).Ok?
    requires Head(Read(h, c, a).value) == Head(Read(h, c, b).value)
    ensures Read(h, c, a) == Read(h, c, b) || HasCollision(Read(h, c, a).value, Read(h, c, b).value)
  {
    hide ChainReasons, ParseRows;
    NoReasonsMeansIntact(h, Read(h, c, a).value);
    NoReasonsMeansIntact(h, Read(h, c, b).value);
    HeadHashDeterminesAuditChain(h, Read(h, c, a).value, Read(h, c, b).value);
  }

  /**
   * Reading is not strict about types: in any field but the sequence and the list of reason codes,
   * a number or another value reads like its text, so two files can hold one chain.
   */
  lemma NumbersReadAsText(c: Codec, e: AuditEvent, k: Key, j: Json)
    requires ReadsItsTimestamps(c) && !k.OtherKey? && !k.SequenceKey? && !k.ReasonCodesKey?
    requires !j.Text? && c.shown(j) == TextOf(c, e, k)
    ensures ParseEvent(c, Object(Payload(c, e)[k := j])) == Some(e)
    ensures Payload(c, e)[k := j] != Payload(c, e)
  {
    assert ReadsAs(c, j, e, k);
    OneFieldReadsAs(c, e, k, j);
    assert k in KEYS && Payload(c, e)[k].Text? && Payload(c, e)[k := j][k] == j;
  }

  /** In the same way the reason codes need only read as the event's, one by one. */
  lemma ReasonCodesReadAsText(c: Codec, e: AuditEvent, items: seq<Json>)
    requires ReadsItsTimestamps(c)
    ensures ParseEvent(c, Object(Payload(c, e)[ReasonCodesKey := List(items)])) == Some(e)
            <==> Strings(c, items) == e.body.reasonCodes
  {
    hide Strings;
    OneFieldReadsAs(c, e, ReasonCodesKey, List(items));
  }

  lemma OneFieldReadsAs(c: Codec, e: AuditEvent, k: Key, j: Json)
    requires ReadsItsTimestamps(c) && !k.OtherKey?
    ensures ParseEvent(c, Object(Payload(c, e)[k := j])) == Some(e) <==> ReadsAs(c, j, e, k)
  {
    hide Payload, ReadsAs;
    PayloadReads(c, e);
    var v := Payload(c, e)[k := j];
    assert k in KEYS && v.Keys == KEYS;
    assert v[k] == j;
    LineReadsAsExactlyWhen(c, v, e);
  }

  // ---------------------------------------------------------------- what the journal answers

  /** Reading gives a chain exactly when every line parses, there is one, and they verify; or says what failed. */
  lemma ReadAnswers(h: Hasher, c: Codec, file: File)
    ensures var r := Read(h, c, file);
            && (forall chain :: r == Ok(chain) <==>
                  file.Some? && ParseRows(c, file.value) == Some(chain) && chain != [] && Intact(h, chain))
            && (r == Err(Corrupt) <==> file.None? || ParseRows(c, file.value).None?)
            && (r == Err(EmptyJournal) <==> file.Some? && ParseRows(c, file.value) == Some([]))
            && (r.Err? && r.error.CorruptChain? ==>
                  && file.Some? && ParseRows(c, file.value).Some?
                  && forall reason ::
                       reason in r.error.reasons <==> ChainHas(h, ParseRows(c, file.value).value, reason))
  {
    hide ParseRows, ChainHas;
    if file.Some? && ParseRows(c, file.value).Some? {
      NoReasonsMeansIntact(h, ParseRows(c, file.value).value);
    }
  }

  /** Why an initialisation is blocked. */
  ghost predicate BlocksInitialize(h: Hasher, file: File, chain: seq<AuditEvent>, writable: bool, reason: JournalReason)
  {
    match reason
    case JournalEmpty => chain == []
    case Verification(r) => ChainHas(h, chain, r)
    case AlreadyExists => chain != [] && Intact(h, chain) && file.Some?
    case WriteFailed => chain != [] && Intact(h, chain) && file.None? && !writable
    case JournalCorrupt => false
  }

  /**
   * A file is created exactly for a non-empty chain that verifies where there is none yet and it can be
   * written; it then holds the chain, an object a line. Otherwise every reason is given and nothing
   * changes.
   */
  lemma InitializeAnswers(h: Hasher, c: Codec, file: File, chain: seq<AuditEvent>, writable: bool)
    ensures var (after, r) := InitializeStep(h, c, file, chain, writable);
            && (r.status == Initialized <==> chain != [] && Intact(h, chain) && file.None? && writable)
            && (r.status == Initialized ==>
                  && r.count == |chain| && r.head == chain[|chain| - 1].digest
                  && after.Some? && |after.value| == |chain|
                  && forall k | 0 <= k < |chain| :: after.value[k] == Object(Payload(c, chain[k])))
            && (r.status != Initialized ==>
                  && r.status == Blocked && after == file && r.head == ""
                  && r.count == if Intact(h, chain) then 0 else |chain|)
            && forall reason :: reason in r.reasons <==> BlocksInitialize(h, file, chain, writable, reason)
  {
    hide Payload, ChainHas;
    NoReasonsMeansIntact(h, chain);
    if chain == [] {
      EmptyIsIntact(h);
    }
  }

  lemma EmptyIsIntact(h: Hasher)
    ensures forall reason :: !ChainHas(h, [], reason)
  {
  }

  /** Why an append to a journal that holds the events is blocked. */
  ghost predicate BlocksAppend(h: Hasher, held: seq<AuditEvent>, e: AuditEvent, writable: bool, reason: JournalReason)
    requires held != []
  {
    && e.digest != held[|held| - 1].digest
    && match reason
       case Verification(r) => ChainHas(h, held + [e], r)
       case WriteFailed => Intact(h, held + [e]) && !writable
       case _ => false
  }

  /**
   * A journal that cannot be read takes nothing. One that holds events adds a line for another that
   * continues them, says nothing for one with the last digest, and gives every reason otherwise.
   */
  lemma AppendAnswers(h: Hasher, c: Codec, file: File, e: AuditEvent, writable: bool)
    ensures var (after, r) := AppendStep(h, c, file, e, writable);
            && (Read(h, c, file).Err? ==> after == file && r == JournalResult(Blocked, 0, "", {JournalCorrupt}))
            && (Read(h, c, file).Ok? ==>
                  var held := Read(h, c, file).value;
                  && held != [] && file.Some?
                  && (r.status == Appended <==>
                        e.digest != held[|held| - 1].digest && Intact(h, held + [e]) && writable)
                  && (r.status == DuplicateSuppressed <==> e.digest == held[|held| - 1].digest)
                  && (r.status == Appended ==>
                        && |after.value| == |file.value| + 1 && after.value[..|file.value|] == file.value
                        && after.value[|file.value|] == Object(Payload(c, e))
                        && r.count == |held| + 1 && r.head == e.digest)
                  && (r.status != Appended ==>
                        after == file && r.count == |held| && r.head == held[|held| - 1].digest)
                  && r.status != Initialized
                  && forall reason :: reason in r.reasons <==> BlocksAppend(h, held, e, writable, reason))
  {
    hide Payload, ChainHas, ParseRows;
    if Read(h, c, file).Ok? {
      NoReasonsMeansIntact(h, Read(h, c, file).value + [e]);
    }
  }
}
