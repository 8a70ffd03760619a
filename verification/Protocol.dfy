/** The helper protocol: request ids, length-prefixed frames, and responses that keep within one budget. */
module Protocol {
  import opened Results
  import opened Bytes
  import opened Model
  import JsonScanners
  import Records

  const MAX_BYTES := 65_536
  const PROTOCOL_VERSION: U32 := 2
  const MAX_COMPACT_STAGES := 256

  datatype ProtocolError = Invalid | Version | OverLimit | Truncated

  // Request ids.

  type RequestId = seq<Byte>

  function IdFromBytes(bytes: seq<Byte>): RequestId
    requires |bytes| == 16
  {
    Records.EncodeHex(bytes)
  }

  predicate ValidId(id: RequestId) {
    && |id| == 32
    && (forall b | b in id :: 0x30 <= b <= 0x39 || 0x61 <= b <= 0x66)
    && exists b :: b in id && b != 0x30
  }

  lemma {:induction false} HexIsLower(bytes: seq<Byte>)
    ensures forall b | b in Records.EncodeHex(bytes) :: 0x30 <= b <= 0x39 || 0x61 <= b <= 0x66
    ensures (forall b | b in Records.EncodeHex(bytes) :: b == 0x30) <==> forall b | b in bytes :: b == 0
  {
    if bytes != [] {
      HexIsLower(bytes[1..]);
      var high, low := Records.HexDigit(bytes[0] / 16), Records.HexDigit(bytes[0] % 16);
      var hex := Records.EncodeHex(bytes);
      assert hex == [high, low] + Records.EncodeHex(bytes[1..]) && bytes == [bytes[0]] + bytes[1..];
      assert high in hex && low in hex && bytes[0] in bytes;
      assert high == 0x30 && low == 0x30 <==> bytes[0] == 0;
      assert forall b :: b in hex <==> b == high || b == low || b in Records.EncodeHex(bytes[1..]);
      assert forall b :: b in bytes <==> b == bytes[0] || b in bytes[1..];
    }
  }

  /** A generated id is valid exactly when its bytes are not all zero, which the generator ensures. */
  lemma GeneratedIdIff(bytes: seq<Byte>)
    requires |bytes| == 16
    ensures ValidId(IdFromBytes(bytes)) <==> bytes != seq(16, _ => 0)
  {
    HexIsLower(bytes);
    if bytes == seq(16, _ => 0) {
      assert forall b | b in bytes :: b == 0;
    } else {
      var i :| 0 <= i < 16 && bytes[i] != 0;
      assert bytes[i] in bytes;
    }
  }

  // Frames.

  function EncodeFrame(body: seq<Byte>): Result<seq<Byte>, ProtocolError> {
    if 4 + |body| > MAX_BYTES then Err(OverLimit) else Ok(Le(4, |body|) + body)
  }

  function Flatten(chunks: seq<seq<Byte>>): seq<Byte> {
    if chunks == [] then [] else chunks[0] + Flatten(chunks[1..])
  }

  lemma FlattenStep(done: seq<Byte>, chunks: seq<seq<Byte>>, i: nat)
    requires i < |chunks|
    ensures done + Flatten(chunks[i..]) == done + chunks[i] + Flatten(chunks[i + 1..])
  {
    assert chunks[i..][1..] == chunks[i + 1..];
    Assoc(done, chunks[i], Flatten(chunks[i + 1..]));
  }

  lemma FlattenEnds(done: seq<Byte>, chunks: seq<seq<Byte>>)
    ensures done + Flatten(chunks[|chunks|..]) == done
  {
  }

  /** `Capped`: the serialiser's pieces are appended one by one, and the first that overflows fails. */
  method EncodeCapped(chunks: seq<seq<Byte>>) returns (r: Result<seq<Byte>, ProtocolError>)
    ensures r == EncodeFrame(Flatten(chunks))
  {
    hide Flatten;
    var out: seq<Byte> := [0, 0, 0, 0];
    assert chunks[0..] == chunks && out[4..] + Flatten(chunks) == Flatten(chunks);
    for i := 0 to |chunks|
      invariant 4 <= |out| <= MAX_BYTES
      invariant Flatten(chunks) == out[4..] + Flatten(chunks[i..])
    {
      FlattenStep(out[4..], chunks, i);
      if |out| + |chunks[i]| > MAX_BYTES {
        return Err(OverLimit);
      }
      assert (out + chunks[i])[4..] == out[4..] + chunks[i];
      out := out + chunks[i];
    }
    FlattenEnds(out[4..], chunks);
    out := Le(4, |out| - 4) + out[4..];
    return Ok(out);
  }

  function DecodeFrame(frame: seq<Byte>): Result<seq<Byte>, ProtocolError> {
    if |frame| > MAX_BYTES then Err(OverLimit)
    else if |frame| < 4 then Err(Truncated)
    else
      var size := U32Of(frame[..4]);
      if size > MAX_BYTES - 4 then Err(OverLimit)
      else if |frame| < size + 4 then Err(Truncated)
      else if |frame| != size + 4 then Err(Invalid)
      else Ok(frame[4..])
  }

  /** Framing and unframing are inverse. */
  lemma FrameIff(frame: seq<Byte>, body: seq<Byte>)
    ensures DecodeFrame(frame) == Ok(body) <==> EncodeFrame(body) == Ok(frame)
  {
    if |body| + 4 <= MAX_BYTES {
      WordRoundTrips(0, |body|, 0);
      assert (Le(4, |body|) + body)[..4] == Le(4, |body|);
    }
    if DecodeFrame(frame) == Ok(body) {
      LeOfFromLe(frame[..4]);
      assert frame == frame[..4] + frame[4..];
    }
  }

  /** Every strict prefix of a frame is rejected as truncated, and every strict extension is rejected. */
  lemma OnlyWholeFrames(frame: seq<Byte>, other: seq<Byte>)
    requires DecodeFrame(frame).Ok?
    ensures other < frame ==> DecodeFrame(other) == Err(Truncated)
    ensures frame < other ==> DecodeFrame(other).Err?
  {
    if other < frame && |other| >= 4 {
      assert other[..4] == frame[..4];
    }
    if frame < other {
      assert other[..4] == frame[..4];
    }
  }

  // Messages and the JSON library.

  datatype RequestEnvelope = RequestEnvelope(version: U32, id: RequestId, request: Request)

  datatype ResponseEnvelope = ResponseEnvelope(version: U32, id: RequestId, result: Result<Report, Error>)

  datatype Hello = Hello(version: U32, hello: bool)

  /**
   * The JSON library at the message types. Reading covers the typed decode and the comparison with the
   * value's own canonical form; `None` is a text that fails either.
   */
  datatype Codec = Codec(
    requestText: RequestEnvelope -> seq<Byte>,
    readRequest: seq<Byte> -> Option<RequestEnvelope>,
    responseText: ResponseEnvelope -> seq<Byte>,
    readResponse: seq<Byte> -> Option<ResponseEnvelope>,
    helloText: Hello -> seq<Byte>,
    readHello: seq<Byte> -> Option<Hello>)
  {
    /**
     * Messages with valid ids, the only ones there are, read back as what was written, up to the nesting
     * the library and the scanner allow.
     */
    ghost predicate Lawful() {
      && (forall message :: RequestLaw(message))
      && (forall message :: ResponseLaw(message))
      && (forall message :: HelloLaw(message))
      && (forall text :: ReadsValidIds(text))
    }

    ghost predicate RequestLaw(message: RequestEnvelope) {
      var text := requestText(message);
      ValidId(message.id) ==> |text| <= 512 && readRequest(text) == Some(message) && ScannerAccepts(text)
    }

    ghost predicate ResponseLaw(message: ResponseEnvelope) {
      var text := responseText(message);
      ValidId(message.id) ==>
        && |text| == ResponseSize(message)
        && (readResponse(text).Some? ==> readResponse(text) == Some(message))
        && (Nesting(message.result) <= MAX_NESTING ==> readResponse(text) == Some(message) && ScannerAccepts(text))
    }

    ghost predicate HelloLaw(message: Hello) {
      var text := helloText(message);
      |text| <= 64 && readHello(text) == Some(message) && ScannerAccepts(text)
    }

    ghost predicate ReadsValidIds(text: seq<Byte>) {
      && (readRequest(text).Some? ==> ValidId(readRequest(text).value.id))
      && (readResponse(text).Some? ==> ValidId(readResponse(text).value.id))
    }
  }

  /** Far below the nesting at which the library's recursion limit of 128 or the scanner's 256 is reached. */
  const MAX_NESTING := 16

  ghost predicate ScannerAccepts(text: seq<Byte>) {
    JsonScanners.RejectDuplicateKeys(text).Ok?
  }

  function Nesting(result: Result<Report, Error>): nat {
    match result
    case Ok(_) => 0
    case Err(error) => ErrorNesting(error)
  }

  function ErrorNesting(error: Error): nat {
    match error
    case FlowFailure(cause, _, residual, rollback, _) =>
      1 + ErrorNesting(cause)
      + (if residual.ReadFailed? then ErrorNesting(residual.error) else 0)
      + (if rollback.RollbackErred? then ErrorNesting(rollback.error) else 0)
    case _ => 0
  }

  function CheckKeys(body: seq<Byte>): Result<(), ProtocolError> {
    match JsonScanners.RejectDuplicateKeys(body)
    case Ok(_) => Ok(())
    case Err(error) => Err(if error.TooDeep? then OverLimit else Invalid)
  }

  function Decode<T>(frame: seq<Byte>, read: seq<Byte> -> Option<T>): Result<T, ProtocolError> {
    var body :- DecodeFrame(frame);
    var _ :- CheckKeys(body);
    match read(body)
    case None => Err(Invalid)
    case Some(value) => Ok(value)
  }

  function CheckVersion(version: U32): Result<(), ProtocolError> {
    if version == PROTOCOL_VERSION then Ok(()) else Err(Version)
  }

  function EncodeRequest(id: RequestId, request: Request, codec: Codec): Result<seq<Byte>, ProtocolError> {
    if !ValidId(id) then Err(Invalid)
    else EncodeFrame(codec.requestText(RequestEnvelope(PROTOCOL_VERSION, id, request)))
  }

  function DecodeRequest(frame: seq<Byte>, codec: Codec): Result<RequestEnvelope, ProtocolError> {
    var message :- Decode(frame, codec.readRequest);
    var _ :- CheckVersion(message.version);
    Ok(message)
  }

  function EncodeResponse(id: RequestId, result: Result<Report, Error>, codec: Codec):
    Result<seq<Byte>, ProtocolError>
  {
    if !ValidId(id) then Err(Invalid)
    else EncodeFrame(codec.responseText(ResponseEnvelope(PROTOCOL_VERSION, id, result)))
  }

  function DecodeResponseFor(frame: seq<Byte>, expected: RequestId, codec: Codec):
    Result<Result<Report, Error>, ProtocolError>
  {
    var message :- Decode(frame, codec.readResponse);
    var _ :- CheckVersion(message.version);
    if message.id != expected then Err(Invalid) else Ok(message.result)
  }

  function HelloFrame(codec: Codec): seq<Byte> {
    var text := codec.helloText(Hello(PROTOCOL_VERSION, true));
    Le(4, |text|) + text
  }

  function DecodeHello(frame: seq<Byte>, codec: Codec): Result<(), ProtocolError> {
    var message :- Decode(frame, codec.readHello);
    var _ :- CheckVersion(message.version);
    if message.hello then Ok(()) else Err(Invalid)
  }

  /** A request that was encoded is decoded as itself; nothing shorter than its frame is decoded at all. */
  lemma RequestRoundTrip(id: RequestId, request: Request, codec: Codec)
    requires codec.Lawful() && ValidId(id)
    ensures EncodeRequest(id, request, codec).Ok?
    ensures var frame := EncodeRequest(id, request, codec).value;
            && DecodeRequest(frame, codec) == Ok(RequestEnvelope(PROTOCOL_VERSION, id, request))
            && forall received | received < frame :: DecodeRequest(received, codec) == Err(Truncated)
  {
    var message := RequestEnvelope(PROTOCOL_VERSION, id, request);
    assert codec.RequestLaw(message);
    var text := codec.requestText(message);
    var frame := EncodeFrame(text).value;
    FrameIff(frame, text);
    forall received | received < frame ensures DecodeRequest(received, codec) == Err(Truncated) {
      OnlyWholeFrames(frame, received);
    }
  }

  lemma HelloRoundTrip(codec: Codec)
    requires codec.Lawful()
    ensures |HelloFrame(codec)| <= 68 && DecodeHello(HelloFrame(codec), codec) == Ok(())
  {
    var message := Hello(PROTOCOL_VERSION, true);
    assert codec.HelloLaw(message);
    FrameIff(HelloFrame(codec), codec.helloText(message));
  }

  /** A response frame is never read as a different result, and shallow results are read back. */
  lemma ResponseRoundTrip(id: RequestId, result: Result<Report, Error>, codec: Codec, expected: RequestId)
    requires codec.Lawful()
    requires EncodeResponse(id, result, codec).Ok?
    ensures var frame := EncodeResponse(id, result, codec).value;
            && (DecodeResponseFor(frame, expected, codec).Ok? ==>
                  expected == id && DecodeResponseFor(frame, expected, codec) == Ok(result))
            && (Nesting(result) <= MAX_NESTING ==> DecodeResponseFor(frame, id, codec) == Ok(result))
            && (forall received | received < frame ::
                  DecodeResponseFor(received, expected, codec) == Err(Truncated))
  {
    hide ResponseSize, DecodeFrame, EncodeFrame, Nesting;
    var message := ResponseEnvelope(PROTOCOL_VERSION, id, result);
    assert codec.ResponseLaw(message);
    var text := codec.responseText(message);
    var frame := EncodeFrame(text).value;
    FrameIff(frame, text);
    forall received | received < frame
      ensures DecodeResponseFor(received, expected, codec) == Err(Truncated)
    {
      OnlyWholeFrames(frame, received);
    }
  }

  // Compaction.

  function CompactCause(error: Error): (compact: Error)
    ensures !compact.FlowFailure?
  {
    if error.FlowFailure? then ResourceLimit else error
  }

  function CompactRollback(assessment: RollbackAssessment): RollbackAssessment {
    match assessment
    case RollbackErred(error) => RollbackErred(CompactCause(error))
    case other => other
  }

  function CompactResidual(assessment: ResidualAssessment): ResidualAssessment {
    match assessment
    case ReadFailed(error) => ReadFailed(CompactCause(error))
    case other => other
  }

  function CompactStages(stages: seq<Stage>): seq<Stage> {
    if |stages| <= MAX_COMPACT_STAGES then stages else stages[..MAX_COMPACT_STAGES]
  }

  function FindCandidate(candidates: seq<Candidate>, id: BootId): Option<Candidate> {
    if candidates == [] then None
    else if candidates[0].bootId == id then Some(candidates[0])
    else FindCandidate(candidates[1..], id)
  }

  function CompactReport(report: Report): Report {
    var found := if report.record.Ready? then FindCandidate(report.candidates, report.record.bootId) else None;
    Report(if found.Some? then [found.value.(description := [])] else [], report.record, report.stages, [])
  }

  /** The bounded stand-in for a result that does not fit. */
  function Compact(result: Result<Report, Error>): Result<Report, Error> {
    match result
    case Ok(report) => if report.stages != [] then Ok(CompactReport(report)) else Err(ResourceLimit)
    case Err(FlowFailure(cause, stages, residual, rollback, _)) =>
      if stages == [] then Err(ResourceLimit)
      else Err(FlowFailure(
                 CompactCause(cause), CompactStages(stages), CompactResidual(residual), CompactRollback(rollback), []))
    case Err(_) => Err(ResourceLimit)
  }

  function Room(used: nat): nat {
    if used <= MAX_BYTES then MAX_BYTES - used else 0
  }

  function BudgetedResponse(id: RequestId, result: Result<Report, Error>, used: nat, codec: Codec):
    Result<seq<Byte>, ProtocolError>
  {
    var whole := EncodeResponse(id, result, codec);
    if whole.Ok? && |whole.value| <= Room(used) then whole
    else
      var compact := if Compact(result) == Err(ResourceLimit) then Err(OverLimit)
                     else EncodeResponse(id, Compact(result), codec);
      var frame :- if compact.Ok? then compact else EncodeResponse(id, Err(ResourceLimit), codec);
      if |frame| <= Room(used) then Ok(frame) else Err(OverLimit)
  }

  // Sizes of the JSON texts, as the library writes them without whitespace.

  function DecimalSize(n: int): (size: nat)
    ensures size >= 1
    decreases if n < 0 then 1 - n else n
  {
    if n < 0 then 1 + DecimalSize(-n) else if n < 10 then 1 else 1 + DecimalSize(n / 10)
  }

  function StageName(stage: Stage): (name: string)
    ensures |name| <= 17
  {
    match stage
    case TargetValidated => "TargetValidated"
    case BootNextVerified => "BootNextVerified"
    case RebootAccepted => "RebootAccepted"
    case RebootRejected => "RebootRejected"
    case RebootUnknown => "RebootUnknown"
    case RollbackAttempted => "RollbackAttempted"
    case RollbackRestored => "RollbackRestored"
    case RollbackUnsafe => "RollbackUnsafe"
    case RollbackFailed => "RollbackFailed"
    case ResidualPossible => "ResidualPossible"
  }

  function OperationName(operation: PlatformOperation): (name: string)
    ensures |name| <= 8
  {
    match operation
    case Open => "Open"
    case Read => "Read"
    case Write => "Write"
    case Metadata => "Metadata"
    case Lock => "Lock"
    case Flush => "Flush"
    case Replace => "Replace"
    case Ipc => "Ipc"
    case Reboot => "Reboot"
    case Random => "Random"
    case Process => "Process"
    case Security => "Security"
  }

  function ErrorName(error: Error): (name: string)
    ensures |name| <= 28
    ensures error.PlatformIo? ==> |name| == 10
  {
    match error
    case MalformedLoadOption => "MalformedLoadOption"
    case MalformedDevicePath => "MalformedDevicePath"
    case ResourceLimit => "ResourceLimit"
    case UnsupportedFormat => "UnsupportedFormat"
    case UnsupportedRecordVersion(_) => "UnsupportedRecordVersion"
    case UnsupportedIdentityComponent => "UnsupportedIdentityComponent"
    case CorruptRecord => "CorruptRecord"
    case IdentityMismatch => "IdentityMismatch"
    case UnexpectedOs => "UnexpectedOs"
    case TargetMissing => "TargetMissing"
    case NotConfigured => "NotConfigured"
    case BootNextConflict => "BootNextConflict"
    case Busy => "Busy"
    case ReadbackFailed => "ReadbackFailed"
    case RebootRejectedError => "RebootRejected"
    case NotUefi => "NotUefi"
    case PrivilegeUnavailable => "PrivilegeUnavailable"
    case PrivilegeEnableFailed(_) => "PrivilegeEnableFailed"
    case PrivilegeRestoreFailed(_) => "PrivilegeRestoreFailed"
    case FirmwareReadFailed(_) => "FirmwareReadFailed"
    case FirmwareWriteFailed(_) => "FirmwareWriteFailed"
    case BootNextUnavailable(_) => "BootNextUnavailable"
    case ProtectedStoreViolation(_) => "ProtectedStoreViolation"
    case StoreReplaceFailed(_) => "StoreReplaceFailed"
    case PlatformIo(_, _) => "PlatformIo"
    case StoreDurabilityUnknown(_) => "StoreDurabilityUnknown"
    case FlowFailure(_, _, _, _, _) => "FlowFailure"
  }

  // The size of the fixed part of each JSON form, with the variable parts left out.

  const DIAGNOSTIC_FRAME := 23 // {"DuplicateBootOrder":}
  const FOUND_FRAME := 15 // {"":{"found":}}
  const OPERATION_FRAME := 33 // {"":{"operation":"","raw_code":}}
  const FLOW_FRAME := 86 // {"":{"cause":,"stages":,"residual_assessment":,"rollback_assessment":,"diagnostics":}}
  const RAW_CODE_FRAME := 18 // {"":{"raw_code":}}
  const NOT_CHECKED_TEXT := 12 // "NotChecked"
  const OBSERVED_NONE_TEXT := 17 // {"Observed":null}
  const OBSERVED_FRAME := 13 // {"Observed":}
  const READ_FAILED_FRAME := 15 // {"ReadFailed":}
  const FAILED_FRAME := 11 // {"Failed":}
  const CANDIDATE_FRAME := 66 // {"boot_id":,"description_utf16":,"classification":"","ambiguous":}
  const READY_FRAME := 30 // {"Ready":{"boot_id":,"os":""}}
  const REPORT_FRAME := 50 // {"candidates":,"record":,"stages":,"diagnostics":}
  const RESPONSE_FRAME := 47 // {"protocol_version":,"request_id":"","result":}

  /** A JSON array of elements of the given sizes. */
  function ListSize(sizes: seq<nat>): nat {
    2 + Sum(sizes) + if sizes == [] then 0 else |sizes| - 1
  }

  function Sum(sizes: seq<nat>): nat {
    if sizes == [] then 0 else sizes[0] + Sum(sizes[1..])
  }

  function StagesSize(stages: seq<Stage>): nat {
    ListSize(seq(|stages|, i requires 0 <= i < |stages| => 2 + |StageName(stages[i])|))
  }

  function DiagnosticsSize(diagnostics: seq<EnumerationDiagnostic>): nat {
    ListSize(seq(|diagnostics|, i requires 0 <= i < |diagnostics| =>
                   DIAGNOSTIC_FRAME + DecimalSize(diagnostics[i].bootId)))
  }

  function ErrorSize(error: Error): nat {
    var name := |ErrorName(error)|;
    match error
    case UnsupportedRecordVersion(found) => FOUND_FRAME + name + DecimalSize(found)
    case PlatformIo(operation, rawCode) =>
      OPERATION_FRAME + name + |OperationName(operation)| + DecimalSize(rawCode)
    case FlowFailure(cause, stages, residual, rollback, diagnostics) =>
      FLOW_FRAME
      + name + ErrorSize(cause) + StagesSize(stages) + ResidualSize(residual) + RollbackSize(rollback)
      + DiagnosticsSize(diagnostics)
    case _ =>
      if HasRawCode(error) then RAW_CODE_FRAME + name + DecimalSize(error.rawCode) else 2 + name
  }

  predicate HasRawCode(error: Error) {
    || error.PrivilegeEnableFailed? || error.PrivilegeRestoreFailed? || error.FirmwareReadFailed?
    || error.FirmwareWriteFailed? || error.BootNextUnavailable? || error.ProtectedStoreViolation?
    || error.StoreReplaceFailed? || error.StoreDurabilityUnknown?
  }

  function ResidualSize(residual: ResidualAssessment): nat {
    match residual
    case NotChecked => NOT_CHECKED_TEXT
    case Observed(None) => OBSERVED_NONE_TEXT
    case Observed(Some(id)) => OBSERVED_FRAME + DecimalSize(id)
    case ReadFailed(error) => READ_FAILED_FRAME + ErrorSize(error)
  }

  function RollbackSize(rollback: RollbackAssessment): nat {
    match rollback
    case RollbackNotNeeded => 11
    case RollbackDone => 10
    case RollbackNotSafe => 8
    case RollbackErred(error) => FAILED_FRAME + ErrorSize(error)
  }

  function CandidateSize(candidate: Candidate): nat {
    var units := candidate.description;
    CANDIDATE_FRAME
    + DecimalSize(candidate.bootId)
    + ListSize(seq(|units|, i requires 0 <= i < |units| => DecimalSize(units[i])))
    + (if candidate.classification.NeedsConfirmation? then |"NeedsConfirmation"| else |"Unsupported"|)
    + (if candidate.ambiguous then |"true"| else |"false"|)
  }

  function RecordSize(record: RecordDiagnostic): nat {
    match record
    case Missing => |"\"Missing\""|
    case Ready(id, os) =>
      READY_FRAME + DecimalSize(id) + if os.Windows? then |"Windows"| else |"Linux"|
  }

  function ReportSize(report: Report): nat {
    var candidates := report.candidates;
    REPORT_FRAME
    + ListSize(seq(|candidates|, i requires 0 <= i < |candidates| => CandidateSize(candidates[i])))
    + RecordSize(report.record) + StagesSize(report.stages) + DiagnosticsSize(report.diagnostics)
  }

  function ResponseSize(message: ResponseEnvelope): nat {
    RESPONSE_FRAME + DecimalSize(message.version) + |message.id|
    + match message.result
      case Ok(report) => |"{\"Ok\":}"| + ReportSize(report)
      case Err(error) => |"{\"Err\":}"| + ErrorSize(error)
  }

  // Compact responses are small.

  lemma DecimalBounds(n: int)
    ensures 0 <= n < 10 ==> DecimalSize(n) == 1
    ensures 0 <= n < 0x1_0000 ==> DecimalSize(n) <= 5
    ensures -0x8000_0000 <= n <= 0x8000_0000 ==> DecimalSize(n) <= 11
    ensures 0 <= n < 0x1_0000_0000_0000_0000 ==> DecimalSize(n) <= 20
  {
    DecimalBound(n, 5);
    DecimalBound(n, 10);
    DecimalBound(-n, 10);
    DecimalBound(n, 20);
    assert Pow10(5) == 100_000 && Pow10(10) == 10_000_000_000 && Pow10(20) == 100_000_000_000_000_000_000 by {
      PowersOfTen();
    }
  }

  function Pow10(k: nat): nat {
    if k == 0 then 1 else 10 * Pow10(k - 1)
  }

  lemma PowersOfTen()
    ensures Pow10(5) == 100_000 && Pow10(10) == 10_000_000_000 && Pow10(20) == 100_000_000_000_000_000_000
  {
    assert Pow10(2) == 100 && Pow10(4) == 10_000 && Pow10(5) == 100_000;
    assert Pow10(7) == 10_000_000 && Pow10(9) == 1_000_000_000 && Pow10(10) == 10_000_000_000;
    assert Pow10(12) == 1_000_000_000_000 && Pow10(14) == 100_000_000_000_000;
    assert Pow10(16) == 10_000_000_000_000_000 && Pow10(18) == 1_000_000_000_000_000_000;
  }

  lemma {:induction false} DecimalBound(n: int, k: nat)
    requires k >= 1
    ensures 0 <= n < Pow10(k) ==> DecimalSize(n) <= k
  {
    if 10 <= n < Pow10(k) && k > 1 {
      DecimalBound(n / 10, k - 1);
    }
  }

  lemma PlainErrorIsSmall(error: Error)
    requires !error.FlowFailure?
    ensures ErrorSize(error) <= 80
  {
    hide ErrorName, OperationName, DecimalSize;
    if error.UnsupportedRecordVersion? {
      DecimalBounds(error.found);
    } else if error.PlatformIo? || HasRawCode(error) {
      DecimalBounds(error.rawCode);
    }
  }

  lemma {:induction false} SumBound(sizes: seq<nat>, most: nat)
    requires forall i | 0 <= i < |sizes| :: sizes[i] <= most
    ensures Sum(sizes) <= |sizes| * most
  {
    if sizes != [] {
      SumBound(sizes[1..], most);
    }
  }

  lemma StagesAreSmall(stages: seq<Stage>)
    requires |stages| <= MAX_COMPACT_STAGES
    ensures StagesSize(stages) <= 5_200
  {
    hide StageName;
    var sizes := seq(|stages|, i requires 0 <= i < |stages| => 2 + |StageName(stages[i])|);
    SumBound(sizes, 19);
  }

  lemma CompactErrorIsSmall(error: Error)
    requires error.FlowFailure? && !error.cause.FlowFailure? && |error.stages| <= MAX_COMPACT_STAGES
    requires error.residual.ReadFailed? ==> !error.residual.error.FlowFailure?
    requires error.rollback.RollbackErred? ==> !error.rollback.error.FlowFailure?
    requires error.diagnostics == []
    ensures ErrorSize(error) <= 5_700
  {
    PlainErrorIsSmall(error.cause);
    StagesAreSmall(error.stages);
    AssessmentsAreSmall(error.residual, error.rollback);
    hide ErrorName, StagesSize, ResidualSize, RollbackSize;
    assert DiagnosticsSize([]) == 2;
  }

  lemma AssessmentsAreSmall(residual: ResidualAssessment, rollback: RollbackAssessment)
    requires residual.ReadFailed? ==> !residual.error.FlowFailure?
    requires rollback.RollbackErred? ==> !rollback.error.FlowFailure?
    ensures ResidualSize(residual) <= 100 && RollbackSize(rollback) <= 100
  {
    if residual.ReadFailed? {
      PlainErrorIsSmall(residual.error);
    } else if residual.Observed? && residual.next.Some? {
      DecimalBounds(residual.next.value);
    }
    if rollback.RollbackErred? {
      PlainErrorIsSmall(rollback.error);
    }
    hide ErrorSize, DecimalSize;
  }

  lemma CompactReportIsSmall(report: Report)
    requires |report.candidates| <= 1 && |report.stages| <= MAX_COMPACT_STAGES && report.diagnostics == []
    requires forall c | c in report.candidates :: c.description == []
    ensures ReportSize(report) <= 5_700
  {
    StagesAreSmall(report.stages);
    RecordIsSmall(report.record);
    var candidates := report.candidates;
    var sizes: seq<nat> := seq(|candidates|, i requires 0 <= i < |candidates| => CandidateSize(candidates[i]));
    if |candidates| == 1 {
      assert candidates[0] in candidates;
      CandidateIsSmall(candidates[0]);
    }
    SumBound(sizes, 200);
    hide StagesSize, RecordSize, CandidateSize, Sum;
    assert ListSize(sizes) <= 202;
    assert DiagnosticsSize([]) == ListSize([]);
    SumBound([], 0);
  }

  lemma RecordIsSmall(record: RecordDiagnostic)
    ensures RecordSize(record) <= 50
  {
    if record.Ready? {
      DecimalBounds(record.bootId);
    }
    hide DecimalSize;
  }

  lemma CandidateIsSmall(candidate: Candidate)
    requires candidate.description == []
    ensures CandidateSize(candidate) <= 200
  {
    DecimalBounds(candidate.bootId);
    hide DecimalSize;
    assert ListSize([]) == 2;
  }

  lemma CompactIsSmall(id: RequestId, result: Result<Report, Error>)
    requires |id| == 32
    requires result.Ok? ==> |result.value.stages| <= MAX_COMPACT_STAGES
    ensures ResponseSize(ResponseEnvelope(PROTOCOL_VERSION, id, Compact(result))) <= 6_000
  {
    DecimalBounds(2);
    match Compact(result) {
      case Ok(report) =>
        CompactReportIsSmall(report);
      case Err(error) =>
        if error.FlowFailure? {
          CompactErrorIsSmall(error);
        } else {
          PlainErrorIsSmall(error);
        }
    }
    hide ErrorSize, ReportSize, DecimalSize, Compact;
  }

  /** What a response takes on the wire. */
  function FrameSize(id: RequestId, result: Result<Report, Error>): (size: nat)
    ensures size >= 4
  {
    4 + ResponseSize(ResponseEnvelope(PROTOCOL_VERSION, id, result))
  }

  /**
   * What the helper answers behind `used` bytes, going by sizes alone: the result if it fits, else its
   * compact form, else a resource error. A compact form that is a frame but does not fit the room left
   * is not replaced again: then nothing is answered.
   */
  function Sent(id: RequestId, result: Result<Report, Error>, used: nat): Option<Result<Report, Error>> {
    if used + FrameSize(id, result) <= MAX_BYTES then Some(result)
    else if FrameSize(id, Compact(result)) <= MAX_BYTES then
      if used + FrameSize(id, Compact(result)) <= MAX_BYTES then Some(Compact(result)) else None
    else if used + FrameSize(id, Err(ResourceLimit)) <= MAX_BYTES then Some(Err(ResourceLimit))
    else None
  }

  lemma EncodedSize(id: RequestId, result: Result<Report, Error>, codec: Codec)
    requires codec.Lawful() && ValidId(id)
    ensures EncodeResponse(id, result, codec).Ok? <==> FrameSize(id, result) <= MAX_BYTES
    ensures EncodeResponse(id, result, codec).Ok? ==> |EncodeResponse(id, result, codec).value| == FrameSize(id, result)
  {
    hide ResponseSize;
    assert codec.ResponseLaw(ResponseEnvelope(PROTOCOL_VERSION, id, result));
  }

  /** The budgeted response is the frame of exactly the answer the sizes call for, and it fits the room left. */
  lemma BudgetedExactly(id: RequestId, result: Result<Report, Error>, used: nat, codec: Codec)
    requires codec.Lawful() && ValidId(id)
    ensures var frame := BudgetedResponse(id, result, used, codec);
            match Sent(id, result, used)
            case None => frame == Err(OverLimit)
            case Some(answer) =>
              frame.Ok? && frame == EncodeResponse(id, answer, codec) && used + |frame.value| <= MAX_BYTES
  {
    hide EncodeResponse, FrameSize, Compact, Codec.Lawful;
    EncodedSize(id, result, codec);
    EncodedSize(id, Compact(result), codec);
    EncodedSize(id, Err(ResourceLimit), codec);
    LimitIsSmall(id);
    hide ValidId;
  }

  lemma LimitIsSmall(id: RequestId)
    requires |id| == 32
    ensures FrameSize(id, Err(ResourceLimit)) <= 200
  {
    DecimalBounds(2);
  }

  /**
   * Beside hello, the answer is the result or its compact form, by the size of the result alone; a report
   * of more than 256 stages is the only result for which it can be anything else.
   */
  lemma AnswerBesideHello(id: RequestId, result: Result<Report, Error>, used: nat)
    requires |id| == 32 && used <= 68
    requires result.Ok? ==> |result.value.stages| <= MAX_COMPACT_STAGES
    ensures Sent(id, result, used)
         == Some(if used + FrameSize(id, result) <= MAX_BYTES then result else Compact(result))
  {
    CompactIsSmall(id, result);
    hide ResponseSize, Compact;
  }

  /** With enough stages not even the compact form is a frame, and the resource error replaces the report. */
  lemma ManyStagesAreLost(id: RequestId, report: Report, used: nat)
    requires |id| == 32 && used <= 68 && |report.stages| >= MAX_BYTES
    ensures Sent(id, Ok(report), used) == Some(Err(ResourceLimit))
  {
    LimitIsSmall(id);
    hide ErrorSize, DecimalSize;
  }

  /**
   * Beside the hello frame there is always room: the response is the result or its compact form, and
   * whatever stages the result has are kept, up to the first 256.
   */
  lemma BudgetedKeepsStages(id: RequestId, result: Result<Report, Error>, codec: Codec)
    requires codec.Lawful() && ValidId(id)
    requires result.Ok? ==> |result.value.stages| <= MAX_COMPACT_STAGES
    ensures var frame := BudgetedResponse(id, result, |HelloFrame(codec)|, codec);
            && frame.Ok? && |HelloFrame(codec)| + |frame.value| <= MAX_BYTES
            && (frame == EncodeResponse(id, result, codec) || frame == EncodeResponse(id, Compact(result), codec))
    ensures StagesOf(Compact(result)) == CompactStages(StagesOf(result))
  {
    hide EncodeResponse, ResponseSize, Compact, StagesOf, CompactStages, HelloFrame, Codec.Lawful;
    HelloRoundTrip(codec);
    CompactIsSmall(id, result);
    CompactHasStages(result);
    EncodedSize(id, Compact(result), codec);
    hide ValidId;
  }

  lemma CompactHasStages(result: Result<Report, Error>)
    requires result.Ok? ==> |result.value.stages| <= MAX_COMPACT_STAGES
    ensures StagesOf(Compact(result)) == CompactStages(StagesOf(result))
  {
  }

  function StagesOf(result: Result<Report, Error>): seq<Stage> {
    match result
    case Ok(report) => report.stages
    case Err(error) => if error.FlowFailure? then error.stages else []
  }
}
