/** The core, the helper session, the protocol, the client and the controller together. */
module EndToEnd {
  import opened Results
  import opened Bytes
  import opened Model
  import opened Identities
  import opened Flow
  import opened Protocol
  import opened Transport
  import opened Exchange
  import opened Session
  import Controllers

  /** The operation of a helper that reached its platform: one transaction, sent once. */
  function CoreRun(request: Request, host: Os, sha: Sha256, answers: Answers): OperationRun {
    OperationRun([Execute(request, host, sha, answers).result], Ok(()))
  }

  /** A plain error always fits beside the hello frame, so it is never replaced. */
  lemma PlainErrorIsSentWhole(id: RequestId, error: Error, codec: Codec)
    requires codec.Lawful() && ValidId(id) && !error.FlowFailure?
    ensures |HelloFrame(codec)| + FrameSize(id, Err(error)) <= MAX_BYTES
    ensures BudgetedResponse(id, Err(error), |HelloFrame(codec)|, codec) == EncodeResponse(id, Err(error), codec)
    ensures EncodeResponse(id, Err(error), codec).Ok?
  {
    HelloRoundTrip(codec);
    PlainErrorIsSmall(error);
    DecimalBounds(2);
    hide ErrorSize, DecimalSize, Compact, HelloFrame, EncodeResponse, BudgetedResponse;
    assert |HelloFrame(codec)| + FrameSize(id, Err(error)) <= MAX_BYTES;
    BudgetedExactly(id, Err(error), |HelloFrame(codec)|, codec);
  }

  /** Losing its diagnostics does not change what a flow failure is shown as. */
  lemma DiagnosticsDoNotMatter(error: Error)
    requires error.FlowFailure?
    ensures Controllers.DomainState(error.(diagnostics := [])) == Controllers.DomainState(error)
  {
  }

  /** The compact form of a staged core result means the same to the controller as the result itself. */
  lemma CompactMeansTheSame(request: Request, host: Os, sha: Sha256, answers: Answers)
    requires PlainAnswers(answers)
    ensures var result, os := Execute(request, host, sha, answers).result, ExpectedTarget(host);
            StagesOf(result) != [] ==>
              Controllers.OutcomeState(request, Translate(Compact(result)), os)
              == Controllers.OutcomeState(request, Translate(result), os)
  {
    hide Execute, PlainAnswers, StagesOf, Controllers.OutcomeState;
    var result := Execute(request, host, sha, answers).result;
    RunsAreShallow(request, host, sha, answers);
    ShallowCompaction(result);
    if StagesOf(result) != [] && result.Ok? {
      ReportsAreAccepted(request, host, sha, answers);
      CompactReportMeansTheSame(request, result.value, ExpectedTarget(host));
    } else if StagesOf(result) != [] {
      CompactFailureMeansTheSame(request, result.error, ExpectedTarget(host));
    }
  }

  lemma CompactReportMeansTheSame(request: Request, report: Report, os: Os)
    requires StagesOf(Ok(report)) != []
    requires ValidateReport(request, CompactReport(report), os) == ValidateReport(request, report, os)
    ensures Controllers.OutcomeState(request, Translate(Compact(Ok(report))), os)
         == Controllers.OutcomeState(request, Translate(Ok(report)), os)
  {
    hide ValidateReport;
  }

  lemma CompactFailureMeansTheSame(request: Request, error: Error, os: Os)
    requires StagesOf(Err(error)) != []
    requires error.FlowFailure? ==> Compact(Err(error)) == Err(error.(diagnostics := []))
    ensures Controllers.OutcomeState(request, Translate(Compact(Err(error))), os)
         == Controllers.OutcomeState(request, Translate(Err(error)), os)
  {
    DiagnosticsDoNotMatter(error);
    hide Controllers.DomainState, Compact;
  }

  /** The report of an inspection that does not fit beside hello. */
  ghost predicate TooLarge(id: RequestId, request: Request, result: Result<Report, Error>, codec: Codec) {
    request.Inspect? && result.Ok? && |HelloFrame(codec)| + FrameSize(id, result) > MAX_BYTES
  }

  /** What the client is told of a core result, and what the controller makes of it. */
  ghost predicate Reaches(
    id: RequestId, request: Request, result: Result<Report, Error>, told: Result<Report, ClientError>, os: Os,
    codec: Codec)
  {
    && (request.Inspect? && result.Ok? ==>
          told == if TooLarge(id, request, result, codec) then Err(Domain(ResourceLimit)) else Ok(result.value))
    && (Controllers.OutcomeState(request, told, os) == Controllers.OutcomeState(request, Translate(result), os)
        <==> !TooLarge(id, request, result, codec))
  }

  lemma PlainErrorReaches(
    id: RequestId, request: Request, error: Error, told: Result<Report, ClientError>, os: Os, codec: Codec)
    requires codec.Lawful() && ValidId(id) && !error.FlowFailure? && IsAnswer(id, Err(error), told, codec)
    ensures Reaches(id, request, Err(error), told, os, codec)
  {
    hide IsAnswer, HelloFrame, FrameSize, Compact, Controllers.OutcomeState, Sent, BudgetedResponse, EncodeResponse;
    PlainErrorIsSentWhole(id, error, codec);
    AnswerMeans(id, Err(error), told, codec);
  }

  lemma CoreAnswerReaches(
    id: RequestId, request: Request, told: Result<Report, ClientError>, host: Os, sha: Sha256, answers: Answers,
    codec: Codec)
    requires codec.Lawful() && ValidId(id) && PlainAnswers(answers)
    requires IsAnswer(id, Execute(request, host, sha, answers).result, told, codec)
    ensures Reaches(id, request, Execute(request, host, sha, answers).result, told, ExpectedTarget(host), codec)
  {
    hide Execute, IsAnswer, HelloFrame, FrameSize, Compact, Sent, PlainAnswers, ValidId, Controllers.OutcomeState;
    var result := Execute(request, host, sha, answers).result;
    RunsAreShallow(request, host, sha, answers);
    if result.Err? && StagesOf(result) == [] {
      StagelessErrorIsPlain(request, host, sha, answers);
      PlainErrorReaches(id, request, result.error, told, ExpectedTarget(host), codec);
    } else {
      AnswerMeans(id, result, told, codec);
      if StagesOf(result) != [] {
        CompactMeansTheSame(request, host, sha, answers);
        if result.Ok? {
          StagedIsNoInspect(request, host, sha, answers);
        }
      } else {
        StagelessIsInspect(request, host, sha, answers);
        ReportsAreNotFailures(request, result.value, ExpectedTarget(host));
      }
    }
  }

  lemma ReportsAreNotFailures(request: Request, report: Report, os: Os)
    ensures Controllers.OutcomeState(request, Ok(report), os) != Controllers.Failed
    ensures Controllers.OutcomeState(request, Err(Domain(ResourceLimit)), os) == Controllers.Failed
  {
    hide ValidateReport;
  }

  /**
   * Whatever the client accepts as the answer to its request, the controller goes to the very state the
   * core's own result calls for, exactly unless that is the report of an inspection whose frame does not
   * fit beside hello. That one is answered as a resource error.
   */
  lemma CoreOutcomeReachesController(
    id: RequestId, request: Request, script: Script, euid: U32, peer: Peer, host: Os, sha: Sha256, answers: Answers,
    codec: Codec)
    requires codec.Lawful() && ValidId(id) && PlainAnswers(answers)
    requires DeliversTo(RunExchange(id, request, script, codec), script, peer.received)
    requires PassesOn(script, Output(Serve(euid, peer, r => CoreRun(r, host, sha, answers), codec).events))
    requires Delivered(RunExchange(id, request, script, codec).result)
    ensures Reaches(id, request, Execute(request, host, sha, answers).result,
                    RunExchange(id, request, script, codec).result, ExpectedTarget(host), codec)
  {
    hide Serve, RunExchange, Execute, IsAnswer, Reaches, PlainAnswers, PassesOn, DeliversTo, ValidId;
    DeliveredIsOwnFrame(id, request, script, euid, peer, r => CoreRun(r, host, sha, answers), codec);
    CoreAnswerReaches(id, request, RunExchange(id, request, script, codec).result, host, sha, answers, codec);
  }

  /** The same on Windows: a refused guard or platform reaches the controller as the plain error it is. */
  lemma CoreOutcomeReachesControllerWindows(
    id: RequestId, request: Request, script: Script, w: WindowsPeer, host: Os, sha: Sha256, answers: Answers,
    codec: Codec)
    requires codec.Lawful() && ValidId(id) && PlainAnswers(answers)
    requires w.acquired.Err? ==> !w.acquired.error.FlowFailure?
    requires w.constructed.Err? ==> !w.constructed.error.FlowFailure?
    requires DeliversTo(RunExchange(id, request, script, codec), script, w.peer.received)
    requires PassesOn(script, Output(ServeWindows(w, r => Execute(r, host, sha, answers).result, codec).events))
    requires Delivered(RunExchange(id, request, script, codec).result)
    ensures Reaches(id, request, WindowsResult(w, r => Execute(r, host, sha, answers).result, request),
                    RunExchange(id, request, script, codec).result, ExpectedTarget(host), codec)
  {
    hide ServeWindows, RunExchange, Execute, IsAnswer, Reaches, PlainAnswers, PassesOn, DeliversTo, ValidId;
    DeliveredIsOwnFrameWindows(id, request, script, w, r => Execute(r, host, sha, answers).result, codec);
    var told := RunExchange(id, request, script, codec).result;
    if w.acquired.Err? {
      PlainErrorReaches(id, request, w.acquired.error, told, ExpectedTarget(host), codec);
    } else if w.constructed.Err? {
      PlainErrorReaches(id, request, w.constructed.error, told, ExpectedTarget(host), codec);
    } else {
      CoreAnswerReaches(id, request, told, host, sha, answers, codec);
    }
  }

  /** An accepted report of the core's run tells how that run ended. */
  lemma AnswerTells(
    id: RequestId, request: Request, told: Result<Report, ClientError>, host: Os, sha: Sha256, answers: Answers,
    codec: Codec)
    requires codec.Lawful() && ValidId(id) && PlainAnswers(answers) && told.Ok?
    requires IsAnswer(id, Execute(request, host, sha, answers).result, told, codec)
    ensures var verdict := ValidateReport(request, told.value, ExpectedTarget(host));
            verdict.Some? ==> HappenedLast(request, verdict.value, Execute(request, host, sha, answers).trace)
  {
    hide Execute, IsAnswer, HelloFrame, FrameSize, Sent, PlainAnswers, ValidId, ValidateReport, HappenedLast;
    RunsAreShallow(request, host, sha, answers);
    AnswerMeans(id, Execute(request, host, sha, answers).result, told, codec);
    ReportsAreAccepted(request, host, sha, answers);
    VerdictsTellWhatHappened(request, host, sha, answers);
  }

  /** What the GUI shows as done was done: the verdict on an accepted report tells how the core's run ended. */
  lemma SeenMeansHappened(
    id: RequestId, request: Request, script: Script, euid: U32, peer: Peer, host: Os, sha: Sha256, answers: Answers,
    codec: Codec)
    requires codec.Lawful() && ValidId(id) && PlainAnswers(answers)
    requires DeliversTo(RunExchange(id, request, script, codec), script, peer.received)
    requires PassesOn(script, Output(Serve(euid, peer, r => CoreRun(r, host, sha, answers), codec).events))
    requires RunExchange(id, request, script, codec).result.Ok?
    ensures var verdict :=
              ValidateReport(request, RunExchange(id, request, script, codec).result.value, ExpectedTarget(host));
            verdict.Some? ==> HappenedLast(request, verdict.value, Execute(request, host, sha, answers).trace)
  {
    hide Serve, RunExchange, Execute, IsAnswer, ValidateReport, HappenedLast;
    hide PlainAnswers, PassesOn, DeliversTo, ValidId;
    DeliveredIsOwnFrame(id, request, script, euid, peer, r => CoreRun(r, host, sha, answers), codec);
    AnswerTells(id, request, RunExchange(id, request, script, codec).result, host, sha, answers, codec);
  }

  /** The same on Windows, where an accepted report also means that guard and platform were had. */
  lemma SeenMeansHappenedWindows(
    id: RequestId, request: Request, script: Script, w: WindowsPeer, host: Os, sha: Sha256, answers: Answers,
    codec: Codec)
    requires codec.Lawful() && ValidId(id) && PlainAnswers(answers)
    requires DeliversTo(RunExchange(id, request, script, codec), script, w.peer.received)
    requires PassesOn(script, Output(ServeWindows(w, r => Execute(r, host, sha, answers).result, codec).events))
    requires RunExchange(id, request, script, codec).result.Ok?
    ensures w.acquired.Ok? && w.constructed.Ok?
    ensures var verdict :=
              ValidateReport(request, RunExchange(id, request, script, codec).result.value, ExpectedTarget(host));
            verdict.Some? ==> HappenedLast(request, verdict.value, Execute(request, host, sha, answers).trace)
  {
    hide ServeWindows, RunExchange, Execute, IsAnswer, ValidateReport, HappenedLast;
    hide PlainAnswers, PassesOn, DeliversTo, ValidId, Sent, HelloFrame, FrameSize;
    DeliveredIsOwnFrameWindows(id, request, script, w, r => Execute(r, host, sha, answers).result, codec);
    var told := RunExchange(id, request, script, codec).result;
    AnswerMeans(id, WindowsResult(w, r => Execute(r, host, sha, answers).result, request), told, codec);
    if w.acquired.Ok? && w.constructed.Ok? {
      AnswerTells(id, request, told, host, sha, answers, codec);
    }
  }

  // What the client may conclude about BootNext.

  /**
   * A told report of a Switch names the target that BootNext now holds, any other told report and every
   * told domain error that admits no residual mean that BootNext is as it was.
   */
  ghost predicate TellsOfNext(
    request: Request, told: Result<Report, ClientError>, before: Option<BootId>, after: Option<BootId>)
  {
    match told
    case Ok(report) =>
      if request.Switch? then report.record.Ready? && after == Some(report.record.bootId) else after == before
    case Err(Domain(error)) => !error.ResidualMayRemain() ==> after == before
    case Err(_) => true
  }

  /** The compact form says the same about BootNext as the result itself. */
  lemma CompactTellsOfNext(
    request: Request, result: Result<Report, Error>, before: Option<BootId>, after: Option<BootId>)
    requires StagesOf(result) != [] && TellsOfNext(request, Translate(result), before, after)
    requires result.Err? ==> Compact(result) == Err(result.error.(diagnostics := []))
    ensures TellsOfNext(request, Translate(Compact(result)), before, after)
  {
  }

  lemma AnswerTellsOfNext(
    id: RequestId, request: Request, told: Result<Report, ClientError>, host: Os, sha: Sha256, answers: Answers,
    values: seq<Option<BootId>>, codec: Codec)
    requires codec.Lawful() && ValidId(id) && PlainAnswers(answers)
    requires FlowSafety.History(Execute(request, host, sha, answers).trace, values)
    requires IsAnswer(id, Execute(request, host, sha, answers).result, told, codec)
    ensures TellsOfNext(request, told, values[0], values[|values| - 1])
  {
    hide Execute, IsAnswer, HelloFrame, FrameSize, Compact, Sent, PlainAnswers, ValidId, Codec.Lawful;
    hide FlowSafety.Truthful;
    var result := Execute(request, host, sha, answers).result;
    FlowSafety.ResidualSound(request, host, sha, answers, values);
    assert TellsOfNext(request, Translate(result), values[0], values[|values| - 1]);
    RunsAreShallow(request, host, sha, answers);
    AnswerMeans(id, result, told, codec);
    if StagesOf(result) != [] {
      ShallowCompaction(result);
      CompactTellsOfNext(request, result, values[0], values[|values| - 1]);
    } else if result.Ok? {
      StagelessIsInspect(request, host, sha, answers);
    } else {
      StagelessErrorIsPlain(request, host, sha, answers);
      PlainErrorIsSentWhole(id, result.error, codec);
    }
  }

  /**
   * Residual reports are sound across the channel: whatever history of BootNext a truthful platform had
   * during the run, the client may conclude from what it is told what BootNext holds.
   */
  lemma ToldOfNext(
    id: RequestId, request: Request, script: Script, euid: U32, peer: Peer, host: Os, sha: Sha256, answers: Answers,
    values: seq<Option<BootId>>, codec: Codec)
    requires codec.Lawful() && ValidId(id) && PlainAnswers(answers)
    requires DeliversTo(RunExchange(id, request, script, codec), script, peer.received)
    requires PassesOn(script, Output(Serve(euid, peer, r => CoreRun(r, host, sha, answers), codec).events))
    requires FlowSafety.History(Execute(request, host, sha, answers).trace, values)
    ensures TellsOfNext(request, RunExchange(id, request, script, codec).result, values[0], values[|values| - 1])
  {
    hide Serve, RunExchange, Execute, IsAnswer, PlainAnswers, PassesOn, DeliversTo, ValidId, FlowSafety.Truthful;
    var told := RunExchange(id, request, script, codec).result;
    if Delivered(told) {
      DeliveredIsOwnFrame(id, request, script, euid, peer, r => CoreRun(r, host, sha, answers), codec);
      AnswerTellsOfNext(id, request, told, host, sha, answers, values, codec);
    }
  }

  /** The same on Windows; behind a refused guard or platform nothing ran, and what is told is an error. */
  lemma ToldOfNextWindows(
    id: RequestId, request: Request, script: Script, w: WindowsPeer, host: Os, sha: Sha256, answers: Answers,
    values: seq<Option<BootId>>, codec: Codec)
    requires codec.Lawful() && ValidId(id) && PlainAnswers(answers)
    requires DeliversTo(RunExchange(id, request, script, codec), script, w.peer.received)
    requires PassesOn(script, Output(ServeWindows(w, r => Execute(r, host, sha, answers).result, codec).events))
    requires FlowSafety.History(Execute(request, host, sha, answers).trace, values)
    ensures w.acquired.Ok? && w.constructed.Ok? ==>
              TellsOfNext(request, RunExchange(id, request, script, codec).result, values[0], values[|values| - 1])
    ensures w.acquired.Err? || w.constructed.Err? ==>
              RunExchange(id, request, script, codec).result.Err?
    ensures (w.acquired.Err? || w.constructed.Err?) && Delivered(RunExchange(id, request, script, codec).result) ==>
              Operations(ServeWindows(w, r => Execute(r, host, sha, answers).result, codec).events) == []
  {
    hide ServeWindows, RunExchange, Execute, IsAnswer, PlainAnswers, PassesOn, DeliversTo, ValidId;
    hide FlowSafety.Truthful, HelloFrame, FrameSize, Sent, TellsOfNext;
    var told := RunExchange(id, request, script, codec).result;
    if Delivered(told) {
      DeliveredIsOwnFrameWindows(id, request, script, w, r => Execute(r, host, sha, answers).result, codec);
      if w.acquired.Ok? && w.constructed.Ok? {
        AnswerTellsOfNext(id, request, told, host, sha, answers, values, codec);
      } else {
        AnswerMeans(id, WindowsResult(w, r => Execute(r, host, sha, answers).result, request), told, codec);
      }
    } else {
      UndeliveredTellsNothing(request, told, values[0], values[|values| - 1]);
    }
  }

  lemma UndeliveredTellsNothing(
    request: Request, told: Result<Report, ClientError>, before: Option<BootId>, after: Option<BootId>)
    requires !Delivered(told)
    ensures told.Err? && TellsOfNext(request, told, before, after)
  {
  }

  lemma StagedIsNoInspect(request: Request, host: Os, sha: Sha256, answers: Answers)
    requires Execute(request, host, sha, answers).result.Ok?
    requires Execute(request, host, sha, answers).result.value.stages != []
    ensures !request.Inspect?
  {
    hide Canonicalize, HasDuplicate, ValidateCanonicalIdentity;
    var t := [LoadRecord(answers.load(0))] + [CheckEnvironment(answers.check(1))] + [ReadOptions(answers.options(2))];
    DispatchOk(request, host, answers.load(0).value, answers.options(2).value, sha, answers, t);
    hide Dispatch, SupportedTarget, DistinctIds;
  }

  lemma StagelessIsInspect(request: Request, host: Os, sha: Sha256, answers: Answers)
    requires Execute(request, host, sha, answers).result.Ok?
    requires Execute(request, host, sha, answers).result.value.stages == []
    ensures request.Inspect?
    ensures Compact(Execute(request, host, sha, answers).result) == Err(ResourceLimit)
  {
    hide Canonicalize, HasDuplicate, ValidateCanonicalIdentity;
    var t := [LoadRecord(answers.load(0))] + [CheckEnvironment(answers.check(1))] + [ReadOptions(answers.options(2))];
    DispatchOk(request, host, answers.load(0).value, answers.options(2).value, sha, answers, t);
    hide Dispatch, SupportedTarget, DistinctIds;
  }

  lemma StagelessErrorIsPlain(request: Request, host: Os, sha: Sha256, answers: Answers)
    requires PlainAnswers(answers) && Execute(request, host, sha, answers).result.Err?
    requires StagesOf(Execute(request, host, sha, answers).result) == []
    ensures !Execute(request, host, sha, answers).result.error.FlowFailure?
  {
    RunsAreShallow(request, host, sha, answers);
    hide Execute, PlainAnswers;
  }

  // What the controller shows of a record that no longer matches the firmware.

  /** A run that gets past enumeration with this record and these entries. */
  ghost predicate Enumerates(answers: Answers, target: TargetRecord, entries: seq<Entry>) {
    && answers.load(0) == Ok(Registered(target)) && ValidateCanonicalIdentity(target.identity).Ok?
    && answers.check(1).Ok?
    && answers.options(2).Ok? && answers.options(2).value.entries == entries && !HasDuplicate(entries)
  }

  /** Every live entry under the record's id, if there is one, has an identity other than the record's. */
  ghost predicate LiveDiffers(target: TargetRecord, entries: seq<Entry>, sha: Sha256) {
    forall k | 0 <= k < |entries| && entries[k].0 == target.bootId ::
      Canonicalize(entries[k].1, sha).Ok? && Canonicalize(entries[k].1, sha).value != target.identity
  }

  lemma FoundEntry(target: TargetRecord, entries: seq<Entry>, sha: Sha256)
    requires !HasDuplicate(entries)
    ensures var index := Position(entries, target.bootId);
            LiveDiffers(target, entries, sha) <==>
              index.Ok? ==>
                && Canonicalize(entries[index.value].1, sha).Ok?
                && Canonicalize(entries[index.value].1, sha).value != target.identity
  {
    hide Canonicalize;
    var index := Position(entries, target.bootId);
    if index.Ok? {
      forall k | 0 <= k < |entries| && entries[k].0 == target.bootId ensures k == index.value {
        assert entries[index.value].0 == entries[k].0;
        assert k < index.value || k > index.value || k == index.value;
      }
    }
  }

  /** Inspecting shows a changed target exactly when the live entry is gone or has another identity. */
  lemma InspectShowsChangeIff(host: Os, sha: Sha256, answers: Answers, target: TargetRecord, entries: seq<Entry>)
    requires Enumerates(answers, target, entries) && target.os == ExpectedTarget(host)
    ensures var result := Execute(Request.Inspect, host, sha, answers).result;
            Controllers.OutcomeState(Request.Inspect, Translate(result), ExpectedTarget(host)).TargetChanged?
            <==> LiveDiffers(target, entries, sha)
  {
    hide Execute, LiveDiffers, HasDuplicate, ValidateReport, Canonicalize, Controllers.OutcomeState;
    FoundEntry(target, entries, sha);
    var result := Execute(Request.Inspect, host, sha, answers).result;
    InspectEnds(host, sha, answers, target, entries);
    if result.Ok? {
      ReportsAreAccepted(Request.Inspect, host, sha, answers);
      ReportShows(Request.Inspect, result.value, ExpectedTarget(host));
    } else {
      PlainErrorShows(Request.Inspect, result.error, ExpectedTarget(host));
    }
  }

  lemma PlainErrorShows(request: Request, error: Error, os: Os)
    requires !error.FlowFailure?
    ensures Controllers.OutcomeState(request, Err(Domain(error)), os).TargetChanged?
       <==> error.TargetMissing? || error.IdentityMismatch?
  {
  }

  lemma ReportShows(request: Request, report: Report, os: Os)
    requires ValidateReport(request, report, os) != Some(InspectedChanged)
    ensures !Controllers.OutcomeState(request, Ok(report), os).TargetChanged?
  {
    hide ValidateReport;
  }

  /** How an inspection of a registered target ends. */
  lemma InspectEnds(host: Os, sha: Sha256, answers: Answers, target: TargetRecord, entries: seq<Entry>)
    requires Enumerates(answers, target, entries)
    ensures var result, index := Execute(Request.Inspect, host, sha, answers).result, Position(entries, target.bootId);
            if index.Err? then result == Err(TargetMissing)
            else
              var identity := Canonicalize(entries[index.value].1, sha);
              if identity.Err? then result == Err(identity.error) && !identity.error.FlowFailure?
                                    && !identity.error.TargetMissing? && !identity.error.IdentityMismatch?
              else if identity.value != target.identity then result == Err(IdentityMismatch)
              else result.Ok?
  {
    hide HasDuplicate, ValidateCanonicalIdentity;
    var index := Position(entries, target.bootId);
    if index.Ok? {
      IdentityErrorsAreFormat(entries[index.value].1, sha);
    }
    hide Canonicalize, Position;
  }

  lemma IdentityErrorsAreFormat(option: LoadOption, sha: Sha256)
    ensures Canonicalize(option, sha).Err? ==>
              var error := Canonicalize(option, sha).error;
              !error.FlowFailure? && !error.TargetMissing? && !error.IdentityMismatch?
  {
  }

  /** A save whose durability is unknown is shown as just that. */
  lemma DurabilityIsShown(
    id: BootId, os: Os, host: Os, sha: Sha256, answers: Answers, rawCode: I32, target: TargetRecord)
    requires var trace := Execute(Request.Configure(id, os), host, sha, answers).trace;
             SaveRecord(target, Err(StoreDurabilityUnknown(rawCode))) in trace
    ensures var result := Execute(Request.Configure(id, os), host, sha, answers).result;
            Controllers.OutcomeState(Request.Configure(id, os), Translate(result), ExpectedTarget(host))
            == Controllers.DurabilityUnknown(rawCode)
  {
    hide HasDuplicate, ValidateCanonicalIdentity, Canonicalize, Position, Controllers.OutcomeState;
    var result := Execute(Request.Configure(id, os), host, sha, answers).result;
    assert result.Err? && result.error.FlowFailure? && result.error.stages == [TargetValidated]
        && result.error.cause == StoreDurabilityUnknown(rawCode);
    UncertainSaveShows(Request.Configure(id, os), result.error, ExpectedTarget(host), rawCode);
    hide Execute;
  }

  lemma UncertainSaveShows(request: Request, error: Error, os: Os, rawCode: I32)
    requires error.FlowFailure? && error.cause == StoreDurabilityUnknown(rawCode)
    ensures Controllers.OutcomeState(request, Err(Domain(error)), os) == Controllers.DurabilityUnknown(rawCode)
  {
    assert Controllers.RootCause(error) == error.cause;
  }
}
