/** How the GUI judges a report, and that the core's reports keep their meaning on the way there. */
module Transport {
  import opened Results
  import opened Model
  import opened Identities
  import opened Flow
  import opened Protocol
  import FlowSafety

  datatype Verdict = Inspected | InspectedChanged | Configured | RebootWasAccepted | RebootIsUnknown

  function Matching(candidates: seq<Candidate>, id: BootId): seq<Candidate> {
    if candidates == [] then []
    else (if candidates[0].bootId == id then [candidates[0]] else []) + Matching(candidates[1..], id)
  }

  /** Exactly one candidate has this id, and it is supported. */
  predicate SupportedTarget(candidates: seq<Candidate>, id: BootId) {
    var matching := Matching(candidates, id);
    |matching| == 1 && !matching[0].classification.Unsupported?
  }

  function ValidateReport(request: Request, report: Report, targetOs: Os): Option<Verdict> {
    if report.record.Ready? && report.record.os != targetOs then None
    else
      var hasTarget := report.record.Ready?;
      var supported := hasTarget && SupportedTarget(report.candidates, report.record.bootId);
      match request
      case Inspect =>
        if report.stages != [] then None
        else Some(if hasTarget && !supported then InspectedChanged else Inspected)
      case Configure(id, os) =>
        if os == targetOs && hasTarget && report.record.bootId == id && supported
           && report.stages == [TargetValidated]
        then Some(Configured) else None
      case Switch(os) =>
        if os == targetOs && supported then
          if report.stages == [TargetValidated, BootNextVerified, RebootAccepted] then Some(RebootWasAccepted)
          else if report.stages == [TargetValidated, BootNextVerified, RebootUnknown, ResidualPossible] then
            Some(RebootIsUnknown)
          else None
        else None
  }

  predicate DistinctIds(candidates: seq<Candidate>) {
    forall i, j | 0 <= i < j < |candidates| :: candidates[i].bootId != candidates[j].bootId
  }

  lemma {:induction false} MatchingDistinct(candidates: seq<Candidate>, id: BootId)
    requires DistinctIds(candidates)
    ensures Matching(candidates, id)
         == match FindCandidate(candidates, id) case None => [] case Some(found) => [found]
  {
    if candidates != [] {
      MatchingDistinct(candidates[1..], id);
      if candidates[0].bootId == id && FindCandidate(candidates[1..], id).Some? {
        Found(candidates[1..], id);
      }
    }
  }

  lemma {:induction false} Found(candidates: seq<Candidate>, id: BootId)
    requires FindCandidate(candidates, id).Some?
    ensures exists k :: 0 <= k < |candidates| && candidates[k].bootId == id
                     && FindCandidate(candidates, id) == Some(candidates[k])
  {
    if candidates[0].bootId != id {
      Found(candidates[1..], id);
      var k :| 0 <= k < |candidates[1..]| && candidates[1..][k].bootId == id
            && FindCandidate(candidates[1..], id) == Some(candidates[1..][k]);
      assert candidates[k + 1] == candidates[1..][k];
    }
  }

  lemma {:induction false} Finds(candidates: seq<Candidate>, k: nat)
    requires DistinctIds(candidates) && k < |candidates|
    ensures FindCandidate(candidates, candidates[k].bootId) == Some(candidates[k])
  {
    if k > 0 {
      Finds(candidates[1..], k - 1);
      assert candidates[0].bootId != candidates[k].bootId;
    }
  }

  /** Compaction never changes the verdict on a report whose candidates have distinct ids. */
  lemma CompactionKeepsVerdict(request: Request, report: Report, targetOs: Os)
    requires DistinctIds(report.candidates)
    ensures ValidateReport(request, CompactReport(report), targetOs) == ValidateReport(request, report, targetOs)
  {
    if report.record.Ready? {
      var id := report.record.bootId;
      MatchingDistinct(report.candidates, id);
      var compact := CompactReport(report).candidates;
      if compact != [] {
        Found(report.candidates, id);
        assert compact[1..] == [] && Matching(compact, id) == [compact[0]] + Matching([], id);
      }
    }
  }

  lemma CandidatesAreDistinct(entries: seq<Entry>, sha: Sha256)
    requires !HasDuplicate(entries)
    ensures DistinctIds(Candidates(entries, sha))
  {
  }

  /** A live option with an identity is its own supported candidate. */
  lemma LiveTargetIsSupported(entries: seq<Entry>, index: nat, sha: Sha256)
    requires !HasDuplicate(entries) && index < |entries|
    requires Canonicalize(entries[index].1, sha).Ok?
    ensures SupportedTarget(Candidates(entries, sha), entries[index].0)
  {
    var candidates := Candidates(entries, sha);
    CandidatesAreDistinct(entries, sha);
    Finds(candidates, index);
    MatchingDistinct(candidates, entries[index].0);
  }

  /** The stages a successful run reports, by request. */
  ghost predicate ExpectedStages(request: Request, stages: seq<Stage>) {
    match request
    case Inspect => stages == []
    case Configure(_, _) => stages == [TargetValidated]
    case Switch(_) =>
      || stages == [TargetValidated, BootNextVerified, RebootAccepted]
      || stages == [TargetValidated, BootNextVerified, RebootUnknown, ResidualPossible]
  }

  lemma SwitchOk(id: BootId, report: Report, answers: Answers, t: seq<Call>, request: Request)
    requires SetNext(id, report, answers, t).result.Ok?
    requires request.Switch? && report.stages == [TargetValidated]
    ensures var done := SetNext(id, report, answers, t).result.value;
            && ExpectedStages(request, done.stages)
            && done == report.(stages := done.stages)
  {
  }

  lemma DispatchOk(
    request: Request, host: Os, record: RecordState, inventory: OptionInventory, sha: Sha256, answers: Answers,
    t: seq<Call>)
    requires !HasDuplicate(inventory.entries) && !WrongOs(request, host)
    requires Dispatch(request, record, inventory, sha, answers, t).result.Ok?
    ensures var report := Dispatch(request, record, inventory, sha, answers, t).result.value;
            && ExpectedStages(request, report.stages) && DistinctIds(report.candidates)
            && (request.Configure? ==> report.record == Ready(request.bootId, request.os))
            && (!request.Configure? ==> report.record == DiagnosticOf(record))
            && (request.Switch? ==> record.Registered? && record.target.os == request.os)
            && (report.record.Ready? ==> SupportedTarget(report.candidates, report.record.bootId))
  {
    hide SetNext, Canonicalize, SupportedTarget, HasDuplicate, DistinctIds;
    var entries := inventory.entries;
    CandidatesAreDistinct(entries, sha);
    var id := if request.Configure? then request.bootId else if record.Registered? then record.target.bootId else 0;
    if request.Configure? || record.Registered? {
      var index := Position(entries, id).value;
      LiveTargetIsSupported(entries, index, sha);
    }
    if request.Switch? {
      var report := Report(Candidates(entries, sha), DiagnosticOf(record), [TargetValidated], inventory.diagnostics);
      SwitchOk(id, report, answers, t, request);
    }
  }

  /** The record a run starts from is missing or holds the opposite system. */
  ghost predicate OppositeRecord(host: Os, loaded: Result<RecordState, Error>) {
    loaded.Ok? && loaded.value.Registered? ==> loaded.value.target.os == ExpectedTarget(host)
  }

  /**
   * Every successful report is judged acceptable, and never as a changed target, except exactly for an
   * inspection that started from a record of another system than the host's opposite; compaction does
   * not change the judgement.
   */
  lemma ReportsAreAccepted(request: Request, host: Os, sha: Sha256, answers: Answers)
    requires Execute(request, host, sha, answers).result.Ok?
    ensures var report := Execute(request, host, sha, answers).result.value;
            var verdict := ValidateReport(request, report, ExpectedTarget(host));
            && (verdict.None? <==> request.Inspect? && !OppositeRecord(host, answers.load(0)))
            && (verdict.None? <==> report.record.Ready? && report.record.os != ExpectedTarget(host))
            && verdict != Some(InspectedChanged)
            && ValidateReport(request, CompactReport(report), ExpectedTarget(host)) == verdict
            && |report.stages| <= 4
  {
    hide Dispatch, Canonicalize, HasDuplicate, ValidateCanonicalIdentity;
    var t := [LoadRecord(answers.load(0))] + [CheckEnvironment(answers.check(1))] + [ReadOptions(answers.options(2))];
    var record, inventory := answers.load(0).value, answers.options(2).value;
    DispatchOk(request, host, record, inventory, sha, answers, t);
    CompactionKeepsVerdict(request, Execute(request, host, sha, answers).result.value, ExpectedTarget(host));
    hide SupportedTarget, DistinctIds;
  }

  /** What the platform did last in a run that the GUI judges by `verdict`. */
  ghost predicate HappenedLast(request: Request, verdict: Verdict, trace: seq<Call>) {
    trace != [] &&
    var last := trace[|trace| - 1];
    match verdict
    case Inspected => request.Inspect? && last.ReadOptions?
    case InspectedChanged => false
    case Configured => request.Configure? && last.SaveRecord? && last.saved.Ok? && last.target.bootId == request.bootId
    case RebootWasAccepted => request.Switch? && last == RequestReboot(Accepted)
    case RebootIsUnknown => request.Switch? && last == RequestReboot(RebootOutcome.Unknown)
  }

  lemma SwitchEndsInReboot(id: BootId, report: Report, answers: Answers, t: seq<Call>)
    requires SetNext(id, report, answers, t).result.Ok? && report.stages == [TargetValidated]
    ensures var run := SetNext(id, report, answers, t);
            && run.trace != []
            && var last := run.trace[|run.trace| - 1];
               || (last == RequestReboot(Accepted)
                   && run.result.value.stages == [TargetValidated, BootNextVerified, RebootAccepted])
               || (last == RequestReboot(RebootOutcome.Unknown)
                   && run.result.value.stages
                      == [TargetValidated, BootNextVerified, RebootUnknown, ResidualPossible])
  {
  }

  /** A verdict tells what the platform did: the record was saved, the reboot accepted, or its fate unknown. */
  lemma VerdictsTellWhatHappened(request: Request, host: Os, sha: Sha256, answers: Answers)
    requires Execute(request, host, sha, answers).result.Ok?
    ensures var run := Execute(request, host, sha, answers);
            var verdict := ValidateReport(request, run.result.value, ExpectedTarget(host));
            verdict.Some? ==> HappenedLast(request, verdict.value, run.trace)
  {
    hide Dispatch, Canonicalize, HasDuplicate, ValidateCanonicalIdentity, SupportedTarget, DistinctIds;
    var t := [LoadRecord(answers.load(0))] + [CheckEnvironment(answers.check(1))] + [ReadOptions(answers.options(2))];
    var record, inventory := answers.load(0).value, answers.options(2).value;
    DispatchOk(request, host, record, inventory, sha, answers, t);
    DispatchEnds(request, record, inventory, sha, answers, t);
    hide Execute;
  }

  /** Where a successful run ends, after the call that read the options. */
  lemma DispatchEnds(
    request: Request, record: RecordState, inventory: OptionInventory, sha: Sha256, answers: Answers, t: seq<Call>)
    requires Dispatch(request, record, inventory, sha, answers, t).result.Ok?
    ensures var run := Dispatch(request, record, inventory, sha, answers, t);
            && (request.Inspect? ==> run.trace == t)
            && (request.Configure? ==>
                  && run.trace != []
                  && var last := run.trace[|run.trace| - 1];
                     last.SaveRecord? && last.saved.Ok? && last.target.bootId == request.bootId)
            && (request.Switch? ==>
                  && run.trace != []
                  && var last := run.trace[|run.trace| - 1];
                     || (last == RequestReboot(Accepted)
                         && run.result.value.stages == [TargetValidated, BootNextVerified, RebootAccepted])
                     || (last == RequestReboot(RebootOutcome.Unknown)
                         && run.result.value.stages
                            == [TargetValidated, BootNextVerified, RebootUnknown, ResidualPossible]))
  {
    hide SetNext, Canonicalize, Candidates;
    if request.Switch? {
      var report := Report(Candidates(inventory.entries, sha), Ready(record.target.bootId, record.target.os),
                           [TargetValidated], inventory.diagnostics);
      SwitchEndsInReboot(record.target.bootId, report, answers, t);
    }
  }

  /** Runs keep records of the opposite system: a successful report never shows any other. */
  lemma OppositeRecordsStay(request: Request, host: Os, sha: Sha256, answers: Answers)
    requires OppositeRecord(host, answers.load(0))
    ensures var run := Execute(request, host, sha, answers);
            && (forall target, saved | SaveRecord(target, saved) in run.trace :: target.os == ExpectedTarget(host))
            && (run.result.Ok? && run.result.value.record.Ready? ==>
                  run.result.value.record.os == ExpectedTarget(host))
  {
    var run := Execute(request, host, sha, answers);
    SavesAreOpposite(request, host, sha, answers);
    if run.result.Ok? {
      hide Dispatch, Canonicalize, HasDuplicate, ValidateCanonicalIdentity;
      var t := [LoadRecord(answers.load(0))] + [CheckEnvironment(answers.check(1))] + [ReadOptions(answers.options(2))];
      DispatchOk(request, host, answers.load(0).value, answers.options(2).value, sha, answers, t);
    }
  }

  lemma SavesAreOpposite(request: Request, host: Os, sha: Sha256, answers: Answers)
    ensures forall target, saved | SaveRecord(target, saved) in Execute(request, host, sha, answers).trace ::
              target.os == ExpectedTarget(host)
  {
    var trace := Execute(request, host, sha, answers).trace;
    FlowSafety.TraceSafety(request, host, sha, answers);
    forall target, saved | SaveRecord(target, saved) in trace ensures target.os == ExpectedTarget(host) {
      var i :| 0 <= i < |trace| && trace[i] == SaveRecord(target, saved);
      assert FlowSafety.Justified(request, host, sha, trace[..i], trace[i]);
    }
  }

  /** No platform answer is itself a flow failure. */
  ghost predicate PlainAnswers(answers: Answers) {
    forall n: nat ::
      && (answers.load(n).Err? ==> !answers.load(n).error.FlowFailure?)
      && (answers.check(n).Err? ==> !answers.check(n).error.FlowFailure?)
      && (answers.options(n).Err? ==> !answers.options(n).error.FlowFailure?)
      && (answers.save(n).Err? ==> !answers.save(n).error.FlowFailure?)
      && (answers.next(n).Err? ==> !answers.next(n).error.FlowFailure?)
      && (answers.write(n).Err? ==> !answers.write(n).error.FlowFailure?)
      && (answers.rollback(n).Failed? ==> !answers.rollback(n).error.FlowFailure?)
  }

  /** A plain error, or a flow failure over plain errors that has at least one stage. */
  ghost predicate Shallow(error: Error) {
    error.FlowFailure? ==>
      && !error.cause.FlowFailure?
      && (error.residual.ReadFailed? ==> !error.residual.error.FlowFailure?)
      && (error.rollback.RollbackErred? ==> !error.rollback.error.FlowFailure?)
      && 1 <= |error.stages| <= 8
  }

  lemma AssessErrs(
    id: BootId, original: Option<BootId>, wrote: bool, report: Report, answers: Answers, t: seq<Call>)
    requires PlainAnswers(answers) && |report.stages| == 3
    ensures var result := Assess(id, original, wrote, report, answers, t).result;
            result.Err? ==> Shallow(result.error)
  {
  }

  lemma VerifyErrs(
    id: BootId, original: Option<BootId>, wrote: bool, report: Report, answers: Answers, t: seq<Call>)
    requires PlainAnswers(answers) && |report.stages| == 1
    ensures var result := Verify(id, original, wrote, report, answers, t).result;
            result.Err? ==> Shallow(result.error)
  {
    hide Assess;
    var t' := t + [ReadNext(answers.next(|t|))];
    var stages := report.stages + [BootNextVerified, RebootRejected];
    assert report.stages + [BootNextVerified] + [RebootRejected] == stages;
    AssessErrs(
      id, original, wrote, report.(stages := stages), answers, t' + [RequestReboot(answers.reboot(|t'|))]);
  }

  lemma SwitchErrs(id: BootId, report: Report, answers: Answers, t: seq<Call>)
    requires PlainAnswers(answers) && report.stages == [TargetValidated]
    ensures var result := SetNext(id, report, answers, t).result;
            result.Err? ==> Shallow(result.error)
  {
    hide Verify;
    var t1 := t + [ReadNext(answers.next(|t|))];
    var t2 := t1 + [ReadNext(answers.next(|t1|))];
    if answers.next(|t|).Ok? {
      VerifyErrs(id, answers.next(|t|).value, false, report, answers, t1);
    }
    VerifyErrs(id, None, false, report, answers, t2);
    VerifyErrs(id, None, true, report, answers, t2 + [WriteNext(id, answers.write(|t2|))]);
  }

  lemma IdentityErrorsArePlain(option: LoadOption, sha: Sha256)
    ensures Canonicalize(option, sha).Err? ==> !Canonicalize(option, sha).error.FlowFailure?
  {
  }

  lemma DispatchErrs(
    request: Request, record: RecordState, inventory: OptionInventory, sha: Sha256, answers: Answers, t: seq<Call>)
    requires PlainAnswers(answers)
    ensures var result := Dispatch(request, record, inventory, sha, answers, t).result;
            result.Err? ==> Shallow(result.error)
  {
    hide SetNext;
    if record.Registered? {
      var report := Report(
        Candidates(inventory.entries, sha), DiagnosticOf(record), [TargetValidated], inventory.diagnostics);
      SwitchErrs(record.target.bootId, report, answers, t);
    }
    forall option: LoadOption ensures Canonicalize(option, sha).Err? ==> !Canonicalize(option, sha).error.FlowFailure?
    {
      IdentityErrorsArePlain(option, sha);
    }
    hide Canonicalize, Candidates;
  }

  lemma RunErrs(request: Request, host: Os, sha: Sha256, answers: Answers)
    requires PlainAnswers(answers)
    requires Execute(request, host, sha, answers).result.Err?
    ensures Shallow(Execute(request, host, sha, answers).result.error)
  {
    hide Dispatch, HasDuplicate, ValidateCanonicalIdentity;
    if answers.load(0).Ok? && answers.options(2).Ok? {
      var t := [LoadRecord(answers.load(0))] + [CheckEnvironment(answers.check(1))] + [ReadOptions(answers.options(2))];
      DispatchErrs(request, answers.load(0).value, answers.options(2).value, sha, answers, t);
    }
  }

  lemma RunsAreShallow(request: Request, host: Os, sha: Sha256, answers: Answers)
    requires PlainAnswers(answers)
    ensures var result := Execute(request, host, sha, answers).result;
            && |StagesOf(result)| <= 8
            && (result.Err? ==> Shallow(result.error))
  {
    if Execute(request, host, sha, answers).result.Ok? {
      ReportsAreAccepted(request, host, sha, answers);
    } else {
      RunErrs(request, host, sha, answers);
    }
    hide Execute;
  }

  lemma ShallowCompaction(result: Result<Report, Error>)
    requires |StagesOf(result)| <= 8 && (result.Err? ==> Shallow(result.error))
    ensures Nesting(result) <= MAX_NESTING && Nesting(Compact(result)) <= MAX_NESTING
    ensures StagesOf(result) != [] ==> StagesOf(Compact(result)) == StagesOf(result)
    ensures result.Err? && result.error.FlowFailure? ==> Compact(result) == Err(result.error.(diagnostics := []))
  {
    if result.Err? && result.error.FlowFailure? {
      OneLevel(result.error);
      OneLevel(Compact(result).error);
    }
  }

  lemma OneLevel(error: Error)
    requires error.FlowFailure? && Shallow(error)
    ensures ErrorNesting(error) == 1
  {
    assert ErrorNesting(error.cause) == 0;
    assert error.residual.ReadFailed? ==> ErrorNesting(error.residual.error) == 0;
    assert error.rollback.RollbackErred? ==> ErrorNesting(error.rollback.error) == 0;
  }

  /**
   * Core results survive transport. When no platform error is itself a flow failure, the response to any
   * run fits beside the hello frame and is read back by the client as the result or its compact form:
   * a staged result keeps all its stages, and a failure also keeps its cause and assessments.
   */
  lemma ResultsSurviveTransport(
    request: Request, host: Os, sha: Sha256, answers: Answers, id: RequestId, codec: Codec)
    requires PlainAnswers(answers) && codec.Lawful() && ValidId(id)
    ensures var result := Execute(request, host, sha, answers).result;
            var frame := BudgetedResponse(id, result, |HelloFrame(codec)|, codec);
            && frame.Ok? && |HelloFrame(codec)| + |frame.value| <= MAX_BYTES
            && (DecodeResponseFor(frame.value, id, codec) == Ok(result)
                || DecodeResponseFor(frame.value, id, codec) == Ok(Compact(result)))
            && (StagesOf(result) != [] ==> StagesOf(Compact(result)) == StagesOf(result))
            && (result.Err? && result.error.FlowFailure? ==>
                  Compact(result) == Err(result.error.(diagnostics := [])))
  {
    hide Execute, EncodeResponse, BudgetedResponse, DecodeResponseFor, HelloFrame, Compact, StagesOf, Nesting;
    hide PlainAnswers, Shallow, ValidId, ResponseSize;
    var result := Execute(request, host, sha, answers).result;
    RunsAreShallow(request, host, sha, answers);
    ShallowCompaction(result);
    ResponseIsReadBack(id, result, codec);
  }

  lemma ResponseIsReadBack(id: RequestId, result: Result<Report, Error>, codec: Codec)
    requires codec.Lawful() && ValidId(id) && |StagesOf(result)| <= 8
    requires Nesting(result) <= MAX_NESTING && Nesting(Compact(result)) <= MAX_NESTING
    ensures var frame := BudgetedResponse(id, result, |HelloFrame(codec)|, codec);
            && frame.Ok? && |HelloFrame(codec)| + |frame.value| <= MAX_BYTES
            && (DecodeResponseFor(frame.value, id, codec) == Ok(result)
                || DecodeResponseFor(frame.value, id, codec) == Ok(Compact(result)))
  {
    assert result.Ok? ==> |result.value.stages| <= 8;
    hide EncodeResponse, BudgetedResponse, DecodeResponseFor, HelloFrame, Compact, StagesOf, Nesting, ValidId;
    hide ResponseSize;
    BudgetedKeepsStages(id, result, codec);
    if EncodeResponse(id, result, codec).Ok? {
      ResponseRoundTrip(id, result, codec, id);
    }
    if EncodeResponse(id, Compact(result), codec).Ok? {
      ResponseRoundTrip(id, Compact(result), codec, id);
    }
  }
}
