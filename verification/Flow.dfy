/** The switch transaction: one request run against a platform whose every answer is arbitrary. */
module Flow {
  import opened Results
  import opened Model
  import opened Identities

  /** One platform call together with its answer. */
  datatype Call =
    | LoadRecord(loaded: Result<RecordState, Error>)
    | CheckEnvironment(checked: Result<(), Error>)
    | ReadOptions(inventory: Result<OptionInventory, Error>)
    | SaveRecord(target: TargetRecord, saved: Result<(), Error>)
    | ReadNext(next: Result<Option<BootId>, Error>)
    | WriteNext(id: BootId, written: Result<(), Error>)
    | RollbackNext(original: Option<BootId>, id: BootId, outcome: RollbackOutcome)
    | RequestReboot(accepted: RebootOutcome)

  /**
   * The answers a platform gives, by the number of calls made before. A run of the transaction is
   * determined by the answers so far, so these functions cover every platform, adaptive ones included.
   */
  datatype Answers = Answers(
    load: nat -> Result<RecordState, Error>,
    check: nat -> Result<(), Error>,
    options: nat -> Result<OptionInventory, Error>,
    save: nat -> Result<(), Error>,
    next: nat -> Result<Option<BootId>, Error>,
    write: nat -> Result<(), Error>,
    rollback: nat -> RollbackOutcome,
    reboot: nat -> RebootOutcome)

  class Platform {
    const answers: Answers
    var trace: seq<Call>

    constructor (answers: Answers)
      ensures this.answers == answers && trace == []
    {
      this.answers := answers;
      trace := [];
    }

    method Load() returns (r: Result<RecordState, Error>)
      modifies this
      ensures r == answers.load(|old(trace)|) && trace == old(trace) + [LoadRecord(r)]
    {
      r := answers.load(|trace|);
      trace := trace + [LoadRecord(r)];
    }

    method Check() returns (r: Result<(), Error>)
      modifies this
      ensures r == answers.check(|old(trace)|) && trace == old(trace) + [CheckEnvironment(r)]
    {
      r := answers.check(|trace|);
      trace := trace + [CheckEnvironment(r)];
    }

    method Options() returns (r: Result<OptionInventory, Error>)
      modifies this
      ensures r == answers.options(|old(trace)|) && trace == old(trace) + [ReadOptions(r)]
    {
      r := answers.options(|trace|);
      trace := trace + [ReadOptions(r)];
    }

    method Save(target: TargetRecord) returns (r: Result<(), Error>)
      modifies this
      ensures r == answers.save(|old(trace)|) && trace == old(trace) + [SaveRecord(target, r)]
    {
      r := answers.save(|trace|);
      trace := trace + [SaveRecord(target, r)];
    }

    method Next() returns (r: Result<Option<BootId>, Error>)
      modifies this
      ensures r == answers.next(|old(trace)|) && trace == old(trace) + [ReadNext(r)]
    {
      r := answers.next(|trace|);
      trace := trace + [ReadNext(r)];
    }

    method Write(target: BootId) returns (r: Result<(), Error>)
      modifies this
      ensures r == answers.write(|old(trace)|) && trace == old(trace) + [WriteNext(target, r)]
    {
      r := answers.write(|trace|);
      trace := trace + [WriteNext(target, r)];
    }

    method Rollback(original: Option<BootId>, written: BootId) returns (r: RollbackOutcome)
      modifies this
      ensures r == answers.rollback(|old(trace)|) && trace == old(trace) + [RollbackNext(original, written, r)]
    {
      r := answers.rollback(|trace|);
      trace := trace + [RollbackNext(original, written, r)];
    }

    method Reboot() returns (r: RebootOutcome)
      modifies this
      ensures r == answers.reboot(|old(trace)|) && trace == old(trace) + [RequestReboot(r)]
    {
      r := answers.reboot(|trace|);
      trace := trace + [RequestReboot(r)];
    }
  }

  // What the transaction computes from the answers.

  /** A finished run: the calls made and the result handed to the dispatcher. */
  datatype Run = Run(trace: seq<Call>, result: Result<Report, Error>)

  type Entry = (BootId, LoadOption)

  predicate HasDuplicate(entries: seq<Entry>) {
    exists i, j | 0 <= i < j < |entries| :: entries[i].0 == entries[j].0
  }

  /** The first entry with this id. */
  function Position(entries: seq<Entry>, id: BootId): (r: Result<nat, Error>)
    ensures r.Ok? ==> r.value < |entries| && entries[r.value].0 == id
    ensures r.Err? ==> r.error == TargetMissing && forall i | 0 <= i < |entries| :: entries[i].0 != id
  {
    if entries == [] then Err(TargetMissing)
    else if entries[0].0 == id then Ok(0)
    else
      var index :- Position(entries[1..], id);
      Ok(index + 1)
  }

  function CandidateAt(entries: seq<Entry>, i: nat, sha: Sha256): Candidate
    requires i < |entries|
  {
    var identity := Canonicalize(entries[i].1, sha);
    Candidate(
      entries[i].0, entries[i].1.description,
      if identity.Ok? then NeedsConfirmation else Classification.Unsupported,
      identity.Ok? && exists j | 0 <= j < |entries| :: j != i && Canonicalize(entries[j].1, sha) == identity)
  }

  function Candidates(entries: seq<Entry>, sha: Sha256): (candidates: seq<Candidate>)
    ensures |candidates| == |entries|
    ensures forall i | 0 <= i < |entries| :: candidates[i] == CandidateAt(entries, i, sha)
  {
    seq(|entries|, i requires 0 <= i < |entries| => CandidateAt(entries, i, sha))
  }

  function Failure(cause: Error, report: Report, residual: bool): Error {
    FlowFailure(
      cause, report.stages + if residual then [ResidualPossible] else [],
      NotChecked, RollbackNotNeeded, report.diagnostics)
  }

  function DiagnosticOf(record: RecordState): RecordDiagnostic {
    match record
    case NoRecord => Missing
    case Registered(target) => Ready(target.bootId, target.os)
  }

  predicate WrongOs(request: Request, host: Os) {
    !request.Inspect? && request.os != ExpectedTarget(host)
  }

  function Execute(request: Request, host: Os, sha: Sha256, answers: Answers): Run {
    var loaded := answers.load(0);
    var t1 := [LoadRecord(loaded)];
    if loaded.Err? then Run(t1, Err(loaded.error))
    else if loaded.value.Registered? && ValidateCanonicalIdentity(loaded.value.target.identity).Err? then
      Run(t1, Err(CorruptRecord))
    else if WrongOs(request, host) then Run(t1, Err(UnexpectedOs))
    else
      var checked := answers.check(1);
      var t2 := t1 + [CheckEnvironment(checked)];
      if checked.Err? then Run(t2, Err(checked.error))
      else
        var inventory := answers.options(2);
        var t3 := t2 + [ReadOptions(inventory)];
        if inventory.Err? then Run(t3, Err(inventory.error))
        else if HasDuplicate(inventory.value.entries) then Run(t3, Err(UnsupportedFormat))
        else Dispatch(request, loaded.value, inventory.value, sha, answers, t3)
  }

  function Dispatch(
    request: Request, record: RecordState, inventory: OptionInventory, sha: Sha256, answers: Answers, t: seq<Call>): Run
  {
    var entries := inventory.entries;
    var report := Report(Candidates(entries, sha), DiagnosticOf(record), [], inventory.diagnostics);
    match request
    case Inspect =>
      if record.NoRecord? then Run(t, Ok(report))
      else
        var index := Position(entries, record.target.bootId);
        if index.Err? then Run(t, Err(index.error))
        else
          var valid := ValidateTarget(record.target, entries[index.value].1, sha);
          Run(t, if valid.Err? then Err(valid.error) else Ok(report))
    case Configure(bootId, os) =>
      var index := Position(entries, bootId);
      if index.Err? then Run(t, Err(index.error))
      else
        var identity := Canonicalize(entries[index.value].1, sha);
        if identity.Err? then Run(t, Err(identity.error))
        else
          var target := TargetRecord(os, bootId, identity.value);
          var report' := report.(stages := [TargetValidated]);
          var saved := answers.save(|t|);
          var t' := t + [SaveRecord(target, saved)];
          if saved.Err? then Run(t', Err(Failure(saved.error, report', false)))
          else Run(t', Ok(report'.(record := Ready(bootId, os))))
    case Switch(os) =>
      if record.NoRecord? then Run(t, Err(NotConfigured))
      else if record.target.os != os then Run(t, Err(UnexpectedOs))
      else
        var index := Position(entries, record.target.bootId);
        if index.Err? then Run(t, Err(index.error))
        else
          var valid := ValidateTarget(record.target, entries[index.value].1, sha);
          if valid.Err? then Run(t, Err(valid.error))
          else SetNext(record.target.bootId, report.(stages := [TargetValidated]), answers, t)
  }

  function SetNext(id: BootId, report: Report, answers: Answers, t: seq<Call>): Run {
    var first := answers.next(|t|);
    var t1 := t + [ReadNext(first)];
    if first.Err? then Run(t1, Err(Failure(first.error, report, false)))
    else if first.value.Some? && first.value.value != id then Run(t1, Err(Failure(BootNextConflict, report, false)))
    else if first.value.Some? then Verify(id, first.value, false, report, answers, t1)
    else
      var second := answers.next(|t1|);
      var t2 := t1 + [ReadNext(second)];
      if second.Err? then Run(t2, Err(Failure(second.error, report, false)))
      else if second.value.Some? && second.value.value != id then
        Run(t2, Err(Failure(BootNextConflict, report, false)))
      else if second.value.Some? then Verify(id, None, false, report, answers, t2)
      else
        var written := answers.write(|t2|);
        var t3 := t2 + [WriteNext(id, written)];
        if written.Err? then Run(t3, Err(Failure(written.error, report, true)))
        else Verify(id, None, true, report, answers, t3)
  }

  function Verify(
    id: BootId, original: Option<BootId>, wrote: bool, report: Report, answers: Answers, t: seq<Call>): Run
  {
    var next := answers.next(|t|);
    var t' := t + [ReadNext(next)];
    if next.Err? then Run(t', Err(Failure(next.error, report, true)))
    else if next.value != Some(id) then Run(t', Err(Failure(ReadbackFailed, report, true)))
    else RequestRebootFor(id, original, wrote, report.(stages := report.stages + [BootNextVerified]), answers, t')
  }

  function RequestRebootFor(
    id: BootId, original: Option<BootId>, wrote: bool, report: Report, answers: Answers, t: seq<Call>): Run
  {
    var reply := answers.reboot(|t|);
    var t' := t + [RequestReboot(reply)];
    match reply
    case Accepted => Run(t', Ok(report.(stages := report.stages + [RebootAccepted])))
    case Unknown => Run(t', Ok(report.(stages := report.stages + [RebootUnknown, ResidualPossible])))
    case Rejected => Assess(id, original, wrote, report.(stages := report.stages + [RebootRejected]), answers, t')
  }

  function Assess(
    id: BootId, original: Option<BootId>, wrote: bool, report: Report, answers: Answers, t: seq<Call>): Run
  {
    var next := answers.next(|t|);
    var t' := t + [ReadNext(next)];
    if next.Err? then
      Run(t', Err(FlowFailure(
                    RebootRejectedError, report.stages + [RollbackUnsafe, ResidualPossible],
                    ReadFailed(next.error), RollbackNotSafe, report.diagnostics)))
    else
      var (t'', stages, rollback) :=
        if next.value == original then (t', report.stages, RollbackNotNeeded)
        else if !wrote || next.value != Some(id) then (t', report.stages + [RollbackUnsafe], RollbackNotSafe)
        else
          var outcome := answers.rollback(|t'|);
          (t' + [RollbackNext(original, id, outcome)],
           report.stages + [RollbackAttempted] + RollbackStages(outcome), AssessmentOf(outcome));
      var left := if rollback.RollbackNotSafe? || rollback.RollbackErred? then [ResidualPossible] else [];
      Run(t'', Err(FlowFailure(
                     RebootRejectedError, stages + left, Observed(next.value), rollback, report.diagnostics)))
  }

  function RollbackStages(outcome: RollbackOutcome): seq<Stage> {
    match outcome
    case NotNeeded => []
    case Restored => [RollbackRestored]
    case Unsafe => [RollbackUnsafe]
    case Failed(_) => [RollbackFailed]
  }

  function AssessmentOf(outcome: RollbackOutcome): RollbackAssessment {
    match outcome
    case NotNeeded => RollbackNotNeeded
    case Restored => RollbackDone
    case Unsafe => RollbackNotSafe
    case Failed(error) => RollbackErred(error)
  }

  // The transaction as the core drives it.

  method FindDuplicate(entries: seq<Entry>) returns (found: bool)
    ensures found == HasDuplicate(entries)
  {
    var seen: set<BootId> := {};
    for i := 0 to |entries|
      invariant seen == set k | 0 <= k < i :: entries[k].0
      invariant forall j, k | 0 <= j < k < i :: entries[j].0 != entries[k].0
    {
      if entries[i].0 in seen {
        return true;
      }
      seen := seen + {entries[i].0};
    }
    return false;
  }

  method RunExecute(request: Request, host: Os, sha: Sha256, platform: Platform) returns (r: Result<Report, Error>)
    requires platform.trace == []
    modifies platform
    ensures Run(platform.trace, r) == Execute(request, host, sha, platform.answers)
  {
    hide Dispatch, ValidateCanonicalIdentity, HasDuplicate;
    var record :- platform.Load();
    if record.Registered? && ValidateCanonicalIdentity(record.target.identity).Err? {
      return Err(CorruptRecord);
    }
    if WrongOs(request, host) {
      return Err(UnexpectedOs);
    }
    var _ :- platform.Check();
    var inventory :- platform.Options();
    var entries := inventory.entries;
    var duplicated := FindDuplicate(entries);
    if duplicated {
      return Err(UnsupportedFormat);
    }
    assert platform.trace
        == [LoadRecord(Ok(record))] + [CheckEnvironment(Ok(()))] + [ReadOptions(Ok(inventory))];
    r := RunDispatch(request, record, inventory, sha, platform);
  }

  method RunDispatch(
    request: Request, record: RecordState, inventory: OptionInventory, sha: Sha256, platform: Platform)
    returns (r: Result<Report, Error>)
    modifies platform
    ensures Run(platform.trace, r)
         == Dispatch(request, record, inventory, sha, platform.answers, old(platform.trace))
  {
    hide Candidates, ValidateTarget, Canonicalize;
    var entries := inventory.entries;
    var report := Report(Candidates(entries, sha), DiagnosticOf(record), [], inventory.diagnostics);
    match request {
      case Inspect =>
        if record.Registered? {
          var index :- Position(entries, record.target.bootId);
          var _ :- ValidateTarget(record.target, entries[index].1, sha);
        }
        return Ok(report);
      case Configure(bootId, os) =>
        var index :- Position(entries, bootId);
        var identity :- Canonicalize(entries[index].1, sha);
        var target := TargetRecord(os, bootId, identity);
        report := report.(stages := [TargetValidated]);
        var saved := platform.Save(target);
        if saved.Err? {
          return Err(Failure(saved.error, report, false));
        }
        report := report.(record := Ready(bootId, os));
        return Ok(report);
      case Switch(os) =>
        if record.NoRecord? {
          return Err(NotConfigured);
        }
        var target := record.target;
        if target.os != os {
          return Err(UnexpectedOs);
        }
        var index :- Position(entries, target.bootId);
        var _ :- ValidateTarget(target, entries[index].1, sha);
        report := report.(stages := [TargetValidated]);
        r := RunSwitch(target.bootId, report, platform);
    }
  }

  method RunSwitch(id: BootId, initial: Report, platform: Platform) returns (r: Result<Report, Error>)
    modifies platform
    ensures Run(platform.trace, r) == SetNext(id, initial, platform.answers, old(platform.trace))
  {
    var report, wrote := initial, false;
    var original: Option<BootId>;
    var first := platform.Next();
    if first.Err? {
      return Err(Failure(first.error, report, false));
    }
    original := first.value;
    if original.Some? && original.value != id {
      return Err(Failure(BootNextConflict, report, false));
    }
    if original.None? {
      var second := platform.Next();
      if second.Err? {
        return Err(Failure(second.error, report, false));
      }
      match second.value {
        case Some(other) =>
          if other != id {
            return Err(Failure(BootNextConflict, report, false));
          }
        case None =>
          var written := platform.Write(id);
          if written.Err? {
            return Err(Failure(written.error, report, true));
          }
          wrote := true;
      }
    }
    assert SetNext(id, initial, platform.answers, old(platform.trace))
        == Verify(id, original, wrote, report, platform.answers, platform.trace);
    var readback := platform.Next();
    if readback.Err? {
      return Err(Failure(readback.error, report, true));
    }
    if readback.value != Some(id) {
      return Err(Failure(ReadbackFailed, report, true));
    }
    report := report.(stages := report.stages + [BootNextVerified]);
    var reply := platform.Reboot();
    match reply {
      case Accepted =>
        report := report.(stages := report.stages + [RebootAccepted]);
      case Unknown =>
        report := report.(stages := report.stages + [RebootUnknown, ResidualPossible]);
      case Rejected =>
        report := report.(stages := report.stages + [RebootRejected]);
        r := RunAssess(id, original, wrote, report, platform);
        return;
    }
    return Ok(report);
  }

  method RunAssess(id: BootId, original: Option<BootId>, wrote: bool, initial: Report, platform: Platform)
    returns (r: Result<Report, Error>)
    modifies platform
    ensures Run(platform.trace, r)
         == Assess(id, original, wrote, initial, platform.answers, old(platform.trace))
  {
    var stages := initial.stages;
    var next := platform.Next();
    if next.Err? {
      stages := stages + [RollbackUnsafe, ResidualPossible];
      return Err(FlowFailure(
                   RebootRejectedError, stages, ReadFailed(next.error), RollbackNotSafe, initial.diagnostics));
    }
    var rollback;
    if next.value == original {
      rollback := RollbackNotNeeded;
    } else if !wrote || next.value != Some(id) {
      stages := stages + [RollbackUnsafe];
      rollback := RollbackNotSafe;
    } else {
      stages := stages + [RollbackAttempted];
      var outcome := platform.Rollback(original, id);
      stages := stages + RollbackStages(outcome);
      rollback := AssessmentOf(outcome);
    }
    if rollback.RollbackNotSafe? || rollback.RollbackErred? {
      stages := stages + [ResidualPossible];
    } else {
      assert stages + [] == stages;
    }
    return Err(FlowFailure(RebootRejectedError, stages, Observed(next.value), rollback, initial.diagnostics));
  }
}
