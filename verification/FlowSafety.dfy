/** What holds of every run of the transaction: which calls it may make, and what its result says. */
module FlowSafety {
  import opened Results
  import opened Model
  import opened Identities
  import opened Flow

  // Which calls are allowed.

  ghost predicate Mutates(call: Call) {
    call.SaveRecord? || call.WriteNext? || call.RequestReboot? || call.RollbackNext?
  }

  ghost predicate FirstOfItsKind(before: seq<Call>, call: Call) {
    && (call.SaveRecord? ==> forall c | c in before :: !c.SaveRecord?)
    && (call.WriteNext? ==> forall c | c in before :: !c.WriteNext?)
    && (call.RequestReboot? ==> forall c | c in before :: !c.RequestReboot?)
    && (call.RollbackNext? ==> forall c | c in before :: !c.RollbackNext?)
  }

  /** `c` was the `n`-th call before now. */
  ghost predicate Ago(before: seq<Call>, n: nat, c: Call) {
    0 < n <= |before| && before[|before| - n] == c
  }

  /** This run's own write of `id` succeeded. */
  ghost predicate Wrote(before: seq<Call>, id: BootId) {
    exists c | c in before :: c.WriteNext? && c.id == id && c.written.Ok?
  }

  /** The firmware's own inventory, as read in this run, holds an option under `id` with this identity. */
  ghost predicate LiveIdentity(before: seq<Call>, id: BootId, identity: CanonicalIdentity, sha: Sha256) {
    exists inventory, k ::
      && ReadOptions(Ok(inventory)) in before
      && 0 <= k < |inventory.entries|
      && inventory.entries[k].0 == id
      && Canonicalize(inventory.entries[k].1, sha) == Ok(identity)
  }

  /** The record loaded in this run registers `id`, and its identity is the live one. */
  ghost predicate Registers(before: seq<Call>, id: BootId, sha: Sha256) {
    exists target: TargetRecord ::
      && target.bootId == id
      && LoadRecord(Ok(Registered(target))) in before
      && LiveIdentity(before, id, target.identity, sha)
  }

  /** What must already have happened in the run for a call to be made. */
  ghost predicate Justified(request: Request, host: Os, sha: Sha256, before: seq<Call>, call: Call) {
    && FirstOfItsKind(before, call)
    && match call
       case SaveRecord(target, _) =>
         && request == Configure(target.bootId, target.os)
         && target.os == ExpectedTarget(host)
         && LiveIdentity(before, target.bootId, target.identity, sha)
       case ReadNext(_) => request.Switch?
       case WriteNext(id, _) =>
         && request.Switch?
         && Ago(before, 1, ReadNext(Ok(None)))
         && Ago(before, 2, ReadNext(Ok(None)))
         && Registers(before, id, sha)
       case RequestReboot(_) =>
         && request.Switch?
         && exists id :: Ago(before, 1, ReadNext(Ok(Some(id)))) && Registers(before, id, sha)
       case RollbackNext(original, id, _) =>
         && request.Switch?
         && original == None
         && ReadNext(Ok(None)) in before
         && Wrote(before, id)
         && Ago(before, 1, ReadNext(Ok(Some(id))))
         && Ago(before, 2, RequestReboot(Rejected))
       case _ => |before| < 3
  }

  ghost predicate Safe(request: Request, host: Os, sha: Sha256, trace: seq<Call>) {
    forall i | 0 <= i < |trace| :: Justified(request, host, sha, trace[..i], trace[i])
  }

  lemma Extend(request: Request, host: Os, sha: Sha256, before: seq<Call>, call: Call)
    requires Safe(request, host, sha, before) && Justified(request, host, sha, before, call)
    ensures Safe(request, host, sha, before + [call])
  {
    hide Justified;
    var trace := before + [call];
    forall i | 0 <= i < |trace| ensures Justified(request, host, sha, trace[..i], trace[i]) {
      if i < |before| {
        assert trace[..i] == before[..i];
      } else {
        assert trace[..i] == before;
      }
    }
  }

  /** The switch phase may start: the target is registered and live, and nothing was mutated yet. */
  ghost predicate Ready(t: seq<Call>, id: BootId, sha: Sha256) {
    && Registers(t, id, sha)
    && forall c | c in t :: !Mutates(c)
  }

  lemma RegistersGrows(t: seq<Call>, more: Call, id: BootId, sha: Sha256)
    requires Registers(t, id, sha)
    ensures Registers(t + [more], id, sha)
  {
    var target: TargetRecord :|
      && target.bootId == id && LoadRecord(Ok(Registered(target))) in t
      && LiveIdentity(t, id, target.identity, sha);
    var inventory, k :|
      && ReadOptions(Ok(inventory)) in t && 0 <= k < |inventory.entries|
      && inventory.entries[k].0 == id && Canonicalize(inventory.entries[k].1, sha) == Ok(target.identity);
    assert LiveIdentity(t + [more], id, target.identity, sha) by {
      assert ReadOptions(Ok(inventory)) in t + [more];
    }
  }

  lemma SetNextSafe(request: Request, host: Os, sha: Sha256, id: BootId, report: Report, answers: Answers, t: seq<Call>)
    requires request.Switch? && Safe(request, host, sha, t) && Ready(t, id, sha)
    ensures Safe(request, host, sha, SetNext(id, report, answers, t).trace)
  {
    hide Registers, Safe, Verify;
    var first := ReadNext(answers.next(|t|));
    var t1 := t + [first];
    Extend(request, host, sha, t, first);
    RegistersGrows(t, first, id, sha);
    if first.next.Ok? {
      if first.next.value == Some(id) {
        VerifySafe(request, host, sha, id, first.next.value, false, report, answers, t1);
      } else if first.next.value.None? {
        var second := ReadNext(answers.next(|t1|));
        var t2 := t1 + [second];
        Extend(request, host, sha, t1, second);
        RegistersGrows(t1, second, id, sha);
        if second.next == Ok(Some(id)) {
          VerifySafe(request, host, sha, id, None, false, report, answers, t2);
        } else if second.next == Ok(None) {
          var written := WriteNext(id, answers.write(|t2|));
          var t3 := t2 + [written];
          assert Ago(t2, 1, second) && Ago(t2, 2, first);
          Extend(request, host, sha, t2, written);
          RegistersGrows(t2, written, id, sha);
          if written.written.Ok? {
            assert first in t3 && written in t3;
            VerifySafe(request, host, sha, id, None, true, report, answers, t3);
          }
        }
      }
    }
  }

  lemma VerifySafe(
    request: Request, host: Os, sha: Sha256, id: BootId, original: Option<BootId>, wrote: bool, report: Report,
    answers: Answers, t: seq<Call>)
    requires request.Switch? && Safe(request, host, sha, t) && Registers(t, id, sha)
    requires forall c | c in t :: !c.SaveRecord? && !c.RequestReboot? && !c.RollbackNext?
    requires wrote ==> original == None && ReadNext(Ok(None)) in t && Wrote(t, id)
    ensures Safe(request, host, sha, Verify(id, original, wrote, report, answers, t).trace)
  {
    hide Registers, Safe;
    var next := ReadNext(answers.next(|t|));
    var t1 := t + [next];
    Extend(request, host, sha, t, next);
    RegistersGrows(t, next, id, sha);
    if next.next == Ok(Some(id)) {
      var reply := RequestReboot(answers.reboot(|t1|));
      var t2 := t1 + [reply];
      assert Ago(t1, 1, ReadNext(Ok(Some(id))));
      Extend(request, host, sha, t1, reply);
      if reply.accepted.Rejected? {
        var after := ReadNext(answers.next(|t2|));
        var t3 := t2 + [after];
        Extend(request, host, sha, t2, after);
        if wrote && after.next == Ok(Some(id)) {
          var rollback := RollbackNext(None, id, answers.rollback(|t3|));
          assert Ago(t3, 1, after) && Ago(t3, 2, reply);
          assert ReadNext(Ok(None)) in t3 && Wrote(t3, id);
          Extend(request, host, sha, t3, rollback);
        }
      }
    }
  }

  lemma OpeningSafe(request: Request, host: Os, sha: Sha256, a: Call, b: Call, c: Call)
    requires a.LoadRecord? && b.CheckEnvironment? && c.ReadOptions?
    ensures Safe(request, host, sha, [])
    ensures Safe(request, host, sha, [a])
    ensures Safe(request, host, sha, [a] + [b])
    ensures Safe(request, host, sha, [a] + [b] + [c])
  {
    Extend(request, host, sha, [], a);
    assert [] + [a] == [a];
    Extend(request, host, sha, [a], b);
    Extend(request, host, sha, [a] + [b], c);
  }

  lemma DispatchSafe(
    request: Request, host: Os, sha: Sha256, record: RecordState, inventory: OptionInventory, answers: Answers,
    t: seq<Call>)
    requires !WrongOs(request, host) && Safe(request, host, sha, t)
    requires LoadRecord(Ok(record)) in t && ReadOptions(Ok(inventory)) in t
    requires forall c | c in t :: !Mutates(c)
    ensures Safe(request, host, sha, Dispatch(request, record, inventory, sha, answers, t).trace)
  {
    hide Safe, SetNext, Canonicalize;
    var entries := inventory.entries;
    match request {
      case Inspect =>
      case Configure(id, os) =>
        var index := Position(entries, id);
        if index.Ok? && Canonicalize(entries[index.value].1, sha).Ok? {
          var identity := Canonicalize(entries[index.value].1, sha).value;
          assert LiveIdentity(t, id, identity, sha);
          Extend(request, host, sha, t, SaveRecord(TargetRecord(os, id, identity), answers.save(|t|)));
        }
      case Switch(os) =>
        if record.Registered? && record.target.os == os {
          var target := record.target;
          var index := Position(entries, target.bootId);
          if index.Ok? && ValidateTarget(target, entries[index.value].1, sha).Ok? {
            assert Canonicalize(entries[index.value].1, sha) == Ok(target.identity);
            assert LiveIdentity(t, target.bootId, target.identity, sha);
            var report := Report(Candidates(entries, sha), DiagnosticOf(record), [TargetValidated],
                                 inventory.diagnostics);
            SetNextSafe(request, host, sha, target.bootId, report, answers, t);
          }
        }
    }
  }

  /**
   * Trace safety. In every run against any platform: at most one save, write, reboot and rollback; a
   * write only directly after two reads of absent and with a matching identity; a reboot only directly
   * after reading back the registered target; a rollback only of this run's own successful write, from
   * an absent original, with the target read last; Inspect mutates nothing, Configure never touches
   * BootNext and Switch never saves.
   */
  lemma TraceSafety(request: Request, host: Os, sha: Sha256, answers: Answers)
    ensures Safe(request, host, sha, Execute(request, host, sha, answers).trace)
  {
    hide Safe, Dispatch, HasDuplicate, ValidateCanonicalIdentity;
    var loaded := LoadRecord(answers.load(0));
    var checked := CheckEnvironment(answers.check(1));
    var inventory := ReadOptions(answers.options(2));
    OpeningSafe(request, host, sha, loaded, checked, inventory);
    var t := [loaded] + [checked] + [inventory];
    if loaded.loaded.Ok? && inventory.inventory.Ok? && !WrongOs(request, host) {
      assert loaded in t && inventory in t;
      DispatchSafe(request, host, sha, loaded.loaded.value, inventory.inventory.value, answers, t);
    }
  }

  // What the result says about BootNext.

  /**
   * One call as a truthful platform makes it, with no other writer: reads tell the value, a write may
   * fail before or after taking effect, and rollback reports what it did.
   */
  ghost predicate Truthful(was: Option<BootId>, call: Call, now: Option<BootId>) {
    match call
    case ReadNext(Ok(next)) => next == was && now == was
    case WriteNext(id, Ok(_)) => now == Some(id)
    case WriteNext(id, Err(_)) => now == was || now == Some(id)
    case RollbackNext(original, _, Restored) => now == original
    case RollbackNext(original, _, NotNeeded) => now == was == original
    case RollbackNext(_, _, _) => true
    case _ => now == was
  }

  /** `values` is a history of BootNext under which every call of the trace was truthful. */
  ghost predicate History(trace: seq<Call>, values: seq<Option<BootId>>) {
    && |values| == |trace| + 1
    && forall i | 0 <= i < |trace| :: Truthful(values[i], trace[i], values[i + 1])
  }

  /** An error that admits no residual left BootNext as it was on entry; a verified report left the target in it. */
  ghost predicate Sound(run: Run, values: seq<Option<BootId>>, id: BootId)
    requires |values| == |run.trace| + 1
  {
    var last := values[|run.trace|];
    && (run.result.Err? && !run.result.error.ResidualMayRemain() ==> last == values[0])
    && (run.result.Ok? ==> last == Some(id))
  }

  lemma AssessSound(
    id: BootId, original: Option<BootId>, wrote: bool, report: Report, answers: Answers, t: seq<Call>,
    values: seq<Option<BootId>>)
    requires History(Assess(id, original, wrote, report, answers, t).trace, values)
    requires values[0] == original
    ensures Sound(Assess(id, original, wrote, report, answers, t), values, id)
  {
    var run := Assess(id, original, wrote, report, answers, t);
    assert Truthful(values[|t|], run.trace[|t|], values[|t| + 1]);
    if |run.trace| == |t| + 2 {
      assert Truthful(values[|t| + 1], run.trace[|t| + 1], values[|t| + 2]);
    }
    if run.result.error.stages != [] && run.result.error.rollback.RollbackErred? {
      assert ResidualPossible == run.result.error.stages[|run.result.error.stages| - 1];
    }
  }

  lemma VerifySound(
    id: BootId, original: Option<BootId>, wrote: bool, report: Report, answers: Answers, t: seq<Call>,
    values: seq<Option<BootId>>)
    requires History(Verify(id, original, wrote, report, answers, t).trace, values)
    requires values[0] == original
    ensures Sound(Verify(id, original, wrote, report, answers, t), values, id)
  {
    var run := Verify(id, original, wrote, report, answers, t);
    var next := answers.next(|t|);
    var t1 := t + [ReadNext(next)];
    if next == Ok(Some(id)) {
      var report1 := report.(stages := report.stages + [BootNextVerified]);
      var reply := answers.reboot(|t1|);
      assert run.trace[|t|] == ReadNext(next) && run.trace[|t| + 1] == RequestReboot(reply);
      if reply.Rejected? {
        var report2 := report1.(stages := report1.stages + [RebootRejected]);
        AssessSound(id, original, wrote, report2, answers, t1 + [RequestReboot(reply)], values);
      }
    }
  }

  lemma SetNextSound(id: BootId, report: Report, answers: Answers, t: seq<Call>, values: seq<Option<BootId>>)
    requires History(SetNext(id, report, answers, t).trace, values)
    requires |t| < |values| && values[|t|] == values[0]
    ensures Sound(SetNext(id, report, answers, t), values, id)
  {
    var run := SetNext(id, report, answers, t);
    var first := answers.next(|t|);
    var t1 := t + [ReadNext(first)];
    TraceGrows(id, report, answers, t);
    hide Verify;
    assert run.trace[|t|] == t1[|t|] && Truthful(values[|t|], run.trace[|t|], values[|t1|]);
    if first == Ok(Some(id)) {
      VerifySound(id, first.value, false, report, answers, t1, values);
    } else if first == Ok(None) {
      var second := answers.next(|t1|);
      var t2 := t1 + [ReadNext(second)];
      assert run.trace[|t1|] == t2[|t1|] && Truthful(values[|t1|], run.trace[|t1|], values[|t2|]);
      if second == Ok(Some(id)) {
        VerifySound(id, None, false, report, answers, t2, values);
      } else if second == Ok(None) {
        var written := answers.write(|t2|);
        if written.Ok? {
          VerifySound(id, None, true, report, answers, t2 + [WriteNext(id, written)], values);
        }
      }
    }
  }

  /** Every phase only adds calls to the trace it was given. */
  lemma TraceGrows(id: BootId, report: Report, answers: Answers, t: seq<Call>)
    ensures var trace := SetNext(id, report, answers, t).trace;
            var t1 := t + [ReadNext(answers.next(|t|))];
            && t1 <= trace
            && (answers.next(|t|) == Ok(None) ==> t1 + [ReadNext(answers.next(|t1|))] <= trace)
  {
    forall original, wrote, t' ensures t' <= Verify(id, original, wrote, report, answers, t').trace {
      VerifyGrows(id, original, wrote, report, answers, t');
    }
    hide Verify;
  }

  lemma VerifyGrows(id: BootId, original: Option<BootId>, wrote: bool, report: Report, answers: Answers, t: seq<Call>)
    ensures t <= Verify(id, original, wrote, report, answers, t).trace
  {
  }

  /** What a finished run says about BootNext, for the three requests. */
  ghost predicate Faithful(request: Request, run: Run, values: seq<Option<BootId>>)
    requires |values| == |run.trace| + 1
  {
    var last := values[|run.trace|];
    && (run.result.Err? && !run.result.error.ResidualMayRemain() ==> last == values[0])
    && (run.result.Ok? && !request.Switch? ==> last == values[0])
    && (run.result.Ok? && request.Switch? ==>
          run.result.value.record.Ready? && last == Some(run.result.value.record.bootId))
  }

  lemma DispatchFaithful(
    request: Request, record: RecordState, inventory: OptionInventory, sha: Sha256, answers: Answers, t: seq<Call>,
    values: seq<Option<BootId>>)
    requires History(Dispatch(request, record, inventory, sha, answers, t).trace, values)
    requires |t| < |values| && values[|t|] == values[0]
    ensures Faithful(request, Dispatch(request, record, inventory, sha, answers, t), values)
  {
    hide SetNext, Canonicalize;
    var run := Dispatch(request, record, inventory, sha, answers, t);
    if request.Configure? && |run.trace| == |t| + 1 {
      assert Truthful(values[|t|], run.trace[|t|], values[|t| + 1]);
    } else if request.Switch? && record.Registered? {
      var id := record.target.bootId;
      var report := Report(Candidates(inventory.entries, sha), DiagnosticOf(record), [TargetValidated],
                           inventory.diagnostics);
      if run == SetNext(id, report, answers, t) {
        SetNextSound(id, report, answers, t, values);
        SetNextKeepsRecord(id, report, answers, t);
      }
    }
  }

  lemma SetNextKeepsRecord(id: BootId, report: Report, answers: Answers, t: seq<Call>)
    ensures var run := SetNext(id, report, answers, t);
            run.result.Ok? ==> run.result.value.record == report.record
  {
  }

  /**
   * Residual reports are sound. Whatever history of BootNext a truthful platform had during the run: an
   * error that does not say a residual is possible left BootNext as it was on entry, a successful
   * Inspect or Configure left it alone, and a successful Switch left the registered target in it.
   */
  lemma ResidualSound(request: Request, host: Os, sha: Sha256, answers: Answers, values: seq<Option<BootId>>)
    requires History(Execute(request, host, sha, answers).trace, values)
    ensures Faithful(request, Execute(request, host, sha, answers), values)
  {
    var run := Execute(request, host, sha, answers);
    DispatchGrows(request, answers, sha);
    hide Dispatch, HasDuplicate, ValidateCanonicalIdentity;
    assert Truthful(values[0], run.trace[0], values[1]);
    assert |run.trace| > 1 ==> Truthful(values[1], run.trace[1], values[2]);
    assert |run.trace| > 2 ==> Truthful(values[2], run.trace[2], values[3]);
    if answers.load(0).Ok? && answers.options(2).Ok? && !WrongOs(request, host) {
      var record, inventory := answers.load(0).value, answers.options(2).value;
      var t := [LoadRecord(answers.load(0))] + [CheckEnvironment(answers.check(1))] + [ReadOptions(answers.options(2))];
      if run == Dispatch(request, record, inventory, sha, answers, t) {
        DispatchFaithful(request, record, inventory, sha, answers, t, values);
      }
    }
  }

  lemma DispatchGrows(request: Request, answers: Answers, sha: Sha256)
    ensures forall record, inventory, t :: t <= Dispatch(request, record, inventory, sha, answers, t).trace
  {
    forall record: RecordState, inventory, t
      ensures t <= Dispatch(request, record, inventory, sha, answers, t).trace
    {
      if request.Switch? && record.Registered? {
        var report := Report(Candidates(inventory.entries, sha), DiagnosticOf(record), [TargetValidated],
                             inventory.diagnostics);
        TraceGrows(record.target.bootId, report, answers, t);
      }
      hide SetNext, Canonicalize;
    }
  }
}
