/** What a registration means for later runs: Configure, the record file and Switch together. */
module Registrations {
  import opened Results
  import opened Model
  import opened Identities
  import opened Flow
  import opened Records
  import FlowSafety
  import Stores
  import Transport

  /** The inventory holds an option under `id` with this identity. */
  ghost predicate Holds(entries: seq<Entry>, id: BootId, identity: CanonicalIdentity, sha: Sha256) {
    exists k | 0 <= k < |entries| :: entries[k].0 == id && Canonicalize(entries[k].1, sha) == Ok(identity)
  }

  lemma HoldsAtPosition(entries: seq<Entry>, id: BootId, identity: CanonicalIdentity, sha: Sha256)
    requires !HasDuplicate(entries)
    ensures Holds(entries, id, identity, sha)
       <==> Position(entries, id).Ok? && Canonicalize(entries[Position(entries, id).value].1, sha) == Ok(identity)
  {
    hide Canonicalize;
    var index := Position(entries, id);
    if k :| 0 <= k < |entries| && entries[k].0 == id && Canonicalize(entries[k].1, sha) == Ok(identity) {
      assert index.Ok? && entries[index.value].0 == entries[k].0;
      assert k < index.value || k > index.value || k == index.value;
    }
  }

  lemma IdentitiesAreValid(option: LoadOption, sha: Sha256)
    ensures Canonicalize(option, sha).Ok? ==> ValidateCanonicalIdentity(Canonicalize(option, sha).value).Ok?
  {
    hide ValidateCanonicalIdentity, ValidateOuter, CanonicalHardDrive, CanonicalFilePath, CanonicalEndNode, AddLengths;
  }

  /** The calls a run makes before the request matters. */
  function Opening(answers: Answers): seq<Call> {
    [LoadRecord(answers.load(0))] + [CheckEnvironment(answers.check(1))] + [ReadOptions(answers.options(2))]
  }

  /** A run gets past enumeration, with this inventory. */
  ghost predicate Enumerates(answers: Answers, entries: seq<Entry>) {
    && answers.check(1).Ok?
    && answers.options(2).Ok? && answers.options(2).value.entries == entries && !HasDuplicate(entries)
  }

  /** A successful Configure saves the chosen entry's live identity, for the opposite system. */
  lemma ConfigureSaves(id: BootId, os: Os, host: Os, sha: Sha256, answers: Answers, target: TargetRecord)
    requires Execute(Request.Configure(id, os), host, sha, answers).result.Ok?
    requires SaveRecord(target, Ok(())) in Execute(Request.Configure(id, os), host, sha, answers).trace
    ensures target.bootId == id && target.os == os == ExpectedTarget(host)
    ensures Enumerates(answers, answers.options(2).value.entries)
    ensures Holds(answers.options(2).value.entries, id, target.identity, sha)
    ensures ValidateCanonicalIdentity(target.identity).Ok?
  {
    hide HasDuplicate, ValidateCanonicalIdentity, Canonicalize, Position, Candidates;
    var entries := answers.options(2).value.entries;
    var index := Position(entries, id);
    IdentitiesAreValid(entries[index.value].1, sha);
    HoldsAtPosition(entries, id, target.identity, sha);
  }

  /** The run got past every check and reads BootNext. */
  ghost predicate BeginsSwitch(trace: seq<Call>) {
    |trace| > 3 && trace[3].ReadNext?
  }

  /** Everything done to BootNext, and every reboot, is for this id. */
  ghost predicate SwitchesOnlyTo(trace: seq<Call>, id: BootId) {
    forall i | 0 <= i < |trace| :: IsFor(trace[..i], trace[i], id)
  }

  /** A write or rollback is of this id, and a reboot follows a read of it. */
  ghost predicate IsFor(before: seq<Call>, call: Call, id: BootId) {
    && (call.WriteNext? || call.RollbackNext? ==> call.id == id)
    && (call.RequestReboot? ==> before != [] && before[|before| - 1] == ReadNext(Ok(Some(id))))
  }

  lemma OneMoreCall(t: seq<Call>, call: Call, id: BootId)
    requires SwitchesOnlyTo(t, id) && IsFor(t, call, id)
    ensures SwitchesOnlyTo(t + [call], id)
  {
    hide IsFor;
    var trace := t + [call];
    forall i | 0 <= i < |trace| ensures IsFor(trace[..i], trace[i], id) {
      if i < |t| {
        assert trace[..i] == t[..i];
      } else {
        assert trace[..i] == t;
      }
    }
  }

  lemma AssessOnlyTo(
    id: BootId, original: Option<BootId>, wrote: bool, report: Report, answers: Answers, t: seq<Call>)
    requires SwitchesOnlyTo(t, id)
    ensures SwitchesOnlyTo(Assess(id, original, wrote, report, answers, t).trace, id)
  {
    hide SwitchesOnlyTo;
    var t1 := t + [ReadNext(answers.next(|t|))];
    OneMoreCall(t, ReadNext(answers.next(|t|)), id);
    OneMoreCall(t1, RollbackNext(original, id, answers.rollback(|t1|)), id);
  }

  lemma VerifyOnlyTo(
    id: BootId, original: Option<BootId>, wrote: bool, report: Report, answers: Answers, t: seq<Call>)
    requires SwitchesOnlyTo(t, id)
    ensures SwitchesOnlyTo(Verify(id, original, wrote, report, answers, t).trace, id)
  {
    hide SwitchesOnlyTo, Assess;
    var next := ReadNext(answers.next(|t|));
    OneMoreCall(t, next, id);
    if answers.next(|t|) == Ok(Some(id)) {
      var reboot := RequestReboot(answers.reboot(|t + [next]|));
      OneMoreCall(t + [next], reboot, id);
      AssessOnlyTo(
        id, original, wrote, report.(stages := report.stages + [BootNextVerified] + [RebootRejected]), answers,
        t + [next] + [reboot]);
    }
  }

  lemma SetNextOnlyTo(id: BootId, report: Report, answers: Answers, t: seq<Call>)
    requires SwitchesOnlyTo(t, id)
    ensures SwitchesOnlyTo(SetNext(id, report, answers, t).trace, id)
  {
    hide SwitchesOnlyTo, Verify;
    var t1 := t + [ReadNext(answers.next(|t|))];
    var t2 := t1 + [ReadNext(answers.next(|t1|))];
    var t3 := t2 + [WriteNext(id, answers.write(|t2|))];
    OneMoreCall(t, ReadNext(answers.next(|t|)), id);
    OneMoreCall(t1, ReadNext(answers.next(|t1|)), id);
    OneMoreCall(t2, WriteNext(id, answers.write(|t2|)), id);
    if answers.next(|t|).Ok? {
      VerifyOnlyTo(id, answers.next(|t|).value, false, report, answers, t1);
    }
    VerifyOnlyTo(id, None, false, report, answers, t2);
    VerifyOnlyTo(id, None, true, report, answers, t3);
  }

  /** A Switch on a loaded record is that of its target, or ends before it reads BootNext. */
  lemma SwitchRuns(host: Os, sha: Sha256, answers: Answers, target: TargetRecord, entries: seq<Entry>)
    requires answers.load(0) == Ok(Registered(target)) && target.os == ExpectedTarget(host)
    requires ValidateCanonicalIdentity(target.identity).Ok? && Enumerates(answers, entries)
    ensures var run := Execute(Request.Switch(target.os), host, sha, answers);
            if Holds(entries, target.bootId, target.identity, sha) then
              run == SetNext(
                target.bootId,
                Report(Candidates(entries, sha), Ready(target.bootId, target.os), [TargetValidated],
                       answers.options(2).value.diagnostics),
                answers, Opening(answers))
            else run.trace == Opening(answers) && run.result.Err? && !run.result.error.FlowFailure?
  {
    hide HasDuplicate, ValidateCanonicalIdentity, Canonicalize, Position, Candidates, SetNext;
    HoldsAtPosition(entries, target.bootId, target.identity, sha);
    hide Holds;
    var index := Position(entries, target.bootId);
    if index.Ok? {
      Transport.IdentityErrorsArePlain(entries[index.value].1, sha);
    } else {
      MissingIsPlain(entries, target.bootId);
    }
  }

  lemma MissingIsPlain(entries: seq<Entry>, id: BootId)
    ensures Position(entries, id).Err? ==> Position(entries, id).error == TargetMissing
  {
  }

  /** With a loaded record, the switch begins exactly when the live entry has the record's identity. */
  lemma SwitchBeginsIff(host: Os, sha: Sha256, answers: Answers, target: TargetRecord, entries: seq<Entry>)
    requires answers.load(0) == Ok(Registered(target)) && target.os == ExpectedTarget(host)
    requires ValidateCanonicalIdentity(target.identity).Ok? && Enumerates(answers, entries)
    ensures var trace := Execute(Request.Switch(target.os), host, sha, answers).trace;
            && (BeginsSwitch(trace) <==> Holds(entries, target.bootId, target.identity, sha))
            && SwitchesOnlyTo(trace, target.bootId)
  {
    hide Execute, HasDuplicate, Holds, SetNext, ValidateCanonicalIdentity, Candidates;
    SwitchRuns(host, sha, answers, target, entries);
    var t := Opening(answers);
    assert SwitchesOnlyTo(t, target.bootId);
    if Holds(entries, target.bootId, target.identity, sha) {
      var report := Report(Candidates(entries, sha), Ready(target.bootId, target.os), [TargetValidated],
                           answers.options(2).value.diagnostics);
      SetNextOnlyTo(target.bootId, report, answers, t);
      FlowSafety.TraceGrows(target.bootId, report, answers, t);
      assert (t + [ReadNext(answers.next(3))])[3] == ReadNext(answers.next(3));
    }
  }

  /**
   * What was configured is what is switched to. Once a Configure has succeeded and its record was read
   * back, every later Switch, over whatever inventory it meets, goes on exactly when the entry under the
   * configured id still has the identity that was configured, and writes, rolls back and reboots into
   * no other id. Over the same inventory it goes on.
   */
  lemma ConfiguredIsSwitchedTo(
    id: BootId, os: Os, host: Os, sha: Sha256, earlier: Answers, later: Answers, target: TargetRecord,
    entries: seq<Entry>, codec: RecordCodec)
    requires codec.Lawful() && EncodeRecord(target, codec).Ok?
    requires Execute(Request.Configure(id, os), host, sha, earlier).result.Ok?
    requires SaveRecord(target, Ok(())) in Execute(Request.Configure(id, os), host, sha, earlier).trace
    requires later.load(0) == Stores.StateOf(Some(EncodeRecord(target, codec).value), codec)
    requires Enumerates(later, entries)
    ensures Holds(earlier.options(2).value.entries, id, target.identity, sha)
    ensures var trace := Execute(Request.Switch(os), host, sha, later).trace;
            && (BeginsSwitch(trace) <==> Holds(entries, id, target.identity, sha))
            && (entries == earlier.options(2).value.entries ==> BeginsSwitch(trace))
            && SwitchesOnlyTo(trace, id)
  {
    ConfigureSaves(id, os, host, sha, earlier, target);
    RecordRoundTrip(target, codec);
    hide Execute, Enumerates, Holds, ValidateCanonicalIdentity, RecordCodec.Lawful, EncodeRecord, DecodeRecord;
    hide BeginsSwitch, SwitchesOnlyTo;
    SwitchBeginsIff(host, sha, later, target, entries);
  }
}
