/** Concrete inputs at which the general statements are not vacuous or have their exceptions. */
module Samples {
  import opened Results
  import opened Bytes
  import opened Model
  import opened DevicePaths
  import opened LoadOptions
  import opened Identities
  import opened Flow
  import opened Protocol
  import opened Transport

  /** A platform that starts by giving this record and this inventory. */
  ghost predicate Gives(answers: Answers, loaded: RecordState, inventory: OptionInventory) {
    answers.load(0) == Ok(loaded) && answers.check(1).Ok? && answers.options(2) == Ok(inventory)
  }

  function OneEntry(id: BootId, option: LoadOption): OptionInventory {
    OptionInventory([(id, option)], [])
  }

  // A record of the wrong system.

  const DRIVE := HardDriveNode(1, 1, 1, [1, 1, 1, 1, 1, 1, 1, 1, 1, 1, 1, 1, 1, 1, 1, 1], 2, 2)
  const FILE_PATH: seq<U16> := [BACKSLASH, 0x41]

  /** The smallest option with an identity: one GPT partition and the file `\A` on it. */
  function SampleOption(): LoadOption {
    LoadOption(
      ACTIVE, [], 56,
      [DevicePath([Instance([
         Node(4, 1, 42, DrivePayload(DRIVE), HardDrive(DRIVE)),
         Node(4, 4, 10, UnitBytes(FILE_PATH) + Le(2, 0), FilePath(FILE_PATH)),
         Node(0x7f, 0xff, 4, [], EndEntire)])])],
      [])
  }

  lemma SampleFilePathIsValid()
    ensures ValidFilePath(FILE_PATH)
  {
    assert Utf16.Decode(FILE_PATH[1..][1..]) == [] && FILE_PATH[1..] == [0x41];
    assert Utf16.Decode(FILE_PATH[1..]) == [Some(0x41)];
    assert Utf16.Decode(FILE_PATH) == [Some(0x5c), Some(0x41)];
    assert FILE_PATH[1..][1..] == [] && [] + [0x41] == [0x41 as U16];
    assert Components([], [0x41]) == [[0x41]];
    assert Components(FILE_PATH[1..], []) == Components([], [0x41]);
  }

  lemma SampleHasIdentity(sha: Sha256)
    requires sha([]) == EMPTY_DIGEST
    ensures Canonicalize(SampleOption(), sha).Ok?
    ensures ValidateCanonicalIdentity(Canonicalize(SampleOption(), sha).value).Ok?
  {
    SampleFilePathIsValid();
    assert Utf16.Decode([]) == [];
    assert DRIVE.signature[0] == 1;
    hide ValidFilePath, DrivePayload, UnitBytes, Le;
  }

  /** Inspecting with a record of the host's own system succeeds, and the GUI has no verdict on the report. */
  lemma WrongRecordHasNoVerdict(host: Os, sha: Sha256, answers: Answers, identity: CanonicalIdentity)
    requires sha([]) == EMPTY_DIGEST && Canonicalize(SampleOption(), sha) == Ok(identity)
    requires Gives(answers, Registered(TargetRecord(host, 0, identity)), OneEntry(0, SampleOption()))
    ensures var result := Execute(Inspect, host, sha, answers).result;
            && result.Ok? && !OppositeRecord(host, answers.load(0))
            && ValidateReport(Inspect, result.value, ExpectedTarget(host)) == None
  {
    SampleHasIdentity(sha);
    hide Canonicalize, ValidateCanonicalIdentity, SampleOption, Candidates, SupportedTarget;
  }

  // An inspection too large for the protocol.

  /** An option with a description of `count` letters. */
  function LongOption(count: nat): LoadOption {
    LoadOption(ACTIVE, seq(count, _ => 0x41), 0, [], [])
  }

  lemma {:induction false} LettersDecode(units: seq<U16>)
    requires forall i | 0 <= i < |units| :: units[i] == 0x41
    ensures Utf16.ValidUtf16(units)
  {
    if units != [] {
      LettersDecode(units[1..]);
      assert Utf16.Decode(units) == [Some(0x41)] + Utf16.Decode(units[1..]);
    }
  }

  /** Firmware can hold it: it is what its own bytes are parsed as. */
  lemma LongOptionIsHeld(count: nat)
    requires 8 + 2 * count <= MAX_LOAD_OPTION_BYTES
    ensures ParseLoadOption(PrintLoadOption(LongOption(count))) == Ok(LongOption(count))
  {
    var option := LongOption(count);
    LettersDecode(option.description);
    assert PrintPaths([]) == [];
    hide Utf16.ValidUtf16, UnitBytes, Le;
    assert |PrintLoadOption(option)| == 8 + 2 * count;
    ParseOptionIffPrints(PrintLoadOption(option), option);
  }

  /** One such entry makes the report of an inspection too large, and a resource error is sent in its place. */
  lemma LongInspectionIsReplaced(
    host: Os, sha: Sha256, answers: Answers, id: RequestId, used: nat, count: nat)
    requires Gives(answers, NoRecord, OneEntry(0, LongOption(count))) && |id| == 32 && used <= 68 && count >= MAX_BYTES
    ensures var result := Execute(Inspect, host, sha, answers).result;
            && result.Ok? && used + FrameSize(id, result) > MAX_BYTES
            && Sent(id, result, used) == Some(Err(ResourceLimit))
  {
    hide ErrorSize, DecimalSize;
    LimitIsSmall(id);
  }
}
