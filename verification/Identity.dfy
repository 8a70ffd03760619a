/** The canonical identity of a load option, and its comparison with a registered one. */
module Identities {
  import opened Results
  import opened Bytes
  import opened Model
  import opened DevicePaths
  import opened LoadOptions

  const ACTIVE: U32 := 0x0000_0001
  const ACTIVE_HIDDEN: U32 := 0x0000_0009
  const BACKSLASH: U16 := 0x5c
  const SLASH: U16 := 0x2f
  const DOT: U16 := 0x2e

  /** SHA-256 of the empty string, the only value of the digest function the code relies on. */
  const EMPTY_DIGEST: Digest := [
    0xe3, 0xb0, 0xc4, 0x42, 0x98, 0xfc, 0x1c, 0x14, 0x9a, 0xfb, 0xf4, 0xc8, 0x99,
    0x6f, 0xb9, 0x24, 0x27, 0xae, 0x41, 0xe4, 0x64, 0x9b, 0x93, 0x4c, 0xa4, 0x95,
    0x99, 0x1b, 0x78, 0x52, 0xb8, 0x55]

  /** SHA-256 itself stays uninterpreted: any function of this type with the right empty digest. */
  type Sha256 = seq<Byte> -> Digest

  function ValidateOuter(option: LoadOption): Result<(), Error> {
    if || (option.attributes != ACTIVE && option.attributes != ACTIVE_HIDDEN)
       || 0 in option.description
       || !Utf16.ValidUtf16(option.description)
       || |option.filePaths| != 1
       || |option.filePaths[0].instances| != 1
    then Err(UnsupportedFormat)
    else if 6 + (2 * |option.description| + 2) + option.filePathListLength + |option.optionalData|
            > MAX_LOAD_OPTION_BYTES
    then Err(ResourceLimit)
    else Ok(())
  }

  function ValidateHardDrive(drive: HardDriveNode): Result<(), Error> {
    if || drive.partitionNumber == 0
       || drive.sizeLba == 0
       || drive.signature == seq(16, _ => 0)
       || drive.mbrType != 2
       || drive.signatureType != 2
       || drive.startLba as int + drive.sizeLba as int >= 0x1_0000_0000_0000_0000
    then Err(UnsupportedFormat)
    else Ok(())
  }

  function DrivePayload(drive: HardDriveNode): seq<Byte> {
    Le(4, drive.partitionNumber) + Le(8, drive.startLba) + Le(8, drive.sizeLba)
    + drive.signature + [drive.mbrType, drive.signatureType]
  }

  function CanonicalHardDrive(node: Node): Result<CanonicalNode, Error> {
    if !node.kind.HardDrive? || node.nodeType != 4 || node.subtype != 1 || node.length != 42 then
      Err(UnsupportedFormat)
    else
      var _ :- ValidateHardDrive(node.kind.drive);
      if node.payload != DrivePayload(node.kind.drive) then Err(UnsupportedFormat)
      else Ok(CanonicalDrive(node.nodeType, node.subtype, node.length, node.kind.drive))
  }

  function Components(path: seq<U16>, part: seq<U16>): seq<seq<U16>> {
    if path == [] then [part]
    else if path[0] == BACKSLASH then [part] + Components(path[1..], [])
    else Components(path[1..], part + [path[0]])
  }

  predicate ValidFilePath(path: seq<U16>) {
    && |path| > 1
    && path[0] == BACKSLASH
    && SLASH !in path
    && 0 !in path
    && Utf16.ValidUtf16(path)
    && forall part | part in Components(path[1..], []) :: part != [] && part != [DOT] && part != [DOT, DOT]
  }

  function FilePathLength(path: seq<U16>): Result<U16, Error> {
    var length := (|path| + 1) * 2 + 4;
    if length < 0x1_0000 then Ok(length) else Err(UnsupportedFormat)
  }

  function CanonicalFilePath(node: Node): Result<CanonicalNode, Error> {
    if !node.kind.FilePath? then Err(UnsupportedFormat)
    else
      var path := node.kind.path;
      var expected :- FilePathLength(path);
      if node.nodeType != 4 || node.subtype != 4 || node.length != expected || !ValidFilePath(path) then
        Err(UnsupportedFormat)
      else if node.payload != UnitBytes(path) + Le(2, 0) then Err(UnsupportedFormat)
      else Ok(CanonicalPath(node.nodeType, node.subtype, node.length, path, 0))
  }

  method CanonicalFilePathLoop(node: Node) returns (r: Result<CanonicalNode, Error>)
    ensures r == CanonicalFilePath(node)
  {
    if !node.kind.FilePath? {
      return Err(UnsupportedFormat);
    }
    var path := node.kind.path;
    var expected :- FilePathLength(path);
    if node.nodeType != 4 || node.subtype != 4 || node.length != expected || !ValidFilePath(path) {
      return Err(UnsupportedFormat);
    }
    var payload: seq<Byte> := [];
    for i := 0 to |path|
      invariant payload == UnitBytes(path[..i])
    {
      UnitBytesAppend(path[..i], path[i]);
      assert path[..i] + [path[i]] == path[..i + 1];
      payload := payload + Le(2, path[i]);
    }
    assert path[..|path|] == path;
    payload := payload + Le(2, 0);
    if node.payload != payload {
      return Err(UnsupportedFormat);
    }
    return Ok(CanonicalPath(node.nodeType, node.subtype, node.length, path, 0));
  }

  function CanonicalEndNode(node: Node): Result<CanonicalNode, Error> {
    if || node.nodeType != 0x7f || node.subtype != 0xff || node.length != 4
       || node.payload != [] || node.kind != EndEntire
    then Err(UnsupportedFormat)
    else Ok(CanonicalEnd(node.nodeType, node.subtype, node.length))
  }

  function AddLengths(first: U16, second: U16, third: U16): Result<U16, Error> {
    var sum := first as int + second as int + third as int;
    if sum < 0x1_0000 then Ok(sum) else Err(UnsupportedFormat)
  }

  function Canonicalize(option: LoadOption, sha: Sha256): Result<CanonicalIdentity, Error> {
    var _ :- ValidateOuter(option);
    var nodes := option.filePaths[0].instances[0].nodes;
    if |nodes| != 3 then Err(UnsupportedFormat)
    else
      var drive :- CanonicalHardDrive(nodes[0]);
      var path :- CanonicalFilePath(nodes[1]);
      var end :- CanonicalEndNode(nodes[2]);
      var derived :- AddLengths(drive.length, path.length, end.length);
      if derived != option.filePathListLength then Err(UnsupportedFormat)
      else
        var identity := CanonicalIdentity(
                          option.filePathListLength, [drive, path, end],
                          OpaqueExact(|option.optionalData|, sha(option.optionalData)));
        var _ :- ValidateCanonicalIdentity(identity);
        Ok(identity)
  }

  function ValidateCanonicalIdentity(identity: CanonicalIdentity): Result<(), Error> {
    var nodes := identity.nodes;
    if |nodes| != 3 || !nodes[0].CanonicalDrive? || !nodes[1].CanonicalPath? || !nodes[2].CanonicalEnd? then
      Err(UnsupportedFormat)
    else
      var drive, path, end := nodes[0], nodes[1], nodes[2];
      if drive.nodeType != 4 || drive.subtype != 1 || drive.length != 42 then Err(UnsupportedFormat)
      else
        var _ :- ValidateHardDrive(drive.drive);
        var expected :- FilePathLength(path.path);
        if || path.nodeType != 4 || path.subtype != 4 || path.length != expected
           || path.terminator != 0 || !ValidFilePath(path.path)
        then Err(UnsupportedFormat)
        else if end.nodeType != 0x7f || end.subtype != 0xff || end.length != 4 then Err(UnsupportedFormat)
        else
          var derived :- AddLengths(drive.length, path.length, end.length);
          if || identity.filePathListLength != derived
             || identity.optionalData.byteLength > MAX_LOAD_OPTION_BYTES
             || (identity.optionalData.byteLength == 0 && identity.optionalData.digest != EMPTY_DIGEST)
          then Err(UnsupportedFormat)
          else Ok(())
  }

  function ValidateTarget(saved: TargetRecord, current: LoadOption, sha: Sha256): Result<(), Error> {
    var identity :- Canonicalize(current, sha);
    if identity != saved.identity then Err(IdentityMismatch) else Ok(())
  }

  // What canonicalisation comes down to for an option that was parsed from firmware bytes.

  /** The checks of `Canonicalize` that can still fail once the option has been parsed. */
  predicate Supported(option: LoadOption) {
    && (option.attributes == ACTIVE || option.attributes == ACTIVE_HIDDEN)
    && |option.filePaths| == 1
    && |option.filePaths[0].instances| == 1
    && var nodes := option.filePaths[0].instances[0].nodes;
      |nodes| == 3
      && nodes[0].kind.HardDrive? && ValidateHardDrive(nodes[0].kind.drive).Ok?
      && nodes[1].kind.FilePath? && ValidFilePath(nodes[1].kind.path)
  }

  /** The identity read straight off a supported option. */
  function IdentityOf(option: LoadOption, sha: Sha256): CanonicalIdentity
    requires Supported(option) && |option.optionalData| <= MAX_LOAD_OPTION_BYTES
  {
    var nodes := option.filePaths[0].instances[0].nodes;
    CanonicalIdentity(
      option.filePathListLength,
      [CanonicalDrive(4, 1, 42, nodes[0].kind.drive),
       CanonicalPath(4, 4, nodes[1].length, nodes[1].kind.path, 0),
       CanonicalEnd(0x7f, 0xff, 4)],
      OpaqueExact(|option.optionalData|, sha(option.optionalData)))
  }

  lemma DriveNodeReencodes(node: Node)
    requires WellFormedNode(node) && node.kind.HardDrive?
    ensures node.nodeType == 4 && node.subtype == 1 && node.length == 42
    ensures node.payload == DrivePayload(node.kind.drive)
  {
    assert |node.payload| == 38 && ParseHardDrive(node.length, node.payload) == Ok(node.kind.drive);
    DrivePayloadReencodes(node.length, node.payload);
    hide DrivePayload, ParseHardDrive;
  }

  lemma DrivePayloadReencodes(length: U16, payload: seq<Byte>)
    requires |payload| == 38 && ParseHardDrive(length, payload).Ok?
    ensures DrivePayload(ParseHardDrive(length, payload).value) == payload
  {
    LeOfFromLe(payload[0..4]);
    LeOfFromLe(payload[4..12]);
    LeOfFromLe(payload[12..20]);
    hide Le, FromLe;
    assert payload == payload[0..4] + payload[4..12] + payload[12..20] + payload[20..36] + [payload[36], payload[37]];
  }

  lemma PathNodeReencodes(node: Node)
    requires WellFormedNode(node) && node.kind.FilePath?
    ensures node.nodeType == 4 && node.subtype == 4
    ensures FilePathLength(node.kind.path) == Ok(node.length)
    ensures node.payload == UnitBytes(node.kind.path) + Le(2, 0)
  {
    var path, units := node.kind.path, Units(node.payload);
    assert units == path + [0];
    UnitBytesAppend(path, 0);
    UnitBytesOfUnits(node.payload);
  }

  /** Re-encoding never rejects the first two nodes of a parsed path. */
  lemma NodeChecks(node: Node)
    requires WellFormedNode(node)
    ensures CanonicalHardDrive(node)
         == if node.kind.HardDrive? && ValidateHardDrive(node.kind.drive).Ok?
            then Ok(CanonicalDrive(4, 1, 42, node.kind.drive)) else Err(UnsupportedFormat)
    ensures CanonicalFilePath(node)
         == if node.kind.FilePath? && ValidFilePath(node.kind.path)
            then Ok(CanonicalPath(4, 4, node.length, node.kind.path, 0)) else Err(UnsupportedFormat)
  {
    if node.kind.HardDrive? {
      DriveNodeReencodes(node);
    }
    if node.kind.FilePath? {
      PathNodeReencodes(node);
    }
  }

  lemma SinglePathShape(option: LoadOption)
    requires WellFormedOption(option)
    requires |option.filePaths| == 1 && |option.filePaths[0].instances| == 1
    requires |option.filePaths[0].instances[0].nodes| == 3
    ensures var nodes := option.filePaths[0].instances[0].nodes;
            && WellFormedNode(nodes[0]) && WellFormedNode(nodes[1]) && WellFormedNode(nodes[2])
            && nodes[2].kind == EndEntire
            && PrintPaths(option.filePaths) == PrintNode(nodes[0]) + PrintNode(nodes[1]) + PrintNode(nodes[2])
            && CanonicalEndNode(nodes[2]) == Ok(CanonicalEnd(0x7f, 0xff, 4))
  {
    var path := option.filePaths[0];
    var nodes := path.instances[0].nodes;
    assert WellFormedPath(path);
    NodeAtIsWellFormed(path, 0, 0);
    NodeAtIsWellFormed(path, 0, 1);
    NodeAtIsWellFormed(path, 0, 2);
    hide PrintNode;
    assert nodes == [nodes[0]] + ([nodes[1]] + [nodes[2]]);
    PrintNodesAppend([nodes[0]], [nodes[1]] + [nodes[2]]);
    PrintNodesAppend([nodes[1]], [nodes[2]]);
    PrintOneNode(nodes[0]);
    PrintOneNode(nodes[1]);
    PrintOneNode(nodes[2]);
    PrintOneInstance(path.instances[0]);
    assert path.instances == [path.instances[0]] && option.filePaths == [path];
    PrintOnePath(path);
  }

  lemma PrintOnePath(path: DevicePath)
    ensures PrintPaths([path]) == PrintPath(path)
  {
    assert [path][1..] == [];
  }

  lemma OuterChecks(option: LoadOption)
    requires WellFormedOption(option) && |PrintLoadOption(option)| <= MAX_LOAD_OPTION_BYTES
    ensures |option.optionalData| <= MAX_LOAD_OPTION_BYTES
    ensures ValidateOuter(option)
         == if && (option.attributes == ACTIVE || option.attributes == ACTIVE_HIDDEN)
               && |option.filePaths| == 1 && |option.filePaths[0].instances| == 1
            then Ok(()) else Err(UnsupportedFormat)
  {
  }

  /**
   * For a parsed option the re-encoding checks, the length derivation, the size check and the closing
   * validation never reject: the outcome is decided by `Supported`, and the only error is UnsupportedFormat.
   */
  lemma CanonicalizeParsed(bytes: seq<Byte>, option: LoadOption, sha: Sha256)
    requires ParseLoadOption(bytes) == Ok(option)
    requires sha([]) == EMPTY_DIGEST
    ensures |option.optionalData| <= MAX_LOAD_OPTION_BYTES
    ensures Canonicalize(option, sha)
         == if Supported(option) then Ok(IdentityOf(option, sha)) else Err(UnsupportedFormat)
  {
    ParseOptionIffPrints(bytes, option);
    OuterChecks(option);
    if ValidateOuter(option).Ok? && |option.filePaths[0].instances[0].nodes| == 3 {
      var nodes := option.filePaths[0].instances[0].nodes;
      SinglePathShape(option);
      NodeChecks(nodes[0]);
      NodeChecks(nodes[1]);
      if Supported(option) {
        DriveNodeReencodes(nodes[0]);
        PathNodeReencodes(nodes[1]);
        ClosingChecks(option, sha);
      }
    }
  }

  lemma ClosingChecks(option: LoadOption, sha: Sha256)
    requires sha([]) == EMPTY_DIGEST
    requires Supported(option) && |option.optionalData| <= MAX_LOAD_OPTION_BYTES
    requires var nodes := option.filePaths[0].instances[0].nodes;
             && FilePathLength(nodes[1].kind.path) == Ok(nodes[1].length)
             && option.filePathListLength == 42 + nodes[1].length + 4
    ensures ValidateCanonicalIdentity(IdentityOf(option, sha)) == Ok(())
  {
  }

  /** The file path list an identity describes. */
  function IdentityPathList(identity: CanonicalIdentity): seq<Byte>
    requires ValidateCanonicalIdentity(identity).Ok?
  {
    var drive, path := identity.nodes[0], identity.nodes[1];
    [4, 1] + Le(2, 42) + DrivePayload(drive.drive)
    + ([4, 4] + Le(2, path.length) + (UnitBytes(path.path) + Le(2, 0)))
    + ([0x7f, 0xff] + Le(2, 4))
  }

  lemma IdentityKeepsPathList(bytes: seq<Byte>, option: LoadOption, sha: Sha256)
    requires ParseLoadOption(bytes) == Ok(option)
    requires Canonicalize(option, sha).Ok?
    ensures ValidateCanonicalIdentity(Canonicalize(option, sha).value).Ok?
    ensures IdentityPathList(Canonicalize(option, sha).value) == PrintPaths(option.filePaths)
  {
    ParseOptionIffPrints(bytes, option);
    hide ParseLoadOption, ParseDevicePath, PrintPaths, Utf16.ValidUtf16, Components, WellFormedPath;
    var nodes := option.filePaths[0].instances[0].nodes;
    SinglePathShape(option);
    DriveNodeReencodes(nodes[0]);
    PathNodeReencodes(nodes[1]);
    hide ParseNodeKind, DrivePayload, ValidFilePath, Le, UnitBytes;
    assert PrintNode(nodes[2]) == [0x7f, 0xff] + Le(2, 4);
  }

  /**
   * Identity is faithful to bytes: two parsed options with an identity have the same one exactly when
   * their file path lists agree byte for byte and their optional data agrees in length and digest.
   * Descriptions and the hidden bit play no part.
   */
  lemma IdentityFaithful(
    bytes1: seq<Byte>, option1: LoadOption, bytes2: seq<Byte>, option2: LoadOption, sha: Sha256)
    requires sha([]) == EMPTY_DIGEST
    ensures HasIdentity(bytes1, option1, sha) && HasIdentity(bytes2, option2, sha) ==>
              (Canonicalize(option1, sha) == Canonicalize(option2, sha)
               <==> && PrintPaths(option1.filePaths) == PrintPaths(option2.filePaths)
                    && |option1.optionalData| == |option2.optionalData|
                    && sha(option1.optionalData) == sha(option2.optionalData))
  {
    if HasIdentity(bytes1, option1, sha) && HasIdentity(bytes2, option2, sha) {
      IdentityKeepsPathList(bytes1, option1, sha);
      IdentityKeepsPathList(bytes2, option2, sha);
      var list1, list2 := PrintPaths(option1.filePaths), PrintPaths(option2.filePaths);
      if list1 == list2 {
        TakesPrintedPaths(option1, bytes1);
        TakesPrintedPaths(option2, bytes2);
        CanonicalizeParsed(bytes1, option1, sha);
        CanonicalizeParsed(bytes2, option2, sha);
        ParseOptionIffPrints(bytes1, option1);
        ParseOptionIffPrints(bytes2, option2);
      }
    }
  }

  /** `bytes` parse as `option`, which has an identity. */
  predicate HasIdentity(bytes: seq<Byte>, option: LoadOption, sha: Sha256) {
    ParseLoadOption(bytes) == Ok(option) && Canonicalize(option, sha).Ok?
  }

  lemma TakesPrintedPaths(option: LoadOption, bytes: seq<Byte>)
    requires ParseLoadOption(bytes) == Ok(option)
    ensures SplitPaths(PrintPaths(option.filePaths), 0, []) == Ok(option.filePaths)
  {
    ParseOptionIffPrints(bytes, option);
    var list := PrintPaths(option.filePaths);
    assert list[0..] == list && [] + option.filePaths == option.filePaths;
    SplitComplete(list, 0, [], option.filePaths);
  }
}
