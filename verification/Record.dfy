/** The registered target as it is stored: hex digests, wire records and the versioned record format. */
module Records {
  import opened Results
  import opened Bytes
  import opened Model
  import opened Identities

  const RECORD_VERSION: U64 := 1
  const IDENTITY_VERSION: U64 := 1
  const OPAQUE_VERSION: U64 := 1
  const MAX_RECORD_BYTES := 1_048_576

  // Hexadecimal digests.

  function HexDigit(nibble: nat): (digit: Byte)
    requires nibble < 16
  {
    if nibble < 10 then '0' as int + nibble else 'a' as int + (nibble - 10)
  }

  function DecodeNibble(value: Byte): Result<nat, Error> {
    if '0' as int <= value <= '9' as int then Ok(value - '0' as int)
    else if 'a' as int <= value <= 'f' as int then Ok(value - 'a' as int + 10)
    else Err(CorruptRecord)
  }

  function EncodeHex(bytes: seq<Byte>): (hex: seq<Byte>)
    ensures |hex| == 2 * |bytes|
  {
    if bytes == [] then []
    else [HexDigit(bytes[0] / 16), HexDigit(bytes[0] % 16)] + EncodeHex(bytes[1..])
  }

  function DecodePair(high: Byte, low: Byte): (r: Result<Byte, Error>)
    ensures r.Ok? ==> HexDigit(r.value / 16) == high && HexDigit(r.value % 16) == low
    ensures r.Err? ==> r.error == CorruptRecord
  {
    var h := DecodeNibble(high);
    var l := DecodeNibble(low);
    if h.Ok? && l.Ok? then
      var b := h.value * 16 + l.value;
      assert b / 16 == h.value && b % 16 == l.value;
      Ok(b)
    else Err(CorruptRecord)
  }

  function DecodeHex(hex: seq<Byte>): (r: Result<seq<Byte>, Error>)
    requires |hex| % 2 == 0
    ensures r.Ok? ==> |r.value| == |hex| / 2
  {
    if hex == [] then Ok([])
    else
      var first :- DecodePair(hex[0], hex[1]);
      var rest :- DecodeHex(hex[2..]);
      Ok([first] + rest)
  }

  function EncodeDigest(digest: Digest): seq<Byte> {
    EncodeHex(digest)
  }

  function DecodeDigest(encoded: seq<Byte>): Result<Digest, Error> {
    if |encoded| != 64 then Err(CorruptRecord) else DecodeHex(encoded)
  }

  lemma {:induction false} EncodeHexAppend(bytes: seq<Byte>, b: Byte)
    ensures EncodeHex(bytes + [b]) == EncodeHex(bytes) + [HexDigit(b / 16), HexDigit(b % 16)]
  {
    if bytes == [] {
      assert EncodeHex([b]) == [HexDigit(b / 16), HexDigit(b % 16)] + EncodeHex([]);
    } else {
      EncodeHexAppend(bytes[1..], b);
      assert (bytes + [b])[1..] == bytes[1..] + [b];
    }
  }

  method EncodeDigestLoop(digest: Digest) returns (encoded: seq<Byte>)
    ensures encoded == EncodeDigest(digest)
  {
    encoded := [];
    for i := 0 to |digest|
      invariant encoded == EncodeHex(digest[..i])
    {
      EncodeHexAppend(digest[..i], digest[i]);
      assert digest[..i] + [digest[i]] == digest[..i + 1];
      encoded := encoded + [HexDigit(digest[i] / 16), HexDigit(digest[i] % 16)];
    }
    assert digest[..|digest|] == digest;
  }

  function Prepend(front: seq<Byte>, back: Result<seq<Byte>, Error>): Result<seq<Byte>, Error> {
    if back.Ok? then Ok(front + back.value) else back
  }

  lemma PrependSteps(front: seq<Byte>, b: Byte, back: Result<seq<Byte>, Error>)
    ensures Prepend([], back) == back
    ensures Prepend(front, Prepend([b], back)) == Prepend(front + [b], back)
  {
    if back.Ok? {
      assert [] + back.value == back.value;
      assert front + ([b] + back.value) == front + [b] + back.value;
    }
  }

  /** The next pair of digits gives one byte of the digest, or the whole text is refused. */
  lemma DecodeStep(digest: seq<Byte>, encoded: seq<Byte>, i: nat)
    requires |encoded| == 64 && i < 32
    ensures var pair := DecodePair(encoded[2 * i], encoded[2 * i + 1]);
            Prepend(digest, DecodeHex(encoded[2 * i..]))
              == if pair.Err? then Err(pair.error)
                 else Prepend(digest + [pair.value], DecodeHex(encoded[2 * (i + 1)..]))
  {
    hide DecodePair;
    var tail := encoded[2 * i..];
    assert tail[2..] == encoded[2 * (i + 1)..] && tail[0] == encoded[2 * i] && tail[1] == encoded[2 * i + 1];
    var pair := DecodePair(tail[0], tail[1]);
    if pair.Ok? {
      PrependSteps(digest, pair.value, DecodeHex(tail[2..]));
    }
  }

  lemma DecodeEnds(digest: seq<Byte>, encoded: seq<Byte>)
    requires |encoded| == 64
    ensures Prepend(digest, DecodeHex(encoded[64..])) == Ok(digest)
  {
    assert encoded[64..] == [] && digest + [] == digest;
  }

  method DecodeDigestLoop(encoded: seq<Byte>) returns (r: Result<Digest, Error>)
    ensures r == DecodeDigest(encoded)
  {
    if |encoded| != 64 {
      return Err(CorruptRecord);
    }
    hide DecodeHex, Prepend, DecodePair;
    var digest: seq<Byte> := [];
    assert encoded[0..] == encoded;
    PrependSteps([], 0, DecodeHex(encoded));
    for i := 0 to 32
      invariant |digest| == i
      invariant DecodeHex(encoded) == Prepend(digest, DecodeHex(encoded[2 * i..]))
    {
      DecodeStep(digest, encoded, i);
      var b :- DecodePair(encoded[2 * i], encoded[2 * i + 1]);
      digest := digest + [b];
    }
    DecodeEnds(digest, encoded);
    return Ok(digest);
  }

  lemma {:induction false} HexIff(hex: seq<Byte>, bytes: seq<Byte>)
    requires |hex| % 2 == 0
    ensures DecodeHex(hex) == Ok(bytes) <==> EncodeHex(bytes) == hex
  {
    if bytes != [] && hex != [] {
      HexIff(hex[2..], bytes[1..]);
      HexDigitsDetermine(bytes[0]);
      assert hex == [hex[0], hex[1]] + hex[2..];
      if EncodeHex(bytes) == hex {
        assert EncodeHex(bytes)[2..] == EncodeHex(bytes[1..]);
        assert DecodePair(hex[0], hex[1]) == Ok(bytes[0]);
        assert bytes == [bytes[0]] + bytes[1..];
      }
    }
  }

  lemma HexDigitsDetermine(b: Byte)
    ensures DecodePair(HexDigit(b / 16), HexDigit(b % 16)) == Ok(b)
  {
    assert DecodeNibble(HexDigit(b / 16)) == Ok(b / 16);
    assert DecodeNibble(HexDigit(b % 16)) == Ok(b % 16);
  }

  /** Exactly one text decodes to a digest: its lower-case hexadecimal form. */
  lemma DigestIff(encoded: seq<Byte>, digest: Digest)
    ensures DecodeDigest(encoded) == Ok(digest) <==> encoded == EncodeDigest(digest)
  {
    if |encoded| == 64 {
      HexIff(encoded, digest);
    }
  }

  // Wire records.

  datatype WireRecord = WireRecord(version: U64, target: WireTarget)

  datatype WireTarget = WireTarget(os: Os, bootId: BootId, identity: WireIdentity)

  datatype WireIdentity = WireIdentity(
    kind: string, version: U64, filePathListLength: U16, nodes: seq<WireNode>, optionalData: WireOpaque)

  datatype WireNode =
    | WireDrive(nodeType: Byte, subtype: Byte, length: U16, drive: HardDriveNode)
    | WirePath(nodeType: Byte, subtype: Byte, length: U16, path: seq<U16>, terminator: U16)
    | WireEnd(nodeType: Byte, subtype: Byte, length: U16)
    | WireUnsupported

  datatype WireOpaque = WireOpaque(
    kind: string, version: U64, algorithm: string, byteLength: U64, digest: seq<Byte>)

  function ToWireNode(node: CanonicalNode): WireNode {
    match node
    case CanonicalDrive(nodeType, subtype, length, drive) => WireDrive(nodeType, subtype, length, drive)
    case CanonicalPath(nodeType, subtype, length, path, terminator) =>
      WirePath(nodeType, subtype, length, path, terminator)
    case CanonicalEnd(nodeType, subtype, length) => WireEnd(nodeType, subtype, length)
  }

  function ToWire(record: TargetRecord): WireRecord
    requires ValidateCanonicalIdentity(record.identity).Ok?
  {
    var identity := record.identity;
    WireRecord(
      RECORD_VERSION,
      WireTarget(
        record.os, record.bootId,
        WireIdentity(
          "CanonicalIdentity", IDENTITY_VERSION, identity.filePathListLength,
          [ToWireNode(identity.nodes[0]), ToWireNode(identity.nodes[1]), ToWireNode(identity.nodes[2])],
          WireOpaque("OpaqueExact", OPAQUE_VERSION, "Sha256", identity.optionalData.byteLength,
                     EncodeDigest(identity.optionalData.digest)))))
  }

  function FromWire(wire: WireRecord): Result<TargetRecord, Error> {
    var identity := wire.target.identity;
    var opaqueData := identity.optionalData;
    if wire.version != RECORD_VERSION then Err(UnsupportedRecordVersion(wire.version))
    else if || identity.kind != "CanonicalIdentity" || identity.version != IDENTITY_VERSION
            || opaqueData.kind != "OpaqueExact" || opaqueData.version != OPAQUE_VERSION
            || opaqueData.algorithm != "Sha256" || WireUnsupported in identity.nodes
    then Err(UnsupportedIdentityComponent)
    else if || |identity.nodes| != 3 || !identity.nodes[0].WireDrive?
            || !identity.nodes[1].WirePath? || !identity.nodes[2].WireEnd?
    then Err(CorruptRecord)
    else
      var drive, path, end := identity.nodes[0], identity.nodes[1], identity.nodes[2];
      var digest :- DecodeDigest(opaqueData.digest);
      var canonical := CanonicalIdentity(
                         identity.filePathListLength,
                         [CanonicalDrive(drive.nodeType, drive.subtype, drive.length, drive.drive),
                          CanonicalPath(path.nodeType, path.subtype, path.length, path.path, path.terminator),
                          CanonicalEnd(end.nodeType, end.subtype, end.length)],
                         OpaqueExact(opaqueData.byteLength, digest));
      if ValidateCanonicalIdentity(canonical).Err? then Err(CorruptRecord)
      else Ok(TargetRecord(wire.target.os, wire.target.bootId, canonical))
  }

  /** Exactly one wire record stands for a record with a valid identity, and no other record is ever read. */
  lemma WireIff(wire: WireRecord, record: TargetRecord)
    ensures FromWire(wire) == Ok(record)
       <==> ValidateCanonicalIdentity(record.identity).Ok? && ToWire(record) == wire
  {
    hide ValidateHardDrive, FilePathLength, ValidFilePath, AddLengths, DecodeDigest, EncodeDigest;
    var digest := record.identity.optionalData.digest;
    DigestIff(wire.target.identity.optionalData.digest, digest);
    DigestIff(EncodeDigest(digest), digest);
    if FromWire(wire) == Ok(record) {
      var nodes := wire.target.identity.nodes;
      assert nodes == [nodes[0], nodes[1], nodes[2]];
    }
    if ValidateCanonicalIdentity(record.identity).Ok? && ToWire(record) == wire {
      var nodes := record.identity.nodes;
      assert nodes == [nodes[0], nodes[1], nodes[2]];
    }
  }

  // The record file.

  /** What the first pass over a record file finds, before the record is read whole. */
  datatype Markers = Markers(
    kind: Option<string>, version: Option<U64>, nodeKinds: Option<seq<Option<string>>>,
    opaqueKind: Option<string>, opaqueVersion: Option<U64>, algorithm: Option<string>)

  /** The JSON library at the record boundary: `None` is text it cannot read at the expected type. */
  datatype RecordCodec = RecordCodec(
    toVec: WireRecord -> seq<Byte>,
    version: seq<Byte> -> Option<U64>,
    markers: seq<Byte> -> Option<Markers>,
    fromSlice: seq<Byte> -> Option<WireRecord>)
  {
    /** Reading a written record gives it back, with its version and markers. */
    ghost predicate Lawful() {
      forall record: TargetRecord | ValidateCanonicalIdentity(record.identity).Ok? :: Written(ToWire(record))
    }

    ghost predicate Written(wire: WireRecord) {
      var text := toVec(wire);
      && fromSlice(text) == Some(wire)
      && version(text) == Some(wire.version)
      && markers(text) == Some(MarkersOf(wire))
    }
  }

  function NodeKindName(node: WireNode): string {
    match node
    case WireDrive(_, _, _, _) => "HardDrive"
    case WirePath(_, _, _, _, _) => "FilePath"
    case WireEnd(_, _, _) => "EndEntire"
    case WireUnsupported => "Unsupported"
  }

  function MarkersOf(wire: WireRecord): Markers {
    var identity := wire.target.identity;
    Markers(
      Some(identity.kind), Some(identity.version),
      Some(seq(|identity.nodes|, i requires 0 <= i < |identity.nodes| => Some(NodeKindName(identity.nodes[i])))),
      Some(identity.optionalData.kind), Some(identity.optionalData.version), Some(identity.optionalData.algorithm))
  }

  function RequireMarker<T(==)>(found: Option<T>, expected: T): Result<(), Error> {
    match found
    case None => Err(CorruptRecord)
    case Some(value) => if value == expected then Ok(()) else Err(UnsupportedIdentityComponent)
  }

  function RequireNodeKinds(kinds: seq<Option<string>>): Result<(), Error> {
    if kinds == [] then Ok(())
    else if kinds[0].None? then Err(CorruptRecord)
    else if kinds[0].value !in {"HardDrive", "FilePath", "EndEntire"} then Err(UnsupportedIdentityComponent)
    else RequireNodeKinds(kinds[1..])
  }

  function Preflight(found: Option<Markers>): Result<(), Error> {
    if found.None? then Err(CorruptRecord)
    else
      var markers := found.value;
      var _ :- RequireMarker(markers.kind, "CanonicalIdentity");
      var _ :- RequireMarker(markers.version, IDENTITY_VERSION);
      if markers.nodeKinds.None? then Err(CorruptRecord)
      else
        var _ :- RequireNodeKinds(markers.nodeKinds.value);
        var _ :- RequireMarker(markers.opaqueKind, "OpaqueExact");
        var _ :- RequireMarker(markers.opaqueVersion, OPAQUE_VERSION);
        RequireMarker(markers.algorithm, "Sha256")
  }

  function DecodeRecord(bytes: seq<Byte>, codec: RecordCodec): Result<TargetRecord, Error> {
    if |bytes| > MAX_RECORD_BYTES then Err(ResourceLimit)
    else
      match codec.version(bytes)
      case None => Err(CorruptRecord)
      case Some(version) =>
        if version != RECORD_VERSION then Err(UnsupportedRecordVersion(version))
        else
          var _ :- Preflight(codec.markers(bytes));
          match codec.fromSlice(bytes)
          case None => Err(CorruptRecord)
          case Some(wire) => FromWire(wire)
  }

  function EncodeRecord(record: TargetRecord, codec: RecordCodec): Result<seq<Byte>, Error> {
    if ValidateCanonicalIdentity(record.identity).Err? then Err(CorruptRecord)
    else
      var encoded := codec.toVec(ToWire(record));
      if |encoded| > MAX_RECORD_BYTES then Err(ResourceLimit) else Ok(encoded)
  }

  lemma OwnMarkersPass(record: TargetRecord)
    requires ValidateCanonicalIdentity(record.identity).Ok?
    ensures Preflight(Some(MarkersOf(ToWire(record)))) == Ok(())
  {
    hide ValidateHardDrive, FilePathLength, ValidFilePath, AddLengths, EncodeDigest;
    var kinds := MarkersOf(ToWire(record)).nodeKinds.value;
    assert kinds == [Some("HardDrive"), Some("FilePath"), Some("EndEntire")];
    assert RequireNodeKinds(kinds[3..]).Ok?;
    assert kinds[2..][1..] == kinds[3..] && RequireNodeKinds(kinds[2..]).Ok?;
    assert kinds[1..][1..] == kinds[2..] && RequireNodeKinds(kinds[1..]).Ok?;
  }

  /** A record that could be written is read back as itself. */
  lemma RecordRoundTrip(record: TargetRecord, codec: RecordCodec)
    requires codec.Lawful()
    requires EncodeRecord(record, codec).Ok?
    ensures DecodeRecord(EncodeRecord(record, codec).value, codec) == Ok(record)
  {
    var wire := ToWire(record);
    assert codec.Written(wire);
    WireIff(wire, record);
    OwnMarkersPass(record);
  }
}
