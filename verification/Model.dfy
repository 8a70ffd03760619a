/** The values the core, the helper and the GUI exchange. */
module Model {
  import opened Results
  import opened Bytes

  type BootId = U16

  datatype Os = Windows | Linux

  datatype Request = Inspect | Configure(bootId: BootId, os: Os) | Switch(os: Os)

  datatype RebootOutcome = Accepted | Rejected | Unknown

  datatype Stage =
    | TargetValidated
    | BootNextVerified
    | RebootAccepted
    | RebootRejected
    | RebootUnknown
    | RollbackAttempted
    | RollbackRestored
    | RollbackUnsafe
    | RollbackFailed
    | ResidualPossible

  datatype RollbackOutcome = NotNeeded | Restored | Unsafe | Failed(error: Error)

  datatype RecordDiagnostic = Missing | Ready(bootId: BootId, os: Os)

  datatype Classification = NeedsConfirmation | Unsupported

  datatype Candidate = Candidate(
    bootId: BootId, description: seq<U16>, classification: Classification, ambiguous: bool)

  datatype EnumerationDiagnostic = DuplicateBootOrder(bootId: BootId)

  datatype Report = Report(
    candidates: seq<Candidate>, record: RecordDiagnostic, stages: seq<Stage>,
    diagnostics: seq<EnumerationDiagnostic>)

  datatype OptionInventory = OptionInventory(
    entries: seq<(BootId, LoadOption)>, diagnostics: seq<EnumerationDiagnostic>)

  datatype LoadOption = LoadOption(
    attributes: U32, description: seq<U16>, filePathListLength: U16,
    filePaths: seq<DevicePath>, optionalData: seq<Byte>)

  datatype DevicePath = DevicePath(instances: seq<Instance>)

  datatype Instance = Instance(nodes: seq<Node>)

  datatype Node = Node(nodeType: Byte, subtype: Byte, length: U16, payload: seq<Byte>, kind: NodeKind)

  datatype NodeKind =
    | HardDrive(drive: HardDriveNode)
    | FilePath(path: seq<U16>)
    | EndInstance
    | EndEntire
    | UnknownKind

  datatype HardDriveNode = HardDriveNode(
    partitionNumber: U32, startLba: U64, sizeLba: U64, signature: Signature,
    mbrType: Byte, signatureType: Byte)

  type Signature = s: seq<Byte> | |s| == 16 witness seq(16, _ => 0)

  datatype TargetRecord = TargetRecord(os: Os, bootId: BootId, identity: CanonicalIdentity)

  datatype RecordState = NoRecord | Registered(target: TargetRecord)

  datatype CanonicalIdentity = CanonicalIdentity(
    filePathListLength: U16, nodes: seq<CanonicalNode>, optionalData: OpaqueExact)

  datatype CanonicalNode =
    | CanonicalDrive(nodeType: Byte, subtype: Byte, length: U16, drive: HardDriveNode)
    | CanonicalPath(nodeType: Byte, subtype: Byte, length: U16, path: seq<U16>, terminator: U16)
    | CanonicalEnd(nodeType: Byte, subtype: Byte, length: U16)

  /** The opaque tail of an option: its length and SHA-256 digest. */
  datatype OpaqueExact = OpaqueExact(byteLength: U64, digest: Digest)

  type Digest = d: seq<Byte> | |d| == 32 witness seq(32, _ => 0)

  datatype PlatformOperation =
    | Open | Read | Write | Metadata | Lock | Flush | Replace | Ipc | Reboot | Random | Process | Security

  type I32 = n: int | -0x8000_0000 <= n < 0x8000_0000

  datatype Error =
    | MalformedLoadOption
    | MalformedDevicePath
    | ResourceLimit
    | UnsupportedFormat
    | UnsupportedRecordVersion(found: U64)
    | UnsupportedIdentityComponent
    | CorruptRecord
    | IdentityMismatch
    | UnexpectedOs
    | TargetMissing
    | NotConfigured
    | BootNextConflict
    | Busy
    | ReadbackFailed
    | RebootRejectedError
    | NotUefi
    | PrivilegeUnavailable
    | PrivilegeEnableFailed(rawCode: I32)
    | PrivilegeRestoreFailed(rawCode: I32)
    | FirmwareReadFailed(rawCode: I32)
    | FirmwareWriteFailed(rawCode: I32)
    | BootNextUnavailable(rawCode: I32)
    | ProtectedStoreViolation(rawCode: I32)
    | StoreReplaceFailed(rawCode: I32)
    | PlatformIo(operation: PlatformOperation, rawCode: I32)
    | StoreDurabilityUnknown(rawCode: I32)
    | FlowFailure(cause: Error, stages: seq<Stage>, residual: ResidualAssessment,
                  rollback: RollbackAssessment, diagnostics: seq<EnumerationDiagnostic>)
  {
    predicate ResidualMayRemain() {
      match this
      case FlowFailure(_, stages, _, _, _) => ResidualPossible in stages
      case StoreDurabilityUnknown(_) => true
      case _ => false
    }
  }

  datatype ResidualAssessment = NotChecked | Observed(next: Option<BootId>) | ReadFailed(error: Error)

  datatype RollbackAssessment =
    | RollbackNotNeeded | RollbackDone | RollbackNotSafe | RollbackErred(error: Error)

  function ExpectedTarget(host: Os): Os {
    match host
    case Windows => Linux
    case Linux => Windows
  }
}
