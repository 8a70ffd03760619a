/** The Linux record store: atomic replacement under short reads and writes, errors and crashes. */
module Stores {
  import opened Results
  import opened Bytes
  import opened Model
  import opened Identities
  import opened Records

  const RECORD := "targets.json"
  const ENOENT: I32 := 2
  const EIO: I32 := 5
  const EPERM: I32 := 1
  const EEXIST: I32 := 17
  const EWOULDBLOCK: I32 := 11
  const BUFFER := 8192

  datatype FileId = FileId(device: nat, inode: nat)

  /** Ownership, mode and link count; what protection is judged by. */
  datatype Attributes = Attributes(uid: U32, gid: U32, mode: bv32, links: U64)

  datatype Stat = Stat(attributes: Attributes, id: FileId, size: nat, stamp: nat)

  /** A file as the system sees it; `synced` says that its content also survives a crash. */
  datatype File = File(content: seq<Byte>, synced: bool, attributes: Attributes, stamp: nat)

  /**
   * The protected directory. `pending` holds every file the record name may be bound to after a crash:
   * the bindings it had since the directory was last synchronised.
   */
  datatype Disk = Disk(names: map<string, FileId>, files: map<FileId, File>, pending: set<Option<FileId>>, next: nat)
  {
    function Bound(): Option<FileId> {
      if RECORD in names then Some(names[RECORD]) else None
    }

    ghost predicate Valid() {
      && Bound() in pending
      && (forall name <- names :: names[name] in files)
      && (forall binding <- pending :: binding.Some? ==> binding.value in files)
      && (forall id <- files :: id.inode < next)
    }

    /** The record as the running system sees it. */
    function Visible(): Option<seq<Byte>>
      requires Valid()
    {
      if RECORD in names then Some(files[names[RECORD]].content) else None
    }

    function MetadataOf(id: FileId): Stat
      requires id in files
    {
      Stat(files[id].attributes, id, |files[id].content|, files[id].stamp)
    }

    // What the calls do.

    function Create(name: string, device: nat, attributes: Attributes): Disk {
      var id := FileId(device, next);
      this.(names := names[name := id], files := files[id := File([], false, attributes, 0)], next := next + 1)
    }

    function Append(id: FileId, bytes: seq<Byte>): Disk
      requires id in files
    {
      var file := files[id];
      this.(files := files[id := file.(content := file.content + bytes, synced := false, stamp := file.stamp + 1)])
    }

    function SyncFile(id: FileId): Disk
      requires id in files
    {
      this.(files := files[id := files[id].(synced := true)])
    }

    function SyncDirectory(): Disk {
      this.(pending := {Bound()})
    }

    function Publish(name: string): Disk
      requires name in names && name != RECORD
    {
      this.(names := (names - {name})[RECORD := names[name]], pending := pending + {Some(names[name])})
    }

    function Unlink(name: string): Disk {
      this.(names := names - {name})
    }
  }

  /** What a crash now may leave as the record: synced content whole, unsynced content as anything. */
  ghost predicate MayRecover(d: Disk, content: Option<seq<Byte>>)
    requires d.Valid()
  {
    exists binding :: binding in d.pending && RecoversTo(d, binding, content)
  }

  ghost predicate RecoversTo(d: Disk, binding: Option<FileId>, content: Option<seq<Byte>>)
    requires d.Valid() && binding in d.pending
  {
    if binding.None? then content.None?
    else content.Some? && (d.files[binding.value].synced ==> content.value == d.files[binding.value].content)
  }

  /** Between `entry` and `d` the record was replaced whole or not at all, crash or no crash. */
  ghost predicate Atomic(entry: Disk, d: Disk, replacement: Result<seq<Byte>, Error>) {
    && entry.Valid() && d.Valid()
    && (d.Visible() == entry.Visible() || (replacement.Ok? && d.Visible() == Some(replacement.value)))
    && forall content :: MayRecover(d, content) ==>
         MayRecover(entry, content) || (replacement.Ok? && content == Some(replacement.value))
  }

  /** A crash now leaves exactly the visible record. */
  ghost predicate Settled(d: Disk) {
    d.Valid() && forall found :: MayRecover(d, found) ==> found == d.Visible()
  }

  /** A crash now may leave `found`. */
  ghost predicate MayBeLeft(d: Disk, found: Option<seq<Byte>>) {
    d.Valid() && MayRecover(d, found)
  }

  /** The record name and every file it may be bound to are as they were. */
  ghost predicate SameRecord(entry: Disk, d: Disk) {
    && entry.Valid() && d.Valid()
    && d.Bound() == entry.Bound() && d.pending == entry.pending
    && (forall binding <- entry.pending :: binding.Some? ==>
          d.files[binding.value] == entry.files[binding.value])
  }

  lemma SameRecordIsAtomic(entry: Disk, d: Disk, replacement: Result<seq<Byte>, Error>)
    requires SameRecord(entry, d)
    ensures Atomic(entry, d, replacement) && d.Visible() == entry.Visible()
    ensures forall content :: MayRecover(d, content) <==> MayRecover(entry, content)
  {
    assert entry.Bound() in entry.pending;
    forall content ensures MayRecover(d, content) <==> MayRecover(entry, content) {
      if binding :| binding in d.pending && RecoversTo(d, binding, content) {
        assert RecoversTo(entry, binding, content);
      }
      if binding :| binding in entry.pending && RecoversTo(entry, binding, content) {
        assert RecoversTo(d, binding, content);
      }
    }
  }

  /** A file outside `pending` may be created, written, synchronised and unlinked without touching the record. */
  lemma TemporaryFileIsApart(d: Disk, name: string, device: nat, attributes: Attributes)
    requires d.Valid() && name != RECORD && name !in d.names
    ensures var created, id := d.Create(name, device, attributes), FileId(device, d.next);
            Unpublished(d, created, id, name) && Some(id) !in created.pending
  {
  }

  /** Publishing a synced file adds exactly its content to what a crash may leave. */
  lemma PublishingAddsOneOutcome(d: Disk, name: string)
    requires d.Valid() && name in d.names && name != RECORD && d.files[d.names[name]].synced
    ensures var published, content := d.Publish(name), d.files[d.names[name]].content;
            && published.Valid() && published.Visible() == Some(content)
            && forall found :: MayRecover(published, found) <==> MayRecover(d, found) || found == Some(content)
  {
    var published, id := d.Publish(name), d.names[name];
    forall found ensures MayRecover(published, found)
                    <==> MayRecover(d, found) || found == Some(d.files[id].content) {
      if binding :| binding in published.pending && RecoversTo(published, binding, found) {
        if binding in d.pending {
          assert RecoversTo(d, binding, found);
        }
      }
      if binding :| binding in d.pending && RecoversTo(d, binding, found) {
        assert RecoversTo(published, binding, found);
      }
      if found == Some(d.files[id].content) {
        assert RecoversTo(published, Some(id), found);
      }
    }
  }

  /** Without the file sync before it, publishing would let a crash leave any bytes at all as the record. */
  lemma UnsyncedPublishingTears(d: Disk, name: string, found: seq<Byte>)
    requires d.Valid() && name in d.names && name != RECORD && !d.files[d.names[name]].synced
    ensures d.Publish(name).Valid() && MayRecover(d.Publish(name), Some(found))
  {
    assert RecoversTo(d.Publish(name), Some(d.names[name]), Some(found));
  }

  /** After the directory sync a crash leaves the visible record, once that is synced. */
  lemma SyncedDirectoryIsFinal(d: Disk)
    requires d.Valid() && d.Bound().Some? && d.files[d.Bound().value].synced
    ensures var settled := d.SyncDirectory();
            && settled.Valid() && settled.Visible() == d.Visible()
            && forall found :: MayRecover(settled, found) <==> found == d.Visible()
  {
    var settled := d.SyncDirectory();
    forall found ensures MayRecover(settled, found) <==> found == d.Visible() {
      if found == d.Visible() {
        assert RecoversTo(settled, d.Bound(), found);
      }
    }
  }

  // Protection.

  predicate ValidFile(meta: Stat) {
    var a := meta.attributes;
    a.uid == 0 && a.gid == 0 && a.mode == 0x8180 && a.links == 1
  }

  predicate ValidDirectory(meta: Stat, protected: bool) {
    var a := meta.attributes;
    && a.uid == 0 && a.gid == 0
    && a.mode & 0xF000 == 0x4000
    && a.mode & 0x12 == 0
    && (protected ==> a.mode & 0xFFF == 0x1C0)
  }

  // The system calls, with every answer chosen by the environment.

  datatype ReadAnswer = Gives(upTo: nat) | Overclaims(extra: nat) | ReadFails(rawCode: I32)

  datatype WriteAnswer = Takes(upTo: nat) | OverclaimsWrite(extra: nat) | WriteFails(rawCode: I32, taken: nat)

  /** A failing rename normally has no effect; `RenameTears` is one that reports failure after taking effect. */
  datatype RenameAnswer = Renames | RenameFails(rawCode: I32) | RenameTears(rawCode: I32)

  datatype Answers = Answers(
    open: nat -> Result<(), I32>,
    created: nat -> (nat, Attributes),
    stat: nat -> Result<(), I32>,
    read: nat -> ReadAnswer,
    write: nat -> WriteAnswer,
    sync: nat -> Result<(), I32>,
    rename: nat -> RenameAnswer,
    unlink: nat -> Result<(), I32>)
  {
    /** No call but a rename fails, though reads and writes may still be short. */
    ghost predicate Steady() {
      forall n: nat ::
        && open(n).Ok? && stat(n).Ok? && read(n).Gives? && sync(n).Ok?
        && write(n).Takes? && write(n).upTo > 0
        && ValidFile(Stat(created(n).1, FileId(0, 0), 0, 0))
    }

    /** No call fails. */
    ghost predicate Calm() {
      Steady() && forall n: nat :: rename(n).Renames?
    }

    /** No call fails but renames, which take effect and still report failure. */
    ghost predicate Tearing() {
      Steady() && forall n: nat :: rename(n).RenameTears?
    }
  }

  function Min(a: nat, b: nat): nat {
    if a < b then a else b
  }

  /** Absence is reported for absent names only. */
  function OpenOutcome(d: Disk, name: string, answer: Result<(), I32>): Result<FileId, I32> {
    if name in d.names then
      if answer.Err? && answer.error != ENOENT then Err(answer.error) else Ok(d.names[name])
    else Err(if answer.Err? then answer.error else ENOENT)
  }

  class Filesystem {
    const answers: Answers
    var disk: Disk
    var calls: nat
    var torn: bool
    ghost var history: seq<Disk>

    constructor (answers: Answers, disk: Disk)
      ensures this.answers == answers && this.disk == disk && calls == 0 && !torn && history == []
    {
      this.answers, this.disk := answers, disk;
      calls, torn, history := 0, false, [];
    }

    method Open(name: string) returns (r: Result<FileId, I32>)
      modifies this
      ensures disk == old(disk) && torn == old(torn) && history == old(history) + [disk]
      ensures r == OpenOutcome(disk, name, answers.open(old(calls)))
    {
      r := OpenOutcome(disk, name, answers.open(calls));
      calls, history := calls + 1, history + [disk];
    }

    method OpenTemporary(name: string) returns (r: Result<FileId, I32>)
      modifies this
      ensures torn == old(torn) && history == old(history) + [disk]
      ensures var answer := answers.open(old(calls));
              var (device, attributes) := answers.created(old(calls));
              if name in old(disk).names || answer.Err? then r.Err? && disk == old(disk)
              else r == Ok(FileId(device, old(disk).next)) && disk == old(disk).Create(name, device, attributes)
    {
      var answer := answers.open(calls);
      var (device, attributes) := answers.created(calls);
      if name in disk.names {
        r := Err(EEXIST);
      } else if answer.Err? {
        r := Err(answer.error);
      } else {
        r := Ok(FileId(device, disk.next));
        disk := disk.Create(name, device, attributes);
      }
      calls, history := calls + 1, history + [disk];
    }

    method Stat(id: FileId) returns (r: Result<Stat, I32>)
      requires id in disk.files
      modifies this
      ensures disk == old(disk) && torn == old(torn) && history == old(history) + [disk]
      ensures r == (if answers.stat(old(calls)).Err? then Err(answers.stat(old(calls)).error)
                    else Ok(disk.MetadataOf(id)))
    {
      var answer := answers.stat(calls);
      r := if answer.Err? then Err(answer.error) else Ok(disk.MetadataOf(id));
      calls, history := calls + 1, history + [disk];
    }

    /** Reads at `offset`: the count reported and the bytes given; nothing is given at the end only. */
    method Read(id: FileId, offset: nat, limit: nat) returns (r: Result<(nat, seq<Byte>), I32>)
      requires id in disk.files && offset <= |disk.files[id].content| && limit > 0
      modifies this
      ensures disk == old(disk) && torn == old(torn) && history == old(history) + [disk]
      ensures r.Ok? ==>
                var (count, bytes) := r.value;
                var content := disk.files[id].content;
                || (count > limit && answers.read(old(calls)).Overclaims?)
                || (&& count == |bytes| <= limit && offset + count <= |content|
                    && bytes == content[offset..offset + count] && (count == 0 <==> offset == |content|))
      ensures r.Err? ==> answers.read(old(calls)).ReadFails?
    {
      var content := disk.files[id].content;
      match answers.read(calls) {
        case Gives(upTo) =>
          var count := Min(|content| - offset, Min(limit, upTo + 1));
          r := Ok((count, content[offset..offset + count]));
        case Overclaims(extra) => r := Ok((limit + 1 + extra, []));
        case ReadFails(rawCode) => r := Err(rawCode);
      }
      calls, history := calls + 1, history + [disk];
    }

    method Write(id: FileId, bytes: seq<Byte>) returns (r: Result<nat, I32>)
      requires id in disk.files
      modifies this
      ensures torn == old(torn) && history == old(history) + [disk]
      ensures exists taken | 0 <= taken <= |bytes| ::
                && disk == old(disk).Append(id, bytes[..taken])
                && (r.Ok? && r.value <= |bytes| ==> r.value == taken)
      ensures answers.write(old(calls)).Takes? ==> r == Ok(Min(|bytes|, answers.write(old(calls)).upTo))
    {
      var taken: nat;
      match answers.write(calls) {
        case Takes(upTo) =>
          taken := Min(|bytes|, upTo);
          r := Ok(taken);
        case OverclaimsWrite(extra) =>
          taken := 0;
          r := Ok(|bytes| + 1 + extra);
        case WriteFails(rawCode, some) =>
          taken := Min(|bytes|, some);
          r := Err(rawCode);
      }
      disk := disk.Append(id, bytes[..taken]);
      calls, history := calls + 1, history + [disk];
    }

    method Sync(id: FileId) returns (r: Result<(), I32>)
      requires id in disk.files
      modifies this
      ensures torn == old(torn) && history == old(history) + [disk] && r == answers.sync(old(calls))
      ensures disk == if r.Ok? then old(disk).SyncFile(id) else old(disk)
    {
      r := answers.sync(calls);
      if r.Ok? {
        disk := disk.SyncFile(id);
      }
      calls, history := calls + 1, history + [disk];
    }

    method SyncDirectory() returns (r: Result<(), I32>)
      modifies this
      ensures torn == old(torn) && history == old(history) + [disk] && r == answers.sync(old(calls))
      ensures disk == if r.Ok? then old(disk).SyncDirectory() else old(disk)
    {
      r := answers.sync(calls);
      if r.Ok? {
        disk := disk.SyncDirectory();
      }
      calls, history := calls + 1, history + [disk];
    }

    method RenameToRecord(name: string) returns (r: Result<(), I32>)
      requires name != RECORD && name in disk.names
      modifies this
      ensures history == old(history) + [disk]
      ensures var answer := answers.rename(old(calls));
              && (r.Ok? <==> answer.Renames?) && torn == answer.RenameTears?
              && disk == if answer.RenameFails? then old(disk) else old(disk).Publish(name)
    {
      var answer := answers.rename(calls);
      torn := answer.RenameTears?;
      r := if answer.Renames? then Ok(()) else Err(answer.rawCode);
      if !answer.RenameFails? {
        disk := disk.Publish(name);
      }
      calls, history := calls + 1, history + [disk];
    }

    method Unlink(name: string) returns (r: Result<(), I32>)
      modifies this
      ensures torn == old(torn) && history == old(history) + [disk]
      ensures disk == old(disk) || (disk == old(disk).Unlink(name) && name in old(disk).names)
      ensures answers.unlink(old(calls)).Ok? && name in old(disk).names ==> disk == old(disk).Unlink(name)
    {
      r := answers.unlink(calls);
      if r.Ok? && name !in disk.names {
        r := Err(ENOENT);
      } else if r.Ok? {
        disk := disk.Unlink(name);
      }
      calls, history := calls + 1, history + [disk];
    }
  }

  /** Every disk since position `from` is an atomic successor of `entry`. */
  ghost predicate AllAtomic(history: seq<Disk>, from: nat, entry: Disk, replacement: Result<seq<Byte>, Error>) {
    from <= |history| && forall k | from <= k < |history| :: Atomic(entry, history[k], replacement)
  }

  lemma OneMoreAtomic(was: seq<Disk>, d: Disk, entry: Disk, replacement: Result<seq<Byte>, Error>)
    requires Atomic(entry, d, replacement)
    ensures (was + [d])[..|was|] == was && AllAtomic(was + [d], |was|, entry, replacement)
  {
    hide Atomic;
  }

  lemma EachAtomic(was: seq<Disk>, now: seq<Disk>, entry: Disk, replacement: Result<seq<Byte>, Error>)
    requires |was| <= |now| && forall k | |was| <= k < |now| :: Atomic(entry, now[k], replacement)
    ensures AllAtomic(now, |was|, entry, replacement)
  {
  }

  lemma MoreAtomic(
    was: seq<Disk>, middle: seq<Disk>, now: seq<Disk>, entry: Disk, replacement: Result<seq<Byte>, Error>)
    requires |was| <= |middle| <= |now| && middle[..|was|] == was && now[..|middle|] == middle
    requires AllAtomic(middle, |was|, entry, replacement) && AllAtomic(now, |middle|, entry, replacement)
    ensures now[..|was|] == was && AllAtomic(now, |was|, entry, replacement)
  {
    hide Atomic;
    forall k | 0 <= k < |middle| ensures now[k] == middle[k] {
      assert now[..|middle|][k] == middle[k];
    }
    assert now[..|was|] == middle[..|was|];
  }

  lemma CrashesLeaveOldOrNew(history: seq<Disk>, from: nat, entry: Disk, replacement: Result<seq<Byte>, Error>)
    requires AllAtomic(history, from, entry, replacement)
    ensures Settled(entry) ==>
              forall k, found | from <= k < |history| && MayBeLeft(history[k], found) ::
                found == entry.Visible() || (replacement.Ok? && found == Some(replacement.value))
  {
    hide MayRecover;
    if Settled(entry) {
      forall k, found | from <= k < |history| && MayBeLeft(history[k], found)
        ensures found == entry.Visible() || (replacement.Ok? && found == Some(replacement.value))
      {
        assert Atomic(entry, history[k], replacement);
      }
    }
  }

  /** What a record's bytes stand for. */
  function StateOf(visible: Option<seq<Byte>>, codec: RecordCodec): Result<RecordState, Error> {
    match visible
    case None => Ok(NoRecord)
    case Some(bytes) =>
      var target := DecodeRecord(bytes, codec);
      if target.Ok? then Ok(Registered(target.value)) else Err(target.error)
  }

  lemma LongRecordsAreRefused(bytes: seq<Byte>, codec: RecordCodec)
    ensures |bytes| > MAX_RECORD_BYTES ==> DecodeRecord(bytes, codec) == Err(ResourceLimit)
  {
  }

  /** Reading a record never claims that its durability is unknown. */
  lemma RecordErrorsAreFinal(bytes: seq<Byte>, codec: RecordCodec)
    ensures DecodeRecord(bytes, codec).Err? ==> !DecodeRecord(bytes, codec).error.StoreDurabilityUnknown?
  {
    var markers := codec.markers(bytes);
    if markers.Some? && markers.value.nodeKinds.Some? {
      KindErrorsAreFinal(markers.value.nodeKinds.value);
    }
    var wire := codec.fromSlice(bytes);
    if wire.Some? {
      IdentityErrorsAreFinal(wire.value);
    }
    hide FromWire, RequireNodeKinds;
  }

  lemma {:induction false} KindErrorsAreFinal(kinds: seq<Option<string>>)
    ensures RequireNodeKinds(kinds).Err? ==> !RequireNodeKinds(kinds).error.StoreDurabilityUnknown?
  {
    if kinds != [] {
      KindErrorsAreFinal(kinds[1..]);
    }
  }

  lemma IdentityErrorsAreFinal(wire: WireRecord)
    ensures FromWire(wire).Err? ==> !FromWire(wire).error.StoreDurabilityUnknown?
  {
    if |wire.target.identity.optionalData.digest| == 64 {
      HexErrorsAreFinal(wire.target.identity.optionalData.digest);
    }
    hide DecodeHex, ValidateCanonicalIdentity;
  }

  lemma {:induction false} HexErrorsAreFinal(hex: seq<Byte>)
    requires |hex| % 2 == 0
    ensures DecodeHex(hex).Err? ==> !DecodeHex(hex).error.StoreDurabilityUnknown?
  {
    if |hex| >= 2 {
      HexErrorsAreFinal(hex[2..]);
    }
  }

  lemma WritingErrorsAreFinal(target: TargetRecord, codec: RecordCodec)
    ensures EncodeRecord(target, codec).Err? ==> !EncodeRecord(target, codec).error.StoreDurabilityUnknown?
  {
  }

  ghost predicate RecordIsProtected(d: Disk)
    requires d.Valid()
  {
    d.Bound().Some? ==> ValidFile(d.MetadataOf(d.Bound().value))
  }

  function Decimal(n: nat): string {
    (if n < 10 then "" else Decimal(n / 10)) + ["0123456789"[n % 10]]
  }

  /** The temporary name: never the record's own. */
  function TemporaryName(process: nat, sequence: U64): (name: string)
    ensures name != RECORD
  {
    ".targets-" + Decimal(process) + "-" + Decimal(sequence) + ".tmp"
  }

  /** The operation lock is held for as long as the store exists. */
  class LockedStore {
    const fs: Filesystem

    constructor (fs: Filesystem)
      ensures this.fs == fs
    {
      this.fs := fs;
    }

    /** Reads an open file until it gives nothing more. */
    method ReadContents(file: FileId) returns (r: Result<seq<Byte>, Error>)
      requires file in fs.disk.files && |fs.disk.files[file].content| <= MAX_RECORD_BYTES
      modifies fs
      ensures fs.disk == old(fs.disk) && fs.torn == old(fs.torn)
      ensures |fs.history| >= |old(fs.history)| && fs.history[..|old(fs.history)|] == old(fs.history)
      ensures forall k | |old(fs.history)| <= k < |fs.history| :: fs.history[k] == fs.disk
      ensures r.Ok? ==> r.value == fs.disk.files[file].content
      ensures r.Err? ==> r.error.PlatformIo? || r.error == ResourceLimit
      ensures fs.answers.Steady() ==> r.Ok?
    {
      ghost var content := fs.disk.files[file].content;
      var bytes: seq<Byte> := [];
      while true
        invariant fs.disk == old(fs.disk) && fs.torn == old(fs.torn)
        invariant |fs.history| >= |old(fs.history)| && fs.history[..|old(fs.history)|] == old(fs.history)
        invariant forall k | |old(fs.history)| <= k < |fs.history| :: fs.history[k] == fs.disk
        invariant |bytes| <= |content| && bytes == content[..|bytes|]
        decreases |content| - |bytes|
      {
        var limit := Min(BUFFER, MAX_RECORD_BYTES - |bytes| + 1);
        var outcome := fs.Read(file, |bytes|, limit);
        if outcome.Err? {
          return Err(PlatformIo(PlatformOperation.Read, outcome.error));
        }
        var (count, given) := outcome.value;
        if count == 0 {
          return Ok(bytes);
        }
        if count > BUFFER || |bytes| + count > MAX_RECORD_BYTES {
          return Err(ResourceLimit);
        }
        bytes := bytes + given;
      }
    }

    /** Reads a protected file of bounded size, which must not change meanwhile. */
    method ReadProtected(file: FileId) returns (r: Result<seq<Byte>, Error>)
      requires file in fs.disk.files
      modifies fs
      ensures fs.disk == old(fs.disk) && fs.torn == old(fs.torn)
      ensures |fs.history| >= |old(fs.history)| && fs.history[..|old(fs.history)|] == old(fs.history)
      ensures forall k | |old(fs.history)| <= k < |fs.history| :: fs.history[k] == fs.disk
      ensures r.Ok? ==> ValidFile(fs.disk.MetadataOf(file)) && |r.value| <= MAX_RECORD_BYTES
      ensures r.Ok? ==> r.value == fs.disk.files[file].content
      ensures r.Err? ==> r.error.PlatformIo? || r.error == ResourceLimit
      ensures fs.answers.Steady() && ValidFile(fs.disk.MetadataOf(file)) ==>
                var content := fs.disk.files[file].content;
                r == if |content| <= MAX_RECORD_BYTES then Ok(content) else Err(ResourceLimit)
    {
      hide ValidFile;
      var stat := fs.Stat(file);
      if stat.Err? {
        return Err(PlatformIo(PlatformOperation.Metadata, stat.error));
      }
      var meta := stat.value;
      if !ValidFile(meta) {
        return Err(PlatformIo(PlatformOperation.Metadata, EPERM));
      }
      if meta.size > MAX_RECORD_BYTES {
        return Err(ResourceLimit);
      }
      var bytes :- ReadContents(file);
      if |bytes| != meta.size {
        return Err(PlatformIo(PlatformOperation.Read, EIO));
      }
      var again := fs.Stat(file);
      if again.Err? {
        return Err(PlatformIo(PlatformOperation.Metadata, again.error));
      }
      return if again.value != meta then Err(PlatformIo(PlatformOperation.Read, EIO)) else Ok(bytes);
    }

    method Load(codec: RecordCodec) returns (r: Result<RecordState, Error>)
      requires fs.disk.Valid()
      modifies fs
      ensures fs.disk == old(fs.disk) && fs.torn == old(fs.torn)
      ensures |fs.history| >= |old(fs.history)| && fs.history[..|old(fs.history)|] == old(fs.history)
      ensures forall k | |old(fs.history)| <= k < |fs.history| :: fs.history[k] == fs.disk
      ensures r.Ok? ==> r == StateOf(fs.disk.Visible(), codec) && RecordIsProtected(fs.disk)
      ensures r.Err? ==> !r.error.StoreDurabilityUnknown?
      ensures fs.answers.Steady() && RecordIsProtected(fs.disk) ==> r == StateOf(fs.disk.Visible(), codec)
    {
      hide ValidFile, DecodeRecord;
      var found := fs.Open(RECORD);
      if found.Err? {
        return if found.error == ENOENT then Ok(NoRecord) else Err(PlatformIo(PlatformOperation.Open, found.error));
      }
      var file := found.value;
      LongRecordsAreRefused(fs.disk.files[file].content, codec);
      var bytes :- ReadProtected(file);
      var target := DecodeRecord(bytes, codec);
      RecordErrorsAreFinal(bytes, codec);
      return if target.Ok? then Ok(Registered(target.value)) else Err(target.error);
    }

    /** Writes the temporary file whole and synchronises it. */
    method FillTemporary(file: FileId, name: string, bytes: seq<Byte>, ghost entry: Disk) returns (r: Result<(), Error>)
      requires Unpublished(entry, fs.disk, file, name) && fs.disk.files[file].content == []
      modifies fs
      ensures fs.torn == old(fs.torn)
      ensures |fs.history| >= |old(fs.history)| && fs.history[..|old(fs.history)|] == old(fs.history)
      ensures AllAtomic(fs.history, |old(fs.history)|, entry, Ok(bytes))
      ensures Unpublished(entry, fs.disk, file, name)
      ensures r.Ok? ==> fs.disk.files[file].synced && fs.disk.files[file].content == bytes
      ensures r.Ok? ==> ValidFile(fs.disk.MetadataOf(file))
      ensures r.Err? ==> r.error.PlatformIo?
      ensures fs.answers.Steady() && ValidFile(old(fs.disk).MetadataOf(file)) ==> r.Ok?
    {
      hide SameRecord, OthersKept, Atomic, MayRecover;
      var stat := fs.Stat(file);
      Untouched(entry, fs.disk, file, name, bytes);
      if stat.Err? {
        return Err(PlatformIo(PlatformOperation.Metadata, stat.error));
      }
      if !ValidFile(stat.value) {
        return Err(PlatformIo(PlatformOperation.Metadata, EPERM));
      }
      var wrote := WriteAll(file, name, bytes, entry);
      if wrote.Err? {
        return wrote;
      }
      OwnFileSynced(entry, fs.disk, file, name);
      var synced := fs.Sync(file);
      Untouched(entry, fs.disk, file, name, bytes);
      if synced.Err? {
        return Err(PlatformIo(Flush, synced.error));
      }
      return Ok(());
    }

    /** Writes all of `bytes`, however few each call takes. */
    method WriteAll(file: FileId, name: string, bytes: seq<Byte>, ghost entry: Disk) returns (r: Result<(), Error>)
      requires Unpublished(entry, fs.disk, file, name) && fs.disk.files[file].content == []
      modifies fs
      ensures fs.torn == old(fs.torn)
      ensures |fs.history| >= |old(fs.history)| && fs.history[..|old(fs.history)|] == old(fs.history)
      ensures AllAtomic(fs.history, |old(fs.history)|, entry, Ok(bytes))
      ensures Unpublished(entry, fs.disk, file, name)
      ensures fs.disk.files[file].attributes == old(fs.disk).files[file].attributes
      ensures r.Ok? ==> fs.disk.files[file].content == bytes
      ensures r.Err? ==> r.error.PlatformIo?
      ensures fs.answers.Steady() ==> r.Ok?
    {
      hide SameRecord, OthersKept, Atomic, MayRecover;
      var written := 0;
      while written < |bytes|
        invariant written <= |bytes| && fs.torn == old(fs.torn)
        invariant Unpublished(entry, fs.disk, file, name)
        invariant fs.disk.files[file].content == bytes[..written]
        invariant fs.disk.files[file].attributes == old(fs.disk).files[file].attributes
        invariant |fs.history| >= |old(fs.history)| && fs.history[..|old(fs.history)|] == old(fs.history)
        invariant AllAtomic(fs.history, |old(fs.history)|, entry, Ok(bytes))
      {
        ghost var before := fs.disk;
        var outcome := fs.Write(file, bytes[written..]);
        ghost var taken :| 0 <= taken <= |bytes| - written
          && fs.disk == before.Append(file, bytes[written..][..taken])
          && (outcome.Ok? && outcome.value <= |bytes| - written ==> outcome.value == taken);
        OwnFileWritten(entry, before, file, name, bytes[written..][..taken]);
        Untouched(entry, fs.disk, file, name, bytes);
        if outcome.Err? {
          return Err(PlatformIo(PlatformOperation.Write, outcome.error));
        }
        var count := outcome.value;
        if count == 0 || count > |bytes| - written {
          return Err(PlatformIo(PlatformOperation.Write, EIO));
        }
        assert bytes[..written] + bytes[written..][..count] == bytes[..written + count];
        written := written + count;
      }
      assert bytes[..written] == bytes;
      return Ok(());
    }

    /** Fills the temporary file and publishes it under the record name. */
    method FillAndPublish(file: FileId, name: string, bytes: seq<Byte>, ghost entry: Disk)
      returns (r: Result<(), Error>)
      requires Unpublished(entry, fs.disk, file, name) && !fs.torn
      requires fs.disk.files[file].content == []
      modifies fs
      ensures |fs.history| >= |old(fs.history)| && fs.history[..|old(fs.history)|] == old(fs.history)
      ensures AllAtomic(fs.history, |old(fs.history)|, entry, Ok(bytes))
      ensures fs.disk.Valid() && file in fs.disk.files
      ensures r.Ok? || fs.torn ==> Published(entry, fs.disk, file, name, bytes)
      ensures r.Err? && !fs.torn ==> Unpublished(entry, fs.disk, file, name)
      ensures r.Ok? ==> !fs.torn && ValidFile(fs.disk.MetadataOf(file))
      ensures r.Err? ==> r.error.PlatformIo?
      ensures fs.answers.Calm() && ValidFile(old(fs.disk).MetadataOf(file)) ==> r.Ok?
      ensures fs.answers.Tearing() && ValidFile(old(fs.disk).MetadataOf(file)) ==> fs.torn
    {
      hide SameRecord, OthersKept, Atomic, MayRecover;
      var filled := FillTemporary(file, name, bytes, entry);
      Untouched(entry, fs.disk, file, name, bytes);
      if filled.Err? {
        return filled;
      }
      ghost var full := fs.disk;
      PublishedWhole(entry, full, file, name, bytes);
      var renamed := fs.RenameToRecord(name);
      if renamed.Err? {
        return Err(PlatformIo(PlatformOperation.Replace, renamed.error));
      }
      return Ok(());
    }

    /** Removes the name only when it still leads to the run's own protected file. */
    method CleanupTemporary(file: FileId, name: string)
      requires fs.disk.Valid() && file in fs.disk.files && name != RECORD
      modifies fs
      ensures fs.torn == old(fs.torn)
      ensures |fs.history| >= |old(fs.history)| && fs.history[..|old(fs.history)|] == old(fs.history)
      ensures forall k | |old(fs.history)| <= k < |fs.history| :: fs.history[k] in {old(fs.disk), fs.disk}
      ensures fs.disk == old(fs.disk)
           || (&& fs.disk == old(fs.disk).Unlink(name) && name in old(fs.disk).names
               && old(fs.disk).names[name] == file && ValidFile(fs.disk.MetadataOf(file)))
      ensures (&& CleanupSucceeds(fs.answers) && name in old(fs.disk).names && old(fs.disk).names[name] == file
               && ValidFile(old(fs.disk).MetadataOf(file))) ==> fs.disk == old(fs.disk).Unlink(name)
    {
      var owned := fs.Stat(file);
      if owned.Err? || !ValidFile(owned.value) {
        return;
      }
      var named := fs.Open(name);
      if named.Err? {
        return;
      }
      var current := fs.Stat(named.value);
      if current.Err? {
        return;
      }
      if ValidFile(current.value) && owned.value.id.inode == current.value.id.inode
         && owned.value.id.device == current.value.id.device
      {
        var _ := fs.Unlink(name);
      }
    }

    /** Creates the temporary file and makes it the record, or cleans it up. */
    method Replace(bytes: seq<Byte>, name: string) returns (r: Result<(), Error>)
      requires fs.disk.Valid() && !fs.torn && name != RECORD
      modifies fs
      ensures |fs.history| >= |old(fs.history)| && fs.history[..|old(fs.history)|] == old(fs.history)
      ensures AllAtomic(fs.history, |old(fs.history)|, old(fs.disk), Ok(bytes))
      ensures fs.disk.Valid() && OthersKept(old(fs.disk), fs.disk, name)
      ensures r.Ok? ==> Final(fs.disk, name, bytes)
      ensures r.Err? && r.error.StoreDurabilityUnknown? ==> Uncertain(old(fs.disk), fs.disk, bytes)
      ensures r.Err? && !r.error.StoreDurabilityUnknown? ==>
                if fs.torn then fs.disk.Visible() == Some(bytes) else SameRecord(old(fs.disk), fs.disk)
      ensures fs.torn ==> r.Err? && r.error.PlatformIo?
      ensures fs.answers.Calm() && name !in old(fs.disk).names ==> r.Ok?
      ensures fs.answers.Tearing() && name !in old(fs.disk).names ==> fs.torn
    {
      hide Atomic, SameRecord, OthersKept, MayRecover, RecordIsProtected, Unpublished, Published, Final, Uncertain;
      hide AllAtomic;
      ghost var entry, was := fs.disk, fs.history;
      StillTheSame(entry, Ok(bytes));
      ghost var answer := fs.answers.created(fs.calls);
      var created := fs.OpenTemporary(name);
      if created.Err? {
        OneMoreAtomic(was, fs.disk, entry, Ok(bytes));
        return Err(PlatformIo(PlatformOperation.Open, created.error));
      }
      var file := created.value;
      TemporaryFileIsApart(entry, name, answer.0, answer.1);
      Untouched(entry, fs.disk, file, name, bytes);
      OneMoreAtomic(was, fs.disk, entry, Ok(bytes));
      ghost var begun := fs.history;
      var result := FillAndPublish(file, name, bytes, entry);
      ghost var filled, full := fs.disk, fs.history;
      MoreAtomic(was, begun, full, entry, Ok(bytes));
      if result.Err? {
        CleanupTemporary(file, name);
        Unlinked(entry, filled, fs.disk, file, name, bytes, fs.torn);
        EachAtomic(full, fs.history, entry, Ok(bytes));
        MoreAtomic(was, full, fs.history, entry, Ok(bytes));
        return Err(result.error);
      }
      var synced := fs.SyncDirectory();
      DirectorySynced(entry, filled, file, name, bytes);
      OneMoreAtomic(full, fs.disk, entry, Ok(bytes));
      MoreAtomic(was, full, fs.history, entry, Ok(bytes));
      return if synced.Err? then Err(StoreDurabilityUnknown(synced.error)) else Ok(());
    }

    method Save(target: TargetRecord, process: nat, sequence: U64, codec: RecordCodec) returns (r: Result<(), Error>)
      requires fs.disk.Valid() && !fs.torn
      modifies fs
      // Atomic at every step, and nothing else in the directory changes.
      ensures |fs.history| >= |old(fs.history)| && fs.history[..|old(fs.history)|] == old(fs.history)
      ensures AllAtomic(fs.history, |old(fs.history)|, old(fs.disk), EncodeRecord(target, codec))
      ensures fs.disk.Valid() && OthersKept(old(fs.disk), fs.disk, TemporaryName(process, sequence))
      // A crash at any step of a save from a settled record leaves the old record or the new one, whole.
      ensures Settled(old(fs.disk)) ==>
                forall k, found | |old(fs.history)| <= k < |fs.history| && MayBeLeft(fs.history[k], found) ::
                  || found == old(fs.disk).Visible()
                  || (EncodeRecord(target, codec).Ok? && found == Some(EncodeRecord(target, codec).value))
      // Ok: the new record is visible, protected and final, and the temporary name is gone.
      ensures r.Ok? ==>
                && EncodeRecord(target, codec).Ok?
                && Final(fs.disk, TemporaryName(process, sequence), EncodeRecord(target, codec).value)
      // Durability unknown: the new record is visible, and a crash may leave it or what could be left before.
      ensures r.Err? && r.error.StoreDurabilityUnknown? ==>
                && EncodeRecord(target, codec).Ok?
                && Uncertain(old(fs.disk), fs.disk, EncodeRecord(target, codec).value)
      // Any other error: the old record, exactly unless the rename took effect and still reported failure.
      ensures r.Err? && !r.error.StoreDurabilityUnknown? ==>
                if fs.torn then EncodeRecord(target, codec).Ok?
                                && fs.disk.Visible() == Some(EncodeRecord(target, codec).value)
                else SameRecord(old(fs.disk), fs.disk)
      ensures fs.torn ==> r.Err? && r.error.PlatformIo?
      // With a fresh name and a readable old record a save succeeds without failing calls, and a rename that
      // takes effect and reports failure is the exception just named.
      ensures (&& RecordIsProtected(old(fs.disk)) && StateOf(old(fs.disk).Visible(), codec).Ok?
               && EncodeRecord(target, codec).Ok? && TemporaryName(process, sequence) !in old(fs.disk).names) ==>
                (fs.answers.Calm() ==> r.Ok?) && (fs.answers.Tearing() ==> fs.torn)
    {
      hide Atomic, SameRecord, OthersKept, EncodeRecord, StateOf, RecordIsProtected, Final, Uncertain, TemporaryName;
      var loaded := Load(codec);
      StillTheSame(fs.disk, EncodeRecord(target, codec));
      ghost var entry, from := old(fs.disk), |old(fs.history)|;
      CrashesLeaveOldOrNew(fs.history, from, entry, EncodeRecord(target, codec));
      if loaded.Err? {
        return Err(loaded.error);
      }
      var encoded := EncodeRecord(target, codec);
      WritingErrorsAreFinal(target, codec);
      if encoded.Err? {
        return Err(encoded.error);
      }
      r := Replace(encoded.value, TemporaryName(process, sequence));
      CrashesLeaveOldOrNew(fs.history, from, entry, EncodeRecord(target, codec));
    }
  }

  /** The record is `bytes`, protected, and certain to survive a crash; the temporary name is gone. */
  ghost predicate Final(d: Disk, name: string, bytes: seq<Byte>) {
    && d.Valid() && RecordIsProtected(d) && d.Visible() == Some(bytes) && name !in d.names
    && forall found :: MayRecover(d, found) <==> found == Some(bytes)
  }

  /** The record is `bytes`, but a crash may still leave what it could leave before. */
  ghost predicate Uncertain(entry: Disk, d: Disk, bytes: seq<Byte>) {
    && entry.Valid() && d.Valid() && d.Visible() == Some(bytes)
    && forall found :: MayRecover(d, found) <==> MayRecover(entry, found) || found == Some(bytes)
  }

  ghost predicate CleanupSucceeds(answers: Answers) {
    forall n: nat :: answers.open(n).Ok? && answers.stat(n).Ok? && answers.unlink(n).Ok?
  }

  // The stages of a save, seen from the disk it started on.

  /** Every name but the record's and the temporary one, and every file there was, are as they were. */
  ghost predicate OthersKept(entry: Disk, d: Disk, name: string) {
    && (forall other | other != RECORD && other != name ::
          (other in d.names <==> other in entry.names)
          && (other in entry.names ==> d.names[other] == entry.names[other]))
    && (forall id <- entry.files :: id in d.files && d.files[id] == entry.files[id])
  }

  /** The run's own file exists under the temporary name only. */
  ghost predicate Unpublished(entry: Disk, d: Disk, file: FileId, name: string) {
    && SameRecord(entry, d) && OthersKept(entry, d, name)
    && name != RECORD && name in d.names && d.names[name] == file
    && file !in entry.files && file in d.files
  }

  /** The run's own file is the record, synced, and the temporary name is gone. */
  ghost predicate Published(entry: Disk, d: Disk, file: FileId, name: string, bytes: seq<Byte>) {
    && Atomic(entry, d, Ok(bytes)) && OthersKept(entry, d, name)
    && name != RECORD && name !in d.names
    && d.Bound() == Some(file) && d.files[file].synced && d.files[file].content == bytes
    && forall found :: MayRecover(d, found) <==> MayRecover(entry, found) || found == Some(bytes)
  }

  lemma StillTheSame(entry: Disk, replacement: Result<seq<Byte>, Error>)
    requires entry.Valid()
    ensures Atomic(entry, entry, replacement) && SameRecord(entry, entry)
    ensures forall name :: OthersKept(entry, entry, name)
  {
  }

  lemma Untouched(entry: Disk, d: Disk, file: FileId, name: string, bytes: seq<Byte>)
    requires Unpublished(entry, d, file, name)
    ensures Atomic(entry, d, Ok(bytes)) && d.Valid()
  {
    SameRecordIsAtomic(entry, d, Ok(bytes));
  }

  lemma OwnFileWritten(entry: Disk, d: Disk, file: FileId, name: string, bytes: seq<Byte>)
    requires Unpublished(entry, d, file, name)
    ensures Unpublished(entry, d.Append(file, bytes), file, name)
  {
  }

  lemma OwnFileSynced(entry: Disk, d: Disk, file: FileId, name: string)
    requires Unpublished(entry, d, file, name)
    ensures Unpublished(entry, d.SyncFile(file), file, name)
  {
  }

  lemma PublishedWhole(entry: Disk, full: Disk, file: FileId, name: string, bytes: seq<Byte>)
    requires Unpublished(entry, full, file, name)
    requires full.files[file].synced && full.files[file].content == bytes
    ensures full.Publish(name).Valid() && file in full.Publish(name).files
    ensures Published(entry, full.Publish(name), file, name, bytes)
  {
    SameRecordIsAtomic(entry, full, Ok(bytes));
    PublishingAddsOneOutcome(full, name);
    hide MayRecover, SameRecord;
  }

  lemma Unlinked(entry: Disk, filled: Disk, d: Disk, file: FileId, name: string, bytes: seq<Byte>, torn: bool)
    requires if torn then Published(entry, filled, file, name, bytes) else Unpublished(entry, filled, file, name)
    requires d == filled || d == filled.Unlink(name)
    ensures Atomic(entry, filled, Ok(bytes)) && Atomic(entry, d, Ok(bytes)) && OthersKept(entry, d, name)
    ensures if torn then d.Visible() == Some(bytes) else SameRecord(entry, d)
  {
    assert SameRecord(filled, d);
    SameRecordIsAtomic(filled, d, Ok(bytes));
    if !torn {
      SameRecordIsAtomic(entry, d, Ok(bytes));
    }
  }

  lemma DirectorySynced(entry: Disk, filled: Disk, file: FileId, name: string, bytes: seq<Byte>)
    requires Published(entry, filled, file, name, bytes)
    ensures filled.Valid() && Uncertain(entry, filled, bytes) && OthersKept(entry, filled, name)
    ensures Atomic(entry, filled, Ok(bytes))
    ensures filled.SyncDirectory().Valid() && Atomic(entry, filled.SyncDirectory(), Ok(bytes))
    ensures OthersKept(entry, filled.SyncDirectory(), name)
    ensures ValidFile(filled.MetadataOf(file)) ==> Final(filled.SyncDirectory(), name, bytes)
  {
    SyncedDirectoryIsFinal(filled);
    hide MayRecover;
  }

  /** After a successful save the next load gives the saved target back, unless a call fails. */
  method SaveThenLoad(store: LockedStore, target: TargetRecord, process: nat, sequence: U64, codec: RecordCodec)
    returns (saved: Result<(), Error>, loaded: Result<RecordState, Error>)
    requires store.fs.disk.Valid() && !store.fs.torn && codec.Lawful()
    modifies store.fs
    ensures saved.Ok? && loaded.Ok? ==> loaded == Ok(Registered(target))
    ensures saved.Ok? && store.fs.answers.Calm() ==> loaded == Ok(Registered(target))
  {
    saved := store.Save(target, process, sequence, codec);
    if saved.Ok? {
      RecordRoundTrip(target, codec);
    }
    loaded := store.Load(codec);
  }

  /** The exception: a save on an empty disk that reports failure and has the new record in place. */
  method SaveTorn(target: TargetRecord, process: nat, sequence: U64, codec: RecordCodec)
    returns (fs: Filesystem, saved: Result<(), Error>)
    requires EncodeRecord(target, codec).Ok?
    ensures saved.Err? && saved.error.PlatformIo?
    ensures fs.disk.Valid() && fs.disk.Visible() == Some(EncodeRecord(target, codec).value)
  {
    hide EncodeRecord, TemporaryName;
    var answers := Answers(
      _ => Ok(()), _ => (0, Attributes(0, 0, 0x8180, 1)), _ => Ok(()), _ => Gives(0), _ => Takes(1), _ => Ok(()),
      _ => RenameTears(EIO), _ => Ok(()));
    fs := new Filesystem(answers, Disk(map[], map[], {None}, 0));
    var store := new LockedStore(fs);
    saved := store.Save(target, process, sequence, codec);
  }

  // Taking the store.

  /** How the walk to the protected directory turns out, one entry a component, and then the lock file. */
  datatype Walk = Walk(
    root: Result<(), I32>, rootStat: Result<Stat, I32>,
    opens: nat -> Result<(), I32>, stats: nat -> Result<Stat, I32>,
    lockFile: Result<(), I32>, lockStat: Result<Stat, I32>, lock: Result<(), I32>)
  {
    predicate ReachesComponents(count: nat) {
      && root.Ok? && rootStat.Ok? && ValidDirectory(rootStat.value, false)
      && forall i: nat | i < count :: opens(i).Ok? && stats(i).Ok? && ValidDirectory(stats(i).value, i == 2)
    }

    predicate ReachesLock() {
      ReachesComponents(3) && lockFile.Ok? && lockStat.Ok? && ValidFile(lockStat.value)
    }
  }

  /** The store is taken exactly over validated directories, a validated lock file and a lock nobody holds. */
  method Acquire(walk: Walk) returns (r: Result<(), Error>)
    ensures r.Ok? <==> walk.ReachesLock() && walk.lock.Ok?
    ensures r == Err(Error.Busy) <==> walk.ReachesLock() && walk.lock == Err(EWOULDBLOCK)
    ensures r.Err? ==> r.error.Busy? || r.error.PlatformIo?
  {
    if walk.root.Err? {
      return Err(PlatformIo(PlatformOperation.Open, walk.root.error));
    }
    if walk.rootStat.Err? {
      return Err(PlatformIo(PlatformOperation.Metadata, walk.rootStat.error));
    }
    if !ValidDirectory(walk.rootStat.value, false) {
      return Err(PlatformIo(PlatformOperation.Metadata, EPERM));
    }
    var components := ["var", "lib", "boothop"];
    for i := 0 to |components|
      invariant walk.ReachesComponents(i)
    {
      if walk.opens(i).Err? {
        return Err(PlatformIo(PlatformOperation.Open, walk.opens(i).error));
      }
      if walk.stats(i).Err? {
        return Err(PlatformIo(PlatformOperation.Metadata, walk.stats(i).error));
      }
      if !ValidDirectory(walk.stats(i).value, i == |components| - 1) {
        return Err(PlatformIo(PlatformOperation.Metadata, EPERM));
      }
    }
    if walk.lockFile.Err? {
      return Err(PlatformIo(PlatformOperation.Open, walk.lockFile.error));
    }
    if walk.lockStat.Err? {
      return Err(PlatformIo(PlatformOperation.Metadata, walk.lockStat.error));
    }
    if !ValidFile(walk.lockStat.value) {
      return Err(PlatformIo(PlatformOperation.Metadata, EPERM));
    }
    if walk.lock.Err? {
      return Err(if walk.lock.error == EWOULDBLOCK then Error.Busy
                 else PlatformIo(PlatformOperation.Lock, walk.lock.error));
    }
    return Ok(());
  }
}
