/** Reading the boot entries: bounded firmware reads, ordered deduplication and names, on both systems. */
module Enumerations {
  import opened Results
  import opened Bytes
  import opened Model
  import LoadOptions
  import Flow

  const IDS := 0x1_0000
  const INITIAL_BUFFER := 4096
  const MAX_VARIABLE := 1_048_576
  const MAX_INVENTORY := 1_048_576
  const BOOT_ATTRIBUTES: U32 := 7
  const CURRENT_ATTRIBUTES: U32 := 6

  // The boot order and what is to be made of it.

  /** The ids in order, later repeats removed. */
  function Dedup(order: seq<BootId>): seq<BootId> {
    if order == [] then []
    else
      var earlier, last := order[..|order| - 1], order[|order| - 1];
      Dedup(earlier) + if last in earlier then [] else [last]
  }

  /** The repeated ids, each where it stands for the second time. */
  function Repeats(order: seq<BootId>): seq<BootId> {
    if order == [] then []
    else
      var earlier, last := order[..|order| - 1], order[|order| - 1];
      Repeats(earlier) + if multiset(earlier)[last] == 1 then [last] else []
  }

  function Diagnostics(ids: seq<BootId>): seq<EnumerationDiagnostic> {
    seq(|ids|, i requires 0 <= i < |ids| => DuplicateBootOrder(ids[i]))
  }

  /** Where an id stands for the first time. */
  function First(order: seq<BootId>, id: BootId): (k: nat)
    requires id in order
    ensures k < |order| && order[k] == id && id !in order[..k]
  {
    var earlier := order[..|order| - 1];
    if id in earlier then
      var k := First(earlier, id);
      assert earlier[..k] == order[..k];
      k
    else |order| - 1
  }

  /** Where an id stands for the second time. */
  function Second(order: seq<BootId>, id: BootId): (k: nat)
    requires multiset(order)[id] >= 2
    ensures k < |order| && order[k] == id && multiset(order[..k])[id] == 1
  {
    var earlier := order[..|order| - 1];
    assert order == earlier + [order[|order| - 1]];
    if multiset(earlier)[id] >= 2 then
      var k := Second(earlier, id);
      assert earlier[..k] == order[..k];
      k
    else |order| - 1
  }

  predicate Distinct(ids: seq<BootId>) {
    forall i, j | 0 <= i < j < |ids| :: ids[i] != ids[j]
  }

  /** Deduplication keeps exactly the ids of the order, once each, by first occurrence. */
  lemma {:induction false} DedupMeans(order: seq<BootId>)
    ensures Distinct(Dedup(order))
    ensures forall id :: id in Dedup(order) <==> id in order
    ensures forall i, j | 0 <= i < j < |Dedup(order)| :: First(order, Dedup(order)[i]) < First(order, Dedup(order)[j])
  {
    if order != [] {
      var earlier, last := order[..|order| - 1], order[|order| - 1];
      DedupMeans(earlier);
      assert order == earlier + [last];
      forall id | id in earlier ensures First(order, id) == First(earlier, id) {}
      var ids, fewer := Dedup(order), Dedup(earlier);
      forall i, j | 0 <= i < j < |ids| ensures First(order, ids[i]) < First(order, ids[j]) {
        assert fewer[i] in earlier;
        if j < |fewer| {
          assert fewer[j] in earlier;
        }
      }
    }
  }

  /** The diagnostics name exactly the repeated ids, once each, by second occurrence. */
  lemma {:induction false} RepeatsMeans(order: seq<BootId>)
    ensures Distinct(Repeats(order))
    ensures forall id :: id in Repeats(order) <==> multiset(order)[id] >= 2
    ensures forall i, j | 0 <= i < j < |Repeats(order)| ::
              Second(order, Repeats(order)[i]) < Second(order, Repeats(order)[j])
  {
    if order != [] {
      var earlier, last := order[..|order| - 1], order[|order| - 1];
      RepeatsMeans(earlier);
      assert order == earlier + [last];
      var ids, fewer := Repeats(order), Repeats(earlier);
      forall id | multiset(earlier)[id] >= 2 ensures Second(order, id) == Second(earlier, id) {}
      forall i, j | 0 <= i < j < |ids| ensures Second(order, ids[i]) < Second(order, ids[j]) {
        assert fewer[i] in fewer;
        if j < |fewer| {
          assert fewer[j] in fewer;
        }
      }
    }
  }

  lemma NothingTallied()
    ensures Dedup([]) == [] && Diagnostics(Repeats([])) == []
  {
  }

  lemma TallyStep(earlier: seq<BootId>, id: BootId)
    ensures Dedup(earlier + [id]) == Dedup(earlier) + if id in earlier then [] else [id]
    ensures Repeats(earlier + [id]) == Repeats(earlier) + if multiset(earlier)[id] == 1 then [id] else []
    ensures multiset(earlier + [id]) == multiset(earlier) + multiset{id}
    ensures id in earlier <==> multiset(earlier)[id] >= 1
  {
    assert (earlier + [id])[..|earlier|] == earlier;
  }

  lemma OneMoreDiagnostic(ids: seq<BootId>, id: BootId)
    ensures Diagnostics(ids + [id]) == Diagnostics(ids) + [DuplicateBootOrder(id)]
  {
  }

  /** Goes over the order once with two bit sets. */
  method TallyOrder(order: seq<BootId>)
    returns (ids: seq<BootId>, diagnostics: seq<EnumerationDiagnostic>, referenced: array<bool>)
    ensures ids == Dedup(order) && diagnostics == Diagnostics(Repeats(order))
    ensures fresh(referenced) && referenced.Length == IDS
    ensures forall id: BootId :: referenced[id] <==> id in order
  {
    hide Dedup, Repeats, Diagnostics;
    assert Dedup(order[..0]) == [] && Diagnostics(Repeats(order[..0])) == [] by {
      NothingTallied();
    }
    referenced := new bool[IDS](_ => false);
    var duplicate := new bool[IDS](_ => false);
    ids, diagnostics := [], [];
    for i := 0 to |order|
      invariant ids == Dedup(order[..i]) && diagnostics == Diagnostics(Repeats(order[..i]))
      invariant forall id: BootId :: referenced[id] <==> id in order[..i]
      invariant forall id: BootId :: duplicate[id] <==> multiset(order[..i])[id] >= 2
    {
      var id := order[i];
      assert order[..i + 1] == order[..i] + [id];
      TallyStep(order[..i], id);
      OneMoreDiagnostic(Repeats(order[..i]), id);
      assert Repeats(order[..i]) + [] == Repeats(order[..i]) && Dedup(order[..i]) + [] == Dedup(order[..i]);
      if referenced[id] && !duplicate[id] {
        diagnostics := diagnostics + [DuplicateBootOrder(id)];
        duplicate[id] := true;
      }
      if !referenced[id] {
        referenced[id] := true;
        ids := ids + [id];
      }
    }
    assert order[..|order|] == order;
  }

  // Windows: native reads into a growing buffer.

  datatype Variable = BootOrder | BootCurrent | BootNext | Boot(id: BootId)

  datatype ReadStatus = Success | Absent | Failure

  datatype ReadOutcome = ReadOutcome(
    status: ReadStatus, bytes: seq<Byte>, bytesReturned: nat, lastError: I32, attributes: U32,
    tooSmall: bool, requiredSize: nat)

  datatype ReadFailure = VariableMissing(outcome: ReadOutcome) | VariableFailed(outcome: ReadOutcome) | OverLimit

  function MapFailure(failure: ReadFailure): Error {
    match failure
    case VariableMissing(_) => TargetMissing
    case VariableFailed(outcome) => FirmwareReadFailed(outcome.lastError)
    case OverLimit => ResourceLimit
  }

  type BoundedRead = (Variable, seq<Byte>)

  /** What successful reads are charged: their bytes and the attributes. */
  function Charge(fetched: seq<BoundedRead>): nat {
    if fetched == [] then 0 else Charge(fetched[..|fetched| - 1]) + |fetched[|fetched| - 1].1| + 4
  }

  predicate Ascending(sizes: seq<nat>) {
    forall i, j | 0 <= i < j < |sizes| :: sizes[i] < sizes[j]
  }

  lemma AscendingExtends(sizes: seq<nat>, a: nat, b: nat)
    requires Ascending(sizes + [a]) && a < b
    ensures Ascending(sizes + [a] + [b])
  {
    var longer := sizes + [a] + [b];
    forall i, j | 0 <= i < j < |longer| ensures longer[i] < longer[j] {
      assert j < |sizes + [a]| ==> longer[j] == (sizes + [a])[j];
      assert longer[i] == (sizes + [a])[i] && (sizes + [a])[|sizes|] == a;
    }
  }

  /** The native boundary: any outcome for any call. */
  class Firmware {
    const answer: (Variable, nat, nat) -> ReadOutcome
    var calls: nat
    ghost var fetched: seq<BoundedRead>
    ghost var sizes: seq<nat>

    constructor (answer: (Variable, nat, nat) -> ReadOutcome)
      ensures this.answer == answer && calls == 0 && fetched == [] && sizes == []
    {
      this.answer := answer;
      calls, fetched, sizes := 0, [], [];
    }

    method Read(variable: Variable, size: nat) returns (outcome: ReadOutcome)
      requires 0 < size <= MAX_VARIABLE
      modifies this`calls, this`sizes
      ensures outcome == answer(variable, size, old(calls)) && calls == old(calls) + 1
      ensures sizes == old(sizes) + [size]
    {
      outcome := answer(variable, size, calls);
      calls, sizes := calls + 1, sizes + [size];
    }

    /** Asks with growing buffers; `total` is charged on success only and stays within one MiB. */
    method ReadBounded(variable: Variable, total: nat) returns (r: Result<ReadOutcome, ReadFailure>, total': nat)
      requires total == Charge(fetched) <= MAX_INVENTORY
      modifies this
      ensures total' == Charge(fetched) <= MAX_INVENTORY
      ensures r.Ok? ==> fetched == old(fetched) + [(variable, r.value.bytes)] && Given(answer, variable, r.value)
      ensures r.Err? ==> fetched == old(fetched)
      ensures |old(sizes)| < |sizes| && sizes[|old(sizes)|] == INITIAL_BUFFER && Ascending(sizes[|old(sizes)|..])
      ensures Holds(answer, variable) && |Content(answer, variable)| + 4 <= MAX_INVENTORY - total ==>
                r.Ok? && r.value.bytes == Content(answer, variable)
    {
      total' := total;
      var size := INITIAL_BUFFER;
      while true
        invariant INITIAL_BUFFER <= size <= MAX_VARIABLE && total' == total && fetched == old(fetched)
        invariant |old(sizes)| <= |sizes| && sizes[..|old(sizes)|] == old(sizes)
        invariant Ascending(sizes[|old(sizes)|..] + [size])
        invariant (sizes[|old(sizes)|..] + [size])[0] == INITIAL_BUFFER
        decreases MAX_VARIABLE - size
      {
        ghost var asked := sizes[|old(sizes)|..];
        var outcome := Read(variable, size);
        assert sizes[|old(sizes)|..] == asked + [size];
        if outcome.tooSmall {
          if outcome.requiredSize <= size || outcome.requiredSize > MAX_VARIABLE {
            return Err(OverLimit), total';
          }
          AscendingExtends(asked, size, outcome.requiredSize);
          size := outcome.requiredSize;
        } else {
          match outcome.status {
            case Success =>
              if outcome.bytesReturned != |outcome.bytes| || outcome.bytesReturned > size {
                return Err(OverLimit), total';
              }
              var charged := |outcome.bytes| + 4;
              if charged > MAX_VARIABLE || total + charged > MAX_INVENTORY {
                return Err(OverLimit), total';
              }
              total' := total + charged;
              fetched := fetched + [(variable, outcome.bytes)];
              assert fetched[..|fetched| - 1] == old(fetched);
              return Ok(outcome), total';
            case Absent => return Err(VariableMissing(outcome)), total';
            case Failure => return Err(VariableFailed(outcome)), total';
          }
        }
      }
    }

    /** Reads one variable whole and takes its payload. */
    method ReadPayload(variable: Variable, attributes: U32, total: nat)
      returns (r: Result<seq<Byte>, Error>, total': nat)
      requires total == Charge(fetched) <= MAX_INVENTORY
      modifies this
      ensures total' == Charge(fetched) <= MAX_INVENTORY
      ensures r.Ok? ==> fetched == old(fetched) + [(variable, r.value)]
      ensures r.Ok? && attributes == AttributesOf(variable) && AllGiven(answer, old(fetched)) ==>
                AllGiven(answer, fetched)
    {
      var read: Result<ReadOutcome, ReadFailure>;
      read, total' := ReadBounded(variable, total);
      r := if read.Err? then Err(MapFailure(read.error)) else Payload(read.value, attributes);
    }

    method ReadOptions() returns (r: Result<OptionInventory, Error>)
      requires fetched == []
      modifies this
      ensures Charge(fetched) <= MAX_INVENTORY
      ensures r.Ok? ==> Enumerated(r.value, fetched) && AllGiven(answer, fetched)
    {
      assert Charge(fetched) == 0;
      assert AllGiven(answer, fetched);
      hide Charge, Dedup, Repeats, Diagnostics, Units, LoadOptions.ParseLoadOption, AllGiven;
      var orderPayload, total := ReadPayload(BootOrder, BOOT_ATTRIBUTES, 0);
      if orderPayload.Err? {
        return Err(orderPayload.error);
      }
      if orderPayload.value == [] || |orderPayload.value| % 2 != 0 {
        return Err(UnsupportedFormat);
      }
      var order := Units(orderPayload.value);
      var ids, diagnostics, referenced := TallyOrder(order);
      var currentPayload: Result<seq<Byte>, Error>;
      currentPayload, total := ReadPayload(BootCurrent, CURRENT_ATTRIBUTES, total);
      if currentPayload.Err? {
        return Err(currentPayload.error);
      }
      if |currentPayload.value| != 2 {
        return Err(UnsupportedFormat);
      }
      var current := U16Of(currentPayload.value);
      if !referenced[current] {
        ids := ids + [current];
      }
      assert ids == WindowsIds(order, current);
      var entries := ReadEntries(ids, total);
      return if entries.Err? then Err(entries.error) else Ok(OptionInventory(entries.value, diagnostics));
    }

    method ReadEntries(ids: seq<BootId>, total: nat) returns (r: Result<seq<(BootId, LoadOption)>, Error>)
      requires total == Charge(fetched) <= MAX_INVENTORY
      modifies this
      ensures Charge(fetched) <= MAX_INVENTORY
      ensures r.Ok? ==>
                && |r.value| == |ids| && |fetched| == |old(fetched)| + |ids|
                && fetched[..|old(fetched)|] == old(fetched)
                && (AllGiven(answer, old(fetched)) ==> AllGiven(answer, fetched))
                && forall k | 0 <= k < |ids| :: EntryRead(r.value[k], ids[k], fetched[|old(fetched)| + k])
    {
      hide Charge, LoadOptions.ParseLoadOption, AllGiven;
      var sum := total;
      var entries: seq<(BootId, LoadOption)> := [];
      for i := 0 to |ids|
        invariant sum == Charge(fetched) <= MAX_INVENTORY
        invariant |entries| == i && |fetched| == |old(fetched)| + i && fetched[..|old(fetched)|] == old(fetched)
        invariant AllGiven(answer, old(fetched)) ==> AllGiven(answer, fetched)
        invariant forall k | 0 <= k < i :: EntryRead(entries[k], ids[k], fetched[|old(fetched)| + k])
      {
        var bytes: Result<seq<Byte>, Error>;
        bytes, sum := ReadPayload(Boot(ids[i]), BOOT_ATTRIBUTES, sum);
        if bytes.Err? {
          return Err(bytes.error);
        }
        var option := LoadOptions.ParseLoadOption(bytes.value);
        if option.Err? {
          return Err(option.error);
        }
        entries := entries + [(ids[i], option.value)];
      }
      return Ok(entries);
    }
  }

  function Payload(outcome: ReadOutcome, attributes: U32): Result<seq<Byte>, Error> {
    if outcome.attributes != attributes then Err(UnsupportedFormat) else Ok(outcome.bytes)
  }

  /** The firmware's own successful answer for this variable, given to some call. */
  ghost predicate Given(answer: (Variable, nat, nat) -> ReadOutcome, variable: Variable, outcome: ReadOutcome) {
    exists size: nat, call: nat :: answer(variable, size, call) == outcome && outcome.status.Success?
  }

  /** A read holds the payload of such an answer, with the attributes its variable must have. */
  ghost predicate IsGiven(answer: (Variable, nat, nat) -> ReadOutcome, read: BoundedRead) {
    exists outcome :: Given(answer, read.0, outcome) && Payload(outcome, AttributesOf(read.0)) == Ok(read.1)
  }

  function AttributesOf(variable: Variable): U32 {
    if variable.BootCurrent? then CURRENT_ATTRIBUTES else BOOT_ATTRIBUTES
  }

  ghost predicate AllGiven(answer: (Variable, nat, nat) -> ReadOutcome, fetched: seq<BoundedRead>) {
    forall k | 0 <= k < |fetched| :: IsGiven(answer, fetched[k])
  }

  function WindowsIds(order: seq<BootId>, current: BootId): seq<BootId> {
    Dedup(order) + if current in order then [] else [current]
  }

  predicate EntryRead(entry: (BootId, LoadOption), id: BootId, read: BoundedRead) {
    entry.0 == id && read.0 == Boot(id) && LoadOptions.ParseLoadOption(read.1) == Ok(entry.1)
  }

  /** The inventory is exactly what the reads say: the order, the current id, then one option an id. */
  ghost predicate Enumerated(inventory: OptionInventory, fetched: seq<BoundedRead>) {
    && |fetched| >= 2 && fetched[0].0 == BootOrder && fetched[1].0 == BootCurrent
    && |fetched[0].1| % 2 == 0 && fetched[0].1 != [] && |fetched[1].1| == 2
    && var ids := WindowsIds(Units(fetched[0].1), U16Of(fetched[1].1));
       && |inventory.entries| == |ids| == |fetched| - 2
       && (forall k | 0 <= k < |ids| :: EntryRead(inventory.entries[k], ids[k], fetched[k + 2]))
       && inventory.diagnostics == Diagnostics(Repeats(Units(fetched[0].1)))
  }

  /** The firmware holds the variable and reports sizes faithfully. */
  ghost predicate Holds(answer: (Variable, nat, nat) -> ReadOutcome, variable: Variable) {
    forall size: nat, call: nat ::
      var outcome := answer(variable, size, call);
      if size < |Content(answer, variable)| then
        outcome.tooSmall && outcome.requiredSize == |Content(answer, variable)|
      else
        && !outcome.tooSmall && outcome.status.Success?
        && outcome.bytes == Content(answer, variable) && outcome.bytesReturned == |outcome.bytes|
  }

  /** What the firmware gives to a caller with room enough. */
  function Content(answer: (Variable, nat, nat) -> ReadOutcome, variable: Variable): seq<Byte> {
    answer(variable, MAX_VARIABLE, 0).bytes
  }

  /** An enumerated inventory has no id twice, so the transaction's duplicate check cannot fire on it. */
  lemma EnumeratedIsDistinct(inventory: OptionInventory, fetched: seq<BoundedRead>)
    requires Enumerated(inventory, fetched)
    ensures !Flow.HasDuplicate(inventory.entries)
  {
    var order, current := Units(fetched[0].1), U16Of(fetched[1].1);
    var ids := WindowsIds(order, current);
    DedupMeans(order);
    assert forall k | 0 <= k < |ids| :: EntryRead(inventory.entries[k], ids[k], fetched[k + 2]);
    forall i, j | 0 <= i < j < |inventory.entries| ensures inventory.entries[i].0 != inventory.entries[j].0 {
      assert EntryRead(inventory.entries[i], ids[i], fetched[i + 2]);
      assert EntryRead(inventory.entries[j], ids[j], fetched[j + 2]);
      assert Dedup(order)[i] in order;
    }
  }

  // Linux: variable files and their names.

  const MAX_RAW := 1_048_580
  const READ_BUFFER := 8192
  const READ_SECONDS := 30
  const EFIVARFS := 0xde5e81e4
  const GUID := "8be4df61-93ca-11d2-aa0d-00e098032b8c"

  function Ascii(text: string): (bytes: seq<Byte>)
    ensures |bytes| == |text|
  {
    seq(|text|, i requires 0 <= i < |text| => if text[i] < 128 as char then text[i] as int else '?' as int)
  }

  function UpperDigit(nibble: nat): Byte
    requires nibble < 16
  {
    if nibble < 10 then 0x30 + nibble else 0x41 + (nibble - 10)
  }

  function DecodeUpper(digit: Byte): (r: Option<nat>)
    ensures r.Some? ==> r.value < 16 && UpperDigit(r.value) == digit
    ensures r.None? ==> forall nibble: nat | nibble < 16 :: UpperDigit(nibble) != digit
  {
    if 0x30 <= digit <= 0x39 then Some(digit - 0x30)
    else if 0x41 <= digit <= 0x46 then Some(digit - 0x41 + 10)
    else None
  }

  /** The file name of a boot entry. */
  function BootName(id: BootId): (name: seq<Byte>)
    ensures |name| == 45
  {
    Ascii("Boot")
    + [UpperDigit(id / 4096), UpperDigit(id / 256 % 16), UpperDigit(id / 16 % 16), UpperDigit(id % 16)]
    + Ascii("-") + Ascii(GUID)
  }

  /** The value of upper-case hexadecimal digits. */
  function UpperValue(digits: seq<Byte>): (r: Option<nat>)
    ensures r.Some? && |digits| <= 4 ==> r.value < IDS
    ensures r.Some? && |digits| <= 3 ==> r.value < 4096
    ensures r.Some? && |digits| <= 2 ==> r.value < 256
    ensures r.Some? && |digits| <= 1 ==> r.value < 16
  {
    if digits == [] then Some(0)
    else
      var front, last := UpperValue(digits[..|digits| - 1]), DecodeUpper(digits[|digits| - 1]);
      if front.None? || last.None? then None else Some(front.value * 16 + last.value)
  }

  function BootIdOf(name: seq<Byte>): Option<BootId> {
    if |name| != 45 || name[..4] != Ascii("Boot") || name[8..9] != Ascii("-") || name[9..] != Ascii(GUID) then None
    else UpperValue(name[4..8])
  }

  /** A name is taken for an entry exactly when it is that entry's name. */
  lemma BootNameIff(name: seq<Byte>, id: BootId)
    ensures BootIdOf(name) == Some(id) <==> name == BootName(id)
  {
    hide Ascii;
    var digits := [UpperDigit(id / 4096), UpperDigit(id / 256 % 16), UpperDigit(id / 16 % 16), UpperDigit(id % 16)];
    if name == BootName(id) {
      assert name[..4] == Ascii("Boot") && name[4..8] == digits && name[8..9] == Ascii("-") && name[9..] == Ascii(GUID);
      DigitsIff(digits, id);
    }
    if BootIdOf(name) == Some(id) {
      DigitsIff(name[4..8], id);
      assert name == name[..4] + name[4..8] + name[8..9] + name[9..];
    }
  }

  lemma DigitsIff(digits: seq<Byte>, id: BootId)
    requires |digits| == 4
    ensures UpperValue(digits) == Some(id)
       <==> digits == [UpperDigit(id / 4096), UpperDigit(id / 256 % 16), UpperDigit(id / 16 % 16), UpperDigit(id % 16)]
  {
    hide UpperValue, DecodeUpper, UpperDigit;
    FourSteps(digits);
    DecodeIff(digits[0], id / 4096);
    DecodeIff(digits[1], id / 256 % 16);
    DecodeIff(digits[2], id / 16 % 16);
    DecodeIff(digits[3], id % 16);
    assert digits == [digits[0], digits[1], digits[2], digits[3]];
    var a, b, c, d := DecodeUpper(digits[0]), DecodeUpper(digits[1]), DecodeUpper(digits[2]), DecodeUpper(digits[3]);
    if a.Some? && b.Some? && c.Some? && d.Some? {
      FourDigits(a.value, b.value, c.value, d.value, id);
    }
  }

  lemma FourSteps(digits: seq<Byte>)
    requires |digits| == 4
    ensures var a, b := DecodeUpper(digits[0]), DecodeUpper(digits[1]);
            var c, d := DecodeUpper(digits[2]), DecodeUpper(digits[3]);
            UpperValue(digits)
              == if a.None? || b.None? || c.None? || d.None? then None
                 else Some(((a.value * 16 + b.value) * 16 + c.value) * 16 + d.value)
  {
    hide UpperValue, DecodeUpper;
    assert digits[..3][..2] == digits[..2] && digits[..2][..1] == digits[..1] && digits[..1][..0] == [];
    UpperStep(digits[..1]);
    UpperStep(digits[..2]);
    UpperStep(digits[..3]);
    UpperStep(digits);
  }

  lemma DecodeIff(digit: Byte, nibble: nat)
    requires nibble < 16
    ensures DecodeUpper(digit) == Some(nibble) <==> digit == UpperDigit(nibble)
  {
  }

  lemma FourDigits(a: nat, b: nat, c: nat, d: nat, id: BootId)
    requires a < 16 && b < 16 && c < 16 && d < 16
    ensures ((a * 16 + b) * 16 + c) * 16 + d == id
       <==> a == id / 4096 && b == id / 256 % 16 && c == id / 16 % 16 && d == id % 16
  {
    var upper := id / 16;
    assert upper / 16 == id / 256 && id / 256 / 16 == id / 4096;
    assert id == upper * 16 + id % 16 && upper == id / 256 * 16 + upper % 16;
    assert id / 256 == id / 4096 * 16 + id / 256 % 16;
  }

  lemma UpperStep(digits: seq<Byte>)
    requires digits != []
    ensures var front, last := UpperValue(digits[..|digits| - 1]), DecodeUpper(digits[|digits| - 1]);
            UpperValue(digits) == if front.None? || last.None? then None else Some(front.value * 16 + last.value)
    ensures UpperValue([]) == Some(0)
  {
    hide DecodeUpper;
  }

  method BootIdLoop(name: seq<Byte>) returns (r: Option<BootId>)
    ensures r == BootIdOf(name)
  {
    if |name| != 45 || name[..4] != Ascii("Boot") || name[8..9] != Ascii("-") || name[9..] != Ascii(GUID) {
      return None;
    }
    var digits := name[4..8];
    var id := 0;
    for i := 0 to 4
      invariant UpperValue(digits[..i]) == Some(id)
    {
      assert digits[..i + 1][..i] == digits[..i];
      var digit := DecodeUpper(digits[i]);
      if digit.None? {
        UndecodableDigit(digits, i);
        return None;
      }
      id := id * 16 + digit.value;
    }
    assert digits[..4] == digits;
    return Some(id);
  }

  lemma {:induction false} UndecodableDigit(digits: seq<Byte>, i: nat)
    requires i < |digits| && DecodeUpper(digits[i]).None?
    ensures UpperValue(digits).None?
  {
    if i < |digits| - 1 {
      UndecodableDigit(digits[..|digits| - 1], i);
    }
  }

  datatype VariableStat = VariableStat(mode: bv32, filesystem: nat, readonly: bool, size: nat, stamp: nat)

  function ValidateVariable(stat: VariableStat): Result<(), Error> {
    if stat.mode & 0xF000 != 0x8000 then Err(PlatformIo(PlatformOperation.Metadata, 1))
    else if stat.filesystem != EFIVARFS then Err(PlatformIo(PlatformOperation.Metadata, 19))
    else if stat.readonly then Err(PlatformIo(PlatformOperation.Metadata, 30))
    else Ok(())
  }

  type FileName = seq<Byte>

  /** The file that holds a variable. */
  function NameOf(variable: Variable): FileName {
    match variable
    case BootOrder => Ascii("BootOrder") + Ascii("-") + Ascii(GUID)
    case BootCurrent => Ascii("BootCurrent") + Ascii("-") + Ascii(GUID)
    case BootNext => Ascii("BootNext") + Ascii("-") + Ascii(GUID)
    case Boot(id) => BootName(id)
  }

  /** An open file, by the name it was opened under. */
  datatype Handle = Handle(name: FileName)

  /** The answers of the file system, by file and by the number of calls made before. */
  datatype LinuxAnswers = LinuxAnswers(
    open: (FileName, nat) -> Result<(), I32>,
    stat: (FileName, nat) -> Result<VariableStat, I32>,
    read: (FileName, nat) -> Result<seq<Byte>, I32>,
    directory: nat -> Result<VariableStat, I32>,
    clock: nat -> nat,
    names: nat -> Result<seq<FileName>, Error>)

  /** What consecutive reads of one file gave, put together. */
  function Joined(answers: LinuxAnswers, name: FileName, i: nat, k: nat): seq<Byte>
    requires i <= k
    decreases k - i
  {
    if i == k then []
    else
      Joined(answers, name, i, k - 1)
      + if answers.read(name, k - 1).Ok? then answers.read(name, k - 1).value else []
  }

  lemma JoinedNone(answers: LinuxAnswers, name: FileName, i: nat)
    ensures Joined(answers, name, i, i) == []
  {
  }

  lemma JoinedStep(answers: LinuxAnswers, name: FileName, i: nat, k: nat)
    requires i <= k && answers.read(name, k).Ok?
    ensures Joined(answers, name, i, k + 1) == Joined(answers, name, i, k) + answers.read(name, k).value
  {
  }

  /**
   * `bytes` are the whole of the file opened under `name` at call `i`: all it gave up to its end, of the
   * size it had before, after, and once more under its name.
   */
  ghost predicate ReadWhole(answers: LinuxAnswers, name: FileName, bytes: seq<Byte>, i: nat, k: nat) {
    && i + 6 <= k && answers.open(name, i).Ok? && answers.open(name, k - 2).Ok?
    && bytes == Joined(answers, name, i + 2, k - 4) && answers.read(name, k - 4) == Ok([])
    && answers.stat(name, i + 1).Ok? && ValidateVariable(answers.stat(name, i + 1).value).Ok?
    && answers.stat(name, i + 1).value.size == |bytes|
    && answers.stat(name, k - 3) == answers.stat(name, k - 1) == answers.stat(name, i + 1)
  }

  /** A read holds the whole of its own variable's file. */
  ghost predicate IsWhole(answers: LinuxAnswers, read: BoundedRead) {
    exists i, k :: ReadWhole(answers, NameOf(read.0), read.1, i, k)
  }

  ghost predicate AllWhole(answers: LinuxAnswers, fetched: seq<BoundedRead>) {
    forall k | 0 <= k < |fetched| :: IsWhole(answers, fetched[k])
  }

  function TotalBytes(fetched: seq<BoundedRead>): nat {
    if fetched == [] then 0 else TotalBytes(fetched[..|fetched| - 1]) + |fetched[|fetched| - 1].1|
  }

  lemma OneMoreFetched(answers: LinuxAnswers, fetched: seq<BoundedRead>, read: BoundedRead, i: nat, k: nat)
    requires ReadWhole(answers, NameOf(read.0), read.1, i, k)
    ensures TotalBytes(fetched + [read]) == TotalBytes(fetched) + |read.1|
    ensures AllWhole(answers, fetched) ==> AllWhole(answers, fetched + [read])
  {
    hide ReadWhole, NameOf;
    assert (fetched + [read])[..|fetched|] == fetched;
    assert IsWhole(answers, read);
    hide IsWhole;
  }

  class Efivars {
    const answers: LinuxAnswers
    var calls: nat
    ghost var fetched: seq<BoundedRead>
    ghost var listed: seq<FileName>

    constructor (answers: LinuxAnswers)
      ensures this.answers == answers && calls == 0 && fetched == [] && listed == []
    {
      this.answers := answers;
      calls, fetched, listed := 0, [], [];
    }

    method Open(name: FileName) returns (r: Result<Handle, I32>)
      modifies this`calls
      ensures calls == old(calls) + 1
      ensures if answers.open(name, old(calls)).Ok? then r == Ok(Handle(name))
              else r == Err(answers.open(name, old(calls)).error)
    {
      var answer := answers.open(name, calls);
      r := if answer.Ok? then Ok(Handle(name)) else Err(answer.error);
      calls := calls + 1;
    }

    method Stat(file: Handle) returns (r: Result<VariableStat, I32>)
      modifies this`calls
      ensures calls == old(calls) + 1 && r == answers.stat(file.name, old(calls))
    {
      r := answers.stat(file.name, calls);
      calls := calls + 1;
    }

    method Read(file: Handle) returns (r: Result<seq<Byte>, I32>)
      modifies this`calls
      ensures calls == old(calls) + 1 && r == answers.read(file.name, old(calls))
    {
      r := answers.read(file.name, calls);
      calls := calls + 1;
    }

    method StatDirectory() returns (r: Result<VariableStat, I32>)
      modifies this`calls
      ensures calls == old(calls) + 1 && r == answers.directory(old(calls))
    {
      r := answers.directory(calls);
      calls := calls + 1;
    }

    /** Reads an open file until it gives nothing more. */
    method ReadContents(file: Handle) returns (r: Result<seq<Byte>, Error>)
      modifies this`calls
      ensures r.Ok? ==>
                && |r.value| <= MAX_RAW && calls >= old(calls) + 1
                && r.value == Joined(answers, file.name, old(calls), calls - 1)
                && answers.read(file.name, calls - 1) == Ok([])
    {
      hide Joined;
      var deadline := answers.clock(calls) + READ_SECONDS;
      var bytes: seq<Byte> := [];
      ghost var start := calls;
      JoinedNone(answers, file.name, start);
      while true
        invariant start == old(calls) <= calls && |bytes| <= MAX_RAW
        invariant bytes == Joined(answers, file.name, start, calls)
        decreases MAX_RAW - |bytes|
      {
        if answers.clock(calls) >= deadline {
          return Err(PlatformIo(PlatformOperation.Read, 110));
        }
        var limit := if READ_BUFFER < MAX_RAW - |bytes| + 1 then READ_BUFFER else MAX_RAW - |bytes| + 1;
        var given := Read(file);
        if given.Err? {
          return Err(PlatformIo(PlatformOperation.Read, given.error));
        }
        if given.value == [] {
          return Ok(bytes);
        }
        if |given.value| > limit || |bytes| + |given.value| > MAX_RAW {
          return Err(ResourceLimit);
        }
        JoinedStep(answers, file.name, start, calls - 1);
        bytes := bytes + given.value;
      }
    }

    /** The file, and the one that now stands under its name, must be as they were. */
    method Recheck(name: FileName, file: Handle, before: VariableStat) returns (r: Result<(), Error>)
      modifies this`calls
      ensures r.Ok? ==>
                && calls == old(calls) + 3 && answers.stat(file.name, old(calls)) == Ok(before)
                && answers.open(name, old(calls) + 1).Ok? && answers.stat(name, old(calls) + 2) == Ok(before)
    {
      var after := Stat(file);
      if after.Err? {
        return Err(PlatformIo(PlatformOperation.Metadata, after.error));
      }
      if after.value != before {
        return Err(PlatformIo(PlatformOperation.Read, 5));
      }
      var named := Open(name);
      if named.Err? {
        return Err(PlatformIo(PlatformOperation.Open, named.error));
      }
      var current := Stat(named.value);
      if current.Err? {
        return Err(PlatformIo(PlatformOperation.Metadata, current.error));
      }
      return if current.value != before then Err(PlatformIo(PlatformOperation.Read, 5)) else Ok(());
    }

    /**
     * Reads a variable's file to its end. A result is the whole of that file; there is none for a missing
     * optional variable.
     */
    method ReadVariable(variable: Variable, optional: bool) returns (r: Result<Option<seq<Byte>>, Error>)
      modifies this`calls
      ensures r.Ok? && r.value.None? ==> optional && answers.open(NameOf(variable), old(calls)) == Err(2)
      ensures r.Ok? && r.value.Some? ==>
                && |r.value.value| <= MAX_RAW
                && ReadWhole(answers, NameOf(variable), r.value.value, old(calls), calls)
    {
      hide ValidateVariable, Joined, NameOf;
      var name := NameOf(variable);
      var found := Open(name);
      if found.Err? {
        return if found.error == 2 && optional then Ok(None)
               else Err(PlatformIo(PlatformOperation.Open, found.error));
      }
      var before := Stat(found.value);
      if before.Err? {
        return Err(PlatformIo(PlatformOperation.Metadata, before.error));
      }
      if ValidateVariable(before.value).Err? {
        return Err(ValidateVariable(before.value).error);
      }
      if before.value.size > MAX_RAW {
        return Err(ResourceLimit);
      }
      var bytes :- ReadContents(found.value);
      if before.value.size != |bytes| {
        return Err(PlatformIo(PlatformOperation.Read, 5));
      }
      var _ :- Recheck(name, found.value, before.value);
      return Ok(Some(bytes));
    }

    /** Reads a required variable, adds its size to the running total, and takes its payload. */
    method Fetch(variable: Variable, attributes: U32, total: nat) returns (r: Result<seq<Byte>, Error>, total': nat)
      requires total == TotalBytes(fetched) <= MAX_INVENTORY
      modifies this`calls, this`fetched
      ensures r.Ok? ==> total' == TotalBytes(fetched) <= MAX_INVENTORY
      ensures r.Ok? ==> exists bytes :: fetched == old(fetched) + [(variable, bytes)]
                                     && VariablePayload(bytes, attributes) == r
      ensures r.Ok? && AllWhole(answers, old(fetched)) ==> AllWhole(answers, fetched)
      ensures TotalBytes(fetched) <= MAX_INVENTORY
    {
      hide VariablePayload, ReadWhole, NameOf, TotalBytes, AllWhole;
      total' := total;
      var read := ReadVariable(variable, false);
      if read.Err? {
        return Err(read.error), total;
      }
      var bytes := read.value.value;
      total' := total + |bytes|;
      if total' > MAX_INVENTORY {
        return Err(ResourceLimit), total';
      }
      OneMoreFetched(answers, fetched, (variable, bytes), old(calls), calls);
      fetched := fetched + [(variable, bytes)];
      r := VariablePayload(bytes, attributes);
    }

    method Names() returns (r: Result<seq<FileName>, Error>)
      modifies this`calls, this`listed
      ensures r.Ok? ==> listed == r.value
    {
      r := answers.names(calls);
      calls := calls + 1;
      listed := if r.Ok? then r.value else [];
    }

    method ReadOrder(total: nat) returns (r: Result<seq<BootId>, Error>, total': nat)
      requires total == TotalBytes(fetched) <= MAX_INVENTORY
      modifies this`calls, this`fetched
      ensures TotalBytes(fetched) <= MAX_INVENTORY
      ensures r.Ok? ==>
                && total' == TotalBytes(fetched) && |fetched| == |old(fetched)| + 1
                && fetched[..|old(fetched)|] == old(fetched) && IsOrder(fetched[|old(fetched)|], r.value)
                && (AllWhole(answers, old(fetched)) ==> AllWhole(answers, fetched))
    {
      hide TotalBytes, Units, VariablePayload, AllWhole;
      var bytes: Result<seq<Byte>, Error>;
      bytes, total' := Fetch(BootOrder, BOOT_ATTRIBUTES, total);
      if bytes.Err? {
        return Err(bytes.error), total';
      }
      if |bytes.value| % 2 != 0 {
        return Err(UnsupportedFormat), total';
      }
      if |bytes.value| / 2 > IDS {
        return Err(ResourceLimit), total';
      }
      r := Ok(Units(bytes.value));
    }

    method ReadCurrent(total: nat) returns (r: Result<BootId, Error>, total': nat)
      requires total == TotalBytes(fetched) <= MAX_INVENTORY
      modifies this`calls, this`fetched
      ensures TotalBytes(fetched) <= MAX_INVENTORY
      ensures r.Ok? ==>
                && total' == TotalBytes(fetched) && |fetched| == |old(fetched)| + 1
                && fetched[..|old(fetched)|] == old(fetched) && IsCurrent(fetched[|old(fetched)|], r.value)
                && (AllWhole(answers, old(fetched)) ==> AllWhole(answers, fetched))
    {
      hide TotalBytes, VariablePayload, AllWhole;
      var bytes: Result<seq<Byte>, Error>;
      bytes, total' := Fetch(BootCurrent, CURRENT_ATTRIBUTES, total);
      r := if bytes.Err? then Err(bytes.error)
           else if |bytes.value| != 2 then Err(UnsupportedFormat)
           else Ok(U16Of(bytes.value));
    }

    /** Reads the order and the current id, and marks what they refer to. */
    method ReadReferenced()
      returns (r: Result<seq<EnumerationDiagnostic>, Error>, referenced: array<bool>, total: nat,
               ghost order: seq<BootId>, ghost current: BootId)
      requires fetched == []
      modifies this`calls, this`fetched
      ensures TotalBytes(fetched) <= MAX_INVENTORY
      ensures fresh(referenced) && referenced.Length == IDS
      ensures r.Ok? ==>
                && |fetched| == 2 && total == TotalBytes(fetched) && AllWhole(answers, fetched)
                && IsOrder(fetched[0], order) && IsCurrent(fetched[1], current)
                && r.value == Diagnostics(Repeats(order))
                && forall id: BootId :: referenced[id] <==> id in order || id == current
    {
      assert TotalBytes(fetched) == 0 && AllWhole(answers, fetched);
      hide TotalBytes, Dedup, Repeats, Diagnostics, IsOrder, IsCurrent, AllWhole;
      referenced := new bool[IDS](_ => false);
      total, order, current := 0, [], 0;
      var ids, t := ReadOrder(total);
      if ids.Err? {
        r := Err(ids.error);
        return;
      }
      ghost var first := fetched[0];
      var _, diagnostics, tallied := TallyOrder(ids.value);
      order, referenced := ids.value, tallied;
      var id: Result<BootId, Error>;
      id, total := ReadCurrent(t);
      if id.Err? {
        r := Err(id.error);
        return;
      }
      assert fetched[0] == fetched[..1][0] == first;
      current := id.value;
      referenced[id.value] := true;
      r := Ok(diagnostics);
    }

    /** Reads the order, the current id and the directory, and checks that every referenced id was found. */
    method ReadReferences()
      returns (r: Result<seq<EnumerationDiagnostic>, Error>, discovered: array<bool>, total: nat)
      requires fetched == []
      modifies this
      ensures TotalBytes(fetched) <= MAX_INVENTORY
      ensures fresh(discovered) && discovered.Length == IDS
      ensures r.Ok? ==>
                && |fetched| == 2 && total == TotalBytes(fetched)
                && OrderAndCurrent(r.value, listed, fetched[0], fetched[1])
                && AllWhole(answers, fetched)
                && forall id: BootId :: discovered[id] <==> BootName(id) in listed
    {
      hide TotalBytes, Repeats, Diagnostics, IsOrder, IsCurrent, BootName, AllWhole;
      discovered := new bool[IDS](_ => false);
      var referenced: array<bool>;
      ghost var order, current;
      r, referenced, total, order, current := ReadReferenced();
      if r.Err? {
        return;
      }
      var names := Names();
      if names.Err? {
        r := Err(names.error);
        return;
      }
      discovered := Discover(names.value);
      if exists id: BootId :: referenced[id] && !discovered[id] {
        r := Err(TargetMissing);
        return;
      }
      assert AllFound(order, current, listed);
    }

    /** The whole enumeration, inside a directory already walked to. */
    method ReadOptions(directory: Result<(), Error>) returns (r: Result<OptionInventory, Error>)
      requires fetched == []
      modifies this
      ensures TotalBytes(fetched) <= MAX_INVENTORY
      ensures r.Ok? ==> LinuxEnumerated(r.value, listed, fetched) && AllWhole(answers, fetched)
    {
      assert TotalBytes(fetched) == 0;
      hide TotalBytes, LinuxEnumerated, AllWhole;
      if directory.Err? {
        return Err(directory.error);
      }
      var before := StatDirectory();
      if before.Err? {
        return Err(PlatformIo(PlatformOperation.Metadata, before.error));
      }
      var inventory :- ReadInventory();
      var after := StatDirectory();
      if after.Err? {
        return Err(PlatformIo(PlatformOperation.Metadata, after.error));
      }
      return if after.value != before.value then Err(PlatformIo(PlatformOperation.Read, 5)) else Ok(inventory);
    }

    method ReadInventory() returns (r: Result<OptionInventory, Error>)
      requires fetched == []
      modifies this
      ensures TotalBytes(fetched) <= MAX_INVENTORY
      ensures r.Ok? ==> LinuxEnumerated(r.value, listed, fetched) && AllWhole(answers, fetched)
    {
      hide TotalBytes, OrderAndCurrent, BootName, LinuxEntryRead, AllWhole, AscendingIds, HasEntry;
      var diagnostics, discovered, total := ReadReferences();
      if diagnostics.Err? {
        return Err(diagnostics.error);
      }
      var entries :- ReadDiscovered(discovered, total);
      assert fetched[0] == fetched[..2][0] && fetched[1] == fetched[..2][1];
      return Ok(OptionInventory(entries, diagnostics.value));
    }

    /** Reads the discovered entries in ascending order of their ids. */
    method ReadDiscovered(discovered: array<bool>, total: nat) returns (r: Result<seq<(BootId, LoadOption)>, Error>)
      requires total == TotalBytes(fetched) <= MAX_INVENTORY && discovered.Length == IDS
      modifies this`calls, this`fetched
      ensures TotalBytes(fetched) <= MAX_INVENTORY
      ensures r.Ok? ==>
                && |fetched| == |old(fetched)| + |r.value| && fetched[..|old(fetched)|] == old(fetched)
                && AscendingIds(r.value)
                && (forall id: BootId :: HasEntry(r.value, id) <==> discovered[id])
                && (forall k | 0 <= k < |r.value| :: LinuxEntryRead(r.value[k], fetched[|old(fetched)| + k]))
                && (AllWhole(answers, old(fetched)) ==> AllWhole(answers, fetched))
    {
      hide TotalBytes, VariablePayload, LoadOptions.ParseLoadOption, AllWhole;
      var sum := total;
      var entries: seq<(BootId, LoadOption)> := [];
      for i := 0 to IDS
        invariant sum == TotalBytes(fetched) <= MAX_INVENTORY
        invariant |fetched| == |old(fetched)| + |entries| && fetched[..|old(fetched)|] == old(fetched)
        invariant AscendingIds(entries) && forall k | 0 <= k < |entries| :: entries[k].0 < i
        invariant forall id: BootId :: HasEntry(entries, id) <==> id < i && discovered[id]
        invariant forall k | 0 <= k < |entries| :: LinuxEntryRead(entries[k], fetched[|old(fetched)| + k])
        invariant AllWhole(answers, old(fetched)) ==> AllWhole(answers, fetched)
      {
        if discovered[i] {
          var bytes: Result<seq<Byte>, Error>;
          bytes, sum := Fetch(Boot(i), BOOT_ATTRIBUTES, sum);
          if bytes.Err? {
            return Err(bytes.error);
          }
          var option := LoadOptions.ParseLoadOption(bytes.value);
          if option.Err? {
            return Err(option.error);
          }
          ghost var was := entries;
          entries := entries + [(i, option.value)];
          EntryAdded(was, i, option.value);
        }
      }
      return Ok(entries);
    }
  }

  predicate HasEntry(entries: seq<(BootId, LoadOption)>, id: BootId) {
    exists k | 0 <= k < |entries| :: entries[k].0 == id
  }

  lemma EntryAdded(entries: seq<(BootId, LoadOption)>, id: BootId, option: LoadOption)
    ensures forall other: BootId ::
              HasEntry(entries + [(id, option)], other) <==> HasEntry(entries, other) || other == id
  {
    var longer := entries + [(id, option)];
    forall other: BootId ensures HasEntry(longer, other) <==> HasEntry(entries, other) || other == id {
      assert longer[|entries|].0 == id;
      if k :| 0 <= k < |entries| && entries[k].0 == other {
        assert longer[k].0 == other;
      }
    }
  }

  predicate AscendingIds(entries: seq<(BootId, LoadOption)>) {
    forall i, j | 0 <= i < j < |entries| :: entries[i].0 < entries[j].0
  }

  predicate LinuxEntryRead(entry: (BootId, LoadOption), read: BoundedRead) {
    && read.0 == Boot(entry.0)
    && var bytes := VariablePayload(read.1, BOOT_ATTRIBUTES);
       bytes.Ok? && LoadOptions.ParseLoadOption(bytes.value) == Ok(entry.1)
  }

  /** Everything the order or the current id refers to has a name in the directory. */
  ghost predicate AllFound(order: seq<BootId>, current: BootId, names: seq<FileName>) {
    forall id: BootId | id in order || id == current :: BootName(id) in names
  }

  /** A read of BootOrder and the ids in it. */
  ghost predicate IsOrder(read: BoundedRead, order: seq<BootId>) {
    var bytes := VariablePayload(read.1, BOOT_ATTRIBUTES);
    read.0 == BootOrder && bytes.Ok? && |bytes.value| % 2 == 0 && Units(bytes.value) == order
  }

  ghost predicate IsCurrent(read: BoundedRead, current: BootId) {
    var bytes := VariablePayload(read.1, CURRENT_ATTRIBUTES);
    read.0 == BootCurrent && bytes.Ok? && |bytes.value| == 2 && U16Of(bytes.value) == current
  }

  /** The first two reads give an order and a current id that are all found, and the order's diagnostics. */
  ghost predicate OrderAndCurrent(
    diagnostics: seq<EnumerationDiagnostic>, names: seq<FileName>, first: BoundedRead, second: BoundedRead)
  {
    exists order, current ::
      && IsOrder(first, order) && IsCurrent(second, current) && AllFound(order, current, names)
      && diagnostics == Diagnostics(Repeats(order))
  }

  /**
   * The inventory is exactly the entries the directory names, by ascending id, each parsed from its own
   * variable, with every referenced id among them and one diagnostic for each repeated id of the order.
   */
  ghost predicate LinuxEnumerated(inventory: OptionInventory, names: seq<FileName>, fetched: seq<BoundedRead>) {
    && |fetched| == |inventory.entries| + 2
    && OrderAndCurrent(inventory.diagnostics, names, fetched[0], fetched[1])
    && AscendingIds(inventory.entries)
    && (forall id: BootId :: HasEntry(inventory.entries, id) <==> BootName(id) in names)
    && forall k | 0 <= k < |inventory.entries| :: LinuxEntryRead(inventory.entries[k], fetched[k + 2])
  }

  /** The duplicate check cannot fire on a Linux inventory either. */
  lemma AscendingIsDistinct(inventory: OptionInventory)
    requires AscendingIds(inventory.entries)
    ensures !Flow.HasDuplicate(inventory.entries)
  {
  }

  /** A raw variable's value, behind its four bytes of attributes. */
  function VariablePayload(bytes: seq<Byte>, attributes: U32): Result<seq<Byte>, Error> {
    if |bytes| < 4 || bytes[..4] != Le(4, attributes) then Err(UnsupportedFormat) else Ok(bytes[4..])
  }

  /** Which ids have an entry's name among `names`. */
  method Discover(names: seq<FileName>) returns (discovered: array<bool>)
    ensures fresh(discovered) && discovered.Length == IDS
    ensures forall id: BootId :: discovered[id] <==> BootName(id) in names
  {
    hide BootName, BootIdOf;
    discovered := new bool[IDS](_ => false);
    for i := 0 to |names|
      invariant forall id: BootId :: discovered[id] <==> BootName(id) in names[..i]
    {
      assert names[..i + 1] == names[..i] + [names[i]];
      var found := BootIdLoop(names[i]);
      forall id: BootId ensures BootIdOf(names[i]) == Some(id) <==> names[i] == BootName(id) {
        BootNameIff(names[i], id);
      }
      if found.Some? {
        IdOfName(names[i]);
        discovered[found.value] := true;
      }
    }
    assert names[..|names|] == names;
  }

  lemma IdOfName(name: seq<Byte>)
    requires BootIdOf(name).Some?
    ensures 0 <= BootIdOf(name).value < IDS
  {
  }
}
