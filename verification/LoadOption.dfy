/** EFI load options: header, description, file path list and optional data. */
module LoadOptions {
  import opened Results
  import opened Bytes
  import opened Model
  import opened DevicePaths

  const MAX_LOAD_OPTION_BYTES := 1_048_576
  const LOAD_OPTION_HEADER_BYTES := 6

  /** The description units from `offset` up to the zero unit, and where the list after it starts. */
  function ScanDescription(bytes: seq<Byte>, offset: nat, units: seq<U16>): (r: Result<(seq<U16>, nat), Error>)
    ensures r.Ok? ==> offset + 2 <= r.value.1 <= |bytes|
    decreases if offset <= |bytes| then |bytes| - offset else 0
  {
    if offset + 2 > |bytes| then Err(MalformedLoadOption)
    else
      var unit := U16Of(bytes[offset..offset + 2]);
      if unit == 0 then Ok((units, offset + 2)) else ScanDescription(bytes, offset + 2, units + [unit])
  }

  /** The device paths of a file path list from `offset` on, after `paths`. */
  function SplitPaths(list: seq<Byte>, offset: nat, paths: seq<DevicePath>): Result<seq<DevicePath>, Error>
    decreases if offset <= |list| then |list| - offset else 0
  {
    if offset >= |list| then Ok(paths)
    else
      var length :- FirstPathLength(list[offset..]);
      var path :- ParseDevicePath(list[offset..offset + length]);
      SplitPaths(list, offset + length, paths + [path])
  }

  function ParseLoadOption(bytes: seq<Byte>): Result<LoadOption, Error> {
    if |bytes| > MAX_LOAD_OPTION_BYTES then Err(ResourceLimit)
    else if |bytes| < LOAD_OPTION_HEADER_BYTES then Err(MalformedLoadOption)
    else
      var attributes, listLength := U32Of(bytes[0..4]), U16Of(bytes[4..6]);
      var (description, offset) :- ScanDescription(bytes, LOAD_OPTION_HEADER_BYTES, []);
      if !Utf16.ValidUtf16(description) || offset + listLength > |bytes| then Err(MalformedLoadOption)
      else
        var filePaths :- SplitPaths(bytes[offset..offset + listLength], 0, []);
        Ok(LoadOption(attributes, description, listLength, filePaths, bytes[offset + listLength..]))
  }

  method ParseLoadOptionLoop(bytes: seq<Byte>) returns (r: Result<LoadOption, Error>)
    ensures r == ParseLoadOption(bytes)
  {
    hide Utf16.ValidUtf16, ScanDescription, SplitPaths;
    if |bytes| > MAX_LOAD_OPTION_BYTES {
      return Err(ResourceLimit);
    }
    if |bytes| < LOAD_OPTION_HEADER_BYTES {
      return Err(MalformedLoadOption);
    }
    var attributes, listLength := U32Of(bytes[0..4]), U16Of(bytes[4..6]);
    var scanned := ReadDescription(bytes);
    if scanned.Err? {
      return Err(scanned.error);
    }
    var (description, offset) := scanned.value;
    if !Utf16.ValidUtf16(description) || offset + listLength > |bytes| {
      return Err(MalformedLoadOption);
    }
    var filePaths := ReadPaths(bytes[offset..offset + listLength]);
    if filePaths.Err? {
      return Err(filePaths.error);
    }
    return Ok(LoadOption(attributes, description, listLength, filePaths.value, bytes[offset + listLength..]));
  }

  method ReadDescription(bytes: seq<Byte>) returns (r: Result<(seq<U16>, nat), Error>)
    requires |bytes| >= LOAD_OPTION_HEADER_BYTES
    ensures r == ScanDescription(bytes, LOAD_OPTION_HEADER_BYTES, [])
  {
    var description: seq<U16>, offset := [], LOAD_OPTION_HEADER_BYTES;
    while true
      invariant offset <= |bytes|
      invariant ScanDescription(bytes, LOAD_OPTION_HEADER_BYTES, []) == ScanDescription(bytes, offset, description)
      decreases |bytes| - offset
    {
      if offset + 2 > |bytes| {
        return Err(MalformedLoadOption);
      }
      var unit := U16Of(bytes[offset..offset + 2]);
      offset := offset + 2;
      if unit == 0 {
        return Ok((description, offset));
      }
      description := description + [unit];
    }
  }

  /** One path is segmented, parsed and put behind the others. */
  lemma SplitStep(list: seq<Byte>, offset: nat, paths: seq<DevicePath>)
    requires offset < |list|
    ensures var length := FirstPathLength(list[offset..]);
            SplitPaths(list, offset, paths)
              == if length.Err? then Err(length.error)
                 else
                   var path := ParseDevicePath(list[offset..offset + length.value]);
                   if path.Err? then Err(path.error)
                   else SplitPaths(list, offset + length.value, paths + [path.value])
    ensures var length := FirstPathLength(list[offset..]);
            length.Ok? ==> 0 < length.value <= |list| - offset
  {
    hide ParseDevicePath;
  }

  lemma SplitEnds(list: seq<Byte>, paths: seq<DevicePath>)
    ensures SplitPaths(list, |list|, paths) == Ok(paths)
  {
  }

  method ReadPaths(list: seq<Byte>) returns (r: Result<seq<DevicePath>, Error>)
    ensures r == SplitPaths(list, 0, [])
  {
    hide SplitPaths, FirstPathLength, ParseDevicePath;
    var filePaths: seq<DevicePath>, pathOffset := [], 0;
    while pathOffset < |list|
      invariant pathOffset <= |list|
      invariant SplitPaths(list, pathOffset, filePaths) == SplitPaths(list, 0, [])
    {
      SplitStep(list, pathOffset, filePaths);
      var length :- FirstPathLengthLoop(list[pathOffset..]);
      var path :- ParseDevicePathLoop(list[pathOffset..pathOffset + length]);
      filePaths := filePaths + [path];
      pathOffset := pathOffset + length;
    }
    SplitEnds(list, filePaths);
    return Ok(filePaths);
  }

  // Printing, which the repository does not have: the bytes an option stands for.

  function PrintPaths(paths: seq<DevicePath>): seq<Byte> {
    if paths == [] then [] else PrintPath(paths[0]) + PrintPaths(paths[1..])
  }

  function PrintLoadOption(option: LoadOption): seq<Byte> {
    Le(4, option.attributes) + Le(2, option.filePathListLength)
    + UnitBytes(option.description) + [0, 0]
    + PrintPaths(option.filePaths) + option.optionalData
  }

  predicate WellFormedOption(option: LoadOption) {
    && 0 !in option.description
    && Utf16.ValidUtf16(option.description)
    && (forall i | 0 <= i < |option.filePaths| :: WellFormedPath(option.filePaths[i]))
    && |PrintPaths(option.filePaths)| == option.filePathListLength
  }

  lemma {:induction false} PrintPathsAppend(paths: seq<DevicePath>, path: DevicePath)
    ensures PrintPaths(paths + [path]) == PrintPaths(paths) + PrintPath(path)
  {
    hide PrintPath;
    if paths == [] {
      assert [] + [path] == [path];
      assert PrintPaths([path]) == PrintPath(path) + PrintPaths([]);
    } else {
      PrintPathsAppend(paths[1..], path);
      assert (paths + [path])[1..] == paths[1..] + [path];
      Assoc(PrintPath(paths[0]), PrintPaths(paths[1..]), PrintPath(path));
    }
  }

  /** What was scanned, and nothing else, lies between the start of the description and its end. */
  lemma {:induction false} ScanSound(bytes: seq<Byte>, offset: nat, units: seq<U16>, start: nat)
    requires start <= offset <= |bytes| && bytes[start..offset] == UnitBytes(units) && 0 !in units
    requires ScanDescription(bytes, offset, units).Ok?
    ensures var (description, end) := ScanDescription(bytes, offset, units).value;
            0 !in description && bytes[start..end] == UnitBytes(description) + [0, 0]
    decreases |bytes| - offset
  {
    var pair := bytes[offset..offset + 2];
    LeOfFromLe(pair);
    assert bytes[start..offset + 2] == bytes[start..offset] + pair;
    if U16Of(pair) != 0 {
      UnitBytesAppend(units, U16Of(pair));
      ScanSound(bytes, offset + 2, units + [U16Of(pair)], start);
    } else {
      assert Le(2, 0) == [0, 0];
    }
  }

  lemma {:induction false} ScanComplete(
    bytes: seq<Byte>, offset: nat, units: seq<U16>, ahead: seq<U16>, rest: seq<Byte>)
    requires 0 !in ahead && offset <= |bytes| && bytes[offset..] == UnitBytes(ahead) + [0, 0] + rest
    ensures ScanDescription(bytes, offset, units) == Ok((units + ahead, offset + 2 * |ahead| + 2))
    decreases |ahead|
  {
    var pair := bytes[offset..offset + 2];
    assert pair == bytes[offset..][..2];
    if ahead == [] {
      assert pair == [0, 0] && [0, 0][1..] == [0] && units + [] == units;
      assert U16Of(pair) == 0;
    } else {
      assert pair == Le(2, ahead[0]);
      WordRoundTrips(ahead[0], 0, 0);
      assert bytes[offset + 2..] == bytes[offset..][2..] == UnitBytes(ahead[1..]) + [0, 0] + rest;
      assert units + [ahead[0]] + ahead[1..] == units + ahead;
      ScanComplete(bytes, offset + 2, units + [ahead[0]], ahead[1..], rest);
    }
  }

  lemma {:induction false} SplitSound(list: seq<Byte>, offset: nat, paths: seq<DevicePath>)
    requires offset <= |list| && PrintPaths(paths) == list[..offset]
    requires forall i | 0 <= i < |paths| :: WellFormedPath(paths[i])
    requires SplitPaths(list, offset, paths).Ok?
    ensures var all := SplitPaths(list, offset, paths).value;
            PrintPaths(all) == list && forall i | 0 <= i < |all| :: WellFormedPath(all[i])
    decreases |list| - offset
  {
    hide ParseDevicePath, PrintPath, WellFormedPath, FirstPathLength;
    if offset < |list| {
      var length := FirstPathLength(list[offset..]).value;
      LengthIsBounded(list[offset..]);
      var cut := list[offset..offset + length];
      var path := ParseDevicePath(cut).value;
      ParsePathIffPrints(cut, path);
      PrintPathsAppend(paths, path);
      assert list[..offset + length] == list[..offset] + cut;
      SplitSound(list, offset + length, paths + [path]);
    } else {
      assert list[..offset] == list;
    }
  }

  lemma LengthIsBounded(bytes: seq<Byte>)
    ensures FirstPathLength(bytes).Ok? ==> 0 < FirstPathLength(bytes).value <= |bytes|
  {
  }

  /** A well-formed path at the front of a list is the path the splitter takes. */
  lemma TakesPrintedPath(bytes: seq<Byte>, path: DevicePath, rest: seq<Byte>)
    requires WellFormedPath(path) && bytes == PrintPath(path) + rest && |bytes| <= MAX_INPUT_BYTES
    ensures FirstPathLength(bytes) == Ok(|PrintPath(path)|)
    ensures ParseDevicePath(PrintPath(path)) == Ok(path)
  {
    ParsePathIffPrints(PrintPath(path), path);
    AcceptedPathIsFirstPath(PrintPath(path), rest);
  }

  lemma {:induction false} SplitComplete(list: seq<Byte>, offset: nat, paths: seq<DevicePath>, ahead: seq<DevicePath>)
    requires offset <= |list| <= MAX_INPUT_BYTES && list[offset..] == PrintPaths(ahead)
    requires forall i | 0 <= i < |ahead| :: WellFormedPath(ahead[i])
    ensures SplitPaths(list, offset, paths) == Ok(paths + ahead)
    decreases |ahead|
  {
    hide ParseDevicePath, PrintPath, WellFormedPath, FirstPathLength;
    if ahead == [] {
      assert paths + ahead == paths;
    } else {
      var rest := PrintPaths(ahead[1..]);
      TakesPrintedPath(list[offset..], ahead[0], rest);
      LengthIsBounded(list[offset..]);
      var length := |PrintPath(ahead[0])|;
      assert list[offset..offset + length] == list[offset..][..length] == PrintPath(ahead[0]);
      assert list[offset + length..] == list[offset..][length..] == rest;
      assert paths + [ahead[0]] + ahead[1..] == paths + ahead;
      SplitComplete(list, offset + length, paths + [ahead[0]], ahead[1..]);
    }
  }

  lemma Pieces(bytes: seq<Byte>, a: nat, b: nat, c: nat, d: nat)
    requires a <= b <= c <= d <= |bytes|
    ensures bytes[0..a] + bytes[a..b] + bytes[b..c] + bytes[c..d] + bytes[d..] == bytes
  {
  }

  /** The cuts an accepted input was parsed at. */
  lemma ParseShape(bytes: seq<Byte>) returns (option: LoadOption, offset: nat, end: nat)
    requires ParseLoadOption(bytes).Ok?
    ensures ParseLoadOption(bytes) == Ok(option)
    ensures 8 <= offset <= end <= |bytes| && end == offset + option.filePathListLength
    ensures U32Of(bytes[0..4]) == option.attributes && U16Of(bytes[4..6]) == option.filePathListLength
    ensures ScanDescription(bytes, 6, []) == Ok((option.description, offset))
    ensures SplitPaths(bytes[offset..end], 0, []) == Ok(option.filePaths)
    ensures Utf16.ValidUtf16(option.description) && option.optionalData == bytes[end..]
  {
    hide Utf16.ValidUtf16, SplitPaths, ScanDescription;
    option := ParseLoadOption(bytes).value;
    offset := ScanDescription(bytes, LOAD_OPTION_HEADER_BYTES, []).value.1;
    end := offset + option.filePathListLength;
  }

  lemma ParseSound(bytes: seq<Byte>)
    requires ParseLoadOption(bytes).Ok?
    ensures var option := ParseLoadOption(bytes).value;
            WellFormedOption(option) && PrintLoadOption(option) == bytes
  {
    assert UnitBytes([]) == [] && PrintPaths([]) == [];
    hide Utf16.ValidUtf16, WellFormedPath, SplitPaths, PrintPaths, ScanDescription, UnitBytes, Le, ParseLoadOption;
    var option, offset, end := ParseShape(bytes);
    ScanSound(bytes, 6, [], 6);
    SplitSound(bytes[offset..end], 0, []);
    LeOfFromLe(bytes[0..4]);
    LeOfFromLe(bytes[4..6]);
    Pieces(bytes, 4, 6, offset, end);
    assert bytes[6..offset] == UnitBytes(option.description) + [0, 0];
    assert PrintPaths(option.filePaths) == bytes[offset..end];
    PrintedPieces(option, bytes[0..4], bytes[4..6], bytes[6..offset], bytes[offset..end]);
    hide PrintLoadOption;
  }

  lemma PrintedPieces(
    option: LoadOption, attributes: seq<Byte>, listLength: seq<Byte>, description: seq<Byte>, list: seq<Byte>)
    requires Le(4, option.attributes) == attributes && Le(2, option.filePathListLength) == listLength
    requires UnitBytes(option.description) + [0, 0] == description && PrintPaths(option.filePaths) == list
    ensures PrintLoadOption(option) == attributes + listLength + description + list + option.optionalData
  {
    hide Le, UnitBytes, PrintPaths;
    Assoc(attributes + listLength, UnitBytes(option.description), [0, 0]);
  }

  lemma ParseComplete(option: LoadOption)
    requires WellFormedOption(option) && |PrintLoadOption(option)| <= MAX_LOAD_OPTION_BYTES
    ensures ParseLoadOption(PrintLoadOption(option)) == Ok(option)
  {
    hide Utf16.ValidUtf16, WellFormedPath, SplitPaths, PrintPaths, ScanDescription, UnitBytes, Le;
    var bytes, units := PrintLoadOption(option), option.description;
    var attributes, listLength := Le(4, option.attributes), Le(2, option.filePathListLength);
    var list, tail := PrintPaths(option.filePaths), option.optionalData;
    assert bytes[0..4] == attributes && bytes[4..6] == listLength;
    WordRoundTrips(option.filePathListLength, option.attributes, 0);
    assert bytes[6..] == UnitBytes(units) + [0, 0] + (list + tail);
    ScanComplete(bytes, 6, [], units, list + tail);
    var offset := 6 + 2 * |units| + 2;
    assert [] + units == units;
    assert bytes[offset..] == list + tail;
    assert bytes[offset..offset + |list|] == list && bytes[offset + |list|..] == tail;
    assert list[0..] == list && [] + option.filePaths == option.filePaths;
    SplitComplete(list, 0, [], option.filePaths);
  }

  /**
   * Parsing and printing are inverse. A byte string within the size limit is accepted as `option`
   * exactly when it is the print of that well-formed option, so description, path list and optional
   * data partition the input.
   */
  lemma ParseOptionIffPrints(bytes: seq<Byte>, option: LoadOption)
    ensures ParseLoadOption(bytes) == Ok(option)
       <==> |bytes| <= MAX_LOAD_OPTION_BYTES && WellFormedOption(option) && PrintLoadOption(option) == bytes
  {
    if ParseLoadOption(bytes) == Ok(option) {
      ParseSound(bytes);
    }
    if |bytes| <= MAX_LOAD_OPTION_BYTES && WellFormedOption(option) && PrintLoadOption(option) == bytes {
      ParseComplete(option);
    }
  }
}
