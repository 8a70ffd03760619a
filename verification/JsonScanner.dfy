/** The protocol's JSON scanner: syntax, duplicate keys after unescaping, and nesting depth. */
module JsonScanners {
  import opened Results
  import opened Bytes
  import opened JsonText

  const MAX_DEPTH := 256
  const OPEN_BRACE: Byte := 0x7b
  const CLOSE_BRACE: Byte := 0x7d
  const OPEN_BRACKET: Byte := 0x5b
  const CLOSE_BRACKET: Byte := 0x5d
  const COMMA: Byte := 0x2c
  const COLON: Byte := 0x3a
  const TRUE: seq<Byte> := [0x74, 0x72, 0x75, 0x65]
  const FALSE: seq<Byte> := [0x66, 0x61, 0x6c, 0x73, 0x65]
  const NULL: seq<Byte> := [0x6e, 0x75, 0x6c, 0x6c]

  datatype ScanError = Invalid | TooDeep

  type Key = seq<Utf16.Scalar>

  // The grammar: a value with the whitespace before it, and everything inside it.

  datatype Json = Json(space: seq<Byte>, body: Body)

  datatype Body =
    | Literal(word: seq<Byte>)
    | Num(number: Number)
    | Str(text: Text)
    | EmptyArray(inside: seq<Byte>)
    | Array(items: Items)
    | EmptyObject(inside: seq<Byte>)
    | Object(members: Members)

  datatype Items = Items(value: Json, after: seq<Byte>, rest: ItemsRest)

  datatype ItemsRest = NoItems | MoreItems(items: Items)

  datatype Member = Member(before: seq<Byte>, key: Text, middle: seq<Byte>, value: Json, after: seq<Byte>)

  datatype Members = Members(first: Member, rest: MembersRest)

  datatype MembersRest = NoMembers | MoreMembers(members: Members)

  function Print(json: Json): seq<Byte> {
    json.space + PrintBody(json.body)
  }

  function PrintBody(body: Body): seq<Byte> {
    match body
    case Literal(word) => word
    case Num(number) => PrintNumber(number)
    case Str(text) => PrintText(text)
    case EmptyArray(inside) => [OPEN_BRACKET] + (inside + [CLOSE_BRACKET])
    case Array(items) => [OPEN_BRACKET] + PrintItems(items)
    case EmptyObject(inside) => [OPEN_BRACE] + (inside + [CLOSE_BRACE])
    case Object(members) => [OPEN_BRACE] + PrintMembers(members)
  }

  function PrintItems(items: Items): seq<Byte> {
    Print(items.value) + (items.after + PrintItemsRest(items.rest))
  }

  function PrintItemsRest(rest: ItemsRest): seq<Byte> {
    match rest
    case NoItems => [CLOSE_BRACKET]
    case MoreItems(items) => [COMMA] + PrintItems(items)
  }

  function PrintMember(member: Member): seq<Byte> {
    member.before + (PrintText(member.key) + (member.middle + ([COLON] + (Print(member.value) + member.after))))
  }

  function PrintMembers(members: Members): seq<Byte> {
    PrintMember(members.first) + PrintMembersRest(members.rest)
  }

  function PrintMembersRest(rest: MembersRest): seq<Byte> {
    match rest
    case NoMembers => [CLOSE_BRACE]
    case MoreMembers(members) => [COMMA] + PrintMembers(members)
  }

  /** Whitespace is what `is_ascii_whitespace` accepts: RFC 8259's four characters and the form feed. */
  predicate IsSpace(b: Byte) {
    b == 0x20 || b == 0x09 || b == 0x0a || b == 0x0c || b == 0x0d
  }

  predicate Space(bytes: seq<Byte>) {
    forall b | b in bytes :: IsSpace(b)
  }

  /** Syntax alone: tokens and whitespace are well formed everywhere. */
  predicate WellFormed(json: Json) {
    Space(json.space) && WellFormedBody(json.body)
  }

  predicate WellFormedBody(body: Body) {
    match body
    case Literal(word) => word == TRUE || word == FALSE || word == NULL
    case Num(number) => ValidNumber(number)
    case Str(text) => ValidText(text)
    case EmptyArray(inside) => Space(inside)
    case Array(items) => WellFormedItems(items)
    case EmptyObject(inside) => Space(inside)
    case Object(members) => WellFormedMembers(members)
  }

  predicate WellFormedItems(items: Items) {
    && WellFormed(items.value) && Space(items.after)
    && (items.rest.MoreItems? ==> WellFormedItems(items.rest.items))
  }

  predicate WellFormedMember(member: Member) {
    && Space(member.before) && ValidText(member.key) && Space(member.middle)
    && WellFormed(member.value) && Space(member.after)
  }

  predicate WellFormedMembers(members: Members) {
    && WellFormedMember(members.first)
    && (members.rest.MoreMembers? ==> WellFormedMembers(members.rest.members))
  }

  /** The keys of one object after unescaping, in order. */
  function Keys(members: Members): (keys: seq<Key>)
    requires WellFormedMembers(members)
    ensures |keys| >= 1
  {
    assert WellFormedMember(members.first);
    [Unescape(members.first.key)]
    + match members.rest
      case NoMembers => []
      case MoreMembers(more) => Keys(more)
  }

  predicate Distinct(keys: seq<Key>) {
    forall i, j | 0 <= i < j < |keys| :: keys[i] != keys[j]
  }

  /** No object at any level has two keys that are equal after unescaping. */
  predicate NoDuplicates(json: Json)
    requires WellFormed(json)
  {
    assert WellFormedBody(json.body);
    match json.body
    case Array(items) => NoDuplicatesItems(items)
    case Object(members) => Distinct(Keys(members)) && NoDuplicatesMembers(members)
    case _ => true
  }

  predicate NoDuplicatesItems(items: Items)
    requires WellFormedItems(items)
  {
    NoDuplicates(items.value) && (items.rest.MoreItems? ==> NoDuplicatesItems(items.rest.items))
  }

  predicate NoDuplicatesMembers(members: Members)
    requires WellFormedMembers(members)
  {
    assert WellFormedMember(members.first);
    NoDuplicates(members.first.value) && (members.rest.MoreMembers? ==> NoDuplicatesMembers(members.rest.members))
  }

  function Max(a: nat, b: nat): nat {
    if a >= b then a else b
  }

  /** How deep the deepest value inside sits below this one. */
  function Height(json: Json): nat {
    match json.body
    case Array(items) => 1 + HeightItems(items)
    case Object(members) => 1 + HeightMembers(members)
    case _ => 0
  }

  function HeightItems(items: Items): nat {
    Max(Height(items.value), if items.rest.MoreItems? then HeightItems(items.rest.items) else 0)
  }

  function HeightMembers(members: Members): nat {
    Max(Height(members.first.value), if members.rest.MoreMembers? then HeightMembers(members.rest.members) else 0)
  }

  // What the scanner computes, together with the derivation it walks through.

  type Scan<T> = Result<(T, nat), ScanError>

  function SkipSpace(bytes: seq<Byte>, i: nat): (end: nat)
    requires i <= |bytes|
    ensures i <= end <= |bytes|
    ensures forall k | i <= k < end :: IsSpace(bytes[k])
    ensures end < |bytes| ==> !IsSpace(bytes[end])
    decreases |bytes| - i
  {
    if i < |bytes| && IsSpace(bytes[i]) then SkipSpace(bytes, i + 1) else i
  }

  function ScanLiteral(bytes: seq<Byte>, i: nat, word: seq<Byte>): (r: Scan<Body>)
    ensures r.Ok? ==> r.value.1 == i + |word| <= |bytes|
  {
    if i + |word| <= |bytes| && bytes[i..i + |word|] == word then Ok((Literal(word), i + |word|)) else Err(Invalid)
  }

  function ScanValue(bytes: seq<Byte>, i: nat, depth: nat): (r: Scan<Json>)
    requires i <= |bytes|
    ensures r.Ok? ==> i < r.value.1 <= |bytes|
    decreases |bytes| - i, 4
  {
    if depth > MAX_DEPTH then Err(TooDeep)
    else
      var start := SkipSpace(bytes, i);
      var (body, end) :- ScanBody(bytes, start, depth);
      Ok((Json(bytes[i..start], body), end))
  }

  function ScanBody(bytes: seq<Byte>, i: nat, depth: nat): (r: Scan<Body>)
    requires i <= |bytes|
    ensures r.Ok? ==> i < r.value.1 <= |bytes|
    decreases |bytes| - i, 3
  {
    if i == |bytes| then Err(Invalid)
    else if bytes[i] == OPEN_BRACE then
      var start := SkipSpace(bytes, i + 1);
      if Holds(bytes, start, CLOSE_BRACE) then Ok((EmptyObject(bytes[i + 1..start]), start + 1))
      else
        var (members, end) :- ScanMembers(bytes, i + 1, depth + 1, {});
        Ok((Object(members), end))
    else if bytes[i] == OPEN_BRACKET then
      var start := SkipSpace(bytes, i + 1);
      if Holds(bytes, start, CLOSE_BRACKET) then Ok((EmptyArray(bytes[i + 1..start]), start + 1))
      else
        var (items, end) :- ScanItems(bytes, i + 1, depth + 1);
        Ok((Array(items), end))
    else if bytes[i] == QUOTE then
      match ScanString(bytes, i)
      case None => Err(Invalid)
      case Some((text, end)) => Ok((Str(text), end))
    else if bytes[i] == 0x74 then ScanLiteral(bytes, i, TRUE)
    else if bytes[i] == 0x66 then ScanLiteral(bytes, i, FALSE)
    else if bytes[i] == 0x6e then ScanLiteral(bytes, i, NULL)
    else if bytes[i] == 0x2d || IsDigit(bytes[i]) then
      match ScanNumber(bytes, i)
      case None => Err(Invalid)
      case Some((number, end)) => Ok((Num(number), end))
    else Err(Invalid)
  }

  function ScanItems(bytes: seq<Byte>, i: nat, depth: nat): (r: Scan<Items>)
    requires i <= |bytes|
    ensures r.Ok? ==> i < r.value.1 <= |bytes|
    decreases |bytes| - i, 5
  {
    var (value, afterValue) :- ScanValue(bytes, i, depth);
    var next := SkipSpace(bytes, afterValue);
    var after := bytes[afterValue..next];
    if Holds(bytes, next, COMMA) then
      var (items, end) :- ScanItems(bytes, next + 1, depth);
      Ok((Items(value, after, MoreItems(items)), end))
    else if Holds(bytes, next, CLOSE_BRACKET) then Ok((Items(value, after, NoItems), next + 1))
    else Err(Invalid)
  }

  function ScanMembers(bytes: seq<Byte>, i: nat, depth: nat, seen: set<Key>): (r: Scan<Members>)
    requires i <= |bytes|
    ensures r.Ok? ==> i < r.value.1 <= |bytes|
    decreases |bytes| - i, 6
  {
    var (member, next) :- ScanMember(bytes, i, depth, seen);
    if Holds(bytes, next, COMMA) then
      var (members, end) :- ScanMembers(bytes, next + 1, depth, seen + {Unescape(member.key)});
      Ok((Members(member, MoreMembers(members)), end))
    else if Holds(bytes, next, CLOSE_BRACE) then Ok((Members(member, NoMembers), next + 1))
    else Err(Invalid)
  }

  function ScanMember(bytes: seq<Byte>, i: nat, depth: nat, seen: set<Key>): (r: Scan<Member>)
    requires i <= |bytes|
    ensures r.Ok? ==> i < r.value.1 <= |bytes| && ValidText(r.value.0.key)
    decreases |bytes| - i, 5
  {
    var start := SkipSpace(bytes, i);
    match ScanString(bytes, start)
    case None => Err(Invalid)
    case Some((key, afterKey)) =>
      ScanStringSound(bytes, start);
      if Unescape(key) in seen then Err(Invalid)
      else
        var colon := SkipSpace(bytes, afterKey);
        if !Holds(bytes, colon, COLON) then Err(Invalid)
        else
          var (value, afterValue) :- ScanValue(bytes, colon + 1, depth);
          var next := SkipSpace(bytes, afterValue);
          Ok((Member(bytes[i..start], key, bytes[afterKey..colon], value, bytes[afterValue..next]), next))
  }

  /** `reject_duplicate_keys`: one value and nothing but whitespace after it. */
  function RejectDuplicateKeys(bytes: seq<Byte>): Result<(), ScanError> {
    var (json, end) :- ScanValue(bytes, 0, 0);
    if SkipSpace(bytes, end) == |bytes| then Ok(()) else Err(Invalid)
  }

  // Soundness: what is accepted derives from the grammar, with distinct keys and bounded depth.

  /** `json` is what stands between `i` and `end`, and its values stay within the depth limit. */
  ghost predicate Derives(bytes: seq<Byte>, i: nat, depth: nat, json: Json, end: nat) {
    && i <= end <= |bytes| && bytes[i..end] == Print(json)
    && WellFormed(json) && NoDuplicates(json) && depth + Height(json) <= MAX_DEPTH
  }

  ghost predicate DerivesBody(bytes: seq<Byte>, i: nat, depth: nat, body: Body, end: nat) {
    && i <= end <= |bytes| && bytes[i..end] == PrintBody(body)
    && WellFormedBody(body) && NoDuplicates(Json([], body)) && depth + Height(Json([], body)) <= MAX_DEPTH
  }

  ghost predicate DerivesItems(bytes: seq<Byte>, i: nat, depth: nat, items: Items, end: nat) {
    && i <= end <= |bytes| && bytes[i..end] == PrintItems(items)
    && WellFormedItems(items) && NoDuplicatesItems(items) && depth + HeightItems(items) <= MAX_DEPTH
  }

  ghost predicate DerivesMembers(
    bytes: seq<Byte>, i: nat, depth: nat, seen: set<Key>, members: Members, end: nat)
  {
    && i <= end <= |bytes| && bytes[i..end] == PrintMembers(members)
    && WellFormedMembers(members) && NoDuplicatesMembers(members) && depth + HeightMembers(members) <= MAX_DEPTH
    && Fresh(Keys(members), seen)
  }

  /** The keys are distinct and none was seen before. */
  predicate Fresh(keys: seq<Key>, seen: set<Key>) {
    Distinct(keys) && forall i | 0 <= i < |keys| :: keys[i] !in seen
  }

  lemma FreshCons(key: Key, keys: seq<Key>, seen: set<Key>)
    ensures Fresh([key] + keys, seen) <==> key !in seen && Fresh(keys, seen + {key})
  {
    var all := [key] + keys;
    assert forall i | 0 <= i < |keys| :: all[i + 1] == keys[i];
    if Fresh(all, seen) {
      forall i | 0 <= i < |keys| ensures keys[i] !in seen + {key} {
        assert all[0] != all[i + 1];
      }
      assert key == all[0];
      forall i, j | 0 <= i < j < |keys| ensures keys[i] != keys[j] {
        assert all[i + 1] != all[j + 1];
      }
    }
  }

  lemma SkippedIsSpace(bytes: seq<Byte>, i: nat)
    requires i <= |bytes|
    ensures Space(bytes[i..SkipSpace(bytes, i)])
  {
  }

  lemma {:induction false} ValueSound(bytes: seq<Byte>, i: nat, depth: nat)
    requires i <= |bytes| && ScanValue(bytes, i, depth).Ok?
    ensures var (json, end) := ScanValue(bytes, i, depth).value; Derives(bytes, i, depth, json, end)
    decreases |bytes| - i, 4
  {
    hide ScanBody, SkipSpace, Space, WellFormedBody, PrintBody;
    var start := SkipSpace(bytes, i);
    var (json, end) := ScanValue(bytes, i, depth).value;
    BodySound(bytes, start, depth);
    SkippedIsSpace(bytes, i);
    Join(bytes, i, start, end);
    SpaceIrrelevant(json);
  }

  lemma SpaceIrrelevant(json: Json)
    requires WellFormedBody(json.body) && Space(json.space)
    ensures WellFormed(Json([], json.body)) && WellFormed(json)
    ensures NoDuplicates(json) == NoDuplicates(Json([], json.body))
    ensures Height(json) == Height(Json([], json.body))
  {
  }

  lemma {:induction false} BodySound(bytes: seq<Byte>, i: nat, depth: nat)
    requires i <= |bytes| && depth <= MAX_DEPTH && ScanBody(bytes, i, depth).Ok?
    ensures var (body, end) := ScanBody(bytes, i, depth).value; DerivesBody(bytes, i, depth, body, end)
    decreases |bytes| - i, 3
  {
    hide ScanItems, ScanMembers, ScanString, ScanNumber, SkipSpace;
    hide WellFormedItems, WellFormedMembers, PrintItems, PrintMembers, ValidNumber, ValidText, PrintNumber, PrintText;
    var (body, end) := ScanBody(bytes, i, depth).value;
    match body {
      case Array(items) =>
        ItemsSound(bytes, i + 1, depth + 1);
        Join(bytes, i, i + 1, end);
      case Object(members) =>
        MembersSound(bytes, i + 1, depth + 1, {});
        Join(bytes, i, i + 1, end);
      case _ =>
        LeafSound(bytes, i, depth);
    }
  }

  lemma LeafSound(bytes: seq<Byte>, i: nat, depth: nat)
    requires i <= |bytes| && depth <= MAX_DEPTH && ScanBody(bytes, i, depth).Ok?
    requires var body := ScanBody(bytes, i, depth).value.0; !body.Array? && !body.Object?
    ensures var (body, end) := ScanBody(bytes, i, depth).value; DerivesBody(bytes, i, depth, body, end)
  {
    hide ScanItems, ScanMembers, ScanString, ScanNumber, SkipSpace;
    hide ValidNumber, ValidText, PrintNumber, PrintText;
    var (body, end) := ScanBody(bytes, i, depth).value;
    match body {
      case Literal(word) =>
      case Num(number) => ScanNumberSound(bytes, i);
      case Str(text) => ScanStringSound(bytes, i);
      case _ => EmptySound(bytes, i, depth);
    }
  }

  lemma EmptySound(bytes: seq<Byte>, i: nat, depth: nat)
    requires i <= |bytes| && depth <= MAX_DEPTH && ScanBody(bytes, i, depth).Ok?
    requires var body := ScanBody(bytes, i, depth).value.0; body.EmptyArray? || body.EmptyObject?
    ensures var (body, end) := ScanBody(bytes, i, depth).value; DerivesBody(bytes, i, depth, body, end)
  {
    hide ScanBody, SkipSpace, Space, PrintBody;
    var (body, end) := ScanBody(bytes, i, depth).value;
    EmptyScanned(bytes, i, depth);
    SkippedIsSpace(bytes, i + 1);
    Bracketed(bytes, i, end);
    EmptyDerives(bytes, i, depth, body, end);
  }

  lemma Bracketed(bytes: seq<Byte>, i: nat, end: nat)
    requires i + 1 < end <= |bytes|
    ensures bytes[i..end] == [bytes[i]] + (bytes[i + 1..end - 1] + [bytes[end - 1]])
  {
  }

  lemma EmptyDerives(bytes: seq<Byte>, i: nat, depth: nat, body: Body, end: nat)
    requires (body.EmptyArray? || body.EmptyObject?) && Space(body.inside) && depth <= MAX_DEPTH
    requires i <= end <= |bytes|
    requires var square := body.EmptyArray?;
             bytes[i..end] == [if square then OPEN_BRACKET else OPEN_BRACE]
                              + (body.inside + [if square then CLOSE_BRACKET else CLOSE_BRACE])
    ensures DerivesBody(bytes, i, depth, body, end)
  {
    hide Space;
  }

  lemma EmptyScanned(bytes: seq<Byte>, i: nat, depth: nat)
    requires i <= |bytes| && ScanBody(bytes, i, depth).Ok?
    requires var body := ScanBody(bytes, i, depth).value.0; body.EmptyArray? || body.EmptyObject?
    ensures var (body, end) := ScanBody(bytes, i, depth).value;
            && i < |bytes| && end - 1 == SkipSpace(bytes, i + 1) && end <= |bytes|
            && body.inside == bytes[i + 1..end - 1]
            && bytes[i] == (if body.EmptyArray? then OPEN_BRACKET else OPEN_BRACE)
            && bytes[end - 1] == (if body.EmptyArray? then CLOSE_BRACKET else CLOSE_BRACE)
  {
    hide ScanItems, ScanMembers, ScanString, ScanNumber, SkipSpace, IsDigit;
  }

  lemma {:induction false} ItemsSound(bytes: seq<Byte>, i: nat, depth: nat)
    requires i <= |bytes| && ScanItems(bytes, i, depth).Ok?
    ensures var (items, end) := ScanItems(bytes, i, depth).value; DerivesItems(bytes, i, depth, items, end)
    decreases |bytes| - i, 5
  {
    hide ScanValue, SkipSpace, Space, Print, WellFormed, NoDuplicates, Height;
    var (items, end) := ScanItems(bytes, i, depth).value;
    var afterValue := ScanValue(bytes, i, depth).value.1;
    var next := SkipSpace(bytes, afterValue);
    ValueSound(bytes, i, depth);
    SkippedIsSpace(bytes, afterValue);
    if items.rest.MoreItems? {
      ItemsSound(bytes, next + 1, depth);
      assert bytes[next..end] == PrintItemsRest(items.rest) by {
        Join(bytes, next, next + 1, end);
        assert bytes[next..next + 1] == [COMMA];
      }
    } else {
      assert bytes[next..end] == [CLOSE_BRACKET] == PrintItemsRest(items.rest);
    }
    assert bytes[i..end] == PrintItems(items) by {
      Join(bytes, i, afterValue, end);
      Join(bytes, afterValue, next, end);
    }
  }

  lemma {:induction false} MemberSound(bytes: seq<Byte>, i: nat, depth: nat, seen: set<Key>)
    requires i <= |bytes| && ScanMember(bytes, i, depth, seen).Ok?
    ensures var (member, next) := ScanMember(bytes, i, depth, seen).value;
            && i <= next <= |bytes| && bytes[i..next] == PrintMember(member)
            && WellFormedMember(member) && NoDuplicates(member.value) && depth + Height(member.value) <= MAX_DEPTH
            && Unescape(member.key) !in seen
    decreases |bytes| - i, 5
  {
    hide ScanValue, SkipSpace, Space, Print, WellFormed, NoDuplicates, Height;
    hide ScanString, PrintText, ValidText, Unescape;
    var next := ScanMember(bytes, i, depth, seen).value.1;
    var start := SkipSpace(bytes, i);
    ScanStringSound(bytes, start);
    var afterKey := ScanString(bytes, start).value.1;
    var colon := SkipSpace(bytes, afterKey);
    var afterValue := ScanValue(bytes, colon + 1, depth).value.1;
    ValueSound(bytes, colon + 1, depth);
    SkippedIsSpace(bytes, i);
    SkippedIsSpace(bytes, afterKey);
    SkippedIsSpace(bytes, afterValue);
    MemberPieces(bytes, i, start, afterKey, colon, afterValue, next);
  }

  lemma {:induction false} MembersSound(bytes: seq<Byte>, i: nat, depth: nat, seen: set<Key>)
    requires i <= |bytes| && ScanMembers(bytes, i, depth, seen).Ok?
    ensures var (members, end) := ScanMembers(bytes, i, depth, seen).value;
            DerivesMembers(bytes, i, depth, seen, members, end)
    decreases |bytes| - i, 6
  {
    hide ScanMember, Print, PrintMember, WellFormedMember, NoDuplicates, Height, ValidText, Fresh, Unescape;
    var (members, end) := ScanMembers(bytes, i, depth, seen).value;
    var next := ScanMember(bytes, i, depth, seen).value.1;
    MemberSound(bytes, i, depth, seen);
    var key := Unescape(members.first.key);
    if members.rest.MoreMembers? {
      MembersSound(bytes, next + 1, depth, seen + {key});
      FreshCons(key, Keys(members.rest.members), seen);
      assert bytes[next..end] == PrintMembersRest(members.rest) by {
        Join(bytes, next, next + 1, end);
        assert bytes[next..next + 1] == [COMMA];
      }
    } else {
      FreshCons(key, [], seen);
      EmptyIsFresh(seen + {key});
      assert bytes[next..end] == [CLOSE_BRACE] == PrintMembersRest(members.rest);
      assert Keys(members) == [key] + [];
    }
    assert bytes[i..end] == PrintMembers(members) by {
      Join(bytes, i, next, end);
    }
  }

  lemma EmptyIsFresh(seen: set<Key>)
    ensures Fresh([], seen)
  {
  }

  lemma MemberPieces(bytes: seq<Byte>, i: nat, start: nat, afterKey: nat, colon: nat, afterValue: nat, next: nat)
    requires i <= start <= afterKey <= colon < afterValue <= next <= |bytes|
    ensures bytes[i..next]
         == bytes[i..start] + (bytes[start..afterKey] + (bytes[afterKey..colon] + ([bytes[colon]] + (
              bytes[colon + 1..afterValue] + bytes[afterValue..next]))))
  {
    var value := bytes[colon + 1..afterValue] + bytes[afterValue..next];
    assert bytes[colon..next] == [bytes[colon]] + value by {
      Join(bytes, colon, colon + 1, next);
      Join(bytes, colon + 1, afterValue, next);
    }
    var ahead := bytes[afterKey..colon] + ([bytes[colon]] + value);
    assert bytes[start..next] == bytes[start..afterKey] + ahead by {
      Join(bytes, start, afterKey, next);
      Join(bytes, afterKey, colon, next);
    }
    Join(bytes, i, start, next);
  }

  // Completeness: every derivation within the limits is found, and only that one.

  lemma {:induction false} SkipsExactly(bytes: seq<Byte>, i: nat, space: seq<Byte>, rest: seq<Byte>)
    requires Space(space) && (rest == [] || !IsSpace(rest[0]))
    requires i <= |bytes| && bytes[i..] == space + rest
    ensures SkipSpace(bytes, i) == i + |space| == |bytes| - |rest|
    ensures bytes[i..i + |space|] == space && bytes[i + |space|..] == rest
    decreases |space|
  {
    Cut(bytes, i, space, rest);
    if space != [] {
      assert space[0] in space;
      assert space == [space[0]] + space[1..];
      Cut(bytes, i, [space[0]], space[1..] + rest);
      SkipsExactly(bytes, i + 1, space[1..], rest);
    }
  }

  /** What may stand after a value inside a larger text: it neither continues a token nor is a letter or digit. */
  predicate Closes(rest: seq<Byte>) {
    rest == [] || IsSpace(rest[0]) || rest[0] in {COMMA, CLOSE_BRACE, CLOSE_BRACKET}
  }

  /** The first byte of a value's own text. */
  predicate StartsBody(b: Byte) {
    !IsSpace(b) && b !in {COMMA, CLOSE_BRACE, CLOSE_BRACKET}
  }

  lemma BodyStarts(body: Body)
    requires WellFormedBody(body)
    ensures PrintBody(body) != [] && StartsBody(PrintBody(body)[0])
  {
    match body {
      case Num(number) => NumberStarts(number);
      case _ =>
    }
  }

  lemma {:induction false} ValueComplete(bytes: seq<Byte>, i: nat, depth: nat, json: Json, rest: seq<Byte>)
    requires WellFormed(json) && NoDuplicates(json) && depth + Height(json) <= MAX_DEPTH && Closes(rest)
    requires i <= |bytes| && bytes[i..] == Print(json) + rest
    ensures ScanValue(bytes, i, depth) == Ok((json, |bytes| - |rest|))
    decreases json, 3
  {
    hide ScanBody, SkipSpace, Print, PrintBody, WellFormedBody, NoDuplicates, Height, Space;
    BodyAhead(bytes, i, json, rest);
    assert ScanBody(bytes, i + |json.space|, depth) == Ok((json.body, |bytes| - |rest|)) by {
      SpaceIrrelevant(json);
      BodyComplete(bytes, i + |json.space|, depth, json.body, rest);
    }
  }

  lemma BodyAhead(bytes: seq<Byte>, i: nat, json: Json, rest: seq<Byte>)
    requires WellFormed(json) && i <= |bytes| && bytes[i..] == Print(json) + rest
    ensures var start := i + |json.space|;
            && start <= |bytes| && SkipSpace(bytes, i) == start && bytes[i..start] == json.space
            && bytes[start..] == PrintBody(json.body) + rest
  {
    var body := PrintBody(json.body);
    BodyStarts(json.body);
    hide SkipSpace, PrintBody, WellFormedBody;
    Assoc(json.space, body, rest);
    SkipsExactly(bytes, i, json.space, body + rest);
  }

  lemma {:induction false} BodyComplete(bytes: seq<Byte>, i: nat, depth: nat, body: Body, rest: seq<Byte>)
    requires WellFormedBody(body) && Closes(rest)
    requires NoDuplicates(Json([], body)) && depth + Height(Json([], body)) <= MAX_DEPTH
    requires i <= |bytes| && bytes[i..] == PrintBody(body) + rest
    ensures ScanBody(bytes, i, depth) == Ok((body, |bytes| - |rest|))
    decreases body, 2
  {
    match body {
      case Array(items) =>
        ArrayOpens(bytes, i, items, rest);
        ItemsComplete(bytes, i + 1, depth + 1, items, rest);
        hide ScanItems, SkipSpace, PrintItems, WellFormedItems, NoDuplicatesItems, HeightItems;
      case Object(members) =>
        ObjectOpens(bytes, i, members, rest);
        DistinctIsFresh(Keys(members));
        MembersComplete(bytes, i + 1, depth + 1, {}, members, rest);
        hide ScanMembers, SkipSpace, PrintMembers, WellFormedMembers, NoDuplicatesMembers, HeightMembers;
      case _ =>
        LeafComplete(bytes, i, depth, body, rest);
    }
  }

  lemma LeafComplete(bytes: seq<Byte>, i: nat, depth: nat, body: Body, rest: seq<Byte>)
    requires WellFormedBody(body) && Closes(rest) && !body.Array? && !body.Object?
    requires i <= |bytes| && bytes[i..] == PrintBody(body) + rest
    ensures ScanBody(bytes, i, depth) == Ok((body, |bytes| - |rest|))
  {
    hide ScanString, ScanNumber, SkipSpace, PrintNumber, PrintText, ValidNumber, ValidText, Space;
    Cut(bytes, i, PrintBody(body), rest);
    match body {
      case Literal(word) =>
      case Num(number) =>
        NumberStarts(number);
        ScanNumberPrinted(bytes, i, number, rest);
      case Str(text) =>
        TextStarts(text);
        ScanStringPrinted(bytes, i, text, rest);
      case EmptyArray(inside) =>
        EmptyComplete(bytes, i, OPEN_BRACKET, inside, CLOSE_BRACKET, rest);
      case EmptyObject(inside) =>
        EmptyComplete(bytes, i, OPEN_BRACE, inside, CLOSE_BRACE, rest);
    }
  }

  lemma EmptyComplete(bytes: seq<Byte>, i: nat, open: Byte, inside: seq<Byte>, close: Byte, rest: seq<Byte>)
    requires Space(inside) && !IsSpace(close)
    requires i <= |bytes| && bytes[i..] == [open] + (inside + [close]) + rest
    ensures i + 1 <= |bytes| && bytes[i] == open
    ensures var end := SkipSpace(bytes, i + 1);
            Holds(bytes, end, close) && bytes[i + 1..end] == inside && end + 1 == |bytes| - |rest|
  {
    hide SkipSpace, Space;
    Reassociate([open], inside, [close], rest);
    Cut(bytes, i, [open], inside + ([close] + rest));
    SkipsExactly(bytes, i + 1, inside, [close] + rest);
    Cut(bytes, i + 1, inside, [close] + rest);
  }

  lemma ArrayOpens(bytes: seq<Byte>, i: nat, items: Items, rest: seq<Byte>)
    requires WellFormedItems(items)
    requires i <= |bytes| && bytes[i..] == [OPEN_BRACKET] + PrintItems(items) + rest
    ensures i + 1 <= |bytes| && bytes[i] == OPEN_BRACKET && bytes[i + 1..] == PrintItems(items) + rest
    ensures !Holds(bytes, SkipSpace(bytes, i + 1), CLOSE_BRACKET)
  {
    hide PrintItems;
    assert [OPEN_BRACKET] + PrintItems(items) + rest == [OPEN_BRACKET] + (PrintItems(items) + rest);
    Cut(bytes, i, [OPEN_BRACKET], PrintItems(items) + rest);
    ItemsOpen(bytes, i + 1, items, rest);
  }

  lemma ObjectOpens(bytes: seq<Byte>, i: nat, members: Members, rest: seq<Byte>)
    requires WellFormedMembers(members)
    requires i <= |bytes| && bytes[i..] == [OPEN_BRACE] + PrintMembers(members) + rest
    ensures i + 1 <= |bytes| && bytes[i] == OPEN_BRACE && bytes[i + 1..] == PrintMembers(members) + rest
    ensures !Holds(bytes, SkipSpace(bytes, i + 1), CLOSE_BRACE)
  {
    hide PrintMembers;
    assert [OPEN_BRACE] + PrintMembers(members) + rest == [OPEN_BRACE] + (PrintMembers(members) + rest);
    Cut(bytes, i, [OPEN_BRACE], PrintMembers(members) + rest);
    MembersOpen(bytes, i + 1, members, rest);
  }

  lemma Reassociate(a: seq<Byte>, b: seq<Byte>, c: seq<Byte>, d: seq<Byte>)
    ensures a + (b + c) + d == a + (b + (c + d))
  {
  }

  lemma DistinctIsFresh(keys: seq<Key>)
    requires Distinct(keys)
    ensures Fresh(keys, {})
  {
  }

  lemma NumberStarts(number: Number)
    requires ValidNumber(number)
    ensures PrintNumber(number) != [] && (PrintNumber(number)[0] == 0x2d || IsDigit(PrintNumber(number)[0]))
  {
    assert number.whole[0] in number.whole;
    assert PrintNumber(number)[0] == (number.minus + number.whole)[0];
  }

  lemma TextStarts(text: Text)
    ensures PrintText(text) != [] && PrintText(text)[0] == QUOTE
  {
  }

  /** After the opening bracket and whitespace comes the first value, not the closing bracket. */
  lemma ItemsOpen(bytes: seq<Byte>, i: nat, items: Items, rest: seq<Byte>)
    requires WellFormedItems(items)
    requires i <= |bytes| && bytes[i..] == PrintItems(items) + rest
    ensures !Holds(bytes, SkipSpace(bytes, i), CLOSE_BRACKET)
  {
    var body := PrintBody(items.value.body);
    BodyStarts(items.value.body);
    var more := items.after + PrintItemsRest(items.rest) + rest;
    assert PrintItems(items) + rest == items.value.space + (body + more);
    SkipsExactly(bytes, i, items.value.space, body + more);
    Cut(bytes, i + |items.value.space|, body, more);
  }

  lemma MembersOpen(bytes: seq<Byte>, i: nat, members: Members, rest: seq<Byte>)
    requires WellFormedMembers(members)
    requires i <= |bytes| && bytes[i..] == PrintMembers(members) + rest
    ensures !Holds(bytes, SkipSpace(bytes, i), CLOSE_BRACE)
  {
    var member := members.first;
    var key := PrintText(member.key);
    var more := member.middle + ([COLON] + (Print(member.value) + member.after))
                + PrintMembersRest(members.rest) + rest;
    assert PrintMembers(members) + rest == member.before + (key + more);
    SkipsExactly(bytes, i, member.before, key + more);
    Cut(bytes, i + |member.before|, key, more);
  }

  /** A value and the whitespace after it, in front of a separator. */
  lemma {:induction false} SpacedValueComplete(
    bytes: seq<Byte>, i: nat, depth: nat, value: Json, after: seq<Byte>, rest: seq<Byte>)
    requires WellFormed(value) && NoDuplicates(value) && depth + Height(value) <= MAX_DEPTH && Space(after)
    requires rest != [] && rest[0] in {COMMA, CLOSE_BRACE, CLOSE_BRACKET}
    requires i <= |bytes| && bytes[i..] == Print(value) + (after + rest)
    ensures var afterValue := i + |Print(value)|;
            var next := afterValue + |after|;
            && next <= |bytes| && ScanValue(bytes, i, depth) == Ok((value, afterValue))
            && SkipSpace(bytes, afterValue) == next && bytes[afterValue..next] == after && bytes[next..] == rest
    decreases value, 4
  {
    hide ScanValue, SkipSpace, Print, WellFormed, Space, NoDuplicates, Height;
    TextCut(bytes, i, Print(value), after + rest);
    SpaceAhead(bytes, i + |Print(value)|, after, rest, after + rest);
    assert ScanValue(bytes, i, depth) == Ok((value, |bytes| - |after + rest|)) by {
      ClosesAfter(after, rest);
      ValueComplete(bytes, i, depth, value, after + rest);
    }
  }

  /** The whitespace of `ahead`, and what follows it, are found where `ahead` stands. */
  lemma SpaceAhead(bytes: seq<Byte>, start: nat, after: seq<Byte>, rest: seq<Byte>, ahead: seq<Byte>)
    requires Space(after) && rest != [] && !IsSpace(rest[0]) && ahead == after + rest
    requires start <= |bytes| && bytes[start..] == ahead
    ensures var next := start + |after|;
            && next <= |bytes| && SkipSpace(bytes, start) == next
            && bytes[start..next] == after && bytes[next..] == rest
  {
    hide SkipSpace, Space, IsSpace;
    SkipsExactly(bytes, start, after, rest);
  }

  lemma TextCut(bytes: seq<Byte>, i: nat, text: seq<Byte>, ahead: seq<Byte>)
    requires i <= |bytes| && bytes[i..] == text + ahead
    ensures i + |text| == |bytes| - |ahead| && bytes[i + |text|..] == ahead
  {
    Cut(bytes, i, text, ahead);
  }

  lemma {:induction false} ItemsComplete(bytes: seq<Byte>, i: nat, depth: nat, items: Items, rest: seq<Byte>)
    requires WellFormedItems(items) && NoDuplicatesItems(items) && depth + HeightItems(items) <= MAX_DEPTH
    requires i <= |bytes| && bytes[i..] == PrintItems(items) + rest
    ensures ScanItems(bytes, i, depth) == Ok((items, |bytes| - |rest|))
    decreases items, 4
  {
    hide ScanValue, ScanItems, SkipSpace, Print, WellFormed, Space, NoDuplicates, Height, Holds;
    hide PrintItems, PrintItemsRest, WellFormedItems, NoDuplicatesItems, HeightItems;
    var tail := PrintItemsRest(items.rest) + rest;
    var afterValue := i + |Print(items.value)|;
    var next := afterValue + |items.after|;
    ItemsParts(items);
    assert ScanValue(bytes, i, depth) == Ok((items.value, afterValue)) && next <= |bytes|
        && SkipSpace(bytes, afterValue) == next && bytes[afterValue..next] == items.after && bytes[next..] == tail by {
      ItemsAhead(items, rest);
      SpacedValueComplete(bytes, i, depth, items.value, items.after, tail);
    }
    if items.rest.MoreItems? {
      var more := PrintItems(items.rest.items) + rest;
      assert tail == [COMMA] + more by {
        ItemsAhead(items, rest);
      }
      SeparatorAhead(bytes, next, COMMA, more);
      ItemsComplete(bytes, next + 1, depth, items.rest.items, rest);
    } else {
      assert tail == [CLOSE_BRACKET] + rest by {
        ItemsAhead(items, rest);
      }
      SeparatorAhead(bytes, next, CLOSE_BRACKET, rest);
    }
    ScanItemsBy(bytes, i, depth, items, afterValue, next, |bytes| - |rest|);
  }

  lemma SeparatorAhead(bytes: seq<Byte>, i: nat, b: Byte, rest: seq<Byte>)
    requires i <= |bytes| && bytes[i..] == [b] + rest
    ensures i < |bytes| && Holds(bytes, i, b) && bytes[i + 1..] == rest && i + 1 == |bytes| - |rest|
  {
    Cut(bytes, i, [b], rest);
  }

  lemma ScanItemsBy(bytes: seq<Byte>, i: nat, depth: nat, items: Items, afterValue: nat, next: nat, end: nat)
    requires i <= |bytes| && afterValue <= next < |bytes|
    requires ScanValue(bytes, i, depth) == Ok((items.value, afterValue))
    requires SkipSpace(bytes, afterValue) == next && bytes[afterValue..next] == items.after
    requires if items.rest.MoreItems? then
               Holds(bytes, next, COMMA) && ScanItems(bytes, next + 1, depth) == Ok((items.rest.items, end))
             else Holds(bytes, next, CLOSE_BRACKET) && end == next + 1
    ensures ScanItems(bytes, i, depth) == Ok((items, end))
  {
    hide ScanValue, SkipSpace;
  }

  lemma ItemsParts(items: Items)
    requires WellFormedItems(items) && NoDuplicatesItems(items)
    ensures WellFormed(items.value) && NoDuplicates(items.value) && Space(items.after)
    ensures Height(items.value) <= HeightItems(items)
    ensures items.rest.MoreItems? ==>
              && WellFormedItems(items.rest.items) && NoDuplicatesItems(items.rest.items)
              && HeightItems(items.rest.items) <= HeightItems(items)
  {
  }

  lemma ItemsAhead(items: Items, rest: seq<Byte>)
    ensures var tail := PrintItemsRest(items.rest) + rest;
            && PrintItems(items) + rest == Print(items.value) + (items.after + tail)
            && (items.rest.MoreItems? ==> tail == [COMMA] + (PrintItems(items.rest.items) + rest))
            && (!items.rest.MoreItems? ==> tail == [CLOSE_BRACKET] + rest)
  {
    hide Print;
    Assoc(Print(items.value), items.after, PrintItemsRest(items.rest));
    Assoc(Print(items.value), items.after + PrintItemsRest(items.rest), rest);
    Assoc(items.after, PrintItemsRest(items.rest), rest);
    if items.rest.MoreItems? {
      Assoc([COMMA], PrintItems(items.rest.items), rest);
    }
  }

  lemma ClosesAfter(space: seq<Byte>, rest: seq<Byte>)
    requires Space(space) && Closes(rest)
    ensures Closes(space + rest)
  {
    if space != [] {
      assert space[0] in space;
    }
  }

  /** The key and the colon of a printed member are found where they stand. */
  lemma KeyComplete(bytes: seq<Byte>, i: nat, member: Member, rest: seq<Byte>) returns (afterKey: nat, colon: nat)
    requires WellFormedMember(member)
    requires i <= |bytes| && bytes[i..] == PrintMember(member) + rest
    ensures ScanString(bytes, SkipSpace(bytes, i)) == Some((member.key, afterKey))
    ensures bytes[i..SkipSpace(bytes, i)] == member.before
    ensures afterKey <= |bytes| && colon == SkipSpace(bytes, afterKey) && Holds(bytes, colon, COLON)
    ensures bytes[afterKey..colon] == member.middle
    ensures bytes[colon + 1..] == Print(member.value) + (member.after + rest)
  {
    hide ScanString, SkipSpace, Space, Print, WellFormed, ValidText, PrintText, PrintMember, Holds;
    var value := Print(member.value) + (member.after + rest);
    MemberAhead(member, rest);
    afterKey := i + |member.before| + |PrintText(member.key)|;
    TextAhead(bytes, i, member.before, member.key, member.middle + ([COLON] + value));
    colon := SkipSpace(bytes, afterKey);
    ColonComplete(bytes, afterKey, member.middle, value);
  }

  lemma TextAhead(bytes: seq<Byte>, i: nat, before: seq<Byte>, text: Text, ahead: seq<Byte>)
    requires Space(before) && ValidText(text)
    requires i <= |bytes| && bytes[i..] == before + (PrintText(text) + ahead)
    ensures var end := i + |before| + |PrintText(text)|;
            && ScanString(bytes, SkipSpace(bytes, i)) == Some((text, end))
            && bytes[i..SkipSpace(bytes, i)] == before && end <= |bytes| && bytes[end..] == ahead
  {
    hide ScanString, SkipSpace, Space, ValidText, PrintText;
    TextStarts(text);
    SkipsExactly(bytes, i, before, PrintText(text) + ahead);
    ScanStringPrinted(bytes, i + |before|, text, ahead);
    Cut(bytes, i + |before|, PrintText(text), ahead);
  }

  lemma MemberAhead(member: Member, rest: seq<Byte>)
    ensures PrintMember(member) + rest
         == member.before + (PrintText(member.key) + (
              member.middle + ([COLON] + (Print(member.value) + (member.after + rest)))))
  {
    hide Print, PrintText;
  }

  lemma {:induction false} MemberComplete(
    bytes: seq<Byte>, i: nat, depth: nat, seen: set<Key>, member: Member, rest: seq<Byte>)
    requires WellFormedMember(member) && NoDuplicates(member.value) && depth + Height(member.value) <= MAX_DEPTH
    requires Unescape(member.key) !in seen
    requires rest != [] && (rest[0] == COMMA || rest[0] == CLOSE_BRACE)
    requires i <= |bytes| && bytes[i..] == PrintMember(member) + rest
    ensures ScanMember(bytes, i, depth, seen) == Ok((member, |bytes| - |rest|))
    decreases member, 5
  {
    hide ScanString, SkipSpace, ScanValue, Space, Print, WellFormed, ValidText, PrintText, NoDuplicates, Height;
    hide PrintMember, Unescape, ScanMember;
    var afterKey, colon := KeyComplete(bytes, i, member, rest);
    SpacedValueComplete(bytes, colon + 1, depth, member.value, member.after, rest);
    var afterValue := colon + 1 + |Print(member.value)|;
    var next := afterValue + |member.after|;
    assert |bytes[next..]| == |bytes| - next;
    ScanMemberBy(bytes, i, depth, seen, member, afterKey, afterValue, next);
  }

  lemma ScanMemberBy(
    bytes: seq<Byte>, i: nat, depth: nat, seen: set<Key>, member: Member, afterKey: nat, afterValue: nat, next: nat)
    requires i <= |bytes| && afterValue <= next <= |bytes|
    requires ScanString(bytes, SkipSpace(bytes, i)) == Some((member.key, afterKey))
    requires ValidText(member.key) && Unescape(member.key) !in seen
    requires Holds(bytes, SkipSpace(bytes, afterKey), COLON)
    requires ScanValue(bytes, SkipSpace(bytes, afterKey) + 1, depth) == Ok((member.value, afterValue))
    requires SkipSpace(bytes, afterValue) == next
    requires bytes[i..SkipSpace(bytes, i)] == member.before
    requires bytes[afterKey..SkipSpace(bytes, afterKey)] == member.middle
    requires bytes[afterValue..next] == member.after
    ensures ScanMember(bytes, i, depth, seen) == Ok((member, next))
  {
    hide ScanString, SkipSpace, ScanValue, ValidText, Unescape;
  }

  lemma ColonComplete(bytes: seq<Byte>, i: nat, middle: seq<Byte>, ahead: seq<Byte>)
    requires Space(middle) && i <= |bytes| && bytes[i..] == middle + ([COLON] + ahead)
    ensures var colon := SkipSpace(bytes, i);
            bytes[i..colon] == middle && Holds(bytes, colon, COLON) && bytes[colon + 1..] == ahead
  {
    hide SkipSpace, Space;
    SkipsExactly(bytes, i, middle, [COLON] + ahead);
    Cut(bytes, i + |middle|, [COLON], ahead);
  }

  lemma MembersParts(members: Members, seen: set<Key>)
    requires WellFormedMembers(members) && NoDuplicatesMembers(members) && Fresh(Keys(members), seen)
    ensures WellFormedMember(members.first) && NoDuplicates(members.first.value)
    ensures ValidText(members.first.key) && Unescape(members.first.key) !in seen
    ensures Height(members.first.value) <= HeightMembers(members)
    ensures members.rest.MoreMembers? ==>
              var more := members.rest.members;
              && WellFormedMembers(more) && NoDuplicatesMembers(more) && HeightMembers(more) <= HeightMembers(members)
              && Fresh(Keys(more), seen + {Unescape(members.first.key)})
  {
    hide Fresh, Unescape, ValidText, NoDuplicates, Height, WellFormed;
    var key := Unescape(members.first.key);
    FreshCons(key, if members.rest.MoreMembers? then Keys(members.rest.members) else [], seen);
  }

  lemma {:induction false} MembersComplete(
    bytes: seq<Byte>, i: nat, depth: nat, seen: set<Key>, members: Members, rest: seq<Byte>)
    requires WellFormedMembers(members) && NoDuplicatesMembers(members) && Fresh(Keys(members), seen)
    requires depth + HeightMembers(members) <= MAX_DEPTH
    requires i <= |bytes| && bytes[i..] == PrintMembers(members) + rest
    ensures ScanMembers(bytes, i, depth, seen) == Ok((members, |bytes| - |rest|))
    decreases members, 4
  {
    hide ScanMember, ScanMembers, PrintMember, NoDuplicates, Height, Fresh, Unescape, ValidText, Space, WellFormed;
    hide WellFormedMembers, WellFormedMember, NoDuplicatesMembers, HeightMembers, Keys, Holds;
    var first, tail := PrintMember(members.first), PrintMembersRest(members.rest) + rest;
    var next := i + |first|;
    assert bytes[i..] == first + tail by {
      Assoc(first, PrintMembersRest(members.rest), rest);
    }
    assert next == |bytes| - |tail| && bytes[next..] == tail by {
      Cut(bytes, i, first, tail);
    }
    MembersParts(members, seen);
    MemberComplete(bytes, i, depth, seen, members.first, tail);
    if members.rest.MoreMembers? {
      var more := PrintMembers(members.rest.members) + rest;
      assert tail == [COMMA] + more by {
        Assoc([COMMA], PrintMembers(members.rest.members), rest);
      }
      SeparatorAhead(bytes, next, COMMA, more);
      MembersComplete(bytes, next + 1, depth, seen + {Unescape(members.first.key)}, members.rest.members, rest);
    } else {
      SeparatorAhead(bytes, next, CLOSE_BRACE, rest);
    }
    ScanMembersBy(bytes, i, depth, seen, members, next, |bytes| - |rest|);
  }

  lemma ScanMembersBy(bytes: seq<Byte>, i: nat, depth: nat, seen: set<Key>, members: Members, next: nat, end: nat)
    requires i <= |bytes| && next < |bytes| && ValidText(members.first.key)
    requires ScanMember(bytes, i, depth, seen) == Ok((members.first, next))
    requires if members.rest.MoreMembers? then
               && Holds(bytes, next, COMMA)
               && ScanMembers(bytes, next + 1, depth, seen + {Unescape(members.first.key)})
                  == Ok((members.rest.members, end))
             else Holds(bytes, next, CLOSE_BRACE) && end == next + 1
    ensures ScanMembers(bytes, i, depth, seen) == Ok((members, end))
  {
    hide ScanMember, Unescape, ValidText;
  }

  /** A text of the grammar within the depth limit, whose objects have distinct keys, and trailing whitespace. */
  ghost predicate Acceptable(bytes: seq<Byte>, json: Json, tail: seq<Byte>) {
    && bytes == Print(json) + tail && Space(tail)
    && WellFormed(json) && NoDuplicates(json) && Height(json) <= MAX_DEPTH
  }

  /**
   * The scanner accepts a byte string exactly when it derives from the grammar, no object at any level
   * has two keys equal after unescaping, and no value sits deeper than 256.
   */
  lemma ScannerIff(bytes: seq<Byte>)
    ensures RejectDuplicateKeys(bytes).Ok? <==> exists json, tail :: Acceptable(bytes, json, tail)
  {
    if RejectDuplicateKeys(bytes).Ok? {
      var (json, end) := ScanValue(bytes, 0, 0).value;
      ValueSound(bytes, 0, 0);
      SkippedIsSpace(bytes, end);
      Join(bytes, 0, end, |bytes|);
      assert bytes[0..|bytes|] == bytes;
      assert Acceptable(bytes, json, bytes[end..|bytes|]);
    }
    if json, tail :| Acceptable(bytes, json, tail) {
      PrintedIsAccepted(bytes, json, tail);
    }
  }

  lemma PrintedIsAccepted(bytes: seq<Byte>, json: Json, tail: seq<Byte>)
    requires Acceptable(bytes, json, tail)
    ensures RejectDuplicateKeys(bytes).Ok?
    ensures ScanValue(bytes, 0, 0) == Ok((json, |bytes| - |tail|))
  {
    assert bytes[0..] == Print(json) + tail;
    ClosesAfter(tail, []);
    assert tail + [] == tail;
    ValueComplete(bytes, 0, 0, json, tail);
    Cut(bytes, 0, Print(json), tail);
    SkipsExactly(bytes, |Print(json)|, tail, []);
  }

  /** An accepted byte string has exactly one derivation. */
  lemma DerivationIsUnique(bytes: seq<Byte>, json1: Json, tail1: seq<Byte>, json2: Json, tail2: seq<Byte>)
    requires Acceptable(bytes, json1, tail1) && Acceptable(bytes, json2, tail2)
    ensures json1 == json2 && tail1 == tail2
  {
    PrintedIsAccepted(bytes, json1, tail1);
    PrintedIsAccepted(bytes, json2, tail2);
    assert tail1 == bytes[|bytes| - |tail1|..] && tail2 == bytes[|bytes| - |tail2|..];
  }

  /** One turn of the search for the closing quote. */
  lemma FindCloseAt(bytes: seq<Byte>, i: nat)
    ensures FindClose(bytes, i)
         == if i >= |bytes| then None
            else if bytes[i] == QUOTE then Some(i + 1)
            else if bytes[i] == ESCAPE then
              FindClose(bytes, if i + 1 < |bytes| && bytes[i + 1] == 0x75 then i + 6 else i + 2)
            else if bytes[i] < 0x20 then None
            else FindClose(bytes, i + 1)
  {
  }

  // The scanner as the protocol runs it: one offset moved in loops.

  ghost predicate Agrees<T>(r: Result<(), ScanError>, offset: nat, scan: Scan<T>) {
    match scan
    case Ok((_, end)) => r.Ok? && offset == end
    case Err(error) => r == Err(error)
  }

  class JsonScanner {
    const bytes: seq<Byte>
    var offset: nat

    constructor (bytes: seq<Byte>)
      ensures this.bytes == bytes && offset == 0
    {
      this.bytes := bytes;
      offset := 0;
    }

    method Whitespace()
      requires offset <= |bytes|
      modifies this
      ensures offset == SkipSpace(bytes, old(offset))
    {
      while offset < |bytes| && IsSpace(bytes[offset])
        invariant offset <= |bytes| && SkipSpace(bytes, offset) == SkipSpace(bytes, old(offset))
      {
        offset := offset + 1;
      }
    }

    method Value(depth: nat) returns (r: Result<(), ScanError>)
      requires offset <= |bytes|
      modifies this
      ensures Agrees(r, offset, ScanValue(bytes, old(offset), depth))
      decreases |bytes| - offset, 4
    {
      if depth > MAX_DEPTH {
        return Err(TooDeep);
      }
      Whitespace();
      r := ReadBody(depth);
    }

    /** The dispatch on the first byte of a value. */
    method ReadBody(depth: nat) returns (r: Result<(), ScanError>)
      requires offset <= |bytes|
      modifies this
      ensures Agrees(r, offset, ScanBody(bytes, old(offset), depth))
      decreases |bytes| - offset, 3
    {
      hide SkipSpace, ScanString, ScanNumber, ScanMembers, ScanItems;
      if offset == |bytes| {
        return Err(Invalid);
      }
      var b := bytes[offset];
      if b == OPEN_BRACE {
        r := ReadObject(depth + 1);
      } else if b == OPEN_BRACKET {
        r := ReadArray(depth + 1);
      } else if b == QUOTE {
        var _ :- ReadString();
        r := Ok(());
      } else if b == 0x74 {
        r := ReadLiteral(TRUE);
      } else if b == 0x66 {
        r := ReadLiteral(FALSE);
      } else if b == 0x6e {
        r := ReadLiteral(NULL);
      } else if b == 0x2d || IsDigit(b) {
        r := ReadNumber();
      } else {
        r := Err(Invalid);
      }
    }

    method ReadObject(depth: nat) returns (r: Result<(), ScanError>)
      requires offset < |bytes| && bytes[offset] == OPEN_BRACE && depth > 0
      modifies this
      ensures Agrees(r, offset, ScanBody(bytes, old(offset), depth - 1))
      decreases |bytes| - offset, 2
    {
      hide SkipSpace, ScanMembers, ScanItems, ScanString, ScanNumber;
      ghost var origin := offset;
      offset := offset + 1;
      Whitespace();
      if offset < |bytes| && bytes[offset] == CLOSE_BRACE {
        offset := offset + 1;
        return Ok(());
      }
      SkipTwice(bytes, origin + 1, depth, {});
      r := ReadMembers(depth);
    }

    /** The object loop. */
    method ReadMembers(depth: nat) returns (r: Result<(), ScanError>)
      requires offset <= |bytes|
      modifies this
      ensures Agrees(r, offset, ScanMembers(bytes, old(offset), depth, {}))
      decreases |bytes| - offset, 6
    {
      hide ScanMember, Unescape, ValidText;
      var keys: set<Key> := {};
      while true
        invariant old(offset) <= offset <= |bytes|
        invariant Same(ScanMembers(bytes, old(offset), depth, {}), ScanMembers(bytes, offset, depth, keys))
        decreases |bytes| - offset
      {
        var key := ReadMember(depth, keys);
        if key.Err? {
          return Err(key.error);
        }
        keys := keys + {key.value};
        if offset < |bytes| && bytes[offset] == COMMA {
          offset := offset + 1;
        } else if offset < |bytes| && bytes[offset] == CLOSE_BRACE {
          offset := offset + 1;
          return Ok(());
        } else {
          return Err(Invalid);
        }
      }
    }

    /** One turn of the object loop, up to the separator. */
    method ReadMember(depth: nat, keys: set<Key>) returns (r: Result<Key, ScanError>)
      requires offset <= |bytes|
      modifies this
      ensures match ScanMember(bytes, old(offset), depth, keys)
              case Ok((member, end)) => r == Ok(Unescape(member.key)) && offset == end
              case Err(error) => r == Err(error)
      decreases |bytes| - offset, 5
    {
      hide SkipSpace, ScanString, ScanValue, Unescape, ValidText;
      Whitespace();
      var key :- ReadString();
      if key in keys {
        return Err(Invalid);
      }
      Whitespace();
      if !(offset < |bytes| && bytes[offset] == COLON) {
        return Err(Invalid);
      }
      offset := offset + 1;
      var _ :- Value(depth);
      Whitespace();
      return Ok(key);
    }

    method ReadArray(depth: nat) returns (r: Result<(), ScanError>)
      requires offset < |bytes| && bytes[offset] == OPEN_BRACKET && depth > 0
      modifies this
      ensures Agrees(r, offset, ScanBody(bytes, old(offset), depth - 1))
      decreases |bytes| - offset, 2
    {
      hide SkipSpace, ScanMembers, ScanItems, ScanString, ScanNumber;
      ghost var origin := offset;
      offset := offset + 1;
      Whitespace();
      if offset < |bytes| && bytes[offset] == CLOSE_BRACKET {
        offset := offset + 1;
        return Ok(());
      }
      SkipTwice(bytes, origin + 1, depth, {});
      r := ReadItems(depth);
    }

    /** The array loop. */
    method ReadItems(depth: nat) returns (r: Result<(), ScanError>)
      requires offset <= |bytes|
      modifies this
      ensures Agrees(r, offset, ScanItems(bytes, old(offset), depth))
      decreases |bytes| - offset, 6
    {
      hide ScanValue, SkipSpace;
      while true
        invariant old(offset) <= offset <= |bytes|
        invariant Same(ScanItems(bytes, old(offset), depth), ScanItems(bytes, offset, depth))
        decreases |bytes| - offset
      {
        var value := Value(depth);
        if value.Err? {
          return value;
        }
        Whitespace();
        if offset < |bytes| && bytes[offset] == COMMA {
          offset := offset + 1;
        } else if offset < |bytes| && bytes[offset] == CLOSE_BRACKET {
          offset := offset + 1;
          return Ok(());
        } else {
          return Err(Invalid);
        }
      }
    }

    method ReadString() returns (r: Result<Key, ScanError>)
      requires offset <= |bytes|
      modifies this
      ensures match ScanString(bytes, old(offset))
              case None => r == Err(Invalid)
              case Some((text, end)) => ValidText(text) && r == Ok(Unescape(text)) && offset == end
    {
      hide FindClose, LibraryString, ReadPieces, PrintText, ValidText, Unescape;
      var start := offset;
      if !(offset < |bytes| && bytes[offset] == QUOTE) {
        return Err(Invalid);
      }
      offset := offset + 1;
      while true
        invariant start < offset && FindClose(bytes, start + 1) == FindClose(bytes, offset)
        decreases if offset <= |bytes| then |bytes| + 1 - offset else 0
      {
        FindCloseAt(bytes, offset);
        if offset >= |bytes| {
          return Err(Invalid);
        }
        var b := bytes[offset];
        if b == QUOTE {
          offset := offset + 1;
          match LibraryString(bytes[start..offset]) {
            case None => return Err(Invalid);
            case Some(text) =>
              LibraryStringSound(bytes[start..offset]);
              return Ok(Unescape(text));
          }
        } else if b == ESCAPE {
          offset := offset + 1;
          if offset < |bytes| && bytes[offset] == 0x75 {
            offset := offset + 5;
          } else {
            offset := offset + 1;
          }
        } else if b < 0x20 {
          return Err(Invalid);
        } else {
          offset := offset + 1;
        }
      }
    }

    method ReadLiteral(word: seq<Byte>) returns (r: Result<(), ScanError>)
      requires offset <= |bytes|
      modifies this
      ensures Agrees(r, offset, ScanLiteral(bytes, old(offset), word))
    {
      if offset + |word| <= |bytes| && bytes[offset..offset + |word|] == word {
        offset := offset + |word|;
        return Ok(());
      }
      return Err(Invalid);
    }

    method ReadDigits()
      requires offset <= |bytes|
      modifies this
      ensures offset == DigitsEnd(bytes, old(offset))
    {
      while offset < |bytes| && IsDigit(bytes[offset])
        invariant offset <= |bytes| && DigitsEnd(bytes, offset) == DigitsEnd(bytes, old(offset))
      {
        offset := offset + 1;
      }
    }

    method ReadNumber() returns (r: Result<(), ScanError>)
      requires offset <= |bytes|
      modifies this
      ensures match ScanNumber(bytes, old(offset))
              case None => r == Err(Invalid)
              case Some((_, end)) => r.Ok? && offset == end
    {
      var start := offset;
      if offset < |bytes| && bytes[offset] == 0x2d {
        offset := offset + 1;
      }
      if offset == |bytes| || !IsDigit(bytes[offset]) {
        return Err(Invalid);
      }
      if bytes[offset] == 0x30 {
        offset := offset + 1;
      } else {
        offset := offset + 1;
        ReadDigits();
      }
      var _ :- ReadFraction();
      var _ :- ReadExponent();
      return if offset == start then Err(Invalid) else Ok(());
    }

    method ReadFraction() returns (r: Result<(), ScanError>)
      requires offset <= |bytes|
      modifies this
      ensures match ScanFraction(bytes, old(offset))
              case None => r == Err(Invalid)
              case Some((_, end)) => r.Ok? && offset == end
    {
      if offset < |bytes| && bytes[offset] == 0x2e {
        offset := offset + 1;
        var fraction := offset;
        ReadDigits();
        if offset == fraction {
          return Err(Invalid);
        }
      }
      return Ok(());
    }

    method ReadExponent() returns (r: Result<(), ScanError>)
      requires offset <= |bytes|
      modifies this
      ensures match ScanExponent(bytes, old(offset))
              case None => r == Err(Invalid)
              case Some((_, end)) => r.Ok? && offset == end
    {
      if offset < |bytes| && (bytes[offset] == 0x65 || bytes[offset] == 0x45) {
        offset := offset + 1;
        if offset < |bytes| && (bytes[offset] == 0x2b || bytes[offset] == 0x2d) {
          offset := offset + 1;
        }
        var exponent := offset;
        ReadDigits();
        if offset == exponent {
          return Err(Invalid);
        }
      }
      return Ok(());
    }
  }

  /** Two scans that both fail alike or end at the same place. */
  ghost predicate Same<T>(one: Scan<T>, other: Scan<T>) {
    match one
    case Ok((_, end)) => other.Ok? && other.value.1 == end
    case Err(error) => other == Err(error)
  }

  /** Whitespace already skipped is no obstacle to the first key or value. */
  lemma SkipTwice(bytes: seq<Byte>, i: nat, depth: nat, seen: set<Key>)
    requires i <= |bytes|
    ensures Same(ScanMembers(bytes, i, depth, seen), ScanMembers(bytes, SkipSpace(bytes, i), depth, seen))
    ensures Same(ScanItems(bytes, i, depth), ScanItems(bytes, SkipSpace(bytes, i), depth))
  {
    SkipTwiceMembers(bytes, i, depth, seen);
    SkipTwiceItems(bytes, i, depth);
    hide ScanMembers, ScanItems;
  }

  lemma SkipTwiceItems(bytes: seq<Byte>, i: nat, depth: nat)
    requires i <= |bytes|
    ensures Same(ScanItems(bytes, i, depth), ScanItems(bytes, SkipSpace(bytes, i), depth))
  {
    SkipTwiceValue(bytes, i, depth);
    hide ScanValue, SkipSpace;
  }

  lemma SkipTwiceMembers(bytes: seq<Byte>, i: nat, depth: nat, seen: set<Key>)
    requires i <= |bytes|
    ensures Same(ScanMembers(bytes, i, depth, seen), ScanMembers(bytes, SkipSpace(bytes, i), depth, seen))
  {
    hide ScanMembers, ScanMember, SkipSpace, Unescape, ValidText;
    SkipTwiceMember(bytes, i, depth, seen);
    MembersBy(bytes, i, depth, seen);
    MembersBy(bytes, SkipSpace(bytes, i), depth, seen);
  }

  /** One turn of the members scan, by the member it finds. */
  lemma MembersBy(bytes: seq<Byte>, i: nat, depth: nat, seen: set<Key>)
    requires i <= |bytes|
    ensures var member := ScanMember(bytes, i, depth, seen);
            var members := ScanMembers(bytes, i, depth, seen);
            if member.Err? then members == Err(member.error)
            else
              var next := member.value.1;
              if Holds(bytes, next, COMMA) then
                var rest := ScanMembers(bytes, next + 1, depth, seen + {Unescape(member.value.0.key)});
                Same(rest, members)
              else if Holds(bytes, next, CLOSE_BRACE) then members.Ok? && members.value.1 == next + 1
              else members == Err(Invalid)
  {
    hide ScanMember, SkipSpace, Unescape, ValidText;
  }

  lemma SkipTwiceValue(bytes: seq<Byte>, i: nat, depth: nat)
    requires i <= |bytes|
    ensures Same(ScanValue(bytes, i, depth), ScanValue(bytes, SkipSpace(bytes, i), depth))
  {
    hide ScanBody;
    assert SkipSpace(bytes, SkipSpace(bytes, i)) == SkipSpace(bytes, i);
  }

  lemma SkipTwiceMember(bytes: seq<Byte>, i: nat, depth: nat, seen: set<Key>)
    requires i <= |bytes|
    ensures var one, other := ScanMember(bytes, i, depth, seen), ScanMember(bytes, SkipSpace(bytes, i), depth, seen);
            Same(one, other) && (one.Ok? ==> one.value.0.key == other.value.0.key)
  {
    hide ScanString, ScanValue, Unescape, ValidText;
    assert SkipSpace(bytes, SkipSpace(bytes, i)) == SkipSpace(bytes, i);
  }

  method RunRejectDuplicateKeys(bytes: seq<Byte>) returns (r: Result<(), ScanError>)
    ensures r == RejectDuplicateKeys(bytes)
  {
    var parser := new JsonScanner(bytes);
    var _ :- parser.Value(0);
    parser.Whitespace();
    return if parser.offset == |bytes| then Ok(()) else Err(Invalid);
  }
}
