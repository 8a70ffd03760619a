/** The grammar of RFC 8259, and exactly when an accepted text conforms to it. */
module JsonGrammar {
  import opened Bytes
  import opened JsonText
  import opened JsonScanners

  const FORM_FEED: Byte := 0x0c

  /** The four whitespace characters of section 2. */
  predicate RfcSpace(bytes: seq<Byte>) {
    forall b | b in bytes :: b == 0x20 || b == 0x09 || b == 0x0a || b == 0x0d
  }

  /** A character of a string, section 7; an escaped surrogate need not be paired. */
  predicate RfcPiece(piece: Piece) {
    match piece
    case Raw(c) => c >= 0x20 && c != QUOTE && c != ESCAPE
    case Short(letter) => ShortEscape(letter).Some?
    case Unicode(hex) => IsHex4(hex)
    case Pair(high, low) => IsHex4(high) && IsHex4(low)
  }

  predicate RfcText(text: Text) {
    forall piece | piece in text :: RfcPiece(piece)
  }

  /** A value with the whitespace before it, sections 2 to 7, to any depth and with any keys. */
  predicate Rfc(json: Json) {
    RfcSpace(json.space) && RfcBody(json.body)
  }

  predicate RfcBody(body: Body) {
    match body
    case Literal(word) => word == TRUE || word == FALSE || word == NULL
    case Num(number) => ValidNumber(number)
    case Str(text) => RfcText(text)
    case EmptyArray(inside) => RfcSpace(inside)
    case Array(items) => RfcItems(items)
    case EmptyObject(inside) => RfcSpace(inside)
    case Object(members) => RfcMembers(members)
  }

  predicate RfcItems(items: Items) {
    Rfc(items.value) && RfcSpace(items.after) && (items.rest.MoreItems? ==> RfcItems(items.rest.items))
  }

  predicate RfcMembers(members: Members) {
    var member := members.first;
    && RfcSpace(member.before) && RfcText(member.key) && RfcSpace(member.middle)
    && Rfc(member.value) && RfcSpace(member.after)
    && (members.rest.MoreMembers? ==> RfcMembers(members.rest.members))
  }

  /** The byte string is a JSON text of the standard. */
  ghost predicate Conforms(bytes: seq<Byte>) {
    exists json, tail :: bytes == Print(json) + tail && Rfc(json) && RfcSpace(tail)
  }

  predicate NoFeed(bytes: seq<Byte>) {
    FORM_FEED !in bytes
  }

  lemma NoFeedJoins(a: seq<Byte>, b: seq<Byte>)
    ensures NoFeed(a + b) <==> NoFeed(a) && NoFeed(b)
  {
  }

  /** A piece of a string prints without a form feed. */
  lemma PieceHasNoFeed(piece: Piece)
    requires RfcPiece(piece)
    ensures NoFeed(PrintPiece(piece))
  {
    match piece
    case Raw(c) =>
    case Short(letter) =>
    case Unicode(hex) => HexHasNoFeed(hex);
    case Pair(high, low) =>
      HexHasNoFeed(high);
      HexHasNoFeed(low);
  }

  lemma HexHasNoFeed(hex: seq<Byte>)
    requires IsHex4(hex)
    ensures NoFeed(hex)
  {
  }

  lemma {:induction false} TextHasNoFeed(text: Text)
    requires RfcText(text)
    ensures NoFeed(PrintPieces(text)) && NoFeed(PrintText(text))
  {
    if text != [] {
      PieceHasNoFeed(text[0]);
      TextHasNoFeed(text[1..]);
    }
  }

  lemma NumberHasNoFeed(number: Number)
    requires ValidNumber(number)
    ensures NoFeed(PrintNumber(number))
  {
    assert forall digits: seq<Byte> :: Digits(digits) ==> NoFeed(digits);
    hide Digits;
  }

  /** A text of the standard has no form feed anywhere. */
  lemma {:induction false} RfcHasNoFeed(json: Json)
    requires Rfc(json)
    ensures NoFeed(Print(json))
    decreases json, 2
  {
    hide PrintText, PrintNumber, ValidNumber, RfcText;
    match json.body {
      case Num(number) => NumberHasNoFeed(number);
      case Str(text) => TextHasNoFeed(text);
      case Array(items) => RfcItemsHaveNoFeed(items);
      case Object(members) => RfcMembersHaveNoFeed(members);
      case _ =>
    }
  }

  lemma {:induction false} RfcItemsHaveNoFeed(items: Items)
    requires RfcItems(items)
    ensures NoFeed(PrintItems(items))
    decreases items, 1
  {
    hide Print, Rfc;
    RfcHasNoFeed(items.value);
    if items.rest.MoreItems? {
      RfcItemsHaveNoFeed(items.rest.items);
    }
  }

  lemma {:induction false} RfcMembersHaveNoFeed(members: Members)
    requires RfcMembers(members)
    ensures NoFeed(PrintMembers(members))
    decreases members, 1
  {
    hide Print, Rfc, PrintText, RfcText;
    TextHasNoFeed(members.first.key);
    RfcHasNoFeed(members.first.value);
    if members.rest.MoreMembers? {
      RfcMembersHaveNoFeed(members.rest.members);
    }
  }

  /** Without a form feed the scanner's whitespace is the standard's. */
  lemma {:induction false} WithoutFeedIsRfc(json: Json)
    requires WellFormed(json) && NoFeed(Print(json))
    ensures Rfc(json)
    decreases json, 2
  {
    hide PrintText, PrintNumber, ValidNumber, RfcText, ValidText;
    NoFeedJoins(json.space, PrintBody(json.body));
    match json.body {
      case Str(text) => ValidIsRfc(text);
      case Array(items) => WithoutFeedAreRfc(items);
      case Object(members) => MembersWithoutFeedAreRfc(members);
      case _ =>
    }
  }

  lemma ValidIsRfc(text: Text)
    requires ValidText(text)
    ensures RfcText(text)
  {
  }

  lemma {:induction false} WithoutFeedAreRfc(items: Items)
    requires WellFormedItems(items) && NoFeed(PrintItems(items))
    ensures RfcItems(items)
    decreases items, 1
  {
    hide Print, Rfc, WellFormed;
    WithoutFeedIsRfc(items.value);
    if items.rest.MoreItems? {
      WithoutFeedAreRfc(items.rest.items);
    }
  }

  lemma {:induction false} MembersWithoutFeedAreRfc(members: Members)
    requires WellFormedMembers(members) && NoFeed(PrintMembers(members))
    ensures RfcMembers(members)
    decreases members, 1
  {
    hide Print, Rfc, WellFormed, PrintText, RfcText, ValidText;
    ValidIsRfc(members.first.key);
    WithoutFeedIsRfc(members.first.value);
    if members.rest.MoreMembers? {
      MembersWithoutFeedAreRfc(members.rest.members);
    }
  }

  /** An accepted byte string is a JSON text of the standard exactly when it contains no form feed. */
  lemma AcceptedConformsIff(bytes: seq<Byte>)
    requires RejectDuplicateKeys(bytes).Ok?
    ensures Conforms(bytes) <==> FORM_FEED !in bytes
  {
    hide Print, Rfc, WellFormed, NoDuplicates, Height;
    if Conforms(bytes) {
      var json, tail :| bytes == Print(json) + tail && Rfc(json) && RfcSpace(tail);
      RfcHasNoFeed(json);
      NoFeedJoins(Print(json), tail);
    }
    if FORM_FEED !in bytes {
      ScannerIff(bytes);
      var json, tail :| Acceptable(bytes, json, tail);
      NoFeedJoins(Print(json), tail);
      WithoutFeedIsRfc(json);
      assert bytes == Print(json) + tail && Rfc(json) && RfcSpace(tail);
    }
  }

  lemma LiteralIsAcceptable(space: seq<Byte>, word: seq<Byte>)
    requires Space(space) && (word == TRUE || word == FALSE || word == NULL)
    ensures Acceptable(space + word, Json(space, Literal(word)), [])
  {
    assert Print(Json(space, Literal(word))) + [] == space + word;
  }

  /** A form feed before `null` is accepted, and is no JSON text of the standard. */
  lemma FeedIsAccepted()
    ensures RejectDuplicateKeys([FORM_FEED] + NULL).Ok?
    ensures !Conforms([FORM_FEED] + NULL)
  {
    var bytes := [FORM_FEED] + NULL;
    LiteralIsAcceptable([FORM_FEED], NULL);
    ScannerIff(bytes);
    AcceptedConformsIff(bytes);
    assert bytes[0] == FORM_FEED;
  }
}
