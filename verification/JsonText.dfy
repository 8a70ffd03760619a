/** JSON strings and numbers: their grammar, and how the scanner and the JSON library read them. */
module JsonText {
  import opened Results
  import opened Bytes
  import opened Utf16

  const QUOTE: Byte := 0x22
  const ESCAPE: Byte := 0x5c

  // UTF-8.

  function Utf8(c: Scalar): (bytes: seq<Byte>)
    ensures 1 <= |bytes| <= 4
  {
    if c < 0x80 then [c]
    else if c < 0x800 then [0xC0 + c / 0x40, 0x80 + c % 0x40]
    else if c < 0x1_0000 then [0xE0 + c / 0x1000, 0x80 + c / 0x40 % 0x40, 0x80 + c % 0x40]
    else [0xF0 + c / 0x4_0000, 0x80 + c / 0x1000 % 0x40, 0x80 + c / 0x40 % 0x40, 0x80 + c % 0x40]
  }

  /** The scalar value the bytes at `i` would encode, going by the lead byte alone. */
  function Utf8Guess(bytes: seq<Byte>, i: nat): Option<int>
    requires i < |bytes|
  {
    var lead := bytes[i] as int;
    if lead < 0x80 then Some(lead)
    else if 0xC0 <= lead < 0xE0 && i + 1 < |bytes| then Some((lead - 0xC0) * 0x40 + (bytes[i + 1] as int - 0x80))
    else if 0xE0 <= lead < 0xF0 && i + 2 < |bytes| then
      Some((lead - 0xE0) * 0x1000 + (bytes[i + 1] as int - 0x80) * 0x40 + (bytes[i + 2] as int - 0x80))
    else if 0xF0 <= lead < 0xF8 && i + 3 < |bytes| then
      Some((lead - 0xF0) * 0x4_0000 + (bytes[i + 1] as int - 0x80) * 0x1000
           + (bytes[i + 2] as int - 0x80) * 0x40 + (bytes[i + 3] as int - 0x80))
    else None
  }

  /** The scalar value encoded at `i`; overlong, surrogate and truncated forms are refused. */
  function DecodeUtf8(bytes: seq<Byte>, i: nat): (r: Option<Scalar>)
    requires i < |bytes|
    ensures r.Some? ==> i + |Utf8(r.value)| <= |bytes| && bytes[i..i + |Utf8(r.value)|] == Utf8(r.value)
  {
    var guess := Utf8Guess(bytes, i);
    if guess.None? || !(0 <= guess.value < 0xD800 || 0xE000 <= guess.value < 0x11_0000) then None
    else
      var c: Scalar := guess.value;
      if i + |Utf8(c)| <= |bytes| && bytes[i..i + |Utf8(c)|] == Utf8(c) then Some(c) else None
  }

  lemma Utf8GuessRight(bytes: seq<Byte>, i: nat, c: Scalar)
    requires i + |Utf8(c)| <= |bytes|
    requires forall k | i <= k < i + |Utf8(c)| :: bytes[k] == Utf8(c)[k - i]
    ensures Utf8Guess(bytes, i) == Some(c as int)
  {
    assert bytes[i] == Utf8(c)[0];
    if 0x80 <= c < 0x800 {
      assert bytes[i + 1] == Utf8(c)[1];
    } else if 0x800 <= c < 0x1_0000 {
      assert bytes[i + 1] == Utf8(c)[1] && bytes[i + 2] == Utf8(c)[2];
      Sixes(c);
    } else if c >= 0x1_0000 {
      assert bytes[i + 1] == Utf8(c)[1] && bytes[i + 2] == Utf8(c)[2] && bytes[i + 3] == Utf8(c)[3];
      Sixes(c);
    }
  }

  /** A number in groups of six bits. */
  lemma Sixes(c: nat)
    ensures c / 0x1000 * 0x1000 + c / 0x40 % 0x40 * 0x40 + c % 0x40 == c
    ensures c / 0x4_0000 * 0x4_0000 + c / 0x1000 % 0x40 * 0x1000 + c / 0x40 % 0x40 * 0x40 + c % 0x40 == c
  {
    var one, two, three := c / 0x40, c / 0x1000, c / 0x4_0000;
    assert c == 0x40 * one + c % 0x40;
    assert two == one / 0x40 && one == 0x40 * two + one % 0x40;
    assert three == two / 0x40 && two == 0x40 * three + two % 0x40;
  }

  lemma DecodeUtf8Printed(bytes: seq<Byte>, i: nat, c: Scalar)
    requires i + |Utf8(c)| <= |bytes| && bytes[i..i + |Utf8(c)|] == Utf8(c)
    ensures DecodeUtf8(bytes, i) == Some(c)
  {
    At(bytes, i, Utf8(c));
    Utf8GuessRight(bytes, i, c);
  }

  // Strings.

  /** One unit of a string's source text. */
  datatype Piece =
    | Raw(c: Scalar)
    | Short(letter: Byte)
    | Unicode(hex: seq<Byte>)
    | Pair(high: seq<Byte>, low: seq<Byte>)

  type Text = seq<Piece>

  function HexValue(digit: Byte): Option<nat> {
    if 0x30 <= digit <= 0x39 then Some(digit - 0x30)
    else if 0x61 <= digit <= 0x66 then Some(digit - 0x61 + 10)
    else if 0x41 <= digit <= 0x46 then Some(digit - 0x41 + 10)
    else None
  }

  predicate IsHex4(hex: seq<Byte>) {
    |hex| == 4 && forall k | 0 <= k < 4 :: HexValue(hex[k]).Some?
  }

  function Hex4(hex: seq<Byte>): nat
    requires IsHex4(hex)
  {
    HexValue(hex[0]).value * 0x1000 + HexValue(hex[1]).value * 0x100
    + HexValue(hex[2]).value * 0x10 + HexValue(hex[3]).value
  }

  function ShortEscape(letter: Byte): Option<Scalar> {
    match letter
    case 0x22 => Some(0x22)
    case 0x5c => Some(0x5c)
    case 0x2f => Some(0x2f)
    case 0x62 => Some(0x08)
    case 0x66 => Some(0x0c)
    case 0x6e => Some(0x0a)
    case 0x72 => Some(0x0d)
    case 0x74 => Some(0x09)
    case _ => None
  }

  predicate ValidPiece(piece: Piece) {
    match piece
    case Raw(c) => c >= 0x20 && c != QUOTE && c != ESCAPE
    case Short(letter) => ShortEscape(letter).Some?
    case Unicode(hex) => IsHex4(hex) && !(0xD800 <= Hex4(hex) < 0xE000)
    case Pair(high, low) =>
      && IsHex4(high) && 0xD800 <= Hex4(high) < 0xDC00
      && IsHex4(low) && 0xDC00 <= Hex4(low) < 0xE000
  }

  function PrintPiece(piece: Piece): (bytes: seq<Byte>)
    ensures |bytes| >= 1
  {
    match piece
    case Raw(c) => Utf8(c)
    case Short(letter) => [ESCAPE, letter]
    case Unicode(hex) => [ESCAPE, 0x75] + hex
    case Pair(high, low) => [ESCAPE, 0x75] + high + ([ESCAPE, 0x75] + low)
  }

  /** The character a piece stands for. */
  function Meaning(piece: Piece): Scalar
    requires ValidPiece(piece)
  {
    match piece
    case Raw(c) => c
    case Short(letter) => ShortEscape(letter).value
    case Unicode(hex) => Hex4Scalar(hex)
    case Pair(high, low) => 0x1_0000 + (Hex4(high) - 0xD800) * 0x400 + (Hex4(low) - 0xDC00)
  }

  function Hex4Scalar(hex: seq<Byte>): Scalar
    requires IsHex4(hex) && !(0xD800 <= Hex4(hex) < 0xE000)
  {
    assert Hex4(hex) < 0x1_0000;
    Hex4(hex)
  }

  predicate ValidText(text: Text) {
    forall piece | piece in text :: ValidPiece(piece)
  }

  /** The string after unescaping. */
  function Unescape(text: Text): seq<Scalar>
    requires ValidText(text)
  {
    seq(|text|, k requires 0 <= k < |text| => Meaning(text[k]))
  }

  function PrintPieces(text: Text): seq<Byte> {
    if text == [] then [] else PrintPiece(text[0]) + PrintPieces(text[1..])
  }

  function PrintText(text: Text): seq<Byte> {
    [QUOTE] + PrintPieces(text) + [QUOTE]
  }

  /** The piece the JSON library reads at `i`. */
  function ReadPiece(bytes: seq<Byte>, i: nat): (r: Option<Piece>)
    requires i < |bytes|
    ensures r.Some? ==>
              && ValidPiece(r.value)
              && i + |PrintPiece(r.value)| <= |bytes|
              && bytes[i..i + |PrintPiece(r.value)|] == PrintPiece(r.value)
  {
    if bytes[i] == ESCAPE then
      if i + 1 >= |bytes| then None
      else if bytes[i + 1] == 0x75 then ReadUnicode(bytes, i)
      else if ShortEscape(bytes[i + 1]).Some? then Some(Short(bytes[i + 1]))
      else None
    else if bytes[i] < 0x20 || bytes[i] == QUOTE then None
    else
      match DecodeUtf8(bytes, i)
      case None => None
      case Some(c) => if ValidPiece(Raw(c)) then Some(Raw(c)) else None
  }

  predicate UnicodeAt(bytes: seq<Byte>, i: nat) {
    && i + 6 <= |bytes| && bytes[i] == ESCAPE && bytes[i + 1] == 0x75 && IsHex4(bytes[i + 2..i + 6])
  }

  lemma UnicodeSlice(bytes: seq<Byte>, i: nat)
    requires UnicodeAt(bytes, i)
    ensures bytes[i..i + 6] == [ESCAPE, 0x75] + bytes[i + 2..i + 6]
  {
    hide IsHex4;
  }

  function ReadUnicode(bytes: seq<Byte>, i: nat): (r: Option<Piece>)
    ensures r.Some? ==>
              && ValidPiece(r.value)
              && i + |PrintPiece(r.value)| <= |bytes|
              && bytes[i..i + |PrintPiece(r.value)|] == PrintPiece(r.value)
  {
    if !UnicodeAt(bytes, i) then None
    else
      var hex := bytes[i + 2..i + 6];
      UnicodeSlice(bytes, i);
      if !(0xD800 <= Hex4(hex) < 0xE000) then Some(Unicode(hex))
      else if Hex4(hex) >= 0xDC00 || !UnicodeAt(bytes, i + 6) then None
      else
        var low := bytes[i + 8..i + 12];
        UnicodeSlice(bytes, i + 6);
        Join(bytes, i, i + 6, i + 12);
        if 0xDC00 <= Hex4(low) < 0xE000 then Some(Pair(hex, low)) else None
  }

  /** The pieces from `i` up to the first closing quote, and where the string ends. */
  function ReadPieces(bytes: seq<Byte>, i: nat): (r: Option<(Text, nat)>)
    ensures r.Some? ==> i < r.value.1 <= |bytes|
    decreases if i <= |bytes| then |bytes| - i else 0
  {
    if i >= |bytes| then None
    else if bytes[i] == QUOTE then Some(([], i + 1))
    else
      match ReadPiece(bytes, i)
      case None => None
      case Some(piece) =>
        match ReadPieces(bytes, i + |PrintPiece(piece)|)
        case None => None
        case Some((text, end)) => Some(([piece] + text, end))
  }

  lemma {:induction false} ReadPiecesSound(bytes: seq<Byte>, i: nat)
    requires ReadPieces(bytes, i).Some?
    ensures var (text, end) := ReadPieces(bytes, i).value;
            ValidText(text) && bytes[i..end] == PrintPieces(text) + [QUOTE]
    decreases if i <= |bytes| then |bytes| - i else 0
  {
    hide ReadPiece, PrintPiece, ValidPiece;
    var (text, end) := ReadPieces(bytes, i).value;
    if bytes[i] != QUOTE {
      var piece := ReadPiece(bytes, i).value;
      var next := i + |PrintPiece(piece)|;
      ReadPiecesSound(bytes, next);
      assert text[1..] == ReadPieces(bytes, next).value.0;
      Join(bytes, i, next, end);
    }
  }

  /** `serde_json::from_slice::<String>`: the whole slice is one string. */
  function LibraryString(slice: seq<Byte>): Option<Text> {
    if slice == [] || slice[0] != QUOTE then None
    else
      match ReadPieces(slice, 1)
      case None => None
      case Some((text, end)) => if end == |slice| then Some(text) else None
  }

  lemma ReadPiecePrinted(bytes: seq<Byte>, i: nat, piece: Piece)
    requires ValidPiece(piece)
    requires i + |PrintPiece(piece)| <= |bytes| && bytes[i..i + |PrintPiece(piece)|] == PrintPiece(piece)
    ensures ReadPiece(bytes, i) == Some(piece) && bytes[i] != QUOTE
  {
    At(bytes, i, PrintPiece(piece));
    match piece {
      case Raw(c) =>
        RawPrinted(bytes, i, c);
      case Short(letter) =>
      case Unicode(hex) =>
        UnicodePrinted(bytes, i, hex);
      case Pair(high, low) =>
        PairPrinted(bytes, i, high, low);
        hide ReadPiece;
    }
  }

  lemma PairPrinted(bytes: seq<Byte>, i: nat, high: seq<Byte>, low: seq<Byte>)
    requires ValidPiece(Pair(high, low))
    requires i + 12 <= |bytes| && bytes[i..i + 12] == PrintPiece(Pair(high, low))
    ensures ReadPiece(bytes, i) == Some(Pair(high, low)) && bytes[i] != QUOTE
  {
    hide Hex4;
    assert bytes[i..i + 6] == [ESCAPE, 0x75] + high && bytes[i + 6..i + 12] == [ESCAPE, 0x75] + low by {
      assert bytes[i..i + 6] == bytes[i..i + 12][..6] && bytes[i + 6..i + 12] == bytes[i..i + 12][6..];
    }
    UnicodePrinted(bytes, i, high);
    UnicodePrinted(bytes, i + 6, low);
  }

  lemma RawPrinted(bytes: seq<Byte>, i: nat, c: Scalar)
    requires ValidPiece(Raw(c))
    requires i + |Utf8(c)| <= |bytes| && bytes[i..i + |Utf8(c)|] == Utf8(c)
    ensures ReadPiece(bytes, i) == Some(Raw(c)) && bytes[i] != QUOTE
  {
    At(bytes, i, Utf8(c));
    DecodeUtf8Printed(bytes, i, c);
    hide DecodeUtf8, ReadUnicode;
    assert bytes[i] == Utf8(c)[0];
  }

  lemma UnicodePrinted(bytes: seq<Byte>, i: nat, hex: seq<Byte>)
    requires IsHex4(hex)
    requires i + 6 <= |bytes| && bytes[i..i + 6] == [ESCAPE, 0x75] + hex
    ensures UnicodeAt(bytes, i) && bytes[i + 2..i + 6] == hex
    ensures bytes[i] == ESCAPE && bytes[i + 1] == 0x75
  {
    At(bytes, i, [ESCAPE, 0x75] + hex);
    assert bytes[i + 2..i + 6] == bytes[i..i + 6][2..];
  }

  lemma {:induction false} ReadPiecesPrinted(bytes: seq<Byte>, i: nat, text: Text, rest: seq<Byte>)
    requires ValidText(text)
    requires i <= |bytes| && bytes[i..] == PrintPieces(text) + ([QUOTE] + rest)
    ensures ReadPieces(bytes, i) == Some((text, |bytes| - |rest|))
    decreases |text|
  {
    hide ReadPiece, PrintPiece, ValidPiece;
    if text != [] {
      var front, more := PrintPiece(text[0]), PrintPieces(text[1..]) + ([QUOTE] + rest);
      var next := i + |front|;
      assert next <= |bytes| && bytes[i..next] == front && bytes[next..] == more by {
        Assoc(front, PrintPieces(text[1..]), [QUOTE] + rest);
        Cut(bytes, i, front, more);
      }
      ReadPiecePrinted(bytes, i, text[0]);
      ReadPiecesPrinted(bytes, next, text[1..], rest);
      assert [text[0]] + text[1..] == text;
    } else {
      assert [] + ([QUOTE] + rest) == [QUOTE] + rest;
      Cut(bytes, i, [QUOTE], rest);
    }
  }

  /** The scanner's own search for the closing quote: it skips escapes without looking inside them. */
  function FindClose(bytes: seq<Byte>, i: nat): (r: Option<nat>)
    ensures r.Some? ==> i < r.value <= |bytes|
    decreases if i <= |bytes| then |bytes| - i else 0
  {
    if i >= |bytes| then None
    else if bytes[i] == QUOTE then Some(i + 1)
    else if bytes[i] == ESCAPE then
      if i + 1 < |bytes| && bytes[i + 1] == 0x75 then FindClose(bytes, i + 6) else FindClose(bytes, i + 2)
    else if bytes[i] < 0x20 then None
    else FindClose(bytes, i + 1)
  }

  /** The string token at `start`, with what it says and where it ends. */
  function ScanString(bytes: seq<Byte>, start: nat): (r: Option<(Text, nat)>)
    ensures r.Some? ==> start < r.value.1 <= |bytes|
  {
    if start >= |bytes| || bytes[start] != QUOTE then None
    else
      match FindClose(bytes, start + 1)
      case None => None
      case Some(end) =>
        match LibraryString(bytes[start..end])
        case None => None
        case Some(text) => Some((text, end))
  }

  /** Plain bytes are passed over one at a time. */
  lemma {:induction false} FindClosePlain(bytes: seq<Byte>, i: nat, j: nat)
    requires i <= j <= |bytes|
    requires forall k | i <= k < j :: bytes[k] >= 0x20 && bytes[k] != QUOTE && bytes[k] != ESCAPE
    ensures FindClose(bytes, i) == FindClose(bytes, j)
    decreases j - i
  {
    if i < j {
      FindClosePlain(bytes, i + 1, j);
    }
  }

  lemma FindClosePiece(bytes: seq<Byte>, i: nat, piece: Piece)
    requires ValidPiece(piece)
    requires i + |PrintPiece(piece)| <= |bytes| && bytes[i..i + |PrintPiece(piece)|] == PrintPiece(piece)
    ensures FindClose(bytes, i) == FindClose(bytes, i + |PrintPiece(piece)|)
  {
    At(bytes, i, PrintPiece(piece));
    match piece {
      case Raw(c) =>
        forall k | i <= k < i + |Utf8(c)| ensures bytes[k] >= 0x20 && bytes[k] != QUOTE && bytes[k] != ESCAPE {
          assert bytes[k] == Utf8(c)[k - i];
        }
        FindClosePlain(bytes, i, i + |Utf8(c)|);
      case Short(letter) =>
      case Unicode(hex) =>
      case Pair(high, low) =>
        assert FindClose(bytes, i) == FindClose(bytes, i + 6);
    }
  }

  lemma {:induction false} FindClosePrinted(bytes: seq<Byte>, i: nat, text: Text, rest: seq<Byte>)
    requires ValidText(text)
    requires i <= |bytes| && bytes[i..] == PrintPieces(text) + ([QUOTE] + rest)
    ensures FindClose(bytes, i) == Some(|bytes| - |rest|)
    decreases |text|
  {
    hide PrintPiece, ValidPiece;
    if text != [] {
      var front, more := PrintPiece(text[0]), PrintPieces(text[1..]) + ([QUOTE] + rest);
      var next := i + |front|;
      assert next <= |bytes| && bytes[i..next] == front && bytes[next..] == more by {
        Assoc(front, PrintPieces(text[1..]), [QUOTE] + rest);
        Cut(bytes, i, front, more);
      }
      hide FindClose;
      FindClosePiece(bytes, i, text[0]);
      FindClosePrinted(bytes, next, text[1..], rest);
    } else {
      assert [] + ([QUOTE] + rest) == [QUOTE] + rest;
      Cut(bytes, i, [QUOTE], rest);
    }
  }

  lemma LibraryStringSound(slice: seq<Byte>)
    requires LibraryString(slice).Some?
    ensures ValidText(LibraryString(slice).value) && slice == PrintText(LibraryString(slice).value)
  {
    hide ReadPieces, PrintPieces, ValidText;
    var pieces := PrintPieces(LibraryString(slice).value);
    ReadPiecesSound(slice, 1);
    assert slice[1..|slice|] == pieces + [QUOTE];
    assert slice == [slice[0]] + slice[1..|slice|];
    assert [QUOTE] + (pieces + [QUOTE]) == [QUOTE] + pieces + [QUOTE];
  }

  lemma LibraryStringPrinted(text: Text)
    requires ValidText(text)
    ensures LibraryString(PrintText(text)) == Some(text)
  {
    hide ReadPieces, PrintPieces, ValidText;
    var printed := PrintText(text);
    assert printed[1..] == PrintPieces(text) + ([QUOTE] + []);
    ReadPiecesPrinted(printed, 1, text, []);
  }

  lemma ScanStringSound(bytes: seq<Byte>, start: nat)
    requires ScanString(bytes, start).Some?
    ensures var (text, end) := ScanString(bytes, start).value;
            ValidText(text) && bytes[start..end] == PrintText(text)
  {
    hide LibraryString, FindClose, ValidText, PrintText;
    LibraryStringSound(bytes[start..FindClose(bytes, start + 1).value]);
  }

  /** A valid string token is found at its own end and read as itself, whatever follows it. */
  lemma ScanStringPrinted(bytes: seq<Byte>, start: nat, text: Text, rest: seq<Byte>)
    requires ValidText(text)
    requires start <= |bytes| && bytes[start..] == PrintText(text) + rest
    ensures ScanString(bytes, start) == Some((text, start + |PrintText(text)|))
  {
    hide LibraryString, FindClose, ValidText, PrintPieces;
    Cut(bytes, start, PrintText(text), rest);
    var ahead := PrintPieces(text) + ([QUOTE] + rest);
    assert PrintText(text) + rest == [QUOTE] + ahead;
    Cut(bytes, start, [QUOTE], ahead);
    FindClosePrinted(bytes, start + 1, text, rest);
    LibraryStringPrinted(text);
  }

  // Numbers.

  datatype Exponent = NoExponent | Exponent(letter: Byte, sign: seq<Byte>, digits: seq<Byte>)

  datatype Number = Number(minus: seq<Byte>, whole: seq<Byte>, fraction: Option<seq<Byte>>, exponent: Exponent)

  predicate IsDigit(b: Byte) {
    0x30 <= b <= 0x39
  }

  predicate Digits(digits: seq<Byte>) {
    digits != [] && forall d | d in digits :: IsDigit(d)
  }

  predicate ValidNumber(number: Number) {
    && (number.minus == [] || number.minus == [0x2d])
    && Digits(number.whole) && (number.whole[0] == 0x30 ==> |number.whole| == 1)
    && (number.fraction.Some? ==> Digits(number.fraction.value))
    && ValidExponent(number.exponent)
  }

  function PrintFraction(fraction: Option<seq<Byte>>): seq<Byte> {
    if fraction.None? then [] else [0x2e] + fraction.value
  }

  function PrintExponent(exponent: Exponent): seq<Byte> {
    match exponent
    case NoExponent => []
    case Exponent(letter, sign, digits) => [letter] + sign + digits
  }

  function PrintNumber(number: Number): seq<Byte> {
    number.minus + number.whole + PrintFraction(number.fraction) + PrintExponent(number.exponent)
  }

  /** The end of the run of digits at `i`. */
  function DigitsEnd(bytes: seq<Byte>, i: nat): (end: nat)
    requires i <= |bytes|
    ensures i <= end <= |bytes|
    ensures forall k | i <= k < end :: IsDigit(bytes[k])
    ensures end < |bytes| ==> !IsDigit(bytes[end])
    decreases |bytes| - i
  {
    if i < |bytes| && IsDigit(bytes[i]) then DigitsEnd(bytes, i + 1) else i
  }

  predicate Holds(bytes: seq<Byte>, i: nat, b: Byte) {
    i < |bytes| && bytes[i] == b
  }

  function ScanWhole(bytes: seq<Byte>, i: nat): (r: Option<nat>)
    requires i <= |bytes|
    ensures r.Some? ==> i < r.value <= |bytes|
  {
    if i == |bytes| || !IsDigit(bytes[i]) then None
    else if bytes[i] == 0x30 then Some(i + 1)
    else Some(DigitsEnd(bytes, i + 1))
  }

  function ScanFraction(bytes: seq<Byte>, i: nat): (r: Option<(Option<seq<Byte>>, nat)>)
    requires i <= |bytes|
    ensures r.Some? ==> i <= r.value.1 <= |bytes|
  {
    if !Holds(bytes, i, 0x2e) then Some((None, i))
    else
      var end := DigitsEnd(bytes, i + 1);
      if end == i + 1 then None else Some((Some(bytes[i + 1..end]), end))
  }

  function ScanExponent(bytes: seq<Byte>, i: nat): (r: Option<(Exponent, nat)>)
    requires i <= |bytes|
    ensures r.Some? ==> i <= r.value.1 <= |bytes|
  {
    if !Holds(bytes, i, 0x65) && !Holds(bytes, i, 0x45) then Some((NoExponent, i))
    else
      var start := if Holds(bytes, i + 1, 0x2b) || Holds(bytes, i + 1, 0x2d) then i + 2 else i + 1;
      var end := DigitsEnd(bytes, start);
      if end == start then None else Some((Exponent(bytes[i], bytes[i + 1..start], bytes[start..end]), end))
  }

  function ScanNumber(bytes: seq<Byte>, i: nat): (r: Option<(Number, nat)>)
    requires i <= |bytes|
    ensures r.Some? ==> i < r.value.1 <= |bytes|
  {
    var start := if Holds(bytes, i, 0x2d) then i + 1 else i;
    match ScanWhole(bytes, start)
    case None => None
    case Some(whole) =>
      match ScanFraction(bytes, whole)
      case None => None
      case Some((fraction, j)) =>
        match ScanExponent(bytes, j)
        case None => None
        case Some((exponent, end)) => Some((Number(bytes[i..start], bytes[start..whole], fraction, exponent), end))
  }

  lemma ScanWholeSound(bytes: seq<Byte>, i: nat)
    requires i <= |bytes| && ScanWhole(bytes, i).Some?
    ensures var digits := bytes[i..ScanWhole(bytes, i).value];
            Digits(digits) && (digits[0] == 0x30 ==> |digits| == 1)
  {
  }

  lemma ScanFractionSound(bytes: seq<Byte>, i: nat)
    requires i <= |bytes| && ScanFraction(bytes, i).Some?
    ensures var (fraction, end) := ScanFraction(bytes, i).value;
            bytes[i..end] == PrintFraction(fraction) && (fraction.Some? ==> Digits(fraction.value))
  {
  }

  predicate ValidExponent(exponent: Exponent) {
    match exponent
    case NoExponent => true
    case Exponent(letter, sign, digits) =>
      && (letter == 0x65 || letter == 0x45)
      && (sign == [] || sign == [0x2b] || sign == [0x2d])
      && Digits(digits)
  }

  lemma ScanExponentSound(bytes: seq<Byte>, i: nat)
    requires i <= |bytes| && ScanExponent(bytes, i).Some?
    ensures var (exponent, end) := ScanExponent(bytes, i).value;
            bytes[i..end] == PrintExponent(exponent) && ValidExponent(exponent)
  {
    var (exponent, end) := ScanExponent(bytes, i).value;
    if exponent.Exponent? {
      var start := i + 1 + |exponent.sign|;
      DigitsScanned(bytes, start);
      if exponent.sign != [] {
        SignShape(bytes, i + 1);
      }
      hide DigitsEnd, Digits;
      assert bytes[i..end] == [bytes[i]] + bytes[i + 1..start] + bytes[start..end] by {
        Join(bytes, i, start, end);
        Join(bytes, i, i + 1, start);
      }
    }
  }

  lemma SignShape(bytes: seq<Byte>, i: nat)
    requires Holds(bytes, i, 0x2b) || Holds(bytes, i, 0x2d)
    ensures bytes[i..i + 1] == [0x2b] || bytes[i..i + 1] == [0x2d]
  {
  }

  lemma DigitsScanned(bytes: seq<Byte>, start: nat)
    requires start <= |bytes| && start < DigitsEnd(bytes, start)
    ensures Digits(bytes[start..DigitsEnd(bytes, start)])
  {
  }

  lemma ScanNumberSound(bytes: seq<Byte>, i: nat)
    requires i <= |bytes| && ScanNumber(bytes, i).Some?
    ensures var (number, end) := ScanNumber(bytes, i).value;
            ValidNumber(number) && bytes[i..end] == PrintNumber(number)
  {
    hide ScanWhole, ScanFraction, ScanExponent, Digits, PrintFraction, PrintExponent, ValidExponent;
    var start := if Holds(bytes, i, 0x2d) then i + 1 else i;
    var whole := ScanWhole(bytes, start).value;
    var j := ScanFraction(bytes, whole).value.1;
    var end := ScanExponent(bytes, j).value.1;
    ScanWholeSound(bytes, start);
    ScanFractionSound(bytes, whole);
    ScanExponentSound(bytes, j);
    NumberPieces(bytes, i, start, whole, j, end);
  }

  lemma NumberPieces(bytes: seq<Byte>, i: nat, start: nat, whole: nat, j: nat, end: nat)
    requires i <= start <= whole <= j <= end <= |bytes|
    ensures bytes[i..end] == bytes[i..start] + bytes[start..whole] + bytes[whole..j] + bytes[j..end]
  {
    Join(bytes, i, j, end);
    Join(bytes, i, whole, j);
    Join(bytes, i, start, whole);
  }

  lemma {:induction false} DigitsEndAt(bytes: seq<Byte>, i: nat, end: nat)
    requires i <= end <= |bytes|
    requires forall k | i <= k < end :: IsDigit(bytes[k])
    requires end < |bytes| ==> !IsDigit(bytes[end])
    ensures DigitsEnd(bytes, i) == end
    decreases end - i
  {
    if i < end {
      DigitsEndAt(bytes, i + 1, end);
    }
  }

  /** What follows the text of a number must not continue it. */
  predicate NumberEnds(rest: seq<Byte>) {
    rest == [] || (!IsDigit(rest[0]) && rest[0] != 0x2e && rest[0] != 0x65 && rest[0] != 0x45)
  }

  lemma DigitsAt(bytes: seq<Byte>, i: nat, digits: seq<Byte>, rest: seq<Byte>)
    requires Digits(digits) && i <= |bytes| && bytes[i..] == digits + rest
    requires rest == [] || !IsDigit(rest[0])
    ensures i + |digits| <= |bytes| && DigitsEnd(bytes, i) == i + |digits| && bytes[i..i + |digits|] == digits
    ensures bytes[i + |digits|..] == rest
    ensures IsDigit(bytes[i]) && DigitsEnd(bytes, i + 1) == i + |digits|
  {
    Cut(bytes, i, digits, rest);
    At(bytes, i, digits);
    DigitsEndAt(bytes, i, i + |digits|);
    DigitsEndAt(bytes, i + 1, i + |digits|);
  }

  lemma Regroup(a: seq<Byte>, b: seq<Byte>, c: seq<Byte>, d: seq<Byte>)
    ensures a + b + c + d == a + (b + (c + d))
  {
  }

  lemma ScanExponentPrinted(bytes: seq<Byte>, i: nat, exponent: Exponent, rest: seq<Byte>)
    requires ValidExponent(exponent) && NumberEnds(rest)
    requires i <= |bytes| && bytes[i..] == PrintExponent(exponent) + rest
    ensures ScanExponent(bytes, i) == Some((exponent, |bytes| - |rest|))
  {
    if exponent.Exponent? {
      hide ScanExponent;
      LetterSignDigits(bytes, i, exponent.letter, exponent.sign, exponent.digits, rest);
    } else {
      assert [] + rest == rest;
      hide ValidExponent;
    }
  }

  lemma LetterSignDigits(
    bytes: seq<Byte>, i: nat, letter: Byte, sign: seq<Byte>, digits: seq<Byte>, rest: seq<Byte>)
    requires ValidExponent(Exponent(letter, sign, digits)) && (rest == [] || !IsDigit(rest[0]))
    requires i <= |bytes| && bytes[i..] == [letter] + sign + digits + rest
    ensures ScanExponent(bytes, i) == Some((Exponent(letter, sign, digits), |bytes| - |rest|))
  {
    hide DigitsEnd, Digits, ScanExponent;
    LetterAndSign(bytes, i, letter, sign, digits, rest);
    DigitsTo(bytes, i + 1 + |sign|, digits, rest);
    SignScanned(bytes, i + 1, sign);
    ExponentScanned(bytes, i, i + 1 + |sign|, |bytes| - |rest|);
  }

  lemma LetterAndSign(
    bytes: seq<Byte>, i: nat, letter: Byte, sign: seq<Byte>, digits: seq<Byte>, rest: seq<Byte>)
    requires i <= |bytes| && bytes[i..] == [letter] + sign + digits + rest
    ensures var start := i + 1 + |sign|;
            start <= |bytes| && bytes[i] == letter && bytes[i + 1..start] == sign && bytes[start..] == digits + rest
  {
    Regroup([letter], sign, digits, rest);
    Cut(bytes, i, [letter], sign + (digits + rest));
    Cut(bytes, i + 1, sign, digits + rest);
  }

  lemma DigitsTo(bytes: seq<Byte>, start: nat, digits: seq<Byte>, rest: seq<Byte>)
    requires Digits(digits) && (rest == [] || !IsDigit(rest[0]))
    requires start <= |bytes| && bytes[start..] == digits + rest
    ensures var end := |bytes| - |rest|;
            start < end && bytes[start..end] == digits && DigitsEnd(bytes, start) == end && IsDigit(bytes[start])
  {
    hide DigitsEnd;
    DigitsAt(bytes, start, digits, rest);
    assert start + |digits| == |bytes| - |rest|;
  }

  lemma ExponentScanned(bytes: seq<Byte>, i: nat, start: nat, end: nat)
    requires Holds(bytes, i, 0x65) || Holds(bytes, i, 0x45)
    requires start == if Holds(bytes, i + 1, 0x2b) || Holds(bytes, i + 1, 0x2d) then i + 2 else i + 1
    requires start < end <= |bytes| && DigitsEnd(bytes, start) == end
    ensures ScanExponent(bytes, i) == Some((Exponent(bytes[i], bytes[i + 1..start], bytes[start..end]), end))
  {
    hide DigitsEnd, Holds;
  }

  lemma SignScanned(bytes: seq<Byte>, i: nat, sign: seq<Byte>)
    requires sign == [] || sign == [0x2b] || sign == [0x2d]
    requires i + |sign| < |bytes| && bytes[i..i + |sign|] == sign && IsDigit(bytes[i + |sign|])
    ensures i + |sign| == if Holds(bytes, i, 0x2b) || Holds(bytes, i, 0x2d) then i + 1 else i
  {
    if sign != [] {
      At(bytes, i, sign);
    }
  }

  lemma ScanFractionPrinted(bytes: seq<Byte>, i: nat, fraction: Option<seq<Byte>>, rest: seq<Byte>)
    requires fraction.Some? ==> Digits(fraction.value)
    requires rest == [] || (!IsDigit(rest[0]) && rest[0] != 0x2e)
    requires i <= |bytes| && bytes[i..] == PrintFraction(fraction) + rest
    ensures ScanFraction(bytes, i) == Some((fraction, i + |PrintFraction(fraction)|))
    ensures i + |PrintFraction(fraction)| <= |bytes| && bytes[i + |PrintFraction(fraction)|..] == rest
  {
    if fraction.Some? {
      Assoc([0x2e], fraction.value, rest);
      hide ScanFraction, Digits;
      DigitsOfFraction(bytes, i, fraction.value, rest);
    } else {
      NoFractionScanned(bytes, i, rest);
    }
  }

  lemma DigitsOfFraction(bytes: seq<Byte>, i: nat, digits: seq<Byte>, rest: seq<Byte>)
    requires Digits(digits) && (rest == [] || !IsDigit(rest[0]))
    requires i <= |bytes| && bytes[i..] == [0x2e] + (digits + rest)
    ensures var end := i + 1 + |digits|;
            && end <= |bytes| && bytes[end..] == rest && ScanFraction(bytes, i) == Some((Some(digits), end))
  {
    assert digits != [];
    hide Digits, DigitsEnd, ScanFraction, IsDigit;
    assert i < |bytes| && bytes[i] == 0x2e && bytes[i + 1..] == digits + rest by {
      Cut(bytes, i, [0x2e], digits + rest);
    }
    DigitsAt(bytes, i + 1, digits, rest);
    FractionScanned(bytes, i, digits, i + 1 + |digits|);
  }

  lemma FractionScanned(bytes: seq<Byte>, i: nat, digits: seq<Byte>, end: nat)
    requires i < |bytes| && bytes[i] == 0x2e && i + 1 < end <= |bytes| && DigitsEnd(bytes, i + 1) == end
    requires bytes[i + 1..end] == digits
    ensures ScanFraction(bytes, i) == Some((Some(digits), end))
  {
    hide DigitsEnd;
  }

  lemma NoFractionScanned(bytes: seq<Byte>, i: nat, rest: seq<Byte>)
    requires i <= |bytes| && bytes[i..] == [] + rest && (rest == [] || rest[0] != 0x2e)
    ensures ScanFraction(bytes, i) == Some((None, i)) && bytes[i..] == rest
  {
    hide DigitsEnd;
    Cut(bytes, i, [], rest);
  }

  lemma ScanWholePrinted(bytes: seq<Byte>, i: nat, whole: seq<Byte>, rest: seq<Byte>)
    requires Digits(whole) && (whole[0] == 0x30 ==> |whole| == 1)
    requires rest == [] || !IsDigit(rest[0])
    requires i <= |bytes| && bytes[i..] == whole + rest
    ensures ScanWhole(bytes, i) == Some(i + |whole|)
    ensures i + |whole| <= |bytes| && bytes[i..i + |whole|] == whole && bytes[i + |whole|..] == rest
  {
    Cut(bytes, i, whole, rest);
    DigitsAt(bytes, i, whole, rest);
  }

  lemma TailStarts(number: Number, rest: seq<Byte>)
    requires NumberEnds(rest) && ValidExponent(number.exponent)
    ensures var tail := PrintExponent(number.exponent) + rest;
            && (tail == [] || (!IsDigit(tail[0]) && tail[0] != 0x2e))
            && var more := PrintFraction(number.fraction) + tail; (more == [] || !IsDigit(more[0]))
  {
  }

  lemma SignCut(bytes: seq<Byte>, i: nat, number: Number, rest: seq<Byte>)
    requires ValidNumber(number)
    requires i <= |bytes| && bytes[i..] == PrintNumber(number) + rest
    ensures var start := i + |number.minus|;
            && start <= |bytes| - |rest| && i + |PrintNumber(number)| == |bytes| - |rest|
            && (Holds(bytes, i, 0x2d) <==> number.minus == [0x2d])
            && bytes[i..start] == number.minus
            && bytes[start..]
               == number.whole + (PrintFraction(number.fraction) + (PrintExponent(number.exponent) + rest))
  {
    assert number.whole[0] in number.whole;
    hide Digits, PrintFraction, PrintExponent, ValidExponent;
    var exponent, fraction := PrintExponent(number.exponent), PrintFraction(number.fraction);
    var ahead := number.whole + (fraction + (exponent + rest));
    assert bytes[i..] == number.minus + ahead by {
      Regroup(number.minus, number.whole, fraction, exponent);
      Regroup(number.minus, number.whole, fraction, exponent + rest);
      assert PrintNumber(number) + rest == number.minus + number.whole + fraction + (exponent + rest);
    }
    assert i + |PrintNumber(number)| == |bytes| - |rest| by {
      Cut(bytes, i, PrintNumber(number), rest);
    }
    hide PrintNumber;
    assert ahead[0] == number.whole[0];
    Cut(bytes, i, number.minus, ahead);
  }

  lemma PartsPrinted(
    bytes: seq<Byte>, start: nat, number: Number, afterWhole: seq<Byte>, afterFraction: seq<Byte>, rest: seq<Byte>)
    requires ValidNumber(number) && NumberEnds(rest) && start <= |bytes|
    requires bytes[start..] == number.whole + afterWhole
    requires afterWhole == PrintFraction(number.fraction) + afterFraction
    requires afterFraction == PrintExponent(number.exponent) + rest
    requires afterWhole == [] || !IsDigit(afterWhole[0])
    requires afterFraction == [] || (!IsDigit(afterFraction[0]) && afterFraction[0] != 0x2e)
    ensures start + |number.whole| + |PrintFraction(number.fraction)| <= |bytes|
    ensures ScanWhole(bytes, start) == Some(start + |number.whole|)
    ensures bytes[start..start + |number.whole|] == number.whole
    ensures ScanFraction(bytes, start + |number.whole|)
         == Some((number.fraction, start + |number.whole| + |PrintFraction(number.fraction)|))
    ensures ScanExponent(bytes, start + |number.whole| + |PrintFraction(number.fraction)|)
         == Some((number.exponent, |bytes| - |rest|))
  {
    hide ScanWhole, ScanFraction, ScanExponent, Digits, PrintFraction, PrintExponent, ValidExponent, NumberEnds;
    hide IsDigit;
    var whole := start + |number.whole|;
    ScanWholePrinted(bytes, start, number.whole, afterWhole);
    ScanFractionPrinted(bytes, whole, number.fraction, afterFraction);
    ScanExponentPrinted(bytes, whole + |PrintFraction(number.fraction)|, number.exponent, rest);
  }

  lemma ScanNumberPrinted(bytes: seq<Byte>, i: nat, number: Number, rest: seq<Byte>)
    requires ValidNumber(number) && NumberEnds(rest)
    requires i <= |bytes| && bytes[i..] == PrintNumber(number) + rest
    ensures ScanNumber(bytes, i) == Some((number, i + |PrintNumber(number)|))
  {
    hide ScanWhole, ScanFraction, ScanExponent, Digits, PrintFraction, PrintExponent, NumberEnds, PrintNumber;
    var start := i + |number.minus|;
    SignCut(bytes, i, number, rest);
    TailStarts(number, rest);
    var afterFraction := PrintExponent(number.exponent) + rest;
    PartsPrinted(bytes, start, number, PrintFraction(number.fraction) + afterFraction, afterFraction, rest);
  }
}
