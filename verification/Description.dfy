/** Descriptions as they are shown and cached: one bounded line of display-safe characters. */
module Descriptions {
  import opened Results
  import opened Bytes
  import opened Utf16
  import JsonText

  const MAX_DISPLAY_BYTES := 2048
  const REPLACEMENT: Scalar := 0xFFFD

  /** `char::is_control`. */
  predicate IsControl(c: Scalar) {
    c < 0x20 || 0x7F <= c < 0xA0
  }

  predicate IsFormatting(c: Scalar) {
    || c == 0x2028 || c == 0x2029 || c == 0x200E || c == 0x200F || c == 0x061C
    || 0x202A <= c <= 0x202E || 0x2066 <= c <= 0x2069
  }

  predicate IsSafe(c: Scalar) {
    !IsControl(c) && !IsFormatting(c)
  }

  function Clean(item: Option<Scalar>): (c: Scalar)
    ensures IsSafe(c)
    ensures item.Some? && IsSafe(item.value) ==> c == item.value
  {
    if item.Some? && IsSafe(item.value) then item.value else REPLACEMENT
  }

  /** The whole input, character by character. */
  function Cleaned(units: seq<U16>): seq<Scalar> {
    if units == [] then []
    else
      var (item, used) := DecodeOne(units);
      [Clean(item)] + Cleaned(units[used..])
  }

  function Utf8Size(text: seq<Scalar>): nat {
    if text == [] then 0 else |JsonText.Utf8(text[0])| + Utf8Size(text[1..])
  }

  /** As many characters as fit behind `used` bytes. */
  function Fit(text: seq<Scalar>, used: nat): seq<Scalar> {
    if text == [] || used + |JsonText.Utf8(text[0])| > MAX_DISPLAY_BYTES then []
    else [text[0]] + Fit(text[1..], used + |JsonText.Utf8(text[0])|)
  }

  function SafeDescription(units: seq<U16>): seq<Scalar> {
    Fit(Cleaned(units), 0)
  }

  function SanitizedDescription(units: seq<U16>): seq<U16> {
    Encode(SafeDescription(units))
  }

  method SafeDescriptionLoop(units: seq<U16>) returns (display: seq<Scalar>)
    ensures display == SafeDescription(units)
  {
    hide Cleaned, Fit, Utf8Size, DecodeOne, Clean, JsonText.Utf8;
    display := [];
    assert units[0..] == units && display + Fit(Cleaned(units), 0) == Fit(Cleaned(units), 0);
    assert Utf8Size([]) == 0 && forall bytes :: Fit(Cleaned([]), bytes) == [] by {
      NothingFits();
    }
    var i, bytes := 0, 0;
    while i < |units|
      invariant i <= |units| && bytes == Utf8Size(display)
      invariant SafeDescription(units) == display + Fit(Cleaned(units[i..]), bytes)
    {
      var (item, used) := DecodeOne(units[i..]);
      var c := Clean(item);
      CleanedStep(units, i);
      FitStep(c, Cleaned(units[i + used..]), bytes);
      if bytes + |JsonText.Utf8(c)| > MAX_DISPLAY_BYTES {
        assert display + [] == display;
        break;
      }
      SizeAppends(display, c);
      assert display + ([c] + Fit(Cleaned(units[i + used..]), bytes + |JsonText.Utf8(c)|))
          == display + [c] + Fit(Cleaned(units[i + used..]), bytes + |JsonText.Utf8(c)|);
      display := display + [c];
      bytes := bytes + |JsonText.Utf8(c)|;
      i := i + used;
    }
    assert units[|units|..] == [] && display + [] == display;
  }

  lemma NothingFits()
    ensures Utf8Size([]) == 0 && forall bytes :: Fit(Cleaned([]), bytes) == []
  {
  }

  lemma CleanedStep(units: seq<U16>, i: nat)
    requires i < |units|
    ensures var (item, used) := DecodeOne(units[i..]);
            i + used <= |units| && Cleaned(units[i..]) == [Clean(item)] + Cleaned(units[i + used..])
  {
    hide Clean;
    var (item, used) := DecodeOne(units[i..]);
    assert units[i..][used..] == units[i + used..];
    hide DecodeOne;
  }

  lemma FitStep(c: Scalar, rest: seq<Scalar>, used: nat)
    ensures Fit([c] + rest, used)
         == if used + |JsonText.Utf8(c)| > MAX_DISPLAY_BYTES then []
            else [c] + Fit(rest, used + |JsonText.Utf8(c)|)
  {
    assert ([c] + rest)[1..] == rest;
    hide JsonText.Utf8;
  }

  lemma {:induction false} SizeAppends(text: seq<Scalar>, c: Scalar)
    ensures Utf8Size(text + [c]) == Utf8Size(text) + |JsonText.Utf8(c)|
  {
    if text == [] {
      assert [c][1..] == [];
    } else {
      SizeAppends(text[1..], c);
      assert (text + [c])[1..] == text[1..] + [c];
    }
  }

  lemma ConsPrefix(first: Scalar, rest: seq<Scalar>, whole: seq<Scalar>)
    requires whole != [] && whole[0] == first
    ensures [first] + rest <= whole <==> rest <= whole[1..]
  {
    assert whole == [first] + whole[1..];
    if [first] + rest <= whole {
      assert rest == ([first] + rest)[1..] == whole[..1 + |rest|][1..] == whole[1..][..|rest|];
    }
  }

  /** What fits is a prefix within the bound, and every prefix within the bound is a prefix of it. */
  lemma {:induction false} FitIsLongest(text: seq<Scalar>, used: nat, part: seq<Scalar>)
    requires used <= MAX_DISPLAY_BYTES
    ensures Fit(text, used) <= text && used + Utf8Size(Fit(text, used)) <= MAX_DISPLAY_BYTES
    ensures part <= text && used + Utf8Size(part) <= MAX_DISPLAY_BYTES ==> part <= Fit(text, used)
  {
    if text != [] {
      var size := |JsonText.Utf8(text[0])|;
      hide JsonText.Utf8;
      if used + size <= MAX_DISPLAY_BYTES {
        var rest := if part == [] then [] else part[1..];
        FitIsLongest(text[1..], used + size, rest);
        var fit := Fit(text[1..], used + size);
        assert ([text[0]] + fit)[1..] == fit;
        ConsPrefix(text[0], fit, text);
        if part != [] && part <= text {
          assert rest <= text[1..] && part == [text[0]] + rest;
          if rest <= fit {
            ConsPrefix(text[0], rest, [text[0]] + fit);
          }
        }
      }
    }
  }

  /** A description is at most 2048 bytes of safe characters, and the longest such prefix of the cleaned input. */
  lemma DescriptionIsLongestFit(units: seq<U16>, part: seq<Scalar>)
    ensures var text := SafeDescription(units);
            && text <= Cleaned(units) && Utf8Size(text) <= MAX_DISPLAY_BYTES
            && (part <= Cleaned(units) && Utf8Size(part) <= MAX_DISPLAY_BYTES ==> part <= text)
            && (forall i | 0 <= i < |text| :: IsSafe(text[i]))
  {
    FitIsLongest(Cleaned(units), 0, part);
    CleanedIsSafe(units);
  }

  lemma {:induction false} CleanedIsSafe(units: seq<U16>)
    ensures |Cleaned(units)| == |Decode(units)|
    ensures forall i | 0 <= i < |Decode(units)| :: Cleaned(units)[i] == Clean(Decode(units)[i])
    decreases |units|
  {
    if units != [] {
      var (item, used) := DecodeOne(units);
      CleanedIsSafe(units[used..]);
      hide Clean;
    }
  }

  /** No surrogate pair is split: what is stored decodes to exactly the shown characters. */
  lemma StoredIsShown(units: seq<U16>)
    ensures ValidUtf16(SanitizedDescription(units))
    ensures Cleaned(SanitizedDescription(units)) == SafeDescription(units)
  {
    var text := SafeDescription(units);
    DecodeOfEncode(text);
    CleanedIsSafe(SanitizedDescription(units));
    DescriptionIsLongestFit(units, []);
  }

  /** Sanitizing twice changes nothing more. */
  lemma Idempotent(units: seq<U16>)
    ensures SanitizedDescription(SanitizedDescription(units)) == SanitizedDescription(units)
  {
    StoredIsShown(units);
    DescriptionIsLongestFit(units, []);
    var text := SafeDescription(units);
    FitIsLongest(text, 0, text);
    assert Fit(text, 0) == text;
  }

  lemma {:induction false} EncodeOfDecode(units: seq<U16>, text: seq<Scalar>)
    requires |text| == |Decode(units)| && forall i | 0 <= i < |text| :: Decode(units)[i] == Some(text[i])
    ensures Encode(text) == units
    decreases |units|
  {
    if units != [] {
      var (item, used) := DecodeOne(units);
      assert Decode(units)[0] == item && item == Some(text[0]);
      forall i | 0 <= i < |text| - 1 ensures Decode(units[used..])[i] == Some(text[1..][i]) {
        assert Decode(units)[i + 1] == Decode(units[used..])[i];
      }
      EncodeOfDecode(units[used..], text[1..]);
      assert EncodeOne(text[0]) == units[..used];
    }
  }

  /** A description is kept as it is exactly when it is well-formed, safe throughout, and fits. */
  lemma UnchangedIff(units: seq<U16>)
    ensures SanitizedDescription(units) == units
       <==> && ValidUtf16(units) && Utf8Size(Cleaned(units)) <= MAX_DISPLAY_BYTES
            && forall i | 0 <= i < |Decode(units)| :: Decode(units)[i].Some? ==> IsSafe(Decode(units)[i].value)
  {
    CleanedIsSafe(units);
    StoredIsShown(units);
    DescriptionIsLongestFit(units, Cleaned(units));
    if SanitizedDescription(units) == units {
      DecodeOfEncode(SafeDescription(units));
    }
    if ValidUtf16(units) && Utf8Size(Cleaned(units)) <= MAX_DISPLAY_BYTES
              && forall i | 0 <= i < |Decode(units)| :: Decode(units)[i].Some? ==> IsSafe(Decode(units)[i].value) {
      EncodeOfDecode(units, Cleaned(units));
      assert SafeDescription(units) == Cleaned(units);
    }
  }
}
