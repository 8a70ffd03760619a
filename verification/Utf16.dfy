/** UTF-16 as `char::decode_utf16` reads it, and Unicode scalar values. */
module Utf16 {
  import opened Results
  import opened Bytes

  type Scalar = c: int | 0 <= c < 0xD800 || 0xE000 <= c < 0x11_0000

  predicate IsHigh(unit: U16) {
    0xD800 <= unit < 0xDC00
  }

  predicate IsLow(unit: U16) {
    0xDC00 <= unit < 0xE000
  }

  /** One decoded item and the units it consumed; `None` is an unpaired surrogate. */
  function DecodeOne(units: seq<U16>): (item: (Option<Scalar>, nat))
    requires units != []
    ensures 1 <= item.1 <= |units|
  {
    var unit := units[0];
    if !IsHigh(unit) && !IsLow(unit) then (Some(unit), 1)
    else if IsHigh(unit) && |units| > 1 && IsLow(units[1]) then
      (Some(0x1_0000 + (unit as int - 0xD800) * 0x400 + (units[1] as int - 0xDC00)), 2)
    else (None, 1)
  }

  function Decode(units: seq<U16>): seq<Option<Scalar>> {
    if units == [] then []
    else
      var (item, used) := DecodeOne(units);
      [item] + Decode(units[used..])
  }

  /** `valid_utf16`: every decoded item is a scalar value. */
  predicate ValidUtf16(units: seq<U16>) {
    forall i | 0 <= i < |Decode(units)| :: Decode(units)[i].Some?
  }

  /** `encode_utf16` of one scalar value. */
  function EncodeOne(c: Scalar): (units: seq<U16>)
    ensures 1 <= |units| <= 2
  {
    if c < 0x1_0000 then [c]
    else [0xD800 + (c - 0x1_0000) / 0x400, 0xDC00 + (c - 0x1_0000) % 0x400]
  }

  function Encode(text: seq<Scalar>): seq<U16> {
    if text == [] then [] else EncodeOne(text[0]) + Encode(text[1..])
  }

  lemma DecodeOneOfEncodeOne(c: Scalar, rest: seq<U16>)
    ensures DecodeOne(EncodeOne(c) + rest) == (Some(c), |EncodeOne(c)|)
  {
  }

  /** Decoding an encoded text gives back exactly its scalar values. */
  lemma {:induction false} DecodeOfEncode(text: seq<Scalar>)
    ensures |Decode(Encode(text))| == |text|
    ensures forall i | 0 <= i < |text| :: Decode(Encode(text))[i] == Some(text[i])
  {
    if text != [] {
      DecodeOfEncode(text[1..]);
      DecodeOneOfEncodeOne(text[0], Encode(text[1..]));
      var units := Encode(text);
      assert units[|EncodeOne(text[0])|..] == Encode(text[1..]);
    }
  }
}
