/** Bytes, fixed-width integers and their little-endian form. */
module Bytes {

  type Byte = b: int | 0 <= b < 0x100
  type U16 = n: int | 0 <= n < 0x1_0000
  type U32 = n: int | 0 <= n < 0x1_0000_0000
  type U64 = n: int | 0 <= n < 0x1_0000_0000_0000_0000

  function Pow256(width: nat): (p: nat)
    ensures p > 0
  {
    if width == 0 then 1 else 0x100 * Pow256(width - 1)
  }

  lemma WordSizes()
    ensures Pow256(1) == 0x100
    ensures Pow256(2) == 0x1_0000
    ensures Pow256(4) == 0x1_0000_0000
    ensures Pow256(8) == 0x1_0000_0000_0000_0000
  {
    assert Pow256(1) == 0x100 * Pow256(0);
    assert Pow256(2) == 0x100 * Pow256(1);
    assert Pow256(3) == 0x100 * Pow256(2);
    assert Pow256(4) == 0x100 * Pow256(3);
    assert Pow256(5) == 0x100 * Pow256(4);
    assert Pow256(6) == 0x100 * Pow256(5);
    assert Pow256(7) == 0x100 * Pow256(6);
    assert Pow256(8) == 0x100 * Pow256(7);
  }

  /** The `width` low-order bytes of `value`, least significant first. */
  function Le(width: nat, value: nat): (bytes: seq<Byte>)
    ensures |bytes| == width
  {
    if width == 0 then [] else [value % 0x100] + Le(width - 1, value / 0x100)
  }

  function FromLe(bytes: seq<Byte>): (value: nat)
    ensures value < Pow256(|bytes|)
  {
    if bytes == [] then 0 else bytes[0] + 0x100 * FromLe(bytes[1..])
  }

  lemma {:induction false} FromLeOfLe(width: nat, value: nat)
    requires value < Pow256(width)
    ensures FromLe(Le(width, value)) == value
  {
    if width > 0 {
      assert value / 0x100 < Pow256(width - 1);
      FromLeOfLe(width - 1, value / 0x100);
      assert Le(width, value)[1..] == Le(width - 1, value / 0x100);
    }
  }

  lemma {:induction false} LeOfFromLe(bytes: seq<Byte>)
    ensures Le(|bytes|, FromLe(bytes)) == bytes
  {
    if bytes != [] {
      LeOfFromLe(bytes[1..]);
      assert FromLe(bytes) / 0x100 == FromLe(bytes[1..]);
      assert FromLe(bytes) % 0x100 == bytes[0];
      assert bytes == [bytes[0]] + bytes[1..];
    }
  }

  /** The value of two, four and eight bytes: `from_le_bytes`. */
  function U16Of(bytes: seq<Byte>): U16
    requires |bytes| == 2
  {
    WordSizes();
    FromLe(bytes)
  }

  function U32Of(bytes: seq<Byte>): U32
    requires |bytes| == 4
  {
    WordSizes();
    FromLe(bytes)
  }

  function U64Of(bytes: seq<Byte>): U64
    requires |bytes| == 8
  {
    WordSizes();
    FromLe(bytes)
  }

  /** `to_le_bytes` and `from_le_bytes` undo each other at every width in use. */
  lemma WordRoundTrips(n16: U16, n32: U32, n64: U64)
    ensures U16Of(Le(2, n16)) == n16
    ensures U32Of(Le(4, n32)) == n32
    ensures U64Of(Le(8, n64)) == n64
  {
    WordSizes();
    FromLeOfLe(2, n16);
    FromLeOfLe(4, n32);
    FromLeOfLe(8, n64);
  }

  /** Consecutive byte pairs as code units: `as_chunks::<2>` and `from_le_bytes`. */
  function Units(bytes: seq<Byte>): (units: seq<U16>)
    requires |bytes| % 2 == 0
    ensures |units| == |bytes| / 2
  {
    if bytes == [] then [] else [U16Of(bytes[..2])] + Units(bytes[2..])
  }

  function UnitBytes(units: seq<U16>): (bytes: seq<Byte>)
    ensures |bytes| == 2 * |units|
  {
    if units == [] then [] else Le(2, units[0]) + UnitBytes(units[1..])
  }

  lemma {:induction false} UnitsOfUnitBytes(units: seq<U16>)
    ensures Units(UnitBytes(units)) == units
  {
    if units != [] {
      UnitsOfUnitBytes(units[1..]);
      WordRoundTrips(units[0], 0, 0);
      var bytes := UnitBytes(units);
      assert bytes[..2] == Le(2, units[0]) && bytes[2..] == UnitBytes(units[1..]);
    }
  }

  lemma {:induction false} UnitBytesOfUnits(bytes: seq<Byte>)
    requires |bytes| % 2 == 0
    ensures UnitBytes(Units(bytes)) == bytes
  {
    if bytes != [] {
      UnitBytesOfUnits(bytes[2..]);
      LeOfFromLe(bytes[..2]);
      assert Units(bytes)[1..] == Units(bytes[2..]);
      assert bytes == bytes[..2] + bytes[2..];
    }
  }

  lemma {:induction false} UnitBytesAppend(units: seq<U16>, unit: U16)
    ensures UnitBytes(units + [unit]) == UnitBytes(units) + Le(2, unit)
  {
    if units == [] {
      assert UnitBytes([unit]) == Le(2, unit) + UnitBytes([]);
    } else {
      UnitBytesAppend(units[1..], unit);
      assert (units + [unit])[1..] == units[1..] + [unit];
    }
  }

  lemma Assoc<T>(a: seq<T>, b: seq<T>, c: seq<T>)
    ensures a + b + c == a + (b + c)
  {
  }

  // Positions in a byte string.

  /** Where `front` stands at `i`, its bytes are the ones found from there on. */
  lemma At(bytes: seq<Byte>, i: nat, front: seq<Byte>)
    requires i + |front| <= |bytes| && bytes[i..i + |front|] == front
    ensures forall k | i <= k < i + |front| :: bytes[k] == front[k - i]
  {
    forall k | i <= k < i + |front| ensures bytes[k] == front[k - i] {
      assert bytes[k] == bytes[i..i + |front|][k - i];
    }
  }

  /** Take `front` off what lies ahead of `i`. */
  lemma Cut(bytes: seq<Byte>, i: nat, front: seq<Byte>, rest: seq<Byte>)
    requires i <= |bytes| && bytes[i..] == front + rest
    ensures i + |front| <= |bytes| && i + |front| == |bytes| - |rest|
    ensures bytes[i..i + |front|] == front
    ensures bytes[i + |front|..] == rest
    ensures front != [] ==> bytes[i] == front[0]
    ensures rest != [] ==> bytes[i + |front|] == rest[0]
  {
    assert bytes[i..i + |front|] == bytes[i..][..|front|];
    assert bytes[i + |front|..] == bytes[i..][|front|..];
    At(bytes, i, front);
    assert rest != [] ==> bytes[i + |front|] == bytes[i + |front|..][0];
  }

  lemma Join(bytes: seq<Byte>, i: nat, j: nat, k: nat)
    requires i <= j <= k <= |bytes|
    ensures bytes[i..k] == bytes[i..j] + bytes[j..k]
  {
  }
}
