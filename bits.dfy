/** Fixed-width integers of the C# code and the little-endian conversions
    (BitConverter, BinaryPrimitives) the core relies on. The host is taken
    to be little-endian, as BitConverter is on every platform .NET runs on
    in practice. Values are mathematical integers restricted to the range
    of their C# type; every wrap-around is written out. */
module Bits {

  type u8 = x: int | 0 <= x < 0x100            // byte
  type u16 = x: int | 0 <= x < 0x1_0000        // ushort
  type i16 = x: int | -0x8000 <= x < 0x8000    // short
  type u32 = x: int | 0 <= x < 0x1_0000_0000   // uint
  type i32 = x: int | -0x8000_0000 <= x < 0x8000_0000  // int

  /** Truncation to 16 bits, as an unchecked assignment to a ushort does it. */
  function Wrap16(x: int): (r: u16)
  {
    x % 0x1_0000
  }

  /** (short)u: the 16-bit pattern u read as two's complement. */
  function AsShort(u: u16): (v: i16)
  {
    if u < 0x8000 then u else u - 0x1_0000
  }

  /** (ushort)v: the 16-bit pattern of the two's-complement value v. */
  function AsUshort(v: i16): (u: u16)
  {
    if v < 0 then v + 0x1_0000 else v
  }

  /** (int)u for a 32-bit pattern u. */
  function AsInt(u: u32): (v: i32)
  {
    if u < 0x8000_0000 then u else u - 0x1_0000_0000
  }

  /** (uint)v: the 32-bit pattern of v. */
  function AsUint(v: i32): (u: u32)
  {
    if v < 0 then v + 0x1_0000_0000 else v
  }

  lemma ShortPatternRoundTrip(v: i16, u: u16)
    ensures AsShort(AsUshort(v)) == v
    ensures AsUshort(AsShort(u)) == u
  {
  }

  lemma IntPatternRoundTrip(v: i32, u: u32)
    ensures AsInt(AsUint(v)) == v
    ensures AsUint(AsInt(u)) == u
  {
  }

  // ---------------------------------------------------------------------
  // Little-endian reads (BitConverter.ToUInt16/ToInt16 at an index,
  // BinaryPrimitives.Read*LittleEndian on a slice) and writes (GetBytes).

  /** The unsigned 16-bit value whose low byte is b[i] and high byte b[i+1]. */
  function ReadUInt16LE(b: seq<u8>, i: nat): (r: u16)
    requires i + 2 <= |b|
    ensures r % 0x100 == b[i] && r / 0x100 == b[i + 1]
  {
    b[i] as int + 0x100 * b[i + 1] as int
  }

  /** The signed 16-bit value stored little-endian at b[i], b[i+1]. */
  function ReadInt16LE(b: seq<u8>, i: nat): (r: i16)
    requires i + 2 <= |b|
    ensures AsUshort(r) % 0x100 == b[i] && AsUshort(r) / 0x100 == b[i + 1]
  {
    AsShort(ReadUInt16LE(b, i))
  }

  /** The unsigned 32-bit value stored little-endian at b[i..i+4]. */
  function ReadUInt32LE(b: seq<u8>, i: nat): (r: u32)
    requires i + 4 <= |b|
  {
    b[i] as int + 0x100 * b[i + 1] as int + 0x1_0000 * b[i + 2] as int + 0x100_0000 * b[i + 3] as int
  }

  /** The signed 32-bit value stored little-endian at b[i..i+4]. */
  function ReadInt32LE(b: seq<u8>, i: nat): (r: i32)
    requires i + 4 <= |b|
    ensures (r - (b[i] as int + 0x100 * b[i + 1] as int + 0x1_0000 * b[i + 2] as int + 0x100_0000 * b[i + 3] as int))
              % 0x1_0000_0000 == 0
    ensures r < 0 <==> b[i + 3] >= 0x80
  {
    AsInt(ReadUInt32LE(b, i))
  }

  /** BitConverter.GetBytes(short): the two bytes of v, low byte first. */
  function GetBytes16(v: i16): (b: seq<u8>)
    ensures |b| == 2
    ensures ReadInt16LE(b, 0) == v
  {
    var u := AsUshort(v);
    [u % 0x100, u / 0x100]
  }

  /** BinaryPrimitives.WriteUInt16LittleEndian: the two bytes of u, low byte first. */
  function GetBytesU16(u: u16): (b: seq<u8>)
    ensures |b| == 2
    ensures ReadUInt16LE(b, 0) == u
  {
    [u % 0x100, u / 0x100]
  }

  /** Encoding the short decoded at b[i], b[i+1] gives those two bytes back. */
  lemma BytesInt16RoundTrip(b: seq<u8>, i: nat)
    requires i + 2 <= |b|
    ensures GetBytes16(ReadInt16LE(b, i)) == b[i..i + 2]
  {
    ShortPatternRoundTrip(0, ReadUInt16LE(b, i));
  }

  /** BitConverter.GetBytes(int): the four bytes of v, lowest first. */
  function GetBytes32(v: i32): (b: seq<u8>)
    ensures |b| == 4
  {
    var u := AsUint(v);
    [u % 0x100, (u / 0x100) % 0x100, (u / 0x1_0000) % 0x100, u / 0x100_0000]
  }

  /** Decoding the four bytes of v gives v back. */
  lemma {:induction false} Int32BytesRoundTrip(v: i32)
    ensures ReadInt32LE(GetBytes32(v), 0) == v
  {
    var u := AsUint(v);
    var b := GetBytes32(v);
    Split32(u);
    assert ReadUInt32LE(b, 0) == u;
    IntPatternRoundTrip(v, u);
  }

  /** Encoding the value decoded at b[i..i+4] gives those four bytes back. */
  lemma {:induction false} BytesInt32RoundTrip(b: seq<u8>, i: nat)
    requires i + 4 <= |b|
    ensures GetBytes32(ReadInt32LE(b, i)) == b[i..i + 4]
  {
    var u := ReadUInt32LE(b, i);
    IntPatternRoundTrip(AsInt(u), u);
    assert AsUint(ReadInt32LE(b, i)) == u;
    Join32(b[i], b[i + 1], b[i + 2], b[i + 3]);
  }

  /** Only one int has a given four-byte encoding. */
  lemma Int32OfBytes(v: i32, b: seq<u8>)
    requires GetBytes32(v) == b
    ensures v == ReadInt32LE(b, 0)
  {
    Int32BytesRoundTrip(v);
  }

  /** Cycles++ on a C# int, unchecked: 0x7FFF_FFFF wraps to -0x8000_0000. */
  function Increment32(c: i32): (r: i32)
    ensures (r - c - 1) % 0x1_0000_0000 == 0
    ensures c < 0x7FFF_FFFF ==> r == c + 1
  {
    if c == 0x7FFF_FFFF then -0x8000_0000 else c + 1
  }

  lemma Split32(u: u32)
    ensures u == u % 0x100 + 0x100 * ((u / 0x100) % 0x100)
                 + 0x1_0000 * ((u / 0x1_0000) % 0x100) + 0x100_0000 * (u / 0x100_0000)
  {
    var q1 := u / 0x100;
    var q2 := q1 / 0x100;
    var q3 := q2 / 0x100;
    assert u == u % 0x100 + 0x100 * q1;
    assert q1 == q1 % 0x100 + 0x100 * q2;
    assert q2 == q2 % 0x100 + 0x100 * q3;
    assert u / 0x1_0000 == q2;
    assert u / 0x100_0000 == q3;
  }

  lemma Join32(b0: u8, b1: u8, b2: u8, b3: u8)
    ensures var u := b0 as int + 0x100 * b1 as int + 0x1_0000 * b2 as int + 0x100_0000 * b3 as int;
            u % 0x100 == b0 && (u / 0x100) % 0x100 == b1 &&
            (u / 0x1_0000) % 0x100 == b2 && u / 0x100_0000 == b3
  {
    var q2 := b2 as int + 0x100 * b3 as int;
    var q1 := b1 as int + 0x100 * q2;
    var u := b0 as int + 0x100 * q1;
    DivMod256(b0, q1);
    DivMod256(b1, q2);
    DivMod256(b2, b3);
    assert u / 0x1_0000 == q1 / 0x100;
    assert u / 0x100_0000 == q2 / 0x100;
  }

  lemma DivMod256(a: u8, q: nat)
    ensures (a + 0x100 * q) / 0x100 == q && (a + 0x100 * q) % 0x100 == a
  {
  }

  // ---------------------------------------------------------------------
  // Bitwise operators on shorts. C# promotes both operands to int; the
  // low 16 bits of the int result are the 16-bit operation on the two
  // patterns, and the cast back to short keeps exactly those (for `&`
  // the int result is already within the range of a short). The
  // operations are defined bit by bit, lowest bit first.

  function Pow2(n: nat): (p: nat)
    ensures p >= 1
  {
    if n == 0 then 1 else 2 * Pow2(n - 1)
  }

  lemma Pow2Values()
    ensures Pow2(15) == 0x8000 && Pow2(16) == 0x1_0000
  {
    assert Pow2(4) == 16;
    assert Pow2(8) == 256;
    assert Pow2(12) == 4096;
  }

  /** The exclusive or of the lowest n bits of a and b. */
  function XorBits(a: nat, b: nat, n: nat): nat
  {
    if n == 0 then 0
    else (if a % 2 == b % 2 then 0 else 1) + 2 * XorBits(a / 2, b / 2, n - 1)
  }

  /** The conjunction of the lowest n bits of a and b. */
  function AndBits(a: nat, b: nat, n: nat): nat
  {
    if n == 0 then 0
    else (if a % 2 == 1 && b % 2 == 1 then 1 else 0) + 2 * AndBits(a / 2, b / 2, n - 1)
  }

  lemma {:induction false} XorBitsBound(a: nat, b: nat, n: nat)
    ensures XorBits(a, b, n) < Pow2(n)
  {
    if n > 0 { XorBitsBound(a / 2, b / 2, n - 1); }
  }

  lemma {:induction false} AndBitsBound(a: nat, b: nat, n: nat)
    ensures AndBits(a, b, n) < Pow2(n)
  {
    if n > 0 { AndBitsBound(a / 2, b / 2, n - 1); }
  }

  /** Two n-bit numbers agree exactly when their exclusive or is zero. */
  lemma {:induction false} XorBitsZero(a: nat, b: nat, n: nat)
    requires a < Pow2(n) && b < Pow2(n)
    ensures XorBits(a, b, n) == 0 <==> a == b
  {
    if n > 0 { XorBitsZero(a / 2, b / 2, n - 1); }
  }

  /** The top bit of an exclusive or is set exactly when the top bits differ. */
  lemma {:induction false} XorBitsTop(a: nat, b: nat, n: nat)
    requires n >= 1 && a < Pow2(n) && b < Pow2(n)
    ensures XorBits(a, b, n) >= Pow2(n - 1) <==> ((a >= Pow2(n - 1)) != (b >= Pow2(n - 1)))
  {
    if n > 1 {
      XorBitsTop(a / 2, b / 2, n - 1);
    }
  }

  /** The top bit of a conjunction is set exactly when both top bits are. */
  lemma {:induction false} AndBitsTop(a: nat, b: nat, n: nat)
    requires n >= 1 && a < Pow2(n) && b < Pow2(n)
    ensures AndBits(a, b, n) >= Pow2(n - 1) <==> (a >= Pow2(n - 1) && b >= Pow2(n - 1))
  {
    if n > 1 {
      AndBitsTop(a / 2, b / 2, n - 1);
    }
  }

  /** All ones is the unit of conjunction, zero its absorbing element. */
  lemma {:induction false} AndBitsUnits(a: nat, n: nat)
    requires a < Pow2(n)
    ensures AndBits(a, Pow2(n) - 1, n) == a
    ensures AndBits(a, 0, n) == 0
  {
    if n > 0 { AndBitsUnits(a / 2, n - 1); }
  }

  /** Exclusive or with a fixed operand undoes itself. */
  lemma {:induction false} XorBitsCancel(a: nat, b: nat, n: nat)
    requires a < Pow2(n)
    ensures XorBits(XorBits(a, b, n), b, n) == a
  {
    if n > 0 {
      XorBitsCancel(a / 2, b / 2, n - 1);
      var c := XorBits(a, b, n);
      var d := if a % 2 == b % 2 then 0 else 1;
      assert c == d + 2 * XorBits(a / 2, b / 2, n - 1);
      assert c % 2 == d && c / 2 == XorBits(a / 2, b / 2, n - 1);
    }
  }

  /** (short)(a ^ b) */
  function Xor16(a: i16, b: i16): (r: i16)
    ensures r == 0 <==> a == b
    ensures r < 0 <==> ((a < 0) != (b < 0))
  {
    var x, y := AsUshort(a), AsUshort(b);
    Pow2Values();
    XorBitsBound(x, y, 16);
    XorBitsZero(x, y, 16);
    XorBitsTop(x, y, 16);
    ShortPatternRoundTrip(a, 0);
    ShortPatternRoundTrip(b, 0);
    AsShort(XorBits(x, y, 16))
  }

  /** a & b, which as an int is always within the range of a short. */
  function And16(a: i16, b: i16): (r: i16)
    ensures r < 0 <==> (a < 0 && b < 0)
    ensures b == -1 ==> r == a
    ensures b == 0 ==> r == 0
  {
    var x, y := AsUshort(a), AsUshort(b);
    Pow2Values();
    AndBitsBound(x, y, 16);
    AndBitsTop(x, y, 16);
    AndBitsUnits(x, 16);
    ShortPatternRoundTrip(a, 0);
    AsShort(AndBits(x, y, 16))
  }

  /** Xor16 with a fixed operand is an involution. */
  lemma {:induction false} XorInvolution(a: i16, b: i16)
    ensures Xor16(Xor16(a, b), b) == a
  {
    var x, y := AsUshort(a), AsUshort(b);
    Pow2Values();
    XorBitsBound(x, y, 16);
    var c := XorBits(x, y, 16);
    ShortPatternRoundTrip(a, c);
    assert AsUshort(Xor16(a, b)) == c;
    XorBitsCancel(x, y, 16);
  }

  /** Zero is the unit of exclusive or. */
  lemma {:induction false} XorBitsZeroLeft(b: nat, n: nat)
    requires b < Pow2(n)
    ensures XorBits(0, b, n) == b
  {
    if n > 0 { XorBitsZeroLeft(b / 2, n - 1); }
  }

  lemma XorZeroUnit(b: i16)
    ensures Xor16(0, b) == b
  {
    Pow2Values();
    XorBitsZeroLeft(AsUshort(b), 16);
    ShortPatternRoundTrip(b, 0);
  }

  /** The nibbles of a byte, as `b >> 4` and `b & 0b1111` give them. */
  function HighNibble(b: u8): (n: nat)
    ensures n < 16 && n * 16 <= b < n * 16 + 16
  {
    b / 16
  }

  function LowNibble(b: u8): (n: nat)
    ensures n < 16 && (b - n) % 16 == 0
  {
    b % 16
  }
}
