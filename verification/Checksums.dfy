/**
  Fixed-width integers and the masked CRC32C of a byte string (util/coding.cc, util/crc32c.h; the checksum is
  the one of section 12.1 of RFC 3720, computed bit by bit on numbers below 2^32).
*/
module Checksums {
  import opened InternalKeys
  import opened IntegerSizes

  type Word = x: int | 0 <= x < TWO_32

  const POLYNOMIAL: Word := 0x82F6_3B78
  const MASK_DELTA: Word := 0xA282_EAD8

  // ---------------------------------------------------------------- bits

  function Pow2(n: nat): (r: nat)
    ensures r > 0
  {
    if n == 0 then 1 else 2 * Pow2(n - 1)
  }

  /** Exclusive or of the lowest `n` bits. */
  function Xor(a: nat, b: nat, n: nat): (r: nat)
    ensures r < Pow2(n)
  {
    if n == 0 then 0 else 2 * Xor(a / 2, b / 2, n - 1) + (a + b) % 2
  }

  lemma WordSize()
    ensures Pow2(32) == TWO_32
  {
    assert Pow2(8) == 256;
    assert Pow2(16) == 0x1_0000;
    assert Pow2(24) == 0x100_0000;
  }

  function XorWord(a: nat, b: nat): Word {
    WordSize();
    Xor(a, b, 32)
  }

  function Complement(x: Word): (r: Word)
    ensures TWO_32 - 1 - r == x
  {
    TWO_32 - 1 - x
  }

  // ---------------------------------------------------------------- the checksum

  function ShiftBit(crc: Word): Word {
    if crc % 2 == 1 then XorWord(crc / 2, POLYNOMIAL) else crc / 2
  }

  function ShiftOut(crc: Word, bits: nat): Word
    decreases bits
  {
    if bits == 0 then crc else ShiftOut(ShiftBit(crc), bits - 1)
  }

  function Feed(crc: Word, b: Byte): Word {
    ShiftOut(XorWord(crc, b), 8)
  }

  function FeedAll(crc: Word, data: Bytes): Word {
    if data == [] then crc else Feed(FeedAll(crc, data[..|data| - 1]), data[|data| - 1])
  }

  /** crc32c::Extend */
  function Extend(crc: Word, data: Bytes): Word {
    Complement(FeedAll(Complement(crc), data))
  }

  /** crc32c::Value */
  function Value(data: Bytes): Word {
    Extend(0, data)
  }

  lemma {:induction false} FeedConcat(crc: Word, a: Bytes, b: Bytes)
    ensures FeedAll(crc, a + b) == FeedAll(FeedAll(crc, a), b)
    decreases |b|
  {
    hide Feed;
    if b == [] {
      assert a + b == a;
    } else {
      assert (a + b)[..|a + b| - 1] == a + b[..|b| - 1];
      FeedConcat(crc, a, b[..|b| - 1]);
    }
  }

  /** Extending the checksum of `a` by `b` gives the checksum of both. */
  lemma ExtendValue(a: Bytes, b: Bytes)
    ensures Extend(Value(a), b) == Value(a + b)
  {
    FeedConcat(Complement(0), a, b);
  }

  // ---------------------------------------------------------------- masking

  function RotateRight15(x: Word): Word {
    x / 0x8000 + x % 0x8000 * 0x2_0000
  }

  function RotateLeft15(x: Word): Word {
    x / 0x2_0000 + x % 0x2_0000 * 0x8000
  }

  function Mask(crc: Word): Word {
    AddWord(RotateRight15(crc), MASK_DELTA)
  }

  function Unmask(masked: Word): Word {
    RotateLeft15(SubtractWord(masked, MASK_DELTA))
  }

  function AddWord(a: Word, b: Word): Word {
    if a + b < TWO_32 then a + b else a + b - TWO_32
  }

  function SubtractWord(a: Word, b: Word): Word {
    if a >= b then a - b else a - b + TWO_32
  }

  lemma RotateBack(x: Word)
    ensures RotateLeft15(RotateRight15(x)) == x
    ensures RotateRight15(RotateLeft15(x)) == x
  {
    var hi, lo := x / 0x8000, x % 0x8000;
    assert (hi + lo * 0x2_0000) / 0x2_0000 == lo && (hi + lo * 0x2_0000) % 0x2_0000 == hi;
    var hi', lo' := x / 0x2_0000, x % 0x2_0000;
    assert (hi' + lo' * 0x8000) / 0x8000 == lo' && (hi' + lo' * 0x8000) % 0x8000 == hi';
  }

  lemma MaskInverse(crc: Word)
    ensures Unmask(Mask(crc)) == crc
    ensures Mask(Unmask(crc)) == crc
  {
    RotateBack(crc);
    RotateBack(SubtractWord(crc, MASK_DELTA));
    hide RotateLeft15, RotateRight15;
  }

  // ---------------------------------------------------------------- fixed-width little-endian integers

  function EncodeFixed32(x: Word): (r: Bytes)
    ensures |r| == 4
  {
    [x % 256, x / 256 % 256, x / 256 / 256 % 256, x / 256 / 256 / 256]
  }

  function DecodeFixed32(b: Bytes): (x: Word)
    requires |b| >= 4
  {
    var b0: int, b1: int, b2: int, b3: int := b[0], b[1], b[2], b[3];
    b0 + 256 * (b1 + 256 * (b2 + 256 * b3))
  }

  lemma Fixed32RoundTrip(x: Word)
    ensures DecodeFixed32(EncodeFixed32(x)) == x
  {
    var a := x / 256;
    var b := a / 256;
    assert x == x % 256 + 256 * a && a == a % 256 + 256 * b && b == b % 256 + 256 * (b / 256);
  }

  lemma EncodedAgain(b: Bytes)
    requires |b| >= 4
    ensures EncodeFixed32(DecodeFixed32(b)) == b[..4]
  {
    var b0: int, b1: int, b2: int, b3: int := b[0], b[1], b[2], b[3];
    var x := DecodeFixed32(b);
    assert x % 256 == b0 && x / 256 == b1 + 256 * (b2 + 256 * b3);
    assert x / 256 % 256 == b1 && x / 256 / 256 == b2 + 256 * b3;
    assert x / 256 / 256 % 256 == b2 && x / 256 / 256 / 256 == b3;
  }
}
