/**
  The checksum as the code computes it (util/crc32c.cc): bytes up to an aligned address, then sixteen and four at a
  time by tables, then the rest.  It is the checksum computed bit by bit, wherever the data starts.
*/
module Crc32c {
  import opened InternalKeys
  import opened IntegerSizes
  import opened Checksums

  // ---------------------------------------------------------------- exclusive or

  lemma {:induction false} XorSwaps(a: nat, b: nat, n: nat)
    ensures Xor(a, b, n) == Xor(b, a, n)
    decreases n
  {
    if n > 0 {
      XorSwaps(a / 2, b / 2, n - 1);
    }
  }

  lemma XorHalf(a: nat, b: nat, n: nat)
    requires n > 0
    ensures Xor(a, b, n) / 2 == Xor(a / 2, b / 2, n - 1) && Xor(a, b, n) % 2 == (a + b) % 2
  {
  }

  lemma XorStep(a: nat, b: nat, n: nat)
    requires n > 0
    ensures Xor(a, b, n) == 2 * Xor(a / 2, b / 2, n - 1) + (a + b) % 2
  {
  }

  lemma Parity(a: nat, b: nat, c: nat, x: nat, y: nat)
    requires x % 2 == (a + b) % 2 && y % 2 == (b + c) % 2
    ensures (x + c) % 2 == (a + y) % 2
  {
  }

  lemma {:induction false} XorGroups(a: nat, b: nat, c: nat, n: nat)
    ensures Xor(Xor(a, b, n), c, n) == Xor(a, Xor(b, c, n), n)
    decreases n
  {
    if n > 0 {
      hide Xor;
      var x, y := Xor(a, b, n), Xor(b, c, n);
      XorHalf(a, b, n);
      XorHalf(b, c, n);
      XorStep(x, c, n);
      XorStep(a, y, n);
      Parity(a, b, c, x, y);
      XorGroups(a / 2, b / 2, c / 2, n - 1);
    }
  }

  lemma {:induction false} XorSelf(a: nat, n: nat)
    ensures Xor(a, a, n) == 0
    decreases n
  {
    if n > 0 {
      XorSelf(a / 2, n - 1);
    }
  }

  lemma {:induction false} XorZero(a: nat, n: nat)
    requires a < Pow2(n)
    ensures Xor(a, 0, n) == a
    decreases n
  {
    if n > 0 {
      XorZero(a / 2, n - 1);
    }
  }

  /** Small numbers have no bits further up. */
  lemma {:induction false} XorSmall(a: nat, b: nat, n: nat)
    requires a < Pow2(n) && b < Pow2(n)
    ensures Xor(a, b, n + 1) == Xor(a, b, n)
    decreases n
  {
    if n > 0 {
      XorSmall(a / 2, b / 2, n - 1);
    }
  }

  lemma XorZeroWord(a: Word)
    ensures XorWord(a, 0) == a && XorWord(0, a) == a
  {
    WordSize();
    XorZero(a, 32);
    XorSwaps(a, 0, 32);
  }

  lemma XorRegroup(a: Word, b: Word, c: Word)
    ensures XorWord(XorWord(a, b), c) == XorWord(a, XorWord(b, c))
    ensures XorWord(a, b) == XorWord(b, a)
  {
    XorGroups(a, b, c, 32);
    XorSwaps(a, b, 32);
  }

  /** (a ^ c) ^ (b ^ d) == (a ^ b) ^ (c ^ d) */
  lemma XorPairs(a: Word, b: Word, c: Word, d: Word)
    ensures XorWord(XorWord(a, c), XorWord(b, d)) == XorWord(XorWord(a, b), XorWord(c, d))
  {
    hide XorWord;
    XorRegroup(a, c, XorWord(b, d));
    XorRegroup(c, b, d);
    XorRegroup(b, c, d);
    XorRegroup(a, b, XorWord(c, d));
  }

  lemma XorWordHalf(a: Word, b: Word)
    ensures XorWord(a, b) / 2 == XorWord(a / 2, b / 2) && XorWord(a, b) % 2 == (a + b) % 2
  {
    WordSize();
    assert Pow2(32) == 2 * Pow2(31);
    XorHalf(a, b, 32);
    XorSmall(a / 2, b / 2, 31);
  }

  // ---------------------------------------------------------------- shifting is linear

  lemma ShiftBitLinear(a: Word, b: Word)
    ensures ShiftBit(XorWord(a, b)) == XorWord(ShiftBit(a), ShiftBit(b))
  {
    XorWordHalf(a, b);
    hide XorWord;
    var p: Word := POLYNOMIAL;
    var a0: Word, b0: Word := if a % 2 == 1 then p else 0, if b % 2 == 1 then p else 0;
    MaybePolynomial(a);
    MaybePolynomial(b);
    MaybePolynomial(XorWord(a, b));
    XorPairs(a / 2, b / 2, a0, b0);
    XorPolynomials(a % 2 == 1, b % 2 == 1);
  }

  lemma MaybePolynomial(a: Word)
    ensures ShiftBit(a) == XorWord(a / 2, if a % 2 == 1 then POLYNOMIAL else 0)
  {
    XorZeroWord(a / 2);
    hide XorWord;
  }

  lemma XorPolynomials(a: bool, b: bool)
    ensures XorWord(if a then POLYNOMIAL else 0, if b then POLYNOMIAL else 0) == if a != b then POLYNOMIAL else 0
  {
    XorSelf(POLYNOMIAL, 32);
    XorZeroWord(POLYNOMIAL);
    XorZeroWord(0);
    hide Xor;
  }

  lemma {:induction false} ShiftLinear(a: Word, b: Word, n: nat)
    ensures ShiftOut(XorWord(a, b), n) == XorWord(ShiftOut(a, n), ShiftOut(b, n))
    decreases n
  {
    hide XorWord, ShiftBit;
    if n > 0 {
      ShiftBitLinear(a, b);
      ShiftLinear(ShiftBit(a), ShiftBit(b), n - 1);
    }
  }

  lemma {:induction false} ShiftTwice(a: Word, m: nat, n: nat)
    ensures ShiftOut(ShiftOut(a, m), n) == ShiftOut(a, m + n)
    decreases m
  {
    hide ShiftBit;
    if m > 0 {
      ShiftTwice(ShiftBit(a), m - 1, n);
    }
  }

  /** A number doubled `n` times. */
  function Up(a: nat, n: nat): (r: nat)
    ensures r >= a
  {
    if n == 0 then a else 2 * Up(a, n - 1)
  }

  lemma {:induction false} ShiftZeros(a: nat, n: nat)
    requires Up(a, n) < TWO_32
    ensures ShiftOut(Up(a, n), n) == a
    decreases n
  {
    if n > 0 {
      ShiftZeros(a, n - 1);
      assert ShiftBit(Up(a, n)) == Up(a, n - 1);
      hide ShiftBit;
    }
  }

  lemma UpBytes(a: nat)
    ensures Up(a, 8) == a * 0x100 && Up(a, 16) == a * 0x1_0000 && Up(a, 24) == a * 0x100_0000
  {
    UpEight(a, 0);
    UpEight(a, 8);
    UpEight(a, 16);
  }

  lemma UpEight(a: nat, n: nat)
    ensures Up(a, n + 8) == 0x100 * Up(a, n)
  {
    assert Up(a, n + 4) == 16 * Up(a, n) by {
      assert Up(a, n + 4) == 2 * Up(a, n + 3) && Up(a, n + 3) == 2 * Up(a, n + 2) && Up(a, n + 2) == 2 * Up(a, n + 1);
    }
    assert Up(a, n + 8) == 2 * Up(a, n + 7) && Up(a, n + 7) == 2 * Up(a, n + 6) && Up(a, n + 6) == 2 * Up(a, n + 5) && Up(a, n + 5) == 2 * Up(a, n + 4);
  }

  lemma ZerosShifted(a: Word)
    ensures a < 0x100_0000 ==> ShiftOut(a * 0x100, 8) == a
    ensures a < 0x1_0000 ==> ShiftOut(a * 0x1_0000, 16) == a
    ensures a < 0x100 ==> ShiftOut(a * 0x100_0000, 24) == a
  {
    hide ShiftOut, Up;
    UpBytes(a);
    if a < 0x100_0000 {
      ShiftZeros(a, 8);
    }
    if a < 0x1_0000 {
      ShiftZeros(a, 16);
    }
    if a < 0x100 {
      ShiftZeros(a, 24);
    }
  }

  /** Bits that do not meet: exclusive or is addition. */
  lemma {:induction false} XorApart(low: nat, high: nat, m: nat, n: nat)
    requires low < Pow2(m) && m <= n && low + Up(high, m) < Pow2(n)
    ensures Xor(low, Up(high, m), n) == low + Up(high, m)
    decreases n
  {
    if m == 0 {
      XorZero(high, n);
      XorSwaps(0, high, n);
    } else {
      var x := Up(high, m);
      assert x / 2 == Up(high, m - 1) && (low + x) % 2 == low % 2;
      XorApart(low / 2, high, m - 1, n - 1);
    }
  }

  lemma Disjoint(low: Word, high: nat)
    ensures low < 0x100 && high < 0x100_0000 ==> XorWord(low, high * 0x100) == low + high * 0x100
    ensures low < 0x1_0000 && high < 0x1_0000 ==> XorWord(low, high * 0x1_0000) == low + high * 0x1_0000
    ensures low < 0x100_0000 && high < 0x100 ==> XorWord(low, high * 0x100_0000) == low + high * 0x100_0000
  {
    WordSize();
    UpBytes(high);
    hide Xor, Up;
    assert Pow2(8) == 0x100;
    assert Pow2(16) == 0x1_0000;
    assert Pow2(24) == 0x100_0000;
    hide Pow2;
    if low < 0x100 && high < 0x100_0000 {
      XorApart(low, high, 8, 32);
    }
    if low < 0x1_0000 && high < 0x1_0000 {
      XorApart(low, high, 16, 32);
    }
    if low < 0x100_0000 && high < 0x100 {
      XorApart(low, high, 24, 32);
    }
  }

  // ---------------------------------------------------------------- the tables

  /** table0_ to table3_: a byte shifted out behind up to three others. */
  function TableEntry(t: nat, c: nat): Word
    requires t < 4 && c < 0x100
  {
    ShiftOut(c, 8 * (t + 1))
  }

  /** One byte by a table. */
  lemma TableStep(l: Word, b: Byte)
    ensures XorWord(l % 0x100, b) < 0x100
    ensures Feed(l, b) == XorWord(TableEntry(0, XorWord(l % 0x100, b)), l / 0x100)
  {
    hide XorWord, ShiftOut;
    var high := l / 0x100;
    LowByte(l % 0x100, b);
    Disjoint(l % 0x100, high);
    XorRegroup(l % 0x100, high * 0x100, b);
    XorRegroup(l % 0x100, b, high * 0x100);
    XorRegroup(high * 0x100, b, 0);
    var c := XorWord(l % 0x100, b);
    assert XorWord(l, b) == XorWord(c, high * 0x100);
    ShiftLinear(c, high * 0x100, 8);
    ZerosShifted(high);
  }

  lemma {:induction false} XorBelow(a: nat, b: nat, m: nat, n: nat)
    requires a < Pow2(m) && b < Pow2(m) && m <= n
    ensures Xor(a, b, n) < Pow2(m)
    decreases n - m
  {
    if m < n {
      XorBelow(a, b, m, n - 1);
      GrowsPow(m, n - 1);
      XorSmall(a, b, n - 1);
    }
  }

  lemma {:induction false} GrowsPow(m: nat, n: nat)
    requires m <= n
    ensures Pow2(m) <= Pow2(n)
    decreases n
  {
    if m < n {
      GrowsPow(m, n - 1);
    }
  }

  lemma LowByte(a: nat, b: Byte)
    requires a < 0x100
    ensures XorWord(a, b) < 0x100
  {
    assert Pow2(8) == 0x100;
    WordSize();
    hide Pow2;
    XorBelow(a, b, 8, 32);
  }

  /** Feeding four bytes is feeding their word and shifting all of it out. */
  lemma FourFeeds(l: Word, b0: Byte, b1: Byte, b2: Byte, b3: Byte)
    ensures Feed(Feed(Feed(Feed(l, b0), b1), b2), b3) == ShiftOut(XorWord(l, DecodeFixed32([b0, b1, b2, b3])), 32)
  {
    hide XorWord, ShiftOut;
    var w0: int, w1: int, w2: int := b0, b0 + 0x100 * (b1 as int), b0 as int + 0x100 * (b1 as int) + 0x1_0000 * (b2 as int);
    XorLast(l, w0, b1, 8);
    XorLast(l, w1, b2, 16);
    XorLast(l, w2, b3, 24);
    assert DecodeFixed32([b0, b1, b2, b3]) == w2 + 0x100_0000 * (b3 as int);
  }

  /** A byte fed after `n` bits is a byte that stands `n` bits further up. */
  lemma XorLast(l: Word, w: Word, b: Byte, n: nat)
    requires n == 8 || n == 16 || n == 24
    requires w < (if n == 8 then 0x100 else if n == 16 then 0x1_0000 else 0x100_0000)
    ensures var up: int := (b as int) * (if n == 8 then 0x100 else if n == 16 then 0x1_0000 else 0x100_0000);
            && w + up < TWO_32
            && Feed(ShiftOut(XorWord(l, w), n), b) == ShiftOut(XorWord(l, w + up), n + 8)
  {
    hide XorWord, ShiftOut;
    var up: Word := (b as int) * (if n == 8 then 0x100 else if n == 16 then 0x1_0000 else 0x100_0000);
    Disjoint(w, b);
    ZerosShifted(b);
    assert ShiftOut(up, n) == b;
    ShiftLinear(XorWord(l, w), up, n);
    XorRegroup(l, w, up);
    ShiftTwice(XorWord(l, w + up), n, 8);
  }

  /** A byte further up takes fewer bits to shift out. */
  lemma Raised(c: nat)
    requires c < 0x100
    ensures ShiftOut(c, 32) == TableEntry(3, c)
    ensures ShiftOut(c * 0x100, 32) == TableEntry(2, c)
    ensures ShiftOut(c * 0x1_0000, 32) == TableEntry(1, c)
    ensures ShiftOut(c * 0x100_0000, 32) == TableEntry(0, c)
  {
    hide ShiftOut;
    ZerosShifted(c);
    ShiftTwice(c * 0x100, 8, 24);
    ShiftTwice(c * 0x1_0000, 16, 16);
    ShiftTwice(c * 0x100_0000, 24, 8);
  }

  lemma OneMoreByte(low: Word, up: Word)
    requires low + up < TWO_32 && XorWord(low, up) == low + up
    ensures ShiftOut(low + up, 32) == XorWord(ShiftOut(low, 32), ShiftOut(up, 32))
  {
    hide XorWord, ShiftOut;
    ShiftLinear(low, up, 32);
  }

  lemma TableBytes(c0: nat, c1: nat, c2: nat, c3: nat)
    requires c0 < 0x100 && c1 < 0x100 && c2 < 0x100 && c3 < 0x100
    ensures ShiftOut(c0 + c1 * 0x100 + c2 * 0x1_0000 + c3 * 0x100_0000, 32) ==
            XorWord(XorWord(XorWord(TableEntry(3, c0), TableEntry(2, c1)), TableEntry(1, c2)), TableEntry(0, c3))
  {
    hide XorWord, ShiftOut, TableEntry;
    var two, three := c0 + c1 * 0x100, c0 + c1 * 0x100 + c2 * 0x1_0000;
    Disjoint(c0, c1);
    Disjoint(two, c2);
    Disjoint(three, c3);
    OneMoreByte(c0, c1 * 0x100);
    OneMoreByte(two, c2 * 0x1_0000);
    OneMoreByte(three, c3 * 0x100_0000);
    Raised(c0);
    Raised(c1);
    Raised(c2);
    Raised(c3);
  }

  /** Four bytes by four tables. */
  lemma TablesStep(c: Word)
    ensures ShiftOut(c, 32) ==
            XorWord(XorWord(XorWord(TableEntry(3, c % 0x100), TableEntry(2, c / 0x100 % 0x100)), TableEntry(1, c / 0x1_0000 % 0x100)), TableEntry(0, c / 0x100_0000))
  {
    hide *;
    BytesOf(c, c % 0x100, c / 0x100 % 0x100, c / 0x1_0000 % 0x100, c / 0x100_0000);
    TableBytes(c % 0x100, c / 0x100 % 0x100, c / 0x1_0000 % 0x100, c / 0x100_0000);
  }

  lemma BytesOf(c: Word, c0: nat, c1: nat, c2: nat, c3: nat)
    requires c0 == c % 0x100 && c1 == c / 0x100 % 0x100 && c2 == c / 0x1_0000 % 0x100 && c3 == c / 0x100_0000
    ensures c == c0 + c1 * 0x100 + c2 * 0x1_0000 + c3 * 0x100_0000 && c3 < 0x100
  {
    assert c / 0x1_0000 == c / 0x100 / 0x100 && c / 0x100_0000 == c / 0x1_0000 / 0x100;
  }

  // ---------------------------------------------------------------- Extend

  /** STEP1 */
  method Step1(l: Word, b: Byte) returns (r: Word)
    ensures r == Feed(l, b)
  {
    TableStep(l, b);
    hide XorWord, Feed;
    var c := XorWord(l % 0x100, b);
    r := XorWord(TableEntry(0, c), l / 0x100);
  }

  /** STEP4 */
  method Step4(l: Word, data: Bytes, p: nat) returns (r: Word)
    requires p + 4 <= |data|
    ensures r == Feed(Feed(Feed(Feed(l, data[p]), data[p + 1]), data[p + 2]), data[p + 3])
  {
    FourFeeds(l, data[p], data[p + 1], data[p + 2], data[p + 3]);
    hide XorWord, Feed, ShiftOut, TableEntry;
    var c := XorWord(l, DecodeFixed32(data[p..p + 4]));
    assert data[p..p + 4] == [data[p], data[p + 1], data[p + 2], data[p + 3]];
    TablesStep(c);
    r := XorWord(XorWord(XorWord(TableEntry(3, c % 0x100), TableEntry(2, c / 0x100 % 0x100)), TableEntry(1, c / 0x1_0000 % 0x100)), TableEntry(0, c / 0x100_0000));
  }

  lemma FeedNext(crc: Word, data: Bytes, p: nat)
    requires p < |data|
    ensures FeedAll(crc, data[..p + 1]) == Feed(FeedAll(crc, data[..p]), data[p])
  {
    hide Feed;
    assert data[..p + 1][..p] == data[..p];
  }

  lemma FeedFour(crc: Word, data: Bytes, p: nat)
    requires p + 4 <= |data|
    ensures FeedAll(crc, data[..p + 4]) == Feed(Feed(Feed(Feed(FeedAll(crc, data[..p]), data[p]), data[p + 1]), data[p + 2]), data[p + 3])
  {
    hide Feed, FeedAll;
    FeedNext(crc, data, p);
    FeedNext(crc, data, p + 1);
    FeedNext(crc, data, p + 2);
    FeedNext(crc, data, p + 3);
  }

  /** crc32c::Extend, for data that begins `address` bytes behind an aligned place. */
  method ExtendByTables(crc: Word, data: Bytes, address: nat) returns (r: Word)
    ensures r == Extend(crc, data)
  {
    hide Feed, FeedAll, Complement;
    var l := Complement(crc);
    ghost var start := l;
    var p := 0;
    assert FeedAll(start, data[..0]) == start by { NothingFed(start, data); }
    var x := (address + 3) / 4 * 4 - address;
    if x <= |data| {
      while p != x
        invariant p <= x && l == FeedAll(start, data[..p])
      {
        FeedNext(start, data, p);
        l := Step1(l, data[p]);
        p := p + 1;
      }
    }
    while |data| - p >= 16
      invariant p <= |data| && l == FeedAll(start, data[..p])
    {
      ghost var from := p;
      for i := 0 to 4
        invariant p == from + 4 * i <= |data| && |data| - p >= 4 * (4 - i) && l == FeedAll(start, data[..p])
      {
        FeedFour(start, data, p);
        l := Step4(l, data, p);
        p := p + 4;
      }
    }
    while |data| - p >= 4
      invariant p <= |data| && l == FeedAll(start, data[..p])
    {
      FeedFour(start, data, p);
      l := Step4(l, data, p);
      p := p + 4;
    }
    while p != |data|
      invariant p <= |data| && l == FeedAll(start, data[..p])
    {
      FeedNext(start, data, p);
      l := Step1(l, data[p]);
      p := p + 1;
    }
    assert data[..p] == data;
    r := Complement(l);
  }

  lemma NothingFed(start: Word, data: Bytes)
    ensures FeedAll(start, data[..0]) == start
  {
  }

  // ---------------------------------------------------------------- the entries themselves

  /** The entry of a power of two is the entry of the next one shifted once more. */
  lemma EntryOfHalf(c: nat)
    requires 0 < c < 0x80
    ensures TableEntry(0, c) == ShiftBit(TableEntry(0, 2 * c))
  {
    hide ShiftBit;
    assert ShiftOut(2 * c, 9) == ShiftOut(ShiftBit(2 * c), 8);
    EvenShift(c);
    ShiftTwice(2 * c, 8, 1);
    assert ShiftOut(ShiftOut(2 * c, 8), 1) == ShiftBit(ShiftOut(2 * c, 8)) by { OneShift(ShiftOut(2 * c, 8)); }
  }

  lemma EvenShift(c: nat)
    requires c < 0x80
    ensures ShiftBit(2 * c) == c
  {
  }

  lemma OneShift(a: Word)
    ensures ShiftOut(a, 1) == ShiftBit(a)
  {
    hide ShiftBit;
  }

  /** What fixes every entry of the four tables: the one of 128, halving, and exclusive or; a table is the one before it
      with a byte more shifted out. */
  lemma TableEntries()
    ensures TableEntry(0, 0x80) == 0x82F6_3B78
    ensures forall c | 0 < c < 0x80 :: TableEntry(0, c) == ShiftBit(TableEntry(0, 2 * c))
    ensures forall c: nat, d: nat | c < 0x100 && d < 0x100 :: XorWord(c, d) < 0x100 && TableEntry(0, XorWord(c, d)) == XorWord(TableEntry(0, c), TableEntry(0, d))
    ensures forall t: nat, c: nat | t < 3 && c < 0x100 :: TableEntry(t + 1, c) == ShiftOut(TableEntry(t, c), 8)
  {
    TopEntry();
    hide ShiftOut, XorWord, ShiftBit;
    forall c | 0 < c < 0x80
      ensures TableEntry(0, c) == ShiftBit(TableEntry(0, 2 * c))
    {
      EntryOfHalf(c);
    }
    forall c: nat, d: nat | c < 0x100 && d < 0x100
      ensures XorWord(c, d) < 0x100 && TableEntry(0, XorWord(c, d)) == XorWord(TableEntry(0, c), TableEntry(0, d))
    {
      LowByte(c, d);
      ShiftLinear(c, d, 8);
    }
    forall t: nat, c: nat | t < 3 && c < 0x100
      ensures TableEntry(t + 1, c) == ShiftOut(TableEntry(t, c), 8)
    {
      ShiftTwice(c, 8 * (t + 1), 8);
    }
  }

  lemma TopEntry()
    ensures TableEntry(0, 0x80) == 0x82F6_3B78
  {
    XorZeroWord(POLYNOMIAL);
    hide XorWord;
    assert Up(1, 7) == 128;
    ShiftZeros(1, 7);
    ShiftTwice(128, 7, 1);
    OneShift(1);
  }
}
