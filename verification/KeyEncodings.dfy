/**
  Internal keys as the byte strings that blocks hold (db/dbformat.h, db/dbformat.cc): the user key and the
  packed sequence number and type in eight bytes, compared by taking them apart again.
*/
module KeyEncodings {
  import opened InternalKeys
  import opened IntegerSizes
  import opened Checksums
  import opened Comparators
  import opened Blocks

  function EncodeFixed64(x: nat): (r: Bytes)
    requires x < TWO_64
    ensures |r| == 8
  {
    EncodeFixed32(x % TWO_32) + EncodeFixed32(x / TWO_32)
  }

  function DecodeFixed64(b: Bytes): (x: nat)
    requires |b| == 8
    ensures x < TWO_64
  {
    DecodeFixed32(b[..4]) + TWO_32 * DecodeFixed32(b[4..])
  }

  lemma Fixed64RoundTrip(x: nat)
    requires x < TWO_64
    ensures DecodeFixed64(EncodeFixed64(x)) == x
  {
    var lo, hi := x % TWO_32, x / TWO_32;
    Fixed32RoundTrip(lo);
    Fixed32RoundTrip(hi);
    var a, b := EncodeFixed32(lo), EncodeFixed32(hi);
    hide EncodeFixed32, DecodeFixed32;
    assert (a + b)[..4] == a && (a + b)[4..] == b;
  }

  lemma Fixed32Back(b: Bytes)
    requires |b| == 4
    ensures EncodeFixed32(DecodeFixed32(b)) == b
  {
    var b0: int, b1: int, b2: int, b3: int := b[0], b[1], b[2], b[3];
    var z := b2 + 256 * b3;
    var y := b1 + 256 * z;
    var x := b0 + 256 * y;
    assert x / 256 == y && y / 256 == z && z / 256 == b3;
    assert x % 256 == b0 && y % 256 == b1 && z % 256 == b2;
  }

  lemma Fixed64Back(b: Bytes)
    requires |b| == 8
    ensures EncodeFixed64(DecodeFixed64(b)) == b
  {
    hide EncodeFixed32, DecodeFixed32;
    Fixed32Back(b[..4]);
    Fixed32Back(b[4..]);
    Halves(DecodeFixed32(b[..4]), DecodeFixed32(b[4..]));
    assert b[..4] + b[4..] == b;
  }

  lemma Halves(lo: Word, hi: Word)
    ensures (lo + TWO_32 * hi) % TWO_32 == lo && (lo + TWO_32 * hi) / TWO_32 == hi
  {
  }

  // ---------------------------------------------------------------- keys

  predicate KeyFits(k: Key) {
    k.tag < TWO_64
  }

  /** AppendInternalKey */
  function KeyBytes(k: Key): Bytes
    requires KeyFits(k)
  {
    k.user + EncodeFixed64(k.tag)
  }

  /** ExtractUserKey, and the eight bytes after it. */
  function KeyOf(b: Bytes): (k: Key)
    requires |b| >= 8
    ensures KeyFits(k)
  {
    Key(b[..|b| - 8], DecodeFixed64(b[|b| - 8..]))
  }

  lemma KeyBack(k: Key)
    requires KeyFits(k)
    ensures |KeyBytes(k)| == |k.user| + 8 && KeyOf(KeyBytes(k)) == k
  {
    Fixed64RoundTrip(k.tag);
    hide EncodeFixed64, DecodeFixed64;
    var b := KeyBytes(k);
    assert b[..|b| - 8] == k.user && b[|b| - 8..] == EncodeFixed64(k.tag);
  }

  lemma BytesBack(b: Bytes)
    requires |b| >= 8
    ensures KeyBytes(KeyOf(b)) == b
  {
    Fixed64Back(b[|b| - 8..]);
    hide EncodeFixed64, DecodeFixed64;
    assert b[..|b| - 8] + b[|b| - 8..] == b;
  }

  /** InternalKeyComparator::Compare.  Fewer than eight bytes are no key; they come first here, so as to have a place. */
  predicate InternalLess(a: Bytes, b: Bytes) {
    if |a| < 8 then |b| >= 8 || Lex(a, b)
    else |b| >= 8 && KeyLess(KeyOf(a), KeyOf(b))
  }

  lemma InternalLessOfKeys(a: Key, b: Key)
    requires KeyFits(a) && KeyFits(b)
    ensures InternalLess(KeyBytes(a), KeyBytes(b)) <==> KeyLess(a, b)
  {
    KeyBack(a);
    KeyBack(b);
    hide KeyBytes, KeyOf, KeyLess;
  }

  lemma InternalLessTotal(a: Bytes, b: Bytes)
    ensures !InternalLess(a, a) && (a != b ==> InternalLess(a, b) || InternalLess(b, a))
  {
    LexTotal(a, b);
    LexTotal(a, a);
    if |a| >= 8 {
      LexTotal(KeyOf(a).user, KeyOf(a).user);
      if |b| >= 8 {
        BytesBack(a);
        BytesBack(b);
        LexTotal(KeyOf(a).user, KeyOf(b).user);
      }
    }
    hide KeyOf, KeyBytes, Lex;
  }

  lemma InternalLessTransitive(a: Bytes, b: Bytes, c: Bytes)
    requires InternalLess(a, b) && InternalLess(b, c)
    ensures InternalLess(a, c)
  {
    hide KeyOf, KeyLess, Lex;
    if |c| < 8 {
      LexTransitive(a, b, c);
    } else if |a| >= 8 {
      KeyTransitive(KeyOf(a), KeyOf(b), KeyOf(c));
    }
  }

  lemma InternalOrder()
    ensures StrictOrder(InternalLess)
  {
    hide InternalLess;
    forall a ensures !InternalLess(a, a) {
      InternalLessTotal(a, a);
    }
    forall a, b | a != b ensures InternalLess(a, b) || InternalLess(b, a) {
      InternalLessTotal(a, b);
    }
    forall a, b, c | InternalLess(a, b) && InternalLess(b, c) ensures InternalLess(a, c) {
      InternalLessTransitive(a, b, c);
    }
  }

  lemma BytewiseOrder()
    ensures StrictOrder(Lex)
  {
    hide Lex;
    forall a ensures !Lex(a, a) {
      LexTotal(a, a);
    }
    forall a, b | a != b ensures Lex(a, b) || Lex(b, a) {
      LexTotal(a, b);
    }
    forall a, b, c | Lex(a, b) && Lex(b, c) ensures Lex(a, c) {
      LexTransitive(a, b, c);
    }
  }
}
