/**
  What a table file is made of (table/format.cc): blocks with a trailer of type and checksum, handles that say
  where they are, and the footer.  Blocks are stored as they are, without compression.
*/
module Formats {
  import opened InternalKeys
  import opened IntegerSizes
  import opened Codings
  import opened Checksums

  // ---------------------------------------------------------------- handles

  datatype BlockHandle = BlockHandle(offset: nat, size: nat)

  predicate HandleFits(h: BlockHandle) {
    h.offset < TWO_64 && h.size < TWO_64
  }

  /** BlockHandle::EncodeTo */
  function HandleBytes(h: BlockHandle): Bytes {
    Varint(h.offset) + Varint(h.size)
  }

  /** BlockHandle::DecodeFrom, which leaves what follows the handle to its caller. */
  function TakeHandle(input: Bytes): (t: Taken<BlockHandle>)
    ensures t.Taken? ==> t.used <= |input|
  {
    var a := TakeVarint64(input);
    if a.Nothing? then Nothing
    else
      var b := TakeVarint64(input[a.used..]);
      if b.Nothing? then Nothing else Taken(BlockHandle(a.value, b.value), a.used + b.used)
  }

  lemma HandleRoundTrip(h: BlockHandle, rest: Bytes)
    requires HandleFits(h)
    ensures TakeHandle(HandleBytes(h) + rest) == Taken(h, |HandleBytes(h)|)
    ensures |HandleBytes(h)| <= 20
  {
    hide Varint, TakeVarint64, Shift;
    var a, b := Varint(h.offset), Varint(h.size);
    Regroup(a, b, rest);
    Varint64RoundTrip(h.offset, b + rest);
    assert (a + (b + rest))[|a|..] == b + rest;
    Varint64RoundTrip(h.size, rest);
    Widths();
    VarintLength(h.offset, 10);
    VarintLength(h.size, 10);
  }

  // ---------------------------------------------------------------- the footer

  datatype Footer = Footer(metaindex: BlockHandle, index: BlockHandle)

  // kTableMagicNumber, in two halves
  const MAGIC_LOW: Word := 0x8B80_FB57
  const MAGIC_HIGH: Word := 0xDB47_7524

  const HANDLES_LENGTH := 40
  const FOOTER_LENGTH := 48

  /** std::string::resize */
  function Resized(b: Bytes, n: nat): (r: Bytes)
    ensures |r| == n
  {
    if |b| < n then b + seq(n - |b|, i => 0) else b[..n]
  }

  /** Footer::EncodeTo */
  function FooterBytes(f: Footer): (r: Bytes)
    ensures |r| == FOOTER_LENGTH
  {
    Resized(HandleBytes(f.metaindex) + HandleBytes(f.index), HANDLES_LENGTH) + EncodeFixed32(MAGIC_LOW) + EncodeFixed32(MAGIC_HIGH)
  }

  /** Footer::DecodeFrom */
  function DecodeFooter(input: Bytes): Option<Footer>
    requires |input| >= FOOTER_LENGTH
  {
    if DecodeFixed32(input[HANDLES_LENGTH..]) != MAGIC_LOW || DecodeFixed32(input[HANDLES_LENGTH + 4..]) != MAGIC_HIGH then None
    else
      var metaindex := TakeHandle(input);
      if metaindex.Nothing? then None
      else
        var index := TakeHandle(input[metaindex.used..]);
        if index.Nothing? then None else Some(Footer(metaindex.value, index.value))
  }

  lemma FooterRoundTrip(f: Footer)
    requires HandleFits(f.metaindex) && HandleFits(f.index)
    ensures DecodeFooter(FooterBytes(f)) == Some(f)
  {
    var a, b := HandleBytes(f.metaindex), HandleBytes(f.index);
    var lo, hi := EncodeFixed32(MAGIC_LOW), EncodeFixed32(MAGIC_HIGH);
    HandleRoundTrip(f.metaindex, []);
    HandleRoundTrip(f.index, []);
    Fixed32RoundTrip(MAGIC_LOW);
    Fixed32RoundTrip(MAGIC_HIGH);
    DecodeFront(lo, hi);
    hide HandleBytes, TakeHandle, EncodeFixed32, DecodeFixed32;
    var pad := ResizedUp(a + b, HANDLES_LENGTH);
    hide Resized;
    FooterPieces(a, b, pad, lo, hi);
    HandleRoundTrip(f.metaindex, b + (pad + (lo + hi)));
    HandleRoundTrip(f.index, pad + (lo + hi));
  }

  lemma ResizedUp(b: Bytes, n: nat) returns (pad: Bytes)
    requires |b| <= n
    ensures Resized(b, n) == b + pad && |pad| == n - |b|
  {
    pad := seq(n - |b|, i => 0);
  }

  lemma FooterPieces(a: Bytes, b: Bytes, pad: Bytes, lo: Bytes, hi: Bytes)
    requires |a| + |b| + |pad| == HANDLES_LENGTH && |lo| == 4
    ensures var all := a + b + pad + lo + hi;
            && all[HANDLES_LENGTH..] == lo + hi && all[HANDLES_LENGTH + 4..] == hi
            && all == a + (b + (pad + (lo + hi))) && all[|a|..] == b + (pad + (lo + hi))
  {
    var all := a + b + pad + lo + hi;
    assert all == (a + b + pad) + (lo + hi);
    assert all == (a + b + pad + lo) + hi;
    assert all == a + (b + (pad + (lo + hi)));
  }

  /** Only the first four bytes count. */
  lemma DecodeFront(a: Bytes, b: Bytes)
    requires |a| >= 4
    ensures DecodeFixed32(a + b) == DecodeFixed32(a)
  {
  }

  // ---------------------------------------------------------------- blocks in a file

  const TRAILER_LENGTH := 5
  const NO_COMPRESSION: Byte := 0

  /** WriteRawBlock: the block, its type, and the masked checksum of both. */
  function Framed(block: Bytes): (r: Bytes)
    ensures |r| == |block| + TRAILER_LENGTH
  {
    block + [NO_COMPRESSION] + EncodeFixed32(Mask(Extend(Value(block), [NO_COMPRESSION])))
  }

  /** ReadBlock; compressed blocks are refused, like blocks of a bad type. */
  function ReadBlock(file: Bytes, handle: BlockHandle, verify: bool): (r: Option<Bytes>)
    ensures r.Some? ==> handle.offset + handle.size + TRAILER_LENGTH <= |file|
  {
    var n := handle.size;
    if |file| < handle.offset + n + TRAILER_LENGTH then None
    else
      var contents := file[handle.offset..handle.offset + n + TRAILER_LENGTH];
      if verify && Unmask(DecodeFixed32(contents[n + 1..])) != Value(contents[..n + 1]) then None
      else if contents[n] != NO_COMPRESSION then None
      else Some(contents[..n])
  }

  /** A type and a checksum that are right make a frame. */
  lemma CheckedFrame(contents: Bytes, n: nat)
    requires |contents| == n + TRAILER_LENGTH
    ensures contents == Framed(contents[..n]) <==>
            contents[n] == NO_COMPRESSION && Unmask(DecodeFixed32(contents[n + 1..])) == Value(contents[..n + 1])
  {
    var block, crc := contents[..n], contents[n + 1..];
    var sum := Value(block + [NO_COMPRESSION]);
    ExtendValue(block, [NO_COMPRESSION]);
    MaskInverse(sum);
    MaskInverse(DecodeFixed32(crc));
    EncodedAgain(crc);
    Fixed32RoundTrip(Mask(sum));
    hide Value, Extend, Mask, Unmask, EncodeFixed32, DecodeFixed32;
    assert crc[..4] == crc;
    assert contents == block + [contents[n]] + crc;
    assert contents[..n + 1] == block + [contents[n]];
    if contents == Framed(block) {
      assert contents[n] == NO_COMPRESSION;
      assert crc == EncodeFixed32(Mask(sum));
    }
  }

  /** With checksums on, a block is read from a file if and only if just its frame stands there. */
  lemma BlockIsChecked(file: Bytes, h: BlockHandle, block: Bytes)
    ensures ReadBlock(file, h, true) == Some(block) <==>
            && |block| == h.size && h.offset + h.size + TRAILER_LENGTH <= |file|
            && file[h.offset..h.offset + h.size + TRAILER_LENGTH] == Framed(block)
  {
    hide Value, Unmask, DecodeFixed32, Framed;
    if h.offset + h.size + TRAILER_LENGTH <= |file| {
      var contents := file[h.offset..h.offset + h.size + TRAILER_LENGTH];
      CheckedFrame(contents, h.size);
      if |block| == h.size && contents == Framed(block) {
        FrameBegins(block);
      }
    }
  }

  lemma FrameBegins(block: Bytes)
    ensures Framed(block)[..|block|] == block
  {
    hide Value, Extend, Mask, EncodeFixed32;
  }

  /** A framed block is read back from wherever it stands, checksum and all. */
  lemma BlockIsRead(front: Bytes, block: Bytes, back: Bytes, verify: bool)
    ensures ReadBlock(front + Framed(block) + back, BlockHandle(|front|, |block|), verify) == Some(block)
  {
    var typed := block + [NO_COMPRESSION];
    var sum := Value(typed);
    MaskInverse(sum);
    ExtendValue(block, [NO_COMPRESSION]);
    Fixed32RoundTrip(Mask(sum));
    hide Value, Extend, Mask, Unmask, EncodeFixed32, DecodeFixed32;
    var crc := EncodeFixed32(Mask(sum));
    assert Framed(block) == typed + crc;
    var file, n := front + Framed(block) + back, |block|;
    var contents := file[|front|..|front| + n + TRAILER_LENGTH];
    assert contents == Framed(block);
    assert contents[n + 1..] == crc && contents[..n + 1] == typed && typed[..n] == block;
    assert contents[n] == typed[n] && contents[..n] == typed[..n];
  }
}
