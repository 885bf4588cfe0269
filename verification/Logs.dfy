/**
  The log format (db/log_format.h, db/log_writer.cc, db/log_reader.cc): records cut into fragments that never
  cross a 32 KB block, and a reader that gives back every record that was written to its end.
*/
module Logs {
  import opened InternalKeys
  import opened Checksums

  const BLOCK_SIZE := 32768
  const HEADER_SIZE := 7

  datatype RecordType = Full | First | Middle | Last

  function TypeByte(t: RecordType): Byte {
    match t case Full => 1 case First => 2 case Middle => 3 case Last => 4
  }

  datatype Fragment = Fragment(kind: RecordType, payload: Bytes)

  // ---------------------------------------------------------------- the format

  function LengthBytes(n: nat): (r: Bytes)
    requires n <= 0xFFFF
    ensures |r| == 2
    ensures DecodeLength(r[0], r[1]) == n
  {
    var hi: int := n / 256;
    [n % 256, hi]
  }

  function DecodeLength(a: Byte, b: Byte): nat {
    var lo: int, hi: int := a, b;
    lo + 256 * hi
  }

  /** Checksum of type and payload, length, type. */
  function Header(f: Fragment): (r: Bytes)
    requires |f.payload| <= 0xFFFF
    ensures |r| == HEADER_SIZE
  {
    EncodeFixed32(Mask(Value([TypeByte(f.kind)] + f.payload))) + LengthBytes(|f.payload|) + [TypeByte(f.kind)]
  }

  /** Where the next header goes: a block's last bytes stay unused when no header fits. */
  function Place(p: nat): (r: nat)
    ensures p <= r && r % BLOCK_SIZE + HEADER_SIZE <= BLOCK_SIZE
  {
    var leftover := BLOCK_SIZE - p % BLOCK_SIZE;
    if leftover < HEADER_SIZE then p + leftover else p
  }

  function Avail(p: nat): nat {
    BLOCK_SIZE - Place(p) % BLOCK_SIZE - HEADER_SIZE
  }

  function FragmentEnd(f: Fragment, p: nat): nat {
    Place(p) + HEADER_SIZE + |f.payload|
  }

  predicate Fits(fs: seq<Fragment>, p: nat) {
    fs == [] || (|fs[0].payload| <= Avail(p) && Fits(fs[1..], FragmentEnd(fs[0], p)))
  }

  function End(fs: seq<Fragment>, p: nat): nat {
    if fs == [] then p else End(fs[1..], FragmentEnd(fs[0], p))
  }

  function Zeros(n: nat): (r: Bytes)
    ensures |r| == n && forall i | 0 <= i < n :: r[i] == 0
  {
    if n == 0 then [] else Zeros(n - 1) + [0]
  }

  /** One fragment in the file, with the trailer before it. */
  function Chunk(f: Fragment, p: nat): (r: Bytes)
    requires |f.payload| <= Avail(p)
    ensures p + |r| == FragmentEnd(f, p)
  {
    Zeros(Place(p) - p) + (Header(f) + f.payload)
  }

  /** The bytes of fragments laid out from position `p` of the file. */
  function Layout(fs: seq<Fragment>, p: nat): Bytes
    requires Fits(fs, p)
  {
    if fs == [] then []
    else Chunk(fs[0], p) + Layout(fs[1..], FragmentEnd(fs[0], p))
  }

  lemma {:induction false} LayoutLength(fs: seq<Fragment>, p: nat)
    requires Fits(fs, p)
    ensures p + |Layout(fs, p)| == End(fs, p)
  {
    if fs != [] {
      LayoutLength(fs[1..], FragmentEnd(fs[0], p));
    }
  }

  lemma Regroup(a: Bytes, b: Bytes, c: Bytes)
    ensures (a + b) + c == a + (b + c)
  {
  }

  lemma ChunkParts(before: Bytes, f: Fragment, p: nat)
    requires |f.payload| <= Avail(p)
    ensures before + Chunk(f, p) == before + Zeros(Place(p) - p) + (Header(f) + f.payload)
  {
    Regroup(before, Zeros(Place(p) - p), Header(f) + f.payload);
  }

  lemma {:induction false} LayoutConcat(fs: seq<Fragment>, gs: seq<Fragment>, p: nat)
    requires Fits(fs, p) && Fits(gs, End(fs, p))
    ensures Fits(fs + gs, p) && Layout(fs + gs, p) == Layout(fs, p) + Layout(gs, End(fs, p))
    ensures End(fs + gs, p) == End(gs, End(fs, p))
  {
    hide Avail, Chunk, FragmentEnd;
    if fs == [] {
      assert fs + gs == gs && [] + Layout(gs, p) == Layout(gs, p);
    } else {
      var q := FragmentEnd(fs[0], p);
      LayoutConcat(fs[1..], gs, q);
      assert (fs + gs)[1..] == fs[1..] + gs;
      Regroup(Chunk(fs[0], p), Layout(fs[1..], q), Layout(gs, End(fs, p)));
    }
  }

  // ---------------------------------------------------------------- a record as fragments

  function Kind(begin: bool, end: bool): RecordType {
    if begin && end then Full else if begin then First else if end then Last else Middle
  }

  /** The fragment that starts what is left of a record: as much as the block has room for. */
  function NextFragment(data: Bytes, p: nat, begin: bool): Fragment {
    var n := if |data| < Avail(p) then |data| else Avail(p);
    Fragment(Kind(begin, n == |data|), data[..n])
  }

  function Split(data: Bytes, p: nat, begin: bool): (fs: seq<Fragment>)
    ensures fs != [] && fs[0] == NextFragment(data, p, begin)
    decreases |data|, Avail(p) == 0
  {
    var f := NextFragment(data, p, begin);
    if |f.payload| == |data| then [f] else [f] + Split(data[|f.payload|..], FragmentEnd(f, p), false)
  }

  lemma {:induction false} SplitFits(data: Bytes, p: nat, begin: bool)
    ensures Fits(Split(data, p, begin), p)
    decreases |data|, Avail(p) == 0
  {
    var f := NextFragment(data, p, begin);
    var rest := data[|f.payload|..];
    if rest != [] {
      SplitFits(rest, FragmentEnd(f, p), false);
      assert ([f] + Split(rest, FragmentEnd(f, p), false))[1..] == Split(rest, FragmentEnd(f, p), false);
    }
  }

  /** Every fragment but the last goes on to the end of its block. */
  predicate FillsBlocks(fs: seq<Fragment>, p: nat)
    decreases |fs|
  {
    |fs| <= 1 || (FragmentEnd(fs[0], p) % BLOCK_SIZE == 0 && FillsBlocks(fs[1..], FragmentEnd(fs[0], p)))
  }

  /** A record is cut only at the ends of blocks. */
  lemma {:induction false} SplitFills(data: Bytes, p: nat, begin: bool)
    ensures FillsBlocks(Split(data, p, begin), p)
    decreases |data|, Avail(p) == 0
  {
    var f := NextFragment(data, p, begin);
    var rest := data[|f.payload|..];
    if rest != [] {
      SplitFills(rest, FragmentEnd(f, p), false);
      assert ([f] + Split(rest, FragmentEnd(f, p), false))[1..] == Split(rest, FragmentEnd(f, p), false);
      BlockFilled(p);
    }
  }

  lemma BlockFilled(p: nat)
    ensures (Place(p) + HEADER_SIZE + Avail(p)) % BLOCK_SIZE == 0
  {
  }

  function RecordEnd(data: Bytes, p: nat): nat {
    End(Split(data, p, true), p)
  }

  /** All fragments of a list of records, the first of which starts at `p`. */
  function Fragments(records: seq<Bytes>, p: nat): seq<Fragment> {
    if records == [] then [] else Split(records[0], p, true) + Fragments(records[1..], RecordEnd(records[0], p))
  }

  lemma {:induction false} FragmentsFit(records: seq<Bytes>, p: nat)
    ensures Fits(Fragments(records, p), p)
  {
    if records != [] {
      SplitFits(records[0], p, true);
      FragmentsFit(records[1..], RecordEnd(records[0], p));
      LayoutConcat(Split(records[0], p, true), Fragments(records[1..], RecordEnd(records[0], p)), p);
    }
  }

  /** What a writer leaves in a fresh file. */
  function FileOf(records: seq<Bytes>): Bytes {
    FragmentsFit(records, 0);
    Layout(Fragments(records, 0), 0)
  }

  // ---------------------------------------------------------------- the writer

  /** The offset into the current block; a full block may still count as current. */
  predicate SameOffset(offset: nat, p: nat) {
    offset <= BLOCK_SIZE && offset % BLOCK_SIZE == p % BLOCK_SIZE
  }

  /** The offset the next header goes to. */
  function Offset(offset: nat): nat {
    if BLOCK_SIZE - offset < HEADER_SIZE then 0 else offset
  }

  lemma FragmentIs(left: Bytes, p: nat, begin: bool, n: nat, end: bool)
    requires n == (if |left| < Avail(p) then |left| else Avail(p)) && (end <==> |left| == n)
    ensures NextFragment(left, p, begin) == Fragment(Kind(begin, end), left[..n])
  {
  }

  class Writer {
    var dest: Bytes
    var blockOffset: nat

    predicate Valid()
      reads this
    {
      SameOffset(blockOffset, |dest|)
    }

    /** A writer at the end of a file of any length. */
    constructor (file: Bytes)
      ensures Valid() && dest == file
    {
      dest := file;
      blockOffset := |file| % BLOCK_SIZE;
    }

    method AddRecord(data: Bytes)
      requires Valid()
      modifies this
      ensures Valid()
      ensures Fits(Split(data, old(|dest|), true), old(|dest|))
      ensures dest == old(dest) + Layout(Split(data, old(|dest|), true), old(|dest|))
    {
      var left := data;
      var begin := true;
      ghost var p := |dest|;
      ghost var written: seq<Fragment> := [];
      SplitFits(data, p, true);
      assert Progress(data, p, written, left, p, begin);
      assert dest == old(dest) + Layout(written, p);
      hide Split, Chunk, FragmentEnd, Avail, Fits, Layout, NextFragment, SameOffset, Progress;
      while true
        invariant Valid()
        invariant Progress(data, p, written, left, |dest|, begin)
        invariant Fits(written, p) && dest == old(dest) + Layout(written, p)
        decreases |left|, Avail(|dest|) == 0
      {
        ghost var f := NextFragment(left, |dest|, begin);
        SplitShrinks(left, |dest|, begin, f);
        ProgressStep(data, p, written, left, |dest|, begin, f, left[|f.payload|..]);
        Regroup(old(dest), Layout(written, p), Chunk(f, |dest|));
        var n := AddNext(left, begin);
        written := written + [f];
        begin := false;
        left := left[n..];
        if left == [] {
          break;
        }
      }
    }

    /** One turn of the loop: the trailer if no header fits, then the next fragment of what is left. */
    method AddNext(left: Bytes, begin: bool) returns (n: nat)
      requires Valid()
      modifies this
      ensures Valid() && n <= |left|
      ensures n == |NextFragment(left, old(|dest|), begin).payload| <= Avail(old(|dest|))
      ensures dest == old(dest) + Chunk(NextFragment(left, old(|dest|), begin), old(|dest|))
    {
      hide Place, Header, SameOffset, Avail, Zeros, Offset, Chunk, NextFragment, Kind;
      ghost var at := |dest|;
      ghost var f := NextFragment(left, at, begin);
      FillTrailer();
      var avail := BLOCK_SIZE - blockOffset - HEADER_SIZE;
      n := if |left| < avail then |left| else avail;
      var end := |left| == n;
      FragmentIs(left, at, begin, n, end);
      OffsetMoves(at, old(blockOffset), n);
      ChunkParts(old(dest), f, at);
      EmitPhysicalRecord(Kind(begin, end), left[..n]);
    }

    /** Move to a new block if no header fits in this one. */
    method FillTrailer()
      requires Valid()
      modifies this
      ensures dest == old(dest) + Zeros(Place(old(|dest|)) - old(|dest|))
      ensures blockOffset == Offset(old(blockOffset)) <= BLOCK_SIZE - HEADER_SIZE
      ensures Avail(old(|dest|)) == BLOCK_SIZE - HEADER_SIZE - blockOffset
    {
      OffsetPlace(|dest|, blockOffset);
      hide Place, SameOffset, Avail, Zeros;
      var leftover := BLOCK_SIZE - blockOffset;
      if leftover < HEADER_SIZE {
        if leftover > 0 {
          dest := dest + Zeros(leftover);
        } else {
          assert dest + Zeros(0) == dest;
        }
        blockOffset := 0;
      } else {
        assert dest + Zeros(0) == dest;
      }
    }

    method EmitPhysicalRecord(t: RecordType, payload: Bytes)
      requires blockOffset + HEADER_SIZE + |payload| <= BLOCK_SIZE
      modifies this
      ensures dest == old(dest) + (Header(Fragment(t, payload)) + payload)
      ensures blockOffset == old(blockOffset) + HEADER_SIZE + |payload|
    {
      var crc := Extend(Value([TypeByte(t)]), payload);
      ExtendValue([TypeByte(t)], payload);
      dest := dest + (EncodeFixed32(Mask(crc)) + LengthBytes(|payload|) + [TypeByte(t)]);
      dest := dest + payload;
      Regroup(old(dest), Header(Fragment(t, payload)), payload);
      blockOffset := blockOffset + HEADER_SIZE + |payload|;
    }
  }

  /** The block offset says what the position says. */
  lemma OffsetPlace(p: nat, offset: nat)
    requires SameOffset(offset, p)
    ensures offset <= BLOCK_SIZE
    ensures Place(p) - p == if BLOCK_SIZE - offset < HEADER_SIZE then BLOCK_SIZE - offset else 0
    ensures Avail(p) == BLOCK_SIZE - HEADER_SIZE - Offset(offset)
    ensures Place(p) % BLOCK_SIZE == Offset(offset)
  {
  }

  lemma AddToOffset(p: nat, n: nat)
    requires p % BLOCK_SIZE + n <= BLOCK_SIZE
    ensures (p % BLOCK_SIZE + n) % BLOCK_SIZE == (p + n) % BLOCK_SIZE
  {
    assert p == p / BLOCK_SIZE * BLOCK_SIZE + p % BLOCK_SIZE;
  }

  lemma OffsetMoves(p: nat, offset: nat, n: nat)
    requires SameOffset(offset, p) && n <= Avail(p)
    ensures SameOffset(Offset(offset) + HEADER_SIZE + n, Place(p) + HEADER_SIZE + n)
  {
    OffsetPlace(p, offset);
    hide Place;
    AddToOffset(Place(p), HEADER_SIZE + n);
  }

  lemma SplitStep(left: Bytes, p: nat, begin: bool, f: Fragment, rest: Bytes)
    requires f == NextFragment(left, p, begin) && rest == left[|f.payload|..]
    ensures |f.payload| <= Avail(p)
    ensures Split(left, p, begin) == if rest == [] then [f] else [f] + Split(rest, FragmentEnd(f, p), false)
  {
    hide Avail;
  }

  /** A turn that writes nothing of the record leaves the next turn a whole block. */
  lemma SplitShrinks(left: Bytes, p: nat, begin: bool, f: Fragment)
    requires f == NextFragment(left, p, begin)
    ensures |f.payload| > 0 || left == [] || (Avail(p) == 0 && Avail(FragmentEnd(f, p)) > 0)
  {
  }

  /** So far `written` is laid out, up to position `at`, and `left` remains of the record. */
  ghost predicate Progress(data: Bytes, p: nat, written: seq<Fragment>, left: Bytes, at: nat, begin: bool) {
    && Fits(written, p)
    && at == End(written, p)
    && Split(data, p, true) == written + Split(left, at, begin)
  }

  lemma ProgressStep(data: Bytes, p: nat, written: seq<Fragment>, left: Bytes, at: nat, begin: bool, f: Fragment, rest: Bytes)
    requires Progress(data, p, written, left, at, begin)
    requires f == NextFragment(left, at, begin) && rest == left[|f.payload|..]
    ensures Fits(written, p) && Fits(written + [f], p) && |f.payload| <= Avail(at)
    ensures Layout(written + [f], p) == Layout(written, p) + Chunk(f, at)
    ensures rest == [] ==> Split(data, p, true) == written + [f]
    ensures rest != [] ==> Progress(data, p, written + [f], rest, FragmentEnd(f, at), false)
  {
    hide Split, Chunk, FragmentEnd, Avail, Fits, Layout, NextFragment;
    SplitStep(left, at, begin, f, rest);
    AddFragment(written, f, p);
    if rest != [] {
      var tail := Split(rest, FragmentEnd(f, at), false);
      assert written + ([f] + tail) == (written + [f]) + tail;
    }
  }

  lemma AddFragment(fs: seq<Fragment>, f: Fragment, p: nat)
    requires Fits(fs, p) && |f.payload| <= Avail(End(fs, p))
    ensures Fits(fs + [f], p) && End(fs + [f], p) == FragmentEnd(f, End(fs, p))
    ensures Layout(fs + [f], p) == Layout(fs, p) + Chunk(f, End(fs, p))
  {
    var q := End(fs, p);
    assert Fits([f], q) && [f][1..] == [];
    LayoutConcat(fs, [f], p);
    assert Layout([f], q) == Chunk(f, q) + [] == Chunk(f, q);
  }
}
