/**
  Reading a log (db/log_reader.cc, checksums on, from the start of the file), and the truncation theorem: a
  file cut anywhere gives back exactly the records that were written to their end, and reports no loss.
*/
module LogReaders {
  import opened InternalKeys
  import opened Checksums
  import opened Logs

  const EOF_TYPE := 5
  const BAD_RECORD := 6

  function BlockEnd(p: nat): nat {
    p / BLOCK_SIZE * BLOCK_SIZE + BLOCK_SIZE
  }

  function Least(a: nat, b: nat): nat {
    if a < b then a else b
  }

  // ---------------------------------------------------------------- one physical record

  /** What one read returns, where it leaves the reader, and how many losses it reports. */
  datatype Outcome = Outcome(kind: nat, fragment: Bytes, next: nat, drops: nat)

  function Checked(header: Bytes, body: Bytes): bool
    requires |header| == HEADER_SIZE
  {
    Unmask(DecodeFixed32(header)) == Value([header[6]] + body)
  }

  /** The header at the front of the buffer; `next` counts from there. */
  function ParseHeader(buffer: Bytes, eof: bool): (o: Outcome)
    requires |buffer| >= HEADER_SIZE
    ensures 0 < o.next <= |buffer|
  {
    var header := buffer[..HEADER_SIZE];
    var length := DecodeLength(header[4], header[5]);
    if HEADER_SIZE + length > |buffer| then
      if eof then Outcome(EOF_TYPE, [], |buffer|, 0) else Outcome(BAD_RECORD, [], |buffer|, 1)
    else if header[6] == 0 && length == 0 then Outcome(BAD_RECORD, [], |buffer|, 0)
    else
      var body := buffer[HEADER_SIZE..HEADER_SIZE + length];
      if Checked(header, body) then Outcome(header[6], body, HEADER_SIZE + length, 0) else Outcome(BAD_RECORD, [], |buffer|, 1)
  }

  function From(q: nat, o: Outcome): Outcome {
    o.(next := q + o.next)
  }

  function Physical(file: Bytes, p: nat): (o: Outcome)
    requires p <= |file|
    ensures o.next <= |file|
    ensures o.kind != EOF_TYPE ==> p < o.next
  {
    var q := Place(p);
    var limit := Least(BlockEnd(q), |file|);
    if |file| < q + HEADER_SIZE then Outcome(EOF_TYPE, [], |file|, 0)
    else From(q, ParseHeader(file[q..limit], limit != BlockEnd(q)))
  }

  // ---------------------------------------------------------------- one record

  datatype Found = Found(found: bool, record: Bytes, next: nat, drops: nat)

  function Plus(drops: nat, f: Found): Found {
    f.(drops := drops + f.drops)
  }

  /** What one fragment does to the record in hand: finish the read, or go on with more or less in hand. */
  datatype Turn = Stop(found: bool, record: Bytes, lost: nat) | GoOn(fragmented: bool, scratch: Bytes, lost: nat)

  function Take(kind: nat, fragment: Bytes, fragmented: bool, scratch: Bytes): (turn: Turn)
    ensures kind == EOF_TYPE ==> turn == Stop(false, [], 0)
  {
    match kind
    case 1 => Stop(true, fragment, if fragmented && scratch != [] then 1 else 0)
    case 2 => GoOn(true, fragment, if fragmented && scratch != [] then 1 else 0)
    case 3 => if fragmented then GoOn(true, scratch + fragment, 0) else GoOn(false, scratch, 1)
    case 4 => if fragmented then Stop(true, scratch + fragment, 0) else GoOn(false, scratch, 1)
    case 5 => Stop(false, [], 0)
    case 6 => if fragmented then GoOn(false, [], 1) else GoOn(false, scratch, 0)
    case _ => GoOn(false, [], 1)
  }

  /** Read on from `p`, with the fragments of an unfinished record in hand. */
  function ReadFrom(file: Bytes, p: nat, fragmented: bool, scratch: Bytes): (r: Found)
    requires p <= |file|
    ensures r.next <= |file|
    ensures r.found ==> p < r.next
    decreases |file| - p
  {
    var o := Physical(file, p);
    match Take(o.kind, o.fragment, fragmented, scratch)
    case Stop(found, record, lost) => Found(found, record, o.next, o.drops + lost)
    case GoOn(more, held, lost) => Plus(o.drops + lost, ReadFrom(file, o.next, more, held))
  }

  lemma PlusNothing(f: Found)
    ensures Plus(0, f) == f
  {
  }

  /** One turn of a read, with `d` losses told before it. */
  lemma ReadUnfolds(file: Bytes, q: nat, fragmented: bool, scratch: Bytes, d: nat, o: Outcome, turn: Turn)
    requires q <= |file| && o == Physical(file, q) && turn == Take(o.kind, o.fragment, fragmented, scratch)
    ensures turn.Stop? ==> Plus(d, ReadFrom(file, q, fragmented, scratch)) == Found(turn.found, turn.record, o.next, d + o.drops + turn.lost)
    ensures turn.GoOn? ==> o.next > q
    ensures turn.GoOn? ==> Plus(d, ReadFrom(file, q, fragmented, scratch)) == Plus(d + o.drops + turn.lost, ReadFrom(file, o.next, turn.fragmented, turn.scratch))
  {
  }

  // ---------------------------------------------------------------- the reader

  /** The buffer holds the rest of the block from `p` on, or of the file. */
  predicate Standing(file: Bytes, filePos: nat, buffer: Bytes, eof: bool, p: nat) {
    && p <= filePos <= |file|
    && buffer == file[p..filePos]
    && (if eof then filePos == |file| else filePos % BLOCK_SIZE == 0)
    && (p < filePos ==> filePos <= BlockEnd(p))
    && (p < filePos && eof ==> filePos < BlockEnd(p))
  }

  /** Fewer bytes than a header: the rest of the block is a trailer, and reading goes on at its end. */
  lemma TrailerSkipped(file: Bytes, filePos: nat, buffer: Bytes, p: nat)
    requires Standing(file, filePos, buffer, false, p) && |buffer| < HEADER_SIZE
    ensures filePos == Place(p) <= |file| && filePos % BLOCK_SIZE == 0
  {
  }

  lemma BlockRead(file: Bytes, filePos: nat)
    requires filePos <= |file| && filePos % BLOCK_SIZE == 0
    ensures var end := Least(filePos + BLOCK_SIZE, |file|);
            Standing(file, end, file[filePos..end], end - filePos < BLOCK_SIZE, filePos)
  {
  }

  lemma HeaderFits(file: Bytes, filePos: nat, buffer: Bytes, eof: bool, p: nat)
    requires Standing(file, filePos, buffer, eof, p) && |buffer| >= HEADER_SIZE
    ensures p + HEADER_SIZE <= filePos <= |file| && buffer == file[p..filePos]
    ensures Place(p) == p && filePos == Least(BlockEnd(p), |file|) && (eof <==> filePos != BlockEnd(p))
  {
  }

  lemma FileEnds(file: Bytes, filePos: nat, buffer: Bytes, p: nat)
    requires Standing(file, filePos, buffer, true, p) && |buffer| < HEADER_SIZE
    ensures |file| < Place(p) + HEADER_SIZE && filePos == |file|
  {
  }

  lemma PlaceOfPlace(p: nat)
    ensures Place(Place(p)) == Place(p)
  {
  }

  /** Dropping the rest of the buffer, or its front. */
  lemma Advance(file: Bytes, filePos: nat, buffer: Bytes, eof: bool, p: nat, n: nat)
    requires Standing(file, filePos, buffer, eof, p) && n <= |buffer|
    ensures Standing(file, filePos, buffer[n..], eof, p + n)
  {
    assert p + n < filePos ==> (p + n) / BLOCK_SIZE == p / BLOCK_SIZE;
  }

  lemma StandsInside(file: Bytes, filePos: nat, buffer: Bytes, eof: bool, p: nat)
    requires Standing(file, filePos, buffer, eof, p)
    ensures p <= filePos <= |file|
  {
  }

  lemma Emptied(file: Bytes, filePos: nat, eof: bool)
    requires eof && filePos == |file|
    ensures Standing(file, filePos, [], eof, |file|)
  {
  }

  class Reader {
    const file: Bytes
    var filePos: nat
    var buffer: Bytes
    var eof: bool
    var drops: nat   // losses told to the reporter

    predicate At(p: nat)
      reads this
    {
      Standing(file, filePos, buffer, eof, p)
    }

    constructor (file: Bytes)
      ensures this.file == file && At(0) && drops == 0
    {
      this.file := file;
      filePos, buffer, eof, drops := 0, [], false, 0;
    }

    /** Where the reader stands, and what it has reported since it had reported `before`. */
    ghost predicate Gave(o: Outcome, kind: nat, fragment: Bytes, before: nat)
      reads this
    {
      kind == o.kind && fragment == o.fragment && drops == before + o.drops && At(o.next)
    }

    method ReadPhysicalRecord(ghost p: nat) returns (kind: nat, fragment: Bytes)
      requires At(p)
      modifies this
      ensures p <= |file| && Gave(Physical(file, p), kind, fragment, old(drops))
    {
      hide Standing, Place, ParseHeader, BlockEnd;
      StandsInside(file, filePos, buffer, eof, p);
      FillBuffer(p);
      if |buffer| < HEADER_SIZE {
        Emptied(file, filePos, eof);
        buffer := [];
        return EOF_TYPE, [];
      }
      kind, fragment := ParseBuffer(Place(p));
    }

    /** Read on until a header is at hand or the file ends. */
    method FillBuffer(ghost p: nat)
      requires At(p) && p <= |file|
      modifies this`buffer, this`filePos, this`eof
      ensures |buffer| < HEADER_SIZE ==> eof && |file| < Place(p) + HEADER_SIZE && filePos == |file|
      ensures |buffer| >= HEADER_SIZE ==> At(Place(p)) && filePos == Least(BlockEnd(Place(p)), |file|) && (eof <==> filePos != BlockEnd(Place(p)))
      ensures |buffer| >= HEADER_SIZE ==> Place(p) + HEADER_SIZE <= filePos <= |file| && buffer == file[Place(p)..filePos]
    {
      hide Standing, Place, BlockEnd;
      ghost var q := p;
      while |buffer| < HEADER_SIZE
        invariant At(q) && Place(q) == Place(p)
        decreases |buffer| < HEADER_SIZE, !eof
      {
        if eof {
          FileEnds(file, filePos, buffer, q);
          return;
        }
        TrailerSkipped(file, filePos, buffer, q);
        PlaceOfPlace(p);
        BlockRead(file, filePos);
        q := filePos;
        var end := Least(filePos + BLOCK_SIZE, |file|);
        buffer := file[filePos..end];
        eof := end - filePos < BLOCK_SIZE;
        filePos := end;
      }
      HeaderFits(file, filePos, buffer, eof, q);
    }

    /** The next whole record; what comes of unfinished or damaged ones is as `ReadFrom` says. */
    method ReadRecord(ghost p: nat) returns (found: bool, record: Bytes)
      requires At(p)
      modifies this
      ensures p <= |file|
      ensures var r := ReadFrom(file, p, false, []);
              found == r.found && record == r.record && drops == old(drops) + r.drops && At(r.next)
    {
      hide Standing, Physical, Take, ReadFrom, Plus, ParseHeader, From;
      StandsInside(file, filePos, buffer, eof, p);
      var scratch: Bytes := [];
      var fragmented := false;
      ghost var q := p;
      PlusNothing(ReadFrom(file, p, false, []));
      while true
        invariant q <= |file| && At(q) && drops >= old(drops)
        invariant ReadFrom(file, p, false, []) == Plus(drops - old(drops), ReadFrom(file, q, fragmented, scratch))
        decreases |file| - q
      {
        ghost var o := Physical(file, q);
        ReadUnfolds(file, q, fragmented, scratch, drops - old(drops), o, Take(o.kind, o.fragment, fragmented, scratch));
        var kind, fragment := ReadPhysicalRecord(q);
        q := o.next;
        match Take(kind, fragment, fragmented, scratch)
        case Stop(f, r, lost) =>
          drops := drops + lost;
          return f, r;
        case GoOn(more, held, lost) =>
          drops := drops + lost;
          fragmented, scratch := more, held;
      }
    }

    /** Take one record off the buffer, or drop the buffer. */
    method ParseBuffer(ghost q: nat) returns (kind: nat, fragment: Bytes)
      requires At(q) && |buffer| >= HEADER_SIZE
      modifies this`buffer, this`drops
      ensures Gave(From(q, ParseHeader(old(buffer), eof)), kind, fragment, old(drops))
    {
      hide Standing, ParseHeader;
      var used, lost;
      kind, fragment, used, lost := Examine(buffer, eof);
      Advance(file, filePos, buffer, eof, q, used);
      buffer := buffer[used..];
      drops := drops + lost;
    }
  }

  /** The checks on a header and its payload; a bad one takes the rest of the buffer with it. */
  method Examine(buffer: Bytes, eof: bool) returns (kind: nat, fragment: Bytes, used: nat, lost: nat)
    requires |buffer| >= HEADER_SIZE
    ensures Outcome(kind, fragment, used, lost) == ParseHeader(buffer, eof)
  {
    hide Checked;
    var header := buffer[..HEADER_SIZE];
    var length := DecodeLength(header[4], header[5]);
    if HEADER_SIZE + length > |buffer| {
      if !eof {
        return BAD_RECORD, [], |buffer|, 1;
      }
      return EOF_TYPE, [], |buffer|, 0;
    }
    if header[6] == 0 && length == 0 {
      return BAD_RECORD, [], |buffer|, 0;
    }
    var body := buffer[HEADER_SIZE..HEADER_SIZE + length];
    if !Checked(header, body) {
      return BAD_RECORD, [], |buffer|, 1;
    }
    return header[6], body, HEADER_SIZE + length, 0;
  }

  // ---------------------------------------------------------------- a file cut anywhere

  /** `file` is the front of `whole`, whose bytes from `p` on are those fragments. */
  ghost predicate CutFrom(file: Bytes, whole: Bytes, fs: seq<Fragment>, p: nat) {
    && file <= whole && p <= |file|
    && Fits(fs, p) && whole[p..] == Layout(fs, p)
  }

  lemma CutNext(file: Bytes, whole: Bytes, fs: seq<Fragment>, p: nat)
    requires CutFrom(file, whole, fs, p) && fs != []
    ensures FragmentEnd(fs[0], p) <= |whole|
    ensures whole[Place(p)..Place(p) + HEADER_SIZE] == Header(fs[0])
    ensures whole[Place(p) + HEADER_SIZE..FragmentEnd(fs[0], p)] == fs[0].payload
    ensures FragmentEnd(fs[0], p) <= |file| ==> CutFrom(file, whole, fs[1..], FragmentEnd(fs[0], p))
  {
    hide Layout, Fits, Place, Header, Zeros, Avail;
    LayoutHead(fs, p);
    var f, q, e := fs[0], Place(p), FragmentEnd(fs[0], p);
    var z, h, r := Zeros(q - p), Header(f), Layout(fs[1..], e);
    Pieces(whole, p, z, h, f.payload, r);
    assert p + |z| == q && q + |h| == q + HEADER_SIZE;
  }

  lemma LayoutHead(fs: seq<Fragment>, p: nat)
    requires Fits(fs, p) && fs != []
    ensures |fs[0].payload| <= 0xFFFF && Fits(fs[1..], FragmentEnd(fs[0], p))
    ensures Layout(fs, p) == (Zeros(Place(p) - p) + (Header(fs[0]) + fs[0].payload)) + Layout(fs[1..], FragmentEnd(fs[0], p))
  {
    hide Place, Header, Zeros;
  }

  lemma Pieces(whole: Bytes, p: nat, z: Bytes, h: Bytes, b: Bytes, r: Bytes)
    requires p <= |whole| && whole[p..] == (z + (h + b)) + r
    ensures |whole| == p + |z| + |h| + |b| + |r|
    ensures whole[p + |z|..p + |z| + |h|] == h
    ensures whole[p + |z| + |h|..p + |z| + |h| + |b|] == b
    ensures whole[p + |z| + |h| + |b|..] == r
  {
    var w := whole[p..];
    assert |w| == |z| + |h| + |b| + |r|;
    SliceOfTail(whole, p, |z|, |z| + |h|);
    SliceOfTail(whole, p, |z| + |h|, |z| + |h| + |b|);
    SliceOfTail(whole, p, |z| + |h| + |b|, |w|);
    Regroup(z, h + b, r);
    Regroup(h, b, r);
    assert w == z + (h + (b + r));
    MiddlePart(z, h, b + r);
    Regroup(z, h, b + r);
    MiddlePart(z + h, b, r);
    Regroup(z + h, b, r);
    assert w == (z + h + b) + r;
    assert w[|z + h + b|..] == r;
  }

  lemma MiddlePart(a: Bytes, b: Bytes, c: Bytes)
    ensures (a + (b + c))[|a|..|a| + |b|] == b
  {
  }

  lemma SliceOfTail(whole: Bytes, p: nat, i: nat, j: nat)
    requires p <= |whole| && i <= j <= |whole| - p
    ensures whole[p..][i..j] == whole[p + i..p + j]
  {
  }

  lemma HeaderChecks(f: Fragment)
    requires |f.payload| <= 0xFFFF
    ensures Checked(Header(f), f.payload)
    ensures DecodeLength(Header(f)[4], Header(f)[5]) == |f.payload| && Header(f)[6] == TypeByte(f.kind)
  {
    var h := Header(f);
    var c := Value([TypeByte(f.kind)] + f.payload);
    MaskInverse(c);
    Fixed32RoundTrip(Mask(c));
    assert h[..4] == EncodeFixed32(Mask(c));
    assert DecodeFixed32(h) == DecodeFixed32(h[..4]);
  }

  lemma ParsesHeader(buffer: Bytes, eof: bool, f: Fragment)
    requires |f.payload| <= 0xFFFF && |buffer| >= HEADER_SIZE && buffer[..HEADER_SIZE] == Header(f)
    requires HEADER_SIZE + |f.payload| <= |buffer| ==> buffer[HEADER_SIZE..HEADER_SIZE + |f.payload|] == f.payload
    ensures HEADER_SIZE + |f.payload| <= |buffer| ==>
              ParseHeader(buffer, eof) == Outcome(TypeByte(f.kind) as nat, f.payload, HEADER_SIZE + |f.payload|, 0)
    ensures HEADER_SIZE + |f.payload| > |buffer| && eof ==> ParseHeader(buffer, eof) == Outcome(EOF_TYPE, [], |buffer|, 0)
  {
    HeaderChecks(f);
    hide Header, Checked, DecodeLength;
  }

  /** The part of the block the reader holds shows the fragment as the writer laid it out. */
  lemma BufferShows(file: Bytes, whole: Bytes, fs: seq<Fragment>, p: nat, limit: nat)
    requires CutFrom(file, whole, fs, p) && fs != []
    requires Place(p) + HEADER_SIZE <= limit <= |file|
    ensures file[Place(p)..limit][..HEADER_SIZE] == Header(fs[0])
    ensures FragmentEnd(fs[0], p) <= limit ==>
              file[Place(p)..limit][HEADER_SIZE..HEADER_SIZE + |fs[0].payload|] == fs[0].payload
  {
    hide CutFrom, Header, Place;
    CutNext(file, whole, fs, p);
    CutIsPrefix(file, whole, fs, p);
    var q, n := Place(p), |fs[0].payload|;
    SlicesAgree(file, whole, q, limit, 0, HEADER_SIZE);
    assert file[q..limit][..HEADER_SIZE] == file[q..limit][0..HEADER_SIZE];
    if FragmentEnd(fs[0], p) <= limit {
      SlicesAgree(file, whole, q, limit, HEADER_SIZE, HEADER_SIZE + n);
    }
  }

  lemma CutIsPrefix(file: Bytes, whole: Bytes, fs: seq<Fragment>, p: nat)
    requires CutFrom(file, whole, fs, p)
    ensures file <= whole
  {
  }

  lemma SlicesAgree(file: Bytes, whole: Bytes, q: nat, limit: nat, i: nat, j: nat)
    requires file <= whole && q <= limit <= |file| && i <= j <= limit - q
    ensures file[q..limit][i..j] == whole[q + i..q + j]
  {
    assert file == whole[..|file|];
    assert file[q..limit][i..j] == file[q + i..q + j];
    assert whole[..|file|][q + i..q + j] == whole[q + i..q + j];
  }

  /** One read gives the next fragment if the file holds all of it, and ends otherwise. */
  lemma ReadsFragment(file: Bytes, whole: Bytes, fs: seq<Fragment>, p: nat)
    requires CutFrom(file, whole, fs, p)
    ensures fs != [] && FragmentEnd(fs[0], p) <= |file| ==>
              Physical(file, p) == Outcome(TypeByte(fs[0].kind) as nat, fs[0].payload, FragmentEnd(fs[0], p), 0)
    ensures fs == [] || FragmentEnd(fs[0], p) > |file| ==> Physical(file, p).kind == EOF_TYPE && Physical(file, p).drops == 0
  {
    var q := Place(p);
    if fs == [] {
      LayoutLength(fs, p);
    } else if |file| >= q + HEADER_SIZE {
      var f := fs[0];
      RoomInBlock(p, |f.payload|);
      var limit := Least(BlockEnd(q), |file|);
      BufferShows(file, whole, fs, p, limit);
      hide Layout, Fits, Header, Place, BlockEnd, ParseHeader;
      ParsesHeader(file[q..limit], limit != BlockEnd(q), f);
    }
  }

  lemma RoomInBlock(p: nat, n: nat)
    requires n <= Avail(p)
    ensures Place(p) + HEADER_SIZE + n <= BlockEnd(Place(p)) && n <= 0xFFFF
  {
  }

  lemma {:induction false} EndGrows(fs: seq<Fragment>, p: nat)
    ensures End(fs, p) >= p
  {
    if fs != [] {
      EndGrows(fs[1..], FragmentEnd(fs[0], p));
    }
  }

  /** One fragment of a record, taken in its turn. */
  lemma ReadStep(file: Bytes, p: nat, begin: bool, end: bool, scratch: Bytes, f: Fragment, e: nat)
    requires p <= |file| && e <= |file| && f.kind == Kind(begin, end) && (begin ==> scratch == [])
    requires Physical(file, p) == Outcome(TypeByte(f.kind) as nat, f.payload, e, 0)
    ensures ReadFrom(file, p, !begin, scratch) ==
              if end then Found(true, scratch + f.payload, e, 0) else ReadFrom(file, e, true, scratch + f.payload)
  {
    assert [] + f.payload == f.payload;
  }

  lemma ReadEnds(file: Bytes, p: nat, fragmented: bool, scratch: Bytes)
    requires p <= |file| && Physical(file, p).kind == EOF_TYPE && Physical(file, p).drops == 0
    ensures !ReadFrom(file, p, fragmented, scratch).found && ReadFrom(file, p, fragmented, scratch).drops == 0
  {
  }

  /** The rest of a record is read to its end, or reading stops for good without a report. */
  lemma {:induction false} ReadsRest(file: Bytes, whole: Bytes, data: Bytes, p: nat, begin: bool, scratch: Bytes, more: seq<Fragment>)
    requires CutFrom(file, whole, Split(data, p, begin) + more, p) && (begin ==> scratch == [])
    ensures End(Split(data, p, begin), p) <= |file| ==>
              ReadFrom(file, p, !begin, scratch) == Found(true, scratch + data, End(Split(data, p, begin), p), 0)
    ensures End(Split(data, p, begin), p) > |file| ==>
              !ReadFrom(file, p, !begin, scratch).found && ReadFrom(file, p, !begin, scratch).drops == 0
    decreases |data|, Avail(p) == 0
  {
    hide NextFragment, Physical, ReadFrom, CutFrom, FragmentEnd, Avail, Split, End, Kind;
    var f := NextFragment(data, p, begin);
    NextFragmentFits(data, p, begin, f);
    var rest := data[|f.payload|..];
    RecordHead(data, p, begin, f, rest, more);
    SplitShrinks(data, p, begin, f);
    var fs, e := Split(data, p, begin) + more, FragmentEnd(f, p);
    InFile(file, whole, fs, p);
    ReadsFragment(file, whole, fs, p);
    SplitEnd(data, p, begin, f, rest);
    if e > |file| {
      ReadEnds(file, p, !begin, scratch);
    } else {
      ReadStep(file, p, begin, rest == [], scratch, f, e);
      Regroup(scratch, f.payload, rest);
      if rest != [] {
        CutNext(file, whole, fs, p);
        ReadsRest(file, whole, rest, e, false, scratch + f.payload, more);
      }
    }
  }

  lemma NextFragmentFits(data: Bytes, p: nat, begin: bool, f: Fragment)
    requires f == NextFragment(data, p, begin)
    ensures |f.payload| <= |data|
  {
  }

  lemma RecordHead(data: Bytes, p: nat, begin: bool, f: Fragment, rest: Bytes, more: seq<Fragment>)
    requires f == NextFragment(data, p, begin) && |f.payload| <= |data| && rest == data[|f.payload|..]
    ensures f.kind == Kind(begin, rest == [])
    ensures data == f.payload + rest && (rest == [] ==> data == f.payload)
    ensures (Split(data, p, begin) + more)[0] == f
    ensures rest != [] ==> (Split(data, p, begin) + more)[1..] == Split(rest, FragmentEnd(f, p), false) + more
  {
    SplitStep(data, p, begin, f, rest);
    assert f.kind == Kind(begin, rest == []) && data == f.payload + rest;
    hide NextFragment, Avail, Split, FragmentEnd, Kind;
    if rest != [] {
      var tail := Split(rest, FragmentEnd(f, p), false);
      assert ([f] + tail + more)[1..] == tail + more;
    }
  }

  lemma SplitEnd(data: Bytes, p: nat, begin: bool, f: Fragment, rest: Bytes)
    requires f == NextFragment(data, p, begin) && rest == data[|f.payload|..]
    ensures End(Split(data, p, begin), p) == if rest == [] then FragmentEnd(f, p) else End(Split(rest, FragmentEnd(f, p), false), FragmentEnd(f, p))
    ensures End(Split(data, p, begin), p) >= FragmentEnd(f, p)
  {
    var fs := Split(data, p, begin);
    SplitStep(data, p, begin, f, rest);
    assert fs[1..] == if rest == [] then [] else Split(rest, FragmentEnd(f, p), false);
    EndGrows(fs[1..], FragmentEnd(f, p));
  }

  // ---------------------------------------------------------------- all records

  /** How many of the records, laid out from `p`, end at or before byte `n`. */
  function Complete(records: seq<Bytes>, p: nat, n: nat): (k: nat)
    ensures k <= |records|
  {
    if records == [] || RecordEnd(records[0], p) > n then 0 else 1 + Complete(records[1..], RecordEnd(records[0], p), n)
  }

  /** Every record a reader returns from `p` on, and the losses it reports. */
  function ReadAllFrom(file: Bytes, p: nat): (seq<Bytes>, nat)
    requires p <= |file|
    decreases |file| - p
  {
    var r := ReadFrom(file, p, false, []);
    if !r.found then ([], r.drops)
    else
      var (rs, drops) := ReadAllFrom(file, r.next);
      ([r.record] + rs, r.drops + drops)
  }

  lemma {:induction false} ReadsComplete(file: Bytes, whole: Bytes, records: seq<Bytes>, p: nat)
    requires CutFrom(file, whole, Fragments(records, p), p)
    ensures ReadAllFrom(file, p) == (records[..Complete(records, p, |file|)], 0)
    decreases |records|
  {
    hide ReadFrom, CutFrom, RecordEnd;
    if records == [] {
      ReadsFragment(file, whole, [], p);
      InFile(file, whole, [], p);
      ReadEnds(file, p, false, []);
    } else {
      var e := RecordEnd(records[0], p);
      var more := Fragments(records[1..], e);
      ReadsRecord(file, whole, records[0], p, more);
      InFile(file, whole, Fragments(records, p), p);
      assert [] + records[0] == records[0];
      if e <= |file| {
        ReadsComplete(file, whole, records[1..], e);
        var k := Complete(records[1..], e, |file|);
        assert records[..1 + k] == [records[0]] + records[1..][..k];
      }
    }
  }

  lemma InFile(file: Bytes, whole: Bytes, fs: seq<Fragment>, p: nat)
    requires CutFrom(file, whole, fs, p)
    ensures p <= |file|
  {
  }

  lemma ReadsRecord(file: Bytes, whole: Bytes, data: Bytes, p: nat, more: seq<Fragment>)
    requires CutFrom(file, whole, Split(data, p, true) + more, p)
    ensures RecordEnd(data, p) <= |file| ==> ReadFrom(file, p, false, []) == Found(true, data, RecordEnd(data, p), 0)
    ensures RecordEnd(data, p) <= |file| ==> CutFrom(file, whole, more, RecordEnd(data, p))
    ensures RecordEnd(data, p) > |file| ==> !ReadFrom(file, p, false, []).found && ReadFrom(file, p, false, []).drops == 0
  {
    ReadsRest(file, whole, data, p, true, [], more);
    hide ReadFrom;
    assert [] + data == data;
    if RecordEnd(data, p) <= |file| {
      CutPast(file, whole, Split(data, p, true), more, p);
    }
  }

  lemma {:induction false} CutPast(file: Bytes, whole: Bytes, fs: seq<Fragment>, more: seq<Fragment>, p: nat)
    requires CutFrom(file, whole, fs + more, p) && End(fs, p) <= |file|
    ensures CutFrom(file, whole, more, End(fs, p))
    decreases |fs|
  {
    hide CutFrom, FragmentEnd;
    if fs == [] {
      assert fs + more == more;
    } else {
      assert (fs + more)[1..] == fs[1..] + more;
      EndGrows(fs[1..], FragmentEnd(fs[0], p));
      CutNext(file, whole, fs + more, p);
      CutPast(file, whole, fs[1..], more, FragmentEnd(fs[0], p));
    }
  }

  lemma {:induction false} CompleteMeans(records: seq<Bytes>, p: nat, n: nat)
    requires p <= n
    ensures var k := Complete(records, p, n);
            && End(Fragments(records[..k], p), p) <= n
            && (k < |records| ==> End(Fragments(records[..k + 1], p), p) > n)
    decreases |records|
  {
    hide Split;
    if records != [] {
      var e := RecordEnd(records[0], p);
      OneMore(records, p, 1);
      if e <= n {
        CompleteMeans(records[1..], e, n);
        var k := Complete(records, p, n);
        OneMore(records, p, k);
        if k < |records| {
          OneMore(records, p, k + 1);
        }
      }
    }
  }

  /** The first record, and then the others. */
  lemma OneMore(records: seq<Bytes>, p: nat, k: nat)
    requires 1 <= k <= |records|
    ensures End(Fragments(records[..k], p), p) == End(Fragments(records[1..][..k - 1], RecordEnd(records[0], p)), RecordEnd(records[0], p))
  {
    var front := records[..k];
    assert front[0] == records[0] && front[1..] == records[1..][..k - 1];
    SplitFits(records[0], p, true);
    FragmentsFit(front[1..], RecordEnd(records[0], p));
    LayoutConcat(Split(records[0], p, true), Fragments(front[1..], RecordEnd(records[0], p)), p);
  }

  /**
    The truncation theorem.  For every list of records and every cut, reading what is left gives back a front of
    the list and reports no loss; the last record given back ends within the cut and the next does not.
  */
  lemma Truncation(records: seq<Bytes>, n: nat, k: nat)
    requires n <= |FileOf(records)| && k == Complete(records, 0, n)
    ensures ReadAllFrom(FileOf(records)[..n], 0) == (records[..k], 0)
    ensures |FileOf(records[..k])| <= n
    ensures k < |records| ==> |FileOf(records[..k + 1])| > n
  {
    hide ReadAllFrom, Complete, Fragments, End, FileOf, CutFrom;
    var whole := FileOf(records);
    var file := whole[..n];
    CutWhole(records, n);
    ReadsComplete(file, whole, records, 0);
    CompleteMeans(records, 0, n);
    FileLength(records[..k]);
    if k < |records| {
      FileLength(records[..k + 1]);
    }
  }

  lemma CutWhole(records: seq<Bytes>, n: nat)
    requires n <= |FileOf(records)|
    ensures CutFrom(FileOf(records)[..n], FileOf(records), Fragments(records, 0), 0)
  {
    FragmentsFit(records, 0);
    assert FileOf(records)[0..] == FileOf(records);
  }

  lemma FileLength(records: seq<Bytes>)
    ensures |FileOf(records)| == End(Fragments(records, 0), 0)
  {
    FragmentsFit(records, 0);
    LayoutLength(Fragments(records, 0), 0);
  }

  /** Nothing is lost of a file that was not cut. */
  lemma RoundTrip(records: seq<Bytes>)
    ensures ReadAllFrom(FileOf(records), 0) == (records, 0)
  {
    hide FileOf, ReadAllFrom, Complete;
    var whole := FileOf(records);
    var k := Complete(records, 0, |whole|);
    Truncation(records, |whole|, k);
    assert k == |records| by {
      if k < |records| {
        FrontEnds(records, k + 1);
      }
    }
    WholeIsPrefix(whole);
    WholeIsPrefix(records);
  }

  /**
    A crash that cuts the record being written: all records before it are read, it is read only if it is whole,
    and no loss is reported.
  */
  lemma TornRecord(records: seq<Bytes>, last: Bytes, n: nat)
    requires |FileOf(records)| <= n <= |FileOf(records + [last])|
    ensures ReadAllFrom(FileOf(records + [last])[..n], 0) == (if n == |FileOf(records + [last])| then records + [last] else records, 0)
  {
    hide FileOf, ReadAllFrom, Complete;
    var all := records + [last];
    if n == |FileOf(all)| {
      RoundTrip(all);
      WholeIsPrefix(FileOf(all));
    } else {
      var k := Complete(all, 0, n);
      Truncation(all, n, k);
      WholeIsPrefix(all);
      if k < |records| {
        assert all[..k + 1] == records[..k + 1];
        FrontEnds(records, k + 1);
      }
      assert all[..|records|] == records;
    }
  }

  lemma WholeIsPrefix<T>(s: seq<T>)
    ensures s[..|s|] == s
  {
  }

  lemma FrontEnds(records: seq<Bytes>, k: nat)
    requires k <= |records|
    ensures |FileOf(records[..k])| <= |FileOf(records)|
  {
    FragmentsConcat(records[..k], records[k..], 0);
    assert records[..k] + records[k..] == records;
    var fs := Fragments(records[..k], 0);
    FragmentsFit(records[..k], 0);
    FragmentsFit(records, 0);
    FragmentsFit(records[k..], End(fs, 0));
    LayoutConcat(fs, Fragments(records[k..], End(fs, 0)), 0);
  }

  lemma {:induction false} FragmentsConcat(a: seq<Bytes>, b: seq<Bytes>, p: nat)
    ensures Fragments(a + b, p) == Fragments(a, p) + Fragments(b, End(Fragments(a, p), p))
    decreases |a|
  {
    hide Split;
    if a == [] {
      assert a + b == b;
    } else {
      var e := RecordEnd(a[0], p);
      assert (a + b)[1..] == a[1..] + b;
      FragmentsConcat(a[1..], b, e);
      SplitFits(a[0], p, true);
      FragmentsFit(a[1..], e);
      LayoutConcat(Split(a[0], p, true), Fragments(a[1..], e), p);
    }
  }

  function After(records: seq<Bytes>, drops: nat, rest: (seq<Bytes>, nat)): (seq<Bytes>, nat) {
    (records + rest.0, drops + rest.1)
  }

  lemma AfterNothing(rest: (seq<Bytes>, nat))
    ensures After([], 0, rest) == rest
  {
    assert [] + rest.0 == rest.0;
  }

  lemma Regroup3(a: seq<Bytes>, x: Bytes, b: seq<Bytes>)
    ensures (a + [x]) + b == a + ([x] + b)
  {
  }

  /** The loop of recovery: read until no record is found. */
  method ReadAll(file: Bytes) returns (records: seq<Bytes>, drops: nat)
    ensures (records, drops) == ReadAllFrom(file, 0)
  {
    var reader := new Reader(file);
    records := [];
    ghost var p := 0;
    hide Standing, ReadFrom;
    AfterNothing(ReadAllFrom(file, 0));
    while true
      invariant reader.At(p) && p <= |file| && reader.file == file
      invariant ReadAllFrom(file, 0) == After(records, reader.drops, ReadAllFrom(file, p))
      decreases |file| - p
    {
      ghost var r := ReadFrom(file, p, false, []);
      var found, record := reader.ReadRecord(p);
      if !found {
        assert records + [] == records;
        break;
      }
      Regroup3(records, record, ReadAllFrom(file, r.next).0);
      p := r.next;
      records := records + [record];
    }
    drops := reader.drops;
  }
}
