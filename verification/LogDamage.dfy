/**
  Reading a log whose bytes may be anything (db/log_reader.cc): what comes back was stored, fragment by fragment
  with its checksum; and damage goes no further than the block it is in, unless it looks like the end of the file.
*/
module LogDamage {
  import opened InternalKeys
  import opened Checksums
  import opened Logs
  import opened LogReaders

  // ---------------------------------------------------------------- only what was stored is read

  /** The fragment stands in the file behind `p`, header, checksum and all, and ends at `e`. */
  ghost predicate StoredAt(file: Bytes, p: nat, f: Fragment, e: nat) {
    && |f.payload| <= 0xFFFF && e == FragmentEnd(f, p) <= |file|
    && file[Place(p)..e] == Header(f) + f.payload
  }

  ghost predicate StoredFrom(file: Bytes, p: nat, fs: seq<Fragment>, e: nat)
    decreases |fs|
  {
    if fs == [] then p == e else StoredAt(file, p, fs[0], FragmentEnd(fs[0], p)) && StoredFrom(file, FragmentEnd(fs[0], p), fs[1..], e)
  }

  /** The end of a record: any number of middle fragments, and a last. */
  predicate IsTail(fs: seq<Fragment>) {
    fs != [] && if |fs| == 1 then fs[0].kind == Last else fs[0].kind == Middle && IsTail(fs[1..])
  }

  /** One full fragment, or a first one and a tail. */
  predicate IsRecord(fs: seq<Fragment>) {
    fs != [] && if |fs| == 1 then fs[0].kind == Full else fs[0].kind == First && IsTail(fs[1..])
  }

  function RecordOf(fs: seq<Fragment>): Bytes {
    if fs == [] then [] else fs[0].payload + RecordOf(fs[1..])
  }

  function KindOf(t: nat): RecordType
    requires 1 <= t <= 4
  {
    if t == 1 then Full else if t == 2 then First else if t == 3 then Middle else Last
  }

  /** A header whose checksum is right is the header of just this fragment. */
  lemma CheckedIsHeader(header: Bytes, body: Bytes, t: nat)
    requires |header| == HEADER_SIZE && 1 <= t <= 4 && header[6] == t
    requires DecodeLength(header[4], header[5]) == |body| && Checked(header, body)
    ensures |body| <= 0xFFFF && header == Header(Fragment(KindOf(t), body))
  {
    var c := Value([header[6]] + body);
    MaskInverse(DecodeFixed32(header));
    EncodedAgain(header);
    hide Value, Mask, Unmask, EncodeFixed32, DecodeFixed32;
    LengthAgain(header[4], header[5], |body|);
    assert TypeByte(KindOf(t)) == header[6];
    assert header == header[..4] + [header[4], header[5]] + [header[6]];
  }

  lemma LengthAgain(a: Byte, b: Byte, n: nat)
    requires DecodeLength(a, b) == n
    ensures n <= 0xFFFF && LengthBytes(n) == [a, b]
  {
    var lo: int, hi: int := a, b;
    assert n == lo + 256 * hi && n / 256 == hi && n % 256 == lo;
  }

  lemma PhysicalIsStored(file: Bytes, p: nat)
    requires p <= |file| && 1 <= Physical(file, p).kind <= 4
    ensures var o := Physical(file, p); StoredAt(file, p, Fragment(KindOf(o.kind), o.fragment), o.next)
  {
    hide Place, BlockEnd, ParseHeader, Header;
    var o, q := Physical(file, p), Place(p);
    var limit := Least(BlockEnd(q), |file|);
    RoomInBlock(p, 0);
    ParsedIsHeader(file[q..limit], limit != BlockEnd(q));
    FrontOfSlice(file, q, limit, HEADER_SIZE + |o.fragment|);
  }

  lemma FrontOfSlice(file: Bytes, q: nat, limit: nat, n: nat)
    requires q <= limit <= |file|
    ensures n <= limit - q ==> file[q..limit][..n] == file[q..q + n]
  {
  }

  lemma ParsedIsHeader(buffer: Bytes, eof: bool)
    requires |buffer| >= HEADER_SIZE && 1 <= ParseHeader(buffer, eof).kind <= 4
    ensures var o := ParseHeader(buffer, eof);
            && o.next == HEADER_SIZE + |o.fragment| <= |buffer| && |o.fragment| <= 0xFFFF
            && buffer[..o.next] == Header(Fragment(KindOf(o.kind), o.fragment)) + o.fragment
  {
    hide Checked, Header, DecodeLength;
    var header := buffer[..HEADER_SIZE];
    var length := DecodeLength(header[4], header[5]);
    var body := buffer[HEADER_SIZE..HEADER_SIZE + length];
    CheckedIsHeader(header, body, header[6]);
    assert buffer[..HEADER_SIZE + length] == header + body;
  }

  /** A record that is found: its fragments, one behind the other, and where they begin; `whole` if none of it was in hand. */
  lemma {:induction false} FoundIsStored(file: Bytes, p: nat, fragmented: bool, scratch: Bytes) returns (q: nat, fs: seq<Fragment>, whole: bool)
    requires p <= |file| && ReadFrom(file, p, fragmented, scratch).found
    ensures var r := ReadFrom(file, p, fragmented, scratch);
            && p <= q && StoredFrom(file, q, fs, r.next)
            && (whole ==> IsRecord(fs) && r.record == RecordOf(fs))
            && (!whole ==> fragmented && q == p && IsTail(fs) && r.record == scratch + RecordOf(fs))
    decreases |file| - p
  {
    hide Physical, FragmentEnd, StoredAt;
    var o := Physical(file, p);
    var turn := Take(o.kind, o.fragment, fragmented, scratch);
    if 1 <= o.kind <= 4 {
      PhysicalIsStored(file, p);
      StoredEnd(file, p, Fragment(KindOf(o.kind), o.fragment), o.next);
    }
    if turn.GoOn? {
      q, fs, whole := FoundIsStored(file, o.next, turn.fragmented, turn.scratch);
      var f := Fragment(First, o.fragment);
      if !whole && o.kind == 2 {
        OneMorePiece(file, p, Fragment(First, o.fragment), o.next, fs, ReadFrom(file, o.next, turn.fragmented, turn.scratch).next);
        q, fs, whole := p, [Fragment(First, o.fragment)] + fs, true;
      } else if !whole {
        OneMorePiece(file, p, Fragment(Middle, o.fragment), o.next, fs, ReadFrom(file, o.next, turn.fragmented, turn.scratch).next);
        Regroup(scratch, o.fragment, RecordOf(fs));
        q, fs, whole := p, [Fragment(Middle, o.fragment)] + fs, false;
      }
    } else {
      var f := Fragment(KindOf(o.kind), o.fragment);
      OneMorePiece(file, p, f, o.next, [], o.next);
      assert [f] + [] == [f] && o.fragment + [] == o.fragment;
      q, fs, whole := p, [f], o.kind == 1;
    }
  }

  lemma StoredEnd(file: Bytes, p: nat, f: Fragment, e: nat)
    requires StoredAt(file, p, f, e)
    ensures e == FragmentEnd(f, p)
  {
  }

  lemma OneMorePiece(file: Bytes, p: nat, f: Fragment, e: nat, fs: seq<Fragment>, end: nat)
    requires StoredAt(file, p, f, e) && StoredFrom(file, e, fs, end)
    ensures StoredFrom(file, p, [f] + fs, end) && RecordOf([f] + fs) == f.payload + RecordOf(fs)
  {
    hide Header;
    assert ([f] + fs)[1..] == fs;
  }

  /** Where in the file a record is stored whole. */
  ghost predicate Genuine(file: Bytes, record: Bytes) {
    exists q, fs, e :: StoredFrom(file, q, fs, e) && IsRecord(fs) && record == RecordOf(fs)
  }

  /** Whatever the bytes of the file: every record that reading it returns is stored in it, each of its fragments with
      its own checksum, one behind the other. */
  lemma {:induction false} OnlyStoredRecords(file: Bytes, p: nat)
    requires p <= |file|
    ensures forall record | record in ReadAllFrom(file, p).0 :: Genuine(file, record)
    decreases |file| - p
  {
    hide ReadFrom, StoredFrom, IsRecord, RecordOf;
    var r := ReadFrom(file, p, false, []);
    if r.found {
      var q, fs, whole := FoundIsStored(file, p, false, []);
      assert Genuine(file, r.record);
      OnlyStoredRecords(file, r.next);
    }
  }

  // ---------------------------------------------------------------- damage stays in its block

  /** The records returned from `p` on, with the fragments of an unfinished one in hand. */
  ghost function Onward(file: Bytes, p: nat, fragmented: bool, scratch: Bytes): seq<Bytes>
    requires p <= |file|
  {
    var r := ReadFrom(file, p, fragmented, scratch);
    if r.found then [r.record] + ReadAllFrom(file, r.next).0 else []
  }

  lemma OnwardIsAll(file: Bytes, p: nat)
    requires p <= |file|
    ensures Onward(file, p, false, []) == ReadAllFrom(file, p).0
  {
    hide ReadFrom;
  }

  lemma OnwardStep(file: Bytes, p: nat, fragmented: bool, scratch: Bytes, o: Outcome, turn: Turn)
    requires p <= |file| && o == Physical(file, p) && turn == Take(o.kind, o.fragment, fragmented, scratch)
    ensures turn.Stop? ==> Onward(file, p, fragmented, scratch) == if turn.found then [turn.record] + ReadAllFrom(file, o.next).0 else []
    ensures turn.GoOn? ==> Onward(file, p, fragmented, scratch) == Onward(file, o.next, turn.fragmented, turn.scratch)
  {
    hide Physical;
  }

  ghost predicate EndsWith(a: seq<Bytes>, b: seq<Bytes>) {
    |b| <= |a| && a[|a| - |b|..] == b
  }

  lemma EndsAfter(one: Bytes, a: seq<Bytes>, b: seq<Bytes>)
    requires EndsWith(a, b)
    ensures EndsWith([one] + a, b)
  {
  }

  /** No fragment with a right checksum and the type that stands for the end of the file is met on the way to `limit`. */
  predicate NoFalseEnd(file: Bytes, p: nat, limit: nat)
    requires p <= |file|
    decreases |file| - p
  {
    Place(p) >= limit || (var o := Physical(file, p); o.kind != EOF_TYPE && NoFalseEnd(file, o.next, limit))
  }

  /** A reader that comes to a block boundary reads on from there, whatever it has in hand. */
  lemma {:induction false} ComesTo(file: Bytes, p: nat, fragmented: bool, scratch: Bytes, limit: nat, tail: seq<Bytes>)
    requires p <= limit <= |file| && limit % BLOCK_SIZE == 0 && NoFalseEnd(file, p, limit)
    requires forall f, held :: EndsWith(Onward(file, limit, f, held), tail)
    ensures EndsWith(Onward(file, p, fragmented, scratch), tail)
    decreases |file| - p
  {
    hide Onward, EndsWith, Physical, Place;
    var o := Physical(file, p);
    var turn := Take(o.kind, o.fragment, fragmented, scratch);
    OnwardStep(file, p, fragmented, scratch, o, turn);
    Boundary(p, limit);
    if Place(p) >= limit {
      SamePlace(file, p, limit);
      OnwardStep(file, limit, fragmented, scratch, o, turn);
    } else {
      StaysBefore(file, p, limit);
      if turn.Stop? {
        StopsWith(o.kind, o.fragment, fragmented, scratch);
        ComesTo(file, o.next, false, [], limit, tail);
        OnwardIsAll(file, o.next);
        EndsAfter(turn.record, ReadAllFrom(file, o.next).0, tail);
      } else {
        ComesTo(file, o.next, turn.fragmented, turn.scratch, limit, tail);
      }
    }
  }

  lemma StopsWith(kind: nat, fragment: Bytes, fragmented: bool, scratch: Bytes)
    ensures Take(kind, fragment, fragmented, scratch).Stop? && kind != EOF_TYPE ==> Take(kind, fragment, fragmented, scratch).found
  {
  }

  lemma Boundary(p: nat, limit: nat)
    requires p <= limit && limit % BLOCK_SIZE == 0
    ensures Place(p) <= limit
  {
  }

  lemma SamePlace(file: Bytes, p: nat, limit: nat)
    requires p <= limit <= |file| && limit % BLOCK_SIZE == 0 && Place(p) >= limit
    ensures Physical(file, p) == Physical(file, limit)
  {
    assert Place(p) == limit && Place(limit) == limit;
    hide ParseHeader;
  }

  /** A read ends within its block. */
  lemma StaysBefore(file: Bytes, p: nat, limit: nat)
    requires p <= |file| && Place(p) < limit <= |file| && limit % BLOCK_SIZE == 0 && Physical(file, p).kind != EOF_TYPE
    ensures p < Physical(file, p).next <= limit
  {
    var q := Place(p);
    BlockBefore(q, limit);
    var end := Least(BlockEnd(q), |file|);
    hide ParseHeader, Place, BlockEnd;
    assert |file[q..end]| == end - q;
  }

  lemma BlockBefore(q: nat, limit: nat)
    requires q < limit && limit % BLOCK_SIZE == 0
    ensures q < BlockEnd(q) <= limit
  {
    assert limit == limit / BLOCK_SIZE * BLOCK_SIZE;
    assert q / BLOCK_SIZE < limit / BLOCK_SIZE;
  }

  // ---------------------------------------------------------------- reading on from a boundary

  /** What is in hand does not matter where a record begins. */
  lemma BeginsAnew(file: Bytes, p: nat, fragmented: bool, scratch: Bytes)
    requires p <= |file| && (Physical(file, p).kind == 1 || Physical(file, p).kind == 2)
    ensures Onward(file, p, fragmented, scratch) == Onward(file, p, false, [])
  {
    hide Physical;
    var o := Physical(file, p);
    OnwardStep(file, p, fragmented, scratch, o, Take(o.kind, o.fragment, fragmented, scratch));
    OnwardStep(file, p, false, [], o, Take(o.kind, o.fragment, false, []));
  }

  /** Whole records, wherever the reader comes from. */
  lemma RecordsOnward(file: Bytes, records: seq<Bytes>, p: nat, fragmented: bool, scratch: Bytes)
    requires p <= |file| && CutFrom(file, file, Fragments(records, p), p)
    ensures EndsWith(Onward(file, p, fragmented, scratch), records)
  {
    hide Onward, CutFrom, Physical, Fragments;
    if records != [] {
      ReadsComplete(file, file, records, p);
      AllComplete(file, records, p);
      FirstIsRead(file, records, p);
      BeginsAnew(file, p, fragmented, scratch);
      OnwardIsAll(file, p);
      assert records[..|records|] == records;
    }
  }

  lemma FirstIsRead(file: Bytes, records: seq<Bytes>, p: nat)
    requires records != [] && p <= |file| && CutFrom(file, file, Fragments(records, p), p)
    ensures Physical(file, p).kind == 1 || Physical(file, p).kind == 2
  {
    var fs := Fragments(records, p);
    SplitNotEmpty(records, p);
    LayoutLength(fs, p);
    EndGrows(fs[1..], FragmentEnd(fs[0], p));
    hide CutFrom, Physical;
    WholeLength(file, fs, p);
    ReadsFragment(file, file, fs, p);
  }

  lemma WholeLength(file: Bytes, fs: seq<Fragment>, p: nat)
    requires CutFrom(file, file, fs, p)
    ensures |file| == End(fs, p)
  {
    LayoutLength(fs, p);
    hide Layout;
  }

  lemma SplitNotEmpty(records: seq<Bytes>, p: nat)
    requires records != []
    ensures Fragments(records, p) != [] && Fragments(records, p)[0] == NextFragment(records[0], p, true)
    ensures TypeByte(Fragments(records, p)[0].kind) as nat == 1 || TypeByte(Fragments(records, p)[0].kind) as nat == 2
  {
    hide NextFragment, Split;
    SplitHead(records[0], p);
  }

  lemma SplitHead(data: Bytes, p: nat)
    ensures Split(data, p, true) != [] && Split(data, p, true)[0] == NextFragment(data, p, true)
    ensures NextFragment(data, p, true).kind == Full || NextFragment(data, p, true).kind == First
  {
  }

  lemma {:induction false} AllComplete(file: Bytes, records: seq<Bytes>, p: nat)
    requires |file| == End(Fragments(records, p), p) || CutFrom(file, file, Fragments(records, p), p)
    ensures Complete(records, p, |file|) == |records|
    decreases |records|
  {
    hide Split, CutFrom;
    if CutFrom(file, file, Fragments(records, p), p) {
      WholeLength(file, Fragments(records, p), p);
    }
    if records != [] {
      var e := RecordEnd(records[0], p);
      var rest := Fragments(records[1..], e);
      SplitFits(records[0], p, true);
      FragmentsFit(records[1..], e);
      LayoutConcat(Split(records[0], p, true), rest, p);
      EndGrows(rest, e);
      AllComplete(file, records[1..], e);
    }
  }

  /** The rest of a record that began before, and then whole records. */
  lemma {:induction false} TailOnward(file: Bytes, rest: Bytes, records: seq<Bytes>, p: nat, fragmented: bool, scratch: Bytes)
    requires CutFrom(file, file, Split(rest, p, false) + Fragments(records, End(Split(rest, p, false), p)), p)
    ensures p <= |file| && EndsWith(Onward(file, p, fragmented, scratch), records)
    decreases |rest|, Avail(p) == 0
  {
    hide Onward, EndsWith, CutFrom, Physical, Split, NextFragment, Fragments, FragmentEnd, Avail, ReadFrom, End;
    var e := End(Split(rest, p, false), p);
    var more := Fragments(records, e);
    var fs := Split(rest, p, false) + more;
    InFile(file, file, fs, p);
    TailEnds(file, rest, records, p, e);
    CutPast(file, file, Split(rest, p, false), more, p);
    if fragmented {
      ReadsRest(file, file, rest, p, false, scratch, more);
      RecordsOnward(file, records, e, false, []);
      OnwardIsAll(file, e);
      FoundOnward(file, p, scratch, scratch + rest, e);
      EndsAfter(scratch + rest, ReadAllFrom(file, e).0, records);
    } else {
      var f := NextFragment(rest, p, false);
      NextFragmentFits(rest, p, false, f);
      var left := rest[|f.payload|..];
      RecordHead(rest, p, false, f, left, more);
      SplitShrinks(rest, p, false, f);
      SplitEnd(rest, p, false, f, left);
      ReadsFragment(file, file, fs, p);
      Dropped(f, left == [], scratch);
      var o := Physical(file, p);
      OnwardStep(file, p, false, scratch, o, Take(o.kind, o.fragment, false, scratch));
      if left == [] {
        RecordsOnward(file, records, e, false, scratch);
      } else {
        CutNext(file, file, fs, p);
        TailOnward(file, left, records, FragmentEnd(f, p), false, scratch);
      }
    }
  }

  lemma Dropped(f: Fragment, end: bool, scratch: Bytes)
    requires f.kind == Kind(false, end)
    ensures Take(TypeByte(f.kind) as nat, f.payload, false, scratch) == GoOn(false, scratch, 1)
  {
  }

  lemma FoundOnward(file: Bytes, p: nat, scratch: Bytes, record: Bytes, e: nat)
    requires p <= |file| && e <= |file| && ReadFrom(file, p, true, scratch) == Found(true, record, e, 0)
    ensures Onward(file, p, true, scratch) == [record] + ReadAllFrom(file, e).0
  {
    hide ReadFrom, ReadAllFrom;
  }

  lemma TailEnds(file: Bytes, rest: Bytes, records: seq<Bytes>, p: nat, e: nat)
    requires e == End(Split(rest, p, false), p)
    requires CutFrom(file, file, Split(rest, p, false) + Fragments(records, e), p)
    ensures p <= e <= |file|
  {
    var fs, more := Split(rest, p, false), Fragments(records, e);
    SplitFits(rest, p, false);
    FragmentsFit(records, e);
    LayoutConcat(fs, more, p);
    EndGrows(more, e);
    EndGrows(fs, p);
    hide CutFrom, Split, Fragments;
    WholeLength(file, fs + more, p);
  }

  // ---------------------------------------------------------------- what the writer has at a boundary

  /** Nothing but a trailer lies between the two places. */
  predicate JustBefore(p: nat, limit: nat) {
    p <= limit && limit % BLOCK_SIZE == 0 && Place(p) >= limit
  }

  lemma SameFragments(data: Bytes, p: nat, begin: bool, limit: nat)
    requires JustBefore(p, limit)
    ensures Place(p) == limit == Place(limit) && Avail(p) == Avail(limit)
    ensures Split(data, p, begin) == Split(data, limit, begin)
  {
    assert Place(p) == limit == Place(limit);
    assert NextFragment(data, p, begin) == NextFragment(data, limit, begin);
  }

  lemma SameEnd(fs: seq<Fragment>, p: nat, limit: nat)
    requires JustBefore(p, limit) && fs != []
    ensures End(fs, p) == End(fs, limit)
  {
    SameFragments([], p, true, limit);
  }

  lemma ShiftCut(whole: Bytes, fs: seq<Fragment>, p: nat, limit: nat)
    requires JustBefore(p, limit) && CutFrom(whole, whole, fs, p) && fs != []
    ensures limit <= |whole| && CutFrom(whole, whole, fs, limit)
  {
    hide Layout, Fits, JustBefore, Zeros;
    StillFitsAt(fs, p, limit);
    LayoutShift(fs, p, limit);
    TailOfTail(whole, p, limit, Zeros(limit - p), Layout(fs, limit));
  }

  lemma TailOfTail(whole: Bytes, p: nat, limit: nat, z: Bytes, r: Bytes)
    requires p <= limit && p <= |whole| && whole[p..] == z + r && |z| == limit - p
    ensures limit <= |whole| && whole[limit..] == r
  {
    assert |whole[p..]| == |z| + |r|;
    assert whole[limit..] == whole[p..][limit - p..];
  }

  lemma LayoutShift(fs: seq<Fragment>, p: nat, limit: nat)
    requires JustBefore(p, limit) && Fits(fs, p) && Fits(fs, limit) && fs != []
    ensures p <= limit && Layout(fs, p) == Zeros(limit - p) + Layout(fs, limit)
  {
    hide *;
    SamePlaces(fs[0], p, limit);
    LayoutHead(fs, p);
    LayoutHead(fs, limit);
    NoZeros();
    var chunk := Header(fs[0]) + fs[0].payload;
    Regroup(Zeros(limit - p), chunk, Layout(fs[1..], FragmentEnd(fs[0], p)));
    assert [] + chunk == chunk;
  }

  lemma SamePlaces(f: Fragment, p: nat, limit: nat)
    requires JustBefore(p, limit)
    ensures p <= limit && Place(p) == limit == Place(limit) && FragmentEnd(f, p) == FragmentEnd(f, limit)
  {
  }

  lemma NoZeros()
    ensures Zeros(0) == []
  {
  }

  lemma StillFitsAt(fs: seq<Fragment>, p: nat, limit: nat)
    requires JustBefore(p, limit) && Fits(fs, p)
    ensures Fits(fs, limit)
  {
    SameFragments([], p, true, limit);
  }

  /** One record across the boundary, or up to it. */
  lemma {:induction false} WalkRecord(whole: Bytes, data: Bytes, p: nat, begin: bool, records: seq<Bytes>, limit: nat)
    returns (clean: bool, rest: Bytes)
    requires p <= limit <= |whole| && limit % BLOCK_SIZE == 0 && (begin ==> Place(p) < limit)
    requires CutFrom(whole, whole, Split(data, p, begin) + Fragments(records, End(Split(data, p, begin), p)), p)
    ensures clean ==> End(Split(data, p, begin), p) <= limit && CutFrom(whole, whole, Fragments(records, End(Split(data, p, begin), p)), End(Split(data, p, begin), p))
    ensures !clean ==> CutFrom(whole, whole, Split(rest, limit, false) + Fragments(records, End(Split(rest, limit, false), limit)), limit)
    ensures !clean ==> End(Split(data, p, begin), p) > limit
    decreases |data|, Avail(p) == 0
  {
    hide CutFrom, Split, NextFragment, Fragments, Avail, End, Place, Kind;
    var e := End(Split(data, p, begin), p);
    var more := Fragments(records, e);
    var fs := Split(data, p, begin) + more;
    SplitNonempty(data, p, begin);
    if Place(p) >= limit {
      clean, rest := false, data;
      SameFragments(data, p, false, limit);
      SameEnd(Split(data, p, false), p, limit);
      ShiftCut(whole, fs, p, limit);
      EndsBeyond(data, p, limit);
    } else {
      var f := NextFragment(data, p, begin);
      NextFragmentFits(data, p, begin, f);
      var left := data[|f.payload|..];
      RecordHead(data, p, begin, f, left, more);
      SplitShrinks(data, p, begin, f);
      SplitStep(data, p, begin, f, left);
      SplitEnd(data, p, begin, f, left);
      RoomInBlock(p, |f.payload|);
      BlockBefore(Place(p), limit);
      EndIs(f, p, limit);
      CutNext(whole, whole, fs, p);
      if left == [] {
        clean, rest := true, [];
        assert Split(data, p, begin) == [f];
        assert fs[1..] == more;
      } else {
        clean, rest := WalkRecord(whole, left, FragmentEnd(f, p), false, records, limit);
      }
    }
  }

  lemma EndIs(f: Fragment, p: nat, limit: nat)
    requires Place(p) + HEADER_SIZE + |f.payload| <= limit
    ensures FragmentEnd(f, p) <= limit
  {
  }

  lemma EndsBeyond(data: Bytes, p: nat, limit: nat)
    requires Place(p) >= limit
    ensures End(Split(data, p, false), p) > limit
  {
    var fs := Split(data, p, false);
    EndGrows(fs[1..], FragmentEnd(fs[0], p));
  }

  lemma SplitNonempty(data: Bytes, p: nat, begin: bool)
    ensures Split(data, p, begin) != []
  {
  }

  lemma PlaceGrows(p: nat)
    ensures Place(p) >= p
  {
  }

  lemma EndOfNothing(p: nat)
    ensures End([], p) == p && Fragments([], p) == []
  {
  }

  lemma FragmentsAt(records: seq<Bytes>, p: nat, limit: nat)
    requires JustBefore(p, limit) && records != []
    ensures Fragments(records, p) == Fragments(records, limit) != []
  {
    hide Split, Place;
    SameFragments(records[0], p, true, limit);
    SplitNonempty(records[0], p, true);
    SameEnd(Split(records[0], p, true), p, limit);
  }

  /** How many of the records begin before the boundary. */
  function Started(records: seq<Bytes>, p: nat, limit: nat): (k: nat)
    ensures k <= |records|
  {
    if records == [] || Place(p) >= limit then 0 else 1 + Started(records[1..], RecordEnd(records[0], p), limit)
  }

  /** What stands at the boundary: the rest of a record, or none, and then those that begin later. */
  lemma {:induction false} WalkRecords(whole: Bytes, records: seq<Bytes>, p: nat, limit: nat) returns (clean: bool, rest: Bytes)
    requires p <= limit <= |whole| && limit % BLOCK_SIZE == 0 && CutFrom(whole, whole, Fragments(records, p), p)
    ensures var later := records[Started(records, p, limit)..];
            && (clean ==> CutFrom(whole, whole, Fragments(later, limit), limit))
            && (!clean ==> CutFrom(whole, whole, Split(rest, limit, false) + Fragments(later, End(Split(rest, limit, false), limit)), limit))
    decreases |records|
  {
    hide CutFrom, Split, End, Place;
    clean, rest := true, [];
    if records == [] {
      WholeLength(whole, [], p);
      EndOfNothing(p);
    } else if Place(p) >= limit {
      FragmentsAt(records, p, limit);
      ShiftCut(whole, Fragments(records, p), p, limit);
      assert records[0..] == records;
    } else {
      var e := RecordEnd(records[0], p);
      clean, rest := WalkRecord(whole, records[0], p, true, records[1..], limit);
      var k := Started(records[1..], e, limit);
      assert records[1 + k..] == records[1..][k..];
      if clean {
        clean, rest := WalkRecords(whole, records[1..], e, limit);
      } else {
        assert Place(e) >= limit by { PlaceGrows(e); }
      }
    }
  }

  lemma SameRest(file: Bytes, whole: Bytes, fs: seq<Fragment>, limit: nat)
    requires limit <= |file| == |whole| && file[limit..] == whole[limit..] && CutFrom(whole, whole, fs, limit)
    ensures CutFrom(file, file, fs, limit)
  {
  }

  lemma WholeFile(records: seq<Bytes>)
    ensures CutFrom(FileOf(records), FileOf(records), Fragments(records, 0), 0)
  {
    CutWhole(records, |FileOf(records)|);
    assert FileOf(records)[..|FileOf(records)|] == FileOf(records);
  }

  /**
    Damage is local.  Whatever happened to the bytes of a log before a block boundary, every record that begins at or
    after the boundary comes back whole, and they are the last that do, if only no damaged bytes are taken for the end.
  */
  lemma DamageIsLocal(records: seq<Bytes>, file: Bytes, limit: nat)
    requires |file| == |FileOf(records)| && limit <= |file| && limit % BLOCK_SIZE == 0
    requires file[limit..] == FileOf(records)[limit..] && NoFalseEnd(file, 0, limit)
    ensures EndsWith(ReadAllFrom(file, 0).0, records[Started(records, 0, limit)..])
  {
    hide FileOf, Fragments, Split, ReadAllFrom, Onward, CutFrom, Started, EndsWith, NoFalseEnd;
    var whole, later := FileOf(records), records[Started(records, 0, limit)..];
    WholeFile(records);
    var clean, rest := WalkRecords(whole, records, 0, limit);
    var fs := if clean then Fragments(later, limit) else Split(rest, limit, false) + Fragments(later, End(Split(rest, limit, false), limit));
    SameRest(file, whole, fs, limit);
    forall f, held
      ensures EndsWith(Onward(file, limit, f, held), later)
    {
      if clean {
        RecordsOnward(file, later, limit, f, held);
      } else {
        TailOnward(file, rest, later, limit, f, held);
      }
    }
    ComesTo(file, 0, false, [], limit, later);
    OnwardIsAll(file, 0);
  }

  // ---------------------------------------------------------------- fragments of no known type

  /** A fragment of a type that the reader does not know is reported and passed over exactly if its type is not one of
      the two that the reader uses for itself: 5 ends the reading, and 6 is reported only inside a record. */
  lemma UnknownTypes(kind: nat, fragment: Bytes, fragmented: bool, scratch: Bytes)
    requires kind == 0 || kind > 4
    ensures Take(kind, fragment, fragmented, scratch) == GoOn(false, [], 1) <==> kind != EOF_TYPE && (kind == BAD_RECORD ==> fragmented)
  {
  }

  /** A header with a right checksum, for no payload, and the type that stands for the end of the file. */
  function FalseHeader(): (h: Bytes)
    ensures |h| == HEADER_SIZE
  {
    EncodeFixed32(Mask(Value([EOF_TYPE]))) + [0, 0] + [EOF_TYPE]
  }

  lemma FalseHeaderChecks()
    ensures Checked(FalseHeader(), []) && DecodeLength(FalseHeader()[4], FalseHeader()[5]) == 0 && FalseHeader()[6] == EOF_TYPE
  {
    var c := Value([EOF_TYPE]);
    MaskInverse(c);
    Fixed32RoundTrip(Mask(c));
    var h := FalseHeader();
    assert h[..4] == EncodeFixed32(Mask(c));
    assert DecodeFixed32(h) == DecodeFixed32(h[..4]);
    assert [h[6]] + [] == [EOF_TYPE];
  }

  /** A file that begins like that gives back nothing, and reports nothing, whatever follows. */
  lemma FalseEnd(file: Bytes)
    requires |file| >= BLOCK_SIZE && file[..HEADER_SIZE] == FalseHeader()
    ensures ReadAllFrom(file, 0) == ([], 0)
  {
    FalseHeaderChecks();
    var buffer := file[0..BLOCK_SIZE];
    hide FalseHeader, Checked;
    assert Place(0) == 0 && BlockEnd(0) == BLOCK_SIZE;
    assert buffer[..HEADER_SIZE] == FalseHeader();
    assert buffer[HEADER_SIZE..HEADER_SIZE + 0] == [];
    assert ParseHeader(buffer, false) == Outcome(EOF_TYPE, [], HEADER_SIZE, 0);
    assert Physical(file, 0) == Outcome(EOF_TYPE, [], HEADER_SIZE, 0);
  }

  /** Two records, a block each; damage in the first block hides the second. */
  lemma DamageSpreads() returns (records: seq<Bytes>, file: Bytes)
    ensures |file| == |FileOf(records)| && BLOCK_SIZE <= |file| && file[BLOCK_SIZE..] == FileOf(records)[BLOCK_SIZE..]
    ensures Started(records, 0, BLOCK_SIZE) == 1 < |records|
    ensures ReadAllFrom(file, 0) == ([], 0)
  {
    var first := Zeros(BLOCK_SIZE - HEADER_SIZE);
    records := [first, [9]];
    FirstFills(first, [9]);
    var whole := FileOf(records);
    hide FileOf, FalseHeader, Zeros;
    file := FalseHeader() + whole[HEADER_SIZE..];
    assert file[..HEADER_SIZE] == FalseHeader();
    assert file[BLOCK_SIZE..] == whole[BLOCK_SIZE..];
    FalseEnd(file);
  }

  lemma FirstFills(first: Bytes, second: Bytes)
    requires |first| == BLOCK_SIZE - HEADER_SIZE
    ensures RecordEnd(first, 0) == BLOCK_SIZE && Started([first, second], 0, BLOCK_SIZE) == 1
    ensures |FileOf([first, second])| >= BLOCK_SIZE
  {
    assert NextFragment(first, 0, true) == Fragment(Full, first);
    assert Split(first, 0, true) == [Fragment(Full, first)];
    assert End([Fragment(Full, first)], 0) == BLOCK_SIZE;
    var records := [first, second];
    assert records[1..] == [second];
    FileLength(records);
    SplitFits(first, 0, true);
    FragmentsFit([second], BLOCK_SIZE);
    LayoutConcat(Split(first, 0, true), Fragments([second], BLOCK_SIZE), 0);
    EndGrows(Fragments([second], BLOCK_SIZE), BLOCK_SIZE);
  }
}
