/** Choosing the files of a compaction (PickCompaction, CompactRange and SetupOtherInputs in db/version_set.cc). */
module Picking {
  import opened InternalKeys
  import opened Versions

  /** A compaction of `inputs0` at `level` with `inputs1` one level down; smallest and largest span inputs0. */
  datatype CompactionInputs = CompactionInputs(
    level: nat, inputs0: seq<File>, inputs1: seq<File>, grandparents: seq<File>,
    smallest: InternalKey, largest: InternalKey, version: Version)
  {
    ghost function Files(): set<File> {
      FileSet(inputs0) + FileSet(inputs1)
    }

    ghost function Entries(): set<Entry> {
      Contents(inputs0) + Contents(inputs1)
    }
  }

  /** [lo, hi] is the tightest range of user keys around the files. */
  ghost predicate Spans(fs: set<File>, lo: UserKey, hi: UserKey) {
    && (forall f | f in fs :: lo <= f.smallest.userKey && f.largest.userKey <= hi)
    && (exists f :: f in fs && f.smallest.userKey == lo)
    && (exists f :: f in fs && f.largest.userKey == hi)
  }

  predicate Between(f: File, g: File, k: UserKey) {
    f.smallest.userKey <= k <= g.largest.userKey
  }

  ghost predicate Covered(fs: set<File>, k: UserKey) {
    exists f :: f in fs && f.Covers(k)
  }

  /** The ranges of the files form one interval: every key between two of them is covered. */
  ghost predicate Gapless(fs: set<File>) {
    forall f, g, k | f in fs && g in fs && Between(f, g, k) :: Covered(fs, k)
  }

  /** What every compaction satisfies when it is set up. */
  ghost predicate PickedFrom(v: Version, c: CompactionInputs) {
    && c.level + 1 < NUM_LEVELS
    && c.version == v
    && c.inputs0 != []
    && DistinctNumbers(c.inputs0)
    && (forall f | f in c.inputs0 :: f in v[c.level])
    && Spans(FileSet(c.inputs0), c.smallest.userKey, c.largest.userKey)
    && c.inputs1 == Overlapping(v[c.level + 1], Some(c.smallest.userKey), Some(c.largest.userKey))
    && (c.level == 0 ==> forall f, g | f in c.inputs0 && g in v[0] && Overlap(f, g) :: g in c.inputs0)
  }

  // ---------------------------------------------------------------- GetRange

  /** The least of the smallest keys and the greatest of the largest. */
  ghost predicate Tight(inputs: seq<File>, smallest: InternalKey, largest: InternalKey) {
    && (forall f | f in inputs :: !Before(f.smallest, smallest) && !Before(largest, f.largest))
    && (exists f :: f in inputs && f.smallest == smallest)
    && (exists f :: f in inputs && f.largest == largest)
  }

  method GetRange(inputs: seq<File>) returns (smallest: InternalKey, largest: InternalKey)
    requires inputs != [] && ValidFiles(inputs)
    ensures Spans(FileSet(inputs), smallest.userKey, largest.userKey)
    ensures Tight(inputs, smallest, largest)
  {
    smallest, largest := inputs[0].smallest, inputs[0].largest;
    ghost var a, b := inputs[0], inputs[0];
    for i := 1 to |inputs|
      invariant a in inputs && b in inputs && a.smallest == smallest && b.largest == largest
      invariant forall j | 0 <= j < i :: !Before(inputs[j].smallest, smallest) && !Before(largest, inputs[j].largest)
    {
      var f := inputs[i];
      if Before(f.smallest, smallest) {
        smallest := f.smallest;
        a := f;
      }
      if Before(largest, f.largest) {
        largest := f.largest;
        b := f;
      }
    }
    assert a in FileSet(inputs) && b in FileSet(inputs);
  }

  ghost predicate ValidSpan(fs: set<File>) {
    forall f | f in fs :: f.Valid()
  }

  // ---------------------------------------------------------------- gaplessness

  lemma GaplessCovers(fs: set<File>, lo: UserKey, hi: UserKey, k: UserKey)
    requires Gapless(fs) && Spans(fs, lo, hi) && lo <= k <= hi
    ensures Covered(fs, k)
  {
    var f :| f in fs && f.smallest.userKey == lo;
    var g :| g in fs && g.largest.userKey == hi;
    assert Between(f, g, k);
  }

  lemma CoveredMore(a: set<File>, b: set<File>, k: UserKey)
    requires Covered(a, k) && a <= b
    ensures Covered(b, k)
  {
  }

  /** Adding files that all reach into the range of a gapless set leaves it gapless. */
  lemma GaplessGrow(a: set<File>, b: set<File>, lo: UserKey, hi: UserKey)
    requires Gapless(a) && Spans(a, lo, hi)
    requires forall f | f in b :: InRange(f, Some(lo), Some(hi))
    ensures Gapless(a + b)
  {
    hide Covered;
    forall f, g, k | f in a + b && g in a + b && Between(f, g, k) ensures Covered(a + b, k) {
      if lo <= k <= hi {
        GaplessCovers(a, lo, hi, k);
        CoveredMore(a, a + b, k);
      } else if k < lo {
        CoveredByOne(a + b, f, k);
      } else {
        CoveredByOne(a + b, g, k);
      }
    }
  }

  lemma CoveredByOne(fs: set<File>, f: File, k: UserKey)
    requires f in fs && f.Covers(k)
    ensures Covered(fs, k)
  {
  }

  /** The same for what the level 0 scan brings in. */
  lemma GaplessGrowLevelZero(fs: seq<File>, a: set<File>, inputs: seq<File>,
                             begin: UserKey, end: UserKey, lo: Option<UserKey>, hi: Option<UserKey>)
    requires Gapless(a) && Spans(a, begin, end)
    requires GrownFrom(fs, Some(begin), Some(end), lo, hi) && inputs == Overlapping(fs, lo, hi)
    requires Inside(inputs, lo, hi)
    ensures Gapless(a + FileSet(inputs))
  {
    hide Covered;
    var all := a + FileSet(inputs);
    forall f, g, k | f in all && g in all && Between(f, g, k) ensures Covered(all, k) {
      assert InBounds(k, lo, hi);
      if begin <= k <= end {
        GaplessCovers(a, begin, end, k);
        CoveredMore(a, all, k);
      } else {
        GrownCovers(fs, Some(begin), Some(end), lo, hi, k);
        var h :| h in fs && InRange(h, lo, hi) && h.Covers(k);
        CoveredByOne(all, h, k);
      }
    }
  }

  lemma GrownCovers(fs: seq<File>, begin: Option<UserKey>, end: Option<UserKey>, lo: Option<UserKey>, hi: Option<UserKey>, k: UserKey)
    requires GrownFrom(fs, begin, end, lo, hi) && InBounds(k, lo, hi) && !InBounds(k, begin, end)
    ensures exists f :: f in fs && InRange(f, lo, hi) && f.Covers(k)
  {
  }

  /** A range that meets no file of a gapless set lies on one side of all of it. */
  lemma GaplessHasNoHoles(fs: set<File>, lo: UserKey, hi: UserKey)
    requires Gapless(fs) && ValidSpan(fs) && lo <= hi
    requires forall f | f in fs :: !InRange(f, Some(lo), Some(hi))
    ensures (forall f | f in fs :: hi < f.smallest.userKey) || (forall f | f in fs :: f.largest.userKey < lo)
  {
    if f, g :| f in fs && g in fs && f.smallest.userKey <= hi && lo <= g.largest.userKey {
      assert Between(f, g, lo) by {
        SmallestToLargest(f);
        SmallestToLargest(g);
      }
      assert false;
    }
  }

  // ---------------------------------------------------------------- SetupOtherInputs

  lemma OverlappingDistinct(fs: seq<File>, lo: Option<UserKey>, hi: Option<UserKey>)
    requires DistinctNumbers(fs)
    ensures DistinctNumbers(Overlapping(fs, lo, hi))
  {
    if fs != [] {
      var r := Overlapping(fs[1..], lo, hi);
      assert forall i, j | 0 <= i < j < |fs[1..]| :: fs[1..][i].number != fs[1..][j].number;
      OverlappingDistinct(fs[1..], lo, hi);
      if InRange(fs[0], lo, hi) {
        var s := [fs[0]] + r;
        forall i, j | 0 <= i < j < |s| ensures s[i].number != s[j].number {
          assert r[j - 1] in r;
          var m :| 0 <= m < |fs[1..]| && fs[1..][m] == r[j - 1];
          assert fs[m + 1] == r[j - 1];
          if i > 0 {
            assert s[i] == r[i - 1];
          }
        }
      }
    }
  }

  /** Files closed under overlap inside [begin, end] or grown from it. */
  lemma ClosedInputs(fs: seq<File>, inputs: seq<File>, begin: Option<UserKey>, end: Option<UserKey>)
    requires OverlapClosed(fs, FileSet(inputs), begin, end)
    ensures forall f, g | f in inputs && g in fs && Overlap(f, g) :: g in inputs
    ensures forall f | f in fs && InRange(f, begin, end) :: f in inputs
  {
    assert forall f :: f in FileSet(inputs) <==> f in inputs;
  }

  /** The first row of a compaction: files of one level, at level 0 closed under overlap. */
  ghost predicate FirstRow(v: Version, level: nat, inputs0: seq<File>)
    requires level < NUM_LEVELS
  {
    && inputs0 != []
    && DistinctNumbers(inputs0)
    && (forall f | f in inputs0 :: f in v[level])
    && (level == 0 ==> forall f, g | f in inputs0 && g in v[0] && Overlap(f, g) :: g in inputs0)
  }

  lemma MakePick(v: Version, c: CompactionInputs)
    requires c.level + 1 < NUM_LEVELS && c.version == v && FirstRow(v, c.level, c.inputs0)
    requires Spans(FileSet(c.inputs0), c.smallest.userKey, c.largest.userKey)
    requires c.inputs1 == Overlapping(v[c.level + 1], Some(c.smallest.userKey), Some(c.largest.userKey))
    ensures PickedFrom(v, c)
  {
  }

  lemma PickedRows(v: Version, c: CompactionInputs)
    requires PickedFrom(v, c) && ValidFiles(v[c.level]) && ValidFiles(v[c.level + 1])
    ensures ValidFiles(c.inputs0) && ValidFiles(c.inputs1) && ValidFiles(c.inputs0 + c.inputs1) && c.inputs0 + c.inputs1 != []
    ensures FileSet(c.inputs0 + c.inputs1) == c.Files()
    ensures Spans(FileSet(c.inputs0), c.smallest.userKey, c.largest.userKey)
  {
    hide FileMetaData.Valid;
    assert forall f | f in c.inputs0 + c.inputs1 :: f in c.inputs0 || f in c.inputs1;
  }

  /** What GetOverlappingInputs promises, named. */
  ghost predicate Scanned(fs: seq<File>, level: nat, begin: Option<UserKey>, end: Option<UserKey>,
                          inputs: seq<File>, lo: Option<UserKey>, hi: Option<UserKey>) {
    && inputs == Overlapping(fs, lo, hi)
    && (level > 0 ==> lo == begin && hi == end)
    && GrownFrom(fs, begin, end, lo, hi)
    && (level == 0 ==> Inside(inputs, lo, hi))
    && (level == 0 ==> OverlapClosed(fs, FileSet(inputs), begin, end))
  }

  /** The files of `fs` that are in X, in order. */
  ghost function Those(fs: seq<File>, X: set<File>): seq<File> {
    if fs == [] then [] else (if fs[0] in X then [fs[0]] else []) + Those(fs[1..], X)
  }

  /** All the files of a level that meet the range; at level 0 with all that these meet, directly or through others. */
  ghost predicate AllMeeting(fs: seq<File>, level: nat, begin: Option<UserKey>, end: Option<UserKey>, inputs: seq<File>) {
    if level > 0 then inputs == Overlapping(fs, begin, end)
    else
      && inputs == Those(fs, FileSet(inputs))
      && OverlapClosed(fs, FileSet(inputs), begin, end)
      && forall X | OverlapClosed(fs, X, begin, end) :: FileSet(inputs) <= X
  }

  lemma {:induction false} ThoseOverlapping(fs: seq<File>, lo: Option<UserKey>, hi: Option<UserKey>, X: set<File>)
    requires forall f | f in fs :: f in X <==> InRange(f, lo, hi)
    ensures Overlapping(fs, lo, hi) == Those(fs, X)
  {
    if fs != [] {
      assert fs[0] in fs;
      ThoseOverlapping(fs[1..], lo, hi, X);
    }
  }

  lemma ScanMeetsAll(fs: seq<File>, level: nat, begin: Option<UserKey>, end: Option<UserKey>,
                     inputs: seq<File>, lo: Option<UserKey>, hi: Option<UserKey>)
    requires Scanned(fs, level, begin, end, inputs, lo, hi)
    ensures AllMeeting(fs, level, begin, end, inputs)
  {
    if level == 0 {
      ThoseOverlapping(fs, lo, hi, FileSet(inputs));
      forall X | OverlapClosed(fs, X, begin, end) ensures FileSet(inputs) <= X {
        hide OverlapClosed;
        assert forall f | f in fs && InRange(f, lo, hi) :: f in X;
      }
    }
  }

  lemma OneAnswer(fs: seq<File>, level: nat, begin: Option<UserKey>, end: Option<UserKey>, a: seq<File>, b: seq<File>)
    requires AllMeeting(fs, level, begin, end, a) && AllMeeting(fs, level, begin, end, b)
    ensures a == b
  {
    hide OverlapClosed, Overlapping, Those;
    if level == 0 {
      assert FileSet(a) == FileSet(b);
    }
  }

  /** Files of the next level but one that meet the two rows. */
  ghost predicate WithGrandparents(v: Version, c: CompactionInputs)
    requires c.level < NUM_LEVELS
  {
    if c.level + 2 < NUM_LEVELS then
      exists lo, hi :: Spans(c.Files(), lo, hi) && c.grandparents == Overlapping(v[c.level + 2], Some(lo), Some(hi))
    else c.grandparents == []
  }

  /** `e` takes more files of the level than `c`, namely all that meet the range of both its rows, and no more below. */
  ghost predicate Wider(v: Version, limit: nat, c: CompactionInputs, e: CompactionInputs) {
    && e.level == c.level < NUM_LEVELS && c.inputs1 != [] && e.inputs1 == c.inputs1 && |e.inputs0| > |c.inputs0|
    && TotalFileSize(e.inputs1) + TotalFileSize(e.inputs0) < limit
    && exists lo, hi :: Spans(c.Files(), lo, hi) && AllMeeting(v[c.level], c.level, Some(lo), Some(hi), e.inputs0)
  }

  /** The first row asked for is widened if and only if it can be, and only so. */
  ghost predicate SetUp(v: Version, limit: nat, inputs0: seq<File>, c: CompactionInputs) {
    && PickedFrom(v, c)
    && Tight(c.inputs0, c.smallest, c.largest)
    && WithGrandparents(v, c)
    && exists narrow ::
         && PickedFrom(v, narrow) && narrow.level == c.level && narrow.inputs0 == inputs0
         && (c.inputs0 == inputs0 || Wider(v, limit, narrow, c))
         && (forall e | PickedFrom(v, e) && Wider(v, limit, narrow, e) :: c.inputs0 == e.inputs0)
  }

  method SetupOtherInputs(v: Version, level: nat, inputs0: seq<File>, expandedLimit: nat) returns (c: CompactionInputs)
    requires ValidVersion(v) && level + 1 < NUM_LEVELS
    requires FirstRow(v, level, inputs0)
    ensures SetUp(v, expandedLimit, inputs0, c) && c.level == level
    ensures FileSet(inputs0) <= FileSet(c.inputs0)
    ensures Gapless(FileSet(inputs0)) ==> Gapless(c.Files())
  {
    hide *;
    var narrow, start, end := SecondRow(v, level, inputs0);
    var allStart, allLimit;
    c, allStart, allLimit := Widen(v, narrow, start, end, expandedLimit);
    ghost var widened := c;
    assert level + 2 < NUM_LEVELS ==> ValidFiles(v[level + 2]) by { DeeperFiles(v, level); }
    if level + 2 < NUM_LEVELS {
      var grandparents, lo, hi := GetOverlappingInputs(v, level + 2, Some(allStart.userKey), Some(allLimit.userKey));
      c := c.(grandparents := grandparents);
    } else {
      c := c.(grandparents := []);
    }
    AllSetUp(v, expandedLimit, narrow, widened, c, allStart.userKey, allLimit.userKey);
  }

  lemma DeeperFiles(v: Version, level: nat)
    requires ValidVersion(v)
    ensures level + 2 < NUM_LEVELS ==> ValidFiles(v[level + 2])
  {
  }

  /** The choice with its grandparents. */
  lemma AllSetUp(v: Version, limit: nat, narrow: CompactionInputs, w: CompactionInputs, c: CompactionInputs, lo: UserKey, hi: UserKey)
    requires PickedFrom(v, narrow) && PickedFrom(v, w) && w.level == narrow.level && Tight(w.inputs0, w.smallest, w.largest)
    requires Widened(v, limit, narrow, w) && Spans(w.Files(), lo, hi)
    requires c == w.(grandparents := if w.level + 2 < NUM_LEVELS then Overlapping(v[w.level + 2], Some(lo), Some(hi)) else [])
    ensures SetUp(v, limit, narrow.inputs0, c) && c.Files() == w.Files()
  {
    hide Spans, Tight, Overlapping, AllMeeting, Wider;
    SamePick(v, limit, narrow, w, c);
  }

  lemma SamePick(v: Version, limit: nat, narrow: CompactionInputs, w: CompactionInputs, c: CompactionInputs)
    requires c == w.(grandparents := c.grandparents)
    ensures PickedFrom(v, w) ==> PickedFrom(v, c)
    ensures Wider(v, limit, narrow, w) ==> Wider(v, limit, narrow, c)
  {
  }

  /** What Widen makes of a choice. */
  ghost predicate Widened(v: Version, limit: nat, narrow: CompactionInputs, c: CompactionInputs) {
    && (c == narrow || Wider(v, limit, narrow, c))
    && (forall e | PickedFrom(v, e) && Wider(v, limit, narrow, e) :: c.inputs0 == e.inputs0)
  }

  /** The first row takes more files of its level if that brings in no more of the next. */
  method Widen(v: Version, narrow: CompactionInputs, start: InternalKey, end: InternalKey, limit: nat)
    returns (c: CompactionInputs, allStart: InternalKey, allLimit: InternalKey)
    requires ValidVersion(v) && PickedFrom(v, narrow) && Tight(narrow.inputs0, narrow.smallest, narrow.largest)
    requires Spans(narrow.Files(), start.userKey, end.userKey)
    ensures PickedFrom(v, c) && c.level == narrow.level && Tight(c.inputs0, c.smallest, c.largest)
    ensures Spans(c.Files(), allStart.userKey, allLimit.userKey)
    ensures Widened(v, limit, narrow, c)
    ensures FileSet(narrow.inputs0) <= FileSet(c.inputs0)
    ensures Gapless(narrow.Files()) ==> Gapless(c.Files())
  {
    hide *;
    c, allStart, allLimit := narrow, start, end;
    PickedLevelFiles(v, c);
    NotWider(v, limit, c);
    if c.inputs1 != [] {
      var expanded0, lo, hi := GetOverlappingInputs(v, c.level, Some(start.userKey), Some(end.userKey));
      assert Scanned(v[c.level], c.level, Some(start.userKey), Some(end.userKey), expanded0, lo, hi) by {
        ScannedIs(v[c.level], c.level, Some(start.userKey), Some(end.userKey), expanded0, lo, hi);
      }
      ScanMeetsAll(v[c.level], c.level, Some(start.userKey), Some(end.userKey), expanded0, lo, hi);
      WiderIs(v, limit, narrow, expanded0, start.userKey, end.userKey);
      if |expanded0| > |c.inputs0| && TotalFileSize(c.inputs1) + TotalFileSize(expanded0) < limit {
        var e, newStart, newLimit := Expand(v, c, start, end, expanded0, lo, hi);
        OneSecondRow(v, c, e);
        if |e.inputs1| == |c.inputs1| {
          c, allStart, allLimit := e, newStart, newLimit;
          WiderNow(v, limit, narrow, c, start.userKey, end.userKey);
        } else {
          NoneWider(v, limit, narrow, e);
        }
      }
    }
  }

  lemma PickedLevelFiles(v: Version, c: CompactionInputs)
    requires ValidVersion(v) && PickedFrom(v, c)
    ensures c.level < NUM_LEVELS && ValidFiles(v[c.level])
  {
  }

  lemma NotWider(v: Version, limit: nat, c: CompactionInputs)
    ensures c.inputs1 == [] ==> Widened(v, limit, c, c)
    ensures forall e | Wider(v, limit, c, e) :: |e.inputs0| > |c.inputs0|
  {
    hide PickedFrom, AllMeeting, Spans;
  }

  lemma ScannedIs(fs: seq<File>, level: nat, begin: Option<UserKey>, end: Option<UserKey>,
                  inputs: seq<File>, lo: Option<UserKey>, hi: Option<UserKey>)
    requires inputs == Overlapping(fs, lo, hi) && (level > 0 ==> lo == begin && hi == end)
    requires GrownFrom(fs, begin, end, lo, hi)
    requires level == 0 ==> Inside(inputs, lo, hi) && OverlapClosed(fs, FileSet(inputs), begin, end)
    ensures Scanned(fs, level, begin, end, inputs, lo, hi)
  {
    hide GrownFrom, Inside, OverlapClosed, Overlapping;
  }

  /** A wider choice has just one first row to take, and may take it only within the limit. */
  lemma WiderIs(v: Version, limit: nat, c: CompactionInputs, expanded0: seq<File>, lo: UserKey, hi: UserKey)
    requires c.level < NUM_LEVELS && Spans(c.Files(), lo, hi) && AllMeeting(v[c.level], c.level, Some(lo), Some(hi), expanded0)
    ensures forall e | Wider(v, limit, c, e) :: e.inputs0 == expanded0
    ensures !(|expanded0| > |c.inputs0| && TotalFileSize(c.inputs1) + TotalFileSize(expanded0) < limit) ==> Widened(v, limit, c, c)
  {
    hide PickedFrom, AllMeeting;
    forall e | Wider(v, limit, c, e) ensures e.inputs0 == expanded0 {
      var lo', hi' :| Spans(c.Files(), lo', hi') && AllMeeting(v[c.level], c.level, Some(lo'), Some(hi'), e.inputs0);
      OneSpan(c.Files(), lo, hi, lo', hi');
      OneAnswer(v[c.level], c.level, Some(lo), Some(hi), expanded0, e.inputs0);
    }
  }

  lemma WiderNow(v: Version, limit: nat, c: CompactionInputs, e: CompactionInputs, lo: UserKey, hi: UserKey)
    requires e.level == c.level < NUM_LEVELS && c.inputs1 != [] && e.inputs1 == c.inputs1 && |e.inputs0| > |c.inputs0|
    requires TotalFileSize(e.inputs1) + TotalFileSize(e.inputs0) < limit
    requires Spans(c.Files(), lo, hi) && AllMeeting(v[c.level], c.level, Some(lo), Some(hi), e.inputs0)
    requires forall d | Wider(v, limit, c, d) :: d.inputs0 == e.inputs0
    ensures Widened(v, limit, c, e)
  {
    hide PickedFrom, AllMeeting, Spans;
  }

  lemma NoneWider(v: Version, limit: nat, c: CompactionInputs, e: CompactionInputs)
    requires PickedFrom(v, e) && e.level == c.level && |e.inputs1| != |c.inputs1|
    requires forall d | Wider(v, limit, c, d) :: d.inputs0 == e.inputs0
    ensures Widened(v, limit, c, c)
  {
    hide PickedFrom, AllMeeting, Spans;
    if d :| PickedFrom(v, d) && Wider(v, limit, c, d) {
      SameRows(v, d, e);
      assert false;
    }
  }

  lemma SameRows(v: Version, d: CompactionInputs, e: CompactionInputs)
    requires PickedFrom(v, d) && PickedFrom(v, e) && d.level == e.level && d.inputs0 == e.inputs0
    ensures d.inputs1 == e.inputs1
  {
    hide Overlapping, DistinctNumbers;
    OneSpan(FileSet(d.inputs0), d.smallest.userKey, d.largest.userKey, e.smallest.userKey, e.largest.userKey);
  }

  lemma OneSpan(fs: set<File>, lo: UserKey, hi: UserKey, lo': UserKey, hi': UserKey)
    requires Spans(fs, lo, hi) && Spans(fs, lo', hi')
    ensures lo == lo' && hi == hi'
  {
  }

  /** The second row of a wider choice has more files or the same. */
  lemma OneSecondRow(v: Version, c: CompactionInputs, e: CompactionInputs)
    requires PickedFrom(v, c) && PickedFrom(v, e) && e.level == c.level && FileSet(c.inputs0) <= FileSet(e.inputs0)
    ensures |c.inputs1| == |e.inputs1| ==> c.inputs1 == e.inputs1
  {
    SpanCovers(FileSet(c.inputs0), FileSet(e.inputs0), c.smallest.userKey, c.largest.userKey, e.smallest.userKey, e.largest.userKey);
    NarrowerFilter(v[c.level + 1], c.smallest.userKey, c.largest.userKey, e.smallest.userKey, e.largest.userKey);
  }

  lemma {:induction false} NarrowerFilter(fs: seq<File>, lo: UserKey, hi: UserKey, lo': UserKey, hi': UserKey)
    requires lo' <= lo && hi <= hi'
    ensures var a, b := Overlapping(fs, Some(lo), Some(hi)), Overlapping(fs, Some(lo'), Some(hi'));
            |a| <= |b| && (|a| == |b| ==> a == b)
  {
    if fs != [] {
      NarrowerFilter(fs[1..], lo, hi, lo', hi');
    }
  }

  /** The files one level down that meet the first row, and the range of both rows. */
  method SecondRow(v: Version, level: nat, inputs0: seq<File>)
    returns (c: CompactionInputs, allStart: InternalKey, allLimit: InternalKey)
    requires ValidVersion(v) && level + 1 < NUM_LEVELS && FirstRow(v, level, inputs0)
    ensures PickedFrom(v, c) && c.level == level && c.inputs0 == inputs0 && Tight(inputs0, c.smallest, c.largest)
    ensures Spans(c.Files(), allStart.userKey, allLimit.userKey)
    ensures Gapless(FileSet(inputs0)) ==> Gapless(c.Files())
  {
    hide PickedFrom, Gapless, GrownFrom, OverlapClosed, Newer, Unique, SortedLevel, NumberedByAge, FileMetaData.Valid;
    assert ValidFiles(v[level]) && ValidFiles(v[level + 1]);
    var smallest, largest := GetRange(inputs0);
    var inputs1, lo, hi := GetOverlappingInputs(v, level + 1, Some(smallest.userKey), Some(largest.userKey));
    c := CompactionInputs(level, inputs0, inputs1, [], smallest, largest, v);
    MakePick(v, c);
    PickedRows(v, c);
    hide Spans;
    if Gapless(FileSet(inputs0)) {
      GaplessGrow(FileSet(inputs0), FileSet(inputs1), smallest.userKey, largest.userKey);
    }
    allStart, allLimit := GetRange(inputs0 + inputs1);
  }

  /** The expanded choice: all files of the level that meet the whole range, and what they meet one level down. */
  method Expand(v: Version, c: CompactionInputs, allStart: InternalKey, allLimit: InternalKey,
                expanded0: seq<File>, ghost lo: Option<UserKey>, ghost hi: Option<UserKey>)
    returns (e: CompactionInputs, newStart: InternalKey, newLimit: InternalKey)
    requires PickedFrom(v, c) && ValidVersion(v)
    requires Spans(c.Files(), allStart.userKey, allLimit.userKey)
    requires Scanned(v[c.level], c.level, Some(allStart.userKey), Some(allLimit.userKey), expanded0, lo, hi)
    ensures PickedFrom(v, e) && e.level == c.level && e.inputs0 == expanded0 && Tight(e.inputs0, e.smallest, e.largest)
    ensures Spans(e.Files(), newStart.userKey, newLimit.userKey)
    ensures FileSet(c.inputs0) <= FileSet(e.inputs0)
    ensures Gapless(c.Files()) ==> Gapless(e.Files())
  {
    hide Tight, Gapless, Newer, Unique, SortedLevel, NumberedByAge, FileMetaData.Valid;
    assert ValidFiles(v[c.level]);
    ExpandedFirstRow(v, c, allStart.userKey, allLimit.userKey, expanded0, lo, hi);
    hide PickedFrom, Scanned, GrownFrom, OverlapClosed;
    e, newStart, newLimit := SecondRow(v, c.level, expanded0);
    if Gapless(c.Files()) {
      ExpandedIsGapless(v, c, e, allStart.userKey, allLimit.userKey, lo, hi);
    }
  }

  lemma ExpandedFirstRow(v: Version, c: CompactionInputs, start: UserKey, limit: UserKey,
                         expanded0: seq<File>, lo: Option<UserKey>, hi: Option<UserKey>)
    requires PickedFrom(v, c) && ValidFiles(v[c.level]) && DistinctNumbers(v[c.level])
    requires Spans(c.Files(), start, limit)
    requires Scanned(v[c.level], c.level, Some(start), Some(limit), expanded0, lo, hi)
    ensures FirstRow(v, c.level, expanded0)
    ensures FileSet(c.inputs0) <= FileSet(expanded0)
  {
    hide FileMetaData.Valid;
    assert GrownFrom(v[c.level], Some(start), Some(limit), lo, hi);
    GrownBounds(v[c.level], Some(start), Some(limit), lo, hi);
    hide GrownFrom;
    InputsAreKept(v, c, start, limit, lo, hi);
    OverlappingDistinct(v[c.level], lo, hi);
    assert c.inputs0[0] in c.inputs0;
    assert c.inputs0[0] in expanded0;
    if c.level == 0 {
      ClosedInputs(v[0], expanded0, Some(start), Some(limit));
    }
  }

  lemma GrownBounds(fs: seq<File>, begin: Option<UserKey>, end: Option<UserKey>, lo: Option<UserKey>, hi: Option<UserKey>)
    requires GrownFrom(fs, begin, end, lo, hi)
    ensures forall f | InRange(f, begin, end) :: InRange(f, lo, hi)
  {
  }

  lemma InputsAreKept(v: Version, c: CompactionInputs, start: UserKey, limit: UserKey, lo: Option<UserKey>, hi: Option<UserKey>)
    requires PickedFrom(v, c) && ValidFiles(v[c.level]) && Spans(c.Files(), start, limit)
    requires forall f | InRange(f, Some(start), Some(limit)) :: InRange(f, lo, hi)
    ensures forall f | f in c.inputs0 :: f in Overlapping(v[c.level], lo, hi)
  {
    forall f | f in c.inputs0 ensures f in Overlapping(v[c.level], lo, hi) {
      assert f in c.Files();
      SmallestToLargest(f);
      assert InRange(f, Some(start), Some(limit));
    }
  }

  lemma ExpandedIsGapless(v: Version, c: CompactionInputs, e: CompactionInputs,
                          start: UserKey, limit: UserKey, lo: Option<UserKey>, hi: Option<UserKey>)
    requires PickedFrom(v, c) && PickedFrom(v, e) && e.level == c.level && Gapless(c.Files())
    requires Spans(c.Files(), start, limit)
    requires Scanned(v[c.level], c.level, Some(start), Some(limit), e.inputs0, lo, hi)
    requires FileSet(c.inputs0) <= FileSet(e.inputs0)
    ensures Gapless(e.Files())
  {
    hide GrownFrom, Gapless, DistinctNumbers, FileMetaData.Valid, OverlapClosed;
    var a, b := c.Files(), FileSet(e.inputs0);
    if c.level == 0 {
      GaplessGrowLevelZero(v[0], a, e.inputs0, start, limit, lo, hi);
    } else {
      GaplessGrow(a, b, start, limit);
    }
    // the second row: everything one level down that meets the new range
    SpansSubset(c, e);
    assert e.inputs0[0] in b;
    var lo2, hi2 := SpanOf(a + b);
    SpanCovers(b, a + b, e.smallest.userKey, e.largest.userKey, lo2, hi2);
    var d := FileSet(e.inputs1);
    assert forall f | f in d :: InRange(f, Some(lo2), Some(hi2));
    GaplessGrow(a + b, d, lo2, hi2);
    assert a + b + d == e.Files();
  }

  /** The old second row is part of the new one. */
  lemma SpansSubset(c: CompactionInputs, e: CompactionInputs)
    requires PickedFrom(c.version, c) && PickedFrom(c.version, e) && e.level == c.level
    requires FileSet(c.inputs0) <= FileSet(e.inputs0)
    ensures FileSet(c.inputs1) <= FileSet(e.inputs1)
  {
    SpanCovers(FileSet(c.inputs0), FileSet(e.inputs0), c.smallest.userKey, c.largest.userKey, e.smallest.userKey, e.largest.userKey);
  }

  lemma SpanCovers(a: set<File>, b: set<File>, lo: UserKey, hi: UserKey, lo': UserKey, hi': UserKey)
    requires a <= b && Spans(a, lo, hi) && Spans(b, lo', hi')
    ensures lo' <= lo && hi <= hi'
  {
  }

  lemma {:induction false} SpanOf(fs: set<File>) returns (lo: UserKey, hi: UserKey)
    requires fs != {}
    ensures Spans(fs, lo, hi)
    decreases |fs|
  {
    var f :| f in fs;
    lo, hi := f.smallest.userKey, f.largest.userKey;
    if fs - {f} != {} {
      var lo', hi' := SpanOf(fs - {f});
      lo := if lo' < lo then lo' else lo;
      hi := if hi' > hi then hi' else hi;
      assert forall g | g in fs :: g == f || g in fs - {f};
    }
  }

  // ---------------------------------------------------------------- PickCompaction, CompactRange

  /** The first row that a file stands for: at level 0 with everything it overlaps, directly or through others. */
  ghost predicate RowOf(v: Version, level: nat, f: File, inputs0: seq<File>)
    requires level < NUM_LEVELS
  {
    if level > 0 then inputs0 == [f]
    else AllMeeting(v[0], 0, Some(f.smallest.userKey), Some(f.largest.userKey), inputs0)
  }

  method PickFrom(v: Version, level: nat, f: File, expandedLimit: nat) returns (c: CompactionInputs, ghost row: seq<File>)
    requires ValidVersion(v) && level + 1 < NUM_LEVELS && f in v[level]
    ensures RowOf(v, level, f, row) && SetUp(v, expandedLimit, row, c) && c.level == level
    ensures PickedFrom(v, c) && f in c.inputs0
    ensures Gapless(c.Files())
  {
    hide Newer, Unique, SortedLevel, NumberedByAge, FileMetaData.Valid, SetUp, AllMeeting;
    assert ValidFiles(v[level]) && ValidFiles([f]);
    OneFileGapless(f);
    var inputs0 := [f];
    if level == 0 {
      var smallest, largest := GetRange(inputs0);
      ghost var lo, hi;
      inputs0, lo, hi := GetOverlappingInputs(v, 0, Some(smallest.userKey), Some(largest.userKey));
      OneFileSpan(f, smallest.userKey, largest.userKey);
      ScanMeetsAll(v[0], 0, Some(smallest.userKey), Some(largest.userKey), inputs0, lo, hi);
      ClosedInputs(v[0], inputs0, Some(smallest.userKey), Some(largest.userKey));
      GaplessGrowLevelZero(v[0], {f}, inputs0, smallest.userKey, largest.userKey, lo, hi);
      OverlappingDistinct(v[0], lo, hi);
      assert {f} + FileSet(inputs0) == FileSet(inputs0);
    } else {
      assert FileSet(inputs0) == {f};
    }
    assert FirstRow(v, level, inputs0) && f in FileSet(inputs0);
    hide GrownFrom, OverlapClosed, Gapless, PickedFrom, Overlapping, FirstRow;
    row := inputs0;
    c := SetupOtherInputs(v, level, inputs0, expandedLimit);
    SetUpPicks(v, expandedLimit, row, c);
  }

  lemma SetUpPicks(v: Version, limit: nat, row: seq<File>, c: CompactionInputs)
    requires SetUp(v, limit, row, c)
    ensures PickedFrom(v, c) && Tight(c.inputs0, c.smallest, c.largest) && c.level < NUM_LEVELS && WithGrandparents(v, c)
  {
    hide Tight, Wider, Spans;
  }

  lemma OneFileGapless(f: File)
    ensures Gapless({f})
  {
    forall k | Between(f, f, k) ensures Covered({f}, k) {
      CoveredByOne({f}, f, k);
    }
  }

  lemma OneFileSpan(f: File, lo: UserKey, hi: UserKey)
    requires f.Valid() && Spans(FileSet([f]), lo, hi)
    ensures InRange(f, Some(lo), Some(hi)) && Spans({f}, lo, hi)
    ensures lo == f.smallest.userKey && hi == f.largest.userKey
  {
    SmallestToLargest(f);
    assert FileSet([f]) == {f};
  }

  /** The first file that ends after the pointer; the first of all if there is no pointer, or no such file. */
  ghost predicate NextAfter(fs: seq<File>, pointer: Option<InternalKey>, f: File) {
    exists i ::
      && 0 <= i < |fs| && fs[i] == f
      && (i > 0 ==> EndsAfter(fs[i], pointer))
      && (if EndsAfter(fs[i], pointer) then forall j | 0 <= j < i :: !EndsAfter(fs[j], pointer)
          else forall j | 0 <= j < |fs| :: !EndsAfter(fs[j], pointer))
  }

  predicate EndsAfter(f: File, pointer: Option<InternalKey>) {
    pointer.None? || Before(pointer.value, f.largest)
  }

  method NextInTurn(fs: seq<File>, pointer: Option<InternalKey>) returns (f: File)
    requires fs != []
    ensures f in fs && NextAfter(fs, pointer, f)
  {
    hide Before;
    for i := 0 to |fs|
      invariant forall j | 0 <= j < i :: !EndsAfter(fs[j], pointer)
    {
      if pointer.None? || Before(pointer.value, fs[i].largest) {
        return fs[i];
      }
    }
    f := fs[0];
  }

  /** Where a compaction starts: a file of the level whose score asks for one, in turn, or else the file sought too often. */
  ghost predicate Starts(v: Version, sizeLevel: Option<nat>, pointer: Option<InternalKey>, seek: Option<(nat, File)>, level: nat, f: File)
    requires level < NUM_LEVELS
  {
    if sizeLevel.Some? then level == sizeLevel.value && NextAfter(v[level], pointer, f)
    else seek == Some((level, f))
  }

  /**
    PickCompaction.  `sizeLevel` is the level whose score calls for a compaction, `pointer` its compact
    pointer; `seek` is the file that has cost too many seeks, with its level.
  */
  method PickCompaction(v: Version, sizeLevel: Option<nat>, pointer: Option<InternalKey>,
                        seek: Option<(nat, File)>, expandedLimit: nat)
    returns (c: Option<CompactionInputs>, ghost first: Option<File>, ghost row: seq<File>)
    requires ValidVersion(v)
    requires sizeLevel.Some? ==> sizeLevel.value + 1 < NUM_LEVELS && v[sizeLevel.value] != []
    requires seek.Some? ==> seek.value.0 + 1 < NUM_LEVELS && seek.value.1 in v[seek.value.0]
    ensures (c.None? <==> sizeLevel.None? && seek.None?) && first.Some? == c.Some?
    ensures c.Some? ==> c.value.level < NUM_LEVELS && Starts(v, sizeLevel, pointer, seek, c.value.level, first.value)
    ensures c.Some? ==> RowOf(v, c.value.level, first.value, row) && SetUp(v, expandedLimit, row, c.value)
    ensures c.Some? ==> PickedFrom(v, c.value) && first.value in c.value.inputs0 && Gapless(c.value.Files())
  {
    hide Gapless, PickedFrom, ValidVersion, NextAfter, RowOf, SetUp;
    var picked, f;
    if sizeLevel.Some? {
      f := NextInTurn(v[sizeLevel.value], pointer);
      picked, row := PickFrom(v, sizeLevel.value, f, expandedLimit);
    } else if seek.Some? {
      f := seek.value.1;
      picked, row := PickFrom(v, seek.value.0, f, expandedLimit);
    } else {
      return None, None, [];
    }
    c, first := Some(picked), Some(f);
  }

  /** The beginning of the files up to the one with which they have `limit` bytes, or all of them. */
  ghost predicate CutBySize(fs: seq<File>, limit: nat, kept: seq<File>) {
    && kept <= fs && kept != []
    && (|kept| > 1 ==> TotalFileSize(kept[..|kept| - 1]) < limit)
    && (kept == fs || TotalFileSize(kept) >= limit)
  }

  method TakeBySize(fs: seq<File>, limit: nat) returns (kept: seq<File>)
    requires fs != []
    ensures CutBySize(fs, limit, kept)
  {
    var total := 0;
    for i := 0 to |fs|
      invariant total == TotalFileSize(fs[..i])
      invariant i > 0 ==> total < limit
    {
      assert fs[..i + 1] == fs[..i] + [fs[i]];
      TotalAppend(fs[..i], fs[i]);
      total := total + fs[i].fileSize;
      if total >= limit {
        assert fs[..i + 1][..i] == fs[..i];
        return fs[..i + 1];
      }
    }
    assert fs[..|fs|] == fs[..|fs| - 1] + [fs[|fs| - 1]];
    TotalAppend(fs[..|fs| - 1], fs[|fs| - 1]);
    assert fs[..|fs|] == fs;
    kept := fs;
  }

  lemma {:induction false} TotalAppend(fs: seq<File>, f: File)
    ensures TotalFileSize(fs + [f]) == TotalFileSize(fs) + f.fileSize
  {
    if fs == [] {
      assert fs + [f] == [f];
    } else {
      assert (fs + [f])[1..] == fs[1..] + [f];
      TotalAppend(fs[1..], f);
    }
  }

  /** CompactRange: below level 0 at most `limit` bytes of the first row at a time. */
  method CompactRange(v: Version, level: nat, begin: Option<UserKey>, end: Option<UserKey>, limit: nat, expandedLimit: nat)
    returns (c: Option<CompactionInputs>, ghost meeting: seq<File>, ghost row: seq<File>)
    requires ValidVersion(v) && level + 1 < NUM_LEVELS
    ensures c.None? <==> forall f | f in v[level] :: !InRange(f, begin, end)
    ensures AllMeeting(v[level], level, begin, end, meeting)
    ensures c.Some? ==> (if level == 0 then row == meeting else CutBySize(meeting, limit, row))
    ensures c.Some? ==> SetUp(v, expandedLimit, row, c.value) && PickedFrom(v, c.value) && c.value.level == level
  {
    hide GrownFrom, Gapless, Newer, Unique, SortedLevel, NumberedByAge, FileMetaData.Valid, PickedFrom, SetUp, AllMeeting;
    assert ValidFiles(v[level]);
    c, row := None, [];
    var inputs, lo, hi := GetOverlappingInputs(v, level, begin, end);
    GrownBounds(v[level], begin, end, lo, hi);
    ScanMeetsAll(v[level], level, begin, end, inputs, lo, hi);
    meeting := inputs;
    if inputs == [] {
      assert forall f | f in v[level] :: f !in inputs;
      return;
    }
    assert inputs[0] in inputs;
    OverlappingDistinct(v[level], lo, hi);
    if level > 0 {
      inputs := TakeBySize(inputs, limit);
      DistinctPrefix(meeting, |inputs|);
      assert inputs[0] in inputs && inputs == meeting[..|inputs|];
      assert forall f | f in inputs :: f in meeting;
    } else {
      ClosedInputs(v[0], inputs, begin, end);
      LevelZeroNotEmpty(v[0], begin, end, lo, hi);
    }
    assert FirstRow(v, level, inputs);
    hide FirstRow, OverlapClosed, Overlapping, CutBySize;
    row := inputs;
    var picked := SetupOtherInputs(v, level, inputs, expandedLimit);
    SetUpPicks(v, expandedLimit, row, picked);
    c := Some(picked);
  }

  lemma DistinctPrefix(fs: seq<File>, n: nat)
    requires DistinctNumbers(fs) && n <= |fs|
    ensures DistinctNumbers(fs[..n])
  {
  }

  /** The scan grows its range only around files that meet the range asked for. */
  lemma LevelZeroNotEmpty(fs: seq<File>, begin: Option<UserKey>, end: Option<UserKey>, lo: Option<UserKey>, hi: Option<UserKey>)
    requires GrownFrom(fs, begin, end, lo, hi) && Overlapping(fs, lo, hi) != []
    ensures exists f :: f in fs && InRange(f, begin, end)
  {
    assert Overlapping(fs, lo, hi)[0] in Overlapping(fs, lo, hi);
    if forall f | f in fs :: !InRange(f, begin, end) {
      assert OverlapClosed(fs, {}, begin, end);
      assert false;
    }
  }
}
