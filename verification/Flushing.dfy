/** Adding a memtable's table to the current version, also in the middle of a compaction
    (WriteLevel0Table and CompactMemTable in db/db_impl.cc). */
module Flushing {
  import opened InternalKeys
  import opened Versions
  import opened VersionEdits
  import opened Picking
  import opened Installing

  /** v' is v with one more file at `level`. */
  ghost predicate Added(v: Version, v': Version, level: nat, f: File)
    requires level < NUM_LEVELS
  {
    && OrderedVersion(v')
    && (forall l | 0 <= l < NUM_LEVELS && l != level :: v'[l] == v[l])
    && DistinctNumbers(v'[level])
    && (forall g :: g in v'[level] <==> g in v[level] || g == f)
  }

  /** A table newer than all tables, put at level 0 or where nothing down to its level meets its range. */
  ghost predicate Flushable(v: Version, level: nat, f: File)
    requires level < NUM_LEVELS
  {
    && f.Valid()
    && Newer(ToSet(f.entries), VersionContents(v))
    && Unique(VersionContents(v) + ToSet(f.entries))
    && (forall g | g in v[0] :: g.number < f.number)
    && (level > 0 ==> NoOverlapTo(v, level, f.smallest.userKey, f.largest.userKey))
  }

  /** The edit of a flush adds the file and touches nothing else. */
  lemma FlushAdds(v: Version, level: nat, f: File)
    requires ValidVersion(v) && OrderedVersion(v) && level < NUM_LEVELS
    requires forall g | g in v[level] :: g.number != f.number
    ensures Added(v, NextVersion(v, FlushEdit(level, f)), level, f)
  {
    hide NextVersion, ValidVersion, FlushEdit, OrderedFiles, SaveLevel, ApplyLevel, DistinctNumbers;
    var v' := NextVersion(v, FlushEdit(level, f));
    forall l | 0 <= l < NUM_LEVELS
      ensures OrderedFiles(v'[l]) && (l != level ==> v'[l] == v[l])
    {
      NextLevel(v, FlushEdit(level, f), l);
      FlushEditAt(level, f, l);
      if l == level {
        FlushedLevel(v, level, f);
      } else {
        UntouchedLevel(v[l]);
      }
    }
    NextLevel(v, FlushEdit(level, f), level);
    FlushEditAt(level, f, level);
    FlushedLevel(v, level, f);
  }

  lemma FlushEditAt(level: nat, f: File, l: nat)
    ensures NewAt(FlushEdit(level, f).newFiles, l) == if l == level then [f] else []
    ensures DeletedAt(FlushEdit(level, f), l) == {}
  {
    assert FlushEdit(level, f).newFiles[1..] == [];
  }

  lemma FlushedLevel(v: Version, level: nat, f: File)
    requires ValidVersion(v) && OrderedVersion(v) && level < NUM_LEVELS
    requires forall g | g in v[level] :: g.number != f.number
    ensures var r := SaveLevel(v[level], ApplyLevel(FRESH_LEVEL, {}, [f]));
            OrderedFiles(r) && DistinctNumbers(r) && forall g :: g in r <==> g in v[level] || g == f
  {
    assert DistinctNumbers(v[level]) && OrderedFiles(v[level]);
    hide ValidVersion, OrderedVersion, SaveLevel, ApplyLevel, OrderedFiles;
    EditedLevel(v[level], {}, [f]);
  }

  lemma OtherLevels(v: Version, v': Version, level: nat, f: File, l: nat)
    requires level < NUM_LEVELS && Added(v, v', level, f) && l < NUM_LEVELS && l != level
    ensures v'[l] == v[l]
  {
    hide OrderedVersion, DistinctNumbers;
  }

  lemma FilesOfFlush(v: Version, v': Version, level: nat, f: File, l: nat, g: File)
    requires level < NUM_LEVELS && Added(v, v', level, f) && l < NUM_LEVELS
    ensures g in v'[l] <==> g in v[l] || (l == level && g == f)
  {
    hide OrderedVersion, DistinctNumbers;
    if l != level {
      assert v'[l] == v[l];
    }
  }

  lemma FlushContents(v: Version, v': Version, level: nat, f: File)
    requires level < NUM_LEVELS && Added(v, v', level, f)
    ensures VersionContents(v') == VersionContents(v) + ToSet(f.entries)
  {
    hide Added;
    forall e | e in VersionContents(v') ensures e in VersionContents(v) + ToSet(f.entries) {
      var l :| 0 <= l < NUM_LEVELS && e in Contents(v'[l]);
      hide Contents, VersionContents;
      var g := FileOf(v'[l], e);
      FilesOfFlush(v, v', level, f, l, g);
      if g in v[l] {
        VersionMember(v, l, g, e);
      }
    }
    forall e | e in VersionContents(v) + ToSet(f.entries) ensures e in VersionContents(v') {
      var l, g := level, f;
      if e in VersionContents(v) {
        l :| 0 <= l < NUM_LEVELS && e in Contents(v[l]);
        g := FileOf(v[l], e);
      }
      hide Contents, VersionContents;
      FilesOfFlush(v, v', level, f, l, g);
      VersionMember(v', l, g, e);
    }
  }

  /** At a deeper level the new file meets no file there or above. */
  lemma NoOverlapFiles(v: Version, level: nat, f: File, l: nat, g: File)
    requires 0 < level < NUM_LEVELS && Flushable(v, level, f) && l <= level && g in v[l] && g.Valid()
    ensures f.smallest.userKey <= f.largest.userKey && g.smallest.userKey <= g.largest.userKey
    ensures !Overlap(g, f) && !InRange(g, Some(f.smallest.userKey), Some(f.largest.userKey))
    ensures f.largest.userKey < g.smallest.userKey || g.largest.userKey < f.smallest.userKey
  {
    hide Newer, Unique, VersionContents, Sorted;
    SmallestToLargest(f);
    SmallestToLargest(g);
    assert !InRange(g, Some(f.smallest.userKey), Some(f.largest.userKey));
  }

  // ---------------------------------------------------------------- layers

  /** The new file is newer than whatever lies below it and shares no key with what lies above. */
  lemma FlushNewer(v: Version, v': Version, level: nat, f: File, l: nat, m: nat, x: Entry, y: Entry)
    requires ValidVersion(v) && level < NUM_LEVELS && Added(v, v', level, f) && Flushable(v, level, f)
    requires l < m < NUM_LEVELS && x in Contents(v'[l]) && y in Contents(v'[m]) && SameUserKey(x, y)
    ensures x.key.sequence > y.key.sequence
  {
    hide ValidVersion, Added, Flushable, Contents, VersionContents, FileMetaData.Valid;
    var g := FileOf(v'[l], x);
    var h := FileOf(v'[m], y);
    FilesOfFlush(v, v', level, f, l, g);
    FilesOfFlush(v, v', level, f, m, h);
    if h in v[m] {
      VersionMember(v, m, h, y);
      if g in v[l] {
        VersionMember(v, l, g, x);
        LevelsNewer(v, l, m, x, y);
      } else {
        FlushOver(v, level, f, x, y);
      }
    } else {
      FlushUnder(v, level, f, l, g, x, y);
    }
  }

  lemma FlushOver(v: Version, level: nat, f: File, x: Entry, y: Entry)
    requires level < NUM_LEVELS && Flushable(v, level, f)
    requires x in f.entries && y in VersionContents(v) && SameUserKey(x, y)
    ensures x.key.sequence > y.key.sequence
  {
    hide VersionContents, FileMetaData.Valid, Unique;
    assert x in ToSet(f.entries);
  }

  lemma FlushUnder(v: Version, level: nat, f: File, l: nat, g: File, x: Entry, y: Entry)
    requires ValidVersion(v) && level < NUM_LEVELS && Flushable(v, level, f)
    requires l < level && g in v[l] && x in g.entries && y in f.entries
    ensures !SameUserKey(x, y)
  {
    LevelFiles(v, l);
    hide ValidVersion, Newer, Unique, VersionContents, Sorted, DistinctNumbers, SortedLevel;
    NoOverlapFiles(v, level, f, l, g);
    EntryInRange(g, x);
    EntryInRange(f, y);
  }

  // ---------------------------------------------------------------- validity

  lemma FlushFiles(v: Version, v': Version, level: nat, f: File, l: nat)
    requires ValidVersion(v) && level < NUM_LEVELS && Added(v, v', level, f) && Flushable(v, level, f) && l < NUM_LEVELS
    ensures ValidFiles(v'[l]) && DistinctNumbers(v'[l]) && OrderedFiles(v'[l])
  {
    LevelFiles(v, l);
    assert f.Valid();
    hide ValidVersion, FileMetaData.Valid, Newer, Unique, DistinctNumbers, OrderedFiles, SortedLevel, VersionContents;
  }

  lemma FlushSorted(v: Version, v': Version, level: nat, f: File, l: nat)
    requires ValidVersion(v) && level < NUM_LEVELS && Added(v, v', level, f) && Flushable(v, level, f) && 1 <= l < NUM_LEVELS
    ensures SortedLevel(v'[l])
  {
    hide ValidVersion, FileMetaData.Valid, Added, Flushable, DistinctNumbers, OrderedFiles, SortedLevel, Lined, VersionContents;
    LevelFiles(v, l);
    FlushFiles(v, v', level, f, l);
    if l == level {
      forall g, h | g in v'[l] && h in v'[l] && g != h ensures Lined(g, h) {
        FilesOfFlush(v, v', level, f, l, g);
        FilesOfFlush(v, v', level, f, l, h);
        if g in v[l] && h in v[l] {
          SortedMeansLined(v[l], g, h);
        } else {
          FlushLined(v, level, f, if g == f then h else g);
          LinedEitherWay(g, h);
        }
      }
      LinedMeansSorted(v'[l]);
    } else {
      OtherLevels(v, v', level, f, l);
    }
  }

  lemma FlushLined(v: Version, level: nat, f: File, g: File)
    requires ValidVersion(v) && 0 < level < NUM_LEVELS && Flushable(v, level, f) && g in v[level]
    ensures Lined(f, g)
  {
    hide ValidVersion, Flushable, FileMetaData.Valid, DistinctNumbers, SortedLevel;
    LevelFiles(v, level);
    NoOverlapFiles(v, level, f, level, g);
  }

  /** The flushed file has the largest number of level 0. */
  lemma FlushNumbered(v: Version, v': Version, level: nat, f: File)
    requires ValidVersion(v) && level < NUM_LEVELS && Added(v, v', level, f) && Flushable(v, level, f)
    ensures NumberedByAge(v'[0])
  {
    assert NumberedByAge(v[0]);
    hide ValidVersion, FileMetaData.Valid, Newer, Unique, DistinctNumbers, OrderedVersion, VersionContents;
    forall a, b | a in v'[0] && b in v'[0] && a.number > b.number ensures Newer(ToSet(a.entries), ToSet(b.entries)) {
      FilesOfFlush(v, v', level, f, 0, a);
      FilesOfFlush(v, v', level, f, 0, b);
      if !(a in v[0] && b in v[0]) {
        assert b in v[0];
        forall e | e in b.entries ensures e in VersionContents(v) {
          VersionMember(v, 0, b, e);
        }
        NewerSubset(ToSet(f.entries), VersionContents(v), ToSet(b.entries));
      }
    }
  }

  lemma FlushKeepsValid(v: Version, v': Version, level: nat, f: File)
    requires ValidVersion(v) && level < NUM_LEVELS && Added(v, v', level, f) && Flushable(v, level, f)
    ensures ValidVersion(v')
    ensures VersionContents(v') == VersionContents(v) + ToSet(f.entries)
  {
    assert Unique(VersionContents(v) + ToSet(f.entries)) by { hide ValidVersion, Unique, Newer; }
    hide Added, Flushable, Newer, SortedLevel, DistinctNumbers, Contents, FileMetaData.Valid, VersionContents, NumberedByAge, ValidFiles, Unique;
    FlushContents(v, v', level, f);
    FlushNumbered(v, v', level, f);
    forall l | 0 <= l < NUM_LEVELS ensures ValidFiles(v'[l]) && DistinctNumbers(v'[l]) {
      FlushFiles(v, v', level, f, l);
    }
    forall l | 1 <= l < NUM_LEVELS ensures SortedLevel(v'[l]) {
      FlushSorted(v, v', level, f, l);
    }
    forall l, m | 0 <= l < m < NUM_LEVELS ensures Newer(Contents(v'[l]), Contents(v'[m])) {
      FlushLayers(v, v', level, f, l, m);
    }
  }

  lemma FlushLayers(v: Version, v': Version, level: nat, f: File, l: nat, m: nat)
    requires ValidVersion(v) && level < NUM_LEVELS && Added(v, v', level, f) && Flushable(v, level, f)
    requires l < m < NUM_LEVELS
    ensures Newer(Contents(v'[l]), Contents(v'[m]))
  {
    hide ValidVersion, Added, Flushable, Contents;
    forall x, y | x in Contents(v'[l]) && y in Contents(v'[m]) && SameUserKey(x, y)
      ensures x.key.sequence > y.key.sequence
    {
      FlushNewer(v, v', level, f, l, m, x, y);
    }
  }

  lemma FlushKeepsDisjoint(v: Version, v': Version, level: nat, f: File)
    requires ValidVersion(v) && DisjointVersion(v)
    requires level < NUM_LEVELS && Added(v, v', level, f) && Flushable(v, level, f)
    ensures DisjointVersion(v')
  {
    hide ValidVersion, Added, Flushable, FileMetaData.Valid, DistinctNumbers, SortedLevel;
    forall l, a, b | 1 <= l < NUM_LEVELS && a in v'[l] && b in v'[l] && a != b
      ensures a.largest.userKey < b.smallest.userKey || b.largest.userKey < a.smallest.userKey
    {
      FilesOfFlush(v, v', level, f, l, a);
      FilesOfFlush(v, v', level, f, l, b);
      assert DisjointLevel(v[l]);
      LevelFiles(v, l);
      if !(a in v[l] && b in v[l]) {
        NoOverlapFiles(v, level, f, l, if a == f then b else a);
      }
    }
  }

  // ---------------------------------------------------------------- a flush beside a pending compaction

  lemma FlushKnown(v: Version, v': Version, level: nat, f: File, c: CompactionInputs, l: nat, g: File)
    requires ValidVersion(v) && Pending(v, c)
    requires level < NUM_LEVELS && Added(v, v', level, f) && Flushable(v, level, f)
    requires c.level + 2 <= l < NUM_LEVELS && g in v'[l]
    ensures KnownOrClear(g, l, c)
  {
    FilesOfFlush(v, v', level, f, l, g);
    hide ValidVersion, Added, Flushable, FileMetaData.Valid, NothingOlderLeft, Beside, Spans;
    if g !in v[l] {
      FlushClear(v, level, f, c);
    }
  }

  /** A flush below the first row meets none of the inputs. */
  lemma FlushClear(v: Version, level: nat, f: File, c: CompactionInputs)
    requires ValidVersion(v) && Pending(v, c) && c.level < level < NUM_LEVELS && Flushable(v, level, f)
    ensures forall g | g in c.Files() :: g.Valid() && !Overlap(g, f) && !InRange(g, Some(f.smallest.userKey), Some(f.largest.userKey))
  {
    hide ValidVersion, FileMetaData.Valid, NothingOlderLeft, Beside, KnownOrClear, Flushable, Spans, DistinctNumbers, SortedLevel;
    LevelFiles(v, c.level);
    LevelFiles(v, c.level + 1);
    forall g | g in c.Files()
      ensures g.Valid() && !Overlap(g, f) && !InRange(g, Some(f.smallest.userKey), Some(f.largest.userKey))
    {
      NoOverlapFiles(v, level, f, if g in c.inputs0 then c.level else c.level + 1, g);
    }
  }

  lemma FlushRange(v: Version, level: nat, f: File)
    requires level < NUM_LEVELS && Flushable(v, level, f)
    ensures f.smallest.userKey <= f.largest.userKey
  {
    hide Newer, Unique, VersionContents, Sorted;
    SmallestToLargest(f);
  }

  lemma PendingSpan(v: Version, c: CompactionInputs)
    requires Pending(v, c)
    ensures Spans(FileSet(c.inputs0), c.smallest.userKey, c.largest.userKey)
  {
  }

  /** A gapless compaction leaves no room inside it: a flush to its output level lands beside it. */
  lemma FlushBeside(v: Version, level: nat, f: File, c: CompactionInputs)
    requires ValidVersion(v) && Pending(v, c) && Gapless(c.Files())
    requires level == c.level + 1 && Flushable(v, level, f)
    ensures Beside(f, c)
  {
    hide ValidVersion, Pending, Flushable, FileMetaData.Valid, Gapless;
    PendingLevel(v, c);
    FlushClear(v, level, f, c);
    FlushRange(v, level, f);
    PendingSpan(v, c);
    GaplessHasNoHoles(c.Files(), f.smallest.userKey, f.largest.userKey);
    var a :| a in FileSet(c.inputs0) && a.smallest.userKey == c.smallest.userKey;
    var b :| b in FileSet(c.inputs0) && b.largest.userKey == c.largest.userKey;
    assert a in c.Files() && b in c.Files();
    assert forall g | g in c.inputs1 :: g in c.Files();
  }

  /** The flushed file is newer than everything, so it never lies below a row as something older. */
  lemma FlushLeavesNothingOlder(v: Version, v': Version, level: nat, f: File, c: CompactionInputs)
    requires Pending(v, c) && level < NUM_LEVELS && Added(v, v', level, f)
    requires Newer(ToSet(f.entries), VersionContents(v))
    ensures NothingOlderLeft(v', c)
    ensures RowsOf(v', c)
  {
    hide Newer, Contents, VersionContents, Added, KnownOrClear, Beside, Spans, Rest, CompactionInputs.Entries;
    PendingLevel(v, c);
    RowContents(v, c);
    NewerSubset(ToSet(f.entries), VersionContents(v), Contents(c.inputs0));
    NewerSubset(ToSet(f.entries), VersionContents(v), Contents(c.inputs1));
    forall l, g | 0 <= l < NUM_LEVELS ensures g in v'[l] <==> g in v[l] || (l == level && g == f) {
      FilesOfFlush(v, v', level, f, l, g);
    }
  }

  lemma RowContents(v: Version, c: CompactionInputs)
    requires RowsOf(v, c)
    ensures Contents(c.inputs0) <= VersionContents(v) && Contents(c.inputs1) <= VersionContents(v)
  {
    hide Rest, Contents, VersionContents, RowsOf;
    ContentsBefore(v, c);
  }

  /** A flush in the middle of a gapless compaction stays out of its way. */
  lemma FlushKeepsPending(v: Version, v': Version, level: nat, f: File, c: CompactionInputs)
    requires ValidVersion(v) && Pending(v, c) && Gapless(c.Files())
    requires level < NUM_LEVELS && Added(v, v', level, f) && Flushable(v, level, f)
    ensures Pending(v', c)
  {
    assert Newer(ToSet(f.entries), VersionContents(v)) by { hide ValidVersion, Newer, Unique, VersionContents; }
    hide ValidVersion, Gapless, Newer, VersionContents, Added, Flushable, NothingOlderLeft, Beside, KnownOrClear, Spans;
    FlushLeavesNothingOlder(v, v', level, f, c);
    forall g | g in v'[c.level + 1] && g !in c.inputs1 ensures Beside(g, c) {
      FilesOfFlush(v, v', level, f, c.level + 1, g);
      if g !in v[c.level + 1] {
        FlushBeside(v, level, f, c);
      }
    }
    forall l, g | c.level + 2 <= l < NUM_LEVELS && g in v'[l] ensures KnownOrClear(g, l, c) {
      FlushKnown(v, v', level, f, c, l, g);
    }
  }
}
