/**
  When installing the outputs of a compaction leaves the database readable: exact conditions
  (InstallCompactionResults and BackgroundCompaction in db/db_impl.cc, Version::Get in db/version_set.cc).
*/
module InstallReads {
  import opened InternalKeys
  import opened Versions
  import opened VersionEdits
  import opened Picking
  import opened DropRules
  import opened CompactionWork
  import opened Installing
  import opened Flushing
  import opened Searches

  // ---------------------------------------------------------------- one copy of every entry

  lemma EntryOnce(v: Version, l: nat, f: File, m: nat, g: File, e: Entry)
    requires ValidVersion(v) && l <= m < NUM_LEVELS && f in v[l] && g in v[m] && e in f.entries && e in g.entries
    ensures l == m && f == g
  {
    hide ValidVersion, FileMetaData.Valid, Contents, VersionContents, Newer, SortedLevel, DistinctNumbers;
    LevelFiles(v, l);
    VersionMember(v, l, f, e);
    VersionMember(v, m, g, e);
    if l < m {
      LevelsNewer(v, l, m, e, e);
    } else if f != g {
      OneOfLevel(v, l, f, g, e);
    }
  }

  lemma OneOfLevel(v: Version, l: nat, f: File, g: File, e: Entry)
    requires ValidVersion(v) && l < NUM_LEVELS && f in v[l] && g in v[l] && e in f.entries && e in g.entries
    ensures f == g
  {
    hide FileMetaData.Valid, VersionContents, Unique, Newer, SortedLevel, DistinctNumbers;
    assert ValidFiles(v[l]);
    if f != g {
      if l == 0 {
        if f.number == g.number {
          SameNumberSameFile(v[0], f, g);
        } else {
          var a, b := if f.number > g.number then f else g, if f.number > g.number then g else f;
          assert e in ToSet(a.entries) && e in ToSet(b.entries);
          NewerThan(ToSet(a.entries), ToSet(b.entries), e, e);
        }
      } else {
        SortedMeansLined(v[l], f, g);
        EntryInRange(f, e);
        EntryInRange(g, e);
      }
    }
  }

  lemma ValidIsOneCopy(v: Version)
    requires ValidVersion(v)
    ensures OneCopy(v)
  {
    hide ValidVersion, FileMetaData.Valid;
    forall l, m, f, g, e | 0 <= l < NUM_LEVELS && 0 <= m < NUM_LEVELS && f in v[l] && g in v[m] && e in f.entries && e in g.entries
      ensures l == m && f == g
    {
      if l <= m {
        EntryOnce(v, l, f, m, g, e);
      } else {
        EntryOnce(v, m, g, l, f, e);
      }
    }
  }

  lemma InputStaysOut(v: Version, c: CompactionInputs, l: nat, g: File, e: Entry)
    requires OneCopy(v) && RowsOf(v, c) && e in c.Entries() && Stays(v, c, l, g)
    ensures e !in g.entries
  {
    hide Contents, VersionContents, CompactionInputs.Entries;
    var m, f := InputLevel(v, c, e);
  }

  /** An output shares no entry with a file that stays. */
  lemma OutputsApartFromRest(v: Version, c: CompactionInputs, outputs: seq<File>, l: nat, g: File, o: File, e: Entry)
    requires OneCopy(v) && RowsOf(v, c) && Contents(outputs) <= c.Entries()
    requires Stays(v, c, l, g) && o in outputs && e in g.entries
    ensures e !in o.entries
  {
    hide Contents, VersionContents, CompactionInputs.Entries, OneCopy, RowsOf, Stays;
    if e in o.entries {
      ContentsMember(outputs, o, e);
      InputStaysOut(v, c, l, g, e);
    }
  }

  lemma OneOutput(outputs: seq<File>, f: File, g: File, e: Entry)
    requires ValidFiles(outputs) && SortedLevel(outputs) && f in outputs && g in outputs && e in f.entries && e in g.entries
    ensures f == g
  {
    hide SortedLevel, FileMetaData.Valid;
    if f != g {
      SortedMeansLined(outputs, f, g);
      EntryInRange(f, e);
      EntryInRange(g, e);
    }
  }

  lemma InstalledOneCopy(v: Version, v': Version, c: CompactionInputs, outputs: seq<File>)
    requires ValidVersion(v) && Installed(v, v', c, outputs) && OutputsOf(c, outputs)
    ensures OneCopy(v')
  {
    hide ValidVersion, Replaced, RowsOf, Stays, ValidFiles, SortedLevel, DistinctNumbers, Contents, CompactionInputs.Entries;
    ValidIsOneCopy(v);
    forall l, m, f, g, e | 0 <= l < NUM_LEVELS && 0 <= m < NUM_LEVELS && f in v'[l] && g in v'[m] && e in f.entries && e in g.entries
      ensures l == m && f == g
    {
      FilesAfter(v, v', c, outputs, l, f);
      FilesAfter(v, v', c, outputs, m, g);
      if Stays(v, c, l, f) && Stays(v, c, m, g) {
        StaysIn(v, c, l, f);
        StaysIn(v, c, m, g);
      } else if Stays(v, c, l, f) {
        OutputsApartFromRest(v, c, outputs, l, f, g, e);
      } else if Stays(v, c, m, g) {
        OutputsApartFromRest(v, c, outputs, m, g, f, e);
      } else {
        OneOutput(outputs, f, g, e);
      }
    }
  }

  lemma InstalledIsWellFormed(v: Version, v': Version, c: CompactionInputs, outputs: seq<File>)
    requires ValidVersion(v) && Installed(v, v', c, outputs) && OutputsOf(c, outputs)
    ensures WellFormed(v')
  {
    assert Unique(VersionContents(v)) by { hide Installed, OutputsOf, Newer; }
    hide ValidVersion, Installed, OutputsOf, ValidFiles, DistinctNumbers, OrderedFiles, Unique, VersionContents, Contents, CompactionInputs.Entries, OneCopy;
    forall l | 0 <= l < NUM_LEVELS ensures ValidFiles(v'[l]) && DistinctNumbers(v'[l]) && OrderedFiles(v'[l]) {
      FilesValidAfter(v, v', c, outputs, l);
    }
    InstalledOneCopy(v, v', c, outputs);
    OutputsFromInputs(c, outputs);
    ContentsShrink(v, v', c, outputs);
    UniqueSubset(VersionContents(v'), VersionContents(v));
  }

  // ---------------------------------------------------------------- the search after an install

  lemma ValidMeansFirstRowNewer(v: Version, v': Version, c: CompactionInputs, outputs: seq<File>)
    requires Installed(v, v', c, outputs) && ValidVersion(v')
    ensures FirstRowNewer(v, c, outputs)
  {
    assert c.level + 1 < NUM_LEVELS;
    hide ValidVersion, Installed, Contents;
    forall g, x, y | g in v[c.level] && g !in c.inputs0 && x in g.entries && y in Contents(outputs) && SameUserKey(x, y)
      ensures x.key.sequence > y.key.sequence
    {
      StayedIsNewer(v, v', c, outputs, g, x, y);
    }
  }

  lemma StayedIsNewer(v: Version, v': Version, c: CompactionInputs, outputs: seq<File>, g: File, x: Entry, y: Entry)
    requires Installed(v, v', c, outputs) && ValidVersion(v')
    requires Stays(v, c, c.level, g) && x in g.entries && y in Contents(outputs) && SameUserKey(x, y)
    ensures x.key.sequence > y.key.sequence
  {
    assert c.level + 1 < NUM_LEVELS;
    hide ValidVersion, Installed, Stays, Contents, VersionContents;
    var o := FileOf(outputs, y);
    FilesAfter(v, v', c, outputs, c.level, g);
    FilesAfter(v, v', c, outputs, c.level + 1, o);
    VersionMember(v', c.level, g, x);
    VersionMember(v', c.level + 1, o, y);
    LevelsNewer(v', c.level, c.level + 1, x, y);
  }

  lemma ValidMeansOutputsClear(v: Version, v': Version, c: CompactionInputs, outputs: seq<File>)
    requires ValidVersion(v) && Installed(v, v', c, outputs) && OutputsOf(c, outputs) && ValidVersion(v')
    ensures OutputsClear(v, c, outputs)
  {
    assert RowsOf(v, c) && ValidFiles(outputs);
    hide ValidVersion, Installed, OutputsOf, RowsOf, Lined, OneCopy, Contents, CompactionInputs.Entries, SortedLevel;
    ValidIsOneCopy(v);
    OutputsFromInputs(c, outputs);
    LevelFiles(v', c.level + 1);
    forall g, o | g in v[c.level + 1] && g !in c.inputs1 && o in outputs ensures Lined(g, o) {
      FilesAfter(v, v', c, outputs, c.level + 1, g);
      FilesAfter(v, v', c, outputs, c.level + 1, o);
      if g == o {
        OutputsApartFromRest(v, c, outputs, c.level + 1, g, o, o.entries[0]);
      } else {
        SortedMeansLined(v'[c.level + 1], g, o);
      }
    }
  }

  /**
    After an install Get reads every key right at every sequence if and only if what stays in the first
    row's level is newer than the outputs, and what stays in the output level stands clear of them.
  */
  lemma InstallReadsRightExactly(v: Version, v': Version, c: CompactionInputs, outputs: seq<File>)
    requires ValidVersion(v) && Installed(v, v', c, outputs) && OutputsOf(c, outputs)
    ensures c.level + 1 < NUM_LEVELS
    ensures SearchesRight(v') <==> FirstRowNewer(v, c, outputs) && OutputsClear(v, c, outputs)
  {
    assert c.level + 1 < NUM_LEVELS;
    hide ValidVersion, Installed, OutputsOf, FirstRowNewer, OutputsClear, WellFormed, SearchesRight;
    InstalledIsWellFormed(v, v', c, outputs);
    SearchesRightExactly(v');
    if FirstRowNewer(v, c, outputs) && OutputsClear(v, c, outputs) {
      InstalledIsValid(v, v', c, outputs);
    }
    if ValidVersion(v') {
      ValidMeansFirstRowNewer(v, v', c, outputs);
      ValidMeansOutputsClear(v, v', c, outputs);
    }
  }

  // ---------------------------------------------------------------- nothing flushed since the pick

  /** What the pick left in the output level stands clear of whatever comes out. */
  lemma KnownStandsClear(v: Version, c: CompactionInputs, outputs: seq<File>, g: File, o: File)
    requires ValidVersion(v) && PickedFrom(v, c) && OutputsOf(c, outputs)
    requires g in v[c.level + 1] && g !in c.inputs1 && o in outputs
    ensures Lined(g, o)
  {
    hide PickedFrom, ValidVersion, OutputsOf, RowsOf, Beside, Lined, SortedLevel, ValidFiles, Spans;
    PickedParts(v, c);
    LevelFiles(v, c.level + 1);
    LeftOutIsBeside(v, c, g);
    OutputBeside(v, c, outputs, g, o);
  }

  lemma PickedParts(v: Version, c: CompactionInputs)
    requires PickedFrom(v, c)
    ensures c.level + 1 < NUM_LEVELS && RowsOf(v, c) && Spans(FileSet(c.inputs0), c.smallest.userKey, c.largest.userKey)
  {
    hide Spans, DistinctNumbers;
  }

  /** With nothing flushed in between, only the first row matters. */
  lemma PickReadsRightExactly(v: Version, v': Version, c: CompactionInputs, outputs: seq<File>)
    requires ValidVersion(v) && PickedFrom(v, c) && Installed(v, v', c, outputs) && OutputsOf(c, outputs)
    ensures SearchesRight(v') <==> FirstRowNewer(v, c, outputs)
  {
    assert c.level + 1 < NUM_LEVELS;
    hide ValidVersion, PickedFrom, Installed, OutputsOf, FirstRowNewer, SearchesRight, Lined;
    InstallReadsRightExactly(v, v', c, outputs);
    forall g, o | g in v[c.level + 1] && g !in c.inputs1 && o in outputs ensures Lined(g, o) {
      KnownStandsClear(v, c, outputs, g, o);
    }
  }

  lemma NoSecondRow(v: Version, c: CompactionInputs)
    requires RowsOf(v, c) && c.inputs1 == []
    ensures NothingOlderLeft(v, c) <==> FirstRowNewer(v, c, c.inputs0)
  {
    assert Contents(c.inputs1) == {};
    forall g | g in v[c.level + 1] ensures Newer(ToSet(g.entries), Contents(c.inputs1)) {
    }
  }

  /** A trivial move is read right afterwards if and only if it leaves nothing older of its keys behind. */
  lemma MoveReadsRightExactly(v: Version, v': Version, c: CompactionInputs)
    requires ValidVersion(v) && PickedFrom(v, c) && |c.inputs0| == 1 && c.inputs1 == []
    requires Installed(v, v', c, c.inputs0)
    ensures SearchesRight(v') <==> NothingOlderLeft(v, c)
  {
    hide ValidVersion, PickedFrom, Installed, RowsOf, SearchesRight, NothingOlderLeft, FirstRowNewer, OutputsOf, ValidFiles;
    PickedParts(v, c);
    LevelFiles(v, c.level);
    MoveOutputs(v, c);
    PickReadsRightExactly(v, v', c, c.inputs0);
    NoSecondRow(v, c);
  }

  // ---------------------------------------------------------------- merging compactions

  /** The newest input version of the key is a deletion that rule (B) drops; rule (A) then drops the rest. */
  ghost predicate WipedOut(I: set<Entry>, floor: nat, base: UserKey -> bool, k: UserKey) {
    exists n :: n in I && n.key.userKey == k && Obsolete(floor, base, n)
      && forall x | x in I && x.key.userKey == k :: x.key.sequence <= n.key.sequence
  }

  lemma WipedLeavesNothing(I: set<Entry>, floor: nat, base: UserKey -> bool, y: Entry)
    requires Unique(I) && WipedOut(I, floor, base, y.key.userKey)
    ensures y !in Survivors(I, floor, base)
  {
    var n :| n in I && n.key.userKey == y.key.userKey && Obsolete(floor, base, n)
             && forall x | x in I && x.key.userKey == y.key.userKey :: x.key.sequence <= n.key.sequence;
    if y in I && y != n {
      assert SameUserKey(n, y);
      assert Shadowed(I, floor, y);
    }
  }

  /** Unless the key is wiped out, a newest input version survives. */
  lemma NewestSurvives(I: set<Entry>, floor: nat, base: UserKey -> bool, y: Entry) returns (n: Entry)
    requires Unique(I) && y in I && !WipedOut(I, floor, base, y.key.userKey)
    ensures n in Survivors(I, floor, base) && SameUserKey(n, y) && n.key.sequence >= y.key.sequence
  {
    n := NewestOfKey(I, y);
    assert !Obsolete(floor, base, n);
    assert !Shadowed(I, floor, n);
  }

  lemma {:induction false} NewestOfKey(I: set<Entry>, y: Entry) returns (n: Entry)
    requires y in I
    ensures n in I && SameUserKey(n, y)
    ensures forall x | x in I && x.key.userKey == y.key.userKey :: x.key.sequence <= n.key.sequence
    decreases |I|
  {
    n := y;
    if x :| x in I && SameUserKey(x, y) && x.key.sequence > y.key.sequence {
      n := NewestOfKey(I - {y}, x);
    }
  }

  /** A key cut between the first row and a file beside it, newer part inside. */
  ghost predicate Cut(v: Version, c: CompactionInputs, g: File, x: Entry, y: Entry)
    requires c.level < NUM_LEVELS
  {
    && g in v[c.level] && g !in c.inputs0 && x in g.entries && y in Contents(c.inputs0)
    && SameUserKey(x, y) && x.key.sequence <= y.key.sequence
  }

  ghost predicate CutOnlyIfWiped(v: Version, c: CompactionInputs, floor: nat)
    requires c.level < NUM_LEVELS
  {
    forall g, x, y | Cut(v, c, g, x, y) :: WipedOut(c.Entries(), floor, Base(c), y.key.userKey)
  }

  lemma InputsUnique(v: Version, c: CompactionInputs)
    requires ValidVersion(v) && RowsOf(v, c)
    ensures Unique(c.Entries())
  {
    hide RowsOf, Contents, VersionContents, Rest, CompactionInputs.Entries, Newer;
    ContentsBefore(v, c);
    assert Unique(VersionContents(v));
    hide ValidVersion, Unique;
    UniqueSubset(c.Entries(), VersionContents(v));
  }

  lemma FirstRowNewerExactly(v: Version, c: CompactionInputs, outputs: seq<File>, floor: nat)
    requires ValidVersion(v) && RowsOf(v, c) && Contents(outputs) == Survivors(c.Entries(), floor, Base(c))
    ensures FirstRowNewer(v, c, outputs) <==> CutOnlyIfWiped(v, c, floor)
  {
    assert c.level + 1 < NUM_LEVELS;
    hide ValidVersion, RowsOf, Survivors, WipedOut, Unique, Base, VersionContents;
    InputsUnique(v, c);
    if FirstRowNewer(v, c, outputs) {
      forall g, x, y | Cut(v, c, g, x, y) ensures WipedOut(c.Entries(), floor, Base(c), y.key.userKey) {
        if !WipedOut(c.Entries(), floor, Base(c), y.key.userKey) {
          var n := NewestSurvives(c.Entries(), floor, Base(c), y);
          assert x in ToSet(g.entries);
          NewerThan(ToSet(g.entries), Contents(outputs), x, n);
        }
      }
    }
    if CutOnlyIfWiped(v, c, floor) {
      forall g, x, y | g in v[c.level] && g !in c.inputs0 && x in g.entries && y in Contents(outputs) && SameUserKey(x, y)
        ensures x.key.sequence > y.key.sequence
      {
        UncutIsNewer(v, c, floor, g, x, y);
      }
    }
  }

  lemma UncutIsNewer(v: Version, c: CompactionInputs, floor: nat, g: File, x: Entry, y: Entry)
    requires ValidVersion(v) && RowsOf(v, c) && CutOnlyIfWiped(v, c, floor) && Unique(c.Entries())
    requires g in v[c.level] && g !in c.inputs0 && x in g.entries && SameUserKey(x, y)
    requires y in Survivors(c.Entries(), floor, Base(c))
    ensures x.key.sequence > y.key.sequence
  {
    hide ValidVersion, WipedOut, Unique, Base, VersionContents, Contents, Shadowed, Obsolete;
    if x.key.sequence <= y.key.sequence {
      var m, f := InputLevel(v, c, y);
      if m == c.level {
        ContentsMember(c.inputs0, f, y);
        assert Cut(v, c, g, x, y);
        WipedLeavesNothing(c.Entries(), floor, Base(c), y);
      } else {
        VersionMember(v, c.level, g, x);
        LevelsNewer(v, c.level, m, x, y);
      }
    }
  }

  /**
    A merging compaction is read right afterwards if and only if every key it cuts at the edge of its first
    row, keeping the newer part, is one that it drops altogether.
  */
  lemma MergeReadsRightExactly(v: Version, v': Version, c: CompactionInputs, outputs: seq<File>, floor: nat)
    requires ValidVersion(v) && PickedFrom(v, c) && Installed(v, v', c, outputs) && OutputsOf(c, outputs)
    requires Contents(outputs) == Survivors(c.Entries(), floor, Base(c))
    ensures SearchesRight(v') <==> CutOnlyIfWiped(v, c, floor)
  {
    hide ValidVersion, PickedFrom, Installed, OutputsOf, FirstRowNewer, SearchesRight, Survivors, Contents, CompactionInputs.Entries, CutOnlyIfWiped, Base, RowsOf;
    PickedParts(v, c);
    PickReadsRightExactly(v, v', c, outputs);
    FirstRowNewerExactly(v, c, outputs, floor);
  }

  /**
    What the install does to the data itself.  Reads of a key at or above the smallest snapshot are the
    same before and after if and only if no dropped deletion uncovers an older value outside the inputs.
  */
  lemma InstallKeepsDataExactly(v: Version, v': Version, c: CompactionInputs, outputs: seq<File>, floor: nat, k: UserKey)
    requires ValidVersion(v) && Installed(v, v', c, outputs)
    requires Contents(outputs) == Survivors(c.Entries(), floor, Base(c))
    ensures (forall s | floor <= s :: Read(VersionContents(v'), k, s) == Read(VersionContents(v), k, s))
       <==> !Uncovers(c.Entries(), Rest(v, c), floor, Base(c), k)
  {
    assert RowsOf(v, c) && Unique(VersionContents(v));
    hide ValidVersion, Installed, RowsOf, Contents, VersionContents, Survivors, CompactionInputs.Entries, Unique, Read, Rest, Base, Uncovers;
    ContentsBefore(v, c);
    ContentsAfter(v, v', c, outputs);
    InputsApartFromRest(v, c);
    DropsPreserveReadsExactly(c.Entries(), Rest(v, c), floor, Base(c), k);
  }

  lemma InputsApartFromRest(v: Version, c: CompactionInputs)
    requires ValidVersion(v) && RowsOf(v, c)
    ensures c.Entries() !! Rest(v, c)
  {
    hide ValidVersion, Contents, VersionContents, CompactionInputs.Entries, Rest, OneCopy, RowsOf;
    ValidIsOneCopy(v);
    forall e | e in c.Entries() ensures e !in Rest(v, c) {
      if e in Rest(v, c) {
        var l, g := RestFile(v, c, e);
        InputStaysOut(v, c, l, g, e);
      }
    }
  }

  lemma EntriesUnique(v: Version)
    requires ValidVersion(v)
    ensures Unique(VersionContents(v))
  {
    hide Unique, VersionContents;
  }

  lemma PendingInstalled(v: Version, v': Version, c: CompactionInputs, outputs: seq<File>)
    requires Pending(v, c) && Installed(v, v', c, outputs)
    ensures Compacted(v, v', c, outputs)
  {
    hide Pending, Installed;
  }

  lemma NothingMore(entries: set<Entry>)
    ensures {} + entries == entries
  {
  }

  /** Leaving nothing older behind is enough for both: the search is right, and it reads what was there. */
  lemma NothingOlderIsEnough(v: Version, v': Version, c: CompactionInputs, outputs: seq<File>, floor: nat, k: UserKey, s: nat)
    requires ValidVersion(v) && PickedFrom(v, c) && NothingOlderLeft(v, c)
    requires Installed(v, v', c, outputs) && OutputsOf(c, outputs)
    requires Contents(outputs) == Survivors(c.Entries(), floor, Base(c))
    ensures SearchesRight(v')
    ensures floor <= s ==> Read(VersionContents(v'), k, s) == Read(VersionContents(v), k, s)
  {
    hide *;
    EntriesUnique(v);
    PickedIsPending(v, c);
    PendingInstalled(v, v', c, outputs);
    InstalledIsWellFormed(v, v', c, outputs);
    CompactionKeepsValid(v, v', c, outputs);
    SearchesRightExactly(v');
    if floor <= s {
      NothingIsNewer(VersionContents(v));
      NothingMore(VersionContents(v));
      NothingMore(VersionContents(v'));
      CompactionPreservesReads(v, v', c, outputs, floor, {}, k, s);
    }
  }

  // ---------------------------------------------------------------- files flushed since the pick

  /** What has come to the output level since the pick stands clear of the outputs. */
  ghost predicate NewcomersClear(v: Version, c: CompactionInputs, outputs: seq<File>)
    requires c.level + 1 < NUM_LEVELS
  {
    forall g, o | g in v[c.level + 1] && g !in c.version[c.level + 1] && o in outputs :: Lined(g, o)
  }

  lemma OnlyNewcomersMatter(v: Version, c: CompactionInputs, outputs: seq<File>)
    requires ValidVersion(c.version) && PickedFrom(c.version, c) && OutputsOf(c, outputs)
    ensures c.level + 1 < NUM_LEVELS && RowsOf(c.version, c)
    ensures OutputsClear(v, c, outputs) <==> NewcomersClear(v, c, outputs)
  {
    hide ValidVersion, PickedFrom, OutputsOf, Lined, Spans;
    PickedParts(c.version, c);
    forall g, o | g in v[c.level + 1] && g in c.version[c.level + 1] && g !in c.inputs1 && o in outputs ensures Lined(g, o) {
      KnownStandsClear(c.version, c, outputs, g, o);
    }
  }

  /**
    The picked version may have been flushed into since.  If what stays in the first row's level is newer
    than the outputs, the install is read right if and only if every newcomer to the output level stands
    clear of every output.
  */
  lemma LateInstallReadsRightExactly(v: Version, v': Version, c: CompactionInputs, outputs: seq<File>)
    requires ValidVersion(c.version) && PickedFrom(c.version, c)
    requires ValidVersion(v) && Installed(v, v', c, outputs) && OutputsOf(c, outputs)
    ensures c.level + 1 < NUM_LEVELS
    ensures SearchesRight(v') <==> FirstRowNewer(v, c, outputs) && NewcomersClear(v, c, outputs)
  {
    hide *;
    InstallReadsRightExactly(v, v', c, outputs);
    OnlyNewcomersMatter(v, c, outputs);
  }

  /** A gapless pick needs no check: whatever is flushed beside it stands clear. */
  lemma GaplessIsEnough(v: Version, f: File, c: CompactionInputs, outputs: seq<File>, o: File)
    requires ValidVersion(v) && Pending(v, c) && Gapless(c.Files()) && Flushable(v, c.level + 1, f)
    requires OutputsOf(c, outputs) && o in outputs
    ensures Lined(f, o)
  {
    hide ValidVersion, Pending, Gapless, Flushable, OutputsOf, Beside, Lined, RowsOf, Spans;
    PendingLevel(v, c);
    FlushBeside(v, c.level + 1, f, c);
    PendingSpan(v, c);
    OutputBeside(v, c, outputs, f, o);
  }
}
