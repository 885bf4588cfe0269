/** Installing a flush, a move or a compaction in the current version keeps it valid and readable
    (WriteLevel0Table, BackgroundCompaction and InstallCompactionResults in db/db_impl.cc). */
module Installing {
  import opened InternalKeys
  import opened Versions
  import opened VersionEdits
  import opened Picking
  import opened DropRules
  import opened CompactionWork

  ghost predicate OrderedVersion(v: Version) {
    forall l | 0 <= l < NUM_LEVELS :: OrderedFiles(v[l])
  }

  // ---------------------------------------------------------------- one edited level

  lemma EditedLevel(base: seq<File>, del: set<nat>, fs: seq<File>)
    requires OrderedFiles(base) && DistinctNumbers(base) && NumbersDiffer(base, fs) && DistinctNumbers(fs)
    ensures var r := SaveLevel(base, ApplyLevel(FRESH_LEVEL, del, fs));
            && OrderedFiles(r) && DistinctNumbers(r)
            && (forall f :: f in r <==> (f in base && f.number !in del) || f in fs)
  {
    var st := ApplyLevel(FRESH_LEVEL, del, fs);
    var r := SaveLevel(base, st);
    assert st == AddAll(LevelState({} + del, []), fs);
    hide SaveLevel, ApplyLevel, AddAll, OrderedFiles, SmallerFile;
    NoFilesOrdered();
    AddAllElements(LevelState({} + del, []), fs);
    DifferentNumbersApart(base, st.added);
    SaveLevelOrdered(base, st);
    SaveLevelElements(base, st);
    forall i, j | 0 <= i < j < |r| ensures r[i].number != r[j].number {
      assert r[i] in r && r[j] in r;
      OrderedApart(r, i, j);
      if r[i].number == r[j].number {
        if r[i] in base && r[j] in base {
          SameNumberSameFile(base, r[i], r[j]);
        } else {
          SameNumberSameFile(fs, r[i], r[j]);
        }
      }
    }
  }

  lemma UntouchedLevel(base: seq<File>)
    ensures SaveLevel(base, ApplyLevel(FRESH_LEVEL, {}, [])) == base
  {
    assert ApplyLevel(FRESH_LEVEL, {}, []) == FRESH_LEVEL;
    SaveNothing(base);
  }

  /** Two files of a level stand clear of each other in internal key order. */
  predicate Lined(f: File, g: File) {
    Before(f.largest, g.smallest) || Before(g.largest, f.smallest)
  }

  lemma LinedMeansSorted(fs: seq<File>)
    requires ValidFiles(fs) && OrderedFiles(fs)
    requires forall f, g | f in fs && g in fs && f != g :: Lined(f, g)
    ensures SortedLevel(fs)
  {
    hide FileMetaData.Valid;
    forall i, j | 0 <= i < j < |fs| ensures Before(fs[i].largest, fs[j].smallest) {
      OrderedApart(fs, i, j);
      assert fs[i] in fs && fs[j] in fs;
      assert Lined(fs[i], fs[j]) && SmallerFile(fs[i], fs[j]);
      SmallestToLargest(fs[i]);
      SmallestToLargest(fs[j]);
    }
  }

  lemma SortedMeansLined(fs: seq<File>, f: File, g: File)
    requires SortedLevel(fs) && f in fs && g in fs && f != g
    ensures Lined(f, g)
  {
    var i :| 0 <= i < |fs| && fs[i] == f;
    var j :| 0 <= j < |fs| && fs[j] == g;
    assert i < j || j < i;
  }

  // ---------------------------------------------------------------- edits

  function Numbers(level: nat, fs: seq<File>): set<(nat, nat)> {
    set f | f in fs :: (level, f.number)
  }

  /** AddInputDeletions, then the outputs one level down, with the compact pointer set by SetupOtherInputs. */
  function CompactionEdit(c: CompactionInputs, outputs: seq<File>): VersionEdit {
    EMPTY_EDIT.(compactPointers := [(c.level, c.largest)],
                deletedFiles := Numbers(c.level, c.inputs0) + Numbers(c.level + 1, c.inputs1),
                newFiles := FilesAt(c.level + 1, outputs))
  }

  /** The edit of a trivial move. */
  function MoveEdit(c: CompactionInputs): VersionEdit
    requires c.inputs0 != []
  {
    EMPTY_EDIT.(compactPointers := [(c.level, c.largest)],
                deletedFiles := {(c.level, c.inputs0[0].number)},
                newFiles := [(c.level + 1, c.inputs0[0])])
  }

  /** The edit of a memtable flush. */
  function FlushEdit(level: nat, f: File): VersionEdit {
    EMPTY_EDIT.(newFiles := [(level, f)])
  }

  // ---------------------------------------------------------------- what changes between two versions

  /** v' is v with `gone0` taken out of `level`, `gone1` out of `level + 1`, and `added` put into `level + 1`. */
  ghost predicate Replaced(v: Version, v': Version, level: nat, gone0: set<File>, gone1: set<File>, added: set<File>)
    requires level + 1 < NUM_LEVELS
  {
    && OrderedVersion(v')
    && (forall l | 0 <= l < NUM_LEVELS && l != level && l != level + 1 :: v'[l] == v[l])
    && DistinctNumbers(v'[level]) && DistinctNumbers(v'[level + 1])
    && (forall f :: f in v'[level] <==> f in v[level] && f !in gone0)
    && (forall f :: f in v'[level + 1] <==> (f in v[level + 1] && f !in gone1) || f in added)
  }

  /** Removal by number removes the files meant, because numbers differ within a level. */
  lemma RemovedByNumber(fs: seq<File>, gone: seq<File>)
    requires DistinctNumbers(fs) && forall f | f in gone :: f in fs
    ensures forall f | f in fs :: f.number in NumberSet(gone) <==> f in gone
  {
    forall f | f in fs && f.number in NumberSet(gone) ensures f in gone {
      var g :| g in gone && g.number == f.number;
      SameNumberSameFile(fs, f, g);
    }
  }

  ghost function NumberSet(fs: seq<File>): set<nat> {
    set f | f in fs :: f.number
  }

  lemma CompactionReplaces(v: Version, c: CompactionInputs, outputs: seq<File>)
    requires ValidVersion(v) && OrderedVersion(v) && c.level + 1 < NUM_LEVELS
    requires (forall f | f in c.inputs0 :: f in v[c.level]) && (forall f | f in c.inputs1 :: f in v[c.level + 1])
    requires DistinctNumbers(outputs) && NumbersDiffer(v[c.level + 1], outputs)
    ensures Replaced(v, NextVersion(v, CompactionEdit(c, outputs)), c.level,
                     FileSet(c.inputs0), FileSet(c.inputs1), FileSet(outputs))
  {
    var edit := CompactionEdit(c, outputs);
    var v' := NextVersion(v, edit);
    var L := c.level;
    hide NextVersion, CompactionEdit, OrderedFiles, Newer, Unique, SortedLevel, NumberedByAge, ValidFiles;
    forall l | 0 <= l < NUM_LEVELS
      ensures OrderedFiles(v'[l])
      ensures l != L && l != L + 1 ==> v'[l] == v[l]
    {
      if l == L || l == L + 1 {
        CompactionLevels(v, c, outputs);
      } else {
        NewAtFilesAt(L + 1, outputs, l);
        CompactionDeletes(c, outputs, l);
        CompactionAdds(c, outputs, l);
        NextLevel(v, edit, l);
        UntouchedLevel(v[l]);
      }
    }
    CompactionLevels(v, c, outputs);
  }

  lemma CompactionAdds(c: CompactionInputs, outputs: seq<File>, l: nat)
    ensures NewAt(CompactionEdit(c, outputs).newFiles, l) == if l == c.level + 1 then outputs else []
  {
    NewAtFilesAt(c.level + 1, outputs, l);
  }

  lemma CompactionLevels(v: Version, c: CompactionInputs, outputs: seq<File>)
    requires ValidVersion(v) && OrderedVersion(v) && c.level + 1 < NUM_LEVELS
    requires (forall f | f in c.inputs0 :: f in v[c.level]) && (forall f | f in c.inputs1 :: f in v[c.level + 1])
    requires DistinctNumbers(outputs) && NumbersDiffer(v[c.level + 1], outputs)
    ensures var v' := NextVersion(v, CompactionEdit(c, outputs)); var L := c.level;
            && OrderedFiles(v'[L]) && OrderedFiles(v'[L + 1])
            && DistinctNumbers(v'[L]) && DistinctNumbers(v'[L + 1])
            && (forall f :: f in v'[L] <==> f in v[L] && f !in c.inputs0)
            && (forall f :: f in v'[L + 1] <==> (f in v[L + 1] && f !in c.inputs1) || f in outputs)
  {
    var edit := CompactionEdit(c, outputs);
    var L := c.level;
    CompactionDeletes(c, outputs, L);
    CompactionDeletes(c, outputs, L + 1);
    CompactionAdds(c, outputs, L);
    CompactionAdds(c, outputs, L + 1);
    NextLevel(v, edit, L);
    NextLevel(v, edit, L + 1);
    hide NextVersion, CompactionEdit, OrderedFiles, Newer, Unique, SortedLevel, NumberedByAge, ValidFiles, SaveLevel, ApplyLevel, NewAt, DeletedAt;
    RemovedByNumber(v[L], c.inputs0);
    RemovedByNumber(v[L + 1], c.inputs1);
    EditedLevel(v[L + 1], NumberSet(c.inputs1), outputs);
    EditedLevel(v[L], NumberSet(c.inputs0), []);
  }

  lemma CompactionDeletes(c: CompactionInputs, outputs: seq<File>, l: nat)
    ensures DeletedAt(CompactionEdit(c, outputs), l)
         == (if l == c.level then NumberSet(c.inputs0) else if l == c.level + 1 then NumberSet(c.inputs1) else {})
  {
    var d := CompactionEdit(c, outputs).deletedFiles;
    var expected := if l == c.level then NumberSet(c.inputs0) else if l == c.level + 1 then NumberSet(c.inputs1) else {};
    forall n | n in NumbersAt(d, l) ensures n in expected {
      assert (l, n) in d;
    }
    forall n | n in expected ensures n in NumbersAt(d, l) {
      assert (l, n) in d;
    }
  }

  // ---------------------------------------------------------------- when a compaction may be installed

  /** No file left behind at either level holds an older version of a key than the inputs taken from that level. */
  ghost predicate NothingOlderLeft(v: Version, c: CompactionInputs)
    requires c.level + 1 < NUM_LEVELS
  {
    && (forall g | g in v[c.level] && g !in c.inputs0 :: Newer(ToSet(g.entries), Contents(c.inputs0)))
    && (forall g | g in v[c.level + 1] && g !in c.inputs1 :: Newer(ToSet(g.entries), Contents(c.inputs1)))
  }

  ghost predicate LeftOf(g: File, c: CompactionInputs) {
    g.largest.userKey < c.smallest.userKey && forall f | f in c.inputs1 :: Before(g.largest, f.smallest)
  }

  ghost predicate RightOf(g: File, c: CompactionInputs) {
    c.largest.userKey < g.smallest.userKey && forall f | f in c.inputs1 :: Before(f.largest, g.smallest)
  }

  /** A file of the output level that stays lies wholly on one side of everything the inputs hold. */
  ghost predicate Beside(g: File, c: CompactionInputs) {
    LeftOf(g, c) || RightOf(g, c)
  }

  /** A deeper file was already there when the compaction was picked, or meets none of its inputs. */
  ghost predicate KnownOrClear(g: File, l: nat, c: CompactionInputs)
    requires l < NUM_LEVELS
  {
    g in c.version[l] || forall f | f in c.Files() :: !Overlap(f, g)
  }

  /**
    A compaction in progress, seen from the version that is current now: its inputs are still there, and
    whatever has been flushed since it was picked stays out of its way.
  */
  ghost predicate Pending(v: Version, c: CompactionInputs) {
    && c.level + 1 < NUM_LEVELS
    && (forall f | f in c.inputs0 :: f in v[c.level])
    && (forall f | f in c.inputs1 :: f in v[c.level + 1])
    && Spans(FileSet(c.inputs0), c.smallest.userKey, c.largest.userKey)
    && NothingOlderLeft(v, c)
    && (forall g | g in v[c.level + 1] && g !in c.inputs1 :: Beside(g, c))
    && (forall l, g | c.level + 2 <= l < NUM_LEVELS && g in v[l] :: KnownOrClear(g, l, c))
  }

  /** Deeper levels disjoint by user key: what holds as long as no old snapshot splits a key. */
  ghost predicate DisjointLevel(fs: seq<File>) {
    forall f, g | f in fs && g in fs && f != g ::
      f.largest.userKey < g.smallest.userKey || g.largest.userKey < f.smallest.userKey
  }

  ghost predicate DisjointVersion(v: Version) {
    forall l | 1 <= l < NUM_LEVELS :: DisjointLevel(v[l])
  }

  /** A file left out of the second row lies beside the compaction. */
  lemma LeftOutIsBeside(v: Version, c: CompactionInputs, g: File)
    requires PickedFrom(v, c) && ValidFiles(v[c.level + 1]) && SortedLevel(v[c.level + 1])
    requires g in v[c.level + 1] && g !in c.inputs1
    ensures Beside(g, c)
  {
    hide FileMetaData.Valid, SortedLevel;
    SmallestToLargest(g);
    forall f | f in c.inputs1
      ensures g.largest.userKey < c.smallest.userKey ==> Before(g.largest, f.smallest)
      ensures c.largest.userKey < g.smallest.userKey ==> Before(f.largest, g.smallest)
    {
      SmallestToLargest(f);
      SortedMeansLined(v[c.level + 1], f, g);
    }
  }

  /** Picking alone makes a compaction installable when nothing older is left behind. */
  lemma PickedIsPending(v: Version, c: CompactionInputs)
    requires ValidVersion(v) && PickedFrom(v, c) && NothingOlderLeft(v, c)
    ensures Pending(v, c)
  {
    hide NothingOlderLeft, Beside, FileMetaData.Valid, Newer, Unique, NumberedByAge, SortedLevel;
    assert ValidFiles(v[c.level + 1]) && SortedLevel(v[c.level + 1]);
    forall g | g in v[c.level + 1] && g !in c.inputs1 ensures Beside(g, c) {
      LeftOutIsBeside(v, c, g);
    }
  }

  /** Files that share no user key hold nothing older of each other's keys. */
  lemma ApartIsNewer(g: File, fs: seq<File>)
    requires g.Valid() && ValidFiles(fs)
    requires forall f | f in fs :: !Overlap(f, g)
    ensures Newer(ToSet(g.entries), Contents(fs))
  {
    hide FileMetaData.Valid;
    forall x, y | x in ToSet(g.entries) && y in Contents(fs) ensures !SameUserKey(x, y) {
      var f :| f in fs && y in f.entries;
      EntryInRange(g, x);
      EntryInRange(f, y);
    }
  }

  /** With disjoint levels every pick leaves nothing older behind. */
  lemma DisjointLeavesNothingOlder(v: Version, c: CompactionInputs)
    requires ValidVersion(v) && PickedFrom(v, c) && DisjointVersion(v)
    ensures NothingOlderLeft(v, c)
  {
    hide FileMetaData.Valid, Newer, Unique, NumberedByAge, SortedLevel, Spans;
    var L := c.level;
    assert ValidFiles(v[L]) && ValidFiles(v[L + 1]);
    forall g | g in v[L] && g !in c.inputs0 ensures Newer(ToSet(g.entries), Contents(c.inputs0)) {
      FirstRowApart(v, c, g);
      ApartIsNewer(g, c.inputs0);
    }
    forall g | g in v[L + 1] && g !in c.inputs1 ensures Newer(ToSet(g.entries), Contents(c.inputs1)) {
      assert DisjointLevel(v[L + 1]);
      ApartIsNewer(g, c.inputs1);
    }
  }

  lemma FirstRowApart(v: Version, c: CompactionInputs, g: File)
    requires PickedFrom(v, c) && DisjointVersion(v) && ValidFiles(v[c.level]) && g in v[c.level] && g !in c.inputs0
    ensures forall f | f in c.inputs0 :: !Overlap(f, g)
  {
    hide FileMetaData.Valid, Spans, DistinctNumbers;
    if c.level > 0 {
      assert DisjointLevel(v[c.level]);
    }
  }

  // ---------------------------------------------------------------- what a version holds

  lemma ContentsMember(fs: seq<File>, f: File, e: Entry)
    requires f in fs && e in f.entries
    ensures e in Contents(fs)
  {
  }

  lemma VersionMember(v: Version, l: nat, f: File, e: Entry)
    requires l < NUM_LEVELS && f in v[l] && e in f.entries
    ensures e in Contents(v[l]) && e in VersionContents(v)
  {
    ContentsMember(v[l], f, e);
  }

  lemma FileOf(fs: seq<File>, e: Entry) returns (f: File)
    requires e in Contents(fs)
    ensures f in fs && e in f.entries
  {
    f :| f in fs && e in f.entries;
  }

  lemma LevelsNewer(v: Version, l: nat, m: nat, x: Entry, y: Entry)
    requires ValidVersion(v) && l < m < NUM_LEVELS
    requires x in Contents(v[l]) && y in Contents(v[m]) && SameUserKey(x, y)
    ensures x.key.sequence > y.key.sequence
  {
    NewerThan(Contents(v[l]), Contents(v[m]), x, y);
  }

  /** The inputs are files of the version, one row at each of two neighbouring levels. */
  ghost predicate RowsOf(v: Version, c: CompactionInputs) {
    && c.level + 1 < NUM_LEVELS
    && (forall f | f in c.inputs0 :: f in v[c.level])
    && (forall f | f in c.inputs1 :: f in v[c.level + 1])
  }

  /** A file of the version that the compaction does not take. */
  ghost predicate Stays(v: Version, c: CompactionInputs, l: nat, f: File) {
    l < NUM_LEVELS && f in v[l] && (l == c.level ==> f !in c.inputs0) && (l == c.level + 1 ==> f !in c.inputs1)
  }

  lemma StaysIn(v: Version, c: CompactionInputs, l: nat, f: File)
    requires Stays(v, c, l, f)
    ensures l < NUM_LEVELS && f in v[l]
  {
  }

  /** What the version holds outside the compaction's inputs. */
  ghost function Rest(v: Version, c: CompactionInputs): set<Entry> {
    set l, f, e | 0 <= l < NUM_LEVELS && f in v[l] && Stays(v, c, l, f) && e in f.entries :: e
  }

  lemma RestMember(v: Version, c: CompactionInputs, l: nat, f: File, e: Entry)
    requires Stays(v, c, l, f) && e in f.entries
    ensures e in Rest(v, c)
  {
  }

  lemma RestFile(v: Version, c: CompactionInputs, e: Entry) returns (l: nat, f: File)
    requires e in Rest(v, c)
    ensures Stays(v, c, l, f) && e in f.entries
  {
    l, f :| 0 <= l < NUM_LEVELS && f in v[l] && Stays(v, c, l, f) && e in f.entries;
  }

  /** The row and the level an input entry comes from. */
  lemma InputLevel(v: Version, c: CompactionInputs, e: Entry) returns (m: nat, f: File)
    requires RowsOf(v, c) && e in c.Entries()
    ensures m == c.level || m == c.level + 1
    ensures f in (if m == c.level then c.inputs0 else c.inputs1) && e in f.entries
    ensures e in Contents(v[m]) && e in VersionContents(v)
  {
    if e in Contents(c.inputs0) {
      m := c.level;
      f := FileOf(c.inputs0, e);
    } else {
      m := c.level + 1;
      f := FileOf(c.inputs1, e);
    }
    VersionMember(v, m, f, e);
  }

  lemma ContentsBefore(v: Version, c: CompactionInputs)
    requires RowsOf(v, c)
    ensures VersionContents(v) == c.Entries() + Rest(v, c)
  {
    forall e | e in VersionContents(v) ensures e in c.Entries() + Rest(v, c) {
      var l :| 0 <= l < NUM_LEVELS && e in Contents(v[l]);
      hide Contents, VersionContents, Rest;
      var f := FileOf(v[l], e);
      if Stays(v, c, l, f) {
        RestMember(v, c, l, f, e);
      } else {
        ContentsMember(if l == c.level then c.inputs0 else c.inputs1, f, e);
      }
    }
    hide Contents, VersionContents, Rest;
    forall e | e in c.Entries() + Rest(v, c) ensures e in VersionContents(v) {
      if e in Rest(v, c) {
        var l, f := RestFile(v, c, e);
        VersionMember(v, l, f, e);
      } else {
        var m, f := InputLevel(v, c, e);
      }
    }
  }

  // ---------------------------------------------------------------- after the install

  /** v' is v with the inputs replaced by the outputs, one level below the first row. */
  ghost predicate Installed(v: Version, v': Version, c: CompactionInputs, outputs: seq<File>) {
    RowsOf(v, c) && Replaced(v, v', c.level, FileSet(c.inputs0), FileSet(c.inputs1), FileSet(outputs))
  }

  /** Outputs as a compaction writes them, holding nothing but input entries. */
  ghost predicate OutputsOf(c: CompactionInputs, outputs: seq<File>) {
    && ValidFiles(outputs) && SortedLevel(outputs) && DistinctNumbers(outputs)
    && Contents(outputs) <= c.Entries()
  }

  lemma OutputsFromInputs(c: CompactionInputs, outputs: seq<File>)
    requires OutputsOf(c, outputs)
    ensures Contents(outputs) <= c.Entries()
  {
  }

  lemma FilesAfter(v: Version, v': Version, c: CompactionInputs, outputs: seq<File>, l: nat, f: File)
    requires Installed(v, v', c, outputs) && l < NUM_LEVELS
    ensures f in v'[l] <==> Stays(v, c, l, f) || (l == c.level + 1 && f in outputs)
  {
    hide OrderedVersion, DistinctNumbers;
    assert forall f :: f in FileSet(outputs) <==> f in outputs;
    assert forall f :: f in FileSet(c.inputs0) <==> f in c.inputs0;
    assert forall f :: f in FileSet(c.inputs1) <==> f in c.inputs1;
    if l != c.level && l != c.level + 1 {
      assert v'[l] == v[l];
    }
  }

  /** An entry after the install: its file stayed, or an output brought it. */
  lemma EntryAfter(v: Version, v': Version, c: CompactionInputs, outputs: seq<File>, l: nat, e: Entry) returns (f: File)
    requires Installed(v, v', c, outputs) && l < NUM_LEVELS && e in Contents(v'[l])
    ensures e in f.entries
    ensures Stays(v, c, l, f) || (l == c.level + 1 && f in outputs && e in Contents(outputs))
  {
    hide Installed, Stays, Contents;
    f := FileOf(v'[l], e);
    FilesAfter(v, v', c, outputs, l, f);
    if f in outputs {
      ContentsMember(outputs, f, e);
    }
  }

  lemma ContentsAfter(v: Version, v': Version, c: CompactionInputs, outputs: seq<File>)
    requires Installed(v, v', c, outputs)
    ensures VersionContents(v') == Contents(outputs) + Rest(v, c)
  {
    assert c.level + 1 < NUM_LEVELS;
    hide Installed;
    forall e | e in VersionContents(v') ensures e in Contents(outputs) + Rest(v, c) {
      var l :| 0 <= l < NUM_LEVELS && e in Contents(v'[l]);
      hide Contents, VersionContents, Rest, Stays;
      var f := EntryAfter(v, v', c, outputs, l, e);
      if Stays(v, c, l, f) {
        RestMember(v, c, l, f, e);
      }
    }
    hide Contents, VersionContents, Rest, Stays;
    forall e | e in Contents(outputs) + Rest(v, c) ensures e in VersionContents(v') {
      var l, f;
      if e in Contents(outputs) {
        l := c.level + 1;
        f := FileOf(outputs, e);
      } else {
        l, f := RestFile(v, c, e);
        StaysIn(v, c, l, f);
      }
      FilesAfter(v, v', c, outputs, l, f);
      VersionMember(v', l, f, e);
    }
  }

  /** Installing adds no entry. */
  lemma ContentsShrink(v: Version, v': Version, c: CompactionInputs, outputs: seq<File>)
    requires Installed(v, v', c, outputs) && Contents(outputs) <= c.Entries()
    ensures VersionContents(v') <= VersionContents(v)
  {
    hide VersionContents, Contents, Rest, Replaced, CompactionInputs.Entries;
    ContentsAfter(v, v', c, outputs);
    ContentsBefore(v, c);
  }

  // ---------------------------------------------------------------- the two conditions on an install

  /** What stays in the first row's level is newer, key by key, than what the outputs hold. */
  ghost predicate FirstRowNewer(v: Version, c: CompactionInputs, outputs: seq<File>)
    requires c.level + 1 < NUM_LEVELS
  {
    forall g | g in v[c.level] && g !in c.inputs0 :: Newer(ToSet(g.entries), Contents(outputs))
  }

  /** What stays in the output level stands clear of every output. */
  ghost predicate OutputsClear(v: Version, c: CompactionInputs, outputs: seq<File>)
    requires c.level + 1 < NUM_LEVELS
  {
    forall g, o | g in v[c.level + 1] && g !in c.inputs1 && o in outputs :: Lined(g, o)
  }

  lemma SparedIsNewer(v: Version, c: CompactionInputs, outputs: seq<File>, g: File, x: Entry, y: Entry)
    requires c.level + 1 < NUM_LEVELS && FirstRowNewer(v, c, outputs) && Stays(v, c, c.level, g)
    requires x in g.entries && y in Contents(outputs) && SameUserKey(x, y)
    ensures x.key.sequence > y.key.sequence
  {
    hide Contents;
    assert x in ToSet(g.entries);
    NewerThan(ToSet(g.entries), Contents(outputs), x, y);
  }

  lemma NewerAfter(v: Version, v': Version, c: CompactionInputs, outputs: seq<File>, l: nat, m: nat, x: Entry, y: Entry)
    requires ValidVersion(v) && Installed(v, v', c, outputs) && Contents(outputs) <= c.Entries()
    requires FirstRowNewer(v, c, outputs) && l < m < NUM_LEVELS
    requires x in Contents(v'[l]) && y in Contents(v'[m]) && SameUserKey(x, y)
    ensures x.key.sequence > y.key.sequence
  {
    assert RowsOf(v, c);
    hide ValidVersion, Installed, FirstRowNewer, RowsOf, Stays, Contents, VersionContents, CompactionInputs.Entries;
    var f := EntryAfter(v, v', c, outputs, l, x);
    var g := EntryAfter(v, v', c, outputs, m, y);
    var a, b := l, m;
    if Stays(v, c, l, f) {
      StaysIn(v, c, l, f);
      VersionMember(v, l, f, x);
    } else {
      var i, h := InputLevel(v, c, x);
      a := i;
    }
    if Stays(v, c, m, g) {
      StaysIn(v, c, m, g);
      VersionMember(v, m, g, y);
    } else {
      var i, h := InputLevel(v, c, y);
      b := i;
    }
    if a < b {
      LevelsNewer(v, a, b, x, y);
    } else {
      SparedIsNewer(v, c, outputs, f, x, y);
    }
  }

  lemma StillNewer(v: Version, v': Version, c: CompactionInputs, outputs: seq<File>, l: nat, m: nat)
    requires ValidVersion(v) && Installed(v, v', c, outputs) && Contents(outputs) <= c.Entries()
    requires FirstRowNewer(v, c, outputs) && l < m < NUM_LEVELS
    ensures Newer(Contents(v'[l]), Contents(v'[m]))
  {
    hide ValidVersion, Installed, FirstRowNewer, Contents, CompactionInputs.Entries;
    forall x, y | x in Contents(v'[l]) && y in Contents(v'[m]) && SameUserKey(x, y)
      ensures x.key.sequence > y.key.sequence
    {
      NewerAfter(v, v', c, outputs, l, m, x, y);
    }
  }

  lemma LevelFiles(v: Version, l: nat)
    requires ValidVersion(v) && l < NUM_LEVELS
    ensures ValidFiles(v[l]) && DistinctNumbers(v[l]) && (l >= 1 ==> SortedLevel(v[l]))
  {
  }

  lemma FilesValidAfter(v: Version, v': Version, c: CompactionInputs, outputs: seq<File>, l: nat)
    requires ValidVersion(v) && Installed(v, v', c, outputs) && OutputsOf(c, outputs) && l < NUM_LEVELS
    ensures ValidFiles(v'[l]) && DistinctNumbers(v'[l])
    ensures OrderedFiles(v'[l])
  {
    LevelFiles(v, l);
    assert DistinctNumbers(v'[l]) && OrderedFiles(v'[l]) by { hide ValidVersion, OrderedFiles, DistinctNumbers; }
    assert ValidFiles(outputs);
    hide ValidVersion, FileMetaData.Valid, Installed, OutputsOf, OrderedFiles, DistinctNumbers, SortedLevel;
    forall f | f in v'[l] ensures f.Valid() {
      FilesAfter(v, v', c, outputs, l, f);
    }
  }

  lemma SortedAfter(v: Version, v': Version, c: CompactionInputs, outputs: seq<File>, l: nat)
    requires ValidVersion(v) && Installed(v, v', c, outputs) && OutputsOf(c, outputs)
    requires OutputsClear(v, c, outputs) && 1 <= l < NUM_LEVELS
    ensures SortedLevel(v'[l])
  {
    LevelFiles(v, l);
    FilesValidAfter(v, v', c, outputs, l);
    assert SortedLevel(outputs);
    hide ValidVersion, ValidFiles, Installed, OutputsOf, OrderedFiles, DistinctNumbers, SortedLevel, Lined;
    forall f, g | f in v'[l] && g in v'[l] && f != g ensures Lined(f, g) {
      FilesAfter(v, v', c, outputs, l, f);
      FilesAfter(v, v', c, outputs, l, g);
      if Stays(v, c, l, f) && Stays(v, c, l, g) {
        SortedMeansLined(v[l], f, g);
      } else if f in outputs && g in outputs {
        SortedMeansLined(outputs, f, g);
      } else {
        LinedEitherWay(f, g);
      }
    }
    LinedMeansSorted(v'[l]);
  }

  lemma LinedEitherWay(f: File, g: File)
    ensures Lined(f, g) <==> Lined(g, f)
  {
  }

  /** Level 0 only ever loses files to a compaction. */
  lemma NumberedAfter(v: Version, v': Version, c: CompactionInputs, outputs: seq<File>)
    requires ValidVersion(v) && Installed(v, v', c, outputs)
    ensures NumberedByAge(v'[0])
  {
    hide Newer, SortedLevel, ValidFiles, DistinctNumbers, Unique, OrderedVersion, VersionContents;
    assert NumberedByAge(v[0]);
    forall f | f in v'[0] ensures f in v[0] {
      hide NumberedByAge, Installed;
      FilesAfter(v, v', c, outputs, 0, f);
    }
    hide ValidVersion, Installed;
  }

  /** Under the two conditions the installed version is valid. */
  lemma InstalledIsValid(v: Version, v': Version, c: CompactionInputs, outputs: seq<File>)
    requires ValidVersion(v) && Installed(v, v', c, outputs) && OutputsOf(c, outputs)
    requires FirstRowNewer(v, c, outputs) && OutputsClear(v, c, outputs)
    ensures ValidVersion(v')
  {
    assert Unique(VersionContents(v'))  by {
      OutputsFromInputs(c, outputs);
      ContentsShrink(v, v', c, outputs);
      UniqueSubset(VersionContents(v'), VersionContents(v));
    }
    NumberedAfter(v, v', c, outputs);
    OutputsFromInputs(c, outputs);
    hide Installed, OutputsOf, FirstRowNewer, OutputsClear, Newer, ValidFiles, SortedLevel, DistinctNumbers, NumberedByAge, Unique, Contents, VersionContents, OrderedFiles;
    forall l | 0 <= l < NUM_LEVELS ensures ValidFiles(v'[l]) && DistinctNumbers(v'[l]) {
      FilesValidAfter(v, v', c, outputs, l);
    }
    forall l | 1 <= l < NUM_LEVELS ensures SortedLevel(v'[l]) {
      SortedAfter(v, v', c, outputs, l);
    }
    forall l, m | 0 <= l < m < NUM_LEVELS ensures Newer(Contents(v'[l]), Contents(v'[m])) {
      StillNewer(v, v', c, outputs, l, m);
    }
  }

  // ---------------------------------------------------------------- a pending compaction meets both

  /** v' is v after the pending compaction was installed with these outputs. */
  ghost predicate Compacted(v: Version, v': Version, c: CompactionInputs, outputs: seq<File>) {
    Pending(v, c) && Installed(v, v', c, outputs)
  }

  lemma CompactedParts(v: Version, v': Version, c: CompactionInputs, outputs: seq<File>)
    requires Compacted(v, v', c, outputs)
    ensures Pending(v, c) && Installed(v, v', c, outputs) && RowsOf(v, c)
  {
    hide Pending, Replaced;
  }

  lemma PendingLevel(v: Version, c: CompactionInputs)
    requires Pending(v, c)
    ensures c.level + 1 < NUM_LEVELS && RowsOf(v, c)
  {
  }

  /** Everything the inputs hold lies on one side of a file that is beside them. */
  lemma BesideEntry(v: Version, c: CompactionInputs, g: File, e: Entry)
    requires ValidVersion(v) && RowsOf(v, c) && Spans(FileSet(c.inputs0), c.smallest.userKey, c.largest.userKey)
    requires e in c.Entries()
    ensures LeftOf(g, c) ==> Before(g.largest, e.key)
    ensures RightOf(g, c) ==> Before(e.key, g.smallest)
  {
    hide ValidVersion, FileMetaData.Valid, Contents, VersionContents, SortedLevel, DistinctNumbers;
    var m, f := InputLevel(v, c, e);
    LevelFiles(v, m);
    EntryInRange(f, e);
    assert m == c.level ==> f in FileSet(c.inputs0);
  }

  lemma OutputBeside(v: Version, c: CompactionInputs, outputs: seq<File>, g: File, o: File)
    requires ValidVersion(v) && RowsOf(v, c) && Spans(FileSet(c.inputs0), c.smallest.userKey, c.largest.userKey)
    requires Beside(g, c) && OutputsOf(c, outputs) && o in outputs
    ensures Lined(g, o)
  {
    assert o.Valid();
    var first, last := o.entries[0], o.entries[|o.entries| - 1];
    hide ValidVersion, RowsOf, Spans, Sorted, CompactionInputs.Entries;
    ContentsMember(outputs, o, first);
    ContentsMember(outputs, o, last);
    BesideEntry(v, c, g, first);
    BesideEntry(v, c, g, last);
  }

  /** A file beside the compaction shares no key with the first row. */
  lemma BesideFirstRow(c: CompactionInputs, g: File, f: File)
    requires Spans(FileSet(c.inputs0), c.smallest.userKey, c.largest.userKey)
    requires Beside(g, c) && f in c.inputs0
    ensures g.largest.userKey < f.smallest.userKey || f.largest.userKey < g.smallest.userKey
  {
    assert f in FileSet(c.inputs0);
  }

  lemma PendingMeetsBoth(v: Version, c: CompactionInputs, outputs: seq<File>)
    requires ValidVersion(v) && Pending(v, c) && OutputsOf(c, outputs)
    ensures FirstRowNewer(v, c, outputs) && OutputsClear(v, c, outputs)
  {
    assert RowsOf(v, c);
    forall g | g in v[c.level] && g !in c.inputs0 ensures Newer(ToSet(g.entries), Contents(outputs)) {
      hide RowsOf, Beside, KnownOrClear, Spans;
      FirstRowOverBoth(v, c, g);
      OutputsFromInputs(c, outputs);
      hide Newer, ValidVersion, Contents, CompactionInputs.Entries, Pending;
      NewerSubset(ToSet(g.entries), c.Entries(), Contents(outputs));
    }
    hide OutputsOf, ValidVersion, NothingOlderLeft, KnownOrClear, Spans, Beside, Lined, RowsOf;
    forall g, o | g in v[c.level + 1] && g !in c.inputs1 && o in outputs ensures Lined(g, o) {
      OutputBeside(v, c, outputs, g, o);
    }
  }

  lemma FirstRowOverBoth(v: Version, c: CompactionInputs, g: File)
    requires ValidVersion(v) && RowsOf(v, c) && g in v[c.level]
    requires Newer(ToSet(g.entries), Contents(c.inputs0))
    ensures Newer(ToSet(g.entries), c.Entries())
  {
    hide ValidVersion, Contents, VersionContents;
    forall x, y | x in ToSet(g.entries) && y in c.Entries() && SameUserKey(x, y)
      ensures x.key.sequence > y.key.sequence
    {
      var m, f := InputLevel(v, c, y);
      if m == c.level {
        ContentsMember(c.inputs0, f, y);
      } else {
        VersionMember(v, c.level, g, x);
        LevelsNewer(v, c.level, m, x, y);
      }
    }
  }

  /** Installing a pending compaction leaves a valid version that holds the outputs and what stayed. */
  lemma CompactionKeepsValid(v: Version, v': Version, c: CompactionInputs, outputs: seq<File>)
    requires ValidVersion(v) && Compacted(v, v', c, outputs) && OutputsOf(c, outputs)
    ensures ValidVersion(v')
    ensures VersionContents(v') == Contents(outputs) + Rest(v, c)
    ensures VersionContents(v) == c.Entries() + Rest(v, c)
  {
    assert Pending(v, c) && Installed(v, v', c, outputs) && RowsOf(v, c);
    hide ValidVersion, Compacted, Pending, Installed, OutputsOf, RowsOf, FirstRowNewer, OutputsClear, Contents, VersionContents, Rest, CompactionInputs.Entries;
    PendingLevel(v, c);
    PendingMeetsBoth(v, c, outputs);
    InstalledIsValid(v, v', c, outputs);
    ContentsAfter(v, v', c, outputs);
    ContentsBefore(v, c);
  }

  // ---------------------------------------------------------------- reads survive

  /** Older data outside the inputs sits below the output level, in a file that the drop rule looks at. */
  lemma OlderIsDeeper(v: Version, c: CompactionInputs, e: Entry, r: Entry) returns (l: nat, g: File)
    requires ValidVersion(v) && Pending(v, c) && e in c.Entries() && r in Rest(v, c)
    requires SameUserKey(e, r) && r.key.sequence < e.key.sequence
    ensures c.level + 2 <= l < NUM_LEVELS && g in v[l] && r in g.entries
  {
    hide ValidVersion, Pending, Rest, Contents, VersionContents, RowsOf, CompactionInputs.Entries, Stays;
    PendingLevel(v, c);
    l, g := RestFile(v, c, r);
    StaysIn(v, c, l, g);
    VersionMember(v, l, g, r);
    var m, f := InputLevel(v, c, e);
    if l < m {
      LevelsNewer(v, l, m, r, e);
    } else if l <= c.level + 1 {
      StaysNewer(v, c, l, g, m, f, r, e);
    }
  }

  /** What stays at the two levels of the compaction is no older than the inputs there. */
  lemma StaysNewer(v: Version, c: CompactionInputs, l: nat, g: File, m: nat, f: File, r: Entry, e: Entry)
    requires ValidVersion(v) && Pending(v, c) && c.level <= m <= l <= c.level + 1
    requires Stays(v, c, l, g) && r in g.entries && SameUserKey(r, e)
    requires f in (if m == c.level then c.inputs0 else c.inputs1) && e in f.entries
    ensures r.key.sequence > e.key.sequence
  {
    hide ValidVersion, FileMetaData.Valid, KnownOrClear, Spans, Newer, Beside, Contents, SortedLevel, DistinctNumbers;
    LevelFiles(v, l);
    LevelFiles(v, m);
    if l == m {
      var row := if m == c.level then c.inputs0 else c.inputs1;
      ContentsMember(row, f, e);
      assert r in ToSet(g.entries);
      NewerThan(ToSet(g.entries), Contents(row), r, e);
    } else {
      BesideFirstRow(c, g, f);
      EntryInRange(g, r);
      EntryInRange(f, e);
      assert false;
    }
  }

  /** A file below the output level that holds a key of the inputs was there when the compaction was picked. */
  lemma DeeperIsKnown(v: Version, c: CompactionInputs, l: nat, g: File, r: Entry, e: Entry)
    requires ValidVersion(v) && Pending(v, c) && c.level + 2 <= l < NUM_LEVELS && g in v[l] && r in g.entries
    requires e in c.Entries() && SameUserKey(e, r)
    ensures g in c.version[l] && g.Covers(e.key.userKey)
  {
    hide ValidVersion, FileMetaData.Valid, Spans, Beside, NothingOlderLeft, Contents, VersionContents, SortedLevel, DistinctNumbers, CompactionInputs.Entries;
    LevelFiles(v, l);
    LevelFiles(v, c.level);
    LevelFiles(v, c.level + 1);
    var m, f := InputLevel(v, c, e);
    EntryInRange(g, r);
    EntryInRange(f, e);
    assert f in c.Files() && Overlap(f, g);
  }

  lemma OlderIsSeen(v: Version, c: CompactionInputs, M: set<Entry>)
    requires ValidVersion(v) && Pending(v, c) && Newer(M, VersionContents(v))
    ensures OlderIsAnnounced(c.Entries(), M + Rest(v, c), Base(c))
  {
    hide ValidVersion, Pending, Rest, Contents, VersionContents, RowsOf, CompactionInputs.Entries, Newer, Stays;
    PendingLevel(v, c);
    ContentsBefore(v, c);
    forall e, r | e in c.Entries() && r in M + Rest(v, c) && SameUserKey(e, r) && r.key.sequence < e.key.sequence
      ensures !Base(c)(e.key.userKey)
    {
      if r in M {
        NewerThan(M, VersionContents(v), r, e);
      } else {
        var l, g := OlderIsDeeper(v, c, e, r);
        DeeperIsKnown(v, c, l, g, r, e);
      }
    }
  }

  /** Every reader at or above the smallest snapshot sees the same before and after the install. */
  lemma CompactionPreservesReads(v: Version, v': Version, c: CompactionInputs, outputs: seq<File>, floor: nat,
                                 M: set<Entry>, k: UserKey, s: nat)
    requires ValidVersion(v) && Compacted(v, v', c, outputs) && OutputsOf(c, outputs)
    requires Contents(outputs) == Survivors(c.Entries(), floor, Base(c))
    requires Newer(M, VersionContents(v)) && Unique(M + VersionContents(v)) && floor <= s
    ensures Read(M + VersionContents(v'), k, s) == Read(M + VersionContents(v), k, s)
  {
    hide *;
    CompactedParts(v, v', c, outputs);
    CompactionKeepsValid(v, v', c, outputs);
    OlderIsSeen(v, c, M);
    var I, R := c.Entries(), M + Rest(v, c);
    assert I + R == M + VersionContents(v);
    DropsPreserveReads(I, R, floor, Base(c), k, s);
    assert Survivors(I, floor, Base(c)) + R == M + VersionContents(v');
  }

  // ---------------------------------------------------------------- disjoint levels stay disjoint

  /** When every snapshot sees all of the input, no key is cut between two outputs. */
  lemma OutputsDisjoint(c: CompactionInputs, outputs: seq<File>, floor: nat, f: File, g: File)
    requires OutputsOf(c, outputs) && Unique(c.Entries())
    requires Contents(outputs) == Survivors(c.Entries(), floor, Base(c))
    requires forall e | e in c.Entries() :: e.key.sequence <= floor
    requires f in outputs && g in outputs && Before(f.largest, g.smallest)
    ensures f.largest.userKey < g.smallest.userKey
  {
    assert f.Valid() && g.Valid();
    var a, b := f.entries[|f.entries| - 1], g.entries[0];
    hide Unique, Survivors, Base, CompactionInputs.Entries, Sorted, SortedLevel;
    ContentsMember(outputs, f, a);
    ContentsMember(outputs, g, b);
    if SameUserKey(a, b) {
      OneVersionSurvives(c.Entries(), floor, Base(c), a, b);
    }
  }

  /** A file that stayed in the output level shares no key with an output, if it shared none with its neighbours. */
  lemma OutputClear(v: Version, c: CompactionInputs, outputs: seq<File>, g: File, o: File)
    requires ValidVersion(v) && Pending(v, c) && OutputsOf(c, outputs) && DisjointLevel(v[c.level + 1])
    requires Stays(v, c, c.level + 1, g) && o in outputs
    ensures g.largest.userKey < o.smallest.userKey || o.largest.userKey < g.smallest.userKey
  {
    hide Sorted, NothingOlderLeft, KnownOrClear, ValidVersion, SortedLevel, DistinctNumbers, CompactionInputs.Entries, RowsOf, LeftOf, RightOf, Contents, Spans, DisjointLevel;
    var first, last := o.entries[0], o.entries[|o.entries| - 1];
    ContentsMember(outputs, o, first);
    ContentsMember(outputs, o, last);
    PendingLevel(v, c);
    ClearOfEntry(v, c, g, first);
    ClearOfEntry(v, c, g, last);
  }

  lemma ClearOfEntry(v: Version, c: CompactionInputs, g: File, e: Entry)
    requires ValidVersion(v) && RowsOf(v, c) && Spans(FileSet(c.inputs0), c.smallest.userKey, c.largest.userKey)
    requires DisjointLevel(v[c.level + 1]) && Stays(v, c, c.level + 1, g) && e in c.Entries()
    ensures LeftOf(g, c) ==> g.largest.userKey < e.key.userKey
    ensures RightOf(g, c) ==> e.key.userKey < g.smallest.userKey
  {
    hide ValidVersion, FileMetaData.Valid, Contents, VersionContents, SortedLevel, DistinctNumbers, CompactionInputs.Entries;
    LevelFiles(v, c.level);
    LevelFiles(v, c.level + 1);
    var m, f := InputLevel(v, c, e);
    EntryInRange(f, e);
    SmallestToLargest(g);
    if m == c.level {
      assert f in FileSet(c.inputs0);
    } else {
      SmallestToLargest(f);
      assert f in v[c.level + 1] && f != g;
    }
  }

  /** With outputs that cut no key, every level stays disjoint. */
  lemma ApartOutputsKeepDisjoint(v: Version, v': Version, c: CompactionInputs, outputs: seq<File>)
    requires ValidVersion(v) && DisjointVersion(v) && Compacted(v, v', c, outputs) && OutputsOf(c, outputs)
    requires DisjointLevel(outputs)
    ensures DisjointVersion(v')
  {
    assert Pending(v, c) && Installed(v, v', c, outputs) && c.level + 1 < NUM_LEVELS;
    hide ValidVersion, Compacted, Pending, Installed, OutputsOf;
    forall l, f, g | 1 <= l < NUM_LEVELS && f in v'[l] && g in v'[l] && f != g
      ensures f.largest.userKey < g.smallest.userKey || g.largest.userKey < f.smallest.userKey
    {
      FilesAfter(v, v', c, outputs, l, f);
      FilesAfter(v, v', c, outputs, l, g);
      assert DisjointLevel(v[l]);
      if Stays(v, c, l, f) && !Stays(v, c, l, g) {
        OutputClear(v, c, outputs, f, g);
      } else if !Stays(v, c, l, f) && Stays(v, c, l, g) {
        OutputClear(v, c, outputs, g, f);
      }
    }
  }

  lemma CompactionKeepsDisjoint(v: Version, v': Version, c: CompactionInputs, outputs: seq<File>, floor: nat)
    requires ValidVersion(v) && DisjointVersion(v) && Compacted(v, v', c, outputs) && OutputsOf(c, outputs)
    requires Contents(outputs) == Survivors(c.Entries(), floor, Base(c))
    requires forall e | e in c.Entries() :: e.key.sequence <= floor
    ensures DisjointVersion(v')
  {
    assert SortedLevel(outputs);
    assert Unique(c.Entries()) by {
      PendingLevel(v, c);
      ContentsBefore(v, c);
      UniqueSubset(c.Entries(), VersionContents(v));
    }
    hide ValidVersion, DisjointVersion, Compacted, OutputsOf, Unique, Survivors, Contents, SortedLevel, CompactionInputs.Entries;
    forall f, g | f in outputs && g in outputs && f != g
      ensures f.largest.userKey < g.smallest.userKey || g.largest.userKey < f.smallest.userKey
    {
      SortedMeansLined(outputs, f, g);
      if Before(f.largest, g.smallest) {
        OutputsDisjoint(c, outputs, floor, f, g);
      } else {
        OutputsDisjoint(c, outputs, floor, g, f);
      }
    }
    ApartOutputsKeepDisjoint(v, v', c, outputs);
  }

  // ---------------------------------------------------------------- trivial moves

  /** A trivial move is the compaction whose output is its one input, unread. */
  lemma MoveIsCompaction(c: CompactionInputs)
    requires |c.inputs0| == 1 && c.inputs1 == []
    ensures MoveEdit(c) == CompactionEdit(c, c.inputs0)
    ensures FileSet(c.inputs1) == {} && Contents(c.inputs0) == c.Entries()
  {
    var f := c.inputs0[0];
    assert c.inputs0 == [f] && c.inputs0[1..] == [];
    assert FilesAt(c.level + 1, c.inputs0) == [(c.level + 1, f)] + FilesAt(c.level + 1, []);
    assert Numbers(c.level, c.inputs0) == {(c.level, f.number)};
    assert Numbers(c.level + 1, []) == {};
    assert Contents(c.inputs1) == {};
  }

  lemma MoveOutputs(v: Version, c: CompactionInputs)
    requires |c.inputs0| == 1 && c.inputs1 == [] && RowsOf(v, c) && ValidFiles(v[c.level])
    ensures OutputsOf(c, c.inputs0)
  {
    hide FileMetaData.Valid;
  }

  lemma OneFileDisjoint(fs: seq<File>)
    requires |fs| == 1
    ensures DisjointLevel(fs)
  {
  }

  lemma MoveKeepsDisjoint(v: Version, v': Version, c: CompactionInputs)
    requires ValidVersion(v) && DisjointVersion(v) && Compacted(v, v', c, c.inputs0) && OutputsOf(c, c.inputs0)
    requires |c.inputs0| == 1
    ensures DisjointVersion(v')
  {
    hide ValidVersion, DisjointVersion, Compacted, OutputsOf, DisjointLevel;
    OneFileDisjoint(c.inputs0);
    ApartOutputsKeepDisjoint(v, v', c, c.inputs0);
  }
}
