/**
  Where installing goes wrong.  The code picks files by user-key ranges and never checks that a key whose
  versions an old snapshot kept is not cut between two files, nor that a gap in a manual compaction's inputs
  stays empty while a memtable is flushed in the middle of it.  The exact conditions are in InstallReads;
  here is, for each, a database that the code can reach and that does not meet it.
*/
module SplitKeys {
  import opened InternalKeys
  import opened Versions
  import opened VersionEdits
  import opened Picking
  import opened DropRules
  import opened CompactionWork
  import opened Installing
  import opened Flushing

  // ---------------------------------------------------------------- a key cut between two files

  const KEPT := Entry(InternalKey(1.0, 5, TypeValue), [])
  const NEW_VERSION := Entry(InternalKey(2.0, 9, TypeValue), [1])
  const OLD_VERSION := Entry(InternalKey(2.0, 3, TypeValue), [2])

  const OLD_TABLE := FileMetaData(3, 20, KEPT.key, OLD_VERSION.key, [KEPT, OLD_VERSION])
  const NEW_TABLE := FileMetaData(4, 10, NEW_VERSION.key, NEW_VERSION.key, [NEW_VERSION])
  const LEFT_FILE := FileMetaData(5, 20, KEPT.key, NEW_VERSION.key, [KEPT, NEW_VERSION])
  const RIGHT_FILE := FileMetaData(6, 10, OLD_VERSION.key, OLD_VERSION.key, [OLD_VERSION])

  const WHOLE: Version := [[OLD_TABLE, NEW_TABLE], [], [], [], [], [], []]
  const SPLIT: Version := [[], [LEFT_FILE, RIGHT_FILE], [], [], [], [], []]
  const MOVED: Version := [[], [RIGHT_FILE], [LEFT_FILE], [], [], [], []]

  const MERGE_BOTH := CompactionInputs(0, [OLD_TABLE, NEW_TABLE], [], [], KEPT.key, OLD_VERSION.key, WHOLE)
  const MOVE_LEFT := CompactionInputs(1, [LEFT_FILE], [], [], KEPT.key, NEW_VERSION.key, SPLIT)

  /** Ten bytes an entry, and a new file at `limit` bytes. */
  function CutAt(limit: nat): Cutting {
    Cutting(limit, (es: seq<Entry>) => 10 * |es|, [], 0, (n: nat) => 0)
  }

  lemma FilesOfSplit()
    ensures LEFT_FILE.Valid() && RIGHT_FILE.Valid()
    ensures Contents([]) == {} && Contents([LEFT_FILE]) == {KEPT, NEW_VERSION} && Contents([RIGHT_FILE]) == {OLD_VERSION}
    ensures Contents([LEFT_FILE, RIGHT_FILE]) == {KEPT, NEW_VERSION, OLD_VERSION}
  {
    assert LEFT_FILE in [LEFT_FILE] && RIGHT_FILE in [RIGHT_FILE];
    assert LEFT_FILE in [LEFT_FILE, RIGHT_FILE] && RIGHT_FILE in [LEFT_FILE, RIGHT_FILE];
    assert KEPT in LEFT_FILE.entries && NEW_VERSION in LEFT_FILE.entries && OLD_VERSION in RIGHT_FILE.entries;
  }

  lemma FilesOfWhole()
    ensures OLD_TABLE.Valid() && NEW_TABLE.Valid()
    ensures Contents([OLD_TABLE, NEW_TABLE]) == {KEPT, NEW_VERSION, OLD_VERSION}
    ensures Newer(ToSet(NEW_TABLE.entries), ToSet(OLD_TABLE.entries))
  {
    assert OLD_TABLE in [OLD_TABLE, NEW_TABLE] && NEW_TABLE in [OLD_TABLE, NEW_TABLE];
    assert KEPT in OLD_TABLE.entries && OLD_VERSION in OLD_TABLE.entries && NEW_VERSION in NEW_TABLE.entries;
  }

  lemma SplitIsValid()
    ensures ValidVersion(SPLIT)
    ensures VersionContents(SPLIT) == {KEPT, NEW_VERSION, OLD_VERSION}
  {
    FilesOfSplit();
    hide Contents, FileMetaData.Valid;
    assert forall l | 0 <= l < NUM_LEVELS && l != 1 :: SPLIT[l] == [];
    assert SPLIT[1] == [LEFT_FILE, RIGHT_FILE];
    NothingIsNewer({});
    assert VersionContents(SPLIT) == {KEPT, NEW_VERSION, OLD_VERSION} by {
      assert KEPT in Contents(SPLIT[1]) && NEW_VERSION in Contents(SPLIT[1]) && OLD_VERSION in Contents(SPLIT[1]);
    }
  }

  lemma WholeIsValid()
    ensures ValidVersion(WHOLE)
  {
    FilesOfWhole();
    FilesOfSplit();
    hide Contents, FileMetaData.Valid, Newer;
    assert forall l | 0 <= l < NUM_LEVELS && l != 0 :: WHOLE[l] == [];
    assert WHOLE[0] == [OLD_TABLE, NEW_TABLE];
    NothingIsNewer({});
    NothingIsNewer({KEPT, NEW_VERSION, OLD_VERSION});
    assert forall e | e in VersionContents(WHOLE) :: e in {KEPT, NEW_VERSION, OLD_VERSION};
  }

  lemma MergeBothIsPicked()
    ensures PickedFrom(WHOLE, MERGE_BOTH) && Gapless(MERGE_BOTH.Files())
  {
    var c := MERGE_BOTH;
    assert c.inputs0 == [OLD_TABLE, NEW_TABLE] && c.inputs1 == [];
    assert OLD_TABLE in FileSet(c.inputs0) && NEW_TABLE in FileSet(c.inputs0);
    assert WHOLE[0] == c.inputs0 && WHOLE[1] == [];
    forall f, g, k | f in c.Files() && g in c.Files() && Between(f, g, k) ensures Covered(c.Files(), k) {
      CoveredByOne(c.Files(), OLD_TABLE, k);
    }
  }

  lemma MergedInput()
    ensures Collate([OLD_TABLE, NEW_TABLE]) == [KEPT, NEW_VERSION, OLD_VERSION]
  {
    var a, b := [KEPT, OLD_VERSION], [NEW_VERSION];
    assert [OLD_TABLE, NEW_TABLE][1..] == [NEW_TABLE] && [NEW_TABLE][1..] == [];
    assert Merge(b, []) == b;
    assert Collate([NEW_TABLE]) == b;
    assert a[1..] == [OLD_VERSION] && b[1..] == [];
    assert Merge([OLD_VERSION], []) == [OLD_VERSION];
    assert Merge([OLD_VERSION], b) == [NEW_VERSION] + [OLD_VERSION];
    assert Merge(a, b) == [KEPT] + Merge([OLD_VERSION], b);
  }

  /** With a snapshot at 5 nothing may be dropped. */
  lemma AllSurvive()
    ensures Survivors({KEPT, NEW_VERSION, OLD_VERSION}, 5, Base(MERGE_BOTH)) == {KEPT, NEW_VERSION, OLD_VERSION}
  {
  }

  /** With no grandparents an output is cut by size alone. */
  lemma NextEntry(cut: Cutting, input: seq<Entry>, S: set<Entry>, firstNumber: nat, i: nat, o: Output, seen: bool)
    requires i < |input| && input[i] in S && cut.grandparents == []
    requires Produced(cut, input, S, firstNumber, i) == (o, Passing(0, seen, 0))
    ensures Produced(cut, input, S, firstNumber, i + 1) == (Placed(cut, o, false, input[i], true), Passing(0, true, 0))
  {
    hide Placed;
    assert PassKey([], cut.limit, Passing(0, seen, 0), input[i].key) == (Passing(0, true, 0), false);
  }

  lemma CutInTwo()
    ensures var o := Outputs(CutAt(20), [KEPT, NEW_VERSION, OLD_VERSION], {KEPT, NEW_VERSION, OLD_VERSION}, 5);
            o.files == [LEFT_FILE, RIGHT_FILE] && o.nextNumber == 7
  {
    var cut, input, S := CutAt(20), [KEPT, NEW_VERSION, OLD_VERSION], {KEPT, NEW_VERSION, OLD_VERSION};
    var o0, o1 := Output([], 0, [], 5), Output([], 5, [KEPT], 6);
    var o2, o3 := Output([LEFT_FILE], 5, [], 6), Output([LEFT_FILE], 6, [OLD_VERSION], 7);
    assert Produced(cut, input, S, 5, 0) == (o0, UNPASSED);
    PlacedInTwo();
    hide Produced, Placed;
    NextEntry(cut, input, S, 5, 0, o0, false);
    NextEntry(cut, input, S, 5, 1, o1, true);
    NextEntry(cut, input, S, 5, 2, o2, true);
  }

  lemma PlacedInTwo()
    ensures Placed(CutAt(20), Output([], 0, [], 5), false, KEPT, true) == Output([], 5, [KEPT], 6)
    ensures Placed(CutAt(20), Output([], 5, [KEPT], 6), false, NEW_VERSION, true) == Output([LEFT_FILE], 5, [], 6)
    ensures Placed(CutAt(20), Output([LEFT_FILE], 5, [], 6), false, OLD_VERSION, true) == Output([LEFT_FILE], 6, [OLD_VERSION], 7)
    ensures CloseIf(Output([LEFT_FILE], 6, [OLD_VERSION], 7), true, CutAt(20).sizeOf).files == [LEFT_FILE, RIGHT_FILE]
  {
    assert [KEPT] + [NEW_VERSION] == [KEPT, NEW_VERSION];
    assert [] + [LEFT_FILE] == [LEFT_FILE] && [LEFT_FILE] + [RIGHT_FILE] == [LEFT_FILE, RIGHT_FILE];
  }

  lemma MergeChanges(l: nat)
    requires l < NUM_LEVELS
    ensures NewAt(CompactionEdit(MERGE_BOTH, [LEFT_FILE, RIGHT_FILE]).newFiles, l)
         == if l == 1 then [LEFT_FILE, RIGHT_FILE] else []
    ensures DeletedAt(CompactionEdit(MERGE_BOTH, [LEFT_FILE, RIGHT_FILE]), l) == if l == 0 then {3, 4} else {}
  {
    hide CompactionEdit;
    CompactionAdds(MERGE_BOTH, [LEFT_FILE, RIGHT_FILE], l);
    CompactionDeletes(MERGE_BOTH, [LEFT_FILE, RIGHT_FILE], l);
    assert OLD_TABLE in MERGE_BOTH.inputs0 && NEW_TABLE in MERGE_BOTH.inputs0;
    assert NumberSet(MERGE_BOTH.inputs0) == {3, 4} && NumberSet(MERGE_BOTH.inputs1) == {};
  }

  lemma MergedLevels()
    ensures SaveLevel([OLD_TABLE, NEW_TABLE], ApplyLevel(FRESH_LEVEL, {3, 4}, [])) == []
    ensures SaveLevel([], ApplyLevel(FRESH_LEVEL, {}, [LEFT_FILE, RIGHT_FILE])) == [LEFT_FILE, RIGHT_FILE]
  {
    var st := LevelState({3, 4}, []);
    assert ApplyLevel(FRESH_LEVEL, {3, 4}, []) == st;
    assert [OLD_TABLE, NEW_TABLE][1..] == [NEW_TABLE] && [NEW_TABLE][1..] == [];
    assert SaveLevel([NEW_TABLE], st) == [] + SaveLevel([], st);
    assert SaveLevel([OLD_TABLE, NEW_TABLE], st) == [] + SaveLevel([NEW_TABLE], st);
    var none: set<nat> := {};
    var both := [LEFT_FILE, RIGHT_FILE];
    assert both[1..] == [RIGHT_FILE] && [RIGHT_FILE][1..] == [];
    assert none + none == none && none - {5} == none && none - {6} == none;
    assert InsertFile([LEFT_FILE], RIGHT_FILE) == [LEFT_FILE] + [RIGHT_FILE] == both by {
      assert [LEFT_FILE][1..] == [];
      assert InsertFile([], RIGHT_FILE) == [RIGHT_FILE];
    }
    assert AddAll(LevelState(none, both), []) == LevelState(none, both);
    assert AddAll(LevelState(none, [LEFT_FILE]), [RIGHT_FILE]) == LevelState(none, both);
    assert AddAll(LevelState(none, []), both) == LevelState(none, both);
    assert SaveLevel([], LevelState(none, [RIGHT_FILE])) == [RIGHT_FILE];
    assert SaveLevel([], LevelState(none, both)) == [LEFT_FILE] + SaveLevel([], LevelState(none, [RIGHT_FILE]));
  }

  lemma MergeMakesSplit()
    ensures NextVersion(WHOLE, CompactionEdit(MERGE_BOTH, [LEFT_FILE, RIGHT_FILE])) == SPLIT
  {
    var edit := CompactionEdit(MERGE_BOTH, [LEFT_FILE, RIGHT_FILE]);
    var v' := NextVersion(WHOLE, edit);
    MergedLevels();
    hide NextVersion, CompactionEdit, SaveLevel, ApplyLevel;
    forall l | 0 <= l < NUM_LEVELS ensures v'[l] == SPLIT[l] {
      NextLevel(WHOLE, edit, l);
      MergeChanges(l);
      assert WHOLE[0] == [OLD_TABLE, NEW_TABLE];
      if l != 0 && l != 1 {
        UntouchedLevel([]);
      }
    }
    assert v' == SPLIT;
  }

  /**
    How a key gets cut.  Two tables of level 0 are merged while a snapshot at 5 is live, so both versions of
    key 2.0 are kept; the output reaches its size between them and goes on in a second file.
  */
  lemma OldSnapshotSplitsKey()
    ensures ValidVersion(WHOLE) && PickedFrom(WHOLE, MERGE_BOTH) && Gapless(MERGE_BOTH.Files())
    ensures var input := Collate(MERGE_BOTH.inputs0 + MERGE_BOTH.inputs1);
            var o := Outputs(CutAt(20), input, Survivors(ToSet(input), 5, Base(MERGE_BOTH)), 5);
            o.files == [LEFT_FILE, RIGHT_FILE]
    ensures NextVersion(WHOLE, CompactionEdit(MERGE_BOTH, [LEFT_FILE, RIGHT_FILE])) == SPLIT
  {
    hide ValidVersion, PickedFrom, NextVersion, CompactionEdit, Outputs, Survivors, Gapless, Collate;
    WholeIsValid();
    MergeBothIsPicked();
    MergedInput();
    assert MERGE_BOTH.inputs0 + MERGE_BOTH.inputs1 == [OLD_TABLE, NEW_TABLE];
    assert ToSet([KEPT, NEW_VERSION, OLD_VERSION]) == {KEPT, NEW_VERSION, OLD_VERSION};
    AllSurvive();
    CutInTwo();
    MergeMakesSplit();
  }

  /**
    The left file of the pair is a legal choice for the next compaction and is simply moved down.  After
    that the search stops at level 1 with the old version of key 2.0, though the new one is still there.
  */
  lemma SplitKeyIsMisread()
    ensures ValidVersion(SPLIT) && PickedFrom(SPLIT, MOVE_LEFT) && Gapless(MOVE_LEFT.Files())
    ensures NextVersion(SPLIT, MoveEdit(MOVE_LEFT)) == MOVED
    ensures !NothingOlderLeft(SPLIT, MOVE_LEFT)
    ensures Search(SPLIT, 2.0, 9) == Newest(VersionContents(SPLIT), 2.0, 9) == Some(NEW_VERSION)
    ensures NEW_VERSION in VersionContents(MOVED) && Search(MOVED, 2.0, 9) == Some(OLD_VERSION)
  {
    SplitIsValid();
    MoveLeftIsPicked();
    MoveLeftMoves();
    SplitLookups();
    OldVersionLeft();
    StillThere();
    hide ValidVersion, PickedFrom, NextVersion, MoveEdit, Search, Gapless, NothingOlderLeft, VersionContents;
    NewestIs(VersionContents(SPLIT), 2.0, 9, NEW_VERSION);
  }

  lemma StillThere()
    ensures NEW_VERSION in VersionContents(MOVED)
  {
    assert LEFT_FILE in MOVED[2] && NEW_VERSION in LEFT_FILE.entries;
    VersionMember(MOVED, 2, LEFT_FILE, NEW_VERSION);
  }

  lemma OldVersionLeft()
    ensures !NothingOlderLeft(SPLIT, MOVE_LEFT)
  {
    FilesOfSplit();
    var a, b := ToSet(RIGHT_FILE.entries), Contents(MOVE_LEFT.inputs0);
    assert OLD_VERSION in a && NEW_VERSION in b && SameUserKey(OLD_VERSION, NEW_VERSION);
    assert !Newer(a, b);
    assert SPLIT[1] == [LEFT_FILE, RIGHT_FILE] && MOVE_LEFT.inputs0 == [LEFT_FILE];
    assert RIGHT_FILE in SPLIT[1] && RIGHT_FILE !in MOVE_LEFT.inputs0;
    hide Newer, Contents;
  }

  lemma AddOneFile(f: File)
    ensures ApplyLevel(FRESH_LEVEL, {}, [f]) == LevelState({}, [f])
  {
    var none: set<nat> := {};
    var before := LevelState(none, []);
    assert none + none == none && none - {f.number} == none;
    assert ApplyLevel(FRESH_LEVEL, {}, [f]) == AddAll(before, [f]);
    assert InsertFile([], f) == [f] + [] == [f] && [f][1..] == [];
    var st := LevelState(none, [f]);
    assert AddAll(st, []) == st;
    assert AddAll(before, [f]) == AddAll(st, []);
  }

  lemma MoveLeftIsPicked()
    ensures PickedFrom(SPLIT, MOVE_LEFT) && Gapless(MOVE_LEFT.Files())
  {
    assert MOVE_LEFT.inputs0 == [LEFT_FILE];
    assert FileSet([LEFT_FILE]) == {LEFT_FILE} && FileSet(MOVE_LEFT.inputs1) == {};
    assert MOVE_LEFT.Files() == {LEFT_FILE};
    OneFileGapless(LEFT_FILE);
    assert LEFT_FILE in {LEFT_FILE};
    assert SPLIT[2] == [];
  }

  lemma MoveLeftChanges(l: nat)
    requires l < NUM_LEVELS
    ensures NewAt(MoveEdit(MOVE_LEFT).newFiles, l) == if l == 2 then [LEFT_FILE] else []
    ensures DeletedAt(MoveEdit(MOVE_LEFT), l) == if l == 1 then {5} else {}
  {
    var edit := MoveEdit(MOVE_LEFT);
    assert edit.newFiles == [(2, LEFT_FILE)] && edit.newFiles[1..] == [];
    assert edit.deletedFiles == {(1, 5)};
    assert l == 1 ==> (1, 5) in edit.deletedFiles;
  }

  /** Level 1 keeps the right file, level 2 receives the left one. */
  lemma MovedLevels()
    ensures SaveLevel([LEFT_FILE, RIGHT_FILE], ApplyLevel(FRESH_LEVEL, {5}, [])) == [RIGHT_FILE]
    ensures SaveLevel([], ApplyLevel(FRESH_LEVEL, {}, [LEFT_FILE])) == [LEFT_FILE]
  {
    AddOneFile(LEFT_FILE);
    assert [LEFT_FILE][1..] == [];
    assert SaveLevel([], LevelState({}, [LEFT_FILE])) == [LEFT_FILE];
    var st := LevelState({5}, []);
    assert ApplyLevel(FRESH_LEVEL, {5}, []) == st;
    assert [LEFT_FILE, RIGHT_FILE][1..] == [RIGHT_FILE] && [RIGHT_FILE][1..] == [];
    assert SaveLevel([RIGHT_FILE], st) == [RIGHT_FILE] + SaveLevel([], st);
    assert SaveLevel([LEFT_FILE, RIGHT_FILE], st) == [] + SaveLevel([RIGHT_FILE], st);
  }

  lemma MoveLeftMoves()
    ensures NextVersion(SPLIT, MoveEdit(MOVE_LEFT)) == MOVED
  {
    var edit := MoveEdit(MOVE_LEFT);
    var v' := NextVersion(SPLIT, edit);
    MovedLevels();
    hide NextVersion, MoveEdit, SaveLevel, ApplyLevel;
    forall l | 0 <= l < NUM_LEVELS ensures v'[l] == MOVED[l] {
      NextLevel(SPLIT, edit, l);
      MoveLeftChanges(l);
      assert SPLIT[1] == [LEFT_FILE, RIGHT_FILE];
      if l != 1 && l != 2 {
        UntouchedLevel([]);
      }
    }
    assert v' == MOVED;
  }

  lemma SplitLookups()
    ensures Search(SPLIT, 2.0, 9) == Some(NEW_VERSION)
    ensures Search(MOVED, 2.0, 9) == Some(OLD_VERSION)
  {
    var target := SeekKey(2.0, 9);
    var fs := [LEFT_FILE, RIGHT_FILE];
    assert BinarySearch(fs, target, 0, 0) == 0;
    assert BinarySearch(fs, target, 0, 1) == 0;
    assert BinarySearch(fs, target, 0, 2) == 0;
    assert [KEPT, NEW_VERSION][1..] == [NEW_VERSION];
    assert LowerBound([NEW_VERSION], target) == 0;
    assert LowerBound([KEPT, NEW_VERSION], target) == 1;
    assert BinarySearch([RIGHT_FILE], target, 0, 0) == 0;
    assert BinarySearch([RIGHT_FILE], target, 0, 1) == 0;
    assert LowerBound([OLD_VERSION], target) == 0;
    FoundAtLevelOne(SPLIT, 2.0, 9);
    FoundAtLevelOne(MOVED, 2.0, 9);
  }

  lemma FoundAtLevelOne(v: Version, k: UserKey, s: nat)
    requires v[0] == [] && LevelLookup(v[1], k, s).Some?
    ensures Search(v, k, s) == LevelLookup(v[1], k, s)
  {
    hide LevelLookup;
    assert LevelZeroLookup([], k, s) == None;
    assert SearchFrom(v, 0, k, s) == SearchFrom(v, 1, k, s);
  }

  // ---------------------------------------------------------------- a deletion cut from what it deletes

  const ROW := Entry(InternalKey(1.0, 10, TypeValue), [])
  const HIDDEN := Entry(InternalKey(1.0, 5, TypeValue), [])
  const DELETION := Entry(InternalKey(2.0, 9, TypeDeletion), [])

  const ROW_FILE := FileMetaData(7, 10, ROW.key, ROW.key, [ROW])
  const DELETING := FileMetaData(5, 20, HIDDEN.key, DELETION.key, [HIDDEN, DELETION])
  const ROW_BELOW := FileMetaData(8, 10, ROW.key, ROW.key, [ROW])

  const HALF_DELETED: Version := [[], [ROW_FILE], [DELETING, RIGHT_FILE], [], [], [], []]
  const UNDELETED: Version := [[], [], [ROW_BELOW, RIGHT_FILE], [], [], [], []]
  const MERGE_ROW := CompactionInputs(1, [ROW_FILE], [DELETING], [], ROW.key, ROW.key, HALF_DELETED)

  lemma FilesOfHalf()
    ensures ROW_FILE.Valid() && DELETING.Valid() && RIGHT_FILE.Valid()
    ensures Contents([]) == {} && Contents([ROW_FILE]) == {ROW} && Contents([DELETING]) == {HIDDEN, DELETION}
    ensures Contents([DELETING, RIGHT_FILE]) == {HIDDEN, DELETION, OLD_VERSION}
  {
    assert ROW_FILE in [ROW_FILE] && ROW in ROW_FILE.entries && DELETING in [DELETING];
    assert DELETING in [DELETING, RIGHT_FILE] && RIGHT_FILE in [DELETING, RIGHT_FILE];
    assert HIDDEN in DELETING.entries && DELETION in DELETING.entries && OLD_VERSION in RIGHT_FILE.entries;
  }

  lemma HalfDeletedIsValid()
    ensures ValidVersion(HALF_DELETED)
  {
    FilesOfHalf();
    hide Contents, FileMetaData.Valid;
    assert forall l | 0 <= l < NUM_LEVELS && l != 1 && l != 2 :: HALF_DELETED[l] == [];
    assert HALF_DELETED[1] == [ROW_FILE] && HALF_DELETED[2] == [DELETING, RIGHT_FILE];
    assert Newer({ROW}, {HIDDEN, DELETION, OLD_VERSION});
    NothingIsNewer({});
    NothingIsNewer({ROW});
    NothingIsNewer({HIDDEN, DELETION, OLD_VERSION});
    hide Newer;
    assert forall e | e in VersionContents(HALF_DELETED) :: e in {ROW, HIDDEN, DELETION, OLD_VERSION};
  }

  lemma MergeRowIsPicked()
    ensures PickedFrom(HALF_DELETED, MERGE_ROW) && Gapless(MERGE_ROW.Files())
  {
    var c := MERGE_ROW;
    assert c.inputs0 == [ROW_FILE] && c.inputs1 == [DELETING];
    assert ROW_FILE in FileSet(c.inputs0) && DELETING in c.Files();
    assert HALF_DELETED[1] == [ROW_FILE] && HALF_DELETED[2] == [DELETING, RIGHT_FILE];
    assert [DELETING, RIGHT_FILE][1..] == [RIGHT_FILE] && [RIGHT_FILE][1..] == [];
    assert Overlapping([RIGHT_FILE], Some(1.0), Some(1.0)) == [];
    assert Overlapping([DELETING, RIGHT_FILE], Some(1.0), Some(1.0)) == [DELETING] + [];
    forall f, g, k | f in c.Files() && g in c.Files() && Between(f, g, k) ensures Covered(c.Files(), k) {
      CoveredByOne(c.Files(), DELETING, k);
    }
  }

  lemma OnlyRowSurvives()
    ensures Survivors(MERGE_ROW.Entries(), 10, Base(MERGE_ROW)) == {ROW}
  {
    FilesOfHalf();
    assert MERGE_ROW.inputs0 == [ROW_FILE] && MERGE_ROW.inputs1 == [DELETING];
    assert MERGE_ROW.Entries() == {ROW, HIDDEN, DELETION};
    hide Contents, FileMetaData.Valid, CompactionInputs.Entries;
    assert Shadowed({ROW, HIDDEN, DELETION}, 10, HIDDEN) by { assert ROW in {ROW, HIDDEN, DELETION}; }
    assert forall l | 3 <= l < NUM_LEVELS :: HALF_DELETED[l] == [];
    assert Base(MERGE_ROW)(2.0);
    assert Obsolete(10, Base(MERGE_ROW), DELETION);
  }

  lemma RowChanges(l: nat)
    requires l < NUM_LEVELS
    ensures NewAt(CompactionEdit(MERGE_ROW, [ROW_BELOW]).newFiles, l) == if l == 2 then [ROW_BELOW] else []
    ensures DeletedAt(CompactionEdit(MERGE_ROW, [ROW_BELOW]), l) == if l == 1 then {7} else if l == 2 then {5} else {}
  {
    hide CompactionEdit;
    CompactionAdds(MERGE_ROW, [ROW_BELOW], l);
    CompactionDeletes(MERGE_ROW, [ROW_BELOW], l);
    assert ROW_FILE in MERGE_ROW.inputs0 && DELETING in MERGE_ROW.inputs1;
    assert NumberSet(MERGE_ROW.inputs0) == {7} && NumberSet(MERGE_ROW.inputs1) == {5};
  }

  lemma RowLevels()
    ensures SaveLevel([ROW_FILE], ApplyLevel(FRESH_LEVEL, {7}, [])) == []
    ensures SaveLevel([DELETING, RIGHT_FILE], ApplyLevel(FRESH_LEVEL, {5}, [ROW_BELOW])) == [ROW_BELOW, RIGHT_FILE]
  {
    var gone := LevelState({7}, []);
    assert ApplyLevel(FRESH_LEVEL, {7}, []) == gone;
    assert [ROW_FILE][1..] == [] && SaveLevel([ROW_FILE], gone) == [] + SaveLevel([], gone);
    var st := LevelState({5}, [ROW_BELOW]);
    assert InsertFile([], ROW_BELOW) == [ROW_BELOW] && [ROW_BELOW][1..] == [];
    var none: set<nat> := {};
    assert none + {5} == {5} && {5} - {8} == {5};
    assert AddAll(st, []) == st && AddAll(LevelState({5}, []), [ROW_BELOW]) == AddAll(st, []);
    assert ApplyLevel(FRESH_LEVEL, {5}, [ROW_BELOW]) == st;
    var left := LevelState({5}, []);
    assert [DELETING, RIGHT_FILE][1..] == [RIGHT_FILE] && [RIGHT_FILE][1..] == [];
    assert SaveLevel([RIGHT_FILE], left) == [RIGHT_FILE] + SaveLevel([], left) == [RIGHT_FILE];
    assert SaveLevel([DELETING, RIGHT_FILE], left) == [] + SaveLevel([RIGHT_FILE], left);
    assert SaveLevel([DELETING, RIGHT_FILE], st) == [ROW_BELOW] + SaveLevel([DELETING, RIGHT_FILE], left);
  }

  lemma MergeUndeletes()
    ensures NextVersion(HALF_DELETED, CompactionEdit(MERGE_ROW, [ROW_BELOW])) == UNDELETED
  {
    var edit := CompactionEdit(MERGE_ROW, [ROW_BELOW]);
    var v' := NextVersion(HALF_DELETED, edit);
    RowLevels();
    hide NextVersion, CompactionEdit, SaveLevel, ApplyLevel;
    forall l | 0 <= l < NUM_LEVELS ensures v'[l] == UNDELETED[l] {
      NextLevel(HALF_DELETED, edit, l);
      RowChanges(l);
      if l != 1 && l != 2 {
        UntouchedLevel([]);
      }
    }
    assert v' == UNDELETED;
  }

  lemma HalfLookups()
    ensures Search(HALF_DELETED, 2.0, 10) == Some(DELETION)
    ensures Search(UNDELETED, 2.0, 10) == Some(OLD_VERSION)
  {
    var target := SeekKey(2.0, 10);
    var fs, gs := [DELETING, RIGHT_FILE], [ROW_BELOW, RIGHT_FILE];
    assert BinarySearch([ROW_FILE], target, 1, 1) == 1 && BinarySearch([ROW_FILE], target, 0, 1) == 1;
    assert LevelLookup([ROW_FILE], 2.0, 10) == None && LevelLookup([], 2.0, 10) == None;
    assert BinarySearch(fs, target, 0, 0) == 0;
    assert BinarySearch(fs, target, 0, 1) == 0 && BinarySearch(fs, target, 0, 2) == 0;
    assert [HIDDEN, DELETION][1..] == [DELETION];
    assert LowerBound([DELETION], target) == 0;
    assert LowerBound([HIDDEN, DELETION], target) == 1;
    assert LevelLookup(fs, 2.0, 10) == Some(DELETION);
    assert BinarySearch(gs, target, 1, 1) == 1;
    assert BinarySearch(gs, target, 0, 1) == 1 && BinarySearch(gs, target, 0, 2) == 1;
    assert LowerBound([OLD_VERSION], target) == 0;
    assert LevelLookup(gs, 2.0, 10) == Some(OLD_VERSION);
    hide LevelLookup, LevelZeroLookup;
    FoundAtLevelTwo(HALF_DELETED, 2.0, 10);
    FoundAtLevelTwo(UNDELETED, 2.0, 10);
  }

  /**
    A cut key whose newer half is a deletion.  A compaction takes the half with the deletion along and drops
    it, because no file below the output level covers the key; the older half, left behind in the output
    level itself, comes back to light.
  */
  lemma SplitDeletionIsUndone()
    ensures ValidVersion(HALF_DELETED) && PickedFrom(HALF_DELETED, MERGE_ROW) && Gapless(MERGE_ROW.Files())
    ensures Survivors(MERGE_ROW.Entries(), 10, Base(MERGE_ROW)) == {ROW} == ToSet(ROW_BELOW.entries)
    ensures NextVersion(HALF_DELETED, CompactionEdit(MERGE_ROW, [ROW_BELOW])) == UNDELETED
    ensures !NothingOlderLeft(HALF_DELETED, MERGE_ROW)
    ensures Search(HALF_DELETED, 2.0, 10) == Some(DELETION) && Search(UNDELETED, 2.0, 10) == Some(OLD_VERSION)
  {
    HalfDeletedIsValid();
    MergeRowIsPicked();
    OnlyRowSurvives();
    MergeUndeletes();
    HalfLookups();
    hide ValidVersion, PickedFrom, Survivors, NextVersion, CompactionEdit, Search, Gapless;
    assert ToSet(ROW_BELOW.entries) == {ROW};
    DeletedLeft();
  }

  lemma DeletedLeft()
    ensures !NothingOlderLeft(HALF_DELETED, MERGE_ROW)
  {
    var a, b := ToSet(RIGHT_FILE.entries), Contents(MERGE_ROW.inputs1);
    assert DELETING in MERGE_ROW.inputs1 && DELETION in DELETING.entries;
    assert OLD_VERSION in a && DELETION in b && SameUserKey(OLD_VERSION, DELETION);
    assert !Newer(a, b);
    assert RIGHT_FILE in HALF_DELETED[2] && RIGHT_FILE !in MERGE_ROW.inputs1;
    hide Newer, Contents;
  }

  // ---------------------------------------------------------------- a flush inside a gap

  const FIRST := Entry(InternalKey(1.0, 1, TypeValue), [])
  const MIDDLE := Entry(InternalKey(3.0, 7, TypeValue), [])
  const LAST := Entry(InternalKey(5.0, 2, TypeValue), [])

  const FILE_A := FileMetaData(3, 10, FIRST.key, FIRST.key, [FIRST])
  const FILE_B := FileMetaData(4, 10, LAST.key, LAST.key, [LAST])
  const FLUSHED := FileMetaData(5, 10, MIDDLE.key, MIDDLE.key, [MIDDLE])
  const MERGED := FileMetaData(6, 20, FIRST.key, LAST.key, [FIRST, LAST])

  const BEFORE_FLUSH: Version := [[], [FILE_A, FILE_B], [], [], [], [], []]
  const AFTER_FLUSH: Version := [[], [FILE_A, FILE_B], [FLUSHED], [], [], [], []]
  const COVERED_UP: Version := [[], [], [MERGED, FLUSHED], [], [], [], []]
  const ALL_OF_LEVEL_ONE := CompactionInputs(1, [FILE_A, FILE_B], [], [], FIRST.key, LAST.key, BEFORE_FLUSH)

  lemma FilesOfGap()
    ensures FILE_A.Valid() && FILE_B.Valid() && FLUSHED.Valid() && MERGED.Valid()
    ensures Contents([]) == {} && Contents([FILE_A, FILE_B]) == {FIRST, LAST}
  {
    assert FILE_A in [FILE_A, FILE_B] && FILE_B in [FILE_A, FILE_B];
    assert FIRST in FILE_A.entries && LAST in FILE_B.entries;
  }

  lemma BeforeFlushIsValid()
    ensures ValidVersion(BEFORE_FLUSH) && OrderedVersion(BEFORE_FLUSH)
    ensures VersionContents(BEFORE_FLUSH) == {FIRST, LAST}
  {
    FilesOfGap();
    hide Contents, FileMetaData.Valid;
    assert forall l | 0 <= l < NUM_LEVELS && l != 1 :: BEFORE_FLUSH[l] == [];
    assert BEFORE_FLUSH[1] == [FILE_A, FILE_B];
    NothingIsNewer({});
    NothingIsNewer({FIRST, LAST});
    assert VersionContents(BEFORE_FLUSH) == {FIRST, LAST} by {
      assert FIRST in Contents(BEFORE_FLUSH[1]) && LAST in Contents(BEFORE_FLUSH[1]);
    }
  }

  lemma FlushFitsTheGap()
    ensures Flushable(BEFORE_FLUSH, 2, FLUSHED)
  {
    hide ValidVersion, OrderedVersion, VersionContents, Contents, FileMetaData.Valid;
    BeforeFlushIsValid();
    FilesOfGap();
    assert ToSet(FLUSHED.entries) == {MIDDLE};
    assert Newer({MIDDLE}, {FIRST, LAST}) && Unique({FIRST, LAST} + {MIDDLE});
    hide Newer, Unique;
    assert BEFORE_FLUSH[0] == [] && BEFORE_FLUSH[1] == [FILE_A, FILE_B] && BEFORE_FLUSH[2] == [];
  }

  lemma FlushMakesAfter()
    ensures NextVersion(BEFORE_FLUSH, FlushEdit(2, FLUSHED)) == AFTER_FLUSH
  {
    var edit := FlushEdit(2, FLUSHED);
    var v' := NextVersion(BEFORE_FLUSH, edit);
    AddOneFile(FLUSHED);
    assert [FLUSHED][1..] == [];
    assert SaveLevel([], LevelState({}, [FLUSHED])) == [FLUSHED];
    hide NextVersion, FlushEdit, SaveLevel, ApplyLevel;
    forall l | 0 <= l < NUM_LEVELS ensures v'[l] == AFTER_FLUSH[l] {
      NextLevel(BEFORE_FLUSH, edit, l);
      FlushEditAt(2, FLUSHED, l);
      if l == 1 {
        UntouchedLevel([FILE_A, FILE_B]);
      } else if l != 2 {
        UntouchedLevel([]);
      }
    }
    assert v' == AFTER_FLUSH;
  }

  /** The two files of level 1 leave a gap around 3.0, where a flush to level 2 overlaps nothing. */
  lemma GapInvitesFlush()
    ensures ValidVersion(BEFORE_FLUSH) && PickedFrom(BEFORE_FLUSH, ALL_OF_LEVEL_ONE) && !Gapless(ALL_OF_LEVEL_ONE.Files())
    ensures Flushable(BEFORE_FLUSH, 2, FLUSHED)
    ensures NextVersion(BEFORE_FLUSH, FlushEdit(2, FLUSHED)) == AFTER_FLUSH && ValidVersion(AFTER_FLUSH)
    ensures FLUSHED in AFTER_FLUSH[2] && !Beside(FLUSHED, ALL_OF_LEVEL_ONE) && !Lined(FLUSHED, MERGED)
  {
    AllOfLevelOnePicked();
    hide PickedFrom, Gapless, ValidVersion, Flushable, NextVersion, OrderedVersion, Added;
    BeforeFlushIsValid();
    FlushFitsTheGap();
    FlushMakesAfter();
    FlushAdds(BEFORE_FLUSH, 2, FLUSHED);
    FlushKeepsValid(BEFORE_FLUSH, AFTER_FLUSH, 2, FLUSHED);
  }

  lemma AllOfLevelOnePicked()
    ensures PickedFrom(BEFORE_FLUSH, ALL_OF_LEVEL_ONE) && !Gapless(ALL_OF_LEVEL_ONE.Files())
  {
    var c := ALL_OF_LEVEL_ONE;
    assert c.inputs0 == [FILE_A, FILE_B] && c.inputs1 == [];
    assert FILE_A in FileSet(c.inputs0) && FILE_B in FileSet(c.inputs0);
    assert FILE_A in c.Files() && FILE_B in c.Files();
    assert Between(FILE_A, FILE_B, 3.0);
    assert !Covered(c.Files(), 3.0);
    assert BEFORE_FLUSH[1] == [FILE_A, FILE_B] && BEFORE_FLUSH[2] == [] && BEFORE_FLUSH[0] == [];
  }

  lemma CoveringChanges(l: nat)
    requires l < NUM_LEVELS
    ensures NewAt(CompactionEdit(ALL_OF_LEVEL_ONE, [MERGED]).newFiles, l) == if l == 2 then [MERGED] else []
    ensures DeletedAt(CompactionEdit(ALL_OF_LEVEL_ONE, [MERGED]), l) == if l == 1 then {3, 4} else {}
  {
    hide CompactionEdit;
    CompactionAdds(ALL_OF_LEVEL_ONE, [MERGED], l);
    CompactionDeletes(ALL_OF_LEVEL_ONE, [MERGED], l);
    assert FILE_A in ALL_OF_LEVEL_ONE.inputs0 && FILE_B in ALL_OF_LEVEL_ONE.inputs0;
    assert NumberSet(ALL_OF_LEVEL_ONE.inputs0) == {3, 4} && NumberSet(ALL_OF_LEVEL_ONE.inputs1) == {};
  }

  lemma CoveredLevels()
    ensures SaveLevel([FILE_A, FILE_B], ApplyLevel(FRESH_LEVEL, {3, 4}, [])) == []
    ensures SaveLevel([FLUSHED], ApplyLevel(FRESH_LEVEL, {}, [MERGED])) == [MERGED, FLUSHED]
  {
    var gone := LevelState({3, 4}, []);
    assert ApplyLevel(FRESH_LEVEL, {3, 4}, []) == gone;
    assert [FILE_A, FILE_B][1..] == [FILE_B] && [FILE_B][1..] == [];
    assert SaveLevel([FILE_B], gone) == [] + SaveLevel([], gone);
    assert SaveLevel([FILE_A, FILE_B], gone) == [] + SaveLevel([FILE_B], gone);
    AddOneFile(MERGED);
    var st := LevelState({}, [MERGED]);
    assert SaveLevel([FLUSHED], LevelState({}, [])) == [FLUSHED] by {
      assert [FLUSHED][1..] == [];
    }
    assert SaveLevel([FLUSHED], st) == [MERGED] + SaveLevel([FLUSHED], LevelState({}, [])) by {
      assert [MERGED][1..] == [];
    }
  }

  lemma InstallCoversUp()
    ensures NextVersion(AFTER_FLUSH, CompactionEdit(ALL_OF_LEVEL_ONE, [MERGED])) == COVERED_UP
  {
    var edit := CompactionEdit(ALL_OF_LEVEL_ONE, [MERGED]);
    var v' := NextVersion(AFTER_FLUSH, edit);
    CoveredLevels();
    hide NextVersion, CompactionEdit, SaveLevel, ApplyLevel;
    forall l | 0 <= l < NUM_LEVELS ensures v'[l] == COVERED_UP[l] {
      NextLevel(AFTER_FLUSH, edit, l);
      CoveringChanges(l);
      if l != 1 && l != 2 {
        UntouchedLevel([]);
      }
    }
    assert v' == COVERED_UP;
  }

  lemma MergedInOneFile()
    ensures var o := Outputs(CutAt(100), [FIRST, LAST], {FIRST, LAST}, 6);
            o.files == [MERGED] && o.nextNumber == 7
  {
    var cut, input, S := CutAt(100), [FIRST, LAST], {FIRST, LAST};
    var o0, o1, o2 := Output([], 0, [], 6), Output([], 6, [FIRST], 7), Output([], 6, [FIRST, LAST], 7);
    assert Produced(cut, input, S, 6, 0) == (o0, UNPASSED);
    PlacedInOne();
    hide Produced, Placed;
    NextEntry(cut, input, S, 6, 0, o0, false);
    NextEntry(cut, input, S, 6, 1, o1, true);
  }

  lemma PlacedInOne()
    ensures Placed(CutAt(100), Output([], 0, [], 6), false, FIRST, true) == Output([], 6, [FIRST], 7)
    ensures Placed(CutAt(100), Output([], 6, [FIRST], 7), false, LAST, true) == Output([], 6, [FIRST, LAST], 7)
    ensures CloseIf(Output([], 6, [FIRST, LAST], 7), true, CutAt(100).sizeOf) == Output([MERGED], 6, [], 7)
  {
    assert [FIRST] + [LAST] == [FIRST, LAST] && [] + [MERGED] == [MERGED];
  }

  /**
    A manual compaction of both files is under way when a memtable holding 3.0 is flushed to level 2.  Its
    output, one file from 1.0 to 5.0, is then installed over the flushed file, and the binary search of
    level 2 no longer finds 3.0 at any snapshot, although no later write has touched it.
  */
  lemma ManualGapHidesFlush(s: nat)
    requires 7 <= s
    ensures Search(AFTER_FLUSH, 3.0, s) == Some(MIDDLE)
    ensures Outputs(CutAt(100), [FIRST, LAST], {FIRST, LAST}, 6).files == [MERGED]
    ensures NextVersion(AFTER_FLUSH, CompactionEdit(ALL_OF_LEVEL_ONE, [MERGED])) == COVERED_UP
    ensures MIDDLE in VersionContents(COVERED_UP) && Search(COVERED_UP, 3.0, s) == None
  {
    hide NextVersion, CompactionEdit, Outputs, Search, VersionContents;
    MergedInOneFile();
    InstallCoversUp();
    GapLookups(s);
    assert FLUSHED in COVERED_UP[2] && MIDDLE in FLUSHED.entries;
    VersionMember(COVERED_UP, 2, FLUSHED, MIDDLE);
  }

  lemma GapLookups(s: nat)
    requires 7 <= s
    ensures Search(AFTER_FLUSH, 3.0, s) == Some(MIDDLE)
    ensures Search(COVERED_UP, 3.0, s) == None
  {
    var target := SeekKey(3.0, s);
    var fs, gs := [MERGED, FLUSHED], [FILE_A, FILE_B];
    assert BinarySearch(gs, target, 2, 2) == 2;
    assert BinarySearch(gs, target, 0, 1) == 1 by { assert BinarySearch(gs, target, 1, 1) == 1; }
    assert BinarySearch(gs, target, 0, 2) == 1 by { assert BinarySearch(gs, target, 0, 1) == 1; }
    assert LevelLookup(gs, 3.0, s) == None;
    assert BinarySearch([FLUSHED], target, 0, 0) == 0;
    assert BinarySearch([FLUSHED], target, 0, 1) == 0;
    assert LowerBound([MIDDLE], target) == 0;
    assert LevelLookup([FLUSHED], 3.0, s) == Some(MIDDLE);
    assert BinarySearch(fs, target, 0, 0) == 0;
    assert BinarySearch(fs, target, 0, 1) == 0;
    assert BinarySearch(fs, target, 0, 2) == 0;
    assert [FIRST, LAST][1..] == [LAST];
    assert LowerBound([LAST], target) == 0;
    assert LowerBound([FIRST, LAST], target) == 1;
    assert LevelLookup(fs, 3.0, s) == None;
    hide LevelLookup, LevelZeroLookup;
    FoundAtLevelTwo(AFTER_FLUSH, 3.0, s);
    FoundAtLevelTwo(COVERED_UP, 3.0, s);
  }

  lemma NothingInNoFiles(k: UserKey, s: nat)
    ensures LevelZeroLookup([], k, s) == None && LevelLookup([], k, s) == None
  {
  }

  lemma FoundAtLevelTwo(v: Version, k: UserKey, s: nat)
    requires v[0] == [] && LevelLookup(v[1], k, s) == None && v[3] == v[4] == v[5] == v[6] == []
    ensures Search(v, k, s) == LevelLookup(v[2], k, s)
  {
    hide LevelLookup, LevelZeroLookup;
    NothingInNoFiles(k, s);
    assert SearchFrom(v, 6, k, s) == SearchFrom(v, 7, k, s) == None;
    assert SearchFrom(v, 4, k, s) == SearchFrom(v, 5, k, s) == SearchFrom(v, 6, k, s);
    assert SearchFrom(v, 3, k, s) == SearchFrom(v, 4, k, s);
    assert SearchFrom(v, 0, k, s) == SearchFrom(v, 1, k, s) == SearchFrom(v, 2, k, s);
  }
}
