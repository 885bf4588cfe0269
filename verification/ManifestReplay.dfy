/**
  Opening a database replays its manifest through one builder, from no files at all (VersionSet::Recover and
  WriteSnapshot in db/version_set.cc).  What comes out is the version the running database had reached by
  installing the same edits one at a time.
*/
module ManifestReplay {
  import opened InternalKeys
  import opened Versions
  import opened VersionEdits

  /** The edit that starts a manifest: every file of the version of that moment. */
  function SnapshotEdit(v: Version): VersionEdit {
    EMPTY_EDIT.(newFiles := FilesFrom(v, 0))
  }

  function FilesFrom(v: Version, level: nat): seq<(nat, File)>
    requires level <= NUM_LEVELS
    decreases NUM_LEVELS - level
  {
    if level == NUM_LEVELS then [] else FilesAt(level, v[level]) + FilesFrom(v, level + 1)
  }

  function ApplyAll(s: BuilderState, edits: seq<VersionEdit>): BuilderState
    decreases |edits|
  {
    if edits == [] then s else ApplyEdit(ApplyAll(s, edits[..|edits| - 1]), edits[|edits| - 1])
  }

  /** The versions of the running database: one builder and one new version for each edit. */
  function Live(v: Version, edits: seq<VersionEdit>): Version
    decreases |edits|
  {
    if edits == [] then v else NextVersion(Live(v, edits[..|edits| - 1]), edits[|edits| - 1])
  }

  /** The loop of VersionSet::Recover over the records of a manifest, and its SaveTo. */
  method RecoverVersion(edits: seq<VersionEdit>) returns (v: Version)
    requires forall e | e in edits :: ValidEdit(e)
    ensures v == SaveTo(NO_FILES, ApplyAll(FRESH, edits))
  {
    hide ValidEdit, ApplyEdit, SaveTo;
    var builder := new Builder(NO_FILES);
    for i := 0 to |edits|
      invariant builder.levels == ApplyAll(FRESH, edits[..i])
    {
      assert edits[..i + 1][..i] == edits[..i];
      assert edits[i] in edits;
      builder.Apply(edits[i]);
    }
    assert edits[..|edits|] == edits;
    NoFilesOrdered();
    v := builder.SaveVersion();
  }

  // ---------------------------------------------------------------- level by level

  lemma {:induction false} NewAtConcat(a: seq<(nat, File)>, b: seq<(nat, File)>, l: nat)
    ensures NewAt(a + b, l) == NewAt(a, l) + NewAt(b, l)
    decreases |b|
  {
    hide NewAt;
    if b == [] {
      assert a + b == a;
      assert NewAt(b, l) == [] by { NewAtNothing(l); }
    } else {
      var init, p := b[..|b| - 1], b[|b| - 1];
      assert a + b == (a + init) + [p] && b == init + [p];
      NewAtConcat(a, init, l);
      NewAtAppend(a + init, p, l);
      NewAtAppend(init, p, l);
    }
  }

  lemma NewAtNothing(l: nat)
    ensures NewAt([], l) == []
  {
  }

  lemma {:induction false} SnapshotAt(v: Version, level: nat, l: nat)
    requires level <= NUM_LEVELS && l < NUM_LEVELS
    ensures NewAt(FilesFrom(v, level), l) == if level <= l then v[l] else []
    decreases NUM_LEVELS - level
  {
    hide NewAt, FilesAt;
    if level < NUM_LEVELS {
      SnapshotAt(v, level + 1, l);
      NewAtFilesAt(level, v[level], l);
      NewAtConcat(FilesAt(level, v[level]), FilesFrom(v, level + 1), l);
    } else {
      NewAtNothing(l);
    }
  }

  lemma {:induction false} ApplyAllAt(edits: seq<VersionEdit>, l: nat)
    requires l < NUM_LEVELS
    ensures ApplyAll(FRESH, edits)[l] == Accumulate(edits, l)
    decreases |edits|
  {
    hide ApplyLevel, DeletedAt, NewAt;
    if edits != [] {
      var s, e := ApplyAll(FRESH, edits[..|edits| - 1]), edits[|edits| - 1];
      ApplyAllAt(edits[..|edits| - 1], l);
      assert ApplyEdit(s, e)[l] == ApplyEditAt(s, e, l);
    }
  }

  lemma {:induction false} LiveAt(v: Version, edits: seq<VersionEdit>, l: nat)
    requires l < NUM_LEVELS
    ensures Live(v, edits)[l] == OneByOne(v[l], edits, l)
    decreases |edits|
  {
    hide ApplyLevel, DeletedAt, NewAt, SaveLevel, NextVersion;
    if edits != [] {
      LiveAt(v, edits[..|edits| - 1], l);
      NextLevel(Live(v, edits[..|edits| - 1]), edits[|edits| - 1], l);
    }
  }

  lemma {:induction false} FirstEditFirst(base: seq<File>, e: VersionEdit, edits: seq<VersionEdit>, l: nat)
    ensures OneByOne(base, [e] + edits, l) == OneByOne(OneByOne(base, [e], l), edits, l)
    ensures AllNew([e] + edits, l) == AllNew([e], l) + AllNew(edits, l)
    decreases |edits|
  {
    hide ApplyLevel, DeletedAt, NewAt, SaveLevel;
    if edits == [] {
      assert [e] + edits == [e];
    } else {
      var init, last := edits[..|edits| - 1], edits[|edits| - 1];
      assert ([e] + edits)[..|edits|] == [e] + init && ([e] + edits)[|edits|] == last;
      FirstEditFirst(base, e, init, l);
    }
  }

  /** A level built from nothing by adding its own files. */
  lemma BuiltFromNothing(fs: seq<File>)
    requires OrderedFiles(fs) && DistinctNumbers(fs)
    ensures SaveLevel([], ApplyLevel(FRESH_LEVEL, {}, fs)) == fs
  {
    var none: set<nat> := {};
    var st := ApplyLevel(FRESH_LEVEL, {}, fs);
    assert none + none == none && st == AddAll(LevelState({}, []), fs);
    hide OrderedFiles, SmallerFile, AddAll, SaveLevel, ApplyLevel, DistinctNumbers;
    NoFilesOrdered();
    AddAllElements(LevelState({}, []), fs);
    SaveLevelElements([], st);
    SaveLevelOrdered([], st);
    OrderedUnique(SaveLevel([], st), fs);
  }

  lemma SnapshotRestores(v: Version, l: nat)
    requires l < NUM_LEVELS && OrderedFiles(v[l]) && DistinctNumbers(v[l])
    ensures OneByOne([], [SnapshotEdit(v)], l) == v[l]
    ensures AllNew([SnapshotEdit(v)], l) == v[l]
  {
    hide OrderedFiles, DistinctNumbers, SaveLevel, ApplyLevel, FilesFrom;
    var e := SnapshotEdit(v);
    assert [e][..0] == [];
    SnapshotAt(v, 0, l);
    assert DeletedAt(e, l) == {};
    BuiltFromNothing(v[l]);
    assert OneByOne([], [], l) == [];
    assert AllNew([], l) + v[l] == v[l];
  }

  lemma ReplayOneLevel(v: Version, edits: seq<VersionEdit>, l: nat)
    requires l < NUM_LEVELS && OrderedFiles(v[l]) && EntersOnce(v[l], edits, l)
    ensures SaveLevel([], Accumulate([SnapshotEdit(v)] + edits, l)) == OneByOne(v[l], edits, l)
  {
    var e := SnapshotEdit(v);
    DistinctFront(v[l], AllNew(edits, l));
    hide OrderedFiles, DistinctNumbers, SaveLevel, SnapshotEdit, OneByOne, AllNew, Accumulate;
    SnapshotRestores(v, l);
    FirstEditFirst([], e, edits, l);
    assert [] + AllNew([e] + edits, l) == v[l] + AllNew(edits, l);
    NoFilesOrdered();
    ReplayLevel([], [e] + edits, l);
  }

  lemma DistinctFront(a: seq<File>, b: seq<File>)
    requires DistinctNumbers(a + b)
    ensures DistinctNumbers(a)
  {
    forall i, j | 0 <= i < j < |a| ensures a[i].number != a[j].number {
      assert (a + b)[i] == a[i] && (a + b)[j] == a[j];
    }
  }

  /**
    The version recovered from a manifest that starts with a snapshot of v is the version the database reached
    from v, whatever the edits in between added, moved and deleted, if no file number enters a level twice.
  */
  lemma ReplayIsLive(v: Version, edits: seq<VersionEdit>)
    requires forall l | 0 <= l < NUM_LEVELS :: OrderedFiles(v[l]) && EntersOnce(v[l], edits, l)
    ensures SaveTo(NO_FILES, ApplyAll(FRESH, [SnapshotEdit(v)] + edits)) == Live(v, edits)
  {
    var all := [SnapshotEdit(v)] + edits;
    var s := ApplyAll(FRESH, all);
    hide OrderedFiles, EntersOnce, SaveLevel, SnapshotEdit, ApplyAll, Accumulate, OneByOne, Live;
    forall l | 0 <= l < NUM_LEVELS ensures SaveTo(NO_FILES, s)[l] == Live(v, edits)[l] {
      ApplyAllAt(all, l);
      ReplayOneLevel(v, edits, l);
      LiveAt(v, edits, l);
      assert SaveTo(NO_FILES, s)[l] == SaveLevel([], s[l]);
    }
  }

  /** Recovery brings back a version that searches right, if the running database had one. */
  lemma RecoveredIsValid(v: Version, edits: seq<VersionEdit>)
    requires forall l | 0 <= l < NUM_LEVELS :: OrderedFiles(v[l]) && EntersOnce(v[l], edits, l)
    requires ValidVersion(Live(v, edits))
    ensures ValidVersion(SaveTo(NO_FILES, ApplyAll(FRESH, [SnapshotEdit(v)] + edits)))
  {
    hide ValidVersion, OrderedFiles, EntersOnce, SaveTo, SnapshotEdit, ApplyAll, Live;
    ReplayIsLive(v, edits);
  }
}
