/**
  The manifest as CrashSafety sees it, file numbers and counters, and as VersionEdits sees it, files by level
  (VersionEdit in db/version_edit.h): the numbers that replaying the one leaves are those of the version that
  replaying the other builds.
*/
module ManifestRecords {
  import opened InternalKeys
  import opened Versions
  import opened VersionEdits
  import opened Installing
  import opened ManifestReplay
  import opened DurableCompactions
  import Database
  import Recovery

  ghost function NumbersOut(e: VersionEdit): set<nat> {
    set p | p in e.deletedFiles :: p.1
  }

  ghost function NumbersIn(e: VersionEdit): set<nat> {
    set p | p in e.newFiles :: p.1.number
  }

  ghost function RecordOf(e: VersionEdit): Recovery.Edit {
    Recovery.Edit(NumbersOut(e), NumbersIn(e), e.logNumber, e.nextFileNumber, e.lastSequence)
  }

  ghost function Records(edits: seq<VersionEdit>): seq<Recovery.Edit>
    decreases |edits|
  {
    if edits == [] then [] else Records(edits[..|edits| - 1]) + [RecordOf(edits[|edits| - 1])]
  }

  /** An edit made for v: what it deletes is there, at that level. */
  ghost predicate MadeFor(v: Version, e: VersionEdit) {
    forall p | p in e.deletedFiles :: p.0 < NUM_LEVELS && p.1 in NumberSet(v[p.0])
  }

  /** The edits a running database made, from a version v on. */
  ghost predicate Run(v: Version, edits: seq<VersionEdit>) {
    && (forall l | 0 <= l < NUM_LEVELS :: OrderedFiles(v[l]) && EntersOnce(v[l], edits, l))
    && (forall e | e in edits :: ValidEdit(e))
    && (forall i | 0 <= i < |edits| :: Database.NumbersIdentify(Live(v, edits[..i])) && MadeFor(Live(v, edits[..i]), edits[i]))
  }

  /**
    The current manifest holds these edits, the version they make is in order, and its tables are there.
  */
  ghost predicate Recoverable(d: Recovery.Disk, edits: seq<VersionEdit>) {
    && (forall e | e in edits :: ValidEdit(e))
    && d.current.Some? && d.current.value in d.manifests && d.manifests[d.current.value] == Records(edits)
    && Shelved(d.tables, SaveTo(NO_FILES, ApplyAll(FRESH, edits)), Recovery.Replay(Records(edits)).version)
  }

  ghost predicate Shelved(tables: map<nat, set<Entry>>, v: Version, numbers: set<nat>) {
    && ValidVersion(v) && OrderedVersion(v) && Database.NumbersIdentify(v)
    && VersionNumbers(v) == numbers
    && forall l | 0 <= l < NUM_LEVELS :: Stored(tables, v[l])
  }

  // ---------------------------------------------------------------- one edit

  lemma {:induction false} NewAtHas(files: seq<(nat, File)>, l: nat, f: File)
    ensures f in NewAt(files, l) <==> (l, f) in files
  {
    if files != [] {
      assert files == [files[0]] + files[1..];
      NewAtHas(files[1..], l, f);
    }
  }

  /** The edit brings numbers that the level does not have. */
  ghost predicate NewHere(v: Version, e: VersionEdit, l: nat)
    requires l < NUM_LEVELS
  {
    var added := NewAt(e.newFiles, l);
    OrderedFiles(v[l]) && DistinctNumbers(v[l]) && NumbersDiffer(v[l], added) && DistinctNumbers(added)
  }

  lemma NextFiles(v: Version, e: VersionEdit, l: nat, f: File)
    requires l < NUM_LEVELS && NewHere(v, e, l)
    ensures f in NextVersion(v, e)[l] <==> (f in v[l] && (l, f.number) !in e.deletedFiles) || (l, f) in e.newFiles
  {
    hide OrderedFiles, NextVersion, SaveLevel, ApplyLevel, NewAt, DistinctNumbers, NumbersDiffer;
    NextLevel(v, e, l);
    EditedLevel(v[l], DeletedAt(e, l), NewAt(e.newFiles, l));
    NewAtHas(e.newFiles, l, f);
    assert f.number in DeletedAt(e, l) <==> (l, f.number) in e.deletedFiles;
  }

  /** One edit does to the numbers what it does to the files. */
  lemma NumbersFollow(v: Version, e: VersionEdit)
    requires forall l | 0 <= l < NUM_LEVELS :: NewHere(v, e, l)
    requires Database.NumbersIdentify(v) && ValidEdit(e) && MadeFor(v, e)
    ensures VersionNumbers(NextVersion(v, e)) == VersionNumbers(v) - NumbersOut(e) + NumbersIn(e)
  {
    hide NewHere, NextVersion;
    var v' := NextVersion(v, e);
    forall n | n in VersionNumbers(v') ensures n in VersionNumbers(v) - NumbersOut(e) + NumbersIn(e) {
      var l, f := FileNumbered(v', n);
      NextFiles(v, e, l, f);
      if (l, f) in e.newFiles {
        assert (l, f).1.number in NumbersIn(e);
      } else {
        NumberOf(v, l, f);
        GoneByNumber(v, e, l, f);
      }
    }
    forall n | n in VersionNumbers(v) - NumbersOut(e) + NumbersIn(e) ensures n in VersionNumbers(v') {
      if n in NumbersIn(e) {
        var p :| p in e.newFiles && p.1.number == n;
        NextFiles(v, e, p.0, p.1);
        NumberOf(v', p.0, p.1);
      } else {
        var l, f := FileNumbered(v, n);
        NextFiles(v, e, l, f);
        GoneByNumber(v, e, l, f);
        NumberOf(v', l, f);
      }
    }
  }

  /** A number names one file at one level, so a number deleted is a file deleted. */
  lemma GoneByNumber(v: Version, e: VersionEdit, l: nat, f: File)
    requires Database.NumbersIdentify(v) && MadeFor(v, e) && l < NUM_LEVELS && f in v[l]
    ensures f.number in NumbersOut(e) <==> (l, f.number) in e.deletedFiles
  {
    if f.number in NumbersOut(e) {
      var p :| p in e.deletedFiles && p.1 == f.number;
      var g :| g in v[p.0] && g.number == p.1;
      assert l == p.0;
    }
    if (l, f.number) in e.deletedFiles {
      assert (l, f.number).1 in NumbersOut(e);
    }
  }

  // ---------------------------------------------------------------- a whole manifest

  /** What one builder per edit has put into a level came from the start or from an edit. */
  lemma LiveFiles(v: Version, edits: seq<VersionEdit>, l: nat)
    requires l < NUM_LEVELS && OrderedFiles(v[l]) && EntersOnce(v[l], edits, l)
    ensures OrderedFiles(Live(v, edits)[l])
    ensures forall f | f in Live(v, edits)[l] :: f in v[l] || f in AllNew(edits, l)
  {
    hide OrderedFiles, SaveLevel, Accumulate, OneByOne, AllNew, Live;
    LiveAt(v, edits, l);
    ReplayLevel(v[l], edits, l);
    SaveLevelElements(v[l], Accumulate(edits, l));
  }

  /** Each edit of a run brings new numbers to every level. */
  lemma RunBringsNew(v: Version, edits: seq<VersionEdit>, l: nat)
    requires edits != [] && l < NUM_LEVELS && OrderedFiles(v[l]) && EntersOnce(v[l], edits, l)
    requires Database.NumbersIdentify(Live(v, edits[..|edits| - 1]))
    ensures EntersOnce(v[l], edits[..|edits| - 1], l)
    ensures NewHere(Live(v, edits[..|edits| - 1]), edits[|edits| - 1], l)
  {
    hide OrderedFiles, AllNew, NewAt, Live;
    var init, e := edits[..|edits| - 1], edits[|edits| - 1];
    assert AllNew(edits, l) == AllNew(init, l) + NewAt(e.newFiles, l) by { LastNew(edits, l); }
    DistinctParts(v[l], AllNew(init, l), NewAt(e.newFiles, l));
    LiveFiles(v, init, l);
    OrderedNumbersDiffer(Live(v, init), l);
  }

  lemma LastNew(edits: seq<VersionEdit>, l: nat)
    requires edits != []
    ensures AllNew(edits, l) == AllNew(edits[..|edits| - 1], l) + NewAt(edits[|edits| - 1].newFiles, l)
  {
  }

  lemma OrderedNumbersDiffer(v: Version, l: nat)
    requires l < NUM_LEVELS && OrderedFiles(v[l]) && Database.NumbersIdentify(v)
    ensures DistinctNumbers(v[l])
  {
    forall i, j | 0 <= i < j < |v[l]| ensures v[l][i].number != v[l][j].number {
      assert SmallerFile(v[l][i], v[l][j]);
    }
  }

  lemma FrontOfRun(v: Version, edits: seq<VersionEdit>)
    requires edits != [] && Run(v, edits)
    ensures Run(v, edits[..|edits| - 1])
  {
    hide OrderedFiles, NewAt, Live, AllNew, Database.NumbersIdentify, MadeFor;
    var init := edits[..|edits| - 1];
    forall l | 0 <= l < NUM_LEVELS ensures EntersOnce(v[l], init, l) {
      LastNew(edits, l);
      DistinctParts(v[l], AllNew(init, l), NewAt(edits[|edits| - 1].newFiles, l));
    }
    forall i | 0 <= i < |init| ensures Database.NumbersIdentify(Live(v, init[..i])) && MadeFor(Live(v, init[..i]), init[i]) {
      assert init[..i] == edits[..i] && init[i] == edits[i];
    }
  }

  lemma SnapshotNumbers(v: Version)
    ensures RecordOf(SnapshotEdit(v)) == Recovery.Edit({}, VersionNumbers(v), None, None, None)
  {
    var files := SnapshotEdit(v).newFiles;
    forall n | n in VersionNumbers(v) ensures n in NumbersIn(SnapshotEdit(v)) {
      var l, f := FileNumbered(v, n);
      SnapshotAt(v, 0, l);
      NewAtHas(files, l, f);
      assert (l, f).1.number == n;
    }
    forall n | n in NumbersIn(SnapshotEdit(v)) ensures n in VersionNumbers(v) {
      var p :| p in files && p.1.number == n;
      FilesFromLevels(v, 0, p);
      SnapshotAt(v, 0, p.0);
      NewAtHas(files, p.0, p.1);
      NumberOf(v, p.0, p.1);
    }
  }

  lemma {:induction false} FilesFromLevels(v: Version, level: nat, p: (nat, File))
    requires level <= NUM_LEVELS && p in FilesFrom(v, level)
    ensures p.0 < NUM_LEVELS
    decreases NUM_LEVELS - level
  {
    if p in FilesAt(level, v[level]) {
      FilesAtLevel(level, v[level], p);
    } else {
      FilesFromLevels(v, level + 1, p);
    }
  }

  lemma {:induction false} FilesAtLevel(level: nat, fs: seq<File>, p: (nat, File))
    requires p in FilesAt(level, fs)
    ensures p.0 == level && p.1 in fs
  {
    if p != (level, fs[0]) {
      FilesAtLevel(level, fs[1..], p);
    }
  }

  lemma SnapshotIsValid(v: Version)
    ensures ValidEdit(SnapshotEdit(v))
  {
    forall p | p in SnapshotEdit(v).newFiles ensures p.0 < NUM_LEVELS {
      FilesFromLevels(v, 0, p);
    }
  }

  lemma {:induction false} RecordsFirst(e: VersionEdit, edits: seq<VersionEdit>)
    ensures Records([e] + edits) == [RecordOf(e)] + Records(edits)
    decreases |edits|
  {
    hide RecordOf;
    if edits == [] {
      assert [e] + edits == [e] && [e][..0] == [];
    } else {
      RecordsFirst(e, edits[..|edits| - 1]);
      assert ([e] + edits)[..|edits|] == [e] + edits[..|edits| - 1];
    }
  }

  /** Replaying the numbers of a manifest, from its snapshot on, gives the numbers of the version that is live. */
  lemma {:induction false} ReplayNumbers(v: Version, edits: seq<VersionEdit>)
    requires Run(v, edits)
    ensures Recovery.Replay(Records([SnapshotEdit(v)] + edits)).version == VersionNumbers(Live(v, edits))
    decreases |edits|
  {
    hide OrderedFiles, AllNew, NewAt, NextVersion, SnapshotEdit, Recovery.Replay, RecordOf, Database.NumbersIdentify, MadeFor, VersionNumbers;
    var s := SnapshotEdit(v);
    RecordsFirst(s, edits);
    if edits == [] {
      SnapshotNumbers(v);
      Recovery.ReplayAppend([], RecordOf(s));
      NoRecords();
      assert [] + [RecordOf(s)] == [RecordOf(s)] + Records([]);
    } else {
      var init, e := edits[..|edits| - 1], edits[|edits| - 1];
      FrontOfRun(v, edits);
      ReplayNumbers(v, init);
      RecordsFirst(s, init);
      assert [RecordOf(s)] + (Records(init) + [RecordOf(e)]) == ([RecordOf(s)] + Records(init)) + [RecordOf(e)];
      Recovery.ReplayAppend(Records([s] + init), RecordOf(e));
      assert edits[..|edits| - 1] == init;
      forall l | 0 <= l < NUM_LEVELS ensures NewHere(Live(v, init), e, l) {
        RunBringsNew(v, edits, l);
      }
      hide NewHere, Run;
      NumbersFollow(Live(v, init), e);
      RecordIs(e);
    }
  }

  lemma NoRecords()
    ensures Recovery.Replay([]) == Recovery.Saved({}, 0, 0, 0) && Records([]) == []
  {
  }

  lemma RecordIs(e: VersionEdit)
    ensures RecordOf(e).deleted == NumbersOut(e) && RecordOf(e).added == NumbersIn(e)
  {
  }

  /** A manifest written by a running database, from a snapshot on, is on disk as recovery needs it. */
  lemma RunningIsRecoverable(d: Recovery.Disk, v: Version, edits: seq<VersionEdit>)
    requires Run(v, edits)
    requires d.current.Some? && d.current.value in d.manifests && d.manifests[d.current.value] == Records([SnapshotEdit(v)] + edits)
    requires Shelved(d.tables, Live(v, edits), VersionNumbers(Live(v, edits)))
    ensures Recoverable(d, [SnapshotEdit(v)] + edits)
  {
    hide OrderedFiles, NewAt, AllNew, SnapshotEdit, Live, Records, Shelved, Database.NumbersIdentify, MadeFor, ApplyAll, SaveTo;
    ReplayNumbers(v, edits);
    ReplayIsLive(v, edits);
    SnapshotIsValid(v);
  }
}
