/**
  Opening a database (DB::Open, DBImpl::Recover and RecoverLogFile in db/db_impl.cc): the steps on disk of
  CrashSafety, and the database object they make.  It holds the version of the manifest with the tables
  recovered from the logs added at level 0, and reads as the whole history does.
*/
module Reopening {
  import opened InternalKeys
  import opened Batches
  import opened Versions
  import opened VersionEdits
  import opened Installing
  import opened Flushing
  import opened Recovery
  import opened CrashSafety
  import opened DurableCompactions
  import opened ManifestRecords
  import D = Database
  import M = ManifestReplay

  // ---------------------------------------------------------------- tables made from logs

  /** Tables in the order they were made, each newer than those before it. */
  ghost predicate InTurn(fs: seq<File>, next: nat) {
    && ValidFiles(fs)
    && (forall i, j | 0 <= i < j < |fs| :: fs[i].number < fs[j].number && Newer(ToSet(fs[j].entries), ToSet(fs[i].entries)))
    && (forall f | f in fs :: f.number < next)
  }

  /** The tables all hold entries of H, which are newer than those of v. */
  ghost predicate OnTop(v: Version, fs: seq<File>, H: set<Entry>) {
    Contents(fs) + VersionContents(v) <= H && Newer(Contents(fs), VersionContents(v))
  }

  lemma OneMoreInTurn(fs: seq<File>, f: File, next: nat)
    requires InTurn(fs, f.number) && f.Valid() && Newer(ToSet(f.entries), Contents(fs)) && f.number < next
    ensures InTurn(fs + [f], next)
  {
    hide Newer, FileMetaData.Valid;
    var all := fs + [f];
    forall i, j | 0 <= i < j < |all| ensures all[i].number < all[j].number && Newer(ToSet(all[j].entries), ToSet(all[i].entries)) {
      assert all[i] in fs;
      if j == |fs| {
        NewerThanFile(ToSet(f.entries), fs, all[i]);
      }
    }
  }

  lemma NewerThanFile(S: set<Entry>, fs: seq<File>, g: File)
    requires Newer(S, Contents(fs)) && g in fs
    ensures Newer(S, ToSet(g.entries))
  {
    assert ToSet(g.entries) <= Contents(fs);
    NewerSubset(S, Contents(fs), ToSet(g.entries));
  }

  // ---------------------------------------------------------------- adding them to level 0

  /** One flush to level 0 after another. */
  ghost function Flushed(v: Version, fs: seq<File>): Version
    decreases |fs|
  {
    if fs == [] then v else NextVersion(Flushed(v, fs[..|fs| - 1]), FlushEdit(0, fs[|fs| - 1]))
  }

  lemma FrontInTurn(fs: seq<File>, next: nat)
    requires fs != [] && InTurn(fs, next)
    ensures var init, f := fs[..|fs| - 1], fs[|fs| - 1];
            && InTurn(init, f.number) && f.Valid() && f.number < next && Newer(ToSet(f.entries), Contents(init))
            && Contents(fs) == Contents(init) + ToSet(f.entries)
  {
    var init, f := fs[..|fs| - 1], fs[|fs| - 1];
    LastInTurn(fs, next);
    hide InTurn, Newer, FileMetaData.Valid, Contents, ToSet;
    assert fs == init + [f];
    CompactionWork.ContentsAppend(init, f);
    forall g | g in init ensures Newer(ToSet(f.entries), ToSet(g.entries)) {
      InitBefore(fs, next, g);
    }
    NewerThanEach(ToSet(f.entries), init);
  }

  lemma LastInTurn(fs: seq<File>, next: nat)
    requires fs != [] && InTurn(fs, next)
    ensures var f := fs[|fs| - 1]; InTurn(fs[..|fs| - 1], f.number) && f.Valid() && f.number < next
  {
    var init, f := fs[..|fs| - 1], fs[|fs| - 1];
    hide Newer, FileMetaData.Valid, ToSet;
    assert f in fs;
    forall g | g in init ensures g.number < f.number && g.Valid() {
      InitBefore(fs, next, g);
    }
  }

  lemma InitBefore(fs: seq<File>, next: nat, g: File)
    requires fs != [] && InTurn(fs, next) && g in fs[..|fs| - 1]
    ensures g in fs && g.Valid() && g.number < fs[|fs| - 1].number && Newer(ToSet(fs[|fs| - 1].entries), ToSet(g.entries))
  {
    hide Newer, FileMetaData.Valid, ToSet;
    var i :| 0 <= i < |fs| - 1 && fs[..|fs| - 1][i] == g;
    assert fs[i] == g;
  }

  lemma NewerThanEach(S: set<Entry>, fs: seq<File>)
    requires forall g | g in fs :: Newer(S, ToSet(g.entries))
    ensures Newer(S, Contents(fs))
  {
    forall x, y | x in S && y in Contents(fs) && SameUserKey(x, y) ensures x.key.sequence > y.key.sequence {
      var g :| g in fs && y in g.entries;
      assert y in ToSet(g.entries);
    }
  }

  lemma FlushableOnTop(v: Version, g: Version, f: File, older: set<Entry>, H: set<Entry>)
    requires D.Tables(g, f.number) && f.Valid() && VersionContents(g) == VersionContents(v) + older
    requires Newer(ToSet(f.entries), VersionContents(v)) && Newer(ToSet(f.entries), older)
    requires VersionContents(g) + ToSet(f.entries) <= H && Unique(H)
    ensures Flushable(g, 0, f)
  {
    hide Newer, Unique, ValidVersion, OrderedVersion, VersionContents, FileMetaData.Valid, D.NumbersIdentify;
    NewerUnion(VersionContents(v), older, ToSet(f.entries));
    UniqueSubset(VersionContents(g) + ToSet(f.entries), H);
  }

  /** Level 0 takes each table in turn: the version stays in order and gains just them. */
  lemma {:induction false} FlushedInTurn(v: Version, fs: seq<File>, next: nat, H: set<Entry>, first: nat)
    requires D.Tables(v, first) && InTurn(fs, next) && OnTop(v, fs, H) && Unique(H)
    requires first <= next && forall f | f in fs :: first <= f.number
    ensures D.Tables(Flushed(v, fs), next)
    ensures VersionContents(Flushed(v, fs)) == VersionContents(v) + Contents(fs)
    ensures forall l | 1 <= l < NUM_LEVELS :: Flushed(v, fs)[l] == v[l]
    ensures forall f :: f in Flushed(v, fs)[0] <==> f in v[0] || f in fs
    decreases |fs|
  {
    hide InTurn, D.Tables, Unique, Newer, Contents, VersionContents, NextVersion, FlushEdit, Added, Flushable;
    if fs == [] {
      NoFiles(v);
      MoreRoom(v, first, next);
    } else {
      var init, f := fs[..|fs| - 1], fs[|fs| - 1];
      FrontInTurn(fs, next);
      assert forall g | g in init :: g in fs;
      assert f in fs;
      OnTopParts(v, init, f, fs, H);
      FlushedInTurn(v, init, f.number, H, first);
      var g := Flushed(v, init);
      FlushableOnTop(v, g, f, Contents(init), H);
      FlushOne(g, f, next);
      assert fs == init + [f];
    }
  }

  lemma NoFiles(v: Version)
    ensures VersionContents(v) == VersionContents(v) + Contents([])
  {
  }

  lemma MoreRoom(v: Version, first: nat, next: nat)
    requires D.Tables(v, first) && first <= next
    ensures D.Tables(v, next)
  {
    hide ValidVersion, OrderedVersion, D.NumbersIdentify;
  }

  lemma OnTopParts(v: Version, init: seq<File>, f: File, fs: seq<File>, H: set<Entry>)
    requires OnTop(v, fs, H) && Contents(fs) == Contents(init) + ToSet(f.entries)
    ensures OnTop(v, init, H) && Newer(ToSet(f.entries), VersionContents(v))
    ensures VersionContents(v) + Contents(init) + ToSet(f.entries) <= H
  {
    hide Newer, Contents, VersionContents;
    NewerUnion(Contents(init), ToSet(f.entries), VersionContents(v));
  }

  /** A flush to level 0 of a table with a new number. */
  lemma FlushOne(g: Version, f: File, next: nat)
    requires D.Tables(g, f.number) && Flushable(g, 0, f) && f.number < next
    ensures var v' := NextVersion(g, FlushEdit(0, f));
            && D.Tables(v', next) && VersionContents(v') == VersionContents(g) + ToSet(f.entries)
            && (forall l | 1 <= l < NUM_LEVELS :: v'[l] == g[l])
            && (forall h :: h in v'[0] <==> h in g[0] || h == f)
  {
    var v' := NextVersion(g, FlushEdit(0, f));
    FlushAdds(g, 0, f);
    hide NextVersion, FlushEdit, Flushable, ValidVersion, D.NumbersIdentify, VersionContents, DistinctNumbers;
    FlushKeepsValid(g, v', 0, f);
    D.FlushKeepsNumbers(g, v', 0, f, f.number);
    forall l | 1 <= l < NUM_LEVELS ensures v'[l] == g[l] {
      OtherLevels(g, v', 0, f, l);
    }
  }

  /** The edit that DB::Open logs: every table recovered, at level 0, and the counters. */
  function RecoveryEdit(fs: seq<File>, log: nat, next: nat, last: nat): VersionEdit {
    EMPTY_EDIT.(logNumber := Some(log), nextFileNumber := Some(next), lastSequence := Some(last), newFiles := FilesAt(0, fs))
  }

  /** One edit with all the tables does what one flush after another would do. */
  lemma AllAtOnce(v: Version, fs: seq<File>, next: nat, H: set<Entry>, first: nat, edit: VersionEdit)
    requires D.Tables(v, first) && InTurn(fs, next) && OnTop(v, fs, H) && Unique(H)
    requires first <= next && forall f | f in fs :: first <= f.number
    requires edit.newFiles == FilesAt(0, fs) && edit.deletedFiles == {}
    ensures NextVersion(v, edit) == Flushed(v, fs)
    ensures forall l | 0 <= l < NUM_LEVELS :: DistinctNumbers(v[l] + NewAt(edit.newFiles, l))
  {
    var v', w := NextVersion(v, edit), Flushed(v, fs);
    FlushedInTurn(v, fs, next, H, first);
    NewNumbers(v, fs, next, first);
    assert OrderedVersion(v) && OrderedVersion(w);
    hide InTurn, OnTop, Unique, NextVersion, D.Tables, VersionContents, DistinctNumbers, NumbersDiffer, OrderedFiles, Flushed, NewAt;
    forall l | 0 <= l < NUM_LEVELS ensures v'[l] == w[l] && DistinctNumbers(v[l] + NewAt(edit.newFiles, l)) {
      LevelAtOnce(v, w, fs, edit, l);
    }
  }

  lemma LevelAtOnce(v: Version, w: Version, fs: seq<File>, edit: VersionEdit, l: nat)
    requires edit.newFiles == FilesAt(0, fs) && edit.deletedFiles == {} && l < NUM_LEVELS
    requires OrderedFiles(v[l]) && OrderedFiles(w[l])
    requires DistinctNumbers(fs) && NumbersDiffer(v[0], fs) && DistinctNumbers(v[0] + fs) && DistinctNumbers(v[l])
    requires if l > 0 then w[l] == v[l] else forall f :: f in w[0] <==> f in v[0] || f in fs
    ensures NextVersion(v, edit)[l] == w[l] && DistinctNumbers(v[l] + NewAt(edit.newFiles, l))
  {
    hide NextVersion, DistinctNumbers, NumbersDiffer, OrderedFiles, NewAt, SaveLevel, ApplyLevel;
    NextLevel(v, edit, l);
    NewAtFilesAt(0, fs, l);
    assert DeletedAt(edit, l) == {};
    if l == 0 {
      assert DistinctNumbers(v[0]);
      EditedLevel(v[0], {}, fs);
      OrderedUnique(NextVersion(v, edit)[0], w[0]);
    } else {
      UntouchedLevel(v[l]);
      assert v[l] + [] == v[l];
    }
  }

  lemma NewNumbers(v: Version, fs: seq<File>, next: nat, first: nat)
    requires D.Tables(v, first) && InTurn(fs, next) && forall f | f in fs :: first <= f.number
    ensures DistinctNumbers(fs) && NumbersDiffer(v[0], fs) && DistinctNumbers(v[0] + fs)
    ensures forall l | 0 <= l < NUM_LEVELS :: DistinctNumbers(v[l])
  {
    hide Newer, Unique, OrderedVersion, D.NumbersIdentify, NumberedByAge, SortedLevel, ValidFiles;
    assert DistinctNumbers(v[0]);
    var all := v[0] + fs;
    forall i, j | 0 <= i < j < |all| ensures all[i].number != all[j].number {
      if i < |v[0]| && j >= |v[0]| {
        assert all[i] in v[0] && all[j] in fs;
      }
    }
  }

  // ---------------------------------------------------------------- reading the logs

  /** What has been made of the records read so far, beside the version of the manifest. */
  ghost predicate Gathered(tables: map<nat, set<Entry>>, r: Opening, v: Version, fs: seq<File>, h: seq<Batch>, f: nat) {
    && f + r.read <= |h|
    && InTurn(fs, r.next) && NumberSet(fs) == r.added && Stored(tables, fs)
    && Contents(fs) == Carried(h[f..f + r.read])
    && Shelved(tables, v, r.st.version)
  }

  lemma NothingGathered(d: Disk, r: Opening, v: Version, h: seq<Batch>, f: nat)
    requires f <= |h| && r.read == 0 && r.added == {} && Shelved(d.tables, v, r.st.version)
    ensures Gathered(d.tables, r, v, [], h, f)
  {
    hide Shelved;
    assert h[f..f] == [];
    NoneCarried();
    assert Contents([]) == {};
  }

  /** The next records of the open log are the next of the history. */
  lemma ChunkOfHistory(d: Disk, r: Opening, h: seq<Batch>, f: nat, hi: nat, k: nat)
    requires OpeningOk(d, r, h, f, hi) && Holds(d, h, f, hi) && r.stage.Scanning? && k <= |r.left|
    ensures Chained(h) && f + r.read + k <= |h| && h[f + r.read..f + r.read + k] == r.left[..k]
    ensures forall n | n in r.st.version :: n < r.st.next
    ensures r.st.next < r.next && forall n | n in r.added :: r.st.next < n < r.next
    ensures r.building.Some? ==> r.st.next < r.building.value < r.next && r.building.value !in r.added
  {
    hide Chained, Replay, LogsFrom, Carried, Cover, End;
    NextChunk(d.logs, r, h, f, hi, k);
  }

  lemma StoredElsewhere(a: map<nat, set<Entry>>, b: map<nat, set<Entry>>, fs: seq<File>, n: nat)
    requires Stored(a, fs) && forall f | f in fs :: f.number != n
    requires forall m | m in a && m != n :: m in b && b[m] == a[m]
    ensures Stored(b, fs)
  {
  }

  lemma ShelvedElsewhere(a: map<nat, set<Entry>>, b: map<nat, set<Entry>>, v: Version, numbers: set<nat>, n: nat)
    requires Shelved(a, v, numbers) && n !in numbers
    requires forall m | m in a && m != n :: m in b && b[m] == a[m]
    ensures Shelved(b, v, numbers)
  {
    hide ValidVersion, OrderedVersion, Database.NumbersIdentify, Stored;
    forall l | 0 <= l < NUM_LEVELS ensures Stored(b, v[l]) {
      forall f | f in v[l] ensures f.number != n {
        NumberOf(v, l, f);
      }
      StoredElsewhere(a, b, v[l], n);
    }
  }

  /** A table under a new number leaves those gathered as they are. */
  lemma GatheredElsewhere(a: map<nat, set<Entry>>, b: map<nat, set<Entry>>, r: Opening, r': Opening, v: Version, fs: seq<File>,
                          h: seq<Batch>, f: nat, n: nat)
    requires Gathered(a, r, v, fs, h, f) && n !in r.added && n !in r.st.version
    requires forall m | m in a && m != n :: m in b && b[m] == a[m]
    requires r'.st == r.st && r'.added == r.added && r'.read == r.read && r.next <= r'.next
    ensures Gathered(b, r', v, fs, h, f)
  {
    hide Stored, Shelved, Contents, Carried, Newer;
    forall g | g in fs ensures g.number != n {
      assert g.number in NumberSet(fs);
    }
    StoredElsewhere(a, b, fs, n);
    ShelvedElsewhere(a, b, v, r.st.version, n);
  }

  /** The memtable of some records: the inner loop of RecoverLogFile. */
  method ReplayRecords(records: seq<Batch>, ghost h: seq<Batch>, ghost i: nat) returns (mem: seq<Entry>)
    requires Chained(h) && i + |records| <= |h| && h[i..i + |records|] == records
    ensures Sorted(mem) && ToSet(mem) == Carried(records)
  {
    hide Chained, Carried, Sorted, BatchEntries, Insert, End;
    mem := [];
    EmptySorted();
    NoneCarried();
    assert ToSet([]) == {};
    for k := 0 to |records|
      invariant Sorted(mem) && ToSet(mem) == Carried(records[..k])
    {
      var g := records[k];
      RecordInTurn(h, i, records, k);
      D.InsertOpsSorted(mem, g.ops, g.first);
      mem := D.InsertInto(mem, g.ops, g.first);
      CarriedConcat(records[..k], [g]);
      OneCarried(g);
      assert records[..k + 1] == records[..k] + [g];
    }
    assert records[..|records|] == records;
  }

  /** Records before this one used smaller sequence numbers. */
  lemma RecordInTurn(h: seq<Batch>, i: nat, records: seq<Batch>, k: nat)
    requires Chained(h) && i + |records| <= |h| && h[i..i + |records|] == records && k < |records|
    ensures forall e | e in Carried(records[..k]) :: e.key.sequence < records[k].first
  {
    hide Chained, Carried, End;
    assert records[..k] == h[i..i + k] && records[k] == h[i + k];
    CarriedBetween(h, i, i + k);
    FirstOf(h, i + k);
  }

  /** A table of the next records is newer than all made before it. */
  lemma NextTable(tables: map<nat, set<Entry>>, r: Opening, v: Version, fs: seq<File>, h: seq<Batch>, f: nat, k: nat, mem: seq<Entry>, file: File, next: nat)
    requires Gathered(tables, r, v, fs, h, f) && Chained(h) && f + r.read + k <= |h| && End(h) <= MAX_SEQUENCE
    requires Sorted(mem) && mem != [] && ToSet(mem) == Carried(h[f + r.read..f + r.read + k])
    requires file == D.TableOf(file.number, mem, file.fileSize) && InTurn(fs, file.number) && file.number < next
    ensures InTurn(fs + [file], next)
    ensures Contents(fs + [file]) == Carried(h[f..f + r.read + k])
  {
    hide Chained, Carried, Contents, End, Sorted, Shelved, Stored;
    var a, b, c := f, f + r.read, f + r.read + k;
    CarriedBetween(h, a, b);
    CarriedBetween(h, b, c);
    EndGrows(h, c);
    assert file.Valid() by {
      assert forall e | e in mem :: e in ToSet(mem);
    }
    LaterIsNewer(ToSet(mem), Contents(fs), End(h[..b]));
    hide Newer, FileMetaData.Valid;
    OneMoreInTurn(fs, file, next);
    CompactionWork.ContentsAppend(fs, file);
    assert h[a..c] == h[a..b] + h[b..c];
    CarriedConcat(h[a..b], h[b..c]);
  }

  lemma LaterIsNewer(a: set<Entry>, b: set<Entry>, s: nat)
    requires (forall e | e in a :: s < e.key.sequence) && (forall e | e in b :: e.key.sequence <= s)
    ensures Newer(a, b)
  {
  }

  /** The state after the table of some records, whole or absent. */
  lemma TableGathered(a: map<nat, set<Entry>>, b: map<nat, set<Entry>>, r: Opening, r': Opening, v: Version, fs: seq<File>, fs': seq<File>,
                      h: seq<Batch>, f: nat, k: nat, mem: seq<Entry>, n: nat)
    requires Gathered(a, r, v, fs, h, f) && Chained(h) && f + r.read + k <= |h| && End(h) <= MAX_SEQUENCE
    requires Sorted(mem) && ToSet(mem) == Carried(h[f + r.read..f + r.read + k]) && n == r.next && n !in r.added && n !in r.st.version
    requires forall m | m in a && m != n :: m in b && b[m] == a[m]
    requires mem != [] ==> n in b && b[n] == ToSet(mem)
    requires if mem == [] then fs' == fs else fs' != [] && fs' == fs + [D.TableOf(n, mem, fs'[|fs'| - 1].fileSize)]
    requires r'.st == r.st && r'.next == n + 1 && r'.read == r.read + k && r'.added == if mem == [] then r.added else r.added + {n}
    ensures Gathered(b, r', v, fs', h, f)
  {
    hide Chained, Carried, Contents, End, Sorted, Shelved, Stored, InTurn, ToSet;
    var mid := r'.(added := r.added, read := r.read);
    InTurnLater(fs, n, n + 1);
    GatheredElsewhere(a, b, r, mid, v, fs, h, f, n);
    if mem == [] {
      NoEntries(mem);
      assert h[f..f + r.read + k] == h[f..f + r.read] + h[f + r.read..f + r.read + k];
      CarriedConcat(h[f..f + r.read], h[f + r.read..f + r.read + k]);
    } else {
      var file := D.TableOf(n, mem, fs'[|fs'| - 1].fileSize);
      NextTable(a, r, v, fs, h, f, k, mem, file, n + 1);
      StoredOneMore(b, fs, file);
    }
  }

  lemma InTurnLater(fs: seq<File>, n: nat, next: nat)
    requires InTurn(fs, n) && n <= next
    ensures InTurn(fs, next)
  {
    hide Newer, FileMetaData.Valid;
  }

  lemma NoEntries(mem: seq<Entry>)
    requires mem == []
    ensures ToSet(mem) == {}
  {
  }

  lemma StoredOneMore(tables: map<nat, set<Entry>>, fs: seq<File>, file: File)
    requires Stored(tables, fs) && file.number in tables && tables[file.number] == ToSet(file.entries)
    ensures Stored(tables, fs + [file]) && NumberSet(fs + [file]) == NumberSet(fs) + {file.number}
  {
    assert file in fs + [file];
    assert forall g | g in fs :: g in fs + [file];
  }

  /** RecoverLogFile's WriteLevel0Table: the next `k` records become a table of level 0, unless they hold nothing. */
  method RecoverLevel0Table(store: Store, ghost v: Version, files: seq<File>, k: nat, sizeOf: seq<Entry> -> nat) returns (files': seq<File>)
    requires store.Inv() && store.mode.Recovering? && store.mode.r.stage.Scanning? && store.mode.r.building.None? && 0 < k <= |store.mode.r.left|
    requires Gathered(store.disk.tables, store.mode.r, v, files, store.history, store.flushed) && End(store.history) <= MAX_SEQUENCE
    modifies store`disk, store`mode
    ensures store.Inv() && store.mode.Recovering? && store.mode.r.stage.Scanning? && store.mode.r.building.None?
    ensures Gathered(store.disk.tables, store.mode.r, v, files', store.history, store.flushed)
    ensures store.mode.r.left == old(store.mode).r.left[k..] && store.mode.r.st == old(store.mode).r.st
    ensures store.mode.r.open == old(store.mode).r.open && store.mode.r.at == old(store.mode).r.at
    ensures store.disk == old(store.disk).(tables := store.disk.tables)
  {
    hide OpeningOk, MemoryOk, Accounted, Holds, Carried, Gathered, MaxSequence, Sorted, Chained, End;
    var r := store.mode.r;
    ghost var tables := store.disk.tables;
    ChunkOfHistory(store.disk, r, store.history, store.flushed, store.hi, k);
    var mem := ReplayRecords(r.left[..k], store.history, store.flushed + r.read);
    store.BeginRecoveredTable({});
    store.RecoverTable(k);
    files' := if mem == [] then files else files + [D.TableOf(r.next, mem, sizeOf(mem))];
    assert mem != [] ==> mem[0] in ToSet(mem);
    TableGathered(tables, store.disk.tables, r, store.mode.r, v, files, files', store.history, store.flushed, k, mem, r.next);
  }

  /** The loops of Recover and RecoverLogFile: every log that the manifest still names, oldest first. */
  method RecoverLogs(store: Store, ghost v: Version, sizeOf: seq<Entry> -> nat) returns (files: seq<File>)
    requires store.Inv() && store.mode.Recovering? && store.mode.r.stage.Scanning? && store.mode.r.open.None? && store.mode.r.building.None?
    requires Gathered(store.disk.tables, store.mode.r, v, [], store.history, store.flushed) && End(store.history) <= MAX_SEQUENCE
    modifies store`disk, store`mode
    ensures store.Inv() && store.mode.Recovering? && store.mode.r.stage.Scanning? && store.mode.r.open.None? && store.mode.r.building.None?
    ensures forall k | k in store.disk.logs :: k < store.mode.r.at
    ensures Gathered(store.disk.tables, store.mode.r, v, files, store.history, store.flushed) && store.mode.r.st == old(store.mode).r.st
    ensures store.disk == old(store.disk).(tables := store.disk.tables)
  {
    hide OpeningOk, MemoryOk, Accounted, Holds, Gathered, End;
    files := [];
    var logs := set k | k in store.disk.logs && store.mode.r.at <= k;
    while logs != {}
      invariant store.Inv() && store.mode.Recovering? && store.mode.r.stage.Scanning? && store.mode.r.open.None? && store.mode.r.building.None?
      invariant store.disk == old(store.disk).(tables := store.disk.tables)
      invariant Gathered(store.disk.tables, store.mode.r, v, files, store.history, store.flushed) && store.mode.r.st == old(store.mode).r.st
      invariant forall k :: k in logs <==> k in store.disk.logs && store.mode.r.at <= k
      decreases |logs|
    {
      var n := Smallest(logs);
      ghost var r := store.mode.r;
      store.OpenLog(n);
      SameGathered(store.disk.tables, r, store.mode.r, v, files, store.history, store.flushed);
      while store.mode.r.left != []
        invariant store.Inv() && store.mode.Recovering? && store.mode.r.stage.Scanning? && store.mode.r.building.None?
        invariant store.mode.r.open == Some(n) && store.mode.r.at == n + 1
        invariant store.disk == old(store.disk).(tables := store.disk.tables)
        invariant Gathered(store.disk.tables, store.mode.r, v, files, store.history, store.flushed) && store.mode.r.st == old(store.mode).r.st
        decreases |store.mode.r.left|
      {
        var k :| 0 < k <= |store.mode.r.left|;   // as many records as fill a memtable
        files := RecoverLevel0Table(store, v, files, k, sizeOf);
      }
      r := store.mode.r;
      store.CloseLog();
      SameGathered(store.disk.tables, r, store.mode.r, v, files, store.history, store.flushed);
      logs := logs - {n};
    }
  }

  lemma SameGathered(tables: map<nat, set<Entry>>, r: Opening, r': Opening, v: Version, fs: seq<File>, h: seq<Batch>, f: nat)
    requires Gathered(tables, r, v, fs, h, f)
    requires r'.st == r.st && r'.added == r.added && r'.read == r.read && r.next <= r'.next
    ensures Gathered(tables, r', v, fs, h, f)
  {
    hide Stored, Shelved, Contents, Carried, Newer, FileMetaData.Valid;
  }

  // ---------------------------------------------------------------- the database that comes of it

  lemma {:induction false} CoverOfVersion(tables: map<nat, set<Entry>>, v: Version)
    requires forall l | 0 <= l < NUM_LEVELS :: Stored(tables, v[l])
    ensures Cover(tables, VersionNumbers(v)) == VersionContents(v)
  {
    hide Stored, Cover, Contents, VersionContents, VersionNumbers;
    forall e | e in VersionContents(v) ensures e in Cover(tables, VersionNumbers(v)) {
      var l, f := FileHolding(v, e);
      NumberOf(v, l, f);
      CoverMember(tables, VersionNumbers(v), v[l], f, e);
    }
    forall e | e in Cover(tables, VersionNumbers(v)) ensures e in VersionContents(v) {
      var n := CoverTable(tables, VersionNumbers(v), e);
      var l, f := FileNumbered(v, n);
      StoredEntry(tables, v[l], f, e);
      VersionMember(v, l, f, e);
    }
  }

  lemma FileHolding(v: Version, e: Entry) returns (l: nat, f: File)
    requires e in VersionContents(v)
    ensures l < NUM_LEVELS && f in v[l] && e in f.entries
  {
    l :| 0 <= l < NUM_LEVELS && e in Contents(v[l]);
    f :| f in v[l] && e in f.entries;
  }

  /** What the tables of the manifest hold is older than what the logs brought. */
  lemma LogsOnTop(tables: map<nat, set<Entry>>, r: Opening, v: Version, fs: seq<File>, h: seq<Batch>, f: nat)
    requires Gathered(tables, r, v, fs, h, f) && Chained(h) && f + r.read == |h|
    requires Cover(tables, r.st.version) <= Carried(h[..f])
    ensures OnTop(v, fs, Carried(h))
  {
    hide Chained, Carried, Cover, Contents, VersionContents, End, Stored, Newer, InTurn;
    CoverOfVersion(tables, v);
    CarriedBetween(h, 0, f);
    CarriedBetween(h, f, |h|);
    assert h[0..f] == h[..f] && h[f..|h|] == h[f..] && h == h[..f] + h[f..];
    CarriedConcat(h[..f], h[f..]);
    LaterIsNewer(Contents(fs), VersionContents(v), End(h[..f]));
  }

  lemma NumbersOfFlushed(v: Version, w: Version, fs: seq<File>)
    requires forall l | 1 <= l < NUM_LEVELS :: w[l] == v[l]
    requires forall f :: f in w[0] <==> f in v[0] || f in fs
    ensures VersionNumbers(w) == VersionNumbers(v) + NumberSet(fs)
  {
    forall n | n in VersionNumbers(v) + NumberSet(fs) ensures n in VersionNumbers(w) {
      if n in VersionNumbers(v) {
        var l, f := FileNumbered(v, n);
        NumberOf(w, l, f);
      } else {
        var f :| f in fs && f.number == n;
        NumberOf(w, 0, f);
      }
    }
  }

  lemma StoredFlushed(tables: map<nat, set<Entry>>, v: Version, w: Version, fs: seq<File>)
    requires forall l | 1 <= l < NUM_LEVELS :: w[l] == v[l]
    requires forall f :: f in w[0] <==> f in v[0] || f in fs
    requires Stored(tables, fs) && forall l | 0 <= l < NUM_LEVELS :: Stored(tables, v[l])
    ensures forall l | 0 <= l < NUM_LEVELS :: Stored(tables, w[l])
  {
    assert Stored(tables, v[0]);
    assert Stored(tables, w[0]);
  }

  /** The recovered version, with the tables from the logs. */
  /** The recovered tables are all at level 0, and the other levels as they were. */
  ghost predicate AddedOnTop(v: Version, w: Version, fs: seq<File>) {
    && (forall l | 1 <= l < NUM_LEVELS :: w[l] == v[l])
    && (forall f :: f in w[0] <==> f in v[0] || f in fs)
  }

  lemma FlushedOnTop(v: Version, fs: seq<File>, next: nat, H: set<Entry>, first: nat)
    requires D.Tables(v, first) && InTurn(fs, next) && OnTop(v, fs, H) && Unique(H)
    requires first <= next && forall f | f in fs :: first <= f.number
    ensures AddedOnTop(v, Flushed(v, fs), fs)
  {
    hide InTurn, OnTop, D.Tables, Unique, Flushed, Contents, VersionContents;
    FlushedInTurn(v, fs, next, H, first);
  }

  lemma RecoveredVersion(tables: map<nat, set<Entry>>, r: Opening, v: Version, fs: seq<File>, h: seq<Batch>, f: nat, edit: VersionEdit)
    requires Gathered(tables, r, v, fs, h, f) && Chained(h) && f + r.read == |h| && Cover(tables, r.st.version) <= Carried(h[..f])
    requires (forall n | n in r.st.version :: n < r.st.next) && r.st.next < r.next && forall n | n in r.added :: r.st.next < n < r.next
    requires edit.newFiles == FilesAt(0, fs) && edit.deletedFiles == {}
    ensures var w := NextVersion(v, edit);
            && D.Tables(w, r.next) && Shelved(tables, w, r.st.version + r.added)
            && VersionContents(w) == Cover(tables, r.st.version + r.added) && AddedOnTop(v, w, fs)
    ensures forall l | 0 <= l < NUM_LEVELS :: DistinctNumbers(v[l] + NewAt(edit.newFiles, l))
  {
    LogsOnTop(tables, r, v, fs, h, f);
    assert h[..|h|] == h;
    CarriedUnique(h, |h|);
    ManifestTables(tables, v, r.st.version, r.st.next);
    assert ShelvedStored(tables, v);
    forall g | g in fs ensures r.st.next <= g.number {
      assert g.number in NumberSet(fs);
    }
    hide Chained, Carried, Cover, Contents, VersionContents, End, Stored, Newer, InTurn, OnTop, D.Tables, NextVersion, Flushed, DistinctNumbers, NewAt, Shelved, VersionNumbers, NumberSet, Unique, AddedOnTop;
    AllAtOnce(v, fs, r.next, Carried(h), r.st.next, edit);
    FlushedOnTop(v, fs, r.next, Carried(h), r.st.next);
    FlushedInTurn(v, fs, r.next, Carried(h), r.st.next);
    var w := NextVersion(v, edit);
    NumbersOfFlushed(v, w, fs);
    StoredFlushed(tables, v, w, fs);
    CoverOfVersion(tables, w);
    TablesShelved(tables, w, r.next);
  }

  ghost predicate ShelvedStored(tables: map<nat, set<Entry>>, v: Version) {
    forall l | 0 <= l < NUM_LEVELS :: Stored(tables, v[l])
  }

  lemma ManifestTables(tables: map<nat, set<Entry>>, v: Version, numbers: set<nat>, next: nat)
    requires Shelved(tables, v, numbers) && forall n | n in numbers :: n < next
    ensures D.Tables(v, next)
  {
    hide ValidVersion, OrderedVersion, D.NumbersIdentify, Stored;
    forall l, f | 0 <= l < NUM_LEVELS && f in v[l] ensures f.number < next {
      NumberOf(v, l, f);
    }
  }

  lemma TablesShelved(tables: map<nat, set<Entry>>, v: Version, next: nat)
    requires D.Tables(v, next) && forall l | 0 <= l < NUM_LEVELS :: Stored(tables, v[l])
    ensures Shelved(tables, v, VersionNumbers(v))
  {
    hide ValidVersion, OrderedVersion, D.NumbersIdentify, Stored;
  }

  /** And it reads as the history does. */
  lemma RecoveredFaithful(C: set<Entry>, h: seq<Batch>)
    requires Chained(h) && Alike(C, Carried(h)) && End(h) < MAX_SEQUENCE
    ensures D.Faithful(Carried(h), C, End(h), End(h))
  {
    assert h[..|h|] == h && h[0..|h|] == h;
    CarriedUnique(h, |h|);
    CarriedBetween(h, 0, |h|);
    LatestReads(C, h);
    hide Chained, Carried, End, Alike, Unique, Read;
  }

  /** The manifest that recovery wrote describes the version it made. */
  lemma NewManifest(d: Disk, r: Opening, v: Version, fs: seq<File>, log: nat, edit: VersionEdit)
    requires d.current.Some? && d.current.value in d.manifests
    requires d.manifests[d.current.value] == [SnapshotRecord(r.st.version), OpenEdit(r, log)]
    requires edit == RecoveryEdit(fs, log, r.next, r.last) && NumberSet(fs) == r.added
    requires Shelved(d.tables, v, r.st.version) && Shelved(d.tables, NextVersion(v, edit), r.st.version + r.added)
    requires forall l | 0 <= l < NUM_LEVELS :: DistinctNumbers(v[l] + NewAt(edit.newFiles, l))
    ensures Recoverable(d, [M.SnapshotEdit(v), edit])
    ensures SaveTo(NO_FILES, M.ApplyAll(FRESH, [M.SnapshotEdit(v), edit])) == NextVersion(v, edit)
  {
    hide OrderedVersion, ValidVersion, D.NumbersIdentify, Stored, NextVersion, M.SnapshotEdit, Records, Replay, SaveTo, M.ApplyAll, RecoveryEdit, OpenEdit, SnapshotRecord;
    ReplayedVersion(v, edit);
    WrittenRecords(r, v, fs, log, edit);
    SnapshotIsValid(v);
    RewrittenReplay(r, log);
    RecoveryEditValid(fs, log, r.next, r.last);
  }

  /** A snapshot and one edit, replayed from no files, make the version that the edit makes of it. */
  lemma ReplayedVersion(v: Version, edit: VersionEdit)
    requires OrderedVersion(v) && forall l | 0 <= l < NUM_LEVELS :: DistinctNumbers(v[l] + NewAt(edit.newFiles, l))
    ensures SaveTo(NO_FILES, M.ApplyAll(FRESH, [M.SnapshotEdit(v), edit])) == NextVersion(v, edit)
  {
    hide OrderedFiles, EntersOnce, DistinctNumbers, NewAt, NextVersion, M.SnapshotEdit, SaveTo, M.ApplyAll, M.Live;
    OneEditRun(v, edit);
    M.ReplayIsLive(v, [edit]);
    assert [M.SnapshotEdit(v)] + [edit] == [M.SnapshotEdit(v), edit];
  }

  lemma WrittenRecords(r: Opening, v: Version, fs: seq<File>, log: nat, edit: VersionEdit)
    requires edit == RecoveryEdit(fs, log, r.next, r.last) && NumberSet(fs) == r.added && VersionNumbers(v) == r.st.version
    ensures Records([M.SnapshotEdit(v), edit]) == [SnapshotRecord(r.st.version), OpenEdit(r, log)]
  {
    hide M.SnapshotEdit, RecordOf, Records, RecoveryEdit, VersionNumbers, NumberSet;
    SnapshotNumbers(v);
    RecoveryRecord(fs, log, r.next, r.last);
    RecordsOfTwo(M.SnapshotEdit(v), edit);
  }

  lemma RecoveryEditValid(fs: seq<File>, log: nat, next: nat, last: nat)
    ensures ValidEdit(RecoveryEdit(fs, log, next, last))
  {
    forall p | p in FilesAt(0, fs) ensures p.0 == 0 {
      FilesAtLevel(0, fs, p);
    }
  }

  lemma OneEditRun(v: Version, edit: VersionEdit)
    requires forall l | 0 <= l < NUM_LEVELS :: DistinctNumbers(v[l] + NewAt(edit.newFiles, l))
    ensures M.Live(v, [edit]) == NextVersion(v, edit)
    ensures forall l | 0 <= l < NUM_LEVELS :: EntersOnce(v[l], [edit], l)
  {
    hide DistinctNumbers, NewAt, NextVersion;
    assert [edit][..0] == [];
    forall l | 0 <= l < NUM_LEVELS ensures EntersOnce(v[l], [edit], l) {
      assert AllNew([edit], l) == [] + NewAt(edit.newFiles, l);
      assert [] + NewAt(edit.newFiles, l) == NewAt(edit.newFiles, l);
    }
  }

  lemma RecoveryRecord(fs: seq<File>, log: nat, next: nat, last: nat)
    ensures RecordOf(RecoveryEdit(fs, log, next, last)) == Edit({}, NumberSet(fs), Some(log), Some(next), Some(last))
  {
    var e := RecoveryEdit(fs, log, next, last);
    forall n ensures n in NumbersIn(e) <==> n in NumberSet(fs) {
      if n in NumbersIn(e) {
        var p :| p in e.newFiles && p.1.number == n;
        FilesAtLevel(0, fs, p);
      }
      if n in NumberSet(fs) {
        var f :| f in fs && f.number == n;
        NewAtFilesAt(0, fs, 0);
        NewAtHas(e.newFiles, 0, f);
        assert (0, f).1.number == n;
      }
    }
  }

  lemma RecordsOfTwo(a: VersionEdit, b: VersionEdit)
    ensures Records([a, b]) == [RecordOf(a), RecordOf(b)]
  {
    RecordsFirst(a, [b]);
    assert [a] + [b] == [a, b] && [b][..0] == [];
  }

  lemma RewrittenReplay(r: Opening, log: nat)
    ensures Replay([SnapshotRecord(r.st.version), OpenEdit(r, log)]).version == r.st.version + r.added
  {
    var a, b := SnapshotRecord(r.st.version), OpenEdit(r, log);
    hide Replay;
    ReplayAppend([], a);
    ReplayAppend([a], b);
    ReplayNone();
    assert [] + [a] == [a] && [a] + [b] == [a, b];
  }

  // ---------------------------------------------------------------- a new database

  /** NewDB's edit. */
  const FIRST_EDIT := EMPTY_EDIT.(logNumber := Some(0), nextFileNumber := Some(2), lastSequence := Some(0))

  lemma FirstRecoverable(d: Disk)
    requires d.current.Some? && d.current.value in d.manifests
    requires d.manifests[d.current.value] == [Edit({}, {}, Some(0), Some(2), Some(0))]
    ensures Recoverable(d, [FIRST_EDIT])
  {
    var e := FIRST_EDIT;
    assert [e][..0] == [];
    assert RecordOf(e) == Edit({}, {}, Some(0), Some(2), Some(0));
    assert Records([e]) == [] + [RecordOf(e)];
    hide Replay, M.ApplyAll, SaveTo, RecordOf, Records, Shelved;
    ReplayAppend([], RecordOf(e));
    ReplayNone();
    assert [] + [RecordOf(e)] == [RecordOf(e)];
    FirstVersion();
    NoneShelved(d.tables);
    assert {} - {} + {} == RecordOf(e).added;
  }

  lemma FirstVersion()
    ensures SaveTo(NO_FILES, M.ApplyAll(FRESH, [FIRST_EDIT])) == NO_FILES
  {
    var v := NO_FILES;
    hide NextVersion, SaveLevel, ApplyLevel, SaveTo, M.ApplyAll, ApplyEdit;
    assert [FIRST_EDIT][..0] == [];
    assert M.ApplyAll(FRESH, []) == FRESH by { NothingApplied(); }
    assert M.ApplyAll(FRESH, [FIRST_EDIT]) == ApplyEdit(FRESH, FIRST_EDIT) by { OneApplied(FIRST_EDIT); }
    forall l | 0 <= l < NUM_LEVELS ensures NextVersion(v, FIRST_EDIT)[l] == v[l] {
      NextLevel(v, FIRST_EDIT, l);
      assert DeletedAt(FIRST_EDIT, l) == {};
      UntouchedLevel(v[l]);
    }
    assert NextVersion(v, FIRST_EDIT) == v;
    assert NextVersion(v, FIRST_EDIT) == SaveTo(v, ApplyEdit(FRESH, FIRST_EDIT)) by { NextIsSaved(v, FIRST_EDIT); }
  }

  lemma NextIsSaved(v: Version, e: VersionEdit)
    ensures NextVersion(v, e) == SaveTo(v, ApplyEdit(FRESH, e))
  {
    hide SaveTo, ApplyEdit;
  }

  lemma NothingApplied()
    ensures M.ApplyAll(FRESH, []) == FRESH
  {
  }

  lemma OneApplied(e: VersionEdit)
    ensures M.ApplyAll(FRESH, [e]) == ApplyEdit(FRESH, e)
  {
    hide ApplyEdit;
    assert [e][..0] == [];
  }

  lemma NoneShelved(tables: map<nat, set<Entry>>)
    ensures Shelved(tables, NO_FILES, {})
  {
    D.NoTables();
    hide ValidVersion, OrderedVersion, D.NumbersIdentify;
    assert forall l | 0 <= l < NUM_LEVELS :: NO_FILES[l] == [];
  }

  // ---------------------------------------------------------------- DB::Open

  lemma ManifestShelved(d: Disk, edits: seq<VersionEdit>)
    requires Recoverable(d, edits)
    ensures d.current.Some? && d.current.value in d.manifests && (forall e | e in edits :: ValidEdit(e))
    ensures Shelved(d.tables, SaveTo(NO_FILES, M.ApplyAll(FRESH, edits)), Replay(d.manifests[d.current.value]).version)
  {
  }

  lemma ReadingEnded(d: Disk, r: Opening, h: seq<Batch>, f: nat, hi: nat)
    requires OpeningOk(d, r, h, f, hi) && Holds(d, h, f, hi) && r.stage.Rewritten?
    ensures Chained(h) && f + r.read == |h| && Cover(d.tables, r.st.version) <= Carried(h[..f])
    ensures (forall n | n in r.st.version :: n < r.st.next) && r.st.next < r.next && forall n | n in r.added :: r.st.next < n < r.next
    ensures r.st.next in d.manifests && d.manifests[r.st.next] == [SnapshotRecord(r.st.version), OpenEdit(r, r.stage.log)]
  {
    hide Chained, Replay, LogsFrom, Carried, Cover, End, Read;
  }

  lemma FilesGathered(tables: map<nat, set<Entry>>, r: Opening, v: Version, fs: seq<File>, h: seq<Batch>, f: nat)
    requires Gathered(tables, r, v, fs, h, f)
    ensures NumberSet(fs) == r.added && Shelved(tables, v, r.st.version)
  {
  }

  /** NewDB, if there is no database yet. */
  method MakeManifest(store: Store, manifest: seq<VersionEdit>) returns (edits: seq<VersionEdit>)
    requires store.Inv() && store.mode.Down?
    requires store.disk.current.Some? ==> Recoverable(store.disk, manifest)
    modifies store`disk
    ensures store.Inv() && Recoverable(store.disk, edits)
    ensures edits == if old(store.disk).current.Some? then manifest else [FIRST_EDIT]
  {
    hide OpeningOk, MemoryOk, Accounted, Holds, Recoverable;
    edits := manifest;
    if store.disk.current.None? {
      store.BeginFirstManifest();
      store.WriteFirstManifest();
      store.SetFirstCurrent();
      FirstRecoverable(store.disk);
      edits := [FIRST_EDIT];
    }
  }

  /** DBImpl::Recover: the version of the manifest, and tables of what the logs hold. */
  method Recover(store: Store, edits: seq<VersionEdit>, sizeOf: seq<Entry> -> nat) returns (v: Version, files: seq<File>)
    requires store.Inv() && store.mode.Down? && End(store.history) <= MAX_SEQUENCE && Recoverable(store.disk, edits)
    modifies store`disk, store`mode
    ensures store.Inv() && store.mode.Recovering? && store.mode.r.stage.Scanning? && store.mode.r.open.None? && store.mode.r.building.None?
    ensures forall k | k in store.disk.logs :: k < store.mode.r.at
    ensures Gathered(store.disk.tables, store.mode.r, v, files, store.history, store.flushed)
    ensures Recoverable(store.disk, edits) && store.disk.current == old(store.disk).current
    ensures v == SaveTo(NO_FILES, M.ApplyAll(FRESH, edits))
  {
    hide OpeningOk, MemoryOk, Accounted, Holds, Gathered, Recoverable, Shelved, Chained, End, Replay, SaveTo, M.ApplyAll;
    ghost var d := store.disk;
    ManifestShelved(store.disk, edits);
    store.ReadCurrent();
    v := M.RecoverVersion(edits);
    HistoryBounds(store.disk, store.history, store.flushed, store.hi);
    NothingGathered(store.disk, store.mode.r, v, store.history, store.flushed);
    files := RecoverLogs(store, v, sizeOf);
    FilesGathered(store.disk.tables, store.mode.r, v, files, store.history, store.flushed);
    StaysRecoverable(d, store.disk, edits);
  }

  /** What is known once the edit is whole in the new manifest. */
  ghost predicate Written(d: Disk, r: Opening, v: Version, files: seq<File>, edit: VersionEdit, h: seq<Batch>, f: nat) {
    && Gathered(d.tables, r, v, files, h, f) && r.stage.Rewritten?
    && edit == RecoveryEdit(files, r.stage.log, r.next, r.last)
  }

  /** DB::Open after Recover: a new log, a new manifest with the recovered version and the edit with the new tables. */
  method SwitchManifest(store: Store, v: Version, files: seq<File>, ghost edits: seq<VersionEdit>) returns (edit: VersionEdit)
    requires store.Inv() && store.mode.Recovering? && store.mode.r.stage.Scanning? && store.mode.r.open.None?
    requires forall k | k in store.disk.logs :: k < store.mode.r.at
    requires Gathered(store.disk.tables, store.mode.r, v, files, store.history, store.flushed) && Recoverable(store.disk, edits)
    modifies store`disk, store`mode, store`hi
    ensures Recoverable(store.disk, edits) && store.disk.current == old(store.disk).current
    ensures store.Inv() && store.mode.Recovering? && Written(store.disk, store.mode.r, v, files, edit, store.history, store.flushed)
  {
    hide OpeningOk, MemoryOk, Accounted, Holds, Gathered, RecoveryEdit, Recoverable, Shelved, Replay, SaveTo, M.ApplyAll;
    ghost var r, d := store.mode.r, store.disk;
    ManifestShelved(d, edits);
    ManifestNumber(d, r, store.history, store.flushed, store.hi);
    store.MakeNewLog();
    store.BeginManifest();
    store.WriteSnapshot();
    store.WriteOpenEdit();
    SameGathered(store.disk.tables, r, store.mode.r, v, files, store.history, store.flushed);
    edit := RecoveryEdit(files, store.mode.r.stage.log, store.mode.r.next, store.mode.r.last);
    StaysRecoverable(d, store.disk, edits);
  }

  lemma ManifestNumber(d: Disk, r: Opening, h: seq<Batch>, f: nat, hi: nat)
    requires OpeningOk(d, r, h, f, hi)
    ensures d.current.Some? && d.current.value != r.st.next
  {
    hide Replay, ReadSoFar, StageOk;
  }

  /** What the version made of v and the edit is, on the disk that CURRENT now names. */
  lemma WrittenMeans(d: Disk, d': Disk, r: Opening, v: Version, files: seq<File>, edit: VersionEdit, h: seq<Batch>, f: nat, hi: nat)
    requires OpeningOk(d, r, h, f, hi) && Holds(d, h, f, hi) && Written(d, r, v, files, edit, h, f)
    requires d' == d.(current := Some(r.st.next)) && End(h) < MAX_SEQUENCE
    requires Alike(Cover(d.tables, r.st.version + r.added), Carried(h))
    ensures var w := NextVersion(v, edit);
            && D.Tables(w, r.next) && D.Faithful(Carried(h), VersionContents(w), End(h), End(h))
            && VersionNumbers(w) == r.st.version + r.added && AddedOnTop(v, w, files)
            && Recoverable(d', [M.SnapshotEdit(v), edit])
            && SaveTo(NO_FILES, M.ApplyAll(FRESH, [M.SnapshotEdit(v), edit])) == w
  {
    hide OpeningOk, Holds, Carried, Cover, Alike, Gathered, Recoverable, Shelved, Chained, End, SaveTo, M.ApplyAll, NextVersion, D.Tables, D.Faithful, VersionNumbers, VersionContents, DistinctNumbers, NewAt, RecoveryEdit, OpenEdit, SnapshotRecord, AddedOnTop;
    ReadingEnded(d, r, h, f, hi);
    EditAdds(files, r.stage.log, r.next, r.last);
    RecoveredVersion(d.tables, r, v, files, h, f, edit);
    FilesGathered(d.tables, r, v, files, h, f);
    NewManifest(d', r, v, files, r.stage.log, edit);
    RecoveredFaithful(Cover(d.tables, r.st.version + r.added), h);
    ShelvedNumbers(d.tables, NextVersion(v, edit), r.st.version + r.added);
  }

  lemma ShelvedNumbers(tables: map<nat, set<Entry>>, v: Version, numbers: set<nat>)
    requires Shelved(tables, v, numbers)
    ensures VersionNumbers(v) == numbers
  {
  }

  /**
    The database is opened from any state a crash can leave, and has what was written: its history is the whole
    history of the store, and Get reads it.  What is on disk describes the database opened, so that it can be
    opened again after the next crash.
  */
  method Open(store: Store, manifest: seq<VersionEdit>, options: D.Options, pointers: seq<Option<InternalKey>>)
    returns (db: D.DbImpl, written: seq<VersionEdit>, v: Version, files: seq<File>)
    requires store.Inv() && store.mode.Down? && End(store.history) < MAX_SEQUENCE && |pointers| == NUM_LEVELS
    requires store.disk.current.Some? ==> Recoverable(store.disk, manifest)
    modifies store
    ensures store.Inv() && store.mode.Running?
    ensures store.history == old(store.history) && store.acked == old(store.acked) && store.spared == old(store.spared)
    ensures fresh(db) && db.Valid() && db.options == options && db.imm == None && db.mem == [] && db.work == None && db.snapshots == []
    ensures db.history == Carried(store.history) && db.lastSequence == store.mode.m.last == End(store.history)
    ensures VersionNumbers(db.current) == store.mode.m.version && db.nextFileNumber == store.mode.m.next && db.pointers == pointers
    ensures Recoverable(store.disk, written) && db.current == SaveTo(NO_FILES, M.ApplyAll(FRESH, written))
    ensures v == SaveTo(NO_FILES, M.ApplyAll(FRESH, if old(store.disk).current.Some? then manifest else [FIRST_EDIT]))
    ensures AddedOnTop(v, db.current, files)
  {
    hide OpeningOk, MemoryOk, Accounted, Holds, Carried, Cover, Alike, Gathered, Recoverable, Chained, End, SaveTo, M.ApplyAll, NextVersion, D.Tables, D.Faithful, VersionNumbers, VersionContents, RecoveryEdit, Written, AddedOnTop;
    var edits := MakeManifest(store, manifest);
    v, files := Recover(store, edits, options.sizeOf);
    var edit := SwitchManifest(store, v, files, edits);
    ghost var d, r, f := store.disk, store.mode.r, store.flushed;
    IsWritten(d, r, v, files, edit, store.history, f);
    store.SetCurrent();
    WrittenMeans(d, store.disk, r, v, files, edit, store.history, f, store.hi);
    written := [M.SnapshotEdit(v), edit];
    db := MakeDb(options, v, edit, store.mode.m.last, store.mode.m.next, pointers, Carried(store.history));
  }

  lemma IsWritten(d: Disk, r: Opening, v: Version, files: seq<File>, edit: VersionEdit, h: seq<Batch>, f: nat)
    requires Written(d, r, v, files, edit, h, f)
    ensures r.stage.Rewritten? && ValidEdit(edit) && OrderedVersion(v)
  {
    RecoveryEditValid(files, r.stage.log, r.next, r.last);
  }

  /** LogAndApply's version, and the database on it. */
  method MakeDb(options: D.Options, v: Version, edit: VersionEdit, last: nat, next: nat, pointers: seq<Option<InternalKey>>, ghost H: set<Entry>)
    returns (db: D.DbImpl)
    requires |pointers| == NUM_LEVELS && ValidEdit(edit) && OrderedVersion(v)
    requires D.Tables(NextVersion(v, edit), next) && D.Faithful(H, VersionContents(NextVersion(v, edit)), last, last)
    ensures fresh(db) && db.Valid() && db.options == options && db.current == NextVersion(v, edit)
    ensures db.imm == None && db.mem == [] && db.work == None && db.snapshots == []
    ensures db.history == H && db.floor == db.lastSequence == last && db.nextFileNumber == next && db.pointers == pointers
  {
    hide D.Tables, D.Faithful, SaveTo, ApplyEdit, OrderedFiles, ValidEdit;
    var builder := new Builder(v);
    builder.Apply(edit);
    var current := builder.SaveVersion();
    db := new D.DbImpl.Reopened(options, current, last, next, pointers, H);
  }

  lemma HistoryBounds(d: Disk, h: seq<Batch>, f: nat, hi: nat)
    requires Holds(d, h, f, hi)
    ensures f <= |h|
  {
    hide Chained, Keeps, Replay;
  }

  lemma EditAdds(fs: seq<File>, log: nat, next: nat, last: nat)
    ensures RecoveryEdit(fs, log, next, last).newFiles == FilesAt(0, fs) && RecoveryEdit(fs, log, next, last).deletedFiles == {}
  {
  }

  /** Until CURRENT changes, the old manifest describes what is on disk: a crash on the way loses nothing. */
  lemma StaysRecoverable(d: Disk, d': Disk, edits: seq<VersionEdit>)
    requires Recoverable(d, edits) && d'.current == d.current
    requires d.current.value in d'.manifests && d'.manifests[d.current.value] == d.manifests[d.current.value]
    requires Shelved(d'.tables, SaveTo(NO_FILES, M.ApplyAll(FRESH, edits)), Replay(d.manifests[d.current.value]).version)
    ensures Recoverable(d', edits)
  {
    hide Shelved, SaveTo, M.ApplyAll, Replay;
  }
}
