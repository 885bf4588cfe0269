/** The database as a whole: writes, memtable switches, flushes, compactions, snapshots and reads
    (DBImpl in db/db_impl.cc), against the plain history of everything written. */
module Database {
  import opened InternalKeys
  import opened Batches
  import opened Versions
  import opened VersionEdits
  import opened Picking
  import opened DropRules
  import opened CompactionWork
  import opened Installing
  import opened Flushing

  // ---------------------------------------------------------------- write batches

  /** The memtable after the operations went in one by one. */
  function InsertOps(mem: seq<Entry>, ops: seq<Op<UserKey>>, s: nat): seq<Entry>
    decreases |ops|
  {
    if ops == [] then mem
    else Insert(InsertOps(mem, ops[..|ops| - 1], s), OpEntry(ops[|ops| - 1], s + |ops| - 1))
  }

  lemma {:induction false} InsertOpsSorted(mem: seq<Entry>, ops: seq<Op<UserKey>>, s: nat)
    requires Sorted(mem) && forall e | e in ToSet(mem) :: e.key.sequence < s
    ensures Sorted(InsertOps(mem, ops, s))
    ensures ToSet(InsertOps(mem, ops, s)) == ToSet(mem) + BatchEntries(ops, s)
    decreases |ops|
  {
    hide Sorted, Insert, Unique, BatchEntries;
    if ops == [] {
      assert BatchEntries(ops, s) == {} by { BatchSequences(ops, s); NoOps(s); }
    } else {
      var init, op := ops[..|ops| - 1], ops[|ops| - 1];
      assert ops == init + [op];
      InsertOpsSorted(mem, init, s);
      BatchSequences(init, s);
      BatchGrows(init, op, s);
      var m, e := InsertOps(mem, init, s), OpEntry(op, s + |init|);
      forall x | x in m ensures x.key != e.key {
        assert x in ToSet(m);
      }
      InsertKeepsSorted(m, e);
    }
  }

  /** MemTableInserter: the batch's operations go into the memtable one by one. */
  method InsertInto(mem: seq<Entry>, ops: seq<Op<UserKey>>, s: nat) returns (out: seq<Entry>)
    ensures out == InsertOps(mem, ops, s)
  {
    hide Insert;
    out := mem;
    var sequence := s;
    for i := 0 to |ops|
      invariant sequence == s + i
      invariant out == InsertOps(mem, ops[..i], s)
    {
      assert ops[..i + 1][..i] == ops[..i];
      match ops[i] {
        case Put(k, v) => out := Insert(out, Entry(InternalKey(k, sequence, TypeValue), v));
        case Delete(k) => out := Insert(out, Entry(InternalKey(k, sequence, TypeDeletion), []));
      }
      sequence := sequence + 1;
    }
    assert ops[..|ops|] == ops;
  }

  // ---------------------------------------------------------------- what stays true in every run

  ghost function ImmSet(imm: Option<seq<Entry>>): set<Entry> {
    if imm.Some? then ToSet(imm.value) else {}
  }

  /** Everything the database holds. */
  ghost function All(mem: seq<Entry>, imm: Option<seq<Entry>>, v: Version): set<Entry> {
    ToSet(mem) + ImmSet(imm) + VersionContents(v)
  }

  /** A file number names one file at one level. */
  ghost predicate NumbersIdentify(v: Version) {
    forall l, m, f, g | 0 <= l < NUM_LEVELS && 0 <= m < NUM_LEVELS && f in v[l] && g in v[m] && f.number == g.number ::
      l == m && f == g
  }

  ghost predicate NumbersBelow(v: Version, next: nat) {
    forall l, f | 0 <= l < NUM_LEVELS && f in v[l] :: f.number < next
  }

  ghost predicate Tables(v: Version, next: nat) {
    ValidVersion(v) && OrderedVersion(v) && NumbersBelow(v, next) && NumbersIdentify(v)
  }

  ghost predicate Layered(mem: seq<Entry>, imm: Option<seq<Entry>>, v: Version) {
    && Sorted(mem)
    && (imm.Some? ==> Sorted(imm.value))
    && Newer(ToSet(mem), ImmSet(imm))
    && Newer(ToSet(mem) + ImmSet(imm), VersionContents(v))
  }

  /** At or above `floor`, what is held reads like what was written. */
  ghost predicate Faithful(H: set<Entry>, C: set<Entry>, last: nat, floor: nat) {
    && C <= H
    && Unique(H)
    && (forall e | e in H :: e.key.sequence <= last)
    && floor <= last < MAX_SEQUENCE
    && forall k, s | floor <= s :: Read(C, k, s) == Read(H, k, s)
  }

  ghost predicate SnapshotsAbove(snapshots: seq<nat>, floor: nat, last: nat) {
    forall s | s in snapshots :: floor <= s <= last
  }

  ghost predicate OldestFirst(snapshots: seq<nat>) {
    forall i, j | 0 <= i < j < |snapshots| :: snapshots[i] <= snapshots[j]
  }

  /** The compaction the background thread is working on, if any. */
  datatype Work = Work(c: CompactionInputs, smallestSnapshot: nat)

  ghost predicate WorkOk(work: Option<Work>, v: Version, snapshots: seq<nat>, last: nat) {
    work.Some? ==>
      var w := work.value;
      && Pending(v, w.c)
      && DistinctNumbers(w.c.inputs0) && DistinctNumbers(w.c.inputs1)
      && (forall l | 1 <= l < NUM_LEVELS :: ValidFiles(w.c.version[l]) && SortedLevel(w.c.version[l]))
      && SnapshotsAbove(snapshots, w.smallestSnapshot, last)
      && w.smallestSnapshot <= last
  }

  /** Work that no flush can come in the way of: its files leave no gap. */
  ghost predicate NotDisturbed(work: Option<Work>) {
    work.Some? ==> Gapless(work.value.c.Files())
  }

  /** No key is split between files, and the work in progress will not split one. */
  ghost predicate Unsplit(v: Version, work: Option<Work>) {
    && DisjointVersion(v)
    && (work.Some? ==> forall e | e in work.value.c.Entries() :: e.key.sequence <= work.value.smallestSnapshot)
  }

  // ---------------------------------------------------------------- reads

  /** Memtable first, then the immutable memtable, then the tables. */
  lemma LayeredSearch(mem: seq<Entry>, imm: Option<seq<Entry>>, v: Version, k: UserKey, s: nat)
    requires Layered(mem, imm, v) && Unique(All(mem, imm, v))
    ensures Newest(All(mem, imm, v), k, s)
         == if SeekGet(mem, k, s).Some? then SeekGet(mem, k, s)
            else if imm.Some? && SeekGet(imm.value, k, s).Some? then SeekGet(imm.value, k, s)
            else Newest(VersionContents(v), k, s)
  {
    var M, I, V := ToSet(mem), ImmSet(imm), VersionContents(v);
    UniqueSubset(M, M + I + V);
    UniqueSubset(I, M + I + V);
    UniqueSubset(V, M + I + V);
    SeekGetIsNewest(mem, k, s);
    if imm.Some? {
      SeekGetIsNewest(imm.value, k, s);
    }
    NewestExists(I, k, s);
    NewestOfLayers(M, I, k, s);
    NewestOfLayers(M + I, V, k, s);
  }

  // ---------------------------------------------------------------- writes

  lemma BatchIsNewer(H: set<Entry>, B: set<Entry>, last: nat)
    requires forall e | e in H :: e.key.sequence <= last
    requires forall e | e in B :: e.key.sequence > last
    ensures forall S | S <= H :: Newer(B, S)
  {
  }

  /** Writing the same newer entries to both sides keeps them reading alike. */
  lemma WriteKeepsFaithful(H: set<Entry>, C: set<Entry>, B: set<Entry>, last: nat, last': nat, floor: nat)
    requires Faithful(H, C, last, floor) && last <= last' < MAX_SEQUENCE
    requires Unique(B) && forall e | e in B :: last < e.key.sequence <= last'
    ensures Faithful(H + B, C + B, last', floor)
  {
    BatchIsNewer(H, B, last);
    UniqueSubset(C, H);
    hide Unique, Newer;
    forall k, s | floor <= s ensures Read(C + B, k, s) == Read(H + B, k, s) {
      NewestOfLayers(B, C, k, s);
      NewestOfLayers(B, H, k, s);
      assert B + C == C + B && B + H == H + B;
      assert Read(C, k, s) == Read(H, k, s);
    }
    NewestOfLayers(B, H, 0.0, 0);
    assert B + H == H + B;
  }

  lemma WriteKeepsLayered(mem: seq<Entry>, imm: Option<seq<Entry>>, v: Version, ops: seq<Op<UserKey>>, H: set<Entry>, last: nat)
    requires Layered(mem, imm, v) && All(mem, imm, v) <= H && forall e | e in H :: e.key.sequence <= last
    ensures Layered(InsertOps(mem, ops, last + 1), imm, v)
    ensures All(InsertOps(mem, ops, last + 1), imm, v) == All(mem, imm, v) + BatchEntries(ops, last + 1)
  {
    BatchSequences(ops, last + 1);
    assert forall e | e in ToSet(mem) :: e in H;
    InsertOpsSorted(mem, ops, last + 1);
    var M, I, V, B := ToSet(mem), ImmSet(imm), VersionContents(v), BatchEntries(ops, last + 1);
    hide Sorted, Newer, InsertOps, BatchEntries, VersionContents, ToSet, ImmSet, Unique;
    BatchAbove(M, I, V, B, H, last);
    Shuffle(M, I, V, B);
  }

  /** New entries on top keep the layers in order. */
  lemma BatchAbove(M: set<Entry>, I: set<Entry>, V: set<Entry>, B: set<Entry>, H: set<Entry>, last: nat)
    requires Newer(M, I) && Newer(M + I, V) && M + I + V <= H
    requires forall e | e in H :: e.key.sequence <= last
    requires forall e | e in B :: e.key.sequence > last
    ensures Newer(M + B, I) && Newer(M + I + B, V)
  {
    hide Newer;
    BatchIsNewer(H, B, last);
    NewerUnion(M, B, I);
    NewerUnion(M + I, B, V);
  }

  lemma Shuffle<T>(M: set<T>, I: set<T>, V: set<T>, B: set<T>)
    ensures M + B + I == M + I + B
    ensures M + B + I + V == M + I + V + B
  {
  }

  // ---------------------------------------------------------------- flush

  function TableOf(number: nat, es: seq<Entry>, size: nat): File
    requires es != []
  {
    FileMetaData(number, size, es[0].key, es[|es| - 1].key, es)
  }

  lemma ImmIsFlushable(mem: seq<Entry>, imm: seq<Entry>, v: Version, H: set<Entry>, next: nat, level: nat, size: nat)
    requires Layered(mem, Some(imm), v) && Tables(v, next) && level < NUM_LEVELS
    requires All(mem, Some(imm), v) <= H && Unique(H) && forall e | e in H :: e.key.sequence <= MAX_SEQUENCE
    requires imm != []
    requires level > 0 ==> NoOverlapTo(v, level, imm[0].key.userKey, imm[|imm| - 1].key.userKey)
    ensures Flushable(v, level, TableOf(next, imm, size))
  {
    var f := TableOf(next, imm, size);
    var V := VersionContents(v);
    assert f.Valid() by {
      hide Newer, Unique, VersionContents, NoOverlapTo, Tables;
      assert forall e | e in imm :: e in ToSet(imm) && e in H;
    }
    hide Sorted, ValidVersion, OrderedVersion, VersionContents, ToSet, Newer, Unique, NumbersIdentify, FileMetaData.Valid;
    NewerUnion(ToSet(mem), ToSet(imm), V);
    UniqueSubset(V + ToSet(imm), H);
  }

  /** The memtable becomes a table: nothing held changes, and everything stays in order. */
  lemma FlushKeepsTables(mem: seq<Entry>, imm: seq<Entry>, v: Version, v': Version, next: nat, level: nat, f: File)
    requires Layered(mem, Some(imm), v) && Tables(v, next) && level < NUM_LEVELS
    requires Added(v, v', level, f) && Flushable(v, level, f) && f.number == next && f.entries == imm
    ensures Tables(v', next + 1) && Layered(mem, None, v')
    ensures All(mem, None, v') == All(mem, Some(imm), v)
  {
    assert OrderedVersion(v');
    hide ValidVersion, VersionContents, Flushable, NumbersIdentify, NumbersBelow, Added, OrderedVersion;
    FlushKeepsValid(v, v', level, f);
    FlushKeepsNumbers(v, v', level, f, next);
    FlushKeepsLayered(mem, imm, v, v');
  }

  lemma FlushKeepsLayered(mem: seq<Entry>, imm: seq<Entry>, v: Version, v': Version)
    requires Layered(mem, Some(imm), v) && VersionContents(v') == VersionContents(v) + ToSet(imm)
    ensures Layered(mem, None, v')
    ensures All(mem, None, v') == All(mem, Some(imm), v)
  {
    var M, I, V := ToSet(mem), ToSet(imm), VersionContents(v);
    hide Sorted, VersionContents, Newer, ToSet;
    NewerParts(M, I, V);
    NewerUnion(V, I, M);
    NothingIsNewer(M);
    assert M + I + V == M + {} + (V + I);
    assert M + {} == M;
  }

  lemma NewerParts(M: set<Entry>, I: set<Entry>, V: set<Entry>)
    requires Newer(M + I, V)
    ensures Newer(M, V) && Newer(I, V)
  {
  }

  lemma FlushKeepsNumbers(v: Version, v': Version, level: nat, f: File, next: nat)
    requires level < NUM_LEVELS && Added(v, v', level, f) && NumbersBelow(v, next) && NumbersIdentify(v) && f.number == next
    ensures NumbersBelow(v', next + 1) && NumbersIdentify(v')
  {
    hide OrderedVersion, DistinctNumbers;
    forall l, g | 0 <= l < NUM_LEVELS && g in v'[l] ensures g in v[l] || (l == level && g == f) {
    }
  }

  /** Switching memtables moves the entries one layer down and nothing else. */
  lemma SwitchKeepsLayered(mem: seq<Entry>, v: Version)
    requires Layered(mem, None, v)
    ensures Layered([], Some(mem), v)
    ensures All([], Some(mem), v) == All(mem, None, v)
  {
    EmptySorted();
    assert ToSet([]) == {};
    assert {} + ToSet(mem) == ToSet(mem) + {};
  }

  // ---------------------------------------------------------------- compaction

  /** The conditions under which the input of a picked compaction can be merged. */
  lemma InputsApart(v: Version, c: CompactionInputs)
    requires ValidVersion(v) && Pending(v, c) && DistinctNumbers(c.inputs0) && DistinctNumbers(c.inputs1)
    ensures FilesApart(c.inputs0 + c.inputs1) && ValidFiles(c.inputs0 + c.inputs1)
    ensures Contents(c.inputs0 + c.inputs1) == c.Entries()
  {
    var fs := c.inputs0 + c.inputs1;
    var L := c.level;
    hide FileMetaData.Valid, Unique, NothingOlderLeft, Beside, KnownOrClear, Spans;
    assert ValidFiles(v[L]) && ValidFiles(v[L + 1]);
    forall i, j, x, y | 0 <= i < j < |fs| && x in fs[i].entries && y in fs[j].entries ensures x.key != y.key {
      if j < |c.inputs0| {
        assert fs[i] == c.inputs0[i] && fs[j] == c.inputs0[j];
        SameLevelApart(v, L, fs[i], fs[j], x, y);
      } else if i >= |c.inputs0| {
        var a, b := i - |c.inputs0|, j - |c.inputs0|;
        assert fs[i] == c.inputs1[a] && fs[j] == c.inputs1[b];
        assert c.inputs1[a] in c.inputs1 && c.inputs1[b] in c.inputs1;
        SameLevelApart(v, L + 1, fs[i], fs[j], x, y);
      } else {
        var b := j - |c.inputs0|;
        assert fs[i] == c.inputs0[i] && fs[j] == c.inputs1[b] && c.inputs1[b] in c.inputs1;
        ContentsMember(v[L], fs[i], x);
        ContentsMember(v[L + 1], fs[j], y);
        if SameUserKey(x, y) {
          NewerThan(Contents(v[L]), Contents(v[L + 1]), x, y);
        }
      }
    }
  }

  lemma SameLevelApart(v: Version, l: nat, f: File, g: File, x: Entry, y: Entry)
    requires ValidVersion(v) && l < NUM_LEVELS && f in v[l] && g in v[l] && f.number != g.number
    requires x in f.entries && y in g.entries
    ensures x.key != y.key
  {
    hide FileMetaData.Valid, Newer, Unique, NumberedByAge, SortedLevel;
    assert ValidFiles(v[l]);
    if l == 0 {
      LevelZeroApart(v[0], f, g, x, y);
    } else {
      SortedMeansLined(v[l], f, g);
      EntryInRange(f, x);
      EntryInRange(g, y);
    }
  }

  lemma LevelZeroApart(fs: seq<File>, f: File, g: File, x: Entry, y: Entry)
    requires NumberedByAge(fs) && f in fs && g in fs && f.number != g.number
    requires x in f.entries && y in g.entries
    ensures x.key != y.key
  {
    hide Newer;
    var a, b := ToSet(f.entries), ToSet(g.entries);
    assert x in a && y in b;
    if SameUserKey(x, y) {
      if f.number > g.number {
        NewerThan(a, b, x, y);
      } else {
        NewerThan(b, a, y, x);
      }
    }
  }

  /** Outputs with fresh numbers keep numbers telling. */
  lemma CompactionKeepsNumbers(v: Version, v': Version, c: CompactionInputs, outputs: seq<File>, next: nat, next': nat)
    requires Compacted(v, v', c, outputs) && NumbersBelow(v, next) && NumbersIdentify(v) && next <= next'
    requires DistinctNumbers(outputs) && forall f | f in outputs :: next <= f.number < next'
    ensures NumbersBelow(v', next') && NumbersIdentify(v')
  {
    hide Pending, Replaced, Stays;
    forall l, f | 0 <= l < NUM_LEVELS && f in v'[l]
      ensures (l == c.level + 1 && f in outputs) || (f in v[l] && f.number < next)
    {
      FilesAfter(v, v', c, outputs, l, f);
      if Stays(v, c, l, f) {
        StaysIn(v, c, l, f);
      }
    }
    forall l, m, f, g | 0 <= l < NUM_LEVELS && 0 <= m < NUM_LEVELS && f in v'[l] && g in v'[m] && f.number == g.number
      ensures l == m && f == g
    {
      if f in outputs && g in outputs {
        SameNumberSameFile(outputs, f, g);
      }
    }
  }

  /** A moved file keeps its number, now one level down. */
  lemma MoveKeepsNumbers(v: Version, v': Version, c: CompactionInputs, next: nat)
    requires Compacted(v, v', c, c.inputs0) && |c.inputs0| == 1 && NumbersBelow(v, next) && NumbersIdentify(v)
    ensures NumbersBelow(v', next) && NumbersIdentify(v')
  {
    hide Compacted, Pending, Installed;
    CompactedParts(v, v', c, c.inputs0);
    var f := c.inputs0[0];
    assert f in c.inputs0 && f in v[c.level];
    forall l, g | 0 <= l < NUM_LEVELS && g in v'[l]
      ensures g.number < next
      ensures (l == c.level + 1 && g == f) || (g in v[l] && (g == f ==> l != c.level))
    {
      FilesAfter(v, v', c, c.inputs0, l, g);
    }
    hide Stays, RowsOf;
    forall l, m, g, h | 0 <= l < NUM_LEVELS && 0 <= m < NUM_LEVELS && g in v'[l] && h in v'[m] && g.number == h.number
      ensures l == m && g == h
    {
    }
  }

  /** Installing drops entries from the tables only, and only ones no reader at or above the new floor can miss. */
  lemma CompactionKeepsFaithful(mem: seq<Entry>, imm: Option<seq<Entry>>, v: Version, v': Version, c: CompactionInputs,
                                outputs: seq<File>, smallest: nat, H: set<Entry>, last: nat, floor: nat, floor': nat)
    requires ValidVersion(v) && Compacted(v, v', c, outputs) && OutputsOf(c, outputs)
    requires Contents(outputs) == Survivors(c.Entries(), smallest, Base(c))
    requires Layered(mem, imm, v) && Faithful(H, All(mem, imm, v), last, floor)
    requires floor <= floor' <= last && smallest <= floor'
    ensures Layered(mem, imm, v') && Faithful(H, All(mem, imm, v'), last, floor')
  {
    hide ValidVersion, Compacted, OutputsOf, Survivors, Sorted, VersionContents, Contents, Newer, Unique, CompactionInputs.Entries, Read;
    var M, V, V' := ToSet(mem) + ImmSet(imm), VersionContents(v), VersionContents(v');
    TablesShrink(v, v', c, outputs);
    FaithfulBounds(H, M + V, last, floor);
    NewerSubset(M, V, V');
    UniqueSubset(M + V, H);
    ReadsKept(v, v', c, outputs, smallest, M, H, floor, floor');
    hide ToSet, ImmSet;
  }

  lemma TablesShrink(v: Version, v': Version, c: CompactionInputs, outputs: seq<File>)
    requires ValidVersion(v) && Compacted(v, v', c, outputs) && OutputsOf(c, outputs)
    ensures VersionContents(v') <= VersionContents(v)
  {
    hide ValidVersion, Compacted, OutputsOf, VersionContents, Contents, CompactionInputs.Entries, Rest;
    CompactionKeepsValid(v, v', c, outputs);
    OutputsFromInputs(c, outputs);
  }

  lemma ReadsKept(v: Version, v': Version, c: CompactionInputs, outputs: seq<File>, smallest: nat, M: set<Entry>, H: set<Entry>,
                  floor: nat, floor': nat)
    requires ValidVersion(v) && Compacted(v, v', c, outputs) && OutputsOf(c, outputs)
    requires Contents(outputs) == Survivors(c.Entries(), smallest, Base(c))
    requires Newer(M, VersionContents(v)) && Unique(M + VersionContents(v)) && floor <= floor' && smallest <= floor'
    requires forall k, s | floor <= s :: Read(M + VersionContents(v), k, s) == Read(H, k, s)
    ensures forall k, s | floor' <= s :: Read(M + VersionContents(v'), k, s) == Read(H, k, s)
  {
    hide ValidVersion, Compacted, OutputsOf, Survivors, VersionContents, Contents, Newer, Unique, Read, CompactionInputs.Entries;
    forall k, s | floor' <= s ensures Read(M + VersionContents(v'), k, s) == Read(H, k, s) {
      CompactionPreservesReads(v, v', c, outputs, smallest, M, k, s);
    }
  }

  // ---------------------------------------------------------------- the database object

  lemma EmptyLevel()
    ensures ValidFiles([]) && DistinctNumbers([]) && SortedLevel([]) && NumberedByAge([]) && OrderedFiles([]) && DisjointLevel([])
    ensures Contents([]) == {}
  {
  }

  lemma NoContents()
    ensures VersionContents(NO_FILES) == {}
  {
    EmptyLevel();
    hide Contents;
    assert forall l | 0 <= l < NUM_LEVELS :: NO_FILES[l] == [];
  }

  lemma NoTables()
    ensures Tables(NO_FILES, 2) && DisjointVersion(NO_FILES)
  {
    hide Contents, VersionContents, Newer, ValidFiles, DistinctNumbers, SortedLevel, NumberedByAge, OrderedFiles, DisjointLevel;
    NoContents();
    EmptyLevel();
    NothingIsNewer({});
    assert forall l | 0 <= l < NUM_LEVELS :: NO_FILES[l] == [];
  }

  lemma NothingYet()
    ensures Tables(NO_FILES, 2) && Layered([], None, NO_FILES) && Faithful({}, All([], None, NO_FILES), 0, 0)
    ensures DisjointVersion(NO_FILES)
  {
    NoTables();
    NoContents();
    EmptySorted();
    NothingIsNewer({});
    hide Tables, DisjointVersion, Read, Sorted, VersionContents, Newer;
    assert ToSet([]) == {};
    assert All([], None, NO_FILES) == {} + {} + {};
  }

  lemma NothingOnTop(v: Version)
    ensures Layered([], None, v) && All([], None, v) == VersionContents(v)
  {
    var V := VersionContents(v);
    var mem: seq<Entry> := [];
    assert ToSet(mem) == {} && ImmSet(None) == {} && Sorted(mem);
    hide VersionContents, Newer, Sorted, ToSet, ImmSet;
    NothingIsNewer({});
    NothingIsNewer(V);
    var none: set<Entry> := {};
    assert none + none == none && none + none + V == V;
  }

  datatype Options = Options(maxFileSize: nat, sizeOf: seq<Entry> -> nat)
  {
    // MaxGrandParentOverlapBytes and ExpandedCompactionByteSizeLimit
    function MaxGrandParentOverlap(): nat { 10 * maxFileSize }
    function ExpandedLimit(): nat { 25 * maxFileSize }
  }

  class DbImpl {
    const options: Options
    var mem: seq<Entry>
    var imm: Option<seq<Entry>>
    var current: Version
    var lastSequence: nat
    var snapshots: seq<nat>
    var nextFileNumber: nat
    var pointers: seq<Option<InternalKey>>   // where the last compaction of each level ended
    var work: Option<Work>

    ghost var history: set<Entry>   // everything ever written
    ghost var floor: nat            // snapshots below it are no longer served

    constructor (options: Options)
      ensures Valid() && Unsplit(current, work)
      ensures this.options == options && history == {} && floor == 0 && lastSequence == 0 && snapshots == []
      ensures imm == None && work == None
    {
      this.options := options;
      mem, imm, current := [], None, NO_FILES;
      lastSequence, snapshots, nextFileNumber, work := 0, [], 2, None;
      pointers := [None, None, None, None, None, None, None];
      history, floor := {}, 0;
      new;
      hide Tables, Layered, Faithful, DisjointVersion;
      NothingYet();
    }

    /** What DB::Open leaves: tables that read like everything written, and nothing else. */
    constructor Reopened(options: Options, v: Version, last: nat, next: nat, pointers: seq<Option<InternalKey>>, ghost written: set<Entry>)
      requires |pointers| == NUM_LEVELS && Tables(v, next) && Faithful(written, VersionContents(v), last, last)
      ensures Valid() && this.options == options && current == v && lastSequence == last && nextFileNumber == next && this.pointers == pointers
      ensures history == written && floor == last && snapshots == [] && imm == None && mem == [] && work == None
    {
      this.options := options;
      mem, imm, current := [], None, v;
      lastSequence, snapshots, nextFileNumber, work := last, [], next, None;
      this.pointers := pointers;
      history, floor := written, last;
      new;
      hide Tables, Faithful, VersionContents;
      NothingOnTop(v);
    }

    ghost predicate Valid()
      reads this
    {
      && Tables(current, nextFileNumber)
      && |pointers| == NUM_LEVELS
      && Layered(mem, imm, current)
      && Faithful(history, All(mem, imm, current), lastSequence, floor)
      && SnapshotsAbove(snapshots, floor, lastSequence)
      && OldestFirst(snapshots)
      && WorkOk(work, current, snapshots, lastSequence)
    }

    /** No snapshot older than the last write is live. */
    predicate NoOldSnapshot()
      reads this
    {
      snapshots == [] || snapshots[0] == lastSequence
    }

    method Write(ops: seq<Op<UserKey>>)
      requires Valid() && lastSequence + |ops| < MAX_SEQUENCE
      modifies this`mem, this`lastSequence, this`history
      ensures Valid()
      ensures history == old(history) + BatchEntries(ops, old(lastSequence) + 1)
      ensures mem == InsertOps(old(mem), ops, old(lastSequence) + 1)
      ensures lastSequence == old(lastSequence) + |ops|
    {
      hide Tables, Faithful, Layered, WorkOk, Newer, Unique, BatchEntries, InsertOps, ToSet;
      ghost var B := BatchEntries(ops, lastSequence + 1);
      FaithfulBounds(history, All(mem, imm, current), lastSequence, floor);
      WriteKeepsLayered(mem, imm, current, ops, history, lastSequence);
      BatchSequences(ops, lastSequence + 1);
      WriteKeepsFaithful(history, All(mem, imm, current), B, lastSequence, lastSequence + |ops|, floor);
      LaterWork(work, current, snapshots, lastSequence, lastSequence + |ops|);
      mem := InsertInto(mem, ops, lastSequence + 1);
      history := history + B;
      lastSequence := lastSequence + |ops|;
    }

    /** MakeRoomForWrite: the memtable is set aside and a new one begins. */
    method SwitchMemTable()
      requires Valid() && imm == None
      modifies this`mem, this`imm
      ensures Valid() && imm == Some(old(mem)) && mem == []
    {
      hide Tables, Faithful, WorkOk;
      SwitchKeepsLayered(mem, current);
      imm := Some(mem);
      mem := [];
    }

    /** LogAndApply's new version, built by the builder. */
    method Install(edit: VersionEdit)
      requires OrderedVersion(current) && ValidEdit(edit)
      modifies this`current
      ensures current == NextVersion(old(current), edit)
    {
      var builder := new Builder(current);
      builder.Apply(edit);
      current := builder.SaveVersion();
    }

    /** WriteLevel0Table: the table to be flushed and the level it may go to. */
    method WriteLevel0Table(es: seq<Entry>) returns (level: nat, f: File)
      requires Valid() && imm == Some(es) && es != []
      ensures level < NUM_LEVELS && Flushable(current, level, f)
      ensures f == TableOf(nextFileNumber, es, options.sizeOf(es))
      ensures DeepestFor(current, f.smallest.userKey, f.largest.userKey, options.MaxGrandParentOverlap(), level)
    {
      hide NumbersBelow, NumbersIdentify, Newer, Sorted, Unique, ValidVersion, OrderedVersion, WorkOk, Flushable, VersionContents;
      FaithfulBounds(history, All(mem, imm, current), lastSequence, floor);
      var lo, hi := es[0].key.userKey, es[|es| - 1].key.userKey;
      level := PickLevelForMemTableOutput(current, lo, hi, options.MaxGrandParentOverlap());
      f := TableOf(nextFileNumber, es, options.sizeOf(es));
      hide Faithful, NoOverlapTo, Layered, Tables, DeepestFor;
      ImmIsFlushable(mem, es, current, history, nextFileNumber, level, options.sizeOf(es));
    }

    /**
      CompactMemTable: the set-aside memtable becomes a table; an empty one just goes.  It may come in the
      middle of a compaction, and is harmless if the compaction leaves no gaps or the table lands beside it.
    */
    method CompactMemTable() returns (level: nat, table: Option<File>)
      requires Valid() && imm.Some?
      modifies this`imm, this`current, this`nextFileNumber
      ensures imm == None
      ensures table.None? <==> old(imm) == Some([])
      ensures table.None? ==> current == old(current) && nextFileNumber == old(nextFileNumber)
      ensures table.Some? ==>
                && table.value == TableOf(old(nextFileNumber), old(imm).value, options.sizeOf(old(imm).value))
                && nextFileNumber == old(nextFileNumber) + 1
                && level < NUM_LEVELS && Added(old(current), current, level, table.value)
                && DeepestFor(old(current), table.value.smallest.userKey, table.value.largest.userKey, options.MaxGrandParentOverlap(), level)
      ensures All(mem, imm, current) == old(All(mem, imm, current))
      ensures NotDisturbed(work) ==> Valid()
      ensures work.Some? && Pending(current, work.value.c) ==> Valid()
      ensures old(Unsplit(current, work)) ==> Unsplit(current, work)
    {
      hide Faithful, Tables, Layered, WorkOk, All, Unsplit, OrderedVersion, ValidVersion, SnapshotsAbove, OldestFirst, NextVersion, Added, Flushable, Gapless, Pending, DeepestFor;
      var es := imm.value;
      if es == [] {
        DropEmptyImm(mem, current);
        imm := None;
        return 0, None;
      }
      var f;
      level, f := WriteLevel0Table(es);
      ghost var v := current;
      FlushNumberIsNew(v, level, nextFileNumber);
      FlushAdds(v, level, f);
      Install(FlushEdit(level, f));
      hide TableOf;
      FlushKeepsTables(mem, es, v, current, nextFileNumber, level, f);
      FlushKeepsWork(work, v, current, snapshots, lastSequence, level, f, nextFileNumber);
      if Unsplit(v, work) {
        FlushKeepsUnsplit(v, current, work, level, f, nextFileNumber);
      }
      nextFileNumber := nextFileNumber + 1;
      imm := None;
      table := Some(f);
    }

    /** MaxGrandParentOverlapBytes admits a move of a single file with nothing to merge. */
    predicate IsTrivialMove(c: CompactionInputs)
    {
      |c.inputs0| == 1 && c.inputs1 == [] && TotalFileSize(c.grandparents) <= options.MaxGrandParentOverlap()
    }

    /**
      BackgroundCompaction, up to the point where the merge itself begins: pick the inputs, and either move
      the one file down or set the compaction to work with the smallest snapshot of this moment.
    */
    method BeginCompaction(sizeLevel: Option<nat>, seek: Option<(nat, File)>)
      returns (picked: Option<CompactionInputs>, ghost first: Option<File>, ghost row: seq<File>)
      requires Valid() && imm == None && work == None
      requires sizeLevel.Some? ==> sizeLevel.value + 1 < NUM_LEVELS && current[sizeLevel.value] != []
      requires seek.Some? ==> seek.value.0 + 1 < NUM_LEVELS && seek.value.1 in current[seek.value.0]
      modifies this`current, this`work, this`pointers
      ensures (picked.None? <==> sizeLevel.None? && seek.None?) && first.Some? == picked.Some?
      ensures picked.None? ==> current == old(current) && pointers == old(pointers) && work == None && Valid()
      ensures picked.Some? ==>
                var c := picked.value;
                && PickedFrom(old(current), c)
                && Starts(old(current), sizeLevel, if sizeLevel.Some? then old(pointers)[sizeLevel.value] else None, seek, c.level, first.value)
                && RowOf(old(current), c.level, first.value, row) && SetUp(old(current), options.ExpandedLimit(), row, c)
                && pointers == old(pointers)[c.level := Some(c.largest)]
      ensures picked.Some? ==>
                var c := picked.value;
                work == None <==> |c.inputs0| == 1 && c.inputs1 == [] && TotalFileSize(c.grandparents) <= 10 * options.maxFileSize
      ensures picked.Some? && IsTrivialMove(picked.value) ==> work == None && Installed(old(current), current, picked.value, picked.value.inputs0)
      ensures picked.Some? && !IsTrivialMove(picked.value) ==>
                current == old(current) && work == Some(Work(picked.value, SmallestSnapshot()))
      ensures picked.Some? && NothingOlderLeft(old(current), picked.value) ==> Valid()
      ensures old(Unsplit(current, work)) ==> Valid()
      ensures old(Unsplit(current, work)) && NoOldSnapshot() ==> Unsplit(current, work)
      ensures NotDisturbed(work)
    {
      hide Faithful, Layered, All, OrderedVersion, ValidVersion, NumbersBelow, NumbersIdentify, DisjointVersion, NothingOlderLeft, Gapless, WorkOk, Tables;
      assert ValidVersion(current) by { TablesAreValid(current, nextFileNumber); }
      hide PickedFrom, SetUp, RowOf, Starts, Installed, SnapshotsAbove, OldestFirst, Unsplit, NotDisturbed;
      picked, first, row := PickCompaction(current, sizeLevel, if sizeLevel.Some? then pointers[sizeLevel.value] else None, seek, options.ExpandedLimit());
      if picked.None? {
        return;
      }
      BeginWith(picked.value);
    }

    /** The choice is moved down at once or set to work, and the next one of its level begins behind it. */
    method BeginWith(c: CompactionInputs)
      requires Valid() && imm == None && work == None && PickedFrom(current, c) && Gapless(c.Files())
      modifies this`current, this`work, this`pointers
      ensures c.level + 1 < NUM_LEVELS && pointers == old(pointers)[c.level := Some(c.largest)]
      ensures NothingOlderLeft(old(current), c) ==> Valid()
      ensures old(Unsplit(current, work)) ==> Valid()
      ensures old(Unsplit(current, work)) && NoOldSnapshot() ==> Unsplit(current, work)
      ensures NotDisturbed(work)
      ensures work == None <==> |c.inputs0| == 1 && c.inputs1 == [] && TotalFileSize(c.grandparents) <= 10 * options.maxFileSize
      ensures if IsTrivialMove(c) then work == None && Installed(old(current), current, c, c.inputs0)
              else current == old(current) && work == Some(Work(c, SmallestSnapshot()))
    {
      hide Faithful, Layered, All, OrderedVersion, ValidVersion, NumbersBelow, NumbersIdentify, DisjointVersion, NothingOlderLeft, Gapless, WorkOk, Tables;
      hide PickedFrom, Installed, SnapshotsAbove, OldestFirst, Unsplit, NotDisturbed;
      assert ValidVersion(current) by { TablesAreValid(current, nextFileNumber); }
      PickLevel(current, c);
      SplitsNone(current, c);
      NeverDisturbed(c, SmallestSnapshot());
      if IsTrivialMove(c) {
        MoveDown(c);
      } else {
        SetToWork(c);
      }
      pointers := pointers[c.level := Some(c.largest)];
    }

    /** What a compaction that begins now may not drop. */
    function SmallestSnapshot(): nat
      reads this
    {
      if snapshots == [] then lastSequence else snapshots[0]
    }

    /** The one file of a trivial move goes one level down. */
    method MoveDown(c: CompactionInputs)
      requires Valid() && work == None && PickedFrom(current, c) && IsTrivialMove(c)
      modifies this`current
      ensures Installed(old(current), current, c, c.inputs0)
      ensures NothingOlderLeft(old(current), c) ==> Valid()
      ensures NothingOlderLeft(old(current), c) && old(Unsplit(current, work)) ==> Unsplit(current, work)
    {
      hide Faithful, Layered, All, OrderedVersion, ValidVersion, DisjointVersion, NothingOlderLeft, PickedFrom, Tables, WorkOk, NextVersion, MoveEdit, Installed;
      ghost var v := current;
      assert OrderedVersion(v) && c.level + 1 < NUM_LEVELS by { TablesAreValid(v, nextFileNumber); PickLevel(v, c); }
      MoveIsValid(c);
      Install(MoveEdit(c));
      MoveReplaces(v, current, c, nextFileNumber);
      if NothingOlderLeft(v, c) {
        MoveStep(mem, imm, v, current, c, nextFileNumber);
        NoWork(current, snapshots, lastSequence);
      }
    }

    /** The compaction is under way, with the smallest snapshot of this moment. */
    method SetToWork(c: CompactionInputs)
      requires Valid() && work == None && PickedFrom(current, c)
      modifies this`work
      ensures work == Some(Work(c, SmallestSnapshot()))
      ensures NothingOlderLeft(current, c) ==> Valid()
      ensures NothingOlderLeft(current, c) && old(Unsplit(current, work)) && NoOldSnapshot() ==> Unsplit(current, work)
    {
      hide Layered, All, DisjointVersion, NothingOlderLeft, PickedFrom, Tables, WorkOk, Faithful;
      var smallest := SmallestSnapshot();
      work := Some(Work(c, smallest));
      PickLevel(current, c);
      if NothingOlderLeft(current, c) {
        assert forall s | s in snapshots :: s <= lastSequence;
        WorkBegins(current, c, snapshots, lastSequence, smallest, nextFileNumber);
        InputsSeen(mem, imm, current, c, history, lastSequence, floor);
      }
    }

    /**
      BackgroundCompaction for CompactRange: files of `level` that meet the range, never a mere move.  The
      choice may leave gaps, so what is flushed before it finishes is not sure to stay out of its way.
    */
    method BeginManualCompaction(level: nat, begin: Option<UserKey>, end: Option<UserKey>)
      returns (picked: Option<CompactionInputs>, ghost meeting: seq<File>, ghost row: seq<File>)
      requires Valid() && imm == None && work == None && level + 1 < NUM_LEVELS
      modifies this`work, this`pointers
      ensures picked.None? <==> forall f | f in current[level] :: !InRange(f, begin, end)
      ensures picked.None? ==> work == None && pointers == old(pointers) && Valid()
      ensures AllMeeting(current[level], level, begin, end, meeting)
      ensures picked.Some? ==>
                var c := picked.value;
                && (if level == 0 then row == meeting else CutBySize(meeting, options.maxFileSize, row))
                && PickedFrom(current, c) && SetUp(current, options.ExpandedLimit(), row, c) && c.level == level
                && work == Some(Work(c, SmallestSnapshot())) && pointers == old(pointers)[level := Some(c.largest)]
      ensures picked.Some? && NothingOlderLeft(current, picked.value) ==> Valid()
      ensures old(Unsplit(current, work)) ==> Valid()
      ensures old(Unsplit(current, work)) && NoOldSnapshot() ==> Unsplit(current, work)
    {
      hide Faithful, Layered, All, DisjointVersion, NothingOlderLeft, WorkOk, Tables, ValidVersion, PickedFrom, SetUp, AllMeeting, CutBySize;
      assert ValidVersion(current) by { TablesAreValid(current, nextFileNumber); }
      picked, meeting, row := CompactRange(current, level, begin, end, options.maxFileSize, options.ExpandedLimit());
      if picked.None? {
        return;
      }
      if Unsplit(current, None) {
        DisjointLeavesNothingOlder(current, picked.value);
      }
      SetToWork(picked.value);
      pointers := pointers[level := Some(picked.value.largest)];
    }

    /**
      DoCompactionWork and InstallCompactionResults: merge, drop, and install in whatever is current by now.  The
      outputs' numbers need not follow on one another: `others` are drawn in between.
    */
    method FinishCompaction(others: nat -> nat) returns (outputs: seq<File>)
      requires Valid() && work.Some?
      modifies this`current, this`work, this`nextFileNumber, this`floor
      ensures Valid() && work == None
      ensures Installed(old(current), current, old(work).value.c, outputs) && OutputsOf(old(work).value.c, outputs)
      ensures Contents(outputs) == Survivors(old(work).value.c.Entries(), old(work).value.smallestSnapshot, Base(old(work).value.c))
      ensures Merged(old(work).value.c, old(work).value.smallestSnapshot, options, old(nextFileNumber), others, outputs, nextFileNumber)
      ensures floor == if old(work).value.smallestSnapshot > old(floor) then old(work).value.smallestSnapshot else old(floor)
      ensures old(Unsplit(current, work)) ==> Unsplit(current, work)
    {
      hide Faithful, Layered, All, OrderedVersion, ValidVersion, NumbersBelow, NumbersIdentify, Unsplit, WorkOk, Tables, Pending, Unique, FilesApart, Installed, OutputsOf, Merged;
      FaithfulBounds(history, All(mem, imm, current), lastSequence, floor);
      WorkInputs(current, nextFileNumber, work, snapshots, lastSequence);
      WorkVersionOk(work, current, snapshots, lastSequence);
      var next;
      outputs, next := RunCompaction(mem, imm, current, history, work.value.c, work.value.smallestSnapshot, options, nextFileNumber, others);
      InstallCompactionResults(outputs, next);
    }

    method InstallCompactionResults(outputs: seq<File>, next: nat)
      requires Valid() && work.Some?
      requires nextFileNumber <= next && forall f | f in outputs :: nextFileNumber <= f.number < next
      requires ValidFiles(outputs) && SortedLevel(outputs) && DistinctNumbers(outputs)
      requires Contents(outputs) == Survivors(work.value.c.Entries(), work.value.smallestSnapshot, Base(work.value.c))
      modifies this`current, this`work, this`nextFileNumber, this`floor
      ensures Valid() && work == None && nextFileNumber == next
      ensures Installed(old(current), current, old(work).value.c, outputs) && OutputsOf(old(work).value.c, outputs)
      ensures floor == if old(work).value.smallestSnapshot > old(floor) then old(work).value.smallestSnapshot else old(floor)
      ensures old(Unsplit(current, work)) ==> Unsplit(current, work)
    {
      hide Faithful, Layered, All, OrderedVersion, ValidVersion, Unsplit, WorkOk, Tables, Pending, Survivors, Contents, SortedLevel, ValidFiles;
      hide NextVersion, CompactionEdit, Replaced, DistinctNumbers, Installed, OutputsOf, SnapshotsAbove, OldestFirst, ValidEdit, NumbersDiffer;
      ghost var v := current;
      var c, smallest := work.value.c, work.value.smallestSnapshot;
      OutputsFit(v, c, outputs, nextFileNumber, next, work, snapshots, lastSequence);
      CompactionReplaces(v, c, outputs);
      Install(CompactionEdit(c, outputs));
      InstalledIs(v, current, c, outputs);
      InstalledOutputs(c, outputs, smallest);
      ghost var low := floor;
      floor := if smallest > floor then smallest else floor;
      CompactStep(mem, imm, v, current, work, outputs, nextFileNumber, next, history, lastSequence, low, floor, snapshots);
      nextFileNumber := next;
      work := None;
      assert WorkOk(work, current, snapshots, lastSequence) by { NoWork(current, snapshots, lastSequence); }
    }

    /** DBImpl::Get: at a live snapshot, or at the last write. */
    method Get(k: UserKey, snapshot: Option<nat>) returns (r: Option<Bytes>)
      requires Valid() && (snapshot.Some? ==> snapshot.value in snapshots)
      ensures r == Read(history, k, if snapshot.Some? then snapshot.value else lastSequence)
    {
      hide OrderedVersion, NumbersBelow, NumbersIdentify, WorkOk, ValidVersion, VersionContents;
      var s := if snapshot.Some? then snapshot.value else lastSequence;
      UniqueSubset(All(mem, imm, current), history);
      LayeredSearch(mem, imm, current, k, s);
      hide Layered;
      var e := SeekGet(mem, k, s);
      if e.None? && imm.Some? {
        e := SeekGet(imm.value, k, s);
      }
      if e.None? {
        e := Versions.Get(current, k, s);
      }
      r := if e.Some? && e.value.key.kind == TypeValue then Some(e.value.value) else None;
      assert Read(All(mem, imm, current), k, s) == Read(history, k, s);
    }

    method GetSnapshot() returns (s: nat)
      requires Valid()
      modifies this`snapshots
      ensures Valid() && s == lastSequence && snapshots == old(snapshots) + [s]
    {
      hide Tables, Layered, All, Pending, Gapless, SnapshotsAbove, OldestFirst, Faithful;
      FloorBelow(history, All(mem, imm, current), lastSequence, floor);
      s := lastSequence;
      AppendSnapshot(snapshots, floor, s);
      if work.Some? {
        AppendSnapshot(snapshots, work.value.smallestSnapshot, s);
      }
      snapshots := snapshots + [s];
    }

    /** SnapshotList::Delete, for the snapshot at position `i`. */
    method ReleaseSnapshot(i: nat)
      requires Valid() && i < |snapshots|
      modifies this`snapshots
      ensures Valid() && snapshots == old(snapshots)[..i] + old(snapshots)[i + 1..]
    {
      hide Tables, Layered, All, Pending, Gapless, Faithful, SnapshotsAbove, OldestFirst;
      RemoveSnapshot(snapshots, i, floor, lastSequence);
      if work.Some? {
        RemoveSnapshot(snapshots, i, work.value.smallestSnapshot, lastSequence);
      }
      snapshots := snapshots[..i] + snapshots[i + 1..];
    }
  }

  // ---------------------------------------------------------------- steps of the compaction methods

  lemma MoveIsValid(c: CompactionInputs)
    requires |c.inputs0| == 1 && c.inputs1 == [] && c.level + 1 < NUM_LEVELS
    ensures ValidEdit(MoveEdit(c))
  {
  }

  lemma MoveNumbersDiffer(v: Version, c: CompactionInputs, next: nat)
    requires Tables(v, next) && Pending(v, c)
    ensures NumbersDiffer(v[c.level + 1], c.inputs0)
  {
    hide ValidVersion, OrderedVersion;
  }

  lemma TablesAreValid(v: Version, next: nat)
    requires Tables(v, next)
    ensures ValidVersion(v) && OrderedVersion(v)
  {
  }

  lemma PickLevel(v: Version, c: CompactionInputs)
    requires PickedFrom(v, c)
    ensures c.level + 1 < NUM_LEVELS && DistinctNumbers(c.inputs0)
  {
  }

  lemma NoWork(v: Version, snapshots: seq<nat>, last: nat)
    ensures WorkOk(None, v, snapshots, last)
  {
  }

  /** A trivial move, as the compaction it amounts to. */
  lemma MoveInstalls(v: Version, v': Version, c: CompactionInputs, next: nat)
    requires Tables(v, next) && PickedFrom(v, c) && NothingOlderLeft(v, c)
    requires |c.inputs0| == 1 && c.inputs1 == [] && v' == NextVersion(v, MoveEdit(c))
    ensures Compacted(v, v', c, c.inputs0) && OutputsOf(c, c.inputs0)
  {
    hide Tables, PickedFrom, ValidVersion, NextVersion, MoveEdit, CompactionEdit, NothingOlderLeft, Replaced, OutputsOf, Pending, ValidFiles, CompactionInputs.Entries;
    TablesAreValid(v, next);
    PickLevel(v, c);
    PickedIsPending(v, c);
    PendingLevel(v, c);
    LevelFiles(v, c.level);
    MoveNumbersDiffer(v, c, next);
    MoveIsCompaction(c);
    MoveOutputs(v, c);
    CompactionReplaces(v, c, c.inputs0);
  }

  /** Everything a trivial move keeps. */
  lemma MoveStep(mem: seq<Entry>, imm: Option<seq<Entry>>, v: Version, v': Version, c: CompactionInputs, next: nat)
    requires Tables(v, next) && Layered(mem, imm, v) && PickedFrom(v, c) && NothingOlderLeft(v, c)
    requires |c.inputs0| == 1 && c.inputs1 == [] && v' == NextVersion(v, MoveEdit(c))
    ensures Tables(v', next) && Layered(mem, imm, v') && All(mem, imm, v') == All(mem, imm, v)
    ensures DisjointVersion(v) ==> DisjointVersion(v')
  {
    MoveInstalls(v, v', c, next);
    MoveIsCompaction(c);
    assert OrderedVersion(v') by { PendingLevel(v, c); assert Replaced(v, v', c.level, FileSet(c.inputs0), FileSet(c.inputs1), FileSet(c.inputs0)); }
    hide PickedFrom, NextVersion, MoveEdit, NothingOlderLeft, Compacted, OutputsOf, ValidVersion, OrderedVersion, NumbersBelow, NumbersIdentify, DisjointVersion, VersionContents, Contents, Layered, All, Rest;
    CompactionKeepsValid(v, v', c, c.inputs0);
    MoveKeepsNumbers(v, v', c, next);
    if DisjointVersion(v) {
      MoveKeepsDisjoint(v, v', c);
    }
    SameTables(mem, imm, v, v');
  }

  lemma SameTables(mem: seq<Entry>, imm: Option<seq<Entry>>, v: Version, v': Version)
    requires Layered(mem, imm, v) && VersionContents(v') == VersionContents(v)
    ensures Layered(mem, imm, v') && All(mem, imm, v') == All(mem, imm, v)
  {
  }

  lemma AppendSnapshot(snapshots: seq<nat>, low: nat, last: nat)
    requires SnapshotsAbove(snapshots, low, last) && OldestFirst(snapshots) && low <= last
    ensures SnapshotsAbove(snapshots + [last], low, last) && OldestFirst(snapshots + [last])
  {
    assert forall i | 0 <= i < |snapshots| :: snapshots[i] in snapshots;
  }

  lemma RemoveSnapshot(snapshots: seq<nat>, i: nat, low: nat, last: nat)
    requires SnapshotsAbove(snapshots, low, last) && OldestFirst(snapshots) && i < |snapshots|
    ensures SnapshotsAbove(snapshots[..i] + snapshots[i + 1..], low, last)
    ensures OldestFirst(snapshots[..i] + snapshots[i + 1..])
  {
    var t := snapshots[..i] + snapshots[i + 1..];
    forall s | s in t ensures low <= s <= last {
      var j :| 0 <= j < |t| && t[j] == s;
      assert s == snapshots[if j < i then j else j + 1];
      assert s in snapshots;
    }
  }

  /** The outputs are cut from the merged inputs where sizes and grandparents say. */
  ghost predicate Merged(c: CompactionInputs, smallest: nat, options: Options, firstNumber: nat, others: nat -> nat, outputs: seq<File>, next: nat) {
    var cut := Cutting(options.maxFileSize, options.sizeOf, c.grandparents, options.MaxGrandParentOverlap(), others);
    var o := Outputs(cut, Collate(c.inputs0 + c.inputs1), Survivors(c.Entries(), smallest, Base(c)), firstNumber);
    outputs == o.files && next == o.nextNumber
  }

  /** While no key is split, a pick leaves nothing older behind. */
  lemma SplitsNone(v: Version, c: CompactionInputs)
    requires ValidVersion(v) && PickedFrom(v, c)
    ensures Unsplit(v, None) ==> NothingOlderLeft(v, c)
  {
    hide ValidVersion, PickedFrom, DisjointVersion, NothingOlderLeft;
    if Unsplit(v, None) {
      DisjointLeavesNothingOlder(v, c);
    }
  }

  lemma NeverDisturbed(c: CompactionInputs, smallest: nat)
    requires Gapless(c.Files())
    ensures NotDisturbed(None) && NotDisturbed(Some(Work(c, smallest)))
  {
    hide Gapless;
  }

  lemma InstalledIs(v: Version, v': Version, c: CompactionInputs, outputs: seq<File>)
    requires c.level + 1 < NUM_LEVELS
    requires (forall f | f in c.inputs0 :: f in v[c.level]) && (forall f | f in c.inputs1 :: f in v[c.level + 1])
    requires Replaced(v, v', c.level, FileSet(c.inputs0), FileSet(c.inputs1), FileSet(outputs))
    ensures Installed(v, v', c, outputs)
  {
    hide Replaced;
  }

  lemma InstalledOutputs(c: CompactionInputs, outputs: seq<File>, smallest: nat)
    requires ValidFiles(outputs) && SortedLevel(outputs) && DistinctNumbers(outputs)
    requires Contents(outputs) == Survivors(c.Entries(), smallest, Base(c))
    ensures OutputsOf(c, outputs)
  {
    hide ValidFiles, SortedLevel, DistinctNumbers, Contents, CompactionInputs.Entries, IsBase;
  }

  /** A trivial move takes its file out of one level and puts it into the next. */
  lemma MoveReplaces(v: Version, v': Version, c: CompactionInputs, next: nat)
    requires Tables(v, next) && PickedFrom(v, c)
    requires |c.inputs0| == 1 && c.inputs1 == [] && v' == NextVersion(v, MoveEdit(c))
    ensures Installed(v, v', c, c.inputs0)
  {
    assert RowsOf(v, c) by { PickedRowsOf(v, c); }
    assert NumbersDiffer(v[c.level + 1], c.inputs0) by { hide PickedFrom, ValidVersion, OrderedVersion, NextVersion; }
    PickLevel(v, c);
    hide Tables, PickedFrom, ValidVersion, NextVersion, MoveEdit, CompactionEdit, Replaced;
    TablesAreValid(v, next);
    MoveIsCompaction(c);
    CompactionReplaces(v, c, c.inputs0);
  }

  lemma PickedRowsOf(v: Version, c: CompactionInputs)
    requires PickedFrom(v, c)
    ensures RowsOf(v, c)
  {
    hide Spans, DistinctNumbers;
  }

  /** The merge of the inputs of the work in progress. */
  method RunCompaction(ghost mem: seq<Entry>, ghost imm: Option<seq<Entry>>, ghost v: Version, ghost H: set<Entry>,
                       c: CompactionInputs, smallest: nat, options: Options, firstNumber: nat, others: nat -> nat)
    returns (outputs: seq<File>, next: nat)
    requires Pending(v, c) && All(mem, imm, v) <= H && Unique(H) && forall e | e in H :: e.key.sequence < MAX_SEQUENCE
    requires FilesApart(c.inputs0 + c.inputs1) && ValidFiles(c.inputs0 + c.inputs1)
    requires Contents(c.inputs0 + c.inputs1) == c.Entries()
    requires forall l | 1 <= l < NUM_LEVELS :: ValidFiles(c.version[l]) && SortedLevel(c.version[l])
    requires smallest < MAX_SEQUENCE
    ensures firstNumber <= next && forall f | f in outputs :: firstNumber <= f.number < next
    ensures ValidFiles(outputs) && SortedLevel(outputs) && DistinctNumbers(outputs)
    ensures Contents(outputs) == Survivors(c.Entries(), smallest, Base(c))
    ensures Merged(c, smallest, options, firstNumber, others, outputs, next)
  {
    PendingLevel(v, c);
    InputsHeld(mem, imm, v, c, H);
    hide Pending, FilesApart, Survivors, Sorted, Contents, ValidFiles, SortedLevel, All;
    var input := Collate(c.inputs0 + c.inputs1);
    CollateSorted(c.inputs0 + c.inputs1);
    assert ToSet(input) == c.Entries();
    UniqueSubset(c.Entries(), H);
    assert forall e | e in input :: e in ToSet(input);
    hide CompactionInputs.Entries, Unique, ToSet;
    var compact := new Compaction(c, options.MaxGrandParentOverlap());
    outputs, next := DoCompactionWork(compact, smallest, input, options.maxFileSize, options.sizeOf, firstNumber, others);
  }

  lemma WorkBegins(v: Version, c: CompactionInputs, snapshots: seq<nat>, last: nat, smallest: nat, next: nat)
    requires Tables(v, next) && PickedFrom(v, c) && NothingOlderLeft(v, c)
    requires OldestFirst(snapshots) && (forall s | s in snapshots :: s <= last)
    requires smallest == if snapshots == [] then last else snapshots[0]
    ensures WorkOk(Some(Work(c, smallest)), v, snapshots, last)
  {
    hide OrderedVersion, NumbersBelow, NumbersIdentify, NothingOlderLeft, Pending, Newer, Unique, NumberedByAge;
    PickedIsPending(v, c);
    assert snapshots != [] ==> snapshots[0] in snapshots;
    forall s | s in snapshots ensures smallest <= s {
      var i :| 0 <= i < |snapshots| && snapshots[i] == s;
    }
    OverlappingDistinct(v[c.level + 1], Some(c.smallest.userKey), Some(c.largest.userKey));
  }

  /** With no old snapshot, every input entry is at or below the smallest snapshot. */
  lemma InputsSeen(mem: seq<Entry>, imm: Option<seq<Entry>>, v: Version, c: CompactionInputs, H: set<Entry>, last: nat, floor: nat)
    requires Faithful(H, All(mem, imm, v), last, floor) && PickedFrom(v, c)
    ensures forall e | e in c.Entries() :: e.key.sequence <= last
  {
    ContentsBefore(v, c);
  }

  lemma WorkInputs(v: Version, next: nat, work: Option<Work>, snapshots: seq<nat>, last: nat)
    requires Tables(v, next) && WorkOk(work, v, snapshots, last) && work.Some?
    ensures Pending(v, work.value.c)
    ensures var c := work.value.c;
            FilesApart(c.inputs0 + c.inputs1) && ValidFiles(c.inputs0 + c.inputs1) && Contents(c.inputs0 + c.inputs1) == c.Entries()
  {
    InputsApart(v, work.value.c);
  }

  lemma InputsHeld(mem: seq<Entry>, imm: Option<seq<Entry>>, v: Version, c: CompactionInputs, H: set<Entry>)
    requires Pending(v, c) && All(mem, imm, v) <= H
    ensures c.Entries() <= H
  {
    ContentsBefore(v, c);
  }

  lemma WorkVersionOk(work: Option<Work>, v: Version, snapshots: seq<nat>, last: nat)
    requires WorkOk(work, v, snapshots, last) && work.Some?
    ensures forall l | 1 <= l < NUM_LEVELS :: ValidFiles(work.value.c.version[l]) && SortedLevel(work.value.c.version[l])
    ensures work.value.smallestSnapshot <= last && work.value.c.level + 1 < NUM_LEVELS
  {
  }

  /** The outputs of the work in progress fit the edit that installs them. */
  lemma OutputsFit(v: Version, c: CompactionInputs, outputs: seq<File>, next: nat, next': nat, work: Option<Work>,
                   snapshots: seq<nat>, last: nat)
    requires Tables(v, next) && WorkOk(work, v, snapshots, last) && work.Some? && work.value.c == c
    requires forall f | f in outputs :: next <= f.number < next'
    ensures ValidVersion(v) && OrderedVersion(v) && c.level + 1 < NUM_LEVELS
    ensures (forall f | f in c.inputs0 :: f in v[c.level]) && (forall f | f in c.inputs1 :: f in v[c.level + 1])
    ensures NumbersDiffer(v[c.level + 1], outputs)
    ensures ValidEdit(CompactionEdit(c, outputs))
  {
    hide ValidVersion, OrderedVersion, NumbersIdentify;
    FilesAtLevels(c.level + 1, outputs);
  }

  lemma {:induction false} FilesAtLevels(level: nat, fs: seq<File>)
    ensures forall p | p in FilesAt(level, fs) :: p.0 == level
  {
    if fs != [] {
      FilesAtLevels(level, fs[1..]);
    }
  }

  /** Everything a finished compaction keeps. */
  lemma CompactStep(mem: seq<Entry>, imm: Option<seq<Entry>>, v: Version, v': Version, work: Option<Work>, outputs: seq<File>,
                    next: nat, next': nat, H: set<Entry>, last: nat, floor: nat, floor': nat, snapshots: seq<nat>)
    requires Tables(v, next) && Layered(mem, imm, v) && Faithful(H, All(mem, imm, v), last, floor)
    requires WorkOk(work, v, snapshots, last) && work.Some? && SnapshotsAbove(snapshots, floor, last)
    requires work.value.c.level + 1 < NUM_LEVELS
    requires Replaced(v, v', work.value.c.level, FileSet(work.value.c.inputs0), FileSet(work.value.c.inputs1), FileSet(outputs))
    requires ValidFiles(outputs) && SortedLevel(outputs) && DistinctNumbers(outputs)
    requires Contents(outputs) == Survivors(work.value.c.Entries(), work.value.smallestSnapshot, Base(work.value.c))
    requires next <= next' && forall f | f in outputs :: next <= f.number < next'
    requires floor' == if work.value.smallestSnapshot > floor then work.value.smallestSnapshot else floor
    ensures Tables(v', next') && Layered(mem, imm, v') && Faithful(H, All(mem, imm, v'), last, floor')
    ensures SnapshotsAbove(snapshots, floor', last)
    ensures Unsplit(v, work) ==> Unsplit(v', None)
  {
    var c, smallest := work.value.c, work.value.smallestSnapshot;
    assert Compacted(v, v', c, outputs);
    assert OutputsOf(c, outputs);
    assert OrderedVersion(v');
    FaithfulBounds(H, All(mem, imm, v), last, floor);
    FloorBelow(H, All(mem, imm, v), last, floor);
    hide ValidVersion, OrderedVersion, NumbersBelow, NumbersIdentify, Replaced, Survivors, Contents, SortedLevel, ValidFiles, Pending, Gapless, Faithful, Layered, All, Compacted, OutputsOf;
    CompactionKeepsValid(v, v', c, outputs);
    CompactionKeepsNumbers(v, v', c, outputs, next, next');
    CompactionKeepsFaithful(mem, imm, v, v', c, outputs, smallest, H, last, floor, floor');
    if Unsplit(v, work) {
      CompactionKeepsDisjoint(v, v', c, outputs, smallest);
    }
  }

  lemma FloorBelow(H: set<Entry>, C: set<Entry>, last: nat, floor: nat)
    requires Faithful(H, C, last, floor)
    ensures floor <= last
  {
  }

  lemma FaithfulBounds(H: set<Entry>, C: set<Entry>, last: nat, floor: nat)
    requires Faithful(H, C, last, floor)
    ensures C <= H && Unique(H) && last < MAX_SEQUENCE
    ensures forall e | e in H :: e.key.sequence <= last
  {
  }

  lemma LaterWork(work: Option<Work>, v: Version, snapshots: seq<nat>, last: nat, last': nat)
    requires WorkOk(work, v, snapshots, last) && last <= last'
    ensures WorkOk(work, v, snapshots, last')
  {
  }

  lemma DropEmptyImm(mem: seq<Entry>, v: Version)
    requires Layered(mem, Some([]), v)
    ensures Layered(mem, None, v) && All(mem, None, v) == All(mem, Some([]), v)
  {
    assert ToSet([]) == {};
  }

  lemma FlushNumberIsNew(v: Version, level: nat, next: nat)
    requires Tables(v, next) && level < NUM_LEVELS
    ensures forall g | g in v[level] :: g.number != next
    ensures ValidVersion(v) && OrderedVersion(v)
  {
  }

  /** The work in progress survives a flush that cannot come in its way, or did not. */
  lemma FlushKeepsWork(work: Option<Work>, v: Version, v': Version, snapshots: seq<nat>, last: nat, level: nat, f: File, next: nat)
    requires WorkOk(work, v, snapshots, last) && Tables(v, next)
    requires level < NUM_LEVELS && Added(v, v', level, f) && Flushable(v, level, f)
    ensures NotDisturbed(work) ==> WorkOk(work, v', snapshots, last)
    ensures work.Some? && Pending(v', work.value.c) ==> WorkOk(work, v', snapshots, last)
  {
    hide Pending, Gapless, Added, Flushable, ValidVersion, DistinctNumbers;
    if work.Some? && NotDisturbed(work) {
      FlushKeepsPending(v, v', level, f, work.value.c);
    }
  }

  lemma FlushKeepsUnsplit(v: Version, v': Version, work: Option<Work>, level: nat, f: File, next: nat)
    requires Unsplit(v, work) && Tables(v, next)
    requires level < NUM_LEVELS && Added(v, v', level, f) && Flushable(v, level, f)
    ensures Unsplit(v', work)
  {
    FlushKeepsDisjoint(v, v', level, f);
  }
}
