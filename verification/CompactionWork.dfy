/** The work of one compaction: its cursors, the merged input and the output files
    (Compaction in db/version_set.cc, DoCompactionWork in db/db_impl.cc). */
module CompactionWork {
  import opened InternalKeys
  import opened Versions
  import opened Picking
  import opened DropRules

  /** The full scan that IsBaseLevelForKey stands for: no deeper file could hold the key. */
  predicate IsBase(v: Version, level: nat, k: UserKey) {
    forall l, f | level + 2 <= l < NUM_LEVELS && f in v[l] :: !f.Covers(k)
  }

  ghost function Base(c: CompactionInputs): UserKey -> bool {
    k => IsBase(c.version, c.level, k)
  }

  ghost predicate PassedOnly(files: seq<File>, ptr: nat, lastKey: Option<UserKey>) {
    && ptr <= |files|
    && forall i | 0 <= i < ptr :: lastKey.Some? && files[i].largest.userKey < lastKey.value
  }

  /** The cursor over the grandparents: where it stands, whether a key has been seen, and the bytes passed. */
  datatype Passing = Passing(index: nat, seenKey: bool, bytes: nat)

  const UNPASSED := Passing(0, false, 0)

  function PassedTo(grandparents: seq<File>, key: InternalKey, from: nat): nat
    decreases |grandparents| - from
  {
    if from < |grandparents| && Before(grandparents[from].largest, key) then PassedTo(grandparents, key, from + 1) else from
  }

  /** Bytes of the grandparents from `from` on that end before `key`; none before the first key. */
  function PassedBytes(grandparents: seq<File>, key: InternalKey, from: nat, counting: bool): nat
    decreases |grandparents| - from
  {
    if from < |grandparents| && Before(grandparents[from].largest, key) then
      (if counting then grandparents[from].fileSize else 0) + PassedBytes(grandparents, key, from + 1, counting)
    else 0
  }

  function PassKey(grandparents: seq<File>, limit: nat, p: Passing, key: InternalKey): (Passing, bool) {
    var bytes := p.bytes + PassedBytes(grandparents, key, p.index, p.seenKey);
    (Passing(PassedTo(grandparents, key, p.index), true, if bytes > limit then 0 else bytes), bytes > limit)
  }

  class Compaction {
    const c: CompactionInputs
    const maxGrandParentOverlap: nat
    var levelPtrs: seq<nat>
    var grandparentIndex: nat
    var seenKey: bool
    var overlappedBytes: nat

    ghost var lastKey: Option<UserKey>

    constructor (c: CompactionInputs, maxGrandParentOverlap: nat)
      requires c.level + 1 < NUM_LEVELS
      ensures this.c == c && this.maxGrandParentOverlap == maxGrandParentOverlap
      ensures Valid() && lastKey == None && Passed() == UNPASSED
    {
      this.c := c;
      this.maxGrandParentOverlap := maxGrandParentOverlap;
      levelPtrs := [0, 0, 0, 0, 0, 0, 0];
      grandparentIndex, seenKey, overlappedBytes := 0, false, 0;
      lastKey := None;
    }

    /** Each cursor has passed only files that end before the last key asked about. */
    ghost predicate Valid()
      reads this
    {
      && |levelPtrs| == NUM_LEVELS
      && grandparentIndex <= |c.grandparents|
      && c.level + 1 < NUM_LEVELS
      && forall l | 0 <= l < NUM_LEVELS :: PassedOnly(c.version[l], levelPtrs[l], lastKey)
    }

    /** Asked about keys in non-decreasing order, the cursors answer like a full scan. */
    method IsBaseLevelForKey(k: UserKey) returns (r: bool)
      requires Valid()
      requires forall l | 1 <= l < NUM_LEVELS :: ValidFiles(c.version[l]) && SortedLevel(c.version[l])
      requires lastKey.Some? ==> lastKey.value <= k
      modifies this`levelPtrs, this`lastKey
      ensures Valid() && lastKey == Some(k)
      ensures r == IsBase(c.version, c.level, k)
    {
      hide FileMetaData.Valid, SortedLevel;
      lastKey := Some(k);
      for lvl := c.level + 2 to NUM_LEVELS
        invariant Valid() && lastKey == Some(k)
        invariant forall l, f | c.level + 2 <= l < lvl && f in c.version[l] :: !f.Covers(k)
      {
        var files := c.version[lvl];
        while levelPtrs[lvl] < |files|
          invariant Valid() && lastKey == Some(k)
          invariant forall l, f | c.level + 2 <= l < lvl && f in c.version[l] :: !f.Covers(k)
          decreases |files| - levelPtrs[lvl]
        {
          var f := files[levelPtrs[lvl]];
          if k <= f.largest.userKey {
            if k >= f.smallest.userKey {
              assert f in files && f.Covers(k);
              return false;
            }
            break;
          }
          levelPtrs := levelPtrs[lvl := levelPtrs[lvl] + 1];
        }
        RestIsPast(files, levelPtrs[lvl], k);
      }
      r := true;
    }

    function Passed(): Passing
      reads this
    {
      Passing(grandparentIndex, seenKey, overlappedBytes)
    }

    /** Whether the grandparents passed since the output began overlap it too much. */
    method ShouldStopBefore(key: InternalKey) returns (r: bool)
      requires Valid()
      modifies this`grandparentIndex, this`seenKey, this`overlappedBytes
      ensures Valid()
      ensures (Passed(), r) == PassKey(c.grandparents, maxGrandParentOverlap, old(Passed()), key)
    {
      ghost var to := PassedTo(c.grandparents, key, grandparentIndex);
      ghost var total := overlappedBytes + PassedBytes(c.grandparents, key, grandparentIndex, seenKey);
      while grandparentIndex < |c.grandparents| && Before(c.grandparents[grandparentIndex].largest, key)
        invariant Valid()
        invariant seenKey == old(seenKey)
        invariant PassedTo(c.grandparents, key, grandparentIndex) == to
        invariant overlappedBytes + PassedBytes(c.grandparents, key, grandparentIndex, seenKey) == total
        decreases |c.grandparents| - grandparentIndex
      {
        if seenKey {
          overlappedBytes := overlappedBytes + c.grandparents[grandparentIndex].fileSize;
        }
        grandparentIndex := grandparentIndex + 1;
      }
      seenKey := true;
      if overlappedBytes > maxGrandParentOverlap {
        overlappedBytes := 0;
        r := true;
      } else {
        r := false;
      }
    }
  }

  /** If every file before `ptr` ends before k, and the file at `ptr` starts after it, no file covers k. */
  lemma RestIsPast(files: seq<File>, ptr: nat, k: UserKey)
    requires ValidFiles(files) && SortedLevel(files) && ptr <= |files|
    requires forall i | 0 <= i < ptr :: files[i].largest.userKey < k
    requires ptr < |files| ==> k < files[ptr].smallest.userKey
    ensures forall f | f in files :: !f.Covers(k)
  {
    forall f | f in files ensures !f.Covers(k) {
      var i :| 0 <= i < |files| && files[i] == f;
      if ptr < i {
        SmallestToLargest(files[ptr]);
        assert Before(files[ptr].largest, files[i].smallest);
      }
    }
  }

  // ---------------------------------------------------------------- MakeInputIterator

  /** No two files hold entries with one key. */
  ghost predicate FilesApart(fs: seq<File>) {
    forall i, j, x, y | 0 <= i < j < |fs| && x in fs[i].entries && y in fs[j].entries :: x.key != y.key
  }

  /** The merge of all input files. */
  function Collate(fs: seq<File>): seq<Entry> {
    if fs == [] then [] else Merge(fs[0].entries, Collate(fs[1..]))
  }

  lemma {:induction false} CollateSorted(fs: seq<File>)
    requires ValidFiles(fs) && FilesApart(fs)
    ensures Sorted(Collate(fs))
    ensures forall e :: e in Collate(fs) <==> e in Contents(fs)
  {
    hide Sorted, Merge, Before, FilesApart;
    if fs == [] {
      EmptySorted();
    } else {
      HeadApart(fs);
      CollateSorted(fs[1..]);
      assert fs[0] in fs;
      MergeSorted(fs[0].entries, Collate(fs[1..]));
      MergeElements(fs[0].entries, Collate(fs[1..]));
      ContentsCons(fs);
    }
  }

  lemma ContentsCons(fs: seq<File>)
    requires fs != []
    ensures forall e :: e in Contents(fs) <==> e in fs[0].entries || e in Contents(fs[1..])
  {
    assert fs == [fs[0]] + fs[1..];
  }

  lemma HeadApart(fs: seq<File>)
    requires fs != [] && FilesApart(fs)
    ensures FilesApart(fs[1..])
    ensures forall x, y | x in fs[0].entries && y in Contents(fs[1..]) :: x.key != y.key
  {
    var t := fs[1..];
    forall i, j, x, y | 0 <= i < j < |t| && x in t[i].entries && y in t[j].entries ensures x.key != y.key {
      assert t[i] == fs[i + 1] && t[j] == fs[j + 1];
    }
    forall x, y | x in fs[0].entries && y in Contents(t) ensures x.key != y.key {
      var g :| g in t && y in g.entries;
      var j :| 0 <= j < |t| && t[j] == g;
      assert fs[j + 1] == g;
    }
  }

  // ---------------------------------------------------------------- the drop decision

  /** Rule (A) looks only at the entry just before: in sorted input that is enough. */
  lemma ShadowedByPrevious(input: seq<Entry>, i: nat, floor: nat)
    requires Sorted(input) && Unique(ToSet(input)) && i < |input|
    ensures Shadowed(ToSet(input), floor, input[i])
       <==> i > 0 && SameUserKey(input[i - 1], input[i]) && input[i - 1].key.sequence <= floor
  {
    var e := input[i];
    if n :| n in ToSet(input) && SameUserKey(n, e) && e.key.sequence < n.key.sequence <= floor {
      var j :| 0 <= j < |input| && input[j] == n;
      assert j < i;
      assert j < i - 1 ==> Before(input[j].key, input[i - 1].key);
      assert Before(input[i - 1].key, input[i].key);
    }
    if i > 0 && SameUserKey(input[i - 1], e) && input[i - 1].key.sequence <= floor {
      assert Before(input[i - 1].key, input[i].key);
      assert input[i - 1] in ToSet(input) && e in ToSet(input);
    }
  }

  /** What the loop remembers of the entry before: its user key and its sequence. */
  datatype KeyScan = KeyScan(currentUserKey: Option<UserKey>, lastSequenceForKey: nat)

  ghost predicate Remembers(scan: KeyScan, input: seq<Entry>, i: nat)
    requires i <= |input|
  {
    if i == 0 then scan.currentUserKey == None
    else scan.currentUserKey == Some(input[i - 1].key.userKey) && scan.lastSequenceForKey == input[i - 1].key.sequence
  }

  /** One round of the loop's decision: drop exactly the entries that are not survivors. */
  method Decide(compact: Compaction, floor: nat, ghost input: seq<Entry>, ghost i: nat, e: Entry, scan: KeyScan)
    returns (drop: bool, next: KeyScan)
    requires compact.Valid() && Sorted(input) && Unique(ToSet(input)) && i < |input| && input[i] == e
    requires forall l | 1 <= l < NUM_LEVELS :: ValidFiles(compact.c.version[l]) && SortedLevel(compact.c.version[l])
    requires floor < MAX_SEQUENCE && Remembers(scan, input, i)
    requires compact.lastKey.Some? ==> i > 0 && compact.lastKey.value <= input[i - 1].key.userKey
    modifies compact`levelPtrs, compact`lastKey
    ensures drop <==> e !in Survivors(ToSet(input), floor, Base(compact.c))
    ensures compact.Valid() && Remembers(next, input, i + 1)
    ensures compact.lastKey.Some? ==> compact.lastKey.value <= e.key.userKey
  {
    hide FileMetaData.Valid, SortedLevel, IsBase;
    assert i > 0 ==> Before(input[i - 1].key, input[i].key);
    ShadowedByPrevious(input, i, floor);
    assert e in ToSet(input);
    hide Sorted, Unique, Shadowed;
    var last := scan.lastSequenceForKey;
    if scan.currentUserKey != Some(e.key.userKey) {
      last := MAX_SEQUENCE;   // first occurrence of this user key
    }
    drop := false;
    if last <= floor {
      drop := true;
    } else if e.key.kind == TypeDeletion && e.key.sequence <= floor {
      drop := compact.IsBaseLevelForKey(e.key.userKey);
    }
    next := KeyScan(Some(e.key.userKey), e.key.sequence);
  }

  // ---------------------------------------------------------------- the output files

  /** Finished files, the entries of the file being built (none if no file is open) and the next number. */
  datatype Output = Output(files: seq<File>, number: nat, current: seq<Entry>, nextNumber: nat)

  /** A first entry opens a file; `others` says how many numbers flushes draw before the next one is. */
  function AddEntry(o: Output, e: Entry, others: nat -> nat): Output {
    if o.current == [] then Output(o.files, o.nextNumber, [e], o.nextNumber + 1 + others(o.nextNumber))
    else o.(current := o.current + [e])
  }

  function FinishFile(o: Output, sizeOf: seq<Entry> -> nat): Output
    requires o.current != []
  {
    var cur := o.current;
    o.(files := o.files + [FileMetaData(o.number, sizeOf(cur), cur[0].key, cur[|cur| - 1].key, cur)], current := [])
  }

  function CloseIf(o: Output, full: bool, sizeOf: seq<Entry> -> nat): Output {
    if full && o.current != [] then FinishFile(o, sizeOf) else o
  }

  /** Where the output is cut: at a size, and where too much of the grandparents has been passed. */
  datatype Cutting = Cutting(maxOutputFileSize: nat, sizeOf: seq<Entry> -> nat, grandparents: seq<File>, limit: nat, others: nat -> nat)

  /** One input entry: perhaps close the file before it, add the entry if it is kept, perhaps close after it. */
  function Placed(cut: Cutting, o: Output, stop: bool, e: Entry, keep: bool): Output {
    var o1 := CloseIf(o, stop, cut.sizeOf);
    if !keep then o1
    else
      var o2 := AddEntry(o1, e, cut.others);
      CloseIf(o2, cut.sizeOf(o2.current) >= cut.maxOutputFileSize, cut.sizeOf)
  }

  function CutStep(cut: Cutting, o: Output, p: Passing, e: Entry, keep: bool): (Output, Passing) {
    var (p', stop) := PassKey(cut.grandparents, cut.limit, p, e.key);
    (Placed(cut, o, stop, e, keep), p')
  }

  /** The output after the first `i` input entries, of which those in S are kept. */
  ghost function Produced(cut: Cutting, input: seq<Entry>, S: set<Entry>, firstNumber: nat, i: nat): (Output, Passing)
    requires i <= |input|
  {
    if i == 0 then (Output([], 0, [], firstNumber), UNPASSED)
    else
      var (o, p) := Produced(cut, input, S, firstNumber, i - 1);
      CutStep(cut, o, p, input[i - 1], input[i - 1] in S)
  }

  ghost function Outputs(cut: Cutting, input: seq<Entry>, S: set<Entry>, firstNumber: nat): Output {
    CloseIf(Produced(cut, input, S, firstNumber, |input|).0, true, cut.sizeOf)
  }

  ghost function Written(o: Output): set<Entry> {
    Contents(o.files) + ToSet(o.current)
  }

  ghost predicate GoodOutput(o: Output, first: nat) {
    && ValidFiles(o.files) && SortedLevel(o.files) && Sorted(o.current)
    && (forall e | e in o.current :: e.key.sequence <= MAX_SEQUENCE)
    && (forall f, e | f in o.files && e in o.current :: Before(f.largest, e.key))
    && (forall i | 0 <= i < |o.files| :: first <= o.files[i].number < o.nextNumber)
    && DistinctNumbers(o.files)
    && first <= o.nextNumber
    && (o.current != [] ==> first <= o.number < o.nextNumber && forall i | 0 <= i < |o.files| :: o.files[i].number != o.number)
  }

  lemma AddEntryGood(o: Output, e: Entry, first: nat, others: nat -> nat)
    requires GoodOutput(o, first) && e.key.sequence <= MAX_SEQUENCE
    requires forall x | x in Written(o) :: Before(x.key, e.key)
    ensures GoodOutput(AddEntry(o, e, others), first)
    ensures Written(AddEntry(o, e, others)) == Written(o) + {e}
  {
    var n := AddEntry(o, e, others);
    assert Sorted(n.current) by {
      assert forall x | x in o.current :: x in Written(o);
      SortedConcat(o.current, [e]);
      assert o.current == [] ==> n.current == [] + [e];
    }
    hide Sorted;
    forall f, x | f in n.files && x in n.current ensures Before(f.largest, x.key) {
      if x == e {
        assert f.Valid();
        var last := f.entries[|f.entries| - 1];
        assert f in o.files && last in f.entries;
        assert last in Contents(o.files);
      }
    }
  }

  lemma FinishFileGood(o: Output, sizeOf: seq<Entry> -> nat, first: nat)
    requires GoodOutput(o, first) && o.current != []
    ensures GoodOutput(FinishFile(o, sizeOf), first)
    ensures Written(FinishFile(o, sizeOf)) == Written(o)
    ensures FinishFile(o, sizeOf).current == []
  {
    var n := FinishFile(o, sizeOf);
    var f := n.files[|o.files|];
    assert n.files == o.files + [f];
    assert f.Valid();
    hide Sorted;
    assert f.entries[0] in o.current;
    forall i, j | 0 <= i < j < |n.files| ensures Before(n.files[i].largest, n.files[j].smallest) {
      if j == |o.files| {
        assert n.files[i] in o.files;
      }
    }
    ContentsAppend(o.files, f);
  }

  lemma PlacedGood(cut: Cutting, o: Output, stop: bool, e: Entry, keep: bool, first: nat)
    requires GoodOutput(o, first) && e.key.sequence <= MAX_SEQUENCE
    requires forall x | x in Written(o) :: Before(x.key, e.key)
    ensures GoodOutput(Placed(cut, o, stop, e, keep), first)
    ensures Written(Placed(cut, o, stop, e, keep)) == Written(o) + if keep then {e} else {}
  {
    hide GoodOutput, AddEntry, FinishFile, Written;
    CloseGood(o, stop, cut.sizeOf, first);
    if keep {
      var o1 := CloseIf(o, stop, cut.sizeOf);
      AddEntryGood(o1, e, first, cut.others);
      var o2 := AddEntry(o1, e, cut.others);
      CloseGood(o2, cut.sizeOf(o2.current) >= cut.maxOutputFileSize, cut.sizeOf, first);
    }
  }

  lemma CloseGood(o: Output, full: bool, sizeOf: seq<Entry> -> nat, first: nat)
    requires GoodOutput(o, first)
    ensures GoodOutput(CloseIf(o, full, sizeOf), first)
    ensures Written(CloseIf(o, full, sizeOf)) == Written(o)
    ensures full ==> CloseIf(o, full, sizeOf).current == []
  {
    hide GoodOutput, FinishFile, Written;
    if full && o.current != [] {
      FinishFileGood(o, sizeOf, first);
    }
  }

  lemma ContentsAppend(fs: seq<File>, f: File)
    ensures Contents(fs + [f]) == Contents(fs) + ToSet(f.entries)
  {
    forall e | e in Contents(fs + [f]) ensures e in Contents(fs) + ToSet(f.entries) {
      var g :| g in fs + [f] && e in g.entries;
    }
    forall e | e in Contents(fs) + ToSet(f.entries) ensures e in Contents(fs + [f]) {
      if e in Contents(fs) {
        var g :| g in fs && e in g.entries;
        assert g in fs + [f];
      } else {
        assert f in fs + [f];
      }
    }
  }

  // ---------------------------------------------------------------- DoCompactionWork

  ghost function KeptSoFar(input: seq<Entry>, i: nat, S: set<Entry>): set<Entry>
    requires i <= |input|
  {
    set e | e in input[..i] && e in S
  }

  lemma KeptStep(input: seq<Entry>, i: nat, S: set<Entry>)
    requires i < |input|
    ensures KeptSoFar(input, i + 1, S) == KeptSoFar(input, i, S) + if input[i] in S then {input[i]} else {}
  {
    assert input[..i + 1] == input[..i] + [input[i]];
  }

  lemma EarlierIsBefore(input: seq<Entry>, i: nat, S: set<Entry>)
    requires Sorted(input) && i < |input|
    ensures forall x | x in KeptSoFar(input, i, S) :: Before(x.key, input[i].key)
  {
    hide Before;
    forall x | x in KeptSoFar(input, i, S) ensures Before(x.key, input[i].key) {
      var j :| 0 <= j < i && input[j] == x;
    }
  }

  /** OpenCompactionOutputFile, TableBuilder::Add and FinishCompactionOutputFile for one input entry. */
  method Place(cut: Cutting, o: Output, stop: bool, e: Entry, drop: bool) returns (out: Output)
    ensures out == Placed(cut, o, stop, e, !drop)
  {
    hide FinishFile;
    out := o;
    if stop && out.current != [] {
      out := FinishFile(out, cut.sizeOf);
    }
    if !drop {
      out := AddEntry(out, e, cut.others);
      if cut.sizeOf(out.current) >= cut.maxOutputFileSize {
        out := FinishFile(out, cut.sizeOf);
      }
    }
  }

  /**
    The merged input is read once.  The output files, in order, hold exactly the survivors, however the
    output is cut into files; and it is cut where the sizes and the grandparents say.  Flushes in the meantime may
    draw file numbers too: `others` says how many after each of the outputs' own.
  */
  method DoCompactionWork(compact: Compaction, floor: nat, input: seq<Entry>, maxOutputFileSize: nat,
                          sizeOf: seq<Entry> -> nat, firstNumber: nat, others: nat -> nat)
    returns (outputs: seq<File>, nextNumber: nat)
    requires compact.Valid() && compact.lastKey == None && compact.Passed() == UNPASSED
    requires forall l | 1 <= l < NUM_LEVELS :: ValidFiles(compact.c.version[l]) && SortedLevel(compact.c.version[l])
    requires Sorted(input) && Unique(ToSet(input)) && floor < MAX_SEQUENCE
    requires forall e | e in input :: e.key.sequence <= MAX_SEQUENCE
    modifies compact
    ensures ValidFiles(outputs) && SortedLevel(outputs) && DistinctNumbers(outputs)
    ensures Contents(outputs) == Survivors(ToSet(input), floor, Base(compact.c))
    ensures firstNumber <= nextNumber
    ensures forall f | f in outputs :: firstNumber <= f.number < nextNumber
    ensures var cut := Cutting(maxOutputFileSize, sizeOf, compact.c.grandparents, compact.maxGrandParentOverlap, others);
            var o := Outputs(cut, input, Survivors(ToSet(input), floor, Base(compact.c)), firstNumber);
            outputs == o.files && nextNumber == o.nextNumber
  {
    hide GoodOutput, Survivors, FileMetaData.Valid, SortedLevel, IsBase, Sorted, Unique, Placed, FinishFile, Written, KeptSoFar, PassKey;
    var cut := Cutting(maxOutputFileSize, sizeOf, compact.c.grandparents, compact.maxGrandParentOverlap, others);
    ghost var S := Survivors(ToSet(input), floor, Base(compact.c));
    var o := Output([], 0, [], firstNumber);
    NothingWritten(firstNumber, input, S);
    var scan := KeyScan(None, MAX_SEQUENCE);
    for i := 0 to |input|
      invariant GoodOutput(o, firstNumber)
      invariant Written(o) == KeptSoFar(input, i, S)
      invariant Remembers(scan, input, i)
      invariant (o, compact.Passed()) == Produced(cut, input, S, firstNumber, i)
      invariant compact.Valid()
      invariant compact.lastKey.Some? ==> i > 0 && compact.lastKey.value <= input[i - 1].key.userKey
    {
      var e := input[i];
      assert e in input;
      var stop := compact.ShouldStopBefore(e.key);
      var drop;
      drop, scan := Decide(compact, floor, input, i, e, scan);
      KeptStep(input, i, S);
      EarlierIsBefore(input, i, S);
      PlacedGood(cut, o, stop, e, !drop, firstNumber);
      o := Place(cut, o, stop, e, drop);
    }
    CloseGood(o, true, sizeOf, firstNumber);
    if o.current != [] {
      o := FinishFile(o, sizeOf);
    }
    hide Produced;
    SurvivorsAreInput(ToSet(input), floor, Base(compact.c));
    FinishedOutput(o, firstNumber, input, S);
    outputs, nextNumber := o.files, o.nextNumber;
  }

  lemma SurvivorsAreInput(I: set<Entry>, floor: nat, base: UserKey -> bool)
    ensures Survivors(I, floor, base) <= I
  {
  }

  lemma NothingWritten(firstNumber: nat, input: seq<Entry>, S: set<Entry>)
    ensures GoodOutput(Output([], 0, [], firstNumber), firstNumber)
    ensures Written(Output([], 0, [], firstNumber)) == KeptSoFar(input, 0, S)
  {
    EmptySorted();
  }

  lemma FinishedOutput(o: Output, first: nat, input: seq<Entry>, S: set<Entry>)
    requires GoodOutput(o, first) && o.current == [] && Written(o) == KeptSoFar(input, |input|, S)
    requires S <= ToSet(input)
    ensures ValidFiles(o.files) && SortedLevel(o.files) && DistinctNumbers(o.files)
    ensures Contents(o.files) == S
    ensures first <= o.nextNumber && forall f | f in o.files :: first <= f.number < o.nextNumber
  {
    assert input[..|input|] == input;
    assert KeptSoFar(input, |input|, S) == S;
  }
}
