/** Version edits and the builder that applies them (db/version_edit.h, VersionSet::Builder in db/version_set.cc). */
module VersionEdits {
  import opened InternalKeys
  import opened Versions

  datatype VersionEdit = VersionEdit(
    comparator: Option<Bytes>,
    logNumber: Option<nat>,
    prevLogNumber: Option<nat>,
    nextFileNumber: Option<nat>,
    lastSequence: Option<nat>,
    compactPointers: seq<(nat, InternalKey)>,
    deletedFiles: set<(nat, nat)>,
    newFiles: seq<(nat, File)>)

  const EMPTY_EDIT := VersionEdit(None, None, None, None, None, [], {}, [])

  /** GetLevel admits no other levels. */
  ghost predicate ValidEdit(edit: VersionEdit) {
    && (forall p | p in edit.deletedFiles :: p.0 < NUM_LEVELS)
    && (forall p | p in edit.newFiles :: p.0 < NUM_LEVELS)
  }

  // ---------------------------------------------------------------- BySmallestKey

  /** BySmallestKey: by smallest key, ties by file number. */
  predicate SmallerFile(f: File, g: File) {
    Before(f.smallest, g.smallest) || (f.smallest == g.smallest && f.number < g.number)
  }

  ghost predicate OrderedFiles(fs: seq<File>) {
    forall i, j | 0 <= i < j < |fs| :: SmallerFile(fs[i], fs[j])
  }

  /** std::set insertion: an equivalent element stays, otherwise the file goes to its place. */
  function InsertFile(fs: seq<File>, f: File): seq<File> {
    if fs == [] || SmallerFile(f, fs[0]) then [f] + fs
    else if !SmallerFile(fs[0], f) then fs
    else [fs[0]] + InsertFile(fs[1..], f)
  }

  lemma {:induction false} InsertFileOrdered(fs: seq<File>, f: File)
    requires OrderedFiles(fs)
    requires forall g | g in fs && g.number == f.number :: g == f
    ensures OrderedFiles(InsertFile(fs, f))
    ensures forall g :: g in InsertFile(fs, f) <==> g in fs || g == f
  {
    if fs != [] && !SmallerFile(f, fs[0]) {
      assert fs == [fs[0]] + fs[1..] && fs[0] in fs;
      if SmallerFile(fs[0], f) {
        var r := InsertFile(fs[1..], f);
        InsertFileOrdered(fs[1..], f);
        forall j | 0 <= j < |r| ensures SmallerFile(fs[0], r[j]) {
          assert r[j] in r;
          if r[j] != f {
            var i :| 1 <= i < |fs| && fs[i] == r[j];
          }
        }
      } else {
        assert fs[0].smallest == f.smallest && fs[0].number == f.number;
      }
    }
  }

  // ---------------------------------------------------------------- one level of the builder

  datatype LevelState = LevelState(deleted: set<nat>, added: seq<File>)

  const FRESH_LEVEL := LevelState({}, [])

  function AddAll(st: LevelState, fs: seq<File>): LevelState
    decreases |fs|
  {
    if fs == [] then st
    else AddAll(LevelState(st.deleted - {fs[0].number}, InsertFile(st.added, fs[0])), fs[1..])
  }

  /** Deletions first, then the additions; an addition takes its number off the deleted set. */
  function ApplyLevel(st: LevelState, del: set<nat>, fs: seq<File>): LevelState {
    AddAll(LevelState(st.deleted + del, st.added), fs)
  }

  /** SaveTo for one level: base files and added files merged by smallest key, deleted numbers left out. */
  function SaveLevel(base: seq<File>, st: LevelState): seq<File>
    decreases |base| + |st.added|
  {
    if base == [] && st.added == [] then []
    else if base == [] || (st.added != [] && SmallerFile(st.added[0], base[0])) then
      MaybeAdd(st.added[0], st.deleted) + SaveLevel(base, st.(added := st.added[1..]))
    else
      MaybeAdd(base[0], st.deleted) + SaveLevel(base[1..], st)
  }

  function MaybeAdd(f: File, deleted: set<nat>): seq<File> {
    if f.number in deleted then [] else [f]
  }

  lemma {:induction false} SaveLevelElements(base: seq<File>, st: LevelState)
    ensures forall f :: f in SaveLevel(base, st) <==> (f in base || f in st.added) && f.number !in st.deleted
    decreases |base| + |st.added|
  {
    if base == [] && st.added == [] {
    } else if base == [] || (st.added != [] && SmallerFile(st.added[0], base[0])) {
      assert st.added == [st.added[0]] + st.added[1..];
      SaveLevelElements(base, st.(added := st.added[1..]));
    } else {
      assert base == [base[0]] + base[1..];
      SaveLevelElements(base[1..], st);
    }
  }

  /** No file of `a` stands level with a file of `b`. */
  ghost predicate Apart(a: seq<File>, b: seq<File>) {
    forall f, g | f in a && g in b :: SmallerFile(f, g) || SmallerFile(g, f)
  }

  lemma OrderedTail(fs: seq<File>)
    requires fs != [] && OrderedFiles(fs)
    ensures OrderedFiles(fs[1..])
    ensures forall g | g in fs[1..] :: SmallerFile(fs[0], g)
  {
    forall g | g in fs[1..] ensures SmallerFile(fs[0], g) {
      var i :| 1 <= i < |fs| && fs[i] == g;
    }
  }

  lemma OrderedCons(f: File, fs: seq<File>)
    requires OrderedFiles(fs)
    requires forall g | g in fs :: SmallerFile(f, g)
    ensures OrderedFiles([f] + fs)
  {
    forall i, j | 0 <= i < j < |fs| + 1 ensures SmallerFile(([f] + fs)[i], ([f] + fs)[j]) {
      assert fs[j - 1] in fs;
    }
  }

  lemma OrderedMaybeAdd(f: File, deleted: set<nat>, fs: seq<File>)
    requires OrderedFiles(fs)
    requires forall g | g in fs :: SmallerFile(f, g)
    ensures OrderedFiles(MaybeAdd(f, deleted) + fs)
  {
    if f.number in deleted {
      assert [] + fs == fs;
    } else {
      OrderedCons(f, fs);
    }
  }

  lemma {:induction false} SaveLevelOrdered(base: seq<File>, st: LevelState)
    requires OrderedFiles(base) && OrderedFiles(st.added) && Apart(base, st.added)
    ensures OrderedFiles(SaveLevel(base, st))
    decreases |base| + |st.added|
  {
    hide OrderedFiles, SmallerFile, MaybeAdd;
    if base == [] && st.added == [] {
      NoFilesOrdered();
    } else if base == [] || (st.added != [] && SmallerFile(st.added[0], base[0])) {
      var st' := st.(added := st.added[1..]);
      OrderedTail(st.added);
      assert forall g | g in st'.added :: g in st.added;
      SaveLevelOrdered(base, st');
      SaveLevelElements(base, st');
      forall g | g in base ensures SmallerFile(st.added[0], g) {
        OrderedTail(base);
        assert g == base[0] || g in base[1..];
        SmallerTransitive(st.added[0], base[0], g);
      }
      OrderedMaybeAdd(st.added[0], st.deleted, SaveLevel(base, st'));
    } else {
      OrderedTail(base);
      assert forall g | g in base[1..] :: g in base;
      SaveLevelOrdered(base[1..], st);
      SaveLevelElements(base[1..], st);
      forall g | g in st.added ensures SmallerFile(base[0], g) {
        OrderedTail(st.added);
        assert st.added[0] in st.added && base[0] in base;
        assert g == st.added[0] || g in st.added[1..];
        SmallerTransitive(base[0], st.added[0], g);
      }
      OrderedMaybeAdd(base[0], st.deleted, SaveLevel(base[1..], st));
    }
  }

  lemma SmallerTransitive(f: File, g: File, h: File)
    requires SmallerFile(f, g) && (g == h || SmallerFile(g, h))
    ensures SmallerFile(f, h)
  {
  }

  lemma NoFilesOrdered()
    ensures OrderedFiles([])
  {
  }

  /** Ordered lists with the same files are the same list. */
  lemma {:induction false} OrderedUnique(a: seq<File>, b: seq<File>)
    requires OrderedFiles(a) && OrderedFiles(b)
    requires forall f :: f in a <==> f in b
    ensures a == b
  {
    assert b != [] ==> b[0] in b;
    if a != [] {
      assert a[0] in b;
      OrderedTail(a);
      OrderedTail(b);
      assert b[0] in a;
      assert a[0] == b[0];
      assert a == [a[0]] + a[1..] && b == [b[0]] + b[1..];
      forall f ensures f in a[1..] <==> f in b[1..] {
        if f in a[1..] {
          assert f in b && f != b[0];
        }
        if f in b[1..] {
          assert f in a && f != a[0];
        }
      }
      OrderedUnique(a[1..], b[1..]);
    }
  }

  lemma OrderedApart(fs: seq<File>, i: nat, j: nat)
    requires OrderedFiles(fs) && i < |fs| && j < |fs|
    ensures fs[i] == fs[j] ==> i == j
  {
    if i < j {
      assert SmallerFile(fs[i], fs[j]);
    } else if j < i {
      assert SmallerFile(fs[j], fs[i]);
    }
  }

  // ---------------------------------------------------------------- the whole builder

  type BuilderState = s: seq<LevelState> | |s| == NUM_LEVELS
    witness [FRESH_LEVEL, FRESH_LEVEL, FRESH_LEVEL, FRESH_LEVEL, FRESH_LEVEL, FRESH_LEVEL, FRESH_LEVEL]

  const FRESH: BuilderState :=
    [FRESH_LEVEL, FRESH_LEVEL, FRESH_LEVEL, FRESH_LEVEL, FRESH_LEVEL, FRESH_LEVEL, FRESH_LEVEL]

  function NumbersAt(files: set<(nat, nat)>, level: nat): set<nat> {
    set p | p in files && p.0 == level :: p.1
  }

  function DeletedAt(edit: VersionEdit, level: nat): set<nat> {
    NumbersAt(edit.deletedFiles, level)
  }

  function NewAt(files: seq<(nat, File)>, level: nat): seq<File> {
    if files == [] then []
    else (if files[0].0 == level then [files[0].1] else []) + NewAt(files[1..], level)
  }

  function ApplyEditAt(s: BuilderState, edit: VersionEdit, level: nat): LevelState
    requires level < NUM_LEVELS
  {
    ApplyLevel(s[level], DeletedAt(edit, level), NewAt(edit.newFiles, level))
  }

  function ApplyEdit(s: BuilderState, edit: VersionEdit): BuilderState {
    [ApplyEditAt(s, edit, 0), ApplyEditAt(s, edit, 1), ApplyEditAt(s, edit, 2), ApplyEditAt(s, edit, 3),
     ApplyEditAt(s, edit, 4), ApplyEditAt(s, edit, 5), ApplyEditAt(s, edit, 6)]
  }

  function SaveTo(base: Version, s: BuilderState): Version {
    [SaveLevel(base[0], s[0]), SaveLevel(base[1], s[1]), SaveLevel(base[2], s[2]), SaveLevel(base[3], s[3]),
     SaveLevel(base[4], s[4]), SaveLevel(base[5], s[5]), SaveLevel(base[6], s[6])]
  }

  /** What LogAndApply installs: one builder, one edit. */
  function NextVersion(v: Version, edit: VersionEdit): Version {
    SaveTo(v, ApplyEdit(FRESH, edit))
  }

  lemma NextLevel(v: Version, edit: VersionEdit, l: nat)
    requires l < NUM_LEVELS
    ensures NextVersion(v, edit)[l] == SaveLevel(v[l], ApplyLevel(FRESH_LEVEL, DeletedAt(edit, l), NewAt(edit.newFiles, l)))
  {
    hide SaveLevel, ApplyLevel, DeletedAt, NewAt;
    var s := ApplyEdit(FRESH, edit);
    assert s[l] == ApplyEditAt(FRESH, edit, l);
    assert SaveTo(v, s)[l] == SaveLevel(v[l], s[l]);
  }

  function FilesAt(level: nat, fs: seq<File>): seq<(nat, File)> {
    if fs == [] then [] else [(level, fs[0])] + FilesAt(level, fs[1..])
  }

  lemma {:induction false} NewAtFilesAt(level: nat, fs: seq<File>, l: nat)
    ensures NewAt(FilesAt(level, fs), l) == if l == level then fs else []
  {
    if fs != [] {
      NewAtFilesAt(level, fs[1..], l);
      assert FilesAt(level, fs)[1..] == FilesAt(level, fs[1..]);
      assert fs == [fs[0]] + fs[1..];
    }
  }

  // ---------------------------------------------------------------- one builder for many edits

  ghost predicate NumbersDiffer(a: seq<File>, b: seq<File>) {
    forall f, g | f in a && g in b :: f.number != g.number
  }

  lemma DifferentNumbersApart(a: seq<File>, b: seq<File>)
    requires NumbersDiffer(a, b)
    ensures Apart(a, b)
  {
  }

  lemma {:induction false} AddAllElements(st: LevelState, fs: seq<File>)
    requires OrderedFiles(st.added) && NumbersDiffer(st.added, fs) && DistinctNumbers(fs)
    ensures OrderedFiles(AddAll(st, fs).added)
    ensures forall f :: f in AddAll(st, fs).added <==> f in st.added || f in fs
    ensures forall n :: n in AddAll(st, fs).deleted <==> n in st.deleted && forall f | f in fs :: f.number != n
    decreases |fs|
  {
    hide OrderedFiles, SmallerFile, InsertFile;
    if fs != [] {
      assert fs == [fs[0]] + fs[1..];
      var st' := LevelState(st.deleted - {fs[0].number}, InsertFile(st.added, fs[0]));
      assert fs[0] in fs;
      InsertFileOrdered(st.added, fs[0]);
      forall f, g | f in st'.added && g in fs[1..] ensures f.number != g.number {
        var i :| 1 <= i < |fs| && fs[i] == g;
      }
      AddAllElements(st', fs[1..]);
    }
  }

  /** Files and numbers that one more edit brings to an accumulated builder. */
  lemma SaveAfterApply(base: seq<File>, st: LevelState, del: set<nat>, fs: seq<File>)
    requires OrderedFiles(base) && OrderedFiles(st.added)
    requires NumbersDiffer(base, st.added) && NumbersDiffer(base, fs) && NumbersDiffer(st.added, fs) && DistinctNumbers(fs)
    ensures SaveLevel(base, ApplyLevel(st, del, fs))
         == SaveLevel(SaveLevel(base, st), ApplyLevel(FRESH_LEVEL, del, fs))
    ensures OrderedFiles(ApplyLevel(st, del, fs).added)
    ensures NumbersDiffer(base, ApplyLevel(st, del, fs).added)
  {
    hide OrderedFiles, SaveLevel, AddAll;
    var a, b := ApplyLevel(st, del, fs), ApplyLevel(FRESH_LEVEL, del, fs);
    var mid := SaveLevel(base, st);
    NoFilesOrdered();
    AddAllElements(LevelState(st.deleted + del, st.added), fs);
    AddAllElements(LevelState({} + del, []), fs);
    SaveLevelElements(base, st);
    DifferentNumbersApart(base, st.added);
    SaveLevelOrdered(base, st);
    SaveLevelElements(base, a);
    DifferentNumbersApart(base, a.added);
    SaveLevelOrdered(base, a);
    SaveLevelElements(mid, b);
    assert NumbersDiffer(mid, b.added);
    DifferentNumbersApart(mid, b.added);
    SaveLevelOrdered(mid, b);
    SameElementsSaved(base, st, mid, a, b, del, fs);
    OrderedUnique(SaveLevel(base, a), SaveLevel(mid, b));
  }

  lemma SameElementsSaved(base: seq<File>, st: LevelState, mid: seq<File>, a: LevelState, b: LevelState, del: set<nat>, fs: seq<File>)
    requires NumbersDiffer(base, fs) && NumbersDiffer(st.added, fs)
    requires forall f :: f in mid <==> (f in base || f in st.added) && f.number !in st.deleted
    requires forall f :: f in a.added <==> f in st.added || f in fs
    requires forall f :: f in b.added <==> f in fs
    requires forall n :: n in a.deleted <==> n in st.deleted + del && forall f | f in fs :: f.number != n
    requires forall n :: n in b.deleted <==> n in del && forall f | f in fs :: f.number != n
    ensures forall f :: (f in base || f in a.added) && f.number !in a.deleted
                   <==> (f in mid || f in b.added) && f.number !in b.deleted
  {
  }

  /** The builder fed with all edits in turn, one level. */
  function Accumulate(edits: seq<VersionEdit>, level: nat): LevelState {
    if edits == [] then FRESH_LEVEL
    else
      var e := edits[|edits| - 1];
      ApplyLevel(Accumulate(edits[..|edits| - 1], level), DeletedAt(e, level), NewAt(e.newFiles, level))
  }

  /** A fresh builder and a new version for each edit, one level. */
  function OneByOne(base: seq<File>, edits: seq<VersionEdit>, level: nat): seq<File> {
    if edits == [] then base
    else
      var e := edits[|edits| - 1];
      SaveLevel(OneByOne(base, edits[..|edits| - 1], level),
                ApplyLevel(FRESH_LEVEL, DeletedAt(e, level), NewAt(e.newFiles, level)))
  }

  function AllNew(edits: seq<VersionEdit>, level: nat): seq<File> {
    if edits == [] then []
    else AllNew(edits[..|edits| - 1], level) + NewAt(edits[|edits| - 1].newFiles, level)
  }

  /** A file number enters the level at most once. */
  ghost predicate EntersOnce(base: seq<File>, edits: seq<VersionEdit>, level: nat) {
    DistinctNumbers(base + AllNew(edits, level))
  }

  lemma DistinctParts(a: seq<File>, b: seq<File>, c: seq<File>)
    requires DistinctNumbers(a + (b + c))
    ensures DistinctNumbers(a + b) && DistinctNumbers(c)
    ensures NumbersDiffer(a, c) && NumbersDiffer(b, c) && NumbersDiffer(a, b)
  {
    var all := a + (b + c);
    forall i, j | 0 <= i < j < |a + b| ensures (a + b)[i].number != (a + b)[j].number {
      assert (a + b)[i] == all[i] && (a + b)[j] == all[j];
    }
    forall i, j | 0 <= i < j < |c| ensures c[i].number != c[j].number {
      assert c[i] == all[|a| + |b| + i] && c[j] == all[|a| + |b| + j];
    }
    forall i, j | 0 <= i < |a| && 0 <= j < |c| ensures a[i].number != c[j].number {
      assert a[i] == all[i] && c[j] == all[|a| + |b| + j];
    }
    forall i, j | 0 <= i < |b| && 0 <= j < |c| ensures b[i].number != c[j].number {
      assert b[i] == all[|a| + i] && c[j] == all[|a| + |b| + j];
    }
    forall i, j | 0 <= i < |a| && 0 <= j < |b| ensures a[i].number != b[j].number {
      assert a[i] == all[i] && b[j] == all[|a| + j];
    }
  }

  /** Replaying a manifest through one builder gives the files that the running database reached edit by edit. */
  lemma {:induction false} ReplayLevel(base: seq<File>, edits: seq<VersionEdit>, level: nat)
    requires OrderedFiles(base) && EntersOnce(base, edits, level)
    ensures SaveLevel(base, Accumulate(edits, level)) == OneByOne(base, edits, level)
    ensures OrderedFiles(OneByOne(base, edits, level))
    ensures OrderedFiles(Accumulate(edits, level).added)
    ensures forall f | f in Accumulate(edits, level).added :: f in AllNew(edits, level)
    ensures NumbersDiffer(base, Accumulate(edits, level).added)
  {
    hide OrderedFiles, DistinctNumbers, SaveLevel, AddAll;
    if edits == [] {
      SaveNothing(base);
      NoFilesOrdered();
    } else {
      var init, e := edits[..|edits| - 1], edits[|edits| - 1];
      var st := Accumulate(init, level);
      var fs, del := NewAt(e.newFiles, level), DeletedAt(e, level);
      DistinctParts(base, AllNew(init, level), fs);
      ReplayLevel(base, init, level);
      SaveAfterApply(base, st, del, fs);
      AddAllElements(LevelState(st.deleted + del, st.added), fs);
      DifferentNumbersApart(base, Accumulate(edits, level).added);
      SaveLevelOrdered(base, Accumulate(edits, level));
    }
  }

  lemma {:induction false} SaveNothing(base: seq<File>)
    ensures SaveLevel(base, FRESH_LEVEL) == base
  {
    if base != [] {
      SaveNothing(base[1..]);
      assert base == [base[0]] + base[1..];
    }
  }

  // ---------------------------------------------------------------- VersionSet::Builder

  function AddOne(st: LevelState, f: File): LevelState {
    LevelState(st.deleted - {f.number}, InsertFile(st.added, f))
  }

  lemma {:induction false} AddAllAppend(st: LevelState, fs: seq<File>, f: File)
    ensures AddAll(st, fs + [f]) == AddOne(AddAll(st, fs), f)
    decreases |fs|
  {
    if fs == [] {
      assert fs + [f] == [f];
      assert AddAll(AddOne(st, f), []) == AddOne(st, f);
    } else {
      assert (fs + [f])[1..] == fs[1..] + [f];
      AddAllAppend(AddOne(st, fs[0]), fs[1..], f);
    }
  }

  lemma {:induction false} NewAtAppend(files: seq<(nat, File)>, p: (nat, File), level: nat)
    ensures NewAt(files + [p], level) == NewAt(files, level) + if p.0 == level then [p.1] else []
  {
    if files == [] {
      assert files + [p] == [p];
    } else {
      assert (files + [p])[1..] == files[1..] + [p];
      NewAtAppend(files[1..], p, level);
    }
  }

  /** std::upper_bound over BySmallestKey: the first file that `f` precedes. */
  method UpperBound(fs: seq<File>, from: nat, f: File) returns (r: nat)
    requires OrderedFiles(fs) && from <= |fs|
    ensures from <= r <= |fs|
    ensures forall i | from <= i < r :: !SmallerFile(f, fs[i])
    ensures r < |fs| ==> SmallerFile(f, fs[r])
  {
    r := from;
    var hi := |fs|;
    while r < hi
      invariant from <= r <= hi <= |fs|
      invariant forall i | from <= i < r :: !SmallerFile(f, fs[i])
      invariant hi < |fs| ==> SmallerFile(f, fs[hi])
    {
      var mid := (r + hi) / 2;
      if SmallerFile(f, fs[mid]) {
        hi := mid;
      } else {
        forall i | from <= i < mid ensures !SmallerFile(f, fs[i]) {
          assert SmallerFile(fs[i], fs[mid]);
        }
        r := mid + 1;
      }
    }
  }

  /** What SaveTo still has to write after `next` base files and `i` added files. */
  function SaveFrom(fs: seq<File>, next: nat, st: LevelState, i: nat): seq<File>
    requires next <= |fs| && i <= |st.added|
  {
    SaveLevel(fs[next..], st.(added := st.added[i..]))
  }

  lemma NothingLeft(fs: seq<File>, st: LevelState)
    ensures SaveFrom(fs, |fs|, st, |st.added|) == []
    ensures SaveFrom(fs, 0, st, 0) == SaveLevel(fs, st)
  {
    assert fs[0..] == fs && st.added[0..] == st.added;
  }

  lemma TakeBase(fs: seq<File>, next: nat, st: LevelState, i: nat, files: seq<File>)
    requires next < |fs| && i <= |st.added|
    requires i < |st.added| ==> !SmallerFile(st.added[i], fs[next])
    ensures files + MaybeAdd(fs[next], st.deleted) + SaveFrom(fs, next + 1, st, i) == files + SaveFrom(fs, next, st, i)
  {
    assert fs[next..][1..] == fs[next + 1..];
  }

  lemma TakeAdded(fs: seq<File>, next: nat, st: LevelState, i: nat, files: seq<File>)
    requires next <= |fs| && i < |st.added|
    requires next < |fs| ==> SmallerFile(st.added[i], fs[next])
    ensures files + MaybeAdd(st.added[i], st.deleted) + SaveFrom(fs, next, st, i + 1) == files + SaveFrom(fs, next, st, i)
  {
    assert st.added[i..][1..] == st.added[i + 1..];
  }

  class Builder {
    const base: Version
    var levels: BuilderState

    constructor (base: Version)
      ensures this.base == base && levels == FRESH
    {
      this.base := base;
      levels := FRESH;
    }

    method Apply(edit: VersionEdit)
      requires ValidEdit(edit)
      modifies this
      ensures levels == ApplyEdit(old(levels), edit)
    {
      hide AddAll, NewAt, NumbersAt;
      DeleteFiles(edit.deletedFiles);
      AddFiles(edit.newFiles);
      assert levels == ApplyEdit(old(levels), edit);
    }

    method DeleteFiles(files: set<(nat, nat)>)
      requires forall p | p in files :: p.0 < NUM_LEVELS
      modifies this
      ensures forall l | 0 <= l < NUM_LEVELS ::
          levels[l] == LevelState(old(levels)[l].deleted + NumbersAt(files, l), old(levels)[l].added)
    {
      ghost var was := levels;
      var rest := files;
      ghost var done: set<(nat, nat)> := {};
      while rest != {}
        invariant files == done + rest
        invariant forall l | 0 <= l < NUM_LEVELS ::
            levels[l] == LevelState(was[l].deleted + NumbersAt(done, l), was[l].added)
        decreases rest
      {
        var p :| p in rest;
        forall l ensures NumbersAt(done + {p}, l) == NumbersAt(done, l) + if p.0 == l then {p.1} else {} {
          assert forall q | q in done + {p} :: q in done || q == p;
        }
        levels := levels[p.0 := LevelState(levels[p.0].deleted + {p.1}, levels[p.0].added)];
        rest, done := rest - {p}, done + {p};
      }
      assert done == files;
    }

    method AddFiles(files: seq<(nat, File)>)
      requires forall p | p in files :: p.0 < NUM_LEVELS
      modifies this
      ensures forall l | 0 <= l < NUM_LEVELS :: levels[l] == AddAll(old(levels)[l], NewAt(files, l))
    {
      ghost var was := levels;
      for i := 0 to |files|
        invariant forall l | 0 <= l < NUM_LEVELS :: levels[l] == AddAll(was[l], NewAt(files[..i], l))
      {
        var level, f := files[i].0, files[i].1;
        assert files[i] in files;
        assert files[..i + 1] == files[..i] + [files[i]];
        forall l | 0 <= l < NUM_LEVELS
          ensures AddAll(was[l], NewAt(files[..i + 1], l))
               == if l == level then AddOne(AddAll(was[l], NewAt(files[..i], l)), f) else AddAll(was[l], NewAt(files[..i], l))
        {
          NewAtAppend(files[..i], files[i], l);
          if l == level {
            AddAllAppend(was[l], NewAt(files[..i], l), f);
          } else {
            assert NewAt(files[..i], l) + [] == NewAt(files[..i], l);
          }
        }
        levels := levels[level := AddOne(levels[level], f)];
      }
      assert files[..|files|] == files;
    }

    /** SaveTo, one level: before each added file, the base files up to its upper bound. */
    method SaveLevelTo(level: nat) returns (files: seq<File>)
      requires level < NUM_LEVELS
      requires OrderedFiles(base[level])
      ensures files == SaveLevel(base[level], levels[level])
    {
      var fs, st := base[level], levels[level];
      hide OrderedFiles, SmallerFile, SaveLevel, MaybeAdd;
      files := [];
      var next := 0;
      for i := 0 to |st.added|
        invariant next <= |fs|
        invariant files + SaveFrom(fs, next, st, i) == SaveFrom(fs, 0, st, 0)
      {
        var bpos := UpperBound(fs, next, st.added[i]);
        while next < bpos
          invariant next <= bpos
          invariant files + SaveFrom(fs, next, st, i) == SaveFrom(fs, 0, st, 0)
        {
          TakeBase(fs, next, st, i, files);
          files := files + MaybeAdd(fs[next], st.deleted);
          next := next + 1;
        }
        TakeAdded(fs, next, st, i, files);
        files := files + MaybeAdd(st.added[i], st.deleted);
      }
      while next < |fs|
        invariant next <= |fs|
        invariant files + SaveFrom(fs, next, st, |st.added|) == SaveFrom(fs, 0, st, 0)
      {
        TakeBase(fs, next, st, |st.added|, files);
        files := files + MaybeAdd(fs[next], st.deleted);
        next := next + 1;
      }
      NothingLeft(fs, st);
    }

    method SaveVersion() returns (v: Version)
      requires forall l | 0 <= l < NUM_LEVELS :: OrderedFiles(base[l])
      ensures v == SaveTo(base, levels)
    {
      var out: seq<seq<File>> := [];
      for level := 0 to NUM_LEVELS
        invariant |out| == level
        invariant forall l | 0 <= l < level :: out[l] == SaveLevel(base[l], levels[l])
      {
        var files := SaveLevelTo(level);
        out := out + [files];
      }
      v := out;
    }
  }
}
