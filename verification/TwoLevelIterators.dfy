/**
  The two-level iterator (table/two_level_iterator.cc): an index of rows, each naming a block by a handle,
  and a cursor in one block at a time, opened when the index gets there.  It refines a plain cursor over the
  blocks end to end, empty blocks included.  A table walks its data blocks with it, and a deeper level its
  files (db/version_set.cc).
*/
module TwoLevelIterators {
  import opened InternalKeys
  import opened Cursors
  import opened Versions
  import CompactionWork

  /** A row of the index: a key not below its block, and what the block is opened by. */
  datatype Row<H> = Row(key: InternalKey, handle: H)

  /** What the block function opens. */
  type Opener<!H> = map<H, seq<Entry>>

  // ---------------------------------------------------------------- blocks end to end

  function Block<H>(rows: seq<Row<H>>, open: Opener<H>, i: nat): seq<Entry>
    requires i < |rows| && rows[i].handle in open
  {
    open[rows[i].handle]
  }

  ghost predicate Opens<H>(rows: seq<Row<H>>, open: Opener<H>) {
    forall i | 0 <= i < |rows| :: rows[i].handle in open
  }

  /** The entries of the first `n` blocks. */
  ghost function EndToEnd<H>(rows: seq<Row<H>>, open: Opener<H>, n: nat): seq<Entry>
    requires Opens(rows, open) && n <= |rows|
  {
    if n == 0 then [] else EndToEnd(rows, open, n - 1) + Block(rows, open, n - 1)
  }

  /** The rows are in order, each block's entries are in order and not above its key, and all later entries
      are above it. */
  ghost predicate Indexed<H>(rows: seq<Row<H>>, open: Opener<H>) {
    && Opens(rows, open)
    && (forall i, j | 0 <= i < j < |rows| :: Before(rows[i].key, rows[j].key))
    && (forall i | 0 <= i < |rows| :: Sorted(Block(rows, open, i)))
    && (forall i, e | 0 <= i < |rows| && e in Block(rows, open, i) :: !Before(rows[i].key, e.key))
    && (forall i, j, e | 0 <= i < j < |rows| && e in Block(rows, open, j) :: Before(rows[i].key, e.key))
  }

  lemma {:induction false} AllGrows<H>(rows: seq<Row<H>>, open: Opener<H>, m: nat, n: nat)
    requires Opens(rows, open) && m <= n <= |rows|
    ensures |EndToEnd(rows, open, m)| <= |EndToEnd(rows, open, n)| && EndToEnd(rows, open, n)[..|EndToEnd(rows, open, m)|] == EndToEnd(rows, open, m)
    decreases n
  {
    if m < n {
      AllGrows(rows, open, m, n - 1);
    }
  }

  /** Where an entry of a block is in the whole. */
  lemma AllAt<H>(rows: seq<Row<H>>, open: Opener<H>, i: nat, k: nat)
    requires Opens(rows, open) && i < |rows| && k < |Block(rows, open, i)|
    ensures |EndToEnd(rows, open, i)| + k < |EndToEnd(rows, open, |rows|)|
    ensures EndToEnd(rows, open, |rows|)[|EndToEnd(rows, open, i)| + k] == Block(rows, open, i)[k]
  {
    AllGrows(rows, open, i + 1, |rows|);
    assert EndToEnd(rows, open, i + 1)[|EndToEnd(rows, open, i)| + k] == Block(rows, open, i)[k];
  }

  lemma {:induction false} MemberOfAll<H>(rows: seq<Row<H>>, open: Opener<H>, n: nat, e: Entry) returns (i: nat)
    requires Opens(rows, open) && n <= |rows| && e in EndToEnd(rows, open, n)
    ensures i < n && e in Block(rows, open, i)
    decreases n
  {
    if e in EndToEnd(rows, open, n - 1) {
      i := MemberOfAll(rows, open, n - 1, e);
    } else {
      i := n - 1;
    }
  }

  lemma {:induction false} AllSorted<H>(rows: seq<Row<H>>, open: Opener<H>, n: nat)
    requires Indexed(rows, open) && n <= |rows|
    ensures Sorted(EndToEnd(rows, open, n))
    decreases n
  {
    hide Sorted, Before;
    if n > 0 {
      AllSorted(rows, open, n - 1);
      forall x, y | x in EndToEnd(rows, open, n - 1) && y in Block(rows, open, n - 1)
        ensures Before(x.key, y.key)
      {
        var i := MemberOfAll(rows, open, n - 1, x);
        NotAboveBelow(x.key, rows[i].key, y.key);
      }
      SortedConcat(EndToEnd(rows, open, n - 1), Block(rows, open, n - 1));
    } else {
      EmptySorted();
    }
  }

  lemma NotAboveBelow(a: InternalKey, b: InternalKey, c: InternalKey)
    requires !Before(b, a) && Before(b, c)
    ensures Before(a, c)
  {
  }

  // ---------------------------------------------------------------- the index

  class RowIterator<H> {
    const rows: seq<Row<H>>
    var pos: nat

    constructor (rs: seq<Row<H>>)
      ensures rows == rs && pos == |rs|
    {
      rows := rs;
      pos := |rs|;
    }

    predicate Valid()
      reads this
    {
      pos < |rows|
    }

    method SeekToFirst()
      modifies this
      ensures pos == 0
    {
      pos := 0;
    }

    method SeekToLast()
      modifies this
      ensures pos == Last(|rows|)
    {
      pos := if |rows| == 0 then 0 else |rows| - 1;
    }

    /** By binary search, as FindFile does */
    method Seek(target: InternalKey)
      requires forall i, j | 0 <= i < j < |rows| :: Before(rows[i].key, rows[j].key)
      modifies this
      ensures pos <= |rows| && (forall i | 0 <= i < pos :: Before(rows[i].key, target))
      ensures pos < |rows| ==> !Before(rows[pos].key, target)
    {
      var left, right := 0, |rows|;
      while left < right
        invariant left <= right <= |rows|
        invariant forall i | 0 <= i < left :: Before(rows[i].key, target)
        invariant right < |rows| ==> !Before(rows[right].key, target)
      {
        var mid := (left + right) / 2;
        if Before(rows[mid].key, target) {
          forall i | 0 <= i < mid
            ensures Before(rows[i].key, target)
          {
            assert Before(rows[i].key, rows[mid].key);
          }
          left := mid + 1;
        } else {
          right := mid;
        }
      }
      pos := right;
    }

    method Next()
      requires Valid()
      modifies this
      ensures pos == old(pos) + 1
    {
      pos := pos + 1;
    }

    method Prev()
      requires Valid()
      modifies this
      ensures pos == Backward(|rows|, old(pos))
    {
      pos := if pos == 0 then |rows| else pos - 1;
    }
  }

  /** A seek goes to the first row not below the target, and is done in that row's block. */
  lemma SeekSplits<H>(rows: seq<Row<H>>, open: Opener<H>, target: InternalKey, i: nat)
    requires Indexed(rows, open) && i <= |rows|
    requires forall j | 0 <= j < i :: Before(rows[j].key, target)
    requires i < |rows| ==> !Before(rows[i].key, target)
    ensures LowerBound(EndToEnd(rows, open, |rows|), target) ==
            |EndToEnd(rows, open, i)| + (if i < |rows| then LowerBound(Block(rows, open, i), target) else 0)
  {
    hide Before, Sorted, Indexed;
    IndexedOpens(rows, open);
    var all := EndToEnd(rows, open, |rows|);
    var r := |EndToEnd(rows, open, i)| + if i < |rows| then LowerBound(Block(rows, open, i), target) else 0;
    AllGrows(rows, open, i, |rows|);
    AllSorted(rows, open, |rows|);
    if i < |rows| {
      AllGrows(rows, open, i + 1, |rows|);
    }
    if r > 0 {
      IsBelow(rows, open, target, i, r - 1);
    }
    if r < |all| {
      SeekNotBelow(rows, open, target, i, r);
    }
    LowerBoundIs(all, target, r);
  }

  lemma IndexedOpens<H>(rows: seq<Row<H>>, open: Opener<H>)
    requires Indexed(rows, open)
    ensures Opens(rows, open) && forall i, j | 0 <= i < j < |rows| :: Before(rows[i].key, rows[j].key)
  {
  }

  lemma IsBelow<H>(rows: seq<Row<H>>, open: Opener<H>, target: InternalKey, i: nat, k: nat)
    requires Indexed(rows, open) && i <= |rows|
    requires forall j | 0 <= j < i :: Before(rows[j].key, target)
    requires k < |EndToEnd(rows, open, i)| + (if i < |rows| then LowerBound(Block(rows, open, i), target) else 0)
    ensures k < |EndToEnd(rows, open, |rows|)| && Before(EndToEnd(rows, open, |rows|)[k].key, target)
  {
    hide Before, Sorted;
    var start := |EndToEnd(rows, open, i)|;
    AllGrows(rows, open, i, |rows|);
    if k < start {
      assert EndToEnd(rows, open, |rows|)[k] == EndToEnd(rows, open, i)[k];
      var j := MemberOfAll(rows, open, i, EndToEnd(rows, open, i)[k]);
      NotAboveBelow(EndToEnd(rows, open, i)[k].key, rows[j].key, target);
    } else {
      AllAt(rows, open, i, k - start);
    }
  }

  lemma AboveNotBelow(a: InternalKey, b: InternalKey, target: InternalKey)
    requires Before(a, b) && !Before(a, target)
    ensures !Before(b, target)
  {
  }

  lemma SeekNotBelow<H>(rows: seq<Row<H>>, open: Opener<H>, target: InternalKey, i: nat, r: nat)
    requires Indexed(rows, open) && i < |rows| && !Before(rows[i].key, target)
    requires r == |EndToEnd(rows, open, i)| + LowerBound(Block(rows, open, i), target) < |EndToEnd(rows, open, |rows|)|
    ensures !Before(EndToEnd(rows, open, |rows|)[r].key, target)
  {
    hide Sorted, Before, Indexed;
    IndexedOpens(rows, open);
    if r < |EndToEnd(rows, open, i)| + |Block(rows, open, i)| {
      AllAt(rows, open, i, r - |EndToEnd(rows, open, i)|);
    } else {
      LaterAbove(rows, open, i, r);
      AboveNotBelow(rows[i].key, EndToEnd(rows, open, |rows|)[r].key, target);
    }
  }

  lemma LaterAbove<H>(rows: seq<Row<H>>, open: Opener<H>, i: nat, r: nat)
    requires Indexed(rows, open) && i < |rows|
    requires |EndToEnd(rows, open, i)| + |Block(rows, open, i)| <= r < |EndToEnd(rows, open, |rows|)|
    ensures Before(rows[i].key, EndToEnd(rows, open, |rows|)[r].key)
  {
    hide Sorted, Before;
    var j := LaterEntry(rows, open, i + 1, |rows|, r);
  }

  /** An entry past the first `m` blocks is in a later one. */
  lemma {:induction false} LaterEntry<H>(rows: seq<Row<H>>, open: Opener<H>, m: nat, n: nat, r: nat) returns (j: nat)
    requires Opens(rows, open) && m <= n <= |rows| && |EndToEnd(rows, open, m)| <= r < |EndToEnd(rows, open, n)|
    ensures m <= j < n && EndToEnd(rows, open, n)[r] in Block(rows, open, j)
    decreases n
  {
    if r < |EndToEnd(rows, open, n - 1)| {
      j := LaterEntry(rows, open, m, n - 1, r);
    } else {
      j := n - 1;
      assert EndToEnd(rows, open, n)[r] == Block(rows, open, n - 1)[r - |EndToEnd(rows, open, n - 1)|];
    }
  }

  // ---------------------------------------------------------------- the iterator

  class TwoLevelIterator<H(==)> {
    const index: RowIterator<H>
    const open: Opener<H>
    var data: InternalIterator?
    var handle: H
    ghost var at: nat

    ghost function Whole(): seq<Entry>
      requires Opens(index.rows, open)
    {
      EndToEnd(index.rows, open, |index.rows|)
    }

    /** A block is open just when the index stands at a row, and it is that row's. */
    ghost predicate Placed()
      reads this, index, data
    {
      && Indexed(index.rows, open) && index.pos <= |index.rows|
      && (data == null <==> index.pos == |index.rows|)
      && (data != null ==> handle == index.rows[index.pos].handle && data.entries == open[handle] && data.pos <= |data.entries|)
    }

    ghost predicate Inv()
      reads this, index, data
    {
      && Placed() && (data != null ==> data.pos < |data.entries|)
      && at == Point()
    }

    /** The position in the whole, when a block that was walked to its end counts as passed. */
    ghost function Point(): nat
      requires Placed()
      reads this, index, data
    {
      if data == null then |Whole()| else |EndToEnd(index.rows, open, index.pos)| + data.pos
    }

    /** The position in the whole, when a block that is at its end was left at its beginning. */
    ghost function PointBack(): nat
      requires Placed()
      reads this, index, data
    {
      if data == null then |Whole()|
      else
        var start := |EndToEnd(index.rows, open, index.pos)|;
        if data.pos < |data.entries| then start + data.pos else Backward(|Whole()|, start)
    }

    constructor (rows: RowIterator<H>, opener: Opener<H>, none: H)
      requires Indexed(rows.rows, opener) && rows.pos == |rows.rows|
      ensures Inv() && index == rows && open == opener && at == |Whole()| && data == null
    {
      index, open, data, handle := rows, opener, null, none;
      at := |EndToEnd(rows.rows, opener, |rows.rows|)|;
    }

    predicate Valid()
      requires Inv()
      reads this, index, data
      ensures Valid() <==> at < |Whole()|
    {
      assert data != null ==> data.entries == Block(index.rows, open, index.pos);
      if data != null then
        AllAt(index.rows, open, index.pos, data.pos);
        true
      else false
    }

    function Current(): (e: Entry)
      requires Inv() && at < |Whole()|
      reads this, index, data
      ensures e == Whole()[at]
    {
      AllAt(index.rows, open, index.pos, data.pos);
      data.entries[data.pos]
    }

    /** Keeps the block when it is the one already open. */
    method InitDataBlock()
      requires Indexed(index.rows, open) && index.pos <= |index.rows|
      requires data != null ==> handle in open && data.entries == open[handle]
      modifies this`data, this`handle
      ensures (data == null <==> index.pos == |index.rows|) && (data == old(data) || data == null || fresh(data))
      ensures data != null ==> handle == index.rows[index.pos].handle && data.entries == open[handle]
    {
      if !index.Valid() {
        data := null;
      } else {
        var h := index.rows[index.pos].handle;
        if data == null || h != handle {
          data := new InternalIterator(open[h]);
          handle := h;
        }
      }
    }

    method SkipEmptyDataBlocksForward()
      requires Placed()
      modifies this`data, this`handle, index, data
      ensures Placed() && (data == old(data) || data == null || fresh(data))
      ensures (data != null ==> data.pos < |data.entries|) && Point() == old(Point())
    {
      while data == null || !data.Valid()
        invariant Placed() && (data == old(data) || data == null || fresh(data))
        invariant Point() == old(Point())
        decreases |index.rows| - index.pos
      {
        if !index.Valid() {
          data := null;
          return;
        }
        index.Next();
        InitDataBlock();
        if data != null {
          data.SeekToFirst();
        }
      }
    }

    method SkipEmptyDataBlocksBackward()
      requires Placed()
      modifies this`data, this`handle, index, data
      ensures Placed() && (data == old(data) || data == null || fresh(data))
      ensures (data != null ==> data.pos < |data.entries|) && Point() == old(PointBack())
    {
      while data == null || !data.Valid()
        invariant Placed() && (data == old(data) || data == null || fresh(data))
        invariant PointBack() == old(PointBack())
        decreases if data == null then 0 else index.pos + 1
      {
        if !index.Valid() {
          data := null;
          return;
        }
        AllGrows(index.rows, open, index.pos, |index.rows|);
        index.Prev();
        InitDataBlock();
        if data != null {
          data.SeekToLast();
        }
      }
    }

    method Seek(target: InternalKey)
      requires Inv()
      modifies this, index, data
      ensures Inv() && at == LowerBound(Whole(), target)
      ensures data == old(data) || data == null || fresh(data)
    {
      hide Before, Sorted, LowerBound, Indexed;
      IndexedOpens(index.rows, open);
      SeekBlock(target);
      SkipEmptyDataBlocksForward();
      at := Point();
    }

    /** To the block that the index finds, and to the place in it. */
    method SeekBlock(target: InternalKey)
      requires Inv() && forall i, j | 0 <= i < j < |index.rows| :: Before(index.rows[i].key, index.rows[j].key)
      modifies this`data, this`handle, index, data
      ensures Placed() && Point() == LowerBound(Whole(), target)
      ensures data == old(data) || data == null || fresh(data)
    {
      hide Before, Sorted, LowerBound, Indexed;
      IndexedOpens(index.rows, open);
      index.Seek(target);
      InitDataBlock();
      if data != null {
        data.Seek(target);
      }
      SeekSplits(index.rows, open, target, index.pos);
    }

    method SeekToFirst()
      requires Inv()
      modifies this, index, data
      ensures Inv() && at == 0
      ensures data == old(data) || data == null || fresh(data)
    {
      index.SeekToFirst();
      InitDataBlock();
      if data != null {
        data.SeekToFirst();
      }
      SkipEmptyDataBlocksForward();
      at := Point();
    }

    method SeekToLast()
      requires Inv()
      modifies this, index, data
      ensures Inv() && at == Last(|Whole()|)
      ensures data == old(data) || data == null || fresh(data)
    {
      index.SeekToLast();
      InitDataBlock();
      if data != null {
        data.SeekToLast();
      }
      SkipEmptyDataBlocksBackward();
      at := Point();
    }

    method Next()
      requires Inv() && Valid()
      modifies this, index, data
      ensures Inv() && at == Forward(old(at))
      ensures data == old(data) || data == null || fresh(data)
    {
      data.Next();
      SkipEmptyDataBlocksForward();
      at := Point();
    }

    method Prev()
      requires Inv() && Valid()
      modifies this, index, data
      ensures Inv() && at == Backward(|Whole()|, old(at))
      ensures data == old(data) || data == null || fresh(data)
    {
      data.Prev();
      SkipEmptyDataBlocksBackward();
      at := Point();
    }
  }

  // ---------------------------------------------------------------- the files of a level

  /** NewConcatenatingIterator: the entries of a deeper level, file after file. */
  function Concatenation(fs: seq<File>): seq<Entry> {
    if fs == [] then [] else Concatenation(fs[..|fs| - 1]) + fs[|fs| - 1].entries
  }

  lemma {:induction false} ConcatenationHolds(fs: seq<File>)
    ensures ToSet(Concatenation(fs)) == Contents(fs)
    decreases |fs|
  {
    if fs != [] {
      var init, f := fs[..|fs| - 1], fs[|fs| - 1];
      ConcatenationHolds(init);
      assert fs == init + [f];
      CompactionWork.ContentsAppend(init, f);
    }
  }

  lemma FileBeforeFile(g: File, f: File, x: Entry, y: Entry)
    requires g.Valid() && f.Valid() && x in g.entries && y in f.entries && Before(g.largest, f.smallest)
    ensures Before(x.key, y.key)
  {
    EntryInRange(g, x);
    EntryInRange(f, y);
  }

  lemma {:induction false} ConcatenationSorted(fs: seq<File>)
    requires ValidFiles(fs) && SortedLevel(fs)
    ensures Sorted(Concatenation(fs))
    decreases |fs|
  {
    if fs != [] {
      var init, f := fs[..|fs| - 1], fs[|fs| - 1];
      FrontFiles(fs);
      ConcatenationSorted(init);
      hide Sorted, Before, ValidFiles, SortedLevel;
      forall x, y | x in Concatenation(init) && y in f.entries ensures Before(x.key, y.key) {
        EarlierFile(fs, x, y);
      }
      SortedConcat(Concatenation(init), f.entries);
    }
  }

  lemma FrontFiles(fs: seq<File>)
    requires fs != [] && ValidFiles(fs) && SortedLevel(fs)
    ensures ValidFiles(fs[..|fs| - 1]) && SortedLevel(fs[..|fs| - 1]) && Sorted(fs[|fs| - 1].entries)
  {
    hide Sorted, Before;
    assert fs[|fs| - 1] in fs && fs[|fs| - 1].Valid();
    hide FileMetaData.Valid;
    var init := fs[..|fs| - 1];
    assert forall f | f in init :: f in fs;
    assert forall i | 0 <= i < |init| :: init[i] == fs[i];
  }

  /** Entries of earlier files come before those of the last. */
  lemma EarlierFile(fs: seq<File>, x: Entry, y: Entry)
    requires fs != [] && ValidFiles(fs) && SortedLevel(fs)
    requires x in Concatenation(fs[..|fs| - 1]) && y in fs[|fs| - 1].entries
    ensures Before(x.key, y.key)
  {
    hide Before, FileMetaData.Valid, Concatenation;
    var init, f := fs[..|fs| - 1], fs[|fs| - 1];
    ConcatenationHolds(init);
    assert x in ToSet(Concatenation(init));
    var g :| g in init && x in g.entries;
    var i :| 0 <= i < |init| && init[i] == g;
    assert fs[i] == g && g in fs && f in fs;
    FileBeforeFile(g, f, x, y);
  }

  /** LevelFileNumIterator: a file's largest key, and its number. */
  function FileRows(fs: seq<File>): (rows: seq<Row<nat>>)
    ensures |rows| == |fs| && forall i | 0 <= i < |fs| :: rows[i] == Row(fs[i].largest, fs[i].number)
  {
    if fs == [] then [] else FileRows(fs[..|fs| - 1]) + [Row(fs[|fs| - 1].largest, fs[|fs| - 1].number)]
  }

  ghost predicate OpensFiles(fs: seq<File>, open: Opener<nat>) {
    forall i | 0 <= i < |fs| :: fs[i].number in open && open[fs[i].number] == fs[i].entries
  }

  /** The table cache: a file by its number. */
  function OpenFiles(fs: seq<File>): Opener<nat> {
    if fs == [] then map[] else OpenFiles(fs[..|fs| - 1])[fs[|fs| - 1].number := fs[|fs| - 1].entries]
  }

  lemma {:induction false} OpenFilesOpens(fs: seq<File>)
    requires DistinctNumbers(fs)
    ensures OpensFiles(fs, OpenFiles(fs))
  {
    if fs != [] {
      var init := fs[..|fs| - 1];
      OpenFilesOpens(init);
      assert forall i | 0 <= i < |init| :: init[i] == fs[i];
    }
  }

  lemma {:induction false} FilesEndToEnd(fs: seq<File>, open: Opener<nat>, n: nat)
    requires n <= |fs| && OpensFiles(fs, open)
    ensures EndToEnd(FileRows(fs), open, n) == Concatenation(fs[..n])
    decreases n
  {
    if n > 0 {
      FilesEndToEnd(fs, open, n - 1);
      assert fs[..n][..n - 1] == fs[..n - 1];
    }
  }

  /** Version::NewConcatenatingIterator: over a sorted level, the two-level iterator walks its files end to end. */
  lemma ConcatenatingLevel(fs: seq<File>, open: Opener<nat>)
    requires ValidFiles(fs) && SortedLevel(fs) && OpensFiles(fs, open)
    ensures Indexed(FileRows(fs), open)
    ensures EndToEnd(FileRows(fs), open, |fs|) == Concatenation(fs)
  {
    FilesEndToEnd(fs, open, |fs|);
    assert fs[..|fs|] == fs;
    hide Sorted, Before;
    var rows := FileRows(fs);
    forall i | 0 <= i < |fs|
      ensures Sorted(Block(rows, open, i)) && forall e | e in Block(rows, open, i) :: !Before(rows[i].key, e.key)
    {
      FileInRange(fs, i);
    }
    forall i, j, e | 0 <= i < j < |fs| && e in Block(rows, open, j)
      ensures Before(rows[i].key, e.key)
    {
      FileInRange(fs, j);
      BelowNotBelow(fs[i].largest, fs[j].smallest, e.key);
    }
    forall i, j | 0 <= i < j < |fs|
      ensures Before(rows[i].key, rows[j].key)
    {
      FileInRange(fs, j);
      BelowNotBelow(fs[i].largest, fs[j].smallest, fs[j].largest);
    }
  }

  lemma BelowNotBelow(a: InternalKey, b: InternalKey, c: InternalKey)
    requires Before(a, b) && !Before(c, b)
    ensures Before(a, c)
  {
  }

  lemma FileInRange(fs: seq<File>, i: nat)
    requires ValidFiles(fs) && i < |fs|
    ensures Sorted(fs[i].entries) && !Before(fs[i].largest, fs[i].smallest)
    ensures forall e | e in fs[i].entries :: !Before(fs[i].largest, e.key) && !Before(e.key, fs[i].smallest)
  {
    assert fs[i] in fs;
    forall e | e in fs[i].entries
      ensures !Before(fs[i].largest, e.key) && !Before(e.key, fs[i].smallest)
    {
      EntryInRange(fs[i], e);
    }
  }
}
