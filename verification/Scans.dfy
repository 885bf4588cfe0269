/**
  Scanning the database: the children an iterator merges (DBImpl::NewInternalIterator and
  Version::AddIterators) hold exactly what the database holds, so the list a client walks is the list of
  keys and values in the plain history.
*/
module Scans {
  import opened InternalKeys
  import opened Versions
  import opened Cursors
  import opened DbIterators
  import opened Mergers
  import opened IteratorWrappers
  import opened TwoLevelIterators
  import opened Installing
  import opened Database

  ghost function Held(children: Children): set<Entry> {
    set i, e | 0 <= i < |children| && e in children[i] :: e
  }

  ghost predicate SetsApart(a: set<Entry>, b: set<Entry>) {
    forall x, y | x in a && y in b :: x.key != y.key
  }

  lemma NewerMeansApart(a: set<Entry>, b: set<Entry>)
    requires Newer(a, b)
    ensures SetsApart(a, b)
  {
  }

  /** One more child, apart from all before it. */
  lemma AddChild(children: Children, es: seq<Entry>)
    requires ChildrenOk(children) && Sorted(es) && SetsApart(Held(children), ToSet(es))
    ensures ChildrenOk(children + [es]) && Held(children + [es]) == Held(children) + ToSet(es)
  {
    var all := children + [es];
    hide Sorted;
    forall i, j | 0 <= i < j < |all| ensures KeysApart(all[i], all[j]) {
      if j == |children| {
        assert forall x | x in children[i] :: x in Held(children);
        assert forall y | y in es :: y in ToSet(es);
      }
    }
    forall e | e in Held(children) + ToSet(es) ensures e in Held(all) {
      if e in Held(children) {
        var i :| 0 <= i < |children| && e in children[i];
        assert e in all[i];
      } else {
        assert e in all[|children|];
      }
    }
  }

  lemma NoChildren()
    ensures ChildrenOk([]) && Held([]) == {}
  {
  }

  lemma UnionHolds(children: Children)
    ensures ToSet(Union(children)) == Held(children)
  {
    forall e ensures e in ToSet(Union(children)) <==> e in Held(children) {
      UnionElements(children, e);
    }
  }

  // ---------------------------------------------------------------- the children of a database iterator

  /** Version contents at levels `lo` and deeper. */
  ghost function Levels(v: Version, lo: nat, hi: nat): set<Entry>
    requires hi <= NUM_LEVELS
  {
    set l, e | lo <= l < hi && e in Contents(v[l]) :: e
  }

  lemma NextLevelOf(v: Version, l: nat)
    requires l < NUM_LEVELS
    ensures Levels(v, 0, l + 1) == Levels(v, 0, l) + Contents(v[l])
  {
  }

  lemma LevelApart(v: Version, M: set<Entry>, l: nat)
    requires ValidVersion(v) && l < NUM_LEVELS && Newer(M, VersionContents(v))
    ensures SetsApart(M + Levels(v, 0, l), Contents(v[l]))
  {
    var V := VersionContents(v);
    assert forall y | y in Contents(v[l]) :: y in V;
    assert forall m | 0 <= m < l :: Newer(Contents(v[m]), Contents(v[l]));
    hide ValidVersion, VersionContents, Contents, Newer;
    forall x, y | x in M + Levels(v, 0, l) && y in Contents(v[l]) ensures x.key != y.key {
      if x in M {
        NewerMeansApart(M, V);
      } else {
        var m :| 0 <= m < l && x in Contents(v[m]);
        NewerMeansApart(Contents(v[m]), Contents(v[l]));
      }
    }
  }

  lemma LevelZeroFileApart(v: Version, M: set<Entry>, i: nat)
    requires ValidVersion(v) && i < |v[0]| && Newer(M, VersionContents(v))
    ensures SetsApart(M + Contents(v[0][..i]), ToSet(v[0][i].entries))
  {
    var f := v[0][i];
    hide Newer;
    forall x, y | x in M + Contents(v[0][..i]) && y in f.entries ensures x.key != y.key {
      VersionMember(v, 0, f, y);
      if x in M {
        NewerMeansApart(M, VersionContents(v));
      } else {
        var g :| g in v[0][..i] && x in g.entries;
        var j :| 0 <= j < i && v[0][j] == g;
        LevelZeroApart(v[0], g, f, x, y);
      }
    }
  }

  // ---------------------------------------------------------------- the child iterators themselves

  /** One more child, made of nothing that the others are made of. */
  lemma KeepOneMore(children: seq<IteratorWrapper>, lists: Children, R: set<object>, child: IteratorWrapper)
    requires Kept(children, lists, Ends(lists), R)
    requires child.Inv() && child.pos == |child.entries| && child.Repr !! R
    ensures Kept(children + [child], lists + [child.entries], Ends(lists + [child.entries]), R + child.Repr)
  {
    hide IteratorWrapper.Inv;
    var all, ls, Q := children + [child], lists + [child.entries], R + child.Repr;
    var pos := Ends(ls);
    assert child in child.Repr by { InItself(child); }
    forall i | 0 <= i < |all| ensures KeptAt(all[i], ls[i], pos[i], Q) {
      if i < |children| {
        assert KeptAt(children[i], lists[i], Ends(lists)[i], R);
      }
    }
    forall i, j | 0 <= i < j < |all| ensures all[i] in Q && all[j] in Q && all[i].Repr !! all[j].Repr {
      assert KeptAt(children[i], lists[i], Ends(lists)[i], R);
      if j < |children| {
        assert children[i] in R && children[j] in R && children[i].Repr !! children[j].Repr;
      }
    }
  }

  lemma InItself(child: IteratorWrapper)
    requires child.Inv()
    ensures child in child.Repr
  {
  }

  /** A table's iterator. */
  method ListChild(es: seq<Entry>) returns (child: IteratorWrapper)
    ensures child.Inv() && child.entries == es && child.pos == |es| && fresh(child.Repr)
  {
    var list := new InternalIterator(es);
    child := new IteratorWrapper.OverList(list);
  }

  /** NewConcatenatingIterator: the two-level iterator over the files of a level. */
  method LevelChild(fs: seq<File>) returns (child: IteratorWrapper)
    requires ValidFiles(fs) && SortedLevel(fs) && DistinctNumbers(fs)
    ensures child.Inv() && child.entries == Concatenation(fs) && child.pos == |child.entries| && fresh(child.Repr)
  {
    OpenFilesOpens(fs);
    ConcatenatingLevel(fs, OpenFiles(fs));
    var index := new RowIterator(FileRows(fs));
    var files := new TwoLevelIterator(index, OpenFiles(fs), 0);
    child := new IteratorWrapper.OverFiles(files);
  }

  /** Version::AddIterators: one child for each file of level 0, one for each deeper level with files. */
  method AddIterators(v: Version, list: seq<IteratorWrapper>, ghost ls: Children, ghost Q: set<object>, ghost M: set<Entry>)
    returns (children: seq<IteratorWrapper>, ghost lists: Children, ghost R: set<object>)
    requires ValidVersion(v) && ChildrenOk(ls) && Held(ls) == M && Newer(M, VersionContents(v)) && Kept(list, ls, Ends(ls), Q)
    ensures ChildrenOk(lists) && Held(lists) == M + VersionContents(v)
    ensures Kept(children, lists, Ends(lists), R) && fresh(R - Q)
  {
    hide Newer, Sorted, SortedLevel, NumberedByAge, DistinctNumbers, Unique, ChildrenOk, Held, FileMetaData.Valid, Contents, SetsApart, Kept, IteratorWrapper.Inv;
    children, lists, R := list, ls, Q;
    assert v[0][..0] == [] && M + {} == M;
    EmptyLevel();
    for i := 0 to |v[0]|
      invariant ChildrenOk(lists) && Held(lists) == M + Contents(v[0][..i])
      invariant Kept(children, lists, Ends(lists), R) && fresh(R - Q)
    {
      LevelZeroFileApart(v, M, i);
      FileIsSorted(v[0], v[0][i]);
      AddChild(lists, v[0][i].entries);
      var child := ListChild(v[0][i].entries);
      KeepOneMore(children, lists, R, child);
      children, lists, R := children + [child], lists + [v[0][i].entries], R + child.Repr;
      assert v[0][..i + 1] == v[0][..i] + [v[0][i]];
      CompactionWork.ContentsAppend(v[0][..i], v[0][i]);
    }
    assert v[0][..|v[0]|] == v[0];
    assert Levels(v, 0, 1) == Contents(v[0]);
    for l := 1 to NUM_LEVELS
      invariant ChildrenOk(lists) && Held(lists) == M + Levels(v, 0, l)
      invariant Kept(children, lists, Ends(lists), R) && fresh(R - Q)
    {
      NextLevelOf(v, l);
      if v[l] != [] {
        LevelApart(v, M, l);
        ConcatenationSorted(v[l]);
        ConcatenationHolds(v[l]);
        AddChild(lists, Concatenation(v[l]));
        var child := LevelChild(v[l]);
        KeepOneMore(children, lists, R, child);
        children, lists, R := children + [child], lists + [Concatenation(v[l])], R + child.Repr;
      }
    }
    assert Levels(v, 0, NUM_LEVELS) == VersionContents(v);
  }

  lemma FileIsSorted(fs: seq<File>, f: File)
    requires ValidFiles(fs) && f in fs
    ensures Sorted(f.entries)
  {
  }

  /** DBImpl::NewInternalIterator: the merge of the memtables' iterators and the tables'. */
  method NewInternalIterator(mem: seq<Entry>, imm: Option<seq<Entry>>, v: Version) returns (internal: MergingIterator)
    requires ValidVersion(v) && Layered(mem, imm, v)
    ensures internal.Inv() && fresh(internal) && fresh(internal.Repr)
    ensures ToSet(internal.all) == All(mem, imm, v)
  {
    hide ValidVersion, Sorted, Newer, ChildrenOk, Held, ToSet, VersionContents, Kept, IteratorWrapper.Inv, MergingIterator.Inv;
    NoChildren();
    NothingIsNewer(ToSet(mem));
    NewerMeansApart({}, ToSet(mem));
    AddChild([], mem);
    assert [] + [mem] == [mem];
    var child := ListChild(mem);
    NothingKept();
    KeepOneMore([], [], {}, child);
    var list := [child];
    ghost var ls, Q := [mem], child.Repr;
    assert [] + [child] == [child] && {} + child.Repr == child.Repr;
    if imm.Some? {
      NewerMeansApart(ToSet(mem), ToSet(imm.value));
      assert {} + ToSet(mem) == ToSet(mem);
      AddChild(ls, imm.value);
      child := ListChild(imm.value);
      KeepOneMore(list, ls, Q, child);
      list, ls, Q := list + [child], ls + [imm.value], Q + child.Repr;
    }
    assert Held(ls) == ToSet(mem) + ImmSet(imm);
    ghost var lists, R;
    list, lists, R := AddIterators(v, list, ls, Q, ToSet(mem) + ImmSet(imm));
    UnionHolds(lists);
    internal := new MergingIterator(list, R, lists);
  }

  lemma NothingKept()
    ensures Kept([], [], Ends([]), {})
  {
  }

  /** A list with everything the database holds shows at `s` what the history shows. */
  lemma ScanSeesHistory(es: seq<Entry>, H: set<Entry>, last: nat, floor: nat, s: nat, k: UserKey, x: Bytes)
    requires Sorted(es) && Faithful(H, ToSet(es), last, floor) && floor <= s
    ensures (k, x) in View(es, s) <==> Read(H, k, s) == Some(x)
  {
    UniqueSubset(ToSet(es), H);
    hide Unique, Sorted, ToSet;
    ViewIsReads(es, s, k, x);
    assert Read(ToSet(es), k, s) == Read(H, k, s);
  }

  /**
    DBImpl::NewIterator, at a live snapshot or at the last write: a cursor over the live keys and values of
    the plain history, in key order.  It walks a merge of the memtables, the tables of level 0 and, level by
    level, the two-level iterators over the tables of the deeper levels.
  */
  method NewIterator(db: DbImpl, snapshot: Option<nat>) returns (it: DBIter)
    requires db.Valid() && (snapshot.Some? ==> snapshot.value in db.snapshots)
    ensures it.Inv() && fresh(it) && fresh(it.iter) && fresh(it.iter.Repr) && it.at == |it.Keys()|
    ensures it.sequence == if snapshot.Some? then snapshot.value else db.lastSequence
    ensures forall i, j | 0 <= i < j < |it.Keys()| :: it.Keys()[i].0 < it.Keys()[j].0
    ensures forall k, x :: (k, x) in it.Keys() <==> Read(db.history, k, it.sequence) == Some(x)
  {
    hide OrderedVersion, NumbersBelow, NumbersIdentify, WorkOk, ValidVersion, VersionContents, Sorted, Newer, View, MergingIterator.Inv;
    var s := if snapshot.Some? then snapshot.value else db.lastSequence;
    ghost var all := All(db.mem, db.imm, db.current);
    FloorBelow(db.history, all, db.lastSequence, db.floor);
    hide Faithful, Layered, All, On;
    var internal := NewInternalIterator(db.mem, db.imm, db.current);
    WalksUnion(internal);
    it := new DBIter(internal, s);
    KeysIncrease(it.iter.all, s);
    forall k, x ensures (k, x) in it.Keys() <==> Read(db.history, k, s) == Some(x) {
      ScanSeesHistory(it.iter.all, db.history, db.lastSequence, db.floor, s, k, x);
    }
  }
}
