/**
  Which versions Version::Get reads right (Version::Get in db/version_set.cc).  The search trusts that
  level 0 is numbered by age, that deeper levels are sorted and that newer data never lies below older
  data.  Each of these is not only enough but needed.
*/
module Searches {
  import opened InternalKeys
  import opened Versions
  import opened VersionEdits

  /** Every entry lies in one file of one level. */
  ghost predicate OneCopy(v: Version) {
    forall l, m, f, g, e | 0 <= l < NUM_LEVELS && 0 <= m < NUM_LEVELS && f in v[l] && g in v[m] && e in f.entries && e in g.entries ::
      l == m && f == g
  }

  /** Good files, in the order the builder keeps; nothing is said of how their ranges or their ages relate. */
  ghost predicate WellFormed(v: Version) {
    && (forall l | 0 <= l < NUM_LEVELS :: ValidFiles(v[l]) && DistinctNumbers(v[l]))
    && (forall l | 1 <= l < NUM_LEVELS :: OrderedFiles(v[l]))
    && OneCopy(v)
    && Unique(VersionContents(v))
  }

  ghost predicate SearchesRight(v: Version) {
    forall k, s: nat :: Search(v, k, s) == Newest(VersionContents(v), k, s)
  }

  // ---------------------------------------------------------------- where a hit comes from

  lemma {:induction false} SearchFromSource(v: Version, from: nat, k: UserKey, s: nat) returns (l: nat)
    requires from <= NUM_LEVELS && SearchFrom(v, from, k, s).Some?
    ensures from <= l < NUM_LEVELS && Lookup(v, l, k, s) == SearchFrom(v, from, k, s)
    ensures forall m | from <= m < l :: Lookup(v, m, k, s) == None
    decreases NUM_LEVELS - from
  {
    hide Lookup;
    if Lookup(v, from, k, s).Some? {
      l := from;
    } else {
      l := SearchFromSource(v, from + 1, k, s);
    }
  }

  lemma SeekGetFinds(es: seq<Entry>, k: UserKey, s: nat)
    ensures SeekGet(es, k, s).Some? ==> SeekGet(es, k, s).value in es
  {
  }

  /** A level's answer is an entry of one of its files. */
  lemma LookupSource(v: Version, l: nat, k: UserKey, s: nat) returns (f: File)
    requires l < NUM_LEVELS && Lookup(v, l, k, s).Some?
    ensures f in v[l] && SeekGet(f.entries, k, s) == Lookup(v, l, k, s) && Lookup(v, l, k, s).value in f.entries
  {
    hide SeekGet, Candidates, BinarySearch;
    if l == 0 {
      var tmp := Candidates(v[0], k);
      CandidatesNewestFirst(v[0], k);
      FirstHitFile(tmp, k, s);
      var i :| 0 <= i < |tmp| && SeekGet(tmp[i].entries, k, s) == Lookup(v, l, k, s);
      f := tmp[i];
      assert f in tmp;
    } else {
      f := v[l][BinarySearch(v[l], SeekKey(k, s), 0, |v[l]|)];
    }
    SeekGetFinds(f.entries, k, s);
  }

  // ---------------------------------------------------------------- what right searches force

  lemma NewestAtItself(S: set<Entry>, e: Entry)
    requires Unique(S) && e in S
    ensures Newest(S, e.key.userKey, e.key.sequence) == Some(e)
  {
    forall x | x in S && Matches(x, e.key.userKey, e.key.sequence) && x != e ensures x.key.sequence < e.key.sequence {
      assert SameUserKey(x, e);
    }
    NewestIs(S, e.key.userKey, e.key.sequence, e);
  }

  lemma InVersion(v: Version, l: nat, f: File, e: Entry)
    requires l < NUM_LEVELS && f in v[l] && e in f.entries
    ensures e in Contents(v[l]) && e in VersionContents(v)
  {
    assert e in Contents(v[l]);
  }

  /** A right search finds every entry at its own sequence, in its own level and in no level above. */
  lemma EntryFound(v: Version, l: nat, f: File, e: Entry)
    requires WellFormed(v) && SearchesRight(v) && l < NUM_LEVELS && f in v[l] && e in f.entries
    ensures Lookup(v, l, e.key.userKey, e.key.sequence) == Some(e)
    ensures forall m | 0 <= m < l :: Lookup(v, m, e.key.userKey, e.key.sequence) == None
  {
    var k, s := e.key.userKey, e.key.sequence;
    hide ValidFiles, DistinctNumbers, OrderedFiles, Unique, Lookup, SearchFrom, SeekGet, VersionContents, Contents;
    InVersion(v, l, f, e);
    NewestAtItself(VersionContents(v), e);
    assert Search(v, k, s) == Some(e);
    var m := SearchFromSource(v, 0, k, s);
    var g := LookupSource(v, m, k, s);
    assert e in g.entries;
  }

  lemma {:induction false} PassedBeforeIndex(files: seq<File>, key: InternalKey, left: nat, right: nat)
    requires left <= right <= |files|
    ensures var r := BinarySearch(files, key, left, right); r > left ==> Before(files[r - 1].largest, key)
    decreases right - left
  {
    hide Before;
    if left < right {
      var mid := (left + right) / 2;
      if Before(files[mid].largest, key) {
        PassedBeforeIndex(files, key, mid + 1, right);
      } else {
        PassedBeforeIndex(files, key, left, mid);
      }
    }
  }

  lemma LandsInFile(fs: seq<File>, k: UserKey, s: nat) returns (index: nat)
    requires LevelLookup(fs, k, s).Some?
    ensures index == BinarySearch(fs, SeekKey(k, s), 0, |fs|) < |fs|
    ensures LevelLookup(fs, k, s).value in fs[index].entries
  {
    hide SeekGet, BinarySearch;
    index := BinarySearch(fs, SeekKey(k, s), 0, |fs|);
    SeekGetFinds(fs[index].entries, k, s);
  }

  /** A binary search that lands on a file has passed the file before it. */
  lemma NeighboursSorted(v: Version, l: nat, i: nat)
    requires WellFormed(v) && SearchesRight(v) && 1 <= l < NUM_LEVELS && i + 1 < |v[l]|
    ensures Before(v[l][i].largest, v[l][i + 1].smallest)
  {
    hide SearchesRight, Sorted, DistinctNumbers, Unique, LevelLookup, LevelZeroLookup, BinarySearch, VersionContents, OrderedFiles, Before;
    var fs := v[l];
    var g := fs[i + 1];
    assert g in fs && g.Valid() && OrderedFiles(fs);
    var e := g.entries[0];
    EntryFound(v, l, g, e);
    var key := SeekKey(e.key.userKey, e.key.sequence);
    var index := LandsInFile(fs, e.key.userKey, e.key.sequence);
    assert fs[index] in fs && fs[index] == g;
    OrderedApart(fs, index, i + 1);
    PassedBeforeIndex(fs, key, 0, |fs|);
    SeekKeyFirst(fs[i].largest, e);
  }

  lemma SeekKeyFirst(a: InternalKey, e: Entry)
    requires Before(a, SeekKey(e.key.userKey, e.key.sequence))
    ensures Before(a, e.key)
  {
  }

  lemma {:induction false} NeighboursMakeSorted(fs: seq<File>, i: nat, j: nat)
    requires ValidFiles(fs) && i < j < |fs|
    requires forall a | 0 <= a < |fs| - 1 :: NextAfter(fs, a)
    ensures Before(fs[i].largest, fs[j].smallest)
    decreases j
  {
    hide FileMetaData.Valid;
    assert NextAfter(fs, j - 1);
    if i < j - 1 {
      NeighboursMakeSorted(fs, i, j - 1);
      assert fs[j - 1] in fs;
      SmallestToLargest(fs[j - 1]);
    }
  }

  predicate NextAfter(fs: seq<File>, a: nat)
    requires a + 1 < |fs|
  {
    Before(fs[a].largest, fs[a + 1].smallest)
  }

  lemma RightMeansSorted(v: Version, l: nat)
    requires WellFormed(v) && SearchesRight(v) && 1 <= l < NUM_LEVELS
    ensures SortedLevel(v[l])
  {
    assert ValidFiles(v[l]);
    hide WellFormed, SearchesRight, ValidFiles;
    forall a | 0 <= a < |v[l]| - 1 ensures NextAfter(v[l], a) {
      NeighboursSorted(v, l, a);
    }
    forall i, j | 0 <= i < j < |v[l]| ensures Before(v[l][i].largest, v[l][j].smallest) {
      NeighboursMakeSorted(v[l], i, j);
    }
  }

  /** If a file with a smaller number is found first, the file with the larger number had no match. */
  lemma LargerNumberMissed(fs: seq<File>, f: File, g: File, x: Entry, k: UserKey, s: nat, y: Entry)
    requires ValidFiles(fs) && Unique(Contents(fs)) && f in fs && g in fs && f.number > g.number
    requires LevelZeroLookup(fs, k, s) == Some(y)
    requires forall h | h in fs && y in h.entries :: h == g
    requires x in f.entries
    ensures !Matches(x, k, s)
  {
    hide SeekGet, Candidates, Unique, Sorted, NewestFirst;
    var tmp := Candidates(fs, k);
    CandidatesNewestFirst(fs, k);
    FirstHitFile(tmp, k, s);
    var i :| 0 <= i < |tmp| && SeekGet(tmp[i].entries, k, s) == Some(y)
             && forall j | 0 <= j < i :: SeekGet(tmp[j].entries, k, s) == None;
    SeekGetFinds(tmp[i].entries, k, s);
    assert tmp[i] in tmp && tmp[i] == g;
    EntryInRange(f, x);
    assert x in ToSet(f.entries);
    if f in tmp {
      LargerNumberIsEarlier(tmp, i, f);
      SearchFile(fs, f, k, s);
    }
  }

  lemma RightMeansNumberedByAge(v: Version)
    requires WellFormed(v) && SearchesRight(v)
    ensures NumberedByAge(v[0])
  {
    hide WellFormed, SearchesRight;
    forall f, g, x, y | f in v[0] && g in v[0] && f.number > g.number && x in f.entries && y in g.entries && SameUserKey(x, y)
      ensures x.key.sequence > y.key.sequence
    {
      LargerNumberNewer(v, f, g, x, y);
    }
  }

  lemma LargerNumberNewer(v: Version, f: File, g: File, x: Entry, y: Entry)
    requires WellFormed(v) && SearchesRight(v) && f in v[0] && g in v[0] && f.number > g.number
    requires x in f.entries && y in g.entries && SameUserKey(x, y)
    ensures x.key.sequence > y.key.sequence
  {
    hide SearchesRight, LevelZeroLookup, LevelLookup, Unique, DistinctNumbers, OrderedFiles, FileMetaData.Valid, Contents, VersionContents;
    EntryFound(v, 0, g, y);
    UniqueLevel(v, 0);
    assert ValidFiles(v[0]);
    LargerNumberMissed(v[0], f, g, x, y.key.userKey, y.key.sequence, y);
  }

  /** A level that answers None has no match, if it is in order itself. */
  lemma NoneMeansNoMatch(v: Version, l: nat, k: UserKey, s: nat)
    requires WellFormed(v) && l < NUM_LEVELS && Lookup(v, l, k, s) == None
    requires l == 0 ==> NumberedByAge(v[0])
    requires l >= 1 ==> SortedLevel(v[l])
    ensures NoMatch(Contents(v[l]), k, s)
  {
    hide LevelZeroLookup, LevelLookup, Unique, DistinctNumbers, ValidFiles, SortedLevel, NumberedByAge, OrderedFiles, OneCopy, Contents, VersionContents;
    UniqueLevel(v, l);
    assert ValidFiles(v[l]) && DistinctNumbers(v[l]);
    if l == 0 {
      LevelZeroLookupIsNewest(v[0], k, s);
    } else {
      LevelLookupIsNewest(v[l], k, s);
    }
  }

  lemma RightMeansLayered(v: Version, l: nat, m: nat)
    requires WellFormed(v) && SearchesRight(v) && l < m < NUM_LEVELS
    requires l == 0 ==> NumberedByAge(v[0])
    requires l >= 1 ==> SortedLevel(v[l])
    ensures Newer(Contents(v[l]), Contents(v[m]))
  {
    hide WellFormed, SearchesRight, SortedLevel, NumberedByAge, Lookup;
    forall x, y | x in Contents(v[l]) && y in Contents(v[m]) && SameUserKey(x, y)
      ensures x.key.sequence > y.key.sequence
    {
      var g :| g in v[m] && y in g.entries;
      hide Contents;
      EntryFound(v, m, g, y);
      NoneMeansNoMatch(v, l, y.key.userKey, y.key.sequence);
    }
  }

  /** Get reads every key right at every sequence if and only if the version is valid. */
  lemma SearchesRightExactly(v: Version)
    requires WellFormed(v)
    ensures SearchesRight(v) <==> ValidVersion(v)
  {
    hide Search, Newest, Newer, Contents, VersionContents, ValidFiles, DistinctNumbers, OrderedFiles, Unique, OneCopy, SortedLevel, NumberedByAge;
    if ValidVersion(v) {
      forall k, s: nat ensures Search(v, k, s) == Newest(VersionContents(v), k, s) {
        SearchIsNewest(v, k, s);
      }
    }
    if SearchesRight(v) {
      hide SearchesRight;
      RightMeansNumberedByAge(v);
      forall l | 1 <= l < NUM_LEVELS ensures SortedLevel(v[l]) {
        RightMeansSorted(v, l);
      }
      forall l, m | 0 <= l < m < NUM_LEVELS ensures Newer(Contents(v[l]), Contents(v[m])) {
        RightMeansLayered(v, l, m);
      }
    }
  }
}
