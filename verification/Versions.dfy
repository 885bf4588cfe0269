/** Versions: seven levels of table files, and the searches over them (db/version_set.cc).

  A file carries the sorted entries of its table.  Level 0 files may overlap and the one with the larger
  number is newer; every deeper level is sorted by internal key.
*/
module Versions {
  import opened InternalKeys

  const NUM_LEVELS := 7
  const MAX_MEM_COMPACT_LEVEL := 2

  datatype FileMetaData = FileMetaData(
    number: nat, fileSize: nat, smallest: InternalKey, largest: InternalKey, entries: seq<Entry>)
  {
    ghost predicate Valid() {
      && entries != []
      && Sorted(entries)
      && smallest == entries[0].key
      && largest == entries[|entries| - 1].key
      && forall e | e in entries :: e.key.sequence <= MAX_SEQUENCE
    }

    predicate Covers(k: UserKey) {
      smallest.userKey <= k <= largest.userKey
    }
  }

  type File = FileMetaData
  type Version = v: seq<seq<File>> | |v| == NUM_LEVELS witness [[], [], [], [], [], [], []]

  const NO_FILES: Version := [[], [], [], [], [], [], []]

  ghost function Contents(fs: seq<File>): set<Entry> {
    set f, e | f in fs && e in f.entries :: e
  }

  ghost function FileSet(fs: seq<File>): set<File> {
    set f | f in fs
  }

  ghost function VersionContents(v: Version): set<Entry> {
    set l, e | 0 <= l < NUM_LEVELS && e in Contents(v[l]) :: e
  }

  ghost predicate ValidFiles(fs: seq<File>) {
    forall f | f in fs :: f.Valid()
  }

  ghost predicate DistinctNumbers(fs: seq<File>) {
    forall i, j | 0 <= i < j < |fs| :: fs[i].number != fs[j].number
  }

  /** Deeper levels: in internal key order, each file wholly before the next. */
  ghost predicate SortedLevel(fs: seq<File>) {
    forall i, j | 0 <= i < j < |fs| :: Before(fs[i].largest, fs[j].smallest)
  }

  /** Level 0: the larger the number, the newer the data. */
  ghost predicate NumberedByAge(fs: seq<File>) {
    forall f, g | f in fs && g in fs && f.number > g.number :: Newer(ToSet(f.entries), ToSet(g.entries))
  }

  ghost predicate ValidVersion(v: Version) {
    && (forall l | 0 <= l < NUM_LEVELS :: ValidFiles(v[l]) && DistinctNumbers(v[l]))
    && NumberedByAge(v[0])
    && (forall l | 1 <= l < NUM_LEVELS :: SortedLevel(v[l]))
    && (forall l, m | 0 <= l < m < NUM_LEVELS :: Newer(Contents(v[l]), Contents(v[m])))
    && Unique(VersionContents(v))
  }

  /** Every entry of a valid file lies in its range. */
  lemma EntryInRange(f: File, e: Entry)
    requires f.Valid() && e in f.entries
    ensures f.Covers(e.key.userKey)
    ensures e.key == f.smallest || Before(f.smallest, e.key)
    ensures e.key == f.largest || Before(e.key, f.largest)
  {
    var i :| 0 <= i < |f.entries| && f.entries[i] == e;
    assert 0 < i ==> Before(f.entries[0].key, f.entries[i].key);
    assert i < |f.entries| - 1 ==> Before(f.entries[i].key, f.entries[|f.entries| - 1].key);
  }

  lemma SmallestToLargest(f: File)
    requires f.Valid()
    ensures f.smallest == f.largest || Before(f.smallest, f.largest)
  {
    EntryInRange(f, f.entries[0]);
  }

  lemma UniqueLevel(v: Version, l: nat)
    requires l < NUM_LEVELS && Unique(VersionContents(v))
    ensures Unique(Contents(v[l]))
  {
    assert forall e | e in Contents(v[l]) :: e in VersionContents(v);
  }

  lemma UniqueFile(fs: seq<File>, f: File)
    requires f in fs && Unique(Contents(fs))
    ensures Unique(ToSet(f.entries))
  {
    assert forall e | e in f.entries :: e in Contents(fs);
  }

  // ---------------------------------------------------------------- binary search over one level

  /** The search itself, on any list of files, sorted or not. */
  function BinarySearch(files: seq<File>, key: InternalKey, left: nat, right: nat): (r: nat)
    requires left <= right <= |files|
    ensures left <= r <= right
    decreases right - left
  {
    if left == right then right
    else
      var mid := (left + right) / 2;
      if Before(files[mid].largest, key) then BinarySearch(files, key, mid + 1, right)
      else BinarySearch(files, key, left, mid)
  }

  lemma LargestIncrease(files: seq<File>, i: nat, j: nat)
    requires ValidFiles(files) && SortedLevel(files) && i < j < |files|
    ensures Before(files[i].largest, files[j].largest)
  {
    assert files[j] in files;
    assert Before(files[i].largest, files[j].smallest);
    SmallestToLargest(files[j]);
  }

  /** On a sorted level the search splits the files at the key. */
  lemma {:induction false} BinarySearchSplits(files: seq<File>, key: InternalKey, left: nat, right: nat)
    requires ValidFiles(files) && SortedLevel(files) && left <= right <= |files|
    requires forall i | 0 <= i < left :: Before(files[i].largest, key)
    requires forall i | right <= i < |files| :: !Before(files[i].largest, key)
    ensures var r := BinarySearch(files, key, left, right);
            (forall i | 0 <= i < r :: Before(files[i].largest, key)) && (forall i | r <= i < |files| :: !Before(files[i].largest, key))
    decreases right - left
  {
    hide ValidFiles, SortedLevel;
    if left < right {
      var mid := (left + right) / 2;
      forall i | 0 <= i < |files|
        ensures i < mid ==> Before(files[i].largest, files[mid].largest)
        ensures mid < i ==> Before(files[mid].largest, files[i].largest)
      {
        if i < mid {
          LargestIncrease(files, i, mid);
        } else if mid < i {
          LargestIncrease(files, mid, i);
        }
      }
      if Before(files[mid].largest, key) {
        BinarySearchSplits(files, key, mid + 1, right);
      } else {
        BinarySearchSplits(files, key, left, mid);
      }
    }
  }

  /** Any list of files has an index; on a sorted level it splits the files at the key. */
  method FindFile(files: seq<File>, key: InternalKey) returns (right: nat)
    ensures right == BinarySearch(files, key, 0, |files|) <= |files|
    ensures ValidFiles(files) && SortedLevel(files) ==>
              (forall i | 0 <= i < right :: Before(files[i].largest, key))
              && (forall i | right <= i < |files| :: !Before(files[i].largest, key))
  {
    if ValidFiles(files) && SortedLevel(files) {
      BinarySearchSplits(files, key, 0, |files|);
    }
    hide ValidFiles, SortedLevel, Before;
    var left := 0;
    right := |files|;
    while left < right
      invariant 0 <= left <= right <= |files|
      invariant BinarySearch(files, key, left, right) == BinarySearch(files, key, 0, |files|)
    {
      var mid := (left + right) / 2;
      if Before(files[mid].largest, key) {
        left := mid + 1;
      } else {
        right := mid;
      }
    }
  }

  // ---------------------------------------------------------------- range overlap

  predicate AfterFile(k: Option<UserKey>, f: File) {
    k.Some? && k.value > f.largest.userKey
  }

  predicate BeforeFile(k: Option<UserKey>, f: File) {
    k.Some? && k.value < f.smallest.userKey
  }

  /** The file's user keys meet [lo, hi]; an absent bound is unbounded. */
  predicate InRange(f: File, lo: Option<UserKey>, hi: Option<UserKey>) {
    !AfterFile(lo, f) && !BeforeFile(hi, f)
  }

  method SomeFileOverlapsRange(disjointSorted: bool, files: seq<File>, lo: Option<UserKey>, hi: Option<UserKey>)
    returns (overlap: bool)
    requires ValidFiles(files)
    requires disjointSorted ==> SortedLevel(files)
    ensures overlap <==> exists f :: f in files && InRange(f, lo, hi)
  {
    if !disjointSorted {
      for i := 0 to |files|
        invariant forall j | 0 <= j < i :: !InRange(files[j], lo, hi)
      {
        if AfterFile(lo, files[i]) || BeforeFile(hi, files[i]) {
        } else {
          assert files[i] in files;
          return true;
        }
      }
      return false;
    }
    var index := 0;
    if lo.Some? {
      index := FindFile(files, InternalKey(lo.value, MAX_SEQUENCE, TypeValue));
    }
    forall j | 0 <= j < index ensures AfterFile(lo, files[j]) {
      assert files[j] in files;
      assert files[j].largest == files[j].entries[|files[j].entries| - 1].key;
      assert files[j].entries[|files[j].entries| - 1] in files[j].entries;
    }
    if index >= |files| {
      return false;
    }
    forall j | index < j < |files| ensures BeforeFile(hi, files[index]) ==> BeforeFile(hi, files[j]) {
      SmallestToLargest(files[index]);
      assert Before(files[index].largest, files[j].smallest);
    }
    overlap := !BeforeFile(hi, files[index]);
    assert overlap ==> files[index] in files && InRange(files[index], lo, hi);
  }

  // ---------------------------------------------------------------- Version::Get

  /** `tmp` sorted by NewestFirst. */
  function InsertNewestFirst(fs: seq<File>, f: File): seq<File> {
    if fs == [] || f.number > fs[0].number then [f] + fs else [fs[0]] + InsertNewestFirst(fs[1..], f)
  }

  ghost predicate NewestFirst(fs: seq<File>) {
    forall i, j | 0 <= i < j < |fs| :: fs[i].number >= fs[j].number
  }

  lemma {:induction false} InsertNewestFirstSorts(fs: seq<File>, f: File)
    requires NewestFirst(fs)
    ensures NewestFirst(InsertNewestFirst(fs, f))
    ensures forall g :: g in InsertNewestFirst(fs, f) <==> g in fs || g == f
  {
    if fs != [] && f.number <= fs[0].number {
      InsertNewestFirstSorts(fs[1..], f);
      var r := InsertNewestFirst(fs[1..], f);
      forall j | 0 <= j < |r| ensures fs[0].number >= r[j].number {
        assert r[j] in r;
        if r[j] in fs[1..] {
          var i :| 1 <= i < |fs| && fs[i] == r[j];
        }
      }
      assert fs == [fs[0]] + fs[1..];
    }
  }

  /** The level 0 files that cover the key, newest first. */
  function Candidates(files: seq<File>, k: UserKey): seq<File>
    decreases |files|
  {
    if files == [] then []
    else
      var rest, f := Candidates(files[..|files| - 1], k), files[|files| - 1];
      if f.Covers(k) then InsertNewestFirst(rest, f) else rest
  }

  lemma {:induction false} CandidatesNewestFirst(files: seq<File>, k: UserKey)
    ensures NewestFirst(Candidates(files, k))
    ensures forall f :: f in Candidates(files, k) <==> f in files && f.Covers(k)
    decreases |files|
  {
    if files != [] {
      var init, f := files[..|files| - 1], files[|files| - 1];
      CandidatesNewestFirst(init, k);
      InsertNewestFirstSorts(Candidates(init, k), f);
      assert files == init + [f];
    }
  }

  method CollectLevelZero(files: seq<File>, k: UserKey) returns (tmp: seq<File>)
    ensures tmp == Candidates(files, k)
  {
    tmp := [];
    for i := 0 to |files|
      invariant tmp == Candidates(files[..i], k)
    {
      assert files[..i + 1][..i] == files[..i];
      if k >= files[i].smallest.userKey && k <= files[i].largest.userKey {
        tmp := InsertNewestFirst(tmp, files[i]);
      }
    }
    assert files[..|files|] == files;
  }

  ghost predicate NoMatch(S: set<Entry>, k: UserKey, s: nat) {
    forall e | e in S :: !Matches(e, k, s)
  }

  ghost predicate NewestOrNone(S: set<Entry>, k: UserKey, s: nat, r: Option<Entry>) {
    match r
    case Some(e) => IsNewest(S, k, s, e)
    case None => NoMatch(S, k, s)
  }

  /** The search of one file, seen from its level. */
  lemma SearchFile(fs: seq<File>, f: File, k: UserKey, s: nat)
    requires f in fs && ValidFiles(fs) && Unique(Contents(fs))
    ensures NewestOrNone(ToSet(f.entries), k, s, SeekGet(f.entries, k, s))
  {
    UniqueFile(fs, f);
    SeekGetIsNewest(f.entries, k, s);
    NewestExists(ToSet(f.entries), k, s);
  }

  lemma SameNumberSameFile(fs: seq<File>, f: File, g: File)
    requires DistinctNumbers(fs) && f in fs && g in fs && f.number == g.number
    ensures f == g
  {
    var a :| 0 <= a < |fs| && fs[a] == f;
    var b :| 0 <= b < |fs| && fs[b] == g;
  }

  /** Files with larger numbers hold newer data, so the first file with a match has the newest match. */
  lemma NewestOfLevelZero(fs: seq<File>, f: File, k: UserKey, s: nat, e: Entry)
    requires DistinctNumbers(fs) && NumberedByAge(fs) && f in fs
    requires IsNewest(ToSet(f.entries), k, s, e)
    requires forall g | g in fs && g.number > f.number :: NoMatch(ToSet(g.entries), k, s)
    ensures IsNewest(Contents(fs), k, s, e)
  {
    forall x | x in Contents(fs) && Matches(x, k, s) && x != e
      ensures x.key.sequence < e.key.sequence
    {
      var g :| g in fs && x in g.entries;
      OlderFile(fs, f, g, k, s, e, x);
    }
  }

  lemma OlderFile(fs: seq<File>, f: File, g: File, k: UserKey, s: nat, e: Entry, x: Entry)
    requires DistinctNumbers(fs) && NumberedByAge(fs) && f in fs && g in fs
    requires IsNewest(ToSet(f.entries), k, s, e)
    requires g.number > f.number ==> NoMatch(ToSet(g.entries), k, s)
    requires x in g.entries && Matches(x, k, s) && x != e
    ensures x.key.sequence < e.key.sequence
  {
    assert x in ToSet(g.entries);
    if g.number == f.number {
      SameNumberSameFile(fs, f, g);
    } else {
      assert g.number < f.number;
      assert Newer(ToSet(f.entries), ToSet(g.entries));
    }
  }

  lemma LargerNumberIsEarlier(fs: seq<File>, i: nat, g: File)
    requires NewestFirst(fs) && i < |fs| && g in fs && g.number > fs[i].number
    ensures exists j :: 0 <= j < i && fs[j] == g
  {
    var j :| 0 <= j < |fs| && fs[j] == g;
  }

  /** The first hit in a list of files. */
  function FirstHit(files: seq<File>, k: UserKey, s: nat): Option<Entry> {
    if files == [] then None
    else if SeekGet(files[0].entries, k, s).Some? then SeekGet(files[0].entries, k, s)
    else FirstHit(files[1..], k, s)
  }

  lemma {:induction false} FirstHitFile(files: seq<File>, k: UserKey, s: nat)
    ensures match FirstHit(files, k, s)
            case Some(e) =>
              exists i :: 0 <= i < |files| && SeekGet(files[i].entries, k, s) == Some(e)
                && forall j | 0 <= j < i :: SeekGet(files[j].entries, k, s) == None
            case None => forall i | 0 <= i < |files| :: SeekGet(files[i].entries, k, s) == None
  {
    if files != [] {
      var rest := files[1..];
      if SeekGet(files[0].entries, k, s) == None {
        FirstHitFile(rest, k, s);
        if FirstHit(rest, k, s).Some? {
          var i :| 0 <= i < |rest| && SeekGet(rest[i].entries, k, s) == FirstHit(rest, k, s)
                   && forall j | 0 <= j < i :: SeekGet(rest[j].entries, k, s) == None;
          assert SeekGet(files[i + 1].entries, k, s) == FirstHit(files, k, s);
          assert forall j | 0 <= j < i + 1 :: SeekGet(files[j].entries, k, s) == None by {
            assert forall j | 1 <= j < i + 1 :: files[j] == rest[j - 1];
          }
        } else {
          assert forall j | 1 <= j < |files| :: files[j] == rest[j - 1];
        }
      } else {
        assert SeekGet(files[0].entries, k, s) == FirstHit(files, k, s);
      }
    }
  }

  /** What Version::Get makes of level 0. */
  function LevelZeroLookup(fs: seq<File>, k: UserKey, s: nat): Option<Entry> {
    FirstHit(Candidates(fs, k), k, s)
  }

  lemma NoCandidateNoMatch(fs: seq<File>, g: File, k: UserKey, s: nat)
    requires ValidFiles(fs) && g in fs && !g.Covers(k)
    ensures NoMatch(ToSet(g.entries), k, s)
  {
    hide Sorted;
    forall e | e in g.entries ensures !Matches(e, k, s) {
      EntryInRange(g, e);
    }
  }

  /** Numbers by age make the first hit the newest match of level 0. */
  lemma LevelZeroLookupIsNewest(fs: seq<File>, k: UserKey, s: nat)
    requires ValidFiles(fs) && DistinctNumbers(fs) && NumberedByAge(fs) && Unique(Contents(fs))
    ensures NewestOrNone(Contents(fs), k, s, LevelZeroLookup(fs, k, s))
  {
    hide FileMetaData.Valid, Unique, NewestFirst, SeekGet, Candidates, FirstHit, Newer, NumberedByAge, DistinctNumbers;
    var tmp := Candidates(fs, k);
    CandidatesNewestFirst(fs, k);
    FirstHitFile(tmp, k, s);
    forall g | g in fs && (g !in tmp || SeekGet(g.entries, k, s) == None) ensures NoMatch(ToSet(g.entries), k, s) {
      if g in tmp {
        SearchFile(fs, g, k, s);
      } else {
        NoCandidateNoMatch(fs, g, k, s);
      }
    }
    var r := LevelZeroLookup(fs, k, s);
    if r.Some? {
      var i :| 0 <= i < |tmp| && SeekGet(tmp[i].entries, k, s) == r
               && forall j | 0 <= j < i :: SeekGet(tmp[j].entries, k, s) == None;
      assert tmp[i] in tmp;
      SearchFile(fs, tmp[i], k, s);
      forall g | g in fs && g.number > tmp[i].number ensures NoMatch(ToSet(g.entries), k, s) {
        if g in tmp {
          LargerNumberIsEarlier(tmp, i, g);
        }
      }
      NewestOfLevelZero(fs, tmp[i], k, s, r.value);
    } else {
      forall e | e in Contents(fs) ensures !Matches(e, k, s) {
        var g :| g in fs && e in g.entries;
        assert e in ToSet(g.entries);
        assert NoMatch(ToSet(g.entries), k, s);
      }
    }
  }

  /** Level 0: the files that cover the key are tried newest first. */
  method GetLevelZero(fs: seq<File>, k: UserKey, s: nat) returns (r: Option<Entry>)
    ensures r == LevelZeroLookup(fs, k, s)
  {
    hide SeekGet, Candidates;
    var tmp := CollectLevelZero(fs, k);
    for i := 0 to |tmp|
      invariant FirstHit(tmp[i..], k, s) == FirstHit(tmp, k, s)
    {
      assert tmp[i..][1..] == tmp[i + 1..];
      r := SeekGet(tmp[i].entries, k, s);
      if r.Some? {
        return;
      }
    }
    r := None;
  }

  /** If f precedes g and ends at or after the lookup key, a match in g is older than f's last entry. */
  lemma EarlierFileHasNewer(f: File, g: File, k: UserKey, s: nat, x: Entry)
    requires f.Valid() && g.Valid() && Before(f.largest, g.smallest)
    requires !Before(f.largest, SeekKey(k, s))
    requires x in g.entries && Matches(x, k, s)
    requires Unique(ToSet(f.entries) + ToSet(g.entries))
    ensures var last := f.entries[|f.entries| - 1]; last in f.entries && Matches(last, k, s) && x.key.sequence < last.key.sequence
  {
    EntryInRange(g, x);
    var last := f.entries[|f.entries| - 1];
    assert last in ToSet(f.entries) && x in ToSet(g.entries);
  }

  /** FindFile's index is the only file of a sorted level that can hold the newest match. */
  lemma OneFileSuffices(fs: seq<File>, index: nat, k: UserKey, s: nat, x: Entry, i: nat)
    requires ValidFiles(fs) && SortedLevel(fs) && Unique(Contents(fs))
    requires i < |fs| && index < |fs| && x in fs[i].entries && Matches(x, k, s)
    requires i < index ==> Before(fs[i].largest, SeekKey(k, s))
    requires !Before(fs[index].largest, SeekKey(k, s))
    ensures index <= i
    ensures index < i ==>
      exists e :: e in fs[index].entries && Matches(e, k, s) && x.key.sequence < e.key.sequence
  {
    hide Sorted;
    assert fs[i] in fs && fs[index] in fs;
    EntryInRange(fs[i], x);
    if index < i {
      var f, g := fs[index], fs[i];
      assert forall e | e in ToSet(f.entries) + ToSet(g.entries) :: e in Contents(fs);
      EarlierFileHasNewer(f, g, k, s, x);
    }
  }

  /** What Version::Get makes of one level below level 0. */
  function LevelLookup(fs: seq<File>, k: UserKey, s: nat): Option<Entry> {
    var index := BinarySearch(fs, SeekKey(k, s), 0, |fs|);
    if index >= |fs| || k < fs[index].smallest.userKey then None else SeekGet(fs[index].entries, k, s)
  }

  /** Deeper levels: one binary search, then one file. */
  method GetSortedLevel(fs: seq<File>, k: UserKey, s: nat) returns (r: Option<Entry>)
    ensures r == LevelLookup(fs, k, s)
  {
    var index := FindFile(fs, SeekKey(k, s));
    if index >= |fs| || k < fs[index].smallest.userKey {
      return None;  // all of the file is past any data for the key
    }
    r := SeekGet(fs[index].entries, k, s);
  }

  lemma PastTheKey(fs: seq<File>, index: nat, k: UserKey, s: nat, x: Entry, i: nat)
    requires ValidFiles(fs) && SortedLevel(fs) && Unique(Contents(fs))
    requires i < |fs| && index < |fs| && x in fs[i].entries && k < fs[index].smallest.userKey
    requires i < index ==> Before(fs[i].largest, SeekKey(k, s))
    requires !Before(fs[index].largest, SeekKey(k, s))
    ensures !Matches(x, k, s)
  {
    hide Sorted, SortedLevel, Unique;
    if Matches(x, k, s) {
      OneFileSuffices(fs, index, k, s, x, i);
      assert fs[index] in fs && fs[i] in fs;
      EntryInRange(fs[i], x);
      var e :| e in fs[index].entries && Matches(e, k, s);
      EntryInRange(fs[index], e);
      assert false;
    }
  }

  /** On a sorted level the binary search cannot miss. */
  lemma LevelLookupIsNewest(fs: seq<File>, k: UserKey, s: nat)
    requires ValidFiles(fs) && SortedLevel(fs) && Unique(Contents(fs))
    ensures NewestOrNone(Contents(fs), k, s, LevelLookup(fs, k, s))
  {
    hide Sorted, SortedLevel, Unique, SeekGet, BinarySearch;
    var index := BinarySearch(fs, SeekKey(k, s), 0, |fs|);
    BinarySearchSplits(fs, SeekKey(k, s), 0, |fs|);
    var r := LevelLookup(fs, k, s);
    if index < |fs| {
      assert fs[index] in fs;
      SearchFile(fs, fs[index], k, s);
    }
    forall x | x in Contents(fs) && Matches(x, k, s)
      ensures r.Some? && (x == r.value || x.key.sequence < r.value.key.sequence)
    {
      var i :| 0 <= i < |fs| && x in fs[i].entries;
      assert fs[i] in fs;
      if index >= |fs| {
        EntryInRange(fs[i], x);
      } else if k < fs[index].smallest.userKey {
        PastTheKey(fs, index, k, s, x, i);
      } else {
        OneFileSuffices(fs, index, k, s, x, i);
        assert forall e | e in fs[index].entries :: e in ToSet(fs[index].entries);
      }
    }
    if r.Some? {
      ContentsOfFile(fs, fs[index], r.value);
    }
  }

  lemma ContentsOfFile(fs: seq<File>, f: File, e: Entry)
    requires f in fs && e in ToSet(f.entries)
    ensures e in Contents(fs)
  {
  }

  /** A newest entry within one level is the newest of the version when no shallower level has a match. */
  lemma NewestOfLevel(v: Version, level: nat, k: UserKey, s: nat, e: Entry)
    requires level < NUM_LEVELS
    requires forall l, m | 0 <= l < m < NUM_LEVELS :: Newer(Contents(v[l]), Contents(v[m]))
    requires forall l | 0 <= l < level :: NoMatch(Contents(v[l]), k, s)
    requires IsNewest(Contents(v[level]), k, s, e)
    ensures IsNewest(VersionContents(v), k, s, e)
  {
    hide Contents, Newer;
    forall x | x in VersionContents(v) && Matches(x, k, s) && x != e
      ensures x.key.sequence < e.key.sequence
    {
      var l :| 0 <= l < NUM_LEVELS && x in Contents(v[l]);
      if l > level {
        NewerThan(Contents(v[level]), Contents(v[l]), e, x);
      }
    }
  }

  /** What Version::Get makes of one level. */
  function Lookup(v: Version, level: nat, k: UserKey, s: nat): Option<Entry>
    requires level < NUM_LEVELS
  {
    if level == 0 then LevelZeroLookup(v[0], k, s) else LevelLookup(v[level], k, s)
  }

  /** Version::Get: level by level, stopping at the first hit. */
  function SearchFrom(v: Version, level: nat, k: UserKey, s: nat): Option<Entry>
    requires level <= NUM_LEVELS
    decreases NUM_LEVELS - level
  {
    if level == NUM_LEVELS then None
    else if Lookup(v, level, k, s).Some? then Lookup(v, level, k, s)
    else SearchFrom(v, level + 1, k, s)
  }

  function Search(v: Version, k: UserKey, s: nat): Option<Entry> {
    SearchFrom(v, 0, k, s)
  }

  lemma LookupIsNewest(v: Version, level: nat, k: UserKey, s: nat)
    requires ValidVersion(v) && level < NUM_LEVELS
    ensures NewestOrNone(Contents(v[level]), k, s, Lookup(v, level, k, s))
  {
    UniqueLevel(v, level);
    assert ValidFiles(v[level]) && DistinctNumbers(v[level]);
    hide FileMetaData.Valid, Newer, LevelLookup, LevelZeroLookup, Unique, Contents, VersionContents, NewestOrNone, SortedLevel, NumberedByAge;
    if level == 0 {
      LevelZeroLookupIsNewest(v[0], k, s);
    } else {
      LevelLookupIsNewest(v[level], k, s);
    }
  }

  /** On a valid version the search with its early stop finds the newest entry there is. */
  lemma SearchIsNewest(v: Version, k: UserKey, s: nat)
    requires ValidVersion(v)
    ensures Search(v, k, s) == Newest(VersionContents(v), k, s)
  {
    hide ValidVersion, Lookup;
    SearchFromIsNewest(v, 0, k, s);
  }

  lemma {:induction false} SearchFromIsNewest(v: Version, level: nat, k: UserKey, s: nat)
    requires ValidVersion(v) && level <= NUM_LEVELS
    requires forall l | 0 <= l < level :: NoMatch(Contents(v[l]), k, s)
    ensures SearchFrom(v, level, k, s) == Newest(VersionContents(v), k, s)
    decreases NUM_LEVELS - level
  {
    hide Lookup, Contents, Newer, Unique, NumberedByAge, SortedLevel, ValidFiles;
    if level == NUM_LEVELS {
      forall e | e in VersionContents(v) ensures !Matches(e, k, s) {
        var l :| 0 <= l < NUM_LEVELS && e in Contents(v[l]);
        assert NoMatch(Contents(v[l]), k, s);
      }
      NewestExists(VersionContents(v), k, s);
    } else {
      LookupIsNewest(v, level, k, s);
      var r := Lookup(v, level, k, s);
      if r.Some? {
        NewestOfLevel(v, level, k, s, r.value);
        NewestIs(VersionContents(v), k, s, r.value);
      } else {
        SearchFromIsNewest(v, level + 1, k, s);
      }
    }
  }

  method Get(v: Version, k: UserKey, s: nat) returns (r: Option<Entry>)
    ensures r == Search(v, k, s)
    ensures ValidVersion(v) ==> r == Newest(VersionContents(v), k, s)
  {
    hide ValidVersion, LevelZeroLookup, LevelLookup;
    if ValidVersion(v) {
      SearchIsNewest(v, k, s);
    }
    for level := 0 to NUM_LEVELS
      invariant SearchFrom(v, level, k, s) == Search(v, k, s)
    {
      if level == 0 {
        r := GetLevelZero(v[0], k, s);
      } else {
        r := GetSortedLevel(v[level], k, s);
      }
      if r.Some? {
        return;
      }
    }
    r := None;
  }

  // ---------------------------------------------------------------- GetOverlappingInputs

  predicate Overlap(f: File, g: File) {
    f.smallest.userKey <= g.largest.userKey && g.smallest.userKey <= f.largest.userKey
  }

  predicate InBounds(k: UserKey, lo: Option<UserKey>, hi: Option<UserKey>) {
    (lo.Some? ==> lo.value <= k) && (hi.Some? ==> k <= hi.value)
  }

  /** The files that meet [lo, hi], in level order. */
  function Overlapping(fs: seq<File>, lo: Option<UserKey>, hi: Option<UserKey>): (r: seq<File>)
    ensures forall f :: f in r <==> f in fs && InRange(f, lo, hi)
  {
    if fs == [] then []
    else if InRange(fs[0], lo, hi) then [fs[0]] + Overlapping(fs[1..], lo, hi)
    else Overlapping(fs[1..], lo, hi)
  }

  lemma {:induction false} OverlappingAppend(fs: seq<File>, f: File, lo: Option<UserKey>, hi: Option<UserKey>)
    ensures Overlapping(fs + [f], lo, hi)
         == Overlapping(fs, lo, hi) + if InRange(f, lo, hi) then [f] else []
  {
    if fs == [] {
      assert fs + [f] == [f];
    } else {
      assert (fs + [f])[1..] == fs[1..] + [f];
      OverlappingAppend(fs[1..], f, lo, hi);
    }
  }

  /** A set of files that holds everything meeting [lo, hi] and every file that meets one of its own. */
  ghost predicate OverlapClosed(fs: seq<File>, X: set<File>, lo: Option<UserKey>, hi: Option<UserKey>) {
    && (forall f | f in fs && InRange(f, lo, hi) :: f in X)
    && (forall f, g | f in X && g in fs && Overlap(f, g) :: g in X)
  }

  /** What the level 0 scan keeps: [lo, hi] only ever grows by files that every closed set must hold. */
  ghost predicate GrownFrom(fs: seq<File>, lo0: Option<UserKey>, hi0: Option<UserKey>, lo: Option<UserKey>, hi: Option<UserKey>) {
    && lo.Some? == lo0.Some? && hi.Some? == hi0.Some?
    && (lo.Some? ==> lo.value <= lo0.value)
    && (hi.Some? ==> hi.value >= hi0.value)
    && (forall X, f | OverlapClosed(fs, X, lo0, hi0) && f in fs && InRange(f, lo, hi) :: f in X)
    && (forall k | InBounds(k, lo, hi) && !InBounds(k, lo0, hi0) ::
          exists f :: f in fs && InRange(f, lo, hi) && f.Covers(k))
  }

  function WithLow(f: File, lo: Option<UserKey>): Option<UserKey> {
    if lo.Some? && f.smallest.userKey < lo.value then Some(f.smallest.userKey) else lo
  }

  function WithHigh(f: File, hi: Option<UserKey>): Option<UserKey> {
    if hi.Some? && f.largest.userKey > hi.value then Some(f.largest.userKey) else hi
  }

  lemma GrowStep(fs: seq<File>, lo0: Option<UserKey>, hi0: Option<UserKey>, lo: Option<UserKey>, hi: Option<UserKey>,
                 f: File, lo': Option<UserKey>, hi': Option<UserKey>)
    requires ValidFiles(fs) && GrownFrom(fs, lo0, hi0, lo, hi) && f in fs && InRange(f, lo, hi)
    requires (lo' == WithLow(f, lo) && hi' == hi) || (lo' == lo && hi' == WithHigh(f, hi))
    ensures GrownFrom(fs, lo0, hi0, lo', hi')
  {
    SmallestToLargest(f);
    forall X, g | OverlapClosed(fs, X, lo0, hi0) && g in fs && InRange(g, lo', hi') ensures g in X {
      SmallestToLargest(g);
      assert f in X;
      if !InRange(g, lo, hi) {
        assert Overlap(f, g);
      }
    }
    forall k | InBounds(k, lo', hi') && !InBounds(k, lo0, hi0)
      ensures exists g :: g in fs && InRange(g, lo', hi') && g.Covers(k)
    {
      if InBounds(k, lo, hi) {
        var g :| g in fs && InRange(g, lo, hi) && g.Covers(k);
        assert InRange(g, lo', hi');
      } else {
        assert f.Covers(k) && InRange(f, lo', hi');
      }
    }
  }

  /** Files that start before `lo`, and files that end after `hi`: fewer at each restart. */
  ghost function StartsBelow(fs: seq<File>, lo: Option<UserKey>): set<File> {
    set f | f in fs && lo.Some? && f.smallest.userKey < lo.value
  }

  ghost function EndsAbove(fs: seq<File>, hi: Option<UserKey>): set<File> {
    set f | f in fs && hi.Some? && f.largest.userKey > hi.value
  }

  lemma ProperSubsetIsSmaller<T>(a: set<T>, b: set<T>, x: T)
    requires a <= b && x in b && x !in a
    ensures |a| < |b|
  {
    var c := b - a;
    assert b == a + c && x in c;
  }

  /** The scan has nothing yet and a range grown by nothing. */
  lemma ScanStarts(fs: seq<File>, lo: Option<UserKey>, hi: Option<UserKey>)
    ensures GrownFrom(fs, lo, hi, lo, hi)
    ensures forall a, b :: Overlapping(fs[..0], a, b) == []
    ensures Inside([], lo, hi)
  {
  }

  /** The scan has not met a file that reaches out of its range. */
  ghost predicate Inside(inputs: seq<File>, lo: Option<UserKey>, hi: Option<UserKey>) {
    forall f | f in inputs :: InBounds(f.smallest.userKey, lo, None) && InBounds(f.largest.userKey, None, hi)
  }

  lemma NothingInside(lo: Option<UserKey>, hi: Option<UserKey>)
    ensures Inside([], lo, hi)
  {
  }

  lemma InsideMore(inputs: seq<File>, f: File, lo: Option<UserKey>, hi: Option<UserKey>)
    requires Inside(inputs, lo, hi) && InBounds(f.smallest.userKey, lo, None) && InBounds(f.largest.userKey, None, hi)
    ensures Inside(inputs + [f], lo, hi)
  {
  }

  /** A restart with a lower bound moved down to the file found: fewer files start below it. */
  lemma RestartLow(fs: seq<File>, lo0: Option<UserKey>, hi0: Option<UserKey>, lo: Option<UserKey>, hi: Option<UserKey>, f: File)
    requires ValidFiles(fs) && GrownFrom(fs, lo0, hi0, lo, hi) && f in fs && InRange(f, lo, hi)
    requires lo.Some? && f.smallest.userKey < lo.value
    ensures GrownFrom(fs, lo0, hi0, Some(f.smallest.userKey), hi)
    ensures |StartsBelow(fs, Some(f.smallest.userKey))| < |StartsBelow(fs, lo)|
  {
    GrowStep(fs, lo0, hi0, lo, hi, f, WithLow(f, lo), hi);
    ProperSubsetIsSmaller(StartsBelow(fs, WithLow(f, lo)), StartsBelow(fs, lo), f);
  }

  lemma RestartHigh(fs: seq<File>, lo0: Option<UserKey>, hi0: Option<UserKey>, lo: Option<UserKey>, hi: Option<UserKey>, f: File)
    requires ValidFiles(fs) && GrownFrom(fs, lo0, hi0, lo, hi) && f in fs && InRange(f, lo, hi)
    requires hi.Some? && f.largest.userKey > hi.value
    ensures GrownFrom(fs, lo0, hi0, lo, Some(f.largest.userKey))
    ensures |EndsAbove(fs, Some(f.largest.userKey))| < |EndsAbove(fs, hi)|
  {
    GrowStep(fs, lo0, hi0, lo, hi, f, lo, WithHigh(f, hi));
    ProperSubsetIsSmaller(EndsAbove(fs, WithHigh(f, hi)), EndsAbove(fs, hi), f);
  }

  /**
    Version::GetOverlappingInputs.  Below level 0 it is a filter.  At level 0 a file that widens the range
    restarts the scan, and the result is the least set of files that holds all files meeting [begin, end]
    and is closed under overlap.  `lo` and `hi` are the bounds the scan ended with.
  */
  method GetOverlappingInputs(v: Version, level: nat, begin: Option<UserKey>, end: Option<UserKey>)
    returns (inputs: seq<File>, ghost lo: Option<UserKey>, ghost hi: Option<UserKey>)
    requires level < NUM_LEVELS && ValidFiles(v[level])
    ensures inputs == Overlapping(v[level], lo, hi)
    ensures level > 0 ==> lo == begin && hi == end
    ensures GrownFrom(v[level], begin, end, lo, hi)
    ensures level == 0 ==> Inside(inputs, lo, hi)
    ensures level == 0 ==> OverlapClosed(v[level], FileSet(inputs), begin, end)
    ensures level == 0 ==> forall X | OverlapClosed(v[level], X, begin, end) :: FileSet(inputs) <= X
  {
    var fs := v[level];
    inputs := [];
    var userBegin, userEnd := begin, end;
    hide GrownFrom, OverlapClosed, StartsBelow, EndsAbove, FileMetaData.Valid, Inside;
    ScanStarts(fs, begin, end);
    hide Overlapping;
    var i := 0;
    while i < |fs|
      invariant 0 <= i <= |fs|
      invariant inputs == Overlapping(fs[..i], userBegin, userEnd)
      invariant level > 0 ==> userBegin == begin && userEnd == end
      invariant GrownFrom(fs, begin, end, userBegin, userEnd)
      invariant level == 0 ==> Inside(inputs, userBegin, userEnd)
      decreases |StartsBelow(fs, userBegin)| + |EndsAbove(fs, userEnd)|, |fs| - i
    {
      var f := fs[i];
      assert f in fs;
      assert fs[..i + 1] == fs[..i] + [f];
      OverlappingAppend(fs[..i], f, userBegin, userEnd);
      i := i + 1;
      if AfterFile(userBegin, f) {
      } else if BeforeFile(userEnd, f) {
      } else {
        ghost var was := inputs;
        inputs := inputs + [f];
        if level == 0 {
          if userBegin.Some? && f.smallest.userKey < userBegin.value {
            RestartLow(fs, begin, end, userBegin, userEnd, f);
            userBegin := Some(f.smallest.userKey);
            inputs := [];
            i := 0;
          } else if userEnd.Some? && f.largest.userKey > userEnd.value {
            RestartHigh(fs, begin, end, userBegin, userEnd, f);
            userEnd := Some(f.largest.userKey);
            inputs := [];
            i := 0;
          }
          if inputs == [] {
            NothingInside(userBegin, userEnd);
          } else {
            InsideMore(was, f, userBegin, userEnd);
          }
        }
      }
    }
    assert fs[..i] == fs;
    lo, hi := userBegin, userEnd;
    if level == 0 {
      ScanIsClosed(fs, begin, end, lo, hi, inputs);
    }
  }

  lemma ScanIsClosed(fs: seq<File>, begin: Option<UserKey>, end: Option<UserKey>, lo: Option<UserKey>, hi: Option<UserKey>, inputs: seq<File>)
    requires ValidFiles(fs) && GrownFrom(fs, begin, end, lo, hi) && inputs == Overlapping(fs, lo, hi)
    requires Inside(inputs, lo, hi)
    ensures OverlapClosed(fs, FileSet(inputs), begin, end)
    ensures forall X | OverlapClosed(fs, X, begin, end) :: FileSet(inputs) <= X
  {
    forall f, g | f in inputs && g in fs && Overlap(f, g) ensures g in inputs {
      assert InRange(g, lo, hi);
    }
    forall X | OverlapClosed(fs, X, begin, end) ensures FileSet(inputs) <= X {
      forall f | f in inputs ensures f in X {
        assert InRange(f, lo, hi);
      }
    }
  }

  // ---------------------------------------------------------------- PickLevelForMemTableOutput

  function TotalFileSize(fs: seq<File>): nat {
    if fs == [] then 0 else fs[0].fileSize + TotalFileSize(fs[1..])
  }

  /** No file of levels 0..level meets [lo, hi]. */
  ghost predicate NoOverlapTo(v: Version, level: nat, lo: UserKey, hi: UserKey)
    requires level < NUM_LEVELS
  {
    forall l, f | 0 <= l <= level && f in v[l] :: !InRange(f, Some(lo), Some(hi))
  }

  /** A table over [lo, hi] may go down from `level` - 1 to `level`: it meets nothing there, and not too much below. */
  ghost predicate MayGoTo(v: Version, level: nat, lo: UserKey, hi: UserKey, limit: nat)
    requires level + 1 < NUM_LEVELS
  {
    NoOverlapTo(v, level, lo, hi) && TotalFileSize(Overlapping(v[level + 1], Some(lo), Some(hi))) <= limit
  }

  lemma OneLevelOn(v: Version, level: nat, lo: UserKey, hi: UserKey)
    requires level + 1 < NUM_LEVELS
    ensures NoOverlapTo(v, level + 1, lo, hi) <==> NoOverlapTo(v, level, lo, hi) && forall f | f in v[level + 1] :: !InRange(f, Some(lo), Some(hi))
    ensures NoOverlapTo(v, 0, lo, hi) <==> forall f | f in v[0] :: !InRange(f, Some(lo), Some(hi))
  {
  }

  lemma LevelsOk(v: Version, level: nat)
    requires ValidVersion(v) && level < NUM_LEVELS
    ensures ValidFiles(v[level]) && (level >= 1 ==> SortedLevel(v[level]))
  {
  }

  /** As deep as it may go, one level at a time. */
  ghost predicate DeepestFor(v: Version, lo: UserKey, hi: UserKey, limit: nat, level: nat) {
    && level <= MAX_MEM_COMPACT_LEVEL
    && (forall l | 1 <= l <= level :: MayGoTo(v, l, lo, hi, limit))
    && (level < MAX_MEM_COMPACT_LEVEL ==> !MayGoTo(v, level + 1, lo, hi, limit))
  }

  method PickLevelForMemTableOutput(v: Version, lo: UserKey, hi: UserKey, maxGrandParentOverlap: nat)
    returns (level: nat)
    requires ValidVersion(v)
    ensures DeepestFor(v, lo, hi, maxGrandParentOverlap, level)
    ensures level > 0 ==> NoOverlapTo(v, level, lo, hi)
  {
    level := 0;
    hide GrownFrom, OverlapClosed, Overlapping, NoOverlapTo, InRange, ValidVersion, ValidFiles, SortedLevel;
    LevelsOk(v, 0);
    OneLevelOn(v, 0, lo, hi);
    var overlap := SomeFileOverlapsRange(false, v[0], Some(lo), Some(hi));
    if !overlap {
      while level < MAX_MEM_COMPACT_LEVEL
        invariant level <= MAX_MEM_COMPACT_LEVEL
        invariant NoOverlapTo(v, level, lo, hi)
        invariant forall l | 1 <= l <= level :: MayGoTo(v, l, lo, hi, maxGrandParentOverlap)
      {
        OneLevelOn(v, level, lo, hi);
        LevelsOk(v, level + 1);
        overlap := SomeFileOverlapsRange(true, v[level + 1], Some(lo), Some(hi));
        if overlap {
          break;
        }
        if level + 2 < NUM_LEVELS {
          LevelsOk(v, level + 2);
          var overlaps, _, _ := GetOverlappingInputs(v, level + 2, Some(lo), Some(hi));
          if TotalFileSize(overlaps) > maxGrandParentOverlap {
            break;
          }
        }
        level := level + 1;
      }
    }
  }
}
