/**
  The tables a compaction leaves on disk meet what CrashSafety asks before their edit is written: they hold
  the survivors of the inputs, and the drop rule has looked at every older version outside them.
*/
module DurableCompactions {
  import opened InternalKeys
  import opened Versions
  import opened Picking
  import opened DropRules
  import opened CompactionWork
  import opened Installing
  import Recovery
  import Database

  type Tables = map<nat, set<Entry>>

  ghost predicate Stored(tables: Tables, fs: seq<File>) {
    forall f | f in fs :: f.number in tables && tables[f.number] == ToSet(f.entries)
  }

  ghost function VersionNumbers(v: Version): set<nat> {
    set l, f | 0 <= l < NUM_LEVELS && f in v[l] :: f.number
  }

  ghost function InputNumbers(c: CompactionInputs): set<nat> {
    NumberSet(c.inputs0) + NumberSet(c.inputs1)
  }

  lemma CoverOfFiles(tables: Tables, fs: seq<File>)
    requires Stored(tables, fs)
    ensures Recovery.Cover(tables, NumberSet(fs)) == Contents(fs)
  {
    forall e | e in Contents(fs) ensures e in Recovery.Cover(tables, NumberSet(fs)) {
      var f :| f in fs && e in f.entries;
      assert f.number in NumberSet(fs) && e in tables[f.number];
    }
    forall e | e in Recovery.Cover(tables, NumberSet(fs)) ensures e in Contents(fs) {
      var n :| n in NumberSet(fs) && n in tables && e in tables[n];
      var f :| f in fs && f.number == n;
      assert e in ToSet(f.entries);
    }
  }

  /** Numbers that name one file at one level tell the files that stay from those that go. */
  lemma StaysByNumber(v: Version, c: CompactionInputs, l: nat, f: File)
    requires Database.NumbersIdentify(v) && RowsOf(v, c) && l < NUM_LEVELS && f in v[l]
    ensures Stays(v, c, l, f) <==> f.number !in InputNumbers(c)
  {
    if f.number in NumberSet(c.inputs0) {
      var g :| g in c.inputs0 && g.number == f.number;
      assert l == c.level && f == g;
    }
    if f.number in NumberSet(c.inputs1) {
      var g :| g in c.inputs1 && g.number == f.number;
      assert l == c.level + 1 && f == g;
    }
  }

  lemma CoverOfRest(tables: Tables, v: Version, c: CompactionInputs)
    requires Database.NumbersIdentify(v) && RowsOf(v, c)
    requires forall l | 0 <= l < NUM_LEVELS :: Stored(tables, v[l])
    ensures Recovery.Cover(tables, VersionNumbers(v) - InputNumbers(c)) == Rest(v, c)
  {
    hide Recovery.Cover, Rest, Stays, InputNumbers, VersionNumbers, Stored, Database.NumbersIdentify, RowsOf;
    var kept := VersionNumbers(v) - InputNumbers(c);
    forall e | e in Rest(v, c) ensures e in Recovery.Cover(tables, kept) {
      var l, f := RestFile(v, c, e);
      StaysIn(v, c, l, f);
      StaysByNumber(v, c, l, f);
      NumberOf(v, l, f);
      CoverMember(tables, kept, v[l], f, e);
    }
    forall e | e in Recovery.Cover(tables, kept) ensures e in Rest(v, c) {
      var n := CoverTable(tables, kept, e);
      var l, f := FileNumbered(v, n);
      StaysByNumber(v, c, l, f);
      StoredEntry(tables, v[l], f, e);
      RestMember(v, c, l, f, e);
    }
  }

  lemma NumberOf(v: Version, l: nat, f: File)
    requires l < NUM_LEVELS && f in v[l]
    ensures f.number in VersionNumbers(v)
  {
  }

  lemma FileNumbered(v: Version, n: nat) returns (l: nat, f: File)
    requires n in VersionNumbers(v)
    ensures l < NUM_LEVELS && f in v[l] && f.number == n
  {
    l, f :| 0 <= l < NUM_LEVELS && f in v[l] && f.number == n;
  }

  lemma CoverMember(tables: Tables, numbers: set<nat>, fs: seq<File>, f: File, e: Entry)
    requires Stored(tables, fs) && f in fs && e in f.entries && f.number in numbers
    ensures e in Recovery.Cover(tables, numbers)
  {
    assert e in tables[f.number];
  }

  lemma CoverTable(tables: Tables, numbers: set<nat>, e: Entry) returns (n: nat)
    requires e in Recovery.Cover(tables, numbers)
    ensures n in numbers && n in tables && e in tables[n]
  {
    n :| n in numbers && n in tables && e in tables[n];
  }

  lemma StoredEntry(tables: Tables, fs: seq<File>, f: File, e: Entry)
    requires Stored(tables, fs) && f in fs && f.number in tables && e in tables[f.number]
    ensures e in f.entries
  {
    assert e in ToSet(f.entries);
  }

  /** A pending compaction whose outputs are on disk may have its edit written. */
  lemma CompactionMayPrepare(tables: Tables, v: Version, c: CompactionInputs, outputs: seq<File>, smallest: nat)
    requires ValidVersion(v) && Pending(v, c) && Database.NumbersIdentify(v)
    requires forall l | 0 <= l < NUM_LEVELS :: Stored(tables, v[l])
    requires Stored(tables, outputs) && Contents(outputs) == Survivors(c.Entries(), smallest, Base(c))
    ensures Recovery.Cover(tables, NumberSet(outputs)) == Survivors(Recovery.Cover(tables, InputNumbers(c)), smallest, Base(c))
    ensures OlderIsAnnounced(Recovery.Cover(tables, InputNumbers(c)), Recovery.Cover(tables, VersionNumbers(v) - InputNumbers(c)), Base(c))
  {
    hide ValidVersion, Pending, Recovery.Cover, Contents, VersionContents, Survivors, Rest, OlderIsAnnounced, Base, NumberSet, VersionNumbers, Database.NumbersIdentify;
    PendingLevel(v, c);
    assert Stored(tables, v[c.level]) && Stored(tables, v[c.level + 1]);
    CoverOfFiles(tables, c.inputs0);
    CoverOfFiles(tables, c.inputs1);
    Recovery.CoverUnion(tables, NumberSet(c.inputs0), NumberSet(c.inputs1));
    CoverOfFiles(tables, outputs);
    CoverOfRest(tables, v, c);
    NothingIsNewer(VersionContents(v));
    OlderIsSeen(v, c, {});
    assert {} + Rest(v, c) == Rest(v, c);
  }
}
