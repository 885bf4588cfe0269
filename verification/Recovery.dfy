/**
  What is on disk, and what recovery makes of it (db/db_impl.cc, db/version_set.cc).  A log and a manifest
  are lists of whole records: a record that a crash cut short reads as absent, by LogReaders.Truncation.
  A table is the set of its entries.  Which level a file is at, and the contents of edits beyond file
  numbers, are left to VersionEdits.
*/
module Recovery {
  import opened InternalKeys
  import opened Batches
  import opened DropRules

  /** A group of writes logged as one record, with its first sequence number. */
  datatype Batch = Batch(first: nat, ops: seq<Op<UserKey>>) {
    const count: nat := |ops|
  }

  datatype Edit = Edit(deleted: set<nat>, added: set<nat>, log: Option<nat>, next: Option<nat>, last: Option<nat>)

  datatype Disk = Disk(
    current: Option<nat>, manifests: map<nat, seq<Edit>>, logs: map<nat, seq<Batch>>, tables: map<nat, set<Entry>>)

  // ---------------------------------------------------------------- sequence numbers

  /** The last sequence number used by a list of batches. */
  function End(h: seq<Batch>): nat {
    if h == [] then 0 else End(h[..|h| - 1]) + h[|h| - 1].count
  }

  ghost predicate Chained(h: seq<Batch>) {
    forall i | 0 <= i < |h| :: h[i].first == End(h[..i]) + 1
  }

  lemma EndAppend(h: seq<Batch>, g: Batch)
    ensures End(h + [g]) == End(h) + g.count
  {
    assert (h + [g])[..|h|] == h;
  }

  lemma {:induction false} EndGrows(h: seq<Batch>, i: nat)
    requires i <= |h|
    ensures End(h[..i]) <= End(h)
    decreases |h|
  {
    if i < |h| {
      assert h[..|h| - 1][..i] == h[..i];
      EndGrows(h[..|h| - 1], i);
    } else {
      assert h[..i] == h;
    }
  }

  lemma ChainedAppend(h: seq<Batch>, g: Batch)
    requires Chained(h) && g.first == End(h) + 1
    ensures Chained(h + [g])
  {
    forall i | 0 <= i < |h| + 1 ensures (h + [g])[i].first == End((h + [g])[..i]) + 1 {
      assert (h + [g])[..i] == h[..i];
      assert i == |h| ==> h[..i] == h;
    }
  }

  // ---------------------------------------------------------------- replaying a manifest

  /** What a manifest says: live tables, oldest log still needed, next file number, last sequence. */
  datatype Saved = Saved(version: set<nat>, log: nat, next: nat, last: nat)

  function Or(x: Option<nat>, y: nat): nat {
    if x.Some? then x.value else y
  }

  function AfterEdit(st: Saved, e: Edit): Saved {
    Saved(st.version - e.deleted + e.added, Or(e.log, st.log), Or(e.next, st.next), Or(e.last, st.last))
  }

  function Replay(edits: seq<Edit>): Saved {
    if edits == [] then Saved({}, 0, 0, 0) else AfterEdit(Replay(edits[..|edits| - 1]), edits[|edits| - 1])
  }

  lemma ReplayAppend(edits: seq<Edit>, e: Edit)
    ensures Replay(edits + [e]) == AfterEdit(Replay(edits), e)
  {
    assert (edits + [e])[..|edits|] == edits;
  }

  /** The loop of VersionSet::Recover over the records of a manifest. */
  method ReadManifest(edits: seq<Edit>) returns (st: Saved)
    ensures st == Replay(edits)
  {
    st := Saved({}, 0, 0, 0);
    for i := 0 to |edits|
      invariant st == Replay(edits[..i])
    {
      assert edits[..i + 1][..i] == edits[..i];
      var e := edits[i];
      var version, log, next, last := st.version - e.deleted + e.added, st.log, st.next, st.last;
      if e.log.Some? {
        log := e.log.value;
      }
      if e.next.Some? {
        next := e.next.value;
      }
      if e.last.Some? {
        last := e.last.value;
      }
      st := Saved(version, log, next, last);
    }
    assert edits[..|edits|] == edits;
  }

  // ---------------------------------------------------------------- logs in the order of their numbers

  function LogOf(logs: map<nat, seq<Batch>>, n: nat): seq<Batch> {
    if n in logs then logs[n] else []
  }

  /** The records of all logs numbered from `lo` to below `hi`, oldest log first. */
  function LogsFrom(logs: map<nat, seq<Batch>>, lo: nat, hi: nat): seq<Batch>
    decreases hi - lo
  {
    if lo >= hi then [] else LogOf(logs, lo) + LogsFrom(logs, lo + 1, hi)
  }

  lemma {:induction false} LogsAgree(a: map<nat, seq<Batch>>, b: map<nat, seq<Batch>>, lo: nat, hi: nat)
    requires forall n | lo <= n < hi :: LogOf(a, n) == LogOf(b, n)
    ensures LogsFrom(a, lo, hi) == LogsFrom(b, lo, hi)
    decreases hi - lo
  {
    if lo < hi {
      LogsAgree(a, b, lo + 1, hi);
    }
  }

  lemma {:induction false} LogsSplit(logs: map<nat, seq<Batch>>, lo: nat, mid: nat, hi: nat)
    requires lo <= mid <= hi
    ensures LogsFrom(logs, lo, hi) == LogsFrom(logs, lo, mid) + LogsFrom(logs, mid, hi)
    decreases mid - lo
  {
    if lo < mid {
      LogsSplit(logs, lo + 1, mid, hi);
      Regroup(LogOf(logs, lo), LogsFrom(logs, lo + 1, mid), LogsFrom(logs, mid, hi));
    }
  }

  lemma Regroup(a: seq<Batch>, b: seq<Batch>, c: seq<Batch>)
    ensures (a + b) + c == a + (b + c)
  {
  }

  lemma LastLog(logs: map<nat, seq<Batch>>, lo: nat, n: nat)
    requires lo <= n
    ensures LogsFrom(logs, lo, n + 1) == LogsFrom(logs, lo, n) + LogOf(logs, n)
  {
    LogsSplit(logs, lo, n, n + 1);
    assert LogsFrom(logs, n, n + 1) == LogOf(logs, n) + [];
  }

  /** An empty log, or none, at the end adds nothing. */
  lemma EmptyLogs(logs: map<nat, seq<Batch>>, lo: nat, hi: nat)
    requires forall n | lo <= n < hi :: LogOf(logs, n) == []
    ensures LogsFrom(logs, lo, hi) == []
    decreases hi - lo
  {
    if lo < hi {
      EmptyLogs(logs, lo + 1, hi);
    }
  }

  // ---------------------------------------------------------------- tables

  /** What a list of batches puts into a table. */
  function Carried(h: seq<Batch>): set<Entry> {
    set g, e | g in h && e in BatchEntries(g.ops, g.first) :: e
  }

  /** What the tables of a version hold. */
  ghost function Cover(tables: map<nat, set<Entry>>, version: set<nat>): set<Entry> {
    set n, e | n in version && n in tables && e in tables[n] :: e
  }

  lemma CoverAgree(a: map<nat, set<Entry>>, b: map<nat, set<Entry>>, version: set<nat>)
    requires version <= a.Keys && version <= b.Keys && forall n | n in version :: a[n] == b[n]
    ensures Cover(a, version) == Cover(b, version)
  {
  }

  lemma CoverUnion(tables: map<nat, set<Entry>>, v: set<nat>, w: set<nat>)
    ensures Cover(tables, v + w) == Cover(tables, v) + Cover(tables, w)
  {
  }

  lemma CoverOne(tables: map<nat, set<Entry>>, n: nat)
    requires n in tables
    ensures Cover(tables, {n}) == tables[n]
  {
  }

  lemma CarriedConcat(a: seq<Batch>, b: seq<Batch>)
    ensures Carried(a + b) == Carried(a) + Carried(b)
  {
    hide BatchEntries;
    forall e | e in Carried(a) + Carried(b) ensures e in Carried(a + b) {
      if e in Carried(a) {
        var g :| g in a && e in BatchEntries(g.ops, g.first);
        assert g in a + b;
      } else {
        var g :| g in b && e in BatchEntries(g.ops, g.first);
        assert g in a + b;
      }
    }
  }

  /** The entries of consecutive batches carry consecutive sequence numbers. */
  lemma CarriedBetween(h: seq<Batch>, i: nat, j: nat)
    requires Chained(h) && i <= j <= |h|
    ensures forall e | e in Carried(h[i..j]) :: End(h[..i]) < e.key.sequence <= End(h[..j])
  {
    hide BatchEntries, Chained, End;
    forall e | e in Carried(h[i..j]) ensures End(h[..i]) < e.key.sequence <= End(h[..j]) {
      var g :| g in h[i..j] && e in BatchEntries(g.ops, g.first);
      var k :| 0 <= k < j - i && h[i..j][k] == g;
      BatchSequences(g.ops, g.first);
      BatchPlace(h, i, i + k, j);
    }
  }

  lemma FirstOf(h: seq<Batch>, k: nat)
    requires Chained(h) && k < |h|
    ensures h[k].first == End(h[..k]) + 1
  {
  }

  lemma BatchPlace(h: seq<Batch>, i: nat, k: nat, j: nat)
    requires Chained(h) && i <= k < j <= |h|
    ensures End(h[..i]) < h[k].first && h[k].first + h[k].count <= End(h[..j]) + 1
  {
    hide Chained, End;
    FirstOf(h, k);
    assert h[..k][..i] == h[..i] && h[..j][..k + 1] == h[..k + 1];
    assert h[..k + 1] == h[..k] + [h[k]];
    EndAppend(h[..k], h[k]);
    EndGrows(h[..k], i);
    EndGrows(h[..j], k + 1);
  }

  lemma {:induction false} CarriedUnique(h: seq<Batch>, n: nat)
    requires Chained(h) && n <= |h|
    ensures Unique(Carried(h[..n]))
  {
    hide Chained, End, Carried, BatchEntries, Unique;
    if n == 0 {
      assert Carried([]) == {} by { NoneCarried(); }
      NoneUnique();
    } else {
      CarriedUnique(h, n - 1);
      CarriedBetween(h, 0, n - 1);
      CarriedBetween(h, n - 1, n);
      assert h[0..n - 1] == h[..n - 1] && h[n - 1..n] == [h[n - 1]];
      assert h[..n] == h[..n - 1] + [h[n - 1]];
      CarriedConcat(h[..n - 1], [h[n - 1]]);
      BatchSequences(h[n - 1].ops, h[n - 1].first);
      OneCarried(h[n - 1]);
      UniqueApart(Carried(h[..n - 1]), Carried([h[n - 1]]), End(h[..n - 1]));
    }
  }

  lemma NoneCarried()
    ensures Carried([]) == {}
  {
  }

  lemma NoneUnique()
    ensures Unique({})
  {
  }

  lemma OneCarried(g: Batch)
    ensures Carried([g]) == BatchEntries(g.ops, g.first)
  {
    hide BatchEntries;
    assert g in [g];
  }

  lemma UniqueApart(a: set<Entry>, b: set<Entry>, mid: nat)
    requires Unique(a) && Unique(b)
    requires (forall e | e in a :: e.key.sequence <= mid) && (forall e | e in b :: mid < e.key.sequence)
    ensures Unique(a + b) && Newer(b, a)
  {
  }

  // ---------------------------------------------------------------- tables that read like the history

  /** Nothing was written after `s`. */
  ghost predicate AllBy(S: set<Entry>, s: nat) {
    forall e | e in S :: e.key.sequence <= s
  }

  /** C holds part of H, and whoever reads the latest of it sees the latest of H. */
  ghost predicate Alike(C: set<Entry>, H: set<Entry>) {
    C <= H && forall k, s: nat | AllBy(H, s) :: Read(C, k, s) == Read(H, k, s)
  }

  lemma AlikeItself(H: set<Entry>)
    ensures Alike(H, H)
  {
  }

  lemma AlikeTransitive(A: set<Entry>, B: set<Entry>, C: set<Entry>)
    requires Alike(A, B) && Alike(B, C)
    ensures Alike(A, C)
  {
    hide Read;
    forall k, s: nat | AllBy(C, s) ensures Read(A, k, s) == Read(C, k, s) {
      assert AllBy(B, s);
    }
  }

  /** Later writes on both sides keep them alike. */
  lemma AlikeAppend(C: set<Entry>, H: set<Entry>, B: set<Entry>)
    requires Alike(C, H) && Newer(B, H) && Unique(H) && Unique(B)
    ensures Alike(C + B, H + B)
  {
    hide Read, Newest, Unique;
    assert Unique(C) by { UniqueSubset(C, H); }
    assert Newer(B, C);
    forall k, s: nat | AllBy(H + B, s) ensures Read(C + B, k, s) == Read(H + B, k, s) {
      ReadOfLayers(B, C, k, s);
      ReadOfLayers(B, H, k, s);
      assert B + C == C + B && B + H == H + B;
      assert AllBy(H, s);
    }
  }

  lemma ReadOfLayers(a: set<Entry>, b: set<Entry>, k: UserKey, s: nat)
    requires Newer(a, b) && Unique(a) && Unique(b)
    ensures Read(a + b, k, s) == if Newest(a, k, s).Some? then Read(a, k, s) else Read(b, k, s)
  {
    NewestOfLayers(a, b, k, s);
  }

  lemma NewestBeyond(S: set<Entry>, k: UserKey, s: nat, t: nat, e: Entry)
    requires AllBy(S, s) && s <= t
    ensures IsNewest(S, k, s, e) <==> IsNewest(S, k, t, e)
  {
    assert forall x | x in S :: Matches(x, k, s) <==> Matches(x, k, t);
  }

  /** Past the last write every read is the latest one. */
  lemma ReadBeyond(S: set<Entry>, k: UserKey, s: nat, t: nat)
    requires AllBy(S, s) && s <= t
    ensures Read(S, k, s) == Read(S, k, t)
  {
    var a, b := Newest(S, k, s), Newest(S, k, t);
    hide AllBy, IsNewest;
    if a.Some? {
      NewestBeyond(S, k, s, t, a.value);
      NewestIs(S, k, t, a.value);
    } else if b.Some? {
      NewestBeyond(S, k, s, t, b.value);
      NewestIs(S, k, s, b.value);
    }
  }

  /** What a compaction drops no reader of the latest data can miss. */
  lemma DropsAreAlike(I: set<Entry>, R: set<Entry>, smallest: nat, base: UserKey -> bool)
    requires Unique(I + R) && OlderIsAnnounced(I, R, base)
    ensures Alike(Survivors(I, smallest, base) + R, I + R)
  {
    hide Read, Unique, OlderIsAnnounced;
    var O := Survivors(I, smallest, base);
    assert O + R <= I + R;
    forall k, s: nat | AllBy(I + R, s) ensures Read(O + R, k, s) == Read(I + R, k, s) {
      var t := if s < smallest then smallest else s;
      assert AllBy(O + R, s);
      ReadBeyond(O + R, k, s, t);
      ReadBeyond(I + R, k, s, t);
      DropsPreserveReads(I, R, smallest, base, k, t);
    }
  }

  // ---------------------------------------------------------------- the disk holds the history

  /**
    The disk holds exactly the history `h`: the tables of the current manifest read like its first `f` batches,
    and the logs that manifest still names carry the rest in order.  No log is numbered `hi` or above.
  */
  ghost predicate Holds(d: Disk, h: seq<Batch>, f: nat, hi: nat) {
    && Chained(h) && f <= |h|
    && (forall n | n in d.logs :: n < hi)
    && match d.current
       case None => h == [] && d.logs == map[]
       case Some(m) => m in d.manifests && Keeps(d, Replay(d.manifests[m]), m, h, f, hi)
  }

  ghost predicate Keeps(d: Disk, st: Saved, m: nat, h: seq<Batch>, f: nat, hi: nat) {
    && f <= |h|
    && st.version <= d.tables.Keys
    && Alike(Cover(d.tables, st.version), Carried(h[..f]))
    && LogsFrom(d.logs, st.log, hi) == h[f..]
    && m < st.next && st.log < st.next
    && (forall n | n in st.version :: n < st.next)
    && End(h[..f]) <= st.last <= End(h)
  }

  lemma LogsWithRecord(logs: map<nat, seq<Batch>>, lo: nat, n: nat, g: Batch)
    requires n in logs && lo <= n
    ensures LogsFrom(logs[n := logs[n] + [g]], lo, n + 1) == LogsFrom(logs, lo, n + 1) + [g]
  {
    var logs' := logs[n := logs[n] + [g]];
    LastLog(logs, lo, n);
    LastLog(logs', lo, n);
    LogsAgree(logs, logs', lo, n);
    hide LogsFrom;
    Regroup(LogsFrom(logs, lo, n), logs[n], [g]);
  }

  lemma NewRecordHeld(d: Disk, h: seq<Batch>, f: nat, n: nat, g: Batch)
    requires Holds(d, h, f, n + 1) && d.current.Some? && n in d.logs && g.first == End(h) + 1
    requires Replay(d.manifests[d.current.value]).log <= n
    ensures Holds(d.(logs := d.logs[n := d.logs[n] + [g]]), h + [g], f, n + 1)
  {
    hide Chained, End, LogsFrom, Replay, Cover;
    LogsWithRecord(d.logs, Replay(d.manifests[d.current.value]).log, n, g);
    ChainedAppend(h, g);
    EndAppend(h, g);
    assert (h + [g])[..f] == h[..f] && (h + [g])[f..] == h[f..] + [g];
  }

  lemma LogsWithEmpty(logs: map<nat, seq<Batch>>, lo: nat, hi: nat, n: nat)
    requires hi <= n && forall k | k in logs :: k < hi
    ensures LogsFrom(logs[n := []], lo, n + 1) == LogsFrom(logs, lo, hi)
  {
    var logs' := logs[n := []];
    LogsAgree(logs, logs', lo, hi);
    if lo <= hi {
      LogsSplit(logs', lo, hi, n + 1);
      EmptyLogs(logs', hi, n + 1);
    } else {
      EmptyLogs(logs', lo, n + 1);
    }
  }

  lemma NewLogHeld(d: Disk, h: seq<Batch>, f: nat, hi: nat, n: nat)
    requires Holds(d, h, f, hi) && d.current.Some? && hi <= n
    ensures Holds(d.(logs := d.logs[n := []]), h, f, n + 1)
  {
    hide LogsFrom, Cover, Replay, Chained;
    LogsWithEmpty(d.logs, Replay(d.manifests[d.current.value]).log, hi, n);
  }

  /** Files the manifest does not name may come and go. */
  lemma OtherTable(d: Disk, h: seq<Batch>, f: nat, hi: nat, n: nat, t: set<Entry>)
    requires Holds(d, h, f, hi) && d.current.Some? && n !in Replay(d.manifests[d.current.value]).version
    ensures Holds(d.(tables := d.tables[n := t]), h, f, hi)
    ensures Holds(d.(tables := d.tables - {n}), h, f, hi)
  {
    var st := Replay(d.manifests[d.current.value]);
    CoverAgree(d.tables, d.tables[n := t], st.version);
    CoverAgree(d.tables, d.tables - {n}, st.version);
  }

  lemma OtherManifest(d: Disk, h: seq<Batch>, f: nat, hi: nat, m: nat, edits: seq<Edit>)
    requires Holds(d, h, f, hi) && d.current != Some(m)
    ensures Holds(d.(manifests := d.manifests[m := edits]), h, f, hi)
    ensures Holds(d.(manifests := d.manifests - {m}), h, f, hi)
  {
  }

  lemma OldLog(d: Disk, h: seq<Batch>, f: nat, hi: nat, n: nat)
    requires Holds(d, h, f, hi) && d.current.Some? && n < Replay(d.manifests[d.current.value]).log
    ensures Holds(d.(logs := d.logs - {n}), h, f, hi)
  {
    LogsAgree(d.logs, d.logs - {n}, Replay(d.manifests[d.current.value]).log, hi);
  }

  /** A record appended to the manifest: the tables it leaves carry more, and the logs it names the rest. */
  lemma NewEditHeld(d: Disk, h: seq<Batch>, f: nat, f': nat, hi: nat, e: Edit)
    requires Holds(d, h, f, hi) && d.current.Some?
    requires Keeps(d, AfterEdit(Replay(d.manifests[d.current.value]), e), d.current.value, h, f', hi)
    ensures var m := d.current.value; Holds(d.(manifests := d.manifests[m := d.manifests[m] + [e]]), h, f', hi)
  {
    ReplayAppend(d.manifests[d.current.value], e);
  }
}
