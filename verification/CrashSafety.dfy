/**
  Crash safety and file garbage collection (db/db_impl.cc, db/version_set.cc): every step that writes a file
  or changes what is known of one, and a crash between any two of them, recovery's own steps included.
*/
module CrashSafety {
  import opened InternalKeys
  import opened Batches
  import opened DropRules
  import opened Recovery

  /** How far the flush of the set-aside memtable has come; `n` is its table. */
  datatype Flush =
    | NoFlush
    | Building(n: nat)                        // in pending_outputs_, being written
    | Built(n: nat)                           // whole, out of pending_outputs_, in no version
    | Prepared(n: nat, next: nat, last: nat)  // the edit is encoded
    | Logged(n: nat)                          // the edit is in the manifest, not yet in memory

  datatype Step = Merging | Ready(next: nat, last: nat) | Recorded

  /** A compaction under way: the tables it replaces and those it has written. */
  datatype Work = Work(inputs: set<nat>, outputs: set<nat>, step: Step)

  datatype Memory = Memory(
    mem: seq<Batch>, imm: Option<seq<Batch>>, log: nat,
    version: set<nat>, pinned: seq<set<nat>>, pending: set<nat>,
    savedLog: nat, manifest: nat, next: nat, last: nat,
    inflight: Option<Batch>, logged: bool, flush: Flush, work: Option<Work>)

  datatype Stage =
    | Scanning                                // reading logs
    | LogMade(log: nat)                       // the new log exists
    | ManifestMade(log: nat)                  // so does the new manifest, still empty
    | Snapshot(log: nat)                      // which now holds the recovered version
    | Rewritten(log: nat)                     // and the edit with the new tables

  /**
    Recovery under way.  `st` is what the manifest said; logs below `at` have been read but for what is `left`
    of the one that is `open`; `read` counts the batches made into the tables `added`, and `building` is the
    table being written.
  */
  datatype Opening = Opening(
    st: Saved, next: nat, last: nat, added: set<nat>, building: Option<nat>,
    at: nat, open: Option<nat>, left: seq<Batch>, read: nat, stage: Stage)

  /** Recovery as it begins: nothing read, and one number gone to the new manifest. */
  function Fresh(st: Saved): Opening {
    Opening(st, st.next + 1, st.last, {}, None, st.log, None, [], 0, Scanning)
  }

  datatype Mode = Down | Recovering(r: Opening) | Running(m: Memory)

  // ---------------------------------------------------------------- what memory knows of the disk

  function Tail(inflight: Option<Batch>, logged: bool): seq<Batch> {
    if inflight.Some? && logged then [inflight.value] else []
  }

  function ImmOf(imm: Option<seq<Batch>>): seq<Batch> {
    if imm.Some? then imm.value else []
  }

  /** The set-aside batches that the manifest still leaves to the logs. */
  function Unsaved(imm: Option<seq<Batch>>, flush: Flush): seq<Batch> {
    if flush.Logged? then [] else ImmOf(imm)
  }

  /** The table a flush adds; an empty memtable leaves none. */
  function Adds(imm: Option<seq<Batch>>, flush: Flush): set<nat> {
    if flush.NoFlush? || Carried(ImmOf(imm)) == {} then {} else {flush.n}
  }

  /** The version the manifest describes, which memory may be one edit behind. */
  function OnDisk(version: set<nat>, imm: Option<seq<Batch>>, flush: Flush, work: Option<Work>): set<nat> {
    if flush.Logged? then version + Adds(imm, flush)
    else if work.Some? && work.value.step.Recorded? then version - work.value.inputs + work.value.outputs
    else version
  }

  ghost predicate Named(current: Option<nat>, logs: map<nat, seq<Batch>>, manifest: nat, log: nat, savedLog: nat, next: nat, hi: nat) {
    current == Some(manifest) && hi == log + 1 && log in logs && savedLog <= log < next && manifest < next
  }

  ghost predicate Below(version: set<nat>, pinned: seq<set<nat>>, pending: set<nat>, next: nat) {
    && (forall n | n in version :: n < next)
    && (forall n | n in pending :: n < next)
    && (forall v, n | v in pinned && n in v :: n < next)
    && version !! pending
    && (forall v | v in pinned :: v !! pending)
  }

  /** Garbage collection has taken no table that a live version lists. */
  ghost predicate Present(tables: map<nat, set<Entry>>, version: set<nat>, pinned: seq<set<nat>>) {
    version <= tables.Keys && forall v | v in pinned :: v <= tables.Keys
  }

  ghost predicate Logs(logs: map<nat, seq<Batch>>, log: nat, mem: seq<Batch>, tail: seq<Batch>) {
    LogOf(logs, log) == mem + tail
  }

  ghost predicate Rest(h: seq<Batch>, f: nat, imm: seq<Batch>, mem: seq<Batch>, tail: seq<Batch>) {
    f <= |h| && h[f..] == imm + (mem + tail)
  }

  ghost predicate SavedIs(manifests: map<nat, seq<Edit>>, manifest: nat, version: set<nat>, log: nat, next: nat) {
    manifest in manifests &&
    var st := Replay(manifests[manifest]);
    st.version == version && st.log == log && st.next <= next
  }

  ghost predicate Counted(h: seq<Batch>, tail: seq<Batch>, last: nat, inflight: Option<Batch>) {
    && |tail| <= |h| && h[|h| - |tail|..] == tail
    && End(h[..|h| - |tail|]) == last
    && (inflight.Some? ==> inflight.value.first == last + 1)
  }

  /** An encoded edit names numbers and a sequence that are still good when it reaches the manifest. */
  ghost predicate Stamp(n: nat, l: nat, manifest: nat, log: nat, version: set<nat>, next: nat, last: nat, end: nat) {
    && manifest < n <= next && log < n
    && (forall k | k in version :: k < n)
    && end <= l <= last
  }

  ghost predicate FlushOk(tables: map<nat, set<Entry>>, imm: Option<seq<Batch>>, flush: Flush, version: set<nat>, pending: set<nat>, next: nat) {
    && (imm.None? ==> flush.NoFlush?)
    && (flush.NoFlush? || (flush.n !in version && flush.n < next))
    && (flush.Building? ==> flush.n in pending)
    && (flush.NoFlush? || flush.Building? || flush.n !in pending)
    && (flush.NoFlush? || flush.Building? || Adds(imm, flush) <= tables.Keys)
    && (flush.NoFlush? || flush.Building? || Cover(tables, Adds(imm, flush)) == Carried(ImmOf(imm)))
  }

  ghost predicate FlushStamp(flush: Flush, manifest: nat, log: nat, version: set<nat>, next: nat, last: nat, end: nat) {
    flush.Prepared? ==> flush.n < flush.next && Stamp(flush.next, flush.last, manifest, log, version, next, last, end)
  }

  ghost predicate WorkOk(tables: map<nat, set<Entry>>, work: Option<Work>, flush: Flush, version: set<nat>, pending: set<nat>) {
    work.Some? ==>
      var w := work.value;
      && w.inputs <= version && w.outputs <= pending && w.outputs <= tables.Keys
      && (!w.step.Merging? ==> flush.NoFlush? && Alike(Cover(tables, version - w.inputs + w.outputs), Cover(tables, version)))
      && (flush.Building? ==> flush.n !in w.outputs)
  }

  ghost predicate WorkStamp(work: Option<Work>, manifest: nat, log: nat, version: set<nat>, next: nat, last: nat, end: nat) {
    work.Some? && work.value.step.Ready? ==>
      var w := work.value;
      Stamp(w.step.next, w.step.last, manifest, log, version, next, last, end) && forall n | n in w.outputs :: n < w.step.next
  }

  ghost predicate MemoryOk(d: Disk, m: Memory, h: seq<Batch>, f: nat, hi: nat) {
    var tail := Tail(m.inflight, m.logged);
    var unsaved := Unsaved(m.imm, m.flush);
    && Named(d.current, d.logs, m.manifest, m.log, m.savedLog, m.next, hi)
    && Below(m.version, m.pinned, m.pending, m.next)
    && Present(d.tables, m.version, m.pinned)
    && Logs(d.logs, m.log, m.mem, tail)
    && Rest(h, f, unsaved, m.mem, tail)
    && SavedIs(d.manifests, m.manifest, OnDisk(m.version, m.imm, m.flush, m.work), SavedLog(m), m.next)
    && Counted(h, tail, m.last, m.inflight)
    && FlushOk(d.tables, m.imm, m.flush, m.version, m.pending, m.next)
    && FlushStamp(m.flush, m.manifest, m.log, m.version, m.next, m.last, FlushEnd(h, f, unsaved))
    && WorkOk(d.tables, m.work, m.flush, m.version, m.pending)
    && WorkStamp(m.work, m.manifest, m.savedLog, m.version, m.next, m.last, FlushEnd(h, f, []))
  }

  function SavedLog(m: Memory): nat {
    if m.flush.Logged? then m.log else m.savedLog
  }

  ghost function FlushEnd(h: seq<Batch>, f: nat, imm: seq<Batch>): nat {
    if f + |imm| <= |h| then End(h[..f + |imm|]) else 0
  }

  /** Giving out a number. */
  lemma NextGrows(d: Disk, m: Memory, h: seq<Batch>, f: nat, hi: nat)
    requires MemoryOk(d, m, h, f, hi)
    ensures MemoryOk(d, m.(next := m.next + 1), h, f, hi)
  {
    hide Present, Logs, Rest, Counted, WorkOk, FlushEnd, Replay;
  }

  // ---------------------------------------------------------------- the steps of a write

  lemma BeginStep(d: Disk, m: Memory, h: seq<Batch>, f: nat, hi: nat, g: Batch)
    requires MemoryOk(d, m, h, f, hi) && m.inflight.None? && g.first == m.last + 1
    ensures MemoryOk(d, m.(inflight := Some(g), logged := false), h, f, hi)
  {
    hide Named, Below, Present, Logs, Rest, SavedIs, FlushOk, FlushStamp, WorkOk, WorkStamp;
  }

  /** The record becomes whole: the history grows, and the log with it. */
  lemma AppendStep(d: Disk, m: Memory, h: seq<Batch>, f: nat, hi: nat, g: Batch)
    requires MemoryOk(d, m, h, f, hi) && Holds(d, h, f, hi) && m.inflight == Some(g) && !m.logged
    ensures d.current.Some? && m.log in d.logs
    ensures MemoryOk(d.(logs := d.logs[m.log := d.logs[m.log] + [g]]), m.(logged := true), h + [g], f, hi)
    ensures Holds(d.(logs := d.logs[m.log := d.logs[m.log] + [g]]), h + [g], f, hi)
  {
    hide Holds, Named, Below, Present, Logs, Rest, SavedIs, FlushOk, FlushStamp, WorkOk, WorkStamp, FlushEnd, Counted, Replay, End;
    LogNeeded(d, m, h, f, hi);
    NewRecordHeld(d, h, f, m.log, g);
    NamedAppend(d.current, d.logs, m.manifest, m.log, m.savedLog, m.next, hi, g);
    LogsAppend(d.logs, m.log, m.mem, g);
    RestAppend(h, f, Unsaved(m.imm, m.flush), m.mem, g);
    FrontKept(h, g, f, Unsaved(m.imm, m.flush));
    FrontKept(h, g, f, []);
    AppendCounts(h, m.last, m.inflight, g);
  }

  lemma NamedAppend(current: Option<nat>, logs: map<nat, seq<Batch>>, manifest: nat, log: nat, savedLog: nat, next: nat, hi: nat, g: Batch)
    requires Named(current, logs, manifest, log, savedLog, next, hi) && log in logs
    ensures Named(current, logs[log := logs[log] + [g]], manifest, log, savedLog, next, hi)
  {
  }

  lemma LogsAppend(logs: map<nat, seq<Batch>>, log: nat, mem: seq<Batch>, g: Batch)
    requires Logs(logs, log, mem, []) && log in logs
    ensures Logs(logs[log := logs[log] + [g]], log, mem, [g])
  {
    assert mem + [] == mem;
  }

  lemma RestAppend(h: seq<Batch>, f: nat, imm: seq<Batch>, mem: seq<Batch>, g: Batch)
    requires Rest(h, f, imm, mem, [])
    ensures Rest(h + [g], f, imm, mem, [g])
  {
    assert mem + [] == mem;
    assert (h + [g])[f..] == h[f..] + [g];
    Recovery.Regroup(imm, mem, [g]);
  }

  lemma FrontKept(h: seq<Batch>, g: Batch, f: nat, imm: seq<Batch>)
    requires f + |imm| <= |h|
    ensures FlushEnd(h + [g], f, imm) == FlushEnd(h, f, imm)
  {
    assert (h + [g])[..f + |imm|] == h[..f + |imm|];
  }

  lemma AppendCounts(h: seq<Batch>, last: nat, inflight: Option<Batch>, g: Batch)
    requires Counted(h, [], last, inflight) && inflight == Some(g)
    ensures Counted(h + [g], [g], last, inflight) && g.first == End(h) + 1
  {
    assert h[..|h|] == h;
    assert (h + [g])[..|h|] == h;
  }

  /** What the manifest still names of the logs includes the current one. */
  lemma LogNeeded(d: Disk, m: Memory, h: seq<Batch>, f: nat, hi: nat)
    requires MemoryOk(d, m, h, f, hi)
    ensures d.current == Some(m.manifest) && m.manifest in d.manifests && Replay(d.manifests[m.manifest]).log <= m.log
    ensures hi == m.log + 1 && m.log in d.logs
    ensures Tail(m.inflight, m.logged) == [] && m.inflight.Some? ==> m.inflight.value.first == End(h) + 1
    ensures f + |Unsaved(m.imm, m.flush)| <= |h|
  {
    hide Below, Present, Logs, FlushOk, FlushStamp, WorkOk, WorkStamp;
    assert h[..|h|] == h;
  }

  /** The batch enters the memtable and its writer is told. */
  lemma AcknowledgeStep(d: Disk, m: Memory, h: seq<Batch>, f: nat, hi: nat, g: Batch)
    requires MemoryOk(d, m, h, f, hi) && m.inflight == Some(g) && m.logged
    ensures MemoryOk(d, m.(mem := m.mem + [g], last := m.last + g.count, inflight := None), h, f, hi)
  {
    hide Named, Below, Present, SavedIs, FlushOk, WorkOk;
    assert (m.mem + [g]) + [] == m.mem + [g];
    AckCounts(h, g, m.last);
    hide Logs, Rest, Counted, FlushEnd;
  }

  lemma AckCounts(h: seq<Batch>, g: Batch, last: nat)
    requires Counted(h, [g], last, Some(g))
    ensures Counted(h, [], last + g.count, None)
  {
    assert h[..|h| - 1] + [g] == h;
    EndAppend(h[..|h| - 1], g);
    assert h[..|h|] == h;
  }

  // ---------------------------------------------------------------- a new log and memtable

  lemma SwitchStep(d: Disk, m: Memory, h: seq<Batch>, f: nat, hi: nat)
    requires MemoryOk(d, m, h, f, hi) && Holds(d, h, f, hi) && m.inflight.None? && m.imm.None?
    ensures MemoryOk(d.(logs := d.logs[m.next := []]), m.(mem := [], imm := Some(m.mem), log := m.next, next := m.next + 1), h, f, m.next + 1)
    ensures Holds(d.(logs := d.logs[m.next := []]), h, f, m.next + 1)
  {
    hide Holds, Replay, Named, Below, Present, Logs, Rest, SavedIs, Counted, FlushOk, FlushStamp, WorkOk, WorkStamp, FlushEnd;
    var n, m1 := m.next, m.(next := m.next + 1);
    SwitchFacts(d, m, h, f, hi);
    NewLogHeld(d, h, f, hi, n);
    NextGrows(d, m, h, f, hi);
    SwitchNamed(d.current, d.logs, m.manifest, m.log, m.savedLog, n, hi);
    SwitchLogs(d.logs, n);
    RestSwitch(h, f, m.mem);
    SwitchFlush(d.tables, m.imm, m.flush, m.version, m.pending, n + 1, m.mem);
    NoStamps(m.flush, None);
  }

  lemma SwitchFacts(d: Disk, m: Memory, h: seq<Batch>, f: nat, hi: nat)
    requires MemoryOk(d, m, h, f, hi)
    ensures d.current.Some? && hi <= m.next && (m.imm.None? ==> m.flush.NoFlush?)
  {
    hide Below, Present, Logs, Rest, SavedIs, Counted, FlushStamp, WorkOk, WorkStamp, FlushEnd;
  }

  lemma SwitchNamed(current: Option<nat>, logs: map<nat, seq<Batch>>, manifest: nat, log: nat, savedLog: nat, n: nat, hi: nat)
    requires Named(current, logs, manifest, log, savedLog, n, hi)
    ensures Named(current, logs[n := []], manifest, n, savedLog, n + 1, n + 1)
  {
  }

  lemma SwitchLogs(logs: map<nat, seq<Batch>>, n: nat)
    ensures Logs(logs[n := []], n, [], [])
  {
  }

  lemma SwitchFlush(tables: map<nat, set<Entry>>, imm: Option<seq<Batch>>, flush: Flush, version: set<nat>, pending: set<nat>, next: nat, mem: seq<Batch>)
    requires FlushOk(tables, imm, flush, version, pending, next) && imm.None?
    ensures FlushOk(tables, Some(mem), flush, version, pending, next)
  {
  }

  lemma RestSwitch(h: seq<Batch>, f: nat, mem: seq<Batch>)
    requires Rest(h, f, [], mem, [])
    ensures Rest(h, f, mem, [], [])
  {
    assert [] + (mem + []) == mem + ([] + []);
  }

  // ---------------------------------------------------------------- the flush of the set-aside memtable

  /** NewFileNumber, pending_outputs_, and the table file begun. */
  lemma StartTableStep(d: Disk, m: Memory, h: seq<Batch>, f: nat, hi: nat, t: set<Entry>)
    requires MemoryOk(d, m, h, f, hi) && Holds(d, h, f, hi) && m.imm.Some? && m.flush.NoFlush?
    requires m.work.None? || m.work.value.step.Merging?
    ensures var n := m.next;
            MemoryOk(d.(tables := d.tables[n := t]), m.(next := n + 1, pending := m.pending + {n}, flush := Building(n)), h, f, hi)
    ensures Holds(d.(tables := d.tables[m.next := t]), h, f, hi)
  {
    hide Holds, Replay, Cover, Named, Below, Present, Logs, Rest, SavedIs, Counted, FlushOk, FlushStamp, WorkOk, WorkStamp, FlushEnd;
    var n := m.next;
    NewTableFree(d, m, h, f, hi);
    OtherTable(d, h, f, hi, n, t);
    NextGrows(d, m, h, f, hi);
    AddedNumbers(d.tables, m, n, t);
    StartedFlush(d.tables, m, n, t);
    NoStamps(Building(n), m.work);
  }

  lemma StartedFlush(tables: map<nat, set<Entry>>, m: Memory, n: nat, t: set<Entry>)
    requires FlushOk(tables, m.imm, m.flush, m.version, m.pending, n) && WorkOk(tables, m.work, m.flush, m.version, m.pending)
    requires Below(m.version, m.pinned, m.pending, n)
    requires m.imm.Some? && m.flush.NoFlush? && (m.work.None? || m.work.value.step.Merging?)
    ensures FlushOk(tables[n := t], m.imm, Building(n), m.version, m.pending + {n}, n + 1)
    ensures WorkOk(tables[n := t], m.work, Building(n), m.version, m.pending + {n})
  {
    hide Carried, Cover;
  }

  /** A number not yet given out is no table of the manifest. */
  lemma NewTableFree(d: Disk, m: Memory, h: seq<Batch>, f: nat, hi: nat)
    requires MemoryOk(d, m, h, f, hi)
    ensures d.current == Some(m.manifest) && m.manifest in d.manifests
    ensures Replay(d.manifests[m.manifest]).version == OnDisk(m.version, m.imm, m.flush, m.work)
    ensures m.next !in OnDisk(m.version, m.imm, m.flush, m.work) && m.next !in m.pending && m.next !in m.version
    ensures forall v | v in m.pinned :: m.next !in v
  {
    hide Logs, Rest, Counted, FlushEnd, Replay;
  }

  /** The table is whole, and out of pending_outputs_; an empty one is deleted. */
  lemma FinishTableStep(d: Disk, m: Memory, h: seq<Batch>, f: nat, hi: nat, n: nat)
    requires MemoryOk(d, m, h, f, hi) && Holds(d, h, f, hi) && m.flush == Building(n)
    ensures var t := Carried(ImmOf(m.imm));
            var d' := d.(tables := if t == {} then d.tables - {n} else d.tables[n := t]);
            MemoryOk(d', m.(pending := m.pending - {n}, flush := Built(n)), h, f, hi) && Holds(d', h, f, hi)
  {
    var t := Carried(ImmOf(m.imm));
    var tables' := if t == {} then d.tables - {n} else d.tables[n := t];
    BuildingFree(d, m, h, f, hi, n);
    OtherTable(d, h, f, hi, n, t);
    hide Holds, Logs, Rest, Counted, Replay, FlushEnd, Named, SavedIs, FlushStamp, WorkStamp;
    FinishedTable(d.tables, tables', m.imm, m.version, m.pending, m.next, n);
    OutputsUntouched(d.tables, tables', m.work, m.version, m.pending, n);
    assert Present(tables', m.version, m.pinned);
    assert Below(m.version, m.pinned, m.pending - {n}, m.next);
    hide Below, Present, WorkOk, FlushOk;
  }

  lemma FinishedTable(a: map<nat, set<Entry>>, b: map<nat, set<Entry>>, imm: Option<seq<Batch>>, version: set<nat>, pending: set<nat>, next: nat, n: nat)
    requires FlushOk(a, imm, Building(n), version, pending, next)
    requires b == if Carried(ImmOf(imm)) == {} then a - {n} else a[n := Carried(ImmOf(imm))]
    ensures FlushOk(b, imm, Built(n), version, pending - {n}, next)
  {
    if Carried(ImmOf(imm)) != {} {
      CoverOne(b, n);
    } else {
      assert Cover(b, {}) == {};
    }
  }

  lemma BuildingFree(d: Disk, m: Memory, h: seq<Batch>, f: nat, hi: nat, n: nat)
    requires MemoryOk(d, m, h, f, hi) && m.flush == Building(n)
    ensures d.current == Some(m.manifest) && m.manifest in d.manifests && Replay(d.manifests[m.manifest]).version == m.version
    ensures n in m.pending && n !in m.version && forall v | v in m.pinned :: n !in v
    ensures m.work.Some? ==> n !in m.work.value.outputs && m.work.value.step.Merging?
  {
    hide Logs, Rest, Counted, FlushEnd, Replay;
  }

  lemma OutputsUntouched(a: map<nat, set<Entry>>, b: map<nat, set<Entry>>, work: Option<Work>, version: set<nat>, pending: set<nat>, n: nat)
    requires WorkOk(a, work, Building(n), version, pending)
    requires work.Some? ==> work.value.step.Merging?
    requires forall k | k != n :: k in a <==> k in b
    ensures WorkOk(b, work, Built(n), version, pending - {n})
  {
  }

  lemma PrepareFlushStep(d: Disk, m: Memory, h: seq<Batch>, f: nat, hi: nat, n: nat)
    requires MemoryOk(d, m, h, f, hi) && m.flush == Built(n)
    ensures MemoryOk(d, m.(flush := Prepared(n, m.next, m.last)), h, f, hi)
  {
    CoveredByLast(d, m, h, f, hi);
    hide Present, Logs, Rest, SavedIs, Counted, WorkStamp, FlushEnd;
  }

  /** All that the tables carry and the set-aside memtable holds was counted. */
  lemma CoveredByLast(d: Disk, m: Memory, h: seq<Batch>, f: nat, hi: nat)
    requires MemoryOk(d, m, h, f, hi)
    ensures FlushEnd(h, f, Unsaved(m.imm, m.flush)) <= m.last && FlushEnd(h, f, []) <= m.last
  {
    hide Named, Below, Present, SavedIs, FlushOk, FlushStamp, WorkOk, WorkStamp, Logs, End;
    var done := h[..|h| - |Tail(m.inflight, m.logged)|];
    var k := f + |Unsaved(m.imm, m.flush)|;
    assert done[..k] == h[..k] && done[..f] == h[..f];
    EndGrows(done, k);
    EndGrows(done, f);
  }

  /** The edit of a flush: its table, and the log below which nothing more is needed. */
  function FlushRecord(m: Memory): Edit
    requires m.flush.Prepared?
  {
    Edit({}, Adds(m.imm, m.flush), Some(m.log), Some(m.flush.next), Some(m.flush.last))
  }

  function Amended(d: Disk, e: Edit): Disk
    requires d.current.Some? && d.current.value in d.manifests
  {
    d.(manifests := d.manifests[d.current.value := d.manifests[d.current.value] + [e]])
  }

  /** The edit's record becomes whole in the manifest: the tables now carry the flushed batches too. */
  lemma LogFlushStep(d: Disk, m: Memory, h: seq<Batch>, f: nat, hi: nat, n: nat)
    requires MemoryOk(d, m, h, f, hi) && Holds(d, h, f, hi) && m.flush.Prepared? && m.flush.n == n
    ensures d.current.Some? && d.current.value in d.manifests
    ensures MemoryOk(Amended(d, FlushRecord(m)), m.(flush := Logged(n)), h, f + |ImmOf(m.imm)|, hi)
    ensures Holds(Amended(d, FlushRecord(m)), h, f + |ImmOf(m.imm)|, hi)
  {
    hide Holds, Keeps, Replay, Named, Below, Present, Logs, Rest, SavedIs, Counted, FlushOk, FlushStamp, WorkOk, WorkStamp, FlushEnd;
    var e, f' := FlushRecord(m), f + |ImmOf(m.imm)|;
    FlushFacts(d, m, h, f, hi);
    FlushNumbers(d, m, h, f, hi, Replay(d.manifests[m.manifest]));
    FlushKeeps(d, m, h, f, hi);
    NewEditHeld(d, h, f, f', hi, e);
    RestFlushed(h, f, ImmOf(m.imm), m.mem, Tail(m.inflight, m.logged));
    SavedFlush(d.manifests, m, e);
    FlushMoves(d.tables, m.imm, m.flush, Logged(n), m.work, m.version, m.pending, m.next);
    NoStamps(Logged(n), m.work);
  }

  lemma FlushFacts(d: Disk, m: Memory, h: seq<Batch>, f: nat, hi: nat)
    requires MemoryOk(d, m, h, f, hi)
    ensures d.current == Some(m.manifest) && m.manifest in d.manifests
    ensures !m.flush.NoFlush? ==> m.work.None? || m.work.value.step.Merging?
  {
    hide Below, Present, Logs, Rest, Counted, FlushOk, FlushStamp, WorkStamp, FlushEnd, Replay;
  }

  lemma SavedFlush(manifests: map<nat, seq<Edit>>, m: Memory, e: Edit)
    requires SavedIs(manifests, m.manifest, m.version, m.savedLog, m.next) && m.flush.Prepared? && e == FlushRecord(m)
    requires m.flush.next <= m.next
    ensures SavedIs(manifests[m.manifest := manifests[m.manifest] + [e]], m.manifest, m.version + Adds(m.imm, m.flush), m.log, m.next)
  {
    ReplayAppend(manifests[m.manifest], e);
    hide Replay;
    assert m.version - {} == m.version;
  }

  /** From one stage of the flush to the next, with the table whole. */
  lemma FlushMoves(tables: map<nat, set<Entry>>, imm: Option<seq<Batch>>, flush: Flush, flush': Flush, work: Option<Work>, version: set<nat>,
                   pending: set<nat>, next: nat)
    requires FlushOk(tables, imm, flush, version, pending, next) && WorkOk(tables, work, flush, version, pending)
    requires (flush.Built? || flush.Prepared?) && (flush'.Prepared? || flush'.Logged?) && flush.n == flush'.n
    ensures FlushOk(tables, imm, flush', version, pending, next) && WorkOk(tables, work, flush', version, pending)
    ensures work.None? || work.value.step.Merging?
  {
  }

  lemma NoStamps(flush: Flush, work: Option<Work>)
    ensures !flush.Prepared? ==> forall manifest, log, version, next, last, end :: FlushStamp(flush, manifest, log, version, next, last, end)
    ensures work.None? || !work.value.step.Ready? ==>
              forall manifest, log, version, next, last, end :: WorkStamp(work, manifest, log, version, next, last, end)
  {
  }

  lemma RestFlushed(h: seq<Batch>, f: nat, imm: seq<Batch>, mem: seq<Batch>, tail: seq<Batch>)
    requires Rest(h, f, imm, mem, tail)
    ensures f + |imm| <= |h| && Rest(h, f + |imm|, [], mem, tail)
    ensures h[f..f + |imm|] == imm && h[..f + |imm|] == h[..f] + imm
    ensures h[f + |imm|..] == mem + tail
  {
    assert h[f..][|imm|..] == h[f + |imm|..];
    assert h[f..][..|imm|] == h[f..f + |imm|];
    assert [] + (mem + tail) == mem + tail;
  }

  lemma FlushKeeps(d: Disk, m: Memory, h: seq<Batch>, f: nat, hi: nat)
    requires MemoryOk(d, m, h, f, hi) && Holds(d, h, f, hi) && m.flush.Prepared?
    ensures d.current == Some(m.manifest) && m.manifest in d.manifests
    ensures Keeps(d, AfterEdit(Replay(d.manifests[m.manifest]), FlushRecord(m)), m.manifest, h, f + |ImmOf(m.imm)|, hi)
  {
    hide Holds, Replay, Cover, LogsFrom, Chained, End, Carried, Named, Below, Present, Logs, Rest, SavedIs, Counted, FlushOk, FlushStamp, WorkOk, WorkStamp;
    FlushFacts(d, m, h, f, hi);
    var st, imm := Replay(d.manifests[m.manifest]), ImmOf(m.imm);
    var adds := Adds(m.imm, m.flush);
    RestFlushed(h, f, imm, m.mem, Tail(m.inflight, m.logged));
    FlushCover(d, m, h, f, hi, st);
    FlushNumbers(d, m, h, f, hi, st);
    CurrentLog(d.logs, m.log, m.mem, Tail(m.inflight, m.logged));
    EndCounted(d, m, h, f, hi);
    assert st.version - {} + adds == st.version + adds;
  }

  lemma FlushCover(d: Disk, m: Memory, h: seq<Batch>, f: nat, hi: nat, st: Saved)
    requires MemoryOk(d, m, h, f, hi) && Holds(d, h, f, hi) && m.flush.Prepared?
    requires d.current == Some(m.manifest) && m.manifest in d.manifests && st == Replay(d.manifests[m.manifest])
    requires f + |ImmOf(m.imm)| <= |h| && h[..f + |ImmOf(m.imm)|] == h[..f] + ImmOf(m.imm)
    ensures st.version + Adds(m.imm, m.flush) <= d.tables.Keys
    ensures Alike(Cover(d.tables, st.version + Adds(m.imm, m.flush)), Carried(h[..f + |ImmOf(m.imm)|]))
  {
    hide Replay, Cover, LogsFrom, Chained, End, Carried, Named, Below, Present, Logs, Rest, SavedIs, Counted, FlushStamp, WorkOk, WorkStamp, FlushEnd, Alike;
    CoverUnion(d.tables, st.version, Adds(m.imm, m.flush));
    assert Chained(h) && h[f..f + |ImmOf(m.imm)|] == ImmOf(m.imm);
    MoreCarried(h, f, f + |ImmOf(m.imm)|, Cover(d.tables, st.version));
  }

  /** Tables that read like a part of the history still do when both get the batches that follow. */
  lemma MoreCarried(h: seq<Batch>, i: nat, j: nat, C: set<Entry>)
    requires Chained(h) && i <= j <= |h| && Alike(C, Carried(h[..i]))
    ensures Alike(C + Carried(h[i..j]), Carried(h[..j]))
  {
    hide Chained, End, Alike, Carried;
    CarriedUnique(h, i);
    CarriedUnique(h, j);
    assert h[..j] == h[..i] + h[i..j];
    CarriedConcat(h[..i], h[i..j]);
    UniqueSubset(Carried(h[i..j]), Carried(h[..j]));
    CarriedBetween(h, 0, i);
    CarriedBetween(h, i, j);
    assert h[0..i] == h[..i];
    UniqueApart(Carried(h[..i]), Carried(h[i..j]), End(h[..i]));
    AlikeAppend(C, Carried(h[..i]), Carried(h[i..j]));
  }

  lemma FlushNumbers(d: Disk, m: Memory, h: seq<Batch>, f: nat, hi: nat, st: Saved)
    requires MemoryOk(d, m, h, f, hi) && m.flush.Prepared?
    requires d.current == Some(m.manifest) && m.manifest in d.manifests && st == Replay(d.manifests[m.manifest])
    ensures m.manifest < m.flush.next && m.log < m.flush.next && m.flush.next <= m.next && hi == m.log + 1
    ensures forall n | n in st.version + Adds(m.imm, m.flush) :: n < m.flush.next
    ensures FlushEnd(h, f, ImmOf(m.imm)) <= m.flush.last <= m.last
    ensures SavedIs(d.manifests, m.manifest, m.version, m.savedLog, m.next)
  {
    hide Replay, Below, Present, Logs, Rest, Counted, FlushEnd, Carried;
  }

  lemma CurrentLog(logs: map<nat, seq<Batch>>, log: nat, mem: seq<Batch>, tail: seq<Batch>)
    requires Logs(logs, log, mem, tail)
    ensures LogsFrom(logs, log, log + 1) == mem + tail
  {
    LastLog(logs, log, log);
    assert [] + LogOf(logs, log) == LogOf(logs, log);
  }

  lemma EndCounted(d: Disk, m: Memory, h: seq<Batch>, f: nat, hi: nat)
    requires MemoryOk(d, m, h, f, hi)
    ensures m.last <= End(h)
  {
    hide Below, Present, SavedIs, FlushOk, FlushStamp, WorkOk, WorkStamp, Logs, Rest, Named;
    EndGrows(h, |h| - |Tail(m.inflight, m.logged)|);
  }

  /** The version with the new table becomes current, and the set-aside memtable is let go. */
  lemma InstallFlushStep(d: Disk, m: Memory, h: seq<Batch>, f: nat, hi: nat)
    requires MemoryOk(d, m, h, f, hi) && m.flush.Logged?
    ensures MemoryOk(d, m.(version := m.version + Adds(m.imm, m.flush), imm := None, flush := NoFlush, savedLog := m.log), h, f, hi)
  {
    hide Named, Below, Present, Logs, Rest, SavedIs, Counted, FlushOk, FlushStamp, WorkOk, WorkStamp, FlushEnd;
    var v := m.version + Adds(m.imm, m.flush);
    FlushFacts(d, m, h, f, hi);
    InstallNumbers(d.tables, m, v);
    InstallNamed(d.current, d.logs, m.manifest, m.log, m.savedLog, m.next, hi);
    NoStamps(NoFlush, m.work);
  }

  lemma InstallNamed(current: Option<nat>, logs: map<nat, seq<Batch>>, manifest: nat, log: nat, savedLog: nat, next: nat, hi: nat)
    requires Named(current, logs, manifest, log, savedLog, next, hi)
    ensures Named(current, logs, manifest, log, log, next, hi)
  {
  }

  lemma InstallNumbers(tables: map<nat, set<Entry>>, m: Memory, v: set<nat>)
    requires FlushOk(tables, m.imm, m.flush, m.version, m.pending, m.next) && m.flush.Logged? && v == m.version + Adds(m.imm, m.flush)
    requires Below(m.version, m.pinned, m.pending, m.next) && Present(tables, m.version, m.pinned)
    requires WorkOk(tables, m.work, m.flush, m.version, m.pending)
    ensures Below(v, m.pinned, m.pending, m.next) && Present(tables, v, m.pinned)
    ensures WorkOk(tables, m.work, NoFlush, v, m.pending)
    ensures FlushOk(tables, None, NoFlush, v, m.pending, m.next)
  {
    hide Carried, Cover;
  }

  // ---------------------------------------------------------------- compaction

  lemma StartWorkStep(d: Disk, m: Memory, h: seq<Batch>, f: nat, hi: nat, inputs: set<nat>)
    requires MemoryOk(d, m, h, f, hi) && m.flush.NoFlush? && m.work.None? && inputs <= m.version
    ensures MemoryOk(d, m.(work := Some(Work(inputs, {}, Merging))), h, f, hi)
  {
    hide Named, Below, Present, Logs, Rest, SavedIs, Counted, FlushOk, FlushStamp, FlushEnd;
  }

  /** One more output, listed in pending_outputs_ before its file is made. */
  lemma AddOutputStep(d: Disk, m: Memory, h: seq<Batch>, f: nat, hi: nat, t: set<Entry>, n: nat, w: Work, w': Work)
    requires MemoryOk(d, m, h, f, hi) && Holds(d, h, f, hi) && m.work == Some(w) && w.step.Merging?
    requires n == m.next && w' == w.(outputs := w.outputs + {n})
    ensures MemoryOk(d.(tables := d.tables[n := t]), m.(next := n + 1, pending := m.pending + {n}, work := Some(w')), h, f, hi)
    ensures Holds(d.(tables := d.tables[n := t]), h, f, hi)
  {
    hide Holds, Replay, Cover, Named, Below, Present, Logs, Rest, SavedIs, Counted, FlushOk, FlushStamp, WorkOk, WorkStamp, FlushEnd;
    NewTableFree(d, m, h, f, hi);
    OtherTable(d, h, f, hi, n, t);
    NextGrows(d, m, h, f, hi);
    AddedNumbers(d.tables, m, n, t);
    AddedFlush(d.tables, m, n, t, w, w');
    NoStamps(m.flush, Some(w'));
  }

  lemma AddedNumbers(tables: map<nat, set<Entry>>, m: Memory, n: nat, t: set<Entry>)
    requires Below(m.version, m.pinned, m.pending, n) && Present(tables, m.version, m.pinned)
    ensures Below(m.version, m.pinned, m.pending + {n}, n + 1) && Present(tables[n := t], m.version, m.pinned)
  {
  }

  lemma AddedFlush(tables: map<nat, set<Entry>>, m: Memory, n: nat, t: set<Entry>, w: Work, w': Work)
    requires FlushOk(tables, m.imm, m.flush, m.version, m.pending, n) && WorkOk(tables, m.work, m.flush, m.version, m.pending)
    requires m.work == Some(w) && w.step.Merging? && w' == w.(outputs := w.outputs + {n})
    ensures FlushOk(tables[n := t], m.imm, m.flush, m.version, m.pending + {n}, n + 1)
    ensures WorkOk(tables[n := t], Some(w'), m.flush, m.version, m.pending + {n})
  {
    hide Carried;
    if !m.flush.NoFlush? && !m.flush.Building? {
      CoverAgree(tables, tables[n := t], Adds(m.imm, m.flush));
    }
  }

  /** With the outputs in place of the inputs the tables read as before, and the edit is encoded. */
  lemma PrepareWorkStep(d: Disk, m: Memory, h: seq<Batch>, f: nat, hi: nat)
    requires MemoryOk(d, m, h, f, hi) && m.work.Some? && m.work.value.step.Merging? && m.flush.NoFlush?
    requires Alike(Cover(d.tables, m.version - m.work.value.inputs + m.work.value.outputs), Cover(d.tables, m.version))
    ensures MemoryOk(d, m.(work := Some(m.work.value.(step := Ready(m.next, m.last)))), h, f, hi)
  {
    CoveredByLast(d, m, h, f, hi);
    hide Present, Logs, Rest, SavedIs, Counted, FlushOk, FlushStamp, FlushEnd, Cover, Alike;
  }

  /** Outputs that hold what survives the drop rules read like the inputs, beside the rest of the version. */
  lemma SurvivorsAreAlike(d: Disk, m: Memory, h: seq<Batch>, f: nat, hi: nat, inputs: set<nat>, outputs: set<nat>,
                          smallest: nat, base: UserKey -> bool)
    requires Holds(d, h, f, hi) && MemoryOk(d, m, h, f, hi) && m.flush.NoFlush? && Idle(m) && inputs <= m.version
    requires Cover(d.tables, outputs) == Survivors(Cover(d.tables, inputs), smallest, base)
    requires OlderIsAnnounced(Cover(d.tables, inputs), Cover(d.tables, m.version - inputs), base)
    ensures Alike(Cover(d.tables, m.version - inputs + outputs), Cover(d.tables, m.version))
  {
    hide Holds, MemoryOk, Cover, Carried, Replay, Alike, Survivors, OlderIsAnnounced, Unique;
    NewTableSaved(d, m, h, f, hi);
    HistoryParts(d, m, h, f, hi);
    HistoryChained(d, h, f, hi);
    CarriedUnique(h, f);
    var I, R := Cover(d.tables, inputs), Cover(d.tables, m.version - inputs);
    CoverUnion(d.tables, m.version - inputs, outputs);
    CoverUnion(d.tables, m.version - inputs, inputs);
    assert m.version - inputs + inputs == m.version;
    assert I + R == Cover(d.tables, m.version);
    AlikePart(I + R, Carried(h[..f]));
    UniqueSubset(I + R, Carried(h[..f]));
    DropsAreAlike(I, R, smallest, base);
    assert Survivors(I, smallest, base) + R == Cover(d.tables, m.version - inputs + outputs);
  }

  lemma AlikePart(C: set<Entry>, H: set<Entry>)
    requires Alike(C, H)
    ensures C <= H
  {
  }

  lemma HistoryChained(d: Disk, h: seq<Batch>, f: nat, hi: nat)
    requires Holds(d, h, f, hi)
    ensures Chained(h)
  {
  }

  function WorkRecord(m: Memory): Edit
    requires m.work.Some? && m.work.value.step.Ready?
  {
    var w := m.work.value;
    Edit(w.inputs, w.outputs, Some(m.savedLog), Some(w.step.next), Some(w.step.last))
  }

  lemma LogWorkStep(d: Disk, m: Memory, h: seq<Batch>, f: nat, hi: nat)
    requires MemoryOk(d, m, h, f, hi) && Holds(d, h, f, hi) && m.work.Some? && m.work.value.step.Ready?
    ensures d.current.Some? && d.current.value in d.manifests
    ensures MemoryOk(Amended(d, WorkRecord(m)), m.(work := Some(m.work.value.(step := Recorded))), h, f, hi)
    ensures Holds(Amended(d, WorkRecord(m)), h, f, hi)
  {
    hide Holds, Keeps, Replay, Named, Below, Present, Logs, Rest, SavedIs, Counted, FlushOk, FlushStamp, WorkOk, WorkStamp, FlushEnd;
    var e := WorkRecord(m);
    FlushFacts(d, m, h, f, hi);
    WorkKeeps(d, m, h, f, hi);
    NewEditHeld(d, h, f, f, hi, e);
    WorkMoves(d.tables, m.work.value, m.flush, m.version, m.pending);
    SavedWork(d.manifests, m, e);
    NoStamps(m.flush, Some(m.work.value.(step := Recorded)));
  }

  lemma WorkMoves(tables: map<nat, set<Entry>>, w: Work, flush: Flush, version: set<nat>, pending: set<nat>)
    requires WorkOk(tables, Some(w), flush, version, pending) && w.step.Ready?
    ensures WorkOk(tables, Some(w.(step := Recorded)), flush, version, pending)
    ensures flush.NoFlush?
  {
  }

  lemma SavedWork(manifests: map<nat, seq<Edit>>, m: Memory, e: Edit)
    requires SavedIs(manifests, m.manifest, m.version, m.savedLog, m.next) && m.work.Some? && m.work.value.step.Ready? && e == WorkRecord(m)
    requires m.work.value.step.next <= m.next
    ensures SavedIs(manifests[m.manifest := manifests[m.manifest] + [e]], m.manifest,
                    m.version - m.work.value.inputs + m.work.value.outputs, m.savedLog, m.next)
  {
    ReplayAppend(manifests[m.manifest], e);
    hide Replay;
  }

  lemma WorkKeeps(d: Disk, m: Memory, h: seq<Batch>, f: nat, hi: nat)
    requires MemoryOk(d, m, h, f, hi) && Holds(d, h, f, hi) && m.work.Some? && m.work.value.step.Ready?
    ensures d.current == Some(m.manifest) && m.manifest in d.manifests && m.flush.NoFlush? && m.work.value.step.next <= m.next
    ensures SavedIs(d.manifests, m.manifest, m.version, m.savedLog, m.next)
    ensures Keeps(d, AfterEdit(Replay(d.manifests[m.manifest]), WorkRecord(m)), m.manifest, h, f, hi)
  {
    hide Replay, Cover, LogsFrom, Chained, End, Carried, Present, Logs, Counted, FlushOk, FlushStamp, Alike;
    FlushFacts(d, m, h, f, hi);
    EndCounted(d, m, h, f, hi);
    var w := m.work.value;
    AlikeTransitive(Cover(d.tables, m.version - w.inputs + w.outputs), Cover(d.tables, m.version), Carried(h[..f]));
    hide Below;
  }

  /** The version with the outputs becomes current; they leave pending_outputs_. */
  lemma InstallWorkStep(d: Disk, m: Memory, h: seq<Batch>, f: nat, hi: nat)
    requires MemoryOk(d, m, h, f, hi) && m.work.Some? && m.work.value.step.Recorded?
    ensures var w := m.work.value;
            MemoryOk(d, m.(version := m.version - w.inputs + w.outputs, pending := m.pending - w.outputs, work := None), h, f, hi)
  {
    hide Named, Logs, Rest, Counted, FlushEnd, Cover, Carried;
  }

  // ---------------------------------------------------------------- readers and garbage

  lemma PinStep(d: Disk, m: Memory, h: seq<Batch>, f: nat, hi: nat)
    requires MemoryOk(d, m, h, f, hi)
    ensures MemoryOk(d, m.(pinned := m.pinned + [m.version]), h, f, hi)
  {
    hide Named, Logs, Rest, SavedIs, Counted, FlushOk, FlushStamp, WorkOk, WorkStamp, FlushEnd;
  }

  lemma UnpinStep(d: Disk, m: Memory, h: seq<Batch>, f: nat, hi: nat, i: nat)
    requires MemoryOk(d, m, h, f, hi) && i < |m.pinned|
    ensures MemoryOk(d, m.(pinned := m.pinned[..i] + m.pinned[i + 1..]), h, f, hi)
  {
    hide Named, Logs, Rest, SavedIs, Counted, FlushOk, FlushStamp, WorkOk, WorkStamp, FlushEnd;
    var rest := m.pinned[..i] + m.pinned[i + 1..];
    assert forall v | v in rest :: v in m.pinned;
    assert Below(m.version, rest, m.pending, m.next);
  }

  /** A table in no live version and not pending may go. */
  lemma CollectTableStep(d: Disk, m: Memory, h: seq<Batch>, f: nat, hi: nat, n: nat)
    requires MemoryOk(d, m, h, f, hi) && Holds(d, h, f, hi) && m.flush.NoFlush? && (m.work.None? || m.work.value.step.Merging?)
    requires n !in m.pending && n !in m.version && forall v | v in m.pinned :: n !in v
    ensures MemoryOk(d.(tables := d.tables - {n}), m, h, f, hi) && Holds(d.(tables := d.tables - {n}), h, f, hi)
  {
    NewTableSaved(d, m, h, f, hi);
    OtherTable(d, h, f, hi, n, {});
    hide Holds, Named, Logs, Rest, SavedIs, Counted, FlushStamp, WorkStamp, FlushEnd, Below;
  }

  lemma NewTableSaved(d: Disk, m: Memory, h: seq<Batch>, f: nat, hi: nat)
    requires MemoryOk(d, m, h, f, hi) && m.flush.NoFlush? && (m.work.None? || m.work.value.step.Merging?)
    ensures d.current == Some(m.manifest) && m.manifest in d.manifests && Replay(d.manifests[m.manifest]).version == m.version
  {
    hide Below, Present, Logs, Rest, Counted, FlushOk, FlushStamp, WorkOk, WorkStamp, FlushEnd, Replay;
  }

  /** A log older than the manifest's log number may go. */
  lemma CollectLogStep(d: Disk, m: Memory, h: seq<Batch>, f: nat, hi: nat, n: nat)
    requires MemoryOk(d, m, h, f, hi) && Holds(d, h, f, hi) && m.flush.NoFlush? && n < m.savedLog
    ensures MemoryOk(d.(logs := d.logs - {n}), m, h, f, hi) && Holds(d.(logs := d.logs - {n}), h, f, hi)
  {
    OldLogs(d, m, h, f, hi);
    OldLog(d, h, f, hi, n);
    hide Holds, Below, Present, Rest, SavedIs, Counted, FlushOk, FlushStamp, WorkOk, WorkStamp, FlushEnd;
  }

  lemma OldLogs(d: Disk, m: Memory, h: seq<Batch>, f: nat, hi: nat)
    requires MemoryOk(d, m, h, f, hi) && m.flush.NoFlush?
    ensures d.current == Some(m.manifest) && m.manifest in d.manifests && Replay(d.manifests[m.manifest]).log == m.savedLog
  {
    hide Below, Present, Logs, Rest, Counted, FlushOk, FlushStamp, WorkOk, WorkStamp, FlushEnd, Replay;
  }

  /** A manifest older than the one in use may go. */
  lemma CollectManifestStep(d: Disk, m: Memory, h: seq<Batch>, f: nat, hi: nat, n: nat)
    requires MemoryOk(d, m, h, f, hi) && Holds(d, h, f, hi) && n < m.manifest
    ensures MemoryOk(d.(manifests := d.manifests - {n}), m, h, f, hi) && Holds(d.(manifests := d.manifests - {n}), h, f, hi)
  {
    FlushFacts(d, m, h, f, hi);
    OtherManifest(d, h, f, hi, n, []);
    hide Holds, Named, Below, Present, Logs, Rest, Counted, FlushOk, FlushStamp, WorkOk, WorkStamp, FlushEnd;
  }

  // ---------------------------------------------------------------- recovery

  function SnapshotRecord(version: set<nat>): Edit {
    Edit({}, version, None, None, None)
  }

  function OpenEdit(r: Opening, log: nat): Edit {
    Edit({}, r.added, Some(log), Some(r.next), Some(r.last))
  }

  ghost predicate FromManifest(d: Disk, r: Opening) {
    && d.current.Some? && d.current.value in d.manifests
    && r.st == Replay(d.manifests[d.current.value])
    && d.current.value < r.st.next < r.next && r.st.log <= r.at && r.st.log < r.st.next
    && (forall n | n in r.st.version :: n < r.st.next)
    && (forall n | n in r.added :: r.st.next < n < r.next)
    && (r.building.Some? ==> r.st.next < r.building.value < r.next && r.building.value !in r.added)
  }

  /** The tables made so far carry what has been read. */
  ghost predicate ReadSoFar(tables: map<nat, set<Entry>>, added: set<nat>, h: seq<Batch>, f: nat, read: nat, last: nat) {
    && f + read <= |h|
    && added <= tables.Keys
    && Cover(tables, added) == Carried(h[f..f + read])
    && End(h[..f + read]) <= last <= End(h)
  }

  ghost predicate ToRead(logs: map<nat, seq<Batch>>, r: Opening, h: seq<Batch>, f: nat, hi: nat) {
    && f + r.read <= |h|
    && h[f + r.read..] == r.left + LogsFrom(logs, r.at, hi)
    && (forall n | n in logs && n < r.at && r.open != Some(n) :: n < r.next)
    && (r.open.None? ==> r.left == [])
  }

  ghost predicate StageOk(d: Disk, r: Opening, h: seq<Batch>, f: nat, hi: nat) {
    match r.stage
    case Scanning => ToRead(d.logs, r, h, f, hi)
    case LogMade(log) => NewLogOk(d.logs, r, h, f, hi, log)
    case ManifestMade(log) => NewLogOk(d.logs, r, h, f, hi, log) && r.st.next in d.manifests && d.manifests[r.st.next] == []
    case Snapshot(log) =>
      && NewLogOk(d.logs, r, h, f, hi, log)
      && r.st.next in d.manifests && d.manifests[r.st.next] == [SnapshotRecord(r.st.version)]
    case Rewritten(log) =>
      && NewLogOk(d.logs, r, h, f, hi, log)
      && r.st.next in d.manifests && d.manifests[r.st.next] == [SnapshotRecord(r.st.version), OpenEdit(r, log)]
  }

  ghost predicate NewLogOk(logs: map<nat, seq<Batch>>, r: Opening, h: seq<Batch>, f: nat, hi: nat, log: nat) {
    f + r.read == |h| && hi == log + 1 && log in logs && logs[log] == [] && log < r.next
  }

  ghost predicate OpeningOk(d: Disk, r: Opening, h: seq<Batch>, f: nat, hi: nat) {
    FromManifest(d, r) && ReadSoFar(d.tables, r.added, h, f, r.read, r.last) && StageOk(d, r, h, f, hi)
  }

  lemma BeginScan(d: Disk, h: seq<Batch>, f: nat, hi: nat, st: Saved)
    requires Holds(d, h, f, hi) && d.current.Some? && st == Replay(d.manifests[d.current.value])
    ensures OpeningOk(d, Fresh(st), h, f, hi)
    ensures st.version <= d.tables.Keys
  {
    hide Replay, Chained, End, LogsFrom;
    assert h[f..f] == [];
    assert [] + LogsFrom(d.logs, st.log, hi) == LogsFrom(d.logs, st.log, hi);
  }

  /** The next log is opened. */
  lemma OpenLogStep(d: Disk, r: Opening, h: seq<Batch>, f: nat, hi: nat, n: nat)
    requires OpeningOk(d, r, h, f, hi) && Holds(d, h, f, hi) && r.stage.Scanning? && r.open.None?
    requires n in d.logs && r.at <= n && forall k | k in d.logs && r.at <= k :: n <= k
    ensures OpeningOk(d, r.(open := Some(n), left := d.logs[n], at := n + 1), h, f, hi) && n < hi
  {
    hide Replay, Chained, End, Cover, LogsFrom, ReadSoFar, Keeps;
    LogsSplit(d.logs, r.at, n, hi);
    LogsSplit(d.logs, n, n + 1, hi);
    LastLog(d.logs, n, n);
    EmptyLogs(d.logs, r.at, n);
    hide Holds;
    NothingBefore(LogsFrom(d.logs, n, n + 1), LogsFrom(d.logs, n, n), LogOf(d.logs, n));
    EmptyLogs(d.logs, n, n);
    assert [] + LogsFrom(d.logs, r.at, hi) == LogsFrom(d.logs, r.at, hi);
    assert [] + LogsFrom(d.logs, n, hi) == LogsFrom(d.logs, n, hi);
  }

  lemma NothingBefore(all: seq<Batch>, a: seq<Batch>, b: seq<Batch>)
    requires all == a + b
    ensures a == [] ==> all == b
  {
  }

  /** RecoverLogFile's running maximum over the records it inserts. */
  function MaxSequence(batches: seq<Batch>, last: nat): nat {
    if batches == [] then last
    else
      var g := batches[|batches| - 1];
      var before := MaxSequence(batches[..|batches| - 1], last);
      if g.first + g.count > before + 1 then g.first + g.count - 1 else before
  }

  lemma MaxAppend(batches: seq<Batch>, g: Batch, last: nat)
    ensures MaxSequence(batches + [g], last) ==
              var before := MaxSequence(batches, last);
              if g.first + g.count > before + 1 then g.first + g.count - 1 else before
  {
    assert (batches + [g])[..|batches|] == batches;
  }

  lemma FrontAppend(h: seq<Batch>, i: nat, j: nat)
    requires i <= j < |h| && Chained(h)
    ensures h[i..j + 1] == h[i..j] + [h[j]] && End(h[..j + 1]) == End(h[..j]) + h[j].count
    ensures h[j].first == End(h[..j]) + 1 && End(h[..j + 1]) <= End(h)
  {
    assert h[j].first == End(h[..j]) + 1;
    hide Chained, End;
    TakeOneMore(h, 0, j);
    TakeOneMore(h, i, j);
    EndAppend(h[..j], h[j]);
    EndGrows(h, j + 1);
  }

  lemma TakeOneMore(h: seq<Batch>, i: nat, j: nat)
    requires i <= j < |h|
    ensures h[i..j + 1] == h[i..j] + [h[j]]
    ensures h[0..j + 1] == h[..j + 1] && h[0..j] == h[..j]
  {
  }

  lemma {:induction false} MaxIsEnd(h: seq<Batch>, i: nat, j: nat, last: nat)
    requires Chained(h) && i <= j <= |h| && End(h[..i]) <= last <= End(h)
    ensures End(h[..j]) <= MaxSequence(h[i..j], last) <= End(h)
    decreases j
  {
    hide Chained, End;
    if i < j {
      MaxIsEnd(h, i, j - 1, last);
      FrontAppend(h, i, j - 1);
      MaxAppend(h[i..j - 1], h[j - 1], last);
    }
  }

  /** A number is drawn for a table, and its file begun. */
  lemma BeginTableStep(d: Disk, r: Opening, h: seq<Batch>, f: nat, hi: nat, t: set<Entry>)
    requires OpeningOk(d, r, h, f, hi) && Holds(d, h, f, hi) && r.stage.Scanning?
    ensures OpeningOk(d.(tables := d.tables[r.next := t]), r.(next := r.next + 1, building := Some(r.next)), h, f, hi)
    ensures Holds(d.(tables := d.tables[r.next := t]), h, f, hi)
  {
    hide Replay, Chained, End, LogsFrom, Holds, Keeps, Carried, Cover;
    OtherTable(d, h, f, hi, r.next, t);
    CoverAgree(d.tables, d.tables[r.next := t], r.added);
  }

  /** The memtable of the next `k` batches of the open log is in its table, unless it holds nothing. */
  lemma RecoverTableStep(d: Disk, r: Opening, h: seq<Batch>, f: nat, hi: nat, k: nat, t: set<Entry>, n: nat, tables': map<nat, set<Entry>>, added': set<nat>)
    requires OpeningOk(d, r, h, f, hi) && Holds(d, h, f, hi) && r.stage.Scanning? && k <= |r.left| && t == Carried(r.left[..k])
    requires r.building == Some(n)
    requires tables' == if t == {} then d.tables - {n} else d.tables[n := t]
    requires added' == if t == {} then r.added else r.added + {n}
    ensures OpeningOk(d.(tables := tables'),
              r.(building := None, added := added', left := r.left[k..], read := r.read + k, last := MaxSequence(r.left[..k], r.last)), h, f, hi)
    ensures Holds(d.(tables := tables'), h, f, hi)
  {
    hide Replay, Chained, End, LogsFrom, Holds, Keeps, Carried, Cover, MaxSequence;
    OtherTable(d, h, f, hi, n, t);
    NextChunk(d.logs, r, h, f, hi, k);
    ChunkCounted(d, h, f, hi, r.read, k, r.last);
    ChunkCovered(d.tables, tables', r.added, added', n, t, h, f, r.read, k);
  }

  lemma NextChunk(logs: map<nat, seq<Batch>>, r: Opening, h: seq<Batch>, f: nat, hi: nat, k: nat)
    requires ToRead(logs, r, h, f, hi) && k <= |r.left|
    ensures f + r.read + k <= |h| && h[f + r.read..f + r.read + k] == r.left[..k]
    ensures h[f + r.read + k..] == r.left[k..] + LogsFrom(logs, r.at, hi)
  {
    hide LogsFrom;
    var rest := h[f + r.read..];
    assert rest[..k] == h[f + r.read..f + r.read + k];
    assert rest[k..] == h[f + r.read + k..];
    assert (r.left + LogsFrom(logs, r.at, hi))[k..] == r.left[k..] + LogsFrom(logs, r.at, hi);
  }

  lemma ChunkCounted(d: Disk, h: seq<Batch>, f: nat, hi: nat, read: nat, k: nat, last: nat)
    requires Holds(d, h, f, hi) && f + read + k <= |h| && End(h[..f + read]) <= last <= End(h)
    ensures End(h[..f + read + k]) <= MaxSequence(h[f + read..f + read + k], last) <= End(h)
  {
    hide Chained, End, MaxSequence;
    MaxIsEnd(h, f + read, f + read + k, last);
  }

  lemma ChunkCovered(tables: map<nat, set<Entry>>, tables': map<nat, set<Entry>>, added: set<nat>, added': set<nat>, n: nat, t: set<Entry>,
                     h: seq<Batch>, f: nat, read: nat, k: nat)
    requires added <= tables.Keys && n !in added && f + read + k <= |h|
    requires Cover(tables, added) == Carried(h[f..f + read]) && t == Carried(h[f + read..f + read + k])
    requires tables' == if t == {} then tables - {n} else tables[n := t]
    requires added' == if t == {} then added else added + {n}
    ensures added' <= tables'.Keys && Cover(tables', added') == Carried(h[f..f + read + k])
  {
    assert h[f..f + read + k] == h[f..f + read] + h[f + read..f + read + k];
    CarriedConcat(h[f..f + read], h[f + read..f + read + k]);
    hide Carried, Cover;
    CoverAgree(tables, tables', added);
    if t != {} {
      CoverUnion(tables', added, {n});
      CoverOne(tables', n);
    }
  }

  /** MarkFileNumberUsed, when the log has been read to its end. */
  lemma CloseLogStep(d: Disk, r: Opening, h: seq<Batch>, f: nat, hi: nat, n: nat, next: nat)
    requires OpeningOk(d, r, h, f, hi) && r.stage.Scanning? && r.open == Some(n) && r.left == []
    requires next == if r.next <= n then n + 1 else r.next
    ensures OpeningOk(d, r.(open := None, next := next), h, f, hi)
  {
    hide Replay, LogsFrom, ReadSoFar;
  }

  /** No log is left to read: the new one is made. */
  lemma NewLogStep(d: Disk, r: Opening, h: seq<Batch>, f: nat, hi: nat, n: nat)
    requires OpeningOk(d, r, h, f, hi) && Holds(d, h, f, hi) && r.stage.Scanning? && r.open.None?
    requires (forall k | k in d.logs :: k < r.at) && n == r.next
    ensures OpeningOk(d.(logs := d.logs[n := []]), r.(next := n + 1, stage := LogMade(n)), h, f, n + 1)
    ensures Holds(d.(logs := d.logs[n := []]), h, f, n + 1)
  {
    hide Replay, Chained, End, LogsFrom, Keeps, ReadSoFar;
    assert forall k | k in d.logs :: k < n;
    TightBound(d, h, f, hi, n);
    NewLogHeld(d, h, f, n, n);
    EmptyLogs(d.logs, r.at, hi);
    hide Holds;
    assert |h[f + r.read..]| == 0;
  }

  /** The bound on log numbers may be any that bounds them. */
  lemma TightBound(d: Disk, h: seq<Batch>, f: nat, hi: nat, n: nat)
    requires Holds(d, h, f, hi) && d.current.Some? && forall k | k in d.logs :: k < n
    ensures Holds(d, h, f, n)
  {
    hide Replay, Chained, End, Cover;
    var lo := Replay(d.manifests[d.current.value]).log;
    var a, b := if hi <= n then hi else n, if hi <= n then n else hi;
    if lo <= a {
      LogsSplit(d.logs, lo, a, b);
      EmptyLogs(d.logs, a, b);
    } else {
      EmptyLogs(d.logs, lo, a);
      EmptyLogs(d.logs, lo, b);
    }
  }

  lemma BeginManifestStep(d: Disk, r: Opening, h: seq<Batch>, f: nat, hi: nat, log: nat)
    requires OpeningOk(d, r, h, f, hi) && Holds(d, h, f, hi) && r.stage == LogMade(log)
    ensures OpeningOk(d.(manifests := d.manifests[r.st.next := []]), r.(stage := ManifestMade(log)), h, f, hi)
    ensures Holds(d.(manifests := d.manifests[r.st.next := []]), h, f, hi)
  {
    hide Replay, Chained, End, LogsFrom, Cover, ReadSoFar, Holds;
    OtherManifest(d, h, f, hi, r.st.next, []);
  }

  lemma SnapshotStep(d: Disk, r: Opening, h: seq<Batch>, f: nat, hi: nat, log: nat)
    requires OpeningOk(d, r, h, f, hi) && Holds(d, h, f, hi) && r.stage == ManifestMade(log)
    ensures OpeningOk(d.(manifests := d.manifests[r.st.next := [SnapshotRecord(r.st.version)]]), r.(stage := Snapshot(log)), h, f, hi)
    ensures Holds(d.(manifests := d.manifests[r.st.next := [SnapshotRecord(r.st.version)]]), h, f, hi)
  {
    hide Replay, Chained, End, LogsFrom, Cover, ReadSoFar, Holds;
    OtherManifest(d, h, f, hi, r.st.next, [SnapshotRecord(r.st.version)]);
  }

  lemma RewriteStep(d: Disk, r: Opening, h: seq<Batch>, f: nat, hi: nat, log: nat)
    requires OpeningOk(d, r, h, f, hi) && Holds(d, h, f, hi) && r.stage == Snapshot(log)
    ensures r.st.next in d.manifests
    ensures OpeningOk(d.(manifests := d.manifests[r.st.next := d.manifests[r.st.next] + [OpenEdit(r, log)]]), r.(stage := Rewritten(log)), h, f, hi)
    ensures Holds(d.(manifests := d.manifests[r.st.next := d.manifests[r.st.next] + [OpenEdit(r, log)]]), h, f, hi)
  {
    hide Replay, Chained, End, LogsFrom, Cover, ReadSoFar, Holds;
    OtherManifest(d, h, f, hi, r.st.next, d.manifests[r.st.next] + [OpenEdit(r, log)]);
  }

  function Opened(r: Opening, log: nat): Memory {
    Memory([], None, log, r.st.version + r.added, [], {}, log, r.st.next, r.next, r.last, None, false, NoFlush, None)
  }

  /** CURRENT is renamed over: the new manifest counts, and the database is open. */
  lemma SetCurrentStep(d: Disk, r: Opening, h: seq<Batch>, f: nat, hi: nat, log: nat)
    requires OpeningOk(d, r, h, f, hi) && Holds(d, h, f, hi) && r.stage == Rewritten(log)
    ensures Holds(d.(current := Some(r.st.next)), h, |h|, hi)
    ensures MemoryOk(d.(current := Some(r.st.next)), Opened(r, log), h, |h|, hi)
    ensures r.last == End(h) && Alike(Cover(d.tables, r.st.version + r.added), Carried(h))
  {
    hide Replay, Chained, End, LogsFrom, Cover, Carried, MemoryOk, OpeningOk, Holds, Keeps, Alike;
    RewrittenSays(d, r, h, f, hi, log);
    RecoveredCover(d, r, h, f, hi);
    NewManifestHeld(d, r, h, f, hi, log);
    NewMemoryOk(d, r, h, f, hi, log);
  }

  lemma NewManifestHeld(d: Disk, r: Opening, h: seq<Batch>, f: nat, hi: nat, log: nat)
    requires OpeningOk(d, r, h, f, hi) && Holds(d, h, f, hi) && r.stage == Rewritten(log)
    requires r.st.next in d.manifests && Replay(d.manifests[r.st.next]) == Saved(r.st.version + r.added, log, r.next, r.last)
    requires r.st.version + r.added <= d.tables.Keys && Alike(Cover(d.tables, r.st.version + r.added), Carried(h)) && r.last == End(h)
    ensures Holds(d.(current := Some(r.st.next)), h, |h|, hi)
  {
    hide Replay, Chained, End, LogsFrom, Cover, Carried, ReadSoFar, Alike;
    assert h[..|h|] == h && h[|h|..] == [];
    CurrentLog(d.logs, log, [], []);
  }

  lemma NewMemoryOk(d: Disk, r: Opening, h: seq<Batch>, f: nat, hi: nat, log: nat)
    requires OpeningOk(d, r, h, f, hi) && r.stage == Rewritten(log)
    requires r.st.next in d.manifests && Replay(d.manifests[r.st.next]) == Saved(r.st.version + r.added, log, r.next, r.last)
    requires r.st.version + r.added <= d.tables.Keys && r.last == End(h)
    ensures MemoryOk(d.(current := Some(r.st.next)), Opened(r, log), h, |h|, hi)
  {
    hide Replay, End, Cover, OpeningOk, Named, Below, Present, Logs, Rest, SavedIs, Counted, FlushOk, FlushStamp, WorkOk, WorkStamp, FlushEnd;
    OpenedNumbers(d, r, h, f, hi, log);
    NothingWritten(h, d.logs, log);
    OpenedSaved(d, r, log);
    NothingUnderWay(d.tables, Opened(r, log), FlushEnd(h, |h|, []));
  }

  lemma NothingUnderWay(tables: map<nat, set<Entry>>, m: Memory, end: nat)
    requires m.flush.NoFlush? && m.work.None?
    ensures WorkOk(tables, m.work, m.flush, m.version, m.pending)
    ensures FlushStamp(m.flush, m.manifest, m.log, m.version, m.next, m.last, end)
    ensures WorkStamp(m.work, m.manifest, m.savedLog, m.version, m.next, m.last, end)
  {
  }

  lemma NothingWritten(h: seq<Batch>, logs: map<nat, seq<Batch>>, log: nat)
    requires log in logs && logs[log] == []
    ensures Logs(logs, log, [], []) && Rest(h, |h|, [], [], []) && Counted(h, [], End(h), None)
  {
    var none: seq<Batch> := [];
    assert none + (none + none) == none;
    assert h[|h|..] == [] && h[..|h|] == h;
  }

  lemma OpenedSaved(d: Disk, r: Opening, log: nat)
    requires r.st.next in d.manifests && Replay(d.manifests[r.st.next]) == Saved(r.st.version + r.added, log, r.next, r.last)
    ensures SavedIs(d.manifests, r.st.next, r.st.version + r.added, log, r.next)
  {
  }

  lemma OpenedNumbers(d: Disk, r: Opening, h: seq<Batch>, f: nat, hi: nat, log: nat)
    requires OpeningOk(d, r, h, f, hi) && r.stage == Rewritten(log) && r.st.version + r.added <= d.tables.Keys
    ensures Named(Some(r.st.next), d.logs, r.st.next, log, log, r.next, hi) && log in d.logs && d.logs[log] == []
    ensures Below(r.st.version + r.added, [], {}, r.next) && Present(d.tables, r.st.version + r.added, [])
    ensures FlushOk(d.tables, None, NoFlush, r.st.version + r.added, {}, r.next)
  {
    hide Replay, End, Cover, ReadSoFar;
  }

  lemma RewrittenSays(d: Disk, r: Opening, h: seq<Batch>, f: nat, hi: nat, log: nat)
    requires OpeningOk(d, r, h, f, hi) && r.stage == Rewritten(log)
    ensures r.st.next in d.manifests && Replay(d.manifests[r.st.next]) == Saved(r.st.version + r.added, log, r.next, r.last)
  {
    hide Chained, End, LogsFrom, Cover, ReadSoFar, NewLogOk, Replay;
    var a, b := SnapshotRecord(r.st.version), OpenEdit(r, log);
    ReplayAppend([], a);
    ReplayAppend([a], b);
    ReplayNone();
    assert [] + [a] == [a] && [a] + [b] == [a, b];
    assert {} - {} + r.st.version == r.st.version && r.st.version - {} + r.added == r.st.version + r.added;
  }

  lemma ReplayNone()
    ensures Replay([]) == Saved({}, 0, 0, 0)
  {
  }

  lemma RecoveredCover(d: Disk, r: Opening, h: seq<Batch>, f: nat, hi: nat)
    requires OpeningOk(d, r, h, f, hi) && Holds(d, h, f, hi) && !r.stage.Scanning?
    ensures r.st.version + r.added <= d.tables.Keys
    ensures Alike(Cover(d.tables, r.st.version + r.added), Carried(h)) && r.last == End(h)
  {
    hide Replay, Chained, End, LogsFrom, Cover, Carried, Alike;
    CoverUnion(d.tables, r.st.version, r.added);
    MoreCarried(h, f, f + r.read, Cover(d.tables, r.st.version));
    assert h[..f + r.read] == h;
  }

  // ---------------------------------------------------------------- the database and its directory

  /** Places acknowledged, and places whose record was whole when a crash took the acknowledgement. */
  ghost predicate Accounted(h: seq<Batch>, acked: set<nat>, spared: set<nat>, waiting: nat) {
    && acked !! spared && waiting <= |h|
    && forall i: nat :: i in acked || i in spared <==> i < |h| - waiting
  }

  function Waiting(mode: Mode): nat {
    if mode.Running? then |Tail(mode.m.inflight, mode.m.logged)| else 0
  }

  method Smallest(s: set<nat>) returns (n: nat)
    requires s != {}
    ensures n in s && forall k | k in s :: n <= k
  {
    n :| n in s;
    var rest := s - {n};
    while rest != {}
      invariant n in s && rest <= s && forall k | k in s && k !in rest :: n <= k
      decreases |rest|
    {
      var k :| k in rest;
      if k < n {
        n := k;
      }
      rest := rest - {k};
    }
  }

  class Store {
    var disk: Disk
    var mode: Mode

    ghost var history: seq<Batch>   // every group whose record is whole
    ghost var acked: set<nat>
    ghost var spared: set<nat>
    ghost var flushed: nat          // how many batches of the history the manifest's tables carry
    ghost var hi: nat               // log numbers lie below it

    ghost predicate Inv()
      reads this
    {
      && Holds(disk, history, flushed, hi)
      && Accounted(history, acked, spared, Waiting(mode))
      && match mode
         case Down => true
         case Recovering(r) => OpeningOk(disk, r, history, flushed, hi)
         case Running(m) => MemoryOk(disk, m, history, flushed, hi)
    }

    /** An empty directory. */
    constructor ()
      ensures Inv() && history == [] && mode == Down && disk.current == None
    {
      disk := Disk(None, map[], map[], map[]);
      mode := Down;
      history, acked, spared, flushed, hi := [], {}, {}, 0, 0;
    }

    /** The process dies: what it knew is lost, what it wrote whole is not. */
    method Crash()
      requires Inv()
      modifies this`mode, this`spared
      ensures Inv() && mode == Down
      ensures spared == old(spared) + if old(Waiting(mode)) == 0 then {} else {|history| - 1}
    {
      hide Holds, OpeningOk, MemoryOk;
      if mode.Running? && mode.m.inflight.Some? && mode.m.logged {
        spared := spared + {|history| - 1};
      }
      mode := Down;
    }

    // ---- a new database

    /** NewDB begins its manifest. */
    method BeginFirstManifest()
      requires Inv() && mode.Down? && disk.current.None?
      modifies this`disk
      ensures Inv() && disk == old(disk).(manifests := old(disk).manifests[1 := []])
    {
      hide Accounted;
      disk := disk.(manifests := disk.manifests[1 := []]);
    }

    /** NewDB writes its manifest; CURRENT does not name it yet. */
    method WriteFirstManifest()
      requires Inv() && mode.Down? && disk.current.None?
      modifies this`disk
      ensures Inv() && disk == old(disk).(manifests := old(disk).manifests[1 := [Edit({}, {}, Some(0), Some(2), Some(0))]])
    {
      hide Accounted;
      disk := disk.(manifests := disk.manifests[1 := [Edit({}, {}, Some(0), Some(2), Some(0))]]);
    }

    method SetFirstCurrent()
      requires Inv() && mode.Down? && disk.current.None?
      requires 1 in disk.manifests && disk.manifests[1] == [Edit({}, {}, Some(0), Some(2), Some(0))]
      modifies this`disk
      ensures Inv() && disk == old(disk).(current := Some(1))
    {
      hide Accounted;
      ReplayAppend([], Edit({}, {}, Some(0), Some(2), Some(0)));
      ReplayNone();
      EmptyLogs(disk.logs, 0, hi);
      assert Replay(disk.manifests[1]) == Saved({}, 0, 2, 0);
      disk := disk.(current := Some(1));
      assert Cover(disk.tables, {}) == {} == Carried(history[..0]);
      AlikeItself({});
    }

    // ---- recovery

    method ReadCurrent()
      requires Inv() && mode.Down? && disk.current.Some?
      modifies this`mode
      ensures Inv() && mode == Recovering(Fresh(Replay(disk.manifests[disk.current.value])))
    {
      hide OpeningOk, MemoryOk, Accounted, Replay;
      var st := ReadManifest(disk.manifests[disk.current.value]);
      BeginScan(disk, history, flushed, hi, st);
      hide Holds;
      mode := Recovering(Fresh(st));
    }

    method OpenLog(n: nat)
      requires Inv() && mode.Recovering? && mode.r.stage.Scanning? && mode.r.open.None?
      requires n in disk.logs && mode.r.at <= n && forall k | k in disk.logs && mode.r.at <= k :: n <= k
      modifies this`mode
      ensures Inv() && n < hi
      ensures mode == Recovering(old(mode).r.(open := Some(n), left := disk.logs[n], at := n + 1))
    {
      hide OpeningOk, MemoryOk, Accounted, Holds;
      OpenLogStep(disk, mode.r, history, flushed, hi, n);
      mode := Recovering(mode.r.(open := Some(n), left := disk.logs[n], at := n + 1));
    }

    /** A table's file is begun for the records to come; what a crash leaves of it may be anything. */
    method BeginRecoveredTable(partial: set<Entry>)
      requires Inv() && mode.Recovering? && mode.r.stage.Scanning? && mode.r.building.None?
      modifies this`disk, this`mode
      ensures Inv() && disk == old(disk).(tables := old(disk).tables[old(mode).r.next := partial])
      ensures mode == Recovering(old(mode).r.(next := old(mode).r.next + 1, building := Some(old(mode).r.next)))
    {
      hide OpeningOk, MemoryOk, Accounted, Holds;
      var r := mode.r;
      BeginTableStep(disk, r, history, flushed, hi, partial);
      disk := disk.(tables := disk.tables[r.next := partial]);
      mode := Recovering(r.(next := r.next + 1, building := Some(r.next)));
    }

    /** The table is whole: it holds the memtable of the next `k` records, or is gone if that is empty. */
    method RecoverTable(k: nat)
      requires Inv() && mode.Recovering? && mode.r.stage.Scanning? && mode.r.building.Some? && 0 < k <= |mode.r.left|
      modifies this`disk, this`mode
      ensures Inv()
      ensures var r := old(mode).r;
              var n, t := r.building.value, Carried(r.left[..k]);
              && disk == old(disk).(tables := if t == {} then old(disk).tables - {n} else old(disk).tables[n := t])
              && mode == Recovering(r.(building := None, added := if t == {} then r.added else r.added + {n},
                                       left := r.left[k..], read := r.read + k, last := MaxSequence(r.left[..k], r.last)))
    {
      hide OpeningOk, MemoryOk, Accounted, Holds, Carried, MaxSequence;
      var r := mode.r;
      var n, t := r.building.value, Carried(r.left[..k]);
      var tables := if t == {} then disk.tables - {n} else disk.tables[n := t];
      var added := if t == {} then r.added else r.added + {n};
      RecoverTableStep(disk, r, history, flushed, hi, k, t, n, tables, added);
      disk := disk.(tables := tables);
      mode := Recovering(r.(building := None, added := added, left := r.left[k..], read := r.read + k,
                            last := MaxSequence(r.left[..k], r.last)));
    }

    method CloseLog()
      requires Inv() && mode.Recovering? && mode.r.stage.Scanning? && mode.r.open.Some? && mode.r.left == []
      modifies this`mode
      ensures Inv() && mode == Recovering(old(mode).r.(open := None,
                                 next := if old(mode).r.next <= old(mode).r.open.value then old(mode).r.open.value + 1 else old(mode).r.next))
    {
      hide OpeningOk, MemoryOk, Accounted, Holds;
      var r := mode.r;
      var n := r.open.value;
      var next := if r.next <= n then n + 1 else r.next;
      CloseLogStep(disk, r, history, flushed, hi, n, next);
      mode := Recovering(r.(open := None, next := next));
    }

    method MakeNewLog()
      requires Inv() && mode.Recovering? && mode.r.stage.Scanning? && mode.r.open.None? && forall k | k in disk.logs :: k < mode.r.at
      modifies this`disk, this`mode, this`hi
      ensures Inv() && disk == old(disk).(logs := old(disk).logs[old(mode).r.next := []])
      ensures mode == Recovering(old(mode).r.(next := old(mode).r.next + 1, stage := LogMade(old(mode).r.next)))
    {
      hide OpeningOk, MemoryOk, Accounted, Holds;
      var r := mode.r;
      NewLogStep(disk, r, history, flushed, hi, r.next);
      disk := disk.(logs := disk.logs[r.next := []]);
      mode := Recovering(r.(next := r.next + 1, stage := LogMade(r.next)));
      hi := r.next + 1;
    }

    method BeginManifest()
      requires Inv() && mode.Recovering? && mode.r.stage.LogMade?
      modifies this`disk, this`mode
      ensures Inv() && mode == Recovering(old(mode).r.(stage := ManifestMade(old(mode).r.stage.log)))
      ensures disk == old(disk).(manifests := old(disk).manifests[mode.r.st.next := []])
    {
      hide OpeningOk, MemoryOk, Accounted, Holds;
      var r := mode.r;
      BeginManifestStep(disk, r, history, flushed, hi, r.stage.log);
      disk := disk.(manifests := disk.manifests[r.st.next := []]);
      mode := Recovering(r.(stage := ManifestMade(r.stage.log)));
    }

    method WriteSnapshot()
      requires Inv() && mode.Recovering? && mode.r.stage.ManifestMade?
      modifies this`disk, this`mode
      ensures Inv() && mode == Recovering(old(mode).r.(stage := Snapshot(old(mode).r.stage.log)))
      ensures disk == old(disk).(manifests := old(disk).manifests[mode.r.st.next := [SnapshotRecord(mode.r.st.version)]])
    {
      hide OpeningOk, MemoryOk, Accounted, Holds;
      var r := mode.r;
      SnapshotStep(disk, r, history, flushed, hi, r.stage.log);
      disk := disk.(manifests := disk.manifests[r.st.next := [SnapshotRecord(r.st.version)]]);
      mode := Recovering(r.(stage := Snapshot(r.stage.log)));
    }

    method WriteOpenEdit()
      requires Inv() && mode.Recovering? && mode.r.stage.Snapshot?
      modifies this`disk, this`mode
      ensures Inv() && mode == Recovering(old(mode).r.(stage := Rewritten(old(mode).r.stage.log)))
      ensures mode.r.st.next in old(disk).manifests
      ensures disk == old(disk).(manifests := old(disk).manifests[mode.r.st.next :=
                                   old(disk).manifests[mode.r.st.next] + [OpenEdit(mode.r, mode.r.stage.log)]])
    {
      hide OpeningOk, MemoryOk, Accounted, Holds;
      var r := mode.r;
      RewriteStep(disk, r, history, flushed, hi, r.stage.log);
      disk := disk.(manifests := disk.manifests[r.st.next := disk.manifests[r.st.next] + [OpenEdit(r, r.stage.log)]]);
      mode := Recovering(r.(stage := Rewritten(r.stage.log)));
    }

    /** Open for use: the tables carry the whole history, and the sequence goes on from its end. */
    method SetCurrent()
      requires Inv() && mode.Recovering? && mode.r.stage.Rewritten?
      modifies this`disk, this`mode, this`flushed
      ensures Inv() && mode == Running(Opened(old(mode).r, old(mode).r.stage.log)) && disk == old(disk).(current := Some(old(mode).r.st.next))
      ensures Alike(Cover(disk.tables, mode.m.version), Carried(history)) && mode.m.last == End(history)
    {
      hide OpeningOk, MemoryOk, Accounted, Holds, Cover, Carried, End, Alike;
      var r := mode.r;
      SetCurrentStep(disk, r, history, flushed, hi, r.stage.log);
      disk := disk.(current := Some(r.st.next));
      mode := Running(Opened(r, r.stage.log));
      flushed := |history|;
    }

    /**
      DB::Open from any state a crash can leave: every place of the history was acknowledged or had its record
      whole when the acknowledgement was lost, and every read of the recovered tables, from the last sequence
      number on, is the read of the whole history.
    */
    method Open()
      requires Inv() && mode.Down?
      modifies this
      ensures Inv() && mode.Running? && history == old(history) && acked == old(acked) && spared == old(spared)
      ensures mode.m.mem == [] && mode.m.imm == None && mode.m.last == End(history)
      ensures Cover(disk.tables, mode.m.version) <= Carried(history)
      ensures forall k, s: nat | mode.m.last <= s :: Read(Cover(disk.tables, mode.m.version), k, s) == Read(Carried(history), k, s)
    {
      hide OpeningOk, MemoryOk, Accounted, Holds, Cover, Carried, End, Alike, Read;
      if disk.current.None? {
        BeginFirstManifest();
        WriteFirstManifest();
        SetFirstCurrent();
      }
      ReadCurrent();
      ReadLogs();
      MakeNewLog();
      BeginManifest();
      WriteSnapshot();
      WriteOpenEdit();
      SetCurrent();
      HistoryChained(disk, history, flushed, hi);
      LatestReads(Cover(disk.tables, mode.m.version), history);
    }

    method ReadLogs()
      requires Inv() && mode.Recovering? && mode.r.stage.Scanning? && mode.r.open.None? && mode.r.building.None?
      modifies this`disk, this`mode
      ensures Inv() && mode.Recovering? && mode.r.stage.Scanning? && mode.r.open.None? && forall k | k in disk.logs :: k < mode.r.at
    {
      hide OpeningOk, MemoryOk, Accounted, Holds;
      var logs := set k | k in disk.logs && mode.r.at <= k;
      while logs != {}
        invariant Inv() && mode.Recovering? && mode.r.stage.Scanning? && mode.r.open.None? && mode.r.building.None?
        invariant disk.logs == old(disk).logs
        invariant forall k :: k in logs <==> k in disk.logs && mode.r.at <= k
        decreases |logs|
      {
        var n := Smallest(logs);
        OpenLog(n);
        while mode.r.left != []
          invariant Inv() && mode.Recovering? && mode.r.stage.Scanning? && mode.r.open == Some(n) && mode.r.at == n + 1
          invariant mode.r.building.None?
          invariant disk.logs == old(disk).logs
          decreases |mode.r.left|
        {
          var k :| 0 < k <= |mode.r.left|;   // as many records as fill a memtable
          BeginRecoveredTable({});
          RecoverTable(k);
        }
        CloseLog();
        logs := logs - {n};
      }
    }

    // ---- writes

    method BeginGroup(ops: seq<Op<UserKey>>)
      requires Inv() && mode.Running? && mode.m.inflight.None?
      modifies this`mode
      ensures Inv() && mode == Running(old(mode).m.(inflight := Some(Batch(old(mode).m.last + 1, ops)), logged := false))
    {
      hide MemoryOk, OpeningOk, Holds;
      var m := mode.m;
      var g := Batch(m.last + 1, ops);
      BeginStep(disk, m, history, flushed, hi, g);
      mode := Running(m.(inflight := Some(g), logged := false));
    }

    /** log_->AddRecord: the record is whole on disk. */
    method AppendRecord()
      requires Inv() && mode.Running? && mode.m.inflight.Some? && !mode.m.logged
      modifies this`disk, this`mode, this`history
      ensures Inv() && mode == Running(old(mode).m.(logged := true))
      ensures history == old(history) + [mode.m.inflight.value]
      ensures mode.m.log in old(disk).logs
      ensures disk == old(disk).(logs := old(disk).logs[mode.m.log := old(disk).logs[mode.m.log] + [mode.m.inflight.value]])
    {
      hide MemoryOk, OpeningOk, Holds;
      var m := mode.m;
      var g := m.inflight.value;
      AppendStep(disk, m, history, flushed, hi, g);
      disk := disk.(logs := disk.logs[m.log := disk.logs[m.log] + [g]]);
      mode := Running(m.(logged := true));
      history := history + [g];
    }

    /** The group is in the memtable, and its writers are told. */
    method Acknowledge()
      requires Inv() && mode.Running? && mode.m.inflight.Some? && mode.m.logged
      modifies this`mode, this`acked
      ensures Inv() && acked == old(acked) + {|history| - 1} && history != []
      ensures var m := old(mode).m;
              mode == Running(m.(mem := m.mem + [m.inflight.value], last := m.last + m.inflight.value.count, inflight := None))
      ensures history[|history| - 1] == old(mode).m.inflight.value
    {
      hide MemoryOk, OpeningOk, Holds;
      var m := mode.m;
      var g := m.inflight.value;
      LastLogged(disk, m, history, flushed, hi, g);
      AcknowledgeStep(disk, m, history, flushed, hi, g);
      acked := acked + {|history| - 1};
      mode := Running(m.(mem := m.mem + [g], last := m.last + g.count, inflight := None));
    }

    /** MakeRoomForWrite: a new log, and the memtable set aside. */
    method SwitchMemTable()
      requires Inv() && mode.Running? && mode.m.inflight.None? && mode.m.imm.None?
      modifies this`disk, this`mode, this`hi
      ensures Inv() && disk == old(disk).(logs := old(disk).logs[old(mode).m.next := []])
      ensures var m := old(mode).m;
              mode == Running(m.(mem := [], imm := Some(m.mem), log := m.next, next := m.next + 1))
    {
      hide MemoryOk, OpeningOk, Holds;
      var m := mode.m;
      SwitchStep(disk, m, history, flushed, hi);
      disk := disk.(logs := disk.logs[m.next := []]);
      mode := Running(m.(mem := [], imm := Some(m.mem), log := m.next, next := m.next + 1));
      hi := m.next + 1;
    }

    // ---- CompactMemTable

    /** The table's file is begun; what a crash leaves of it may be anything. */
    method StartTable(partial: set<Entry>)
      requires Inv() && mode.Running? && mode.m.imm.Some? && mode.m.flush.NoFlush? && Idle(mode.m)
      modifies this`disk, this`mode
      ensures Inv() && disk == old(disk).(tables := old(disk).tables[old(mode).m.next := partial])
      ensures var m := old(mode).m;
              mode == Running(m.(next := m.next + 1, pending := m.pending + {m.next}, flush := Building(m.next)))
    {
      hide MemoryOk, OpeningOk, Holds, Accounted;
      var m := mode.m;
      var n := m.next;
      StartTableStep(disk, m, history, flushed, hi, partial);
      disk := disk.(tables := disk.tables[n := partial]);
      mode := Running(m.(next := n + 1, pending := m.pending + {n}, flush := Building(n)));
    }

    method FinishTable()
      requires Inv() && mode.Running? && mode.m.flush.Building?
      modifies this`disk, this`mode
      ensures Inv()
      ensures var m := old(mode).m;
              var n, t := m.flush.n, Carried(ImmOf(m.imm));
              && mode == Running(m.(pending := m.pending - {n}, flush := Built(n)))
              && disk == old(disk).(tables := if t == {} then old(disk).tables - {n} else old(disk).tables[n := t])
    {
      hide MemoryOk, OpeningOk, Holds, Accounted;
      var m := mode.m;
      var n := m.flush.n;
      FinishTableStep(disk, m, history, flushed, hi, n);
      var t := Carried(ImmOf(m.imm));
      disk := disk.(tables := if t == {} then disk.tables - {n} else disk.tables[n := t]);
      mode := Running(m.(pending := m.pending - {n}, flush := Built(n)));
    }

    method PrepareFlush()
      requires Inv() && mode.Running? && mode.m.flush.Built?
      modifies this`mode
      ensures Inv() && mode == Running(old(mode).m.(flush := Prepared(old(mode).m.flush.n, old(mode).m.next, old(mode).m.last)))
    {
      hide MemoryOk, OpeningOk, Holds, Accounted;
      var m := mode.m;
      PrepareFlushStep(disk, m, history, flushed, hi, m.flush.n);
      mode := Running(m.(flush := Prepared(m.flush.n, m.next, m.last)));
    }

    /** The manifest's record is whole: the tables now carry the set-aside batches, and their log is not needed. */
    method LogFlush()
      requires Inv() && mode.Running? && mode.m.flush.Prepared?
      modifies this`disk, this`mode, this`flushed
      ensures Inv() && mode == Running(old(mode).m.(flush := Logged(old(mode).m.flush.n)))
      ensures old(disk).current.Some? && old(disk).current.value in old(disk).manifests
      ensures disk == Amended(old(disk), FlushRecord(old(mode).m))
      ensures flushed == old(flushed) + |ImmOf(mode.m.imm)|
    {
      hide MemoryOk, OpeningOk, Holds, Accounted;
      var m := mode.m;
      LogFlushStep(disk, m, history, flushed, hi, m.flush.n);
      disk := Amended(disk, FlushRecord(m));
      mode := Running(m.(flush := Logged(m.flush.n)));
      flushed := flushed + |ImmOf(m.imm)|;
    }

    method InstallFlush()
      requires Inv() && mode.Running? && mode.m.flush.Logged?
      modifies this`mode
      ensures Inv()
      ensures var m := old(mode).m;
              mode == Running(m.(version := m.version + Adds(m.imm, m.flush), imm := None, flush := NoFlush, savedLog := m.log))
    {
      hide MemoryOk, OpeningOk, Holds, Accounted;
      var m := mode.m;
      InstallFlushStep(disk, m, history, flushed, hi);
      mode := Running(m.(version := m.version + Adds(m.imm, m.flush), imm := None, flush := NoFlush, savedLog := m.log));
    }

    // ---- compaction

    method StartCompaction(inputs: set<nat>)
      requires Inv() && mode.Running? && mode.m.flush.NoFlush? && mode.m.work.None? && inputs <= mode.m.version
      modifies this`mode
      ensures Inv() && mode == Running(old(mode).m.(work := Some(Work(inputs, {}, Merging))))
    {
      hide MemoryOk, OpeningOk, Holds, Accounted;
      StartWorkStep(disk, mode.m, history, flushed, hi, inputs);
      mode := Running(mode.m.(work := Some(Work(inputs, {}, Merging))));
    }

    method AddOutput(t: set<Entry>)
      requires Inv() && mode.Running? && mode.m.work.Some? && mode.m.work.value.step.Merging?
      modifies this`disk, this`mode
      ensures Inv() && disk == old(disk).(tables := old(disk).tables[old(mode).m.next := t])
      ensures var m := old(mode).m;
              mode == Running(m.(next := m.next + 1, pending := m.pending + {m.next},
                                 work := Some(m.work.value.(outputs := m.work.value.outputs + {m.next}))))
    {
      hide MemoryOk, OpeningOk, Holds, Accounted;
      var m := mode.m;
      var n, w := m.next, m.work.value;
      var w' := w.(outputs := w.outputs + {n});
      AddOutputStep(disk, m, history, flushed, hi, t, n, w, w');
      disk := disk.(tables := disk.tables[n := t]);
      mode := Running(m.(next := n + 1, pending := m.pending + {n}, work := Some(w')));
    }

    /**
      The outputs hold what DoCompactionWork keeps of the inputs: the survivors at the smallest snapshot, where
      `base` announces every older version outside the inputs.
    */
    method PrepareCompaction(ghost smallest: nat, ghost base: UserKey -> bool)
      requires Inv() && mode.Running? && mode.m.work.Some? && mode.m.work.value.step.Merging? && mode.m.flush.NoFlush?
      requires Cover(disk.tables, mode.m.work.value.outputs) == Survivors(Cover(disk.tables, mode.m.work.value.inputs), smallest, base)
      requires OlderIsAnnounced(Cover(disk.tables, mode.m.work.value.inputs), Cover(disk.tables, mode.m.version - mode.m.work.value.inputs), base)
      modifies this`mode
      ensures Inv()
      ensures var m := old(mode).m;
              mode == Running(m.(work := Some(m.work.value.(step := Ready(m.next, m.last)))))
    {
      hide MemoryOk, OpeningOk, Holds, Accounted, Cover, Survivors, OlderIsAnnounced, Alike;
      var m := mode.m;
      WorkInputs(disk, m, history, flushed, hi);
      SurvivorsAreAlike(disk, m, history, flushed, hi, m.work.value.inputs, m.work.value.outputs, smallest, base);
      PrepareWorkStep(disk, m, history, flushed, hi);
      mode := Running(m.(work := Some(m.work.value.(step := Ready(m.next, m.last)))));
    }

    method LogCompaction()
      requires Inv() && mode.Running? && mode.m.work.Some? && mode.m.work.value.step.Ready?
      modifies this`disk, this`mode
      ensures Inv() && mode == Running(old(mode).m.(work := Some(old(mode).m.work.value.(step := Recorded))))
      ensures old(disk).current.Some? && old(disk).current.value in old(disk).manifests
      ensures disk == Amended(old(disk), WorkRecord(old(mode).m))
    {
      hide MemoryOk, OpeningOk, Holds, Accounted;
      var m := mode.m;
      LogWorkStep(disk, m, history, flushed, hi);
      disk := Amended(disk, WorkRecord(m));
      mode := Running(m.(work := Some(m.work.value.(step := Recorded))));
    }

    method InstallCompaction()
      requires Inv() && mode.Running? && mode.m.work.Some? && mode.m.work.value.step.Recorded?
      modifies this`mode
      ensures Inv()
      ensures var m := old(mode).m;
              var w := m.work.value;
              mode == Running(m.(version := m.version - w.inputs + w.outputs, pending := m.pending - w.outputs, work := None))
    {
      hide MemoryOk, OpeningOk, Holds, Accounted;
      var m := mode.m;
      var w := m.work.value;
      InstallWorkStep(disk, m, history, flushed, hi);
      mode := Running(m.(version := m.version - w.inputs + w.outputs, pending := m.pending - w.outputs, work := None));
    }

    // ---- readers

    /** A read or an iterator takes a reference to the current version. */
    method Pin()
      requires Inv() && mode.Running?
      modifies this`mode
      ensures Inv() && mode == Running(old(mode).m.(pinned := old(mode).m.pinned + [old(mode).m.version]))
    {
      hide MemoryOk, OpeningOk, Holds, Accounted;
      PinStep(disk, mode.m, history, flushed, hi);
      mode := Running(mode.m.(pinned := mode.m.pinned + [mode.m.version]));
    }

    method Unpin(i: nat)
      requires Inv() && mode.Running? && i < |mode.m.pinned|
      modifies this`mode
      ensures Inv() && mode == Running(old(mode).m.(pinned := old(mode).m.pinned[..i] + old(mode).m.pinned[i + 1..]))
    {
      hide MemoryOk, OpeningOk, Holds, Accounted;
      UnpinStep(disk, mode.m, history, flushed, hi, i);
      mode := Running(mode.m.(pinned := mode.m.pinned[..i] + mode.m.pinned[i + 1..]));
    }

    // ---- DeleteObsoleteFiles, file by file, when the background thread calls it

    method CollectTable(n: nat)
      requires Inv() && mode.Running? && MayCollect(mode.m)
      modifies this`disk
      ensures Inv() && mode == old(mode)
      ensures disk == old(disk).(tables := if Live(mode.m, n) then old(disk).tables else old(disk).tables - {n})
    {
      hide MemoryOk, OpeningOk, Holds, Accounted;
      if !Live(mode.m, n) {
        CollectTableStep(disk, mode.m, history, flushed, hi, n);
        disk := disk.(tables := disk.tables - {n});
      }
    }

    method CollectLog(n: nat)
      requires Inv() && mode.Running? && MayCollect(mode.m)
      modifies this`disk
      ensures Inv() && mode == old(mode) && disk == old(disk).(logs := if n >= mode.m.savedLog then old(disk).logs else old(disk).logs - {n})
    {
      hide MemoryOk, OpeningOk, Holds, Accounted;
      if n < mode.m.savedLog {
        CollectLogStep(disk, mode.m, history, flushed, hi, n);
        disk := disk.(logs := disk.logs - {n});
      }
    }

    method CollectManifest(n: nat)
      requires Inv() && mode.Running? && MayCollect(mode.m)
      modifies this`disk
      ensures Inv() && mode == old(mode) && disk == old(disk).(manifests := if n >= mode.m.manifest then old(disk).manifests else old(disk).manifests - {n})
    {
      hide MemoryOk, OpeningOk, Holds, Accounted;
      if n < mode.m.manifest {
        CollectManifestStep(disk, mode.m, history, flushed, hi, n);
        disk := disk.(manifests := disk.manifests - {n});
      }
    }
  }

  lemma WorkInputs(d: Disk, m: Memory, h: seq<Batch>, f: nat, hi: nat)
    requires MemoryOk(d, m, h, f, hi) && m.work.Some?
    ensures m.work.value.inputs <= m.version
  {
    hide Named, Below, Present, Logs, Rest, SavedIs, Counted, FlushOk, FlushStamp, WorkStamp, FlushEnd, Alike;
  }

  /** Tables like the history read as it does from its last sequence number on. */
  lemma LatestReads(C: set<Entry>, h: seq<Batch>)
    requires Chained(h) && Alike(C, Carried(h))
    ensures C <= Carried(h)
    ensures forall k, s: nat | End(h) <= s :: Read(C, k, s) == Read(Carried(h), k, s)
  {
    assert h[..|h|] == h && h[0..|h|] == h;
    hide Chained, End, Carried, Read;
    CarriedBetween(h, 0, |h|);
    forall k, s: nat | End(h) <= s ensures Read(C, k, s) == Read(Carried(h), k, s) {
      assert AllBy(Carried(h), s);
    }
  }

  predicate Idle(m: Memory) {
    m.work.None? || m.work.value.step.Merging?
  }

  /** One background call runs at a time, so none is between writing a table and installing it. */
  predicate MayCollect(m: Memory) {
    m.flush.NoFlush? && Idle(m)
  }

  /** pending_outputs_ and every version still referenced. */
  predicate Live(m: Memory, n: nat) {
    n in m.pending || n in m.version || exists i :: 0 <= i < |m.pinned| && n in m.pinned[i]
  }

  lemma LastLogged(d: Disk, m: Memory, h: seq<Batch>, f: nat, hi: nat, g: Batch)
    requires MemoryOk(d, m, h, f, hi) && m.inflight == Some(g) && m.logged
    ensures |h| > 0 && h[|h| - 1] == g
  {
    hide Named, Below, Present, Logs, Rest, SavedIs, FlushOk, FlushStamp, WorkOk, WorkStamp, FlushEnd;
    assert h[|h| - 1..][0] == g;
  }

  /**
    In every state a run can reach: no table that a live version lists is missing, nor one that a finished
    flush has yet to install; and the tables with the two memtables read like the history.
  */
  lemma NothingLost(d: Disk, m: Memory, h: seq<Batch>, f: nat, hi: nat)
    requires Holds(d, h, f, hi) && MemoryOk(d, m, h, f, hi)
    ensures m.version <= d.tables.Keys && forall v | v in m.pinned :: v <= d.tables.Keys
    ensures m.flush.Built? || m.flush.Prepared? ==> Adds(m.imm, m.flush) <= d.tables.Keys
    ensures m.flush.NoFlush? && Idle(m) ==>
              Alike(Cover(d.tables, m.version) + Carried(ImmOf(m.imm) + (m.mem + Tail(m.inflight, m.logged))), Carried(h))
  {
    TablesPresent(d, m, h, f, hi);
    hide MemoryOk, Holds, Cover, Carried, Replay, Alike;
    if m.flush.NoFlush? && Idle(m) {
      NewTableSaved(d, m, h, f, hi);
      HistoryParts(d, m, h, f, hi);
      HistoryChained(d, h, f, hi);
      MoreCarried(h, f, |h|, Cover(d.tables, m.version));
      assert h[..|h|] == h && h[f..|h|] == h[f..];
    }
  }

  lemma TablesPresent(d: Disk, m: Memory, h: seq<Batch>, f: nat, hi: nat)
    requires MemoryOk(d, m, h, f, hi)
    ensures m.version <= d.tables.Keys && forall v | v in m.pinned :: v <= d.tables.Keys
    ensures m.flush.Built? || m.flush.Prepared? ==> Adds(m.imm, m.flush) <= d.tables.Keys
  {
    hide Named, Below, Logs, Rest, SavedIs, Counted, FlushStamp, WorkOk, WorkStamp, FlushEnd, Cover, Carried;
  }

  lemma HistoryParts(d: Disk, m: Memory, h: seq<Batch>, f: nat, hi: nat)
    requires Holds(d, h, f, hi) && MemoryOk(d, m, h, f, hi) && m.flush.NoFlush?
    requires d.current == Some(m.manifest) && m.manifest in d.manifests && Replay(d.manifests[m.manifest]).version == m.version
    ensures f <= |h| && Alike(Cover(d.tables, m.version), Carried(h[..f]))
    ensures h[f..] == ImmOf(m.imm) + (m.mem + Tail(m.inflight, m.logged))
  {
    hide Named, Below, Present, Logs, SavedIs, Counted, FlushOk, FlushStamp, WorkOk, WorkStamp, FlushEnd, Cover, Carried, Replay, Chained, LogsFrom, Alike;
  }
}
