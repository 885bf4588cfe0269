/**
  The writer queue (DBImpl::Write and BuildBatchGroup in db/db_impl.cc).  The writer at the front commits its
  batch together with those of writers behind it; while it logs and applies the group without the lock, more
  writers may queue up.
*/
module GroupCommit {
  import opened InternalKeys
  import opened Batches
  import opened Database

  /** A call of Write: a batch with its size in bytes, or none to wait for the memtable to be switched. */
  datatype Request = Request(batch: Option<seq<Op<UserKey>>>, bytes: nat, sync: bool)

  function OpsOf(r: Request): seq<Op<UserKey>> {
    if r.batch.Some? then r.batch.value else []
  }

  function BytesOf(r: Request): nat {
    if r.batch.Some? then r.bytes else 0
  }

  /** The operations of several requests, one after another. */
  function Joined(rs: seq<Request>): seq<Op<UserKey>> {
    if rs == [] then [] else Joined(rs[..|rs| - 1]) + OpsOf(rs[|rs| - 1])
  }

  function TotalBytes(rs: seq<Request>): nat {
    if rs == [] then 0 else TotalBytes(rs[..|rs| - 1]) + BytesOf(rs[|rs| - 1])
  }

  /** A megabyte, or little more than a small leader's own batch. */
  function SizeLimit(first: Request): nat {
    if BytesOf(first) <= 0x2_0000 then BytesOf(first) + 0x2_0000 else 0x10_0000
  }

  /** The first `n` waiting requests can be committed by the first of them. */
  ghost predicate Groupable(rs: seq<Request>, n: nat) {
    && 1 <= n <= |rs|
    && (forall i | 1 <= i < n && rs[i].sync :: rs[0].sync)
    && (forall i | 1 <= i < n && rs[i].batch.Some? :: TotalBytes(rs[..i + 1]) <= SizeLimit(rs[0]))
  }

  /** BuildBatchGroup: the largest group the leader may take, its batches joined in queue order. */
  method BuildBatchGroup(waiting: seq<Request>) returns (n: nat, updates: seq<Op<UserKey>>)
    requires waiting != [] && waiting[0].batch.Some?
    ensures Groupable(waiting, n)
    ensures forall m: nat | Groupable(waiting, m) :: m <= n
    ensures updates == Joined(waiting[..n])
  {
    hide TotalBytes, Joined, Groupable;
    var first := waiting[0];
    updates := first.batch.value;
    var size := first.bytes;
    var max := 0x10_0000;
    if size <= 0x2_0000 {
      max := size + 0x2_0000;
    }
    n := 1;
    FirstOf(waiting);
    while n < |waiting|
      invariant 1 <= n <= |waiting| && Groupable(waiting, n)
      invariant updates == Joined(waiting[..n]) && size == TotalBytes(waiting[..n])
    {
      var w := waiting[n];
      OneMore(waiting, n);
      GroupGrows(waiting, n);
      if w.sync && !first.sync {
        break;
      }
      if w.batch.Some? {
        size := size + w.bytes;
        if size > max {
          break;
        }
        updates := updates + w.batch.value;
      }
      n := n + 1;
    }
    LargestGroup(waiting, n);
  }

  /** A group can take one more request unless that one is synced and the leader is not, or it is too big. */
  lemma GroupGrows(rs: seq<Request>, n: nat)
    requires Groupable(rs, n) && n < |rs|
    ensures Groupable(rs, n + 1) <==>
              (rs[n].sync ==> rs[0].sync) && (rs[n].batch.Some? ==> TotalBytes(rs[..n + 1]) <= SizeLimit(rs[0]))
  {
    hide TotalBytes;
  }

  lemma LargestGroup(rs: seq<Request>, n: nat)
    requires Groupable(rs, n) && (n == |rs| || !Groupable(rs, n + 1))
    ensures forall m: nat | Groupable(rs, m) :: m <= n
  {
    hide TotalBytes;
    forall m: nat | Groupable(rs, m) ensures m <= n {
      if m > n {
        SmallerGroup(rs, m, n + 1);
      }
    }
  }

  lemma SmallerGroup(rs: seq<Request>, m: nat, n: nat)
    requires Groupable(rs, m) && 1 <= n <= m
    ensures Groupable(rs, n)
  {
    hide TotalBytes;
  }

  /**
    A call with no batch, which asks for the memtable to be switched, is no bar to a group: right behind a leader
    it is answered with the leader's group, and MakeRoomForWrite is never run for it.
  */
  lemma SwitchRequestRides(rs: seq<Request>, n: nat)
    requires Groupable(rs, n) && n < |rs| && rs[n].batch.None? && (rs[n].sync ==> rs[0].sync)
    ensures Groupable(rs, n + 1) && Joined(rs[..n + 1]) == Joined(rs[..n])
  {
    GroupGrows(rs, n);
    OneMore(rs, n);
  }

  /** One write waits, and behind it a call that asks for the memtable to be switched. */
  const SWITCH_QUEUE: seq<Request> := [Request(Some([Put(1.0, [7])]), 20, false), Request(None, 0, false)]

  /** The largest group takes both, and writes just what the first would have written alone. */
  lemma SwitchNotMade()
    ensures Groupable(SWITCH_QUEUE, 2) && forall m: nat | Groupable(SWITCH_QUEUE, m) :: m <= 2
    ensures Joined(SWITCH_QUEUE) == [Put(1.0, [7])]
  {
    FirstOf(SWITCH_QUEUE);
    SwitchRequestRides(SWITCH_QUEUE, 1);
    assert SWITCH_QUEUE[..2] == SWITCH_QUEUE;
  }

  /** Just when it is: of the group the leader takes, it is part unless it is synced and the leader is not. */
  lemma SwitchRequestRidesExactly(rs: seq<Request>, n: nat, i: nat)
    requires Groupable(rs, n) && forall m: nat | Groupable(rs, m) :: m <= n
    requires 1 <= i <= n && i < |rs| && rs[i].batch.None?
    ensures i < n <==> (rs[i].sync ==> rs[0].sync)
  {
    hide TotalBytes;
    if i == n {
      GroupGrows(rs, n);
    }
  }

  lemma FirstOf(rs: seq<Request>)
    requires rs != []
    ensures Joined(rs[..1]) == OpsOf(rs[0]) && TotalBytes(rs[..1]) == BytesOf(rs[0]) && Groupable(rs, 1)
  {
    assert rs[..1][..0] == [];
    assert [] + OpsOf(rs[0]) == OpsOf(rs[0]);
  }

  lemma OneMore(rs: seq<Request>, n: nat)
    requires n < |rs|
    ensures Joined(rs[..n + 1]) == Joined(rs[..n]) + OpsOf(rs[n])
    ensures TotalBytes(rs[..n + 1]) == TotalBytes(rs[..n]) + BytesOf(rs[n])
    ensures OpsOf(rs[n]) == [] ==> Joined(rs[..n + 1]) == Joined(rs[..n])
  {
    assert rs[..n + 1][..n] == rs[..n];
  }

  // ---------------------------------------------------------------- what was committed

  /** Requests `from` up to `to` answered together; `ops` take the sequence numbers from `first` on. */
  datatype Group = Group(from: nat, to: nat, first: nat, ops: seq<Op<UserKey>>, ok: bool)

  /** The last sequence number given out. */
  ghost function LastOf(groups: seq<Group>, base: nat): nat {
    if groups == [] then base else LastOf(groups[..|groups| - 1], base) + |groups[|groups| - 1].ops|
  }

  ghost function ServedBy(groups: seq<Group>): nat {
    if groups == [] then 0 else groups[|groups| - 1].to
  }

  /** What a group that succeeded leaves in the memtable. */
  ghost function Effect(g: Group): set<Entry> {
    if g.ok then BatchEntries(g.ops, g.first) else {}
  }

  ghost function Effects(groups: seq<Group>): set<Entry> {
    if groups == [] then {} else Effects(groups[..|groups| - 1]) + Effect(groups[|groups| - 1])
  }

  /** A group as the queue formed it. */
  ghost predicate FairGroup(requests: seq<Request>, g: Group) {
    && g.from < g.to <= |requests|
    && (forall i | g.from < i < g.to && requests[i].sync :: requests[g.from].sync)
    && (g.ops == [] || (requests[g.from].batch.Some? && g.ops == Joined(requests[g.from..g.to])))
    && (g.ok && requests[g.from].batch.Some? ==> g.ops == Joined(requests[g.from..g.to]))
  }

  /** Groups follow one another in queue order, and their sequence numbers too. */
  ghost predicate InOrder(groups: seq<Group>, requests: seq<Request>, base: nat) {
    forall i | 0 <= i < |groups| ::
      && FairGroup(requests, groups[i])
      && groups[i].from == ServedBy(groups[..i])
      && groups[i].first == LastOf(groups[..i], base) + 1
  }

  ghost predicate Answered(groups: seq<Group>, answers: seq<Option<bool>>) {
    forall i, j | 0 <= i < |groups| && groups[i].from <= j < groups[i].to && j < |answers| :: answers[j] == Some(groups[i].ok)
  }

  ghost predicate Waiting(writers: seq<nat>, answers: seq<Option<bool>>, requests: seq<Request>, served: nat) {
    && |answers| == |requests| == served + |writers|
    && (forall j | 0 <= j < |writers| :: writers[j] == served + j)
    && (forall i | 0 <= i < |answers| :: answers[i].Some? <==> i < served)
  }

  lemma AddGroup(groups: seq<Group>, requests: seq<Request>, base: nat, g: Group)
    requires InOrder(groups, requests, base) && FairGroup(requests, g)
    requires g.from == ServedBy(groups) && g.first == LastOf(groups, base) + 1
    ensures InOrder(groups + [g], requests, base) && ServedBy(groups + [g]) == g.to
    ensures LastOf(groups + [g], base) == LastOf(groups, base) + |g.ops|
    ensures Effects(groups + [g]) == Effects(groups) + Effect(g)
  {
    assert (groups + [g])[..|groups|] == groups;
    hide Effect, FairGroup, InOrder;
    OrderedMore(groups, requests, base, g);
  }

  lemma OrderedMore(groups: seq<Group>, requests: seq<Request>, base: nat, g: Group)
    requires InOrder(groups, requests, base) && FairGroup(requests, g)
    requires g.from == ServedBy(groups) && g.first == LastOf(groups, base) + 1
    ensures InOrder(groups + [g], requests, base)
  {
    hide FairGroup, LastOf, ServedBy;
    var all := groups + [g];
    assert all[..|groups|] == groups;
    forall i | 0 <= i < |groups| ensures all[..i] == groups[..i] && all[i] == groups[i] {
    }
  }

  lemma MoreRequests(groups: seq<Group>, requests: seq<Request>, base: nat, r: Request)
    requires InOrder(groups, requests, base)
    ensures InOrder(groups, requests + [r], base)
  {
    hide LastOf, ServedBy, Joined;
    forall i | 0 <= i < |groups| ensures FairGroup(requests + [r], groups[i]) {
      var g := groups[i];
      assert FairGroup(requests, g);
      assert (requests + [r])[g.from..g.to] == requests[g.from..g.to];
    }
  }

  /** Sequence intervals of different groups do not meet, and the later group's lies after. */
  lemma {:induction false} IntervalsDisjoint(groups: seq<Group>, requests: seq<Request>, base: nat, i: nat, j: nat)
    requires InOrder(groups, requests, base) && i < j < |groups|
    ensures groups[i].first + |groups[i].ops| <= groups[j].first && groups[i].to <= groups[j].from
    decreases j
  {
    assert groups[..j][..j - 1] == groups[..j - 1];
    if i < j - 1 {
      IntervalsDisjoint(groups, requests, base, i, j - 1);
    }
    assert FairGroup(requests, groups[j - 1]);
  }

  lemma {:induction false} EffectsBelow(groups: seq<Group>, requests: seq<Request>, base: nat)
    requires InOrder(groups, requests, base)
    ensures forall e | e in Effects(groups) :: e.key.sequence <= LastOf(groups, base)
    decreases |groups|
  {
    if groups != [] {
      var init, g := groups[..|groups| - 1], groups[|groups| - 1];
      forall i | 0 <= i < |init| ensures init[..i] == groups[..i] && init[i] == groups[i] {
      }
      assert InOrder(init, requests, base);
      EffectsBelow(init, requests, base);
      BatchSequences(g.ops, g.first);
    }
  }

  // ---------------------------------------------------------------- the queue

  /** The front writer at work: its group ends before request `to`. */
  datatype Leading = Leading(to: nat, updates: Option<seq<Op<UserKey>>>, status: bool, logged: bool, inserted: nat)

  ghost predicate LeadingOk(leading: Option<Leading>, requests: seq<Request>, served: nat) {
    leading.Some? ==>
      var l := leading.value;
      && served < l.to <= |requests|
      && (l.updates.Some? ==> requests[served].batch.Some? && Groupable(requests[served..], l.to - served))
      && (l.updates.Some? ==> l.updates.value == Joined(requests[served..l.to]) && l.inserted <= |l.updates.value|)
      && (l.updates.None? ==> l.to == served + 1 && (requests[served].batch.Some? ==> !l.status))
      && (!l.logged || !l.status ==> l.inserted == 0)
  }

  /** The part of the leader's group that is in the memtable. */
  ghost function Partial(leading: Option<Leading>, last: nat): set<Entry> {
    if leading.Some? && leading.value.updates.Some? && leading.value.inserted <= |leading.value.updates.value|
    then BatchEntries(leading.value.updates.value[..leading.value.inserted], last + 1)
    else {}
  }

  // config::kL0_SlowdownWritesTrigger and kL0_StopWritesTrigger
  const SLOWDOWN_TRIGGER := 8
  const STOP_TRIGGER := 12

  /** What a writer finds that slept or waited: the memtable set aside may be flushed, level 0 has so many files, work may have failed. */
  datatype Background = Background(flushed: bool, level0: nat, failed: bool)

  datatype Outcome = RoomMade | NoRoom | StillWaiting

  // ---------------------------------------------------------------- making room

  /** What the writer has seen after `k` waits. */
  function Seen(first: Background, later: seq<Background>, k: nat): Background
    requires k <= |later|
  {
    if k == 0 then first else later[k - 1]
  }

  ghost predicate NoFlush(later: seq<Background>, a: nat, b: nat)
    requires a <= b <= |later|
  {
    forall k | a <= k < b :: !later[k].flushed
  }

  /** The memtable cannot be set aside yet: one still is, or level 0 has too many files. */
  ghost predicate Busy(imm: bool, first: Background, later: seq<Background>, k: nat)
    requires k <= |later|
  {
    (imm && NoFlush(later, 0, k)) || Seen(first, later, k).level0 >= STOP_TRIGGER
  }

  /** A call of MakeRoomForWrite: how often it waited, after how many waits it slept, and whether it then switched. */
  datatype Course = Course(waits: nat, slept: Option<nat>, switched: bool)

  /** A writer sleeps once, when it first sees a slow level 0, unless it forces the switch. */
  ghost predicate SleepsRight(force: bool, first: Background, later: seq<Background>, c: Course, ended: bool)
    requires c.waits <= |later|
  {
    match c.slept
    case Some(k) =>
      && !force && k <= c.waits && (k < c.waits || k == |later|)
      && Seen(first, later, k).level0 >= SLOWDOWN_TRIGGER && !Seen(first, later, k).failed
      && forall j | 0 <= j < k :: Seen(first, later, j).level0 < SLOWDOWN_TRIGGER
    case None =>
      !force ==> forall j | 0 <= j <= c.waits && (j < c.waits || ended) :: Seen(first, later, j).level0 < SLOWDOWN_TRIGGER
  }

  /** The writer has waited only for reasons, and seen no failure before the last look. */
  ghost predicate WaitsRight(needed: bool, force: bool, imm: bool, first: Background, later: seq<Background>, c: Course) {
    && c.waits <= |later|
    && (forall k | 0 <= k < c.waits :: !Seen(first, later, k).failed)
    && (forall k | 0 <= k < c.waits && c.slept != Some(k) :: needed && Busy(imm, first, later, k))
  }

  /**
    What MakeRoomForWrite may do.  It waits while the switch that it needs cannot be made, and sleeps once; it
    stops at the first failure it sees, or if no log can be opened, and otherwise when there is room.
  */
  ghost predicate MakesRoom(needed: bool, force: bool, imm: bool, opens: bool, first: Background, later: seq<Background>,
                            c: Course, outcome: Outcome) {
    && WaitsRight(needed, force, imm, first, later, c)
    && SleepsRight(force, first, later, c, outcome != NoRoom || !Seen(first, later, c.waits).failed)
    && (c.switched <==> outcome == RoomMade && needed)
    && match outcome
       case RoomMade =>
         !Seen(first, later, c.waits).failed && (needed ==> opens && !Busy(imm, first, later, c.waits))
       case NoRoom =>
         Seen(first, later, c.waits).failed || (needed && !opens && !Busy(imm, first, later, c.waits))
       case StillWaiting =>
         c.waits == |later| && needed && !Seen(first, later, c.waits).failed && Busy(imm, first, later, c.waits)
  }

  lemma SleptOnce(needed: bool, force: bool, imm: bool, first: Background, later: seq<Background>, c: Course)
    requires WaitsRight(needed, force, imm, first, later, c) && SleepsRight(force, first, later, c, false)
    requires !force && c.slept.None? && Seen(first, later, c.waits).level0 >= SLOWDOWN_TRIGGER && !Seen(first, later, c.waits).failed
    ensures var d := c.(slept := Some(c.waits), waits := if c.waits < |later| then c.waits + 1 else c.waits);
            WaitsRight(needed, force, imm, first, later, d) && SleepsRight(force, first, later, d, false)
  {
    hide Busy;
  }

  lemma WaitedOnce(needed: bool, force: bool, imm: bool, first: Background, later: seq<Background>, c: Course)
    requires WaitsRight(needed, force, imm, first, later, c) && SleepsRight(force, first, later, c, false)
    requires c.waits < |later| && !Seen(first, later, c.waits).failed && needed && Busy(imm, first, later, c.waits)
    requires c.slept.None? && !force ==> Seen(first, later, c.waits).level0 < SLOWDOWN_TRIGGER
    ensures WaitsRight(needed, force, imm, first, later, c.(waits := c.waits + 1))
    ensures SleepsRight(force, first, later, c.(waits := c.waits + 1), false)
  {
    hide Busy;
  }

  lemma Concludes(needed: bool, force: bool, imm: bool, opens: bool, first: Background, later: seq<Background>, c: Course, outcome: Outcome)
    requires WaitsRight(needed, force, imm, first, later, c) && SleepsRight(force, first, later, c, false)
    requires c.slept.None? && !force ==> Seen(first, later, c.waits).failed || Seen(first, later, c.waits).level0 < SLOWDOWN_TRIGGER
    requires c.switched <==> outcome == RoomMade && needed
    requires var failed, busy := Seen(first, later, c.waits).failed, Busy(imm, first, later, c.waits);
             match outcome
             case RoomMade => !failed && (needed ==> opens && !busy)
             case NoRoom => failed || (needed && !opens && !busy)
             case StillWaiting => c.waits == |later| && needed && !failed && busy
    ensures MakesRoom(needed, force, imm, opens, first, later, c, outcome)
  {
    hide Busy;
  }

  lemma Looks(imm: bool, first: Background, later: seq<Background>, n: nat)
    requires n <= |later|
    ensures Seen(first, later, 0) == first && (n < |later| ==> Seen(first, later, n + 1) == later[n])
    ensures Busy(imm, first, later, n) <==> (imm && NoFlush(later, 0, n)) || Seen(first, later, n).level0 >= STOP_TRIGGER
    ensures NoFlush(later, 0, 0) && (n < |later| ==> (NoFlush(later, 0, n + 1) <==> NoFlush(later, 0, n) && !later[n].flushed))
  {
  }

  lemma StartsRight(needed: bool, force: bool, imm: bool, first: Background, later: seq<Background>)
    ensures WaitsRight(needed, force, imm, first, later, Course(0, None, false))
    ensures SleepsRight(force, first, later, Course(0, None, false), false)
    ensures Seen(first, later, 0) == first && NoFlush(later, 0, 0)
  {
  }

  lemma StillRight(needed: bool, force: bool, imm: bool, first: Background, later: seq<Background>, c: Course)
    requires WaitsRight(needed, force, imm, first, later, c) && SleepsRight(force, first, later, c, false)
    ensures WaitsRight(needed, force, imm, first, later, c.(switched := true))
    ensures SleepsRight(force, first, later, c.(switched := true), false)
  {
  }

  class WriteQueue {
    const base: nat
    const bufferSize: nat
    const emptyUsage: nat             // what an empty memtable takes
    var requests: seq<Request>        // every call so far, in order of arrival
    var answers: seq<Option<bool>>    // None while the caller waits
    var writers: seq<nat>             // the queue
    var leading: Option<Leading>
    var lastSequence: nat
    var mem: set<Entry>
    var usage: nat                    // of the current memtable
    var imm: bool                     // a memtable is set aside

    ghost var switches: nat           // how often a memtable was set aside
    ghost var served: nat
    ghost var groups: seq<Group>

    ghost predicate Valid()
      reads this
    {
      && emptyUsage <= bufferSize
      && Waiting(writers, answers, requests, served)
      && InOrder(groups, requests, base) && ServedBy(groups) == served && LastOf(groups, base) == lastSequence
      && Answered(groups, answers)
      && LeadingOk(leading, requests, served)
      && mem == Effects(groups) + Partial(leading, lastSequence)
    }

    constructor (last: nat, bufferSize: nat, emptyUsage: nat)
      requires emptyUsage <= bufferSize
      ensures Valid() && base == last && requests == [] && groups == [] && switches == 0
    {
      base, lastSequence, this.bufferSize, this.emptyUsage := last, last, bufferSize, emptyUsage;
      requests, answers, writers, leading, mem := [], [], [], None, {};
      usage, imm, switches := emptyUsage, false, 0;
      served, groups := 0, [];
    }

    /** A caller joins the queue and waits. */
    method Enqueue(r: Request) returns (id: nat)
      requires Valid()
      modifies this`requests, this`answers, this`writers
      ensures Valid() && id == |old(requests)| && requests == old(requests) + [r] && answers == old(answers) + [None]
    {
      hide InOrder, LastOf, ServedBy, Effects, Partial, Joined, Groupable;
      id := |requests|;
      MoreRequests(groups, requests, base, r);
      GroupsServed(groups, requests, base);
      LeadingStays(leading, requests, served, r);
      requests := requests + [r];
      answers := answers + [None];
      writers := writers + [id];
    }

    /**
      MakeRoomForWrite, for the writer at the front.  `opens` says whether a new log can be made, and `later` what
      the writer finds each time it has slept or waited; when that is not enough it still waits.  What it does is
      determined by MakesRoom, as OneOutcome shows.
    */
    method MakeRoomForWrite(force: bool, level0: nat, failed: bool, opens: bool, later: seq<Background>)
      returns (outcome: Outcome, ghost c: Course)
      requires emptyUsage <= bufferSize
      modifies this`usage, this`imm, this`switches
      ensures MakesRoom(force || old(usage) > bufferSize, force, old(imm), opens, Background(false, level0, failed), later, c, outcome)
      ensures outcome == RoomMade ==> usage <= bufferSize
      ensures usage == if c.switched then emptyUsage else old(usage)
      ensures switches == old(switches) + if c.switched then 1 else 0
      ensures imm <==> c.switched || (old(imm) && NoFlush(later, 0, c.waits))
    {
      hide *;
      ghost var first, needed, was := Background(false, level0, failed), force || usage > bufferSize, imm;
      var forced, allowDelay, files, bad, n := force, !force, level0, failed, 0;
      c := Course(0, None, false);
      StartsRight(needed, force, was, first, later);
      while true
        invariant n <= |later| && c.waits == n && files == Seen(first, later, n).level0 && bad == Seen(first, later, n).failed
        invariant allowDelay <==> !force && c.slept.None?
        invariant WaitsRight(needed, force, was, first, later, c) && SleepsRight(force, first, later, c, false)
        invariant !c.switched ==> forced == force && usage == old(usage) && switches == old(switches)
        invariant !c.switched ==> (imm <==> was && NoFlush(later, 0, n))
        invariant c.switched ==> needed && opens && imm && !forced && usage == emptyUsage && switches == old(switches) + 1
        invariant c.switched ==> !Busy(was, first, later, n) && !bad && (allowDelay ==> files < SLOWDOWN_TRIGGER)
        decreases |later| - n, if allowDelay then 1 else 0, if forced || usage > bufferSize then 1 else 0
      {
        Looks(was, first, later, n);
        if bad {
          Concludes(needed, force, was, opens, first, later, c, NoRoom);
          return NoRoom, c;
        } else if allowDelay && files >= SLOWDOWN_TRIGGER {
          allowDelay := false;   // a writer is slowed down once
          SleptOnce(needed, force, was, first, later, c);
          c := c.(slept := Some(n));
          if n < |later| {
            files, bad, imm, n := later[n].level0, later[n].failed, imm && !later[n].flushed, n + 1;
            c := c.(waits := n);
          }
        } else if !forced && usage <= bufferSize {
          Concludes(needed, force, was, opens, first, later, c, RoomMade);
          return RoomMade, c;
        } else if imm || files >= STOP_TRIGGER {
          if n == |later| {
            Concludes(needed, force, was, opens, first, later, c, StillWaiting);
            return StillWaiting, c;
          }
          WaitedOnce(needed, force, was, first, later, c);
          files, bad, imm, n := later[n].level0, later[n].failed, imm && !later[n].flushed, n + 1;
          c := c.(waits := n);
        } else {
          if !opens {
            Concludes(needed, force, was, opens, first, later, c, NoRoom);
            return NoRoom, c;
          }
          imm, usage, forced := true, emptyUsage, false;
          switches := switches + 1;
          StillRight(needed, force, was, first, later, c);
          c := c.(switched := true);
        }
      }
    }

    /**
      The front writer goes to work, if room is made or cannot be: its group is fixed.  A call without a batch
      that gets this far has had the memtable set aside.
    */
    method Lead(level0: nat, failed: bool, opens: bool, later: seq<Background>) returns (outcome: Outcome, ghost c: Course)
      requires Valid() && writers != [] && leading.None?
      modifies this`leading, this`usage, this`imm, this`switches
      ensures Valid() && (outcome == StillWaiting <==> leading.None?)
      ensures leading.Some? ==> (leading.value.status <==> outcome == RoomMade) && !leading.value.logged && leading.value.inserted == 0
      ensures leading.Some? ==> (leading.value.updates.Some? <==> outcome == RoomMade && requests[served].batch.Some?)
      ensures leading.Some? && leading.value.updates.Some? ==>
                forall m: nat | Groupable(requests[served..], m) :: served + m <= leading.value.to
      ensures var force := requests[served].batch.None?;
              MakesRoom(force || old(usage) > bufferSize, force, old(imm), opens, Background(false, level0, failed), later, c, outcome)
      ensures outcome == RoomMade ==> usage <= bufferSize
      ensures switches == old(switches) + if c.switched then 1 else 0
      ensures imm <==> c.switched || (old(imm) && NoFlush(later, 0, c.waits))
    {
      hide InOrder, LastOf, ServedBy, Effects, Joined, Groupable, BatchEntries;
      var front := writers[0];
      assert front == served;
      hide MakesRoom;
      outcome, c := MakeRoomForWrite(requests[front].batch.None?, level0, failed, opens, later);
      if outcome == StillWaiting {
        return;
      }
      var waiting := requests[front..];
      if outcome == RoomMade && requests[front].batch.Some? {
        var n, updates := BuildBatchGroup(waiting);
        GroupBounds(waiting, n);
        assert waiting[..n] == requests[served..served + n];
        assert updates[..0] == [];
        NoOps(lastSequence + 1);
        leading := Some(Leading(front + n, Some(updates), true, false, 0));
      } else {
        leading := Some(Leading(front + 1, None, outcome == RoomMade, false, 0));
      }
    }

    /** The group's record goes to the log, and is synced if the leader asks for it. */
    method LogGroup(ok: bool)
      requires Valid() && leading.Some? && leading.value.updates.Some? && !leading.value.logged && leading.value.inserted == 0
      modifies this`leading
      ensures Valid() && leading == Some(old(leading).value.(logged := true, status := ok))
    {
      hide InOrder, LastOf, ServedBy, Effects, Joined, Groupable, BatchEntries;
      leading := Some(leading.value.(logged := true, status := ok));
    }

    /** One more operation of the group enters the memtable, and takes so much room. */
    method InsertNext(bytes: nat)
      requires Valid() && leading.Some? && leading.value.updates.Some? && leading.value.logged && leading.value.status
      requires leading.value.inserted < |leading.value.updates.value|
      modifies this`leading, this`mem, this`usage
      ensures Valid() && leading == Some(old(leading).value.(inserted := old(leading).value.inserted + 1))
      ensures var k := old(leading).value.inserted;
              mem == old(mem) + {OpEntry(old(leading).value.updates.value[k], lastSequence + 1 + k)} && usage == old(usage) + bytes
    {
      hide InOrder, LastOf, ServedBy, Effects, Joined, Groupable, Answered, Waiting;
      var l := leading.value;
      var ops, k := l.updates.value, l.inserted;
      assert ops[..k] + [ops[k]] == ops[..k + 1];
      BatchGrows(ops[..k], ops[k], lastSequence + 1);
      hide BatchEntries;
      mem := mem + {OpEntry(ops[k], lastSequence + 1 + k)};
      usage := usage + bytes;
      leading := Some(l.(inserted := k + 1));
    }

    /** The sequence moves past the group, and everyone in it is answered and leaves the queue. */
    method Finish()
      requires Valid() && leading.Some?
      requires leading.value.updates.Some? ==> leading.value.logged
      requires leading.value.updates.Some? && leading.value.status ==> leading.value.inserted == |leading.value.updates.value|
      modifies this
      ensures Valid() && leading.None? && requests == old(requests) && mem == old(mem)
      ensures usage == old(usage) && imm == old(imm) && switches == old(switches)
      ensures groups == old(groups) + [Finished(old(leading).value, old(served), old(lastSequence))]
      ensures served == old(leading).value.to
      ensures forall i | 0 <= i < |answers| :: answers[i] == if old(served) <= i < served then Some(old(leading).value.status) else old(answers)[i]
    {
      hide InOrder, LastOf, ServedBy, Effects, Effect, Partial, LeadingOk, Answered, Waiting, FairGroup;
      var l := leading.value;
      ghost var g, was := Finished(l, served, lastSequence), answers;
      FinishedIsFair(requests, l, served, lastSequence);
      FinishedEffect(requests, l, served, lastSequence);
      GroupsServed(groups, requests, base);
      AddGroup(groups, requests, base, g);
      GroupInQueue(requests, l, served, lastSequence);
      lastSequence := if l.updates.Some? then lastSequence + |l.updates.value| else lastSequence;
      leading := None;
      AnswerGroup(l.to, l.status);
      AnsweredMore(groups, was, answers, g, old(served));
      groups := groups + [g];
      NobodyLeads(requests, served, lastSequence);
    }

    /** Pop writers up to the last one of the group, telling each the status. */
    method AnswerGroup(end: nat, status: bool)
      requires Waiting(writers, answers, requests, served) && served < end <= |requests|
      modifies this`writers, this`answers, this`served
      ensures Waiting(writers, answers, requests, served) && served == end
      ensures |answers| == |old(answers)|
      ensures forall i | 0 <= i < |answers| :: answers[i] == if old(served) <= i < end then Some(status) else old(answers)[i]
    {
      while true
        invariant Waiting(writers, answers, requests, served) && old(served) <= served < end && |answers| == |old(answers)|
        invariant forall i | 0 <= i < |answers| :: answers[i] == if old(served) <= i < served then Some(status) else old(answers)[i]
        decreases end - served
      {
        var ready := writers[0];
        writers := writers[1..];
        answers := answers[ready := Some(status)];
        served := served + 1;
        if ready + 1 == end {
          break;
        }
      }
    }
  }

  /** What happens is settled by what the writer asks for and what it sees. */
  lemma OneOutcome(needed: bool, force: bool, imm: bool, opens: bool, first: Background, later: seq<Background>,
                   c: Course, outcome: Outcome, d: Course, other: Outcome)
    requires force ==> needed
    requires MakesRoom(needed, force, imm, opens, first, later, c, outcome)
    requires MakesRoom(needed, force, imm, opens, first, later, d, other)
    ensures c == d && outcome == other
  {
    if c.waits < d.waits {
      NoEarlier(needed, force, imm, opens, first, later, c, outcome, d, other);
    } else if d.waits < c.waits {
      NoEarlier(needed, force, imm, opens, first, later, d, other, c, outcome);
    }
  }

  lemma NoEarlier(needed: bool, force: bool, imm: bool, opens: bool, first: Background, later: seq<Background>,
                  c: Course, outcome: Outcome, d: Course, other: Outcome)
    requires force ==> needed
    requires MakesRoom(needed, force, imm, opens, first, later, c, outcome)
    requires MakesRoom(needed, force, imm, opens, first, later, d, other)
    ensures c.waits >= d.waits
  {
    hide *;
    GoesOn(needed, force, imm, opens, first, later, d, other, c.waits);
    StopsThere(needed, force, imm, opens, first, later, c, outcome);
    SameSleep(force, first, later, c, d);
  }

  lemma GoesOn(needed: bool, force: bool, imm: bool, opens: bool, first: Background, later: seq<Background>,
               d: Course, other: Outcome, k: nat)
    requires MakesRoom(needed, force, imm, opens, first, later, d, other)
    ensures d.waits <= |later| && SleepsRight(force, first, later, d, false)
    ensures k < d.waits ==> !Seen(first, later, k).failed && (d.slept == Some(k) || (needed && Busy(imm, first, later, k)))
  {
    hide Busy;
  }

  lemma StopsThere(needed: bool, force: bool, imm: bool, opens: bool, first: Background, later: seq<Background>,
                   c: Course, outcome: Outcome)
    requires force ==> needed
    requires MakesRoom(needed, force, imm, opens, first, later, c, outcome)
    ensures c.waits <= |later| && (c.slept == Some(c.waits) ==> c.waits == |later|)
    ensures c.waits < |later| ==> Seen(first, later, c.waits).failed || !needed || !Busy(imm, first, later, c.waits)
    ensures !Seen(first, later, c.waits).failed ==> SleepsRight(force, first, later, c, true)
  {
    hide Busy;
  }

  /** Two courses sleep when they first see a slow level 0, if they come to see it. */
  lemma SameSleep(force: bool, first: Background, later: seq<Background>, c: Course, d: Course)
    requires c.waits <= |later| && d.waits <= |later|
    ensures SleepsRight(force, first, later, c, true) && SleepsRight(force, first, later, d, false) && d.slept.Some? ==>
              c.slept == d.slept || c.waits < d.slept.value
  {
  }

  ghost function Finished(l: Leading, served: nat, last: nat): Group {
    Group(served, l.to, last + 1, if l.updates.Some? then l.updates.value else [], l.status)
  }

  lemma NobodyLeads(requests: seq<Request>, served: nat, last: nat)
    ensures LeadingOk(None, requests, served) && Partial(None, last) == {}
  {
  }

  lemma GroupInQueue(requests: seq<Request>, l: Leading, served: nat, last: nat)
    requires LeadingOk(Some(l), requests, served)
    ensures served < l.to <= |requests|
    ensures |Finished(l, served, last).ops| == if l.updates.Some? then |l.updates.value| else 0
  {
  }

  lemma GroupsServed(groups: seq<Group>, requests: seq<Request>, base: nat)
    requires InOrder(groups, requests, base)
    ensures ServedBy(groups) <= |requests| && forall i | 0 <= i < |groups| :: groups[i].to <= ServedBy(groups)
  {
    hide InOrder, LastOf;
    if groups != [] {
      GroupEnds(groups, requests, base, |groups| - 1);
    }
    forall i | 0 <= i < |groups| ensures groups[i].to <= ServedBy(groups) {
      if i < |groups| - 1 {
        IntervalsDisjoint(groups, requests, base, i, |groups| - 1);
      }
    }
  }

  lemma GroupEnds(groups: seq<Group>, requests: seq<Request>, base: nat, i: nat)
    requires InOrder(groups, requests, base) && i < |groups|
    ensures groups[i].from < groups[i].to <= |requests|
  {
    hide LastOf, ServedBy, Joined, Groupable;
    assert FairGroup(requests, groups[i]);
  }

  lemma LeadingStays(leading: Option<Leading>, requests: seq<Request>, served: nat, r: Request)
    requires LeadingOk(leading, requests, served)
    ensures LeadingOk(leading, requests + [r], served)
  {
    if leading.Some? {
      var l := leading.value;
      assert (requests + [r])[served..l.to] == requests[served..l.to];
      assert (requests + [r])[served..] == requests[served..] + [r];
      if l.updates.Some? {
        GroupStays(requests[served..], r, l.to - served);
      }
    }
  }

  lemma GroupStays(rs: seq<Request>, r: Request, n: nat)
    requires Groupable(rs, n)
    ensures Groupable(rs + [r], n)
  {
    hide TotalBytes;
    forall i | 1 <= i < n && rs[i].batch.Some? ensures TotalBytes((rs + [r])[..i + 1]) <= SizeLimit(rs[0]) {
      assert (rs + [r])[..i + 1] == rs[..i + 1];
    }
  }

  lemma GroupBounds(rs: seq<Request>, n: nat)
    requires Groupable(rs, n)
    ensures 1 <= n <= |rs|
  {
  }

  lemma FinishedIsFair(requests: seq<Request>, l: Leading, served: nat, last: nat)
    requires LeadingOk(Some(l), requests, served)
    ensures FairGroup(requests, Finished(l, served, last))
  {
    hide Joined, TotalBytes;
    if l.updates.Some? {
      var waiting := requests[served..];
      forall i | served < i < l.to && requests[i].sync ensures requests[served].sync {
        assert waiting[i - served].sync;
      }
    }
  }

  /** When a group ends, either all of it is in the memtable or none of it. */
  lemma FinishedEffect(requests: seq<Request>, l: Leading, served: nat, last: nat)
    requires LeadingOk(Some(l), requests, served)
    requires l.updates.Some? && l.status ==> l.inserted == |l.updates.value|
    ensures Effect(Finished(l, served, last)) == Partial(Some(l), last)
  {
    NoOps(last + 1);
    if l.updates.Some? {
      assert l.updates.value[..|l.updates.value|] == l.updates.value && l.updates.value[..0] == [];
    }
  }

  lemma AnsweredMore(groups: seq<Group>, before: seq<Option<bool>>, after: seq<Option<bool>>, g: Group, served: nat)
    requires Answered(groups, before) && |before| == |after| && g.from == served
    requires forall i | 0 <= i < |groups| :: groups[i].to <= served
    requires forall i | 0 <= i < |after| :: after[i] == if served <= i < g.to then Some(g.ok) else before[i]
    ensures Answered(groups + [g], after)
  {
  }

  // ---------------------------------------------------------------- what a reader sees

  /**
    A reader at LastSequence sees whole groups only, however far the group in hand has got: exactly the
    entries of the groups that were finished and succeeded.
  */
  lemma WholeGroupsSeen(q: WriteQueue)
    requires q.Valid()
    ensures (set e | e in q.mem && e.key.sequence <= q.lastSequence) == Effects(q.groups)
  {
    EffectsBelow(q.groups, q.requests, q.base);
    if q.leading.Some? && q.leading.value.updates.Some? {
      BatchSequences(q.leading.value.updates.value[..q.leading.value.inserted], q.lastSequence + 1);
    }
    hide Effects, InOrder, LastOf, Joined, Groupable;
  }

  /** Every call answered so far belongs to exactly one group, and to one that came in its turn. */
  lemma {:induction false} ExactlyOneGroup(groups: seq<Group>, requests: seq<Request>, base: nat, id: nat) returns (i: nat)
    requires InOrder(groups, requests, base) && id < ServedBy(groups)
    ensures i < |groups| && groups[i].from <= id < groups[i].to
    ensures forall j | 0 <= j < |groups| && groups[j].from <= id < groups[j].to :: j == i
    decreases |groups|
  {
    var n := |groups| - 1;
    var init := groups[..n];
    forall k | 0 <= k < n ensures init[..k] == groups[..k] && init[k] == groups[k] {
    }
    if groups[n].from <= id {
      i := n;
    } else {
      i := ExactlyOneGroup(init, requests, base, id);
    }
    forall j | 0 <= j < |groups| && groups[j].from <= id < groups[j].to ensures j == i {
      if j < i {
        IntervalsDisjoint(groups, requests, base, j, i);
      } else if i < j {
        IntervalsDisjoint(groups, requests, base, i, j);
      }
    }
  }
}
