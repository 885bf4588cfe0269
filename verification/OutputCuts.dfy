/**
  Where a compaction cuts its output (ShouldStopBefore in db/version_set.cc, the loop of DoCompactionWork in
  db/db_impl.cc): a file ends as soon as it is large enough, and earlier only so that it, when its turn comes to
  be compacted, meets no more than a limited number of bytes one level down.
*/
module OutputCuts {
  import opened InternalKeys
  import opened Versions
  import opened Picking
  import opened CompactionWork

  /** Bytes of the grandparents, from number `from` on, that end at or after `a` and before `b`. */
  function Ending(gs: seq<File>, from: nat, a: InternalKey, b: InternalKey): nat
    decreases |gs| - from
  {
    if from >= |gs| then 0
    else (if !Before(gs[from].largest, a) && Before(gs[from].largest, b) then gs[from].fileSize else 0) + Ending(gs, from + 1, a, b)
  }

  /** What an output file is: as large as asked for only with its last entry, and over few bytes of the grandparents. */
  ghost predicate Lean(cut: Cutting, f: File) {
    && f.fileSize == cut.sizeOf(f.entries)
    && (|f.entries| > 1 ==> cut.sizeOf(f.entries[..|f.entries| - 1]) < cut.maxOutputFileSize)
    && Ending(cut.grandparents, 0, f.smallest, f.largest) <= cut.limit
  }

  /** How many files ended before they were large enough. */
  function Early(cut: Cutting, fs: seq<File>): nat {
    if fs == [] then 0
    else Early(cut, fs[..|fs| - 1]) + if fs[|fs| - 1].fileSize < cut.maxOutputFileSize then 1 else 0
  }

  // ---------------------------------------------------------------- bytes passed

  lemma {:induction false} EndingJoins(gs: seq<File>, from: nat, a: InternalKey, b: InternalKey, c: InternalKey)
    requires !Before(b, a) && !Before(c, b)
    ensures Ending(gs, from, a, c) == Ending(gs, from, a, b) + Ending(gs, from, b, c)
    decreases |gs| - from
  {
    if from < |gs| {
      EndingJoins(gs, from + 1, a, b, c);
    }
  }

  lemma {:induction false} NoneEnding(gs: seq<File>, from: nat, a: InternalKey)
    ensures Ending(gs, from, a, a) == 0
    decreases |gs| - from
  {
    if from < |gs| {
      NoneEnding(gs, from + 1, a);
    }
  }

  /** The files before `n` end before `a`, and no other does. */
  ghost predicate StandsAt(gs: seq<File>, n: nat, a: InternalKey) {
    && n <= |gs|
    && (forall i | 0 <= i < n :: Before(gs[i].largest, a))
    && (forall i | n <= i < |gs| :: !Before(gs[i].largest, a))
  }

  ghost predicate InLine(gs: seq<File>) {
    forall i, j | 0 <= i < j < |gs| :: Before(gs[i].largest, gs[j].largest)
  }

  lemma {:induction false} PassedStands(gs: seq<File>, from: nat, b: InternalKey)
    requires InLine(gs) && from <= |gs| && forall i | 0 <= i < from :: Before(gs[i].largest, b)
    ensures StandsAt(gs, PassedTo(gs, b, from), b)
    decreases |gs| - from
  {
    if from < |gs| && Before(gs[from].largest, b) {
      PassedStands(gs, from + 1, b);
    }
  }

  lemma {:induction false} NoneBefore(gs: seq<File>, from: nat, a: InternalKey, b: InternalKey)
    requires forall i | from <= i < |gs| :: !Before(gs[i].largest, b)
    ensures Ending(gs, from, a, b) == 0
    decreases |gs| - from
  {
    if from < |gs| {
      NoneBefore(gs, from + 1, a, b);
    }
  }

  /** The bytes passed on the way to a key are those that end on the way. */
  lemma {:induction false} PassedEnding(gs: seq<File>, from: nat, n: nat, a: InternalKey, b: InternalKey)
    requires InLine(gs) && StandsAt(gs, n, a) && from <= |gs|
    ensures Ending(gs, from, a, b) == PassedBytes(gs, b, if from < n then n else from, true)
    decreases |gs| - from
  {
    if from < n {
      PassedEnding(gs, from + 1, n, a, b);
    } else if from < |gs| {
      if Before(gs[from].largest, b) {
        PassedEnding(gs, from + 1, n, a, b);
      } else {
        NoneBefore(gs, from, a, b);
      }
    }
  }

  lemma {:induction false} PassedTotal(gs: seq<File>, from: nat, b: InternalKey, counting: bool)
    requires from <= |gs|
    ensures from <= PassedTo(gs, b, from) <= |gs|
    ensures TotalFileSize(gs[..from]) + PassedBytes(gs, b, from, counting) <= TotalFileSize(gs[..PassedTo(gs, b, from)])
    decreases |gs| - from
  {
    if from < |gs| && Before(gs[from].largest, b) {
      assert gs[..from + 1] == gs[..from] + [gs[from]];
      TotalAppend(gs[..from], gs[from]);
      PassedTotal(gs, from + 1, b, counting);
    }
  }

  // ---------------------------------------------------------------- the output so far

  /** The cursor over the grandparents stands at the last key, and has counted at least what ends in the open file. */
  ghost predicate CursorStands(cut: Cutting, o: Output, p: Passing, last: Option<InternalKey>) {
    && p.index <= |cut.grandparents| && p.bytes <= cut.limit
    && match last
       case None => o.files == [] && o.current == [] && p == UNPASSED
       case Some(key) =>
         && p.seenKey && StandsAt(cut.grandparents, p.index, key)
         && (o.current != [] ==>
               && !Before(key, o.current[|o.current| - 1].key) && !Before(o.current[|o.current| - 1].key, o.current[0].key)
               && Ending(cut.grandparents, 0, o.current[0].key, key) <= p.bytes)
  }

  ghost predicate WellCut(cut: Cutting, o: Output, p: Passing) {
    && (forall f | f in o.files :: Lean(cut, f))
    && (o.current != [] ==> cut.sizeOf(o.current) < cut.maxOutputFileSize)
    && (|o.current| > 1 ==> cut.sizeOf(o.current[..|o.current| - 1]) < cut.maxOutputFileSize)
    && p.index <= |cut.grandparents|
    && Early(cut, o.files) * (cut.limit + 1) + p.bytes <= TotalFileSize(cut.grandparents[..p.index])
  }

  /** A file is closed: it is lean if its part of the grandparents is small, and it counts if it is early. */
  lemma Closed(cut: Cutting, o: Output)
    requires o.current != [] && (forall f | f in o.files :: Lean(cut, f))
    requires |o.current| > 1 ==> cut.sizeOf(o.current[..|o.current| - 1]) < cut.maxOutputFileSize
    requires Ending(cut.grandparents, 0, o.current[0].key, o.current[|o.current| - 1].key) <= cut.limit
    ensures var n := FinishFile(o, cut.sizeOf);
            && (forall f | f in n.files :: Lean(cut, f))
            && Early(cut, n.files) == Early(cut, o.files) + if cut.sizeOf(o.current) < cut.maxOutputFileSize then 1 else 0
  {
    hide Ending;
    var n := FinishFile(o, cut.sizeOf);
    assert n.files[..|n.files| - 1] == o.files;
  }

  lemma TotalGrows(cut: Cutting, p: Passing, key: InternalKey)
    requires p.index <= |cut.grandparents|
    ensures var (q, stop) := PassKey(cut.grandparents, cut.limit, p, key);
            && p.index <= q.index <= |cut.grandparents| && q.seenKey && q.bytes <= cut.limit
            && TotalFileSize(cut.grandparents[..p.index]) + PassedBytes(cut.grandparents, key, p.index, p.seenKey)
               <= TotalFileSize(cut.grandparents[..q.index])
            && (stop <==> p.bytes + PassedBytes(cut.grandparents, key, p.index, p.seenKey) > cut.limit)
            && q.bytes == if stop then 0 else p.bytes + PassedBytes(cut.grandparents, key, p.index, p.seenKey)
  {
    hide TotalFileSize, PassedBytes, PassedTo;
    PassedTotal(cut.grandparents, p.index, key, p.seenKey);
  }

  /** The cursor moves on to the next key. */
  lemma Onward(cut: Cutting, o: Output, p: Passing, last: Option<InternalKey>, key: InternalKey)
    requires InLine(cut.grandparents) && CursorStands(cut, o, p, last) && (last.Some? ==> Before(last.value, key))
    ensures StandsAt(cut.grandparents, PassedTo(cut.grandparents, key, p.index), key)
    ensures last.Some? && o.current != [] ==>
              && Ending(cut.grandparents, 0, o.current[0].key, key)
                 <= p.bytes + PassedBytes(cut.grandparents, key, p.index, p.seenKey)
              && Ending(cut.grandparents, 0, o.current[0].key, o.current[|o.current| - 1].key) <= cut.limit
  {
    var gs := cut.grandparents;
    hide Ending, PassedBytes, PassedTo, InLine;
    if last.Some? {
      assert forall i | 0 <= i < p.index :: Before(gs[i].largest, key);
      if o.current != [] {
        var first, end := o.current[0].key, o.current[|o.current| - 1].key;
        EndingJoins(gs, 0, first, last.value, key);
        PassedEnding(gs, 0, p.index, last.value, key);
        EndingJoins(gs, 0, first, end, last.value);
      }
    }
    PassedStands(gs, p.index, key);
  }

  /** The output is cut in front of the key, if too much has been passed. */
  lemma StopKeeps(cut: Cutting, o: Output, p: Passing, last: Option<InternalKey>, key: InternalKey)
    requires InLine(cut.grandparents) && CursorStands(cut, o, p, last) && WellCut(cut, o, p) && (last.Some? ==> Before(last.value, key))
    ensures var (q, stop) := PassKey(cut.grandparents, cut.limit, p, key);
            var n := CloseIf(o, stop, cut.sizeOf);
            && WellCut(cut, n, q) && CursorStands(cut, n, q, Some(key)) && (n.current == [] || n.current == o.current)
  {
    hide InLine, Ending, PassedBytes, PassedTo, TotalFileSize, PassKey, Lean, StandsAt, Before;
    var (q, stop) := PassKey(cut.grandparents, cut.limit, p, key);
    TotalGrows(cut, p, key);
    Onward(cut, o, p, last, key);
    CursorIs(cut, p, key);
    if stop && o.current != [] {
      Closed(cut, o);
      EarlyAdds(Early(cut, o.files), cut.limit, p.bytes + PassedBytes(cut.grandparents, key, p.index, p.seenKey), TotalFileSize(cut.grandparents[..q.index]));
    } else if o.current != [] {
      BeforeBoth(last, key, o.current[|o.current| - 1].key);
    }
  }

  lemma BeforeBoth(last: Option<InternalKey>, key: InternalKey, k: InternalKey)
    requires last.Some? && Before(last.value, key) && !Before(last.value, k)
    ensures !Before(key, k)
  {
  }

  lemma CursorIs(cut: Cutting, p: Passing, key: InternalKey)
    ensures PassKey(cut.grandparents, cut.limit, p, key).0.index == PassedTo(cut.grandparents, key, p.index)
  {
    hide PassedTo, PassedBytes;
  }

  lemma EarlyAdds(early: nat, limit: nat, bytes: nat, total: nat)
    requires early * (limit + 1) + bytes <= total && bytes > limit
    ensures (early + 1) * (limit + 1) <= total
  {
    assert (early + 1) * (limit + 1) == early * (limit + 1) + (limit + 1);
  }

  /** An entry is added, and the file closed behind it if it is large enough. */
  lemma AddKeeps(cut: Cutting, o: Output, q: Passing, e: Entry)
    requires WellCut(cut, o, q) && CursorStands(cut, o, q, Some(e.key))
    ensures var a := AddEntry(o, e, cut.others);
            var n := CloseIf(a, cut.sizeOf(a.current) >= cut.maxOutputFileSize, cut.sizeOf);
            WellCut(cut, n, q) && CursorStands(cut, n, q, Some(e.key))
  {
    hide Ending, TotalFileSize, Lean, StandsAt;
    var a := AddEntry(o, e, cut.others);
    NoneEnding(cut.grandparents, 0, e.key);
    KeyItself(e.key);
    assert a.current[|a.current| - 1] == e && a.current[..|a.current| - 1] == o.current;
    OpenedFirst(o, e.key);
    if cut.sizeOf(a.current) >= cut.maxOutputFileSize {
      Closed(cut, a);
    }
  }

  lemma KeyItself(key: InternalKey)
    ensures !Before(key, key)
  {
  }

  /** The first entry of the open file is not behind the last key. */
  lemma OpenedFirst(o: Output, key: InternalKey)
    requires o.current != [] ==>
               !Before(key, o.current[|o.current| - 1].key) && !Before(o.current[|o.current| - 1].key, o.current[0].key)
    ensures o.current != [] ==> !Before(key, o.current[0].key)
  {
  }

  lemma StepKeeps(cut: Cutting, o: Output, p: Passing, last: Option<InternalKey>, e: Entry, keep: bool)
    requires InLine(cut.grandparents) && CursorStands(cut, o, p, last) && WellCut(cut, o, p) && (last.Some? ==> Before(last.value, e.key))
    ensures var (n, q) := CutStep(cut, o, p, e, keep);
            WellCut(cut, n, q) && CursorStands(cut, n, q, Some(e.key))
  {
    hide InLine, CursorStands, WellCut, PassKey, Before, CloseIf, AddEntry;
    StopKeeps(cut, o, p, last, e.key);
    var (q, stop) := PassKey(cut.grandparents, cut.limit, p, e.key);
    if keep {
      AddKeeps(cut, CloseIf(o, stop, cut.sizeOf), q, e);
    }
  }

  function LastRead(input: seq<Entry>, i: nat): Option<InternalKey>
    requires i <= |input|
  {
    if i == 0 then None else Some(input[i - 1].key)
  }

  lemma {:induction false} ProducedWellCut(cut: Cutting, input: seq<Entry>, S: set<Entry>, firstNumber: nat, i: nat)
    requires InLine(cut.grandparents) && Sorted(input) && i <= |input|
    ensures var (o, p) := Produced(cut, input, S, firstNumber, i);
            WellCut(cut, o, p) && CursorStands(cut, o, p, LastRead(input, i))
    decreases i
  {
    hide InLine, CutStep, Before, Ending;
    if i == 0 {
      assert cut.grandparents[..0] == [];
    } else {
      hide CursorStands, WellCut;
      ProducedWellCut(cut, input, S, firstNumber, i - 1);
      var (o, p) := Produced(cut, input, S, firstNumber, i - 1);
      assert i > 1 ==> Before(input[i - 2].key, input[i - 1].key);
      StepKeeps(cut, o, p, LastRead(input, i - 1), input[i - 1], input[i - 1] in S);
    }
  }

  lemma LevelInLine(gs: seq<File>)
    requires ValidFiles(gs) && SortedLevel(gs)
    ensures InLine(gs)
  {
    forall i, j | 0 <= i < j < |gs|
      ensures Before(gs[i].largest, gs[j].largest)
    {
      assert gs[j] in gs;
      hide FileMetaData.Valid;
      FileKeys(gs[j]);
    }
  }

  lemma FileKeys(f: File)
    requires f.Valid()
    ensures !Before(f.largest, f.smallest)
  {
    assert |f.entries| > 1 ==> Before(f.entries[0].key, f.entries[|f.entries| - 1].key);
  }

  /**
    Every output file is lean.  And the output is not cut up for nothing: each file but the last that ends before it is
    large enough is paid for by more than `limit` bytes of grandparents, which no other is.
  */
  lemma OutputsWellCut(cut: Cutting, input: seq<Entry>, S: set<Entry>, firstNumber: nat)
    requires ValidFiles(cut.grandparents) && SortedLevel(cut.grandparents) && Sorted(input)
    ensures var fs := Outputs(cut, input, S, firstNumber).files;
            && (forall f | f in fs :: Lean(cut, f))
            && (fs != [] ==> Early(cut, fs[..|fs| - 1]) * (cut.limit + 1) <= TotalFileSize(cut.grandparents))
  {
    LevelInLine(cut.grandparents);
    ProducedWellCut(cut, input, S, firstNumber, |input|);
    hide Produced, ValidFiles, SortedLevel, Sorted, InLine, Lean, TotalFileSize, Ending, FinishFile;
    var (o, p) := Produced(cut, input, S, firstNumber, |input|);
    var fs := Outputs(cut, input, S, firstNumber).files;
    WholeTotal(cut.grandparents, p.index);
    if o.current != [] {
      LastFits(cut, o, p, LastRead(input, |input|));
      Closed(cut, o);
      FinishedFiles(o, cut.sizeOf);
    } else if fs != [] {
      EarlyPrefix(cut, fs, Early(cut, fs[..|fs| - 1]));
    }
  }

  lemma FinishedFiles(o: Output, sizeOf: seq<Entry> -> nat)
    requires o.current != []
    ensures var fs := FinishFile(o, sizeOf).files; fs != [] && fs[..|fs| - 1] == o.files
  {
  }

  lemma LastFits(cut: Cutting, o: Output, p: Passing, last: Option<InternalKey>)
    requires CursorStands(cut, o, p, last) && WellCut(cut, o, p) && o.current != []
    ensures Ending(cut.grandparents, 0, o.current[0].key, o.current[|o.current| - 1].key) <= cut.limit
    ensures |o.current| > 1 ==> cut.sizeOf(o.current[..|o.current| - 1]) < cut.maxOutputFileSize
  {
    EndingJoins(cut.grandparents, 0, o.current[0].key, o.current[|o.current| - 1].key, last.value);
  }

  lemma EarlyPrefix(cut: Cutting, fs: seq<File>, n: nat)
    requires fs != [] && n == Early(cut, fs[..|fs| - 1])
    ensures n <= Early(cut, fs) && n * (cut.limit + 1) <= Early(cut, fs) * (cut.limit + 1)
  {
    OneFileMore(cut, fs);
    TimesMore(n, Early(cut, fs), cut.limit + 1);
  }

  lemma OneFileMore(cut: Cutting, fs: seq<File>)
    requires fs != []
    ensures Early(cut, fs[..|fs| - 1]) <= Early(cut, fs)
  {
  }

  lemma TimesMore(a: nat, b: nat, k: nat)
    requires a <= b
    ensures a * k <= b * k
  {
    assert b * k == a * k + (b - a) * k;
  }

  lemma WholeTotal(gs: seq<File>, n: nat)
    requires n <= |gs|
    ensures TotalFileSize(gs[..n]) <= TotalFileSize(gs)
    decreases |gs| - n
  {
    if n < |gs| {
      assert gs[..n + 1] == gs[..n] + [gs[n]];
      TotalAppend(gs[..n], gs[n]);
      WholeTotal(gs, n + 1);
    } else {
      assert gs[..n] == gs;
    }
  }

  lemma {:induction false} OverlappingSorted(fs: seq<File>, lo: Option<UserKey>, hi: Option<UserKey>)
    requires SortedLevel(fs)
    ensures SortedLevel(Overlapping(fs, lo, hi))
  {
    if fs != [] {
      var r := Overlapping(fs[1..], lo, hi);
      OverlappingSorted(fs[1..], lo, hi);
      forall j | 0 <= j < |r|
        ensures Before(fs[0].largest, r[j].smallest)
      {
        assert r[j] in r;
        var i :| 0 <= i < |fs[1..]| && fs[1..][i] == r[j];
        assert fs[i + 1] == r[j];
      }
    }
  }

  /** The grandparents of a choice are a sorted level. */
  lemma GrandparentsSorted(v: Version, c: CompactionInputs)
    requires ValidVersion(v) && PickedFrom(v, c) && WithGrandparents(v, c)
    ensures ValidFiles(c.grandparents) && SortedLevel(c.grandparents)
  {
    if c.level + 2 < NUM_LEVELS {
      var lo, hi :| Spans(c.Files(), lo, hi) && c.grandparents == Overlapping(v[c.level + 2], Some(lo), Some(hi));
      assert ValidFiles(v[c.level + 2]) && SortedLevel(v[c.level + 2]);
      OverlappingSorted(v[c.level + 2], Some(lo), Some(hi));
    }
  }
}
