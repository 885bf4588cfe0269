/**
  A batch of writes as the bytes that go to the log (db/write_batch.cc): a sequence number, a count, and a
  record for every operation.  What is put in comes out of Iterate, in order.
*/
module WriteBatches {
  import opened InternalKeys
  import opened Codings
  import opened IntegerSizes
  import Checksums

  const HEADER := 12
  const MAX_COUNT := 0x7FFF_FFFF

  // ---------------------------------------------------------------- records

  function Record(op: Op<Bytes>): (r: Bytes)
    ensures r != []
  {
    match op
    case Put(key, value) => [1] + (Prefixed(key) + Prefixed(value))
    case Delete(key) => [0] + Prefixed(key)
  }

  function Records(ops: seq<Op<Bytes>>): Bytes {
    if ops == [] then [] else Records(ops[..|ops| - 1]) + Record(ops[|ops| - 1])
  }

  /** What a Slice can hold. */
  predicate Fits(op: Op<Bytes>) {
    |op.key| < TWO_32 && (op.Put? ==> |op.value| < TWO_32)
  }

  ghost predicate AllFit(ops: seq<Op<Bytes>>) {
    forall op | op in ops :: Fits(op)
  }

  /** One turn of Iterate's loop. */
  function TakeRecord(input: Bytes): (t: Taken<Op<Bytes>>)
    requires input != []
    ensures t.Taken? ==> 0 < t.used <= |input|
  {
    var key := TakeSlice(input[1..]);
    if input[0] == 0 && key.Taken? then Taken(Delete(key.value), 1 + key.used)
    else if input[0] == 1 && key.Taken? then
      var value := TakeSlice(input[1 + key.used..]);
      if value.Taken? then Taken(Put(key.value, value.value), 1 + key.used + value.used) else Nothing
    else Nothing
  }

  /** The operations of the records up to the end, or nothing when one of them is damaged. */
  function TakeRecords(input: Bytes): Option<seq<Op<Bytes>>> {
    if input == [] then Some([])
    else
      var one := TakeRecord(input);
      if one.Nothing? then None
      else
        var others := TakeRecords(input[one.used..]);
        if others.Some? then Some([one.value] + others.value) else None
  }

  function CountOf(rep: Bytes): nat
    requires |rep| >= HEADER
  {
    Checksums.DecodeFixed32(rep[8..12])
  }

  /** Iterate: the records are whole and as many as the header says. */
  function Contents(rep: Bytes): Option<seq<Op<Bytes>>> {
    if |rep| < HEADER then None
    else
      var ops := TakeRecords(rep[HEADER..]);
      if ops.Some? && |ops.value| == CountOf(rep) then ops else None
  }

  lemma RecordBack(op: Op<Bytes>, rest: Bytes)
    requires Fits(op)
    ensures TakeRecord(Record(op) + rest) == Taken(op, |Record(op)|)
    ensures (Record(op) + rest)[|Record(op)|..] == rest
  {
    hide Prefixed, TakeSlice;
    var input := Record(op) + rest;
    match op
    case Put(key, value) =>
      Regroup([1], Prefixed(key) + Prefixed(value), rest);
      Regroup(Prefixed(key), Prefixed(value), rest);
      SliceRoundTrip(key, Prefixed(value) + rest);
      SliceRoundTrip(value, rest);
      assert input[1..] == Prefixed(key) + (Prefixed(value) + rest);
      assert input[1 + |Prefixed(key)|..] == Prefixed(value) + rest;
    case Delete(key) =>
      Regroup([0], Prefixed(key), rest);
      SliceRoundTrip(key, rest);
      assert input[1..] == Prefixed(key) + rest;
  }

  lemma {:induction false} RecordsConcat(a: seq<Op<Bytes>>, b: seq<Op<Bytes>>)
    ensures Records(a + b) == Records(a) + Records(b)
    decreases |b|
  {
    hide Record;
    if b == [] {
      assert a + b == a && Records(b) == [];
    } else {
      var init, last := b[..|b| - 1], b[|b| - 1];
      RecordsConcat(a, init);
      assert a + b == (a + init) + [last] && b == init + [last];
      RecordsAppend(a + init, last);
      RecordsAppend(init, last);
      Regroup(Records(a), Records(init), Record(last));
    }
  }

  lemma RecordsAppend(ops: seq<Op<Bytes>>, op: Op<Bytes>)
    ensures Records(ops + [op]) == Records(ops) + Record(op)
  {
    hide Record;
    assert (ops + [op])[..|ops|] == ops;
  }

  lemma {:induction false} RecordsBack(ops: seq<Op<Bytes>>)
    requires AllFit(ops)
    ensures TakeRecords(Records(ops)) == Some(ops)
    decreases |ops|
  {
    if ops != [] {
      assert ops == [ops[0]] + ops[1..];
      RecordsConcat([ops[0]], ops[1..]);
      OneRecord(ops[0]);
      RecordBack(ops[0], Records(ops[1..]));
      RecordsBack(ops[1..]);
      hide Record, Records, TakeRecord;
    }
  }

  lemma OneRecord(op: Op<Bytes>)
    ensures Records([op]) == Record(op)
  {
    assert [op][..0] == [];
    assert [] + Record(op) == Record(op);
  }

  // ---------------------------------------------------------------- the batch

  class WriteBatch {
    var rep: Bytes
    ghost var ops: seq<Op<Bytes>>

    ghost predicate Valid()
      reads this
    {
      && |rep| >= HEADER && |ops| <= MAX_COUNT && AllFit(ops)
      && rep[8..12] == Checksums.EncodeFixed32(|ops|) && rep[HEADER..] == Records(ops)
    }

    constructor ()
      ensures Valid() && ops == []
    {
      rep, ops := Checksums.EncodeFixed32(0) + Checksums.EncodeFixed32(0) + Checksums.EncodeFixed32(0), [];
    }

    method SetCount(n: nat)
      requires |rep| >= HEADER && n <= MAX_COUNT
      modifies this`rep
      ensures |rep| == |old(rep)| && rep[..8] == old(rep)[..8] && rep[8..12] == Checksums.EncodeFixed32(n) && rep[HEADER..] == old(rep)[HEADER..]
    {
      rep := rep[..8] + Checksums.EncodeFixed32(n) + rep[12..];
    }

    function Count(): (n: nat)
      requires Valid()
      reads this
      ensures n == |ops|
    {
      Checksums.Fixed32RoundTrip(|ops|);
      Checksums.DecodeFixed32(rep[8..12])
    }

    /** A new record, and one more in the count. */
    method AddRecord(op: Op<Bytes>)
      requires Valid() && |ops| < MAX_COUNT && Fits(op)
      modifies this
      ensures Valid() && ops == old(ops) + [op] && rep[..8] == old(rep)[..8]
    {
      hide Record, Records;
      RecordsConcat(ops, [op]);
      OneRecord(op);
      SetCount(Count() + 1);
      ghost var front := rep;
      rep := rep + Record(op);
      SplitHeader(front, Record(op));
      ops := ops + [op];
    }

    method Put(key: Bytes, value: Bytes)
      requires Valid() && |ops| < MAX_COUNT && |key| < TWO_32 && |value| < TWO_32
      modifies this
      ensures Valid() && ops == old(ops) + [Op.Put(key, value)] && rep[..8] == old(rep)[..8]
    {
      AddRecord(Op.Put(key, value));
    }

    method Delete(key: Bytes)
      requires Valid() && |ops| < MAX_COUNT && |key| < TWO_32
      modifies this
      ensures Valid() && ops == old(ops) + [Op.Delete(key)] && rep[..8] == old(rep)[..8]
    {
      AddRecord(Op.Delete(key));
    }

    /** WriteBatchInternal::Append */
    method Append(src: WriteBatch)
      requires Valid() && src.Valid() && src != this && |ops| + |src.ops| <= MAX_COUNT
      modifies this
      ensures Valid() && ops == old(ops) + src.ops && rep[..8] == old(rep)[..8]
    {
      hide Records;
      RecordsConcat(ops, src.ops);
      var count := Count() + src.Count();
      SetCount(count);
      ghost var front := rep;
      rep := rep + src.rep[HEADER..];
      SplitHeader(front, src.rep[HEADER..]);
      ops := ops + src.ops;
    }

    /** The operations are handed over one by one; damaged bytes end with an error. */
    method Iterate() returns (ok: bool, handed: seq<Op<Bytes>>)
      ensures ok == Contents(rep).Some?
      ensures ok ==> handed == Contents(rep).value
    {
      hide TakeRecord, TakeRecords;
      handed := [];
      if |rep| < HEADER {
        return false, handed;
      }
      var input := rep[HEADER..];
      NothingHanded(TakeRecords(input));
      var found := 0;
      while input != []
        invariant found == |handed|
        invariant TakeRecords(rep[HEADER..]) == HandedThen(handed, TakeRecords(input))
        decreases |input|
      {
        MoreRecords(handed, input);
        var one := TakeRecord(input);
        if one.Nothing? {
          return false, handed;
        }
        found, handed, input := found + 1, handed + [one.value], input[one.used..];
      }
      NoRecords(handed);
      ok := found == CountOf(rep);
    }
  }

  lemma SplitHeader(front: Bytes, more: Bytes)
    requires |front| >= HEADER
    ensures (front + more)[..8] == front[..8] && (front + more)[8..12] == front[8..12]
    ensures (front + more)[HEADER..] == front[HEADER..] + more
  {
  }

  function HandedThen(a: seq<Op<Bytes>>, b: Option<seq<Op<Bytes>>>): Option<seq<Op<Bytes>>> {
    if b.Some? then Some(a + b.value) else None
  }

  lemma MoreRecords(handed: seq<Op<Bytes>>, input: Bytes)
    requires input != []
    ensures var one := TakeRecord(input);
            HandedThen(handed, TakeRecords(input)) == if one.Nothing? then None else HandedThen(handed + [one.value], TakeRecords(input[one.used..]))
  {
    hide TakeRecord;
    var one := TakeRecord(input);
    if one.Taken? && TakeRecords(input[one.used..]).Some? {
      var rest := TakeRecords(input[one.used..]).value;
      assert handed + ([one.value] + rest) == (handed + [one.value]) + rest;
    }
  }

  lemma NothingHanded(b: Option<seq<Op<Bytes>>>)
    ensures HandedThen([], b) == b
  {
    if b.Some? {
      assert [] + b.value == b.value;
    }
  }

  lemma NoRecords(handed: seq<Op<Bytes>>)
    ensures HandedThen(handed, TakeRecords([])) == Some(handed)
  {
    assert handed + [] == handed;
  }

  /** Iterate hands over just what was put into the batch, in order. */
  lemma WhatWentInComesOut(b: WriteBatch)
    requires b.Valid()
    ensures Contents(b.rep) == Some(b.ops)
  {
    hide TakeRecords;
    RecordsBack(b.ops);
    assert b.Count() == |b.ops|;
  }

  // ---------------------------------------------------------------- a batch cut short

  /** All bytes of a varint but the last say that more follow. */
  lemma {:induction false} VarintCut(v: nat, n: nat, m: nat, result: nat, max: nat)
    requires n <= m < |Varint(v)| + n
    ensures forall before: Bytes | |before| == n :: TakeFrom(before + Varint(v)[..m - n], n, result, max) == Nothing
    decreases v
  {
    forall before: Bytes | |before| == n
      ensures TakeFrom(before + Varint(v)[..m - n], n, result, max) == Nothing
    {
      if n < m && n < max {
        assert v >= 128;
        var b: Byte := 128 + v % 128;
        assert Varint(v) == [b] + Varint(v / 128);
        assert Varint(v)[..m - n] == [b] + Varint(v / 128)[..m - n - 1];
        assert before + Varint(v)[..m - n] == (before + [b]) + Varint(v / 128)[..m - n - 1];
        VarintCut(v / 128, n + 1, m, result + (b - 128) * Shift(n), max);
      }
    }
  }

  /** A slice of which some bytes are missing is not taken. */
  lemma SliceCut(s: Bytes, m: nat)
    requires |s| < TWO_32 && m < |Prefixed(s)|
    ensures TakeSlice(Prefixed(s)[..m]) == Nothing
  {
    var l := Varint(|s|);
    if m < |l| {
      VarintCut(|s|, 0, m, 0, 5);
      assert [] + l[..m] == l[..m] == Prefixed(s)[..m];
    } else {
      assert Prefixed(s)[..m] == l + s[..m - |l|];
      Varint32RoundTrip(|s|, s[..m - |l|]);
    }
  }

  lemma RecordCut(op: Op<Bytes>, m: nat)
    requires Fits(op) && 0 < m < |Record(op)|
    ensures TakeRecord(Record(op)[..m]) == Nothing
  {
    hide Prefixed, TakeSlice;
    var input := Record(op)[..m];
    var key := Prefixed(op.key);
    assert input[0] == if op.Put? then 1 else 0;
    if m <= |key| || op.Delete? {
      assert input[1..] == key[..m - 1];
      SliceCut(op.key, m - 1);
    } else {
      var value := Prefixed(op.value)[..m - 1 - |key|];
      assert input[1..] == key + value;
      SliceRoundTrip(op.key, value);
      assert input[1 + |key|..] == value;
      SliceCut(op.value, m - 1 - |key|);
    }
  }

  /** Records cut anywhere are damaged, or too few. */
  lemma {:induction false} RecordsCut(ops: seq<Op<Bytes>>, m: nat)
    requires AllFit(ops) && m < |Records(ops)|
    ensures TakeRecords(Records(ops)[..m]).Some? ==> |TakeRecords(Records(ops)[..m]).value| < |ops|
    decreases |ops|
  {
    hide Record, Records, TakeRecord, Fits;
    if ops == [] {
      assert Records([]) == [] by { NoRecordBytes(); }
    } else {
      assert ops == [ops[0]] + ops[1..];
      RecordsConcat([ops[0]], ops[1..]);
      OneRecord(ops[0]);
      var one, rest := Record(ops[0]), Records(ops[1..]);
      if m == 0 {
        assert Records(ops)[..m] == [];
      } else if m < |one| {
        assert Records(ops)[..m] == one[..m];
        RecordCut(ops[0], m);
      } else {
        assert Records(ops)[..m] == one + rest[..m - |one|];
        RecordBack(ops[0], rest[..m - |one|]);
        RecordsCut(ops[1..], m - |one|);
      }
    }
  }

  lemma NoRecordBytes()
    ensures Records([]) == []
  {
  }

  /** A batch of which any bytes at the end are missing is refused. */
  lemma CutIsRefused(b: WriteBatch, n: nat)
    requires b.Valid() && n < |b.rep|
    ensures Contents(b.rep[..n]) == None
  {
    hide TakeRecords, Records;
    if n >= HEADER {
      assert b.rep[..n][HEADER..] == b.rep[HEADER..][..n - HEADER];
      RecordsCut(b.ops, n - HEADER);
      assert b.rep[..n][8..12] == b.rep[8..12];
      assert b.Count() == |b.ops|;
    }
  }
}
