/** The entries that a batch of operations puts into a memtable (db/write_batch.cc, db/memtable.cc). */
module Batches {
  import opened InternalKeys

  function OpEntry(op: Op<UserKey>, s: nat): Entry {
    match op
    case Put(k, v) => Entry(InternalKey(k, s, TypeValue), v)
    case Delete(k) => Entry(InternalKey(k, s, TypeDeletion), [])
  }

  /** The entries of a batch: one sequence number per operation, in order. */
  function BatchEntries(ops: seq<Op<UserKey>>, s: nat): set<Entry> {
    set i | 0 <= i < |ops| :: OpEntry(ops[i], s + i)
  }

  lemma BatchSequences(ops: seq<Op<UserKey>>, s: nat)
    ensures Unique(BatchEntries(ops, s))
    ensures forall e | e in BatchEntries(ops, s) :: s <= e.key.sequence < s + |ops|
  {
  }

  lemma BatchGrows(ops: seq<Op<UserKey>>, op: Op<UserKey>, s: nat)
    ensures BatchEntries(ops + [op], s) == BatchEntries(ops, s) + {OpEntry(op, s + |ops|)}
  {
    var all := ops + [op];
    forall e | e in BatchEntries(ops, s) + {OpEntry(op, s + |ops|)} ensures e in BatchEntries(all, s) {
      if e in BatchEntries(ops, s) {
        var i :| 0 <= i < |ops| && e == OpEntry(ops[i], s + i);
        assert all[i] == ops[i];
      } else {
        assert all[|ops|] == op;
      }
    }
  }

  lemma NoOps(s: nat)
    ensures BatchEntries([], s) == {}
  {
  }
}
