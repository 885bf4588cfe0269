/**
  A plain cursor over a list (include/leveldb/iterator.h).  Every iterator of the database is held to it:
  a position `n` one past the last element stands for "not valid", whichever end was run off.
*/
module Cursors {
  import opened InternalKeys

  datatype Direction = Ahead | Reverse

  function Forward(pos: nat): nat {
    pos + 1
  }

  function Backward(n: nat, pos: nat): (r: nat)
    ensures pos <= n ==> r <= n
  {
    if pos == 0 then n else pos - 1
  }

  function Last(n: nat): nat {
    if n == 0 then 0 else n - 1
  }

  lemma LowerBoundIs(es: seq<Entry>, target: InternalKey, r: nat)
    requires Sorted(es) && r <= |es|
    requires r > 0 ==> Before(es[r - 1].key, target)
    requires r < |es| ==> !Before(es[r].key, target)
    ensures LowerBound(es, target) == r
  {
    forall i | 0 <= i < r ensures Before(es[i].key, target) {
      assert i < r - 1 ==> Before(es[i].key, es[r - 1].key);
    }
  }

  /** The iterator of a memtable, a table or a block: a cursor over entries in internal key order. */
  class InternalIterator {
    const entries: seq<Entry>
    var pos: nat

    constructor (es: seq<Entry>)
      ensures entries == es && pos == |es|
    {
      entries := es;
      pos := |es|;
    }

    predicate Valid()
      reads this
    {
      pos < |entries|
    }

    method SeekToFirst()
      modifies this
      ensures pos == 0
    {
      pos := 0;
    }

    method SeekToLast()
      modifies this
      ensures pos == Last(|entries|)
    {
      pos := if |entries| == 0 then 0 else |entries| - 1;
    }

    method Seek(target: InternalKey)
      modifies this
      ensures pos == LowerBound(entries, target)
    {
      pos := 0;
      while pos < |entries| && Before(entries[pos].key, target)
        invariant pos <= |entries|
        invariant LowerBound(entries, target) == pos + LowerBound(entries[pos..], target)
      {
        pos := pos + 1;
      }
    }

    method Next()
      requires Valid()
      modifies this
      ensures pos == Forward(old(pos)) <= |entries|
    {
      pos := pos + 1;
    }

    method Prev()
      requires Valid()
      modifies this
      ensures pos == Backward(|entries|, old(pos))
    {
      pos := if pos == 0 then |entries| else pos - 1;
    }
  }
}
