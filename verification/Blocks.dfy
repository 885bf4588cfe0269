/**
  Blocks of a table (table/block_builder.cc): keys in increasing order, each stored as what it adds to a prefix
  of the key before it, with restart points where nothing is shared.
*/
module Blocks {
  import opened IntegerSizes
  import opened InternalKeys
  import opened Codings
  import Comparators
  import opened Checksums

  /** A comparator's order on the byte strings of keys. */
  type Less = (Bytes, Bytes) -> bool

  ghost predicate StrictOrder(less: Less) {
    && (forall a :: !less(a, a))
    && (forall a, b :: a != b ==> less(a, b) || less(b, a))
    && (forall a, b, c :: less(a, b) && less(b, c) ==> less(a, c))
  }

  datatype Pair = Pair(key: Bytes, value: Bytes)

  ghost predicate Increasing(less: Less, es: seq<Pair>) {
    forall i, j | 0 <= i < j < |es| :: less(es[i].key, es[j].key)
  }

  // ---------------------------------------------------------------- the format

  /** An entry whose key shares its first `shared` bytes with the key before it. */
  function EntryBytes(shared: nat, e: Pair): (r: Bytes)
    requires shared <= |e.key|
    ensures |r| >= 3
  {
    Varint(shared) + (Varint(|e.key| - shared) + (Varint(|e.value|) + (e.key[shared..] + e.value)))
  }

  /** How much each entry shares: never more than it has in common with the one before. */
  ghost predicate SharesOk(es: seq<Pair>, shares: seq<nat>) {
    && |shares| == |es|
    && forall i | 0 <= i < |es| :: ShareOk(KeyBefore(es, i), es[i].key, shares[i])
  }

  /** The key in front of entry `i`, empty at the start. */
  function KeyBefore(es: seq<Pair>, i: nat): Bytes
    requires i <= |es|
  {
    if i == 0 then [] else es[i - 1].key
  }

  ghost predicate ShareOk(previous: Bytes, key: Bytes, shared: nat) {
    shared <= |previous| && shared <= |key| && previous[..shared] == key[..shared]
  }

  /** The bytes of the first `n` entries. */
  ghost function Data(es: seq<Pair>, shares: seq<nat>, n: nat): Bytes
    requires SharesOk(es, shares) && n <= |es|
  {
    if n == 0 then [] else Data(es, shares, n - 1) + EntryBytes(shares[n - 1], es[n - 1])
  }

  ghost function Offset(es: seq<Pair>, shares: seq<nat>, n: nat): nat
    requires SharesOk(es, shares) && n <= |es|
  {
    |Data(es, shares, n)|
  }

  /** Restart points: entries that share nothing, the first one among them. */
  ghost predicate StartsOk(es: seq<Pair>, shares: seq<nat>, starts: seq<nat>) {
    && SharesOk(es, shares)
    && starts != [] && starts[0] == 0
    && (forall r | 0 <= r < |starts| :: starts[r] < |es| || (es == [] && |starts| == 1))
    && (forall r | 0 <= r < |starts| && starts[r] < |es| :: shares[starts[r]] == 0)
    && (forall r, t | 0 <= r < t < |starts| :: starts[r] < starts[t])
  }

  function Fixed32s(xs: seq<Word>): Bytes {
    if xs == [] then [] else Fixed32s(xs[..|xs| - 1]) + EncodeFixed32(xs[|xs| - 1])
  }

  ghost predicate Offsets(es: seq<Pair>, shares: seq<nat>, starts: seq<nat>, restarts: seq<Word>) {
    && StartsOk(es, shares, starts)
    && |restarts| == |starts|
    && forall r | 0 <= r < |starts| :: restarts[r] == Offset(es, shares, starts[r])
  }

  /** The whole block. */
  ghost predicate IsBlock(block: Bytes, es: seq<Pair>, shares: seq<nat>, starts: seq<nat>, restarts: seq<Word>) {
    && Offsets(es, shares, starts, restarts)
    && |restarts| < TWO_32
    && |Data(es, shares, |es|)| < TWO_32
    && Sized(es)
    && block == Data(es, shares, |es|) + (Fixed32s(restarts) + EncodeFixed32(|restarts|))
  }

  // ---------------------------------------------------------------- one more entry

  lemma SharesAppend(es: seq<Pair>, shares: seq<nat>, e: Pair, shared: nat)
    requires SharesOk(es, shares) && ShareOk(KeyBefore(es, |es|), e.key, shared)
    ensures SharesOk(es + [e], shares + [shared])
  {
    hide ShareOk, KeyBefore;
    forall i | 0 <= i < |es| + 1 ensures ShareOk(KeyBefore(es + [e], i), (es + [e])[i].key, (shares + [shared])[i]) {
      KeyBeforeAppend(es, e, i);
    }
  }

  lemma KeyBeforeAppend(es: seq<Pair>, e: Pair, i: nat)
    requires i <= |es|
    ensures KeyBefore(es + [e], i) == KeyBefore(es, i)
  {
  }

  lemma EntryShares(es: seq<Pair>, shares: seq<nat>, i: nat)
    requires SharesOk(es, shares) && i < |es|
    ensures i < |shares| && shares[i] <= |es[i].key| && ShareOk(KeyBefore(es, i), es[i].key, shares[i])
  {
  }

  lemma {:induction false} DataAppend(es: seq<Pair>, shares: seq<nat>, e: Pair, shared: nat, n: nat)
    requires SharesOk(es, shares) && SharesOk(es + [e], shares + [shared]) && n <= |es|
    ensures Data(es + [e], shares + [shared], n) == Data(es, shares, n)
  {
    hide SharesOk;
    if n > 0 {
      DataAppend(es, shares, e, shared, n - 1);
      EntryShares(es, shares, n - 1);
    }
  }

  lemma DataNext(es: seq<Pair>, shares: seq<nat>, e: Pair, shared: nat)
    requires SharesOk(es, shares) && SharesOk(es + [e], shares + [shared]) && shared <= |e.key|
    ensures Data(es + [e], shares + [shared], |es| + 1) == Data(es, shares, |es|) + EntryBytes(shared, e)
  {
    DataAppend(es, shares, e, shared, |es|);
  }

  lemma {:induction false} OffsetsGrow(es: seq<Pair>, shares: seq<nat>, i: nat, j: nat)
    requires SharesOk(es, shares) && i < j <= |es|
    ensures Offset(es, shares, i) + 3 <= Offset(es, shares, j)
    decreases j
  {
    hide EntryBytes, SharesOk;
    if i < j - 1 {
      OffsetsGrow(es, shares, i, j - 1);
    }
  }

  /** Entries added after it leave a list of restart points good. */
  lemma OffsetsAppend(es: seq<Pair>, shares: seq<nat>, starts: seq<nat>, restarts: seq<Word>, e: Pair, shared: nat)
    requires Offsets(es, shares, starts, restarts) && SharesOk(es + [e], shares + [shared])
    requires es == [] ==> shared == 0
    ensures Offsets(es + [e], shares + [shared], starts, restarts)
  {
    forall r | 0 <= r < |starts| ensures restarts[r] == Offset(es + [e], shares + [shared], starts[r]) {
      DataAppend(es, shares, e, shared, starts[r]);
    }
  }

  lemma StartAppend(es: seq<Pair>, shares: seq<nat>, starts: seq<nat>, restarts: seq<Word>, e: Pair, offset: Word)
    requires Offsets(es, shares, starts, restarts) && es != [] && SharesOk(es + [e], shares + [0])
    requires offset == Offset(es, shares, |es|)
    ensures Offsets(es + [e], shares + [0], starts + [|es|], restarts + [offset])
  {
    OffsetsAppend(es, shares, starts, restarts, e, 0);
    DataAppend(es, shares, e, 0, |es|);
    hide Data, SharesOk, StartsOk, Offset;
    StartsAppend(es, shares, starts, e);
    var all, ss, starts', restarts' := es + [e], shares + [0], starts + [|es|], restarts + [offset];
    forall r | 0 <= r < |starts'| ensures restarts'[r] == Offset(all, ss, starts'[r]) {
      if r == |starts| {
        OffsetIs(all, ss, es, shares);
      } else {
        assert starts'[r] == starts[r] && restarts'[r] == restarts[r];
      }
    }
  }

  lemma OffsetIs(all: seq<Pair>, ss: seq<nat>, es: seq<Pair>, shares: seq<nat>)
    requires SharesOk(all, ss) && SharesOk(es, shares) && |es| <= |all| && Data(all, ss, |es|) == Data(es, shares, |es|)
    ensures Offset(all, ss, |es|) == Offset(es, shares, |es|)
  {
  }

  lemma StartsAppend(es: seq<Pair>, shares: seq<nat>, starts: seq<nat>, e: Pair)
    requires StartsOk(es, shares, starts) && StartsOk(es + [e], shares + [0], starts) && es != []
    ensures StartsOk(es + [e], shares + [0], starts + [|es|])
  {
    hide SharesOk;
    assert |shares| == |es| by { SharesLength(es, shares); }
    var starts' := starts + [|es|];
    forall r, t | 0 <= r < t < |starts'| ensures starts'[r] < starts'[t] {
      assert starts[r] < |es|;
    }
  }

  lemma SharesLength(es: seq<Pair>, shares: seq<nat>)
    requires SharesOk(es, shares)
    ensures |shares| == |es|
  {
  }

  /** All that two keys begin with in common. */
  ghost predicate Longest(a: Bytes, b: Bytes, shared: nat) {
    ShareOk(a, b, shared) && forall n: nat | ShareOk(a, b, n) :: n <= shared
  }

  /** BlockBuilder::Add's loop over the bytes two keys begin with. */
  method CommonPrefix(a: Bytes, b: Bytes) returns (shared: nat)
    ensures ShareOk(a, b, shared) && Longest(a, b, shared)
  {
    var min := if |a| < |b| then |a| else |b|;
    shared := 0;
    while shared < min && a[shared] == b[shared]
      invariant shared <= min && a[..shared] == b[..shared]
    {
      assert a[..shared + 1] == a[..shared] + [a[shared]] && b[..shared + 1] == b[..shared] + [b[shared]];
      shared := shared + 1;
    }
    forall n: nat | ShareOk(a, b, n) ensures n <= shared {
      Comparators.SameByte(a, b, n, shared);
    }
  }

  ghost predicate BuilderOk(interval: nat, buffer: Bytes, restarts: seq<Word>, counter: nat, lastKey: Bytes,
                            added: seq<Pair>, shares: seq<nat>, starts: seq<nat>)
  {
    && interval >= 1
    && Offsets(added, shares, starts, restarts)
    && buffer == Data(added, shares, |added|)
    && lastKey == KeyBefore(added, |added|)
    && Sized(added)
    && counter == |added| - starts[|starts| - 1] <= interval
    && EvenStarts(starts, interval)
  }

  ghost predicate Sized(es: seq<Pair>) {
    forall e | e in es :: |e.key| < TWO_32 && |e.value| < TWO_32
  }

  /** A restart point every `interval` entries. */
  ghost predicate EvenStarts(starts: seq<nat>, interval: nat) {
    forall r | 0 < r < |starts| :: starts[r] == StartBefore(starts, r) + interval
  }

  lemma AddSharing(interval: nat, buffer: Bytes, restarts: seq<Word>, counter: nat, lastKey: Bytes,
                   added: seq<Pair>, shares: seq<nat>, starts: seq<nat>, e: Pair, shared: nat)
    requires BuilderOk(interval, buffer, restarts, counter, lastKey, added, shares, starts) && counter < interval
    requires ShareOk(lastKey, e.key, shared) && Sized([e])
    ensures shared <= |e.key|
    ensures BuilderOk(interval, buffer + EntryBytes(shared, e), restarts, counter + 1, e.key, added + [e], shares + [shared], starts)
  {
    hide Data, EntryBytes, EvenStarts;
    SharesAppend(added, shares, e, shared);
    OffsetsAppend(added, shares, starts, restarts, e, shared);
    DataNext(added, shares, e, shared);
    SizedAppend(added, e);
    hide Offsets, SharesOk;
  }

  lemma SizedAppend(es: seq<Pair>, e: Pair)
    requires Sized(es) && Sized([e])
    ensures Sized(es + [e])
  {
    assert e in [e];
  }

  lemma AddRestart(interval: nat, buffer: Bytes, restarts: seq<Word>, counter: nat, lastKey: Bytes,
                   added: seq<Pair>, shares: seq<nat>, starts: seq<nat>, e: Pair)
    requires BuilderOk(interval, buffer, restarts, counter, lastKey, added, shares, starts) && counter == interval
    requires Sized([e]) && |buffer| < TWO_32
    ensures BuilderOk(interval, buffer + EntryBytes(0, e), restarts + [|buffer|], 1, e.key, added + [e], shares + [0], starts + [|added|])
  {
    hide Data, EntryBytes;
    NoneShared(lastKey, e.key);
    hide ShareOk;
    SharesAppend(added, shares, e, 0);
    StartAppend(added, shares, starts, restarts, e, |buffer|);
    DataNext(added, shares, e, 0);
    SizedAppend(added, e);
    EvenAppend(starts, interval, |added|);
    hide Offsets, SharesOk;
  }

  lemma EvenAppend(starts: seq<nat>, interval: nat, n: nat)
    requires starts != [] && EvenStarts(starts, interval) && n == starts[|starts| - 1] + interval
    ensures EvenStarts(starts + [n], interval)
  {
    var starts' := starts + [n];
    forall r | 0 < r < |starts'| ensures starts'[r] == StartBefore(starts', r) + interval {
      if r < |starts| {
        assert StartBefore(starts', r) == StartBefore(starts, r);
      }
    }
  }

  class BlockBuilder {
    const interval: nat
    var buffer: Bytes
    var restarts: seq<Word>
    var counter: nat
    var lastKey: Bytes

    ghost var added: seq<Pair>
    ghost var shares: seq<nat>
    ghost var starts: seq<nat>

    ghost predicate Valid()
      reads this
    {
      BuilderOk(interval, buffer, restarts, counter, lastKey, added, shares, starts)
    }

    constructor (interval: nat)
      requires interval >= 1
      ensures Valid() && added == [] && buffer == [] && this.interval == interval
    {
      this.interval := interval;
      buffer, restarts, counter, lastKey := [], [0], 0, [];
      added, shares, starts := [], [], [0];
    }

    /** Restart points come every `interval` entries; in between a key is cut by all it has in common. */
    method Add(key: Bytes, value: Bytes)
      requires Valid() && |key| < TWO_32 && |value| < TWO_32 && |buffer| < TWO_32
      modifies this
      ensures Valid() && added == old(added) + [Pair(key, value)]
      ensures |starts| == |old(starts)| + if old(counter) < interval then 0 else 1
      ensures |shares| == |old(shares)| + 1 && shares[..|old(shares)|] == old(shares)
      ensures if old(counter) < interval then Longest(old(lastKey), key, shares[|old(shares)|]) else shares[|old(shares)|] == 0
      ensures |buffer| <= |old(buffer)| + |key| + |value| + 15
    {
      hide BuilderOk, ShareOk, EntryBytes, Longest;
      var shared := 0;
      ghost var e := Pair(key, value);
      CounterBound(interval, buffer, restarts, counter, lastKey, added, shares, starts);
      if counter < interval {
        shared := CommonPrefix(lastKey, key);
        AddSharing(interval, buffer, restarts, counter, lastKey, added, shares, starts, e, shared);
        shares := shares + [shared];
      } else {
        NoneShared(lastKey, key);
        AddRestart(interval, buffer, restarts, counter, lastKey, added, shares, starts, e);
        shares := shares + [0];
        starts := starts + [|added|];
        restarts := restarts + [|buffer|];
        counter := 0;
      }
      var nonShared := |key| - shared;
      EntryParts(buffer, shared, e);
      KeyRebuilt(lastKey, key, shared);
      buffer := buffer + Varint(shared) + Varint(nonShared) + Varint(|value|);
      buffer := buffer + key[shared..] + value;
      VarintsSmall(shared, nonShared, |value|);
      lastKey := lastKey[..shared] + key[shared..];
      counter := counter + 1;
      added := added + [e];
    }

    function CurrentSizeEstimate(): nat
      reads this
    {
      |buffer| + 4 * |restarts| + 4
    }

    /** The block, once no more is added. */
    method Finish() returns (block: Bytes)
      requires Valid() && |restarts| < TWO_32 && |buffer| < TWO_32
      ensures IsBlock(block, added, shares, starts, restarts)
      ensures |block| == CurrentSizeEstimate()
    {
      hide Data, Offsets;
      block := buffer;
      for i := 0 to |restarts|
        invariant block == buffer + Fixed32s(restarts[..i]) && |block| == |buffer| + 4 * i
      {
        assert restarts[..i + 1][..i] == restarts[..i];
        Regroup(buffer, Fixed32s(restarts[..i]), EncodeFixed32(restarts[i]));
        block := block + EncodeFixed32(restarts[i]);
      }
      assert restarts[..|restarts|] == restarts;
      Regroup(buffer, Fixed32s(restarts), EncodeFixed32(|restarts|));
      block := block + EncodeFixed32(|restarts|);
    }
  }

  lemma VarintsSmall(x: nat, y: nat, z: nat)
    requires x < TWO_32 && y < TWO_32 && z < TWO_32
    ensures |Varint(x)| + |Varint(y)| + |Varint(z)| <= 15
  {
    Widths();
    VarintLength(x, 5);
    VarintLength(y, 5);
    VarintLength(z, 5);
  }

  lemma {:induction false} DataLength(es: seq<Pair>, shares: seq<nat>, n: nat)
    requires SharesOk(es, shares) && n <= |es|
    ensures |Data(es, shares, n)| >= 3 * n
  {
    hide SharesOk, EntryBytes;
    if n > 0 {
      DataLength(es, shares, n - 1);
    }
  }

  lemma {:induction false} StartsSpread(starts: seq<nat>, r: nat)
    requires r < |starts| && forall i, j | 0 <= i < j < |starts| :: starts[i] < starts[j]
    ensures starts[r] >= r
  {
    if r > 0 {
      StartsSpread(starts, r - 1);
    }
  }

  /** There are no more restart points than entries, and an entry takes three bytes and more. */
  lemma RestartsFew(b: BlockBuilder)
    requires b.Valid()
    ensures 3 * (|b.restarts| - 1) <= |b.buffer|
  {
    DataLength(b.added, b.shares, |b.added|);
    StartsSpread(b.starts, |b.starts| - 1);
    hide Data, SharesOk;
  }

  function StartBefore(starts: seq<nat>, r: nat): nat
    requires 0 < r <= |starts|
  {
    starts[r - 1]
  }

  lemma CounterBound(interval: nat, buffer: Bytes, restarts: seq<Word>, counter: nat, lastKey: Bytes,
                     added: seq<Pair>, shares: seq<nat>, starts: seq<nat>)
    requires BuilderOk(interval, buffer, restarts, counter, lastKey, added, shares, starts)
    ensures counter <= interval
  {
  }

  lemma NoneShared(a: Bytes, b: Bytes)
    ensures ShareOk(a, b, 0)
  {
  }

  /** The last key, cut to what is shared and given the rest, is the new one. */
  lemma KeyRebuilt(previous: Bytes, key: Bytes, shared: nat)
    requires ShareOk(previous, key, shared)
    ensures shared <= |previous| && shared <= |key| && previous[..shared] + key[shared..] == key
  {
  }

  lemma EntryParts(buffer: Bytes, shared: nat, e: Pair)
    requires shared <= |e.key|
    ensures buffer + Varint(shared) + Varint(|e.key| - shared) + Varint(|e.value|) + e.key[shared..] + e.value
         == buffer + EntryBytes(shared, e)
  {
    var a, b, c, d, v := Varint(shared), Varint(|e.key| - shared), Varint(|e.value|), e.key[shared..], e.value;
    hide Varint;
    Regroup(buffer + a + b + c, d, v);
    Regroup(buffer + a + b, c, d + v);
    Regroup(buffer + a, b, c + (d + v));
    Regroup(buffer, a, b + (c + (d + v)));
  }
}
