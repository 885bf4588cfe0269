/**
  Building a table and looking a key up in it (table/table_builder.cc, table/table.cc): an index of short
  separators over blocks of sorted entries, with a filter in front of each block.  A block is kept as its
  entries; TableWriting and TableFiles have the bytes.
*/
module Tables {
  import opened InternalKeys
  import opened Comparators
  import opened Filters

  datatype Item = Item(key: Key, value: Bytes)

  datatype DataBlock = DataBlock(offset: nat, items: seq<Item>)

  // ---------------------------------------------------------------- order

  ghost predicate Ascending(items: seq<Item>) {
    forall i, j | 0 <= i < j < |items| :: KeyLess(items[i].key, items[j].key)
  }

  ghost predicate AllBefore(a: seq<Item>, b: seq<Item>) {
    forall x, y | x in a && y in b :: KeyLess(x.key, y.key)
  }

  ghost predicate BlocksOk(blocks: seq<DataBlock>) {
    && (forall i | 0 <= i < |blocks| :: blocks[i].items != [] && Ascending(blocks[i].items))
    && (forall i, j | 0 <= i < j < |blocks| :: AllBefore(blocks[i].items, blocks[j].items))
  }

  /** An index key: not below its block's last key, and below the first key of the next block. */
  ghost predicate IndexKeyOk(blocks: seq<DataBlock>, i: nat, sep: Key)
    requires i < |blocks|
  {
    && blocks[i].items != []
    && (sep == LastKey(blocks[i].items) || KeyLess(LastKey(blocks[i].items), sep))
    && (i + 1 < |blocks| ==> blocks[i + 1].items != [] && Separates(LastKey(blocks[i].items), sep, blocks[i + 1].items[0].key))
  }

  function LastKey(items: seq<Item>): Key
    requires items != []
  {
    items[|items| - 1].key
  }

  ghost predicate IndexOk(blocks: seq<DataBlock>, index: seq<Key>) {
    |index| <= |blocks| && forall i | 0 <= i < |index| :: IndexKeyOk(blocks, i, index[i])
  }

  /** Each block's user keys pass the filter of the stretch the block starts in. */
  ghost predicate Filtered(blocks: seq<DataBlock>, filters: seq<Option<Filter>>) {
    forall i, x | 0 <= i < |blocks| && x in blocks[i].items :: LetThrough(filters, blocks[i].offset, x.key.user)
  }

  datatype Table = Table(blocks: seq<DataBlock>, index: seq<Key>, filters: Option<seq<Option<Filter>>>)

  ghost predicate TableOk(t: Table) {
    && BlocksOk(t.blocks) && |t.index| == |t.blocks| && IndexOk(t.blocks, t.index)
    && (t.filters.Some? ==> Filtered(t.blocks, t.filters.value))
  }

  ghost function Held(blocks: seq<DataBlock>): set<Item> {
    set i, x | 0 <= i < |blocks| && x in blocks[i].items :: x
  }

  // ---------------------------------------------------------------- looking up

  /** The block iterator's Seek: the first item at or after the key. */
  function SeekItem(items: seq<Item>, k: Key): (r: nat)
    ensures r <= |items|
    ensures forall i | 0 <= i < r :: KeyLess(items[i].key, k)
    ensures r < |items| ==> !KeyLess(items[r].key, k)
  {
    if items == [] || !KeyLess(items[0].key, k) then 0 else 1 + SeekItem(items[1..], k)
  }

  /** The index iterator's Seek. */
  function SeekIndex(index: seq<Key>, k: Key): (r: nat)
    ensures r <= |index|
    ensures forall i | 0 <= i < r :: KeyLess(index[i], k)
    ensures r < |index| ==> !KeyLess(index[r], k)
  {
    if index == [] || !KeyLess(index[0], k) then 0 else 1 + SeekIndex(index[1..], k)
  }

  /** The newest item of the key's user key, of those no newer than the key asks for. */
  ghost predicate IsAnswer(t: Table, k: Key, x: Item) {
    && x in Held(t.blocks) && x.key.user == k.user && x.key.tag <= k.tag
    && forall y | y in Held(t.blocks) && y.key.user == k.user && y.key.tag <= k.tag :: y.key.tag <= x.key.tag
  }

  /** What index, filter and block lead to. */
  ghost function Lookup(t: Table, k: Key): Option<Item>
    requires |t.index| == |t.blocks|
  {
    var i := SeekIndex(t.index, k);
    if i < |t.index| && (t.filters.Some? ==> LetThrough(t.filters.value, t.blocks[i].offset, k.user)) then
      var j := SeekItem(t.blocks[i].items, k);
      if j < |t.blocks[i].items| then Some(t.blocks[i].items[j]) else None
    else None
  }

  /** Where it leads is the answer, if the table has one, and nothing else of the same user key. */
  lemma LookupIsAnswer(t: Table, k: Key)
    requires TableOk(t)
    ensures |t.index| == |t.blocks|
    ensures forall x | IsAnswer(t, k, x) :: Lookup(t, k) == Some(x)
    ensures Lookup(t, k).Some? && Lookup(t, k).value.key.user == k.user ==> IsAnswer(t, k, Lookup(t, k).value)
  {
    assert |t.index| == |t.blocks|;
    var i, r := SeekIndex(t.index, k), Lookup(t, k);
    hide TableOk, IsAnswer, SeekIndex, SeekItem, LetThrough;
    forall x | IsAnswer(t, k, x) ensures r == Some(x) {
      AnswerIsFound(t, k, x);
    }
    if r.Some? && r.value.key.user == k.user {
      FoundIsAnswer(t, k, i, SeekItem(t.blocks[i].items, k));
    }
  }

  /** Table::InternalGet: what is handed to the saver, if anything.  The saver keeps it only if the user key is right. */
  method InternalGet(t: Table, k: Key) returns (r: Option<Item>)
    requires TableOk(t)
    ensures |t.index| == |t.blocks| && r == Lookup(t, k)
    ensures forall x | IsAnswer(t, k, x) :: r == Some(x)
    ensures r.Some? && r.value.key.user == k.user ==> IsAnswer(t, k, r.value)
  {
    LookupIsAnswer(t, k);
    hide TableOk, IsAnswer, SeekIndex, SeekItem, LetThrough;
    var i := SeekIndex(t.index, k);
    if i >= |t.index| {
      return None;
    }
    if t.filters.Some? {
      var may := BlockMayMatch(t.filters.value, t.blocks[i].offset, k.user);
      if !may {
        return None;
      }
    }
    var j := SeekItem(t.blocks[i].items, k);
    r := if j < |t.blocks[i].items| then Some(t.blocks[i].items[j]) else None;
  }

  /** What comes before the answer in the table comes before the key looked up. */
  lemma BeforeAnswer(t: Table, k: Key, x: Item, y: Item)
    requires IsAnswer(t, k, x) && y in Held(t.blocks) && KeyLess(y.key, x.key)
    ensures KeyLess(y.key, k)
  {
    LexTotal(y.key.user, k.user);
  }

  lemma AnswerNotBelow(t: Table, k: Key, x: Item)
    requires IsAnswer(t, k, x)
    ensures !KeyLess(x.key, k)
  {
    LexTotal(k.user, k.user);
  }

  lemma InHeld(blocks: seq<DataBlock>, b: nat, j: nat)
    requires b < |blocks| && j < |blocks[b].items|
    ensures blocks[b].items[j] in Held(blocks)
  {
    assert blocks[b].items[j] in blocks[b].items;
  }

  /** The index keys of earlier blocks are below the key, and the block's own is not. */
  lemma EarlierSeparators(t: Table, k: Key, x: Item, b: nat, j: nat, c: nat)
    requires TableOk(t) && IsAnswer(t, k, x) && b < |t.blocks| && j < |t.blocks[b].items| && t.blocks[b].items[j] == x && c < b
    ensures KeyLess(t.index[c], k)
  {
    hide Filtered, Held, IsAnswer, Ascending;
    var last := t.blocks[c].items[|t.blocks[c].items| - 1];
    KeyOfAnswer(t, k, x);
    InHeld(t.blocks, c, |t.blocks[c].items| - 1);
    assert AllBefore(t.blocks[c].items, t.blocks[b].items);
    assert last in t.blocks[c].items && x in t.blocks[b].items;
    BeforeAnswer(t, k, x, last);
    assert IndexKeyOk(t.blocks, c, t.index[c]);
    if t.index[c] != last.key {
      var first := t.blocks[c + 1].items[0];
      assert first in t.blocks[c + 1].items;
      FirstNotAfter(t, b, j, c + 1);
      if first.key.user != k.user {
        LexTransitive(t.index[c].user, first.key.user, k.user);
      }
    }
  }

  lemma FirstNotAfter(t: Table, b: nat, j: nat, c: nat)
    requires BlocksOk(t.blocks) && c <= b < |t.blocks| && j < |t.blocks[b].items|
    ensures t.blocks[c].items != []
    ensures t.blocks[c].items[0] == t.blocks[b].items[j] || KeyLess(t.blocks[c].items[0].key, t.blocks[b].items[j].key)
  {
    if c < b {
      assert AllBefore(t.blocks[c].items, t.blocks[b].items);
      assert t.blocks[c].items[0] in t.blocks[c].items && t.blocks[b].items[j] in t.blocks[b].items;
    } else {
      assert Ascending(t.blocks[b].items);
    }
  }

  /** An item of a block is not above the block's index key. */
  lemma NotAboveIndex(t: Table, c: nat, j: nat, k: Key)
    requires TableOk(t) && c < |t.blocks| && j < |t.blocks[c].items| && KeyLess(t.index[c], k)
    ensures KeyLess(t.blocks[c].items[j].key, k)
  {
    var items := t.blocks[c].items;
    assert Ascending(items) && IndexKeyOk(t.blocks, c, t.index[c]);
    var last := LastKey(items);
    if last != t.index[c] {
      KeyTransitive(last, t.index[c], k);
    }
    if j < |items| - 1 {
      KeyTransitive(items[j].key, last, k);
    }
  }

  /** The search ends in the answer's block, the filter lets it through, and the block gives the answer. */
  lemma AnswerIsFound(t: Table, k: Key, x: Item)
    requires TableOk(t) && IsAnswer(t, k, x)
    ensures var i := SeekIndex(t.index, k);
            && i < |t.index| && i < |t.blocks|
            && (t.filters.Some? ==> LetThrough(t.filters.value, t.blocks[i].offset, k.user))
            && var j := SeekItem(t.blocks[i].items, k); j < |t.blocks[i].items| && t.blocks[i].items[j] == x
  {
    var b, z :| 0 <= b < |t.blocks| && z in t.blocks[b].items && z == x;
    var j :| 0 <= j < |t.blocks[b].items| && t.blocks[b].items[j] == x;
    assert t.filters.Some? ==> Filtered(t.blocks, t.filters.value);
    assert |t.index| == |t.blocks|;
    hide IsAnswer, BlocksOk, IndexOk, TableOk;
    SeekIndexIs(t, k, x, b, j);
    SeekItemIs(t, k, x, b, j);
    KeyOfAnswer(t, k, x);
    hide SeekIndex, SeekItem, Passes;
  }

  lemma KeyOfAnswer(t: Table, k: Key, x: Item)
    requires IsAnswer(t, k, x)
    ensures x.key.user == k.user
  {
  }

  lemma SeekIndexIs(t: Table, k: Key, x: Item, b: nat, j: nat)
    requires TableOk(t) && IsAnswer(t, k, x) && b < |t.blocks| && j < |t.blocks[b].items| && t.blocks[b].items[j] == x
    ensures SeekIndex(t.index, k) == b
  {
    var i := SeekIndex(t.index, k);
    AnswerNotBelow(t, k, x);
    if i < b {
      EarlierSeparators(t, k, x, b, j, i);
    } else if b < i {
      NotAboveIndex(t, b, j, k);
    }
  }

  lemma SeekItemIs(t: Table, k: Key, x: Item, b: nat, j: nat)
    requires TableOk(t) && IsAnswer(t, k, x) && b < |t.blocks| && j < |t.blocks[b].items| && t.blocks[b].items[j] == x
    ensures SeekItem(t.blocks[b].items, k) == j
  {
    var items := t.blocks[b].items;
    var i := SeekItem(items, k);
    AnswerNotBelow(t, k, x);
    assert Ascending(items);
    if i < j {
      InHeld(t.blocks, b, i);
      BeforeAnswer(t, k, x, items[i]);
    }
  }

  /** An item the search finds under the right user key is the answer. */
  lemma FoundIsAnswer(t: Table, k: Key, i: nat, j: nat)
    requires TableOk(t) && i == SeekIndex(t.index, k) && i < |t.blocks| && j == SeekItem(t.blocks[i].items, k) && j < |t.blocks[i].items|
    requires t.blocks[i].items[j].key.user == k.user
    ensures IsAnswer(t, k, t.blocks[i].items[j])
  {
    var x := t.blocks[i].items[j];
    InHeld(t.blocks, i, j);
    forall y | y in Held(t.blocks) && y.key.user == k.user && y.key.tag <= k.tag ensures y.key.tag <= x.key.tag {
      var c, z :| 0 <= c < |t.blocks| && z in t.blocks[c].items && z == y;
      var l :| 0 <= l < |t.blocks[c].items| && t.blocks[c].items[l] == y;
      SameUserBelow(t, k, i, j, c, l);
    }
  }

  /** Nothing newer of the same user key stands before what was found. */
  lemma SameUserBelow(t: Table, k: Key, i: nat, j: nat, c: nat, l: nat)
    requires TableOk(t) && i == SeekIndex(t.index, k) && i < |t.blocks| && j == SeekItem(t.blocks[i].items, k) && j < |t.blocks[i].items|
    requires c < |t.blocks| && l < |t.blocks[c].items|
    requires t.blocks[i].items[j].key.user == k.user == t.blocks[c].items[l].key.user && t.blocks[c].items[l].key.tag <= k.tag
    ensures t.blocks[c].items[l].key.tag <= t.blocks[i].items[j].key.tag
  {
    hide TableOk, SeekIndex, SeekItem, KeyLess;
    var x, y := t.blocks[i].items[j].key, t.blocks[c].items[l].key;
    SameUserOrder(y, k);
    SameUserOrder(x, y);
    if c < i {
      NotAboveIndex(t, c, l, k);
    } else if c == i {
      if j < l {
        LaterInBlock(t, i, j, l);
      }
    } else {
      InLaterBlock(t, i, j, c, l);
    }
  }

  lemma SameUserOrder(a: Key, b: Key)
    requires a.user == b.user
    ensures KeyLess(a, b) <==> a.tag > b.tag
  {
    LexTotal(a.user, b.user);
  }

  lemma LaterInBlock(t: Table, i: nat, j: nat, l: nat)
    requires TableOk(t) && i < |t.blocks| && j < l < |t.blocks[i].items|
    ensures KeyLess(t.blocks[i].items[j].key, t.blocks[i].items[l].key)
  {
    hide KeyLess;
    assert Ascending(t.blocks[i].items);
  }

  lemma InLaterBlock(t: Table, i: nat, j: nat, c: nat, l: nat)
    requires TableOk(t) && i < c < |t.blocks| && j < |t.blocks[i].items| && l < |t.blocks[c].items|
    ensures KeyLess(t.blocks[i].items[j].key, t.blocks[c].items[l].key)
  {
    hide KeyLess;
    assert AllBefore(t.blocks[i].items, t.blocks[c].items);
  }

  // ---------------------------------------------------------------- building

  // the type byte and checksum after each block
  const TRAILER := 5

  /** Blocks written, and the items of the block being filled. */
  ghost predicate Growing(blocks: seq<DataBlock>, data: seq<Item>) {
    BlocksOk(blocks) && Ascending(data) && forall i | 0 <= i < |blocks| :: AllBefore(blocks[i].items, data)
  }

  /** The index lags by one block, until the first key after it is known. */
  ghost predicate IndexGrowing(blocks: seq<DataBlock>, index: seq<Key>, data: seq<Item>, pending: bool) {
    && BlocksOk(blocks) && IndexOk(blocks, index)
    && |blocks| == |index| + (if pending then 1 else 0)
    && (pending ==> data == [])
    && (!pending && blocks != [] ==>
          data != [] && Separates(LastKey(blocks[|blocks| - 1].items), index[|blocks| - 1], data[0].key))
  }

  /** The last key added. */
  ghost predicate LastIs(blocks: seq<DataBlock>, data: seq<Item>, lastKey: Key) {
    if data != [] then lastKey == LastKey(data)
    else blocks != [] ==> blocks[|blocks| - 1].items != [] && lastKey == LastKey(blocks[|blocks| - 1].items)
  }

  /** Every user key has been promised to the filter of its block's stretch, or waits to be. */
  ghost predicate Promised(blocks: seq<DataBlock>, data: seq<Item>, offset: nat, promised: seq<set<Bytes>>, keys: seq<Bytes>) {
    && |promised| == offset / FILTER_BASE
    && (forall x | x in data :: x.key.user in keys)
    && (forall i, x | 0 <= i < |blocks| && x in blocks[i].items :: PromisedAt(blocks[i].offset, x.key.user, promised, keys))
  }

  ghost predicate PromisedAt(offset: nat, user: Bytes, promised: seq<set<Bytes>>, keys: seq<Bytes>) {
    var n := offset / FILTER_BASE;
    (n < |promised| && user in promised[n]) || (n == |promised| && user in keys)
  }

  ghost function Added(blocks: seq<DataBlock>, data: seq<Item>): set<Item> {
    Held(blocks) + set x | x in data
  }

  /** What may stand in the index for a block's last key. */
  predicate ShortKey(sep: Key, last: Key) {
    |sep.user| <= |last.user| && (sep.tag == last.tag || sep.tag == MAX_TAG)
  }

  class TableBuilder {
    const filter: FilterBlockBuilder?
    var blocks: seq<DataBlock>
    var index: seq<Key>
    var pending: bool
    var data: seq<Item>
    var offset: nat
    var lastKey: Key

    ghost predicate Valid()
      reads this, filter
    {
      && Growing(blocks, data) && IndexGrowing(blocks, index, data, pending) && LastIs(blocks, data, lastKey)
      && (filter != null ==> filter.Valid() && Promised(blocks, data, offset, filter.promised, filter.keys))
    }

    constructor (filter: FilterBlockBuilder?)
      requires filter != null ==> filter.Valid() && filter.keys == [] && filter.promised == []
      ensures Valid() && this.filter == filter && blocks == [] && data == []
      ensures index == [] && !pending && offset == 0 && lastKey == Key([], 0)
    {
      this.filter := filter;
      blocks, index, pending, data, offset := [], [], false, [], 0;
      lastKey := Key([], 0);
    }

    /** A key above all before it; `full` says that the block has now reached its size, which is `size`. */
    method Add(key: Key, value: Bytes, full: bool, size: nat)
      requires Valid() && (blocks != [] || data != [] ==> KeyLess(lastKey, key))
      modifies this, filter
      ensures Valid() && lastKey == key
      ensures Added(blocks, data) == old(Added(blocks, data)) + {Item(key, value)}
      ensures pending == full && data == if full then [] else old(data) + [Item(key, value)]
      ensures blocks == if full then old(blocks) + [DataBlock(old(offset), old(data) + [Item(key, value)])] else old(blocks)
      ensures offset == if full then old(offset) + size + TRAILER else old(offset)
      ensures |index| == |old(index)| + (if old(pending) then 1 else 0) && index[..|old(index)|] == old(index)
      ensures old(pending) ==> ShortKey(index[|old(index)|], old(lastKey))
      ensures filter != null ==> filter.counted + |filter.keys| == old(filter.counted + |filter.keys|) + 1
    {
      hide Growing, IndexGrowing, LastIs, Promised, KeyLess, Held;
      ghost var before := index;
      if pending {
        PendingLast(blocks, index, data, lastKey);
        var sep := SeparateKeys(lastKey, key);
        index := index + [sep];
      }
      AddKeeps(blocks, before, index, data, pending, lastKey, Item(key, value));
      pending := false;
      if filter != null {
        PromiseMore(blocks, data, offset, filter.promised, filter.keys, Item(key, value));
        filter.AddKey(key.user);
      }
      lastKey := key;
      data := data + [Item(key, value)];
      if full {
        Flush(size);
      }
    }

    /** The block being filled is written. */
    method Flush(size: nat)
      requires Valid()
      modifies this`blocks, this`data, this`offset, this`pending, filter
      ensures Valid() && data == [] && (pending <==> old(pending) || old(data) != [])
      ensures blocks == if old(data) == [] then old(blocks) else old(blocks) + [DataBlock(old(offset), old(data))]
      ensures offset == if old(data) == [] then old(offset) else old(offset) + size + TRAILER
      ensures Added(blocks, data) == old(Added(blocks, data))
      ensures filter != null ==> filter.counted + |filter.keys| == old(filter.counted + |filter.keys|)
    {
      hide Growing, IndexGrowing, LastIs, Promised, Held;
      if data == [] {
        return;
      }
      FlushKeeps(blocks, index, data, pending, lastKey, offset);
      HeldMore(blocks, DataBlock(offset, data));
      ghost var items, at := data, offset;
      ghost var was := blocks;
      blocks := blocks + [DataBlock(offset, data)];
      offset := offset + size + TRAILER;
      data, pending := [], true;
      if filter != null {
        ghost var promised, keys := filter.promised, filter.keys;
        FiltersBehind(was, items, at, promised, keys, offset);
        filter.StartBlock(offset);
        PromiseMoves(was, items, at, promised, keys, offset, filter.promised, filter.keys);
      }
    }

    /** The rest is flushed, the filters closed, and the last index entry made from a short successor. */
    method Finish(size: nat) returns (t: Table)
      requires Valid()
      modifies this, filter
      ensures TableOk(t) && Held(t.blocks) == old(Added(blocks, data))
      ensures t.blocks == if old(data) == [] then old(blocks) else old(blocks) + [DataBlock(old(offset), old(data))]
      ensures offset == if old(data) == [] then old(offset) else old(offset) + size + TRAILER
      ensures |t.index| == |old(index)| + (if old(pending) || old(data) != [] then 1 else 0) && t.index[..|old(index)|] == old(index)
      ensures old(pending) || old(data) != [] ==> ShortKey(t.index[|old(index)|], old(lastKey))
      ensures (t.filters.Some? <==> filter != null) && (filter != null ==> t.filters.value == filter.filters && FiltersFit(filter.filters))
      ensures t.filters.Some? ==> |t.filters.value| <= offset / FILTER_BASE + 1
      ensures filter != null ==> Weight(filter.filters) <= old(filter.counted + |filter.keys|) * (filter.bitsPerKey + 79)
    {
      hide Growing, IndexGrowing, LastIs, Promised, Held, TableOk, Filtered;
      Flush(size);
      NothingAdded(blocks);
      ghost var promised: seq<set<Bytes>> := [];
      ghost var keys: seq<Bytes> := [];
      var filters := None;
      if filter != null {
        promised, keys := filter.promised, filter.keys;
        PromisedLength(blocks, data, offset, promised, keys);
        filter.Finish();
        FilteredAtLast(blocks, offset, promised, keys, filter.promised, filter.filters);
        filters := Some(filter.filters);
      }
      ghost var before := index;
      if pending {
        var sep := SucceedKey(lastKey);
        index := index + [sep];
      }
      IndexDone(blocks, before, index, pending, lastKey);
      t := Table(blocks, index, filters);
      FinishedOk(t);
    }
  }

  lemma FinishedOk(t: Table)
    requires BlocksOk(t.blocks) && |t.index| == |t.blocks| && IndexOk(t.blocks, t.index)
    requires t.filters.Some? ==> Filtered(t.blocks, t.filters.value)
    ensures TableOk(t)
  {
  }

  lemma NothingAdded(blocks: seq<DataBlock>)
    ensures Added(blocks, []) == Held(blocks)
  {
    assert (set x: Item | x in []) == {};
  }

  lemma HeldMore(blocks: seq<DataBlock>, b: DataBlock)
    ensures Held(blocks + [b]) == Held(blocks) + set x | x in b.items
    ensures Added(blocks + [b], []) == Added(blocks, b.items)
  {
    var all := blocks + [b];
    forall x | x in Held(blocks) + (set x | x in b.items) ensures x in Held(all) {
      if x in Held(blocks) {
        var i, z :| 0 <= i < |blocks| && z in blocks[i].items && z == x;
        assert x in all[i].items;
      } else {
        assert x in all[|blocks|].items;
      }
    }
    assert (set x: Item | x in []) == {};
  }

  lemma PendingLast(blocks: seq<DataBlock>, index: seq<Key>, data: seq<Item>, lastKey: Key)
    requires IndexGrowing(blocks, index, data, true) && LastIs(blocks, data, lastKey)
    ensures blocks != [] && data == [] && blocks[|blocks| - 1].items != [] && lastKey == LastKey(blocks[|blocks| - 1].items)
  {
  }

  lemma AddKeeps(blocks: seq<DataBlock>, index: seq<Key>, index': seq<Key>, data: seq<Item>, pending: bool, lastKey: Key, x: Item)
    requires Growing(blocks, data) && IndexGrowing(blocks, index, data, pending) && LastIs(blocks, data, lastKey)
    requires blocks != [] || data != [] ==> KeyLess(lastKey, x.key)
    requires if pending then |index'| == |index| + 1 && index'[..|index|] == index && Separates(lastKey, index'[|index|], x.key) else index' == index
    ensures Growing(blocks, data + [x]) && IndexGrowing(blocks, index', data + [x], false) && LastIs(blocks, data + [x], x.key)
    ensures Added(blocks, data + [x]) == Added(blocks, data) + {x}
  {
    hide Held;
    AllBelowNext(blocks, data, lastKey, x);
    AscendingMore(data, x);
    hide KeyLess, Lex, Ascending;
    IndexAfterAdd(blocks, index, index', data, pending, lastKey, x);
  }

  lemma AllBelowNext(blocks: seq<DataBlock>, data: seq<Item>, lastKey: Key, x: Item)
    requires Growing(blocks, data) && LastIs(blocks, data, lastKey)
    requires blocks != [] || data != [] ==> KeyLess(lastKey, x.key)
    ensures forall y | y in data :: KeyLess(y.key, x.key)
    ensures forall i | 0 <= i < |blocks| :: AllBefore(blocks[i].items, data + [x])
  {
    hide KeyLess;
    forall j | 0 <= j < |data| ensures KeyLess(data[j].key, x.key) {
      if j < |data| - 1 {
        KeyTransitive(data[j].key, lastKey, x.key);
      }
    }
    forall i, y | 0 <= i < |blocks| && y in blocks[i].items ensures KeyLess(y.key, x.key) {
      BlockBelow(blocks, data, lastKey, i, y);
      if y.key != lastKey {
        KeyTransitive(y.key, lastKey, x.key);
      }
    }
  }

  lemma BlockBelow(blocks: seq<DataBlock>, data: seq<Item>, lastKey: Key, i: nat, y: Item)
    requires Growing(blocks, data) && LastIs(blocks, data, lastKey) && i < |blocks| && y in blocks[i].items
    ensures y.key == lastKey || KeyLess(y.key, lastKey)
  {
    hide KeyLess;
    if data != [] {
      assert AllBefore(blocks[i].items, data) && data[|data| - 1] in data;
    } else {
      var last := blocks[|blocks| - 1].items;
      assert last != [] && last[|last| - 1] in last;
      if i < |blocks| - 1 {
        assert AllBefore(blocks[i].items, last);
      } else {
        var j :| 0 <= j < |last| && last[j] == y;
        assert Ascending(last);
      }
    }
  }

  lemma AscendingMore(data: seq<Item>, x: Item)
    requires Ascending(data) && forall y | y in data :: KeyLess(y.key, x.key)
    ensures Ascending(data + [x])
  {
    hide KeyLess;
    forall i, j | 0 <= i < j < |data| + 1 ensures KeyLess((data + [x])[i].key, (data + [x])[j].key) {
      if j == |data| {
        assert data[i] in data;
      }
    }
  }

  lemma IndexAfterAdd(blocks: seq<DataBlock>, index: seq<Key>, index': seq<Key>, data: seq<Item>, pending: bool, lastKey: Key, x: Item)
    requires IndexGrowing(blocks, index, data, pending) && LastIs(blocks, data, lastKey)
    requires if pending then |index'| == |index| + 1 && index'[..|index|] == index && Separates(lastKey, index'[|index|], x.key) else index' == index
    ensures IndexGrowing(blocks, index', data + [x], false)
  {
    hide KeyLess, Lex, Ascending, AllBefore;
    if pending {
      forall i | 0 <= i < |index'| ensures IndexKeyOk(blocks, i, index'[i]) {
        if i < |index| {
          assert index'[i] == index'[..|index|][i];
          assert IndexKeyOk(blocks, i, index[i]);
        }
      }
    }
  }

  lemma FlushKeeps(blocks: seq<DataBlock>, index: seq<Key>, data: seq<Item>, pending: bool, lastKey: Key, offset: nat)
    requires Growing(blocks, data) && IndexGrowing(blocks, index, data, pending) && LastIs(blocks, data, lastKey) && data != []
    ensures var blocks' := blocks + [DataBlock(offset, data)];
            Growing(blocks', []) && IndexGrowing(blocks', index, [], true) && LastIs(blocks', [], lastKey)
  {
    hide KeyLess, Lex;
    var blocks' := blocks + [DataBlock(offset, data)];
    assert Growing(blocks', []);
    hide Ascending, AllBefore;
    forall i | 0 <= i < |index| ensures IndexKeyOk(blocks', i, index[i]) {
      assert IndexKeyOk(blocks, i, index[i]);
    }
  }

  lemma IndexDone(blocks: seq<DataBlock>, index: seq<Key>, index': seq<Key>, pending: bool, lastKey: Key)
    requires IndexGrowing(blocks, index, [], pending) && LastIs(blocks, [], lastKey)
    requires if pending then |index'| == |index| + 1 && index'[..|index|] == index && (index'[|index|] == lastKey || KeyLess(lastKey, index'[|index|]))
             else index' == index
    ensures BlocksOk(blocks) && |index'| == |blocks| && IndexOk(blocks, index')
  {
    hide KeyLess, Lex, Ascending, AllBefore;
    forall i | 0 <= i < |index'| ensures IndexKeyOk(blocks, i, index'[i]) {
      if i < |index| {
        assert index'[i] == index'[..|index|][i];
        assert IndexKeyOk(blocks, i, index[i]);
      }
    }
  }

  lemma PromiseMore(blocks: seq<DataBlock>, data: seq<Item>, offset: nat, promised: seq<set<Bytes>>, keys: seq<Bytes>, x: Item)
    requires Promised(blocks, data, offset, promised, keys)
    ensures Promised(blocks, data + [x], offset, promised, keys + [x.key.user])
  {
  }

  lemma PromisedLength(blocks: seq<DataBlock>, data: seq<Item>, offset: nat, promised: seq<set<Bytes>>, keys: seq<Bytes>)
    requires Promised(blocks, data, offset, promised, keys)
    ensures |promised| == offset / FILTER_BASE
  {
  }

  lemma FiltersBehind(blocks: seq<DataBlock>, data: seq<Item>, at: nat, promised: seq<set<Bytes>>, keys: seq<Bytes>, offset: nat)
    requires Promised(blocks, data, at, promised, keys) && at <= offset
    ensures |promised| <= offset / FILTER_BASE
  {
  }

  /** Closing filters up to the next block's stretch keeps every promise. */
  lemma PromiseMoves(blocks: seq<DataBlock>, data: seq<Item>, at: nat, promised: seq<set<Bytes>>, keys: seq<Bytes>, offset: nat,
                     promised': seq<set<Bytes>>, keys': seq<Bytes>)
    requires Promised(blocks, data, at, promised, keys)
    requires |promised| <= |promised'| == offset / FILTER_BASE && promised'[..|promised|] == promised
    requires if |promised| == |promised'| then keys' == keys else keys' == [] && promised'[|promised|] == set key | key in keys
    ensures Promised(blocks + [DataBlock(at, data)], [], offset, promised', keys')
  {
    var all := blocks + [DataBlock(at, data)];
    forall i, x | 0 <= i < |all| && x in all[i].items ensures PromisedAt(all[i].offset, x.key.user, promised', keys') {
      var n := all[i].offset / FILTER_BASE;
      assert PromisedAt(all[i].offset, x.key.user, promised, keys);
      if n < |promised| {
        assert promised'[n] == promised'[..|promised|][n];
      }
    }
  }

  lemma FilteredAtLast(blocks: seq<DataBlock>, offset: nat, promised: seq<set<Bytes>>, keys: seq<Bytes>, promised': seq<set<Bytes>>,
                       filters: seq<Option<Filter>>)
    requires Promised(blocks, [], offset, promised, keys)
    requires |promised| <= |promised'| && promised'[..|promised|] == promised
    requires keys != [] ==> |promised'| == |promised| + 1 && promised'[|promised|] == set key | key in keys
    requires keys == [] ==> promised' == promised
    requires |promised'| == |filters| && forall i, key | 0 <= i < |filters| && key in promised'[i] :: Passes(filters[i], key)
    ensures Filtered(blocks, filters)
  {
    hide Passes;
    forall i, x | 0 <= i < |blocks| && x in blocks[i].items ensures LetThrough(filters, blocks[i].offset, x.key.user) {
      var n := blocks[i].offset / FILTER_BASE;
      assert PromisedAt(blocks[i].offset, x.key.user, promised, keys);
      if n < |promised| {
        assert promised'[n] == promised'[..|promised|][n];
      } else {
        assert keys != [];
      }
    }
  }
}
