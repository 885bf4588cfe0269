/**
  Writing a table file (TableBuilder in table/table_builder.cc): the bytes that go out are those of the table
  that Tables' builder makes of the same entries.
*/
module TableWriting {
  import opened InternalKeys
  import opened IntegerSizes
  import opened Comparators
  import opened KeyEncodings
  import opened Blocks
  import opened BlockIters
  import opened Filters
  import opened FilterBlocks
  import opened Formats
  import opened Tables
  import opened TableFiles

  // keys, values and blocks are well below the 32 bits of their lengths
  const LENGTH_LIMIT := 0x2000_0000

  /** The file so far holds the finished blocks, in their frames. */
  ghost predicate FileGrowing(file: Bytes, offset: nat, contents: seq<Bytes>, layouts: seq<Content>, blocks: seq<DataBlock>) {
    file == Frames(contents) && offset == |file| && Laid(contents, layouts, blocks)
  }

  lemma FileGrows(file: Bytes, offset: nat, contents: seq<Bytes>, layouts: seq<Content>, blocks: seq<DataBlock>,
                  block: Bytes, layout: Content, items: seq<Item>)
    requires FileGrowing(file, offset, contents, layouts, blocks)
    requires KeysFit(items) && BlockOf(block, layout, PairsOf(items))
    ensures FileGrowing(file + Framed(block), offset + |block| + TRAILER, contents + [block], layouts + [layout], blocks + [DataBlock(offset, items)])
    ensures HandleAt(contents + [block], |contents|) == BlockHandle(offset, |block|)
  {
    hide Framed, BlockOf, KeysFit, PairsOf;
    var contents', layouts', blocks' := contents + [block], layouts + [layout], blocks + [DataBlock(offset, items)];
    FramesAppend(contents, block);
    assert contents'[..|contents|] == contents;
    hide Frames;
    forall i | 0 <= i < |blocks'| ensures LaidAt(contents', layouts', blocks', i) {
      if i < |blocks| {
        assert LaidAt(contents, layouts, blocks, i);
        assert contents'[..i] == contents[..i];
      }
    }
  }

  lemma IndexPairsMore(index: seq<Key>, index': seq<Key>, contents: seq<Bytes>)
    requires IndexFits(index) && |index| < |contents| && |index'| == |index| + 1 && index'[..|index|] == index && KeyFits(index'[|index|])
    ensures IndexFits(index')
    ensures IndexPairs(index', contents) == IndexPairs(index, contents) + [IndexPair(index'[|index|], HandleAt(contents, |index|))]
  {
    hide KeyFits, IndexPair, HandleAt;
    forall i | 0 <= i < |index'| ensures KeyFits(index'[i]) {
      assert i < |index| ==> index'[i] == index'[..|index|][i] == index[i];
    }
    forall i | 0 <= i < |index| ensures index'[i] == index[i] {
      assert index'[i] == index'[..|index|][i];
    }
  }

  /** Blocks written later leave the handles of earlier ones. */
  lemma IndexPairsKept(index: seq<Key>, contents: seq<Bytes>, block: Bytes)
    requires IndexFits(index) && |index| <= |contents|
    ensures IndexPairs(index, contents + [block]) == IndexPairs(index, contents)
  {
    hide KeyFits, Frames;
    forall i | 0 <= i < |index| ensures HandleAt(contents + [block], i) == HandleAt(contents, i) {
      assert (contents + [block])[..i] == contents[..i];
    }
  }

  /** The bytes written, the block being filled and the index agree with the table in the making. */
  ghost predicate Agrees(file: Bytes, offset: nat, contents: seq<Bytes>, layouts: seq<Content>, blocks: seq<DataBlock>, data: seq<Item>, dataAdded: seq<Pair>,
                         index: seq<Key>, indexAdded: seq<Pair>, pending: bool, handle: BlockHandle)
  {
    && FileGrowing(file, offset, contents, layouts, blocks)
    && KeysFit(data) && dataAdded == PairsOf(data)
    && IndexFits(index) && |contents| == |index| + (if pending then 1 else 0)
    && indexAdded == IndexPairs(index, contents)
    && (pending ==> handle == HandleAt(contents, |contents| - 1))
  }

  lemma NothingAgrees()
    ensures Agrees([], 0, [], [], [], [], [], [], [], false, BlockHandle(0, 0))
  {
  }

  /** One more entry, and the index entry that waited for it. */
  lemma AddAgrees(file: Bytes, offset: nat, contents: seq<Bytes>, layouts: seq<Content>, blocks: seq<DataBlock>, data: seq<Item>, dataAdded: seq<Pair>,
                  index: seq<Key>, indexAdded: seq<Pair>, pending: bool, handle: BlockHandle,
                  x: Item, index': seq<Key>, indexAdded': seq<Pair>)
    requires Agrees(file, offset, contents, layouts, blocks, data, dataAdded, index, indexAdded, pending, handle) && KeyFits(x.key)
    requires |index'| == |index| + (if pending then 1 else 0) && index'[..|index|] == index
    requires pending ==> KeyFits(index'[|index|]) && indexAdded' == indexAdded + [IndexPair(index'[|index|], handle)]
    requires !pending ==> indexAdded' == indexAdded
    ensures Agrees(file, offset, contents, layouts, blocks, data + [x], dataAdded + [PairOf(x)], index', indexAdded', false, handle)
  {
    hide FileGrowing, IndexPair, PairOf, HandleAt;
    if pending {
      IndexPairsMore(index, index', contents);
    } else {
      assert index' == index;
    }
    hide IndexPairs, IndexFits;
  }

  /** The block is written. */
  lemma FlushAgrees(file: Bytes, offset: nat, contents: seq<Bytes>, layouts: seq<Content>, blocks: seq<DataBlock>, data: seq<Item>, dataAdded: seq<Pair>,
                    index: seq<Key>, indexAdded: seq<Pair>, handle: BlockHandle, block: Bytes, layout: Content)
    requires Agrees(file, offset, contents, layouts, blocks, data, dataAdded, index, indexAdded, false, handle)
    requires BlockOf(block, layout, dataAdded)
    ensures Agrees(file + Framed(block), offset + |block| + TRAILER, contents + [block], layouts + [layout], blocks + [DataBlock(offset, data)],
                   [], [], index, indexAdded, true, BlockHandle(offset, |block|))
  {
    hide Framed, BlockOf, FileGrowing, HandleAt;
    FileGrows(file, offset, contents, layouts, blocks, block, layout, data);
    IndexPairsKept(index, contents, block);
    hide IndexPairs, IndexFits;
  }

  lemma AgreedParts(file: Bytes, offset: nat, contents: seq<Bytes>, layouts: seq<Content>, blocks: seq<DataBlock>, data: seq<Item>, dataAdded: seq<Pair>,
                    index: seq<Key>, indexAdded: seq<Pair>, pending: bool, handle: BlockHandle)
    requires Agrees(file, offset, contents, layouts, blocks, data, dataAdded, index, indexAdded, pending, handle)
    ensures offset == |file| && (pending ==> handle.offset + handle.size <= |file|)
    ensures pending ==> contents != [] && handle == HandleAt(contents, |contents| - 1)
  {
    hide Laid, KeysFit, PairsOf, IndexFits, IndexPairs;
    if pending {
      var back := FrameAt(contents, |contents| - 1);
    }
    hide Frames, Framed;
  }

  /** All data blocks are out; the index lacks the last one's entry, if `pending`. */
  ghost predicate Ended(file: Bytes, contents: seq<Bytes>, layouts: seq<Content>, t: Table, indexAdded: seq<Pair>, pending: bool, handle: BlockHandle) {
    && file == Frames(contents) && Laid(contents, layouts, t.blocks) && |t.index| == |t.blocks|
    && IndexFits(t.index)
    && (pending ==> contents != [] && handle == HandleAt(contents, |contents| - 1) && |t.index[|t.index| - 1].user| <= LENGTH_LIMIT
                    && handle.offset + handle.size <= |file|
                    && IndexPairs(t.index, contents) == indexAdded + [IndexPair(t.index[|t.index| - 1], handle)])
    && (!pending ==> IndexPairs(t.index, contents) == indexAdded)
  }

  lemma EndedIs(file: Bytes, offset: nat, contents: seq<Bytes>, layouts: seq<Content>, t: Table, index: seq<Key>, indexAdded: seq<Pair>, pending: bool,
                handle: BlockHandle, last: Key, dataAdded: seq<Pair>)
    requires Agrees(file, offset, contents, layouts, t.blocks, [], dataAdded, index, indexAdded, pending, handle)
    requires |t.index| == |index| + (if pending then 1 else 0) && t.index[..|index|] == index
    requires pending ==> ShortKey(t.index[|index|], last)
    requires KeyFits(last) && |last.user| <= LENGTH_LIMIT
    ensures Ended(file, contents, layouts, t, indexAdded, pending, handle)
  {
    AgreedParts(file, offset, contents, layouts, t.blocks, [], dataAdded, index, indexAdded, pending, handle);
    hide Framed, Frames, LaidAt, HandleAt, IndexPair;
    if pending {
      IndexPairsMore(index, t.index, contents);
    } else {
      assert t.index == index;
    }
    hide IndexPairs, IndexFits;
  }

  lemma NotPendingWithData(b: TableBuilder)
    requires b.Valid()
    ensures b.pending ==> b.data == []
  {
    hide Growing, LastIs, Promised, FilterBlockBuilder.Valid, BlocksOk, IndexOk;
  }

  class TableWriter {
    const core: TableBuilder
    const blockSize: nat
    const interval: nat
    const name: Bytes
    var file: Bytes
    var dataBlock: BlockBuilder
    var indexBlock: BlockBuilder
    var pendingHandle: BlockHandle

    ghost var contents: seq<Bytes>
    ghost var layouts: seq<Content>

    ghost predicate Valid()
      reads this, core, core.filter, dataBlock, indexBlock
    {
      && core.Valid() && dataBlock.Valid() && indexBlock.Valid() && dataBlock != indexBlock
      && interval >= 1 && blockSize <= LENGTH_LIMIT && |name| <= LENGTH_LIMIT
      && interval == dataBlock.interval
      && Agrees(file, core.offset, contents, layouts, core.blocks, core.data, dataBlock.added, core.index, indexBlock.added, core.pending, pendingHandle)
      && |dataBlock.buffer| <= blockSize
      && KeyFits(core.lastKey) && |core.lastKey.user| <= LENGTH_LIMIT
    }

    /** The index and the file are below the lengths that their numbers can hold. */
    predicate Room()
      reads this, indexBlock
    {
      |indexBlock.buffer| <= LENGTH_LIMIT && |file| < TWO_64 / 2
    }

    constructor (filter: FilterBlockBuilder?, blockSize: nat, interval: nat, name: Bytes)
      requires filter != null ==> filter.Valid() && filter.keys == [] && filter.promised == []
      requires interval >= 1 && blockSize <= LENGTH_LIMIT && |name| <= LENGTH_LIMIT
      ensures Valid() && fresh(core) && fresh(dataBlock) && fresh(indexBlock)
      ensures core.filter == filter && core.blocks == [] && core.data == [] && core.lastKey.user == [] && this.name == name
      ensures file == [] && indexBlock.buffer == []
    {
      hide TableBuilder.Valid, BlockBuilder.Valid, FilterBlockBuilder.Valid, Agrees;
      this.blockSize, this.interval, this.name := blockSize, interval, name;
      core := new TableBuilder(filter);
      dataBlock := new BlockBuilder(interval);
      indexBlock := new BlockBuilder(1);
      file, pendingHandle, contents, layouts := [], BlockHandle(0, 0), [], [];
      NothingAgrees();
    }

    /** The index gets an entry for the last block written. */
    method AddIndexEntry(sep: Key, handle: BlockHandle)
      requires indexBlock.Valid() && |indexBlock.buffer| <= LENGTH_LIMIT
      requires KeyFits(sep) && |sep.user| <= LENGTH_LIMIT && HandleFits(handle)
      modifies indexBlock
      ensures indexBlock.Valid() && indexBlock.added == old(indexBlock.added) + [IndexPair(sep, handle)]
      ensures |indexBlock.buffer| <= |old(indexBlock.buffer)| + |sep.user| + 43
    {
      hide BlockBuilder.Valid, HandleBytes, KeyBytes, KeyFits;
      KeyBack(sep);
      HandleRoundTrip(handle, []);
      indexBlock.Add(KeyBytes(sep), HandleBytes(handle));
    }

    /** WriteBlock, for a data block: the block goes out in its frame, and a new one is begun. */
    method WriteDataBlock(block: Bytes, ghost layout: Content)
      requires interval >= 1
      modifies this`file, this`pendingHandle, this`contents, this`layouts, this`dataBlock
      ensures file == old(file) + Framed(block) && pendingHandle == BlockHandle(|old(file)|, |block|)
      ensures contents == old(contents) + [block] && layouts == old(layouts) + [layout]
      ensures fresh(dataBlock) && dataBlock.Valid() && dataBlock.added == [] && dataBlock.buffer == [] && dataBlock.interval == interval
    {
      hide BlockBuilder.Valid, Framed;
      pendingHandle := BlockHandle(|file|, |block|);
      file := file + Framed(block);
      contents, layouts := contents + [block], layouts + [layout];
      dataBlock := new BlockBuilder(interval);
    }

    /** The data block as bytes. */
    method FinishDataBlock() returns (block: Bytes, ghost layout: Content)
      requires dataBlock.Valid() && |dataBlock.buffer| <= 4 * LENGTH_LIMIT
      ensures BlockOf(block, layout, dataBlock.added) && |block| <= 3 * |dataBlock.buffer| + 8
      ensures |block| == dataBlock.CurrentSizeEstimate()
    {
      RestartsFew(dataBlock);
      hide BlockBuilder.Valid, IsBlock;
      block := dataBlock.Finish();
      layout := Content(dataBlock.added, dataBlock.shares, dataBlock.starts, dataBlock.restarts);
    }

    /** The entry goes into the data block, which is finished when it has reached its size. */
    method AddPair(key: Key, value: Bytes) returns (full: bool, block: Bytes, ghost layout: Content)
      requires dataBlock.Valid() && |dataBlock.buffer| <= blockSize <= LENGTH_LIMIT && KeyFits(key) && |key.user| + |value| <= LENGTH_LIMIT
      modifies dataBlock
      ensures dataBlock.Valid() && dataBlock.added == old(dataBlock.added) + [PairOf(Item(key, value))]
      ensures |dataBlock.buffer| <= |old(dataBlock.buffer)| + |key.user| + |value| + 23
      ensures full <==> dataBlock.CurrentSizeEstimate() >= blockSize
      ensures full ==> BlockOf(block, layout, dataBlock.added) && |block| <= 3 * |dataBlock.buffer| + 8 && |block| == dataBlock.CurrentSizeEstimate()
    {
      hide BlockBuilder.Valid, KeyBytes, BlockOf, KeyFits;
      KeyBack(key);
      dataBlock.Add(KeyBytes(key), value);
      assert PairOf(Item(key, value)) == Pair(KeyBytes(key), value) by { PairIs(key, value); }
      full := dataBlock.CurrentSizeEstimate() >= blockSize;
      block, layout := [], Content([], [], [], []);
      if full {
        block, layout := FinishDataBlock();
      }
    }

    /** A key above all before it. */
    method Add(key: Key, value: Bytes)
      requires Valid() && Room() && KeyFits(key) && |key.user| + |value| <= LENGTH_LIMIT
      requires core.blocks != [] || core.data != [] ==> KeyLess(core.lastKey, key)
      modifies this, core, core.filter, dataBlock, indexBlock
      ensures Valid() && core.lastKey == key && (dataBlock == old(dataBlock) || fresh(dataBlock)) && indexBlock == old(indexBlock)
      ensures Added(core.blocks, core.data) == old(Added(core.blocks, core.data)) + {Item(key, value)}
      ensures if |core.blocks| == |old(core.blocks)| then dataBlock.CurrentSizeEstimate() < blockSize
              else contents != [] && |contents[|contents| - 1]| >= blockSize
      ensures |indexBlock.buffer| <= |old(indexBlock.buffer)| + |old(core.lastKey).user| + 43 && |file| <= |old(file)| + 16 * LENGTH_LIMIT
      ensures core.filter != null ==> core.filter.counted + |core.filter.keys| == old(core.filter.counted + |core.filter.keys|) + 1
    {
      hide TableBuilder.Valid, BlockBuilder.Valid, FilterBlockBuilder.Valid, Agrees, Added, KeyLess, KeyBytes, HandleBytes, Framed, BlockOf, IndexPair, PairOf;
      hide Frames, Laid, KeysFit, IndexFits, Held;
      var pending, handle, n := core.pending, pendingHandle, |core.index|;
      ghost var blocks, data, index, added, offset := core.blocks, core.data, core.index, indexBlock.added, core.offset;
      ghost var dataAdded := dataBlock.added;
      AgreedParts(file, offset, contents, layouts, blocks, data, dataAdded, index, added, pending, handle);
      var full, block, layout := AddPair(key, value);
      core.Add(key, value, full, |block|);
      if pending {
        AddIndexEntry(core.index[n], handle);
      }
      AddAgrees(file, offset, contents, layouts, blocks, data, dataAdded, index, added, pending, handle, Item(key, value), core.index, indexBlock.added);
      if full {
        FlushAgrees(file, offset, contents, layouts, blocks, data + [Item(key, value)], dataBlock.added, core.index, indexBlock.added, handle, block, layout);
        WriteDataBlock(block, layout);
      }
    }

    /** What is left of the data goes out as a last block. */
    method FinishData() returns (t: Table, pending: bool)
      requires Valid() && Room()
      modifies this, core, core.filter
      ensures TableOk(t) && Held(t.blocks) == old(Added(core.blocks, core.data)) && (t.filters.Some? <==> core.filter != null)
      ensures t.filters.Some? ==> FiltersFit(t.filters.value) && |t.filters.value| <= |file| / FILTER_BASE + 1
      ensures core.filter != null ==>
                t.filters.Some? && Weight(t.filters.value) <= old(core.filter.counted + |core.filter.keys|) * (core.filter.bitsPerKey + 79)
      ensures |file| < TWO_64 / 2 + 8 * LENGTH_LIMIT && indexBlock == old(indexBlock) && indexBlock.Valid() && indexBlock.buffer == old(indexBlock.buffer)
      ensures indexBlock.added == old(indexBlock.added) && |indexBlock.buffer| <= LENGTH_LIMIT && interval >= 1 && |name| <= LENGTH_LIMIT
      ensures Ended(file, contents, layouts, t, indexBlock.added, pending, pendingHandle)
    {
      hide TableBuilder.Valid, BlockBuilder.Valid, FilterBlockBuilder.Valid, Agrees, Added, Held, Framed, BlockOf, TableOk, FiltersFit;
      ghost var blocks, data, index, added, offset := core.blocks, core.data, core.index, indexBlock.added, core.offset;
      var rest, waiting := core.data != [], core.pending;
      AgreedParts(file, offset, contents, layouts, blocks, data, dataBlock.added, index, added, waiting, pendingHandle);
      var block: Bytes := [];
      ghost var layout := Content([], [], [], []);
      assert |dataBlock.buffer| <= LENGTH_LIMIT;
      if rest {
        block, layout := FinishDataBlock();
      }
      ghost var dataAdded, last, handle := dataBlock.added, core.lastKey, pendingHandle;
      NotPendingWithData(core);
      t := core.Finish(|block|);
      pending := rest || waiting;
      if rest {
        FlushAgrees(file, offset, contents, layouts, blocks, data, dataAdded, index, added, handle, block, layout);
        WriteDataBlock(block, layout);
      }
      EndedIs(file, core.offset, contents, layouts, t, index, added, pending, pendingHandle, last, if rest then [] else dataAdded);
    }

    /** The metaindex block. */
    method MetaBlock(filter: Option<BlockHandle>) returns (meta: Bytes, ghost layout: Content)
      requires interval >= 1 && |name| <= LENGTH_LIMIT && (filter.Some? ==> |HandleBytes(filter.value)| <= LENGTH_LIMIT)
      ensures BlockOf(meta, layout, MetaPairs(name, filter)) && |meta| <= 16 * LENGTH_LIMIT
    {
      hide BlockBuilder.Valid, HandleBytes, IsBlock;
      var builder := new BlockBuilder(interval);
      if filter.Some? {
        builder.Add(FILTER_PREFIX + name, HandleBytes(filter.value));
      }
      assert builder.Valid();
      RestartsFew(builder);
      meta := builder.Finish();
      layout := Content(builder.added, builder.shares, builder.starts, builder.restarts);
    }

    /**
      Finish: the last data block, the filters, the metaindex, the index and the footer.  The offsets of the
      filters have 32 bits, so what was written is a table file if those of this table fit.
    */
    method Finish() returns (t: Table, ghost p: Parts)
      requires Valid() && Room()
      modifies this, core, core.filter, indexBlock
      ensures TableOk(t) && Held(t.blocks) == old(Added(core.blocks, core.data)) && (t.filters.Some? <==> core.filter != null)
      ensures core.filter != null ==>
                && t.filters.Some? && FiltersFit(t.filters.value)
                && Weight(t.filters.value) <= old(core.filter.counted + |core.filter.keys|) * (core.filter.bitsPerKey + 79)
      ensures (t.filters.Some? ==> BlockFits(t.filters.value)) ==> IsTableFile(file, name, t, p)
    {
      hide Valid, Room, TableBuilder.Valid, BlockBuilder.Valid, FilterBlockBuilder.Valid, Agrees, Ended, TableOk, IsTableFile, FiltersFit, BlockFits, Laid;
      hide Added, Held, Frames, Framed, BlockOf, IndexFits, IndexPairs, IndexPair, MetaPairs, KeyFits, HandleFits, HandleFor, HandleBytes, FooterBytes, FilterBlockBytes, FilterFrame;
      var pending;
      t, pending := FinishData();
      ghost var added, frames := indexBlock.added, file;
      EndedParts(file, contents, layouts, t, added, pending, pendingHandle);
      var filterHandle, filterFrame := WriteFilters(t);
      var meta, metaLayout := MetaBlock(filterHandle);
      var metaHandle := HandleFor(|file|, |meta|);
      file := file + Framed(meta);
      if pending {
        AddIndexEntry(t.index[|t.index| - 1], pendingHandle);
      }
      var index, indexLayout := FinishIndexBlock();
      var indexHandle := HandleFor(|file|, |index|);
      file := file + Framed(index) + FooterBytes(Footer(metaHandle, indexHandle));
      p := Parts(contents, layouts, meta, metaLayout, index, indexLayout);
      if t.filters.Some? ==> BlockFits(t.filters.value) {
        Assembled(file, name, t, p, frames, filterHandle, filterFrame, metaHandle, indexHandle);
      }
    }

    /** The block of the filters, if there are any. */
    method WriteFilters(t: Table) returns (handle: Option<BlockHandle>, ghost frame: Bytes)
      requires t.filters.Some? ==> FiltersFit(t.filters.value)
      modifies this`file
      ensures file == old(file) + frame && (handle.Some? ==> |HandleBytes(handle.value)| <= LENGTH_LIMIT)
      ensures (t.filters.Some? ==> BlockFits(t.filters.value)) ==>
                && frame == FilterFrame(t)
                && handle == if t.filters.Some? then Some(HandleFor(|old(file)|, |FilterBlockBytes(t.filters.value)|)) else None
    {
      hide FiltersFit, BlockFits, HandleFits, HandleFor, HandleBytes, Framed, FilterBlockBytes;
      handle, frame := None, [];
      if t.filters.Some? {
        var block := FinishFilterBlock(t.filters.value);
        handle, frame := Some(HandleFor(|file|, |block|)), Framed(block);
        file := file + Framed(block);
      }
      HandleShort(handle);
    }

    method FinishIndexBlock() returns (block: Bytes, ghost layout: Content)
      requires indexBlock.Valid() && |indexBlock.buffer| <= 3 * LENGTH_LIMIT
      ensures BlockOf(block, layout, indexBlock.added) && |block| <= 12 * LENGTH_LIMIT
    {
      RestartsFew(indexBlock);
      hide BlockBuilder.Valid, IsBlock;
      block := indexBlock.Finish();
      layout := Content(indexBlock.added, indexBlock.shares, indexBlock.starts, indexBlock.restarts);
    }
  }

  /** A handle's numbers have 64 bits. */
  function HandleFor(offset: nat, size: nat): (h: BlockHandle)
    ensures HandleFits(h)
  {
    BlockHandle(offset % TWO_64, size % TWO_64)
  }

  lemma HandleShort(h: Option<BlockHandle>)
    requires h.Some? ==> HandleFits(h.value)
    ensures h.Some? ==> |HandleBytes(h.value)| <= LENGTH_LIMIT
  {
    if h.Some? {
      HandleRoundTrip(h.value, []);
    }
    hide HandleBytes;
  }

  lemma EndedParts(file: Bytes, contents: seq<Bytes>, layouts: seq<Content>, t: Table, indexAdded: seq<Pair>, pending: bool, handle: BlockHandle)
    requires Ended(file, contents, layouts, t, indexAdded, pending, handle)
    ensures file == Frames(contents) && Laid(contents, layouts, t.blocks) && |t.index| == |t.blocks| == |contents| && IndexFits(t.index)
    ensures pending ==> t.index != [] && KeyFits(t.index[|t.index| - 1]) && |t.index[|t.index| - 1].user| <= LENGTH_LIMIT
    ensures pending && |file| < TWO_64 ==> HandleFits(handle)
    ensures IndexPairs(t.index, contents) == if pending then indexAdded + [IndexPair(t.index[|t.index| - 1], handle)] else indexAdded
  {
    hide LaidAt, Frames, HandleAt, IndexPair;
  }

  /** The pieces written are those of a table file. */
  lemma Assembled(file: Bytes, name: Bytes, t: Table, p: Parts, frames: Bytes, filterHandle: Option<BlockHandle>, filterFrame: Bytes,
                  metaHandle: BlockHandle, indexHandle: BlockHandle)
    requires Laid(p.contents, p.layouts, t.blocks) && IndexFits(t.index) && |t.index| == |t.blocks|
    requires t.filters.Some? ==> BlockFits(t.filters.value) && |t.filters.value| <= |frames| / FILTER_BASE + 1
    requires frames == Frames(p.contents) && |frames| < TWO_64 / 2 + 8 * LENGTH_LIMIT
    requires |p.meta| <= 16 * LENGTH_LIMIT && |p.index| <= 12 * LENGTH_LIMIT
    requires filterFrame == FilterFrame(t)
    requires filterHandle == if t.filters.Some? then Some(HandleFor(|frames|, |FilterBlockBytes(t.filters.value)|)) else None
    requires BlockOf(p.meta, p.metaLayout, MetaPairs(name, filterHandle))
    requires BlockOf(p.index, p.indexLayout, IndexPairs(t.index, p.contents))
    requires metaHandle == HandleFor(|frames + filterFrame|, |p.meta|)
    requires indexHandle == HandleFor(|frames + filterFrame + Framed(p.meta)|, |p.index|)
    requires file == frames + filterFrame + Framed(p.meta) + (Framed(p.index) + FooterBytes(Footer(metaHandle, indexHandle)))
    ensures IsTableFile(file, name, t, p)
  {
    FilterLength(t, frames);
    hide Laid, BlockOf, IndexFits, IndexPairs, MetaPairs, Frames, FilterBlockBytes, BlockFits, FilterFrame, FooterBytes;
    FitsAlready(|frames|, if t.filters.Some? then |FilterBlockBytes(t.filters.value)| else 0);
    FitsAlready(|frames + filterFrame|, |p.meta|);
    FitsAlready(|frames + filterFrame + Framed(p.meta)|, |p.index|);
    assert FooterOf(t, p) == Footer(metaHandle, indexHandle);
    Regroup(frames + filterFrame + Framed(p.meta), Framed(p.index), FooterBytes(FooterOf(t, p)));
  }

  lemma Regroup(a: Bytes, b: Bytes, c: Bytes)
    ensures a + (b + c) == a + b + c
  {
  }

  lemma FitsAlready(offset: nat, size: nat)
    requires offset < TWO_64 && size < TWO_64
    ensures HandleFor(offset, size) == BlockHandle(offset, size)
  {
  }

  lemma FilterLength(t: Table, frames: Bytes)
    requires t.filters.Some? ==> BlockFits(t.filters.value) && |t.filters.value| <= |frames| / FILTER_BASE + 1
    ensures |FilterFrame(t)| <= TWO_32 + |frames| / 512 + 20
    ensures t.filters.Some? ==> |FilterBlockBytes(t.filters.value)| <= |FilterFrame(t)|
  {
    if t.filters.Some? {
      FilterBlockLength(t.filters.value);
    }
    hide FilterBlockBytes, BlockFits;
  }

  lemma PairIs(key: Key, value: Bytes)
    requires KeyFits(key)
    ensures PairOf(Item(key, value)) == Pair(KeyBytes(key), value)
  {
  }
}
