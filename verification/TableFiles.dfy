/**
  A table as the bytes of its file (table/table_builder.cc, table/table.cc): data blocks, filter block,
  metaindex, index and footer.  A lookup that reads those bytes gives what Tables gives on the items.
*/
module TableFiles {
  import opened InternalKeys
  import opened IntegerSizes
  import opened Codings
  import opened Checksums
  import opened Comparators
  import opened KeyEncodings
  import opened Blocks
  import opened BlockIters
  import opened Filters
  import opened FilterBlocks
  import opened Formats
  import opened Tables

  // ---------------------------------------------------------------- what the blocks hold

  predicate KeysFit(items: seq<Item>) {
    forall i | 0 <= i < |items| :: KeyFits(items[i].key)
  }

  function PairOf(x: Item): Pair
    requires KeyFits(x.key)
  {
    Pair(KeyBytes(x.key), x.value)
  }

  /** The entries of a data block. */
  function PairsOf(items: seq<Item>): seq<Pair>
    requires KeysFit(items)
  {
    seq(|items|, i requires 0 <= i < |items| => PairOf(items[i]))
  }

  lemma PairsIncrease(items: seq<Item>)
    requires KeysFit(items) && Ascending(items)
    ensures Increasing(InternalLess, PairsOf(items))
  {
    hide KeyLess, KeyBytes, InternalLess;
    forall i, j | 0 <= i < j < |items| ensures InternalLess(PairsOf(items)[i].key, PairsOf(items)[j].key) {
      InternalLessOfKeys(items[i].key, items[j].key);
    }
  }

  /** Seeking the bytes finds the place that seeking the items finds. */
  lemma PairsSeek(items: seq<Item>, k: Key)
    requires KeysFit(items) && Ascending(items) && KeyFits(k)
    ensures FirstNotBelow(InternalLess, PairsOf(items), KeyBytes(k)) == SeekItem(items, k)
  {
    hide KeyLess, KeyBytes, InternalLess, Ascending, StrictOrder, SeekItem, FirstNotBelow;
    var es, n := PairsOf(items), SeekItem(items, k);
    PairsIncrease(items);
    InternalOrder();
    if n > 0 {
      InternalLessOfKeys(items[n - 1].key, k);
    }
    if n < |items| {
      InternalLessOfKeys(items[n].key, k);
    }
    IsFirstNotBelow(InternalLess, es, KeyBytes(k), n);
  }

  // ---------------------------------------------------------------- where the blocks are

  /** Blocks in their frames, one after another. */
  function Frames(contents: seq<Bytes>): Bytes {
    if contents == [] then [] else Frames(contents[..|contents| - 1]) + Framed(contents[|contents| - 1])
  }

  function HandleAt(contents: seq<Bytes>, i: nat): BlockHandle
    requires i < |contents|
  {
    BlockHandle(|Frames(contents[..i])|, |contents[i]|)
  }

  lemma FramesAppend(contents: seq<Bytes>, block: Bytes)
    ensures Frames(contents + [block]) == Frames(contents) + Framed(block)
  {
    assert (contents + [block])[..|contents|] == contents;
  }

  /** Every block stands between what comes before it and what comes after. */
  lemma {:induction false} FrameAt(contents: seq<Bytes>, i: nat) returns (back: Bytes)
    requires i < |contents|
    ensures Frames(contents) == Frames(contents[..i]) + Framed(contents[i]) + back
    decreases |contents|
  {
    hide Framed;
    var init, last := contents[..|contents| - 1], contents[|contents| - 1];
    if i < |init| {
      var b := FrameAt(init, i);
      assert init[..i] == contents[..i];
      back := b + Framed(last);
      assert Frames(contents[..i]) + Framed(contents[i]) + b + Framed(last) == Frames(contents[..i]) + Framed(contents[i]) + back;
    } else {
      back := [];
      assert contents[..i] == init;
      assert Frames(init) + Framed(last) + [] == Frames(init) + Framed(last);
    }
  }

  /** The entry of the index for a block. */
  function IndexPair(key: Key, handle: BlockHandle): Pair
    requires KeyFits(key)
  {
    Pair(KeyBytes(key), HandleBytes(handle))
  }

  predicate IndexFits(index: seq<Key>) {
    forall i | 0 <= i < |index| :: KeyFits(index[i])
  }

  function IndexPairs(index: seq<Key>, contents: seq<Bytes>): seq<Pair>
    requires IndexFits(index) && |index| <= |contents|
  {
    seq(|index|, i requires 0 <= i < |index| => IndexPair(index[i], HandleAt(contents, i)))
  }

  ghost predicate BlockOf(bytes: Bytes, c: Content, es: seq<Pair>) {
    c.es == es && IsBlock(bytes, c.es, c.shares, c.starts, c.restarts)
  }

  /** The data blocks: each holds its items, and starts where the table says. */
  ghost predicate Laid(contents: seq<Bytes>, layouts: seq<Content>, blocks: seq<DataBlock>) {
    && |contents| == |layouts| == |blocks|
    && (forall i | 0 <= i < |blocks| :: LaidAt(contents, layouts, blocks, i))
  }

  ghost predicate LaidAt(contents: seq<Bytes>, layouts: seq<Content>, blocks: seq<DataBlock>, i: nat)
    requires i < |blocks| && |contents| == |layouts| == |blocks|
  {
    && KeysFit(blocks[i].items)
    && blocks[i].offset == HandleAt(contents, i).offset
    && BlockOf(contents[i], layouts[i], PairsOf(blocks[i].items))
  }

  /** All blocks of a table file: data, filters, metaindex and index. */
  datatype Parts = Parts(contents: seq<Bytes>, layouts: seq<Content>, meta: Bytes, metaLayout: Content, index: Bytes, indexLayout: Content)

  // "filter."
  const FILTER_PREFIX: Bytes := [102, 105, 108, 116, 101, 114, 46]

  /** The metaindex names the filter block, if there is one. */
  function MetaPairs(name: Bytes, filter: Option<BlockHandle>): seq<Pair> {
    if filter.Some? then [Pair(FILTER_PREFIX + name, HandleBytes(filter.value))] else []
  }

  ghost function FilterFrame(t: Table): Bytes
    requires t.filters.Some? ==> BlockFits(t.filters.value)
  {
    if t.filters.Some? then Framed(FilterBlockBytes(t.filters.value)) else []
  }

  ghost function FilterHandle(t: Table, p: Parts): Option<BlockHandle>
    requires t.filters.Some? ==> BlockFits(t.filters.value)
  {
    if t.filters.Some? then Some(BlockHandle(|Frames(p.contents)|, |FilterBlockBytes(t.filters.value)|)) else None
  }

  ghost function Body(t: Table, p: Parts): Bytes
    requires t.filters.Some? ==> BlockFits(t.filters.value)
  {
    Frames(p.contents) + FilterFrame(t)
  }

  ghost function FooterOf(t: Table, p: Parts): Footer
    requires t.filters.Some? ==> BlockFits(t.filters.value)
  {
    var n := |Body(t, p)|;
    Footer(BlockHandle(n, |p.meta|), BlockHandle(n + |p.meta| + TRAILER_LENGTH, |p.index|))
  }

  /** The file of a table. */
  ghost predicate IsTableFile(file: Bytes, name: Bytes, t: Table, p: Parts) {
    && Laid(p.contents, p.layouts, t.blocks)
    && (t.filters.Some? ==> BlockFits(t.filters.value))
    && IndexFits(t.index) && |t.index| == |t.blocks|
    && BlockOf(p.meta, p.metaLayout, MetaPairs(name, FilterHandle(t, p)))
    && BlockOf(p.index, p.indexLayout, IndexPairs(t.index, p.contents))
    && |file| < TWO_64
    && HandleFits(FooterOf(t, p).metaindex) && HandleFits(FooterOf(t, p).index)
    && file == Body(t, p) + Framed(p.meta) + Framed(p.index) + FooterBytes(FooterOf(t, p))
  }

  // ---------------------------------------------------------------- reading blocks

  /** Each data block is read from its handle. */
  lemma DataBlockRead(file: Bytes, name: Bytes, t: Table, p: Parts, i: nat, verify: bool)
    requires IsTableFile(file, name, t, p) && i < |t.blocks|
    ensures |p.contents| == |t.blocks| && ReadBlock(file, HandleAt(p.contents, i), verify) == Some(p.contents[i])
    ensures HandleFits(HandleAt(p.contents, i))
  {
    hide *;
    FilePieces(file, name, t, p, i);
    var back := FrameAt(p.contents, i);
    var front, block := Frames(p.contents[..i]), p.contents[i];
    var rest := AfterFrames(t, p);
    assert file == front + Framed(block) + back + rest;
    Joined4(front, Framed(block), back, rest);
    BlockIsRead(front, block, back + rest, verify);
  }

  ghost function AfterFrames(t: Table, p: Parts): Bytes
    requires t.filters.Some? ==> BlockFits(t.filters.value)
  {
    FilterFrame(t) + Framed(p.meta) + Framed(p.index) + FooterBytes(FooterOf(t, p))
  }

  lemma FilePieces(file: Bytes, name: Bytes, t: Table, p: Parts, i: nat)
    requires IsTableFile(file, name, t, p) && i < |t.blocks|
    ensures |p.contents| == |t.blocks| && (t.filters.Some? ==> BlockFits(t.filters.value))
    ensures HandleFits(FooterOf(t, p).metaindex) && HandleFits(FooterOf(t, p).index)
    ensures file == Frames(p.contents) + AfterFrames(t, p)
    ensures HandleAt(p.contents, i) == BlockHandle(|Frames(p.contents[..i])|, |p.contents[i]|) && HandleFits(HandleAt(p.contents, i))
  {
    hide Framed, Frames, LaidAt, BlockOf, HandleBytes, FooterBytes, FilterBlockBytes, BlockFits, IndexPairs, MetaPairs, FilterFrame, FooterOf;
    FileSplit(Frames(p.contents), FilterFrame(t), Framed(p.meta), Framed(p.index), FooterBytes(FooterOf(t, p)));
    var back := FrameAt(p.contents, i);
  }

  lemma FileSplit(a: Bytes, b: Bytes, c: Bytes, d: Bytes, e: Bytes)
    ensures a + b + c + d + e == a + (b + c + d + e)
  {
  }

  lemma Joined4(a: Bytes, b: Bytes, c: Bytes, d: Bytes)
    ensures a + b + c + d == a + b + (c + d)
  {
  }

  lemma FilterBlockRead(file: Bytes, name: Bytes, t: Table, p: Parts, verify: bool)
    requires IsTableFile(file, name, t, p) && t.filters.Some?
    ensures BlockFits(t.filters.value) && FilterHandle(t, p).Some?
    ensures ReadBlock(file, FilterHandle(t, p).value, verify) == Some(FilterBlockBytes(t.filters.value))
    ensures HandleFits(FilterHandle(t, p).value)
  {
    hide Framed, Frames, ReadBlock, Laid, BlockOf, HandleBytes, FooterBytes, FilterBlockBytes, BlockFits, IndexPairs, MetaPairs;
    var front, block := Frames(p.contents), FilterBlockBytes(t.filters.value);
    var rest := Framed(p.meta) + Framed(p.index) + FooterBytes(FooterOf(t, p));
    Joined4(front + Framed(block), Framed(p.meta), Framed(p.index), FooterBytes(FooterOf(t, p)));
    assert file == front + Framed(block) + rest;
    BlockIsRead(front, block, rest, verify);
  }

  /** The footer leads to the metaindex and the index. */
  lemma FooterRead(file: Bytes, name: Bytes, t: Table, p: Parts, verify: bool)
    requires IsTableFile(file, name, t, p)
    ensures |file| >= FOOTER_LENGTH && DecodeFooter(file[|file| - FOOTER_LENGTH..]) == Some(FooterOf(t, p))
    ensures ReadBlock(file, FooterOf(t, p).metaindex, verify) == Some(p.meta)
    ensures ReadBlock(file, FooterOf(t, p).index, verify) == Some(p.index)
  {
    hide Framed, Frames, ReadBlock, Laid, BlockOf, HandleBytes, FooterBytes, FilterBlockBytes, BlockFits, IndexPairs, MetaPairs, DecodeFooter, FilterFrame;
    var body, m, x, f := Body(t, p), Framed(p.meta), Framed(p.index), FooterBytes(FooterOf(t, p));
    FooterRoundTrip(FooterOf(t, p));
    assert file[|file| - FOOTER_LENGTH..] == f;
    assert body + m + x + f == body + m + (x + f);
    BlockIsRead(body, p.meta, x + f, verify);
    BlockIsRead(body + m, p.index, f, verify);
  }

  // ---------------------------------------------------------------- seeking in the index

  /** Index keys rise: each lies between its block and the next. */
  lemma {:induction false} IndexRises(t: Table, i: nat, j: nat)
    requires TableOk(t) && i < j < |t.blocks|
    ensures |t.index| == |t.blocks| && KeyLess(t.index[i], t.index[j])
    decreases j
  {
    hide *;
    NextIndex(t, j - 1);
    if i < j - 1 {
      IndexRises(t, i, j - 1);
      KeyTransitive(t.index[i], t.index[j - 1], t.index[j]);
    }
  }

  lemma NextIndex(t: Table, i: nat)
    requires TableOk(t) && i + 1 < |t.blocks|
    ensures |t.index| == |t.blocks| && KeyLess(t.index[i], t.index[i + 1])
  {
    hide Filtered, KeyLess;
    var next := t.blocks[i + 1].items;
    assert IndexKeyOk(t.blocks, i, t.index[i]) && IndexKeyOk(t.blocks, i + 1, t.index[i + 1]);
    assert Ascending(next) && AllBefore(t.blocks[i].items, next);
    var last, first := LastKey(t.blocks[i].items), next[0].key;
    assert t.blocks[i].items[|t.blocks[i].items| - 1] in t.blocks[i].items && next[0] in next;
    assert KeyLess(t.index[i], first);
    if |next| > 1 {
      KeyTransitive(t.index[i], first, LastKey(next));
    }
    if t.index[i + 1] != LastKey(next) {
      KeyTransitive(t.index[i], LastKey(next), t.index[i + 1]);
    }
  }

  lemma IndexPairsIncrease(t: Table, contents: seq<Bytes>)
    requires TableOk(t) && IndexFits(t.index) && |t.index| <= |contents|
    ensures Increasing(InternalLess, IndexPairs(t.index, contents))
  {
    assert |t.index| == |t.blocks|;
    hide KeyLess, KeyBytes, InternalLess, TableOk;
    forall i, j | 0 <= i < j < |t.index| ensures InternalLess(IndexPairs(t.index, contents)[i].key, IndexPairs(t.index, contents)[j].key) {
      IndexRises(t, i, j);
      InternalLessOfKeys(t.index[i], t.index[j]);
    }
  }

  lemma IndexPairsSeek(t: Table, contents: seq<Bytes>, k: Key)
    requires TableOk(t) && IndexFits(t.index) && |t.index| <= |contents| && KeyFits(k)
    ensures FirstNotBelow(InternalLess, IndexPairs(t.index, contents), KeyBytes(k)) == SeekIndex(t.index, k)
  {
    IndexPairsIncrease(t, contents);
    InternalOrder();
    hide KeyLess, KeyBytes, InternalLess, TableOk, StrictOrder, Increasing, SeekIndex, FirstNotBelow, HandleBytes, Frames;
    var n := SeekIndex(t.index, k);
    if n > 0 {
      InternalLessOfKeys(t.index[n - 1], k);
    }
    if n < |t.index| {
      InternalLessOfKeys(t.index[n], k);
    }
    IsFirstNotBelow(InternalLess, IndexPairs(t.index, contents), KeyBytes(k), n);
  }

  // ---------------------------------------------------------------- opening and looking up

  /** Block and Block::NewIterator: none for a block that cannot be one.  `c` is what was written, if known. */
  method NewIterator(bytes: Bytes, less: Less, ghost c: Option<Content>) returns (it: BlockIter?)
    requires c.Some? ==> IsBlock(bytes, c.value.es, c.value.shares, c.value.starts, c.value.restarts)
    requires c.Some? ==> StrictOrder(less) && Increasing(less, c.value.es)
    ensures it != null ==> fresh(it) && it.Inv() && it.sound == c.Some? && it.less == less
    ensures c.Some? ==> it != null && it.content == c.value
  {
    if c.Some? {
      BlockTail(bytes, c.value.es, c.value.shares, c.value.starts, c.value.restarts);
    }
    hide Data, SharesOk, StrictOrder, Increasing, DecodeFixed32;
    if |bytes| < 4 {
      return null;
    }
    var n: nat := DecodeFixed32(bytes[|bytes| - 4..]);
    if n > (|bytes| - 4) / 4 || n == 0 {
      return null;
    }
    hide IsBlock;
    it := new BlockIter(bytes, less, c.Some?, if c.Some? then c.value else Content([], [], [], []));
  }

  /** Seek in a block and take what is there. */
  method SeekInBlock(bytes: Bytes, less: Less, target: Bytes, ghost c: Option<Content>) returns (r: Option<Pair>)
    requires c.Some? ==> IsBlock(bytes, c.value.es, c.value.shares, c.value.starts, c.value.restarts)
    requires c.Some? ==> StrictOrder(less) && Increasing(less, c.value.es)
    ensures c.Some? ==>
              var n := FirstNotBelow(less, c.value.es, target);
              r == if n < |c.value.es| then Some(c.value.es[n]) else None
  {
    hide IsBlock, StrictOrder, Increasing, FirstNotBelow, Written, AtEntry;
    var it := NewIterator(bytes, less, c);
    if it == null {
      return None;
    }
    it.Seek(target);
    if it.Valid() {
      it.InBounds();
      r := Some(Pair(it.key, it.Value()));
    } else {
      r := None;
    }
  }

  datatype OpenTable = OpenTable(file: Bytes, index: Bytes, filter: Option<FilterReader>)

  /** The table that a file was written for. */
  datatype Origin = Origin(name: Bytes, t: Table, p: Parts)

  ghost predicate Opened(table: OpenTable, w: Origin) {
    && IsTableFile(table.file, w.name, w.t, w.p) && TableOk(w.t) && table.index == w.p.index
    && (table.filter.Some? ==>
          w.t.filters.Some? && BlockFits(w.t.filters.value) && table.filter.value == OpenFilterBlock(FilterBlockBytes(w.t.filters.value)))
  }

  /** Table::Open and ReadMeta, for a reader whose filter policy has this name, if it has one. */
  method OpenFile(file: Bytes, policy: Option<Bytes>, paranoid: bool, ghost w: Option<Origin>) returns (r: Option<OpenTable>)
    requires w.Some? ==> IsTableFile(file, w.value.name, w.value.t, w.value.p) && TableOk(w.value.t)
    ensures r.Some? ==> r.value.file == file && (r.value.filter.Some? ==> ReaderOk(r.value.filter.value))
    ensures w.Some? ==> r.Some? && Opened(r.value, w.value)
    ensures w.Some? && policy == Some(w.value.name) ==> r.Some? && r.value.filter.Some? == w.value.t.filters.Some?
  {
    hide IsTableFile, TableOk, DecodeFooter, ReadBlock, ReaderOk, OpenFilterBlock, FilterBlockBytes;
    if w.Some? {
      FooterRead(file, w.value.name, w.value.t, w.value.p, paranoid);
    }
    if |file| < FOOTER_LENGTH {
      return None;
    }
    var footer := DecodeFooter(file[|file| - FOOTER_LENGTH..]);
    if footer.None? {
      return None;
    }
    var index := ReadBlock(file, footer.value.index, paranoid);
    if index.None? {
      return None;
    }
    var filter: Option<FilterReader> := None;
    if policy.Some? {
      filter := ReadMeta(file, footer.value.metaindex, policy.value, paranoid, w);
    }
    r := Some(OpenTable(file, index.value, filter));
  }

  /** ReadMeta and ReadFilter: an error on the way only means that there is no filter. */
  method ReadMeta(file: Bytes, metaindex: BlockHandle, policy: Bytes, paranoid: bool, ghost w: Option<Origin>) returns (filter: Option<FilterReader>)
    requires w.Some? ==> IsTableFile(file, w.value.name, w.value.t, w.value.p)
    requires w.Some? ==> ReadBlock(file, metaindex, paranoid) == Some(w.value.p.meta)
    ensures filter.Some? ==> ReaderOk(filter.value)
    ensures w.Some? && filter.Some? ==>
              w.value.t.filters.Some? && BlockFits(w.value.t.filters.value)
              && filter.value == OpenFilterBlock(FilterBlockBytes(w.value.t.filters.value))
    ensures w.Some? && policy == w.value.name && w.value.t.filters.Some? ==> filter.Some?
  {
    hide ReadBlock, ReaderOk, OpenFilterBlock, FilterBlockBytes, TakeHandle, HandleBytes, BlockFits, IsTableFile, IsBlock, FirstNotBelow, StrictOrder, Lex;
    var meta := ReadBlock(file, metaindex, paranoid);
    if meta.None? {
      return None;
    }
    var key := FILTER_PREFIX + policy;
    ghost var c: Option<Content> := None;
    if w.Some? {
      c := Some(w.value.p.metaLayout);
      MetaIs(file, w.value, key);
    }
    var found := SeekInBlock(meta.value, Lex, key, c);
    if found.None? || found.value.key != key {
      return None;
    }
    var handle := TakeHandle(found.value.value);
    if w.Some? {
      FilterBlockRead(file, w.value.name, w.value.t, w.value.p, paranoid);
      HandleRoundTrip(FilterHandle(w.value.t, w.value.p).value, []);
      assert HandleBytes(FilterHandle(w.value.t, w.value.p).value) + [] == HandleBytes(FilterHandle(w.value.t, w.value.p).value);
    }
    if handle.Nothing? {
      return None;
    }
    var block := ReadBlock(file, handle.value, paranoid);
    if block.None? {
      return None;
    }
    filter := Some(OpenFilterBlock(block.value));
  }

  /** What a search for a filter's name finds in the metaindex. */
  lemma MetaIs(file: Bytes, w: Origin, key: Bytes)
    requires IsTableFile(file, w.name, w.t, w.p)
    ensures var c := w.p.metaLayout;
            && IsBlock(w.p.meta, c.es, c.shares, c.starts, c.restarts) && StrictOrder(Lex) && Increasing(Lex, c.es)
            && var n := FirstNotBelow(Lex, c.es, key);
               && (n < |c.es| ==> w.t.filters.Some? && BlockFits(w.t.filters.value) && FilterHandle(w.t, w.p).Some?
                                  && c.es[n].value == HandleBytes(FilterHandle(w.t, w.p).value))
               && (w.t.filters.Some? && key == FILTER_PREFIX + w.name ==> n < |c.es| && c.es[n].key == key)
  {
    BytewiseOrder();
    LexTotal(key, key);
    hide IsBlock, Laid, BlockFits, HandleBytes, FilterBlockBytes, StrictOrder, Lex, FooterBytes, Framed, Frames, FooterOf, Body, HandleFits, FilterFrame;
  }

  /** The table as the reader has it: without filters, if it has no use for them. */
  function Served(table: OpenTable, t: Table): Table {
    if table.filter.Some? then t else t.(filters := None)
  }

  lemma ServedOk(table: OpenTable, t: Table)
    requires TableOk(t)
    ensures TableOk(Served(table, t)) && |t.index| == |t.blocks|
  {
    hide Filtered, BlocksOk, IndexOk;
  }

  /**
    Table::InternalGet on the bytes of a file: seek in the index, ask the filter, read the block, seek in it.
    For a file that was written for a table, it finds what the table's lookup leads to.
  */
  method GetFrom(table: OpenTable, k: Key, verify: bool, ghost w: Option<Origin>) returns (r: Option<Item>)
    requires KeyFits(k) && (table.filter.Some? ==> ReaderOk(table.filter.value))
    requires w.Some? ==> Opened(table, w.value)
    ensures w.Some? ==> |w.value.t.index| == |w.value.t.blocks| && r == Lookup(Served(table, w.value.t), k)
  {
    hide *;
    ghost var c: Option<Content> := None;
    if w.Some? {
      c := Some(w.value.p.indexLayout);
      IndexFinds(table, w.value, k);
    }
    var found := SeekInBlock(table.index, InternalLess, KeyBytes(k), c);
    if found.None? {
      return None;
    }
    var handle := TakeHandle(found.value.value);
    if w.Some? {
      LedOffset(table, w.value, k, handle.value);
    }
    if table.filter.Some? && handle.Taken? {
      ghost var filters: Option<FilterList> := None;
      if w.Some? {
        FilterIs(table, w.value);
        filters := w.value.t.filters;
      }
      var may := MayMatchAt(table.filter.value, handle.value.offset, k.user, filters);
      if !may {
        if w.Some? {
          FilteredOut(table, w.value, k);
        }
        return None;
      }
    }
    if handle.Nothing? {
      return None;
    }
    if w.Some? {
      LetIn(table, w.value, k, handle.value.offset);
    }
    r := GetFromBlock(table, handle.value, k, verify, w);
  }

  /** BlockReader, and the search in the block. */
  method GetFromBlock(table: OpenTable, handle: BlockHandle, k: Key, verify: bool, ghost w: Option<Origin>) returns (r: Option<Item>)
    requires KeyFits(k)
    requires w.Some? ==> Opened(table, w.value) && Led(w.value, k, handle)
    ensures w.Some? ==> SeekIndex(w.value.t.index, k) < |w.value.t.blocks| && r == InBlock(w.value.t, SeekIndex(w.value.t.index, k), k)
  {
    hide *;
    var block := ReadBlock(table.file, handle, verify);
    ghost var c: Option<Content> := None;
    if w.Some? {
      c := BlockFinds(table, w.value, k, handle, verify);
    }
    if block.None? {
      return None;
    }
    var found := SeekInBlock(block.value, InternalLess, KeyBytes(k), c);
    if found.None? || |found.value.key| < 8 {
      return None;
    }
    r := Some(Item(KeyOf(found.value.key), found.value.value));
  }

  /** The handle is that of the block the index leads to. */
  ghost predicate Led(w: Origin, k: Key, handle: BlockHandle) {
    var i := SeekIndex(w.t.index, k);
    i < |w.t.index| && i < |w.t.blocks| && i < |w.p.contents| && handle == HandleAt(w.p.contents, i)
  }

  ghost function InBlock(t: Table, i: nat, k: Key): Option<Item>
    requires i < |t.blocks|
  {
    var items := t.blocks[i].items;
    var j := SeekItem(items, k);
    if j < |items| then Some(items[j]) else None
  }

  /** What a search in the index block finds. */
  lemma IndexFinds(table: OpenTable, w: Origin, k: Key)
    requires KeyFits(k) && Opened(table, w)
    ensures |w.t.index| == |w.t.blocks|
    ensures var c := w.p.indexLayout;
            && IsBlock(table.index, c.es, c.shares, c.starts, c.restarts)
            && StrictOrder(InternalLess) && Increasing(InternalLess, c.es)
            && var n := FirstNotBelow(InternalLess, c.es, KeyBytes(k));
               && (n >= |c.es| ==> Lookup(Served(table, w.t), k) == None)
               && (n < |c.es| ==>
                     var t := TakeHandle(c.es[n].value);
                     t.Taken? && Led(w, k, t.value))
  {
    hide *;
    IndexIsLaid(table, w);
    var c, es := w.p.indexLayout, IndexPairs(w.t.index, w.p.contents);
    BlockParts(table.index, c, es);
    IndexPairsIncrease(w.t, w.p.contents);
    IndexPairsSeek(w.t, w.p.contents, k);
    InternalOrder();
    var n := SeekIndex(w.t.index, k);
    IndexPairsAt(w.t.index, w.p.contents);
    if n < |w.t.index| {
      DataBlockRead(table.file, w.name, w.t, w.p, n, true);
      HandleBack(HandleAt(w.p.contents, n));
      LedBy(w, k, n);
    } else {
      NotInIndex(table, w, k);
    }
  }

  lemma BlockParts(bytes: Bytes, c: Content, es: seq<Pair>)
    requires BlockOf(bytes, c, es)
    ensures c.es == es && IsBlock(bytes, c.es, c.shares, c.starts, c.restarts)
  {
    hide IsBlock;
  }

  lemma IndexPairsAt(index: seq<Key>, contents: seq<Bytes>)
    requires IndexFits(index) && |index| <= |contents|
    ensures |IndexPairs(index, contents)| == |index|
    ensures forall i | 0 <= i < |index| :: IndexPairs(index, contents)[i].value == HandleBytes(HandleAt(contents, i))
  {
    hide HandleAt, HandleBytes, KeyBytes;
  }

  lemma HandleBack(h: BlockHandle)
    requires HandleFits(h)
    ensures TakeHandle(HandleBytes(h)) == Taken(h, |HandleBytes(h)|)
  {
    HandleRoundTrip(h, []);
    hide HandleBytes, TakeHandle;
    assert HandleBytes(h) + [] == HandleBytes(h);
  }

  lemma LedBy(w: Origin, k: Key, n: nat)
    requires n == SeekIndex(w.t.index, k) && n < |w.t.index| == |w.t.blocks| == |w.p.contents|
    ensures Led(w, k, HandleAt(w.p.contents, n))
  {
    hide SeekIndex, HandleAt;
  }

  lemma NotInIndex(table: OpenTable, w: Origin, k: Key)
    requires |w.t.index| == |w.t.blocks| && SeekIndex(w.t.index, k) >= |w.t.index|
    ensures Lookup(Served(table, w.t), k) == None
  {
    hide SeekIndex, SeekItem, LetThrough;
  }

  lemma IndexIsLaid(table: OpenTable, w: Origin)
    requires Opened(table, w)
    ensures TableOk(w.t) && |w.t.index| == |w.t.blocks| == |w.p.contents| && IndexFits(w.t.index)
    ensures IsTableFile(table.file, w.name, w.t, w.p) && BlockOf(table.index, w.p.indexLayout, IndexPairs(w.t.index, w.p.contents))
    ensures Laid(w.p.contents, w.p.layouts, w.t.blocks)
  {
    hide Framed, Frames, LaidAt, BlockOf, HandleBytes, FooterBytes, FilterBlockBytes, BlockFits, IndexPairs, MetaPairs, FilterFrame, FooterOf, Filtered, BlocksOk, IndexOk, OpenFilterBlock;
  }

  lemma FilterIs(table: OpenTable, w: Origin)
    requires Opened(table, w) && table.filter.Some?
    ensures w.t.filters.Some? && BlockFits(w.t.filters.value) && table.filter.value == OpenFilterBlock(FilterBlockBytes(w.t.filters.value))
  {
    hide IsTableFile, TableOk, OpenFilterBlock, FilterBlockBytes, BlockFits;
  }

  /** The block's offset in the handle is the offset its filter was made for. */
  lemma LedOffset(table: OpenTable, w: Origin, k: Key, handle: BlockHandle)
    requires Opened(table, w) && Led(w, k, handle)
    ensures SeekIndex(w.t.index, k) < |w.t.blocks| && handle.offset == w.t.blocks[SeekIndex(w.t.index, k)].offset
  {
    IndexIsLaid(table, w);
    hide Opened, SeekIndex, HandleAt, BlockOf, KeysFit, PairsOf;
    assert LaidAt(w.p.contents, w.p.layouts, w.t.blocks, SeekIndex(w.t.index, k));
  }

  lemma BlockFinds(table: OpenTable, w: Origin, k: Key, handle: BlockHandle, verify: bool) returns (c: Option<Content>)
    requires KeyFits(k) && Opened(table, w) && Led(w, k, handle)
    ensures c.Some? && SeekIndex(w.t.index, k) < |w.t.blocks|
    ensures var block := ReadBlock(table.file, handle, verify);
            && block.Some?
            && IsBlock(block.value, c.value.es, c.value.shares, c.value.starts, c.value.restarts)
            && StrictOrder(InternalLess) && Increasing(InternalLess, c.value.es)
            && var n := FirstNotBelow(InternalLess, c.value.es, KeyBytes(k));
               if n < |c.value.es| then
                 |c.value.es[n].key| >= 8
                 && InBlock(w.t, SeekIndex(w.t.index, k), k) == Some(Item(KeyOf(c.value.es[n].key), c.value.es[n].value))
               else InBlock(w.t, SeekIndex(w.t.index, k), k) == None
  {
    var i := SeekIndex(w.t.index, k);
    IndexIsLaid(table, w);
    DataBlockRead(table.file, w.name, w.t, w.p, i, verify);
    assert LaidAt(w.p.contents, w.p.layouts, w.t.blocks, i);
    assert Ascending(w.t.blocks[i].items);
    var items := w.t.blocks[i].items;
    PairsIncrease(items);
    PairsSeek(items, k);
    InternalOrder();
    c := Some(w.p.layouts[i]);
    if SeekItem(items, k) < |items| {
      KeyBack(items[SeekItem(items, k)].key);
    }
    hide Opened, TableOk, IsTableFile, IsBlock, StrictOrder, Increasing, FirstNotBelow, SeekIndex, HandleBytes, KeyBytes, KeyOf, HandleAt, ReadBlock, SeekItem, Laid;
  }

  lemma FilteredOut(table: OpenTable, w: Origin, k: Key)
    requires Opened(table, w) && table.filter.Some? && |w.t.index| == |w.t.blocks| && w.t.filters.Some?
    requires SeekIndex(w.t.index, k) < |w.t.blocks| && !LetThrough(w.t.filters.value, w.t.blocks[SeekIndex(w.t.index, k)].offset, k.user)
    ensures Lookup(Served(table, w.t), k) == None
  {
    hide Opened, SeekIndex, LetThrough, SeekItem;
  }

  lemma LetIn(table: OpenTable, w: Origin, k: Key, offset: nat)
    requires Opened(table, w) && |w.t.index| == |w.t.blocks| && SeekIndex(w.t.index, k) < |w.t.blocks|
    requires table.filter.Some? ==> w.t.filters.Some? && LetThrough(w.t.filters.value, offset, k.user)
    requires offset == w.t.blocks[SeekIndex(w.t.index, k)].offset
    ensures Lookup(Served(table, w.t), k) == InBlock(w.t, SeekIndex(w.t.index, k), k)
  {
    hide Opened, SeekIndex, LetThrough, SeekItem;
  }
}
