/**
  Filters as bytes, and the block that holds those of a table (util/bloom.cc, table/filter_block.cc): bits
  packed eight to a byte with the probe count behind them, filters end to end with an array of their offsets.
  On what was written the reader answers as the filters do; damage it takes for a match.
*/
module FilterBlocks {
  import opened InternalKeys
  import opened IntegerSizes
  import opened Checksums
  import opened Codings
  import opened Blocks
  import opened BlockIters
  import opened Filters

  // ---------------------------------------------------------------- bits in bytes

  function BitValue(b: bool): nat {
    if b then 1 else 0
  }

  /** Bit i of a number weighs two to the i. */
  function NumberOf(b: seq<bool>): (r: nat)
    ensures r < Pow2(|b|)
  {
    if b == [] then 0 else BitValue(b[0]) + 2 * NumberOf(b[1..])
  }

  function ByteOf(b: seq<bool>): (r: Byte)
    requires |b| == 8
  {
    assert Pow2(8) == 256;
    NumberOf(b)
  }

  /** x >> i & 1 */
  predicate BitAt(x: nat, i: nat) {
    if i == 0 then x % 2 == 1 else BitAt(x / 2, i - 1)
  }

  lemma {:induction false} NumberBits(b: seq<bool>, i: nat)
    requires i < |b|
    ensures BitAt(NumberOf(b), i) == b[i]
  {
    if i > 0 {
      NumberBits(b[1..], i - 1);
      assert NumberOf(b) / 2 == NumberOf(b[1..]);
    }
  }

  function Packed(bits: seq<bool>): (r: Bytes)
    requires |bits| % 8 == 0
    ensures 8 * |r| == |bits|
  {
    if bits == [] then [] else [ByteOf(bits[..8])] + Packed(bits[8..])
  }

  lemma {:induction false} PackedBit(bits: seq<bool>, i: nat)
    requires |bits| % 8 == 0 && i < |bits|
    ensures BitAt(Packed(bits)[i / 8], i % 8) == bits[i]
    decreases |bits|
  {
    hide BitAt, NumberOf;
    if i < 8 {
      NumberBits(bits[..8], i);
    } else {
      PackedBit(bits[8..], i - 8);
      assert (i - 8) / 8 == i / 8 - 1 && (i - 8) % 8 == i % 8;
    }
  }

  // ---------------------------------------------------------------- one filter

  /** What CreateFilter appends: the array of bits, and the number of probes. */
  function FilterBytes(f: Filter): (r: Bytes)
    requires FilterFits(f)
    ensures 8 * (|r| - 1) == |f.bits|
  {
    Packed(f.bits) + [f.k]
  }

  /** BloomFilterPolicy::KeyMayMatch on bytes, whatever they are; `f` is the filter they were made from, if any. */
  method KeyMayMatchIn(key: Bytes, filter: Bytes, ghost f: Option<Filter>) returns (may: bool)
    requires f.Some? ==> FilterFits(f.value) && filter == FilterBytes(f.value)
    ensures may <==> |filter| >= 2 && (filter[|filter| - 1] > 30 || AllSet(filter, key))
    ensures f.Some? ==> (may <==> Passes(f, key))
  {
    var len := |filter|;
    if len < 2 {
      return false;
    }
    var k := filter[len - 1];
    if k > 30 {
      return true;
    }
    hide *;
    var h := BloomHash(key);
    var delta := Delta(h);
    for j := 0 to k
      invariant h == Probe(BloomHash(key), delta, j)
      invariant forall i | 0 <= i < j :: Probed(filter, BloomHash(key), delta, i)
    {
      if !BitSet(filter, h) {
        MissingOne(filter, key, j);
        if f.Some? {
          OneMissing(f.value, filter, key, j);
        }
        return false;
      }
      ProbedNext(filter, BloomHash(key), delta, j);
      NextProbe(BloomHash(key), delta, j);
      h := AddWord(h, delta);
    }
    AllAreSet(filter, key);
    if f.Some? {
      AllProbed(f.value, filter, key);
    }
    may := true;
  }

  /** The bit of the array that a hash falls on. */
  predicate BitSet(filter: Bytes, h: Word)
    requires |filter| >= 2
  {
    var bitpos := h % ((|filter| - 1) * 8);
    BitAt(filter[bitpos / 8], bitpos % 8)
  }

  predicate Probed(filter: Bytes, h: Word, delta: Word, i: nat)
    requires |filter| >= 2
  {
    BitSet(filter, Probe(h, delta, i))
  }

  predicate AllSet(filter: Bytes, key: Bytes)
    requires |filter| >= 2
  {
    forall i | 0 <= i < filter[|filter| - 1] :: Probed(filter, BloomHash(key), Delta(BloomHash(key)), i)
  }

  lemma MissingOne(filter: Bytes, key: Bytes, j: nat)
    requires |filter| >= 2 && j < filter[|filter| - 1]
    requires !BitSet(filter, Probe(BloomHash(key), Delta(BloomHash(key)), j))
    ensures !AllSet(filter, key)
  {
    hide BitSet, BloomHash, Delta, Probe;
    assert !Probed(filter, BloomHash(key), Delta(BloomHash(key)), j);
  }

  lemma AllAreSet(filter: Bytes, key: Bytes)
    requires |filter| >= 2
    requires forall i | 0 <= i < filter[|filter| - 1] :: Probed(filter, BloomHash(key), Delta(BloomHash(key)), i)
    ensures AllSet(filter, key)
  {
    hide Probed, BloomHash, Delta;
  }

  lemma ProbedNext(filter: Bytes, h: Word, delta: Word, j: nat)
    requires |filter| >= 2 && BitSet(filter, Probe(h, delta, j))
    ensures Probed(filter, h, delta, j)
  {
    hide BitSet;
  }

  /** A bit of the array is the filter's bit. */
  lemma BitSetIs(f: Filter, filter: Bytes, h: Word)
    requires FilterFits(f) && filter == FilterBytes(f)
    ensures |filter| >= 2 && f.k == filter[|filter| - 1]
    ensures BitSet(filter, h) == f.bits[h % |f.bits|]
  {
    hide Packed, BitAt;
    BitInFilter(f, filter, h % |f.bits|);
  }

  lemma OneMissing(f: Filter, filter: Bytes, key: Bytes, j: nat)
    requires FilterFits(f) && filter == FilterBytes(f) && |filter| >= 2 && j < filter[|filter| - 1] <= 30
    requires !BitSet(filter, Probe(BloomHash(key), Delta(BloomHash(key)), j))
    ensures !Passes(Some(f), key)
  {
    BitSetIs(f, filter, Probe(BloomHash(key), Delta(BloomHash(key)), j));
    hide BitSet, FilterBytes, BloomHash, Delta, Probe;
  }

  lemma AllProbed(f: Filter, filter: Bytes, key: Bytes)
    requires FilterFits(f) && filter == FilterBytes(f) && |filter| >= 2
    requires forall i | 0 <= i < filter[|filter| - 1] :: Probed(filter, BloomHash(key), Delta(BloomHash(key)), i)
    ensures Passes(Some(f), key)
  {
    hide BitSet, FilterBytes, BloomHash, Delta, Probe;
    BitSetIs(f, filter, 0);
    forall i | 0 <= i < f.k ensures f.bits[Probe(BloomHash(key), Delta(BloomHash(key)), i) % |f.bits|] {
      assert Probed(filter, BloomHash(key), Delta(BloomHash(key)), i);
      BitSetIs(f, filter, Probe(BloomHash(key), Delta(BloomHash(key)), i));
    }
  }

  lemma NextProbe(h: Word, delta: Word, j: nat)
    ensures Probe(h, delta, j + 1) == AddWord(Probe(h, delta, j), delta)
  {
  }

  predicate BitIn(filter: Bytes, i: nat) {
    i / 8 < |filter| && BitAt(filter[i / 8], i % 8)
  }

  lemma BitInFilter(f: Filter, filter: Bytes, i: nat)
    requires FilterFits(f) && filter == FilterBytes(f) && i < |f.bits|
    ensures f.k == filter[|filter| - 1]
    ensures BitIn(filter, i) == f.bits[i]
  {
    PackedBit(f.bits, i);
    hide Packed, BitAt;
    assert filter[i / 8] == Packed(f.bits)[i / 8];
  }

  // ---------------------------------------------------------------- the filter block

  /** A filter for each stretch of the file, none where no block starts. */
  type FilterList = seq<Option<Filter>>

  function OneFilter(f: Option<Filter>): Bytes
    requires f.Some? ==> FilterFits(f.value)
  {
    if f.Some? then FilterBytes(f.value) else []
  }

  /** The filters one after another. */
  function FilterData(filters: FilterList): Bytes
    requires FiltersFit(filters)
  {
    if filters == [] then [] else FilterData(filters[..|filters| - 1]) + OneFilter(filters[|filters| - 1])
  }

  lemma {:induction false} FilterDataSplit(filters: FilterList, i: nat)
    requires FiltersFit(filters) && i < |filters|
    ensures |FilterData(filters[..i])| <= |FilterData(filters[..i + 1])| <= |FilterData(filters)|
    ensures FilterData(filters)[|FilterData(filters[..i])|..|FilterData(filters[..i + 1])|] == OneFilter(filters[i])
    decreases |filters|
  {
    hide OneFilter;
    var init := filters[..|filters| - 1];
    if i < |init| {
      FilterDataSplit(init, i);
      assert init[..i] == filters[..i] && init[..i + 1] == filters[..i + 1];
    } else {
      assert filters[..i] == init && filters[..i + 1] == filters;
    }
  }

  /** Where each filter starts. */
  function FilterStarts(filters: FilterList): (r: seq<Word>)
    requires FiltersFit(filters) && |FilterData(filters)| < TWO_32
    ensures |r| == |filters|
  {
    if filters == [] then []
    else FilterStarts(filters[..|filters| - 1]) + [|FilterData(filters[..|filters| - 1])|]
  }

  lemma {:induction false} FilterStartAt(filters: FilterList, i: nat)
    requires FiltersFit(filters) && |FilterData(filters)| < TWO_32 && i < |filters|
    ensures FilterStarts(filters)[i] == |FilterData(filters[..i])|
    decreases |filters|
  {
    hide OneFilter;
    var init := filters[..|filters| - 1];
    if i < |init| {
      FilterStartAt(init, i);
      assert init[..i] == filters[..i];
    }
  }

  const FILTER_BASE_LG: Byte := 11

  ghost predicate BlockFits(filters: FilterList) {
    FiltersFit(filters) && |FilterData(filters)| < TWO_32
  }

  /** FilterBlockBuilder::Finish */
  ghost function FilterBlockBytes(filters: FilterList): Bytes
    requires BlockFits(filters)
  {
    FilterData(filters) + (Fixed32s(FilterStarts(filters)) + (EncodeFixed32(|FilterData(filters)|) + [FILTER_BASE_LG]))
  }

  lemma FilterDataNext(filters: FilterList, i: nat)
    requires FiltersFit(filters) && i < |filters|
    ensures FilterData(filters[..i + 1]) == FilterData(filters[..i]) + OneFilter(filters[i])
    ensures |FilterData(filters[..i + 1])| < TWO_32 ==> FilterStarts(filters[..i + 1]) == FilterStarts(filters[..i]) + [|FilterData(filters[..i])|]
  {
    assert filters[..i + 1][..i] == filters[..i];
  }

  lemma FilterDataGrows(filters: FilterList, i: nat)
    requires FiltersFit(filters) && i <= |filters|
    ensures |FilterData(filters[..i])| <= |FilterData(filters)|
  {
    if i < |filters| {
      FilterDataSplit(filters, i);
    } else {
      assert filters[..i] == filters;
    }
  }

  /** GenerateFilter for each stretch, and Finish: offsets are cut to 32 bits, as the code stores them. */
  method FinishFilterBlock(filters: FilterList) returns (block: Bytes)
    requires FiltersFit(filters)
    ensures BlockFits(filters) ==> block == FilterBlockBytes(filters)
  {
    hide FilterData, FilterStarts, OneFilter, Fixed32s, EncodeFixed32, FilterFits;
    var result: Bytes, starts: seq<Word> := [], [];
    NoFilterData();
    for i := 0 to |filters|
      invariant result == FilterData(filters[..i])
      invariant |FilterData(filters)| < TWO_32 ==> |FilterData(filters[..i])| < TWO_32 && starts == FilterStarts(filters[..i])
    {
      FilterDataNext(filters, i);
      FilterDataGrows(filters, i + 1);
      starts := starts + [|result| % TWO_32];
      result := result + OneFilter(filters[i]);
    }
    assert filters[..|filters|] == filters;
    var arrayOffset := |result| % TWO_32;
    block := result + (Fixed32s(starts) + (EncodeFixed32(arrayOffset) + [FILTER_BASE_LG]));
  }

  lemma {:induction false} DataWeight(filters: FilterList)
    requires FiltersFit(filters)
    ensures 8 * |FilterData(filters)| == Weight(filters)
    decreases |filters|
  {
    hide FilterFits;
    if filters != [] {
      DataWeight(filters[..|filters| - 1]);
      var f := filters[|filters| - 1];
      if f.Some? {
        assert FilterFits(f.value);
      }
    }
  }

  lemma FilterBlockLength(filters: FilterList)
    requires BlockFits(filters)
    ensures |FilterBlockBytes(filters)| < TWO_32 + 4 * |filters| + 5
  {
    Fixed32sLength(FilterStarts(filters));
    hide FilterData, FilterStarts, Fixed32s;
  }

  lemma NoFilterData()
    ensures FilterData([]) == [] && FilterStarts([]) == []
  {
  }

  /** What a FilterBlockReader keeps: where the array of offsets is, how many filters it has, and the stretch. */
  datatype FilterReader = FilterReader(data: Bytes, offset: nat, num: nat, baseLg: nat)

  ghost predicate ReaderOk(r: FilterReader) {
    r.num > 0 ==> r.offset + 4 * r.num + 5 <= |r.data|
  }

  /** FilterBlockReader's constructor; a block that cannot be right has no filters. */
  function OpenFilterBlock(contents: Bytes): (r: FilterReader)
    ensures ReaderOk(r)
    ensures |contents| < 5 || DecodeFixed32(contents[|contents| - 5..]) > |contents| - 5 ==> r.num == 0
  {
    var n := |contents|;
    if n < 5 then FilterReader([], 0, 0, 0)
    else
      var lastWord := DecodeFixed32(contents[n - 5..]);
      if lastWord > n - 5 then FilterReader([], 0, 0, contents[n - 1])
      else FilterReader(contents, lastWord, (n - 5 - lastWord) / 4, contents[n - 1])
  }

  function WordAt(data: Bytes, i: nat): Word
    requires i + 4 <= |data|
  {
    DecodeFixed32(data[i..i + 4])
  }

  /** The reader has no filter for the stretch, or its offsets cannot be right. */
  ghost predicate Damaged(r: FilterReader, index: nat)
    requires ReaderOk(r)
  {
    index < r.num ==>
      var start, limit := WordAt(r.data, r.offset + index * 4), WordAt(r.data, r.offset + index * 4 + 4);
      start > limit || (limit > r.offset && start != limit)
  }

  lemma DamagedIs(r: FilterReader, index: nat)
    requires ReaderOk(r)
    ensures index >= r.num ==> Damaged(r, index)
    ensures index < r.num ==>
              (Damaged(r, index) <==>
               var start, limit := WordAt(r.data, r.offset + index * 4), WordAt(r.data, r.offset + index * 4 + 4);
               start > limit || (limit > r.offset && start != limit))
  {
    hide WordAt;
  }

  /** FilterBlockReader::KeyMayMatch: errors are potential matches.  `filters` are those the block was made from, if any. */
  method MayMatchAt(r: FilterReader, blockOffset: nat, key: Bytes, ghost filters: Option<FilterList>) returns (may: bool)
    requires ReaderOk(r)
    requires filters.Some? ==> BlockFits(filters.value) && r == OpenFilterBlock(FilterBlockBytes(filters.value))
    ensures Damaged(r, StretchOf(r, blockOffset)) ==> may
    ensures filters.Some? ==> (may <==> LetThrough(filters.value, blockOffset, key))
  {
    hide *;
    var index := StretchOf(r, blockOffset);
    DamagedIs(r, index);
    if index < r.num {
      WordsInside(r, index);
      var start := WordAt(r.data, r.offset + index * 4);
      var limit := WordAt(r.data, r.offset + index * 4 + 4);
      ghost var f: Option<Filter> := None;
      if filters.Some? {
        FilterFound(filters.value, blockOffset, start, limit);
        f := TheFilter(r, filters.value, blockOffset, start, limit);
      }
      if start <= limit && limit <= r.offset {
        may := KeyMayMatchIn(key, r.data[start..limit], f);
        if filters.Some? && f.None? {
          NoneMatches(filters.value, blockOffset, key);
        }
        if filters.Some? && f.Some? {
          SomeMatches(filters.value, blockOffset, key);
        }
        return;
      } else if start == limit {
        return false;
      }
    }
    if filters.Some? {
      ReaderIs(filters.value);
      PastFilters(filters.value, blockOffset, key);
    }
    may := true;
  }

  lemma PastFilters(filters: FilterList, blockOffset: nat, key: Bytes)
    ensures blockOffset / FILTER_BASE >= |filters| ==> LetThrough(filters, blockOffset, key)
  {
  }

  /** The stretch that a block starts in, by the reader's own measure. */
  function StretchOf(r: FilterReader, blockOffset: nat): nat {
    ShiftRight(blockOffset, r.baseLg)
  }

  function ShiftRight(n: nat, k: nat): nat
    decreases k
  {
    if k == 0 then n else ShiftRight(n / 2, k - 1)
  }

  lemma ShiftedByBase(n: nat)
    ensures ShiftRight(n, 11) == n / FILTER_BASE
  {
    var a, b, c := n / 16, n / 16 / 16, n / 16 / 16 / 8;
    ShiftedByFour(n, 7);
    ShiftedByFour(a, 3);
    assert ShiftRight(b, 3) == b / 2 / 2 / 2 == c;
    assert c == n / 2048;
  }

  lemma ShiftedByFour(n: nat, k: nat)
    ensures ShiftRight(n, k + 4) == ShiftRight(n / 16, k)
  {
    assert ShiftRight(n, k + 4) == ShiftRight(n / 2, k + 3) == ShiftRight(n / 2 / 2, k + 2);
    assert ShiftRight(n / 2 / 2, k + 2) == ShiftRight(n / 2 / 2 / 2, k + 1) == ShiftRight(n / 2 / 2 / 2 / 2, k);
  }

  lemma WordsInside(r: FilterReader, index: nat)
    requires ReaderOk(r) && index < r.num
    ensures r.offset + index * 4 + 8 <= |r.data| && r.offset <= |r.data|
  {
  }

  lemma TheFilter(r: FilterReader, filters: FilterList, blockOffset: nat, start: nat, limit: nat) returns (f: Option<Filter>)
    requires FoundFilter(r, filters, blockOffset, start, limit)
    ensures blockOffset / FILTER_BASE < |filters| && f == filters[blockOffset / FILTER_BASE]
    ensures f.Some? ==> FilterFits(f.value) && start <= limit <= |r.data| && r.data[start..limit] == FilterBytes(f.value)
    ensures start <= limit <= r.offset && (f.None? ==> start == limit)
  {
    hide FilterFits, FilterBytes;
    f := filters[blockOffset / FILTER_BASE];
  }

  /** The offsets read are those of the filter of the block's stretch. */
  ghost predicate FoundFilter(r: FilterReader, filters: FilterList, blockOffset: nat, start: nat, limit: nat) {
    var i := blockOffset / FILTER_BASE;
    && i < |filters| && (filters[i].Some? ==> FilterFits(filters[i].value))
    && start <= limit <= r.offset <= |r.data| && r.data[start..limit] == OneFilter(filters[i])
  }

  lemma NoneMatches(filters: FilterList, blockOffset: nat, key: Bytes)
    requires blockOffset / FILTER_BASE < |filters| && filters[blockOffset / FILTER_BASE] == None
    ensures !LetThrough(filters, blockOffset, key)
  {
  }

  lemma SomeMatches(filters: FilterList, blockOffset: nat, key: Bytes)
    requires blockOffset / FILTER_BASE < |filters|
    ensures LetThrough(filters, blockOffset, key) <==> Passes(filters[blockOffset / FILTER_BASE], key)
  {
    hide Passes;
  }

  /** What the constructor makes of a block that was written. */
  lemma ReaderIs(filters: FilterList)
    requires BlockFits(filters)
    ensures OpenFilterBlock(FilterBlockBytes(filters))
         == FilterReader(FilterBlockBytes(filters), |FilterData(filters)|, |filters|, 11)
    ensures forall n: nat :: StretchOf(OpenFilterBlock(FilterBlockBytes(filters)), n) == n / FILTER_BASE
  {
    var d, f := FilterData(filters), Fixed32s(FilterStarts(filters));
    var w := EncodeFixed32(|d|);
    Fixed32sLength(FilterStarts(filters));
    Fixed32RoundTrip(|d|);
    forall n: nat ensures ShiftRight(n, 11) == n / FILTER_BASE {
      ShiftedByBase(n);
    }
    hide FilterData, FilterStarts, Fixed32s, EncodeFixed32, DecodeFixed32, ShiftRight;
    var all := d + (f + (w + [FILTER_BASE_LG]));
    assert FilterBlockBytes(filters) == all;
    var n := |all|;
    assert all[n - 5..] == w + [FILTER_BASE_LG];
    FirstFour(w, [FILTER_BASE_LG]);
    assert all[n - 1] == FILTER_BASE_LG;
  }

  lemma FirstFour(w: Bytes, rest: Bytes)
    requires |w| == 4
    ensures DecodeFixed32(w + rest) == DecodeFixed32(w)
  {
  }

  lemma Fixed32sLength(xs: seq<Word>)
    ensures |Fixed32s(xs)| == 4 * |xs|
  {
    if xs != [] {
      Fixed32sAt(xs, 0);
    }
  }

  lemma FilterFound(filters: FilterList, blockOffset: nat, start: nat, limit: nat)
    requires BlockFits(filters)
    requires var r := OpenFilterBlock(FilterBlockBytes(filters));
             var index := StretchOf(r, blockOffset);
             && index < r.num
             && start == WordAt(r.data, r.offset + index * 4) && limit == WordAt(r.data, r.offset + index * 4 + 4)
    ensures FoundFilter(OpenFilterBlock(FilterBlockBytes(filters)), filters, blockOffset, start, limit)
  {
    hide FilterData, FilterBlockBytes, OpenFilterBlock, OneFilter, WordAt, FoundFilter, StretchOf, FiltersFit, BlockFits;
    ReaderIs(filters);
    var i := blockOffset / FILTER_BASE;
    FilterWords(filters, i);
    FilterFits1(filters, i);
    FilterDataSplit(filters, i);
    FilterFoundAt(filters, blockOffset, i, start, limit);
  }

  lemma FilterFits1(filters: FilterList, i: nat)
    requires BlockFits(filters) && i < |filters|
    ensures FiltersFit(filters) && (filters[i].Some? ==> FilterFits(filters[i].value))
  {
  }

  lemma FilterFoundAt(filters: FilterList, blockOffset: nat, i: nat, start: nat, limit: nat)
    requires BlockFits(filters) && i == blockOffset / FILTER_BASE < |filters| && (filters[i].Some? ==> FilterFits(filters[i].value))
    requires start <= limit <= |FilterData(filters)| && FilterData(filters)[start..limit] == OneFilter(filters[i])
    ensures FoundFilter(FilterReader(FilterBlockBytes(filters), |FilterData(filters)|, |filters|, 11), filters, blockOffset, start, limit)
  {
    hide FilterData, FilterBlockBytes, OneFilter, FoundFilter, FiltersFit, FilterFits;
    var block, n := FilterBlockBytes(filters), |FilterData(filters)|;
    DataInFront(filters);
    FrontSlice(block, n, start, limit);
    FoundIs(FilterReader(block, n, |filters|, 11), filters, blockOffset, i, start, limit);
  }

  lemma DataInFront(filters: FilterList)
    requires BlockFits(filters)
    ensures |FilterData(filters)| <= |FilterBlockBytes(filters)| && FilterBlockBytes(filters)[..|FilterData(filters)|] == FilterData(filters)
  {
    hide FilterData, OneFilter, Fixed32s, FilterStarts, EncodeFixed32, BlockFits;
  }

  lemma FoundIs(r: FilterReader, filters: FilterList, blockOffset: nat, i: nat, start: nat, limit: nat)
    requires i == blockOffset / FILTER_BASE < |filters| && (filters[i].Some? ==> FilterFits(filters[i].value))
    requires start <= limit <= r.offset <= |r.data| && r.data[start..limit] == OneFilter(filters[i])
    ensures FoundFilter(r, filters, blockOffset, start, limit)
  {
    hide OneFilter, FilterFits;
  }

  lemma FilterWords(filters: FilterList, i: nat)
    requires BlockFits(filters) && i < |filters|
    ensures |FilterData(filters)| + 4 * i + 8 <= |FilterBlockBytes(filters)|
    ensures WordAt(FilterBlockBytes(filters), |FilterData(filters)| + i * 4) == |FilterData(filters[..i])|
    ensures WordAt(FilterBlockBytes(filters), |FilterData(filters)| + i * 4 + 4) == |FilterData(filters[..i + 1])|
  {
    hide *;
    StartWord(filters, i);
    if i + 1 < |filters| {
      StartWord(filters, i + 1);
    } else {
      LastLimit(filters);
      assert filters[..i + 1] == filters;
    }
  }

  lemma StartWord(filters: FilterList, i: nat)
    requires BlockFits(filters) && i < |filters|
    ensures |FilterData(filters)| + 4 * i + 8 <= |FilterBlockBytes(filters)|
    ensures WordAt(FilterBlockBytes(filters), |FilterData(filters)| + 4 * i) == |FilterData(filters[..i])|
  {
    hide FilterData, FilterStarts, Fixed32s, EncodeFixed32, DecodeFixed32;
    var d, xs := FilterData(filters), FilterStarts(filters);
    var f, t := Fixed32s(xs), EncodeFixed32(|d|) + [FILTER_BASE_LG];
    FilterStartAt(filters, i);
    Fixed32sLength(xs);
    Fixed32sAt(xs, i);
    Fixed32RoundTrip(xs[i]);
    MiddleSlice(d, f, t, 4 * i, 4 * i + 4);
  }

  /** After the last start comes the end of the filters, so every filter has its limit next to its start. */
  lemma LastLimit(filters: FilterList)
    requires BlockFits(filters)
    ensures |FilterData(filters)| + 4 * |filters| + 4 <= |FilterBlockBytes(filters)|
    ensures WordAt(FilterBlockBytes(filters), |FilterData(filters)| + 4 * |filters|) == |FilterData(filters)|
  {
    hide FilterData, FilterStarts, Fixed32s, EncodeFixed32, DecodeFixed32;
    var d, xs := FilterData(filters), FilterStarts(filters);
    var f, w := Fixed32s(xs), EncodeFixed32(|d|);
    Fixed32sLength(xs);
    Fixed32RoundTrip(|d|);
    var all := d + (f + (w + [FILTER_BASE_LG]));
    assert all[|d| + |f|..|d| + |f| + 4] == w;
  }
}
