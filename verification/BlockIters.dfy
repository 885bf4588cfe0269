/**
  Iterating over a block (table/block.cc).  On any bytes at all the iterator stays inside them; on what a
  BlockBuilder wrote it is a plain cursor over the entries, in both directions, and Seek finds the first key
  not below its target.  Lengths are added without the 32-bit wrap-around of the code.
*/
module BlockIters {
  import opened IntegerSizes
  import opened InternalKeys
  import opened Codings
  import opened Checksums
  import opened Cursors
  import opened Blocks

  // ---------------------------------------------------------------- reading bytes

  /** GetRestartPoint: the `i`-th number of the array that starts at `restarts`. */
  function RestartPoint(data: Bytes, restarts: nat, i: nat): Word
    requires restarts + 4 * i + 4 <= |data|
  {
    DecodeFixed32(data[restarts + 4 * i..restarts + 4 * i + 4])
  }

  /** An entry's three lengths, and where its key bytes start. */
  datatype Header = Bad | Header(shared: nat, nonShared: nat, valueLength: nat, start: nat)

  /** DecodeEntry: three small numbers in a byte each, or three varints. */
  function DecodeEntry(data: Bytes, p: nat, limit: nat): (h: Header)
    requires limit <= |data|
    ensures h.Header? ==> p + 3 <= h.start && h.start + h.nonShared + h.valueLength <= limit
  {
    if limit < p + 3 then Bad
    else if data[p] < 128 && data[p + 1] < 128 && data[p + 2] < 128 then Within(data[p], data[p + 1], data[p + 2], p + 3, limit)
    else SlowHeader(data[p..limit], p, limit)
  }

  function SlowHeader(input: Bytes, p: nat, limit: nat): (h: Header)
    ensures h.Header? ==> p + 3 <= h.start && h.start + h.nonShared + h.valueLength <= limit
  {
    var a := TakeVarint32(input);
    if a.Nothing? then Bad else
    var b := TakeVarint32(input[a.used..]);
    if b.Nothing? then Bad else
    var c := TakeVarint32(input[a.used..][b.used..]);
    if c.Nothing? then Bad else Within(a.value, b.value, c.value, p + a.used + b.used + c.used, limit)
  }

  function Within(shared: nat, nonShared: nat, valueLength: nat, start: nat, limit: nat): Header {
    if limit < start + nonShared + valueLength then Bad else Header(shared, nonShared, valueLength, start)
  }

  // ---------------------------------------------------------------- what a builder wrote

  lemma {:induction false} Fixed32sAt(xs: seq<Word>, i: nat)
    requires i < |xs|
    ensures |Fixed32s(xs)| == 4 * |xs|
    ensures Fixed32s(xs)[4 * i..4 * i + 4] == EncodeFixed32(xs[i])
    decreases |xs|
  {
    var init := xs[..|xs| - 1];
    if i < |init| {
      Fixed32sAt(init, i);
      assert init[i] == xs[i];
    } else if init != [] {
      Fixed32sAt(init, 0);
    }
  }

  lemma BlockTail(block: Bytes, es: seq<Pair>, shares: seq<nat>, starts: seq<nat>, restarts: seq<Word>)
    requires IsBlock(block, es, shares, starts, restarts)
    ensures |block| == Offset(es, shares, |es|) + 4 * |restarts| + 4
    ensures block[..Offset(es, shares, |es|)] == Data(es, shares, |es|)
    ensures DecodeFixed32(block[|block| - 4..]) == |restarts|
  {
    Fixed32sAt(restarts, 0);
    Fixed32RoundTrip(|restarts|);
    var d, f, c := Data(es, shares, |es|), Fixed32s(restarts), EncodeFixed32(|restarts|);
    hide Data, Fixed32s, EncodeFixed32, DecodeFixed32, Offsets;
    assert block == d + (f + c);
    assert block[|d| + |f|..] == c;
  }

  lemma RestartIs(block: Bytes, es: seq<Pair>, shares: seq<nat>, starts: seq<nat>, restarts: seq<Word>, i: nat)
    requires IsBlock(block, es, shares, starts, restarts) && i < |starts|
    ensures Offset(es, shares, |es|) + 4 * i + 4 <= |block|
    ensures RestartPoint(block, Offset(es, shares, |es|), i) == Offset(es, shares, starts[i])
  {
    hide Data, Fixed32s, EncodeFixed32, DecodeFixed32, SharesOk, Sized;
    BlockTail(block, es, shares, starts, restarts);
    Fixed32sAt(restarts, i);
    Fixed32RoundTrip(restarts[i]);
    var d, f, c := Data(es, shares, |es|), Fixed32s(restarts), EncodeFixed32(|restarts|);
    MiddleSlice(d, f, c, 4 * i, 4 * i + 4);
  }

  lemma MiddleSlice(d: Bytes, f: Bytes, c: Bytes, i: nat, j: nat)
    requires i <= j <= |f|
    ensures (d + (f + c))[|d| + i..|d| + j] == f[i..j]
  {
  }

  lemma {:induction false} DataSplit(es: seq<Pair>, shares: seq<nat>, i: nat, n: nat)
    requires SharesOk(es, shares) && i < n <= |es|
    ensures shares[i] <= |es[i].key|
    ensures Offset(es, shares, i + 1) == Offset(es, shares, i) + |EntryBytes(shares[i], es[i])| <= |Data(es, shares, n)|
    ensures Data(es, shares, n)[Offset(es, shares, i)..Offset(es, shares, i + 1)] == EntryBytes(shares[i], es[i])
    decreases n
  {
    hide EntryBytes, SharesOk;
    EntryShares(es, shares, i);
    if i < n - 1 {
      EntryShares(es, shares, n - 1);
      DataSplit(es, shares, i, n - 1);
      var d, a, b := Data(es, shares, n - 1), Offset(es, shares, i), Offset(es, shares, i + 1);
      assert (d + EntryBytes(shares[n - 1], es[n - 1]))[a..b] == d[a..b];
    }
  }

  /** Three varints in front of anything are read one after another. */
  lemma SlowDecodes(x: nat, y: nat, z: nat, tail: Bytes, p: nat, limit: nat)
    requires x < TWO_32 && y < TWO_32 && z < TWO_32
    ensures SlowHeader(Varint(x) + (Varint(y) + (Varint(z) + tail)), p, limit)
         == Within(x, y, z, p + |Varint(x)| + |Varint(y)| + |Varint(z)|, limit)
  {
    hide Varint, TakeVarint32, Within;
    var a, b, c := Varint(x), Varint(y), Varint(z);
    Varint32RoundTrip(x, b + (c + tail));
    DropPrefix(a, b + (c + tail));
    Varint32RoundTrip(y, c + tail);
    DropPrefix(b, c + tail);
    Varint32RoundTrip(z, tail);
  }

  lemma EntryInFront(shared: nat, e: Pair, data: Bytes, p: nat, limit: nat)
    requires shared <= |e.key| && p + |EntryBytes(shared, e)| <= limit <= |data|
    requires data[p..p + |EntryBytes(shared, e)|] == EntryBytes(shared, e)
    ensures var rest := data[p + |EntryBytes(shared, e)|..limit];
            data[p..limit] == Varint(shared) + (Varint(|e.key| - shared) + (Varint(|e.value|) + ((e.key[shared..] + e.value) + rest)))
  {
    var entry, body := EntryBytes(shared, e), e.key[shared..] + e.value;
    var rest := data[p + |entry|..limit];
    EntryIs(shared, e);
    JoinSlices(data, p, p + |entry|, limit);
    var a, b, c := Varint(shared), Varint(|e.key| - shared), Varint(|e.value|);
    hide EntryBytes, Varint;
    Regroup(a, b + (c + body), rest);
    Regroup(b, c + body, rest);
    Regroup(c, body, rest);
  }

  /** The entry's bytes, whatever follows them, are decoded to its lengths. */
  lemma EntryDecodes(shared: nat, e: Pair, data: Bytes, p: nat, limit: nat, k: nat, start: nat)
    requires shared <= |e.key| && |e.key| < TWO_32 && |e.value| < TWO_32
    requires p + |EntryBytes(shared, e)| <= limit <= |data|
    requires data[p..p + |EntryBytes(shared, e)|] == EntryBytes(shared, e)
    requires k == |e.key| - shared && start == p + |EntryBytes(shared, e)| - k - |e.value|
    ensures DecodeEntry(data, p, limit) == Header(shared, k, |e.value|, start)
  {
    hide EntryBytes, Varint, SlowHeader;
    var entry, body := EntryBytes(shared, e), e.key[shared..] + e.value;
    var rest := data[p + |entry|..limit];
    EntryIs(shared, e);
    EntryInFront(shared, e, data, p, limit);
    SlowDecodes(shared, k, |e.value|, body + rest, p, limit);
    SmallLengths(shared, k, |e.value|, data, p, entry, body);
  }

  lemma EntryParts2(shared: nat, e: Pair, data: Bytes, p: nat, k: nat, start: nat)
    requires shared <= |e.key| && p + |EntryBytes(shared, e)| <= |data|
    requires data[p..p + |EntryBytes(shared, e)|] == EntryBytes(shared, e)
    requires k == |e.key| - shared && start == p + |EntryBytes(shared, e)| - k - |e.value|
    ensures p <= start && data[start..start + k] == e.key[shared..] && data[start + k..start + k + |e.value|] == e.value
  {
    EntryIs(shared, e);
    BodyAt(data, p, EntryBytes(shared, e), Varint(shared), Varint(k), Varint(|e.value|), e.key[shared..], e.value);
    hide EntryBytes, Varint;
  }

  lemma EntryIs(shared: nat, e: Pair)
    requires shared <= |e.key|
    ensures EntryBytes(shared, e) == Varint(shared) + (Varint(|e.key| - shared) + (Varint(|e.value|) + (e.key[shared..] + e.value)))
  {
  }

  lemma DropPrefix(a: Bytes, b: Bytes)
    ensures (a + b)[|a|..] == b
  {
  }

  /** If the first three bytes are small they are the three lengths. */
  lemma SmallLengths(x: nat, y: nat, z: nat, data: Bytes, p: nat, entry: Bytes, body: Bytes)
    requires entry == Varint(x) + (Varint(y) + (Varint(z) + body)) && p + |entry| <= |data| && data[p..p + |entry|] == entry
    ensures |entry| >= 3
    ensures data[p] < 128 && data[p + 1] < 128 && data[p + 2] < 128 ==>
              x == data[p] as nat && y == data[p + 1] as nat && z == data[p + 2] as nat && |entry| == 3 + |body|
  {
    FirstByte(x);
    FirstByte(y);
    FirstByte(z);
    var a, b, c := Varint(x), Varint(y), Varint(z);
    hide Varint;
    assert data[p] == entry[0] && data[p + 1] == entry[1] && data[p + 2] == entry[2];
    if data[p] < 128 {
      assert |a| == 1 && entry[1] == b[0];
      if data[p + 1] < 128 {
        assert |b| == 1 && entry[2] == c[0];
      }
    }
  }

  lemma FirstByte(v: nat)
    ensures Varint(v)[0] < 128 ==> Varint(v) == [v]
  {
  }

  lemma BodyAt(data: Bytes, p: nat, entry: Bytes, a: Bytes, b: Bytes, c: Bytes, k: Bytes, v: Bytes)
    requires entry == a + (b + (c + (k + v))) && p + |entry| <= |data| && data[p..p + |entry|] == entry
    ensures var start := p + |a| + |b| + |c|;
            data[start..start + |k|] == k && data[start + |k|..start + |k| + |v|] == v
  {
    var q := |a| + |b| + |c|;
    InMiddle(a, b, c, k, v);
    SliceOfSlice(data, p, p + |entry|, q, q + |k|);
    SliceOfSlice(data, p, p + |entry|, q + |k|, q + |k| + |v|);
  }

  lemma InMiddle(a: Bytes, b: Bytes, c: Bytes, k: Bytes, v: Bytes)
    ensures var entry := a + (b + (c + (k + v)));
            var q := |a| + |b| + |c|;
            entry[q..q + |k|] == k && entry[q + |k|..q + |k| + |v|] == v
  {
    Regroup(a, b, c + (k + v));
    Regroup(a + b, c, k + v);
    var front := a + b + c;
    assert (front + (k + v))[|front|..|front| + |k|] == k;
    assert (front + (k + v))[|front| + |k|..|front| + |k| + |v|] == v;
  }

  // ---------------------------------------------------------------- where the iterator stands

  /** What a block holds, and how its builder laid it out. */
  datatype Content = Content(es: seq<Pair>, shares: seq<nat>, starts: seq<nat>, restarts: seq<Word>)

  ghost predicate Written(data: Bytes, limit: nat, num: nat, c: Content) {
    && IsBlock(data, c.es, c.shares, c.starts, c.restarts)
    && limit == Offset(c.es, c.shares, |c.es|) && num == |c.starts|
  }

  /** The last restart point at or before entry `n`, or the one before it when `n` is itself a restart point. */
  ghost predicate Bracket(starts: seq<nat>, ri: nat, n: nat) {
    ri < |starts| && starts[ri] <= n && (ri + 1 < |starts| ==> n <= starts[ri + 1])
  }

  ghost predicate AtEntry(data: Bytes, c: Content, n: nat, current: nat, key: Bytes, vs: nat, vl: nat, ri: nat) {
    && SharesOk(c.es, c.shares) && n < |c.es|
    && current == Offset(c.es, c.shares, n) && key == c.es[n].key
    && vs + vl == Offset(c.es, c.shares, n + 1) <= |data| && data[vs..vs + vl] == c.es[n].value
    && Bracket(c.starts, ri, n)
  }

  /** About to parse entry `n`, with enough of the key before it in hand. */
  ghost predicate AboutTo(c: Content, n: nat, key: Bytes, next: nat, ri: nat) {
    && SharesOk(c.es, c.shares) && n <= |c.es| && next == Offset(c.es, c.shares, n)
    && (n < |c.es| ==> c.shares[n] <= |key| && c.shares[n] <= |c.es[n].key| && key[..c.shares[n]] == c.es[n].key[..c.shares[n]])
    && ri < |c.starts| && c.starts[ri] <= n
  }

  lemma DataInBlock(data: Bytes, limit: nat, num: nat, c: Content, i: nat)
    requires Written(data, limit, num, c) && i < |c.es|
    ensures SharesOk(c.es, c.shares) && i < |c.shares| && c.shares[i] <= |c.es[i].key|
    ensures Offset(c.es, c.shares, i) + |EntryBytes(c.shares[i], c.es[i])| == Offset(c.es, c.shares, i + 1) <= limit <= |data|
    ensures data[Offset(c.es, c.shares, i)..Offset(c.es, c.shares, i + 1)] == EntryBytes(c.shares[i], c.es[i])
    ensures |c.es[i].key| < TWO_32 && |c.es[i].value| < TWO_32
  {
    BlockTail(data, c.es, c.shares, c.starts, c.restarts);
    SizedAt(data, limit, num, c, i);
    hide Data, EntryBytes, SharesOk, Written, IsBlock;
    EntryShares(c.es, c.shares, i);
    DataSplit(c.es, c.shares, i, |c.es|);
    FrontSlice(data, limit, Offset(c.es, c.shares, i), Offset(c.es, c.shares, i + 1));
  }

  lemma SizedAt(data: Bytes, limit: nat, num: nat, c: Content, i: nat)
    requires Written(data, limit, num, c) && i < |c.es|
    ensures SharesOk(c.es, c.shares) && limit == Offset(c.es, c.shares, |c.es|)
    ensures |c.es[i].key| < TWO_32 && |c.es[i].value| < TWO_32
  {
    assert c.es[i] in c.es;
    hide Data, SharesOk;
  }

  lemma FrontSlice(s: Bytes, limit: nat, i: nat, j: nat)
    requires i <= j <= limit <= |s|
    ensures s[..limit][i..j] == s[i..j]
  {
  }

  /** Parsing at an entry of the block finds its key bytes and its value. */
  lemma EntryAt(data: Bytes, limit: nat, num: nat, c: Content, i: nat, k: nat, start: nat)
    requires Written(data, limit, num, c) && i < |c.es| && SharesOk(c.es, c.shares)
    requires c.shares[i] <= |c.es[i].key| && k == |c.es[i].key| - c.shares[i]
    requires start + k + |c.es[i].value| == Offset(c.es, c.shares, i + 1)
    ensures Offset(c.es, c.shares, i) < limit <= |data|
    ensures DecodeEntry(data, Offset(c.es, c.shares, i), limit) == Header(c.shares[i], k, |c.es[i].value|, start)
    ensures start + k <= |data| && data[start..start + k] == c.es[i].key[c.shares[i]..]
    ensures start + k + |c.es[i].value| <= |data| && data[start + k..start + k + |c.es[i].value|] == c.es[i].value
  {
    hide Data, Written, SharesOk, DecodeEntry, EntryBytes;
    DataInBlock(data, limit, num, c, i);
    var p := Offset(c.es, c.shares, i);
    EntryDecodes(c.shares[i], c.es[i], data, p, limit, k, start);
    EntryParts2(c.shares[i], c.es[i], data, p, k, start);
  }

  /** After entry `n` comes entry `n + 1`. */
  lemma GoesOn(data: Bytes, c: Content, n: nat, current: nat, key: Bytes, vs: nat, vl: nat, ri: nat)
    requires AtEntry(data, c, n, current, key, vs, vl, ri)
    ensures AboutTo(c, n + 1, key, vs + vl, ri)
  {
    hide Data;
    if n + 1 < |c.es| {
      EntryShares(c.es, c.shares, n + 1);
      assert KeyBefore(c.es, n + 1) == key;
    }
  }

  predicate RestartFits(data: Bytes, limit: nat, r: nat) {
    limit + 4 * r + 4 <= |data|
  }

  lemma FromRestart(data: Bytes, limit: nat, num: nat, c: Content, r: nat)
    requires Written(data, limit, num, c) && r < num
    ensures RestartFits(data, limit, r)
    ensures AboutTo(c, c.starts[r], [], RestartPoint(data, limit, r), r)
  {
    RestartIs(data, c.es, c.shares, c.starts, c.restarts, r);
    hide Data, RestartPoint;
  }

  /** Entries' offsets order them. */
  lemma OffsetOrder(es: seq<Pair>, shares: seq<nat>, i: nat, j: nat)
    requires SharesOk(es, shares) && i <= |es| && j <= |es|
    ensures Offset(es, shares, i) < Offset(es, shares, j) <==> i < j
  {
    hide Data, SharesOk;
    if i < j {
      OffsetsGrow(es, shares, i, j);
    } else if j < i {
      OffsetsGrow(es, shares, j, i);
    }
  }

  /** Whether a restart point lies before an entry. */
  lemma RestartOrder(data: Bytes, limit: nat, num: nat, c: Content, r: nat, n: nat)
    requires Written(data, limit, num, c) && r < num && n <= |c.es|
    ensures limit + 4 * r + 4 <= |data|
    ensures SharesOk(c.es, c.shares)
    ensures RestartPoint(data, limit, r) < Offset(c.es, c.shares, n) <==> c.starts[r] < n
  {
    RestartIs(data, c.es, c.shares, c.starts, c.restarts, r);
    OffsetOrder(c.es, c.shares, c.starts[r], n);
    hide Data, RestartPoint;
  }

  /** Index of the first entry whose key is not below `target`. */
  function FirstNotBelow(less: Less, es: seq<Pair>, target: Bytes): (r: nat)
    ensures r <= |es|
    ensures forall i | 0 <= i < r :: less(es[i].key, target)
    ensures r < |es| ==> !less(es[r].key, target)
  {
    if es == [] || !less(es[0].key, target) then 0 else 1 + FirstNotBelow(less, es[1..], target)
  }

  lemma IsFirstNotBelow(less: Less, es: seq<Pair>, target: Bytes, n: nat)
    requires StrictOrder(less) && Increasing(less, es) && n <= |es|
    requires n > 0 ==> less(KeyBefore(es, n), target)
    requires n < |es| ==> !less(es[n].key, target)
    ensures FirstNotBelow(less, es, target) == n
  {
    forall i | 0 <= i < n ensures less(es[i].key, target) {
      assert i < n - 1 ==> less(es[i].key, es[n - 1].key);
    }
  }

  /** What parsing at entry `n` finds, or that the entries end there. */
  lemma Parsed(data: Bytes, limit: nat, num: nat, c: Content, n: nat, key: Bytes, next: nat, ri: nat)
    requires Written(data, limit, num, c) && AboutTo(c, n, key, next, ri)
    ensures limit <= |data| && ri < num && (next < limit <==> n < |c.es|)
    ensures n < |c.es| ==> ParsedAs(data, c, n, key, DecodeEntry(data, next, limit))
  {
    hide Data, Written, SharesOk, DecodeEntry, Offset;
    LimitIs(data, limit, num, c);
    OffsetOrder(c.es, c.shares, n, |c.es|);
    if n < |c.es| {
      ParsedEntry(data, limit, num, c, n, key);
    }
  }

  lemma LimitIs(data: Bytes, limit: nat, num: nat, c: Content)
    requires Written(data, limit, num, c)
    ensures SharesOk(c.es, c.shares) && limit == Offset(c.es, c.shares, |c.es|) <= |data| && num == |c.starts|
  {
    BlockTail(data, c.es, c.shares, c.starts, c.restarts);
    hide Data, SharesOk;
  }

  lemma ParsedEntry(data: Bytes, limit: nat, num: nat, c: Content, n: nat, key: Bytes)
    requires Written(data, limit, num, c) && SharesOk(c.es, c.shares) && n < |c.es| && limit <= |data|
    requires c.shares[n] <= |key| && c.shares[n] <= |c.es[n].key| && key[..c.shares[n]] == c.es[n].key[..c.shares[n]]
    ensures ParsedAs(data, c, n, key, DecodeEntry(data, Offset(c.es, c.shares, n), limit))
  {
    hide Data, Written, SharesOk, DecodeEntry, EntryBytes;
    DataInBlock(data, limit, num, c, n);
    var e, sh := c.es[n], c.shares[n];
    var k := |e.key| - sh;
    EntryLength(sh, e);
    var start := Offset(c.es, c.shares, n + 1) - k - |e.value|;
    EntryAt(data, limit, num, c, n, k, start);
    assert e.key[..sh] + e.key[sh..] == e.key;
  }

  lemma EntryLength(shared: nat, e: Pair)
    requires shared <= |e.key|
    ensures |EntryBytes(shared, e)| >= |e.key| - shared + |e.value|
  {
    EntryIs(shared, e);
    hide EntryBytes, Varint;
  }

  ghost predicate ParsedAs(data: Bytes, c: Content, n: nat, key: Bytes, h: Header)
    requires n < |c.es|
  {
    && SharesOk(c.es, c.shares)
    && h.Header? && h.shared <= |key| && h.start + h.nonShared + h.valueLength <= |data|
    && key[..h.shared] + data[h.start..h.start + h.nonShared] == c.es[n].key
    && h.start + h.nonShared + h.valueLength == Offset(c.es, c.shares, n + 1)
    && data[h.start + h.nonShared..h.start + h.nonShared + h.valueLength] == c.es[n].value
  }

  ghost predicate StartBy(starts: seq<nat>, ri: nat, n: nat) {
    ri < |starts| && starts[ri] <= n
  }

  lemma WrittenBy(bytes: Bytes, c: Content, limit: nat, num: nat)
    requires IsBlock(bytes, c.es, c.shares, c.starts, c.restarts)
    requires |bytes| >= 4 && num == DecodeFixed32(bytes[|bytes| - 4..]) && |bytes| == limit + 4 * num + 4
    ensures Written(bytes, limit, num, c)
  {
    BlockTail(bytes, c.es, c.shares, c.starts, c.restarts);
    hide Data, DecodeFixed32, SharesOk;
  }

  lemma InRange(c: Content, n: nat, key: Bytes, next: nat, ri: nat)
    requires AboutTo(c, n, key, next, ri)
    ensures n <= |c.es| && StartBy(c.starts, ri, n) && SharesOk(c.es, c.shares) && next == Offset(c.es, c.shares, n)
  {
  }

  lemma HeaderGood(data: Bytes, c: Content, n: nat, key: Bytes, h: Header)
    requires n < |c.es| && ParsedAs(data, c, n, key, h)
    ensures h.Header? && h.shared <= |key|
  {
  }

  /** The restart index moves on only while it stays at or before the entry. */
  lemma StepStart(data: Bytes, limit: nat, num: nat, c: Content, ri: nat, n: nat, current: nat)
    requires Written(data, limit, num, c) && ri + 1 < num && n <= |c.es| && SharesOk(c.es, c.shares)
    requires current == Offset(c.es, c.shares, n) && limit + 4 * (ri + 1) + 4 <= |data|
    ensures ri + 1 < |c.starts| && (RestartPoint(data, limit, ri + 1) < current <==> c.starts[ri + 1] < n)
  {
    hide Data, RestartPoint;
    RestartOrder(data, limit, num, c, ri + 1, n);
  }

  lemma Arrived(data: Bytes, limit: nat, num: nat, c: Content, n: nat, before: Bytes, current: nat, h: Header, ri: nat)
    requires Written(data, limit, num, c) && n < |c.es| && ParsedAs(data, c, n, before, h)
    requires StartBy(c.starts, ri, n) && (ri + 1 < num ==> n <= c.starts[ri + 1])
    requires SharesOk(c.es, c.shares) && current == Offset(c.es, c.shares, n)
    ensures AtEntry(data, c, n, current, before[..h.shared] + data[h.start..h.start + h.nonShared], h.start + h.nonShared, h.valueLength, ri)
    ensures h.start + h.nonShared + h.valueLength <= limit
  {
    hide Data, Written, SharesOk, EntryBytes;
    LimitIs(data, limit, num, c);
    DataInBlock(data, limit, num, c, n);
  }

  class BlockIter {
    const data: Bytes
    const less: Less
    const restarts: nat
    const numRestarts: nat
    var current: nat
    var restartIndex: nat
    var key: Bytes
    var valueStart: nat
    var valueLength: nat
    var corrupt: bool

    // set when the bytes are a block some builder finished, with its content
    ghost const sound: bool
    ghost const content: Content
    ghost var at: nat

    ghost predicate Shape()
      reads this
    {
      && numRestarts > 0
      && restarts + 4 * numRestarts + 4 == |data|
      && (sound ==> Written(data, restarts, numRestarts, content) && StrictOrder(less) && Increasing(less, content.es))
    }

    ghost predicate Inv()
      reads this
    {
      && Shape()
      && (current < restarts ==> restartIndex < numRestarts && valueStart + valueLength <= restarts)
      && (sound ==> at <= |content.es| && !corrupt && (current < restarts <==> at < |content.es|))
      && (sound && current < restarts ==> AtEntry(data, content, at, current, key, valueStart, valueLength, restartIndex))
    }

    /** Block::NewIterator, for bytes whose last number says how many restart points there are. */
    constructor (bytes: Bytes, less: Less, ghost sound: bool, ghost content: Content)
      requires |bytes| >= 4 && DecodeFixed32(bytes[|bytes| - 4..]) > 0 && 4 * DecodeFixed32(bytes[|bytes| - 4..]) + 4 <= |bytes|
      requires sound ==> IsBlock(bytes, content.es, content.shares, content.starts, content.restarts)
      requires sound ==> StrictOrder(less) && Increasing(less, content.es)
      ensures Inv() && this.sound == sound && this.content == content && data == bytes && this.less == less
      ensures sound ==> at == |content.es|
    {
      hide IsBlock, StrictOrder, Increasing, EncodeFixed32, DecodeFixed32, Written, AtEntry;
      var n: nat := DecodeFixed32(bytes[|bytes| - 4..]);
      data, this.less, numRestarts := bytes, less, n;
      restarts := |bytes| - 4 * n - 4;
      current, restartIndex := |bytes| - 4 * n - 4, n;
      key, valueStart, valueLength, corrupt := [], 0, 0, false;
      this.sound, this.content, at := sound, content, |content.es|;
      new;
      if sound {
        WrittenBy(bytes, content, restarts, n);
      }
    }

    predicate Valid()
      reads this
    {
      current < restarts
    }

    function Value(): Bytes
      requires Inv() && Valid()
      reads this
    {
      InBounds();
      data[valueStart..valueStart + valueLength]
    }

    lemma InBounds()
      requires Inv() && Valid()
      ensures valueStart + valueLength <= |data|
      ensures sound ==> key == content.es[at].key && data[valueStart..valueStart + valueLength] == content.es[at].value
    {
      hide Written, StrictOrder, Increasing;
    }

    /** Parse the entry that starts where the current value ends. */
    method ParseNextKey(ghost n: nat) returns (ok: bool)
      requires Shape() && restartIndex < numRestarts
      requires sound ==> !corrupt && AboutTo(content, n, key, valueStart + valueLength, restartIndex)
      modifies this
      ensures Inv() && (ok <==> Valid())
      ensures ok ==> old(valueStart + valueLength) < valueStart + valueLength <= restarts
      ensures sound ==> at == n && (ok <==> n < |content.es|)
    {
      hide Written, AboutTo, AtEntry, StrictOrder, Increasing, DecodeEntry, ParsedAs, SharesOk, Data;
      if sound {
        Parsed(data, restarts, numRestarts, content, n, key, valueStart + valueLength, restartIndex);
        InRange(content, n, key, valueStart + valueLength, restartIndex);
      }
      at := n;
      current := valueStart + valueLength;
      if current >= restarts {
        current, restartIndex := restarts, numRestarts;
        return false;
      }
      var h := DecodeEntry(data, current, restarts);
      if h.Bad? || |key| < h.shared {
        if sound {
          HeaderGood(data, content, n, key, h);
        }
        CorruptionError();
        return false;
      }
      ghost var before := key;
      key := key[..h.shared] + data[h.start..h.start + h.nonShared];
      valueStart, valueLength := h.start + h.nonShared, h.valueLength;
      AdvanceRestart(n);
      if sound {
        Arrived(data, restarts, numRestarts, content, n, before, current, h, restartIndex);
      }
      ok := true;
    }

    /** The restart index catches up with the entry just parsed. */
    method AdvanceRestart(ghost n: nat)
      requires Shape() && restartIndex < numRestarts
      requires sound ==> StartBy(content.starts, restartIndex, n) && n <= |content.es| && SharesOk(content.es, content.shares)
      requires sound ==> current == Offset(content.es, content.shares, n)
      modifies this`restartIndex
      ensures restartIndex < numRestarts
      ensures sound ==> StartBy(content.starts, restartIndex, n)
      ensures sound && restartIndex + 1 < numRestarts ==> restartIndex + 1 < |content.starts| && n <= content.starts[restartIndex + 1]
    {
      hide Written, StrictOrder, Increasing, RestartPoint, SharesOk, Data;
      while restartIndex + 1 < numRestarts && RestartPoint(data, restarts, restartIndex + 1) < current
        invariant restartIndex < numRestarts
        invariant sound ==> StartBy(content.starts, restartIndex, n)
        decreases numRestarts - restartIndex
      {
        if sound {
          StepStart(data, restarts, numRestarts, content, restartIndex, n, current);
        }
        restartIndex := restartIndex + 1;
      }
      if sound && restartIndex + 1 < numRestarts {
        StepStart(data, restarts, numRestarts, content, restartIndex, n, current);
      }
    }

    method CorruptionError()
      requires Shape() && !sound
      modifies this
      ensures Inv() && !Valid() && at == old(at)
    {
      current, restartIndex, corrupt := restarts, numRestarts, true;
      key, valueStart, valueLength := [], 0, 0;
    }

    /** To a restart point: the next parse takes the entry there. */
    method SeekToRestartPoint(r: nat)
      requires Shape() && r < numRestarts && (sound ==> !corrupt)
      modifies this`key, this`restartIndex, this`valueStart, this`valueLength
      ensures key == [] && restartIndex == r && valueStart == RestartPoint(data, restarts, r) && valueLength == 0
      ensures sound ==> r < |content.starts| && AboutTo(content, content.starts[r], key, valueStart + valueLength, restartIndex)
    {
      hide Written, StrictOrder, Increasing, AboutTo, RestartPoint;
      if sound {
        LimitIs(data, restarts, numRestarts, content);
        FromRestart(data, restarts, numRestarts, content, r);
      }
      key, restartIndex := [], r;
      valueStart, valueLength := RestartPoint(data, restarts, r), 0;
    }

    method Next()
      requires Inv() && Valid()
      modifies this
      ensures Inv() && (sound ==> at == old(at) + 1)
    {
      hide Written, StrictOrder, Increasing, AtEntry, AboutTo;
      if sound {
        GoesOn(data, content, at, current, key, valueStart, valueLength, restartIndex);
      }
      var ok := ParseNextKey(at + 1);
    }

    /** Back to a restart point before the current entry, and forward again to the entry before it. */
    method Prev()
      requires Inv() && Valid()
      modifies this
      ensures Inv() && (sound ==> at == Backward(|content.es|, old(at)))
    {
      hide Written, StrictOrder, Increasing, AtEntry, AboutTo, RestartPoint;
      var original := current;
      ghost var n := at;
      if sound {
        LimitIs(data, restarts, numRestarts, content);
        EntryPlace(data, content, at, current, key, valueStart, valueLength, restartIndex);
      }
      while RestartPoint(data, restarts, restartIndex) >= original
        invariant restartIndex < numRestarts
        invariant sound ==> StartBy(content.starts, restartIndex, n)
        modifies this`current, this`restartIndex, this`at
        decreases restartIndex
      {
        if restartIndex == 0 {
          if sound {
            FirstRestart(data, restarts, numRestarts, content, n);
          }
          current, restartIndex := restarts, numRestarts;
          at := |content.es|;
          return;
        }
        if sound {
          EarlierStart(data, restarts, numRestarts, content, restartIndex, n);
        }
        restartIndex := restartIndex - 1;
      }
      if sound {
        RestartOrder(data, restarts, numRestarts, content, restartIndex, n);
      }
      SeekToRestartPoint(restartIndex);
      ParseUpTo(original, if sound then content.starts[restartIndex] else 0, n);
    }

    /** Parse entries until one ends at or past `bound`, where entry `n` begins. */
    method ParseUpTo(bound: nat, ghost from: nat, ghost n: nat)
      requires Shape() && restartIndex < numRestarts
      requires sound ==> !corrupt && AboutTo(content, from, key, valueStart + valueLength, restartIndex)
      requires sound ==> from <= n <= |content.es| && SharesOk(content.es, content.shares) && bound == Offset(content.es, content.shares, n)
      requires sound ==> from < n || n == 0
      modifies this
      ensures Inv() && (sound ==> at == if n == 0 then from else n - 1)
    {
      hide Written, StrictOrder, Increasing, AtEntry, AboutTo, Offset, SharesOk;
      ghost var k: nat := from;
      var ok := ParseNextKey(k);
      while ok && valueStart + valueLength < bound
        invariant Inv() && (ok <==> Valid())
        invariant sound ==> at == k && k <= n && (ok <==> k < |content.es|) && (k < n || n == 0)
        decreases ok, restarts - (valueStart + valueLength)
      {
        if sound {
          EntryEnds(data, content, k, current, key, valueStart, valueLength, restartIndex, n);
          GoesOn(data, content, k, current, key, valueStart, valueLength, restartIndex);
        }
        k := k + 1;
        ok := ParseNextKey(k);
      }
      if sound && ok {
        EntryEnds(data, content, k, current, key, valueStart, valueLength, restartIndex, n);
      }
    }

    method SeekToFirst()
      requires Inv()
      modifies this
      ensures Inv() && (sound ==> at == 0)
    {
      hide Written, StrictOrder, Increasing, AtEntry, AboutTo;
      if sound {
        FirstStart(data, restarts, numRestarts, content);
      }
      SeekToRestartPoint(0);
      var ok := ParseNextKey(if sound then content.starts[0] else 0);
    }

    method SeekToLast()
      requires Inv()
      modifies this
      ensures Inv() && (sound ==> at == Last(|content.es|))
    {
      hide Written, StrictOrder, Increasing, AtEntry, AboutTo, SharesOk, Data, RestartPoint;
      if sound {
        LastStart(data, restarts, numRestarts, content);
      }
      SeekToRestartPoint(numRestarts - 1);
      ParseUpTo(restarts, if sound then content.starts[numRestarts - 1] else 0, |content.es|);
    }

    /** Binary search for the last restart point whose key is below the target, then a scan. */
    method Seek(target: Bytes)
      requires Inv()
      modifies this
      ensures Inv() && (sound ==> at == FirstNotBelow(less, content.es, target))
    {
      hide Written, AtEntry, AboutTo, DecodeEntry, RestartPoint, StrictOrder, Increasing;
      var left, right := 0, numRestarts - 1;
      while left < right
        invariant Inv() && 0 <= left <= right < numRestarts
        invariant sound ==> left == 0 || StartBelow(less, content, left, target)
      {
        var mid := (left + right + 1) / 2;
        var h := DecodeEntry(data, RestartPoint(data, restarts, mid), restarts);
        if h.Bad? || h.shared != 0 {
          if sound {
            RestartKey(data, restarts, numRestarts, content, mid);
          }
          CorruptionError();
          return;
        }
        var midKey := data[h.start..h.start + h.nonShared];
        if sound {
          RestartKey(data, restarts, numRestarts, content, mid);
        }
        if less(midKey, target) {
          left := mid;
        } else {
          right := mid - 1;
        }
      }
      SeekToRestartPoint(left);
      ScanTo(target, left);
    }

    /** From restart point `r`, the first entry whose key is not below the target. */
    method ScanTo(target: Bytes, ghost r: nat)
      requires Shape() && restartIndex < numRestarts
      requires sound ==> !corrupt && r < |content.starts| && AboutTo(content, content.starts[r], key, valueStart + valueLength, restartIndex)
      requires sound ==> r == 0 || StartBelow(less, content, r, target)
      modifies this
      ensures Inv() && (sound ==> at == FirstNotBelow(less, content.es, target))
    {
      hide Written, AtEntry, AboutTo, StrictOrder, Increasing, StartBelow;
      ghost var k: nat := if sound then content.starts[r] else 0;
      if sound {
        ScanStarts(data, restarts, numRestarts, content, less, r, target);
      }
      while true
        invariant Shape() && restartIndex < numRestarts
        invariant sound ==> !corrupt && AboutTo(content, k, key, valueStart + valueLength, restartIndex) && BelowBefore(less, content.es, k, target)
        decreases restarts - (valueStart + valueLength)
      {
        var ok := ParseNextKey(k);
        if !ok {
          if sound {
            IsFirstNotBelow(less, content.es, target, k);
          }
          return;
        }
        if sound {
          InBounds();
        }
        if !less(key, target) {
          if sound {
            IsFirstNotBelow(less, content.es, target, k);
          }
          return;
        }
        if sound {
          GoesOn(data, content, k, current, key, valueStart, valueLength, restartIndex);
        }
        k := k + 1;
      }
    }
  }

  ghost predicate BelowBefore(less: Less, es: seq<Pair>, n: nat, target: Bytes) {
    n <= |es| && (n > 0 ==> less(KeyBefore(es, n), target))
  }

  ghost predicate StartBelow(less: Less, c: Content, r: nat, target: Bytes) {
    r < |c.starts| && c.starts[r] < |c.es| && less(c.es[c.starts[r]].key, target)
  }

  /** Everything before a restart point whose key is below the target is below it too. */
  lemma ScanStarts(data: Bytes, limit: nat, num: nat, c: Content, less: Less, r: nat, target: Bytes)
    requires Written(data, limit, num, c) && StrictOrder(less) && Increasing(less, c.es) && r < |c.starts|
    requires r == 0 || StartBelow(less, c, r, target)
    ensures BelowBefore(less, c.es, c.starts[r], target)
  {
    hide Data, IsBlock, SharesOk;
    FirstStart(data, limit, num, c);
    var n := c.starts[r];
    if r > 0 && n > 0 {
      assert less(KeyBefore(c.es, n), c.es[n].key);
    }
  }

  lemma FirstStart(data: Bytes, limit: nat, num: nat, c: Content)
    requires Written(data, limit, num, c)
    ensures |c.starts| == num > 0 && c.starts[0] == 0
  {
    hide Data, SharesOk;
  }

  lemma LastStart(data: Bytes, limit: nat, num: nat, c: Content)
    requires Written(data, limit, num, c)
    ensures |c.starts| == num > 0 && SharesOk(c.es, c.shares) && limit == Offset(c.es, c.shares, |c.es|)
    ensures c.starts[num - 1] < |c.es| || (c.es == [] && c.starts[num - 1] == 0)
  {
    hide Data, SharesOk;
  }

  /** The key at a restart point stands there whole. */
  lemma RestartKey(data: Bytes, limit: nat, num: nat, c: Content, r: nat)
    requires Written(data, limit, num, c) && 0 < r < num && limit + 4 * num + 4 == |data|
    ensures r < |c.starts| && c.starts[r] < |c.es|
    ensures var h := DecodeEntry(data, RestartPoint(data, limit, r), limit);
            h.Header? && h.shared == 0 && h.start + h.nonShared <= |data| && data[h.start..h.start + h.nonShared] == c.es[c.starts[r]].key
  {
    hide Written, DecodeEntry, RestartPoint, Data, SharesOk;
    WholeKey(data, limit, num, c, r);
    StartOffset(data, limit, num, c, r);
    var n := c.starts[r];
    ParsedEntry(data, limit, num, c, n, []);
    var h := DecodeEntry(data, Offset(c.es, c.shares, n), limit);
    assert [] + data[h.start..h.start + h.nonShared] == data[h.start..h.start + h.nonShared];
  }

  lemma StartOffset(data: Bytes, limit: nat, num: nat, c: Content, r: nat)
    requires Written(data, limit, num, c) && r < num && r < |c.starts| && c.starts[r] <= |c.es| && SharesOk(c.es, c.shares)
    ensures limit + 4 * r + 4 <= |data| && RestartPoint(data, limit, r) == Offset(c.es, c.shares, c.starts[r])
  {
    hide Data, RestartPoint, SharesOk;
    RestartIs(data, c.es, c.shares, c.starts, c.restarts, r);
  }

  lemma WholeKey(data: Bytes, limit: nat, num: nat, c: Content, r: nat)
    requires Written(data, limit, num, c) && 0 < r < num
    ensures r < |c.starts| && c.starts[r] < |c.es| && SharesOk(c.es, c.shares) && c.shares[c.starts[r]] == 0
  {
    hide Data, SharesOk;
    assert c.starts[0] < c.starts[r];
  }

  lemma EntryPlace(data: Bytes, c: Content, n: nat, current: nat, key: Bytes, vs: nat, vl: nat, ri: nat)
    requires AtEntry(data, c, n, current, key, vs, vl, ri)
    ensures n < |c.es| && SharesOk(c.es, c.shares) && current == Offset(c.es, c.shares, n) && StartBy(c.starts, ri, n)
  {
  }

  lemma FirstRestart(data: Bytes, limit: nat, num: nat, c: Content, n: nat)
    requires Written(data, limit, num, c) && n < |c.es| && limit + 4 <= |data|
    ensures SharesOk(c.es, c.shares) && (RestartPoint(data, limit, 0) >= Offset(c.es, c.shares, n) ==> n == 0)
  {
    FirstStart(data, limit, num, c);
    RestartOrder(data, limit, num, c, 0, n);
  }

  lemma EarlierStart(data: Bytes, limit: nat, num: nat, c: Content, ri: nat, n: nat)
    requires Written(data, limit, num, c) && 0 < ri < num && StartBy(c.starts, ri, n)
    ensures StartBy(c.starts, ri - 1, n)
  {
    hide Data, SharesOk;
    assert c.starts[ri - 1] < c.starts[ri];
  }

  /** Whether the entry at hand ends where entry `n` begins, or before. */
  lemma EntryEnds(data: Bytes, c: Content, k: nat, current: nat, key: Bytes, vs: nat, vl: nat, ri: nat, n: nat)
    requires AtEntry(data, c, k, current, key, vs, vl, ri) && n <= |c.es|
    ensures SharesOk(c.es, c.shares) && (vs + vl < Offset(c.es, c.shares, n) <==> k + 1 < n)
  {
    hide Data, SharesOk, Bracket;
    OffsetOrder(c.es, c.shares, k + 1, n);
  }
}
