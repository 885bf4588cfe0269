/**
  Bloom filters and the filter block of a table (util/bloom.cc, util/hash.cc, table/filter_block.cc).  A filter
  is kept as its bits and its probe count; FilterBlocks packs them into bytes.
*/
module Filters {
  import opened IntegerSizes
  import opened InternalKeys
  import opened Checksums

  // ---------------------------------------------------------------- the hash

  const MULTIPLIER: Word := 0xC6A4_A793
  const BLOOM_SEED: Word := 0xBC9F_1D34

  function Times(a: Word, b: Word): Word {
    a * b % TWO_32
  }

  /** h ^= h >> shift, with the shift as a divisor. */
  function Mix(h: Word, divisor: nat): Word
    requires divisor > 0
  {
    XorWord(h, h / divisor)
  }

  /** Four bytes at a time, then what is left. */
  function HashFrom(h: Word, data: Bytes): Word
    decreases |data|
  {
    if |data| >= 4 then HashFrom(Mix(Times(AddWord(h, DecodeFixed32(data)), MULTIPLIER), 0x1_0000), data[4..])
    else if data == [] then h
    else Mix(Times(AddWord(h, Rest(data)), MULTIPLIER), 0x100_0000)
  }

  function Rest(data: Bytes): Word
    requires 0 < |data| < 4
  {
    var a: int, b: int, c: int := data[0], if |data| > 1 then data[1] else 0, if |data| > 2 then data[2] else 0;
    a + 256 * b + 0x1_0000 * c
  }

  function BloomHash(key: Bytes): Word {
    HashFrom(XorWord(BLOOM_SEED, |key| * MULTIPLIER % TWO_32), key)
  }

  // ---------------------------------------------------------------- one filter

  datatype Filter = Filter(bits: seq<bool>, k: nat)

  function Delta(h: Word): Word {
    RotateLeft15(h)
  }

  /** The places probed for a key, from hash `h` on. */
  function Probe(h: Word, delta: Word, j: nat): Word {
    if j == 0 then h else AddWord(Probe(h, delta, j - 1), delta)
  }

  /** All of the key's places are set. */
  ghost predicate Covers(bits: seq<bool>, key: Bytes, k: nat)
    requires |bits| > 0
  {
    forall j | 0 <= j < k :: bits[Probe(BloomHash(key), Delta(BloomHash(key)), j) % |bits|]
  }

  function PlaceOf(key: Bytes, size: nat, j: nat): nat
    requires size > 0
  {
    Probe(BloomHash(key), Delta(BloomHash(key)), j) % size
  }

  /** One of the key's places is bit `i`. */
  ghost predicate Hits(key: Bytes, k: nat, size: nat, i: nat)
    requires size > 0
  {
    exists j | 0 <= j < k :: PlaceOf(key, size, j) == i
  }

  lemma HitsCover(bits: seq<bool>, key: Bytes, k: nat)
    requires |bits| > 0 && forall i | 0 <= i < |bits| && Hits(key, k, |bits|, i) :: bits[i]
    ensures Covers(bits, key, k)
  {
    hide BloomHash, Delta;
    forall j | 0 <= j < k ensures bits[Probe(BloomHash(key), Delta(BloomHash(key)), j) % |bits|] {
      assert Hits(key, k, |bits|, PlaceOf(key, |bits|, j));
    }
  }

  /** BloomFilterPolicy::CreateFilter; `bitsPerKey` and `k` are the policy's.  Whole bytes, no more than are needed, and
      just the places of the keys are set. */
  method CreateFilter(keys: seq<Bytes>, bitsPerKey: nat, k: nat) returns (f: Filter)
    ensures |f.bits| >= 64 && |f.bits| % 8 == 0 && |f.bits| >= |keys| * bitsPerKey && f.k == k
    ensures |f.bits| < 72 || |f.bits| < |keys| * bitsPerKey + 8
    ensures forall i | 0 <= i < |f.bits| :: f.bits[i] <==> exists key | key in keys :: Hits(key, k, |f.bits|, i)
    ensures forall key | key in keys :: Covers(f.bits, key, k)
  {
    hide Hits;
    var size := |keys| * bitsPerKey;
    if size < 64 {
      size := 64;
    }
    size := (size + 7) / 8 * 8;
    var bits := seq(size, i => false);
    for n := 0 to |keys|
      invariant |bits| == size
      invariant forall i | 0 <= i < size :: bits[i] <==> exists key | key in keys[..n] :: Hits(key, k, size, i)
    {
      assert keys[..n + 1] == keys[..n] + [keys[n]];
      bits := SetProbes(bits, keys[n], k);
    }
    assert keys[..|keys|] == keys;
    forall key | key in keys ensures Covers(bits, key, k) {
      HitsCover(bits, key, k);
    }
    f := Filter(bits, k);
  }

  method SetProbes(start: seq<bool>, key: Bytes, k: nat) returns (bits: seq<bool>)
    requires |start| > 0
    ensures |bits| == |start| && forall i | 0 <= i < |bits| :: bits[i] <==> start[i] || Hits(key, k, |bits|, i)
  {
    hide BloomHash, Delta;
    bits := start;
    var h := BloomHash(key);
    var delta := Delta(h);
    for j := 0 to k
      invariant |bits| == |start|
      invariant h == Probe(BloomHash(key), delta, j)
      invariant forall i | 0 <= i < |bits| :: bits[i] <==> start[i] || Hits(key, j, |bits|, i)
    {
      HitsNext(key, j, |bits|);
      bits := bits[h % |bits| := true];
      h := AddWord(h, delta);
    }
  }

  lemma HitsNext(key: Bytes, j: nat, size: nat)
    requires size > 0
    ensures forall i: nat :: Hits(key, j + 1, size, i) <==> Hits(key, j, size, i) || PlaceOf(key, size, j) == i
  {
    hide PlaceOf;
    forall i: nat
      ensures Hits(key, j + 1, size, i) <==> Hits(key, j, size, i) || PlaceOf(key, size, j) == i
    {
      if Hits(key, j + 1, size, i) {
        var a :| 0 <= a < j + 1 && PlaceOf(key, size, a) == i;
      }
    }
  }

  /** BloomFilterPolicy::KeyMayMatch; more than 30 probes are reserved for other encodings, and match. */
  method KeyMayMatch(key: Bytes, f: Filter) returns (may: bool)
    ensures |f.bits| > 0 && f.k <= 30 ==> (may <==> Covers(f.bits, key, f.k))
    ensures |f.bits| == 0 ==> !may
    ensures |f.bits| > 0 && f.k > 30 ==> may
  {
    hide BloomHash, Delta;
    if |f.bits| == 0 {
      return false;
    }
    if f.k > 30 {
      return true;
    }
    var h := BloomHash(key);
    var delta := Delta(h);
    for j := 0 to f.k
      invariant h == Probe(BloomHash(key), delta, j)
      invariant forall i | 0 <= i < j :: f.bits[Probe(BloomHash(key), delta, i) % |f.bits|]
    {
      if !f.bits[h % |f.bits|] {
        return false;
      }
      h := AddWord(h, delta);
    }
    may := true;
  }

  // ---------------------------------------------------------------- the filter block

  const FILTER_BASE := 2048

  /** A filter lets a key through. */
  ghost predicate Passes(f: Option<Filter>, key: Bytes) {
    f.Some? && |f.value.bits| > 0 && (f.value.k > 30 || Covers(f.value.bits, key, f.value.k))
  }

  /** What lies past the filters counts as a match. */
  ghost predicate LetThrough(filters: seq<Option<Filter>>, offset: nat, key: Bytes) {
    offset / FILTER_BASE >= |filters| || Passes(filters[offset / FILTER_BASE], key)
  }

  /** Whole bytes of bits, and a probe count that fits one more. */
  predicate FilterFits(f: Filter) {
    |f.bits| > 0 && |f.bits| % 8 == 0 && f.k < 256
  }

  predicate FiltersFit(filters: seq<Option<Filter>>) {
    forall i | 0 <= i < |filters| && filters[i].Some? :: FilterFits(filters[i].value)
  }

  /** Eight times what the filters take in bytes. */
  function Weight(filters: seq<Option<Filter>>): nat {
    if filters == [] then 0
    else
      var f := filters[|filters| - 1];
      Weight(filters[..|filters| - 1]) + if f.Some? then |f.value.bits| + 8 else 0
  }

  lemma WeightAppend(filters: seq<Option<Filter>>, f: Option<Filter>)
    ensures Weight(filters + [f]) == Weight(filters) + if f.Some? then |f.value.bits| + 8 else 0
  {
    assert (filters + [f])[..|filters|] == filters;
  }

  lemma WeightGrows(n: nat, keys: nat, perKey: nat, weight: nat, bits: nat)
    requires weight <= n * (perKey + 79) && keys > 0 && bits <= keys * perKey + 71
    ensures weight + bits + 8 <= (n + keys) * (perKey + 79)
  {
    assert (n + keys) * (perKey + 79) == n * (perKey + 79) + keys * (perKey + 79);
    assert keys * (perKey + 79) == keys * perKey + keys * 79;
  }

  /** One filter for every 2 KB of file offset; a stretch in which no block starts has none. */
  class FilterBlockBuilder {
    const bitsPerKey: nat
    const k: nat
    var keys: seq<Bytes>
    var filters: seq<Option<Filter>>

    ghost var promised: seq<set<Bytes>>   // the keys each finished filter was made for
    ghost var counted: nat                // how many keys those are, with repetitions

    ghost predicate Valid()
      reads this
    {
      && k <= 30 && FiltersFit(filters) && Weight(filters) <= counted * (bitsPerKey + 79)
      && |promised| == |filters| && forall i, key | 0 <= i < |filters| && key in promised[i] :: Passes(filters[i], key)
    }

    constructor (bitsPerKey: nat, k: nat)
      requires k <= 30
      ensures Valid() && keys == [] && filters == [] && promised == [] && this.bitsPerKey == bitsPerKey && this.k == k && counted == 0
    {
      this.bitsPerKey, this.k := bitsPerKey, k;
      keys, filters, promised, counted := [], [], [], 0;
    }

    method AddKey(key: Bytes)
      requires Valid()
      modifies this`keys
      ensures Valid() && keys == old(keys) + [key]
    {
      keys := keys + [key];
    }

    method GenerateFilter()
      requires Valid()
      modifies this
      ensures Valid() && keys == [] && |filters| == |old(filters)| + 1
      ensures promised == old(promised) + [set key | key in old(keys)] && counted == old(counted) + |old(keys)|
    {
      hide Covers, Weight;
      if keys == [] {
        assert (set key | key in keys) == {};
        WeightAppend(filters, None);
        filters := filters + [None];
        promised := promised + [{}];
        return;
      }
      var f := CreateFilter(keys, bitsPerKey, k);
      WeightAppend(filters, Some(f));
      WeightGrows(counted, |keys|, bitsPerKey, Weight(filters), |f.bits|);
      counted := counted + |keys|;
      filters := filters + [Some(f)];
      promised := promised + [set key | key in keys];
      keys := [];
    }

    /** A block begins at `offset`: filters for all stretches before its own are closed. */
    method StartBlock(offset: nat)
      requires Valid() && |filters| <= offset / FILTER_BASE
      modifies this
      ensures Valid() && |filters| == offset / FILTER_BASE && counted + |keys| == old(counted + |keys|)
      ensures |old(promised)| <= |promised| && promised[..|old(promised)|] == old(promised)
      ensures if |old(filters)| == offset / FILTER_BASE then keys == old(keys)
              else keys == [] && promised[|old(promised)|] == set key | key in old(keys)
    {
      var index := offset / FILTER_BASE;
      while index > |filters|
        invariant Valid() && |filters| <= index && |old(promised)| <= |promised| && counted + |keys| == old(counted + |keys|)
        invariant promised[..|old(promised)|] == old(promised)
        invariant if |old(filters)| == |filters| then keys == old(keys)
                  else keys == [] && promised[|old(promised)|] == set key | key in old(keys)
        decreases index - |filters|
      {
        GenerateFilter();
      }
    }

    method Finish()
      requires Valid()
      modifies this
      ensures Valid() && keys == [] && counted == old(counted + |keys|)
      ensures |old(promised)| <= |promised| && promised[..|old(promised)|] == old(promised)
      ensures old(keys) != [] ==> |promised| == |old(promised)| + 1 && promised[|old(promised)|] == set key | key in old(keys)
      ensures old(keys) == [] ==> promised == old(promised)
    {
      if keys != [] {
        GenerateFilter();
      }
    }
  }

  /** FilterBlockReader::KeyMayMatch for a block at `offset`; what lies past the filters counts as a match. */
  method BlockMayMatch(filters: seq<Option<Filter>>, offset: nat, key: Bytes) returns (may: bool)
    ensures may <==> LetThrough(filters, offset, key)
  {
    hide Covers;
    var index := offset / FILTER_BASE;
    if index >= |filters| {
      return true;
    }
    if filters[index].None? {
      return false;
    }
    may := KeyMayMatch(key, filters[index].value);
  }
}
