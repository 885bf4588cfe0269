/**
  The hash table of the block cache (util/cache.cc, HandleTable): an array of chains, linked through the
  entries themselves, that refines a set of entries with distinct keys.  The number of chains is a power of
  two, so that masking a hash gives its remainder.
*/
module HandleTables {
  import opened InternalKeys

  /** One entry; `next` and `prev` belong to the lists of the cache. */
  class LRUHandle {
    const key: Bytes
    const hash: nat
    const charge: nat
    const value: int
    var nextHash: LRUHandle?
    var next: LRUHandle?
    var prev: LRUHandle?
    var inCache: bool
    var refs: nat

    constructor (key: Bytes, hash: nat, value: int, charge: nat)
      ensures this.key == key && this.hash == hash && this.value == value && this.charge == charge
      ensures nextHash == null && next == null && prev == null && !inCache && refs == 1
    {
      this.key, this.hash, this.value, this.charge := key, hash, value, charge;
      nextHash, next, prev, inCache, refs := null, null, null, false, 1;
    }
  }

  /** The links of all entries, as a value. */
  type Links = map<LRUHandle, LRUHandle?>

  ghost predicate Same(a: LRUHandle, key: Bytes, hash: nat) {
    a.key == key && a.hash == hash
  }

  ghost predicate KeysDistinct(s: set<LRUHandle>) {
    forall a, b | a in s && b in s && Same(a, b.key, b.hash) :: a == b
  }

  // ---------------------------------------------------------------- chains

  function Head(c: seq<LRUHandle>): LRUHandle? {
    if c == [] then null else c[0]
  }

  ghost predicate Chain(next: Links, c: seq<LRUHandle>) {
    forall i | 0 <= i < |c| :: c[i] in next && next[c[i]] == Head(c[i + 1..])
  }

  ghost predicate Chains(next: Links, heads: seq<LRUHandle?>, chains: seq<seq<LRUHandle>>) {
    && |heads| == |chains|
    && forall b | 0 <= b < |chains| :: heads[b] == Head(chains[b]) && Chain(next, chains[b])
  }

  ghost predicate Once(c: seq<LRUHandle>) {
    forall i, j | 0 <= i < j < |c| :: c[i] != c[j]
  }

  /** The chains hold just the entries, each once, in the chain its hash gives. */
  ghost predicate Placed(chains: seq<seq<LRUHandle>>, entries: set<LRUHandle>)
    requires |chains| > 0
  {
    && (forall h | h in entries :: h in chains[h.hash % |chains|])
    && (forall b, k | 0 <= b < |chains| && 0 <= k < |chains[b]| :: chains[b][k] in entries && chains[b][k].hash % |chains| == b)
    && (forall b | 0 <= b < |chains| :: Once(chains[b]))
  }

  /** Pushing an entry to the front of its chain. */
  lemma Push(next: Links, heads: seq<LRUHandle?>, chains: seq<seq<LRUHandle>>, entries: set<LRUHandle>, h: LRUHandle, b: nat)
    requires |chains| > 0 && Chains(next, heads, chains) && Placed(chains, entries) && h !in entries
    requires b == h.hash % |chains|
    ensures Chains(next[h := heads[b]], heads[b := h], chains[b := [h] + chains[b]])
    ensures Placed(chains[b := [h] + chains[b]], entries + {h})
  {
    hide Chain, Placed;
    PushPlaced(chains, entries, h, b);
    forall a | 0 <= a < |chains|
      ensures Chain(next[h := heads[b]], chains[a])
    {
      NotThere(chains, entries, h, a);
      ChainElsewhere(next, h, heads[b], chains[a]);
    }
    ChainPush(next[h := heads[b]], chains[b], h);
  }

  lemma NotThere(chains: seq<seq<LRUHandle>>, entries: set<LRUHandle>, h: LRUHandle, a: nat)
    requires |chains| > 0 && Placed(chains, entries) && h !in entries && a < |chains|
    ensures h !in chains[a]
  {
  }

  lemma ChainPush(next: Links, c: seq<LRUHandle>, h: LRUHandle)
    requires Chain(next, c) && h in next && next[h] == Head(c)
    ensures Chain(next, [h] + c)
  {
    var longer := [h] + c;
    forall i | 0 <= i < |longer|
      ensures longer[i] in next && next[longer[i]] == Head(longer[i + 1..])
    {
      if i > 0 {
        assert longer[i] == c[i - 1] && longer[i + 1..] == c[i..];
      } else {
        assert longer[1..] == c;
      }
    }
  }

  lemma PushPlaced(chains: seq<seq<LRUHandle>>, entries: set<LRUHandle>, h: LRUHandle, b: nat)
    requires |chains| > 0 && Placed(chains, entries) && h !in entries && b == h.hash % |chains|
    ensures Placed(chains[b := [h] + chains[b]], entries + {h})
  {
    var c := [h] + chains[b];
    assert c[0] == h;
    assert forall x | x in chains[b] :: x in c;
    assert forall k | 0 < k < |c| :: c[k] == chains[b][k - 1];
  }

  lemma ChainElsewhere(next: Links, h: LRUHandle, target: LRUHandle?, c: seq<LRUHandle>)
    requires Chain(next, c) && h !in c
    ensures Chain(next[h := target], c)
  {
  }

  lemma ChainUnlink(next: Links, c: seq<LRUHandle>, k: nat)
    requires Chain(next, c) && k < |c|
    requires Once(c)
    ensures c[k] in next && next[c[k]] == Head(c[k + 1..])
    ensures Chain(if k == 0 then next else next[c[k - 1] := next[c[k]]], c[..k] + c[k + 1..])
  {
    var left := c[..k] + c[k + 1..];
    var after := if k == 0 then next else next[c[k - 1] := next[c[k]]];
    forall i | 0 <= i < |left|
      ensures left[i] in after && after[left[i]] == Head(left[i + 1..])
    {
      if i >= k {
        assert left[i] == c[i + 1] && left[i + 1..] == c[i + 2..];
      } else if i < k - 1 {
        assert left[i] == c[i] && left[i + 1..][0] == c[i + 1..][0];
      } else {
        assert left[i] == c[i] && left[i + 1..] == c[k + 1..];
      }
    }
  }

  lemma OnceEach(chains: seq<seq<LRUHandle>>, entries: set<LRUHandle>, b: nat)
    requires |chains| > 0 && Placed(chains, entries) && b < |chains|
    ensures Once(chains[b])
  {
  }

  /** Taking the first entry out of a chain. */
  lemma UnlinkFirst(next: Links, heads: seq<LRUHandle?>, chains: seq<seq<LRUHandle>>, entries: set<LRUHandle>, b: nat, c: seq<LRUHandle>)
    requires |chains| > 0 && Chains(next, heads, chains) && Placed(chains, entries)
    requires b < |chains| && chains[b] == c != []
    ensures c[0] in next && Chains(next, heads[b := next[c[0]]], chains[b := c[1..]])
    ensures Placed(chains[b := c[1..]], entries - {c[0]})
  {
    hide Chain, Placed;
    OnceEach(chains, entries, b);
    ChainUnlink(next, c, 0);
    StillPlaced(chains, entries, b, 0);
    assert c[..0] + c[1..] == c[1..];
  }

  /** Taking a later one: the link before it skips it. */
  lemma UnlinkLater(next: Links, heads: seq<LRUHandle?>, chains: seq<seq<LRUHandle>>, entries: set<LRUHandle>, b: nat, c: seq<LRUHandle>, k: nat)
    requires |chains| > 0 && Chains(next, heads, chains) && Placed(chains, entries)
    requires b < |chains| && chains[b] == c && 0 < k < |c|
    ensures c[k] in next && Chains(next[c[k - 1] := next[c[k]]], heads, chains[b := c[..k] + c[k + 1..]])
    ensures Placed(chains[b := c[..k] + c[k + 1..]], entries - {c[k]})
  {
    hide Chain, Placed;
    OnceEach(chains, entries, b);
    ChainUnlink(next, c, k);
    StillPlaced(chains, entries, b, k);
    forall a | 0 <= a < |chains| && a != b
      ensures Chain(next[c[k - 1] := next[c[k]]], chains[a])
    {
      OtherChain(chains, entries, b, k - 1, a);
      ChainElsewhere(next, c[k - 1], next[c[k]], chains[a]);
    }
    assert (c[..k] + c[k + 1..])[0] == c[0];
  }

  lemma OtherChain(chains: seq<seq<LRUHandle>>, entries: set<LRUHandle>, b: nat, k: nat, a: nat)
    requires |chains| > 0 && Placed(chains, entries) && b < |chains| && k < |chains[b]| && a < |chains| && a != b
    ensures chains[b][k] !in chains[a]
  {
    assert forall i | 0 <= i < |chains[a]| :: chains[a][i].hash % |chains| == a;
  }

  lemma StillPlaced(chains: seq<seq<LRUHandle>>, entries: set<LRUHandle>, b: nat, k: nat)
    requires |chains| > 0 && Placed(chains, entries) && b < |chains| && k < |chains[b]|
    ensures Placed(chains[b := chains[b][..k] + chains[b][k + 1..]], entries - {chains[b][k]})
  {
    var c := chains[b];
    var left := c[..k] + c[k + 1..];
    forall h | h in entries - {c[k]}
      ensures h in chains[b := left][h.hash % |chains|]
    {
      assert h in chains[h.hash % |chains|];
      if h.hash % |chains| == b {
        var i :| 0 <= i < |c| && c[i] == h;
        assert if i < k then left[i] == h else left[i - 1] == h;
      }
    }
  }

  /** The links after `h` is put between two parts of its chain. */
  ghost function Put(next: Links, before: seq<LRUHandle>, h: LRUHandle, behind: seq<LRUHandle>): Links {
    if before == [] then next[h := Head(behind)] else next[h := Head(behind)][before[|before| - 1] := h]
  }

  ghost predicate Segment(next: Links, c: seq<LRUHandle>, end: LRUHandle?) {
    forall i | 0 <= i < |c| :: c[i] in next && next[c[i]] == (if i == |c| - 1 then end else Head(c[i + 1..]))
  }

  lemma SegmentSplit(next: Links, a: seq<LRUHandle>, c: seq<LRUHandle>)
    requires Chain(next, a + c)
    ensures Segment(next, a, Head(c)) && Chain(next, c)
  {
    var whole := a + c;
    forall i | 0 <= i < |c|
      ensures c[i] in next && next[c[i]] == Head(c[i + 1..])
    {
      assert c[i] == whole[|a| + i] && c[i + 1..] == whole[|a| + i + 1..];
    }
    forall i | 0 <= i < |a|
      ensures a[i] in next && next[a[i]] == if i == |a| - 1 then Head(c) else Head(a[i + 1..])
    {
      assert a[i] == whole[i];
      if i == |a| - 1 {
        assert whole[i + 1..] == c;
      }
    }
  }

  lemma SegmentJoin(next: Links, a: seq<LRUHandle>, c: seq<LRUHandle>)
    requires Segment(next, a, Head(c)) && Chain(next, c)
    ensures Chain(next, a + c)
  {
    var whole := a + c;
    forall i | 0 <= i < |whole|
      ensures whole[i] in next && next[whole[i]] == Head(whole[i + 1..])
    {
      if i >= |a| - 1 {
        assert whole[i + 1..] == c[i + 1 - |a|..];
      }
    }
  }

  lemma SegmentEnd(next: Links, a: seq<LRUHandle>, end: LRUHandle?, h: LRUHandle)
    requires Segment(next, a, end) && a != []
    requires Once(a)
    ensures Segment(next[a[|a| - 1] := h], a, h)
  {
  }

  lemma ChainPut(next: Links, before: seq<LRUHandle>, gone: seq<LRUHandle>, h: LRUHandle, behind: seq<LRUHandle>)
    requires Chain(next, before + (gone + behind)) && h !in before + (gone + behind)
    requires Once(before + (gone + behind))
    ensures Chain(Put(next, before, h, behind), before + ([h] + behind))
  {
    hide Chain, Segment;
    PartsDiffer(before, gone, h, behind);
    SegmentSplit(next, before, gone + behind);
    SegmentSplit(next, gone, behind);
    var one := next[h := Head(behind)];
    ChainElsewhere(next, h, Head(behind), behind);
    if before == [] {
      ChainPush(one, behind, h);
      assert before + ([h] + behind) == [h] + behind;
    } else {
      var last := before[|before| - 1];
      SegmentElsewhere(next, h, Head(behind), before, Head(gone + behind));
      SegmentEnd(one, before, Head(gone + behind), h);
      ChainElsewhere(one, last, h, behind);
      ChainPush(one[last := h], behind, h);
      SegmentJoin(one[last := h], before, [h] + behind);
    }
  }

  lemma SegmentElsewhere(next: Links, h: LRUHandle, target: LRUHandle?, c: seq<LRUHandle>, end: LRUHandle?)
    requires Segment(next, c, end) && h !in c
    ensures Segment(next[h := target], c, end)
  {
  }

  lemma PartsDiffer(before: seq<LRUHandle>, gone: seq<LRUHandle>, h: LRUHandle, behind: seq<LRUHandle>)
    requires h !in before + (gone + behind)
    requires Once(before + (gone + behind))
    ensures h !in before && h !in behind
    ensures Once(before)
    ensures before != [] ==> before[|before| - 1] !in behind && before[|before| - 1] != h
  {
    var c := before + (gone + behind);
    assert forall i | 0 <= i < |before| :: before[i] == c[i] && c[i] in c;
    assert forall i | 0 <= i < |behind| :: behind[i] == c[|before| + |gone| + i];
  }

  lemma PutPlaced(chains: seq<seq<LRUHandle>>, entries: set<LRUHandle>, b: nat, before: seq<LRUHandle>, h: LRUHandle, behind: seq<LRUHandle>)
    requires |chains| > 0 && Placed(chains, entries) && h !in entries && b == h.hash % |chains|
    requires chains[b] == before + behind
    ensures Placed(chains[b := before + ([h] + behind)], entries + {h})
  {
    hide Placed;
    InsertMembers(before, h, behind);
    NotThere(chains, entries, h, b);
    PlacedMeans(chains, entries);
    OnceEach(chains, entries, b);
    InsertOnce(before, h, behind);
    var after, c := chains[b := before + ([h] + behind)], before + ([h] + behind);
    forall x | x in entries + {h}
      ensures x in after[x.hash % |chains|]
    {
    }
    MeansPlaced(after, entries + {h});
  }

  lemma PlacedMeans(chains: seq<seq<LRUHandle>>, entries: set<LRUHandle>)
    requires |chains| > 0 && Placed(chains, entries)
    ensures forall h | h in entries :: h in chains[h.hash % |chains|]
    ensures forall b, h | 0 <= b < |chains| && h in chains[b] :: h in entries && h.hash % |chains| == b
    ensures forall b | 0 <= b < |chains| :: Once(chains[b])
  {
  }

  lemma MeansPlaced(chains: seq<seq<LRUHandle>>, entries: set<LRUHandle>)
    requires |chains| > 0
    requires forall h | h in entries :: h in chains[h.hash % |chains|]
    requires forall b, h | 0 <= b < |chains| && h in chains[b] :: h in entries && h.hash % |chains| == b
    requires forall b | 0 <= b < |chains| :: Once(chains[b])
    ensures Placed(chains, entries)
  {
  }

  lemma InsertMembers(before: seq<LRUHandle>, h: LRUHandle, behind: seq<LRUHandle>)
    ensures forall x :: x in before + ([h] + behind) <==> x == h || x in before + behind
  {
  }

  lemma InsertOnce(before: seq<LRUHandle>, h: LRUHandle, behind: seq<LRUHandle>)
    requires Once(before + behind) && h !in before + behind
    ensures Once(before + ([h] + behind))
  {
    var was, c := before + behind, before + ([h] + behind);
    assert forall k | 0 <= k < |before| :: c[k] == was[k];
    assert forall k | |before| < k < |c| :: c[k] == was[k - 1];
    assert forall k | 0 <= k < |was| :: was[k] in was;
  }

  lemma Removed(chains: seq<seq<LRUHandle>>, entries: set<LRUHandle>, b: nat, before: seq<LRUHandle>, gone: seq<LRUHandle>, behind: seq<LRUHandle>)
    requires |chains| > 0 && Placed(chains, entries) && b < |chains| && chains[b] == before + (gone + behind) && |gone| <= 1
    ensures Placed(chains[b := before + behind], entries - (set x | x in gone))
  {
    hide Placed;
    if gone == [] {
      assert gone + behind == behind && chains[b := before + behind] == chains;
      assert entries - (set x | x in gone) == entries;
    } else {
      var k := |before|;
      assert chains[b][k] == gone[0] && chains[b][..k] == before && chains[b][k + 1..] == behind;
      StillPlaced(chains, entries, b, k);
      assert (set x | x in gone) == {gone[0]};
    }
  }

  lemma PutIn(next: Links, heads: seq<LRUHandle?>, chains: seq<seq<LRUHandle>>, entries: set<LRUHandle>, b: nat,
              before: seq<LRUHandle>, gone: seq<LRUHandle>, h: LRUHandle, behind: seq<LRUHandle>)
    requires |chains| > 0 && Chains(next, heads, chains) && Placed(chains, entries) && h !in entries
    requires b == h.hash % |chains| && chains[b] == before + (gone + behind) && |gone| <= 1
    ensures Chains(Put(next, before, h, behind), if before == [] then heads[b := h] else heads, chains[b := before + ([h] + behind)])
    ensures Placed(chains[b := before + ([h] + behind)], entries - (set x | x in gone) + {h})
  {
    hide Chain, Placed;
    OnceEach(chains, entries, b);
    NotThere(chains, entries, h, b);
    ChainPut(next, before, gone, h, behind);
    Removed(chains, entries, b, before, gone, behind);
    PutPlaced(chains[b := before + behind], entries - (set x | x in gone), b, before, h, behind);
    assert chains[b := before + behind][b := before + ([h] + behind)] == chains[b := before + ([h] + behind)];
    forall a | 0 <= a < |chains| && a != b
      ensures Chain(Put(next, before, h, behind), chains[a])
    {
      NotThere(chains, entries, h, a);
      ChainElsewhere(next, h, Head(behind), chains[a]);
      if before != [] {
        assert chains[b][|before| - 1] == before[|before| - 1];
        OtherChain(chains, entries, b, |before| - 1, a);
        ChainElsewhere(next[h := Head(behind)], before[|before| - 1], h, chains[a]);
      }
    }
  }

  /** Only the links of the entries themselves matter. */
  lemma ChainsAgree(one: Links, two: Links, heads: seq<LRUHandle?>, chains: seq<seq<LRUHandle>>, entries: set<LRUHandle>)
    requires |chains| > 0 && Chains(one, heads, chains) && Placed(chains, entries)
    requires forall h | h in entries :: h in two && (h in one ==> one[h] == two[h])
    ensures Chains(two, heads, chains)
  {
    forall b | 0 <= b < |chains|
      ensures Chain(two, chains[b])
    {
      assert forall i | 0 <= i < |chains[b]| :: chains[b][i] in entries;
    }
  }

  // ---------------------------------------------------------------- moving all entries to other chains

  ghost predicate Earlier(a: nat, j: nat, i: nat, k: nat) {
    a < i || (a == i && j < k)
  }

  /** The entries before position `k` of chain `i` have been moved, the links of the others are as they were. */
  ghost predicate Moving(next: Links, chains: seq<seq<LRUHandle>>, i: nat, k: nat, moved: set<LRUHandle>) {
    forall a, j | 0 <= a < |chains| && 0 <= j < |chains[a]| ::
      && chains[a][j] in next
      && (chains[a][j] in moved <==> Earlier(a, j, i, k))
      && (!Earlier(a, j, i, k) ==> next[chains[a][j]] == Head(chains[a][j + 1..]))
  }

  lemma MovingStarts(next: Links, heads: seq<LRUHandle?>, chains: seq<seq<LRUHandle>>)
    requires Chains(next, heads, chains)
    ensures Moving(next, chains, 0, 0, {})
  {
    forall a, j | 0 <= a < |chains| && 0 <= j < |chains[a]|
      ensures chains[a][j] in next && next[chains[a][j]] == Head(chains[a][j + 1..])
    {
      assert Chain(next, chains[a]);
    }
  }

  lemma Moves(next: Links, chains: seq<seq<LRUHandle>>, i: nat, k: nat, moved: set<LRUHandle>, entries: set<LRUHandle>, target: LRUHandle?)
    requires |chains| > 0 && Placed(chains, entries) && Moving(next, chains, i, k, moved) && i < |chains| && k < |chains[i]|
    ensures Moving(next[chains[i][k] := target], chains, i, k + 1, moved + {chains[i][k]})
    ensures chains[i][k] !in moved && chains[i][k] in entries && next[chains[i][k]] == Head(chains[i][k + 1..])
  {
    var h := chains[i][k];
    forall a, j | 0 <= a < |chains| && 0 <= j < |chains[a]| && !(a == i && j == k)
      ensures chains[a][j] != h
    {
      if a == i {
        OnceEach(chains, entries, i);
      } else {
        OtherChain(chains, entries, i, k, a);
      }
    }
  }

  lemma NextChain(next: Links, chains: seq<seq<LRUHandle>>, i: nat, moved: set<LRUHandle>)
    requires i < |chains| && Moving(next, chains, i, |chains[i]|, moved)
    ensures Moving(next, chains, i + 1, 0, moved)
  {
  }

  lemma AllMoved(next: Links, chains: seq<seq<LRUHandle>>, moved: set<LRUHandle>, entries: set<LRUHandle>)
    requires |chains| > 0 && Placed(chains, entries) && Moving(next, chains, |chains|, 0, moved) && moved <= entries
    ensures moved == entries
  {
    PlacedMeans(chains, entries);
    forall h | h in entries
      ensures h in moved
    {
      var a := h.hash % |chains|;
      var j :| 0 <= j < |chains[a]| && chains[a][j] == h;
    }
  }

  /** A table of the entries moved so far, and the rest of the chains they come from. */
  ghost predicate MovedTo(next: Links, chains: seq<seq<LRUHandle>>, i: nat, k: nat, entries: set<LRUHandle>,
                          heads: seq<LRUHandle?>, made: seq<seq<LRUHandle>>, moved: set<LRUHandle>)
  {
    && next.Keys == entries && |chains| > 0 && Placed(chains, entries)
    && |made| > 0 && Chains(next, heads, made) && Placed(made, moved) && moved <= entries
    && Moving(next, chains, i, k, moved)
  }

  lemma MoveOne(next: Links, chains: seq<seq<LRUHandle>>, i: nat, k: nat, entries: set<LRUHandle>,
                heads: seq<LRUHandle?>, made: seq<seq<LRUHandle>>, moved: set<LRUHandle>, h: LRUHandle, b: nat)
    requires MovedTo(next, chains, i, k, entries, heads, made, moved) && i < |chains|
    requires k < |chains[i]| && h == Head(chains[i][k..]) && |heads| > 0 && b == h.hash % |heads|
    ensures |made| == |heads| && h in entries && h !in moved && next[h] == Head(chains[i][k + 1..])
    ensures MovedTo(next[h := heads[b]], chains, i, k + 1, entries, heads[b := h], made[b := [h] + made[b]], moved + {h})
  {
    hide Chain, Chains, Placed, Moving;
    HeadsLength(next, heads, made);
    Moves(next, chains, i, k, moved, entries, heads[b]);
    Push(next, heads, made, moved, h, b);
  }

  lemma ChainDone(next: Links, chains: seq<seq<LRUHandle>>, i: nat, entries: set<LRUHandle>,
                  heads: seq<LRUHandle?>, made: seq<seq<LRUHandle>>, moved: set<LRUHandle>)
    requires i < |chains| && MovedTo(next, chains, i, |chains[i]|, entries, heads, made, moved)
    ensures MovedTo(next, chains, i + 1, 0, entries, heads, made, moved)
  {
    hide Chain, Chains, Placed, Moving;
    NextChain(next, chains, i, moved);
  }

  lemma NoneMoved(next: Links, heads: seq<LRUHandle?>, made: seq<seq<LRUHandle>>)
    requires |heads| == |made| > 0 && forall b | 0 <= b < |made| :: heads[b] == null && made[b] == []
    ensures Chains(next, heads, made) && Placed(made, {})
  {
  }

  lemma ResizeStarts(next: Links, heads: seq<LRUHandle?>, chains: seq<seq<LRUHandle>>, entries: set<LRUHandle>, length: nat, elems: nat,
                     newHeads: seq<LRUHandle?>, made: seq<seq<LRUHandle>>)
    requires TableOk(next, heads, chains, entries, length, elems)
    requires |newHeads| == |made| > 0 && forall b | 0 <= b < |made| :: newHeads[b] == null && made[b] == []
    ensures MovedTo(next, chains, 0, 0, entries, newHeads, made, {})
    ensures KeysDistinct(entries) && elems == |entries|
    ensures forall i | 0 <= i < length :: i < |heads| && i < |chains| && heads[i] == Head(chains[i])
  {
    NoneMoved(next, newHeads, made);
    MovingStarts(next, heads, chains);
  }

  lemma ResizeOk(next: Links, chains: seq<seq<LRUHandle>>, entries: set<LRUHandle>, heads: seq<LRUHandle?>, made: seq<seq<LRUHandle>>,
                 moved: set<LRUHandle>, length: nat)
    requires MovedTo(next, chains, |chains|, 0, entries, heads, made, moved)
    requires |heads| == length >= 4 && PowerOfTwo(length) && KeysDistinct(entries)
    ensures moved == entries && TableOk(next, heads, made, entries, length, |entries|)
  {
    HeadsLength(next, heads, made);
    AllMoved(next, chains, moved, entries);
  }

  method NewLength(elems: nat) returns (n: nat)
    ensures n >= 4 && n >= elems && PowerOfTwo(n)
  {
    n := 4;
    assert PowerOfTwo(2);
    while n < elems
      invariant PowerOfTwo(n) && n >= 4
      decreases elems - n
    {
      n := n * 2;
    }
  }

  /** The entry with this key, if any. */
  ghost predicate Finds(entries: set<LRUHandle>, r: LRUHandle?, key: Bytes, hash: nat) {
    if r == null then forall h | h in entries :: !Same(h, key, hash) else r in entries && Same(r, key, hash)
  }

  predicate PowerOfTwo(n: nat) {
    n == 1 || (n > 0 && n % 2 == 0 && PowerOfTwo(n / 2))
  }

  ghost predicate TableOk(next: Links, heads: seq<LRUHandle?>, chains: seq<seq<LRUHandle>>, entries: set<LRUHandle>, length: nat, elems: nat) {
    && next.Keys == entries && |chains| == length >= 4 && PowerOfTwo(length)
    && elems == |entries| && KeysDistinct(entries)
    && Chains(next, heads, chains) && Placed(chains, entries)
  }

  ghost function Without(entries: set<LRUHandle>, was: LRUHandle?): set<LRUHandle> {
    if was == null then entries else entries - {was}
  }

  lemma WithoutGone(entries: set<LRUHandle>, c: seq<LRUHandle>, k: nat)
    requires k <= |c|
    ensures entries - (set x | x in Gone(c, k)) == Without(entries, Head(c[k..]))
  {
  }

  lemma InsertOk(next: Links, heads: seq<LRUHandle?>, chains: seq<seq<LRUHandle>>, entries: set<LRUHandle>, length: nat, elems: nat,
                 h: LRUHandle, was: LRUHandle?, b: nat, c: seq<LRUHandle>, k: nat, now: Links, newHeads: seq<LRUHandle?>)
    requires TableOk(next, heads, chains, entries, length, elems) && h !in entries && b == h.hash % length && chains[b] == c
    requires k <= |c| && was == Head(c[k..]) && Finds(entries, was, h.key, h.hash)
    requires newHeads == if k == 0 then heads[b := h] else heads
    requires now.Keys == Without(entries, was) + {h}
    requires forall x | x in now :: x in Put(next, c[..k], h, Behind(c, k)) && now[x] == Put(next, c[..k], h, Behind(c, k))[x]
    ensures TableOk(now, newHeads, chains[b := c[..k] + ([h] + Behind(c, k))], Without(entries, was) + {h}, length,
                    if was == null then elems + 1 else elems)
  {
    hide Chain, Chains, Placed, PowerOfTwo, KeysDistinct, Put, Gone, Behind;
    ChainParts(c, k);
    PutIn(next, heads, chains, entries, b, c[..k], Gone(c, k), h, Behind(c, k));
    WithoutGone(entries, c, k);
    StillDistinct(entries, h, was);
    ChainsAgree(Put(next, c[..k], h, Behind(c, k)), now, newHeads, chains[b := c[..k] + ([h] + Behind(c, k))], Without(entries, was) + {h});
  }

  lemma RemoveOk(next: Links, heads: seq<LRUHandle?>, chains: seq<seq<LRUHandle>>, entries: set<LRUHandle>, length: nat, elems: nat,
                 r: LRUHandle, b: nat, c: seq<LRUHandle>, k: nat, now: Links, newHeads: seq<LRUHandle?>)
    requires TableOk(next, heads, chains, entries, length, elems) && b < length && chains[b] == c
    requires k < |c| && r == c[k] && r in next
    requires newHeads == if k == 0 then heads[b := next[r]] else heads
    requires now.Keys == entries - {r}
    requires forall x | x in now :: now[x] == if k > 0 && x == c[k - 1] then next[r] else next[x]
    ensures elems > 0 && TableOk(now, newHeads, chains[b := c[..k] + c[k + 1..]], entries - {r}, length, elems - 1)
  {
    hide Chain, Chains, Placed, PowerOfTwo, KeysDistinct;
    ChainAt(next, heads, chains, entries, b, c, k);
    FewerDistinct(entries, r);
    if k == 0 {
      UnlinkFirst(next, heads, chains, entries, b, c);
      assert c[..0] + c[1..] == c[1..];
      ChainsAgree(next, now, newHeads, chains[b := c[1..]], entries - {r});
    } else {
      UnlinkLater(next, heads, chains, entries, b, c, k);
      ChainsAgree(next[c[k - 1] := next[r]], now, newHeads, chains[b := c[..k] + c[k + 1..]], entries - {r});
    }
  }

  lemma StillDistinct(entries: set<LRUHandle>, h: LRUHandle, was: LRUHandle?)
    requires KeysDistinct(entries)
    requires if was == null then forall x | x in entries :: !Same(x, h.key, h.hash) else was in entries && Same(was, h.key, h.hash)
    ensures KeysDistinct((if was == null then entries else entries - {was}) + {h})
  {
  }

  lemma FewerDistinct(entries: set<LRUHandle>, r: LRUHandle)
    requires KeysDistinct(entries)
    ensures KeysDistinct(entries - {r})
  {
  }

  // ---------------------------------------------------------------- walking a chain

  lemma BucketHead(next: Links, heads: seq<LRUHandle?>, chains: seq<seq<LRUHandle>>, b: nat)
    requires Chains(next, heads, chains) && b < |chains|
    ensures heads[b] == Head(chains[b][0..])
  {
    assert chains[b][0..] == chains[b];
  }

  lemma ChainAt(next: Links, heads: seq<LRUHandle?>, chains: seq<seq<LRUHandle>>, entries: set<LRUHandle>, b: nat, c: seq<LRUHandle>, k: nat)
    requires |chains| > 0 && Chains(next, heads, chains) && Placed(chains, entries)
    requires b < |chains| && chains[b] == c && k < |c|
    ensures c[k] in entries && c[k] in next && next[c[k]] == Head(c[k + 1..])
  {
  }

  /** The links before and at a position of a chain, and where they lead. */
  lemma Around(next: Links, heads: seq<LRUHandle?>, chains: seq<seq<LRUHandle>>, entries: set<LRUHandle>, length: nat, elems: nat,
               b: nat, c: seq<LRUHandle>, k: nat)
    requires TableOk(next, heads, chains, entries, length, elems) && b < length && chains[b] == c && k <= |c|
    ensures next.Keys == entries && |heads| == length
    ensures k < |c| ==> c[k] in entries && next[c[k]] == Head(Behind(c, k)) && c[k..][0] == c[k]
    ensures k == |c| ==> Behind(c, k) == []
    ensures k > 0 ==> c[k - 1] in entries && c[..k] != [] && c[..k][|c[..k]| - 1] == c[k - 1] && (k < |c| ==> c[k - 1] != c[k])
  {
    hide Chain, Chains, Placed;
    OnceEach(chains, entries, b);
    if k < |c| {
      ChainAt(next, heads, chains, entries, b, c, k);
    }
    if k > 0 {
      ChainAt(next, heads, chains, entries, b, c, k - 1);
    }
    HeadsLength(next, heads, chains);
  }

  lemma HeadsLength(next: Links, heads: seq<LRUHandle?>, chains: seq<seq<LRUHandle>>)
    requires Chains(next, heads, chains)
    ensures |heads| == |chains|
  {
  }

  lemma NotInTable(chains: seq<seq<LRUHandle>>, entries: set<LRUHandle>, c: seq<LRUHandle>, key: Bytes, hash: nat)
    requires |chains| > 0 && Placed(chains, entries) && chains[hash % |chains|] == c
    requires forall i | 0 <= i < |c| :: !Same(c[i], key, hash)
    ensures forall h | h in entries :: !Same(h, key, hash)
  {
    PlacedMeans(chains, entries);
  }

  /** The parts of a chain around a position. */
  lemma ChainParts(c: seq<LRUHandle>, k: nat)
    requires k <= |c|
    ensures c == c[..k] + (Gone(c, k) + Behind(c, k))
    ensures Head(c[k..]) == (if k < |c| then c[k] else null)
    ensures |Gone(c, k)| <= 1
  {
  }

  function Gone(c: seq<LRUHandle>, k: nat): seq<LRUHandle>
    requires k <= |c|
  {
    if k < |c| then [c[k]] else []
  }

  function Behind(c: seq<LRUHandle>, k: nat): seq<LRUHandle>
    requires k <= |c|
  {
    if k < |c| then c[k + 1..] else []
  }

  // ---------------------------------------------------------------- the table

  lemma OnlyOne(entries: set<LRUHandle>, h: LRUHandle, r: LRUHandle?)
    requires KeysDistinct(entries) && h in entries && Finds(entries, r, h.key, h.hash)
    ensures r == h
  {
  }

  ghost function NextsOf(entries: set<LRUHandle>): (m: Links)
    reads entries`nextHash
    ensures m.Keys == entries && forall h | h in entries :: m[h] == h.nextHash
  {
    NextsExist(entries);
    var m: Links :| m.Keys == entries && forall h | h in entries :: m[h] == h.nextHash;
    m
  }

  lemma NextsExist(entries: set<LRUHandle>)
    ensures exists m: Links :: m.Keys == entries && forall h | h in entries :: m[h] == h.nextHash
  {
    var m: Links := map h | h in entries :: h.nextHash;
    assert m.Keys == entries && forall h | h in entries :: m[h] == h.nextHash;
  }

  class HandleTable {
    var length: nat
    var elems: nat
    var list: array<LRUHandle?>
    ghost var chains: seq<seq<LRUHandle>>
    ghost var entries: set<LRUHandle>

    /** On average a chain has at most one entry. */
    ghost predicate Valid()
      reads this, list, entries`nextHash
    {
      Linked() && elems <= length
    }

    ghost predicate Linked()
      reads this, list, entries`nextHash
    {
      && list.Length == length == |chains| && length >= 4
      && TableOk(NextsOf(entries), list[..], chains, entries, length, elems)
    }

    ghost function BucketOf(b: nat): (c: seq<LRUHandle>)
      requires b < |chains|
      reads this
    {
      chains[b]
    }

    lemma Distinct()
      requires Valid()
      ensures KeysDistinct(entries)
    {
    }

    constructor ()
      ensures Valid() && fresh(list) && entries == {} && length == 4
    {
      var buckets := new LRUHandle?[4](_ => null);
      length, elems, list := 4, 0, buckets;
      chains, entries := seq(4, _ => []), {};
      new;
      assert PowerOfTwo(2);
      assert forall b | 0 <= b < 4 :: list[..][b] == Head(chains[b]) && Chain(NextsOf(entries), chains[b]);
    }

    /** FindPointer: the entry with this key, or null at the end of its chain, and the entry before it. */
    method FindPointer(key: Bytes, hash: nat) returns (previous: LRUHandle?, at: LRUHandle?, ghost k: nat)
      requires Valid()
      ensures Finds(entries, at, key, hash)
      ensures k <= |chains[hash % length]| && at == Head(chains[hash % length][k..])
      ensures previous == if k == 0 then null else chains[hash % length][k - 1]
    {
      hide Chain, Chains, Placed, KeysDistinct, PowerOfTwo;
      var bucket := hash % length;
      ghost var c := chains[bucket];
      BucketHead(NextsOf(entries), list[..], chains, bucket);
      previous, at, k := null, list[bucket], 0;
      while at != null && (at.hash != hash || at.key != key)
        invariant k <= |c| && at == Head(c[k..])
        invariant previous == if k == 0 then null else c[k - 1]
        invariant forall i | 0 <= i < k :: !Same(c[i], key, hash)
        decreases |c| - k
      {
        ChainAt(NextsOf(entries), list[..], chains, entries, bucket, c, k);
        previous, at, k := at, at.nextHash, k + 1;
      }
      if at == null {
        NotInTable(chains, entries, c, key, hash);
      } else {
        ChainAt(NextsOf(entries), list[..], chains, entries, bucket, c, k);
      }
    }

    method Lookup(key: Bytes, hash: nat) returns (r: LRUHandle?)
      requires Valid()
      ensures Finds(entries, r, key, hash)
    {
      var previous;
      ghost var k;
      previous, r, k := FindPointer(key, hash);
    }

    /** The pointer FindPointer found is in a bucket or in the entry before. */
    method SetPointer(previous: LRUHandle?, bucket: nat, target: LRUHandle?)
      requires bucket < list.Length
      modifies list, (if previous == null then {} else {previous})`nextHash
      ensures list[..] == if previous == null then old(list[..])[bucket := target] else old(list[..])
      ensures previous != null ==> previous.nextHash == target
    {
      if previous == null {
        list[bucket] := target;
      } else {
        previous.nextHash := target;
      }
    }

    /** The new list takes the place of the old. */
    method Adopt(newList: array<LRUHandle?>, ghost made: seq<seq<LRUHandle>>, ghost links: Links)
      requires newList.Length == |made| && links == NextsOf(entries) && TableOk(links, newList[..], made, entries, newList.Length, elems)
      modifies this`list, this`length, this`chains
      ensures list == newList && length == newList.Length && chains == made
      ensures TableOk(NextsOf(entries), list[..], chains, entries, length, elems)
    {
      hide TableOk;
      list, length, chains := newList, newList.Length, made;
    }

    /** All chains, one after another. */
    method MoveChains(newList: array<LRUHandle?>, ghost start: seq<seq<LRUHandle>>)
      returns (count: nat, ghost made: seq<seq<LRUHandle>>, ghost moved: set<LRUHandle>)
      requires list.Length == length == |chains| && newList != list && newList.Length > 0
      requires MovedTo(NextsOf(entries), chains, 0, 0, entries, newList[..], start, {})
      requires forall i | 0 <= i < length :: list[..][i] == Head(chains[i])
      modifies newList, entries`nextHash
      ensures MovedTo(NextsOf(entries), chains, |chains|, 0, entries, newList[..], made, moved) && count == |moved|
    {
      hide MovedTo;
      count, made, moved := 0, start, {};
      for i := 0 to length
        modifies newList, entries`nextHash
        invariant count == |moved| && MovedTo(NextsOf(entries), chains, i, 0, entries, newList[..], made, moved)
      {
        assert list[..][i] == list[i];
        var more;
        more, made, moved := MoveChain(list[i], newList, i, made, moved);
        count := count + more;
        ChainDone(NextsOf(entries), chains, i, entries, newList[..], made, moved);
      }
    }

    /** What the chains and the entries now are, once there are `count` of them. */
    ghost method Record(newChains: seq<seq<LRUHandle>>, newEntries: set<LRUHandle>, count: nat)
      requires list.Length == length && TableOk(NextsOf(newEntries), list[..], newChains, newEntries, length, count)
      modifies this`chains, this`entries
      ensures chains == newChains && entries == newEntries
      ensures TableOk(NextsOf(entries), list[..], chains, entries, length, count)
    {
      hide TableOk;
      chains, entries := newChains, newEntries;
    }

    /** A new entry takes the place of one with the same key, which is returned. */
    method Insert(h: LRUHandle) returns (was: LRUHandle?)
      requires Valid() && h !in entries
      modifies this, list, entries`nextHash, h`nextHash
      ensures Valid() && (list == old(list) || fresh(list))
      ensures Finds(old(entries), was, h.key, h.hash)
      ensures entries == Without(old(entries), was) + {h}
    {
      hide TableOk, Finds;
      was := PutEntry(h);
      if was == null {
        elems := elems + 1;
        if elems > length {
          Resize();
        }
      }
    }

    /** The pointers of an insertion: the entry goes where the walk along its chain ends. */
    method PutEntry(h: LRUHandle) returns (was: LRUHandle?)
      requires Valid() && h !in entries
      modifies this`chains, this`entries, list, entries`nextHash, h`nextHash
      ensures list.Length == length == |chains| && entries == Without(old(entries), was) + {h}
      ensures TableOk(NextsOf(entries), list[..], chains, entries, length, if was == null then elems + 1 else elems)
      ensures Finds(old(entries), was, h.key, h.hash)
    {
      hide TableOk, Finds, Gone, Behind;
      var previous;
      ghost var k;
      previous, was, k := FindPointer(h.key, h.hash);
      var bucket := h.hash % length;
      ghost var next, heads, c := NextsOf(entries), list[..], BucketOf(bucket);
      Around(next, heads, chains, entries, length, elems, bucket, c, k);
      h.nextHash := if was == null then null else was.nextHash;
      SetPointer(previous, bucket, h);
      ghost var now := NextsOf(Without(entries, was) + {h});
      ghost var newHeads := list[..];
      InsertOk(next, heads, chains, entries, length, elems, h, was, bucket, c, k, now, newHeads);
      Record(chains[bucket := c[..k] + ([h] + Behind(c, k))], Without(entries, was) + {h}, if was == null then elems + 1 else elems);
    }

    /** The inner loop of Resize: the entries of one chain are pushed onto their new chains. */
    method MoveChain(first: LRUHandle?, newList: array<LRUHandle?>, ghost i: nat, ghost made: seq<seq<LRUHandle>>, ghost moved: set<LRUHandle>)
      returns (count: nat, ghost nowMade: seq<seq<LRUHandle>>, ghost nowMoved: set<LRUHandle>)
      requires i < |chains| && first == Head(chains[i]) && newList.Length > 0
      requires MovedTo(NextsOf(entries), chains, i, 0, entries, newList[..], made, moved)
      modifies newList, entries`nextHash
      ensures MovedTo(NextsOf(entries), chains, i, |chains[i]|, entries, newList[..], nowMade, nowMoved)
      ensures |nowMoved| == |moved| + count
    {
      hide MovedTo;
      var h := first;
      ghost var c, k := chains[i], 0;
      count, nowMade, nowMoved := 0, made, moved;
      assert c[0..] == c;
      while h != null
        invariant k <= |c| && h == Head(c[k..]) && |nowMoved| == |moved| + count
        invariant MovedTo(NextsOf(entries), chains, i, k, entries, newList[..], nowMade, nowMoved)
        decreases |c| - k
      {
        ghost var links, heads := NextsOf(entries), newList[..];
        var b := h.hash % newList.Length;
        MoveOne(links, chains, i, k, entries, heads, nowMade, nowMoved, h, b);
        var next := h.nextHash;
        h.nextHash := newList[b];
        newList[b] := h;
        assert NextsOf(entries) == links[h := heads[b]];
        assert newList[..] == heads[b := h];
        nowMoved, nowMade := nowMoved + {h}, nowMade[b := [h] + nowMade[b]];
        h, count, k := next, count + 1, k + 1;
      }
    }

    /** Every entry is pushed onto its chain among at least as many chains as there are entries. */
    method Resize()
      requires Linked()
      modifies this, entries`nextHash
      ensures Valid() && fresh(list) && entries == old(entries)
    {
      hide MovedTo, TableOk;
      var newLength := NewLength(elems);
      var newList := new LRUHandle?[newLength](_ => null);
      ghost var made: seq<seq<LRUHandle>>, moved: set<LRUHandle> := seq(newLength, _ => []), {};
      ResizeStarts(NextsOf(entries), list[..], chains, entries, length, elems, newList[..], made);
      var count;
      count, made, moved := MoveChains(newList, made);
      ghost var links, heads := NextsOf(entries), newList[..];
      ResizeOk(links, chains, entries, heads, made, moved, newLength);
      assert elems == count;
      Adopt(newList, made, links);
    }

    /** The entry with this key is taken out and returned. */
    method Remove(key: Bytes, hash: nat) returns (r: LRUHandle?)
      requires Valid()
      modifies this, list, entries`nextHash
      ensures Valid() && list == old(list)
      ensures Finds(old(entries), r, key, hash)
      ensures entries == Without(old(entries), r)
    {
      hide TableOk, Finds, Gone, Behind;
      var previous;
      ghost var k;
      previous, r, k := FindPointer(key, hash);
      if r != null {
        var bucket := hash % length;
        ghost var next, heads, c := NextsOf(entries), list[..], BucketOf(bucket);
        Around(next, heads, chains, entries, length, elems, bucket, c, k);
        SetPointer(previous, bucket, r.nextHash);
        ghost var now := NextsOf(entries - {r});
        ghost var newHeads := list[..];
        RemoveOk(next, heads, chains, entries, length, elems, r, bucket, c, k, now, newHeads);
        Record(chains[bucket := c[..k] + c[k + 1..]], entries - {r}, elems - 1);
        elems := elems - 1;
      }
    }
  }

}
