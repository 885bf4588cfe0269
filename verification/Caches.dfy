/**
  One shard of the block cache (util/cache.cc, LRUCache): every entry of the table is on one of two circular
  lists, entries are counted by references, and an entry goes to its deleter when the last one is dropped.
*/
module Caches {
  import opened InternalKeys
  import opened HandleTables

  // ---------------------------------------------------------------- circular lists

  function After(c: seq<LRUHandle>, i: nat): LRUHandle
    requires i < |c|
  {
    if i == |c| - 1 then c[0] else c[i + 1]
  }

  function Prior(c: seq<LRUHandle>, i: nat): LRUHandle
    requires i < |c|
  {
    if i == 0 then c[|c| - 1] else c[i - 1]
  }

  /** A doubly linked ring that starts with its dummy head. */
  ghost predicate Ring(next: Links, prev: Links, c: seq<LRUHandle>) {
    && c != [] && Once(c)
    && forall i | 0 <= i < |c| :: c[i] in next && c[i] in prev && next[c[i]] == After(c, i) && prev[c[i]] == Prior(c, i)
  }

  lemma RingElsewhere(next: Links, prev: Links, c: seq<LRUHandle>, x: LRUHandle, a: LRUHandle?, y: LRUHandle, b: LRUHandle?)
    requires Ring(next, prev, c) && x !in c && y !in c
    ensures Ring(next[x := a], prev[y := b], c)
  {
  }

  function Drop(c: seq<LRUHandle>, k: nat): seq<LRUHandle>
    requires k < |c|
  {
    c[..k] + c[k + 1..]
  }

  /** Where the element at position `i` of the shorter ring was. */
  function Shift(k: nat, i: nat): nat {
    if i < k then i else i + 1
  }

  lemma DropLinks(c: seq<LRUHandle>, k: nat, i: nat)
    requires Once(c) && 0 < k < |c| && i < |c| - 1
    ensures Drop(c, k)[i] == c[Shift(k, i)]
    ensures After(Drop(c, k), i) == if c[Shift(k, i)] == Prior(c, k) then After(c, k) else After(c, Shift(k, i))
    ensures Prior(Drop(c, k), i) == if c[Shift(k, i)] == After(c, k) then Prior(c, k) else Prior(c, Shift(k, i))
  {
    var j := Shift(k, i);
    assert c[j] == Prior(c, k) <==> j == k - 1;
    assert c[j] == After(c, k) <==> j == if k == |c| - 1 then 0 else k + 1;
    assert i + 1 < |c| - 1 ==> Drop(c, k)[i + 1] == c[Shift(k, i + 1)];
    assert i > 0 ==> Drop(c, k)[i - 1] == c[Shift(k, i - 1)];
    assert Drop(c, k)[0] == c[0];
    assert Drop(c, k)[|c| - 2] == c[Shift(k, |c| - 2)];
  }

  lemma DropOnce(c: seq<LRUHandle>, k: nat)
    requires Once(c) && k < |c|
    ensures Once(Drop(c, k))
    ensures forall x | x in Drop(c, k) :: x in c && x != c[k]
    ensures forall x | x in c && x != c[k] :: x in Drop(c, k)
  {
    var d := Drop(c, k);
    assert forall i | 0 <= i < |d| :: d[i] == c[Shift(k, i)];
    forall x | x in c && x != c[k]
      ensures x in d
    {
      var j :| 0 <= j < |c| && c[j] == x;
      assert d[if j < k then j else j - 1] == x;
    }
  }

  /** LRU_Remove */
  lemma RingRemove(next: Links, prev: Links, c: seq<LRUHandle>, k: nat)
    requires Ring(next, prev, c) && 0 < k < |c|
    ensures c[k] in next && c[k] in prev && next[c[k]] == After(c, k) && prev[c[k]] == Prior(c, k)
    ensures Ring(next[Prior(c, k) := After(c, k)], prev[After(c, k) := Prior(c, k)], Drop(c, k))
  {
    hide After, Prior, Drop;
    var d := Drop(c, k);
    var next2, prev2 := next[Prior(c, k) := After(c, k)], prev[After(c, k) := Prior(c, k)];
    DropOnce(c, k);
    DropLength(c, k);
    forall i | 0 <= i < |d|
      ensures d[i] in next2 && d[i] in prev2 && next2[d[i]] == After(d, i) && prev2[d[i]] == Prior(d, i)
    {
      DropLinks(c, k, i);
    }
  }

  lemma DropLength(c: seq<LRUHandle>, k: nat)
    requires k < |c|
    ensures |Drop(c, k)| == |c| - 1
  {
  }

  lemma AppendLinks(c: seq<LRUHandle>, e: LRUHandle, i: nat)
    requires Once(c) && e !in c && i <= |c| && c != []
    ensures (c + [e])[i] == if i == |c| then e else c[i]
    ensures After(c + [e], i) == if i == |c| then c[0] else if c[i] == c[|c| - 1] then e else After(c, i)
    ensures Prior(c + [e], i) == if i == |c| then c[|c| - 1] else if c[i] == c[0] then e else Prior(c, i)
  {
  }

  lemma AppendOnce(c: seq<LRUHandle>, e: LRUHandle)
    requires Once(c) && e !in c
    ensures Once(c + [e])
  {
  }

  /** LRU_Append: just before the head */
  lemma RingAppend(next: Links, prev: Links, c: seq<LRUHandle>, e: LRUHandle)
    requires Ring(next, prev, c) && e !in c
    ensures Ring(next[e := c[0]][c[|c| - 1] := e], prev[e := c[|c| - 1]][c[0] := e], c + [e])
  {
    hide After, Prior;
    var d := c + [e];
    var next2, prev2 := next[e := c[0]][c[|c| - 1] := e], prev[e := c[|c| - 1]][c[0] := e];
    AppendOnce(c, e);
    forall i | 0 <= i < |d|
      ensures d[i] in next2 && d[i] in prev2 && next2[d[i]] == After(d, i) && prev2[d[i]] == Prior(d, i)
    {
      AppendLinks(c, e, i);
    }
  }

  lemma RingMembers(next: Links, prev: Links, c: seq<LRUHandle>, k: nat)
    requires Ring(next, prev, c) && k < |c|
    ensures c[k] in next && c[k] in prev && After(c, k) in c && Prior(c, k) in c
    ensures next[c[k]] == After(c, k) && prev[c[k]] == Prior(c, k)
  {
  }

  // ---------------------------------------------------------------- lists without their heads

  /** A list without one of its elements. */
  function Out(s: seq<LRUHandle>, e: LRUHandle): seq<LRUHandle> {
    if s == [] then [] else if s[0] == e then s[1..] else [s[0]] + Out(s[1..], e)
  }

  lemma {:induction false} OutIsDrop(s: seq<LRUHandle>, k: nat)
    requires Once(s) && k < |s|
    ensures Out(s, s[k]) == Drop(s, k)
    decreases |s|
  {
    if k > 0 {
      OutIsDrop(s[1..], k - 1);
      assert s[0] != s[k];
    }
  }

  lemma {:induction false} OutSame(s: seq<LRUHandle>, e: LRUHandle)
    requires e !in s
    ensures Out(s, e) == s
    decreases |s|
  {
    if s != [] {
      OutSame(s[1..], e);
    }
  }

  /** The sum of the charges. */
  function Charges(s: seq<LRUHandle>): nat {
    if s == [] then 0 else s[0].charge + Charges(s[1..])
  }

  lemma {:induction false} ChargesAppend(s: seq<LRUHandle>, e: LRUHandle)
    ensures Charges(s + [e]) == Charges(s) + e.charge
    decreases |s|
  {
    if s != [] {
      ChargesAppend(s[1..], e);
      assert (s + [e])[1..] == s[1..] + [e];
    }
  }

  lemma {:induction false} ChargesOut(s: seq<LRUHandle>, e: LRUHandle)
    ensures Charges(Out(s, e)) == Charges(s) - if e in s then e.charge else 0
    decreases |s|
  {
    if s != [] {
      ChargesOut(s[1..], e);
    }
  }

  lemma {:induction false} OutMembers(s: seq<LRUHandle>, e: LRUHandle)
    requires Once(s)
    ensures Once(Out(s, e))
    ensures forall x | x in Out(s, e) :: x in s && x != e
    ensures forall x | x in s && x != e :: x in Out(s, e)
  {
    if e in s {
      var k :| 0 <= k < |s| && s[k] == e;
      OutIsDrop(s, k);
      DropOnce(s, k);
    } else {
      OutSame(s, e);
    }
  }

  /** Two rings of different entries. */
  ghost predicate TwoRings(next: Links, prev: Links, a: LRUHandle, lru: seq<LRUHandle>, b: LRUHandle, inUse: seq<LRUHandle>, live: set<LRUHandle>) {
    && a != b && a !in live && b !in live
    && Ring(next, prev, [a] + lru) && Ring(next, prev, [b] + inUse)
    && (forall x | x in lru :: x in live && x !in inUse)
    && (forall x | x in inUse :: x in live)
  }

  lemma EmptyLists()
    ensures Once([]) && Charges([]) == 0
  {
  }

  lemma NoEntries(next: Links, prev: Links, a: LRUHandle, b: LRUHandle)
    requires a != b && a in next && a in prev && b in next && b in prev
    requires next[a] == prev[a] == a && next[b] == prev[b] == b
    ensures TwoRings(next, prev, a, [], b, [], {})
  {
    assert [a] + [] == [a] && [b] + [] == [b];
  }

  lemma DropBehind(a: LRUHandle, s: seq<LRUHandle>, k: nat)
    requires k < |s|
    ensures Drop([a] + s, k + 1) == [a] + Drop(s, k)
  {
    var c := [a] + s;
    assert c[..k + 1] == [a] + s[..k];
    assert c[k + 2..] == s[k + 1..];
  }

  lemma DropIsOut(a: LRUHandle, s: seq<LRUHandle>, k: nat)
    requires Once(s) && k < |s|
    ensures Drop([a] + s, k + 1) == [a] + Out(s, s[k])
  {
    hide Once, Out;
    OutIsDrop(s, k);
    DropBehind(a, s, k);
  }

  lemma AfterDiffers(c: seq<LRUHandle>, k: nat)
    requires Once(c) && 0 < k < |c|
    ensures After(c, k) != c[k]
  {
  }

  lemma RingTake(next: Links, prev: Links, a: LRUHandle, s: seq<LRUHandle>, e: LRUHandle) returns (x: LRUHandle, y: LRUHandle)
    requires Ring(next, prev, [a] + s) && e in s
    ensures e in next && e in prev && next[e] == y && prev[e] == x && x in [a] + s && y in [a] + s && y != e
    ensures Ring(next[x := y], prev[y := x], [a] + Out(s, e))
    ensures Once(s) && a !in s
  {
    hide Ring, After, Prior, Out;
    var k :| 0 <= k < |s| && s[k] == e;
    var c := [a] + s;
    assert c[k + 1] == e;
    RingMeans(next, prev, c);
    RingRemove(next, prev, c, k + 1);
    RingMembers(next, prev, c, k + 1);
    x, y := Prior(c, k + 1), After(c, k + 1);
    AfterDiffers(c, k + 1);
    OnceTail(a, s);
    DropIsOut(a, s, k);
  }

  /** An entry leaves the first ring; `now` and `nowPrev` are the links after that. */
  lemma TakeOut(next: Links, prev: Links, a: LRUHandle, s: seq<LRUHandle>, b: LRUHandle, t: seq<LRUHandle>, live: set<LRUHandle>, e: LRUHandle)
    returns (x: LRUHandle, y: LRUHandle)
    requires TwoRings(next, prev, a, s, b, t, live) && e in s
    ensures e in next && e in prev && next[e] == y && prev[e] == x && y != e && x in live + {a, b} && y in live + {a, b}
    ensures TwoRings(next[x := y], prev[y := x], a, Out(s, e), b, t, live)
    ensures Out(t, e) == t
  {
    hide Ring, After, Prior;
    x, y := RingTake(next, prev, a, s, e);
    RingMeans(next, prev, [a] + s);
    RingMeans(next, prev, [b] + t);
    OutMembers(s, e);
    OutSame(t, e);
    assert x !in [b] + t && y !in [b] + t;
    RingElsewhere(next, prev, [b] + t, x, y, y, x);
  }

  /** An entry leaves whichever list it is on. */
  lemma TakeOutOfEither(next: Links, prev: Links, a: LRUHandle, s: seq<LRUHandle>, b: LRUHandle, t: seq<LRUHandle>, live: set<LRUHandle>, e: LRUHandle)
    returns (x: LRUHandle, y: LRUHandle)
    requires TwoRings(next, prev, a, s, b, t, live) && (e in s || e in t)
    ensures e in next && e in prev && next[e] == y && prev[e] == x && y != e && x in live + {a, b} && y in live + {a, b}
    ensures TwoRings(next[x := y], prev[y := x], a, Out(s, e), b, Out(t, e), live)
  {
    hide TwoRings, Out;
    if e in s {
      x, y := TakeOut(next, prev, a, s, b, t, live, e);
    } else {
      Swapped(next, prev, a, s, b, t, live);
      x, y := TakeOut(next, prev, b, t, a, s, live, e);
      Swapped(next[x := y], prev[y := x], b, Out(t, e), a, s, live);
    }
  }

  lemma RingMeans(next: Links, prev: Links, c: seq<LRUHandle>)
    requires Ring(next, prev, c)
    ensures c != [] && Once(c) && forall x | x in c :: x in next && x in prev
  {
  }

  lemma OnceTail(a: LRUHandle, s: seq<LRUHandle>)
    requires Once([a] + s)
    ensures Once(s) && a !in s
  {
    var c := [a] + s;
    assert forall i | 0 <= i < |s| :: s[i] == c[i + 1] && c[i + 1] != c[0];
  }

  lemma PutLast(next: Links, prev: Links, a: LRUHandle, s: seq<LRUHandle>, b: LRUHandle, t: seq<LRUHandle>, live: set<LRUHandle>, e: LRUHandle)
    returns (x: LRUHandle)
    requires TwoRings(next, prev, a, s, b, t, live) && e in live && e !in s && e !in t
    ensures a in prev && prev[a] == x && x != e && x in live + {a, b}
    ensures TwoRings(next[e := a][x := e], prev[e := x][a := e], a, s + [e], b, t, live)
  {
    hide Ring, After, Prior;
    var c := [a] + s;
    RingMeans(next, prev, c);
    RingMeans(next, prev, [b] + t);
    RingMembers(next, prev, c, 0);
    HeadLinks(c);
    x := c[|c| - 1];
    RingAppend(next, prev, c, e);
    assert c + [e] == [a] + (s + [e]);
    assert x !in [b] + t && a !in [b] + t && e !in [b] + t;
    RingElsewhere(next, prev, [b] + t, e, a, e, x);
    RingElsewhere(next[e := a], prev[e := x], [b] + t, x, e, a, e);
  }

  /** An entry becomes the last of the list with this head. */
  lemma PutLastOfEither(next: Links, prev: Links, a: LRUHandle, s: seq<LRUHandle>, b: LRUHandle, t: seq<LRUHandle>, live: set<LRUHandle>,
                        list: LRUHandle, e: LRUHandle)
    returns (x: LRUHandle)
    requires TwoRings(next, prev, a, s, b, t, live) && e in live && e !in s && e !in t && (list == a || list == b)
    ensures a != b && e != a && e != b && list in prev && prev[list] == x && x != e && x in live + {a, b}
    ensures TwoRings(next[e := list][x := e], prev[e := x][list := e], a, if list == a then s + [e] else s, b, if list == a then t else t + [e], live)
  {
    assert a != b && e != a && e != b;
    hide TwoRings;
    if list == a {
      x := PutLast(next, prev, a, s, b, t, live, e);
    } else {
      Swapped(next, prev, a, s, b, t, live);
      x := PutLast(next, prev, b, t, a, s, live, e);
      Swapped(next[e := b][x := e], prev[e := x][b := e], b, t + [e], a, s, live);
    }
  }

  lemma HeadLinks(c: seq<LRUHandle>)
    requires c != []
    ensures Prior(c, 0) == c[|c| - 1]
  {
  }

  lemma InLive(next: Links, prev: Links, a: LRUHandle, s: seq<LRUHandle>, b: LRUHandle, t: seq<LRUHandle>, live: set<LRUHandle>)
    requires TwoRings(next, prev, a, s, b, t, live)
    ensures forall x | x in s || x in t :: x in live
  {
  }

  lemma Swapped(next: Links, prev: Links, a: LRUHandle, s: seq<LRUHandle>, b: LRUHandle, t: seq<LRUHandle>, live: set<LRUHandle>)
    requires TwoRings(next, prev, a, s, b, t, live)
    ensures TwoRings(next, prev, b, t, a, s, live)
  {
  }

  // ---------------------------------------------------------------- references

  type Refs = map<LRUHandle, nat>
  type Flags = map<LRUHandle, bool>

  /** Every cached entry is on one list, the first when only the cache refers to it and otherwise the second;
      no entry is without references, and none that was freed is still there or was freed twice. */
  ghost predicate Counted(lru: seq<LRUHandle>, inUse: seq<LRUHandle>, live: set<LRUHandle>, cached: set<LRUHandle>,
                          refs: Refs, flags: Flags, usage: nat, freed: seq<LRUHandle>)
  {
    && refs.Keys == flags.Keys == live && cached <= live
    && Once(lru) && Once(inUse)
    && (forall h | h in cached :: h in lru || h in inUse)
    && (forall h | h in lru :: h in cached && refs[h] == 1)
    && (forall h | h in inUse :: h in cached && refs[h] >= 2)
    && (forall h | h in live :: refs[h] >= 1 && flags[h] == (h in cached))
    && usage == Charges(lru) + Charges(inUse)
    && Once(freed) && forall h | h in freed :: h !in live
  }

  lemma OneMore(lru: seq<LRUHandle>, inUse: seq<LRUHandle>, live: set<LRUHandle>, cached: set<LRUHandle>,
                refs: Refs, flags: Flags, usage: nat, freed: seq<LRUHandle>, e: LRUHandle)
    requires Counted(lru, inUse, live, cached, refs, flags, usage, freed) && e in live
    ensures e in refs && e in flags && (refs[e] == 1 && flags[e] <==> e in lru)
    ensures if e in lru then Out(inUse, e) == inUse else Out(lru, e) == lru
    ensures e !in Out(lru, e) && (e in lru ==> e !in Out(inUse, e))
    ensures Counted(Out(lru, e), if e in lru then inUse + [e] else inUse, live, cached, refs[e := refs[e] + 1], flags, usage, freed)
  {
    OutMembers(lru, e);
    ChargesOut(lru, e);
    if e in lru {
      OutSame(inUse, e);
      ChargesAppend(inUse, e);
      AppendOnce(inUse, e);
    } else {
      OutSame(lru, e);
    }
  }

  lemma OneLess(lru: seq<LRUHandle>, inUse: seq<LRUHandle>, live: set<LRUHandle>, cached: set<LRUHandle>,
                refs: Refs, flags: Flags, usage: nat, freed: seq<LRUHandle>, e: LRUHandle)
    requires Counted(lru, inUse, live, cached, refs, flags, usage, freed) && e in live && refs[e] >= 2
    ensures flags[e] <==> e in inUse
    ensures e !in lru && Out(lru, e) == lru && e !in Out(lru, e) && e !in Out(inUse, e)
    ensures flags[e] && refs[e] == 2 ==>
              Counted(Out(lru, e) + [e], Out(inUse, e), live, cached, refs[e := refs[e] - 1], flags, usage, freed)
    ensures !(flags[e] && refs[e] == 2) ==> Counted(lru, inUse, live, cached, refs[e := refs[e] - 1], flags, usage, freed)
  {
    OutSame(lru, e);
    OutMembers(inUse, e);
    ChargesOut(inUse, e);
    ChargesAppend(lru, e);
    AppendOnce(lru, e);
  }

  lemma MoreLinks(next: Links, prev: Links, a: LRUHandle, s: seq<LRUHandle>, b: LRUHandle, t: seq<LRUHandle>, live: set<LRUHandle>, e: LRUHandle)
    requires TwoRings(next, prev, a, s, b, t, live) && e !in live + {a, b}
    ensures TwoRings(next[e := e.next], prev[e := e.prev], a, s, b, t, live + {e})
  {
    hide After, Prior;
    RingElsewhere(next, prev, [a] + s, e, e.next, e, e.prev);
    RingElsewhere(next, prev, [b] + t, e, e.next, e, e.prev);
  }

  lemma Replaced(cached: set<LRUHandle>, was: LRUHandle, e: LRUHandle)
    requires was in cached && e !in cached
    ensures was !in Without(cached, was) + {e}
    ensures Without(cached, was) + {e} + {was} == cached + {e}
  {
  }

  lemma Kept(cached: set<LRUHandle>, e: LRUHandle)
    ensures Without(cached, null) + {e} == cached + {e}
  {
  }

  lemma NewLive(lru: seq<LRUHandle>, inUse: seq<LRUHandle>, live: set<LRUHandle>, cached: set<LRUHandle>,
                refs: Refs, flags: Flags, usage: nat, freed: seq<LRUHandle>, e: LRUHandle)
    requires Counted(lru, inUse, live, cached, refs, flags, usage, freed) && e !in live && e !in freed
    ensures Counted(lru, inUse, live + {e}, cached, refs[e := 1], flags[e := false], usage, freed)
  {
  }

  lemma NowCached(lru: seq<LRUHandle>, inUse: seq<LRUHandle>, live: set<LRUHandle>, cached: set<LRUHandle>,
                  refs: Refs, flags: Flags, usage: nat, freed: seq<LRUHandle>, e: LRUHandle)
    requires Counted(lru, inUse, live, cached, refs, flags, usage, freed) && e in live && !flags[e]
    ensures e !in lru && e !in inUse && e !in cached
    ensures Counted(lru, inUse + [e], live, cached + {e}, refs[e := refs[e] + 1], flags[e := true], usage + e.charge, freed)
  {
    ChargesAppend(inUse, e);
    AppendOnce(inUse, e);
  }

  lemma Oldest(next: Links, prev: Links, a: LRUHandle, s: seq<LRUHandle>, b: LRUHandle, t: seq<LRUHandle>, live: set<LRUHandle>)
    requires TwoRings(next, prev, a, s, b, t, live)
    ensures a in next && next[a] == if s == [] then a else s[0]
    ensures s != [] ==> s[0] != a && s[0] in live && s[0] !in t && Once(s)
    ensures s != [] ==> Out(s, s[0]) == s[1..] && Out(t, s[0]) == t
  {
    var c := [a] + s;
    assert c[0] == a && After(c, 0) == if s == [] then a else s[0];
    OnceTail(a, s);
    if s != [] {
      OutSame(t, s[0]);
    }
  }

  lemma RemovedFrom(entries: set<LRUHandle>, e: LRUHandle, key: Bytes, hash: nat)
    requires Finds(entries, e, key, hash)
    ensures e in entries
  {
  }

  lemma NotOnLists(lru: seq<LRUHandle>, inUse: seq<LRUHandle>, live: set<LRUHandle>, cached: set<LRUHandle>,
                   refs: Refs, flags: Flags, usage: nat, freed: seq<LRUHandle>, e: LRUHandle)
    requires Counted(lru, inUse, live, cached, refs, flags, usage, freed) && e in live && !flags[e]
    ensures e !in lru && e !in inUse
  {
  }

  lemma LastGone(lru: seq<LRUHandle>, inUse: seq<LRUHandle>, live: set<LRUHandle>, cached: set<LRUHandle>,
                 refs: Refs, flags: Flags, usage: nat, freed: seq<LRUHandle>, e: LRUHandle)
    requires Counted(lru, inUse, live, cached, refs, flags, usage, freed) && e in live && !flags[e]
    ensures Counted(lru, inUse, live - {e}, cached, refs - {e}, flags - {e}, usage, freed + [e])
  {
    AppendOnce(freed, e);
  }

  lemma Uncached(lru: seq<LRUHandle>, inUse: seq<LRUHandle>, live: set<LRUHandle>, cached: set<LRUHandle>,
                 refs: Refs, flags: Flags, usage: nat, freed: seq<LRUHandle>, e: LRUHandle)
    requires e !in cached && Counted(lru, inUse, live, cached + {e}, refs, flags, usage, freed)
    ensures e in live && flags[e] && (e in lru || e in inUse) && usage >= e.charge && refs[e] >= 1 && (refs[e] == 1 <==> e in lru)
    ensures Counted(Out(lru, e), Out(inUse, e), live, cached, refs, flags[e := false], usage - e.charge, freed)
  {
    assert e in cached + {e};
    OutMembers(lru, e);
    OutMembers(inUse, e);
    ChargesOut(lru, e);
    ChargesOut(inUse, e);
  }

  lemma OtherLive(next: Links, prev: Links, a: LRUHandle, s: seq<LRUHandle>, b: LRUHandle, t: seq<LRUHandle>, live: set<LRUHandle>, now: set<LRUHandle>)
    requires TwoRings(next, prev, a, s, b, t, live) && a !in now && b !in now
    requires forall x | x in live && (x in s || x in t) :: x in now
    ensures TwoRings(next, prev, a, s, b, t, now)
  {
    hide Ring;
  }

  lemma HeadsApart(next: Links, prev: Links, a: LRUHandle, s: seq<LRUHandle>, b: LRUHandle, t: seq<LRUHandle>, live: set<LRUHandle>)
    requires TwoRings(next, prev, a, s, b, t, live)
    ensures a != b && a !in live && b !in live
  {
  }

  // ---------------------------------------------------------------- the cache

  class LRUCache {
    const capacity: nat
    const lruHead: LRUHandle
    const inUseHead: LRUHandle
    const table: HandleTable
    var usage: nat
    /** The entries that only the cache refers to, oldest first; those in use; all that have not been freed;
        and those that have, in the order in which their deleters ran. */
    ghost var lru: seq<LRUHandle>
    ghost var inUse: seq<LRUHandle>
    ghost var live: set<LRUHandle>
    ghost var freed: seq<LRUHandle>
    /** The fields of the entries, as values. */
    ghost var nexts: Links
    ghost var prevs: Links
    ghost var refs: Refs
    ghost var flags: Flags

    ghost function Nodes(): set<LRUHandle>
      reads `live
    {
      live + {lruHead, inUseHead}
    }

    ghost predicate Mirrored()
      reads `live, `nexts, `prevs, `refs, `flags, Nodes()`next, Nodes()`prev, live`refs, live`inCache
    {
      && (forall h | h in Nodes() :: h in nexts && h in prevs && nexts[h] == h.next && prevs[h] == h.prev)
      && (forall h | h in live :: h in refs && h in flags && refs[h] == h.refs && flags[h] == h.inCache)
    }

    ghost predicate Rings()
      reads `lru, `inUse, `live, `nexts, `prevs
    {
      lruHead != inUseHead && TwoRings(nexts, prevs, lruHead, lru, inUseHead, inUse, live)
    }

    /** Everything but the table, when the entries in `cached` are those the cache has a reference to. */
    ghost predicate Holds(cached: set<LRUHandle>)
      reads this, Nodes()`next, Nodes()`prev, live`refs, live`inCache
    {
      Mirrored() && Rings() && Counted(lru, inUse, live, cached, refs, flags, usage, freed)
    }

    ghost predicate Valid()
      reads this, table, table.list, table.entries`nextHash, Nodes()`next, Nodes()`prev, live`refs, live`inCache
    {
      table.Valid() && Holds(table.entries)
    }

    /** The references that clients have. */
    ghost function External(h: LRUHandle): int
      reads h`refs, h`inCache
    {
      h.refs - if h.inCache then 1 else 0
    }

    constructor (capacity: nat)
      ensures Valid() && fresh(table) && fresh(table.list) && fresh(lruHead) && fresh(inUseHead)
      ensures this.capacity == capacity && lru == inUse == freed == [] && live == {}
    {
      EmptyLists();
      hide TwoRings, HandleTable.Valid, Once, Charges;
      this.capacity := capacity;
      var a := new LRUHandle([], 0, 0, 0);
      var b := new LRUHandle([], 0, 0, 0);
      a.next, a.prev, b.next, b.prev := a, a, b, b;
      NoEntries(map[a := a, b := b], map[a := a, b := b], a, b);
      lruHead, inUseHead := a, b;
      nexts, prevs, refs, flags := map[a := a, b := b], map[a := a, b := b], map[], map[];
      usage, lru, inUse, live, freed := 0, [], [], {}, [];
      table := new HandleTable();
    }

    // ---------------------------------------------------------------- single assignments

    method SetNext(h: LRUHandle, target: LRUHandle)
      requires Mirrored() && h in Nodes()
      modifies h`next, this`nexts
      ensures Mirrored() && nexts == old(nexts)[h := target] && h.next == target
    {
      h.next := target;
      nexts := nexts[h := target];
    }

    method SetPrev(h: LRUHandle, target: LRUHandle)
      requires Mirrored() && h in Nodes()
      modifies h`prev, this`prevs
      ensures Mirrored() && prevs == old(prevs)[h := target] && h.prev == target
    {
      h.prev := target;
      prevs := prevs[h := target];
    }

    method SetRefs(h: LRUHandle, n: nat)
      requires Mirrored() && h in live
      modifies h`refs, this`refs
      ensures Mirrored() && refs == old(refs)[h := n] && h.refs == n
    {
      h.refs := n;
      refs := refs[h := n];
    }

    method SetInCache(h: LRUHandle, b: bool)
      requires Mirrored() && h in live
      modifies h`inCache, this`flags
      ensures Mirrored() && flags == old(flags)[h := b] && h.inCache == b
    {
      h.inCache := b;
      flags := flags[h := b];
    }

    lemma Mirror(h: LRUHandle)
      requires Mirrored()
      ensures h in Nodes() ==> h in nexts && h in prevs && nexts[h] == h.next && prevs[h] == h.prev
      ensures h in live ==> h in refs && h in flags && refs[h] == h.refs && flags[h] == h.inCache
    {
    }

    // ---------------------------------------------------------------- lists

    method LRURemove(e: LRUHandle)
      requires Mirrored() && Rings() && (e in lru || e in inUse)
      modifies this`lru, this`inUse, this`nexts, this`prevs, Nodes()`next, Nodes()`prev
      ensures Mirrored() && Rings() && lru == Out(old(lru), e) && inUse == Out(old(inUse), e)
    {
      hide TwoRings, Out, Mirrored;
      Mirror(e);
      InLive(nexts, prevs, lruHead, lru, inUseHead, inUse, live);
      ghost var x, y := TakeOutOfEither(nexts, prevs, lruHead, lru, inUseHead, inUse, live, e);
      SetPrev(e.next, e.prev);
      Mirror(e);
      SetNext(e.prev, e.next);
      lru, inUse := Out(lru, e), Out(inUse, e);
    }

    /** The assignments of LRU_Append. */
    method Splice(list: LRUHandle, e: LRUHandle, ghost x: LRUHandle)
      requires Mirrored() && e in live && list in Nodes() && e != list && list.prev == x && x in Nodes() && x != e
      modifies this`nexts, this`prevs, Nodes()`next, Nodes()`prev
      ensures Mirrored() && nexts == old(nexts)[e := list][x := e] && prevs == old(prevs)[e := x][list := e]
    {
      hide Mirrored;
      SetNext(e, list);
      SetPrev(e, list.prev);
      SetNext(e.prev, e);
      SetPrev(e.next, e);
    }

    /** Before the head `list`, as the newest entry. */
    method LRUAppend(list: LRUHandle, e: LRUHandle)
      requires Mirrored() && Rings() && e in live && e !in lru && e !in inUse && list in {lruHead, inUseHead}
      modifies this`lru, this`inUse, this`nexts, this`prevs, Nodes()`next, Nodes()`prev
      ensures Mirrored() && Rings()
      ensures lru == if list == lruHead then old(lru) + [e] else old(lru)
      ensures inUse == if list == lruHead then old(inUse) else old(inUse) + [e]
    {
      hide TwoRings, Mirrored;
      ghost var x := PutLastOfEither(nexts, prevs, lruHead, lru, inUseHead, inUse, live, list, e);
      Mirror(list);
      Splice(list, e, x);
      if list == lruHead {
        lru := lru + [e];
      } else {
        inUse := inUse + [e];
      }
    }

    // ---------------------------------------------------------------- references

    /** One more reference; an entry on the list of unused ones moves to the other. */
    method Ref(e: LRUHandle)
      requires Valid() && e in live
      modifies this`lru, this`inUse, this`nexts, this`prevs, this`refs, Nodes()`next, Nodes()`prev, e`refs
      ensures Valid() && e.refs == old(e.refs) + 1
      ensures lru == Out(old(lru), e)
      ensures inUse == if e in old(lru) then old(inUse) + [e] else old(inUse)
    {
      hide TwoRings, Counted, Mirrored, HandleTable.Valid, Out;
      Mirror(e);
      OneMore(lru, inUse, live, table.entries, refs, flags, usage, freed, e);
      if e.refs == 1 && e.inCache {
        LRURemove(e);
        LRUAppend(inUseHead, e);
      }
      SetRefs(e, e.refs + 1);
    }

    /** One reference less; the last one takes the entry to its deleter. */
    method Unref(e: LRUHandle)
      requires Valid() && e in live && e.refs >= if e.inCache then 2 else 1
      modifies this`lru, this`inUse, this`live, this`freed, this`nexts, this`prevs, this`refs, this`flags, Nodes()`next, Nodes()`prev, e`refs
      ensures Valid() && e.refs == old(e.refs) - 1
      ensures live == if old(e.refs) == 1 then old(live) - {e} else old(live)
      ensures freed == if old(e.refs) == 1 then old(freed) + [e] else old(freed)
      ensures lru == if e.inCache && old(e.refs) == 2 then old(lru) + [e] else old(lru)
      ensures inUse == if e.inCache && old(e.refs) == 2 then Out(old(inUse), e) else old(inUse)
    {
      hide TwoRings, Counted, Mirrored, HandleTable.Valid, Out;
      Mirror(e);
      if e.refs == 1 {
        Free(e);
      } else {
        OneLess(lru, inUse, live, table.entries, refs, flags, usage, freed, e);
        SetRefs(e, e.refs - 1);
        if e.inCache && e.refs == 1 {
          LRURemove(e);
          LRUAppend(lruHead, e);
        }
      }
    }

    /** The deleter is called. */
    method Free(e: LRUHandle)
      requires Valid() && e in live && e.refs == 1 && !e.inCache
      modifies this`live, this`freed, this`refs, this`flags, e`refs
      ensures Valid() && live == old(live) - {e} && freed == old(freed) + [e] && e.refs == 0
    {
      hide TwoRings, Counted, Mirrored, HandleTable.Valid;
      Mirror(e);
      NotOnLists(lru, inUse, live, table.entries, refs, flags, usage, freed, e);
      LastGone(lru, inUse, live, table.entries, refs, flags, usage, freed, e);
      HeadsApart(nexts, prevs, lruHead, lru, inUseHead, inUse, live);
      OtherLive(nexts, prevs, lruHead, lru, inUseHead, inUse, live, live - {e});
      Forget(e);
      freed := freed + [e];
    }

    method Forget(e: LRUHandle)
      requires Mirrored() && e in live && e !in {lruHead, inUseHead}
      modifies this`live, this`refs, this`flags, e`refs
      ensures Mirrored() && live == old(live) - {e} && refs == old(refs) - {e} && flags == old(flags) - {e} && e.refs == 0
    {
      e.refs := 0;
      live, refs, flags := live - {e}, refs - {e}, flags - {e};
    }

    /** FinishErase, for an entry that is not in the table any more */
    method FinishErase(e: LRUHandle?) returns (erased: bool)
      requires table.Valid() && (e == null ==> Holds(table.entries))
      requires e != null ==> e !in table.entries && Holds(table.entries + {e})
      modifies this`usage, this`lru, this`inUse, this`live, this`freed, this`nexts, this`prevs, this`refs, this`flags
      modifies Nodes()`next, Nodes()`prev, (if e == null then {} else {e})`refs, (if e == null then {} else {e})`inCache
      ensures Valid() && erased == (e != null)
      ensures e == null ==> usage == old(usage) && lru == old(lru) && inUse == old(inUse) && live == old(live) && freed == old(freed)
      ensures e != null ==> !e.inCache && e.refs == old(e.refs) - 1 && usage == old(usage) - e.charge
      ensures e != null ==> lru == Out(old(lru), e) && inUse == Out(old(inUse), e) && (old(e.refs) == 1 <==> e in old(lru))
      ensures e != null ==> live == if old(e.refs) == 1 then old(live) - {e} else old(live)
      ensures e != null ==> freed == if old(e.refs) == 1 then old(freed) + [e] else old(freed)
    {
      hide Holds, HandleTable.Valid, Out;
      if e != null {
        EraseEntry(e);
      }
      return e != null;
    }

    method EraseEntry(e: LRUHandle)
      requires table.Valid() && e !in table.entries && Holds(table.entries + {e})
      modifies this`usage, this`lru, this`inUse, this`live, this`freed, this`nexts, this`prevs, this`refs, this`flags
      modifies Nodes()`next, Nodes()`prev, e`refs, e`inCache
      ensures Valid() && !e.inCache && e.refs == old(e.refs) - 1 && usage == old(usage) - e.charge
      ensures lru == Out(old(lru), e) && inUse == Out(old(inUse), e) && (old(e.refs) == 1 <==> e in old(lru))
      ensures live == if old(e.refs) == 1 then old(live) - {e} else old(live)
      ensures freed == if old(e.refs) == 1 then old(freed) + [e] else old(freed)
    {
      hide Holds, HandleTable.Valid, Out;
      Detach(e, table.entries);
      Unref(e);
    }

    method Detach(e: LRUHandle, ghost cached: set<LRUHandle>)
      requires e !in cached && Holds(cached + {e})
      modifies this`usage, this`lru, this`inUse, this`nexts, this`prevs, this`flags, Nodes()`next, Nodes()`prev, e`inCache
      ensures Holds(cached) && !e.inCache && e in live && e.refs >= 1 && usage == old(usage) - e.charge
      ensures lru == Out(old(lru), e) && inUse == Out(old(inUse), e) && (e.refs == 1 <==> e in old(lru))
    {
      hide TwoRings, Counted, Mirrored, Out;
      Uncached(lru, inUse, live, cached, refs, flags, usage, freed, e);
      Mirror(e);
      LRURemove(e);
      SetInCache(e, false);
      usage := usage - e.charge;
    }

    // ---------------------------------------------------------------- what clients call

    method Lookup(key: Bytes, hash: nat) returns (e: LRUHandle?)
      requires Valid()
      modifies this`lru, this`inUse, this`nexts, this`prevs, this`refs, Nodes()`next, Nodes()`prev, live`refs
      ensures Valid() && Finds(table.entries, e, key, hash)
      ensures e == null ==> lru == old(lru) && inUse == old(inUse)
      ensures e != null ==> e in live && External(e) == old(External(e)) + 1
      ensures e != null ==> lru == Out(old(lru), e) && inUse == if e in old(lru) then old(inUse) + [e] else old(inUse)
      ensures forall h | h in live && h != e :: External(h) == old(External(h))
    {
      hide TwoRings, Counted, HandleTable.Valid, Out;
      e := table.Lookup(key, hash);
      if e != null {
        CachedLive(e, table.entries);
        Ref(e);
      }
    }

    lemma CachedLive(e: LRUHandle, cached: set<LRUHandle>)
      requires Holds(cached) && e in cached
      ensures e in live && e.inCache && e.refs >= 1
    {
    }

    method Release(h: LRUHandle)
      requires Valid() && h in live && External(h) >= 1
      modifies this`lru, this`inUse, this`live, this`freed, this`nexts, this`prevs, this`refs, this`flags, Nodes()`next, Nodes()`prev, h`refs
      ensures Valid() && External(h) == old(External(h)) - 1
      ensures live == if h.inCache || External(h) > 0 then old(live) else old(live) - {h}
      ensures freed == if h.inCache || External(h) > 0 then old(freed) else old(freed) + [h]
      ensures lru == if h.inCache && External(h) == 0 then old(lru) + [h] else old(lru)
      ensures inUse == if h.inCache && External(h) == 0 then Out(old(inUse), h) else old(inUse)
    {
      hide Holds, HandleTable.Valid, Out;
      Unref(h);
    }

    method Erase(key: Bytes, hash: nat) returns (ghost r: LRUHandle?)
      requires Valid()
      modifies this, table, table.list, table.entries`nextHash, Nodes()`next, Nodes()`prev, live`refs, live`inCache
      ensures Valid() && Finds(old(table.entries), r, key, hash)
      ensures table.entries == Without(old(table.entries), r)
      ensures forall h | h in live :: h in old(live) && External(h) == old(External(h))
      ensures live == if r != null && old(External(r)) == 0 then old(live) - {r} else old(live)
      ensures freed == if r != null && old(External(r)) == 0 then old(freed) + [r] else old(freed)
    {
      hide Holds, Mirrored, Rings, TwoRings, Counted, HandleTable.Valid, Out, Finds;
      ghost var cached := table.entries;
      var e := table.Remove(key, hash);
      r := e;
      if e != null {
        RemovedFrom(cached, e, key, hash);
        CachedLive(e, cached);
        assert cached == table.entries + {e};
      }
      var erased := FinishErase(e);
    }

    /** What one turn of the loops of Insert and Prune does: the oldest entry without clients leaves the cache. */
    method EvictOldest()
      requires Valid() && lru != []
      modifies this, table, table.list, table.entries`nextHash, Nodes()`next, Nodes()`prev, live`refs, live`inCache
      ensures Valid() && table.list == old(table.list)
      ensures lru == old(lru)[1..] && inUse == old(inUse) && freed == old(freed) + [old(lru)[0]] && live == old(live) - {old(lru)[0]}
      ensures table.entries == old(table.entries) - {old(lru)[0]} && usage == old(usage) - old(lru)[0].charge
      ensures forall h | h in live :: External(h) == old(External(h))
    {
      hide TwoRings, Counted, HandleTable.Valid, Out, Finds, Mirrored;
      Oldest(nexts, prevs, lruHead, lru, inUseHead, inUse, live);
      Mirror(lruHead);
      var oldest: LRUHandle := lruHead.next;
      Unused(oldest, table.entries);
      ghost var cached := table.entries;
      table.Distinct();
      var r := table.Remove(oldest.key, oldest.hash);
      OnlyOne(cached, oldest, r);
      assert cached == table.entries + {oldest};
      var erased := FinishErase(r);
      assert erased;
    }

    lemma Unused(e: LRUHandle, cached: set<LRUHandle>)
      requires Holds(cached) && e in lru
      ensures e in live && e in cached && e.inCache && e.refs == 1
    {
    }

    /** The loops of Insert and Prune; the charges are never below zero. */
    method EvictOver(limit: int) returns (ghost n: nat)
      requires Valid()
      modifies this, table, table.list, table.entries`nextHash, Nodes()`next, Nodes()`prev, live`refs, live`inCache
      ensures Valid() && table.list == old(table.list) && (usage <= limit || lru == [])
      ensures n <= |old(lru)| && lru == old(lru)[n..] && inUse == old(inUse) && freed == old(freed) + old(lru)[..n]
      ensures n > 0 ==> Charges(old(lru)[n - 1..]) + Charges(inUse) > limit
      ensures live == old(live) - Members(old(lru)[..n]) && table.entries == old(table.entries) - Members(old(lru)[..n])
      ensures forall h | h in live :: External(h) == old(External(h))
    {
      hide Holds, HandleTable.Valid, Charges, Members, External;
      ghost var s := lru;
      n := 0;
      Front();
      NoMembers();
      assert s[..0] == [];
      while usage > limit && lruHead.next != lruHead
        invariant Valid() && table.list == old(table.list)
        invariant n <= |s| && lru == s[n..] && inUse == old(inUse) && freed == old(freed) + s[..n]
        invariant n > 0 ==> Charges(s[n - 1..]) + Charges(inUse) > limit
        invariant live == old(live) - Members(s[..n]) && table.entries == old(table.entries) - Members(s[..n])
        invariant forall h | h in live :: External(h) == old(External(h))
        invariant lruHead.next == if lru == [] then lruHead else lru[0]
        invariant lru != [] ==> lru[0] != lruHead
        decreases |s| - n
      {
        UsageIs();
        OneMoreOut(s, n);
        EvictOldest();
        n := n + 1;
        Front();
      }
    }

    lemma Front()
      requires Holds(table.entries)
      ensures lruHead.next == if lru == [] then lruHead else lru[0]
      ensures lru != [] ==> lru[0] != lruHead
    {
      hide TwoRings, Counted, Mirrored;
      Oldest(nexts, prevs, lruHead, lru, inUseHead, inUse, live);
      Mirror(lruHead);
    }

    lemma UsageIs()
      requires Holds(table.entries)
      ensures usage == Charges(lru) + Charges(inUse)
    {
    }

    /** Everything that only the cache refers to goes, oldest first. */
    method Prune()
      requires Valid()
      modifies this, table, table.list, table.entries`nextHash, Nodes()`next, Nodes()`prev, live`refs, live`inCache
      ensures Valid() && lru == [] && inUse == old(inUse) && freed == old(freed) + old(lru)
      ensures table.entries == old(table.entries) - Members(old(lru)) && live == old(live) - Members(old(lru))
      ensures forall h | h in live :: External(h) == old(External(h))
    {
      hide Holds, HandleTable.Valid;
      ghost var n := EvictOver(-1);
      assert n == |old(lru)|;
      assert old(lru)[..n] == old(lru);
    }

    /** A new entry becomes one of the live ones. */
    ghost method Admit(e: LRUHandle)
      requires Valid() && e !in Nodes() && e !in freed && e.refs == 1 && !e.inCache
      modifies this`live, this`nexts, this`prevs, this`refs, this`flags
      ensures Valid() && live == old(live) + {e}
    {
      hide TwoRings, Counted, Mirrored, HandleTable.Valid;
      NewLive(lru, inUse, live, table.entries, refs, flags, usage, freed, e);
      HeadsApart(nexts, prevs, lruHead, lru, inUseHead, inUse, live);
      MoreLinks(nexts, prevs, lruHead, lru, inUseHead, inUse, live, e);
      Enroll(e);
    }

    ghost method Enroll(e: LRUHandle)
      requires Mirrored() && e !in Nodes() && e.refs == 1 && !e.inCache
      modifies this`live, this`nexts, this`prevs, this`refs, this`flags
      ensures Mirrored() && live == old(live) + {e} && nexts == old(nexts)[e := e.next] && prevs == old(prevs)[e := e.prev]
      ensures refs == old(refs)[e := 1] && flags == old(flags)[e := false]
    {
      live, nexts, prevs := live + {e}, nexts[e := e.next], prevs[e := e.prev];
      refs, flags := refs[e := 1], flags[e := false];
    }

    /** The entry is put on the list of those in use, and into the table. */
    method AddToCache(e: LRUHandle) returns (ghost was: LRUHandle?)
      requires Valid() && e in live && e.refs == 1 && !e.inCache
      modifies this, table, table.list, table.entries`nextHash, e`nextHash, Nodes()`next, Nodes()`prev, live`refs, live`inCache
      ensures Valid() && (table.list == old(table.list) || fresh(table.list))
      ensures Finds(old(table.entries), was, e.key, e.hash) && was != e && e in live && e.inCache && e.refs == 2
      ensures table.entries == Without(old(table.entries), was) + {e}
      ensures lru == if was == null then old(lru) else Out(old(lru), was)
      ensures freed == if was != null && old(External(was)) == 0 then old(freed) + [was] else old(freed)
      ensures live == if was != null && old(External(was)) == 0 then old(live) - {was} else old(live)
      ensures forall h | h in live && h != e :: External(h) == old(External(h))
    {
      hide TwoRings, Counted, Mirrored, HandleTable.Valid, Out, Finds, Without;
      AddToList(e);
      ghost var cached := table.entries;
      var previous := table.Insert(e);
      was := previous;
      if previous != null {
        RemovedFrom(cached, previous, e.key, e.hash);
        CachedLive(previous, cached + {e});
        Replaced(cached, previous, e);
      } else {
        Kept(cached, e);
      }
      var erased := FinishErase(previous);
    }

    method MarkCached(e: LRUHandle)
      requires Mirrored() && e in live && e.refs == 1
      modifies this`refs, this`flags, e`refs, e`inCache
      ensures Mirrored() && refs == old(refs)[e := 2] && flags == old(flags)[e := true] && e.refs == 2 && e.inCache
    {
      hide Mirrored;
      SetRefs(e, e.refs + 1);
      SetInCache(e, true);
    }

    method AddToList(e: LRUHandle)
      requires Holds(table.entries) && e in live && e.refs == 1 && !e.inCache
      modifies this`usage, this`lru, this`inUse, this`nexts, this`prevs, this`refs, this`flags, Nodes()`next, Nodes()`prev, e`refs, e`inCache
      ensures Holds(table.entries + {e}) && e !in table.entries && e.refs == 2 && e.inCache
      ensures lru == old(lru) && inUse == old(inUse) + [e]
    {
      hide TwoRings, Counted, Mirrored;
      Mirror(e);
      NowCached(lru, inUse, live, table.entries, refs, flags, usage, freed, e);
      MarkCached(e);
      LRUAppend(inUseHead, e);
      usage := usage + e.charge;
    }

    lemma CachedIff(e: LRUHandle)
      requires Valid() && e in live
      ensures e.inCache == (e in table.entries)
    {
      Mirror(e);
    }

    method Insert(key: Bytes, hash: nat, value: int, charge: nat) returns (e: LRUHandle, ghost was: LRUHandle?, ghost n: nat)
      requires Valid()
      modifies this, table, table.list, table.entries`nextHash, Nodes()`next, Nodes()`prev, live`refs, live`inCache
      ensures Valid() && (table.list == old(table.list) || fresh(table.list))
      ensures fresh(e) && e.key == key && e.hash == hash && e.value == value && e.charge == charge
      ensures e in live && External(e) == 1 && e.inCache == (capacity > 0)
      // an entry with the same key is replaced, unless nothing is cached
      ensures if capacity > 0 then Finds(old(table.entries), was, key, hash) else was == null
      // then just as many unused entries go, oldest first, as it takes to be within the capacity
      ensures usage <= capacity || lru == []
      ensures var s := if was == null then old(lru) else Out(old(lru), was);
              && n <= |s| && lru == s[n..]
              && (n > 0 ==> Charges(s[n - 1..]) + Charges(inUse) > capacity)
              && freed == old(freed) + (if was != null && old(External(was)) == 0 then [was] else []) + s[..n]
              && table.entries == Without(old(table.entries), was) + (if capacity > 0 then {e} else {}) - Members(s[..n])
      ensures forall h | h in live && h != e :: h in old(live) && External(h) == old(External(h))
    {
      hide Holds, HandleTable.Valid, Out, Finds, Members, Charges;
      e := new LRUHandle(key, hash, value, charge);
      Admit(e);
      was := null;
      if capacity > 0 {
        was := AddToCache(e);
        if was != null {
          RemovedFrom(old(table.entries), was, key, hash);
        }
      }
      assert freed == old(freed) + (if was != null && old(External(was)) == 0 then [was] else []);
      InUseNot(e);
      ghost var s := lru;
      n := EvictOver(capacity);
      NotAmong(s, n, e);
      CachedIff(e);
    }

    lemma InUseNot(e: LRUHandle)
      requires Valid() && e in live && External(e) >= 1
      ensures e !in lru
    {
      Mirror(e);
    }
  }

  ghost function Members(s: seq<LRUHandle>): set<LRUHandle> {
    set h | h in s
  }

  lemma NotAmong(s: seq<LRUHandle>, n: nat, e: LRUHandle)
    requires n <= |s| && e !in s
    ensures e !in Members(s[..n])
  {
  }

  lemma NoMembers()
    ensures Members([]) == {}
  {
  }

  lemma OneMoreOut(s: seq<LRUHandle>, n: nat)
    requires n < |s|
    ensures s[n..][1..] == s[n + 1..] && s[n..][0] == s[n] && s[..n] + [s[n]] == s[..n + 1]
    ensures Members(s[..n + 1]) == Members(s[..n]) + {s[n]}
  {
    assert s[..n + 1] == s[..n] + [s[n]];
  }
}
