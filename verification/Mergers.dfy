/**
  The merge of several sorted iterators (table/merger.cc): children stand each at its own place, and together
  they make one cursor over the sorted union that turns round at any point.
*/
module Mergers {
  import opened InternalKeys
  import opened Cursors
  import opened IteratorWrappers

  type Children = seq<seq<Entry>>

  ghost predicate ChildrenOk(children: Children) {
    && (forall i | 0 <= i < |children| :: Sorted(children[i]))
    && (forall i, j | 0 <= i < j < |children| :: KeysApart(children[i], children[j]))
  }

  ghost predicate KeysApart(a: seq<Entry>, b: seq<Entry>) {
    forall x, y | x in a && y in b :: x.key != y.key
  }

  // ---------------------------------------------------------------- the sorted union

  function Union(children: Children): seq<Entry> {
    if children == [] then [] else Merge(children[0], Union(children[1..]))
  }

  lemma {:induction false} UnionElements(children: Children, e: Entry)
    ensures e in Union(children) <==> exists i :: 0 <= i < |children| && e in children[i]
  {
    if children != [] {
      UnionElements(children[1..], e);
      MergeElements(children[0], Union(children[1..]));
      if i :| 0 <= i < |children| && e in children[i] {
        assert i > 0 ==> children[i] == children[1..][i - 1];
      }
    }
  }

  lemma {:induction false} UnionSorted(children: Children)
    requires ChildrenOk(children)
    ensures Sorted(Union(children))
  {
    if children != [] {
      var rest := children[1..];
      assert forall i | 0 <= i < |rest| :: rest[i] == children[i + 1];
      UnionSorted(rest);
      forall x, y | x in children[0] && y in Union(rest) ensures x.key != y.key {
        UnionElements(rest, y);
        var i :| 0 <= i < |rest| && y in rest[i];
        assert KeysApart(children[0], children[i + 1]);
      }
      MergeSorted(children[0], Union(rest));
    }
  }

  /** What the places of the children need to know of the union. */
  ghost predicate IsUnion(children: Children, all: seq<Entry>) {
    && ChildrenOk(children)
    && Sorted(all)
    && (forall i, e | 0 <= i < |children| && e in children[i] :: e in all)
    && (forall e | e in all :: InSome(children, e))
  }

  ghost predicate InSome(children: Children, e: Entry) {
    exists i :: 0 <= i < |children| && e in children[i]
  }

  lemma UnionIsUnion(children: Children)
    requires ChildrenOk(children)
    ensures IsUnion(children, Union(children))
  {
    UnionSorted(children);
    forall i, e | 0 <= i < |children| && e in children[i] ensures e in Union(children) {
      UnionElements(children, e);
    }
    forall e | e in Union(children) ensures InSome(children, e) {
      UnionElements(children, e);
    }
  }

  // ---------------------------------------------------------------- a cut through the union cuts every child

  /** How many entries of `es` lie among the first `b` of the union. */
  ghost function Cut(es: seq<Entry>, all: seq<Entry>, b: nat): (r: nat)
    ensures r <= |es|
  {
    if b < |all| then LowerBound(es, all[b].key) else |es|
  }

  lemma PlaceIn(es: seq<Entry>, all: seq<Entry>, i: nat) returns (k: nat)
    requires i < |es| && forall e | e in es :: e in all
    ensures k < |all| && all[k] == es[i]
  {
    assert es[i] in all;
    k :| 0 <= k < |all| && all[k] == es[i];
  }

  /** The entry at the cut belongs to the far side, and the one before it to the near side. */
  lemma CutSides(es: seq<Entry>, all: seq<Entry>, b: nat, i: nat, k: nat)
    requires Sorted(es) && Sorted(all) && b <= |all| && i < |es| && k < |all| && all[k] == es[i]
    ensures i < Cut(es, all, b) <==> k < b
  {
    if b < |all| {
      var r := LowerBound(es, all[b].key);
      assert k < b ==> Before(all[k].key, all[b].key);
      assert b < k ==> Before(all[b].key, all[k].key);
      assert r < i ==> Before(es[r].key, es[i].key);
    }
  }

  lemma CutStart(es: seq<Entry>, all: seq<Entry>)
    requires Sorted(es) && Sorted(all) && forall e | e in es :: e in all
    ensures Cut(es, all, 0) == 0
  {
    if es != [] {
      var k := PlaceIn(es, all, 0);
      CutSides(es, all, 0, 0, k);
    }
  }

  /** Moving the cut over one entry moves it in the child that has the entry, and in no other. */
  lemma CutStep(es: seq<Entry>, all: seq<Entry>, b: nat)
    requires Sorted(es) && Sorted(all) && b < |all| && forall e | e in es :: e in all
    ensures Cut(es, all, b + 1) == Cut(es, all, b) + if all[b] in es then 1 else 0
    ensures all[b] in es ==> Cut(es, all, b) < |es| && es[Cut(es, all, b)] == all[b]
  {
    var p, q := Cut(es, all, b), Cut(es, all, b + 1);
    hide Cut, Sorted;
    if all[b] in es {
      var i :| 0 <= i < |es| && es[i] == all[b];
      CutSides(es, all, b, i, b);
      CutSides(es, all, b + 1, i, b);
      OnlyOne(es, all, b, p, q, i);
    } else {
      NoneBetween(es, all, b, p, q);
    }
  }

  /** Entries between the two cuts are the one moved over. */
  lemma BetweenCuts(es: seq<Entry>, all: seq<Entry>, b: nat, i: nat)
    requires Sorted(es) && Sorted(all) && b < |all| && forall e | e in es :: e in all
    requires i < |es|
    ensures Cut(es, all, b) <= i < Cut(es, all, b + 1) ==> es[i] == all[b]
    ensures Cut(es, all, b + 1) <= i < Cut(es, all, b) ==> false
  {
    var k := PlaceIn(es, all, i);
    CutSides(es, all, b, i, k);
    CutSides(es, all, b + 1, i, k);
  }

  lemma NoneBetween(es: seq<Entry>, all: seq<Entry>, b: nat, p: nat, q: nat)
    requires Sorted(es) && Sorted(all) && b < |all| && forall e | e in es :: e in all
    requires p == Cut(es, all, b) && q == Cut(es, all, b + 1) && all[b] !in es
    ensures p == q
  {
    if p < q {
      BetweenCuts(es, all, b, p);
    } else if q < p {
      BetweenCuts(es, all, b, q);
    }
  }

  lemma OncePlaced(es: seq<Entry>, i: nat, j: nat)
    requires Sorted(es) && i < |es| && j < |es|
    ensures es[i] == es[j] ==> i == j
  {
    assert i < j ==> Before(es[i].key, es[j].key);
    assert j < i ==> Before(es[j].key, es[i].key);
  }

  lemma OnlyOne(es: seq<Entry>, all: seq<Entry>, b: nat, p: nat, q: nat, i: nat)
    requires Sorted(es) && Sorted(all) && b < |all| && forall e | e in es :: e in all
    requires p == Cut(es, all, b) && q == Cut(es, all, b + 1) && p <= i < q && es[i] == all[b]
    ensures p == i && q == i + 1
  {
    BetweenCuts(es, all, b, p);
    BetweenCuts(es, all, b, q - 1);
    OncePlaced(es, p, i);
    OncePlaced(es, q - 1, i);
  }

  // ---------------------------------------------------------------- smallest and largest child

  /** Every child past its end. */
  ghost function Ends(lists: Children): (r: seq<nat>)
    ensures |r| == |lists| && forall i | 0 <= i < |lists| :: r[i] == |lists[i]|
  {
    seq(|lists|, i requires 0 <= i < |lists| => |lists[i]|)
  }

  predicate Fits(children: Children, pos: seq<nat>) {
    |pos| == |children| && forall i | 0 <= i < |children| :: pos[i] <= |children[i]|
  }

  predicate Stands(children: Children, pos: seq<nat>, i: int) {
    0 <= i < |children| == |pos| && pos[i] < |children[i]|
  }

  function Head(children: Children, pos: seq<nat>, i: nat): Entry
    requires Stands(children, pos, i)
  {
    children[i][pos[i]]
  }

  /** All children stand on their first entry at or after place `b` of the union. */
  ghost predicate AtCut(children: Children, all: seq<Entry>, pos: seq<nat>, b: nat) {
    && |pos| == |children| && b <= |all|
    && forall i | 0 <= i < |children| :: pos[i] == Cut(children[i], all, b)
  }

  /** All children stand on their last entry before place `b` of the union. */
  ghost predicate BeforeCut(children: Children, all: seq<Entry>, pos: seq<nat>, b: nat) {
    && |pos| == |children| && b <= |all|
    && forall i | 0 <= i < |children| :: pos[i] == Backward(|children[i]|, Cut(children[i], all, b))
  }

  ghost predicate IsSmallest(children: Children, pos: seq<nat>, current: int) {
    && (current == -1 ==> forall i | 0 <= i < |children| :: !Stands(children, pos, i))
    && (current != -1 ==> Stands(children, pos, current) && forall i | 0 <= i < |children| && Stands(children, pos, i) ::
          !Before(Head(children, pos, i).key, Head(children, pos, current).key))
  }

  ghost predicate IsLargest(children: Children, pos: seq<nat>, current: int) {
    && (current == -1 ==> forall i | 0 <= i < |children| :: !Stands(children, pos, i))
    && (current != -1 ==> Stands(children, pos, current) && forall i | 0 <= i < |children| && Stands(children, pos, i) ::
          !Before(Head(children, pos, current).key, Head(children, pos, i).key))
  }

  lemma ChildIn(children: Children, all: seq<Entry>, i: nat)
    requires IsUnion(children, all) && i < |children|
    ensures Sorted(children[i]) && Sorted(all) && forall e | e in children[i] :: e in all
  {
  }

  /** With every child at the cut, the smallest head is the union's entry there. */
  lemma SmallestIsNext(children: Children, all: seq<Entry>, pos: seq<nat>, b: nat, current: int)
    requires IsUnion(children, all) && AtCut(children, all, pos, b) && IsSmallest(children, pos, current)
    ensures current == -1 <==> b == |all|
    ensures b < |all| ==> Stands(children, pos, current) && Head(children, pos, current) == all[b]
  {
    hide Sorted, Before;
    if b < |all| {
      assert InSome(children, all[b]);
      var i :| 0 <= i < |children| && all[b] in children[i];
      ChildIn(children, all, i);
      CutStep(children[i], all, b);
      assert Stands(children, pos, i);
      var c: nat := current;
      ChildIn(children, all, c);
      var k := PlaceIn(children[c], all, pos[c]);
      CutSides(children[c], all, b, pos[c], k);
      NotBelow(all, b, k);
    }
  }

  lemma NotBelow(all: seq<Entry>, b: nat, k: nat)
    requires Sorted(all) && b <= k < |all| && !Before(all[b].key, all[k].key)
    ensures k == b
  {
  }

  /** With every child before the cut, the largest head is the union's entry before it. */
  lemma LargestIsPrevious(children: Children, all: seq<Entry>, pos: seq<nat>, b: nat, current: int)
    requires IsUnion(children, all) && BeforeCut(children, all, pos, b) && IsLargest(children, pos, current)
    ensures current == -1 <==> b == 0
    ensures b > 0 ==> Stands(children, pos, current) && Head(children, pos, current) == all[b - 1]
  {
    hide Sorted, Before;
    if b > 0 {
      assert InSome(children, all[b - 1]);
      var i :| 0 <= i < |children| && all[b - 1] in children[i];
      ChildIn(children, all, i);
      CutStep(children[i], all, b - 1);
      assert Stands(children, pos, i);
      LargestIs(children, all, pos, b, current, i);
    } else if current != -1 {
      ChildIn(children, all, current);
      CutStart(children[current], all);
    }
  }

  lemma LargestIs(children: Children, all: seq<Entry>, pos: seq<nat>, b: nat, current: int, i: nat)
    requires IsUnion(children, all) && BeforeCut(children, all, pos, b) && IsLargest(children, pos, current)
    requires 0 < b && Stands(children, pos, i) && Head(children, pos, i) == all[b - 1]
    ensures Stands(children, pos, current) && Head(children, pos, current) == all[b - 1]
  {
    hide Sorted, Before, Cut;
    var c: nat := current;
    ChildIn(children, all, c);
    var k := PlaceIn(children[c], all, pos[c]);
    CutSides(children[c], all, b, pos[c], k);
    NotBelow(all, k, b - 1);
  }

  // ---------------------------------------------------------------- turning round

  /** The place of a child other than the current one, moving forward or in reverse. */
  ghost function PlaceFor(es: seq<Entry>, all: seq<Entry>, at: nat, direction: Direction): nat {
    if direction == Ahead then Cut(es, all, at) else Backward(|es|, Cut(es, all, at))
  }

  /** The whole state: the current child is on the union's entry `at`, the others just after or before it. */
  ghost predicate Placed(children: Children, all: seq<Entry>, pos: seq<nat>, direction: Direction, current: int, at: nat) {
    && at <= |all|
    && Fits(children, pos)
    && (current == -1 <==> at == |all|)
    && (at < |all| ==>
          && Stands(children, pos, current) && Head(children, pos, current) == all[at]
          && forall i | 0 <= i < |children| && i != current :: pos[i] == PlaceFor(children[i], all, at, direction))
  }

  /** The current child stands at the cut whichever way the iterator moves. */
  lemma CurrentAtCut(children: Children, all: seq<Entry>, pos: seq<nat>, direction: Direction, current: int, at: nat)
    requires IsUnion(children, all) && Placed(children, all, pos, direction, current, at) && at < |all|
    ensures pos[current] == Cut(children[current], all, at)
    ensures Cut(children[current], all, at + 1) == pos[current] + 1
    ensures forall i | 0 <= i < |children| && i != current :: all[at] !in children[i]
  {
    var es := children[current];
    ChildIn(children, all, current);
    assert Head(children, pos, current) in es;
    CutStep(es, all, at);
    OncePlaced(es, pos[current], Cut(es, all, at));
    forall i | 0 <= i < |children| && i != current ensures all[at] !in children[i] {
      assert KeysApart(children[if i < current then i else current], children[if i < current then current else i]);
    }
  }

  /** All children at the cut, and then the current one a step on: that is the next cut. */
  lemma StepForward(children: Children, all: seq<Entry>, pos: seq<nat>, current: int, at: nat)
    requires IsUnion(children, all) && Placed(children, all, pos, Ahead, current, at) && at < |all|
    ensures Stands(children, pos, current) && Fits(children, pos[current := Forward(pos[current])])
    ensures AtCut(children, all, pos[current := Forward(pos[current])], at + 1)
  {
    CurrentAtCut(children, all, pos, Ahead, current, at);
    hide Cut, IsUnion;
    forall i | 0 <= i < |children| && i != current ensures pos[i] == Cut(children[i], all, at + 1) {
      ChildIn(children, all, i);
      CutStep(children[i], all, at);
    }
  }

  lemma StepBackward(children: Children, all: seq<Entry>, pos: seq<nat>, current: int, at: nat)
    requires IsUnion(children, all) && Placed(children, all, pos, Reverse, current, at) && at < |all|
    ensures Stands(children, pos, current) && Fits(children, pos[current := Backward(|children[current]|, pos[current])])
    ensures BeforeCut(children, all, pos[current := Backward(|children[current]|, pos[current])], at)
  {
    CurrentAtCut(children, all, pos, Reverse, current, at);
  }

  lemma ArrivedForward(children: Children, all: seq<Entry>, pos: seq<nat>, b: nat, current: int)
    requires IsUnion(children, all) && AtCut(children, all, pos, b) && IsSmallest(children, pos, current)
    ensures Placed(children, all, pos, Ahead, current, b)
  {
    SmallestIsNext(children, all, pos, b, current);
  }

  lemma ArrivedBackward(children: Children, all: seq<Entry>, pos: seq<nat>, b: nat, current: int)
    requires IsUnion(children, all) && BeforeCut(children, all, pos, b) && IsLargest(children, pos, current)
    ensures Placed(children, all, pos, Reverse, current, Backward(|all|, b))
  {
    hide Cut, IsLargest;
    LargestIsPrevious(children, all, pos, b, current);
    if b > 0 {
      forall i | 0 <= i < |children| && i != current ensures pos[i] == PlaceFor(children[i], all, b - 1, Reverse) {
        ChildIn(children, all, i);
        CutStep(children[i], all, b - 1);
        NotInOther(children, all, pos, current, b - 1, i);
      }
    }
  }

  lemma NotInOther(children: Children, all: seq<Entry>, pos: seq<nat>, current: int, b: nat, i: nat)
    requires ChildrenOk(children) && Stands(children, pos, current) && b < |all| && Head(children, pos, current) == all[b]
    requires i < |children| && i != current
    ensures all[b] !in children[i]
  {
    assert all[b] in children[current];
    assert KeysApart(children[if i < current then i else current], children[if i < current then current else i]);
  }

  /** A seek in a child cuts it where the seek cuts the union. */
  lemma SeekCuts(es: seq<Entry>, all: seq<Entry>, target: InternalKey)
    requires Sorted(es) && Sorted(all) && forall e | e in es :: e in all
    ensures LowerBound(es, target) == Cut(es, all, LowerBound(all, target))
  {
    var b, r := LowerBound(all, target), LowerBound(es, target);
    var c := Cut(es, all, b);
    if c < |es| {
      var k := PlaceIn(es, all, c);
      CutSides(es, all, b, c, k);
      assert !Before(es[c].key, target) by {
        assert b < k ==> Before(all[b].key, all[k].key);
      }
    }
    if c > 0 {
      var k := PlaceIn(es, all, c - 1);
      CutSides(es, all, b, c - 1, k);
    }
    LowerBoundIs(es, target, c);
  }

  // ---------------------------------------------------------------- the iterator

  /** The children, each in order at its place, and with nothing in common; R is all they are made of. */
  ghost predicate Kept(children: seq<IteratorWrapper>, lists: Children, pos: seq<nat>, R: set<object>)
    reads R
  {
    && |lists| == |children| == |pos|
    && (forall i | 0 <= i < |children| :: KeptAt(children[i], lists[i], pos[i], R))
    && (forall i, j | 0 <= i < j < |children| :: children[i] in R && children[j] in R && children[i].Repr !! children[j].Repr)
  }

  ghost predicate KeptAt(child: IteratorWrapper, es: seq<Entry>, p: nat, R: set<object>)
    reads R
  {
    child in R && child in child.Repr && child.Repr <= R && child.Inv() && child.entries == es && child.pos == p
  }

  class MergingIterator {
    const children: seq<IteratorWrapper>
    var current: int
    var direction: Direction

    ghost const lists: Children   // what the children walk
    ghost const all: seq<Entry>
    ghost var pos: seq<nat>       // where they stand
    ghost var at: nat
    ghost var Repr: set<object>   // what the children are made of

    ghost predicate Inv()
      reads this, Repr
    {
      && this !in Repr && Kept(children, lists, pos, Repr)
      && IsUnion(lists, all) && Placed(lists, all, pos, direction, current, at)
    }

    constructor (cs: seq<IteratorWrapper>, ghost R: set<object>, ghost ls: Children)
      requires Kept(cs, ls, Ends(ls), R) && ChildrenOk(ls)
      ensures Inv() && children == cs && lists == ls && all == Union(ls) && at == |all| && Repr == R
    {
      children := cs;
      current, direction := -1, Ahead;
      lists, all, pos := ls, Union(ls), Ends(ls);
      at := |Union(ls)|;
      Repr := R;
      UnionIsUnion(ls);
    }

    predicate Valid()
      requires Inv()
      reads this, Repr
      ensures Valid() <==> at < |all|
    {
      current != -1
    }

    function Current(): (e: Entry)
      requires Inv() && at < |all|
      reads this, Repr
      ensures e == all[at]
    {
      assert KeptAt(children[current], lists[current], pos[current], Repr);
      children[current].Current()
    }

    // ---- one child moves, the others stay

    method SeekChild(i: nat, target: InternalKey)
      requires this !in Repr && Kept(children, lists, pos, Repr) && i < |children|
      modifies this`pos, this`Repr, Repr
      ensures this !in Repr && Kept(children, lists, pos, Repr) && fresh(Repr - old(Repr))
      ensures pos == old(pos)[i := LowerBound(lists[i], target)]
    {
      hide IteratorWrapper.Inv, LowerBound;
      assert KeptAt(children[i], lists[i], pos[i], Repr);
      children[i].Seek(target);
      pos, Repr := pos[i := LowerBound(lists[i], target)], Repr + children[i].Repr;
    }

    method SeekChildToFirst(i: nat)
      requires this !in Repr && Kept(children, lists, pos, Repr) && i < |children|
      modifies this`pos, this`Repr, Repr
      ensures this !in Repr && Kept(children, lists, pos, Repr) && fresh(Repr - old(Repr))
      ensures pos == old(pos)[i := 0]
    {
      hide IteratorWrapper.Inv, LowerBound;
      assert KeptAt(children[i], lists[i], pos[i], Repr);
      children[i].SeekToFirst();
      pos, Repr := pos[i := 0], Repr + children[i].Repr;
    }

    method SeekChildToLast(i: nat)
      requires this !in Repr && Kept(children, lists, pos, Repr) && i < |children|
      modifies this`pos, this`Repr, Repr
      ensures this !in Repr && Kept(children, lists, pos, Repr) && fresh(Repr - old(Repr))
      ensures pos == old(pos)[i := Last(|lists[i]|)]
    {
      hide IteratorWrapper.Inv, LowerBound;
      assert KeptAt(children[i], lists[i], pos[i], Repr);
      children[i].SeekToLast();
      pos, Repr := pos[i := Last(|lists[i]|)], Repr + children[i].Repr;
    }

    method NextChild(i: nat)
      requires this !in Repr && Kept(children, lists, pos, Repr) && Stands(lists, pos, i)
      modifies this`pos, this`Repr, Repr
      ensures this !in Repr && Kept(children, lists, pos, Repr) && fresh(Repr - old(Repr))
      ensures pos == old(pos)[i := Forward(old(pos)[i])]
    {
      hide IteratorWrapper.Inv, LowerBound;
      assert KeptAt(children[i], lists[i], pos[i], Repr);
      KeptValid(children[i], lists[i], pos[i], Repr);
      children[i].Next();
      pos, Repr := pos[i := Forward(pos[i])], Repr + children[i].Repr;
    }

    method PrevChild(i: nat)
      requires this !in Repr && Kept(children, lists, pos, Repr) && Stands(lists, pos, i)
      modifies this`pos, this`Repr, Repr
      ensures this !in Repr && Kept(children, lists, pos, Repr) && fresh(Repr - old(Repr))
      ensures pos == old(pos)[i := Backward(|lists[i]|, old(pos)[i])]
    {
      hide IteratorWrapper.Inv, LowerBound;
      assert KeptAt(children[i], lists[i], pos[i], Repr);
      KeptValid(children[i], lists[i], pos[i], Repr);
      children[i].Prev();
      pos, Repr := pos[i := Backward(|lists[i]|, pos[i])], Repr + children[i].Repr;
    }

    // ---- the smallest and the largest

    method FindSmallest()
      requires this !in Repr && Kept(children, lists, pos, Repr)
      modifies this`current
      ensures IsSmallest(lists, pos, current)
    {
      var smallest := -1;
      var i := 0;
      while i < |children|
        invariant 0 <= i <= |children|
        invariant SmallestTo(lists, pos, smallest, i)
      {
        var child := children[i];
        assert KeptAt(child, lists[i], pos[i], Repr);
        if child.valid {
          if smallest == -1 {
            smallest := i;
          } else {
            assert KeptAt(children[smallest], lists[smallest], pos[smallest], Repr);
            if Before(child.key.value, children[smallest].key.value) {
              smallest := i;
            }
          }
        }
        i := i + 1;
      }
      current := smallest;
    }

    method FindLargest()
      requires this !in Repr && Kept(children, lists, pos, Repr)
      modifies this`current
      ensures IsLargest(lists, pos, current)
    {
      var largest := -1;
      var i := |children| - 1;
      while i >= 0
        invariant -1 <= i < |children|
        invariant LargestFrom(lists, pos, largest, i + 1)
      {
        var child := children[i];
        assert KeptAt(child, lists[i], pos[i], Repr);
        if child.valid {
          if largest == -1 {
            largest := i;
          } else {
            assert KeptAt(children[largest], lists[largest], pos[largest], Repr);
            if Before(children[largest].key.value, child.key.value) {
              largest := i;
            }
          }
        }
        i := i - 1;
      }
      current := largest;
    }

    // ---- the iterator's own steps

    method SeekToFirst()
      requires Inv()
      modifies this, Repr
      ensures Inv() && fresh(Repr - old(Repr)) && at == 0
    {
      hide Kept, IsUnion, Placed;
      KeptLengths(children, lists, pos, Repr);
      var i := 0;
      while i < |children|
        invariant 0 <= i <= |children| == |lists| == |pos|
        invariant this !in Repr && Kept(children, lists, pos, Repr) && fresh(Repr - old(Repr))
        invariant forall j | 0 <= j < i :: pos[j] == 0
      {
        SeekChildToFirst(i);
        i := i + 1;
      }
      forall j | 0 <= j < |lists| ensures pos[j] == Cut(lists[j], all, 0) {
        ChildIn(lists, all, j);
        CutStart(lists[j], all);
      }
      FindSmallest();
      direction, at := Ahead, 0;
      ArrivedForward(lists, all, pos, 0, current);
    }

    method SeekToLast()
      requires Inv()
      modifies this, Repr
      ensures Inv() && fresh(Repr - old(Repr)) && at == Last(|all|)
    {
      hide Kept, IsUnion, Placed;
      KeptLengths(children, lists, pos, Repr);
      var i := 0;
      while i < |children|
        invariant 0 <= i <= |children| == |lists| == |pos|
        invariant this !in Repr && Kept(children, lists, pos, Repr) && fresh(Repr - old(Repr))
        invariant forall j | 0 <= j < i :: pos[j] == Last(|lists[j]|)
      {
        SeekChildToLast(i);
        i := i + 1;
      }
      FindLargest();
      direction, at := Reverse, Last(|all|);
      ArrivedBackward(lists, all, pos, |all|, current);
    }

    method Seek(target: InternalKey)
      requires Inv()
      modifies this, Repr
      ensures Inv() && fresh(Repr - old(Repr)) && at == LowerBound(all, target)
    {
      hide Kept, IsUnion, Placed, LowerBound;
      KeptLengths(children, lists, pos, Repr);
      var i := 0;
      while i < |children|
        invariant 0 <= i <= |children| == |lists| == |pos|
        invariant this !in Repr && Kept(children, lists, pos, Repr) && fresh(Repr - old(Repr))
        invariant forall j | 0 <= j < i :: pos[j] == LowerBound(lists[j], target)
      {
        SeekChild(i, target);
        i := i + 1;
      }
      forall j | 0 <= j < |lists| ensures pos[j] == Cut(lists[j], all, LowerBound(all, target)) {
        ChildIn(lists, all, j);
        SeekCuts(lists[j], all, target);
      }
      FindSmallest();
      direction, at := Ahead, LowerBound(all, target);
      ArrivedForward(lists, all, pos, at, current);
    }

    /** One entry on in the union, whichever way the iterator came. */
    method Next()
      requires Inv() && Valid()
      modifies this, Repr
      ensures Inv() && fresh(Repr - old(Repr)) && at == old(at) + 1
    {
      hide Placed, IsUnion, AtCut, IsSmallest, Cut, Fits, Kept;
      AtEntry(lists, all, pos, direction, current, at);
      if direction != Ahead {
        PlaceAfter();
        direction := Ahead;
      }
      StepForward(lists, all, pos, current, at);
      NextChild(current);
      FindSmallest();
      at := at + 1;
      ArrivedForward(lists, all, pos, at, current);
    }

    /** Every child but the current one to its first entry after the current key. */
    method PlaceAfter()
      requires Inv() && at < |all|
      modifies this`pos, this`Repr, Repr
      ensures this !in Repr && Kept(children, lists, pos, Repr) && fresh(Repr - old(Repr))
      ensures IsUnion(lists, all) && Placed(lists, all, pos, Ahead, current, at)
    {
      var key := CurrentKey();
      hide Kept, IsUnion, Placed, Cut, LowerBound;
      KeptLengths(children, lists, pos, Repr);
      CurrentAtCut(lists, all, pos, direction, current, at);
      AtEntry(lists, all, pos, direction, current, at);
      var i := 0;
      while i < |children|
        invariant 0 <= i <= |children| == |lists| == |pos|
        invariant this !in Repr && Kept(children, lists, pos, Repr) && fresh(Repr - old(Repr))
        invariant pos[current] == old(pos)[current]
        invariant forall j | 0 <= j < i && j != current :: pos[j] == LowerBound(lists[j], key)
      {
        if i != current {
          SeekChild(i, key);
          // The code steps over an equal key here; two children never hold one.
          ChildIn(lists, all, i);
          SameKeyApart(lists, all, i, current, pos[i], old(pos)[current]);
          assert !(pos[i] < |lists[i]| && lists[i][pos[i]].key == key);
        }
        i := i + 1;
      }
      TurnedAhead(lists, all, old(pos), pos, direction, current, at);
    }

    /** One entry back in the union, whichever way the iterator came. */
    method Prev()
      requires Inv() && Valid()
      modifies this, Repr
      ensures Inv() && fresh(Repr - old(Repr)) && at == Backward(|all|, old(at))
    {
      hide Placed, IsUnion, BeforeCut, IsLargest, Cut, Fits, Kept;
      AtEntry(lists, all, pos, direction, current, at);
      if direction != Reverse {
        PlaceBefore();
        direction := Reverse;
      }
      StepBackward(lists, all, pos, current, at);
      PrevChild(current);
      FindLargest();
      ArrivedBackward(lists, all, pos, at, current);
      at := Backward(|all|, at);
    }

    /** Every child but the current one to its last entry before the current key. */
    method PlaceBefore()
      requires Inv() && at < |all|
      modifies this`pos, this`Repr, Repr
      ensures this !in Repr && Kept(children, lists, pos, Repr) && fresh(Repr - old(Repr))
      ensures IsUnion(lists, all) && Placed(lists, all, pos, Reverse, current, at)
    {
      var key := CurrentKey();
      hide Kept, IsUnion, Placed, Cut, LowerBound;
      KeptLengths(children, lists, pos, Repr);
      AtEntry(lists, all, pos, direction, current, at);
      var i := 0;
      while i < |children|
        invariant 0 <= i <= |children| == |lists| == |pos|
        invariant this !in Repr && Kept(children, lists, pos, Repr) && fresh(Repr - old(Repr))
        invariant pos[current] == old(pos)[current]
        invariant forall j | 0 <= j < i && j != current :: pos[j] == Backward(|lists[j]|, LowerBound(lists[j], key))
      {
        if i != current {
          PlaceChildBefore(i, key);
        }
        i := i + 1;
      }
      TurnedReverse(lists, all, old(pos), pos, direction, current, at);
    }

    /** To the child's last entry before the key. */
    method PlaceChildBefore(i: nat, key: InternalKey)
      requires this !in Repr && Kept(children, lists, pos, Repr) && i < |children|
      modifies this`pos, this`Repr, Repr
      ensures this !in Repr && Kept(children, lists, pos, Repr) && fresh(Repr - old(Repr))
      ensures |pos| == |old(pos)| == |lists| == |children|
      ensures pos == old(pos)[i := Backward(|lists[i]|, LowerBound(lists[i], key))]
    {
      hide Kept;
      KeptLengths(children, lists, pos, Repr);
      SeekChild(i, key);
      KeptLengths(children, lists, pos, Repr);
      var valid := ChildValid(i);
      if valid {
        // The child is at its first entry at or after the key: one step back.
        PrevChild(i);
      } else {
        // It has no entries at or after the key: to its last.
        SeekChildToLast(i);
      }
    }

    method ChildValid(i: nat) returns (valid: bool)
      requires this !in Repr && Kept(children, lists, pos, Repr) && i < |children|
      ensures valid <==> Stands(lists, pos, i)
    {
      assert KeptAt(children[i], lists[i], pos[i], Repr);
      valid := children[i].valid;
    }

    method CurrentKey() returns (key: InternalKey)
      requires Inv() && at < |all|
      ensures key == all[at].key
    {
      assert KeptAt(children[current], lists[current], pos[current], Repr);
      key := children[current].key.value;
    }
  }

  /** The entries are in order, and the place is among them or at their end. */
  lemma WalksUnion(it: MergingIterator)
    requires it.Inv()
    ensures Sorted(it.all) && it.at <= |it.all|
  {
    hide Kept;
  }

  lemma KeptValid(child: IteratorWrapper, es: seq<Entry>, p: nat, R: set<object>)
    requires KeptAt(child, es, p, R)
    ensures child.valid <==> p < |es|
  {
  }

  /** The other children at their cuts after the entry: the iterator is ready to go on. */
  lemma TurnedAhead(lists: Children, all: seq<Entry>, was: seq<nat>, pos: seq<nat>, direction: Direction, current: int, at: nat)
    requires IsUnion(lists, all) && Placed(lists, all, was, direction, current, at) && at < |all|
    requires |pos| == |lists| == |was| && 0 <= current < |lists| && pos[current] == was[current]
    requires forall j | 0 <= j < |lists| && j != current :: pos[j] == LowerBound(lists[j], all[at].key)
    ensures Placed(lists, all, pos, Ahead, current, at)
  {
    hide IsUnion, LowerBound;
  }

  lemma TurnedReverse(lists: Children, all: seq<Entry>, was: seq<nat>, pos: seq<nat>, direction: Direction, current: int, at: nat)
    requires IsUnion(lists, all) && Placed(lists, all, was, direction, current, at) && at < |all|
    requires |pos| == |lists| == |was| && 0 <= current < |lists| && pos[current] == was[current]
    requires forall j | 0 <= j < |lists| && j != current :: pos[j] == Backward(|lists[j]|, LowerBound(lists[j], all[at].key))
    ensures Placed(lists, all, pos, Reverse, current, at)
  {
    hide IsUnion, LowerBound;
  }

  lemma KeptLengths(children: seq<IteratorWrapper>, lists: Children, pos: seq<nat>, R: set<object>)
    requires Kept(children, lists, pos, R)
    ensures |lists| == |children| == |pos| && Fits(lists, pos)
  {
    forall i | 0 <= i < |lists| ensures pos[i] <= |lists[i]| {
      assert KeptAt(children[i], lists[i], pos[i], R);
    }
  }

  lemma AtEntry(lists: Children, all: seq<Entry>, pos: seq<nat>, direction: Direction, current: int, at: nat)
    requires Placed(lists, all, pos, direction, current, at) && current != -1
    ensures at < |all| && Stands(lists, pos, current)
  {
  }

  /** The first `n` children, as far as FindSmallest has looked. */
  ghost predicate SmallestTo(lists: Children, pos: seq<nat>, current: int, n: nat) {
    && (current == -1 ==> forall i | 0 <= i < n :: !Stands(lists, pos, i))
    && (current != -1 ==> Stands(lists, pos, current) && forall i | 0 <= i < n && Stands(lists, pos, i) ::
          !Before(Head(lists, pos, i).key, Head(lists, pos, current).key))
  }

  /** The children from `n` on, as far as FindLargest has looked. */
  ghost predicate LargestFrom(lists: Children, pos: seq<nat>, current: int, n: nat) {
    && (current == -1 ==> forall i | n <= i < |lists| :: !Stands(lists, pos, i))
    && (current != -1 ==> Stands(lists, pos, current) && forall i | n <= i < |lists| && Stands(lists, pos, i) ::
          !Before(Head(lists, pos, current).key, Head(lists, pos, i).key))
  }

  /** Two children never hold one key, so the extra step over an equal key is not taken. */
  lemma SameKeyApart(lists: Children, all: seq<Entry>, i: nat, c: nat, p: nat, q: nat)
    requires IsUnion(lists, all) && i < |lists| && c < |lists| && i != c
    requires q < |lists[c]|
    ensures p < |lists[i]| ==> lists[i][p].key != lists[c][q].key
  {
    var lo, hi := if i < c then i else c, if i < c then c else i;
    assert KeysApart(lists[lo], lists[hi]);
    assert p < |lists[i]| ==> lists[i][p] in lists[i];
    assert lists[c][q] in lists[c];
  }
}
