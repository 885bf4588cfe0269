/**
  The skip list under a memtable (db/skiplist.h).  One writer inserts while readers search without a lock:
  an insertion is a row of single pointer stores and a search a row of single pointer loads, in any order.
  Loads and stores are taken one at a time, so release-acquire ordering is not modelled further.
*/
module SkipLists {
  import opened InternalKeys

  // a key stands for its place in the list's comparator order
  type Key = real

  const MAX_HEIGHT := 12

  class Node {
    const key: Key
    var next: seq<Node?>

    constructor (key: Key, height: nat)
      ensures this.key == key && |next| == height
    {
      this.key := key;
      next := seq(height, i => null);
    }
  }

  // ---------------------------------------------------------------- lists of nodes

  /** One level as a list: the head, then nodes in strictly increasing key order. */
  ghost predicate SortedChain(c: seq<Node>, head: Node) {
    && c != [] && c[0] == head
    && (forall j | 1 <= j < |c| :: c[j] != head)
    && (forall j, k | 1 <= j < k < |c| :: c[j].key < c[k].key)
  }

  ghost predicate SubChain(above: seq<Node>, below: seq<Node>) {
    forall n | n in above :: n in below
  }

  /** Every level is sorted and part of the level below it. */
  ghost predicate Shape(chains: seq<seq<Node>>, head: Node) {
    && |chains| == MAX_HEIGHT
    && (forall l | 0 <= l < MAX_HEIGHT :: SortedChain(chains[l], head))
    && (forall l | 0 <= l < MAX_HEIGHT - 1 :: SubChain(chains[l + 1], chains[l]))
  }

  function Successor(c: seq<Node>, j: nat): Node? {
    if j + 1 < |c| then c[j + 1] else null
  }

  // the pointers of all nodes of a list, taken out of the heap
  type Links = map<Node, seq<Node?>>

  ghost function Next(links: Links, n: Node, l: nat): Node? {
    if n in links && l < |links[n]| then links[n][l] else null
  }

  ghost predicate Reaches(links: Links, n: Node, l: nat) {
    n in links && l < |links[n]|
  }

  /** The pointers of level `l` follow the list. */
  ghost predicate LinkedAt(c: seq<Node>, l: nat, links: Links) {
    forall j | 0 <= j < |c| :: Reaches(links, c[j], l) && Next(links, c[j], l) == Successor(c, j)
  }

  ghost function Stored(links: Links, n: Node, l: nat, x: Node?): Links
    requires Reaches(links, n, l)
  {
    links[n := links[n][l := x]]
  }

  ghost function Keys(c: seq<Node>): set<Key> {
    set j | 1 <= j < |c| :: c[j].key
  }

  /** A null node counts as infinite, and so does a missing target. */
  predicate KeyIsAfterNode(target: Option<Key>, n: Node?) {
    n != null && (target.Some? ==> n.key < target.value)
  }

  /** `x` is the last node before the target in `c`, or the head; what follows it is at or after the target. */
  ghost predicate SplitsAt(c: seq<Node>, p: nat, x: Node, target: Option<Key>) {
    && p < |c| && c[p] == x
    && (p > 0 ==> KeyIsAfterNode(target, x))
    && (p + 1 < |c| ==> !KeyIsAfterNode(target, c[p + 1]))
  }

  ghost predicate Splits(c: seq<Node>, x: Node, target: Option<Key>) {
    exists p :: SplitsAt(c, p, x, target)
  }

  ghost predicate Follows(c: seq<Node>, x: Node, next: Node?) {
    exists p :: 0 <= p < |c| && c[p] == x && next == Successor(c, p)
  }

  /** The whole search result in terms of the keys: all keys before the target are at or before `x`. */
  lemma SplitMeans(c: seq<Node>, head: Node, x: Node, next: Node?, target: Option<Key>)
    requires SortedChain(c, head) && Splits(c, x, target) && Follows(c, x, next)
    ensures x != head ==> x.key in Keys(c) && forall k | k in Keys(c) && (target.Some? ==> k < target.value) :: k <= x.key
    ensures x == head ==> forall k | k in Keys(c) :: target.Some? && target.value <= k
    ensures next != null ==> target.Some? && next.key in Keys(c) && target.value <= next.key
    ensures next != null ==> forall k | k in Keys(c) && target.value <= k :: next.key <= k
    ensures next == null ==> forall k | k in Keys(c) :: target.Some? ==> k < target.value
  {
    var p :| SplitsAt(c, p, x, target);
    var q :| 0 <= q < |c| && c[q] == x && next == Successor(c, q);
    assert p == q;
    forall j | 1 <= j < |c|
      ensures j <= p ==> c[j].key <= x.key && KeyIsAfterNode(target, c[j])
      ensures j > p ==> !KeyIsAfterNode(target, c[j]) && next != null && next.key <= c[j].key
    {
    }
  }

  // ---------------------------------------------------------------- inserting into a list of nodes

  ghost function With(c: seq<Node>, p: nat, x: Node): seq<Node>
    requires p < |c|
  {
    c[..p + 1] + [x] + c[p + 1..]
  }

  function Preceding(c: seq<Node>, j: nat): Node
    requires 0 < j <= |c|
  {
    c[j - 1]
  }

  lemma WithAt(c: seq<Node>, p: nat, x: Node)
    requires p < |c|
    ensures |With(c, p, x)| == |c| + 1
    ensures forall j | 0 <= j <= p :: With(c, p, x)[j] == c[j]
    ensures With(c, p, x)[p + 1] == x
    ensures forall j | p + 2 <= j <= |c| :: With(c, p, x)[j] == Preceding(c, j)
  {
  }

  lemma WithElements(c: seq<Node>, p: nat, x: Node)
    requires p < |c|
    ensures forall n :: n in With(c, p, x) <==> n in c || n == x
  {
    assert c == c[..p + 1] + c[p + 1..];
  }

  lemma WithKeys(c: seq<Node>, p: nat, x: Node)
    requires p < |c|
    ensures Keys(With(c, p, x)) == Keys(c) + {x.key}
  {
    var w := With(c, p, x);
    WithAt(c, p, x);
    hide With;
    forall k | k in Keys(c) + {x.key} ensures k in Keys(w) {
      if k in Keys(c) {
        var j :| 1 <= j < |c| && c[j].key == k;
        assert w[if j <= p then j else j + 1].key == k;
      } else {
        assert w[p + 1].key == k;
      }
    }
  }

  lemma WithSorted(c: seq<Node>, head: Node, p: nat, x: Node)
    requires SortedChain(c, head) && p < |c| && x != head
    requires p > 0 ==> c[p].key < x.key
    requires p + 1 < |c| ==> x.key < c[p + 1].key
    ensures SortedChain(With(c, p, x), head)
  {
    var w := With(c, p, x);
    WithAt(c, p, x);
    hide With;
    forall j | 1 <= j < |c|
      ensures j <= p ==> c[j].key < x.key
      ensures j > p ==> x.key < c[j].key
    {
    }
  }

  /** A node put into level `i` that is already in the level below keeps the shape of all levels. */
  lemma ShapeKept(chains: seq<seq<Node>>, head: Node, i: nat, p: nat, x: Node)
    requires Shape(chains, head) && i < MAX_HEIGHT && p < |chains[i]| && x != head
    requires p > 0 ==> chains[i][p].key < x.key
    requires p + 1 < |chains[i]| ==> x.key < chains[i][p + 1].key
    requires i > 0 ==> x in chains[i - 1]
    ensures Shape(chains[i := With(chains[i], p, x)], head)
  {
    WithSorted(chains[i], head, p, x);
    WithElements(chains[i], p, x);
    hide SortedChain, With;
  }

  /** Every node of a level is in all levels below it. */
  lemma {:induction false} Below(chains: seq<seq<Node>>, head: Node, n: Node, hi: nat, lo: nat)
    requires Shape(chains, head) && lo <= hi < MAX_HEIGHT && n in chains[hi]
    ensures n in chains[lo]
    decreases hi
  {
    if lo < hi {
      assert SubChain(chains[hi - 1 + 1], chains[hi - 1]);
      Below(chains, head, n, hi - 1, lo);
    }
  }

  ghost predicate Grown(before: seq<seq<Node>>, after: seq<seq<Node>>) {
    && |before| == |after| == MAX_HEIGHT
    && forall l, n | 0 <= l < MAX_HEIGHT && n in before[l] :: n in after[l]
  }

  lemma OncePlaced(c: seq<Node>, head: Node, p: nat)
    requires SortedChain(c, head) && p < |c|
    ensures forall j | 0 <= j < |c| && j != p :: c[j] != c[p]
  {
  }

  /** What a publishing store relies on. */
  lemma PublishPlace(chains: seq<seq<Node>>, head: Node, i: nat, p: nat, before: Node, x: Node, next: Node?)
    requires Shape(chains, head) && i < MAX_HEIGHT && x != head
    requires SplitsAt(chains[i], p, before, Some(x.key)) && x.key !in Keys(chains[i])
    requires Follows(chains[i], before, next) && (i > 0 ==> x in chains[i - 1])
    ensures p < |chains[i]| && chains[i][p] == before && x !in chains[i]
    ensures forall j | 0 <= j < |chains[i]| && j != p :: chains[i][j] != before
    ensures next == Successor(chains[i], p)
    ensures forall n :: n in With(chains[i], p, x) <==> n in chains[i] || n == x
    ensures Shape(chains[i := With(chains[i], p, x)], head)
  {
    var c := chains[i];
    assert SortedChain(c, head);
    assert forall j | 1 <= j < |c| :: c[j].key in Keys(c);
    OncePlaced(c, head, p);
    WithElements(c, p, x);
    WithAt(c, p, x);
    ShapeKept(chains, head, i, p, x);
  }

  /** A store touches one pointer only. */
  lemma StoredElsewhere(c: seq<Node>, l: nat, links: Links, n: Node, i: nat, x: Node?)
    requires LinkedAt(c, l, links) && Reaches(links, n, i) && (i != l || n !in c)
    ensures LinkedAt(c, l, Stored(links, n, i, x))
  {
  }

  /** Room for a node that no list mentions yet. */
  lemma NewNodeElsewhere(c: seq<Node>, l: nat, links: Links, n: Node, next: seq<Node?>)
    requires LinkedAt(c, l, links) && n !in links
    ensures LinkedAt(c, l, links[n := next])
  {
  }

  /** The store that publishes `x` links it after `c[p]`. */
  lemma StoredHere(c: seq<Node>, i: nat, links: Links, p: nat, x: Node)
    requires LinkedAt(c, i, links) && p < |c| && x !in c && Reaches(links, x, i)
    requires forall j | 0 <= j < |c| && j != p :: c[j] != c[p]
    requires Next(links, x, i) == Successor(c, p)
    ensures LinkedAt(With(c, p, x), i, Stored(links, c[p], i, x))
  {
    WithAt(c, p, x);
    var w, links' := With(c, p, x), Stored(links, c[p], i, x);
    hide With;
    forall j | 0 <= j < |w| ensures Reaches(links', w[j], i) && Next(links', w[j], i) == Successor(w, j) {
      assert j > p + 1 ==> w[j] == c[j - 1];
    }
  }

  // ---------------------------------------------------------------- the list

  class SkipList {
    const head: Node
    var maxHeight: nat

    ghost var chains: seq<seq<Node>>
    ghost var links: Links

    ghost predicate Valid()
      reads this, links.Keys
    {
      && 1 <= maxHeight <= MAX_HEIGHT
      && (forall n | n in links :: n.next == links[n])
      && Linked(head, chains, links, maxHeight)
    }

    /** The keys a reader can reach: those linked at the lowest level. */
    ghost function Reachable(): set<Key>
      requires Valid()
      reads this, links.Keys
    {
      Keys(chains[0])
    }

    constructor ()
      ensures Valid() && fresh(links.Keys) && Reachable() == {} && maxHeight == 1
    {
      var h := new Node(0.0, MAX_HEIGHT);
      h.next := seq(MAX_HEIGHT, i => null);
      head := h;
      maxHeight := 1;
      chains := seq(MAX_HEIGHT, l => [h]);
      links := map[h := h.next];
      new;
      assert forall l | 0 <= l < MAX_HEIGHT :: chains[l] == [h];
    }

    /** GetMaxHeight raised by a writer: the levels gained are empty. */
    method RaiseHeight(height: nat)
      requires Valid() && maxHeight <= height <= MAX_HEIGHT
      modifies this`maxHeight
      ensures Valid() && maxHeight == height
    {
      maxHeight := height;
    }

    /** A new node, known to no reader yet. */
    method Adopt(x: Node)
      requires Valid() && x !in links
      modifies this`links
      ensures Valid() && links == old(links)[x := x.next]
    {
      hide LinkedAt, SortedChain, SubChain;
      forall l | 0 <= l < MAX_HEIGHT ensures LinkedAt(chains[l], l, links[x := x.next]) {
        NewNodeElsewhere(chains[l], l, links, x, x.next);
      }
      links := links[x := x.next];
    }

    /** NoBarrier_SetNext on a node that is not linked at level `i`. */
    method SetNext(x: Node, i: nat, next: Node?)
      requires Valid() && i < MAX_HEIGHT && Reaches(links, x, i) && x !in chains[i]
      modifies this`links, x`next
      ensures Valid() && links == Stored(old(links), x, i, next)
    {
      hide LinkedAt, SortedChain, SubChain;
      forall l | 0 <= l < MAX_HEIGHT ensures LinkedAt(chains[l], l, Stored(links, x, i, next)) {
        StoredElsewhere(chains[l], l, links, x, i, next);
      }
      x.next := x.next[i := next];
      links := Stored(links, x, i, next);
    }

    /** SetNext on a linked node: publish `x` at level `i`, after the node `before`. */
    method Publish(i: nat, before: Node, x: Node, ghost p: nat)
      requires Valid() && i < maxHeight && x != head
      requires SplitsAt(chains[i], p, before, Some(x.key)) && x.key !in Keys(chains[i])
      requires Reaches(links, x, i) && Follows(chains[i], before, Next(links, x, i))
      requires i > 0 ==> x in chains[i - 1]
      modifies this`chains, this`links, before`next
      ensures Valid() && links == Stored(old(links), before, i, x)
      ensures chains == old(chains)[i := With(old(chains)[i], p, x)]
    {
      PublishKeepsLinked(head, chains, links, maxHeight, i, p, before, x);
      hide Linked, With, SplitsAt, Follows, Keys;
      before.next := before.next[i := x];
      chains := chains[i := With(chains[i], p, x)];
      links := Stored(links, before, i, x);
    }
  }

  /** All levels at once: their shape, their pointers, and nothing above the list's height. */
  ghost predicate Linked(head: Node, chains: seq<seq<Node>>, links: Links, height: nat) {
    && Shape(chains, head)
    && (forall l | 0 <= l < MAX_HEIGHT :: LinkedAt(chains[l], l, links))
    && (forall l | height <= l < MAX_HEIGHT :: chains[l] == [head])
  }

  lemma PublishKeepsLinked(head: Node, chains: seq<seq<Node>>, links: Links, height: nat, i: nat, p: nat, before: Node, x: Node)
    requires Linked(head, chains, links, height) && i < height <= MAX_HEIGHT && x != head
    requires SplitsAt(chains[i], p, before, Some(x.key)) && x.key !in Keys(chains[i])
    requires Reaches(links, x, i) && Follows(chains[i], before, Next(links, x, i))
    requires i > 0 ==> x in chains[i - 1]
    ensures Reaches(links, before, i)
    ensures p < |chains[i]| && Linked(head, chains[i := With(chains[i], p, x)], Stored(links, before, i, x), height)
  {
    PublishPlace(chains, head, i, p, before, x, Next(links, x, i));
    var c := chains[i];
    assert LinkedAt(c, i, links) && Reaches(links, c[p], i);
    hide LinkedAt, Shape, With, SplitsAt, Follows, Keys, Next;
    StoredHere(c, i, links, p, x);
    forall l | 0 <= l < MAX_HEIGHT && l != i ensures LinkedAt(chains[l], l, Stored(links, before, i, x)) {
      StoredElsewhere(chains[l], l, links, before, i, x);
    }
  }

  // ---------------------------------------------------------------- the writer

  lemma OnLevel(list: SkipList, l: nat, x: Node)
    requires list.Valid() && l < MAX_HEIGHT && x in list.chains[l]
    ensures x in list.links && l < |x.next| && Follows(list.chains[l], x, x.next[l])
    ensures x.next[l] != null ==> x.next[l] in list.chains[l] && x.next[l] != list.head
  {
    var p :| 0 <= p < |list.chains[l]| && list.chains[l][p] == x;
    assert LinkedAt(list.chains[l], l, list.links);
    assert SortedChain(list.chains[l], list.head);
  }

  /** FindGreaterOrEqual as the writer runs it: on every level the last node before `key`. */
  method FindSplice(list: SkipList, key: Key) returns (prev: seq<Node>, next: Node?)
    requires list.Valid()
    ensures |prev| == list.maxHeight
    ensures forall l | 0 <= l < |prev| :: Splits(list.chains[l], prev[l], Some(key))
    ensures Follows(list.chains[0], prev[0], next)
  {
    hide LinkedAt, SortedChain, SubChain, Follows, Splits;
    var x := list.head;
    var level := list.maxHeight - 1;
    prev := seq(list.maxHeight, i => list.head);
    ghost var p := 0;
    HeadOfLevel(list, level);
    while true
      invariant 0 <= level < list.maxHeight == |prev|
      invariant 0 <= p < |list.chains[level]| && list.chains[level][p] == x && (p > 0 ==> x.key < key)
      invariant forall l | level < l < |prev| :: Splits(list.chains[l], prev[l], Some(key))
      decreases level, |list.chains[level]| - p
    {
      OnLevel(list, level, x);
      next := x.next[level];
      NextPlace(list, level, p, next);
      if KeyIsAfterNode(Some(key), next) {
        x, p := next, p + 1;
      } else {
        prev := prev[level := x];
        SplitHere(list.chains[level], p, x, Some(key));
        if level == 0 {
          return;
        }
        level := level - 1;
        DropLevel(list, level, x);
        ghost var q :| 0 <= q < |list.chains[level]| && list.chains[level][q] == x;
        assert q > 0 ==> p > 0;
        p := q;
      }
    }
  }

  lemma HeadOfLevel(list: SkipList, l: nat)
    requires list.Valid() && l < MAX_HEIGHT
    ensures list.chains[l] != [] && list.chains[l][0] == list.head && list.head in list.chains[l]
  {
    assert SortedChain(list.chains[l], list.head);
  }

  lemma NextPlace(list: SkipList, l: nat, p: nat, next: Node?)
    requires list.Valid() && l < MAX_HEIGHT && p < |list.chains[l]| && Follows(list.chains[l], list.chains[l][p], next)
    ensures next == Successor(list.chains[l], p)
  {
    OncePlaced(list.chains[l], list.head, p);
  }

  lemma SplitHere(c: seq<Node>, p: nat, x: Node, target: Option<Key>)
    requires SplitsAt(c, p, x, target)
    ensures Splits(c, x, target)
  {
  }

  /** A node of one level is in the level below, as head if it was head. */
  lemma DropLevel(list: SkipList, below: nat, x: Node)
    requires list.Valid() && below + 1 < MAX_HEIGHT && x in list.chains[below + 1]
    ensures x in list.chains[below]
    ensures list.chains[below + 1][0] == list.head
    ensures forall q | 0 < q < |list.chains[below]| :: list.chains[below][q] != list.head
  {
    assert SubChain(list.chains[below + 1], list.chains[below]);
    assert SortedChain(list.chains[below], list.head) && SortedChain(list.chains[below + 1], list.head);
  }

  datatype Phase = Raising | Pointing | Publishing | Done

  ghost predicate ReadyFrom(chains: seq<seq<Node>>, prev: seq<Node>, x: Node, from: nat, height: nat) {
    && height <= |prev| && height <= |chains|
    && forall l | from <= l < height :: Ready(chains[l], prev[l], x)
  }

  lemma {:induction false} KeysBelow(chains: seq<seq<Node>>, head: Node, l: nat)
    requires Shape(chains, head) && l < MAX_HEIGHT
    ensures Keys(chains[l]) <= Keys(chains[0])
  {
    hide SubChain;
    forall k | k in Keys(chains[l]) ensures k in Keys(chains[0]) {
      var j :| 1 <= j < |chains[l]| && chains[l][j].key == k;
      Below(chains, head, chains[l][j], l, 0);
      var i :| 0 <= i < |chains[0]| && chains[0][i] == chains[l][j];
      assert SortedChain(chains[l], head) && SortedChain(chains[0], head);
    }
  }

  lemma EverythingReady(list: SkipList, prev: seq<Node>, x: Node)
    requires list.Valid() && x !in list.links && x.key !in list.Reachable() && list.maxHeight <= |prev| <= MAX_HEIGHT
    requires forall l | 0 <= l < list.maxHeight :: Splits(list.chains[l], prev[l], Some(x.key))
    requires forall l | list.maxHeight <= l < |prev| :: prev[l] == list.head
    ensures forall height | 0 <= height <= |prev| :: ReadyFrom(list.chains, prev, x, 0, height)
  {
    hide SortedChain, SubChain;
    forall l | 0 <= l < |prev| ensures Ready(list.chains[l], prev[l], x) {
      KeysBelow(list.chains, list.head, l);
      assert LinkedAt(list.chains[l], l, list.links);
      assert list.maxHeight <= l ==> SplitsAt(list.chains[l], 0, prev[l], Some(x.key));
    }
  }

  /** One insertion under way; every step makes a single store. */
  class Insertion {
    const list: SkipList
    const x: Node
    const height: nat
    const prev: seq<Node>
    var linked: nat
    var phase: Phase

    ghost predicate Ok()
      reads this, list, list.links.Keys
    {
      && list.Valid()
      && x != list.head && x in list.links && |x.next| == height
      && 1 <= height <= MAX_HEIGHT && linked <= height
      && (phase == Done <==> linked == height)
      && (phase == Raising ==> linked == 0)
      && (phase != Raising ==> height <= list.maxHeight)
      && (linked > 0 ==> x in list.chains[linked - 1])
      && ReadyFrom(list.chains, prev, x, linked, height)
      && (phase == Publishing ==> Follows(list.chains[linked], prev[linked], Next(list.links, x, linked)))
    }

    /** SkipList::Insert up to its first store. */
    constructor (list: SkipList, key: Key, height: nat)
      requires list.Valid() && 1 <= height <= MAX_HEIGHT && key !in list.Reachable()
      modifies list`links
      ensures Ok() && this.list == list && x.key == key && linked == 0 && phase == Raising
      ensures this.height == height && fresh(x)
      ensures list.chains == old(list.chains) && list.links.Keys == old(list.links.Keys) + {x}
    {
      var prev, next := FindSplice(list, key);
      var node := new Node(key, height);
      this.list, this.height, this.x := list, height, node;
      this.prev := prev + seq(if height > |prev| then height - |prev| else 0, i => list.head);
      linked, phase := 0, Raising;
      new;
      hide Linked, Ready, Splits, Shape;
      EverythingReady(list, this.prev, node);
      list.Adopt(node);
    }

    /** The next store: the list's height, a pointer of the new node, or a pointer to the new node. */
    method Step()
      requires Ok() && phase != Done
      modifies this`linked, this`phase, list, list.links.Keys
      ensures Ok() && list.links.Keys == old(list.links.Keys)
      ensures Grown(old(list.chains), list.chains)
      ensures list.Reachable() == old(list.Reachable()) + if old(phase) == Publishing && old(linked) == 0 then {x.key} else {}
      ensures linked == old(linked) + if old(phase) == Publishing then 1 else 0
      ensures old(phase) != Publishing ==> Stage(phase) > Stage(old(phase))
    {
      assert Grown(list.chains, list.chains);
      hide Linked, ReadyFrom, Grown, Keys, Follows;
      match phase
      case Raising =>
        if height > list.maxHeight {
          list.RaiseHeight(height);
        }
        phase := Pointing;
      case Pointing => Point();
      case Publishing => PublishNode();
    }

    /** x->NoBarrier_SetNext */
    method Point()
      requires Ok() && phase == Pointing
      modifies this`phase, list`links, x`next
      ensures Ok() && phase == Publishing && list.links.Keys == old(list.links.Keys)
    {
      hide SortedChain, SubChain, LinkedAt, Splits, Keys, Follows;
      ghost var p := ReadyAt(list, linked, prev[linked], x);
      list.SetNext(x, linked, prev[linked].next[linked]);
      phase := Publishing;
    }

    /** prev[i]->SetNext */
    method PublishNode()
      requires Ok() && phase == Publishing
      modifies this`linked, this`phase, list`chains, list`links, list.links.Keys
      ensures Ok() && list.links.Keys == old(list.links.Keys)
      ensures linked == old(linked) + 1 && Grown(old(list.chains), list.chains)
      ensures list.Reachable() == old(list.Reachable()) + if old(linked) == 0 then {x.key} else {}
    {
      hide SortedChain, SubChain, LinkedAt, Splits, With, Keys, Follows;
      ghost var cs := list.chains;
      ghost var p := ReadyAt(list, linked, prev[linked], x);
      list.Publish(linked, prev[linked], x, p);
      PublishGrows(cs, linked, p, x);
      linked := linked + 1;
      phase := if linked == height then Done else Pointing;
    }
  }

  function Stage(phase: Phase): nat {
    match phase case Raising => 0 case Pointing => 1 case Publishing => 2 case Done => 3
  }

  lemma ReadyAt(list: SkipList, i: nat, before: Node, x: Node) returns (p: nat)
    requires list.Valid() && i < MAX_HEIGHT && Ready(list.chains[i], before, x)
    ensures p < |list.chains[i]| && SplitsAt(list.chains[i], p, before, Some(x.key))
    ensures before in list.links && i < |before.next| && Follows(list.chains[i], before, before.next[i])
    ensures before in list.chains[i]
  {
    p :| SplitsAt(list.chains[i], p, before, Some(x.key));
    OnLevel(list, i, before);
  }

  lemma PublishGrows(chains: seq<seq<Node>>, i: nat, p: nat, x: Node)
    requires |chains| == MAX_HEIGHT && i < MAX_HEIGHT && p < |chains[i]|
    ensures Grown(chains, chains[i := With(chains[i], p, x)])
    ensures x in With(chains[i], p, x)
    ensures Keys(With(chains[i], p, x)) == Keys(chains[i]) + {x.key}
  {
    WithElements(chains[i], p, x);
    WithKeys(chains[i], p, x);
    hide With;
  }

  /** The node `before` is where `x` goes on this level, and `x` is not there yet. */
  ghost predicate Ready(c: seq<Node>, before: Node, x: Node) {
    && Splits(c, before, Some(x.key))
    && x.key !in Keys(c)
    && x !in c
  }

  // ---------------------------------------------------------------- a reader

  /** The reader's node is on its level, and before its target. */
  ghost predicate OnPath(chains: seq<seq<Node>>, head: Node, level: nat, x: Node, target: Option<Key>) {
    && |chains| == MAX_HEIGHT && level < MAX_HEIGHT
    && x in chains[level]
    && (x != head ==> KeyIsAfterNode(target, x))
  }

  /** On the lowest level as it was at one moment, `x` is the last node before the target and `next` follows it. */
  ghost predicate Found(moment: seq<Node>, head: Node, x: Node, next: Node?, target: Option<Key>) {
    SortedChain(moment, head) && Splits(moment, x, target) && Follows(moment, x, next)
  }

  /** FindGreaterOrEqual, FindLessThan and, with no target, FindLast: every step makes a single load. */
  class Search {
    const list: SkipList
    const target: Option<Key>
    var x: Node
    var level: nat
    var next: Node?
    var done: bool

    ghost var began: set<Key>     // what was reachable when the search began
    ghost var moment: seq<Node>   // the lowest level at the last load

    ghost predicate Ok()
      reads this, list, list.links.Keys
    {
      && list.Valid()
      && began <= list.Reachable()
      && (!done ==> OnPath(list.chains, list.head, level, x, target))
      && (done ==> Found(moment, list.head, x, next, target) && began <= Keys(moment) <= list.Reachable())
    }

    constructor (list: SkipList, target: Option<Key>)
      requires list.Valid()
      ensures Ok() && this.list == list && this.target == target && !done && began == list.Reachable()
      ensures level == list.maxHeight - 1 && x == list.head
    {
      this.list, this.target, x, level := list, target, list.head, list.maxHeight - 1;
      next, done := null, false;
      began, moment := list.Reachable(), [];
      new;
      HeadOfLevel(list, list.maxHeight - 1);
    }

    method Step()
      requires Ok() && !done
      modifies this
      ensures Ok() && began == old(began)
      ensures done ==> moment == list.chains[0]
      ensures !done ==> level < old(level) || (level == old(level) && Follows(list.chains[level], old(x), x))
    {
      hide SortedChain, SubChain, LinkedAt, Splits, Follows;
      ghost var p := PathPlace(list, level, x, target);
      next := x.next[level];
      if KeyIsAfterNode(target, next) {
        OnLevel(list, level, x);
        x := next;
      } else if level == 0 {
        EndOfPath(list, p, x, next, target);
        done, moment := true, list.chains[0];
      } else {
        level := level - 1;
        DropLevel(list, level, x);
      }
    }
  }

  lemma PathPlace(list: SkipList, level: nat, x: Node, target: Option<Key>) returns (p: nat)
    requires list.Valid() && OnPath(list.chains, list.head, level, x, target)
    ensures level < |x.next| && Follows(list.chains[level], x, x.next[level])
    ensures p < |list.chains[level]| && list.chains[level][p] == x && (p > 0 ==> KeyIsAfterNode(target, x))
    ensures x.next[level] == Successor(list.chains[level], p)
  {
    OnLevel(list, level, x);
    p :| 0 <= p < |list.chains[level]| && list.chains[level][p] == x;
    NextPlace(list, level, p, x.next[level]);
    HeadOfLevel(list, level);
    OncePlaced(list.chains[level], list.head, p);
  }

  lemma EndOfPath(list: SkipList, p: nat, x: Node, next: Node?, target: Option<Key>)
    requires list.Valid() && p < |list.chains[0]| && list.chains[0][p] == x && next == Successor(list.chains[0], p)
    requires (p > 0 ==> KeyIsAfterNode(target, x)) && !KeyIsAfterNode(target, next)
    ensures Found(list.chains[0], list.head, x, next, target)
  {
    assert SplitsAt(list.chains[0], p, x, target);
  }

  /** What the writer adds does not lead a reader astray. */
  lemma StillOnPath(before: seq<seq<Node>>, after: seq<seq<Node>>, head: Node, level: nat, x: Node, target: Option<Key>)
    requires OnPath(before, head, level, x, target) && Grown(before, after)
    ensures OnPath(after, head, level, x, target)
  {
  }

  /**
    The reader's answer, whatever ran beside it: among the keys reachable at one moment of the search, which
    hold every key there when it began and none that is not there when it ends, the node after `x` is the
    first at or after the target and `x` the last before it.
  */
  lemma AnswerIsFirst(list: SkipList, reader: Search)
    requires reader.Ok() && reader.list == list && reader.done
    ensures exists ks: set<Key> :: reader.began <= ks <= list.Reachable() && Answers(ks, list.head, reader.x, reader.next, reader.target)
  {
    var ks := Keys(reader.moment);
    SplitMeans(reader.moment, list.head, reader.x, reader.next, reader.target);
    assert Answers(ks, list.head, reader.x, reader.next, reader.target);
  }

  ghost predicate Answers(ks: set<Key>, head: Node, x: Node, next: Node?, target: Option<Key>) {
    && (x == head ==> forall k | k in ks :: target.Some? && target.value <= k)
    && (x != head ==> x.key in ks && (target.Some? ==> x.key < target.value))
    && (x != head ==> forall k | k in ks && (target.Some? ==> k < target.value) :: k <= x.key)
    && (next == null ==> forall k | k in ks :: target.Some? ==> k < target.value)
    && (next != null ==> target.Some? && next.key in ks && target.value <= next.key)
    && (next != null ==> forall k | k in ks && target.value <= k :: next.key <= k)
  }

  // ---------------------------------------------------------------- whole operations

  /** SkipList::Insert: of a key not yet there, on a tower of any height. */
  method Insert(list: SkipList, key: Key, height: nat)
    requires list.Valid() && 1 <= height <= MAX_HEIGHT && key !in list.Reachable()
    modifies list, list.links.Keys
    ensures list.Valid() && list.Reachable() == old(list.Reachable()) + {key}
    ensures fresh(list.links.Keys - old(list.links.Keys))
  {
    var writer := new Insertion(list, key, height);
    hide Linked, ReadyFrom, Grown, Follows, Keys;
    RunToEnd(list, writer);
  }

  /** All remaining stores of an insertion, with nobody in between. */
  method RunToEnd(list: SkipList, writer: Insertion)
    requires writer.Ok() && writer.list == list && writer.linked == 0
    modifies list, list.links.Keys, writer
    ensures writer.Ok() && writer.phase == Done && list.links.Keys == old(list.links.Keys)
    ensures list.Reachable() == old(list.Reachable()) + {writer.x.key}
  {
    hide Linked, ReadyFrom, Grown, Follows, Keys;
    while writer.phase != Done
      invariant writer.Ok() && list.links.Keys == old(list.links.Keys)
      invariant list.Reachable() == old(list.Reachable()) + if writer.linked == 0 then {} else {writer.x.key}
      decreases writer.height - writer.linked, 3 - Stage(writer.phase)
    {
      writer.Step();
    }
  }

  /** A search with nobody writing. */
  method Find(list: SkipList, target: Option<Key>) returns (x: Node, next: Node?)
    requires list.Valid()
    ensures Answers(list.Reachable(), list.head, x, next, target)
    ensures x in list.chains[0] && Follows(list.chains[0], x, next)
  {
    var reader := new Search(list, target);
    hide SortedChain, SubChain, LinkedAt, Splits, Follows, Keys, Linked;
    ghost var p := 0;
    HeadOfLevel(list, reader.level);
    while !reader.done
      invariant reader.Ok() && (reader.done ==> reader.moment == list.chains[0])
      invariant !reader.done ==> p < |list.chains[reader.level]| && list.chains[reader.level][p] == reader.x
      decreases !reader.done, reader.level, if reader.done then 0 else |list.chains[reader.level]| - p
    {
      ghost var l := reader.level;
      reader.Step();
      if !reader.done {
        if reader.level == l {
          NextPlace(list, l, p, reader.x);
          p := p + 1;
        } else {
          p :| 0 <= p < |list.chains[reader.level]| && list.chains[reader.level][p] == reader.x;
        }
      }
    }
    x, next := reader.x, reader.next;
    SplitMeans(list.chains[0], list.head, x, next, target);
  }

  method Contains(list: SkipList, key: Key) returns (b: bool)
    requires list.Valid()
    ensures b <==> key in list.Reachable()
  {
    var x, next := Find(list, Some(key));
    b := next != null && next.key == key;
  }

  // ---------------------------------------------------------------- one read beside any number of insertions

  /** A load of the reader, a store of the writer, or the writer setting out on its next insertion. */
  datatype Event = Load | Store | Begin(key: Key, height: nat)

  function Begun(schedule: seq<Event>): set<Key> {
    set e | e in schedule && e.Begin? :: e.key
  }

  lemma BegunMore(schedule: seq<Event>, i: nat)
    requires i < |schedule|
    ensures Begun(schedule[..i]) <= Begun(schedule[..i + 1])
    ensures schedule[i].Begin? ==> schedule[i].key in Begun(schedule[..i + 1])
  {
    assert schedule[i] in schedule[..i + 1];
    assert forall e | e in schedule[..i] :: e in schedule[..i + 1];
  }

  method Turn(list: SkipList, writer: Insertion, reader: Search, event: Event) returns (next: Insertion)
    requires writer.Ok() && reader.Ok() && writer.list == list && reader.list == list
    modifies list, list.links.Keys, writer, reader
    ensures next.Ok() && next.list == list && reader.Ok() && reader.began == old(reader.began)
    ensures next == writer || (fresh(next) && event.Begin? && next.x.key == event.key)
    ensures fresh(list.links.Keys - old(list.links.Keys))
    ensures old(list.Reachable()) <= list.Reachable() <= old(list.Reachable()) + {writer.x.key}
  {
    hide SortedChain, SubChain, LinkedAt, Found, Grown, Splits, OnPath, Keys, Ready, Linked, ReadyFrom, Follows;
    next := writer;
    match event
    case Load =>
      if !reader.done {
        reader.Step();
      }
    case Store =>
      if writer.phase != Done {
        ghost var cs := list.chains;
        writer.Step();
        if !reader.done {
          StillOnPath(cs, list.chains, list.head, reader.level, reader.x, reader.target);
        }
      }
    case Begin(key, height) =>
      if writer.phase == Done && 1 <= height <= MAX_HEIGHT {
        var there := Contains(list, key);
        if !there {
          next := new Insertion(list, key, height);
        }
      }
  }

  /**
    One writer and one reader, taking single steps in the order the schedule says, for any schedule.  The
    writer makes one insertion after another, as its callers' lock has it.  Readers write nothing that others
    read, so what holds of one holds of each of any number.
  */
  method Interleave(list: SkipList, first: Insertion, reader: Search, schedule: seq<Event>) returns (writer: Insertion)
    requires first.Ok() && reader.Ok() && first.list == list && reader.list == list
    modifies list, list.links.Keys, first, reader
    ensures writer.Ok() && writer.list == list && reader.Ok() && list.Valid()
    ensures old(list.Reachable()) <= list.Reachable() <= old(list.Reachable()) + {first.x.key} + Begun(schedule)
    ensures reader.began == old(reader.began)
  {
    hide SortedChain, SubChain, LinkedAt, Found, Grown, Splits, OnPath, Keys, Ready, Linked, ReadyFrom, Begun, Follows;
    writer := first;
    for i := 0 to |schedule|
      invariant writer.Ok() && writer.list == list && reader.Ok() && reader.list == list
      invariant writer == first || fresh(writer)
      invariant fresh(list.links.Keys - old(list.links.Keys))
      invariant old(list.Reachable()) <= list.Reachable()
      invariant list.Reachable() <= old(list.Reachable()) + {first.x.key} + Begun(schedule[..i])
      invariant writer.x.key in {first.x.key} + Begun(schedule[..i])
      invariant reader.began == old(reader.began)
    {
      BegunMore(schedule, i);
      writer := Turn(list, writer, reader, schedule[i]);
    }
    assert schedule[..|schedule|] == schedule;
  }

  // ---------------------------------------------------------------- iterating

  predicate Beyond(low: Option<Key>, strict: bool, k: Key) {
    low.Some? ==> if strict then low.value < k else low.value <= k
  }

  ghost predicate IsLeast(ks: set<Key>, low: Option<Key>, strict: bool, n: Node?) {
    && (n == null ==> forall k | k in ks :: !Beyond(low, strict, k))
    && (n != null ==> n.key in ks && Beyond(low, strict, n.key))
    && (n != null ==> forall k | k in ks && Beyond(low, strict, k) :: n.key <= k)
  }

  ghost predicate IsGreatest(ks: set<Key>, high: Option<Key>, n: Node?) {
    && (n == null ==> forall k | k in ks :: high.Some? && high.value <= k)
    && (n != null ==> n.key in ks && (high.Some? ==> n.key < high.value))
    && (n != null ==> forall k | k in ks && (high.Some? ==> k < high.value) :: k <= n.key)
  }

  lemma SuccessorIsLeast(c: seq<Node>, head: Node, p: nat)
    requires SortedChain(c, head) && p < |c|
    ensures IsLeast(Keys(c), if p == 0 then None else Some(c[p].key), true, Successor(c, p))
  {
    forall j | 1 <= j < |c|
      ensures j <= p ==> c[j].key <= c[p].key
      ensures j > p ==> p + 1 < |c| && c[p + 1].key <= c[j].key && (p > 0 ==> c[p].key < c[j].key)
    {
    }
  }

  class Iterator {
    const list: SkipList
    var node: Node?

    ghost predicate Ok()
      reads this, list, list.links.Keys
    {
      list.Valid() && (node != null ==> node in list.chains[0] && node != list.head)
    }

    constructor (list: SkipList)
      requires list.Valid()
      ensures Ok() && this.list == list && node == null
    {
      this.list, node := list, null;
    }

    method SeekToFirst()
      requires Ok()
      modifies this
      ensures Ok() && IsLeast(list.Reachable(), None, true, node)
    {
      HeadOfLevel(list, 0);
      OnLevel(list, 0, list.head);
      NextPlace(list, 0, 0, list.head.next[0]);
      SuccessorIsLeast(list.chains[0], list.head, 0);
      hide SortedChain, Linked, Follows, IsLeast;
      node := list.head.next[0];
    }

    method Next()
      requires Ok() && node != null
      modifies this
      ensures Ok() && IsLeast(list.Reachable(), Some(old(node).key), true, node)
    {
      OnLevel(list, 0, node);
      HeadOfLevel(list, 0);
      ghost var p :| 0 <= p < |list.chains[0]| && list.chains[0][p] == node;
      NextPlace(list, 0, p, node.next[0]);
      SuccessorIsLeast(list.chains[0], list.head, p);
      hide SortedChain, Linked, Follows, IsLeast;
      node := node.next[0];
    }

    method Seek(target: Key)
      requires Ok()
      modifies this
      ensures Ok() && IsLeast(list.Reachable(), Some(target), false, node)
    {
      var x, next := Find(list, Some(target));
      OnLevel(list, 0, x);
      FollowsIsMember(list, x, next);
      node := next;
    }

    method Prev()
      requires Ok() && node != null
      modifies this
      ensures Ok() && IsGreatest(list.Reachable(), Some(old(node).key), node)
    {
      var x, next := Find(list, Some(node.key));
      node := if x == list.head then null else x;
    }

    method SeekToLast()
      requires Ok()
      modifies this
      ensures Ok() && IsGreatest(list.Reachable(), None, node)
    {
      var x, next := Find(list, None);
      node := if x == list.head then null else x;
    }
  }

  lemma FollowsIsMember(list: SkipList, x: Node, next: Node?)
    requires list.Valid() && Follows(list.chains[0], x, next)
    ensures next != null ==> next in list.chains[0] && next != list.head
  {
    assert SortedChain(list.chains[0], list.head);
  }
}
