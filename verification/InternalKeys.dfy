/** Internal keys, sorted entry lists and the meaning of a read (db/dbformat.h, db/dbformat.cc).

  A user key is named by its place in the comparator's order.  The code only ever compares user keys,
  the comparator is the caller's, and every total order on the countable set of byte strings embeds in
  the rationals, so ordering keys as `real` loses nothing.
*/
module InternalKeys {

  datatype Option<+T> = None | Some(value: T)

  type UserKey = real
  type Byte = b: int | 0 <= b < 256
  type Bytes = seq<Byte>

  datatype ValueType = TypeDeletion | TypeValue

  // kMaxSequenceNumber: the low eight bits of a packed tag hold the value type
  const MAX_SEQUENCE: nat := 0xFF_FFFF_FFFF_FFFF

  datatype InternalKey = InternalKey(userKey: UserKey, sequence: nat, kind: ValueType)
  datatype Entry = Entry(key: InternalKey, value: Bytes)

  /** One operation of a write batch; its keys are taken by their place in the order, or as bytes. */
  datatype Op<+K> = Put(key: K, value: Bytes) | Delete(key: K)

  /** Increasing user key, then decreasing sequence, then decreasing type. */
  predicate Before(a: InternalKey, b: InternalKey) {
    || a.userKey < b.userKey
    || (a.userKey == b.userKey &&
        (|| a.sequence > b.sequence
         || (a.sequence == b.sequence && a.kind == TypeValue && b.kind == TypeDeletion)))
  }

  /** PackSequenceAndType */
  function Tag(k: InternalKey): nat {
    k.sequence * 256 + (if k.kind == TypeValue then 1 else 0)
  }

  /** The comparator looks at the packed tags only; the order is the one above. */
  lemma TagOrder(a: InternalKey, b: InternalKey)
    ensures Before(a, b) <==> a.userKey < b.userKey || (a.userKey == b.userKey && Tag(a) > Tag(b))
  {
  }

  /** The key that sorts before every entry of `k` written at or below `s` (LookupKey, kValueTypeForSeek). */
  function SeekKey(k: UserKey, s: nat): InternalKey {
    InternalKey(k, s, TypeValue)
  }

  ghost predicate Sorted(es: seq<Entry>) {
    forall i, j | 0 <= i < j < |es| :: Before(es[i].key, es[j].key)
  }

  ghost function ToSet(es: seq<Entry>): set<Entry> {
    set e | e in es
  }

  // ---------------------------------------------------------------- what a read means

  predicate SameUserKey(a: Entry, b: Entry) {
    a.key.userKey == b.key.userKey
  }

  predicate Matches(e: Entry, k: UserKey, s: nat) {
    e.key.userKey == k && e.key.sequence <= s
  }

  /** No user key is written twice with one sequence number. */
  ghost predicate Unique(S: set<Entry>) {
    forall a, b | a in S && b in S && SameUserKey(a, b) && a.key.sequence == b.key.sequence :: a == b
  }

  ghost predicate IsNewest(S: set<Entry>, k: UserKey, s: nat, e: Entry) {
    && e in S
    && Matches(e, k, s)
    && forall x | x in S && Matches(x, k, s) && x != e :: x.key.sequence < e.key.sequence
  }

  /** The newest entry for `k` at or below sequence `s`. */
  ghost function Newest(S: set<Entry>, k: UserKey, s: nat): (r: Option<Entry>)
    ensures r.Some? ==> IsNewest(S, k, s, r.value)
  {
    if e :| IsNewest(S, k, s, e) then Some(e) else None
  }

  /** What a reader at snapshot `s` must see: the newest value, or nothing if that is a deletion. */
  ghost function Read(S: set<Entry>, k: UserKey, s: nat): Option<Bytes> {
    match Newest(S, k, s)
    case Some(e) => if e.key.kind == TypeValue then Some(e.value) else None
    case None => None
  }

  lemma NewestIs(S: set<Entry>, k: UserKey, s: nat, e: Entry)
    requires IsNewest(S, k, s, e)
    ensures Newest(S, k, s) == Some(e)
  {
    assert e in S && Matches(e, k, s);
  }

  lemma {:induction false} NewestExists(S: set<Entry>, k: UserKey, s: nat)
    requires Unique(S)
    ensures Newest(S, k, s) == None <==> forall x | x in S :: !Matches(x, k, s)
    decreases |S|
  {
    if x :| x in S && Matches(x, k, s) {
      var T := S - {x};
      NewestExists(T, k, s);
      if n :| IsNewest(T, k, s, n) {
        var m := if n.key.sequence < x.key.sequence then x else n;
        assert IsNewest(S, k, s, m);
      } else {
        assert IsNewest(S, k, s, x);
      }
    }
  }

  /** Two bodies of data that agree on what is the newest value read alike. */
  lemma SameReads(S: set<Entry>, T: set<Entry>, k: UserKey, s: nat)
    requires Unique(S) && Unique(T)
    requires forall e :: IsNewest(S, k, s, e) && e.key.kind == TypeValue ==> IsNewest(T, k, s, e)
    requires forall e :: IsNewest(T, k, s, e) && e.key.kind == TypeValue ==> IsNewest(S, k, s, e)
    ensures Read(S, k, s) == Read(T, k, s)
  {
    var a, b := Newest(S, k, s), Newest(T, k, s);
    if a.Some? && a.value.key.kind == TypeValue {
      NewestIs(T, k, s, a.value);
    }
    if b.Some? && b.value.key.kind == TypeValue {
      NewestIs(S, k, s, b.value);
    }
  }

  // ---------------------------------------------------------------- layers: newer data hides older data

  /** On every user key the entries of `a` were written after those of `b`. */
  ghost predicate Newer(a: set<Entry>, b: set<Entry>) {
    forall x, y | x in a && y in b && SameUserKey(x, y) :: x.key.sequence > y.key.sequence
  }

  lemma NewerThan(a: set<Entry>, b: set<Entry>, x: Entry, y: Entry)
    requires Newer(a, b) && x in a && y in b && SameUserKey(x, y)
    ensures x.key.sequence > y.key.sequence
  {
  }

  lemma NothingIsNewer(a: set<Entry>)
    ensures Newer({}, a) && Newer(a, {})
  {
  }

  lemma NewerSubset(a: set<Entry>, b: set<Entry>, c: set<Entry>)
    requires Newer(a, b) && c <= b
    ensures Newer(a, c)
  {
  }

  lemma NewerUnion(a: set<Entry>, b: set<Entry>, c: set<Entry>)
    ensures Newer(a + b, c) <==> Newer(a, c) && Newer(b, c)
    ensures Newer(c, a + b) <==> Newer(c, a) && Newer(c, b)
  {
  }

  lemma UniqueSubset(a: set<Entry>, b: set<Entry>)
    requires Unique(b) && a <= b
    ensures Unique(a)
  {
  }

  /** Looking in the newer layer first, and in the older only when it has nothing, finds the newest. */
  lemma NewestOfLayers(a: set<Entry>, b: set<Entry>, k: UserKey, s: nat)
    requires Newer(a, b) && Unique(a) && Unique(b)
    ensures Unique(a + b)
    ensures Newest(a + b, k, s) == if Newest(a, k, s).Some? then Newest(a, k, s) else Newest(b, k, s)
  {
    NewestExists(a, k, s);
    NewestExists(b, k, s);
    NewestExists(a + b, k, s);
    if Newest(a, k, s).Some? {
      NewestIs(a + b, k, s, Newest(a, k, s).value);
    } else if Newest(b, k, s).Some? {
      NewestIs(a + b, k, s, Newest(b, k, s).value);
    }
  }

  // ---------------------------------------------------------------- search in one sorted list

  /** Index of the first entry at or after `target`. */
  function LowerBound(es: seq<Entry>, target: InternalKey): (r: nat)
    ensures r <= |es|
    ensures forall i | 0 <= i < r :: Before(es[i].key, target)
    ensures r < |es| ==> !Before(es[r].key, target)
  {
    if |es| == 0 || !Before(es[0].key, target) then 0 else 1 + LowerBound(es[1..], target)
  }

  /** Seek to the lookup key and keep the entry only if it belongs to the user key
      (MemTable::Get, and Table::InternalGet followed by SaveValue). */
  function SeekGet(es: seq<Entry>, k: UserKey, s: nat): Option<Entry> {
    var i := LowerBound(es, SeekKey(k, s));
    if i < |es| && es[i].key.userKey == k then Some(es[i]) else None
  }

  lemma SeekGetIsNewest(es: seq<Entry>, k: UserKey, s: nat)
    requires Sorted(es) && Unique(ToSet(es))
    ensures SeekGet(es, k, s) == Newest(ToSet(es), k, s)
  {
    var i := LowerBound(es, SeekKey(k, s));
    NewestExists(ToSet(es), k, s);
    if i < |es| && es[i].key.userKey == k {
      forall x | x in ToSet(es) && Matches(x, k, s) && x != es[i]
        ensures x.key.sequence < es[i].key.sequence
      {
        var j :| 0 <= j < |es| && es[j] == x;
        assert i < j;
        assert es[i] in ToSet(es);
      }
      NewestIs(ToSet(es), k, s, es[i]);
    } else {
      forall x | x in ToSet(es)
        ensures !Matches(x, k, s)
      {
        var j :| 0 <= j < |es| && es[j] == x;
        assert i < j ==> Before(es[i].key, es[j].key);
      }
    }
  }

  // ---------------------------------------------------------------- sorted lists as data

  /** MemTable::Add: the entry goes to its place in the order. */
  function Insert(es: seq<Entry>, e: Entry): (r: seq<Entry>)
    ensures |r| == |es| + 1
  {
    var i := LowerBound(es, e.key);
    es[..i] + [e] + es[i..]
  }

  lemma EmptySorted()
    ensures Sorted([])
  {
  }

  lemma SortedConcat(a: seq<Entry>, b: seq<Entry>)
    requires Sorted(a) && Sorted(b)
    requires forall x, y | x in a && y in b :: Before(x.key, y.key)
    ensures Sorted(a + b)
  {
    hide Before;
    forall i, j | 0 <= i < j < |a + b| ensures Before((a + b)[i].key, (a + b)[j].key) {
      if i < |a| <= j {
        assert (a + b)[i] in a && (a + b)[j] in b;
      }
    }
  }

  /** A list cut in two: both halves are sorted and the first lies before the second. */
  lemma SortedCut(es: seq<Entry>, i: nat)
    requires Sorted(es) && i <= |es|
    ensures Sorted(es[..i]) && Sorted(es[i..]) && es == es[..i] + es[i..]
    ensures forall x, y | x in es[..i] && y in es[i..] :: Before(x.key, y.key)
  {
    hide Before;
    forall x, y | x in es[..i] && y in es[i..] ensures Before(x.key, y.key) {
      var a :| 0 <= a < i && es[a] == x;
      var b :| 0 <= b < |es| - i && es[i..][b] == y;
      assert es[i + b] == y;
    }
  }

  /** What follows the lower bound of an absent key lies after it. */
  lemma AfterLowerBound(es: seq<Entry>, key: InternalKey, y: Entry)
    requires Sorted(es)
    requires forall x | x in es :: x.key != key
    requires y in es[LowerBound(es, key)..]
    ensures Before(key, y.key)
  {
    var i := LowerBound(es, key);
    var b :| 0 <= b < |es| - i && es[i..][b] == y;
    assert es[i] in es && !Before(es[i].key, key);
    assert b > 0 ==> Before(es[i].key, es[i + b].key);
  }

  lemma SortedAround(a: seq<Entry>, e: Entry, b: seq<Entry>)
    requires Sorted(a) && Sorted(b)
    requires forall x | x in a :: Before(x.key, e.key)
    requires forall y | y in b :: Before(e.key, y.key)
    requires forall x, y | x in a && y in b :: Before(x.key, y.key)
    ensures Sorted(a + [e] + b)
  {
    hide Before;
    SortedConcat(a, [e]);
    SortedConcat(a + [e], b);
  }

  lemma InsertKeepsSorted(es: seq<Entry>, e: Entry)
    requires Sorted(es)
    requires forall x | x in es :: x.key != e.key
    ensures Sorted(Insert(es, e))
    ensures ToSet(Insert(es, e)) == ToSet(es) + {e}
  {
    var i := LowerBound(es, e.key);
    SortedCut(es, i);
    hide Sorted;
    forall y | y in es[i..] ensures Before(e.key, y.key) {
      AfterLowerBound(es, e.key, y);
    }
    hide LowerBound, Before;
    forall x | x in es[..i] ensures Before(x.key, e.key) {
      var j :| 0 <= j < i && es[j] == x;
    }
    SortedAround(es[..i], e, es[i..]);
    assert forall x :: x in Insert(es, e) <==> x in es[..i] || x == e || x in es[i..];
  }

  /** Merge of two sorted lists, smaller key first. */
  function Merge(a: seq<Entry>, b: seq<Entry>): seq<Entry>
    decreases |a| + |b|
  {
    if a == [] then b
    else if b == [] then a
    else if Before(b[0].key, a[0].key) then [b[0]] + Merge(a, b[1..])
    else [a[0]] + Merge(a[1..], b)
  }

  lemma {:induction false} MergeElements(a: seq<Entry>, b: seq<Entry>)
    ensures forall x :: x in Merge(a, b) <==> x in a || x in b
    decreases |a| + |b|
  {
    if a != [] && b != [] {
      assert a == [a[0]] + a[1..] && b == [b[0]] + b[1..];
      if Before(b[0].key, a[0].key) {
        MergeElements(a, b[1..]);
      } else {
        MergeElements(a[1..], b);
      }
    }
  }

  lemma {:induction false} MergeSorted(a: seq<Entry>, b: seq<Entry>)
    requires Sorted(a) && Sorted(b)
    requires forall x, y | x in a && y in b :: x.key != y.key
    ensures Sorted(Merge(a, b))
    decreases |a| + |b|
  {
    if a != [] && b != [] {
      SortedCut(a, 1);
      SortedCut(b, 1);
      assert a[..1] == [a[0]] && b[..1] == [b[0]];
      assert a[0] in a && b[0] in b;
      if Before(b[0].key, a[0].key) {
        MergeSorted(a, b[1..]);
        MergeElements(a, b[1..]);
        HeadFirst(b[0], a, b[1..]);
      } else {
        MergeSorted(a[1..], b);
        MergeElements(a[1..], b);
        HeadFirst(a[0], b, a[1..]);
      }
    }
  }

  /** The smaller head comes before the merge of what remains. */
  lemma HeadFirst(e: Entry, other: seq<Entry>, rest: seq<Entry>)
    requires other != [] && Sorted(other) && Before(e.key, other[0].key)
    requires forall y | y in rest :: Before(e.key, y.key)
    ensures forall m | Sorted(m) && (forall x | x in m :: x in other || x in rest) :: Sorted([e] + m)
  {
    forall x | x in other ensures Before(e.key, x.key) {
      var j :| 0 <= j < |other| && other[j] == x;
      assert j > 0 ==> Before(other[0].key, other[j].key);
    }
    forall m | Sorted(m) && (forall x | x in m :: x in other || x in rest) ensures Sorted([e] + m) {
      SortedConcat([e], m);
    }
  }
}
