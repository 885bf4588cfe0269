/**
  The iterator a client sees (db/db_iter.cc): one entry per user key that is live at the iterator's
  sequence number, in key order, walked in both directions over the internal entries.
*/
module DbIterators {
  import opened InternalKeys
  import opened Cursors
  import opened Mergers

  // ---------------------------------------------------------------- the list a client must see

  predicate Visible(e: Entry, s: nat) {
    e.key.sequence <= s
  }

  /** Entry `i` is the newest visible one of its user key, and not a deletion. */
  ghost predicate Shows(es: seq<Entry>, s: nat, i: nat)
    requires i < |es|
  {
    && Visible(es[i], s)
    && es[i].key.kind == TypeValue
    && forall j | 0 <= j < i && SameUserKey(es[j], es[i]) :: !Visible(es[j], s)
  }

  /** The live keys among the first `n` entries, with their values. */
  ghost function ViewTo(es: seq<Entry>, s: nat, n: nat): seq<(UserKey, Bytes)>
    requires n <= |es|
  {
    if n == 0 then []
    else ViewTo(es, s, n - 1) + if Shows(es, s, n - 1) then [(es[n - 1].key.userKey, es[n - 1].value)] else []
  }

  ghost function View(es: seq<Entry>, s: nat): seq<(UserKey, Bytes)> {
    ViewTo(es, s, |es|)
  }

  lemma {:induction false} ViewGrows(es: seq<Entry>, s: nat, a: nat, b: nat)
    requires a <= b <= |es|
    ensures ViewTo(es, s, a) <= ViewTo(es, s, b)
    decreases b
  {
    if a < b {
      ViewGrows(es, s, a, b - 1);
    }
  }

  lemma {:induction false} NothingShown(es: seq<Entry>, s: nat, a: nat, b: nat)
    requires a <= b <= |es|
    requires forall i | a <= i < b :: !Shows(es, s, i)
    ensures ViewTo(es, s, a) == ViewTo(es, s, b)
    decreases b
  {
    if a < b {
      NothingShown(es, s, a, b - 1);
    }
  }

  /** A shown entry stands in the list at the place that counts the shown entries before it. */
  lemma ShownPlace(es: seq<Entry>, s: nat, i: nat)
    requires i < |es| && Shows(es, s, i)
    ensures |ViewTo(es, s, i)| < |View(es, s)|
    ensures View(es, s)[|ViewTo(es, s, i)|] == (es[i].key.userKey, es[i].value)
    ensures |ViewTo(es, s, i + 1)| == |ViewTo(es, s, i)| + 1
  {
    ViewGrows(es, s, i + 1, |es|);
  }

  lemma {:induction false} ViewMembers(es: seq<Entry>, s: nat, n: nat, x: (UserKey, Bytes))
    requires n <= |es|
    ensures x in ViewTo(es, s, n) <==> exists i :: 0 <= i < n && Shows(es, s, i) && x == (es[i].key.userKey, es[i].value)
  {
    if n > 0 {
      ViewMembers(es, s, n - 1, x);
    }
  }

  /** The list holds exactly the keys a reader at the same sequence would find, with what it would read. */
  lemma ViewIsReads(es: seq<Entry>, s: nat, k: UserKey, v: Bytes)
    requires Sorted(es) && Unique(ToSet(es))
    ensures (k, v) in View(es, s) <==> Read(ToSet(es), k, s) == Some(v)
  {
    var S := ToSet(es);
    ViewMembers(es, s, |es|, (k, v));
    if i :| 0 <= i < |es| && Shows(es, s, i) && es[i].key.userKey == k && es[i].value == v {
      ShownIsNewest(es, s, i);
    }
    if Read(S, k, s) == Some(v) {
      var e := Newest(S, k, s).value;
      var i :| 0 <= i < |es| && es[i] == e;
      forall j | 0 <= j < i && SameUserKey(es[j], es[i]) ensures !Visible(es[j], s) {
        assert es[j] in S && Before(es[j].key, es[i].key);
      }
      assert Shows(es, s, i);
    }
  }

  lemma ShownIsNewest(es: seq<Entry>, s: nat, i: nat)
    requires Sorted(es) && i < |es| && Shows(es, s, i) && Unique(ToSet(es))
    ensures Newest(ToSet(es), es[i].key.userKey, s) == Some(es[i])
  {
    var S := ToSet(es);
    forall x | x in S && Matches(x, es[i].key.userKey, s) && x != es[i] ensures x.key.sequence < es[i].key.sequence {
      var j :| 0 <= j < |es| && es[j] == x;
      assert j > i;
    }
    NewestIs(S, es[i].key.userKey, s, es[i]);
  }

  /** Live keys come in strictly increasing order. */
  lemma {:induction false} ViewSorted(es: seq<Entry>, s: nat, n: nat)
    requires Sorted(es) && n <= |es|
    ensures forall a, b | 0 <= a < b < |ViewTo(es, s, n)| :: ViewTo(es, s, n)[a].0 < ViewTo(es, s, n)[b].0
  {
    if n > 0 {
      ViewSorted(es, s, n - 1);
      if Shows(es, s, n - 1) {
        var earlier := ViewTo(es, s, n - 1);
        forall x | x in earlier ensures x.0 < es[n - 1].key.userKey {
          ViewMembers(es, s, n - 1, x);
          var i :| 0 <= i < n - 1 && Shows(es, s, i) && x == (es[i].key.userKey, es[i].value);
          assert Before(es[i].key, es[n - 1].key);
        }
      }
    }
  }

  /** The list as a whole is in strictly increasing key order. */
  lemma KeysIncrease(es: seq<Entry>, s: nat)
    requires Sorted(es)
    ensures forall i, j | 0 <= i < j < |View(es, s)| :: View(es, s)[i].0 < View(es, s)[j].0
  {
    ViewSorted(es, s, |es|);
  }

  // ---------------------------------------------------------------- where the internal iterator stands

  /** How many entries a backward scan from `pos` has before it; none when it has run off the front. */
  function Until(es: seq<Entry>, pos: nat): (n: nat)
    ensures n <= |es|
  {
    if pos < |es| then pos + 1 else 0
  }

  /** The internal iterator stands on `cur`, or before it with nothing visible in between. */
  ghost predicate Standing(es: seq<Entry>, s: nat, pos: nat, direction: Direction, savedKey: Option<UserKey>, savedValue: Bytes, cur: nat) {
    && cur < |es| && Shows(es, s, cur)
    && pos <= |es|
    && match direction
       case Ahead => pos == cur
       case Reverse =>
         && savedKey == Some(es[cur].key.userKey) && savedValue == es[cur].value
         && Until(es, pos) <= cur
         && (pos < |es| ==> es[pos].key.userKey < es[cur].key.userKey)
         && (forall j | Until(es, pos) <= j < cur :: !Visible(es[j], s))
  }

  /** The iterator as a whole: place `at` of the list of live keys, past its end when not valid. */
  ghost predicate On(es: seq<Entry>, s: nat, pos: nat, direction: Direction, valid: bool,
      savedKey: Option<UserKey>, savedValue: Bytes, at: nat, cur: nat)
  {
    && Sorted(es)
    && pos <= |es|
    && at <= |View(es, s)|
    && (valid <==> at < |View(es, s)|)
    && (valid ==> Standing(es, s, pos, direction, savedKey, savedValue, cur))
    && (valid ==> at == |ViewTo(es, s, cur)|)
  }

  lemma UntilAt(es: seq<Entry>, pos: nat)
    ensures Until(es, pos) == if pos < |es| then pos + 1 else 0
  {
  }

  lemma NoneBefore(es: seq<Entry>, s: nat)
    ensures ViewTo(es, s, 0) == []
  {
  }

  /** At the start nothing has been passed, and nothing is to be skipped. */
  lemma FromStart(es: seq<Entry>, s: nat, skip: Option<UserKey>)
    requires Sorted(es)
    ensures Scanning(es, s, 0, 0, false, skip)
  {
    hide Sorted;
  }

  /** Going back, the iterator below stands before the entry shown, or off the front. */
  lemma StandsBefore(es: seq<Entry>, s: nat, pos: nat, savedKey: Option<UserKey>, savedValue: Bytes, cur: nat)
    requires Standing(es, s, pos, Reverse, savedKey, savedValue, cur)
    ensures cur < |es| && savedKey == Some(es[cur].key.userKey) && (pos < |es| ==> pos < cur)
    ensures forall j | (if pos < |es| then pos + 1 else 0) <= j < cur :: !Visible(es[j], s)
  {
    hide Shows;
  }

  lemma ViewOfAll(es: seq<Entry>, s: nat)
    ensures ViewTo(es, s, |es|) == View(es, s)
  {
  }

  lemma LastIs(n: nat)
    ensures Last(n) == if n == 0 then 0 else n - 1
  {
  }

  lemma NothingYet(es: seq<Entry>, s: nat, hi: nat, savedKey: Option<UserKey>, savedValue: Bytes)
    requires hi <= |es|
    ensures Holding(es, s, hi, hi, TypeDeletion, savedKey, savedValue, hi)
  {
  }

  lemma LastIsBackward(n: nat, a: nat)
    ensures Last(a) + (if a == 0 then n else 0) == Backward(n, a)
    ensures Last(0) == 0
  {
  }

  lemma OffTheEnd(es: seq<Entry>, s: nat, pos: nat, direction: Direction, savedKey: Option<UserKey>, savedValue: Bytes, cur: nat)
    requires Sorted(es) && pos <= |es|
    ensures On(es, s, pos, direction, false, savedKey, savedValue, |View(es, s)|, cur)
  {
  }

  lemma NothingBetween(es: seq<Entry>, s: nat, pos: nat, savedKey: Option<UserKey>, savedValue: Bytes, cur: nat)
    requires Standing(es, s, pos, Reverse, savedKey, savedValue, cur)
    ensures ViewTo(es, s, Until(es, pos)) == ViewTo(es, s, cur)
  {
    NothingShown(es, s, Until(es, pos), cur);
  }

  /** Some visible entry before `m` has user key `k`. */
  ghost predicate Blocked(es: seq<Entry>, s: nat, k: UserKey, m: nat)
    requires m <= |es|
  {
    exists j :: 0 <= j < m && Visible(es[j], s) && es[j].key.userKey == k
  }

  predicate Hides(skipping: bool, skip: Option<UserKey>, k: UserKey) {
    skipping && skip.Some? && k <= skip.value
  }

  ghost function Past(pos: nat, start: nat): nat {
    if pos < start then start else pos
  }

  /**
    The forward scan stands at `pos`, looking for the first shown entry at or after `start`: what `skip`
    hides is exactly what has a visible entry already passed.
  */
  ghost predicate Scanning(es: seq<Entry>, s: nat, start: nat, pos: nat, skipping: bool, skip: Option<UserKey>)
  {
    && pos <= |es| && start <= |es|
    && (skipping ==> skip.Some?)
    && (forall i | start <= i < pos :: !Shows(es, s, i))
    && (forall i | pos <= i < |es| && Visible(es[i], s) ::
          Hides(skipping, skip, es[i].key.userKey) <==> Blocked(es, s, es[i].key.userKey, Past(pos, start)))
    && (forall i | pos <= i < start && Visible(es[i], s) :: i == start - 1 && es[i].key.kind == TypeValue)
  }

  lemma ScanStart(es: seq<Entry>, s: nat, start: nat, pos: nat, skipping: bool, skip: Option<UserKey>)
    requires Scanning(es, s, start, pos, skipping, skip)
    ensures start <= |es| && pos <= |es|
  {
  }

  lemma FoundShown(es: seq<Entry>, s: nat, start: nat, pos: nat, skipping: bool, skip: Option<UserKey>, v: Bytes)
    requires Scanning(es, s, start, pos, skipping, skip) && pos < |es|
    requires Visible(es[pos], s) && es[pos].key.kind == TypeValue && !Hides(skipping, skip, es[pos].key.userKey)
    requires Sorted(es)
    ensures start <= pos && On(es, s, pos, Ahead, true, None, v, |ViewTo(es, s, start)|, pos)
  {
    assert !Blocked(es, s, es[pos].key.userKey, Past(pos, start));
    NothingShown(es, s, start, pos);
    ShownPlace(es, s, pos);
  }

  lemma FoundNothing(es: seq<Entry>, s: nat, start: nat, skipping: bool, skip: Option<UserKey>)
    requires Scanning(es, s, start, |es|, skipping, skip)
    ensures start <= |es| && ViewTo(es, s, start) == View(es, s)
  {
    NothingShown(es, s, start, |es|);
  }

  lemma PassInvisible(es: seq<Entry>, s: nat, start: nat, pos: nat, skipping: bool, skip: Option<UserKey>)
    requires Scanning(es, s, start, pos, skipping, skip) && pos < |es| && !Visible(es[pos], s)
    ensures Scanning(es, s, start, pos + 1, skipping, skip)
  {
    forall i | pos < i < |es| && Visible(es[i], s)
      ensures Blocked(es, s, es[i].key.userKey, Past(pos + 1, start)) <==> Blocked(es, s, es[i].key.userKey, Past(pos, start))
    {
    }
  }

  lemma PassHidden(es: seq<Entry>, s: nat, start: nat, pos: nat, skipping: bool, skip: Option<UserKey>)
    requires Scanning(es, s, start, pos, skipping, skip) && pos < |es| && Visible(es[pos], s)
    requires Hides(skipping, skip, es[pos].key.userKey)
    ensures Scanning(es, s, start, pos + 1, skipping, skip)
  {
    var k := es[pos].key.userKey;
    assert Blocked(es, s, k, Past(pos, start));
    forall i | pos < i < |es| && Visible(es[i], s)
      ensures Blocked(es, s, es[i].key.userKey, Past(pos + 1, start)) <==> Blocked(es, s, es[i].key.userKey, Past(pos, start))
    {
    }
    if start <= pos {
      assert !Shows(es, s, pos);
    }
  }

  lemma PassDeletion(es: seq<Entry>, s: nat, start: nat, pos: nat, skipping: bool, skip: Option<UserKey>)
    requires Scanning(es, s, start, pos, skipping, skip) && pos < |es| && Sorted(es)
    requires Visible(es[pos], s) && es[pos].key.kind == TypeDeletion
    ensures Scanning(es, s, start, pos + 1, true, Some(es[pos].key.userKey))
  {
    var k := es[pos].key.userKey;
    assert start <= pos;
    forall i | pos < i < |es| && Visible(es[i], s)
      ensures Blocked(es, s, es[i].key.userKey, Past(pos + 1, start)) <==> Hides(true, Some(k), es[i].key.userKey)
    {
      assert Before(es[pos].key, es[i].key);
      if Blocked(es, s, es[i].key.userKey, pos + 1) {
        var j :| 0 <= j < pos + 1 && Visible(es[j], s) && es[j].key.userKey == es[i].key.userKey;
        assert j < pos ==> Before(es[j].key, es[pos].key);
      }
    }
  }

  lemma ScanFromSeek(es: seq<Entry>, s: nat, target: UserKey)
    requires Sorted(es)
    ensures var pos := LowerBound(es, SeekKey(target, s)); Scanning(es, s, pos, pos, false, None)
  {
    var pos := LowerBound(es, SeekKey(target, s));
    forall i | pos <= i < |es| && Visible(es[i], s) ensures !Blocked(es, s, es[i].key.userKey, pos) {
      assert i > pos ==> Before(es[pos].key, es[i].key);
    }
  }

  /** From just before the entries of the current key: everything up to and including `cur` is to be passed. */
  lemma ScanPast(es: seq<Entry>, s: nat, cur: nat, pos: nat)
    requires Sorted(es) && pos <= cur < |es| && Shows(es, s, cur)
    requires forall j | pos <= j < cur :: !Visible(es[j], s)
    ensures Scanning(es, s, cur + 1, pos, true, Some(es[cur].key.userKey))
  {
    var skip := Some(es[cur].key.userKey);
    forall j | 0 <= j <= cur ensures es[j].key.userKey <= es[cur].key.userKey {
      assert j < cur ==> Before(es[j].key, es[cur].key);
    }
    forall i | pos <= i < |es| && Visible(es[i], s)
      ensures Hides(true, skip, es[i].key.userKey) <==> Blocked(es, s, es[i].key.userKey, cur + 1)
    {
      assert i > cur ==> Before(es[cur].key, es[i].key);
      if Hides(true, skip, es[i].key.userKey) {
        assert Visible(es[cur], s) && es[cur].key.userKey == es[i].key.userKey;
      }
    }
  }

  // ---------------------------------------------------------------- scanning backwards

  /** The first `hi - from` entries seen backwards from `hi`; `c` is the last visible one met, `hi` if none. */
  ghost predicate Backing(es: seq<Entry>, s: nat, from: nat, c: nat, hi: nat) {
    && from <= c <= hi <= |es|
    && (c < hi ==> Visible(es[c], s))
    && (forall j | from <= j < c :: !Visible(es[j], s))
    && (forall j | c < j < hi :: !Shows(es, s, j))
  }

  /** What the backward scan remembers: the value of the last visible entry met, unless that is a deletion. */
  ghost predicate Holding(es: seq<Entry>, s: nat, from: nat, hi: nat, kind: ValueType, savedKey: Option<UserKey>, savedValue: Bytes, c: nat)
  {
    && Backing(es, s, from, c, hi)
    && (kind == TypeValue <==> c < hi && es[c].key.kind == TypeValue)
    && (kind == TypeValue ==> savedKey == Some(es[c].key.userKey) && savedValue == es[c].value)
  }

  /** With a value in hand and nothing more of its key before it, the value is the one to show. */
  lemma HeldIsShown(es: seq<Entry>, s: nat, pos: nat, hi: nat, savedKey: Option<UserKey>, savedValue: Bytes, c: nat)
    requires pos <= |es| && Sorted(es) && Holding(es, s, Until(es, pos), hi, TypeValue, savedKey, savedValue, c)
    requires savedKey.Some? && (pos < |es| ==> es[pos].key.userKey < savedKey.value)
    ensures hi <= |es| && |ViewTo(es, s, hi)| > 0
    ensures On(es, s, pos, Reverse, true, savedKey, savedValue, |ViewTo(es, s, hi)| - 1, c)
  {
    forall j | 0 <= j < c ensures SameUserKey(es[j], es[c]) ==> !Visible(es[j], s) {
      assert j < pos < |es| ==> Before(es[j].key, es[pos].key);
    }
    assert Standing(es, s, pos, Reverse, savedKey, savedValue, c);
    hide Standing, Shows, Sorted;
    ShownPlace(es, s, c);
    NothingShown(es, s, c + 1, hi);
  }

  lemma NothingHeld(es: seq<Entry>, s: nat, hi: nat, savedKey: Option<UserKey>, savedValue: Bytes, c: nat)
    requires Holding(es, s, 0, hi, TypeDeletion, savedKey, savedValue, c)
    ensures hi <= |es| && ViewTo(es, s, hi) == []
  {
    NothingShown(es, s, 0, hi);
  }

  /** One more visible entry taken in: the candidate before it was hidden by it or deleted. */
  lemma TakeIn(es: seq<Entry>, s: nat, from: nat, hi: nat, kind: ValueType, savedKey: Option<UserKey>, savedValue: Bytes, c: nat)
    requires Sorted(es) && Holding(es, s, from, hi, kind, savedKey, savedValue, c)
    requires 0 < from <= |es| && Visible(es[from - 1], s)
    requires kind == TypeValue ==> savedKey.Some? && es[from - 1].key.userKey >= savedKey.value
    ensures var e := es[from - 1]; Holding(es, s, from - 1, hi, e.key.kind,
              if e.key.kind == TypeValue then Some(e.key.userKey) else None, if e.key.kind == TypeValue then e.value else [], from - 1)
  {
    if c < hi {
      assert Before(es[from - 1].key, es[c].key);
    }
  }

  lemma PassBy(es: seq<Entry>, s: nat, from: nat, hi: nat, kind: ValueType, savedKey: Option<UserKey>, savedValue: Bytes, c: nat)
    requires Holding(es, s, from, hi, kind, savedKey, savedValue, c)
    requires 0 < from <= |es| && !Visible(es[from - 1], s)
    ensures Holding(es, s, from - 1, hi, kind, savedKey, savedValue, c)
  {
  }

  /** Entries of a shown key before the one that shows it are too new to be seen. */
  lemma SameKeyHidden(es: seq<Entry>, s: nat, j: nat, p: nat)
    requires Sorted(es) && j < p < |es| && Shows(es, s, p) && es[j].key.userKey >= es[p].key.userKey
    ensures !Shows(es, s, j)
  {
    assert Before(es[j].key, es[p].key);
  }

  // ---------------------------------------------------------------- the iterator

  class DBIter {
    const iter: MergingIterator
    const sequence: nat
    var direction: Direction
    var valid: bool
    var savedKey: Option<UserKey>
    var savedValue: Bytes

    // place in the list of live keys, and the entry that shows it
    ghost var at: nat
    ghost var cur: nat

    ghost function Keys(): seq<(UserKey, Bytes)> {
      View(iter.all, sequence)
    }

    /** The iterator below is in order and shares nothing with this one. */
    ghost predicate Ready()
      reads iter, iter.Repr
    {
      this !in iter.Repr && iter.Inv()
    }

    ghost predicate Inv()
      reads this, iter, iter.Repr
    {
      Ready() && On(iter.all, sequence, iter.at, direction, valid, savedKey, savedValue, at, cur)
    }

    constructor (internal: MergingIterator, s: nat)
      requires internal.Inv()
      ensures Inv() && iter == internal && sequence == s && at == |Keys()|
    {
      iter, sequence := internal, s;
      direction, valid := Ahead, false;
      savedKey, savedValue := None, [];
      at := |View(internal.all, s)|;
      WalksUnion(internal);
      hide MergingIterator.Inv;
    }

    function Key(): (k: UserKey)
      requires Inv() && valid
      reads this, iter, iter.Repr
      ensures k == Keys()[at].0
    {
      ShownPlace(iter.all, sequence, cur);
      if direction == Ahead then iter.Current().key.userKey else savedKey.value
    }

    function Value(): (v: Bytes)
      requires Inv() && valid
      reads this, iter, iter.Repr
      ensures v == Keys()[at].1
    {
      ShownPlace(iter.all, sequence, cur);
      if direction == Ahead then iter.Current().value else savedValue
    }

    // ---- one step of the iterator below

    predicate IterValid()
      requires Ready()
      reads iter, iter.Repr
      ensures IterValid() <==> iter.at < |iter.all|
    {
      iter.Valid()
    }

    function Peek(): (e: Entry)
      requires Ready() && iter.at < |iter.all|
      reads iter, iter.Repr
      ensures e == iter.all[iter.at]
    {
      iter.Current()
    }

    lemma SortedBelow()
      requires Ready()
      ensures Sorted(iter.all) && iter.at <= |iter.all| && this !in iter.Repr
    {
      WalksUnion(iter);
    }

    lemma Parts()
      requires Inv()
      ensures Ready() && On(iter.all, sequence, iter.at, direction, valid, savedKey, savedValue, at, cur)
      ensures Sorted(iter.all) && iter.at <= |iter.all| && this !in iter.Repr
    {
      WalksUnion(iter);
    }

    lemma Shown()
      requires Inv() && valid
      ensures cur < |iter.all| && Shows(iter.all, sequence, cur) && at == |ViewTo(iter.all, sequence, cur)|
      ensures direction == Ahead ==> iter.at == cur < |iter.all|
      ensures direction == Reverse ==> Standing(iter.all, sequence, iter.at, Reverse, savedKey, savedValue, cur)
    {
    }

    lemma KeysAreView()
      ensures Keys() == View(iter.all, sequence)
    {
    }

    lemma Whole()
      requires Ready() && On(iter.all, sequence, iter.at, direction, valid, savedKey, savedValue, at, cur)
      ensures Inv()
    {
    }

    method Advance() returns (more: bool)
      requires Ready() && iter.at < |iter.all|
      modifies iter, iter.Repr
      ensures Ready() && fresh(iter.Repr - old(iter.Repr))
      ensures iter.at == old(iter.at) + 1 <= |iter.all| && (more <==> iter.at < |iter.all|)
    {
      hide MergingIterator.Inv;
      iter.Next();
      more := iter.Valid();
      WalksUnion(iter);
    }

    method FirstBelow() returns (more: bool)
      requires Ready()
      modifies iter, iter.Repr
      ensures Ready() && fresh(iter.Repr - old(iter.Repr)) && iter.at == 0 && (more <==> 0 < |iter.all|)
    {
      hide MergingIterator.Inv;
      iter.SeekToFirst();
      more := iter.Valid();
    }

    method LastBelow()
      requires Ready()
      modifies iter, iter.Repr
      ensures Ready() && fresh(iter.Repr - old(iter.Repr)) && iter.at == if |iter.all| == 0 then 0 else |iter.all| - 1
    {
      hide MergingIterator.Inv;
      iter.SeekToLast();
    }

    method SeekBelow(target: InternalKey) returns (more: bool)
      requires Ready()
      modifies iter, iter.Repr
      ensures Ready() && fresh(iter.Repr - old(iter.Repr))
      ensures iter.at == LowerBound(iter.all, target) && (more <==> iter.at < |iter.all|)
    {
      hide MergingIterator.Inv, LowerBound;
      iter.Seek(target);
      more := iter.Valid();
    }

    method Retreat() returns (more: bool)
      requires Ready() && iter.at < |iter.all|
      modifies iter, iter.Repr
      ensures Ready() && fresh(iter.Repr - old(iter.Repr))
      ensures iter.at == (if old(iter.at) == 0 then |iter.all| else old(iter.at) - 1) && (more <==> iter.at < |iter.all|)
    {
      hide MergingIterator.Inv;
      iter.Prev();
      more := iter.Valid();
      WalksUnion(iter);
    }

    // ---- forward

    /** To the next live key; off the end after the last. */
    method Next()
      requires Inv() && valid
      modifies this, iter, iter.Repr
      ensures fresh(iter.Repr - old(iter.Repr))
      ensures Inv() && at == old(at) + 1
    {
      hide *;
      ghost var es, s, p := iter.all, sequence, cur;
      Parts();
      Shown();
      ShownPlace(es, s, p);
      if direction == Reverse {
        StandsBefore(es, s, iter.at, savedKey, savedValue, p);
        direction := Ahead;
        // The code checks here that entries remain; the current key's own entry always does.
        if IterValid() {
          var more := Advance();
          assert more;
        } else {
          var more := FirstBelow();
          assert more;
        }
      } else {
        savedKey := Some(Peek().key.userKey);
      }
      ScanPast(es, s, p, iter.at);
      FindNextUserEntry(true, p + 1);
    }

    /** Scan forward to the next entry to show, skipping what `savedKey` hides. */
    method FindNextUserEntry(skip: bool, ghost start: nat)
      requires Ready() && iter.at < |iter.all| && direction == Ahead
      requires Scanning(iter.all, sequence, start, iter.at, skip, savedKey)
      requires skip ==> savedKey.Some?
      modifies this, iter, iter.Repr
      ensures fresh(iter.Repr - old(iter.Repr))
      ensures start <= |iter.all|
      ensures Inv() && at == |ViewTo(iter.all, sequence, start)|
    {
      hide *;
      ghost var es, s := iter.all, sequence;
      SortedBelow();
      ScanStart(es, s, start, iter.at, skip, savedKey);
      ghost var skipping;
      savedKey, skipping := SkipToShown(skip, savedKey, start);
      SortedBelow();
      at := |ViewTo(es, s, start)|;
      if IterValid() {
        FoundShown(es, s, start, iter.at, skipping, savedKey, savedValue);
        valid, savedKey := true, None;
        cur := iter.at;
      } else {
        FoundNothing(es, s, start, skipping, savedKey);
        valid, savedKey := false, None;
        OffTheEnd(es, s, iter.at, direction, savedKey, savedValue, cur);
      }
      Whole();
    }

    /** The loop of that scan: it ends on a visible value that nothing hides, or past the last entry. */
    method SkipToShown(skip: bool, key: Option<UserKey>, ghost start: nat) returns (skipKey: Option<UserKey>, ghost skipping: bool)
      requires Ready() && iter.at < |iter.all|
      requires Scanning(iter.all, sequence, start, iter.at, skip, key) && (skip ==> key.Some?)
      modifies iter, iter.Repr
      ensures Ready() && fresh(iter.Repr - old(iter.Repr))
      ensures Scanning(iter.all, sequence, start, iter.at, skipping, skipKey)
      ensures iter.at < |iter.all| ==>
                var e := iter.all[iter.at];
                Visible(e, sequence) && e.key.kind == TypeValue && !Hides(skipping, skipKey, e.key.userKey)
    {
      var skips := skip;
      skipKey := key;
      hide *;
      ghost var es, s := iter.all, sequence;
      SortedBelow();
      while true
        invariant Ready() && fresh(iter.Repr - old(iter.Repr)) && iter.at < |es|
        invariant Scanning(es, s, start, iter.at, skips, skipKey) && (skips ==> skipKey.Some?)
        decreases |es| - iter.at
      {
        var e := Peek();
        if Visible(e, sequence) {
          if e.key.kind == TypeDeletion {
            PassDeletion(es, s, start, iter.at, skips, skipKey);
            skips, skipKey := true, Some(e.key.userKey);
          } else if Hides(skips, skipKey, e.key.userKey) {
            PassHidden(es, s, start, iter.at, skips, skipKey);
          } else {
            break;
          }
        } else {
          PassInvisible(es, s, start, iter.at, skips, skipKey);
        }
        var more := Advance();
        if !more {
          break;
        }
      }
      skipping := skips;
    }

    /** To the previous live key; off the end from the first. */
    method Prev()
      requires Inv() && valid
      modifies this, iter, iter.Repr
      ensures fresh(iter.Repr - old(iter.Repr))
      ensures Inv() && at == Backward(|Keys()|, old(at))
    {
      hide *;
      ghost var es, s, p := iter.all, sequence, cur;
      Parts();
      Shown();
      if direction == Ahead {
        savedKey := Some(Peek().key.userKey);
        var found := BackToSmallerKey(savedKey.value, p);
        SortedBelow();
        if !found {
          NothingShown(es, s, 0, p);
          valid, savedKey, savedValue := false, None, [];
          at := |View(es, s)|;
          OffTheEnd(es, s, iter.at, direction, savedKey, savedValue, cur);
          KeysAreView();
          NoneBefore(es, s);
          LastIsBackward(|Keys()|, 0);
          Whole();
          return;
        }
        NothingShown(es, s, iter.at + 1, p);
        UntilAt(es, iter.at);
        direction := Reverse;
      } else {
        NothingBetween(es, s, iter.at, savedKey, savedValue, p);
      }
      FindPrevUserEntry(Until(es, iter.at));
      LastIsBackward(|Keys()|, |ViewTo(es, s, p)|);
    }

    /** From the shown entry back over those of the same key, to one of a smaller key if there is one. */
    method BackToSmallerKey(key: UserKey, ghost p: nat) returns (found: bool)
      requires Ready() && iter.at == p < |iter.all| && Shows(iter.all, sequence, p) && key == iter.all[p].key.userKey
      modifies iter, iter.Repr
      ensures Ready() && fresh(iter.Repr - old(iter.Repr))
      ensures found ==> iter.at < p && iter.all[iter.at].key.userKey < key
      ensures !found ==> iter.at == |iter.all|
      ensures forall j | (if found then iter.at + 1 else 0) <= j < p :: !Shows(iter.all, sequence, j)
    {
      hide *;
      ghost var es, s := iter.all, sequence;
      SortedBelow();
      while true
        invariant Ready() && fresh(iter.Repr - old(iter.Repr)) && iter.at <= p
        invariant forall j | iter.at <= j < p :: !Shows(es, s, j)
        decreases iter.at
      {
        var more := Retreat();
        if !more {
          return false;
        }
        if Peek().key.userKey < key {
          return true;
        }
        SameKeyHidden(es, s, iter.at, p);
      }
    }

    /** Scan backward for the last live key among the first `hi` entries. */
    method FindPrevUserEntry(ghost hi: nat)
      requires Ready() && direction == Reverse
      requires hi == Until(iter.all, iter.at)
      modifies this, iter, iter.Repr
      ensures fresh(iter.Repr - old(iter.Repr))
      ensures Inv() && at == Last(|ViewTo(iter.all, sequence, hi)|) + (if ViewTo(iter.all, sequence, hi) == [] then |Keys()| else 0)
    {
      hide *;
      ghost var es, s := iter.all, sequence;
      SortedBelow();
      UntilAt(es, iter.at);
      KeysAreView();
      var kind := TypeDeletion;
      ghost var c := hi;
      NothingYet(es, s, hi, savedKey, savedValue);
      if IterValid() {
        kind, savedKey, savedValue, c := CollectBack(hi);
      }
      SortedBelow();
      UntilAt(es, iter.at);
      if kind == TypeDeletion {
        NothingHeld(es, s, hi, savedKey, savedValue, c);
        valid, savedKey, savedValue := false, None, [];
        direction := Ahead;
        at := |View(es, s)|;
        OffTheEnd(es, s, iter.at, direction, savedKey, savedValue, cur);
      } else {
        HeldIsShown(es, s, iter.at, hi, savedKey, savedValue, c);
        valid := true;
        cur, at := c, |ViewTo(es, s, hi)| - 1;
      }
      LastIs(|ViewTo(es, s, hi)|);
      Whole();
    }

    /** The loop of that scan: it ends at a visible entry of a smaller key, or past the first entry. */
    method CollectBack(ghost hi: nat) returns (kind: ValueType, key: Option<UserKey>, value: Bytes, ghost c: nat)
      requires Ready() && iter.at < |iter.all| && hi == iter.at + 1
      requires Holding(iter.all, sequence, hi, hi, TypeDeletion, savedKey, savedValue, hi)
      modifies iter, iter.Repr
      ensures Ready() && fresh(iter.Repr - old(iter.Repr))
      ensures Holding(iter.all, sequence, Until(iter.all, iter.at), hi, kind, key, value, c)
      ensures kind == TypeDeletion ==> iter.at >= |iter.all|
      ensures kind == TypeValue ==> key.Some? && (iter.at < |iter.all| ==> iter.all[iter.at].key.userKey < key.value)
    {
      hide *;
      ghost var es, s := iter.all, sequence;
      SortedBelow();
      kind, key, value, c := TypeDeletion, savedKey, savedValue, hi;
      while true
        invariant Ready() && fresh(iter.Repr - old(iter.Repr)) && iter.at < |es|
        invariant Holding(es, s, iter.at + 1, hi, kind, key, value, c)
        invariant kind == TypeValue ==> key.Some?
        decreases iter.at
      {
        var e := Peek();
        if Visible(e, sequence) {
          if kind != TypeDeletion && e.key.userKey < key.value {
            break;
          }
          TakeIn(es, s, iter.at + 1, hi, kind, key, value, c);
          kind, c := e.key.kind, iter.at;
          if kind == TypeDeletion {
            key, value := None, [];
          } else {
            key, value := Some(e.key.userKey), e.value;
          }
        } else {
          PassBy(es, s, iter.at + 1, hi, kind, key, value, c);
        }
        var more := Retreat();
        if !more {
          break;
        }
      }
      UntilAt(es, iter.at);
    }

    /** To the first live key at or after `target`. */
    method Seek(target: UserKey)
      requires Inv()
      modifies this, iter, iter.Repr
      ensures Inv() && fresh(iter.Repr - old(iter.Repr))
      ensures forall i | 0 <= i < |Keys()| :: Keys()[i].0 < target <==> i < at
    {
      hide *;
      Parts();
      ghost var es, s := iter.all, sequence;
      direction, savedValue, savedKey := Ahead, [], None;
      var more := SeekBelow(SeekKey(target, sequence));
      ScanFromSeek(es, s, target);
      SortedBelow();
      if more {
        FindNextUserEntry(false, iter.at);
      } else {
        valid := false;
        at := |View(es, s)|;
        ViewOfAll(es, s);
        OffTheEnd(es, s, iter.at, direction, savedKey, savedValue, cur);
        Whole();
      }
      KeysAreView();
      KeysAround(es, s, target);
    }

    method SeekToFirst()
      requires Inv()
      modifies this, iter, iter.Repr
      ensures Inv() && fresh(iter.Repr - old(iter.Repr)) && at == 0
    {
      hide *;
      Parts();
      ghost var es, s := iter.all, sequence;
      direction, savedValue := Ahead, [];
      var more := FirstBelow();
      NoneBefore(es, s);
      if more {
        FromStart(es, s, savedKey);
        FindNextUserEntry(false, 0);
      } else {
        valid := false;
        at := |View(es, s)|;
        ViewOfAll(es, s);
        OffTheEnd(es, s, iter.at, direction, savedKey, savedValue, cur);
        Whole();
      }
    }

    method SeekToLast()
      requires Inv()
      modifies this, iter, iter.Repr
      ensures Inv() && fresh(iter.Repr - old(iter.Repr)) && at == Last(|Keys()|)
    {
      hide *;
      Parts();
      direction, savedValue := Reverse, [];
      LastBelow();
      UntilAt(iter.all, iter.at);
      ViewOfAll(iter.all, sequence);
      KeysAreView();
      FindPrevUserEntry(|iter.all|);
      LastIs(|Keys()|);
    }
  }

  /** The entries before the seek key show the live keys below `target`, those after it the others. */
  lemma KeysAround(es: seq<Entry>, s: nat, target: UserKey)
    requires Sorted(es)
    ensures forall i | 0 <= i < |View(es, s)| ::
              View(es, s)[i].0 < target <==> i < |ViewTo(es, s, LowerBound(es, SeekKey(target, s)))|
  {
    var pos := LowerBound(es, SeekKey(target, s));
    forall i | 0 <= i < |View(es, s)| ensures View(es, s)[i].0 < target <==> i < |ViewTo(es, s, pos)| {
      hide LowerBound, Shows, Sorted;
      PlaceOf(es, s, |es|, i);
      var p :| 0 <= p < |es| && Shows(es, s, p) && View(es, s)[i].0 == es[p].key.userKey && |ViewTo(es, s, p)| == i;
      KeyAround(es, s, target, p);
    }
  }

  lemma KeyAround(es: seq<Entry>, s: nat, target: UserKey, p: nat)
    requires Sorted(es) && p < |es| && Shows(es, s, p)
    ensures es[p].key.userKey < target <==> |ViewTo(es, s, p)| < |ViewTo(es, s, LowerBound(es, SeekKey(target, s)))|
  {
    var pos := LowerBound(es, SeekKey(target, s));
    assert p < pos ==> es[p].key.userKey < target;
    assert p > pos ==> Before(es[pos].key, es[p].key);
    assert p >= pos ==> target <= es[p].key.userKey;
    hide LowerBound, Shows, Sorted;
    if p < pos {
      ShownPlace(es, s, p);
      ViewGrows(es, s, p + 1, pos);
    } else {
      ViewGrows(es, s, pos, p);
    }
  }

  lemma {:induction false} PlaceOf(es: seq<Entry>, s: nat, n: nat, i: nat)
    requires n <= |es| && i < |ViewTo(es, s, n)|
    ensures exists p :: 0 <= p < n && Shows(es, s, p) && ViewTo(es, s, n)[i].0 == es[p].key.userKey && |ViewTo(es, s, p)| == i
  {
    if i < |ViewTo(es, s, n - 1)| {
      PlaceOf(es, s, n - 1, i);
    }
  }
}
