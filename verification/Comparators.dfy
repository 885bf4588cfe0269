/**
  The bytewise order on user keys and the order on internal keys built over it, with the short keys an index
  may use in place of real ones (util/comparator.cc, db/dbformat.cc).
*/
module Comparators {
  import opened InternalKeys

  // ---------------------------------------------------------------- bytewise order

  function Lex(a: Bytes, b: Bytes): bool {
    b != [] && (a == [] || a[0] < b[0] || (a[0] == b[0] && Lex(a[1..], b[1..])))
  }

  lemma {:induction false} LexTotal(a: Bytes, b: Bytes)
    ensures a == b || Lex(a, b) || Lex(b, a)
    ensures !(Lex(a, b) && Lex(b, a)) && !Lex(a, a)
    decreases |a|
  {
    if a != [] {
      LexTotal(a[1..], a[1..]);
      if b != [] {
        LexTotal(a[1..], b[1..]);
        assert a == [a[0]] + a[1..] && b == [b[0]] + b[1..];
      }
    }
  }

  lemma {:induction false} LexTransitive(a: Bytes, b: Bytes, c: Bytes)
    requires Lex(a, b) && Lex(b, c)
    ensures Lex(a, c)
    decreases |a|
  {
    if a != [] && b[0] == c[0] && a[0] == b[0] {
      LexTransitive(a[1..], b[1..], c[1..]);
    }
  }

  /** What two keys begin with in common does not order them. */
  lemma {:induction false} LexPrefix(a: Bytes, b: Bytes, d: nat)
    requires d <= |a| && d <= |b| && a[..d] == b[..d]
    ensures Lex(a, b) <==> Lex(a[d..], b[d..])
    decreases d
  {
    if d == 0 {
      assert a[0..] == a && b[0..] == b;
    } else {
      assert a[0] == a[..d][0] && b[0] == b[..d][0];
      assert a[1..][..d - 1] == a[..d][1..] && b[1..][..d - 1] == b[..d][1..];
      LexPrefix(a[1..], b[1..], d - 1);
      assert a[1..][d - 1..] == a[d..] && b[1..][d - 1..] == b[d..];
    }
  }

  /** The first byte that differs decides. */
  lemma LexAt(a: Bytes, b: Bytes, d: nat)
    requires d < |a| && d < |b| && a[..d] == b[..d] && a[d] != b[d]
    ensures Lex(a, b) <==> a[d] < b[d]
  {
    LexPrefix(a, b, d);
    assert a[d..][0] == a[d] && b[d..][0] == b[d];
  }

  lemma LexShorter(a: Bytes, d: nat, b: Byte)
    requires d < |a| && a[d] < b
    ensures Lex(a, a[..d] + [b])
  {
    LexAt(a, a[..d] + [b], d);
  }

  /** A key that begins with `p` up to `d` cannot be reached by a shorter one. */
  lemma PrefixesBelow(key: Bytes, t: Bytes, d: nat)
    requires d <= |key| && |t| <= d && t[..|t|] == key[..|t|] && |t| < |key|
    ensures Lex(t, key)
  {
    LexPrefix(t, key, |t|);
    assert t[|t|..] == [] && key[|t|..] != [];
  }

  lemma {:induction false} DiffersAt(a: Bytes, b: Bytes, n: nat) returns (i: nat)
    requires n <= |a| && n <= |b| && a[..n] != b[..n]
    ensures i < n && a[..i] == b[..i] && a[i] != b[i]
    decreases n
  {
    assert n > 0;
    if a[..n - 1] == b[..n - 1] {
      assert a[..n] == a[..n - 1] + [a[n - 1]] && b[..n] == b[..n - 1] + [b[n - 1]];
      i := n - 1;
    } else {
      i := DiffersAt(a, b, n - 1);
    }
  }

  /** Nothing shorter than the first byte in which two keys differ lies between them. */
  lemma NoneShorter(start: Bytes, limit: Bytes, d: nat, t: Bytes)
    requires d < |start| && d < |limit| && start[..d] == limit[..d]
    requires !Lex(t, start) && Lex(t, limit)
    ensures |t| > d
  {
    if |t| <= d {
      NotBetween(start, limit, d, t);
    }
  }

  lemma NotBetween(start: Bytes, limit: Bytes, d: nat, t: Bytes)
    requires d < |start| && d < |limit| && start[..d] == limit[..d] && |t| <= d
    ensures Lex(t, start) || !Lex(t, limit)
  {
    var n := |t|;
    assert start[..n] == start[..d][..n] && limit[..n] == limit[..d][..n];
    if t[..n] == start[..n] {
      PrefixesBelow(start, t, d);
    } else {
      var i := DiffersAt(t, start, n);
      assert start[..i] == start[..d][..i] && limit[..i] == limit[..d][..i] && limit[i] == limit[..d][i] == start[..d][i] == start[i];
      LexAt(t, start, i);
      LexAt(t, limit, i);
    }
  }

  /** The keys first differ at `d`, and there is room for a byte between theirs. */
  ghost predicate RoomAt(start: Bytes, limit: Bytes, d: nat) {
    d < |start| && d < |limit| && start[..d] == limit[..d] && start[d] as int + 1 < limit[d] as int
  }

  /** BytewiseComparatorImpl::FindShortestSeparator: it shortens the key exactly if there is room for a byte where the
      two first differ, and then to the least length that any key between them has. */
  method FindShortestSeparator(start: Bytes, limit: Bytes) returns (r: Bytes)
    ensures r == start || Lex(start, r)
    ensures Lex(start, limit) ==> Lex(r, limit)
    ensures |r| <= |start| && (start == limit ==> r == start)
    ensures r != start <==> exists d: nat :: RoomAt(start, limit, d)
    ensures forall d: nat | RoomAt(start, limit, d) :: |r| == d + 1
    ensures r != start ==> forall t | !Lex(t, start) && Lex(t, limit) :: |t| >= |r|
  {
    var min := if |start| < |limit| then |start| else |limit|;
    var diff := 0;
    while diff < min && start[diff] == limit[diff]
      invariant diff <= min && start[..diff] == limit[..diff]
    {
      assert start[..diff + 1] == start[..diff] + [start[diff]] && limit[..diff + 1] == limit[..diff] + [limit[diff]];
      diff := diff + 1;
    }
    r := start;
    if diff < min {
      var byte: int := start[diff];
      if byte < 255 && byte + 1 < limit[diff] {
        r := start[..diff] + [byte + 1];
        LexShorter(start, diff, byte + 1);
        LexAt(r, limit, diff);
        assert RoomAt(start, limit, diff);
        OneRoom(start, limit, diff);
        forall t | !Lex(t, start) && Lex(t, limit) ensures |t| >= |r| {
          NoneShorter(start, limit, diff, t);
        }
      }
    }
    if r == start {
      NoRoom(start, limit, diff);
    }
  }

  lemma NoRoom(start: Bytes, limit: Bytes, diff: nat)
    requires diff <= |start| && diff <= |limit| && start[..diff] == limit[..diff]
    requires diff == |start| || diff == |limit| || (start[diff] != limit[diff] && start[diff] as int + 1 >= limit[diff] as int)
    ensures !exists d: nat :: RoomAt(start, limit, d)
  {
    forall d: nat
      ensures !RoomAt(start, limit, d)
    {
      SameByte(start, limit, diff, d);
      SameByte(start, limit, d, diff);
    }
  }

  lemma OneRoom(start: Bytes, limit: Bytes, diff: nat)
    requires RoomAt(start, limit, diff)
    ensures forall d: nat | RoomAt(start, limit, d) :: d == diff
  {
    forall d: nat | RoomAt(start, limit, d)
      ensures d == diff
    {
      SameByte(start, limit, diff, d);
      SameByte(start, limit, d, diff);
    }
  }

  lemma SameByte(a: Bytes, b: Bytes, n: nat, i: nat)
    ensures i < n <= |a| && n <= |b| && a[..n] == b[..n] ==> a[i] == b[i]
  {
    if i < n <= |a| && n <= |b| {
      assert a[i] == a[..n][i] && b[i] == b[..n][i];
    }
  }

  /** Keys that begin with bytes of 255 are only reached by keys as long. */
  lemma HighKeys(key: Bytes, n: nat, t: Bytes)
    requires n <= |key| && (forall j | 0 <= j < n :: key[j] == 255) && |t| <= n && |t| < |key|
    ensures Lex(t, key)
  {
    if t[..|t|] == key[..|t|] {
      PrefixesBelow(key, t, n);
    } else {
      var i := DiffersAt(t, key, |t|);
      LexAt(t, key, i);
    }
  }

  /** BytewiseComparatorImpl::FindShortSuccessor: of all keys not below this one, none is shorter. */
  method FindShortSuccessor(key: Bytes) returns (r: Bytes)
    ensures r == key || Lex(key, r)
    ensures |r| <= |key| && forall t | !Lex(t, key) :: |t| >= |r|
  {
    var i := 0;
    while i < |key|
      invariant i <= |key| && forall j | 0 <= j < i :: key[j] == 255
    {
      var byte: int := key[i];
      if byte != 255 {
        r := key[..i] + [byte + 1];
        LexShorter(key, i, byte + 1);
        forall t | !Lex(t, key) ensures |t| >= |r| {
          if |t| <= i {
            HighKeys(key, i, t);
          }
        }
        return;
      }
      i := i + 1;
    }
    r := key;
    forall t | !Lex(t, key) ensures |t| >= |r| {
      if |t| < |key| {
        HighKeys(key, |key|, t);
      }
    }
  }

  // ---------------------------------------------------------------- internal keys

  // (kMaxSequenceNumber << 8) | kValueTypeForSeek
  const MAX_TAG: nat := 0xFFFF_FFFF_FFFF_FF01

  /** A user key with its packed sequence number and type. */
  datatype Key = Key(user: Bytes, tag: nat)

  predicate KeyLess(a: Key, b: Key) {
    Lex(a.user, b.user) || (a.user == b.user && a.tag > b.tag)
  }

  lemma KeyTransitive(a: Key, b: Key, c: Key)
    requires KeyLess(a, b) && KeyLess(b, c)
    ensures KeyLess(a, c)
  {
    if Lex(a.user, b.user) && Lex(b.user, c.user) {
      LexTransitive(a.user, b.user, c.user);
    }
  }

  /** Not below `start`, below `limit`, and if it is not `start` itself then of a user key below the limit's. */
  ghost predicate Separates(start: Key, r: Key, limit: Key) {
    r == start || (KeyLess(start, r) && KeyLess(r, limit) && Lex(r.user, limit.user))
  }

  /** InternalKeyComparator::FindShortestSeparator */
  method SeparateKeys(start: Key, limit: Key) returns (r: Key)
    requires KeyLess(start, limit)
    ensures Separates(start, r, limit)
    ensures |r.user| <= |start.user| && (r == start || r.tag == MAX_TAG)
    ensures r.user != start.user <==> exists d: nat :: RoomAt(start.user, limit.user, d) && d + 1 < |start.user|
    ensures r.user == start.user ==> r == start
  {
    var tmp := FindShortestSeparator(start.user, limit.user);
    r := start;
    if |tmp| < |start.user| && Lex(start.user, tmp) {
      r := Key(tmp, MAX_TAG);
    }
  }

  /** InternalKeyComparator::FindShortSuccessor */
  method SucceedKey(key: Key) returns (r: Key)
    ensures r == key || KeyLess(key, r)
    ensures |r.user| <= |key.user| && (r == key || r.tag == MAX_TAG)
    ensures forall t | !Lex(t, key.user) :: |t| >= |r.user|
    ensures r.user == key.user ==> r == key
  {
    var tmp := FindShortSuccessor(key.user);
    r := key;
    if |tmp| < |key.user| && Lex(key.user, tmp) {
      r := Key(tmp, MAX_TAG);
    }
  }
}
