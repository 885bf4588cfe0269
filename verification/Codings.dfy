/**
  Variable-length integers and length-prefixed strings (util/coding.cc).  A decoder combines seven bits at a
  time with an inclusive or of parts that do not meet, which is their sum; what does not fit is cut off.
*/
module Codings {
  import opened InternalKeys
  import opened IntegerSizes


  // ---------------------------------------------------------------- varints

  function Varint(v: nat): (r: Bytes)
    ensures |r| > 0
  {
    if v < 128 then [v] else [128 + v % 128] + Varint(v / 128)
  }

  method EncodeVarint64(v: nat) returns (r: Bytes)
    requires v < TWO_64
    ensures r == Varint(v)
  {
    r := [];
    var left := v;
    while left >= 128
      invariant r + Varint(left) == Varint(v)
    {
      Regroup(r, [128 + left % 128], Varint(left / 128));
      r := r + [128 + left % 128];
      left := left / 128;
    }
    r := r + [left];
  }

  /** The unrolled encoder for 32 bits writes the same bytes. */
  method EncodeVarint32(v: nat) returns (r: Bytes)
    requires v < TWO_32
    ensures r == Varint(v) && |r| <= 5
  {
    hide Varint;
    if v < 0x80 {
      OneByte(v);
      r := [v];
    } else if v < 0x4000 {
      TwoBytes(v);
      r := [v % 128 + 128, v / 128];
    } else if v < 0x20_0000 {
      ThreeBytes(v);
      r := [v % 128 + 128, v / 128 % 128 + 128, v / 128 / 128];
    } else if v < 0x1000_0000 {
      FourBytes(v);
      r := [v % 128 + 128, v / 128 % 128 + 128, v / 128 / 128 % 128 + 128, v / 128 / 128 / 128];
    } else {
      FiveBytes(v);
      r := [v % 128 + 128, v / 128 % 128 + 128, v / 128 / 128 % 128 + 128, v / 128 / 128 / 128 % 128 + 128, v / 128 / 128 / 128 / 128];
    }
  }

  lemma OneByte(v: nat)
    requires v < 0x80
    ensures Varint(v) == [v]
  {
  }

  lemma OneMoreByte(v: nat)
    requires v >= 0x80
    ensures Varint(v) == [v % 128 + 128] + Varint(v / 128)
  {
  }

  lemma TwoBytes(v: nat)
    requires 0x80 <= v < 0x4000
    ensures Varint(v) == [v % 128 + 128, v / 128]
  {
    hide Varint;
    OneMoreByte(v);
    OneByte(v / 128);
  }

  lemma ThreeBytes(v: nat)
    requires 0x4000 <= v < 0x20_0000
    ensures Varint(v) == [v % 128 + 128, v / 128 % 128 + 128, v / 128 / 128]
  {
    hide Varint;
    OneMoreByte(v);
    TwoBytes(v / 128);
  }

  lemma FourBytes(v: nat)
    requires 0x20_0000 <= v < 0x1000_0000
    ensures Varint(v) == [v % 128 + 128, v / 128 % 128 + 128, v / 128 / 128 % 128 + 128, v / 128 / 128 / 128]
  {
    hide Varint;
    OneMoreByte(v);
    ThreeBytes(v / 128);
  }

  lemma FiveBytes(v: nat)
    requires 0x1000_0000 <= v < 0x8_0000_0000
    ensures Varint(v) ==
              [v % 128 + 128, v / 128 % 128 + 128, v / 128 / 128 % 128 + 128, v / 128 / 128 / 128 % 128 + 128, v / 128 / 128 / 128 / 128]
  {
    hide Varint;
    OneMoreByte(v);
    FourBytes(v / 128);
  }

  lemma Regroup(a: Bytes, b: Bytes, c: Bytes)
    ensures (a + b) + c == a + (b + c)
  {
  }

  lemma SliceOfSlice(s: Bytes, a: nat, b: nat, i: nat, j: nat)
    requires a <= b <= |s| && i <= j <= b - a
    ensures s[a..b][i..j] == s[a + i..a + j]
  {
    assert s[a..b] == s[a..a + j] + s[a + j..b];
    assert s[a..a + j] == s[a..a + i] + s[a + i..a + j];
  }

  lemma JoinSlices(s: Bytes, a: nat, b: nat, c: nat)
    requires a <= b <= c <= |s|
    ensures s[a..c] == s[a..b] + s[b..c]
  {
  }

  /** What a decoder takes off the front: a value, and how many bytes it used. */
  datatype Taken<T> = Nothing | Taken(value: T, used: nat)

  function Shift(n: nat): nat {
    if n == 0 then 1 else 128 * Shift(n - 1)
  }

  /** The decoder after `n` bytes, with `result` so far and `max` bytes allowed. */
  function TakeFrom(input: Bytes, n: nat, result: nat, max: nat): (t: Taken<nat>)
    ensures t.Taken? ==> n < t.used <= |input|
    decreases max - n
  {
    if n >= max || n >= |input| then Nothing
    else
      var byte: int := input[n];
      if byte >= 128 then TakeFrom(input, n + 1, result + (byte - 128) * Shift(n), max)
      else Taken(result + byte * Shift(n), n + 1)
  }

  function Cut(t: Taken<nat>, modulus: nat): Taken<nat>
    requires modulus > 0
  {
    if t.Taken? then Taken(t.value % modulus, t.used) else Nothing
  }

  /** GetVarint32 */
  function TakeVarint32(input: Bytes): Taken<nat> {
    Cut(TakeFrom(input, 0, 0, 5), TWO_32)
  }

  /** GetVarint64 */
  function TakeVarint64(input: Bytes): Taken<nat> {
    Cut(TakeFrom(input, 0, 0, 10), TWO_64)
  }

  /** The loop of both decoders. */
  method GetVarint(input: Bytes, max: nat, modulus: nat) returns (t: Taken<nat>)
    requires modulus > 0
    ensures t == Cut(TakeFrom(input, 0, 0, max), modulus)
  {
    var result: nat, n: nat, place: nat := 0, 0, 1;
    while n < max && n < |input|
      invariant n <= |input| && place == Shift(n)
      invariant TakeFrom(input, 0, 0, max) == TakeFrom(input, n, result, max)
    {
      var byte: int := input[n];
      if byte >= 128 {
        result := result + (byte - 128) * place;
      } else {
        return Taken((result + byte * place) % modulus, n + 1);
      }
      n, place := n + 1, 128 * place;
    }
    return Nothing;
  }

  // ---------------------------------------------------------------- what a varint stands for

  /** Seven bits a byte, the lowest first; the eighth says that there are more. */
  function TakeNumber(input: Bytes): (r: Option<(nat, Bytes)>)
    ensures r.Some? ==> |r.value.1| < |input|
  {
    if input == [] then None
    else if input[0] < 128 then Some((input[0], input[1..]))
    else
      var r := TakeNumber(input[1..]);
      if r.Some? then Some((input[0] - 128 + 128 * r.value.0, r.value.1)) else None
  }

  lemma {:induction false} NumberTaken(v: nat, rest: Bytes)
    ensures TakeNumber(Varint(v) + rest) == Some((v, rest))
    decreases v
  {
    if v < 128 {
      assert ([v] + rest)[1..] == rest;
    } else {
      var b: Byte := 128 + v % 128;
      Regroup([b], Varint(v / 128), rest);
      assert ([b] + (Varint(v / 128) + rest))[1..] == Varint(v / 128) + rest;
      NumberTaken(v / 128, rest);
    }
  }

  /** The decoders read the number that stands at the front of the input, if it takes no more bytes than they allow. */
  lemma {:induction false} TakenExactly(input: Bytes, n: nat, result: nat, max: nat)
    requires n <= |input| && n <= max
    ensures var number := TakeNumber(input[n..]);
            TakeFrom(input, n, result, max) ==
            if number.Some? && |input| - |number.value.1| <= max
            then Taken(result + number.value.0 * Shift(n), |input| - |number.value.1|) else Nothing
    decreases max - n
  {
    if n < |input| && n < max {
      var rest, b: int := input[n..], input[n];
      assert rest[0] == b && rest[1..] == input[n + 1..];
      if b >= 128 {
        TakenExactly(input, n + 1, result + (b - 128) * Shift(n), max);
        var number := TakeNumber(input[n + 1..]);
        if number.Some? {
          Weighted(b - 128, number.value.0, Shift(n));
        }
      }
    } else if n < |input| {
      TakesSome(input[n..]);
    } else {
      assert input[n..] == [];
    }
  }

  lemma TakesSome(input: Bytes)
    ensures TakeNumber(input).Some? ==> |TakeNumber(input).value.1| < |input|
  {
  }

  lemma Weighted(low: nat, high: nat, s: nat)
    ensures low * s + high * (128 * s) == (low + 128 * high) * s
  {
    assert (low + 128 * high) * s == low * s + (128 * high) * s;
    assert (128 * high) * s == high * (128 * s);
  }

  lemma {:induction false} TakeBack(before: Bytes, v: nat, rest: Bytes, result: nat, max: nat)
    requires |before| + |Varint(v)| <= max
    ensures TakeFrom(before + (Varint(v) + rest), |before|, result, max) == Taken(result + v * Shift(|before|), |before| + |Varint(v)|)
    decreases v
  {
    var n := |before|;
    var input := before + (Varint(v) + rest);
    if v >= 128 {
      var b: Byte := 128 + v % 128;
      assert Varint(v) == [b] + Varint(v / 128);
      Regroup([b], Varint(v / 128), rest);
      Regroup(before, [b], Varint(v / 128) + rest);
      assert input[n] == b;
      TakeBack(before + [b], v / 128, rest, result + (v % 128) * Shift(n), max);
      Shifted(v, Shift(n));
    } else {
      assert input[n] == v;
    }
  }

  lemma Shifted(v: nat, s: nat)
    ensures (v % 128) * s + (v / 128) * (128 * s) == v * s
  {
    var q, r := v / 128, v % 128;
    assert v == r + 128 * q;
    assert (128 * q) * s == q * (128 * s);
    assert (r + 128 * q) * s == r * s + (128 * q) * s;
  }

  lemma {:induction false} VarintLength(v: nat, n: nat)
    requires 0 < n && v < Shift(n)
    ensures |Varint(v)| <= n
    decreases n
  {
    if v >= 128 {
      assert n > 1;
      VarintLength(v / 128, n - 1);
    }
  }

  lemma Widths()
    ensures TWO_32 <= Shift(5) && TWO_64 <= Shift(10)
  {
    assert Shift(2) == 0x4000;
    assert Shift(4) == 0x1000_0000;
    assert Shift(6) == 0x400_0000_0000;
    assert Shift(8) == 0x100_0000_0000_0000;
  }

  lemma TakeFirst(v: nat, rest: Bytes, max: nat)
    requires |Varint(v)| <= max
    ensures TakeFrom(Varint(v) + rest, 0, 0, max) == Taken(v, |Varint(v)|)
  {
    TakeBack([], v, rest, 0, max);
    assert Shift(0) == 1;
    hide Varint, TakeFrom, Shift;
    assert [] + (Varint(v) + rest) == Varint(v) + rest;
  }

  lemma Varint32RoundTrip(v: nat, rest: Bytes)
    requires v < TWO_32
    ensures TakeVarint32(Varint(v) + rest) == Taken(v, |Varint(v)|)
  {
    Widths();
    VarintLength(v, 5);
    TakeFirst(v, rest, 5);
    hide Varint, TakeFrom, Shift;
  }

  lemma Varint64RoundTrip(v: nat, rest: Bytes)
    requires v < TWO_64
    ensures TakeVarint64(Varint(v) + rest) == Taken(v, |Varint(v)|)
  {
    Widths();
    VarintLength(v, 10);
    TakeFirst(v, rest, 10);
    hide Varint, TakeFrom, Shift;
  }

  // ---------------------------------------------------------------- length-prefixed strings

  /** PutLengthPrefixedSlice */
  function Prefixed(s: Bytes): (r: Bytes)
    ensures |r| > |s|
  {
    Varint(|s|) + s
  }

  /** GetLengthPrefixedSlice */
  function TakeSlice(input: Bytes): (t: Taken<Bytes>)
    ensures t.Taken? ==> 0 < t.used <= |input|
  {
    var n := TakeVarint32(input);
    if n.Taken? && n.used + n.value <= |input| then Taken(input[n.used..n.used + n.value], n.used + n.value) else Nothing
  }

  lemma SliceRoundTrip(s: Bytes, rest: Bytes)
    requires |s| < TWO_32
    ensures TakeSlice(Prefixed(s) + rest) == Taken(s, |Prefixed(s)|)
  {
    Varint32RoundTrip(|s|, s + rest);
    Regroup(Varint(|s|), s, rest);
    hide Varint, TakeVarint32;
    var input, n := Prefixed(s) + rest, |Varint(|s|)|;
    assert input[n..n + |s|] == s;
  }
}
