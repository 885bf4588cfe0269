/**
  The nanopb encoder (nanopb/pb_encode.c).  What a struct is on the wire is a function of descriptor and
  struct; the encoder, which runs over every submessage twice, first only counting, writes just that.
*/
module PbEncoders {
  import opened IntegerSizes
  import opened InternalKeys
  import opened Codings
  import opened PbFields

  // ---------------------------------------------------------------- the wire format

  /** The bytes of a struct, or that it cannot be encoded. */
  datatype Encoded = Refused | Wire(bytes: Bytes)

  function Join(a: Encoded, b: Encoded): Encoded {
    if a.Wire? && b.Wire? then Wire(a.bytes + b.bytes) else Refused
  }

  lemma Associate(a: Encoded, b: Encoded, c: Encoded)
    ensures Join(Join(a, b), c) == Join(a, Join(b, c))
  {
    if a.Wire? && b.Wire? && c.Wire? {
      Regroup(a.bytes, b.bytes, c.bytes);
    }
  }

  lemma JoinNothing(a: Encoded)
    ensures Join(a, Wire([])) == a
  {
    if a.Wire? {
      assert a.bytes + [] == a.bytes;
    }
  }

  function WireType(t: LType): (w: nat)
    ensures w < 8
  {
    match t
    case SignedVarint => 0
    case UnsignedVarint => 0
    case ZigZag => 0
    case Fixed64 => 1
    case Fixed32 => 5
    case _ => 2
  }

  function TagBytes(tag: nat, wireType: nat): Bytes {
    Varint(8 * tag + wireType)
  }

  function LittleEndian(n: nat, width: nat): (r: Bytes)
    ensures |r| == width
  {
    if width == 0 then [] else [n % 256] + LittleEndian(n / 256, width - 1)
  }

  /** The conversion of a signed to an unsigned integer of 64 bits. */
  function Unsigned(n: int): (u: nat)
    ensures u < TWO_64
  {
    n % TWO_64
  }

  /** Shifted one to the left, and complemented when negative. */
  function ZigZagged(n: int): (z: nat)
    ensures z < TWO_64
  {
    var shifted := 2 * Unsigned(n) % TWO_64;
    if n < 0 then TWO_64 - 1 - shifted else shifted
  }

  lemma ZigZagIs(n: int)
    requires -HalfRange(8) <= n < HalfRange(8)
    ensures ZigZagged(n) == if n < 0 then -2 * n - 1 else 2 * n
  {
    if n < 0 {
      assert Unsigned(n) == n + TWO_64;
      assert 2 * Unsigned(n) % TWO_64 == 2 * n + TWO_64;
    } else {
      assert Unsigned(n) == n;
      assert 2 * n % TWO_64 == 2 * n;
    }
  }

  /** How many numbers so many bytes can hold. */
  function Places(width: nat): nat {
    if width == 0 then 1 else 256 * Places(width - 1)
  }

  lemma FixedSizes()
    ensures Places(4) == TWO_32 && Places(8) == TWO_64
  {
    assert Places(2) == 0x1_0000;
    assert Places(6) == 0x1_0000 * TWO_32;
  }

  function EncodeNumber(t: LType, size: nat, n: int): Encoded
    requires Packable(t) && NumberFits(t, size, n)
  {
    match t
    case SignedVarint => if ValidSize(size) then Wire(Varint(Unsigned(n))) else Refused
    case UnsignedVarint => if ValidSize(size) then Wire(Varint(n)) else Refused
    case ZigZag => if ValidSize(size) then Wire(Varint(ZigZagged(n))) else Refused
    case Fixed32 => Wire(LittleEndian(n, 4))
    case Fixed64 => Wire(LittleEndian(n, 8))
  }

  /** The length of the string in a buffer that may lack a terminator. */
  function StringLength(buffer: Bytes): (n: nat)
    ensures n <= |buffer| && (forall k | 0 <= k < n :: buffer[k] != 0) && (n < |buffer| ==> buffer[n] == 0)
  {
    if buffer == [] || buffer[0] == 0 then 0 else 1 + StringLength(buffer[1..])
  }

  ghost function Delimited(e: Encoded): Encoded {
    if e.Wire? then Wire(Prefixed(e.bytes)) else Refused
  }

  ghost function EncodeItem(f: Field, item: Item): Encoded
    requires ItemFits(f, item)
    decreases f, 0
  {
    match f.ltype
    case Submessage => Delimited(EncodeFrom(f.sub, 0, item.slots))
    case ByteArray => if item.count + COUNT_SIZE > f.dataSize then Refused else Wire(Prefixed(item.buffer[..item.count]))
    case CString => Wire(Prefixed(item.buffer[..StringLength(item.buffer)]))
    case FixedBytes => Wire(Prefixed(item.buffer))
    case _ => EncodeNumber(f.ltype, f.dataSize, item.n)
  }

  ghost predicate AllFit(f: Field, items: seq<Item>) {
    forall k | 0 <= k < |items| :: ItemFits(f, items[k])
  }

  ghost function EncodeElement(f: Field, item: Item, tagged: bool): Encoded
    requires ItemFits(f, item)
    decreases f, 1, 0
  {
    if tagged then Join(Wire(TagBytes(f.tag, WireType(f.ltype))), EncodeItem(f, item)) else EncodeItem(f, item)
  }

  /** Elements one after the other, `tagged` each with its own tag or packed without. */
  ghost function EncodeItems(f: Field, items: seq<Item>, tagged: bool): Encoded
    requires AllFit(f, items)
    decreases f, 1, |items| + 1
  {
    if items == [] then Wire([])
    else
      Join(EncodeElement(f, items[0], tagged), EncodeItems(f, items[1..], tagged))
  }

  ghost function EncodeArray(f: Field, items: seq<Item>, count: nat): Encoded
    requires AllFit(f, items) && |items| == f.arraySize
    decreases f, 2
  {
    if count == 0 then Wire([])
    else if count > f.arraySize then Refused
    else if Packable(f.ltype) then
      Join(Wire(TagBytes(f.tag, 2)), Delimited(EncodeItems(f, items[..count], false)))
    else EncodeItems(f, items[..count], true)
  }

  ghost predicate Present(f: Field, slot: Slot)
    requires !f.kind.Repeated?
  {
    f.kind.Required? || (f.kind.Optional? && slot.size != 0) || (f.kind.Oneof? && slot.size == f.tag)
  }

  ghost function EncodeField(f: Field, slot: Slot): Encoded
    requires SlotFits(f, slot)
    decreases f, 3
  {
    if f.kind.Repeated? then EncodeArray(f, slot.items, slot.size)
    else if Present(f, slot) then EncodeElement(f, slot.items[0], true)
    else Wire([])
  }

  /** The fields from number `i` on. */
  ghost function EncodeFrom(fields: seq<Field>, i: nat, slots: seq<Slot>): Encoded
    requires i <= |fields| && StructFits(fields, slots)
    decreases fields, |fields| - i
  {
    if i == |fields| then Wire([])
    else
      assert FieldFits(fields, i, slots);
      SlotBound(fields, i);
      Join(EncodeField(fields[i], slots[SlotOf(fields, i)]), EncodeFrom(fields, i + 1, slots))
  }

  // ---------------------------------------------------------------- output streams

  /** A stream as a value; `buf` is all the memory it writes to. */
  datatype OState = OState(writing: bool, buf: Bytes, state: nat, max: nat, written: nat)

  /** What a call that is to write `e` does: all of it, or as much as happened before it failed; never past the
      limit, and nothing but `buf[a.state..b.state]` is touched. */
  ghost predicate Advances(a: OState, e: Encoded, ok: bool, b: OState) {
    && b.writing == a.writing && b.max == a.max && |b.buf| == |a.buf|
    && ok == (e.Wire? && (a.writing ==> a.written + |e.bytes| <= a.max))
    && (ok ==> b.written == a.written + |e.bytes|)
    && (!a.writing ==> b.buf == a.buf)
    && (a.writing ==> b.written <= a.max && Writes(a, b))
    && (ok && a.writing ==> b.buf[a.state..b.state] == e.bytes)
  }

  ghost predicate Writes(a: OState, b: OState) {
    && |b.buf| == |a.buf|
    && a.state <= b.state <= |a.buf| && b.state - a.state == b.written - a.written
    && b.buf[..a.state] == a.buf[..a.state]
    && b.buf[b.state..] == a.buf[b.state..]
  }

  lemma WritesOn(a: OState, b: OState, c: OState)
    requires Writes(a, b) && Writes(b, c)
    ensures Writes(a, c)
    ensures c.buf[a.state..c.state] == b.buf[a.state..b.state] + c.buf[b.state..c.state]
  {
    assert c.buf[..a.state] == c.buf[..b.state][..a.state];
    assert b.buf[..a.state] == b.buf[..b.state][..a.state];
    assert b.buf[c.state..] == b.buf[b.state..][c.state - b.state..];
    assert a.buf[c.state..] == a.buf[b.state..][c.state - b.state..];
    assert c.buf[a.state..b.state] == c.buf[..b.state][a.state..];
    assert b.buf[a.state..b.state] == b.buf[..b.state][a.state..];
  }

  lemma AdvancesOn(a: OState, e: Encoded, b: OState, f: Encoded, ok: bool, c: OState)
    requires Advances(a, e, true, b) && Advances(b, f, ok, c)
    ensures Advances(a, Join(e, f), ok, c)
  {
    hide Writes;
    if a.writing {
      WritesOn(a, b, c);
    }
  }

  lemma Stops(a: OState, e: Encoded, b: OState, f: Encoded)
    requires Advances(a, e, false, b)
    ensures Advances(a, Join(e, f), false, b)
  {
  }

  lemma AdvancesNot(a: OState)
    requires a.writing ==> a.written <= a.max && a.state <= |a.buf|
    ensures Advances(a, Wire([]), true, a)
    ensures Advances(a, Refused, false, a)
  {
  }

  class OutputStream {
    const writing: bool
    const buffer: array<Byte>
    var state: nat
    const maxSize: nat
    var written: nat

    ghost predicate Valid()
      reads this
    {
      writing ==> written <= maxSize && state + (maxSize - written) <= buffer.Length
    }

    ghost function Now(): OState
      reads this, buffer
    {
      OState(writing, buffer[..], state, maxSize, written)
    }

    /** pb_ostream_from_buffer, and the stream a submessage is written to */
    constructor OnBuffer(memory: array<Byte>, start: nat, size: nat)
      requires start + size <= memory.Length
      ensures Valid() && buffer == memory
      ensures Now() == OState(true, memory[..], start, size, 0)
    {
      writing, buffer, state, maxSize, written := true, memory, start, size, 0;
    }

    /** PB_OSTREAM_SIZING: a stream without a callback only counts. */
    constructor Sizing()
      ensures Valid() && fresh(buffer) && Now() == OState(false, [], 0, 0, 0)
    {
      var nowhere := new Byte[0];
      writing, buffer, state, maxSize, written := false, nowhere, 0, 0, 0;
    }

    /** pb_write; there need not be any data when the stream only counts. */
    method Write(data: Bytes, count: nat) returns (ok: bool)
      requires Valid() && (writing ==> |data| == count)
      modifies this, buffer
      ensures Valid()
      ensures forall e: Bytes | |e| == count && (writing ==> e == data) :: Advances(old(Now()), Wire(e), ok, Now())
    {
      if writing {
        if written + count > maxSize {
          return false;
        }
        var dest := state;
        state := dest + count;
        Copy(dest, data);
        assert buffer[dest..state] == data;
      }
      written := written + count;
      return true;
    }

    /** The loop of buf_write */
    method Copy(dest: nat, data: Bytes)
      requires dest + |data| <= buffer.Length
      modifies buffer
      ensures buffer[..] == old(buffer[..dest]) + data + old(buffer[dest + |data|..])
    {
      for i := 0 to |data|
        invariant buffer[..] == old(buffer[..dest]) + data[..i] + old(buffer[dest + i..])
      {
        buffer[dest + i] := data[i];
      }
      assert data[..|data|] == data;
    }
  }

  // ---------------------------------------------------------------- simple values

  /** All bytes of a varint with the top bit still set. */
  function Unfinished(v: nat): Bytes {
    if v == 0 then [] else [128 + v % 128] + Unfinished(v / 128)
  }

  lemma {:induction false} Finished(v: nat)
    requires v > 0
    ensures |Unfinished(v)| == |Varint(v)|
    ensures Unfinished(v)[|Unfinished(v)| - 1] >= 128
    ensures Varint(v) == Unfinished(v)[..|Unfinished(v)| - 1] + [Unfinished(v)[|Unfinished(v)| - 1] - 128]
  {
    if v >= 128 {
      Finished(v / 128);
      var rest := Unfinished(v / 128);
      assert Unfinished(v) == [128 + v % 128] + rest;
      assert Unfinished(v)[..|rest|] == [128 + v % 128] + rest[..|rest| - 1];
    } else {
      assert Unfinished(v) == [128 + v];
    }
  }

  /** The loop of pb_encode_varint, which has room for ten bytes, and the last byte put right after it. */
  method VarintBytes(value: nat) returns (bytes: Bytes)
    requires value > 0
    ensures bytes == Varint(value)
    ensures value < TWO_64 ==> |bytes| <= 10
  {
    Finished(value);
    if value < TWO_64 {
      Widths();
      VarintLength(value, 10);
    }
    hide Varint, Shift;
    var left := value;
    bytes := [];
    while left != 0
      invariant bytes + Unfinished(left) == Unfinished(value)
    {
      Regroup(bytes, [128 + left % 128], Unfinished(left / 128));
      bytes := bytes + [128 + left % 128];
      left := left / 128;
    }
    assert bytes == Unfinished(value);
    var last := |bytes| - 1;
    bytes := bytes[..last] + [bytes[last] - 128];
  }

  /** pb_encode_varint */
  method EncodeVarint(stream: OutputStream, value: nat) returns (ok: bool)
    requires stream.Valid()
    modifies stream, stream.buffer
    ensures stream.Valid()
    ensures Advances(old(stream.Now()), Wire(Varint(value)), ok, stream.Now())
  {
    hide Advances;
    if value <= 0x7F {
      assert Varint(value) == [value];
      ok := stream.Write([value], 1);
    } else {
      var bytes := VarintBytes(value);
      ok := stream.Write(bytes, |bytes|);
    }
  }

  /** pb_encode_fixed32 and pb_encode_fixed64 */
  method EncodeFixed(stream: OutputStream, value: nat, width: nat) returns (ok: bool)
    requires stream.Valid()
    modifies stream, stream.buffer
    ensures stream.Valid()
    ensures Advances(old(stream.Now()), Wire(LittleEndian(value, width)), ok, stream.Now())
  {
    var bytes: Bytes, left := [], value;
    for i := 0 to width
      modifies {}
      invariant |bytes| == i
      invariant bytes + LittleEndian(left, width - i) == LittleEndian(value, width)
    {
      Regroup(bytes, [left % 256], LittleEndian(left / 256, width - i - 1));
      bytes := bytes + [left % 256];
      left := left / 256;
    }
    assert bytes == LittleEndian(value, width);
    ok := stream.Write(bytes, |bytes|);
  }

  /** The encoders of integers, pb_enc_varint to pb_enc_fixed64. */
  method EncodeInteger(stream: OutputStream, f: Field, n: int) returns (ok: bool)
    requires stream.Valid() && Packable(f.ltype) && NumberFits(f.ltype, f.dataSize, n)
    modifies stream, stream.buffer
    ensures stream.Valid()
    ensures Advances(old(stream.Now()), EncodeNumber(f.ltype, f.dataSize, n), ok, stream.Now())
  {
    hide Advances, Varint, LittleEndian;
    AdvancesNot(stream.Now());
    match f.ltype
    case SignedVarint =>
      if !ValidSize(f.dataSize) { return false; }
      ok := EncodeVarint(stream, Unsigned(n));
    case UnsignedVarint =>
      if !ValidSize(f.dataSize) { return false; }
      ok := EncodeVarint(stream, n);
    case ZigZag =>
      if !ValidSize(f.dataSize) { return false; }
      ok := EncodeVarint(stream, ZigZagged(n));
    case Fixed32 =>
      ok := EncodeFixed(stream, n, 4);
    case Fixed64 =>
      ok := EncodeFixed(stream, n, 8);
  }

  /** pb_encode_tag */
  method EncodeTag(stream: OutputStream, wireType: nat, tag: nat) returns (ok: bool)
    requires stream.Valid() && wireType < 8 && tag < TWO_32
    modifies stream, stream.buffer
    ensures stream.Valid()
    ensures Advances(old(stream.Now()), Wire(TagBytes(tag, wireType)), ok, stream.Now())
  {
    ok := EncodeVarint(stream, 8 * tag + wireType);
  }

  /** pb_encode_string */
  method EncodeString(stream: OutputStream, s: Bytes) returns (ok: bool)
    requires stream.Valid()
    modifies stream, stream.buffer
    ensures stream.Valid()
    ensures Advances(old(stream.Now()), Wire(Prefixed(s)), ok, stream.Now())
  {
    hide Advances, Varint;
    ghost var a := stream.Now();
    ok := EncodeVarint(stream, |s|);
    ghost var b := stream.Now();
    if !ok {
      Stops(a, Wire(Varint(|s|)), b, Wire(s));
      return;
    }
    ok := stream.Write(s, |s|);
    assert Advances(b, Wire(s), ok, stream.Now());
    AdvancesOn(a, Wire(Varint(|s|)), b, Wire(s), ok, stream.Now());
  }

  /** pb_enc_string, whose loop stops at the terminator or at the end of the buffer. */
  method EncodeCString(stream: OutputStream, buffer: Bytes) returns (ok: bool)
    requires stream.Valid()
    modifies stream, stream.buffer
    ensures stream.Valid()
    ensures Advances(old(stream.Now()), Wire(Prefixed(buffer[..StringLength(buffer)])), ok, stream.Now())
  {
    var size := 0;
    while size < |buffer| && buffer[size] != 0
      modifies {}
      invariant size <= |buffer| && StringLength(buffer) == size + StringLength(buffer[size..])
    {
      assert buffer[size..][1..] == buffer[size + 1..];
      size := size + 1;
    }
    ok := EncodeString(stream, buffer[..size]);
  }

  // ---------------------------------------------------------------- fields and messages

  /** One element, by the encoder of its type. */
  method EncodeOne(stream: OutputStream, f: Field, item: Item) returns (ok: bool)
    requires stream.Valid() && WellFormedField(f) && ItemFits(f, item)
    modifies stream, stream.buffer
    ensures stream.Valid()
    ensures Advances(old(stream.Now()), EncodeItem(f, item), ok, stream.Now())
    decreases f, 0
  {
    hide Advances, Prefixed, EncodeNumber;
    if f.ltype.Submessage? {
      ok := EncodeSubmessage(stream, f.sub, item.slots);
    } else if f.ltype.ByteArray? {
      if item.count + COUNT_SIZE > f.dataSize {
        AdvancesNot(stream.Now());
        return false;
      }
      ok := EncodeString(stream, item.buffer[..item.count]);
    } else if f.ltype.CString? {
      ok := EncodeCString(stream, item.buffer);
    } else if f.ltype.FixedBytes? {
      ok := EncodeString(stream, item.buffer);
    } else {
      ok := EncodeInteger(stream, f, item.n);
    }
  }

  /** One element after its tag, or packed without. */
  method EncodeTagged(stream: OutputStream, f: Field, item: Item, tagged: bool) returns (ok: bool)
    requires stream.Valid() && WellFormedField(f) && ItemFits(f, item)
    modifies stream, stream.buffer
    ensures stream.Valid()
    ensures Advances(old(stream.Now()), EncodeElement(f, item, tagged), ok, stream.Now())
    decreases f, 1
  {
    hide Advances, TagBytes, EncodeItem;
    ghost var a := stream.Now();
    if tagged {
      ok := EncodeTag(stream, WireType(f.ltype), f.tag);
      ghost var tag := Wire(TagBytes(f.tag, WireType(f.ltype)));
      ghost var b := stream.Now();
      if !ok {
        Stops(a, tag, b, EncodeItem(f, item));
        return;
      }
      ok := EncodeOne(stream, f, item);
      AdvancesOn(a, tag, b, EncodeItem(f, item), ok, stream.Now());
    } else {
      ok := EncodeOne(stream, f, item);
    }
  }

  /** The loops of encode_array. */
  method EncodeElements(stream: OutputStream, f: Field, items: seq<Item>, tagged: bool) returns (ok: bool)
    requires stream.Valid() && WellFormedField(f) && AllFit(f, items)
    modifies stream, stream.buffer
    ensures stream.Valid()
    ensures Advances(old(stream.Now()), EncodeItems(f, items, tagged), ok, stream.Now())
    decreases f, 2
  {
    hide Advances, EncodeElement;
    ghost var a := stream.Now();
    ghost var done := Wire([]);
    AdvancesNot(a);
    for i := 0 to |items|
      invariant stream.Valid()
      invariant Advances(a, done, true, stream.Now())
      invariant Join(done, EncodeItems(f, items[i..], tagged)) == EncodeItems(f, items, tagged)
    {
      ghost var b := stream.Now();
      ghost var one := EncodeElement(f, items[i], tagged);
      ghost var rest := EncodeItems(f, items[i + 1..], tagged);
      assert items[i..][1..] == items[i + 1..];
      Associate(done, one, rest);
      ok := EncodeTagged(stream, f, items[i], tagged);
      AdvancesOn(a, done, b, one, ok, stream.Now());
      if !ok {
        Stops(a, Join(done, one), stream.Now(), rest);
        return;
      }
      done := Join(done, one);
    }
    assert items[|items|..] == [];
    JoinNothing(done);
    return true;
  }

  lemma {:induction false} FixedLength(f: Field, items: seq<Item>)
    requires AllFit(f, items) && (f.ltype.Fixed32? || f.ltype.Fixed64?)
    ensures EncodeItems(f, items, false).Wire?
    ensures |EncodeItems(f, items, false).bytes| == (if f.ltype.Fixed32? then 4 else 8) * |items|
    decreases |items|
  {
    if items != [] {
      assert ItemFits(f, items[0]);
      var one := EncodeItem(f, items[0]);
      assert one == EncodeNumber(f.ltype, f.dataSize, items[0].n);
      assert one.Wire? && |one.bytes| == if f.ltype.Fixed32? then 4 else 8;
      FixedLength(f, items[1..]);
    }
  }

  /** The size of a packed array: known for fixed widths, otherwise from a run that only counts. */
  method PackedSize(f: Field, items: seq<Item>) returns (ok: bool, size: nat)
    requires WellFormedField(f) && AllFit(f, items)
    ensures ok == EncodeItems(f, items, false).Wire?
    ensures ok ==> size == |EncodeItems(f, items, false).bytes|
    decreases f, 3
  {
    if f.ltype.Fixed32? {
      FixedLength(f, items);
      return true, 4 * |items|;
    }
    if f.ltype.Fixed64? {
      FixedLength(f, items);
      return true, 8 * |items|;
    }
    var sizing := new OutputStream.Sizing();
    ok := EncodeElements(sizing, f, items, false);
    size := sizing.written;
  }

  lemma StopsAfter(a: OState, e: Encoded, b: OState, f: Encoded, c: OState, g: Encoded)
    requires Advances(a, e, true, b) && Advances(b, f, false, c)
    ensures Advances(a, Join(e, Join(f, g)), false, c)
  {
    hide Advances;
    AdvancesOn(a, e, b, f, false, c);
    Stops(a, Join(e, f), c, g);
    Associate(e, f, g);
  }

  /** encode_array */
  method EncodeRepeated(stream: OutputStream, f: Field, items: seq<Item>, count: nat) returns (ok: bool)
    requires stream.Valid() && WellFormedField(f) && AllFit(f, items) && |items| == f.arraySize
    modifies stream, stream.buffer
    ensures stream.Valid()
    ensures Advances(old(stream.Now()), EncodeArray(f, items, count), ok, stream.Now())
    decreases f, 5
  {
    hide Advances, EncodeItems, TagBytes, Prefixed;
    ghost var a := stream.Now();
    AdvancesNot(a);
    if count == 0 {
      return true;
    }
    if count > f.arraySize {
      return false;
    }
    if Packable(f.ltype) {
      ok := EncodePacked(stream, f, items[..count]);
    } else {
      ok := EncodeElements(stream, f, items[..count], true);
    }
  }

  method EncodePacked(stream: OutputStream, f: Field, items: seq<Item>) returns (ok: bool)
    requires stream.Valid() && WellFormedField(f) && AllFit(f, items)
    modifies stream, stream.buffer
    ensures stream.Valid()
    ensures Advances(old(stream.Now()), Join(Wire(TagBytes(f.tag, 2)), Delimited(EncodeItems(f, items, false))), ok, stream.Now())
    decreases f, 4
  {
    hide Advances, EncodeItems, TagBytes, Varint;
    ghost var a := stream.Now();
    ghost var tag, content := Wire(TagBytes(f.tag, 2)), EncodeItems(f, items, false);
    ok := EncodeTag(stream, 2, f.tag);
    ghost var b := stream.Now();
    if !ok {
      Stops(a, tag, b, Delimited(content));
      return;
    }
    var size;
    ok, size := PackedSize(f, items);
    if !ok {
      AdvancesNot(b);
      AdvancesOn(a, tag, b, Refused, false, stream.Now());
      return;
    }
    ghost var length := Wire(Varint(size));
    assert Delimited(content) == Join(length, content);
    ok := EncodeVarint(stream, size);
    ghost var c := stream.Now();
    if !ok {
      StopsAfter(a, tag, b, length, c, content);
      return;
    }
    if !stream.writing {
      ok := stream.Write([], size);
    } else {
      ok := EncodeElements(stream, f, items, false);
    }
    AdvancesOn(b, length, c, content, ok, stream.Now());
    AdvancesOn(a, tag, b, Delimited(content), ok, stream.Now());
  }

  /** encode_basic_field */
  method EncodeBasicField(stream: OutputStream, f: Field, slot: Slot) returns (ok: bool)
    requires stream.Valid() && WellFormedField(f) && SlotFits(f, slot)
    modifies stream, stream.buffer
    ensures stream.Valid()
    ensures Advances(old(stream.Now()), EncodeField(f, slot), ok, stream.Now())
    decreases f, 6
  {
    hide Advances, EncodeArray, EncodeElement;
    AdvancesNot(stream.Now());
    match f.kind
    case Required =>
      ok := EncodeTagged(stream, f, slot.items[0], true);
    case Optional =>
      if slot.size == 0 { return true; }
      ok := EncodeTagged(stream, f, slot.items[0], true);
    case Repeated =>
      ok := EncodeRepeated(stream, f, slot.items, slot.size);
    case Oneof =>
      if slot.size != f.tag { return true; }
      ok := EncodeTagged(stream, f, slot.items[0], true);
  }

  /** pb_encode */
  method Encode(stream: OutputStream, fields: seq<Field>, slots: seq<Slot>) returns (ok: bool)
    requires stream.Valid() && WellFormed(fields) && StructFits(fields, slots)
    modifies stream, stream.buffer
    ensures stream.Valid()
    ensures Advances(old(stream.Now()), EncodeFrom(fields, 0, slots), ok, stream.Now())
    decreases fields, 0
  {
    hide Advances, EncodeField;
    ghost var a := stream.Now();
    AdvancesNot(a);
    var iter := new FieldIterator.Begin(fields);
    if iter.TagHere() == 0 {
      return true;
    }
    ghost var done := Wire([]);
    var more := true;
    while more
      invariant stream.Valid() && iter.Valid() && iter.start == fields && fresh(iter)
      invariant Advances(a, done, true, stream.Now())
      invariant Join(done, if more then EncodeFrom(fields, iter.pos, slots) else Wire([])) == EncodeFrom(fields, 0, slots)
      decreases if more then |fields| - iter.pos else -1
    {
      var i := iter.pos;
      assert FieldFits(fields, i, slots);
      SlotBound(fields, i);
      var f, slot := fields[i], slots[iter.slot];
      ghost var b := stream.Now();
      ghost var one, rest := EncodeField(f, slot), EncodeFrom(fields, i + 1, slots);
      Associate(done, one, rest);
      ok := EncodeBasicField(stream, f, slot);
      AdvancesOn(a, done, b, one, ok, stream.Now());
      if !ok {
        Stops(a, Join(done, one), stream.Now(), rest);
        return;
      }
      done := Join(done, one);
      more := iter.Next();
    }
    JoinNothing(done);
    return true;
  }

  lemma Room(a: OState, e: Encoded)
    requires e.Wire? && a.writing && a.written <= a.max < a.written + |e.bytes| && a.state <= |a.buf|
    ensures Advances(a, e, false, a)
  {
  }

  /** What a stream limited to the size of `e` does is done to the stream it was made from; it cannot fail. */
  lemma SubstreamWrote(a: OState, e: Encoded, ok: bool, c: OState, d: OState)
    requires e.Wire? && a.writing && a.written + |e.bytes| <= a.max
    requires Advances(OState(true, a.buf, a.state, |e.bytes|, 0), e, ok, c)
    requires d == OState(true, c.buf, c.state, a.max, a.written + c.written)
    ensures ok && c.written == |e.bytes| && Advances(a, e, ok, d)
  {
  }

  /** pb_encode_submessage: counts, writes the count, and writes the same again to a stream of that size. */
  method EncodeSubmessage(stream: OutputStream, fields: seq<Field>, slots: seq<Slot>) returns (ok: bool)
    requires stream.Valid() && WellFormed(fields) && StructFits(fields, slots)
    modifies stream, stream.buffer
    ensures stream.Valid()
    ensures Advances(old(stream.Now()), Delimited(EncodeFrom(fields, 0, slots)), ok, stream.Now())
    decreases fields, 1
  {
    hide EncodeFrom, Varint, Writes;
    ghost var a := stream.Now();
    ghost var content := EncodeFrom(fields, 0, slots);
    var sizing := new OutputStream.Sizing();
    ok := Encode(sizing, fields, slots);
    if !ok {
      AdvancesNot(a);
      return;
    }
    var size := sizing.written;
    ghost var length := Wire(Varint(size));
    assert Delimited(content) == Join(length, content);
    ok := EncodeVarint(stream, size);
    ghost var b := stream.Now();
    if !ok {
      Stops(a, length, b, content);
      return;
    }
    if !stream.writing {
      ok := stream.Write([], size);
      AdvancesOn(a, length, b, content, ok, stream.Now());
      return;
    }
    if stream.written + size > stream.maxSize {
      Room(b, content);
      AdvancesOn(a, length, b, content, false, stream.Now());
      return false;
    }
    var substream := new OutputStream.OnBuffer(stream.buffer, stream.state, size);
    var status := Encode(substream, fields, slots);
    ghost var c := substream.Now();
    stream.written := stream.written + substream.written;
    stream.state := substream.state;
    SubstreamWrote(b, content, status, c, stream.Now());
    if substream.written != size {
      assert false;
    }
    AdvancesOn(a, length, b, content, status, stream.Now());
    return status;
  }

  /** pb_get_encoded_size */
  method GetEncodedSize(fields: seq<Field>, slots: seq<Slot>) returns (ok: bool, size: nat)
    requires WellFormed(fields) && StructFits(fields, slots)
    ensures ok == EncodeFrom(fields, 0, slots).Wire?
    ensures ok ==> size == |EncodeFrom(fields, 0, slots).bytes|
  {
    hide EncodeFrom;
    var stream := new OutputStream.Sizing();
    ok := Encode(stream, fields, slots);
    size := stream.written;
  }
}
