/**
  Decoding what was encoded (nanopb/pb_encode.c, nanopb/pb_decode.c): the same fields are present with the
  same contents, just when every string is terminated and the required fields can be checked.
*/
module PbRoundTrips {
  import opened IntegerSizes
  import opened InternalKeys
  import opened Codings
  import opened PbFields
  import opened PbEncoders
  import opened PbDecoders

  // ---------------------------------------------------------------- what a struct says

  datatype Value = Scalar(n: int) | Octets(bytes: Bytes) | Message(parts: seq<Part>)

  /** A field that is present, with its tag and its elements. */
  datatype Part = Part(tag: nat, values: seq<Value>)

  ghost function ItemView(f: Field, item: Item): Value
    requires ItemFits(f, item)
    decreases f, 0
  {
    match f.ltype
    case Submessage => Message(View(f.sub, |f.sub|, item.slots))
    case ByteArray => Octets(if item.count <= |item.buffer| then item.buffer[..item.count] else item.buffer)
    case CString => Octets(item.buffer[..StringLength(item.buffer)])
    case FixedBytes => Octets(item.buffer)
    case _ => Scalar(item.n)
  }

  ghost function ItemViews(f: Field, items: seq<Item>): (r: seq<Value>)
    requires AllFit(f, items)
    ensures |r| == |items| && forall k | 0 <= k < |items| :: r[k] == ItemView(f, items[k])
    decreases f, 1, |items|
  {
    if items == [] then [] else ItemViews(f, items[..|items| - 1]) + [ItemView(f, items[|items| - 1])]
  }

  ghost function FieldView(f: Field, slot: Slot): seq<Part>
    requires SlotFits(f, slot)
    decreases f, 2
  {
    if f.kind.Repeated? then
      if slot.size == 0 then []
      else [Part(f.tag, ItemViews(f, if slot.size <= |slot.items| then slot.items[..slot.size] else slot.items))]
    else if Present(f, slot) then [Part(f.tag, [ItemView(f, slot.items[0])])]
    else []
  }

  /** The first `n` fields. */
  ghost function View(fields: seq<Field>, n: nat, slots: seq<Slot>): seq<Part>
    requires n <= |fields| && StructFits(fields, slots)
    decreases fields, n
  {
    if n == 0 then []
    else
      View(fields, n - 1, slots) + FieldView(fields[n - 1], At(fields, n - 1, slots))
  }

  // ---------------------------------------------------------------- what can be decoded again

  /** Strings are terminated, also in submessages, and no message present has just 32 required fields. */
  ghost predicate ItemDecodable(f: Field, item: Item, u: nat)
    requires ItemFits(f, item)
    decreases f, 0
  {
    match f.ltype
    case Submessage => Decodable(f.sub, item.slots, u)
    case CString => StringLength(item.buffer) < |item.buffer|
    case _ => true
  }

  ghost predicate AllDecodable(f: Field, items: seq<Item>, u: nat)
    requires AllFit(f, items)
    decreases f, 1
  {
    forall k | 0 <= k < |items| :: ItemDecodable(f, items[k], u)
  }

  ghost predicate FieldDecodable(f: Field, slot: Slot, u: nat)
    requires SlotFits(f, slot)
    decreases f, 2
  {
    if f.kind.Repeated? then AllDecodable(f, if slot.size <= |slot.items| then slot.items[..slot.size] else slot.items, u)
    else Present(f, slot) ==> ItemDecodable(f, slot.items[0], u)
  }

  ghost predicate PartDecodable(fields: seq<Field>, i: nat, slots: seq<Slot>, u: nat)
    requires i < |fields| && StructFits(fields, slots)
    decreases fields, 0
  {
    FieldDecodable(fields[i], At(fields, i, slots), u)
  }

  ghost predicate Decodable(fields: seq<Field>, slots: seq<Slot>, u: nat)
    requires StructFits(fields, slots)
    decreases fields, 1
  {
    && (RequiredCount(fields) == 32 ==> u == 0)
    && forall i | 0 <= i < |fields| :: PartDecodable(fields, i, slots, u)
  }

  // ---------------------------------------------------------------- what the reader's lengths can count

  /** The bytes, if there are any, have a length of 32 bits. */
  ghost predicate Countable(e: Encoded) {
    e.Wire? ==> |e.bytes| < TWO_32
  }

  /** The submessages and packed arrays present, at every depth, are countable. */
  ghost predicate ItemCountable(f: Field, item: Item)
    requires ItemFits(f, item)
    decreases f, 0
  {
    f.ltype.Submessage? ==> Countable(EncodeFrom(f.sub, 0, item.slots)) && PartsCountable(f.sub, item.slots)
  }

  ghost predicate FieldCountable(f: Field, slot: Slot)
    requires SlotFits(f, slot)
    decreases f, 2
  {
    if !f.kind.Repeated? then Present(f, slot) ==> ItemCountable(f, slot.items[0])
    else if slot.size > f.arraySize then true
    else if Packable(f.ltype) then Countable(Elements(f, slot, 0, false))
    else forall k | 0 <= k < slot.size :: ElementCountable(f, slot, k)
  }

  ghost predicate ElementCountable(f: Field, slot: Slot, k: nat)
    requires RepeatedFits(f, slot) && k < slot.size <= f.arraySize
    decreases f, 1
  {
    assert ItemFits(f, slot.items[k]);
    ItemCountable(f, slot.items[k])
  }

  ghost predicate PartCountable(fields: seq<Field>, i: nat, slots: seq<Slot>)
    requires i < |fields| && StructFits(fields, slots)
    decreases fields, 0
  {
    FieldCountable(fields[i], At(fields, i, slots))
  }

  ghost predicate PartsCountable(fields: seq<Field>, slots: seq<Slot>)
    requires StructFits(fields, slots)
    decreases fields, 1
  {
    forall i | 0 <= i < |fields| :: PartCountable(fields, i, slots)
  }

  // ---------------------------------------------------------------- numbers

  lemma SignBack(n: int, size: nat)
    requires ValidSize(size) && -HalfRange(size) <= n < HalfRange(size)
    ensures SignExtend(n, HalfRange(size)) == n
  {
    if size == 1 {
      assert n % 0x100 == if n < 0 then n + 0x100 else n;
    } else if size == 2 {
      assert n % 0x1_0000 == if n < 0 then n + 0x1_0000 else n;
    } else if size == 4 {
      assert n % TWO_32 == if n < 0 then n + TWO_32 else n;
    } else {
      assert n % TWO_64 == if n < 0 then n + TWO_64 else n;
    }
  }

  lemma LowWord(n: int)
    ensures Unsigned(n) % TWO_32 == n % TWO_32
  {
    var q := n / TWO_64;
    assert n == q * TWO_64 + Unsigned(n);
    assert n == (q * TWO_32) * TWO_32 + Unsigned(n);
    ModuloShift(Unsigned(n), q * TWO_32);
  }

  lemma ModuloShift(m: int, k: int)
    ensures (k * TWO_32 + m) % TWO_32 == m % TWO_32
  {
  }

  lemma NarrowBack(n: int, size: nat)
    requires ValidSize(size) && -HalfRange(size) <= n < HalfRange(size)
    ensures Narrow(Unsigned(n), size) == Some(n)
  {
    SignBack(n, size);
    if size == 8 {
      assert Unsigned(n) == if n < 0 then n + TWO_64 else n;
    } else {
      LowWord(n);
      assert -HalfRange(4) <= n < HalfRange(4);
      SignBack(n, 4);
      assert SignExtend(Unsigned(n), HalfRange(4)) == SignExtend(n, HalfRange(4));
    }
  }

  lemma {:induction false} LittleEndianBack(n: nat, width: nat, rest: Bytes)
    requires n < Places(width)
    ensures FromLittleEndian(LittleEndian(n, width)) == n
    ensures ReadBytes(LittleEndian(n, width) + rest, width) == Parsed(LittleEndian(n, width), rest)
    decreases width
  {
    if width > 0 {
      LittleEndianBack(n / 256, width - 1, rest);
    }
    var b := LittleEndian(n, width);
    assert (b + rest)[..width] == b && (b + rest)[width..] == rest;
  }

  /** What a varint says as an element of this type: a two's complement of 64 bits, of which a field of less is given
      the lower half, a plain number, or a zigzag. */
  ghost predicate Says(t: LType, size: nat, v: nat, n: int) {
    match t
    case SignedVarint => (n - v) % (if size == 8 then TWO_64 else TWO_32) == 0
    case UnsignedVarint => n == v
    case ZigZag => v == if n >= 0 then 2 * n else -2 * n - 1
    case _ => false
  }

  /** A varint is taken for a number exactly if it says that number and the field can hold it; others are refused. */
  lemma NumberOfExactly(t: LType, size: nat, v: nat, n: int)
    requires v < TWO_64
    ensures NumberOf(t, size, v) == Some(n) <==> ValidSize(size) && Packable(t) && NumberFits(t, size, n) && Says(t, size, v, n)
  {
    hide SignExtend;
    if ValidSize(size) {
      if t.SignedVarint? {
        NarrowExactly(v, size, n);
      } else if t.ZigZag? {
        SignExtended(FromZigZag(v), size, FromZigZag(v));
      }
    }
  }

  lemma SignedByte(n: int, m: int)
    ensures SignExtend(n, 0x80) == m <==> -0x80 <= m < 0x80 && (m - n) % 0x100 == 0
  {
    var q, k := n / 0x100, (m - n) / 0x100;
    assert n == q * 0x100 + n % 0x100;
  }

  lemma SignedShort(n: int, m: int)
    ensures SignExtend(n, 0x8000) == m <==> -0x8000 <= m < 0x8000 && (m - n) % 0x1_0000 == 0
  {
    var q, k := n / 0x1_0000, (m - n) / 0x1_0000;
    assert n == q * 0x1_0000 + n % 0x1_0000;
  }

  lemma SignedWord(n: int, m: int)
    ensures SignExtend(n, 0x8000_0000) == m <==> -0x8000_0000 <= m < 0x8000_0000 && (m - n) % TWO_32 == 0
  {
    var q, k := n / TWO_32, (m - n) / TWO_32;
    assert n == q * TWO_32 + n % TWO_32;
  }

  lemma SignedLong(n: int, m: int)
    ensures SignExtend(n, 0x8000_0000_0000_0000) == m <==> -0x8000_0000_0000_0000 <= m < 0x8000_0000_0000_0000 && (m - n) % TWO_64 == 0
  {
    var q, k := n / TWO_64, (m - n) / TWO_64;
    assert n == q * TWO_64 + n % TWO_64;
  }

  lemma SignExtended(n: int, size: nat, m: int)
    requires ValidSize(size)
    ensures SignExtend(n, HalfRange(size)) == m <==> -HalfRange(size) <= m < HalfRange(size) && (m - n) % (2 * HalfRange(size)) == 0
  {
    hide SignExtend;
    if size == 1 {
      SignedByte(n, m);
    } else if size == 2 {
      SignedShort(n, m);
    } else if size == 4 {
      SignedWord(n, m);
    } else {
      SignedLong(n, m);
    }
  }

  lemma NarrowExactly(v: nat, size: nat, n: int)
    requires ValidSize(size) && v < TWO_64
    ensures Narrow(v, size) == Some(n) <==>
            -HalfRange(size) <= n < HalfRange(size) && (n - v) % (if size == 8 then TWO_64 else TWO_32) == 0
  {
    hide SignExtend;
    var wide := if size == 8 then 8 else 4;
    var s := SignExtend(v, HalfRange(wide));
    SignExtended(v, wide, n);
    SignExtended(v, wide, s);
    SignExtended(s, size, s);
  }

  lemma NumberBack(t: LType, size: nat, n: int, rest: Bytes)
    requires Packable(t) && NumberFits(t, size, n) && EncodeNumber(t, size, n).Wire?
    ensures DecodeNumber(t, size, EncodeNumber(t, size, n).bytes + rest) == Parsed(n, rest)
  {
    hide Varint, LittleEndian, FromLittleEndian, TakeVarint64, SignExtend, Places;
    if t.Fixed32? {
      FixedSizes();
      LittleEndianBack(n, 4, rest);
    } else if t.Fixed64? {
      FixedSizes();
      LittleEndianBack(n, 8, rest);
    } else if t.SignedVarint? {
      VarintBack(Unsigned(n), rest);
      NarrowBack(n, size);
    } else if t.UnsignedVarint? {
      VarintBack(n, rest);
    } else {
      VarintBack(ZigZagged(n), rest);
      ZigZagIs(n);
      SignBack(n, size);
    }
  }

  lemma VarintBack(v: nat, rest: Bytes)
    requires v < TWO_64
    ensures DecodeVarint64(Varint(v) + rest) == Parsed(v, rest)
  {
    Varint64RoundTrip(v, rest);
    hide Varint;
    assert (Varint(v) + rest)[|Varint(v)|..] == rest;
  }

  lemma Varint32Back(v: nat, rest: Bytes)
    requires v < TWO_32
    ensures DecodeVarint32(Varint(v) + rest) == Parsed(v, rest)
  {
    Varint32RoundTrip(v, rest);
    hide Varint;
    assert (Varint(v) + rest)[|Varint(v)|..] == rest;
  }

  lemma StringBack(s: Bytes, rest: Bytes)
    requires |s| < TWO_32
    ensures DecodeString(Prefixed(s) + rest) == Parsed(s, rest)
    ensures DecodeVarint32(Prefixed(s) + rest) == Parsed(|s|, s + rest)
    ensures ReadBytes(s + rest, |s|) == Parsed(s, rest)
  {
    Varint32Back(|s|, s + rest);
    hide Varint;
    Regroup(Varint(|s|), s, rest);
    assert (s + rest)[..|s|] == s && (s + rest)[|s|..] == rest;
  }

  /** A string, submessage or packed array is taken off the input as it was put there exactly if 32 bits can
      count its bytes. */
  lemma StringBackExactly(s: Bytes, rest: Bytes)
    ensures DecodeString(Prefixed(s) + rest) == Parsed(s, rest) <==> |s| < TWO_32
  {
    if |s| < TWO_32 {
      StringBack(s, rest);
    }
  }

  lemma TagBack(tag: nat, wireType: nat, rest: Bytes)
    requires 0 < tag < TAG_LIMIT && wireType < 8
    ensures DecodeTag(TagBytes(tag, wireType) + rest) == TagIs(tag, wireType, rest)
  {
    Varint32Back(8 * tag + wireType, rest);
    hide Varint;
  }

  // ---------------------------------------------------------------- elements

  lemma LengthIs(buffer: Bytes, n: nat)
    requires n < |buffer| && buffer[n] == 0 && forall k | 0 <= k < n :: buffer[k] != 0
    ensures StringLength(buffer) == n
  {
    hide StringLength;
    assert forall m | 0 <= m < n :: buffer[m] != 0;
  }

  /** What reading back an element comes to. */
  ghost predicate ItemReads(f: Field, item: Item, p: Parsed<Item>, rest: Bytes, u: nat)
    requires ItemFits(f, item)
  {
    if ItemDecodable(f, item, u) then p.Parsed? && p.rest == rest && ItemFits(f, p.value) && ItemView(f, p.value) == ItemView(f, item)
    else p.Failed?
  }

  lemma CStringBack(f: Field, item: Item, memory: Item, rest: Bytes, u: nat)
    requires WellFormedField(f) && ItemFits(f, item) && ItemFits(f, memory) && f.ltype.CString?
    requires EncodeItem(f, item).Wire?
    ensures ItemReads(f, item, DecodeBytes(f, EncodeItem(f, item).bytes + rest, memory), rest, u)
  {
    hide Prefixed, DecodeVarint32, ReadBytes, StringLength;
    var n := StringLength(item.buffer);
    var s := item.buffer[..n];
    StringBack(s, rest);
    if n < |item.buffer| {
      var after := Overwrite(memory.buffer, s + [0]);
      assert after[..n] == s && after[n] == 0;
      LengthIs(after, n);
    }
  }

  lemma BytesBack(f: Field, item: Item, memory: Item, rest: Bytes, u: nat)
    requires WellFormedField(f) && ItemFits(f, item) && ItemFits(f, memory) && !f.ltype.Submessage? && !Packable(f.ltype)
    requires EncodeItem(f, item).Wire?
    ensures ItemReads(f, item, DecodeBytes(f, EncodeItem(f, item).bytes + rest, memory), rest, u)
  {
    hide Prefixed, DecodeVarint32, ReadBytes, StringLength;
    match f.ltype
    case ByteArray =>
      var s := item.buffer[..item.count];
      StringBack(s, rest);
      assert Overwrite(memory.buffer, s)[..|s|] == s;
    case CString => CStringBack(f, item, memory, rest, u);
    case FixedBytes =>
      StringBack(item.buffer, rest);
      if item.buffer == [] {
        assert [] + rest == rest;
        assert ZeroBytes(0) == [];
      }
    case _ =>
  }

  ghost predicate Fresh(fields: seq<Field>, slots: seq<Slot>)
    requires StructFits(fields, slots)
    decreases fields
  {
    forall i | 0 <= i < |fields| :: FreshField(fields, i, slots)
  }

  ghost predicate FreshField(fields: seq<Field>, i: nat, slots: seq<Slot>)
    requires i < |fields| && StructFits(fields, slots)
    decreases fields, 0
  {
    FreshSlot(fields[i], At(fields, i, slots))
  }

  /** Nothing is there yet, and the memory has its default, that of a submessage in all its fields. */
  ghost predicate FreshSlot(f: Field, slot: Slot)
    requires SlotFits(f, slot)
    decreases f
  {
    && (!f.kind.Required? ==> slot.size == 0)
    && (f.ltype.Submessage? && (f.kind.Required? || f.kind.Optional?) ==>
          assert ItemFits(f, slot.items[0]);
          Fresh(f.sub, slot.items[0].slots))
    && (!f.ltype.Submessage? && (f.kind.Required? || f.kind.Optional?) ==> slot.items[0] == f.initial)
  }

  /** The defaults are fresh memory. */
  lemma {:induction false} DefaultsFresh(fields: seq<Field>, slots: seq<Slot>)
    requires WellFormed(fields) && StructFits(fields, slots)
    ensures Fresh(fields, SetDefaults(fields, slots))
    decreases fields, |fields| + 1
  {
    DefaultsFreshTo(fields, |fields|, slots);
  }

  lemma {:induction false} DefaultsFreshTo(fields: seq<Field>, n: nat, slots: seq<Slot>)
    requires n <= |fields| && WellFormed(fields) && StructFits(fields, slots)
    ensures forall i | 0 <= i < n :: FreshField(fields, i, SetDefaultsTo(fields, n, slots))
    decreases fields, n
  {
    if n > 0 {
      DefaultsFreshTo(fields, n - 1, slots);
      var before, after := SetDefaultsTo(fields, n - 1, slots), SetDefaultsTo(fields, n, slots);
      var f := fields[n - 1];
      assert WellFormedField(f);
      InitialFresh(f, At(fields, n - 1, before));
      forall i | 0 <= i < n
        ensures FreshField(fields, i, after)
      {
        SlotBound(fields, i);
        if i < n - 1 {
          assert FreshField(fields, i, before);
          if SlotOf(fields, i) == SlotOf(fields, n - 1) {
            SharedMeansOneof(fields, i, n - 1);
          }
        }
      }
    }
  }

  lemma {:induction false} InitialFresh(f: Field, slot: Slot)
    requires WellFormedField(f) && SlotFits(f, slot) && f.tag != 0
    ensures FreshSlot(f, InitialSlot(f, slot))
    decreases f
  {
    if f.ltype.Submessage? && (f.kind.Required? || f.kind.Optional?) {
      assert ItemFits(f, slot.items[0]);
      DefaultsFresh(f.sub, slot.items[0].slots);
    }
  }

  // ---------------------------------------------------------------- how far a struct has been read

  /** Of field `k`, when the fields before `i` have been read. */
  ghost predicate Back(fields: seq<Field>, k: nat, src: seq<Slot>, dst: seq<Slot>, i: nat)
    requires k < |fields| && StructFits(fields, src) && StructFits(fields, dst)
  {
    var f, a, d := fields[k], At(fields, k, src), At(fields, k, dst);
    && (k < i ==> FieldView(f, d) == FieldView(f, a))
    && ((k >= i || FieldView(f, a) == []) && !f.kind.Oneof? ==> FreshSlot(f, d))
    && (f.kind.Oneof? ==> d.size == 0 || d.size == a.size)
  }

  ghost predicate Mid(fields: seq<Field>, src: seq<Slot>, dst: seq<Slot>, i: nat)
    requires StructFits(fields, src) && StructFits(fields, dst)
  {
    forall k | 0 <= k < |fields| :: Back(fields, k, src, dst, i)
  }

  ghost predicate SeenTo(fields: seq<Field>, i: nat, seen: set<nat>)
    requires i <= |fields|
  {
    forall k: nat :: k in seen <==> k < RequiredBefore(fields, i)
  }

  lemma MidStart(fields: seq<Field>, src: seq<Slot>, dst: seq<Slot>)
    requires StructFits(fields, src) && StructFits(fields, dst) && Fresh(fields, dst)
    ensures Mid(fields, src, dst, 0)
  {
    forall k | 0 <= k < |fields|
      ensures Back(fields, k, src, dst, 0)
    {
      assert FreshField(fields, k, dst);
      hide Fresh, StructFits, FreshSlot;
      FreshIsBack(fields, k, src, dst);
    }
  }

  lemma FreshIsBack(fields: seq<Field>, k: nat, src: seq<Slot>, dst: seq<Slot>)
    requires k < |fields| && StructFits(fields, src) && StructFits(fields, dst) && FreshField(fields, k, dst)
    ensures Back(fields, k, src, dst, 0)
  {
  }

  lemma {:induction false} MidEnd(fields: seq<Field>, src: seq<Slot>, dst: seq<Slot>, n: nat)
    requires n <= |fields| && StructFits(fields, src) && StructFits(fields, dst) && Mid(fields, src, dst, |fields|)
    ensures View(fields, n, dst) == View(fields, n, src)
  {
    if n > 0 {
      MidEnd(fields, src, dst, n - 1);
      assert Back(fields, n - 1, src, dst, |fields|);
    }
  }

  lemma SomeView(f: Field, slot: Slot)
    requires SlotFits(f, slot) && (if f.kind.Repeated? then slot.size > 0 else Present(f, slot))
    ensures FieldView(f, slot) != []
  {
  }

  lemma OtherView(f: Field, slot: Slot)
    requires SlotFits(f, slot) && f.kind.Oneof? && slot.size != f.tag
    ensures FieldView(f, slot) == []
  {
  }

  /** A field that is read leaves the others as they are, or empty when they share its memory. */
  lemma MidStore(fields: seq<Field>, i: nat, src: seq<Slot>, dst: seq<Slot>, d: Slot)
    requires i < |fields| && Tagged(fields) && StructFits(fields, src) && StructFits(fields, dst) && Mid(fields, src, dst, i)
    requires SlotFits(fields[i], d) && FieldView(fields[i], d) == FieldView(fields[i], At(fields, i, src)) != []
    requires fields[i].kind.Oneof? ==> d.size == fields[i].tag == At(fields, i, src).size
    requires SlotOf(fields, i) < |dst|
    ensures StructFits(fields, dst[SlotOf(fields, i) := d])
    ensures Mid(fields, src, dst[SlotOf(fields, i) := d], i + 1)
  {
    hide FieldView, FreshSlot, SlotFits;
    StillFits(fields, i, dst, d);
    var after := dst[SlotOf(fields, i) := d];
    var next: nat := i + 1;
    forall k | 0 <= k < |fields|
      ensures Back(fields, k, src, after, next)
    {
      assert Back(fields, k, src, dst, i);
      SlotBound(fields, k);
      if k != i && SlotOf(fields, k) == SlotOf(fields, i) {
        SharedMeansOneof(fields, i, k);
        assert fields[k].tag != fields[i].tag;
        OtherView(fields[k], At(fields, k, src));
        OtherView(fields[k], At(fields, k, after));
      }
    }
  }

  /** A field that is not there stays empty. */
  lemma MidSkip(fields: seq<Field>, i: nat, src: seq<Slot>, dst: seq<Slot>)
    requires i < |fields| && Tagged(fields) && StructFits(fields, src) && StructFits(fields, dst) && Mid(fields, src, dst, i)
    requires FieldView(fields[i], At(fields, i, src)) == []
    ensures Mid(fields, src, dst, i + 1)
  {
    var next: nat := i + 1;
    forall k | 0 <= k < |fields|
      ensures Back(fields, k, src, dst, next)
    {
      assert Back(fields, k, src, dst, i);
    }
  }

  /** What is not there in the message has its default. */
  ghost predicate OthersDefault(fields: seq<Field>, src: seq<Slot>, dst: seq<Slot>)
    requires StructFits(fields, src) && StructFits(fields, dst)
  {
    forall k | 0 <= k < |fields| && !fields[k].kind.Oneof? && FieldView(fields[k], At(fields, k, src)) == [] ::
      FreshSlot(fields[k], At(fields, k, dst))
  }

  lemma EndDefault(fields: seq<Field>, src: seq<Slot>, dst: seq<Slot>)
    requires StructFits(fields, src) && StructFits(fields, dst) && Mid(fields, src, dst, |fields|)
    ensures OthersDefault(fields, src, dst)
  {
    hide FreshSlot, FieldView;
    forall k | 0 <= k < |fields| && !fields[k].kind.Oneof? && FieldView(fields[k], At(fields, k, src)) == []
      ensures FreshSlot(fields[k], At(fields, k, dst))
    {
      assert Back(fields, k, src, dst, |fields|);
    }
  }

  // ---------------------------------------------------------------- one element read back

  /** A struct that comes back: the same fields, or a failure when it is not decodable. */
  ghost predicate StructReads(fields: seq<Field>, src: seq<Slot>, p: Parsed<seq<Slot>>, u: nat)
    requires StructFits(fields, src)
  {
    if Decodable(fields, src, u) then
      && p.Parsed? && p.rest == [] && StructFits(fields, p.value)
      && View(fields, |fields|, p.value) == View(fields, |fields|, src) && OthersDefault(fields, src, p.value)
    else p.Failed?
  }

  lemma {:induction false} ItemBack(f: Field, item: Item, memory: Item, rest: Bytes, u: nat)
    requires WellFormedField(f) && ItemFits(f, item) && ItemFits(f, memory)
    requires EncodeItem(f, item).Wire? && ItemCountable(f, item)
    requires f.ltype.Submessage? && !f.kind.Repeated? ==> Fresh(f.sub, memory.slots)
    ensures ItemReads(f, item, DecodeItem(f, EncodeItem(f, item).bytes + rest, memory, u), rest, u)
    decreases f, 0
  {
    hide DecodeNumber, DecodeBytes, EncodeNumber, NumberFits, DecodeFields, EncodeFrom, DecodeString, Prefixed;
    if Packable(f.ltype) {
      NumberBack(f.ltype, f.dataSize, item.n, rest);
    } else if f.ltype.Submessage? {
      var content := EncodeFrom(f.sub, 0, item.slots);
      var slots := if f.kind.Repeated? then SetDefaults(f.sub, memory.slots) else memory.slots;
      if f.kind.Repeated? {
        DefaultsFresh(f.sub, memory.slots);
      }
      PrefixedLonger(content.bytes);
      StringBack(content.bytes, rest);
      StructBack(f.sub, item.slots, slots, u);
    } else {
      BytesBack(f, item, memory, rest, u);
    }
  }

  lemma PrefixedLonger(s: Bytes)
    ensures |Prefixed(s)| > |s|
  {
  }

  /** A whole message read into fresh memory. */
  lemma {:induction false} StructBack(fields: seq<Field>, src: seq<Slot>, dst: seq<Slot>, u: nat)
    requires WellFormed(fields) && StructFits(fields, src) && StructFits(fields, dst) && Fresh(fields, dst)
    requires EncodeFrom(fields, 0, src).Wire? && PartsCountable(fields, src)
    ensures StructReads(fields, src, DecodeFields(fields, EncodeFrom(fields, 0, src).bytes, dst, u), u)
    decreases fields, 5
  {
    hide View, DecodeLoop, EncodeFrom, Words, AllSeen, PartDecodable, OthersDefault;
    MidStart(fields, src, dst);
    var p := Progress(dst, {});
    var d := FieldsBack(fields, 0, src, p, u);
    var bytes := EncodeFrom(fields, 0, src).bytes;
    assert Decodable(fields, src, u) <==> RestDecodable(fields, 0, src, u) && (RequiredCount(fields) == 32 ==> u == 0);
    if RestDecodable(fields, 0, src, u) {
      MidEnd(fields, src, d.slots, |fields|);
      EndDefault(fields, src, d.slots);
      AllSeenMeans(RequiredCount(fields), d.seen, u);
      assert DecodeLoop(fields, bytes, p, u) == Parsed(d, []);
    } else {
      assert DecodeFields(fields, bytes, dst, u) == Failed;
    }
  }

  ghost predicate RestDecodable(fields: seq<Field>, i: nat, src: seq<Slot>, u: nat)
    requires StructFits(fields, src)
  {
    forall k | i <= k < |fields| :: PartDecodable(fields, k, src, u)
  }

  lemma {:induction false} FieldsBack(fields: seq<Field>, i: nat, src: seq<Slot>, p: Progress, u: nat) returns (d: Progress)
    requires i <= |fields| && WellFormed(fields) && StructFits(fields, src) && StructFits(fields, p.slots)
    requires Mid(fields, src, p.slots, i) && SeenTo(fields, i, p.seen)
    requires EncodeFrom(fields, i, src).Wire? && PartsCountable(fields, src)
    ensures StructFits(fields, d.slots)
    ensures RestDecodable(fields, i, src, u) ==>
              && DecodeLoop(fields, EncodeFrom(fields, i, src).bytes, p, u) == Parsed(d, [])
              && Mid(fields, src, d.slots, |fields|) && SeenTo(fields, |fields|, d.seen)
    ensures !RestDecodable(fields, i, src, u) ==> DecodeLoop(fields, EncodeFrom(fields, i, src).bytes, p, u) == Failed
    decreases fields, 4, |fields| - i
  {
    hide Mid, SeenTo, EncodeField, EncodeFrom, DecodeLoop, PartDecodable, StructFits;
    d := p;
    if i < |fields| {
      var one, rest := EncodeField(fields[i], At(fields, i, src)), EncodeFrom(fields, i + 1, src);
      FirstField(fields, i, src);
      var q := FieldStep(fields, i, src, p, rest.bytes, u);
      if PartDecodable(fields, i, src, u) {
        d := FieldsBack(fields, i + 1, src, q, u);
      }
      RestMeans(fields, i, src, u);
    } else {
      NoFields(fields, src, p, u);
    }
  }

  lemma FirstField(fields: seq<Field>, i: nat, src: seq<Slot>)
    requires i < |fields| && StructFits(fields, src)
    ensures EncodeFrom(fields, i, src) == Join(EncodeField(fields[i], At(fields, i, src)), EncodeFrom(fields, i + 1, src))
  {
  }

  lemma RestMeans(fields: seq<Field>, i: nat, src: seq<Slot>, u: nat)
    requires i < |fields| && StructFits(fields, src)
    ensures RestDecodable(fields, i, src, u) <==> PartDecodable(fields, i, src, u) && RestDecodable(fields, i + 1, src, u)
  {
    hide PartDecodable;
  }

  lemma NoFields(fields: seq<Field>, src: seq<Slot>, p: Progress, u: nat)
    requires WellFormed(fields) && StructFits(fields, src) && StructFits(fields, p.slots)
    ensures EncodeFrom(fields, |fields|, src) == Wire([])
    ensures DecodeLoop(fields, [], p, u) == Parsed(p, [])
    ensures RestDecodable(fields, |fields|, src, u)
  {
  }

  lemma {:induction false} FieldStep(fields: seq<Field>, i: nat, src: seq<Slot>, p: Progress, rest: Bytes, u: nat) returns (q: Progress)
    requires i < |fields| && WellFormed(fields) && StructFits(fields, src) && StructFits(fields, p.slots)
    requires Mid(fields, src, p.slots, i) && SeenTo(fields, i, p.seen)
    requires EncodeField(fields[i], At(fields, i, src)).Wire? && PartCountable(fields, i, src)
    ensures StructFits(fields, q.slots)
    ensures PartDecodable(fields, i, src, u) ==>
              && DecodeLoop(fields, EncodeField(fields[i], At(fields, i, src)).bytes + rest, p, u) == DecodeLoop(fields, rest, q, u)
              && Mid(fields, src, q.slots, i + 1) && SeenTo(fields, i + 1, q.seen)
    ensures !PartDecodable(fields, i, src, u) ==>
              DecodeLoop(fields, EncodeField(fields[i], At(fields, i, src)).bytes + rest, p, u) == Failed
    decreases fields, 3
  {
    hide Mid, SeenTo, DecodeLoop, DecodeInto, FieldView, FieldDecodable, EncodeElement, EncodeItems, SlotFits, StructFits;
    q := p;
    var f, a := fields[i], At(fields, i, src);
    assert WellFormedField(f);
    SlotIn(fields, i, p.slots);
    NowAt(fields, i, src, p.slots);
    if f.kind.Repeated? {
      if a.size == 0 {
        NothingThere(f, a, u);
        MidSkip(fields, i, src, p.slots);
        SeenSame(fields, i, p.seen);
        assert [] + rest == rest;
      } else if Packable(f.ltype) {
        q := PackedStep(fields, i, src, p, rest, u);
      } else {
        q := TaggedStep(fields, i, src, p, rest, u);
      }
    } else if Present(f, a) {
      q := SingleStep(fields, i, src, p, rest, u);
    } else {
      NothingThere(f, a, u);
      MidSkip(fields, i, src, p.slots);
      SeenSame(fields, i, p.seen);
      assert [] + rest == rest;
    }
  }

  lemma NothingThere(f: Field, a: Slot, u: nat)
    requires SlotFits(f, a) && (if f.kind.Repeated? then a.size == 0 else !Present(f, a))
    ensures FieldView(f, a) == [] && FieldDecodable(f, a, u)
  {
  }

  lemma SlotIn(fields: seq<Field>, i: nat, slots: seq<Slot>)
    requires i < |fields| && StructFits(fields, slots)
    ensures SlotOf(fields, i) < |slots| && At(fields, i, slots) == slots[SlotOf(fields, i)]
  {
    SlotBound(fields, i);
  }

  /** The slot of a field that is about to be read. */
  lemma NowAt(fields: seq<Field>, i: nat, src: seq<Slot>, dst: seq<Slot>)
    requires i < |fields| && StructFits(fields, src) && StructFits(fields, dst) && Mid(fields, src, dst, i)
    ensures !fields[i].kind.Oneof? ==> FreshSlot(fields[i], At(fields, i, dst))
  {
    assert Back(fields, i, src, dst, i);
  }

  lemma SeenSame(fields: seq<Field>, i: nat, seen: set<nat>)
    requires i < |fields| && SeenTo(fields, i, seen) && !fields[i].kind.Required?
    ensures SeenTo(fields, i + 1, seen)
  {
  }

  lemma SeenNext(fields: seq<Field>, i: nat, seen: set<nat>)
    requires i < |fields| && SeenTo(fields, i, seen) && fields[i].kind.Required?
    ensures SeenTo(fields, i + 1, seen + {RequiredBefore(fields, i)})
  {
  }

  lemma {:induction false} IndexBack(fields: seq<Field>, i: nat)
    requires i < |fields| && Tagged(fields)
    ensures IndexOf(fields, fields[i].tag) == Some(i)
  {
    assert forall j | 0 <= j < |fields| && fields[j].tag == fields[i].tag :: j == i;
  }

  /** A tag in front of the rest leads into the field. */
  lemma LoopStep(fields: seq<Field>, i: nat, wireType: nat, after: Bytes, p: Progress, u: nat)
    requires i < |fields| && WellFormed(fields) && StructFits(fields, p.slots) && wireType < 8
    ensures var next := DecodeInto(fields, i, wireType, after, p, u);
            DecodeLoop(fields, TagBytes(fields[i].tag, wireType) + after, p, u) ==
            if next.Parsed? then DecodeLoop(fields, next.rest, next.value, u) else Failed
  {
    hide DecodeInto, DecodeTag, TagBytes, StructFits, IndexOf;
    assert WellFormedField(fields[i]);
    IndexBack(fields, i);
    TagBack(fields[i].tag, wireType, after);
    assert TagBytes(fields[i].tag, wireType) + after != [] by {
      assert DecodeTag([]) == End([]) by { EndOfInput(); }
    }
  }

  lemma EndOfInput()
    ensures DecodeTag([]) == End([])
  {
  }

  /** Reading a field into its slot `d` */
  lemma IntoSlot(fields: seq<Field>, i: nat, wireType: nat, after: Bytes, p: Progress, u: nat)
    requires i < |fields| && WellFormed(fields) && StructFits(fields, p.slots)
    requires WellFormedField(fields[i]) && SlotOf(fields, i) < |p.slots|
    ensures var d := DecodeField(fields[i], wireType, after, At(fields, i, p.slots), u);
            var seen := if fields[i].kind.Required? then p.seen + {RequiredBefore(fields, i)} else p.seen;
            DecodeInto(fields, i, wireType, after, p, u) ==
            if d.Parsed? then Parsed(Progress(p.slots[SlotOf(fields, i) := d.value], seen), d.rest) else Failed
  {
    hide DecodeField, SlotFits;
  }

  // ---------------------------------------------------------------- a single element

  /** What reading back a field comes to. */
  ghost predicate FieldReads(f: Field, a: Slot, p: Parsed<Slot>, rest: Bytes, u: nat)
    requires SlotFits(f, a)
  {
    if FieldDecodable(f, a, u) then
      && p.Parsed? && p.rest == rest && SlotFits(f, p.value) && FieldView(f, p.value) == FieldView(f, a)
      && (f.kind.Oneof? ==> p.value.size == f.tag)
    else p.Failed?
  }

  lemma {:induction false} SingleBack(f: Field, a: Slot, d: Slot, rest: Bytes, u: nat)
    requires WellFormedField(f) && SlotFits(f, a) && SlotFits(f, d) && !f.kind.Repeated? && Present(f, a)
    requires !f.kind.Oneof? ==> FreshSlot(f, d)
    requires ItemFits(f, a.items[0]) && EncodeItem(f, a.items[0]).Wire? && ItemCountable(f, a.items[0])
    ensures FieldReads(f, a, DecodeField(f, WireType(f.ltype), EncodeItem(f, a.items[0]).bytes + rest, d, u), rest, u)
    decreases f, 1
  {
    hide DecodeItem, EncodeItem, ItemView, ItemDecodable, Over, NewSlots;
    var memory := if !f.kind.Oneof? then d.items[0] else if f.ltype.Submessage? then Struct(NewSlots(f.sub)) else Over(f, d.items[0]);
    if f.kind.Oneof? && f.ltype.Submessage? {
      NewFresh(f.sub);
    }
    ItemBack(f, a.items[0], memory, rest, u);
  }

  lemma NewFresh(fields: seq<Field>)
    requires WellFormed(fields)
    ensures Fresh(fields, NewSlots(fields))
  {
    NewSlotsMeans(fields);
    DefaultsFresh(fields, ZeroSlots(fields, |fields|));
  }

  lemma {:induction false} SingleStep(fields: seq<Field>, i: nat, src: seq<Slot>, p: Progress, rest: Bytes, u: nat) returns (q: Progress)
    requires i < |fields| && WellFormed(fields) && StructFits(fields, src) && StructFits(fields, p.slots)
    requires Mid(fields, src, p.slots, i) && SeenTo(fields, i, p.seen) && WellFormedField(fields[i])
    requires !fields[i].kind.Repeated? && Present(fields[i], At(fields, i, src))
    requires EncodeField(fields[i], At(fields, i, src)).Wire? && PartCountable(fields, i, src)
    ensures StructFits(fields, q.slots)
    ensures PartDecodable(fields, i, src, u) ==>
              && DecodeLoop(fields, EncodeField(fields[i], At(fields, i, src)).bytes + rest, p, u) == DecodeLoop(fields, rest, q, u)
              && Mid(fields, src, q.slots, i + 1) && SeenTo(fields, i + 1, q.seen)
    ensures !PartDecodable(fields, i, src, u) ==>
              DecodeLoop(fields, EncodeField(fields[i], At(fields, i, src)).bytes + rest, p, u) == Failed
    decreases fields, 2
  {
    hide Mid, SeenTo, DecodeLoop, DecodeInto, DecodeField, FieldView, FieldDecodable, EncodeItem, SlotFits, StructFits, FreshSlot, TagBytes;
    q := p;
    var f, a, d := fields[i], At(fields, i, src), At(fields, i, p.slots);
    SlotIn(fields, i, p.slots);
    NowAt(fields, i, src, p.slots);
    PresentFits(f, a);
    var item := EncodeItem(f, a.items[0]);
    var tag := TagBytes(f.tag, WireType(f.ltype));
    Regroup(tag, item.bytes, rest);
    LoopStep(fields, i, WireType(f.ltype), item.bytes + rest, p, u);
    IntoSlot(fields, i, WireType(f.ltype), item.bytes + rest, p, u);
    SingleBack(f, a, d, rest, u);
    var r := DecodeField(f, WireType(f.ltype), item.bytes + rest, d, u);
    if FieldDecodable(f, a, u) {
      SomeView(f, a);
      MidStore(fields, i, src, p.slots, r.value);
      q := Progress(p.slots[SlotOf(fields, i) := r.value], if f.kind.Required? then p.seen + {RequiredBefore(fields, i)} else p.seen);
      if f.kind.Required? {
        SeenNext(fields, i, p.seen);
      } else {
        SeenSame(fields, i, p.seen);
      }
    }
  }

  lemma PresentFits(f: Field, a: Slot)
    requires SlotFits(f, a) && !f.kind.Repeated? && Present(f, a)
    ensures |a.items| == 1 && ItemFits(f, a.items[0])
    ensures f.kind.Oneof? ==> a.size == f.tag
  {
  }

  // ---------------------------------------------------------------- arrays

  /** The first `j` elements of an array have been read. */
  ghost predicate PartRead(f: Field, a: Slot, d: Slot, j: nat) {
    && RepeatedFits(f, a) && RepeatedFits(f, d)
    && d.size == j <= a.size <= f.arraySize
    && forall k | 0 <= k < j :: ItemView(f, d.items[k]) == ItemView(f, a.items[k])
  }

  lemma {:induction false} ElementBack(f: Field, a: Slot, d: Slot, j: nat, rest: Bytes, u: nat)
    requires WellFormedField(f) && PartRead(f, a, d, j) && j < a.size && ItemFits(f, a.items[j])
    requires EncodeItem(f, a.items[j]).Wire? && ItemCountable(f, a.items[j])
    ensures var p := DecodeElement(f, EncodeItem(f, a.items[j]).bytes + rest, d, u);
            if ItemDecodable(f, a.items[j], u) then p.Parsed? && p.rest == rest && PartRead(f, a, p.value, j + 1) else p.Failed?
    decreases f, 1
  {
    hide DecodeItem, EncodeItem, ItemView, ItemDecodable;
    ItemBack(f, a.items[j], d.items[j], rest, u);
  }

  ghost function Elements(f: Field, a: Slot, j: nat, tagged: bool): Encoded
    requires RepeatedFits(f, a) && j <= a.size <= f.arraySize
  {
    EncodeItems(f, a.items[j..a.size], tagged)
  }

  lemma NextElement(f: Field, a: Slot, j: nat, tagged: bool)
    requires RepeatedFits(f, a) && j < a.size <= f.arraySize
    ensures ItemFits(f, a.items[j])
    ensures Elements(f, a, j, tagged) == Join(EncodeElement(f, a.items[j], tagged), Elements(f, a, j + 1, tagged))
  {
    assert a.items[j..a.size][1..] == a.items[j + 1..a.size];
  }

  /** Packed elements are numbers, which always come back. */
  lemma {:induction false} PackedBack(f: Field, a: Slot, d: Slot, j: nat, u: nat) returns (r: Slot)
    requires WellFormedField(f) && Packable(f.ltype) && PartRead(f, a, d, j)
    requires Elements(f, a, j, false).Wire?
    ensures PartRead(f, a, r, a.size)
    ensures DecodePacked(f, Elements(f, a, j, false).bytes, d, u) == Some(r)
    decreases f, 2, a.size - j
  {
    hide EncodeItem, DecodeElement, PartRead;
    r := d;
    PartSizes(f, a, d, j);
    if j < a.size {
      NextElement(f, a, j, false);
      var one, rest := EncodeItem(f, a.items[j]), Elements(f, a, j + 1, false);
      hide Elements;
      ElementBack(f, a, d, j, rest.bytes, u);
      var p := DecodeElement(f, one.bytes + rest.bytes, d, u);
      r := PackedBack(f, a, p.value, j + 1, u);
    } else {
      assert a.items[j..a.size] == [];
    }
  }

  lemma PartSizes(f: Field, a: Slot, d: Slot, j: nat)
    requires PartRead(f, a, d, j)
    ensures RepeatedFits(f, a) && RepeatedFits(f, d) && d.size == j <= a.size <= f.arraySize == |a.items|
  {
  }

  lemma AllRead(f: Field, a: Slot, d: Slot)
    requires PartRead(f, a, d, a.size)
    ensures SlotFits(f, a) && SlotFits(f, d) && FieldView(f, d) == FieldView(f, a)
  {
    hide ItemView;
    if a.size > 0 {
      assert ItemViews(f, d.items[..d.size]) == ItemViews(f, a.items[..a.size]);
    }
  }

  lemma ArraySizes(f: Field, a: Slot, d: Slot)
    requires SlotFits(f, a) && SlotFits(f, d) && FreshSlot(f, d) && f.kind.Repeated?
    requires EncodeField(f, a).Wire? && a.size > 0
    ensures PartRead(f, a, d, 0)
    ensures EncodeField(f, a) ==
            if Packable(f.ltype) then Join(Wire(TagBytes(f.tag, 2)), Delimited(Elements(f, a, 0, false))) else Elements(f, a, 0, true)
  {
    hide EncodeItems, TagBytes;
    assert a.items[..a.size] == a.items[0..a.size];
  }

  lemma NumbersDecodable(f: Field, a: Slot, u: nat)
    requires SlotFits(f, a) && f.kind.Repeated? && Packable(f.ltype)
    ensures FieldDecodable(f, a, u)
  {
  }

  lemma {:induction false} PackedStep(fields: seq<Field>, i: nat, src: seq<Slot>, p: Progress, rest: Bytes, u: nat) returns (q: Progress)
    requires i < |fields| && WellFormed(fields) && StructFits(fields, src) && StructFits(fields, p.slots)
    requires Mid(fields, src, p.slots, i) && SeenTo(fields, i, p.seen) && WellFormedField(fields[i])
    requires fields[i].kind.Repeated? && At(fields, i, src).size > 0 && Packable(fields[i].ltype)
    requires EncodeField(fields[i], At(fields, i, src)).Wire? && PartCountable(fields, i, src)
    ensures StructFits(fields, q.slots) && PartDecodable(fields, i, src, u)
    ensures DecodeLoop(fields, EncodeField(fields[i], At(fields, i, src)).bytes + rest, p, u) == DecodeLoop(fields, rest, q, u)
    ensures Mid(fields, src, q.slots, i + 1) && SeenTo(fields, i + 1, q.seen)
    decreases fields, 2
  {
    hide Mid, SeenTo, DecodeLoop, DecodeInto, DecodeField, FieldView, FieldDecodable, EncodeField, Elements, SlotFits, StructFits;
    hide FreshSlot, TagBytes, Prefixed, PartRead;
    var f, a, d := fields[i], At(fields, i, src), At(fields, i, p.slots);
    SlotIn(fields, i, p.slots);
    NowAt(fields, i, src, p.slots);
    ArraySizes(f, a, d);
    PartSizes(f, a, d, 0);
    var tag, content := TagBytes(f.tag, 2), Elements(f, a, 0, false).bytes;
    PrefixedLonger(content);
    var r := PackedBack(f, a, d, 0, u);
    PackedField(f, a, d, r, content, rest, u);
    Regroup(tag, Prefixed(content), rest);
    LoopStep(fields, i, 2, Prefixed(content) + rest, p, u);
    IntoSlot(fields, i, 2, Prefixed(content) + rest, p, u);
    AllRead(f, a, r);
    SomeView(f, a);
    MidStore(fields, i, src, p.slots, r);
    q := Progress(p.slots[SlotOf(fields, i) := r], p.seen);
    SeenSame(fields, i, p.seen);
    NumbersDecodable(f, a, u);
  }

  lemma PackedField(f: Field, a: Slot, d: Slot, r: Slot, content: Bytes, rest: Bytes, u: nat)
    requires WellFormedField(f) && Packable(f.ltype) && PartRead(f, a, d, 0) && |content| < TWO_32
    requires RepeatedFits(f, d) && DecodePacked(f, content, d, u) == Some(r)
    ensures DecodeField(f, 2, Prefixed(content) + rest, d, u) == Parsed(r, rest)
  {
    hide DecodePacked, DecodeString, Prefixed;
    StringBack(content, rest);
  }

  ghost predicate LaterDecodable(f: Field, a: Slot, j: nat, u: nat)
    requires RepeatedFits(f, a) && j <= a.size <= f.arraySize
  {
    forall k | j <= k < a.size :: assert ItemFits(f, a.items[k]); ItemDecodable(f, a.items[k], u)
  }

  /** Elements that each have their own tag, read into the slot `d` of the field. */
  lemma {:induction false} TaggedBack(fields: seq<Field>, i: nat, a: Slot, d: Slot, j: nat, p: Progress, rest: Bytes, u: nat) returns (r: Slot)
    requires i < |fields| && WellFormed(fields) && StructFits(fields, p.slots) && WellFormedField(fields[i])
    requires PartRead(fields[i], a, d, j) && SlotOf(fields, i) < |p.slots|
    requires At(fields, i, p.slots) == d
    requires Elements(fields[i], a, j, true).Wire? && forall k | j <= k < a.size :: ElementCountable(fields[i], a, k)
    ensures LaterDecodable(fields[i], a, j, u) ==>
              && PartRead(fields[i], a, r, a.size) && StructFits(fields, p.slots[SlotOf(fields, i) := r])
              && DecodeLoop(fields, Elements(fields[i], a, j, true).bytes + rest, p, u) ==
                 DecodeLoop(fields, rest, Progress(p.slots[SlotOf(fields, i) := r], p.seen), u)
    ensures !LaterDecodable(fields[i], a, j, u) ==> DecodeLoop(fields, Elements(fields[i], a, j, true).bytes + rest, p, u) == Failed
    decreases fields, 1, a.size - j
  {
    hide DecodeLoop, DecodeInto, DecodeElement, EncodeItem, PartRead, ItemDecodable, ItemCountable, SlotFits, StructFits, TagBytes;
    var f, s := fields[i], SlotOf(fields, i);
    PartSizes(f, a, d, j);
    r := d;
    if j < a.size {
      NextElement(f, a, j, true);
      var item, others := EncodeItem(f, a.items[j]), Elements(f, a, j + 1, true);
      hide Elements;
      var tag := TagBytes(f.tag, WireType(f.ltype));
      var after := item.bytes + (others.bytes + rest);
      Regroup(tag + item.bytes, others.bytes, rest);
      Regroup(tag, item.bytes, others.bytes + rest);
      LoopStep(fields, i, WireType(f.ltype), after, p, u);
      IntoSlot(fields, i, WireType(f.ltype), after, p, u);
      ElementField(f, after, d, u);
      assert ElementCountable(f, a, j);
      ElementBack(f, a, d, j, others.bytes + rest, u);
      if ItemDecodable(f, a.items[j], u) {
        var e := DecodeElement(f, after, d, u).value;
        PartSizes(f, a, e, j + 1);
        StillFits(fields, i, p.slots, e);
        r := TaggedBack(fields, i, a, e, j + 1, Progress(p.slots[s := e], p.seen), rest, u);
        assert p.slots[s := e][s := r] == p.slots[s := r];
      }
    } else {
      assert a.items[j..a.size] == [];
      assert [] + rest == rest;
      assert p.slots[s := d] == p.slots;
    }
  }

  /** An array of numbers is read as well when its elements come one by one, each with its own tag. */
  lemma UnpackedIsRead(fields: seq<Field>, i: nat, a: Slot, p: Progress, rest: Bytes, u: nat) returns (r: Slot)
    requires i < |fields| && WellFormed(fields) && StructFits(fields, p.slots)
    requires fields[i].kind.Repeated? && Packable(fields[i].ltype)
    requires PartRead(fields[i], a, At(fields, i, p.slots), 0) && Elements(fields[i], a, 0, true).Wire?
    ensures SlotOf(fields, i) < |p.slots| && StructFits(fields, p.slots[SlotOf(fields, i) := r])
    ensures SlotFits(fields[i], a) && SlotFits(fields[i], r) && FieldView(fields[i], r) == FieldView(fields[i], a)
    ensures DecodeLoop(fields, Elements(fields[i], a, 0, true).bytes + rest, p, u) ==
            DecodeLoop(fields, rest, Progress(p.slots[SlotOf(fields, i) := r], p.seen), u)
  {
    hide DecodeLoop, Elements, EncodeItem, PartRead, SlotFits, StructFits, FieldView, FieldDecodable, WellFormedField;
    SlotIn(fields, i, p.slots);
    assert WellFormedField(fields[i]);
    PartSizes(fields[i], a, At(fields, i, p.slots), 0);
    NumbersLater(fields[i], a, u);
    r := TaggedBack(fields, i, a, At(fields, i, p.slots), 0, p, rest, u);
    AllRead(fields[i], a, r);
  }

  lemma NumbersLater(f: Field, a: Slot, u: nat)
    requires RepeatedFits(f, a) && a.size <= f.arraySize && Packable(f.ltype)
    ensures LaterDecodable(f, a, 0, u)
    ensures forall k | 0 <= k < a.size :: ElementCountable(f, a, k)
  {
    forall k | 0 <= k < a.size
      ensures ElementCountable(f, a, k) && (assert ItemFits(f, a.items[k]); ItemDecodable(f, a.items[k], u))
    {
      assert ItemFits(f, a.items[k]);
    }
  }

  lemma ElementField(f: Field, input: Bytes, d: Slot, u: nat)
    requires WellFormedField(f) && RepeatedFits(f, d)
    ensures DecodeField(f, WireType(f.ltype), input, d, u) == DecodeElement(f, input, d, u)
  {
  }

  lemma {:induction false} TaggedStep(fields: seq<Field>, i: nat, src: seq<Slot>, p: Progress, rest: Bytes, u: nat) returns (q: Progress)
    requires i < |fields| && WellFormed(fields) && StructFits(fields, src) && StructFits(fields, p.slots)
    requires Mid(fields, src, p.slots, i) && SeenTo(fields, i, p.seen) && WellFormedField(fields[i])
    requires fields[i].kind.Repeated? && At(fields, i, src).size > 0 && !Packable(fields[i].ltype)
    requires EncodeField(fields[i], At(fields, i, src)).Wire? && PartCountable(fields, i, src)
    ensures StructFits(fields, q.slots)
    ensures PartDecodable(fields, i, src, u) ==>
              && DecodeLoop(fields, EncodeField(fields[i], At(fields, i, src)).bytes + rest, p, u) == DecodeLoop(fields, rest, q, u)
              && Mid(fields, src, q.slots, i + 1) && SeenTo(fields, i + 1, q.seen)
    ensures !PartDecodable(fields, i, src, u) ==>
              DecodeLoop(fields, EncodeField(fields[i], At(fields, i, src)).bytes + rest, p, u) == Failed
    decreases fields, 2
  {
    hide Mid, SeenTo, DecodeLoop, FieldView, FieldDecodable, EncodeField, Elements, SlotFits, StructFits, FreshSlot, PartRead, LaterDecodable;
    q := p;
    var f, a, d := fields[i], At(fields, i, src), At(fields, i, p.slots);
    SlotIn(fields, i, p.slots);
    NowAt(fields, i, src, p.slots);
    ArraySizes(f, a, d);
    PartSizes(f, a, d, 0);
    LaterMeans(f, a, u);
    var r := TaggedBack(fields, i, a, d, 0, p, rest, u);
    if LaterDecodable(f, a, 0, u) {
      AllRead(f, a, r);
      SomeView(f, a);
      MidStore(fields, i, src, p.slots, r);
      q := Progress(p.slots[SlotOf(fields, i) := r], p.seen);
      SeenSame(fields, i, p.seen);
    }
  }

  lemma LaterMeans(f: Field, a: Slot, u: nat)
    requires RepeatedFits(f, a) && a.size <= f.arraySize
    ensures FieldDecodable(f, a, u) <==> LaterDecodable(f, a, 0, u)
  {
    hide ItemDecodable;
    assert forall k | 0 <= k < a.size :: a.items[..a.size][k] == a.items[k];
  }

  // ---------------------------------------------------------------- the round trip

  /** pb_decode of what pb_encode wrote, into any memory: it succeeds, and the same fields are present with the
      same contents, if and only if every string present is terminated and the check of required fields works.
      Lengths must be within 32 bits, as StringBackExactly says of each. */
  lemma RoundTrip(fields: seq<Field>, src: seq<Slot>, dst: seq<Slot>, u: nat)
    requires WellFormed(fields) && StructFits(fields, src) && StructFits(fields, dst)
    requires EncodeFrom(fields, 0, src).Wire? && PartsCountable(fields, src)
    ensures var p := Decode(fields, EncodeFrom(fields, 0, src).bytes, dst, u);
            && (p.Parsed? <==> Decodable(fields, src, u))
            && (p.Parsed? ==> p.rest == [] && View(fields, |fields|, p.value) == View(fields, |fields|, src))
            && (p.Parsed? ==> OthersDefault(fields, src, p.value))
  {
    hide DecodeFields, EncodeFrom, Decodable, View, OthersDefault;
    DefaultsFresh(fields, dst);
    StructBack(fields, src, SetDefaults(fields, dst), u);
  }

  // ---------------------------------------------------------------- where it fails

  /** One field of a message whose fields are all required. */
  function Flag(i: nat): Field {
    Field(i + 1, Required, UnsignedVarint, 4, 0, false, Number(0), [])
  }

  lemma {:induction false} Flags(fields: seq<Field>, i: nat)
    requires i < |fields| <= 32 && forall k | 0 <= k < |fields| :: fields[k] == Flag(k)
    ensures SlotOf(fields, i) == i && RequiredBefore(fields, i) == i && RequiredBefore(fields, i + 1) == i + 1
    decreases i
  {
    if i > 0 {
      Flags(fields, i - 1);
    }
  }

  lemma OneFlag(i: nat)
    requires i < 32
    ensures WellFormedField(Flag(i)) && SlotFits(Flag(i), Slot(0, [Number(0)]))
  {
    assert WellFormed([]);
    assert ItemFits(Flag(i), Number(0));
  }

  lemma FlagsFit(fields: seq<Field>, slots: seq<Slot>)
    requires |fields| == |slots| == 32 && forall k | 0 <= k < 32 :: fields[k] == Flag(k) && slots[k] == Slot(0, [Number(0)])
    ensures WellFormed(fields) && StructFits(fields, slots) && RequiredCount(fields) == 32
  {
    hide WellFormedField, SlotFits, SlotOf, RequiredBefore;
    Flags(fields, 31);
    forall k | 0 <= k < 32
      ensures WellFormedField(fields[k]) && SlotFits(fields[k], slots[k]) && SlotOf(fields, k) == k
    {
      OneFlag(k);
      Flags(fields, k);
    }
    assert Tagged(fields);
    forall k | 0 <= k < |fields|
      ensures FieldFits(fields, k, slots)
    {
      SlotBound(fields, k);
    }
  }

  lemma {:induction false} FlagsEncode(fields: seq<Field>, slots: seq<Slot>, i: nat)
    requires |fields| == |slots| == 32 && i <= 32 && StructFits(fields, slots)
    requires forall k | 0 <= k < 32 :: fields[k] == Flag(k) && slots[k] == Slot(0, [Number(0)])
    ensures EncodeFrom(fields, i, slots).Wire?
    decreases 32 - i
  {
    if i < 32 {
      FlagsEncode(fields, slots, i + 1);
      Flags(fields, i);
      FlagEncodes(fields[i], slots[i], i);
      hide EncodeField;
    }
  }

  lemma FlagEncodes(f: Field, slot: Slot, i: nat)
    requires i < 32 && f == Flag(i) && slot == Slot(0, [Number(0)])
    ensures SlotFits(f, slot) && EncodeField(f, slot).Wire? && FieldCountable(f, slot)
  {
    assert ItemFits(f, Number(0));
    assert EncodeItem(f, Number(0)) == Wire(Varint(0));
  }

  /** A message with 32 required fields, all there, is refused where a shift by 32 does not give zero. */
  lemma RefusedThough(u: nat) returns (fields: seq<Field>, src: seq<Slot>)
    requires u != 0
    ensures WellFormed(fields) && StructFits(fields, src)
    ensures EncodeFrom(fields, 0, src).Wire?
    ensures Decode(fields, EncodeFrom(fields, 0, src).bytes, src, u) == Failed
  {
    fields := seq(32, i requires 0 <= i => Flag(i));
    src := seq(32, i => Slot(0, [Number(0)]));
    FlagsFit(fields, src);
    FlagsEncode(fields, src, 0);
    forall k | 0 <= k < |fields|
      ensures PartCountable(fields, k, src)
    {
      Flags(fields, k);
      FlagEncodes(fields[k], src[k], k);
    }
    hide Decode, EncodeFrom, WellFormed, StructFits;
    RoundTrip(fields, src, src, u);
  }

  const NAME := Field(1, Required, CString, 2, 0, false, Raw([0, 0]), [])
  const FULL := Slot(0, [Raw([65, 66])])

  lemma NameFits()
    ensures WellFormed([NAME]) && StructFits([NAME], [FULL]) && !Decodable([NAME], [FULL], 0)
    ensures EncodeFrom([NAME], 0, [FULL]) == Wire(TagBytes(1, 2) + Prefixed([65, 66]))
  {
    var fields, slots := [NAME], [FULL];
    assert SlotOf(fields, 0) == 0 && WellFormed([]);
    assert ItemFits(NAME, Raw([65, 66])) && ItemFits(NAME, Raw([0, 0]));
    assert WellFormedField(NAME) && Tagged(fields) && SlotFits(NAME, FULL);
    assert forall k | 0 <= k < |fields| :: FieldFits(fields, k, slots);
    assert At(fields, 0, slots) == FULL;
    assert StringLength([65, 66]) == 2 by {
      assert [65, 66][1..] == [66] && [66][1..] == [];
    }
    assert !PartDecodable(fields, 0, slots, 0);
    assert [65, 66][..2] == [65, 66];
    assert EncodeItem(NAME, Raw([65, 66])) == Wire(Prefixed([65, 66]));
    assert EncodeField(NAME, FULL) == Wire(TagBytes(1, 2) + Prefixed([65, 66]));
    assert EncodeFrom(fields, 1, slots) == Wire([]);
    assert (TagBytes(1, 2) + Prefixed([65, 66])) + [] == TagBytes(1, 2) + Prefixed([65, 66]);
  }

  /** A string that fills its memory to the last byte is written, and then refused for want of a terminator. */
  lemma UnterminatedRefused()
    ensures StructFits([NAME], [FULL]) && WellFormed([NAME])
    ensures EncodeFrom([NAME], 0, [FULL]).Wire?
    ensures Decode([NAME], EncodeFrom([NAME], 0, [FULL]).bytes, [FULL], 0) == Failed
  {
    NameFits();
    assert PartCountable([NAME], 0, [FULL]);
    hide Decode, EncodeFrom, WellFormed, StructFits, Decodable;
    RoundTrip([NAME], [FULL], [FULL], 0);
  }
}
