/**
  The nanopb decoder (nanopb/pb_decode.c), for fields kept in the struct itself.  What decoding some bytes
  into a struct does is a function of descriptor, bytes and struct; the decoder computes it.  `u` stands for
  what the machine makes of a 32-bit word shifted right by 32, which C leaves undefined.
*/
module PbDecoders {
  import opened IntegerSizes
  import opened InternalKeys
  import opened Codings
  import opened PbFields

  datatype Parsed<T> = Failed | Parsed(value: T, rest: Bytes)

  // ---------------------------------------------------------------- simple values

  function DecodeVarint32(input: Bytes): (p: Parsed<nat>)
    ensures p.Parsed? ==> |p.rest| < |input| && p.value < TWO_32
  {
    var t := TakeVarint32(input);
    if t.Taken? then Parsed(t.value, input[t.used..]) else Failed
  }

  function DecodeVarint64(input: Bytes): (p: Parsed<nat>)
    ensures p.Parsed? ==> |p.rest| < |input| && p.value < TWO_64
  {
    var t := TakeVarint64(input);
    if t.Taken? then Parsed(t.value, input[t.used..]) else Failed
  }

  function ReadBytes(input: Bytes, n: nat): (p: Parsed<Bytes>)
    ensures p.Parsed? ==> |p.rest| <= |input| && |p.value| == n
  {
    if n <= |input| then Parsed(input[..n], input[n..]) else Failed
  }

  /** A length, then so many bytes: a substream. */
  function DecodeString(input: Bytes): (p: Parsed<Bytes>)
    ensures p.Parsed? ==> |p.rest| < |input| && |p.value| < |input| && |p.value| < TWO_32
  {
    var size := DecodeVarint32(input);
    if size.Parsed? then ReadBytes(size.rest, size.value) else Failed
  }

  function FromLittleEndian(b: Bytes): (n: nat) {
    if b == [] then 0 else b[0] + 256 * FromLittleEndian(b[1..])
  }

  /** The signed integer whose lowest bits, so many that they have 2 * `half` values, are those of `n`. */
  function SignExtend(n: int, half: int): (r: int)
    requires half > 0
    ensures -half <= r < half
  {
    var low := n % (2 * half);
    if low < half then low else low - 2 * half
  }

  function FromZigZag(v: nat): int {
    if v % 2 == 1 then -(v / 2) - 1 else v / 2
  }

  /** A signed field takes what its size can hold; up to 32 bits, only the low half of the varint is looked at. */
  function Narrow(v: nat, size: nat): Option<int> {
    if !ValidSize(size) then None
    else
      var s := SignExtend(v, if size == 8 then HalfRange(8) else HalfRange(4));
      if SignExtend(s, HalfRange(size)) == s then Some(s) else None
  }

  function NumberOf(t: LType, size: nat, v: nat): (r: Option<int>)
    ensures r.Some? && Packable(t) && v < TWO_64 && !t.Fixed32? && !t.Fixed64? ==> NumberFits(t, size, r.value)
  {
    match t
    case SignedVarint => Narrow(v, size)
    case UnsignedVarint => if ValidSize(size) && v < 2 * HalfRange(size) then Some(v) else None
    case ZigZag => if ValidSize(size) && SignExtend(FromZigZag(v), HalfRange(size)) == FromZigZag(v) then Some(FromZigZag(v)) else None
    case _ => None
  }

  function DecodeNumber(t: LType, size: nat, input: Bytes): (p: Parsed<int>)
    requires Packable(t)
    ensures p.Parsed? ==> |p.rest| < |input| && NumberFits(t, size, p.value)
  {
    if t.Fixed32? || t.Fixed64? then
      var raw := ReadBytes(input, if t.Fixed32? then 4 else 8);
      if raw.Parsed? then
        FourBytesFit(raw.value);
        Parsed(FromLittleEndian(raw.value), raw.rest)
      else Failed
    else
      var v := DecodeVarint64(input);
      if v.Parsed? && NumberOf(t, size, v.value).Some? then Parsed(NumberOf(t, size, v.value).value, v.rest) else Failed
  }

  lemma LittleEndianFits(b: Bytes)
    ensures |b| == 1 ==> FromLittleEndian(b) < 0x100
    ensures |b| == 2 ==> FromLittleEndian(b) < 0x1_0000
    ensures |b| == 3 ==> FromLittleEndian(b) < 0x100_0000
    ensures |b| == 4 ==> FromLittleEndian(b) < TWO_32
    decreases |b|
  {
    if 1 < |b| {
      LittleEndianFits(b[1..]);
    }
  }

  lemma FourBytesFit(b: Bytes)
    ensures |b| == 4 ==> FromLittleEndian(b) < TWO_32
    ensures |b| == 8 ==> FromLittleEndian(b) < TWO_64
  {
    LittleEndianFits(b);
    if |b| == 8 {
      LittleEndianFits(b[4..]);
      assert b[1..][1..] == b[2..] && b[2..][1..] == b[3..] && b[3..][1..] == b[4..];
      assert FromLittleEndian(b[2..]) == b[2] + 256 * FromLittleEndian(b[3..]);
      assert FromLittleEndian(b[3..]) == b[3] + 256 * FromLittleEndian(b[4..]);
    }
  }

  // ---------------------------------------------------------------- initial values

  /** pb_field_set_to_default on the memory of one element */
  ghost function InitialItem(f: Field, item: Item): (r: Item)
    requires WellFormedField(f) && ItemFits(f, item)
    ensures ItemFits(f, r)
    decreases f, 0
  {
    if f.ltype.Submessage? then Struct(SetDefaults(f.sub, item.slots)) else f.initial
  }

  /** pb_field_set_to_default: nothing there, and the memory of a repeated field or of a oneof left alone. */
  ghost function InitialSlot(f: Field, slot: Slot): (r: Slot)
    requires WellFormedField(f) && SlotFits(f, slot) && f.tag != 0
    ensures SlotFits(f, r)
    decreases f, 1
  {
    match f.kind
    case Required => Slot(slot.size, [InitialItem(f, slot.items[0])])
    case Optional => Slot(0, [InitialItem(f, slot.items[0])])
    case _ => slot.(size := 0)
  }

  /** pb_message_set_to_defaults */
  ghost function SetDefaults(fields: seq<Field>, slots: seq<Slot>): (r: seq<Slot>)
    requires WellFormed(fields) && StructFits(fields, slots)
    ensures StructFits(fields, r)
    decreases fields, |fields| + 1
  {
    SetDefaultsTo(fields, |fields|, slots)
  }

  ghost function SetDefaultsTo(fields: seq<Field>, n: nat, slots: seq<Slot>): (r: seq<Slot>)
    requires n <= |fields| && WellFormed(fields) && StructFits(fields, slots)
    ensures StructFits(fields, r)
    decreases fields, n
  {
    if n == 0 then slots
    else
      var before := SetDefaultsTo(fields, n - 1, slots);
      assert FieldFits(fields, n - 1, before);
      SlotBound(fields, n - 1);
      var s := SlotOf(fields, n - 1);
      var slot := InitialSlot(fields[n - 1], before[s]);
      StillFits(fields, n - 1, before, slot);
      before[s := slot]
  }

  /** Storing to one field keeps the types of all. */
  lemma StillFits(fields: seq<Field>, i: nat, slots: seq<Slot>, slot: Slot)
    requires i < |fields| && Tagged(fields) && StructFits(fields, slots) && SlotFits(fields[i], slot)
    requires SlotOf(fields, i) < |slots|
    requires fields[i].kind.Oneof? ==> slot.size == 0 || slot.size == fields[i].tag
    ensures StructFits(fields, slots[SlotOf(fields, i) := slot])
  {
    hide SlotFits;
    var changed := slots[SlotOf(fields, i) := slot];
    forall j | 0 <= j < |fields|
      ensures FieldFits(fields, j, changed)
    {
      assert FieldFits(fields, j, slots);
      SlotBound(fields, j);
      if j != i && SlotOf(fields, j) == SlotOf(fields, i) {
        SharedMeansOneof(fields, i, j);
        OtherMember(fields[i], fields[j], slot);
      }
    }
  }

  lemma OtherMember(f: Field, g: Field, slot: Slot)
    requires f.kind.Oneof? && g.kind.Oneof? && f.tag != g.tag && g.tag != 0
    requires SlotFits(f, slot) && (slot.size == 0 || slot.size == f.tag)
    ensures SlotFits(g, slot)
  {
  }

  function ZeroBytes(n: nat): (r: Bytes)
    ensures |r| == n
  {
    seq(n, i => 0)
  }

  function ZeroItem(f: Field): (r: Item)
    requires WellFormedField(f)
    ensures ItemFits(f, r)
    decreases f
  {
    match f.ltype
    case Submessage =>
      ZeroFits(f.sub, ZeroSlots(f.sub, |f.sub|));
      Struct(ZeroSlots(f.sub, |f.sub|))
    case ByteArray => Counted(0, ZeroBytes(f.dataSize - COUNT_SIZE))
    case CString => Raw(ZeroBytes(f.dataSize))
    case FixedBytes => Raw(ZeroBytes(f.dataSize))
    case _ => Number(0)
  }

  /** Memory set to zero, for the first `n` fields. */
  function ZeroSlots(fields: seq<Field>, n: nat): (r: seq<Slot>)
    requires n <= |fields| && WellFormed(fields)
    ensures |r| == if n == 0 then 0 else SlotOf(fields, n - 1) + 1
    ensures forall j | 0 <= j < n :: ZeroField(fields, j, r)
    decreases fields, n
  {
    if n == 0 then []
    else
      var before := ZeroSlots(fields, n - 1);
      var f := fields[n - 1];
      assert WellFormedField(f);
      assert n > 1 ==> ZeroField(fields, n - 2, before);
      if n > 1 && SharesSlot(fields[n - 2], f) then
        assert forall j | 0 <= j < n - 1 :: ZeroField(fields, j, before);
        before
      else
        var r := before + [Slot(0, seq(if f.kind.Repeated? then f.arraySize else 1, i => ZeroItem(f)))];
        assert forall j | 0 <= j < n - 1 :: ZeroField(fields, j, before) ==> ZeroField(fields, j, r);
        r
  }

  predicate ZeroField(fields: seq<Field>, j: nat, slots: seq<Slot>)
    requires j < |fields|
    decreases fields, 0
  {
    var s := SlotOf(fields, j);
    s < |slots| && slots[s].size == 0 && (fields[j].tag != 0 ==> SlotFits(fields[j], slots[s]))
  }

  lemma ZeroFits(fields: seq<Field>, slots: seq<Slot>)
    requires Tagged(fields) && |slots| == SlotCount(fields)
    requires forall j | 0 <= j < |fields| :: ZeroField(fields, j, slots)
    ensures StructFits(fields, slots)
  {
    forall j | 0 <= j < |fields|
      ensures FieldFits(fields, j, slots)
    {
      assert ZeroField(fields, j, slots);
    }
  }

  /** memset and the defaults after it */
  ghost function NewSlots(fields: seq<Field>): (r: seq<Slot>)
    requires WellFormed(fields)
    ensures StructFits(fields, r)
  {
    var zero := ZeroSlots(fields, |fields|);
    ZeroFits(fields, zero);
    SetDefaults(fields, zero)
  }

  // ---------------------------------------------------------------- fields

  /** The memory a value of this field is written over; what another member of a oneof left is taken as zero. */
  function Over(f: Field, item: Item): (r: Item)
    requires WellFormedField(f)
    ensures ItemFits(f, r)
  {
    if ItemFits(f, item) then item else ZeroItem(f)
  }

  function Overwrite(buffer: Bytes, start: Bytes): (r: Bytes)
    requires |start| <= |buffer|
    ensures |r| == |buffer|
  {
    start + buffer[|start|..]
  }

  function DecodeBytes(f: Field, input: Bytes, item: Item): (p: Parsed<Item>)
    requires ItemFits(f, item) && !f.ltype.Submessage? && !Packable(f.ltype)
    ensures p.Parsed? ==> |p.rest| < |input| && ItemFits(f, p.value)
  {
    var size := DecodeVarint32(input);
    if !size.Parsed? then Failed
    else
      var room :=
        if f.ltype.ByteArray? then size.value + COUNT_SIZE <= f.dataSize
        else if f.ltype.CString? then size.value + 1 < TWO_32 && size.value + 1 <= f.dataSize
        else size.value == 0 || size.value == f.dataSize;
      if !room then Failed
      else if f.ltype.FixedBytes? && size.value == 0 then Parsed(Raw(ZeroBytes(f.dataSize)), size.rest)
      else
        var data := ReadBytes(size.rest, size.value);
        if !data.Parsed? then Failed
        else if f.ltype.ByteArray? then Parsed(Counted(size.value, Overwrite(item.buffer, data.value)), data.rest)
        else if f.ltype.CString? then Parsed(Raw(Overwrite(item.buffer, data.value + [0])), data.rest)
        else Parsed(Raw(data.value), data.rest)
  }

  /** One element, by the decoder of its type; the elements of a repeated submessage are initialised first. */
  ghost function DecodeItem(f: Field, input: Bytes, item: Item, u: nat): (p: Parsed<Item>)
    requires WellFormedField(f) && ItemFits(f, item)
    ensures p.Parsed? ==> |p.rest| < |input| && ItemFits(f, p.value)
    decreases f, 0
  {
    if Packable(f.ltype) then
      var n := DecodeNumber(f.ltype, f.dataSize, input);
      if n.Parsed? then Parsed(Number(n.value), n.rest) else Failed
    else if f.ltype.Submessage? then
      var content := DecodeString(input);
      if !content.Parsed? then Failed
      else
        var slots := if f.kind.Repeated? then SetDefaults(f.sub, item.slots) else item.slots;
        var message := DecodeFields(f.sub, content.value, slots, u);
        if message.Parsed? then Parsed(Struct(message.value), content.rest) else Failed
    else DecodeBytes(f, input, item)
  }

  ghost predicate RepeatedFits(f: Field, slot: Slot) {
    f.kind.Repeated? && SlotFits(f, slot)
  }

  /** One more element of an array that may be full. */
  ghost function DecodeElement(f: Field, input: Bytes, slot: Slot, u: nat): (p: Parsed<Slot>)
    requires WellFormedField(f) && RepeatedFits(f, slot)
    ensures p.Parsed? ==> |p.rest| < |input| && RepeatedFits(f, p.value)
    decreases f, 1
  {
    if slot.size >= f.arraySize then Failed
    else
      var item := DecodeItem(f, input, slot.items[slot.size], u);
      if item.Parsed? then Parsed(Slot(slot.size + 1, slot.items[slot.size := item.value]), item.rest) else Failed
  }

  /** The elements of a packed array, to the end of their substream. */
  ghost function DecodePacked(f: Field, content: Bytes, slot: Slot, u: nat): (r: Option<Slot>)
    requires WellFormedField(f) && RepeatedFits(f, slot)
    ensures r.Some? ==> RepeatedFits(f, r.value)
    decreases f, 2, |content|
  {
    if content == [] then Some(slot)
    else
      var p := DecodeElement(f, content, slot, u);
      if p.Parsed? then DecodePacked(f, p.rest, p.value, u) else None
  }

  /** decode_static_field: the wire type only tells packed arrays from single elements. */
  ghost function DecodeField(f: Field, wireType: nat, input: Bytes, slot: Slot, u: nat): (p: Parsed<Slot>)
    requires WellFormedField(f) && SlotFits(f, slot)
    ensures p.Parsed? ==> |p.rest| < |input| && SlotFits(f, p.value)
    ensures p.Parsed? && f.kind.Oneof? ==> p.value.size == f.tag
    decreases f, 3
  {
    match f.kind
    case Repeated =>
      if wireType == 2 && Packable(f.ltype) then
        var content := DecodeString(input);
        if !content.Parsed? then Failed
        else
          var r := DecodePacked(f, content.value, slot, u);
          if r.Some? then Parsed(r.value, content.rest) else Failed
      else DecodeElement(f, input, slot, u)
    case Oneof =>
      var item := DecodeItem(f, input, if f.ltype.Submessage? then Struct(NewSlots(f.sub)) else Over(f, slot.items[0]), u);
      if item.Parsed? then Parsed(Slot(f.tag, [item.value]), item.rest) else Failed
    case _ =>
      var item := DecodeItem(f, input, slot.items[0], u);
      if item.Parsed? then Parsed(Slot(if f.kind.Optional? then 1 else slot.size, [item.value]), item.rest) else Failed
  }

  // ---------------------------------------------------------------- required fields

  function Power2(n: nat): (p: nat)
    ensures p > 0
  {
    if n == 0 then 1 else 2 * Power2(n - 1)
  }

  /** The bits of the marks for numbers `from` up to `from + n`, the first lowest. */
  ghost function Bits(seen: set<nat>, from: nat, n: nat): (b: nat)
    ensures b < Power2(n)
    decreases n
  {
    if n == 0 then 0 else (if from in seen then 1 else 0) + 2 * Bits(seen, from + 1, n - 1)
  }

  /** An inclusive or with one bit. */
  function SetBit(word: nat, b: nat): nat
    decreases b
  {
    if b == 0 then word / 2 * 2 + 1 else word % 2 + 2 * SetBit(word / 2, b - 1)
  }

  function ShiftRight(word: nat, n: nat): nat {
    if n == 0 then word else ShiftRight(word / 2, n - 1)
  }

  /** A word of ones shifted right. */
  function OnesShifted(n: nat, u: nat): nat
    requires n <= 32
  {
    if n == 32 then u else ShiftRight(TWO_32 - 1, n)
  }

  const ALL_BITS := TWO_32 - 1

  /** The check after the last field: `count` required fields, and the two words of marks. */
  predicate AllSeen(count: nat, words: seq<nat>, u: nat)
    requires count < 64 && |words| == 2
  {
    count > 0 ==>
      && (count >= 32 ==> words[0] == ALL_BITS)
      && words[count / 32] == OnesShifted(32 - count % 32, u)
  }

  ghost function Words(seen: set<nat>): (words: seq<nat>)
    ensures |words| == 2
  {
    [Bits(seen, 0, 32), Bits(seen, 32, 32)]
  }

  lemma {:induction false} BitSet(seen: set<nat>, from: nat, n: nat, b: nat)
    requires b < n
    ensures SetBit(Bits(seen, from, n), b) == Bits(seen + {from + b}, from, n)
    decreases n
  {
    hide Bits;
    BitsStep(seen, from, n);
    BitsStep(seen + {from + b}, from, n);
    if b > 0 {
      BitSet(seen, from + 1, n - 1, b - 1);
    } else {
      OtherBits(seen, from + 1, n - 1, from);
    }
  }

  lemma BitsStep(seen: set<nat>, from: nat, n: nat)
    requires n > 0
    ensures Bits(seen, from, n) == (if from in seen then 1 else 0) + 2 * Bits(seen, from + 1, n - 1)
  {
  }

  lemma {:induction false} OtherBits(seen: set<nat>, from: nat, n: nat, k: nat)
    requires k < from || k >= from + n
    ensures Bits(seen + {k}, from, n) == Bits(seen, from, n)
    decreases n
  {
    if n > 0 {
      OtherBits(seen, from + 1, n - 1, k);
    }
  }

  /** Marking a field sets one bit of one word. */
  lemma Marked(seen: set<nat>, k: nat)
    requires k < 64
    ensures Words(seen + {k}) == Words(seen)[k / 32 := SetBit(Words(seen)[k / 32], k % 32)]
  {
    hide Bits, SetBit;
    if k < 32 {
      BitSet(seen, 0, 32, k);
      OtherBits(seen, 32, 32, k);
      assert k / 32 == 0 && k % 32 == k;
    } else {
      BitSet(seen, 32, 32, k - 32);
      OtherBits(seen, 0, 32, k);
      assert k / 32 == 1 && k % 32 == k - 32;
    }
  }

  lemma {:induction false} OnesMean(seen: set<nat>, from: nat, n: nat)
    ensures Bits(seen, from, n) == Power2(n) - 1 <==> forall k | from <= k < from + n :: k in seen
    decreases n
  {
    if n > 0 {
      OnesMean(seen, from + 1, n - 1);
    }
  }

  lemma {:induction false} NoneAbove(seen: set<nat>, from: nat, n: nat, m: nat)
    requires n <= m && forall k | k in seen :: k < from + n
    ensures Bits(seen, from, m) == Bits(seen, from, n)
    decreases m
  {
    if n > 0 {
      NoneAbove(seen, from + 1, n - 1, m - 1);
    } else if m > 0 {
      assert from !in seen;
      NoneAbove(seen, from + 1, 0, m - 1);
    }
  }

  lemma {:induction false} OnesRight(m: nat, n: nat)
    requires n <= m
    ensures ShiftRight(Power2(m) - 1, n) == Power2(m - n) - 1
    decreases n
  {
    if n > 0 {
      assert (Power2(m) - 1) / 2 == Power2(m - 1) - 1;
      OnesRight(m - 1, n - 1);
    }
  }

  lemma WordOfOnes()
    ensures ALL_BITS == Power2(32) - 1
  {
    assert Power2(8) == 0x100;
    assert Power2(16) == 0x1_0000;
    assert Power2(24) == 0x100_0000;
  }

  /** The check passes just when all required fields were seen, except that with 32 of them it also depends on
      the shift that C does not define. */
  lemma AllSeenMeans(count: nat, seen: set<nat>, u: nat)
    requires count < MAX_REQUIRED_FIELDS && forall k | k in seen :: k < count
    ensures AllSeen(count, Words(seen), u) <==> (forall k | 0 <= k < count :: k in seen) && (count == 32 ==> u == 0)
  {
    WordOfOnes();
    hide Bits, Power2, ShiftRight;
    var n := count % 32;
    if count < 32 {
      OnesMean(seen, 0, n);
      NoneAbove(seen, 0, n, 32);
      if count > 0 {
        OnesRight(32, 32 - n);
      }
    } else {
      OnesMean(seen, 0, 32);
      OnesMean(seen, 32, n);
      NoneAbove(seen, 32, n, 32);
      if n > 0 {
        OnesRight(32, 32 - n);
      } else {
        NoneAbove(seen, 32, 0, 32);
        NoBits(seen);
      }
    }
  }

  lemma NoBits(seen: set<nat>)
    ensures Bits(seen, 32, 0) == 0
  {
  }

  function RequiredCount(fields: seq<Field>): nat {
    RequiredBefore(fields, |fields|)
  }

  // ---------------------------------------------------------------- messages

  function SkipVarint(input: Bytes): (p: Parsed<()>)
    ensures p.Parsed? ==> |p.rest| < |input|
  {
    if input == [] then Failed else if input[0] < 128 then Parsed((), input[1..]) else SkipVarint(input[1..])
  }

  /** pb_skip_field */
  function SkipField(wireType: nat, input: Bytes): (p: Parsed<()>)
    ensures p.Parsed? ==> |p.rest| <= |input|
  {
    if wireType == 0 then SkipVarint(input)
    else if wireType == 1 && |input| >= 8 then Parsed((), input[8..])
    else if wireType == 2 && DecodeString(input).Parsed? then Parsed((), DecodeString(input).rest)
    else if wireType == 5 && |input| >= 4 then Parsed((), input[4..])
    else Failed
  }

  /** What pb_decode_tag finds: the end, which a zero and also a broken tag at the end of the stream mean; an
      error; or a tag and a wire type. */
  datatype TagRead = End(left: Bytes) | BadTag | TagIs(tag: nat, wireType: nat, after: Bytes)

  function DecodeTag(input: Bytes): (t: TagRead)
    ensures t.TagIs? ==> |t.after| < |input|
  {
    var v := DecodeVarint32(input);
    if !v.Parsed? then if |input| <= 5 then End([]) else BadTag
    else if v.value == 0 then End(v.rest)
    else TagIs(v.value / 8, v.value % 8, v.rest)
  }

  datatype Progress = Progress(slots: seq<Slot>, seen: set<nat>)

  /** The fields found in the input, stored and marked as they come. */
  ghost function DecodeLoop(fields: seq<Field>, input: Bytes, p: Progress, u: nat): (r: Parsed<Progress>)
    requires WellFormed(fields) && StructFits(fields, p.slots)
    ensures r.Parsed? ==> StructFits(fields, r.value.slots)
    decreases fields, 1, |input|
  {
    if input == [] then Parsed(p, [])
    else match DecodeTag(input)
      case End(left) => Parsed(p, left)
      case BadTag => Failed
      case TagIs(tag, wireType, after) =>
        if fields == [] && tag == 0 then Failed
        else match IndexOf(fields, tag)
          case None =>
            var skipped := SkipField(wireType, after);
            if skipped.Parsed? then DecodeLoop(fields, skipped.rest, p, u) else Failed
          case Some(i) =>
            var next := DecodeInto(fields, i, wireType, after, p, u);
            if next.Parsed? then DecodeLoop(fields, next.rest, next.value, u) else Failed
  }

  ghost function DecodeInto(fields: seq<Field>, i: nat, wireType: nat, input: Bytes, p: Progress, u: nat): (r: Parsed<Progress>)
    requires i < |fields| && WellFormed(fields) && StructFits(fields, p.slots)
    ensures r.Parsed? ==> |r.rest| < |input| && StructFits(fields, r.value.slots)
    decreases fields, 0
  {
    assert FieldFits(fields, i, p.slots);
    SlotBound(fields, i);
    var f, s := fields[i], SlotOf(fields, i);
    var seen := if f.kind.Required? then p.seen + {RequiredBefore(fields, i)} else p.seen;
    var d := DecodeField(f, wireType, input, p.slots[s], u);
    if !d.Parsed? then Failed
    else
      StillFits(fields, i, p.slots, d.value);
      Parsed(Progress(p.slots[s := d.value], seen), d.rest)
  }

  /** pb_decode_noinit */
  ghost function DecodeFields(fields: seq<Field>, input: Bytes, slots: seq<Slot>, u: nat): (r: Parsed<seq<Slot>>)
    requires WellFormed(fields) && StructFits(fields, slots)
    ensures r.Parsed? ==> StructFits(fields, r.value)
    decreases fields, 2
  {
    var d := DecodeLoop(fields, input, Progress(slots, {}), u);
    if d.Parsed? && AllSeen(RequiredCount(fields), Words(d.value.seen), u) then Parsed(d.value.slots, d.rest) else Failed
  }

  /** pb_decode */
  ghost function Decode(fields: seq<Field>, input: Bytes, slots: seq<Slot>, u: nat): (r: Parsed<seq<Slot>>)
    requires WellFormed(fields) && StructFits(fields, slots)
    ensures r.Parsed? ==> StructFits(fields, r.value)
  {
    DecodeFields(fields, input, SetDefaults(fields, slots), u)
  }

  // ---------------------------------------------------------------- input streams

  class InputStream {
    const data: Bytes
    var state: nat
    var bytesLeft: nat

    ghost predicate Valid()
      reads this
    {
      state + bytesLeft <= |data|
    }

    /** What is still to be read. */
    ghost function Left(): (r: Bytes)
      requires Valid()
      reads this
      ensures |r| == bytesLeft
    {
      data[state..state + bytesLeft]
    }

    /** Where the stream ends in the data. */
    function End(): nat
      reads this
    {
      state + bytesLeft
    }

    /** pb_istream_from_buffer, and the substream of a string */
    constructor OnBuffer(bytes: Bytes, start: nat, size: nat)
      requires start + size <= |bytes|
      ensures Valid() && data == bytes && Left() == bytes[start..start + size]
      ensures state == start && bytesLeft == size
    {
      data, state, bytesLeft := bytes, start, size;
    }

    /** pb_read */
    method Read(count: nat) returns (ok: bool, bytes: Bytes)
      requires Valid()
      modifies this
      ensures Valid() && End() == old(End())
      ensures ok == ReadBytes(old(Left()), count).Parsed?
      ensures ok ==> bytes == ReadBytes(old(Left()), count).value && Left() == ReadBytes(old(Left()), count).rest
      ensures !ok ==> bytesLeft == old(bytesLeft)
    {
      if bytesLeft < count {
        return false, [];
      }
      bytes := data[state..state + count];
      state, bytesLeft := state + count, bytesLeft - count;
      ok := true;
    }

    /** pb_readbyte */
    method ReadByte() returns (ok: bool, byte: Byte)
      requires Valid()
      modifies this
      ensures Valid() && End() == old(End())
      ensures ok == (old(Left()) != [])
      ensures ok ==> byte == old(Left())[0] && Left() == old(Left())[1..]
      ensures !ok ==> bytesLeft == 0
    {
      if bytesLeft == 0 {
        return false, 0;
      }
      byte := data[state];
      state, bytesLeft := state + 1, bytesLeft - 1;
      ok := true;
    }
  }

  /** What a decoding method returns, and leaves in the stream, is what the function says. */
  ghost predicate Gives<T>(p: Parsed<T>, ok: bool, value: T, left: Bytes) {
    ok == p.Parsed? && (ok ==> value == p.value && left == p.rest)
  }

  // ---------------------------------------------------------------- reading simple values

  /** The seven bits of a byte, shifted to their place. */
  function Group(byte: Byte, place: nat): nat {
    byte % 0x80 * place
  }

  /** One byte more of a varint. */
  lemma TakeStep(input: Bytes, n: nat, result: nat, max: nat)
    requires n < max && n < |input|
    ensures Shift(n + 1) == 128 * Shift(n)
    ensures input[n] >= 0x80 ==> TakeFrom(input, n, result, max) == TakeFrom(input, n + 1, result + Group(input[n], Shift(n)), max)
    ensures input[n] < 0x80 ==> TakeFrom(input, n, result, max) == Taken(result + Group(input[n], Shift(n)), n + 1)
  {
  }

  lemma TakeStops(input: Bytes, n: nat, result: nat, max: nat)
    requires n >= max || n >= |input|
    ensures TakeFrom(input, n, result, max) == Nothing
  {
  }

  /** The loops of both varint decoders, after `n` bytes of `input`, for integers of `width` bits. */
  method ReadGroups(stream: InputStream, ghost input: Bytes, n: nat, start: nat, width: nat) returns (ok: bool, value: nat)
    requires stream.Valid() && n <= |input| && stream.Left() == input[n..]
    requires (width == 32 && n <= 5) || (width == 64 && n <= 10)
    modifies stream
    ensures stream.Valid() && stream.End() == old(stream.End())
    ensures stream.bytesLeft <= |input| && stream.Left() == input[|input| - stream.bytesLeft..]
    ensures TakeFrom(input, n, start, if width == 32 then 5 else 10) == if ok then Taken(value, |input| - stream.bytesLeft) else Nothing
    ensures !ok && width == 32 ==> stream.bytesLeft == if |input| <= 5 then 0 else |input| - 5
  {
    hide TakeFrom, Shift, Group;
    ghost var max := if width == 32 then 5 else 10;
    ghost var k := n;
    var bitpos, result: nat := 7 * n, start;
    ok := true;
    while true
      invariant ok && stream.Valid() && stream.End() == old(stream.End())
      invariant n <= k <= max && k <= |input| && stream.Left() == input[k..] && bitpos == 7 * k
      invariant TakeFrom(input, k, result, max) == TakeFrom(input, n, start, max)
      decreases max - k
    {
      if bitpos >= width {
        TakeStops(input, k, result, max);
        return false, 0;
      }
      var byte;
      ok, byte := stream.ReadByte();
      if !ok {
        TakeStops(input, k, result, max);
        return false, 0;
      }
      NextByte(input, k, byte, stream.Left());
      TakeStep(input, k, result, max);
      result := result + Group(byte, Shift(bitpos / 7));
      bitpos, k := bitpos + 7, k + 1;
      if byte < 0x80 {
        return true, result;
      }
    }
  }

  lemma NextByte(input: Bytes, k: nat, byte: Byte, left: Bytes)
    requires k < |input| && byte == input[k..][0] && left == input[k..][1..]
    ensures byte == input[k] && left == input[k + 1..]
  {
  }

  lemma CutMeans()
    ensures forall n: nat, used: nat :: Cut(Taken(n, used), TWO_32) == Taken(n % TWO_32, used)
    ensures Cut(Nothing, TWO_32) == Nothing
  {
  }

  lemma FirstGroup(byte: Byte)
    ensures Group(byte, Shift(0)) == if byte < 0x80 then byte else byte - 0x80
    ensures Cut(Taken(byte, 1), TWO_32) == Taken(byte, 1)
  {
  }

  /** pb_decode_varint32, which has a quick case for one byte */
  method ReadVarint32(stream: InputStream) returns (ok: bool, dest: nat)
    requires stream.Valid()
    modifies stream
    ensures stream.Valid() && stream.End() == old(stream.End())
    ensures Gives(DecodeVarint32(old(stream.Left())), ok, dest, stream.Left())
    ensures !ok ==> stream.bytesLeft == if old(stream.bytesLeft) <= 5 then 0 else old(stream.bytesLeft) - 5
  {
    ghost var input := stream.Left();
    hide TakeFrom, Shift, Group, Cut;
    CutMeans();
    var byte;
    ok, byte := stream.ReadByte();
    dest := 0;
    if !ok {
      TakeStops(input, 0, 0, 5);
      return;
    }
    TakeStep(input, 0, 0, 5);
    FirstGroup(byte);
    if byte < 0x80 {
      dest := byte;
      return;
    }
    ok, dest := ReadGroups(stream, input, 1, byte - 0x80, 32);
    dest := dest % TWO_32;
  }

  /** pb_decode_varint */
  method ReadVarint64(stream: InputStream) returns (ok: bool, dest: nat)
    requires stream.Valid()
    modifies stream
    ensures stream.Valid() && stream.End() == old(stream.End())
    ensures Gives(DecodeVarint64(old(stream.Left())), ok, dest, stream.Left())
  {
    hide TakeFrom, Shift, Group;
    ok, dest := ReadGroups(stream, stream.Left(), 0, 0, 64);
    dest := dest % TWO_64;
  }

  /** pb_decode_tag */
  method ReadTag(stream: InputStream) returns (t: TagRead)
    requires stream.Valid()
    modifies stream
    ensures stream.Valid() && stream.End() == old(stream.End())
    ensures t == DecodeTag(old(stream.Left()))
    ensures t.End? ==> stream.Left() == t.left
    ensures t.TagIs? ==> stream.Left() == t.after
  {
    hide DecodeVarint32;
    ghost var input := stream.Left();
    var ok, temp := ReadVarint32(stream);
    ghost var left := stream.Left();
    if !ok {
      if stream.bytesLeft == 0 {
        assert left == [];
        return End([]);
      }
      return BadTag;
    }
    var rest := stream.data[stream.state..stream.state + stream.bytesLeft];
    if temp == 0 {
      return End(rest);
    }
    return TagIs(temp / 8, temp % 8, rest);
  }

  /** pb_skip_varint */
  method PassVarint(stream: InputStream) returns (ok: bool)
    requires stream.Valid()
    modifies stream
    ensures stream.Valid() && stream.End() == old(stream.End())
    ensures Gives(SkipVarint(old(stream.Left())), ok, (), stream.Left())
  {
    ok := true;
    while true
      invariant ok && stream.Valid() && stream.End() == old(stream.End())
      invariant SkipVarint(stream.Left()) == SkipVarint(old(stream.Left()))
      decreases stream.bytesLeft
    {
      ghost var left := stream.Left();
      var byte;
      ok, byte := stream.Read(1);
      if !ok {
        return;
      }
      assert byte[0] == left[0];
      if byte[0] < 0x80 {
        return;
      }
    }
  }

  /** pb_make_string_substream; what is left of the stream then starts where the substream ends. */
  method OpenSubstream(stream: InputStream) returns (ok: bool, substream: InputStream)
    requires stream.Valid()
    modifies stream
    ensures stream.Valid()
    ensures ok == DecodeString(old(stream.Left())).Parsed?
    ensures ok ==> fresh(substream) && substream.Valid() && substream.data == stream.data
    ensures ok ==> substream.Left() == DecodeString(old(stream.Left())).value
    ensures ok ==> substream.End() + stream.bytesLeft == old(stream.End())
    ensures ok ==> stream.data[substream.End()..old(stream.End())] == DecodeString(old(stream.Left())).rest
    ensures !ok ==> stream.End() == old(stream.End())
  {
    hide DecodeVarint32;
    var size;
    ok, size := ReadVarint32(stream);
    substream := stream;
    if !ok {
      return;
    }
    if stream.bytesLeft < size {
      return false, stream;
    }
    ghost var left := stream.Left();
    substream := new InputStream.OnBuffer(stream.data, stream.state, size);
    stream.bytesLeft := stream.bytesLeft - size;
    SubstreamSplits(stream.data, stream.state, size, stream.bytesLeft);
  }

  lemma SubstreamSplits(data: Bytes, state: nat, size: nat, left: nat)
    requires state + size + left <= |data|
    ensures data[state..state + size + left][..size] == data[state..state + size]
    ensures data[state..state + size + left][size..] == data[state + size..state + size + left]
  {
  }

  /** pb_close_string_substream */
  method CloseSubstream(stream: InputStream, substream: InputStream) returns (ok: bool)
    requires stream != substream && stream.data == substream.data
    requires substream.Valid() && substream.End() + stream.bytesLeft <= |stream.data|
    modifies stream, substream
    ensures ok && stream.Valid()
    ensures stream.state == old(substream.End()) && stream.bytesLeft == old(stream.bytesLeft)
  {
    ok := true;
    if substream.bytesLeft > 0 {
      var skipped;
      ok, skipped := substream.Read(substream.bytesLeft);
    }
    stream.state := substream.state;
  }

  /** pb_skip_field */
  method PassField(stream: InputStream, wireType: nat) returns (ok: bool)
    requires stream.Valid()
    modifies stream
    ensures stream.Valid() && stream.End() == old(stream.End())
    ensures Gives(SkipField(wireType, old(stream.Left())), ok, (), stream.Left())
  {
    var skipped;
    if wireType == 0 {
      ok := PassVarint(stream);
    } else if wireType == 1 {
      ok, skipped := stream.Read(8);
    } else if wireType == 2 {
      var length;
      ok, length := ReadVarint32(stream);
      if ok {
        ok, skipped := stream.Read(length);
      }
    } else if wireType == 5 {
      ok, skipped := stream.Read(4);
    } else {
      ok := false;
    }
  }

  // ---------------------------------------------------------------- reading fields

  /** pb_dec_varint to pb_dec_fixed64 */
  method ReadNumber(stream: InputStream, f: Field) returns (ok: bool, dest: int)
    requires stream.Valid() && Packable(f.ltype)
    modifies stream
    ensures stream.Valid() && stream.End() == old(stream.End())
    ensures Gives(DecodeNumber(f.ltype, f.dataSize, old(stream.Left())), ok, dest, stream.Left())
  {
    hide DecodeVarint64, NumberFits;
    dest := 0;
    if f.ltype.Fixed32? || f.ltype.Fixed64? {
      var bytes;
      ok, bytes := stream.Read(if f.ltype.Fixed32? then 4 else 8);
      if ok {
        dest := FromLittleEndian(bytes);
      }
    } else {
      var v;
      ok, v := ReadVarint64(stream);
      if ok {
        var n := NumberOf(f.ltype, f.dataSize, v);
        ok := n.Some?;
        dest := if ok then n.value else 0;
      }
    }
  }

  /** pb_dec_bytes, pb_dec_string and pb_dec_fixed_length_bytes */
  method ReadData(stream: InputStream, f: Field, item: Item) returns (ok: bool, dest: Item)
    requires stream.Valid() && ItemFits(f, item) && !f.ltype.Submessage? && !Packable(f.ltype)
    modifies stream
    ensures stream.Valid() && stream.End() == old(stream.End())
    ensures Gives(DecodeBytes(f, old(stream.Left()), item), ok, dest, stream.Left())
  {
    hide DecodeVarint32;
    var size;
    dest := item;
    ok, size := ReadVarint32(stream);
    if !ok {
      return;
    }
    var data;
    if f.ltype.ByteArray? {
      if size + COUNT_SIZE > f.dataSize {
        return false, item;
      }
      ok, data := stream.Read(size);
      dest := if ok then Counted(size, Overwrite(item.buffer, data)) else item;
    } else if f.ltype.CString? {
      var allocSize := (size + 1) % TWO_32;
      if allocSize < size || allocSize > f.dataSize {
        return false, item;
      }
      ok, data := stream.Read(size);
      dest := if ok then Raw(Overwrite(item.buffer, data + [0])) else item;
    } else {
      if size == 0 {
        return true, Raw(ZeroBytes(f.dataSize));
      }
      if size != f.dataSize {
        return false, item;
      }
      ok, data := stream.Read(f.dataSize);
      dest := if ok then Raw(data) else item;
    }
  }

  /** pb_message_set_to_defaults */
  method MessageSetToDefaults(fields: seq<Field>, slots: seq<Slot>) returns (dest: seq<Slot>)
    requires WellFormed(fields) && StructFits(fields, slots)
    ensures dest == SetDefaults(fields, slots)
    decreases fields
  {
    hide InitialSlot, StructFits;
    dest := slots;
    var iter := new FieldIterator.Begin(fields);
    if iter.TagHere() == 0 {
      return;
    }
    var more := true;
    while more
      invariant iter.Valid() && iter.start == fields && fresh(iter)
      invariant dest == SetDefaultsTo(fields, if more then iter.pos else |fields|, slots)
      decreases if more then |fields| - iter.pos else -1
    {
      var i := iter.pos;
      SlotThere(fields, i, dest);
      var slot := FieldSetToDefault(fields[i], dest[iter.slot]);
      dest := dest[iter.slot := slot];
      more := iter.Next();
    }
  }

  lemma SlotThere(fields: seq<Field>, i: nat, slots: seq<Slot>)
    requires i < |fields| && WellFormed(fields) && StructFits(fields, slots)
    ensures SlotOf(fields, i) < |slots| && SlotFits(fields[i], slots[SlotOf(fields, i)])
    ensures WellFormedField(fields[i]) && fields[i].tag != 0
  {
    SlotBound(fields, i);
    assert FieldFits(fields, i, slots);
  }

  /** pb_field_set_to_default */
  method FieldSetToDefault(f: Field, slot: Slot) returns (dest: Slot)
    requires WellFormedField(f) && SlotFits(f, slot) && f.tag != 0
    ensures dest == InitialSlot(f, slot)
    decreases f
  {
    dest := slot;
    var initData := true;
    if f.kind.Optional? {
      dest := dest.(size := 0);
    } else if f.kind.Repeated? || f.kind.Oneof? {
      dest := dest.(size := 0);
      initData := false;
    }
    if initData {
      if f.ltype.Submessage? {
        var inner := MessageSetToDefaults(f.sub, slot.items[0].slots);
        dest := dest.(items := [Struct(inner)]);
      } else {
        dest := dest.(items := [f.initial]);
      }
    }
  }

  /** One element, by the decoder of its type; pb_dec_submessage among them. */
  method ReadItem(stream: InputStream, f: Field, item: Item, u: nat) returns (ok: bool, dest: Item)
    requires stream.Valid() && WellFormedField(f) && ItemFits(f, item)
    modifies stream
    ensures stream.Valid() && stream.End() == old(stream.End())
    ensures Gives(DecodeItem(f, old(stream.Left()), item, u), ok, dest, stream.Left())
    decreases f, 0
  {
    hide DecodeNumber, DecodeBytes, DecodeString, DecodeFields, SetDefaults;
    dest := item;
    if Packable(f.ltype) {
      var n;
      ok, n := ReadNumber(stream, f);
      dest := Number(n);
    } else if f.ltype.Submessage? {
      var substream, slots;
      ok, substream := OpenSubstream(stream);
      if !ok {
        return;
      }
      var status;
      if f.kind.Repeated? {
        slots := MessageSetToDefaults(f.sub, item.slots);
        status, slots := ReadFields(substream, f.sub, slots, u);
      } else {
        status, slots := ReadFields(substream, f.sub, item.slots, u);
      }
      ok := CloseSubstream(stream, substream);
      ok := status;
      dest := Struct(slots);
    } else {
      ok, dest := ReadData(stream, f, item);
    }
  }

  /** One more element of an array. */
  method ReadElement(stream: InputStream, f: Field, slot: Slot, u: nat) returns (ok: bool, dest: Slot)
    requires stream.Valid() && WellFormedField(f) && RepeatedFits(f, slot)
    modifies stream
    ensures stream.Valid() && stream.End() == old(stream.End())
    ensures Gives(DecodeElement(f, old(stream.Left()), slot, u), ok, dest, stream.Left())
    decreases f, 1
  {
    hide DecodeItem;
    dest := slot;
    if slot.size >= f.arraySize {
      return false, slot;
    }
    var item;
    ok, item := ReadItem(stream, f, slot.items[slot.size], u);
    dest := Slot(slot.size + 1, slot.items[slot.size := item]);
  }

  /** The packed branch of decode_static_field, on its substream. */
  method ReadPacked(substream: InputStream, f: Field, slot: Slot, u: nat) returns (status: bool, dest: Slot)
    requires substream.Valid() && WellFormedField(f) && RepeatedFits(f, slot)
    modifies substream
    ensures substream.Valid() && substream.End() == old(substream.End())
    ensures (status && substream.bytesLeft == 0) == DecodePacked(f, old(substream.Left()), slot, u).Some?
    ensures status && substream.bytesLeft == 0 ==> dest == DecodePacked(f, old(substream.Left()), slot, u).value
    decreases f, 2
  {
    hide DecodeElement;
    status, dest := true, slot;
    while substream.bytesLeft > 0 && dest.size < f.arraySize
      invariant status && substream.Valid() && substream.End() == old(substream.End()) && RepeatedFits(f, dest)
      invariant DecodePacked(f, substream.Left(), dest, u) == DecodePacked(f, old(substream.Left()), slot, u)
      decreases substream.bytesLeft
    {
      var next;
      status, next := ReadElement(substream, f, dest, u);
      if !status {
        return;
      }
      dest := next;
    }
    if substream.bytesLeft > 0 {
      FullArray(f, substream.Left(), dest, u);
    }
  }

  lemma FullArray(f: Field, input: Bytes, slot: Slot, u: nat)
    requires WellFormedField(f) && RepeatedFits(f, slot) && slot.size >= f.arraySize
    ensures DecodeElement(f, input, slot, u) == Failed
  {
  }

  /** decode_static_field */
  method ReadField(stream: InputStream, f: Field, wireType: nat, slot: Slot, u: nat) returns (ok: bool, dest: Slot)
    requires stream.Valid() && WellFormedField(f) && SlotFits(f, slot)
    modifies stream
    ensures stream.Valid() && stream.End() == old(stream.End())
    ensures Gives(DecodeField(f, wireType, old(stream.Left()), slot, u), ok, dest, stream.Left())
    decreases f, 3
  {
    hide DecodeItem, DecodeElement, DecodePacked, DecodeString, NewSlots, Over;
    dest := slot;
    match f.kind
    case Required =>
      var item;
      ok, item := ReadItem(stream, f, slot.items[0], u);
      dest := slot.(items := [item]);
    case Optional =>
      var item;
      ok, item := ReadItem(stream, f, slot.items[0], u);
      dest := Slot(1, [item]);
    case Repeated =>
      if wireType == 2 && Packable(f.ltype) {
        var substream;
        ok, substream := OpenSubstream(stream);
        if !ok {
          return;
        }
        ok, dest := ReadPacked(substream, f, slot, u);
        var left := substream.bytesLeft;
        var closed := CloseSubstream(stream, substream);
        if left != 0 {
          return false, slot;
        }
      } else {
        ok, dest := ReadElement(stream, f, slot, u);
      }
    case Oneof =>
      var item;
      if f.ltype.Submessage? {
        var zero := ZeroSlots(f.sub, |f.sub|);
        NewSlotsMeans(f.sub);
        var slots := MessageSetToDefaults(f.sub, zero);
        ok, item := ReadItem(stream, f, Struct(slots), u);
      } else {
        ok, item := ReadItem(stream, f, Over(f, slot.items[0]), u);
      }
      dest := Slot(f.tag, [item]);
  }

  lemma NewSlotsMeans(fields: seq<Field>)
    requires WellFormed(fields)
    ensures StructFits(fields, ZeroSlots(fields, |fields|))
    ensures NewSlots(fields) == SetDefaults(fields, ZeroSlots(fields, |fields|))
  {
    ZeroFits(fields, ZeroSlots(fields, |fields|));
  }

  // ---------------------------------------------------------------- reading messages

  lemma {:induction false} RequiredAscend(fields: seq<Field>, i: nat, j: nat)
    requires i <= j <= |fields|
    ensures RequiredBefore(fields, i) <= RequiredBefore(fields, j)
    ensures i < j && fields[i].kind.Required? ==> RequiredBefore(fields, i) < RequiredBefore(fields, j)
    decreases j
  {
    if i < j {
      RequiredAscend(fields, i, j - 1);
    }
  }

  /** The part of pb_decode_noinit for a field that was found. */
  method ReadInto(stream: InputStream, iter: FieldIterator, wireType: nat, slots: seq<Slot>, words: seq<nat>, ghost seen: set<nat>, u: nat)
    returns (ok: bool, dest: seq<Slot>, marks: seq<nat>, ghost now: set<nat>)
    requires stream.Valid() && iter.Valid() && iter.pos < |iter.start| && WellFormed(iter.start)
    requires StructFits(iter.start, slots) && words == Words(seen)
    modifies stream
    ensures stream.Valid() && stream.End() == old(stream.End())
    ensures Gives(DecodeInto(iter.start, iter.pos, wireType, old(stream.Left()), Progress(slots, seen), u), ok, Progress(dest, now), stream.Left())
    ensures ok ==> marks == Words(now) && StructFits(iter.start, dest)
    decreases iter.start, 0
  {
    hide DecodeField, Words, SlotFits, StructFits;
    marks, now, dest := words, seen, slots;
    SlotThere(iter.start, iter.pos, slots);
    var f := iter.start[iter.pos];
    if f.kind.Required? && iter.requiredIndex < MAX_REQUIRED_FIELDS {
      Marked(seen, iter.requiredIndex);
      marks := words[iter.requiredIndex / 32 := SetBit(words[iter.requiredIndex / 32], iter.requiredIndex % 32)];
      now := seen + {iter.requiredIndex};
    }
    RequiredAscend(iter.start, iter.pos, |iter.start|);
    var slot;
    ok, slot := ReadField(stream, f, wireType, slots[iter.slot], u);
    if ok {
      StillFits(iter.start, iter.pos, slots, slot);
      dest := slots[iter.slot := slot];
    }
  }

  /** pb_decode_noinit */
  method ReadFields(stream: InputStream, fields: seq<Field>, slots: seq<Slot>, u: nat) returns (ok: bool, dest: seq<Slot>)
    requires stream.Valid() && WellFormed(fields) && StructFits(fields, slots)
    modifies stream
    ensures stream.Valid() && stream.End() == old(stream.End())
    ensures Gives(DecodeFields(fields, old(stream.Left()), slots, u), ok, dest, stream.Left())
    decreases fields, 2
  {
    var words;
    var iter := new FieldIterator.Begin(fields);
    ghost var seen;
    ok, dest, words, seen := ReadLoop(stream, iter, slots, u);
    if ok {
      var count := CountRequired(iter);
      ok := AllSeen(count, words, u);
    }
  }

  method ReadLoop(stream: InputStream, iter: FieldIterator, slots: seq<Slot>, u: nat)
    returns (ok: bool, dest: seq<Slot>, words: seq<nat>, ghost seen: set<nat>)
    requires stream.Valid() && iter.Valid() && WellFormed(iter.start) && StructFits(iter.start, slots)
    modifies stream, iter
    ensures stream.Valid() && stream.End() == old(stream.End()) && iter.Valid()
    ensures Gives(DecodeLoop(iter.start, old(stream.Left()), Progress(slots, {}), u), ok, Progress(dest, seen), stream.Left())
    ensures ok ==> words == Words(seen)
    decreases iter.start, 1
  {
    hide DecodeTag, SkipField, DecodeInto, Words, StructFits;
    var fields := iter.start;
    dest, words, seen := slots, [0, 0], {};
    NoWords();
    ok := true;
    while stream.bytesLeft > 0
      invariant ok && stream.Valid() && stream.End() == old(stream.End()) && iter.Valid() && iter.start == fields
      invariant StructFits(fields, dest) && words == Words(seen)
      invariant DecodeLoop(fields, stream.Left(), Progress(dest, seen), u) == DecodeLoop(fields, old(stream.Left()), Progress(slots, {}), u)
      decreases stream.bytesLeft
    {
      var t := ReadTag(stream);
      if t.End? {
        return;
      }
      if t.BadTag? {
        ok := false;
        return;
      }
      var found := iter.Find(t.tag);
      if !found {
        ok := PassField(stream, t.wireType);
      } else if fields == [] {
        // a tag of zero finds the end of an empty table, which decodes as an integer of no size
        ok := false;
      } else {
        ok, dest, words, seen := ReadInto(stream, iter, t.wireType, dest, words, seen, u);
      }
      if !ok {
        return;
      }
    }
  }

  lemma NoWords()
    ensures Words({}) == [0, 0]
  {
    NoneAbove({}, 0, 0, 32);
    NoneAbove({}, 32, 0, 32);
  }

  /** The number of required fields, from wherever the iterator stands to the end of the table. */
  method CountRequired(iter: FieldIterator) returns (count: nat)
    requires iter.Valid()
    modifies iter
    ensures iter.Valid() && count == RequiredCount(iter.start)
  {
    var lastRequired := true;
    var more := true;
    count := 0;
    while more
      invariant iter.Valid()
      invariant !more && iter.start != [] ==>
                  count == RequiredBefore(iter.start, |iter.start| - 1) && lastRequired == iter.start[|iter.start| - 1].kind.Required?
      invariant !more && iter.start == [] ==> count == 0
      decreases if more then |iter.start| - iter.pos else -1
    {
      count := iter.requiredIndex;
      lastRequired := iter.pos >= |iter.start| || iter.start[iter.pos].kind.Required?;
      more := iter.Next();
    }
    if lastRequired && iter.TagHere() != 0 {
      count := count + 1;
    }
  }

  /** pb_decode */
  method ReadMessage(stream: InputStream, fields: seq<Field>, slots: seq<Slot>, u: nat) returns (ok: bool, dest: seq<Slot>)
    requires stream.Valid() && WellFormed(fields) && StructFits(fields, slots)
    modifies stream
    ensures stream.Valid() && stream.End() == old(stream.End())
    ensures Gives(Decode(fields, old(stream.Left()), slots, u), ok, dest, stream.Left())
  {
    dest := MessageSetToDefaults(fields, slots);
    ok, dest := ReadFields(stream, fields, dest, u);
  }
}
