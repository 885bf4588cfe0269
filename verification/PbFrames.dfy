/**
  What nanopb writes, read by the Protocol Buffers encoding alone: a message is a sequence of frames, each a key
  and a payload whose form the last three bits of the key tell.  This reader knows nothing of nanopb's tables.
*/
module PbFrames {
  import opened IntegerSizes
  import opened InternalKeys
  import opened Codings
  import opened PbFields
  import opened PbEncoders

  // ---------------------------------------------------------------- reading frames

  datatype Payload = Base128(n: nat) | Bits64(n: nat) | Chunk(bytes: Bytes) | Bits32(n: nat)

  datatype Frame = Frame(tag: nat, payload: Payload)

  /** Eight bits a byte, the lowest first. */
  function FixedNumber(bytes: Bytes): nat {
    if bytes == [] then 0 else FixedNumber(bytes[1..]) * 256 + bytes[0]
  }

  function TakePayload(wireType: nat, input: Bytes): (r: Option<(Payload, Bytes)>)
    ensures r.Some? ==> |r.value.1| < |input|
  {
    match wireType
    case 0 =>
      var v := TakeNumber(input);
      if v.Some? then Some((Base128(v.value.0), v.value.1)) else None
    case 1 => if |input| >= 8 then Some((Bits64(FixedNumber(input[..8])), input[8..])) else None
    case 2 =>
      var v := TakeNumber(input);
      if v.Some? && v.value.0 <= |v.value.1| then Some((Chunk(v.value.1[..v.value.0]), v.value.1[v.value.0..])) else None
    case 5 => if |input| >= 4 then Some((Bits32(FixedNumber(input[..4])), input[4..])) else None
    case _ => None
  }

  function TakeFrame(input: Bytes): (r: Option<(Frame, Bytes)>)
    ensures r.Some? ==> |r.value.1| < |input|
  {
    var key := TakeNumber(input);
    if key.None? then None
    else
      var p := TakePayload(key.value.0 % 8, key.value.1);
      if p.Some? then Some((Frame(key.value.0 / 8, p.value.0), p.value.1)) else None
  }

  /** All of a message. */
  function SplitFrames(input: Bytes): Option<seq<Frame>>
    decreases |input|
  {
    if input == [] then Some([])
    else
      var first := TakeFrame(input);
      if first.None? then None
      else
        var others := SplitFrames(first.value.1);
        if others.Some? then Some([first.value.0] + others.value) else None
  }

  /** All of a packed array, whose elements have one wire type. */
  function SplitPayloads(wireType: nat, input: Bytes): Option<seq<Payload>>
    decreases |input|
  {
    if input == [] then Some([])
    else
      var first := TakePayload(wireType, input);
      if first.None? then None
      else
        var others := SplitPayloads(wireType, first.value.1);
        if others.Some? then Some([first.value.0] + others.value) else None
  }

  // ---------------------------------------------------------------- what the frames of a struct should be

  /** An element as the encoding has it: two's complement of 64 bits, zigzag, fixed width, or so many bytes. */
  ghost function PayloadOf(f: Field, item: Item): Payload
    requires ItemFits(f, item)
  {
    match f.ltype
    case SignedVarint => Base128(item.n % TWO_64)
    case UnsignedVarint => Base128(item.n % TWO_64)
    case ZigZag => Base128(if item.n >= 0 then 2 * item.n else -2 * item.n - 1)
    case Fixed32 => Bits32(item.n)
    case Fixed64 => Bits64(item.n)
    case ByteArray => Chunk(if item.count <= |item.buffer| then item.buffer[..item.count] else [])
    case CString => Chunk(item.buffer[..StringLength(item.buffer)])
    case FixedBytes => Chunk(item.buffer)
    case Submessage =>
      var content := EncodeFrom(f.sub, 0, item.slots);
      Chunk(if content.Wire? then content.bytes else [])
  }

  ghost function PayloadsOf(f: Field, items: seq<Item>): (r: seq<Payload>)
    requires AllFit(f, items)
    ensures |r| == |items| && forall k | 0 <= k < |items| :: r[k] == PayloadOf(f, items[k])
  {
    if items == [] then [] else [PayloadOf(f, items[0])] + PayloadsOf(f, items[1..])
  }

  ghost function OfTag(tag: nat, payloads: seq<Payload>): seq<Frame> {
    if payloads == [] then [] else [Frame(tag, payloads[0])] + OfTag(tag, payloads[1..])
  }

  /** One frame for a field that is there; for an array one for each element, or one for all if they can be packed. */
  ghost function FieldFrames(f: Field, slot: Slot): seq<Frame>
    requires SlotFits(f, slot)
  {
    if f.kind.Repeated? then
      if slot.size == 0 || slot.size > f.arraySize then []
      else
        var items := slot.items[..slot.size];
        if Packable(f.ltype) then
          var content := EncodeItems(f, items, false);
          [Frame(f.tag, Chunk(if content.Wire? then content.bytes else []))]
        else OfTag(f.tag, PayloadsOf(f, items))
    else if Present(f, slot) then [Frame(f.tag, PayloadOf(f, slot.items[0]))]
    else []
  }

  /** The fields from number `i` on, in the order of the descriptor. */
  ghost function MessageFrames(fields: seq<Field>, i: nat, slots: seq<Slot>): seq<Frame>
    requires i <= |fields| && StructFits(fields, slots)
    decreases |fields| - i
  {
    if i == |fields| then [] else FieldFrames(fields[i], At(fields, i, slots)) + MessageFrames(fields, i + 1, slots)
  }

  // ---------------------------------------------------------------- numbers and payloads read back

  lemma {:induction false} FixedTaken(n: nat, width: nat)
    requires n < Places(width)
    ensures FixedNumber(LittleEndian(n, width)) == n
    decreases width
  {
    if width > 0 {
      FixedTaken(n / 256, width - 1);
      assert LittleEndian(n, width)[1..] == LittleEndian(n / 256, width - 1);
    }
  }

  lemma ChunkTaken(s: Bytes, rest: Bytes)
    ensures TakePayload(2, Prefixed(s) + rest) == Some((Chunk(s), rest))
  {
    hide Varint, TakeNumber;
    Regroup(Varint(|s|), s, rest);
    NumberTaken(|s|, s + rest);
    assert (s + rest)[..|s|] == s && (s + rest)[|s|..] == rest;
  }

  lemma NumberPayload(t: LType, size: nat, n: int, rest: Bytes)
    requires Packable(t) && NumberFits(t, size, n) && EncodeNumber(t, size, n).Wire?
    ensures TakePayload(WireType(t), EncodeNumber(t, size, n).bytes + rest) ==
            Some((if t.Fixed32? then Bits32(n) else if t.Fixed64? then Bits64(n)
                  else Base128(if !t.ZigZag? then n % TWO_64 else if n >= 0 then 2 * n else -2 * n - 1), rest))
  {
    hide Varint, TakeNumber, LittleEndian, FixedNumber, Places;
    if t.Fixed32? || t.Fixed64? {
      var width := if t.Fixed32? then 4 else 8;
      FixedSizes();
      FixedTaken(n, width);
      var b := LittleEndian(n, width);
      assert (b + rest)[..width] == b && (b + rest)[width..] == rest;
    } else if t.ZigZag? {
      NumberTaken(ZigZagged(n), rest);
      ZigZagIs(n);
    } else {
      assert t.UnsignedVarint? ==> n % TWO_64 == n;
      NumberTaken(n % TWO_64, rest);
    }
  }

  lemma PayloadTaken(f: Field, item: Item, rest: Bytes)
    requires ItemFits(f, item) && EncodeItem(f, item).Wire?
    ensures TakePayload(WireType(f.ltype), EncodeItem(f, item).bytes + rest) == Some((PayloadOf(f, item), rest))
  {
    hide TakePayload, Prefixed, EncodeFrom, EncodeNumber, StringLength, NumberFits;
    if Packable(f.ltype) {
      NumberPayload(f.ltype, f.dataSize, item.n, rest);
    } else {
      ChunkTaken(PayloadOf(f, item).bytes, rest);
    }
  }

  // ---------------------------------------------------------------- frames read back

  lemma FrameTaken(f: Field, item: Item, rest: Bytes)
    requires ItemFits(f, item) && EncodeElement(f, item, true).Wire?
    ensures TakeFrame(EncodeElement(f, item, true).bytes + rest) == Some((Frame(f.tag, PayloadOf(f, item)), rest))
  {
    hide TakePayload, PayloadOf, EncodeItem, Varint, TakeNumber;
    var w, bytes := WireType(f.ltype), EncodeItem(f, item).bytes;
    KeyTaken(f.tag, w, bytes + rest);
    Regroup(TagBytes(f.tag, w), bytes, rest);
    hide TagBytes;
    PayloadTaken(f, item, rest);
  }

  lemma KeyTaken(tag: nat, wireType: nat, rest: Bytes)
    requires wireType < 8
    ensures var key := TakeNumber(TagBytes(tag, wireType) + rest);
            key.Some? && key.value.0 / 8 == tag && key.value.0 % 8 == wireType && key.value.1 == rest
  {
    NumberTaken(8 * tag + wireType, rest);
  }

  lemma OneFrame(bytes: Bytes, frame: Frame, rest: Bytes)
    requires TakeFrame(bytes + rest) == Some((frame, rest)) && SplitFrames(rest).Some?
    ensures SplitFrames(bytes + rest) == Some([frame] + SplitFrames(rest).value)
  {
    hide TakeFrame;
    assert bytes + rest != [];
  }

  lemma {:induction false} ItemsFramed(f: Field, items: seq<Item>, rest: Bytes)
    requires AllFit(f, items) && EncodeItems(f, items, true).Wire? && SplitFrames(rest).Some?
    ensures SplitFrames(EncodeItems(f, items, true).bytes + rest) == Some(OfTag(f.tag, PayloadsOf(f, items)) + SplitFrames(rest).value)
    decreases |items|
  {
    hide SplitFrames, EncodeElement, PayloadOf, TakeFrame;
    if items == [] {
      var last := SplitFrames(rest).value;
      assert [] + rest == rest && OfTag(f.tag, []) + last == last;
    } else {
      var one, others := EncodeElement(f, items[0], true).bytes, EncodeItems(f, items[1..], true).bytes;
      ItemsFramed(f, items[1..], rest);
      Regroup(one, others, rest);
      FrameTaken(f, items[0], others + rest);
      OneFrame(one, Frame(f.tag, PayloadOf(f, items[0])), others + rest);
      var more := OfTag(f.tag, PayloadsOf(f, items[1..]));
      assert PayloadsOf(f, items)[1..] == PayloadsOf(f, items[1..]);
      assert OfTag(f.tag, PayloadsOf(f, items)) == [Frame(f.tag, PayloadOf(f, items[0]))] + more;
      var last := SplitFrames(rest).value;
      assert [Frame(f.tag, PayloadOf(f, items[0]))] + (more + last) == [Frame(f.tag, PayloadOf(f, items[0]))] + more + last;
    }
  }

  lemma FieldFramed(f: Field, slot: Slot, rest: Bytes)
    requires SlotFits(f, slot) && EncodeField(f, slot).Wire? && SplitFrames(rest).Some?
    ensures SplitFrames(EncodeField(f, slot).bytes + rest) == Some(FieldFrames(f, slot) + SplitFrames(rest).value)
  {
    hide SplitFrames, TakeFrame, EncodeElement, PayloadOf, EncodeItems, OfTag;
    assert [] + rest == rest;
    var later := SplitFrames(rest).value;
    assert [] + later == later;
    if f.kind.Repeated? {
      if slot.size > 0 {
        var items := slot.items[..slot.size];
        if Packable(f.ltype) {
          PackedFrame(f.tag, EncodeItems(f, items, false).bytes, rest);
        } else {
          ItemsFramed(f, items, rest);
        }
      }
    } else if Present(f, slot) {
      FrameTaken(f, slot.items[0], rest);
      OneFrame(EncodeElement(f, slot.items[0], true).bytes, Frame(f.tag, PayloadOf(f, slot.items[0])), rest);
    }
  }

  lemma PackedFrame(tag: nat, content: Bytes, rest: Bytes)
    requires SplitFrames(rest).Some?
    ensures SplitFrames(TagBytes(tag, 2) + Prefixed(content) + rest) == Some([Frame(tag, Chunk(content))] + SplitFrames(rest).value)
  {
    hide SplitFrames, Varint, TakeNumber, TakePayload, Prefixed;
    KeyTaken(tag, 2, Prefixed(content) + rest);
    Regroup(TagBytes(tag, 2), Prefixed(content), rest);
    ChunkTaken(content, rest);
    hide TagBytes;
    OneFrame(TagBytes(tag, 2) + Prefixed(content), Frame(tag, Chunk(content)), rest);
  }

  /** What Encode writes splits into just the frames of the fields that are there, with their tags, in order. */
  lemma {:induction false} EncodedFrames(fields: seq<Field>, i: nat, slots: seq<Slot>)
    requires i <= |fields| && StructFits(fields, slots) && EncodeFrom(fields, i, slots).Wire?
    ensures SplitFrames(EncodeFrom(fields, i, slots).bytes) == Some(MessageFrames(fields, i, slots))
    decreases |fields| - i
  {
    hide SplitFrames, EncodeField, FieldFrames, StructFits, SlotFits;
    if i == |fields| {
      assert SplitFrames([]) == Some([]) by { NoFrames(); }
    } else {
      FirstEncoded(fields, i, slots);
      EncodedFrames(fields, i + 1, slots);
      FieldFramed(fields[i], At(fields, i, slots), EncodeFrom(fields, i + 1, slots).bytes);
    }
  }

  lemma NoFrames()
    ensures SplitFrames([]) == Some([])
  {
  }

  lemma FirstEncoded(fields: seq<Field>, i: nat, slots: seq<Slot>)
    requires i < |fields| && StructFits(fields, slots)
    ensures EncodeFrom(fields, i, slots) == Join(EncodeField(fields[i], At(fields, i, slots)), EncodeFrom(fields, i + 1, slots))
  {
  }

  // ---------------------------------------------------------------- packed arrays

  function FormOf(p: Payload): nat {
    match p
    case Base128(_) => 0
    case Bits64(_) => 1
    case Chunk(_) => 2
    case Bits32(_) => 5
  }

  /** The one frame of a packed array holds its elements, each in the form it would have alone. */
  lemma {:induction false} PackedElements(f: Field, items: seq<Item>)
    requires Packable(f.ltype) && AllFit(f, items) && items != [] && EncodeItems(f, items, false).Wire?
    ensures SplitPayloads(FormOf(PayloadOf(f, items[0])), EncodeItems(f, items, false).bytes) == Some(PayloadsOf(f, items))
    decreases |items|
  {
    hide TakePayload, EncodeItem, SplitPayloads;
    var one, others := EncodeItem(f, items[0]).bytes, EncodeItems(f, items[1..], false).bytes;
    PayloadTaken(f, items[0], others);
    SameForm(f, items[0]);
    var form := FormOf(PayloadOf(f, items[0]));
    if |items| > 1 {
      PackedElements(f, items[1..]);
      SameForm(f, items[1]);
    } else {
      assert items[1..] == [];
      NoPayloads(form);
    }
    OnePayload(form, one, PayloadOf(f, items[0]), others);
  }

  lemma SameForm(f: Field, item: Item)
    requires Packable(f.ltype) && ItemFits(f, item)
    ensures FormOf(PayloadOf(f, item)) == WireType(f.ltype)
  {
  }

  lemma NoPayloads(form: nat)
    ensures SplitPayloads(form, []) == Some([])
  {
  }

  lemma OnePayload(form: nat, bytes: Bytes, p: Payload, rest: Bytes)
    requires TakePayload(form, bytes + rest) == Some((p, rest)) && SplitPayloads(form, rest).Some?
    ensures SplitPayloads(form, bytes + rest) == Some([p] + SplitPayloads(form, rest).value)
  {
    hide TakePayload;
    assert bytes + rest != [];
  }

  // ---------------------------------------------------------------- what can be written

  ghost predicate ItemEncodable(f: Field, item: Item)
    requires ItemFits(f, item)
    decreases f, 0
  {
    match f.ltype
    case SignedVarint => ValidSize(f.dataSize)
    case UnsignedVarint => ValidSize(f.dataSize)
    case ZigZag => ValidSize(f.dataSize)
    case ByteArray => item.count <= |item.buffer|
    case Submessage => Encodable(f.sub, item.slots)
    case _ => true
  }

  ghost predicate FieldEncodable(f: Field, slot: Slot)
    requires SlotFits(f, slot)
    decreases f, 1
  {
    if f.kind.Repeated? then slot.size <= f.arraySize && forall k | 0 <= k < slot.size :: ItemEncodable(f, slot.items[k])
    else Present(f, slot) ==> ItemEncodable(f, slot.items[0])
  }

  ghost predicate PartEncodable(fields: seq<Field>, i: nat, slots: seq<Slot>)
    requires i < |fields| && StructFits(fields, slots)
    decreases fields, 0
  {
    FieldEncodable(fields[i], At(fields, i, slots))
  }

  /** Arrays and byte strings are not longer than their memory, and integers have one of the four sizes. */
  ghost predicate Encodable(fields: seq<Field>, slots: seq<Slot>)
    requires StructFits(fields, slots)
    decreases fields, 1
  {
    forall i | 0 <= i < |fields| :: PartEncodable(fields, i, slots)
  }

  /** The same of the fields from number `i` on. */
  ghost predicate RestEncodable(fields: seq<Field>, i: nat, slots: seq<Slot>)
    requires StructFits(fields, slots)
  {
    forall k | i <= k < |fields| :: PartEncodable(fields, k, slots)
  }

  lemma AllEncodable(fields: seq<Field>, slots: seq<Slot>)
    requires StructFits(fields, slots)
    ensures Encodable(fields, slots) <==> RestEncodable(fields, 0, slots)
  {
    if Encodable(fields, slots) {
      forall k | 0 <= k < |fields| ensures PartEncodable(fields, k, slots) {
      }
    }
    if RestEncodable(fields, 0, slots) {
      forall k | 0 <= k < |fields| ensures PartEncodable(fields, k, slots) {
      }
    }
  }

  lemma RestSplits(fields: seq<Field>, i: nat, slots: seq<Slot>)
    requires i < |fields| && StructFits(fields, slots)
    ensures RestEncodable(fields, i, slots) <==> PartEncodable(fields, i, slots) && RestEncodable(fields, i + 1, slots)
  {
    hide PartEncodable, StructFits;
  }

  lemma {:induction false} ItemEncodes(f: Field, item: Item)
    requires ItemFits(f, item)
    ensures EncodeItem(f, item).Wire? <==> ItemEncodable(f, item)
    decreases f, 0
  {
    if f.ltype.Submessage? {
      EncodesExactly(f.sub, 0, item.slots);
      AllEncodable(f.sub, item.slots);
      hide EncodeFrom;
    }
  }

  lemma {:induction false} ItemsEncode(f: Field, items: seq<Item>, tagged: bool)
    requires AllFit(f, items)
    ensures EncodeItems(f, items, tagged).Wire? <==> forall k | 0 <= k < |items| :: ItemEncodable(f, items[k])
    decreases f, 1, |items|
  {
    hide EncodeItem, ItemEncodable;
    if items != [] {
      ItemEncodes(f, items[0]);
      ItemsEncode(f, items[1..], tagged);
      assert forall k | 0 < k < |items| :: items[k] == items[1..][k - 1];
    }
  }

  lemma FieldEncodes(f: Field, slot: Slot)
    requires SlotFits(f, slot)
    ensures EncodeField(f, slot).Wire? <==> FieldEncodable(f, slot)
    decreases f, 2
  {
    hide EncodeItem, EncodeItems, ItemEncodable;
    if f.kind.Repeated? {
      if slot.size <= f.arraySize {
        var items := slot.items[..slot.size];
        ItemsEncode(f, items, !Packable(f.ltype));
        assert forall k | 0 <= k < slot.size :: items[k] == slot.items[k];
      }
    } else if Present(f, slot) {
      ItemEncodes(f, slot.items[0]);
    }
  }

  /** A struct is written if and only if every array and byte string in it fits its memory and every integer has a size
      the encoder knows. */
  lemma {:induction false} EncodesExactly(fields: seq<Field>, i: nat, slots: seq<Slot>)
    requires i <= |fields| && StructFits(fields, slots)
    ensures EncodeFrom(fields, i, slots).Wire? <==> RestEncodable(fields, i, slots)
    decreases fields, |fields| - i
  {
    hide EncodeField, FieldEncodable, StructFits, SlotFits;
    if i < |fields| {
      FirstEncoded(fields, i, slots);
      FieldEncodes(fields[i], At(fields, i, slots));
      EncodesExactly(fields, i + 1, slots);
      RestSplits(fields, i, slots);
    }
  }
}
