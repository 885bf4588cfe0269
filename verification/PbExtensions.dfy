/**
  Messages between programs with different descriptors (nanopb/pb_encode.c, nanopb/pb_decode.c): the reader
  passes over fields that it does not know, and gives those that the writer does not know their defaults.
*/
module PbExtensions {
  import opened IntegerSizes
  import opened InternalKeys
  import opened Codings
  import opened PbFields
  import opened PbEncoders
  import opened PbDecoders
  import opened PbFrames
  import opened PbRoundTrips

  // ---------------------------------------------------------------- passing over a value

  lemma {:induction false} VarintSkipped(v: nat, rest: Bytes)
    ensures SkipVarint(Varint(v) + rest) == Parsed((), rest)
    decreases v
  {
    if v < 128 {
      assert ([v] + rest)[1..] == rest;
    } else {
      var b: Byte := 128 + v % 128;
      Regroup([b], Varint(v / 128), rest);
      assert ([b] + (Varint(v / 128) + rest))[1..] == Varint(v / 128) + rest;
      VarintSkipped(v / 128, rest);
    }
  }

  lemma {:induction false} VarintEnds(input: Bytes)
    ensures SkipVarint(input) == if TakeNumber(input).Some? then Parsed((), TakeNumber(input).value.1) else Failed
  {
    if input != [] && input[0] >= 128 {
      VarintEnds(input[1..]);
    }
  }

  /** pb_skip_field takes off any input what a frame of that wire type holds, and refuses what no frame begins with. */
  lemma SkipIsTake(wireType: nat, input: Bytes)
    requires wireType != 2
    ensures SkipField(wireType, input) ==
            if TakePayload(wireType, input).Some? then Parsed((), TakePayload(wireType, input).value.1) else Failed
  {
    VarintEnds(input);
  }

  lemma StringSkipped(s: Bytes, rest: Bytes)
    requires |s| < TWO_32
    ensures SkipField(2, Prefixed(s) + rest) == Parsed((), rest)
  {
    hide Prefixed, DecodeString;
    StringBack(s, rest);
  }

  /** Every element that can be written is passed over whole, by its wire type alone. */
  lemma ItemSkipped(f: Field, item: Item, rest: Bytes)
    requires WellFormedField(f) && ItemFits(f, item) && EncodeItem(f, item).Wire? && ItemCountable(f, item)
    ensures SkipField(WireType(f.ltype), EncodeItem(f, item).bytes + rest) == Parsed((), rest)
  {
    hide SkipField, EncodeNumber, NumberFits, Prefixed, TakePayload, StringLength, EncodeFrom;
    if Packable(f.ltype) {
      SkipIsTake(WireType(f.ltype), EncodeItem(f, item).bytes + rest);
      PayloadTaken(f, item, rest);
    } else {
      StringSkipped(PayloadOf(f, item).bytes, rest);
    }
  }

  // ---------------------------------------------------------------- passing over a field

  ghost predicate Unknown(known: seq<Field>, f: Field) {
    IndexOf(known, f.tag).None? && 0 < f.tag < TAG_LIMIT
  }

  lemma FrameSkipped(known: seq<Field>, f: Field, wireType: nat, value: Bytes, rest: Bytes, p: Progress, u: nat)
    requires WellFormed(known) && StructFits(known, p.slots) && Unknown(known, f) && wireType < 8
    requires SkipField(wireType, value + rest) == Parsed((), rest)
    ensures DecodeLoop(known, TagBytes(f.tag, wireType) + value + rest, p, u) == DecodeLoop(known, rest, p, u)
  {
    hide SkipField, DecodeTag, TagBytes, StructFits, WellFormed, IndexOf;
    Regroup(TagBytes(f.tag, wireType), value, rest);
    TagBack(f.tag, wireType, value + rest);
    assert TagBytes(f.tag, wireType) + (value + rest) != [] by { EndOfInput(); }
  }

  lemma ElementSkipped(known: seq<Field>, f: Field, item: Item, rest: Bytes, p: Progress, u: nat)
    requires WellFormed(known) && StructFits(known, p.slots) && Unknown(known, f) && WellFormedField(f)
    requires ItemFits(f, item) && EncodeElement(f, item, true).Wire? && ItemCountable(f, item)
    ensures DecodeLoop(known, EncodeElement(f, item, true).bytes + rest, p, u) == DecodeLoop(known, rest, p, u)
  {
    hide DecodeLoop, SkipField, EncodeItem, TagBytes, WellFormed, WellFormedField, ItemCountable, StructFits;
    ItemSkipped(f, item, rest);
    FrameSkipped(known, f, WireType(f.ltype), EncodeItem(f, item).bytes, rest, p, u);
  }

  lemma {:induction false} ElementsSkipped(known: seq<Field>, f: Field, items: seq<Item>, rest: Bytes, p: Progress, u: nat)
    requires WellFormed(known) && StructFits(known, p.slots) && Unknown(known, f) && WellFormedField(f)
    requires AllFit(f, items) && EncodeItems(f, items, true).Wire? && forall k | 0 <= k < |items| :: ItemCountable(f, items[k])
    ensures DecodeLoop(known, EncodeItems(f, items, true).bytes + rest, p, u) == DecodeLoop(known, rest, p, u)
    decreases |items|
  {
    hide DecodeLoop, EncodeElement, WellFormed, WellFormedField, ItemCountable, StructFits, Unknown;
    if items == [] {
      assert [] + rest == rest;
    } else {
      var one, others := EncodeElement(f, items[0], true).bytes, EncodeItems(f, items[1..], true).bytes;
      Regroup(one, others, rest);
      ElementSkipped(known, f, items[0], others + rest, p, u);
      ElementsSkipped(known, f, items[1..], rest, p, u);
    }
  }

  /** A field the reader does not know changes nothing of what it reads. */
  lemma FieldSkipped(known: seq<Field>, f: Field, slot: Slot, rest: Bytes, p: Progress, u: nat)
    requires WellFormed(known) && StructFits(known, p.slots) && Unknown(known, f) && WellFormedField(f)
    requires SlotFits(f, slot) && EncodeField(f, slot).Wire? && FieldCountable(f, slot)
    ensures DecodeLoop(known, EncodeField(f, slot).bytes + rest, p, u) == DecodeLoop(known, rest, p, u)
  {
    hide DecodeLoop, EncodeElement, EncodeItems, WellFormed, WellFormedField, ItemCountable, StructFits, Unknown, SkipField, TagBytes;
    assert [] + rest == rest;
    if f.kind.Repeated? && slot.size > 0 {
      var items := slot.items[..slot.size];
      if Packable(f.ltype) {
        assert slot.items[0..slot.size] == items;
        var content := EncodeItems(f, items, false).bytes;
        hide Prefixed;
        StringSkipped(content, rest);
        FrameSkipped(known, f, 2, Prefixed(content), rest, p, u);
      } else {
        forall k | 0 <= k < |items|
          ensures ItemCountable(f, items[k])
        {
          assert ElementCountable(f, slot, k);
        }
        ElementsSkipped(known, f, items, rest, p, u);
      }
    } else if !f.kind.Repeated? && Present(f, slot) {
      ElementSkipped(known, f, slot.items[0], rest, p, u);
    }
  }

  // ---------------------------------------------------------------- two descriptors

  /** The same field; only its place in the union may differ, as it does when the members before it are not known. */
  predicate SameField(f: Field, g: Field) {
    g == f.(inUnion := g.inUnion)
  }

  /** From the writer's field `i` and the reader's field `k` on, what both know comes in the same order and is the same
      in both structs, and what the writer does not know is not there. */
  ghost predicate Agree(fields: seq<Field>, i: nat, src: seq<Slot>, known: seq<Field>, k: nat, kept: seq<Slot>)
    requires i <= |fields| && k <= |known| && StructFits(fields, src) && StructFits(known, kept)
    decreases |fields| - i + |known| - k
  {
    if i < |fields| && IndexOf(known, fields[i].tag).None? then Agree(fields, i + 1, src, known, k, kept)
    else if k < |known| && IndexOf(fields, known[k].tag).None? then
      NotThere(known[k], At(known, k, kept)) && Agree(fields, i, src, known, k + 1, kept)
    else if i == |fields| || k == |known| then i == |fields| && k == |known|
    else
      && SameField(fields[i], known[k]) && At(fields, i, src) == At(known, k, kept)
      && Agree(fields, i + 1, src, known, k + 1, kept)
  }

  ghost predicate NotThere(f: Field, slot: Slot)
    requires SlotFits(f, slot)
  {
    if f.kind.Repeated? then slot.size == 0 else !Present(f, slot)
  }

  lemma SameItem(f: Field, g: Field, item: Item)
    requires SameField(f, g) && ItemFits(f, item)
    ensures ItemFits(g, item) && EncodeItem(g, item) == EncodeItem(f, item) && ItemView(g, item) == ItemView(f, item)
  {
  }

  lemma {:induction false} SameItems(f: Field, g: Field, items: seq<Item>, tagged: bool)
    requires SameField(f, g) && AllFit(f, items)
    ensures AllFit(g, items) && EncodeItems(g, items, tagged) == EncodeItems(f, items, tagged)
    decreases |items|
  {
    hide EncodeItem, ItemView;
    forall k | 0 <= k < |items|
      ensures ItemFits(g, items[k])
    {
      SameItem(f, g, items[k]);
    }
    if items != [] {
      SameItem(f, g, items[0]);
      SameItems(f, g, items[1..], tagged);
    }
  }

  lemma SameEncoding(f: Field, g: Field, slot: Slot)
    requires SameField(f, g) && SlotFits(f, slot) && SlotFits(g, slot)
    ensures EncodeField(g, slot) == EncodeField(f, slot)
  {
    hide EncodeItem, EncodeItems, ItemView;
    if f.kind.Repeated? {
      if slot.size <= f.arraySize {
        SameItems(f, g, slot.items[..slot.size], false);
        SameItems(f, g, slot.items[..slot.size], true);
      }
    } else if Present(f, slot) {
      SameItem(f, g, slot.items[0]);
    }
  }

  lemma SameView(f: Field, g: Field, slot: Slot)
    requires SameField(f, g) && SlotFits(f, slot) && SlotFits(g, slot)
    ensures FieldView(g, slot) == FieldView(f, slot)
  {
    hide ItemView, EncodeItem;
    if f.kind.Repeated? {
      var items := if slot.size <= |slot.items| then slot.items[..slot.size] else slot.items;
      forall k | 0 <= k < |items|
        ensures ItemView(g, items[k]) == ItemView(f, items[k])
      {
        SameItem(f, g, items[k]);
      }
      assert ItemViews(g, items) == ItemViews(f, items);
    } else if Present(f, slot) {
      SameItem(f, g, slot.items[0]);
    }
  }

  // ---------------------------------------------------------------- reading what another descriptor wrote

  lemma {:induction false} AgreedBack(fields: seq<Field>, i: nat, src: seq<Slot>, known: seq<Field>, k: nat, kept: seq<Slot>, p: Progress, u: nat)
    returns (d: Progress)
    requires i <= |fields| && WellFormed(fields) && StructFits(fields, src)
    requires k <= |known| && WellFormed(known) && StructFits(known, kept) && StructFits(known, p.slots)
    requires Agree(fields, i, src, known, k, kept)
    requires Mid(known, kept, p.slots, k) && SeenTo(known, k, p.seen)
    requires EncodeFrom(fields, i, src).Wire? && PartsCountable(fields, src)
    ensures StructFits(known, d.slots)
    ensures RestDecodable(known, k, kept, u) ==>
              && DecodeLoop(known, EncodeFrom(fields, i, src).bytes, p, u) == Parsed(d, [])
              && Mid(known, kept, d.slots, |known|) && SeenTo(known, |known|, d.seen)
    ensures !RestDecodable(known, k, kept, u) ==> DecodeLoop(known, EncodeFrom(fields, i, src).bytes, p, u) == Failed
    decreases |fields| - i + |known| - k
  {
    hide Mid, SeenTo, EncodeField, EncodeFrom, DecodeLoop, PartDecodable, StructFits, SlotFits, NotThere, FieldCountable, IndexOf, FieldView, FieldDecodable;
    d := p;
    if i < |fields| && IndexOf(known, fields[i].tag).None? {
      FirstField(fields, i, src);
      FieldWell(fields, i, src);
      d := AgreedBack(fields, i + 1, src, known, k, kept, p, u);
      FieldSkipped(known, fields[i], At(fields, i, src), EncodeFrom(fields, i + 1, src).bytes, p, u);
    } else if k < |known| && IndexOf(fields, known[k].tag).None? {
      NothingSent(known, k, kept, p, u);
      RestMeans(known, k, kept, u);
      d := AgreedBack(fields, i, src, known, k + 1, kept, p, u);
    } else if i < |fields| {
      var rest := EncodeFrom(fields, i + 1, src);
      FirstField(fields, i, src);
      FieldWell(fields, i, src);
      SameEncoding(fields[i], known[k], At(fields, i, src));
      SameCountable(fields[i], known[k], At(fields, i, src));
      var q := FieldStep(known, k, kept, p, rest.bytes, u);
      if PartDecodable(known, k, kept, u) {
        d := AgreedBack(fields, i + 1, src, known, k + 1, kept, q, u);
      }
      RestMeans(known, k, kept, u);
    } else {
      NoFields(known, kept, p, u);
      NothingLeft(fields, src);
    }
  }

  lemma FieldWell(fields: seq<Field>, i: nat, src: seq<Slot>)
    requires i < |fields| && WellFormed(fields) && StructFits(fields, src) && PartsCountable(fields, src)
    ensures WellFormedField(fields[i]) && 0 < fields[i].tag < TAG_LIMIT && FieldCountable(fields[i], At(fields, i, src))
  {
    assert PartCountable(fields, i, src);
    hide FieldCountable;
  }

  lemma NothingLeft(fields: seq<Field>, src: seq<Slot>)
    requires StructFits(fields, src)
    ensures EncodeFrom(fields, |fields|, src) == Wire([])
  {
  }

  lemma NothingSent(known: seq<Field>, k: nat, kept: seq<Slot>, p: Progress, u: nat)
    requires k < |known| && WellFormed(known) && StructFits(known, kept) && StructFits(known, p.slots)
    requires NotThere(known[k], At(known, k, kept)) && Mid(known, kept, p.slots, k) && SeenTo(known, k, p.seen)
    ensures PartDecodable(known, k, kept, u) && Mid(known, kept, p.slots, k + 1) && SeenTo(known, k + 1, p.seen)
  {
    hide Mid, SeenTo, FieldView, FieldDecodable;
    NothingThere(known[k], At(known, k, kept), u);
    MidSkip(known, k, kept, p.slots);
    SeenSame(known, k, p.seen);
  }

  lemma SameCountable(f: Field, g: Field, slot: Slot)
    requires SameField(f, g) && SlotFits(f, slot) && SlotFits(g, slot) && FieldCountable(f, slot)
    ensures FieldCountable(g, slot)
  {
    hide EncodeItems, Countable, PartsCountable, EncodeFrom;
    if f.kind.Repeated? {
      if slot.size <= f.arraySize {
        if Packable(f.ltype) {
          SameItems(f, g, slot.items[0..slot.size], false);
        } else {
          forall k | 0 <= k < slot.size
            ensures ElementCountable(g, slot, k)
          {
            assert ElementCountable(f, slot, k);
          }
        }
      }
    }
  }

  /** The parts that the reader knows. */
  ghost function Shared(parts: seq<Part>, known: seq<Field>): seq<Part> {
    if parts == [] then []
    else Shared(parts[..|parts| - 1], known) + if IndexOf(known, parts[|parts| - 1].tag).Some? then [parts[|parts| - 1]] else []
  }

  lemma {:induction false} SharedJoin(a: seq<Part>, b: seq<Part>, known: seq<Field>)
    ensures Shared(a + b, known) == Shared(a, known) + Shared(b, known)
    decreases |b|
  {
    if b == [] {
      assert a + b == a;
    } else {
      SharedJoin(a, b[..|b| - 1], known);
      assert (a + b)[..|a + b| - 1] == a + b[..|b| - 1];
    }
  }

  lemma SharedField(f: Field, slot: Slot, known: seq<Field>)
    requires SlotFits(f, slot)
    ensures Shared(FieldView(f, slot), known) == if IndexOf(known, f.tag).Some? then FieldView(f, slot) else []
  {
    hide ItemView, ItemViews;
    assert |FieldView(f, slot)| <= 1;
  }

  lemma {:induction false} SharedViews(fields: seq<Field>, i: nat, src: seq<Slot>, known: seq<Field>, k: nat, kept: seq<Slot>)
    requires i <= |fields| && k <= |known| && StructFits(fields, src) && StructFits(known, kept)
    requires Agree(fields, i, src, known, k, kept)
    requires Shared(View(fields, i, src), known) == View(known, k, kept)
    ensures Shared(View(fields, |fields|, src), known) == View(known, |known|, kept)
    decreases |fields| - i + |known| - k
  {
    hide StructFits, SlotFits, FieldView, Shared, IndexOf;
    if i < |fields| {
      SharedJoin(View(fields, i, src), FieldView(fields[i], At(fields, i, src)), known);
      SharedField(fields[i], At(fields, i, src), known);
    }
    if i < |fields| && IndexOf(known, fields[i].tag).None? {
      SharedViews(fields, i + 1, src, known, k, kept);
    } else if k < |known| && IndexOf(fields, known[k].tag).None? {
      NothingThere(known[k], At(known, k, kept), 0);
      SharedViews(fields, i, src, known, k + 1, kept);
    } else if i < |fields| {
      SameView(fields[i], known[k], At(fields, i, src));
      HasTag(known, k);
      SharedViews(fields, i + 1, src, known, k + 1, kept);
    }
  }

  lemma HasTag(known: seq<Field>, k: nat)
    requires k < |known|
    ensures IndexOf(known, known[k].tag).Some?
  {
  }

  /**
    What one program wrote another reads, though their descriptors differ: the fields both know come out as they
    were, those only the writer knows are passed over, those only the reader knows have their defaults.
  */
  lemma OtherDescriptor(fields: seq<Field>, src: seq<Slot>, known: seq<Field>, kept: seq<Slot>, dst: seq<Slot>, u: nat)
    requires WellFormed(fields) && StructFits(fields, src)
    requires WellFormed(known) && StructFits(known, kept) && StructFits(known, dst) && Agree(fields, 0, src, known, 0, kept)
    requires EncodeFrom(fields, 0, src).Wire? && PartsCountable(fields, src)
    ensures var p := Decode(known, EncodeFrom(fields, 0, src).bytes, dst, u);
            && (p.Parsed? <==> Decodable(known, kept, u))
            && (p.Parsed? ==>
                  && p.rest == [] && OthersDefault(known, kept, p.value)
                  && View(known, |known|, p.value) == Shared(View(fields, |fields|, src), known))
  {
    hide View, DecodeLoop, EncodeFrom, Words, AllSeen, PartDecodable, OthersDefault, Agree, PartsCountable, SetDefaults, Shared;
    var start, bytes := SetDefaults(known, dst), EncodeFrom(fields, 0, src).bytes;
    DefaultsFresh(known, dst);
    MidStart(known, kept, start);
    var p := Progress(start, {});
    var d := AgreedBack(fields, 0, src, known, 0, kept, p, u);
    assert Decodable(known, kept, u) <==> RestDecodable(known, 0, kept, u) && (RequiredCount(known) == 32 ==> u == 0);
    if RestDecodable(known, 0, kept, u) {
      MidEnd(known, kept, d.slots, |known|);
      EndDefault(known, kept, d.slots);
      AllSeenMeans(RequiredCount(known), d.seen, u);
      assert DecodeLoop(known, bytes, p, u) == Parsed(d, []);
      NoView(fields, src, known, kept);
      SharedViews(fields, 0, src, known, 0, kept);
    } else {
      assert DecodeFields(known, bytes, start, u) == Failed;
    }
  }

  lemma NoView(fields: seq<Field>, src: seq<Slot>, known: seq<Field>, kept: seq<Slot>)
    requires StructFits(fields, src) && StructFits(known, kept)
    ensures View(fields, 0, src) == [] && View(known, 0, kept) == [] && Shared([], known) == []
  {
  }
}
