/**
  Message descriptors, message structs and the field iterator (nanopb/pb.h, nanopb/pb_common.c), as this
  project builds them: 32-bit field sizes, no dynamic allocation.  A struct is a row of slots, one for every
  field, except that the members of a oneof share one.  The iterator keeps a slot number where the original
  keeps the address it has added up from the sizes of the fields before.
*/
module PbFields {
  import opened IntegerSizes
  import opened InternalKeys
  import opened Codings

  datatype Kind = Required | Optional | Repeated | Oneof

  datatype LType =
    | SignedVarint | UnsignedVarint | ZigZag | Fixed32 | Fixed64
    | ByteArray | CString | Submessage | FixedBytes

  /** `initial` is what the field is set to before decoding: the default the descriptor points at, or zeros. */
  datatype Field = Field(tag: nat, kind: Kind, ltype: LType, dataSize: nat, arraySize: nat, inUnion: bool,
                         initial: Item, sub: seq<Field>)

  /** The memory of one element: an integer, a counted byte array, plain bytes, or an embedded struct. */
  datatype Item = Number(n: int) | Counted(count: nat, buffer: Bytes) | Raw(buffer: Bytes) | Struct(slots: seq<Slot>)

  /** `size` is the has_ flag, the number of elements, or the tag of the chosen member of a oneof. */
  datatype Slot = Slot(size: nat, items: seq<Item>)

  predicate Packable(t: LType) {
    t.SignedVarint? || t.UnsignedVarint? || t.ZigZag? || t.Fixed32? || t.Fixed64?
  }

  // ---------------------------------------------------------------- where a field lives

  /** The data pointer does not advance from one member of a union to the next. */
  predicate SharesSlot(previous: Field, next: Field) {
    previous.kind.Oneof? && next.kind.Oneof? && next.inUnion
  }

  function SlotOf(fields: seq<Field>, i: nat): nat
    requires i < |fields| || i == 0
  {
    if i == 0 then 0 else SlotOf(fields, i - 1) + (if SharesSlot(fields[i - 1], fields[i]) then 0 else 1)
  }

  function SlotCount(fields: seq<Field>): nat {
    if fields == [] then 0 else SlotOf(fields, |fields| - 1) + 1
  }

  function RequiredBefore(fields: seq<Field>, i: nat): (n: nat)
    requires i <= |fields|
    ensures n <= i
  {
    if i == 0 then 0 else RequiredBefore(fields, i - 1) + (if fields[i - 1].kind.Required? then 1 else 0)
  }

  lemma {:induction false} SlotsAscend(fields: seq<Field>, i: nat, j: nat)
    requires i <= j < |fields|
    ensures SlotOf(fields, i) <= SlotOf(fields, j)
    ensures i < j && !(fields[i].kind.Oneof? && fields[j].kind.Oneof?) ==> SlotOf(fields, i) < SlotOf(fields, j)
    decreases j
  {
    if i < j {
      SlotsAscend(fields, i, j - 1);
    }
  }

  lemma SlotBound(fields: seq<Field>, i: nat)
    requires i < |fields|
    ensures SlotOf(fields, i) < SlotCount(fields)
  {
    SlotsAscend(fields, i, |fields| - 1);
  }

  /** Only members of a oneof share memory. */
  lemma SharedMeansOneof(fields: seq<Field>, i: nat, j: nat)
    requires i < |fields| && j < |fields| && i != j && SlotOf(fields, i) == SlotOf(fields, j)
    ensures fields[i].kind.Oneof? && fields[j].kind.Oneof?
  {
    if i < j {
      SlotsAscend(fields, i, j);
    } else {
      SlotsAscend(fields, j, i);
    }
  }

  // ---------------------------------------------------------------- what memory a field has

  predicate ValidSize(n: nat) {
    n == 1 || n == 2 || n == 4 || n == 8
  }

  /** Half the number of values of an integer of so many bytes. */
  function HalfRange(size: nat): int
    requires ValidSize(size)
  {
    if size == 1 then 0x80 else if size == 2 then 0x8000 else if size == 4 then 0x8000_0000 else 0x8000_0000_0000_0000
  }

  predicate NumberFits(t: LType, size: nat, n: int) {
    match t
    case SignedVarint => ValidSize(size) ==> -HalfRange(size) <= n < HalfRange(size)
    case ZigZag => ValidSize(size) ==> -HalfRange(size) <= n < HalfRange(size)
    case UnsignedVarint => ValidSize(size) ==> 0 <= n < 2 * HalfRange(size)
    case Fixed32 => 0 <= n < TWO_32
    case Fixed64 => 0 <= n < TWO_64
    case _ => true
  }

  /** A byte array starts with a count of four bytes. */
  const COUNT_SIZE := 4

  predicate ItemFits(f: Field, item: Item)
    decreases f, 0
  {
    match f.ltype
    case Submessage => item.Struct? && StructFits(f.sub, item.slots)
    case ByteArray => item.Counted? && item.count < TWO_32 && |item.buffer| + COUNT_SIZE == f.dataSize
    case CString => item.Raw? && |item.buffer| == f.dataSize
    case FixedBytes => item.Raw? && |item.buffer| == f.dataSize
    case _ => item.Number? && NumberFits(f.ltype, f.dataSize, item.n)
  }

  /** The memory of a oneof is only known to be of the chosen member's type. */
  predicate SlotFits(f: Field, slot: Slot)
    decreases f, 1
  {
    && slot.size < TWO_32
    && |slot.items| == (if f.kind.Repeated? then f.arraySize else 1)
    && (f.kind.Oneof? ==> slot.size == f.tag ==> ItemFits(f, slot.items[0]))
    && (!f.kind.Oneof? ==> forall k | 0 <= k < |slot.items| :: ItemFits(f, slot.items[k]))
  }

  predicate StructFits(fields: seq<Field>, slots: seq<Slot>)
    decreases fields
  {
    && |slots| == SlotCount(fields)
    && forall i | 0 <= i < |fields| :: FieldFits(fields, i, slots)
  }

  predicate FieldFits(fields: seq<Field>, i: nat, slots: seq<Slot>)
    requires i < |fields| && |slots| == SlotCount(fields)
    decreases fields, 0
  {
    SlotBound(fields, i);
    SlotFits(fields[i], slots[SlotOf(fields, i)])
  }

  /** The slot of field `i`. */
  function At(fields: seq<Field>, i: nat, slots: seq<Slot>): (slot: Slot)
    requires i < |fields| && StructFits(fields, slots)
    ensures SlotFits(fields[i], slot)
  {
    assert FieldFits(fields, i, slots);
    SlotBound(fields, i);
    slots[SlotOf(fields, i)]
  }

  // ---------------------------------------------------------------- descriptors

  /** A zero tag ends the table of fields. */
  predicate Tagged(fields: seq<Field>) {
    && (forall i | 0 <= i < |fields| :: fields[i].tag != 0)
    && (forall i, j | 0 <= i < j < |fields| :: fields[i].tag != fields[j].tag)
  }

  function IndexOf(fields: seq<Field>, tag: nat): (r: Option<nat>)
    ensures r.Some? ==> r.value < |fields| && fields[r.value].tag == tag
    ensures r.None? ==> forall i | 0 <= i < |fields| :: fields[i].tag != tag
  {
    if fields == [] then None
    else if fields[|fields| - 1].tag == tag then Some(|fields| - 1)
    else IndexOf(fields[..|fields| - 1], tag)
  }

  /** Field numbers have 29 bits. */
  const TAG_LIMIT := 0x2000_0000

  /** Presence is tracked for fewer required fields than this in one message. */
  const MAX_REQUIRED_FIELDS := 64

  /** A descriptor is a tree: its tables and those of its submessages. */
  predicate WellFormed(fields: seq<Field>)
    decreases fields
  {
    && Tagged(fields)
    && RequiredBefore(fields, |fields|) < MAX_REQUIRED_FIELDS
    && forall i | 0 <= i < |fields| :: WellFormedField(fields[i])
  }

  predicate WellFormedField(f: Field)
    decreases f
  {
    && f.tag < TAG_LIMIT && f.dataSize < TWO_32 && f.arraySize < TWO_32
    && WellFormed(f.sub)
    && (f.ltype.ByteArray? ==> f.dataSize >= COUNT_SIZE)
    && (f.ltype.Submessage? || ItemFits(f, f.initial))
  }

  // ---------------------------------------------------------------- the iterator

  class FieldIterator {
    const start: seq<Field>
    var pos: nat
    var requiredIndex: nat
    var slot: nat

    ghost predicate Valid()
      reads this
    {
      && Tagged(start)
      && (pos < |start| || (start == [] && pos == 0))
      && requiredIndex == RequiredBefore(start, pos)
      && slot == SlotOf(start, pos)
    }

    /** pb_field_iter_begin */
    constructor Begin(fields: seq<Field>)
      requires Tagged(fields)
      ensures Valid() && start == fields && pos == 0
    {
      start := fields;
      pos, requiredIndex, slot := 0, 0, 0;
    }

    function TagHere(): nat
      reads this
    {
      if pos < |start| then start[pos].tag else 0
    }

    /** pb_field_iter_next: one field on, or back to the beginning with `more` false. */
    method Next() returns (more: bool)
      requires Valid()
      modifies this
      ensures Valid()
      ensures more == (old(pos) + 1 < |start|)
      ensures pos == if more then old(pos) + 1 else 0
    {
      if pos >= |start| {
        return false;
      }
      var previous := start[pos];
      pos := pos + 1;
      if pos == |start| {
        pos, requiredIndex, slot := 0, 0, 0;
        return false;
      }
      more := true;
      if SharesSlot(previous, start[pos]) {
        return;
      }
      if previous.kind.Required? {
        requiredIndex := requiredIndex + 1;
      }
      slot := slot + 1;
    }

    /** pb_field_iter_find: from wherever the iterator stands, all the way round. */
    method Find(tag: nat) returns (found: bool)
      requires Valid()
      modifies this
      ensures Valid()
      ensures start == [] ==> found == (tag == 0)
      ensures start != [] ==> found == IndexOf(start, tag).Some?
      ensures start != [] && found ==> pos == IndexOf(start, tag).value
      ensures !found ==> pos == old(pos)
    {
      var first := pos;
      ghost var around := false;
      while true
        invariant Valid()
        invariant !around ==> first <= pos && forall i | first <= i < pos :: start[i].tag != tag
        invariant around ==> pos < first && forall i | (0 <= i < pos || first <= i < |start|) :: start[i].tag != tag
        invariant start == [] ==> !around
        decreases if around then 0 else 1, |start| - pos
      {
        if TagHere() == tag {
          return true;
        }
        var more := Next();
        if !more {
          around := true;
        }
        if pos == first {
          return false;
        }
      }
    }
  }
}
