/**
  A version edit as the bytes of a manifest record (db/version_edit.cc).  Internal keys are taken as the byte
  strings they are stored as; the set of deleted files is the sorted list a std::set keeps.
*/
module EditCodecs {
  import opened InternalKeys
  import opened Codings
  import opened IntegerSizes
  import Versions

  datatype NewFile = NewFile(level: nat, number: nat, size: nat, smallest: Bytes, largest: Bytes)

  datatype EditRecord = EditRecord(
    comparator: Option<Bytes>, log: Option<nat>, prevLog: Option<nat>, next: Option<nat>, last: Option<nat>,
    pointers: seq<(nat, Bytes)>, deleted: seq<(nat, nat)>, added: seq<NewFile>)

  const BLANK_EDIT := EditRecord(None, None, None, None, None, [], [], [])

  /** One tagged field of the record. */
  datatype Item =
    | Comparator(name: Bytes)
    | LogNumber(n: nat)
    | NextFileNumber(n: nat)
    | LastSequence(n: nat)
    | CompactPointer(level: nat, key: Bytes)
    | DeletedFile(level: nat, n: nat)
    | AddedFile(f: NewFile)
    | PrevLogNumber(n: nat)

  // ---------------------------------------------------------------- the order of a std::set of pairs

  predicate Less(a: (nat, nat), b: (nat, nat)) {
    a.0 < b.0 || (a.0 == b.0 && a.1 < b.1)
  }

  ghost predicate Ascending(s: seq<(nat, nat)>) {
    forall i, j | 0 <= i < j < |s| :: Less(s[i], s[j])
  }

  function InsertPair(s: seq<(nat, nat)>, p: (nat, nat)): seq<(nat, nat)> {
    if s == [] || Less(p, s[0]) then [p] + s
    else if s[0] == p then s
    else [s[0]] + InsertPair(s[1..], p)
  }

  lemma {:induction false} InsertLast(s: seq<(nat, nat)>, p: (nat, nat))
    requires forall q | q in s :: Less(q, p)
    ensures InsertPair(s, p) == s + [p]
  {
    if s != [] {
      assert s[0] in s;
      InsertLast(s[1..], p);
    }
  }

  // ---------------------------------------------------------------- one field

  function TagOf(item: Item): nat {
    match item
    case Comparator(_) => 1
    case LogNumber(_) => 2
    case NextFileNumber(_) => 3
    case LastSequence(_) => 4
    case CompactPointer(_, _) => 5
    case DeletedFile(_, _) => 6
    case AddedFile(_) => 7
    case PrevLogNumber(_) => 9
  }

  /** The field's payload in front of what follows it. */
  function BodyThen(item: Item, rest: Bytes): Bytes {
    match item
    case Comparator(name) => Prefixed(name) + rest
    case CompactPointer(level, key) => Varint(level) + (Prefixed(key) + rest)
    case DeletedFile(level, n) => Varint(level) + (Varint(n) + rest)
    case AddedFile(f) =>
      Varint(f.level) + (Varint(f.number) + (Varint(f.size) + (Prefixed(f.smallest) + (Prefixed(f.largest) + rest))))
    case LogNumber(n) => Varint(n) + rest
    case NextFileNumber(n) => Varint(n) + rest
    case LastSequence(n) => Varint(n) + rest
    case PrevLogNumber(n) => Varint(n) + rest
  }

  function ItemThen(item: Item, rest: Bytes): Bytes {
    Varint(TagOf(item)) + BodyThen(item, rest)
  }

  /** Values fit the widths the code gives them. */
  predicate Fits(item: Item) {
    match item
    case Comparator(name) => |name| < TWO_32
    case CompactPointer(level, key) => level < Versions.NUM_LEVELS && |key| < TWO_32
    case DeletedFile(level, n) => level < Versions.NUM_LEVELS && n < TWO_64
    case AddedFile(f) =>
      f.level < Versions.NUM_LEVELS && f.number < TWO_64 && f.size < TWO_64 && |f.smallest| < TWO_32 && |f.largest| < TWO_32
    case LogNumber(n) => n < TWO_64
    case NextFileNumber(n) => n < TWO_64
    case LastSequence(n) => n < TWO_64
    case PrevLogNumber(n) => n < TWO_64
  }

  /** GetLevel */
  function TakeLevel(input: Bytes): Taken<nat> {
    var t := TakeVarint32(input);
    if t.Taken? && t.value < Versions.NUM_LEVELS then t else Nothing
  }

  /** The cases of DecodeFrom after the tag. */
  function TakeBody(tag: nat, input: Bytes): (t: Taken<Item>)
    ensures t.Taken? ==> t.used <= |input|
  {
    match tag
    case 1 => var s := TakeSlice(input); if s.Taken? then Taken(Comparator(s.value), s.used) else Nothing
    case 2 => var n := TakeVarint64(input); if n.Taken? then Taken(LogNumber(n.value), n.used) else Nothing
    case 3 => var n := TakeVarint64(input); if n.Taken? then Taken(NextFileNumber(n.value), n.used) else Nothing
    case 4 => var n := TakeVarint64(input); if n.Taken? then Taken(LastSequence(n.value), n.used) else Nothing
    case 5 =>
      var l := TakeLevel(input);
      if l.Nothing? then Nothing
      else
        var s := TakeSlice(input[l.used..]);
        if s.Nothing? then Nothing else Taken(CompactPointer(l.value, s.value), l.used + s.used)
    case 6 =>
      var l := TakeLevel(input);
      if l.Nothing? then Nothing
      else
        var n := TakeVarint64(input[l.used..]);
        if n.Nothing? then Nothing else Taken(DeletedFile(l.value, n.value), l.used + n.used)
    case 7 => TakeFile(input)
    case 9 => var n := TakeVarint64(input); if n.Taken? then Taken(PrevLogNumber(n.value), n.used) else Nothing
    case _ => Nothing
  }

  function TakeFile(input: Bytes): (t: Taken<Item>)
    ensures t.Taken? ==> t.used <= |input|
  {
    var l := TakeLevel(input);
    if l.Nothing? then Nothing else
    var rest := input[l.used..];
    var n := TakeVarint64(rest);
    if n.Nothing? then Nothing else
    var z := TakeVarint64(rest[n.used..]);
    if z.Nothing? then Nothing else
    var keys := TakeKeys(rest[n.used..][z.used..]);
    if keys.Nothing? then Nothing
    else Taken(AddedFile(NewFile(l.value, n.value, z.value, keys.value.0, keys.value.1)), l.used + n.used + z.used + keys.used)
  }

  function TakeKeys(input: Bytes): (t: Taken<(Bytes, Bytes)>)
    ensures t.Taken? ==> t.used <= |input|
  {
    var a := TakeSlice(input);
    if a.Nothing? then Nothing else
    var b := TakeSlice(input[a.used..]);
    if b.Nothing? then Nothing else Taken((a.value, b.value), a.used + b.used)
  }

  function TakeItem(input: Bytes): (t: Taken<Item>)
    ensures t.Taken? ==> 0 < t.used <= |input|
  {
    var tag := TakeVarint32(input);
    if tag.Nothing? then Nothing
    else
      var body := TakeBody(tag.value, input[tag.used..]);
      if body.Nothing? then Nothing else Taken(body.value, tag.used + body.used)
  }

  lemma DropFront(a: Bytes, b: Bytes)
    ensures (a + b)[|a|..] == b
  {
  }

  lemma KeysBack(a: Bytes, b: Bytes, rest: Bytes)
    requires |a| < TWO_32 && |b| < TWO_32
    ensures TakeKeys(Prefixed(a) + (Prefixed(b) + rest)) == Taken((a, b), |Prefixed(a)| + |Prefixed(b)|)
  {
    hide Prefixed, TakeSlice;
    SliceRoundTrip(a, Prefixed(b) + rest);
    DropFront(Prefixed(a), Prefixed(b) + rest);
    SliceRoundTrip(b, rest);
  }

  lemma LevelBack(level: nat, rest: Bytes)
    requires level < Versions.NUM_LEVELS
    ensures TakeLevel(Varint(level) + rest) == Taken(level, |Varint(level)|)
  {
    Varint32RoundTrip(level, rest);
  }

  lemma FileBack(f: NewFile, rest: Bytes)
    requires Fits(AddedFile(f))
    ensures TakeFile(BodyThen(AddedFile(f), rest)) == Taken(AddedFile(f), |BodyThen(AddedFile(f), rest)| - |rest|)
  {
    hide Prefixed, TakeSlice, Varint, TakeVarint64, TakeLevel, TakeKeys;
    var r4 := Prefixed(f.smallest) + (Prefixed(f.largest) + rest);
    var r3 := Varint(f.size) + r4;
    var r2 := Varint(f.number) + r3;
    LevelBack(f.level, r2);
    DropFront(Varint(f.level), r2);
    Varint64RoundTrip(f.number, r3);
    DropFront(Varint(f.number), r3);
    Varint64RoundTrip(f.size, r4);
    DropFront(Varint(f.size), r4);
    KeysBack(f.smallest, f.largest, rest);
  }

  lemma PointerBack(level: nat, key: Bytes, rest: Bytes)
    requires Fits(CompactPointer(level, key))
    ensures TakeBody(5, BodyThen(CompactPointer(level, key), rest)) == Taken(CompactPointer(level, key), |Varint(level)| + |Prefixed(key)|)
  {
    hide Prefixed, TakeSlice, Varint, TakeLevel;
    LevelBack(level, Prefixed(key) + rest);
    DropFront(Varint(level), Prefixed(key) + rest);
    SliceRoundTrip(key, rest);
  }

  lemma DeletedBack(level: nat, n: nat, rest: Bytes)
    requires Fits(DeletedFile(level, n))
    ensures TakeBody(6, BodyThen(DeletedFile(level, n), rest)) == Taken(DeletedFile(level, n), |Varint(level)| + |Varint(n)|)
  {
    hide Varint, TakeLevel, TakeVarint64;
    LevelBack(level, Varint(n) + rest);
    DropFront(Varint(level), Varint(n) + rest);
    Varint64RoundTrip(n, rest);
  }

  lemma NumberBack(item: Item, n: nat, rest: Bytes)
    requires n < TWO_64 && (item == LogNumber(n) || item == NextFileNumber(n) || item == LastSequence(n) || item == PrevLogNumber(n))
    ensures TakeBody(TagOf(item), BodyThen(item, rest)) == Taken(item, |Varint(n)|)
  {
    hide Varint, TakeVarint64;
    Varint64RoundTrip(n, rest);
  }

  lemma NameBack(name: Bytes, rest: Bytes)
    requires |name| < TWO_32
    ensures TakeBody(1, BodyThen(Comparator(name), rest)) == Taken(Comparator(name), |Prefixed(name)|)
  {
    hide Prefixed, TakeSlice;
    SliceRoundTrip(name, rest);
  }

  lemma BodyBack(item: Item, rest: Bytes)
    requires Fits(item)
    ensures TakeBody(TagOf(item), BodyThen(item, rest)) == Taken(item, |BodyThen(item, rest)| - |rest|)
  {
    hide Prefixed, Varint, TakeBody;
    match item
    case Comparator(name) => NameBack(name, rest);
    case CompactPointer(level, key) => PointerBack(level, key, rest);
    case DeletedFile(level, n) => DeletedBack(level, n, rest);
    case AddedFile(f) => AddedBack(f, rest);
    case LogNumber(n) => NumberBack(item, n, rest);
    case NextFileNumber(n) => NumberBack(item, n, rest);
    case LastSequence(n) => NumberBack(item, n, rest);
    case PrevLogNumber(n) => NumberBack(item, n, rest);
  }

  lemma AddedBack(f: NewFile, rest: Bytes)
    requires Fits(AddedFile(f))
    ensures TakeBody(7, BodyThen(AddedFile(f), rest)) == Taken(AddedFile(f), |BodyThen(AddedFile(f), rest)| - |rest|)
  {
    hide TakeFile, BodyThen;
    FileBack(f, rest);
  }

  /** Each field is read back as it was written, and no byte of what follows it is touched. */
  lemma ItemBack(item: Item, rest: Bytes)
    requires Fits(item)
    ensures TakeItem(ItemThen(item, rest)) == Taken(item, |ItemThen(item, rest)| - |rest|)
    ensures ItemThen(item, rest)[|ItemThen(item, rest)| - |rest|..] == rest
  {
    hide Varint, TakeVarint32, TakeBody, BodyThen, Fits;
    Varint32RoundTrip(TagOf(item), BodyThen(item, rest));
    DropFront(Varint(TagOf(item)), BodyThen(item, rest));
    BodyBack(item, rest);
    BodyEnds(item, rest);
    hide TagOf;
  }

  lemma BodyEnds(item: Item, rest: Bytes)
    ensures |BodyThen(item, rest)| >= |rest|
    ensures BodyThen(item, rest)[|BodyThen(item, rest)| - |rest|..] == rest
  {
    hide Varint, Prefixed;
  }

  // ---------------------------------------------------------------- the whole record

  /** Fields one after another. */
  function ItemsBytes(items: seq<Item>): Bytes {
    if items == [] then [] else ItemThen(items[0], ItemsBytes(items[1..]))
  }

  function ApplyItem(e: EditRecord, item: Item): EditRecord {
    match item
    case Comparator(name) => e.(comparator := Some(name))
    case LogNumber(n) => e.(log := Some(n))
    case NextFileNumber(n) => e.(next := Some(n))
    case LastSequence(n) => e.(last := Some(n))
    case CompactPointer(level, key) => e.(pointers := e.pointers + [(level, key)])
    case DeletedFile(level, n) => e.(deleted := InsertPair(e.deleted, (level, n)))
    case AddedFile(f) => e.(added := e.added + [f])
    case PrevLogNumber(n) => e.(prevLog := Some(n))
  }

  /** DecodeFrom on what is left, with `e` decoded so far; None is the corruption status. */
  function DecodeRest(e: EditRecord, input: Bytes): Option<EditRecord>
    decreases |input|
  {
    if input == [] then Some(e)
    else
      var t := TakeItem(input);
      if t.Nothing? then None else DecodeRest(ApplyItem(e, t.value), input[t.used..])
  }

  function ApplyItems(e: EditRecord, items: seq<Item>): EditRecord
    decreases |items|
  {
    if items == [] then e else ApplyItems(ApplyItem(e, items[0]), items[1..])
  }

  lemma {:induction false} ItemsBack(e: EditRecord, items: seq<Item>)
    requires forall it | it in items :: Fits(it)
    ensures DecodeRest(e, ItemsBytes(items)) == Some(ApplyItems(e, items))
    decreases |items|
  {
    hide ItemThen, TakeItem, Fits, ApplyItem;
    if items != [] {
      ItemBack(items[0], ItemsBytes(items[1..]));
      ItemsBack(ApplyItem(e, items[0]), items[1..]);
    }
  }

  // ---------------------------------------------------------------- the fields of an edit, in the order written

  function Pointers(ps: seq<(nat, Bytes)>): seq<Item> {
    if ps == [] then [] else Pointers(ps[..|ps| - 1]) + [CompactPointer(ps[|ps| - 1].0, ps[|ps| - 1].1)]
  }

  function Deleted(ds: seq<(nat, nat)>): seq<Item> {
    if ds == [] then [] else Deleted(ds[..|ds| - 1]) + [DeletedFile(ds[|ds| - 1].0, ds[|ds| - 1].1)]
  }

  function Added(fs: seq<NewFile>): seq<Item> {
    if fs == [] then [] else Added(fs[..|fs| - 1]) + [AddedFile(fs[|fs| - 1])]
  }

  function Scalars(e: EditRecord): seq<Item> {
    (if e.comparator.Some? then [Comparator(e.comparator.value)] else [])
    + (if e.log.Some? then [LogNumber(e.log.value)] else [])
    + (if e.prevLog.Some? then [PrevLogNumber(e.prevLog.value)] else [])
    + (if e.next.Some? then [NextFileNumber(e.next.value)] else [])
    + (if e.last.Some? then [LastSequence(e.last.value)] else [])
  }

  function Items(e: EditRecord): seq<Item> {
    Scalars(e) + (Pointers(e.pointers) + (Deleted(e.deleted) + Added(e.added)))
  }

  ghost predicate WellFormed(e: EditRecord) {
    && (e.comparator.Some? ==> |e.comparator.value| < TWO_32)
    && (e.log.Some? ==> e.log.value < TWO_64) && (e.prevLog.Some? ==> e.prevLog.value < TWO_64)
    && (e.next.Some? ==> e.next.value < TWO_64) && (e.last.Some? ==> e.last.value < TWO_64)
    && (forall p | p in e.pointers :: p.0 < Versions.NUM_LEVELS && |p.1| < TWO_32)
    && (forall p | p in e.deleted :: p.0 < Versions.NUM_LEVELS && p.1 < TWO_64)
    && Ascending(e.deleted)
    && (forall f | f in e.added :: Fits(AddedFile(f)))
  }

  lemma {:induction false} ApplyConcat(e: EditRecord, a: seq<Item>, b: seq<Item>)
    ensures ApplyItems(e, a + b) == ApplyItems(ApplyItems(e, a), b)
    decreases |a|
  {
    hide ApplyItem;
    if a == [] {
      assert a + b == b;
    } else {
      assert (a + b)[1..] == a[1..] + b;
      ApplyConcat(ApplyItem(e, a[0]), a[1..], b);
    }
  }

  lemma ApplyOne(e: EditRecord, items: seq<Item>, item: Item)
    ensures ApplyItems(e, items + [item]) == ApplyItem(ApplyItems(e, items), item)
  {
    ApplyConcat(e, items, [item]);
    assert [item][1..] == [];
  }

  lemma {:induction false} PointersBack(e: EditRecord, ps: seq<(nat, Bytes)>)
    ensures ApplyItems(e, Pointers(ps)) == e.(pointers := e.pointers + ps)
    decreases |ps|
  {
    if ps == [] {
      assert e.pointers + [] == e.pointers;
    } else {
      var init, p := ps[..|ps| - 1], ps[|ps| - 1];
      PointersBack(e, init);
      ApplyOne(e, Pointers(init), CompactPointer(p.0, p.1));
      assert (e.pointers + init) + [p] == e.pointers + ps;
    }
  }

  lemma {:induction false} AddedFilesBack(e: EditRecord, fs: seq<NewFile>)
    ensures ApplyItems(e, Added(fs)) == e.(added := e.added + fs)
    decreases |fs|
  {
    if fs == [] {
      assert e.added + [] == e.added;
    } else {
      var init, f := fs[..|fs| - 1], fs[|fs| - 1];
      AddedFilesBack(e, init);
      ApplyOne(e, Added(init), AddedFile(f));
      assert (e.added + init) + [f] == e.added + fs;
    }
  }

  lemma {:induction false} DeletedFilesBack(e: EditRecord, ds: seq<(nat, nat)>)
    requires Ascending(ds) && e.deleted == []
    ensures ApplyItems(e, Deleted(ds)) == e.(deleted := ds)
    decreases |ds|
  {
    if ds != [] {
      var init, p := ds[..|ds| - 1], ds[|ds| - 1];
      DeletedFilesBack(e, init);
      ApplyOne(e, Deleted(init), DeletedFile(p.0, p.1));
      forall q | q in init ensures Less(q, p) {
        var i :| 0 <= i < |init| && init[i] == q;
        assert ds[i] == q;
      }
      InsertLast(init, p);
      assert init + [p] == ds;
    }
  }

  lemma ScalarsBack(e: EditRecord)
    ensures ApplyItems(BLANK_EDIT, Scalars(e)) == EditRecord(e.comparator, e.log, e.prevLog, e.next, e.last, [], [], [])
  {
    var a := if e.comparator.Some? then [Comparator(e.comparator.value)] else [];
    var b := if e.log.Some? then [LogNumber(e.log.value)] else [];
    var c := if e.prevLog.Some? then [PrevLogNumber(e.prevLog.value)] else [];
    var d := if e.next.Some? then [NextFileNumber(e.next.value)] else [];
    var f := if e.last.Some? then [LastSequence(e.last.value)] else [];
    ApplyConcat(BLANK_EDIT, a, b);
    ApplyConcat(BLANK_EDIT, a + b, c);
    ApplyConcat(BLANK_EDIT, a + b + c, d);
    ApplyConcat(BLANK_EDIT, a + b + c + d, f);
    ApplyAtMostOne(BLANK_EDIT, a);
    var e1 := BLANK_EDIT.(comparator := e.comparator);
    ApplyAtMostOne(e1, b);
    var e2 := e1.(log := e.log);
    ApplyAtMostOne(e2, c);
    var e3 := e2.(prevLog := e.prevLog);
    ApplyAtMostOne(e3, d);
    var e4 := e3.(next := e.next);
    ApplyAtMostOne(e4, f);
    hide ApplyItems;
  }

  lemma ApplyAtMostOne(e: EditRecord, items: seq<Item>)
    requires |items| <= 1
    ensures ApplyItems(e, items) == if items == [] then e else ApplyItem(e, items[0])
  {
    if items != [] {
      assert items[1..] == [];
    }
  }

  lemma ItemsFit(e: EditRecord)
    requires WellFormed(e)
    ensures forall it | it in Items(e) :: Fits(it)
  {
    PointersFit(e.pointers);
    DeletedFit(e.deleted);
    AddedFit(e.added);
    hide Ascending;
  }

  lemma {:induction false} PointersFit(ps: seq<(nat, Bytes)>)
    requires forall p | p in ps :: p.0 < Versions.NUM_LEVELS && |p.1| < TWO_32
    ensures forall it | it in Pointers(ps) :: Fits(it)
    decreases |ps|
  {
    if ps != [] {
      PointersFit(ps[..|ps| - 1]);
    }
  }

  lemma {:induction false} DeletedFit(ds: seq<(nat, nat)>)
    requires forall p | p in ds :: p.0 < Versions.NUM_LEVELS && p.1 < TWO_64
    ensures forall it | it in Deleted(ds) :: Fits(it)
    decreases |ds|
  {
    if ds != [] {
      DeletedFit(ds[..|ds| - 1]);
    }
  }

  lemma {:induction false} AddedFit(fs: seq<NewFile>)
    requires forall f | f in fs :: Fits(AddedFile(f))
    ensures forall it | it in Added(fs) :: Fits(it)
    decreases |fs|
  {
    if fs != [] {
      AddedFit(fs[..|fs| - 1]);
    }
  }

  lemma ItemsAreTheEdit(e: EditRecord)
    requires Ascending(e.deleted)
    ensures ApplyItems(BLANK_EDIT, Items(e)) == e
  {
    hide ApplyItems, Scalars, Pointers, Deleted, Added;
    var s, p, d, a := Scalars(e), Pointers(e.pointers), Deleted(e.deleted), Added(e.added);
    ApplyConcat(BLANK_EDIT, s, p + (d + a));
    ScalarsBack(e);
    var e1 := EditRecord(e.comparator, e.log, e.prevLog, e.next, e.last, [], [], []);
    ApplyConcat(e1, p, d + a);
    PointersBack(e1, e.pointers);
    assert e1.pointers + e.pointers == e.pointers;
    var e2 := e1.(pointers := e.pointers);
    ApplyConcat(e2, d, a);
    DeletedFilesBack(e2, e.deleted);
    var e3 := e2.(deleted := e.deleted);
    AddedFilesBack(e3, e.added);
    assert e3.added + e.added == e.added;
  }

  /** An edit that fits the widths of its fields survives being written and read. */
  lemma EditRoundTrip(e: EditRecord)
    requires WellFormed(e)
    ensures DecodeRest(BLANK_EDIT, ItemsBytes(Items(e))) == Some(e)
  {
    ItemsFit(e);
    ItemsAreTheEdit(e);
    ItemsBack(BLANK_EDIT, Items(e));
  }

  // ---------------------------------------------------------------- the code

  lemma {:induction false} ItemsBytesConcat(a: seq<Item>, b: seq<Item>)
    ensures ItemsBytes(a + b) == ItemsBytes(a) + ItemsBytes(b)
    decreases |a|
  {
    if a == [] {
      assert a + b == b;
    } else {
      assert (a + b)[1..] == a[1..] + b;
      ItemsBytesConcat(a[1..], b);
      ItemThenConcat(a[0], ItemsBytes(a[1..]), ItemsBytes(b));
    }
  }

  lemma ItemThenConcat(item: Item, x: Bytes, y: Bytes)
    ensures ItemThen(item, x + y) == ItemThen(item, x) + y
  {
    BodyThenConcat(item, x, y);
    hide BodyThen, Varint;
    Regroup(Varint(TagOf(item)), BodyThen(item, x), y);
  }

  lemma BodyThenConcat(item: Item, x: Bytes, y: Bytes)
    ensures BodyThen(item, x + y) == BodyThen(item, x) + y
  {
    hide Varint, Prefixed;
    match item
    case Comparator(name) => Regroup(Prefixed(name), x, y);
    case CompactPointer(level, key) =>
      Regroup(Prefixed(key), x, y);
      Regroup(Varint(level), Prefixed(key) + x, y);
    case DeletedFile(level, n) =>
      Regroup(Varint(n), x, y);
      Regroup(Varint(level), Varint(n) + x, y);
    case AddedFile(f) =>
      var k := Prefixed(f.largest) + x;
      Regroup(Prefixed(f.largest), x, y);
      Regroup(Prefixed(f.smallest), k, y);
      Regroup(Varint(f.size), Prefixed(f.smallest) + k, y);
      Regroup(Varint(f.number), Varint(f.size) + (Prefixed(f.smallest) + k), y);
      Regroup(Varint(f.level), Varint(f.number) + (Varint(f.size) + (Prefixed(f.smallest) + k)), y);
    case LogNumber(n) => Regroup(Varint(n), x, y);
    case NextFileNumber(n) => Regroup(Varint(n), x, y);
    case LastSequence(n) => Regroup(Varint(n), x, y);
    case PrevLogNumber(n) => Regroup(Varint(n), x, y);
  }

  /** One PutVarint32 for the tag, and the payload after it. */
  method PutItem(dst: Bytes, item: Item) returns (out: Bytes)
    ensures out == dst + ItemsBytes([item])
  {
    assert [item][1..] == [];
    out := dst + ItemThen(item, []);
  }

  /** A field that is there is put behind those before it. */
  method PutIf(start: Bytes, ghost items: seq<Item>, present: bool, item: Item) returns (dst: Bytes)
    requires start == ItemsBytes(items)
    ensures dst == ItemsBytes(items + if present then [item] else [])
  {
    hide ItemsBytes;
    dst := start;
    if present {
      dst := PutItem(dst, item);
      OneItem(items, item);
    } else {
      assert items + [] == items;
    }
  }

  /** VersionEdit::EncodeTo */
  method EncodeTo(e: EditRecord) returns (dst: Bytes)
    ensures dst == ItemsBytes(Items(e))
  {
    hide ItemsBytes, Scalars, Pointers, Deleted, Added;
    dst := PutScalars(e);
    dst := PutLists(e, dst);
    ItemsBytesConcat(Scalars(e), Pointers(e.pointers) + (Deleted(e.deleted) + Added(e.added)));
  }

  /** The fields that an edit has at most once. */
  method PutScalars(e: EditRecord) returns (dst: Bytes)
    ensures dst == ItemsBytes(Scalars(e))
  {
    hide ItemsBytes;
    NoItems();
    ghost var a := if e.comparator.Some? then [Comparator(e.comparator.value)] else [];
    ghost var b := a + if e.log.Some? then [LogNumber(e.log.value)] else [];
    ghost var c := b + if e.prevLog.Some? then [PrevLogNumber(e.prevLog.value)] else [];
    ghost var d := c + if e.next.Some? then [NextFileNumber(e.next.value)] else [];
    dst := PutIf([], [], e.comparator.Some?, Comparator(if e.comparator.Some? then e.comparator.value else []));
    assert [] + a == a;
    dst := PutIf(dst, a, e.log.Some?, LogNumber(if e.log.Some? then e.log.value else 0));
    dst := PutIf(dst, b, e.prevLog.Some?, PrevLogNumber(if e.prevLog.Some? then e.prevLog.value else 0));
    dst := PutIf(dst, c, e.next.Some?, NextFileNumber(if e.next.Some? then e.next.value else 0));
    dst := PutIf(dst, d, e.last.Some?, LastSequence(if e.last.Some? then e.last.value else 0));
  }

  /** The three lists of an edit. */
  method PutLists(e: EditRecord, start: Bytes) returns (dst: Bytes)
    ensures dst == start + ItemsBytes(Pointers(e.pointers) + (Deleted(e.deleted) + Added(e.added)))
  {
    hide ItemsBytes;
    NoItems();
    dst := start;
    for i := 0 to |e.pointers|
      invariant dst == start + ItemsBytes(Pointers(e.pointers[..i]))
    {
      var item := CompactPointer(e.pointers[i].0, e.pointers[i].1);
      assert e.pointers[..i + 1][..i] == e.pointers[..i];
      ItemsBytesConcat(Pointers(e.pointers[..i]), [item]);
      Regroup(start, ItemsBytes(Pointers(e.pointers[..i])), ItemsBytes([item]));
      dst := PutItem(dst, item);
    }
    assert e.pointers[..|e.pointers|] == e.pointers;
    var second := dst;
    for i := 0 to |e.deleted|
      invariant dst == second + ItemsBytes(Deleted(e.deleted[..i]))
    {
      var item := DeletedFile(e.deleted[i].0, e.deleted[i].1);
      assert e.deleted[..i + 1][..i] == e.deleted[..i];
      ItemsBytesConcat(Deleted(e.deleted[..i]), [item]);
      Regroup(second, ItemsBytes(Deleted(e.deleted[..i])), ItemsBytes([item]));
      dst := PutItem(dst, item);
    }
    assert e.deleted[..|e.deleted|] == e.deleted;
    var third := dst;
    for i := 0 to |e.added|
      invariant dst == third + ItemsBytes(Added(e.added[..i]))
    {
      var item := AddedFile(e.added[i]);
      assert e.added[..i + 1][..i] == e.added[..i];
      ItemsBytesConcat(Added(e.added[..i]), [item]);
      Regroup(third, ItemsBytes(Added(e.added[..i])), ItemsBytes([item]));
      dst := PutItem(dst, item);
    }
    assert e.added[..|e.added|] == e.added;
    ItemsBytesConcat(Deleted(e.deleted), Added(e.added));
    ItemsBytesConcat(Pointers(e.pointers), Deleted(e.deleted) + Added(e.added));
    Regroup(second, ItemsBytes(Deleted(e.deleted)), ItemsBytes(Added(e.added)));
    Regroup(start, ItemsBytes(Pointers(e.pointers)), ItemsBytes(Deleted(e.deleted) + Added(e.added)));
  }

  lemma NoItems()
    ensures ItemsBytes([]) == []
    ensures forall x: Bytes :: x + [] == x
  {
  }

  lemma OneItem(items: seq<Item>, item: Item)
    ensures ItemsBytes(items + [item]) == ItemsBytes(items) + ItemsBytes([item])
  {
    ItemsBytesConcat(items, [item]);
  }

  /** VersionEdit::DecodeFrom, whose fields were cleared; `ok` is false for a corruption status. */
  method DecodeFrom(src: Bytes) returns (ok: bool, e: EditRecord)
    ensures ok <==> DecodeRest(BLANK_EDIT, src).Some?
    ensures ok ==> DecodeRest(BLANK_EDIT, src) == Some(e)
  {
    hide TakeItem, ApplyItem;
    var input := src;
    e := BLANK_EDIT;
    while input != []
      invariant DecodeRest(BLANK_EDIT, src) == DecodeRest(e, input)
      decreases |input|
    {
      var t := TakeItem(input);
      if t.Nothing? {
        return false, e;
      }
      e := ApplyItem(e, t.value);
      input := input[t.used..];
    }
    ok := true;
  }
}
