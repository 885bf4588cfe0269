/**
  One file, in both its forms: the sorted entries that Versions searches, with user keys named by their place
  in the order, and the bytes of the table file that holds them (BuildTable in db/builder.cc, TableCache::Get
  in db/table_cache.cc, SaveValue in db/version_set.cc).
*/
module TableReads {
  import opened InternalKeys
  import opened Comparators
  import opened KeyEncodings
  import opened BlockIters
  import opened Filters
  import opened FilterBlocks
  import opened Tables
  import opened TableFiles
  import opened TableWriting
  import Versions

  // ---------------------------------------------------------------- byte strings as places in the order

  function Digit(b: Byte): (r: real)
    ensures 1.0 <= r <= 256.0
  {
    b as real + 1.0
  }

  /** A byte string as a fraction in base 257, no digit being zero. */
  function Place(b: Bytes): (r: UserKey)
    ensures 0.0 <= r < 1.0
    ensures b == [] || r > 0.0
  {
    if b == [] then 0.0 else (Digit(b[0]) + Place(b[1..])) / 257.0
  }

  /** Fractions are ordered as the bytewise comparator orders the strings. */
  lemma {:induction false} PlaceIncreases(a: Bytes, b: Bytes)
    requires Lex(a, b)
    ensures Place(a) < Place(b)
    decreases |a|
  {
    if a != [] {
      var p, q := Place(a[1..]), Place(b[1..]);
      if a[0] < b[0] {
        assert Digit(a[0]) + 1.0 <= Digit(b[0]);
        Divided(Digit(a[0]) + p, Digit(b[0]) + q);
      } else {
        PlaceIncreases(a[1..], b[1..]);
        Divided(Digit(a[0]) + p, Digit(b[0]) + q);
      }
    }
  }

  lemma Divided(x: real, y: real)
    requires x < y
    ensures x / 257.0 < y / 257.0
  {
  }

  lemma PlaceOrder(a: Bytes, b: Bytes)
    ensures Place(a) < Place(b) <==> Lex(a, b)
    ensures Place(a) == Place(b) <==> a == b
  {
    LexTotal(a, b);
    hide Place, Lex;
    if Lex(a, b) {
      PlaceIncreases(a, b);
    } else if Lex(b, a) {
      PlaceIncreases(b, a);
    }
  }

  // ---------------------------------------------------------------- a table and the entries it holds

  /** ParseInternalKey takes no other types. */
  predicate Tagged(k: Key) {
    k.tag % 256 <= 1
  }

  function EntryOf(x: Item): Entry {
    Entry(InternalKey(Place(x.key.user), x.key.tag / 256, if x.key.tag % 256 == 1 then TypeValue else TypeDeletion), x.value)
  }

  /** The table holds these entries and no others. */
  ghost predicate Represents(t: Table, es: seq<Entry>) {
    && (forall x | x in Held(t.blocks) :: Tagged(x.key) && EntryOf(x) in es)
    && (forall e | e in es :: exists x :: x in Held(t.blocks) && EntryOf(x) == e)
  }

  /** PackSequenceAndType with kValueTypeForSeek. */
  function LookupTag(s: nat): nat {
    s * 256 + 1
  }

  lemma TagBound(tag: nat, s: nat)
    requires tag % 256 <= 1
    ensures tag <= LookupTag(s) <==> tag / 256 <= s
  {
  }

  lemma TagOfEntry(x: Item, y: Item)
    requires Tagged(x.key) && Tagged(y.key)
    ensures EntryOf(x).key.sequence < EntryOf(y).key.sequence ==> x.key.tag < y.key.tag
    ensures x.key.tag <= y.key.tag ==> EntryOf(x).key.sequence <= EntryOf(y).key.sequence
    ensures EntryOf(x) == EntryOf(y) ==> x.key.tag == y.key.tag
  {
    assert x.key.tag == 256 * (x.key.tag / 256) + x.key.tag % 256;
    assert y.key.tag == 256 * (y.key.tag / 256) + y.key.tag % 256;
  }

  /** The table's answer is the newest entry. */
  lemma AnswerIsNewest(t: Table, es: seq<Entry>, user: Bytes, s: nat, x: Item)
    requires Represents(t, es) && Unique(ToSet(es)) && IsAnswer(t, Key(user, LookupTag(s)), x)
    ensures IsNewest(ToSet(es), Place(user), s, EntryOf(x))
  {
    var k, e := Key(user, LookupTag(s)), EntryOf(x);
    TagBound(x.key.tag, s);
    forall n | n in ToSet(es) && Matches(n, Place(user), s) && n != e ensures n.key.sequence < e.key.sequence {
      var y :| y in Held(t.blocks) && EntryOf(y) == n;
      PlaceOrder(y.key.user, user);
      TagBound(y.key.tag, s);
      TagOfEntry(y, x);
      assert SameUserKey(n, e);
    }
  }

  lemma NewestIsAnswer(t: Table, es: seq<Entry>, user: Bytes, s: nat, e: Entry) returns (x: Item)
    requires Represents(t, es) && IsNewest(ToSet(es), Place(user), s, e)
    ensures EntryOf(x) == e && IsAnswer(t, Key(user, LookupTag(s)), x)
  {
    var k := Key(user, LookupTag(s));
    x :| x in Held(t.blocks) && EntryOf(x) == e;
    PlaceOrder(x.key.user, user);
    TagBound(x.key.tag, s);
    forall y | y in Held(t.blocks) && y.key.user == user && y.key.tag <= k.tag ensures y.key.tag <= x.key.tag {
      TagBound(y.key.tag, s);
      TagOfEntry(x, y);
      TagOfEntry(y, x);
      assert EntryOf(y) in ToSet(es) && Matches(EntryOf(y), Place(user), s);
    }
  }

  /** Where the lookup leads, if it is kept, is what the search of the entries finds. */
  lemma LookupIsSeekGet(t: Table, es: seq<Entry>, user: Bytes, s: nat)
    requires TableOk(t) && Represents(t, es) && Sorted(es) && Unique(ToSet(es))
    ensures |t.index| == |t.blocks| && SeekGet(es, Place(user), s) == Kept(Lookup(t, Key(user, LookupTag(s))), user)
  {
    var k := Key(user, LookupTag(s));
    SeekGetIsNewest(es, Place(user), s);
    NewestExists(ToSet(es), Place(user), s);
    LookupIsAnswer(t, k);
    var found, n := Lookup(t, k), Newest(ToSet(es), Place(user), s);
    hide TableOk, Represents, Sorted, Unique, IsAnswer, SeekGet, ToSet, Place, Lookup, Newest;
    if n.Some? {
      var x := NewestIsAnswer(t, es, user, s, n.value);
    }
    if found.Some? && found.value.key.user == user {
      AnswerIsNewest(t, es, user, s, found.value);
      NewestIs(ToSet(es), Place(user), s, EntryOf(found.value));
    } else {
      NoAnswerElsewhere(t, user, s, found);
    }
  }

  /** SaveValue: what is found under another user key is not kept. */
  function Kept(found: Option<Item>, user: Bytes): Option<Entry> {
    if found.Some? && found.value.key.user == user then Some(EntryOf(found.value)) else None
  }

  lemma ServedRepresents(table: OpenTable, t: Table, es: seq<Entry>)
    requires Represents(t, es)
    ensures Represents(Served(table, t), es)
  {
  }

  /** The search of an open table, and SaveValue. */
  method Get(table: OpenTable, user: Bytes, s: nat, verify: bool, ghost w: Origin, ghost es: seq<Entry>) returns (r: Option<Entry>)
    requires Opened(table, w) && (table.filter.Some? ==> ReaderOk(table.filter.value)) && s <= MAX_SEQUENCE
    requires Represents(w.t, es) && Sorted(es) && Unique(ToSet(es))
    ensures r == SeekGet(es, Place(user), s)
  {
    hide TableOk, IsTableFile, OpenFilterBlock, Represents, Sorted, Unique, IsAnswer, SeekGet, ToSet, Place, Lookup, ReaderOk;
    ServedOk(table, w.t);
    ServedRepresents(table, w.t, es);
    LookupIsSeekGet(Served(table, w.t), es, user, s);
    var found := GetFrom(table, Key(user, LookupTag(s)), verify, Some(w));
    r := Kept(found, user);
  }

  /** TableCache::Get: the file is opened, for whatever filter policy, and searched. */
  method OpenAndGet(file: Bytes, policy: Option<Bytes>, paranoid: bool, verify: bool, user: Bytes, s: nat, ghost w: Origin, ghost es: seq<Entry>)
    returns (r: Option<Entry>)
    requires IsTableFile(file, w.name, w.t, w.p) && TableOk(w.t) && s <= MAX_SEQUENCE
    requires Represents(w.t, es) && Sorted(es) && Unique(ToSet(es))
    ensures r == SeekGet(es, Place(user), s)
  {
    hide TableOk, IsTableFile, OpenFilterBlock, Represents, Sorted, Unique, SeekGet, ToSet, Place, ReaderOk, Opened;
    var table := OpenFile(file, policy, paranoid, Some(w));
    r := Get(table.value, user, s, verify, w, es);
  }

  lemma NoAnswerElsewhere(t: Table, user: Bytes, s: nat, found: Option<Item>)
    requires forall x | IsAnswer(t, Key(user, LookupTag(s)), x) :: found == Some(x)
    requires found.Some? ==> found.value.key.user != user
    ensures forall x :: !IsAnswer(t, Key(user, LookupTag(s)), x)
  {
  }

  // ---------------------------------------------------------------- from entries to a table and back

  function EntriesOf(items: seq<Item>): seq<Entry> {
    seq(|items|, i requires 0 <= i < |items| => EntryOf(items[i]))
  }

  lemma EarlierEntry(x: Item, y: Item)
    requires Tagged(x.key) && Tagged(y.key) && KeyLess(x.key, y.key)
    ensures Before(EntryOf(x).key, EntryOf(y).key)
  {
    hide Place, Lex;
    PlaceOrder(x.key.user, y.key.user);
    assert x.key.tag == 256 * (x.key.tag / 256) + x.key.tag % 256;
    assert y.key.tag == 256 * (y.key.tag / 256) + y.key.tag % 256;
  }

  lemma EntriesSorted(items: seq<Item>)
    requires Ascending(items) && forall x | x in items :: Tagged(x.key)
    ensures Sorted(EntriesOf(items))
  {
    forall i, j | 0 <= i < j < |items| ensures Before(EntriesOf(items)[i].key, EntriesOf(items)[j].key) {
      EarlierEntry(items[i], items[j]);
    }
  }

  /** More than the items of a table take in its index. */
  function ItemsSize(items: seq<Item>): nat {
    if items == [] then 0
    else
      var x := items[|items| - 1];
      ItemsSize(items[..|items| - 1]) + |x.key.user| + |x.value| + 64
  }

  lemma ItemsSizeNext(items: seq<Item>, i: nat)
    requires i < |items|
    ensures ItemsSize(items[..i + 1]) == ItemsSize(items[..i]) + |items[i].key.user| + |items[i].value| + 64
  {
    assert items[..i + 1][..i] == items[..i];
  }

  lemma {:induction false} ItemsSizeGrows(items: seq<Item>, i: nat)
    requires i <= |items|
    ensures 64 * i <= ItemsSize(items[..i]) <= ItemsSize(items)
    decreases |items|
  {
    if i < |items| {
      ItemsSizeGrows(items[..|items| - 1], i);
      assert items[..|items| - 1][..i] == items[..i];
    } else {
      assert items[..i] == items;
      if i > 0 {
        ItemsSizeGrows(items[..i - 1], i - 1);
        assert items[..i - 1][..i - 1] == items[..i - 1];
      }
    }
  }

  /** Filters of so many keys have offsets below 32 bits. */
  lemma FewKeysFit(filters: seq<Option<Filter>>, n: nat, perKey: nat)
    requires FiltersFit(filters) && Weight(filters) <= n * (perKey + 79) && n <= 0x80_0000 && perKey <= 4000
    ensures BlockFits(filters)
  {
    DataWeight(filters);
    hide FilterData, Weight, FiltersFit;
    Bounded(n, perKey + 79, 4079);
  }

  lemma Bounded(n: nat, a: nat, b: nat)
    requires a <= b
    ensures n * a <= n * b
  {
    assert n * b == n * a + n * (b - a);
  }

  /** The items of a memtable or a merge, in order, as a table in half a gigabyte at most. */
  ghost predicate Buildable(items: seq<Item>) {
    && Ascending(items)
    && (forall x | x in items :: Tagged(x.key) && KeyFits(x.key))
    && ItemsSize(items) <= LENGTH_LIMIT
  }

  /**
    BuildTable: no file comes of no items; otherwise the file holds them and no others, and its metadata are the
    file that Versions knows.
  */
  method BuildTable(items: seq<Item>, number: nat, filter: FilterBlockBuilder?, blockSize: nat, interval: nat, name: Bytes)
    returns (file: Option<Bytes>, meta: Option<Versions.FileMetaData>, ghost w: Origin)
    requires Buildable(items) && interval >= 1 && blockSize <= LENGTH_LIMIT && |name| <= LENGTH_LIMIT
    requires filter != null ==> filter.Valid() && filter.keys == [] && filter.promised == [] && filter.counted == 0 && filter.bitsPerKey <= 4000
    modifies filter
    ensures items == [] ==> file == None && meta == None
    ensures items != [] ==>
              && file.Some? && IsTableFile(file.value, name, w.t, w.p) && w.name == name && TableOk(w.t) && Represents(w.t, EntriesOf(items))
              && (w.t.filters.Some? <==> filter != null)
              && meta.Some? && meta.value.Valid() && meta.value.entries == EntriesOf(items)
              && meta.value.number == number && meta.value.fileSize == |file.value|
  {
    if items == [] {
      w := Origin([], Table([], [], None), Parts([], [], [], Content([], [], [], []), [], Content([], [], [], [])));
      return None, None, w;
    }
    var bytes: Bytes;
    bytes, w := WriteItems(items, filter, blockSize, interval, name);
    file := Some(bytes);
    MetaValid(items, number, |bytes|);
    meta := Some(Versions.FileMetaData(number, |bytes|, EntryOf(items[0]).key, EntryOf(items[|items| - 1]).key, EntriesOf(items)));
  }

  lemma MetaValid(items: seq<Item>, number: nat, size: nat)
    requires Buildable(items) && items != []
    ensures Versions.FileMetaData(number, size, EntryOf(items[0]).key, EntryOf(items[|items| - 1]).key, EntriesOf(items)).Valid()
  {
    EntriesSorted(items);
    forall e | e in EntriesOf(items) ensures e.key.sequence <= MAX_SEQUENCE {
      var i :| 0 <= i < |items| && EntriesOf(items)[i] == e;
      assert items[i] in items;
    }
    hide Sorted, Place, Ascending;
  }

  method WriteItems(items: seq<Item>, filter: FilterBlockBuilder?, blockSize: nat, interval: nat, name: Bytes)
    returns (file: Bytes, ghost w: Origin)
    requires Buildable(items) && interval >= 1 && blockSize <= LENGTH_LIMIT && |name| <= LENGTH_LIMIT
    requires filter != null ==> filter.Valid() && filter.keys == [] && filter.promised == [] && filter.counted == 0 && filter.bitsPerKey <= 4000
    modifies filter
    ensures IsTableFile(file, name, w.t, w.p) && w.name == name && TableOk(w.t) && Represents(w.t, EntriesOf(items))
    ensures w.t.filters.Some? <==> filter != null
  {
    hide TableWriter.Valid, FilterBlockBuilder.Valid, TableOk, IsTableFile, Represents, Added, Held, KeyLess, Place, ItemsSize, BlockFits;
    var writer := new TableWriter(filter, blockSize, interval, name);
    assert Added(writer.core.blocks, writer.core.data) == {} by { NothingHeld(); }
    for i := 0 to |items|
      invariant fresh(writer) && fresh(writer.core) && fresh(writer.dataBlock) && fresh(writer.indexBlock)
      invariant writer.core.filter == filter && writer.name == name && writer.Valid()
      invariant Added(writer.core.blocks, writer.core.data) == set x | x in items[..i]
      invariant if i == 0 then writer.core.blocks == [] && writer.core.data == [] else writer.core.lastKey == items[i - 1].key
      invariant |writer.indexBlock.buffer| + |writer.core.lastKey.user| <= ItemsSize(items[..i])
      invariant |writer.file| <= i * 16 * LENGTH_LIMIT
      invariant filter != null ==> filter.counted + |filter.keys| == i
    {
      NextItem(items, i);
      writer.Add(items[i].key, items[i].value);
    }
    ItemsSizeGrows(items, |items|);
    assert items[..|items|] == items;
    var t;
    ghost var p;
    t, p := writer.Finish();
    if filter != null {
      FewKeysFit(t.filters.value, |items|, filter.bitsPerKey);
    }
    file := writer.file;
    w := Origin(name, t, p);
    HeldRepresents(t, items);
  }

  lemma NextItem(items: seq<Item>, i: nat)
    requires Buildable(items) && i < |items|
    ensures Tagged(items[i].key) && KeyFits(items[i].key) && |items[i].key.user| + |items[i].value| <= LENGTH_LIMIT
    ensures i > 0 ==> KeyLess(items[i - 1].key, items[i].key)
    ensures ItemsSize(items[..i + 1]) == ItemsSize(items[..i]) + |items[i].key.user| + |items[i].value| + 64
    ensures ItemsSize(items[..i]) <= LENGTH_LIMIT && 64 * i <= LENGTH_LIMIT
    ensures items[..i + 1] == items[..i] + [items[i]]
  {
    hide KeyLess;
    assert items[i] in items;
    ItemsSizeNext(items, i);
    ItemsSizeGrows(items, i);
    ItemsSizeGrows(items, i + 1);
    assert items[..i + 1] == items[..i] + [items[i]];
  }

  lemma NothingHeld()
    ensures Added([], []) == {}
  {
  }

  lemma HeldRepresents(t: Table, items: seq<Item>)
    requires Held(t.blocks) == (set x | x in items) && forall x | x in items :: Tagged(x.key)
    ensures Represents(t, EntriesOf(items))
  {
    var es := EntriesOf(items);
    forall x | x in Held(t.blocks) ensures EntryOf(x) in es {
      var i :| 0 <= i < |items| && items[i] == x;
      assert es[i] == EntryOf(x);
    }
    forall e | e in es ensures exists x :: x in Held(t.blocks) && EntryOf(x) == e {
      var i :| 0 <= i < |es| && es[i] == e;
      assert items[i] in Held(t.blocks) && EntryOf(items[i]) == e;
    }
  }
}
