/**
  The wrapper that a merge puts round each of its children (table/iterator_wrapper.h): it remembers whether the
  iterator below is valid, and its key.  Below is a memtable's or a table's own iterator, or the two-level
  iterator over the files of a level.
*/
module IteratorWrappers {
  import opened InternalKeys
  import opened Cursors
  import opened TwoLevelIterators

  datatype Source = Listed(list: InternalIterator) | Filed(files: TwoLevelIterator<nat>)

  class IteratorWrapper {
    const iter: Source
    var valid: bool
    var key: Option<InternalKey>

    ghost const entries: seq<Entry>   // what the iterator walks
    ghost var pos: nat
    ghost var Repr: set<object>

    ghost predicate Below()
      reads this, Repr
    {
      match iter
      case Listed(list) =>
        && Repr == {this, list}
        && list.entries == entries && list.pos == pos
      case Filed(files) =>
        && {this, files, files.index} <= Repr && Repr <= {this, files, files.index, files.data}
        && (files.data != null ==> files.data in Repr)
        && files.Inv() && files.Whole() == entries && files.at == pos
    }

    ghost predicate Inv()
      reads this, Repr
    {
      && this in Repr && Below() && pos <= |entries|
      && (valid <==> pos < |entries|)
      && (valid ==> key == Some(entries[pos].key))
    }

    constructor OverList(list: InternalIterator)
      requires list.pos == |list.entries|
      ensures Inv() && entries == list.entries && pos == |entries| && Repr == {this, list}
    {
      iter, valid, key := Listed(list), false, None;
      entries, pos, Repr := list.entries, |list.entries|, {this, list};
    }

    constructor OverFiles(files: TwoLevelIterator<nat>)
      requires files.Inv() && files.data == null && files.at == |files.Whole()|
      ensures Inv() && entries == files.Whole() && pos == |entries| && Repr == {this, files, files.index}
    {
      iter, valid, key := Filed(files), false, None;
      entries, pos, Repr := files.Whole(), |files.Whole()|, {this, files, files.index};
    }

    function Current(): (e: Entry)
      requires Inv() && valid
      reads this, Repr
      ensures e == entries[pos]
    {
      match iter
      case Listed(list) => list.entries[list.pos]
      case Filed(files) => files.Current()
    }

    method Seek(target: InternalKey)
      requires Inv()
      modifies Repr
      ensures Inv() && fresh(Repr - old(Repr)) && pos == LowerBound(entries, target)
    {
      match iter {
        case Listed(list) => list.Seek(target);
        case Filed(files) => files.Seek(target);
      }
      Update();
    }

    method SeekToFirst()
      requires Inv()
      modifies Repr
      ensures Inv() && fresh(Repr - old(Repr)) && pos == 0
    {
      match iter {
        case Listed(list) => list.SeekToFirst();
        case Filed(files) => files.SeekToFirst();
      }
      Update();
    }

    method SeekToLast()
      requires Inv()
      modifies Repr
      ensures Inv() && fresh(Repr - old(Repr)) && pos == Last(|entries|)
    {
      match iter {
        case Listed(list) => list.SeekToLast();
        case Filed(files) => files.SeekToLast();
      }
      Update();
    }

    method Next()
      requires Inv() && valid
      modifies Repr
      ensures Inv() && fresh(Repr - old(Repr)) && pos == Forward(old(pos))
    {
      match iter {
        case Listed(list) => list.Next();
        case Filed(files) => files.Next();
      }
      Update();
    }

    method Prev()
      requires Inv() && valid
      modifies Repr
      ensures Inv() && fresh(Repr - old(Repr)) && pos == Backward(|entries|, old(pos))
    {
      match iter {
        case Listed(list) => list.Prev();
        case Filed(files) => files.Prev();
      }
      Update();
    }

    /** What the iterator below must be like after a step, for the cache to be filled again. */
    ghost predicate Stepped()
      reads this, if iter.Listed? then {iter.list} else {iter.files, iter.files.index} + (if iter.files.data == null then {} else {iter.files.data})
    {
      match iter
      case Listed(list) => list.entries == entries && list.pos <= |entries|
      case Filed(files) => files.Inv() && files.Whole() == entries
    }

    method Update()
      requires Stepped()
      modifies this`valid, this`key, this`pos, this`Repr
      ensures Inv()
      ensures Repr == match iter case Listed(list) => {this, list}
                                 case Filed(files) => {this, files, files.index} + if files.data == null then {} else {files.data}
      ensures pos == match iter case Listed(list) => list.pos case Filed(files) => files.at
    {
      match iter {
        case Listed(list) =>
          valid := list.Valid();
          if valid {
            key := Some(list.entries[list.pos].key);
          }
          pos, Repr := list.pos, {this, list};
        case Filed(files) =>
          valid := files.Valid();
          if valid {
            key := Some(files.Current().key);
          }
          pos, Repr := files.at, {this, files, files.index} + if files.data == null then {} else {files.data};
      }
    }
  }
}
