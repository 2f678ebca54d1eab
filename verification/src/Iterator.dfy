/** The cursor contract of include/leveldb/iterator.h over one sorted run of internal entries. */
module Iterators {
  import opened Keys
  import opened Versions

  /** A position in one sorted run, at least |entries| when off either end. */
  class InternalIterator {
    const entries: seq<Entry>
    var pos: nat

    constructor (entries: seq<Entry>)
      ensures this.entries == entries && !Valid()
    {
      this.entries := entries;
      pos := |entries|;
    }

    predicate Valid()
      reads this
    {
      pos < |entries|
    }

    method Next()
      requires Valid()
      modifies this
      ensures pos == old(pos) + 1
    {
      pos := pos + 1;
    }

    method Prev()
      requires Valid()
      modifies this
      ensures pos == if old(pos) == 0 then |entries| else old(pos) - 1
    {
      pos := if pos == 0 then |entries| else pos - 1;
    }

    function Key(): InternalKey
      requires Valid()
      reads this
    {
      entries[pos].key
    }

    method SeekToFirst()
      modifies this
      ensures pos == 0
    {
      pos := 0;
    }

    method SeekToLast()
      modifies this
      ensures pos == if |entries| == 0 then 0 else |entries| - 1
    {
      pos := if |entries| == 0 then 0 else |entries| - 1;
    }

    method Seek(target: InternalKey)
      modifies this
      ensures pos == SeekIndex(entries, target)
    {
      pos := SeekIndex(entries, target);
    }
  }

  /** Seek divides a sorted run at the target. */
  lemma SeekDivides(entries: seq<Entry>, target: InternalKey)
    requires Sorted(entries)
    ensures forall k :: 0 <= k < |entries| ==> (Less(entries[k].key, target) <==> k < SeekIndex(entries, target))
  {}
}
