/** table/two_level_iterator.cc: one cursor over the blocks an index points to, empty ones skipped. */
module TwoLevel {
  import opened Bytes
  import opened Keys
  import opened Versions
  import opened Iterators

  function Flat(runs: seq<seq<Entry>>): seq<Entry> {
    if runs == [] then [] else runs[0] + Flat(runs[1..])
  }

  /** The number of entries in the first `i` runs. */
  function Start(runs: seq<seq<Entry>>, i: nat): nat
    requires i <= |runs|
  {
    if i == 0 then 0 else |runs[0]| + Start(runs[1..], i - 1)
  }

  lemma {:induction false} StartNext(runs: seq<seq<Entry>>, i: nat)
    requires i < |runs|
    ensures Start(runs, i + 1) == Start(runs, i) + |runs[i]|
  {
    if i > 0 {
      StartNext(runs[1..], i - 1);
    }
  }

  lemma {:induction false} StartOfAll(runs: seq<seq<Entry>>)
    ensures Start(runs, |runs|) == |Flat(runs)|
  {
    if runs != [] {
      StartOfAll(runs[1..]);
    }
  }

  lemma {:induction false} FlatAt(runs: seq<seq<Entry>>, i: nat, k: nat)
    requires i < |runs| && k < |runs[i]|
    ensures Start(runs, i) + k < |Flat(runs)| && Flat(runs)[Start(runs, i) + k] == runs[i][k]
  {
    if i > 0 {
      FlatAt(runs[1..], i - 1, k);
    }
  }

  lemma {:induction false} FlatFrom(runs: seq<seq<Entry>>, n: nat) returns (i: nat, k: nat)
    requires n < |Flat(runs)|
    ensures i < |runs| && k < |runs[i]| && n == Start(runs, i) + k
  {
    if n < |runs[0]| {
      i, k := 0, n;
    } else {
      i, k := FlatFrom(runs[1..], n - |runs[0]|);
      i := i + 1;
    }
  }

  lemma {:induction false} StartGrows(runs: seq<seq<Entry>>, i: nat, j: nat)
    requires i <= j <= |runs|
    ensures Start(runs, i) <= Start(runs, j)
    decreases j
  {
    if i < j {
      StartGrows(runs, i, j - 1);
      StartNext(runs, j - 1);
    }
  }

  /** Index key `i` is at or after every entry of run `i` and before every entry of later runs. */
  ghost predicate Indexes(index: seq<Entry>, runs: seq<seq<Entry>>) {
    && |index| == |runs|
    && (forall i, k :: 0 <= i < |runs| && 0 <= k < |runs[i]| ==> !Less(index[i].key, runs[i][k].key))
    && forall i, j, k :: 0 <= i < j < |runs| && 0 <= k < |runs[j]| ==> Less(index[i].key, runs[j][k].key)
  }

  lemma LessOrNot(a: InternalKey, b: InternalKey, c: InternalKey)
    ensures !Less(b, a) && Less(b, c) ==> Less(a, c)
    ensures !Less(a, b) && Less(a, c) ==> !Less(c, b)
  {}

  lemma RunIsSorted(runs: seq<seq<Entry>>, i: nat)
    requires i < |runs| && Sorted(Flat(runs))
    ensures Sorted(runs[i])
  {
    forall h, k | 0 <= h < k < |runs[i]|
      ensures Precedes(runs[i][h].key, runs[i][k].key)
    {
      FlatAt(runs, i, h);
      FlatAt(runs, i, k);
    }
  }

  lemma {:induction false} CutIsUnique(entries: seq<Entry>, target: InternalKey, n: nat)
    requires n <= |entries| && forall k :: 0 <= k < |entries| ==> (Less(entries[k].key, target) <==> k < n)
    ensures SeekIndex(entries, target) == n
  {
    if n > 0 {
      CutIsUnique(entries[1..], target, n - 1);
    }
  }

  /** Seeking the index and then the run it points to divides all entries at the target. */
  lemma SeekInRuns(index: seq<Entry>, runs: seq<seq<Entry>>, target: InternalKey)
    requires Indexes(index, runs) && Sorted(index) && Sorted(Flat(runs))
    ensures var i := SeekIndex(index, target);
      SeekIndex(Flat(runs), target) == if i == |index| then |Flat(runs)| else Start(runs, i) + SeekIndex(runs[i], target)
  {
    var i, flat := SeekIndex(index, target), Flat(runs);
    StartOfAll(runs);
    SeekDivides(flat, target);
    SeekDivides(index, target);
    var n := |flat|;
    if i < |index| {
      n := Start(runs, i) + SeekIndex(runs[i], target);
      StartNext(runs, i);
      StartGrows(runs, i + 1, |runs|);
      RunIsSorted(runs, i);
      SeekDivides(runs[i], target);
    }
    forall m | 0 <= m < |flat|
      ensures Less(flat[m].key, target) <==> m < n
    {
      var j, k := FlatFrom(runs, m);
      FlatAt(runs, j, k);
      if j < i {
        LessOrNot(runs[j][k].key, index[j].key, target);
        StartNext(runs, j);
        if i < |index| {
          StartGrows(runs, j + 1, i);
        }
      } else if j > i {
        LessOrNot(index[i].key, target, runs[j][k].key);
        StartGrows(runs, i + 1, j);
      }
    }
    CutIsUnique(flat, target, n);
  }

  class TwoLevelIterator {
    const index: InternalIterator
    // What the block function reads for an index value.
    const read: seq<Byte> -> seq<Entry>
    var data: InternalIterator?
    var dataBlockHandle: seq<Byte>

    constructor (index: InternalIterator, read: seq<Byte> -> seq<Entry>)
      requires !index.Valid()
      ensures this.index == index && this.read == read && Consistent() && !Valid()
    {
      this.index, this.read := index, read;
      data, dataBlockHandle := null, [];
    }

    ghost function Runs(): (runs: seq<seq<Entry>>)
      ensures |runs| == |index.entries|
    {
      seq(|index.entries|, i requires 0 <= i < |index.entries| => read(index.entries[i].value))
    }

    predicate Valid()
      reads this, data
    {
      data != null && data.Valid()
    }

    /** A data iterator is over the block under the index. */
    ghost predicate Coupled()
      reads this, index, data
    {
      data != null ==>
        && data != index && index.Valid()
        && dataBlockHandle == index.entries[index.pos].value && data.entries == read(dataBlockHandle)
    }

    ghost predicate Consistent()
      reads this, index, data
    {
      Coupled() && (data != null ==> data.Valid())
    }

    /** The place of the cursor among all entries; their number when off either end. */
    ghost function Position(): nat
      reads this, index, data
      requires Consistent()
    {
      if data != null then Start(Runs(), index.pos) + data.pos else |Flat(Runs())|
    }

    function Key(): InternalKey
      reads this, index, data
      requires Consistent() && Valid()
      ensures Position() < |Flat(Runs())| && Key() == Flat(Runs())[Position()].key
    {
      FlatAt(Runs(), index.pos, data.pos);
      data.Key()
    }

    method SetDataIterator(iter: InternalIterator?)
      modifies this`data
      ensures data == iter
    {
      data := iter;
    }

    /** The block under the index, keeping the iterator when it is over that block already. */
    method InitDataBlock()
      requires data != null ==> data != index && data.entries == read(dataBlockHandle)
      modifies this
      ensures Coupled() && (data != null <==> index.Valid())
      ensures data == null || data == old(data) || fresh(data)
    {
      if !index.Valid() {
        SetDataIterator(null);
      } else {
        var handle := index.entries[index.pos].value;
        if data != null && handle == dataBlockHandle {
          // Already the right block.
        } else {
          var iter := new InternalIterator(read(handle));
          dataBlockHandle := handle;
          SetDataIterator(iter);
        }
      }
    }

    /** All entries before place `n` are behind the cursor, and no others. */
    ghost predicate Ahead(n: nat)
      reads this, index, data
    {
      && Coupled()
      && if data == null then !index.Valid() && n == |Flat(Runs())|
         else data.pos <= |data.entries| && n == Start(Runs(), index.pos) + data.pos
    }

    /** Exactly the first `n` entries are up to and including the cursor. */
    ghost predicate Behind(n: nat)
      reads this, index, data
    {
      && Coupled()
      && if data == null then !index.Valid() && n == 0
         else n == Start(Runs(), index.pos) + if data.Valid() then data.pos + 1 else 0
    }

    method SkipEmptyDataBlocksForward(ghost n: nat)
      requires Ahead(n)
      modifies this, index, data
      ensures Consistent() && Position() == n
      ensures data == null || data == old(data) || fresh(data)
    {
      while data == null || !data.Valid()
        invariant Ahead(n)
        invariant data == null || data == old(data) || fresh(data)
        decreases if index.Valid() then |index.entries| - index.pos else 0
      {
        if !index.Valid() {
          SetDataIterator(null);
          return;
        }
        StartNext(Runs(), index.pos);
        StartOfAll(Runs());
        index.Next();
        InitDataBlock();
        if data != null {
          data.SeekToFirst();
        }
      }
    }

    method SkipEmptyDataBlocksBackward(ghost n: nat)
      requires Behind(n)
      modifies this, index, data
      ensures Consistent() && Position() == if n == 0 then |Flat(Runs())| else n - 1
      ensures data == null || data == old(data) || fresh(data)
    {
      while data == null || !data.Valid()
        invariant Behind(n)
        invariant data == null || data == old(data) || fresh(data)
        decreases if index.Valid() then index.pos + 1 else 0
      {
        if !index.Valid() {
          SetDataIterator(null);
          return;
        }
        if index.pos > 0 {
          StartNext(Runs(), index.pos - 1);
        }
        index.Prev();
        InitDataBlock();
        if data != null {
          data.SeekToLast();
        }
      }
    }

    method Next()
      requires Consistent() && Valid()
      modifies this, index, data
      ensures Consistent() && Position() == old(Position()) + 1
      ensures data == null || data == old(data) || fresh(data)
    {
      ghost var n := Position();
      data.Next();
      SkipEmptyDataBlocksForward(n + 1);
    }

    method Prev()
      requires Consistent() && Valid()
      modifies this, index, data
      ensures Consistent() && Position() == if old(Position()) == 0 then |Flat(Runs())| else old(Position()) - 1
      ensures data == null || data == old(data) || fresh(data)
    {
      ghost var n := Position();
      data.Prev();
      SkipEmptyDataBlocksBackward(n);
    }

    method SeekToFirst()
      requires Consistent()
      modifies this, index, data
      ensures Consistent() && Position() == 0
    {
      index.SeekToFirst();
      InitDataBlock();
      if data != null {
        data.SeekToFirst();
      }
      SkipEmptyDataBlocksForward(0);
    }

    method SeekToLast()
      requires Consistent()
      modifies this, index, data
      ensures Consistent()
      ensures Position() == if Flat(Runs()) == [] then 0 else |Flat(Runs())| - 1
    {
      StartOfAll(Runs());
      if |index.entries| > 0 {
        StartNext(Runs(), |index.entries| - 1);
      }
      index.SeekToLast();
      InitDataBlock();
      if data != null {
        data.SeekToLast();
      }
      SkipEmptyDataBlocksBackward(|Flat(Runs())|);
    }

    method Seek(target: InternalKey)
      requires Consistent() && Indexes(index.entries, Runs()) && Sorted(index.entries) && Sorted(Flat(Runs()))
      modifies this, index, data
      ensures Consistent() && Position() == SeekIndex(Flat(Runs()), target)
    {
      index.Seek(target);
      InitDataBlock();
      if data != null {
        data.Seek(target);
      }
      SeekInRuns(index.entries, Runs(), target);
      SkipEmptyDataBlocksForward(SeekIndex(Flat(Runs()), target));
    }
  }
}
