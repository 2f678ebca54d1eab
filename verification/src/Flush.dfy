/** Where a flushed memtable goes: Version::PickLevelForMemTableOutput. */
module Flush {
  import opened Bytes
  import opened Keys
  import opened Versions
  import opened Inputs
  import opened Install
  import Reads

  const MAX_MEM_COMPACT_LEVEL: nat := 2

  ghost predicate SomeOverlap(files: seq<File>, smallest: Option<UserKey>, largest: Option<UserKey>) {
    exists f :: f in files && Overlaps(f, smallest, largest)
  }

  /** Linear scan for level 0, binary search for the sorted levels. */
  method SomeFileOverlapsRange(
      disjointSortedFiles: bool, files: seq<File>, smallest: Option<UserKey>, largest: Option<UserKey>)
    returns (r: bool)
    requires AllValid(files) && (disjointSortedFiles ==> SortedLevel(files))
    ensures r == SomeOverlap(files, smallest, largest)
  {
    if !disjointSortedFiles {
      for i := 0 to |files|
        invariant forall k :: 0 <= k < i ==> !Overlaps(files[k], smallest, largest)
      {
        var f := files[i];
        if BelowBegin(smallest, f.largest.user) || AboveEnd(largest, f.smallest.user) {
          // No overlap.
        } else {
          assert f in files && Overlaps(f, smallest, largest);
          return true;
        }
      }
      return false;
    }
    var index := 0;
    if smallest.Some? {
      index := FindFile(files, InternalKey(smallest.value, MAX_SEQUENCE, KIND_FOR_SEEK));
    }
    OverlapAtIndex(files, smallest, largest, index);
    if index >= |files| {
      return false;
    }
    return !AboveEnd(largest, files[index].smallest.user);
  }

  /** The first file that ends at or after the range decides. */
  lemma OverlapAtIndex(files: seq<File>, smallest: Option<UserKey>, largest: Option<UserKey>, index: nat)
    requires SortedLevel(files) && index <= |files|
    requires smallest.None? ==> index == 0
    requires smallest.Some? ==>
      && (forall i :: 0 <= i < index ==> Less(files[i].largest, InternalKey(smallest.value, MAX_SEQUENCE, KIND_FOR_SEEK)))
      && (forall i :: index <= i < |files| ==> !Less(files[i].largest, InternalKey(smallest.value, MAX_SEQUENCE, KIND_FOR_SEEK)))
    ensures SomeOverlap(files, smallest, largest) <==> index < |files| && !AboveEnd(largest, files[index].smallest.user)
  {
    forall i | 0 <= i < |files|
      ensures BelowBegin(smallest, files[i].largest.user) <==> i < index
      ensures index <= i ==> files[index].smallest.user <= files[i].smallest.user
    {
      if index < i { UserOrdered(files, index, i); }
    }
    if index < |files| && !AboveEnd(largest, files[index].smallest.user) {
      assert files[index] in files && Overlaps(files[index], smallest, largest);
    }
  }

  /** Push the new table down as long as nothing overlaps it and the level after next stays cheap. */
  method PickLevelForMemTableOutput(v: Version, smallest: UserKey, largest: UserKey, maxGrandparentOverlap: nat)
    returns (level: nat)
    requires LevelOrder(v)
    ensures level <= MAX_MEM_COMPACT_LEVEL
    ensures level > 0 ==> forall l :: 0 <= l <= level ==> !SomeOverlap(v[l], Some(smallest), Some(largest))
    ensures forall l :: 2 <= l < level + 2 ==>
      SumOfSizes(Overlapping(v[l], Some(smallest), Some(largest))) <= maxGrandparentOverlap
    ensures level == 0 ==>
      || SomeOverlap(v[0], Some(smallest), Some(largest))
      || SomeOverlap(v[1], Some(smallest), Some(largest))
      || SumOfSizes(Overlapping(v[2], Some(smallest), Some(largest))) > maxGrandparentOverlap
    ensures 0 < level < MAX_MEM_COMPACT_LEVEL ==>
      || SomeOverlap(v[level + 1], Some(smallest), Some(largest))
      || SumOfSizes(Overlapping(v[level + 2], Some(smallest), Some(largest))) > maxGrandparentOverlap
  {
    hide SomeOverlap, SortedLevel, LevelZero, Deeper, Overlapping, SumOfSizes;
    level := 0;
    LevelFacts(v, 0);
    var overlap := SomeFileOverlapsRange(false, v[0], Some(smallest), Some(largest));
    if !overlap {
      while level < MAX_MEM_COMPACT_LEVEL
        invariant level <= MAX_MEM_COMPACT_LEVEL
        invariant forall l :: 0 <= l <= level ==> !SomeOverlap(v[l], Some(smallest), Some(largest))
        invariant forall l :: 2 <= l < level + 2 ==>
          SumOfSizes(Overlapping(v[l], Some(smallest), Some(largest))) <= maxGrandparentOverlap
      {
        LevelFacts(v, level + 1);
        overlap := SomeFileOverlapsRange(true, v[level + 1], Some(smallest), Some(largest));
        if overlap {
          break;
        }
        if level + 2 < NUM_LEVELS {
          var overlaps := GetOverlappingInputs(level + 2, v[level + 2], Some(smallest), Some(largest));
          var sum := TotalFileSize(overlaps);
          if sum > maxGrandparentOverlap {
            break;
          }
        }
        level := level + 1;
      }
    }
  }

  /** A memtable written out: newer than everything in the version, numbered above every level-0 file. */
  ghost predicate Flushable(v: Version, f: File) {
    && f.Valid()
    && Reads.AllNewer(Reads.Contents(f.entries), Entries(v))
    && forall g :: g in v[0] ==> g.number < f.number
  }

  /** Any level the new table reaches without overlap on the way down will do. */
  lemma FlushKeepsOrder(v: Version, f: File, level: nat, w: Version)
    requires LevelOrder(v) && Flushable(v, f) && level < NUM_LEVELS
    requires level > 0 ==> forall l :: 0 <= l <= level ==> !SomeOverlap(v[l], Some(f.smallest.user), Some(f.largest.user))
    requires LevelChanged(v[level], w[level], [], [f])
    requires forall l :: 0 <= l < NUM_LEVELS && l != level ==> w[l] == v[l]
    ensures LevelOrder(w) && Entries(w) == Reads.Contents(f.entries) + Entries(v)
  {
    FlushedLevel(v, f, level, w);
    forall a, b | 0 <= a < b < NUM_LEVELS
      ensures Deeper(w[a], w[b])
    {
      FlushedDeeper(v, f, level, w, a, b);
    }
    FlushedEntries(v, f, level, w);
  }

  lemma FlushedLevel(v: Version, f: File, level: nat, w: Version)
    requires LevelOrder(v) && Flushable(v, f) && level < NUM_LEVELS
    requires level > 0 ==> !SomeOverlap(v[level], Some(f.smallest.user), Some(f.largest.user))
    requires LevelChanged(v[level], w[level], [], [f])
    ensures if level == 0 then LevelZero(w[level]) else SortedLevel(w[level])
  {
    var files := w[level];
    hide Deeper;
    if level == 0 {
      forall i, k | 0 <= i < k < |files|
        ensures files[i].number != files[k].number
      {
        assert BySmallest(files[i], files[k]);
        assert files[i] in files && files[k] in files;
        if files[i] != f && files[k] != f {
          var x :| 0 <= x < |v[0]| && v[0][x] == files[i];
          var y :| 0 <= y < |v[0]| && v[0][y] == files[k];
        }
      }
      forall g, h | g in files && h in files && g.number > h.number
        ensures NewerThan(g, h)
      {
        if g == f { NewerThanAll(v, f, 0, h); }
      }
    } else {
      SortedApart(v[level]);
      forall g, h | g in files && h in files && g != h
        ensures Before(g, h) || Before(h, g)
      {
        FirstAndLast(g);
        FirstAndLast(h);
        if g == f || h == f {
          var other := if g == f then h else g;
          assert other in v[level] && !Overlaps(other, Some(f.smallest.user), Some(f.largest.user));
        }
      }
      ApartInOrder(files);
    }
  }

  lemma NewerThanAll(v: Version, f: File, l: nat, g: File)
    requires Flushable(v, f) && l < NUM_LEVELS && g in v[l]
    ensures NewerThan(f, g)
  {
    forall d, e | d in f.entries && e in g.entries && d.User() == e.User()
      ensures d.Sequence() > e.Sequence()
    {
      assert d in Reads.Contents(f.entries) && e in Entries(v);
    }
  }

  lemma FlushedDeeper(v: Version, f: File, level: nat, w: Version, a: nat, b: nat)
    requires LevelOrder(v) && Flushable(v, f) && level < NUM_LEVELS && a < b < NUM_LEVELS
    requires level > 0 ==> forall l :: 0 <= l <= level ==> !SomeOverlap(v[l], Some(f.smallest.user), Some(f.largest.user))
    requires LevelChanged(v[level], w[level], [], [f])
    requires forall l :: 0 <= l < NUM_LEVELS && l != level ==> w[l] == v[l]
    ensures Deeper(w[a], w[b])
  {
    assert f.Valid();
    hide SortedLevel, LevelZero, InOrder, Flushable;
    assert Deeper(v[a], v[b]);
    forall g, h | g in w[a] && h in w[b]
      ensures NewerThan(g, h)
    {
      if a == level && g == f {
        NewerThanAll(v, f, b, h);
      } else if b == level && h == f {
        assert !Overlaps(g, Some(f.smallest.user), Some(f.largest.user));
        ApartKeys(v, a, g, f);
      }
    }
  }

  lemma ApartKeys(v: Version, a: nat, g: File, f: File)
    requires LevelOrder(v) && a < NUM_LEVELS && g in v[a] && f.Valid()
    requires !Overlaps(g, Some(f.smallest.user), Some(f.largest.user))
    ensures NewerThan(g, f)
  {
    LevelFacts(v, a);
    forall d, e | d in g.entries && e in f.entries
      ensures d.User() != e.User()
    {
      WithinFile(g, d);
      WithinFile(f, e);
    }
  }

  lemma FlushedEntries(v: Version, f: File, level: nat, w: Version)
    requires level < NUM_LEVELS && LevelChanged(v[level], w[level], [], [f])
    requires forall l :: 0 <= l < NUM_LEVELS && l != level ==> w[l] == v[l]
    ensures Entries(w) == Reads.Contents(f.entries) + Entries(v)
  {
    hide InOrder;
    assert f in w[level];
    forall e | e in Entries(v)
      ensures e in Entries(w)
    {
      var l, g :| 0 <= l < NUM_LEVELS && g in v[l] && e in g.entries;
      assert g in w[l];
    }
  }
}
