/** DBImpl::NewInternalIterator: the runs of the memtables, the level-0 tables and the deeper levels under one cursor. */
module IteratorTower {
  import opened Keys
  import opened Versions
  import opened Merger
  import opened TwoLevel
  import DbIter
  import Reads

  function Tables(files: seq<File>): seq<seq<Entry>> {
    seq(|files|, i requires 0 <= i < |files| => files[i].entries)
  }

  /** LevelFileNumIterator: the files of a level under their largest keys. */
  function LevelIndex(files: seq<File>): seq<Entry> {
    seq(|files|, i requires 0 <= i < |files| => Entry(files[i].largest, []))
  }

  /** NewConcatenatingIterator for each level that has files. */
  function ConcatenatedFrom(v: Version, level: nat): seq<seq<Entry>>
    requires level <= NUM_LEVELS
    decreases NUM_LEVELS - level
  {
    if level == NUM_LEVELS then []
    else (if v[level] == [] then [] else [Flat(Tables(v[level]))]) + ConcatenatedFrom(v, level + 1)
  }

  /** The children of the merging iterator, with those of Version::AddIterators. */
  function Children(mem: seq<Entry>, imm: seq<Entry>, v: Version): seq<seq<Entry>> {
    [mem] + ((if imm == [] then [] else [imm]) + (Tables(v[0]) + ConcatenatedFrom(v, 1)))
  }

  // --------------------------------------------------------------- one level

  lemma LevelIsIndexed(files: seq<File>)
    requires SortedLevel(files)
    ensures Sorted(LevelIndex(files)) && Indexes(LevelIndex(files), Tables(files))
  {
    var index: seq<Entry>, runs: seq<seq<Entry>> := LevelIndex(files), Tables(files);
    forall i, j | 0 <= i < j < |files|
      ensures Precedes(files[i].largest, files[j].largest)
    {
      assert Before(files[i], files[j]);
      FirstAndLast(files[j]);
    }
    forall i, k | 0 <= i < |files| && 0 <= k < |runs[i]|
      ensures !Less(index[i].key, runs[i][k].key)
    {
      WithinFile(files[i], runs[i][k]);
    }
    forall i, j, k | 0 <= i < j < |files| && 0 <= k < |runs[j]|
      ensures Less(index[i].key, runs[j][k].key)
    {
      assert Before(files[i], files[j]);
      WithinFile(files[j], runs[j][k]);
    }
  }

  /** A level as one run: sorted, and with exactly its entries. */
  lemma LevelIsOneRun(files: seq<File>)
    requires SortedLevel(files)
    ensures Sorted(Flat(Tables(files))) && Reads.Contents(Flat(Tables(files))) == LevelEntries(files)
  {
    var runs := Tables(files);
    forall m, n | 0 <= m < n < |Flat(runs)|
      ensures Precedes(Flat(runs)[m].key, Flat(runs)[n].key)
    {
      FlatOrdered(files, m, n);
    }
    forall e | e in LevelEntries(files)
      ensures e in Flat(runs)
    {
      var f :| f in files && e in f.entries;
      var i :| 0 <= i < |files| && files[i] == f;
      var k :| 0 <= k < |runs[i]| && runs[i][k] == e;
      FlatAt(runs, i, k);
    }
    forall n | 0 <= n < |Flat(runs)|
      ensures Flat(runs)[n] in LevelEntries(files)
    {
      var i, k := FlatFrom(runs, n);
      FlatAt(runs, i, k);
      assert files[i] in files && runs[i][k] in files[i].entries;
    }
  }

  lemma FlatOrdered(files: seq<File>, m: nat, n: nat)
    requires SortedLevel(files) && m < n < |Flat(Tables(files))|
    ensures Precedes(Flat(Tables(files))[m].key, Flat(Tables(files))[n].key)
  {
    var runs := Tables(files);
    var i, h := FlatFrom(runs, m);
    var j, k := FlatFrom(runs, n);
    FlatAt(runs, i, h);
    FlatAt(runs, j, k);
    if j < i {
      StartGrows(runs, j + 1, i);
      StartNext(runs, j);
    }
    WithinFile(files[i], runs[i][h]);
    WithinFile(files[j], runs[j][k]);
    assert files[i].Valid() && files[j].Valid();
    if i < j {
      assert Before(files[i], files[j]);
    }
  }

  // ----------------------------------------------------------------- all runs

  ghost function RunEntries(runs: seq<seq<Entry>>): set<Entry> {
    set r, e | r in runs && e in r :: e
  }

  /** Runs above newer than those below. */
  lemma RunsAppend(a: seq<seq<Entry>>, b: seq<seq<Entry>>)
    requires Runs(a) && Runs(b) && Reads.AllNewer(RunEntries(a), RunEntries(b))
    ensures Runs(a + b) && RunEntries(a + b) == RunEntries(a) + RunEntries(b)
  {
    var all := a + b;
    forall r | r in all
      ensures Sorted(r)
    {
      assert r in a || r in b;
    }
    forall i, j | 0 <= i < j < |all|
      ensures Apart(all[i], all[j])
    {
      if j < |a| {
        assert Apart(a[i], a[j]);
      } else if i >= |a| {
        assert Apart(b[i - |a|], b[j - |a|]);
      } else {
        assert a[i] in a && b[j - |a|] in b;
        forall d: Entry, e: Entry | d in all[i] && e in all[j]
          ensures d.User() != e.User() || d.Sequence() != e.Sequence()
        {
          assert d in RunEntries(a) && e in RunEntries(b);
        }
      }
    }
    assert forall r :: r in all <==> r in a || r in b;
  }

  lemma OneRun(run: seq<Entry>)
    requires Sorted(run)
    ensures Runs([run]) && RunEntries([run]) == Reads.Contents(run)
  {
    assert run in [run];
  }

  lemma ZeroRuns(files: seq<File>)
    requires LevelZero(files)
    ensures Runs(Tables(files)) && RunEntries(Tables(files)) == LevelEntries(files)
  {
    var runs := Tables(files);
    forall r | r in runs
      ensures Sorted(r)
    {
      var i :| 0 <= i < |runs| && runs[i] == r;
      assert files[i].Valid();
    }
    forall i, j, d: Entry, e: Entry | 0 <= i < j < |runs| && d in runs[i] && e in runs[j]
      ensures d.User() != e.User() || d.Sequence() != e.Sequence()
    {
      Reads.DifferentFiles(files, files[i], files[j], d, e);
    }
    forall e | e in LevelEntries(files)
      ensures e in RunEntries(runs)
    {
      var f :| f in files && e in f.entries;
      var i :| 0 <= i < |files| && files[i] == f;
      assert runs[i] in runs;
    }
    forall e | e in RunEntries(runs)
      ensures e in LevelEntries(files)
    {
      var r :| r in runs && e in r;
      var i :| 0 <= i < |runs| && runs[i] == r;
      assert files[i] in files;
    }
  }

  /** The entries of a level and those below. */
  ghost function EntriesFrom(v: Version, level: nat): set<Entry> {
    set l, f, e | level <= l < NUM_LEVELS && f in v[l] && e in f.entries :: e
  }

  lemma LevelOverDeeper(v: Version, level: nat)
    requires LevelOrder(v) && level < NUM_LEVELS
    ensures Reads.AllNewer(LevelEntries(v[level]), EntriesFrom(v, level + 1))
    ensures EntriesFrom(v, level) == LevelEntries(v[level]) + EntriesFrom(v, level + 1)
  {
    forall d, e | d in LevelEntries(v[level]) && e in EntriesFrom(v, level + 1) && d.User() == e.User()
      ensures d.Sequence() > e.Sequence()
    {
      var f :| f in v[level] && d in f.entries;
      var l, g :| level + 1 <= l < NUM_LEVELS && g in v[l] && e in g.entries;
      Reads.LevelsDiffer(v, level, l, f, g, d, e);
    }
  }

  lemma {:induction false} DeeperRuns(v: Version, level: nat)
    requires LevelOrder(v) && 1 <= level <= NUM_LEVELS
    ensures Runs(ConcatenatedFrom(v, level)) && RunEntries(ConcatenatedFrom(v, level)) == EntriesFrom(v, level)
    decreases NUM_LEVELS - level
  {
    if level < NUM_LEVELS {
      DeeperRuns(v, level + 1);
      LevelOverDeeper(v, level);
      assert SortedLevel(v[level]);
      hide LevelOrder, Runs, RunEntries, EntriesFrom, SortedLevel;
      var rest := ConcatenatedFrom(v, level + 1);
      if v[level] == [] {
        assert LevelEntries(v[level]) == {} && ConcatenatedFrom(v, level) == rest;
      } else {
        var run := Flat(Tables(v[level]));
        LevelIsOneRun(v[level]);
        OneRun(run);
        RunsAppend([run], rest);
      }
    }
  }

  lemma ChildrenAreRuns(mem: seq<Entry>, imm: seq<Entry>, v: Version)
    requires Reads.Layered(mem, imm, v)
    ensures Runs(Children(mem, imm, v)) && RunEntries(Children(mem, imm, v)) == Reads.Everything(mem, imm, v)
  {
    var zero, deeper := Tables(v[0]), ConcatenatedFrom(v, 1);
    ZeroRuns(v[0]);
    DeeperRuns(v, 1);
    LevelOverDeeper(v, 0);
    assert EntriesFrom(v, 0) == Entries(v);
    hide LevelOrder, Runs, RunEntries, EntriesFrom, Entries;
    RunsAppend(zero, deeper);
    OneRun(mem);
    if imm == [] {
      assert Reads.Contents(imm) == {} && [] + (zero + deeper) == zero + deeper;
      RunsAppend([mem], zero + deeper);
    } else {
      OneRun(imm);
      RunsAppend([imm], zero + deeper);
      RunsAppend([mem], [imm] + (zero + deeper));
    }
  }

  lemma UnionIsEverything(mem: seq<Entry>, imm: seq<Entry>, v: Version)
    requires Reads.Layered(mem, imm, v)
    ensures Sorted(Union(Children(mem, imm, v)))
    ensures DbIter.EntrySet(Union(Children(mem, imm, v))) == Reads.Everything(mem, imm, v)
  {
    var runs := Children(mem, imm, v);
    ChildrenAreRuns(mem, imm, v);
    hide Children, Reads.Everything, Reads.Layered, Runs;
    UnionIsSorted(runs);
    forall e
      ensures e in Union(runs) <==> e in RunEntries(runs)
    {
      if e in RunEntries(runs) {
        var r :| r in runs && e in r;
        var j :| 0 <= j < |runs| && runs[j] == r;
        assert InRun(runs, j, e);
      }
      if j: nat :| InRun(runs, j, e) {
        assert runs[j] in runs;
      }
    }
  }

  /**
   * The whole tower: the list DBIter walks over the merged runs is what point reads of the database see, key by
   * key, in strictly increasing order.
   */
  lemma TowerIsWhatReadersSee(mem: seq<Entry>, imm: seq<Entry>, v: Version, s: SequenceNumber)
    requires Reads.Layered(mem, imm, v)
    ensures var all := Union(Children(mem, imm, v));
      && Sorted(all)
      && (forall p, q :: 0 <= p < q < |DbIter.Live(all, s)| ==> DbIter.LiveKey(all, s, p) < DbIter.LiveKey(all, s, q))
      && forall user, value ::
           (Keys.Reads(Reads.Everything(mem, imm, v), user, s, Some(value)) <==> exists p :: DbIter.Lists(all, s, user, value, p))
  {
    UnionIsEverything(mem, imm, v);
    DbIter.LiveIsWhatReadersSee(Union(Children(mem, imm, v)), s);
    hide Children, Reads.Everything, Reads.Layered;
  }
}
