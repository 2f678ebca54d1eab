/** Every step that installs a version keeps the level order: compaction, trivial move, flush. */
module Install {
  import opened Bytes
  import opened Keys
  import opened Versions
  import opened Inputs
  import opened Compactions
  import opened Invisibility
  import Reads

  /** `w` is `v` with `removed` taken out of a level and `added` put in, in the builder's order. */
  ghost predicate LevelChanged(before: seq<File>, after: seq<File>, removed: seq<File>, added: seq<File>) {
    && InOrder(after)
    && forall f :: f in after <==> (f in before && f !in removed) || f in added
  }

  /** Files that may share a level above 0. */
  ghost predicate Apart(files: seq<File>) {
    AllValid(files) && forall f, g :: f in files && g in files && f != g ==> Before(f, g) || Before(g, f)
  }

  lemma ApartInOrder(files: seq<File>)
    requires Apart(files) && InOrder(files)
    ensures SortedLevel(files)
  {
    forall i, j | 0 <= i < j < |files|
      ensures Before(files[i], files[j])
    {
      assert BySmallest(files[i], files[j]);
      assert files[i] in files && files[j] in files;
      FirstAndLast(files[j]);
      assert files[i] != files[j];
    }
  }

  lemma SortedApart(files: seq<File>)
    requires SortedLevel(files)
    ensures Apart(files)
  {
    forall f, g | f in files && g in files && f != g
      ensures Before(f, g) || Before(g, f)
    {
      var i :| 0 <= i < |files| && files[i] == f;
      var k :| 0 <= k < |files| && files[k] == g;
    }
  }

  // ------------------------------------------------------- compaction and move

  /** What replaces the inputs: disjoint tables of input entries. */
  ghost predicate Replaces(j: Job, outputs: seq<File>)
    requires j.Valid()
  {
    Apart(outputs) && LevelEntries(outputs) <= j.In()
  }

  /** The version after the job: inputs out of both levels, outputs into the lower one. */
  ghost predicate Installed(j: Job, outputs: seq<File>, w: Version)
    requires j.Valid()
  {
    && LevelChanged(j.v[j.level], w[j.level], j.inputs0, [])
    && LevelChanged(j.Lower(), w[j.level + 1], j.inputs1, outputs)
    && forall l :: 0 <= l < NUM_LEVELS && l != j.level && l != j.level + 1 ==> w[l] == j.v[l]
  }

  /** A file that stays in the output level is wholly on one side of everything compacted. */
  lemma StaysAside(j: Job, f: File)
    requires j.Valid() && f in j.Lower() && f !in j.inputs1
    ensures (forall d :: d in j.In() ==> Precedes(f.largest, d.key))
      || (forall d :: d in j.In() ==> Precedes(d.key, f.smallest))
  {
    hide LevelZero, Deeper, Startable, NoBoundary, IsSmallest, IsLargest, SortedLevel;
    var s, l :| IsSmallest(j.inputs0, s) && IsLargest(j.inputs0, l)
      && j.inputs1 == Overlapping(j.Lower(), Some(s.user), Some(l.user));
    assert !Overlaps(f, Some(s.user), Some(l.user));
    forall d | d in j.In()
      ensures if f.largest.user < s.user then Precedes(f.largest, d.key) else Precedes(d.key, f.smallest)
    {
      AsideOne(j, f, s, l, d);
    }
  }

  lemma AsideOne(j: Job, f: File, s: InternalKey, l: InternalKey, d: Entry)
    requires j.Valid() && f in j.Lower() && d in j.In()
    requires IsSmallest(j.inputs0, s) && IsLargest(j.inputs0, l)
    requires j.inputs1 == Overlapping(j.Lower(), Some(s.user), Some(l.user))
    requires f.largest.user < s.user || f.smallest.user > l.user
    ensures if f.largest.user < s.user then Precedes(f.largest, d.key) else Precedes(d.key, f.smallest)
  {
    hide SortedLevel, LevelZero, Deeper, Chosen, IsSmallest, IsLargest;
    var k, h := InFile(j, d);
    WithinFile(h, d);
    LevelFacts(j.v, j.level + 1);
    if k == j.level {
      InRange(j.inputs0, s, l, h);
    } else {
      SortedApart(j.Lower());
      LowerAside(f, h, s.user, l.user);
    }
  }

  lemma InRange(inputs: seq<File>, s: InternalKey, l: InternalKey, h: File)
    requires IsSmallest(inputs, s) && IsLargest(inputs, l) && h in inputs
    ensures s.user <= h.smallest.user && h.largest.user <= l.user
  {
    assert !Less(h.smallest, s) && !Less(l, h.largest);
  }

  lemma LowerAside(f: File, h: File, s: UserKey, l: UserKey)
    requires f.Valid() && h.Valid() && (f != h ==> Before(f, h) || Before(h, f))
    requires Overlaps(h, Some(s), Some(l)) && (f.largest.user < s || f.smallest.user > l)
    ensures if f.largest.user < s then Before(f, h) else Before(h, f)
  {
    FirstAndLast(f);
    FirstAndLast(h);
  }

  /** The output level stays sorted and disjoint. */
  lemma LowerSorted(j: Job, outputs: seq<File>, w: Version)
    requires j.Valid() && Replaces(j, outputs) && Installed(j, outputs, w)
    ensures SortedLevel(w[j.level + 1])
  {
    LevelFacts(j.v, j.level + 1);
    hide Job.Valid, LevelOrder, InOrder, SortedLevel;
    SortedApart(j.Lower());
    var files := w[j.level + 1];
    forall f, g | f in files && g in files && f != g
      ensures Before(f, g) || Before(g, f)
    {
      if f in outputs && g !in outputs {
        OutputAside(j, outputs, f, g);
      } else if g in outputs && f !in outputs {
        OutputAside(j, outputs, g, f);
      }
    }
    ApartInOrder(files);
  }

  lemma OutputAside(j: Job, outputs: seq<File>, o: File, f: File)
    requires j.Valid() && Replaces(j, outputs) && o in outputs
    requires f in j.Lower() && f !in j.inputs1
    ensures Before(f, o) || Before(o, f)
  {
    hide SortedLevel, LevelZero, Deeper, Chosen, Job.In;
    StaysAside(j, f);
    assert o.Valid();
    assert o.entries[0] in o.entries && o.entries[|o.entries| - 1] in o.entries;
    assert o.entries[0] in LevelEntries(outputs) && o.entries[|o.entries| - 1] in LevelEntries(outputs);
  }

  /** Taking files out of a level keeps its order. */
  lemma UpperKept(level: nat, before: seq<File>, after: seq<File>, removed: seq<File>)
    requires if level == 0 then LevelZero(before) else SortedLevel(before)
    requires LevelChanged(before, after, removed, [])
    ensures if level == 0 then LevelZero(after) else SortedLevel(after)
  {
    if level == 0 {
      forall i, k | 0 <= i < k < |after|
        ensures after[i].number != after[k].number
      {
        assert BySmallest(after[i], after[k]);
        assert after[i] in before && after[k] in before;
        var x :| 0 <= x < |before| && before[x] == after[i];
        var y :| 0 <= y < |before| && before[y] == after[k];
        assert after[i] != after[k];
      }
    } else {
      SortedApart(before);
      ApartInOrder(after);
    }
  }

  /** Where the entries of the new version come from. */
  lemma NewEntry(j: Job, outputs: seq<File>, w: Version, l: nat, f: File, e: Entry)
    requires j.Valid() && Replaces(j, outputs) && Installed(j, outputs, w)
    requires l < NUM_LEVELS && f in w[l] && e in f.entries
    ensures (f in j.v[l] && j.Stays(l, f)) || (l == j.level + 1 && f in outputs && e in j.In())
  {
    hide LevelOrder, Chosen, InOrder;
    if f in outputs {
      assert e in LevelEntries(outputs);
    }
  }

  /** Any entry of a shallower level is newer, whether it stayed or was moved down. */
  lemma StillDeeper(j: Job, outputs: seq<File>, w: Version, a: nat, b: nat, f: File, g: File, d: Entry, e: Entry)
    requires j.Valid() && Replaces(j, outputs) && Installed(j, outputs, w)
    requires a < b < NUM_LEVELS && f in w[a] && g in w[b]
    requires d in f.entries && e in g.entries && d.User() == e.User()
    ensures d.Sequence() > e.Sequence()
  {
    NewEntry(j, outputs, w, a, f, d);
    NewEntry(j, outputs, w, b, g, e);
    hide Installed, Replaces, LevelZero, SortedLevel, Deeper, Startable, NoBoundary;
    if f in j.v[a] && j.Stays(a, f) {
      if g in j.v[b] && j.Stays(b, g) {
        Reads.LevelsDiffer(j.v, a, b, f, g, d, e);
      } else {
        var k, h := InFile(j, e);
        if a == k {
          LevelFacts(j.v, a);
          UpperStaysNewer(a, j.v[a], j.inputs0, h, f, e, d);
        } else {
          Reads.LevelsDiffer(j.v, a, k, f, h, d, e);
        }
      }
    } else {
      var k, h := InFile(j, d);
      Reads.LevelsDiffer(j.v, k, b, h, g, d, e);
    }
  }

  /** Compaction keeps the level order, whatever it drops and wherever it cuts. */
  lemma CompactionKeepsOrder(j: Job, outputs: seq<File>, w: Version)
    requires j.Valid() && Replaces(j, outputs) && Installed(j, outputs, w)
    ensures LevelOrder(w)
  {
    hide SortedLevel, LevelZero, Chosen, Replaces, InOrder;
    LevelFacts(j.v, j.level);
    UpperKept(j.level, j.v[j.level], w[j.level], j.inputs0);
    LowerSorted(j, outputs, w);
    forall a, b | 0 <= a < b < NUM_LEVELS
      ensures Deeper(w[a], w[b])
    {
      AllDeeper(j, outputs, w, a, b);
    }
  }

  lemma AllDeeper(j: Job, outputs: seq<File>, w: Version, a: nat, b: nat)
    requires j.Valid() && Replaces(j, outputs) && Installed(j, outputs, w)
    requires a < b < NUM_LEVELS
    ensures Deeper(w[a], w[b])
  {
    hide Job.Valid, Replaces, Installed;
    forall f, g, d, e | f in w[a] && g in w[b] && d in f.entries && e in g.entries && d.User() == e.User()
      ensures d.Sequence() > e.Sequence()
    {
      StillDeeper(j, outputs, w, a, b, f, g, d, e);
    }
  }

  // ---------------------------------------------------- what the loop produces

  /** Tables cut from a sorted run form a sorted level with the same entries. */
  lemma {:induction false} CutsAreSorted(files: seq<File>)
    requires AllValid(files) && Sorted(Flatten(files))
    ensures SortedLevel(files) && LevelEntries(files) == Reads.Contents(Flatten(files))
    decreases |files|
  {
    if files != [] {
      var front, last := files[..|files| - 1], files[|files| - 1];
      assert forall f :: f in files <==> f in front || f == last;
      assert Flatten(files) == Flatten(front) + last.entries;
      PrefixSorted(Flatten(front), last.entries);
      CutsAreSorted(front);
      forall i | 0 <= i < |front|
        ensures Before(front[i], last)
      {
        CutBefore(front, i, last);
      }
      forall i, k | 0 <= i < k < |files|
        ensures Before(files[i], files[k])
      {
        assert files[i] == front[i] && (k < |front| ==> files[k] == front[k]);
      }
      EntriesAppend(front, last);
      assert files == front + [last];
    }
  }

  lemma EntriesAppend(front: seq<File>, last: File)
    ensures LevelEntries(front + [last]) == LevelEntries(front) + Reads.Contents(last.entries)
  {
    forall e | e in Reads.Contents(last.entries)
      ensures e in LevelEntries(front + [last])
    {
      assert last in front + [last];
    }
    forall e | e in LevelEntries(front)
      ensures e in LevelEntries(front + [last])
    {
      var f :| f in front && e in f.entries;
      assert f in front + [last];
    }
  }

  lemma PrefixSorted(a: seq<Entry>, b: seq<Entry>)
    requires Sorted(a + b)
    ensures Sorted(a)
    ensures forall d, e :: d in a && e in b ==> Precedes(d.key, e.key)
  {
    assert forall i :: 0 <= i < |a| ==> a[i] == (a + b)[i];
    forall d, e | d in a && e in b
      ensures Precedes(d.key, e.key)
    {
      var i :| 0 <= i < |a| && a[i] == d;
      var k :| 0 <= k < |b| && b[k] == e;
      assert (a + b)[|a| + k] == e;
    }
  }

  lemma CutBefore(front: seq<File>, i: nat, last: File)
    requires i < |front| && AllValid(front) && last.Valid()
    requires LevelEntries(front) == Reads.Contents(Flatten(front)) && Sorted(Flatten(front) + last.entries)
    ensures Before(front[i], last)
  {
    var f := front[i];
    assert f in front;
    var e := f.entries[|f.entries| - 1];
    assert e in f.entries;
    assert e in LevelEntries(front);
    assert e in Flatten(front);
    PrefixSorted(Flatten(front), last.entries);
    assert last.entries[0] in last.entries;
  }

  /** What DoCompactionWork returns may be installed, and holds exactly the kept entries. */
  lemma OutputsReplace(j: Job, outputs: seq<File>)
    requires j.Valid() && AllValid(outputs)
    requires Flatten(outputs) == Kept(j.v, j.level, j.input, j.smallestSnapshot, |j.input|)
    ensures Replaces(j, outputs) && LevelEntries(outputs) == j.Out()
  {
    hide SortedLevel, LevelZero, Deeper, Chosen, Kept;
    KeptOrdered(j.v, j.level, j.input, j.smallestSnapshot, |j.input|);
    CutsAreSorted(outputs);
    SortedApart(outputs);
    assert j.input[..|j.input|] == j.input;
  }

  /** The database after installing the outputs is what the loop kept and everything else. */
  lemma InstalledEntries(j: Job, outputs: seq<File>, w: Version)
    requires j.Valid() && Replaces(j, outputs) && Installed(j, outputs, w)
    ensures j.newer + Entries(w) == j.Rest() + LevelEntries(outputs)
    ensures Entries(w) <= Entries(j.v)
  {
    hide LevelOrder, Chosen, InOrder;
    NothingElseInstalled(j, outputs, w);
    AllInstalled(j, outputs, w);
    InAndRest(j);
  }

  lemma NothingElseInstalled(j: Job, outputs: seq<File>, w: Version)
    requires j.Valid() && Replaces(j, outputs) && Installed(j, outputs, w)
    ensures Entries(w) <= j.Rest() + LevelEntries(outputs) && Entries(w) <= Entries(j.v)
  {
    InAndRest(j);
    hide LevelOrder, Chosen, InOrder;
    forall e | e in Entries(w)
      ensures e in j.Rest() + LevelEntries(outputs) && e in Entries(j.v)
    {
      var l, f :| 0 <= l < NUM_LEVELS && f in w[l] && e in f.entries;
      NewEntry(j, outputs, w, l, f, e);
    }
  }

  lemma AllInstalled(j: Job, outputs: seq<File>, w: Version)
    requires j.Valid() && Replaces(j, outputs) && Installed(j, outputs, w)
    ensures j.Rest() + LevelEntries(outputs) <= j.newer + Entries(w)
  {
    InAndRest(j);
    hide LevelOrder, Chosen, InOrder;
    forall e | e in j.Rest() && e !in j.newer
      ensures e in Entries(w)
    {
      var l, f := RestFile(j, e);
      assert f in w[l];
    }
    forall e | e in LevelEntries(outputs)
      ensures e in Entries(w)
    {
      var f :| f in outputs && e in f.entries;
      assert f in w[j.level + 1];
    }
  }

  /** A file moved down unchanged: nothing below overlaps it, so order and reads stay. */
  lemma TrivialMoveKeeps(j: Job, w: Version)
    requires j.Valid() && |j.inputs0| == 1 && j.inputs1 == []
    requires Installed(j, j.inputs0, w)
    ensures LevelOrder(w) && j.newer + Entries(w) == j.Before() && Entries(w) <= Entries(j.v)
  {
    var f := j.inputs0[0];
    MoveReplaces(j);
    CompactionKeepsOrder(j, j.inputs0, w);
    InstalledEntries(j, j.inputs0, w);
    InAndRest(j);
    hide Job.Valid, Installed, Replaces;
    assert LevelEntries([]) == {};
  }

  lemma MoveReplaces(j: Job)
    requires j.Valid() && |j.inputs0| == 1 && j.inputs1 == []
    ensures Replaces(j, j.inputs0)
  {
    hide SortedLevel, LevelZero, Deeper, Chosen;
    ChosenFromLevels(j);
    LevelFacts(j.v, j.level);
  }
}
