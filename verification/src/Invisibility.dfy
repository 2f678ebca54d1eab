/** Whether any live snapshot can tell that a compaction happened. */
module Invisibility {
  import opened Bytes
  import opened Keys
  import opened Versions
  import opened Inputs
  import opened Compactions
  import Reads

  /** One compaction at `level`: its files, their merged entries, and everything else in the database. */
  datatype Job = Job(
    v: Version, level: nat, inputs0: seq<File>, inputs1: seq<File>,
    input: seq<Entry>, smallestSnapshot: SequenceNumber, newer: set<Entry>)
  {
    ghost predicate Valid() {
      && level + 1 < NUM_LEVELS && LevelOrder(v)
      && Chosen(v, level, inputs0, inputs1)
      && Sorted(input) && Reads.Contents(input) == LevelEntries(inputs0) + LevelEntries(inputs1)
      && Distinct(newer) && Reads.AllNewer(newer, Entries(v))
    }

    /** The level the outputs go to. */
    ghost function Lower(): seq<File>
      requires level + 1 < NUM_LEVELS
    {
      v[level + 1]
    }

    ghost function In(): set<Entry> { Reads.Contents(input) }

    /** What the drop rules keep. */
    ghost function Out(): set<Entry> { Reads.Contents(Kept(v, level, input, smallestSnapshot, |input|)) }

    /** Files of the two levels that stay, and all other levels and memtables. */
    ghost predicate Stays(l: nat, f: File)
      requires l < NUM_LEVELS
    {
      && f in v[l]
      && (l == level ==> f !in inputs0)
      && (l == level + 1 ==> f !in inputs1)
    }

    ghost function Rest(): set<Entry> {
      newer + set l, f, e | 0 <= l < NUM_LEVELS && f in v[l] && Stays(l, f) && e in f.entries :: e
    }

    ghost function Before(): set<Entry> { newer + Entries(v) }

    ghost function After(): set<Entry> { Rest() + Out() }
  }

  // ----------------------------------------------------------------- the sets

  lemma InAndRest(j: Job)
    requires j.Valid()
    ensures j.Before() == j.In() + j.Rest() && j.In() <= Entries(j.v)
  {
    ChosenFromLevels(j);
    forall e | e in Entries(j.v)
      ensures e in j.In() + j.Rest()
    {
      var l, f :| 0 <= l < NUM_LEVELS && f in j.v[l] && e in f.entries;
      if !j.Stays(l, f) {
        assert e in LevelEntries(j.inputs0) + LevelEntries(j.inputs1);
      }
    }
    forall e | e in j.In()
      ensures e in Entries(j.v)
    {
      if e in LevelEntries(j.inputs0) {
        var f :| f in j.inputs0 && e in f.entries;
        assert f in j.v[j.level];
      } else {
        var f :| f in j.inputs1 && e in f.entries;
        assert f in j.v[j.level + 1];
      }
    }
  }

  lemma ChosenFromLevels(j: Job)
    requires j.Valid()
    ensures forall f :: f in j.inputs0 ==> f in j.v[j.level]
    ensures forall f :: f in j.inputs1 ==> f in j.v[j.level + 1]
  {
    hide SortedLevel, LevelZero, Deeper, Startable, NoBoundary, IsSmallest, IsLargest;
    StartableNonempty(j.level, j.v[j.level], j.inputs0);
  }

  /** An entry survives the loop exactly when no rule drops it. */
  lemma {:induction false} KeptExactly(v: Version, level: nat, input: seq<Entry>, s: SequenceNumber, n: nat)
    requires n <= |input|
    ensures forall e :: (e in Kept(v, level, input, s, n)
        <==> exists i :: 0 <= i < n && input[i] == e && !Drops(v, level, input, s, i))
  {
    if n > 0 {
      hide Drops;
      KeptExactly(v, level, input, s, n - 1);
      KeptStep(v, level, input, s, n - 1);
    }
  }

  lemma AfterWithin(j: Job)
    requires j.Valid()
    ensures j.After() <= j.Before() && Distinct(j.Before()) && Distinct(j.After())
  {
    InAndRest(j);
    KeptExactly(j.v, j.level, j.input, j.smallestSnapshot, |j.input|);
    Reads.EntriesDistinct(j.v);
  }

  // ------------------------------------------------ what the choice of files gives

  /** At level 0 the inputs hold every file that shares a user key with one of them. */
  lemma ZeroTakes(files: seq<File>, inputs: seq<File>, h: File, f: File, user: UserKey)
    requires Startable(0, files, inputs) && h in inputs && f in files
    requires Covers(h, user) && Covers(f, user)
    ensures f in inputs
  {
    var b, e :| inputs == Overlapping(files, b, e) && Closed(files, b, e);
  }

  /** A sorted level holds an older entry of a key behind a stretch only if the next file continues that key. */
  lemma RunContinues(files: seq<File>, lo: nat, hi: nat, h: File, f: File, d: Entry, m: Entry)
    requires SortedLevel(files) && lo <= hi <= |files|
    requires h in files[lo..hi] && f in files && f !in files[lo..hi]
    requires d in h.entries && m in f.entries && d.User() == m.User() && m.Sequence() <= d.Sequence()
    ensures lo < hi < |files| && files[hi - 1].largest.user == d.User() == files[hi].smallest.user
  {
    var i :| lo <= i < hi && files[i] == h;
    var k :| 0 <= k < |files| && files[k] == f;
    WithinFile(h, d);
    WithinFile(f, m);
    forall x | lo <= x < hi
      ensures files[x] in files[lo..hi]
    {
      assert files[lo..hi][x - lo] == files[x];
    }
    assert forall x :: 0 <= x < i ==> Before(files[x], files[i]);
    assert hi <= k;
    hide SortedLevel;
    if i < hi - 1 { UserOrdered(files, i, hi - 1); }
    UserOrdered(files, hi - 1, hi);
    if hi < k { UserOrdered(files, hi, k); }
  }

  /** Beside the chosen files of a level, only newer entries of their user keys stay there. */
  lemma UpperStaysNewer(level: nat, files: seq<File>, inputs: seq<File>, h: File, f: File, d: Entry, m: Entry)
    requires if level == 0 then AllValid(files) else SortedLevel(files)
    requires Startable(level, files, inputs) && NoBoundary(files, inputs)
    requires h in inputs && f in files && f !in inputs
    requires d in h.entries && m in f.entries && d.User() == m.User()
    ensures m.Sequence() > d.Sequence()
  {
    hide NoBoundary, Overlapping;
    StartableNonempty(level, files, inputs);
    WithinFile(h, d);
    WithinFile(f, m);
    if level == 0 {
      ZeroTakes(files, inputs, h, f, d.User());
    } else {
      var lo: nat, hi: nat :| IsRun(files, inputs, lo, hi);
      if m.Sequence() <= d.Sequence() {
        RunContinues(files, lo, hi, h, f, d, m);
        NoBoundaryAfter(files, inputs, lo, hi);
      }
    }
  }

  lemma NoBoundaryAfter(files: seq<File>, inputs: seq<File>, lo: nat, hi: nat)
    requires SortedLevel(files) && IsRun(files, inputs, lo, hi) && NoBoundary(files, inputs)
    ensures lo < hi < |files| ==> files[hi - 1].largest.user != files[hi].smallest.user
  {
    if lo < hi < |files| {
      RunLargest(files, lo, hi);
      UserOrdered(files, hi - 1, hi);
      assert files[hi] in files;
    }
  }

  /** No file of the output level that stays shares a user key with the upper inputs. */
  lemma LowerTaken(
      inputs0: seq<File>, s: InternalKey, l: InternalKey, lower: seq<File>, h: File, f: File, d: Entry, m: Entry)
    requires IsSmallest(inputs0, s) && IsLargest(inputs0, l)
    requires h in inputs0 && f in lower && f !in Overlapping(lower, Some(s.user), Some(l.user))
    requires h.Valid() && f.Valid() && d in h.entries && m in f.entries
    ensures d.User() != m.User()
  {
    WithinFile(h, d);
    WithinFile(f, m);
    assert !Less(h.smallest, s) && !Less(l, h.largest);
    assert !Overlaps(f, Some(s.user), Some(l.user));
  }

  /** The lower inputs are a stretch of the output level, and the file after it continues the key it ends with. */
  ghost predicate CutInside(j: Job, user: UserKey)
    requires j.Valid()
  {
    exists lo, hi :: CutAt(j.Lower(), j.inputs1, lo, hi, user)
  }

  ghost predicate CutAt(files: seq<File>, inputs: seq<File>, lo: nat, hi: nat, user: UserKey) {
    && IsRun(files, inputs, lo, hi)
    && lo < hi < |files| && files[hi - 1].largest.user == user == files[hi].smallest.user
  }

  /** Where an entry that stays comes from. */
  lemma RestFile(j: Job, m: Entry) returns (l: nat, f: File)
    requires j.Valid() && m in j.Rest() && m !in j.newer
    ensures l < NUM_LEVELS && f in j.v[l] && j.Stays(l, f) && m in f.entries && f.Valid()
  {
    hide SortedLevel, LevelZero, Deeper, Chosen;
    l, f :| 0 <= l < NUM_LEVELS && f in j.v[l] && j.Stays(l, f) && m in f.entries;
    LevelFacts(j.v, l);
  }

  /** Where an input entry comes from. */
  lemma InFile(j: Job, d: Entry) returns (k: nat, h: File)
    requires j.Valid() && d in j.In()
    ensures (k == j.level && h in j.inputs0) || (k == j.level + 1 && h in j.inputs1)
    ensures h in j.v[k] && d in h.entries && h.Valid()
  {
    hide SortedLevel, LevelZero, Deeper, Chosen;
    ChosenFromLevels(j);
    if d in LevelEntries(j.inputs0) {
      k := j.level;
      h :| h in j.inputs0 && d in h.entries;
    } else {
      k := j.level + 1;
      h :| h in j.inputs1 && d in h.entries;
    }
    LevelFacts(j.v, k);
  }

  lemma NotNewer(j: Job, d: Entry, m: Entry)
    requires j.Valid() && d in j.In() && d.User() == m.User() && m.Sequence() <= d.Sequence()
    ensures m !in j.newer
  {
    hide SortedLevel, LevelZero, Deeper, Chosen;
    var k, h := InFile(j, d);
  }

  /** An older entry that stays lies deeper, or behind a cut inside its user key. */
  lemma OlderStays(j: Job, d: Entry, m: Entry)
    requires j.Valid() && d in j.In() && m in j.Rest()
    requires d.User() == m.User() && m.Sequence() <= d.Sequence()
    ensures !NothingDeeper(j.v, j.level, d.User()) || CutInside(j, d.User())
  {
    hide SortedLevel, LevelZero, Deeper, Startable, NoBoundary, IsSmallest, IsLargest;
    NotNewer(j, d, m);
    var l, f := RestFile(j, m);
    var k, h := InFile(j, d);
    WithinFile(f, m);
    if l < k {
      Reads.LevelsDiffer(j.v, l, k, f, h, m, d);
    } else if l <= j.level + 1 {
      OlderBeside(j, d, m, k, h, l, f);
    }
  }

  /** The same, for an entry that stays at a level of the inputs. */
  lemma OlderBeside(j: Job, d: Entry, m: Entry, k: nat, h: File, l: nat, f: File)
    requires j.Valid() && k <= l <= j.level + 1
    requires (k == j.level && h in j.inputs0) || (k == j.level + 1 && h in j.inputs1)
    requires h in j.v[k] && d in h.entries && h.Valid()
    requires f in j.v[l] && j.Stays(l, f) && m in f.entries && f.Valid()
    requires d.User() == m.User() && m.Sequence() <= d.Sequence()
    ensures CutInside(j, d.User())
  {
    hide SortedLevel, LevelZero, Deeper, Startable, NoBoundary, IsSmallest, IsLargest;
    LevelFacts(j.v, l);
    var s, g :| IsSmallest(j.inputs0, s) && IsLargest(j.inputs0, g)
      && j.inputs1 == Overlapping(j.v[j.level + 1], Some(s.user), Some(g.user));
    if k == j.level && l == k {
      UpperStaysNewer(l, j.v[l], j.inputs0, h, f, d, m);
    } else if k == j.level {
      LowerTaken(j.inputs0, s, g, j.v[l], h, f, d, m);
    } else {
      var lo, hi := OverlappingIsRun(j.v[l], Some(s.user), Some(g.user));
      RunContinues(j.v[l], lo, hi, h, f, d, m);
      assert CutAt(j.Lower(), j.inputs1, lo, hi, d.User());
    }
  }

  /** The same entry is never both an input and elsewhere. */
  lemma InRestDisjoint(j: Job, d: Entry)
    requires j.Valid() && d in j.In()
    ensures d !in j.Rest()
  {
    hide SortedLevel, LevelZero, Deeper, Chosen;
    NotNewer(j, d, d);
    if d in j.Rest() {
      var l, f := RestFile(j, d);
      var k, h := InFile(j, d);
      LevelFacts(j.v, l);
      if l < k {
        Reads.LevelsDiffer(j.v, l, k, f, h, d, d);
      } else if k < l {
        Reads.LevelsDiffer(j.v, k, l, h, f, d, d);
      } else {
        Reads.DifferentFiles(j.v[k], f, h, d, d);
      }
    }
  }

  // ----------------------------------------------------------- what is dropped

  /** An input entry that is newest for some snapshot is dropped only as an obsolete marker. */
  lemma DroppedNewest(j: Job, user: UserKey, snapshot: SequenceNumber, e: Entry) returns (i: nat)
    requires j.Valid() && snapshot >= j.smallestSnapshot
    requires Newest(j.Before(), user, snapshot, e) && e !in j.After()
    ensures i < |j.input| && j.input[i] == e
    ensures ObsoleteMarker(j.v, j.level, j.input, j.smallestSnapshot, i)
  {
    hide SortedLevel, LevelZero, Deeper, Chosen, LevelOrder, ObsoleteMarker, Kept;
    InAndRest(j);
    KeptExactly(j.v, j.level, j.input, j.smallestSnapshot, |j.input|);
    i :| 0 <= i < |j.input| && j.input[i] == e;
    assert Drops(j.v, j.level, j.input, j.smallestSnapshot, i);
    if i > 0 {
      assert j.input[i - 1] in j.In();
      assert Precedes(j.input[i - 1].key, j.input[i].key);
    }
  }

  lemma NewerFirst(input: seq<Entry>, i: nat, k: nat)
    requires Sorted(input) && i < |input| && k < |input|
    requires input[i].User() == input[k].User() && input[k].Sequence() < input[i].Sequence()
    ensures i < k
  {}

  lemma OnePlace(input: seq<Entry>, i: nat, k: nat)
    requires Sorted(input) && i < |input| && k < |input| && input[i] == input[k]
    ensures i == k
  {}

  /** Once an entry of a user key is visible to every snapshot, all older input entries of the key go. */
  lemma OlderAreHidden(j: Job, i: nat, x: Entry)
    requires j.Valid() && i < |j.input| && x in j.In()
    requires j.input[i].User() == x.User() && j.input[i].Sequence() <= j.smallestSnapshot
    requires x.Sequence() < j.input[i].Sequence()
    ensures x !in Kept(j.v, j.level, j.input, j.smallestSnapshot, |j.input|)
  {
    hide SortedLevel, LevelZero, Deeper, Chosen, LevelOrder, ObsoleteMarker, Kept;
    KeptExactly(j.v, j.level, j.input, j.smallestSnapshot, |j.input|);
    forall k | 0 <= k < |j.input| && j.input[k] == x
      ensures Hidden(j.input, j.smallestSnapshot, k)
    {
      NewerFirst(j.input, i, k);
      assert Precedes(j.input[k - 1].key, j.input[k].key);
      assert i == k - 1 || Precedes(j.input[i].key, j.input[k - 1].key);
    }
  }

  /** A dropped marker is in no output and nowhere else. */
  lemma MarkerGone(j: Job, i: nat)
    requires j.Valid() && i < |j.input| && ObsoleteMarker(j.v, j.level, j.input, j.smallestSnapshot, i)
    ensures j.input[i] !in j.After()
  {
    hide SortedLevel, LevelZero, Deeper, Chosen, LevelOrder, ObsoleteMarker, Kept;
    InRestDisjoint(j, j.input[i]);
    KeptExactly(j.v, j.level, j.input, j.smallestSnapshot, |j.input|);
    forall k | 0 <= k < |j.input| && j.input[k] == j.input[i]
      ensures k == i
    {
      OnePlace(j.input, i, k);
    }
  }

  // ---------------------------------------------------------- the one bad case

  /**
   * Compaction uncovers an older value of `user`: the newest entry at the oldest snapshot is a
   * deletion marker in the inputs with nothing deeper, and the next older entry left outside is a value.
   */
  ghost predicate Resurrects(j: Job, user: UserKey)
    requires j.Valid()
  {
    exists i, m :: 0 <= i < |j.input| && ResurrectsFor(j, user, i, m)
  }

  ghost predicate ResurrectsFor(j: Job, user: UserKey, i: nat, m: Entry)
    requires j.Valid() && i < |j.input|
  {
    && ObsoleteMarker(j.v, j.level, j.input, j.smallestSnapshot, i)
    && Newest(j.Before(), user, j.smallestSnapshot, j.input[i])
    && Newest(j.Rest(), user, j.input[i].Sequence(), m)
    && m.Kind().Value?
  }

  lemma OneValue(db: set<Entry>, user: UserKey, snapshot: SequenceNumber, e: Entry)
    requires Distinct(db) && Newest(db, user, snapshot, e)
    ensures forall value ::
      Keys.Reads(db, user, snapshot, value) <==> value == if e.Kind().Value? then Some(e.value) else None
  {
    forall x | Newest(db, user, snapshot, x)
      ensures x == e
    {}
  }

  lemma NoValue(db: set<Entry>, user: UserKey, snapshot: SequenceNumber)
    requires forall e :: Newest(db, user, snapshot, e) ==> e.Kind().Deletion?
    ensures forall value :: Keys.Reads(db, user, snapshot, value) <==> value == None
  {}

  /** What a dropped marker uncovers is another marker, unless it resurrects. */
  lemma UncoveredIsMarker(j: Job, user: UserKey, snapshot: SequenceNumber, i: nat, x: Entry)
    requires j.Valid() && snapshot >= j.smallestSnapshot && i < |j.input| && !Resurrects(j, user)
    requires Newest(j.Before(), user, snapshot, j.input[i])
    requires ObsoleteMarker(j.v, j.level, j.input, j.smallestSnapshot, i)
    requires Newest(j.After(), user, snapshot, x)
    ensures x.Kind().Deletion?
  {
    AfterWithin(j);
    MarkerGone(j, i);
    hide Job.Valid, Kept;
    assert j.input[i].Sequence() <= j.smallestSnapshot;
    if x in j.Rest() {
      assert ResurrectsFor(j, user, i, x) || x.Kind().Deletion?;
    } else {
      InAndRest(j);
      OlderAreHidden(j, i, x);
    }
  }

  lemma UnchangedUnlessResurrected(j: Job, user: UserKey, snapshot: SequenceNumber)
    requires j.Valid() && snapshot >= j.smallestSnapshot && !Resurrects(j, user)
    ensures SameReads(j.Before(), j.After(), user, snapshot)
  {
    hide Job.Valid, Job.Before, Job.After, Resurrects, ObsoleteMarker;
    AfterWithin(j);
    if e :| Newest(j.Before(), user, snapshot, e) {
      OneValue(j.Before(), user, snapshot, e);
      if e in j.After() {
        assert Newest(j.After(), user, snapshot, e);
        OneValue(j.After(), user, snapshot, e);
      } else {
        var i := DroppedNewest(j, user, snapshot, e);
        assert e.Kind().Deletion? by { MarkerIsDeletion(j, i); }
        forall x | Newest(j.After(), user, snapshot, x)
          ensures x.Kind().Deletion?
        {
          UncoveredIsMarker(j, user, snapshot, i, x);
        }
        NoValue(j.After(), user, snapshot);
      }
    } else {
      NothingVisible(j, user, snapshot);
      NoValue(j.Before(), user, snapshot);
      NoValue(j.After(), user, snapshot);
    }
  }

  lemma MarkerIsDeletion(j: Job, i: nat)
    requires i < |j.input| && ObsoleteMarker(j.v, j.level, j.input, j.smallestSnapshot, i)
    ensures j.input[i].Kind().Deletion? && j.input[i].Sequence() <= j.smallestSnapshot
  {}

  lemma NothingVisible(j: Job, user: UserKey, snapshot: SequenceNumber)
    requires j.After() <= j.Before() && forall e :: !Newest(j.Before(), user, snapshot, e)
    ensures forall e :: !Newest(j.After(), user, snapshot, e)
  {
    hide Job.Before, Job.After;
    forall e | e in j.Before() && Visible(e, user, snapshot)
      ensures false
    {
      var n := NewestExists(j.Before(), user, snapshot, e);
    }
  }

  /** With the marker gone, the older value is the newest entry left. */
  lemma NewestLeft(j: Job, user: UserKey, i: nat, m: Entry)
    requires j.Valid() && i < |j.input| && ResurrectsFor(j, user, i, m)
    ensures Newest(j.After(), user, j.smallestSnapshot, m)
  {
    hide Job.Valid, Kept, ObsoleteMarker;
    AfterWithin(j);
    InAndRest(j);
    MarkerGone(j, i);
    forall x | x in j.After() && Visible(x, user, j.smallestSnapshot)
      ensures x.Sequence() <= m.Sequence()
    {
      if x !in j.Rest() && x.Sequence() < j.input[i].Sequence() {
        OlderAreHidden(j, i, x);
      }
    }
  }

  lemma ResurrectedChanges(j: Job, user: UserKey)
    requires j.Valid() && Resurrects(j, user)
    ensures !SameReads(j.Before(), j.After(), user, j.smallestSnapshot)
  {
    hide Job.Valid, Job.Before, Job.After, Resurrects, Newest, SameReads, Distinct;
    var d, m := Uncovered(j, user);
    DifferentReads(j.Before(), j.After(), user, j.smallestSnapshot, d, m);
  }

  /** The marker a reader sees before, and the value it sees after. */
  lemma Uncovered(j: Job, user: UserKey) returns (d: Entry, m: Entry)
    requires j.Valid() && Resurrects(j, user)
    ensures Newest(j.Before(), user, j.smallestSnapshot, d) && d.Kind().Deletion?
    ensures Newest(j.After(), user, j.smallestSnapshot, m) && m.Kind().Value?
    ensures Distinct(j.Before()) && Distinct(j.After())
  {
    hide Kept, ObsoleteMarker;
    var i :| 0 <= i < |j.input| && exists m :: ResurrectsFor(j, user, i, m);
    m :| ResurrectsFor(j, user, i, m);
    d := j.input[i];
    NewestLeft(j, user, i, m);
    MarkerIsDeletion(j, i);
    AfterWithin(j);
  }

  lemma DifferentReads(a: set<Entry>, b: set<Entry>, user: UserKey, snapshot: SequenceNumber, d: Entry, m: Entry)
    requires Newest(a, user, snapshot, d) && d.Kind().Deletion?
    requires Newest(b, user, snapshot, m) && m.Kind().Value?
    requires Distinct(a) && Distinct(b)
    ensures !SameReads(a, b, user, snapshot)
  {
    OneValue(a, user, snapshot, d);
    OneValue(b, user, snapshot, m);
    assert Keys.Reads(b, user, snapshot, Some(m.value));
  }

  /**
   * No snapshot at or above the oldest can tell that the compaction happened, exactly when it
   * uncovers no older value.
   */
  lemma CompactionIsInvisible(j: Job)
    requires j.Valid()
    ensures SameFrom(j.Before(), j.After(), j.smallestSnapshot) <==> forall user :: !Resurrects(j, user)
  {
    hide Job.Valid, Job.Before, Job.After, Resurrects, SameReads;
    if forall user :: !Resurrects(j, user) {
      forall user, snapshot: SequenceNumber | snapshot >= j.smallestSnapshot
        ensures SameReads(j.Before(), j.After(), user, snapshot)
      {
        UnchangedUnlessResurrected(j, user, snapshot);
      }
    } else {
      var user :| Resurrects(j, user);
      ResurrectedChanges(j, user);
    }
  }

  /** It can only happen to the user key at which the lower inputs were cut off. */
  lemma ResurrectionNeedsCut(j: Job, user: UserKey)
    requires j.Valid() && Resurrects(j, user)
    ensures CutInside(j, user)
  {
    hide Job.Valid, Job.Before, Job.Rest, CutInside;
    var i, m :| 0 <= i < |j.input| && ResurrectsFor(j, user, i, m);
    assert j.input[i] in j.In();
    OlderStays(j, j.input[i], m);
  }

  /** Closing the lower inputs under boundary files, as the upper ones are, would make every compaction invisible. */
  lemma InvisibleWithoutCut(j: Job)
    requires j.Valid() && NoBoundary(j.Lower(), j.inputs1)
    ensures SameFrom(j.Before(), j.After(), j.smallestSnapshot)
  {
    hide Job.Valid, Job.Before, Job.After, Resurrects, SameFrom, NoBoundary;
    forall user
      ensures !Resurrects(j, user)
    {
      NoCut(j, user);
      if Resurrects(j, user) {
        ResurrectionNeedsCut(j, user);
      }
    }
    CompactionIsInvisible(j);
  }

  lemma NoCut(j: Job, user: UserKey)
    requires j.Valid() && NoBoundary(j.Lower(), j.inputs1)
    ensures !CutInside(j, user)
  {
    hide NoBoundary, Chosen;
    forall lo: nat, hi: nat | IsRun(j.Lower(), j.inputs1, lo, hi)
      ensures !CutAt(j.Lower(), j.inputs1, lo, hi, user)
    {
      NoBoundaryAfter(j.Lower(), j.inputs1, lo, hi);
    }
  }
}
