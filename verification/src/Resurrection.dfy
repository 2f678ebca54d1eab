/** A reachable state in which one more compaction brings a deleted key back. */
module Resurrection {
  import opened Bytes
  import opened Keys
  import opened Versions
  import opened Inputs
  import opened Compactions
  import opened Invisibility
  import opened Install
  import opened Flush
  import opened Lsm
  import Reads

  // Key 2.0 is written, then deleted under a live snapshot; key 1.0 is written twice.
  const OLD := Entry(InternalKey(2.0, 1, Value), [7])
  const MARKER := Entry(InternalKey(2.0, 2, Deletion), [])
  const FIRST := Entry(InternalKey(1.0, 3, Value), [8])
  const SECOND := Entry(InternalKey(1.0, 4, Value), [9])

  const WHOLE := FileFor(1, 10, [FIRST, MARKER, OLD])
  // A compaction cuts its output between the two entries of key 2.0.
  const LEFT := FileFor(2, 7, [FIRST, MARKER])
  const RIGHT := FileFor(3, 3, [OLD])
  const LATER := FileFor(4, 4, [SECOND])

  function Levels(two: seq<File>, three: seq<File>): Version {
    [[], [], two, three, [], [], []]
  }

  function State(i: nat): Database
    requires i <= 10
  {
    match i
    case 0 => Database([], [], Levels([], []), 0, [], 1)
    case 1 => Database([OLD], [], Levels([], []), 1, [], 1)
    case 2 => Database([OLD], [], Levels([], []), 1, [1], 1)
    case 3 => Database([FIRST, MARKER, OLD], [], Levels([], []), 3, [1], 1)
    case 4 => Database([], [FIRST, MARKER, OLD], Levels([], []), 3, [1], 1)
    case 5 => Database([], [], Levels([WHOLE], []), 3, [1], 2)
    case 6 => Database([], [], Levels([], [LEFT, RIGHT]), 3, [1], 4)
    case 7 => Database([], [], Levels([], [LEFT, RIGHT]), 3, [], 4)
    case 8 => Database([SECOND], [], Levels([], [LEFT, RIGHT]), 4, [], 4)
    case 9 => Database([], [SECOND], Levels([], [LEFT, RIGHT]), 4, [], 4)
    case _ => Database([], [], Levels([LATER], [LEFT, RIGHT]), 4, [], 5)
  }

  function SplitJob(): Job {
    Job(Levels([WHOLE], []), 2, [WHOLE], [], [FIRST, MARKER, OLD], 1, {})
  }

  function LastJob(): Job {
    Job(Levels([LATER], [LEFT, RIGHT]), 2, [LATER], [LEFT], [SECOND, FIRST, MARKER], 4, {})
  }

  function ActionAt(i: nat): Action
    requires i < 10
  {
    match i
    case 0 => Write([OLD])
    case 1 => TakeSnapshot
    case 2 => Write([MARKER, FIRST])
    case 3 => SwitchMemtable
    case 4 => FlushMemtable(WHOLE, 2)
    case 5 => Compact(SplitJob(), [LEFT, RIGHT])
    case 6 => ReleaseSnapshot(0)
    case 7 => Write([SECOND])
    case 8 => SwitchMemtable
    case _ => FlushMemtable(LATER, 2)
  }

  lemma EarlySteps()
    ensures Step(State(0), ActionAt(0), State(1))
    ensures Step(State(1), ActionAt(1), State(2))
    ensures Step(State(2), ActionAt(2), State(3))
    ensures Step(State(3), ActionAt(3), State(4))
  {
    assert Reads.Contents([FIRST, MARKER, OLD]) == Reads.Contents([OLD]) + Reads.Contents([MARKER, FIRST]);
  }

  lemma FirstFlush()
    ensures Step(State(4), ActionAt(4), State(5))
  {}

  lemma LateSteps()
    ensures Step(State(6), ActionAt(6), State(7))
    ensures Step(State(7), ActionAt(7), State(8))
  {
    assert [1][..0] + [1][1..] == [];
  }

  lemma LastSteps()
    ensures Step(State(8), ActionAt(8), State(9))
    ensures Step(State(9), ActionAt(9), State(10))
  {}

  lemma LevelsOrdered(two: seq<File>, three: seq<File>)
    requires SortedLevel(two) && SortedLevel(three) && Deeper(two, three)
    ensures LevelOrder(Levels(two, three))
  {}

  lemma OneFile(f: File)
    requires f.Valid()
    ensures SortedLevel([f]) && SortedLevel([]) && Deeper([f], []) && Deeper([], [f])
    ensures LevelEntries([f]) == Reads.Contents(f.entries) && LevelEntries([]) == {}
  {
    assert f in [f];
    assert forall e :: e in f.entries ==> e in LevelEntries([f]);
  }

  lemma SplitJobValid()
    ensures SplitJob().Valid()
  {
    hide LevelOrder, Chosen, SortedLevel, Deeper;
    Files();
    OneFile(WHOLE);
    LevelsOrdered([WHOLE], []);
    OneFileChosen(Levels([WHOLE], []), WHOLE, []);
  }

  lemma Files()
    ensures WHOLE.Valid() && LEFT.Valid() && RIGHT.Valid() && LATER.Valid()
    ensures Overlapping([], Some(1.0), Some(2.0)) == []
  {}

  /** A single file with no file of its level beside it may always be compacted. */
  lemma OneFileChosen(v: Version, f: File, lower: seq<File>)
    requires LevelOrder(v) && v[2] == [f] && lower == Overlapping(v[3], Some(f.smallest.user), Some(f.largest.user))
    ensures Chosen(v, 2, [f], lower)
  {
    assert f in v[2] && f in [f];
    assert IsRun(v[2], [f], 0, 1);
    FirstAndLast(f);
    assert IsSmallest([f], f.smallest) && IsLargest([f], f.largest);
  }

  lemma SplitKeepsAll()
    ensures var j := SplitJob(); Kept(j.v, j.level, j.input, j.smallestSnapshot, |j.input|) == [FIRST, MARKER, OLD]
  {
    var j := SplitJob();
    KeptStep(j.v, j.level, j.input, j.smallestSnapshot, 0);
    KeptStep(j.v, j.level, j.input, j.smallestSnapshot, 1);
    KeptStep(j.v, j.level, j.input, j.smallestSnapshot, 2);
    hide Kept, NothingDeeper;
    assert Kept(j.v, j.level, j.input, j.smallestSnapshot, 0) == [] by { Nothing(j.v, j.level, j.input, j.smallestSnapshot); }
    assert [FIRST] + [MARKER] == [FIRST, MARKER] && [FIRST, MARKER] + [OLD] == [FIRST, MARKER, OLD];
  }

  lemma SplitStep()
    ensures Step(State(5), ActionAt(5), State(6))
  {
    hide Job.Valid, Kept, Installed, Flatten, AllValid, Numbered, ForDatabase;
    SplitJobValid();
    SplitKeepsAll();
    SplitInstalled();
    SplitOutputs();
    SplitForDatabase();
  }

  lemma SplitForDatabase()
    ensures ForDatabase(SplitJob(), State(5))
  {
    hide Job.Valid;
    SplitJobValid();
  }

  lemma SplitOutputs()
    ensures AllValid([LEFT, RIGHT]) && Numbered([LEFT, RIGHT], State(5).nextFile)
    ensures Flatten([LEFT, RIGHT]) == [FIRST, MARKER, OLD]
  {
    Files();
    FlattenAppend([], LEFT);
    FlattenAppend([LEFT], RIGHT);
    assert [] + [LEFT] == [LEFT] && [LEFT] + [RIGHT] == [LEFT, RIGHT];
    assert [] + [FIRST, MARKER] + [OLD] == [FIRST, MARKER, OLD];
  }

  lemma SplitInstalled()
    requires SplitJob().Valid()
    ensures Installed(SplitJob(), [LEFT, RIGHT], State(6).v)
  {
    hide Job.Valid;
    assert LEFT in [LEFT, RIGHT] && RIGHT in [LEFT, RIGHT];
  }

  lemma LastJobValid()
    ensures LastJob().Valid()
  {
    hide LevelOrder, Chosen, SortedLevel, Deeper, File.Valid;
    Files();
    OneFile(LATER);
    OneFile(LEFT);
    TwoFiles();
    LevelsOrdered([LATER], [LEFT, RIGHT]);
    OneFileChosen(Levels([LATER], [LEFT, RIGHT]), LATER, [LEFT]);
    assert Reads.Contents([SECOND, FIRST, MARKER]) == Reads.Contents([SECOND]) + Reads.Contents([FIRST, MARKER]);
  }

  lemma TwoFiles()
    ensures SortedLevel([LEFT, RIGHT]) && Deeper([LATER], [LEFT, RIGHT])
    ensures Overlapping([LEFT, RIGHT], Some(1.0), Some(1.0)) == [LEFT]
  {
    Files();
    ScanStart([LEFT, RIGHT], Some(1.0), Some(1.0));
    FilterStep([LEFT, RIGHT], Some(1.0), Some(1.0), 0);
    FilterStep([LEFT, RIGHT], Some(1.0), Some(1.0), 1);
    assert [LEFT, RIGHT][..2] == [LEFT, RIGHT];
  }

  lemma LastJobResurrects()
    requires LastJob().Valid()
    ensures Resurrects(LastJob(), 2.0)
  {
    hide Job.Valid;
    var j := LastJob();
    LastEntries(j);
    assert j.input[2] == MARKER;
    assert ObsoleteMarker(j.v, j.level, j.input, j.smallestSnapshot, 2);
    assert ResurrectsFor(j, 2.0, 2, OLD);
  }

  lemma LastEntries(j: Job)
    requires j == LastJob()
    ensures j.Before() == {SECOND, FIRST, MARKER, OLD} && j.Rest() == {OLD}
  {
    assert LATER in j.v[2] && LEFT in j.v[3] && RIGHT in j.v[3];
    assert SECOND in LATER.entries && FIRST in LEFT.entries && MARKER in LEFT.entries && OLD in RIGHT.entries;
    assert j.Stays(3, RIGHT);
  }

  /**
   * A run of writes, flushes and one output cut inside a user key leads to a state where the next
   * compaction returns a deleted value to every reader.
   */
  lemma CompactionCanResurrect() returns (states: seq<Database>, actions: seq<Action>)
    ensures Run(states, actions) && Empty(states[0]) && forall a :: a in actions ==> !Uncovers(a)
    ensures ForDatabase(LastJob(), states[|actions|]) && Resurrects(LastJob(), 2.0)
    ensures !SameReads(LastJob().Before(), LastJob().After(), 2.0, LastJob().smallestSnapshot)
  {
    hide Step, Job.Valid, Resurrects, Uncovers;
    EarlySteps();
    FirstFlush();
    SplitStep();
    LateSteps();
    LastSteps();
    actions := seq(10, i requires 0 <= i < 10 => ActionAt(i));
    states := seq(11, i requires 0 <= i < 11 => State(i));
    forall i | 0 <= i < 10
      ensures Step(states[i], actions[i], states[i + 1]) && !Uncovers(actions[i])
    {
      StepNumber(i);
    }
    LastJobValid();
    LastJobResurrects();
    ResurrectedChanges(LastJob(), 2.0);
    LastIsForDatabase();
  }

  lemma LastIsForDatabase()
    requires LastJob().Valid()
    ensures ForDatabase(LastJob(), State(10))
  {
    hide Job.Valid;
  }

  lemma StepNumber(i: nat)
    requires i < 10
    ensures Step(State(i), ActionAt(i), State(i + 1)) && !Uncovers(ActionAt(i))
  {
    hide Step, Job.Valid, Resurrects;
    EarlySteps();
    FirstFlush();
    SplitStep();
    LateSteps();
    LastSteps();
    SplitJobValid();
    forall user
      ensures !Resurrects(SplitJob(), user)
    {
      SplitIsClean(user);
    }
  }

  lemma SplitIsClean(user: UserKey)
    requires SplitJob().Valid()
    ensures !Resurrects(SplitJob(), user)
  {
    hide Job.Valid;
    assert forall i :: 0 <= i < 3 ==> !ObsoleteMarker(SplitJob().v, 2, SplitJob().input, 1, i);
  }
}
