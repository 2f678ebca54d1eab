/** Crashes and recoveries of the log-structured merge tree: what readers see over runs that lose the memory. */
module LsmRecovery {
  import opened Bytes
  import opened Keys
  import opened Versions
  import opened Inputs
  import opened Compactions
  import opened Invisibility
  import opened Install
  import opened Flush
  import opened Lsm
  import Reads

  /** The database with the last sequence number of its manifest, as every new version records it. */
  datatype Durable = Durable(db: Database, recorded: SequenceNumber) {
    /** What only the logs hold besides the memory. */
    ghost function Fresh(): set<Entry> { Reads.Contents(db.mem) + Reads.Contents(db.imm) }
  }

  /** A step of the running database, or a crash that takes `lost` and the recovery of the rest to level 0. */
  datatype Event = Running(a: Action) | Recovery(lost: set<Entry>, files: seq<File>)

  ghost predicate StepOrRecovery(s: Durable, e: Event, t: Durable) {
    match e
    case Running(a) =>
      && Step(s.db, a, t.db)
      && t.recorded == if InstallsVersion(a) then s.db.lastSequence else s.recorded
    case Recovery(lost, files) => Recovers(s, lost, files, t)
  }

  predicate InstallsVersion(a: Action) { a.FlushMemtable? || a.Compact? || a.Move? }

  ghost predicate Earlier(a: set<Entry>, b: set<Entry>) {
    forall d, e :: d in a && e in b ==> d.Sequence() < e.Sequence()
  }

  ghost predicate AtMost(db: set<Entry>, n: nat) {
    forall e :: e in db ==> e.Sequence() <= n
  }

  /** RecoverLogFile over all logs: the memtables it fills, in order, each written to a level-0 table. */
  ghost predicate RecoveredTables(v: Version, kept: set<Entry>, files: seq<File>) {
    && AllValid(files) && LevelEntries(files) == kept
    && (forall f, k :: f in v[0] && 0 <= k < |files| ==> f.number < files[k].number)
    && forall i, k :: 0 <= i < k < |files| ==>
         files[i].number < files[k].number && Earlier(Reads.Contents(files[i].entries), Reads.Contents(files[k].entries))
  }

  /** DBImpl::Recover: empty memtables, no snapshots, and the largest sequence number it has read. */
  ghost predicate Recovers(s: Durable, lost: set<Entry>, files: seq<File>, t: Durable) {
    var kept := s.Fresh() - lost;
    && lost <= s.Fresh() && RecoveredTables(s.db.v, kept, files)
    && LevelChanged(s.db.v[0], t.db.v[0], [], files)
    && (forall l :: 1 <= l < NUM_LEVELS ==> t.db.v[l] == s.db.v[l])
    && t.db == Database([], [], t.db.v, t.db.lastSequence, [], t.db.nextFile)
    && (forall f :: f in t.db.v[0] ==> f.number < t.db.nextFile)
    && t.recorded == t.db.lastSequence >= s.recorded && AtMost(kept, t.db.lastSequence)
    && (t.db.lastSequence == s.recorded || exists e :: e in kept && e.Sequence() == t.db.lastSequence)
  }

  /** What was written and not lost, from the events alone. */
  ghost function Surviving(events: seq<Event>): set<Entry> {
    if events == [] then {}
    else After(Surviving(events[..|events| - 1]), events[|events| - 1])
  }

  ghost function After(history: set<Entry>, e: Event): set<Entry> {
    match e
    case Running(a) => history + Reads.Contents(Written(a))
    case Recovery(lost, _) => history - lost
  }

  ghost predicate ValidWithoutNewer(j: Job) { j.Valid() && j.(newer := {}).Valid() }

  /** The compaction uncovers an older value in the tables, which a crash may bare even if the memory hides it now. */
  ghost predicate UncoversInTables(e: Event) {
    && e.Running? && e.a.Compact? && ValidWithoutNewer(e.a.job)
    && exists user :: Resurrects(e.a.job.(newer := {}), user)
  }

  // ---------------------------------------------------------------- invariant

  /** The rest of the history is what the tables stand for. */
  ghost function Settled(s: Durable, history: set<Entry>): set<Entry> { history - s.Fresh() }

  ghost predicate Intact(s: Durable, history: set<Entry>) {
    && Consistent(s.db) && Distinct(history) && AtMost(history, s.db.lastSequence)
    && s.Fresh() <= history && Entries(s.db.v) <= Settled(s, history)
    && Earlier(Reads.Contents(s.db.imm), Reads.Contents(s.db.mem)) && Earlier(Settled(s, history), s.Fresh())
    && AtMost(Settled(s, history), s.recorded) && s.recorded <= s.db.lastSequence
    && SameFrom(Entries(s.db.v), Settled(s, history), s.db.Oldest())
  }

  lemma EarlierIsNewer(a: set<Entry>, b: set<Entry>)
    requires Earlier(a, b)
    ensures Reads.AllNewer(b, a)
  {}

  /** Newer entries on both sides keep two databases alike. */
  lemma SameWithNewer(a: set<Entry>, b: set<Entry>, newer: set<Entry>, oldest: SequenceNumber)
    requires SameFrom(a, b, oldest) && Reads.AllNewer(newer, a) && Reads.AllNewer(newer, b)
    ensures SameFrom(a + newer, b + newer, oldest)
  {
    hide SameReads, Reads.AllNewer;
    forall user, snapshot: SequenceNumber | snapshot >= oldest
      ensures SameReads(a + newer, b + newer, user, snapshot)
    {
      SameReadsAfterWrite(a, b, newer, user, snapshot);
    }
  }

  /** Such a database serves every live reader from the history that survived. */
  lemma IntactIsFaithful(s: Durable, history: set<Entry>)
    requires Intact(s, history)
    ensures Faithful(s.db, history)
  {
    var settled := Settled(s, history);
    EarlierIsNewer(settled, s.Fresh());
    hide SameFrom, LevelOrder, Entries, Earlier, Distinct, Reads.Layered;
    NewerThanPart(s.Fresh(), Entries(s.db.v), settled);
    SameWithNewer(Entries(s.db.v), settled, s.Fresh(), s.db.Oldest());
    assert s.db.Everything() == Entries(s.db.v) + s.Fresh();
    assert history == settled + s.Fresh();
  }

  lemma NewerThanPart(newer: set<Entry>, part: set<Entry>, all: set<Entry>)
    requires Reads.AllNewer(newer, all) && part <= all
    ensures Reads.AllNewer(newer, part)
  {}

  // -------------------------------------------------------------------- steps

  lemma WriteIntact(s: Durable, e: Event, t: Durable, history: set<Entry>)
    requires Intact(s, history) && StepOrRecovery(s, e, t) && e.Running? && e.a.Write?
    ensures Intact(t, After(history, e))
  {
    IntactIsFaithful(s, history);
    WriteStep(s.db, e.a.added, t.db, history);
    var added := Reads.Contents(e.a.added);
    FreshIsNewer(s.db, e.a.added, history);
    OldestRises(s.db.snapshots, s.db.lastSequence, t.db.lastSequence);
    hide SameFrom, LevelOrder, Entries, Reads.Layered, Distinct;
    assert t.Fresh() == s.Fresh() + added && history !! added;
    assert Settled(t, history + added) == Settled(s, history);
    SameFromLater(Entries(s.db.v), Settled(s, history), s.db.Oldest(), t.db.Oldest());
  }

  lemma SwitchIntact(s: Durable, e: Event, t: Durable, history: set<Entry>)
    requires Intact(s, history) && StepOrRecovery(s, e, t) && e.Running? && e.a.SwitchMemtable?
    ensures Intact(t, After(history, e))
  {
    IntactIsFaithful(s, history);
    SwitchStep(s.db, t.db, history);
    hide SameFrom, LevelOrder, Entries, Reads.Layered, Distinct;
    assert t.Fresh() == s.Fresh();
    assert After(history, e) == history;
  }

  /** Entries that move from the memory to the tables. */
  lemma MovedDown(s: Durable, t: Durable, history: set<Entry>, moved: set<Entry>)
    requires Intact(s, history) && Consistent(t.db)
    requires t.db.lastSequence == s.db.lastSequence && t.db.snapshots == s.db.snapshots && t.db.imm == []
    requires t.db.mem == s.db.mem && moved == Reads.Contents(s.db.imm)
    requires Entries(t.db.v) == moved + Entries(s.db.v) && t.recorded == s.db.lastSequence
    ensures Intact(t, history)
  {
    var settled := Settled(s, history);
    hide LevelOrder, Entries, Reads.Layered, Distinct, SameFrom;
    NoOverlap(s, history);
    assert Settled(t, history) == settled + moved;
    assert Earlier(settled, moved);
    EarlierIsNewer(settled, moved);
    NewerThanPart(moved, Entries(s.db.v), settled);
    SameWithNewer(Entries(s.db.v), settled, moved, s.db.Oldest());
    assert Entries(t.db.v) == Entries(s.db.v) + moved;
  }

  lemma NoOverlap(s: Durable, history: set<Entry>)
    requires Intact(s, history)
    ensures Reads.Contents(s.db.imm) !! Reads.Contents(s.db.mem) && s.Fresh() !! Settled(s, history)
  {}

  lemma FlushIntact(s: Durable, e: Event, t: Durable, history: set<Entry>)
    requires Intact(s, history) && StepOrRecovery(s, e, t) && e.Running? && e.a.FlushMemtable?
    ensures Intact(t, After(history, e))
  {
    IntactIsFaithful(s, history);
    FlushStep(s.db, e.a.file, e.a.level, t.db, history);
    FlushEntries(s.db, e.a, t.db);
    assert After(history, e) == history;
    MovedDown(s, t, history, Reads.Contents(s.db.imm));
  }

  lemma FlushEntries(s: Database, a: Action, t: Database)
    requires Consistent(s) && Step(s, a, t) && a.FlushMemtable?
    ensures Entries(t.v) == Reads.Contents(s.imm) + Entries(s.v)
  {
    hide LevelOrder, SameFrom, SomeOverlap, InOrder;
    if s.imm != [] {
      FlushKeepsOrder(s.v, a.file, a.level, t.v);
    }
  }

  /** Without what is newer a compaction is the same, but judged by the tables alone. */
  lemma CompactIntact(s: Durable, e: Event, t: Durable, history: set<Entry>)
    requires Intact(s, history) && StepOrRecovery(s, e, t) && e.Running? && e.a.Compact?
    ensures Intact(t, After(history, e)) <==> !UncoversInTables(e)
  {
    hide Step, Consistent, Job.Valid, ValidWithoutNewer, Resurrects, Entries, SameFrom, Distinct, Earlier;
    CompactTables(s.db, e.a, t.db);
    assert After(history, e) == history;
    assert Settled(t, history) == Settled(s, history) && s.db.Oldest() == t.db.Oldest();
    SameTransitive(Entries(t.db.v), Entries(s.db.v), Settled(s, history), s.db.Oldest());
  }

  lemma CompactTables(s: Database, a: Action, t: Database)
    requires Consistent(s) && Step(s, a, t) && a.Compact?
    ensures Consistent(t) && t == s.(v := t.v, nextFile := t.nextFile) && Entries(t.v) <= Entries(s.v)
    ensures ValidWithoutNewer(a.job)
    ensures SameFrom(Entries(s.v), Entries(t.v), s.Oldest()) <==> forall user :: !Resurrects(a.job.(newer := {}), user)
  {
    CompactConsistent(s, a.job, a.outputs, t);
    TablesOnly(a.job, a.outputs, t.v);
    hide Job.Valid, LevelOrder, Installed, Compactions.Kept, Resurrects, Entries, SameFrom, Consistent;
  }

  lemma TablesOnly(job: Job, outputs: seq<File>, w: Version)
    requires job.Valid() && AllValid(outputs) && Installed(job, outputs, w)
    requires Flatten(outputs) == Compactions.Kept(job.v, job.level, job.input, job.smallestSnapshot, |job.input|)
    ensures ValidWithoutNewer(job) && Entries(w) <= Entries(job.v)
    ensures SameFrom(Entries(job.v), Entries(w), job.smallestSnapshot) <==>
      forall user :: !Resurrects(job.(newer := {}), user)
  {
    var tables := job.(newer := {});
    assert tables.Valid();
    assert Installed(tables, outputs, w);
    OutputsReplace(tables, outputs);
    InstalledEntries(tables, outputs, w);
    CompactionIsInvisible(tables);
    hide Job.Valid, LevelOrder, Installed, Replaces, Compactions.Kept, Resurrects, SameFrom, Entries;
    assert tables.Before() == Entries(job.v) && tables.After() == Entries(w);
  }

  lemma MoveIntact(s: Durable, e: Event, t: Durable, history: set<Entry>)
    requires Intact(s, history) && StepOrRecovery(s, e, t) && e.Running? && e.a.Move?
    ensures Intact(t, After(history, e))
  {
    var job := e.a.job;
    IntactIsFaithful(s, history);
    MoveStep(s.db, job, t.db, history);
    MovedTables(job, t.db.v);
    assert After(history, e) == history;
    hide Job.Valid, LevelOrder, Installed, Entries, SameFrom;
  }

  lemma MovedTables(job: Job, w: Version)
    requires job.Valid() && |job.inputs0| == 1 && job.inputs1 == [] && Installed(job, job.inputs0, w)
    ensures Entries(w) == Entries(job.v)
  {
    var tables := job.(newer := {});
    assert tables.Valid();
    assert Installed(tables, job.inputs0, w);
    TrivialMoveKeeps(tables, w);
  }

  lemma SnapshotIntact(s: Durable, e: Event, t: Durable, history: set<Entry>)
    requires Intact(s, history) && StepOrRecovery(s, e, t) && e.Running? && (e.a.TakeSnapshot? || e.a.ReleaseSnapshot?)
    ensures Intact(t, After(history, e))
  {
    IntactIsFaithful(s, history);
    SnapshotStep(s.db, e.a, t.db, history);
    hide LevelOrder, SameFrom, Distinct, Entries, Reads.Layered;
    if e.a.TakeSnapshot? {
      OldestOfMore(s.db.snapshots, s.db.lastSequence);
    } else {
      OldestOfFewer(s.db.snapshots, e.a.at, s.db.lastSequence);
    }
    assert After(history, e) == history;
    SameFromLater(Entries(s.db.v), Settled(s, history), s.db.Oldest(), t.db.Oldest());
  }

  // ----------------------------------------------------------------- recovery

  lemma RecoveredZero(v: Version, kept: set<Entry>, files: seq<File>, w: Version)
    requires LevelOrder(v) && RecoveredTables(v, kept, files) && Reads.AllNewer(kept, Entries(v))
    requires LevelChanged(v[0], w[0], [], files)
    ensures LevelZero(w[0])
  {
    forall i, k | 0 <= i < k < |w[0]|
      ensures w[0][i].number != w[0][k].number
    {
      var f, g := w[0][i], w[0][k];
      assert BySmallest(f, g) && f in w[0] && g in w[0];
      if f in v[0] && g in v[0] {
        var x :| 0 <= x < |v[0]| && v[0][x] == f;
        var y :| 0 <= y < |v[0]| && v[0][y] == g;
      } else if f in files && g in files {
        var x :| 0 <= x < |files| && files[x] == f;
        var y :| 0 <= y < |files| && files[y] == g;
      }
    }
    forall f, g | f in w[0] && g in w[0] && f.number > g.number
      ensures NewerThan(f, g)
    {
      if f in files {
        NewFile(v, kept, files, f, 0, g);
      }
    }
  }

  /** A recovered table is newer than whatever has a smaller number at level 0 or lies deeper. */
  lemma NewFile(v: Version, kept: set<Entry>, files: seq<File>, f: File, l: nat, g: File)
    requires LevelOrder(v) && RecoveredTables(v, kept, files) && Reads.AllNewer(kept, Entries(v)) && f in files
    requires l < NUM_LEVELS && (g in v[l] || (g in files && f.number > g.number))
    ensures NewerThan(f, g)
  {
    var k :| 0 <= k < |files| && files[k] == f;
    forall d, e | d in f.entries && e in g.entries && d.User() == e.User()
      ensures d.Sequence() > e.Sequence()
    {
      assert d in LevelEntries(files);
      if g in v[l] {
        assert e in Entries(v);
      } else {
        var i :| 0 <= i < |files| && files[i] == g;
        assert d in Reads.Contents(f.entries) && e in Reads.Contents(g.entries);
        assert i < k;
      }
    }
  }

  lemma RecoveredVersion(v: Version, kept: set<Entry>, files: seq<File>, w: Version)
    requires LevelOrder(v) && RecoveredTables(v, kept, files) && Reads.AllNewer(kept, Entries(v))
    requires LevelChanged(v[0], w[0], [], files) && forall l :: 1 <= l < NUM_LEVELS ==> w[l] == v[l]
    ensures LevelOrder(w) && Entries(w) == Entries(v) + kept
  {
    RecoveredZero(v, kept, files, w);
    RecoveredEntries(v, files, w);
    hide SortedLevel, LevelZero, InOrder;
    forall a, b | 0 <= a < b < NUM_LEVELS
      ensures Deeper(w[a], w[b])
    {
      assert Deeper(v[a], v[b]);
      forall f, g | f in w[a] && g in w[b]
        ensures NewerThan(f, g)
      {
        if f !in v[a] {
          NewFile(v, kept, files, f, b, g);
        }
      }
    }
  }

  lemma RecoveredEntries(v: Version, files: seq<File>, w: Version)
    requires LevelChanged(v[0], w[0], [], files) && forall l :: 1 <= l < NUM_LEVELS ==> w[l] == v[l]
    ensures Entries(w) == Entries(v) + LevelEntries(files)
  {
    hide InOrder;
    forall e | e in Entries(v) + LevelEntries(files)
      ensures e in Entries(w)
    {
      if e in Entries(v) {
        var l, f :| 0 <= l < NUM_LEVELS && f in v[l] && e in f.entries;
        assert f in w[l];
      } else {
        var f :| f in files && e in f.entries;
        assert f in w[0];
      }
    }
    forall e | e in Entries(w)
      ensures e in Entries(v) + LevelEntries(files)
    {
      var l, f :| 0 <= l < NUM_LEVELS && f in w[l] && e in f.entries;
      assert f in v[l] || f in files;
    }
  }

  /** A reader beyond every entry sees what any later one does. */
  lemma AlikeFrom(a: set<Entry>, b: set<Entry>, last: SequenceNumber, oldest: SequenceNumber)
    requires SameFrom(a, b, oldest) && AtMost(a, last) && AtMost(b, last)
    ensures SameFrom(a, b, last)
  {
    hide SameReads;
    forall user, snapshot: SequenceNumber | snapshot >= last
      ensures SameReads(a, b, user, snapshot)
    {
      var later := if snapshot < oldest then oldest else snapshot;
      BeyondAll(a, user, snapshot, later);
      BeyondAll(b, user, snapshot, later);
      AlikeAt(a, b, user, snapshot, later);
    }
  }

  lemma BeyondAll(a: set<Entry>, user: UserKey, snapshot: SequenceNumber, later: SequenceNumber)
    requires AtMost(a, snapshot) && snapshot <= later
    ensures SameNewest(a, user, snapshot, later)
  {}

  ghost predicate SameNewest(a: set<Entry>, user: UserKey, snapshot: SequenceNumber, later: SequenceNumber) {
    forall e :: Newest(a, user, snapshot, e) <==> Newest(a, user, later, e)
  }

  lemma AlikeAt(a: set<Entry>, b: set<Entry>, user: UserKey, snapshot: SequenceNumber, later: SequenceNumber)
    requires SameNewest(a, user, snapshot, later) && SameNewest(b, user, snapshot, later)
    requires SameReads(a, b, user, later)
    ensures SameReads(a, b, user, snapshot)
  {
    hide Newest;
    forall value
      ensures Keys.Reads(a, user, snapshot, value) <==> Keys.Reads(b, user, snapshot, value)
    {
      assert Keys.Reads(a, user, snapshot, value) <==> Keys.Reads(a, user, later, value);
      assert Keys.Reads(b, user, snapshot, value) <==> Keys.Reads(b, user, later, value);
    }
  }

  lemma RecoveryIntact(s: Durable, e: Event, t: Durable, history: set<Entry>)
    requires Intact(s, history) && StepOrRecovery(s, e, t) && e.Recovery?
    ensures Intact(t, After(history, e))
  {
    var kept, settled := s.Fresh() - e.lost, Settled(s, history);
    EarlierIsNewer(settled, s.Fresh());
    NewerThanPart(s.Fresh(), Entries(s.db.v), settled);
    RecoveredVersion(s.db.v, kept, e.files, t.db.v);
    AlikeFrom(Entries(s.db.v), settled, s.recorded, s.db.Oldest());
    hide SameFrom, LevelOrder, Entries, InOrder, RecoveredTables;
    NoOverlap(s, history);
    assert t.Fresh() == {} && history - e.lost == settled + kept;
    SameWithNewer(Entries(s.db.v), settled, kept, s.recorded);
    SameFromLater(Entries(t.db.v), settled + kept, s.recorded, t.db.lastSequence);
    RecoveredConsistent(s, e, t, history);
    assert After(history, e) == settled + kept == Settled(t, After(history, e));
    assert settled + kept <= history;
    assert AtMost(settled + kept, t.db.lastSequence);
  }

  lemma RecoveredConsistent(s: Durable, e: Event, t: Durable, history: set<Entry>)
    requires Intact(s, history) && StepOrRecovery(s, e, t) && e.Recovery? && LevelOrder(t.db.v)
    requires Entries(t.db.v) == Entries(s.db.v) + (s.Fresh() - e.lost)
    ensures Consistent(t.db) && t.db.Oldest() == t.db.lastSequence && t.Fresh() == {}
  {
    hide SameFrom, LevelOrder, Entries, InOrder, RecoveredTables, LevelChanged, Distinct;
    assert t.db.Everything() == Entries(t.db.v);
  }

  // --------------------------------------------------------------------- runs

  lemma EveryEventIntact(s: Durable, e: Event, t: Durable, history: set<Entry>)
    requires Intact(s, history) && StepOrRecovery(s, e, t) && !UncoversInTables(e)
    ensures Intact(t, After(history, e))
  {
    hide Intact, StepOrRecovery, UncoversInTables, After;
    match e
    case Recovery(_, _) => RecoveryIntact(s, e, t, history);
    case Running(a) =>
      match a {
        case Write(_) => WriteIntact(s, e, t, history);
        case SwitchMemtable => SwitchIntact(s, e, t, history);
        case FlushMemtable(_, _) => FlushIntact(s, e, t, history);
        case Compact(_, _) => CompactIntact(s, e, t, history);
        case Move(_) => MoveIntact(s, e, t, history);
        case TakeSnapshot => SnapshotIntact(s, e, t, history);
        case ReleaseSnapshot(_) => SnapshotIntact(s, e, t, history);
      }
  }

  ghost predicate RunWithCrashes(states: seq<Durable>, events: seq<Event>) {
    && |states| == |events| + 1 && Empty(states[0].db) && states[0].recorded == 0
    && forall i :: 0 <= i < |events| ==> StepOrRecovery(states[i], events[i], states[i + 1])
  }

  /**
   * Over whole runs with crashes and recoveries: as long as no compaction uncovers an older value in the tables,
   * every reader at a live snapshot sees exactly what was written and not lost.
   */
  lemma {:induction false} RunsSurviveCrashes(states: seq<Durable>, events: seq<Event>)
    requires RunWithCrashes(states, events)
    requires forall e :: e in events ==> !UncoversInTables(e)
    ensures Intact(states[|events|], Surviving(events))
    ensures Faithful(states[|events|].db, Surviving(events))
    decreases |events|
  {
    hide StepOrRecovery, Intact, UncoversInTables, Faithful, After;
    var n := |events|;
    if n == 0 {
      EmptyIsIntact(states[0]);
    } else {
      RunsSurviveCrashes(states[..n], events[..n - 1]);
      EveryEventIntact(states[n - 1], events[n - 1], states[n], Surviving(events[..n - 1]));
    }
    IntactIsFaithful(states[n], Surviving(events));
  }

  lemma EmptyIsIntact(s: Durable)
    requires Empty(s.db) && s.recorded == 0
    ensures Intact(s, {})
  {
    assert Entries(s.db.v) == {} && s.Fresh() == {};
  }
}
