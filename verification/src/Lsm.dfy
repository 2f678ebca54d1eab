/** The log-structured merge tree as a state machine, against the multi-version map of all writes. */
module Lsm {
  import opened Bytes
  import opened Keys
  import opened Versions
  import opened Inputs
  import opened Compactions
  import opened Invisibility
  import opened Install
  import opened Flush
  import Reads

  /** What DBImpl holds; an absent immutable memtable is an empty one. */
  datatype Database = Database(
    mem: seq<Entry>, imm: seq<Entry>, v: Version,
    lastSequence: SequenceNumber, snapshots: seq<SequenceNumber>, nextFile: nat)
  {
    /** smallest_snapshot of DoCompactionWork: the oldest live snapshot, or the present. */
    function Oldest(): SequenceNumber { Minimum(snapshots, lastSequence) }

    ghost function Everything(): set<Entry> { Reads.Everything(mem, imm, v) }
  }

  function Minimum(snapshots: seq<SequenceNumber>, otherwise: SequenceNumber): (r: SequenceNumber)
    ensures r <= otherwise
    ensures forall s :: s in snapshots ==> r <= s
    ensures r == otherwise || r in snapshots
  {
    if snapshots == [] then otherwise
    else
      assert snapshots == [snapshots[0]] + snapshots[1..];
      var rest := Minimum(snapshots[1..], otherwise);
      if snapshots[0] < rest then snapshots[0] else rest
  }

  datatype Action =
    | Write(added: seq<Entry>)
    | SwitchMemtable
    | FlushMemtable(file: File, level: nat)
    | Compact(job: Job, outputs: seq<File>)
    | Move(job: Job)
    | TakeSnapshot
    | ReleaseSnapshot(at: nat)

  /** `t` follows from `s` by one step of the database; `written` collects every entry ever written. */
  ghost predicate Step(s: Database, a: Action, t: Database) {
    match a
    case Write(added) =>
      && s.lastSequence + |added| < MAX_SEQUENCE
      && (forall i :: 0 <= i < |added| ==> added[i].Sequence() == s.lastSequence + 1 + i)
      && t == s.(mem := t.mem, lastSequence := s.lastSequence + |added|)
      && Sorted(t.mem) && Reads.Contents(t.mem) == Reads.Contents(s.mem) + Reads.Contents(added)
    case SwitchMemtable =>
      s.imm == [] && t == s.(mem := [], imm := s.mem)
    case FlushMemtable(file, level) =>
      && level <= MAX_MEM_COMPACT_LEVEL && t.nextFile == s.nextFile + 1
      && t == s.(imm := [], v := t.v, nextFile := t.nextFile)
      && if s.imm == [] then t.v == s.v
         else
           && file == FileFor(s.nextFile, file.size, s.imm)
           && (level > 0 ==> forall l :: 0 <= l <= level ==>
                 !SomeOverlap(s.v[l], Some(file.smallest.user), Some(file.largest.user)))
           && LevelChanged(s.v[level], t.v[level], [], [file])
           && forall l :: 0 <= l < NUM_LEVELS && l != level ==> t.v[l] == s.v[l]
    case Compact(job, outputs) =>
      && ForDatabase(job, s) && t == s.(v := t.v, nextFile := t.nextFile)
      && AllValid(outputs) && Numbered(outputs, s.nextFile) && t.nextFile == s.nextFile + |outputs|
      && Flatten(outputs) == Kept(job.v, job.level, job.input, job.smallestSnapshot, |job.input|)
      && Installed(job, outputs, t.v)
    case Move(job) =>
      && ForDatabase(job, s) && t == s.(v := t.v)
      && |job.inputs0| == 1 && job.inputs1 == [] && Installed(job, job.inputs0, t.v)
    case TakeSnapshot =>
      t == s.(snapshots := s.snapshots + [s.lastSequence])
    case ReleaseSnapshot(at) =>
      at < |s.snapshots| && t == s.(snapshots := s.snapshots[..at] + s.snapshots[at + 1..])
  }

  ghost predicate ForDatabase(job: Job, s: Database) {
    && job.Valid() && job.v == s.v && job.smallestSnapshot == s.Oldest()
    && job.newer == Reads.Contents(s.mem) + Reads.Contents(s.imm)
  }

  /** No compaction on the way uncovers an older value. */
  ghost predicate Uncovers(a: Action) {
    a.Compact? && a.job.Valid() && exists user :: Resurrects(a.job, user)
  }

  function Written(a: Action): seq<Entry> {
    if a.Write? then a.added else []
  }

  /** The order of the layers, and the numbers that keep new entries and files newest. */
  ghost predicate Consistent(s: Database) {
    && Reads.Layered(s.mem, s.imm, s.v)
    && (forall e :: e in s.Everything() ==> e.Sequence() <= s.lastSequence)
    && (forall f :: f in s.v[0] ==> f.number < s.nextFile)
    && (forall x :: x in s.snapshots ==> x <= s.lastSequence)
    && s.lastSequence < MAX_SEQUENCE
  }

  /** Every reader at a live snapshot sees what the full history says. */
  ghost predicate Faithful(s: Database, history: set<Entry>) {
    && Consistent(s)
    && Distinct(history) && (forall e :: e in history ==> e.Sequence() <= s.lastSequence)
    && SameFrom(s.Everything(), history, s.Oldest())
  }

  // -------------------------------------------------------------------- writes

  /** What the newest entries of a union are when one part is newer. */
  lemma NewestOfUnion(older: set<Entry>, newer: set<Entry>, user: UserKey, snapshot: SequenceNumber)
    requires Reads.AllNewer(newer, older)
    ensures (exists n :: Newest(newer, user, snapshot, n)) ==>
      forall e :: Newest(older + newer, user, snapshot, e) <==> Newest(newer, user, snapshot, e)
    ensures (forall n :: !Newest(newer, user, snapshot, n)) ==>
      forall e :: Newest(older + newer, user, snapshot, e) <==> Newest(older, user, snapshot, e)
  {
    forall n | n in newer && Visible(n, user, snapshot)
      ensures exists m :: Newest(newer, user, snapshot, m)
    {
      var m := NewestExists(newer, user, snapshot, n);
    }
  }

  lemma SameReadsAfterWrite(a: set<Entry>, b: set<Entry>, newer: set<Entry>, user: UserKey, snapshot: SequenceNumber)
    requires SameReads(a, b, user, snapshot)
    requires Reads.AllNewer(newer, a) && Reads.AllNewer(newer, b)
    ensures SameReads(a + newer, b + newer, user, snapshot)
  {
    NewestOfUnion(a, newer, user, snapshot);
    NewestOfUnion(b, newer, user, snapshot);
    hide Newest;
    if n :| Newest(newer, user, snapshot, n) {
      assert forall value :: Keys.Reads(a + newer, user, snapshot, value) <==> Keys.Reads(newer, user, snapshot, value);
    } else {
      assert forall value :: Keys.Reads(a + newer, user, snapshot, value) <==> Keys.Reads(a, user, snapshot, value);
    }
  }

  lemma WriteStep(s: Database, added: seq<Entry>, t: Database, history: set<Entry>)
    requires Faithful(s, history) && Step(s, Write(added), t)
    ensures Faithful(t, history + Reads.Contents(added))
  {
    hide LevelOrder;
    var added' := Reads.Contents(added);
    var before := s.Everything();
    assert t.Everything() == before + added';
    Reads.LayeredDistinct(s.mem, s.imm, s.v);
    FreshIsNewer(s, added, before);
    FreshIsNewer(s, added, history);
    forall d, e | d in t.mem && (e in s.imm || e in Entries(s.v)) && d.User() == e.User()
      ensures d.Sequence() > e.Sequence()
    {
      assert d in Reads.Contents(t.mem);
      assert e in Reads.Contents(s.imm) || e in Entries(s.v);
      assert e in before;
    }
    OldestRises(s.snapshots, s.lastSequence, t.lastSequence);
    forall user, snapshot: SequenceNumber | snapshot >= t.Oldest()
      ensures SameReads(t.Everything(), history + added', user, snapshot)
    {
      SameReadsAfterWrite(before, history, added', user, snapshot);
    }
  }

  lemma FreshIsNewer(s: Database, added: seq<Entry>, db: set<Entry>)
    requires s.lastSequence + |added| < MAX_SEQUENCE
    requires forall i :: 0 <= i < |added| ==> added[i].Sequence() == s.lastSequence + 1 + i
    requires forall e :: e in db ==> e.Sequence() <= s.lastSequence
    requires Distinct(db)
    ensures Reads.AllNewer(Reads.Contents(added), db) && Distinct(db + Reads.Contents(added))
    ensures forall e :: e in added ==> s.lastSequence < e.Sequence() <= s.lastSequence + |added|
  {}

  lemma {:induction false} OldestRises(snapshots: seq<SequenceNumber>, x: SequenceNumber, y: SequenceNumber)
    requires x <= y
    ensures Minimum(snapshots, x) <= Minimum(snapshots, y)
  {
    if snapshots != [] {
      OldestRises(snapshots[1..], x, y);
    }
  }

  // ------------------------------------------------ steps that rearrange tables

  /** The same entries in another arrangement. */
  lemma Rearranged(s: Database, t: Database, history: set<Entry>)
    requires Faithful(s, history) && Reads.Layered(t.mem, t.imm, t.v)
    requires t.Everything() == s.Everything() && t.lastSequence == s.lastSequence && t.snapshots == s.snapshots
    requires forall f :: f in t.v[0] ==> f.number < t.nextFile
    ensures Faithful(t, history)
  {
    hide LevelOrder, SameFrom;
  }

  lemma SwitchStep(s: Database, t: Database, history: set<Entry>)
    requires Faithful(s, history) && Step(s, SwitchMemtable, t)
    ensures Faithful(t, history)
  {
    hide LevelOrder, SameFrom;
    assert t.Everything() == s.Everything();
    Rearranged(s, t, history);
  }

  lemma FlushStep(s: Database, file: File, level: nat, t: Database, history: set<Entry>)
    requires Faithful(s, history) && Step(s, FlushMemtable(file, level), t)
    ensures Faithful(t, history)
  {
    hide LevelOrder, SameFrom, SomeOverlap, InOrder;
    if s.imm != [] {
      FlushKeepsOrder(s.v, file, level, t.v);
      assert Reads.Contents(file.entries) == Reads.Contents(s.imm);
    }
    assert t.Everything() == s.Everything();
    assert Reads.AllNewer(Reads.Contents(s.mem), Entries(t.v));
    Rearranged(s, t, history);
  }

  lemma MoveStep(s: Database, job: Job, t: Database, history: set<Entry>)
    requires Faithful(s, history) && Step(s, Move(job), t)
    ensures Faithful(t, history)
  {
    TrivialMoveKeeps(job, t.v);
    SmallNumbers(job, job.inputs0, s, t);
    hide Job.Valid, LevelOrder, SameFrom, Installed;
    assert t.Everything() == job.newer + Entries(t.v);
    assert s.Everything() == job.newer + Entries(s.v);
    WithinBefore(s, t);
    Rearranged(s, t, history);
  }

  lemma SmallNumbers(job: Job, outputs: seq<File>, s: Database, t: Database)
    requires ForDatabase(job, s) && Installed(job, outputs, t.v) && s.nextFile <= t.nextFile
    requires forall f :: f in s.v[0] ==> f.number < s.nextFile
    ensures forall f :: f in t.v[0] ==> f.number < t.nextFile
  {
    hide LevelOrder, Chosen, InOrder;
  }

  /** Fewer entries below the memtables keep the layers in order. */
  lemma WithinBefore(s: Database, t: Database)
    requires Reads.Layered(s.mem, s.imm, s.v) && t.mem == s.mem && t.imm == s.imm && LevelOrder(t.v)
    requires Entries(t.v) <= Entries(s.v)
    ensures Reads.Layered(t.mem, t.imm, t.v)
  {}

  // ---------------------------------------------------------------- compaction

  lemma CompactConsistent(s: Database, job: Job, outputs: seq<File>, t: Database)
    requires Consistent(s) && Step(s, Compact(job, outputs), t)
    ensures Consistent(t)
    ensures s.Everything() == job.Before() && t.Everything() == job.After()
  {
    OutputsReplace(job, outputs);
    CompactionKeepsOrder(job, outputs, t.v);
    InstalledEntries(job, outputs, t.v);
    SmallOutputs(job, outputs, s, t);
    hide Job.Valid, LevelOrder, Installed, Replaces, Kept;
    WithinBefore(s, t);
    assert t.Everything() == job.newer + Entries(t.v);
    assert s.Everything() == job.newer + Entries(s.v);
  }

  lemma SmallOutputs(job: Job, outputs: seq<File>, s: Database, t: Database)
    requires ForDatabase(job, s) && Installed(job, outputs, t.v)
    requires Numbered(outputs, s.nextFile) && t.nextFile == s.nextFile + |outputs|
    requires forall f :: f in s.v[0] ==> f.number < s.nextFile
    ensures forall f :: f in t.v[0] ==> f.number < t.nextFile
  {
    hide LevelOrder, Chosen, InOrder;
  }

  /** A compaction keeps every live reader's view exactly when it uncovers no older value. */
  lemma CompactStep(s: Database, job: Job, outputs: seq<File>, t: Database, history: set<Entry>)
    requires Faithful(s, history) && Step(s, Compact(job, outputs), t)
    ensures Faithful(t, history) <==> !Uncovers(Compact(job, outputs))
  {
    CompactConsistent(s, job, outputs, t);
    CompactionIsInvisible(job);
    hide Job.Valid, LevelOrder, Installed, Kept, Resurrects;
    SameTransitive(t.Everything(), s.Everything(), history, s.Oldest());
  }

  lemma SameTransitive(a: set<Entry>, b: set<Entry>, c: set<Entry>, oldest: SequenceNumber)
    requires SameFrom(b, c, oldest)
    ensures SameFrom(a, c, oldest) <==> SameFrom(b, a, oldest)
  {
    hide SameReads;
    forall user, snapshot: SequenceNumber | snapshot >= oldest
      ensures SameReads(a, c, user, snapshot) <==> SameReads(b, a, user, snapshot)
    {
      SameTransitiveAt(a, b, c, user, snapshot);
    }
  }

  lemma SameTransitiveAt(a: set<Entry>, b: set<Entry>, c: set<Entry>, user: UserKey, snapshot: SequenceNumber)
    requires SameReads(b, c, user, snapshot)
    ensures SameReads(a, c, user, snapshot) <==> SameReads(b, a, user, snapshot)
  {
    hide Keys.Reads;
  }

  // ----------------------------------------------------------------- snapshots

  lemma {:induction false} OldestOfMore(snapshots: seq<SequenceNumber>, x: SequenceNumber)
    ensures Minimum(snapshots + [x], x) == Minimum(snapshots, x)
  {
    if snapshots != [] {
      assert (snapshots + [x])[1..] == snapshots[1..] + [x];
      OldestOfMore(snapshots[1..], x);
    }
  }

  lemma {:induction false} OldestOfFewer(snapshots: seq<SequenceNumber>, at: nat, x: SequenceNumber)
    requires at < |snapshots|
    ensures Minimum(snapshots, x) <= Minimum(snapshots[..at] + snapshots[at + 1..], x)
  {
    if at == 0 {
      assert snapshots[..0] + snapshots[1..] == snapshots[1..];
    } else {
      var fewer := snapshots[..at] + snapshots[at + 1..];
      assert fewer[1..] == snapshots[1..][..at - 1] + snapshots[1..][at..];
      OldestOfFewer(snapshots[1..], at - 1, x);
    }
  }

  lemma SnapshotStep(s: Database, a: Action, t: Database, history: set<Entry>)
    requires Faithful(s, history) && Step(s, a, t) && (a.TakeSnapshot? || a.ReleaseSnapshot?)
    ensures Faithful(t, history)
  {
    hide LevelOrder, SameReads, Distinct, Entries, Reads.Contents;
    if a.TakeSnapshot? {
      OldestOfMore(s.snapshots, s.lastSequence);
    } else {
      OldestOfFewer(s.snapshots, a.at, s.lastSequence);
    }
    assert t.Everything() == s.Everything() && s.Oldest() <= t.Oldest();
    assert forall x :: x in t.snapshots ==> x in s.snapshots || x == s.lastSequence;
    SameFromLater(s.Everything(), history, s.Oldest(), t.Oldest());
  }

  lemma SameFromLater(a: set<Entry>, b: set<Entry>, from: SequenceNumber, later: SequenceNumber)
    requires SameFrom(a, b, from) && from <= later
    ensures SameFrom(a, b, later)
  {}

  // ---------------------------------------------------------------------- runs

  lemma StepKeepsFaithful(s: Database, a: Action, t: Database, history: set<Entry>)
    requires Faithful(s, history) && Step(s, a, t) && !Uncovers(a)
    ensures Faithful(t, history + Reads.Contents(Written(a)))
  {
    assert !a.Write? ==> history + Reads.Contents(Written(a)) == history;
    match a {
      case Write(added) => WriteStep(s, added, t, history);
      case SwitchMemtable => SwitchStep(s, t, history);
      case FlushMemtable(file, level) => FlushStep(s, file, level, t, history);
      case Compact(job, outputs) => CompactStep(s, job, outputs, t, history);
      case Move(job) => MoveStep(s, job, t, history);
      case TakeSnapshot => SnapshotStep(s, a, t, history);
      case ReleaseSnapshot(at) => SnapshotStep(s, a, t, history);
    }
  }

  ghost predicate Run(states: seq<Database>, actions: seq<Action>) {
    && |states| == |actions| + 1
    && forall i :: 0 <= i < |actions| ==> Step(states[i], actions[i], states[i + 1])
  }

  ghost function History(actions: seq<Action>): set<Entry> {
    if actions == [] then {}
    else History(actions[..|actions| - 1]) + Reads.Contents(Written(actions[|actions| - 1]))
  }

  predicate Empty(s: Database) {
    s == Database([], [], [[], [], [], [], [], [], []], 0, [], s.nextFile)
  }

  /** Over whole runs: as long as no compaction uncovers an older value, every live reader sees the full history. */
  lemma {:induction false} RunsAreFaithful(states: seq<Database>, actions: seq<Action>)
    requires Run(states, actions) && Empty(states[0])
    requires forall a :: a in actions ==> !Uncovers(a)
    ensures Faithful(states[|actions|], History(actions))
    decreases |actions|
  {
    hide Step, Faithful, Uncovers;
    var n := |actions|;
    if n == 0 {
      EmptyIsFaithful(states[0]);
    } else {
      RunsAreFaithful(states[..n], actions[..n - 1]);
      StepKeepsFaithful(states[n - 1], actions[n - 1], states[n], History(actions[..n - 1]));
    }
  }

  lemma EmptyIsFaithful(s: Database)
    requires Empty(s)
    ensures Faithful(s, {})
  {
    assert s.Everything() == {};
  }

  /** DBImpl::Get at a live snapshot returns the one value the full history has for the reader. */
  method Get(s: Database, user: UserKey, snapshot: SequenceNumber, ghost history: set<Entry>)
    returns (value: Option<seq<Byte>>)
    requires Faithful(s, history) && snapshot >= s.Oldest()
    ensures forall other :: Keys.Reads(history, user, snapshot, other) <==> other == value
  {
    hide SameReads, LevelOrder;
    value := Reads.GetFromDatabase(s.mem, s.imm, s.v, user, snapshot);
    ReadsTransfer(s.Everything(), history, user, snapshot, value);
    forall other | Keys.Reads(history, user, snapshot, other)
      ensures other == value
    {
      ReadsIsFunction(history, user, snapshot, other, value);
    }
  }

  lemma ReadsTransfer(a: set<Entry>, b: set<Entry>, user: UserKey, snapshot: SequenceNumber, value: Option<seq<Byte>>)
    requires SameReads(a, b, user, snapshot) && Keys.Reads(a, user, snapshot, value)
    ensures Keys.Reads(b, user, snapshot, value)
  {}
}
