/**
 * What survives a crash: the logs, the tables and the manifest of db/db_impl.cc and db/version_set.cc,
 * over every run of writes, flushes, compactions, deletions, crashes and recoveries.
 */
module CrashSafety {
  import opened Keys

  // --------------------------------------------------------------------- disk

  /** A write batch in a log: the sequence number of its header, then consecutive entries. */
  datatype Record = Record(first: nat, entries: seq<Entry>) {
    ghost predicate Numbered() {
      forall i :: 0 <= i < |entries| ==> entries[i].Sequence() == first + i
    }
    function Last(): int { first + |entries| - 1 }
  }

  /** A log file, and how many of its records are known to be on stable storage. */
  datatype Log = Log(records: seq<Record>, synced: nat)

  /** A manifest record: the files of a whole version, or a change to it. */
  datatype Edit =
    | Snapshot(files: set<nat>)
    | Change(logNumber: nat, nextFile: nat, lastSequence: nat, added: set<nat>, deleted: set<nat>)

  datatype Disk = Disk(logs: map<nat, Log>, tables: map<nat, set<Entry>>, manifests: map<nat, seq<Edit>>, current: nat)

  /** The persistent fields of a VersionSet. */
  datatype Version = Version(live: set<nat>, logNumber: nat, nextFile: nat, lastSequence: nat)

  /** VersionSet::Recover: fold the manifest. */
  ghost function Replay(edits: seq<Edit>): Version {
    if edits == [] then Version({}, 0, 0, 0)
    else
      var v := Replay(edits[..|edits| - 1]);
      match edits[|edits| - 1]
      case Snapshot(files) => v.(live := v.live + files)
      case Change(logNumber, nextFile, lastSequence, added, deleted) =>
        Version(v.live - deleted + added, logNumber, nextFile, lastSequence)
  }

  ghost function Manifest(disk: Disk): Version
    requires disk.current in disk.manifests
  {
    Replay(disk.manifests[disk.current])
  }

  ghost function RecordEntries(records: seq<Record>): set<Entry> {
    set r, e | r in records && e in r.entries :: e
  }

  ghost function TableEntries(tables: map<nat, set<Entry>>, files: set<nat>): set<Entry> {
    set n, e | n in files && n in tables && e in tables[n] :: e
  }

  ghost function LogEntries(logs: map<nat, Log>, oldest: nat): set<Entry> {
    set n, e | n in logs && n >= oldest && e in RecordEntries(logs[n].records) :: e
  }

  /** The multi-version map that recovery is to rebuild. */
  ghost function Contents(disk: Disk): set<Entry>
    requires disk.current in disk.manifests
  {
    TableEntries(disk.tables, Manifest(disk).live) + LogEntries(disk.logs, Manifest(disk).logNumber)
  }

  // ------------------------------------------------------------------- server

  /** Background work between its lock acquisitions. */
  datatype Job =
    | Idle
    | Flushed(table: set<nat>)
    | Compacted(inputs: set<nat>, outputs: set<nat>)
    | Committing(edit: Edit, flush: bool)

  /** A process: not there, recovering, or serving. `vs` mirrors the fields of its VersionSet. */
  datatype Server =
    | Down
    | Reading(vs: Version, manifest: nat, todo: seq<nat>, done: nat, maxSequence: int, added: set<nat>)
    | Logged(vs: Version, manifest: nat, log: nat, added: set<nat>)
    | Saved(vs: Version, manifest: nat, log: nat, added: set<nat>)
    | Up(vs: Version, manifest: nat, log: nat, mem: set<Entry>, imm: Option<set<Entry>>, pending: Option<Record>, job: Job)

  /** `history` is every entry ever appended, less those a compaction dropped or a machine crash took unsynced. */
  datatype State = State(disk: Disk, server: Server, history: set<Entry>)

  /** DBImpl::NewDB. */
  ghost const FRESH: State :=
    State(Disk(map[], map[], map[1 := [Change(0, 2, 0, {}, {})]], 1), Down, {})

  // -------------------------------------------------------------------- steps

  datatype Action =
    | Append(record: Record, sync: bool)
    | Apply
    | Switch
    | BuildFlush
    | BuildCompaction(inputs: set<nat>, outputs: map<nat, set<Entry>>, dropped: set<Entry>, next: nat)
    | Prepare
    | Commit
    | DeleteLog(number: nat)
    | DeleteTable(number: nat)
    | DeleteManifest(number: nat)
    | Crash(kept: map<nat, nat>)
    | Open(todo: seq<nat>)
    | RecoverTable(count: nat)
    | NextLog
    | CreateLog
    | WriteManifest
    | SwitchCurrent

  ghost function PendingOutputs(job: Job): set<nat> {
    match job
    case Idle => {}
    case Flushed(table) => table
    case Compacted(_, outputs) => outputs
    case Committing(edit, _) => if edit.Change? then edit.added else {}
  }

  /** The logs a recovery reads, in the order they were generated. */
  ghost predicate LogsToRead(disk: Disk, oldest: nat, todo: seq<nat>) {
    && (forall i, j :: 0 <= i < j < |todo| ==> todo[i] < todo[j])
    && forall n :: n in todo <==> n in disk.logs && n >= oldest
  }

  ghost predicate Enabled(s: State, a: Action) {
    match a
    case Append(record, _) =>
      && s.server.Up? && s.server.pending.None? && s.server.log in s.disk.logs
      && record.first == s.server.vs.lastSequence + 1 && record.Numbered()
    case Apply => s.server.Up? && s.server.pending.Some? && s.server.pending.value.Last() >= 0
    case Switch => s.server.Up? && s.server.pending.None? && s.server.imm.None?
    case BuildFlush => s.server.Up? && s.server.imm.Some? && s.server.job.Idle?
    case BuildCompaction(inputs, outputs, dropped, next) =>
      && s.server.Up? && s.server.job.Idle? && inputs <= s.server.vs.live && s.server.vs.nextFile <= next
      && (forall n :: n in outputs ==> s.server.vs.nextFile <= n < next)
      && (forall n :: n in outputs ==> outputs[n] <= TableEntries(s.disk.tables, inputs))
      && dropped == TableEntries(s.disk.tables, inputs) - TableEntries(outputs, outputs.Keys)
    case Prepare => s.server.Up? && (s.server.job.Flushed? || s.server.job.Compacted?)
    case Commit =>
      s.server.Up? && s.server.job.Committing? && s.server.job.edit.Change? && s.server.manifest in s.disk.manifests
    case DeleteLog(n) => s.server.Up? && n < s.server.vs.logNumber
    case DeleteTable(n) => s.server.Up? && n !in s.server.vs.live + PendingOutputs(s.server.job)
    case DeleteManifest(n) => s.server.Up? && n < s.server.manifest
    case Crash(kept) =>
      && kept.Keys == s.disk.logs.Keys && s.disk.current in s.disk.manifests
      && forall n :: n in kept ==> s.disk.logs[n].synced <= kept[n] <= |s.disk.logs[n].records|
    case Open(todo) =>
      && s.server.Down? && s.disk.current in s.disk.manifests
      && LogsToRead(s.disk, Manifest(s.disk).logNumber, todo)
      && Manifest(s.disk).live <= s.disk.tables.Keys
    case RecoverTable(count) =>
      && s.server.Reading? && s.server.todo != [] && s.server.todo[0] in s.disk.logs
      && 0 < count && s.server.done + count <= |s.disk.logs[s.server.todo[0]].records|
    case NextLog =>
      && s.server.Reading? && s.server.todo != [] && s.server.todo[0] in s.disk.logs
      && s.server.done == |s.disk.logs[s.server.todo[0]].records|
    case CreateLog => s.server.Reading? && s.server.todo == []
    case WriteManifest => s.server.Logged?
    case SwitchCurrent => s.server.Saved?
  }

  /** What is left of the logs when the records beyond `kept` never reached the disk. */
  ghost function Surviving(logs: map<nat, Log>, kept: map<nat, nat>): map<nat, Log>
    requires kept.Keys == logs.Keys && forall n :: n in kept ==> kept[n] <= |logs[n].records|
  {
    map n | n in logs :: Log(logs[n].records[..kept[n]], kept[n])
  }

  ghost function MaxLast(records: seq<Record>, least: int): int {
    if records == [] then least
    else
      var rest := MaxLast(records[..|records| - 1], least);
      if records[|records| - 1].Last() > rest then records[|records| - 1].Last() else rest
  }

  function Max(a: int, b: int): int { if a < b then b else a }

  /** BuildTable leaves no file behind for an empty memtable. */
  ghost function WithTable(d: Disk, n: nat, table: set<Entry>): Disk {
    if table == {} then d else d.(tables := d.tables[n := table])
  }

  /** RecoverLogFile fills a memtable from the next records of a log ... */
  ghost function Chunk(d: Disk, p: Server, count: nat): seq<Record>
    requires p.Reading? && p.todo != [] && p.todo[0] in d.logs && p.done + count <= |d.logs[p.todo[0]].records|
  {
    d.logs[p.todo[0]].records[p.done..p.done + count]
  }

  /** ... and writes it to a level-0 table. */
  ghost function AfterChunk(d: Disk, p: Server, count: nat): Server
    requires p.Reading? && p.todo != [] && p.todo[0] in d.logs && p.done + count <= |d.logs[p.todo[0]].records|
  {
    var chunk := Chunk(d, p, count);
    p.(done := p.done + count, maxSequence := MaxLast(chunk, p.maxSequence),
       added := if RecordEntries(chunk) == {} then p.added else p.added + {p.vs.nextFile},
       vs := p.vs.(nextFile := p.vs.nextFile + 1))
  }

  ghost function Next(s: State, a: Action): State
    requires Enabled(s, a)
  {
    var d := s.disk;
    var p := s.server;
    match a
    case Append(record, sync) =>
      var log := d.logs[p.log];
      var records := log.records + [record];
      State(d.(logs := d.logs[p.log := Log(records, if sync then |records| else log.synced)]),
            p.(pending := Some(record)), s.history + RecordEntries([record]))
    case Apply =>
      s.(server := p.(mem := p.mem + RecordEntries([p.pending.value]), pending := None,
                      vs := p.vs.(lastSequence := p.pending.value.Last())))
    case Switch =>
      s.(disk := d.(logs := d.logs[p.vs.nextFile := Log([], 0)]),
         server := p.(mem := {}, imm := Some(p.mem), log := p.vs.nextFile, vs := p.vs.(nextFile := p.vs.nextFile + 1)))
    case BuildFlush =>
      s.(disk := WithTable(d, p.vs.nextFile, p.imm.value),
         server := p.(job := Flushed(if p.imm.value == {} then {} else {p.vs.nextFile}),
                      vs := p.vs.(nextFile := p.vs.nextFile + 1)))
    case BuildCompaction(inputs, outputs, _, next) =>
      s.(disk := d.(tables := d.tables + outputs),
         server := p.(job := Compacted(inputs, outputs.Keys), vs := p.vs.(nextFile := next)))
    case Prepare =>
      s.(server := p.(job :=
        if p.job.Flushed? then
          Committing(Change(p.log, p.vs.nextFile, p.vs.lastSequence, p.job.table, {}), true)
        else
          Committing(Change(p.vs.logNumber, p.vs.nextFile, p.vs.lastSequence, p.job.outputs, p.job.inputs), false)))
    case Commit =>
      var live := p.vs.live - p.job.edit.deleted + p.job.edit.added;
      State(d.(manifests := d.manifests[p.manifest := d.manifests[p.manifest] + [p.job.edit]]),
            p.(vs := p.vs.(live := live, logNumber := p.job.edit.logNumber), imm := if p.job.flush then None else p.imm, job := Idle),
            s.history - (TableEntries(d.tables, p.vs.live) - TableEntries(d.tables, live)))
    case DeleteLog(n) => s.(disk := d.(logs := d.logs - {n}))
    case DeleteTable(n) => s.(disk := d.(tables := d.tables - {n}))
    case DeleteManifest(n) => s.(disk := d.(manifests := d.manifests - {n}))
    case Crash(kept) =>
      var survives := d.(logs := Surviving(d.logs, kept));
      State(survives, Down, Contents(survives))
    case Open(todo) =>
      var v := Manifest(d);
      s.(server := Reading(v.(nextFile := v.nextFile + 1), v.nextFile, todo, 0, 0, {}))
    case RecoverTable(count) =>
      s.(disk := WithTable(d, p.vs.nextFile, RecordEntries(Chunk(d, p, count))), server := AfterChunk(d, p, count))
    case NextLog =>
      s.(server := p.(todo := p.todo[1..], done := 0, vs := p.vs.(nextFile := Max(p.vs.nextFile, p.todo[0] + 1))))
    case CreateLog =>
      s.(disk := d.(logs := d.logs[p.vs.nextFile := Log([], 0)]),
         server := Logged(p.vs.(nextFile := p.vs.nextFile + 1, lastSequence := Max(p.vs.lastSequence, p.maxSequence)),
                          p.manifest, p.vs.nextFile, p.added))
    case WriteManifest =>
      s.(disk := d.(manifests := d.manifests[p.manifest := OpeningEdits(p.vs, p.log, p.added)]), server := Saved(p.vs, p.manifest, p.log, p.added))
    case SwitchCurrent =>
      s.(disk := d.(current := p.manifest),
         server := Up(p.vs.(live := p.vs.live + p.added, logNumber := p.log), p.manifest, p.log, {}, None, None, Idle))
  }

  // --------------------------------------------------------------- invariants

  ghost predicate AtMost(entries: set<Entry>, n: int) {
    forall e :: e in entries ==> e.Sequence() <= n
  }

  /** Every entry of `a` was written before every entry of `b`. */
  ghost predicate Earlier(a: set<Entry>, b: set<Entry>) {
    forall d, e :: d in a && e in b ==> d.Sequence() < e.Sequence()
  }

  ghost predicate InOrder(records: seq<Record>) {
    && (forall i :: 0 <= i < |records| ==> records[i].Numbered())
    && forall i, j :: 0 <= i < j < |records| ==> records[i].Last() < records[j].first
  }

  ghost predicate LogsInOrder(logs: map<nat, Log>, oldest: nat) {
    && (forall n :: n in logs ==> logs[n].synced <= |logs[n].records|)
    && (forall n :: n in logs && n >= oldest ==> InOrder(logs[n].records))
    && forall m, n :: m in logs && n in logs && oldest <= m < n ==>
         Earlier(RecordEntries(logs[m].records), RecordEntries(logs[n].records))
  }

  /** A disk from which nothing is missing. */
  ghost predicate Sound(d: Disk) {
    && d.current in d.manifests
    && var v := Manifest(d);
       && v.live <= d.tables.Keys && (forall n :: n in v.live ==> n < v.nextFile)
       && v.logNumber < v.nextFile && d.current < v.nextFile
       && AtMost(TableEntries(d.tables, v.live), v.lastSequence)
       && LogsInOrder(d.logs, v.logNumber)
       && Earlier(TableEntries(d.tables, v.live), LogEntries(d.logs, v.logNumber))
  }

  /** The entries of logs still to be read by a recovery. */
  ghost function Unread(logs: map<nat, Log>, todo: seq<nat>, done: nat): set<Entry>
    requires forall n :: n in todo ==> n in logs
    requires todo != [] ==> done <= |logs[todo[0]].records|
  {
    if todo == [] then {}
    else RecordEntries(logs[todo[0]].records[done..]) + FileEntries(logs, todo[1..])
  }

  ghost function FileEntries(logs: map<nat, Log>, files: seq<nat>): set<Entry>
    requires forall n :: n in files ==> n in logs
  {
    set n, e | n in files && e in RecordEntries(logs[n].records) :: e
  }

  /** A recovery has read a prefix of the logs, in order, and written only new files. */
  ghost predicate ReadingFiles(d: Disk, v: Version, p: Server)
    requires p.Reading?
  {
    && p.vs.live == v.live && p.vs.logNumber == v.logNumber && p.vs.lastSequence == v.lastSequence
    && p.manifest == v.nextFile < p.vs.nextFile
    && (forall i, j :: 0 <= i < j < |p.todo| ==> p.todo[i] < p.todo[j])
    && (forall n :: n in p.todo ==> n in d.logs && n >= v.logNumber)
    && (forall n :: n in d.logs && n >= v.logNumber && n !in p.todo ==> n < p.vs.nextFile)
    && (p.todo != [] ==> p.done <= |d.logs[p.todo[0]].records|)
    && p.added <= d.tables.Keys && (forall n :: n in p.added ==> v.nextFile < n < p.vs.nextFile)
  }

  ghost predicate GoodReading(d: Disk, p: Server)
    requires Sound(d) && p.Reading?
  {
    var v := Manifest(d);
    && ReadingFiles(d, v, p)
    && Recovered(TableEntries(d.tables, p.added), Unread(d.logs, p.todo, p.done), LogEntries(d.logs, v.logNumber), p.maxSequence)
  }

  /** The new tables and the unread records divide the entries of the logs in the order of their sequence numbers. */
  ghost predicate Recovered(tables: set<Entry>, unread: set<Entry>, all: set<Entry>, last: int) {
    tables + unread == all && Earlier(tables, unread) && AtMost(tables, last) && last >= 0
  }

  /** The records of the current log are applied, but for the pending one at its end. */
  ghost predicate LogMatches(records: seq<Record>, mem: set<Entry>, pending: Option<Record>, last: nat) {
    match pending
    case None => mem == RecordEntries(records) && forall r :: r in records ==> r.Last() <= last
    case Some(r) =>
      && records != [] && records[|records| - 1] == r && r.first == last + 1
      && mem == RecordEntries(records[..|records| - 1]) && forall r :: r in records[..|records| - 1] ==> r.Last() <= last
  }

  ghost predicate NewTables(d: Disk, vs: Version, tables: set<nat>, next: nat) {
    tables <= d.tables.Keys && tables !! vs.live && forall n :: n in tables ==> n < next
  }

  ghost predicate GoodJob(d: Disk, p: Server)
    requires p.Up?
  {
    match p.job
    case Idle => true
    case Flushed(table) =>
      p.imm.Some? && NewTables(d, p.vs, table, p.vs.nextFile) && TableEntries(d.tables, table) == p.imm.value
    case Compacted(inputs, outputs) =>
      && NewTables(d, p.vs, outputs, p.vs.nextFile) && inputs <= p.vs.live
      && TableEntries(d.tables, outputs) <= TableEntries(d.tables, inputs)
    case Committing(edit, flush) =>
      && edit.Change? && NewTables(d, p.vs, edit.added, edit.nextFile) && edit.deleted <= p.vs.live
      && (forall n :: n in p.vs.live ==> n < edit.nextFile)
      && p.manifest < edit.nextFile <= p.vs.nextFile && edit.logNumber < edit.nextFile
      && edit.lastSequence <= p.vs.lastSequence && AtMost(TableEntries(d.tables, p.vs.live), edit.lastSequence)
      && if flush then
           && p.imm.Some? && edit.deleted == {} && edit.logNumber == p.log
           && TableEntries(d.tables, edit.added) == p.imm.value && AtMost(p.imm.value, edit.lastSequence)
         else
           edit.logNumber == p.vs.logNumber && TableEntries(d.tables, edit.added) <= TableEntries(d.tables, edit.deleted)
  }

  ghost predicate GoodUp(d: Disk, p: Server)
    requires Sound(d) && p.Up?
  {
    var v := Manifest(d);
    && p.manifest == d.current && p.vs.live == v.live && p.vs.logNumber == v.logNumber
    && v.nextFile <= p.vs.nextFile && v.lastSequence <= p.vs.lastSequence
    && p.log in d.logs && p.vs.logNumber <= p.log < p.vs.nextFile
    && LogMatches(d.logs[p.log].records, p.mem, p.pending, p.vs.lastSequence)
    && (forall n :: n in d.logs && n >= p.vs.logNumber ==> n == p.log || (p.imm.Some? && n == p.vs.logNumber))
    && AtMost(p.mem, p.vs.lastSequence)
    && (if p.imm.None? then p.vs.logNumber == p.log
        else
          && p.vs.logNumber in d.logs && p.vs.logNumber < p.log
          && p.imm.value == RecordEntries(d.logs[p.vs.logNumber].records) && AtMost(p.imm.value, p.vs.lastSequence))
    && GoodJob(d, p)
  }

  ghost predicate GoodLogged(d: Disk, vs: Version, manifest: nat, log: nat, added: set<nat>)
    requires Sound(d)
  {
    var v := Manifest(d);
    && vs.live == v.live && manifest == v.nextFile < vs.nextFile
    && log in d.logs && d.logs[log].records == [] && v.logNumber <= log < vs.nextFile
    && (forall n :: n in d.logs && n >= v.logNumber ==> n <= log)
    && added <= d.tables.Keys && (forall n :: n in added ==> v.nextFile < n < vs.nextFile)
    && TableEntries(d.tables, added) == LogEntries(d.logs, v.logNumber)
    && AtMost(TableEntries(d.tables, v.live), vs.lastSequence) && AtMost(TableEntries(d.tables, added), vs.lastSequence)
  }

  ghost function OpeningEdits(vs: Version, log: nat, added: set<nat>): seq<Edit> {
    [Snapshot(vs.live), Change(log, vs.nextFile, vs.lastSequence, added, {})]
  }

  ghost predicate Inv(s: State) {
    && Sound(s.disk) && s.history == Contents(s.disk) && Distinct(s.history)
    && match s.server
       case Down => true
       case Reading(_, _, _, _, _, _) => GoodReading(s.disk, s.server)
       case Logged(vs, manifest, log, added) => GoodLogged(s.disk, vs, manifest, log, added)
       case Saved(vs, manifest, log, added) =>
         && GoodLogged(s.disk, vs, manifest, log, added)
         && manifest in s.disk.manifests && s.disk.manifests[manifest] == OpeningEdits(vs, log, added)
       case Up(_, _, _, _, _, _, _) => GoodUp(s.disk, s.server)
  }

  lemma FreshIsGood()
    ensures Inv(FRESH)
  {
    assert FRESH.disk.manifests[1] == [Change(0, 2, 0, {}, {})];
    assert Replay([]) == Version({}, 0, 0, 0);
    assert [Change(0, 2, 0, {}, {})][..0] == [];
    assert Manifest(FRESH.disk) == Version({}, 0, 2, 0);
  }

  // -------------------------------------------------------------- sets of entries

  lemma RecordEntriesAppend(a: seq<Record>, b: seq<Record>)
    ensures RecordEntries(a + b) == RecordEntries(a) + RecordEntries(b)
  {
    assert forall r :: r in a + b <==> r in a || r in b;
  }

  lemma InLog(logs: map<nat, Log>, oldest: nat, n: nat, e: Entry)
    requires n in logs && n >= oldest && e in RecordEntries(logs[n].records)
    ensures e in LogEntries(logs, oldest)
  {}

  lemma LogEntriesGrow(logs: map<nat, Log>, oldest: nat, n: nat, log: Log)
    requires n >= oldest && (n in logs ==> RecordEntries(logs[n].records) <= RecordEntries(log.records))
    ensures LogEntries(logs[n := log], oldest) == LogEntries(logs, oldest) + RecordEntries(log.records)
  {
    hide RecordEntries;
    var grown := logs[n := log];
    forall e | e in LogEntries(grown, oldest)
      ensures e in LogEntries(logs, oldest) + RecordEntries(log.records)
    {
      var m :| m in grown && m >= oldest && e in RecordEntries(grown[m].records);
      if m != n {
        InLog(logs, oldest, m, e);
      }
    }
    forall e | e in LogEntries(logs, oldest) + RecordEntries(log.records)
      ensures e in LogEntries(grown, oldest)
    {
      if e in RecordEntries(log.records) {
        assert grown[n] == log;
      } else {
        var m :| m in logs && m >= oldest && e in RecordEntries(logs[m].records);
        assert grown[m] == logs[m];
      }
    }
  }

  lemma LogEntriesSame(a: map<nat, Log>, b: map<nat, Log>, oldest: nat)
    requires forall n :: n >= oldest ==> (n in a <==> n in b)
    requires forall n :: n >= oldest && n in a ==> a[n] == b[n]
    ensures LogEntries(a, oldest) == LogEntries(b, oldest)
  {
    hide RecordEntries;
    assert forall e :: e in LogEntries(a, oldest) <==> e in LogEntries(b, oldest);
  }

  lemma TableEntriesSame(a: map<nat, set<Entry>>, b: map<nat, set<Entry>>, files: set<nat>)
    requires forall n :: n in files ==> n in a && n in b && a[n] == b[n]
    ensures TableEntries(a, files) == TableEntries(b, files)
  {}

  lemma TableEntriesUnion(tables: map<nat, set<Entry>>, a: set<nat>, b: set<nat>)
    ensures TableEntries(tables, a + b) == TableEntries(tables, a) + TableEntries(tables, b)
  {}

  lemma LogsGrowInOrder(logs: map<nat, Log>, oldest: nat, n: nat, log: Log)
    requires LogsInOrder(logs, oldest) && n >= oldest && InOrder(log.records) && log.synced <= |log.records|
    requires forall m :: m in logs && oldest <= m ==> m <= n
    requires forall m :: m in logs && oldest <= m < n ==>
      Earlier(RecordEntries(logs[m].records), RecordEntries(log.records))
    ensures LogsInOrder(logs[n := log], oldest)
  {}

  lemma HistoryAtMost(s: State)
    requires Inv(s) && s.server.Up? && s.server.pending.None?
    ensures AtMost(s.history, s.server.vs.lastSequence)
  {
    hide Distinct, LogsInOrder, GoodJob, Earlier;
    var d, p := s.disk, s.server;
    forall e | e in LogEntries(d.logs, p.vs.logNumber)
      ensures e.Sequence() <= p.vs.lastSequence
    {
      var n :| n in d.logs && n >= p.vs.logNumber && e in RecordEntries(d.logs[n].records);
    }
  }

  lemma AppendInOrder(s: State, a: Action)
    requires Inv(s) && a.Append? && Enabled(s, a)
    ensures LogsInOrder(Next(s, a).disk.logs, s.server.vs.logNumber)
  {
    var d, p := s.disk, s.server;
    var log := Next(s, a).disk.logs[p.log];
    HistoryAtMost(s);
    LaterRecord(a.record, p.vs.lastSequence);
    RecordEntriesAppend(d.logs[p.log].records, [a.record]);
    assert InOrder(log.records);
    hide GoodJob, RecordEntries, InOrder, Distinct;
    forall m | m in d.logs && p.vs.logNumber <= m < p.log
      ensures Earlier(RecordEntries(d.logs[m].records), RecordEntries(log.records))
    {
      forall e | e in RecordEntries(d.logs[m].records) ensures e in s.history {
        InLog(d.logs, p.vs.logNumber, m, e);
      }
    }
    LogsGrowInOrder(d.logs, p.vs.logNumber, p.log, log);
  }

  lemma AppendIsSound(s: State, a: Action)
    requires Inv(s) && a.Append? && Enabled(s, a)
    ensures Sound(Next(s, a).disk) && Next(s, a).history == Contents(Next(s, a).disk)
    ensures Distinct(Next(s, a).history)
  {
    hide GoodJob, RecordEntries, LogsInOrder, InOrder, Replay;
    var d, p := s.disk, s.server;
    HistoryAtMost(s);
    LaterRecord(a.record, p.vs.lastSequence);
    RecordEntriesAppend(d.logs[p.log].records, [a.record]);
    LogEntriesGrow(d.logs, p.vs.logNumber, p.log, Next(s, a).disk.logs[p.log]);
    AppendInOrder(s, a);
  }

  lemma AppendStep(s: State, a: Action)
    requires Inv(s) && a.Append? && Enabled(s, a)
    ensures Inv(Next(s, a))
  {
    AppendIsSound(s, a);
    var d, p, t := s.disk, s.server, Next(s, a);
    var records := d.logs[p.log].records;
    assert (records + [a.record])[..|records|] == records;
    hide Distinct, LogsInOrder, Earlier, RecordEntries, AtMost;
  }

  lemma LaterRecord(record: Record, last: nat)
    requires record.Numbered() && record.first == last + 1
    ensures forall e :: e in RecordEntries([record]) ==> last < e.Sequence() <= record.Last()
    ensures Distinct(RecordEntries([record]))
  {}

  lemma ApplyStep(s: State, a: Action)
    requires Inv(s) && a.Apply? && Enabled(s, a)
    ensures Inv(Next(s, a))
  {
    var d, p := s.disk, s.server;
    var records := d.logs[p.log].records;
    RecordEntriesAppend(records[..|records| - 1], [p.pending.value]);
    assert records == records[..|records| - 1] + [p.pending.value];
  }

  /** Changes to a disk that its contents do not depend on. */
  lemma SameContents(d: Disk, e: Disk)
    requires Sound(d) && e.current == d.current && e.current in e.manifests
    requires e.manifests[e.current] == d.manifests[d.current]
    requires forall n :: n in Manifest(d).live ==> n in e.tables && e.tables[n] == d.tables[n]
    requires LogEntries(e.logs, Manifest(d).logNumber) == LogEntries(d.logs, Manifest(d).logNumber)
    requires LogsInOrder(e.logs, Manifest(d).logNumber)
    ensures Sound(e) && Manifest(e) == Manifest(d) && Contents(e) == Contents(d)
  {
    TableEntriesSame(d.tables, e.tables, Manifest(d).live);
  }

  lemma NewLogIsSound(d: Disk, n: nat)
    requires Sound(d) && forall m :: m in d.logs && m >= Manifest(d).logNumber ==> m < n
    requires n >= Manifest(d).logNumber
    ensures var e := d.(logs := d.logs[n := Log([], 0)]);
      && Sound(e) && Manifest(e) == Manifest(d) && Contents(e) == Contents(d)
      && LogEntries(e.logs, Manifest(e).logNumber) == LogEntries(d.logs, Manifest(d).logNumber)
  {
    assert RecordEntries([]) == {};
    LogEntriesGrow(d.logs, Manifest(d).logNumber, n, Log([], 0));
    LogsGrowInOrder(d.logs, Manifest(d).logNumber, n, Log([], 0));
    SameContents(d, d.(logs := d.logs[n := Log([], 0)]));
  }

  lemma SwitchStep(s: State, a: Action)
    requires Inv(s) && a.Switch? && Enabled(s, a)
    ensures Inv(Next(s, a))
  {
    NewLogIsSound(s.disk, s.server.vs.nextFile);
    assert RecordEntries([]) == {};
    hide Sound, Contents, Distinct, RecordEntries;
  }

  lemma NewTable(tables: map<nat, set<Entry>>, n: nat, table: set<Entry>)
    ensures TableEntries(tables[n := table], {n}) == table
    ensures TableEntries(tables, {}) == {}
  {
    assert tables[n := table][n] == table;
  }

  lemma OtherTable(tables: map<nat, set<Entry>>, files: set<nat>, n: nat, table: set<Entry>)
    requires n !in files
    ensures TableEntries(tables[n := table], files) == TableEntries(tables, files)
  {
    var after := tables[n := table];
    assert forall m :: m in files ==> (m in tables <==> m in after) && (m in tables ==> tables[m] == after[m]);
  }

  lemma TableWritten(d: Disk, n: nat, table: set<Entry>)
    requires Sound(d) && n !in Manifest(d).live
    ensures var e := WithTable(d, n, table);
      && Sound(e) && Manifest(e) == Manifest(d) && Contents(e) == Contents(d)
      && TableEntries(e.tables, Manifest(d).live) == TableEntries(d.tables, Manifest(d).live)
  {
    SameContents(d, WithTable(d, n, table));
    OtherTable(d.tables, Manifest(d).live, n, table);
  }

  /** Background work does not notice changes to tables that are neither live nor its own. */
  lemma JobKept(d: Disk, e: Disk, p: Server)
    requires p.Up? && GoodJob(d, p) && p.vs.live <= d.tables.Keys
    requires forall n :: n in d.tables && n in p.vs.live + PendingOutputs(p.job) ==> n in e.tables && e.tables[n] == d.tables[n]
    ensures GoodJob(e, p)
  {
    TableEntriesSame(d.tables, e.tables, p.vs.live);
    match p.job
    case Idle =>
    case Flushed(table) => TableEntriesSame(d.tables, e.tables, table);
    case Compacted(inputs, outputs) =>
      TableEntriesSame(d.tables, e.tables, inputs);
      TableEntriesSame(d.tables, e.tables, outputs);
    case Committing(edit, _) =>
      TableEntriesSame(d.tables, e.tables, edit.deleted);
      TableEntriesSame(d.tables, e.tables, edit.added);
  }

  lemma BuildFlushStep(s: State, a: Action)
    requires Inv(s) && a.BuildFlush? && Enabled(s, a)
    ensures Inv(Next(s, a))
  {
    hide RecordEntries, LogEntries, LogsInOrder, Earlier, AtMost, Distinct, Replay, TableEntries;
    TableWritten(s.disk, s.server.vs.nextFile, s.server.imm.value);
    NewTable(s.disk.tables, s.server.vs.nextFile, s.server.imm.value);
  }

  lemma BuildCompactionStep(s: State, a: Action)
    requires Inv(s) && a.BuildCompaction? && Enabled(s, a)
    ensures Inv(Next(s, a))
  {
    SameContents(s.disk, Next(s, a).disk);
    hide Sound, Contents, Distinct, RecordEntries;
  }

  lemma PrepareStep(s: State, a: Action)
    requires Inv(s) && a.Prepare? && Enabled(s, a)
    ensures Inv(Next(s, a))
  {
    hide Contents, Distinct, RecordEntries, Earlier, LogsInOrder;
  }

  lemma DeleteLogStep(s: State, a: Action)
    requires Inv(s) && a.DeleteLog? && Enabled(s, a)
    ensures Inv(Next(s, a))
  {
    LogEntriesSame(s.disk.logs, Next(s, a).disk.logs, s.server.vs.logNumber);
    SameContents(s.disk, Next(s, a).disk);
    hide Sound, Contents, Distinct, RecordEntries;
  }

  lemma DeleteTableStep(s: State, a: Action)
    requires Inv(s) && a.DeleteTable? && Enabled(s, a)
    ensures Inv(Next(s, a))
  {
    SameContents(s.disk, Next(s, a).disk);
    JobKept(s.disk, Next(s, a).disk, s.server);
    hide Sound, Contents, Distinct, RecordEntries, GoodJob;
  }

  lemma DeleteManifestStep(s: State, a: Action)
    requires Inv(s) && a.DeleteManifest? && Enabled(s, a)
    ensures Inv(Next(s, a))
  {
    SameContents(s.disk, Next(s, a).disk);
    hide Sound, Contents, Distinct, RecordEntries;
  }

  lemma AllUnread(logs: map<nat, Log>, oldest: nat, todo: seq<nat>)
    requires forall n :: n in todo <==> n in logs && n >= oldest
    ensures Unread(logs, todo, 0) == LogEntries(logs, oldest)
  {
    hide RecordEntries;
    if todo == [] {
    } else {
      var first := logs[todo[0]].records;
      assert first[0..] == first;
      assert forall n :: n in todo <==> n == todo[0] || n in todo[1..];
    }
  }

  lemma OpenStep(s: State, a: Action)
    requires Inv(s) && a.Open? && Enabled(s, a)
    ensures Inv(Next(s, a))
  {
    AllUnread(s.disk.logs, Manifest(s.disk).logNumber, a.todo);
    assert TableEntries(s.disk.tables, {}) == {};
    hide Distinct, RecordEntries, LogEntries, Unread, Contents;
  }

  // ------------------------------------------------------------------- commit

  lemma ReplayAppend(edits: seq<Edit>, edit: Edit)
    requires edit.Change?
    ensures Replay(edits + [edit]) ==
      Version(Replay(edits).live - edit.deleted + edit.added, edit.logNumber, edit.nextFile, edit.lastSequence)
  {
    assert (edits + [edit])[..|edits|] == edits;
  }

  /** Once a flush is committed its log is no longer needed: the table has the same entries. */
  lemma FlushedLogIsObsolete(d: Disk, p: Server)
    requires Sound(d) && p.Up? && GoodUp(d, p) && p.imm.Some?
    ensures LogEntries(d.logs, p.vs.logNumber) == p.imm.value + LogEntries(d.logs, p.log)
  {
    hide RecordEntries;
    forall e | e in LogEntries(d.logs, p.vs.logNumber)
      ensures e in p.imm.value + LogEntries(d.logs, p.log)
    {
      var n :| n in d.logs && n >= p.vs.logNumber && e in RecordEntries(d.logs[n].records);
      if n == p.log {
        InLog(d.logs, p.log, n, e);
      }
    }
    forall e | e in p.imm.value
      ensures e in LogEntries(d.logs, p.vs.logNumber)
    {
      InLog(d.logs, p.vs.logNumber, p.vs.logNumber, e);
    }
  }

  lemma CommitStep(s: State, a: Action)
    requires Inv(s) && a.Commit? && Enabled(s, a)
    ensures Inv(Next(s, a))
  {
    hide RecordEntries, LogMatches, Replay;
    var d, p, t := s.disk, s.server, Next(s, a);
    ReplayAppend(d.manifests[p.manifest], p.job.edit);
    TableEntriesUnion(d.tables, p.vs.live - p.job.edit.deleted, p.job.edit.added);
    if p.job.flush {
      FlushedLogIsObsolete(d, p);
    }
  }

  // -------------------------------------------------------------------- crash

  lemma CrashStep(s: State, a: Action)
    requires Inv(s) && a.Crash? && Enabled(s, a)
    ensures Inv(Next(s, a))
    ensures Next(s, a).history <= s.history
  {
    var d, t := s.disk, Next(s, a);
    assert forall n :: n in d.logs ==> RecordEntries(t.disk.logs[n].records) <= RecordEntries(d.logs[n].records);
    hide RecordEntries;
    assert LogEntries(t.disk.logs, Manifest(d).logNumber) <= LogEntries(d.logs, Manifest(d).logNumber);
  }

  // ----------------------------------------------------------------- recovery

  lemma NextUnread(logs: map<nat, Log>, todo: seq<nat>)
    requires todo != [] && forall n :: n in todo ==> n in logs
    ensures Unread(logs, todo[1..], 0) == FileEntries(logs, todo[1..])
    ensures Unread(logs, todo, |logs[todo[0]].records|) == FileEntries(logs, todo[1..])
  {
    assert RecordEntries([]) == {};
    hide RecordEntries;
    var rest := todo[1..];
    if rest != [] {
      assert logs[rest[0]].records[0..] == logs[rest[0]].records;
      assert forall n :: n in rest <==> n == rest[0] || n in rest[1..];
    }
  }

  lemma NextLogStep(s: State, a: Action)
    requires Inv(s) && a.NextLog? && Enabled(s, a)
    ensures Inv(Next(s, a))
  {
    hide LogEntries, LogsInOrder, Earlier, AtMost, Distinct, Replay, TableEntries, Unread, Recovered;
    var d, p := s.disk, s.server;
    NextUnread(d.logs, p.todo);
  }

  lemma {:induction false} ChunkAtMost(records: seq<Record>, least: int)
    requires forall r :: r in records ==> r.Numbered()
    ensures MaxLast(records, least) >= least
    ensures AtMost(RecordEntries(records), MaxLast(records, least))
  {
    if records != [] {
      var front, r := records[..|records| - 1], records[|records| - 1];
      ChunkAtMost(front, least);
      assert records == front + [r];
      RecordEntriesAppend(front, [r]);
    }
  }

  /** Reading more records moves their entries from the unread ones ... */
  lemma UnreadSplits(logs: map<nat, Log>, todo: seq<nat>, done: nat, count: nat)
    requires todo != [] && forall n :: n in todo ==> n in logs
    requires done + count <= |logs[todo[0]].records|
    ensures Unread(logs, todo, done)
      == RecordEntries(logs[todo[0]].records[done..done + count]) + Unread(logs, todo, done + count)
  {
    var records := logs[todo[0]].records;
    assert records[done..] == records[done..done + count] + records[done + count..];
    RecordEntriesAppend(records[done..done + count], records[done + count..]);
    hide RecordEntries, FileEntries;
  }

  /** ... which are all later. */
  lemma ChunkIsEarlier(logs: map<nat, Log>, oldest: nat, todo: seq<nat>, done: nat, below: nat)
    requires LogsInOrder(logs, oldest) && todo != [] && forall n :: n in todo ==> n in logs && n >= oldest
    requires forall i, j :: 0 <= i < j < |todo| ==> todo[i] < todo[j]
    requires done <= below <= |logs[todo[0]].records|
    ensures Earlier(RecordEntries(logs[todo[0]].records[done..below]), Unread(logs, todo, below))
  {
    var records := logs[todo[0]].records;
    var chunk := RecordEntries(records[done..below]);
    assert chunk <= RecordEntries(records);
    forall d, e | d in chunk && e in RecordEntries(records[below..])
      ensures d.Sequence() < e.Sequence()
    {
      InOrderIsEarlier(records, done, below, d, e);
    }
    hide RecordEntries, InOrder;
    forall d, e | d in chunk && e in FileEntries(logs, todo[1..])
      ensures d.Sequence() < e.Sequence()
    {
      var n :| n in todo[1..] && e in RecordEntries(logs[n].records);
      assert Earlier(RecordEntries(records), RecordEntries(logs[n].records));
    }
  }

  lemma ChunkNumbered(records: seq<Record>, from: nat, below: nat)
    requires InOrder(records) && from <= below <= |records|
    ensures forall r :: r in records[from..below] ==> r.Numbered()
  {}

  lemma InOrderIsEarlier(records: seq<Record>, from: nat, below: nat, d: Entry, e: Entry)
    requires InOrder(records) && from <= below <= |records|
    requires d in RecordEntries(records[from..below]) && e in RecordEntries(records[below..])
    ensures d.Sequence() < e.Sequence()
  {
    var i: nat :| from <= i < below && d in records[i].entries;
    var j: nat :| below <= j < |records| && e in records[j].entries;
    assert records[i].Last() < records[j].first;
  }

  lemma TableAdded(tables: map<nat, set<Entry>>, added: set<nat>, n: nat, table: set<Entry>)
    requires n !in added
    ensures var after := if table == {} then tables else tables[n := table];
      TableEntries(after, if table == {} then added else added + {n}) == TableEntries(tables, added) + table
  {
    if table != {} {
      var after := tables[n := table];
      TableEntriesUnion(after, added, {n});
      NewTable(tables, n, table);
      OtherTable(tables, added, n, table);
    }
  }

  lemma ChunkFacts(logs: map<nat, Log>, oldest: nat, todo: seq<nat>, done: nat, below: nat, least: int)
    requires LogsInOrder(logs, oldest) && todo != [] && forall n :: n in todo ==> n in logs && n >= oldest
    requires forall i, j :: 0 <= i < j < |todo| ==> todo[i] < todo[j]
    requires done <= below <= |logs[todo[0]].records|
    ensures var chunk := logs[todo[0]].records[done..below];
      && Unread(logs, todo, done) == RecordEntries(chunk) + Unread(logs, todo, below)
      && Earlier(RecordEntries(chunk), Unread(logs, todo, below))
      && MaxLast(chunk, least) >= least && AtMost(RecordEntries(chunk), MaxLast(chunk, least))
  {
    hide Earlier, AtMost, RecordEntries, MaxLast, Unread;
    var n := todo[0];
    assert n in todo && InOrder(logs[n].records);
    ChunkNumbered(logs[todo[0]].records, done, below);
    hide InOrder;
    UnreadSplits(logs, todo, done, below - done);
    ChunkIsEarlier(logs, oldest, todo, done, below);
    ChunkAtMost(logs[todo[0]].records[done..below], least);
    hide *;
  }

  lemma ReadChunk(d: Disk, v: Version, p: Server, count: nat, table: set<Entry>, last: int)
    requires p.Reading? && ReadingFiles(d, v, p) && p.todo != [] && p.vs.nextFile !in v.live
    requires 0 < count && p.done + count <= |d.logs[p.todo[0]].records|
    ensures ReadingFiles(WithTable(d, p.vs.nextFile, table), v,
      p.(done := p.done + count, maxSequence := last, added := if table == {} then p.added else p.added + {p.vs.nextFile},
         vs := p.vs.(nextFile := p.vs.nextFile + 1)))
  {}

  lemma MoreRecovered(tables: set<Entry>, unread: set<Entry>, table: set<Entry>, rest: set<Entry>, all: set<Entry>, last: int, newLast: int)
    requires Recovered(tables, unread, all, last)
    requires unread == table + rest && Earlier(table, rest) && AtMost(table, newLast) && newLast >= last
    ensures Recovered(tables + table, rest, all, newLast)
  {}

  lemma ReadChunkEntries(d: Disk, p: Server, count: nat)
    requires Sound(d) && p.Reading? && GoodReading(d, p) && p.todo != []
    requires 0 < count && p.done + count <= |d.logs[p.todo[0]].records|
    ensures var chunk := Chunk(d, p, count);
      var q := AfterChunk(d, p, count);
      Recovered(TableEntries(d.tables, p.added) + RecordEntries(chunk), Unread(d.logs, q.todo, q.done),
                LogEntries(d.logs, Manifest(d).logNumber), q.maxSequence)
  {
    hide RecordEntries, TableEntries, LogEntries, Unread, MaxLast, LogsInOrder, Earlier, AtMost, Recovered, Replay;
    var chunk, oldest := Chunk(d, p, count), Manifest(d).logNumber;
    ChunkFacts(d.logs, oldest, p.todo, p.done, p.done + count, p.maxSequence);
    MoreRecovered(TableEntries(d.tables, p.added), Unread(d.logs, p.todo, p.done), RecordEntries(chunk),
      Unread(d.logs, p.todo, p.done + count), LogEntries(d.logs, oldest), p.maxSequence, MaxLast(chunk, p.maxSequence));
  }

  lemma RecoverTableStep(s: State, a: Action)
    requires Inv(s) && a.RecoverTable? && Enabled(s, a)
    ensures Inv(Next(s, a))
  {
    var d, p := s.disk, s.server;
    hide RecordEntries, TableEntries, LogEntries, Unread, MaxLast, LogsInOrder, Earlier, AtMost, Recovered, Replay,
      Distinct;
    var table := RecordEntries(Chunk(d, p, a.count));
    TableWritten(d, p.vs.nextFile, table);
    ReadChunkEntries(d, p, a.count);
    TableAdded(d.tables, p.added, p.vs.nextFile, table);
    ReadChunk(d, Manifest(d), p, a.count, table, AfterChunk(d, p, a.count).maxSequence);
  }

  lemma CreateLogStep(s: State, a: Action)
    requires Inv(s) && a.CreateLog? && Enabled(s, a)
    ensures Inv(Next(s, a))
  {
    hide LogEntries, LogsInOrder, Earlier, Distinct, Replay, TableEntries;
    NewLogIsSound(s.disk, s.server.vs.nextFile);
    hide Contents, Sound;
  }

  lemma WriteManifestStep(s: State, a: Action)
    requires Inv(s) && a.WriteManifest? && Enabled(s, a)
    ensures Inv(Next(s, a))
  {
    SameContents(s.disk, Next(s, a).disk);
    hide Sound, Contents, Distinct, RecordEntries, TableEntries, LogEntries;
  }

  lemma OpeningReplay(vs: Version, log: nat, added: set<nat>)
    ensures Replay(OpeningEdits(vs, log, added)) == Version(vs.live + added, log, vs.nextFile, vs.lastSequence)
  {
    var snapshot := [Snapshot(vs.live)];
    assert snapshot[..0] == [];
    assert Replay(snapshot).live == vs.live;
    ReplayAppend(snapshot, Change(log, vs.nextFile, vs.lastSequence, added, {}));
    assert OpeningEdits(vs, log, added) == snapshot + [Change(log, vs.nextFile, vs.lastSequence, added, {})];
  }

  lemma NoLogEntries(logs: map<nat, Log>, oldest: nat)
    requires forall n :: n in logs && n >= oldest ==> logs[n].records == []
    ensures LogEntries(logs, oldest) == {}
  {}

  lemma SwitchCurrentStep(s: State, a: Action)
    requires Inv(s) && a.SwitchCurrent? && Enabled(s, a)
    ensures Inv(Next(s, a))
  {
    var d, p, t := s.disk, s.server, Next(s, a);
    OpeningReplay(p.vs, p.log, p.added);
    TableEntriesUnion(d.tables, p.vs.live, p.added);
    assert RecordEntries([]) == {};
    NoLogEntries(d.logs, p.log);
    hide RecordEntries, TableEntries, LogEntries, Distinct;
  }

  // --------------------------------------------------------------------- runs

  lemma EveryStep(s: State, a: Action)
    requires Inv(s) && Enabled(s, a)
    ensures Inv(Next(s, a))
  {
    hide Inv, Next, Enabled;
    match a
    case Append(_, _) => AppendStep(s, a);
    case Apply => ApplyStep(s, a);
    case Switch => SwitchStep(s, a);
    case BuildFlush => BuildFlushStep(s, a);
    case BuildCompaction(_, _, _, _) => BuildCompactionStep(s, a);
    case Prepare => PrepareStep(s, a);
    case Commit => CommitStep(s, a);
    case DeleteLog(_) => DeleteLogStep(s, a);
    case DeleteTable(_) => DeleteTableStep(s, a);
    case DeleteManifest(_) => DeleteManifestStep(s, a);
    case Crash(_) => CrashStep(s, a);
    case Open(_) => OpenStep(s, a);
    case RecoverTable(_) => RecoverTableStep(s, a);
    case NextLog => NextLogStep(s, a);
    case CreateLog => CreateLogStep(s, a);
    case WriteManifest => WriteManifestStep(s, a);
    case SwitchCurrent => SwitchCurrentStep(s, a);
  }

  ghost predicate IsRun(states: seq<State>, actions: seq<Action>) {
    && |states| == |actions| + 1 && states[0] == FRESH
    && forall i :: 0 <= i < |actions| ==> Enabled(states[i], actions[i]) && states[i + 1] == Next(states[i], actions[i])
  }

  /** What a process serves reads from. */
  ghost function Served(d: Disk, p: Server): set<Entry>
    requires p.Up?
  {
    p.mem + (if p.imm.Some? then p.imm.value else {}) + TableEntries(d.tables, p.vs.live)
  }

  /**
   * Nothing in the history is ever out of reach: a disk nobody serves holds exactly the history, a
   * serving process reads it but for the write in flight, and recovery has rebuilt it.
   */
  ghost predicate Safe(s: State) {
    && Distinct(s.history)
    && match s.server
       case Down =>
         && s.disk.current in s.disk.manifests && Contents(s.disk) == s.history
         && exists todo :: Enabled(s, Open(todo))
       case Reading(_, _, _, _, _, _) => true
       case Logged(vs, _, _, added) => Recovery(s, vs, added)
       case Saved(vs, _, _, added) => Recovery(s, vs, added)
       case Up(vs, _, _, _, _, pending, _) =>
         && s.history == Served(s.disk, s.server) + (if pending.Some? then RecordEntries([pending.value]) else {})
         && vs.live <= s.disk.tables.Keys && AtMost(Served(s.disk, s.server), vs.lastSequence)
  }

  ghost predicate Recovery(s: State, vs: Version, added: set<nat>) {
    TableEntries(s.disk.tables, vs.live + added) == s.history && AtMost(s.history, vs.lastSequence)
  }

  lemma {:induction false} SortedLogs(files: set<nat>) returns (todo: seq<nat>)
    ensures forall n :: n in todo <==> n in files
    ensures forall i, j :: 0 <= i < j < |todo| ==> todo[i] < todo[j]
    decreases |files|
  {
    if files == {} {
      todo := [];
    } else {
      var largest := Largest(files);
      var rest := SortedLogs(files - {largest});
      forall i | 0 <= i < |rest|
        ensures rest[i] < largest
      {
        assert rest[i] in files - {largest};
      }
      todo := rest + [largest];
    }
  }

  lemma {:induction false} Largest(files: set<nat>) returns (n: nat)
    requires files != {}
    ensures n in files && forall m :: m in files ==> m <= n
    decreases |files|
  {
    var x :| x in files;
    n := x;
    if files != {x} {
      var m := Largest(files - {x});
      assert forall k :: k in files ==> k == x || k in files - {x};
      n := if m > x then m else x;
    }
  }

  lemma UpIsSafe(s: State)
    requires Inv(s) && s.server.Up?
    ensures Safe(s)
  {
    hide Distinct, LogsInOrder, Earlier, GoodJob;
    var d, p := s.disk, s.server;
    var records := d.logs[p.log].records;
    if p.imm.Some? {
      FlushedLogIsObsolete(d, p);
    }
    OnlyLog(d, p);
    if p.pending.Some? {
      RecordEntriesAppend(records[..|records| - 1], [p.pending.value]);
      assert records == records[..|records| - 1] + [p.pending.value];
    }
    hide RecordEntries, LogEntries, TableEntries, Replay;
  }

  lemma OnlyLog(d: Disk, p: Server)
    requires Sound(d) && p.Up? && GoodUp(d, p)
    ensures LogEntries(d.logs, p.log) == RecordEntries(d.logs[p.log].records)
  {
    hide RecordEntries;
    forall e | e in RecordEntries(d.logs[p.log].records)
      ensures e in LogEntries(d.logs, p.log)
    {
      InLog(d.logs, p.log, p.log, e);
    }
  }

  lemma GoodIsSafe(s: State)
    requires Inv(s)
    ensures Safe(s)
  {
    match s.server
    case Up(_, _, _, _, _, _, _) => UpIsSafe(s);
    case Down =>
      var todo := SortedLogs(set n | n in s.disk.logs && n >= Manifest(s.disk).logNumber);
      assert Enabled(s, Open(todo));
    case Logged(vs, _, _, added) => TableEntriesUnion(s.disk.tables, vs.live, added);
    case Saved(vs, _, _, added) => TableEntriesUnion(s.disk.tables, vs.live, added);
    case Reading(_, _, _, _, _, _) =>
  }

  /** Every state of every run is safe. */
  lemma {:induction false} RunsAreCrashSafe(states: seq<State>, actions: seq<Action>, k: nat)
    requires IsRun(states, actions) && k < |states|
    ensures Inv(states[k]) && Safe(states[k])
  {
    hide Inv, Next, Enabled, Safe;
    if k == 0 {
      FreshIsGood();
    } else {
      RunsAreCrashSafe(states, actions, k - 1);
      EveryStep(states[k - 1], actions[k - 1]);
    }
    GoodIsSafe(states[k]);
  }

  // --------------------------------------------------------------- durability

  function Stable(log: Log): Log {
    Log(log.records[..if log.synced <= |log.records| then log.synced else |log.records|], log.synced)
  }

  ghost function StableLogs(logs: map<nat, Log>): map<nat, Log> { map n | n in logs :: Stable(logs[n]) }

  /** What not even a machine crash takes: the tables of the version and the synced records. */
  ghost function Durable(d: Disk): set<Entry>
    requires d.current in d.manifests
  {
    TableEntries(d.tables, Manifest(d).live) + LogEntries(StableLogs(d.logs), Manifest(d).logNumber)
  }

  /** The entries a compaction leaves out of the version. */
  ghost function Dropped(s: State, a: Action): set<Entry>
    requires Enabled(s, a)
  {
    if a.Commit? then TableEntries(s.disk.tables, s.server.vs.live) - TableEntries(s.disk.tables, Next(s, a).server.vs.live)
    else {}
  }

  lemma LogEntriesMonotone(a: map<nat, Log>, b: map<nat, Log>, oldest: nat)
    requires forall n :: n in a && n >= oldest ==> n in b && RecordEntries(a[n].records) <= RecordEntries(b[n].records)
    ensures LogEntries(a, oldest) <= LogEntries(b, oldest)
  {
    hide RecordEntries;
    forall e | e in LogEntries(a, oldest)
      ensures e in LogEntries(b, oldest)
    {
      var n :| n in a && n >= oldest && e in RecordEntries(a[n].records);
      InLog(b, oldest, n, e);
    }
  }

  lemma StableIsPart(logs: map<nat, Log>, oldest: nat)
    ensures LogEntries(StableLogs(logs), oldest) <= LogEntries(logs, oldest)
  {
    LogEntriesMonotone(StableLogs(logs), logs, oldest);
  }

  lemma StableGrows(a: map<nat, Log>, b: map<nat, Log>, oldest: nat)
    requires forall n :: n in a && n >= oldest ==> n in b && Stable(a[n]).records <= Stable(b[n]).records
    ensures LogEntries(StableLogs(a), oldest) <= LogEntries(StableLogs(b), oldest)
  {
    LogEntriesMonotone(StableLogs(a), StableLogs(b), oldest);
  }

  /** Neither the version's tables nor a synced record are touched in place. */
  ghost predicate InPlace(d: Disk, e: Disk, live: set<nat>, oldest: nat) {
    && (forall n :: n in live && n in d.tables ==> n in e.tables && e.tables[n] == d.tables[n])
    && forall n :: n in d.logs && n >= oldest ==> n in e.logs && Stable(d.logs[n]).records <= Stable(e.logs[n]).records
  }

  ghost predicate TouchesNothingDurable(s: State, a: Action)
    requires Sound(s.disk) && Enabled(s, a)
  {
    var d, e := s.disk, Next(s, a).disk;
    && InPlace(d, e, Manifest(d).live, Manifest(d).logNumber)
    && e.current == d.current && d.current in e.manifests && e.manifests[d.current] == d.manifests[d.current]
  }

  lemma AppendTouchesNothingDurable(s: State, a: Action)
    requires Inv(s) && Enabled(s, a) && a.Append?
    ensures TouchesNothingDurable(s, a)
  {
    hide RecordEntries, LogEntries, TableEntries, Replay, Earlier, AtMost, Distinct, LogMatches, InOrder, GoodJob;
    assert Stable(s.disk.logs[s.server.log]).records <= Stable(Next(s, a).disk.logs[s.server.log]).records;
  }

  lemma BuildTouchesNothingDurable(s: State, a: Action)
    requires Inv(s) && Enabled(s, a) && (a.Switch? || a.BuildFlush? || a.BuildCompaction? || a.CreateLog? || a.RecoverTable?)
    ensures TouchesNothingDurable(s, a)
  {
    hide RecordEntries, LogEntries, TableEntries, Replay, Earlier, AtMost, Distinct, LogMatches, InOrder,
      LogsInOrder, GoodJob,
      Recovered, Unread, Stable;
  }

  lemma DeleteTouchesNothingDurable(s: State, a: Action)
    requires Inv(s) && Enabled(s, a)
    requires a.DeleteLog? || a.DeleteTable? || a.DeleteManifest? || a.Crash? || a.WriteManifest?
    ensures TouchesNothingDurable(s, a)
  {
    hide RecordEntries, LogEntries, TableEntries, Replay, Earlier, AtMost, Distinct, LogMatches, InOrder, GoodJob,
      Recovered, Unread;
  }

  lemma InPlaceIsDurable(d: Disk, e: Disk)
    requires Sound(d) && e.current == d.current && e.current in e.manifests
    requires e.manifests[e.current] == d.manifests[d.current]
    requires InPlace(d, e, Manifest(d).live, Manifest(d).logNumber)
    ensures Durable(d) <= Durable(e)
  {
    hide TableEntries, LogEntries, Replay, StableLogs, Stable;
    StableGrows(d.logs, e.logs, Manifest(d).logNumber);
    TableEntriesSame(d.tables, e.tables, Manifest(d).live);
  }

  lemma OtherStepsAreDurable(s: State, a: Action)
    requires Inv(s) && Enabled(s, a) && (a.Apply? || a.Prepare? || a.Open? || a.NextLog?)
    ensures Next(s, a).disk == s.disk
  {}

  /** What has reached stable storage stays, unless a compaction drops it. */
  lemma DurableStays(s: State, a: Action)
    requires Inv(s) && Enabled(s, a)
    ensures Inv(Next(s, a))
    ensures Durable(s.disk) <= Durable(Next(s, a).disk) + Dropped(s, a)
  {
    EveryStep(s, a);
    hide Next, Enabled, Durable, Dropped, Manifest, InPlace;
    match a
    case Commit => CommitIsDurable(s, a);
    case SwitchCurrent => SwitchIsDurable(s, a);
    case Append(_, _) =>
      AppendTouchesNothingDurable(s, a);
      InPlaceIsDurable(s.disk, Next(s, a).disk);
    case DeleteLog(_) =>
      DeleteTouchesNothingDurable(s, a);
      InPlaceIsDurable(s.disk, Next(s, a).disk);
    case DeleteTable(_) =>
      DeleteTouchesNothingDurable(s, a);
      InPlaceIsDurable(s.disk, Next(s, a).disk);
    case DeleteManifest(_) =>
      DeleteTouchesNothingDurable(s, a);
      InPlaceIsDurable(s.disk, Next(s, a).disk);
    case Crash(_) =>
      DeleteTouchesNothingDurable(s, a);
      InPlaceIsDurable(s.disk, Next(s, a).disk);
    case WriteManifest =>
      DeleteTouchesNothingDurable(s, a);
      InPlaceIsDurable(s.disk, Next(s, a).disk);
    case Apply => OtherStepsAreDurable(s, a);
    case Prepare => OtherStepsAreDurable(s, a);
    case Open(_) => OtherStepsAreDurable(s, a);
    case NextLog => OtherStepsAreDurable(s, a);
    case _ =>
      BuildTouchesNothingDurable(s, a);
      InPlaceIsDurable(s.disk, Next(s, a).disk);
  }

  lemma CommitIsDurable(s: State, a: Action)
    requires Inv(s) && a.Commit? && Enabled(s, a)
    ensures Inv(Next(s, a)) && Durable(s.disk) <= Durable(Next(s, a).disk) + Dropped(s, a)
  {
    CommitStep(s, a);
    hide RecordEntries, Replay, LogsInOrder, Earlier, AtMost, Distinct;
    var d, p := s.disk, s.server;
    ReplayAppend(d.manifests[p.manifest], p.job.edit);
    if p.job.flush {
      FlushedLogIsObsolete(d, p);
      StableIsPart(d.logs, p.vs.logNumber);
      TableEntriesUnion(d.tables, p.vs.live, p.job.edit.added);
    }
  }

  lemma SwitchIsDurable(s: State, a: Action)
    requires Inv(s) && a.SwitchCurrent? && Enabled(s, a)
    ensures Inv(Next(s, a)) && Durable(s.disk) <= Durable(Next(s, a).disk)
  {
    SwitchCurrentStep(s, a);
    hide RecordEntries, Replay, LogsInOrder, Earlier, AtMost, Distinct;
    var d, p := s.disk, s.server;
    OpeningReplay(p.vs, p.log, p.added);
    TableEntriesUnion(d.tables, p.vs.live, p.added);
    StableIsPart(d.logs, Manifest(d).logNumber);
  }

  /** A write is in the history once appended, and durable at once, with all of its log, when it asked to be synced. */
  lemma SyncedWritesAreDurable(s: State, a: Action)
    requires Inv(s) && a.Append? && Enabled(s, a)
    ensures Next(s, a).history == s.history + RecordEntries([a.record])
    ensures a.sync ==> RecordEntries(s.disk.logs[s.server.log].records + [a.record]) <= Durable(Next(s, a).disk)
  {
    if a.sync {
      var d, p, e := s.disk, s.server, Next(s, a).disk;
      var log := e.logs[p.log];
      assert Stable(log).records == log.records == d.logs[p.log].records + [a.record];
      forall x | x in RecordEntries(log.records)
        ensures x in LogEntries(StableLogs(e.logs), p.vs.logNumber)
      {
        assert x in RecordEntries(StableLogs(e.logs)[p.log].records);
      }
    }
  }

  /** A process crash loses nothing; a machine crash nothing durable. */
  lemma CrashesLoseOnlyTheUnsynced(s: State, a: Action)
    requires Inv(s) && a.Crash? && Enabled(s, a)
    ensures Durable(s.disk) <= Next(s, a).history <= s.history
    ensures (forall n :: n in a.kept ==> a.kept[n] == |s.disk.logs[n].records|) ==> Next(s, a).history == s.history
  {
    CrashStep(s, a);
    hide Distinct, Earlier, AtMost, GoodUp, GoodReading, GoodLogged, LogsInOrder, LogEntries, TableEntries, Replay;
    var d, e := s.disk, Next(s, a).disk;
    LogEntriesMonotone(StableLogs(d.logs), e.logs, Manifest(d).logNumber);
    if forall n :: n in a.kept ==> a.kept[n] == |d.logs[n].records| {
      assert forall n :: n in d.logs ==> e.logs[n].records == d.logs[n].records;
      LogEntriesMonotone(d.logs, e.logs, Manifest(d).logNumber);
    }
  }

  // ------------------------------------------------------------------- ledger

  /**
   * What a run did, from its actions alone. `inLog` is what the current log got, which a sync of it brings to
   * the disk, and `marked` what the compaction under way will drop.
   */
  datatype Ledger =
    Ledger(appended: set<Entry>, synced: set<Entry>, dropped: set<Entry>, inLog: set<Entry>, marked: set<Entry>)

  ghost function Recorded(l: Ledger, a: Action): Ledger {
    match a
    case Append(record, sync) =>
      var entries := RecordEntries([record]);
      l.(appended := l.appended + entries, inLog := l.inLog + entries,
         synced := if sync then l.synced + l.inLog + entries else l.synced)
    case Switch => l.(inLog := {})
    case BuildCompaction(_, _, dropped, _) => l.(marked := dropped)
    case Commit => l.(dropped := l.dropped + l.marked, marked := {})
    case Crash(_) => l.(inLog := {}, marked := {})
    case _ => l
  }

  ghost function LedgerOf(actions: seq<Action>): Ledger {
    if actions == [] then Ledger({}, {}, {}, {}, {})
    else Recorded(LedgerOf(actions[..|actions| - 1]), actions[|actions| - 1])
  }

  /** No machine crash on the way takes a record. */
  ghost predicate Lossless(states: seq<State>, actions: seq<Action>)
    requires |states| > |actions|
  {
    forall i :: 0 <= i < |actions| ==> TakesNothing(states[i], actions[i])
  }

  ghost predicate TakesNothing(s: State, a: Action) {
    a.Crash? ==> forall n :: n in a.kept ==> n in s.disk.logs && a.kept[n] == |s.disk.logs[n].records|
  }

  /** What can be read: by a serving process, by the recovery that has just ended, or by the next one. */
  ghost function Held(s: State): set<Entry> {
    match s.server
    case Up(_, _, _, _, _, pending, _) =>
      Served(s.disk, s.server) + (if pending.Some? then RecordEntries([pending.value]) else {})
    case Logged(vs, _, _, added) => TableEntries(s.disk.tables, vs.live + added)
    case Saved(vs, _, _, added) => TableEntries(s.disk.tables, vs.live + added)
    case _ => if s.disk.current in s.disk.manifests then Contents(s.disk) else {}
  }

  /** The compaction under way drops no more than is marked. */
  ghost predicate MarkedJob(d: Disk, p: Server, marked: set<Entry>) {
    p.Up? ==>
      match p.job
      case Compacted(inputs, outputs) => TableEntries(d.tables, inputs) <= TableEntries(d.tables, outputs) + marked
      case Committing(edit, _) =>
        edit.Change? && TableEntries(d.tables, edit.deleted) <= TableEntries(d.tables, edit.added) + marked
      case _ => true
  }

  ghost predicate Balanced(s: State, l: Ledger) {
    && Inv(s) && s.history <= l.appended && l.synced - l.dropped <= Durable(s.disk)
    && MarkedJob(s.disk, s.server, l.marked) && l.inLog <= CurrentLog(s)
  }

  ghost function CurrentLog(s: State): set<Entry> {
    if s.server.Up? && s.server.log in s.disk.logs then RecordEntries(s.disk.logs[s.server.log].records) else {}
  }

  lemma MarkedKept(d: Disk, e: Disk, p: Server, marked: set<Entry>)
    requires p.Up? && GoodJob(d, p) && p.vs.live <= d.tables.Keys && MarkedJob(d, p, marked)
    requires forall n :: n in d.tables && n in p.vs.live + PendingOutputs(p.job) ==> n in e.tables && e.tables[n] == d.tables[n]
    ensures MarkedJob(e, p, marked)
  {
    match p.job
    case Compacted(inputs, outputs) =>
      TableEntriesSame(d.tables, e.tables, inputs);
      TableEntriesSame(d.tables, e.tables, outputs);
    case Committing(edit, _) =>
      TableEntriesSame(d.tables, e.tables, edit.deleted);
      TableEntriesSame(d.tables, e.tables, edit.added);
    case _ =>
  }

  /** Building a compaction marks exactly what its outputs leave out. */
  lemma CompactionMarks(s: State, a: Action)
    requires Inv(s) && a.BuildCompaction? && Enabled(s, a)
    ensures MarkedJob(Next(s, a).disk, Next(s, a).server, a.dropped)
  {
    var d, e := s.disk, Next(s, a).disk;
    assert forall n :: n in a.inputs ==> n in d.tables && n in e.tables && e.tables[n] == d.tables[n];
    TableEntriesSame(d.tables, e.tables, a.inputs);
    TableEntriesSame(a.outputs, e.tables, a.outputs.Keys);
  }

  lemma MarkedStep(s: State, a: Action, l: Ledger)
    requires Inv(s) && Enabled(s, a) && MarkedJob(s.disk, s.server, l.marked)
    ensures MarkedJob(Next(s, a).disk, Next(s, a).server, Recorded(l, a).marked)
  {
    hide TableEntries, RecordEntries, LogEntries, Replay, Distinct, LogsInOrder, Earlier, AtMost, LogMatches;
    match a
    case BuildCompaction(_, _, _, _) => CompactionMarks(s, a);
    case Append(_, _) => MarkedKept(s.disk, Next(s, a).disk, s.server, l.marked);
    case Switch => MarkedKept(s.disk, Next(s, a).disk, s.server, l.marked);
    case DeleteTable(_) => MarkedKept(s.disk, Next(s, a).disk, s.server, l.marked);
    case Prepare => NothingIn(s.disk.tables);
    case _ =>
  }

  lemma NothingIn(tables: map<nat, set<Entry>>)
    ensures TableEntries(tables, {}) == {}
  {}

  lemma CommitDropsMarked(s: State, a: Action, l: Ledger)
    requires Inv(s) && Enabled(s, a) && MarkedJob(s.disk, s.server, l.marked)
    ensures Dropped(s, a) <= Recorded(l, a).dropped
  {
    if a.Commit? {
      var d, p := s.disk, s.server;
      var edit := p.job.edit;
      TableEntriesUnion(d.tables, p.vs.live - edit.deleted, edit.added);
      TableEntriesUnion(d.tables, p.vs.live - edit.deleted, edit.deleted);
      assert p.vs.live == p.vs.live - edit.deleted + edit.deleted;
      hide TableEntries, Inv;
    }
  }

  lemma HistoryAppended(s: State, a: Action, l: Ledger)
    requires Inv(s) && Enabled(s, a) && s.history <= l.appended
    ensures Next(s, a).history <= Recorded(l, a).appended
  {
    if a.Crash? {
      CrashStep(s, a);
    }
    hide RecordEntries, TableEntries, LogEntries, Inv;
  }

  /** Nothing leaves the history but what a compaction drops and a machine crash takes. */
  lemma HistoryStays(s: State, a: Action, l: Ledger)
    requires Inv(s) && Enabled(s, a) && MarkedJob(s.disk, s.server, l.marked) && TakesNothing(s, a)
    requires l.appended - l.dropped <= s.history
    ensures Recorded(l, a).appended - Recorded(l, a).dropped <= Next(s, a).history
  {
    CommitDropsMarked(s, a, l);
    if a.Crash? {
      CrashesLoseOnlyTheUnsynced(s, a);
    }
    hide RecordEntries, TableEntries, LogEntries, Inv, MarkedJob;
  }

  lemma InLogStays(s: State, a: Action, l: Ledger)
    requires Inv(s) && Enabled(s, a) && l.inLog <= CurrentLog(s)
    ensures Recorded(l, a).inLog <= CurrentLog(Next(s, a))
  {
    if a.Append? {
      RecordEntriesAppend(s.disk.logs[s.server.log].records, [a.record]);
    }
    hide RecordEntries, TableEntries, LogEntries, Replay, Distinct, LogsInOrder, Earlier, AtMost, LogMatches, GoodJob;
  }

  lemma SyncedStays(s: State, a: Action, l: Ledger)
    requires Inv(s) && Enabled(s, a) && MarkedJob(s.disk, s.server, l.marked) && l.inLog <= CurrentLog(s)
    requires l.synced - l.dropped <= Durable(s.disk)
    ensures Inv(Next(s, a)) && Recorded(l, a).synced - Recorded(l, a).dropped <= Durable(Next(s, a).disk)
  {
    DurableStays(s, a);
    CommitDropsMarked(s, a, l);
    if a.Append? {
      RecordEntriesAppend(s.disk.logs[s.server.log].records, [a.record]);
      SyncedWritesAreDurable(s, a);
    }
    hide RecordEntries, Durable, Inv, MarkedJob, Dropped, Next, Enabled;
  }

  lemma BalancedStep(s: State, a: Action, l: Ledger)
    requires Balanced(s, l) && Enabled(s, a)
    ensures Balanced(Next(s, a), Recorded(l, a))
  {
    MarkedStep(s, a, l);
    HistoryAppended(s, a, l);
    InLogStays(s, a, l);
    SyncedStays(s, a, l);
    hide CurrentLog, Inv, Next, Enabled, Recorded, MarkedJob, Durable;
  }

  lemma HeldIsHistory(s: State)
    requires Inv(s)
    ensures Held(s) == s.history && Durable(s.disk) <= Held(s)
  {
    GoodIsSafe(s);
    StableIsPart(s.disk.logs, Manifest(s.disk).logNumber);
    hide TableEntries, LogEntries, RecordEntries;
  }

  lemma {:induction false} RunsBalance(states: seq<State>, actions: seq<Action>)
    requires IsRun(states, actions)
    ensures Balanced(states[|actions|], LedgerOf(actions))
    ensures Lossless(states, actions) ==>
      LedgerOf(actions).appended - LedgerOf(actions).dropped <= states[|actions|].history
    decreases |actions|
  {
    hide Inv, Next, Enabled, Recorded, Durable, TakesNothing;
    if actions == [] {
      FreshIsGood();
      assert !FRESH.server.Up?;
    } else {
      var n := |actions| - 1;
      RunsBalance(states[..n + 1], actions[..n]);
      BalancedStep(states[n], actions[n], LedgerOf(actions[..n]));
      if Lossless(states, actions) {
        assert TakesNothing(states[n], actions[n]);
        HistoryStays(states[n], actions[n], LedgerOf(actions[..n]));
      }
    }
  }

  /**
   * Over whole runs: whatever is read was appended, and what was appended with a sync is there unless a compaction
   * dropped it. While no crash takes a record that holds of every append, so with no entry dropped both are equal.
   */
  lemma RunsKeepTheLedger(states: seq<State>, actions: seq<Action>)
    requires IsRun(states, actions)
    ensures var l, held := LedgerOf(actions), Held(states[|actions|]);
      && l.synced - l.dropped <= held <= l.appended
      && (Lossless(states, actions) ==> l.appended - l.dropped <= held)
      && (Lossless(states, actions) && l.dropped == {} ==> held == l.appended)
  {
    RunsBalance(states, actions);
    HeldIsHistory(states[|actions|]);
    hide Inv, Durable, Held, Lossless, IsRun;
  }
}
