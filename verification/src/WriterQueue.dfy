/** DBImpl::Write as a protocol: every interleaving of its writers at their lock acquisitions. */
module WriterQueue {
  import opened Keys
  import opened WriteBatches
  import opened GroupCommit

  datatype Phase = Waiting(signalled: bool) | MakingRoom | Writing(end: nat) | Returned

  datatype Outcome = Pending | Success | NoRoom | LogFailed | SyncFailed

  /** A call of Write. `synced` says that its record was brought to the disk before it was answered. */
  datatype Call = Call(request: Request, phase: Phase, done: bool, outcome: Outcome, synced: bool) {
    ghost predicate Leads() { phase.MakingRoom? || phase.Writing? }
  }

  datatype Numbered = Numbered(sequence: nat, op: Op)

  datatype Record = Record(first: nat, ops: seq<Op>, synced: bool)

  /** Calls in the order they entered the queue, and the queue of those not answered yet. */
  datatype State = State(calls: seq<Call>, queue: seq<nat>, log: seq<Record>, mem: seq<Numbered>, last: nat, failed: bool)

  const START: State := State([], [], [], [], 0, false)

  function Number(first: nat, ops: seq<Op>): seq<Numbered> {
    seq(|ops|, i requires 0 <= i < |ops| => Numbered(first + i, ops[i]))
  }

  function Requests(calls: seq<Call>): seq<Request> {
    seq(|calls|, i requires 0 <= i < |calls| => calls[i].request)
  }

  // -------------------------------------------------------------------- steps

  datatype Action =
    | Enter(request: Request)
    | Wake(call: nat)
    | Room(ok: bool, end: nat)
    | Finish(outcome: Outcome)

  /** Calls still in the queue; they are the last to have entered. */
  function HeadOf(calls: seq<Call>, queue: seq<nat>): int { |calls| - |queue| }

  function Head(s: State): int { HeadOf(s.calls, s.queue) }

  ghost predicate Enabled(s: State, a: Action) {
    match a
    case Enter(_) => true
    case Wake(id) => id < |s.calls| && s.calls[id].phase.Waiting?
    case Room(ok, end) =>
      && s.queue != [] && s.queue[0] < |s.calls| && s.calls[s.queue[0]].phase.MakingRoom?
      && (s.failed ==> !ok)
      && 0 <= Head(s) && (ok && s.calls[s.queue[0]].request.batch.Some? ==> IsGroup(Requests(s.calls[Head(s)..]), end))
    case Finish(outcome) =>
      && s.queue != [] && s.queue[0] < |s.calls| && s.calls[s.queue[0]].phase.Writing?
      && 0 < s.calls[s.queue[0]].phase.end <= |s.queue| && 0 <= Head(s)
      && (outcome.Success? || outcome.LogFailed? || (outcome.SyncFailed? && s.calls[s.queue[0]].request.sync))
  }

  function Answer(call: Call, outcome: Outcome, synced: bool): Call {
    call.(phase := Waiting(true), done := true, outcome := outcome, synced := synced)
  }

  /** The loop that pops the queue up to the last writer: all but the leader are given its status and signalled. */
  function Popped(calls: seq<Call>, queue: seq<nat>, leader: nat, last: nat, outcome: Outcome, synced: bool)
    : (r: (seq<Call>, seq<nat>))
    ensures |r.0| == |calls|
    decreases |queue|
  {
    if queue == [] then (calls, queue)
    else
      var ready := queue[0];
      var after :=
        if ready != leader && ready < |calls| then calls[ready := Answer(calls[ready], outcome, synced)] else calls;
      if ready == last then (after, queue[1..]) else Popped(after, queue[1..], leader, last, outcome, synced)
  }

  /** Signal whoever is at the head now. */
  function Notified(calls: seq<Call>, queue: seq<nat>): seq<Call> {
    if queue == [] || queue[0] >= |calls| then calls
    else calls[queue[0] := calls[queue[0]].(phase := Waiting(true))]
  }

  /** The end of Write: pop the group of `count` writers, notify the new head and return. */
  function Complete(s: State, count: nat, outcome: Outcome, synced: bool): State
    requires 0 < count <= |s.queue| && s.queue[0] < |s.calls|
  {
    var leader, last := s.queue[0], s.queue[count - 1];
    var (popped, queue) := Popped(s.calls, s.queue, leader, last, outcome, synced);
    var calls := Notified(popped, queue);
    s.(calls := calls[leader := calls[leader].(phase := Returned, outcome := outcome, synced := synced)], queue := queue)
  }

  ghost function Next(s: State, a: Action): State
    requires Enabled(s, a)
  {
    match a
    case Enter(request) =>
      var phase := if s.queue == [] then MakingRoom else Waiting(false);
      s.(calls := s.calls + [Call(request, phase, false, Pending, false)], queue := s.queue + [|s.calls|])
    case Wake(id) =>
      var call := s.calls[id];
      var phase :=
        if call.done then Returned else if s.queue != [] && s.queue[0] == id then MakingRoom else Waiting(false);
      s.(calls := s.calls[id := call.(phase := phase)])
    case Room(ok, end) =>
      var id := s.queue[0];
      if !ok then Complete(s, 1, NoRoom, false)
      else if s.calls[id].request.batch.None? then Complete(s, 1, Success, false)
      else s.(calls := s.calls[id := s.calls[id].(phase := Writing(end))])
    case Finish(outcome) =>
      var id := s.queue[0];
      var end, sync := s.calls[id].phase.end, s.calls[id].request.sync;
      var ops := Operations(Requests(s.calls[Head(s)..Head(s) + end]));
      var t := Complete(s, end, outcome, outcome.Success? && sync).(last := s.last + |ops|);
      match outcome
      case Success => t.(log := s.log + [Record(s.last + 1, ops, sync)], mem := s.mem + Number(s.last + 1, ops))
      case SyncFailed => t.(log := s.log + [Record(s.last + 1, ops, false)], failed := true)
      case _ => t
  }

  // ------------------------------------------------------------------- ledger

  function Ops(call: Call): seq<Op> { if call.request.batch.Some? then call.request.batch.value else [] }

  /** Sequence numbers used up: a call that got as far as the log keeps its own, written or not. */
  function Used(calls: seq<Call>): nat {
    if calls == [] then 0
    else
      var call := calls[|calls| - 1];
      Used(calls[..|calls| - 1]) + if call.outcome.NoRoom? || call.outcome.Pending? then 0 else |Ops(call)|
  }

  /** Every successful batch once, in queue order, each with the next block of sequence numbers. */
  function Applied(calls: seq<Call>): seq<Numbered> {
    if calls == [] then []
    else
      var front, call := calls[..|calls| - 1], calls[|calls| - 1];
      Applied(front) + if call.outcome.Success? then Number(Used(front) + 1, Ops(call)) else []
  }

  /** The same of the log, which a batch also reaches when only its sync fails. */
  function Logged(calls: seq<Call>): seq<Numbered> {
    if calls == [] then []
    else
      var front, call := calls[..|calls| - 1], calls[|calls| - 1];
      Logged(front) + if call.outcome.Success? || call.outcome.SyncFailed? then Number(Used(front) + 1, Ops(call)) else []
  }

  /** What is certain to be on the disk: the batches of the groups whose leader asked for a sync. */
  function Synced(calls: seq<Call>): seq<Numbered> {
    if calls == [] then []
    else
      var front, call := calls[..|calls| - 1], calls[|calls| - 1];
      Synced(front) + if call.synced then Number(Used(front) + 1, Ops(call)) else []
  }

  function InSyncedLog(log: seq<Record>): seq<Numbered> {
    if log == [] then []
    else
      var record := log[|log| - 1];
      InSyncedLog(log[..|log| - 1]) + if record.synced then Number(record.first, record.ops) else []
  }

  function InLog(log: seq<Record>): seq<Numbered> {
    if log == [] then [] else InLog(log[..|log| - 1]) + Number(log[|log| - 1].first, log[|log| - 1].ops)
  }

  // ---------------------------------------------------------------- invariant

  ghost predicate AnsweredCall(call: Call) {
    && !call.outcome.Pending? && (call.phase.Returned? || (call.done && call.phase == Waiting(true)))
    && (call.outcome.Success? && call.request.sync && call.request.batch.Some? ==> call.synced)
  }

  /** Answered calls, then the queue: only its head may lead, and the head is never left asleep. */
  ghost predicate InOrder(calls: seq<Call>, queue: seq<nat>) {
    var h := HeadOf(calls, queue);
    && h >= 0
    && (forall i :: 0 <= i < |queue| ==> queue[i] == h + i)
    && (forall i :: 0 <= i < h ==> AnsweredCall(calls[i]))
    && (forall i :: h <= i < |calls| ==> calls[i].outcome.Pending? && !calls[i].done)
    && (forall i :: h < i < |calls| ==> calls[i].phase.Waiting?)
    && (queue != [] ==> GoodHead(calls, h))
  }

  ghost predicate GoodHead(calls: seq<Call>, h: nat)
    requires h < |calls|
  {
    && (calls[h].Leads() || calls[h].phase == Waiting(true))
    && (calls[h].phase.Writing? ==> calls[h].request.batch.Some? && GoodGroup(calls, h, calls[h].phase.end))
  }

  /** No call that asked for a sync is in the group of one that did not. */
  ghost predicate GoodGroup(calls: seq<Call>, h: nat, end: nat)
    requires h < |calls|
  {
    0 < end <= |calls| - h && forall i :: h <= i < h + end ==> (calls[i].request.sync ==> calls[h].request.sync)
  }

  ghost predicate LedgersAgree(answered: seq<Call>, last: nat, mem: seq<Numbered>, inLog: seq<Numbered>, onDisk: seq<Numbered>) {
    last == Used(answered) && mem == Applied(answered) && inLog == Logged(answered) && onDisk == Synced(answered)
  }

  ghost predicate Inv(s: State) {
    && InOrder(s.calls, s.queue)
    && LedgersAgree(s.calls[..Head(s)], s.last, s.mem, InLog(s.log), InSyncedLog(s.log))
  }

  // ------------------------------------------------------------------- lemmas

  lemma NumberAppend(first: nat, a: seq<Op>, b: seq<Op>)
    ensures Number(first, a + b) == Number(first, a) + Number(first + |a|, b)
  {}

  /** The ledgers do not look at phases. */
  lemma {:induction false} SameLedgers(a: seq<Call>, b: seq<Call>)
    requires |a| == |b|
    requires forall i :: 0 <= i < |a| ==>
      a[i].request == b[i].request && a[i].outcome == b[i].outcome && a[i].synced == b[i].synced
    ensures Used(a) == Used(b) && Applied(a) == Applied(b) && Logged(a) == Logged(b) && Synced(a) == Synced(b)
  {
    if a != [] {
      SameLedgers(a[..|a| - 1], b[..|b| - 1]);
    }
  }

  ghost predicate SameOutcome(group: seq<Call>, outcome: Outcome, synced: bool) {
    forall i :: 0 <= i < |group| ==> group[i].outcome == outcome && group[i].synced == synced
  }

  /** One record for a group enters the ledgers as its batches one after the other. */
  lemma {:induction false} GroupLedgers(before: seq<Call>, group: seq<Call>, outcome: Outcome, synced: bool)
    requires SameOutcome(group, outcome, synced) && !outcome.Pending?
    ensures var ops := Operations(Requests(group));
      && Used(before + group) == Used(before) + (if outcome.NoRoom? then 0 else |ops|)
      && Applied(before + group) == Applied(before) + (if outcome.Success? then Number(Used(before) + 1, ops) else [])
      && Logged(before + group) ==
           Logged(before) + (if outcome.Success? || outcome.SyncFailed? then Number(Used(before) + 1, ops) else [])
      && (!outcome.NoRoom? ==>
            Synced(before + group) == Synced(before) + (if synced then Number(Used(before) + 1, ops) else []))
      && (outcome.NoRoom? && !synced ==> Synced(before + group) == Synced(before))
    decreases |group|
  {
    hide Used, Applied, Logged, Synced, Number, Operations, Requests;
    NothingNumbered(Used(before) + 1);
    if group == [] {
      NoOperations(group);
      assert before + group == before;
      Join(Applied(before), [], []);
      Join(Logged(before), [], []);
      Join(Synced(before), [], []);
    } else {
      var front, call := group[..|group| - 1], group[|group| - 1];
      GroupLedgers(before, front, outcome, synced);
      OneMoreCall(before + front, call);
      assert before + group == before + front + [call];
      assert group == front + [call];
      OperationsOf(front, call);
      var ops := Operations(Requests(front));
      NumberAppend(Used(before) + 1, ops, Ops(call));
      Join(Applied(before), Number(Used(before) + 1, ops), Number(Used(before) + 1 + |ops|, Ops(call)));
      Join(Logged(before), Number(Used(before) + 1, ops), Number(Used(before) + 1 + |ops|, Ops(call)));
      Join(Synced(before), Number(Used(before) + 1, ops), Number(Used(before) + 1 + |ops|, Ops(call)));
    }
  }

  lemma NoOperations(group: seq<Call>)
    requires group == []
    ensures Operations(Requests(group)) == []
  {}

  lemma Join(a: seq<Numbered>, b: seq<Numbered>, c: seq<Numbered>)
    ensures a + b + c == a + (b + c) && a + [] == a
  {}

  lemma OneMoreCall(calls: seq<Call>, call: Call)
    ensures var all := calls + [call];
      && Used(all) == Used(calls) + (if call.outcome.NoRoom? || call.outcome.Pending? then 0 else |Ops(call)|)
      && Applied(all) == Applied(calls) + (if call.outcome.Success? then Number(Used(calls) + 1, Ops(call)) else [])
      && Logged(all) ==
           Logged(calls) + (if call.outcome.Success? || call.outcome.SyncFailed? then Number(Used(calls) + 1, Ops(call)) else [])
      && Synced(all) == Synced(calls) + (if call.synced then Number(Used(calls) + 1, Ops(call)) else [])
  {
    assert (calls + [call])[..|calls|] == calls;
  }

  lemma OperationsOf(calls: seq<Call>, call: Call)
    ensures Operations(Requests(calls + [call])) == Operations(Requests(calls)) + Ops(call)
  {
    var all := Requests(calls + [call]);
    assert all[..|calls|] == Requests(calls);
  }

  lemma NothingNumbered(first: nat)
    ensures Number(first, []) == []
  {}

  lemma InLogAppend(log: seq<Record>, record: Record)
    ensures InLog(log + [record]) == InLog(log) + Number(record.first, record.ops)
    ensures InSyncedLog(log + [record]) == InSyncedLog(log) + (if record.synced then Number(record.first, record.ops) else [])
  {
    assert (log + [record])[..|log|] == log;
  }

  lemma EnterStep(s: State, a: Action)
    requires Inv(s) && a.Enter? && Enabled(s, a)
    ensures Inv(Next(s, a))
  {
    hide Used, Applied, Logged, Synced, InLog, InSyncedLog;
    assert Next(s, a).calls[..Head(s)] == s.calls[..Head(s)];
  }

  lemma WakeStep(s: State, a: Action)
    requires Inv(s) && a.Wake? && Enabled(s, a)
    ensures Inv(Next(s, a))
  {
    hide Used, Applied, Logged, Synced, InLog, InSyncedLog;
    SameLedgers(s.calls[..Head(s)], Next(s, a).calls[..Head(s)]);
  }

  lemma FrontOfQueue(s: State, count: nat)
    requires InOrder(s.calls, s.queue) && count <= |s.queue|
    ensures forall i :: i in s.queue[..count] <==> Head(s) <= i < Head(s) + count
  {
    forall i | Head(s) <= i < Head(s) + count
      ensures i in s.queue[..count]
    {
      assert s.queue[..count][i - Head(s)] == i;
    }
  }

  /** What answering the first `count` of the queue comes to for each call. */
  function Answered(s: State, count: nat, outcome: Outcome, synced: bool): seq<Call>
    requires 0 < count <= |s.queue|
  {
    seq(|s.calls|, i requires 0 <= i < |s.calls| =>
      var call := s.calls[i];
      if i == s.queue[0] then call.(phase := Returned, outcome := outcome, synced := synced)
      else if i in s.queue[..count] then Answer(call, outcome, synced)
      else if count < |s.queue| && i == s.queue[count] then call.(phase := Waiting(true))
      else call)
  }

  /** Popping up to the last writer reaches exactly the first `count`. */
  lemma {:induction false} PoppedIs(calls: seq<Call>, queue: seq<nat>, count: nat, leader: nat, outcome: Outcome, synced: bool)
    requires 0 < count <= |queue| && forall i :: 0 <= i < |queue| ==> queue[i] == queue[0] + i < |calls|
    ensures var r := Popped(calls, queue, leader, queue[count - 1], outcome, synced);
      && r.1 == queue[count..] && |r.0| == |calls|
      && forall i :: 0 <= i < |calls| ==>
           r.0[i] == if queue[0] <= i < queue[0] + count && i != leader then Answer(calls[i], outcome, synced) else calls[i]
    decreases count
  {
    var ready := queue[0];
    var after := if ready != leader then calls[ready := Answer(calls[ready], outcome, synced)] else calls;
    if count > 1 {
      var rest := queue[1..];
      assert rest[count - 2] == queue[count - 1];
      forall i | 0 <= i < |rest|
        ensures rest[i] == rest[0] + i < |after|
      {
        assert rest[i] == queue[i + 1] == queue[0] + (i + 1) && rest[0] == queue[1] == queue[0] + 1;
      }
      PoppedIs(after, rest, count - 1, leader, outcome, synced);
    }
  }

  /** The loop answers the group, and only the group, and wakes whoever comes after it. */
  lemma CompleteAnswers(s: State, count: nat, outcome: Outcome, synced: bool)
    requires InOrder(s.calls, s.queue) && 0 < count <= |s.queue|
    ensures Complete(s, count, outcome, synced)
      == s.(calls := Answered(s, count, outcome, synced), queue := s.queue[count..])
  {
    PoppedIs(s.calls, s.queue, count, s.queue[0], outcome, synced);
    FrontOfQueue(s, count);
    assert Complete(s, count, outcome, synced).calls == Answered(s, count, outcome, synced);
  }

  /** Who is who after the first `count` of the queue are answered. */
  lemma AnsweredAt(s: State, count: nat, outcome: Outcome, synced: bool, i: nat)
    requires InOrder(s.calls, s.queue) && 0 < count <= |s.queue| && i < |s.calls|
    ensures var call, after := s.calls[i], Answered(s, count, outcome, synced)[i];
      && (i < Head(s) ==> after == call)
      && (i == Head(s) ==> after == call.(phase := Returned, outcome := outcome, synced := synced))
      && (Head(s) < i < Head(s) + count ==>
            after == call.(phase := Waiting(true), done := true, outcome := outcome, synced := synced))
      && (i == Head(s) + count ==> after == call.(phase := Waiting(true)))
      && (i > Head(s) + count ==> after == call)
  {
    FrontOfQueue(s, count);
  }

  /** Answering the first `count` of the queue leaves it in order, with its head awake. */
  lemma CompleteKeepsOrder(s: State, count: nat, outcome: Outcome, synced: bool)
    requires InOrder(s.calls, s.queue) && 0 < count <= |s.queue| && !outcome.Pending?
    requires outcome.Success? ==>
      forall i :: Head(s) <= i < Head(s) + count && s.calls[i].request.sync && s.calls[i].request.batch.Some? ==> synced
    ensures InOrder(Answered(s, count, outcome, synced), s.queue[count..])
    ensures HeadOf(Answered(s, count, outcome, synced), s.queue[count..]) == Head(s) + count
    ensures forall i :: Head(s) <= i < Head(s) + count ==>
      Answered(s, count, outcome, synced)[i].outcome == outcome && Answered(s, count, outcome, synced)[i].synced == synced
    ensures forall i :: 0 <= i < Head(s) + count ==> Answered(s, count, outcome, synced)[i].request == s.calls[i].request
    ensures forall i :: 0 <= i < Head(s) ==> Answered(s, count, outcome, synced)[i] == s.calls[i]
  {
    forall i: nat | i < |s.calls| {
      AnsweredAt(s, count, outcome, synced, i);
    }
    var calls := Answered(s, count, outcome, synced);
    assert |calls| == |s.calls|;
    hide Answered;
  }

  /** ... and adds its batches to the ledgers as one block. */
  lemma CompleteLedgers(s: State, count: nat, outcome: Outcome, synced: bool)
    requires Inv(s) && 0 < count <= |s.queue| && !outcome.Pending? && (outcome.NoRoom? ==> !synced)
    requires outcome.Success? ==>
      forall i :: Head(s) <= i < Head(s) + count && s.calls[i].request.sync && s.calls[i].request.batch.Some? ==> synced
    ensures var calls := Answered(s, count, outcome, synced)[..Head(s) + count];
      var ops := Operations(Requests(s.calls[Head(s)..Head(s) + count]));
      && Used(calls) == s.last + (if outcome.NoRoom? then 0 else |ops|)
      && Applied(calls) == s.mem + (if outcome.Success? then Number(s.last + 1, ops) else [])
      && Logged(calls) ==
           InLog(s.log) + (if outcome.Success? || outcome.SyncFailed? then Number(s.last + 1, ops) else [])
      && Synced(calls) == InSyncedLog(s.log) + (if synced then Number(s.last + 1, ops) else [])
  {
    hide Used, Applied, Logged, Synced, InLog, InSyncedLog, Operations, Number, Answered;
    CompleteKeepsOrder(s, count, outcome, synced);
    var h, calls := Head(s), Answered(s, count, outcome, synced);
    var group := calls[h..h + count];
    SameRequests(group, s.calls[h..h + count]);
    SameLedgers(s.calls[..h], calls[..h]);
    GroupLedgers(calls[..h], group, outcome, synced);
    assert calls[..h] + group == calls[..h + count];
    Join(InSyncedLog(s.log), [], []);
  }

  lemma SameRequests(a: seq<Call>, b: seq<Call>)
    requires |a| == |b| && forall i :: 0 <= i < |a| ==> a[i].request == b[i].request
    ensures Requests(a) == Requests(b)
  {}

  lemma OneRequest(s: State)
    requires InOrder(s.calls, s.queue) && s.queue != []
    ensures s.queue[0] == Head(s)
    ensures Operations(Requests(s.calls[Head(s)..Head(s) + 1])) == Ops(s.calls[s.queue[0]])
  {
    var one := Requests(s.calls[Head(s)..Head(s) + 1]);
    assert one[..0] == [];
  }

  lemma HeadFacts(s: State)
    requires InOrder(s.calls, s.queue) && s.queue != []
    ensures 0 <= Head(s) < |s.calls| && s.queue[0] == Head(s) && GoodHead(s.calls, Head(s))
  {}

  lemma RefusedStep(s: State)
    requires Inv(s) && s.queue != []
    ensures Inv(Complete(s, 1, NoRoom, false))
  {
    hide Used, Applied, Logged, Synced, InLog, InSyncedLog, Operations, Number, Requests, Answered, Complete;
    CompleteAnswers(s, 1, NoRoom, false);
    CompleteKeepsOrder(s, 1, NoRoom, false);
    CompleteLedgers(s, 1, NoRoom, false);
    Join(s.mem, [], []);
    Join(InLog(s.log), [], []);
    Join(InSyncedLog(s.log), [], []);
  }

  lemma ForcedStep(s: State)
    requires Inv(s) && s.queue != [] && s.queue[0] < |s.calls| && s.calls[s.queue[0]].request.batch.None?
    ensures Inv(Complete(s, 1, Success, false))
  {
    hide Used, Applied, Logged, Synced, InLog, InSyncedLog, Operations, Number, Requests, Answered, Complete, InOrder;
    HeadFacts(s);
    OneRequest(s);
    NothingNumbered(s.last + 1);
    CompleteAnswers(s, 1, Success, false);
    CompleteKeepsOrder(s, 1, Success, false);
    CompleteLedgers(s, 1, Success, false);
    Join(s.mem, [], []);
    Join(InLog(s.log), [], []);
    Join(InSyncedLog(s.log), [], []);
  }

  lemma StartsWriting(s: State, end: nat)
    requires Inv(s) && s.queue != [] && s.calls[Head(s)].request.batch.Some? && GoodGroup(s.calls, Head(s), end)
    ensures s.queue[0] == Head(s) && Inv(s.(calls := s.calls[Head(s) := s.calls[Head(s)].(phase := Writing(end))]))
  {
    hide Used, Applied, Logged, Synced, InLog, InSyncedLog;
    var h := Head(s);
    SameLedgers(s.calls[..h], s.calls[h := s.calls[h].(phase := Writing(end))][..h]);
  }

  lemma RoomStep(s: State, a: Action)
    requires Inv(s) && a.Room? && Enabled(s, a)
    ensures Inv(Next(s, a))
  {
    hide Inv, InOrder, LedgersAgree, Answered, IsGroup;
    assert InOrder(s.calls, s.queue) by { Parts(s); }
    HeadFacts(s);
    if !a.ok {
      RefusedStep(s);
    } else if s.calls[s.queue[0]].request.batch.None? {
      ForcedStep(s);
    } else {
      GroupIsGood(s, a.end);
      StartsWriting(s, a.end);
    }
  }

  lemma Parts(s: State)
    requires Inv(s)
    ensures InOrder(s.calls, s.queue)
  {}

  lemma GroupIsGood(s: State, end: nat)
    requires InOrder(s.calls, s.queue) && s.queue != [] && IsGroup(Requests(s.calls[Head(s)..]), end)
    ensures GoodGroup(s.calls, Head(s), end)
  {
    var requests := Requests(s.calls[Head(s)..]);
    forall i | Head(s) < i < Head(s) + end
      ensures s.calls[i].request.sync ==> s.calls[Head(s)].request.sync
    {
      assert MayJoin(requests, i - Head(s));
      assert requests[i - Head(s)] == s.calls[i].request;
    }
  }

  lemma FinishStep(s: State, a: Action)
    requires Inv(s) && a.Finish? && Enabled(s, a)
    ensures Inv(Next(s, a))
  {
    hide Used, Applied, Logged, Synced, InLog, InSyncedLog, Operations, Number, Requests, InOrder, Answered, Complete;
    HeadFacts(s);
    var end := s.calls[s.queue[0]].phase.end;
    var sync := s.calls[s.queue[0]].request.sync;
    var ops := Operations(Requests(s.calls[Head(s)..Head(s) + end]));
    CompleteAnswers(s, end, a.outcome, a.outcome.Success? && sync);
    CompleteKeepsOrder(s, end, a.outcome, a.outcome.Success? && sync);
    CompleteLedgers(s, end, a.outcome, a.outcome.Success? && sync);
    InLogAppend(s.log, Record(s.last + 1, ops, sync));
    InLogAppend(s.log, Record(s.last + 1, ops, false));
    Join(s.mem, [], []);
    Join(InLog(s.log), [], []);
    Join(InSyncedLog(s.log), [], []);
  }

  // --------------------------------------------------------------------- runs

  ghost predicate IsRun(states: seq<State>, actions: seq<Action>) {
    && |states| == |actions| + 1 && states[0] == START
    && forall i :: 0 <= i < |actions| ==> Enabled(states[i], actions[i]) && states[i + 1] == Next(states[i], actions[i])
  }

  /** In every interleaving the queue is in order and the ledgers agree. */
  lemma {:induction false} EveryInterleaving(states: seq<State>, actions: seq<Action>, k: nat)
    requires IsRun(states, actions) && k < |states|
    ensures Inv(states[k])
  {
    if k > 0 {
      EveryInterleaving(states, actions, k - 1);
      var s, a := states[k - 1], actions[k - 1];
      hide Inv, Next, Enabled;
      match a
      case Enter(_) => EnterStep(s, a);
      case Wake(_) => WakeStep(s, a);
      case Room(_, _) => RoomStep(s, a);
      case Finish(_) => FinishStep(s, a);
    }
  }

  /** At most one call leads, and it is the head of the queue. */
  lemma OneLeader(s: State, i: nat, j: nat)
    requires Inv(s) && i < |s.calls| && j < |s.calls| && s.calls[i].Leads() && s.calls[j].Leads()
    ensures i == j && s.queue != [] && s.queue[0] == i
  {}

  /** Whoever has not returned is answered and signalled, or is in a queue whose head leads or is signalled. */
  lemma NobodyIsForgotten(s: State, i: nat)
    requires Inv(s) && i < |s.calls| && !s.calls[i].phase.Returned?
    ensures s.calls[i].phase == Waiting(true) || (i in s.queue && s.queue[0] < |s.calls|
      && (s.calls[s.queue[0]].Leads() || s.calls[s.queue[0]].phase == Waiting(true)))
  {
    if i >= Head(s) {
      assert s.queue[i - Head(s)] == i;
    }
  }

  /** What the end of a group means for one call. */
  ghost predicate Shared(s: State, count: nat, outcome: Outcome, i: nat, call: Call)
    requires 0 < count <= |s.queue| && i < |s.calls|
  {
    && (i in s.queue[..count] ==> call.outcome == outcome)
    && (i !in s.queue[..count] ==> call.outcome == s.calls[i].outcome && call.done == s.calls[i].done)
    && (i == s.queue[0] ==> call.phase.Returned?)
    && (i in s.queue[1..count] ==> call.done && call.phase == Waiting(true))
    && (count < |s.queue| && i == s.queue[count] ==> call.phase == Waiting(true))
  }

  lemma AnsweredIsShared(s: State, count: nat, outcome: Outcome, synced: bool, i: nat)
    requires InOrder(s.calls, s.queue) && 0 < count <= |s.queue| && i < |s.calls|
    ensures |Answered(s, count, outcome, synced)| == |s.calls|
    ensures Shared(s, count, outcome, i, Answered(s, count, outcome, synced)[i])
  {
    FrontOfQueue(s, count);
    AnsweredAt(s, count, outcome, synced, i);
    assert |Answered(s, count, outcome, synced)| == |s.calls|;
    hide Answered;
  }

  /**
   * The step that ends a group gives each of its calls the status of the leader and no other call any; the leader
   * returns, the others are done and signalled, and so is the new head.
   */
  lemma GroupSharesStatus(s: State, a: Action, i: nat)
    requires Inv(s) && a.Finish? && Enabled(s, a) && i < |s.calls|
    ensures var end, t := s.calls[s.queue[0]].phase.end, Next(s, a);
      t.queue == s.queue[end..] && |t.calls| == |s.calls| && Shared(s, end, a.outcome, i, t.calls[i])
  {
    hide Answered, Complete, Shared, InOrder, LedgersAgree, Operations, Number, Requests;
    var end, synced := s.calls[s.queue[0]].phase.end, a.outcome.Success? && s.calls[s.queue[0]].request.sync;
    CompleteAnswers(s, end, a.outcome, synced);
    AnsweredIsShared(s, end, a.outcome, synced, i);
  }

  /** Nothing is applied twice or out of order: sequence numbers only grow. */
  lemma {:induction false} AppliedInOrder(calls: seq<Call>)
    ensures forall i, j :: 0 <= i < j < |Applied(calls)| ==> Applied(calls)[i].sequence < Applied(calls)[j].sequence
    ensures forall i :: 0 <= i < |Applied(calls)| ==> 1 <= Applied(calls)[i].sequence <= Used(calls)
  {
    if calls != [] {
      AppliedInOrder(calls[..|calls| - 1]);
    }
  }

  /** A call that asked for a sync and succeeded is on the disk when it is answered. */
  lemma {:induction false} SyncedAsOneBlock(calls: seq<Call>, i: nat)
    requires i < |calls| && AnsweredCall(calls[i])
    requires calls[i].outcome.Success? && calls[i].request.sync && calls[i].request.batch.Some?
    ensures var at, n := |Synced(calls[..i])|, |Ops(calls[i])|;
      at + n <= |Synced(calls)| && Synced(calls)[at..at + n] == Number(Used(calls[..i]) + 1, calls[i].request.batch.value)
  {
    var front := calls[..|calls| - 1];
    if i < |calls| - 1 {
      SyncedAsOneBlock(front, i);
      assert front[..i] == calls[..i];
      var at, n := |Synced(calls[..i])|, |Ops(calls[i])|;
      assert Synced(calls)[at..at + n] == Synced(front)[at..at + n];
    }
  }

  /** Every successful call's batch is applied, as one block of consecutive sequence numbers. */
  lemma {:induction false} AppliedAsOneBlock(calls: seq<Call>, i: nat)
    requires i < |calls| && calls[i].outcome.Success?
    ensures var at, n := |Applied(calls[..i])|, |Ops(calls[i])|;
      at + n <= |Applied(calls)| && Applied(calls)[at..at + n] == Number(Used(calls[..i]) + 1, Ops(calls[i]))
  {
    var front := calls[..|calls| - 1];
    if i < |calls| - 1 {
      AppliedAsOneBlock(front, i);
      assert front[..i] == calls[..i];
      var at, n := |Applied(calls[..i])|, |Ops(calls[i])|;
      assert Applied(calls)[at..at + n] == Applied(front)[at..at + n];
    }
  }
}
