/** The writer queue of DBImpl::Write: one leader logs and applies the batches of those behind it. */
module GroupCommit {
  import opened Bytes
  import opened Keys
  import opened Coding
  import opened WriteBatches

  // ------------------------------------------------------------------- groups

  const ONE_MB: nat := 0x10_0000
  const SMALL: nat := 0x2_0000

  function ByteSize(batch: Option<seq<Op>>): nat {
    if batch.None? then 0 else HEADER + |Data(batch.value)|
  }

  /** A waiting write: its batch, none for a forced memtable switch, and whether it must reach the disk. */
  datatype Request = Request(batch: Option<seq<Op>>, sync: bool)

  function MaxSize(first: nat): nat { if first <= SMALL then first + SMALL else ONE_MB }

  function TotalSize(requests: seq<Request>): nat {
    if requests == [] then 0
    else TotalSize(requests[..|requests| - 1]) + ByteSize(requests[|requests| - 1].batch)
  }

  function Operations(requests: seq<Request>): seq<Op> {
    if requests == [] then []
    else
      var last := requests[|requests| - 1];
      Operations(requests[..|requests| - 1]) + if last.batch.Some? then last.batch.value else []
  }

  /** Request `i` may join the group of the first: it is no more urgent, and the group stays small enough. */
  ghost predicate MayJoin(requests: seq<Request>, i: nat)
    requires 0 < i < |requests|
  {
    && (requests[i].sync ==> requests[0].sync)
    && (requests[i].batch.Some? ==> TotalSize(requests[..i + 1]) <= MaxSize(ByteSize(requests[0].batch)))
  }

  /** The group of the first request is the longest run of requests that may join it. */
  ghost predicate IsGroup(requests: seq<Request>, end: nat) {
    && 0 < end <= |requests|
    && (forall i :: 0 < i < end ==> MayJoin(requests, i))
    && (end < |requests| ==> !MayJoin(requests, end))
  }

  lemma GroupIsUnique(requests: seq<Request>, a: nat, b: nat)
    requires IsGroup(requests, a) && IsGroup(requests, b)
    ensures a == b
  {}

  lemma {:induction false} OperationsHaveBytes(ops: seq<Op>)
    ensures |ops| <= |Data(ops)|
  {
    hide LengthPrefixed;
    if ops != [] {
      OperationsHaveBytes(ops[..|ops| - 1]);
    }
  }

  lemma {:induction false} OperationsAreFew(requests: seq<Request>)
    ensures |Operations(requests)| <= TotalSize(requests)
  {
    hide Data;
    if requests != [] {
      OperationsAreFew(requests[..|requests| - 1]);
      var last := requests[|requests| - 1];
      if last.batch.Some? {
        OperationsHaveBytes(last.batch.value);
      }
    }
  }

  /** A Writer in the queue. */
  class Writer {
    const batch: WriteBatch?
    const sync: bool

    constructor (batch: WriteBatch?, sync: bool)
      ensures this.batch == batch && this.sync == sync
    {
      this.batch, this.sync := batch, sync;
    }
  }

  ghost predicate Describe(queue: seq<Writer>, requests: seq<Request>)
    reads set w | w in queue :: w, set w | w in queue && w.batch != null :: w.batch
  {
    && |requests| == |queue|
    && forall i :: 0 <= i < |queue| ==>
         && (queue[i].batch != null ==> queue[i].batch.Valid())
         && requests[i] == Request(if queue[i].batch == null then None else Some(queue[i].batch.ops), queue[i].sync)
  }

  lemma OneMore(requests: seq<Request>, end: nat)
    requires end < |requests|
    ensures TotalSize(requests[..end + 1]) == TotalSize(requests[..end]) + ByteSize(requests[end].batch)
    ensures Operations(requests[..end + 1]) ==
      Operations(requests[..end]) + if requests[end].batch.Some? then requests[end].batch.value else []
  {
    assert requests[..end + 1][..end] == requests[..end];
  }

  lemma SizeOf(sequence: nat, ops: seq<Op>)
    ensures |Rep(sequence, ops)| == ByteSize(Some(ops))
  {}

  /**
   * Collects the group of the first writer. A group of one batch is that batch itself; a larger one
   * is gathered in `tmp`, and no caller's batch changes.
   */
  method BuildBatchGroup(queue: seq<Writer>, tmp: WriteBatch, ghost requests: seq<Request>)
    returns (result: WriteBatch, end: nat)
    requires queue != [] && queue[0].batch != null && Describe(queue, requests)
    requires tmp.Valid() && tmp.ops == [] && forall w :: w in queue ==> w.batch != tmp
    modifies tmp
    ensures Describe(queue, requests) && IsGroup(requests, end)
    ensures result.Valid() && result.ops == Operations(requests[..end])
    ensures result == queue[0].batch || result == tmp
  {
    hide Operations, TotalSize, Data, Rep, ByteSize, Fits;
    var first := queue[0].batch;
    result := first;
    var size := |first.rep|;
    var maxSize := MaxSize(size);
    FirstAlone(requests);
    SizeOf(first.sequence, first.ops);
    end := 1;
    while end < |queue|
      invariant 0 < end <= |queue| && Describe(queue, requests)
      invariant result == first || result == tmp
      invariant result.Valid() && result.ops == Operations(requests[..end])
      invariant result == first ==> tmp.Valid() && tmp.ops == []
      invariant size == TotalSize(requests[..end]) && maxSize == MaxSize(ByteSize(requests[0].batch))
      invariant forall i :: 0 < i < end ==> MayJoin(requests, i)
    {
      var w := queue[end];
      OneMore(requests, end);
      if w.sync && !queue[0].sync {
        break;
      }
      if w.batch != null {
        SizeOf(w.batch.sequence, w.batch.ops);
        size := size + |w.batch.rep|;
        if size > maxSize {
          break;
        }
        GroupIsFew(requests, end + 1, size);
        if result == first {
          result := tmp;
          result.Append(first);
        }
        result.Append(w.batch);
      } else {
        NoBytes();
      }
      end := end + 1;
    }
  }

  lemma FirstAlone(requests: seq<Request>)
    requires requests != [] && requests[0].batch.Some?
    ensures TotalSize(requests[..1]) == ByteSize(requests[0].batch)
    ensures Operations(requests[..1]) == requests[0].batch.value
  {
    assert requests[..1][..0] == [];
  }

  lemma NoBytes()
    ensures ByteSize(None) == 0
  {}

  lemma GroupIsFew(requests: seq<Request>, end: nat, size: nat)
    requires end <= |requests| && TotalSize(requests[..end]) == size <= ONE_MB
    ensures |Operations(requests[..end])| < TWO_32
  {
    OperationsAreFew(requests[..end]);
  }
}
