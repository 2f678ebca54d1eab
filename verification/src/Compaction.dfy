/** The compaction loop of DBImpl::DoCompactionWork and what its drop rules leave behind. */
module Compactions {
  import opened Bytes
  import opened Keys
  import opened Versions
  import Inputs

  // ------------------------------------------------- overlap with grandparents

  /** How many grandparent files end before `key`; they come in ascending order. */
  function Passed(grandparents: seq<File>, key: InternalKey): (n: nat)
    ensures n <= |grandparents|
    ensures forall i :: 0 <= i < n ==> Less(grandparents[i].largest, key)
    ensures n < |grandparents| ==> !Less(grandparents[n].largest, key)
  {
    if grandparents == [] || !Less(grandparents[0].largest, key) then 0 else 1 + Passed(grandparents[1..], key)
  }

  function BytesBetween(grandparents: seq<File>, a: nat, b: nat): nat {
    if a <= b <= |grandparents| then Inputs.SumOfSizes(grandparents[a..b]) else 0
  }

  /** The last of `keys` comes after more than `limit` bytes of grandparents since the last stop or the first key. */
  predicate Stops(grandparents: seq<File>, limit: nat, keys: seq<InternalKey>)
    decreases |keys|, 0
  {
    |keys| > 1
    && var last := |keys| - 1;
       BytesBetween(grandparents, SinceStop(grandparents, limit, keys[..last]), Passed(grandparents, keys[last])) > limit
  }

  /** Grandparents passed at the last stop among `keys`, or at the first of them. */
  function SinceStop(grandparents: seq<File>, limit: nat, keys: seq<InternalKey>): nat
    decreases |keys|, 1
  {
    if keys == [] then 0
    else
      var last := |keys| - 1;
      if last == 0 || Stops(grandparents, limit, keys) then Passed(grandparents, keys[last])
      else SinceStop(grandparents, limit, keys[..last])
  }

  lemma PassedFrom(grandparents: seq<File>, key: InternalKey, n: nat)
    requires n <= |grandparents| && forall i :: 0 <= i < n ==> Less(grandparents[i].largest, key)
    requires n < |grandparents| ==> !Less(grandparents[n].largest, key)
    ensures Passed(grandparents, key) == n
  {}

  /** What one more key does to the count. */
  lemma CountedNext(grandparents: seq<File>, limit: nat, was: seq<InternalKey>, key: InternalKey)
    ensures var n := Passed(grandparents, key);
      var since := if was == [] then n else SinceStop(grandparents, limit, was);
      && (Stops(grandparents, limit, was + [key]) <==> BytesBetween(grandparents, since, n) > limit)
      && SinceStop(grandparents, limit, was + [key]) == (if BytesBetween(grandparents, since, n) > limit then n else since)
      && BytesBetween(grandparents, n, n) == 0 == BytesBetween(grandparents, 0, 0)
      && (was == [] ==> SinceStop(grandparents, limit, was) == 0)
  {
    assert (was + [key])[..|was|] == was;
  }

  lemma OneMoreFile(grandparents: seq<File>, a: nat, b: nat)
    requires a <= b < |grandparents|
    ensures BytesBetween(grandparents, a, b + 1) == BytesBetween(grandparents, a, b) + grandparents[b].size
  {
    assert grandparents[a..b + 1][..b - a] == grandparents[a..b];
  }

  /** The naive form of IsBaseLevelForKey: no file below the output level covers the key. */
  ghost predicate NothingDeeper(v: Version, level: nat, user: UserKey) {
    forall l, f :: level + 2 <= l < NUM_LEVELS && f in v[l] ==> !Covers(f, user)
  }

  class Compaction {
    const level: nat
    const inputVersion: Version
    const grandparents: seq<File>
    const maxGrandparentOverlap: nat
    const levelPtrs: array<nat>
    var grandparentIndex: nat
    var seenKey: bool
    var overlappedBytes: nat
    ghost var lastAsked: Option<UserKey>
    // The keys shown to ShouldStopBefore.
    ghost var shown: seq<InternalKey>

    constructor (level: nat, inputVersion: Version, grandparents: seq<File>, maxGrandparentOverlap: nat)
      requires LevelOrder(inputVersion)
      ensures Valid() && lastAsked == None && shown == [] && fresh(levelPtrs)
      ensures this.level == level && this.inputVersion == inputVersion
      ensures this.grandparents == grandparents && this.maxGrandparentOverlap == maxGrandparentOverlap
    {
      this.level, this.inputVersion := level, inputVersion;
      this.grandparents, this.maxGrandparentOverlap := grandparents, maxGrandparentOverlap;
      levelPtrs := new nat[NUM_LEVELS](_ => 0);
      grandparentIndex, seenKey, overlappedBytes := 0, false, 0;
      lastAsked, shown := None, [];
    }

    ghost predicate Valid()
      reads this, levelPtrs
    {
      LevelOrder(inputVersion) && CursorsBehind() && OverlapCounted()
    }

    /** The index and the bytes are those of the keys shown so far. */
    ghost predicate OverlapCounted()
      reads this`grandparentIndex, this`seenKey, this`overlappedBytes, this`shown
    {
      && (seenKey <==> shown != [])
      && var since := SinceStop(grandparents, maxGrandparentOverlap, shown);
         && since <= grandparentIndex == (if shown == [] then 0 else Passed(grandparents, shown[|shown| - 1]))
         && overlappedBytes == BytesBetween(grandparents, since, grandparentIndex)
    }

    ghost function PlanFor(
        input: seq<Entry>, smallestSnapshot: SequenceNumber, tableSize: seq<Entry> -> nat, maxOutputFileSize: nat): Plan
    {
      Plan(inputVersion, level, input, smallestSnapshot, grandparents, maxGrandparentOverlap, tableSize, maxOutputFileSize)
    }

    /** Each cursor has only passed files that end before every key still to be asked. */
    ghost predicate CursorsBehind()
      reads this`lastAsked, levelPtrs
    {
      && levelPtrs.Length == NUM_LEVELS
      && forall l :: 0 <= l < NUM_LEVELS ==>
           && levelPtrs[l] <= |inputVersion[l]|
           && forall i :: 0 <= i < levelPtrs[l] ==> lastAsked.Some? && inputVersion[l][i].largest.user < lastAsked.value
    }

    /** The cursor form agrees with the naive one as long as keys are asked in ascending order. */
    method IsBaseLevelForKey(user: UserKey) returns (base: bool)
      requires Valid() && (lastAsked.Some? ==> lastAsked.value <= user)
      modifies levelPtrs, this`lastAsked
      ensures Valid() && lastAsked == Some(user)
      ensures base == NothingDeeper(inputVersion, level, user)
    {
      hide SortedLevel, LevelZero, Deeper;
      lastAsked := Some(user);
      var l := level + 2;
      while l < NUM_LEVELS
        invariant Valid() && lastAsked == Some(user)
        invariant forall k, f :: level + 2 <= k < l && k < NUM_LEVELS && f in inputVersion[k] ==> !Covers(f, user)
      {
        var files := inputVersion[l];
        while levelPtrs[l] < |files|
          invariant Valid() && lastAsked == Some(user)
        {
          var f := files[levelPtrs[l]];
          if user <= f.largest.user {
            if user >= f.smallest.user {
              assert f in files && Covers(f, user);
              base := false;
              return;
            }
            break;
          }
          levelPtrs[l] := levelPtrs[l] + 1;
        }
        NoneCovers(files, levelPtrs[l], user);
        l := l + 1;
      }
      return true;
    }

    /** Scan to the earliest grandparent that contains `key`, counting what is passed once a key has been seen. */
    method PassGrandparents(key: InternalKey, ghost since: nat)
      requires grandparentIndex <= |grandparents|
      requires forall i :: 0 <= i < grandparentIndex ==> Less(grandparents[i].largest, key)
      requires seenKey ==>
        since <= grandparentIndex && overlappedBytes == BytesBetween(grandparents, since, grandparentIndex)
      modifies this`grandparentIndex, this`overlappedBytes
      ensures grandparentIndex == Passed(grandparents, key)
      ensures if seenKey then since <= grandparentIndex && overlappedBytes == BytesBetween(grandparents, since, grandparentIndex)
              else overlappedBytes == old(overlappedBytes)
    {
      while grandparentIndex < |grandparents| && Less(grandparents[grandparentIndex].largest, key)
        invariant grandparentIndex <= |grandparents|
        invariant forall i :: 0 <= i < grandparentIndex ==> Less(grandparents[i].largest, key)
        invariant if seenKey then since <= grandparentIndex && overlappedBytes == BytesBetween(grandparents, since, grandparentIndex)
                  else overlappedBytes == old(overlappedBytes)
        decreases |grandparents| - grandparentIndex
      {
        if seenKey {
          OneMoreFile(grandparents, since, grandparentIndex);
          overlappedBytes := overlappedBytes + grandparents[grandparentIndex].size;
        }
        grandparentIndex := grandparentIndex + 1;
      }
      PassedFrom(grandparents, key, grandparentIndex);
    }

    /** Whether the grandparents passed since the last stop are more than one output should overlap. */
    method ShouldStopBefore(key: InternalKey) returns (stop: bool)
      requires Valid() && (shown != [] ==> !Less(key, shown[|shown| - 1]))
      modifies this`grandparentIndex, this`seenKey, this`overlappedBytes, this`shown
      ensures Valid() && shown == old(shown) + [key]
      ensures stop <==> Stops(grandparents, maxGrandparentOverlap, shown)
    {
      CountedNext(grandparents, maxGrandparentOverlap, shown, key);
      hide LevelOrder, Stops, SinceStop, BytesBetween, Compaction.CursorsBehind;
      ghost var since :=
        if shown == [] then Passed(grandparents, key) else SinceStop(grandparents, maxGrandparentOverlap, shown);
      PassGrandparents(key, since);
      seenKey := true;
      shown := shown + [key];
      if overlappedBytes > maxGrandparentOverlap {
        overlappedBytes := 0;
        return true;
      }
      return false;
    }
  }

  /** Files before the cursor end too early, files after it start too late. */
  lemma NoneCovers(files: seq<File>, p: nat, user: UserKey)
    requires SortedLevel(files) && p <= |files|
    requires forall i :: 0 <= i < p ==> files[i].largest.user < user
    requires p < |files| ==> user < files[p].smallest.user
    ensures forall f :: f in files ==> !Covers(f, user)
  {
    forall i | 0 <= i < |files|
      ensures !Covers(files[i], user)
    {
      if p < i {
        assert Before(files[p], files[i]) && files[p] in files && files[i] in files;
        FirstAndLast(files[p]);
      }
    }
  }

  // -------------------------------------------------------------- drop rules

  /** Rule (A): a newer entry for the same user key is already visible to every snapshot. */
  predicate Hidden(input: seq<Entry>, smallestSnapshot: SequenceNumber, i: nat)
    requires i < |input|
  {
    i > 0 && input[i - 1].User() == input[i].User() && input[i - 1].Sequence() <= smallestSnapshot
  }

  /** The other rule: a deletion marker every snapshot sees, with nothing below for it to hide. */
  ghost predicate ObsoleteMarker(v: Version, level: nat, input: seq<Entry>, smallestSnapshot: SequenceNumber, i: nat)
    requires i < |input|
  {
    input[i].Kind().Deletion? && input[i].Sequence() <= smallestSnapshot && NothingDeeper(v, level, input[i].User())
  }

  ghost predicate Drops(v: Version, level: nat, input: seq<Entry>, smallestSnapshot: SequenceNumber, i: nat)
    requires i < |input|
  {
    Hidden(input, smallestSnapshot, i) || ObsoleteMarker(v, level, input, smallestSnapshot, i)
  }

  /** The first `n` input entries without those dropped. */
  ghost function Kept(v: Version, level: nat, input: seq<Entry>, smallestSnapshot: SequenceNumber, n: nat): seq<Entry>
    requires n <= |input|
  {
    if n == 0 then []
    else
      Kept(v, level, input, smallestSnapshot, n - 1)
      + if Drops(v, level, input, smallestSnapshot, n - 1) then [] else [input[n - 1]]
  }

  ghost function Flatten(files: seq<File>): seq<Entry> {
    if files == [] then [] else Flatten(files[..|files| - 1]) + files[|files| - 1].entries
  }

  lemma FlattenAppend(files: seq<File>, f: File)
    ensures Flatten(files + [f]) == Flatten(files) + f.entries
  {
    assert (files + [f])[..|files|] == files;
  }

  function FileFor(number: nat, size: nat, entries: seq<Entry>): File
    requires entries != []
  {
    File(number, size, entries[0].key, entries[|entries| - 1].key, entries)
  }

  lemma {:induction false} KeptOrdered(v: Version, level: nat, input: seq<Entry>, smallestSnapshot: SequenceNumber, n: nat)
    requires Sorted(input) && n <= |input|
    ensures Sorted(Kept(v, level, input, smallestSnapshot, n))
    ensures forall e :: e in Kept(v, level, input, smallestSnapshot, n) ==> e in input[..n]
  {
    if n > 0 {
      KeptOrdered(v, level, input, smallestSnapshot, n - 1);
      hide Drops;
      var front := Kept(v, level, input, smallestSnapshot, n - 1);
      forall k | 0 <= k < |front|
        ensures Precedes(front[k].key, input[n - 1].key)
      {
        assert front[k] in input[..n - 1];
      }
      assert input[..n] == input[..n - 1] + [input[n - 1]];
    }
  }

  ghost predicate Numbered(files: seq<File>, first: nat) {
    forall i :: 0 <= i < |files| ==> files[i].number == first + i
  }

  // ----------------------------------------------------- where outputs are cut

  /** What a compaction is to do; `tableSize` is what a table builder reports for its entries. */
  datatype Plan = Plan(
    v: Version, level: nat, input: seq<Entry>, smallestSnapshot: SequenceNumber,
    grandparents: seq<File>, maxOverlap: nat, tableSize: seq<Entry> -> nat, maxFileSize: nat)
  {
    ghost function KeptTo(n: nat): seq<Entry>
      requires n <= |input|
    {
      Kept(v, level, input, smallestSnapshot, n)
    }

    /** Input entry `i` comes after too many grandparents for one output. */
    predicate StopsAt(i: nat)
      requires i < |input|
    {
      Stops(grandparents, maxOverlap, InternalKeys(input[..i + 1]))
    }

    /** The table of what is kept of input[from..end]: too small before its last entry, and no stop inside it. */
    ghost predicate Output(from: nat, end: nat, entries: seq<Entry>) {
      && from <= end <= |input| && entries != [] && KeptTo(end) == KeptTo(from) + entries
      && (forall n :: 0 < n < |entries| ==> tableSize(entries[..n]) < maxFileSize)
      && forall i :: from <= i < end && StopsAt(i) ==> KeptTo(i) == KeptTo(from)
    }

    /** It is closed by its last entry, which makes it large enough, or by a stop at the next input entry. */
    ghost predicate Closes(end: nat, entries: seq<Entry>)
      requires end <= |input| && entries != []
    {
      || (tableSize(entries) >= maxFileSize && end > 0 && entries[|entries| - 1] == input[end - 1])
      || (end < |input| && StopsAt(end))
    }

    ghost predicate OutputAt(outputs: seq<File>, ends: seq<nat>, k: nat)
      requires k < |outputs| && k < |ends|
    {
      Output(Start(ends, k), ends[k], outputs[k].entries)
    }

    ghost predicate ClosedAt(outputs: seq<File>, ends: seq<nat>, k: nat)
      requires k < |outputs| && k < |ends|
    {
      OutputAt(outputs, ends, k) && Closes(ends[k], outputs[k].entries)
    }

    /** The last output ends with the input. */
    ghost predicate LastAt(outputs: seq<File>, ends: seq<nat>, k: nat)
      requires k < |outputs| && k < |ends|
    {
      OutputAt(outputs, ends, k) && k == |outputs| - 1 && ends[k] == |input|
    }

    /** Every output is closed where it must be and not before; the last may end with the input. */
    ghost predicate WellCut(outputs: seq<File>, ends: seq<nat>) {
      && |ends| == |outputs|
      && (forall k :: 0 <= k < |outputs| ==> ClosedAt(outputs, ends, k) || LastAt(outputs, ends, k))
      && Start(ends, |outputs|) <= |input| && KeptTo(|input|) == KeptTo(Start(ends, |outputs|))
    }
  }

  function InternalKeys(entries: seq<Entry>): seq<InternalKey> {
    seq(|entries|, i requires 0 <= i < |entries| => entries[i].key)
  }

  function Start(ends: seq<nat>, k: nat): nat
    requires k <= |ends|
  {
    if k == 0 then 0 else ends[k - 1]
  }

  /** Of two ways to cut, neither closes its next output before the other. */
  lemma NotShorter(p: Plan, from: nat, end: nat, a: seq<Entry>, from': nat, end': nat, b: seq<Entry>)
    requires p.Output(from, end, a) && p.Output(from', end', b) && p.KeptTo(from) == p.KeptTo(from')
    requires p.Closes(end, a) || end == |p.input|
    ensures |b| <= |a|
  {
    if |a| < |b| {
      KeptGrows(p, end', |p.input|);
      assert b[..|a|] == a by { SamePrefix(p, end, end', p.KeptTo(from), a, b); }
      assert end < end' by { KeptGrows(p, end', end); }
      KeptGrows(p, end, from');
      assert false;
    }
  }

  lemma SamePrefix(p: Plan, m: nat, n: nat, front: seq<Entry>, a: seq<Entry>, b: seq<Entry>)
    requires m <= |p.input| && n <= |p.input| && p.KeptTo(m) == front + a && p.KeptTo(n) == front + b && |a| <= |b|
    ensures b[..|a|] == a
  {
    KeptGrows(p, m, n);
    if n < m {
      KeptGrows(p, n, m);
    }
    forall k | 0 <= k < |a|
      ensures b[k] == a[k]
    {
      assert (front + a)[|front| + k] == a[k] && (front + b)[|front| + k] == b[k];
    }
  }

  lemma {:induction false} KeptGrows(p: Plan, m: nat, n: nat)
    requires m <= |p.input| && n <= |p.input|
    ensures m <= n ==> p.KeptTo(m) <= p.KeptTo(n)
    ensures n < m ==> p.KeptTo(n) <= p.KeptTo(m)
    decreases if m < n then n - m else m - n
  {
    if m < n {
      KeptGrows(p, m, n - 1);
      KeptStep(p.v, p.level, p.input, p.smallestSnapshot, n - 1);
    } else if n < m {
      KeptGrows(p, m - 1, n);
      KeptStep(p.v, p.level, p.input, p.smallestSnapshot, m - 1);
    }
  }

  lemma SomethingLeft(p: Plan, outputs: seq<File>, ends: seq<nat>, k: nat)
    requires p.WellCut(outputs, ends) && k <= |outputs| && Start(ends, k) <= |p.input|
    ensures k < |outputs| <==> |p.KeptTo(Start(ends, k))| < |p.KeptTo(|p.input|)|
    ensures |ends| == |outputs| && (k < |outputs| ==> ends[k] <= |p.input|)
    ensures k < |outputs| ==> p.Output(Start(ends, k), ends[k], outputs[k].entries)
    ensures k < |outputs| ==> p.Closes(ends[k], outputs[k].entries) || ends[k] == |p.input|
  {
    if k < |outputs| {
      assert p.ClosedAt(outputs, ends, k) || p.LastAt(outputs, ends, k);
      assert p.OutputAt(outputs, ends, k);
      hide Plan.WellCut, Plan.Closes, Plan.KeptTo;
      KeptGrows(p, ends[k], |p.input|);
    }
  }

  lemma SameNext(p: Plan, from: nat, end: nat, a: seq<Entry>, from': nat, end': nat, b: seq<Entry>)
    requires p.Output(from, end, a) && p.Output(from', end', b) && p.KeptTo(from) == p.KeptTo(from')
    requires p.Closes(end, a) || end == |p.input|
    requires p.Closes(end', b) || end' == |p.input|
    ensures a == b && p.KeptTo(end) == p.KeptTo(end')
  {
    NotShorter(p, from, end, a, from', end', b);
    NotShorter(p, from', end', b, from, end, a);
    SamePrefix(p, end, end', p.KeptTo(from), a, b);
    assert b[..|a|] == b;
  }

  /** The first `k` outputs are the same, and so is what is left. */
  ghost predicate Agree(p: Plan, a: seq<File>, endsA: seq<nat>, b: seq<File>, endsB: seq<nat>, k: nat) {
    && k <= |a| == |endsA| && k <= |b| == |endsB|
    && (forall i :: 0 <= i < k ==> a[i].entries == b[i].entries)
    && Start(endsA, k) <= |p.input| && Start(endsB, k) <= |p.input|
    && p.KeptTo(Start(endsA, k)) == p.KeptTo(Start(endsB, k))
  }

  lemma AgreeNext(p: Plan, a: seq<File>, endsA: seq<nat>, b: seq<File>, endsB: seq<nat>, k: nat)
    requires p.WellCut(a, endsA) && p.WellCut(b, endsB) && Agree(p, a, endsA, b, endsB, k)
    ensures k < |a| ==> Agree(p, a, endsA, b, endsB, k + 1)
    ensures k == |a| ==> |b| == |a|
  {
    hide Plan.KeptTo, Plan.Closes, Plan.Output, Plan.WellCut;
    SomethingLeft(p, a, endsA, k);
    SomethingLeft(p, b, endsB, k);
    if k < |a| {
      SameNext(p, Start(endsA, k), endsA[k], a[k].entries, Start(endsB, k), endsB[k], b[k].entries);
    }
  }

  lemma {:induction false} CutsAgree(p: Plan, a: seq<File>, endsA: seq<nat>, b: seq<File>, endsB: seq<nat>, k: nat)
    requires p.WellCut(a, endsA) && p.WellCut(b, endsB) && k <= |a|
    ensures Agree(p, a, endsA, b, endsB, k)
    decreases k
  {
    if k > 0 {
      hide Agree;
      CutsAgree(p, a, endsA, b, endsB, k - 1);
      AgreeNext(p, a, endsA, b, endsB, k - 1);
    }
  }

  /** There is one way to cut the outputs of a compaction. */
  lemma CutsAreUnique(p: Plan, a: seq<File>, endsA: seq<nat>, b: seq<File>, endsB: seq<nat>)
    requires p.WellCut(a, endsA) && p.WellCut(b, endsB)
    ensures |a| == |b| && forall i :: 0 <= i < |a| ==> a[i].entries == b[i].entries
  {
    CutsAgree(p, a, endsA, b, endsB, |a|);
    AgreeNext(p, a, endsA, b, endsB, |a|);
    hide Plan.WellCut, Plan.KeptTo;
  }

  /** The loop so far: closed outputs, and `builder` for the entries kept since. */
  ghost predicate CutSoFar(p: Plan, i: nat, outputs: seq<File>, ends: seq<nat>, builder: seq<Entry>) {
    && i <= |p.input| && |ends| == |outputs|
    && (forall k :: 0 <= k < |outputs| ==> p.ClosedAt(outputs, ends, k))
    && var from := Start(ends, |outputs|);
       && from <= i && p.KeptTo(i) == p.KeptTo(from) + builder
       && (forall n :: 0 < n <= |builder| ==> p.tableSize(builder[..n]) < p.maxFileSize)
       && forall j :: from <= j < i && p.StopsAt(j) ==> p.KeptTo(j) == p.KeptTo(from)
  }

  lemma CutClosed(p: Plan, i: nat, outputs: seq<File>, ends: seq<nat>, builder: seq<Entry>, end: nat, f: File)
    requires |ends| == |outputs| && i <= end <= |p.input|
    requires forall k :: 0 <= k < |outputs| ==> p.ClosedAt(outputs, ends, k)
    requires p.Output(Start(ends, |outputs|), end, f.entries) && p.Closes(end, f.entries)
    ensures CutSoFar(p, end, outputs + [f], ends + [end], [])
  {
    hide Plan.Closes, Plan.KeptTo, Plan.StopsAt;
    var all, at := outputs + [f], ends + [end];
    forall k | 0 <= k < |all|
      ensures p.ClosedAt(all, at, k)
    {
      assert Start(at, k) == Start(ends, k);
      assert k < |outputs| ==> p.ClosedAt(outputs, ends, k);
    }
  }

  /** The outputs so far are valid tables of what is kept so far, but for `builder`, and rightly cut. */
  ghost predicate Progress(p: Plan, first: nat, i: nat, outputs: seq<File>, ends: seq<nat>, builder: seq<Entry>) {
    && CutSoFar(p, i, outputs, ends, builder) && Flatten(outputs) + builder == p.KeptTo(i)
    && AllValid(outputs) && Numbered(outputs, first) && Sized(p, outputs)
  }

  ghost predicate Sized(p: Plan, outputs: seq<File>) {
    forall f :: f in outputs ==> f.size == p.tableSize(f.entries)
  }

  function NextFile(p: Plan, first: nat, outputs: seq<File>, builder: seq<Entry>): File
    requires builder != []
  {
    FileFor(first + |outputs|, p.tableSize(builder), builder)
  }

  /**
   * DoCompactionWork: walk the merged inputs, drop what no snapshot can need, and cut the rest into
   * tables numbered from `nextNumber` on.
   */
  method DoCompactionWork(
      c: Compaction, input: seq<Entry>, smallestSnapshot: SequenceNumber,
      tableSize: seq<Entry> -> nat, maxOutputFileSize: nat, nextNumber: nat)
    returns (outputs: seq<File>, ghost ends: seq<nat>)
    requires c.Valid() && c.lastAsked == None && c.shown == []
    requires Sorted(input) && smallestSnapshot < MAX_SEQUENCE
    modifies c, c.levelPtrs
    ensures c.Valid()
    ensures AllValid(outputs) && Numbered(outputs, nextNumber)
    ensures forall f :: f in outputs ==> f.size == tableSize(f.entries)
    ensures Flatten(outputs) == Kept(c.inputVersion, c.level, input, smallestSnapshot, |input|)
    ensures c.PlanFor(input, smallestSnapshot, tableSize, maxOutputFileSize).WellCut(outputs, ends)
  {
    hide LevelOrder, Sorted, AllValid, Drops, Kept, Flatten, NothingDeeper, Compaction.Valid, Progress, Stops,
      Plan.WellCut, Plan.StopsAt, Plan.KeptTo, Sized, Numbered, InternalKeys;
    outputs, ends := [], [];
    var builder: seq<Entry> := [];
    var currentUserKey: Option<UserKey> := None;
    var lastSequenceForKey: SequenceNumber := MAX_SEQUENCE;
    ghost var p := c.PlanFor(input, smallestSnapshot, tableSize, maxOutputFileSize);
    NothingCut(p, nextNumber);
    var i := 0;
    while i < |input|
      invariant 0 <= i <= |input| && c.Valid()
      invariant i == 0 ==> currentUserKey == None && c.lastAsked == None
      invariant i > 0 ==> currentUserKey == Some(input[i - 1].User()) && lastSequenceForKey == input[i - 1].Sequence()
      invariant i > 0 && c.lastAsked.Some? ==> c.lastAsked.value <= input[i - 1].User()
      invariant c.shown == InternalKeys(input[..i]) && Progress(p, nextNumber, i, outputs, ends, builder)
    {
      var e := input[i];
      KeysAscend(input, i);
      StopsIs(p, i);
      var stop := c.ShouldStopBefore(e.key);
      if stop && builder != [] {
        CutAtStop(p, nextNumber, i, outputs, ends, builder);
        outputs := Finish(outputs, builder, tableSize(builder), nextNumber + |outputs|);
        ends := ends + [i];
        builder := [];
      }

      var drop := false;
      if currentUserKey != Some(e.User()) {
        currentUserKey := Some(e.User());
        lastSequenceForKey := MAX_SEQUENCE;
      }
      Ascending(input, i);
      if lastSequenceForKey <= smallestSnapshot {
        drop := true;
      } else if e.Kind().Deletion? && e.Sequence() <= smallestSnapshot {
        drop := c.IsBaseLevelForKey(e.User());
      }
      DropRules(p.v, p.level, input, smallestSnapshot, i);
      lastSequenceForKey := e.Sequence();

      if drop {
        CutDropped(p, nextNumber, i, outputs, ends, builder);
      } else {
        ghost var before := builder;
        builder := builder + [e];
        if tableSize(builder) >= maxOutputFileSize {
          CutWhenFull(p, nextNumber, i, outputs, ends, before);
          outputs := Finish(outputs, builder, tableSize(builder), nextNumber + |outputs|);
          ends := ends + [i + 1];
          builder := [];
        } else {
          CutKept(p, nextNumber, i, outputs, ends, before);
        }
      }
      i := i + 1;
    }
    CutAtEnd(p, nextNumber, outputs, ends, builder);
    if builder != [] {
      outputs := Finish(outputs, builder, tableSize(builder), nextNumber + |outputs|);
      ends := ends + [|input|];
    }
  }

  lemma KeptToStep(p: Plan, i: nat)
    requires i < |p.input|
    ensures p.KeptTo(i + 1) == p.KeptTo(i) + if Drops(p.v, p.level, p.input, p.smallestSnapshot, i) then [] else [p.input[i]]
  {}

  lemma NothingCut(p: Plan, first: nat)
    ensures Progress(p, first, 0, [], [], [])
    ensures InternalKeys(p.input[..0]) == []
  {}

  lemma KeysAscend(input: seq<Entry>, i: nat)
    requires Sorted(input) && i < |input|
    ensures i > 0 ==> InternalKeys(input[..i]) != [] && !Less(input[i].key, InternalKeys(input[..i])[i - 1])
    ensures |InternalKeys(input[..i])| == i
    ensures InternalKeys(input[..i + 1]) == InternalKeys(input[..i]) + [input[i].key]
  {}

  lemma StopsIs(p: Plan, i: nat)
    requires i < |p.input|
    ensures p.StopsAt(i) <==> Stops(p.grandparents, p.maxOverlap, InternalKeys(p.input[..i + 1]))
  {}

  lemma FileAdded(p: Plan, first: nat, outputs: seq<File>, builder: seq<Entry>, i: nat)
    requires Sorted(p.input) && i <= |p.input| && builder != [] && Flatten(outputs) + builder == p.KeptTo(i)
    requires AllValid(outputs) && Numbered(outputs, first) && Sized(p, outputs)
    ensures Sorted(Flatten(outputs) + builder)
    ensures var all := outputs + [NextFile(p, first, outputs, builder)];
      AllValid(all) && Numbered(all, first) && Sized(p, all) && Flatten(all) + [] == p.KeptTo(i)
  {
    KeptOrdered(p.v, p.level, p.input, p.smallestSnapshot, i);
    SuffixSorted(Flatten(outputs), builder);
    FlattenAppend(outputs, NextFile(p, first, outputs, builder));
    hide Kept, Flatten, Sorted;
  }

  lemma CutAtStop(p: Plan, first: nat, i: nat, outputs: seq<File>, ends: seq<nat>, builder: seq<Entry>)
    requires Sorted(p.input) && Progress(p, first, i, outputs, ends, builder)
    requires i < |p.input| && p.StopsAt(i) && builder != []
    ensures Progress(p, first, i, outputs + [NextFile(p, first, outputs, builder)], ends + [i], [])
    ensures Sorted(Flatten(outputs) + builder) && AllValid(outputs)
  {
    FileAdded(p, first, outputs, builder, i);
    hide Plan.KeptTo, Plan.StopsAt, Sorted, AllValid, Flatten, Sized, Numbered;
    CutClosed(p, i, outputs, ends, builder, i, NextFile(p, first, outputs, builder));
  }

  lemma FullOutput(p: Plan, i: nat, outputs: seq<File>, ends: seq<nat>, builder: seq<Entry>)
    requires CutSoFar(p, i, outputs, ends, builder) && i < |p.input| && (p.StopsAt(i) ==> builder == [])
    requires p.KeptTo(i + 1) == p.KeptTo(i) + [p.input[i]] && p.tableSize(builder + [p.input[i]]) >= p.maxFileSize
    ensures var more := builder + [p.input[i]];
      p.Output(Start(ends, |outputs|), i + 1, more) && p.Closes(i + 1, more)
  {
    hide Plan.KeptTo, Plan.StopsAt, Plan.ClosedAt;
    var more := builder + [p.input[i]];
    assert forall n :: 0 < n <= |builder| ==> more[..n] == builder[..n];
  }

  lemma CutWhenFull(p: Plan, first: nat, i: nat, outputs: seq<File>, ends: seq<nat>, builder: seq<Entry>)
    requires Sorted(p.input) && Progress(p, first, i, outputs, ends, builder)
    requires i < |p.input| && (p.StopsAt(i) ==> builder == [])
    requires !Drops(p.v, p.level, p.input, p.smallestSnapshot, i)
    requires p.tableSize(builder + [p.input[i]]) >= p.maxFileSize
    ensures var more := builder + [p.input[i]];
      && Progress(p, first, i + 1, outputs + [NextFile(p, first, outputs, more)], ends + [i + 1], [])
      && Sorted(Flatten(outputs) + more) && AllValid(outputs)
  {
    var more := builder + [p.input[i]];
    KeptToStep(p, i);
    assert Flatten(outputs) + more == Flatten(outputs) + builder + [p.input[i]];
    FileAdded(p, first, outputs, more, i + 1);
    FullOutput(p, i, outputs, ends, builder);
    hide Plan.KeptTo, Plan.StopsAt, Plan.Output, Plan.Closes, Sorted, AllValid, Flatten, Sized, Numbered, Drops;
    CutClosed(p, i, outputs, ends, builder, i + 1, NextFile(p, first, outputs, more));
  }

  lemma CutKept(p: Plan, first: nat, i: nat, outputs: seq<File>, ends: seq<nat>, builder: seq<Entry>)
    requires Progress(p, first, i, outputs, ends, builder) && i < |p.input| && (p.StopsAt(i) ==> builder == [])
    requires !Drops(p.v, p.level, p.input, p.smallestSnapshot, i)
    requires p.tableSize(builder + [p.input[i]]) < p.maxFileSize
    ensures Progress(p, first, i + 1, outputs, ends, builder + [p.input[i]])
  {
    KeptToStep(p, i);
    hide Plan.KeptTo, Plan.StopsAt, Plan.ClosedAt, Drops, AllValid, Flatten, Sized, Numbered;
    var more := builder + [p.input[i]];
    assert Flatten(outputs) + more == Flatten(outputs) + builder + [p.input[i]];
    assert forall n :: 0 < n <= |builder| ==> more[..n] == builder[..n];
    assert more[..|more|] == more;
  }

  lemma CutDropped(p: Plan, first: nat, i: nat, outputs: seq<File>, ends: seq<nat>, builder: seq<Entry>)
    requires Progress(p, first, i, outputs, ends, builder) && i < |p.input| && (p.StopsAt(i) ==> builder == [])
    requires Drops(p.v, p.level, p.input, p.smallestSnapshot, i)
    ensures Progress(p, first, i + 1, outputs, ends, builder)
  {
    KeptToStep(p, i);
    hide Plan.KeptTo, Plan.StopsAt, Plan.ClosedAt, Drops, AllValid, Flatten, Sized, Numbered;
  }

  lemma CutAtEnd(p: Plan, first: nat, outputs: seq<File>, ends: seq<nat>, builder: seq<Entry>)
    requires Sorted(p.input) && Progress(p, first, |p.input|, outputs, ends, builder)
    ensures Sorted(Flatten(outputs) + builder) && AllValid(outputs)
    ensures var all := if builder == [] then outputs else outputs + [NextFile(p, first, outputs, builder)];
      && p.WellCut(all, if builder == [] then ends else ends + [|p.input|])
      && AllValid(all) && Numbered(all, first) && (forall f :: f in all ==> f.size == p.tableSize(f.entries))
      && Flatten(all) == Kept(p.v, p.level, p.input, p.smallestSnapshot, |p.input|)
  {
    KeptOrdered(p.v, p.level, p.input, p.smallestSnapshot, |p.input|);
    if builder == [] {
      assert Flatten(outputs) + [] == Flatten(outputs);
    } else {
      FileAdded(p, first, outputs, builder, |p.input|);
      hide Kept, Plan.StopsAt, Plan.Closes, Sorted, AllValid, Flatten, Numbered;
      var all, at := outputs + [NextFile(p, first, outputs, builder)], ends + [|p.input|];
      assert Flatten(all) + [] == Flatten(all);
      forall k | 0 <= k < |outputs|
        ensures p.ClosedAt(all, at, k)
      {
        assert p.ClosedAt(outputs, ends, k) && Start(at, k) == Start(ends, k);
      }
      assert p.LastAt(all, at, |outputs|);
    }
  }

  lemma Nothing(v: Version, level: nat, input: seq<Entry>, smallestSnapshot: SequenceNumber)
    ensures Kept(v, level, input, smallestSnapshot, 0) == [] && Flatten([]) == [] && AllValid([])
  {}

  lemma KeptStep(v: Version, level: nat, input: seq<Entry>, smallestSnapshot: SequenceNumber, i: nat)
    requires i < |input|
    ensures Kept(v, level, input, smallestSnapshot, i + 1)
      == Kept(v, level, input, smallestSnapshot, i) + if Drops(v, level, input, smallestSnapshot, i) then [] else [input[i]]
  {}

  lemma DropRules(v: Version, level: nat, input: seq<Entry>, smallestSnapshot: SequenceNumber, i: nat)
    requires i < |input|
    ensures Drops(v, level, input, smallestSnapshot, i)
      <==> Hidden(input, smallestSnapshot, i) || ObsoleteMarker(v, level, input, smallestSnapshot, i)
  {}

  lemma Ascending(input: seq<Entry>, i: nat)
    requires Sorted(input) && i < |input|
    ensures i > 0 ==> input[i - 1].User() <= input[i].User()
  {}

  lemma SuffixSorted(a: seq<Entry>, b: seq<Entry>)
    requires Sorted(a + b)
    ensures Sorted(b)
  {
    assert forall i :: 0 <= i < |b| ==> b[i] == (a + b)[|a| + i];
  }

  /** FinishCompactionOutputFile. */
  method Finish(outputs: seq<File>, builder: seq<Entry>, size: nat, number: nat) returns (r: seq<File>)
    requires builder != [] && Sorted(Flatten(outputs) + builder) && AllValid(outputs)
    ensures r == outputs + [FileFor(number, size, builder)]
    ensures AllValid(r) && Flatten(r) == Flatten(outputs) + builder
  {
    SuffixSorted(Flatten(outputs), builder);
    r := outputs + [FileFor(number, size, builder)];
    FlattenAppend(outputs, FileFor(number, size, builder));
  }
}
