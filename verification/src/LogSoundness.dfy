/** db/log_reader.cc on any file at all: nothing is returned that does not carry its checksum. */
module LogSoundness {
  import opened Bytes
  import opened LogFormat
  import opened LogReader
  import Crc32c

  lemma TypeAndFragment(buffer: seq<Byte>, length: nat)
    requires HEADER_SIZE + length <= |buffer|
    ensures buffer[6..HEADER_SIZE + length] == [buffer[6]] + buffer[HEADER_SIZE..HEADER_SIZE + length]
  {}

  /** The checksum test passes exactly for the bytes the writer stores. */
  lemma ChecksumDecides(buffer: seq<Byte>, length: nat)
    requires HEADER_SIZE + length <= |buffer|
    ensures ChecksumOk(buffer, length)
      <==> buffer[..4] == Checksum(buffer[6], buffer[HEADER_SIZE..HEADER_SIZE + length])
  {
    hide Crc32c.Fixed32, Crc32c.Mask, Crc32c.Unmask, Crc32c.Value, Crc32c.ReadUint32LE;
    TypeAndFragment(buffer, length);
    Crc32c.StoredChecksum(buffer, Crc32c.Value(buffer[6..HEADER_SIZE + length]));
  }

  lemma LengthBytes(a: Byte, b: Byte)
    ensures var n := a as nat + 256 * (b as nat);
      n <= 0xffff && (n % 256) as Byte == a && (n / 256) as Byte == b
  {}

  /** `kind` and `fragment` stand in the file at `at`, as the writer would have put them there. */
  ghost predicate Stands(file: seq<Byte>, at: nat, kind: Byte, fragment: seq<Byte>) {
    && |fragment| <= 0xffff && at + HEADER_SIZE + |fragment| <= |file|
    && file[at..at + HEADER_SIZE + |fragment|] == LogFormat.Physical(kind, fragment)
  }

  lemma ParsedStands(buffer: seq<Byte>, p: nat, lastBlock: bool)
    requires |buffer| >= HEADER_SIZE
    ensures var f := Parsed(buffer, p, lastBlock);
      f.kind != EOF && f.kind != BAD_RECORD ==>
        Stands(buffer, 0, f.kind, f.fragment) && f.next == p + HEADER_SIZE + |f.fragment| && f.drops == []
  {
    hide ChecksumOk, Checksum, Length;
    var f, length := Parsed(buffer, p, lastBlock), Length(buffer);
    if f.kind != EOF && f.kind != BAD_RECORD {
      ChecksumDecides(buffer, length);
      HeaderIs(buffer, length);
    }
  }

  lemma HeaderIs(buffer: seq<Byte>, length: nat)
    requires HEADER_SIZE + length <= |buffer| && length == Length(buffer)
    requires buffer[..4] == Checksum(buffer[6], buffer[HEADER_SIZE..HEADER_SIZE + length])
    ensures Stands(buffer, 0, buffer[6], buffer[HEADER_SIZE..HEADER_SIZE + length])
  {
    hide Checksum;
    var fragment := buffer[HEADER_SIZE..HEADER_SIZE + length];
    LengthBytes(buffer[4], buffer[5]);
    assert buffer[..4] + [buffer[4], buffer[5], buffer[6]] == buffer[..HEADER_SIZE];
    assert buffer[..HEADER_SIZE] + fragment == buffer[0..HEADER_SIZE + length];
  }

  /** Whatever physical read is not an end or a bad record has read a fragment with the right checksum. */
  lemma {:induction false} PhysicalStands(file: seq<Byte>, p: nat) returns (at: nat)
    requires p <= |file|
    ensures var f := PhysicalAt(file, p);
      f.kind != EOF && f.kind != BAD_RECORD ==>
        p <= at && Stands(file, at, f.kind, f.fragment) && f.next == at + HEADER_SIZE + |f.fragment|
    decreases |file| - p
  {
    hide Parsed, Stands;
    at := p;
    var end := BufferEnd(file, p);
    if end - p >= HEADER_SIZE {
      ParsedStands(file[p..end], p, |file| < BlockEnd(p));
      StandsInFile(file, p, end, PhysicalAt(file, p).kind, PhysicalAt(file, p).fragment);
    } else if |file| >= BlockEnd(p) {
      at := PhysicalStands(file, end);
    }
  }

  lemma StandsInFile(file: seq<Byte>, p: nat, end: nat, kind: Byte, fragment: seq<Byte>)
    requires p <= end <= |file|
    ensures Stands(file[p..end], 0, kind, fragment) ==> Stands(file, p, kind, fragment)
  {
    var n := HEADER_SIZE + |fragment|;
    assert p + n <= end ==> file[p..end][0..n] == file[p..p + n];
  }

  /** A fragment whose stored checksum is not its own is dropped, with all the rest of the block, and reported. */
  lemma DamageIsReported(file: seq<Byte>, p: nat)
    requires p <= |file| && p + HEADER_SIZE <= BufferEnd(file, p)
    requires var buffer := file[p..BufferEnd(file, p)];
      var n := HEADER_SIZE + Length(buffer);
      && n <= |buffer| && (buffer[6] != ZERO_TYPE || Length(buffer) != 0)
      && buffer[..4] != Checksum(buffer[6], buffer[HEADER_SIZE..n])
    ensures PhysicalAt(file, p) == Physical(BAD_RECORD, [], BufferEnd(file, p), [BufferEnd(file, p) - p])
  {
    hide ChecksumOk, Checksum;
    var buffer := file[p..BufferEnd(file, p)];
    ChecksumDecides(buffer, Length(buffer));
  }

  /** So is one that claims more than its block holds, unless the file ends there: then it was cut short. */
  lemma OverrunIsReported(file: seq<Byte>, p: nat)
    requires p <= |file| && p + HEADER_SIZE <= BufferEnd(file, p)
    requires var buffer := file[p..BufferEnd(file, p)]; HEADER_SIZE + Length(buffer) > |buffer|
    ensures var end := BufferEnd(file, p);
      PhysicalAt(file, p) == if |file| < BlockEnd(p) then Physical(EOF, [], end, []) else Physical(BAD_RECORD, [], end, [end - p])
  {
    hide ChecksumOk;
  }

  /** What was gathered for a record that does not go on, and a fragment that continues none, is reported. */
  lemma BreaksAreReported(file: seq<Byte>, p: nat, inFragmented: bool, scratch: seq<Byte>)
    requires p <= |file|
    ensures var f, r := PhysicalAt(file, p), LogicalAt(file, p, inFragmented, scratch);
      && (!inFragmented && (f.kind == MIDDLE_TYPE || f.kind == LAST_TYPE) ==> f.drops + [|f.fragment|] <= r.drops)
      && (inFragmented && scratch != [] && (f.kind == FULL_TYPE || f.kind == FIRST_TYPE || f.kind == BAD_RECORD) ==>
            f.drops + [|scratch|] <= r.drops)
      && (f.kind == EOF ==> r == End(f.next, f.drops))
  {
    hide PhysicalAt, LogicalAt;
    LogicalUnfold(file, p, inFragmented, scratch);
  }

  // ------------------------------------------------------------- whole records

  /** The type of fragment `i` of `n`. */
  function KindOf(i: nat, n: nat): Byte {
    if n == 1 then FULL_TYPE else if i == 0 then FIRST_TYPE else if i == n - 1 then LAST_TYPE else MIDDLE_TYPE
  }

  function Joined(fragments: seq<seq<Byte>>): seq<Byte> {
    if fragments == [] then [] else Joined(fragments[..|fragments| - 1]) + fragments[|fragments| - 1]
  }

  /** Fragments one after another in the file between two places. */
  ghost predicate InFile(file: seq<Byte>, from: nat, next: nat, ats: seq<nat>, fragments: seq<seq<Byte>>, n: nat) {
    && |ats| == |fragments|
    && (forall i :: 0 <= i < |ats| ==> Stands(file, ats[i], KindOf(i, n), fragments[i]))
    && (forall i :: 0 <= i < |ats| ==> from <= ats[i] && ats[i] + HEADER_SIZE + |fragments[i]| <= next)
    && forall i, j :: 0 <= i < j < |ats| ==> ats[i] + HEADER_SIZE + |fragments[i]| <= ats[j]
  }

  /** The start of a record: a first fragment and those in the middle that follow it. */
  ghost predicate Begun(file: seq<Byte>, from: nat, p: nat, ats: seq<nat>, fragments: seq<seq<Byte>>) {
    fragments != [] && InFile(file, from, p, ats, fragments, |fragments| + 1)
  }

  lemma Completed(file: seq<Byte>, from: nat, p: nat, ats: seq<nat>, fragments: seq<seq<Byte>>, at: nat, last: seq<Byte>)
    requires Begun(file, from, p, ats, fragments) && from <= p <= at && Stands(file, at, LAST_TYPE, last)
    ensures InFile(file, from, at + HEADER_SIZE + |last|, ats + [at], fragments + [last], |fragments| + 1)
    ensures Joined(fragments + [last]) == Joined(fragments) + last
  {
    hide Stands;
    assert (fragments + [last])[..|fragments|] == fragments;
  }

  lemma Continued(file: seq<Byte>, from: nat, p: nat, ats: seq<nat>, fragments: seq<seq<Byte>>, at: nat, middle: seq<Byte>)
    requires Begun(file, from, p, ats, fragments) && from <= p <= at && Stands(file, at, MIDDLE_TYPE, middle)
    ensures Begun(file, from, at + HEADER_SIZE + |middle|, ats + [at], fragments + [middle])
    ensures Joined(fragments + [middle]) == Joined(fragments) + middle
  {
    hide Stands;
    assert (fragments + [middle])[..|fragments|] == fragments;
    forall i | 0 <= i < |fragments|
      ensures Stands(file, ats[i], KindOf(i, |fragments| + 2), fragments[i])
    {
      assert Stands(file, ats[i], KindOf(i, |fragments| + 1), fragments[i]);
    }
  }

  lemma One(file: seq<Byte>, from: nat, at: nat, fragment: seq<Byte>)
    requires from <= at
    ensures Joined([fragment]) == fragment
    ensures Stands(file, at, FULL_TYPE, fragment) ==> InFile(file, from, at + HEADER_SIZE + |fragment|, [at], [fragment], 1)
    ensures Stands(file, at, FIRST_TYPE, fragment) ==> Begun(file, from, at + HEADER_SIZE + |fragment|, [at], [fragment])
  {
    hide Stands;
    assert [fragment][..0] == [];
  }

  lemma Later(file: seq<Byte>, from: nat, p: nat, q: nat, ats: seq<nat>, fragments: seq<seq<Byte>>)
    requires Begun(file, from, p, ats, fragments) && p <= q
    ensures Begun(file, from, q, ats, fragments)
  {
    hide Stands;
  }

  /**
   * Every record a read returns, from any file, is put together from a whole chain of fragments that stand in
   * the file in order, each with its own type and checksum.
   */
  lemma {:induction false} RecordStands(
      file: seq<Byte>, from: nat, p: nat, inFragmented: bool, scratch: seq<Byte>, ats: seq<nat>, fragments: seq<seq<Byte>>)
    returns (allAts: seq<nat>, all: seq<seq<Byte>>)
    requires from <= p <= |file| && LogicalAt(file, p, inFragmented, scratch).Record?
    requires inFragmented ==> Begun(file, from, p, ats, fragments) && scratch == Joined(fragments)
    ensures var r := LogicalAt(file, p, inFragmented, scratch);
      all != [] && InFile(file, from, r.next, allAts, all, |all|) && r.record == Joined(all)
    decreases |file| - p
  {
    hide PhysicalAt, Stands, InFile, Begun, Joined, LogicalAt;
    LogicalUnfold(file, p, inFragmented, scratch);
    var at := PhysicalStands(file, p);
    var f := PhysicalAt(file, p);
    var turn := TurnOn(f, inFragmented, scratch);
    if turn.Return? {
      if f.kind == FULL_TYPE {
        One(file, from, at, f.fragment);
        allAts, all := [at], [f.fragment];
      } else {
        Completed(file, from, p, ats, fragments, at, f.fragment);
        allAts, all := ats + [at], fragments + [f.fragment];
      }
    } else if f.kind == FIRST_TYPE {
      One(file, from, at, f.fragment);
      allAts, all := RecordStands(file, from, f.next, true, f.fragment, [at], [f.fragment]);
    } else if turn.inFragmented {
      Continued(file, from, p, ats, fragments, at, f.fragment);
      allAts, all := RecordStands(file, from, f.next, true, turn.scratch, ats + [at], fragments + [f.fragment]);
    } else {
      allAts, all := RecordStands(file, from, f.next, false, turn.scratch, [], []);
    }
  }
}
