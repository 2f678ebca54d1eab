/** The log file format of db/log_format.h: 32 KB blocks of checksummed fragments. */
module LogFormat {
  import opened Bytes
  import Crc32c

  const BLOCK_SIZE: nat := 32768
  const HEADER_SIZE: nat := 7

  const ZERO_TYPE: Byte := 0
  const FULL_TYPE: Byte := 1
  const FIRST_TYPE: Byte := 2
  const MIDDLE_TYPE: Byte := 3
  const LAST_TYPE: Byte := 4

  /** The masked checksum of a fragment and its type, as stored. */
  function Checksum(t: Byte, fragment: seq<Byte>): (s: seq<Byte>)
    ensures |s| == 4
  {
    Crc32c.Fixed32(Crc32c.Mask(Crc32c.Value([t] + fragment)))
  }

  function Header(t: Byte, fragment: seq<Byte>): (s: seq<Byte>)
    requires |fragment| <= 0xffff
    ensures |s| == HEADER_SIZE
  {
    Checksum(t, fragment) + [(|fragment| % 256) as Byte, (|fragment| / 256) as Byte, t]
  }

  function Physical(t: Byte, fragment: seq<Byte>): (s: seq<Byte>)
    requires |fragment| <= 0xffff
    ensures |s| == HEADER_SIZE + |fragment|
  {
    Header(t, fragment) + fragment
  }

  /** The length field of the header at the front of `buffer`. */
  function Length(buffer: seq<Byte>): nat
    requires |buffer| >= HEADER_SIZE
  {
    buffer[4] as nat + 256 * (buffer[5] as nat)
  }

  /** Does the stored checksum match the type byte and `length` bytes after the header? */
  predicate ChecksumOk(buffer: seq<Byte>, length: nat)
    requires HEADER_SIZE + length <= |buffer|
  {
    Crc32c.Unmask(Crc32c.ReadUint32LE(buffer, 0)) == Crc32c.Value(buffer[6..HEADER_SIZE + length])
  }

  /** What the reader sees in front of a fragment the writer put there. */
  lemma PhysicalParses(t: Byte, fragment: seq<Byte>, rest: seq<Byte>)
    requires |fragment| <= 0xffff
    ensures var b := Physical(t, fragment) + rest;
      Length(b) == |fragment| && b[6] == t && ChecksumOk(b, |fragment|)
      && b[HEADER_SIZE..HEADER_SIZE + |fragment|] == fragment
  {
    hide Crc32c.Fixed32, Crc32c.Mask, Crc32c.Unmask, Crc32c.Value, Crc32c.ReadUint32LE;
    var b := Physical(t, fragment) + rest;
    var crc := Crc32c.Mask(Crc32c.Value([t] + fragment));
    assert b[6..HEADER_SIZE + |fragment|] == [t] + fragment;
    Crc32c.StoredChecksum(b, Crc32c.Value([t] + fragment));
  }
}

/** db/log_writer.cc. */
module LogWriter {
  import opened Bytes
  import opened LogFormat
  import Crc32c

  /** Block offset at which the next header goes: a block never ends in less than a header. */
  function HeaderAt(offset: nat): (r: nat)
    requires offset <= BLOCK_SIZE
    ensures r + HEADER_SIZE <= BLOCK_SIZE
  {
    if BLOCK_SIZE - offset < HEADER_SIZE then 0 else offset
  }

  function Padding(offset: nat): seq<Byte>
    requires offset <= BLOCK_SIZE
  {
    if BLOCK_SIZE - offset < HEADER_SIZE then Zeros(BLOCK_SIZE - offset) else []
  }

  function FragmentLength(offset: nat, left: nat): (n: nat)
    requires offset <= BLOCK_SIZE
    ensures n <= left && HeaderAt(offset) + HEADER_SIZE + n <= BLOCK_SIZE
  {
    var avail := BLOCK_SIZE - HeaderAt(offset) - HEADER_SIZE;
    if left < avail then left else avail
  }

  function TypeFor(begin: bool, end: bool): Byte {
    if begin && end then FULL_TYPE
    else if begin then FIRST_TYPE
    else if end then LAST_TYPE
    else MIDDLE_TYPE
  }

  /** The bytes one logical record, or the rest of one, adds to the file at a block offset. */
  function Emitted(offset: nat, record: seq<Byte>, begin: bool): seq<Byte>
    requires offset <= BLOCK_SIZE
    decreases |record|, if HeaderAt(offset) + HEADER_SIZE == BLOCK_SIZE then 1 else 0
  {
    var n := FragmentLength(offset, |record|);
    var end := n == |record|;
    Padding(offset) + Physical(TypeFor(begin, end), record[..n])
    + if end then [] else Emitted(HeaderAt(offset) + HEADER_SIZE + n, record[n..], false)
  }

  /** Block offset after that record. */
  function OffsetAfter(offset: nat, record: seq<Byte>): (r: nat)
    requires offset <= BLOCK_SIZE
    ensures r <= BLOCK_SIZE
    decreases |record|, if HeaderAt(offset) + HEADER_SIZE == BLOCK_SIZE then 1 else 0
  {
    var n := FragmentLength(offset, |record|);
    var next := HeaderAt(offset) + HEADER_SIZE + n;
    if n == |record| then next else OffsetAfter(next, record[n..])
  }

  class Writer {
    var dest: seq<Byte>
    var blockOffset: nat

    ghost predicate Valid()
      reads this
    {
      blockOffset <= BLOCK_SIZE && |dest| % BLOCK_SIZE == blockOffset % BLOCK_SIZE
    }

    /** A writer continuing a file that already holds `contents`. */
    constructor (contents: seq<Byte>)
      ensures Valid() && dest == contents && blockOffset == |contents| % BLOCK_SIZE
    {
      dest := contents;
      blockOffset := |contents| % BLOCK_SIZE;
    }

    method AddRecord(slice: seq<Byte>)
      requires Valid()
      modifies this
      ensures Valid()
      ensures dest == old(dest) + Emitted(old(blockOffset), slice, true)
      ensures blockOffset == OffsetAfter(old(blockOffset), slice)
    {
      hide Physical, Emitted, OffsetAfter, Zeros, TypeFor;
      var ptr := 0;
      var left := |slice|;
      var begin := true;
      ghost var target := dest + Emitted(blockOffset, slice, true);
      assert slice[0..] == slice;
      while true
        invariant blockOffset <= BLOCK_SIZE && 0 <= ptr && 0 <= left && ptr + left == |slice|
        invariant dest + Emitted(blockOffset, slice[ptr..], begin) == target
        invariant OffsetAfter(blockOffset, slice[ptr..]) == OffsetAfter(old(blockOffset), slice)
        decreases left, if HeaderAt(blockOffset) + HEADER_SIZE == BLOCK_SIZE then 1 else 0
      {
        ghost var start, written, rest := blockOffset, dest, slice[ptr..];
        EmittedUnfold(start, rest, begin);
        var leftover := BLOCK_SIZE - blockOffset;
        if leftover < HEADER_SIZE {
          if leftover > 0 {
            dest := dest + Zeros(leftover);
          }
          blockOffset := 0;
        }
        assert dest == written + Padding(start) && blockOffset == HeaderAt(start);

        var avail := BLOCK_SIZE - blockOffset - HEADER_SIZE;
        var fragmentLength := if left < avail then left else avail;
        var end := left == fragmentLength;
        var recordType := TypeFor(begin, end);
        assert rest[..fragmentLength] == slice[ptr..ptr + fragmentLength];
        EmitPhysicalRecord(recordType, slice[ptr..ptr + fragmentLength]);
        assert dest == written + (Padding(start) + Physical(recordType, rest[..fragmentLength]));
        ptr := ptr + fragmentLength;
        left := left - fragmentLength;
        begin := false;
        assert rest[fragmentLength..] == slice[ptr..];
        if left == 0 { break; }
      }
      assert dest == target;
      EmittedPosition(old(|dest|), old(blockOffset), slice, true);
    }

    method EmitPhysicalRecord(t: Byte, fragment: seq<Byte>)
      requires |fragment| <= 0xffff
      requires blockOffset + HEADER_SIZE + |fragment| <= BLOCK_SIZE
      modifies this
      ensures dest == old(dest) + Physical(t, fragment)
      ensures blockOffset == old(blockOffset) + HEADER_SIZE + |fragment|
    {
      hide Crc32c.Extended, Crc32c.Value, Crc32c.Mask, Crc32c.Fixed32;
      var typeCrc := Crc32c.Value([t]);
      var crc := Crc32c.Extend(typeCrc, fragment, 0);
      ChecksumInPieces(t, fragment);
      var lengthAndType := [(|fragment| % 256) as Byte, (|fragment| / 256) as Byte, t];
      dest := dest + (Crc32c.Fixed32(Crc32c.Mask(crc)) + lengthAndType);
      dest := dest + fragment;
      blockOffset := blockOffset + HEADER_SIZE + |fragment|;
    }
  }

  lemma EmittedUnfold(offset: nat, record: seq<Byte>, begin: bool)
    requires offset <= BLOCK_SIZE
    ensures var n := FragmentLength(offset, |record|);
      var end := n == |record|;
      var next := HeaderAt(offset) + HEADER_SIZE + n;
      var head := Physical(TypeFor(begin, end), record[..n]);
      if end then
        Emitted(offset, record, begin) == Padding(offset) + head && OffsetAfter(offset, record) == next
      else
        && Emitted(offset, record, begin) == Padding(offset) + head + Emitted(next, record[n..], false)
        && OffsetAfter(offset, record) == OffsetAfter(next, record[n..])
  {
    hide Physical, Zeros;
    var n := FragmentLength(offset, |record|);
    var head := Physical(TypeFor(begin, n == |record|), record[..n]);
    assert Padding(offset) + head + [] == Padding(offset) + head;
  }

  /** The file length and the block offset move together. */
  lemma BlockPosition(size: nat, offset: nat, n: nat)
    requires offset <= BLOCK_SIZE && size % BLOCK_SIZE == offset % BLOCK_SIZE
    ensures (size + |Padding(offset)| + HEADER_SIZE + n) % BLOCK_SIZE == (HeaderAt(offset) + HEADER_SIZE + n) % BLOCK_SIZE
  {}

  lemma {:induction false} EmittedPosition(size: nat, offset: nat, record: seq<Byte>, begin: bool)
    requires offset <= BLOCK_SIZE && size % BLOCK_SIZE == offset % BLOCK_SIZE
    ensures (size + |Emitted(offset, record, begin)|) % BLOCK_SIZE == OffsetAfter(offset, record) % BLOCK_SIZE
    decreases |record|, if HeaderAt(offset) + HEADER_SIZE == BLOCK_SIZE then 1 else 0
  {
    hide Physical, Emitted, OffsetAfter;
    EmittedUnfold(offset, record, begin);
    var n := FragmentLength(offset, |record|);
    BlockPosition(size, offset, n);
    if n != |record| {
      var next := HeaderAt(offset) + HEADER_SIZE + n;
      EmittedPosition(size + |Padding(offset)| + HEADER_SIZE + n, next, record[n..], false);
    }
  }

  /** The writer extends a per-type checksum; the reader checks type and payload at once. */
  lemma ChecksumInPieces(t: Byte, fragment: seq<Byte>)
    ensures Crc32c.Extended(Crc32c.Value([t]), fragment) == Crc32c.Value([t] + fragment)
  {
    Crc32c.ExtendedAppend(0, [t], fragment);
    hide Crc32c.Extended;
  }
}

/** db/log_reader.cc with a checking reader that starts at offset 0. */
module LogReader {
  import opened Bytes
  import opened LogFormat

  // Result kinds of ReadPhysicalRecord beyond the on-disk types.
  const EOF: Byte := 5
  const BAD_RECORD: Byte := 6

  /** One physical read: its kind, its fragment, the position after it, the bytes reported dropped. */
  datatype Physical = Physical(kind: Byte, fragment: seq<Byte>, next: nat, drops: seq<nat>)

  datatype Logical = Record(record: seq<Byte>, next: nat, drops: seq<nat>) | End(next: nat, drops: seq<nat>)

  function BlockEnd(p: nat): (e: nat)
    ensures p < e <= p + BLOCK_SIZE && e % BLOCK_SIZE == 0 && e == p - p % BLOCK_SIZE + BLOCK_SIZE
  {
    (p / BLOCK_SIZE + 1) * BLOCK_SIZE
  }

  /** End of the bytes a block read would make available at `p`. */
  function BufferEnd(file: seq<Byte>, p: nat): (e: nat)
    requires p <= |file|
    ensures p <= e <= |file|
  {
    if BlockEnd(p) <= |file| then BlockEnd(p) else |file|
  }

  /** What ReadPhysicalRecord means at position `p` of the file. */
  function PhysicalAt(file: seq<Byte>, p: nat): (r: Physical)
    requires p <= |file|
    ensures r.next <= |file|
    ensures r.kind == EOF || p < r.next
    decreases |file| - p
  {
    var end := BufferEnd(file, p);
    var lastBlock := |file| < BlockEnd(p);
    if end - p < HEADER_SIZE then
      if lastBlock then Physical(EOF, [], |file|, []) else PhysicalAt(file, end)
    else
      Parsed(file[p..end], p, lastBlock)
  }

  /** A buffer with room for a header, ending where the block or the file does. */
  function Parsed(buffer: seq<Byte>, p: nat, lastBlock: bool): (r: Physical)
    requires |buffer| >= HEADER_SIZE
    ensures p < r.next <= p + |buffer|
  {
    var length := Length(buffer);
    var end := p + |buffer|;
    if HEADER_SIZE + length > |buffer| then
      if lastBlock then Physical(EOF, [], end, []) else Physical(BAD_RECORD, [], end, [|buffer|])
    else if buffer[6] == ZERO_TYPE && length == 0 then
      Physical(BAD_RECORD, [], end, [])
    else if !ChecksumOk(buffer, length) then
      Physical(BAD_RECORD, [], end, [|buffer|])
    else
      Physical(buffer[6], buffer[HEADER_SIZE..HEADER_SIZE + length], p + HEADER_SIZE + length, [])
  }

  lemma SameBlock(p: nat, q: nat)
    requires p <= q < BlockEnd(p)
    ensures BlockEnd(q) == BlockEnd(p)
  {}

  /** One turn of ReadRecord's loop. */
  datatype Turn =
    | Return(record: seq<Byte>, drops: seq<nat>)
    | Stop(drops: seq<nat>)
    | Continue(inFragmented: bool, scratch: seq<Byte>, drops: seq<nat>)

  function TurnOn(f: Physical, inFragmented: bool, scratch: seq<Byte>): (r: Turn)
    ensures r.Stop? <==> f.kind == EOF
  {
    var size := if inFragmented then |scratch| else 0;
    var cut := if size > 0 then [size] else [];
    if f.kind == FULL_TYPE then Return(f.fragment, cut)
    else if f.kind == FIRST_TYPE then Continue(true, f.fragment, cut)
    else if f.kind == MIDDLE_TYPE then
      if inFragmented then Continue(true, scratch + f.fragment, []) else Continue(false, scratch, [|f.fragment|])
    else if f.kind == LAST_TYPE then
      if inFragmented then Return(scratch + f.fragment, []) else Continue(false, scratch, [|f.fragment|])
    else if f.kind == EOF then Stop([])
    else if f.kind == BAD_RECORD then
      if inFragmented then Continue(false, [], [size]) else Continue(false, scratch, [])
    else Continue(false, [], [|f.fragment| + size])
  }

  /** What ReadRecord means at position `p`, with `scratch` gathered so far. */
  function LogicalAt(file: seq<Byte>, p: nat, inFragmented: bool, scratch: seq<Byte>): (r: Logical)
    requires p <= |file|
    ensures r.next <= |file|
    ensures r.Record? ==> p < r.next
    decreases |file| - p
  {
    var f := PhysicalAt(file, p);
    match TurnOn(f, inFragmented, scratch)
    case Return(record, drops) => Record(record, f.next, f.drops + drops)
    case Stop(drops) => End(f.next, f.drops + drops)
    case Continue(more, kept, drops) =>
      var rest := LogicalAt(file, f.next, more, kept);
      rest.(drops := f.drops + drops + rest.drops)
  }

  class Reader {
    const file: seq<Byte>
    var filePosition: nat
    var buffer: seq<Byte>
    var eof: bool
    var drops: seq<nat>

    constructor (contents: seq<Byte>)
      ensures file == contents && Valid() && Position() == 0 && drops == []
    {
      file := contents;
      filePosition := 0;
      buffer := [];
      eof := false;
      drops := [];
    }

    /** The buffer is what is left of the block read last. */
    ghost predicate Valid()
      reads this
      ensures Valid() ==> |buffer| <= filePosition <= |file|
    {
      && |buffer| <= filePosition <= |file|
      && buffer == file[filePosition - |buffer|..filePosition]
      && (if eof then filePosition == |file| else filePosition % BLOCK_SIZE == 0)
      && (eof ==> |file| < BlockEnd(Position()))
      && (buffer != [] ==> filePosition == BufferEnd(file, Position()) && (eof <==> |file| < BlockEnd(Position())))
    }

    ghost function Position(): nat
      requires |buffer| <= filePosition
      reads this
    {
      filePosition - |buffer|
    }

    method ReportCorruption(bytes: nat)
      requires Valid()
      modifies this`drops
      ensures Valid() && drops == old(drops) + [bytes]
    {
      drops := drops + [bytes];
    }

    /** Slice::clear on the buffer. */
    method Clear()
      requires Valid()
      modifies this`buffer
      ensures Valid() && buffer == [] && Position() == filePosition
    {
      buffer := [];
    }

    /** Slice::remove_prefix on the buffer. */
    method RemovePrefix(n: nat)
      requires Valid() && n <= |buffer|
      modifies this`buffer
      ensures Valid() && buffer == old(buffer)[n..] && Position() == old(Position()) + n
    {
      if n < |buffer| {
        SameBlock(Position(), Position() + n);
      }
      buffer := buffer[n..];
    }

    /** SequentialFile::Read of one block. */
    method ReadBlock()
      requires Valid() && !eof && |buffer| < HEADER_SIZE
      modifies this
      ensures Valid() && drops == old(drops)
      ensures Position() == old(filePosition) && filePosition == BufferEnd(file, old(filePosition))
      ensures eof <==> |file| < BlockEnd(old(filePosition))
    {
      var end := if filePosition + BLOCK_SIZE <= |file| then filePosition + BLOCK_SIZE else |file|;
      buffer := file[filePosition..end];
      filePosition := end;
      if |buffer| < BLOCK_SIZE {
        eof := true;
      }
    }

    /** The part of ReadPhysicalRecord's loop that skips trailers and reads blocks. */
    method FillBuffer() returns (more: bool)
      requires Valid()
      modifies this
      ensures Valid() && drops == old(drops)
      ensures var f := PhysicalAt(file, old(Position()));
        if more then |buffer| >= HEADER_SIZE && f == Parsed(buffer, Position(), eof)
        else f == Physical(EOF, [], Position(), [])
    {
      hide Parsed;
      while |buffer| < HEADER_SIZE
        invariant Valid() && drops == old(drops)
        invariant PhysicalAt(file, old(Position())) == PhysicalAt(file, Position())
        decreases !eof, |file| - filePosition
      {
        if !eof {
          ReadBlock();
        } else {
          buffer := [];
          return false;
        }
      }
      return true;
    }

    /** The part of ReadPhysicalRecord's loop that checks one header and its payload. */
    method ParseBuffer() returns (kind: Byte, fragment: seq<Byte>)
      requires Valid() && |buffer| >= HEADER_SIZE
      modifies this
      ensures Valid()
      ensures Physical(kind, fragment, Position(), drops)
        == var f := Parsed(old(buffer), old(Position()), old(eof)); f.(drops := old(drops) + f.drops)
    {
      hide ChecksumOk, Length, BlockEnd, BufferEnd, Reader.Valid;
      var header := buffer;
      var length := Length(header);
      if HEADER_SIZE + length > |buffer| {
        var dropSize := |buffer|;
        Clear();
        if !eof {
          ReportCorruption(dropSize);
          return BAD_RECORD, [];
        }
        return EOF, [];
      }
      if header[6] == ZERO_TYPE && length == 0 {
        Clear();
        return BAD_RECORD, [];
      }
      if !ChecksumOk(header, length) {
        var dropSize := |buffer|;
        Clear();
        ReportCorruption(dropSize);
        return BAD_RECORD, [];
      }
      RemovePrefix(HEADER_SIZE + length);
      return header[6], header[HEADER_SIZE..HEADER_SIZE + length];
    }

    method ReadPhysicalRecord() returns (kind: Byte, fragment: seq<Byte>)
      requires Valid()
      modifies this
      ensures Valid()
      ensures var f := PhysicalAt(file, old(Position()));
        kind == f.kind && fragment == f.fragment && Position() == f.next && drops == old(drops) + f.drops
    {
      hide PhysicalAt, Parsed, Reader.Valid;
      var more := FillBuffer();
      if !more {
        return EOF, [];
      }
      kind, fragment := ParseBuffer();
    }

    method ReadRecord() returns (ok: bool, record: seq<Byte>)
      requires Valid()
      modifies this
      ensures Valid()
      ensures var r := LogicalAt(file, old(Position()), false, []);
        && ok == r.Record? && (ok ==> record == r.record)
        && Position() == r.next && drops == old(drops) + r.drops
    {
      hide PhysicalAt, BlockEnd, BufferEnd, LogicalAt, Reader.Valid;
      record := [];
      var scratch: seq<Byte> := [];
      var inFragmented := false;
      ghost var target := LogicalAt(file, Position(), false, []);
      while true
        invariant Valid() && (!inFragmented ==> scratch == [])
        invariant Onward(LogicalAt(file, Position(), inFragmented, scratch), drops, target, old(drops))
        decreases |file| - Position()
      {
        LogicalUnfold(file, Position(), inFragmented, scratch);
        ghost var f, before := PhysicalAt(file, Position()), drops;
        ghost var turn := TurnOn(f, inFragmented, scratch);
        var kind, fragment := ReadPhysicalRecord();
        if kind == FULL_TYPE {
          if inFragmented && scratch != [] {
            ReportCorruption(|scratch|);
          }
          return true, fragment;
        } else if kind == FIRST_TYPE {
          if inFragmented && scratch != [] {
            ReportCorruption(|scratch|);
          }
          scratch, inFragmented := fragment, true;
        } else if kind == MIDDLE_TYPE {
          if !inFragmented {
            ReportCorruption(|fragment|);
          } else {
            scratch := scratch + fragment;
          }
        } else if kind == LAST_TYPE {
          if !inFragmented {
            ReportCorruption(|fragment|);
          } else {
            return true, scratch + fragment;
          }
        } else if kind == EOF {
          return false, [];
        } else if kind == BAD_RECORD {
          if inFragmented {
            ReportCorruption(|scratch|);
            inFragmented, scratch := false, [];
          }
        } else {
          ReportCorruption(|fragment| + if inFragmented then |scratch| else 0);
          inFragmented, scratch := false, [];
        }
        assert turn == Continue(inFragmented, scratch, turn.drops) && drops == before + f.drops + turn.drops;
        OnwardStep(LogicalAt(file, f.next, inFragmented, scratch), before, f.drops, turn.drops, target, old(drops));
      }
    }
  }

  /** Reading on from here gives `target` once the reports so far are counted. */
  ghost predicate Onward(r: Logical, drops: seq<nat>, target: Logical, before: seq<nat>) {
    r.(drops := target.drops) == target && drops + r.drops == before + target.drops
  }

  lemma OnwardStep(rest: Logical, drops: seq<nat>, d1: seq<nat>, d2: seq<nat>, target: Logical, before: seq<nat>)
    requires Onward(rest.(drops := d1 + d2 + rest.drops), drops, target, before)
    ensures Onward(rest, drops + d1 + d2, target, before)
  {
    assert drops + (d1 + d2 + rest.drops) == drops + d1 + d2 + rest.drops;
  }

  lemma LogicalUnfold(file: seq<Byte>, p: nat, inFragmented: bool, scratch: seq<Byte>)
    requires p <= |file|
    ensures var f := PhysicalAt(file, p);
      var r := LogicalAt(file, p, inFragmented, scratch);
      match TurnOn(f, inFragmented, scratch)
      case Return(record, drops) => r == Record(record, f.next, f.drops + drops)
      case Stop(drops) => r == End(f.next, f.drops + drops)
      case Continue(more, kept, drops) =>
        var rest := LogicalAt(file, f.next, more, kept);
        r == rest.(drops := f.drops + drops + rest.drops)
  {}
}

/** What the reader makes of the writer's files, whole or cut short. */
module LogRoundTrip {
  import opened Bytes
  import opened LogFormat
  import opened LogWriter
  import opened LogReader

  /** The bytes of a list of records written from a block offset on. */
  function FileOf(offset: nat, records: seq<seq<Byte>>): seq<Byte>
    requires offset <= BLOCK_SIZE
    decreases |records|
  {
    if records == [] then []
    else Emitted(offset, records[0], true) + FileOf(OffsetAfter(offset, records[0]), records[1..])
  }

  datatype Scan = Scan(records: seq<seq<Byte>>, drops: seq<nat>)

  /** Every record ReadRecord returns before it first fails, and every report it makes. */
  function ScanAt(file: seq<Byte>, p: nat): Scan
    requires p <= |file|
    decreases |file| - p
  {
    match LogicalAt(file, p, false, [])
    case End(next, drops) => Scan([], drops)
    case Record(record, next, drops) =>
      var rest := ScanAt(file, next);
      Scan([record] + rest.records, drops + rest.drops)
  }

  /** How many of `records` fit entirely into the first `n` bytes. */
  function Complete(n: nat, offset: nat, records: seq<seq<Byte>>): (k: nat)
    requires offset <= BLOCK_SIZE
    ensures k <= |records|
    decreases |records|
  {
    if records == [] || n < |Emitted(offset, records[0], true)| then 0
    else 1 + Complete(n - |Emitted(offset, records[0], true)|, OffsetAfter(offset, records[0]), records[1..])
  }

  /** From `p` on the file agrees with `data`, as far as both go. */
  ghost predicate Starts(file: seq<Byte>, p: nat, data: seq<Byte>) {
    p <= |file| && if p + |data| <= |file| then file[p..p + |data|] == data else file[p..] == data[..|file| - p]
  }

  lemma StartsFirst(file: seq<Byte>, p: nat, a: seq<Byte>, b: seq<Byte>)
    requires Starts(file, p, a + b)
    ensures Starts(file, p, a)
    ensures p + |a| <= |file| ==> Starts(file, p + |a|, b)
  {
    if p + |a| + |b| <= |file| {
      assert file[p..p + |a|] == file[p..p + |a + b|][..|a|];
      assert file[p + |a|..p + |a| + |b|] == file[p..p + |a + b|][|a|..];
    } else if p + |a| <= |file| {
      assert file[p..p + |a|] == file[p..][..|a|];
      assert file[p + |a|..] == file[p..][|a|..];
    } else {
      assert file[p..] == a[..|file| - p];
    }
  }

  /** A fragment the writer put at `p` is read back, or the file ends inside it. */
  lemma PhysicalReads(file: seq<Byte>, p: nat, offset: nat, t: Byte, fragment: seq<Byte>)
    requires offset <= BLOCK_SIZE && p % BLOCK_SIZE == offset % BLOCK_SIZE
    requires HeaderAt(offset) + HEADER_SIZE + |fragment| <= BLOCK_SIZE
    requires t != ZERO_TYPE
    requires Starts(file, p, Padding(offset) + LogFormat.Physical(t, fragment))
    ensures var size := |Padding(offset)| + HEADER_SIZE + |fragment|;
      PhysicalAt(file, p)
        == if p + size <= |file| then LogReader.Physical(t, fragment, p + size, [])
           else LogReader.Physical(EOF, [], |file|, [])
  {
    hide LogFormat.Physical, ChecksumOk, Length, Zeros, Parsed;
    var head := LogFormat.Physical(t, fragment);
    StartsFirst(file, p, Padding(offset), head);
    var q := p + |Padding(offset)|;
    if q <= |file| {
      PastPadding(file, p, offset);
      if |file| - q >= HEADER_SIZE {
        HeaderReads(file, q, t, fragment);
      }
    }
  }

  /** A trailer too short for a header is skipped. */
  lemma PastPadding(file: seq<Byte>, p: nat, offset: nat)
    requires offset <= BLOCK_SIZE && p % BLOCK_SIZE == offset % BLOCK_SIZE
    requires p + |Padding(offset)| <= |file|
    ensures var q := p + |Padding(offset)|;
      PhysicalAt(file, p) == PhysicalAt(file, q) && BlockEnd(q) == q + BLOCK_SIZE - HeaderAt(offset)
  {
    hide Parsed, BlockEnd;
    var q := p + |Padding(offset)|;
    if HeaderAt(offset) == offset {
      assert q == p;
    } else if offset == BLOCK_SIZE {
      assert q == p;
    } else {
      assert q == BlockEnd(p);
      assert BufferEnd(file, p) == q && q - p < HEADER_SIZE;
    }
  }

  lemma HeaderReads(file: seq<Byte>, q: nat, t: Byte, fragment: seq<Byte>)
    requires |fragment| <= 0xffff && t != ZERO_TYPE
    requires q + HEADER_SIZE <= |file| && q + HEADER_SIZE + |fragment| <= BlockEnd(q)
    requires Starts(file, q, LogFormat.Physical(t, fragment))
    ensures var end := q + HEADER_SIZE + |fragment|;
      PhysicalAt(file, q)
        == if end <= |file| then LogReader.Physical(t, fragment, end, []) else LogReader.Physical(EOF, [], |file|, [])
  {
    hide LogFormat.Physical, ChecksumOk;
    var head := LogFormat.Physical(t, fragment);
    var end := BufferEnd(file, q);
    var buffer := file[q..end];
    if q + |head| <= |file| {
      assert buffer == head + buffer[|head|..];
      PhysicalParses(t, fragment, buffer[|head|..]);
    } else {
      assert buffer == head[..|file| - q];
      PhysicalParses(t, fragment, []);
      assert head + [] == head;
      assert buffer[4] == head[4] && buffer[5] == head[5];
    }
  }

  /** One turn over a fragment the writer put at `p`. */
  lemma TurnReads(
      file: seq<Byte>, p: nat, offset: nat, begin: bool, end: bool, fragment: seq<Byte>, scratch: seq<Byte>)
    requires offset <= BLOCK_SIZE && p % BLOCK_SIZE == offset % BLOCK_SIZE
    requires HeaderAt(offset) + HEADER_SIZE + |fragment| <= BLOCK_SIZE
    requires begin ==> scratch == []
    requires p <= |file| && Starts(file, p, Padding(offset) + LogFormat.Physical(TypeFor(begin, end), fragment))
    ensures var q := p + |Padding(offset)| + HEADER_SIZE + |fragment|;
      LogicalAt(file, p, !begin, scratch)
        == if |file| < q then End(|file|, [])
           else if end then Record(scratch + fragment, q, [])
           else LogicalAt(file, q, true, scratch + fragment)
  {
    hide LogFormat.Physical, LogicalAt, PhysicalAt, Padding, Starts;
    var t := TypeFor(begin, end);
    PhysicalReads(file, p, offset, t, fragment);
    LogicalUnfold(file, p, !begin, scratch);
    var q := p + |Padding(offset)| + HEADER_SIZE + |fragment|;
    if |file| < q {
      NoDrops([]);
    } else {
      assert begin ==> scratch + fragment == fragment;
      var f := LogReader.Physical(t, fragment, q, []);
      assert TurnOn(f, !begin, scratch)
        == if end then Return(scratch + fragment, []) else Continue(true, scratch + fragment, []);
      NoDrops(LogicalAt(file, q, true, scratch + fragment).drops);
      NoDrops([]);
    }
  }

  lemma NoDrops(drops: seq<nat>)
    ensures [] + [] + drops == drops
    ensures [] + drops == drops
  {}

  /** One logical record, or the rest of one: returned whole, or the file ends inside it and nothing is reported. */
  lemma {:induction false} EmittedReads(
      file: seq<Byte>, p: nat, offset: nat, record: seq<Byte>, begin: bool, scratch: seq<Byte>)
    requires offset <= BLOCK_SIZE && p % BLOCK_SIZE == offset % BLOCK_SIZE
    requires begin ==> scratch == []
    requires Starts(file, p, Emitted(offset, record, begin))
    ensures var size := |Emitted(offset, record, begin)|;
      var r := LogicalAt(file, p, !begin, scratch);
      if p + size <= |file| then r == Record(scratch + record, p + size, []) else r == End(|file|, [])
    decreases |record|, if HeaderAt(offset) + HEADER_SIZE == BLOCK_SIZE then 1 else 0
  {
    hide LogFormat.Physical, Emitted, OffsetAfter, LogicalAt, Padding, TypeFor;
    var n := FragmentLength(offset, |record|);
    var end := n == |record|;
    var next := HeaderAt(offset) + HEADER_SIZE + n;
    var head := LogFormat.Physical(TypeFor(begin, end), record[..n]);
    EmittedUnfold(offset, record, begin);
    if end {
      assert record[..n] == record;
    } else {
      StartsFirst(file, p, Padding(offset) + head, Emitted(next, record[n..], false));
    }
    TurnReads(file, p, offset, begin, end, record[..n], scratch);
    var q := p + |Padding(offset)| + HEADER_SIZE + n;
    if q <= |file| && !end {
      BlockPosition(p, offset, n);
      EmittedReads(file, q, next, record[n..], false, scratch + record[..n]);
      assert scratch + record[..n] + record[n..] == scratch + record;
    }
  }

  lemma ReadNothing(file: seq<Byte>)
    ensures LogicalAt(file, |file|, false, []) == End(|file|, [])
  {}

  lemma {:induction false} FileScans(file: seq<Byte>, p: nat, offset: nat, records: seq<seq<Byte>>)
    requires offset <= BLOCK_SIZE && p % BLOCK_SIZE == offset % BLOCK_SIZE
    requires Starts(file, p, FileOf(offset, records)) && |file| <= p + |FileOf(offset, records)|
    ensures ScanAt(file, p) == Scan(records[..Complete(|file| - p, offset, records)], [])
    decreases |records|
  {
    hide Emitted, OffsetAfter, LogicalAt;
    if records == [] {
      ReadNothing(file);
    } else {
      var first := Emitted(offset, records[0], true);
      var next := OffsetAfter(offset, records[0]);
      StartsFirst(file, p, first, FileOf(next, records[1..]));
      EmittedReads(file, p, offset, records[0], true, []);
      if p + |first| <= |file| {
        EmittedPosition(p, offset, records[0], true);
        FileScans(file, p + |first|, next, records[1..]);
        var k := Complete(|file| - p, offset, records);
        assert records[..k] == [records[0]] + records[1..][..k - 1];
        var rest := ScanAt(file, p + |first|);
        assert [] + rest.drops == [];
        assert [] + records[0] == records[0];
      }
    }
  }

  /** Every list of records, empty and many-block ones included, is read back exactly. */
  lemma RoundTrip(records: seq<seq<Byte>>)
    ensures ScanAt(FileOf(0, records), 0) == Scan(records, [])
  {
    hide ScanAt, FileOf, Complete;
    var file := FileOf(0, records);
    assert file[0..0 + |file|] == file;
    FileScans(file, 0, 0, records);
    AllComplete(0, records);
  }

  lemma {:induction false} AllComplete(offset: nat, records: seq<seq<Byte>>)
    requires offset <= BLOCK_SIZE
    ensures Complete(|FileOf(offset, records)|, offset, records) == |records|
    decreases |records|
  {
    hide Emitted, OffsetAfter;
    if records != [] {
      AllComplete(OffsetAfter(offset, records[0]), records[1..]);
    }
  }

  /** A file cut after any byte yields exactly the records that are whole, and no corruption report. */
  lemma TornTail(records: seq<seq<Byte>>, n: nat)
    requires n <= |FileOf(0, records)|
    ensures ScanAt(FileOf(0, records)[..n], 0) == Scan(records[..Complete(n, 0, records)], [])
  {
    hide ScanAt, FileOf, Complete;
    var file := FileOf(0, records)[..n];
    assert file[0..] == file;
    FileScans(file, 0, 0, records);
  }

  /** `Complete` is the largest number of records whose bytes all survive. */
  lemma {:induction false} CompleteIsLargest(n: nat, offset: nat, records: seq<seq<Byte>>)
    requires offset <= BLOCK_SIZE
    ensures var k := Complete(n, offset, records);
      && |FileOf(offset, records[..k])| <= n
      && (k < |records| ==> n < |FileOf(offset, records[..k + 1])|)
    decreases |records|
  {
    hide Emitted, OffsetAfter;
    var k := Complete(n, offset, records);
    if k > 0 {
      var rest, next := records[1..], OffsetAfter(offset, records[0]);
      CompleteIsLargest(n - |Emitted(offset, records[0], true)|, next, rest);
      assert records[..k][1..] == rest[..k - 1];
      if k < |records| {
        assert records[..k + 1][1..] == rest[..k];
      }
    } else if records != [] {
      assert records[..1][1..] == [];
      assert FileOf(offset, records[..1]) == Emitted(offset, records[0], true) + [];
    }
  }

  /** A writer's file after a list of records. */
  method WriteAll(records: seq<seq<Byte>>) returns (file: seq<Byte>)
    ensures file == FileOf(0, records)
  {
    hide Emitted, OffsetAfter;
    var w := new Writer([]);
    for i := 0 to |records|
      invariant w.Valid() && fresh(w)
      invariant w.dest + FileOf(w.blockOffset, records[i..]) == FileOf(0, records)
    {
      ghost var before := w.dest;
      assert records[i..][1..] == records[i + 1..];
      w.AddRecord(records[i]);
    }
    file := w.dest;
    assert file + [] == file;
  }

  /** A recovery loop over a log: every record up to the first failed read. */
  method ReadAll(file: seq<Byte>) returns (records: seq<seq<Byte>>, drops: seq<nat>)
    ensures Scan(records, drops) == ScanAt(file, 0)
  {
    hide LogicalAt;
    var r := new Reader(file);
    records := [];
    ghost var target := ScanAt(file, 0);
    while true
      invariant r.Valid() && fresh(r) && r.file == file
      invariant var rest := ScanAt(file, r.Position());
        records + rest.records == target.records && r.drops + rest.drops == target.drops
      decreases |file| - r.Position()
    {
      var ok, record := r.ReadRecord();
      if !ok {
        assert records + [] == records;
        return records, r.drops;
      }
      records := records + [record];
    }
  }
}
