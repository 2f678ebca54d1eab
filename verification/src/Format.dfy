/** table/format.cc: where the blocks of a table file are, and how one is read back. */
module TableFormat {
  import opened Bytes
  import opened Coding
  import Crc32c
  import LogFormat

  datatype Handle = Handle(offset: nat, size: nat) {
    predicate Fits() { offset < TWO_64 && size < TWO_64 }

    function Encoded(): seq<Byte> { Varint(offset) + Varint(size) }
  }

  function DecodedHandle(input: seq<Byte>): Parsed<Handle> {
    match GetVarint(input, 64)
    case Fail => Fail
    case Got(offset, rest) =>
      match GetVarint(rest, 64)
      case Fail => Fail
      case Got(size, rest) => Got(Handle(offset, size), rest)
  }

  lemma HandleBack(h: Handle, rest: seq<Byte>)
    requires h.Fits()
    ensures DecodedHandle(h.Encoded() + rest) == Got(h, rest)
  {
    Pow64();
    hide Varint, GetVarint, Pow;
    VarintBack(h.offset, 64, Varint(h.size) + rest);
    VarintBack(h.size, 64, rest);
    assert h.Encoded() + rest == Varint(h.offset) + (Varint(h.size) + rest);
  }

  lemma {:induction false} VarintLength(v: nat, n: nat)
    requires v < Pow(B, n) && n > 0
    ensures 1 <= |Varint(v)| <= n
  {
    if v >= B {
      assert Pow(B, 1) == B;
      VarintLength(v / B, n - 1);
    }
  }

  const MAX_HANDLE: nat := 20

  lemma HandleLength(h: Handle)
    requires h.Fits()
    ensures |h.Encoded()| <= MAX_HANDLE
  {
    assert Pow(B, 10) > TWO_64 by {
      assert Pow(B, 5) == 0x8_0000_0000;
      assert Pow(B, 10) == B * (B * (B * (B * (B * Pow(B, 5)))));
    }
    VarintLength(h.offset, 10);
    VarintLength(h.size, 10);
  }

  // ------------------------------------------------------------------- footer

  const FOOTER_LENGTH: nat := 48
  const MAGIC: nat := 0xdb4775248b80fb57

  function Footer(metaindex: Handle, index: Handle): seq<Byte> {
    var handles := metaindex.Encoded() + index.Encoded();
    var padding := if |handles| <= 2 * MAX_HANDLE then Zeros(2 * MAX_HANDLE - |handles|) else [];
    handles + padding + Fixed(MAGIC % TWO_32, 4) + Fixed(MAGIC / TWO_32, 4)
  }

  datatype Handles = NotATable | Handles(metaindex: Handle, index: Handle)

  function DecodedFooter(input: seq<Byte>): Handles
    requires |input| == FOOTER_LENGTH
  {
    var magic := FixedValue(input[40..44]) + TWO_32 * FixedValue(input[44..]);
    if magic != MAGIC then NotATable
    else
      match DecodedHandle(input)
      case Fail => NotATable
      case Got(metaindex, rest) =>
        match DecodedHandle(rest)
        case Fail => NotATable
        case Got(index, _) => Handles(metaindex, index)
  }

  lemma FooterBack(metaindex: Handle, index: Handle)
    requires metaindex.Fits() && index.Fits()
    ensures |Footer(metaindex, index)| == FOOTER_LENGTH
    ensures DecodedFooter(Footer(metaindex, index)) == Handles(metaindex, index)
  {
    HandleLength(metaindex);
    HandleLength(index);
    MagicBack();
    hide Handle.Encoded, Fixed, FixedValue, DecodedHandle;
    var a, b := metaindex.Encoded(), index.Encoded();
    var padding := Zeros(2 * MAX_HANDLE - |a + b|);
    var lo, hi := Fixed(MAGIC % TWO_32, 4), Fixed(MAGIC / TWO_32, 4);
    FooterParts(a, b, padding, lo, hi);
    HandleBack(metaindex, b + (padding + lo + hi));
    HandleBack(index, padding + lo + hi);
  }

  lemma MagicBack()
    ensures FixedValue(Fixed(MAGIC % TWO_32, 4)) == MAGIC % TWO_32
    ensures FixedValue(Fixed(MAGIC / TWO_32, 4)) == MAGIC / TWO_32
  {
    assert Pow(256, 4) == TWO_32;
    FixedBack(MAGIC % TWO_32, 4);
    FixedBack(MAGIC / TWO_32, 4);
  }

  lemma FooterParts(a: seq<Byte>, b: seq<Byte>, padding: seq<Byte>, lo: seq<Byte>, hi: seq<Byte>)
    requires |a| + |b| + |padding| == 40 && |lo| == 4 && |hi| == 4
    ensures var footer := a + b + padding + lo + hi;
      footer[40..44] == lo && footer[44..] == hi && footer == a + (b + (padding + lo + hi))
  {}

  // ------------------------------------------------------------------- blocks

  const TRAILER_SIZE: nat := 5
  const NO_COMPRESSION: Byte := 0
  const SNAPPY: Byte := 1

  /** A block as it is stored: uncompressed, with its type and masked checksum. */
  function Stored(contents: seq<Byte>): (s: seq<Byte>)
    ensures |s| == |contents| + TRAILER_SIZE && s[..|contents|] == contents
  {
    contents + [NO_COMPRESSION] + Crc32c.Fixed32(Crc32c.Mask(Crc32c.Value(contents + [NO_COMPRESSION])))
  }

  datatype BlockStatus = Ok(contents: seq<Byte>) | Truncated | ChecksumMismatch | Compressed | BadType

  /** ReadBlock; what a compressed block holds is not known here. */
  function ReadBlock(file: seq<Byte>, verifyChecksums: bool, handle: Handle): BlockStatus {
    var n := handle.size;
    if handle.offset + n + TRAILER_SIZE > |file| then Truncated
    else
      var data := file[handle.offset..handle.offset + n + TRAILER_SIZE];
      if verifyChecksums && Crc32c.Value(data[..n + 1]) != Crc32c.Unmask(Crc32c.ReadUint32LE(data, n + 1)) then
        ChecksumMismatch
      else if data[n] == NO_COMPRESSION then Ok(data[..n])
      else if data[n] == SNAPPY then Compressed
      else BadType
  }

  /** A stored block is in the file where its handle says. */
  ghost predicate StoredAt(file: seq<Byte>, handle: Handle, contents: seq<Byte>) {
    && handle.size == |contents| && handle.offset + |contents| + TRAILER_SIZE <= |file|
    && file[handle.offset..handle.offset + |contents| + TRAILER_SIZE] == Stored(contents)
  }

  /** What was stored is read back, checksum and all. */
  lemma ReadBlockBack(file: seq<Byte>, verifyChecksums: bool, handle: Handle, contents: seq<Byte>)
    requires StoredAt(file, handle, contents)
    ensures ReadBlock(file, verifyChecksums, handle) == Ok(contents)
  {
    hide Crc32c.Fixed32, Crc32c.Mask, Crc32c.Unmask, Crc32c.Value, Crc32c.ReadUint32LE;
    var data, n := Stored(contents), |contents|;
    assert data[..n + 1] == contents + [NO_COMPRESSION];
    assert data[n + 1..][..4] == data[n + 1..];
    ChecksumAfter(data, n + 1);
  }

  lemma ChecksumAfter(data: seq<Byte>, p: nat)
    requires p + 4 <= |data|
    ensures Crc32c.Value(data[..p]) == Crc32c.Unmask(Crc32c.ReadUint32LE(data, p))
      <==> data[p..][..4] == Crc32c.Fixed32(Crc32c.Mask(Crc32c.Value(data[..p])))
  {
    hide Crc32c.Fixed32, Crc32c.Mask, Crc32c.Unmask, Crc32c.Value;
    var word := data[p..];
    assert word[0] == data[p] && word[1] == data[p + 1] && word[2] == data[p + 2] && word[3] == data[p + 3];
    Crc32c.StoredChecksum(word, Crc32c.Value(data[..p]));
  }

  lemma AllThere(data: seq<Byte>, n: nat)
    requires |data| == n + TRAILER_SIZE && data[n] == NO_COMPRESSION
    requires Crc32c.Value(data[..n + 1]) == Crc32c.Unmask(Crc32c.ReadUint32LE(data, n + 1))
    ensures data == Stored(data[..n])
  {
    hide Crc32c.Fixed32, Crc32c.Mask, Crc32c.Unmask, Crc32c.Value, Crc32c.ReadUint32LE;
    ChecksumAfter(data, n + 1);
    assert data[..n + 1] == data[..n] + [NO_COMPRESSION];
    assert data[n + 1..][..4] == data[n + 1..];
    assert data[..n + 1] + data[n + 1..] == data;
  }

  /** With checksums verified, what is read is what was stored: the contents, their type and their checksum. */
  lemma ReadIsStored(file: seq<Byte>, handle: Handle)
    ensures ReadBlock(file, true, handle).Ok? <==> exists contents :: StoredAt(file, handle, contents)
    ensures ReadBlock(file, true, handle).Ok? ==> StoredAt(file, handle, ReadBlock(file, true, handle).contents)
  {
    hide Crc32c.Fixed32, Crc32c.Mask, Crc32c.Unmask, Crc32c.Value, Crc32c.ReadUint32LE, Stored;
    if ReadBlock(file, true, handle).Ok? {
      var n := handle.size;
      var data := file[handle.offset..handle.offset + n + TRAILER_SIZE];
      AllThere(data, n);
      assert StoredAt(file, handle, data[..n]);
    } else {
      hide StoredAt;
      forall contents | StoredAt(file, handle, contents) ensures false {
        ReadBlockBack(file, true, handle, contents);
      }
    }
  }

  /** A block whose checksum is not its own is refused as such, whatever its type. */
  lemma DamageIsSeen(file: seq<Byte>, handle: Handle)
    requires handle.offset + handle.size + TRAILER_SIZE <= |file|
    requires var data := file[handle.offset..handle.offset + handle.size + TRAILER_SIZE];
      data[handle.size + 1..] != Crc32c.Fixed32(Crc32c.Mask(Crc32c.Value(data[..handle.size + 1])))
    ensures ReadBlock(file, true, handle) == ChecksumMismatch
  {
    hide Crc32c.Fixed32, Crc32c.Mask, Crc32c.Unmask, Crc32c.Value, Crc32c.ReadUint32LE;
    var data := file[handle.offset..handle.offset + handle.size + TRAILER_SIZE];
    ChecksumAfter(data, handle.size + 1);
    assert data[handle.size + 1..][..4] == data[handle.size + 1..];
  }

  lemma StoredAtStays(file: seq<Byte>, more: seq<Byte>, handle: Handle, contents: seq<Byte>)
    requires StoredAt(file, handle, contents)
    ensures StoredAt(file + more, handle, contents)
  {
    hide Stored;
    var end := handle.offset + |contents| + TRAILER_SIZE;
    assert (file + more)[handle.offset..end] == file[handle.offset..end];
  }

  lemma StoredAtEnd(file: seq<Byte>, contents: seq<Byte>)
    ensures StoredAt(file + Stored(contents), Handle(|file|, |contents|), contents)
  {
    hide Crc32c.Fixed32, Crc32c.Mask, Crc32c.Value;
    assert (file + Stored(contents))[|file|..] == Stored(contents);
  }
}
