/** CRC-32C as in util/crc32c.cc: the four-stride loop against the bit-at-a-time register. */
module Crc32c {
  import opened Bytes
  import opened Words

  /** A byte as a word, bit by bit: the solver knows little of conversions between numbers and words. */
  function ToWord(b: Byte): Word { Pack(Digits(b as int)) }

  const XOR_OUT: Word := 0xffff_ffff
  const MASK_DELTA: Word := 0xa282_ead8

  // ---------------------------------------------------------------- reference

  function Tap(b: Word): Word { if b == 1 then 0x82f6_3b78 else 0 }

  /** One zero bit through the reflected CRC-32C register (section 12.1 of RFC 3720). */
  function Bit(l: Word): Word { Xor(Half(l), Tap(Low(l))) }

  /** The register after `n` zero bits. */
  function Advance(l: Word, n: nat): Word
    decreases n
  {
    if n == 0 then l else Advance(Bit(l), n - 1)
  }

  /** The register after the bytes of `data`, one at a time. */
  function Fold(l: Word, data: seq<Byte>): Word
    decreases |data|
  {
    if data == [] then l else Fold(Advance(Xor(l, ToWord(data[0])), 8), data[1..])
  }

  /** The checksum of `data` continuing `crc`: conditioned, folded, conditioned back. */
  function Extended(crc: Word, data: seq<Byte>): Word {
    Xor(Fold(Xor(crc, XOR_OUT), data), XOR_OUT)
  }

  function Value(data: seq<Byte>): Word { Extended(0, data) }

  // ------------------------------------------------------------------- tables

  /** kByteExtensionTable by its defining equation. */
  function ByteTable(c: Word): Word { Advance(c, 8) }

  /** kStrideExtensionTable0..3: one byte of a pending word, sixteen zero bytes later. */
  function StrideTable0(c: Word): Word { Advance(c << 24, 128) }
  function StrideTable1(c: Word): Word { Advance(c << 16, 128) }
  function StrideTable2(c: Word): Word { Advance(c << 8, 128) }
  function StrideTable3(c: Word): Word { Advance(c, 128) }

  /** EncodeFixed32. */
  function Fixed32(w: Word): (s: seq<Byte>)
    ensures |s| == 4
  {
    [ToByte(w & 0xff), ToByte((w >> 8) & 0xff), ToByte((w >> 16) & 0xff), ToByte(w >> 24)]
  }

  function ToByte(w: Word): Byte { Sum(Unpack(w)) as Byte }

  lemma ByteBack(w: Word)
    requires w < 256
    ensures ToWord(ToByte(w)) == w
  {
    hide Sum, Digits, Pack, Unpack;
    SumDigits(Unpack(w));
    PackUnpack(w);
  }

  lemma ToByteBack(b: Byte)
    ensures ToWord(b) < 256 && ToByte(ToWord(b)) == b
  {
    hide Sum, Digits, Pack, Unpack;
    UnpackPack(Digits(b as int));
    DigitsSum(b as int);
  }

  /** The four bytes at `p`, least significant first. */
  function ReadUint32LE(data: seq<Byte>, p: nat): Word
    requires p + 4 <= |data|
  {
    Join(ToWord(data[p]), Join(ToWord(data[p + 1]), Join(ToWord(data[p + 2]), ToWord(data[p + 3]))))
  }

  // ---------------------------------------------------------------- linearity

  lemma TapLinear(a: Word, b: Word)
    ensures Tap(Low(Xor(a, b))) == Xor(Tap(Low(a)), Tap(Low(b)))
  {
    hide Xor, Low;
    LowLinear(a, b);
    LowCases(a);
    LowCases(b);
    XorZero(Low(a));
    XorZero(Low(b));
    XorZero(Tap(Low(a)));
    XorZero(Tap(Low(b)));
    XorSelf(0, 1);
    XorSelf(0, Tap(1));
    XorZero(1);
    XorZero(Tap(1));
  }

  lemma BitLinear(a: Word, b: Word)
    ensures Bit(Xor(a, b)) == Xor(Bit(a), Bit(b))
  {
    TapLinear(a, b);
    HalfLinear(a, b);
    XorSwap(Half(a), Half(b), Tap(Low(a)), Tap(Low(b)));
    hide Xor, Tap, Half, Low;
  }

  lemma AdvanceUnfold(l: Word, n: nat)
    ensures Advance(l, n) == if n == 0 then l else Advance(Bit(l), n - 1)
  {}

  /** The register is linear over exclusive-or: the fact the stride loop rests on. */
  lemma {:induction false} AdvanceLinear(a: Word, b: Word, n: nat)
    ensures Advance(Xor(a, b), n) == Xor(Advance(a, n), Advance(b, n))
    decreases n
  {
    hide *;
    AdvanceUnfold(a, n);
    AdvanceUnfold(b, n);
    AdvanceUnfold(Xor(a, b), n);
    if n > 0 {
      BitLinear(a, b);
      AdvanceLinear(Bit(a), Bit(b), n - 1);
    }
  }

  lemma {:induction false} AdvanceAdd(l: Word, m: nat, n: nat)
    ensures Advance(Advance(l, m), n) == Advance(l, m + n)
    decreases m
  {
    hide *;
    AdvanceUnfold(l, m);
    AdvanceUnfold(l, m + n);
    if m > 0 {
      AdvanceAdd(Bit(l), m - 1, n);
    }
  }

  lemma BitDoubled(x: Word, h: Word)
    requires Doubled(x, h)
    ensures Bit(x) == h
  {
    XorZero(h);
    hide Xor;
  }

  /** A byte of zeros below only shifts the upper bytes down. */
  lemma AdvanceShift(x: Word)
    requires x < 0x100_0000
    ensures Advance(x << 8, 8) == x
  {
    hide *;
    ShiftDown(x);
    BitDoubled(x << 8, x << 7);
    BitDoubled(x << 7, x << 6);
    BitDoubled(x << 6, x << 5);
    BitDoubled(x << 5, x << 4);
    BitDoubled(x << 4, x << 3);
    BitDoubled(x << 3, x << 2);
    BitDoubled(x << 2, x << 1);
    BitDoubled(x << 1, x);
    AdvanceUnfold(x << 8, 8);
    AdvanceUnfold(x << 7, 7);
    AdvanceUnfold(x << 6, 6);
    AdvanceUnfold(x << 5, 5);
    AdvanceUnfold(x << 4, 4);
    AdvanceUnfold(x << 3, 3);
    AdvanceUnfold(x << 2, 2);
    AdvanceUnfold(x << 1, 1);
    AdvanceUnfold(x, 0);
  }

  /** A byte of the register leaves the bytes above it exclusive-ored into the result. */
  lemma AdvanceJoin(l: Word, y: Word)
    requires y < 0x100_0000
    ensures Advance(Xor(l, y << 8), 8) == Xor(Advance(l, 8), y)
  {
    hide *;
    AdvanceLinear(l, y << 8, 8);
    AdvanceShift(y);
  }

  /** Four bytes at once are the four bytes one by one. */
  lemma AdvanceWord(l: Word, b0: Word, b1: Word, b2: Word, b3: Word)
    requires b0 < 256 && b1 < 256 && b2 < 256 && b3 < 256
    ensures Advance(Xor(l, Join(b0, Join(b1, Join(b2, b3)))), 32)
      == Advance(Xor(Advance(Xor(Advance(Xor(Advance(Xor(l, b0), 8), b1), 8), b2), 8), b3), 8)
  {
    hide *;
    var y2 := Join(b2, b3);
    var y1 := Join(b1, y2);
    JoinSmall(b1, b2, b3);
    JoinSplit(b0, y1);
    JoinSplit(b1, y2);
    JoinSplit(b2, b3);
    JoinStep(l, b0, y1);
    var l1 := Advance(Xor(l, b0), 8);
    JoinStep(l1, b1, y2);
    var l2 := Advance(Xor(l1, b1), 8);
    JoinStep(l2, b2, b3);
    var w := Xor(l, Join(b0, y1));
    AdvanceAdd(w, 8, 24);
    AdvanceAdd(Xor(l1, y1), 8, 16);
    AdvanceAdd(Xor(l2, y2), 8, 8);
  }

  lemma JoinStep(l: Word, b: Word, y: Word)
    requires b < 256 && y < 0x100_0000
    ensures Advance(Xor(l, Join(b, y)), 8) == Xor(Advance(Xor(l, b), 8), y)
  {
    hide *;
    JoinSplit(b, y);
    XorAssoc(l, b, y << 8);
    AdvanceJoin(Xor(l, b), y);
  }

  /** Folding four bytes is one step of the word they spell. */
  lemma FoldWord(l: Word, data: seq<Byte>, p: nat)
    requires p + 4 <= |data|
    ensures Fold(l, data[p..]) == Fold(Advance(Xor(l, ReadUint32LE(data, p)), 32), data[p + 4..])
  {
    var b0, b1, b2, b3 := ToWord(data[p]), ToWord(data[p + 1]), ToWord(data[p + 2]), ToWord(data[p + 3]);
    FoldByte(l, data, p);
    var l1 := Advance(Xor(l, b0), 8);
    FoldByte(l1, data, p + 1);
    var l2 := Advance(Xor(l1, b1), 8);
    FoldByte(l2, data, p + 2);
    var l3 := Advance(Xor(l2, b2), 8);
    FoldByte(l3, data, p + 3);
    ByteSmall(data[p]);
    ByteSmall(data[p + 1]);
    ByteSmall(data[p + 2]);
    ByteSmall(data[p + 3]);
    AdvanceWord(l, b0, b1, b2, b3);
    hide ToWord, Advance, Xor, Join, Fold;
  }

  lemma ByteSmall(b: Byte)
    ensures ToWord(b) < 256
  {}

  lemma FoldByte(l: Word, data: seq<Byte>, p: nat)
    requires p < |data|
    ensures Fold(l, data[p..]) == Fold(Advance(Xor(l, ToWord(data[p])), 8), data[p + 1..])
  {
    hide ToWord, Xor, Advance;
    assert data[p..][0] == data[p];
    assert data[p..][1..] == data[p + 1..];
  }

  // ------------------------------------------------------------- the algorithm

  /** A table lookup is eight bits of the register. */
  lemma TableStep(l: Word, b: Word)
    ensures Xor(ByteTable(Xor(l & 0xff, b)), l >> 8) == Advance(Xor(l, b), 8)
  {
    SplitLowXor(l, b);
    SplitLow(l);
    AdvanceJoin(Xor(l & 0xff, b), l >> 8);
    hide ToWord, Xor, Advance;
  }

  /** The four stride tables together are sixteen bytes of the register. */
  lemma StrideStep(crc: Word)
    ensures Advance(crc, 128)
      == Xor(Xor(Xor(StrideTable3(crc & 0xff), StrideTable2((crc >> 8) & 0xff)),
                 StrideTable1((crc >> 16) & 0xff)), StrideTable0(crc >> 24))
  {
    hide ToWord, Xor, Advance;
    var b0, b1, b2, b3 := crc & 0xff, (crc >> 8) & 0xff, (crc >> 16) & 0xff, crc >> 24;
    SplitBytes(crc);
    AdvanceLinear(Xor(Xor(b0, b1 << 8), b2 << 16), b3 << 24, 128);
    AdvanceLinear(Xor(b0, b1 << 8), b2 << 16, 128);
    AdvanceLinear(b0, b1 << 8, 128);
  }

  lemma XorChain(w: Word, t0: Word, t1: Word, t2: Word, t3: Word)
    ensures Xor(Xor(Xor(Xor(w, t0), t1), t2), t3) == Xor(w, Xor(Xor(Xor(t0, t1), t2), t3))
  {
    hide *;
    XorAssoc(w, t0, t1);
    XorAssoc(w, Xor(t0, t1), t2);
    XorAssoc(w, Xor(Xor(t0, t1), t2), t3);
  }

  /** STEP1: one byte. */
  method Step1(l: Word, b: Byte) returns (r: Word)
    ensures r == Advance(Xor(l, ToWord(b)), 8)
  {
    hide *;
    var c := Xor(l & 0xff, ToWord(b));
    r := Xor(ByteTable(c), l >> 8);
    TableStep(l, ToWord(b));
  }

  /** STEP4: a pending word moves past its own four bytes and the twelve of the other strides. */
  method Step4(crc: Word, w: Word) returns (r: Word)
    ensures r == Xor(w, Advance(crc, 128))
  {
    hide *;
    var t3 := StrideTable3(crc & 0xff);
    var t2 := StrideTable2((crc >> 8) & 0xff);
    var t1 := StrideTable1((crc >> 16) & 0xff);
    var t0 := StrideTable0(crc >> 24);
    r := Xor(Xor(Xor(Xor(w, t3), t2), t1), t0);
    StrideStep(crc);
    XorChain(w, t3, t2, t1, t0);
  }

  /** STEP4W: four bytes already loaded into a word. */
  method Step4W(l: Word, word: Word) returns (r: Word)
    ensures r == Advance(Xor(word, l), 32)
  {
    hide *;
    var w := Xor(word, l);
    for i := 0 to 4
      invariant Advance(w, 32 - 8 * i) == Advance(Xor(word, l), 32)
    {
      AdvanceAdd(w, 8, 32 - 8 * i - 8);
      TableStep(w, 0);
      XorZero(w);
      XorZero(w & 0xff);
      XorComm(w >> 8, ByteTable(w & 0xff));
      w := Xor(w >> 8, ByteTable(w & 0xff));
    }
    AdvanceUnfold(w, 0);
    r := w;
  }

  // ------------------------------------------------------- the stride argument

  /** The register the four pending words stand for. */
  function Combined(c0: Word, c1: Word, c2: Word, c3: Word): Word {
    Advance(Xor(Advance(Xor(Advance(Xor(Advance(c0, 32), c1), 32), c2), 32), c3), 32)
  }

  lemma CombinedSplit(c0: Word, c1: Word, c2: Word, c3: Word)
    ensures Combined(c0, c1, c2, c3)
      == Xor(Advance(c0, 128), Advance(Xor(Advance(Xor(Advance(c1, 32), c2), 32), c3), 32))
  {
    hide ToWord, Xor, Advance;
    var y1 := Advance(c1, 32);
    var y2 := Advance(Xor(y1, c2), 32);
    Push(Advance(c0, 32), 0, c1);
    Push(Advance(c0, 64), y1, c2);
    Push(Advance(c0, 96), y2, c3);
    AdvanceLinear(Advance(c0, 32), c1, 32);
    AdvanceAdd(c0, 32, 32);
    AdvanceAdd(c0, 64, 32);
    AdvanceAdd(c0, 96, 32);
  }

  lemma Push(a: Word, b: Word, c: Word)
    ensures Advance(Xor(Xor(a, b), c), 32) == Xor(Advance(a, 32), Advance(Xor(b, c), 32))
  {
    hide ToWord, Xor, Advance;
    XorAssoc(a, b, c);
    AdvanceLinear(a, Xor(b, c), 32);
  }

  /** Rotating the strides by one word is folding that word. */
  lemma CombinedRotate(c0: Word, c1: Word, c2: Word, c3: Word, w: Word)
    ensures Combined(c1, c2, c3, Xor(w, Advance(c0, 128))) == Advance(Xor(Combined(c0, c1, c2, c3), w), 32)
  {
    CombinedSplit(c0, c1, c2, c3);
    var rest := Advance(Xor(Advance(Xor(Advance(c1, 32), c2), 32), c3), 32);
    hide ToWord, Xor, Advance;
    XorComm(w, Advance(c0, 128));
    XorAssoc(rest, Advance(c0, 128), w);
    XorComm(rest, Advance(c0, 128));
  }

  /** The whole of `data` folded through the strides, from an address of any alignment. */
  method Extend(crc: Word, data: seq<Byte>, address: nat) returns (r: Word)
    ensures r == Extended(crc, data)
  {
    hide ToWord, Xor, Advance, Fold, Combined, ReadUint32LE, Join;
    var p, e := 0, |data|;
    var l := Xor(crc, XOR_OUT);
    ghost var target := Fold(l, data);
    assert data[0..] == data;

    var x := (4 - address % 4) % 4;
    if x <= e {
      while p != x
        invariant p <= x <= e && Fold(l, data[p..]) == target
      {
        FoldByte(l, data, p);
        l := Step1(l, data[p]);
        p := p + 1;
      }
    }

    if e - p >= 16 {
      var crc0 := Xor(ReadUint32LE(data, p), l);
      var crc1 := ReadUint32LE(data, p + 4);
      var crc2 := ReadUint32LE(data, p + 8);
      var crc3 := ReadUint32LE(data, p + 12);
      LoadStrides(l, data, p);
      p := p + 16;

      while e - p >= 16
        invariant p <= e && Fold(Combined(crc0, crc1, crc2, crc3), data[p..]) == target
      {
        Rotate(data, p, crc0, crc1, crc2, crc3);
        crc0 := Step4(crc0, ReadUint32LE(data, p));
        Rotate(data, p + 4, crc1, crc2, crc3, crc0);
        crc1 := Step4(crc1, ReadUint32LE(data, p + 4));
        Rotate(data, p + 8, crc2, crc3, crc0, crc1);
        crc2 := Step4(crc2, ReadUint32LE(data, p + 8));
        Rotate(data, p + 12, crc3, crc0, crc1, crc2);
        crc3 := Step4(crc3, ReadUint32LE(data, p + 12));
        p := p + 16;
      }

      while e - p >= 4
        invariant p <= e && Fold(Combined(crc0, crc1, crc2, crc3), data[p..]) == target
      {
        Rotate(data, p, crc0, crc1, crc2, crc3);
        crc0 := Step4(crc0, ReadUint32LE(data, p));
        var tmp := crc0;
        crc0 := crc1;
        crc1 := crc2;
        crc2 := crc3;
        crc3 := tmp;
        p := p + 4;
      }

      Collapse(crc0, crc1, crc2, crc3);
      l := 0;
      l := Step4W(l, crc0);
      l := Step4W(l, crc1);
      l := Step4W(l, crc2);
      l := Step4W(l, crc3);
    }

    while p != e
      invariant p <= e && Fold(l, data[p..]) == target
    {
      FoldByte(l, data, p);
      l := Step1(l, data[p]);
      p := p + 1;
    }
    FoldEmpty(l, data[p..]);
    r := Xor(l, XOR_OUT);
  }

  lemma FoldEmpty(l: Word, data: seq<Byte>)
    requires data == []
    ensures Fold(l, data) == l
  {}

  lemma LoadStrides(l: Word, data: seq<Byte>, p: nat)
    requires p + 16 <= |data|
    ensures Fold(l, data[p..])
      == Fold(Combined(Xor(ReadUint32LE(data, p), l), ReadUint32LE(data, p + 4),
                       ReadUint32LE(data, p + 8), ReadUint32LE(data, p + 12)), data[p + 16..])
  {
    hide ToWord, Xor, Advance, Fold, ReadUint32LE, Join;
    FoldWord(l, data, p);
    XorComm(l, ReadUint32LE(data, p));
    var l1 := Advance(Xor(l, ReadUint32LE(data, p)), 32);
    FoldWord(l1, data, p + 4);
    var l2 := Advance(Xor(l1, ReadUint32LE(data, p + 4)), 32);
    FoldWord(l2, data, p + 8);
    var l3 := Advance(Xor(l2, ReadUint32LE(data, p + 8)), 32);
    FoldWord(l3, data, p + 12);
  }

  lemma Rotate(data: seq<Byte>, p: nat, c0: Word, c1: Word, c2: Word, c3: Word)
    requires p + 4 <= |data|
    ensures Fold(Combined(c0, c1, c2, c3), data[p..])
      == Fold(Combined(c1, c2, c3, Xor(ReadUint32LE(data, p), Advance(c0, 128))), data[p + 4..])
  {
    hide ToWord, Xor, Advance, Fold, Combined, ReadUint32LE, Join;
    FoldWord(Combined(c0, c1, c2, c3), data, p);
    CombinedRotate(c0, c1, c2, c3, ReadUint32LE(data, p));
  }

  /** The final combine, in the operand order of STEP4W. */
  lemma Collapse(c0: Word, c1: Word, c2: Word, c3: Word)
    ensures Combined(c0, c1, c2, c3)
      == Advance(Xor(c3, Advance(Xor(c2, Advance(Xor(c1, Advance(Xor(c0, 0), 32)), 32)), 32)), 32)
  {
    hide ToWord, Xor, Advance;
    XorZero(c0);
    var y0 := Advance(c0, 32);
    XorComm(y0, c1);
    var y1 := Advance(Xor(y0, c1), 32);
    XorComm(y1, c2);
    var y2 := Advance(Xor(y1, c2), 32);
    XorComm(y2, c3);
  }

  // ------------------------------------------------------------ what users need

  lemma {:induction false} FoldAppend(l: Word, a: seq<Byte>, b: seq<Byte>)
    ensures Fold(l, a + b) == Fold(Fold(l, a), b)
    decreases |a|
  {
    hide ToWord, Xor, Advance;
    if a == [] {
      assert a + b == b;
    } else {
      assert (a + b)[1..] == a[1..] + b;
      FoldAppend(Advance(Xor(l, ToWord(a[0])), 8), a[1..], b);
    }
  }

  /** A checksum may be taken in pieces. */
  lemma ExtendedAppend(crc: Word, a: seq<Byte>, b: seq<Byte>)
    ensures Extended(Extended(crc, a), b) == Extended(crc, a + b)
  {
    hide ToWord, Xor, Advance, Fold;
    FoldAppend(Xor(crc, XOR_OUT), a, b);
    XorSelf(Fold(Xor(crc, XOR_OUT), a), XOR_OUT);
  }

  function RotateRight(l: Word): Word { (l >> 15) | (l << 17) }
  function RotateLeft(l: Word): Word { (l >> 17) | (l << 15) }

  /** The stored form of a checksum: rotated right by 15 bits and offset. */
  function Mask(crc: Word): Word { RotateRight(crc) + MASK_DELTA }

  function Unmask(masked: Word): Word { RotateLeft(masked - MASK_DELTA) }

  lemma RotateBack(l: Word)
    ensures RotateLeft(RotateRight(l)) == l
  {}

  lemma AddSub(x: Word, d: Word)
    ensures (x + d) - d == x
  {}

  lemma UnmaskMask(crc: Word)
    ensures Unmask(Mask(crc)) == crc
  {
    hide RotateRight, RotateLeft;
    AddSub(RotateRight(crc), MASK_DELTA);
    RotateBack(crc);
  }

  lemma Fixed32Back(w: Word)
    ensures ReadUint32LE(Fixed32(w), 0) == w
  {
    hide ToWord, ToByte, Join;
    ByteBack(w & 0xff);
    ByteBack((w >> 8) & 0xff);
    ByteBack((w >> 16) & 0xff);
    ByteBack(w >> 24);
    JoinBack(w);
  }

  lemma UnrotateBack(l: Word)
    ensures RotateRight(RotateLeft(l)) == l
  {}

  lemma SubAdd(x: Word, d: Word)
    ensures (x - d) + d == x
  {}

  lemma MaskUnmask(masked: Word)
    ensures Mask(Unmask(masked)) == masked
  {
    hide RotateRight, RotateLeft;
    SubAdd(masked, MASK_DELTA);
    UnrotateBack(masked - MASK_DELTA);
  }

  lemma JoinParts(x: Word, y: Word)
    requires x < 256 && y < 0x100_0000
    ensures Join(x, y) & 0xff == x && Join(x, y) >> 8 == y
  {}

  lemma JoinShort(x: Word, y: Word)
    requires x < 256 && y < 0x1_0000
    ensures Join(x, y) < 0x100_0000
  {}

  lemma Shifted(w: Word)
    ensures (w >> 8) >> 8 == w >> 16 && (w >> 16) >> 8 == w >> 24
  {}

  lemma LastByte(w: Word)
    requires w < 256
    ensures w & 0xff == w
  {}

  /** The four bytes read as a word are the bytes of that word. */
  lemma ReadBack(data: seq<Byte>)
    requires |data| >= 4
    ensures Fixed32(ReadUint32LE(data, 0)) == data[..4]
  {
    hide ToWord, ToByte, Join;
    ToByteBack(data[0]);
    ToByteBack(data[1]);
    ToByteBack(data[2]);
    ToByteBack(data[3]);
    FourParts(ToWord(data[0]), ToWord(data[1]), ToWord(data[2]), ToWord(data[3]));
  }

  lemma SamePrefix(a: seq<Byte>, b: seq<Byte>)
    requires |a| >= 4 && |b| >= 4 && a[..4] == b[..4]
    ensures ReadUint32LE(a, 0) == ReadUint32LE(b, 0)
  {
    assert a[0] == a[..4][0] && a[1] == a[..4][1] && a[2] == a[..4][2] && a[3] == a[..4][3];
    assert b[0] == b[..4][0] && b[1] == b[..4][1] && b[2] == b[..4][2] && b[3] == b[..4][3];
  }

  /** A stored checksum unmasks to a value exactly when it is the one stored for that value. */
  lemma StoredChecksum(data: seq<Byte>, crc: Word)
    requires |data| >= 4
    ensures Unmask(ReadUint32LE(data, 0)) == crc <==> data[..4] == Fixed32(Mask(crc))
  {
    hide Fixed32, ReadUint32LE, Mask, Unmask;
    ReadBack(data);
    UnmaskMask(crc);
    MaskUnmask(ReadUint32LE(data, 0));
    Fixed32Back(Mask(crc));
    if data[..4] == Fixed32(Mask(crc)) {
      SamePrefix(data, Fixed32(Mask(crc)));
    }
  }

  lemma FourParts(x0: Word, x1: Word, x2: Word, x3: Word)
    requires x0 < 256 && x1 < 256 && x2 < 256 && x3 < 256
    ensures var w := Join(x0, Join(x1, Join(x2, x3)));
      w & 0xff == x0 && (w >> 8) & 0xff == x1 && (w >> 16) & 0xff == x2 && w >> 24 == x3
  {
    var w2 := Join(x2, x3);
    var w1 := Join(x1, w2);
    var w := Join(x0, w1);
    JoinTiny(x2, x3);
    JoinShort(x1, w2);
    JoinParts(x2, x3);
    JoinParts(x1, w2);
    JoinParts(x0, w1);
    Shifted(w);
    hide Join;
  }

  lemma JoinTiny(x: Word, y: Word)
    requires x < 256 && y < 0x100
    ensures Join(x, y) < 0x1_0000
  {}

  /** One byte through the register, bit by bit. */
  lemma OneByte(l: Word, b: Byte, rest: seq<Byte>, bits: seq<Word>)
    requires |bits| == 9 && bits[0] == Xor(l, ToWord(b)) && forall i :: 0 <= i < 8 ==> bits[i + 1] == Bit(bits[i])
    ensures Fold(l, [b] + rest) == Fold(bits[8], rest)
  {
    hide Bit, Xor, ToWord;
    assert ([b] + rest)[1..] == rest;
    assert Advance(bits[0], 8) == Advance(bits[1], 7) == Advance(bits[2], 6) == Advance(bits[3], 5) == Advance(bits[4], 4);
    assert Advance(bits[4], 4) == Advance(bits[5], 3) == Advance(bits[6], 2) == Advance(bits[7], 1) == Advance(bits[8], 0);
  }

  lemma Digit1(rest: seq<Byte>)
    ensures Fold(0xffff_ffff, [49] + rest) == Fold(0x6f0a_661c, rest)
  {
    OneByte(0xffff_ffff, 49, rest,
      [0xffff_ffce, 0x7fff_ffe7, 0xbd09_c48b, 0xdc72_d93d, 0xeccf_57e6,
       0x7667_abf3, 0xb9c5_ee81, 0xde14_cc38, 0x6f0a_661c]);
  }

  lemma Digit2(rest: seq<Byte>)
    ensures Fold(0x6f0a_661c, [50] + rest) == Fold(0x8caa_3b9f, rest)
  {
    OneByte(0x6f0a_661c, 50, rest,
      [0x6f0a_662e, 0x3785_3317, 0x9934_a2f3, 0xce6c_6a01, 0xe5c0_0e78,
       0x72e0_073c, 0x3970_039e, 0x1cb8_01cf, 0x8caa_3b9f]);
  }

  lemma Digit3(rest: seq<Byte>)
    ensures Fold(0x8caa_3b9f, [51] + rest) == Fold(0xef84_d04d, rest)
  {
    OneByte(0x8caa_3b9f, 51, rest,
      [0x8caa_3bac, 0x4655_1dd6, 0x232a_8eeb, 0x9363_7c0d, 0xcb47_857e,
       0x65a3_c2bf, 0xb027_da27, 0xdae5_d66b, 0xef84_d04d]);
  }

  lemma Digit4(rest: seq<Byte>)
    ensures Fold(0xef84_d04d, [52] + rest) == Fold(0x09c5_0b11, rest)
  {
    OneByte(0xef84_d04d, 52, rest,
      [0xef84_d079, 0xf534_5344, 0x7a9a_29a2, 0x3d4d_14d1, 0x9c50_b110,
       0x4e28_5888, 0x2714_2c44, 0x138a_1622, 0x09c5_0b11]);
  }

  lemma Digit5(rest: seq<Byte>)
    ensures Fold(0x09c5_0b11, [53] + rest) == Fold(0xe72e_dcca, rest)
  {
    OneByte(0x09c5_0b11, 53, rest,
      [0x09c5_0b24, 0x04e2_8592, 0x0271_42c9, 0x83ce_9a1c, 0x41e7_4d0e,
       0x20f3_a687, 0x928f_e83b, 0xcbb1_cf65, 0xe72e_dcca]);
  }

  lemma Digit6(rest: seq<Byte>)
    ensures Fold(0xe72e_dcca, [54] + rest) == Fold(0xbeca_8e79, rest)
  {
    OneByte(0xe72e_dcca, 54, rest,
      [0xe72e_dcfc, 0x7397_6e7e, 0x39cb_b73f, 0x9e13_e0e7, 0xcdff_cb0b,
       0xe409_defd, 0xf0f2_d406, 0x7879_6a03, 0xbeca_8e79]);
  }

  lemma Digit7(rest: seq<Byte>)
    ensures Fold(0xbeca_8e79, [55] + rest) == Fold(0xedbd_6815, rest)
  {
    OneByte(0xbeca_8e79, 55, rest,
      [0xbeca_8e4e, 0x5f65_4727, 0xad44_98eb, 0xd454_770d, 0xe8dc_00fe,
       0x746e_007f, 0xb8c1_3b47, 0xde96_a6db, 0xedbd_6815]);
  }

  lemma Digit8(rest: seq<Byte>)
    ensures Fold(0xedbd_6815, [56] + rest) == Fold(0x9f78_7f65, rest)
  {
    OneByte(0xedbd_6815, 56, rest,
      [0xedbd_682d, 0xf428_8f6e, 0x7a14_47b7, 0xbffc_18a3, 0xdd08_3729,
       0xec72_20ec, 0x7639_1076, 0x3b1c_883b, 0x9f78_7f65]);
  }

  lemma Digit9(rest: seq<Byte>)
    ensures Fold(0x9f78_7f65, [57] + rest) == Fold(0x1cf9_6d7c, rest)
  {
    OneByte(0x9f78_7f65, 57, rest,
      [0x9f78_7f5c, 0x4fbc_3fae, 0x27de_1fd7, 0x9119_3493, 0xca7a_a131,
       0xe7cb_6be0, 0x73e5_b5f0, 0x39f2_daf8, 0x1cf9_6d7c]);
  }

  /** The published check value of CRC-32C: that of the digits 1 to 9 in ASCII. */
  lemma CheckValue()
    ensures Value([49, 50, 51, 52, 53, 54, 55, 56, 57]) == 0xe306_9283
  {
    hide Fold;
    Digit1([50, 51, 52, 53, 54, 55, 56, 57]);
    assert [49] + [50, 51, 52, 53, 54, 55, 56, 57] == [49, 50, 51, 52, 53, 54, 55, 56, 57];
    Digit2([51, 52, 53, 54, 55, 56, 57]);
    assert [50] + [51, 52, 53, 54, 55, 56, 57] == [50, 51, 52, 53, 54, 55, 56, 57];
    Digit3([52, 53, 54, 55, 56, 57]);
    assert [51] + [52, 53, 54, 55, 56, 57] == [51, 52, 53, 54, 55, 56, 57];
    Digit4([53, 54, 55, 56, 57]);
    assert [52] + [53, 54, 55, 56, 57] == [52, 53, 54, 55, 56, 57];
    Digit5([54, 55, 56, 57]);
    assert [53] + [54, 55, 56, 57] == [53, 54, 55, 56, 57];
    Digit6([55, 56, 57]);
    assert [54] + [55, 56, 57] == [54, 55, 56, 57];
    Digit7([56, 57]);
    assert [55] + [56, 57] == [55, 56, 57];
    Digit8([57]);
    assert [56] + [57] == [56, 57];
    Digit9([]);
    assert [57] + [] == [57];
    assert Fold(0x1cf9_6d7c, []) == 0x1cf9_6d7c by { NoBytes(0x1cf9_6d7c); }
  }

  lemma NoBytes(l: Word)
    ensures Fold(l, []) == l
  {}
}
