/** pb_encode.c, pb_decode.c: what is encoded is decoded back. */
module PbRoundTrip {
  import opened Bytes
  import opened Coding
  import opened PbFields
  import opened PbEncode
  import opened PbDecode

  // ---------------------------------------------------------------- descriptors

  ghost predicate SameUnion(fields: seq<Field>, i: nat, j: nat) {
    && i < |fields| && j < |fields| && fields[i].htype.Oneof? && fields[j].htype.Oneof?
    && SizeAt(fields, i) == SizeAt(fields, j)
  }

  ghost predicate SharedSize(fields: seq<Field>, i: nat, j: nat)
    requires i < |fields| && j < |fields|
  {
    fields[i].sizeOffset != 0 && fields[j].sizeOffset != 0 && SizeAt(fields, i) == SizeAt(fields, j)
  }

  /** Two fields share memory only as members of a union. */
  ghost predicate Layout(fields: seq<Field>) {
    && (forall i, j :: 0 <= i < |fields| && 0 <= j < |fields| && i != j && DataAt(fields, i) == DataAt(fields, j) ==> SameUnion(fields, i, j))
    && (forall i, j :: 0 <= i < |fields| && 0 <= j < |fields| && i != j && SharedSize(fields, i, j) ==> SameUnion(fields, i, j))
    && forall i :: 0 <= i < |fields| ==> SizeAt(fields, i) == DataAt(fields, i) + fields[i].sizeOffset
  }

  /** A descriptor array as the generator writes it, all the way down. */
  ghost predicate WellFormed(fields: seq<Field>) {
    && Tagged(fields) && Layout(fields)
    && forall i :: 0 <= i < |fields| ==> FieldFormed(fields[i])
  }

  ghost predicate FieldFormed(f: Field) {
    && f.tag < 0x2000_0000
    && (f.htype.Oneof? ==> f.sizeOffset != 0)
    && (f.ltype.Submessage? ==> f.ptr.Fields? && WellFormed(f.ptr.fields))
    && (f.htype.Optional? && f.sizeOffset == 0 ==> !f.ptr.Default?)
  }

  // ------------------------------------------------------------------- messages

  /** An item as C can hold it in its field, with strings terminated inside their buffers. */
  ghost predicate ItemStored(f: Field, d: Datum)
    decreases f, 0
  {
    match f.ltype
    case Bool => d == Num(0) || d == Num(1)
    case Int => d.Num? && (IntSize(f.dataSize) ==> InInt(d.v, f.dataSize))
    case SInt => d.Num? && (IntSize(f.dataSize) ==> InInt(d.v, f.dataSize))
    case UInt => d.Num? && (IntSize(f.dataSize) ==> 0 <= d.v < 2 * Half(f.dataSize))
    case Fixed32 => d.Num? && 0 <= d.v < TWO_32
    case Fixed64 => d.Num? && 0 <= d.v < TWO_64
    case Bytes => d.Raw?
    case String => d.Raw? && |d.bytes| == f.dataSize && |Text(d.bytes)| < f.dataSize
    case FixedLengthBytes => d.Raw? && |d.bytes| == f.dataSize
    case Submessage => d.Msg? && f.ptr.Fields? && Stored(f.ptr.fields, d.mem)
  }

  ghost predicate FieldStored(fields: seq<Field>, i: nat, m: Memory)
    requires i < |fields|
    decreases fields, 0
  {
    var f := fields[i];
    var size := Size(m, SizeAt(fields, i));
    match f.htype
    case Required => ItemStored(f, Load(m, DataAt(fields, i), 1)[0])
    case Optional => f.sizeOffset == 0 || size != 0 ==> ItemStored(f, Load(m, DataAt(fields, i), 1)[0])
    case Oneof =>
      && (size == f.tag ==> ItemStored(f, Load(m, DataAt(fields, i), 1)[0]))
      && (size == 0 || exists j: nat :: SameUnion(fields, i, j) && fields[j].tag == size)
    case Repeated =>
      forall k :: 0 <= k < CountOf(fields, i, m) && k < f.arraySize ==> ItemStored(f, Load(m, DataAt(fields, i), f.arraySize)[k])
  }

  /** A message as C can hold it. */
  ghost predicate Stored(fields: seq<Field>, m: Memory)
    decreases fields, 1
  {
    forall i :: 0 <= i < |fields| ==> FieldStored(fields, i, m)
  }

  ghost predicate SameItem(f: Field, a: Datum, b: Datum)
    decreases f, 0
  {
    match f.ltype
    case String => a.Raw? && b.Raw? && Text(a.bytes) == Text(b.bytes)
    case Submessage => a.Msg? && b.Msg? && f.ptr.Fields? && Same(f.ptr.fields, a.mem, b.mem)
    case _ => a == b
  }

  ghost predicate SameField(fields: seq<Field>, i: nat, a: Memory, b: Memory)
    requires i < |fields|
    decreases fields, 0
  {
    var f := fields[i];
    var pData, pSize := DataAt(fields, i), SizeAt(fields, i);
    match f.htype
    case Required => SameItem(f, Load(a, pData, 1)[0], Load(b, pData, 1)[0])
    case Optional =>
      && (f.sizeOffset != 0 ==> (Size(a, pSize) != 0 <==> Size(b, pSize) != 0))
      && (f.sizeOffset == 0 || Size(a, pSize) != 0 ==> SameItem(f, Load(a, pData, 1)[0], Load(b, pData, 1)[0]))
    case Oneof =>
      && Size(a, pSize) == Size(b, pSize)
      && (Size(a, pSize) == f.tag ==> SameItem(f, Load(a, pData, 1)[0], Load(b, pData, 1)[0]))
    case Repeated =>
      && CountOf(fields, i, a) == CountOf(fields, i, b)
      && SameItems(f, Load(a, pData, f.arraySize), Load(b, pData, f.arraySize), CountOf(fields, i, a))
  }

  ghost predicate SameItems(f: Field, a: seq<Datum>, b: seq<Datum>, count: nat)
    decreases f, 1
  {
    count <= |a| && count <= |b| && forall k :: 0 <= k < count ==> SameItem(f, a[k], b[k])
  }

  /** The same fields present, with the same contents; what an absent field holds does not count. */
  ghost predicate Same(fields: seq<Field>, a: Memory, b: Memory)
    decreases fields, 1
  {
    forall i :: 0 <= i < |fields| ==> SameField(fields, i, a, b)
  }

  // ------------------------------------------------------------------- defaults

  ghost predicate FreshItem(f: Field, d: Datum)
    decreases f, 0
  {
    match f.ltype
    case Submessage => d.Msg? && f.ptr.Fields? && Fresh(f.ptr.fields, d.mem)
    case String => f.ptr.Default? || (d.Raw? && Text(d.bytes) == [])
    case _ => f.ptr.Default? || d == Zero(f)
  }

  /** Nothing has been decoded into the field. */
  ghost predicate FreshField(fields: seq<Field>, i: nat, m: Memory)
    requires i < |fields|
    decreases fields, 0
  {
    var f := fields[i];
    var pData, pSize := DataAt(fields, i), SizeAt(fields, i);
    && (f.sizeOffset != 0 && !f.htype.Required? ==> Size(m, pSize) == 0)
    && (f.htype.Required? || f.htype.Optional? ==> FreshItem(f, Load(m, pData, 1)[0]))
  }

  ghost predicate Fresh(fields: seq<Field>, m: Memory)
    decreases fields, 1
  {
    forall i :: 0 <= i < |fields| ==> FreshField(fields, i, m)
  }

  lemma {:induction false} ZerosText(n: nat)
    ensures Text(Zeros(n)) == []
  {}

  lemma {:induction false} InitFresh(f: Field, d: Datum)
    requires FieldFormed(f)
    ensures FreshItem(f, InitItem(f, d))
    decreases f, 0
  {
    ZerosText(f.dataSize);
    if f.ltype.Submessage? {
      DefaultsFresh(f.ptr.fields, MemOf(d), 0);
    }
  }

  lemma Places(fields: seq<Field>, i: nat, j: nat)
    requires WellFormed(fields) && i < |fields| && j < |fields|
    ensures FieldFormed(fields[i]) && SizeAt(fields, i) == DataAt(fields, i) + fields[i].sizeOffset
    ensures i != j && DataAt(fields, i) == DataAt(fields, j) ==> SameUnion(fields, i, j)
    ensures i != j && SharedSize(fields, i, j) ==> SameUnion(fields, i, j)
    ensures i != j ==> fields[i].tag != fields[j].tag && fields[i].tag != 0
  {}

  lemma InitOne(fields: seq<Field>, m: Memory, i: nat)
    requires WellFormed(fields) && i < |fields|
    ensures FreshField(fields, i, InitField(fields, i, m))
    decreases fields, 0
  {
    hide WellFormed, DataAt, SizeAt, FreshItem, InitItem;
    Places(fields, i, i);
    hide FieldFormed;
    InitFresh(fields[i], Load(m, DataAt(fields, i), 1)[0]);
  }

  lemma InitKeeps(fields: seq<Field>, m: Memory, i: nat, j: nat)
    requires WellFormed(fields) && i < |fields| && j < |fields| && i != j && FreshField(fields, j, m)
    ensures FreshField(fields, j, InitField(fields, i, m))
  {
    hide WellFormed, DataAt, SizeAt, FreshItem, InitItem, FieldFormed;
    Places(fields, i, j);
  }

  /** Setting the fields from i on to their defaults leaves them fresh, and the ones before as they were. */
  lemma {:induction false} DefaultsFresh(fields: seq<Field>, m: Memory, i: nat)
    requires WellFormed(fields) && i <= |fields|
    requires forall j :: 0 <= j < i ==> FreshField(fields, j, m)
    ensures Fresh(fields, Defaults(fields, m, i))
    decreases fields, |fields| - i + 1
  {
    hide WellFormed, FreshField, InitField;
    if i < |fields| {
      InitOne(fields, m, i);
      forall j | 0 <= j < i ensures FreshField(fields, j, InitField(fields, i, m)) {
        InitKeeps(fields, m, i, j);
      }
      DefaultsFresh(fields, InitField(fields, i, m), i + 1);
    }
  }

  // ------------------------------------------------------------------- numbers

  /** The digits that follow in a varint of 32 bits. */
  lemma {:induction false} More32Back(v: nat, bitpos: nat, result: nat, rest: seq<Byte>)
    requires bitpos == 7 || bitpos == 14 || bitpos == 21 || bitpos == 28
    requires 0 < v && result + v * Pow(2, bitpos) < TWO_32 && result < Pow(2, bitpos)
    ensures More32(Varint(v) + rest, bitpos, result) == Got(result + v * Pow(2, bitpos), rest)
    decreases 28 - bitpos
  {
    hide Varint, More32;
    MoreDigits(v);
    SmallPowers();
    if v < B {
      OneMore(v, bitpos, result, rest);
    } else {
      assert bitpos < 28;
      var p := Pow(2, bitpos);
      var next := result + v % B * p;
      assert Pow(2, bitpos + 7) == B * p;
      DigitSum(v, p);
      MoreStep(WithMore(v), Varint(v / B) + rest, bitpos, result);
      assert WithMore(v) as nat % B == v % B;
      assert next < TWO_32;
      Small(next);
      assert [WithMore(v)] + Varint(v / B) + rest == [WithMore(v)] + (Varint(v / B) + rest);
      More32Back(v / B, bitpos + 7, next, rest);
    }
  }

  lemma Small(n: nat)
    requires n < TWO_32
    ensures n % TWO_32 == n
  {}

  lemma DigitSum(v: nat, p: nat)
    ensures v * p == v % B * p + v / B * (B * p)
    ensures v % B * p <= (B - 1) * p
  {
    Distribute(v % B, v / B, p);
    AtMost(v % B, B - 1, p);
  }

  lemma Distribute(r: nat, q: nat, p: nat)
    ensures (r + 128 * q) * p == r * p + q * (128 * p)
  {}

  lemma AtMost(a: nat, b: nat, p: nat)
    requires a <= b
    ensures a * p <= b * p
  {}

  lemma SmallPowers()
    ensures Pow(2, 7) == 0x80 && Pow(2, 14) == 0x4000 && Pow(2, 21) == 0x20_0000 && Pow(2, 28) == 0x1000_0000
  {
    SevenBits(7);
    SevenBits(14);
    SevenBits(21);
    SevenBits(28);
    assert Pow(2, 0) == 1;
  }

  lemma OneMore(v: nat, bitpos: nat, result: nat, rest: seq<Byte>)
    requires bitpos == 7 || bitpos == 14 || bitpos == 21 || bitpos == 28
    requires 0 < v < B && result + v * Pow(2, bitpos) < TWO_32
    ensures More32([v as Byte] + rest, bitpos, result) == Got(result + v * Pow(2, bitpos), rest)
  {
    SmallPowers();
    hide Pow;
    assert ([v as Byte] + rest)[1..] == rest;
    assert v % B == v;
    Small(result + v * Pow(2, bitpos));
  }

  lemma MoreStep(b: Byte, s: seq<Byte>, bitpos: nat, result: nat)
    requires (b as nat) >= B && bitpos < 32 && result < TWO_32
    ensures More32([b] + s, bitpos, result) == More32(s, bitpos + 7, (result + b as nat % B * Pow(2, bitpos)) % TWO_32)
  {
    assert ([b] + s)[1..] == s;
  }

  lemma Varint32Back(v: nat, rest: seq<Byte>)
    requires v < TWO_32
    ensures Varint32(Varint(v) + rest) == Got(v, rest)
  {
    hide Varint, More32;
    MoreDigits(v);
    if v < B {
      assert ([v as Byte] + rest)[1..] == rest;
    } else {
      SmallPowers();
      hide Pow;
      DigitSum(v, 1);
      More32Back(v / B, 7, v % B, rest);
      assert [WithMore(v)] + Varint(v / B) + rest == [WithMore(v)] + (Varint(v / B) + rest);
      assert ([WithMore(v)] + (Varint(v / B) + rest))[1..] == Varint(v / B) + rest;
      assert WithMore(v) as nat % B == v % B;
    }
  }

  lemma Varint64Back(v: nat, rest: seq<Byte>)
    requires v < TWO_64
    ensures Varint64(Varint(v) + rest) == Got(v, rest)
  {
    hide Varint, GetVarint;
    Pow64();
    VarintBack(v, 64, rest);
  }

  lemma ZigZagBack(v: int)
    requires InInt(v, 8)
    ensures ZigZag(v) < TWO_64 && UnZigZag(ZigZag(v)) == v
  {
    if v < 0 {
      assert Bits64(2 * v) == 2 * v + TWO_64;
    } else {
      assert Bits64(2 * v) == 2 * v;
    }
  }

  lemma BitsBack(v: int)
    requires InInt(v, 8)
    ensures Bits64(v) == if v < 0 then v + TWO_64 else v
    ensures Signed(Bits64(v), TWO_63) == v
    ensures InInt(v, 4) ==> Signed(Bits64(v) % TWO_32, TWO_31) == v
  {
    if v < 0 {
      assert Bits64(v) == v + TWO_64;
      if InInt(v, 4) {
        assert (v + TWO_64) % TWO_32 == v + TWO_32;
      }
    } else {
      assert Bits64(v) == v;
    }
  }

  lemma ChunkBack(s: seq<Byte>, rest: seq<Byte>)
    requires |s| < TWO_32
    ensures Chunk(Prefixed(s) + rest) == Got(s, rest)
  {
    hide Varint, Varint32;
    Varint32Back(|s|, s + rest);
    Assoc(Varint(|s|), s, rest);
    assert (s + rest)[..|s|] == s && (s + rest)[|s|..] == rest;
  }

  // --------------------------------------------------------------------- items

  lemma NumberBack(f: Field, d: Datum, rest: seq<Byte>, prior: Datum)
    requires f.ltype.Bool? || f.ltype.Int? || f.ltype.UInt? || f.ltype.SInt?
    requires ItemStored(f, d) && EncodeItem(f, d).Done?
    ensures DecodeItem(f, EncodeItem(f, d).bytes + rest, prior) == Got(d, rest)
  {
    hide Varint, Varint32, Varint64, ZigZag, Bits64, UnZigZag;
    match f.ltype
    case Bool => Varint32Back(if d.v != 0 then 1 else 0, rest);
    case Int =>
      BitsBack(d.v);
      Varint64Back(Bits64(d.v), rest);
    case SInt =>
      ZigZagBack(d.v);
      Varint64Back(ZigZag(d.v), rest);
    case UInt =>
      BitsOf(d.v);
      Varint64Back(Bits64(d.v), rest);
  }

  lemma BitsOf(v: nat)
    requires v < TWO_64
    ensures Bits64(v) == v
  {}

  lemma FixedItemBack(f: Field, d: Datum, rest: seq<Byte>, prior: Datum)
    requires f.ltype.Fixed32? || f.ltype.Fixed64?
    requires ItemStored(f, d)
    ensures EncodeItem(f, d).Done? && DecodeItem(f, EncodeItem(f, d).bytes + rest, prior) == Got(d, rest)
  {
    hide Fixed, FixedValue, Bits64;
    FixedPowers();
    var n := if f.ltype.Fixed32? then 4 else 8;
    if n == 8 {
      BitsOf(d.v);
    } else {
      Small(d.v);
    }
    var b := Fixed(d.v, n);
    FixedBack(d.v, n);
    assert (b + rest)[..n] == b && (b + rest)[n..] == rest;
  }

  lemma FixedPowers()
    ensures Pow(256, 4) == TWO_32 && Pow(256, 8) == TWO_64
  {
    assert Pow(256, 4) == 256 * Pow(256, 3) == 256 * 256 * Pow(256, 2);
    assert Pow(256, 2) == 256 * Pow(256, 1) == 256 * 256;
    assert Pow(256, 8) == 256 * Pow(256, 7) == 256 * 256 * Pow(256, 6);
    assert Pow(256, 6) == 256 * Pow(256, 5) == 256 * 256 * Pow(256, 4);
  }

  lemma BufferBack(f: Field, d: Datum, rest: seq<Byte>, prior: Datum) returns (e: Datum)
    requires f.ltype.Bytes? || f.ltype.String? || f.ltype.FixedLengthBytes?
    requires ItemStored(f, d) && EncodeItem(f, d).Done? && |EncodeItem(f, d).bytes| < TWO_32
    ensures DecodeItem(f, EncodeItem(f, d).bytes + rest, prior) == Got(e, rest) && SameItem(f, d, e)
  {
    hide Varint, Chunk;
    match f.ltype
    case Bytes =>
      ChunkBack(d.bytes, rest);
      e := d;
    case String =>
      var text := Text(d.bytes);
      ChunkBack(text, rest);
      e := Raw(text + [0] + Tail(prior, |text| + 1, f.dataSize));
      TextOf(text, Tail(prior, |text| + 1, f.dataSize));
    case FixedLengthBytes =>
      ChunkBack(d.bytes, rest);
      e := Raw(if d.bytes == [] then Zeros(f.dataSize) else d.bytes);
      assert d.bytes == [] ==> Zeros(f.dataSize) == d.bytes;
  }

  /** A string comes back if and only if its terminator is inside its buffer. */
  lemma StringBack(f: Field, d: Datum, rest: seq<Byte>, prior: Datum)
    requires f.ltype.String? && d.Raw? && |d.bytes| == f.dataSize < TWO_32
    ensures EncodeItem(f, d).Done?
    ensures DecodeItem(f, EncodeItem(f, d).bytes + rest, prior).Got? <==> 0 in d.bytes
  {
    hide Varint, Chunk;
    ChunkBack(Text(d.bytes), rest);
    assert |Text(d.bytes)| == |d.bytes| ==> Text(d.bytes) == d.bytes;
  }

  // -------------------------------------------------------- a message, field by field

  /** A member of the union j is in, among the first i fields, is the one that is set. */
  ghost predicate Chosen(fields: seq<Field>, src: Memory, i: nat, j: nat)
    requires j < |fields|
  {
    exists k: nat :: k < i && SameUnion(fields, j, k) && fields[k].tag == Size(src, SizeAt(fields, j))
  }

  /** Field j of what is decoded, when the encodings of the first i fields have been read. */
  ghost predicate FieldUpto(fields: seq<Field>, src: Memory, i: nat, j: nat, m: Memory)
    requires j < |fields|
  {
    if fields[j].htype.Oneof? then
      var w := Size(src, SizeAt(fields, j));
      && Size(m, SizeAt(fields, j)) == (if Chosen(fields, src, i, j) then w else 0)
      && (j < i && w == fields[j].tag ==> SameItem(fields[j], Load(src, DataAt(fields, j), 1)[0], Load(m, DataAt(fields, j), 1)[0]))
    else if j < i then SameField(fields, j, src, m)
    else FreshField(fields, j, m)
  }

  ghost predicate SeenUpto(fields: seq<Field>, i: nat, seen: set<nat>)
    requires i <= |fields|
  {
    forall k :: 0 <= k < RequiredBefore(fields, i) && k < MAX_REQUIRED ==> k in seen
  }

  ghost predicate Upto(fields: seq<Field>, src: Memory, i: nat, p: Progress)
    requires i <= |fields|
  {
    && (forall j :: 0 <= j < |fields| ==> FieldUpto(fields, src, i, j, p.mem))
    && p.fixedField < i && Complete(fields, p) && SeenUpto(fields, i, p.seen)
  }

  /** Two memories that differ in field i only. */
  ghost predicate Agree(fields: seq<Field>, i: nat, m: Memory, n: Memory)
    requires i < |fields|
  {
    && (forall at, c: nat {:trigger Load(n, at, c)} :: at != DataAt(fields, i) ==> Load(n, at, c) == Load(m, at, c))
    && (forall at {:trigger Size(n, at)} :: at != SizeAt(fields, i) || fields[i].sizeOffset == 0 ==> Size(n, at) == Size(m, at))
  }

  lemma Kept(fields: seq<Field>, src: Memory, i: nat, j: nat, m: Memory, n: Memory)
    requires WellFormed(fields) && i < |fields| && j < |fields| && i != j
    requires FieldUpto(fields, src, i, j, m) && Agree(fields, i, m, n)
    requires fields[i].htype.Oneof? ==> Size(n, SizeAt(fields, i)) == Size(src, SizeAt(fields, i)) == fields[i].tag
    ensures FieldUpto(fields, src, i + 1, j, n)
  {
    hide WellFormed, DataAt, SizeAt, SameItem, FreshItem, FieldFormed, Load, Size;
    Places(fields, i, j);
    Places(fields, j, i);
    FormedOneof(fields);
    if fields[j].htype.Oneof? && SameUnion(fields, j, i) {
      assert Chosen(fields, src, i + 1, j);
    } else if fields[j].htype.Oneof? {
      assert Chosen(fields, src, i, j) <==> Chosen(fields, src, i + 1, j);
    }
  }

  lemma FormedOneof(fields: seq<Field>)
    requires WellFormed(fields)
    ensures forall i :: 0 <= i < |fields| && fields[i].htype.Oneof? ==> fields[i].sizeOffset != 0
  {
    assert forall i :: 0 <= i < |fields| ==> FieldFormed(fields[i]);
  }

  /** A field that is not encoded, read as nothing. */
  lemma Absent(fields: seq<Field>, src: Memory, i: nat, p: Progress)
    requires WellFormed(fields) && i < |fields| && FieldStored(fields, i, src) && Upto(fields, src, i, p)
    requires if fields[i].htype.Repeated? then CountOf(fields, i, src) == 0 else !Present(fields, i, src)
    ensures Upto(fields, src, i + 1, p)
  {
    hide WellFormed, DataAt, SizeAt, SameItem, FreshItem, FieldFormed, Load, Size, IsZero, ItemStored;
    Places(fields, i, i);
    FormedOneof(fields);
    assert FieldUpto(fields, src, i, i, p.mem);
    var next := i + 1;
    forall j | 0 <= j < |fields| ensures FieldUpto(fields, src, next, j, p.mem) {
      assert FieldUpto(fields, src, i, j, p.mem);
      if fields[j].htype.Oneof? {
        assert Chosen(fields, src, i, j) <==> Chosen(fields, src, i + 1, j);
      } else if j == i {
        AbsentField(fields, src, i, p.mem);
      }
    }
  }

  lemma {:induction false} AbsentField(fields: seq<Field>, src: Memory, i: nat, m: Memory)
    requires WellFormed(fields) && i < |fields| && FieldStored(fields, i, src) && FreshField(fields, i, m) && !fields[i].htype.Oneof?
    requires if fields[i].htype.Repeated? then CountOf(fields, i, src) == 0 else !Present(fields, i, src)
    ensures SameField(fields, i, src, m)
    decreases fields, 0
  {
    hide WellFormed, DataAt, SizeAt, SameItem, FreshItem, Load, Size, IsZero, ItemStored;
    Places(fields, i, i);
    var f := fields[i];
    if f.htype.Optional? && f.sizeOffset == 0 {
      var at := DataAt(fields, i);
      ZeroSame(f, Load(src, at, 1)[0], Load(m, at, 1)[0]);
    }
  }

  /** Two items with the value proto3 leaves out. */
  lemma {:induction false} ZeroSame(f: Field, a: Datum, b: Datum)
    requires FieldFormed(f) && !f.ptr.Default? && IsZero(f, a) && ItemStored(f, a) && FreshItem(f, b)
    ensures SameItem(f, a, b)
    decreases f, 0
  {
    hide WellFormed, Stored, Same, Fresh;
    if f.ltype.Submessage? {
      AllDefaultSame(f.ptr.fields, a.mem, b.mem);
    }
  }

  lemma {:induction false} AllDefaultSame(fields: seq<Field>, a: Memory, b: Memory)
    requires WellFormed(fields) && AllDefault(fields, a, 0) && Stored(fields, a) && Fresh(fields, b)
    ensures Same(fields, a, b)
    decreases fields, 1
  {
    hide WellFormed, DataAt, SizeAt, SameItem, FreshItem, FieldFormed, Load, Size, IsZero, ItemStored, FreshField,
      SameField, FieldStored, IsDefault;
    forall i | 0 <= i < |fields| ensures SameField(fields, i, a, b) {
      DefaultAt(fields, a, 0, i);
      DefaultSame(fields, i, a, b);
    }
  }

  lemma {:induction false} DefaultAt(fields: seq<Field>, m: Memory, from: nat, i: nat)
    requires from <= i < |fields| && AllDefault(fields, m, from)
    ensures IsDefault(fields, i, m)
    decreases i - from
  {
    hide IsDefault;
    if from < i {
      DefaultAt(fields, m, from + 1, i);
    }
  }

  lemma {:induction false} DefaultSame(fields: seq<Field>, i: nat, a: Memory, b: Memory)
    requires WellFormed(fields) && i < |fields| && IsDefault(fields, i, a) && FieldStored(fields, i, a) && FreshField(fields, i, b)
    ensures SameField(fields, i, a, b)
    decreases fields, 0
  {
    hide WellFormed, DataAt, SizeAt, SameItem, FreshItem, Load, Size, IsZero, ItemStored;
    Places(fields, i, i);
    Tags(fields, i);
    var f := fields[i];
    if f.htype.Optional? && f.sizeOffset == 0 {
      var at := DataAt(fields, i);
      ZeroSame(f, Load(a, at, 1)[0], Load(b, at, 1)[0]);
    }
  }

  // ------------------------------------------------------------- what is left out

  lemma TagIsThere(wire: nat, tag: nat, s: seq<Byte>)
    ensures Tag(wire, tag) + s != []
  {
    MoreDigits(8 * tag + wire);
  }

  lemma TaggedIsThere(f: Field, ds: seq<Datum>)
    requires ds != []
    ensures EncodeTagged(f, ds) != Done([])
  {
    hide EncodeItem, Tag;
    if EncodeTagged(f, ds).Done? {
      TagIsThere(WireType(f.ltype), f.tag, EncodeItem(f, ds[0]).bytes);
    }
  }

  lemma ArraySilent(f: Field, ds: seq<Datum>, count: nat)
    requires |ds| == f.arraySize
    ensures EncodeArray(f, ds, count) == Done([]) <==> count == 0
  {
    hide EncodeItems, EncodeTagged, Tag, Prefixed;
    if 0 < count <= f.arraySize {
      TaggedIsThere(f, ds[..count]);
      if EncodeItems(f, ds[..count]).Done? {
        TagIsThere(2, f.tag, Prefixed(EncodeItems(f, ds[..count]).bytes));
      }
    }
  }

  lemma BothSilent(a: Encoded, b: Encoded)
    ensures Then(a, b) == Done([]) <==> a == Done([]) && b == Done([])
  {
    if Then(a, b) == Done([]) {
      assert |a.bytes + b.bytes| == 0;
    }
  }

  /** A field with the value that is not encoded is not encoded; of those that need no look at others the converse. */
  lemma SilentField(fields: seq<Field>, i: nat, m: Memory)
    requires WellFormed(fields) && i < |fields|
    requires fields[i].htype.Repeated? && fields[i].sizeOffset == 0 ==> fields[i].arraySize > 0
    ensures IsDefault(fields, i, m) ==> EncodeField(fields, i, m) == Done([])
    ensures !fields[i].htype.Oneof? && EncodeField(fields, i, m) == Done([]) ==> IsDefault(fields, i, m)
    ensures EncodeField(fields, i, m) == Done([]) && !fields[i].htype.Repeated? ==> !Present(fields, i, m)
  {
    hide WellFormed, DataAt, SizeAt, Load, Size, IsZero, EncodeItem, EncodeArray, Tag;
    Tags(fields, i);
    Places(fields, i, i);
    var f := fields[i];
    if f.htype.Repeated? {
      ArraySilent(f, Load(m, DataAt(fields, i), f.arraySize), CountOf(fields, i, m));
    } else {
      var e := EncodeItem(f, Load(m, DataAt(fields, i), 1)[0]);
      if e.Done? {
        TagIsThere(WireType(f.ltype), f.tag, e.bytes);
      }
    }
  }

  ghost predicate Silent(fields: seq<Field>, i: nat, m: Memory)
    requires i < |fields|
  {
    EncodeField(fields, i, m) == Done([])
  }

  lemma {:induction false} SilentFrom(fields: seq<Field>, m: Memory, i: nat)
    requires i <= |fields|
    ensures EncodeFrom(fields, m, i) == Done([]) <==> forall k :: i <= k < |fields| ==> Silent(fields, k, m)
    decreases |fields| - i
  {
    if i < |fields| {
      SilentFrom(fields, m, i + 1);
      BothSilent(EncodeField(fields, i, m), EncodeFrom(fields, m, i + 1));
      assert Silent(fields, i, m) <==> EncodeField(fields, i, m) == Done([]);
      hide EncodeField, Silent;
    }
  }

  lemma {:induction false} DefaultFrom(fields: seq<Field>, m: Memory, i: nat)
    requires i <= |fields| && forall k :: i <= k < |fields| ==> IsDefault(fields, k, m)
    ensures AllDefault(fields, m, i)
    decreases |fields| - i
  {
    hide IsDefault;
    if i < |fields| {
      DefaultFrom(fields, m, i + 1);
    }
  }

  /** A message is all default if and only if it encodes to nothing. */
  lemma DefaultIsEmpty(fields: seq<Field>, m: Memory)
    requires WellFormed(fields) && Stored(fields, m) && NoEmptyArrays(fields)
    ensures AllDefault(fields, m, 0) <==> EncodeFrom(fields, m, 0) == Done([])
  {
    hide WellFormed, EncodeField, EncodeFrom, IsDefault, FieldStored, AllDefault;
    SilentFrom(fields, m, 0);
    forall k: nat | k < |fields|
      ensures IsDefault(fields, k, m) ==> Silent(fields, k, m)
      ensures EncodeFrom(fields, m, 0) == Done([]) ==> IsDefault(fields, k, m)
    {
      SilentField(fields, k, m);
      if EncodeFrom(fields, m, 0) == Done([]) {
        assert Silent(fields, k, m);
        if fields[k].htype.Oneof? {
          SilentUnion(fields, k, m);
        }
      }
    }
    if AllDefault(fields, m, 0) {
      forall k: nat | k < |fields| ensures Silent(fields, k, m) {
        DefaultAt(fields, m, 0, k);
      }
    } else if EncodeFrom(fields, m, 0) == Done([]) {
      DefaultFrom(fields, m, 0);
    }
  }

  lemma SilentUnion(fields: seq<Field>, i: nat, m: Memory)
    requires WellFormed(fields) && i < |fields| && FieldStored(fields, i, m) && fields[i].htype.Oneof?
    requires forall k :: 0 <= k < |fields| ==> Silent(fields, k, m)
    ensures IsDefault(fields, i, m)
  {
    hide WellFormed, EncodeField, DataAt, SizeAt, Load, Size, ItemStored, FieldFormed;
    Places(fields, i, i);
    var size := Size(m, SizeAt(fields, i));
    if size != 0 {
      var j: nat :| SameUnion(fields, i, j) && fields[j].tag == size;
      Places(fields, j, j);
      assert Silent(fields, j, m);
      SilentField(fields, j, m);
    }
  }

  /** Zero, empty, or a submessage that would encode to nothing. */
  ghost predicate Blank(f: Field, d: Datum) {
    match f.ltype
    case Bytes => d == Raw([])
    case String => d.Raw? && (d.bytes == [] || d.bytes[0] == 0)
    case FixedLengthBytes => d == Raw([])
    case Submessage => d.Msg? && f.ptr.Fields? && EncodeFrom(f.ptr.fields, d.mem, 0) == Done([])
    case _ => d == Num(0)
  }

  ghost predicate NoEmptyArrays(fields: seq<Field>) {
    forall k :: 0 <= k < |fields| && fields[k].htype.Repeated? && fields[k].sizeOffset == 0 ==> fields[k].arraySize > 0
  }

  lemma ZeroIsBlank(f: Field, d: Datum)
    requires FieldFormed(f) && ItemStored(f, d) && (f.ptr.Fields? ==> NoEmptyArrays(f.ptr.fields))
    ensures IsZero(f, d) <==> Blank(f, d)
  {
    hide WellFormed, Stored, EncodeFrom, AllDefault, NoEmptyArrays;
    if f.ltype.Submessage? {
      DefaultIsEmpty(f.ptr.fields, d.mem);
    }
  }

  /** A proto3 field is left out exactly when it is blank. */
  lemma LeftOutExactly(fields: seq<Field>, i: nat, m: Memory)
    requires WellFormed(fields) && i < |fields| && FieldStored(fields, i, m)
    requires fields[i].htype.Optional? && fields[i].sizeOffset == 0
    requires fields[i].ptr.Fields? ==> NoEmptyArrays(fields[i].ptr.fields)
    ensures EncodeField(fields, i, m) == Done([]) <==> Blank(fields[i], Load(m, DataAt(fields, i), 1)[0])
  {
    hide WellFormed, DataAt, SizeAt, Load, EncodeField, ItemStored, FieldFormed, Blank, IsZero, NoEmptyArrays;
    Places(fields, i, i);
    SilentField(fields, i, m);
    ZeroIsBlank(fields[i], Load(m, DataAt(fields, i), 1)[0]);
  }

  lemma Tags(fields: seq<Field>, i: nat)
    requires WellFormed(fields) && i < |fields|
    ensures 0 < fields[i].tag < 0x2000_0000 && Find(fields, fields[i].tag) == i
  {
    Places(fields, i, i);
    var k := Find(fields, fields[i].tag);
    assert k >= 0;
    assert fields[k].tag == fields[i].tag;
  }

  /** One tag and what follows it. */
  lemma OneStep(fields: seq<Field>, i: nat, wire: nat, x: seq<Byte>, p: Progress)
    requires WellFormed(fields) && i < |fields| && wire < 8 && p.fixedField < |fields|
    ensures DecodeFields(fields, Tag(wire, fields[i].tag) + x, p) ==
            match Enter(fields, i, p)
            case Nothing => Fail
            case Just(q) =>
              match DecodeField(fields, i, wire, x, q)
              case Fail => Fail
              case Got(p', rest) => DecodeFields(fields, rest, p')
  {
    hide WellFormed, Varint, Varint32, DecodeField, Enter;
    Tags(fields, i);
    var key := 8 * fields[i].tag + wire;
    Varint32Back(key, x);
    assert key / 8 == fields[i].tag && key % 8 == wire;
    assert Varint(key) != [] by { MoreDigits(key); }
  }

  // ------------------------------------------------------------------ the theorem

  /** One item is read back, over any item or, for a submessage that is not an array's, over a fresh one. */
  lemma {:induction false} ItemBack(f: Field, d: Datum, rest: seq<Byte>, prior: Datum) returns (e: Datum)
    requires FieldFormed(f) && ItemStored(f, d) && EncodeItem(f, d).Done? && |EncodeItem(f, d).bytes| < TWO_32
    requires f.ltype.Submessage? && !f.htype.Repeated? ==> FreshItem(f, prior)
    ensures DecodeItem(f, EncodeItem(f, d).bytes + rest, prior) == Got(e, rest) && SameItem(f, d, e)
    decreases f, 1
  {
    if f.ltype.Submessage? {
      e := SubmessageBack(f, d, rest, prior);
    } else if f.ltype.Fixed32? || f.ltype.Fixed64? {
      FixedItemBack(f, d, rest, prior);
      e := d;
    } else if f.ltype.Bytes? || f.ltype.String? || f.ltype.FixedLengthBytes? {
      e := BufferBack(f, d, rest, prior);
    } else {
      NumberBack(f, d, rest, prior);
      e := d;
    }
  }

  lemma {:induction false} SubmessageBack(f: Field, d: Datum, rest: seq<Byte>, prior: Datum) returns (e: Datum)
    requires f.ltype.Submessage?
    requires FieldFormed(f) && ItemStored(f, d) && EncodeItem(f, d).Done? && |EncodeItem(f, d).bytes| < TWO_32
    requires !f.htype.Repeated? ==> FreshItem(f, prior)
    ensures DecodeItem(f, EncodeItem(f, d).bytes + rest, prior) == Got(e, rest) && SameItem(f, d, e)
    decreases f, 0
  {
    hide Varint, Chunk, EncodeFrom, DecodeMessage, WellFormed, Stored, Same, Fresh;
    var body := EncodeFrom(f.ptr.fields, d.mem, 0).bytes;
    ChunkBack(body, rest);
    var start := if f.htype.Repeated? then Defaults(f.ptr.fields, MemOf(prior), 0) else MemOf(prior);
    if f.htype.Repeated? {
      DefaultsFresh(f.ptr.fields, MemOf(prior), 0);
    }
    var m := MessageBack(f.ptr.fields, d.mem, start);
    e := Msg(m);
  }

  lemma {:induction false} MessageBack(fields: seq<Field>, src: Memory, start: Memory) returns (m: Memory)
    requires WellFormed(fields) && Stored(fields, src) && Fresh(fields, start)
    requires EncodeFrom(fields, src, 0).Done? && |EncodeFrom(fields, src, 0).bytes| < TWO_32
    ensures DecodeMessage(fields, EncodeFrom(fields, src, 0).bytes, start) == Got(m, []) && Same(fields, src, m)
    decreases fields, |fields| + 10
  {
    hide EncodeFrom, DecodeFields, WellFormed, Stored, Same, Fresh, Upto, RequiredBefore;
    var p := Progress(start, -1, 0, {});
    FreshUpto(fields, src, p);
    var q := FieldsBack(fields, src, 0, p);
    UptoAll(fields, src, q);
    m := q.mem;
  }

  lemma FreshUpto(fields: seq<Field>, src: Memory, p: Progress)
    requires WellFormed(fields) && Fresh(fields, p.mem) && p.fixedField == -1
    ensures Upto(fields, src, 0, p)
  {
    hide WellFormed, DataAt, SizeAt, SameItem, FreshItem, FieldFormed, Load, Size;
    FormedOneof(fields);
    forall j | 0 <= j < |fields| ensures FieldUpto(fields, src, 0, j, p.mem) {
      assert FreshField(fields, j, p.mem);
    }
  }

  lemma UptoAll(fields: seq<Field>, src: Memory, p: Progress)
    requires WellFormed(fields) && Stored(fields, src) && Upto(fields, src, |fields|, p)
    ensures Same(fields, src, p.mem) && Complete(fields, p) && AllSeen(p.seen, Tracked(fields))
  {
    hide WellFormed, DataAt, SizeAt, SameItem, FieldFormed, Load, Size, ItemStored, RequiredBefore;
    forall j | 0 <= j < |fields| ensures SameField(fields, j, src, p.mem) {
      assert FieldUpto(fields, src, |fields|, j, p.mem) && FieldStored(fields, j, src);
      Tags(fields, j);
    }
  }

  lemma {:induction false} FieldsBack(fields: seq<Field>, src: Memory, i: nat, p: Progress) returns (q: Progress)
    requires WellFormed(fields) && Stored(fields, src) && i <= |fields| && Upto(fields, src, i, p)
    requires EncodeFrom(fields, src, i).Done? && |EncodeFrom(fields, src, i).bytes| < TWO_32
    ensures q.fixedField < |fields|
    ensures DecodeFields(fields, EncodeFrom(fields, src, i).bytes, p) == Got(q, []) && Upto(fields, src, |fields|, q)
    decreases fields, |fields| - i + 5
  {
    hide WellFormed, EncodeField;
    if i == |fields| {
      q := p;
    } else {
      assert FieldStored(fields, i, src);
      hide Stored, FieldStored, DecodeFields, Upto;
      UptoBounds(fields, src, i, p);
      var tail := EncodeFrom(fields, src, i + 1).bytes;
      var next := Advance(fields, src, i, p, tail);
      q := FieldsBack(fields, src, i + 1, next);
    }
  }

  lemma UptoBounds(fields: seq<Field>, src: Memory, i: nat, p: Progress)
    requires i <= |fields| && Upto(fields, src, i, p)
    ensures p.fixedField < i
  {}

  /** Reading the encoding of one field, whatever follows it. */
  lemma {:induction false} Advance(fields: seq<Field>, src: Memory, i: nat, p: Progress, tail: seq<Byte>)
    returns (q: Progress)
    requires WellFormed(fields) && i < |fields| && FieldStored(fields, i, src) && Upto(fields, src, i, p)
    requires EncodeField(fields, i, src).Done? && |EncodeField(fields, i, src).bytes| < TWO_32
    ensures Upto(fields, src, i + 1, q) && p.fixedField < i && q.fixedField < i + 1
    ensures q.seen <= WithSeen(fields, i, p.seen)
    ensures DecodeFields(fields, EncodeField(fields, i, src).bytes + tail, p) == DecodeFields(fields, tail, q)
    decreases fields, 4
  {
    hide WellFormed, FieldStored, DecodeFields, EncodeItem, EncodeItems, EncodeTagged, Present, DataAt, SizeAt, Load,
      Size, Upto;
    UptoBounds(fields, src, i, p);
    var f := fields[i];
    assert [] + tail == tail;
    if if f.htype.Repeated? then CountOf(fields, i, src) == 0 else !Present(fields, i, src) {
      Absent(fields, src, i, p);
      q := p;
    } else if !f.htype.Repeated? {
      q := SingleBack(fields, src, i, p, tail);
    } else if Packable(f.ltype) {
      q := PackedBack(fields, src, i, p, tail);
    } else {
      q := ArrayBack(fields, src, i, p, tail);
    }
    UptoBounds(fields, src, i + 1, q);
  }

  // ------------------------------------------------------- a field that is not an array

  /** What the item of a field is read over. */
  function Start(fields: seq<Field>, i: nat, m: Memory): Datum
    requires i < |fields|
  {
    var f := fields[i];
    if f.htype.Oneof? && f.ltype.Submessage? && Size(m, SizeAt(fields, i)) != f.tag then InitItem(f, Msg(NOWHERE))
    else Load(m, DataAt(fields, i), 1)[0]
  }

  function WithFlag(fields: seq<Field>, i: nat, m: Memory): Memory
    requires i < |fields|
  {
    match fields[i].htype
    case Optional => if SizeAt(fields, i) != DataAt(fields, i) then SetSize(m, SizeAt(fields, i), 1) else m
    case Oneof => SetSize(m, SizeAt(fields, i), fields[i].tag)
    case _ => m
  }

  function WithSeen(fields: seq<Field>, i: nat, seen: set<nat>): set<nat>
    requires i < |fields|
  {
    if fields[i].htype.Required? && RequiredBefore(fields, i) < MAX_REQUIRED then seen + {RequiredBefore(fields, i)} else seen
  }

  /** Where a field that is not an array leaves off. */
  function Filled(fields: seq<Field>, i: nat, p: Progress, e: Datum): Progress
    requires i < |fields|
  {
    p.(mem := Store(WithFlag(fields, i, p.mem), DataAt(fields, i), [e]), seen := WithSeen(fields, i, p.seen))
  }

  lemma StartFresh(fields: seq<Field>, src: Memory, i: nat, p: Progress)
    requires WellFormed(fields) && i < |fields| && Upto(fields, src, i, p) && !fields[i].htype.Repeated? && Present(fields, i, src)
    ensures FieldFormed(fields[i])
    ensures fields[i].ltype.Submessage? ==> FreshItem(fields[i], Start(fields, i, p.mem))
  {
    hide WellFormed, DataAt, SizeAt, SameItem, FreshItem, FieldFormed, Load, Size, InitItem;
    Places(fields, i, i);
    assert FieldUpto(fields, src, i, i, p.mem);
    InitFresh(fields[i], Msg(NOWHERE));
    forall k: nat | k < i ensures fields[k].tag != fields[i].tag {
      Places(fields, i, k);
    }
    Tags(fields, i);
  }

  lemma ReadSingle(fields: seq<Field>, i: nat, wire: nat, x: seq<Byte>, p: Progress, e: Datum, rest: seq<Byte>)
    requires i < |fields| && p.fixedField < |fields| && !fields[i].htype.Repeated?
    requires DecodeItem(fields[i], x, Start(fields, i, p.mem)) == Got(e, rest)
    ensures Enter(fields, i, p) == Just(p.(seen := WithSeen(fields, i, p.seen)))
    ensures DecodeField(fields, i, wire, x, p.(seen := WithSeen(fields, i, p.seen))) == Got(Filled(fields, i, p, e), rest)
  {
    hide DecodeItem, DataAt, SizeAt, Load, Size, InitItem, RequiredBefore;
  }

  lemma FilledUpto(fields: seq<Field>, src: Memory, i: nat, p: Progress, e: Datum)
    requires WellFormed(fields) && i < |fields| && Upto(fields, src, i, p) && !fields[i].htype.Repeated? && Present(fields, i, src)
    requires SameItem(fields[i], Load(src, DataAt(fields, i), 1)[0], e)
    ensures Upto(fields, src, i + 1, Filled(fields, i, p, e)) && Filled(fields, i, p, e).seen <= WithSeen(fields, i, p.seen)
  {
    hide WellFormed, DataAt, SizeAt, SameItem, FreshItem, FieldFormed, IsDefault;
    Places(fields, i, i);
    FormedOneof(fields);
    var q, next := Filled(fields, i, p, e), i + 1;
    assert Load(q.mem, DataAt(fields, i), 1)[0] == e;
    if fields[i].htype.Oneof? {
      assert SameUnion(fields, i, i);
      assert Chosen(fields, src, next, i);
    }
    forall j | 0 <= j < |fields| ensures FieldUpto(fields, src, next, j, q.mem) {
      assert FieldUpto(fields, src, i, j, p.mem);
      if j != i {
        Kept(fields, src, i, j, p.mem, q.mem);
      }
    }
  }

  lemma {:induction false} SingleBack(fields: seq<Field>, src: Memory, i: nat, p: Progress, tail: seq<Byte>)
    returns (q: Progress)
    requires WellFormed(fields) && i < |fields| && FieldStored(fields, i, src) && Upto(fields, src, i, p)
    requires !fields[i].htype.Repeated? && Present(fields, i, src)
    requires EncodeField(fields, i, src).Done? && |EncodeField(fields, i, src).bytes| < TWO_32
    ensures Upto(fields, src, i + 1, q) && p.fixedField < i && q.fixedField < i + 1
    ensures q.seen <= WithSeen(fields, i, p.seen)
    ensures DecodeFields(fields, EncodeField(fields, i, src).bytes + tail, p) == DecodeFields(fields, tail, q)
    decreases fields, 3
  {
    hide WellFormed, FieldStored, DecodeFields, EncodeItem, DecodeItem, DecodeField, Enter, Present, DataAt, SizeAt, Load,
      Size, Upto, Tag, Filled, WithSeen, Start, SameItem, FreshItem, ItemStored, FieldFormed;
    UptoBounds(fields, src, i, p);
    var f, d := fields[i], Load(src, DataAt(fields, i), 1)[0];
    StartFresh(fields, src, i, p);
    PresentStored(fields, src, i);
    var b := EncodeItem(f, d).bytes;
    var e := ItemBack(f, d, tail, Start(fields, i, p.mem));
    Assoc(TagOf(f), b, tail);
    OneStep(fields, i, WireType(f.ltype), b + tail, p);
    ReadSingle(fields, i, WireType(f.ltype), b + tail, p, e, tail);
    q := Filled(fields, i, p, e);
    FilledUpto(fields, src, i, p, e);
    UptoBounds(fields, src, i + 1, q);
  }

  lemma PresentStored(fields: seq<Field>, src: Memory, i: nat)
    requires WellFormed(fields) && i < |fields| && FieldStored(fields, i, src) && !fields[i].htype.Repeated? && Present(fields, i, src)
    ensures ItemStored(fields[i], Load(src, DataAt(fields, i), 1)[0])
  {
    hide WellFormed, DataAt, SizeAt, ItemStored, IsDefault, FieldFormed, Load, Size;
    Places(fields, i, i);
    assert FieldStored(fields, i, src);
  }

  // ---------------------------------------------------------------------- arrays

  /** The first k items of the array of field i have been read. */
  ghost predicate ArrayUpto(fields: seq<Field>, src: Memory, i: nat, k: nat, p: Progress)
    requires i < |fields|
  {
    var f := fields[i];
    var next := i + 1;
    && (forall j :: 0 <= j < |fields| && j != i ==> FieldUpto(fields, src, next, j, p.mem))
    && SameItems(f, Load(src, DataAt(fields, i), f.arraySize), Load(p.mem, DataAt(fields, i), f.arraySize), k)
    && SeenUpto(fields, i, p.seen)
    && if f.sizeOffset == 0 then (p.fixedField == i && p.fixedSize == k) || (k == 0 && p.fixedField < i && Complete(fields, p))
       else Size(p.mem, SizeAt(fields, i)) == k && p.fixedField < i && Complete(fields, p)
  }

  lemma KeptBeside(fields: seq<Field>, src: Memory, h: nat, i: nat, j: nat, m: Memory, n: Memory)
    requires WellFormed(fields) && i < |fields| && j < |fields| && i != j && fields[i].htype.Repeated?
    requires FieldUpto(fields, src, h, j, m) && Agree(fields, i, m, n)
    ensures FieldUpto(fields, src, h, j, n)
  {
    hide WellFormed, DataAt, SizeAt, SameItem, FreshItem, FieldFormed, Load, Size;
    Places(fields, i, j);
    Places(fields, j, i);
    FormedOneof(fields);
  }

  lemma ArrayStarts(fields: seq<Field>, src: Memory, i: nat, p: Progress)
    requires WellFormed(fields) && i < |fields| && fields[i].htype.Repeated? && Upto(fields, src, i, p)
    ensures ArrayUpto(fields, src, i, 0, p)
  {
    hide WellFormed, DataAt, SizeAt, SameItem, FreshItem, FieldFormed, Load, Size;
    assert FieldUpto(fields, src, i, i, p.mem);
    var next := i + 1;
    forall j | 0 <= j < |fields| && j != i ensures FieldUpto(fields, src, next, j, p.mem) {
      assert FieldUpto(fields, src, i, j, p.mem);
      Kept(fields, src, i, j, p.mem, p.mem);
    }
  }

  lemma ArrayEnds(fields: seq<Field>, src: Memory, i: nat, p: Progress)
    requires WellFormed(fields) && i < |fields| && fields[i].htype.Repeated? && 0 < CountOf(fields, i, src)
    requires ArrayUpto(fields, src, i, CountOf(fields, i, src), p)
    ensures Upto(fields, src, i + 1, p)
  {
    hide WellFormed, DataAt, SizeAt, SameItem, FreshItem, FieldFormed, Load, Size;
    Places(fields, i, i);
    var next := i + 1;
    forall j | 0 <= j < |fields| ensures FieldUpto(fields, src, next, j, p.mem) {}
  }

  /** The memory and counts once the items of field i have become these. */
  function Grown(fields: seq<Field>, i: nat, p: Progress, items: seq<Datum>, k: nat): Progress
    requires i < |fields|
  {
    if fields[i].sizeOffset == 0 then Progress(Store(p.mem, DataAt(fields, i), items), i, k, p.seen)
    else p.(mem := SetSize(Store(p.mem, DataAt(fields, i), items), SizeAt(fields, i), k))
  }

  lemma GrownUpto(fields: seq<Field>, src: Memory, i: nat, k: nat, n: nat, p: Progress, items: seq<Datum>)
    requires WellFormed(fields) && i < |fields| && fields[i].htype.Repeated? && ArrayUpto(fields, src, i, k, p)
    requires |items| == fields[i].arraySize
    requires SameItems(fields[i], Load(src, DataAt(fields, i), fields[i].arraySize), items, n)
    ensures ArrayUpto(fields, src, i, n, Grown(fields, i, p, items, n))
  {
    hide WellFormed, DataAt, SizeAt, SameItem, FreshItem, FieldFormed;
    Places(fields, i, i);
    var q, next := Grown(fields, i, p, items, n), i + 1;
    assert Load(q.mem, DataAt(fields, i), fields[i].arraySize) == items;
    forall j | 0 <= j < |fields| && j != i ensures FieldUpto(fields, src, next, j, q.mem) {
      assert FieldUpto(fields, src, next, j, p.mem);
      KeptBeside(fields, src, next, i, j, p.mem, q.mem);
    }
  }

  /** Reading more of the array, from its tag on. */
  lemma ReadArray(fields: seq<Field>, src: Memory, i: nat, k: nat, wire: nat, x: seq<Byte>, p: Progress, items: seq<Datum>, n: nat, rest: seq<Byte>)
    requires WellFormed(fields) && i < |fields| && fields[i].htype.Repeated? && ArrayUpto(fields, src, i, k, p)
    requires wire < 8 && p.fixedField < |fields|
    requires DecodeRepeated(fields[i], wire, x, Load(p.mem, DataAt(fields, i), fields[i].arraySize), k) == Got((items, n), rest)
    ensures DecodeFields(fields, Tag(wire, fields[i].tag) + x, p) == DecodeFields(fields, rest, Grown(fields, i, p, items, n))
  {
    hide WellFormed, DataAt, SizeAt, FieldFormed, DecodeRepeated, DecodeFields, Tag, RequiredBefore, FieldUpto, Size,
      SameItems;
    Places(fields, i, i);
    OneStep(fields, i, wire, x, p);
  }

  lemma RepeatedStored(fields: seq<Field>, src: Memory, i: nat, k: nat)
    requires WellFormed(fields) && i < |fields| && FieldStored(fields, i, src) && fields[i].htype.Repeated?
    requires k < CountOf(fields, i, src) && k < fields[i].arraySize
    ensures FieldFormed(fields[i]) && ItemStored(fields[i], Load(src, DataAt(fields, i), fields[i].arraySize)[k])
  {
    hide WellFormed, DataAt, ItemStored, FieldFormed, Load;
    Places(fields, i, i);
    assert FieldStored(fields, i, src);
  }

  lemma {:induction false} ArrayBack(fields: seq<Field>, src: Memory, i: nat, p: Progress, tail: seq<Byte>)
    returns (q: Progress)
    requires WellFormed(fields) && i < |fields| && FieldStored(fields, i, src) && Upto(fields, src, i, p)
    requires fields[i].htype.Repeated? && CountOf(fields, i, src) > 0 && !Packable(fields[i].ltype)
    requires EncodeField(fields, i, src).Done? && |EncodeField(fields, i, src).bytes| < TWO_32
    ensures Upto(fields, src, i + 1, q) && p.fixedField < i && q.fixedField < i + 1
    ensures q.seen <= WithSeen(fields, i, p.seen)
    ensures DecodeFields(fields, EncodeField(fields, i, src).bytes + tail, p) == DecodeFields(fields, tail, q)
    decreases fields, 3
  {
    hide WellFormed, FieldStored, DecodeFields, EncodeTagged, DataAt, SizeAt, Load, Size, Upto, ArrayUpto;
    UptoBounds(fields, src, i, p);
    ArrayStarts(fields, src, i, p);
    var ds := Load(src, DataAt(fields, i), fields[i].arraySize);
    var count := CountOf(fields, i, src);
    assert ds[..count][0..] == ds[..count];
    q := TaggedBack(fields, src, i, 0, p, tail);
    ArrayEnds(fields, src, i, q);
    UptoBounds(fields, src, i + 1, q);
  }

  lemma {:induction false} TaggedBack(fields: seq<Field>, src: Memory, i: nat, k: nat, p: Progress, tail: seq<Byte>)
    returns (q: Progress)
    requires WellFormed(fields) && i < |fields| && FieldStored(fields, i, src) && p.fixedField < i + 1
    requires fields[i].htype.Repeated? && !Packable(fields[i].ltype) && k <= CountOf(fields, i, src) <= fields[i].arraySize
    requires ArrayUpto(fields, src, i, k, p)
    requires var ds := Load(src, DataAt(fields, i), fields[i].arraySize)[..CountOf(fields, i, src)];
             EncodeTagged(fields[i], ds[k..]).Done? && |EncodeTagged(fields[i], ds[k..]).bytes| < TWO_32
    ensures ArrayUpto(fields, src, i, CountOf(fields, i, src), q) && q.fixedField < i + 1
    ensures q.seen == p.seen
    ensures var ds := Load(src, DataAt(fields, i), fields[i].arraySize)[..CountOf(fields, i, src)];
            DecodeFields(fields, EncodeTagged(fields[i], ds[k..]).bytes + tail, p) == DecodeFields(fields, tail, q)
    decreases fields, 2, CountOf(fields, i, src) - k
  {
    hide WellFormed, FieldStored, DecodeFields, EncodeItem, DecodeItem, DataAt, SizeAt, Load, Size, ArrayUpto, Tag,
      CountOf, Grown, SameItem, ItemStored, FieldFormed;
    var f, count := fields[i], CountOf(fields, i, src);
    var ds := Load(src, DataAt(fields, i), f.arraySize)[..count];
    if k == count {
      assert ds[k..] == [];
      assert [] + tail == tail;
      q := p;
    } else {
      assert ds[k..][0] == ds[k] && ds[k..][1..] == ds[k + 1..];
      var b, more := EncodeItem(f, ds[k]).bytes, EncodeTagged(f, ds[k + 1..]).bytes;
      RepeatedStored(fields, src, i, k);
      var items := Load(p.mem, DataAt(fields, i), f.arraySize);
      var e := ItemBack(f, ds[k], more + tail, items[k]);
      Rebracket(TagOf(f), b, more, tail);
      ReadArray(fields, src, i, k, WireType(f.ltype), b + (more + tail), p, items[k := e], k + 1, more + tail);
      OneMoreItem(fields, src, i, k, p, e);
      GrownUpto(fields, src, i, k, k + 1, p, items[k := e]);
      GrownBounds(fields, i, p, items[k := e], k + 1);
      q := TaggedBack(fields, src, i, k + 1, Grown(fields, i, p, items[k := e], k + 1), tail);
    }
  }

  lemma GrownBounds(fields: seq<Field>, i: nat, p: Progress, items: seq<Datum>, k: nat)
    requires i < |fields| && p.fixedField < i + 1
    ensures Grown(fields, i, p, items, k).fixedField < i + 1 && Grown(fields, i, p, items, k).seen == p.seen
  {}

  lemma Rebracket(a: seq<Byte>, b: seq<Byte>, c: seq<Byte>, d: seq<Byte>)
    ensures a + b + c + d == a + (b + (c + d))
  {}

  lemma OneMoreItem(fields: seq<Field>, src: Memory, i: nat, k: nat, p: Progress, e: Datum)
    requires i < |fields| && ArrayUpto(fields, src, i, k, p) && k < fields[i].arraySize
    requires SameItem(fields[i], Load(src, DataAt(fields, i), fields[i].arraySize)[k], e)
    ensures SameItems(fields[i], Load(src, DataAt(fields, i), fields[i].arraySize),
                      Load(p.mem, DataAt(fields, i), fields[i].arraySize)[k := e], k + 1)
  {
    hide SameItem, DataAt, SizeAt, Load, FieldUpto;
  }

  lemma {:induction false} PackedBack(fields: seq<Field>, src: Memory, i: nat, p: Progress, tail: seq<Byte>)
    returns (q: Progress)
    requires WellFormed(fields) && i < |fields| && FieldStored(fields, i, src) && Upto(fields, src, i, p)
    requires fields[i].htype.Repeated? && CountOf(fields, i, src) > 0 && Packable(fields[i].ltype)
    requires EncodeField(fields, i, src).Done? && |EncodeField(fields, i, src).bytes| < TWO_32
    ensures Upto(fields, src, i + 1, q) && p.fixedField < i && q.fixedField < i + 1
    ensures q.seen <= WithSeen(fields, i, p.seen)
    ensures DecodeFields(fields, EncodeField(fields, i, src).bytes + tail, p) == DecodeFields(fields, tail, q)
    decreases fields, 3
  {
    hide WellFormed, FieldStored, DecodeFields, EncodeItems, DecodePacked, DataAt, SizeAt, Load, Size, Upto, ArrayUpto,
      Tag, Varint, Chunk, CountOf, Grown, SameItem, ItemStored, FieldFormed;
    UptoBounds(fields, src, i, p);
    ArrayStarts(fields, src, i, p);
    var f, count := fields[i], CountOf(fields, i, src);
    var all := Load(src, DataAt(fields, i), f.arraySize);
    var ds := all[..count];
    var payload := EncodeItems(f, ds).bytes;
    RepeatedStored(fields, src, i, 0);
    forall k | 0 <= k < count ensures ItemStored(f, ds[k]) {
      RepeatedStored(fields, src, i, k);
    }
    var items := Load(p.mem, DataAt(fields, i), f.arraySize);
    assert ds[0..] == ds;
    var r := PackedItems(f, ds, 0, items);
    ChunkBack(payload, tail);
    Assoc(Tag(2, f.tag), Prefixed(payload), tail);
    ReadArray(fields, src, i, 0, 2, Prefixed(payload) + tail, p, r, count, tail);
    GrownUpto(fields, src, i, 0, count, p, r);
    GrownBounds(fields, i, p, r, count);
    q := Grown(fields, i, p, r, count);
    ArrayEnds(fields, src, i, q);
    UptoBounds(fields, src, i + 1, q);
  }

  lemma {:induction false} PackedItems(f: Field, ds: seq<Datum>, k: nat, items: seq<Datum>) returns (r: seq<Datum>)
    requires FieldFormed(f) && f.htype.Repeated? && k <= |ds| <= f.arraySize && |items| == f.arraySize
    requires forall j :: 0 <= j < |ds| ==> ItemStored(f, ds[j])
    requires EncodeItems(f, ds[k..]).Done? && |EncodeItems(f, ds[k..]).bytes| < TWO_32
    requires SameItems(f, ds, items, k)
    ensures |r| == f.arraySize && DecodePacked(f, EncodeItems(f, ds[k..]).bytes, items, k) == Just((r, |ds|))
    ensures SameItems(f, ds, r, |ds|)
    decreases f, 2, |ds| - k
  {
    hide EncodeItem, DecodeItem, SameItem, ItemStored, FieldFormed;
    if k == |ds| {
      assert ds[k..] == [];
      r := items;
    } else {
      assert ds[k..][0] == ds[k] && ds[k..][1..] == ds[k + 1..];
      var b, more := EncodeItem(f, ds[k]).bytes, EncodeItems(f, ds[k + 1..]).bytes;
      var e := ItemBack(f, ds[k], more, items[k]);
      assert b + more != [];
      r := PackedItems(f, ds, k + 1, items[k := e]);
    }
  }

  /**
   * A message that pb_encode encodes, decoded over any memory, comes back: the same fields present with the same
   * contents, and every byte read.
   */
  lemma RoundTrip(fields: seq<Field>, src: Memory, before: Memory) returns (m: Memory)
    requires WellFormed(fields) && Stored(fields, src)
    requires EncodeFrom(fields, src, 0).Done? && |EncodeFrom(fields, src, 0).bytes| < TWO_32
    ensures DecodeMessage(fields, EncodeFrom(fields, src, 0).bytes, Defaults(fields, before, 0)) == Got(m, [])
    ensures Same(fields, src, m)
  {
    DefaultsFresh(fields, before, 0);
    m := MessageBack(fields, src, Defaults(fields, before, 0));
  }
}
