/** pb_decode.c on any bytes at all: nothing is stored that its descriptor has no room for. */
module PbSafety {
  import opened Bytes
  import opened Coding
  import opened PbFields
  import opened PbEncode
  import opened PbDecode
  import opened PbRoundTrip

  /** Fields as the generator sizes them, with defaults that fit, all the way down. */
  ghost predicate Sized(fields: seq<Field>) {
    forall i :: 0 <= i < |fields| ==> FieldSized(fields[i])
  }

  ghost predicate FieldSized(f: Field) {
    && (f.ltype.Int? || f.ltype.UInt? || f.ltype.SInt? ==> IntSize(f.dataSize))
    && (f.ltype.Bytes? ==> f.dataSize >= BYTES_HEADER)
    && (f.ltype.String? ==> f.dataSize >= 1)
    && (f.ptr.Default? ==> ItemFits(f, f.ptr.value))
    && (f.ptr.Fields? ==> Sized(f.ptr.fields))
  }

  /** A number in the range of its field, a buffer in its size, a string that ends there. */
  ghost predicate ItemFits(f: Field, d: Datum)
    decreases f, 0
  {
    match f.ltype
    case Bool => d == Num(0) || d == Num(1)
    case Int => d.Num? && InInt(d.v, f.dataSize)
    case SInt => d.Num? && InInt(d.v, f.dataSize)
    case UInt => d.Num? && 0 <= d.v < 2 * Half(f.dataSize)
    case Fixed32 => d.Num? && 0 <= d.v < TWO_32
    case Fixed64 => d.Num? && 0 <= d.v < TWO_64
    case Bytes => d.Raw? && |d.bytes| + BYTES_HEADER <= f.dataSize
    case String => d.Raw? && |d.bytes| == f.dataSize && |Text(d.bytes)| < f.dataSize
    case FixedLengthBytes => d.Raw? && |d.bytes| == f.dataSize
    case Submessage => d.Msg? && f.ptr.Fields? && Fits(f.ptr.fields, d.mem)
  }

  /**
   * An item always, a union member when it is the one that is set, and of an array no more items than there is
   * room for. A fixed-count array has no count, and holds what it held until it is filled.
   */
  ghost predicate FieldFits(fields: seq<Field>, i: nat, m: Memory)
    requires i < |fields|
    decreases fields, 0
  {
    var f := fields[i];
    var at, size := DataAt(fields, i), Size(m, SizeAt(fields, i));
    match f.htype
    case Oneof =>
      && (size == f.tag ==> ItemFits(f, Load(m, at, 1)[0]))
      && (size == 0 || exists j: nat :: SameUnion(fields, i, j) && fields[j].tag == size)
    case Repeated =>
      f.sizeOffset != 0 ==> size <= f.arraySize && forall k :: 0 <= k < size ==> ItemFits(f, Load(m, at, f.arraySize)[k])
    case _ => ItemFits(f, Load(m, at, 1)[0])
  }

  ghost predicate Fits(fields: seq<Field>, m: Memory)
    decreases fields, 1
  {
    forall i :: 0 <= i < |fields| ==> FieldFits(fields, i, m)
  }

  // ------------------------------------------------------------------- defaults

  lemma {:induction false} InitFits(f: Field, d: Datum)
    requires FieldFormed(f) && FieldSized(f)
    ensures ItemFits(f, InitItem(f, d))
    decreases f, 0
  {
    ZerosText(f.dataSize);
    if f.ltype.Submessage? {
      DefaultsFit(f.ptr.fields, MemOf(d), 0);
    }
  }

  lemma InitFieldFits(fields: seq<Field>, m: Memory, i: nat)
    requires WellFormed(fields) && Sized(fields) && i < |fields|
    ensures FieldFits(fields, i, InitField(fields, i, m))
    decreases fields, 0
  {
    hide WellFormed, DataAt, SizeAt, ItemFits, InitItem;
    Places(fields, i, i);
    Tags(fields, i);
    assert FieldSized(fields[i]);
    hide FieldFormed, FieldSized;
    InitFits(fields[i], Load(m, DataAt(fields, i), 1)[0]);
  }

  lemma InitFieldKeeps(fields: seq<Field>, m: Memory, i: nat, j: nat)
    requires WellFormed(fields) && i < |fields| && j < |fields| && i != j && FieldFits(fields, j, m)
    ensures FieldFits(fields, j, InitField(fields, i, m))
  {
    hide WellFormed, DataAt, SizeAt, ItemFits, InitItem, FieldFormed;
    Places(fields, i, j);
    Tags(fields, j);
    FormedOneof(fields);
    var n := InitField(fields, i, m);
    assert fields[j].htype.Repeated? ==>
      Load(n, DataAt(fields, j), fields[j].arraySize) == Load(m, DataAt(fields, j), fields[j].arraySize);
  }

  lemma {:induction false} DefaultsFit(fields: seq<Field>, m: Memory, i: nat)
    requires WellFormed(fields) && Sized(fields) && i <= |fields|
    requires forall j :: 0 <= j < i ==> FieldFits(fields, j, m)
    ensures Fits(fields, Defaults(fields, m, i))
    decreases fields, |fields| - i + 1
  {
    hide WellFormed, Sized, FieldFits, InitField;
    if i < |fields| {
      InitFieldFits(fields, m, i);
      forall j | 0 <= j < i ensures FieldFits(fields, j, InitField(fields, i, m)) {
        InitFieldKeeps(fields, m, i, j);
      }
      DefaultsFit(fields, InitField(fields, i, m), i + 1);
    }
  }

  // ---------------------------------------------------------------------- items

  lemma {:induction false} FixedBelow(s: seq<Byte>)
    ensures FixedValue(s) < Pow(256, |s|)
  {
    if s != [] {
      FixedBelow(s[1..]);
    }
  }

  lemma TextEnds(s: seq<Byte>, i: nat)
    requires i < |s| && s[i] == 0
    ensures |Text(s)| < |s|
  {
    assert s[..|s|] == s;
  }

  lemma NumberFits(f: Field, s: seq<Byte>, d: Datum)
    requires Packable(f.ltype) && DecodeItem(f, s, d).Got?
    ensures ItemFits(f, DecodeItem(f, s, d).value)
  {
    hide Varint32, Varint64, UnZigZag, Signed;
    FixedPowers();
    if f.ltype.Fixed32? {
      FixedBelow(s[..4]);
    } else if f.ltype.Fixed64? {
      FixedBelow(s[..8]);
    }
  }

  lemma StringFits(f: Field, s: seq<Byte>, d: Datum)
    requires f.ltype.String? && DecodeItem(f, s, d).Got?
    ensures ItemFits(f, DecodeItem(f, s, d).value)
  {
    hide Chunk;
    var b := Chunk(s).value;
    TextEnds(b + [0] + Tail(d, |b| + 1, f.dataSize), |b|);
  }

  /** Whatever an item is decoded from, it fits its field. */
  lemma {:induction false} DecodedFits(f: Field, s: seq<Byte>, d: Datum)
    requires FieldFormed(f) && FieldSized(f) && DecodeItem(f, s, d).Got?
    requires f.ltype.Submessage? && !f.htype.Repeated? ==> ItemFits(f, d)
    ensures ItemFits(f, DecodeItem(f, s, d).value)
    decreases |s|, 0
  {
    if Packable(f.ltype) {
      NumberFits(f, s, d);
    } else if f.ltype.String? {
      StringFits(f, s, d);
    } else if f.ltype.Submessage? {
      hide Chunk, WellFormed, Sized, Fits, Defaults, DecodeMessage;
      var b := Chunk(s).value;
      var start := if f.htype.Repeated? then Defaults(f.ptr.fields, MemOf(d), 0) else MemOf(d);
      if f.htype.Repeated? {
        DefaultsFit(f.ptr.fields, MemOf(d), 0);
      }
      MessageFits(f.ptr.fields, b, start);
    } else {
      hide Chunk;
    }
  }

  ghost predicate AllFit(f: Field, items: seq<Datum>, n: nat) {
    n <= |items| && forall k :: 0 <= k < n ==> ItemFits(f, items[k])
  }

  lemma {:induction false} PackedFits(f: Field, s: seq<Byte>, items: seq<Datum>, n: nat)
    requires FieldFormed(f) && FieldSized(f) && f.htype.Repeated? && |items| == f.arraySize && AllFit(f, items, n)
    requires DecodePacked(f, s, items, n).Just?
    ensures var r := DecodePacked(f, s, items, n).value; |r.0| == f.arraySize && AllFit(f, r.0, r.1)
    decreases |s|, 1
  {
    hide DecodeItem, ItemFits, FieldFormed, FieldSized;
    if s != [] {
      var r := DecodeItem(f, s, items[n]);
      DecodedFits(f, s, items[n]);
      PackedFits(f, r.rest, items[n := r.value], n + 1);
    }
  }

  lemma {:induction false} RepeatedFits(f: Field, wire: nat, s: seq<Byte>, items: seq<Datum>, n: nat)
    requires FieldFormed(f) && FieldSized(f) && f.htype.Repeated? && |items| == f.arraySize && AllFit(f, items, n)
    requires DecodeRepeated(f, wire, s, items, n).Got?
    ensures var r := DecodeRepeated(f, wire, s, items, n).value; |r.0| == f.arraySize && AllFit(f, r.0, r.1)
    decreases |s|, 2
  {
    hide DecodeItem, DecodePacked, Chunk, ItemFits, FieldFormed, FieldSized;
    if wire == 2 && Packable(f.ltype) {
      PackedFits(f, Chunk(s).value, items, n);
    } else {
      DecodedFits(f, s, items[n]);
    }
  }

  // --------------------------------------------------------------------- fields

  /** What is done to one field leaves the others as they fit, other members of its union included. */
  lemma KeepsFit(fields: seq<Field>, i: nat, j: nat, m: Memory, n: Memory)
    requires WellFormed(fields) && i < |fields| && j < |fields| && i != j && FieldFits(fields, j, m) && Agree(fields, i, m, n)
    requires fields[i].htype.Oneof? ==> Size(n, SizeAt(fields, i)) == fields[i].tag
    ensures FieldFits(fields, j, n)
  {
    hide WellFormed, DataAt, SizeAt, ItemFits, FieldFormed, Load, Size;
    Places(fields, i, j);
    Places(fields, j, i);
    FormedOneof(fields);
    if SameUnion(fields, i, j) {
      assert SameUnion(fields, j, i);
    }
  }

  lemma StoredFits(fields: seq<Field>, i: nat, m: Memory, e: Datum)
    requires WellFormed(fields) && i < |fields| && Fits(fields, m) && !fields[i].htype.Repeated? && ItemFits(fields[i], e)
    ensures Fits(fields, Store(WithFlag(fields, i, m), DataAt(fields, i), [e]))
  {
    hide WellFormed, DataAt, SizeAt, ItemFits, FieldFormed;
    Places(fields, i, i);
    FormedOneof(fields);
    var n := Store(WithFlag(fields, i, m), DataAt(fields, i), [e]);
    assert fields[i].htype.Oneof? ==> SameUnion(fields, i, i);
    assert FieldFits(fields, i, n);
    forall j | 0 <= j < |fields| ensures FieldFits(fields, j, n) {
      assert FieldFits(fields, j, m);
      if j != i {
        KeepsFit(fields, i, j, m, n);
      }
    }
  }

  lemma GrownFits(fields: seq<Field>, i: nat, m: Memory, items: seq<Datum>, k: nat)
    requires WellFormed(fields) && i < |fields| && Fits(fields, m) && fields[i].htype.Repeated?
    requires |items| == fields[i].arraySize && (fields[i].sizeOffset != 0 ==> AllFit(fields[i], items, k))
    ensures var n := Store(m, DataAt(fields, i), items);
      Fits(fields, if fields[i].sizeOffset == 0 then n else SetSize(n, SizeAt(fields, i), k))
  {
    hide WellFormed, DataAt, SizeAt, ItemFits, FieldFormed;
    Places(fields, i, i);
    var n := Store(m, DataAt(fields, i), items);
    if fields[i].sizeOffset != 0 {
      n := SetSize(n, SizeAt(fields, i), k);
    }
    assert Load(n, DataAt(fields, i), fields[i].arraySize) == items;
    assert FieldFits(fields, i, n);
    forall j | 0 <= j < |fields| ensures FieldFits(fields, j, n) {
      assert FieldFits(fields, j, m);
      if j != i {
        KeepsFit(fields, i, j, m, n);
      }
    }
  }

  lemma StartFits(fields: seq<Field>, i: nat, m: Memory)
    requires WellFormed(fields) && Sized(fields) && i < |fields| && Fits(fields, m) && !fields[i].htype.Repeated?
    ensures FieldFormed(fields[i]) && FieldSized(fields[i])
    ensures fields[i].ltype.Submessage? ==> ItemFits(fields[i], Start(fields, i, m))
  {
    hide WellFormed, DataAt, SizeAt, ItemFits, FieldFormed, FieldSized, Load, Size, InitItem;
    Places(fields, i, i);
    assert FieldFits(fields, i, m);
    InitFits(fields[i], Msg(NOWHERE));
  }

  lemma {:induction false} FieldDecodedFits(fields: seq<Field>, i: nat, wire: nat, s: seq<Byte>, p: Progress)
    requires WellFormed(fields) && Sized(fields) && i < |fields| && p.fixedField < |fields| && Fits(fields, p.mem)
    requires DecodeField(fields, i, wire, s, p).Got?
    ensures Fits(fields, DecodeField(fields, i, wire, s, p).value.mem)
    decreases |s|, 3
  {
    hide WellFormed, Sized, DataAt, SizeAt, Fits, ItemFits, FieldFormed, FieldSized, DecodeItem, DecodeRepeated, Load, InitItem;
    var f, m := fields[i], p.mem;
    if f.htype.Repeated? {
      ArrayDecodedFits(fields, i, wire, s, p);
    } else {
      StartFits(fields, i, m);
      DecodedFits(f, s, Start(fields, i, m));
      StoredFits(fields, i, m, DecodeItem(f, s, Start(fields, i, m)).value);
    }
  }

  lemma {:induction false} ArrayDecodedFits(fields: seq<Field>, i: nat, wire: nat, s: seq<Byte>, p: Progress)
    requires WellFormed(fields) && Sized(fields) && i < |fields| && p.fixedField < |fields| && Fits(fields, p.mem)
    requires fields[i].htype.Repeated? && DecodeField(fields, i, wire, s, p).Got?
    ensures Fits(fields, DecodeField(fields, i, wire, s, p).value.mem)
    decreases |s|, 3, 0
  {
    hide WellFormed, DataAt, SizeAt, ItemFits, FieldFormed, FieldSized, DecodeItem, DecodeRepeated, Load;
    var f, m := fields[i], p.mem;
    Places(fields, i, i);
    assert FieldFits(fields, i, m) && FieldSized(f);
    hide Fits, Sized;
    var items := Load(m, DataAt(fields, i), f.arraySize);
    var n := if FixedCount(fields, i) then p.fixedSize else Size(m, SizeAt(fields, i));
    var r := DecodeRepeated(f, wire, s, items, n).value;
    if f.sizeOffset != 0 {
      RepeatedFits(f, wire, s, items, n);
    }
    RepeatedLength(f, wire, s, items, n);
    GrownFits(fields, i, m, r.0, r.1);
  }

  lemma {:induction false} PackedLength(f: Field, s: seq<Byte>, items: seq<Datum>, n: nat)
    requires |items| == f.arraySize && DecodePacked(f, s, items, n).Just?
    ensures |DecodePacked(f, s, items, n).value.0| == f.arraySize
    decreases |s|
  {
    hide DecodeItem;
    if s != [] {
      var r := DecodeItem(f, s, items[n]);
      PackedLength(f, r.rest, items[n := r.value], n + 1);
    }
  }

  lemma RepeatedLength(f: Field, wire: nat, s: seq<Byte>, items: seq<Datum>, n: nat)
    requires |items| == f.arraySize && DecodeRepeated(f, wire, s, items, n).Got?
    ensures |DecodeRepeated(f, wire, s, items, n).value.0| == f.arraySize
  {
    hide DecodeItem, DecodePacked, Chunk;
    if wire == 2 && Packable(f.ltype) {
      PackedLength(f, Chunk(s).value, items, n);
    }
  }

  lemma {:induction false} FieldsFit(fields: seq<Field>, s: seq<Byte>, p: Progress)
    requires WellFormed(fields) && Sized(fields) && p.fixedField < |fields| && Fits(fields, p.mem)
    requires DecodeFields(fields, s, p).Got?
    ensures Fits(fields, DecodeFields(fields, s, p).value.mem)
    decreases |s|, 4
  {
    hide WellFormed, Sized, Fits, Varint32, Skip, DecodeField;
    if fields == [] {
      assert Fits(fields, DecodeFields(fields, s, p).value.mem) by { NothingFits(fields, DecodeFields(fields, s, p).value.mem); }
    } else if s != [] {
      var key, rest := Varint32(s).value, Varint32(s).rest;
      if key != 0 {
        var i := Find(fields, key / 8);
        if i < 0 {
          FieldsFit(fields, Skip(key % 8, rest).rest, p);
        } else {
          var q := Enter(fields, i, p).value;
          var r := DecodeField(fields, i, key % 8, rest, q);
          FieldDecodedFits(fields, i, key % 8, rest, q);
          FieldsFit(fields, r.rest, r.value);
        }
      }
    }
  }

  lemma NothingFits(fields: seq<Field>, m: Memory)
    requires fields == []
    ensures Fits(fields, m)
  {}

  lemma {:induction false} MessageFits(fields: seq<Field>, s: seq<Byte>, start: Memory)
    requires WellFormed(fields) && Sized(fields) && Fits(fields, start) && DecodeMessage(fields, s, start).Got?
    ensures Fits(fields, DecodeMessage(fields, s, start).value)
    decreases |s|, 5
  {
    hide WellFormed, Sized, Fits, DecodeFields;
    FieldsFit(fields, s, Progress(start, -1, 0, {}));
  }

  /** Whatever bytes are decoded over whatever memory, all of the message fits. */
  lemma AnyBytesFit(fields: seq<Field>, s: seq<Byte>, before: Memory)
    requires WellFormed(fields) && Sized(fields) && DecodeMessage(fields, s, Defaults(fields, before, 0)).Got?
    ensures Fits(fields, DecodeMessage(fields, s, Defaults(fields, before, 0)).value)
  {
    hide WellFormed, Sized, Fits, DecodeMessage;
    DefaultsFit(fields, before, 0);
    MessageFits(fields, s, Defaults(fields, before, 0));
  }

  // --------------------------------------------------------- fixed-count arrays

  /**
   * Where a fixed-count array is: untouched, filled, or filled up to the count that is kept outside of the
   * message while it is the one being filled.
   */
  ghost predicate FillState(fields: seq<Field>, i: nat, start: Memory, p: Progress)
    requires i < |fields|
  {
    var f := fields[i];
    var items := Load(p.mem, DataAt(fields, i), f.arraySize);
    if p.fixedField == i then AllFit(f, items, p.fixedSize)
    else AllFit(f, items, f.arraySize) || items == Load(start, DataAt(fields, i), f.arraySize)
  }

  lemma EnterKeepsFill(fields: seq<Field>, i: nat, j: nat, start: Memory, p: Progress)
    requires i < |fields| && j < |fields| && p.fixedField < |fields| && fields[i].htype.Repeated? && fields[i].sizeOffset == 0
    requires FillState(fields, i, start, p) && Enter(fields, j, p).Just?
    ensures Enter(fields, j, p).value.fixedField < |fields| && FillState(fields, i, start, Enter(fields, j, p).value)
  {
    hide ItemFits, Load, DataAt, SizeAt, RequiredBefore;
  }

  lemma SameData(fields: seq<Field>, i: nat, j: nat, wire: nat, s: seq<Byte>, p: Progress)
    requires WellFormed(fields) && i < |fields| && j < |fields| && i != j && p.fixedField < |fields|
    requires fields[i].htype.Repeated? && fields[i].sizeOffset == 0 && DecodeField(fields, j, wire, s, p).Got?
    ensures var q := DecodeField(fields, j, wire, s, p).value;
      && Load(q.mem, DataAt(fields, i), fields[i].arraySize) == Load(p.mem, DataAt(fields, i), fields[i].arraySize)
      && q.fixedField == p.fixedField && (p.fixedField == i && !FixedCount(fields, j) ==> q.fixedSize == p.fixedSize)
  {
    hide WellFormed, DecodeItem, DecodeRepeated, InitItem, DataAt, SizeAt;
    Places(fields, j, i);
  }

  lemma DecodeKeepsFill(fields: seq<Field>, i: nat, j: nat, wire: nat, s: seq<Byte>, start: Memory, p: Progress)
    requires WellFormed(fields) && Sized(fields) && i < |fields| && j < |fields| && p.fixedField < |fields|
    requires fields[i].htype.Repeated? && fields[i].sizeOffset == 0
    requires FixedCount(fields, j) ==> p.fixedField == j
    requires FillState(fields, i, start, p) && DecodeField(fields, j, wire, s, p).Got?
    ensures FillState(fields, i, start, DecodeField(fields, j, wire, s, p).value)
  {
    hide WellFormed, DecodeItem, DecodeRepeated, InitItem, DataAt, SizeAt, ItemFits, FieldFormed, FieldSized;
    var f := fields[i];
    Places(fields, i, i);
    assert FieldSized(f);
    hide Sized;
    if i != j {
      SameData(fields, i, j, wire, s, p);
    } else {
      RepeatedFits(f, wire, s, Load(p.mem, DataAt(fields, i), f.arraySize), p.fixedSize);
    }
  }

  lemma {:induction false} FieldsFill(fields: seq<Field>, i: nat, s: seq<Byte>, start: Memory, p: Progress)
    requires WellFormed(fields) && Sized(fields) && i < |fields| && p.fixedField < |fields|
    requires fields[i].htype.Repeated? && fields[i].sizeOffset == 0
    requires FillState(fields, i, start, p) && DecodeFields(fields, s, p).Got?
    ensures FillState(fields, i, start, DecodeFields(fields, s, p).value)
    decreases |s|
  {
    hide WellFormed, Sized, FillState, Varint32, Skip, DecodeField;
    if s != [] {
      var key, rest := Varint32(s).value, Varint32(s).rest;
      if key != 0 {
        var j := Find(fields, key / 8);
        if j < 0 {
          FieldsFill(fields, i, Skip(key % 8, rest).rest, start, p);
        } else {
          var q := Enter(fields, j, p).value;
          var r := DecodeField(fields, j, key % 8, rest, q);
          EnterKeepsFill(fields, i, j, start, p);
          DecodeKeepsFill(fields, i, j, key % 8, rest, start, q);
          FieldsFill(fields, i, r.rest, start, r.value);
        }
      }
    }
  }

  /** A fixed-count array is filled with items that fit, all of it, or it is left alone. */
  lemma AllOrNothing(fields: seq<Field>, i: nat, s: seq<Byte>, start: Memory)
    requires WellFormed(fields) && Sized(fields) && i < |fields| && fields[i].htype.Repeated? && fields[i].sizeOffset == 0
    requires DecodeMessage(fields, s, start).Got?
    ensures var m, f := DecodeMessage(fields, s, start).value, fields[i];
      var items := Load(m, DataAt(fields, i), f.arraySize);
      AllFit(f, items, f.arraySize) || items == Load(start, DataAt(fields, i), f.arraySize)
  {
    hide WellFormed, Sized, DecodeFields, ItemFits, Load, DataAt;
    FieldsFill(fields, i, s, start, Progress(start, -1, 0, {}));
  }

  // --------------------------------------------------------- what is decoded can be encoded

  /** No array has its count outside of the message. */
  ghost predicate Counted(fields: seq<Field>) {
    forall i :: 0 <= i < |fields| ==> FieldCounted(fields[i])
  }

  ghost predicate FieldCounted(f: Field) {
    (f.htype.Repeated? ==> f.sizeOffset != 0) && (f.ptr.Fields? ==> Counted(f.ptr.fields))
  }

  lemma {:induction false} ItemEncodes(f: Field, d: Datum)
    requires FieldFormed(f) && FieldSized(f) && FieldCounted(f) && ItemFits(f, d)
    ensures ItemStored(f, d) && EncodeItem(f, d).Done?
    decreases f, 0
  {
    hide WellFormed, Sized, Counted, Fits, Stored, Varint, EncodeFrom, Bits64, ZigZag, Fixed, Text;
    if f.ltype.Submessage? {
      MessageEncodes(f.ptr.fields, d.mem);
    }
  }

  lemma {:induction false} ItemsEncode(f: Field, ds: seq<Datum>)
    requires FieldFormed(f) && FieldSized(f) && FieldCounted(f) && forall k :: 0 <= k < |ds| ==> ItemFits(f, ds[k])
    ensures forall k :: 0 <= k < |ds| ==> ItemStored(f, ds[k])
    ensures EncodeItems(f, ds).Done? && EncodeTagged(f, ds).Done?
    decreases f, 1, |ds|
  {
    hide FieldFormed, FieldSized, FieldCounted, ItemFits, ItemStored, EncodeItem;
    if ds != [] {
      ItemEncodes(f, ds[0]);
      ItemsEncode(f, ds[1..]);
      assert forall k :: 0 < k < |ds| ==> ds[k] == ds[1..][k - 1];
    }
  }

  lemma {:induction false} FieldEncodes(fields: seq<Field>, i: nat, m: Memory)
    requires WellFormed(fields) && Sized(fields) && Counted(fields) && i < |fields| && Fits(fields, m)
    ensures FieldStored(fields, i, m) && EncodeField(fields, i, m).Done?
    decreases fields, 0
  {
    hide WellFormed, FieldFormed, FieldSized, FieldCounted, ItemFits, ItemStored, DataAt, SizeAt, Load, Size, EncodeItem,
      EncodeItems, EncodeTagged, IsDefault;
    var f := fields[i];
    Places(fields, i, i);
    assert FieldSized(f) && FieldCounted(f) && FieldFits(fields, i, m);
    hide Sized, Counted, Fits;
    CountedArray(f);
    if f.htype.Repeated? {
      var ds := Load(m, DataAt(fields, i), f.arraySize)[..CountOf(fields, i, m)];
      ItemsEncode(f, ds);
      assert forall k :: 0 <= k < |ds| ==> ItemStored(f, ds[k]);
    } else if ItemFits(f, Load(m, DataAt(fields, i), 1)[0]) {
      ItemEncodes(f, Load(m, DataAt(fields, i), 1)[0]);
    }
  }

  lemma CountedArray(f: Field)
    requires FieldCounted(f)
    ensures f.htype.Repeated? ==> f.sizeOffset != 0
  {}

  lemma {:induction false} FromEncodes(fields: seq<Field>, m: Memory, i: nat)
    requires i <= |fields| && forall k :: 0 <= k < |fields| ==> EncodeField(fields, k, m).Done?
    ensures EncodeFrom(fields, m, i).Done?
    decreases |fields| - i
  {
    hide EncodeField;
    if i < |fields| {
      FromEncodes(fields, m, i + 1);
    }
  }

  lemma {:induction false} MessageEncodes(fields: seq<Field>, m: Memory)
    requires WellFormed(fields) && Sized(fields) && Counted(fields) && Fits(fields, m)
    ensures Stored(fields, m) && EncodeFrom(fields, m, 0).Done?
    decreases fields, 1
  {
    hide WellFormed, Sized, Counted, Fits, FieldStored, EncodeField;
    forall i | 0 <= i < |fields| ensures FieldStored(fields, i, m) && EncodeField(fields, i, m).Done? {
      FieldEncodes(fields, i, m);
    }
    FromEncodes(fields, m, 0);
  }

  /** Any bytes that are decoded give a message that is encoded again, and that encoding decodes to the same message. */
  lemma DecodedComesBack(fields: seq<Field>, s: seq<Byte>, before: Memory, again: Memory) returns (m: Memory)
    requires WellFormed(fields) && Sized(fields) && Counted(fields) && DecodeMessage(fields, s, Defaults(fields, before, 0)).Got?
    ensures var read := DecodeMessage(fields, s, Defaults(fields, before, 0)).value;
      var written := EncodeFrom(fields, read, 0);
      && written.Done?
      && (|written.bytes| < TWO_32 ==>
           DecodeMessage(fields, written.bytes, Defaults(fields, again, 0)) == Got(m, []) && Same(fields, read, m))
  {
    hide WellFormed, Sized, Counted, DecodeMessage, EncodeFrom, Same, Stored, Fits;
    AnyBytesFit(fields, s, before);
    var read := DecodeMessage(fields, s, Defaults(fields, before, 0)).value;
    MessageEncodes(fields, read);
    m := read;
    if |EncodeFrom(fields, read, 0).bytes| < TWO_32 {
      m := RoundTrip(fields, read, again);
    }
  }
}
