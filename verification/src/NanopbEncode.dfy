/** pb_encode.c: what a message is encoded as, and the encoder with its sizing passes. */
module PbEncode {
  import opened Bytes
  import opened Coding
  import opened PbFields

  /** What an encoder writes, when it does not fail. */
  datatype Encoded = Failed | Done(bytes: seq<Byte>)

  function Then(a: Encoded, b: Encoded): Encoded {
    if a.Done? && b.Done? then Done(a.bytes + b.bytes) else Failed
  }

  /** The 64 bits of a number. */
  function Bits64(v: int): nat { v % TWO_64 }

  function ZigZag(v: int): nat {
    if v < 0 then TWO_64 - 1 - Bits64(2 * v) else Bits64(2 * v)
  }

  predicate IntSize(n: nat) { n == 1 || n == 2 || n == 4 || n == 8 }

  /** The bytes before a terminator, or all of the buffer. */
  function Text(s: seq<Byte>): (r: seq<Byte>)
    ensures |r| <= |s| && r == s[..|r|] && 0 !in r
    ensures |r| < |s| ==> s[|r|] == 0
  {
    if s == [] || s[0] == 0 then [] else [s[0]] + Text(s[1..])
  }

  lemma {:induction false} TextOf(s: seq<Byte>, x: seq<Byte>)
    requires 0 !in s
    ensures Text(s + [0] + x) == s
  {
    if s != [] {
      assert (s + [0] + x)[1..] == s[1..] + [0] + x;
      TextOf(s[1..], x);
    } else {
      assert s + [0] + x == [0] + x;
    }
  }

  const BYTES_HEADER: nat := 4

  function Prefixed(s: seq<Byte>): seq<Byte> { Varint(|s|) + s }

  function WireType(t: Ltype): nat {
    match t
    case Bool => 0
    case Int => 0
    case UInt => 0
    case SInt => 0
    case Fixed64 => 1
    case Fixed32 => 5
    case _ => 2
  }

  predicate Packable(t: Ltype) { t.Bool? || t.Int? || t.UInt? || t.SInt? || t.Fixed32? || t.Fixed64? }

  function Tag(wire: nat, tag: nat): seq<Byte> { Varint(8 * tag + wire) }

  function TagOf(f: Field): seq<Byte> { Tag(WireType(f.ltype), f.tag) }

  function Number(d: Datum): int { if d.Num? then d.v else 0 }

  /** One item; a buffer or struct of another kind than the field's cannot be there. */
  function EncodeItem(f: Field, d: Datum): Encoded
    decreases f, 0
  {
    match (f.ltype, d)
    case (Bool, _) => Done(Varint(if Number(d) != 0 then 1 else 0))
    case (Int, _) => if IntSize(f.dataSize) then Done(Varint(Bits64(Number(d)))) else Failed
    case (UInt, _) => if IntSize(f.dataSize) then Done(Varint(Bits64(Number(d)))) else Failed
    case (SInt, _) => if IntSize(f.dataSize) then Done(Varint(ZigZag(Number(d)))) else Failed
    case (Fixed32, _) => Done(Fixed(Number(d) % TWO_32, 4))
    case (Fixed64, _) => Done(Fixed(Bits64(Number(d)), 8))
    case (Bytes, Raw(s)) => if |s| + BYTES_HEADER > f.dataSize then Failed else Done(Prefixed(s))
    case (String, Raw(s)) => Done(Prefixed(Text(s)))
    case (FixedLengthBytes, Raw(s)) => if |s| == f.dataSize then Done(Prefixed(s)) else Failed
    case (Submessage, Msg(m)) =>
      if f.ptr.Fields? then
        (match EncodeFrom(f.ptr.fields, m, 0)
         case Failed => Failed
         case Done(s) => Done(Prefixed(s)))
      else Failed
    case _ => Failed
  }

  function EncodeItems(f: Field, ds: seq<Datum>): Encoded
    decreases f, 1 + |ds|
  {
    if ds == [] then Done([]) else Then(EncodeItem(f, ds[0]), EncodeItems(f, ds[1..]))
  }

  function EncodeTagged(f: Field, ds: seq<Datum>): Encoded
    decreases f, 1 + |ds|
  {
    if ds == [] then Done([]) else Then(Then(Done(TagOf(f)), EncodeItem(f, ds[0])), EncodeTagged(f, ds[1..]))
  }

  /** An array, packed when it can be. */
  function EncodeArray(f: Field, ds: seq<Datum>, count: nat): Encoded
    requires |ds| == f.arraySize
    decreases f, 2 + |ds|
  {
    if count == 0 then Done([])
    else if count > f.arraySize then Failed
    else if Packable(f.ltype) then
      (match EncodeItems(f, ds[..count])
       case Failed => Failed
       case Done(s) => Done(Tag(2, f.tag) + Prefixed(s)))
    else EncodeTagged(f, ds[..count])
  }

  /** Whether a proto3 field has the value that is not encoded. */
  predicate IsDefault(fields: seq<Field>, i: nat, m: Memory)
    requires i < |fields|
    decreases fields, |fields| - i, 0
  {
    var f := fields[i];
    var size := Size(m, DataAt(fields, i) + f.sizeOffset);
    match f.htype
    case Required => false
    case Repeated => f.sizeOffset != 0 && size == 0
    case Oneof => size == 0
    case Optional => if f.sizeOffset != 0 then size == 0 else IsZero(f, Load(m, DataAt(fields, i), 1)[0])
  }

  predicate IsZero(f: Field, d: Datum)
    decreases f, 0
  {
    match (f.ltype, d)
    case (Bytes, Raw(s)) => s == []
    case (String, Raw(s)) => Text(s) == []
    case (FixedLengthBytes, Raw(_)) => f.dataSize == 0
    case (Submessage, Msg(m)) => !f.ptr.Fields? || AllDefault(f.ptr.fields, m, 0)
    case (_, d) => d == Num(0)
  }

  predicate AllDefault(fields: seq<Field>, m: Memory, i: nat)
    requires i <= |fields|
    decreases fields, |fields| - i, 1
  {
    i == |fields| || (IsDefault(fields, i, m) && AllDefault(fields, m, i + 1))
  }

  /** Whether a field that is not repeated is there to be encoded. */
  predicate Present(fields: seq<Field>, i: nat, m: Memory)
    requires i < |fields|
  {
    var f := fields[i];
    var size := Size(m, DataAt(fields, i) + f.sizeOffset);
    match f.htype
    case Oneof => size == f.tag
    case Optional => if f.sizeOffset != 0 then size != 0 else !IsDefault(fields, i, m)
    case _ => true
  }

  function CountOf(fields: seq<Field>, i: nat, m: Memory): nat
    requires i < |fields|
  {
    if fields[i].sizeOffset != 0 then Size(m, DataAt(fields, i) + fields[i].sizeOffset) else fields[i].arraySize
  }

  function EncodeField(fields: seq<Field>, i: nat, m: Memory): Encoded
    requires i < |fields|
    decreases fields, |fields| - i, 0
  {
    var f := fields[i];
    if f.htype.Repeated? then EncodeArray(f, Load(m, DataAt(fields, i), f.arraySize), CountOf(fields, i, m))
    else if Present(fields, i, m) then Then(Done(TagOf(f)), EncodeItem(f, Load(m, DataAt(fields, i), 1)[0]))
    else Done([])
  }

  /** The fields from one on, in descriptor order. */
  function EncodeFrom(fields: seq<Field>, m: Memory, i: nat): Encoded
    requires i <= |fields|
    decreases fields, |fields| - i, 1
  {
    if i == |fields| then Done([]) else Then(EncodeField(fields, i, m), EncodeFrom(fields, m, i + 1))
  }

  // ------------------------------------ the examples of the protocol buffers encoding guide

  function Lone(tag: nat, t: Ltype, h: Htype, size: nat, arraySize: nat, ptr: Ptr): Field {
    Field(tag, t, h, 0, 0, size, arraySize, ptr)
  }

  /** A message of one field, with these items in it. */
  function EncodeLone(f: Field, items: seq<Datum>): Encoded { EncodeFrom([f], Memory(map[0 := items], map[]), 0) }

  lemma LoneItem(f: Field, d: Datum)
    requires f.htype.Required? && f.dataOffset == 0
    ensures EncodeLone(f, [d]) == Then(Done(TagOf(f)), EncodeItem(f, d))
  {
    var m, e := Memory(map[0 := [d]], map[]), EncodeItem(f, d);
    assert EncodeField([f], 0, m) == Then(Done(TagOf(f)), e) by {
      hide EncodeItem, TagOf;
      assert Load(m, DataAt([f], 0), 1) == [d];
    }
    hide EncodeItem, EncodeField;
    assert EncodeFrom([f], m, 1) == Done([]);
    if e.Done? {
      assert TagOf(f) + e.bytes + [] == TagOf(f) + e.bytes;
    }
  }

  lemma TwoDigits(v: nat)
    requires B <= v < B * B
    ensures Varint(v) == [(v % B + B) as Byte, (v / B) as Byte]
  {}

  /** The number 150 in field 1. */
  lemma SimpleMessage()
    ensures EncodeLone(Lone(1, Int, Required, 4, 0, Null), [Num(150)]) == Done([0x08, 0x96, 0x01])
  {
    TwoDigits(150);
    LoneItem(Lone(1, Int, Required, 4, 0, Null), Num(150));
  }

  lemma FixedOne()
    ensures Fixed(1, 4) == [1, 0, 0, 0] && Fixed(1, 8) == [1, 0, 0, 0, 0, 0, 0, 0]
  {
    assert Fixed(0, 3) == [0, 0, 0];
    assert Fixed(0, 7) == [0, 0, 0, 0] + Fixed(0, 3);
  }

  /** The number 1 in field 2, in eight bytes and in four. */
  lemma FixedMessages()
    ensures EncodeLone(Lone(2, Fixed64, Required, 8, 0, Null), [Num(1)]) == Done([0x11, 1, 0, 0, 0, 0, 0, 0, 0])
    ensures EncodeLone(Lone(2, Fixed32, Required, 4, 0, Null), [Num(1)]) == Done([0x15, 1, 0, 0, 0])
  {
    hide EncodeFrom, Fixed;
    FixedOne();
    LoneItem(Lone(2, Fixed64, Required, 8, 0, Null), Num(1));
    LoneItem(Lone(2, Fixed32, Required, 4, 0, Null), Num(1));
  }

  /** The string "testing" in field 2. */
  lemma StringMessage()
    ensures EncodeLone(Lone(2, String, Required, 8, 0, Null), [Raw([0x74, 0x65, 0x73, 0x74, 0x69, 0x6e, 0x67, 0x00])])
      == Done([0x12, 0x07, 0x74, 0x65, 0x73, 0x74, 0x69, 0x6e, 0x67])
  {
    hide Text, EncodeFrom;
    var text: seq<Byte> := [0x74, 0x65, 0x73, 0x74, 0x69, 0x6e, 0x67];
    TextOf(text, []);
    assert text + [0x00] + [] == [0x74, 0x65, 0x73, 0x74, 0x69, 0x6e, 0x67, 0x00];
    LoneItem(Lone(2, String, Required, 8, 0, Null), Raw(text + [0x00] + []));
  }

  /** The first message as field 3 of another. */
  lemma EmbeddedMessage()
    ensures EncodeLone(Lone(3, Ltype.Submessage, Required, 4, 0, Fields([Lone(1, Int, Required, 4, 0, Null)])),
                       [Msg(Memory(map[0 := [Num(150)]], map[]))]) == Done([0x1a, 0x03, 0x08, 0x96, 0x01])
  {
    hide EncodeFrom;
    SimpleMessage();
    LoneItem(Lone(3, Ltype.Submessage, Required, 4, 0, Fields([Lone(1, Int, Required, 4, 0, Null)])),
             Msg(Memory(map[0 := [Num(150)]], map[])));
  }

  /** The numbers 3, 270 and 86942 packed in field 4. */
  lemma PackedMessage()
    ensures EncodeLone(Lone(4, Int, Repeated, 4, 3, Null), [Num(3), Num(270), Num(86942)])
      == Done([0x22, 0x06, 0x03, 0x8e, 0x02, 0x9e, 0xa7, 0x05])
  {
    var f, ds := Lone(4, Int, Repeated, 4, 3, Null), [Num(3), Num(270), Num(86942)];
    TwoDigits(270);
    TwoDigits(86942 / B);
    assert Varint(86942) == [0x9e, 0xa7, 0x05];
    assert EncodeItems(f, [Num(86942)]) == Done([0x9e, 0xa7, 0x05]);
    assert EncodeItems(f, [Num(270), Num(86942)]) == Done([0x8e, 0x02, 0x9e, 0xa7, 0x05]) by {
      assert [Num(270), Num(86942)][1..] == [Num(86942)];
    }
    assert EncodeItems(f, ds) == Done([0x03, 0x8e, 0x02, 0x9e, 0xa7, 0x05]) by {
      assert ds[1..] == [Num(270), Num(86942)];
    }
    assert ds[..3] == ds;
  }

  /** Signed numbers in zigzag order. */
  lemma ZigZagTable()
    ensures ZigZag(0) == 0 && ZigZag(-1) == 1 && ZigZag(1) == 2 && ZigZag(-2) == 3
    ensures ZigZag(0x7fff_ffff) == 0xffff_fffe && ZigZag(-0x8000_0000) == 0xffff_ffff
  {}

  // ------------------------------------------------------------------ the stream

  /** A stream: one that only counts, or one that writes into a buffer of a size. */
  datatype Out = Out(writing: bool, written: seq<Byte>, maxSize: nat, bytesWritten: nat) {
    predicate Good() { writing ==> bytesWritten <= maxSize }
  }

  datatype Outcome = Full | Now(out: Out)

  /** What is left of a stream that takes these bytes. */
  function After(o: Out, e: Encoded): Outcome {
    if e.Failed? || (o.writing && o.bytesWritten + |e.bytes| > o.maxSize) then Full
    else Now(o.(written := o.written + (if o.writing then e.bytes else []), bytesWritten := o.bytesWritten + |e.bytes|))
  }

  lemma AfterThen(o: Out, a: Encoded, b: Encoded)
    requires o.Good()
    ensures After(o, Then(a, b)) == if After(o, a).Now? then After(After(o, a).out, b) else Full
    ensures After(o, a).Now? ==> After(o, a).out.Good()
  {
    if a.Done? && b.Done? {
      assert o.written + (a.bytes + b.bytes) == o.written + a.bytes + b.bytes;
      assert o.written + [] + [] == o.written + [];
    }
  }

  lemma AfterNothing(o: Out)
    requires o.Good()
    ensures After(o, Done([])) == Now(o)
  {
    assert o.written + [] == o.written;
  }

  /** Every list of fields reachable from here has tags that tell its fields apart. */
  ghost predicate WellTagged(fields: seq<Field>) {
    Tagged(fields) && forall i :: 0 <= i < |fields| ==> FieldTagged(fields[i])
  }

  ghost predicate FieldTagged(f: Field) { f.ptr.Fields? ==> WellTagged(f.ptr.fields) }

  /** The digits as they are made: every one marked as having more after it, and then the mark taken off the last. */
  method VarintBuffer(value: nat) returns (buffer: seq<Byte>)
    requires value > 0
    ensures buffer == Varint(value)
  {
    hide Varint;
    buffer := [];
    var v := value;
    ghost var front, last := [], 0;
    while v > 0
      invariant buffer == [] ==> v == value
      invariant buffer != [] ==> buffer == front + [WithMore(last)] && v == last / B && last > 0
      invariant Varint(value) == if buffer == [] then Varint(v) else front + Varint(last)
    {
      MoreDigits(v);
      assert buffer != [] ==> Varint(last) == [WithMore(last)] + Varint(v) by { MoreDigits(last); }
      Assoc(front, [WithMore(last)], Varint(v));
      front, last := buffer, v;
      buffer := buffer + [WithMore(v)];
      v := v / B;
    }
    MoreDigits(last);
    buffer := buffer[..|buffer| - 1] + [((buffer[|buffer| - 1] as nat) % B) as Byte];
  }

  class OutStream {
    const writing: bool
    const maxSize: nat
    var written: seq<Byte>
    var bytesWritten: nat

    constructor (writing: bool, written: seq<Byte>, maxSize: nat)
      ensures this.writing == writing && this.maxSize == maxSize && this.written == written && bytesWritten == 0
    {
      this.writing, this.maxSize, this.written, bytesWritten := writing, maxSize, written, 0;
    }

    ghost function State(): Out
      reads this
    {
      Out(writing, written, maxSize, bytesWritten)
    }

    ghost predicate Good()
      reads this
    {
      State().Good()
    }

    method Write(bytes: seq<Byte>) returns (ok: bool)
      requires Good()
      modifies this
      ensures Took(old(State()), Done(bytes), State(), ok)
    {
      if |bytes| > 0 && writing {
        if bytesWritten + |bytes| > maxSize {
          return false;
        }
        written := written + bytes;
      }
      bytesWritten := bytesWritten + |bytes|;
      ok := true;
    }

    method EncodeVarint(value: nat) returns (ok: bool)
      requires Good()
      modifies this
      ensures Took(old(State()), Done(Varint(value)), State(), ok)
    {
      hide Varint;
      MoreDigits(value);
      if value <= 0x7F {
        ok := Write([value as Byte]);
        return;
      }
      var buffer := VarintBuffer(value);
      ok := Write(buffer);
    }
  }

  /** What a stream's methods promise: success exactly when the encoding exists and fits, and then that it is there. */
  ghost predicate Took(before: Out, e: Encoded, after: Out, ok: bool) {
    && ok == After(before, e).Now?
    && (ok ==> after == After(before, e).out && after.Good())
  }

  // ----------------------------------------------------------------- the encoder

  method WriteTag(s: OutStream, wire: nat, tag: nat) returns (ok: bool)
    requires s.Good()
    modifies s
    ensures Took(old(s.State()), Done(Tag(wire, tag)), s.State(), ok)
  {
    ok := s.EncodeVarint(8 * tag + wire);
  }

  method WriteString(s: OutStream, bytes: seq<Byte>) returns (ok: bool)
    requires s.Good()
    modifies s
    ensures Took(old(s.State()), Done(Prefixed(bytes)), s.State(), ok)
  {
    hide Varint, After;
    AfterThen(s.State(), Done(Varint(|bytes|)), Done(bytes));
    ok := s.EncodeVarint(|bytes|);
    if ok {
      ok := s.Write(bytes);
    }
  }

  /** The fields of a submessage, its length first. */
  function Submessage(fields: seq<Field>, m: Memory): Encoded {
    match EncodeFrom(fields, m, 0)
    case Failed => Failed
    case Done(s) => Done(Prefixed(s))
  }

  lemma Sized(o: Out, e: Encoded)
    requires e.Done? && !o.writing
    ensures After(o, e) == Now(o.(bytesWritten := o.bytesWritten + |e.bytes|))
  {
    assert o.written + [] == o.written;
  }

  method WriteSubmessage(s: OutStream, fields: seq<Field>, m: Memory) returns (ok: bool)
    requires s.Good() && WellTagged(fields)
    modifies s
    ensures Took(old(s.State()), Submessage(fields, m), s.State(), ok)
    decreases fields, |fields| + 2
  {
    hide Varint, EncodeFrom;
    var sizing := new OutStream(false, [], 0);
    ghost var e := EncodeFrom(fields, m, 0);
    ok := WriteFields(sizing, fields, m);
    if !ok {
      return;
    }
    var size := sizing.bytesWritten;
    ghost var before := s.State();
    AfterThen(before, Done(Varint(size)), e);
    ok := s.EncodeVarint(size);
    if !ok {
      return;
    }
    if !s.writing {
      s.bytesWritten := s.bytesWritten + size;
      assert before.written + [] == before.written;
      return;
    }
    if s.bytesWritten + size > s.maxSize {
      return false;
    }
    var sub := new OutStream(true, s.written, size);
    ok := WriteFields(sub, fields, m);
    s.bytesWritten := s.bytesWritten + sub.bytesWritten;
    s.written := sub.written;
    if sub.bytesWritten != size {
      assert false;
      return false;
    }
  }

  method WriteItem(s: OutStream, f: Field, d: Datum) returns (ok: bool)
    requires s.Good() && FieldTagged(f)
    modifies s
    ensures Took(old(s.State()), EncodeItem(f, d), s.State(), ok)
    decreases f, 0
  {
    hide Varint, EncodeFrom, After;
    NothingFails(s.State());
    match (f.ltype, d)
    case (Bool, _) => ok := s.EncodeVarint(if Number(d) != 0 then 1 else 0);
    case (Int, _) =>
      ok := IntSize(f.dataSize);
      if ok { ok := s.EncodeVarint(Bits64(Number(d))); }
    case (UInt, _) =>
      ok := IntSize(f.dataSize);
      if ok { ok := s.EncodeVarint(Bits64(Number(d))); }
    case (SInt, _) =>
      ok := IntSize(f.dataSize);
      if ok { ok := s.EncodeVarint(ZigZag(Number(d))); }
    case (Fixed32, _) => ok := s.Write(Fixed(Number(d) % TWO_32, 4));
    case (Fixed64, _) => ok := s.Write(Fixed(Bits64(Number(d)), 8));
    case (Bytes, Raw(b)) =>
      ok := |b| + BYTES_HEADER <= f.dataSize;
      if ok { ok := WriteString(s, b); }
    case (String, Raw(b)) => ok := WriteString(s, Text(b));
    case (FixedLengthBytes, Raw(b)) =>
      ok := |b| == f.dataSize;
      if ok { ok := WriteString(s, b); }
    case (Submessage, Msg(m)) =>
      ok := f.ptr.Fields?;
      if ok { ok := WriteSubmessage(s, f.ptr.fields, m); }
    case _ => ok := false;
  }

  lemma NothingFails(o: Out)
    ensures After(o, Failed) == Full
  {}

  method WriteItems(s: OutStream, f: Field, ds: seq<Datum>) returns (ok: bool)
    requires s.Good() && FieldTagged(f)
    modifies s
    ensures Took(old(s.State()), EncodeItems(f, ds), s.State(), ok)
    decreases f, 1
  {
    hide After, EncodeItem;
    ok := true;
    var i := 0;
    ghost var before := s.State();
    AfterNothing(before);
    assert ds[0..] == ds;
    while i < |ds|
      invariant 0 <= i <= |ds| && s.Good()
      invariant After(before, EncodeItems(f, ds)) == After(s.State(), EncodeItems(f, ds[i..]))
    {
      assert ds[i..][0] == ds[i] && ds[i..][1..] == ds[i + 1..];
      AfterThen(s.State(), EncodeItem(f, ds[i]), EncodeItems(f, ds[i + 1..]));
      ok := WriteItem(s, f, ds[i]);
      if !ok {
        return;
      }
      i := i + 1;
    }
    assert ds[i..] == [];
    AfterNothing(s.State());
  }

  method WriteTagged(s: OutStream, f: Field, ds: seq<Datum>) returns (ok: bool)
    requires s.Good() && FieldTagged(f)
    modifies s
    ensures Took(old(s.State()), EncodeTagged(f, ds), s.State(), ok)
    decreases f, 1
  {
    hide After, EncodeItem, Tag;
    ok := true;
    var i := 0;
    ghost var before := s.State();
    AfterNothing(before);
    assert ds[0..] == ds;
    while i < |ds|
      invariant 0 <= i <= |ds| && s.Good()
      invariant After(before, EncodeTagged(f, ds)) == After(s.State(), EncodeTagged(f, ds[i..]))
    {
      assert ds[i..][0] == ds[i] && ds[i..][1..] == ds[i + 1..];
      AfterThen(s.State(), Then(Done(TagOf(f)), EncodeItem(f, ds[i])), EncodeTagged(f, ds[i + 1..]));
      AfterThen(s.State(), Done(TagOf(f)), EncodeItem(f, ds[i]));
      ok := WriteTag(s, WireType(f.ltype), f.tag);
      if !ok {
        return;
      }
      ok := WriteItem(s, f, ds[i]);
      if !ok {
        return;
      }
      i := i + 1;
    }
    assert ds[i..] == [];
    AfterNothing(s.State());
  }

  lemma {:induction false} FixedSizes(f: Field, ds: seq<Datum>)
    requires f.ltype.Fixed32? || f.ltype.Fixed64?
    ensures EncodeItems(f, ds).Done? && |EncodeItems(f, ds).bytes| == (if f.ltype.Fixed32? then 4 else 8) * |ds|
    decreases |ds|
  {
    if ds != [] {
      FixedSizes(f, ds[1..]);
    }
  }

  lemma PackedAfter(o: Out, f: Field, ds: seq<Datum>)
    requires o.Good()
    ensures var items := EncodeItems(f, ds);
            var tag := Done(Tag(2, f.tag));
            After(o, Packed(f, ds)) ==
            if items.Done? then After(o, Then(tag, Then(Done(Varint(|items.bytes|)), items))) else Full
  {
    hide Varint, EncodeItems;
  }

  function Packed(f: Field, ds: seq<Datum>): Encoded {
    match EncodeItems(f, ds)
    case Failed => Failed
    case Done(s) => Done(Tag(2, f.tag) + Prefixed(s))
  }

  method WritePacked(s: OutStream, f: Field, ds: seq<Datum>) returns (ok: bool)
    requires s.Good() && FieldTagged(f) && Packable(f.ltype)
    modifies s
    ensures Took(old(s.State()), Packed(f, ds), s.State(), ok)
    decreases f, 2
  {
    hide After, EncodeItems, EncodeItem, Tag, Varint;
    ghost var items := EncodeItems(f, ds);
    PackedAfter(s.State(), f, ds);
    ghost var before := s.State();
    AfterThen(before, Done(Tag(2, f.tag)), Then(Done(Varint(if items.Done? then |items.bytes| else 0)), items));
    ok := WriteTag(s, 2, f.tag);
    if !ok {
      return;
    }
    AfterThen(s.State(), Done(Varint(if items.Done? then |items.bytes| else 0)), items);
    var size;
    if f.ltype.Fixed32? {
      FixedSizes(f, ds);
      size := 4 * |ds|;
    } else if f.ltype.Fixed64? {
      FixedSizes(f, ds);
      size := 8 * |ds|;
    } else {
      var sizing := new OutStream(false, [], 0);
      SizingIsExact(sizing.State(), items);
      ok := WriteItems(sizing, f, ds);
      if !ok {
        return;
      }
      size := sizing.bytesWritten;
    }
    ok := s.EncodeVarint(size);
    if !ok {
      return;
    }
    if !s.writing {
      Sized(s.State(), items);
      s.bytesWritten := s.bytesWritten + size;
      return;
    }
    ok := WriteItems(s, f, ds);
  }

  lemma SizingIsExact(o: Out, e: Encoded)
    requires !o.writing
    ensures After(o, e).Now? <==> e.Done?
    ensures e.Done? ==> After(o, e).out.bytesWritten == o.bytesWritten + |e.bytes|
  {}

  method WriteArray(s: OutStream, f: Field, ds: seq<Datum>, count: nat) returns (ok: bool)
    requires s.Good() && FieldTagged(f) && |ds| == f.arraySize
    modifies s
    ensures Took(old(s.State()), EncodeArray(f, ds, count), s.State(), ok)
    decreases f, 3
  {
    hide After, EncodeItems, EncodeItem, EncodeTagged;
    AfterNothing(s.State());
    NothingFails(s.State());
    if count == 0 {
      return true;
    }
    if count > f.arraySize {
      return false;
    }
    if Packable(f.ltype) {
      ok := WritePacked(s, f, ds[..count]);
    } else {
      ok := WriteTagged(s, f, ds[..count]);
    }
  }

  /** encode_basic_field, at the place the iterator is. */
  method WriteField(s: OutStream, iter: FieldIter, m: Memory) returns (ok: bool)
    requires s.Good() && iter.Valid() && iter.pos < |iter.start| && FieldTagged(iter.start[iter.pos])
    modifies s
    ensures Took(old(s.State()), EncodeField(iter.start, iter.pos, m), s.State(), ok)
    decreases iter.start, 0
  {
    hide After, EncodeItem, EncodeArray, Tag, IsDefault;
    var f := iter.start[iter.pos];
    var pSize := iter.pData + f.sizeOffset;
    AfterNothing(s.State());
    if f.htype.Repeated? {
      var count := if f.sizeOffset != 0 then Size(m, pSize) else f.arraySize;
      ok := WriteArray(s, f, Load(m, iter.pData, f.arraySize), count);
      return;
    }
    var there := match f.htype
      case Optional => if f.sizeOffset != 0 then Size(m, pSize) != 0 else !IsDefault(iter.start, iter.pos, m)
      case Oneof => Size(m, pSize) == f.tag
      case _ => true;
    if there {
      var d := Load(m, iter.pData, 1)[0];
      AfterThen(s.State(), Done(TagOf(f)), EncodeItem(f, d));
      ok := WriteTag(s, WireType(f.ltype), f.tag);
      if ok {
        ok := WriteItem(s, f, d);
      }
    } else {
      ok := true;
    }
  }

  /** pb_encode. */
  method WriteFields(s: OutStream, fields: seq<Field>, m: Memory) returns (ok: bool)
    requires s.Good() && WellTagged(fields)
    modifies s
    ensures Took(old(s.State()), EncodeFrom(fields, m, 0), s.State(), ok)
    decreases fields, 1
  {
    hide After, EncodeField;
    ghost var before := s.State();
    AfterNothing(before);
    var iter := new FieldIter(fields);
    var more := iter.Begin();
    while more
      invariant iter.Valid() && iter.start == fields && s.Good()
      invariant more ==> iter.pos < |fields|
      invariant After(before, EncodeFrom(fields, m, 0)) == After(s.State(), EncodeFrom(fields, m, if more then iter.pos else |fields|))
      decreases more, |fields| - iter.pos
    {
      AfterThen(s.State(), EncodeField(fields, iter.pos, m), EncodeFrom(fields, m, iter.pos + 1));
      ok := WriteField(s, iter, m);
      if !ok {
        return;
      }
      more := iter.Next();
    }
    AfterNothing(s.State());
    ok := true;
  }

  /** A counting pass says exactly how many bytes a writing pass will write, and so whether they fit. */
  lemma DryRunAgrees(sizing: Out, writer: Out, fields: seq<Field>, m: Memory)
    requires !sizing.writing && writer.writing && writer.Good()
    ensures var counted := After(sizing, EncodeFrom(fields, m, 0));
            var wrote := After(writer, EncodeFrom(fields, m, 0));
            && (wrote.Now? ==> counted.Now?)
            && (counted.Now? ==>
              var size := counted.out.bytesWritten - sizing.bytesWritten;
              && (wrote.Now? <==> writer.bytesWritten + size <= writer.maxSize)
              && (wrote.Now? ==> |wrote.out.written| == |writer.written| + size
                                 && wrote.out.bytesWritten == writer.bytesWritten + size))
  {
    hide EncodeFrom;
  }

  /** pb_get_encoded_size. */
  method GetEncodedSize(fields: seq<Field>, m: Memory) returns (ok: bool, size: nat)
    requires WellTagged(fields)
    ensures ok <==> EncodeFrom(fields, m, 0).Done?
    ensures ok ==> size == |EncodeFrom(fields, m, 0).bytes|
  {
    var stream := new OutStream(false, [], 0);
    ok := WriteFields(stream, fields, m);
    size := stream.bytesWritten;
  }
}
