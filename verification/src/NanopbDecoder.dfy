/** pb_decode.c: the decoder, its stream and its substreams. */
module PbDecoder {
  import opened Bytes
  import opened Coding
  import opened PbFields
  import opened PbDecode
  import PbEncode

  /** A buffer from the read pointer on, and how many of its bytes may be read. */
  class InStream {
    var state: seq<Byte>
    var bytesLeft: nat

    ghost predicate Valid()
      reads this
    {
      bytesLeft <= |state|
    }

    ghost function Left(): (s: seq<Byte>)
      requires Valid()
      reads this
      ensures |s| == bytesLeft
    {
      state[..bytesLeft]
    }

    ghost function Beyond(): seq<Byte>
      requires Valid()
      reads this
    {
      state[bytesLeft..]
    }

    constructor (state: seq<Byte>, size: nat)
      requires size <= |state|
      ensures Valid() && this.state == state && bytesLeft == size
    {
      this.state, bytesLeft := state, size;
    }

    method Read(n: nat) returns (ok: bool, bytes: seq<Byte>)
      requires Valid()
      modifies this
      ensures Valid() && Beyond() == old(Beyond())
      ensures ok <==> n <= |old(Left())|
      ensures ok ==> bytes == old(Left())[..n] && Left() == old(Left())[n..]
      ensures !ok ==> Left() == old(Left())
    {
      if n == 0 {
        return true, [];
      }
      if bytesLeft < n {
        return false, [];
      }
      bytes := state[..n];
      state := state[n..];
      bytesLeft := bytesLeft - n;
      ok := true;
    }

    method ReadByte() returns (ok: bool, byte: Byte)
      requires Valid()
      modifies this
      ensures Valid() && Beyond() == old(Beyond())
      ensures ok <==> old(Left()) != []
      ensures ok ==> byte == old(Left())[0] && Left() == old(Left())[1..]
    {
      if bytesLeft == 0 {
        return false, 0;
      }
      byte := state[0];
      state := state[1..];
      bytesLeft := bytesLeft - 1;
      ok := true;
    }

    method DecodeVarint32() returns (ok: bool, dest: nat)
      requires Valid()
      modifies this
      ensures Valid() && Beyond() == old(Beyond())
      ensures Gave(Varint32(old(Left())), ok, dest, Left())
    {
      hide More32;
      dest := 0;
      var byte;
      ok, byte := ReadByte();
      if !ok {
        return;
      }
      if (byte as nat) < B {
        dest := byte as nat;
        return;
      }
      var bitpos: nat, result: nat := 7, byte as nat % B;
      ghost var answer := More32(Left(), 7, result);
      while true
        invariant Valid() && Beyond() == old(Beyond()) && result < TWO_32
        invariant answer == More32(Left(), bitpos, result) == Varint32(old(Left()))
        decreases bytesLeft
      {
        More32Step(Left(), bitpos, result);
        ok, byte := ReadByte();
        if !ok {
          return;
        }
        if bitpos >= 32 {
          var signExtension := if bitpos < 63 then 0xFF else 0x01;
          if byte as nat % B != 0 && (result < TWO_31 || byte != signExtension) {
            ok := false;
            return;
          }
        } else {
          result := (result + byte as nat % B * Pow(2, bitpos)) % TWO_32;
        }
        bitpos := bitpos + 7;
        if (byte as nat) < B {
          break;
        }
      }
      if bitpos == 35 && (byte as nat) >= 16 {
        ok := false;
        return;
      }
      dest := result;
    }

    method DecodeVarint() returns (ok: bool, dest: nat)
      requires Valid()
      modifies this
      ensures Valid() && Beyond() == old(Beyond())
      ensures Gave(Varint64(old(Left())), ok, dest, Left())
    {
      hide Pow, GetVarint, Prepend;
      PrependNothing(GetVarint(Left(), 64));
      var bitpos: nat, result: nat := 0, 0;
      dest := 0;
      OnePow();
      while true
        invariant Valid() && Beyond() == old(Beyond())
        invariant GetVarint(old(Left()), 64) == Prepend(result, Pow(2, bitpos), GetVarint(Left(), 64 - bitpos))
        decreases bytesLeft
      {
        if bitpos >= 64 {
          GetVarintEnds(Left(), 64 - bitpos);
          return false, 0;
        }
        ghost var s := Left();
        var byte;
        ok, byte := ReadByte();
        if !ok {
          GetVarintEnds(s, 64 - bitpos);
          return;
        }
        VarintDigit(s, bitpos, result);
        result := result + byte as nat % B % Pow(2, 64 - bitpos) * Pow(2, bitpos);
        bitpos := bitpos + 7;
        if (byte as nat) < B {
          break;
        }
      }
      dest := result;
    }

    /** A substream over the bytes of a length-prefixed field. */
    method MakeSubstream() returns (ok: bool, sub: InStream)
      requires Valid()
      modifies this
      ensures fresh(sub)
      ensures ok == Chunk(old(Left())).Got?
      ensures !ok ==> Valid() && Beyond() == old(Beyond())
      ensures ok ==> sub.Valid() && sub.Left() == Chunk(old(Left())).value
      ensures ok ==> sub.Beyond() == Chunk(old(Left())).rest + old(Beyond())
      ensures ok ==> bytesLeft == |Chunk(old(Left())).rest|
    {
      hide Varint32;
      sub := new InStream([], 0);
      var size;
      ok, size := DecodeVarint32();
      if !ok {
        return;
      }
      if bytesLeft < size {
        ok := false;
        return;
      }
      sub := new InStream(state, size);
      assert state == Left() + Beyond();
      bytesLeft := bytesLeft - size;
    }

    /** Read what a substream left, and go on after it. */
    method CloseSubstream(sub: InStream) returns (ok: bool)
      requires sub != this && sub.Valid() && bytesLeft <= |sub.Beyond()|
      modifies this, sub
      ensures ok && Valid() && bytesLeft == old(bytesLeft)
      ensures state == old(sub.Beyond())
    {
      ok := true;
      if sub.bytesLeft > 0 {
        var bytes;
        ok, bytes := sub.Read(sub.bytesLeft);
      }
      state := sub.state;
      assert sub.state[0..] == sub.state;
    }

    method SkipVarint() returns (ok: bool)
      requires Valid()
      modifies this
      ensures Valid() && Beyond() == old(Beyond())
      ensures Gave(PbDecode.SkipVarint(old(Left())), ok, true, Left())
    {
      while true
        invariant Valid() && Beyond() == old(Beyond())
        invariant PbDecode.SkipVarint(old(Left())) == PbDecode.SkipVarint(Left())
        decreases bytesLeft
      {
        ghost var s := Left();
        var bytes;
        ok, bytes := Read(1);
        if !ok {
          return;
        }
        assert bytes[0] == s[0];
        if (bytes[0] as nat) < B {
          return;
        }
      }
    }

    method SkipField(wire: nat) returns (ok: bool)
      requires Valid()
      modifies this
      ensures Valid() && Beyond() == old(Beyond())
      ensures Gave(Skip(wire, old(Left())), ok, true, Left())
    {
      hide Varint32;
      var bytes;
      match wire {
        case 0 => ok := SkipVarint();
        case 1 => ok, bytes := Read(8);
        case 2 =>
          var length;
          ok, length := DecodeVarint32();
          if ok {
            ok, bytes := Read(length);
          }
        case 5 => ok, bytes := Read(4);
        case _ => ok := false;
      }
    }
  }

  lemma DigitAt(byte: nat, bitpos: nat, high: Parsed<nat>, result: nat)
    requires bitpos < 64 && byte < 256
    requires bitpos + 7 >= 64 ==> high.Fail?
    ensures byte < B ==> byte % B % Pow(2, 64 - bitpos) == byte % Pow(2, 64 - bitpos)
    ensures Prepend(result, Pow(2, bitpos), Prepend(byte % B, B, high)) ==
            Prepend(result + byte % B % Pow(2, 64 - bitpos) * Pow(2, bitpos), Pow(2, bitpos + 7), high)
  {
    hide Pow;
    SevenBits(bitpos + 7);
    PrependDigit(result, Pow(2, bitpos), byte % B, high);
    if bitpos + 7 < 64 {
      SevenBits(64 - bitpos);
      Below(byte % B, Pow(2, 64 - bitpos));
    }
  }

  lemma PrependNothing(high: Parsed<nat>)
    ensures Prepend(0, 1, high) == high
    ensures forall low: nat, scale: nat :: Prepend(low, scale, Fail) == Fail
  {}

  lemma VarintDigit(s: seq<Byte>, bitpos: nat, result: nat)
    requires s != [] && bitpos < 64
    ensures Prepend(result, Pow(2, bitpos), GetVarint(s, 64 - bitpos)) ==
            var next := result + s[0] as nat % B % Pow(2, 64 - bitpos) * Pow(2, bitpos);
            if s[0] as nat < B then Got(next, s[1..]) else Prepend(next, Pow(2, bitpos + 7), GetVarint(s[1..], 64 - bitpos - 7))
  {
    hide Pow, GetVarint;
    GetVarintStep(s, 64 - bitpos);
    if bitpos + 7 >= 64 {
      GetVarintEnds(s[1..], 64 - bitpos - 7);
    }
    DigitAt(s[0] as nat, bitpos, GetVarint(s[1..], 64 - bitpos - 7), result);
  }

  ghost predicate Gave<T>(r: Parsed<T>, ok: bool, value: T, left: seq<Byte>) {
    ok == r.Got? && (ok ==> value == r.value && left == r.rest)
  }

  lemma More32Step(s: seq<Byte>, bitpos: nat, result: nat)
    requires result < TWO_32
    ensures More32(s, bitpos, result) ==
            if s == [] then Fail
            else if bitpos >= 32 && s[0] as nat % B != 0 && (result < TWO_31 || s[0] as nat != if bitpos < 63 then 0xFF else 0x01) then Fail
            else
              var next := if bitpos >= 32 then result else (result + s[0] as nat % B * Pow(2, bitpos)) % TWO_32;
              if s[0] as nat >= B then More32(s[1..], bitpos + 7, next)
              else if bitpos == 28 && s[0] as nat >= 16 then Fail
              else Got(next, s[1..])
  {}

  // -------------------------------------------------------------------- defaults

  method SetItem(f: Field, d: Datum) returns (e: Datum)
    requires PbEncode.FieldTagged(f)
    ensures e == InitItem(f, d)
    decreases f
  {
    match f.ltype
    case Submessage =>
      if f.ptr.Fields? {
        var m := SetToDefaults(f.ptr.fields, MemOf(d));
        e := Msg(m);
      } else {
        e := Msg(MemOf(d));
      }
    case _ => e := if f.ptr.Default? then f.ptr.value else Zero(f);
  }

  /** pb_message_set_to_defaults. */
  method SetToDefaults(fields: seq<Field>, m: Memory) returns (n: Memory)
    requires PbEncode.WellTagged(fields)
    ensures n == Defaults(fields, m, 0)
    decreases fields
  {
    n := m;
    var iter := new FieldIter(fields);
    var more := iter.Begin();
    while more
      invariant iter.Valid() && iter.start == fields && (more ==> iter.pos < |fields|)
      invariant Defaults(fields, m, 0) == Defaults(fields, n, if more then iter.pos else |fields|)
      decreases more, |fields| - iter.pos
    {
      var f := iter.start[iter.pos];
      if f.htype.Repeated? || f.htype.Oneof? {
        n := SetSize(n, iter.pSize, 0);
      } else {
        if f.htype.Optional? && iter.pSize != iter.pData {
          n := SetSize(n, iter.pSize, 0);
        }
        var e := SetItem(f, Load(n, iter.pData, 1)[0]);
        n := Store(n, iter.pData, [e]);
      }
      more := iter.Next();
    }
  }

  // ----------------------------------------------------------------- the decoder

  method ReadNumber(s: InStream, f: Field, d: Datum) returns (ok: bool, e: Datum)
    requires s.Valid() && PbEncode.Packable(f.ltype)
    modifies s
    ensures s.Valid() && s.Beyond() == old(s.Beyond())
    ensures Gave(DecodeItem(f, old(s.Left()), d), ok, e, s.Left())
  {
    hide Varint32, Varint64;
    e := d;
    if f.ltype.Bool? {
      var v;
      ok, v := s.DecodeVarint32();
      e := Num(if v != 0 then 1 else 0);
    } else if f.ltype.Fixed32? || f.ltype.Fixed64? {
      var bytes;
      ok, bytes := s.Read(if f.ltype.Fixed32? then 4 else 8);
      e := Num(FixedValue(bytes));
    } else {
      var v;
      ok, v := s.DecodeVarint();
      if ok {
        ok, e := Checked(if f.ltype.Int? then IntOf(f, v) else if f.ltype.UInt? then UIntOf(f, v) else SIntOf(f, v));
      }
    }
  }

  method ReadBuffer(s: InStream, f: Field, d: Datum) returns (ok: bool, e: Datum)
    requires s.Valid() && (f.ltype.Bytes? || f.ltype.String? || f.ltype.FixedLengthBytes?)
    modifies s
    ensures s.Valid() && s.Beyond() == old(s.Beyond())
    ensures Gave(DecodeItem(f, old(s.Left()), d), ok, e, s.Left())
  {
    hide Varint32;
    e := d;
    var size, bytes;
    ok, size := s.DecodeVarint32();
    if !ok {
      return;
    }
    if f.ltype.FixedLengthBytes? && size == 0 {
      e := Raw(Zeros(f.dataSize));
      return;
    }
    ok := match f.ltype
      case Bytes => size + PbEncode.BYTES_HEADER <= f.dataSize
      case String => size + 1 <= f.dataSize
      case _ => size == f.dataSize;
    if ok {
      ok, bytes := s.Read(size);
      if ok {
        e := Raw(if f.ltype.String? then bytes + [0] + Tail(d, size + 1, f.dataSize) else bytes);
      }
    }
  }

  /** The decoder for the type of a field. */
  method ReadItem(s: InStream, f: Field, d: Datum) returns (ok: bool, e: Datum)
    requires s.Valid() && PbEncode.FieldTagged(f)
    modifies s
    ensures s.Valid() && s.Beyond() == old(s.Beyond())
    ensures Gave(DecodeItem(f, old(s.Left()), d), ok, e, s.Left())
    decreases s.bytesLeft, 1
  {
    hide DecodeItem;
    if f.ltype.Submessage? {
      ok, e := ReadSubmessage(s, f, d);
    } else if PbEncode.Packable(f.ltype) {
      ok, e := ReadNumber(s, f, d);
    } else {
      ok, e := ReadBuffer(s, f, d);
    }
  }

  method Checked(v: Maybe<int>) returns (ok: bool, e: Datum)
    ensures ok == v.Just? && (ok ==> e == Num(v.value))
  {
    ok := v.Just?;
    e := Num(if v.Just? then v.value else 0);
  }

  method ReadSubmessage(s: InStream, f: Field, d: Datum) returns (ok: bool, e: Datum)
    requires s.Valid() && PbEncode.FieldTagged(f) && f.ltype.Submessage?
    modifies s
    ensures s.Valid() && s.Beyond() == old(s.Beyond())
    ensures Gave(DecodeItem(f, old(s.Left()), d), ok, e, s.Left())
    decreases s.bytesLeft, 0
  {
    hide Chunk, Varint32, Varint64, DecodeMessage, Defaults;
    e := d;
    var sub;
    ok, sub := s.MakeSubstream();
    if !ok {
      return;
    }
    ghost var rest := Chunk(old(s.Left())).rest;
    if f.ptr.Fields? {
      var start := MemOf(d);
      if f.htype.Repeated? {
        start := SetToDefaults(f.ptr.fields, start);
      }
      var m;
      ok, m := ReadMessage(sub, f.ptr.fields, start);
      e := Msg(m);
    } else {
      ok := false;
    }
    var closed := s.CloseSubstream(sub);
    assert s.state == rest + old(s.Beyond());
    assert s.Left() == rest && s.Beyond() == old(s.Beyond());
  }

  /** More of an array: a packed run of items, or one. */
  method ReadRepeated(s: InStream, f: Field, wire: nat, d: seq<Datum>, size: nat)
    returns (ok: bool, items: seq<Datum>, n: nat)
    requires s.Valid() && PbEncode.FieldTagged(f) && |d| == f.arraySize
    modifies s
    ensures s.Valid() && s.Beyond() == old(s.Beyond())
    ensures Gave(DecodeRepeated(f, wire, old(s.Left()), d, size), ok, (items, n), s.Left())
    ensures |items| == f.arraySize
    decreases s.bytesLeft, 2
  {
    hide Chunk, DecodeItem;
    items, n := d, size;
    if wire == 2 && PbEncode.Packable(f.ltype) {
      ghost var chunk := Chunk(s.Left());
      var sub;
      ok, sub := s.MakeSubstream();
      if !ok {
        return;
      }
      while sub.bytesLeft > 0 && n < f.arraySize
        invariant sub.Valid() && |items| == f.arraySize && ok
        invariant sub.Beyond() == chunk.rest + old(s.Beyond()) && s.bytesLeft == |chunk.rest|
        invariant sub.bytesLeft <= |chunk.value|
        invariant DecodePacked(f, chunk.value, d, size) == DecodePacked(f, sub.Left(), items, n)
        decreases sub.bytesLeft, ok
      {
        var e;
        ok, e := ReadItem(sub, f, items[n]);
        if !ok {
          break;
        }
        items, n := items[n := e], n + 1;
      }
      ok := ok && sub.bytesLeft == 0;
      var closed := s.CloseSubstream(sub);
      assert s.Left() == chunk.rest && s.Beyond() == old(s.Beyond());
    } else {
      if n >= f.arraySize {
        ok := false;
        return;
      }
      var e;
      ok, e := ReadItem(s, f, items[n]);
      if ok {
        items, n := items[n := e], n + 1;
      }
    }
  }

  /** decode_static_field, at the place the iterator is. */
  method ReadField(s: InStream, iter: FieldIter, wire: nat, p: Progress) returns (ok: bool, q: Progress)
    requires s.Valid() && iter.Valid() && PbEncode.FieldTagged(At(iter.start, iter.pos)) && p.fixedField < |iter.start|
    modifies s
    ensures s.Valid() && s.Beyond() == old(s.Beyond())
    ensures Gave(DecodeField(iter.start, iter.pos, wire, old(s.Left()), p), ok, q, s.Left())
    decreases s.bytesLeft, 3
  {
    hide DecodeItem, DecodeRepeated, DataAt, SizeAt, RequiredBefore, Load, Size;
    var f, m := At(iter.start, iter.pos), p.mem;
    q := p;
    if f.htype.Repeated? {
      var fixedCount := iter.pSize == iter.pData;
      var items, n;
      ok, items, n := ReadRepeated(s, f, wire, Load(m, iter.pData, f.arraySize), if fixedCount then p.fixedSize else Size(m, iter.pSize));
      m := Store(m, iter.pData, items);
      q := if fixedCount then p.(mem := m, fixedSize := n) else p.(mem := SetSize(m, iter.pSize, n));
      return;
    }
    var d := Load(m, iter.pData, 1)[0];
    if f.htype.Optional? && iter.pSize != iter.pData {
      m := SetSize(m, iter.pSize, 1);
    }
    if f.htype.Oneof? {
      if f.ltype.Submessage? && Size(m, iter.pSize) != f.tag {
        d := SetItem(f, Msg(NOWHERE));
      }
      m := SetSize(m, iter.pSize, f.tag);
    }
    var e;
    ok, e := ReadItem(s, f, d);
    q := p.(mem := Store(m, iter.pData, [e]));
  }

  /** pb_decode_noinit. */
  method ReadMessage(s: InStream, fields: seq<Field>, m: Memory) returns (ok: bool, n: Memory)
    requires s.Valid() && PbEncode.WellTagged(fields)
    modifies s
    ensures s.Valid() && s.Beyond() == old(s.Beyond())
    ensures Gave(DecodeMessage(fields, old(s.Left()), m), ok, n, s.Left())
    decreases s.bytesLeft, 5
  {
    hide Varint32, DecodeField, DataAt, SizeAt, RequiredBefore, Skip;
    n := m;
    var p := Progress(m, -1, 0, {});
    ghost var start := p;
    var iter := new FieldIter(fields);
    var any := iter.Begin();
    while s.bytesLeft > 0
      invariant s.Valid() && s.Beyond() == old(s.Beyond()) && s.bytesLeft <= old(s.bytesLeft)
      invariant iter.Valid() && iter.start == fields && p.fixedField < |fields|
      invariant DecodeFields(fields, old(s.Left()), start) == DecodeFields(fields, s.Left(), p)
      decreases s.bytesLeft
    {
      var key;
      ok, key := s.DecodeVarint32();
      if !ok {
        return;
      }
      if key == 0 {
        break;
      }
      var found := iter.FindTag(key / 8);
      if !found {
        ok := s.SkipField(key % 8);
        if !ok {
          return;
        }
        continue;
      }
      var f := At(fields, iter.pos);
      if f.htype.Repeated? && iter.pSize == iter.pData && p.fixedField != iter.pos {
        if p.fixedField >= 0 && p.fixedSize != fields[p.fixedField].arraySize {
          return false, m;
        }
        p := p.(fixedField := iter.pos, fixedSize := 0);
      }
      if f.htype.Required? && iter.requiredFieldIndex < MAX_REQUIRED {
        p := p.(seen := p.seen + {iter.requiredFieldIndex});
      }
      ok, p := ReadField(s, iter, key % 8, p);
      if !ok {
        return;
      }
    }
    if p.fixedField >= 0 && p.fixedSize != fields[p.fixedField].arraySize {
      return false, m;
    }
    ok := CheckRequired(iter, p.seen);
    n := p.mem;
  }

  /** Whether every required field that is tracked has been seen. */
  method CheckRequired(iter: FieldIter, seen: set<nat>) returns (ok: bool)
    requires iter.Valid() && Tagged(iter.start)
    modifies iter
    ensures iter.Valid() && ok == AllSeen(seen, Tracked(iter.start))
  {
    var count, last := 0, END;
    var more := true;
    while more
      invariant iter.Valid()
      invariant !more ==> iter.pos == 0
      invariant !more && iter.start != [] ==> last == iter.start[|iter.start| - 1] && count == RequiredBefore(iter.start, |iter.start| - 1)
      invariant !more && iter.start == [] ==> count == 0
      decreases more, |iter.start| - iter.pos
    {
      count := iter.requiredFieldIndex;
      last := At(iter.start, iter.pos);
      more := iter.Next();
    }
    if last.htype.Required? && At(iter.start, iter.pos).tag != 0 {
      count := count + 1;
    }
    if count > MAX_REQUIRED {
      count := MAX_REQUIRED;
    }
    for i := 0 to count
      invariant forall k :: 0 <= k < i ==> k in seen
    {
      if i !in seen {
        return false;
      }
    }
    ok := true;
  }

  /** pb_decode. */
  method Decode(s: InStream, fields: seq<Field>, before: Memory) returns (ok: bool, m: Memory)
    requires s.Valid() && PbEncode.WellTagged(fields)
    modifies s
    ensures s.Valid() && s.Beyond() == old(s.Beyond())
    ensures Gave(DecodeMessage(fields, old(s.Left()), Defaults(fields, before, 0)), ok, m, s.Left())
  {
    var start := SetToDefaults(fields, before);
    ok, m := ReadMessage(s, fields, start);
  }
}
