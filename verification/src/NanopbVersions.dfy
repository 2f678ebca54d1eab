/** pb_decode.c: messages written with a newer or an older descriptor than they are read with. */
module PbVersions {
  import opened Bytes
  import opened Coding
  import opened PbFields
  import opened PbEncode
  import opened PbDecode
  import opened PbRoundTrip

  ghost predicate Unknown(fields: seq<Field>, tag: nat) {
    0 < tag < 0x2000_0000 && forall i :: 0 <= i < |fields| ==> fields[i].tag != tag
  }

  lemma {:induction false} SkipVarintBack(v: nat, rest: seq<Byte>)
    ensures SkipVarint(Varint(v) + rest) == Got(true, rest)
  {
    var s := Varint(v) + rest;
    if v < B {
      assert s[1..] == rest;
    } else {
      SkipVarintBack(v / B, rest);
      assert s[1..] == Varint(v / B) + rest;
    }
  }

  lemma SkipPrefixed(s: seq<Byte>, rest: seq<Byte>)
    requires |s| < TWO_32
    ensures Skip(2, Prefixed(s) + rest) == Got(true, rest)
  {
    ChunkBack(s, rest);
  }

  /** What an encoder writes for an item is what its wire type says is to be skipped. */
  lemma ItemSkipped(g: Field, d: Datum, rest: seq<Byte>)
    requires EncodeItem(g, d).Done? && |EncodeItem(g, d).bytes| < TWO_32
    ensures Skip(WireType(g.ltype), EncodeItem(g, d).bytes + rest) == Got(true, rest)
  {
    hide Varint, SkipVarint, Chunk, EncodeFrom, Fixed;
    var x := EncodeItem(g, d).bytes;
    match g.ltype
    case Bool => SkipVarintBack(if Number(d) != 0 then 1 else 0, rest);
    case Int => SkipVarintBack(Bits64(Number(d)), rest);
    case UInt => SkipVarintBack(Bits64(Number(d)), rest);
    case SInt => SkipVarintBack(ZigZag(Number(d)), rest);
    case Fixed32 => assert |x| == 4 && (x + rest)[4..] == rest by { FixedLength(Number(d) % TWO_32, 4); }
    case Fixed64 => assert |x| == 8 && (x + rest)[8..] == rest by { FixedLength(Bits64(Number(d)), 8); }
    case Bytes => SkipPrefixed(d.bytes, rest);
    case String => SkipPrefixed(Text(d.bytes), rest);
    case FixedLengthBytes => SkipPrefixed(d.bytes, rest);
    case Submessage => SkipPrefixed(EncodeFrom(g.ptr.fields, d.mem, 0).bytes, rest);
  }

  lemma {:induction false} FixedLength(v: nat, n: nat)
    ensures |Fixed(v, n)| == n
  {}

  lemma KeySkipped(fields: seq<Field>, s: seq<Byte>, key: nat, x: seq<Byte>, rest: seq<Byte>, p: Progress)
    requires p.fixedField < |fields| && s != [] && Varint32(s) == Got(key, x) && key != 0
    requires Find(fields, key / 8) < 0 && Skip(key % 8, x) == Got(true, rest)
    ensures DecodeFields(fields, s, p) == DecodeFields(fields, rest, p)
  {
    hide Varint32, DecodeField, Enter, Skip, Find;
  }

  lemma TagSkipped(fields: seq<Field>, wire: nat, tag: nat, x: seq<Byte>, rest: seq<Byte>, p: Progress)
    requires Unknown(fields, tag) && wire < 8 && p.fixedField < |fields| && Skip(wire, x + rest) == Got(true, rest)
    ensures DecodeFields(fields, Tag(wire, tag) + x + rest, p) == DecodeFields(fields, rest, p)
  {
    hide Varint, Varint32, DecodeFields, Skip, Find;
    var key := 8 * tag + wire;
    Varint32Back(key, x + rest);
    Assoc(Tag(wire, tag), x, rest);
    assert key / 8 == tag && key % 8 == wire && key != 0;
    assert Varint(key) != [] by { MoreDigits(key); }
    NotFound(fields, tag);
    KeySkipped(fields, Varint(key) + (x + rest), key, x + rest, rest, p);
  }

  lemma NotFound(fields: seq<Field>, tag: nat)
    requires Unknown(fields, tag)
    ensures Find(fields, tag) < 0
  {}

  /** An item of any type under an unknown tag changes nothing, whatever has been read and whatever follows. */
  lemma UnknownItem(fields: seq<Field>, g: Field, d: Datum, rest: seq<Byte>, p: Progress)
    requires Unknown(fields, g.tag) && p.fixedField < |fields|
    requires EncodeItem(g, d).Done? && |EncodeItem(g, d).bytes| < TWO_32
    ensures DecodeFields(fields, TagOf(g) + EncodeItem(g, d).bytes + rest, p) == DecodeFields(fields, rest, p)
  {
    hide EncodeItem, DecodeFields, Skip;
    ItemSkipped(g, d, rest);
    TagSkipped(fields, WireType(g.ltype), g.tag, EncodeItem(g, d).bytes, rest, p);
  }

  /** Nor does an array, one item after another ... */
  lemma {:induction false} UnknownTagged(fields: seq<Field>, g: Field, ds: seq<Datum>, rest: seq<Byte>, p: Progress)
    requires Unknown(fields, g.tag) && p.fixedField < |fields|
    requires EncodeTagged(g, ds).Done? && |EncodeTagged(g, ds).bytes| < TWO_32
    ensures DecodeFields(fields, EncodeTagged(g, ds).bytes + rest, p) == DecodeFields(fields, rest, p)
    decreases |ds|
  {
    hide EncodeItem, DecodeFields;
    if ds == [] {
      assert [] + rest == rest;
    } else {
      var x, tail := EncodeItem(g, ds[0]).bytes, EncodeTagged(g, ds[1..]).bytes;
      UnknownItem(fields, g, ds[0], tail + rest, p);
      UnknownTagged(fields, g, ds[1..], rest, p);
      Assoc(TagOf(g) + x, tail, rest);
    }
  }

  /** ... or packed, nor any other field. */
  lemma UnknownField(fields: seq<Field>, gs: seq<Field>, i: nat, m: Memory, rest: seq<Byte>, p: Progress)
    requires i < |gs| && Unknown(fields, gs[i].tag) && p.fixedField < |fields|
    requires EncodeField(gs, i, m).Done? && |EncodeField(gs, i, m).bytes| < TWO_32
    ensures DecodeFields(fields, EncodeField(gs, i, m).bytes + rest, p) == DecodeFields(fields, rest, p)
  {
    hide EncodeItem, EncodeItems, EncodeTagged, DecodeFields, Skip, Present, CountOf, Load, Varint;
    var g := gs[i];
    assert [] + rest == rest;
    if g.htype.Repeated? {
      var ds, count := Load(m, DataAt(gs, i), g.arraySize), CountOf(gs, i, m);
      if 0 < count <= g.arraySize {
        if Packable(g.ltype) {
          var s := EncodeItems(g, ds[..count]).bytes;
          SkipPrefixed(s, rest);
          TagSkipped(fields, 2, g.tag, Prefixed(s), rest, p);
        } else {
          UnknownTagged(fields, g, ds[..count], rest, p);
        }
      }
    } else if Present(gs, i, m) {
      UnknownItem(fields, g, Load(m, DataAt(gs, i), 1)[0], rest, p);
    }
  }

  lemma {:induction false} UnknownFields(fields: seq<Field>, gs: seq<Field>, i: nat, m: Memory, p: Progress)
    requires i <= |gs| && p.fixedField < |fields| && forall k :: i <= k < |gs| ==> Unknown(fields, gs[k].tag)
    requires EncodeFrom(gs, m, i).Done? && |EncodeFrom(gs, m, i).bytes| < TWO_32
    ensures DecodeFields(fields, EncodeFrom(gs, m, i).bytes, p) == Got(p, [])
    decreases |gs| - i
  {
    if i < |gs| {
      hide DecodeFields, EncodeField;
      UnknownFields(fields, gs, i + 1, m, p);
      UnknownField(fields, gs, i, m, EncodeFrom(gs, m, i + 1).bytes, p);
    }
  }

  // ------------------------------------------------- written with a newer descriptor

  lemma {:induction false} SamePlaces(fields: seq<Field>, extra: seq<Field>, i: nat)
    requires i < |fields|
    ensures DataAt(fields + extra, i) == DataAt(fields, i) && SizeAt(fields + extra, i) == SizeAt(fields, i)
  {
    if i > 0 {
      SamePlaces(fields, extra, i - 1);
    }
  }

  lemma SameEncoding(fields: seq<Field>, extra: seq<Field>, i: nat, m: Memory)
    requires i < |fields|
    ensures EncodeField(fields + extra, i, m) == EncodeField(fields, i, m)
  {
    SamePlaces(fields, extra, i);
    hide EncodeItem, EncodeArray, IsZero, DataAt, SizeAt;
  }

  /** Known fields first, then those that are new. */
  lemma {:induction false} KnownFirst(fields: seq<Field>, extra: seq<Field>, m: Memory, i: nat)
    requires i <= |fields| && EncodeFrom(fields + extra, m, i).Done?
    ensures EncodeFrom(fields, m, i).Done? && EncodeFrom(fields + extra, m, |fields|).Done?
    ensures EncodeFrom(fields + extra, m, i).bytes
      == EncodeFrom(fields, m, i).bytes + EncodeFrom(fields + extra, m, |fields|).bytes
    decreases |fields| - i
  {
    if i == |fields| {
      var rest := EncodeFrom(fields + extra, m, i).bytes;
      assert [] + rest == rest;
    } else {
      hide EncodeField;
      SameEncoding(fields, extra, i, m);
      KnownFirst(fields, extra, m, i + 1);
      Assoc(EncodeField(fields, i, m).bytes, EncodeFrom(fields, m, i + 1).bytes,
        EncodeFrom(fields + extra, m, |fields|).bytes);
    }
  }

  /** All known fields are read back, whatever follows them. */
  lemma {:induction false} KnownBack(fields: seq<Field>, src: Memory, i: nat, p: Progress, tail: seq<Byte>)
    returns (q: Progress)
    requires WellFormed(fields) && Stored(fields, src) && i <= |fields| && Upto(fields, src, i, p)
    requires EncodeFrom(fields, src, i).Done? && |EncodeFrom(fields, src, i).bytes| < TWO_32
    ensures q.fixedField < |fields| && p.fixedField < |fields| && Upto(fields, src, |fields|, q)
    ensures DecodeFields(fields, EncodeFrom(fields, src, i).bytes + tail, p) == DecodeFields(fields, tail, q)
    decreases |fields| - i
  {
    hide WellFormed, EncodeField, DecodeFields, Upto;
    assert i < |fields| ==> FieldStored(fields, i, src);
    hide Stored, FieldStored;
    UptoBounds(fields, src, i, p);
    if i == |fields| {
      q := p;
      assert [] + tail == tail;
    } else {
      var x, more := EncodeField(fields, i, src).bytes, EncodeFrom(fields, src, i + 1).bytes;
      var next := Advance(fields, src, i, p, more + tail);
      q := KnownBack(fields, src, i + 1, next, tail);
      Assoc(x, more, tail);
    }
  }

  /**
   * Forward compatibility: a message of a descriptor with further fields at its end, read with the older
   * descriptor, has the same known fields with the same contents.
   */
  lemma NewerMessageBack(fields: seq<Field>, extra: seq<Field>, src: Memory, before: Memory) returns (m: Memory)
    requires WellFormed(fields) && Stored(fields, src) && forall k :: 0 <= k < |extra| ==> Unknown(fields, extra[k].tag)
    requires EncodeFrom(fields + extra, src, 0).Done? && |EncodeFrom(fields + extra, src, 0).bytes| < TWO_32
    ensures DecodeMessage(fields, EncodeFrom(fields + extra, src, 0).bytes, Defaults(fields, before, 0)) == Got(m, [])
    ensures Same(fields, src, m)
  {
    hide EncodeFrom, DecodeFields, WellFormed, Stored, Same, Fresh, Upto, RequiredBefore, Unknown;
    DefaultsFresh(fields, before, 0);
    var p := Progress(Defaults(fields, before, 0), -1, 0, {});
    FreshUpto(fields, src, p);
    KnownFirst(fields, extra, src, 0);
    var gs := fields + extra;
    var q := KnownBack(fields, src, 0, p, EncodeFrom(gs, src, |fields|).bytes);
    assert forall k :: |fields| <= k < |gs| ==> gs[k] == extra[k - |fields|];
    UnknownFields(fields, gs, |fields|, src, q);
    UptoAll(fields, src, q);
    m := q.mem;
  }

  // ------------------------------------------------ written with an older descriptor

  lemma PrefixStored(fields: seq<Field>, extra: seq<Field>, i: nat, src: Memory)
    requires i < |fields| && FieldStored(fields, i, src)
    ensures FieldStored(fields + extra, i, src)
  {
    hide ItemStored, DataAt, SizeAt, Load, Size;
    SamePlaces(fields, extra, i);
    var size := Size(src, SizeAt(fields, i));
    if fields[i].htype.Oneof? && size != 0 {
      var j: nat :| SameUnion(fields, i, j) && fields[j].tag == size;
      SamePlaces(fields, extra, j);
      assert SameUnion(fields + extra, i, j);
    }
  }

  ghost predicate SeenBelow(fields: seq<Field>, i: nat, seen: set<nat>)
    requires i <= |fields|
  {
    forall k :: k in seen ==> k < RequiredBefore(fields, i)
  }

  lemma {:induction false} OldFields(fields: seq<Field>, extra: seq<Field>, src: Memory, i: nat, p: Progress)
    returns (q: Progress)
    requires WellFormed(fields + extra) && Stored(fields, src) && i <= |fields|
    requires Upto(fields + extra, src, i, p) && SeenBelow(fields + extra, i, p.seen)
    requires EncodeFrom(fields, src, i).Done? && |EncodeFrom(fields, src, i).bytes| < TWO_32
    ensures p.fixedField < |fields + extra|
    ensures DecodeFields(fields + extra, EncodeFrom(fields, src, i).bytes, p) == Got(q, [])
    ensures Upto(fields + extra, src, |fields|, q) && SeenBelow(fields + extra, |fields|, q.seen)
    decreases |fields| - i
  {
    hide WellFormed, EncodeField, Upto;
    var gs := fields + extra;
    UptoBounds(gs, src, i, p);
    if i == |fields| {
      q := p;
    } else {
      assert FieldStored(fields, i, src);
      hide Stored, FieldStored, DecodeFields;
      PrefixStored(fields, extra, i, src);
      SameEncoding(fields, extra, i, src);
      var next := Advance(gs, src, i, p, EncodeFrom(fields, src, i + 1).bytes);
      q := OldFields(fields, extra, src, i + 1, next);
    }
  }

  /** One of the required fields that are checked for is from here on. */
  ghost predicate Demanded(fields: seq<Field>, n: nat) {
    exists j :: n <= j < |fields| && fields[j].htype.Required? && RequiredBefore(fields, j) < MAX_REQUIRED
  }

  lemma {:induction false} RequiredGrows(fields: seq<Field>, i: nat, j: nat)
    requires i <= j <= |fields|
    ensures RequiredBefore(fields, i) <= RequiredBefore(fields, j)
    ensures RequiredBefore(fields, i) < RequiredBefore(fields, j) ==>
      exists k :: i <= k < j && fields[k].htype.Required? && RequiredBefore(fields, k) == RequiredBefore(fields, i)
    decreases j - i
  {
    if i < j {
      RequiredGrows(fields, i, j - 1);
    }
  }

  lemma AllSeenUnlessDemanded(fields: seq<Field>, n: nat, seen: set<nat>)
    requires n <= |fields| && SeenUpto(fields, n, seen) && SeenBelow(fields, n, seen)
    ensures AllSeen(seen, Tracked(fields)) <==> !Demanded(fields, n)
  {
    hide RequiredBefore;
    RequiredGrows(fields, n, |fields|);
    if Demanded(fields, n) {
      var j :| n <= j < |fields| && fields[j].htype.Required? && RequiredBefore(fields, j) < MAX_REQUIRED;
      RequiredGrows(fields, n, j);
      RequiredAt(fields, j);
      RequiredGrows(fields, j + 1, |fields|);
      assert RequiredBefore(fields, j) !in seen;
    }
  }

  lemma RequiredAt(fields: seq<Field>, j: nat)
    requires j < |fields| && fields[j].htype.Required?
    ensures RequiredBefore(fields, j + 1) == RequiredBefore(fields, j) + 1
  {}

  /** Nothing has been decoded into a field, or it is not the member of its union that is set. */
  ghost predicate Unset(fields: seq<Field>, i: nat, m: Memory)
    requires i < |fields|
  {
    if fields[i].htype.Oneof? then Size(m, SizeAt(fields, i)) != fields[i].tag else FreshField(fields, i, m)
  }

  lemma OldFieldSame(fields: seq<Field>, extra: seq<Field>, i: nat, src: Memory, p: Progress)
    requires WellFormed(fields + extra) && i < |fields| && FieldStored(fields, i, src)
    requires Upto(fields + extra, src, |fields|, p)
    ensures SameField(fields, i, src, p.mem)
  {
    hide WellFormed, ItemStored, SameItem, DataAt, SizeAt, Load, Size;
    var gs := fields + extra;
    SamePlaces(fields, extra, i);
    assert FieldUpto(gs, src, |fields|, i, p.mem);
    if fields[i].htype.Oneof? {
      var w := Size(src, SizeAt(fields, i));
      if w != 0 {
        var j: nat :| SameUnion(fields, i, j) && fields[j].tag == w;
        SamePlaces(fields, extra, j);
        assert SameUnion(gs, i, j);
        assert Chosen(gs, src, |fields|, i);
      }
    }
  }

  lemma NewFieldUnset(fields: seq<Field>, n: nat, i: nat, src: Memory, p: Progress)
    requires WellFormed(fields) && n <= i < |fields| && Upto(fields, src, n, p)
    ensures Unset(fields, i, p.mem)
  {
    hide WellFormed, SameItem, DataAt, SizeAt, Load, Size;
    Tags(fields, i);
    assert FieldUpto(fields, src, n, i, p.mem);
    forall k: nat | k < n ensures fields[k].tag != fields[i].tag {
      Places(fields, i, k);
    }
  }

  /**
   * Backward compatibility: a message of an older descriptor is refused exactly when one of the required fields
   * added since is among those that are checked for; otherwise its fields come back, and those added are not set.
   */
  lemma OlderMessageBack(fields: seq<Field>, extra: seq<Field>, src: Memory, before: Memory) returns (m: Memory)
    requires WellFormed(fields + extra) && Stored(fields, src)
    requires EncodeFrom(fields, src, 0).Done? && |EncodeFrom(fields, src, 0).bytes| < TWO_32
    ensures var gs := fields + extra;
      var r := DecodeMessage(gs, EncodeFrom(fields, src, 0).bytes, Defaults(gs, before, 0));
      && (r.Fail? <==> Demanded(gs, |fields|))
      && (r.Got? ==> r == Got(m, []) && Same(fields, src, m) && forall i :: |fields| <= i < |gs| ==> Unset(gs, i, m))
  {
    hide WellFormed, EncodeFrom, DecodeFields, Stored, FieldStored, SameField, Unset, FieldUpto, RequiredBefore, Demanded;
    var gs := fields + extra;
    DefaultsFresh(gs, before, 0);
    var p := Progress(Defaults(gs, before, 0), -1, 0, {});
    FreshUpto(gs, src, p);
    var q := OldFields(fields, extra, src, 0, p);
    AllSeenUnlessDemanded(gs, |fields|, q.seen);
    m := q.mem;
    forall i | 0 <= i < |fields| ensures SameField(fields, i, src, m) {
      assert FieldStored(fields, i, src) by { StoredAt(fields, i, src); }
      OldFieldSame(fields, extra, i, src, q);
    }
    forall i | |fields| <= i < |gs| ensures Unset(gs, i, m) {
      NewFieldUnset(gs, |fields|, i, src, q);
    }
  }

  lemma StoredAt(fields: seq<Field>, i: nat, m: Memory)
    requires i < |fields| && Stored(fields, m)
    ensures FieldStored(fields, i, m)
  {}
}
