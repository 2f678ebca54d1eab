/** pb_decode.c: what a string of bytes is decoded to. */
module PbDecode {
  import opened Bytes
  import opened Coding
  import opened PbFields
  import PbEncode

  const TWO_31: nat := 0x8000_0000
  const TWO_63: nat := 0x8000_0000_0000_0000

  // ------------------------------------------------------------------- numbers

  /** pb_decode_varint32: a varint of 32 bits, or of 64 that only repeat the sign. */
  function Varint32(s: seq<Byte>): (r: Parsed<nat>)
    ensures r.Got? ==> r.value < TWO_32 && |r.rest| < |s|
  {
    if s == [] then Fail
    else if (s[0] as nat) < B then Got(s[0] as nat, s[1..])
    else More32(s[1..], 7, s[0] as nat % B)
  }

  function More32(s: seq<Byte>, bitpos: nat, result: nat): (r: Parsed<nat>)
    requires result < TWO_32
    ensures r.Got? ==> r.value < TWO_32 && |r.rest| < |s|
  {
    if s == [] then Fail
    else
      var byte := s[0] as nat;
      if bitpos >= 32 && byte % B != 0 && (result < TWO_31 || byte != if bitpos < 63 then 0xFF else 0x01) then Fail
      else
        var next := if bitpos >= 32 then result else (result + byte % B * Pow(2, bitpos)) % TWO_32;
        if byte >= B then More32(s[1..], bitpos + 7, next)
        else if bitpos == 28 && byte >= 16 then Fail
        else Got(next, s[1..])
  }

  /** pb_decode_varint. */
  function Varint64(s: seq<Byte>): (r: Parsed<nat>)
    ensures r.Got? ==> r.value < TWO_64 && |r.rest| < |s|
  {
    var r := GetVarint(s, 64);
    if r.Got? then VarintInRange(s, 64); Pow64(); r else r
  }

  function Signed(v: nat, half: nat): int { if v >= half then v - 2 * half else v }

  function Half(size: nat): nat {
    match size
    case 1 => 0x80
    case 2 => 0x8000
    case 4 => TWO_31
    case _ => TWO_63
  }

  predicate InInt(v: int, size: nat) { 0 <= v + Half(size) < 2 * Half(size) }

  function UnZigZag(v: nat): int { if v % 2 == 1 then -(v / 2) - 1 else v / 2 }

  datatype Maybe<T> = Nothing | Just(value: T)

  function IntOf(f: Field, v: nat): Maybe<int> {
    var value := if f.dataSize == 8 then Signed(v, TWO_63) else Signed(v % TWO_32, TWO_31);
    if PbEncode.IntSize(f.dataSize) && InInt(value, f.dataSize) then Just(value) else Nothing
  }

  function UIntOf(f: Field, v: nat): Maybe<int> {
    if PbEncode.IntSize(f.dataSize) && v < 2 * Half(f.dataSize) then Just(v) else Nothing
  }

  function SIntOf(f: Field, v: nat): Maybe<int> {
    if PbEncode.IntSize(f.dataSize) && InInt(UnZigZag(v), f.dataSize) then Just(UnZigZag(v)) else Nothing
  }

  function Numbered(v: Maybe<int>, rest: seq<Byte>): Parsed<Datum> {
    if v.Just? then Got(Num(v.value), rest) else Fail
  }

  /** A length, and that many bytes. */
  function Chunk(s: seq<Byte>): (r: Parsed<seq<Byte>>)
    ensures r.Got? ==> |r.value| + |r.rest| < |s|
  {
    match Varint32(s)
    case Fail => Fail
    case Got(size, rest) => if |rest| < size then Fail else Got(rest[..size], rest[size..])
  }

  // ------------------------------------------------------------------ defaults

  const NOWHERE := Memory(map[], map[])

  function MemOf(d: Datum): Memory { if d.Msg? then d.mem else NOWHERE }

  /** The item a field starts from. */
  function InitItem(f: Field, d: Datum): Datum
    decreases f, 0
  {
    match f.ltype
    case Submessage => Msg(if f.ptr.Fields? then Defaults(f.ptr.fields, MemOf(d), 0) else MemOf(d))
    case _ => if f.ptr.Default? then f.ptr.value else Zero(f)
  }

  function Zero(f: Field): Datum {
    match f.ltype
    case Bytes => Raw([])
    case String => Raw(Zeros(f.dataSize))
    case FixedLengthBytes => Raw(Zeros(f.dataSize))
    case _ => Num(0)
  }

  /** pb_field_set_to_default: no count, no flag, no tag, and a default value where there is no count or tag. */
  function InitField(fields: seq<Field>, i: nat, m: Memory): Memory
    requires i < |fields|
    decreases fields, |fields| - i, 0
  {
    var f := fields[i];
    var pData, pSize := DataAt(fields, i), SizeAt(fields, i);
    if f.htype.Repeated? || f.htype.Oneof? then SetSize(m, pSize, 0)
    else
      var cleared := if f.htype.Optional? && pSize != pData then SetSize(m, pSize, 0) else m;
      Store(cleared, pData, [InitItem(f, Load(m, pData, 1)[0])])
  }

  function Defaults(fields: seq<Field>, m: Memory, i: nat): Memory
    requires i <= |fields|
    decreases fields, |fields| - i, 1
  {
    if i == |fields| then m else Defaults(fields, InitField(fields, i, m), i + 1)
  }

  // ------------------------------------------------------------------ the items

  /** One item, over what was there. */
  function DecodeItem(f: Field, s: seq<Byte>, d: Datum): (r: Parsed<Datum>)
    ensures r.Got? ==> |r.rest| < |s|
    decreases |s|, 0
  {
    match f.ltype
    case Bool =>
      (match Varint32(s)
       case Fail => Fail
       case Got(v, rest) => Got(Num(if v != 0 then 1 else 0), rest))
    case Int =>
      (match Varint64(s)
       case Fail => Fail
       case Got(v, rest) => Numbered(IntOf(f, v), rest))
    case UInt =>
      (match Varint64(s)
       case Fail => Fail
       case Got(v, rest) => Numbered(UIntOf(f, v), rest))
    case SInt =>
      (match Varint64(s)
       case Fail => Fail
       case Got(v, rest) => Numbered(SIntOf(f, v), rest))
    case Fixed32 => if |s| < 4 then Fail else Got(Num(FixedValue(s[..4])), s[4..])
    case Fixed64 => if |s| < 8 then Fail else Got(Num(FixedValue(s[..8])), s[8..])
    case Bytes =>
      (match Chunk(s)
       case Fail => Fail
       case Got(b, rest) => if |b| + PbEncode.BYTES_HEADER > f.dataSize then Fail else Got(Raw(b), rest))
    case String =>
      (match Chunk(s)
       case Fail => Fail
       case Got(b, rest) => if |b| + 1 > f.dataSize then Fail else Got(Raw(b + [0] + Tail(d, |b| + 1, f.dataSize)), rest))
    case FixedLengthBytes =>
      (match Chunk(s)
       case Fail => Fail
       case Got(b, rest) =>
         if b == [] then Got(Raw(Zeros(f.dataSize)), rest) else if |b| != f.dataSize then Fail else Got(Raw(b), rest))
    case Submessage =>
      match Chunk(s)
      case Fail => Fail
      case Got(b, rest) =>
        if !f.ptr.Fields? then Fail
        else
          var start := if f.htype.Repeated? then Defaults(f.ptr.fields, MemOf(d), 0) else MemOf(d);
          match DecodeMessage(f.ptr.fields, b, start)
          case Fail => Fail
          case Got(m, _) => Got(Msg(m), rest)
  }

  /** What a buffer holds from a place on. */
  function Tail(d: Datum, from: nat, size: nat): (r: seq<Byte>)
    requires from <= size
    ensures |r| == size - from
  {
    if d.Raw? && |d.bytes| == size then d.bytes[from..] else Zeros(size - from)
  }

  /** The items of a packed array, after the n there are. */
  function DecodePacked(f: Field, s: seq<Byte>, items: seq<Datum>, n: nat): Maybe<(seq<Datum>, nat)>
    requires |items| == f.arraySize
    decreases |s|, 1
  {
    if s == [] then Just((items, n))
    else if n >= f.arraySize then Nothing
    else
      match DecodeItem(f, s, items[n])
      case Fail => Nothing
      case Got(d, rest) => DecodePacked(f, rest, items[n := d], n + 1)
  }

  /** More of an array that has n items. */
  function DecodeRepeated(f: Field, wire: nat, s: seq<Byte>, items: seq<Datum>, n: nat): (r: Parsed<(seq<Datum>, nat)>)
    requires |items| == f.arraySize
    ensures r.Got? ==> |r.rest| < |s|
    decreases |s|, 2
  {
    if wire == 2 && PbEncode.Packable(f.ltype) then
      (match Chunk(s)
       case Fail => Fail
       case Got(b, rest) =>
         match DecodePacked(f, b, items, n)
         case Nothing => Fail
         case Just(r) => Got(r, rest))
    else if n >= f.arraySize then Fail
    else
      match DecodeItem(f, s, items[n])
      case Fail => Fail
      case Got(d, rest) => Got((items[n := d], n + 1), rest)
  }

  /** The memory, the fixed-count array being filled and how far it is, and the required fields seen. */
  datatype Progress = Progress(mem: Memory, fixedField: int, fixedSize: nat, seen: set<nat>)

  const MAX_REQUIRED: nat := 64

  predicate Complete(fields: seq<Field>, p: Progress)
    requires p.fixedField < |fields|
  {
    p.fixedField < 0 || p.fixedSize == fields[p.fixedField].arraySize
  }

  predicate FixedCount(fields: seq<Field>, i: nat) {
    At(fields, i).htype.Repeated? && SizeAt(fields, i) == DataAt(fields, i)
  }

  /** What is done before the value of a field is read. */
  function Enter(fields: seq<Field>, i: nat, p: Progress): Maybe<Progress>
    requires i <= |fields| && p.fixedField < |fields|
  {
    var f := At(fields, i);
    if FixedCount(fields, i) && p.fixedField != i && !Complete(fields, p) then Nothing
    else
      var q := if FixedCount(fields, i) && p.fixedField != i then p.(fixedField := i, fixedSize := 0) else p;
      if f.htype.Required? && RequiredBefore(fields, i) < MAX_REQUIRED then
        Just(q.(seen := q.seen + {RequiredBefore(fields, i)}))
      else Just(q)
  }

  /** decode_static_field. */
  function DecodeField(fields: seq<Field>, i: nat, wire: nat, s: seq<Byte>, p: Progress): (r: Parsed<Progress>)
    requires i <= |fields| && p.fixedField < |fields|
    ensures r.Got? ==> |r.rest| < |s| && r.value.fixedField == p.fixedField
    decreases |s|, 3
  {
    var f := At(fields, i);
    var pData, pSize := DataAt(fields, i), SizeAt(fields, i);
    var m := p.mem;
    match f.htype
    case Required => StoreItem(f, pData, s, p, m, Load(m, pData, 1)[0])
    case Optional => StoreItem(f, pData, s, p, if pSize != pData then SetSize(m, pSize, 1) else m, Load(m, pData, 1)[0])
    case Oneof =>
      var prior := Load(m, pData, 1)[0];
      var start := if f.ltype.Submessage? && Size(m, pSize) != f.tag then InitItem(f, Msg(NOWHERE)) else prior;
      StoreItem(f, pData, s, p, SetSize(m, pSize, f.tag), start)
    case Repeated =>
      var n := if FixedCount(fields, i) then p.fixedSize else Size(m, pSize);
      match DecodeRepeated(f, wire, s, Load(m, pData, f.arraySize), n)
      case Fail => Fail
      case Got((items, k), rest) =>
        if FixedCount(fields, i) then Got(p.(mem := Store(m, pData, items), fixedSize := k), rest)
        else Got(p.(mem := SetSize(Store(m, pData, items), pSize, k)), rest)
  }

  function StoreItem(f: Field, pData: int, s: seq<Byte>, p: Progress, m: Memory, d: Datum): (r: Parsed<Progress>)
    ensures r.Got? ==> |r.rest| < |s| && r.value.fixedField == p.fixedField
    decreases |s|, 2
  {
    match DecodeItem(f, s, d)
    case Fail => Fail
    case Got(d', rest) => Got(p.(mem := Store(m, pData, [d'])), rest)
  }

  function SkipVarint(s: seq<Byte>): (r: Parsed<bool>)
    ensures r.Got? ==> |r.rest| <= |s|
  {
    if s == [] then Fail else if (s[0] as nat) < B then Got(true, s[1..]) else SkipVarint(s[1..])
  }

  /** A field nobody knows. */
  function Skip(wire: nat, s: seq<Byte>): (r: Parsed<bool>)
    ensures r.Got? ==> |r.rest| <= |s|
  {
    match wire
    case 0 => SkipVarint(s)
    case 1 => if |s| < 8 then Fail else Got(true, s[8..])
    case 2 => (match Chunk(s) case Fail => Fail case Got(_, rest) => Got(true, rest))
    case 5 => if |s| < 4 then Fail else Got(true, s[4..])
    case _ => Fail
  }

  /** The fields one after another, to the end or to a zero tag. */
  function DecodeFields(fields: seq<Field>, s: seq<Byte>, p: Progress): (r: Parsed<Progress>)
    requires p.fixedField < |fields|
    ensures r.Got? ==> |r.rest| <= |s| && r.value.fixedField < |fields|
    decreases |s|, 4
  {
    if s == [] then Got(p, [])
    else
      match Varint32(s)
      case Fail => Fail
      case Got(key, rest) =>
        if key == 0 then Got(p, rest)
        else
          var i := Find(fields, key / 8);
          if i < 0 then
            (match Skip(key % 8, rest)
             case Fail => Fail
             case Got(_, rest') => DecodeFields(fields, rest', p))
          else
            match Enter(fields, i, p)
            case Nothing => Fail
            case Just(q) =>
              match DecodeField(fields, i, key % 8, rest, q)
              case Fail => Fail
              case Got(p', rest') => DecodeFields(fields, rest', p')
  }

  predicate AllSeen(seen: set<nat>, n: nat) { forall k :: 0 <= k < n ==> k in seen }

  function Tracked(fields: seq<Field>): nat {
    var n := RequiredBefore(fields, |fields|);
    if n > MAX_REQUIRED then MAX_REQUIRED else n
  }

  /** pb_decode_noinit. */
  function DecodeMessage(fields: seq<Field>, s: seq<Byte>, m: Memory): (r: Parsed<Memory>)
    decreases |s|, 5
  {
    match DecodeFields(fields, s, Progress(m, -1, 0, {}))
    case Fail => Fail
    case Got(p, rest) => if Complete(fields, p) && AllSeen(p.seen, Tracked(fields)) then Got(p.mem, rest) else Fail
  }
}
