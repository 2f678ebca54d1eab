/** pb.h, pb_common.c: field descriptors, the memory of a message, and the field iterator. */
module PbFields {
  import opened Bytes

  datatype Ltype = Bool | Int | UInt | SInt | Fixed32 | Fixed64 | Bytes | String | Submessage | FixedLengthBytes

  datatype Htype = Required | Optional | Repeated | Oneof

  /** What ptr points to: nothing, a default value, or the fields of a submessage. */
  datatype Ptr = Null | Default(value: Datum) | Fields(fields: seq<Field>)

  /** A pb_field_t of static allocation. */
  datatype Field = Field(tag: nat, ltype: Ltype, htype: Htype, dataOffset: nat, sizeOffset: int, dataSize: nat,
                         arraySize: nat, ptr: Ptr)

  /** One stored item: a number or boolean, a buffer, or a nested struct. */
  datatype Datum = Num(v: int) | Raw(bytes: seq<Byte>) | Msg(mem: Memory)

  /**
   * The memory of a message struct, by offset: the items at a field's pData, and the count, has-flag or
   * which-tag at its pSize. Members of a union have the same offsets.
   */
  datatype Memory = Memory(data: map<int, seq<Datum>>, sizes: map<int, nat>)

  /** What is in memory before anything is stored there does not matter. */
  function Load(m: Memory, at: int, count: nat): (items: seq<Datum>)
    ensures |items| == count
  {
    if at in m.data && |m.data[at]| == count then m.data[at] else seq(count, _ => Num(0))
  }

  function Size(m: Memory, at: int): nat { if at in m.sizes then m.sizes[at] else 0 }

  function Store(m: Memory, at: int, items: seq<Datum>): Memory { m.(data := m.data[at := items]) }

  function SetSize(m: Memory, at: int, n: nat): Memory { m.(sizes := m.sizes[at := n]) }

  const SIZE_MAX: nat := 0xFFFF_FFFF

  /** PB_LAST_FIELD. */
  const END := Field(0, Bool, Required, 0, 0, 0, 0, Null)

  function At(fields: seq<Field>, i: nat): Field { if i < |fields| then fields[i] else END }

  function Count(f: Field): nat { if f.htype.Repeated? then f.arraySize else 1 }

  /** The bytes a field takes in the struct. */
  function Width(f: Field): nat { f.dataSize * Count(f) }

  predicate InUnion(fields: seq<Field>, i: nat) {
    0 < i < |fields| && fields[i - 1].htype.Oneof? && fields[i].htype.Oneof? && fields[i].dataOffset == SIZE_MAX
  }

  /** Where the data of a field is. */
  function DataAt(fields: seq<Field>, i: nat): int {
    if i == 0 || i >= |fields| then At(fields, 0).dataOffset
    else if InUnion(fields, i) then DataAt(fields, i - 1)
    else DataAt(fields, i - 1) + Width(fields[i - 1]) + fields[i].dataOffset
  }

  /** Where the count, has-flag or which-tag of a field is, as the iterator has it. */
  function SizeAt(fields: seq<Field>, i: nat): int {
    if InUnion(fields, i) then SizeAt(fields, i - 1) else DataAt(fields, i) + At(fields, i).sizeOffset
  }

  function RequiredBefore(fields: seq<Field>, i: nat): nat
    requires i <= |fields|
  {
    if i == 0 then 0 else RequiredBefore(fields, i - 1) + if fields[i - 1].htype.Required? then 1 else 0
  }

  /** No tag is zero and no two fields have the same one. */
  ghost predicate Tagged(fields: seq<Field>) {
    && (forall i :: 0 <= i < |fields| ==> fields[i].tag != 0)
    && forall i, j :: 0 <= i < j < |fields| ==> fields[i].tag != fields[j].tag
  }

  /** Where a tag is looked up to; the field list of an empty message has only its end, whose tag is zero. */
  function Find(fields: seq<Field>, tag: nat): (i: int)
    ensures -1 <= i <= |fields|
    ensures fields != [] ==> (0 <= i ==> i < |fields| && fields[i].tag == tag)
    ensures fields != [] && i < 0 ==> forall j :: 0 <= j < |fields| ==> fields[j].tag != tag
  {
    if fields == [] then (if tag == 0 then 0 else -1)
    else if fields[|fields| - 1].tag == tag then |fields| - 1
    else if |fields| == 1 then -1
    else Find(fields[..|fields| - 1], tag)
  }

  class FieldIter {
    const start: seq<Field>
    var pos: nat
    var requiredFieldIndex: nat
    var pData: int
    var pSize: int

    /** The offsets and the index are those of the position, however it was reached. */
    ghost predicate Valid()
      reads this
    {
      && (pos < |start| || pos == 0)
      && pData == DataAt(start, pos) && pSize == SizeAt(start, pos) && requiredFieldIndex == RequiredBefore(start, pos)
    }

    constructor (fields: seq<Field>)
      ensures Valid() && start == fields && pos == 0
    {
      start, pos, requiredFieldIndex := fields, 0, 0;
      pData := At(fields, 0).dataOffset;
      pSize := At(fields, 0).dataOffset + At(fields, 0).sizeOffset;
    }

    method Begin() returns (any: bool)
      modifies this
      ensures Valid() && pos == 0
      ensures any <==> At(start, 0).tag != 0
    {
      pos, requiredFieldIndex := 0, 0;
      pData := At(start, 0).dataOffset;
      pSize := pData + At(start, 0).sizeOffset;
      any := At(start, 0).tag != 0;
    }

    method Next() returns (more: bool)
      requires Valid() && Tagged(start)
      modifies this
      ensures Valid()
      ensures more <==> old(pos) + 1 < |start|
      ensures pos == if more then old(pos) + 1 else 0
    {
      var prev := At(start, pos);
      if prev.tag == 0 {
        return false;
      }
      pos := pos + 1;
      if At(start, pos).tag == 0 {
        var any := Begin();
        return false;
      }
      if prev.htype.Oneof? && At(start, pos).htype.Oneof? && At(start, pos).dataOffset == SIZE_MAX {
        return true;
      }
      var prevSize := prev.dataSize;
      if prev.htype.Repeated? {
        prevSize := prevSize * prev.arraySize;
      }
      if prev.htype.Required? {
        requiredFieldIndex := requiredFieldIndex + 1;
      }
      pData := pData + prevSize + At(start, pos).dataOffset;
      pSize := pData + At(start, pos).sizeOffset;
      more := true;
    }

    /** Look for a tag from the current position on, round to it again. */
    method FindTag(tag: nat) returns (found: bool)
      requires Valid() && Tagged(start)
      modifies this
      ensures Valid()
      ensures found <==> Find(start, tag) >= 0
      ensures pos == if found then Find(start, tag) else old(pos)
    {
      var from := pos;
      var first := true;
      ghost var wrapped := false;
      while first || pos != from
        invariant Valid()
        invariant first ==> pos == from && !wrapped
        invariant start == [] ==> pos == 0 && from == 0 && (!first ==> tag != 0)
        invariant start != [] && !wrapped ==> from <= pos && (!first ==> from < pos)
        invariant start != [] && wrapped ==> pos <= from
        invariant forall k :: 0 <= k < |start| && (if wrapped then k < pos || from <= k else from <= k < pos) ==> start[k].tag != tag
        decreases !wrapped, |start| - pos, first
      {
        if At(start, pos).tag == tag {
          return true;
        }
        var more := Next();
        first := false;
        wrapped := wrapped || !more;
      }
      found := false;
    }
  }
}
