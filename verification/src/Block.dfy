/** table/block_builder.cc and table/block.cc: prefix-compressed blocks with restart points. */
module Blocks {
  import opened Bytes
  import opened Coding

  datatype Pair = Pair(key: seq<Byte>, value: seq<Byte>)

  /** Comparator::Compare(a, b) < 0. */
  type Order = (seq<Byte>, seq<Byte>) -> bool

  ghost predicate Transitive(less: Order) {
    forall a, b, c :: less(a, b) && less(b, c) ==> less(a, c)
  }

  // ------------------------------------------------------------------ format

  /** PutVarint32 of a length keeps its low 32 bits. */
  function Length(n: nat): seq<Byte> { Varint(n % TWO_32) }

  function Entry(shared: nat, delta: seq<Byte>, value: seq<Byte>): seq<Byte> {
    Length(shared) + Length(|delta|) + Length(|value|) + delta + value
  }

  /** Where the entries of a block are cut: the prefix each shares with the one before, and the restarts. */
  datatype Layout = Layout(pairs: seq<Pair>, shared: seq<nat>, starts: seq<nat>) {
    ghost predicate Valid() {
      && |shared| == |pairs| && starts != [] && starts[0] == 0
      && (forall i :: 0 <= i < |pairs| ==> Shares(i))
      && (forall r, q :: 0 <= r < q < |starts| ==> starts[r] < starts[q])
      && (forall r :: 0 <= r < |starts| ==> RestartsAt(starts[r]))
    }

    ghost predicate Shares(i: nat)
      requires i < |pairs| == |shared|
    {
      && shared[i] <= |pairs[i].key|
      && if i == 0 then shared[i] == 0
         else shared[i] <= |pairs[i - 1].key| && pairs[i - 1].key[..shared[i]] == pairs[i].key[..shared[i]]
    }

    /** A restart is at an entry with nothing shared; the first of an empty block is at its end. */
    ghost predicate RestartsAt(i: nat)
      requires |shared| == |pairs|
    {
      if i < |pairs| then shared[i] == 0 else i == |pairs| == 0
    }

    /** All that a key shares with the one before is left out, but at a restart; there is one every `interval` entries. */
    ghost predicate Compressed(interval: nat)
      requires |shared| == |pairs| && starts != []
    {
      && (forall i :: 0 < i < |pairs| ==> SharesAll(i))
      && (forall r :: 0 < r < |starts| ==> Spaced(r, interval))
      && |pairs| <= starts[|starts| - 1] + interval && (pairs != [] ==> starts[|starts| - 1] < |pairs|)
    }

    ghost predicate SharesAll(i: nat)
      requires 0 < i < |pairs| == |shared|
    {
      i in starts || IsLongest(pairs[i - 1].key, pairs[i].key, shared[i])
    }

    ghost predicate Spaced(r: nat, interval: nat)
      requires 0 < r < |starts|
    {
      starts[r] == starts[r - 1] + interval
    }

    ghost function EntryAt(i: nat): seq<Byte>
      requires i < |pairs| == |shared| && shared[i] <= |pairs[i].key|
    {
      Entry(shared[i], pairs[i].key[shared[i]..], pairs[i].value)
    }

    /** The bytes of the first `n` entries. */
    ghost function Data(n: nat): seq<Byte>
      requires Valid() && n <= |pairs|
    {
      if n == 0 then [] else Data(n - 1) + (assert Shares(n - 1); EntryAt(n - 1))
    }

    ghost function Offset(n: nat): nat
      requires Valid() && n <= |pairs|
    {
      |Data(n)|
    }

    ghost function Restarts(n: nat): seq<nat>
      requires Valid() && n <= |starts|
      ensures |Restarts(n)| == n
      ensures forall r :: 0 <= r < n ==> Restarts(n)[r] == Offset(starts[r])
    {
      seq(n, r requires 0 <= r < n => (assert RestartsAt(starts[r]); Offset(starts[r])))
    }
  }

  function Trailer(restarts: seq<nat>): seq<Byte> { Words(restarts) + Fixed(|restarts|, 4) }

  function Words(values: seq<nat>): (s: seq<Byte>)
    ensures |s| == 4 * |values|
  {
    if values == [] then [] else Words(values[..|values| - 1]) + Fixed(values[|values| - 1], 4)
  }

  /** The contents of the block a layout describes. */
  ghost function Contents(layout: Layout): seq<Byte>
    requires layout.Valid()
  {
    layout.Data(|layout.pairs|) + Trailer(layout.Restarts(|layout.starts|))
  }

  /** The longest common prefix has length `n`. */
  predicate IsLongest(a: seq<Byte>, b: seq<Byte>, n: nat) {
    n <= |a| && n <= |b| && a[..n] == b[..n] && (n < |a| && n < |b| ==> a[n] != b[n])
  }

  // ----------------------------------------------------------------- building

  /** How much of a key is shared with the one before. */
  method SharedPrefix(lastKey: seq<Byte>, key: seq<Byte>) returns (shared: nat)
    ensures IsLongest(lastKey, key, shared)
  {
    shared := 0;
    var minLength := if |lastKey| < |key| then |lastKey| else |key|;
    while shared < minLength && lastKey[shared] == key[shared]
      invariant shared <= minLength && lastKey[..shared] == key[..shared]
    {
      shared := shared + 1;
    }
  }

  /** A builder's fields say what it has been given. */
  ghost predicate Builds(layout: Layout, buffer: seq<Byte>, restarts: seq<nat>, counter: nat, interval: nat, lastKey: seq<Byte>) {
    && interval >= 1 && layout.Valid() && layout.Compressed(interval)
    && buffer == layout.Data(|layout.pairs|) && restarts == layout.Restarts(|layout.starts|)
    && counter + layout.starts[|layout.starts| - 1] == |layout.pairs| && counter <= interval
    && lastKey == LastKey(layout)
  }

  class BlockBuilder {
    const interval: nat
    var buffer: seq<Byte>
    var restarts: seq<nat>
    var counter: nat
    var lastKey: seq<Byte>
    var finished: bool
    ghost var layout: Layout

    ghost predicate Valid()
      reads this
    {
      Builds(layout, buffer, restarts, counter, interval, lastKey)
    }

    constructor (interval: nat)
      requires interval >= 1
      ensures Valid() && !finished && layout.pairs == [] && this.interval == interval
    {
      this.interval := interval;
      buffer, restarts, counter, finished, lastKey := [], [0], 0, false, [];
      layout := Layout([], [], [0]);
    }

    /** Ready for another block. */
    method Reset()
      modifies this
      requires interval >= 1
      ensures Valid() && !finished && layout.pairs == []
    {
      buffer, restarts, counter, finished, lastKey := [], [0], 0, false, [];
      layout := Layout([], [], [0]);
    }

    function CurrentSizeEstimate(): nat
      reads this
    {
      |buffer| + 4 * |restarts| + 4
    }

    predicate Empty()
      reads this
      requires Valid()
      ensures Empty() <==> layout.pairs == []
    {
      EmptyIsNoBytes(layout);
      buffer == []
    }

    method Add(key: seq<Byte>, value: seq<Byte>)
      requires Valid() && !finished
      modifies `buffer, `restarts, `counter, `lastKey, `layout
      ensures Valid() && layout.pairs == old(layout.pairs) + [Pair(key, value)]
    {
      hide Entry, Length, Builds;
      var shared := 0;
      var restart := counter >= interval;
      ghost var was := lastKey;
      if !restart {
        shared := SharedPrefix(lastKey, key);
      }
      ghost var grown := Added(layout, buffer, restarts, counter, interval, lastKey, key, value, shared, restart);
      if restart {
        restarts := restarts + [|buffer|];
        counter := 0;
      }
      buffer := buffer + Length(shared) + Length(|key| - shared) + Length(|value|);
      buffer := buffer + key[shared..] + value;
      lastKey := lastKey[..shared] + key[shared..];
      counter := counter + 1;
      layout := grown;
    }

    method Finish() returns (contents: seq<Byte>)
      requires Valid() && !finished
      modifies this`finished, this`buffer
      ensures finished && layout.Valid() && layout.Compressed(interval) && contents == Contents(layout)
      ensures |contents| == old(CurrentSizeEstimate())
    {
      hide Words, Fixed;
      var i := 0;
      ghost var data := buffer;
      NoWords(data);
      while i < |restarts|
        invariant 0 <= i <= |restarts| && buffer == data + Words(restarts[..i])
      {
        WordsAppend(restarts[..i], restarts[i]);
        assert restarts[..i + 1] == restarts[..i] + [restarts[i]];
        Assoc(data, Words(restarts[..i]), Fixed(restarts[i], 4));
        buffer := buffer + Fixed(restarts[i], 4);
        i := i + 1;
      }
      assert restarts[..|restarts|] == restarts;
      Assoc(data, Words(restarts), Fixed(|restarts|, 4));
      buffer := buffer + Fixed(|restarts|, 4);
      finished := true;
      contents := buffer;
    }
  }

  lemma EntryInParts(data: seq<Byte>, shared: nat, delta: seq<Byte>, value: seq<Byte>)
    ensures data + Length(shared) + Length(|delta|) + Length(|value|) + delta + value == data + Entry(shared, delta, value)
  {
    hide Length;
    var a, b, c := Length(shared), Length(|delta|), Length(|value|);
    Assoc(data, a, b);
    Assoc(data, a + b, c);
    Assoc(data, a + b + c, delta);
    Assoc(data, a + b + c + delta, value);
  }

  lemma Rejoined(a: seq<Byte>, b: seq<Byte>, n: nat)
    requires n <= |a| && n <= |b| && a[..n] == b[..n]
    ensures a[..n] + b[n..] == b
  {}

  lemma LastEntry(layout: Layout, key: seq<Byte>, value: seq<Byte>, shared: nat)
    requires layout.pairs != [] && |layout.shared| == |layout.pairs| && shared <= |key|
    requires layout.pairs[|layout.pairs| - 1] == Pair(key, value) && layout.shared[|layout.pairs| - 1] == shared
    ensures layout.EntryAt(|layout.pairs| - 1) == Entry(shared, key[shared..], value)
  {}

  lemma NothingBefore(a: seq<Byte>, b: seq<Byte>)
    requires a == []
    ensures a[..0] + b == b
  {}

  lemma NoWords(data: seq<Byte>)
    ensures data + Words([]) == data
  {}

  lemma WordsAppend(values: seq<nat>, v: nat)
    ensures Words(values + [v]) == Words(values) + Fixed(v, 4)
  {
    assert (values + [v])[..|values|] == values;
  }

  function LastKey(layout: Layout): seq<Byte> {
    if layout.pairs == [] then [] else layout.pairs[|layout.pairs| - 1].key
  }

  /** What one call of Add appends to buffer, restarts and last key is what the layout with the entry says. */
  lemma AddedTo(layout: Layout, key: seq<Byte>, value: seq<Byte>, shared: nat, restart: bool) returns (grown: Layout)
    requires layout.Valid()
    requires shared <= |key| && shared <= |LastKey(layout)| && LastKey(layout)[..shared] == key[..shared]
    requires restart ==> shared == 0 && layout.pairs != []
    ensures grown.Valid() && grown.pairs == layout.pairs + [Pair(key, value)]
    ensures grown.starts == if restart then layout.starts + [|layout.pairs|] else layout.starts
    ensures grown.shared == layout.shared + [shared]
    ensures layout.Data(|layout.pairs|) + Length(shared) + Length(|key| - shared) + Length(|value|) + key[shared..] + value
      == grown.Data(|grown.pairs|)
    ensures grown.Restarts(|grown.starts|) ==
      layout.Restarts(|layout.starts|) + if restart then [|layout.Data(|layout.pairs|)|] else []
    ensures LastKey(layout)[..shared] + key[shared..] == LastKey(grown) == key
  {
    var starts := if restart then layout.starts + [|layout.pairs|] else layout.starts;
    grown := Layout(layout.pairs + [Pair(key, value)], layout.shared + [shared], starts);
    LayoutGrows(layout, grown);
    LastEntry(grown, key, value, shared);
    Rejoined(LastKey(layout), key, shared);
    hide Entry, Length, Layout.Data, Layout.Restarts, Layout.EntryAt, Layout.Valid;
    EntryInParts(layout.Data(|layout.pairs|), shared, key[shared..], value);
  }

  /** What one call of Add does to the fields is what the layout with the entry says. */
  lemma Added(layout: Layout, buffer: seq<Byte>, restarts: seq<nat>, counter: nat, interval: nat, lastKey: seq<Byte>,
              key: seq<Byte>, value: seq<Byte>, shared: nat, restart: bool) returns (grown: Layout)
    requires Builds(layout, buffer, restarts, counter, interval, lastKey) && restart == (counter >= interval)
    requires if restart then shared == 0 else IsLongest(lastKey, key, shared)
    ensures grown.pairs == layout.pairs + [Pair(key, value)]
    ensures Builds(grown,
      buffer + Length(shared) + Length(|key| - shared) + Length(|value|) + key[shared..] + value,
      if restart then restarts + [|buffer|] else restarts, if restart then 1 else counter + 1, interval,
      lastKey[..shared] + key[shared..])
  {
    assert restart ==> layout.pairs != [];
    assert |layout.starts| > 0 && (layout.pairs != [] ==> layout.starts[|layout.starts| - 1] < |layout.pairs|);
    hide Length, Layout.Data, Layout.Restarts, LastKey, Layout.Compressed, Layout.Valid;
    grown := AddedTo(layout, key, value, shared, restart);
    CompressedGrows(layout, grown, interval, shared, restart);
    assert restarts + [] == restarts;
  }

  lemma CompressedGrows(a: Layout, b: Layout, interval: nat, shared: nat, restart: bool)
    requires a.Valid() && a.Compressed(interval) && interval >= 1
    requires |b.pairs| == |a.pairs| + 1 && b.pairs[..|a.pairs|] == a.pairs && b.shared == a.shared + [shared]
    requires b.starts == if restart then a.starts + [|a.pairs|] else a.starts
    requires restart <==> |a.pairs| - a.starts[|a.starts| - 1] >= interval
    requires restart || IsLongest(LastKey(a), b.pairs[|a.pairs|].key, shared)
    ensures b.Compressed(interval)
  {
    forall i | 0 < i < |b.pairs|
      ensures b.SharesAll(i)
    {
      assert b.pairs[i - 1] == a.pairs[i - 1];
      if i < |a.pairs| {
        assert a.SharesAll(i) && b.pairs[i] == a.pairs[i];
      } else if restart {
        assert b.starts[|a.starts|] == i;
      }
    }
    forall r | 0 < r < |b.starts|
      ensures b.Spaced(r, interval)
    {
      assert r < |a.starts| ==> a.Spaced(r, interval);
    }
  }

  /** `b` is `a` with one more entry, and perhaps one more restart. */
  ghost predicate Grows(a: Layout, b: Layout) {
    && a.Valid() && |b.pairs| == |a.pairs| + 1 == |b.shared| && b.pairs[..|a.pairs|] == a.pairs
    && b.shared[..|a.pairs|] == a.shared && b.Shares(|a.pairs|)
    && (b.starts == a.starts || (b.starts == a.starts + [|a.pairs|] && b.shared[|a.pairs|] == 0 && a.pairs != []))
  }

  lemma GrownIsValid(a: Layout, b: Layout)
    requires Grows(a, b)
    ensures b.Valid()
  {
    forall i | 0 <= i < |b.pairs|
      ensures b.Shares(i)
    {
      if i < |a.pairs| {
        assert a.Shares(i);
        assert b.pairs[i] == a.pairs[i] && b.shared[i] == a.shared[i];
      }
    }
    forall r | 0 <= r < |b.starts|
      ensures b.RestartsAt(b.starts[r])
    {
      if r < |a.starts| {
        assert a.RestartsAt(a.starts[r]);
        if a.starts[r] < |a.pairs| {
          assert b.shared[a.starts[r]] == a.shared[a.starts[r]];
        }
      }
    }
    if b.starts != a.starts {
      forall r | 0 <= r < |a.starts|
        ensures a.starts[r] < |a.pairs|
      {
        assert a.RestartsAt(a.starts[r]);
      }
    }
  }

  lemma {:induction false} GrownDataSame(a: Layout, b: Layout, n: nat)
    requires Grows(a, b) && b.Valid() && n <= |a.pairs|
    ensures b.Data(n) == a.Data(n)
  {
    if n > 0 {
      hide Entry;
      GrownDataSame(a, b, n - 1);
      assert a.Shares(n - 1) && b.Shares(n - 1);
      assert b.pairs[n - 1] == a.pairs[n - 1] && b.shared[n - 1] == a.shared[n - 1];
    }
  }

  /** Entries and restarts stay where they are. */
  lemma LayoutGrows(a: Layout, b: Layout)
    requires Grows(a, b)
    ensures b.Valid()
    ensures b.Data(|b.pairs|) == a.Data(|a.pairs|) + b.EntryAt(|a.pairs|)
    ensures b.Restarts(|b.starts|) ==
      a.Restarts(|a.starts|) + if b.starts == a.starts then [] else [|a.Data(|a.pairs|)|]
  {
    GrownIsValid(a, b);
    GrownDataSame(a, b, |a.pairs|);
    forall r | 0 <= r < |a.starts|
      ensures b.Restarts(|b.starts|)[r] == a.Restarts(|a.starts|)[r]
    {
      assert a.RestartsAt(a.starts[r]);
      GrownDataSame(a, b, a.starts[r]);
      assert b.starts[r] == a.starts[r];
    }
  }

  // ------------------------------------------------------------------ reading

  /** The lengths at the head of an entry, and where its key delta starts. */
  datatype Header = Bad | Header(shared: nat, nonShared: nat, valueLength: nat, start: nat)

  /** DecodeEntry on the bytes from `p` to `limit`. */
  function DecodedEntry(data: seq<Byte>, p: nat, limit: nat): (h: Header)
    requires p <= limit <= |data|
    ensures h.Header? ==> p + 3 <= h.start && h.start + h.nonShared + h.valueLength <= limit
  {
    match GetVarint(data[p..limit], 32)
    case Fail => Bad
    case Got(shared, rest) =>
      match GetVarint(rest, 32)
      case Fail => Bad
      case Got(nonShared, rest2) =>
        match GetVarint(rest2, 32)
        case Fail => Bad
        case Got(valueLength, rest3) =>
          Shrinks(data[p..limit], rest, rest2, rest3);
          if |rest3| < nonShared + valueLength then Bad
          else Header(shared, nonShared, valueLength, limit - |rest3|)
  }

  lemma Shrinks(a: seq<Byte>, b: seq<Byte>, c: seq<Byte>, d: seq<Byte>)
    requires GetVarint(a, 32).Got? && GetVarint(a, 32).rest == b
    requires GetVarint(b, 32).Got? && GetVarint(b, 32).rest == c
    requires GetVarint(c, 32).Got? && GetVarint(c, 32).rest == d
    ensures |a| >= |d| + 3
  {
    VarintInRange(a, 32);
    VarintInRange(b, 32);
    VarintInRange(c, 32);
  }

  /** The source's reader, with its fast path for three single bytes. */
  method DecodeEntry(data: seq<Byte>, p: nat, limit: nat) returns (h: Header)
    requires p <= limit <= |data|
    ensures h == DecodedEntry(data, p, limit)
  {
    hide GetVarint, Pow;
    var input := data[p..limit];
    if limit - p < 3 {
      ShortEntry(data, p, limit);
      return Bad;
    }
    var start := p + 3;
    var shared, nonShared, valueLength := input[0] as nat, input[1] as nat, input[2] as nat;
    if shared < B && nonShared < B && valueLength < B {
      FastEntry(input);
    } else {
      var r := GetVarintPtr(input, 32);
      if r.Fail? {
        return Bad;
      }
      var r2 := GetVarintPtr(r.rest, 32);
      if r2.Fail? {
        return Bad;
      }
      var r3 := GetVarintPtr(r2.rest, 32);
      if r3.Fail? {
        return Bad;
      }
      Shrinks(input, r.rest, r2.rest, r3.rest);
      shared, nonShared, valueLength, start := r.value, r2.value, r3.value, limit - |r3.rest|;
    }
    if limit - start < nonShared + valueLength {
      return Bad;
    }
    h := Header(shared, nonShared, valueLength, start);
  }

  lemma ShortEntry(data: seq<Byte>, p: nat, limit: nat)
    requires p <= limit <= |data| && limit - p < 3
    ensures DecodedEntry(data, p, limit) == Bad
  {}

  lemma SingleByte(input: seq<Byte>)
    requires input != [] && input[0] as nat < B
    ensures GetVarint(input, 32) == Got(input[0] as nat, input[1..])
  {
    SevenBits(32);
    SevenBits(25);
    Below(input[0] as nat, Pow(2, 32));
  }

  lemma FastEntry(input: seq<Byte>)
    requires |input| >= 3 && input[0] as nat < B && input[1] as nat < B && input[2] as nat < B
    ensures GetVarint(input, 32) == Got(input[0] as nat, input[1..])
    ensures GetVarint(input[1..], 32) == Got(input[1] as nat, input[2..])
    ensures GetVarint(input[2..], 32) == Got(input[2] as nat, input[3..])
  {
    SingleByte(input);
    SingleByte(input[1..]);
    SingleByte(input[2..]);
    assert input[1..][1..] == input[2..] && input[2..][1..] == input[3..];
  }

  // -------------------------------------------------- what a built block says

  lemma {:induction false} DataPrefix(layout: Layout, i: nat, n: nat)
    requires layout.Valid() && i <= n <= |layout.pairs|
    ensures layout.Offset(i) <= layout.Offset(n) && layout.Data(n)[..layout.Offset(i)] == layout.Data(i)
  {
    hide Entry;
    if i < n {
      DataPrefix(layout, i, n - 1);
    }
  }

  lemma EntryNotEmpty(shared: nat, delta: seq<Byte>, value: seq<Byte>)
    ensures |Entry(shared, delta, value)| > 0
  {}

  lemma OffsetsGrow(layout: Layout, i: nat, j: nat)
    requires layout.Valid() && i < j <= |layout.pairs|
    ensures layout.Offset(i) < layout.Offset(j)
  {
    hide Entry;
    assert layout.Shares(i);
    EntryNotEmpty(layout.shared[i], layout.pairs[i].key[layout.shared[i]..], layout.pairs[i].value);
    assert layout.Data(i + 1) == layout.Data(i) + layout.EntryAt(i);
    DataPrefix(layout, i + 1, j);
  }

  /** In a block of fewer than 2^32 bytes no key or value is longer than that. */
  lemma {:induction false} LengthsFit(layout: Layout, i: nat)
    requires layout.Valid() && i < |layout.pairs|
    ensures |layout.pairs[i].key| <= layout.Offset(i + 1) && |layout.pairs[i].value| <= layout.Offset(i + 1)
  {
    hide Length;
    assert layout.Shares(i);
    if i > 0 {
      LengthsFit(layout, i - 1);
    }
  }

  lemma EmptyIsNoBytes(layout: Layout)
    requires layout.Valid()
    ensures layout.Data(|layout.pairs|) == [] <==> layout.pairs == []
  {
    if layout.pairs != [] {
      OffsetsGrow(layout, 0, |layout.pairs|);
    }
  }

  /** Where an entry stands in the bytes of a block. */
  lemma EntryStands(layout: Layout, data: seq<Byte>, i: nat)
    requires layout.Valid() && i < |layout.pairs| && layout.Data(|layout.pairs|) <= data
    ensures layout.Shares(i) && layout.Offset(i) + |layout.EntryAt(i)| == layout.Offset(i + 1) <= layout.Offset(|layout.pairs|)
    ensures layout.Offset(|layout.pairs|) <= |data|
    ensures data[layout.Offset(i)..layout.Offset(i + 1)] == layout.EntryAt(i)
  {
    hide Entry;
    assert layout.Shares(i);
    DataPrefix(layout, i + 1, |layout.pairs|);
    var p, e := layout.Offset(i), layout.EntryAt(i);
    assert layout.Data(i + 1) == layout.Data(i) + e;
    assert data[..p + |e|] == layout.Data(i + 1);
    assert data[p..p + |e|] == data[..p + |e|][p..];
  }

  lemma Pow256()
    ensures Pow(256, 4) == TWO_32
  {}

  lemma Middle(a: seq<Byte>, b: seq<Byte>, c: seq<Byte>, i: nat, j: nat)
    requires i <= j <= |b|
    ensures (a + (b + c))[|a| + i..|a| + j] == b[i..j]
  {}

  lemma ThreeVarints(a: nat, b: nat, c: nat, rest: seq<Byte>)
    requires a < TWO_32 && b < TWO_32 && c < TWO_32
    ensures var input := Varint(a) + Varint(b) + Varint(c) + rest;
      && GetVarint(input, 32) == Got(a, Varint(b) + Varint(c) + rest)
      && GetVarint(Varint(b) + Varint(c) + rest, 32) == Got(b, Varint(c) + rest)
      && GetVarint(Varint(c) + rest, 32) == Got(c, rest)
  {
    Pow32();
    hide Varint, GetVarint, Pow;
    VarintBack(a, 32, Varint(b) + Varint(c) + rest);
    VarintBack(b, 32, Varint(c) + rest);
    VarintBack(c, 32, rest);
    assert Varint(a) + Varint(b) + Varint(c) + rest == Varint(a) + (Varint(b) + Varint(c) + rest);
    assert Varint(b) + Varint(c) + rest == Varint(b) + (Varint(c) + rest);
  }

  /** An entry is decoded where it stands, whatever follows it. */
  lemma EntryBack(data: seq<Byte>, p: nat, limit: nat, shared: nat, delta: seq<Byte>, value: seq<Byte>)
    requires shared < TWO_32 && |delta| < TWO_32 && |value| < TWO_32
    requires p + |Entry(shared, delta, value)| <= limit <= |data|
    requires data[p..p + |Entry(shared, delta, value)|] == Entry(shared, delta, value)
    ensures var h := DecodedEntry(data, p, limit);
      && h.Header? && h.shared == shared && h.nonShared == |delta| && h.valueLength == |value|
      && h.start + |delta| + |value| == p + |Entry(shared, delta, value)|
      && data[h.start..h.start + |delta|] == delta
      && data[h.start + |delta|..h.start + |delta| + |value|] == value
  {
    hide Varint, GetVarint;
    assert Length(shared) == Varint(shared) && Length(|delta|) == Varint(|delta|) && Length(|value|) == Varint(|value|);
    var head := Varint(shared) + Varint(|delta|) + Varint(|value|);
    CutUp(data, p, limit, head, delta, value);
    var rest := delta + value + data[p + |head| + |delta| + |value|..limit];
    ThreeVarints(shared, |delta|, |value|, rest);
  }

  lemma CutUp(data: seq<Byte>, p: nat, limit: nat, head: seq<Byte>, delta: seq<Byte>, value: seq<Byte>)
    requires p + |head| + |delta| + |value| <= limit <= |data|
    requires data[p..p + |head| + |delta| + |value|] == head + delta + value
    ensures var start, end := p + |head|, p + |head| + |delta| + |value|;
      && data[p..limit] == head + (delta + value + data[end..limit])
      && data[start..start + |delta|] == delta && data[start + |delta|..end] == value
  {
    var end := p + |head| + |delta| + |value|;
    var all := data[p..end];
    SliceOfSlice(data, p, end, |head|, |head| + |delta|);
    SliceOfSlice(data, p, end, |head| + |delta|, |all|);
    assert all[|head|..|head| + |delta|] == delta && all[|head| + |delta|..|all|] == value;
    SplitAt(data, p, end, limit);
    Assoc(head, delta, value);
    Assoc(head, delta + value, data[end..limit]);
  }

  lemma SliceOfSlice(data: seq<Byte>, p: nat, end: nat, a: nat, b: nat)
    requires p <= end <= |data| && a <= b <= end - p
    ensures data[p + a..p + b] == data[p..end][a..b]
  {
    forall k | 0 <= k < b - a
      ensures data[p + a..p + b][k] == data[p..end][a..b][k]
    {
      assert data[p..end][a + k] == data[p + (a + k)];
    }
  }

  lemma SplitAt(data: seq<Byte>, p: nat, end: nat, limit: nat)
    requires p <= end <= limit <= |data|
    ensures data[p..limit] == data[p..end] + data[end..limit]
  {}

  lemma {:induction false} WordAt(values: seq<nat>, r: nat)
    requires r < |values|
    ensures Words(values)[4 * r..4 * r + 4] == Fixed(values[r], 4)
  {
    hide Fixed;
    if r < |values| - 1 {
      var front := values[..|values| - 1];
      WordAt(front, r);
      assert Words(values)[4 * r..4 * r + 4] == Words(front)[4 * r..4 * r + 4];
    }
  }

  lemma RestartWord(layout: Layout, r: nat)
    requires layout.Valid() && r < |layout.starts| && |Contents(layout)| < TWO_32
    ensures layout.starts[r] <= |layout.pairs|
    ensures var at := layout.Offset(|layout.pairs|) + 4 * r;
      at + 4 <= |Contents(layout)| && FixedValue(Contents(layout)[at..at + 4]) == layout.Offset(layout.starts[r])
  {
    hide Entry, Layout.Data, Words, Fixed, FixedValue;
    assert layout.RestartsAt(layout.starts[r]);
    var points := layout.Restarts(|layout.starts|);
    DataPrefix(layout, layout.starts[r], |layout.pairs|);
    WordAt(points, r);
    Middle(layout.Data(|layout.pairs|), Words(points), Fixed(|points|, 4), 4 * r, 4 * r + 4);
    Pow256();
    FixedBack(points[r], 4);
  }

  // ----------------------------------------------------------------- iterator

  class Iter {
    const data: seq<Byte>
    const restarts: nat
    const numRestarts: nat
    const less: Order
    var current: nat
    var restartIndex: nat
    var key: seq<Byte>
    var valueStart: nat
    var valueLength: nat
    var corrupted: bool
    ghost const layout: Layout
    ghost var index: nat

    constructor (less: Order, data: seq<Byte>, restarts: nat, numRestarts: nat, ghost layout: Layout)
      requires numRestarts > 0 && restarts + 4 * numRestarts <= |data|
      ensures this.data == data && this.restarts == restarts && this.numRestarts == numRestarts
      ensures this.less == less && this.layout == layout && Consistent() && !Valid() && !corrupted
    {
      this.less, this.data, this.restarts, this.numRestarts, this.layout := less, data, restarts, numRestarts, layout;
      current, restartIndex, key, valueStart, valueLength, corrupted := restarts, numRestarts, [], 0, 0, false;
      index := 0;
    }

    predicate Valid()
      reads this
    {
      current < restarts
    }

    /** The entry under the cursor, as it was added. */
    method Current() returns (pair: Pair)
      requires Consistent() && Valid()
      ensures Built() ==> Position() < |layout.pairs| && pair == layout.pairs[Position()]
    {
      pair := Pair(key, if NextEntryOffset() <= |data| then data[valueStart..NextEntryOffset()] else []);
    }

    function NextEntryOffset(): nat
      reads this
    {
      valueStart + valueLength
    }

    function RestartPoint(r: nat): nat
      requires r < numRestarts && restarts + 4 * numRestarts <= |data|
    {
      FixedValue(data[restarts + 4 * r..restarts + 4 * r + 4])
    }

    /** The restart array is inside the block. */
    predicate Safe() { numRestarts > 0 && restarts + 4 * numRestarts <= |data| }

    /** What holds between operations, of any bytes at all. */
    predicate Steady()
      reads this
    {
      Safe() && (Valid() ==> restartIndex < numRestarts && current < NextEntryOffset() <= restarts)
    }

    /** The bytes are those of a finished block. */
    ghost predicate Built() {
      && layout.Valid() && data == Contents(layout) && |data| < TWO_32
      && restarts == layout.Offset(|layout.pairs|) && numRestarts == |layout.starts|
    }

    ghost predicate On(i: nat)
      reads this
      requires Built()
    {
      && i < |layout.pairs| && current == layout.Offset(i) && restartIndex < numRestarts && layout.starts[restartIndex] <= i
      && key == layout.pairs[i].key && NextEntryOffset() == layout.Offset(i + 1) <= |data|
      && data[valueStart..NextEntryOffset()] == layout.pairs[i].value
    }

    ghost predicate Consistent()
      reads this
    {
      Steady() && (Built() && Valid() ==> On(index))
    }

    ghost function Position(): nat
      reads this
    {
      if Valid() then index else |layout.pairs|
    }

    /** The next parse is of entry `i`: whatever that shares is in the key. */
    ghost predicate Poised(i: nat)
      reads this
      requires Built()
    {
      && i <= |layout.pairs| && NextEntryOffset() == layout.Offset(i)
      && restartIndex < numRestarts && layout.starts[restartIndex] <= i
      && (i < |layout.pairs| ==>
            && layout.shared[i] <= |key| && layout.shared[i] <= |layout.pairs[i].key|
            && key[..layout.shared[i]] == layout.pairs[i].key[..layout.shared[i]])
    }

    lemma RestartIs(r: nat)
      requires Built() && Safe() && r < numRestarts
      ensures layout.starts[r] <= |layout.pairs| && RestartPoint(r) == layout.Offset(layout.starts[r])
    {
      RestartWord(layout, r);
    }

    lemma EntryIs(i: nat)
      requires Built() && Safe() && i < |layout.pairs|
      ensures layout.Shares(i) && layout.Offset(i) < layout.Offset(i + 1) <= restarts
      ensures var h := DecodedEntry(data, layout.Offset(i), restarts);
        && h.Header? && h.shared == layout.shared[i] && h.start + h.nonShared + h.valueLength == layout.Offset(i + 1)
        && data[h.start..h.start + h.nonShared] == layout.pairs[i].key[layout.shared[i]..]
        && data[h.start + h.nonShared..layout.Offset(i + 1)] == layout.pairs[i].value
    {
      hide Entry, DecodedEntry, Contents, Layout.Data;
      DataFirst();
      EntryStands(layout, data, i);
      OffsetsGrow(layout, i, i + 1);
      LengthsFit(layout, i);
      EntryBack(data, layout.Offset(i), restarts, layout.shared[i], layout.pairs[i].key[layout.shared[i]..], layout.pairs[i].value);
    }

    lemma DataFirst()
      requires Built()
      ensures layout.Data(|layout.pairs|) <= data
    {}

    lemma OnPoisesNext(i: nat)
      requires Built() && On(i)
      ensures Poised(i + 1)
    {
      if i + 1 < |layout.pairs| {
        assert layout.Shares(i + 1);
      }
    }

    method GetRestartPoint(r: nat) returns (offset: nat)
      requires Safe() && r < numRestarts
      ensures offset == RestartPoint(r)
      ensures Built() ==> layout.starts[r] <= |layout.pairs| && offset == layout.Offset(layout.starts[r])
    {
      offset := FixedValue(data[restarts + 4 * r..restarts + 4 * r + 4]);
      if Built() {
        RestartIs(r);
      }
    }

    method SeekToRestartPoint(r: nat)
      requires Safe() && r < numRestarts
      modifies this
      ensures restartIndex == r && key == [] && NextEntryOffset() == RestartPoint(r)
      ensures unchanged(`current) && unchanged(`corrupted)
      ensures Built() ==> Poised(layout.starts[r])
    {
      key := [];
      restartIndex := r;
      var offset := GetRestartPoint(r);
      valueStart, valueLength := offset, 0;
      if Built() {
        assert layout.RestartsAt(layout.starts[r]);
        if layout.starts[r] < |layout.pairs| {
          assert layout.Shares(layout.starts[r]);
        }
      }
    }

    method CorruptionError()
      modifies this
      ensures !Valid() && corrupted && restartIndex == numRestarts && index == old(index)
    {
      current, restartIndex, corrupted := restarts, numRestarts, true;
      key, valueStart, valueLength := [], 0, 0;
    }

    /** Move on past the restarts before the current entry. */
    method AdvanceRestart(ghost i: nat)
      requires Safe() && restartIndex < numRestarts
      modifies this`restartIndex
      ensures restartIndex < numRestarts
      ensures Built() && i < |layout.pairs| && current == layout.Offset(i) && old(layout.starts[restartIndex]) <= i ==>
        layout.starts[restartIndex] <= i
    {
      while restartIndex + 1 < numRestarts
        invariant restartIndex < numRestarts
        invariant Built() && i < |layout.pairs| && current == layout.Offset(i) && old(layout.starts[restartIndex]) <= i ==>
          layout.starts[restartIndex] <= i
      {
        var next := GetRestartPoint(restartIndex + 1);
        if next >= current {
          break;
        }
        if Built() && i < layout.starts[restartIndex + 1] {
          DataPrefix(layout, i, layout.starts[restartIndex + 1]);
        }
        restartIndex := restartIndex + 1;
      }
    }

    /** Parsing entry `i` on top of a key with the prefix it shares yields the entry. */
    lemma ParsedIs(i: nat, before: seq<Byte>)
      requires Built() && Safe() && i < |layout.pairs|
      requires layout.shared[i] <= |before| && layout.shared[i] <= |layout.pairs[i].key|
      requires before[..layout.shared[i]] == layout.pairs[i].key[..layout.shared[i]]
      ensures layout.Offset(i) < layout.Offset(i + 1) <= restarts
      ensures var h := DecodedEntry(data, layout.Offset(i), restarts);
        && h.Header? && h.shared <= |before| && h.start + h.nonShared + h.valueLength == layout.Offset(i + 1)
        && before[..h.shared] + data[h.start..h.start + h.nonShared] == layout.pairs[i].key
        && data[h.start + h.nonShared..h.start + h.nonShared + h.valueLength] == layout.pairs[i].value
    {
      hide Contents, DecodedEntry, Layout.Data;
      EntryIs(i);
      Rejoined(before, layout.pairs[i].key, layout.shared[i]);
    }

    /**
     * On any bytes: what is at `p` has been parsed over the key before it, or is no entry that builds on that key,
     * or the entries end there.
     */
    ghost predicate Follows(p: nat, before: seq<Byte>, wasCorrupted: bool)
      requires Safe()
      reads this
    {
      if p >= restarts then !Valid() && corrupted == wasCorrupted
      else
        var h := DecodedEntry(data, p, restarts);
        if h.Header? && h.shared <= |before| then
          && current == p && key == before[..h.shared] + data[h.start..][..h.nonShared]
          && valueStart == h.start + h.nonShared && valueLength == h.valueLength && corrupted == wasCorrupted
        else !Valid() && corrupted
    }

    /** Parse the entry after the current one; `i` names it when the block is a built one. */
    method ParseNextKey(ghost i: nat) returns (ok: bool)
      requires Safe() && restartIndex < numRestarts
      modifies this
      ensures Steady() && ok == Valid()
      ensures ok ==> current == old(NextEntryOffset())
      ensures Follows(old(NextEntryOffset()), old(key), old(corrupted))
      ensures Built() && old(Poised(i)) ==> ok == (i < |layout.pairs|)
      ensures Built() && old(Poised(i)) ==> corrupted == old(corrupted)
      ensures Built() && old(Poised(i)) && ok ==> On(i) && index == i
    {
      hide Contents, DecodedEntry, Layout.Valid, Layout.Data, Layout.Shares;
      ghost var poised := Built() && Poised(i);
      if poised && i < |layout.pairs| {
        ParsedIs(i, key);
      }
      index := i;
      current := NextEntryOffset();
      if current >= restarts {
        current, restartIndex := restarts, numRestarts;
        return false;
      }
      var h := DecodeEntry(data, current, restarts);
      if h.Bad? || |key| < h.shared {
        CorruptionError();
        ok := false;
      } else {
        key := key[..h.shared] + data[h.start..h.start + h.nonShared];
        valueStart, valueLength := h.start + h.nonShared, h.valueLength;
        AdvanceRestart(i);
        ok := true;
      }
    }

    method Next()
      requires Consistent() && Valid()
      modifies this
      ensures Consistent() && Follows(old(NextEntryOffset()), old(key), old(corrupted))
      ensures Built() ==> Position() == old(Position()) + 1 && corrupted == old(corrupted)
    {
      hide Follows;
      if Built() {
        OnPoisesNext(index);
      }
      var _ := ParseNextKey(index + 1);
    }

    method Prev()
      requires Consistent() && Valid()
      modifies this
      ensures Consistent()
      ensures Built() ==>
        Position() == (if old(Position()) == 0 then |layout.pairs| else old(Position()) - 1) && corrupted == old(corrupted)
    {
      hide Follows, Contents, Layout.Valid, Layout.Data, Layout.Shares;
      var original := current;
      ghost var i := index;
      var point := GetRestartPoint(restartIndex);
      while point >= original
        invariant Steady() && Valid() && current == original && index == i && corrupted == old(corrupted)
        invariant Built() ==> i < |layout.pairs| && original == layout.Offset(i)
        invariant point == RestartPoint(restartIndex)
        decreases restartIndex
      {
        if restartIndex == 0 {
          current, restartIndex := restarts, numRestarts;
          if Built() && i > 0 {
            StartIs(0);
            OffsetsGrow(layout, 0, i);
          }
          return;
        }
        restartIndex := restartIndex - 1;
        point := GetRestartPoint(restartIndex);
      }
      ghost var j: nat := if Built() then layout.starts[restartIndex] else 0;
      if Built() {
        StartIs(restartIndex);
        if i < j {
          DataPrefix(layout, i, j);
        }
      }
      SeekToRestartPoint(restartIndex);
      var ok := ParseNextKey(j);
      while ok && NextEntryOffset() < original
        invariant Steady() && ok == Valid()
        invariant Built() ==> j < i && ok && On(j) && index == j && corrupted == old(corrupted)
        decreases if ok then restarts - NextEntryOffset() + 1 else 0
      {
        if Built() {
          OnPoisesNext(j);
        }
        j := j + 1;
        ok := ParseNextKey(j);
      }
      if Built() && j + 1 < i {
        OffsetsGrow(layout, j + 1, i);
      }
    }

    method SeekToFirst()
      requires Consistent()
      modifies this
      ensures Consistent()
      ensures Built() ==> Position() == 0 && corrupted == old(corrupted)
    {
      hide Follows;
      SeekToRestartPoint(0);
      var _ := ParseNextKey(0);
    }

    method SeekToLast()
      requires Consistent()
      modifies this
      ensures Consistent()
      ensures Built() ==>
        Position() == (if layout.pairs == [] then 0 else |layout.pairs| - 1) && corrupted == old(corrupted)
    {
      hide Follows, Contents, Layout.Valid, Layout.Data, Layout.Shares;
      SeekToRestartPoint(numRestarts - 1);
      ghost var j: nat := if Built() then layout.starts[numRestarts - 1] else 0;
      if Built() {
        StartIs(numRestarts - 1);
      }
      var ok := ParseNextKey(j);
      while ok && NextEntryOffset() < restarts
        invariant Steady() && ok == Valid()
        invariant Built() && layout.pairs == [] ==> !ok
        invariant Built() ==> corrupted == old(corrupted)
        invariant Built() && layout.pairs != [] ==> j < |layout.pairs| && ok && On(j) && index == j
        decreases if ok then restarts - NextEntryOffset() + 1 else 0
      {
        if Built() {
          OnPoisesNext(j);
        }
        j := j + 1;
        ok := ParseNextKey(j);
      }
      if Built() && layout.pairs != [] && j + 1 < |layout.pairs| {
        OffsetsGrow(layout, j + 1, |layout.pairs|);
      }
    }

    ghost predicate Ascending() {
      Transitive(less) && forall i, j :: 0 <= i < j < |layout.pairs| ==> less(layout.pairs[i].key, layout.pairs[j].key)
    }

    /** Entry `i` is the first whose key is not before the target. */
    ghost predicate FirstNotBefore(target: seq<Byte>, i: nat) {
      && i <= |layout.pairs|
      && (forall k :: 0 <= k < i ==> less(layout.pairs[k].key, target))
      && (forall k :: i <= k < |layout.pairs| ==> !less(layout.pairs[k].key, target))
    }

    lemma StartIs(r: nat)
      requires Built() && Safe() && r < numRestarts
      ensures layout.starts[r] <= |layout.pairs| && (layout.pairs != [] ==> layout.starts[r] < |layout.pairs|)
      ensures r > 0 ==> layout.starts[r] < |layout.pairs|
      ensures layout.starts[r] < |layout.pairs| ==> layout.shared[layout.starts[r]] == 0
      ensures layout.starts[0] == 0
      ensures RestartPoint(r) == layout.Offset(layout.starts[r])
    {
      assert layout.RestartsAt(layout.starts[r]);
      if r > 0 {
        assert layout.starts[0] < layout.starts[r];
      }
      RestartIs(r);
    }

    /** The whole key at restart `r`; None when the entry there is malformed or shares a prefix. */
    method RestartKey(r: nat) returns (ok: bool, k: seq<Byte>)
      requires Safe() && r < numRestarts
      ensures Built() && layout.starts[r] < |layout.pairs| ==> ok && k == layout.pairs[layout.starts[r]].key
    {
      ghost var whole := Built() && layout.starts[r] < |layout.pairs|;
      if whole {
        StartIs(r);
        ParsedIs(layout.starts[r], []);
      }
      hide Contents, DecodedEntry, Layout.Valid, Layout.Data, Layout.Shares;
      var offset := GetRestartPoint(r);
      if offset > restarts {
        return false, [];
      }
      var h := DecodeEntry(data, offset, restarts);
      if h.Bad? || h.shared != 0 {
        return false, [];
      }
      ok, k := true, data[h.start..h.start + h.nonShared];
      NothingBefore([], k);
    }

    /** Binary search over the restarts, then a linear scan. */
    method Seek(target: seq<Byte>)
      requires Consistent()
      modifies this
      ensures Consistent()
      ensures Built() && Ascending() ==> FirstNotBefore(target, Position()) && corrupted == old(corrupted)
    {
      hide Contents, Layout.Valid, Layout.Data, Layout.Shares;
      var left, right := 0, numRestarts - 1;
      while left < right
        invariant 0 <= left <= right < numRestarts
        invariant unchanged(this)
        invariant Built() && Ascending() && left > 0 ==>
          layout.starts[left] < |layout.pairs| && less(layout.pairs[layout.starts[left]].key, target)
        invariant Built() && Ascending() && right + 1 < numRestarts ==>
          layout.starts[right + 1] < |layout.pairs| && !less(layout.pairs[layout.starts[right + 1]].key, target)
      {
        var mid := (left + right + 1) / 2;
        if Built() {
          StartIs(mid);
        }
        var ok, midKey := RestartKey(mid);
        if !ok {
          CorruptionError();
          return;
        }
        if less(midKey, target) {
          left := mid;
        } else {
          right := mid - 1;
        }
      }
      SeekToRestartPoint(left);
      ghost var i: nat := if Built() then layout.starts[left] else 0;
      if Built() {
        StartIs(left);
        if Ascending() && left > 0 {
          assert forall k :: 0 <= k < i ==> less(layout.pairs[k].key, layout.pairs[i].key);
        }
      }
      ScanForward(target, i);
    }

    /** The linear search from a restart point. */
    method ScanForward(target: seq<Byte>, ghost start: nat)
      requires Safe() && restartIndex < numRestarts
      requires Built() ==> Poised(start)
      modifies this
      ensures Consistent()
      ensures Built() && Ascending() && (forall k :: 0 <= k < start ==> less(layout.pairs[k].key, target)) ==>
        FirstNotBefore(target, Position()) && corrupted == old(corrupted)
    {
      hide Follows, Contents, Layout.Valid, Layout.Data, Layout.Shares;
      ghost var i: nat := start;
      var ok := ParseNextKey(i);
      while ok && less(key, target)
        invariant Steady() && ok == Valid()
        invariant Built() ==> start <= i <= |layout.pairs| && ok == (i < |layout.pairs|) && corrupted == old(corrupted)
        invariant Built() && ok ==> On(i) && index == i
        invariant Built() ==> forall k :: start <= k < i ==> less(layout.pairs[k].key, target)
        decreases if ok then restarts - NextEntryOffset() + 1 else 0
      {
        if Built() {
          OnPoisesNext(i);
        }
        i := i + 1;
        ok := ParseNextKey(i);
      }
    }
  }

  datatype OpenStatus = Opened | NoEntries | BadContents

  /** Block::Block and NewIterator: check the restart array, and stand before the entries. */
  method NewIterator(less: Order, contents: seq<Byte>, ghost layout: Layout) returns (status: OpenStatus, it: Iter?)
    ensures (status == Opened) == (it != null)
    ensures it != null ==> fresh(it) && it.Consistent() && !it.Valid() && it.less == less && it.layout == layout
    ensures layout.Valid() && contents == Contents(layout) && |contents| < TWO_32 ==> it != null && it.Built()
    ensures status == BadContents <==> |contents| < 4 || |contents| < 4 + 4 * FixedValue(contents[|contents| - 4..])
    ensures status == NoEntries <==> |contents| >= 4 && FixedValue(contents[|contents| - 4..]) == 0
  {
    it := null;
    ghost var built := layout.Valid() && contents == Contents(layout) && |contents| < TWO_32;
    if built {
      TrailerIs(layout);
    }
    var size := |contents|;
    if size < 4 {
      return BadContents, null;
    }
    var numRestarts := FixedValue(contents[size - 4..]);
    if numRestarts > (size - 4) / 4 {
      return BadContents, null;
    }
    var restarts := size - (1 + numRestarts) * 4;
    if numRestarts == 0 {
      return NoEntries, null;
    }
    status := Opened;
    it := new Iter(less, contents, restarts, numRestarts, layout);
  }

  lemma TrailerIs(layout: Layout)
    requires layout.Valid() && |Contents(layout)| < TWO_32
    ensures var c, n := Contents(layout), |layout.starts|;
      |c| == layout.Offset(|layout.pairs|) + 4 * n + 4 && FixedValue(c[|c| - 4..]) == n
  {
    var c, n := Contents(layout), |layout.starts|;
    var data, words := layout.Data(|layout.pairs|), Words(layout.Restarts(n));
    hide Words, Fixed, FixedValue;
    assert c == data + (words + Fixed(n, 4));
    assert c[|c| - 4..] == Fixed(n, 4);
    assert Pow(256, 4) == TWO_32;
    FixedBack(n, 4);
  }
}
