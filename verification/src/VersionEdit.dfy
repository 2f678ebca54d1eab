/** db/version_edit.cc: a manifest record as bytes. */
module VersionEdits {
  import opened Bytes
  import opened Coding
  import Keys

  const NUM_LEVELS: nat := 7

  datatype Meta = Meta(number: nat, size: nat, smallest: seq<Byte>, largest: seq<Byte>) {
    predicate Fits() { number < TWO_64 && size < TWO_64 && |smallest| < TWO_32 && |largest| < TWO_32 }
  }

  /** One tagged field of a record. */
  datatype Item =
    | Comparator(name: seq<Byte>)
    | LogNumber(number: nat)
    | NextFileNumber(number: nat)
    | LastSequence(number: nat)
    | CompactPointer(level: nat, key: seq<Byte>)
    | DeletedFile(level: nat, number: nat)
    | NewFile(level: nat, file: Meta)
    | PrevLogNumber(number: nat)
  {
    predicate Fits() {
      match this
      case Comparator(name) => |name| < TWO_32
      case LogNumber(n) => n < TWO_64
      case NextFileNumber(n) => n < TWO_64
      case LastSequence(n) => n < TWO_64
      case PrevLogNumber(n) => n < TWO_64
      case CompactPointer(level, key) => level < NUM_LEVELS && |key| < TWO_32
      case DeletedFile(level, n) => level < NUM_LEVELS && n < TWO_64
      case NewFile(level, file) => level < NUM_LEVELS && file.Fits()
    }

    function Tag(): nat {
      match this
      case Comparator(_) => 1
      case LogNumber(_) => 2
      case NextFileNumber(_) => 3
      case LastSequence(_) => 4
      case CompactPointer(_, _) => 5
      case DeletedFile(_, _) => 6
      case NewFile(_, _) => 7
      case PrevLogNumber(_) => 9
    }

    function Body(): seq<Byte> {
      match this
      case Comparator(name) => LengthPrefixed(name)
      case LogNumber(n) => Varint(n)
      case NextFileNumber(n) => Varint(n)
      case LastSequence(n) => Varint(n)
      case PrevLogNumber(n) => Varint(n)
      case CompactPointer(level, key) => Varint(level) + LengthPrefixed(key)
      case DeletedFile(level, n) => Varint(level) + Varint(n)
      case NewFile(level, f) =>
        Varint(level) + (Varint(f.number) + (Varint(f.size) + (LengthPrefixed(f.smallest) + LengthPrefixed(f.largest))))
    }

    function Encoded(): seq<Byte> { Varint(Tag()) + Body() }
  }

  function Encoded(items: seq<Item>): seq<Byte> {
    if items == [] then [] else Encoded(items[..|items| - 1]) + items[|items| - 1].Encoded()
  }

  // ------------------------------------------------------------------ reading

  function GetLevel(input: seq<Byte>): Parsed<nat> {
    match GetVarint(input, 32)
    case Fail => Fail
    case Got(v, rest) => if v < NUM_LEVELS then Got(v, rest) else Fail
  }

  function Map<T, U>(p: Parsed<T>, f: T -> U): Parsed<U> {
    match p
    case Fail => Fail
    case Got(v, rest) => Got(f(v), rest)
  }

  /** The field after a tag. */
  function GetBody(tag: nat, input: seq<Byte>): Parsed<Item> {
    match tag
    case 1 => Map(GetLengthPrefixed(input), name => Comparator(name))
    case 2 => Map(GetVarint(input, 64), n => LogNumber(n))
    case 3 => Map(GetVarint(input, 64), n => NextFileNumber(n))
    case 4 => Map(GetVarint(input, 64), n => LastSequence(n))
    case 5 =>
      (match GetLevel(input)
       case Fail => Fail
       case Got(level, rest) => Map(GetLengthPrefixed(rest), key => CompactPointer(level, key)))
    case 6 =>
      (match GetLevel(input)
       case Fail => Fail
       case Got(level, rest) => Map(GetVarint(rest, 64), n => DeletedFile(level, n)))
    case 7 =>
      (match GetLevel(input)
       case Fail => Fail
       case Got(level, rest) => Map(GetMeta(rest), f => NewFile(level, f)))
    case 9 => Map(GetVarint(input, 64), n => PrevLogNumber(n))
    case _ => Fail
  }

  function GetMeta(input: seq<Byte>): Parsed<Meta> {
    match GetVarint(input, 64)
    case Fail => Fail
    case Got(number, rest) =>
      match GetVarint(rest, 64)
      case Fail => Fail
      case Got(size, rest) =>
        match GetLengthPrefixed(rest)
        case Fail => Fail
        case Got(smallest, rest) => Map(GetLengthPrefixed(rest), largest => Meta(number, size, smallest, largest))
  }

  lemma NumberBack(n: nat, rest: seq<Byte>)
    requires n < TWO_64
    ensures GetVarint(Varint(n) + rest, 64) == Got(n, rest)
  {
    Pow64();
    VarintBack(n, 64, rest);
  }

  lemma SmallBack(n: nat, rest: seq<Byte>)
    requires n < TWO_32
    ensures GetVarint(Varint(n) + rest, 32) == Got(n, rest)
  {
    Pow32();
    VarintBack(n, 32, rest);
  }

  lemma MetaBack(f: Meta, rest: seq<Byte>)
    requires f.Fits()
    ensures GetMeta(Varint(f.number) + (Varint(f.size) + (LengthPrefixed(f.smallest) + LengthPrefixed(f.largest))) + rest) == Got(f, rest)
  {
    hide Varint, GetVarint, LengthPrefixed, GetLengthPrefixed;
    var a, b, c, d := Varint(f.number), Varint(f.size), LengthPrefixed(f.smallest), LengthPrefixed(f.largest);
    Assoc(a, b + (c + d), rest);
    Assoc(b, c + d, rest);
    Assoc(c, d, rest);
    NumberBack(f.number, b + (c + (d + rest)));
    NumberBack(f.size, c + (d + rest));
    LengthPrefixedBack(f.smallest, d + rest);
    LengthPrefixedBack(f.largest, rest);
  }

  /** A field is read back, whatever follows it. */
  lemma BodyBack(item: Item, rest: seq<Byte>)
    requires item.Fits()
    ensures GetBody(item.Tag(), item.Body() + rest) == Got(item, rest)
  {
    hide Varint, GetVarint, LengthPrefixed, GetLengthPrefixed, GetMeta;
    match item
    case Comparator(name) => LengthPrefixedBack(name, rest);
    case LogNumber(n) => NumberBack(n, rest);
    case NextFileNumber(n) => NumberBack(n, rest);
    case LastSequence(n) => NumberBack(n, rest);
    case PrevLogNumber(n) => NumberBack(n, rest);
    case CompactPointer(level, key) =>
      Assoc(Varint(level), LengthPrefixed(key), rest);
      SmallBack(level, LengthPrefixed(key) + rest);
      LengthPrefixedBack(key, rest);
    case DeletedFile(level, n) =>
      Assoc(Varint(level), Varint(n), rest);
      SmallBack(level, Varint(n) + rest);
      NumberBack(n, rest);
    case NewFile(level, f) =>
      var meta := Varint(f.number) + (Varint(f.size) + (LengthPrefixed(f.smallest) + LengthPrefixed(f.largest)));
      Assoc(Varint(level), meta, rest);
      SmallBack(level, meta + rest);
      MetaBack(f, rest);
  }

  lemma ItemBack(item: Item, rest: seq<Byte>)
    requires item.Fits()
    ensures GetVarint(item.Encoded() + rest, 32) == Got(item.Tag(), item.Body() + rest)
    ensures GetBody(item.Tag(), item.Body() + rest) == Got(item, rest)
  {
    hide Varint, GetVarint, GetBody;
    BodyBack(item, rest);
    SmallBack(item.Tag(), item.Body() + rest);
    Assoc(Varint(item.Tag()), item.Body(), rest);
  }

  lemma VarintShrinks(s: seq<Byte>, bits: nat)
    ensures GetVarint(s, bits).Got? ==> |GetVarint(s, bits).rest| < |s|
  {
    if GetVarint(s, bits).Got? {
      VarintInRange(s, bits);
    }
  }

  lemma SliceShrinks(s: seq<Byte>)
    ensures GetLengthPrefixed(s).Got? ==> |GetLengthPrefixed(s).rest| < |s|
  {
    if GetLengthPrefixed(s).Got? {
      LengthPrefixedShrinks(s);
    }
  }

  lemma MetaShrinks(s: seq<Byte>)
    ensures GetMeta(s).Got? ==> |GetMeta(s).rest| < |s|
  {
    if GetMeta(s).Got? {
      VarintShrinks(s, 64);
      var a := GetVarint(s, 64).rest;
      VarintShrinks(a, 64);
      var b := GetVarint(a, 64).rest;
      SliceShrinks(b);
      SliceShrinks(GetLengthPrefixed(b).rest);
    }
  }

  lemma BodyShrinks(tag: nat, input: seq<Byte>)
    requires GetBody(tag, input).Got?
    ensures |GetBody(tag, input).rest| <= |input|
  {
    hide GetVarint, GetLengthPrefixed, GetMeta;
    SliceShrinks(input);
    VarintShrinks(input, 64);
    VarintShrinks(input, 32);
    if GetLevel(input).Got? {
      var rest := GetLevel(input).rest;
      SliceShrinks(rest);
      VarintShrinks(rest, 64);
      MetaShrinks(rest);
    }
  }

  datatype Status = Ok | Corruption

  /** The fields in a record as far as they can be read, and whether that is all of it. */
  function Items(input: seq<Byte>): (seq<Item>, Status)
    decreases |input|
  {
    match GetVarint(input, 32)
    case Fail => ([], if input == [] then Ok else Corruption)
    case Got(tag, rest) =>
      match GetBody(tag, rest)
      case Fail => ([], Corruption)
      case Got(item, rest2) =>
        VarintInRange(input, 32);
        BodyShrinks(tag, rest);
        var (items, status) := Items(rest2);
        ([item] + items, status)
  }

  lemma {:induction false} ItemsBack(items: seq<Item>, rest: seq<Byte>)
    requires forall i :: i in items ==> i.Fits()
    ensures Items(Encoded(items) + rest) == (items + Items(rest).0, Items(rest).1)
    decreases |items|
  {
    hide Varint, GetVarint, GetBody, Item.Encoded;
    if items == [] {
      assert Encoded(items) + rest == rest && items + Items(rest).0 == Items(rest).0;
    } else {
      var front, last := items[..|items| - 1], items[|items| - 1];
      ItemsBack(front, last.Encoded() + rest);
      Assoc(Encoded(front), last.Encoded(), rest);
      ItemBack(last, rest);
      assert front + ([last] + Items(rest).0) == items + Items(rest).0;
    }
  }

  // --------------------------------------------------------------- the edit

  datatype Fields = Fields(comparator: Keys.Option<seq<Byte>>, logNumber: Keys.Option<nat>, prevLogNumber: Keys.Option<nat>,
                           nextFileNumber: Keys.Option<nat>, lastSequence: Keys.Option<nat>,
                           compactPointers: seq<(nat, seq<Byte>)>, deletedFiles: seq<(nat, nat)>, newFiles: seq<(nat, Meta)>)

  /** The order of std::set<std::pair<int, uint64_t>>. */
  predicate Before(a: (nat, nat), b: (nat, nat)) { a.0 < b.0 || (a.0 == b.0 && a.1 < b.1) }

  ghost predicate Ascending(s: seq<(nat, nat)>) {
    forall i, j :: 0 <= i < j < |s| ==> Before(s[i], s[j])
  }

  function Inserted(s: seq<(nat, nat)>, d: (nat, nat)): seq<(nat, nat)> {
    if s == [] || Before(d, s[0]) then [d] + s
    else if d == s[0] then s
    else [s[0]] + Inserted(s[1..], d)
  }

  /** What a field does to an edit. */
  function Set(f: Fields, item: Item): Fields {
    match item
    case Comparator(name) => f.(comparator := Keys.Some(name))
    case LogNumber(n) => f.(logNumber := Keys.Some(n))
    case PrevLogNumber(n) => f.(prevLogNumber := Keys.Some(n))
    case NextFileNumber(n) => f.(nextFileNumber := Keys.Some(n))
    case LastSequence(n) => f.(lastSequence := Keys.Some(n))
    case CompactPointer(level, key) => f.(compactPointers := f.compactPointers + [(level, key)])
    case DeletedFile(level, n) => f.(deletedFiles := Inserted(f.deletedFiles, (level, n)))
    case NewFile(level, file) => f.(newFiles := f.newFiles + [(level, file)])
  }

  function SetAll(f: Fields, items: seq<Item>): Fields {
    if items == [] then f else Set(SetAll(f, items[..|items| - 1]), items[|items| - 1])
  }

  /** Clear leaves the compaction pointers alone. */
  function Cleared(f: Fields): Fields {
    Fields(Keys.None, Keys.None, Keys.None, Keys.None, Keys.None, f.compactPointers, [], [])
  }

  function One(present: bool, item: Item): seq<Item> { if present then [item] else [] }

  function PointerItems(ps: seq<(nat, seq<Byte>)>): (items: seq<Item>) {
    seq(|ps|, i requires 0 <= i < |ps| => CompactPointer(ps[i].0, ps[i].1))
  }

  function DeletedItems(ds: seq<(nat, nat)>): (items: seq<Item>) {
    seq(|ds|, i requires 0 <= i < |ds| => DeletedFile(ds[i].0, ds[i].1))
  }

  function NewItems(ns: seq<(nat, Meta)>): (items: seq<Item>) {
    seq(|ns|, i requires 0 <= i < |ns| => NewFile(ns[i].0, ns[i].1))
  }

  /** The fields of an edit in the order they are written. */
  function ItemsOf(f: Fields): seq<Item> {
    HeaderOf(f) + PointerItems(f.compactPointers) + DeletedItems(f.deletedFiles) + NewItems(f.newFiles)
  }

  function HeaderOf(f: Fields): seq<Item> {
    One(f.comparator.Some?, Comparator(if f.comparator.Some? then f.comparator.value else []))
    + One(f.logNumber.Some?, LogNumber(if f.logNumber.Some? then f.logNumber.value else 0))
    + One(f.prevLogNumber.Some?, PrevLogNumber(if f.prevLogNumber.Some? then f.prevLogNumber.value else 0))
    + One(f.nextFileNumber.Some?, NextFileNumber(if f.nextFileNumber.Some? then f.nextFileNumber.value else 0))
    + One(f.lastSequence.Some?, LastSequence(if f.lastSequence.Some? then f.lastSequence.value else 0))
  }

  lemma {:induction false} SetAllAppend(f: Fields, a: seq<Item>, b: seq<Item>)
    ensures SetAll(f, a + b) == SetAll(SetAll(f, a), b)
    decreases |b|
  {
    if b == [] {
      assert a + b == a;
    } else {
      assert (a + b)[..|a + b| - 1] == a + b[..|b| - 1];
      SetAllAppend(f, a, b[..|b| - 1]);
    }
  }

  lemma {:induction false} InsertedLast(s: seq<(nat, nat)>, d: (nat, nat))
    requires Ascending(s) && forall e :: e in s ==> Before(e, d)
    ensures Inserted(s, d) == s + [d]
  {
    if s != [] {
      assert s[0] in s;
      InsertedLast(s[1..], d);
    }
  }

  lemma SetHeader(f: Fields, base: Fields)
    requires base == Cleared(base)
    ensures SetAll(base, HeaderOf(f)) == f.(compactPointers := base.compactPointers, deletedFiles := [], newFiles := [])
  {
    var c := One(f.comparator.Some?, Comparator(if f.comparator.Some? then f.comparator.value else []));
    var l := One(f.logNumber.Some?, LogNumber(if f.logNumber.Some? then f.logNumber.value else 0));
    var p := One(f.prevLogNumber.Some?, PrevLogNumber(if f.prevLogNumber.Some? then f.prevLogNumber.value else 0));
    var n := One(f.nextFileNumber.Some?, NextFileNumber(if f.nextFileNumber.Some? then f.nextFileNumber.value else 0));
    var s := One(f.lastSequence.Some?, LastSequence(if f.lastSequence.Some? then f.lastSequence.value else 0));
    SetAllAppend(base, c + l + p + n, s);
    SetAllAppend(base, c + l + p, n);
    SetAllAppend(base, c + l, p);
    SetAllAppend(base, c, l);
    SetOne(base, c);
    SetOne(SetAll(base, c), l);
    SetOne(SetAll(base, c + l), p);
    SetOne(SetAll(base, c + l + p), n);
    SetOne(SetAll(base, c + l + p + n), s);
  }

  lemma SetOne(f: Fields, items: seq<Item>)
    requires |items| <= 1
    ensures SetAll(f, items) == if items == [] then f else Set(f, items[0])
  {
    if items != [] {
      assert items[..0] == [];
    }
  }

  lemma {:induction false} SetPointers(f: Fields, ps: seq<(nat, seq<Byte>)>)
    ensures SetAll(f, PointerItems(ps)) == f.(compactPointers := f.compactPointers + ps)
    decreases |ps|
  {
    if ps == [] {
      assert f.compactPointers + ps == f.compactPointers;
    } else {
      var front := ps[..|ps| - 1];
      SetPointers(f, front);
      assert PointerItems(ps)[..|ps| - 1] == PointerItems(front);
      assert f.compactPointers + front + [ps[|ps| - 1]] == f.compactPointers + ps;
    }
  }

  lemma {:induction false} SetDeleted(f: Fields, ds: seq<(nat, nat)>)
    requires f.deletedFiles == [] && Ascending(ds)
    ensures SetAll(f, DeletedItems(ds)) == f.(deletedFiles := ds)
    decreases |ds|
  {
    if ds != [] {
      var front := ds[..|ds| - 1];
      SetDeleted(f, front);
      assert DeletedItems(ds)[..|ds| - 1] == DeletedItems(front);
      InsertedLast(front, ds[|ds| - 1]);
    }
  }

  lemma {:induction false} SetNew(f: Fields, ns: seq<(nat, Meta)>)
    ensures SetAll(f, NewItems(ns)) == f.(newFiles := f.newFiles + ns)
    decreases |ns|
  {
    if ns == [] {
      assert f.newFiles + ns == f.newFiles;
    } else {
      var front := ns[..|ns| - 1];
      SetNew(f, front);
      assert NewItems(ns)[..|ns| - 1] == NewItems(front);
      assert f.newFiles + front + [ns[|ns| - 1]] == f.newFiles + ns;
    }
  }

  ghost predicate Fit(f: Fields) { forall item :: item in ItemsOf(f) ==> item.Fits() }

  /** Decoding what was encoded gives the edit back, after the compaction pointers the reader already held. */
  lemma EditBack(f: Fields, base: Fields)
    requires Fit(f) && Ascending(f.deletedFiles)
    ensures Items(Encoded(ItemsOf(f))) == (ItemsOf(f), Ok)
    ensures SetAll(Cleared(base), ItemsOf(f)) == f.(compactPointers := base.compactPointers + f.compactPointers)
    ensures SetAll(Cleared(base), ItemsOf(f)) == f <==> base.compactPointers == []
  {
    hide SetAll, HeaderOf, PointerItems, DeletedItems, NewItems, Encoded, Fit;
    var clear := Cleared(base);
    var h, p, d, n := HeaderOf(f), PointerItems(f.compactPointers), DeletedItems(f.deletedFiles), NewItems(f.newFiles);
    SetAllAppend(clear, h + p + d, n);
    SetAllAppend(clear, h + p, d);
    SetAllAppend(clear, h, p);
    SetHeader(f, clear);
    SetPointers(SetAll(clear, h), f.compactPointers);
    SetDeleted(SetAll(clear, h + p), f.deletedFiles);
    SetNew(SetAll(clear, h + p + d), f.newFiles);
    assert [] + f.newFiles == f.newFiles;
    ItemsReadBack(f);
    assert base.compactPointers + f.compactPointers == f.compactPointers <==> base.compactPointers == [] by {
      assert |base.compactPointers + f.compactPointers| == |base.compactPointers| + |f.compactPointers|;
      assert [] + f.compactPointers == f.compactPointers;
    }
  }

  lemma ItemsReadBack(f: Fields)
    requires Fit(f)
    ensures Items(Encoded(ItemsOf(f))) == (ItemsOf(f), Ok)
  {
    hide ItemsOf;
    ItemsBack(ItemsOf(f), []);
    assert Encoded(ItemsOf(f)) + [] == Encoded(ItemsOf(f));
    assert ItemsOf(f) + [] == ItemsOf(f);
  }

  lemma NothingYet(dst: seq<Byte>, f: Fields)
    ensures dst + Encoded([]) == dst && SetAll(f, []) == f
  {}

  method PutVarint32(dst: seq<Byte>, v: nat) returns (out: seq<Byte>)
    requires v < TWO_32
    ensures out == dst + Varint(v)
  {
    var bytes := EncodeVarint32(v);
    out := dst + bytes;
  }

  method PutVarint64(dst: seq<Byte>, v: nat) returns (out: seq<Byte>)
    ensures out == dst + Varint(v)
  {
    var bytes := EncodeVarint64(v);
    out := dst + bytes;
  }

  lemma Written(dst: seq<Byte>, done: seq<Item>, item: Item)
    ensures dst + Encoded(done) + item.Encoded() == dst + Encoded(done + [item])
  {
    assert (done + [item])[..|done|] == done;
    Assoc(dst, Encoded(done), item.Encoded());
  }

  // ------------------------------------------------------------- the object

  class VersionEdit {
    var comparator: Keys.Option<seq<Byte>>
    var logNumber: Keys.Option<nat>
    var prevLogNumber: Keys.Option<nat>
    var nextFileNumber: Keys.Option<nat>
    var lastSequence: Keys.Option<nat>
    var compactPointers: seq<(nat, seq<Byte>)>
    var deletedFiles: seq<(nat, nat)>
    var newFiles: seq<(nat, Meta)>

    ghost function State(): Fields
      reads this
    {
      Fields(comparator, logNumber, prevLogNumber, nextFileNumber, lastSequence, compactPointers, deletedFiles, newFiles)
    }

    constructor ()
      ensures State() == Fields(Keys.None, Keys.None, Keys.None, Keys.None, Keys.None, [], [], [])
    {
      comparator, logNumber, prevLogNumber, nextFileNumber, lastSequence := Keys.None, Keys.None, Keys.None, Keys.None, Keys.None;
      compactPointers, deletedFiles, newFiles := [], [], [];
    }

    method Clear()
      modifies this
      ensures State() == Cleared(old(State()))
    {
      comparator, logNumber, prevLogNumber, nextFileNumber, lastSequence := Keys.None, Keys.None, Keys.None, Keys.None, Keys.None;
      deletedFiles, newFiles := [], [];
    }

    /** The bytes are the items of the edit one after another. */
    method EncodeTo(dst: seq<Byte>) returns (out: seq<Byte>)
      requires Fit(State())
      ensures out == dst + Encoded(ItemsOf(State()))
    {
      hide Varint, LengthPrefixed, HeaderOf, Encoded, PointerItems, DeletedItems, NewItems, Item.Fits;
      ghost var h, p, d := HeaderOf(State()), PointerItems(compactPointers), DeletedItems(deletedFiles);
      out := EncodeHeader(dst);
      out := EncodePointers(out, dst, h);
      out := EncodeDeleted(out, dst, h + p);
      out := EncodeNew(out, dst, h + p + d);
    }

    method EncodePointers(begun: seq<Byte>, ghost dst: seq<Byte>, ghost h: seq<Item>) returns (out: seq<Byte>)
      requires begun == dst + Encoded(h)
      requires forall item :: item in PointerItems(compactPointers) ==> item.Fits()
      ensures out == dst + Encoded(h + PointerItems(compactPointers))
    {
      hide Varint, LengthPrefixed, Encoded;
      out := begun;
      assert h + PointerItems(compactPointers[..0]) == h;
      var i := 0;
      while i < |compactPointers|
        invariant 0 <= i <= |compactPointers|
        invariant out == dst + Encoded(h + PointerItems(compactPointers[..i]))
      {
        ghost var item, done := PointerItems(compactPointers)[i], h + PointerItems(compactPointers[..i]);
        assert item.Fits();
        out := PutVarint32(out, 5);
        out := PutVarint32(out, compactPointers[i].0);
        out := out + LengthPrefixed(compactPointers[i].1);
        ThreeParts(dst + Encoded(done), Varint(5), Varint(item.level), LengthPrefixed(item.key));
        Written(dst, done, item);
        assert done + [item] == h + PointerItems(compactPointers[..i + 1]);
        i := i + 1;
      }
      assert compactPointers[..i] == compactPointers;
    }

    method EncodeDeleted(begun: seq<Byte>, ghost dst: seq<Byte>, ghost h: seq<Item>) returns (out: seq<Byte>)
      requires begun == dst + Encoded(h)
      requires forall item :: item in DeletedItems(deletedFiles) ==> item.Fits()
      ensures out == dst + Encoded(h + DeletedItems(deletedFiles))
    {
      hide Varint, LengthPrefixed, Encoded;
      out := begun;
      assert h + DeletedItems(deletedFiles[..0]) == h;
      var i := 0;
      while i < |deletedFiles|
        invariant 0 <= i <= |deletedFiles|
        invariant out == dst + Encoded(h + DeletedItems(deletedFiles[..i]))
      {
        ghost var item, done := DeletedItems(deletedFiles)[i], h + DeletedItems(deletedFiles[..i]);
        assert item.Fits();
        out := PutVarint32(out, 6);
        out := PutVarint32(out, deletedFiles[i].0);
        out := PutVarint64(out, deletedFiles[i].1);
        ThreeParts(dst + Encoded(done), Varint(6), Varint(item.level), Varint(deletedFiles[i].1));
        Written(dst, done, item);
        assert done + [item] == h + DeletedItems(deletedFiles[..i + 1]);
        i := i + 1;
      }
      assert deletedFiles[..i] == deletedFiles;
    }

    method EncodeNew(begun: seq<Byte>, ghost dst: seq<Byte>, ghost h: seq<Item>) returns (out: seq<Byte>)
      requires begun == dst + Encoded(h)
      requires forall item :: item in NewItems(newFiles) ==> item.Fits()
      ensures out == dst + Encoded(h + NewItems(newFiles))
    {
      hide Varint, LengthPrefixed, Encoded;
      out := begun;
      assert h + NewItems(newFiles[..0]) == h;
      var i := 0;
      while i < |newFiles|
        invariant 0 <= i <= |newFiles|
        invariant out == dst + Encoded(h + NewItems(newFiles[..i]))
      {
        ghost var item, done := NewItems(newFiles)[i], h + NewItems(newFiles[..i]);
        assert item.Fits();
        out := EncodeNewFile(out, newFiles[i].0, newFiles[i].1);
        Written(dst, done, item);
        assert done + [item] == h + NewItems(newFiles[..i + 1]);
        i := i + 1;
      }
      assert newFiles[..i] == newFiles;
    }

    method EncodeHeader(dst: seq<Byte>) returns (out: seq<Byte>)
      ensures out == dst + Encoded(HeaderOf(State()))
    {
      NothingYet(dst, State());
      hide Varint, LengthPrefixed, Encoded;
      out := dst;
      ghost var c := One(comparator.Some?, Comparator(if comparator.Some? then comparator.value else []));
      if comparator.Some? {
        out := PutVarint32(out, 1);
        out := out + LengthPrefixed(comparator.value);
        Wrote(dst, [], c[0], LengthPrefixed(comparator.value));
        assert [] + [c[0]] == c;
      }
      ghost var l := One(logNumber.Some?, LogNumber(if logNumber.Some? then logNumber.value else 0));
      out := PutOptional(out, 2, logNumber, dst, c, l);
      ghost var p := One(prevLogNumber.Some?, PrevLogNumber(if prevLogNumber.Some? then prevLogNumber.value else 0));
      out := PutOptional(out, 9, prevLogNumber, dst, c + l, p);
      ghost var n := One(nextFileNumber.Some?, NextFileNumber(if nextFileNumber.Some? then nextFileNumber.value else 0));
      out := PutOptional(out, 3, nextFileNumber, dst, c + l + p, n);
      ghost var s := One(lastSequence.Some?, LastSequence(if lastSequence.Some? then lastSequence.value else 0));
      out := PutOptional(out, 4, lastSequence, dst, c + l + p + n, s);
    }

    /**
     * Whatever the bytes, the edit ends as if cleared and then given the fields that can be read, and the
     * status says whether those were all.
     */
    method DecodeFrom(src: seq<Byte>) returns (status: Status)
      modifies this
      ensures State() == SetAll(Cleared(old(State())), Items(src).0)
      ensures status == Items(src).1
    {
      hide GetVarint, GetBody, SetAll, Set;
      Clear();
      ghost var start, read := State(), [];
      var input, bad := src, false;
      NothingYet([], start);
      assert read + Items(input).0 == Items(input).0;
      var tag := GetVarintPtr(input, 32);
      while !bad && tag.Got?
        invariant State() == SetAll(start, read)
        invariant tag == GetVarint(input, 32)
        invariant Items(src) == if bad then (read, Corruption) else (read + Items(input).0, Items(input).1)
        decreases !bad, |input|
      {
        ghost var body := GetBody(tag.value, tag.rest);
        ghost var before, was := State(), read;
        var ok, rest := DecodeField(tag.value, tag.rest);
        if ok {
          VarintInRange(input, 32);
          BodyShrinks(tag.value, tag.rest);
          read := read + [body.value];
          SetAllNext(start, was, body.value);
          assert was + ([body.value] + Items(rest).0) == read + Items(rest).0;
          input := rest;
          tag := GetVarintPtr(input, 32);
        } else {
          assert was + [] == was;
          bad := true;
        }
      }
      assert !bad ==> read + Items(input).0 == read;
      status := if bad || input != [] then Corruption else Ok;
    }

    /** One turn of the switch. */
    method DecodeField(tag: nat, input: seq<Byte>) returns (ok: bool, rest: seq<Byte>)
      modifies this
      ensures ok == GetBody(tag, input).Got?
      ensures ok ==> rest == GetBody(tag, input).rest && State() == Set(old(State()), GetBody(tag, input).value)
      ensures !ok ==> State() == old(State())
    {
      hide GetVarint, GetLengthPrefixed;
      ok, rest := false, input;
      match tag {
        case 1 =>
          var str := GetLengthPrefixed(input);
          if str.Got? { comparator, ok, rest := Keys.Some(str.value), true, str.rest; }
        case 2 =>
          var number := GetVarintPtr(input, 64);
          if number.Got? { logNumber, ok, rest := Keys.Some(number.value), true, number.rest; }
        case 9 =>
          var number := GetVarintPtr(input, 64);
          if number.Got? { prevLogNumber, ok, rest := Keys.Some(number.value), true, number.rest; }
        case 3 =>
          var number := GetVarintPtr(input, 64);
          if number.Got? { nextFileNumber, ok, rest := Keys.Some(number.value), true, number.rest; }
        case 4 =>
          var number := GetVarintPtr(input, 64);
          if number.Got? { lastSequence, ok, rest := Keys.Some(number.value), true, number.rest; }
        case 5 =>
          var level := ReadLevel(input);
          if level.Got? {
            var key := GetLengthPrefixed(level.rest);
            if key.Got? { compactPointers, ok, rest := compactPointers + [(level.value, key.value)], true, key.rest; }
          }
        case 6 =>
          var level := ReadLevel(input);
          if level.Got? {
            var number := GetVarintPtr(level.rest, 64);
            if number.Got? {
              deletedFiles, ok, rest := Inserted(deletedFiles, (level.value, number.value)), true, number.rest;
            }
          }
        case 7 =>
          var level := ReadLevel(input);
          if level.Got? {
            var number := GetVarintPtr(level.rest, 64);
            if number.Got? {
              var size := GetVarintPtr(number.rest, 64);
              if size.Got? {
                var smallest := GetLengthPrefixed(size.rest);
                if smallest.Got? {
                  var largest := GetLengthPrefixed(smallest.rest);
                  if largest.Got? {
                    var f := Meta(number.value, size.value, smallest.value, largest.value);
                    newFiles, ok, rest := newFiles + [(level.value, f)], true, largest.rest;
                  }
                }
              }
            }
          }
        case _ =>
      }
    }
  }

  method ReadLevel(input: seq<Byte>) returns (r: Parsed<nat>)
    ensures r == GetLevel(input)
  {
    r := GetVarintPtr(input, 32);
    if r.Got? && r.value >= NUM_LEVELS {
      r := Fail;
    }
  }

  method EncodeNewFile(dst: seq<Byte>, level: nat, f: Meta) returns (out: seq<Byte>)
    requires level < NUM_LEVELS
    ensures out == dst + NewFile(level, f).Encoded()
  {
    hide Varint, LengthPrefixed;
    var t := PutVarint32(dst, 7);
    var l := PutVarint32(t, level);
    var n := PutVarint64(l, f.number);
    var s := PutVarint64(n, f.size);
    out := s + LengthPrefixed(f.smallest) + LengthPrefixed(f.largest);
    Assoc(s, LengthPrefixed(f.smallest), LengthPrefixed(f.largest));
    ghost var keys := LengthPrefixed(f.smallest) + LengthPrefixed(f.largest);
    Assoc(n, Varint(f.size), keys);
    Assoc(l, Varint(f.number), Varint(f.size) + keys);
    ThreeParts(dst, Varint(7), Varint(level), Varint(f.number) + (Varint(f.size) + keys));
  }

  /** A tagged number, when there is one. */
  method PutOptional(begun: seq<Byte>, tag: nat, value: Keys.Option<nat>, ghost dst: seq<Byte>, ghost done: seq<Item>,
                     ghost items: seq<Item>)
    returns (out: seq<Byte>)
    requires begun == dst + Encoded(done) && tag < TWO_32
    requires |items| == if value.Some? then 1 else 0
    requires value.Some? ==> items[0].Tag() == tag && items[0].Body() == Varint(value.value)
    ensures out == dst + Encoded(done + items)
  {
    hide Varint, Encoded, Item.Body;
    out := begun;
    assert done + items == if value.Some? then done + [items[0]] else done;
    if value.Some? {
      out := PutVarint32(out, tag);
      out := PutVarint64(out, value.value);
      Wrote(dst, done, items[0], Varint(value.value));
    }
  }

  lemma ThreeParts(dst: seq<Byte>, a: seq<Byte>, b: seq<Byte>, c: seq<Byte>)
    ensures dst + a + b + c == dst + (a + (b + c))
  {}

  lemma Wrote(dst: seq<Byte>, done: seq<Item>, item: Item, body: seq<Byte>)
    requires body == item.Body()
    ensures dst + Encoded(done) + Varint(item.Tag()) + body == dst + Encoded(done + [item])
  {
    hide Varint, Encoded, Item.Body;
    Written(dst, done, item);
    Assoc(dst + Encoded(done), Varint(item.Tag()), body);
  }

  lemma SetAllNext(f: Fields, items: seq<Item>, item: Item)
    ensures SetAll(f, items + [item]) == Set(SetAll(f, items), item)
  {
    assert (items + [item])[..|items|] == items;
  }

  /** What one edit object writes another reads back: all of it, and nothing else. */
  method EncodeThenDecode(e: VersionEdit) returns (copy: VersionEdit)
    requires Fit(e.State()) && Ascending(e.deletedFiles)
    ensures copy.State() == e.State()
  {
    hide Fit, ItemsOf, SetAll, Items, Encoded;
    var record := e.EncodeTo([]);
    assert record == Encoded(ItemsOf(e.State()));
    copy := new VersionEdit();
    ghost var base := copy.State();
    var status := copy.DecodeFrom(record);
    EditBack(e.State(), base);
  }
}
