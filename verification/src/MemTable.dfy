/** db/memtable.cc: entries as bytes, in the order of their internal keys. */
module MemTables {
  import opened Bytes
  import opened Coding
  import opened Comparators

  const DELETION: nat := 0
  const VALUE: nat := 1

  /** One call of MemTable::Add. */
  datatype Added = Added(sequence: nat, kind: nat, user: seq<Byte>, value: seq<Byte>) {
    function Packed(): nat { 256 * sequence + kind }

    function Key(): seq<Byte> { Internal(user, Packed()) }

    predicate Fits() {
      kind <= VALUE && sequence < 0x100_0000_0000_0000 && |user| + 8 < TWO_32 && |value| < TWO_32
    }
  }

  /** The buffer of an entry: its internal key and its value, each after its length. */
  function Buffer(a: Added): seq<Byte> { LengthPrefixed(a.Key()) + LengthPrefixed(a.value) }

  /** GetLengthPrefixedSlice, of bytes that are assumed to be whole. */
  function Slice(s: seq<Byte>): seq<Byte> {
    match GetLengthPrefixed(s)
    case Fail => []
    case Got(key, _) => key
  }

  /** MemTable::KeyComparator. */
  predicate BufferLess(a: seq<Byte>, b: seq<Byte>) { InternalLess(Slice(a), Slice(b)) }

  predicate Before(a: Added, b: Added) { Less(a.user, b.user) || (a.user == b.user && a.Packed() > b.Packed()) }

  /** What a reader of a user key at a sequence number is meant to find. */
  ghost predicate Newest(entries: seq<Added>, user: seq<Byte>, sequence: nat, a: Added) {
    && a in entries && a.user == user && a.sequence <= sequence
    && forall b :: b in entries && b.user == user && b.sequence <= sequence ==> b.sequence <= a.sequence
  }

  datatype Lookup = Missing | Deleted | Found(value: seq<Byte>)

  ghost predicate Answers(entries: seq<Added>, user: seq<Byte>, sequence: nat, r: Lookup) {
    if r.Missing? then forall a :: a in entries && a.user == user ==> sequence < a.sequence
    else exists a :: Newest(entries, user, sequence, a) && r == if a.kind == VALUE then Found(a.value) else Deleted
  }

  lemma BufferBack(a: Added, rest: seq<Byte>)
    requires a.Fits()
    ensures GetLengthPrefixed(Buffer(a) + rest) == Got(a.Key(), LengthPrefixed(a.value) + rest)
    ensures GetLengthPrefixed(LengthPrefixed(a.value)) == Got(a.value, [])
    ensures User(a.Key()) == a.user && Tag(a.Key()) == a.Packed()
  {
    hide GetLengthPrefixed, LengthPrefixed;
    LengthPrefixedBack(a.Key(), LengthPrefixed(a.value) + rest);
    assert LengthPrefixed(a.Key()) + LengthPrefixed(a.value) + rest == LengthPrefixed(a.Key()) + (LengthPrefixed(a.value) + rest);
    LengthPrefixedBack(a.value, []);
    assert LengthPrefixed(a.value) + [] == LengthPrefixed(a.value);
    InternalParts(a.user, a.Packed());
  }

  /** The bytes are ordered as the entries are. */
  lemma OrderOfBuffers(a: Added, b: Added)
    requires a.Fits() && b.Fits()
    ensures BufferLess(Buffer(a), Buffer(b)) <==> Before(a, b)
  {
    hide GetLengthPrefixed, LengthPrefixed;
    BufferBack(a, []);
    BufferBack(b, []);
    assert Buffer(a) + [] == Buffer(a) && Buffer(b) + [] == Buffer(b);
  }

  class MemTable {
    // What the skip list holds, in its order, by what is proved of it in SkipLists.
    var table: seq<seq<Byte>>
    ghost var entries: seq<Added>

    ghost predicate Valid()
      reads this
    {
      && |table| == |entries|
      && (forall i :: 0 <= i < |entries| ==> entries[i].Fits() && table[i] == Buffer(entries[i]))
      && forall i, j :: 0 <= i < j < |entries| ==> Before(entries[i], entries[j])
    }

    constructor ()
      ensures Valid() && entries == []
    {
      table, entries := [], [];
    }

    /** The place of the first buffer that is not before the target. */
    method Seek(target: seq<Byte>) returns (p: nat)
      ensures p <= |table| && (forall i :: 0 <= i < p ==> BufferLess(table[i], target))
      ensures p < |table| ==> !BufferLess(table[p], target)
    {
      p := 0;
      while p < |table| && BufferLess(table[p], target)
        invariant p <= |table| && forall i :: 0 <= i < p ==> BufferLess(table[i], target)
      {
        p := p + 1;
      }
    }

    method Add(sequence: nat, kind: nat, user: seq<Byte>, value: seq<Byte>)
      requires Valid() && Added(sequence, kind, user, value).Fits()
      requires forall a :: a in entries && a.user == user ==> a.sequence != sequence
      modifies this
      ensures Valid() && multiset(entries) == multiset(old(entries)) + multiset{Added(sequence, kind, user, value)}
    {
      hide GetLengthPrefixed, LengthPrefixed, Buffer, BufferLess, Less, Before;
      ghost var a := Added(sequence, kind, user, value);
      var buf := EncodeEntry(sequence, kind, user, value);
      var p := Seek(buf);
      forall i | 0 <= i < |entries| ensures i < p <==> Before(entries[i], a) {
        OrderOfBuffers(entries[i], a);
        Divides(entries, a, p, i);
      }
      forall i | p <= i < |entries| ensures Before(a, entries[i]) {
        BeforeIsTotal(a, entries[i]);
      }
      InsertedInOrder(entries, a, p);
      table := table[..p] + [buf] + table[p..];
      entries := entries[..p] + [a] + entries[p..];
    }

    /** Everything before the place is before the entry, and nothing after it is. */
    lemma Divides(s: seq<Added>, a: Added, p: nat, i: nat)
      requires p <= |s| && i < |s|
      requires forall j, k :: 0 <= j < k < |s| ==> Before(s[j], s[k])
      requires forall j :: 0 <= j < |s| ==> s[j].Fits()
      requires a.Fits()
      requires forall j :: 0 <= j < p ==> BufferLess(Buffer(s[j]), Buffer(a))
      requires p < |s| ==> !BufferLess(Buffer(s[p]), Buffer(a))
      ensures i < p <==> Before(s[i], a)
    {
      hide GetLengthPrefixed, LengthPrefixed, Buffer, BufferLess, Less;
      OrderOfBuffers(s[i], a);
      if p <= i && Before(s[i], a) {
        OrderOfBuffers(s[p], a);
        if p < i {
          BeforeIsTransitive(s[p], s[i], a);
        }
      }
    }

    method EncodeEntry(sequence: nat, kind: nat, user: seq<Byte>, value: seq<Byte>) returns (buf: seq<Byte>)
      requires Added(sequence, kind, user, value).Fits()
      ensures buf == Buffer(Added(sequence, kind, user, value))
    {
      hide Varint, Fixed;
      buf := EncodeVarint32(|user| + 8);
      buf := buf + user;
      buf := buf + Fixed(256 * sequence + kind, 8);
      var length := EncodeVarint32(|value|);
      buf := buf + length + value;
      InParts(Varint(|user| + 8), user, Fixed(256 * sequence + kind, 8), length, value);
    }

    /** The memtable key of a LookupKey. */
    method LookupKey(user: seq<Byte>, sequence: nat) returns (memkey: seq<Byte>)
      requires |user| + 8 < TWO_32
      ensures memkey == LengthPrefixed(Added(sequence, VALUE, user, []).Key())
    {
      hide Varint, Fixed;
      memkey := EncodeVarint32(|user| + 8);
      memkey := memkey + user;
      memkey := memkey + Fixed(256 * sequence + VALUE, 8);
      InParts(Varint(|user| + 8), user, Fixed(256 * sequence + VALUE, 8), [], []);
    }

    method Get(user: seq<Byte>, sequence: nat) returns (r: Lookup)
      requires Valid() && |user| + 8 < TWO_32 && sequence < 0x100_0000_0000_0000
      ensures Answers(entries, user, sequence, r)
    {
      hide GetLengthPrefixed, LengthPrefixed, Buffer, BufferLess, Less, Tag, User, Internal, FixedValue;
      ghost var target := Added(sequence, VALUE, user, []);
      var memkey := LookupKey(user, sequence);
      var p := SeekLookup(memkey, target);
      r := Missing;
      if p < |table| {
        ghost var a := entries[p];
        BufferBack(a, []);
        assert Buffer(a) + [] == Buffer(a) && LengthPrefixed(a.value) + [] == LengthPrefixed(a.value);
        var key := GetLengthPrefixed(table[p]);
        if User(key.value) == user {
          if Tag(key.value) % 256 == VALUE {
            r := Found(Slice(key.rest));
          } else {
            r := Deleted;
          }
        }
      }
      LookupAnswers(entries, user, sequence, p);
    }

    /** A lookup key has no value after it; it is ordered like an entry that has. */
    method SeekLookup(memkey: seq<Byte>, ghost target: Added) returns (p: nat)
      requires Valid() && target.Fits() && memkey == LengthPrefixed(target.Key())
      ensures p <= |entries| && forall i :: 0 <= i < |entries| ==> (i < p <==> Before(entries[i], target))
    {
      hide GetLengthPrefixed, LengthPrefixed, Buffer, Less;
      p := Seek(memkey);
      SliceOfKey(target);
      forall i | 0 <= i < |entries| ensures i < p <==> Before(entries[i], target) {
        Divides(entries, target, p, i);
      }
    }
  }

  lemma InsertedInOrder(s: seq<Added>, a: Added, p: nat)
    requires p <= |s| && forall i, j :: 0 <= i < j < |s| ==> Before(s[i], s[j])
    requires forall i :: 0 <= i < p ==> Before(s[i], a)
    requires forall i :: p <= i < |s| ==> Before(a, s[i])
    ensures var r := s[..p] + [a] + s[p..]; forall i, j :: 0 <= i < j < |r| ==> Before(r[i], r[j])
    ensures multiset(s[..p] + [a] + s[p..]) == multiset(s) + multiset{a}
  {
    hide Before;
    assert s == s[..p] + s[p..];
  }

  lemma SliceOfKey(a: Added)
    requires a.Fits()
    ensures Slice(LengthPrefixed(a.Key())) == Slice(Buffer(a)) == a.Key()
  {
    hide GetLengthPrefixed, LengthPrefixed;
    BufferBack(a, []);
    assert Buffer(a) + [] == Buffer(a);
    LengthPrefixedBack(a.Key(), []);
    assert LengthPrefixed(a.Key()) + [] == LengthPrefixed(a.Key());
  }

  lemma InParts(a: seq<Byte>, b: seq<Byte>, c: seq<Byte>, d: seq<Byte>, e: seq<Byte>)
    ensures a + b + c + d + e == a + (b + c) + (d + e)
    ensures a + b + c + (d + e) == a + (b + c) + (d + e)
  {}

  lemma BeforeIsTotal(a: Added, b: Added)
    requires a.Fits() && b.Fits() && (a.user == b.user ==> a.sequence != b.sequence)
    ensures Before(a, b) || Before(b, a)
  {
    LessIsTotal(a.user, b.user);
  }

  lemma BeforeIsTransitive(a: Added, b: Added, c: Added)
    requires Before(a, b) && Before(b, c)
    ensures Before(a, c)
  {
    hide Less;
    if Less(a.user, b.user) && Less(b.user, c.user) {
      LessIsTransitive(a.user, b.user, c.user);
    }
  }

  /** The first entry not before the lookup key is the newest visible one of its user key, when there is one. */
  lemma LookupAnswers(entries: seq<Added>, user: seq<Byte>, sequence: nat, p: nat)
    requires p <= |entries|
    requires forall i :: 0 <= i < |entries| ==> entries[i].Fits()
    requires forall i, j :: 0 <= i < j < |entries| ==> Before(entries[i], entries[j])
    requires forall i :: 0 <= i < |entries| ==> (i < p <==> Before(entries[i], Added(sequence, VALUE, user, [])))
    ensures p < |entries| && entries[p].user == user ==> Newest(entries, user, sequence, entries[p])
    ensures p == |entries| || entries[p].user != user ==> forall a :: a in entries && a.user == user ==> sequence < a.sequence
  {
    hide Less;
    forall i | 0 <= i < |entries| && entries[i].user == user
      ensures i < p <==> sequence < entries[i].sequence
      ensures p < i ==> p < |entries| && entries[p].user == user && entries[p].Packed() > entries[i].Packed()
    {
      LessIsTotal(user, user);
      if p < i {
        LessIsTotal(entries[p].user, user);
      }
    }
  }
}
