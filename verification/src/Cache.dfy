/** util/cache.cc: the hash table of handles. */
module HandleTables {
  import opened Bytes

  class Handle {
    const key: seq<Byte>
    const hash: nat
    const charge: nat
    var next: Handle?
    var prev: Handle?
    var nextHash: Handle?
    var refs: nat
    var inCache: bool

    constructor (key: seq<Byte>, hash: nat, charge: nat, refs: nat)
      ensures this.key == key && this.hash == hash && this.charge == charge
      ensures this.refs == refs && !inCache && next == null && prev == null && nextHash == null
    {
      this.key, this.hash, this.charge, this.refs := key, hash, charge, refs;
      inCache, next, prev, nextHash := false, null, null, null;
    }
  }

  type Id = (nat, seq<Byte>)

  function IdOf(h: Handle): Id { (h.hash, h.key) }

  ghost predicate NoDup(s: seq<Handle>) {
    forall i, j :: 0 <= i < j < |s| ==> s[i] != s[j]
  }

  /** The handles from start along nextHash, up to end. */
  ghost predicate Segment(start: Handle?, s: seq<Handle>, end: Handle?)
    reads s`nextHash
  {
    && start == First(s, end)
    && forall i {:trigger s[i].nextHash} :: 0 <= i < |s| ==> s[i].nextHash == if i + 1 < |s| then s[i + 1] else end
  }

  ghost predicate Chain(start: Handle?, s: seq<Handle>)
    reads s`nextHash
  {
    Segment(start, s, null)
  }

  ghost function First(s: seq<Handle>, end: Handle?): Handle? { if s == [] then end else s[0] }

  lemma Split(start: Handle?, s: seq<Handle>, k: nat)
    requires Chain(start, s) && k <= |s|
    ensures Segment(start, s[..k], First(s[k..], null)) && Chain(First(s[k..], null), s[k..])
  {
    forall i | 0 <= i < |s[k..]| ensures s[k..][i].nextHash == if i + 1 < |s[k..]| then s[k..][i + 1] else null {
      assert s[k..][i] == s[k + i];
    }
  }

  lemma Join(start: Handle?, a: seq<Handle>, mid: Handle?, b: seq<Handle>)
    requires Segment(start, a, mid) && Chain(mid, b)
    ensures Chain(start, a + b)
  {
    var s := a + b;
    forall i | 0 <= i < |s| ensures s[i].nextHash == if i + 1 < |s| then s[i + 1] else null {
      if i < |a| {
        assert s[i] == a[i];
      } else {
        assert s[i] == b[i - |a|];
      }
    }
  }

  lemma SplitAt(start: Handle?, s: seq<Handle>, k: nat)
    requires Chain(start, s) && k < |s|
    ensures s[k].nextHash == First(s[k + 1..], null)
  {}

  lemma NoChain()
    ensures Chain(null, [])
  {}

  lemma Cons(h: Handle, rest: seq<Handle>)
    requires Chain(h.nextHash, rest)
    ensures Chain(h, [h] + rest)
  {
    Join(h, [h], h.nextHash, rest);
  }

  function Bucket(h: Handle, n: nat): nat
    requires n > 0
  {
    h.hash % n
  }

  /** Every handle is in the bucket its hash selects, once, and no two have the same hash and key. */
  ghost predicate Spread(chains: seq<seq<Handle>>, entries: set<Handle>)
    requires |chains| > 0
  {
    && (forall b, h :: 0 <= b < |chains| && h in chains[b] ==> h in entries && Bucket(h, |chains|) == b)
    && (forall h :: h in entries ==> h in chains[Bucket(h, |chains|)])
    && (forall b :: 0 <= b < |chains| ==> NoDup(chains[b]))
  }

  ghost predicate Distinct(entries: set<Handle>) {
    forall g, h :: g in entries && h in entries && IdOf(g) == IdOf(h) ==> g == h
  }

  /** A place that holds a pointer to a handle: a bucket, or the nextHash of a handle. */
  datatype Slot = Head(index: nat) | After(handle: Handle)

  ghost function SlotAt(b: nat, c: seq<Handle>, k: nat): Slot
    requires k <= |c|
  {
    if k == 0 then Head(b) else After(c[k - 1])
  }

  ghost function Less(entries: set<Handle>, h: Handle?): set<Handle> {
    if h == null then entries else entries - {h}
  }

  /** What a search of these handles for a hash and key returns. */
  ghost predicate Finds(entries: set<Handle>, id: Id, h: Handle?) {
    if h == null then forall e :: e in entries ==> IdOf(e) != id else h in entries && IdOf(h) == id
  }

  lemma IsFound(entries: set<Handle>, h: Handle, r: Handle?)
    requires Distinct(entries) && h in entries && Finds(entries, IdOf(h), r)
    ensures r == h
  {}

  /** A power of two, so that masking a hash is a remainder. */
  predicate TableSize(n: nat) { n == 4 || (n > 4 && n % 2 == 0 && TableSize(n / 2)) }

  class HandleTable {
    var elems: nat
    var list: array<Handle?>
    ghost var chains: seq<seq<Handle>>
    ghost var entries: set<Handle>

    constructor ()
      ensures Valid() && entries == {} && fresh(list)
    {
      elems, list := 0, new Handle?[4](_ => null);
      chains, entries := [[], [], [], []], {};
      new;
      NoChain();
      SpreadNothing(chains);
    }

    ghost predicate Valid()
      reads this, list, entries`nextHash
    {
      Linked() && Distinct(entries) && elems == |entries| && elems <= list.Length && TableSize(list.Length)
    }

    ghost predicate Linked()
      reads this, list, entries`nextHash
    {
      && |chains| == list.Length > 0 && Spread(chains, entries)
      && forall b :: 0 <= b < |chains| ==> Chain(list[b], chains[b])
    }
    
    method FindPointer(key: seq<Byte>, hash: nat) returns (slot: Slot, ghost k: nat)
      requires Valid()
      ensures k <= |chains[hash % list.Length]| && slot == SlotAt(hash % list.Length, chains[hash % list.Length], k)
      ensures forall i :: 0 <= i < k ==> IdOf(chains[hash % list.Length][i]) != (hash, key)
      ensures k < |chains[hash % list.Length]| ==> IdOf(chains[hash % list.Length][k]) == (hash, key)
    {
      var b := hash % list.Length;
      ghost var c := chains[b];
      slot, k := Head(b), 0;
      var at := list[b];
      assert Chain(list[b], c);
      while at != null && (at.hash != hash || key != at.key)
        invariant k <= |c| && slot == SlotAt(b, c, k)
        invariant at == if k < |c| then c[k] else null
        invariant forall i :: 0 <= i < k ==> IdOf(c[i]) != (hash, key)
        decreases |c| - k
      {
        assert at == c[k] && c[k].nextHash == if k + 1 < |c| then c[k + 1] else null;
        slot, at, k := After(at), at.nextHash, k + 1;
      }
    }

    method Load(slot: Slot) returns (h: Handle?)
      requires slot.Head? ==> slot.index < list.Length
      ensures h == match slot case Head(b) => list[b] case After(g) => g.nextHash
    {
      match slot
      case Head(b) => h := list[b];
      case After(g) => h := g.nextHash;
    }

    /** Write through a slot: the bucket keeps its first k handles and goes on with another chain. */
    method Store(slot: Slot, h: Handle?, ghost b: nat, ghost k: nat, ghost back: seq<Handle>)
      requires Linked() && b < |chains| && k <= |chains[b]| && slot == SlotAt(b, chains[b], k)
      requires Chain(h, back) && forall i :: 0 <= i < k ==> chains[b][i] !in back
      modifies list, (if slot.After? then {slot.handle} else {})`nextHash
      ensures Chain(list[b], chains[b][..k] + back)
      ensures forall i :: 0 <= i < |chains| && i != b ==> Chain(list[i], chains[i])
    {
      ghost var c := chains[b];
      assert Chain(list[b], c);
      InBucket(chains, entries, b, k);
      hide Spread;
      assert forall i {:trigger c[i].nextHash} :: 0 <= i && i + 1 < k ==> c[i].nextHash == c[i + 1];
      match slot
      case Head(i) => list[i] := h;
      case After(g) => g.nextHash := h;
      assert Segment(list[b], c[..k], h);
      assert Chain(h, back);
      Join(list[b], c[..k], h, back);
      forall i | 0 <= i < |chains| && i != b
        ensures Chain(list[i], chains[i])
      {
        assert old(Chain(list[i], chains[i]));
        NotInOther(chains, entries, b, k, i);
      }
    }

    /** What FindPointer stops at is the entry with that hash and key, or nothing when there is none. */
    lemma Found(id: Id, k: nat)
      requires Valid()
      requires k <= |chains[id.0 % list.Length]|
      requires forall i :: 0 <= i < k ==> IdOf(chains[id.0 % list.Length][i]) != id
      requires k < |chains[id.0 % list.Length]| ==> IdOf(chains[id.0 % list.Length][k]) == id
      ensures Finds(entries, id, if k < |chains[id.0 % list.Length]| then chains[id.0 % list.Length][k] else null)
    {
      var c := chains[id.0 % list.Length];
      if k < |c| {
        assert c[k] in c;
      } else {
        forall e | e in entries ensures IdOf(e) != id {
          assert e in chains[Bucket(e, |chains|)];
        }
      }
    }

    lemma SlotHolds(b: nat, k: nat)
      requires Valid() && b < |chains| && k <= |chains[b]|
      ensures SlotAt(b, chains[b], k).After? ==> SlotAt(b, chains[b], k).handle in entries
      ensures (match SlotAt(b, chains[b], k) case Head(i) => list[i] case After(g) => g.nextHash)
           == if k < |chains[b]| then chains[b][k] else null
    {
      assert Chain(list[b], chains[b]);
      if k > 0 {
        assert chains[b][k - 1] in chains[b];
      }
    }

    method Lookup(key: seq<Byte>, hash: nat) returns (h: Handle?)
      requires Valid()
      ensures Finds(entries, (hash, key), h)
    {
      var slot;
      ghost var k;
      slot, k := FindPointer(key, hash);
      SlotHolds(hash % list.Length, k);
      Found((hash, key), k);
      h := Load(slot);
    }

    method Insert(h: Handle) returns (was: Handle?)
      requires Valid() && h !in entries
      modifies this, list, entries`nextHash, h`nextHash
      ensures Valid() && (list == old(list) || fresh(list))
      ensures Finds(old(entries), IdOf(h), was)
      ensures entries == Less(old(entries), was) + {h}
    {
      hide Spread, Distinct, Chain, Segment;
      var slot;
      ghost var k;
      slot, k := FindPointer(h.key, h.hash);
      Found(IdOf(h), k);
      SlotHolds(h.hash % list.Length, k);
      was := Load(slot);
      Place(slot, h, was, k);
      if was == null {
        elems := elems + 1;
        if elems > list.Length {
          Resize();
        }
      }
    }

    /** Put a handle where FindPointer stopped, in the place of the one there if there is one. */
    method Place(slot: Slot, h: Handle, was: Handle?, ghost k: nat)
      requires Linked() && Distinct(entries) && h !in entries && Finds(entries, IdOf(h), was)
      requires k <= |chains[h.hash % list.Length]| && slot == SlotAt(h.hash % list.Length, chains[h.hash % list.Length], k)
      requires was == if k < |chains[h.hash % list.Length]| then chains[h.hash % list.Length][k] else null
      modifies this, list, (if slot.After? then {slot.handle} else {})`nextHash, h`nextHash
      ensures Linked() && Distinct(entries) && list == old(list) && elems == old(elems)
      ensures entries == Less(old(entries), was) + {h}
    {
      hide Spread, Distinct, Chain, Segment, Finds;
      ghost var b, c := h.hash % list.Length, chains[h.hash % list.Length];
      ghost var back := if was == null then [] else c[k + 1..];
      if was != null {
        Split(list[b], c, k + 1);
        SplitAt(list[b], c, k);
      }
      NotThere(chains, entries, b, k, h, back);
      NoChain();
      h.nextHash := if was == null then null else was.nextHash;
      Cons(h, back);
      Store(slot, h, b, k, [h] + back);
      SpreadPlaced(chains, entries, b, k, h, back);
      chains := chains[b := c[..k] + ([h] + back)];
      entries := Less(entries, was) + {h};
    }

    method Remove(key: seq<Byte>, hash: nat) returns (result: Handle?)
      requires Valid()
      modifies this, list, entries`nextHash
      ensures Valid() && list == old(list)
      ensures Finds(old(entries), (hash, key), result)
      ensures entries == Less(old(entries), result)
    {
      hide Spread, Distinct, Chain, Segment, Finds, NoDup;
      var slot;
      ghost var k;
      slot, k := FindPointer(key, hash);
      ghost var b, c := hash % list.Length, chains[hash % list.Length];
      SlotHolds(b, k);
      Found((hash, key), k);
      result := Load(slot);
      if result != null {
        SpreadRemoved(chains, entries, b, k);
        InBucket(chains, entries, b, k);
        Split(list[b], c, k + 1);
        SplitAt(list[b], c, k);
        NotLater(c, k);
        Store(slot, result.nextHash, b, k, c[k + 1..]);
        elems := elems - 1;
        chains := chains[b := c[..k] + c[k + 1..]];
        entries := entries - {result};
      }
    }

    /** Move the handles of one bucket to a new table. */
    method MoveBucket(newList: array<Handle?>, i: nat, ghost heads: seq<seq<Handle>>, ghost moved: set<Handle>)
      returns (count: nat, ghost more: seq<seq<Handle>>, ghost now: set<Handle>)
      requires |chains| == list.Length && i < list.Length && newList != list && moved <= entries
      requires Spread(chains, entries) && Heads(newList, heads, moved)
      requires forall j :: i <= j < |chains| ==> Chain(list[j], chains[j])
      requires forall e :: e in entries ==> (e in moved <==> Bucket(e, |chains|) < i)
      modifies newList, entries`nextHash
      ensures forall j :: i < j < |chains| ==> Chain(list[j], chains[j])
      ensures now <= entries && Heads(newList, more, now) && |now| == |moved| + count
      ensures forall e :: e in entries ==> (e in now <==> Bucket(e, |chains|) <= i)
    {
      hide Spread, Chain, Segment, NoDup;
      var h := list[i];
      count, more, now := 0, heads, moved;
      ghost var p := 0;
      assert chains[i][0..] == chains[i];
      while h != null
        invariant p <= |chains[i]| && Chain(h, chains[i][p..])
        invariant forall j :: i < j < |chains| ==> Chain(list[j], chains[j])
        invariant now <= entries && Heads(newList, more, now) && |now| == |moved| + count
        invariant forall e :: e in entries ==> (e in now <==> Bucket(e, |chains|) < i || e in chains[i][..p])
        decreases |chains[i]| - p
      {
        Ahead(chains, entries, i, p, h);
        var next := h.nextHash;
        more := Push(newList, h, more, now);
        now := now + {h};
        h := next;
        p := p + 1;
        count := count + 1;
      }
      AtEnd(chains, entries, i, p);
    }

    method Resize()
      requires Linked() && Distinct(entries) && elems == |entries|
      modifies this, entries`nextHash
      ensures Valid() && fresh(list) && entries == old(entries)
      ensures list.Length == 4 || list.Length < 2 * elems
    {
      hide Spread, Distinct, Chain, Segment;
      var newLength := 4;
      while newLength < elems
        invariant TableSize(newLength) && (newLength == 4 || newLength < 2 * elems)
      {
        newLength := newLength * 2;
      }
      var newList := new Handle?[newLength](_ => null);
      ghost var heads: seq<seq<Handle>> := seq(newLength, _ => []);
      ghost var moved: set<Handle> := {};
      NoChain();
      SpreadNothing(heads);
      var count, i := 0, 0;
      while i < list.Length
        invariant 0 <= i <= list.Length && list == old(list) && chains == old(chains) && entries == old(entries) && elems == old(elems)
        invariant |chains| == list.Length
        invariant forall j :: i <= j < |chains| ==> Chain(list[j], chains[j])
        invariant Heads(newList, heads, moved)
        invariant newList.Length == newLength && fresh(newList)
        invariant moved <= entries && forall e :: e in entries ==> (e in moved <==> Bucket(e, |chains|) < i)
        invariant count == |moved|
        modifies newList, entries`nextHash
      {
        var n;
        n, heads, moved := MoveBucket(newList, i, heads, moved);
        count := count + n;
        i := i + 1;
      }
      assert moved == entries;
      assert count == elems;
      list, chains := newList, heads;
    }
  }

  /** The buckets of a table that holds just these handles. */
  ghost predicate Heads(list: array<Handle?>, chains: seq<seq<Handle>>, moved: set<Handle>)
    reads list, moved`nextHash
  {
    && |chains| == list.Length > 0 && Spread(chains, moved)
    && forall b :: 0 <= b < |chains| ==> Chain(list[b], chains[b])
  }

  /** Move one handle to the front of its bucket in a new table. */
  method Push(list: array<Handle?>, h: Handle, ghost chains: seq<seq<Handle>>, ghost moved: set<Handle>)
    returns (ghost more: seq<seq<Handle>>)
    requires Heads(list, chains, moved) && h !in moved
    modifies list, h`nextHash
    ensures Heads(list, more, moved + {h})
  {
    hide Segment, Chain, Spread;
    var b := h.hash % list.Length;
    SpreadPushed(chains, moved, b, h);
    h.nextHash := list[b];
    Cons(h, chains[b]);
    list[b] := h;
    more := chains[b := [h] + chains[b]];
    assert Chain(h, [h] + chains[b]);
    forall i | 0 <= i < |more| ensures Chain(list[i], more[i]) {
      assert i != b ==> Chain(list[i], chains[i]);
    }
  }

  lemma SpreadNothing(chains: seq<seq<Handle>>)
    requires |chains| > 0 && forall b :: 0 <= b < |chains| ==> chains[b] == []
    ensures Spread(chains, {})
  {}

  lemma SpreadPushed(chains: seq<seq<Handle>>, entries: set<Handle>, b: nat, h: Handle)
    requires |chains| > 0 && Spread(chains, entries) && h !in entries && b < |chains| && Bucket(h, |chains|) == b
    ensures Spread(chains[b := [h] + chains[b]], entries + {h})
    ensures forall i :: 0 <= i < |chains| ==> h !in chains[i]
  {
    var c := [h] + chains[b];
    assert c[0] == h;
    forall e | e in chains[b] ensures e in c {
      var i :| 0 <= i < |chains[b]| && chains[b][i] == e;
      assert c[i + 1] == e;
    }
    assert forall i :: 0 < i < |c| ==> c[i] in chains[b];
  }

  /** The next handle to move, in the middle of a chain. */
  lemma Ahead(chains: seq<seq<Handle>>, entries: set<Handle>, i: nat, p: nat, h: Handle)
    requires |chains| > 0 && Spread(chains, entries) && i < |chains| && p <= |chains[i]|
    requires Chain(h, chains[i][p..])
    ensures p < |chains[i]| && h == chains[i][p] && h in entries && Bucket(h, |chains|) == i
    ensures h !in chains[i][..p] && h !in chains[i][p + 1..]
    ensures chains[i][..p + 1] == chains[i][..p] + [h]
    ensures Chain(h.nextHash, chains[i][p + 1..])
    ensures forall j :: i < j < |chains| ==> h !in chains[j]
  {
    var c := chains[i];
    assert NoDup(c);
    assert c[p] in c;
    Split(h, c[p..], 1);
    assert c[p..][1..] == c[p + 1..];
    SplitAt(h, c[p..], 0);
  }

  lemma AtEnd(chains: seq<seq<Handle>>, entries: set<Handle>, i: nat, p: nat)
    requires |chains| > 0 && Spread(chains, entries) && i < |chains| && p <= |chains[i]|
    requires Chain(null, chains[i][p..])
    ensures forall e :: e in entries ==> (e in chains[i][..p] <==> Bucket(e, |chains|) == i)
  {
    assert chains[i][p..] == [];
    assert chains[i][..p] == chains[i];
  }

  lemma SpreadRemoved(chains: seq<seq<Handle>>, entries: set<Handle>, b: nat, k: nat)
    requires |chains| > 0 && Spread(chains, entries) && Distinct(entries) && b < |chains| && k < |chains[b]|
    ensures Spread(chains[b := chains[b][..k] + chains[b][k + 1..]], entries - {chains[b][k]})
    ensures Distinct(entries - {chains[b][k]})
  {
    var c, h := chains[b], chains[b][k];
    var rest := c[..k] + c[k + 1..];
    var fewer := chains[b := rest];
    assert h in c;
    Removed(c, k);
    assert forall i :: 0 <= i < |fewer| ==> NoDup(fewer[i]);
    forall i, e | 0 <= i < |fewer| && e in fewer[i] ensures e in entries - {h} && Bucket(e, |fewer|) == i {
      assert e in chains[i];
    }
  }

  lemma Removed(c: seq<Handle>, k: nat)
    requires NoDup(c) && k < |c|
    ensures NoDup(c[..k] + c[k + 1..])
    ensures forall e :: e in c[..k] + c[k + 1..] <==> e in c && e != c[k]
  {
    var rest := c[..k] + c[k + 1..];
    forall e | e in c && e != c[k] ensures e in rest {
      var i: nat :| i < |c| && c[i] == e;
      assert e == if i < k then rest[i] else rest[i - 1];
    }
    assert forall i :: 0 <= i < |rest| ==> rest[i] == (if i < k then c[i] else c[i + 1]);
  }

  lemma SpreadAppended(chains: seq<seq<Handle>>, entries: set<Handle>, b: nat, h: Handle)
    requires |chains| > 0 && Spread(chains, entries) && Distinct(entries) && b < |chains| && Bucket(h, |chains|) == b
    requires h !in entries && Finds(entries, IdOf(h), null)
    ensures Spread(chains[b := chains[b] + [h]], entries + {h})
    ensures Distinct(entries + {h})
  {
    var c := chains[b] + [h];
    assert c[|c| - 1] == h;
    assert forall i :: 0 <= i < |chains[b]| ==> c[i] in chains[b];
    forall e | e in chains[b] ensures e in c {
      var i :| 0 <= i < |chains[b]| && chains[b][i] == e;
      assert c[i] == e;
    }
  }

  lemma SpreadReplaced(chains: seq<seq<Handle>>, entries: set<Handle>, b: nat, k: nat, h: Handle)
    requires |chains| > 0 && Spread(chains, entries) && Distinct(entries) && b < |chains| && k < |chains[b]| && Bucket(h, |chains|) == b
    requires h !in entries && Finds(entries, IdOf(h), chains[b][k])
    ensures Spread(chains[b := chains[b][k := h]], entries - {chains[b][k]} + {h})
    ensures Distinct(entries - {chains[b][k]} + {h})
  {
    var c := chains[b][k := h];
    assert c[k] == h;
    assert forall i :: 0 <= i < |c| && i != k ==> c[i] in chains[b];
    forall e | e in chains[b] && e != chains[b][k] ensures e in c {
      var i :| 0 <= i < |chains[b]| && chains[b][i] == e;
      assert c[i] == e;
    }
  }

  lemma SpreadPlaced(chains: seq<seq<Handle>>, entries: set<Handle>, b: nat, k: nat, h: Handle, back: seq<Handle>)
    requires |chains| > 0 && Spread(chains, entries) && Distinct(entries) && b < |chains| && Bucket(h, |chains|) == b
    requires k <= |chains[b]| && back == if k == |chains[b]| then [] else chains[b][k + 1..]
    requires h !in entries && Finds(entries, IdOf(h), if k < |chains[b]| then chains[b][k] else null)
    ensures Spread(chains[b := chains[b][..k] + ([h] + back)], Less(entries, if k < |chains[b]| then chains[b][k] else null) + {h})
    ensures Distinct(Less(entries, if k < |chains[b]| then chains[b][k] else null) + {h})
  {
    hide Spread, Distinct, Finds;
    if k == |chains[b]| {
      assert chains[b][..k] + ([h] + back) == chains[b] + [h];
      SpreadAppended(chains, entries, b, h);
    } else {
      assert chains[b][..k] + ([h] + back) == chains[b][k := h];
      SpreadReplaced(chains, entries, b, k, h);
    }
  }

  lemma InBucket(chains: seq<seq<Handle>>, entries: set<Handle>, b: nat, k: nat)
    requires |chains| > 0 && Spread(chains, entries) && b < |chains| && k <= |chains[b]|
    ensures k < |chains[b]| ==> Bucket(chains[b][k], |chains|) == b
    ensures k > 0 ==> Bucket(chains[b][k - 1], |chains|) == b
    ensures NoDup(chains[b])
  {
    assert k < |chains[b]| ==> chains[b][k] in chains[b];
    assert k > 0 ==> chains[b][k - 1] in chains[b];
  }

  lemma NotInOther(chains: seq<seq<Handle>>, entries: set<Handle>, b: nat, k: nat, i: nat)
    requires |chains| > 0 && Spread(chains, entries) && b < |chains| && k <= |chains[b]| && i < |chains| && i != b
    ensures k > 0 ==> chains[b][k - 1] !in chains[i]
  {
    InBucket(chains, entries, b, k);
  }

  lemma NotLater(c: seq<Handle>, k: nat)
    requires NoDup(c) && k < |c|
    ensures forall i :: 0 <= i < k ==> c[i] !in c[k + 1..]
  {
    var back := c[k + 1..];
    assert forall j :: 0 <= j < |back| ==> back[j] == c[k + 1 + j];
  }

  lemma NotThere(chains: seq<seq<Handle>>, entries: set<Handle>, b: nat, k: nat, h: Handle, back: seq<Handle>)
    requires |chains| > 0 && Spread(chains, entries) && b < |chains| && k <= |chains[b]| && h !in entries
    requires back == [] || (k < |chains[b]| && back == chains[b][k + 1..])
    ensures forall i :: 0 <= i < k ==> chains[b][i] !in [h] + back
    ensures forall i, j :: 0 <= i < |chains| && 0 <= j < |chains[i]| ==> chains[i][j] != h
    ensures h !in back
  {
    forall i, j | 0 <= i < |chains| && 0 <= j < |chains[i]| ensures chains[i][j] != h {
      assert chains[i][j] in chains[i];
    }
    var c := chains[b];
    assert back != [] ==> forall j :: 0 <= j < |back| ==> back[j] == c[k + 1 + j];
    assert NoDup(c);
  }
}

/** util/cache.cc: a shard of the cache, two rings of handles over the table. */
module LruCaches {
  import opened Bytes
  import opened HandleTables

  // ---------------------------------------------------------------- the rings

  /** head and the handles of s, in a circle both ways. */
  ghost predicate Ring(head: Handle, s: seq<Handle>)
    reads head`next, head`prev, s`next, s`prev
  {
    && NoDup(s) && head !in s
    && head.next == First(s, head) && head.prev == Last(s, head)
    && (forall i {:trigger s[i].next} :: 0 <= i < |s| ==> s[i].next == if i + 1 < |s| then s[i + 1] else head)
    && (forall i {:trigger s[i].prev} :: 0 <= i < |s| ==> s[i].prev == if i > 0 then s[i - 1] else head)
  }

  ghost function Last(s: seq<Handle>, end: Handle?): Handle? { if s == [] then end else s[|s| - 1] }

  function Without(s: seq<Handle>, e: Handle): (r: seq<Handle>) {
    if s == [] then [] else if s[0] == e then s[1..] else [s[0]] + Without(s[1..], e)
  }

  lemma {:induction false} WithoutAt(s: seq<Handle>, i: nat)
    requires NoDup(s) && i < |s|
    ensures Without(s, s[i]) == s[..i] + s[i + 1..]
  {
    if i > 0 {
      assert s[0] != s[i];
      WithoutAt(s[1..], i - 1);
      assert s[1..][..i - 1] == s[1..i] && s[1..][i..] == s[i + 1..];
      assert [s[0]] + (s[1..i] + s[i + 1..]) == s[..i] + s[i + 1..];
    }
  }

  ghost function At(head: Handle, s: seq<Handle>, i: int): Handle { if 0 <= i < |s| then s[i] else head }

  /** The ring around s[i], once its neighbours point past it. */
  lemma Bypassed(head: Handle, s: seq<Handle>, i: nat)
    requires NoDup(s) && head !in s && i < |s|
    requires head.next == if i == 0 then At(head, s, 1) else s[0]
    requires head.prev == if i == |s| - 1 then At(head, s, i - 1) else s[|s| - 1]
    requires forall j {:trigger s[j].next} :: 0 <= j < |s| && j != i ==> s[j].next == At(head, s, if j + 1 == i then i + 1 else j + 1)
    requires forall j {:trigger s[j].prev} :: 0 <= j < |s| && j != i ==> s[j].prev == At(head, s, if j - 1 == i then i - 1 else j - 1)
    ensures Ring(head, s[..i] + s[i + 1..])
  {
    var rest := s[..i] + s[i + 1..];
    Removed(s, i);
    forall j | 0 <= j < |rest|
      ensures rest[j].next == if j + 1 < |rest| then rest[j + 1] else head
      ensures rest[j].prev == if j > 0 then rest[j - 1] else head
    {
      var k := if j < i then j else j + 1;
      assert rest[j] == s[k];
      assert s[k].next == At(head, s, if k + 1 == i then i + 1 else k + 1);
      assert s[k].prev == At(head, s, if k - 1 == i then i - 1 else k - 1);
    }
  }

  lemma RingLinks(head: Handle, s: seq<Handle>)
    requires Ring(head, s)
    ensures NoDup(s) && head !in s && head.next == At(head, s, 0) && head.prev == At(head, s, |s| - 1)
    ensures forall j {:trigger s[j].next} :: 0 <= j < |s| ==> s[j].next == At(head, s, j + 1)
    ensures forall j {:trigger s[j].prev} :: 0 <= j < |s| ==> s[j].prev == At(head, s, j - 1)
  {}

  method RingRemove(e: Handle, ghost head: Handle, ghost s: seq<Handle>)
    requires Ring(head, s) && e in s
    modifies head`next, head`prev, s`next, s`prev
    ensures Ring(head, Without(s, e))
  {
    hide Ring, Without;
    ghost var i: nat :| i < |s| && s[i] == e;
    RingLinks(head, s);
    WithoutAt(s, i);
    assert e.next == At(head, s, i + 1) && e.prev == At(head, s, i - 1);
    e.next.prev := e.prev;
    e.prev.next := e.next;
    Bypassed(head, s, i);
  }

  method RingAppend(list: Handle, e: Handle, ghost s: seq<Handle>)
    requires Ring(list, s) && e !in s && e != list
    modifies list`next, list`prev, s`next, e`next, e`prev
    ensures Ring(list, s + [e])
  {
    e.next := list;
    e.prev := list.prev;
    e.prev.next := e;
    e.next.prev := e;
  }

  // ------------------------------------------------------- what the cache holds

  function Charge(s: seq<Handle>): nat {
    if s == [] then 0 else s[0].charge + Charge(s[1..])
  }

  lemma {:induction false} ChargeAppend(s: seq<Handle>, e: Handle)
    ensures Charge(s + [e]) == Charge(s) + e.charge
  {
    if s != [] {
      ChargeAppend(s[1..], e);
      assert (s + [e])[1..] == s[1..] + [e];
    }
  }

  lemma {:induction false} ChargeWithout(s: seq<Handle>, e: Handle)
    requires e in s
    ensures Charge(Without(s, e)) == Charge(s) - e.charge
  {
    if s[0] != e {
      ChargeWithout(s[1..], e);
    }
  }

  lemma {:induction false} WithoutHas(s: seq<Handle>, e: Handle)
    requires NoDup(s)
    ensures NoDup(Without(s, e))
    ensures forall h :: h in Without(s, e) <==> h in s && h != e
  {
    if e in s {
      var i: nat :| i < |s| && s[i] == e;
      WithoutAt(s, i);
      Removed(s, i);
    } else {
      WithoutAbsent(s, e);
    }
  }

  lemma WithoutItems(s: seq<Handle>, e: Handle)
    requires NoDup(s)
    ensures forall i :: 0 <= i < |Without(s, e)| ==> Without(s, e)[i] in s && Without(s, e)[i] != e
  {
    if e in s {
      var k: nat :| k < |s| && s[k] == e;
      WithoutAt(s, k);
    } else {
      WithoutAbsent(s, e);
    }
  }

  lemma AppendHas(s: seq<Handle>, e: Handle)
    requires NoDup(s) && e !in s
    ensures NoDup(s + [e])
    ensures forall h :: h in s + [e] <==> h in s || h == e
  {
    assert (s + [e])[|s|] == e;
  }

  lemma {:induction false} WithoutAbsent(s: seq<Handle>, e: Handle)
    requires e !in s
    ensures Without(s, e) == s
  {
    if s != [] {
      WithoutAbsent(s[1..], e);
    }
  }

  /**
   * The two lists, oldest first; for every handle that exists, how many references clients hold; and the
   * handles whose deleters have run, in that order.
   */
  datatype Held = Held(lru: seq<Handle>, used: seq<Handle>, clients: map<Handle, nat>, deleted: seq<Handle>) {
    ghost predicate Cached(h: Handle) { h in lru || h in used }

    ghost function Entries(): set<Handle> { (set h | h in lru) + (set h | h in used) }

    function Usage(): nat { Charge(lru) + Charge(used) }

    ghost predicate Tidy() {
      && NoDup(lru) && NoDup(used) && NoDup(deleted)
      && (forall h :: h in lru ==> h !in used && h in clients)
      && (forall h :: h in used ==> h in clients)
      && (forall h :: h in deleted ==> h !in clients)
    }

    /**
     * A cached handle is on the LRU list when no client holds it and on the in-use list when one does; a handle
     * off both exists only while some client holds it; and no deleted handle exists.
     */
    ghost predicate Good() {
      && Tidy()
      && (forall h :: h in lru ==> clients[h] == 0)
      && (forall h :: h in used ==> clients[h] > 0)
      && (forall h :: h in clients && !Cached(h) ==> clients[h] > 0)
    }

    /** Good, but for a handle that has just lost a reference. */
    ghost predicate GoodBut(e: Handle) {
      && Tidy() && e in clients && e !in lru
      && (forall h :: h in lru ==> clients[h] == 0)
      && (forall h :: h in used && h != e ==> clients[h] > 0)
      && (forall h :: h in clients && h != e && !Cached(h) ==> clients[h] > 0)
    }

    /** What becomes of a handle when a reference to it goes. */
    function Settle(e: Handle): Held
      requires e in clients
    {
      if clients[e] > 0 then this
      else if e in used then Held(lru + [e], Without(used, e), clients, deleted)
      else Held(lru, used, clients - {e}, deleted + [e])
    }

    function Ref(e: Handle): Held
      requires e in clients
    {
      if e in lru then Held(Without(lru, e), used + [e], clients[e := clients[e] + 1], deleted)
      else this.(clients := clients[e := clients[e] + 1])
    }

    /** A client gives up a reference. */
    function Release(e: Handle): Held
      requires e in clients && clients[e] > 0
    {
      this.(clients := clients[e := clients[e] - 1]).Settle(e)
    }

    /** The cache gives up its reference. */
    function FinishErase(e: Handle): Held
      requires e in clients
    {
      Held(Without(lru, e), Without(used, e), clients, deleted).Settle(e)
    }

    /** A new entry, held by the client that inserted it. */
    function Added(e: Handle): Held { Held(lru, used + [e], clients[e := 1], deleted) }

    /** The new entry in, and the one it replaces out; with no capacity it is the client's alone. */
    function With(e: Handle, was: Handle?, capacity: nat): Held
      requires was != null ==> was in clients
    {
      if capacity == 0 then Held(lru, used, clients[e := 1], deleted)
      else if was == null then Added(e)
      else Added(e).FinishErase(was)
    }

    /** Drop the oldest idle entries until the charges fit. */
    ghost function Evict(capacity: nat): Held
      requires Good()
      decreases |lru|
    {
      if Usage() > capacity && lru != [] then
        EraseGood(lru[0]);
        EraseOldest();
        FinishErase(lru[0]).Evict(capacity)
      else this
    }

    lemma EraseOldest()
      requires Good() && lru != []
      ensures FinishErase(lru[0]) == Held(lru[1..], used, clients - {lru[0]}, deleted + [lru[0]])
    {
      WithoutAbsent(used, lru[0]);
    }

    lemma SettleGood(e: Handle)
      requires GoodBut(e)
      ensures Settle(e).Good()
      ensures Settle(e).Usage() == Usage()
      ensures forall h :: Settle(e).Cached(h) <==> Cached(h)
    {
      hide NoDup, Without, Charge;
      if clients[e] == 0 {
        if e in used {
          WithoutHas(used, e);
          ChargeWithout(used, e);
          ChargeAppend(lru, e);
          AppendHas(lru, e);
          assert Settle(e).Tidy();
          assert forall h :: h in Settle(e).used ==> clients[h] > 0;
        } else {
          AppendHas(deleted, e);
        }
      }
    }

    lemma RefGood(e: Handle)
      requires Good() && e in clients
      ensures Ref(e).Good()
      ensures Ref(e).Usage() == Usage()
      ensures forall h :: Ref(e).Cached(h) <==> Cached(h)
    {
      hide NoDup, Without, Charge;
      if e in lru {
        WithoutHas(lru, e);
        ChargeWithout(lru, e);
        ChargeAppend(used, e);
        AppendHas(used, e);
        assert Ref(e).Tidy();
        assert forall h :: h in Ref(e).lru ==> Ref(e).clients[h] == 0;
      }
    }

    lemma ReleaseGood(e: Handle)
      requires Good() && e in clients && clients[e] > 0
      ensures Release(e).Good()
      ensures this.(clients := clients[e := clients[e] - 1]).GoodBut(e)
      ensures Release(e).Usage() == Usage()
      ensures forall h :: Release(e).Cached(h) <==> Cached(h)
    {
      this.(clients := clients[e := clients[e] - 1]).SettleGood(e);
    }

    lemma OffGood(e: Handle)
      requires Good() && Cached(e)
      ensures Held(Without(lru, e), Without(used, e), clients, deleted).GoodBut(e)
      ensures Held(Without(lru, e), Without(used, e), clients, deleted).Usage() == Usage() - e.charge
      ensures forall h :: Held(Without(lru, e), Without(used, e), clients, deleted).Cached(h) <==> Cached(h) && h != e
    {
      hide NoDup, Without, Charge;
      WithoutHas(lru, e);
      WithoutHas(used, e);
      if e in lru {
        ChargeWithout(lru, e);
        WithoutAbsent(used, e);
      } else {
        ChargeWithout(used, e);
        WithoutAbsent(lru, e);
      }
      assert Held(Without(lru, e), Without(used, e), clients, deleted).Tidy();
    }

    lemma EraseGood(e: Handle)
      requires Good() && Cached(e)
      ensures FinishErase(e).Good()
      ensures FinishErase(e).Usage() == Usage() - e.charge
      ensures forall h :: FinishErase(e).Cached(h) <==> Cached(h) && h != e
    {
      hide Held.Good, Held.GoodBut, Held.Settle, Without, Held.Usage;
      assert e in clients by { GoodHas(e); }
      OffGood(e);
      Held(Without(lru, e), Without(used, e), clients, deleted).SettleGood(e);
    }

    lemma SameEntries(m: Held)
      requires forall h :: Cached(h) <==> m.Cached(h)
      ensures Entries() == m.Entries()
    {
      assert forall h :: h in Entries() <==> Cached(h);
      assert forall h :: h in m.Entries() <==> m.Cached(h);
    }

    lemma NearlyTidy(e: Handle)
      requires GoodBut(e)
      ensures Tidy() && e in clients
    {}

    lemma GoodIsTidy()
      requires Good()
      ensures Tidy()
    {}

    lemma EntriesExist()
      requires Good()
      ensures Entries() <= clients.Keys
    {}

    lemma Apart()
      requires Tidy()
      ensures forall h :: h in lru ==> h !in used && h in clients
      ensures forall h :: h in used ==> h in clients
    {}

    lemma Idle(e: Handle)
      requires Good() && e in clients
      ensures e in lru <==> Cached(e) && clients[e] == 0
      ensures e in used <==> Cached(e) && clients[e] > 0
      ensures Tidy()
    {}

    lemma ErasedEntries(e: Handle)
      requires Good() && Cached(e)
      ensures FinishErase(e).Entries() == Entries() - {e}
    {
      hide Held.Good, Held.FinishErase;
      GoodHas(e);
      EraseGood(e);
      assert forall h :: h in Entries() <==> Cached(h);
      assert forall h :: h in FinishErase(e).Entries() <==> FinishErase(e).Cached(h);
    }

    lemma AddGood(e: Handle)
      requires Good() && e !in clients && e !in deleted
      ensures Added(e).Good() && Added(e).Tidy() && Tidy() && e !in lru && e !in used
      ensures Added(e).Usage() == Usage() + e.charge
      ensures Added(e).Entries() == Entries() + {e} && e !in Entries()
      ensures forall h :: Added(e).Cached(h) <==> Cached(h) || h == e
    {
      hide NoDup, Charge;
      AppendHas(used, e);
      ChargeAppend(used, e);
      assert Added(e).Tidy();
      assert forall h :: h in Entries() <==> Cached(h);
      assert forall h :: h in Added(e).Entries() <==> Added(e).Cached(h);
    }

    lemma AloneGood(e: Handle)
      requires Good() && e !in clients && e !in deleted
      ensures Held(lru, used, clients[e := 1], deleted).Good() && Held(lru, used, clients[e := 1], deleted).Tidy()
      ensures Held(lru, used, clients[e := 1], deleted).Usage() == Usage()
      ensures Held(lru, used, clients[e := 1], deleted).Entries() == Entries()
    {}

    lemma RefIs(e: Handle)
      requires Good() && e in clients
      ensures e in lru <==> Cached(e) && clients[e] == 0
      ensures Ref(e).clients == clients[e := clients[e] + 1]
      ensures Ref(e).lru == if e in lru then Without(lru, e) else lru
      ensures Ref(e).used == if e in lru then used + [e] else used
      ensures Ref(e).Good() && Ref(e).Tidy() && Ref(e).Usage() == Usage() && Ref(e).Entries() == Entries()
      ensures forall h :: Ref(e).Cached(h) <==> Cached(h)
      ensures forall h :: h in lru ==> h !in used && h in clients
      ensures forall h :: h in used ==> h in clients
    {
      hide NoDup, Without, Charge, Held.Good, Held.Usage, Held.Entries, Held.Tidy;
      RefGood(e);
      Idle(e);
      Apart();
      SameEntries(Ref(e));
      Ref(e).GoodIsTidy();
    }

    lemma GoodHas(e: Handle)
      requires Good() && Cached(e)
      ensures e in clients
    {}
  }

  // ----------------------------------------------------------- whole histories

  /** Idle entries dropped, oldest first. */
  ghost function DropOldest(m: Held, k: nat): Held
    requires k <= |m.lru|
  {
    Held(m.lru[k..], m.used, map h | h in m.clients && h !in m.lru[..k] :: m.clients[h], m.deleted + m.lru[..k])
  }

  /** Making room drops the fewest of the oldest idle entries that make the charges fit, or all of them. */
  lemma {:induction false} Evicts(m: Held, capacity: nat) returns (k: nat)
    requires m.Good()
    ensures k <= |m.lru| && m.Evict(capacity) == DropOldest(m, k)
    ensures k == |m.lru| || Charge(m.lru[k..]) + Charge(m.used) <= capacity
    ensures forall j :: 0 <= j < k ==> Charge(m.lru[j..]) + Charge(m.used) > capacity
    decreases |m.lru|
  {
    if m.Usage() > capacity && m.lru != [] {
      m.EraseGood(m.lru[0]);
      m.EraseOldest();
      var next := m.FinishErase(m.lru[0]);
      var n := Evicts(next, capacity);
      k := n + 1;
      DropTwice(m, n);
      forall j | 0 <= j < k ensures Charge(m.lru[j..]) + Charge(m.used) > capacity {
        assert j > 0 ==> m.lru[j..] == next.lru[j - 1..];
        assert m.lru[0..] == m.lru;
      }
      assert m.lru[k..] == next.lru[n..];
    } else {
      k := 0;
      DropNone(m);
    }
  }

  lemma DropNone(m: Held)
    ensures DropOldest(m, 0) == m && m.lru[0..] == m.lru
  {
    assert m.deleted + m.lru[..0] == m.deleted;
  }

  lemma DropTwice(m: Held, n: nat)
    requires n < |m.lru|
    ensures DropOldest(Held(m.lru[1..], m.used, m.clients - {m.lru[0]}, m.deleted + [m.lru[0]]), n) == DropOldest(m, n + 1)
  {
    var first := m.lru[0];
    assert m.lru[..n + 1] == [first] + m.lru[1..][..n];
    assert m.deleted + [first] + m.lru[1..][..n] == m.deleted + m.lru[..n + 1];
    assert m.lru[1..][n..] == m.lru[n + 1..];
  }

  lemma {:induction false} DropGood(m: Held, k: nat)
    requires m.Good() && k <= |m.lru|
    ensures DropOldest(m, k).Good()
    decreases k
  {
    if k == 0 {
      DropNone(m);
    } else {
      m.EraseGood(m.lru[0]);
      m.EraseOldest();
      DropGood(m.FinishErase(m.lru[0]), k - 1);
      DropTwice(m, k - 1);
    }
  }

  lemma EvictGood(m: Held, capacity: nat)
    requires m.Good()
    ensures m.Evict(capacity).Good()
  {
    var k := Evicts(m, capacity);
    DropGood(m, k);
  }

  /** What is asked of the cache; was is the entry Insert finds under the same key. */
  datatype Call =
    | Insert(e: Handle, was: Handle?, capacity: nat)
    | Lookup(e: Handle)
    | Release(e: Handle)
    | Erase(e: Handle)
    | Prune

  ghost predicate Legal(m: Held, c: Call) {
    match c
    case Insert(e, was, capacity) => e !in m.clients && e !in m.deleted && (was != null ==> m.Cached(was))
    case Lookup(e) => m.Cached(e)
    case Release(e) => e in m.clients && m.clients[e] > 0
    case Erase(e) => m.Cached(e)
    case Prune => true
  }

  ghost function Next(m: Held, c: Call): (r: Held)
    requires m.Good() && Legal(m, c)
    ensures r.Good()
  {
    match c
    case Insert(e, was, capacity) =>
      WithGood(m, e, was, capacity);
      assert was != null ==> was in m.clients;
      EvictGood(m.With(e, was, capacity), capacity);
      m.With(e, was, capacity).Evict(capacity)
    case Lookup(e) => m.RefGood(e); m.Ref(e)
    case Release(e) => m.ReleaseGood(e); m.Release(e)
    case Erase(e) => m.EraseGood(e); m.FinishErase(e)
    case Prune => DropGood(m, |m.lru|); DropOldest(m, |m.lru|)
  }

  lemma WithGood(m: Held, e: Handle, was: Handle?, capacity: nat)
    requires m.Good() && e !in m.clients && e !in m.deleted && (was != null ==> m.Cached(was))
    ensures was != null ==> was in m.clients
    ensures m.With(e, was, capacity).Good()
  {
    hide Held.Good, Held.FinishErase;
    if was != null {
      m.GoodHas(was);
    }
    if capacity == 0 {
      m.AloneGood(e);
    } else {
      m.AddGood(e);
      if was != null {
        m.Added(e).EraseGood(was);
      }
    }
  }

  /** How a call changes the number of references clients hold to h. */
  function Delta(c: Call, h: Handle): int {
    match c
    case Insert(e, _, _) => if h == e then 1 else 0
    case Lookup(e) => if h == e then 1 else 0
    case Release(e) => if h == e then -1 else 0
    case Erase(_) => 0
    case Prune => 0
  }

  function Balance(calls: seq<Call>, h: Handle): int {
    if calls == [] then 0 else Balance(calls[..|calls| - 1], h) + Delta(calls[|calls| - 1], h)
  }

  ghost predicate IsHistory(calls: seq<Call>, states: seq<Held>) {
    && |states| == |calls| + 1 && states[0] == Held([], [], map[], [])
    && forall i :: 0 <= i < |calls| ==> states[i].Good() && Legal(states[i], calls[i]) && states[i + 1] == Next(states[i], calls[i])
  }

  /** What one call does to one handle. */
  ghost predicate Tracks(m: Held, next: Held, d: int, h: Handle) {
    && (h in next.clients ==> next.clients[h] == d + if h in m.clients then m.clients[h] else 0)
    && (h in next.clients ==> h in m.clients || d == 1)
    && (h in next.deleted && h !in m.deleted ==> h in m.clients && m.clients[h] + d == 0)
    && (h in m.deleted ==> h in next.deleted && d == 0)
    && (h in m.clients ==> h in next.clients || h in next.deleted)
    && (h !in m.clients && h !in next.clients ==> d == 0)
  }

  lemma NoneDeleted()
    ensures NoDup([])
  {}

  lemma GoodDeleted(m: Held, h: Handle)
    requires m.Good()
    ensures NoDup(m.deleted) && (h in m.clients ==> h !in m.deleted)
  {}

  lemma TracksThen(m: Held, middle: Held, next: Held, d: int, h: Handle)
    requires Tracks(m, middle, d, h) && Tracks(middle, next, 0, h) && middle.Good()
    ensures Tracks(m, next, d, h)
  {}

  lemma DropTracks(m: Held, k: nat, h: Handle)
    requires m.Good() && k <= |m.lru|
    ensures Tracks(m, DropOldest(m, k), 0, h)
  {
    if h in m.lru[..k] {
      assert h in m.lru;
    }
  }

  lemma EraseTracks(m: Held, e: Handle, h: Handle)
    requires m.Good() && m.Cached(e)
    ensures e in m.clients && Tracks(m, m.FinishErase(e), 0, h)
  {
    hide NoDup, Without;
    WithoutHas(m.used, e);
  }

  lemma RefTracks(m: Held, e: Handle, h: Handle)
    requires m.Good() && m.Cached(e)
    ensures e in m.clients && Tracks(m, m.Ref(e), if h == e then 1 else 0, h)
  {
    hide NoDup, Without;
  }

  lemma ReleaseTracks(m: Held, e: Handle, h: Handle)
    requires m.Good() && e in m.clients && m.clients[e] > 0
    ensures Tracks(m, m.Release(e), if h == e then -1 else 0, h)
  {
    hide NoDup, Without;
  }

  lemma WithTracks(m: Held, e: Handle, was: Handle?, capacity: nat, h: Handle)
    requires m.Good() && e !in m.clients && e !in m.deleted && (was != null ==> m.Cached(was) && was in m.clients)
    ensures Tracks(m, m.With(e, was, capacity), if h == e then 1 else 0, h)
  {
    hide NoDup, Without, Held.Good, Held.FinishErase;
    if capacity > 0 && was != null {
      m.AddGood(e);
      EraseTracks(m.Added(e), was, h);
      TracksThen(m, m.Added(e), m.With(e, was, capacity), if h == e then 1 else 0, h);
    }
  }

  lemma NextTracks(m: Held, c: Call, h: Handle)
    requires m.Good() && Legal(m, c)
    ensures Tracks(m, Next(m, c), Delta(c, h), h)
  {
    hide NoDup, Without, Held.Good, Held.FinishErase, Tracks, Held.With, Held.Ref, Held.Release, DropOldest;
    match c
    case Insert(e, was, capacity) =>
      WithGood(m, e, was, capacity);
      var full := m.With(e, was, capacity);
      WithTracks(m, e, was, capacity, h);
      var k := Evicts(full, capacity);
      DropTracks(full, k, h);
      TracksThen(m, full, DropOldest(full, k), Delta(c, h), h);
    case Lookup(e) => RefTracks(m, e, h);
    case Release(e) => ReleaseTracks(m, e, h);
    case Erase(e) => EraseTracks(m, e, h);
    case Prune => DropTracks(m, |m.lru|, h);
  }

  /**
   * After any calls, a handle that exists is held by clients as many times as it was handed out and not given
   * back; a handle is deleted once at most, and then everything handed out was given back.
   */
  lemma {:induction false} HistoriesBalance(calls: seq<Call>, states: seq<Held>, n: nat, h: Handle)
    requires IsHistory(calls, states) && n <= |calls|
    ensures h in states[n].clients ==> states[n].clients[h] == Balance(calls[..n], h)
    ensures h !in states[n].clients ==> Balance(calls[..n], h) == 0
    ensures NoDup(states[n].deleted)
    decreases n
  {
    NoneDeleted();
    hide Next, Legal, Held.Good, NoDup;
    if n > 0 {
      GoodDeleted(states[n - 1], h);
      HistoriesBalance(calls, states, n - 1, h);
      assert calls[..n][..n - 1] == calls[..n - 1];
      NextTracks(states[n - 1], calls[n - 1], h);
      assert states[n] == Next(states[n - 1], calls[n - 1]);
      GoodDeleted(states[n], h);
    }
  }

  // ----------------------------------------------------------- least recently used

  /** The number of the last call that released a handle, counting from 1; 0 if there is none. */
  function IdleSince(calls: seq<Call>, h: Handle): (n: nat)
    ensures n <= |calls|
  {
    if calls == [] then 0
    else if calls[|calls| - 1] == Release(h) then |calls|
    else IdleSince(calls[..|calls| - 1], h)
  }

  /** In the order of the releases that made them idle. */
  ghost predicate ByAge(calls: seq<Call>, lru: seq<Handle>) {
    && (forall i :: 0 <= i < |lru| ==> IdleSince(calls, lru[i]) > 0)
    && forall i, j :: 0 <= i < j < |lru| ==> IdleSince(calls, lru[i]) < IdleSince(calls, lru[j])
  }

  lemma ByAgeAfter(calls: seq<Call>, c: Call, lru: seq<Handle>)
    requires ByAge(calls, lru) && (c.Release? ==> c.e !in lru)
    ensures ByAge(calls + [c], lru)
  {
    assert (calls + [c])[..|calls|] == calls;
    assert forall i :: 0 <= i < |lru| ==> IdleSince(calls + [c], lru[i]) == IdleSince(calls, lru[i]);
  }

  lemma ByAgeReleased(calls: seq<Call>, e: Handle, lru: seq<Handle>)
    requires ByAge(calls, lru) && e !in lru
    ensures ByAge(calls + [Release(e)], lru + [e])
  {
    ByAgeAfter(calls, Release(e), lru);
    var all := calls + [Release(e)];
    assert all[..|calls|] == calls;
    assert forall i :: 0 <= i < |lru| ==> lru[i] in lru && IdleSince(all, lru[i]) == IdleSince(calls, lru[i]);
  }

  lemma ByAgeWithout(calls: seq<Call>, lru: seq<Handle>, e: Handle)
    requires ByAge(calls, lru) && NoDup(lru)
    ensures ByAge(calls, Without(lru, e))
  {
    if e in lru {
      var i: nat :| i < |lru| && lru[i] == e;
      WithoutAt(lru, i);
    } else {
      WithoutAbsent(lru, e);
    }
  }

  lemma ByAgeFrom(calls: seq<Call>, lru: seq<Handle>, k: nat)
    requires ByAge(calls, lru) && k <= |lru|
    ensures ByAge(calls, lru[k..])
  {}

  /** What is left idle when an entry goes out of the cache, or comes in. */
  lemma ErasedLru(m: Held, e: Handle)
    requires m.Good() && m.Cached(e)
    ensures e in m.clients && m.FinishErase(e).lru == Without(m.lru, e)
  {
    hide Charge;
    m.GoodHas(e);
    WithoutHas(m.used, e);
  }

  lemma InsertedLru(m: Held, e: Handle, was: Handle?, capacity: nat)
    requires m.Good() && e !in m.clients && e !in m.deleted && (was != null ==> m.Cached(was) && was in m.clients)
    ensures m.With(e, was, capacity).lru == if capacity > 0 && was != null then Without(m.lru, was) else m.lru
  {
    hide NoDup, Without, Held.Good, Held.FinishErase;
    if capacity > 0 && was != null {
      m.AddGood(e);
      ErasedLru(m.Added(e), was);
    }
  }

  /** A call keeps the idle entries in the order in which they became idle. */
  lemma NextByAge(m: Held, c: Call, calls: seq<Call>)
    requires m.Good() && Legal(m, c) && ByAge(calls, m.lru)
    ensures ByAge(calls + [c], Next(m, c).lru)
  {
    m.GoodIsTidy();
    if !c.Release? {
      ByAgeAfter(calls, c, m.lru);
    }
    var all := calls + [c];
    match c
    case Insert(e, was, capacity) =>
      hide NoDup, Without, Held.Good, Held.With, ByAge;
      WithGood(m, e, was, capacity);
      InsertedLru(m, e, was, capacity);
      if was != null {
        ByAgeWithout(all, m.lru, was);
      }
      var k := Evicts(m.With(e, was, capacity), capacity);
      ByAgeFrom(all, m.With(e, was, capacity).lru, k);
    case Lookup(e) =>
      ByAgeWithout(all, m.lru, e);
    case Release(e) =>
      assert e !in m.lru;
      ByAgeAfter(calls, c, m.lru);
      ByAgeReleased(calls, e, m.lru);
    case Erase(e) =>
      ErasedLru(m, e);
      ByAgeWithout(all, m.lru, e);
    case Prune =>
  }

  /** After any calls the list of idle entries is in the order in which their last clients let go of them. */
  lemma {:induction false} LruIsByAge(calls: seq<Call>, states: seq<Held>, n: nat)
    requires IsHistory(calls, states) && n <= |calls|
    ensures ByAge(calls[..n], states[n].lru)
    decreases n
  {
    hide Next, Legal, Held.Good;
    if n > 0 {
      LruIsByAge(calls, states, n - 1);
      hide ByAge;
      assert calls[..n] == calls[..n - 1] + [calls[n - 1]];
      NextByAge(states[n - 1], calls[n - 1], calls[..n - 1]);
    }
  }

  /** Insert makes room with entries that have been idle longer than every idle entry it keeps. */
  lemma EvictsLongestIdle(calls: seq<Call>, states: seq<Held>, n: nat, gone: Handle, kept: Handle)
    requires IsHistory(calls, states) && n < |calls| && calls[n].Insert?
    requires gone in states[n].lru && gone != calls[n].was && gone !in states[n + 1].lru && kept in states[n + 1].lru
    ensures gone in states[n + 1].deleted
    ensures 0 < IdleSince(calls[..n], gone) < IdleSince(calls[..n], kept)
  {
    var m, c := states[n], calls[n];
    LruIsByAge(calls, states, n);
    assert m.Good() && Legal(m, c) && states[n + 1] == Next(m, c);
    m.GoodIsTidy();
    hide IsHistory;
    RoomIsFromTheFront(m, c, gone, kept, calls[..n]);
  }

  /** An Insert drops the front of what the entry coming in leaves idle. */
  lemma InsertDropsFront(m: Held, c: Call) returns (idle: seq<Handle>, k: nat)
    requires m.Good() && c.Insert? && Legal(m, c)
    ensures idle == if c.capacity > 0 && c.was != null then Without(m.lru, c.was) else m.lru
    ensures k <= |idle| && Next(m, c).lru == idle[k..] && forall h :: h in idle[..k] ==> h in Next(m, c).deleted
  {
    WithGood(m, c.e, c.was, c.capacity);
    InsertedLru(m, c.e, c.was, c.capacity);
    var full := m.With(c.e, c.was, c.capacity);
    idle := full.lru;
    k := Evicts(full, c.capacity);
    assert Next(m, c) == DropOldest(full, k);
    hide NoDup, Without, Held.Good, Held.With, Next;
  }

  lemma RoomIsFromTheFront(m: Held, c: Call, gone: Handle, kept: Handle, calls: seq<Call>)
    requires m.Good() && c.Insert? && Legal(m, c) && ByAge(calls, m.lru) && NoDup(m.lru)
    requires gone in m.lru && gone != c.was && gone !in Next(m, c).lru && kept in Next(m, c).lru
    ensures gone in Next(m, c).deleted
    ensures 0 < IdleSince(calls, gone) < IdleSince(calls, kept)
  {
    hide NoDup, Without, Held.Good, Next, Legal, ByAge;
    var idle, k := InsertDropsFront(m, c);
    if c.was != null {
      ByAgeWithout(calls, m.lru, c.was);
      WithoutHas(m.lru, c.was);
    }
    FrontIsOlder(calls, idle, k, gone, kept);
  }

  lemma FrontIsOlder(calls: seq<Call>, idle: seq<Handle>, k: nat, gone: Handle, kept: Handle)
    requires ByAge(calls, idle) && k <= |idle| && gone in idle && gone !in idle[k..] && kept in idle[k..]
    ensures gone in idle[..k] && 0 < IdleSince(calls, gone) < IdleSince(calls, kept)
  {
    var i: nat :| i < |idle| && idle[i] == gone;
    var j: nat :| j < |idle[k..]| && idle[k..][j] == kept;
    assert idle[..k][i] == gone && idle[k + j] == kept;
  }

  // ------------------------------------------------------------------ the shard

  class LRUCache {
    const lru: Handle
    const inUse: Handle
    const table: HandleTable
    var capacity: nat
    var usage: nat
    ghost var held: Held

    ghost predicate Shape()
      reads this, lru`next, lru`prev, inUse`next, inUse`prev, held.clients.Keys`next, held.clients.Keys`prev
    {
      && held.Tidy() && lru != inUse && lru !in held.clients && inUse !in held.clients
      && Ring(lru, held.lru) && Ring(inUse, held.used)
    }

    /** refs and inCache say who holds each handle but one. */
    ghost predicate Counted(but: Handle?)
      reads this, held.clients.Keys`refs, held.clients.Keys`inCache
    {
      forall h :: h in held.clients && h != but ==>
        h.inCache == held.Cached(h) && h.refs == held.clients[h] + if held.Cached(h) then 1 else 0
    }

    /** Everything is in order, except that this one is no longer in the table. */
    ghost predicate ValidBut(gone: Handle?)
      reads this, lru, inUse, table, table.list, held.clients.Keys
    {
      && held.Good() && Shape() && Counted(null) && usage == held.Usage()
      && table.entries == Less(held.Entries(), gone) && table.Valid()
    }

    ghost predicate Valid()
      reads this, lru, inUse, table, table.list, held.clients.Keys
    {
      ValidBut(null)
    }

    constructor ()
      ensures Valid() && held == Held([], [], map[], []) && capacity == 0
      ensures fresh(lru) && fresh(inUse) && fresh(table) && fresh(table.list)
    {
      hide HandleTable.Linked, Distinct;
      var first := new Handle([], 0, 0, 0);
      var second := new Handle([], 0, 0, 0);
      var handles := new HandleTable();
      lru, inUse, table := first, second, handles;
      capacity, usage, held := 0, 0, Held([], [], map[], []);
      new;
      lru.next := lru;
      lru.prev := lru;
      inUse.next := inUse;
      inUse.prev := inUse;
    }

    method SetCapacity(n: nat)
      requires Valid()
      modifies this`capacity
      ensures Valid() && capacity == n
    {
      capacity := n;
    }

    method Ref(e: Handle)
      requires Valid() && e in held.clients
      modifies this`held, lru`next, lru`prev, inUse`next, inUse`prev, held.clients.Keys`next, held.clients.Keys`prev,
        held.clients.Keys`refs
      ensures Valid() && held == old(held).Ref(e)
    {
      hide NoDup, Without, Charge, Held.Good, Held.Usage, Held.Entries, Held.Tidy, Held.Ref, HandleTable.Valid, Ring;
      held.RefIs(e);
      if e.refs == 1 && e.inCache {
        ToInUse(e);
      } else {
        held := held.Ref(e);
      }
      e.refs := e.refs + 1;
    }

    /** From the LRU list to the in-use list, for a client that is taking a reference. */
    method ToInUse(e: Handle)
      requires held.Good() && Shape() && e in held.clients && e in held.lru && held.Ref(e).Tidy()
      modifies this`held, lru`next, lru`prev, inUse`next, inUse`prev, held.clients.Keys`next, held.clients.Keys`prev
      ensures held == old(held).Ref(e) && Shape()
    {
      hide NoDup, Without, Charge, Held.Good, Held.Usage, Held.Tidy, Ring;
      held.RefIs(e);
      Move(e, lru, held.lru, inUse, held.used);
      held := held.Ref(e);
    }

    method Unref(e: Handle)
      requires held.GoodBut(e) && Shape() && Counted(e)
      requires e.inCache == held.Cached(e) && e.refs == held.clients[e] + (if held.Cached(e) then 1 else 0) + 1
      modifies this`held, lru`next, lru`prev, inUse`next, inUse`prev, held.clients.Keys`next, held.clients.Keys`prev,
        held.clients.Keys`refs
      ensures held == old(held).Settle(e) && Shape() && Counted(null)
    {
      hide NoDup, Without, Charge, Held.Good, Held.Usage;
      held.SettleGood(e);
      held.Settle(e).GoodIsTidy();
      e.refs := e.refs - 1;
      if e.refs == 0 {
        assert !e.inCache;
      } else if e.inCache && e.refs == 1 {
        Move(e, inUse, held.used, lru, held.lru);
      }
      held := held.Settle(e);
    }

    /** The cache's own reference to an entry already taken out of the table goes. */
    method FinishErase(e: Handle?) returns (erased: bool)
      requires ValidBut(e) && (e != null ==> held.Cached(e))
      modifies this`held, this`usage, lru`next, lru`prev, inUse`next, inUse`prev, held.clients.Keys`next,
        held.clients.Keys`prev, held.clients.Keys`refs, held.clients.Keys`inCache
      ensures Valid() && erased == (e != null)
      ensures held == if e == null then old(held) else old(held).FinishErase(e)
    {
      hide NoDup, Without, Charge, Held.Good, Held.Usage, Held.Entries, Held.Tidy, HandleTable.Valid, Ring;
      erased := e != null;
      if e != null {
        ghost var was := held;
        held.EraseGood(e);
        held.OffGood(e);
        TakeOff(e);
        e.inCache := false;
        usage := usage - e.charge;
        Unref(e);
        was.ErasedEntries(e);
      }
    }

    /** LRU_Remove, from whichever list the entry is on. */
    method TakeOff(e: Handle)
      requires held.Good() && Shape() && held.Cached(e)
      modifies this`held, lru`next, lru`prev, inUse`next, inUse`prev, held.clients.Keys`next, held.clients.Keys`prev
      ensures held == Held(Without(old(held).lru, e), Without(old(held).used, e), old(held).clients, old(held).deleted)
      ensures Shape()
    {
      hide NoDup, Without, Charge, Held.Good, Held.Usage, Held.Tidy;
      held.OffGood(e);
      held.Apart();
      ghost var head, s := if e in held.lru then lru else inUse, if e in held.lru then held.lru else held.used;
      if e in held.lru {
        WithoutAbsent(held.used, e);
      } else {
        WithoutAbsent(held.lru, e);
      }
      ghost var other, o := if e in held.lru then inUse else lru, if e in held.lru then held.used else held.lru;
      assert Ring(other, o) && forall i :: 0 <= i < |o| ==> o[i] in o;
      RingRemove(e, head, s);
      assert Ring(other, o);
      held := Held(Without(held.lru, e), Without(held.used, e), held.clients, held.deleted);
      held.NearlyTidy(e);
    }

    method Lookup(key: seq<Byte>, hash: nat) returns (e: Handle?)
      requires Valid()
      modifies this`held, lru`next, lru`prev, inUse`next, inUse`prev, held.clients.Keys`next, held.clients.Keys`prev,
        held.clients.Keys`refs
      ensures Valid() && Finds(old(held).Entries(), (hash, key), e)
      ensures held == if e == null then old(held) else old(held).Ref(e)
    {
      e := table.Lookup(key, hash);
      if e != null {
        Ref(e);
      }
    }

    method Release(e: Handle)
      requires Valid() && e in held.clients && held.clients[e] > 0
      modifies this`held, lru`next, lru`prev, inUse`next, inUse`prev, held.clients.Keys`next, held.clients.Keys`prev,
        held.clients.Keys`refs
      ensures Valid() && held == old(held).Release(e)
    {
      hide NoDup, Without, Charge, Held.Good, Held.GoodBut, Held.Usage, Held.Entries, Held.Tidy, HandleTable.Valid,
        Ring;
      held.ReleaseGood(e);
      held.SameEntries(held.Release(e));
      ghost var less := held.(clients := held.clients[e := held.clients[e] - 1]);
      less.NearlyTidy(e);
      held := less;
      Unref(e);
    }

    method Erase(key: seq<Byte>, hash: nat) returns (ghost e: Handle?)
      requires Valid()
      modifies this, lru, inUse, table, table.list, held.clients.Keys
      ensures Valid() && table.list == old(table.list) && capacity == old(capacity)
      ensures Finds(old(held).Entries(), (hash, key), e)
      ensures held == if e == null then old(held) else old(held).FinishErase(e)
    {
      hide Held.Good, Held.Usage, Held.Tidy, HandleTable.Valid, Ring;
      held.EntriesExist();
      var removed := table.Remove(key, hash);
      e := removed;
      var erased := FinishErase(removed);
    }

    /** One turn of the loops that make room. */
    method EraseOldest()
      requires Valid() && held.lru != []
      modifies this, lru, inUse, table, table.list, held.clients.Keys
      ensures Valid() && table.list == old(table.list) && capacity == old(capacity)
      ensures held == old(held).FinishErase(old(held).lru[0])
    {
      hide NoDup, Without, Held.Good, Held.Usage, Held.Tidy, HandleTable.Linked, Distinct, Finds;
      held.EntriesExist();
      var oldest := lru.next;
      assert oldest == held.lru[0];
      ghost var entries := table.entries;
      assert Distinct(entries) && oldest in entries;
      var removed := table.Remove(oldest.key, oldest.hash);
      IsFound(entries, oldest, removed);
      var erased := FinishErase(removed);
      assert erased;
    }

    /** Insert's loop. */
    method MakeRoom()
      requires Valid()
      modifies this, lru, inUse, table, table.list, held.clients.Keys
      ensures Valid() && table.list == old(table.list) && capacity == old(capacity)
      ensures held == old(held).Evict(capacity) && (usage <= capacity || held.lru == [])
    {
      hide NoDup, Without, Held.Good, Held.Usage, Held.Tidy, HandleTable.Valid, Held.FinishErase;
      while usage > capacity && lru.next != lru
        invariant Valid() && capacity == old(capacity) && table.list == old(table.list)
        invariant held.clients.Keys <= old(held.clients.Keys)
        invariant held.Evict(capacity) == old(held).Evict(capacity)
        decreases |held.lru|
      {
        held.EraseOldest();
        EraseOldest();
      }
    }

    /** The new entry joins the in-use list; the table does not have it yet. */
    method AddInUse(e: Handle)
      requires Valid() && e !in held.clients && e !in held.deleted && e != lru && e != inUse && e.refs == 2 && e.inCache
      modifies this`held, this`usage, inUse`next, inUse`prev, held.used`next, e`next, e`prev
      ensures held == old(held).Added(e) && held.Good() && Shape() && Counted(null) && usage == held.Usage()
      ensures table.Valid() && table.entries == held.Entries() - {e} && e !in table.entries
      ensures capacity == old(capacity)
    {
      hide NoDup, Without, Charge, Held.Good, Held.Usage, Held.Entries, Held.Tidy, HandleTable.Valid;
      held.AddGood(e);
      held.Apart();
      assert forall i :: 0 <= i < |held.lru| ==> held.lru[i] in held.lru;
      assert e !in held.lru && e !in held.used;
      RingAppend(inUse, e, held.used);
      assert Ring(lru, held.lru);
      usage := usage + e.charge;
      held := held.Added(e);
    }

    /** Put the new entry in the table, and drop the one it replaces. */
    method Enter(e: Handle) returns (was: Handle?)
      requires held.Good() && Shape() && Counted(null) && usage == held.Usage()
      requires table.Valid() && table.entries == held.Entries() - {e} && e !in table.entries && held.Cached(e)
      modifies this`held, this`usage, lru, inUse, table, table.list, held.clients.Keys
      ensures Valid() && capacity == old(capacity) && (table.list == old(table.list) || fresh(table.list))
      ensures Finds(old(table.entries), IdOf(e), was) && (was != null ==> was in old(held).clients)
      ensures held == if was == null then old(held) else old(held).FinishErase(was)
      ensures held.clients.Keys <= old(held.clients.Keys)
    {
      hide NoDup, Without, Charge, Held.Good, Held.Usage, Held.Tidy, HandleTable.Valid, Ring;
      held.EntriesExist();
      was := table.Insert(e);
      var erased := FinishErase(was);
    }

    method Insert(key: seq<Byte>, hash: nat, charge: nat) returns (e: Handle, ghost was: Handle?)
      requires Valid()
      modifies this, lru, inUse, table, table.list, held.clients.Keys
      ensures Valid() && capacity == old(capacity) && (table.list == old(table.list) || fresh(table.list))
      ensures fresh(e) && e.key == key && e.hash == hash && e.charge == charge
      ensures if capacity == 0 then was == null else Finds(old(held).Entries(), (hash, key), was)
      ensures was != null ==> was in old(held).clients
      ensures old(held).With(e, was, capacity).Good() && held == old(held).With(e, was, capacity).Evict(capacity)
      ensures usage <= capacity || held.lru == []
    {
      hide NoDup, Without, Charge, Held.Good, Held.Usage, Held.Tidy, Held.Entries, HandleTable.Valid,
        Held.FinishErase, Ring;
      e := new Handle(key, hash, charge, 1);
      was := null;
      assert e !in held.clients && e !in held.deleted;
      held.Apart();
      if capacity > 0 {
        e.refs := e.refs + 1;
        e.inCache := true;
        AddInUse(e);
        was := Enter(e);
      } else {
        e.next := null;
        held.AloneGood(e);
        held := Held(held.lru, held.used, held.clients[e := 1], held.deleted);
      }
      assert held.clients.Keys <= old(held.clients.Keys) + {e};
      MakeRoom();
    }

    method Prune()
      requires Valid()
      modifies this, lru, inUse, table, table.list, held.clients.Keys
      ensures Valid() && table.list == old(table.list) && capacity == old(capacity)
      ensures held == DropOldest(old(held), |old(held).lru|) && held.lru == []
    {
      hide NoDup, Without, Held.Good, Held.Usage, Held.Tidy, HandleTable.Valid, Held.FinishErase, Held.Entries,
        DropOldest;
      while lru.next != lru
        invariant Valid() && capacity == old(capacity) && table.list == old(table.list)
        invariant held.clients.Keys <= old(held.clients.Keys)
        invariant DropOldest(held, |held.lru|) == DropOldest(old(held), |old(held).lru|)
        decreases |held.lru|
      {
        ghost var was := held;
        was.EraseOldest();
        EraseOldest();
        DropTwice(was, |was.lru| - 1);
      }
      DropNone(held);
    }
  }

  /** From one ring to the end of another. */
  method Move(e: Handle, ghost source: Handle, ghost s: seq<Handle>, target: Handle, ghost t: seq<Handle>)
    requires Ring(source, s) && Ring(target, t) && e in s && source != target && e !in t && e != target
    requires source !in t && target !in s && forall h :: h in s ==> h !in t
    modifies source`next, source`prev, s`next, s`prev, target`next, target`prev, t`next, t`prev
    ensures Ring(source, Without(s, e)) && Ring(target, t + [e])
  {
    hide NoDup, Without;
    ghost var rest := Without(s, e);
    assert forall i :: 0 <= i < |t| ==> t[i] in t;
    RingRemove(e, source, s);
    WithoutItems(s, e);
    assert Ring(target, t);
    RingAppend(target, e, t);
    assert Ring(source, rest);
  }
}
