/** table/merger.cc: one cursor over the union of sorted runs. */
module Merger {
  import opened Bytes
  import opened Keys
  import opened Versions
  import opened Iterators

  // ----------------------------------------------------------- the sorted union

  function Merge(a: seq<Entry>, b: seq<Entry>): seq<Entry> {
    if a == [] then b
    else if b == [] then a
    else if Precedes(a[0].key, b[0].key) then [a[0]] + Merge(a[1..], b)
    else [b[0]] + Merge(a, b[1..])
  }

  function Union(runs: seq<seq<Entry>>): seq<Entry> {
    if runs == [] then [] else Merge(runs[0], Union(runs[1..]))
  }

  /** No user key and sequence number occurs in both. */
  ghost predicate Apart(a: seq<Entry>, b: seq<Entry>) {
    forall d, e :: d in a && e in b ==> d.User() != e.User() || d.Sequence() != e.Sequence()
  }

  /** Sorted runs with no internal key in common. */
  ghost predicate Runs(runs: seq<seq<Entry>>) {
    && (forall r :: r in runs ==> Sorted(r))
    && forall i, j :: 0 <= i < j < |runs| ==> Apart(runs[i], runs[j])
  }

  lemma Ordered(d: Entry, e: Entry)
    requires d.User() != e.User() || d.Sequence() != e.Sequence()
    ensures Precedes(d.key, e.key) || Precedes(e.key, d.key)
  {}

  lemma {:induction false} MergeIsUnion(a: seq<Entry>, b: seq<Entry>)
    requires Sorted(a) && Sorted(b) && Apart(a, b)
    ensures Sorted(Merge(a, b))
    ensures forall e :: e in Merge(a, b) <==> e in a || e in b
  {
    if a != [] && b != [] {
      Ordered(a[0], b[0]);
      if Precedes(a[0].key, b[0].key) {
        MergeIsUnion(a[1..], b);
        assert forall e :: e in a <==> e == a[0] || e in a[1..];
        SortedFrom(a[0], Merge(a[1..], b));
      } else {
        MergeIsUnion(a, b[1..]);
        assert forall e :: e in b <==> e == b[0] || e in b[1..];
        SortedFrom(b[0], Merge(a, b[1..]));
      }
    }
  }

  lemma SortedFrom(d: Entry, rest: seq<Entry>)
    requires Sorted(rest) && forall e :: e in rest ==> Precedes(d.key, e.key)
    ensures Sorted([d] + rest)
  {}

  ghost predicate InRun(runs: seq<seq<Entry>>, j: nat, e: Entry) {
    j < |runs| && e in runs[j]
  }

  lemma {:induction false} UnionIsSorted(runs: seq<seq<Entry>>)
    requires Runs(runs)
    ensures Sorted(Union(runs))
    ensures forall e :: (e in Union(runs) <==> exists j: nat :: InRun(runs, j, e))
  {
    if runs != [] {
      UnionIsSorted(runs[1..]);
      forall d, e | d in runs[0] && e in Union(runs[1..])
        ensures d.User() != e.User() || d.Sequence() != e.Sequence()
      {
        var j: nat :| InRun(runs[1..], j, e);
        assert Apart(runs[0], runs[j + 1]);
      }
      MergeIsUnion(runs[0], Union(runs[1..]));
      forall e
        ensures e in Union(runs) <==> exists j: nat :: InRun(runs, j, e)
      {
        if e in runs[0] {
          assert InRun(runs, 0, e);
        }
        if j: nat :| InRun(runs[1..], j, e) {
          assert InRun(runs, j + 1, e);
        }
        if j: nat :| InRun(runs, j, e) && j > 0 {
          assert InRun(runs[1..], j - 1, e);
        }
      }
    }
  }

  // ------------------------------------------------------- places in the union

  ghost function Place(entries: seq<Entry>, e: Entry): (i: nat)
    requires e in entries
    ensures i < |entries| && entries[i] == e
  {
    var i: nat :| i < |entries| && entries[i] == e; i
  }

  ghost function RunPlaces(run: seq<Entry>, union: seq<Entry>): (places: seq<nat>)
    requires forall e :: e in run ==> e in union
    ensures |places| == |run|
    ensures forall i :: 0 <= i < |run| ==> places[i] < |union| && union[places[i]] == run[i]
  {
    seq(|run|, i requires 0 <= i < |run| => Place(union, run[i]))
  }

  /** Where each entry of each run stands in the union. */
  ghost function Places(runs: seq<seq<Entry>>, union: seq<Entry>): (place: seq<seq<nat>>)
    requires Sorted(union) && forall j, e :: InRun(runs, j, e) ==> e in union
    ensures Standing(runs, union, place)
  {
    assert forall j, e :: 0 <= j < |runs| && e in runs[j] ==> InRun(runs, j, e);
    seq(|runs|, j requires 0 <= j < |runs| => RunPlaces(runs[j], union))
  }

  ghost predicate Standing(runs: seq<seq<Entry>>, union: seq<Entry>, place: seq<seq<nat>>) {
    && Sorted(union) && |place| == |runs|
    && (forall j :: 0 <= j < |runs| ==> |place[j]| == |runs[j]|)
    && (forall j, i :: 0 <= j < |runs| && 0 <= i < |runs[j]| ==> place[j][i] < |union| && union[place[j][i]] == runs[j][i])
  }

  ghost predicate Increasing(place: seq<seq<nat>>) {
    forall j, h, i :: 0 <= j < |place| && 0 <= h < i < |place[j]| ==> place[j][h] < place[j][i]
  }

  ghost predicate Separate(place: seq<seq<nat>>) {
    forall j, k, h, i :: 0 <= j < k < |place| && 0 <= h < |place[j]| && 0 <= i < |place[k]| ==> place[j][h] != place[k][i]
  }

  ghost predicate Holds(place: seq<seq<nat>>, x: nat, j: nat, i: nat) {
    j < |place| && i < |place[j]| && place[j][i] == x
  }

  ghost predicate Held(place: seq<seq<nat>>, x: nat) {
    exists j, i :: Holds(place, x, j, i)
  }

  ghost predicate Covering(place: seq<seq<nat>>, size: nat) {
    forall x: nat :: x < size ==> Held(place, x)
  }

  lemma PlacesIncrease(runs: seq<seq<Entry>>, union: seq<Entry>, place: seq<seq<nat>>)
    requires Runs(runs) && Standing(runs, union, place)
    ensures Increasing(place)
  {
    forall j, h, i | 0 <= j < |place| && 0 <= h < i < |place[j]|
      ensures place[j][h] < place[j][i]
    {
      assert runs[j] in runs;
      assert Precedes(runs[j][h].key, runs[j][i].key);
    }
  }

  lemma PlacesAreSeparate(runs: seq<seq<Entry>>, union: seq<Entry>, place: seq<seq<nat>>)
    requires Runs(runs) && Standing(runs, union, place)
    ensures Separate(place)
  {
    hide Sorted;
    forall j, k, h, i | 0 <= j < k < |place| && 0 <= h < |place[j]| && 0 <= i < |place[k]|
      ensures place[j][h] != place[k][i]
    {
      assert Apart(runs[j], runs[k]);
      assert runs[j][h] in runs[j] && runs[k][i] in runs[k];
    }
  }

  lemma PlacesCover(runs: seq<seq<Entry>>, union: seq<Entry>, place: seq<seq<nat>>)
    requires Standing(runs, union, place)
    requires forall e :: e in union ==> exists j: nat :: InRun(runs, j, e)
    ensures Covering(place, |union|)
  {
    forall x: nat | x < |union|
      ensures Held(place, x)
    {
      assert union[x] in union;
      var j: nat :| InRun(runs, j, union[x]);
      var i: nat :| i < |runs[j]| && runs[j][i] == union[x];
      assert Holds(place, place[j][i], j, i);
      SameKeySamePlace(union, x, place[j][i]);
    }
  }

  lemma SameKeySamePlace(union: seq<Entry>, x: nat, y: nat)
    requires Sorted(union) && x < |union| && y < |union| && union[x] == union[y]
    ensures x == y
  {}

  lemma LessIsPlace(union: seq<Entry>, x: nat, y: nat)
    requires Sorted(union) && x < |union| && y < |union|
    ensures Less(union[x].key, union[y].key) <==> x < y
  {}

  // -------------------------------------------------------------- the cursor

  /** The children of the iterator stand just past the first `n` entries of the union ... */
  ghost predicate AheadOf(children: seq<InternalIterator>, place: seq<seq<nat>>, n: nat)
    requires |place| == |children|
    reads children
  {
    forall j :: 0 <= j < |children| ==> ChildAhead(children[j].pos, place[j], n)
  }

  ghost predicate ChildAhead(pos: nat, place: seq<nat>, n: nat) {
    forall i :: 0 <= i < |place| ==> (i < pos <==> place[i] < n)
  }

  /** ... or on the last of them that each child has. */
  ghost predicate Behind(children: seq<InternalIterator>, place: seq<seq<nat>>, n: nat)
    requires |place| == |children|
    reads children
  {
    forall j :: 0 <= j < |children| ==> ChildBehind(children[j].pos, place[j], n)
  }

  ghost predicate ChildBehind(pos: nat, place: seq<nat>, n: nat) {
    forall i :: 0 <= i < |place| ==> (pos < |place| && i <= pos <==> place[i] < n)
  }

  datatype Direction = Forward | Reverse

  class MergingIterator {
    const children: seq<InternalIterator>
    var current: Option<nat>
    var direction: Direction
    ghost const union: seq<Entry>
    ghost const place: seq<seq<nat>>

    constructor (children: seq<InternalIterator>)
      requires forall i, j :: 0 <= i < j < |children| ==> children[i] != children[j]
      requires Runs(Entries(children))
      ensures this.children == children && union == Union(Entries(children))
      ensures Consistent() && Position() == |union|
    {
      UnionIsSorted(Entries(children));
      ghost var spots := Places(Entries(children), Union(Entries(children)));
      PlacesIncrease(Entries(children), Union(Entries(children)), spots);
      PlacesAreSeparate(Entries(children), Union(Entries(children)), spots);
      PlacesCover(Entries(children), Union(Entries(children)), spots);
      this.children, current, direction := children, None, Forward;
      union := Union(Entries(children));
      place := spots;
    }

    static function Entries(children: seq<InternalIterator>): seq<seq<Entry>> {
      seq(|children|, j requires 0 <= j < |children| => children[j].entries)
    }

    ghost predicate Built() {
      && (forall i, j :: 0 <= i < j < |children| ==> children[i] != children[j])
      && Standing(Entries(children), union, place)
      && Increasing(place) && Separate(place) && Covering(place, |union|)
    }

    /** The child-position invariant: moving forward every other child is strictly after the key, in reverse before. */
    ghost predicate Consistent()
      reads this, children
    {
      && Built()
      && (current.Some? ==>
            && current.value < |children| && children[current.value].Valid()
            && if direction.Forward? then AheadOf(children, place, At()) else Behind(children, place, At() + 1))
    }

    ghost function At(): nat
      reads this, children
      requires Built() && current.Some? && current.value < |children| && children[current.value].Valid()
    {
      place[current.value][children[current.value].pos]
    }

    /** The place of the cursor in the union; its length when off either end. */
    ghost function Position(): nat
      reads this, children
      requires Consistent()
    {
      if current.Some? then At() else |union|
    }

    predicate Valid()
      reads this
    {
      current.Some?
    }

    function Key(): InternalKey
      reads this, children
      requires Consistent() && Valid()
      ensures Key() == union[Position()].key
    {
      children[current.value].Key()
    }

    method FindSmallest(ghost n: nat)
      requires Built() && AheadOf(children, place, n) && n <= |union| && direction.Forward?
      modifies this`current
      ensures Consistent() && Position() == n
    {
      var smallest: Option<nat> := None;
      var i := 0;
      while i < |children|
        invariant 0 <= i <= |children|
        invariant smallest.None? ==> forall j :: 0 <= j < i ==> !children[j].Valid()
        invariant smallest.Some? ==> smallest.value < i && children[smallest.value].Valid()
        invariant smallest.Some? ==>
          forall j :: 0 <= j < i && children[j].Valid() ==>
            place[smallest.value][children[smallest.value].pos] <= place[j][children[j].pos]
      {
        if children[i].Valid() {
          if smallest.None? {
            smallest := Some(i);
          } else {
            LessIsPlace(union, place[i][children[i].pos], place[smallest.value][children[smallest.value].pos]);
            if Less(children[i].Key(), children[smallest.value].Key()) {
              smallest := Some(i);
            }
          }
        }
        i := i + 1;
      }
      current := smallest;
      if n < |union| {
        assert Held(place, n);
      }
    }

    lemma LastBehind(n: nat) returns (j: nat)
      requires Built() && Behind(children, place, n) && 0 < n <= |union|
      ensures j < |children| && children[j].Valid() && place[j][children[j].pos] == n - 1
    {
      assert Held(place, n - 1);
      var i: nat;
      j, i :| Holds(place, n - 1, j, i);
      assert ChildBehind(children[j].pos, place[j], n);
    }

    method FindLargest(ghost n: nat)
      requires Built() && Behind(children, place, n) && n <= |union| && direction.Reverse?
      modifies this`current
      ensures Consistent() && Position() == if n == 0 then |union| else n - 1
    {
      hide Covering, Held, Holds, Separate, Increasing;
      var largest: Option<nat> := None;
      var i := |children|;
      while i > 0
        invariant 0 <= i <= |children|
        invariant largest.None? ==> forall j :: i <= j < |children| ==> !children[j].Valid()
        invariant largest.Some? ==> i <= largest.value < |children| && children[largest.value].Valid()
        invariant largest.Some? ==>
          forall j :: i <= j < |children| && children[j].Valid() ==>
            place[j][children[j].pos] <= place[largest.value][children[largest.value].pos]
      {
        i := i - 1;
        if children[i].Valid() {
          if largest.None? {
            largest := Some(i);
          } else {
            LessIsPlace(union, place[largest.value][children[largest.value].pos], place[i][children[i].pos]);
            if Less(children[largest.value].Key(), children[i].Key()) {
              largest := Some(i);
            }
          }
        }
      }
      current := largest;
      if n > 0 {
        ghost var j := LastBehind(n);
      }
    }

    method SeekToFirst()
      requires Consistent()
      modifies this, children
      ensures Consistent() && Position() == 0
    {
      var i := 0;
      while i < |children|
        invariant 0 <= i <= |children|
        invariant forall j :: 0 <= j < i ==> children[j].pos == 0
      {
        children[i].SeekToFirst();
        i := i + 1;
      }
      direction := Forward;
      FindSmallest(0);
    }

    method SeekToLast()
      requires Consistent()
      modifies this, children
      ensures Consistent() && Position() == if |union| == 0 then 0 else |union| - 1
    {
      var i := 0;
      while i < |children|
        invariant 0 <= i <= |children|
        invariant forall j :: 0 <= j < i ==> ChildBehind(children[j].pos, place[j], |union|)
      {
        children[i].SeekToLast();
        i := i + 1;
      }
      direction := Reverse;
      FindLargest(|union|);
    }

    method Seek(target: InternalKey)
      requires Consistent()
      modifies this, children
      ensures Consistent() && Position() == SeekIndex(union, target)
    {
      var i := 0;
      while i < |children|
        invariant 0 <= i <= |children|
        invariant forall j :: 0 <= j < i ==> ChildAhead(children[j].pos, place[j], SeekIndex(union, target))
      {
        RunIsSorted(i);
        SeekDivides(children[i].entries, target);
        SeekDivides(union, target);
        assert children[i].entries == Entries(children)[i];
        children[i].Seek(target);
        i := i + 1;
      }
      direction := Forward;
      FindSmallest(SeekIndex(union, target));
    }

    lemma RunIsSorted(j: nat)
      requires Built() && j < |children|
      ensures Sorted(children[j].entries)
    {
      forall h, i | 0 <= h < i < |children[j].entries|
        ensures Precedes(children[j].entries[h].key, children[j].entries[i].key)
      {
        assert children[j].entries == Entries(children)[j];
        assert place[j][h] < place[j][i];
      }
    }

    lemma KeysArePlaces(j: nat, x: nat)
      requires Built() && j < |children| && x < |union|
      ensures |place[j]| == |children[j].entries|
      ensures forall i :: 0 <= i < |place[j]| ==>
        && (Less(children[j].entries[i].key, union[x].key) <==> place[j][i] < x)
        && (Less(union[x].key, children[j].entries[i].key) <==> x < place[j][i])
    {
      assert children[j].entries == Entries(children)[j];
      forall i | 0 <= i < |place[j]|
        ensures Less(children[j].entries[i].key, union[x].key) <==> place[j][i] < x
        ensures Less(union[x].key, children[j].entries[i].key) <==> x < place[j][i]
      {
        LessIsPlace(union, place[j][i], x);
        LessIsPlace(union, x, place[j][i]);
      }
    }

    /** Put child `i` just past every entry up to the key. */
    method PassKey(i: nat, key: InternalKey)
      requires i < |children| && Sorted(children[i].entries)
      modifies children[i]
      ensures forall k :: 0 <= k < |children[i].entries| ==>
        (k < children[i].pos <==> !Less(key, children[i].entries[k].key))
    {
      SeekDivides(children[i].entries, key);
      children[i].Seek(key);
      if children[i].Valid() && children[i].Key() == key {
        children[i].Next();
      }
    }

    /** Put child `i` on its last entry before the key. */
    method StopBelow(i: nat, key: InternalKey)
      requires i < |children| && Sorted(children[i].entries)
      modifies children[i]
      ensures forall k :: 0 <= k < |children[i].entries| ==>
        (children[i].Valid() && k <= children[i].pos <==> Less(children[i].entries[k].key, key))
    {
      SeekDivides(children[i].entries, key);
      children[i].Seek(key);
      if children[i].Valid() {
        children[i].Prev();
      } else {
        children[i].SeekToLast();
      }
    }

    method PassKeyAt(i: nat, key: InternalKey, ghost at: nat)
      requires Built() && i < |children| && at < |union| && key == union[at].key
      modifies children[i]
      ensures ChildAhead(children[i].pos, place[i], at + 1)
    {
      RunIsSorted(i);
      PassKey(i, key);
      KeysArePlaces(i, at);
    }

    method StopBelowAt(i: nat, key: InternalKey, ghost at: nat)
      requires Built() && i < |children| && at < |union| && key == union[at].key
      modifies children[i]
      ensures ChildBehind(children[i].pos, place[i], at)
    {
      RunIsSorted(i);
      StopBelow(i, key);
      KeysArePlaces(i, at);
    }

    /** Put every child but the current one just past the key. */
    method PassKeyInOthers(ghost at: nat)
      requires Consistent() && Valid() && at == At()
      modifies children
      ensures children[current.value].pos == old(children[current.value].pos)
      ensures forall j :: 0 <= j < |children| && j != current.value ==> ChildAhead(children[j].pos, place[j], at + 1)
    {
      var i, key := 0, Key();
      while i < |children|
        invariant 0 <= i <= |children|
        invariant children[current.value].pos == old(children[current.value].pos)
        invariant forall j :: 0 <= j < i && j != current.value ==> ChildAhead(children[j].pos, place[j], at + 1)
      {
        if i != current.value {
          PassKeyAt(i, key, at);
        }
        i := i + 1;
      }
    }

    /** Put every child but the current one on its last entry before the key. */
    method StopBelowInOthers(ghost at: nat)
      requires Consistent() && Valid() && at == At()
      modifies children
      ensures children[current.value].pos == old(children[current.value].pos)
      ensures forall j :: 0 <= j < |children| && j != current.value ==> ChildBehind(children[j].pos, place[j], at)
    {
      var i, key := 0, Key();
      while i < |children|
        invariant 0 <= i <= |children|
        invariant children[current.value].pos == old(children[current.value].pos)
        invariant forall j :: 0 <= j < i && j != current.value ==> ChildBehind(children[j].pos, place[j], at)
      {
        if i != current.value {
          StopBelowAt(i, key, at);
        }
        i := i + 1;
      }
    }

    method Next()
      requires Consistent() && Valid()
      modifies this, children
      ensures Consistent() && Position() == old(Position()) + 1
    {
      ghost var at := At();
      if direction != Forward {
        PassKeyInOthers(at);
        direction := Forward;
      }
      OthersDiffer();
      children[current.value].Next();
      FindSmallest(at + 1);
    }

    method Prev()
      requires Consistent() && Valid()
      modifies this, children
      ensures Consistent() && Position() == if old(Position()) == 0 then |union| else old(Position()) - 1
    {
      ghost var at := At();
      if direction != Reverse {
        StopBelowInOthers(at);
        direction := Reverse;
      }
      OthersDiffer();
      children[current.value].Prev();
      FindLargest(at);
    }

    /** Only the current child holds the place of the current entry. */
    lemma OthersDiffer()
      requires Built() && current.Some? && current.value < |children| && children[current.value].Valid()
      ensures forall j, i :: 0 <= j < |children| && j != current.value && 0 <= i < |place[j]| ==> place[j][i] != At()
      ensures forall i :: 0 <= i < |place[current.value]| ==>
        (i < children[current.value].pos <==> place[current.value][i] < At())
    {}
  }
}
