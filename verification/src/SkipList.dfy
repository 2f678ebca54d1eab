/** db/skiplist.h: nodes linked on several levels, inserted bottom-up while readers search. */
module SkipLists {
  // A key is its place in the order of the comparator.
  type Key = real

  const MAX_HEIGHT: nat := 12

  class Node {
    const key: Key
    var next: seq<Node?>

    constructor (key: Key, height: nat)
      ensures this.key == key && next == seq(height, _ => null)
    {
      this.key := key;
      next := seq(height, _ => null);
    }
  }

  /** A level: the head, then nodes in strictly increasing order. */
  ghost predicate Ascending(chain: seq<Node>) {
    chain != [] && forall i, j :: 1 <= i < j < |chain| ==> chain[i].key < chain[j].key
  }

  /** Place `p` is the last on the level before `key`; place 0 is the head. */
  ghost predicate IsCut(chain: seq<Node>, key: Key, p: nat) {
    && p < |chain|
    && (forall i :: 1 <= i <= p ==> chain[i].key < key)
    && forall i :: p < i < |chain| ==> key <= chain[i].key
  }

  function KeysOf(chain: seq<Node>): (keys: seq<Key>)
    ensures |keys| == if chain == [] then 0 else |chain| - 1
    ensures forall i :: 0 <= i < |keys| ==> keys[i] == chain[i + 1].key
  {
    if chain == [] then [] else seq(|chain| - 1, i requires 0 <= i < |chain| - 1 => chain[i + 1].key)
  }

  lemma CutFromNeighbours(chain: seq<Node>, key: Key, p: nat)
    requires Ascending(chain) && p < |chain| && (p > 0 ==> chain[p].key < key)
    requires p + 1 < |chain| ==> key <= chain[p + 1].key
    ensures IsCut(chain, key, p)
  {}

  ghost function After(chain: seq<Node>, i: nat): Node? {
    if i + 1 < |chain| then chain[i + 1] else null
  }

  ghost predicate Distinct(chain: seq<Node>) {
    forall i, j :: 0 <= i < j < |chain| ==> chain[i] != chain[j]
  }

  /** The node at place `i` of level `l` points to the one after it. */
  ghost predicate LinkedAt(chain: seq<Node>, i: nat, l: nat)
    requires i < |chain|
    reads chain[i]
  {
    l < |chain[i].next| && chain[i].next[l] == After(chain, i)
  }

  ghost function Inserted(chain: seq<Node>, p: nat, x: Node): seq<Node>
    requires p < |chain|
  {
    chain[..p + 1] + [x] + chain[p + 1..]
  }

  class SkipList {
    const head: Node
    var maxHeight: nat
    // The nodes on each level, the head first.
    ghost var chains: seq<seq<Node>>
    ghost var nodes: set<Node>

    ghost predicate Listed(l: nat)
      reads this`chains, this`nodes
      requires l < |chains|
    {
      && chains[l] != [] && chains[l][0] == head && Ascending(chains[l]) && Distinct(chains[l])
      && forall i :: 0 <= i < |chains[l]| ==> chains[l][i] in nodes
    }

    ghost predicate Linked(l: nat)
      reads this`chains, this`nodes, nodes
      requires l < |chains|
    {
      Listed(l) && forall i :: 0 <= i < |chains[l]| ==> LinkedAt(chains[l], i, l)
    }

    ghost predicate OverLevelBelow(l: nat)
      reads this`chains
      requires 1 <= l < |chains|
    {
      forall n :: n in chains[l] ==> n in chains[l - 1]
    }

    /** Every level is linked and sorted, a sublist of the one below, and empty above the height. */
    ghost predicate Valid()
      reads this, nodes
    {
      && 1 <= maxHeight <= MAX_HEIGHT && |chains| == MAX_HEIGHT && head in nodes
      && (forall l :: 0 <= l < MAX_HEIGHT ==> Linked(l))
      && (forall l :: 1 <= l < MAX_HEIGHT ==> OverLevelBelow(l))
      && forall l :: maxHeight <= l < MAX_HEIGHT ==> chains[l] == [head]
    }

    /** The keys in the list, in order. */
    ghost function Keys(): seq<Key>
      reads this
    {
      if |chains| == 0 then [] else KeysOf(chains[0])
    }

    constructor ()
      ensures Valid() && Keys() == [] && fresh(nodes)
    {
      head := new Node(0.0, MAX_HEIGHT);
      maxHeight := 1;
      new;
      chains := seq(MAX_HEIGHT, _ => [head]);
      nodes := {head};
    }

    /** The link out of the node at place `p` of a level. */
    lemma NextIs(l: nat, p: nat)
      requires Valid() && l < MAX_HEIGHT && p < |chains[l]|
      ensures Ascending(chains[l]) && chains[l][p] in nodes && l < |chains[l][p].next|
      ensures chains[l][p].next[l] == After(chains[l], p)
    {
      assert Linked(l) && LinkedAt(chains[l], p, l);
    }

    lemma HeadIs(l: nat)
      requires Valid() && l < MAX_HEIGHT
      ensures chains[l] != [] && chains[l][0] == head && head in chains[l]
    {
      assert Linked(l);
    }

    lemma PlaceBelow(l: nat, x: Node) returns (p: nat)
      requires Valid() && l + 1 < MAX_HEIGHT && x in chains[l + 1]
      ensures p < |chains[l]| && chains[l][p] == x && (p == 0 <==> x == head)
    {
      assert OverLevelBelow(l + 1) && Linked(l);
      p :| 0 <= p < |chains[l]| && chains[l][p] == x;
    }

    predicate KeyIsAfterNode(key: Key, n: Node?)
    {
      n != null && n.key < key
    }

    /** Where a search for `key` may stand: on a node of the level before the key. */
    ghost predicate ReaderAt(x: Node, level: nat, key: Key)
      reads this
    {
      level < |chains| && x in chains[level] && (x == head || x.key < key)
    }

    /** The first node at or after `key`, and the node before it on every level in use. */
    method FindGreaterOrEqual(key: Key) returns (found: Node?, prev: seq<Node>, ghost cuts: seq<nat>)
      requires Valid()
      ensures |prev| == |cuts| == maxHeight
      ensures forall l :: 0 <= l < maxHeight ==> IsCut(chains[l], key, cuts[l]) && prev[l] == chains[l][cuts[l]]
      ensures found == if cuts[0] + 1 < |chains[0]| then chains[0][cuts[0] + 1] else null
    {
      prev, cuts := [], [];
      var x := head;
      hide Linked, OverLevelBelow;
      var level := maxHeight - 1;
      HeadIs(level);
      ghost var p := 0;
      while true
        invariant 0 <= level < maxHeight && 0 <= p < |chains[level]| && chains[level][p] == x
        invariant ReaderAt(x, level, key) && (p > 0 ==> x.key < key)
        invariant |prev| == |cuts| == maxHeight - 1 - level
        invariant forall l :: level < l < maxHeight ==>
          IsCut(chains[l], key, cuts[l - level - 1]) && prev[l - level - 1] == chains[l][cuts[l - level - 1]]
        decreases level, |chains[level]| - p
      {
        NextIs(level, p);
        var next := x.next[level];
        if KeyIsAfterNode(key, next) {
          x := next;
          p := p + 1;
        } else {
          CutFromNeighbours(chains[level], key, p);
          prev, cuts := [x] + prev, [p] + cuts;
          if level == 0 {
            return next, prev, cuts;
          }
          level := level - 1;
          p := PlaceBelow(level, x);
        }
      }
    }

    /** The last node before `key`, or the head. */
    method FindLessThan(key: Key) returns (x: Node, ghost p: nat)
      requires Valid()
      ensures IsCut(chains[0], key, p) && x == chains[0][p]
    {
      x := head;
      hide Linked, OverLevelBelow;
      var level := maxHeight - 1;
      HeadIs(level);
      p := 0;
      while true
        invariant 0 <= level < maxHeight && 0 <= p < |chains[level]| && chains[level][p] == x
        invariant ReaderAt(x, level, key) && (p > 0 ==> x.key < key)
        decreases level, |chains[level]| - p
      {
        NextIs(level, p);
        var next := x.next[level];
        if next == null || next.key >= key {
          CutFromNeighbours(chains[level], key, p);
          if level == 0 {
            return;
          }
          level := level - 1;
          p := PlaceBelow(level, x);
        } else {
          x := next;
          p := p + 1;
        }
      }
    }

    /** The last node, or the head. */
    method FindLast() returns (x: Node)
      requires Valid()
      ensures chains[0] != [] && x == chains[0][|chains[0]| - 1]
    {
      x := head;
      hide Linked, OverLevelBelow;
      var level := maxHeight - 1;
      HeadIs(level);
      ghost var p := 0;
      while true
        invariant 0 <= level < maxHeight && 0 <= p < |chains[level]| && chains[level][p] == x && x in chains[level]
        decreases level, |chains[level]| - p
      {
        NextIs(level, p);
        var next := x.next[level];
        if next == null {
          if level == 0 {
            return;
          }
          level := level - 1;
          p := PlaceBelow(level, x);
        } else {
          x := next;
          p := p + 1;
        }
      }
    }

    /** A key of the list stands right after its cut. */
    lemma NotBetween(p: nat, key: Key)
      requires Valid() && IsCut(chains[0], key, p)
      ensures key in Keys() ==> p + 1 < |chains[0]| && chains[0][p + 1].key == key
    {
      assert Linked(0);
      if key in Keys() {
        var i: nat :| i < |Keys()| && Keys()[i] == key;
        assert chains[0][i + 1].key == key;
      }
    }

    method Contains(key: Key) returns (r: bool)
      requires Valid()
      ensures r <==> key in Keys()
    {
      ghost var cuts: seq<nat>;
      var x, prev;
      x, prev, cuts := FindGreaterOrEqual(key);
      r := x != null && x.key == key;
      assert IsCut(chains[0], key, cuts[0]);
      if r {
        assert Keys()[cuts[0]] == key;
      }
      NotBetween(cuts[0], key);
    }

    /** Node `x` is on the levels below `i`, and `prev` and `cuts` say where it goes on the others. */
    ghost predicate Joining(x: Node, prev: seq<Node>, cuts: seq<nat>, i: nat)
      reads this, x
    {
      && |chains| == MAX_HEIGHT && x in nodes && x != head
      && 1 <= |x.next| <= maxHeight <= MAX_HEIGHT && i <= |x.next| && Places(x.key, prev, cuts, i, |x.next|)
      && (forall l :: i <= l < MAX_HEIGHT ==> x !in chains[l])
      && (forall l, k :: i <= l < MAX_HEIGHT && 1 <= k < |chains[l]| ==> chains[l][k].key != x.key)
      && (i > 0 ==> x in chains[i - 1])
    }

    /** The first store of a linking step: the link out of the new node, which no reader follows yet. */
    method SetOwnLink(i: nat, x: Node, prev: seq<Node>, ghost cuts: seq<nat>)
      requires Valid() && Joining(x, prev, cuts, i) && i < |x.next|
      modifies x`next
      ensures Valid() && Joining(x, prev, cuts, i) && |x.next| == old(|x.next|)
      ensures x.next[i] == After(chains[i], cuts[i])
    {
      assert cuts[i] < |chains[i]|;
      hide Ascending, IsCut, Distinct;
      NextIs(i, cuts[i]);
      x.next := x.next[i := prev[i].next[i]];
      forall l | 0 <= l < MAX_HEIGHT
        ensures Linked(l)
      {
        assert old(Linked(l));
        forall k | 0 <= k < |chains[l]|
          ensures LinkedAt(chains[l], k, l)
        {
          assert old(LinkedAt(chains[l], k, l));
        }
      }
    }

    /** The second store publishes the new node on level `i`. No other level changes, and the list stays valid. */
    method Publish(i: nat, x: Node, prev: seq<Node>, ghost cuts: seq<nat>)
      requires Valid() && Joining(x, prev, cuts, i) && i < |x.next| && x.next[i] == After(chains[i], cuts[i])
      modifies {prev[i]}, `chains
      ensures Valid() && Joining(x, prev, cuts, i + 1) && x.next == old(x.next)
      ensures chains == old(chains)[i := Inserted(old(chains[i]), cuts[i], x)]
    {
      hide Linked, OverLevelBelow, Ascending, Distinct, Inserted;
      ghost var chain, p := chains[i], cuts[i];
      SetNext(i, x, prev[i], p);
      InsertedHas(chain, p, x);
    }

    method SetNext(i: nat, x: Node, before: Node, ghost p: nat)
      requires Valid() && i < maxHeight && x in nodes && x != head && i < |x.next|
      requires x !in chains[i] && (i + 1 < MAX_HEIGHT ==> x !in chains[i + 1]) && (i > 0 ==> x in chains[i - 1])
      requires IsCut(chains[i], x.key, p) && before == chains[i][p] && x.next[i] == After(chains[i], p)
      requires p + 1 < |chains[i]| ==> chains[i][p + 1].key != x.key
      modifies before, `chains
      ensures Valid() && x.next == old(x.next)
      ensures chains == old(chains)[i := Inserted(old(chains[i]), p, x)]
    {
      hide Ascending, IsCut, Distinct, Inserted;
      ghost var chain := chains[i];
      BeforeLink(i, x, p);
      before.next := before.next[i := x];
      chains := chains[i := Inserted(chain, p, x)];
      forall l | 0 <= l < MAX_HEIGHT
        ensures Linked(l)
      {
        assert old(Linked(l));
        if l == i {
          LinkedAfter(i, chain, p, x);
        } else {
          forall k | 0 <= k < |chains[l]|
            ensures LinkedAt(chains[l], k, l)
          {
            assert old(LinkedAt(chains[l], k, l));
          }
        }
      }
      forall l | 1 <= l < MAX_HEIGHT
        ensures OverLevelBelow(l)
      {
        assert old(OverLevelBelow(l));
      }
    }

    lemma {:induction false} LevelInBase(l: nat)
      requires Valid() && l < MAX_HEIGHT
      ensures forall n :: n in chains[l] ==> n in chains[0]
    {
      if l > 0 {
        assert OverLevelBelow(l);
        LevelInBase(l - 1);
      }
    }

    lemma KeyIsNowhere(key: Key)
      requires Valid() && key !in Keys()
      ensures forall l, i :: 0 <= l < MAX_HEIGHT && 1 <= i < |chains[l]| ==> chains[l][i].key != key
    {
      forall l, i | 0 <= l < MAX_HEIGHT && 1 <= i < |chains[l]|
        ensures chains[l][i].key != key
      {
        LevelInBase(l);
        assert Linked(l) && Linked(0);
        assert chains[l][i] in chains[0] && chains[l][0] == head;
        var j: nat :| j < |chains[0]| && chains[0][j] == chains[l][i];
        if j > 0 {
          assert Keys()[j - 1] == chains[l][i].key;
        }
      }
    }

    lemma KeysAfter(chain: seq<Node>, p: nat, x: Node)
      requires p < |chain|
      ensures KeysOf(Inserted(chain, p, x)) == KeysOf(chain)[..p] + [x.key] + KeysOf(chain)[p..]
    {}

    /** Where the new key goes on the levels from `i` up to its height. */
    ghost predicate Places(key: Key, prev: seq<Node>, cuts: seq<nat>, i: nat, height: nat)
      reads this`chains, this`nodes
    {
      && height <= |prev| == |cuts| && height <= |chains|
      && forall l :: i <= l < height ==> IsCut(chains[l], key, cuts[l]) && prev[l] == chains[l][cuts[l]] && prev[l] in nodes
    }

    /** The nodes before the key, and the head on levels not in use yet. */
    method FindPlaces(key: Key, height: nat) returns (prev: seq<Node>, ghost cuts: seq<nat>)
      requires Valid() && key !in Keys() && 1 <= height <= MAX_HEIGHT
      ensures Places(key, prev, cuts, 0, height)
    {
      var found;
      found, prev, cuts := FindGreaterOrEqual(key);
      forall l | 0 <= l < maxHeight
        ensures prev[l] in nodes
      {
        NextIs(l, cuts[l]);
      }
      while |prev| < height
        invariant maxHeight <= |prev| && Places(key, prev, cuts, 0, |prev|)
      {
        prev, cuts := prev + [head], cuts + [0];
      }
    }

    /** The store of max_height_, before any node is that high. */
    method RaiseHeight(height: nat)
      requires Valid() && 1 <= height <= MAX_HEIGHT
      modifies `maxHeight
      ensures Valid() && maxHeight == if height > old(maxHeight) then height else old(maxHeight)
    {
      if height > maxHeight {
        maxHeight := height;
      }
    }

    /** RandomHeight picks `height`. */
    method Insert(key: Key, height: nat) returns (ghost x: Node, ghost cuts: seq<nat>)
      requires Valid() && key !in Keys() && 1 <= height <= MAX_HEIGHT
      modifies this, nodes
      ensures Valid() && fresh(nodes - old(nodes)) && x.key == key && |x.next| == height
      ensures |cuts| >= height && forall l :: 0 <= l < height ==>
        IsCut(old(chains)[l], key, cuts[l]) && chains[l] == Inserted(old(chains)[l], cuts[l], x)
      ensures forall l :: height <= l < MAX_HEIGHT ==> chains[l] == old(chains)[l]
      ensures maxHeight == if height > old(maxHeight) then height else old(maxHeight)
      ensures var p := cuts[0]; p <= |old(Keys())| && Keys() == old(Keys())[..p] + [key] + old(Keys())[p..]
    {
      var prev;
      prev, cuts := FindPlaces(key, height);
      assert forall l :: 0 <= l < height ==> IsCut(chains[l], key, cuts[l]);
      hide Linked, OverLevelBelow, Inserted, IsCut, Ascending, Joining;
      RaiseHeight(height);
      var node := NewMember(key, height);
      x := node;
      StartsJoining(x, prev, cuts);
      LinkAll(node, prev, cuts);
      KeysAfter(old(chains[0]), cuts[0], x);
    }

    method NewMember(key: Key, height: nat) returns (x: Node)
      requires Valid()
      modifies `nodes
      ensures Valid() && fresh(x) && nodes == old(nodes) + {x} && x.key == key && |x.next| == height
      ensures forall l :: 0 <= l < MAX_HEIGHT ==> x !in chains[l]
    {
      x := new Node(key, height);
      AddNode(x);
    }

    lemma StartsJoining(x: Node, prev: seq<Node>, cuts: seq<nat>)
      requires Valid() && x in nodes && x != head && 1 <= |x.next| <= maxHeight && x.key !in Keys()
      requires forall l :: 0 <= l < MAX_HEIGHT ==> x !in chains[l]
      requires Places(x.key, prev, cuts, 0, |x.next|)
      ensures Joining(x, prev, cuts, 0)
    {
      KeyIsNowhere(x.key);
    }

    /** The linking loop of Insert: the new node joins each of its levels at its place, the lowest first. */
    method LinkAll(x: Node, prev: seq<Node>, ghost cuts: seq<nat>)
      requires Valid() && Joining(x, prev, cuts, 0)
      modifies nodes, `chains
      ensures Valid() && |chains| == old(|chains|) && |x.next| == old(|x.next|)
      ensures forall l :: 0 <= l < |x.next| ==> chains[l] == Inserted(old(chains)[l], cuts[l], x)
      ensures forall l :: |x.next| <= l < MAX_HEIGHT ==> chains[l] == old(chains)[l]
    {
      var i := 0;
      ghost var height := |x.next|;
      while i < |x.next|
        invariant 0 <= i <= height == |x.next|
        invariant Valid() && Joining(x, prev, cuts, i)
        invariant forall l :: i <= l < MAX_HEIGHT ==> chains[l] == old(chains)[l]
        invariant forall l :: 0 <= l < i ==> chains[l] == Inserted(old(chains)[l], cuts[l], x)
      {
        hide Linked, OverLevelBelow, Inserted, IsCut, Ascending;
        SetOwnLink(i, x, prev, cuts);
        Publish(i, x, prev, cuts);
        i := i + 1;
      }
    }

    ghost method AddNode(x: Node)
      requires Valid() && x !in nodes
      modifies `nodes
      ensures Valid() && nodes == old(nodes) + {x}
      ensures forall l :: 0 <= l < MAX_HEIGHT ==> x !in chains[l]
    {
      nodes := nodes + {x};
      forall l | 0 <= l < MAX_HEIGHT
        ensures Linked(l) && x !in chains[l]
      {
        assert old(Linked(l));
      }
    }

    lemma BeforeLink(i: nat, x: Node, p: nat)
      requires Valid() && i < MAX_HEIGHT && x in nodes && x !in chains[i] && IsCut(chains[i], x.key, p)
      requires p + 1 < |chains[i]| ==> chains[i][p + 1].key != x.key
      ensures p < |chains[i]| && LinkedAt(chains[i], p, i) && chains[i][p] in nodes
      ensures Ascending(Inserted(chains[i], p, x)) && Distinct(Inserted(chains[i], p, x))
      ensures Inserted(chains[i], p, x) != [] && Inserted(chains[i], p, x)[0] == head
      ensures forall n :: n in Inserted(chains[i], p, x) <==> n == x || n in chains[i]
      ensures forall h :: 0 <= h < |Inserted(chains[i], p, x)| ==> Inserted(chains[i], p, x)[h] in nodes
      ensures forall h :: 0 <= h < |chains[i]| && h != p ==> chains[i][h] != chains[i][p] && LinkedAt(chains[i], h, i)
    {
      assert Linked(i);
      InsertedIs(chains[i], p, x);
      assert forall h :: 0 <= h < |Inserted(chains[i], p, x)| ==> Inserted(chains[i], p, x)[h] in Inserted(chains[i], p, x);
    }

    lemma LinkedAfter(l: nat, chain: seq<Node>, p: nat, x: Node)
      requires l < |chains| && p < |chain| && chains[l] == Inserted(chain, p, x) && Listed(l)
      requires l < |x.next| && x.next[l] == After(chain, p) && l < |chain[p].next| && chain[p].next[l] == x
      requires forall h :: 0 <= h < |chain| && h != p ==> LinkedAt(chain, h, l)
      ensures Linked(l)
    {
      hide Ascending, Distinct;
      var c := chains[l];
      forall h | 0 <= h < |c|
        ensures LinkedAt(c, h, l)
      {
        if h < p {
          assert c[h] == chain[h] && LinkedAt(chain, h, l);
        } else if h > p + 1 {
          assert c[h] == chain[h - 1] && LinkedAt(chain, h - 1, l);
        }
      }
    }
  }

  /** Inserting at a cut keeps a level sorted and its nodes distinct, and adds exactly the new one. */
  lemma InsertedIs(chain: seq<Node>, p: nat, x: Node)
    requires Ascending(chain) && IsCut(chain, x.key, p) && (p + 1 < |chain| ==> chain[p + 1].key != x.key)
    requires Distinct(chain) && x !in chain
    ensures Ascending(Inserted(chain, p, x)) && Distinct(Inserted(chain, p, x))
    ensures Inserted(chain, p, x)[0] == chain[0]
    ensures forall n :: n in Inserted(chain, p, x) <==> n == x || n in chain
  {
    var c := Inserted(chain, p, x);
    forall i, j | 1 <= i < j < |c|
      ensures c[i].key < c[j].key
    {
      InsertedOrder(chain, p, x, i, j);
    }
  }

  lemma InsertedHas(chain: seq<Node>, p: nat, x: Node)
    requires p < |chain|
    ensures x in Inserted(chain, p, x)
  {
    assert Inserted(chain, p, x)[p + 1] == x;
  }

  lemma InsertedOrder(chain: seq<Node>, p: nat, x: Node, i: nat, j: nat)
    requires Ascending(chain) && IsCut(chain, x.key, p) && (p + 1 < |chain| ==> chain[p + 1].key != x.key)
    requires 1 <= i < j < |Inserted(chain, p, x)|
    ensures Inserted(chain, p, x)[i].key < Inserted(chain, p, x)[j].key
  {
    if i == p + 1 && j > p + 2 {
      assert chain[p + 1].key < chain[j - 1].key;
    }
  }

  /** SkipList::Iterator: a place in the list of keys, their number when off either end. */
  class Iterator {
    const list: SkipList
    var node: Node?
    ghost var place: nat

    constructor (list: SkipList)
      requires list.Valid()
      ensures this.list == list && Consistent() && Position() == |list.Keys()|
    {
      this.list, node, place := list, null, 0;
      new;
      assert list.Linked(0);
    }

    ghost predicate Consistent()
      reads this, list, list.nodes
    {
      list.Valid() && (node != null ==> place < |list.Keys()| && place + 1 < |list.chains[0]| && node == list.chains[0][place + 1])
    }

    ghost function Position(): nat
      reads this, list
    {
      if node != null then place else |list.Keys()|
    }

    predicate Valid()
      reads this
    {
      node != null
    }

    method Next()
      requires Consistent() && Valid()
      modifies this
      ensures Consistent() && Position() == old(Position()) + 1
    {
      list.NextIs(0, place + 1);
      node := node.next[0];
      place := place + 1;
    }

    /** There are no links back: search for the last node before the key. */
    method Prev()
      requires Consistent() && Valid()
      modifies this
      ensures Consistent()
      ensures Position() == if old(Position()) == 0 then |list.Keys()| else old(Position()) - 1
    {
      assert list.Linked(0);
      ghost var p;
      var x;
      x, p := list.FindLessThan(node.key);
      assert p == place;
      node := if x == list.head then null else x;
      place := if p == 0 then 0 else p - 1;
    }

    /** To the first key at or after the target. */
    method Seek(target: Key)
      requires Consistent()
      modifies this
      ensures Consistent()
      ensures forall i :: 0 <= i < |list.Keys()| ==> (list.Keys()[i] < target <==> i < Position())
    {
      assert list.Linked(0);
      ghost var cuts: seq<nat>;
      var x, prev;
      x, prev, cuts := list.FindGreaterOrEqual(target);
      assert IsCut(list.chains[0], target, cuts[0]);
      node, place := x, cuts[0];
    }

    method SeekToFirst()
      requires Consistent()
      modifies this
      ensures Consistent() && Position() == 0
    {
      assert list.Linked(0);
      list.NextIs(0, 0);
      node, place := list.head.next[0], 0;
    }

    method SeekToLast()
      requires Consistent()
      modifies this
      ensures Consistent() && Position() == if list.Keys() == [] then 0 else |list.Keys()| - 1
    {
      assert list.Linked(0);
      var x := list.FindLast();
      node := if x == list.head then null else x;
      place := if |list.chains[0]| < 2 then 0 else |list.chains[0]| - 2;
    }
  }
}
