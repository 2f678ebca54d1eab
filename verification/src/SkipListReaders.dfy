/** Searches of db/skiplist.h that run while Insert links its node: every interleaving of their reads and its stores. */
module SkipListReaders {
  import opened SkipLists

  /** FindGreaterOrEqual, FindLessThan, FindLast, and a step of an iterator; from the head it is SeekToFirst. */
  datatype Goal = AtOrAfter(key: Key) | Before(key: Key) | Last | Following(from: Node)

  /** The local variables of a search between two of its reads, or what it returned. */
  datatype Search = Looking(goal: Goal, x: Node, level: nat) | Done(goal: Goal, found: Node?)

  /** The local variables of Insert between two of its stores. */
  datatype Writer =
    | Resting
    | Raising(key: Key, height: nat, prev: seq<Node>)
    | Linking(x: Node, prev: seq<Node>, i: nat, linked: bool)

  ghost predicate StrictlyUp(keys: seq<Key>) {
    forall i, j :: 0 <= i < j < |keys| ==> keys[i] < keys[j]
  }

  /** The answer to a search of a list that holds `keys` and starts at `head`. */
  ghost predicate Right(keys: seq<Key>, head: Node, goal: Goal, found: Node?) {
    match goal
    case AtOrAfter(key) =>
      if found == null then forall k :: k in keys ==> k < key
      else found.key in keys && key <= found.key && forall k :: k in keys && key <= k ==> found.key <= k
    case Before(key) =>
      found != null &&
      if found == head then forall k :: k in keys ==> key <= k
      else found.key in keys && found.key < key && forall k :: k in keys && k < key ==> k <= found.key
    case Last =>
      found != null &&
      if found == head then keys == []
      else found.key in keys && forall k :: k in keys ==> k <= found.key
    case Following(from) =>
      if found == null then forall k :: k in keys ==> from != head && k <= from.key
      else
        && found.key in keys && (from != head ==> from.key < found.key)
        && forall k :: k in keys && (from != head ==> from.key < k) ==> found.key <= k
  }

  /** Where a search may be: on a node of its level that lies before what it looks for. */
  ghost predicate Stands(head: Node, chains: seq<seq<Node>>, s: Search)
    requires s.Looking?
  {
    && s.level < |chains| && s.x in chains[s.level]
    && match s.goal
       case AtOrAfter(key) => s.x == head || s.x.key < key
       case Before(key) => s.x == head || s.x.key < key
       case Last => true
       case Following(from) => s.level == 0 && s.x == from
  }

  /** KeyIsAfterNode and its like: the search goes on along its level. */
  predicate GoesOn(goal: Goal, next: Node?) {
    next != null &&
    match goal
    case AtOrAfter(key) => next.key < key
    case Before(key) => next.key < key
    case Last => true
    case Following(_) => false
  }

  /** What a search does with the link it has read: move right, drop a level or return. */
  function Seen(s: Search, next: Node?): Search
    requires s.Looking?
  {
    if GoesOn(s.goal, next) then Looking(s.goal, next, s.level)
    else if s.level > 0 && !s.goal.Following? then Looking(s.goal, s.x, s.level - 1)
    else Done(s.goal, if s.goal.AtOrAfter? || s.goal.Following? then next else s.x)
  }

  /** A lower level, or further along the same. */
  ghost predicate Nearer(chains: seq<seq<Node>>, s: Search, t: Search)
    requires s.Looking? && t.Looking?
  {
    || t.level < s.level
    || (t.level == s.level < |chains|
        && exists p, q :: At(chains[s.level], p, s.x) && At(chains[s.level], q, t.x) && p < q)
  }

  ghost predicate At(chain: seq<Node>, p: nat, x: Node) { p < |chain| && chain[p] == x }

  /** One read of a link. A search that returns has read the list as it is now. */
  method Look(list: SkipList, s: Search) returns (t: Search)
    requires list.Valid() && s.Looking? && Stands(list.head, list.chains, s)
    ensures t.goal == s.goal && (t.Looking? ==> Stands(list.head, list.chains, t) && Nearer(list.chains, s, t))
    ensures t.Done? ==> Right(list.Keys(), list.head, s.goal, t.found)
    ensures t.Done? && t.found != null ==> t.found in list.chains[0]
  {
    ghost var p: nat :| p < |list.chains[s.level]| && list.chains[s.level][p] == s.x;
    list.NextIs(s.level, p);
    list.HeadIs(0);
    t := Seen(s, s.x.next[s.level]);
    if t.Done? {
      assert s.level == 0;
      Returns(list, s, p);
    } else {
      StaysBefore(list, s, p);
    }
  }

  lemma StaysBefore(list: SkipList, s: Search, p: nat)
    requires list.Valid() && s.Looking? && Stands(list.head, list.chains, s) && p < |list.chains[s.level]| && list.chains[s.level][p] == s.x
    requires Seen(s, After(list.chains[s.level], p)).Looking?
    ensures var t := Seen(s, After(list.chains[s.level], p)); Stands(list.head, list.chains, t) && Nearer(list.chains, s, t)
  {
    if GoesOn(s.goal, After(list.chains[s.level], p)) {
      assert At(list.chains[s.level], p, s.x) && At(list.chains[s.level], p + 1, After(list.chains[s.level], p));
    } else {
      assert list.OverLevelBelow(s.level);
    }
  }

  lemma Returns(list: SkipList, s: Search, p: nat)
    requires list.Valid() && s.Looking? && Stands(list.head, list.chains, s) && s.level == 0
    requires p < |list.chains[0]| && list.chains[0][p] == s.x
    ensures var t := Seen(s, After(list.chains[0], p));
      t.Done? ==> Right(list.Keys(), list.head, s.goal, t.found)
  {
    assert list.Linked(0);
    hide SkipList.Linked, SkipList.OverLevelBelow;
    var chain := list.chains[0];
    assert forall i :: 1 <= i < |chain| ==> list.Keys()[i - 1] == chain[i].key;
    if p > 0 {
      assert chain[p] != chain[0];
    }
    Divided(chain, p);
  }

  /** Every key is at most that of a place or at least that of the next one. */
  lemma Divided(chain: seq<Node>, p: nat)
    requires Ascending(chain) && p < |chain|
    ensures p > 0 ==> chain[p].key in KeysOf(chain)
    ensures p + 1 < |chain| ==> chain[p + 1].key in KeysOf(chain)
    ensures forall k :: k in KeysOf(chain) ==>
      (p > 0 && k <= chain[p].key) || (p + 1 < |chain| && chain[p + 1].key <= k)
  {
    if p > 0 {
      assert KeysOf(chain)[p - 1] == chain[p].key;
    }
    if p + 1 < |chain| {
      assert KeysOf(chain)[p] == chain[p + 1].key;
    }
    forall k | k in KeysOf(chain)
      ensures (p > 0 && k <= chain[p].key) || (p + 1 < |chain| && chain[p + 1].key <= k)
    {
      var i :| 0 <= i < |KeysOf(chain)| && KeysOf(chain)[i] == k;
      assert chain[i + 1].key == k;
    }
  }

  // ------------------------------------------------------------ interleavings

  /** What may happen next: a search or an Insert begins, or one that has begun takes its next step. */
  datatype Event =
    | BeginSearch(goal: Goal)
    | BeginAtHead
    | BeginAfter(r: nat)
    | LookOn(r: nat)
    | BeginInsert(key: Key, height: nat)
    | Store

  /** The list went from `a` to `b` by one insertion. */
  ghost predicate OneMore(a: seq<Key>, b: seq<Key>) {
    StrictlyUp(b) && exists p: nat, key :: p <= |a| && key !in a && b == a[..p] + [key] + a[p..]
  }

  ghost predicate Growing(versions: seq<seq<Key>>) {
    versions != [] && forall v :: 0 <= v < |versions| - 1 ==> OneMore(versions[v], versions[v + 1])
  }

  lemma OneMoreKey(chain: seq<Node>, p: nat, x: Node)
    requires p < |chain| && Ascending(chain) && Ascending(Inserted(chain, p, x))
    requires forall k :: 1 <= k < |chain| ==> chain[k].key != x.key
    ensures OneMore(KeysOf(chain), KeysOf(Inserted(chain, p, x)))
  {
    var keys := KeysOf(chain);
    assert KeysOf(Inserted(chain, p, x)) == keys[..p] + [x.key] + keys[p..];
  }

  lemma GrowsBy(versions: seq<seq<Key>>, keys: seq<Key>)
    requires Growing(versions) && OneMore(versions[|versions| - 1], keys)
    ensures Growing(versions + [keys])
  {
    hide OneMore;
  }

  /** A running search stands well; a finished one was right about the list at its last read. */
  ghost predicate GoodSearch(head: Node, chains: seq<seq<Node>>, versions: seq<seq<Key>>, s: Search, since: nat, at: nat) {
    && since <= at < |versions|
    && match s
       case Looking(_, _, _) => Stands(head, chains, s)
       case Done(goal, found) =>
         && Right(versions[at], head, goal, found)
         && (found != null ==> 0 < |chains| && found in chains[0])
  }

  ghost predicate GoodSearches(head: Node, chains: seq<seq<Node>>, versions: seq<seq<Key>>,
                               searches: seq<Search>, since: seq<nat>, at: seq<nat>)
  {
    && |since| == |at| == |searches|
    && forall r :: 0 <= r < |searches| ==> GoodSearch(head, chains, versions, searches[r], since[r], at[r])
  }

  /** Publishing a node on a level takes none away: every search still stands where it may. */
  lemma SearchesStay(head: Node, chains: seq<seq<Node>>, i: nat, p: nat, x: Node, before: seq<seq<Key>>, after: seq<seq<Key>>,
                     searches: seq<Search>, since: seq<nat>, at: seq<nat>)
    requires i < |chains| && p < |chains[i]| && before <= after
    requires GoodSearches(head, chains, before, searches, since, at)
    ensures GoodSearches(head, chains[i := Inserted(chains[i], p, x)], after, searches, since, at)
  {
    InsertedKeeps(chains[i], p, x);
    hide Inserted, Right;
    var linked := chains[i := Inserted(chains[i], p, x)];
    forall r | 0 <= r < |searches|
      ensures GoodSearch(head, linked, after, searches[r], since[r], at[r])
    {
      assert GoodSearch(head, chains, before, searches[r], since[r], at[r]);
    }
  }

  lemma InsertedKeeps(chain: seq<Node>, p: nat, x: Node)
    requires p < |chain|
    ensures forall n :: n in chain ==> n in Inserted(chain, p, x)
  {
    forall k | 0 <= k < |chain|
      ensures chain[k] in Inserted(chain, p, x)
    {
      assert chain[k] == Inserted(chain, p, x)[if k <= p then k else k + 1];
    }
  }

  /** A skip list with one writer, which its callers take care of, and any number of searches. */
  class Shared {
    const list: SkipList
    var writer: Writer
    var searches: seq<Search>
    // Where the writer's node goes; every content the list has had; for each search the one it
    // began with, and the one at its last read.
    ghost var cuts: seq<nat>
    ghost var versions: seq<seq<Key>>
    ghost var since: seq<nat>
    ghost var at: seq<nat>

    constructor ()
      ensures Valid() && fresh(list) && fresh(list.nodes) && searches == [] && versions == [[]]
    {
      list := new SkipList();
      writer, searches, cuts, since, at := Resting, [], [], [], [];
      versions := [[]];
    }

    ghost predicate WriterStands()
      requires list.Valid()
      reads this`writer, this`cuts, list, list.nodes
    {
      match writer
      case Resting => true
      case Raising(key, height, prev) =>
        && 1 <= height <= MAX_HEIGHT && key !in list.Keys()
        && list.Places(key, prev, cuts, 0, height)
      case Linking(x, prev, i, linked) =>
        && x in list.nodes && list.Joining(x, prev, cuts, i) && i < |x.next|
        && (linked ==> x.next[i] == After(list.chains[i], cuts[i]))
    }

    ghost predicate Valid()
      reads this, list, list.nodes
    {
      && list.Valid() && WriterStands()
      && Growing(versions) && versions[|versions| - 1] == list.Keys()
      && GoodSearches(list.head, list.chains, versions, searches, since, at)
    }

    method Begin(goal: Goal)
      requires Valid() && (goal.Following? ==> 0 < |list.chains| && goal.from in list.chains[0])
      modifies `searches, `since, `at
      ensures Valid() && |searches| == old(|searches|) + 1 && searches[..|searches| - 1] == old(searches)
      ensures searches[|searches| - 1].goal == goal && since == old(since) + [|versions| - 1]
    {
      list.HeadIs(list.maxHeight - 1);
      var s := match goal
        case Following(from) => Looking(goal, from, 0)
        case _ => Looking(goal, list.head, list.maxHeight - 1);
      searches, since, at := searches + [s], since + [|versions| - 1], at + [|versions| - 1];
    }

    method LookOn(r: nat)
      requires Valid() && r < |searches| && searches[r].Looking?
      modifies `searches, `at
      ensures Valid() && |searches| == old(|searches|) && searches[r].goal == old(searches[r].goal)
      ensures forall q :: 0 <= q < |searches| && q != r ==> searches[q] == old(searches[q])
      ensures searches[r].Looking? ==> Nearer(list.chains, old(searches[r]), searches[r])
    {
      var s := Look(list, searches[r]);
      searches, at := searches[r := s], at[r := |versions| - 1];
    }

    /** Insert up to its first store: only the writer changes the list, so its own search is not disturbed. */
    method BeginInsert(key: Key, height: nat)
      requires Valid() && writer.Resting? && key !in list.Keys() && 1 <= height <= MAX_HEIGHT
      modifies `writer, `cuts
      ensures Valid() && writer.Raising? && writer.key == key && writer.height == height
    {
      var prev;
      prev, cuts := list.FindPlaces(key, height);
      writer := Raising(key, height, prev);
    }

    /** The next store of Insert. */
    method Store()
      requires Valid() && !writer.Resting?
      modifies this`writer, this`versions, list, list.nodes
      ensures Valid() && fresh(list.nodes - old(list.nodes))
      ensures match old(writer)
        case Resting => false
        case Raising(key, height, prev) =>
          && writer.Linking? && writer.x.key == key && |writer.x.next| == height && writer.i == 0 && !writer.linked
          && versions == old(versions)
        case Linking(x, prev, i, linked) =>
          if linked then Published(x, prev, i, old(versions))
          else writer == Linking(x, prev, i, true) && versions == old(versions)
    {
      match writer
      case Raising(key, height, prev) =>
        list.RaiseHeight(height);
        var x := list.NewMember(key, height);
        list.StartsJoining(x, prev, cuts);
        writer := Linking(x, prev, 0, false);
      case Linking(x, prev, i, linked) =>
        if !linked {
          list.SetOwnLink(i, x, prev, cuts);
          writer := Linking(x, prev, i, true);
        } else {
          PublishNode(x, prev, i);
        }
    }

    lemma NodeIsNext(x: Node, prev: seq<Node>, i: nat)
      requires Valid() && writer == Linking(x, prev, i, true)
      ensures cuts[i] < |list.chains[i]| && prev[i] in list.nodes
      ensures i == 0 ==> Growing(versions + [KeysOf(Inserted(list.chains[0], cuts[0], x))])
    {
      list.BeforeLink(i, x, cuts[i]);
      list.HeadIs(i);
      list.NextIs(i, 0);
      hide Inserted, Ascending, SkipList.Valid, Growing, OneMore, GoodSearches;
      if i == 0 {
        OneMoreKey(list.chains[0], cuts[0], x);
        GrowsBy(versions, KeysOf(Inserted(list.chains[0], cuts[0], x)));
      }
    }

    /** The node is on level `i`; the key is in the list from the lowest level on. */
    ghost predicate Published(x: Node, prev: seq<Node>, i: nat, before: seq<seq<Key>>)
      reads this`writer, this`versions, list, x
    {
      && i < |list.chains| && x in list.chains[i]
      && writer == (if i + 1 < |x.next| then Linking(x, prev, i + 1, false) else Resting)
      && versions == if i == 0 then before + [list.Keys()] else before
    }

    method PublishNode(x: Node, prev: seq<Node>, i: nat)
      requires Valid() && writer == Linking(x, prev, i, true)
      modifies this`writer, this`versions, list, list.nodes
      ensures Valid() && list.nodes == old(list.nodes) && Published(x, prev, i, old(versions))
    {
      ghost var was, p := list.chains, cuts[i];
      NodeIsNext(x, prev, i);
      hide Growing, OneMore, GoodSearches, SkipList.Valid, SkipList.Joining, Inserted, KeysOf;
      list.Publish(i, x, prev, cuts);
      if i == 0 {
        versions := versions + [list.Keys()];
      }
      InsertedHas(was[i], p, x);
      SearchesStay(list.head, was, i, p, x, old(versions), versions, searches, since, at);
      writer := if i + 1 < |x.next| then Linking(x, prev, i + 1, false) else Resting;
    }

    /** One event, if it is possible now. An iterator moves on from what a search of its has found. */
    method React(event: Event)
      requires Valid()
      modifies this, list, list.nodes
      ensures Valid() && fresh(list.nodes - old(list.nodes)) && Extends(old(versions), old(searches), old(since))
      ensures match event
        case BeginSearch(goal) => !goal.Following? ==> Begun(old(searches), goal)
        case BeginAtHead => Begun(old(searches), Following(list.head))
        case BeginAfter(r) =>
          old(r < |searches| && searches[r].Done? && searches[r].found != null) ==>
            Begun(old(searches), Following(old(searches[r].found)))
        case LookOn(r) =>
          old(r < |searches| && searches[r].Looking?) && searches[r].Looking? ==>
            Nearer(list.chains, old(searches[r]), searches[r])
        case BeginInsert(key, height) =>
          old(writer.Resting? && key !in list.Keys()) && 1 <= height <= MAX_HEIGHT ==>
            writer.Raising? && writer.key == key && writer.height == height
        case Store => old(!writer.Resting?) ==> writer != old(writer)
    {
      hide Growing, Right, SkipList.Linked, SkipList.OverLevelBelow, SkipList.Joining;
      match event
      case BeginSearch(goal) =>
        if !goal.Following? {
          Begin(goal);
        }
      case BeginAtHead =>
        list.HeadIs(0);
        Begin(Following(list.head));
      case BeginAfter(r) =>
        if r < |searches| && searches[r].Done? && searches[r].found != null {
          assert GoodSearch(list.head, list.chains, versions, searches[r], since[r], at[r]);
          Begin(Following(searches[r].found));
        }
      case LookOn(r) =>
        if r < |searches| && searches[r].Looking? {
          LookOn(r);
        }
      case BeginInsert(key, height) =>
        if writer.Resting? && 1 <= height <= MAX_HEIGHT {
          var present := list.Contains(key);
          if !present {
            BeginInsert(key, height);
          }
        }
      case Store =>
        if !writer.Resting? {
          Store();
        }
    }

    ghost predicate Begun(before: seq<Search>, goal: Goal)
      reads this`searches
    {
      |searches| == |before| + 1 && searches[..|before|] == before && searches[|before|].goal == goal
    }

    /** What was read stays read: contents are only added, and a search that has returned is done. */
    ghost predicate Extends(v: seq<seq<Key>>, s: seq<Search>, n: seq<nat>)
      reads this`versions, this`searches, this`since
    {
      && v <= versions && |s| == |n| && |s| <= |searches| && n <= since
      && forall r :: 0 <= r < |s| ==> searches[r].goal == s[r].goal && (s[r].Done? ==> searches[r] == s[r])
    }

    /**
     * Any interleaving of any number of inserts and searches: every search that has returned was right
     * about a content the list had between its first and its last read.
     */
    method Run(schedule: seq<Event>)
      requires Valid()
      modifies this, list, list.nodes
      ensures Valid() && Extends(old(versions), old(searches), old(since))
    {
      for n := 0 to |schedule|
        invariant Valid() && fresh(list.nodes - old(list.nodes)) && Extends(old(versions), old(searches), old(since))
      {
        hide Valid;
        React(schedule[n]);
      }
    }

    /** The same with the conclusion written out. */
    lemma SearchesAreRight(r: nat)
      requires Valid() && r < |searches| && searches[r].Done?
      ensures since[r] <= at[r] < |versions|
      ensures Right(versions[at[r]], list.head, searches[r].goal, searches[r].found)
    {
      assert GoodSearch(list.head, list.chains, versions, searches[r], since[r], at[r]);
    }

    /** A key whose Insert was published before a search began is found by it. */
    lemma PublishedIsFound(r: nat)
      requires Valid() && r < |searches| && searches[r].Done? && searches[r].goal.AtOrAfter?
      requires since[r] < |versions| && searches[r].goal.key in versions[since[r]]
      ensures searches[r].found != null && searches[r].found.key == searches[r].goal.key
    {
      SearchesAreRight(r);
      KeysStay(versions, since[r], at[r]);
    }
  }

  lemma {:induction false} KeysStay(versions: seq<seq<Key>>, a: nat, b: nat)
    requires Growing(versions) && a <= b < |versions|
    ensures forall k :: k in versions[a] ==> k in versions[b]
    decreases b
  {
    if a < b {
      KeysStay(versions, a, b - 1);
      MoreKeys(versions[b - 1], versions[b]);
    }
  }

  lemma MoreKeys(a: seq<Key>, b: seq<Key>)
    requires OneMore(a, b)
    ensures forall k :: k in a ==> k in b
  {
    var p: nat, key :| p <= |a| && key !in a && b == a[..p] + [key] + a[p..];
    forall i | 0 <= i < |a|
      ensures a[i] in b
    {
      assert b[if i < p then i else i + 1] == a[i];
    }
  }
}
