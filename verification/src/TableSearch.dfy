/** What an index of shortened separators finds, against a linear search of the whole table. */
module TableSearch {
  import opened Bytes
  import Keys
  import opened Coding
  import opened Comparators
  import opened Blocks

  predicate AtLeast(key: seq<Byte>, target: seq<Byte>) { !InternalLess(key, target) }

  /** The first entry at or after the target. */
  function LinearSearch(pairs: seq<Pair>, target: seq<Byte>): Keys.Option<Pair> {
    if pairs == [] then Keys.None
    else if AtLeast(pairs[0].key, target) then Keys.Some(pairs[0])
    else LinearSearch(pairs[1..], target)
  }

  /** Every entry of a table, in order. */
  function Entries(blocks: seq<seq<Pair>>): seq<Pair> {
    if blocks == [] then [] else blocks[0] + Entries(blocks[1..])
  }

  /** Index of the first separator at or after the target. */
  function IndexSeek(separators: seq<seq<Byte>>, target: seq<Byte>): (i: nat)
    ensures i <= |separators|
    ensures forall k :: 0 <= k < i ==> InternalLess(separators[k], target)
    ensures i < |separators| ==> AtLeast(separators[i], target)
  {
    if separators == [] || AtLeast(separators[0], target) then 0 else 1 + IndexSeek(separators[1..], target)
  }

  /** Table::InternalGet: the block the index points to, unless its filter denies the target, and no other. */
  function InternalGet(blocks: seq<seq<Pair>>, separators: seq<seq<Byte>>, denied: nat -> bool, target: seq<Byte>): Keys.Option<Pair>
    requires |separators| == |blocks|
  {
    var i := IndexSeek(separators, target);
    if i == |blocks| || denied(i) then Keys.None else LinearSearch(blocks[i], target)
  }

  // ------------------------------------------------------------------- order

  ghost predicate Sorted(pairs: seq<Pair>) {
    && (forall i :: 0 <= i < |pairs| ==> |pairs[i].key| >= 8)
    && forall i, j :: 0 <= i < j < |pairs| ==> InternalLess(pairs[i].key, pairs[j].key)
  }

  function Last(block: seq<Pair>): seq<Byte>
    requires block != []
  {
    block[|block| - 1].key
  }

  /** A separator is at or after its block, before the next one, and shortened only between different user keys. */
  ghost predicate Separates(separator: seq<Byte>, block: seq<Pair>, next: seq<Pair>)
    requires block != []
  {
    && |separator| >= 8 && (separator == Last(block) || InternalLess(Last(block), separator))
    && (next != [] ==>
          && InternalLess(separator, next[0].key)
          && (separator == Last(block) || Less(User(separator), User(next[0].key))))
  }

  ghost predicate Separated(blocks: seq<seq<Pair>>, separators: seq<seq<Byte>>) {
    && |separators| == |blocks|
    && (forall i :: 0 <= i < |blocks| ==> blocks[i] != [] && Sorted(blocks[i]))
    && forall i :: 0 <= i < |blocks| ==> SeparatesAt(blocks, separators, i)
  }

  ghost predicate SeparatesAt(blocks: seq<seq<Pair>>, separators: seq<seq<Byte>>, i: nat)
    requires i < |blocks| == |separators| && blocks[i] != []
  {
    Separates(separators[i], blocks[i], if i + 1 < |blocks| then blocks[i + 1] else [])
  }

  /** The target is after the last entry of the block the index points to: the source then finds nothing. */
  ghost predicate InGap(blocks: seq<seq<Pair>>, separators: seq<seq<Byte>>, target: seq<Byte>)
    requires Separated(blocks, separators)
  {
    var i := IndexSeek(separators, target);
    i + 1 < |blocks| && InternalLess(Last(blocks[i]), target)
  }

  lemma {:induction false} SearchOfAppend(a: seq<Pair>, b: seq<Pair>, target: seq<Byte>)
    ensures LinearSearch(a + b, target) == if LinearSearch(a, target).Some? then LinearSearch(a, target) else LinearSearch(b, target)
  {
    hide InternalLess;
    if a == [] {
      assert a + b == b;
    } else {
      SearchOfAppend(a[1..], b, target);
      assert (a + b)[1..] == a[1..] + b;
    }
  }

  lemma {:induction false} AllBefore(pairs: seq<Pair>, target: seq<Byte>)
    requires forall i :: 0 <= i < |pairs| ==> InternalLess(pairs[i].key, target)
    ensures LinearSearch(pairs, target) == Keys.None
  {
    hide InternalLess;
    if pairs != [] {
      AllBefore(pairs[1..], target);
    }
  }

  lemma {:induction false} SomeAtLeast(pairs: seq<Pair>, target: seq<Byte>, i: nat)
    requires i < |pairs| && AtLeast(pairs[i].key, target)
    ensures LinearSearch(pairs, target).Some?
  {
    hide InternalLess;
    if !AtLeast(pairs[0].key, target) {
      SomeAtLeast(pairs[1..], target, i - 1);
    }
  }

  /** A whole block before a separator before the target. */
  lemma BlockBefore(block: seq<Pair>, separator: seq<Byte>, target: seq<Byte>)
    requires block != [] && Sorted(block) && (separator == Last(block) || InternalLess(Last(block), separator))
    requires InternalLess(separator, target)
    ensures LinearSearch(block, target) == Keys.None
  {
    hide InternalLess;
    forall i | 0 <= i < |block|
      ensures InternalLess(block[i].key, target)
    {
      if separator != Last(block) {
        InternalIsTransitive(Last(block), separator, target);
      }
      if i < |block| - 1 {
        InternalIsTransitive(block[i].key, Last(block), target);
      }
    }
    AllBefore(block, target);
  }

  /**
   * What the index finds is the first entry at or after the target, unless the target is in the gap
   * before a separator: then it finds nothing, although the next block starts after the target.
   */
  lemma {:induction false} GetIsLinearSearch(blocks: seq<seq<Pair>>, separators: seq<seq<Byte>>, target: seq<Byte>)
    requires Separated(blocks, separators) && |target| >= 8
    ensures InternalGet(blocks, separators, _ => false, target)
      == if InGap(blocks, separators, target) then Keys.None else LinearSearch(Entries(blocks), target)
    ensures InternalGet(blocks, separators, _ => false, target) == LinearSearch(Entries(blocks), target)
      <==> !InGap(blocks, separators, target)
    ensures InGap(blocks, separators, target) ==>
      LinearSearch(Entries(blocks), target) == Keys.Some(blocks[IndexSeek(separators, target) + 1][0])
    decreases |blocks|
  {
    hide InternalLess;
    if blocks != [] {
      var rest := blocks[1..];
      SearchOfAppend(blocks[0], Entries(rest), target);
      assert SeparatesAt(blocks, separators, 0);
      if InternalLess(separators[0], target) {
        TailSeparated(blocks, separators);
        GetIsLinearSearch(rest, separators[1..], target);
        BlockBefore(blocks[0], separators[0], target);
      } else if InternalLess(Last(blocks[0]), target) {
        BlockBefore(blocks[0], Last(blocks[0]), target);
        if rest != [] {
          NextAfterGap(separators[0], blocks[1], target);
          SearchOfAppend(rest[0], Entries(rest[1..]), target);
        }
      } else {
        SomeAtLeast(blocks[0], target, |blocks[0]| - 1);
      }
    }
  }

  lemma TailSeparated(blocks: seq<seq<Pair>>, separators: seq<seq<Byte>>)
    requires Separated(blocks, separators) && blocks != []
    ensures Separated(blocks[1..], separators[1..])
  {
    hide InternalLess;
    hide Separates, Sorted;
    forall i | 0 <= i < |blocks| - 1
      ensures SeparatesAt(blocks[1..], separators[1..], i)
    {
      assert SeparatesAt(blocks, separators, i + 1);
    }
  }

  lemma NextAfterGap(separator: seq<Byte>, next: seq<Pair>, target: seq<Byte>)
    requires next != [] && |next[0].key| >= 8 && |target| >= 8 && |separator| >= 8
    requires InternalLess(separator, next[0].key) && AtLeast(separator, target)
    ensures LinearSearch(next, target) == Keys.Some(next[0])
  {
    if InternalLess(next[0].key, target) {
      InternalIsTransitive(separator, next[0].key, target);
    }
  }

  lemma {:induction false} FoundIsIn(pairs: seq<Pair>, target: seq<Byte>)
    requires LinearSearch(pairs, target).Some?
    ensures LinearSearch(pairs, target).value in pairs
  {
    if !AtLeast(pairs[0].key, target) {
      FoundIsIn(pairs[1..], target);
    }
  }

  /** No gap hides an entry of the user key looked up. */
  lemma NoGapInUserKey(blocks: seq<seq<Pair>>, separators: seq<seq<Byte>>, target: seq<Byte>)
    requires Separated(blocks, separators) && |target| >= 8 && InGap(blocks, separators, target)
    ensures User(blocks[IndexSeek(separators, target) + 1][0].key) != User(target)
  {
    hide Less, Sorted;
    assert SeparatesAt(blocks, separators, IndexSeek(separators, target));
  }

  /** Some entry of the block is of the target's user key. */
  ghost predicate HasUser(block: seq<Pair>, target: seq<Byte>) {
    exists p :: p in block && User(p.key) == User(target)
  }

  /**
   * A filter may hide an entry at or after the target, but with filters that deny only blocks without
   * the target's user key a lookup of that user key finds what a linear search finds.
   */
  lemma UserKeyIsFound(blocks: seq<seq<Pair>>, separators: seq<seq<Byte>>, denied: nat -> bool, target: seq<Byte>)
    requires Separated(blocks, separators) && |target| >= 8
    requires forall i :: 0 <= i < |blocks| && denied(i) ==> !HasUser(blocks[i], target)
    ensures var found, got := LinearSearch(Entries(blocks), target), InternalGet(blocks, separators, denied, target);
      && (got == Keys.None || got == found)
      && (found.Some? && User(found.value.key) == User(target) ==> got == found)
  {
    hide InternalLess;
    GetIsLinearSearch(blocks, separators, target);
    var found := LinearSearch(Entries(blocks), target);
    if found.Some? && User(found.value.key) == User(target) {
      if InGap(blocks, separators, target) {
        NoGapInUserKey(blocks, separators, target);
      } else {
        FoundIsIn(blocks[IndexSeek(separators, target)], target);
      }
    }
  }

  /** With a filter, an entry is missed exactly in a gap and where the block the index points to is denied. */
  lemma MissedExactly(blocks: seq<seq<Pair>>, separators: seq<seq<Byte>>, denied: nat -> bool, target: seq<Byte>)
    requires Separated(blocks, separators) && |target| >= 8
    ensures InternalGet(blocks, separators, denied, target) == LinearSearch(Entries(blocks), target)
      <==> (InGap(blocks, separators, target) || denied(IndexSeek(separators, target)) ==>
             LinearSearch(Entries(blocks), target) == Keys.None)
  {
    hide InternalLess, LinearSearch;
    GetIsLinearSearch(blocks, separators, target);
  }

  lemma TwoBlocks(first: seq<Byte>, separator: seq<Byte>, second: seq<Byte>, target: seq<Byte>)
    requires |first| >= 8 && |separator| >= 8 && |second| >= 8 && |target| >= 8
    requires InternalLess(first, separator) && InternalLess(separator, second) && Less(User(separator), User(second))
    requires InternalLess(first, target) && InternalLess(target, separator)
    ensures var blocks, separators := [[Pair(first, [])], [Pair(second, [])]], [separator, second];
      && Separated(blocks, separators)
      && InternalGet(blocks, separators, _ => false, target) == Keys.None
      && LinearSearch(Entries(blocks), target) == Keys.Some(Pair(second, []))
  {
    hide InternalLess, Less;
    var blocks, separators := [[Pair(first, [])], [Pair(second, [])]], [separator, second];
    assert SeparatesAt(blocks, separators, 0);
    assert SeparatesAt(blocks, separators, 1);
    InternalIsTotal(target, separator);
    assert IndexSeek(separators, target) == 0;
    GetIsLinearSearch(blocks, separators, target);
  }

  /** The builder's own separator leaves a gap: between bytes 1 1 1 and 3 it is 2, and 1 2 falls before it. */
  lemma GapHappens()
    ensures var first, separator, second, target :=
        Internal([1, 1, 1], 1), Internal([2], MAX_TAG), Internal([3], 1), Internal([1, 2], 1);
      var blocks, separators := [[Pair(first, [])], [Pair(second, [])]], [separator, second];
      && Separated(blocks, separators)
      && InternalGet(blocks, separators, _ => false, target) == Keys.None
      && LinearSearch(Entries(blocks), target) == Keys.Some(Pair(second, []))
  {
    InternalParts([1, 1, 1], 1);
    InternalParts([3], 1);
    InternalParts([2], MAX_TAG);
    InternalParts([1, 2], 1);
    CommonIs([1, 1, 1], [1, 2], 1);
    CommonIs([1, 1, 1], [2], 0);
    CommonIs([2], [3], 0);
    CommonIs([1, 2], [2], 0);
    hide Internal;
    TwoBlocks(Internal([1, 1, 1], 1), Internal([2], MAX_TAG), Internal([3], 1), Internal([1, 2], 1));
  }
}
