/** table/filter_block.cc: one filter for every 2 KB of table, found by the offset of a data block. */
module Filters {
  import opened Bytes
  import opened Coding
  import Blocks
  import Bloom

  /** A FilterPolicy. */
  datatype Policy = Policy(create: seq<seq<Byte>> -> seq<Byte>, mayMatch: (seq<Byte>, seq<Byte>) -> bool) {
    /** A filter never denies a key it was made of. */
    ghost predicate Sound() {
      forall keys, key :: key in keys ==> mayMatch(key, create(keys))
    }

    /** What db/dbformat.cc makes of a policy for user keys: the same on the user part of internal keys. */
    ghost predicate IsBloom(bitsPerKey: nat, probes: nat, hash: Bloom.Hash) {
      && (forall keys :: |create(keys)| >= 2 && create(keys)[|create(keys)| - 1] as nat == probes)
      && (forall keys :: Bloom.Holds(create(keys)[..|create(keys)| - 1], keys, probes, hash))
      && forall key, filter :: mayMatch(key, filter) == Bloom.MayMatch(key, filter, hash)
    }
  }

  lemma BloomIsSound(policy: Policy, bitsPerKey: nat, probes: nat, hash: Bloom.Hash)
    requires policy.IsBloom(bitsPerKey, probes, hash)
    ensures policy.Sound()
  {
    forall keys, key | key in keys
      ensures policy.mayMatch(key, policy.create(keys))
    {
      Bloom.NoFalseNegatives(keys, key, policy.create(keys), probes, hash);
    }
  }

  const FILTER_BASE_LG: nat := 11
  const FILTER_BASE: nat := 2048

  // ------------------------------------------------------------------ format

  function Flat(keys: seq<seq<Byte>>): seq<Byte> {
    if keys == [] then [] else Flat(keys[..|keys| - 1]) + keys[|keys| - 1]
  }

  /** The filters of the groups one after the other; an empty group has no bytes. */
  function Filters(policy: Policy, groups: seq<seq<seq<Byte>>>, n: nat): seq<Byte>
    requires n <= |groups|
  {
    if n == 0 then []
    else Filters(policy, groups, n - 1) + if groups[n - 1] == [] then [] else policy.create(groups[n - 1])
  }

  function Offsets(policy: Policy, groups: seq<seq<seq<Byte>>>): (offsets: seq<nat>)
    ensures |offsets| == |groups|
  {
    seq(|groups|, i requires 0 <= i < |groups| => |Filters(policy, groups, i)|)
  }

  function Contents(policy: Policy, groups: seq<seq<seq<Byte>>>): seq<Byte> {
    var filters := Filters(policy, groups, |groups|);
    filters + Blocks.Words(Offsets(policy, groups)) + Fixed(|filters|, 4) + [FILTER_BASE_LG as Byte]
  }

  // ----------------------------------------------------------------- building

  class FilterBlockBuilder {
    const policy: Policy
    var keys: seq<Byte>
    var start: seq<nat>
    var result: seq<Byte>
    var filterOffsets: seq<nat>
    ghost var pending: seq<seq<Byte>>
    ghost var groups: seq<seq<seq<Byte>>>

    ghost predicate Valid()
      reads this
    {
      && keys == Flat(pending) && |start| == |pending|
      && (forall i :: 0 <= i < |pending| ==> start[i] == |Flat(pending[..i])|)
      && result == Filters(policy, groups, |groups|) && filterOffsets == Offsets(policy, groups)
    }

    constructor (policy: Policy)
      ensures Valid() && pending == [] && groups == [] && this.policy == policy
    {
      this.policy := policy;
      keys, start, result, filterOffsets := [], [], [], [];
      pending, groups := [], [];
    }

    /** Keys from here on belong to the block at `blockOffset`. */
    method StartBlock(blockOffset: nat)
      requires Valid() && blockOffset / FILTER_BASE >= |groups|
      modifies this
      ensures Valid() && |groups| == blockOffset / FILTER_BASE
      ensures if |groups| == old(|groups|) then groups == old(groups) && pending == old(pending)
        else pending == [] && groups[..old(|groups|)] == old(groups) && groups[old(|groups|)] == old(pending)
      ensures forall g :: old(|groups|) < g < |groups| ==> groups[g] == []
    {
      var filterIndex := blockOffset / FILTER_BASE;
      while filterIndex > |filterOffsets|
        invariant Valid() && |groups| <= filterIndex
        invariant if |groups| == old(|groups|) then groups == old(groups) && pending == old(pending)
          else |groups| > old(|groups|) && pending == [] && groups[..old(|groups|)] == old(groups) && groups[old(|groups|)] == old(pending)
        invariant forall g :: old(|groups|) < g < |groups| ==> groups[g] == []
        decreases filterIndex - |filterOffsets|
      {
        GenerateFilter();
      }
    }

    method AddKey(key: seq<Byte>)
      requires Valid()
      modifies this
      ensures Valid() && pending == old(pending) + [key] && groups == old(groups)
    {
      assert (pending + [key])[..|pending|] == pending;
      assert forall i :: 0 <= i < |pending| ==> (pending + [key])[..i] == pending[..i];
      start := start + [|keys|];
      keys := keys + key;
      pending := pending + [key];
    }

    method GenerateFilter()
      requires Valid()
      modifies this
      ensures Valid() && pending == [] && groups == old(groups) + [old(pending)]
    {
      var numKeys := |start|;
      GroupsGrow(policy, groups, pending);
      if numKeys == 0 {
        filterOffsets := filterOffsets + [|result|];
        assert pending == [];
        groups := groups + [pending];
        return;
      }
      var ends := start[1..] + [|keys|];
      var tmpKeys := [];
      var i := 0;
      while i < numKeys
        invariant 0 <= i <= numKeys && unchanged(this) && tmpKeys == pending[..i]
      {
        KeyInFlat(pending, i);
        tmpKeys := tmpKeys + [keys[start[i]..ends[i]]];
        i := i + 1;
      }
      assert pending[..numKeys] == pending;
      filterOffsets := filterOffsets + [|result|];
      result := result + policy.create(tmpKeys);
      groups := groups + [pending];
      keys, start, pending := [], [], [];
    }

    method Finish() returns (contents: seq<Byte>)
      requires Valid()
      modifies this
      ensures groups == old(groups) + (if old(pending) == [] then [] else [old(pending)])
      ensures contents == Contents(policy, groups)
    {
      if |start| > 0 {
        GenerateFilter();
      }
      hide Blocks.Words, Fixed, Filters, Offsets;
      var arrayOffset := |result|;
      ghost var filters, offsets, made := result, filterOffsets, groups;
      var i := 0;
      Blocks.NoWords(result);
      while i < |filterOffsets|
        invariant 0 <= i <= |filterOffsets| && filterOffsets == offsets && groups == made
        invariant result == filters + Blocks.Words(filterOffsets[..i])
      {
        Blocks.WordsAppend(filterOffsets[..i], filterOffsets[i]);
        assert filterOffsets[..i + 1] == filterOffsets[..i] + [filterOffsets[i]];
        Assoc(filters, Blocks.Words(filterOffsets[..i]), Fixed(filterOffsets[i], 4));
        result := result + Fixed(filterOffsets[i], 4);
        i := i + 1;
      }
      assert filterOffsets[..|filterOffsets|] == filterOffsets;
      result := result + Fixed(arrayOffset, 4);
      result := result + [FILTER_BASE_LG as Byte];
      contents := result;
    }
  }

  lemma {:induction false} FiltersSame(policy: Policy, groups: seq<seq<seq<Byte>>>, more: seq<seq<seq<Byte>>>, n: nat)
    requires n <= |groups|
    ensures Filters(policy, groups + more, n) == Filters(policy, groups, n)
  {
    if n > 0 {
      FiltersSame(policy, groups, more, n - 1);
    }
  }

  lemma GroupsGrow(policy: Policy, groups: seq<seq<seq<Byte>>>, group: seq<seq<Byte>>)
    ensures Filters(policy, groups + [group], |groups| + 1)
      == Filters(policy, groups, |groups|) + if group == [] then [] else policy.create(group)
    ensures Offsets(policy, groups + [group]) == Offsets(policy, groups) + [|Filters(policy, groups, |groups|)|]
  {
    forall i | 0 <= i <= |groups| {
      FiltersSame(policy, groups, [group], i);
    }
  }

  lemma {:induction false} KeyInFlat(keys: seq<seq<Byte>>, i: nat)
    requires i < |keys|
    ensures var from, till := |Flat(keys[..i])|, if i + 1 < |keys| then |Flat(keys[..i + 1])| else |Flat(keys)|;
      from <= till <= |Flat(keys)| && Flat(keys)[from..till] == keys[i]
  {
    var front := keys[..|keys| - 1];
    if i == |keys| - 1 {
    } else {
      KeyInFlat(front, i);
      assert front[..i] == keys[..i];
      assert front[..i + 1] == keys[..i + 1];
      if i + 1 == |keys| - 1 {
        assert keys[..i + 1] == front;
      }
    }
  }

  // ------------------------------------------------------------------ reading

  class FilterBlockReader {
    const policy: Policy
    const data: seq<Byte>
    const offset: nat
    const num: nat
    const baseLg: nat
    ghost const groups: seq<seq<seq<Byte>>>

    constructor (policy: Policy, contents: seq<Byte>, ghost groups: seq<seq<seq<Byte>>>)
      ensures this.policy == policy && this.data == contents && this.groups == groups && Safe()
      ensures contents == Contents(policy, groups) && |contents| < TWO_32 ==> Reads()
      ensures |contents| < 5 || FixedValue(contents[|contents| - 5..|contents| - 1]) > |contents| - 5 ==> num == 0
    {
      this.policy, data, this.groups := policy, contents, groups;
      var n := |contents|;
      if contents == Contents(policy, groups) && n < TWO_32 {
        ContentsParts(policy, groups);
      }
      if n < 5 || FixedValue(contents[n - 5..n - 1]) > n - 5 {
        offset, num, baseLg := 0, 0, 0;
      } else {
        var lastWord := FixedValue(contents[n - 5..n - 1]);
        offset, num, baseLg := lastWord, (n - 5 - lastWord) / 4, contents[n - 1] as nat;
      }
    }

    /** The words looked at are inside the block. */
    predicate Safe() { num > 0 ==> offset + 4 * num + 4 <= |data| }

    /** The fields are those of the block made of `groups`. */
    ghost predicate Reads() {
      && data == Contents(policy, groups) && |data| < TWO_32 && baseLg == FILTER_BASE_LG
      && offset == |Filters(policy, groups, |groups|)| && num == |groups|
    }

    function Word(i: nat): nat
      requires offset + 4 * i + 4 <= |data|
    {
      FixedValue(data[offset + 4 * i..offset + 4 * i + 4])
    }

    /** The words of filter `i` name bytes that deny the key, or the same place past the array. */
    predicate Denies(i: nat, key: seq<Byte>)
      requires Safe() && i < num
    {
      var start, limit := Word(i), Word(i + 1);
      if start <= limit <= offset then !policy.mayMatch(key, data[start..limit]) else start == limit
    }

    lemma BuiltDenies(i: nat, key: seq<Byte>)
      requires Safe() && Reads()
      ensures MayMatch(policy, groups, i, key) <==> !(i < num && Denies(i, key))
    {
      hide Contents, Filters, FixedValue;
      if i < num {
        FilterAt(policy, groups, i);
      }
    }

    /** Whether the block at `blockOffset` may hold the key. Where a damaged filter does not deny it, it may. */
    method KeyMayMatch(blockOffset: nat, key: seq<Byte>) returns (r: bool)
      requires Safe()
      ensures !r <==> blockOffset / Pow(2, baseLg) < num && Denies(blockOffset / Pow(2, baseLg), key)
      ensures Reads() ==> r == MayMatch(policy, groups, blockOffset / FILTER_BASE, key)
    {
      BaseIs();
      hide Contents, Filters, FixedValue, Pow, MayMatch;
      var index := blockOffset / Pow(2, baseLg);
      if Reads() {
        BuiltDenies(index, key);
      }
      if index < num {
        var start, limit := Word(index), Word(index + 1);
        if start <= limit && limit <= offset {
          r := policy.mayMatch(key, data[start..limit]);
        } else if start == limit {
          r := false;
        } else {
          r := true;
        }
      } else {
        r := true;
      }
    }
  }

  /** What a filter block made of `groups` answers. */
  predicate MayMatch(policy: Policy, groups: seq<seq<seq<Byte>>>, i: nat, key: seq<Byte>) {
    i < |groups| ==> policy.mayMatch(key, if groups[i] == [] then [] else policy.create(groups[i]))
  }

  lemma BaseIs()
    ensures Pow(2, FILTER_BASE_LG) == FILTER_BASE
  {
    SevenBits(11);
    assert Pow(2, 4) == 16;
  }

  /** The array of offsets with the offset of the array itself at its end. */
  function Table(policy: Policy, groups: seq<seq<seq<Byte>>>): seq<nat> {
    Offsets(policy, groups) + [|Filters(policy, groups, |groups|)|]
  }

  lemma ContentsAre(policy: Policy, groups: seq<seq<seq<Byte>>>)
    ensures Contents(policy, groups) ==
      Filters(policy, groups, |groups|) + (Blocks.Words(Table(policy, groups)) + [FILTER_BASE_LG as Byte])
  {
    hide Filters, Blocks.Words, Fixed;
    var filters, offsets := Filters(policy, groups, |groups|), Offsets(policy, groups);
    Blocks.WordsAppend(offsets, |filters|);
    Assoc(filters, Blocks.Words(offsets), Fixed(|filters|, 4));
    Assoc(filters, Blocks.Words(offsets) + Fixed(|filters|, 4), [FILTER_BASE_LG as Byte]);
  }

  lemma {:induction false} FiltersPrefix(policy: Policy, groups: seq<seq<seq<Byte>>>, i: nat, n: nat)
    requires i <= n <= |groups|
    ensures |Filters(policy, groups, i)| <= |Filters(policy, groups, n)|
    ensures Filters(policy, groups, n)[..|Filters(policy, groups, i)|] == Filters(policy, groups, i)
  {
    if i < n {
      FiltersPrefix(policy, groups, i, n - 1);
    }
  }

  /** A word of the table read back. */
  lemma WordBack(policy: Policy, groups: seq<seq<seq<Byte>>>, i: nat)
    requires |Contents(policy, groups)| < TWO_32 && i <= |groups|
    ensures var c, at := Contents(policy, groups), |Filters(policy, groups, |groups|)|;
      && at + 4 * i + 4 <= |c|
      && FixedValue(c[at + 4 * i..at + 4 * i + 4]) == |Filters(policy, groups, i)|
  {
    hide Filters, Blocks.Words, Fixed, FixedValue, Contents;
    ContentsAre(policy, groups);
    FiltersPrefix(policy, groups, i, |groups|);
    var table := Table(policy, groups);
    Blocks.WordAt(table, i);
    Blocks.Middle(Filters(policy, groups, |groups|), Blocks.Words(table), [FILTER_BASE_LG as Byte], 4 * i, 4 * i + 4);
    Blocks.Pow256();
    FixedBack(table[i], 4);
  }

  lemma ContentsParts(policy: Policy, groups: seq<seq<seq<Byte>>>)
    requires |Contents(policy, groups)| < TWO_32
    ensures var c := Contents(policy, groups);
      var n := |c|;
      && n == |Filters(policy, groups, |groups|)| + 4 * |groups| + 5 && c[n - 1] as nat == FILTER_BASE_LG
      && FixedValue(c[n - 5..n - 1]) == |Filters(policy, groups, |groups|)|
  {
    WordBack(policy, groups, |groups|);
    ContentsAre(policy, groups);
    hide Filters, Blocks.Words, Fixed, FixedValue, Contents;
  }

  /** The words around a filter cut out exactly its bytes. */
  lemma FilterAt(policy: Policy, groups: seq<seq<seq<Byte>>>, i: nat)
    requires |Contents(policy, groups)| < TWO_32 && i < |groups|
    ensures var c, at := Contents(policy, groups), |Filters(policy, groups, |groups|)|;
      var start, limit := |Filters(policy, groups, i)|, |Filters(policy, groups, i + 1)|;
      && at + 4 * i + 8 <= |c| && FixedValue(c[at + 4 * i..at + 4 * i + 4]) == start
      && FixedValue(c[at + 4 * (i + 1)..at + 4 * (i + 1) + 4]) == limit && start <= limit <= at
      && c[start..limit] == if groups[i] == [] then [] else policy.create(groups[i])
  {
    WordBack(policy, groups, i);
    WordBack(policy, groups, i + 1);
    ContentsAre(policy, groups);
    FiltersPrefix(policy, groups, i, |groups|);
    FiltersPrefix(policy, groups, i + 1, |groups|);
    var filter := if groups[i] == [] then [] else policy.create(groups[i]);
    assert Filters(policy, groups, i + 1) == Filters(policy, groups, i) + filter;
    hide Filters, Blocks.Words, Fixed, FixedValue, Contents;
    PrefixSlice(Contents(policy, groups), Filters(policy, groups, |groups|), Filters(policy, groups, i + 1), Filters(policy, groups, i), filter);
  }

  lemma PrefixSlice(c: seq<Byte>, all: seq<Byte>, upper: seq<Byte>, lower: seq<Byte>, part: seq<Byte>)
    requires all <= c && |upper| <= |all| && all[..|upper|] == upper && upper == lower + part
    ensures c[|lower|..|upper|] == part
  {
    assert c[..|upper|] == upper;
    assert c[|lower|..|upper|] == c[..|upper|][|lower|..];
  }

  /** The block of a key is never denied: the key is in the group of its block. */
  lemma FilterNeverDenies(policy: Policy, groups: seq<seq<seq<Byte>>>, i: nat, key: seq<Byte>)
    requires policy.Sound() && i < |groups| && key in groups[i]
    ensures MayMatch(policy, groups, i, key)
  {}
}
