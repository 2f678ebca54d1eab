/** table/table_builder.cc: data blocks, their index of shortened separators, filters and footer. */
module TableBuilding {
  import opened Bytes
  import opened Coding
  import opened Comparators
  import opened Blocks
  import opened TableFormat
  import opened TableSearch
  import Crc32c
  import Filters

  // ------------------------------------------------------------------- filters

  /** InternalFilterPolicy: a policy on the user parts of internal keys. */
  function UserKeys(keys: seq<seq<Byte>>): (users: seq<seq<Byte>>)
    ensures |users| == |keys|
  {
    seq(|keys|, i requires 0 <= i < |keys| => User(keys[i]))
  }

  function InternalPolicy(policy: Filters.Policy): Filters.Policy {
    Filters.Policy(keys => policy.create(UserKeys(keys)), (key, filter) => policy.mayMatch(User(key), filter))
  }

  /** A filter of internal keys never denies any key with the user part of one of them. */
  lemma UserNeverDenied(policy: Filters.Policy, keys: seq<seq<Byte>>, key: seq<Byte>, other: seq<Byte>)
    requires policy.Sound() && key in keys && User(key) == User(other)
    ensures InternalPolicy(policy).mayMatch(other, InternalPolicy(policy).create(keys))
  {
    var i: nat :| i < |keys| && keys[i] == key;
    assert UserKeys(keys)[i] == User(key);
    assert User(key) in UserKeys(keys);
  }

  // --------------------------------------------------------------- what is built

  function PairsOf(blocks: seq<Layout>): (pairs: seq<seq<Pair>>)
    ensures |pairs| == |blocks|
  {
    seq(|blocks|, i requires 0 <= i < |blocks| => blocks[i].pairs)
  }

  function IndexPairs(separators: seq<seq<Byte>>, handles: seq<Handle>): (pairs: seq<Pair>)
    requires |separators| <= |handles|
    ensures |pairs| == |separators|
  {
    seq(|separators|, i requires 0 <= i < |separators| => Pair(separators[i], handles[i].Encoded()))
  }

  ghost predicate GoodBlock(block: Layout) {
    block.Valid() && block.pairs != [] && Sorted(block.pairs)
  }

  /** The data blocks of a file, where they are, and their separators up to the one still to be chosen. */
  ghost predicate BlocksIn(file: seq<Byte>, blocks: seq<Layout>, handles: seq<Handle>) {
    && |handles| == |blocks|
    && forall i :: 0 <= i < |blocks| ==> GoodBlock(blocks[i]) && StoredAt(file, handles[i], Contents(blocks[i]))
  }

  ghost predicate SeparatorsFit(blocks: seq<Layout>, separators: seq<seq<Byte>>, current: seq<Pair>) {
    && |separators| <= |blocks| <= |separators| + 1 && (|separators| < |blocks| ==> current == [])
    && (forall i :: 0 <= i < |blocks| ==> blocks[i].pairs != [])
    && forall i :: 0 <= i < |separators| ==> SeparatorFits(blocks, separators, current, i)
  }

  ghost predicate SeparatorFits(blocks: seq<Layout>, separators: seq<seq<Byte>>, current: seq<Pair>, i: nat)
    requires i < |separators| <= |blocks| && blocks[i].pairs != []
  {
    Separates(separators[i], blocks[i].pairs, if i + 1 < |blocks| then blocks[i + 1].pairs else current)
  }

  ghost predicate InGroup(groups: seq<seq<seq<Byte>>>, pending: seq<seq<Byte>>, g: nat, key: seq<Byte>) {
    if g < |groups| then key in groups[g] else g == |groups| && key in pending
  }

  /** Every key of every block is in the filter group its block's offset selects. */
  ghost predicate Grouped(blocks: seq<Layout>, handles: seq<Handle>, groups: seq<seq<seq<Byte>>>, pending: seq<seq<Byte>>)
    requires |handles| == |blocks|
  {
    forall i, p :: 0 <= i < |blocks| && p in blocks[i].pairs ==>
      InGroup(groups, pending, handles[i].offset / Filters.FILTER_BASE, p.key)
  }

  /** The last key added. */
  function LastAdded(blocks: seq<Layout>, current: seq<Pair>): seq<Byte> {
    if current != [] then Last(current)
    else if blocks != [] && blocks[|blocks| - 1].pairs != [] then Last(blocks[|blocks| - 1].pairs)
    else []
  }

  /** The values behind the fields of a builder that is still open. */
  datatype State = State(file: seq<Byte>, blocks: seq<Layout>, handles: seq<Handle>, separators: seq<seq<Byte>>,
                         current: seq<Pair>, index: seq<Pair>, pending: bool, pendingHandle: Handle,
                         numEntries: nat, lastKey: seq<Byte>)

  ghost predicate Good(s: State) {
    && BlocksIn(s.file, s.blocks, s.handles)
    && SeparatorsFit(s.blocks, s.separators, s.current) && Sorted(s.current)
    && s.index == IndexPairs(s.separators, s.handles)
    && s.pending == (|s.separators| < |s.blocks|)
    && (s.pending ==> s.pendingHandle == s.handles[|s.blocks| - 1])
    && (s.numEntries == 0 <==> s.blocks == [] && s.current == [])
    && (s.numEntries > 0 ==> s.pending || s.current != [])
    && (s.numEntries > 0 ==> s.lastKey == LastAdded(s.blocks, s.current))
  }

  /** Every key is in the filter group that the offset of its block selects. */
  ghost predicate FiltersFit(s: State, groups: seq<seq<seq<Byte>>>, pending: seq<seq<Byte>>)
    requires |s.handles| == |s.blocks|
  {
    && |groups| == |s.file| / Filters.FILTER_BASE
    && Grouped(s.blocks, s.handles, groups, pending)
    && forall p :: p in s.current ==> p.key in pending
  }

  // -------------------------------------------------------------- a whole table

  /** What a finished file holds. */
  datatype Shape = Shape(blocks: seq<Layout>, handles: seq<Handle>, separators: seq<seq<Byte>>,
                         index: Layout, indexHandle: Handle, meta: Layout, metaHandle: Handle,
                         groups: seq<seq<seq<Byte>>>, filterHandle: Handle)

  const FILTER_PREFIX: seq<Byte> := [0x66, 0x69, 0x6c, 0x74, 0x65, 0x72, 0x2e]

  ghost predicate IsTable(file: seq<Byte>, shape: Shape, policyName: seq<Byte>, policy: Filters.Policy, filtered: bool) {
    && HasData(file, shape) && HasIndex(file, shape)
    && HasFilters(file, shape, policyName, policy, filtered)
    && EndsIn(file, Footer(shape.metaHandle, shape.indexHandle))
  }

  ghost predicate HasData(file: seq<Byte>, shape: Shape) {
    BlocksIn(file, shape.blocks, shape.handles) && Separated(PairsOf(shape.blocks), shape.separators)
  }

  ghost predicate HasIndex(file: seq<Byte>, shape: Shape) {
    && shape.index.Valid() && |shape.separators| <= |shape.handles|
    && shape.index.pairs == IndexPairs(shape.separators, shape.handles)
    && StoredAt(file, shape.indexHandle, Contents(shape.index))
  }

  ghost predicate HasFilters(file: seq<Byte>, shape: Shape, policyName: seq<Byte>, policy: Filters.Policy, filtered: bool) {
    && shape.meta.Valid() && StoredAt(file, shape.metaHandle, Contents(shape.meta))
    && shape.meta.pairs == (if filtered then [Pair(FILTER_PREFIX + policyName, shape.filterHandle.Encoded())] else [])
    && (filtered ==>
          && StoredAt(file, shape.filterHandle, Filters.Contents(InternalPolicy(policy), shape.groups))
          && |shape.handles| == |shape.blocks| && Grouped(shape.blocks, shape.handles, shape.groups, []))
  }

  ghost predicate EndsIn(file: seq<Byte>, footer: seq<Byte>) {
    |footer| <= |file| && file[|file| - |footer|..] == footer
  }

  ghost predicate AllReach(handles: seq<Handle>, size: nat) {
    forall i :: 0 <= i < |handles| ==> handles[i].size >= size
  }

  ghost predicate AllButLastReach(handles: seq<Handle>, size: nat) {
    handles == [] || AllReach(handles[..|handles| - 1], size)
  }

  datatype Options = Options(blockSize: nat, restartInterval: nat, policyName: seq<Byte>)

  class TableBuilder {
    const options: Options
    const dataBlock: BlockBuilder
    const indexBlock: BlockBuilder
    const filterBlock: Filters.FilterBlockBuilder?
    var file: seq<Byte>
    var lastKey: seq<Byte>
    var numEntries: nat
    var closed: bool
    var pendingIndexEntry: bool
    var pendingHandle: Handle
    ghost var blocks: seq<Layout>
    ghost var handles: seq<Handle>
    ghost var separators: seq<seq<Byte>>

    ghost function Fields(): State
      reads this, dataBlock, indexBlock
    {
      State(file, blocks, handles, separators, dataBlock.layout.pairs, indexBlock.layout.pairs,
            pendingIndexEntry, pendingHandle, numEntries, lastKey)
    }

    ghost predicate Open()
      reads this, dataBlock, indexBlock, filterBlock
    {
      && !closed && dataBlock != indexBlock
      && dataBlock.Valid() && !dataBlock.finished && dataBlock.interval == options.restartInterval >= 1
      && indexBlock.Valid() && !indexBlock.finished
      && Good(Fields())
      && (filterBlock != null ==> filterBlock.Valid() && FiltersFit(Fields(), filterBlock.groups, filterBlock.pending))
    }

    /** Every closed block reached the block size, and the open one has not. */
    ghost predicate RightSizes()
      reads this, dataBlock
    {
      && AllReach(handles, options.blockSize)
      && (dataBlock.layout.pairs == [] || dataBlock.CurrentSizeEstimate() < options.blockSize)
    }

    /** All entries added so far. */
    ghost function Added(): seq<Pair>
      reads this, dataBlock
    {
      Entries(PairsOf(blocks)) + dataBlock.layout.pairs
    }

    constructor (options: Options, policy: Filters.Policy, filtered: bool)
      requires options.restartInterval >= 1
      ensures Open() && RightSizes() && Added() == [] && this.options == options && fresh(dataBlock) && fresh(indexBlock)
      ensures (filterBlock != null) == filtered && (filtered ==> fresh(filterBlock) && filterBlock.policy == InternalPolicy(policy))
    {
      hide Builds, Filters.Filters, Filters.Offsets, Filters.Flat;
      this.options := options;
      dataBlock := new BlockBuilder(options.restartInterval);
      indexBlock := new BlockBuilder(1);
      if filtered {
        var filters := new Filters.FilterBlockBuilder(InternalPolicy(policy));
        filters.StartBlock(0);
        filterBlock := filters;
      } else {
        filterBlock := null;
      }
      file, lastKey, numEntries, closed := [], [], 0, false;
      pendingIndexEntry, pendingHandle := false, Handle(0, 0);
      blocks, handles, separators := [], [], [];
    }

    method Add(key: seq<Byte>, value: seq<Byte>)
      requires Open() && |key| >= 8
      requires numEntries > 0 ==> InternalLess(lastKey, key)
      modifies this, dataBlock, indexBlock, filterBlock
      ensures Open() && Added() == old(Added()) + [Pair(key, value)]
      ensures old(RightSizes()) ==> RightSizes()
    {
      hide InternalLess, Good, FiltersFit, Builds, Filters.Filters, Filters.Offsets, Filters.Flat, Entries, PairsOf,
        LastAdded, AllReach, AllButLastReach, Less;
      ghost var pair, was := Pair(key, value), Fields();
      BlocksAreCounted(was);
      ghost var separator: seq<Byte> := [];
      if pendingIndexEntry {
        PendingFacts(was);
        separator := AddIndexEntry(key);
      }
      if filterBlock != null {
        FilterGrows(was, filterBlock.groups, filterBlock.pending, pair, separator);
        filterBlock.AddKey(key);
      }
      lastKey := key;
      numEntries := numEntries + 1;
      dataBlock.Add(key, value);
      GoodAdd(was, pair, separator);
      assert Fields() == WithPair(was, pair, separator);
      if dataBlock.CurrentSizeEstimate() >= options.blockSize {
        OneMoreReaches(handles, Handle(|file|, dataBlock.CurrentSizeEstimate()), options.blockSize);
        Flush();
      }
    }

    /** The index entry of the last block, under a separator from the first key of the next one. */
    method AddIndexEntry(key: seq<Byte>) returns (ghost separator: seq<Byte>)
      requires pendingIndexEntry && |lastKey| >= 8 && |key| >= 8 && InternalLess(lastKey, key)
      requires indexBlock.Valid() && !indexBlock.finished && dataBlock != indexBlock
      modifies this`lastKey, this`separators, this`pendingIndexEntry, indexBlock
      ensures indexBlock.Valid() && !indexBlock.finished && !pendingIndexEntry
      ensures indexBlock.layout.pairs == old(indexBlock.layout.pairs) + [Pair(separator, pendingHandle.Encoded())]
      ensures separators == old(separators) + [separator] && |separator| >= 8 && InternalLess(separator, key)
      ensures separator == old(lastKey)
        || (Less(User(old(lastKey)), User(separator)) && Less(User(separator), User(key)))
    {
      hide Builds, InternalLess, Less, Bumps, Common, Internal, User;
      lastKey := FindShortestInternalSeparator(lastKey, key);
      separator := lastKey;
      indexBlock.Add(lastKey, pendingHandle.Encoded());
      separators := separators + [lastKey];
      pendingIndexEntry := false;
    }

    /** End the current block and put it into the file. */
    method Flush()
      requires Open()
      modifies this, dataBlock, filterBlock
      ensures Open() && Added() == old(Added()) && dataBlock.layout.pairs == []
      ensures numEntries == old(numEntries)
      ensures old(dataBlock.layout.pairs) == [] ==> blocks == old(blocks) && handles == old(handles)
      ensures old(dataBlock.layout.pairs) != [] ==>
        blocks == old(blocks) + [old(dataBlock.layout)]
        && handles == old(handles) + [Handle(|old(file)|, old(dataBlock.CurrentSizeEstimate()))]
      ensures old(RightSizes()) ==> AllButLastReach(handles, options.blockSize)
    {
      hide Good, FiltersFit, Builds, Filters.Filters, Filters.Offsets, Filters.Flat, Entries, PairsOf, LastAdded,
        Stored, Contents, AllReach, AllButLastReach;
      LastMayBeSmall(handles, handles, options.blockSize);
      if dataBlock.Empty() {
        return;
      }
      ghost var layout, was := dataBlock.layout, Fields();
      BlocksAreCounted(was);
      var raw := dataBlock.Finish();
      pendingHandle := WriteRawBlock(raw);
      LastMayBeSmall(handles, handles + [pendingHandle], options.blockSize);
      handles := handles + [pendingHandle];
      blocks := blocks + [layout];
      dataBlock.Reset();
      pendingIndexEntry := true;
      GoodFlush(was, layout);
      assert Fields() == Flushed(was, layout);
      EntriesAppend(PairsOf(was.blocks), layout.pairs);
      PairsAppend(was.blocks, layout);
      if filterBlock != null {
        FilterFlush(was, layout, filterBlock.groups, filterBlock.pending);
        filterBlock.StartBlock(|file|);
        FilterStarts(Fields(), old(filterBlock.groups), old(filterBlock.pending), filterBlock.groups, filterBlock.pending);
      }
    }

    /** The filters, their place, the index and the footer. */
    method Finish(policyName: seq<Byte>, ghost policy: Filters.Policy) returns (ghost shape: Shape)
      requires Open() && (filterBlock != null ==> filterBlock.policy == InternalPolicy(policy))
      modifies this, dataBlock, indexBlock, filterBlock
      ensures closed && IsTable(file, shape, policyName, policy, filterBlock != null)
      ensures Entries(PairsOf(shape.blocks)) == old(Added())
      ensures old(RightSizes()) ==> AllButLastReach(shape.handles, options.blockSize)
    {
      hide Good, FiltersFit, Builds, Filters.Filters, Filters.Offsets, Filters.Flat, Entries, Stored, Contents,
        Filters.Contents,
        InternalLess, IsTable, Footer, IndexPairs, BlocksIn, Separated, Grouped, PairsOf, LastAdded, StoredAt, Less;
      hide AllReach, AllButLastReach, TableBuilder.RightSizes;
      Flush();
      NothingAfter(PairsOf(blocks));
      closed := true;
      ghost var was := Fields();
      GoodParts(was);
      ghost var groups: seq<seq<seq<Byte>>> := [];
      var filterHandle := Handle(0, 0);
      if filterBlock != null {
        ghost var full, pending := filterBlock.groups, filterBlock.pending;
        var contents := filterBlock.Finish();
        groups := filterBlock.groups;
        GroupsClose(was, full, pending, groups);
        filterHandle := WriteRawBlock(contents);
      }
      var metaHandle, meta := WriteMetaBlock(policyName, filterBlock != null, filterHandle);
      var indexHandle, index := WriteIndexBlock(was);
      file := file + Footer(metaHandle, indexHandle);
      shape := Shape(blocks, handles, separators, index, indexHandle, meta, metaHandle, groups, filterHandle);
      WholeFile(was.file, filterBlock != null, if filterBlock != null then Filters.Contents(InternalPolicy(policy), groups) else [],
                shape, policyName, policy);
    }

    /** The metaindex block: where the filters are. */
    method WriteMetaBlock(policyName: seq<Byte>, filtered: bool, filterHandle: Handle)
      returns (handle: Handle, ghost meta: Layout)
      requires options.restartInterval >= 1
      modifies `file
      ensures meta.Valid() && file == old(file) + Stored(Contents(meta)) && handle == Handle(|old(file)|, |Contents(meta)|)
      ensures meta.pairs == if filtered then [Pair(FILTER_PREFIX + policyName, filterHandle.Encoded())] else []
    {
      hide Builds, Contents, Stored, Layout.Valid;
      var metaBlock := new BlockBuilder(options.restartInterval);
      if filtered {
        metaBlock.Add(FILTER_PREFIX + policyName, filterHandle.Encoded());
      }
      meta := metaBlock.layout;
      var contents := metaBlock.Finish();
      handle := WriteRawBlock(contents);
    }

    /** The index block, once the last data block has its separator. */
    method WriteIndexBlock(ghost was: State) returns (handle: Handle, ghost index: Layout)
      requires Good(was) && was == Fields().(file := was.file) && was.current == []
      requires indexBlock.Valid() && !indexBlock.finished && dataBlock != indexBlock
      modifies this`file, this`lastKey, this`pendingIndexEntry, this`separators, indexBlock
      ensures index.Valid() && |separators| <= |handles| && index.pairs == IndexPairs(separators, handles)
      ensures Separated(PairsOf(blocks), separators)
      ensures file == old(file) + Stored(Contents(index)) && handle == Handle(|old(file)|, |Contents(index)|)
    {
      hide Good, Builds, Stored, Contents, InternalLess, IndexPairs, Separated, PairsOf, LastAdded, Less;
      GoodParts(was);
      if pendingIndexEntry {
        PendingFacts(was);
        lastKey := FindShortInternalSuccessor(lastKey);
        indexBlock.Add(lastKey, pendingHandle.Encoded());
        LastSeparator(was, lastKey);
        separators := separators + [lastKey];
        pendingIndexEntry := false;
      }
      AllSeparated(was, separators);
      index := indexBlock.layout;
      var contents := indexBlock.Finish();
      handle := WriteRawBlock(contents);
    }

    method WriteRawBlock(contents: seq<Byte>) returns (handle: Handle)
      modifies `file
      ensures file == old(file) + Stored(contents) && handle == Handle(|old(file)|, |contents|)
    {
      hide Crc32c.Fixed32, Crc32c.Mask, Crc32c.Extended;
      handle := Handle(|file|, |contents|);
      var crc := Crc32c.Extend(0, contents, 0);
      crc := Crc32c.Extend(crc, [NO_COMPRESSION], 0);
      Crc32c.ExtendedAppend(0, contents, [NO_COMPRESSION]);
      var trailer := [NO_COMPRESSION] + Crc32c.Fixed32(Crc32c.Mask(crc));
      Assoc(contents, [NO_COMPRESSION], Crc32c.Fixed32(Crc32c.Mask(crc)));
      Assoc(file, contents, trailer);
      file := file + contents;
      file := file + trailer;
    }
  }

  // -------------------------------------------------------------- what steps keep

  ghost function WithPair(s: State, pair: Pair, separator: seq<Byte>): State {
    s.(separators := if s.pending then s.separators + [separator] else s.separators,
       index := if s.pending then s.index + [Pair(separator, s.pendingHandle.Encoded())] else s.index,
       pending := false, current := s.current + [pair], numEntries := s.numEntries + 1, lastKey := pair.key)
  }

  ghost function Flushed(s: State, layout: Layout): State
    requires layout.Valid()
  {
    var handle := Handle(|s.file|, |Contents(layout)|);
    s.(file := s.file + Stored(Contents(layout)), blocks := s.blocks + [layout], handles := s.handles + [handle],
       current := [], pending := true, pendingHandle := handle)
  }

  lemma PendingFacts(s: State)
    requires Good(s) && s.pending
    ensures |s.lastKey| >= 8 && s.current == [] && s.numEntries > 0
  {
    hide SeparatorFits, Sorted, IndexPairs, StoredAt, Contents, Stored, Layout.Valid, InternalLess;
    LastBlockFits(s.file, s.blocks, s.handles);
  }

  lemma GoodAdd(s: State, pair: Pair, separator: seq<Byte>)
    requires Good(s) && |pair.key| >= 8 && (s.numEntries > 0 ==> InternalLess(s.lastKey, pair.key))
    requires s.pending ==>
      && |separator| >= 8 && InternalLess(separator, pair.key)
      && (separator == s.lastKey || (Less(User(s.lastKey), User(separator)) && Less(User(separator), User(pair.key))))
    ensures Good(WithPair(s, pair, separator))
  {
    hide BlocksIn;
    if s.pending {
      SeparatorIsGood(s, pair, separator);
    } else {
      CurrentGrows(s.blocks, s.separators, s.current, pair);
      hide SeparatorsFit;
      SortedGrows(s.current, pair);
    }
  }

  lemma SeparatorIsGood(s: State, pair: Pair, separator: seq<Byte>)
    requires Good(s) && s.pending && |pair.key| >= 8
    requires |separator| >= 8 && InternalLess(separator, pair.key)
    requires separator == s.lastKey || (Less(User(s.lastKey), User(separator)) && Less(User(separator), User(pair.key)))
    ensures Good(WithPair(s, pair, separator))
  {
    hide BlocksIn, SeparatorFits, Less, User;
    BlocksAreCounted(s);
    assert s.numEntries > 0;
    var last := s.blocks[|s.blocks| - 1].pairs;
    assert Separates(separator, last, [pair]);
    hide Separates, InternalLess;
    SeparatorChosen(s.blocks, s.separators, separator, pair);
    hide SeparatorsFit, IndexPairs;
    IndexGrows(s.separators, separator, s.handles);
    assert s.current + [pair] == [pair];
  }

  lemma BlocksAreCounted(s: State)
    requires Good(s)
    ensures |s.handles| == |s.blocks| && |s.separators| <= |s.blocks|
  {}

  lemma SortedGrows(pairs: seq<Pair>, pair: Pair)
    requires Sorted(pairs) && |pair.key| >= 8 && (pairs != [] ==> InternalLess(Last(pairs), pair.key))
    ensures Sorted(pairs + [pair])
  {
    hide InternalLess;
    forall i | 0 <= i < |pairs|
      ensures InternalLess(pairs[i].key, pair.key)
    {
      if i < |pairs| - 1 {
        InternalIsTransitive(pairs[i].key, Last(pairs), pair.key);
      }
    }
  }

  lemma GoodFlush(s: State, layout: Layout)
    requires Good(s) && layout.Valid() && s.current == layout.pairs != []
    ensures Good(Flushed(s, layout))
  {
    hide InternalLess, Contents, Stored;
    BlockEnds(s.blocks, s.separators, layout);
    var contents := Contents(layout);
    StoredAtEnd(s.file, contents);
    forall i | 0 <= i < |s.blocks|
      ensures StoredAt(s.file + Stored(contents), s.handles[i], Contents(s.blocks[i]))
    {
      StoredAtStays(s.file, Stored(contents), s.handles[i], Contents(s.blocks[i]));
    }
    var t := Flushed(s, layout);
    forall i | 0 <= i < |t.blocks|
      ensures GoodBlock(t.blocks[i]) && StoredAt(t.file, t.handles[i], Contents(t.blocks[i]))
    {
      if i < |s.blocks| {
        assert t.blocks[i] == s.blocks[i] && t.handles[i] == s.handles[i];
      }
    }
    assert IndexPairs(t.separators, t.handles) == IndexPairs(s.separators, s.handles);
  }

  lemma FilterGrows(s: State, groups: seq<seq<seq<Byte>>>, pending: seq<seq<Byte>>, pair: Pair, separator: seq<Byte>)
    requires |s.handles| == |s.blocks| && FiltersFit(s, groups, pending)
    ensures FiltersFit(WithPair(s, pair, separator), groups, pending + [pair.key])
  {
  }

  ghost predicate FiltersPending(s: State, groups: seq<seq<seq<Byte>>>, pending: seq<seq<Byte>>)
    requires |s.handles| == |s.blocks|
  {
    |groups| <= |s.file| / Filters.FILTER_BASE && Grouped(s.blocks, s.handles, groups, pending) && s.current == []
  }

  lemma FilterFlush(s: State, layout: Layout, groups: seq<seq<seq<Byte>>>, pending: seq<seq<Byte>>)
    requires |s.handles| == |s.blocks| && FiltersFit(s, groups, pending) && layout.Valid() && s.current == layout.pairs
    ensures FiltersPending(Flushed(s, layout), groups, pending)
  {
    hide Contents, Stored, Layout.Valid;
    var t := Flushed(s, layout);
    MoreGroups(|s.file|, |t.file|);
    forall i, p | 0 <= i < |t.blocks| && p in t.blocks[i].pairs
      ensures InGroup(groups, pending, t.handles[i].offset / Filters.FILTER_BASE, p.key)
    {
      if i < |s.blocks| {
        assert p in s.blocks[i].pairs;
      }
    }
  }

  lemma MoreGroups(a: nat, b: nat)
    requires a <= b
    ensures a / Filters.FILTER_BASE <= b / Filters.FILTER_BASE
  {}

  lemma FilterStarts(s: State, groups: seq<seq<seq<Byte>>>, pending: seq<seq<Byte>>,
                     more: seq<seq<seq<Byte>>>, rest: seq<seq<Byte>>)
    requires |s.handles| == |s.blocks| && FiltersPending(s, groups, pending) && |more| == |s.file| / Filters.FILTER_BASE
    requires if |more| == |groups| then more == groups && rest == pending
      else |more| > |groups| && rest == [] && more[..|groups|] == groups && more[|groups|] == pending
    ensures FiltersFit(s, more, rest)
  {
  }

  lemma LastMayBeSmall(before: seq<Handle>, after: seq<Handle>, size: nat)
    requires after == before || (|after| == |before| + 1 && after[..|before|] == before)
    ensures AllReach(before, size) ==> AllButLastReach(after, size)
  {}

  lemma OneMoreReaches(handles: seq<Handle>, handle: Handle, size: nat)
    requires handle.size >= size
    ensures AllReach(handles, size) ==> AllReach(handles + [handle], size)
  {}

  lemma NothingAfter(blocks: seq<seq<Pair>>)
    ensures Entries(blocks) + [] == Entries(blocks)
  {}

  lemma GoodParts(s: State)
    requires Good(s)
    ensures BlocksIn(s.file, s.blocks, s.handles)
    ensures |s.handles| == |s.blocks| && |s.separators| <= |s.blocks| <= |s.separators| + 1
    ensures s.index == IndexPairs(s.separators, s.handles)
    ensures s.pending <==> |s.separators| < |s.blocks|
  {}

  lemma GroupsClose(s: State, groups: seq<seq<seq<Byte>>>, pending: seq<seq<Byte>>, closed: seq<seq<seq<Byte>>>)
    requires |s.handles| == |s.blocks| && FiltersFit(s, groups, pending)
    requires closed == groups + if pending == [] then [] else [pending]
    ensures Grouped(s.blocks, s.handles, closed, [])
  {
    forall i, p | 0 <= i < |s.blocks| && p in s.blocks[i].pairs
      ensures InGroup(closed, [], s.handles[i].offset / Filters.FILTER_BASE, p.key)
    {
      assert InGroup(groups, pending, s.handles[i].offset / Filters.FILTER_BASE, p.key);
    }
  }

  /** The last separator is a successor of the last key. */
  lemma LastSeparator(s: State, separator: seq<Byte>)
    requires Good(s) && s.pending && |separator| >= 8
    requires separator == s.lastKey || Less(User(s.lastKey), User(separator))
    ensures SeparatorsFit(s.blocks, s.separators + [separator], [])
    ensures |s.separators| < |s.handles|
    ensures s.index + [Pair(separator, s.pendingHandle.Encoded())] == IndexPairs(s.separators + [separator], s.handles)
  {
    hide Good, SeparatorsFit, Less, User, IndexPairs;
    PendingParts(s);
    LastChosen(s.blocks, s.separators, separator);
    IndexGrows(s.separators, separator, s.handles);
  }

  /** What holds while the last block waits for its separator. */
  lemma PendingParts(s: State)
    requires Good(s) && s.pending
    ensures SeparatorsFit(s.blocks, s.separators, []) && s.current == [] && s.numEntries > 0
    ensures |s.separators| + 1 == |s.blocks| == |s.handles|
    ensures LastPairs(s) != [] && s.lastKey == Last(LastPairs(s))
    ensures s.index == IndexPairs(s.separators, s.handles) && s.pendingHandle == s.handles[|s.separators|]
  {
    hide SeparatorFits, Sorted, IndexPairs, StoredAt, Contents, Stored, Layout.Valid, InternalLess;
  }

  ghost function LastPairs(s: State): seq<Pair> { if s.blocks == [] then [] else s.blocks[|s.blocks| - 1].pairs }

  lemma LastChosen(blocks: seq<Layout>, separators: seq<seq<Byte>>, separator: seq<Byte>)
    requires SeparatorsFit(blocks, separators, []) && |separators| < |blocks| && |separator| >= 8
    requires var last := Last(blocks[|blocks| - 1].pairs); separator == last || Less(User(last), User(separator))
    ensures SeparatorsFit(blocks, separators + [separator], [])
  {
    hide Less;
    var last := blocks[|blocks| - 1].pairs;
    assert Separates(separator, last, []);
    hide Separates;
    forall i | 0 <= i <= |separators|
      ensures SeparatorFits(blocks, separators + [separator], [], i)
    {
      if i < |separators| {
        assert SeparatorFits(blocks, separators, [], i);
      }
    }
  }

  lemma AllSeparated(s: State, separators: seq<seq<Byte>>)
    requires Good(s) && s.current == []
    requires if s.pending then |separators| == |s.blocks| && SeparatorsFit(s.blocks, separators, []) else separators == s.separators
    ensures Separated(PairsOf(s.blocks), separators)
  {
    hide Separates, Sorted, StoredAt, Layout.Valid, Contents;
    var blocks := PairsOf(s.blocks);
    forall i | 0 <= i < |blocks|
      ensures blocks[i] != [] && Sorted(blocks[i]) && SeparatesAt(blocks, separators, i)
    {
      assert GoodBlock(s.blocks[i]);
      assert SeparatorFits(s.blocks, separators, [], i);
    }
  }

  lemma {:induction false} BlocksStay(file: seq<Byte>, more: seq<Byte>, blocks: seq<Layout>, handles: seq<Handle>)
    requires BlocksIn(file, blocks, handles)
    ensures BlocksIn(file + more, blocks, handles)
  {
    hide Stored, Contents, Layout.Valid, Sorted, StoredAt;
    forall i | 0 <= i < |blocks|
      ensures StoredAt(file + more, handles[i], Contents(blocks[i]))
    {
      StoredAtStays(file, more, handles[i], Contents(blocks[i]));
    }
  }

  ghost function Appended(file: seq<Byte>, filtered: bool, filters: seq<Byte>): seq<Byte> {
    if filtered then file + Stored(filters) else file
  }

  /** Each part is where its handle says once everything has been appended. */
  lemma WholeFile(file: seq<Byte>, filtered: bool, filters: seq<Byte>, shape: Shape, policyName: seq<Byte>, policy: Filters.Policy)
    requires BlocksIn(file, shape.blocks, shape.handles) && Separated(PairsOf(shape.blocks), shape.separators)
    requires |shape.handles| == |shape.blocks|
    requires shape.index.Valid() && |shape.separators| <= |shape.handles|
    requires shape.index.pairs == IndexPairs(shape.separators, shape.handles)
    requires shape.meta.Valid()
    requires shape.meta.pairs == (if filtered then [Pair(FILTER_PREFIX + policyName, shape.filterHandle.Encoded())] else [])
    requires filtered ==> filters == Filters.Contents(InternalPolicy(policy), shape.groups)
    requires filtered ==> Grouped(shape.blocks, shape.handles, shape.groups, []) && shape.filterHandle == Handle(|file|, |filters|)
    requires var file1 := Appended(file, filtered, filters);
      var file2 := file1 + Stored(Contents(shape.meta));
      shape.metaHandle == Handle(|file1|, |Contents(shape.meta)|) && shape.indexHandle == Handle(|file2|, |Contents(shape.index)|)
    ensures IsTable(Appended(file, filtered, filters) + Stored(Contents(shape.meta)) + Stored(Contents(shape.index))
      + Footer(shape.metaHandle, shape.indexHandle), shape, policyName, policy, filtered)
  {
    hide Stored, Contents, Layout.Valid, BlocksIn, Separated, StoredAt, IndexPairs, Filters.Contents, Grouped,
      Footer, Handle.Encoded;
    var file1 := Appended(file, filtered, filters);
    var file2 := file1 + Stored(Contents(shape.meta));
    var file3 := file2 + Stored(Contents(shape.index));
    var file4 := file3 + Footer(shape.metaHandle, shape.indexHandle);
    if filtered {
      BlocksStay(file, Stored(filters), shape.blocks, shape.handles);
      StoredAtEnd(file, filters);
      StoredAtStays(file1, Stored(Contents(shape.meta)), shape.filterHandle, filters);
      StoredAtStays(file2, Stored(Contents(shape.index)), shape.filterHandle, filters);
      StoredAtStays(file3, Footer(shape.metaHandle, shape.indexHandle), shape.filterHandle, filters);
    }
    BlocksStay(file1, Stored(Contents(shape.meta)), shape.blocks, shape.handles);
    BlocksStay(file2, Stored(Contents(shape.index)), shape.blocks, shape.handles);
    BlocksStay(file3, Footer(shape.metaHandle, shape.indexHandle), shape.blocks, shape.handles);
    StoredAtEnd(file1, Contents(shape.meta));
    StoredAtStays(file2, Stored(Contents(shape.index)), shape.metaHandle, Contents(shape.meta));
    StoredAtStays(file3, Footer(shape.metaHandle, shape.indexHandle), shape.metaHandle, Contents(shape.meta));
    StoredAtEnd(file2, Contents(shape.index));
    StoredAtStays(file3, Footer(shape.metaHandle, shape.indexHandle), shape.indexHandle, Contents(shape.index));
    EndsWith(file3, Footer(shape.metaHandle, shape.indexHandle));
  }

  lemma EndsWith(a: seq<Byte>, b: seq<Byte>)
    ensures (a + b)[|a|..] == b
  {}

  lemma PairsAppend(blocks: seq<Layout>, layout: Layout)
    ensures PairsOf(blocks + [layout]) == PairsOf(blocks) + [layout.pairs]
  {}

  lemma LastBlockFits(file: seq<Byte>, blocks: seq<Layout>, handles: seq<Handle>)
    requires BlocksIn(file, blocks, handles) && blocks != []
    ensures blocks[|blocks| - 1].pairs != [] && |Last(blocks[|blocks| - 1].pairs)| >= 8
  {
    hide Contents, Stored, InternalLess, Layout.Valid;
  }

  lemma SeparatorChosen(blocks: seq<Layout>, separators: seq<seq<Byte>>, separator: seq<Byte>, pair: Pair)
    requires SeparatorsFit(blocks, separators, []) && |separators| < |blocks|
    requires Separates(separator, blocks[|blocks| - 1].pairs, [pair])
    ensures SeparatorsFit(blocks, separators + [separator], [pair])
  {
    hide Separates;
    forall i | 0 <= i <= |separators|
      ensures SeparatorFits(blocks, separators + [separator], [pair], i)
    {
      if i < |separators| {
        assert SeparatorFits(blocks, separators, [], i);
      }
    }
  }

  lemma CurrentGrows(blocks: seq<Layout>, separators: seq<seq<Byte>>, current: seq<Pair>, pair: Pair)
    requires SeparatorsFit(blocks, separators, current) && |separators| == |blocks| && (current != [] || blocks == [])
    ensures SeparatorsFit(blocks, separators, current + [pair])
  {
    forall i | 0 <= i < |separators|
      ensures SeparatorFits(blocks, separators, current + [pair], i)
    {
      assert SeparatorFits(blocks, separators, current, i);
    }
  }

  lemma BlockEnds(blocks: seq<Layout>, separators: seq<seq<Byte>>, layout: Layout)
    requires SeparatorsFit(blocks, separators, layout.pairs) && |separators| == |blocks| && layout.pairs != []
    ensures SeparatorsFit(blocks + [layout], separators, [])
  {
    hide Separates;
    forall i | 0 <= i < |separators|
      ensures SeparatorFits(blocks + [layout], separators, [], i)
    {
      assert SeparatorFits(blocks, separators, layout.pairs, i);
    }
  }

  lemma IndexGrows(separators: seq<seq<Byte>>, separator: seq<Byte>, handles: seq<Handle>)
    requires |separators| < |handles|
    ensures IndexPairs(separators + [separator], handles)
      == IndexPairs(separators, handles) + [Pair(separator, handles[|separators|].Encoded())]
  {}

  lemma {:induction false} EntriesAppend(blocks: seq<seq<Pair>>, block: seq<Pair>)
    ensures Entries(blocks + [block]) == Entries(blocks) + block
  {
    if blocks == [] {
      assert [block][1..] == [];
    } else {
      EntriesAppend(blocks[1..], block);
      assert (blocks + [block])[1..] == blocks[1..] + [block];
    }
  }
}
