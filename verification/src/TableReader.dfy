/** table/table.cc: opening a table file and looking a key up in it. */
module TableReading {
  import opened Bytes
  import opened Coding
  import opened Comparators
  import opened Blocks
  import opened TableFormat
  import opened TableSearch
  import opened TableBuilding
  import Filters
  import Keys

  const INTERNAL_ORDER: Order := (a, b) => InternalLess(a, b)
  const BYTEWISE_ORDER: Order := (a, b) => Less(a, b)

  lemma OrdersAreTransitive()
    ensures Transitive(INTERNAL_ORDER) && Transitive(BYTEWISE_ORDER)
  {
    forall a, b, c | InternalLess(a, b) && InternalLess(b, c)
      ensures InternalLess(a, c)
    {
      InternalIsTransitive(a, b, c);
    }
    forall a, b, c | Less(a, b) && Less(b, c)
      ensures Less(a, c)
    {
      LessIsTransitive(a, b, c);
    }
  }

  /** The first pair at or after the target, by its place. */
  lemma {:induction false} SearchIsFirst(pairs: seq<Pair>, target: seq<Byte>, i: nat)
    requires i <= |pairs|
    requires forall k :: 0 <= k < i ==> InternalLess(pairs[k].key, target)
    requires i < |pairs| ==> AtLeast(pairs[i].key, target)
    ensures LinearSearch(pairs, target) == if i < |pairs| then Keys.Some(pairs[i]) else Keys.None
  {
    hide InternalLess;
    if i > 0 {
      SearchIsFirst(pairs[1..], target, i - 1);
    }
  }

  lemma SeekIsFirst(separators: seq<seq<Byte>>, target: seq<Byte>, i: nat)
    requires i <= |separators|
    requires forall k :: 0 <= k < i ==> InternalLess(separators[k], target)
    requires i < |separators| ==> AtLeast(separators[i], target)
    ensures IndexSeek(separators, target) == i
  {
    hide InternalLess;
  }

  lemma {:induction false} SeparatorsAscend(blocks: seq<seq<Pair>>, separators: seq<seq<Byte>>, i: nat, j: nat)
    requires Separated(blocks, separators) && i < j < |blocks|
    ensures InternalLess(separators[i], separators[j])
    decreases j
  {
    hide InternalLess, Less;
    assert SeparatesAt(blocks, separators, j - 1);
    assert SeparatesAt(blocks, separators, j);
    var first, last := blocks[j][0].key, Last(blocks[j]);
    if first != last {
      InternalIsTransitive(separators[j - 1], first, last);
    }
    if separators[j] != last {
      InternalIsTransitive(separators[j - 1], last, separators[j]);
    }
    if i < j - 1 {
      SeparatorsAscend(blocks, separators, i, j - 1);
      InternalIsTransitive(separators[i], separators[j - 1], separators[j]);
    }
  }

  lemma StoredIsShort(file: seq<Byte>, handle: Handle, contents: seq<Byte>)
    requires StoredAt(file, handle, contents) && |file| < TWO_32
    ensures |contents| < TWO_32 && handle.Fits()
    ensures DecodedHandle(handle.Encoded()) == Got(handle, [])
  {
    hide Stored, DecodedHandle, Handle.Encoded;
    HandleBack(handle, []);
    assert handle.Encoded() + [] == handle.Encoded();
  }

  /** Table::ReadFilter; any failure means no filters. */
  method ReadFilter(file: seq<Byte>, filterHandleValue: seq<Byte>, policy: Filters.Policy, verifyChecksums: bool, ghost shape: Shape)
    returns (filter: Filters.FilterBlockReader?)
    ensures filter != null ==> fresh(filter) && filter.policy == InternalPolicy(policy) && filter.groups == shape.groups && filter.Safe()
    ensures |file| < TWO_32 && filterHandleValue == shape.filterHandle.Encoded() ==>
      (StoredAt(file, shape.filterHandle, Filters.Contents(InternalPolicy(policy), shape.groups)) ==>
        filter != null && filter.Reads())
    ensures filter != null <==>
      DecodedHandle(filterHandleValue).Got? && ReadBlock(file, verifyChecksums, DecodedHandle(filterHandleValue).value).Ok?
  {
    hide Filters.Contents, Stored, StoredAt, ReadBlock, DecodedHandle, Handle.Encoded;
    filter := null;
    if |file| < TWO_32 && StoredAt(file, shape.filterHandle, Filters.Contents(InternalPolicy(policy), shape.groups)) {
      StoredIsShort(file, shape.filterHandle, Filters.Contents(InternalPolicy(policy), shape.groups));
      ReadBlockBack(file, verifyChecksums, shape.filterHandle, Filters.Contents(InternalPolicy(policy), shape.groups));
    }
    var handle := DecodedHandle(filterHandleValue);
    if handle.Got? {
      var block := ReadBlock(file, verifyChecksums, handle.value);
      if block.Ok? {
        filter := new Filters.FilterBlockReader(InternalPolicy(policy), block.contents, shape.groups);
      }
    }
  }

  /** Table::ReadMeta: find the filters through the metaindex block. */
  method ReadMeta(file: seq<Byte>, metaindex: Handle, policyName: seq<Byte>, policy: Filters.Policy, verifyChecksums: bool,
                  ghost shape: Shape, ghost filtered: bool) returns (filter: Filters.FilterBlockReader?)
    ensures filter != null ==> fresh(filter) && filter.policy == InternalPolicy(policy) && filter.groups == shape.groups && filter.Safe()
    ensures |file| < TWO_32 && metaindex == shape.metaHandle && HasFilters(file, shape, policyName, policy, filtered) ==>
      (filter != null) == filtered && (filtered ==> filter.Reads())
  {
    hide Contents, Filters.Contents, Stored, StoredAt, ReadBlock, Layout.Valid, Less;
    ghost var good := |file| < TWO_32 && metaindex == shape.metaHandle && HasFilters(file, shape, policyName, policy, filtered);
    filter := null;
    if good {
      ReadBlockBack(file, verifyChecksums, metaindex, Contents(shape.meta));
      StoredIsShort(file, metaindex, Contents(shape.meta));
    }
    hide HasFilters;
    var block := ReadBlock(file, verifyChecksums, metaindex);
    if !block.Ok? {
      return;
    }
    var _, it := NewIterator(BYTEWISE_ORDER, block.contents, shape.meta);
    if it == null {
      return;
    }
    var key := FILTER_PREFIX + policyName;
    OrdersAreTransitive();
    it.Seek(key);
    if good {
      MetaSeek(file, shape, policyName, policy, filtered, it, key);
    }
    if it.Valid() {
      var pair := it.Current();
      if pair.key == key {
        filter := ReadFilter(file, pair.value, policy, verifyChecksums, shape);
      }
    }
  }

  /** The one entry of the metaindex block, if there is one, is the one sought. */
  lemma MetaSeek(file: seq<Byte>, shape: Shape, policyName: seq<Byte>, policy: Filters.Policy, filtered: bool, it: Iter, key: seq<Byte>)
    requires HasFilters(file, shape, policyName, policy, filtered) && it.layout == shape.meta && it.less == BYTEWISE_ORDER
    requires it.Built() && it.Consistent() && key == FILTER_PREFIX + policyName
    requires it.Ascending() ==> it.FirstNotBefore(key, it.Position())
    ensures it.Valid() <==> filtered
    ensures filtered ==> it.Position() == 0 && shape.meta.pairs[0] == Pair(key, shape.filterHandle.Encoded())
    ensures filtered ==> StoredAt(file, shape.filterHandle, Filters.Contents(InternalPolicy(policy), shape.groups))
  {
    OrdersAreTransitive();
    LessIsTotal(key, key);
    hide Contents, Filters.Contents, Stored, StoredAt, Layout.Valid, Less;
  }

  class Table {
    const file: seq<Byte>
    const policy: Filters.Policy
    const index: seq<Byte>
    const verifyChecksums: bool
    const filter: Filters.FilterBlockReader?
    ghost const shape: Shape

    predicate Safe() { filter != null ==> filter.Safe() }

    /** The index is the table's, and so are the filters if there are any. */
    ghost predicate Reads() {
      && HasData(file, shape) && HasIndex(file, shape) && |file| < TWO_32 && index == Contents(shape.index)
      && (filter != null ==>
            && filter.policy == InternalPolicy(policy) && filter.groups == shape.groups && filter.Reads()
            && |shape.handles| == |shape.blocks| && Grouped(shape.blocks, shape.handles, shape.groups, []))
    }

    constructor (file: seq<Byte>, policy: Filters.Policy, index: seq<Byte>, verifyChecksums: bool,
                 filter: Filters.FilterBlockReader?, ghost shape: Shape)
      ensures this.file == file && this.policy == policy && this.index == index
      ensures this.verifyChecksums == verifyChecksums && this.filter == filter && this.shape == shape
    {
      this.file, this.policy, this.index := file, policy, index;
      this.verifyChecksums, this.filter, this.shape := verifyChecksums, filter, shape;
    }

    /** The filter block denies the block that entry `i` of the index points to. */
    ghost predicate Denies(target: seq<Byte>, i: nat) {
      filter != null && i < |shape.handles|
      && !Filters.MayMatch(filter.policy, shape.groups, shape.handles[i].offset / Filters.FILTER_BASE, target)
    }

    /** What a lookup is to find. */
    ghost function Found(target: seq<Byte>): Keys.Option<Pair>
      requires |shape.separators| == |shape.blocks|
    {
      TableSearch.InternalGet(PairsOf(shape.blocks), shape.separators, (i: nat) => Denies(target, i), target)
    }

    /** BlockReader: the block an index value points to. */
    method BlockReader(indexValue: seq<Byte>, ghost i: nat) returns (it: Iter?)
      requires Safe()
      ensures it != null ==> fresh(it) && it.Consistent() && !it.Valid() && it.less == INTERNAL_ORDER
      ensures Reads() && i < |shape.blocks| && indexValue == shape.handles[i].Encoded() ==>
        it != null && it.Built() && it.layout == shape.blocks[i]
    {
      hide Contents, Stored, StoredAt, ReadBlock, DecodedHandle, Handle.Encoded, Layout.Valid, Separated, IndexPairs,
        Grouped;
      it := null;
      ghost var layout := Layout([], [], [0]);
      if Reads() && i < |shape.blocks| {
        layout := shape.blocks[i];
        StoredIsShort(file, shape.handles[i], Contents(layout));
        ReadBlockBack(file, verifyChecksums, shape.handles[i], Contents(layout));
      }
      var handle := DecodedHandle(indexValue);
      if handle.Got? {
        var block := ReadBlock(file, verifyChecksums, handle.value);
        if block.Ok? {
          var _, iter := NewIterator(INTERNAL_ORDER, block.contents, layout);
          it := iter;
        }
      }
    }

    lemma IndexSeeks(it: Iter, target: seq<Byte>)
      requires Reads() && it.layout == shape.index && it.less == INTERNAL_ORDER && it.Built() && it.Consistent()
      requires it.Ascending() ==> it.FirstNotBefore(target, it.Position())
      ensures |shape.separators| == |shape.blocks| == |shape.handles| == |shape.index.pairs|
      ensures it.Position() == IndexSeek(shape.separators, target)
    {
      hide Contents, Stored, StoredAt, Layout.Valid, Handle.Encoded, InternalLess;
      OrdersAreTransitive();
      var pairs := shape.index.pairs;
      forall i, j | 0 <= i < j < |pairs|
        ensures INTERNAL_ORDER(pairs[i].key, pairs[j].key)
      {
        SeparatorsAscend(PairsOf(shape.blocks), shape.separators, i, j);
      }
      assert forall k :: 0 <= k < |pairs| ==> pairs[k].key == shape.separators[k];
      SeekIsFirst(shape.separators, target, it.Position());
    }

    lemma BlockSeeks(it: Iter, i: nat, target: seq<Byte>)
      requires Reads() && i < |shape.blocks| && it.layout == shape.blocks[i] && it.less == INTERNAL_ORDER
      requires it.Built() && it.Consistent() && (it.Ascending() ==> it.FirstNotBefore(target, it.Position()))
      ensures LinearSearch(shape.blocks[i].pairs, target)
        == if it.Valid() then Keys.Some(shape.blocks[i].pairs[it.Position()]) else Keys.None
    {
      hide Contents, Stored, StoredAt, Layout.Valid, Handle.Encoded, InternalLess;
      OrdersAreTransitive();
      SearchIsFirst(shape.blocks[i].pairs, target, it.Position());
    }

    lemma Sizes()
      requires Reads()
      ensures |shape.separators| == |shape.blocks| == |shape.handles| == |shape.index.pairs|
      ensures forall i :: 0 <= i < |shape.blocks| ==> shape.index.pairs[i].value == shape.handles[i].Encoded()
      ensures forall i :: 0 <= i < |shape.handles| ==> shape.handles[i].Fits()
    {
      hide Contents, Stored, Layout.Valid, Handle.Encoded, InternalLess, Separates, Sorted;
    }

    /** Table::InternalGet. */
    method InternalGet(target: seq<Byte>) returns (found: Keys.Option<Pair>)
      requires Safe()
      ensures Reads() ==> |shape.separators| == |shape.blocks| && found == Found(target)
    {
      hide Contents, Handle.Encoded, DecodedHandle, Filters.MayMatch, LinearSearch, IndexSeek, Layout.Valid, HasData,
        HasIndex,
        Grouped, InternalLess;
      found := Keys.None;
      ghost var good := Reads();
      if good {
        Sizes();
        OpensIndex();
      }
      var _, iiter := NewIterator(INTERNAL_ORDER, index, shape.index);
      if iiter == null {
        return;
      }
      iiter.Seek(target);
      if good {
        IndexSeeks(iiter, target);
      }
      if iiter.Valid() {
        var entry := iiter.Current();
        var handleValue := entry.value;
        ghost var i := iiter.Position();
        if good {
          HandleBack(shape.handles[i], []);
          NothingMore(shape.handles[i].Encoded());
        }
        var denied := false;
        if filter != null {
          var handle := DecodedHandle(handleValue);
          if handle.Got? {
            var may := filter.KeyMayMatch(handle.value.offset, target);
            denied := !may;
          }
        }
        if !denied {
          var blockIter := BlockReader(handleValue, i);
          if blockIter != null {
            blockIter.Seek(target);
            if good {
              BlockSeeks(blockIter, i, target);
            }
            if blockIter.Valid() {
              var pair := blockIter.Current();
              found := Keys.Some(pair);
            }
          }
        }
      }
    }

    lemma NothingMore(s: seq<Byte>)
      ensures s + [] == s
    {}

    lemma OpensIndex()
      requires Reads()
      ensures shape.index.Valid() && index == Contents(shape.index) && |index| < TWO_32
    {
      hide Contents, Stored;
    }
  }

  /** Table::Open; `shape` is the table in the file if there is one. */
  method Open(file: seq<Byte>, policyName: seq<Byte>, policy: Filters.Policy, hasPolicy: bool, verifyChecksums: bool,
              ghost shape: Shape, ghost filtered: bool) returns (table: Table?)
    ensures table != null ==> fresh(table) && table.Safe() && table.shape == shape && table.policy == policy
    ensures |file| < TWO_32 && IsTable(file, shape, policyName, policy, filtered) ==>
      table != null && table.Reads() && (table.filter != null) == (hasPolicy && filtered)
    ensures table != null <==>
      && |file| >= FOOTER_LENGTH
      && var handles := DecodedFooter(file[|file| - FOOTER_LENGTH..]);
         handles.Handles? && ReadBlock(file, verifyChecksums, handles.index).Ok?
  {
    hide Contents, ReadBlock, Stored, StoredAt, Layout.Valid, HasFilters, HasData, Grouped, DecodedFooter, Footer,
      Filters.Contents, IndexPairs;
    table := null;
    ghost var good := |file| < TWO_32 && IsTable(file, shape, policyName, policy, filtered);
    if good {
      StoredIsShort(file, shape.indexHandle, Contents(shape.index));
      ReadBlockBack(file, verifyChecksums, shape.indexHandle, Contents(shape.index));
      FilterParts(file, shape, policyName, policy, filtered);
      FooterIs(file, shape);
    }
    if |file| < FOOTER_LENGTH {
      return;
    }
    var handles := DecodedFooter(file[|file| - FOOTER_LENGTH..]);
    if handles.NotATable? {
      return;
    }
    var block := ReadBlock(file, verifyChecksums, handles.index);
    if !block.Ok? {
      return;
    }
    var filter: Filters.FilterBlockReader? := null;
    if hasPolicy {
      filter := ReadMeta(file, handles.metaindex, policyName, policy, verifyChecksums, shape, filtered);
    }
    table := new Table(file, policy, block.contents, verifyChecksums, filter, shape);
  }

  lemma FooterIs(file: seq<Byte>, shape: Shape)
    requires EndsIn(file, Footer(shape.metaHandle, shape.indexHandle)) && |file| < TWO_32
    requires shape.metaHandle.Fits() && shape.indexHandle.Fits()
    ensures |file| >= FOOTER_LENGTH
    ensures DecodedFooter(file[|file| - FOOTER_LENGTH..]) == Handles(shape.metaHandle, shape.indexHandle)
  {
    hide Footer, DecodedFooter;
    FooterBack(shape.metaHandle, shape.indexHandle);
  }

  lemma FilterParts(file: seq<Byte>, shape: Shape, policyName: seq<Byte>, policy: Filters.Policy, filtered: bool)
    requires HasFilters(file, shape, policyName, policy, filtered) && |file| < TWO_32
    ensures shape.metaHandle.Fits()
    ensures filtered ==> |shape.handles| == |shape.blocks| && Grouped(shape.blocks, shape.handles, shape.groups, [])
  {
    hide Contents, Stored, Grouped, Layout.Valid, Filters.Contents;
  }

  /** A block a filter denies has no entry of the target's user key. */
  lemma DeniedHasNoUser(table: Table, target: seq<Byte>, i: nat)
    requires table.Reads() && table.policy.Sound() && i < |table.shape.blocks| && table.Denies(target, i)
    ensures !HasUser(PairsOf(table.shape.blocks)[i], target)
  {
    hide Contents, Stored, StoredAt, Layout.Valid, Separated, Filters.Contents, Filters.Filters;
    var shape := table.shape;
    var block := shape.blocks[i].pairs;
    if p :| p in block && User(p.key) == User(target) {
      var g := shape.handles[i].offset / Filters.FILTER_BASE;
      assert InGroup(shape.groups, [], g, p.key);
      UserNeverDenied(table.policy, shape.groups[g], p.key, target);
    }
  }

  /**
   * A lookup in an opened table finds nothing or the first entry at or after the target, and finds that
   * entry whenever it is of the target's user key. It misses an entry exactly in a gap, or where the filter denies
   * the block that the index points to.
   */
  lemma LookupsAreRight(table: Table, target: seq<Byte>)
    requires table.Reads() && (table.filter != null ==> table.policy.Sound()) && |target| >= 8
    ensures var entries := Entries(PairsOf(table.shape.blocks));
      && |table.shape.separators| == |table.shape.blocks|
      && (table.Found(target) == Keys.None || table.Found(target) == LinearSearch(entries, target))
      && (LinearSearch(entries, target).Some? && User(LinearSearch(entries, target).value.key) == User(target) ==>
            table.Found(target) == LinearSearch(entries, target))
      && (table.Found(target) == LinearSearch(entries, target) <==>
           (InGap(PairsOf(table.shape.blocks), table.shape.separators, target)
               || table.Denies(target, IndexSeek(table.shape.separators, target)) ==>
             LinearSearch(entries, target) == Keys.None))
  {
    hide Contents, Stored, StoredAt, Layout.Valid, InternalLess, Filters.Contents, HasIndex;
    var shape := table.shape;
    var blocks := PairsOf(shape.blocks);
    assert Separated(blocks, shape.separators);
    forall i: nat | i < |blocks| && table.Denies(target, i)
      ensures !HasUser(blocks[i], target)
    {
      DeniedHasNoUser(table, target, i);
    }
    hide Separated, BlocksIn, HasUser, Grouped;
    UserKeyIsFound(blocks, shape.separators, (i: nat) => table.Denies(target, i), target);
    MissedExactly(blocks, shape.separators, (i: nat) => table.Denies(target, i), target);
  }
}
