/** Point reads: Version::Get, MemTable::Get and DBImpl::Get. */
module Reads {
  import opened Bytes
  import opened Keys
  import opened Versions

  /** SaverState: what one table or memtable says about a user key. */
  datatype Lookup = NotFound | Found(value: seq<Byte>) | Deleted {
    /** Both ways of being absent are Status::NotFound to the caller. */
    function ToValue(): Option<seq<Byte>> { if Found? then Some(value) else None }
  }

  /** `r` is the truth about `user` at `snapshot` in `db`. */
  ghost predicate Answers(db: set<Entry>, user: UserKey, snapshot: SequenceNumber, r: Lookup) {
    if r.NotFound? then forall e :: e in db ==> !Visible(e, user, snapshot)
    else exists e :: Newest(db, user, snapshot, e) && Shows(e, r)
  }

  predicate Shows(e: Entry, r: Lookup) {
    if e.Kind().Value? then r == Found(e.value) else r.Deleted?
  }

  lemma AnswersReads(db: set<Entry>, user: UserKey, snapshot: SequenceNumber, r: Lookup)
    requires Distinct(db) && Answers(db, user, snapshot, r)
    ensures Keys.Reads(db, user, snapshot, r.ToValue())
  {}

  ghost function Contents(entries: seq<Entry>): set<Entry> { set e | e in entries }

  ghost predicate AllNewer(a: set<Entry>, b: set<Entry>) {
    forall d, e :: d in a && e in b && d.User() == e.User() ==> d.Sequence() > e.Sequence()
  }

  /** Searching the newer part first is searching both. */
  lemma AnswersFirst(a: set<Entry>, b: set<Entry>, user: UserKey, snapshot: SequenceNumber, ra: Lookup, rb: Lookup)
    requires AllNewer(a, b)
    requires Answers(a, user, snapshot, ra) && (ra.NotFound? ==> Answers(b, user, snapshot, rb))
    ensures Answers(a + b, user, snapshot, if ra.NotFound? then rb else ra)
  {
    if ra.NotFound? {
      if !rb.NotFound? {
        var e :| Newest(b, user, snapshot, e) && Shows(e, rb);
        assert Newest(a + b, user, snapshot, e);
      }
    } else {
      var e :| Newest(a, user, snapshot, e) && Shows(e, ra);
      assert Newest(a + b, user, snapshot, e);
    }
  }

  /** MemTable::Get, and TableCache::Get with SaveValue: land on a key, then compare user keys. */
  function TableGet(entries: seq<Entry>, user: UserKey, snapshot: SequenceNumber): Lookup {
    var i := SeekIndex(entries, LookupKey(user, snapshot));
    if i == |entries| || entries[i].User() != user then NotFound
    else if entries[i].Kind().Value? then Found(entries[i].value)
    else Deleted
  }

  lemma TableGetAnswers(entries: seq<Entry>, user: UserKey, snapshot: SequenceNumber)
    requires Sorted(entries)
    ensures Answers(Contents(entries), user, snapshot, TableGet(entries, user, snapshot))
  {
    SeekFindsNewest(entries, user, snapshot);
    var i := SeekIndex(entries, LookupKey(user, snapshot));
    if i < |entries| && entries[i].User() == user {
      assert Newest(Contents(entries), user, snapshot, entries[i]);
    }
  }

  // ------------------------------------------------------------- level 0 order

  /** Files newest first, by number. */
  ghost predicate NewestFirst(files: seq<File>) {
    forall i, j :: 0 <= i < j < |files| ==> files[i].number > files[j].number
  }

  /** std::sort with the comparator NewestFirst, as an insertion sort. */
  method SortNewestFirst(files: seq<File>) returns (sorted: seq<File>)
    requires forall i, j :: 0 <= i < j < |files| ==> files[i].number != files[j].number
    ensures NewestFirst(sorted)
    ensures forall f :: f in sorted <==> f in files
  {
    sorted := [];
    for k := 0 to |files|
      invariant NewestFirst(sorted)
      invariant forall f :: f in sorted <==> f in files[..k]
    {
      var f := files[k];
      var at := 0;
      while at < |sorted| && sorted[at].number > f.number
        invariant 0 <= at <= |sorted|
        invariant forall i :: 0 <= i < at ==> sorted[i].number > f.number
      {
        at := at + 1;
      }
      assert forall g :: g in sorted ==> g.number != f.number;
      var before := sorted;
      sorted := before[..at] + [f] + before[at..];
      assert forall g :: g in before <==> g in before[..at] || g in before[at..];
    }
    assert files[..|files|] == files;
  }

  // ------------------------------------------------------------- Version::Get

  /** The part of level 0 that may hold `user`, newest first. */
  method OverlappingNewestFirst(files: seq<File>, user: UserKey) returns (tmp: seq<File>)
    requires LevelZero(files)
    ensures NewestFirst(tmp)
    ensures forall f :: f in tmp <==> f in files && Covers(f, user)
  {
    tmp := [];
    for i := 0 to |files|
      invariant forall f :: f in tmp <==> f in files[..i] && Covers(f, user)
      invariant forall j, k :: 0 <= j < k < |tmp| ==> tmp[j].number != tmp[k].number
    {
      var f := files[i];
      if user >= f.smallest.user && user <= f.largest.user {
        assert forall g :: g in tmp ==> g.number != f.number;
        tmp := tmp + [f];
      }
    }
    assert files[..|files|] == files;
    tmp := SortNewestFirst(tmp);
  }

  method GetLevelZero(files: seq<File>, user: UserKey, snapshot: SequenceNumber) returns (r: Lookup)
    requires LevelZero(files)
    ensures Answers(LevelEntries(files), user, snapshot, r)
  {
    var tmp := OverlappingNewestFirst(files, user);
    OnlyCovering(files, tmp, user);
    for i := 0 to |tmp|
      invariant forall k, y :: 0 <= k < i && y in tmp[k].entries ==> !Visible(y, user, snapshot)
    {
      var f := tmp[i];
      assert f in tmp;
      TableGetAnswers(f.entries, user, snapshot);
      r := TableGet(f.entries, user, snapshot);
      if !r.NotFound? {
        NewestInLevelZero(files, tmp, i, user, snapshot, r);
        return;
      }
      assert forall y :: y in f.entries ==> y in Contents(f.entries);
    }
    return NotFound;
  }

  /** Files that do not cover a user key hold none of its entries. */
  lemma OnlyCovering(files: seq<File>, tmp: seq<File>, user: UserKey)
    requires AllValid(files)
    requires forall f :: f in files && Covers(f, user) ==> f in tmp
    ensures forall f, e :: f in files && e in f.entries && e.User() == user ==> f in tmp
  {
    forall f, e | f in files && e in f.entries && e.User() == user
      ensures f in tmp
    {
      WithinFile(f, e);
    }
  }

  lemma NewestInLevelZero(files: seq<File>, tmp: seq<File>, i: nat, user: UserKey, snapshot: SequenceNumber, r: Lookup)
    requires LevelZero(files) && NewestFirst(tmp) && i < |tmp|
    requires forall f :: f in tmp ==> f in files
    requires forall f, e :: f in files && e in f.entries && e.User() == user ==> f in tmp
    requires forall k, y :: 0 <= k < i && y in tmp[k].entries ==> !Visible(y, user, snapshot)
    requires !r.NotFound? && Answers(Contents(tmp[i].entries), user, snapshot, r)
    ensures Answers(LevelEntries(files), user, snapshot, r)
  {
    var f := tmp[i];
    assert f in tmp;
    var e :| Newest(Contents(f.entries), user, snapshot, e) && Shows(e, r);
    forall x | x in LevelEntries(files) && Visible(x, user, snapshot)
      ensures x.Sequence() <= e.Sequence()
    {
      var g :| g in files && x in g.entries;
      var j :| 0 <= j < |tmp| && tmp[j] == g;
      OlderInTmp(files, tmp, i, j, user, snapshot, e, x);
    }
    assert Newest(LevelEntries(files), user, snapshot, e);
  }

  lemma OlderInTmp(
      files: seq<File>, tmp: seq<File>, i: nat, j: nat, user: UserKey, snapshot: SequenceNumber, e: Entry, x: Entry)
    requires LevelZero(files) && NewestFirst(tmp) && i < |tmp| && j < |tmp|
    requires tmp[i] in files && tmp[j] in files
    requires forall k, y :: 0 <= k < i && y in tmp[k].entries ==> !Visible(y, user, snapshot)
    requires Newest(Contents(tmp[i].entries), user, snapshot, e)
    requires x in tmp[j].entries && Visible(x, user, snapshot)
    ensures x.Sequence() <= e.Sequence()
  {
    assert i <= j;
    if j == i {
      assert x in Contents(tmp[i].entries);
    } else {
      assert NewerThan(tmp[i], tmp[j]);
    }
  }

  method GetSortedLevel(files: seq<File>, user: UserKey, snapshot: SequenceNumber) returns (r: Lookup)
    requires SortedLevel(files)
    ensures Answers(LevelEntries(files), user, snapshot, r)
  {
    var index := FindFile(files, LookupKey(user, snapshot));
    if index >= |files| {
      NotBefore(files, index, user, snapshot);
      r := NotFound;
    } else if user < files[index].smallest.user {
      NotBefore(files, index, user, snapshot);
      NotAfter(files, index, user, snapshot);
      r := NotFound;
    } else {
      r := TableGet(files[index].entries, user, snapshot);
      OneFileAnswers(files, index, user, snapshot);
    }
  }

  /** Files whose largest key sorts before the lookup key hold nothing visible. */
  lemma NotBefore(files: seq<File>, index: nat, user: UserKey, snapshot: SequenceNumber)
    requires SortedLevel(files) && index <= |files|
    requires forall i :: 0 <= i < index ==> Less(files[i].largest, LookupKey(user, snapshot))
    ensures forall i, e :: 0 <= i < index && e in files[i].entries ==> !Visible(e, user, snapshot)
  {
    forall i, e | 0 <= i < index && e in files[i].entries
      ensures !Visible(e, user, snapshot)
    {
      WithinFile(files[i], e);
    }
  }

  lemma NotAfter(files: seq<File>, index: nat, user: UserKey, snapshot: SequenceNumber)
    requires SortedLevel(files) && index < |files| && user < files[index].smallest.user
    ensures forall i, e :: index <= i < |files| && e in files[i].entries ==> !Visible(e, user, snapshot)
  {
    forall i, e | index <= i < |files| && e in files[i].entries
      ensures !Visible(e, user, snapshot)
    {
      WithinFile(files[i], e);
      FirstAndLast(files[index]);
      assert i > index ==> Before(files[index], files[i]);
    }
  }

  /** In a sorted level only the file the search lands on can answer. */
  lemma OneFileAnswers(files: seq<File>, index: nat, user: UserKey, snapshot: SequenceNumber)
    requires SortedLevel(files) && index < |files|
    requires forall i :: 0 <= i < index ==> Less(files[i].largest, LookupKey(user, snapshot))
    requires !Less(files[index].largest, LookupKey(user, snapshot))
    ensures Answers(LevelEntries(files), user, snapshot, TableGet(files[index].entries, user, snapshot))
  {
    var f := files[index];
    assert f in files;
    NotBefore(files, index, user, snapshot);
    SeekFindsNewest(f.entries, user, snapshot);
    var k := SeekIndex(f.entries, LookupKey(user, snapshot));
    assert k < |f.entries|;
    var e := f.entries[k];
    forall i, x | index < i < |files| && x in files[i].entries && x.User() == user
      ensures e.User() == user && x.Sequence() < e.Sequence()
    {
      WithinFile(files[i], x);
      WithinFile(f, e);
      assert Before(f, files[i]);
    }
    if e.User() == user {
      assert e in f.entries;
      assert e in LevelEntries(files);
      assert Newest(LevelEntries(files), user, snapshot, e);
    }
  }

  /** Version::Get: level by level, newest first. */
  method Get(v: Version, user: UserKey, snapshot: SequenceNumber) returns (r: Lookup)
    requires LevelOrder(v)
    ensures Answers(Entries(v), user, snapshot, r)
  {
    r := GetLevelZero(v[0], user, snapshot);
    UpperFirst(v, 0, user, snapshot, NotFound, r);
    var level := 1;
    while level < NUM_LEVELS && r.NotFound?
      invariant 1 <= level <= NUM_LEVELS
      invariant Answers(UpperEntries(v, level), user, snapshot, r)
    {
      r := GetSortedLevel(v[level], user, snapshot);
      UpperFirst(v, level, user, snapshot, NotFound, r);
      level := level + 1;
    }
    if !r.NotFound? {
      UpperShows(v, level, user, snapshot, r);
    }
    assert level == NUM_LEVELS ==> UpperEntries(v, NUM_LEVELS) == Entries(v);
  }

  /** The entries of the levels above `level`. */
  ghost function UpperEntries(v: Version, level: nat): set<Entry>
    requires level <= NUM_LEVELS
  {
    set l, f, e | 0 <= l < level && f in v[l] && e in f.entries :: e
  }

  lemma UpperNewer(v: Version, level: nat)
    requires LevelOrder(v) && level < NUM_LEVELS
    ensures AllNewer(UpperEntries(v, level), LevelEntries(v[level]))
  {
    forall d, e | d in UpperEntries(v, level) && e in LevelEntries(v[level]) && d.User() == e.User()
      ensures d.Sequence() > e.Sequence()
    {
      var l, f :| 0 <= l < level && f in v[l] && d in f.entries;
      var g :| g in v[level] && e in g.entries;
      assert Deeper(v[l], v[level]);
      assert NewerThan(f, g);
    }
  }

  lemma UpperFirst(v: Version, level: nat, user: UserKey, snapshot: SequenceNumber, ra: Lookup, rb: Lookup)
    requires LevelOrder(v) && level < NUM_LEVELS
    requires Answers(UpperEntries(v, level), user, snapshot, ra)
    requires Answers(LevelEntries(v[level]), user, snapshot, rb)
    ensures Answers(UpperEntries(v, level + 1), user, snapshot, if ra.NotFound? then rb else ra)
  {
    UpperNewer(v, level);
    AnswersFirst(UpperEntries(v, level), LevelEntries(v[level]), user, snapshot, ra, rb);
    assert UpperEntries(v, level + 1) == UpperEntries(v, level) + LevelEntries(v[level]);
  }

  /** An answer found in the upper levels stands for the whole version. */
  lemma {:induction false} UpperShows(v: Version, level: nat, user: UserKey, snapshot: SequenceNumber, r: Lookup)
    requires LevelOrder(v) && level <= NUM_LEVELS && !r.NotFound?
    requires Answers(UpperEntries(v, level), user, snapshot, r)
    ensures Answers(Entries(v), user, snapshot, r)
    decreases NUM_LEVELS - level
  {
    if level == NUM_LEVELS {
      assert UpperEntries(v, NUM_LEVELS) == Entries(v);
    } else {
      UpperNewer(v, level);
      AnswersFirst(UpperEntries(v, level), LevelEntries(v[level]), user, snapshot, r, NotFound);
      assert UpperEntries(v, level + 1) == UpperEntries(v, level) + LevelEntries(v[level]);
      UpperShows(v, level + 1, user, snapshot, r);
    }
  }

  // --------------------------------------------------------------- DBImpl::Get

  /** Memtable over immutable memtable over version, newest first. */
  ghost predicate Layered(mem: seq<Entry>, imm: seq<Entry>, v: Version) {
    && Sorted(mem) && Sorted(imm) && LevelOrder(v)
    && AllNewer(Contents(mem), Contents(imm))
    && AllNewer(Contents(mem), Entries(v))
    && AllNewer(Contents(imm), Entries(v))
  }

  ghost function Everything(mem: seq<Entry>, imm: seq<Entry>, v: Version): set<Entry> {
    Contents(mem) + (Contents(imm) + Entries(v))
  }

  /** DBImpl::Get; an absent immutable memtable is an empty one. */
  method GetFromDatabase(mem: seq<Entry>, imm: seq<Entry>, v: Version, user: UserKey, snapshot: SequenceNumber)
    returns (value: Option<seq<Byte>>)
    requires Layered(mem, imm, v)
    ensures Keys.Reads(Everything(mem, imm, v), user, snapshot, value)
  {
    var r := TableGet(mem, user, snapshot);
    var ri, rv := NotFound, NotFound;
    TableGetAnswers(mem, user, snapshot);
    if r.NotFound? {
      ri := TableGet(imm, user, snapshot);
      TableGetAnswers(imm, user, snapshot);
      if ri.NotFound? {
        rv := Get(v, user, snapshot);
      }
      AnswersFirst(Contents(imm), Entries(v), user, snapshot, ri, rv);
      r := if ri.NotFound? then rv else ri;
    }
    AnswersFirst(Contents(mem), Contents(imm) + Entries(v), user, snapshot, TableGet(mem, user, snapshot), r);
    LayeredDistinct(mem, imm, v);
    AnswersReads(Everything(mem, imm, v), user, snapshot, r);
    value := r.ToValue();
  }

  lemma SortedDistinct(entries: seq<Entry>)
    requires Sorted(entries)
    ensures Distinct(Contents(entries))
  {
    forall i, j | 0 <= i < |entries| && 0 <= j < |entries| && i != j
      ensures entries[i].User() != entries[j].User() || entries[i].Sequence() != entries[j].Sequence()
    {
      assert Precedes(entries[i].key, entries[j].key) || Precedes(entries[j].key, entries[i].key);
    }
  }

  /** Two entries of a sorted level are ordered by file, then within the file. */
  lemma LevelDistinct(files: seq<File>)
    requires SortedLevel(files) || LevelZero(files)
    ensures Distinct(LevelEntries(files))
  {
    forall a, b | a in LevelEntries(files) && b in LevelEntries(files)
        && a.User() == b.User() && a.Sequence() == b.Sequence()
      ensures a == b
    {
      var f :| f in files && a in f.entries;
      var g :| g in files && b in g.entries;
      if f == g {
        SortedDistinct(f.entries);
        assert a in Contents(f.entries) && b in Contents(f.entries);
      } else {
        DifferentFiles(files, f, g, a, b);
      }
    }
  }

  lemma DifferentFiles(files: seq<File>, f: File, g: File, a: Entry, b: Entry)
    requires SortedLevel(files) || LevelZero(files)
    requires f in files && g in files && f != g && a in f.entries && b in g.entries
    ensures a.User() != b.User() || a.Sequence() != b.Sequence()
  {
    var i :| 0 <= i < |files| && files[i] == f;
    var j :| 0 <= j < |files| && files[j] == g;
    WithinFile(f, a);
    WithinFile(g, b);
    if SortedLevel(files) {
      assert Before(f, g) || Before(g, f);
    } else {
      assert f.number != g.number;
      assert NewerThan(f, g) || NewerThan(g, f);
    }
  }

  lemma LevelsDiffer(v: Version, k: nat, l: nat, f: File, g: File, a: Entry, b: Entry)
    requires LevelOrder(v) && k < l < NUM_LEVELS
    requires f in v[k] && g in v[l] && a in f.entries && b in g.entries && a.User() == b.User()
    ensures a.Sequence() > b.Sequence()
  {
    assert Deeper(v[k], v[l]);
    assert NewerThan(f, g);
  }

  lemma EntriesDistinct(v: Version)
    requires LevelOrder(v)
    ensures Distinct(Entries(v))
  {
    forall a, b | a in Entries(v) && b in Entries(v) && a.User() == b.User() && a.Sequence() == b.Sequence()
      ensures a == b
    {
      var k, f :| 0 <= k < NUM_LEVELS && f in v[k] && a in f.entries;
      var l, g :| 0 <= l < NUM_LEVELS && g in v[l] && b in g.entries;
      if k < l {
        LevelsDiffer(v, k, l, f, g, a, b);
      } else if l < k {
        LevelsDiffer(v, l, k, g, f, b, a);
      } else {
        LevelDistinct(v[k]);
        assert a in LevelEntries(v[k]) && b in LevelEntries(v[k]);
      }
    }
  }

  lemma LayeredDistinct(mem: seq<Entry>, imm: seq<Entry>, v: Version)
    requires Layered(mem, imm, v)
    ensures Distinct(Everything(mem, imm, v))
  {
    SortedDistinct(mem);
    SortedDistinct(imm);
    EntriesDistinct(v);
  }
}
