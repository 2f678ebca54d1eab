/** A version of db/version_set.cc: seven levels of table files, and point reads over it. */
module Versions {
  import opened Bytes
  import opened Keys

  const NUM_LEVELS: nat := 7

  /** FileMetaData, and the entries of the table it names. */
  datatype File = File(number: nat, size: nat, smallest: InternalKey, largest: InternalKey, entries: seq<Entry>) {
    ghost predicate Valid() {
      && entries != [] && Sorted(entries)
      && smallest == entries[0].key && largest == entries[|entries| - 1].key
    }
  }

  type Version = v: seq<seq<File>> | |v| == NUM_LEVELS witness seq(NUM_LEVELS, _ => [])

  // ------------------------------------------------------------- invariants

  /** Every entry of `f` is newer than every entry of `g` for the same user key. */
  ghost predicate NewerThan(f: File, g: File) {
    forall d, e :: d in f.entries && e in g.entries && d.User() == e.User() ==> d.Sequence() > e.Sequence()
  }

  /** All of `f` sorts before all of `g`. */
  predicate Before(f: File, g: File) {
    Precedes(f.largest, g.smallest)
  }

  ghost predicate AllValid(files: seq<File>) {
    forall f :: f in files ==> f.Valid()
  }

  /** Levels above 0: sorted, and no two files overlap. */
  ghost predicate SortedLevel(files: seq<File>) {
    AllValid(files) && forall i, j :: 0 <= i < j < |files| ==> Before(files[i], files[j])
  }

  /** Level 0: a file with a larger number holds newer entries. */
  ghost predicate LevelZero(files: seq<File>) {
    && AllValid(files)
    && (forall i, j :: 0 <= i < j < |files| ==> files[i].number != files[j].number)
    && forall f, g :: f in files && g in files && f.number > g.number ==> NewerThan(f, g)
  }

  ghost predicate Deeper(upper: seq<File>, lower: seq<File>) {
    forall f, g :: f in upper && g in lower ==> NewerThan(f, g)
  }

  /** The order every installed version keeps. */
  ghost predicate LevelOrder(v: Version) {
    && LevelZero(v[0])
    && (forall l :: 1 <= l < NUM_LEVELS ==> SortedLevel(v[l]))
    && forall k, l :: 0 <= k < l < NUM_LEVELS ==> Deeper(v[k], v[l])
  }

  /** The file order of VersionSet::Builder: BySmallestKey, ties by file number. */
  predicate BySmallest(f: File, g: File) {
    Less(f.smallest, g.smallest) || (!Less(g.smallest, f.smallest) && f.number < g.number)
  }

  ghost predicate InOrder(files: seq<File>) {
    forall i, j :: 0 <= i < j < |files| ==> BySmallest(files[i], files[j])
  }

  ghost function LevelEntries(files: seq<File>): set<Entry> {
    set f, e | f in files && e in f.entries :: e
  }

  ghost function Entries(v: Version): set<Entry> {
    set l, f, e | 0 <= l < NUM_LEVELS && f in v[l] && e in f.entries :: e
  }

  // ------------------------------------------------------------ table lookup

  function LookupKey(user: UserKey, snapshot: SequenceNumber): InternalKey {
    InternalKey(user, snapshot, KIND_FOR_SEEK)
  }

  /** Where a table lookup lands: the first entry at or after `key`. */
  function SeekIndex(entries: seq<Entry>, key: InternalKey): (i: nat)
    ensures i <= |entries|
    ensures forall k :: 0 <= k < i ==> Less(entries[k].key, key)
    ensures i < |entries| ==> !Less(entries[i].key, key)
  {
    if entries == [] || !Less(entries[0].key, key) then 0 else 1 + SeekIndex(entries[1..], key)
  }

  ghost predicate Visible(e: Entry, user: UserKey, snapshot: SequenceNumber) {
    e.User() == user && e.Sequence() <= snapshot
  }

  /** A lookup lands on the newest visible entry of its user key, or past every one. */
  lemma SeekFindsNewest(entries: seq<Entry>, user: UserKey, snapshot: SequenceNumber)
    requires Sorted(entries)
    ensures var i := SeekIndex(entries, LookupKey(user, snapshot));
      && (i < |entries| && entries[i].User() == user ==>
            && Visible(entries[i], user, snapshot)
            && forall e :: e in entries && Visible(e, user, snapshot) ==> e.Sequence() <= entries[i].Sequence())
      && (i == |entries| || entries[i].User() != user ==>
            forall e :: e in entries ==> !Visible(e, user, snapshot))
  {
    var i := SeekIndex(entries, LookupKey(user, snapshot));
    forall k | 0 <= k < |entries| && Visible(entries[k], user, snapshot)
      ensures i <= k
    {
      assert !Less(entries[k].key, LookupKey(user, snapshot));
    }
  }

  // ------------------------------------------------------------------ search

  /** First file whose largest key is at or after `key`. */
  method FindFile(files: seq<File>, key: InternalKey) returns (index: nat)
    requires SortedLevel(files)
    ensures index <= |files|
    ensures forall i :: 0 <= i < index ==> Less(files[i].largest, key)
    ensures forall i :: index <= i < |files| ==> !Less(files[i].largest, key)
  {
    var left, right := 0, |files|;
    while left < right
      invariant 0 <= left <= right <= |files|
      invariant forall i :: 0 <= i < left ==> Less(files[i].largest, key)
      invariant forall i :: right <= i < |files| ==> !Less(files[i].largest, key)
    {
      var mid := (left + right) / 2;
      LargestOrdered(files, mid);
      if Less(files[mid].largest, key) {
        left := mid + 1;
      } else {
        right := mid;
      }
    }
    index := right;
  }

  /** Largest keys grow along a sorted level. */
  lemma LargestOrdered(files: seq<File>, mid: nat)
    requires SortedLevel(files) && mid < |files|
    ensures forall i :: 0 <= i < mid ==> Less(files[i].largest, files[mid].largest)
    ensures forall i :: mid < i < |files| ==> Less(files[mid].largest, files[i].largest)
  {
    forall i, j | 0 <= i < j < |files|
      ensures Less(files[i].largest, files[j].largest)
    {
      assert Before(files[i], files[j]);
      FirstAndLast(files[j]);
    }
  }

  lemma FirstAndLast(f: File)
    requires f.Valid()
    ensures f.smallest == f.largest || Precedes(f.smallest, f.largest)
  {}

  /** Every entry of a file lies between its smallest and its largest key. */
  lemma WithinFile(f: File, e: Entry)
    requires f.Valid() && e in f.entries
    ensures e.key == f.smallest || Precedes(f.smallest, e.key)
    ensures e.key == f.largest || Precedes(e.key, f.largest)
    ensures Covers(f, e.User())
  {
    var k :| 0 <= k < |f.entries| && f.entries[k] == e;
  }

  predicate Covers(f: File, user: UserKey) {
    f.smallest.user <= user <= f.largest.user
  }
}
