/** Internal keys of db/dbformat.h and the multi-version map they stand for. */
module Keys {
  import opened Bytes

  // A user key is its place in the order of the user comparator. Every countable total order
  // embeds in the reals, so no comparator over byte strings is excluded.
  type UserKey = real

  const MAX_SEQUENCE: nat := 0x100_0000_0000_0000 - 1

  type SequenceNumber = n: nat | n <= MAX_SEQUENCE

  datatype Option<+T> = None | Some(value: T)

  datatype Kind = Deletion | Value {
    function Code(): nat { if Deletion? then 0 else 1 }
  }

  const KIND_FOR_SEEK: Kind := Value

  datatype InternalKey = InternalKey(user: UserKey, sequence: SequenceNumber, kind: Kind) {
    /** PackSequenceAndType. */
    function Tag(): nat { sequence * 256 + kind.Code() }
  }

  /** InternalKeyComparator::Compare(a, b) < 0: user keys up, sequence numbers down. */
  predicate Less(a: InternalKey, b: InternalKey) {
    a.user < b.user || (a.user == b.user && a.Tag() > b.Tag())
  }

  datatype Entry = Entry(key: InternalKey, value: seq<Byte>) {
    function User(): UserKey { key.user }
    function Sequence(): SequenceNumber { key.sequence }
    function Kind(): Kind { key.kind }
  }

  /** Strictly sorted, and no two entries of a user key share a sequence number. */
  ghost predicate Sorted(entries: seq<Entry>) {
    forall i, j :: 0 <= i < j < |entries| ==> Precedes(entries[i].key, entries[j].key)
  }

  predicate Precedes(a: InternalKey, b: InternalKey) {
    a.user < b.user || (a.user == b.user && a.sequence > b.sequence)
  }

  // ------------------------------------------------- the multi-version map

  /** `e` is what a reader of `user` at `snapshot` is meant to see. */
  ghost predicate Newest(db: set<Entry>, user: UserKey, snapshot: SequenceNumber, e: Entry) {
    && e in db && e.User() == user && e.Sequence() <= snapshot
    && forall x :: x in db && x.User() == user && x.Sequence() <= snapshot ==> x.Sequence() <= e.Sequence()
  }

  /** The value a reader gets: that of the newest visible entry, unless it is a deletion marker. */
  ghost predicate Reads(db: set<Entry>, user: UserKey, snapshot: SequenceNumber, value: Option<seq<Byte>>) {
    if value.Some? then
      exists e :: Newest(db, user, snapshot, e) && e.Kind().Value? && e.value == value.value
    else
      forall e :: Newest(db, user, snapshot, e) ==> e.Kind().Deletion?
  }

  /** No two entries of a user key share a sequence number. */
  ghost predicate Distinct(db: set<Entry>) {
    forall a, b :: a in db && b in db && a.User() == b.User() && a.Sequence() == b.Sequence() ==> a == b
  }

  lemma ReadsIsFunction(db: set<Entry>, user: UserKey, snapshot: SequenceNumber, a: Option<seq<Byte>>, b: Option<seq<Byte>>)
    requires Distinct(db)
    requires Reads(db, user, snapshot, a) && Reads(db, user, snapshot, b)
    ensures a == b
  {}

  /** A visible entry of a finite database implies a newest one. */
  lemma {:induction false} NewestExists(db: set<Entry>, user: UserKey, snapshot: SequenceNumber, e: Entry)
    returns (newest: Entry)
    requires e in db && e.User() == user && e.Sequence() <= snapshot
    ensures Newest(db, user, snapshot, newest) && e.Sequence() <= newest.Sequence()
    decreases snapshot - e.Sequence()
  {
    if x :| x in db && x.User() == user && e.Sequence() < x.Sequence() <= snapshot {
      newest := NewestExists(db, user, snapshot, x);
    } else {
      newest := e;
    }
  }

  /** Databases that agree on what every reader sees. */
  ghost predicate SameReads(a: set<Entry>, b: set<Entry>, user: UserKey, snapshot: SequenceNumber) {
    forall value :: Reads(a, user, snapshot, value) <==> Reads(b, user, snapshot, value)
  }

  /** No reader at a snapshot from `oldest` on can tell the two apart. */
  ghost predicate SameFrom(a: set<Entry>, b: set<Entry>, oldest: SequenceNumber) {
    forall user, snapshot: SequenceNumber :: snapshot >= oldest ==> SameReads(a, b, user, snapshot)
  }
}
