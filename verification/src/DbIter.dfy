/** db/db_iter.cc: the user-visible cursor over the internal entries, with its direction switches. */
module DbIter {
  import opened Bytes
  import opened Keys
  import opened Iterators

  // -------------------------------------------------------------- what is live

  predicate VisibleAt(entries: seq<Entry>, s: SequenceNumber, i: nat)
    requires i < |entries|
  {
    entries[i].Sequence() <= s
  }

  /** The newest visible entry of its user key, and a value. */
  ghost predicate LiveAt(entries: seq<Entry>, s: SequenceNumber, i: nat)
    requires i < |entries|
  {
    && VisibleAt(entries, s, i) && entries[i].Kind().Value?
    && forall k :: 0 <= k < i && entries[k].User() == entries[i].User() ==> !VisibleAt(entries, s, k)
  }

  /** The live indices below `n`, in order. */
  ghost function LiveBelow(entries: seq<Entry>, s: SequenceNumber, n: nat): seq<nat>
    requires n <= |entries|
  {
    if n == 0 then []
    else LiveBelow(entries, s, n - 1) + if LiveAt(entries, s, n - 1) then [n - 1] else []
  }

  ghost function Live(entries: seq<Entry>, s: SequenceNumber): seq<nat> { LiveBelow(entries, s, |entries|) }

  /** Place of index `i` among the live indices. */
  ghost function Rank(entries: seq<Entry>, s: SequenceNumber, i: nat): nat
    requires i <= |entries|
  {
    |LiveBelow(entries, s, i)|
  }

  lemma {:induction false} LiveBelowFacts(entries: seq<Entry>, s: SequenceNumber, n: nat)
    requires n <= |entries|
    ensures forall p :: 0 <= p < Rank(entries, s, n) ==>
      var i := LiveBelow(entries, s, n)[p]; i < n && LiveAt(entries, s, i) && Rank(entries, s, i) == p
    ensures forall i :: 0 <= i < n && LiveAt(entries, s, i) ==>
      Rank(entries, s, i) < Rank(entries, s, n) && LiveBelow(entries, s, n)[Rank(entries, s, i)] == i
  {
    hide LiveAt;
    if n > 0 {
      LiveBelowFacts(entries, s, n - 1);
    }
  }

  /** No live index lies in [from, below). */
  ghost predicate NoneLive(entries: seq<Entry>, s: SequenceNumber, from: nat, below: nat) {
    below <= |entries| && forall k :: from <= k < below ==> !LiveAt(entries, s, k)
  }

  lemma {:induction false} RankSkips(entries: seq<Entry>, s: SequenceNumber, from: nat, below: nat)
    requires from <= below && NoneLive(entries, s, from, below)
    ensures Rank(entries, s, from) == Rank(entries, s, below)
    decreases below
  {
    hide LiveAt;
    if from < below {
      RankSkips(entries, s, from, below - 1);
    }
  }

  /** Key and value of the `p`-th live entry. */
  ghost function LiveKey(entries: seq<Entry>, s: SequenceNumber, p: nat): UserKey
    requires p < |Live(entries, s)|
  {
    LiveBelowFacts(entries, s, |entries|);
    entries[Live(entries, s)[p]].User()
  }

  ghost function LiveValue(entries: seq<Entry>, s: SequenceNumber, p: nat): seq<Byte>
    requires p < |Live(entries, s)|
  {
    LiveBelowFacts(entries, s, |entries|);
    entries[Live(entries, s)[p]].value
  }

  /** Position `p` is the last visible entry of the keys before that of `current`, or off the end. */
  ghost predicate JustBefore(entries: seq<Entry>, s: SequenceNumber, p: nat, current: nat)
    requires current < |entries|
  {
    && (p < |entries| ==> entries[p].User() < entries[current].User())
    && forall k :: 0 <= k < |entries| && (p < |entries| ==> p < k) && entries[k].User() < entries[current].User()
         ==> !VisibleAt(entries, s, k)
  }

  lemma {:induction false} RankGrows(entries: seq<Entry>, s: SequenceNumber, i: nat, j: nat)
    requires i <= j <= |entries|
    ensures Rank(entries, s, i) <= Rank(entries, s, j)
    decreases j
  {
    hide LiveAt;
    if i < j {
      RankGrows(entries, s, i, j - 1);
    }
  }

  /** The first live index after `was` has the next rank. */
  lemma StepUp(entries: seq<Entry>, s: SequenceNumber, start: nat, was: nat, next: nat)
    requires Sorted(entries) && start <= was < |entries| && LiveAt(entries, s, was) && next <= |entries|
    requires forall k :: start <= k < next && LiveAt(entries, s, k) ==> entries[k].User() <= entries[was].User()
    requires next < |entries| ==> start <= next && LiveAt(entries, s, next) && entries[was].User() < entries[next].User()
    ensures Rank(entries, s, next) == Rank(entries, s, was) + 1
    ensures next < |entries| ==> Rank(entries, s, next) < |Live(entries, s)|
  {
    assert was < next;
    assert NoneLive(entries, s, was + 1, next);
    RankSkips(entries, s, was + 1, next);
    LiveBelowFacts(entries, s, |entries|);
  }

  /** So has the last live index before `was` the previous one; `next` is one past it. */
  lemma StepDown(entries: seq<Entry>, s: SequenceNumber, start: nat, next: nat, was: nat)
    requires Sorted(entries) && was < |entries| && LiveAt(entries, s, was) && JustBefore(entries, s, start, was)
    requires if start < |entries| then next <= start + 1 && NoneLive(entries, s, next, start + 1) else next == 0
    requires next > 0 ==> LiveAt(entries, s, next - 1)
    ensures Rank(entries, s, was) == if next == 0 then 0 else Rank(entries, s, next - 1) + 1
  {
    forall k | next <= k < was
      ensures !LiveAt(entries, s, k)
    {
      if start < |entries| && k <= start {
      } else if entries[k].User() < entries[was].User() {
      }
    }
    RankSkips(entries, s, next, was);
  }

  /** Stopping at the first live index at `target` or above divides the live keys at `target`. */
  lemma SplitAt(entries: seq<Entry>, s: SequenceNumber, target: UserKey, next: nat)
    requires Sorted(entries) && next <= |entries|
    requires forall k :: 0 <= k < next && LiveAt(entries, s, k) ==> entries[k].User() < target
    requires next < |entries| ==> LiveAt(entries, s, next) && target <= entries[next].User()
    ensures forall p :: 0 <= p < |Live(entries, s)| ==> (LiveKey(entries, s, p) < target <==> p < Rank(entries, s, next))
  {
    LiveBelowFacts(entries, s, |entries|);
    LiveBelowFacts(entries, s, next);
    forall p | 0 <= p < |Live(entries, s)|
      ensures LiveKey(entries, s, p) < target <==> p < Rank(entries, s, next)
    {
      var i := Live(entries, s)[p];
      if next <= i {
        RankGrows(entries, s, next, i);
      }
    }
  }

  lemma Overridden(entries: seq<Entry>, s: SequenceNumber, newer: nat, older: nat)
    requires newer < older < |entries| && VisibleAt(entries, s, newer) && entries[newer].User() == entries[older].User()
    ensures !LiveAt(entries, s, older)
  {}

  lemma Dead(entries: seq<Entry>, s: SequenceNumber, i: nat)
    requires i < |entries| && (VisibleAt(entries, s, i) ==> entries[i].Kind().Deletion?)
    ensures !LiveAt(entries, s, i)
  {}

  /** A visible value with nothing visible before it among the entries of its key is live. */
  lemma NewestIsLive(entries: seq<Entry>, s: SequenceNumber, p: nat, low: nat, i: nat)
    requires Sorted(entries) && low <= i < |entries| && VisibleAt(entries, s, i) && entries[i].Kind().Value?
    requires forall k :: low <= k < i ==> !VisibleAt(entries, s, k)
    requires if p < |entries| then low == p + 1 && entries[p].User() < entries[i].User() else low == 0
    ensures LiveAt(entries, s, i)
    ensures JustBefore(entries, s, p, i)
  {}

  ghost function EntrySet(entries: seq<Entry>): set<Entry> { set e | e in entries }

  ghost predicate Lists(entries: seq<Entry>, s: SequenceNumber, user: UserKey, value: seq<Byte>, p: nat) {
    p < |Live(entries, s)| && LiveKey(entries, s, p) == user && LiveValue(entries, s, p) == value
  }

  /** The live entries list exactly what a reader at the snapshot can read, in strictly increasing key order. */
  lemma LiveIsWhatReadersSee(entries: seq<Entry>, s: SequenceNumber)
    requires Sorted(entries)
    ensures forall p, q :: 0 <= p < q < |Live(entries, s)| ==> LiveKey(entries, s, p) < LiveKey(entries, s, q)
    ensures forall user, value ::
      Reads(EntrySet(entries), user, s, Some(value)) <==> exists p :: Lists(entries, s, user, value, p)
  {
    LiveBelowFacts(entries, s, |entries|);
    forall p, q | 0 <= p < q < |Live(entries, s)|
      ensures LiveKey(entries, s, p) < LiveKey(entries, s, q)
    {
      var i, j := Live(entries, s)[p], Live(entries, s)[q];
      if j <= i {
        RankGrows(entries, s, j, i);
      }
    }
    forall user, value
      ensures Reads(EntrySet(entries), user, s, Some(value)) <==> exists p :: Lists(entries, s, user, value, p)
    {
      ReadsIsLive(entries, s, user, value);
    }
  }

  lemma ReadsIsLive(entries: seq<Entry>, s: SequenceNumber, user: UserKey, value: seq<Byte>)
    requires Sorted(entries)
    ensures Reads(EntrySet(entries), user, s, Some(value)) <==> exists p :: Lists(entries, s, user, value, p)
  {
    if Reads(EntrySet(entries), user, s, Some(value)) {
      ReadIsLive(entries, s, user, value);
    }
    if p: nat :| Lists(entries, s, user, value, p) {
      LiveIsRead(entries, s, user, value, p);
    }
  }

  lemma LiveIsRead(entries: seq<Entry>, s: SequenceNumber, user: UserKey, value: seq<Byte>, p: nat)
    requires Sorted(entries) && Lists(entries, s, user, value, p)
    ensures Reads(EntrySet(entries), user, s, Some(value))
  {
    LiveBelowFacts(entries, s, |entries|);
    var i := Live(entries, s)[p];
    assert Newest(EntrySet(entries), user, s, entries[i]);
  }

  lemma ReadIsLive(entries: seq<Entry>, s: SequenceNumber, user: UserKey, value: seq<Byte>)
    requires Sorted(entries) && Reads(EntrySet(entries), user, s, Some(value))
    ensures exists p :: Lists(entries, s, user, value, p)
  {
    LiveBelowFacts(entries, s, |entries|);
    var e :| Newest(EntrySet(entries), user, s, e) && e.Kind().Value? && e.value == value;
    var i: nat :| i < |entries| && entries[i] == e;
    forall k | 0 <= k < i && entries[k].User() == user
      ensures !VisibleAt(entries, s, k)
    {
      assert entries[k] in EntrySet(entries);
    }
    assert Lists(entries, s, user, value, Rank(entries, s, i));
  }

  datatype Direction = Forward | Reverse

  class DBIter {
    // The merging iterator over the memtables and table files, by the contract proved of it in Merger.
    const iter: InternalIterator
    const sequence: SequenceNumber
    var savedKey: Option<UserKey>
    var savedValue: seq<Byte>
    var direction: Direction
    var valid: bool
    ghost var current: nat

    constructor (iter: InternalIterator, sequence: SequenceNumber)
      requires Sorted(iter.entries)
      ensures this.iter == iter && this.sequence == sequence && !valid && Consistent()
    {
      this.iter, this.sequence := iter, sequence;
      savedKey, savedValue, direction, valid := None, [], Forward, false;
      current := 0;
    }

    /**
     * Forward, the internal iterator stands on the current entry. In reverse, the entry is saved and
     * the internal iterator stands on the last visible entry of the keys before it, or nowhere.
     */
    ghost predicate Consistent()
      reads this, iter
    {
      && Sorted(iter.entries)
      && (valid ==> current < |iter.entries| && LiveAt(iter.entries, sequence, current))
      && (valid && direction.Forward? ==> iter.pos == current)
      && (valid && direction.Reverse? ==>
            && savedKey == Some(iter.entries[current].User()) && savedValue == iter.entries[current].value
            && JustBefore(iter.entries, sequence, iter.pos, current))
    }

    /** Where the cursor stands in the list of live entries. */
    ghost function Position(): Option<nat>
      reads this, iter
      requires Consistent()
      ensures Position().Some? ==> Position().value < |Live(iter.entries, sequence)|
    {
      LiveBelowFacts(iter.entries, sequence, |iter.entries|);
      if valid then Some(Rank(iter.entries, sequence, current)) else None
    }

    method Key() returns (key: UserKey)
      requires Consistent() && valid
      ensures key == LiveKey(iter.entries, sequence, Position().value)
    {
      LiveBelowFacts(iter.entries, sequence, |iter.entries|);
      if direction == Forward {
        key := iter.entries[iter.pos].User();
      } else {
        key := savedKey.value;
      }
    }

    method Value() returns (value: seq<Byte>)
      requires Consistent() && valid
      ensures value == LiveValue(iter.entries, sequence, Position().value)
    {
      LiveBelowFacts(iter.entries, sequence, |iter.entries|);
      if direction == Forward {
        value := iter.entries[iter.pos].value;
      } else {
        value := savedValue;
      }
    }

    /**
     * From the internal position on, stop at the first live entry past the key to skip. Callers stand
     * where no visible entry behind them shares a user key with one ahead that is not skipped.
     */
    method FindNextUserEntry(skipping: bool)
      requires Sorted(iter.entries) && iter.Valid() && direction.Forward?
      requires skipping ==> savedKey.Some?
      requires forall k, j :: 0 <= k < iter.pos <= j < |iter.entries| ==>
        (VisibleAt(iter.entries, sequence, k) && iter.entries[k].User() == iter.entries[j].User() ==>
          skipping && iter.entries[k].User() <= savedKey.value)
      requires skipping ==>
        forall k :: iter.pos <= k < |iter.entries| && VisibleAt(iter.entries, sequence, k) ==> savedKey.value <= iter.entries[k].User()
      modifies this, iter
      ensures Consistent() && direction.Forward?
      ensures valid ==> current >= old(iter.pos)
      ensures valid && skipping ==> old(savedKey).value < iter.entries[current].User()
      ensures forall k :: old(iter.pos) <= k < |iter.entries| && (valid ==> k < current) ==>
        (LiveAt(iter.entries, sequence, k) ==> skipping && iter.entries[k].User() <= old(savedKey).value)
    {
      var skip := skipping;
      ghost var start, skipped := iter.pos, savedKey;
      ghost var hider: nat := start;
      while iter.Valid()
        invariant start <= iter.pos <= |iter.entries|
        invariant direction.Forward?
        invariant skip ==> savedKey.Some?
        invariant skip && !(skipping && savedKey == skipped) ==>
          start <= hider < iter.pos && VisibleAt(iter.entries, sequence, hider) && savedKey.value == iter.entries[hider].User()
        invariant skipping ==> skip && skipped.value <= savedKey.value
        invariant forall k :: start <= k < iter.pos ==>
          (VisibleAt(iter.entries, sequence, k) ==> skip && iter.entries[k].User() <= savedKey.value)
        invariant forall k :: start <= k < iter.pos ==>
          (LiveAt(iter.entries, sequence, k) ==> skipping && iter.entries[k].User() <= skipped.value)
        decreases |iter.entries| - iter.pos
      {
        var entry := iter.entries[iter.pos];
        if entry.Sequence() <= sequence {
          match entry.Kind()
          case Deletion =>
            savedKey, skip := Some(entry.User()), true;
            hider := iter.pos;
          case Value =>
            if skip && entry.User() <= savedKey.value {
              // Hidden.
            } else {
              valid, current := true, iter.pos;
              savedKey := None;
              return;
            }
        }
        iter.Next();
      }
      savedKey, valid := None, false;
    }

    /**
     * From the internal position down, save the nearest live entry and stop before its key; when no
     * live entry is left, become invalid.
     */
    method FindPrevUserEntry()
      requires Sorted(iter.entries) && direction.Reverse?
      modifies this, iter
      ensures Consistent() && (valid ==> direction.Reverse? && current <= old(iter.pos) < |iter.entries|)
      ensures old(iter.pos) < |iter.entries| ==>
        NoneLive(iter.entries, sequence, if valid then current + 1 else 0, old(iter.pos) + 1)
    {
      hide LiveAt, JustBefore;
      var valueType := Kind.Deletion;
      ghost var start, low := iter.pos, if iter.Valid() then iter.pos + 1 else 0;
      while iter.Valid()
        invariant direction.Reverse?
        invariant low == if iter.Valid() then iter.pos + 1 else 0
        invariant start < |iter.entries| ==> low <= start + 1
        invariant start >= |iter.entries| ==> low == 0 && valueType.Deletion?
        invariant valueType.Deletion? && start < |iter.entries| ==> NoneLive(iter.entries, sequence, low, start + 1)
        invariant valueType.Value? ==>
          && low <= current <= start < |iter.entries|
          && iter.entries[current].Kind().Value? && VisibleAt(iter.entries, sequence, current)
          && savedKey == Some(iter.entries[current].User()) && savedValue == iter.entries[current].value
          && (forall k :: low <= k < current ==> !VisibleAt(iter.entries, sequence, k))
          && NoneLive(iter.entries, sequence, low, current) && NoneLive(iter.entries, sequence, current + 1, start + 1)
        decreases low
      {
        var entry := iter.entries[iter.pos];
        if entry.Sequence() <= sequence {
          if valueType != Deletion && entry.User() < savedKey.value {
            break;
          }
          if valueType.Value? {
            assert entry.User() == iter.entries[current].User();
            Overridden(iter.entries, sequence, iter.pos, current);
          }
          valueType := entry.Kind();
          if valueType == Deletion {
            savedKey, savedValue := None, [];
          } else {
            savedKey, savedValue := Some(entry.User()), entry.value;
            current := iter.pos;
          }
        }
        if entry.Sequence() > sequence || valueType == Deletion {
          Dead(iter.entries, sequence, iter.pos);
        }
        iter.Prev();
        low := low - 1;
      }
      if valueType == Deletion {
        valid, savedKey, savedValue, direction := false, None, [], Forward;
      } else {
        valid := true;
        NewestIsLive(iter.entries, sequence, iter.pos, low, current);
      }
    }

    /** To the next live entry, or off the end. */
    method Next()
      requires Consistent() && valid
      modifies this, iter
      ensures Consistent()
      ensures valid <==> old(Position()).value + 1 < |Live(iter.entries, sequence)|
      ensures valid ==> Position() == Some(old(Position()).value + 1)
    {
      ghost var was := current;
      if direction == Reverse {
        direction := Forward;
        if !iter.Valid() {
          iter.SeekToFirst();
        } else {
          iter.Next();
        }
        // The current entry is ahead, so the test for exhaustion at db_iter.cc:154 never succeeds.
        assert iter.Valid();
      } else {
        savedKey := Some(iter.entries[iter.pos].User());
      }
      ghost var start := iter.pos;
      FindNextUserEntry(true);
      StepUp(iter.entries, sequence, start, was, if valid then current else |iter.entries|);
    }

    /** To the previous live entry, or off the front. */
    method Prev()
      requires Consistent() && valid
      modifies this, iter
      ensures Consistent()
      ensures valid <==> old(Position()).value > 0
      ensures valid ==> Position() == Some(old(Position()).value - 1)
    {
      ghost var was := current;
      if direction == Forward {
        savedKey := Some(iter.entries[iter.pos].User());
        while true
          invariant iter.pos <= was && direction.Forward? && savedKey == Some(iter.entries[was].User())
          invariant forall k :: iter.pos <= k <= was ==> iter.entries[k].User() == iter.entries[was].User()
          decreases iter.pos
        {
          iter.Prev();
          if !iter.Valid() {
            valid, savedKey, savedValue := false, None, [];
            StepDown(iter.entries, sequence, |iter.entries|, 0, was);
            return;
          }
          if iter.entries[iter.pos].User() < savedKey.value {
            break;
          }
        }
        direction := Reverse;
      }
      ghost var start := iter.pos;
      FindPrevUserEntry();
      StepDown(iter.entries, sequence, start, if valid then current + 1 else 0, was);
    }

    /** To the first live entry whose user key is `target` or above. */
    method Seek(target: UserKey)
      requires Sorted(iter.entries)
      modifies this, iter
      ensures Consistent()
      ensures forall p :: 0 <= p < |Live(iter.entries, sequence)| ==>
        (LiveKey(iter.entries, sequence, p) < target <==> (valid ==> p < Position().value))
    {
      direction, savedValue, savedKey := Forward, [], None;
      iter.Seek(InternalKey(target, sequence, KIND_FOR_SEEK));
      if iter.Valid() {
        FindNextUserEntry(false);
      } else {
        valid := false;
      }
      SplitAt(iter.entries, sequence, target, if valid then current else |iter.entries|);
    }

    method SeekToFirst()
      requires Sorted(iter.entries)
      modifies this, iter
      ensures Consistent()
      ensures Position() == if |Live(iter.entries, sequence)| > 0 then Some(0) else None
    {
      direction, savedValue := Forward, [];
      iter.SeekToFirst();
      if iter.Valid() {
        FindNextUserEntry(false);
      } else {
        valid := false;
      }
      RankSkips(iter.entries, sequence, 0, if valid then current else |iter.entries|);
      LiveBelowFacts(iter.entries, sequence, |iter.entries|);
    }

    method SeekToLast()
      requires Sorted(iter.entries)
      modifies this, iter
      ensures Consistent()
      ensures Position() ==
        if |Live(iter.entries, sequence)| > 0 then Some(|Live(iter.entries, sequence)| - 1) else None
    {
      direction, savedValue := Reverse, [];
      iter.SeekToLast();
      FindPrevUserEntry();
      RankSkips(iter.entries, sequence, if valid then current + 1 else 0, |iter.entries|);
      LiveBelowFacts(iter.entries, sequence, |iter.entries|);
    }
  }
}
