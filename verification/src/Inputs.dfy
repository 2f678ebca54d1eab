/** Choosing the files of a compaction: the search loops of db/version_set.cc. */
module Inputs {
  import opened Keys
  import opened Versions

  // ------------------------------------------------------------------ ranges

  // A missing bound is the null key of the source: before, or after, every user key.
  predicate BelowBegin(begin: Option<UserKey>, user: UserKey) { begin.Some? && user < begin.value }
  predicate AboveEnd(end: Option<UserKey>, user: UserKey) { end.Some? && user > end.value }

  predicate Overlaps(f: File, begin: Option<UserKey>, end: Option<UserKey>) {
    !BelowBegin(begin, f.largest.user) && !AboveEnd(end, f.smallest.user)
  }

  function Overlapping(files: seq<File>, begin: Option<UserKey>, end: Option<UserKey>): (r: seq<File>)
    ensures forall f :: f in r <==> f in files && Overlaps(f, begin, end)
  {
    if files == [] then []
    else
      var last := files[|files| - 1];
      Overlapping(files[..|files| - 1], begin, end) + if Overlaps(last, begin, end) then [last] else []
  }

  /** No file sticks out of the range it overlaps. */
  ghost predicate Closed(files: seq<File>, begin: Option<UserKey>, end: Option<UserKey>) {
    forall f :: f in files && Overlaps(f, begin, end) ==> Inside(f, begin, end)
  }

  predicate Inside(f: File, begin: Option<UserKey>, end: Option<UserKey>) {
    !BelowBegin(begin, f.smallest.user) && !AboveEnd(end, f.largest.user)
  }

  /** Range [b, e] lies within range [x, y]. */
  predicate Within(b: Option<UserKey>, e: Option<UserKey>, x: Option<UserKey>, y: Option<UserKey>) {
    && (x.Some? ==> b.Some? && x.value <= b.value)
    && (y.Some? ==> e.Some? && e.value <= y.value)
  }

  /** What GetOverlappingInputs finds: at level 0 the files of the least closed range, elsewhere of the range itself. */
  ghost predicate Found(
      level: nat, files: seq<File>, begin: Option<UserKey>, end: Option<UserKey>,
      b: Option<UserKey>, e: Option<UserKey>, inputs: seq<File>)
  {
    && inputs == Overlapping(files, b, e)
    && Within(begin, end, b, e)
    && (level > 0 ==> b == begin && e == end)
    && (level == 0 ==> Closed(files, b, e) && Least(files, begin, end, b, e))
  }

  /** Every closed range around [begin, end] contains [b, e]. */
  ghost predicate Least(
      files: seq<File>, begin: Option<UserKey>, end: Option<UserKey>, b: Option<UserKey>, e: Option<UserKey>)
  {
    forall x, y :: Closed(files, x, y) && Within(begin, end, x, y) ==> Within(b, e, x, y)
  }

  lemma LeastAtFirst(files: seq<File>, begin: Option<UserKey>, end: Option<UserKey>)
    ensures Least(files, begin, end, begin, end)
  {}

  /** Widening by an overlapping file stays below every closed range. */
  lemma StillLeast(
      files: seq<File>, f: File, begin: Option<UserKey>, end: Option<UserKey>, b: Option<UserKey>, e: Option<UserKey>)
    requires Least(files, begin, end, b, e) && f in files && Overlaps(f, b, e)
    ensures BelowBegin(b, f.smallest.user) ==> Least(files, begin, end, Some(f.smallest.user), e)
    ensures AboveEnd(e, f.largest.user) ==> Least(files, begin, end, b, Some(f.largest.user))
  {
    forall x, y | Closed(files, x, y) && Within(begin, end, x, y)
      ensures Inside(f, x, y)
    {
      assert Within(b, e, x, y);
      assert Overlaps(f, x, y);
    }
  }

  /** How many files start below, and end above, the range: what a restart uses up. */
  function CountBelow(files: seq<File>, begin: Option<UserKey>): nat {
    if files == [] then 0
    else (if BelowBegin(begin, files[0].smallest.user) then 1 else 0) + CountBelow(files[1..], begin)
  }

  function CountAbove(files: seq<File>, end: Option<UserKey>): nat {
    if files == [] then 0
    else (if AboveEnd(end, files[0].largest.user) then 1 else 0) + CountAbove(files[1..], end)
  }

  lemma {:induction false} FewerBelow(files: seq<File>, f: File, begin: Option<UserKey>)
    requires BelowBegin(begin, f.smallest.user)
    ensures CountBelow(files, Some(f.smallest.user)) <= CountBelow(files, begin)
    ensures f in files ==> CountBelow(files, Some(f.smallest.user)) < CountBelow(files, begin)
  {
    if files != [] {
      FewerBelow(files[1..], f, begin);
      assert f in files ==> f == files[0] || f in files[1..];
    }
  }

  lemma {:induction false} FewerAbove(files: seq<File>, f: File, end: Option<UserKey>)
    requires AboveEnd(end, f.largest.user)
    ensures CountAbove(files, Some(f.largest.user)) <= CountAbove(files, end)
    ensures f in files ==> CountAbove(files, Some(f.largest.user)) < CountAbove(files, end)
  {
    if files != [] {
      FewerAbove(files[1..], f, end);
      assert f in files ==> f == files[0] || f in files[1..];
    }
  }

  lemma ClosedStep(files: seq<File>, n: nat, begin: Option<UserKey>, end: Option<UserKey>)
    requires n < |files| && Closed(files[..n], begin, end)
    requires Overlaps(files[n], begin, end) ==> Inside(files[n], begin, end)
    ensures Closed(files[..n + 1], begin, end)
  {}

  lemma ScanStart(files: seq<File>, begin: Option<UserKey>, end: Option<UserKey>)
    ensures Overlapping(files[..0], begin, end) == [] && Closed(files[..0], begin, end)
  {}

  lemma FilterStep(files: seq<File>, begin: Option<UserKey>, end: Option<UserKey>, n: nat)
    requires n < |files|
    ensures Overlapping(files[..n + 1], begin, end)
      == Overlapping(files[..n], begin, end) + if Overlaps(files[n], begin, end) then [files[n]] else []
  {
    assert files[..n + 1][..n] == files[..n];
  }

  /** Version::GetOverlappingInputs: widening the range at level 0 restarts the scan. */
  method GetOverlappingInputs(level: nat, files: seq<File>, begin: Option<UserKey>, end: Option<UserKey>)
    returns (inputs: seq<File>)
    ensures exists b, e :: Found(level, files, begin, end, b, e, inputs)
  {
    hide Least, Overlapping, Closed;
    inputs := [];
    var userBegin, userEnd := begin, end;
    LeastAtFirst(files, begin, end);
    ScanStart(files, begin, end);
    var i := 0;
    while i < |files|
      invariant 0 <= i <= |files|
      invariant inputs == Overlapping(files[..i], userBegin, userEnd)
      invariant Within(begin, end, userBegin, userEnd)
      invariant level > 0 ==> userBegin == begin && userEnd == end
      invariant level == 0 ==> Closed(files[..i], userBegin, userEnd) && Least(files, begin, end, userBegin, userEnd)
      decreases CountBelow(files, userBegin) + CountAbove(files, userEnd), |files| - i
    {
      var f := files[i];
      FilterStep(files, userBegin, userEnd, i);
      i := i + 1;
      var fileStart, fileLimit := f.smallest.user, f.largest.user;
      if userBegin.Some? && fileLimit < userBegin.value {
        // Completely before the range.
      } else if userEnd.Some? && fileStart > userEnd.value {
        // Completely after the range.
      } else {
        inputs := inputs + [f];
        if level == 0 {
          StillLeast(files, f, begin, end, userBegin, userEnd);
          if userBegin.Some? && fileStart < userBegin.value {
            FewerBelow(files, f, userBegin);
            userBegin := Some(fileStart);
            inputs := [];
            i := 0;
            ScanStart(files, userBegin, userEnd);
          } else if userEnd.Some? && fileLimit > userEnd.value {
            FewerAbove(files, f, userEnd);
            userEnd := Some(fileLimit);
            inputs := [];
            i := 0;
            ScanStart(files, userBegin, userEnd);
          }
        }
      }
      if level == 0 && i > 0 {
        ClosedStep(files, i - 1, userBegin, userEnd);
      }
    }
    assert files[..|files|] == files;
    assert Found(level, files, begin, end, userBegin, userEnd, inputs);
  }

  // --------------------------------------------------------- boundary files

  /** `f` starts with a user key that `key` ends with: its entries for that key are older. */
  predicate IsBoundary(f: File, key: InternalKey) {
    Less(key, f.smallest) && f.smallest.user == key.user
  }

  ghost predicate IsLargest(files: seq<File>, key: InternalKey) {
    && (exists f :: f in files && f.largest == key)
    && forall f :: f in files ==> !Less(key, f.largest)
  }

  method FindLargestKey(files: seq<File>) returns (found: bool, largestKey: InternalKey)
    ensures found <==> files != []
    ensures found ==> IsLargest(files, largestKey)
  {
    if files == [] {
      return false, InternalKey(0.0, 0, Deletion);
    }
    largestKey := files[0].largest;
    ghost var best := files[0];
    for i := 1 to |files|
      invariant best in files && best.largest == largestKey
      invariant forall f :: f in files[..i] ==> !Less(largestKey, f.largest)
    {
      var f := files[i];
      if Less(largestKey, f.largest) {
        largestKey := f.largest;
        best := f;
      }
    }
    assert files[..|files|] == files;
    found := true;
  }

  /** First, by smallest key, of the files that continue the user key of `largestKey`. */
  method FindSmallestBoundaryFile(levelFiles: seq<File>, largestKey: InternalKey) returns (r: Option<File>)
    ensures r.None? ==> forall f :: f in levelFiles ==> !IsBoundary(f, largestKey)
    ensures r.Some? ==> r.value in levelFiles && IsBoundary(r.value, largestKey)
    ensures r.Some? ==> forall f :: f in levelFiles && IsBoundary(f, largestKey) ==> !Less(f.smallest, r.value.smallest)
  {
    r := None;
    for i := 0 to |levelFiles|
      invariant r.None? ==> forall f :: f in levelFiles[..i] ==> !IsBoundary(f, largestKey)
      invariant r.Some? ==> r.value in levelFiles && IsBoundary(r.value, largestKey)
      invariant r.Some? ==> forall f :: f in levelFiles[..i] && IsBoundary(f, largestKey) ==> !Less(f.smallest, r.value.smallest)
    {
      var f := levelFiles[i];
      if Less(largestKey, f.smallest) && f.smallest.user == largestKey.user {
        if r.None? || Less(f.smallest, r.value.smallest) {
          r := Some(f);
        }
      }
    }
    assert levelFiles[..|levelFiles|] == levelFiles;
  }

  /** How many files start after a key. */
  function CountAfter(files: seq<File>, key: InternalKey): nat {
    if files == [] then 0
    else (if Less(key, files[0].smallest) then 1 else 0) + CountAfter(files[1..], key)
  }

  lemma {:induction false} FewerAfter(files: seq<File>, f: File, key: InternalKey)
    requires Less(key, f.smallest) && !Less(f.largest, f.smallest)
    ensures CountAfter(files, f.largest) <= CountAfter(files, key)
    ensures f in files ==> CountAfter(files, f.largest) < CountAfter(files, key)
  {
    if files != [] {
      FewerAfter(files[1..], f, key);
      assert f in files ==> f == files[0] || f in files[1..];
    }
  }

  lemma SmallestFirst(f: File)
    requires f.Valid()
    ensures !Less(f.largest, f.smallest)
  {
    FirstAndLast(f);
  }

  /** `f` is the boundary file that comes first after the largest key of `inputs`. */
  ghost predicate NextBoundary(levelFiles: seq<File>, inputs: seq<File>, f: File) {
    && f in levelFiles
    && exists key :: IsLargest(inputs, key) && FirstBoundary(levelFiles, key, f)
  }

  ghost predicate FirstBoundary(levelFiles: seq<File>, key: InternalKey, f: File) {
    IsBoundary(f, key) && forall g :: g in levelFiles && IsBoundary(g, key) ==> !Less(g.smallest, f.smallest)
  }

  /** `r` is `inputs` and then boundary files, each the next one after those before it. */
  ghost predicate Chain(levelFiles: seq<File>, inputs: seq<File>, r: seq<File>)
    decreases |r|
  {
    r == inputs
    || (|inputs| < |r| && NextBoundary(levelFiles, r[..|r| - 1], r[|r| - 1]) && Chain(levelFiles, inputs, r[..|r| - 1]))
  }

  ghost predicate NoBoundary(levelFiles: seq<File>, inputs: seq<File>) {
    forall key, f :: IsLargest(inputs, key) && f in levelFiles ==> !IsBoundary(f, key)
  }

  lemma LargestAppended(files: seq<File>, key: InternalKey, f: File)
    requires IsLargest(files, key) && Less(key, f.smallest) && !Less(f.largest, f.smallest)
    ensures IsLargest(files + [f], f.largest)
  {}

  method AddBoundaryInputs(levelFiles: seq<File>, inputs: seq<File>) returns (r: seq<File>)
    requires AllValid(levelFiles)
    ensures Chain(levelFiles, inputs, r) && NoBoundary(levelFiles, r)
    ensures inputs == [] ==> r == []
  {
    r := inputs;
    var found, largestKey := FindLargestKey(inputs);
    if !found {
      return;
    }
    var continueSearching := true;
    while continueSearching
      invariant Chain(levelFiles, inputs, r) && |inputs| <= |r| && IsLargest(r, largestKey)
      invariant !continueSearching ==> forall f :: f in levelFiles ==> !IsBoundary(f, largestKey)
      decreases continueSearching, CountAfter(levelFiles, largestKey)
    {
      var next := FindSmallestBoundaryFile(levelFiles, largestKey);
      if next.Some? {
        SmallestFirst(next.value);
        FewerAfter(levelFiles, next.value, largestKey);
        LargestAppended(r, largestKey, next.value);
        ghost var before := r;
        r := r + [next.value];
        assert r[..|r| - 1] == before;
        assert FirstBoundary(levelFiles, largestKey, next.value);
        largestKey := next.value.largest;
      } else {
        continueSearching := false;
      }
    }
    OneLargest(r, largestKey);
  }

  /** All largest keys of a list of files have the same user key and tag. */
  lemma OneLargest(files: seq<File>, key: InternalKey)
    requires IsLargest(files, key)
    ensures forall other :: IsLargest(files, other) ==> other.user == key.user && other.Tag() == key.Tag()
  {}

  // ------------------------------------------------------------- whole inputs

  ghost predicate IsSmallest(files: seq<File>, key: InternalKey) {
    && (exists f :: f in files && f.smallest == key)
    && forall f :: f in files ==> !Less(f.smallest, key)
  }

  /** A contiguous stretch of a level. */
  ghost predicate IsRun(files: seq<File>, inputs: seq<File>, lo: nat, hi: nat) {
    lo <= hi <= |files| && inputs == files[lo..hi]
  }

  /** Inputs a compaction may start from: at level 0 a closed range of files, elsewhere a stretch of the level. */
  ghost predicate Startable(level: nat, files: seq<File>, inputs: seq<File>) {
    && inputs != []
    && if level == 0 then exists b, e :: inputs == Overlapping(files, b, e) && Closed(files, b, e)
       else exists lo, hi :: IsRun(files, inputs, lo, hi)
  }

  /** What SetupOtherInputs settles on. */
  ghost predicate Chosen(v: Version, level: nat, inputs0: seq<File>, inputs1: seq<File>)
    requires level + 1 < NUM_LEVELS
  {
    && Startable(level, v[level], inputs0)
    && NoBoundary(v[level], inputs0)
    && exists s, l :: IsSmallest(inputs0, s) && IsLargest(inputs0, l)
         && inputs1 == Overlapping(v[level + 1], Some(s.user), Some(l.user))
  }

  /** In a sorted level the overlapping files are a stretch. */
  lemma OverlappingIsRun(files: seq<File>, begin: Option<UserKey>, end: Option<UserKey>) returns (lo: nat, hi: nat)
    requires SortedLevel(files)
    ensures IsRun(files, Overlapping(files, begin, end), lo, hi)
  {
    hide SortedLevel, Overlapping;
    lo := 0;
    while lo < |files| && BelowBegin(begin, files[lo].largest.user)
      invariant lo <= |files|
      invariant forall k :: 0 <= k < lo ==> BelowBegin(begin, files[k].largest.user)
    {
      lo := lo + 1;
    }
    hi := lo;
    while hi < |files| && !AboveEnd(end, files[hi].smallest.user)
      invariant lo <= hi <= |files|
      invariant forall k :: lo <= k < hi ==> !AboveEnd(end, files[k].smallest.user)
    {
      hi := hi + 1;
    }
    forall k | 0 <= k < |files|
      ensures Overlaps(files[k], begin, end) <==> lo <= k < hi
    {
      if lo < k { UserOrdered(files, lo, k); }
      if hi < k { UserOrdered(files, hi, k); }
    }
    FilterIsSlice(files, begin, end, lo, hi, |files|);
    assert files[..|files|] == files;
  }

  /** User keys never fall along a sorted level. */
  lemma UserOrdered(files: seq<File>, i: nat, j: nat)
    requires SortedLevel(files) && i < j < |files|
    ensures files[i].smallest.user <= files[i].largest.user <= files[j].smallest.user <= files[j].largest.user
    ensures Less(files[i].largest, files[j].smallest)
  {
    assert files[i] in files && files[j] in files;
    FirstAndLast(files[i]);
    FirstAndLast(files[j]);
    assert Before(files[i], files[j]);
  }

  /** The part of files[lo..hi] that lies before `n`. */
  function Window(files: seq<File>, lo: nat, hi: nat, n: nat): seq<File>
    requires lo <= hi <= |files|
  {
    if n <= lo then [] else files[lo..if n <= hi then n else hi]
  }

  lemma WindowGrows(files: seq<File>, lo: nat, hi: nat, n: nat)
    requires lo <= hi <= |files| && n < |files|
    ensures Window(files, lo, hi, n + 1) == Window(files, lo, hi, n) + if lo <= n < hi then [files[n]] else []
  {
    if lo <= n < hi {
      assert files[lo..n + 1] == files[lo..n] + [files[n]];
    }
  }

  lemma {:induction false} FilterIsSlice(
      files: seq<File>, begin: Option<UserKey>, end: Option<UserKey>, lo: nat, hi: nat, n: nat)
    requires lo <= hi <= |files| && n <= |files|
    requires forall k :: 0 <= k < |files| ==> (Overlaps(files[k], begin, end) <==> lo <= k < hi)
    ensures Overlapping(files[..n], begin, end) == Window(files, lo, hi, n)
    decreases n
  {
    hide Window, Overlaps;
    if n == 0 {
      assert Window(files, lo, hi, 0) == [] by { WindowEmpty(files, lo, hi); }
    } else {
      FilterIsSlice(files, begin, end, lo, hi, n - 1);
      FilterStep(files, begin, end, n - 1);
      WindowGrows(files, lo, hi, n - 1);
    }
  }

  lemma WindowEmpty(files: seq<File>, lo: nat, hi: nat)
    requires lo <= hi <= |files|
    ensures Window(files, lo, hi, 0) == []
  {}

  lemma {:induction false} ChainIsRun(files: seq<File>, inputs: seq<File>, r: seq<File>, lo: nat, hi: nat)
      returns (end: nat)
    requires SortedLevel(files) && IsRun(files, inputs, lo, hi) && lo < hi
    requires Chain(files, inputs, r)
    ensures hi <= end && IsRun(files, r, lo, end)
    decreases |r|
  {
    hide SortedLevel, IsLargest, FirstBoundary;
    if r == inputs {
      end := hi;
    } else {
      var front, f := r[..|r| - 1], r[|r| - 1];
      assert Chain(files, inputs, front) && NextBoundary(files, front, f);
      var h := ChainIsRun(files, inputs, front, lo, hi);
      var key :| IsLargest(front, key) && FirstBoundary(files, key, f);
      BoundaryIsAdjacent(files, lo, h, key, f);
      end := h + 1;
      assert r == front + [f];
    }
  }

  /** The largest key of a stretch is that of its last file. */
  lemma RunLargest(files: seq<File>, lo: nat, hi: nat)
    requires SortedLevel(files) && lo < hi <= |files|
    ensures IsLargest(files[lo..hi], files[hi - 1].largest)
  {
    var last := files[hi - 1];
    assert files[lo..hi][hi - 1 - lo] == last;
    forall f | f in files[lo..hi]
      ensures !Less(last.largest, f.largest)
    {
      var k :| lo <= k < hi && files[k] == f;
      LargestOrdered(files, hi - 1);
    }
  }

  lemma BoundaryIsAdjacent(files: seq<File>, lo: nat, h: nat, key: InternalKey, f: File)
    requires SortedLevel(files) && lo < h <= |files|
    requires IsLargest(files[lo..h], key) && FirstBoundary(files, key, f) && f in files
    ensures h < |files| && files[h] == f
  {
    hide SortedLevel, IsLargest;
    RunLargest(files, lo, h);
    OneLargest(files[lo..h], key);
    var j :| 0 <= j < |files| && files[j] == f;
    NotWithin(files, h, j, key);
    UserOrdered(files, h - 1, h);
    if h < j {
      UserOrdered(files, h, j);
    }
    var next := files[h];
    assert next in files && IsBoundary(next, key);
    assert !Less(next.smallest, f.smallest);
    if h < j {
      NextSmaller(files, h, j);
    }
  }

  lemma NotWithin(files: seq<File>, h: nat, j: nat, key: InternalKey)
    requires SortedLevel(files) && 0 < h <= |files| && j < |files|
    requires key.user == files[h - 1].largest.user && key.Tag() == files[h - 1].largest.Tag()
    requires Less(key, files[j].smallest)
    ensures h <= j
  {
    assert files[j] in files;
    SmallestFirst(files[j]);
    if j < h - 1 {
      UserOrdered(files, j, h - 1);
      SmallestFirst(files[h - 1]);
    }
  }

  lemma NextSmaller(files: seq<File>, i: nat, j: nat)
    requires SortedLevel(files) && i < j < |files|
    ensures Less(files[i].smallest, files[j].smallest)
  {
    UserOrdered(files, i, j);
    assert files[i] in files;
    FirstAndLast(files[i]);
  }

  /** At level 0 a closed range already holds every boundary file. */
  lemma {:induction false} ChainAtLevelZero(
      files: seq<File>, inputs: seq<File>, r: seq<File>, b: Option<UserKey>, e: Option<UserKey>)
    requires AllValid(files) && inputs == Overlapping(files, b, e) && Closed(files, b, e)
    requires Chain(files, inputs, r)
    ensures r == inputs
    decreases |r|
  {
    if r != inputs {
      ChainAtLevelZero(files, inputs, r[..|r| - 1], b, e);
      var f := r[|r| - 1];
      var key :| IsLargest(inputs, key) && FirstBoundary(files, key, f);
      var g :| g in inputs && g.largest == key;
      SmallestFirst(f);
      SmallestFirst(g);
      assert false;
    }
  }

  /** Boundary files keep the inputs closed, or a stretch. */
  lemma StartableChain(level: nat, files: seq<File>, inputs: seq<File>, r: seq<File>)
    requires if level == 0 then AllValid(files) else SortedLevel(files)
    requires Startable(level, files, inputs) && Chain(files, inputs, r)
    ensures Startable(level, files, r)
  {
    hide SortedLevel, AllValid, Chain, Overlapping;
    if level == 0 {
      var b, e :| inputs == Overlapping(files, b, e) && Closed(files, b, e);
      ChainAtLevelZero(files, inputs, r, b, e);
    } else {
      var lo, hi :| IsRun(files, inputs, lo, hi);
      var end := ChainIsRun(files, inputs, r, lo, hi);
    }
  }

  /** What GetOverlappingInputs finds is something to start from. */
  lemma StartableFound(level: nat, files: seq<File>, begin: Option<UserKey>, end: Option<UserKey>, inputs: seq<File>)
    requires level > 0 ==> SortedLevel(files)
    requires inputs != [] && exists b, e :: Found(level, files, begin, end, b, e, inputs)
    ensures Startable(level, files, inputs)
  {
    hide SortedLevel, Overlapping;
    var b, e :| Found(level, files, begin, end, b, e, inputs);
    if level > 0 {
      var lo, hi := OverlappingIsRun(files, begin, end);
    }
  }

  method GetRange(inputs: seq<File>) returns (smallest: InternalKey, largest: InternalKey)
    requires inputs != []
    ensures IsSmallest(inputs, smallest) && IsLargest(inputs, largest)
    ensures smallest.user == MinUser(inputs) && largest.user == MaxUser(inputs)
  {
    smallest, largest := inputs[0].smallest, inputs[0].largest;
    ghost var first, last := inputs[0], inputs[0];
    for i := 1 to |inputs|
      invariant first in inputs && first.smallest == smallest && last in inputs && last.largest == largest
      invariant forall f :: f in inputs[..i] ==> !Less(f.smallest, smallest) && !Less(largest, f.largest)
    {
      var f := inputs[i];
      if Less(f.smallest, smallest) {
        smallest, first := f.smallest, f;
      }
      if Less(largest, f.largest) {
        largest, last := f.largest, f;
      }
    }
    assert inputs[..|inputs|] == inputs;
    UserRange(inputs, smallest);
    UserRange(inputs, largest);
  }

  function SumOfSizes(files: seq<File>): nat {
    if files == [] then 0 else SumOfSizes(files[..|files| - 1]) + files[|files| - 1].size
  }

  method TotalFileSize(files: seq<File>) returns (sum: nat)
    ensures sum == SumOfSizes(files)
  {
    sum := 0;
    for i := 0 to |files|
      invariant sum == SumOfSizes(files[..i])
    {
      assert files[..i + 1][..i] == files[..i];
      sum := sum + files[i].size;
    }
    assert files[..|files|] == files;
  }

  // ------------------------------------------------------ SetupOtherInputs

  /** The first and the last user key of some files. */
  function MinUser(files: seq<File>): UserKey
    requires files != []
  {
    var rest := if |files| == 1 then files[0].smallest.user else MinUser(files[1..]);
    if files[0].smallest.user < rest then files[0].smallest.user else rest
  }

  function MaxUser(files: seq<File>): UserKey
    requires files != []
  {
    var rest := if |files| == 1 then files[0].largest.user else MaxUser(files[1..]);
    if files[0].largest.user > rest then files[0].largest.user else rest
  }

  lemma {:induction false} UserRange(files: seq<File>, key: InternalKey)
    requires files != []
    ensures IsSmallest(files, key) ==> key.user == MinUser(files)
    ensures IsLargest(files, key) ==> key.user == MaxUser(files)
  {
    MinMax(files);
  }

  lemma {:induction false} MinMax(files: seq<File>)
    requires files != []
    ensures exists f :: f in files && f.smallest.user == MinUser(files)
    ensures forall f :: f in files ==> MinUser(files) <= f.smallest.user
    ensures exists f :: f in files && f.largest.user == MaxUser(files)
    ensures forall f :: f in files ==> f.largest.user <= MaxUser(files)
  {
    if |files| > 1 {
      MinMax(files[1..]);
      assert files[0] in files;
      assert forall f :: f in files <==> f == files[0] || f in files[1..];
    } else {
      assert files[0] in files && forall f :: f in files ==> f == files[0];
    }
  }

  /** The files of a level that overlap the whole range of some files. */
  function Under(level: seq<File>, files: seq<File>): seq<File>
    requires files != []
  {
    Overlapping(level, Some(MinUser(files)), Some(MaxUser(files)))
  }

  /** `r` is `inputs` with all boundary files behind them. */
  ghost predicate Closure(levelFiles: seq<File>, inputs: seq<File>, r: seq<File>) {
    Chain(levelFiles, inputs, r) && NoBoundary(levelFiles, r)
  }

  /** What the inputs of a level grow to: the files in the range of all inputs so far, and their boundary files. */
  ghost predicate Grown(level: nat, files: seq<File>, inputs: seq<File>, r: seq<File>)
    requires inputs != []
  {
    exists found :: Touched(level, files, inputs, found) && Closure(files, found, r)
  }

  /** What GetOverlappingInputs finds for the whole range of some files. */
  ghost predicate Touched(level: nat, files: seq<File>, inputs: seq<File>, found: seq<File>)
    requires inputs != []
  {
    exists b, e :: Found(level, files, Some(MinUser(inputs)), Some(MaxUser(inputs)), b, e, found)
  }

  lemma TouchedUnder(level: nat, files: seq<File>, inputs: seq<File>, found: seq<File>)
    requires inputs != [] && Touched(level, files, inputs, found)
    ensures level > 0 ==> found == Under(files, inputs)
  {
    hide Overlapping, Least, Closed;
  }

  lemma ChosenUnder(v: Version, level: nat, inputs: seq<File>, s: InternalKey, l: InternalKey)
    requires level + 1 < NUM_LEVELS && Startable(level, v[level], inputs) && NoBoundary(v[level], inputs)
    requires inputs != [] && IsSmallest(inputs, s) && IsLargest(inputs, l)
    ensures Chosen(v, level, inputs, Under(v[level + 1], inputs))
  {
    hide Startable, NoBoundary, Overlapping;
    UserRange(inputs, s);
    UserRange(inputs, l);
    hide IsSmallest, IsLargest, MinUser, MaxUser;
  }

  lemma TouchedStartable(level: nat, files: seq<File>, inputs: seq<File>, found: seq<File>)
    requires level > 0 ==> SortedLevel(files)
    requires inputs != [] && Touched(level, files, inputs, found) && found != []
    ensures Startable(level, files, found)
  {
    hide Overlapping, Least, Closed, SortedLevel, Startable;
    StartableFound(level, files, Some(MinUser(inputs)), Some(MaxUser(inputs)), found);
  }

  /** The upper inputs grow when that adds files, keeps under the limit and takes in no further lower file. */
  ghost predicate Grows(v: Version, level: nat, first: seq<File>, grown: seq<File>, limit: nat)
    requires level + 1 < NUM_LEVELS && first != []
  {
    var lower := Under(v[level + 1], first);
    && lower != [] && |grown| > |first|
    && SumOfSizes(lower) + SumOfSizes(grown) < limit
    && |Under(v[level + 1], grown)| == |lower|
  }

  lemma {:induction false} ChainAt(files: seq<File>, inputs: seq<File>, r: seq<File>, n: nat)
    requires Chain(files, inputs, r) && |inputs| <= n < |r|
    ensures NextBoundary(files, r[..n], r[n])
    decreases |r|
  {
    if n < |r| - 1 {
      var front := r[..|r| - 1];
      ChainAt(files, inputs, front, n);
      assert front[..n] == r[..n];
    }
  }

  lemma ShorterChain(files: seq<File>, inputs: seq<File>, r: seq<File>, q: seq<File>, lo: nat, m: nat, n: nat)
    requires Closure(files, inputs, r) && Closure(files, inputs, q) && |inputs| <= |r|
    requires IsRun(files, r, lo, m) && IsRun(files, q, lo, n)
    ensures n <= m
  {
    if m < n {
      assert q[..m - lo] == r;
      ChainAt(files, inputs, q, m - lo);
    }
  }

  /** There is one closure under boundary files. */
  lemma ClosureIsUnique(level: nat, files: seq<File>, inputs: seq<File>, r: seq<File>, q: seq<File>)
    requires if level == 0 then AllValid(files) else SortedLevel(files)
    requires Startable(level, files, inputs) && Closure(files, inputs, r) && Closure(files, inputs, q)
    ensures r == q
  {
    hide SortedLevel, AllValid, Chain, Overlapping, NoBoundary;
    if level == 0 {
      var b, e :| inputs == Overlapping(files, b, e) && Closed(files, b, e);
      ChainAtLevelZero(files, inputs, r, b, e);
      ChainAtLevelZero(files, inputs, q, b, e);
    } else {
      var lo, hi :| IsRun(files, inputs, lo, hi);
      var m := ChainIsRun(files, inputs, r, lo, hi);
      var n := ChainIsRun(files, inputs, q, lo, hi);
      ShorterChain(files, inputs, r, q, lo, m, n);
      ShorterChain(files, inputs, q, r, lo, n, m);
    }
  }

  /** ... one answer to an overlap query, also at level 0 ... */
  lemma TouchedIsUnique(level: nat, files: seq<File>, inputs: seq<File>, r: seq<File>, q: seq<File>)
    requires inputs != [] && Touched(level, files, inputs, r) && Touched(level, files, inputs, q)
    ensures r == q
  {
    hide Overlapping, Closed;
    var begin, end := Some(MinUser(inputs)), Some(MaxUser(inputs));
    var b, e :| Found(level, files, begin, end, b, e, r);
    var x, y :| Found(level, files, begin, end, x, y, q);
    if level == 0 {
      assert Within(b, e, x, y) && Within(x, y, b, e);
    }
  }

  lemma GrownIsUnique(level: nat, files: seq<File>, inputs: seq<File>, r: seq<File>, q: seq<File>)
    requires if level == 0 then AllValid(files) else SortedLevel(files)
    requires inputs != [] && Grown(level, files, inputs, r) && Grown(level, files, inputs, q)
    ensures r == q
  {
    hide SortedLevel, AllValid, Touched, Startable, Closure;
    var f :| Touched(level, files, inputs, f) && Closure(files, f, r);
    var g :| Touched(level, files, inputs, g) && Closure(files, g, q);
    TouchedIsUnique(level, files, inputs, f, g);
    if f == [] {
      NothingCloses(files, r);
      NothingCloses(files, q);
    } else {
      TouchedStartable(level, files, inputs, f);
      ClosureIsUnique(level, files, f, r, q);
    }
  }

  lemma {:induction false} NothingCloses(files: seq<File>, r: seq<File>)
    requires Closure(files, [], r)
    ensures r == []
  {
    if r != [] {
      ChainAt(files, [], r, 0);
    }
  }

  /** ... so the inputs a compaction settles on are determined by the version and where it starts. */
  lemma InputsAreUnique(
      v: Version, level: nat, start: seq<File>, limit: nat,
      first: seq<File>, grown: seq<File>, first': seq<File>, grown': seq<File>)
    requires LevelOrder(v) && level + 1 < NUM_LEVELS && Startable(level, v[level], start)
    requires Closure(v[level], start, first) && first != [] && Closure(v[level], start, first') && first' != []
    requires Under(v[level + 1], first) != [] ==> Grown(level, v[level], first + Under(v[level + 1], first), grown)
    requires Under(v[level + 1], first') != [] ==> Grown(level, v[level], first' + Under(v[level + 1], first'), grown')
    ensures (if Grows(v, level, first, grown, limit) then grown else first)
      == if Grows(v, level, first', grown', limit) then grown' else first'
  {
    LevelFacts(v, level);
    hide LevelOrder, SortedLevel, LevelZero, Startable, Closure, Under, Grown, SumOfSizes;
    ClosureIsUnique(level, v[level], start, first, first');
    if Under(v[level + 1], first) != [] {
      GrownIsUnique(level, v[level], first + Under(v[level + 1], first), grown, grown');
    }
  }

  /**
   * VersionSet::SetupOtherInputs: close the inputs of `level` under boundary files, take what they
   * overlap one level down, and grow the upper side when that costs no further lower file.
   */
  method SetupOtherInputs(v: Version, level: nat, start: seq<File>, expandedLimit: nat)
    returns (inputs0: seq<File>, inputs1: seq<File>, grandparents: seq<File>, compactPointer: InternalKey,
             ghost first: seq<File>, ghost grown: seq<File>)
    requires LevelOrder(v) && level + 1 < NUM_LEVELS && Startable(level, v[level], start)
    ensures Chosen(v, level, inputs0, inputs1)
    ensures Closure(v[level], start, first) && first != []
    ensures Under(v[level + 1], first) != [] ==> Grown(level, v[level], first + Under(v[level + 1], first), grown)
    ensures inputs0 == (if Grows(v, level, first, grown, expandedLimit) then grown else first)
    ensures inputs0 != [] && inputs1 == Under(v[level + 1], inputs0)
    ensures grandparents == if level + 2 < NUM_LEVELS then Under(v[level + 2], inputs0 + inputs1) else []
    ensures IsLargest(inputs0, compactPointer)
  {
    hide Startable, Chain, NoBoundary, SortedLevel, LevelZero, Deeper, IsSmallest, IsLargest, MinUser, MaxUser,
      SumOfSizes, Found, Under, Chosen, Grown;
    LevelFacts(v, level);
    inputs0 := AddBoundaryInputs(v[level], start);
    first, grown := inputs0, inputs0;
    StartableChain(level, v[level], start, inputs0);
    StartableNonempty(level, v[level], inputs0);
    var smallest, largest := GetRange(inputs0);
    inputs1 := GetOverlappingInputs(level + 1, v[level + 1], Some(smallest.user), Some(largest.user));
    TouchedUnder(level + 1, v[level + 1], inputs0, inputs1);
    var allStart, allLimit := GetRange(inputs0 + inputs1);

    if inputs1 != [] {
      var found := GetOverlappingInputs(level, v[level], Some(allStart.user), Some(allLimit.user));
      var expanded0 := AddBoundaryInputs(v[level], found);
      grown := expanded0;
      assert Grown(level, v[level], inputs0 + inputs1, grown) by { GrownBy(level, v[level], inputs0 + inputs1, found, grown); }
      var inputs1Size := TotalFileSize(inputs1);
      var expanded0Size := TotalFileSize(expanded0);
      if |expanded0| > |inputs0| && inputs1Size + expanded0Size < expandedLimit {
        TouchedStartable(level, v[level], inputs0 + inputs1, found);
        StartableChain(level, v[level], found, expanded0);
        var newStart, newLimit := GetRange(expanded0);
        var expanded1 := GetOverlappingInputs(level + 1, v[level + 1], Some(newStart.user), Some(newLimit.user));
        TouchedUnder(level + 1, v[level + 1], expanded0, expanded1);
        if |expanded1| == |inputs1| {
          smallest, largest := newStart, newLimit;
          inputs0, inputs1 := expanded0, expanded1;
          allStart, allLimit := GetRange(inputs0 + inputs1);
        }
      }
    }
    ChosenUnder(v, level, inputs0, smallest, largest);
    grandparents := [];
    if level + 2 < NUM_LEVELS {
      grandparents := GetOverlappingInputs(level + 2, v[level + 2], Some(allStart.user), Some(allLimit.user));
      TouchedUnder(level + 2, v[level + 2], inputs0 + inputs1, grandparents);
    }
    compactPointer := largest;
  }

  lemma GrownBy(level: nat, files: seq<File>, inputs: seq<File>, found: seq<File>, grown: seq<File>)
    requires inputs != [] && Touched(level, files, inputs, found) && Closure(files, found, grown)
    ensures Grown(level, files, inputs, grown)
  {}

  lemma LevelFacts(v: Version, level: nat)
    requires LevelOrder(v) && level < NUM_LEVELS
    ensures AllValid(v[level])
    ensures if level == 0 then LevelZero(v[level]) else SortedLevel(v[level])
  {}

  lemma StartableNonempty(level: nat, files: seq<File>, inputs: seq<File>)
    requires Startable(level, files, inputs)
    ensures inputs != [] && forall f :: f in inputs ==> f in files
  {}

  /** VersionSet::PickCompaction once a file has been picked: at level 0 take everything it drags along. */
  method PickInputs(v: Version, level: nat, picked: File) returns (inputs: seq<File>)
    requires LevelOrder(v) && level < NUM_LEVELS && picked in v[level]
    ensures Startable(level, v[level], inputs) && picked in inputs
    ensures if level == 0 then Touched(0, v[0], [picked], inputs) else inputs == [picked]
  {
    inputs := [picked];
    if level == 0 {
      var smallest, largest := GetRange(inputs);
      inputs := GetOverlappingInputs(0, v[0], Some(smallest.user), Some(largest.user));
      assert Touched(0, v[0], [picked], inputs);
      FirstAndLast(picked);
      assert picked in inputs;
    } else {
      ghost var i :| 0 <= i < |v[level]| && v[level][i] == picked;
      assert IsRun(v[level], inputs, i, i + 1);
    }
  }

  /** VersionSet::CompactRange before SetupOtherInputs: above level 0 stop once `limit` bytes are in. */
  method RangeInputs(v: Version, level: nat, begin: Option<UserKey>, end: Option<UserKey>, limit: nat)
    returns (inputs: seq<File>, ghost all: seq<File>)
    requires LevelOrder(v) && level < NUM_LEVELS
    ensures inputs != [] ==> Startable(level, v[level], inputs)
    ensures inputs == [] <==> forall f :: f in v[level] ==> !Overlaps(f, begin, end)
    ensures exists b, e :: Found(level, v[level], begin, end, b, e, all)
    ensures inputs <= all && (level == 0 ==> inputs == all)
    ensures inputs != all ==> SumOfSizes(inputs) >= limit
    ensures level > 0 ==> forall n :: 0 < n < |inputs| ==> SumOfSizes(all[..n]) < limit
  {
    hide SortedLevel, LevelZero, Closed, Least;
    LevelFacts(v, level);
    inputs := GetOverlappingInputs(level, v[level], begin, end);
    all := inputs;
    EmptyFound(level, v[level], begin, end, inputs);
    if inputs == [] {
      return;
    }
    StartableFound(level, v[level], begin, end, inputs);
    if level > 0 {
      hide Found, SumOfSizes, Startable, IsRun;
      var total := 0;
      SumNext(all, 0);
      for i := 0 to |inputs|
        invariant inputs == all && total == SumOfSizes(all[..i])
        invariant forall n :: 0 < n <= i ==> SumOfSizes(all[..n]) < limit
      {
        SumNext(all, i);
        total := total + inputs[i].size;
        if total >= limit {
          FrontIsStartable(level, v[level], inputs, i + 1);
          inputs := inputs[..i + 1];
          break;
        }
      }
    }
  }

  lemma SumNext(files: seq<File>, i: nat)
    ensures i < |files| ==> SumOfSizes(files[..i + 1]) == SumOfSizes(files[..i]) + files[i].size
    ensures SumOfSizes(files[..0]) == 0
  {
    if i < |files| {
      assert files[..i + 1][..i] == files[..i];
    }
  }

  lemma FrontIsStartable(level: nat, files: seq<File>, inputs: seq<File>, n: nat)
    requires level > 0 && Startable(level, files, inputs) && 0 < n <= |inputs|
    ensures Startable(level, files, inputs[..n])
  {
    var lo: nat, hi: nat :| IsRun(files, inputs, lo, hi);
    assert IsRun(files, inputs[..n], lo, lo + n);
  }

  lemma EmptyFound(level: nat, files: seq<File>, begin: Option<UserKey>, end: Option<UserKey>, inputs: seq<File>)
    requires exists b, e :: Found(level, files, begin, end, b, e, inputs)
    ensures inputs == [] <==> forall f :: f in files ==> !Overlaps(f, begin, end)
  {
    var b, e :| Found(level, files, begin, end, b, e, inputs);
    assert forall f :: f in files && Overlaps(f, begin, end) ==> Overlaps(f, b, e) && f in inputs;
    if forall f :: f in files ==> !Overlaps(f, begin, end) {
      assert Closed(files, begin, end) && Within(begin, end, begin, end);
      assert Within(b, e, begin, end);
      assert forall f :: f in inputs ==> f in files && Overlaps(f, begin, end);
      assert inputs == [] || inputs[0] in inputs;
    }
  }
}
