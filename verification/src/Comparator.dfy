/** util/comparator.cc and db/dbformat.cc: the order of keys as bytes, and the short keys between them. */
module Comparators {
  import opened Bytes
  import opened Coding

  // ----------------------------------------------------------- bytewise order

  /** The length of the longest common prefix. */
  function Common(a: seq<Byte>, b: seq<Byte>): (n: nat)
    ensures n <= |a| && n <= |b| && a[..n] == b[..n]
    ensures n < |a| && n < |b| ==> a[n] != b[n]
  {
    if a == [] || b == [] || a[0] != b[0] then 0 else 1 + Common(a[1..], b[1..])
  }

  /** BytewiseComparatorImpl::Compare(a, b) < 0. */
  predicate Less(a: seq<Byte>, b: seq<Byte>) {
    var n := Common(a, b);
    if n < |a| && n < |b| then a[n] < b[n] else |a| < |b|
  }

  lemma SameAt(a: seq<Byte>, b: seq<Byte>, n: nat, i: nat)
    requires i < n <= |a| && n <= |b| && a[..n] == b[..n]
    ensures a[i] == b[i]
  {
    assert a[..n][i] == b[..n][i];
  }

  lemma CommonIs(a: seq<Byte>, b: seq<Byte>, n: nat)
    requires n <= |a| && n <= |b| && a[..n] == b[..n] && (n < |a| && n < |b| ==> a[n] != b[n])
    ensures Common(a, b) == n
  {
    var c := Common(a, b);
    if c < n {
      SameAt(a, b, n, c);
    } else if n < c {
      SameAt(a, b, c, n);
    }
  }

  lemma LessIsTotal(a: seq<Byte>, b: seq<Byte>)
    ensures a == b || Less(a, b) || Less(b, a)
    ensures !(Less(a, b) && Less(b, a))
  {
    CommonIs(b, a, Common(a, b));
  }

  lemma LessIsTransitive(a: seq<Byte>, b: seq<Byte>, c: seq<Byte>)
    requires Less(a, b) && Less(b, c)
    ensures Less(a, c)
  {
    var m, n := Common(a, b), Common(b, c);
    if m < n {
      assert b[..n][..m] == c[..n][..m];
      assert m < |a| ==> b[..n][m] == c[..n][m];
      CommonIs(a, c, m);
    } else if n < m {
      assert a[..m][..n] == b[..m][..n];
      assert a[..m][n] == b[..m][n];
      CommonIs(a, c, n);
    } else if m < |a| && a[m] == c[m] {
    } else {
      CommonIs(a, c, m);
    }
  }

  /** The byte where the two differ can be raised without reaching that of `limit`. */
  predicate Bumps(start: seq<Byte>, limit: seq<Byte>, n: nat) {
    n < |start| && n < |limit| && start[n] as nat + 1 < limit[n] as nat
  }

  /** No key as short as the common prefix, or shorter, lies between two keys that differ after it. */
  lemma NoneIsShorter(start: seq<Byte>, limit: seq<Byte>, key: seq<Byte>)
    requires Common(start, limit) < |start| && Common(start, limit) < |limit| && |key| <= Common(start, limit)
    requires key == start || Less(start, key)
    ensures !Less(key, limit)
  {
    var n, c := Common(start, limit), Common(start, key);
    if c < |key| {
      SameAt(start, limit, n, c);
      assert key[..c] == limit[..c] by { assert start[..n][..c] == limit[..n][..c]; }
      CommonIs(key, limit, c);
    }
  }

  /** A short key from `start` up to `limit`, `limit` excluded; `start` itself when it is not before `limit`. */
  method FindShortestSeparator(start: seq<Byte>, limit: seq<Byte>) returns (r: seq<Byte>)
    ensures |r| <= |start| && (r == start || Less(start, r))
    ensures Less(start, limit) ==> Less(r, limit)
    ensures !Less(start, limit) ==> r == start
    ensures var n := Common(start, limit);
      r == if Bumps(start, limit, n) then start[..n] + [start[n] + 1] else start
  {
    var minLength := if |start| < |limit| then |start| else |limit|;
    var diffIndex := 0;
    while diffIndex < minLength && start[diffIndex] == limit[diffIndex]
      invariant diffIndex <= minLength && start[..diffIndex] == limit[..diffIndex]
    {
      diffIndex := diffIndex + 1;
    }
    r := start;
    if diffIndex < minLength {
      CommonIs(start, limit, diffIndex);
      var diffByte := start[diffIndex];
      if diffByte < 0xff && diffByte + 1 < limit[diffIndex] {
        r := start[..diffIndex] + [diffByte + 1];
        CommonIs(start, r, diffIndex);
        CommonIs(r, limit, diffIndex);
      }
    }
  }

  /** The first byte of `key` that can be raised is at `i`, and `r` ends with it raised. */
  predicate Raised(key: seq<Byte>, r: seq<Byte>, i: nat) {
    && i < |key| && key[i] < 0xff && (forall j :: 0 <= j < i ==> key[j] == 0xff)
    && r == key[..i] + [key[i] + 1]
  }

  /** A short key at or after `key`. */
  method FindShortSuccessor(key: seq<Byte>) returns (r: seq<Byte>)
    ensures |r| <= |key| && (r == key || Less(key, r))
    ensures r == key <==> forall i :: 0 <= i < |key| ==> key[i] == 0xff
    ensures r != key ==> |r| > 0 && Raised(key, r, |r| - 1)
  {
    var i := 0;
    while i < |key|
      invariant 0 <= i <= |key| && forall j :: 0 <= j < i ==> key[j] == 0xff
    {
      var byte := key[i];
      if byte != 0xff {
        r := key[..i] + [byte + 1];
        CommonIs(key, r, i);
        assert r[i] != key[i] && Raised(key, r, i);
        return;
      }
      i := i + 1;
    }
    r := key;
  }

  // ------------------------------------------------------------ internal keys

  /** ExtractUserKey. */
  function User(key: seq<Byte>): seq<Byte> { if |key| < 8 then [] else key[..|key| - 8] }

  /** Sequence number and type, packed at the end of an internal key. */
  function Tag(key: seq<Byte>): nat { if |key| < 8 then 0 else FixedValue(key[|key| - 8..]) }

  function Internal(user: seq<Byte>, tag: nat): seq<Byte> { user + Fixed(tag, 8) }

  /** PackSequenceAndType(kMaxSequenceNumber, kValueTypeForSeek). */
  const MAX_TAG: nat := 0xff_ffff_ffff_ffff * 256 + 1

  /** InternalKeyComparator::Compare(a, b) < 0: user keys up, tags down. */
  predicate InternalLess(a: seq<Byte>, b: seq<Byte>) {
    Less(User(a), User(b)) || (User(a) == User(b) && Tag(a) > Tag(b))
  }

  lemma InternalParts(user: seq<Byte>, tag: nat)
    requires tag < TWO_64
    ensures User(Internal(user, tag)) == user && Tag(Internal(user, tag)) == tag
  {
    assert Pow(256, 8) == TWO_64;
    FixedBack(tag, 8);
    assert Internal(user, tag)[|user|..] == Fixed(tag, 8);
  }

  lemma {:induction false} FixedValueForth(s: seq<Byte>)
    ensures FixedValue(s) < Pow(256, |s|) && Fixed(FixedValue(s), |s|) == s
  {
    if s != [] {
      FixedValueForth(s[1..]);
    }
  }

  lemma InternalWhole(key: seq<Byte>)
    requires |key| >= 8
    ensures Tag(key) < TWO_64 && Internal(User(key), Tag(key)) == key
  {
    assert Pow(256, 8) == TWO_64;
    FixedValueForth(key[|key| - 8..]);
  }

  lemma InternalIsTotal(a: seq<Byte>, b: seq<Byte>)
    requires |a| >= 8 && |b| >= 8
    ensures a == b || InternalLess(a, b) || InternalLess(b, a)
    ensures !(InternalLess(a, b) && InternalLess(b, a))
  {
    LessIsTotal(User(a), User(b));
    LessIsTotal(User(a), User(a));
    InternalWhole(a);
    InternalWhole(b);
  }

  lemma InternalIsTransitive(a: seq<Byte>, b: seq<Byte>, c: seq<Byte>)
    requires InternalLess(a, b) && InternalLess(b, c)
    ensures InternalLess(a, c)
  {
    if Less(User(a), User(b)) && Less(User(b), User(c)) {
      LessIsTransitive(User(a), User(b), User(c));
    }
  }

  /** Between the keys of two user keys, or the start itself. */
  method FindShortestInternalSeparator(start: seq<Byte>, limit: seq<Byte>) returns (r: seq<Byte>)
    requires |start| >= 8 && |limit| >= 8
    ensures 8 <= |r| <= |start| && (r == start || (Less(User(start), User(r)) && Tag(r) == MAX_TAG))
    ensures InternalLess(start, limit) ==> InternalLess(r, limit)
    ensures InternalLess(start, limit) && r != start ==> Less(User(r), User(limit))
    ensures var user, n := User(start), Common(User(start), User(limit));
      r == if Bumps(user, User(limit), n) && n + 1 < |user| then Internal(user[..n] + [user[n] + 1], MAX_TAG) else start
  {
    var userStart, userLimit := User(start), User(limit);
    hide Fixed, FixedValue, Bumps;
    var tmp := FindShortestSeparator(userStart, userLimit);
    r := start;
    if |tmp| < |userStart| && Less(userStart, tmp) {
      InternalParts(tmp, MAX_TAG);
      LessIsTotal(userStart, userStart);
      r := Internal(tmp, MAX_TAG);
    }
  }

  method FindShortInternalSuccessor(key: seq<Byte>) returns (r: seq<Byte>)
    requires |key| >= 8
    ensures 8 <= |r| <= |key| && (r == key || (Less(User(key), User(r)) && Tag(r) == MAX_TAG))
    ensures r == key <==> forall i :: 0 <= i < |User(key)| - 1 ==> User(key)[i] == 0xff
    ensures r != key ==> User(r) != [] && Raised(User(key), User(r), |User(r)| - 1)
  {
    var userKey := User(key);
    var tmp := FindShortSuccessor(userKey);
    r := key;
    if |tmp| < |userKey| && Less(userKey, tmp) {
      InternalParts(tmp, MAX_TAG);
      r := Internal(tmp, MAX_TAG);
    }
  }
}
