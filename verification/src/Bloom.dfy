/** util/bloom.cc: Bloom filters by double hashing, for any hash function. */
module Bloom {
  import opened Bytes
  import opened Coding

  type Hash = seq<Byte> -> nat

  const MAX_PROBES: nat := 30

  /** b & (1 << i). */
  predicate HasBit(b: nat, i: nat)
    decreases i
  {
    if i == 0 then b % 2 == 1 else HasBit(b / 2, i - 1)
  }

  /** b | (1 << i). */
  function WithBit(b: nat, i: nat): nat
    decreases i
  {
    if i == 0 then b / 2 * 2 + 1 else WithBit(b / 2, i - 1) * 2 + b % 2
  }

  lemma {:induction false} WithBitSets(b: nat, i: nat, j: nat)
    ensures HasBit(WithBit(b, i), j) <==> j == i || HasBit(b, j)
    decreases i
  {
    if i == 0 {
      assert WithBit(b, i) / 2 == b / 2;
    } else {
      assert WithBit(b, i) / 2 == WithBit(b / 2, i - 1);
      if j > 0 {
        WithBitSets(b / 2, i - 1, j - 1);
      }
    }
  }

  lemma {:induction false} WithBitFits(b: nat, i: nat, n: nat)
    requires i < n && b < Pow(2, n)
    ensures WithBit(b, i) < Pow(2, n)
    decreases i
  {
    if i > 0 {
      WithBitFits(b / 2, i - 1, n - 1);
    }
  }

  predicate IsSet(bytes: seq<Byte>, position: nat)
    requires position < 8 * |bytes|
  {
    HasBit(bytes[position / 8] as nat, position % 8)
  }

  /** Rotate right by 17 bits. */
  function Rotated(h: nat): nat { h / 0x2_0000 + h % 0x2_0000 * 0x8000 }

  /** The j-th hash of a key. */
  function Probe(h: nat, j: nat): nat {
    if j == 0 then h % TWO_32 else (Probe(h, j - 1) + Rotated(h % TWO_32)) % TWO_32
  }

  function Bits(n: nat, bitsPerKey: nat): (bytes: nat)
    ensures bytes >= 8
  {
    ((if n * bitsPerKey < 64 then 64 else n * bitsPerKey) + 7) / 8
  }

  /** Exactly the bits of the probes of `keys` are set. */
  ghost predicate Holds(bytes: seq<Byte>, keys: seq<seq<Byte>>, probes: nat, hash: Hash)
    requires bytes != []
  {
    forall p :: 0 <= p < 8 * |bytes| ==> (IsSet(bytes, p) <==> Hit(keys, probes, hash, 8 * |bytes|, p))
  }

  ghost predicate Hit(keys: seq<seq<Byte>>, probes: nat, hash: Hash, bits: nat, p: nat)
    requires bits > 0
  {
    exists i, j :: HitBy(keys, probes, hash, bits, p, i, j)
  }

  ghost predicate HitBy(keys: seq<seq<Byte>>, probes: nat, hash: Hash, bits: nat, p: nat, i: nat, j: nat)
    requires bits > 0
  {
    i < |keys| && j < probes && Probe(hash(keys[i]), j) % bits == p
  }

  method SetBit(bitmap: array<Byte>, position: nat)
    requires position < 8 * bitmap.Length
    modifies bitmap
    ensures forall p :: 0 <= p < 8 * bitmap.Length ==>
      (IsSet(bitmap[..], p) <==> p == position || old(IsSet(bitmap[..], p)))
  {
    var b := bitmap[position / 8] as nat;
    assert Pow(2, 8) == 256;
    WithBitFits(b, position % 8, 8);
    forall p | 0 <= p < 8 {
      WithBitSets(b, position % 8, p);
    }
    bitmap[position / 8] := WithBit(b, position % 8) as Byte;
  }

  lemma NoneHit(keys: seq<seq<Byte>>, probes: nat, hash: Hash, bits: nat)
    requires bits > 0 && (keys == [] || probes == 0)
    ensures forall p :: !Hit(keys, probes, hash, bits, p)
  {}

  lemma {:induction false} NoBit(i: nat)
    ensures !HasBit(0, i)
  {
    if i > 0 {
      NoBit(i - 1);
    }
  }

  lemma NoBits()
    ensures forall i: nat :: !HasBit(0, i)
  {
    forall i: nat {
      NoBit(i);
    }
  }

  lemma OneMoreProbe(key: seq<Byte>, j: nat, probes: nat, hash: Hash, bits: nat)
    requires bits > 0
    ensures forall p :: (Hit([key], j + 1, hash, bits, p) <==> Hit([key], j, hash, bits, p) || p == Probe(hash(key), j) % bits)
  {
    forall p
      ensures Hit([key], j + 1, hash, bits, p) <==> Hit([key], j, hash, bits, p) || p == Probe(hash(key), j) % bits
    {
      if Hit([key], j + 1, hash, bits, p) {
        var i: nat, h: nat :| HitBy([key], j + 1, hash, bits, p, i, h);
        assert h == j || HitBy([key], j, hash, bits, p, i, h);
      }
      if Hit([key], j, hash, bits, p) {
        var i: nat, h: nat :| HitBy([key], j, hash, bits, p, i, h);
        assert HitBy([key], j + 1, hash, bits, p, i, h);
      }
      if p == Probe(hash(key), j) % bits {
        assert HitBy([key], j + 1, hash, bits, p, 0, j);
      }
    }
  }

  lemma OneMoreKey(keys: seq<seq<Byte>>, i: nat, probes: nat, hash: Hash, bits: nat)
    requires bits > 0 && i < |keys|
    ensures forall p ::
      (Hit(keys[..i + 1], probes, hash, bits, p) <==> Hit(keys[..i], probes, hash, bits, p) || Hit([keys[i]], probes, hash, bits, p))
  {
    forall p
      ensures Hit(keys[..i + 1], probes, hash, bits, p) <==>
        Hit(keys[..i], probes, hash, bits, p) || Hit([keys[i]], probes, hash, bits, p)
    {
      if Hit(keys[..i + 1], probes, hash, bits, p) {
        var k: nat, j: nat :| HitBy(keys[..i + 1], probes, hash, bits, p, k, j);
        assert if k < i then HitBy(keys[..i], probes, hash, bits, p, k, j) else HitBy([keys[i]], probes, hash, bits, p, 0, j);
      }
      if Hit(keys[..i], probes, hash, bits, p) {
        var k: nat, j: nat :| HitBy(keys[..i], probes, hash, bits, p, k, j);
        assert HitBy(keys[..i + 1], probes, hash, bits, p, k, j);
      }
      if Hit([keys[i]], probes, hash, bits, p) {
        var k: nat, j: nat :| HitBy([keys[i]], probes, hash, bits, p, k, j);
        assert HitBy(keys[..i + 1], probes, hash, bits, p, i, j);
      }
    }
  }

  /** The filter of a list of keys: its bits, then the number of probes. */
  method CreateFilter(keys: seq<seq<Byte>>, bitsPerKey: nat, probes: nat, hash: Hash) returns (filter: seq<Byte>)
    requires 1 <= probes <= MAX_PROBES
    ensures |filter| == Bits(|keys|, bitsPerKey) + 1 && filter[|filter| - 1] as nat == probes
    ensures Holds(filter[..|filter| - 1], keys, probes, hash)
  {
    hide Hit, HasBit;
    var bytes := Bits(|keys|, bitsPerKey);
    var bits := bytes * 8;
    var bitmap := new Byte[bytes](_ => 0);
    var i := 0;
    NoneHit([], probes, hash, bits);
    NoBits();
    while i < |keys|
      invariant 0 <= i <= |keys|
      invariant Holds(bitmap[..], keys[..i], probes, hash)
    {
      var h := hash(keys[i]) % TWO_32;
      var delta := Rotated(h);
      var j := 0;
      NoneHit([keys[i]], 0, hash, bits);
      while j < probes
        invariant 0 <= j <= probes
        invariant h == Probe(hash(keys[i]), j)
        invariant forall p :: 0 <= p < bits ==>
          (IsSet(bitmap[..], p) <==> Hit(keys[..i], probes, hash, bits, p) || Hit([keys[i]], j, hash, bits, p))
      {
        SetBit(bitmap, h % bits);
        OneMoreProbe(keys[i], j, probes, hash, bits);
        h := (h + delta) % TWO_32;
        j := j + 1;
      }
      OneMoreKey(keys, i, probes, hash, bits);
      i := i + 1;
    }
    assert keys[..|keys|] == keys;
    filter := bitmap[..] + [probes as Byte];
  }

  /** Whether a key may be in a filter; an encoding with more probes than used today always matches. */
  method KeyMayMatch(key: seq<Byte>, filter: seq<Byte>, hash: Hash) returns (r: bool)
    ensures r == MayMatch(key, filter, hash)
  {
    if |filter| < 2 {
      return false;
    }
    var bits := (|filter| - 1) * 8;
    var k := filter[|filter| - 1] as nat;
    if k > MAX_PROBES {
      return true;
    }
    var h := hash(key) % TWO_32;
    var delta := Rotated(h);
    var j := 0;
    while j < k
      invariant 0 <= j <= k
      invariant h == Probe(hash(key), j)
      invariant forall i :: 0 <= i < j ==> IsSet(filter[..|filter| - 1], Probe(hash(key), i) % bits)
    {
      if !HasBit(filter[h % bits / 8] as nat, h % bits % 8) {
        assert !IsSet(filter[..|filter| - 1], Probe(hash(key), j) % bits);
        return false;
      }
      h := (h + delta) % TWO_32;
      j := j + 1;
    }
    r := true;
  }

  predicate MayMatch(key: seq<Byte>, filter: seq<Byte>, hash: Hash) {
    |filter| >= 2 && (filter[|filter| - 1] as nat <= MAX_PROBES ==>
      forall j :: 0 <= j < filter[|filter| - 1] as nat ==>
        IsSet(filter[..|filter| - 1], Probe(hash(key), j) % ((|filter| - 1) * 8)))
  }

  /** A key that went into a filter always matches it. */
  lemma NoFalseNegatives(keys: seq<seq<Byte>>, key: seq<Byte>, filter: seq<Byte>, probes: nat, hash: Hash)
    requires |filter| >= 2 && filter[|filter| - 1] as nat == probes && key in keys
    requires Holds(filter[..|filter| - 1], keys, probes, hash)
    ensures MayMatch(key, filter, hash)
  {
    var i: nat :| i < |keys| && keys[i] == key;
    var bits := (|filter| - 1) * 8;
    forall j | 0 <= j < probes
      ensures IsSet(filter[..|filter| - 1], Probe(hash(key), j) % bits)
    {
      assert HitBy(keys, probes, hash, bits, Probe(hash(key), j) % bits, i, j);
    }
  }
}
