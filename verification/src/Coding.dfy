/** util/coding.cc: little-endian fixed-width integers, varints and length-prefixed slices. */
module Coding {
  import opened Bytes
  import opened Keys

  const B: nat := 128
  const TWO_32: nat := 0x1_0000_0000
  const TWO_64: nat := 0x1_0000_0000_0000_0000

  /** What a reader of an encoding gets: a value, and the input that is left. */
  datatype Parsed<T> = Fail | Got(value: T, rest: seq<Byte>)

  // ------------------------------------------------------------- fixed width

  /** EncodeFixed32 and EncodeFixed64: `width` bytes, least significant first. */
  function Fixed(v: nat, width: nat): (s: seq<Byte>)
    ensures |s| == width
  {
    if width == 0 then [] else [(v % 256) as Byte] + Fixed(v / 256, width - 1)
  }

  /** DecodeFixed32 and DecodeFixed64. */
  function FixedValue(s: seq<Byte>): nat {
    if s == [] then 0 else s[0] as nat + 256 * FixedValue(s[1..])
  }

  function Pow(base: nat, n: nat): (p: nat)
    ensures base > 0 ==> p > 0
  {
    if n == 0 then 1 else base * Pow(base, n - 1)
  }

  lemma {:induction false} FixedBack(v: nat, width: nat)
    requires v < Pow(256, width)
    ensures FixedValue(Fixed(v, width)) == v
  {
    if width > 0 {
      assert v / 256 < Pow(256, width - 1);
      FixedBack(v / 256, width - 1);
      assert Fixed(v, width)[1..] == Fixed(v / 256, width - 1);
    }
  }

  // ----------------------------------------------------------------- varints

  /** Seven bits a byte, least significant first, the high bit set on all but the last. */
  function Varint(v: nat): seq<Byte> {
    if v < B then [v as Byte] else [(v % B + B) as Byte] + Varint(v / B)
  }

  /** Reads a varint of at most `bits` bits; higher bits of its last byte are lost, longer ones are refused. */
  function GetVarint(s: seq<Byte>, bits: int): Parsed<nat>
    decreases |s|
  {
    if bits <= 0 || s == [] then Fail
    else if s[0] as nat < B then Got(s[0] as nat % Pow(2, bits), s[1..])
    else
      match GetVarint(s[1..], bits - 7)
      case Fail => Fail
      case Got(v, rest) => Got(s[0] as nat % B + B * v, rest)
  }

  lemma SevenBits(bits: nat)
    requires bits >= 7
    ensures Pow(2, bits) == B * Pow(2, bits - 7)
  {
    assert Pow(2, bits) == 2 * Pow(2, bits - 1) == 4 * Pow(2, bits - 2) == 8 * Pow(2, bits - 3);
    assert Pow(2, bits - 3) == 2 * Pow(2, bits - 4) == 4 * Pow(2, bits - 5) == 8 * Pow(2, bits - 6);
  }

  lemma Pow32()
    ensures Pow(2, 32) == TWO_32
  {
    SevenBits(32);
    SevenBits(25);
    SevenBits(18);
    SevenBits(11);
    assert Pow(2, 4) == 16;
  }

  lemma Pow64()
    ensures Pow(2, 64) == TWO_64
  {
    SevenBits(64);
    SevenBits(57);
    SevenBits(50);
    SevenBits(43);
    SevenBits(36);
    SevenBits(29);
    SevenBits(22);
    SevenBits(15);
    SevenBits(8);
    assert Pow(2, 1) == 2;
  }

  lemma SmallPow(bits: nat)
    requires bits < 7
    ensures Pow(2, bits) < B
  {
    assert Pow(2, 1) == 2 && Pow(2, 2) == 4 && Pow(2, 3) == 8 && Pow(2, 4) == 16;
    assert Pow(2, 5) == 2 * Pow(2, 4) && Pow(2, 6) == 2 * Pow(2, 5);
  }

  lemma Below(v: nat, m: nat)
    requires v < m
    ensures v % m == v
  {}

  /** A varint read back is the value written, whatever follows it. */
  lemma {:induction false} VarintBack(v: nat, bits: nat, rest: seq<Byte>)
    requires bits > 0 && v < Pow(2, bits)
    ensures GetVarint(Varint(v) + rest, bits) == Got(v, rest)
  {
    if v < B {
      hide Pow;
      Below(v, Pow(2, bits));
      assert (Varint(v) + rest)[1..] == rest;
    } else {
      if bits < 7 {
        SmallPow(bits);
      }
      SevenBits(bits);
      OnePow();
      hide Pow;
      VarintBack(v / B, bits - 7, rest);
      assert (Varint(v) + rest)[1..] == Varint(v / B) + rest;
    }
  }

  /** A varint cut short is refused. */
  lemma {:induction false} VarintCut(v: nat, bits: int, k: nat)
    requires k < |Varint(v)|
    ensures GetVarint(Varint(v)[..k], bits) == Fail
    decreases v
  {
    hide Pow;
    if v >= B && k > 0 {
      assert Varint(v)[..k] == [(v % B + B) as Byte] + Varint(v / B)[..k - 1];
      assert Varint(v)[..k][1..] == Varint(v / B)[..k - 1];
      VarintCut(v / B, bits - 7, k - 1);
    }
  }

  /** What is read is in range, and the input only shrinks. */
  lemma {:induction false} VarintInRange(s: seq<Byte>, bits: nat)
    requires GetVarint(s, bits).Got?
    ensures GetVarint(s, bits).value < Pow(2, bits)
    ensures |GetVarint(s, bits).rest| < |s|
  {
    if s[0] as nat >= B {
      VarintInRange(s[1..], bits - 7);
      SevenBits(bits);
    }
  }

  /** The number a string of base-128 digits stands for, least significant first. */
  function SumOfDigits(s: seq<Byte>): nat {
    if s == [] then 0 else s[0] as nat % B + B * SumOfDigits(s[1..])
  }

  /** The first byte without a mark that more follows is at k. */
  ghost predicate LastDigit(s: seq<Byte>, k: int) {
    0 <= k < |s| && s[k] as nat < B && forall j :: 0 <= j < k ==> s[j] as nat >= B
  }

  lemma LowPart(low: nat, high: nat, p: nat)
    requires low < B && p > 0
    ensures (low + B * high) % (B * p) == low + B * (high % p)
  {
    var q, r := high / p, high % p;
    assert high == p * q + r;
    Scaled(low, r, p, q);
    assert r + 1 <= p;
    Remainder(low + B * high, B * p, q, low + B * r);
  }

  lemma Scaled(low: nat, r: nat, p: nat, q: nat)
    ensures low + B * (p * q + r) == (B * p) * q + (low + B * r)
  {}

  lemma Remainder(x: nat, m: nat, q: nat, r: nat)
    requires r < m && x == m * q + r
    ensures x % m == r
  {
    var d := q - x / m;
    assert m * d == x % m - r by {
      assert x == m * (x / m) + x % m;
      Minus(m, q, x / m);
    }
    if d > 0 {
      AtLeastOnce(m, d);
    } else if d < 0 {
      AtLeastOnce(m, -d);
    }
  }

  lemma Minus(m: int, a: int, b: int)
    ensures m * (a - b) == m * a - m * b
  {}

  lemma {:induction false} AtLeastOnce(m: int, d: nat)
    requires d > 0 && m >= 0
    ensures m * d >= m
  {
    if d > 1 {
      AtLeastOnce(m, d - 1);
      assert m * d == m * (d - 1) + m;
    }
  }

  /**
   * On any bytes: a varint is read exactly when its last digit is there and starts below the limit, and then it is
   * the sum of its digits, without the bits past the limit.
   */
  lemma {:induction false} VarintMeans(s: seq<Byte>, bits: nat)
    ensures GetVarint(s, bits).Got? <==> exists k :: LastDigit(s, k) && 7 * k < bits
    ensures forall k :: LastDigit(s, k) && 7 * k < bits ==>
      GetVarint(s, bits) == Got(SumOfDigits(s[..k + 1]) % Pow(2, bits), s[k + 1..])
    decreases bits
  {
    hide Pow, SumOfDigits;
    if bits > 0 && s != [] {
      if s[0] as nat < B {
        assert LastDigit(s, 0);
        OneDigit(s);
      } else if bits > 7 {
        VarintMeans(s[1..], bits - 7);
        forall k | LastDigit(s, k) && 7 * k < bits
          ensures k > 0 && LastDigit(s[1..], k - 1)
          ensures GetVarint(s, bits) == Got(SumOfDigits(s[..k + 1]) % Pow(2, bits), s[k + 1..])
        {
          MoreOfIt(s, bits, k);
        }
        forall k | LastDigit(s[1..], k) && 7 * k < bits - 7 ensures LastDigit(s, k + 1) {}
      }
    }
  }

  lemma OneDigit(s: seq<Byte>)
    requires s != [] && s[0] as nat < B
    ensures SumOfDigits(s[..1]) == s[0] as nat
  {
    assert s[..1] == [s[0]];
  }

  lemma MoreOfIt(s: seq<Byte>, bits: nat, k: nat)
    requires bits > 7 && s != [] && s[0] as nat >= B && LastDigit(s, k) && 7 * k < bits && k > 0
    requires LastDigit(s[1..], k - 1) ==>
      GetVarint(s[1..], bits - 7) == Got(SumOfDigits(s[1..][..k]) % Pow(2, bits - 7), s[1..][k..])
    ensures LastDigit(s[1..], k - 1)
    ensures GetVarint(s, bits) == Got(SumOfDigits(s[..k + 1]) % Pow(2, bits), s[k + 1..])
  {
    hide Pow;
    SevenBits(bits);
    assert s[..k + 1][1..] == s[1..][..k] && s[1..][k..] == s[k + 1..];
    LowPart(s[0] as nat % B, SumOfDigits(s[1..][..k]), Pow(2, bits - 7));
  }

  /** The low byte of v | B. */
  function WithMore(v: nat): Byte { (v % B + B) as Byte }

  method EncodeVarint32(v: nat) returns (s: seq<Byte>)
    requires v < TWO_32
    ensures s == Varint(v)
  {
    if v < 0x80 {
      s := [v as Byte];
    } else if v < 0x4000 {
      s := [WithMore(v), (v / 0x80) as Byte];
    } else if v < 0x20_0000 {
      s := [WithMore(v), WithMore(v / 0x80), (v / 0x4000) as Byte];
    } else if v < 0x1000_0000 {
      s := [WithMore(v), WithMore(v / 0x80), WithMore(v / 0x4000), (v / 0x20_0000) as Byte];
    } else {
      s := [WithMore(v), WithMore(v / 0x80), WithMore(v / 0x4000), WithMore(v / 0x20_0000), (v / 0x1000_0000) as Byte];
    }
    assert v / 0x80 / 0x80 == v / 0x4000 && v / 0x4000 / 0x80 == v / 0x20_0000 && v / 0x20_0000 / 0x80 == v / 0x1000_0000;
    MoreDigits(v);
    MoreDigits(v / 0x80);
    MoreDigits(v / 0x4000);
    MoreDigits(v / 0x20_0000);
  }

  lemma MoreDigits(v: nat)
    ensures Varint(v) == if v < B then [v as Byte] else [WithMore(v)] + Varint(v / B)
  {}

  method EncodeVarint64(value: nat) returns (s: seq<Byte>)
    ensures s == Varint(value)
  {
    var v: nat := value;
    s := [];
    while v >= B
      invariant s + Varint(v) == Varint(value)
    {
      s := s + [WithMore(v)];
      v := v / B;
    }
    s := s + [v as Byte];
  }

  ghost function Prepend(low: nat, scale: nat, high: Parsed<nat>): Parsed<nat> {
    match high
    case Fail => Fail
    case Got(v, rest) => Got(low + scale * v, rest)
  }

  lemma PrependDigit(low: nat, scale: nat, digit: nat, high: Parsed<nat>)
    ensures Prepend(low, scale, Prepend(digit, B, high)) == Prepend(low + digit * scale, B * scale, high)
  {
    if high.Got? {
      assert scale * (digit + B * high.value) == digit * scale + B * scale * high.value;
    }
  }

  /** The shared loop of GetVarint32PtrFallback and GetVarint64Ptr. */
  method GetVarintPtr(input: seq<Byte>, bits: nat) returns (r: Parsed<nat>)
    ensures r == GetVarint(input, bits)
  {
    hide Pow, GetVarint;
    var result: nat, shift: nat, p := 0, 0, 0;
    OnePow();
    assert input[0..] == input;
    while shift < bits && p < |input|
      invariant 0 <= p <= |input|
      invariant GetVarint(input, bits) == Prepend(result, Pow(2, shift), GetVarint(input[p..], bits - shift))
    {
      var byte := input[p] as nat;
      assert input[p..][1..] == input[p + 1..];
      GetVarintStep(input[p..], bits - shift);
      p := p + 1;
      if byte >= B {
        // The bits from `shift` on are not set yet, so `|` is a sum.
        PrependDigit(result, Pow(2, shift), byte % B, GetVarint(input[p..], bits - shift - 7));
        SevenBits(shift + 7);
        result := result + byte % B * Pow(2, shift);
        shift := shift + 7;
      } else {
        result := result + byte % Pow(2, bits - shift) * Pow(2, shift);
        return Got(result, input[p..]);
      }
    }
    GetVarintEnds(input[p..], bits - shift);
    r := Fail;
  }

  lemma OnePow()
    ensures Pow(2, 0) == 1
  {}

  lemma GetVarintStep(s: seq<Byte>, bits: nat)
    requires bits > 0 && s != []
    ensures s[0] as nat < B ==> GetVarint(s, bits) == Got(s[0] as nat % Pow(2, bits), s[1..])
    ensures s[0] as nat >= B ==> GetVarint(s, bits) == Prepend(s[0] as nat % B, B, GetVarint(s[1..], bits - 7))
  {}

  lemma GetVarintEnds(s: seq<Byte>, bits: int)
    requires bits <= 0 || s == []
    ensures GetVarint(s, bits) == Fail
  {}

  // ---------------------------------------------------- length-prefixed slices

  /** PutLengthPrefixedSlice; a length beyond 32 bits is truncated. */
  function LengthPrefixed(s: seq<Byte>): seq<Byte> { Varint(|s| % TWO_32) + s }

  function GetLengthPrefixed(input: seq<Byte>): Parsed<seq<Byte>> {
    match GetVarint(input, 32)
    case Fail => Fail
    case Got(n, rest) => if n <= |rest| then Got(rest[..n], rest[n..]) else Fail
  }

  /** A slice is read back exactly when its length fits its prefix. */
  lemma LengthPrefixedBack(s: seq<Byte>, rest: seq<Byte>)
    ensures GetLengthPrefixed(LengthPrefixed(s) + rest) == Got(s, rest) <==> |s| < TWO_32
  {
    Pow32();
    var n := |s| % TWO_32;
    VarintBack(n, 32, s + rest);
    assert LengthPrefixed(s) + rest == Varint(n) + (s + rest);
    if |s| < TWO_32 {
      assert (s + rest)[..n] == s && (s + rest)[n..] == rest;
    }
  }

  lemma LengthPrefixedShrinks(input: seq<Byte>)
    requires GetLengthPrefixed(input).Got?
    ensures |GetLengthPrefixed(input).rest| < |input|
  {
    VarintInRange(input, 32);
  }

  /** A slice cut short is refused, wherever the cut is. */
  lemma LengthPrefixedCut(s: seq<Byte>, k: nat)
    requires |s| < TWO_32 && k < |LengthPrefixed(s)|
    ensures GetLengthPrefixed(LengthPrefixed(s)[..k]) == Fail
  {
    Pow32();
    hide Pow;
    var n := Varint(|s|);
    if k < |n| {
      VarintCut(|s|, 32, k);
      assert LengthPrefixed(s)[..k] == n[..k];
    } else {
      VarintBack(|s|, 32, s[..k - |n|]);
      assert LengthPrefixed(s)[..k] == n + s[..k - |n|];
    }
  }
}
