/** Bit facts about 32-bit words, each small enough for the solver to settle bit by bit. */
module Words {
  type Word = bv32

  // The operations are named so that proofs about whole words can hide their bits.
  function Xor(a: Word, b: Word): Word { a ^ b }
  function Half(a: Word): Word { a >> 1 }
  function Low(a: Word): Word { a & 1 }

  /** The byte `b` below the three bytes of `y`. */
  function Join(b: Word, y: Word): Word { b | (y << 8) }

  lemma XorComm(a: Word, b: Word)
    ensures Xor(a, b) == Xor(b, a)
  {}

  lemma XorAssoc(a: Word, b: Word, c: Word)
    ensures Xor(Xor(a, b), c) == Xor(a, Xor(b, c))
  {}

  lemma XorZero(a: Word)
    ensures Xor(a, 0) == a && Xor(0, a) == a
  {}

  lemma XorSelf(a: Word, b: Word)
    ensures Xor(Xor(a, b), b) == a
  {}

  lemma XorSwap(a: Word, b: Word, p: Word, q: Word)
    ensures Xor(Xor(a, b), Xor(p, q)) == Xor(Xor(a, p), Xor(b, q))
  {
    hide *;
    XorAssoc(a, b, Xor(p, q));
    XorAssoc(b, p, q);
    XorComm(b, p);
    XorAssoc(p, b, q);
    XorAssoc(a, p, Xor(b, q));
  }

  lemma HalfLinear(a: Word, b: Word)
    ensures Half(Xor(a, b)) == Xor(Half(a), Half(b))
  {}

  lemma LowLinear(a: Word, b: Word)
    ensures Low(Xor(a, b)) == Xor(Low(a), Low(b))
  {}

  lemma LowCases(a: Word)
    ensures Low(a) == 0 || Low(a) == 1
  {}

  predicate Doubled(x: Word, h: Word) { x & 1 == 0 && x >> 1 == h }

  lemma ShiftDown(x: Word)
    requires x < 0x100_0000
    ensures Doubled(x << 8, x << 7)
    ensures Doubled(x << 7, x << 6)
    ensures Doubled(x << 6, x << 5)
    ensures Doubled(x << 5, x << 4)
    ensures Doubled(x << 4, x << 3)
    ensures Doubled(x << 3, x << 2)
    ensures Doubled(x << 2, x << 1)
    ensures Doubled(x << 1, x)
  {}

  /** A word is its low byte and the three above it. */
  lemma SplitLow(l: Word)
    ensures l == Xor(l & 0xff, (l >> 8) << 8)
    ensures l >> 8 < 0x100_0000
  {}

  lemma SplitLowXor(l: Word, b: Word)
    ensures Xor(l, b) == Xor(Xor(l & 0xff, b), (l >> 8) << 8)
  {
    XorComm(Xor(l & 0xff, b), (l >> 8) << 8);
    XorAssoc((l >> 8) << 8, l & 0xff, b);
    XorComm((l >> 8) << 8, l & 0xff);
    SplitLow(l);
    hide *;
  }

  lemma SplitBytes(l: Word)
    ensures l == Xor(Xor(Xor(l & 0xff, ((l >> 8) & 0xff) << 8), ((l >> 16) & 0xff) << 16), (l >> 24) << 24)
  {}

  lemma JoinSplit(b: Word, y: Word)
    requires b < 256 && y < 0x100_0000
    ensures Join(b, y) == Xor(b, y << 8)
  {}

  lemma JoinSmall(b: Word, c: Word, d: Word)
    requires b < 256 && c < 256 && d < 256
    ensures d < 0x100_0000 && Join(c, d) < 0x1_0000 && Join(b, Join(c, d)) < 0x100_0000
  {}

  lemma JoinBack(w: Word)
    ensures Join(w & 0xff, Join((w >> 8) & 0xff, Join((w >> 16) & 0xff, w >> 24))) == w
  {}

  // --------------------------------------------------------- bytes in words

  /** The eight bits of a byte, the lowest first. */
  datatype Bits = Bits(a: bool, b: bool, c: bool, d: bool, e: bool, f: bool, g: bool, h: bool)

  // Named, so that proofs can hide the arithmetic.
  function Odd(n: int): bool { n % 2 == 1 }
  function HalfOf(n: int): int { n / 2 }
  function Twice(a: bool, m: int): int { (if a then 1 else 0) + 2 * m }

  /** The bits of a number and the number of some bits. */
  function Digits(n: int): Bits {
    var n1 := HalfOf(n);
    var n2 := HalfOf(n1);
    var n3 := HalfOf(n2);
    var n4 := HalfOf(n3);
    var n5 := HalfOf(n4);
    var n6 := HalfOf(n5);
    Bits(Odd(n), Odd(n1), Odd(n2), Odd(n3), Odd(n4), Odd(n5), Odd(n6), Odd(HalfOf(n6)))
  }

  function Sum(x: Bits): (n: int)
    ensures 0 <= n < 256
  {
    Twice(x.a, Twice(x.b, Twice(x.c, Twice(x.d, Twice(x.e, Twice(x.f, Twice(x.g, Twice(x.h, 0))))))))
  }

  lemma Halved(a: bool, m: int)
    ensures Odd(Twice(a, m)) == a && HalfOf(Twice(a, m)) == m
  {}

  lemma Halves(n: int, k: nat)
    requires 0 <= n < 2 * k
    ensures n == Twice(Odd(n), HalfOf(n)) && 0 <= HalfOf(n) < k
  {}

  lemma SumDigits(x: Bits)
    ensures Digits(Sum(x)) == x
  {
    var m7 := Twice(x.h, 0);
    var m6 := Twice(x.g, m7);
    var m5 := Twice(x.f, m6);
    var m4 := Twice(x.e, m5);
    var m3 := Twice(x.d, m4);
    var m2 := Twice(x.c, m3);
    var m1 := Twice(x.b, m2);
    Halved(x.a, m1);
    Halved(x.b, m2);
    Halved(x.c, m3);
    Halved(x.d, m4);
    Halved(x.e, m5);
    Halved(x.f, m6);
    Halved(x.g, m7);
    Halved(x.h, 0);
    hide Twice, Odd, HalfOf;
  }

  lemma DigitsSum(n: int)
    requires 0 <= n < 256
    ensures Sum(Digits(n)) == n
  {
    hide Twice, Odd, HalfOf;
    var n1 := HalfOf(n);
    var n2 := HalfOf(n1);
    var n3 := HalfOf(n2);
    var n4 := HalfOf(n3);
    var n5 := HalfOf(n4);
    var n6 := HalfOf(n5);
    Halves(n, 128);
    Halves(n1, 64);
    Halves(n2, 32);
    Halves(n3, 16);
    Halves(n4, 8);
    Halves(n5, 4);
    Halves(n6, 2);
    Halves(HalfOf(n6), 1);
  }

  /** Bits in a word. */
  function Pack(x: Bits): Word {
    (if x.a then 1 else 0) | (if x.b then 2 else 0) | (if x.c then 4 else 0) | (if x.d then 8 else 0)
    | (if x.e then 16 else 0) | (if x.f then 32 else 0) | (if x.g then 64 else 0) | (if x.h then 128 else 0)
  }

  function Unpack(w: Word): Bits {
    Bits(w & 1 != 0, w & 2 != 0, w & 4 != 0, w & 8 != 0, w & 16 != 0, w & 32 != 0, w & 64 != 0, w & 128 != 0)
  }

  lemma UnpackPack(x: Bits)
    ensures Pack(x) < 256 && Unpack(Pack(x)) == x
  {}

  lemma PackUnpack(w: Word)
    requires w < 256
    ensures Pack(Unpack(w)) == w
  {}
}
