/** Byte strings: what the source calls a Slice. */
module Bytes {
  newtype Byte = x: int | 0 <= x < 256

  function Zeros(n: nat): (s: seq<Byte>)
    ensures |s| == n
  {
    seq(n, _ => 0)
  }

  lemma Assoc(a: seq<Byte>, b: seq<Byte>, c: seq<Byte>)
    ensures a + b + c == a + (b + c)
  {}
}
