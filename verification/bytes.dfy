/** Bytes, and 16-bit numbers in network byte order. */
module Bytes {
  type byte = b: int | 0 <= b < 0x100
  type u16 = n: int | 0 <= n < 0x1_0000

  function Word(hi: byte, lo: byte): u16 { hi * 0x100 + lo }

  // The two bytes of a number, high byte first.
  function WordBytes(n: u16): (b: seq<byte>)
    ensures |b| == 2 && Word(b[0], b[1]) == n
  {
    [n / 0x100, n % 0x100]
  }

  lemma Regroup(a: seq<byte>, b: seq<byte>, c: seq<byte>)
    ensures (a + b) + c == a + (b + c)
  {}
}
