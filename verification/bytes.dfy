/** Octets and the unsigned 32-bit big-endian integers (`struct` format `!I`) of the wire format. */
module Bytes {

  newtype byte = x: int | 0 <= x < 0x100

  /** One more than the largest value `struct.pack('!I', ...)` accepts. */
  const UINT32_LIMIT: int := 0x1_0000_0000

  /** `struct.pack('!I', n)`: the four octets of `n`, most significant first. */
  function Be32(n: nat): (r: seq<byte>)
    requires n < UINT32_LIMIT
    ensures |r| == 4
  {
    [(n / 0x100_0000) as byte, (n / 0x1_0000 % 0x100) as byte,
     (n / 0x100 % 0x100) as byte, (n % 0x100) as byte]
  }

  /** `struct.unpack('!I', s)[0]`: the number four octets denote, most significant first. */
  function FromBe32(s: seq<byte>): (n: nat)
    requires |s| == 4
    ensures n < UINT32_LIMIT
  {
    s[0] as nat * 0x100_0000 + s[1] as nat * 0x1_0000 + s[2] as nat * 0x100 + s[3] as nat
  }

  /** Packing then unpacking gives the number back. */
  lemma Be32Decodes(n: nat)
    requires n < UINT32_LIMIT
    ensures FromBe32(Be32(n)) == n
  {
    var b := Be32(n);
    assert n == n / 0x100 * 0x100 + n % 0x100;
    assert n / 0x100 == n / 0x1_0000 * 0x100 + n / 0x100 % 0x100;
    assert n / 0x1_0000 == n / 0x100_0000 * 0x100 + n / 0x1_0000 % 0x100;
  }

  /** Unpacking then packing gives the octets back, so every 4-octet string is the packing of one number. */
  lemma FromBe32Encodes(s: seq<byte>)
    requires |s| == 4
    ensures Be32(FromBe32(s)) == s
  {
    var n := FromBe32(s);
    var a, b, c, d := s[0] as int, s[1] as int, s[2] as int, s[3] as int;
    assert n == ((a * 0x100 + b) * 0x100 + c) * 0x100 + d;
    DivMod(n, (a * 0x100 + b) * 0x100 + c, d);
    DivMod(n / 0x100, a * 0x100 + b, c);
    DivMod(n / 0x1_0000 , a, b);
    assert n / 0x1_0000 == n / 0x100 / 0x100;
    assert n / 0x100_0000 == n / 0x1_0000 / 0x100;
  }

  /** Euclidean division by 256 is determined by a quotient and a remainder in range. */
  lemma DivMod(n: int, q: int, r: int)
    requires 0 <= r < 0x100 && n == q * 0x100 + r
    ensures n / 0x100 == q && n % 0x100 == r
  {
  }
}
