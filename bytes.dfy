// Byte sequences and the little-endian integer encodings used by every
// on-disk format of the store. Integers are written with their host byte
// order, which is little-endian on all supported Android ABIs.

module ByteCodec {

  /** An unsigned char. */
  newtype byte = x: int | 0 <= x < 256

  type Bytes = seq<byte>

  /** 256^k, the number of distinct values of a k-byte field. */
  function Pow256(k: nat): (r: nat)
    ensures r >= 1
  {
    if k == 0 then 1 else 256 * Pow256(k - 1)
  }

  const U16_LIMIT: nat := 0x1_0000
  const U32_LIMIT: nat := 0x1_0000_0000
  const U64_LIMIT: nat := 0x1_0000_0000_0000_0000

  lemma Pow256Values()
    ensures Pow256(1) == 0x100 && Pow256(2) == U16_LIMIT
    ensures Pow256(4) == U32_LIMIT && Pow256(8) == U64_LIMIT
  {
  }

  /** The k least significant bytes of n, least significant first. */
  function EncodeLE(n: nat, k: nat): (r: Bytes)
    ensures |r| == k
  {
    if k == 0 then [] else [(n % 256) as byte] + EncodeLE(n / 256, k - 1)
  }

  /** The unsigned value of a little-endian byte sequence. */
  function DecodeLE(s: Bytes): (n: nat)
    ensures n < Pow256(|s|)
  {
    if |s| == 0 then 0 else s[0] as nat + 256 * DecodeLE(s[1..])
  }

  /** Narrowing a value that already fits leaves it unchanged. */
  lemma NarrowFits(x: nat, limit: nat)
    requires x < limit
    ensures x % limit == x
  {
  }

  lemma {:induction false} DecodeEncodeLE(n: nat, k: nat)
    requires n < Pow256(k)
    ensures DecodeLE(EncodeLE(n, k)) == n
  {
    if k > 0 {
      var r := EncodeLE(n, k);
      assert r[1..] == EncodeLE(n / 256, k - 1);
      assert r[0] as nat == n % 256;
      DecodeEncodeLE(n / 256, k - 1);
      assert DecodeLE(r) == n % 256 + 256 * (n / 256);
    }
  }

  lemma DivModByte(a: nat, t: nat)
    requires a < 256
    ensures (a + 256 * t) % 256 == a && (a + 256 * t) / 256 == t
  {
  }

  lemma {:induction false} EncodeDecodeLE(s: Bytes)
    ensures EncodeLE(DecodeLE(s), |s|) == s
  {
    if |s| > 0 {
      var n := DecodeLE(s);
      var t := DecodeLE(s[1..]);
      assert n == s[0] as nat + 256 * t;
      DivModByte(s[0] as nat, t);
      EncodeDecodeLE(s[1..]);
      assert s == [s[0]] + s[1..];
    }
  }

  // Fixed-width fields.

  function U8(n: nat): (r: Bytes)
    requires n < 0x100
    ensures |r| == 1 && r[0] as nat == n
  {
    [n as byte]
  }

  function U16(n: nat): (r: Bytes)
    requires n < U16_LIMIT
    ensures |r| == 2
  {
    EncodeLE(n, 2)
  }

  function U32(n: nat): (r: Bytes)
    requires n < U32_LIMIT
    ensures |r| == 4
  {
    EncodeLE(n, 4)
  }

  function U64(n: nat): (r: Bytes)
    requires n < U64_LIMIT
    ensures |r| == 8
  {
    EncodeLE(n, 8)
  }

  lemma U16RoundTrip(n: nat)
    requires n < U16_LIMIT
    ensures DecodeLE(U16(n)) == n
  {
    Pow256Values();
    DecodeEncodeLE(n, 2);
  }

  lemma U32RoundTrip(n: nat)
    requires n < U32_LIMIT
    ensures DecodeLE(U32(n)) == n
  {
    Pow256Values();
    DecodeEncodeLE(n, 4);
  }

  lemma U64RoundTrip(n: nat)
    requires n < U64_LIMIT
    ensures DecodeLE(U64(n)) == n
  {
    Pow256Values();
    DecodeEncodeLE(n, 8);
  }

  /** A 32-bit two's complement field (an int32_t written in host order). */
  predicate InI32(z: int) { -0x8000_0000 <= z < 0x8000_0000 }

  /** The values of an int32_t. */
  type Int32 = z: int | InI32(z)

  function I32(z: int): (r: Bytes)
    requires InI32(z)
    ensures |r| == 4
  {
    EncodeLE(if z < 0 then z + U32_LIMIT else z, 4)
  }

  function I32Of(s: Bytes): (z: int)
    requires |s| == 4
    ensures InI32(z)
  {
    Pow256Values();
    var n := DecodeLE(s);
    if n >= 0x8000_0000 then n - U32_LIMIT else n
  }

  lemma I32RoundTrip(z: int)
    requires InI32(z)
    ensures I32Of(I32(z)) == z
  {
    Pow256Values();
    DecodeEncodeLE(if z < 0 then z + U32_LIMIT else z, 4);
  }

  /** An int8_t stored as one byte. */
  predicate InI8(z: int) { -128 <= z < 128 }

  /** The values of an int8_t. */
  type Int8 = z: int | InI8(z)

  function I8(z: int): (b: byte)
    requires InI8(z)
  {
    (if z < 0 then z + 256 else z) as byte
  }

  function I8Of(b: byte): (z: int)
    ensures InI8(z)
  {
    if b as int >= 128 then b as int - 256 else b as int
  }

  lemma I8RoundTrip(z: int)
    requires InI8(z)
    ensures I8Of(I8(z)) == z
  {
  }

  /** The bytes of an ASCII magic string such as "MVS1". */
  function Ascii(s: string): (r: Bytes)
    requires forall i | 0 <= i < |s| :: s[i] as int < 0x80
    ensures |r| == |s|
  {
    if s == [] then [] else [(s[0] as int) as byte] + Ascii(s[1..])
  }

  /** n zero bytes: what `seekp` past the end of a file leaves behind. */
  function Zeros(n: nat): (r: Bytes)
    ensures |r| == n && forall i | 0 <= i < n :: r[i] == 0
  {
    seq(n, _ => 0 as byte)
  }

  // Bitwise operations, written out bit by bit, least significant first.

  /** 2^k. */
  function TwoTo(k: nat): (r: nat)
    ensures r >= 1
  {
    if k == 0 then 1 else 2 * TwoTo(k - 1)
  }

  /** The low k bits of a XOR b. */
  function XorBits(a: nat, b: nat, k: nat): (r: nat)
    ensures r < TwoTo(k)
  {
    if k == 0 then 0 else (if a % 2 == b % 2 then 0 else 1) + 2 * XorBits(a / 2, b / 2, k - 1)
  }

  /** a ^ b on unsigned chars. */
  function Xor(a: byte, b: byte): byte
  {
    assert TwoTo(8) == 256;
    XorBits(a as nat, b as nat, 8) as byte
  }

  /** XOR with the same value twice gives back the low k bits of a. */
  lemma {:induction false} XorBitsTwice(a: nat, b: nat, k: nat)
    requires a < TwoTo(k)
    ensures XorBits(XorBits(a, b, k), b, k) == a
  {
    if k > 0 {
      var y := XorBits(a / 2, b / 2, k - 1);
      var x := XorBits(a, b, k);
      assert x % 2 == (if a % 2 == b % 2 then 0 else 1) && x / 2 == y;
      XorBitsTwice(a / 2, b / 2, k - 1);
    }
  }

  lemma XorTwice(a: byte, b: byte)
    ensures Xor(Xor(a, b), b) == a
  {
    assert TwoTo(8) == 256;
    XorBitsTwice(a as nat, b as nat, 8);
  }

  lemma {:induction false} XorBitsSymmetric(a: nat, b: nat, k: nat)
    ensures XorBits(a, b, k) == XorBits(b, a, k)
  {
    if k > 0 {
      XorBitsSymmetric(a / 2, b / 2, k - 1);
    }
  }

  /** XOR by a fixed byte is injective: a ^ b == a ^ c only when b == c. */
  lemma XorCancel(a: byte, b: byte, c: byte)
    ensures Xor(a, b) == Xor(a, c) <==> b == c
  {
    assert TwoTo(8) == 256;
    XorBitsSymmetric(a as nat, b as nat, 8);
    XorBitsSymmetric(a as nat, c as nat, 8);
    XorBitsTwice(b as nat, a as nat, 8);
    XorBitsTwice(c as nat, a as nat, 8);
  }
}
