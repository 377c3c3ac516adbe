// IEEE 754 binary32 values as they appear in the store's files: four opaque
// bytes in host (little-endian) order. Arithmetic in the model is done on
// `real`; `Val` reads a pattern as a real number and `FromReal` is the
// rounding back to a pattern, which the model keeps abstract (it truncates
// toward zero instead of rounding to nearest-even).

module Float32 {
  import opened ByteCodec

  type F32 = b: Bytes | |b| == 4 witness [0, 0, 0, 0]

  function Pow2(e: nat): (r: nat)
    ensures r >= 1
  {
    if e == 0 then 1 else 2 * Pow2(e - 1)
  }

  function Pow2R(e: int): (r: real)
    ensures r > 0.0
  {
    if e >= 0 then Pow2(e) as real else 1.0 / Pow2(-e) as real
  }

  const FRAC_LIMIT: nat := 0x80_0000   // 2^23
  const SIGN_BIT: nat := 0x8000_0000   // 2^31

  /** The value of a finite pattern; NaN and the infinities read as 0. */
  function Val(f: F32): real
  {
    var bits := DecodeLE(f);
    var expField := (bits / FRAC_LIMIT) % 0x100;
    var frac := bits % FRAC_LIMIT;
    var mag :=
      if expField == 0 then frac as real * Pow2R(-149)
      else if expField == 0xFF then 0.0
      else (FRAC_LIMIT + frac) as real * Pow2R(expField - 150);
    if bits >= SIGN_BIT then -mag else mag
  }

  /** Halves a until it is below 2, counting the exponent, up to 2^128. */
  function ScaleDown(a: real, e: int): (r: (real, int))
    requires a > 0.0 && e <= 128
    ensures r.0 > 0.0 && e <= r.1 <= 128 && (r.0 < 2.0 || r.1 == 128)
    decreases 128 - e
  {
    if a < 2.0 || e == 128 then (a, e) else ScaleDown(a / 2.0, e + 1)
  }

  /** Doubles a until it reaches 1, down to the subnormal exponent -126. */
  function ScaleUp(a: real, e: int): (r: (real, int))
    requires a > 0.0 && -126 <= e
    ensures r.0 > 0.0 && -126 <= r.1 <= e && (r.0 >= 1.0 || r.1 == -126)
    ensures a < 2.0 ==> r.0 < 2.0
    decreases e + 126
  {
    if a >= 1.0 || e == -126 then (a, e) else ScaleUp(a * 2.0, e - 1)
  }

  /** The bit pattern of |x| as a 31-bit number, truncated toward zero. */
  function MagnitudeBits(a: real): (bits: nat)
    requires a >= 0.0
    ensures bits < SIGN_BIT
  {
    if a == 0.0 then 0
    else
      var (m1, e1) := ScaleDown(a, 0);
      if e1 == 128 then 0xFE * FRAC_LIMIT + (FRAC_LIMIT - 1)   // largest finite
      else
        var (m, e) := ScaleUp(m1, e1);
        if m < 1.0 then (m * FRAC_LIMIT as real).Floor               // subnormal
        else (e + 127) * FRAC_LIMIT + ((m - 1.0) * FRAC_LIMIT as real).Floor
  }

  function FromReal(x: real): F32
  {
    var bits := if x < 0.0 then SIGN_BIT + MagnitudeBits(-x) else MagnitudeBits(x);
    EncodeLE(bits, 4)
  }

  /** Reads the i-th float of a packed float array. */
  function FloatAt(s: Bytes, i: nat): (f: F32)
    requires 4 * i + 4 <= |s|
  {
    s[4 * i .. 4 * i + 4]
  }

  /** A vector of floats written back to back, as `write(vec.data(), n * 4)` does. */
  function Pack(v: seq<F32>): (r: Bytes)
    ensures |r| == 4 * |v|
  {
    if v == [] then [] else v[0] + Pack(v[1..])
  }

  /** Consecutive groups of four bytes; a trailing partial group is dropped. */
  function Unpack(s: Bytes): (v: seq<F32>)
    ensures |v| == |s| / 4
  {
    if |s| < 4 then [] else [s[..4]] + Unpack(s[4..])
  }

  lemma {:induction false} UnpackPack(v: seq<F32>)
    ensures Unpack(Pack(v)) == v
  {
    if v != [] {
      assert Pack(v)[..4] == v[0];
      assert Pack(v)[4..] == Pack(v[1..]);
      UnpackPack(v[1..]);
    }
  }

  lemma {:induction false} PackAt(v: seq<F32>, i: nat)
    requires i < |v|
    ensures FloatAt(Pack(v), i) == v[i]
  {
    if i > 0 {
      assert Pack(v)[4..] == Pack(v[1..]);
      PackAt(v[1..], i - 1);
      assert Pack(v)[4 * i .. 4 * i + 4] == Pack(v[1..])[4 * (i - 1) .. 4 * (i - 1) + 4];
    }
  }

  /** The real values of a float vector. */
  function Vals(v: seq<F32>): (r: seq<real>)
    ensures |r| == |v| && forall i | 0 <= i < |v| :: r[i] == Val(v[i])
  {
    seq(|v|, i requires 0 <= i < |v| => Val(v[i]))
  }
}
