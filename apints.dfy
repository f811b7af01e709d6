/** Arbitrary-precision integers as LLVM's APInt holds them: an unsigned bit
    pattern `value` stored at a fixed bit `width`, together with the
    32-bit `unsigned` arithmetic the verifiers do on widths. */
module APInts {

  /** 2^32: C++ `unsigned` arithmetic wraps modulo this. */
  const U32_MODULUS: nat := 0x1_0000_0000

  /** A C++ `unsigned` (bit widths are held in this type). */
  type u32 = x: int | 0 <= x < 0x1_0000_0000

  function Pow2(n: nat): (r: nat)
    ensures r >= 1
  {
    if n == 0 then 1 else 2 * Pow2(n - 1)
  }

  lemma {:induction false} Pow2Monotone(m: nat, n: nat)
    requires m <= n
    ensures Pow2(m) <= Pow2(n)
  {
    if m < n {
      Pow2Monotone(m, n - 1);
    }
  }

  /** `a - b` on `unsigned` operands. */
  function SubU32(a: u32, b: u32): (r: u32)
    ensures a >= b ==> r == a - b
    ensures a < b ==> r == a - b + U32_MODULUS
  {
    (a - b) % U32_MODULUS
  }

  /** `2 * a` on an `unsigned` operand: the doubling wraps once it reaches 2^32. */
  function DoubleU32(a: u32): (r: u32)
    ensures 2 * a < U32_MODULUS ==> r == 2 * a
    ensures 2 * a >= U32_MODULUS ==> r < a
  {
    if 2 * a < U32_MODULUS then 2 * a else 2 * a - U32_MODULUS
  }

  function MaxU32(a: u32, b: u32): (r: u32)
    ensures r >= a && r >= b && (r == a || r == b)
  {
    if a < b then b else a
  }

  datatype Bits = Bits(width: u32, value: nat)

  /** An APInt: a bit pattern that fits its width. */
  type APInt = b: Bits | b.value < Pow2(b.width) witness Bits(1, 0)

  /** `APInt::getActiveBits` of a pattern: the position of its highest set
      bit plus one, and 0 for 0. */
  function ActiveBits(v: nat): nat
  {
    if v == 0 then 0 else 1 + ActiveBits(v / 2)
  }

  /** The number of active bits is at most `k` exactly when the value is
      below 2^k: the meaning of "fits in k bits". */
  lemma {:induction false} ActiveBitsBound(v: nat, k: nat)
    ensures ActiveBits(v) <= k <==> v < Pow2(k)
  {
    if v == 0 {
    } else if k == 0 {
      assert ActiveBits(v) == 1 + ActiveBits(v / 2);
    } else {
      ActiveBitsBound(v / 2, k - 1);
    }
  }

  /** `APInt::getActiveBits`: never more than the width. */
  function ActiveBitsOf(a: APInt): (r: u32)
    ensures r <= a.width
    ensures r as nat == ActiveBits(a.value)
  {
    ActiveBitsBound(a.value, a.width);
    ActiveBits(a.value)
  }

  predicate IsZero(a: APInt)
  {
    a.value == 0
  }

  /** `APInt::zextOrTrunc` (and `trunc`): keep the low `width` bits. */
  function ZextOrTrunc(a: APInt, width: u32): (r: APInt)
    ensures r.width == width
    ensures width >= a.width ==> r.value == a.value
  {
    if width >= a.width then
      Pow2Monotone(a.width, width);
      Bits(width, a.value)
    else
      Bits(width, a.value % Pow2(width))
  }

  /** `a - 1` on an APInt: wraps to all ones at zero. */
  function SubOne(a: APInt): (r: APInt)
    ensures r.width == a.width
    ensures a.value > 0 ==> r.value == a.value - 1
    ensures a.value == 0 ==> r.value == Pow2(a.width) - 1
  {
    if a.value == 0 then Bits(a.width, Pow2(a.width) - 1) else Bits(a.width, a.value - 1)
  }

  /** `APInt::slt(0)`: the top bit of the pattern is set. */
  predicate IsSignedNegative(a: APInt)
  {
    a.width > 0 && a.value >= Pow2(a.width - 1)
  }
}
