/**
 * The integer helpers of the floating-point test program: a 32-bit integer
 * square root by the digit-by-digit method, a low-bit mask, and the
 * packing and unpacking of the sign, exponent and mantissa fields of an
 * IEEE 754 single-precision bit pattern (sign in bit 31, exponent in bits
 * 23-30, mantissa in bits 0-22).
 */
module FpBits {
  import opened Arith

  /**
   * The first loop of `isqrt_test`: from `1 << 30` down by factors of four
   * until the power no longer exceeds `num`. With `k` the exponent of the
   * ghost root scale `Pow2(k)`, the result is the largest power of four not
   * above `num`, which is `Pow2(k - 1)` squared, or 0 when `num` is 0.
   */
  method HighestPowerOfFour(num: nat) returns (bit: nat, ghost k: nat)
    requires num < 0x1_0000_0000
    ensures k <= 16 && Pow2(k) <= 0x1_0000
    ensures k == 0 ==> bit == 0
    ensures k >= 1 ==> 4 * bit == Pow2(k) * Pow2(k)
    ensures bit <= num < Pow2(k) * Pow2(k)
    ensures bit == 0 <==> num == 0
  {
    bit := 0x4000_0000;
    k := 16;
    Pow2Table();
    while bit > num
      invariant k <= 16 && Pow2(k) <= 0x1_0000
      invariant k == 0 ==> bit == 0
      invariant k >= 1 ==> 4 * bit == Pow2(k) * Pow2(k)
      invariant num < Pow2(k) * Pow2(k)
      decreases bit
    {
      QuarterStep(k, bit);
      bit := bit / 4;
      k := k - 1;
    }
  }

  /** The powers of two the square root starts from. */
  lemma Pow2Table()
    ensures Pow2(16) == 0x1_0000 && Pow2(16) * Pow2(16) == 0x1_0000_0000
  {
    assert Pow2(4) == 16;
    assert Pow2(8) == 256;
    assert Pow2(12) == 4096;
  }

  /**
   * `bit >>= 2` on the square of a scale: a quarter of it is the square of
   * half the scale, and the last power of four, 1, becomes 0.
   */
  lemma QuarterStep(k: nat, bit: nat)
    requires k >= 1 && 4 * bit == Pow2(k) * Pow2(k)
    ensures Pow2(k) == 2 * Pow2(k - 1) && Pow2(k - 1) <= Pow2(k)
    ensures bit == Pow2(k - 1) * Pow2(k - 1)
    ensures k - 1 >= 1 ==> 4 * (bit / 4) == Pow2(k - 1) * Pow2(k - 1)
    ensures k - 1 == 0 ==> bit / 4 == 0 && bit == 1
  {
    var h := Pow2(k - 1);
    assert 4 * bit == 4 * (h * h);
    if k >= 2 {
      var p := Pow2(k - 2);
      assert h * h == 4 * (p * p);
      DivModUnique(bit, 4, p * p, 0);
    }
  }

  /**
   * `isqrt_test`: the integer square root of a 32-bit value. Every
   * intermediate sum stays below 2^32, so the `uint32_t` arithmetic of the
   * loop never wraps.
   */
  method Isqrt(num: nat) returns (res: nat)
    requires num < 0x1_0000_0000
    ensures res * res <= num < (res + 1) * (res + 1)
  {
    ghost var n0 := num;
    var bit: nat;
    ghost var k: nat;
    bit, k := HighestPowerOfFour(num);
    var num: nat := num;
    res := 0;
    ghost var r: nat := 0;
    RootStart(n0, bit, k);
    while bit != 0
      invariant RootSoFar(n0, num, res, bit, r, k)
      decreases bit
    {
      ghost var (num0, res0, bit0) := (num, res, bit);
      if num >= res + bit {
        num := num - (res + bit);
        res := res + 2 * bit;
      }
      res := res / 2;
      bit := bit / 4;
      r := DigitDone(n0, num0, res0, bit0, r, k, num, res, bit);
      k := k - 1;
    }
    RootDone(n0, num, res, r, k);
  }

  /**
   * The state of the second loop of `isqrt_test` at root scale `Pow2(k)`:
   * `r` is the root so far, `num` what is left of `n0` after taking away
   * its square, `res` the root times the scale and `bit` a quarter of the
   * scale squared; `n0` lies below the square one scale step above `r`.
   */
  ghost predicate RootSoFar(n0: nat, num: nat, res: nat, bit: nat, r: nat, k: nat) {
    k <= 16 && r + Pow2(k) <= 0x1_0000 &&
    (k == 0 ==> bit == 0) && (k >= 1 ==> 4 * bit == Pow2(k) * Pow2(k)) &&
    res == r * Pow2(k) && r * r <= n0 && num == n0 - r * r &&
    n0 < (r + Pow2(k)) * (r + Pow2(k))
  }

  /** Where the first loop leaves off, the second begins with root 0. */
  lemma RootStart(n0: nat, bit: nat, k: nat)
    requires k <= 16 && Pow2(k) <= 0x1_0000
    requires k == 0 ==> bit == 0
    requires k >= 1 ==> 4 * bit == Pow2(k) * Pow2(k)
    requires n0 < Pow2(k) * Pow2(k)
    ensures RootSoFar(n0, n0, 0, bit, 0, k)
  {
  }

  /**
   * One pass of the second loop keeps its state: the sums it compares and
   * adds stay below 2^32, and the root gains the bit the remainder covers.
   */
  lemma DigitDone(n0: nat, num: nat, res: nat, bit: nat, r: nat, k: nat,
                  num': nat, res': nat, bit': nat) returns (r': nat)
    requires RootSoFar(n0, num, res, bit, r, k) && bit != 0
    requires num' == if num >= res + bit then num - (res + bit) else num
    requires res' == (if num >= res + bit then res + 2 * bit else res) / 2
    requires bit' == bit / 4
    ensures k >= 1 && RootSoFar(n0, num', res', bit', r', k - 1)
    ensures res + 2 * bit < 0x1_0000_0000
  {
    QuarterStep(k, bit);
    var h := Pow2(k - 1);
    Double(r, h);
    assert res == 2 * (r * h) && bit == h * h;
    NoWrap(r, h);
    var take := num >= res + bit;
    r' := RootStep(n0, r, h, take);
    assert r' + h <= r + Pow2(k);
    assert res' == r' * h;
    assert num' == n0 - r' * r';
    assert n0 < (r' + h) * (r' + h);
  }

  /** With the scale down to 1 the root is complete. */
  lemma RootDone(n0: nat, num: nat, res: nat, r: nat, k: nat)
    requires RootSoFar(n0, num, res, 0, r, k)
    ensures res * res <= n0 < (res + 1) * (res + 1)
  {
    MulMono(1, Pow2(k));
  }

  /**
   * One digit of the root at scale `2 * h`: the candidate `r + h` is kept
   * exactly when the remainder `n0 - r * r` covers `(r + h)^2 - r^2`, and
   * the new root is again bracketed by its square and the square at the
   * next scale. `res` then halves to the new root times `h`.
   */
  lemma RootStep(n0: nat, r: nat, h: nat, take: bool) returns (r': nat)
    requires h >= 1 && r * r <= n0 < (r + 2 * h) * (r + 2 * h)
    requires take <==> n0 - r * r >= 2 * (r * h) + h * h
    ensures r' == (if take then r + h else r)
    ensures r' * r' <= n0 < (r' + h) * (r' + h)
    ensures take ==> r' * r' == r * r + (2 * (r * h) + h * h)
    ensures (2 * (r * h) + (if take then 2 * (h * h) else 0)) / 2 == r' * h
  {
    assert (r + h) * (r + h) == r * r + 2 * (r * h) + h * h;
    if take {
      r' := r + h;
      assert (r' + h) * (r' + h) == (r + 2 * h) * (r + 2 * h);
      assert r' * h == r * h + h * h;
    } else {
      r' := r;
    }
  }

  /** The sums the loop forms, `res + bit` and `res + 2 * bit`, stay below 2^32. */
  lemma NoWrap(r: nat, h: nat)
    requires h >= 1 && r + 2 * h <= 0x1_0000
    ensures 2 * (r * h) + 2 * (h * h) < 0x1_0000_0000
  {
    MulMono(r + 2 * h, 0x1_0000);
    assert (r + 2 * h) * (r + 2 * h) == r * r + 4 * (r * h) + 4 * (h * h);
  }

  lemma Double(r: nat, h: nat)
    ensures r * (2 * h) == 2 * (r * h)
  {
  }

  lemma MulMono(a: nat, b: nat)
    requires a <= b
    ensures a * a <= b * b
  {
    assert a * a <= a * b <= b * b;
  }

  /** Bit `i` of a 32-bit value. */
  predicate Bit(x: bv32, i: bv32)
    requires i < 32
  {
    (x >> i) & 1 == 1
  }

  /**
   * `create_mask`: all 32 bits for a count of 32 or more, otherwise exactly
   * the low `bits` bits. A count of 31 shifts the signed `int` 1 into the
   * sign bit, which C leaves undefined.
   */
  function CreateMask(bits: bv32): (r: bv32)
    requires bits != 31
    ensures bits >= 32 ==> r == 0xFFFF_FFFF
    ensures forall i: bv32 :: i < 32 ==> (Bit(r, i) <==> i < bits)
  {
    if bits >= 32 then 0xFFFF_FFFF else (1 << bits) - 1
  }

  /** A `float_fields_t`: the three fields of a single-precision value, each a `uint32_t`. */
  datatype FloatFields = FloatFields(sign: bv32, exp: bv32, mant: bv32)

  /** The masks the field code uses. */
  lemma FieldMasks()
    ensures CreateMask(1) == 1 && CreateMask(8) == 0xFF && CreateMask(23) == 0x7F_FFFF
  {
  }

  /**
   * `construct_float_bits`: each field masked to its width and shifted to
   * its place; bits outside a field's width are dropped.
   */
  function ConstructFloatBits(f: FloatFields): (r: bv32)
    ensures r >> 31 == f.sign & 1
    ensures (r >> 23) & 0xFF == f.exp & 0xFF
    ensures r & 0x7F_FFFF == f.mant & 0x7F_FFFF
  {
    FieldMasks();
    ((f.sign & CreateMask(1)) << 31) | ((f.exp & CreateMask(8)) << 23) | (f.mant & CreateMask(23))
  }

  /** `deconstruct_float_bits`: the three fields of a bit pattern, each within its width. */
  function DeconstructFloatBits(x: bv32): (r: FloatFields)
    ensures r.sign < 2 && r.exp < 0x100 && r.mant < 0x80_0000
    ensures r.sign == x >> 31 && r.exp == (x >> 23) & 0xFF && r.mant == x & 0x7F_FFFF
  {
    FieldMasks();
    FloatFields((x >> 31) & CreateMask(1), (x >> 23) & CreateMask(8), x & CreateMask(23))
  }

  /** Packing the unpacked fields gives back every 32-bit pattern. */
  lemma ConstructDeconstruct(x: bv32)
    ensures ConstructFloatBits(DeconstructFloatBits(x)) == x
  {
    FieldMasks();
  }

  /** A field wider than its place loses its high bits. */
  function Masked(f: FloatFields): (r: FloatFields)
    ensures r.sign < 2 && r.exp < 0x100 && r.mant < 0x80_0000
  {
    FloatFields(f.sign & 1, f.exp & 0xFF, f.mant & 0x7F_FFFF)
  }

  /** Unpacking the packed fields gives the fields cut to their widths. */
  lemma DeconstructConstruct(f: FloatFields)
    ensures DeconstructFloatBits(ConstructFloatBits(f)) == Masked(f)
    ensures f.sign < 2 && f.exp < 0x100 && f.mant < 0x80_0000 ==> DeconstructFloatBits(ConstructFloatBits(f)) == f
  {
    FieldMasks();
  }

  /** A mantissa of all ones keeps its low 23 bits. */
  lemma MantissaOverflow()
    ensures DeconstructFloatBits(ConstructFloatBits(FloatFields(0, 0, 0xFFFF_FFFF))).mant == 0x7F_FFFF
  {
    DeconstructConstruct(FloatFields(0, 0, 0xFFFF_FFFF));
  }
}
