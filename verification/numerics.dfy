/** Fixed-width host numbers: .NET `int`, `long` and `double`.
    Dafny integers are unbounded, so the widths are written out as subset types,
    and a double is kept as its IEEE-754 bit pattern. */
module Numerics {

  const TWO_63: int := 0x8000_0000_0000_0000
  const TWO_64: int := 0x1_0000_0000_0000_0000

  /** .NET `int` (System.Int32). */
  type Int32 = x: int | -0x8000_0000 <= x < 0x8000_0000

  /** .NET `long` (System.Int64). */
  type Int64 = x: int | -0x8000_0000_0000_0000 <= x < 0x8000_0000_0000_0000

  /** .NET `double`, as its IEEE-754 binary64 bit pattern. */
  datatype Float = Float(bits: bv64)

  /** Two's-complement bit pattern of a 64-bit integer. */
  function ToBits(x: Int64): bv64
  {
    if x < 0 then (x + TWO_64) as bv64 else x as bv64
  }

  /** The 64-bit integer whose two's-complement pattern is `b`. */
  function FromBits(b: bv64): Int64
  {
    var n := b as int;
    if n >= TWO_63 then n - TWO_64 else n
  }

  /** `a & b` on longs. */
  function BitAnd(a: Int64, b: Int64): Int64 { FromBits(ToBits(a) & ToBits(b)) }

  /** `a | b` on longs. */
  function BitOr(a: Int64, b: Int64): Int64 { FromBits(ToBits(a) | ToBits(b)) }

  /** `a ^ b` on longs. */
  function BitXor(a: Int64, b: Int64): Int64 { FromBits(ToBits(a) ^ ToBits(b)) }

  /** `~a` on longs. */
  function BitNot(a: Int64): Int64 { FromBits(!ToBits(a)) }

  const SIGN_BIT: bv64 := 0x8000_0000_0000_0000
  const EXPONENT_BITS: bv64 := 0x7FF0_0000_0000_0000
  const MANTISSA_BITS: bv64 := 0x000F_FFFF_FFFF_FFFF

  predicate IsNaN(f: Float)
  {
    f.bits & EXPONENT_BITS == EXPONENT_BITS && f.bits & MANTISSA_BITS != 0
  }

  /** Positive or negative zero. */
  predicate IsZero(f: Float)
  {
    f.bits & !SIGN_BIT == 0
  }

  /** `double.Equals(object)`: numeric equality, except that NaN equals NaN. */
  predicate DoubleEquals(a: Float, b: Float)
  {
    a.bits == b.bits || (IsZero(a) && IsZero(b)) || (IsNaN(a) && IsNaN(b))
  }

  /** Unary minus on a double flips the sign bit and nothing else. */
  function Negate(f: Float): (r: Float)
    ensures r.bits & !SIGN_BIT == f.bits & !SIGN_BIT
    ensures r.bits & SIGN_BIT != f.bits & SIGN_BIT
  {
    Float(f.bits ^ SIGN_BIT)
  }

  /** `double.Equals` is an equivalence relation on bit patterns. */
  lemma DoubleEqualsIsEquivalence(a: Float, b: Float, c: Float)
    ensures DoubleEquals(a, a)
    ensures DoubleEquals(a, b) ==> DoubleEquals(b, a)
    ensures DoubleEquals(a, b) && DoubleEquals(b, c) ==> DoubleEquals(a, c)
  {
  }
}
