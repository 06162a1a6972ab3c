/**
 * Java's conversions from `float` and `double` to the integer types
 * (section 5.1.3 of the Java Language Specification), read off the IEEE 754
 * bit patterns the cache stores: NaN becomes 0, every other value is rounded
 * toward zero, and a value outside the target range becomes the range's
 * nearest end.
 */
module JavaFloats {
  import opened JavaText

  function Pow2(n: nat): (r: nat)
    ensures r >= 1
  {
    if n == 0 then 1 else 2 * Pow2(n - 1)
  }

  lemma {:induction false} Pow2Add(a: nat, b: nat)
    ensures Pow2(a + b) == Pow2(a) * Pow2(b)
    decreases a
  {
    if a > 0 {
      Pow2Add(a - 1, b);
    }
  }

  lemma Pow2Sixteen()
    ensures Pow2(16) == 0x1_0000
  {
    assert Pow2(4) == 16;
    Pow2Add(4, 4);
    Pow2Add(8, 8);
  }

  /** The scale of a `float` fraction. */
  lemma Pow2FloatFraction()
    ensures Pow2(23) == 0x80_0000
  {
    Pow2Sixteen();
    assert Pow2(7) == 0x80;
    Pow2Add(16, 7);
  }

  /** The scales of a `double` fraction. */
  lemma Pow2DoubleFraction()
    ensures Pow2(51) == 0x8_0000_0000_0000 && Pow2(52) == 0x10_0000_0000_0000
  {
    Pow2Sixteen();
    Pow2Add(16, 16);
    Pow2Add(32, 16);
    assert Pow2(3) == 8 && Pow2(4) == 16;
    Pow2Add(48, 3);
    Pow2Add(48, 4);
  }

  /** The value a bit pattern denotes: NaN, an infinity, or ±significand · 2^exponent. */
  datatype Decoded = NaN | Infinity(negative: bool) | Finite(negative: bool, significand: nat, exponent: int)

  /** The fields of an IEEE 754 binary32 pattern (8 exponent bits, bias 127, 23 fraction bits). */
  function DecodeFloat(bits: Bits32): (d: Decoded)
    ensures d.NaN? <==> bits / 0x80_0000 % 0x100 == 0xFF && bits % 0x80_0000 != 0
    ensures d.Infinity? <==> bits % 0x8000_0000 == 0x7F80_0000
  {
    var e := bits / 0x80_0000 % 0x100;
    var m := bits % 0x80_0000;
    var negative := bits >= 0x8000_0000;
    if e == 0xFF then (if m != 0 then NaN else Infinity(negative))
    else if e == 0 then Finite(negative, m, -149)
    else Finite(negative, m + 0x80_0000, e - 150)
  }

  /** The fields of an IEEE 754 binary64 pattern (11 exponent bits, bias 1023, 52 fraction bits). */
  function DecodeDouble(bits: Bits64): (d: Decoded)
    ensures d.NaN? <==> bits / 0x10_0000_0000_0000 % 0x800 == 0x7FF && bits % 0x10_0000_0000_0000 != 0
    ensures d.Infinity? <==> bits % 0x8000_0000_0000_0000 == 0x7FF0_0000_0000_0000
  {
    var e := bits / 0x10_0000_0000_0000 % 0x800;
    var m := bits % 0x10_0000_0000_0000;
    var negative := bits >= 0x8000_0000_0000_0000;
    if e == 0x7FF then (if m != 0 then NaN else Infinity(negative))
    else if e == 0 then Finite(negative, m, -1074)
    else Finite(negative, m + 0x10_0000_0000_0000, e - 1075)
  }

  /** The exact value of a finite pattern. */
  function Value(d: Decoded): real
    requires d.Finite?
  {
    if d.negative then -Magnitude(d) else Magnitude(d)
  }

  /** A finite value rounded toward zero, before any range is imposed. */
  function Truncated(d: Decoded): int
    requires d.Finite?
  {
    if d.negative then -WholeMagnitude(d) else WholeMagnitude(d)
  }

  /** The cast to an integer type with range `lo..hi`. */
  function Saturate(d: Decoded, lo: int, hi: int): (r: int)
    requires lo < 0 < hi
    ensures lo <= r <= hi
  {
    match d
    case NaN => 0
    case Infinity(negative) => if negative then lo else hi
    case Finite(_, _, _) =>
      var t := Truncated(d);
      if t < lo then lo else if t > hi then hi else t
  }

  /** `(int) f`, Kotlin's `Float.toInt()`. */
  function FloatToInt(bits: Bits32): Int32 {
    Saturate(DecodeFloat(bits), -0x8000_0000, 0x7FFF_FFFF)
  }

  /** `(long) f`, Kotlin's `Float.toLong()`. */
  function FloatToLong(bits: Bits32): Int64 {
    Saturate(DecodeFloat(bits), -0x8000_0000_0000_0000, 0x7FFF_FFFF_FFFF_FFFF)
  }

  /** `(int) d`, Kotlin's `Double.toInt()`. */
  function DoubleToInt(bits: Bits64): Int32 {
    Saturate(DecodeDouble(bits), -0x8000_0000, 0x7FFF_FFFF)
  }

  /** `(long) d`, Kotlin's `Double.toLong()`. */
  function DoubleToLong(bits: Bits64): Int64 {
    Saturate(DecodeDouble(bits), -0x8000_0000_0000_0000, 0x7FFF_FFFF_FFFF_FFFF)
  }

  /** The integer quotient of `s` by `p` is the real quotient rounded down. */
  lemma QuotientBounds(s: nat, p: nat)
    requires p >= 1
    ensures (s / p) as real <= s as real / p as real < (s / p) as real + 1.0
  {
    var q, r := s / p, s % p;
    assert s == q * p + r;
    assert s as real == q as real * p as real + r as real;
    assert s as real / p as real == q as real + r as real / p as real;
    assert 0.0 <= r as real / p as real < 1.0;
  }

  /** The magnitude of a finite pattern, exactly. */
  function Magnitude(d: Decoded): real
    requires d.Finite?
  {
    var scale := if d.exponent >= 0 then Pow2(d.exponent) as real else 1.0 / Pow2(-d.exponent) as real;
    d.significand as real * scale
  }

  /** The magnitude rounded down. */
  function WholeMagnitude(d: Decoded): int
    requires d.Finite?
  {
    if d.exponent >= 0 then d.significand * Pow2(d.exponent) else d.significand / Pow2(-d.exponent)
  }

  lemma MagnitudeBounds(d: Decoded)
    requires d.Finite?
    ensures WholeMagnitude(d) as real <= Magnitude(d) < WholeMagnitude(d) as real + 1.0
  {
    var s := d.significand;
    if d.exponent >= 0 {
      var p := Pow2(d.exponent);
      assert (s * p) as real == s as real * p as real;
    } else {
      var p := Pow2(-d.exponent);
      QuotientBounds(s, p);
      assert s as real * (1.0 / p as real) == s as real / p as real;
    }
  }

  /** Rounding toward zero: the result is the integer next to the value on the side of 0. */
  lemma TruncatesTowardZero(d: Decoded)
    requires d.Finite?
    ensures var x, t := Value(d), Truncated(d) as real;
      (x >= 0.0 ==> t <= x < t + 1.0) && (x <= 0.0 ==> t - 1.0 < x <= t)
  {
    MagnitudeBounds(d);
  }

  /** A cast gives 0 exactly for NaN and for the values strictly between -1 and 1. */
  lemma SaturateIsZero(d: Decoded, lo: int, hi: int)
    requires lo < 0 < hi
    ensures Saturate(d, lo, hi) == 0 <==> d.NaN? || (d.Finite? && -1.0 < Value(d) < 1.0)
  {
    if d.Finite? {
      TruncatesTowardZero(d);
    }
  }

  /** A value the target type can hold after rounding toward zero is kept exactly. */
  lemma SaturateInRange(d: Decoded, lo: int, hi: int)
    requires lo < 0 < hi && d.Finite?
    ensures lo <= Truncated(d) <= hi <==> Saturate(d, lo, hi) == Truncated(d)
  {
  }

  /** Values beyond the range, the infinities included, become its nearest end. */
  lemma SaturateOutOfRange(d: Decoded, lo: int, hi: int)
    requires lo < 0 < hi && !d.NaN?
    ensures (d.Infinity? && d.negative) || (d.Finite? && Truncated(d) < lo) ==> Saturate(d, lo, hi) == lo
    ensures (d.Infinity? && !d.negative) || (d.Finite? && Truncated(d) > hi) ==> Saturate(d, lo, hi) == hi
  {
  }

  /** 1.5f and -1.5f cast to 1 and -1. */
  lemma KnownFloatCasts()
    ensures FloatToInt(0x3FC0_0000) == 1 && FloatToInt(0xBFC0_0000) == -1
  {
    Pow2FloatFraction();
    var d := DecodeFloat(0x3FC0_0000);
    assert d == Finite(false, 0xC0_0000, -23);
    assert 0xC0_0000 / 0x80_0000 == 1;
    assert Truncated(d) == 1;
    var e := DecodeFloat(0xBFC0_0000);
    assert e == Finite(true, 0xC0_0000, -23);
    assert Truncated(e) == -1;
  }

  /** NaN casts to 0, and the infinities to the ends of the range. */
  lemma KnownSpecialCasts()
    ensures FloatToInt(0x7FC0_0000) == 0 && DoubleToLong(0x7FF8_0000_0000_0000) == 0
    ensures FloatToInt(0x7F80_0000) == 0x7FFF_FFFF && FloatToLong(0xFF80_0000) == -0x8000_0000_0000_0000
  {
    assert DecodeFloat(0x7FC0_0000) == NaN;
    assert DecodeDouble(0x7FF8_0000_0000_0000) == NaN;
    assert DecodeFloat(0x7F80_0000) == Infinity(false);
    assert DecodeFloat(0xFF80_0000) == Infinity(true);
  }

  /** The double nearest 1.11 casts to 1, and -2.5 to -2. */
  lemma KnownDoubleCasts()
    ensures DoubleToLong(0x3FF1_C28F_5C28_F5C3) == 1 && DoubleToInt(0xC004_0000_0000_0000) == -2
  {
    Pow2DoubleFraction();
    var d := DecodeDouble(0x3FF1_C28F_5C28_F5C3);
    assert d == Finite(false, 0x11_C28F_5C28_F5C3, -52);
    assert 0x11_C28F_5C28_F5C3 / 0x10_0000_0000_0000 == 1;
    assert Truncated(d) == 1;
    var e := DecodeDouble(0xC004_0000_0000_0000);
    assert e == Finite(true, 0x14_0000_0000_0000, -51);
    assert 0x14_0000_0000_0000 / 0x8_0000_0000_0000 == 2;
    assert Truncated(e) == -2;
  }
}
