/** IEEE 754 binary64 bit patterns, their values and their rounding intervals. */
module Doubles {
  import opened Powers
  import opened Generate

  const HIDDEN_BIT: int := 0x10_0000_0000_0000
  const EXP_BIAS: int := 1075
  const SIGN_BIT: int := 0x8000_0000_0000_0000

  function FracField(bits: u64): nat {
    bits % HIDDEN_BIT
  }

  function ExpField(bits: u64): nat {
    bits / HIDDEN_BIT % 2048
  }

  predicate Negative(bits: u64) {
    SIGN_BIT <= bits
  }

  predicate Finite(bits: u64) {
    ExpField(bits) != 2047
  }

  predicate IsZero(bits: u64) {
    FracField(bits) == 0 && ExpField(bits) == 0
  }

  /** build_fp: the significand and exponent of a finite double, its sign dropped. */
  function BuildFp(bits: u64): Fp {
    if ExpField(bits) != 0 then Fp(FracField(bits) + HIDDEN_BIT, ExpField(bits) - EXP_BIAS)
    else Fp(FracField(bits), 1 - EXP_BIAS)
  }

  ghost function FpValue(frac: int, exp: int): real {
    frac as real * Exp2(exp)
  }

  ghost function Magnitude(bits: u64): real {
    FpValue(BuildFp(bits).frac, BuildFp(bits).exp)
  }

  ghost function Signed(bits: u64): real {
    if Negative(bits) then -Magnitude(bits) else Magnitude(bits)
  }

  /** Halfway to the next larger double. */
  ghost function UpperBoundary(bits: u64): real {
    FpValue(2 * BuildFp(bits).frac + 1, BuildFp(bits).exp - 1)
  }

  /** Halfway to the next smaller double, which is closer when the significand is a power of two. */
  ghost function LowerBoundary(bits: u64): real {
    var fp := BuildFp(bits);
    if fp.frac == HIDDEN_BIT then FpValue(4 * fp.frac - 1, fp.exp - 2) else FpValue(2 * fp.frac - 1, fp.exp - 1)
  }

  // ----- the doubles are ordered as their bit patterns -----

  lemma DoubleFrac(f: int, e: int)
    ensures FpValue(2 * f, e - 1) == FpValue(f, e)
  {
    Exp2Next(e - 1);
    var x, a, b := f as real, Exp2(e - 1), Exp2(e);
    assert b == 2.0 * a;
    assert (2.0 * x) * a == x * (2.0 * a);
  }

  lemma LessFrac(f: int, g: int, e: int)
    requires f < g
    ensures FpValue(f, e) < FpValue(g, e)
  {
    var x, y, a := f as real, g as real, Exp2(e);
    assert 0.0 < (y - x) * a;
  }

  lemma NextBits(bits: u64)
    requires bits < SIGN_BIT - 1 && Finite(bits)
    ensures var a, b := BuildFp(bits), BuildFp(bits + 1);
      b == Fp(a.frac + 1, a.exp) || (a.frac == 2 * HIDDEN_BIT - 1 && b == Fp(HIDDEN_BIT, a.exp + 1))
  {
    var next := bits + 1;
    if FracField(bits) + 1 < HIDDEN_BIT {
      assert next % HIDDEN_BIT == FracField(bits) + 1 && next / HIDDEN_BIT == bits / HIDDEN_BIT;
    } else {
      assert next % HIDDEN_BIT == 0 && next / HIDDEN_BIT == bits / HIDDEN_BIT + 1;
    }
  }

  /** The gap above a double is one unit of its exponent, across binades too. */
  lemma Successor(bits: u64)
    requires bits < SIGN_BIT - 1 && Finite(bits)
    ensures Magnitude(bits + 1) == FpValue(BuildFp(bits).frac + 1, BuildFp(bits).exp)
  {
    NextBits(bits);
    DoubleFrac(HIDDEN_BIT, BuildFp(bits).exp + 1);
  }

  lemma {:induction false} Increasing(a: u64, b: u64)
    requires a < b < SIGN_BIT && Finite(b)
    ensures Finite(a) && Magnitude(a) < Magnitude(b)
    decreases b - a
  {
    FieldOrder(a, b);
    Successor(a);
    LessFrac(BuildFp(a).frac, BuildFp(a).frac + 1, BuildFp(a).exp);
    if a + 1 < b {
      Increasing(a + 1, b);
    }
  }

  lemma FieldOrder(a: u64, b: u64)
    requires a <= b < SIGN_BIT && Finite(b)
    ensures Finite(a)
  {
    assert b / HIDDEN_BIT < 2048;
    assert a / HIDDEN_BIT <= b / HIDDEN_BIT;
  }

  lemma AddFracs(f: int, g: int, e: int)
    ensures FpValue(f, e) + FpValue(g, e) == FpValue(f + g, e)
  {
    var x, y, a := f as real, g as real, Exp2(e);
    assert (x + y) * a == x * a + y * a;
  }

  /** The boundaries are midpoints between neighbours, or closer to the double than that. */
  lemma UpperIsMidpoint(bits: u64)
    requires bits < SIGN_BIT - 1 && Finite(bits)
    ensures 2.0 * UpperBoundary(bits) == Magnitude(bits) + Magnitude(bits + 1)
    ensures Magnitude(bits) < UpperBoundary(bits)
  {
    Successor(bits);
    AboveHalf(BuildFp(bits).frac, BuildFp(bits).exp);
  }

  lemma AboveHalf(f: int, e: int)
    ensures 2.0 * FpValue(2 * f + 1, e - 1) == FpValue(f, e) + FpValue(f + 1, e)
    ensures FpValue(f, e) < FpValue(2 * f + 1, e - 1)
  {
    DoubleFrac(f, e);
    DoubleFrac(f + 1, e);
    AddFracs(2 * f, 2 * (f + 1), e - 1);
    AddFracs(2 * f + 1, 2 * f + 1, e - 1);
    LessFrac(2 * f, 2 * f + 1, e - 1);
  }

  lemma LowerIsMidpoint(bits: u64)
    requires 0 < bits < SIGN_BIT && Finite(bits)
    ensures Finite(bits - 1)
    ensures Magnitude(bits - 1) + Magnitude(bits) <= 2.0 * LowerBoundary(bits)
    ensures LowerBoundary(bits) < Magnitude(bits) <= 2.0 * LowerBoundary(bits)
  {
    FieldOrder(bits - 1, bits);
    NextBits(bits - 1);
    BelowFp(BuildFp(bits).frac, BuildFp(bits).exp, BuildFp(bits - 1).frac, BuildFp(bits - 1).exp);
  }

  /** The lower boundary of f * 2^e, given the double g * 2^d just below it. */
  lemma BelowFp(f: int, e: int, g: int, d: int)
    requires 0 < f && ((g == f - 1 && d == e) || (f == HIDDEN_BIT && g == 2 * f - 1 && d == e - 1))
    ensures var lower := if f == HIDDEN_BIT then FpValue(4 * f - 1, e - 2) else FpValue(2 * f - 1, e - 1);
      FpValue(g, d) + FpValue(f, e) <= 2.0 * lower && lower < FpValue(f, e) <= 2.0 * lower
  {
    BelowHalf(f, e);
    BelowQuarter(f, e);
    DoubleFrac(2 * f - 1, e - 1);
    LessFrac(4 * f - 2, 4 * f - 1, e - 2);
  }

  lemma BelowHalf(f: int, e: int)
    requires 0 < f
    ensures FpValue(f - 1, e) + FpValue(f, e) == 2.0 * FpValue(2 * f - 1, e - 1)
    ensures FpValue(2 * f - 1, e - 1) < FpValue(f, e) <= 2.0 * FpValue(2 * f - 1, e - 1)
  {
    DoubleFrac(f - 1, e);
    DoubleFrac(f, e);
    AddFracs(2 * (f - 1), 2 * f, e - 1);
    AddFracs(2 * f - 1, 2 * f - 1, e - 1);
    LessFrac(2 * f - 1, 2 * f, e - 1);
    if f != 1 {
      LessFrac(2 * f, 4 * f - 2, e - 1);
    }
  }

  lemma BelowQuarter(f: int, e: int)
    requires 0 < f
    ensures FpValue(2 * f - 1, e - 1) + FpValue(f, e) == 2.0 * FpValue(4 * f - 1, e - 2)
    ensures FpValue(4 * f - 1, e - 2) < FpValue(f, e) <= 2.0 * FpValue(4 * f - 1, e - 2)
  {
    DoubleFrac(2 * f - 1, e - 1);
    DoubleFrac(f, e);
    DoubleFrac(2 * f, e - 1);
    AddFracs(4 * f - 2, 4 * f, e - 2);
    AddFracs(4 * f - 1, 4 * f - 1, e - 2);
    LessFrac(4 * f - 1, 4 * f, e - 2);
    LessFrac(4 * f, 8 * f - 2, e - 2);
  }

  // ----- reading a decimal back -----

  ghost function AbsReal(x: real): real {
    if x < 0.0 then -x else x
  }

  /** y is strictly closer to this double than to any other. */
  ghost predicate ReadsAs(y: real, bits: u64) {
    forall other: u64 :: Finite(other) && other != bits ==> AbsReal(y - Signed(bits)) < AbsReal(y - Signed(other))
  }

  lemma CloserThan(x: real, bits: u64, other: u64)
    requires 0 < bits < SIGN_BIT && Finite(bits) && LowerBoundary(bits) < x < UpperBoundary(bits)
    requires Finite(other) && other != bits
    ensures AbsReal(x - Signed(bits)) < AbsReal(x - Signed(other))
  {
    LowerIsMidpoint(bits);
    MagnitudeNonnegative(other);
    if Negative(other) {
      ZeroBelow(bits);
    } else if bits < other {
      UpperIsMidpoint(bits);
      if bits + 1 < other {
        Increasing(bits + 1, other);
      }
    } else if other < bits - 1 {
      Increasing(other, bits - 1);
    }
  }

  lemma MagnitudeNonnegative(bits: u64)
    ensures 0.0 <= Magnitude(bits)
  {
  }

  lemma ZeroBelow(bits: u64)
    requires 0 < bits < SIGN_BIT && Finite(bits)
    ensures 0.0 < Magnitude(bits)
  {
    Increasing(0, bits);
    MagnitudeNonnegative(0);
  }

  /** Anything strictly inside the rounding interval of a positive double reads back as it. */
  lemma InsideReadsBack(x: real, bits: u64)
    requires 0 < bits < SIGN_BIT && Finite(bits) && LowerBoundary(bits) < x < UpperBoundary(bits)
    ensures ReadsAs(x, bits)
  {
    forall other: u64 | Finite(other) && other != bits
      ensures AbsReal(x - Signed(bits)) < AbsReal(x - Signed(other))
    {
      CloserThan(x, bits, other);
    }
  }

  function Flip(bits: u64): u64 {
    if SIGN_BIT <= bits then bits - SIGN_BIT else bits + SIGN_BIT
  }

  lemma FlipNegates(bits: u64)
    ensures Flip(Flip(bits)) == bits && BuildFp(Flip(bits)) == BuildFp(bits)
    ensures Finite(Flip(bits)) == Finite(bits) && Signed(Flip(bits)) == -Signed(bits)
  {
    if SIGN_BIT <= bits {
      SignFields(bits - SIGN_BIT);
    } else {
      SignFields(bits);
    }
  }

  lemma SignFields(bits: u64)
    requires bits < SIGN_BIT
    ensures FracField(bits + SIGN_BIT) == FracField(bits) && ExpField(bits + SIGN_BIT) == ExpField(bits)
  {
    var q := bits / HIDDEN_BIT;
    assert bits + SIGN_BIT == (q + 2048) * HIDDEN_BIT + bits % HIDDEN_BIT;
  }

  lemma NegatedReadsBack(x: real, bits: u64)
    requires ReadsAs(x, Flip(bits))
    ensures ReadsAs(-x, bits)
  {
    FlipNegates(bits);
    forall other: u64 | Finite(other) && other != bits
      ensures AbsReal(-x - Signed(bits)) < AbsReal(-x - Signed(other))
    {
      FlipNegates(other);
      assert Flip(other) != Flip(bits);
    }
  }
}
