/** find_cachedpow10 (src/fpconv_powers.h:109-133), and the table's accuracy in real numbers. */
module PowerSearch {
  import opened Powers
  import opened Generate
  import opened CachedPowers

  // ----- accuracy -----

  /** |f * a - b| <= a / 2: b is within half of a of f * a. */
  ghost predicate WithinHalf(f: int, a: real, b: real) {
    (2 * f - 1) as real * a <= 2.0 * b <= (2 * f + 1) as real * a
  }

  lemma TimesBoth(x: real, y: real, z: real)
    requires x <= y && 0.0 <= z
    ensures x * z <= y * z
  {
  }

  lemma CancelTwo(x: real, t: real, a: real, b: real)
    requires b * t == 1.0
    ensures (x * t) * (a * b) == x * a
  {
    assert (x * t) * (a * b) == (x * a) * (b * t);
  }

  lemma BoundTiny(x: real, y: real, a: real, b: real, A: real, T: real)
    requires 0.0 < a && 0.0 < b && a * A == 1.0 && b * T == 1.0
    requires x * T <= 2.0 * A <= y * T
    ensures x * a <= 2.0 * b <= y * a
  {
    var ab := a * b;
    assert 0.0 <= ab;
    TimesBoth(x * T, 2.0 * A, ab);
    TimesBoth(2.0 * A, y * T, ab);
    CancelTwo(x, T, a, b);
    CancelTwo(y, T, a, b);
    CancelTwo(2.0, A, b, a);
    assert ab == b * a;
  }

  lemma IntBounds(x: int, t: int, y: int, z: int)
    requires x * t <= y <= z * t
    ensures x as real * t as real <= y as real <= z as real * t as real
  {
    RealProduct(x, t);
    RealProduct(z, t);
  }

  lemma TinyInReals(f: int, twos: int, tens: int, a: real, b: real)
    requires (2 * f - 1) * tens <= 2 * twos <= (2 * f + 1) * tens
    requires 0.0 < a && 0.0 < b && a * twos as real == 1.0 && b * tens as real == 1.0
    ensures WithinHalf(f, a, b)
  {
    IntBounds(2 * f - 1, tens, 2 * twos, 2 * f + 1);
    BoundTiny((2 * f - 1) as real, (2 * f + 1) as real, a, b, twos as real, tens as real);
  }

  lemma HugeInReals(f: int, twos: int, tens: int, a: real, b: real)
    requires (2 * f - 1) * twos <= 2 * tens <= (2 * f + 1) * twos && a == twos as real && b == tens as real
    ensures WithinHalf(f, a, b)
  {
    IntBounds(2 * f - 1, twos, 2 * tens, 2 * f + 1);
  }

  lemma ExactInReals(f: int, twos: int, tens: int, a: real, b: real)
    requires f == tens * twos && 0.0 < a && a * twos as real == 1.0 && b == tens as real
    ensures WithinHalf(f, a, b)
  {
    RealProduct(tens, twos);
    CancelTwo(tens as real, twos as real, 1.0, a);
    assert f as real * a == tens as real;
  }

  lemma TinyPowers(f: int, n: nat, m: nat)
    requires m % 4 == 0 && NearTiny(f, n, m)
    ensures (2 * f - 1) * Pow(10, m) <= 2 * Pow(2, n) <= (2 * f + 1) * Pow(10, m)
  {
    TenIsPow(m);
    TwoIsPow(n);
  }

  lemma HugePowers(f: int, n: nat, m: nat)
    requires m % 4 == 0 && NearHuge(f, n, m)
    ensures (2 * f - 1) * Pow(2, n) <= 2 * Pow(10, m) <= (2 * f + 1) * Pow(2, n)
  {
    TenIsPow(m);
    TwoIsPow(n);
  }

  lemma TinyHalf(f: int, e: int, k: int, n: nat, m: nat)
    requires e + n == 0 && k + m == 0
    requires (2 * f - 1) * Pow(10, m) <= 2 * Pow(2, n) <= (2 * f + 1) * Pow(10, m)
    ensures WithinHalf(f, Exp2(e), Exp10(k))
  {
    Exp2Inverse(e, n, Exp2(e), Pow(2, n) as real);
    Exp10Inverse(k, m, Exp10(k), Pow(10, m) as real);
    TinyInReals(f, Pow(2, n), Pow(10, m), Exp2(e), Exp10(k));
  }

  lemma ExactPowers(f: int, k: nat, n: nat)
    requires k % 4 == 0 && f == Ten(k) * Two(n)
    ensures f == Pow(10, k) * Pow(2, n)
  {
    TenIsPow(k);
    TwoIsPow(n);
    var x, y := Ten(k), Two(n);
    assert x == Pow(10, k) && y == Pow(2, n);
  }

  lemma ExactHalf(f: int, e: int, k: nat, n: nat)
    requires e + n == 0 && f == Pow(10, k) * Pow(2, n)
    ensures WithinHalf(f, Exp2(e), Exp10(k))
  {
    Exp2Inverse(e, n, Exp2(e), Pow(2, n) as real);
    Exp10IsPow(k);
    ExactInReals(f, Pow(2, n), Pow(10, k), Exp2(e), Exp10(k));
  }

  lemma HugeHalf(f: int, e: nat, k: nat)
    requires k % 4 == 0 && NearHuge(f, e, k)
    ensures WithinHalf(f, Exp2(e), Exp10(k))
  {
    HugePowers(f, e, k);
    Exp2IsPow(e);
    Exp10IsPow(k);
    HugeInReals(f, Pow(2, e), Pow(10, k), Exp2(e), Exp10(k));
  }

  lemma AccurateIsHalf(c: Power)
    requires Accurate(c)
    ensures WithinHalf(c.frac, Exp2(c.exp), Exp10(c.k))
  {
    if c.k < 0 {
      TinyPowers(c.frac, -c.exp, -c.k);
      TinyHalf(c.frac, c.exp, c.k, -c.exp, -c.k);
    } else if c.exp <= 0 {
      ExactPowers(c.frac, c.k, -c.exp);
      ExactHalf(c.frac, c.exp, c.k, -c.exp);
    } else {
      HugeHalf(c.frac, c.exp, c.k);
    }
  }

  /** Every table entry is within half a unit in the last place of the power of ten it stands for. */
  lemma HalfUlp(idx: int)
    requires 0 <= idx < N_POWERS
    ensures var c := PowersTen(idx); WithinHalf(c.frac, Exp2(c.exp), Exp10(Decade(idx))) && 0x8000_0000_0000_0000 <= c.frac < TWO64
  {
    TableAccurate(idx);
    AccurateIsHalf(PowersTen(idx));
  }

  // ----- the search -----

  /** The exponent of the product with entry idx. */
  function Current(exp: int, idx: int): int
    requires 0 <= idx < N_POWERS
  {
    exp + PowersTen(idx).exp + 64
  }

  /** From any starting index the search steps straight to a power in the window, without overshooting. */
  method SearchPower(exp: int, start: int) returns (idx: int)
    requires -1137 <= exp <= 960 && 0 <= start < N_POWERS
    ensures 0 <= idx < N_POWERS && EXP_MIN <= Current(exp, idx) <= EXP_MAX
  {
    idx := start;
    ghost var rising := Current(exp, start) < EXP_MIN;
    while true
      invariant 0 <= idx < N_POWERS
      invariant if rising then Current(exp, idx) <= EXP_MAX else EXP_MIN <= Current(exp, idx)
      decreases if rising then EXP_MAX - Current(exp, idx) else Current(exp, idx) - EXP_MIN
    {
      var current := Current(exp, idx);
      if current < EXP_MIN {
        idx := idx + 1;
      } else if current > EXP_MAX {
        idx := idx - 1;
      } else {
        return;
      }
    }
  }

  /** Truncation toward zero, as in a C conversion to int. */
  function Truncate(x: real): int {
    if x < 0.0 then -(-x).Floor else x.Floor
  }

  /** cp is the table's approximation of 10^k. */
  ghost predicate IsCachedPower(cp: Fp, k: int) {
    exists idx :: 0 <= idx < N_POWERS && k == Decade(idx) && cp == Fp(PowersTen(idx).frac, PowersTen(idx).exp)
  }

  /** The starting index of find_cachedpow10 is inside the table. */
  method FindCachedPower(exp: int) returns (cp: Fp, k: int)
    requires -1137 <= exp <= 960
    ensures EXP_MIN <= exp + cp.exp + 64 <= EXP_MAX && FIRST_POWER <= k <= 340
    ensures IsCachedPower(cp, k)
    ensures 0x8000_0000_0000_0000 <= cp.frac && WithinHalf(cp.frac, Exp2(cp.exp), Exp10(k))
  {
    var approx := Truncate(-(exp + N_POWERS) as real * 0.30102999566398114);
    assert -316 <= approx <= 317;
    var idx := (approx - FIRST_POWER) / STEP_POWERS;
    idx := SearchPower(exp, idx);
    HalfUlp(idx);
    cp, k := Fp(PowersTen(idx).frac, PowersTen(idx).exp), Decade(idx);
  }
}
