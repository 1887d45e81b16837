/**
  Grisu2 (src/fpconv_dtoa.c:103-247): the digits printed for a double denote a number strictly
  inside the interval of reals that round to it.
 */
module Grisu {
  import opened Powers
  import opened Digits
  import opened Generate
  import opened CachedPowers
  import opened PowerSearch
  import opened Doubles

  // ----- multiply -----

  /** a * b / 2^64, rounded to nearest, ties up. */
  function RoundedProduct(a: nat, b: nat): nat {
    (a * b + 0x8000_0000_0000_0000) / TWO64
  }

  const LIMB: int := 0x1_0000_0000

  /** Limb products of 64-bit words fit in 64 bits. */
  lemma LimbProduct(x: nat, y: nat)
    requires x < LIMB && y < LIMB
    ensures x * y <= (LIMB - 1) * (LIMB - 1)
  {
    MulMonotone(x, LIMB - 1, y);
    MulMonotone(y, LIMB - 1, LIMB - 1);
  }

  lemma LimbExpansion(ah: nat, al: nat, bh: nat, bl: nat)
    ensures (ah * LIMB + al) * (bh * LIMB + bl) == ah * bh * LIMB * LIMB + (ah * bl + al * bh) * LIMB + al * bl
  {
    var a := ah * LIMB;
    assert (a + al) * (bh * LIMB + bl) == a * (bh * LIMB) + a * bl + al * (bh * LIMB) + al * bl;
    assert a * (bh * LIMB) == ah * bh * LIMB * LIMB;
    assert a * bl == ah * bl * LIMB;
    assert al * (bh * LIMB) == al * bh * LIMB;
  }

  lemma QuotientIs(n: nat, q: nat, r: nat)
    requires n == q * TWO64 + r && r < TWO64
    ensures n / TWO64 == q
  {
  }

  lemma CombineLimbs(hh: nat, hl: nat, lh: nat, ll: nat, ab: nat)
    requires hh <= (LIMB - 1) * (LIMB - 1) && hl <= (LIMB - 1) * (LIMB - 1)
    requires lh <= (LIMB - 1) * (LIMB - 1) && ll <= (LIMB - 1) * (LIMB - 1)
    requires ab == hh * LIMB * LIMB + (hl + lh) * LIMB + ll
    ensures var tmp := hl % LIMB + lh % LIMB + ll / LIMB + 0x8000_0000;
      && tmp < TWO64
      && (ab + 0x8000_0000_0000_0000) / TWO64 == hh + hl / LIMB + lh / LIMB + tmp / LIMB < TWO64
  {
    var tmp := hl % LIMB + lh % LIMB + ll / LIMB + 0x8000_0000;
    QuotientIs(ab + 0x8000_0000_0000_0000, hh + hl / LIMB + lh / LIMB + tmp / LIMB, tmp % LIMB * LIMB + ll % LIMB);
  }

  /** All the facts about the four limb products of a and b. */
  lemma Limbs(a: nat, b: nat, ah: nat, al: nat, bh: nat, bl: nat)
    requires ah < LIMB && al < LIMB && bh < LIMB && bl < LIMB
    requires a == ah * LIMB + al && b == bh * LIMB + bl
    ensures ah * bh < TWO64 && ah * bl < TWO64 && al * bh < TWO64 && al * bl < TWO64
    ensures var tmp := ah * bl % LIMB + al * bh % LIMB + al * bl / LIMB + 0x8000_0000;
      tmp < TWO64 && RoundedProduct(a, b) == ah * bh + ah * bl / LIMB + al * bh / LIMB + tmp / LIMB < TWO64
  {
    LimbProduct(ah, bl);
    LimbProduct(al, bh);
    LimbProduct(al, bl);
    LimbProduct(ah, bh);
    LimbExpansion(ah, al, bh, bl);
    CombineLimbs(ah * bh, ah * bl, al * bh, al * bl, a * b);
  }

  /** The product of two 64-bit fractions from four 32-bit limb products; no step exceeds 64 bits. */
  method Multiply(a: Fp, b: Fp) returns (fp: Fp)
    ensures fp.frac == RoundedProduct(a.frac, b.frac) && fp.exp == a.exp + b.exp + 64
  {
    var ah, al, bh, bl := a.frac / LIMB, a.frac % LIMB, b.frac / LIMB, b.frac % LIMB;
    Limbs(a.frac, b.frac, ah, al, bh, bl);
    var ahBl: u64 := ah * bl;
    var alBh: u64 := al * bh;
    var alBl: u64 := al * bl;
    var ahBh: u64 := ah * bh;
    var tmp: u64 := ahBl % LIMB + alBh % LIMB + alBl / LIMB;
    tmp := tmp + 0x8000_0000;
    fp := Fp(ahBh + ahBl / LIMB + alBh / LIMB + tmp / LIMB, a.exp + b.exp + 64);
  }

  // ----- normalize -----

  /** fp is frac * 2^exp written with its leading bit in position 63. */
  ghost predicate NormalizedForm(fp: Fp, frac: nat, exp: int) {
    SIGN_BIT <= fp.frac && fp.exp <= exp && fp.frac == frac * Pow(2, exp - fp.exp)
  }

  lemma TimesTwo(x: nat, y: nat)
    ensures 2 * (x * y) == x * (2 * y)
  {
  }

  /** A significand shifted left n and then m more places. */
  lemma ShiftMore(frac: nat, shifted: nat, n: nat, m: nat, power: nat)
    requires shifted == frac * Pow(2, n) && power == Pow(2, m)
    ensures shifted * power == frac * Pow(2, n + m)
  {
    PowAdd(2, n, m);
    var p := Pow(2, n);
    assert frac * p * power == frac * (p * power);
  }

  method Normalize(start: Fp) returns (fp: Fp)
    requires 0 < start.frac < 2 * HIDDEN_BIT
    ensures NormalizedForm(fp, start.frac, start.exp)
  {
    var frac, exp := start.frac, start.exp;
    ghost var n: nat, p := 0, 1;
    while frac / HIDDEN_BIT % 2 == 0
      invariant 0 < frac < 2 * HIDDEN_BIT && exp == start.exp - n
      invariant p == Pow(2, n) && frac == start.frac * p
      decreases 2 * HIDDEN_BIT - frac
    {
      TimesTwo(start.frac, p);
      frac, exp := frac * 2, exp - 1;
      n, p := n + 1, 2 * p;
    }
    assert Pow(2, 11) == 2048;
    ShiftMore(start.frac, frac, n, 11, 2048);
    fp := Fp(frac * 2048, exp - 11);
  }

  // ----- boundaries -----

  /** The lower boundary, as an integer number of units 2^exp. */
  ghost function LowerUnits(f: nat, exp: int, unit: int): int
    requires unit <= exp - 2
  {
    if f == HIDDEN_BIT then (4 * f - 1) * Pow(2, exp - 2 - unit) else (2 * f - 1) * Pow(2, exp - 1 - unit)
  }

  lemma LowerFits(f: nat, n: nat)
    requires 0 < f
    ensures 0 < (2 * f - 1) * Pow(2, n + 1) < (2 * f + 1) * Pow(2, n + 1)
    ensures 0 < (4 * f - 1) * Pow(2, n) < (2 * f + 1) * Pow(2, n + 1)
  {
    PowPositive(2, n);
    var p := Pow(2, n);
    assert Pow(2, n + 1) == 2 * p;
    MulStrict(0, 2 * f - 1, 2 * p);
    MulStrict(2 * f - 1, 2 * f + 1, 2 * p);
    MulStrict(0, 4 * f - 1, p);
    MulStrict(4 * f - 1, 4 * f + 2, p);
    assert (2 * f + 1) * (2 * p) == (4 * f + 2) * p;
  }

  lemma UpperNormalized(start: nat, frac: nat, n: nat, exp: int, upper: Fp)
    requires frac == start * Pow(2, n) && 2 * HIDDEN_BIT <= frac < 4 * HIDDEN_BIT && upper == Fp(frac * 1024, exp - n - 10)
    ensures NormalizedForm(upper, start, exp)
  {
    assert Pow(2, 10) == 1024;
    ShiftMore(start, frac, n, 10, 1024);
  }

  method UpperBound(fp: Fp) returns (upper: Fp)
    requires 0 < fp.frac < 2 * HIDDEN_BIT
    ensures NormalizedForm(upper, 2 * fp.frac + 1, fp.exp - 1) && upper.exp <= fp.exp - 11
  {
    var frac, exp := fp.frac * 2 + 1, fp.exp - 1;
    ghost var start: nat, n: nat, p := frac, 0, 1;
    while frac / (2 * HIDDEN_BIT) % 2 == 0
      invariant 0 < frac < 4 * HIDDEN_BIT && exp == fp.exp - 1 - n
      invariant p == Pow(2, n) && frac == start * p
      decreases 4 * HIDDEN_BIT - frac
    {
      TimesTwo(start, p);
      frac, exp := frac * 2, exp - 1;
      n, p := n + 1, 2 * p;
    }
    upper := Fp(frac * 1024, exp - 10);
    UpperNormalized(start, frac, n, fp.exp - 1, upper);
  }

  method GetNormalizedBoundaries(fp: Fp) returns (lower: Fp, upper: Fp)
    requires 0 < fp.frac < 2 * HIDDEN_BIT
    ensures NormalizedForm(upper, 2 * fp.frac + 1, fp.exp - 1)
    ensures lower.exp == upper.exp <= fp.exp - 11
    ensures 0 < lower.frac == LowerUnits(fp.frac, fp.exp, upper.exp) < upper.frac
  {
    upper := UpperBound(fp);
    LowerFits(fp.frac, fp.exp - 2 - upper.exp);
    if fp.frac == HIDDEN_BIT {
      lower := Fp(fp.frac * 4 - 1, fp.exp - 2);
    } else {
      lower := Fp(fp.frac * 2 - 1, fp.exp - 1);
    }
    lower := Fp(lower.frac * Pow(2, lower.exp - upper.exp), upper.exp);
  }

  /** The normalized significand and the normalized upper boundary share their exponent. */
  lemma SameExponent(f: nat, e: int, w: Fp, upper: Fp)
    requires NormalizedForm(w, f, e) && NormalizedForm(upper, 2 * f + 1, e - 1)
    ensures w.exp == upper.exp
  {
    var s, t := e - w.exp, e - 1 - upper.exp;
    if s <= t {
      PowMonotone(2, s, t);
      UpperTooLarge(f, Pow(2, s), Pow(2, t));
    } else if t + 2 <= s {
      PowMonotone(2, t + 2, s);
      assert Pow(2, t + 2) == 4 * Pow(2, t);
      MultipleBelow(f, s);
      PowPositive(2, t);
      UpperTooSmall(f, Pow(2, t), Pow(2, s));
    }
  }

  lemma UpperTooLarge(f: nat, p: nat, q: nat)
    requires p <= q && SIGN_BIT <= f * p
    ensures TWO64 <= (2 * f + 1) * q
  {
    MulMonotone(p, q, 2 * f);
    assert (2 * f + 1) * q == 2 * f * q + q;
    assert 2 * f * p == 2 * (f * p);
  }

  /** A multiple of 2^s below 2^64 leaves room for another 2^s. */
  lemma MultipleBelow(f: nat, s: nat)
    requires 0 < f && f * Pow(2, s) < TWO64
    ensures (f + 1) * Pow(2, s) <= TWO64
  {
    var p := Pow(2, s);
    TwoTo64();
    if 64 <= s {
      PowMonotone(2, 64, s);
      MulMonotone(1, f, p);
    } else {
      PowAdd(2, 64 - s, s);
      var q := Pow(2, 64 - s);
      PowPositive(2, s);
      MulCancelLess(f, q, p);
      MulMonotone(f + 1, q, p);
    }
  }

  lemma UpperTooSmall(f: nat, q: nat, p: nat)
    requires 0 < q && 4 * q <= p && (f + 1) * p <= TWO64
    ensures (2 * f + 1) * q < SIGN_BIT
  {
    MulMonotone(4 * q, p, f + 1);
    assert (f + 1) * (4 * q) == 2 * ((2 * f + 1) * q) + 2 * q;
  }

  // ----- the interval survives the scaling -----

  /** p is x * c / 2^64 to within half a unit. */
  ghost predicate NearProduct(p: int, x: int, c: int) {
    x * c - 0x8000_0000_0000_0000 < p * TWO64 <= x * c + 0x8000_0000_0000_0000
  }

  lemma ProductBounds(x: u64, c: u64)
    ensures NearProduct(RoundedProduct(x, c), x, c)
  {
    var n := x * c + 0x8000_0000_0000_0000;
    assert n == n / TWO64 * TWO64 + n % TWO64;
  }

  /** Distinct boundaries stay apart by at least half their distance, less one. */
  lemma ProductGap(x: u64, y: u64, c: u64, gap: nat)
    requires x + 2 * gap <= y && SIGN_BIT <= c && 0 < gap
    ensures RoundedProduct(x, c) + gap - 1 <= RoundedProduct(y, c)
  {
    ProductBounds(x, c);
    ProductBounds(y, c);
    MulMonotone(x + 2 * gap, y, c);
    MulMonotone(SIGN_BIT, c, 2 * gap);
    assert (x + 2 * gap) * c == x * c + c * (2 * gap);
    GapCancels(x * c, y * c, RoundedProduct(x, c), RoundedProduct(y, c), gap);
  }

  lemma GapCancels(xc: int, yc: int, p: int, q: int, gap: nat)
    requires xc + gap * TWO64 <= yc
    requires p * TWO64 <= xc + 0x8000_0000_0000_0000 && yc - 0x8000_0000_0000_0000 < q * TWO64
    ensures p + gap - 1 <= q
  {
  }

  /** The width of the scaled interval stays large compared with its upper end. */
  lemma ProductRatio(l: u64, u: u64, c: u64)
    requires l < u && SIGN_BIT <= c && u + 6 * ULP_RATIO <= ULP_RATIO * (u - l)
    ensures RoundedProduct(u, c) - 1 <= ULP_RATIO * (RoundedProduct(u, c) - RoundedProduct(l, c) - 2)
  {
    ProductBounds(l, c);
    ProductBounds(u, c);
    MulMonotone(u + 6 * ULP_RATIO, ULP_RATIO * (u - l), c);
    assert (u + 6 * ULP_RATIO) * c == u * c + 6 * ULP_RATIO * c;
    assert ULP_RATIO * (u - l) * c == ULP_RATIO * (u * c - l * c);
    RatioCancels(l * c, u * c, c, RoundedProduct(l, c), RoundedProduct(u, c));
  }

  lemma RatioCancels(lc: int, uc: int, c: int, p: int, q: int)
    requires uc + 6 * ULP_RATIO * c <= ULP_RATIO * (uc - lc) && SIGN_BIT <= c
    requires p * TWO64 <= lc + 0x8000_0000_0000_0000
    requires uc - 0x8000_0000_0000_0000 < q * TWO64 <= uc + 0x8000_0000_0000_0000
    ensures q - 1 <= ULP_RATIO * (q - p - 2)
  {
  }

  /** What get_normalized_boundaries and normalize leave behind, as far as the scaling needs it. */
  ghost predicate Boundaries(l: u64, w: u64, u: u64) {
    l + 512 <= w && w + 1024 <= u && SIGN_BIT <= u && u + 6 * ULP_RATIO <= ULP_RATIO * (u - l)
  }

  lemma BoundariesHold(f: nat, e: int, w: Fp, lower: Fp, upper: Fp)
    requires 0 < f < 2 * HIDDEN_BIT && NormalizedForm(w, f, e) && NormalizedForm(upper, 2 * f + 1, e - 1)
    requires lower.exp == upper.exp <= e - 11 && lower.frac == LowerUnits(f, e, upper.exp)
    ensures Boundaries(lower.frac, w.frac, upper.frac)
  {
    SameExponent(f, e, w, upper);
    var n := e - 2 - upper.exp;
    PowMonotone(2, 9, n);
    assert Pow(2, 9) == 512;
    var p := Pow(2, n);
    assert Pow(2, n + 1) == 2 * p && Pow(2, n + 2) == 4 * p;
    BoundaryUnits(f, p);
  }

  lemma BoundaryUnits(f: nat, p: nat)
    requires 0 < f < 2 * HIDDEN_BIT && 512 <= p && (2 * f + 1) * (2 * p) < TWO64
    ensures (2 * f - 1) * (2 * p) + 4 * p == (2 * f + 1) * (2 * p)
    ensures f * (4 * p) + 2 * p == (2 * f + 1) * (2 * p)
    ensures (4 * f - 1) * p + 3 * p == (2 * f + 1) * (2 * p)
    ensures f == HIDDEN_BIT ==> (2 * f + 1) * (2 * p) + 6 * ULP_RATIO <= ULP_RATIO * (3 * p)
    ensures (2 * f + 1) * (2 * p) + 6 * ULP_RATIO <= ULP_RATIO * (4 * p)
  {
    if f == HIDDEN_BIT {
      assert (2 * HIDDEN_BIT + 1) * (2 * p) == (4 * HIDDEN_BIT + 2) * p;
    }
  }

  // ----- back to real numbers -----

  /** The scaled product is within one unit of the exact one. */
  ghost predicate WithinUnit(p: int, unit: real, exact: real) {
    (p - 1) as real * unit < exact < (p + 1) as real * unit
  }

  /** g, a and t are the units of a significand, of a cached power and of their product. */
  ghost predicate Units(g: real, a: real, t: real, unit: real) {
    0.0 < g && 0.0 < a && 0.0 < t && t == g * a && unit == t * TWO64 as real
  }

  lemma UnitsOf(ex: int, ce: int, g: real, a: real, t: real, unit: real)
    requires g == Exp2(ex) && a == Exp2(ce) && t == Exp2(ex + ce) && unit == Exp2(ex + ce + 64)
    ensures Units(g, a, t, unit)
  {
    Exp2Sum(ex, ce, g, a, t);
    Exp2IsPow(64);
    TwoTo64();
    Exp2Sum(ex + ce, 64, t, TWO64 as real, unit);
  }

  /** Scaling v = x * 2^ex by the cached power c * 2^ce of 10^k. */
  lemma ScaledError(x: u64, ex: int, c: u64, ce: int, k: int, p: nat, v: real, b: real, exact: real)
    requires NearProduct(p, x, c) && WithinHalf(c, Exp2(ce), b) && b == Exp10(k)
    requires v == FpValue(x, ex) && exact == v * b
    ensures WithinUnit(p, Exp2(ex + ce + 64), exact)
  {
    UnitsOf(ex, ce, Exp2(ex), Exp2(ce), Exp2(ex + ce), Exp2(ex + ce + 64));
    ErrorBound(x, c, p, Exp2(ex), Exp2(ce), Exp2(ex + ce), Exp2(ex + ce + 64), b, v, exact);
  }

  lemma ErrorBound(x: u64, c: u64, p: nat, g: real, a: real, t: real, unit: real, b: real, v: real, exact: real)
    requires NearProduct(p, x, c) && WithinHalf(c, a, b) && Units(g, a, t, unit)
    requires v == x as real * g && exact == v * b
    ensures WithinUnit(p, unit, exact)
  {
    var xr, cr, pr := x as real, c as real, p as real;
    RealProduct(x, c);
    var xc := (x * c) as real;
    assert xc == xr * cr;
    assert pr * TWO64 as real == (p * TWO64) as real;
    ExactBounds(xr, cr, g, a, t, b, v, exact, xc);
    var m := pr * TWO64 as real;
    assert xc - 0x8000_0000_0000_0000 as real < m <= xc + 0x8000_0000_0000_0000 as real;
    UnitBounds(pr, xr, xc, t, unit, exact);
  }

  /** The exact product lies within x / 2 of x * c, counted in units t. */
  lemma ExactBounds(x: real, c: real, g: real, a: real, t: real, b: real, v: real, exact: real, xc: real)
    requires 0.0 <= x && 0.0 < g && t == g * a && v == x * g && exact == v * b && xc == x * c
    requires (2.0 * c - 1.0) * a <= 2.0 * b <= (2.0 * c + 1.0) * a
    ensures (2.0 * xc - x) * t <= 2.0 * exact <= (2.0 * xc + x) * t
  {
    TimesBoth((2.0 * c - 1.0) * a, 2.0 * b, v);
    TimesBoth(2.0 * b, (2.0 * c + 1.0) * a, v);
    ScaleOut(2.0 * c - 1.0, a, x, g, v, t);
    ScaleOut(2.0 * c + 1.0, a, x, g, v, t);
    assert 2.0 * b * v == 2.0 * exact;
    assert (2.0 * c - 1.0) * x == 2.0 * xc - x;
    assert (2.0 * c + 1.0) * x == 2.0 * xc + x;
  }

  lemma ScaleOut(y: real, a: real, x: real, g: real, v: real, t: real)
    requires v == x * g && t == g * a
    ensures y * a * v == y * x * t
  {
    assert y * a * (x * g) == y * x * (g * a);
  }

  lemma UnitBounds(p: real, x: real, xc: real, t: real, unit: real, exact: real)
    requires 0.0 <= x < TWO64 as real && 0.0 < t && unit == t * TWO64 as real
    requires xc - 0x8000_0000_0000_0000 as real < p * TWO64 as real <= xc + 0x8000_0000_0000_0000 as real
    requires (2.0 * xc - x) * t <= 2.0 * exact <= (2.0 * xc + x) * t
    ensures (p - 1.0) * unit < exact < (p + 1.0) * unit
  {
    BelowExact(p - 1.0, 2.0 * xc - x, t, unit, exact);
    AboveExact(p + 1.0, 2.0 * xc + x, t, unit, exact);
  }

  lemma BelowExact(q: real, low: real, t: real, unit: real, exact: real)
    requires 2.0 * q * TWO64 as real < low && 0.0 < t && unit == t * TWO64 as real && low * t <= 2.0 * exact
    ensures q * unit < exact
  {
    LessTimes(2.0 * q * TWO64 as real, low, t);
    TwiceUnits(q, t, unit);
  }

  lemma AboveExact(q: real, high: real, t: real, unit: real, exact: real)
    requires high < 2.0 * q * TWO64 as real && 0.0 < t && unit == t * TWO64 as real && 2.0 * exact <= high * t
    ensures exact < q * unit
  {
    LessTimes(high, 2.0 * q * TWO64 as real, t);
    TwiceUnits(q, t, unit);
  }

  lemma TwiceUnits(q: real, t: real, unit: real)
    requires unit == t * TWO64 as real
    ensures 2.0 * q * TWO64 as real * t == 2.0 * (q * unit)
  {
    assert q * unit == q * t * TWO64 as real;
  }

  lemma LessTimes(x: real, y: real, z: real)
    requires x < y && 0.0 < z
    ensures x * z < y * z
  {
  }

  /** Shifting a significand does not change its value. */
  lemma ShiftedValue(frac: int, e: int, n: nat, shifted: int, unit: int, value: real)
    requires shifted == frac * Pow(2, n) && unit + n == e && value == FpValue(frac, e)
    ensures FpValue(shifted, unit) == value
  {
    Exp2IsPow(n);
    Exp2Sum(unit, n, Exp2(unit), Pow(2, n) as real, Exp2(e));
    ShiftedProduct(frac, Pow(2, n), shifted, Exp2(unit), Exp2(e), value, FpValue(shifted, unit));
  }

  lemma ShiftedProduct(f: int, p: int, s: int, u: real, v: real, value: real, shifted: real)
    requires s == f * p && v == u * p as real && value == f as real * v && shifted == s as real * u
    ensures shifted == value
  {
    RealProduct(f, p);
    Regrouped(f as real, p as real, u, s as real, v);
  }

  lemma Regrouped(f: real, p: real, u: real, s: real, v: real)
    requires s == f * p && v == u * p
    ensures s * u == f * v
  {
    assert f * p * u == f * (u * p);
  }

  lemma UpperValue(bits: u64, fp: Fp, upper: Fp)
    requires fp == BuildFp(bits) && NormalizedForm(upper, 2 * fp.frac + 1, fp.exp - 1)
    ensures FpValue(upper.frac, upper.exp) == UpperBoundary(bits)
  {
    ShiftedValue(2 * fp.frac + 1, fp.exp - 1, fp.exp - 1 - upper.exp, upper.frac, upper.exp, UpperBoundary(bits));
  }

  lemma MidValue(bits: u64, fp: Fp, w: Fp)
    requires fp == BuildFp(bits) && NormalizedForm(w, fp.frac, fp.exp)
    ensures FpValue(w.frac, w.exp) == Magnitude(bits)
  {
    ShiftedValue(fp.frac, fp.exp, fp.exp - w.exp, w.frac, w.exp, Magnitude(bits));
  }

  lemma LowerValue(bits: u64, fp: Fp, lower: Fp, u: int)
    requires fp == BuildFp(bits) && 0 < fp.frac
    requires lower.exp == u <= fp.exp - 11 && lower.frac == LowerUnits(fp.frac, fp.exp, u)
    ensures FpValue(lower.frac, lower.exp) == LowerBoundary(bits)
  {
    var f, e := fp.frac, fp.exp;
    if f == HIDDEN_BIT {
      ShiftedValue(4 * f - 1, e - 2, e - 2 - u, lower.frac, u, LowerBoundary(bits));
    } else {
      ShiftedValue(2 * f - 1, e - 1, e - 1 - u, lower.frac, u, LowerBoundary(bits));
    }
  }

  // ----- from grid units to the printed decimal -----

  /** one * 10^kappa over the denominator of 10^kappa, in units 1 / one. */
  lemma GridInReals(one: nat, kappa: int, g: nat, s: nat, u: real, t: real)
    requires g == Grid(one, kappa) && s == Scale(kappa) && one as real * u == 1.0 && t == Exp10(kappa)
    ensures g as real * u == s as real * t
  {
    if kappa < 0 {
      SameProduct(one, g, u);
      Exp10Inverse(kappa, -kappa, t, s as real);
    } else {
      Exp10IsPow(kappa);
      GridUp(one, Pow(10, kappa), g, s, u, t);
    }
  }

  lemma SameProduct(x: nat, y: nat, u: real)
    requires x == y && x as real * u == 1.0
    ensures y as real * u == 1.0
  {
  }

  lemma GridUp(one: nat, q: nat, g: nat, s: nat, u: real, t: real)
    requires g == one * q && s == 1 && one as real * u == 1.0 && t == q as real
    ensures g as real * u == s as real * t
  {
    RealProduct(one, q);
    assert one as real * q as real * u == q as real * (one as real * u);
  }

  lemma LowerInReals(lo: int, d: int, s: nat, g: nat, u: real, t: real)
    requires lo * s <= d * g && 0 < s && 0.0 < u && g as real * u == s as real * t
    ensures lo as real * u <= d as real * t
  {
    RealProduct(lo, s);
    RealProduct(d, g);
    CompareScaled(lo as real, d as real, s as real, g as real, u, t);
  }

  lemma CompareScaled(lo: real, d: real, s: real, g: real, u: real, t: real)
    requires lo * s <= d * g && 0.0 < s && 0.0 < u && g * u == s * t
    ensures lo * u <= d * t
  {
    TimesBoth(lo * s, d * g, u);
    assert lo * s * u == s * (lo * u);
    assert d * g * u == d * (g * u);
    assert d * (s * t) == s * (d * t);
    DivideBoth(lo * u, d * t, s);
  }

  lemma DivideBoth(x: real, y: real, s: real)
    requires s * x <= s * y && 0.0 < s
    ensures x <= y
  {
    if y < x {
      LessTimes(y, x, s);
    }
  }

  lemma UpperInReals(hi: int, d: int, s: nat, g: nat, u: real, t: real)
    requires d * g <= hi * s && 0 < s && 0.0 < u && g as real * u == s as real * t
    ensures d as real * t <= hi as real * u
  {
    assert (-hi) * s == -(hi * s) && (-d) * g == -(d * g);
    LowerInReals(-hi, -d, s, g, u, t);
    Negated(hi as real, u, d as real, t);
  }

  lemma Negated(x: real, u: real, y: real, t: real)
    requires (-x) * u <= (-y) * t
    ensures y * t <= x * u
  {
  }

  lemma WithinInReals(d: int, lower: nat, upper: nat, g: nat, s: nat, u: real, t: real)
    requires lower * s <= d * g <= upper * s && 0 < s && 0.0 < u && g as real * u == s as real * t
    ensures lower as real * u <= d as real * t && d as real * t <= upper as real * u
  {
    LowerInReals(lower, d, s, g, u, t);
    UpperInReals(upper, d, s, g, u, t);
  }

  ghost predicate Between(low: real, value: real, high: real) {
    low < value < high
  }

  ghost function DecimalValue(d: nat, K: int): real {
    d as real * Exp10(K)
  }

  lemma Unscaled(low: real, high: real, d: real, b: real, t: real, v: real)
    requires low * b < d * t < high * b && 0.0 < b && t == v * b
    ensures low < d * v < high
  {
    assert d * (v * b) == d * v * b;
    CancelRight(low, d * v, b);
    CancelRight(d * v, high, b);
  }

  lemma CancelRight(x: real, y: real, b: real)
    requires x * b < y * b && 0.0 < b
    ensures x < y
  {
    if y <= x {
      TimesBoth(y, x, b);
    }
  }

  /** Digits generated between the narrowed products lie strictly between the exact boundaries. */
  lemma NarrowingIsSafe(d: int, g: nat, s: nat, pl: nat, pu: nat, unit: real, t: real, low: real, high: real, value: real)
    requires 0 < pu && (pl + 1) * s <= d * g <= (pu - 1) * s && 0 < s
    requires g as real * unit == s as real * t && 0.0 < unit && value == d as real * t
    requires WithinUnit(pl, unit, low) && WithinUnit(pu, unit, high)
    ensures Between(low, value, high)
  {
    WithinInReals(d, pl + 1, pu - 1, g, s, unit, t);
  }

  lemma ScaledInside(d: nat, kappa: int, one: nat, e: int, pl: nat, pu: nat, low: real, high: real)
    requires 0 < pu && Within(d, kappa, one, pl + 1, pu - 1) && e <= 0 && one == Pow(2, -e)
    requires WithinUnit(pl, Exp2(e), low) && WithinUnit(pu, Exp2(e), high)
    ensures Between(low, DecimalValue(d, kappa), high)
  {
    var unit, t, g, m := Exp2(e), Exp10(kappa), Grid(one, kappa), Scale(kappa);
    Exp2Inverse(e, -e, unit, one as real);
    GridInReals(one, kappa, g, m, unit, t);
    ScalePositive(kappa);
    WithinParts(d, kappa, one, pl + 1, pu - 1, g, m);
    NarrowingIsSafe(d, g, m, pl, pu, unit, t, low, high, DecimalValue(d, kappa));
  }

  lemma WithinParts(d: int, kappa: int, one: nat, lower: nat, upper: nat, g: nat, m: nat)
    requires Within(d, kappa, one, lower, upper) && g == Grid(one, kappa) && m == Scale(kappa)
    ensures lower * m <= d * g <= upper * m
  {
  }

  /** b scales both boundaries, and v times b is the power of ten the digits were generated with. */
  lemma UndoScaling(d: nat, b: real, t: real, v: real, low: real, high: real, lowB: real, highB: real, scaled: real, value: real)
    requires Between(lowB, scaled, highB) && 0.0 < b && t == v * b && lowB == low * b && highB == high * b
    requires scaled == d as real * t && value == d as real * v
    ensures Between(low, value, high)
  {
    Unscaled(low, high, d as real, b, t, v);
  }

  lemma RemoveScale(d: nat, kappa: int, k: int, b: real, low: real, high: real, lowB: real, highB: real)
    requires b == Exp10(k) && lowB == low * b && highB == high * b && Between(lowB, DecimalValue(d, kappa), highB)
    ensures Between(low, DecimalValue(d, kappa - k), high)
  {
    Exp10Sum(kappa - k, k, Exp10(kappa - k), b, Exp10(kappa));
    UndoScaling(d, b, Exp10(kappa), Exp10(kappa - k), low, high, lowB, highB, DecimalValue(d, kappa), DecimalValue(d, kappa - k));
  }

  // ----- grisu2 -----

  /** The three scaled fractions satisfy what the digit generator asks for. */
  lemma ScaledBoundaries(l: u64, w: u64, u: u64, c: u64)
    requires Boundaries(l, w, u) && SIGN_BIT <= c
    ensures var pl, pw, pu := RoundedProduct(l, c), RoundedProduct(w, c), RoundedProduct(u, c);
      && pl + 1 <= pw <= pu - 1 && pl + 1 < pu - 1
      && 0x1000_0000_0000_0000 <= pu - 1 <= ULP_RATIO * (pu - 1 - (pl + 1))
  {
    ProductGap(l, w, c, 256);
    ProductGap(w, u, c, 512);
    ProductRatio(l, u, c);
    ProductBounds(u, c);
    MulMonotone(SIGN_BIT, u, c);
  }

  lemma UpperExponent(fp: Fp, upper: Fp)
    requires 0 < fp.frac && -1074 <= fp.exp <= 971
    requires NormalizedForm(upper, 2 * fp.frac + 1, fp.exp - 1) && upper.exp <= fp.exp - 11
    ensures -1137 <= upper.exp <= 960
  {
    var n := fp.exp - 1 - upper.exp;
    if 63 <= n {
      PowMonotone(2, 63, n);
      TwoTo63();
      MulMonotone(3, 2 * fp.frac + 1, Pow(2, n));
    }
  }

  lemma TwoTo63()
    ensures Pow(2, 63) == SIGN_BIT
  {
    TwoTo64();
    assert Pow(2, 64) == 2 * Pow(2, 63);
  }

  /** The value the digits and exponent denote. */
  ghost predicate PrintsInside(text: seq<char>, K: int, bits: u64) {
    IsNumeral(text) && |text| <= 17 && Between(LowerBoundary(bits), DecimalValue(Value(text), K), UpperBoundary(bits))
  }

  /** A double between its exact boundaries, and the same scaled by power, a power of ten. */
  datatype Ends = Ends(low: real, mid: real, high: real, power: real, scaledLow: real, scaledMid: real, scaledHigh: real)

  ghost predicate Scaled(ends: Ends) {
    ends.scaledLow == ends.low * ends.power && ends.scaledMid == ends.mid * ends.power
    && ends.scaledHigh == ends.high * ends.power
  }

  /** pl, pw and pu approximate the scaled boundaries and double to within one unit. */
  ghost predicate Approximated(ends: Ends, unit: real, pl: nat, pw: nat, pu: nat) {
    WithinUnit(pl, unit, ends.scaledLow) && WithinUnit(pw, unit, ends.scaledMid) && WithinUnit(pu, unit, ends.scaledHigh)
  }

  ghost predicate EndsOf(ends: Ends, bits: u64, k: int) {
    ends.low == LowerBoundary(bits) && ends.mid == Magnitude(bits) && ends.high == UpperBoundary(bits)
    && ends.power == Exp10(k)
  }

  lemma GeneratedScaled(text: seq<char>, kappa: int, one: nat, e: int, pl: nat, pw: nat, pu: nat, ends: Ends)
    requires 0 < pu && e <= 0 && one == Pow(2, -e) && Generated(text, kappa, one, pl + 1, pw, pu - 1)
    requires Approximated(ends, Exp2(e), pl, pw, pu)
    ensures Between(ends.scaledLow, DecimalValue(Value(text), kappa), ends.scaledHigh)
  {
    ScaledInside(Value(text), kappa, one, e, pl, pu, ends.scaledLow, ends.scaledHigh);
  }

  lemma UnscaledInside(d: nat, kappa: int, k: int, ends: Ends)
    requires Scaled(ends) && ends.power == Exp10(k) && Between(ends.scaledLow, DecimalValue(d, kappa), ends.scaledHigh)
    ensures Between(ends.low, DecimalValue(d, kappa - k), ends.high)
  {
    var low, high, b, lowB, highB := ends.low, ends.high, ends.power, ends.scaledLow, ends.scaledHigh;
    RemoveScale(d, kappa, k, b, low, high, lowB, highB);
  }

  lemma Grisu2Correct(bits: u64, text: seq<char>, kappa: int, k: int, one: nat, e: int, pl: nat, pw: nat, pu: nat, ends: Ends)
    requires 0 < pu && e <= 0 && one == Pow(2, -e) && Generated(text, kappa, one, pl + 1, pw, pu - 1)
    requires Scaled(ends) && Approximated(ends, Exp2(e), pl, pw, pu) && EndsOf(ends, bits, k)
    ensures PrintsInside(text, kappa - k, bits)
  {
    GeneratedScaled(text, kappa, one, e, pl, pw, pu, ends);
    UnscaledInside(Value(text), kappa, k, ends);
  }

  /** The three fractions before scaling. */
  ghost predicate Framed(bits: u64, w: Fp, lower: Fp, upper: Fp) {
    var fp := BuildFp(bits);
    && 0 < fp.frac < 2 * HIDDEN_BIT && NormalizedForm(upper, 2 * fp.frac + 1, fp.exp - 1)
    && NormalizedForm(w, fp.frac, fp.exp)
    && lower.exp == upper.exp <= fp.exp - 11 && lower.frac == LowerUnits(fp.frac, fp.exp, upper.exp)
  }

  lemma FramedValues(bits: u64, w: Fp, lower: Fp, upper: Fp)
    requires Framed(bits, w, lower, upper)
    ensures FpValue(lower.frac, lower.exp) == LowerBoundary(bits)
    ensures FpValue(w.frac, w.exp) == Magnitude(bits)
    ensures FpValue(upper.frac, upper.exp) == UpperBoundary(bits)
  {
    LowerValue(bits, BuildFp(bits), lower, upper.exp);
    MidValue(bits, BuildFp(bits), w);
    UpperValue(bits, BuildFp(bits), upper);
  }

  lemma ApproximatedHolds(lower: Fp, w: Fp, upper: Fp, c: u64, ce: int, k: int, pl: nat, pw: nat, pu: nat, ends: Ends)
    requires lower.exp == w.exp == upper.exp && WithinHalf(c, Exp2(ce), Exp10(k)) && Scaled(ends) && ends.power == Exp10(k)
    requires FpValue(lower.frac, lower.exp) == ends.low && FpValue(upper.frac, upper.exp) == ends.high
    requires FpValue(w.frac, w.exp) == ends.mid
    requires NearProduct(pl, lower.frac, c) && NearProduct(pw, w.frac, c) && NearProduct(pu, upper.frac, c)
    ensures Approximated(ends, Exp2(upper.exp + ce + 64), pl, pw, pu)
  {
    ScaledError(lower.frac, lower.exp, c, ce, k, pl, ends.low, ends.power, ends.scaledLow);
    ScaledError(w.frac, w.exp, c, ce, k, pw, ends.mid, ends.power, ends.scaledMid);
    ScaledError(upper.frac, upper.exp, c, ce, k, pu, ends.high, ends.power, ends.scaledHigh);
  }

  ghost function ScaleEnds(low: real, mid: real, high: real, power: real): (ends: Ends)
    ensures Scaled(ends) && ends.low == low && ends.mid == mid && ends.high == high && ends.power == power
  {
    Ends(low, mid, high, power, low * power, mid * power, high * power)
  }

  ghost function ExactEnds(bits: u64, k: int): (ends: Ends)
    ensures Scaled(ends) && EndsOf(ends, bits, k)
  {
    ScaleEnds(LowerBoundary(bits), Magnitude(bits), UpperBoundary(bits), Exp10(k))
  }

  /** The significand and its two boundaries, brought to a common exponent. */
  method FrameDouble(bits: u64) returns (w: Fp, lower: Fp, upper: Fp)
    requires Finite(bits) && !IsZero(bits)
    ensures Framed(bits, w, lower, upper)
    ensures w.exp == upper.exp && -1137 <= upper.exp <= 960 && Boundaries(lower.frac, w.frac, upper.frac)
  {
    var fp := BuildFp(bits);
    lower, upper := GetNormalizedBoundaries(fp);
    w := Normalize(fp);
    SameExponent(fp.frac, fp.exp, w, upper);
    BoundariesHold(fp.frac, fp.exp, w, lower, upper);
    UpperExponent(fp, upper);
  }

  /** What the generator is given: lower, w and upper before the two bounds are narrowed. */
  ghost predicate Ready(bits: u64, w: Fp, lower: Fp, upper: Fp, k: int, ends: Ends) {
    && Scaled(ends) && EndsOf(ends, bits, k) && Approximated(ends, Exp2(upper.exp), lower.frac, w.frac, upper.frac)
    && w.exp == lower.exp == upper.exp && -60 <= upper.exp <= -32 && FIRST_POWER <= k <= 340
    && lower.frac + 1 <= w.frac <= upper.frac - 1 && lower.frac + 1 < upper.frac - 1
    && 0x1000_0000_0000_0000 <= upper.frac - 1 <= ULP_RATIO * (upper.frac - 1 - (lower.frac + 1))
  }

  /** The bounds are the boundaries times a table entry. */
  ghost predicate MadeFrom(f: nat, e: int, lower0: Fp, upper0: Fp, cp: Fp, k: int, lower: Fp, upper: Fp) {
    && NormalizedForm(upper0, 2 * f + 1, e - 1) && upper0.exp <= e - 11 && lower0.frac == LowerUnits(f, e, upper0.exp)
    && IsCachedPower(cp, k) && EXP_MIN <= upper.exp <= EXP_MAX && upper.exp == upper0.exp + cp.exp + 64
    && lower.frac == RoundedProduct(lower0.frac, cp.frac) && upper.frac == RoundedProduct(upper0.frac, cp.frac)
  }

  ghost predicate ScaledFrom(f: nat, e: int, lower: Fp, upper: Fp, k: int) {
    exists lower0: Fp, upper0: Fp, cp: Fp :: MadeFrom(f, e, lower0, upper0, cp, k, lower, upper)
  }

  method ScaleDouble(bits: u64) returns (w: Fp, lower: Fp, upper: Fp, k: int, ghost ends: Ends)
    requires Finite(bits) && !IsZero(bits)
    ensures Ready(bits, w, lower, upper, k, ends) && ends == ExactEnds(bits, k)
    ensures ScaledFrom(BuildFp(bits).frac, BuildFp(bits).exp, lower, upper, k)
  {
    var w0, lower0, upper0 := FrameDouble(bits);
    var cp;
    cp, k := FindCachedPower(upper0.exp);
    w := Multiply(w0, cp);
    upper := Multiply(upper0, cp);
    lower := Multiply(lower0, cp);
    ends := ExactEnds(bits, k);
    ReadyHolds(bits, w0, lower0, upper0, cp, k, w, lower, upper, ends);
    assert MadeFrom(BuildFp(bits).frac, BuildFp(bits).exp, lower0, upper0, cp, k, lower, upper);
  }

  lemma ReadyHolds(bits: u64, w0: Fp, lower0: Fp, upper0: Fp, cp: Fp, k: int, w: Fp, lower: Fp, upper: Fp, ends: Ends)
    requires Framed(bits, w0, lower0, upper0) && w0.exp == upper0.exp && Boundaries(lower0.frac, w0.frac, upper0.frac)
    requires SIGN_BIT <= cp.frac && WithinHalf(cp.frac, Exp2(cp.exp), Exp10(k))
    requires EXP_MIN <= upper0.exp + cp.exp + 64 <= EXP_MAX && FIRST_POWER <= k <= 340
    requires Scaled(ends) && EndsOf(ends, bits, k)
    requires w.frac == RoundedProduct(w0.frac, cp.frac) && w.exp == w0.exp + cp.exp + 64
    requires lower.frac == RoundedProduct(lower0.frac, cp.frac) && lower.exp == lower0.exp + cp.exp + 64
    requires upper.frac == RoundedProduct(upper0.frac, cp.frac) && upper.exp == upper0.exp + cp.exp + 64
    ensures Ready(bits, w, lower, upper, k, ends)
  {
    ScaledBoundaries(lower0.frac, w0.frac, upper0.frac, cp.frac);
    ProductBounds(lower0.frac, cp.frac);
    ProductBounds(w0.frac, cp.frac);
    ProductBounds(upper0.frac, cp.frac);
    FramedValues(bits, w0, lower0, upper0);
    ApproximatedHolds(lower0, w0, upper0, cp.frac, cp.exp, k, lower.frac, w.frac, upper.frac, ends);
  }

  /**
    The digits lie inside the rounding interval; and among all numbers of as many decimal places
    between lower + 1 and upper - 1 none is closer to w, and none has one place less, where lower, w and
    upper are the double and its boundaries, scaled by 10^k, each to within one unit.
   */
  ghost predicate Chosen(text: seq<char>, K: int, bits: u64) {
    && PrintsInside(text, K, bits) && -360 <= K <= 360
    && exists w: Fp, lower: Fp, upper: Fp, k: int ::
        ChosenFrom(text, K, bits, w, lower, upper, k) && ScaledFrom(BuildFp(bits).frac, BuildFp(bits).exp, lower, upper, k)
  }

  ghost predicate ChosenFrom(text: seq<char>, K: int, bits: u64, w: Fp, lower: Fp, upper: Fp, k: int) {
    Ready(bits, w, lower, upper, k, ExactEnds(bits, k))
    && Generated(text, K + k, Pow(2, -upper.exp), lower.frac + 1, w.frac, upper.frac - 1)
  }

  /** The digits and exponent of a finite, non-zero double, its sign ignored. */
  method Grisu2(bits: u64, digits: array<char>) returns (n: nat, K: int)
    requires Finite(bits) && !IsZero(bits) && 18 <= digits.Length
    modifies digits
    ensures n <= 17 && Chosen(digits[..n], K, bits)
  {
    var w, lower, upper, k;
    ghost var ends;
    w, lower, upper, k, ends := ScaleDouble(bits);
    n, K := NarrowAndGenerate(bits, w, lower, upper, k, digits);
    ChosenHolds(digits[..n], K, bits, w, lower, upper, k);
  }

  method NarrowAndGenerate(bits: u64, w: Fp, lower: Fp, upper: Fp, k: int, digits: array<char>) returns (n: nat, K: int)
    requires Ready(bits, w, lower, upper, k, ExactEnds(bits, k)) && 18 <= digits.Length
    modifies digits
    ensures n <= 17 && PrintsInside(digits[..n], K, bits) && -360 <= K <= 360
    ensures ChosenFrom(digits[..n], K, bits, w, lower, upper, k)
  {
    OneBounds(-upper.exp);
    n, K := GenerateDigits(w, Fp(upper.frac - 1, upper.exp), Fp(lower.frac + 1, lower.exp), digits, -k);
    ghost var one, pl, pw, pu := Pow(2, -upper.exp), lower.frac, w.frac, upper.frac;
    Grisu2Correct(bits, digits[..n], K + k, k, one, upper.exp, pl, pw, pu, ExactEnds(bits, k));
  }

  lemma ChosenHolds(text: seq<char>, K: int, bits: u64, w: Fp, lower: Fp, upper: Fp, k: int)
    requires PrintsInside(text, K, bits) && -360 <= K <= 360
    requires ChosenFrom(text, K, bits, w, lower, upper, k) && ScaledFrom(BuildFp(bits).frac, BuildFp(bits).exp, lower, upper, k)
    ensures Chosen(text, K, bits)
  {
  }
}
