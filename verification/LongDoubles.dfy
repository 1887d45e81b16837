/** Which doubles need seventeen digits before seven zeros, decided on the bit pattern (src/fpconv_dtoa.c:167-247). */
module LongDoubles {
  import opened Powers
  import opened Digits
  import opened Rounding
  import opened Generate
  import opened CachedPowers
  import opened PowerSearch
  import opened Doubles
  import opened Grisu
  import opened Shortest

  /** The rounding interval reaches into the numbers of 24 digits before the point. */
  ghost predicate TwentyFourDigits(bits: u64) {
    LowerBoundary(bits) < Exp10(24) && Exp10(23) < UpperBoundary(bits)
  }

  /** Multiples of 10^8 inside the rounding interval: sixteen digits are enough there. */
  ghost predicate HasSixteen(bits: u64) {
    exists m: int :: Between(LowerBoundary(bits), DecimalOf(m, 8), UpperBoundary(bits))
  }

  ghost function DecimalOf(m: int, K: int): real {
    m as real * Exp10(K)
  }

  lemma SeventeenDigits(d: seq<char>)
    requires IsNumeral(d) && |d| == 17
    ensures 10000000000000000 <= Value(d) < 100000000000000000
  {
    TenToSixteen();
    TenToSeventeen();
    NumeralLength(d, 16, Pow(10, 16));
    ValueBelow(d);
  }

  lemma TenToSeventeen()
    ensures Pow(10, 17) == 100000000000000000
  {
    TenToSixteen();
  }

  lemma ShortNumeral(d: seq<char>, n: nat, p: nat)
    requires AllDigits(d) && |d| <= n && p == Pow(10, n)
    ensures Value(d) < p
  {
    ValueBelow(d);
    PowMonotone(10, |d|, n);
  }

  lemma TenTo(n: nat, p: nat)
    requires FastPow(10, n) == p
    ensures Exp10(n) == p as real
  {
    FastPowIsPow(10, n);
    Exp10IsPow(n);
  }

  lemma PowersUsed()
    ensures Exp10(6) == 1000000.0 && Exp10(7) == 10000000.0 && Exp10(8) == 100000000.0
    ensures Exp10(23) == 100000000000000000000000.0 && Exp10(24) == 1000000000000000000000000.0
  {
    TenTo(6, 1000000);
    TenTo(7, 10000000);
    TenTo(8, 100000000);
    TenTo(23, 100000000000000000000000);
    TenTo(24, 1000000000000000000000000);
  }

  /** Only such a double prints as 24 characters. */
  lemma LongOnly(d: seq<char>, K: int, bits: u64)
    requires PrintsInside(d, K, bits) && |d| == 17 && K == 7
    ensures TwentyFourDigits(bits)
  {
    SeventeenDigits(d);
    PowersUsed();
  }

  lemma SmallPower(K: int)
    requires K <= 6
    ensures Exp10(K) <= 1000000.0
  {
    TenTo(6, 1000000);
    AtLeastOne(6 - K, Exp10(6 - K));
    var x, y, r := Exp10(K), Exp10(6 - K), Exp10(6);
    Exp10Sum(K, 6 - K, x, y, r);
    AtMost(x, y, r);
  }

  lemma AtLeastOne(n: nat, y: real)
    requires y == Exp10(n)
    ensures 1.0 <= y
  {
    Exp10IsPow(n);
    PowPositive(10, n);
  }

  lemma AtMost(x: real, y: real, r: real)
    requires r == x * y && 0.0 < x && 1.0 <= y
    ensures x <= r
  {
  }

  lemma SmallValue(d: seq<char>, K: int)
    requires AllDigits(d) && |d| <= 17 && K <= 6
    ensures DecimalValue(Value(d), K) < 100000000000000000000000.0
  {
    TenToSeventeen();
    ShortNumeral(d, 17, 100000000000000000);
    SmallPower(K);
    var v, y := Value(d), Exp10(K);
    var x := v as real;
    DecimalIs(v, K, x, y);
    ProductBelow(x, y);
  }

  lemma DecimalIs(v: nat, K: int, x: real, y: real)
    requires x == v as real && y == Exp10(K)
    ensures DecimalValue(v, K) == x * y
  {
  }

  lemma ProductBelow(x: real, y: real)
    requires 0.0 <= x <= 99999999999999999.0 && 0.0 < y <= 1000000.0
    ensures x * y < 100000000000000000000000.0
  {
    assert x * y <= x * 1000000.0;
  }

  lemma TenTimes(v: nat, K: int)
    ensures DecimalValue(v, K) == DecimalValue(10 * v, K - 1)
  {
    Exp10Ten();
    var x, a, b := v as real, Exp10(K - 1), Exp10(K);
    Exp10Sum(1, K - 1, 10.0, a, b);
    assert (10.0 * x) * a == x * (10.0 * a);
  }

  lemma Exp10Ten()
    ensures Exp10(1) == 10.0
  {
    assert Pow(10, 1) == 10;
    Exp10IsPow(1);
  }

  lemma {:induction false} LargeMultiple(v: nat, K: int) returns (m: nat)
    requires 8 <= K
    ensures DecimalValue(v, K) == DecimalOf(m, 8)
    decreases K
  {
    if K == 8 {
      m := v;
    } else {
      TenTimes(v, K);
      m := LargeMultiple(10 * v, K - 1);
    }
  }

  lemma FewDigits(d: seq<char>)
    requires AllDigits(d) && |d| <= 16
    ensures Value(d) < 10000000000000000
  {
    TenToSixteen();
    ShortNumeral(d, 16, 10000000000000000);
  }

  /** Between 10^23 and 10^24, and without a multiple of 10^8 in the interval, it always does. */
  lemma LongForced(d: seq<char>, K: int, bits: u64)
    requires PrintsInside(d, K, bits) && Exp10(23) <= LowerBoundary(bits) && UpperBoundary(bits) <= Exp10(24)
    requires !HasSixteen(bits)
    ensures |d| == 17 && K == 7
  {
    PowersUsed();
    if K <= 6 {
      SmallValue(d, K);
      assert false;
    } else if 8 <= K {
      var m := LargeMultiple(Value(d), K);
      assert false;
    } else if |d| <= 16 {
      FewDigits(d);
      assert false;
    }
  }

  /** And then no multiple of 10^8 is well inside the interval: sixteen digits would not have done. */
  lemma LongMeans(d: seq<char>, K: int, bits: u64) returns (u: real)
    requires Chosen(d, K, bits) && |d| == 17 && K == 7
    ensures 0.0 < u && 115.0 * u <= UpperBoundary(bits) - LowerBoundary(bits) && NoneInside(bits, u, 8)
  {
    u := ChosenIsNearest(d, K, bits);
  }

  // ----- when the generator stops with seventeen digits, thirteen of them behind the point -----

  /** No multiple of 10^-12 in the interval, but one of 10^-13, of seventeen digits. */
  ghost predicate LongIn(one: nat, lower: nat, upper: nat) {
    && NoneWhole(one, lower, upper) && NoneAt(-12, one, lower, upper) && !NoneAt(-13, one, lower, upper)
    && 10000000000000000 * one <= upper * Pow(10, 13)
  }

  lemma Below(d: int, j: nat, one: nat, lower: nat, upper: nat, p: nat)
    requires p == Pow(10, j)
    ensures StrictlyWithin(d, 0 - j, one, lower, upper) <==> lower * p < d * one <= upper * p
    ensures Within(d, 0 - j, one, lower, upper) <==> lower * p <= d * one <= upper * p
  {
    NegativeGrid(j, one);
  }

  lemma LongBelow(text: seq<char>, one: nat, lower: nat, w: nat, upper: nat)
    requires 0 < one && Generated(text, -13, one, lower, w, upper) && |text| == 17
    ensures LongIn(one, lower, upper)
  {
    SeventeenDigits(text);
    Below(Value(text), 13, one, lower, upper, Pow(10, 13));
    MulMonotone(10000000000000000, Value(text), one);
  }

  lemma NotAbove(text: seq<char>, kappa: int, one: nat, lower: nat, w: nat, upper: nat)
    requires 0 < one && Generated(text, kappa, one, lower, w, upper)
    requires NoneWhole(one, lower, upper) && NoneAt(-12, one, lower, upper)
    ensures kappa < -12
  {
    if 0 <= kappa {
      WholeDigits(Value(text), kappa, one, lower, upper);
    } else if -12 <= kappa {
      NoneAbove(-12, kappa, one, lower, upper);
    }
  }

  lemma WholeDigits(d: nat, kappa: nat, one: nat, lower: nat, upper: nat)
    requires Within(d, kappa, one, lower, upper)
    ensures Within(d * Pow(10, kappa), 0, one, lower, upper)
  {
    var p := Pow(10, kappa);
    var whole := d * p;
    assert whole * one == d * (one * p);
    WholeIs(whole, one, lower, upper);
  }

  lemma NotBelow(text: seq<char>, kappa: int, one: nat, lower: nat, w: nat, upper: nat)
    requires Generated(text, kappa, one, lower, w, upper) && !NoneAt(-13, one, lower, upper)
    ensures -13 <= kappa
  {
    if kappa < -13 {
      NoneAbove(kappa + 1, -13, one, lower, upper);
    }
  }

  lemma NotShorter(text: seq<char>, one: nat, lower: nat, w: nat, upper: nat)
    requires 0 < one && Generated(text, -13, one, lower, w, upper)
    requires NoneAt(-12, one, lower, upper) && 10000000000000000 * one <= upper * Pow(10, 13)
    ensures |text| == 17
  {
    if |text| <= 16 {
      FewDigits(text);
      var p, q := Pow(10, 12), Pow(10, 13);
      Below(Value(text), 13, one, lower, upper, q);
      MulStrict(Value(text), 10000000000000000, one);
      assert q == 10 * p;
      TimesTen(lower, p);
      TimesTen(upper, p);
      Below(1000000000000000, 12, one, lower, upper, p);
    }
  }

  /** The generator gives seventeen digits, thirteen of them behind the point, in exactly these cases. */
  lemma LongGenerated(text: seq<char>, kappa: int, one: nat, lower: nat, w: nat, upper: nat)
    requires 0 < one && Generated(text, kappa, one, lower, w, upper)
    ensures |text| == 17 && kappa == -13 <==> LongIn(one, lower, upper)
  {
    if |text| == 17 && kappa == -13 {
      LongBelow(text, one, lower, w, upper);
    }
    if LongIn(one, lower, upper) {
      NotAbove(text, kappa, one, lower, w, upper);
      NotBelow(text, kappa, one, lower, w, upper);
      NotShorter(text, one, lower, w, upper);
    }
  }

  // ----- the same, decided by four divisions -----

  /** lo < d * one <= hi for some d exactly when the quotients differ. */
  lemma SomeMultiple(lo: nat, hi: nat, one: nat)
    requires 0 < one && lo / one < hi / one
    ensures lo < (hi / one) * one <= hi
  {
    QuotientBounds(lo, one, lo / one);
    QuotientBounds(hi, one, hi / one);
    MulMonotone(lo / one + 1, hi / one, one);
  }

  lemma QuotientBounds(n: nat, one: nat, q: nat)
    requires 0 < one && q == n / one
    ensures q * one <= n < (q + 1) * one
  {
    assert n == q * one + n % one;
  }

  lemma QuotientsDiffer(lo: nat, hi: nat, one: nat, d: int)
    requires 0 < one && lo < d * one <= hi
    ensures lo / one < hi / one
  {
    QuotientBounds(lo, one, lo / one);
    QuotientBounds(hi, one, hi / one);
    MulCancelLess(lo / one, d, one);
    MulCancelLess(d, hi / one + 1, one);
  }

  /** A multiple of 10^-j lies in (lower, upper], counted in units one, exactly when the quotients differ. */
  lemma NoneAtDecided(j: nat, kappa: int, one: nat, lower: nat, upper: nat, p: nat)
    requires 0 < one && p == Pow(10, j) && kappa == 0 - j
    ensures NoneAt(kappa, one, lower, upper) <==> upper * p / one <= lower * p / one
  {
    if lower * p / one < upper * p / one {
      SomeMultiple(lower * p, upper * p, one);
      Below(upper * p / one, j, one, lower, upper, p);
    } else {
      forall d: int ensures !StrictlyWithin(d, kappa, one, lower, upper) {
        if StrictlyWithin(d, kappa, one, lower, upper) {
          Below(d, j, one, lower, upper, p);
          QuotientsDiffer(lower * p, upper * p, one, d);
        }
      }
    }
  }

  lemma NoneWholeDecided(one: nat, lower: nat, upper: nat)
    requires 0 < one && lower <= upper
    ensures NoneWhole(one, lower, upper) <==> lower % one != 0 && upper / one == lower / one
  {
    QuotientBounds(lower, one, lower / one);
    if NoneWhole(one, lower, upper) {
      if lower % one == 0 {
        WholeIs(lower / one, one, lower, upper);
      }
      if lower / one < upper / one {
        SomeMultiple(lower, upper, one);
        WholeIs(upper / one, one, lower, upper);
      }
      QuotientGrows(lower, upper, one);
    } else {
      var d :| Within(d, 0, one, lower, upper);
      WholeIs(d, one, lower, upper);
      if lower < d * one {
        QuotientsDiffer(lower, upper, one, d);
      } else {
        DivisionIs(lower, one, d, 0);
      }
    }
  }

  /** Five comparisons of integers decide it. */
  lemma LongInDecided(one: nat, lower: nat, upper: nat)
    requires 0 < one && lower <= upper
    ensures LongIn(one, lower, upper) <==>
      && lower % one != 0 && upper / one == lower / one
      && upper * Pow(10, 12) / one <= lower * Pow(10, 12) / one && lower * Pow(10, 13) / one < upper * Pow(10, 13) / one
      && 10000000000000000 * one <= upper * Pow(10, 13)
  {
    NoneWholeDecided(one, lower, upper);
    NoneAtDecided(12, -12, one, lower, upper, Pow(10, 12));
    NoneAtDecided(13, -13, one, lower, upper, Pow(10, 13));
  }

  lemma QuotientGrows(lo: nat, hi: nat, one: nat)
    requires 0 < one && lo <= hi
    ensures lo / one <= hi / one
  {
    QuotientBounds(lo, one, lo / one);
    QuotientBounds(hi, one, hi / one);
    MulCancelLess(lo / one, hi / one + 1, one);
  }

  // ----- on the bit pattern -----

  /** The table entry for 10^-20. */
  const TEN_TO_MINUS_20: u64 := 13611294676837538539

  /** The narrowed bounds for the significand f, scaled by 10^-20. */
  function LowerFor(f: nat): nat
    requires 0 < f
  {
    RoundedProduct(if f == HIDDEN_BIT then (4 * f - 1) * 512 else (2 * f - 1) * 1024, TEN_TO_MINUS_20) + 1
  }

  function UpperFor(f: nat): nat
    requires 0 < f
  {
    RoundedProduct((2 * f + 1) * 1024, TEN_TO_MINUS_20) - 1
  }

  /** Between 2^76 and 2^80, where the numbers of 24 digits are. */
  ghost predicate LongDigits(bits: u64) {
    var fp := BuildFp(bits);
    24 <= fp.exp <= 27 && LongAt(fp.frac, Pow(2, 77 - fp.exp))
  }

  ghost predicate LongAt(f: nat, one: nat) {
    0 < f && 0 < one && LongIn(one, LowerFor(f), UpperFor(f))
  }

  lemma {:induction false} PowersOrdered(e: int, f: int)
    requires e <= f
    ensures Exp2(e) <= Exp2(f)
  {
    var x, y, r := Exp2(e), Exp2(f - e), Exp2(f);
    Exp2Sum(e, f - e, x, y, r);
    Exp2IsPow(f - e);
    PowPositive(2, f - e);
    AtMost(x, y, r);
  }

  lemma TwoTo(n: nat, p: nat)
    requires FastPow(2, n) == p
    ensures Exp2(n) == p as real
  {
    FastPowIsPow(2, n);
    Exp2IsPow(n);
  }

  lemma SmallUpper(f: nat, e: int)
    requires f < 2 * HIDDEN_BIT && e <= 23
    ensures FpValue(2 * f + 1, e - 1) < 100000000000000000000000.0
  {
    PowersOrdered(e - 1, 22);
    TwoTo(22, 4194304);
    var x, y := (2 * f + 1) as real, Exp2(e - 1);
    SmallProduct(x, y, FpValue(2 * f + 1, e - 1));
  }

  lemma SmallProduct(x: real, y: real, v: real)
    requires 0.0 <= x <= 18014398509481984.0 && 0.0 < y <= 4194304.0 && v == x * y
    ensures v < 100000000000000000000000.0
  {
    assert x * y <= x * 4194304.0;
  }

  lemma LargeLower(n: nat, f: nat, e: int)
    requires 18014398509481983 <= n && 26 <= e
    ensures 1000000000000000000000000.0 < FpValue(n, e)
  {
    PowersOrdered(26, e);
    TwoTo(26, 67108864);
    LargeProduct(n as real, Exp2(e), FpValue(n, e));
  }

  lemma LargeProduct(x: real, y: real, v: real)
    requires 18014398509481983.0 <= x && 67108864.0 <= y && v == x * y
    ensures 1000000000000000000000000.0 < v
  {
    assert x * 67108864.0 <= x * y;
  }

  lemma LargeHalf(f: nat, e: int)
    requires HIDDEN_BIT < f && 27 <= e
    ensures 1000000000000000000000000.0 < FpValue(2 * f - 1, e)
  {
    DoubleFrac(2 * f - 1, e);
    LargeLower(2 * (2 * f - 1), f, e - 1);
  }

  /** Seventeen digits before seven zeros are only chosen in these four binades. */
  lemma BinadesOf(d: seq<char>, K: int, bits: u64)
    requires PrintsInside(d, K, bits) && |d| == 17 && K == 7
    ensures 24 <= BuildFp(bits).exp <= 27
  {
    LongOnly(d, K, bits);
    PowersUsed();
    var fp := BuildFp(bits);
    if fp.exp <= 23 {
      SmallUpper(fp.frac, fp.exp);
    } else if 28 <= fp.exp {
      if fp.frac == HIDDEN_BIT {
        LargeLower(4 * fp.frac - 1, fp.frac, fp.exp - 2);
      } else {
        LargeHalf(fp.frac, fp.exp - 1);
      }
    }
  }

  lemma NormalFrac(bits: u64)
    requires 24 <= BuildFp(bits).exp
    ensures HIDDEN_BIT <= BuildFp(bits).frac < 2 * HIDDEN_BIT
  {
  }

  /** The upper boundary of a normal double is shifted ten places. */
  lemma ShiftedTen(f: nat, n: nat, frac: nat)
    requires HIDDEN_BIT <= f < 2 * HIDDEN_BIT && frac == (2 * f + 1) * Pow(2, n) && SIGN_BIT <= frac < TWO64
    ensures n == 10
  {
    var p := Pow(2, n);
    if n <= 9 {
      PowMonotone(2, n, 9);
      assert Pow(2, 9) == 512;
      MulMonotone(p, 512, 2 * f + 1);
    } else if 11 <= n {
      PowMonotone(2, 11, n);
      assert Pow(2, 11) == 2048;
      MulMonotone(2048, p, 2 * f + 1);
    }
  }

  /** The search has one choice here. */
  lemma OnlyPower(cp: Fp, k: int, exp: int)
    requires IsCachedPower(cp, k) && 13 <= exp <= 16 && EXP_MIN <= exp + cp.exp + 64 <= EXP_MAX
    ensures k == -20 && cp == Fp(TEN_TO_MINUS_20, -130)
  {
    var idx :| 0 <= idx < N_POWERS && k == Decade(idx) && cp == Fp(PowersTen(idx).frac, PowersTen(idx).exp);
    EntryMagnitude(idx);
    OnlyIndex(idx, cp.exp);
    EntryIs();
  }

  lemma EntryMagnitude(idx: int)
    requires 0 <= idx < N_POWERS
    ensures PowersTen(idx).exp == BinaryMagnitude(Decade(idx))
  {
    var c := PowersTen(idx);
  }

  lemma OnlyIndex(idx: int, exp: int)
    requires exp == BinaryMagnitude(Decade(idx)) && -140 <= exp <= -109
    ensures idx == 41
  {
  }

  lemma EntryIs()
    ensures PowersTen(41).frac == TEN_TO_MINUS_20 && PowersTen(41).exp == -130
  {
    assert PowersTen(41) == Row5(41);
  }

  /** The bounds made for a significand and exponent. */
  predicate BoundsFor(f: nat, e: int, k: int, lower: Fp, upper: Fp) {
    0 < f && k == -20 && upper.exp == e - 77 && lower.frac + 1 == LowerFor(f) && upper.frac - 1 == UpperFor(f)
  }

  lemma LowerUnitsAre(f: nat, e: int)
    requires 0 < f
    ensures LowerUnits(f, e, e - 11) == if f == HIDDEN_BIT then (4 * f - 1) * 512 else (2 * f - 1) * 1024
  {
    assert Pow(2, 9) == 512 && Pow(2, 10) == 1024;
  }

  lemma UpperUnitsAre(f: nat, frac: nat)
    requires frac == (2 * f + 1) * Pow(2, 10)
    ensures frac == (2 * f + 1) * 1024
  {
    assert Pow(2, 10) == 1024;
  }

  lemma LowerMade(f: nat, e: int, lower0: Fp, cp: Fp, lower: Fp)
    requires 0 < f && lower0.frac == LowerUnits(f, e, e - 11) && cp.frac == TEN_TO_MINUS_20
    requires lower.frac == RoundedProduct(lower0.frac, cp.frac)
    ensures lower.frac + 1 == LowerFor(f)
  {
    LowerUnitsAre(f, e);
  }

  lemma UpperMade(f: nat, upper0: Fp, cp: Fp, upper: Fp)
    requires 0 < f && upper0.frac == (2 * f + 1) * Pow(2, 10) && cp.frac == TEN_TO_MINUS_20
    requires upper.frac == RoundedProduct(upper0.frac, cp.frac)
    ensures upper.frac - 1 == UpperFor(f)
  {
    UpperUnitsAre(f, upper0.frac);
  }

  lemma MadeLong(f: nat, e: int, lower0: Fp, upper0: Fp, cp: Fp, k: int, lower: Fp, upper: Fp)
    requires MadeFrom(f, e, lower0, upper0, cp, k, lower, upper) && HIDDEN_BIT <= f < 2 * HIDDEN_BIT && 24 <= e <= 27
    ensures BoundsFor(f, e, k, lower, upper)
  {
    ShiftedTen(f, e - 1 - upper0.exp, upper0.frac);
    OnlyPower(cp, k, upper0.exp);
    LowerMade(f, e, lower0, cp, lower);
    UpperMade(f, upper0, cp, upper);
  }

  lemma BoundsAre(f: nat, e: int, lower: Fp, upper: Fp, k: int)
    requires ScaledFrom(f, e, lower, upper, k) && HIDDEN_BIT <= f < 2 * HIDDEN_BIT && 24 <= e <= 27
    ensures BoundsFor(f, e, k, lower, upper)
  {
    var lower0: Fp, upper0: Fp, cp: Fp :| MadeFrom(f, e, lower0, upper0, cp, k, lower, upper);
    MadeLong(f, e, lower0, upper0, cp, k, lower, upper);
  }

  /** What the generator was given. */
  lemma ChosenBounds(d: seq<char>, K: int, bits: u64, f: nat, e: int) returns (lower: Fp, pw: nat, upper: Fp, k: int)
    requires Chosen(d, K, bits) && f == BuildFp(bits).frac && e == BuildFp(bits).exp
    ensures ScaledFrom(f, e, lower, upper, k) && upper.exp <= 0 && 0 < upper.frac
    ensures Generated(d, K + k, Pow(2, -upper.exp), lower.frac + 1, pw, upper.frac - 1)
  {
    var w: Fp;
    w, lower, upper, k :| ChosenFrom(d, K, bits, w, lower, upper, k) && ScaledFrom(f, e, lower, upper, k);
    pw := w.frac;
  }

  lemma LongRun(d: seq<char>, K: int, f: nat, e: int, lower: Fp, pw: nat, upper: Fp, k: int)
    requires BoundsFor(f, e, k, lower, upper) && 24 <= e <= 27 && 0 < upper.frac
    requires Generated(d, K + k, Pow(2, -upper.exp), lower.frac + 1, pw, upper.frac - 1)
    ensures |d| == 17 && K == 7 <==> LongAt(f, Pow(2, 77 - e))
  {
    LongFrom(d, K, f, e, Pow(2, -upper.exp), lower.frac + 1, pw, upper.frac - 1);
  }

  lemma LongFrom(d: seq<char>, K: int, f: nat, e: int, one: nat, lower: nat, w: nat, upper: nat)
    requires 24 <= e <= 27 && 0 < f && one == Pow(2, 77 - e) && lower == LowerFor(f) && upper == UpperFor(f)
    requires Generated(d, K - 20, one, lower, w, upper)
    ensures |d| == 17 && K == 7 <==> LongAt(f, one)
  {
    PowPositive(2, 77 - e);
    LongGenerated(d, K - 20, one, lower, w, upper);
  }

  lemma LongInBinade(d: seq<char>, K: int, bits: u64, f: nat, e: int)
    requires Chosen(d, K, bits) && f == BuildFp(bits).frac && e == BuildFp(bits).exp && 24 <= e <= 27
    ensures |d| == 17 && K == 7 <==> LongAt(f, Pow(2, 77 - e))
  {
    NormalFrac(bits);
    var lower, pw, upper, k := ChosenBounds(d, K, bits, f, e);
    BoundsAre(f, e, lower, upper, k);
    LongRun(d, K, f, e, lower, pw, upper, k);
  }

  lemma LongDigitsAre(bits: u64, f: nat, e: int)
    requires f == BuildFp(bits).frac && e == BuildFp(bits).exp
    ensures LongDigits(bits) <==> 24 <= e <= 27 && LongAt(f, Pow(2, 77 - e))
  {
  }

  /** Seventeen digits before seven zeros: decided on the bit pattern. */
  lemma LongExactly(d: seq<char>, K: int, bits: u64)
    requires Chosen(d, K, bits)
    ensures |d| == 17 && K == 7 <==> LongDigits(bits)
  {
    var f, e := BuildFp(bits).frac, BuildFp(bits).exp;
    LongDigitsAre(bits, f, e);
    if 24 <= e <= 27 {
      LongInBinade(d, K, bits, f, e);
    } else if |d| == 17 && K == 7 {
      BinadesOf(d, K, bits);
    }
  }
}
