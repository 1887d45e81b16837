/**
  The two-phase digit generator of Grisu2 (src/fpconv_dtoa.c:167-224).

  upper, w and lower are fixed-point numbers with the same scaling factor one (a power of two); the
  generator emits the decimal digits of upper until what is left is no more than upper - lower.
 */
module Generate {
  import opened Powers
  import opened Digits
  import opened Rounding

  datatype Fp = Fp(frac: u64, exp: int)

  const TENS: seq<u64> := [
    10000000000000000000, 1000000000000000000, 100000000000000000, 10000000000000000,
    1000000000000000, 100000000000000, 10000000000000, 1000000000000, 100000000000, 10000000000,
    1000000000, 100000000, 10000000, 1000000, 100000, 10000, 1000, 100, 10, 1]

  lemma TensArePowers(n: nat)
    requires n < 20
    ensures TENS[19 - n] == Pow(10, n)
  {
    if n > 0 {
      TensArePowers(n - 1);
    }
  }

  // ----- what a generated decimal means -----

  /** The denominator of 10^kappa. */
  function Scale(kappa: int): nat {
    if kappa < 0 then Pow(10, -kappa) else 1
  }

  /** 10^kappa * one, over the denominator above. */
  function Grid(one: nat, kappa: int): nat {
    if kappa < 0 then one else one * Pow(10, kappa)
  }

  /** lower <= d * 10^kappa <= upper. */
  ghost predicate Within(d: int, kappa: int, one: nat, lower: nat, upper: nat) {
    lower * Scale(kappa) <= d * Grid(one, kappa) <= upper * Scale(kappa)
  }

  /** lower < d * 10^kappa <= upper. */
  ghost predicate StrictlyWithin(d: int, kappa: int, one: nat, lower: nat, upper: nat) {
    lower * Scale(kappa) < d * Grid(one, kappa) <= upper * Scale(kappa)
  }

  ghost function Distance(d: int, kappa: int, one: nat, w: nat): nat {
    Abs(d * Grid(one, kappa) - w * Scale(kappa))
  }

  /** No multiple of 10^kappa lies in the half-open interval (lower, upper]. */
  ghost predicate NoneAt(kappa: int, one: nat, lower: nat, upper: nat) {
    forall d :: !StrictlyWithin(d, kappa, one, lower, upper)
  }

  /** No whole number lies in [lower, upper], so the first loop does not stop. */
  ghost predicate NoneWhole(one: nat, lower: nat, upper: nat) {
    forall d :: !Within(d, 0, one, lower, upper)
  }

  /** What stops the second loop. */
  ghost predicate Late(kappa: int, one: nat, lower: nat, upper: nat) {
    !NoneAt(kappa, one, lower, upper) && NoneWhole(one, lower, upper)
  }

  /**
    text * 10^kappa lies in [lower, upper], no multiple of 10^kappa in there is closer to w, and one
    digit less would not have been enough.
   */
  ghost predicate Generated(text: seq<char>, kappa: int, one: nat, lower: nat, w: nat, upper: nat) {
    && IsNumeral(text) && |text| <= 17
    && Within(Value(text), kappa, one, lower, upper)
    && (forall d :: Within(d, kappa, one, lower, upper) ==>
          Distance(Value(text), kappa, one, w) <= Distance(d, kappa, one, w))
    && NoneAt(kappa + 1, one, lower, upper)
    && (kappa < 0 ==> Late(kappa, one, lower, upper))
  }

  lemma CoarserIsFiner(d: int, kappa: int, one: nat, lower: nat, upper: nat)
    requires StrictlyWithin(d, kappa, one, lower, upper)
    ensures StrictlyWithin(10 * d, kappa - 1, one, lower, upper)
  {
    if kappa > 0 {
      GridTen(one, kappa);
      TimesTen(d, Grid(one, kappa - 1));
    } else {
      assert Scale(kappa - 1) == 10 * Scale(kappa);
      TimesTen(lower, Scale(kappa));
      TimesTen(upper, Scale(kappa));
      TimesTen(d, one);
    }
  }

  lemma GridTen(one: nat, kappa: int)
    requires 0 < kappa
    ensures Grid(one, kappa) == 10 * Grid(one, kappa - 1)
  {
    TimesTen(one, Pow(10, kappa - 1));
  }

  lemma TimesTen(x: int, y: int)
    ensures x * (10 * y) == 10 * (x * y) == (10 * x) * y
  {
  }

  /** If one digit less is not enough, no shorter decimal is. */
  lemma {:induction false} NoneAbove(kappa: int, more: int, one: nat, lower: nat, upper: nat)
    requires kappa <= more && NoneAt(kappa, one, lower, upper)
    ensures NoneAt(more, one, lower, upper)
    decreases more - kappa
  {
    if kappa < more {
      NoneAbove(kappa, more - 1, one, lower, upper);
      forall d ensures !StrictlyWithin(d, more, one, lower, upper) {
        if StrictlyWithin(d, more, one, lower, upper) {
          CoarserIsFiner(d, more, one, lower, upper);
        }
      }
    }
  }

  // ----- the correction step, over plain integers -----

  /** Rounding down by steps grid units from the candidate D = (H - rem) / grid. */
  lemma Rounded(D: nat, steps: nat, grid: nat, L: int, W: int, H: int, rem: int)
    requires D * grid + rem == H && 0 <= rem < grid
    requires rem + steps * grid <= H - L
    requires forall j: nat :: rem + j * grid <= H - L ==>
      Abs(rem + steps * grid - (H - W)) <= Abs(rem + j * grid - (H - W))
    ensures L <= (D - steps) * grid <= H
    ensures forall d :: L <= d * grid <= H ==> Abs((D - steps) * grid - W) <= Abs(d * grid - W)
  {
    Subtract(D, steps, grid);
    forall d | L <= d * grid <= H
      ensures Abs((D - steps) * grid - W) <= Abs(d * grid - W)
    {
      Candidate(D, d, grid, H, rem);
      var j: nat := D - d;
      assert rem + j * grid == H - d * grid;
    }
  }

  lemma Subtract(x: int, y: int, z: int)
    ensures (x - y) * z == x * z - y * z
  {
  }

  /** Every candidate below H lies a whole number of grid units below D. */
  lemma Candidate(D: nat, d: int, grid: nat, H: int, rem: int)
    requires D * grid + rem == H && 0 <= rem < grid && d * grid <= H
    ensures d <= D && rem + (D - d) * grid == H - d * grid
  {
    Subtract(D, -1, grid);
    MulCancelLess(d, D + 1, grid);
    Subtract(D, d, grid);
  }

  /** If the part left over exceeds the width, no multiple of the grid unit is in the interval. */
  lemma NoMultiple(D: nat, grid: nat, L: int, H: int, rem: int)
    requires D * grid + rem == H && 0 <= rem < grid && H - L <= rem
    ensures forall d :: !(L < d * grid <= H)
  {
    forall d ensures !(L < d * grid <= H) {
      if L < d * grid <= H {
        assert (D + 1) * grid == D * grid + grid;
        MulCancelLess(d, D + 1, grid);
        MulMonotone(d, D, grid);
      }
    }
  }

  // ----- finishing: the corrected digits satisfy Generated -----

  /** The state in which the generator stops: text and rem make up upper, and rem is within delta. */
  ghost predicate Stopping(t: seq<char>, kappa: int, one: nat, lower: nat, upper: nat, delta: int, rem: int, unit: int) {
    && IsNumeral(t) && |t| <= 17 && 0 < one && 0 < lower <= upper
    && unit == Grid(one, kappa) && 0 < unit < TWO64
    && Value(t) * unit + rem == upper * Scale(kappa) && 0 <= rem < unit
    && delta == (upper - lower) * Scale(kappa) && rem <= delta <= rem + DigitOf(t[|t| - 1]) * unit
    && NoneAt(kappa + 1, one, lower, upper)
    && (kappa < 0 ==> rem < delta && NoneWhole(one, lower, upper))
  }

  lemma StopsLate(t: seq<char>, kappa: int, one: nat, lower: nat, upper: nat, delta: int, rem: int, unit: int)
    requires kappa < 0 && Stopping(t, kappa, one, lower, upper, delta, rem, unit)
    ensures Late(kappa, one, lower, upper)
  {
    Subtract(upper, lower, Scale(kappa));
    assert StrictlyWithin(Value(t), kappa, one, lower, upper);
  }

  lemma Finish(t: seq<char>, steps: nat, kappa: int, one: nat, lower: nat, w: nat, upper: nat,
               delta: int, rem: int, unit: int, frac: int)
    requires Stopping(t, kappa, one, lower, upper, delta, rem, unit)
    requires lower <= w <= upper && frac == (upper - w) * Scale(kappa)
    requires steps <= DigitOf(t[|t| - 1]) && rem + steps * unit <= delta
    requires forall j: nat :: rem + j * unit <= delta ==>
      Abs(rem + steps * unit - frac) <= Abs(rem + j * unit - frac)
    ensures Generated(t[|t| - 1 := CharOf(DigitOf(t[|t| - 1]) - steps)], kappa, one, lower, w, upper)
  {
    var text := t[|t| - 1 := CharOf(DigitOf(t[|t| - 1]) - steps)];
    var scale := Scale(kappa);
    LowerLast(t, steps);
    Subtract(upper, lower, scale);
    Subtract(upper, w, scale);
    Rounded(Value(t), steps, unit, lower * scale, w * scale, upper * scale, rem);
    assert Within(Value(text), kappa, one, lower, upper);
    if kappa < 0 {
      StopsLate(t, kappa, one, lower, upper, delta, rem, unit);
    }
    ScalePositive(kappa);
    MulStrict(0, lower, scale);
    if |t| == 1 {
      assert t[..0] == [] && text[..0] == [];
      assert Value(text) == DigitOf(text[0]);
    }
  }

  method RoundGenerated(digits: array<char>, ndigits: nat, delta: u64, rem: u64, unit: u64, frac: u64, ghost t: seq<char>,
                        ghost kappa: int, ghost one: nat, ghost lower: nat, ghost w: nat, ghost upper: nat)
    requires ndigits <= digits.Length && digits[..ndigits] == t
    requires Stopping(t, kappa, one, lower, upper, delta, rem, unit)
    requires lower <= w <= upper && frac == (upper - w) * Scale(kappa)
    modifies digits
    ensures Generated(digits[..ndigits], kappa, one, lower, w, upper)
  {
    var steps := RoundDigit(digits, ndigits, delta, rem, unit, frac);
    Finish(t, steps, kappa, one, lower, w, upper, delta, rem, unit, frac);
    assert digits[..ndigits] == t[ndigits - 1 := CharOf(DigitOf(t[ndigits - 1]) - steps)];
  }

  lemma ScalePositive(kappa: int)
    ensures 0 < Scale(kappa)
  {
    if kappa < 0 {
      PowPositive(10, -kappa);
    }
  }

  // ----- first phase: the integer part of upper -----

  /** t holds the digits of P above 10^kappa, part1 the rest of P. */
  ghost predicate Leading(t: seq<char>, kappa: nat, P: nat, part1: nat, one: nat, part2: nat, delta: nat) {
    && AllDigits(t) && (t != [] ==> t[0] != '0') && |t| + kappa <= 10
    && P == Value(t) * Pow(10, kappa) + part1 && part1 < Pow(10, kappa)
    && delta < part1 * one + part2
  }

  function Emit(t: seq<char>, digit: nat): (r: seq<char>)
    requires digit < 10
  {
    if digit != 0 || t != [] then t + [CharOf(digit)] else t
  }

  lemma EmitValue(t: seq<char>, digit: nat)
    requires digit < 10 && AllDigits(t) && (t != [] ==> t[0] != '0')
    ensures var r := Emit(t, digit);
      AllDigits(r) && (r != [] ==> r[0] != '0') && Value(r) == 10 * Value(t) + digit
  {
    if digit != 0 || t != [] {
      ValueAppend(t, CharOf(digit));
    }
  }

  lemma LeadingDivision(v: nat, div: nat, P: nat, part1: nat, digit: nat, rest: nat)
    requires P == v * (10 * div) + part1 && part1 < 10 * div && part1 == digit * div + rest
    ensures digit < 10
    ensures P == (10 * v + digit) * div + rest
  {
    MulCancelLess(digit, 10, div);
    assert (10 * v + digit) * div == v * (10 * div) + digit * div;
  }

  lemma LeadingStep(t: seq<char>, kappa: nat, P: nat, part1: nat, one: nat, part2: nat, delta: nat,
                    div: nat, digit: nat, rest: nat)
    requires 0 < kappa && Leading(t, kappa, P, part1, one, part2, delta)
    requires div == Pow(10, kappa - 1) && part1 == digit * div + rest && rest < div
    ensures digit < 10
    ensures var r := Emit(t, digit);
      && AllDigits(r) && (r != [] ==> r[0] != '0') && |r| + kappa <= 11
      && P == Value(r) * div + rest
  {
    LeadingDivision(Value(t), div, P, part1, digit, rest);
    EmitValue(t, digit);
  }

  /** The scaled form of the loop state, once multiplied by one. */
  lemma LeadingScaled(v: nat, p: nat, P: nat, part1: nat, one: nat, part2: nat, unit: int, left: int, upper: nat)
    requires P == v * p + part1 && part1 < p && part2 < one
    requires unit == one * p && left == part1 * one + part2 && upper == P * one + part2
    ensures v * unit + left == upper && 0 <= left < unit && left <= upper
  {
    MulMonotone(0, part1, one);
    assert P * one == (v * p) * one + part1 * one;
    assert (v * p) * one == v * (one * p);
    MulMonotone(part1 + 1, p, one);
    assert (part1 + 1) * one == part1 * one + one;
    MulMonotone(0, v, unit);
  }

  /** When what is left no longer exceeds delta, it did one digit before. */
  lemma LeadingStops(t: seq<char>, kappa: nat, P: nat, part1: nat, one: nat, part2: nat, delta: nat, upper: nat)
    requires Leading(t, kappa, P, part1, one, part2, delta)
    requires part2 < one && delta < upper && upper == P * one + part2
    ensures NoneAt(kappa, one, upper - delta, upper)
  {
    var unit, left := one * Pow(10, kappa), part1 * one + part2;
    LeadingScaled(Value(t), Pow(10, kappa), P, part1, one, part2, unit, left, upper);
    NoMultiple(Value(t), unit, upper - delta, upper, left);
    assert Grid(one, kappa) == unit && Scale(kappa) == 1;
  }

  lemma LastDigitCovers(digit: nat, div: nat, part1: nat, rest: nat, one: nat, unit: nat)
    requires part1 == digit * div + rest && unit == one * div
    ensures part1 * one == rest * one + digit * unit
  {
    assert digit * div * one == digit * (one * div);
  }

  lemma UnitFits(v: nat, unit: nat, rem: nat, upper: nat)
    requires 0 < v && v * unit + rem == upper
    ensures unit <= upper
  {
    MulMonotone(1, v, unit);
  }

  /** One turn of the first loop: either the state carries over or the generator stops here. */
  lemma LeadingTurn(t: seq<char>, kappa: nat, P: nat, part1: nat, one: nat, part2: nat, delta: nat,
                    div: nat, digit: nat, rest: nat, unit: int, left: int, upper: nat)
    requires 0 < kappa && Leading(t, kappa, P, part1, one, part2, delta)
    requires part2 < one && delta < upper < TWO64 && upper == P * one + part2
    requires div == Pow(10, kappa - 1) && part1 == digit * div + rest && rest < div
    requires unit == div * one && left == rest * one + part2
    ensures digit < 10 && 0 <= left < TWO64
    ensures var r := Emit(t, digit);
      && (delta < left ==> Leading(r, kappa - 1, P, rest, one, part2, delta))
      && (left <= delta ==> Stopping(r, kappa - 1, one, upper - delta, upper, delta, left, unit))
  {
    LeadingStep(t, kappa, P, part1, one, part2, delta, div, digit, rest);
    LeadingScaled(Value(Emit(t, digit)), div, P, rest, one, part2, unit, left, upper);
    if left <= delta {
      LeadingStops(t, kappa, P, part1, one, part2, delta, upper);
      LastDigitCovers(digit, div, part1, rest, one, unit);
      LastTurn(Emit(t, digit), kappa, one, delta, digit, unit, left, upper, t, part1 * one + part2);
    }
  }

  lemma LastTurn(r: seq<char>, kappa: nat, one: nat, delta: nat, digit: nat, unit: nat, left: nat, upper: nat,
                 t: seq<char>, before: nat)
    requires 0 < kappa && digit < 10 && AllDigits(t) && r == Emit(t, digit) && |r| + kappa <= 11
    requires AllDigits(r) && (r != [] ==> r[0] != '0')
    requires Value(r) * unit + left == upper && left < unit && unit == Grid(one, kappa - 1) && 0 < one
    requires delta < before && before == left + digit * unit && left <= delta < upper < TWO64
    requires NoneAt(kappa, one, upper - delta, upper)
    ensures Stopping(r, kappa - 1, one, upper - delta, upper, delta, left, unit)
  {
    NotZero(digit, unit);
    NumeralPositive(r);
    UnitFits(Value(r), unit, left, upper);
  }

  lemma NotZero(x: nat, y: nat)
    requires 0 < x * y
    ensures 0 < x
  {
  }

  lemma DivideBack(x: nat, div: nat)
    requires 0 < div
    ensures 0 <= x / div && 0 <= x - x / div * div < div
  {
    assert x == x / div * div + x % div;
  }

  method EmitDigit(digits: array<char>, idx: nat, digit: nat) returns (next: nat)
    requires idx < digits.Length && digit < 10
    modifies digits
    ensures next <= idx + 1 && digits[..next] == Emit(old(digits[..idx]), digit)
  {
    next := idx;
    if digit != 0 || idx != 0 {
      digits[idx] := CharOf(digit);
      next := idx + 1;
    }
  }

  /** The body of the first loop up to its exit test: one digit off part1. */
  method LeadingDigit(digits: array<char>, idx: nat, part1: u64, div: u64, one: u64, part2: u64,
                      ghost t: seq<char>, ghost kappa: nat, ghost P: nat, ghost upper: nat, ghost delta: nat)
    returns (next: nat, rest: u64, tmp: u64, ghost r: seq<char>, ghost unit: int)
    requires idx < digits.Length && 0 < kappa && div == Pow(10, kappa - 1)
    requires digits[..idx] == t && Leading(t, kappa, P, part1, one, part2, delta)
    requires part2 < one && upper == P * one + part2 && delta < upper < TWO64
    modifies digits
    ensures next <= idx + 1 && digits[..next] == r && unit == div * one
    ensures delta < tmp ==> Leading(r, kappa - 1, P, rest, one, part2, delta)
    ensures tmp <= delta ==> Stopping(r, kappa - 1, one, upper - delta, upper, delta, tmp, unit)
  {
    PowPositive(10, kappa - 1);
    DivideBack(part1, div);
    var digit := part1 / div;
    rest := part1 - digit * div;
    unit := div * one;
    ghost var left := rest * one + part2;
    LeadingTurn(t, kappa, P, part1, one, part2, delta, div, digit, rest, unit, left, upper);
    next := EmitDigit(digits, idx, digit);
    r := Emit(t, digit);
    tmp := rest * one + part2;
  }

  method LeadingDigits(P: u64, part2: u64, one: u64, delta: u64, wfrac: u64, digits: array<char>)
    returns (done: bool, idx: nat, kappa: int)
    requires 18 <= digits.Length && 0 < P < Pow(10, 10)
    requires part2 < one && P * one + part2 < TWO64 && wfrac <= delta < P * one + part2
    modifies digits
    ensures idx <= 10 && kappa < 10
    ensures done ==>
      var upper := P * one + part2;
      0 <= kappa && Generated(digits[..idx], kappa, one, upper - delta, upper - wfrac, upper)
    ensures !done ==>
      kappa == 0 && IsNumeral(digits[..idx]) && Value(digits[..idx]) == P && delta < part2
  {
    done, idx, kappa := false, 0, 10;
    var part1: u64 := P;
    var divp := 10;
    ghost var upper, t := P * one + part2, digits[..0];
    while kappa > 0
      invariant 0 <= kappa <= 10 && divp == 20 - kappa && idx + kappa <= 10
      invariant digits[..idx] == t && Leading(t, kappa, P, part1, one, part2, delta)
    {
      TensArePowers(kappa - 1);
      var div := TENS[divp];
      var tmp: u64;
      ghost var unit: int;
      idx, part1, tmp, t, unit := LeadingDigit(digits, idx, part1, div, one, part2, t, kappa, P, upper, delta);
      kappa := kappa - 1;
      if tmp <= delta {
        RoundGenerated(digits, idx, delta, tmp, div * one, wfrac, t, kappa, one, upper - delta, upper - wfrac, upper);
        done := true;
        return;
      }
      divp := divp + 1;
    }
    LeadingEnds(t, P, part1, one, part2, delta);
    assert digits[..idx] == t;
  }

  lemma LeadingEnds(t: seq<char>, P: nat, part1: nat, one: nat, part2: nat, delta: nat)
    requires Leading(t, 0, P, part1, one, part2, delta) && delta < P * one + part2 && 0 < P
    ensures IsNumeral(t) && Value(t) == P && delta < part2
  {
    assert Pow(10, 0) == 1;
  }

  // ----- second phase: the fraction -----

  const ULP_RATIO: nat := 10000000000000000

  /** After j digits of the fraction: t and part2 make up upper * 10^j. */
  ghost predicate Trailing(t: seq<char>, j: nat, upper: nat, width: nat, one: nat, part2: nat, delta: nat) {
    && IsNumeral(t) && j < |t| && 0 < one
    && upper * Pow(10, j) == Value(t) * one + part2
    && delta == width * Pow(10, j)
    && delta <= part2 < one
  }

  /** The printed number has at most 16 digits before the last one is added. */
  lemma TrailingLength(t: seq<char>, j: nat, upper: nat, width: nat, one: nat, part2: nat, delta: nat)
    requires Trailing(t, j, upper, width, one, part2, delta) && upper <= ULP_RATIO * width
    ensures |t| <= 16
  {
    var v := Value(t);
    RatioBound(v, Pow(10, j), upper, width, one, part2, delta);
    if |t| > 16 {
      NumeralLength(t, |t| - 1, Pow(10, |t| - 1));
      PowMonotone(10, 16, |t| - 1);
      TenToSixteen();
    }
  }

  lemma TenToSixteen()
    ensures Pow(10, 16) == ULP_RATIO
  {
    assert FastPow(10, 4) == 10000;
    assert FastPow(10, 8) == 100000000;
    FastPowIsPow(10, 16);
  }

  lemma RatioBound(v: nat, p: nat, upper: nat, width: nat, one: nat, part2: nat, delta: nat)
    requires upper * p == v * one + part2 && delta == width * p && delta <= part2 < one
    requires upper <= ULP_RATIO * width
    ensures v < ULP_RATIO
  {
    MulMonotone(upper, ULP_RATIO * width, p);
    assert (ULP_RATIO * width) * p == ULP_RATIO * delta;
    assert v * one < ULP_RATIO * one || delta == 0;
    if delta == 0 {
      assert v * one == 0;
      MulMonotone(1, one, v);
    } else {
      MulCancelLess(v, ULP_RATIO, one);
    }
  }

  lemma NegativeGrid(j: nat, one: nat)
    ensures Grid(one, 0 - j) == one && Scale(0 - j) == Pow(10, j)
  {
    if j == 0 {
      assert one * Pow(10, 0) == one;
    }
  }

  lemma FractionStep(v: nat, p: nat, upper: nat, width: nat, one: nat, part2: nat, delta: nat, frac: nat)
    requires upper * p == v * one + part2 && delta == width * p && delta <= part2 < one
    ensures 10 * part2 / one < 10
    ensures upper * (10 * p) == (10 * v + 10 * part2 / one) * one + 10 * part2 % one
    ensures 10 * delta == width * (10 * p)
    ensures 10 * delta <= 10 * part2 % one + 10 * part2 / one * one
    ensures frac <= width ==> frac * (10 * p) <= 10 * delta
  {
    var q, r := 10 * part2 / one, 10 * part2 % one;
    assert 10 * part2 == q * one + r;
    MulCancelLess(q, 10, one);
    TimesTen(upper, p);
    TimesTen(width, p);
    assert (10 * v + q) * one == 10 * (v * one) + q * one;
    if frac <= width {
      MulMonotone(frac, width, 10 * p);
    }
  }

  /** One turn of the second loop. */
  lemma TrailingTurn(t: seq<char>, j: nat, upper: nat, width: nat, one: nat, part2: nat, delta: nat, frac: nat)
    requires Trailing(t, j, upper, width, one, part2, delta)
    requires 0 < width < upper <= ULP_RATIO * width && 10 * one < TWO64 && frac <= width && NoneWhole(one, upper - width, upper)
    ensures |t| <= 16 && 10 * part2 / one < 10
    ensures var r, rest := t + [CharOf(10 * part2 / one)], 10 * part2 % one;
      && frac * Pow(10, j + 1) <= 10 * delta < TWO64
      && (10 * delta <= rest ==> Trailing(r, j + 1, upper, width, one, rest, 10 * delta))
      && (rest < 10 * delta ==> Stopping(r, 0 - j - 1, one, upper - width, upper, 10 * delta, rest, one))
  {
    TrailingLength(t, j, upper, width, one, part2, delta);
    FractionStep(Value(t), Pow(10, j), upper, width, one, part2, delta, frac);
    ValueAppend(t, CharOf(10 * part2 / one));
    var rest := 10 * part2 % one;
    NegativeGrid(j, one);
    NegativeGrid(j + 1, one);
    if rest < 10 * delta {
      Subtract(upper, width, Pow(10, j));
      NoMultiple(Value(t), one, (upper - width) * Pow(10, j), upper * Pow(10, j), part2);
      assert NoneAt(0 - j, one, upper - width, upper);
    }
  }

  /** The body of the second loop up to its exit test: one digit off the fraction. */
  method TrailingDigit(digits: array<char>, idx: nat, part2: u64, delta: u64, one: u64,
                       ghost t: seq<char>, ghost j: nat, ghost upper: nat, ghost width: nat, ghost frac: nat)
    returns (next: nat, rest: u64, wider: u64, ghost r: seq<char>)
    requires 18 <= digits.Length && idx <= digits.Length && frac <= width
    requires digits[..idx] == t && Trailing(t, j, upper, width, one, part2, delta)
    requires 0 < width < upper <= ULP_RATIO * width && 10 * one < TWO64 && NoneWhole(one, upper - width, upper)
    modifies digits
    ensures next == idx + 1 <= 17 && digits[..next] == r && frac * Pow(10, j + 1) < TWO64
    ensures wider <= rest ==> Trailing(r, j + 1, upper, width, one, rest, wider)
    ensures rest < wider ==> Stopping(r, 0 - j - 1, one, upper - width, upper, wider, rest, one)
  {
    TrailingTurn(t, j, upper, width, one, part2, delta, frac);
    rest, wider := part2 * 10, delta * 10;
    var digit := rest / one;
    next := EmitDigit(digits, idx, digit);
    r := t + [CharOf(digit)];
    rest := rest % one;
  }

  /** More is left over than the interval is wide. */
  lemma WholePassed(P: nat, one: nat, lower: nat, upper: nat, part2: nat, delta: nat)
    requires upper == P * one + part2 && delta < part2 < one && lower == upper - delta
    ensures NoneWhole(one, lower, upper)
  {
    forall d ensures !Within(d, 0, one, lower, upper) {
      if Within(d, 0, one, lower, upper) {
        WholeIs(d, one, lower, upper);
        if d <= P {
          MulMonotone(d, P, one);
        } else {
          MulMonotone(P + 1, d, one);
        }
      }
    }
  }

  lemma WholeIs(d: int, one: nat, lower: nat, upper: nat)
    ensures Within(d, 0, one, lower, upper) <==> lower <= d * one <= upper
  {
    assert Grid(one, 0) == one * Pow(10, 0) == one;
  }

  lemma ScaledFrac(wfrac: nat, j: nat, unit: int, one: nat)
    requires j <= 16 && unit == 18 - j && wfrac * Pow(10, j + 1) < TWO64
    ensures 0 <= wfrac * TENS[unit] < TWO64 && wfrac * TENS[unit] == wfrac * Scale(0 - j - 1)
    ensures Grid(one, 0 - j - 1) == one
  {
    TensArePowers(j + 1);
  }

  /** Where the second loop ends. */
  method RoundTrailing(digits: array<char>, idx: nat, delta: u64, part2: u64, one: u64, wfrac: u64, unit: int, ghost t: seq<char>,
                       ghost j: nat, ghost kappa: int, ghost lower: nat, ghost w: nat, ghost upper: nat)
    requires j <= 16 && unit == 18 - j && kappa == 0 - j - 1 && wfrac * Pow(10, j + 1) < TWO64
    requires idx <= digits.Length && digits[..idx] == t && lower <= w <= upper && w == upper - wfrac
    requires Stopping(t, kappa, one, lower, upper, delta, part2, one)
    modifies digits
    ensures Generated(digits[..idx], kappa, one, lower, w, upper)
  {
    ScaledFrac(wfrac, j, unit, one);
    var frac: u64 := wfrac * TENS[unit];
    RoundGenerated(digits, idx, delta, part2, one, frac, t, kappa, one, lower, w, upper);
  }

  method TrailingDigits(part2Start: u64, one: u64, deltaStart: u64, wfrac: u64, digits: array<char>, count: nat,
                        ghost upper: nat)
    returns (idx: nat, kappa: int)
    requires 18 <= digits.Length && count <= 10
    requires IsNumeral(digits[..count]) && upper == Value(digits[..count]) * one + part2Start
    requires deltaStart < part2Start < one && 10 * one < TWO64
    requires wfrac <= deltaStart && 0 < deltaStart < upper <= ULP_RATIO * deltaStart
    modifies digits
    ensures idx <= 17 && -17 <= kappa < 0
    ensures Generated(digits[..idx], kappa, one, upper - deltaStart, upper - wfrac, upper)
  {
    var part2, delta, unit := part2Start, deltaStart, 18;
    idx, kappa := count, 0;
    ghost var j: nat, t := 0, digits[..count];
    ghost var lower: nat, w: nat := upper - deltaStart, upper - wfrac;
    assert Pow(10, 0) == 1;
    WholePassed(Value(t), one, lower, upper, part2, delta);
    while true
      invariant 0 <= j == 0 - kappa < idx <= 17 && unit == 18 + kappa
      invariant digits[..idx] == t && Trailing(t, j, upper, deltaStart, one, part2, delta)
      decreases 18 - idx
    {
      idx, part2, delta, t := TrailingDigit(digits, idx, part2, delta, one, t, j, upper, deltaStart, wfrac);
      kappa := kappa - 1;
      if part2 < delta {
        RoundTrailing(digits, idx, delta, part2, one, wfrac, unit, t, j, kappa, lower, w, upper);
        return;
      }
      unit := unit - 1;
      j := j + 1;
    }
  }

  lemma OneBounds(n: nat)
    requires 32 <= n <= 60
    ensures 0x1_0000_0000 <= Pow(2, n) <= 0x1000_0000_0000_0000
  {
    PowMonotone(2, 32, n);
    PowMonotone(2, n, 60);
    TwoTo32();
    TwoTo60();
  }

  lemma TwoTo60()
    ensures Pow(2, 60) == 0x1000_0000_0000_0000
  {
    TwoTo32();
    PowAdd(2, 28, 32);
    FastPowIsPow(2, 28);
  }

  lemma Split(upper: nat, one: nat)
    requires 0x1_0000_0000 <= one <= upper < TWO64
    ensures 0 < upper / one < 0x1_0000_0000
    ensures upper / one * one + upper % one == upper
  {
    var q := upper / one;
    assert upper == q * one + upper % one;
    if 0x1_0000_0000 <= q {
      MulMonotone(0x1_0000_0000, q, one);
    }
  }

  /**
    Emits the digits of a number between lower and upper, as close to w as that many digits allow.
    w, upper and lower have the same exponent, in [-60, -32].
   */
  method GenerateDigits(w: Fp, upper: Fp, lower: Fp, digits: array<char>, K0: int) returns (n: nat, K: int)
    requires 18 <= digits.Length && -60 <= upper.exp <= -32
    requires 0 < lower.frac <= w.frac <= upper.frac && lower.frac < upper.frac
    requires Pow(2, -upper.exp) <= upper.frac <= ULP_RATIO * (upper.frac - lower.frac)
    modifies digits
    ensures n <= 17 && -17 <= K - K0 < 10
    ensures Generated(digits[..n], K - K0, Pow(2, -upper.exp), lower.frac, w.frac, upper.frac)
  {
    OneBounds(-upper.exp);
    var wfrac: u64 := upper.frac - w.frac;
    var delta: u64 := upper.frac - lower.frac;
    var one: u64 := Pow(2, -upper.exp);
    Split(upper.frac, one);
    var part1: u64 := upper.frac / one;
    var part2: u64 := upper.frac % one;
    assert Pow(10, 10) == 10000000000;
    var done, idx, kappa := LeadingDigits(part1, part2, one, delta, wfrac, digits);
    if !done {
      idx, kappa := TrailingDigits(part2, one, delta, wfrac, digits, idx, upper.frac);
    }
    n, K := idx, K0 + kappa;
  }
}
