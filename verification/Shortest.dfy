/** What the digits chosen by grisu2 mean in real numbers (src/fpconv_dtoa.c:154-247). */
module Shortest {
  import opened Powers
  import opened Digits
  import opened Rounding
  import opened Generate
  import opened Doubles
  import opened Grisu

  /** d * 10^K lies in the rounding interval, 2 * u away from its ends. */
  ghost predicate Inner(bits: u64, u: real, d: int, K: int) {
    LowerBoundary(bits) + 2.0 * u <= d as real * Exp10(K) <= UpperBoundary(bits) - 2.0 * u
  }

  /** x * 10^K is at most 2 * u farther from mid than d * 10^K. */
  ghost predicate NoFarther(x: int, d: int, K: int, mid: real, u: real) {
    AbsReal(x as real * Exp10(K) - mid) <= AbsReal(d as real * Exp10(K) - mid) + 2.0 * u
  }

  ghost predicate NoneInside(bits: u64, u: real, K: int) {
    forall d: int :: !Inner(bits, u, d, K)
  }

  /**
    No decimal with as many places that is well inside the interval is closer to the double, up to
    2 * u, and none has one place less; u is less than a hundredth of the interval.
   */
  ghost predicate Nearest(text: seq<char>, K: int, bits: u64, u: real)
    requires AllDigits(text)
  {
    && 0.0 < u && 115.0 * u <= UpperBoundary(bits) - LowerBoundary(bits)
    && (forall d: int :: Inner(bits, u, d, K) ==> NoFarther(Value(text), d, K, Magnitude(bits), u))
    && NoneInside(bits, u, K + 1)
  }

  // ----- in scaled numbers -----

  lemma LessScaled(x: real, y: real, z: real)
    requires x < y && 0.0 < z
    ensures x * z < y * z
  {
  }

  lemma LessUnscaled(x: real, y: real, z: real)
    requires x * z <= y * z && 0.0 < z
    ensures x <= y
  {
    if y < x {
      LessScaled(y, x, z);
    }
  }

  /** The integers of the generator against real multiples of the unit. */
  lemma CompareGrid(p: int, s: nat, d: int, g: nat, unit: real, t: real)
    requires g as real * unit == s as real * t && 0 < s && 0.0 < unit
    ensures p * s < d * g <==> p as real * unit < d as real * t
    ensures p * s <= d * g <==> p as real * unit <= d as real * t
  {
    var sr, gr := s as real, g as real;
    RealProduct(p, s);
    RealProduct(d, g);
    SameScale(p as real * sr, p as real * unit, sr, unit, p as real);
    Regroup3(d as real, gr, unit, sr, t);
    Compare(p as real * sr, d as real * gr, p as real * unit, d as real * t, sr, unit);
  }

  lemma SameScale(a: real, b: real, s: real, u: real, p: real)
    requires a == p * s && b == p * u
    ensures a * u == b * s
  {
    assert p * s * u == p * u * s;
  }

  lemma Regroup3(d: real, g: real, u: real, s: real, t: real)
    requires g * u == s * t
    ensures d * g * u == d * t * s
  {
    assert d * g * u == d * (g * u);
    assert d * t * s == d * (s * t);
  }

  /** Two numbers in two scales compare alike. */
  lemma Compare(a: real, b: real, x: real, y: real, s: real, u: real)
    requires a * u == x * s && b * u == y * s && 0.0 < s && 0.0 < u
    ensures a < b <==> x < y
    ensures a <= b <==> x <= y
  {
    if a < b {
      LessScaled(a, b, u);
      if y <= x {
        NotLessScaled(y, x, s);
      }
    } else if b < a {
      LessScaled(b, a, u);
      if x <= y {
        NotLessScaled(x, y, s);
      }
    } else if x < y {
      LessScaled(x, y, s);
    } else if y < x {
      LessScaled(y, x, s);
    }
  }

  lemma NotLessScaled(x: real, y: real, z: real)
    requires x <= y && 0.0 < z
    ensures x * z <= y * z
  {
  }

  /** A decimal well inside the scaled interval is between the narrowed bounds. */
  lemma InnerIsWithin(d: int, pl: nat, pu: nat, g: nat, s: nat, unit: real, t: real, dt: real, low: real, high: real)
    requires g as real * unit == s as real * t && 0 < s && 0.0 < unit && dt == d as real * t
    requires WithinUnit(pl, unit, low) && WithinUnit(pu, unit, high) && 0 < pu
    requires low + 2.0 * unit <= dt <= high - 2.0 * unit
    ensures (pl + 1) * s < d * g <= (pu - 1) * s
  {
    Shift(pl, unit);
    Shift(pu, unit);
    CompareGrid(pl + 1, s, d, g, unit, t);
    CompareGridBack(pu - 1, s, d, g, unit, t);
  }

  lemma Shift(p: nat, unit: real)
    ensures (p + 1) as real * unit == (p - 1) as real * unit + 2.0 * unit
  {
    var x := p as real;
    assert (p + 1) as real == x + 1.0 && (p - 1) as real == x - 1.0;
  }

  lemma CompareGridBack(p: int, s: nat, d: int, g: nat, unit: real, t: real)
    requires g as real * unit == s as real * t && 0 < s && 0.0 < unit && d as real * t <= p as real * unit
    ensures d * g <= p * s
  {
    CompareGrid(p, s, d, g, unit, t);
  }

  lemma GridDistance(d: int, w: nat, g: nat, s: nat, unit: real, t: real, dt: real, wu: real, n: int)
    requires g as real * unit == s as real * t && 0 < s && 0.0 < unit
    requires dt == d as real * t && wu == w as real * unit && n == d * g - w * s
    ensures Abs(n) as real * unit == s as real * AbsReal(dt - wu)
  {
    var z, dg, ws := dt - wu, d as real * g as real, w as real * s as real;
    RealProduct(d, g);
    RealProduct(w, s);
    Regroup3(d as real, g as real, unit, s as real, t);
    SameScale(ws, wu, s as real, unit, w as real);
    Distribute(n as real, dg, ws, unit);
    Distribute(z, dt, wu, s as real);
    assert n as real * unit == z * s as real;
    AbsTimes(n as real, unit);
    AbsTimes(z, s as real);
  }

  lemma Distribute(x: real, a: real, b: real, z: real)
    requires x == a - b
    ensures x * z == a * z - b * z
  {
  }

  lemma AbsTimes(x: real, z: real)
    requires 0.0 < z
    ensures AbsReal(x * z) == AbsReal(x) * z
  {
  }

  /** The choice among the grid points, in scaled real numbers. */
  lemma CloserScaled(x: int, d: int, w: nat, g: nat, s: nat, unit: real, t: real, xt: real, dt: real, wu: real)
    requires g as real * unit == s as real * t && 0 < s && 0.0 < unit
    requires xt == x as real * t && dt == d as real * t && wu == w as real * unit
    requires Abs(x * g - w * s) <= Abs(d * g - w * s)
    ensures AbsReal(xt - wu) <= AbsReal(dt - wu)
  {
    var a, b := x * g - w * s, d * g - w * s;
    GridDistance(x, w, g, s, unit, t, xt, wu, a);
    GridDistance(d, w, g, s, unit, t, dt, wu, b);
    CancelScale(Abs(a) as real, Abs(b) as real, unit, s as real, AbsReal(xt - wu), AbsReal(dt - wu));
  }

  lemma CancelScale(a: real, b: real, unit: real, s: real, p: real, q: real)
    requires a <= b && 0.0 < unit && 0.0 < s && a * unit == s * p && b * unit == s * q
    ensures p <= q
  {
    NotLessScaled(a, b, unit);
    LessUnscaled(p, q, s);
  }

  // ----- back to the double -----

  /** Being within one unit of w costs at most two units. */
  lemma CloserToMid(x: real, d: real, w: real, mid: real, unit: real)
    requires AbsReal(x - w) <= AbsReal(d - w) && AbsReal(w - mid) < unit
    ensures AbsReal(x - mid) <= AbsReal(d - mid) + 2.0 * unit
  {
  }

  lemma Unscale(xt: real, dt: real, xv: real, dv: real, mid: real, midB: real, u: real, b: real, unit: real)
    requires xt == xv * b && dt == dv * b && unit == u * b && 0.0 < b && midB == mid * b
    requires AbsReal(xt - midB) <= AbsReal(dt - midB) + 2.0 * unit
    ensures AbsReal(xv - mid) <= AbsReal(dv - mid) + 2.0 * u
  {
    Distribute(xv - mid, xv, mid, b);
    Distribute(dv - mid, dv, mid, b);
    AbsTimes(xv - mid, b);
    AbsTimes(dv - mid, b);
    SumScaled(AbsReal(dv - mid), u, b, unit);
    LessUnscaled(AbsReal(xv - mid), AbsReal(dv - mid) + 2.0 * u, b);
  }

  lemma SumScaled(p: real, u: real, b: real, unit: real)
    requires unit == u * b
    ensures (p + 2.0 * u) * b == p * b + 2.0 * unit
  {
  }

  lemma DiffScaled(p: real, u: real, b: real, unit: real)
    requires unit == u * b
    ensures (p - 2.0 * u) * b == p * b - 2.0 * unit
  {
  }

  lemma ScaleInner(dv: real, dt: real, low: real, high: real, lowB: real, highB: real, u: real, b: real, unit: real)
    requires dt == dv * b && unit == u * b && 0.0 < b && lowB == low * b && highB == high * b
    requires low + 2.0 * u <= dv <= high - 2.0 * u
    ensures lowB + 2.0 * unit <= dt <= highB - 2.0 * unit
  {
    SumScaled(low, u, b, unit);
    DiffScaled(high, u, b, unit);
    NotLessScaled(low + 2.0 * u, dv, b);
    NotLessScaled(dv, high - 2.0 * u, b);
  }

  /** The narrowed interval is at least 115 units wide. */
  lemma Wide(pl: nat, pu: nat, unit: real, low: real, high: real)
    requires 0.0 < unit && WithinUnit(pl, unit, low) && WithinUnit(pu, unit, high)
    requires 0x1000_0000_0000_0000 <= pu - 1 <= ULP_RATIO * (pu - 1 - (pl + 1))
    ensures 115.0 * unit <= high - low
  {
    var gap := pu - 1 - (pl + 1);
    assert 116 <= gap;
    WideUnits(pl, pu, unit);
  }

  lemma WideUnits(pl: nat, pu: nat, unit: real)
    requires 0.0 < unit && 116 <= pu - 1 - (pl + 1)
    ensures (pl + 1) as real * unit + 116.0 * unit <= (pu - 1) as real * unit
  {
    NotLessScaled((pl + 1) as real + 116.0, (pu - 1) as real, unit);
  }

  lemma Narrower(u: real, b: real, unit: real, low: real, high: real, lowB: real, highB: real)
    requires unit == u * b && 0.0 < b && lowB == low * b && highB == high * b && 115.0 * unit <= highB - lowB
    ensures 115.0 * u <= high - low
  {
    Distribute(high - low, high, low, b);
    assert 115.0 * u * b == 115.0 * unit;
    LessUnscaled(115.0 * u, high - low, b);
  }

  lemma UnitOver(unit: real, b: real) returns (u: real)
    requires 0.0 < unit && 0.0 < b
    ensures unit == u * b && 0.0 < u
  {
    u := unit / b;
    OverThenTimes(unit, b);
  }

  lemma WithinOne(p: nat, unit: real, exact: real, pu: real)
    requires WithinUnit(p, unit, exact) && pu == p as real * unit
    ensures AbsReal(pu - exact) < unit
  {
    var x := p as real;
    assert (p + 1) as real == x + 1.0 && (p - 1) as real == x - 1.0;
  }

  // Each of these speaks of products under names of their own: a product is easily lost otherwise.

  lemma InsideReal(g: nat, s: nat, unit: real, t: real, v: real, b: real, d: int, pl: nat, pu: nat, u: real,
                   low: real, high: real, lowB: real, highB: real, dv: real)
    requires g as real * unit == s as real * t && 0 < s && 0.0 < unit && t == v * b && 0.0 < b && dv == d as real * v
    requires unit == u * b && lowB == low * b && highB == high * b && 0 < pu
    requires WithinUnit(pl, unit, lowB) && WithinUnit(pu, unit, highB)
    requires low + 2.0 * u <= dv <= high - 2.0 * u
    ensures (pl + 1) * s < d * g <= (pu - 1) * s
  {
    var dt := d as real * t;
    TimesThrough(d as real, v, b, t, dv, dt);
    ScaleInner(dv, dt, low, high, lowB, highB, u, b, unit);
    InnerIsWithin(d, pl, pu, g, s, unit, t, dt, lowB, highB);
  }

  lemma TimesThrough(d: real, v: real, b: real, t: real, dv: real, dt: real)
    requires t == v * b && dv == d * v && dt == d * t
    ensures dt == dv * b
  {
    assert d * (v * b) == d * v * b;
  }

  lemma CloserReal(g: nat, s: nat, unit: real, t: real, v: real, b: real, x: int, d: int, w: nat, u: real,
                   mid: real, midB: real, xv: real, dv: real)
    requires g as real * unit == s as real * t && 0 < s && 0.0 < unit && t == v * b && 0.0 < b
    requires unit == u * b && midB == mid * b && xv == x as real * v && dv == d as real * v
    requires WithinUnit(w, unit, midB) && Abs(x * g - w * s) <= Abs(d * g - w * s)
    ensures AbsReal(xv - mid) <= AbsReal(dv - mid) + 2.0 * u
  {
    var xt, dt, wu := x as real * t, d as real * t, w as real * unit;
    TimesThrough(x as real, v, b, t, xv, xt);
    TimesThrough(d as real, v, b, t, dv, dt);
    CloserScaled(x, d, w, g, s, unit, t, xt, dt, wu);
    WithinOne(w, unit, midB, wu);
    CloserToMid(xt, dt, wu, midB, unit);
    Unscale(xt, dt, xv, dv, mid, midB, u, b, unit);
  }

  lemma FrameOf(kappa: int, K: int, k: int, one: nat, e: int, unit: real, v: real, b: real)
    returns (g: nat, s: nat, t: real)
    requires kappa == K + k && e <= 0 && one == Pow(2, -e) && unit == Exp2(e) && v == Exp10(K) && b == Exp10(k)
    ensures g == Grid(one, kappa) && s == Scale(kappa)
    ensures g as real * unit == s as real * t && 0 < s && 0.0 < unit && t == v * b && 0.0 < b
  {
    g, s, t := Grid(one, kappa), Scale(kappa), Exp10(kappa);
    Exp2Inverse(e, -e, unit, one as real);
    GridInReals(one, kappa, g, s, unit, t);
    ScalePositive(kappa);
    Exp10Sum(K, k, v, b, t);
  }

  lemma InnerParts(bits: u64, u: real, d: int, K: int, v: real, low: real, high: real) returns (dv: real)
    requires Inner(bits, u, d, K) && v == Exp10(K) && low == LowerBoundary(bits) && high == UpperBoundary(bits)
    ensures dv == d as real * v && low + 2.0 * u <= dv <= high - 2.0 * u
  {
    dv := d as real * Exp10(K);
  }

  /** The exact ends, the same scaled, and the integers that approximate those. */
  ghost predicate Setting(low: real, mid: real, high: real, lowB: real, midB: real, highB: real,
                          pl: nat, pw: nat, pu: nat, u: real, unit: real, b: real) {
    && unit == u * b && lowB == low * b && midB == mid * b && highB == high * b && 0 < pu
    && WithinUnit(pl, unit, lowB) && WithinUnit(pw, unit, midB) && WithinUnit(pu, unit, highB)
  }

  lemma StepInside(d: int, K: int, k: int, one: nat, e: int, bits: u64, low: real, mid: real, high: real,
                   lowB: real, midB: real, highB: real, pl: nat, pw: nat, pu: nat, u: real, unit: real, b: real)
    requires Setting(low, mid, high, lowB, midB, highB, pl, pw, pu, u, unit, b)
    requires e <= 0 && one == Pow(2, -e) && unit == Exp2(e) && b == Exp10(k)
    requires Inner(bits, u, d, K) && low == LowerBoundary(bits) && high == UpperBoundary(bits)
    ensures StrictlyWithin(d, K + k, one, pl + 1, pu - 1)
  {
    var v := Exp10(K);
    var g, s, t := FrameOf(K + k, K, k, one, e, unit, v, b);
    var dv := InnerParts(bits, u, d, K, v, low, high);
    InsideReal(g, s, unit, t, v, b, d, pl, pu, u, low, high, lowB, highB, dv);
  }

  lemma NoFartherIs(x: int, d: int, K: int, mid: real, u: real, v: real, xv: real, dv: real)
    requires v == Exp10(K) && xv == x as real * v && dv == d as real * v && AbsReal(xv - mid) <= AbsReal(dv - mid) + 2.0 * u
    ensures NoFarther(x, d, K, mid, u)
  {
  }

  lemma StepCloser(x: nat, d: int, K: int, k: int, one: nat, e: int, bits: u64, low: real, mid: real, high: real,
                   lowB: real, midB: real, highB: real, pl: nat, pw: nat, pu: nat, u: real, unit: real, b: real)
    requires Setting(low, mid, high, lowB, midB, highB, pl, pw, pu, u, unit, b)
    requires e <= 0 && one == Pow(2, -e) && unit == Exp2(e) && b == Exp10(k)
    requires Distance(x, K + k, one, pw) <= Distance(d, K + k, one, pw)
    ensures NoFarther(x, d, K, mid, u)
  {
    var v := Exp10(K);
    var g, s, t := FrameOf(K + k, K, k, one, e, unit, v, b);
    var xv, dv := x as real * v, d as real * v;
    CloserReal(g, s, unit, t, v, b, x, d, pw, u, mid, midB, xv, dv);
    NoFartherIs(x, d, K, mid, u, v, xv, dv);
  }

  lemma UnitFor(pl: nat, pu: nat, unit: real, b: real, low: real, high: real, lowB: real, highB: real) returns (u: real)
    requires 0.0 < unit && 0.0 < b && lowB == low * b && highB == high * b
    requires WithinUnit(pl, unit, lowB) && WithinUnit(pu, unit, highB)
    requires 0x1000_0000_0000_0000 <= pu - 1 <= ULP_RATIO * (pu - 1 - (pl + 1))
    ensures unit == u * b && 0.0 < u && 115.0 * u <= high - low
  {
    u := UnitOver(unit, b);
    Wide(pl, pu, unit, lowB, highB);
    Narrower(u, b, unit, low, high, lowB, highB);
  }

  lemma EndsParts(ends: Ends, b: real)
    returns (low: real, mid: real, high: real, lowB: real, midB: real, highB: real)
    requires Scaled(ends) && ends.power == b
    ensures low == ends.low && mid == ends.mid && high == ends.high
    ensures lowB == ends.scaledLow && midB == ends.scaledMid && highB == ends.scaledHigh
    ensures lowB == low * b && midB == mid * b && highB == high * b
  {
    low, mid, high, lowB, midB, highB := ends.low, ends.mid, ends.high, ends.scaledLow, ends.scaledMid, ends.scaledHigh;
  }

  lemma SettingOf(ends: Ends, bits: u64, k: int, pl: nat, pw: nat, pu: nat, unit: real, b: real)
    returns (low: real, mid: real, high: real, lowB: real, midB: real, highB: real, u: real)
    requires Scaled(ends) && EndsOf(ends, bits, k) && Approximated(ends, unit, pl, pw, pu) && b == Exp10(k) && 0.0 < unit
    requires 0x1000_0000_0000_0000 <= pu - 1 <= ULP_RATIO * (pu - 1 - (pl + 1))
    ensures low == LowerBoundary(bits) && mid == Magnitude(bits) && high == UpperBoundary(bits)
    ensures Setting(low, mid, high, lowB, midB, highB, pl, pw, pu, u, unit, b)
    ensures 0.0 < u && 115.0 * u <= high - low
  {
    low, mid, high, lowB, midB, highB := EndsParts(ends, b);
    u := UnitFor(pl, pu, unit, b, low, high, lowB, highB);
  }

  /** The digits the printer chooses are nearest and shortest, up to the accuracy of its arithmetic. */
  lemma ChosenIsNearest(text: seq<char>, K: int, bits: u64) returns (u: real)
    requires Chosen(text, K, bits)
    ensures Nearest(text, K, bits, u)
  {
    var w: Fp, lower: Fp, upper: Fp, k: int :|
      ChosenFrom(text, K, bits, w, lower, upper, k) && ScaledFrom(BuildFp(bits).frac, BuildFp(bits).exp, lower, upper, k);
    u := NearestChoice(text, K, bits, w, lower, upper, k);
  }

  lemma NearestChoice(text: seq<char>, K: int, bits: u64, w: Fp, lower: Fp, upper: Fp, k: int) returns (u: real)
    requires ChosenFrom(text, K, bits, w, lower, upper, k)
    ensures Nearest(text, K, bits, u)
  {
    u := NearestFrom(text, K, k, Pow(2, -upper.exp), upper.exp, bits, ExactEnds(bits, k), lower.frac, w.frac, upper.frac);
  }

  lemma NearestFrom(text: seq<char>, K: int, k: int, one: nat, e: int, bits: u64, ends: Ends, pl: nat, pw: nat, pu: nat)
    returns (u: real)
    requires Scaled(ends) && EndsOf(ends, bits, k) && Approximated(ends, Exp2(e), pl, pw, pu) && e <= 0 && one == Pow(2, -e)
    requires 0x1000_0000_0000_0000 <= pu - 1 <= ULP_RATIO * (pu - 1 - (pl + 1))
    requires Generated(text, K + k, one, pl + 1, pw, pu - 1)
    ensures Nearest(text, K, bits, u)
  {
    var unit, b := Exp2(e), Exp10(k);
    var low, mid, high, lowB, midB, highB;
    low, mid, high, lowB, midB, highB, u := SettingOf(ends, bits, k, pl, pw, pu, unit, b);
    forall d: int | Inner(bits, u, d, K) ensures NoFarther(Value(text), d, K, mid, u) {
      StepInside(d, K, k, one, e, bits, low, mid, high, lowB, midB, highB, pl, pw, pu, u, unit, b);
      assert Within(d, K + k, one, pl + 1, pu - 1);
      StepCloser(Value(text), d, K, k, one, e, bits, low, mid, high, lowB, midB, highB, pl, pw, pu, u, unit, b);
    }
    assert K + 1 + k == K + k + 1;
    NoneShorter(K + 1, k, one, e, bits, low, mid, high, lowB, midB, highB, pl, pw, pu, u, unit, b);
  }

  lemma NoneShorter(K: int, k: int, one: nat, e: int, bits: u64, low: real, mid: real, high: real,
                    lowB: real, midB: real, highB: real, pl: nat, pw: nat, pu: nat, u: real, unit: real, b: real)
    requires Setting(low, mid, high, lowB, midB, highB, pl, pw, pu, u, unit, b)
    requires e <= 0 && one == Pow(2, -e) && unit == Exp2(e) && b == Exp10(k)
    requires low == LowerBoundary(bits) && high == UpperBoundary(bits) && NoneAt(K + k, one, pl + 1, pu - 1)
    ensures NoneInside(bits, u, K)
  {
    forall d: int ensures !Inner(bits, u, d, K) {
      if Inner(bits, u, d, K) {
        StepInside(d, K, k, one, e, bits, low, mid, high, lowB, midB, highB, pl, pw, pu, u, unit, b);
        assert false;
      }
    }
  }
}
