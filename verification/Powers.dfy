/** Integer and real powers, and the arithmetic of products and quotients. */
module Powers {

  const TWO32: int := 0x1_0000_0000
  const TWO64: int := 0x1_0000_0000_0000_0000

  /** A 64-bit unsigned machine word. Every value stored in one is proved to fit. */
  type u64 = x: int | 0 <= x < TWO64

  function Pow(b: nat, n: nat): nat {
    if n == 0 then 1 else b * Pow(b, n - 1)
  }

  lemma {:induction false} PowPositive(b: nat, n: nat)
    requires 0 < b
    ensures 0 < Pow(b, n)
  {
    if n != 0 {
      PowPositive(b, n - 1);
    }
  }

  lemma {:induction false} PowAdd(b: nat, m: nat, n: nat)
    ensures Pow(b, m + n) == Pow(b, m) * Pow(b, n)
  {
    if m == 0 {
    } else {
      PowAdd(b, m - 1, n);
      assert b * (Pow(b, m - 1) * Pow(b, n)) == (b * Pow(b, m - 1)) * Pow(b, n);
    }
  }

  lemma PowMonotone(b: nat, m: nat, n: nat)
    requires 0 < b && m <= n
    ensures Pow(b, m) <= Pow(b, n)
  {
    PowAdd(b, m, n - m);
    PowPositive(b, m);
    PowPositive(b, n - m);
    MulGrows(Pow(b, m), Pow(b, n - m));
  }

  lemma MulGrows(x: nat, y: nat)
    requires 1 <= y
    ensures x <= x * y
  {
  }

  lemma MulMonotone(x: int, y: int, z: int)
    requires x <= y && 0 <= z
    ensures x * z <= y * z
  {
  }

  lemma MulStrict(x: int, y: int, z: int)
    requires x < y && 0 < z
    ensures x * z < y * z
  {
  }

  lemma MulCancelLess(x: int, y: int, z: int)
    requires 0 < z && x * z < y * z
    ensures x < y
  {
    if y <= x {
      MulMonotone(y, x, z);
    }
  }

  lemma MulCancel(x: int, y: int, z: int)
    requires 0 < z && x * z <= y * z
    ensures x <= y
  {
    if y < x {
      MulStrict(y, x, z);
    }
  }

  /** Division and remainder, from the equation they solve. */
  lemma DivisionIs(n: int, d: nat, q: int, r: nat)
    requires 0 < d && n == d * q + r && r < d
    ensures n / d == q && n % d == r
  {
    var k := n / d;
    if q < k {
      MulMonotone(q + 1, k, d);
    } else if k < q {
      MulMonotone(k + 1, q, d);
    }
  }

  lemma Regroup(a: nat, b: nat, p: nat, s: nat, ab: nat)
    requires ab == a * b
    ensures a * (b * p + s) == ab * p + a * s
  {
  }

  lemma DivTwice(x: nat, a: nat, b: nat, ab: nat)
    requires 0 < a && 0 < b && ab == a * b && 0 < ab
    ensures x / a / b == x / ab
  {
    var q, r := x / a, x % a;
    var p, s := q / b, q % b;
    DivTwiceParts(x, a, b, ab, q, r, p, s);
  }

  lemma DivTwiceParts(x: nat, a: nat, b: nat, ab: nat, q: nat, r: nat, p: nat, s: nat)
    requires 0 < ab && ab == a * b && x == a * q + r && q == b * p + s && r < a && s < b
    ensures x / ab == p
  {
    Regroup(a, b, p, s, ab);
    MulMonotone(s + 1, b, a);
    DivisionIs(x, ab, p, a * s + r);
  }

  /** The power by repeated squaring, which evaluates in few steps. */
  function FastPow(b: nat, n: nat): nat {
    if n == 0 then 1
    else if n % 2 == 0 then Square(FastPow(b, n / 2))
    else b * Square(FastPow(b, n / 2))
  }

  function Square(x: nat): nat {
    x * x
  }

  lemma {:induction false} FastPowIsPow(b: nat, n: nat)
    ensures FastPow(b, n) == Pow(b, n)
  {
    if n == 0 {
    } else {
      var h := n / 2;
      FastPowIsPow(b, h);
      PowAdd(b, h, h);
      if n % 2 == 0 {
        assert n == h + h;
      } else {
        assert n - 1 == h + h;
      }
    }
  }

  // ----- real powers -----

  lemma TwoTo32()
    ensures Pow(2, 32) == TWO32
  {
    FastPowIsPow(2, 32);
  }

  /** r is b to the exponent e, which may be negative. */
  ghost predicate IsPower(b: real, e: int, r: real)
    requires b != 0.0
    decreases if e < 0 then -e else e
  {
    if e == 0 then r == 1.0
    else if 0 < e then IsPower(b, e - 1, r / b)
    else IsPower(b, e + 1, r * b)
  }

  lemma {:induction false} PowerExists(b: real, e: int) returns (r: real)
    requires 0.0 < b
    ensures IsPower(b, e, r)
    decreases if e < 0 then -e else e
  {
    if e == 0 {
      r := 1.0;
    } else if 0 < e {
      r := PowerExists(b, e - 1);
      r := StepUp(b, e - 1, r);
    } else {
      r := PowerExists(b, e + 1);
      r := StepDown(b, e + 1, r);
    }
  }

  lemma StepUp(b: real, e: int, q: real) returns (r: real)
    requires 0.0 < b && 0 <= e && IsPower(b, e, q)
    ensures IsPower(b, e + 1, r)
  {
    r := q * b;
    TimesThenOver(q, b);
    assert r / b == q;
  }

  lemma StepDown(b: real, e: int, q: real) returns (r: real)
    requires 0.0 < b && e <= 0 && IsPower(b, e, q)
    ensures IsPower(b, e - 1, r)
  {
    r := q / b;
    OverThenTimes(q, b);
    assert r * b == q;
  }

  lemma TimesThenOver(q: real, b: real)
    requires 0.0 < b
    ensures q * b / b == q
  {
  }

  lemma OverThenTimes(q: real, b: real)
    requires 0.0 < b
    ensures q / b * b == q
  {
  }

  lemma {:induction false} PowerUnique(b: real, e: int, r: real, s: real)
    requires 0.0 < b && IsPower(b, e, r) && IsPower(b, e, s)
    ensures r == s && 0.0 < r
    decreases if e < 0 then -e else e
  {
    if 0 < e {
      PowerUnique(b, e - 1, r / b, s / b);
      OverThenTimes(r, b);
      OverThenTimes(s, b);
      ProductPositive(r / b, b);
    } else if e < 0 {
      PowerUnique(b, e + 1, r * b, s * b);
      TimesThenOver(r, b);
      TimesThenOver(s, b);
      if r <= 0.0 {
        ProductPositive(-r, b);
      }
    }
  }

  lemma ProductPositive(x: real, b: real)
    requires 0.0 < b
    ensures 0.0 < x ==> 0.0 < x * b
    ensures 0.0 <= x ==> (-x) * b <= 0.0
  {
  }

  lemma PowerExistsSomewhere(b: real, e: int)
    requires 0.0 < b
    ensures exists r :: IsPower(b, e, r)
  {
    var r := PowerExists(b, e);
  }

  /** b to the exponent e. */
  ghost function Exp(b: real, e: int): (r: real)
    requires 0.0 < b
    ensures IsPower(b, e, r) && 0.0 < r
  {
    PowerExistsSomewhere(b, e);
    var r :| IsPower(b, e, r);
    PowerUnique(b, e, r, r);
    r
  }

  lemma ExpIs(b: real, e: int, r: real)
    requires 0.0 < b && IsPower(b, e, r)
    ensures r == Exp(b, e)
  {
    PowerUnique(b, e, r, Exp(b, e));
  }

  lemma PowerDown(b: real, e: int, r: real)
    requires 0.0 < b && IsPower(b, e, r)
    ensures IsPower(b, e - 1, r / b)
  {
    OverThenTimes(r, b);
  }

  lemma PowerUp(b: real, e: int, r: real)
    requires 0.0 < b && IsPower(b, e, r)
    ensures IsPower(b, e + 1, r * b)
  {
    TimesThenOver(r, b);
  }

  /** Exponents add, whatever their signs. */
  lemma {:induction false} PowerSum(b: real, e: int, f: int, x: real, y: real, r: real)
    requires 0.0 < b && IsPower(b, e, x) && IsPower(b, f, y) && IsPower(b, e + f, r)
    ensures r == x * y
    decreases if f < 0 then -f else f
  {
    if f == 0 {
      PowerUnique(b, e, r, x);
      TimesOne(x, y);
    } else if 0 < f {
      var s, t := r / b, y / b;
      PowerDown(b, e + f, r);
      PowerSum(b, e, f - 1, x, t, s);
      OverBoth(b, x, y, r, s, t);
    } else {
      var s, t := r * b, y * b;
      PowerUp(b, e + f, r);
      PowerSum(b, e, f + 1, x, t, s);
      TimesBothBy(b, x, y, r, s, t);
    }
  }

  lemma TimesOne(x: real, y: real)
    requires y == 1.0
    ensures x * y == x
  {
  }

  lemma OverBoth(b: real, x: real, y: real, r: real, s: real, t: real)
    requires 0.0 < b && s == r / b && t == y / b && s == x * t
    ensures r == x * y
  {
    assert r == s * b && y == t * b;
    assert x * t * b == x * (t * b);
  }

  lemma TimesBothBy(b: real, x: real, y: real, r: real, s: real, t: real)
    requires 0.0 < b && s == r * b && t == y * b && s == x * t
    ensures r == x * y
  {
    assert x * (y * b) == x * y * b;
    assert (r - x * y) * b == 0.0;
  }

  lemma {:induction false} PowIsPower(b: nat, n: nat)
    requires 0 < b
    ensures IsPower(b as real, n, Pow(b, n) as real)
  {
    if n != 0 {
      var p, q := Pow(b, n - 1), Pow(b, n);
      PowIsPower(b, n - 1);
      NextQuotient(b, p, q);
    }
  }

  lemma NextQuotient(b: nat, p: nat, q: nat)
    requires 0 < b && q == b * p
    ensures q as real / b as real == p as real
  {
    RealProduct(b, p);
    TimesThenOver(p as real, b as real);
  }

  lemma RealProduct(x: int, y: int)
    ensures (x * y) as real == x as real * y as real
  {
  }

  ghost function Exp2(e: int): (r: real)
    ensures 0.0 < r
  {
    Exp(2.0, e)
  }

  lemma Exp2Next(e: int)
    ensures Exp2(e + 1) == 2.0 * Exp2(e)
  {
    PowerUp(2.0, e, Exp2(e));
    ExpIs(2.0, e + 1, Exp2(e) * 2.0);
  }

  lemma Exp2IsPow(n: nat)
    ensures Exp2(n) == Pow(2, n) as real
  {
    PowIsPower(2, n);
    ExpIs(2.0, n, Pow(2, n) as real);
  }

  lemma Exp2Sum(e: int, f: int, x: real, y: real, r: real)
    requires x == Exp2(e) && y == Exp2(f) && r == Exp2(e + f)
    ensures r == x * y
  {
    PowerSum(2.0, e, f, x, y, r);
  }

  /** 2 to a negative exponent is the reciprocal of the integer power. */
  lemma Exp2Inverse(e: int, n: nat, x: real, p: real)
    requires e + n == 0 && x == Exp2(e) && p == Pow(2, n) as real
    ensures x * p == 1.0
  {
    PowIsPower(2, n);
    PowerSum(2.0, e, n, x, p, 1.0);
  }

  ghost function Exp10(e: int): (r: real)
    ensures 0.0 < r
  {
    Exp(10.0, e)
  }

  lemma Exp10IsPow(n: nat)
    ensures Exp10(n) == Pow(10, n) as real
  {
    PowIsPower(10, n);
    ExpIs(10.0, n, Pow(10, n) as real);
  }

  lemma Exp10Sum(e: int, f: int, x: real, y: real, r: real)
    requires x == Exp10(e) && y == Exp10(f) && r == Exp10(e + f)
    ensures r == x * y
  {
    PowerSum(10.0, e, f, x, y, r);
  }

  /** 10 to a negative exponent is the reciprocal of the integer power. */
  lemma Exp10Inverse(e: int, n: nat, x: real, p: real)
    requires e + n == 0 && x == Exp10(e) && p == Pow(10, n) as real
    ensures x * p == 1.0
  {
    PowIsPower(10, n);
    PowerSum(10.0, e, n, x, p, 1.0);
  }
}
