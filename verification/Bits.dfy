/** The bit operations of C on non-negative integers. */
module Bits {
  import opened Powers

  /** The bits set in both. */
  function BitAnd(a: nat, b: nat): (r: nat)
    ensures r <= a && r <= b
  {
    if b == 0 then 0 else 2 * BitAnd(a / 2, b / 2) + if a % 2 == 1 && b % 2 == 1 then 1 else 0
  }

  /** The bits set in one or both. */
  function BitOr(a: nat, b: nat): (r: nat)
    ensures a <= r && b <= r
    decreases a + b
  {
    if a == 0 then b
    else if b == 0 then a
    else 2 * BitOr(a / 2, b / 2) + if a % 2 == 1 || b % 2 == 1 then 1 else 0
  }

  /** a >> k. */
  function Shr(a: nat, k: nat): nat {
    if k == 0 then a else Shr(a / 2, k - 1)
  }

  /** a << k. */
  function Shl(a: nat, k: nat): nat
    decreases k
  {
    if k == 0 then a else Shl(2 * a, k - 1)
  }

  lemma {:induction false} ShrDivides(a: nat, k: nat)
    ensures 0 < Pow(2, k) && Shr(a, k) == a / Pow(2, k)
    decreases k
  {
    PowPositive(2, k);
    if k > 0 {
      ShrDivides(a / 2, k - 1);
      DivTwice(a, 2, Pow(2, k - 1), Pow(2, k));
    }
  }

  lemma {:induction false} ShlMultiplies(a: nat, k: nat)
    ensures Shl(a, k) == a * Pow(2, k)
    decreases k
  {
    if k > 0 {
      ShlMultiplies(2 * a, k - 1);
      var p := Pow(2, k - 1);
      assert 2 * a * p == a * (2 * p);
    }
  }

  lemma {:induction false} MaskIsRemainder(a: nat, k: nat)
    ensures Pow(2, k) > 0 && BitAnd(a, Pow(2, k) - 1) == a % Pow(2, k)
    decreases k
  {
    PowPositive(2, k);
    if k > 0 {
      var p := Pow(2, k - 1);
      MaskIsRemainder(a / 2, k - 1);
      assert Pow(2, k) == 2 * p;
      assert (2 * p - 1) / 2 == p - 1 && (2 * p - 1) % 2 == 1;
      HalfRemainder(a, p);
    }
  }

  lemma HalfRemainder(a: nat, p: nat)
    requires 0 < p
    ensures a % (2 * p) == 2 * (a / 2 % p) + a % 2
  {
    var q, r := a / 2 / p, a / 2 % p;
    assert a == 2 * (p * q + r) + a % 2;
    assert 2 * (p * q) == 2 * p * q;
    DivisionIs(a, 2 * p, q, 2 * r + a % 2);
  }

  lemma {:induction false} AndSelf(x: nat)
    ensures BitAnd(x, x) == x
  {
    if x > 0 {
      AndSelf(x / 2);
    }
  }

  lemma {:induction false} ZeroAnd(b: nat)
    ensures BitAnd(0, b) == 0
  {
    if b > 0 {
      ZeroAnd(b / 2);
    }
  }

  /** A mask shifted left tests the bits shifted right. */
  lemma {:induction false} HighMask(a: nat, t: nat, k: nat, p: nat, m: nat)
    requires p == Pow(2, k) && 0 < p && m == t * p
    ensures BitAnd(a, m) == BitAnd(a / p, t) * p
    decreases k
  {
    if k > 0 {
      var h := Pow(2, k - 1);
      PowPositive(2, k - 1);
      var n := t * h;
      HighMask(a / 2, t, k - 1, h, n);
      DivTwice(a, 2, h, p);
      Twice(t, h, p);
      EvenMask(a, n, m);
      Twice(BitAnd(a / 2 / h, t), h, p);
    }
  }

  lemma EvenMask(a: nat, b: nat, c: nat)
    requires c == 2 * b
    ensures BitAnd(a, c) == 2 * BitAnd(a / 2, b)
  {
    if b > 0 {
      assert c / 2 == b && c % 2 == 0;
    }
  }

  lemma Twice(x: nat, h: nat, p: nat)
    requires p == 2 * h
    ensures 2 * (x * h) == x * p
  {
  }

  /** Bits that do not overlap add up. */
  lemma {:induction false} OrIsSum(a: nat, b: nat)
    requires BitAnd(a, b) == 0
    ensures BitOr(a, b) == a + b
    decreases a + b
  {
    if a > 0 && b > 0 {
      OrIsSum(a / 2, b / 2);
    }
  }

  /** A tag above the low k bits and a payload in them do not overlap. */
  lemma TagPayload(a: nat, t: nat, k: nat, p: nat, m: nat)
    requires p == Pow(2, k) && m == t * p && a < p
    ensures BitAnd(a, m) == 0 && BitOr(a, m) == a + m
  {
    HighMask(a, t, k, p, m);
    DivisionIs(a, p, 0, a);
    ZeroAnd(t);
    OrIsSum(a, m);
  }

  lemma {:induction false} OrCommutes(a: nat, b: nat)
    ensures BitOr(a, b) == BitOr(b, a)
    decreases a + b
  {
    if a > 0 && b > 0 {
      OrCommutes(a / 2, b / 2);
    }
  }

  /** Setting one bit. */
  lemma {:induction false} OrBit(a: nat, k: nat)
    ensures 0 < Pow(2, k) && BitOr(a, Pow(2, k)) == if a / Pow(2, k) % 2 == 1 then a else a + Pow(2, k)
    decreases k
  {
    PowPositive(2, k);
    var p := Pow(2, k);
    if a == 0 {
      assert 0 / p == 0;
    } else if k == 0 {
      assert BitOr(a / 2, 0) == a / 2;
    } else {
      var h := Pow(2, k - 1);
      OrBit(a / 2, k - 1);
      DivTwice(a, 2, h, p);
      assert p / 2 == h && p % 2 == 0;
    }
  }
}
