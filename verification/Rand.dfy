/**
  The pseudo-random generator (src/rand.c): arithmetic on three 16-bit limbs computes one
  48-bit linear congruence, the one POSIX defines for lrand48 and srand48.
 */
module Rand {
  import opened Powers

  const BASE: int := 0x1_0000
  const TWO48: int := 0x1_0000_0000_0000

  const A0: int := 0xE66D
  const A1: int := 0xDEEC
  const A2: int := 0x5
  const C: int := 0xB
  const MULTIPLIER: int := 0x5_DEEC_E66D

  type u32 = x: int | 0 <= x < TWO32
  type u48 = x: int | 0 <= x < TWO48

  /** One step of the generator as POSIX states it. */
  function Lcg(x: u48): u48 {
    (MULTIPLIER * x + C) % TWO48
  }

  function Iterate(x: u48, n: nat): u48 {
    if n == 0 then x else Lcg(Iterate(x, n - 1))
  }

  function Seeded(seed: int): u48 {
    BASE * (seed % TWO32) + 0x330E
  }

  // ----- no state is lost: the step has an inverse -----

  const INVERSE: int := 0xDFE0_5BCB_1365

  function Undo(x: u48): u48 {
    INVERSE * (x + TWO48 - C) % TWO48
  }

  lemma StepBack(x: u48)
    ensures Undo(Lcg(x)) == x
  {
    var k := (MULTIPLIER * x + C) / TWO48;
    var y := MULTIPLIER * x + C - TWO48 * k;
    assert Lcg(x) == y;
    var m := 0x5225586E9;
    assert INVERSE * MULTIPLIER == TWO48 * m + 1;
    assert INVERSE * (y + TWO48 - C) == TWO48 * (m * x + INVERSE - INVERSE * k) + x;
    Remainder(INVERSE * (y + TWO48 - C), m * x + INVERSE - INVERSE * k, x);
  }

  lemma Remainder(n: int, q: int, r: u48)
    requires n == TWO48 * q + r
    ensures n % TWO48 == r
  {
  }

  lemma {:induction false} RunsStayApart(x: u48, y: u48, n: nat)
    requires x != y
    ensures Iterate(x, n) != Iterate(y, n)
  {
    if n != 0 {
      RunsStayApart(x, y, n - 1);
      StepBack(Iterate(x, n - 1));
      StepBack(Iterate(y, n - 1));
    }
  }

  // ----- the macros -----

  function Low(x: int): nat {
    x % BASE
  }

  function High(x: int): nat {
    x / BASE % BASE
  }

  function Carry(x: int, y: int): nat {
    if x + y > BASE - 1 then 1 else 0
  }

  predicate Limb(x: int) {
    0 <= x < BASE
  }

  lemma Split(x: u32)
    ensures x == Low(x) + BASE * High(x) && Limb(Low(x)) && Limb(High(x))
  {
  }

  lemma AddWithCarry(x: int, y: int)
    requires Limb(x) && Limb(y)
    ensures x + y == Low(x + y) + BASE * Carry(x, y)
  {
  }

  lemma Below(x: int, y: int, z: int)
    requires 0 <= x && 0 <= y <= z
    ensures 0 <= x * y <= x * z
  {
  }

  lemma LimbProduct(x: int, y: int)
    requires Limb(x) && Limb(y)
    ensures 0 <= x * y < TWO32
  {
    Below(x, y, BASE - 1);
  }

  ghost function Value(x0: int, x1: int, x2: int): int {
    x0 + BASE * x1 + TWO32 * x2
  }

  lemma ValueOfLimbs(x0: int, x1: int, x2: int, n: int, q: int)
    requires Limb(x0) && Limb(x1) && Limb(x2) && n == TWO48 * q + Value(x0, x1, x2)
    ensures n % TWO48 == Value(x0, x1, x2)
  {
    Remainder(n, q, Value(x0, x1, x2));
  }

  /** The product of the limbs, column by column. */
  lemma Columns(x0: int, x1: int, x2: int)
    ensures MULTIPLIER * Value(x0, x1, x2) + C
      == (A0 * x0 + C) + BASE * (A0 * x1 + A1 * x0) + TWO32 * (A0 * x2 + A1 * x1 + A2 * x0)
       + TWO48 * (A1 * x2 + A2 * x1 + BASE * (A2 * x2))
  {
  }

  class Generator {
    const x: array<nat>
    const a: array<nat>
    var c: nat

    ghost predicate Valid()
      reads this, x, a
    {
      && x.Length == 3 && a.Length == 3 && x != a
      && Limb(x[0]) && Limb(x[1]) && Limb(x[2])
      && a[0] == A0 && a[1] == A1 && a[2] == A2 && c == C
    }

    ghost function State(): u48
      reads this, x, a
      requires Valid()
    {
      Value(x[0], x[1], x[2])
    }

    /** The static initial state. */
    constructor ()
      ensures Valid() && fresh(x) && fresh(a) && State() == 0x1234_ABCD_330E
    {
      x := new nat[] [0x330E, 0xABCD, 0x1234];
      a := new nat[] [A0, A1, A2];
      c := C;
    }

    method Srand48(seed: int)
      requires Valid()
      modifies this, x, a
      ensures Valid() && State() == Seeded(seed)
    {
      x[0], x[1], x[2] := 0x330E, Low(seed), High(seed);
      a[0], a[1], a[2] := A0, A1, A2;
      c := C;
      Split(seed % TWO32);
      SeedLimbs(seed);
    }

    method Next()
      requires Valid()
      modifies x
      ensures Valid() && State() == Lcg(old(State()))
    {
      ghost var x0, x1, x2 := x[0], x[1], x[2];
      var m0 := Mul(a[0], x[0]);
      var m1 := Mul(a[0], x[1]);
      var m2 := Mul(a[1], x[0]);
      var p0, p1 := Low(m0), High(m0);
      var carry0, carry1;
      p0, carry0 := AddEqu(p0, c);
      p1, carry1 := AddEqu(p1, carry0);
      ghost var c0, c1 := carry0, carry1;
      var q0, q1 := Low(m1), High(m1);
      ghost var before := p1;
      p1, carry0 := AddEqu(p1, q0);
      var r0, r1 := Low(m2), High(m2);
      var rest := a[0] * x[2] + a[1] * x[1] + a[2] * x[0];
      var y1, carry2 := AddEqu(p1, r0);
      var y2;
      ghost var k;
      y2, k := LowSum(carry0 + carry1 + carry2 + q1 + r1 + rest);
      x[2] := y2;
      x[1] := y1;
      x[0] := p0;
      Assemble(m0, m1, m2, Low(m0), High(m0), q0, q1, r0, r1, p0, c0, before, c1, p1, carry0, y1, carry2, y2, k, rest);
      StateAfter(x0, x1, x2, m0, m1, m2, rest, p0, y1, y2, k);
    }

    /** The low limb of a sum that wraps at 32 bits. */
    method LowSum(sum: nat) returns (y: nat, ghost k: int)
      ensures Limb(y) && sum == y + BASE * k
    {
      LowOfWrapped(sum);
      y, k := Low(sum % TWO32), sum / BASE;
    }

    /** The product of two limbs in a 32-bit word. */
    method Mul(y: nat, z: nat) returns (l: u32)
      requires Limb(y) && Limb(z)
      ensures l == y * z && l == Low(l) + BASE * High(l) && Limb(Low(l)) && Limb(High(l))
    {
      LimbProduct(y, z);
      l := y * z;
      Split(l);
    }

    method AddEqu(y: nat, z: nat) returns (sum: nat, carry: nat)
      requires Limb(y) && Limb(z)
      ensures Limb(sum) && carry <= 1 && y + z == sum + BASE * carry
    {
      AddWithCarry(y, z);
      sum, carry := Low(y + z), Carry(y, z);
    }

    method Lrand48() returns (r: int)
      requires Valid()
      modifies x
      ensures Valid() && State() == Lcg(old(State()))
      ensures r == State() / 0x2_0000 && 0 <= r < 0x8000_0000
    {
      Next();
      r := x[2] * 0x8000 + x[1] / 2;
    }
  }

  lemma SeedLimbs(seed: int)
    ensures Low(seed) == Low(seed % TWO32) && High(seed) == High(seed % TWO32)
  {
    assert seed == TWO32 * (seed / TWO32) + seed % TWO32;
  }

  /** The carries put the columns together. */
  lemma Assemble(m0: int, m1: int, m2: int, l0: int, h0: int, l1: int, h1: int, l2: int, h2: int,
                 p0: int, c0: int, p1: int, c1: int, s: int, c2: int, y1: int, c3: int, y2: int, k: int, rest: int)
    requires m0 == l0 + BASE * h0 && m1 == l1 + BASE * h1 && m2 == l2 + BASE * h2
    requires l0 + C == p0 + BASE * c0 && h0 + c0 == p1 + BASE * c1
    requires p1 + l1 == s + BASE * c2 && s + l2 == y1 + BASE * c3
    requires c2 + c1 + c3 + h1 + h2 + rest == y2 + BASE * k
    ensures (m0 + C) + BASE * (m1 + m2) + TWO32 * rest == TWO48 * k + Value(p0, y1, y2)
  {
  }

  /** What the columns put together make of the whole state. */
  lemma StateAfter(x0: int, x1: int, x2: int, m0: int, m1: int, m2: int, rest: int, y0: int, y1: int, y2: int, k: int)
    requires m0 == A0 * x0 && m1 == A0 * x1 && m2 == A1 * x0 && rest == A0 * x2 + A1 * x1 + A2 * x0
    requires Limb(x0) && Limb(x1) && Limb(x2) && Limb(y0) && Limb(y1) && Limb(y2)
    requires (m0 + C) + BASE * (m1 + m2) + TWO32 * rest == TWO48 * k + Value(y0, y1, y2)
    ensures Value(y0, y1, y2) == Lcg(Value(x0, x1, x2))
  {
    Columns(x0, x1, x2);
    ValueOfLimbs(y0, y1, y2, MULTIPLIER * Value(x0, x1, x2) + C, k + (A1 * x2 + A2 * x1 + BASE * (A2 * x2)));
  }

  lemma LowOfWrapped(x: nat)
    ensures Low(x % TWO32) == Low(x) && x == Low(x) + BASE * (x / BASE)
  {
    assert x == TWO32 * (x / TWO32) + x % TWO32;
  }

  /** After any seed, any number of calls return the top 31 bits of the successive states. */
  method Draws(seed: int, n: nat) returns (s: seq<int>)
    ensures |s| == n && forall i :: 0 <= i < n ==> s[i] == Iterate(Seeded(seed), i + 1) / 0x2_0000
  {
    var generator := new Generator();
    generator.Srand48(seed);
    s := [];
    for k := 0 to n
      invariant generator.Valid() && fresh(generator) && fresh(generator.x) && fresh(generator.a)
      invariant generator.State() == Iterate(Seeded(seed), k) && |s| == k
      invariant forall i :: 0 <= i < k ==> s[i] == Iterate(Seeded(seed), i + 1) / 0x2_0000
    {
      var r := generator.Lrand48();
      s := s + [r];
    }
  }

  /** Known answers: the states after the seeds 0, 1 and -1, and the numbers returned for them. */
  lemma KnownDraws(zero: u48, one: u48, minus: u48)
    requires zero == Seeded(0) && one == Seeded(1) && minus == Seeded(-1)
    ensures Iterate(zero, 1) == 0x2BBB_62DC_5101 && Iterate(zero, 2) == 0xBFF9_9381_6378
    ensures Iterate(zero, 1) / 0x2_0000 == 366850414 && Iterate(zero, 2) / 0x2_0000 == 1610402240
    ensures Iterate(one, 1) == 0x0AA8_4949_5101 && Iterate(one, 1) / 0x2_0000 == 89400484
    ensures Iterate(minus, 1) == 0x4CCE_7C6F_5101 && Iterate(minus, 1) / 0x2_0000 == 644300343
  {
    assert Iterate(zero, 0) == zero && Iterate(one, 0) == one && Iterate(minus, 0) == minus;
    assert Iterate(zero, 1) == Lcg(0x330E) && Iterate(one, 1) == Lcg(0x1_330E) && Iterate(minus, 1) == Lcg(0xFFFF_FFFF_330E);
    assert Iterate(zero, 2) == Lcg(0x2BBB_62DC_5101);
  }
}
