/**
  The digit generator of Grisu2 (src/fpconv_dtoa.c): the last-digit correction and what it means
  for a decimal to lie in an interval of fixed-point numbers.
 */
module Rounding {
  import opened Powers
  import opened Digits

  function Abs(x: int): nat {
    if x < 0 then -x else x
  }

  /** Decreases the last of ndigits digits while that brings the printed number closer to w. */
  method RoundDigit(digits: array<char>, ndigits: nat, delta: u64, rem: u64, kappa: u64, frac: u64)
    returns (ghost steps: nat)
    requires 0 < ndigits <= digits.Length && IsDigit(digits[ndigits - 1])
    requires 0 < kappa && rem <= delta <= rem + DigitOf(digits[ndigits - 1]) * kappa
    modifies digits
    ensures steps <= DigitOf(old(digits[ndigits - 1]))
    ensures digits[..] == old(digits[..])[ndigits - 1 := CharOf(DigitOf(old(digits[ndigits - 1])) - steps)]
    ensures rem + steps * kappa <= delta
    ensures forall j: nat :: rem + j * kappa <= delta ==>
      Abs(rem + steps * kappa - frac) <= Abs(rem + j * kappa - frac)
  {
    steps := 0;
    ghost var first: int := rem;
    ghost var last := DigitOf(digits[ndigits - 1]);
    ghost var before := digits[..];
    var r: u64 := rem;
    while r < frac && delta - r >= kappa && (r + kappa < frac || frac - r > r + kappa - frac)
      invariant 0 <= r == first + steps * kappa <= delta
      invariant steps <= last
      invariant digits[..] == before[ndigits - 1 := CharOf(last - steps)]
      invariant forall j: nat :: j <= steps ==> Abs(r - frac) <= Abs(first + j * kappa - frac)
      decreases delta - r
    {
      StepFits(first, steps, kappa, delta, last);
      digits[ndigits - 1] := (digits[ndigits - 1] as int - 1) as char;
      r := r + kappa;
      steps := steps + 1;
    }
    forall j: nat | first + j * kappa <= delta
      ensures Abs(r - frac) <= Abs(first + j * kappa - frac)
    {
      if j > steps {
        Farther(first, steps, j, kappa);
      }
    }
  }

  lemma StepFits(first: int, steps: nat, kappa: nat, delta: int, last: nat)
    requires 0 < kappa && first + steps * kappa + kappa <= delta <= first + last * kappa
    ensures steps + 1 <= last && first + (steps + 1) * kappa == first + steps * kappa + kappa
  {
    MulCancel(steps + 1, last, kappa);
  }

  lemma Farther(first: int, i: nat, j: nat, kappa: nat)
    requires i < j
    ensures first + i * kappa + kappa <= first + j * kappa
  {
    MulMonotone(i + 1, j, kappa);
  }
}
