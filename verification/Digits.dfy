/** Decimal digit strings and the numbers they denote. */
module Digits {
  import opened Powers

  predicate IsDigit(c: char) {
    '0' <= c <= '9'
  }

  function DigitOf(c: char): nat
    requires IsDigit(c)
  {
    c as int - '0' as int
  }

  function CharOf(d: nat): (c: char)
    requires d < 10
    ensures IsDigit(c) && DigitOf(c) == d
  {
    ('0' as int + d) as char
  }

  predicate AllDigits(s: seq<char>) {
    forall i :: 0 <= i < |s| ==> IsDigit(s[i])
  }

  /** The number a digit string denotes, most significant digit first. */
  function Value(s: seq<char>): nat
    requires AllDigits(s)
  {
    if s == [] then 0 else 10 * Value(s[..|s| - 1]) + DigitOf(s[|s| - 1])
  }

  lemma ValueAppend(s: seq<char>, c: char)
    requires AllDigits(s) && IsDigit(c)
    ensures AllDigits(s + [c])
    ensures Value(s + [c]) == 10 * Value(s) + DigitOf(c)
  {
    assert (s + [c])[..|s|] == s;
  }

  /** A numeral with no leading zero. */
  predicate IsNumeral(s: seq<char>) {
    AllDigits(s) && 0 < |s| && s[0] != '0'
  }

  lemma {:induction false} NumeralPositive(s: seq<char>)
    requires IsNumeral(s)
    ensures 0 < Value(s)
  {
    if |s| > 1 {
      NumeralPositive(s[..|s| - 1]);
    } else {
      assert s[..0] == [];
    }
  }

  lemma {:induction false} NumeralLength(s: seq<char>, n: nat, p: nat)
    requires IsNumeral(s) && |s| == n + 1 && p == Pow(10, n)
    ensures p <= Value(s)
  {
    if n > 0 {
      NumeralLength(s[..n], n - 1, Pow(10, n - 1));
    } else {
      assert s[..0] == [];
    }
  }

  lemma {:induction false} ValueBelow(s: seq<char>)
    requires AllDigits(s)
    ensures Value(s) < Pow(10, |s|)
  {
    if s != [] {
      ValueBelow(s[..|s| - 1]);
    }
  }

  /** Decreasing the last digit decreases the number by the same amount. */
  lemma LowerLast(s: seq<char>, steps: nat)
    requires AllDigits(s) && s != [] && steps <= DigitOf(s[|s| - 1])
    ensures var t := s[|s| - 1 := CharOf(DigitOf(s[|s| - 1]) - steps)];
      AllDigits(t) && Value(t) == Value(s) - steps
  {
    var t := s[|s| - 1 := CharOf(DigitOf(s[|s| - 1]) - steps)];
    assert t[..|s| - 1] == s[..|s| - 1];
  }

  /** The decimal numeral of n without leading zeros. */
  function NatText(n: nat): (s: seq<char>)
    ensures AllDigits(s) && s != []
  {
    if n < 10 then [CharOf(n)] else NatText(n / 10) + [CharOf(n % 10)]
  }

  lemma {:induction false} NatTextValue(n: nat)
    ensures Value(NatText(n)) == n
  {
    if n < 10 {
      assert [CharOf(n)] == [] + [CharOf(n)];
      ValueAppend([], CharOf(n));
    } else {
      NatTextValue(n / 10);
      ValueAppend(NatText(n / 10), CharOf(n % 10));
    }
  }

  lemma {:induction false} NatTextIsNumeral(n: nat)
    requires 0 < n
    ensures IsNumeral(NatText(n))
  {
    if 10 <= n {
      NatTextIsNumeral(n / 10);
    }
  }

  lemma TenParts(x: nat, y: nat, d: nat, e: nat)
    requires 10 * x + d == 10 * y + e && d < 10 && e < 10
    ensures x == y && d == e
  {
  }

  lemma ValueParts(s: seq<char>) returns (front: seq<char>, last: char)
    requires AllDigits(s) && s != []
    ensures s == front + [last] && AllDigits(front) && IsDigit(last) && Value(s) == 10 * Value(front) + DigitOf(last)
    ensures |front| == |s| - 1 && (front != [] ==> front[0] == s[0])
  {
    front, last := s[..|s| - 1], s[|s| - 1];
  }

  lemma SameDigit(c: char, d: char)
    requires IsDigit(c) && IsDigit(d) && DigitOf(c) == DigitOf(d)
    ensures c == d
  {
  }

  /** Numerals of one value are one numeral. */
  lemma {:induction false} NumeralIsOne(s: seq<char>, t: seq<char>)
    requires (s == [] || IsNumeral(s)) && (t == [] || IsNumeral(t)) && AllDigits(s) && AllDigits(t) && Value(s) == Value(t)
    ensures s == t
    decreases |s|
  {
    if s == [] || t == [] {
      EmptyIsZero(s, t);
    } else {
      var a, c := ValueParts(s);
      var b, d := ValueParts(t);
      TenParts(Value(a), Value(b), DigitOf(c), DigitOf(d));
      SameDigit(c, d);
      NumeralIsOne(a, b);
    }
  }

  lemma EmptyIsZero(a: seq<char>, b: seq<char>)
    requires (a == [] || IsNumeral(a)) && (b == [] || IsNumeral(b)) && (a == [] || b == [])
    requires AllDigits(a) && AllDigits(b) && Value(a) == Value(b)
    ensures a == [] && b == []
  {
    if a != [] {
      NumeralPositive(a);
    }
    if b != [] {
      NumeralPositive(b);
    }
  }
}
