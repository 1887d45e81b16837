/**
  The four text layouts of a printed double and fpconv_dtoa itself (src/fpconv_dtoa.c:249-373):
  the text, read back as a decimal numeral, is nearest to the double it was printed from.
 */
module Dtoa {
  import opened Powers
  import opened Digits
  import opened Rounding
  import opened Generate
  import opened Doubles
  import opened Grisu
  import opened LongDoubles

  // ----- the text -----

  function Zeros(n: nat): (s: seq<char>)
    ensures |s| == n
  {
    seq(n, _ => '0')
  }

  function PlainText(d: seq<char>, K: nat): seq<char> {
    d + Zeros(K)
  }

  function PointText(d: seq<char>, K: int): seq<char>
    requires K < 0
  {
    if |d| <= -K then "0." + Zeros(-K - |d|) + d else d[..|d| + K] + "." + d[|d| + K..]
  }

  function ScientificHead(d: seq<char>): seq<char>
    requires d != []
  {
    if |d| == 1 then d else [d[0], '.'] + d[1..]
  }

  function ScientificText(d: seq<char>, K: int): seq<char>
    requires d != []
  {
    ScientificHead(d) + ("e" + ([if K + |d| - 1 < 0 then '-' else '+'] + NatText(Abs(K + |d| - 1))))
  }

  /** The digits d times 10^K: a plain integer, a decimal fraction or scientific notation. */
  function EmitText(d: seq<char>, K: int): seq<char>
    requires d != []
  {
    var exp := Abs(K + |d| - 1);
    if 0 <= K && exp < |d| + 7 then PlainText(d, K)
    else if K < 0 && (-7 < K || exp < 4) then PointText(d, K)
    else ScientificText(d, K)
  }

  // ----- reading a decimal numeral -----

  function IndexOf(s: seq<char>, c: char): (i: nat)
    ensures i <= |s| && c !in s[..i] && (i < |s| ==> s[i] == c)
  {
    if s == [] || s[0] == c then 0 else 1 + IndexOf(s[1..], c)
  }

  function Mantissa(s: seq<char>): seq<char> {
    s[..IndexOf(s, 'e')]
  }

  function IntegerPart(s: seq<char>): seq<char> {
    Mantissa(s)[..IndexOf(Mantissa(s), '.')]
  }

  function FractionPart(s: seq<char>): seq<char> {
    var m := Mantissa(s);
    var j := IndexOf(m, '.');
    if j < |m| then m[j + 1..] else []
  }

  function ExponentPart(s: seq<char>): seq<char> {
    var i := IndexOf(s, 'e');
    if i < |s| then s[i + 1..] else "+0"
  }

  /** digits [ . digits ] [ e sign digits ] */
  predicate IsDecimal(s: seq<char>) {
    && AllDigits(IntegerPart(s)) && AllDigits(FractionPart(s)) && IntegerPart(s) != []
    && var e := ExponentPart(s); 1 < |e| && (e[0] == '+' || e[0] == '-') && AllDigits(e[1..])
  }

  lemma DigitsJoin(s: seq<char>, t: seq<char>)
    requires AllDigits(s) && AllDigits(t)
    ensures AllDigits(s + t)
  {
  }

  ghost function ReadDecimal(s: seq<char>): real
    requires IsDecimal(s)
  {
    var e := ExponentPart(s);
    var exp := if e[0] == '-' then 0 - Value(e[1..]) else Value(e[1..]);
    DigitsJoin(IntegerPart(s), FractionPart(s));
    DecimalValue(Value(IntegerPart(s) + FractionPart(s)), exp - |FractionPart(s)|)
  }

  // ----- the two agree -----

  lemma {:induction false} TrailingZeros(d: seq<char>, n: nat)
    requires AllDigits(d)
    ensures AllDigits(d + Zeros(n)) && Value(d + Zeros(n)) == Value(d) * Pow(10, n)
  {
    if n == 0 {
      assert d + Zeros(0) == d;
    } else {
      TrailingZeros(d, n - 1);
      assert d + Zeros(n) == (d + Zeros(n - 1)) + ['0'];
      ValueAppend(d + Zeros(n - 1), '0');
      TimesTen(Value(d), Pow(10, n - 1));
    }
  }

  lemma {:induction false} LeadingZeros(n: nat, d: seq<char>)
    requires AllDigits(d)
    ensures AllDigits(Zeros(n) + d) && Value(Zeros(n) + d) == Value(d)
    decreases |d|
  {
    if d == [] {
      assert Zeros(n) + d == [] + Zeros(n);
      TrailingZeros([], n);
    } else {
      var front := d[..|d| - 1];
      LeadingZeros(n, front);
      assert Zeros(n) + d == (Zeros(n) + front) + [d[|d| - 1]];
      ValueAppend(Zeros(n) + front, d[|d| - 1]);
    }
  }

  lemma IndexIs(s: seq<char>, c: char, i: nat)
    requires i <= |s| && c !in s[..i] && (i < |s| ==> s[i] == c)
    ensures IndexOf(s, c) == i
  {
    var j := IndexOf(s, c);
    assert forall k :: 0 <= k < i ==> s[k] == s[..i][k] != c;
    assert forall k :: 0 <= k < j ==> s[k] == s[..j][k] != c;
  }

  lemma NotADigit(s: seq<char>, c: char)
    requires AllDigits(s) && !IsDigit(c)
    ensures c !in s
  {
  }

  /** A numeral cut into its parts. */
  lemma Parts(whole: seq<char>, fraction: seq<char>, dotted: bool, exponent: seq<char>)
    requires AllDigits(whole) && AllDigits(fraction) && (!dotted ==> fraction == [])
    ensures var m := whole + (if dotted then "." else "") + fraction;
      var s := m + (if exponent == [] then [] else "e" + exponent);
      && IntegerPart(s) == whole && FractionPart(s) == fraction
      && ExponentPart(s) == if exponent == [] then "+0" else exponent
  {
    var m := whole + (if dotted then "." else "") + fraction;
    var s := m + (if exponent == [] then [] else "e" + exponent);
    NotADigit(whole, 'e');
    NotADigit(whole, '.');
    NotADigit(fraction, 'e');
    NotADigit(fraction, '.');
    assert s[..|m|] == m;
    IndexIs(s, 'e', |m|);
    assert exponent != [] ==> s[|m| + 1..] == exponent;
    assert m[..|whole|] == whole;
    IndexIs(m, '.', |whole|);
    assert dotted ==> m[|whole| + 1..] == fraction;
  }

  ghost predicate Reads(s: seq<char>, d: nat, K: int) {
    IsDecimal(s) && ReadDecimal(s) == DecimalValue(d, K)
  }

  lemma PlainReads(d: seq<char>, K: nat)
    requires IsNumeral(d)
    ensures Reads(d + Zeros(K), Value(d), K)
  {
    TrailingZeros(d, K);
    var s := d + Zeros(K);
    Parts(s, [], false, []);
    assert s + [] + [] == s;
    ZeroExponent();
    assert IntegerPart(s) + FractionPart(s) == s;
    PlainValue(Value(d), K, Value(s));
  }

  lemma ZeroExponent()
    ensures AllDigits("+0"[1..]) && Value("+0"[1..]) == 0
  {
    assert "+0"[1..] == "0";
    assert "0"[..0] == [];
  }

  lemma PlainValue(d: nat, K: nat, v: nat)
    requires v == d * Pow(10, K)
    ensures DecimalValue(v, 0) == DecimalValue(d, K)
  {
    Exp10IsPow(K);
    Exp10IsPow(0);
    RealProduct(d, Pow(10, K));
    PlainReal(d, Pow(10, K), v, Exp10(K), Exp10(0), DecimalValue(v, 0), DecimalValue(d, K));
  }

  lemma PlainReal(d: nat, p: nat, v: nat, t: real, o: real, left: real, right: real)
    requires v == d * p && t == p as real && o == 1.0 && left == v as real * o && right == d as real * t
    ensures left == right
  {
    RealProduct(d, p);
  }

  lemma FractionReads(s: seq<char>, whole: seq<char>, fraction: seq<char>, d: seq<char>, K: int)
    requires s == whole + "." + fraction
    requires AllDigits(whole) && AllDigits(fraction) && AllDigits(d) && whole != [] && K == 0 - |fraction|
    requires AllDigits(whole + fraction) && Value(whole + fraction) == Value(d)
    ensures Reads(s, Value(d), K)
  {
    Parts(whole, fraction, true, []);
    assert s + [] == s;
    ZeroExponent();
  }

  /** What the parts of a numeral have to be for it to denote d times 10^K. */
  lemma PartsRead(s: seq<char>, fraction: seq<char>, tail: seq<char>, e: int, d: seq<char>, K: int)
    requires AllDigits(IntegerPart(s)) && AllDigits(fraction) && IntegerPart(s) != [] && AllDigits(d)
    requires FractionPart(s) == fraction && ExponentPart(s) == tail && IntegerPart(s) + fraction == d
    requires 1 < |tail| && AllDigits(tail[1..]) && e == K + |fraction|
    requires (tail[0] == '-' && 0 - Value(tail[1..]) == e) || (tail[0] == '+' && Value(tail[1..]) == e)
    ensures Reads(s, Value(d), K)
  {
  }

  lemma ExponentReads(s: seq<char>, whole: seq<char>, fraction: seq<char>, dotted: bool, tail: seq<char>, d: seq<char>, K: int)
    requires s == whole + (if dotted then "." else "") + fraction + ("e" + tail)
    requires AllDigits(whole) && AllDigits(fraction) && (!dotted ==> fraction == []) && whole != []
    requires AllDigits(d) && whole + fraction == d && 1 < |tail| && AllDigits(tail[1..])
    requires (tail[0] == '-' && 0 - Value(tail[1..]) == K + |fraction|) || (tail[0] == '+' && Value(tail[1..]) == K + |fraction|)
    ensures Reads(s, Value(d), K)
  {
    Parts(whole, fraction, dotted, tail);
    PartsRead(s, fraction, tail, K + |fraction|, d, K);
  }

  lemma HeadParts(d: seq<char>)
    requires d != []
    ensures ScientificHead(d) == d[..1] + (if |d| != 1 then "." else "") + d[1..]
    ensures d[..1] + d[1..] == d
  {
  }

  lemma ScientificReads(s: seq<char>, d: seq<char>, K: int, exp: nat, sign: char)
    requires IsNumeral(d) && s == ScientificHead(d) + ("e" + ([sign] + NatText(exp)))
    requires (sign == '-' && 0 - exp == K + |d| - 1) || (sign == '+' && exp == K + |d| - 1)
    ensures Reads(s, Value(d), K)
  {
    var tail := [sign] + NatText(exp);
    NatTextValue(exp);
    assert tail[1..] == NatText(exp);
    HeadParts(d);
    ExponentReads(s, d[..1], d[1..], |d| != 1, tail, d, K);
  }

  lemma ZeroPrefix(f: seq<char>)
    requires AllDigits(f)
    ensures AllDigits("0" + f) && Value("0" + f) == Value(f)
  {
    LeadingZeros(1, f);
    assert "0" + f == Zeros(1) + f;
  }

  lemma SmallReads(s: seq<char>, d: seq<char>, K: int, z: nat, fraction: seq<char>)
    requires IsNumeral(d) && z == -K - |d| && fraction == Zeros(z) + d && s == "0" + "." + fraction
    ensures Reads(s, Value(d), K)
  {
    LeadingZeros(z, d);
    ZeroPrefix(fraction);
    FractionReads(s, "0", fraction, d, K);
  }

  lemma PointReads(s: seq<char>, d: seq<char>, K: int, k: nat)
    requires IsNumeral(d) && 0 < k == |d| + K < |d| && s == d[..k] + "." + d[k..]
    ensures Reads(s, Value(d), K)
  {
    var whole, fraction := d[..k], d[k..];
    assert whole + fraction == d;
    FractionReads(s, whole, fraction, d, K);
  }

  /** The emitted text reads back as exactly d times 10^K, in all four layouts. */
  lemma EmitReads(d: seq<char>, K: int)
    requires IsNumeral(d)
    ensures Reads(EmitText(d, K), Value(d), K)
  {
    var s, exp := EmitText(d, K), Abs(K + |d| - 1);
    if 0 <= K && exp < |d| + 7 {
      PlainReads(d, K);
    } else if K < 0 && (-7 < K || exp < 4) {
      if |d| <= -K {
        var z: nat := -K - |d|;
        assert s == "0" + "." + (Zeros(z) + d);
        SmallReads(s, d, K, z, Zeros(z) + d);
      } else {
        PointReads(s, d, K, |d| + K);
      }
    } else {
      ScientificReads(s, d, K, exp, if K + |d| - 1 < 0 then '-' else '+');
    }
  }

  lemma {:induction false} NatTextLength(n: nat)
    requires n < 1000
    ensures |NatText(n)| == if n < 10 then 1 else if n < 100 then 2 else 3
  {
    if 10 <= n {
      NatTextLength(n / 10);
    }
  }

  lemma ScientificLength(d: seq<char>, K: int)
    requires d != [] && |d| <= 17 && -900 <= K <= 900
    ensures |ScientificText(d, K)| <= |d| + 6
  {
    NatTextLength(Abs(K + |d| - 1));
  }

  lemma PointLength(d: seq<char>, K: int)
    requires d != [] && |d| <= 17 && K < 0 && (-7 < K || Abs(K + |d| - 1) < 4)
    ensures |PointText(d, K)| <= 24
  {
  }

  /** At most 24 characters without the sign. */
  lemma EmitLength(d: seq<char>, K: int)
    requires d != [] && |d| <= 17 && -900 <= K <= 900
    ensures 0 < |EmitText(d, K)| <= 24
  {
    ScientificLength(d, K);
    if K < 0 && (-7 < K || Abs(K + |d| - 1) < 4) {
      PointLength(d, K);
    }
  }

  /** The bound is attained by seventeen digits with seven zeros behind them, and by nothing else. */
  lemma LongestLayout(d: seq<char>, K: int)
    requires d != [] && |d| <= 17 && -900 <= K <= 900
    ensures |EmitText(d, K)| == 24 <==> |d| == 17 && K == 7
  {
    NatTextLength(Abs(K + |d| - 1));
    EmitLength(d, K);
  }

  // ----- emit_digits -----

  /** memcpy to dest + at. pre is what stood before the text, acc the text so far. */
  method Copy(dest: array<char>, at: nat, src: seq<char>, ghost pre: seq<char>, ghost acc: seq<char>) returns (next: nat)
    requires at + |src| <= dest.Length && dest[..at] == pre + acc
    modifies dest
    ensures next == at + |src| && dest[..next] == pre + (acc + src)
  {
    next := at;
    for i := 0 to |src|
      invariant next == at + i && dest[..next] == (pre + acc) + src[..i]
    {
      dest[next] := src[i];
      next := next + 1;
    }
    assert (pre + acc) + src == pre + (acc + src);
    assert src[..|src|] == src;
  }

  method Put(dest: array<char>, at: nat, c: char, ghost pre: seq<char>, ghost acc: seq<char>) returns (next: nat)
    requires at < dest.Length && dest[..at] == pre + acc
    modifies dest
    ensures next == at + 1 && dest[..next] == pre + (acc + [c])
  {
    dest[at] := c;
    next := at + 1;
    assert (pre + acc) + [c] == pre + (acc + [c]);
  }

  function Hundreds(n: nat): seq<char>
    requires n < 1000
  {
    if n > 99 then [CharOf(n / 100)] else []
  }

  function Tens(n: nat): seq<char>
    requires n < 1000
  {
    if n > 9 then [CharOf(n / 10 % 10)] else []
  }

  function ThreeDigits(n: nat): seq<char>
    requires n < 1000
  {
    Hundreds(n) + Tens(n) + [CharOf(n % 10)]
  }

  lemma ExponentDigits(n: nat)
    requires n < 1000
    ensures NatText(n) == ThreeDigits(n)
  {
  }

  lemma ExponentParts(n: nat, c: nat, rest: nat)
    requires n < 1000 && c == n / 100 && rest == n - c * 100
    ensures rest == n % 100 && rest % 10 == n % 10
    ensures n % 100 > 9 ==> n / 10 % 10 == rest / 10
    ensures 99 < n && rest <= 9 ==> n / 10 % 10 == 0
  {
  }

  /** The hundreds, and what is left of the exponent. */
  method PutHundreds(dest: array<char>, at: nat, exponent: nat, ghost pre: seq<char>, ghost acc: seq<char>)
    returns (next: nat, exp: nat, cent: nat)
    requires exponent < 1000 && at + |Hundreds(exponent)| <= dest.Length && dest[..at] == pre + acc
    modifies dest
    ensures next == at + |Hundreds(exponent)| && dest[..next] == pre + (acc + Hundreds(exponent))
    ensures exp == exponent % 100 && cent == exponent / 100
  {
    next, exp, cent := at, exponent, 0;
    if exp > 99 {
      cent := exp / 100;
      next := Put(dest, next, CharOf(cent), pre, acc);
      exp := exp - cent * 100;
    } else {
      assert acc + [] == acc;
    }
  }

  /** The tens, which are written as zero behind hundreds. */
  method PutTens(dest: array<char>, at: nat, exponent: nat, exp: nat, cent: nat, ghost pre: seq<char>, ghost acc: seq<char>)
    returns (next: nat, digit: nat)
    requires exponent < 1000 && exp == exponent % 100 && cent == exponent / 100
    requires at + |Tens(exponent)| <= dest.Length && dest[..at] == pre + acc
    modifies dest
    ensures next == at + |Tens(exponent)| && dest[..next] == pre + (acc + Tens(exponent)) && digit % 10 == exponent % 10
  {
    ExponentParts(exponent, cent, exp);
    next, digit := at, exp;
    if exp > 9 {
      var dec := exp / 10;
      next := Put(dest, next, CharOf(dec), pre, acc);
      digit := exp - dec * 10;
    } else if cent != 0 {
      next := Put(dest, next, '0', pre, acc);
    } else {
      assert acc + [] == acc;
    }
  }

  /** The exponent digits, at most three of them. */
  method PutExponent(dest: array<char>, at: nat, exponent: nat, ghost pre: seq<char>, ghost acc: seq<char>) returns (next: nat)
    requires exponent < 1000 && at + |ThreeDigits(exponent)| <= dest.Length && dest[..at] == pre + acc
    modifies dest
    ensures next == at + |ThreeDigits(exponent)| && dest[..next] == pre + (acc + ThreeDigits(exponent))
  {
    ghost var h, t, u := Hundreds(exponent), Tens(exponent), [CharOf(exponent % 10)];
    var exp, cent, digit;
    next, exp, cent := PutHundreds(dest, at, exponent, pre, acc);
    next, digit := PutTens(dest, next, exponent, exp, cent, pre, acc + h);
    next := Put(dest, next, CharOf(digit % 10), pre, acc + h + t);
    assert acc + h + t + u == acc + (h + t + u);
  }

  method EmitPlain(d: seq<char>, dest: array<char>, at: nat, K: nat, ghost pre: seq<char>) returns (next: nat)
    requires at + |PlainText(d, K)| <= dest.Length && dest[..at] == pre
    modifies dest
    ensures next == at + |PlainText(d, K)| && dest[..next] == pre + PlainText(d, K)
  {
    assert pre + [] == pre;
    next := Copy(dest, at, d, pre, []);
    assert [] + d == d;
    next := Copy(dest, next, Zeros(K), pre, d);
  }

  method EmitBelowOne(d: seq<char>, dest: array<char>, at: nat, zeros: nat, ghost pre: seq<char>) returns (next: nat)
    requires at + 2 + zeros + |d| <= dest.Length && dest[..at] == pre
    modifies dest
    ensures next == at + 2 + zeros + |d| && dest[..next] == pre + ("0." + Zeros(zeros) + d)
  {
    assert pre + [] == pre;
    next := Put(dest, at, '0', pre, []);
    next := Put(dest, next, '.', pre, [] + ['0']);
    assert ([] + ['0']) + ['.'] == "0.";
    next := Copy(dest, next, Zeros(zeros), pre, "0.");
    next := Copy(dest, next, d, pre, "0." + Zeros(zeros));
  }

  method EmitInside(d: seq<char>, dest: array<char>, at: nat, offset: nat, ghost pre: seq<char>) returns (next: nat)
    requires offset <= |d| && at + |d| + 1 <= dest.Length && dest[..at] == pre
    modifies dest
    ensures next == at + |d| + 1 && dest[..next] == pre + (d[..offset] + ['.'] + d[offset..])
  {
    assert pre + [] == pre;
    next := Copy(dest, at, d[..offset], pre, []);
    assert [] + d[..offset] == d[..offset];
    next := Put(dest, next, '.', pre, d[..offset]);
    next := Copy(dest, next, d[offset..], pre, d[..offset] + ['.']);
  }

  method EmitPoint(d: seq<char>, dest: array<char>, at: nat, K: int, ghost pre: seq<char>) returns (next: nat)
    requires d != [] && K < 0 && at + |PointText(d, K)| <= dest.Length && dest[..at] == pre
    modifies dest
    ensures next == at + |PointText(d, K)| && dest[..next] == pre + PointText(d, K)
  {
    var offset := |d| - Abs(K);
    if offset <= 0 {
      offset := -offset;
      next := EmitBelowOne(d, dest, at, offset, pre);
    } else {
      next := EmitInside(d, dest, at, offset, pre);
    }
  }

  /** The digits with a point after the first one. */
  method EmitHead(d: seq<char>, dest: array<char>, at: nat, neg: bool, ghost pre: seq<char>) returns (next: nat, n: nat)
    requires 0 < |d| <= 17 && at + |ScientificHead(d)| <= dest.Length && dest[..at] == pre
    modifies dest
    ensures next == at + |ScientificHead(d)| && dest[..next] == pre + ScientificHead(d) && n == |d|
  {
    var most := 18 - (if neg then 1 else 0);
    n := if |d| < most then |d| else most;
    assert pre + [] == pre;
    next := Put(dest, at, d[0], pre, []);
    ghost var acc := [] + [d[0]];
    if n > 1 {
      next := Put(dest, next, '.', pre, acc);
      next := Copy(dest, next, d[1..n], pre, acc + ['.']);
      acc := acc + ['.'] + d[1..n];
    }
    assert acc == ScientificHead(d);
  }

  method EmitScientific(d: seq<char>, dest: array<char>, at: nat, K: int, neg: bool, exp: nat, ghost pre: seq<char>)
    returns (next: nat)
    requires 0 < |d| <= 17 && exp == Abs(K + |d| - 1) < 1000
    requires at + |ScientificText(d, K)| <= dest.Length && dest[..at] == pre
    modifies dest
    ensures next == at + |ScientificText(d, K)| && dest[..next] == pre + ScientificText(d, K)
  {
    var n;
    ExponentDigits(exp);
    ghost var head, text := ScientificHead(d), ThreeDigits(exp);
    next, n := EmitHead(d, dest, at, neg, pre);
    var sign := if K + n - 1 < 0 then '-' else '+';
    next := Put(dest, next, 'e', pre, head);
    next := Put(dest, next, sign, pre, head + ['e']);
    next := PutExponent(dest, next, exp, pre, head + ['e'] + [sign]);
    ScientificIs(d, K, exp, head, sign, text);
  }

  lemma ScientificIs(d: seq<char>, K: int, exp: nat, head: seq<char>, sign: char, text: seq<char>)
    requires d != [] && exp == Abs(K + |d| - 1) && head == ScientificHead(d) && text == NatText(exp)
    requires sign == if K + |d| - 1 < 0 then '-' else '+'
    ensures head + ['e'] + [sign] + text == ScientificText(d, K)
  {
    assert head + ['e'] + [sign] + text == head + ("e" + ([sign] + text));
  }

  method EmitDigits(digits: array<char>, n: nat, dest: array<char>, at: nat, K: int, neg: bool) returns (next: nat)
    requires digits != dest && 0 < n <= 17 && n <= digits.Length && -900 <= K <= 900
    requires at + |EmitText(digits[..n], K)| <= dest.Length
    modifies dest
    ensures next == at + |EmitText(digits[..n], K)| <= dest.Length
    ensures dest[..next] == old(dest[..at]) + EmitText(digits[..n], K)
  {
    var d, exp := digits[..n], Abs(K + n - 1);
    if K >= 0 && exp < n + 7 {
      next := EmitPlain(d, dest, at, K, dest[..at]);
    } else if K < 0 && (K > -7 || exp < 4) {
      next := EmitPoint(d, dest, at, K, dest[..at]);
    } else {
      next := EmitScientific(d, dest, at, K, neg, exp, dest[..at]);
    }
  }

  // ----- fpconv_dtoa -----

  function SignText(bits: u64): seq<char> {
    if Negative(bits) then "-" else []
  }

  function SpecialText(bits: u64): seq<char>
    requires IsZero(bits) || !Finite(bits)
  {
    if IsZero(bits) then "0" else if FracField(bits) != 0 then "nan" else "inf"
  }

  ghost function SignedDecimal(bits: u64, unsigned: seq<char>): real
    requires IsDecimal(unsigned)
  {
    if Negative(bits) then -ReadDecimal(unsigned) else ReadDecimal(unsigned)
  }

  /**
    The text names the double: read by any reader that picks the nearest double, it gives the
    same bits back; zero, infinity and not-a-number have their own names.
   */
  ghost predicate Names(text: seq<char>, bits: u64) {
    && SignText(bits) <= text
    && var unsigned := text[|SignText(bits)|..];
      if IsZero(bits) || !Finite(bits) then unsigned == SpecialText(bits)
      else IsDecimal(unsigned) && ReadsAs(SignedDecimal(bits, unsigned), bits)
  }

  /** The text of the printer: a name, or the sign and one of the four layouts of the digits it chose. */
  ghost predicate Printed(text: seq<char>, bits: u64) {
    if IsZero(bits) || !Finite(bits) then text == SignText(bits) + SpecialText(bits)
    else exists d: seq<char>, K: int :: Chosen(d, K, bits) && text == SignText(bits) + EmitText(d, K)
  }

  method FilterSpecial(bits: u64, dest: array<char>, at: nat, ghost pre: seq<char>) returns (next: nat)
    requires at + 3 <= dest.Length && dest[..at] == pre
    modifies dest
    ensures next == at <==> Finite(bits) && !IsZero(bits)
    ensures next == at ==> dest[..] == old(dest[..])
    ensures next != at ==> next == at + |SpecialText(bits)| <= dest.Length && dest[..next] == pre + SpecialText(bits)
  {
    assert pre + [] == pre;
    if IsZero(bits) {
      next := Put(dest, at, '0', pre, []);
    } else if Finite(bits) {
      next := at;
    } else if FracField(bits) != 0 {
      next := Copy(dest, at, "nan", pre, []);
    } else {
      next := Copy(dest, at, "inf", pre, []);
    }
  }

  /** The digits of the magnitude, with the sign put back, name the double. */
  lemma DigitsName(bits: u64, d: seq<char>, K: int, text: seq<char>)
    requires Finite(bits) && !IsZero(bits) && PrintsInside(d, K, bits) && text == SignText(bits) + EmitText(d, K)
    ensures Names(text, bits)
  {
    EmitReads(d, K);
    assert text[|SignText(bits)|..] == EmitText(d, K);
    var x := DecimalValue(Value(d), K);
    if Negative(bits) {
      FlipNegates(bits);
      FlipPositive(bits);
      InsideReadsBack(x, Flip(bits));
      NegatedReadsBack(x, bits);
    } else {
      PositiveBits(bits);
      InsideReadsBack(x, bits);
    }
  }

  lemma PositiveBits(bits: u64)
    requires !IsZero(bits)
    ensures 0 < bits
  {
  }

  lemma FlipPositive(bits: u64)
    requires !IsZero(bits) && Negative(bits)
    ensures 0 < Flip(bits) < SIGN_BIT
    ensures LowerBoundary(Flip(bits)) == LowerBoundary(bits) && UpperBoundary(Flip(bits)) == UpperBoundary(bits)
  {
    FlipNegates(bits);
    SignFields(bits - SIGN_BIT);
  }

  // ----- how long the text gets -----

  /** Seventeen digits before seven zeros, and a sign. */
  ghost predicate LongBits(bits: u64) {
    Negative(bits) && LongDigits(bits)
  }

  lemma LongestIs(d: seq<char>, K: int, long: bool)
    requires d != [] && |d| <= 17 && -900 <= K <= 900 && (long <==> |d| == 17 && K == 7)
    ensures 0 < |EmitText(d, K)| <= 24 && (|EmitText(d, K)| == 24 <==> long)
  {
    EmitLength(d, K);
    LongestLayout(d, K);
  }

  lemma ChosenLength(d: seq<char>, K: int, bits: u64)
    requires Chosen(d, K, bits)
    ensures d != [] && 0 < |EmitText(d, K)| <= 24 && (|EmitText(d, K)| == 24 <==> LongDigits(bits))
  {
    LongExactly(d, K, bits);
    LongestIs(d, K, LongDigits(bits));
  }

  /** The bit patterns for which 24 characters are not enough. */
  lemma TwentyFourEnough(text: seq<char>, d: seq<char>, K: int, bits: u64)
    requires Chosen(d, K, bits) && text == SignText(bits) + EmitText(d, K)
    ensures 0 < |text| <= 25 && (|text| == 25 <==> LongBits(bits))
  {
    ChosenLength(d, K, bits);
  }

  /** -1.2345678901234567e23. */
  const LONG_DOUBLE: u64 := 14175683025761771628

  lemma LongDoubleEnds()
    ensures Finite(LONG_DOUBLE) && !IsZero(LONG_DOUBLE) && Negative(LONG_DOUBLE)
    ensures LowerBoundary(LONG_DOUBLE) == 123456789012345660637184.0
    ensures UpperBoundary(LONG_DOUBLE) == 123456789012345677414400.0
  {
    LongDoubleFp();
    TwoTo23();
  }

  lemma LongDoubleFp()
    ensures ExpField(LONG_DOUBLE) == 1099 && FracField(LONG_DOUBLE) == 2854998426820716
    ensures BuildFp(LONG_DOUBLE) == Fp(7358598054191212, 24)
  {
  }

  lemma TwoTo23()
    ensures Exp2(23) == 8388608.0
  {
    EightMillion();
    Exp2IsPow(23);
  }

  lemma EightMillion()
    ensures Pow(2, 23) == 8388608
  {
    FastPowIsPow(2, 23);
  }

  lemma NoHundredMillion(m: int)
    ensures !(123456789012345660637184.0 < m as real * 100000000.0 < 123456789012345677414400.0)
  {
    if m <= 1234567890123456 {
      assert m as real * 100000000.0 <= 1234567890123456.0 * 100000000.0;
    } else {
      assert m as real >= 1234567890123457.0;
      assert m as real * 100000000.0 >= 1234567890123457.0 * 100000000.0;
    }
  }

  /** Whatever a text of this double is, it has 25 characters. */
  lemma LongDouble(text: seq<char>)
    requires Printed(text, LONG_DOUBLE)
    ensures |text| == 25
  {
    LongDoubleEnds();
    var d: seq<char>, K: int :| Chosen(d, K, LONG_DOUBLE) && text == SignText(LONG_DOUBLE) + EmitText(d, K);
    LongDoubleDigits(d, K);
    LongestLayout(d, K);
  }

  lemma LongDoubleDigits(d: seq<char>, K: int)
    requires PrintsInside(d, K, LONG_DOUBLE)
    ensures |d| == 17 && K == 7
  {
    LongDoubleEnds();
    PowersUsed();
    forall m: int ensures !Between(LowerBoundary(LONG_DOUBLE), DecimalOf(m, 8), UpperBoundary(LONG_DOUBLE)) {
      NoHundredMillion(m);
    }
    LongForced(d, K, LONG_DOUBLE);
  }

  lemma SpecialsAreShort(bits: u64)
    requires IsZero(bits) || !Finite(bits)
    ensures !LongBits(bits)
  {
  }

  /**
    For every one of the 2^64 bit patterns: the text is at most 25 characters, exactly 25 for the
    patterns above, and names the double. dest is the buffer of the caller.
   */
  method FpconvDtoa(bits: u64, dest: array<char>) returns (len: nat)
    requires 24 <= dest.Length && (LongBits(bits) ==> 25 <= dest.Length)
    modifies dest
    ensures 0 < len <= 25 && len <= dest.Length && (len == 25 <==> LongBits(bits))
    ensures Names(dest[..len], bits) && Printed(dest[..len], bits)
  {
    var at, neg := 0, false;
    assert dest[..0] == [];
    if SIGN_BIT <= bits {
      at := Put(dest, at, '-', [], []);
      neg := true;
    }
    len := FilterSpecial(bits, dest, at, SignText(bits));
    if len != at {
      assert dest[..len][at..] == SpecialText(bits);
      SpecialsAreShort(bits);
      return;
    }
    len := PrintDigits(bits, dest, at, neg);
  }

  /** The part behind the sign of a finite double that is not zero. */
  method PrintDigits(bits: u64, dest: array<char>, at: nat, neg: bool) returns (len: nat)
    requires Finite(bits) && !IsZero(bits) && at <= dest.Length && dest[..at] == SignText(bits)
    requires 24 <= dest.Length && (LongBits(bits) ==> 25 <= dest.Length)
    modifies dest
    ensures 0 < len <= 25 && len <= dest.Length && (len == 25 <==> LongBits(bits))
    ensures Names(dest[..len], bits) && Printed(dest[..len], bits)
  {
    var digits := new char[18];
    var n, K := Grisu2(bits, digits);
    TwentyFourEnough(SignText(bits) + EmitText(digits[..n], K), digits[..n], K, bits);
    len := EmitDigits(digits, n, dest, at, K, neg);
    ChosenNames(bits, digits[..n], K, dest[..len]);
  }

  lemma ChosenNames(bits: u64, d: seq<char>, K: int, text: seq<char>)
    requires Finite(bits) && !IsZero(bits) && Chosen(d, K, bits) && text == SignText(bits) + EmitText(d, K)
    ensures Names(text, bits) && Printed(text, bits)
  {
    DigitsName(bits, d, K, text);
    PrintedIs(text, d, K, bits);
  }

  lemma PrintedIs(text: seq<char>, d: seq<char>, K: int, bits: u64)
    requires Finite(bits) && !IsZero(bits) && Chosen(d, K, bits) && text == SignText(bits) + EmitText(d, K)
    ensures Printed(text, bits)
  {
  }

  // ----- different doubles, different texts -----

  lemma DecimalStart(s: seq<char>)
    requires IsDecimal(s)
    ensures s != [] && IsDigit(s[0])
  {
    assert IntegerPart(s)[0] == s[0];
  }

  lemma ZeroText()
    ensures IsDecimal("0") && ReadDecimal("0") == 0.0
  {
    Parts("0", [], false, []);
    assert "0" + [] + [] == "0";
    assert "0" + [] == "0";
    ZeroExponent();
  }

  lemma NamesStart(text: seq<char>, bits: u64)
    requires Names(text, bits) && Finite(bits)
    ensures text != [] && (text[0] == '-' <==> Negative(bits))
  {
    var unsigned := text[|SignText(bits)|..];
    if IsZero(bits) {
      ZeroText();
    }
    DecimalStart(unsigned);
  }

  lemma Nearer(y: real, a: u64, b: u64)
    requires Finite(b) && ReadsAs(y, a) && a != b
    ensures AbsReal(y - Signed(a)) < AbsReal(y - Signed(b))
  {
  }

  lemma NearestIsOne(y: real, a: u64, b: u64)
    requires Finite(a) && Finite(b) && ReadsAs(y, a) && (ReadsAs(y, b) || y == Signed(b))
    ensures a == b
  {
    if a != b {
      Nearer(y, a, b);
      if y != Signed(b) {
        Nearer(y, b, a);
      }
      assert false;
    }
  }

  lemma ZeroSigned(bits: u64)
    requires IsZero(bits)
    ensures Signed(bits) == 0.0 && Finite(bits)
  {
  }

  /** No two finite doubles print alike, so printing loses nothing. */
  lemma TextsDiffer(text: seq<char>, a: u64, b: u64)
    requires Finite(a) && Finite(b) && Names(text, a) && Names(text, b)
    ensures a == b
  {
    NamesStart(text, a);
    NamesStart(text, b);
    var unsigned := text[|SignText(a)|..];
    ZeroText();
    if IsZero(a) && IsZero(b) {
      ZeroBits(a);
      ZeroBits(b);
    } else if IsZero(a) {
      ZeroSigned(a);
      NearestIsOne(SignedDecimal(b, unsigned), b, a);
    } else if IsZero(b) {
      ZeroSigned(b);
      NearestIsOne(SignedDecimal(a, unsigned), a, b);
    } else {
      NearestIsOne(SignedDecimal(a, unsigned), a, b);
    }
  }

  lemma ZeroBits(bits: u64)
    requires IsZero(bits)
    ensures bits == if Negative(bits) then SIGN_BIT else 0
  {
  }
}
