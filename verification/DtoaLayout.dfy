/** Which of the layouts a printed double has (src/fpconv_dtoa.c:249-373), and which text a short decimal gets. */
module DtoaLayout {
  import opened Powers
  import opened Digits
  import opened Rounding
  import opened Generate
  import opened Doubles
  import opened Grisu
  import opened Shortest
  import opened LongDoubles
  import opened Dtoa

  // ----- the layout of given digits -----

  /** Whether digits times 10^K are printed with an exponent. */
  predicate HasExponent(n: nat, K: int) {
    if 0 <= K then 7 < K else K <= -7 && !(-4 < K + n - 1 < 4)
  }

  lemma NoMark(d: seq<char>, c: char)
    requires AllDigits(d) && !IsDigit(c)
    ensures c !in d
  {
  }

  lemma PlainMarks(d: seq<char>, K: nat)
    requires IsNumeral(d)
    ensures IsNumeral(PlainText(d, K)) && 'e' !in PlainText(d, K) && '.' !in PlainText(d, K)
  {
    var s := PlainText(d, K);
    assert AllDigits(s) && s[0] == d[0];
    NoMark(s, 'e');
    NoMark(s, '.');
  }

  lemma PointMarks(d: seq<char>, K: int)
    requires IsNumeral(d) && K < 0
    ensures 'e' !in PointText(d, K) && '.' in PointText(d, K)
  {
    NoMark(d, 'e');
    var s := PointText(d, K);
    if |d| <= -K {
      assert s[1] == '.';
    } else {
      assert s[|d| + K] == '.';
    }
  }

  lemma ScientificMarks(d: seq<char>, K: int)
    requires IsNumeral(d)
    ensures 'e' in ScientificText(d, K)
  {
    var s := ScientificText(d, K);
    assert s[|ScientificHead(d)|] == 'e';
  }

  /** There is an exponent exactly above 10^7 times the digits, or far enough below the point. */
  lemma LayoutOf(d: seq<char>, K: int)
    requires IsNumeral(d)
    ensures 'e' in EmitText(d, K) <==> HasExponent(|d|, K)
  {
    var exp := Abs(K + |d| - 1);
    if 0 <= K && exp < |d| + 7 {
      PlainMarks(d, K);
    } else if K < 0 && (-7 < K || exp < 4) {
      PointMarks(d, K);
    } else {
      ScientificMarks(d, K);
    }
  }

  /** Without an exponent: an integer without a point, or exactly -K digits behind the point. */
  lemma FixedForm(d: seq<char>, K: int)
    requires IsNumeral(d) && 'e' !in EmitText(d, K)
    ensures 0 <= K ==> IsNumeral(EmitText(d, K)) && '.' !in EmitText(d, K)
    ensures K < 0 ==> '.' in EmitText(d, K) && |FractionPart(EmitText(d, K))| == -K
    ensures K < 0 ==> IntegerPart(EmitText(d, K)) == "0" || IsNumeral(IntegerPart(EmitText(d, K)))
  {
    LayoutOf(d, K);
    if 0 <= K {
      PlainMarks(d, K);
    } else {
      PointMarks(d, K);
      PointParts(d, K, EmitText(d, K));
    }
  }

  lemma PointParts(d: seq<char>, K: int, s: seq<char>)
    requires IsNumeral(d) && K < 0 && s == PointText(d, K)
    ensures |FractionPart(s)| == -K && (IntegerPart(s) == "0" || IsNumeral(IntegerPart(s)))
  {
    if |d| <= -K {
      SmallParts(d, -K - |d|, s);
    } else {
      LargeParts(d, |d| + K, s);
    }
  }

  lemma SmallParts(d: seq<char>, zeros: nat, s: seq<char>)
    requires IsNumeral(d) && s == "0." + Zeros(zeros) + d
    ensures |FractionPart(s)| == zeros + |d| && IntegerPart(s) == "0"
  {
    LeadingZeros(zeros, d);
    assert s == "0" + "." + (Zeros(zeros) + d);
    TwoParts("0", Zeros(zeros) + d, s);
  }

  lemma LargeParts(d: seq<char>, n: nat, s: seq<char>)
    requires IsNumeral(d) && 0 < n < |d| && s == d[..n] + "." + d[n..]
    ensures |FractionPart(s)| == |d| - n && IsNumeral(IntegerPart(s))
  {
    TwoParts(d[..n], d[n..], s);
  }

  lemma TwoParts(whole: seq<char>, fraction: seq<char>, s: seq<char>)
    requires AllDigits(whole) && AllDigits(fraction) && s == whole + "." + fraction
    ensures IntegerPart(s) == whole && FractionPart(s) == fraction
  {
    Parts(whole, fraction, true, []);
    assert whole + "." + fraction + [] == s;
  }

  /** With an exponent: one digit before the point, the others behind it, and the exponent without leading zeros. */
  lemma ScientificForm(d: seq<char>, K: int)
    requires IsNumeral(d) && 'e' in EmitText(d, K)
    ensures IntegerPart(EmitText(d, K)) == d[..1] && FractionPart(EmitText(d, K)) == d[1..]
    ensures ExponentPart(EmitText(d, K)) == [if K + |d| - 1 < 0 then '-' else '+'] + NatText(Abs(K + |d| - 1))
    ensures '.' in EmitText(d, K) <==> |d| != 1
  {
    LayoutOf(d, K);
    var s := EmitText(d, K);
    var tail := [if K + |d| - 1 < 0 then '-' else '+'] + NatText(Abs(K + |d| - 1));
    assert s == ScientificText(d, K);
    HeadParts(d);
    Parts(d[..1], d[1..], |d| != 1, tail);
    if |d| != 1 {
      assert s[1] == '.';
    } else {
      NoMark(d, '.');
      NoMark(NatText(Abs(K + |d| - 1)), '.');
    }
  }

  // ----- the layout of a double -----

  lemma PowersGrow(e: int, f: int)
    requires Exp10(e) < Exp10(f)
    ensures e < f
  {
    if f <= e {
      var x, y, r := Exp10(f), Exp10(e - f), Exp10(e);
      Exp10Sum(f, e - f, x, y, r);
      AtLeastOne(e - f, y);
      AtMost(x, y, r);
    }
  }

  /** The power of ten of the first digit. */
  lemma FirstDigit(d: seq<char>, K: int, n: nat)
    requires IsNumeral(d) && |d| == n + 1
    ensures Exp10(K + n) <= DecimalValue(Value(d), K) < Exp10(K + n + 1)
  {
    DigitsBetween(d, n);
    var low, high, t, a, c := Exp10(n), Exp10(n + 1), Exp10(K), Exp10(K + n), Exp10(K + n + 1);
    Exp10Sum(K, n, t, low, a);
    Exp10Sum(K, n + 1, t, high, c);
    ScaledBetween(low, Value(d) as real, high, t, a, DecimalValue(Value(d), K), c);
  }

  lemma DigitsBetween(d: seq<char>, n: nat)
    requires IsNumeral(d) && |d| == n + 1
    ensures Exp10(n) <= Value(d) as real < Exp10(n + 1)
  {
    NumeralLength(d, n, Pow(10, n));
    ValueBelow(d);
    Exp10IsPow(n);
    Exp10IsPow(n + 1);
  }

  lemma ScaledBetween(low: real, v: real, high: real, t: real, a: real, b: real, c: real)
    requires low <= v < high && 0.0 < t && a == t * low && b == v * t && c == t * high
    ensures a <= b < c
  {
    NotLessScaled(low, v, t);
    LessScaled(v, high, t);
  }

  /** The exponent of the first digit is between those of powers of ten around the interval. */
  lemma FirstDigitBetween(d: seq<char>, K: int, bits: u64, low: int, high: int)
    requires PrintsInside(d, K, bits)
    ensures Exp10(low) <= LowerBoundary(bits) ==> low <= K + |d| - 1
    ensures UpperBoundary(bits) <= Exp10(high) ==> K + |d| - 1 < high
  {
    FirstDigit(d, K, |d| - 1);
    if Exp10(low) <= LowerBoundary(bits) {
      PowersGrow(low, K + |d|);
    }
    if UpperBoundary(bits) <= Exp10(high) {
      PowersGrow(K + |d| - 1, high);
    }
  }

  lemma SignHasNoMark(text: seq<char>, bits: u64, unsigned: seq<char>)
    requires text == SignText(bits) + unsigned
    ensures 'e' in text <==> 'e' in unsigned
  {
    if 'e' in unsigned {
      var i :| 0 <= i < |unsigned| && unsigned[i] == 'e';
      assert text[|SignText(bits)| + i] == 'e';
    }
  }

  lemma PrintedLayout(text: seq<char>, bits: u64) returns (d: seq<char>, K: int)
    requires Finite(bits) && !IsZero(bits) && Printed(text, bits)
    ensures PrintsInside(d, K, bits) && text == SignText(bits) + EmitText(d, K)
    ensures 'e' in text <==> HasExponent(|d|, K)
  {
    d, K :| Chosen(d, K, bits) && text == SignText(bits) + EmitText(d, K);
    LayoutOf(d, K);
    SignHasNoMark(text, bits, EmitText(d, K));
  }

  /** From a thousandth to ten thousand there is no exponent. */
  lemma OrdinaryHasNone(text: seq<char>, bits: u64)
    requires Finite(bits) && !IsZero(bits) && Printed(text, bits)
    requires Exp10(-3) <= LowerBoundary(bits) && UpperBoundary(bits) <= Exp10(4)
    ensures 'e' !in text
  {
    var d, K := PrintedLayout(text, bits);
    FirstDigitBetween(d, K, bits, -3, 4);
  }

  /** From 10^24 on, and below a millionth, there is one. */
  lemma ExtremesHaveOne(text: seq<char>, bits: u64)
    requires Finite(bits) && !IsZero(bits) && Printed(text, bits)
    requires Exp10(24) <= LowerBoundary(bits) || UpperBoundary(bits) <= Exp10(-6)
    ensures 'e' in text
  {
    var d, K := PrintedLayout(text, bits);
    FirstDigitBetween(d, K, bits, 24, -6);
  }

  // ----- the sign -----

  lemma FirstIsDigit(d: seq<char>, K: int)
    requires IsNumeral(d)
    ensures EmitText(d, K) != [] && IsDigit(EmitText(d, K)[0])
  {
  }

  /** A text starts with a minus sign exactly when the sign bit is set, for zero, infinity and not-a-number too. */
  lemma SignShown(text: seq<char>, bits: u64)
    requires Printed(text, bits)
    ensures text != [] && (text[0] == '-' <==> 0x8000_0000_0000_0000 <= bits)
  {
    if Finite(bits) && !IsZero(bits) {
      var d: seq<char>, K: int :| Chosen(d, K, bits) && text == SignText(bits) + EmitText(d, K);
      FirstIsDigit(d, K);
      SignInFront(text, bits, EmitText(d, K));
    } else {
      SignInFront(text, bits, SpecialText(bits));
    }
  }

  lemma SignInFront(text: seq<char>, bits: u64, unsigned: seq<char>)
    requires text == SignText(bits) + unsigned && unsigned != [] && unsigned[0] != '-'
    ensures text[0] == '-' <==> 0x8000_0000_0000_0000 <= bits
  {
  }

  // ----- the names -----

  /** Sign aside, 0 is zero, 0x7ff0000000000000 is infinity, and what is above is not a number. */
  lemma SpecialNames(bits: u64)
    ensures var m := bits % SIGN_BIT;
      && (IsZero(bits) <==> m == 0) && (Finite(bits) <==> m < 0x7FF0_0000_0000_0000)
      && (m == 0 ==> SpecialText(bits) == "0") && (m == 0x7FF0_0000_0000_0000 ==> SpecialText(bits) == "inf")
      && (0x7FF0_0000_0000_0000 < m ==> SpecialText(bits) == "nan")
  {
    var m := bits % SIGN_BIT;
    FieldsOf(bits, m);
  }

  lemma FieldsOf(bits: u64, m: nat)
    requires m == bits % SIGN_BIT
    ensures FracField(bits) == m % HIDDEN_BIT && ExpField(bits) == m / HIDDEN_BIT < 2048
  {
    if SIGN_BIT <= bits {
      assert m == bits - SIGN_BIT;
      SignFields(m);
    }
  }

  // ----- short decimals -----

  /** At least a fiftieth of the interval away from its ends. */
  ghost predicate Centred(x: real, low: real, high: real) {
    50.0 * low + (high - low) <= 50.0 * x <= 50.0 * high - (high - low)
  }

  /** d * 10^K is a multiple of every smaller power of ten. */
  lemma {:induction false} Finer(d: nat, K: int, j: int) returns (m: nat)
    requires j <= K
    ensures DecimalValue(d, K) == DecimalValue(m, j)
    decreases K - j
  {
    if j == K {
      m := d;
    } else {
      TenTimes(d, K);
      m := Finer(10 * d, K - 1, j);
    }
  }

  /** And then a multiple of ten unless the powers are the same. */
  lemma FinerIsTens(d: nat, K: int, j: int) returns (m: nat)
    requires j < K
    ensures DecimalValue(d, K) == DecimalValue(10 * m, j)
  {
    m := Finer(d, K, j + 1);
    TenTimes(m, j + 1);
  }

  /** One multiple of a power of ten fits in an interval narrower than that. */
  lemma OneMultiple(a: nat, b: nat, K: int, low: real, high: real)
    requires high - low < Exp10(K) && Between(low, DecimalValue(a, K), high) && Between(low, DecimalValue(b, K), high)
    ensures a == b
  {
    var t := Exp10(K);
    if a < b {
      Apart(a as real, b as real, t, DecimalValue(a, K), DecimalValue(b, K));
    } else if b < a {
      Apart(b as real, a as real, t, DecimalValue(b, K), DecimalValue(a, K));
    }
  }

  lemma Apart(a: real, b: real, t: real, x: real, y: real)
    requires a + 1.0 <= b && 0.0 < t && x == a * t && y == b * t
    ensures x + t <= y
  {
    NotLessScaled(a + 1.0, b, t);
    assert (a + 1.0) * t == a * t + t;
  }

  lemma LastDigit(d: seq<char>, m: nat)
    requires IsNumeral(d) && Value(d) == 10 * m
    ensures d[|d| - 1] == '0'
  {
    var front, last := ValueParts(d);
    TenParts(Value(front), m, DigitOf(last), 0);
  }

  lemma CentredIsInner(bits: u64, u: real, d: nat, K: int, x: real)
    requires x == DecimalValue(d, K) && Centred(x, LowerBoundary(bits), UpperBoundary(bits))
    requires 0.0 < u && 115.0 * u <= UpperBoundary(bits) - LowerBoundary(bits)
    ensures Inner(bits, u, d, K)
  {
  }

  /** A decimal well inside the interval is not printed with more places than it has. */
  lemma NoMorePlaces(d: seq<char>, K: int, bits: u64, d0: nat, K0: int)
    requires Chosen(d, K, bits) && Centred(DecimalValue(d0, K0), LowerBoundary(bits), UpperBoundary(bits))
    ensures K0 <= K
  {
    if K < K0 {
      var u := ChosenIsNearest(d, K, bits);
      var m := Finer(d0, K0, K + 1);
      CentredIsInner(bits, u, m, K + 1, DecimalValue(d0, K0));
    }
  }

  /**
    A decimal well inside the rounding interval of a double, with no other of as many places in it, is what is
    printed: numbers written with few digits come out as they were written.
   */
  lemma ShortDecimal(text: seq<char>, bits: u64, d0: seq<char>, K0: int)
    requires Finite(bits) && !IsZero(bits) && Printed(text, bits) && IsNumeral(d0) && d0[|d0| - 1] != '0'
    requires Centred(DecimalValue(Value(d0), K0), LowerBoundary(bits), UpperBoundary(bits))
    requires UpperBoundary(bits) - LowerBoundary(bits) < Exp10(K0)
    ensures text == SignText(bits) + EmitText(d0, K0)
  {
    var d: seq<char>, K: int :| Chosen(d, K, bits) && text == SignText(bits) + EmitText(d, K);
    NoMorePlaces(d, K, bits, Value(d0), K0);
    SameDecimal0(d, K, d0, K0, LowerBoundary(bits), UpperBoundary(bits));
  }

  lemma SameDecimal0(d: seq<char>, K: int, d0: seq<char>, K0: int, low: real, high: real)
    requires IsNumeral(d) && IsNumeral(d0) && d0[|d0| - 1] != '0' && K0 <= K && low < high && high - low < Exp10(K0)
    requires Between(low, DecimalValue(Value(d), K), high) && Centred(DecimalValue(Value(d0), K0), low, high)
    ensures d == d0 && K == K0
  {
    if K0 < K {
      var m := FinerIsTens(Value(d), K, K0);
      OneMultiple(10 * m, Value(d0), K0, low, high);
      LastDigit(d0, m);
    } else {
      OneMultiple(Value(d), Value(d0), K0, low, high);
      NumeralIsOne(d, d0);
    }
  }

  /** 3.14159265. */
  const PI_DIGITS: u64 := 0x4009_21FB_53C8_D4F1

  lemma PiEnds()
    ensures LowerBoundary(PI_DIGITS) == 14148475487889889.0 * Exp2(-52)
    ensures UpperBoundary(PI_DIGITS) == 14148475487889891.0 * Exp2(-52)
    ensures Finite(PI_DIGITS) && !IsZero(PI_DIGITS) && !Negative(PI_DIGITS)
  {
    assert ExpField(PI_DIGITS) == 1024 && FracField(PI_DIGITS) == 2570638116574449;
    assert BuildFp(PI_DIGITS) == Fp(7074237743944945, -51);
  }

  lemma PiPowers(x: real, y: real)
    requires x == Exp2(-52) && y == Exp10(-8)
    ensures x * 4503599627370496.0 == 1.0 && y * 100000000.0 == 1.0
  {
    assert FastPow(2, 26) == 67108864;
    FastPowIsPow(2, 52);
    Exp2Inverse(-52, 52, x, Pow(2, 52) as real);
    FastPowIsPow(10, 8);
    Exp10Inverse(-8, 8, y, Pow(10, 8) as real);
  }

  lemma PiCentred(x: real, y: real, low: real, high: real, v: real)
    requires x * 4503599627370496.0 == 1.0 && y * 100000000.0 == 1.0
    requires low == 14148475487889889.0 * x && high == 14148475487889891.0 * x && v == 314159265.0 * y
    ensures Centred(v, low, high) && high - low < y
  {
  }

  lemma OneMoreDigit(d: seq<char>, k: nat)
    requires AllDigits(d) && k < |d|
    ensures Value(d[..k + 1]) == 10 * Value(d[..k]) + DigitOf(d[k])
  {
    assert d[..k + 1][..k] == d[..k];
  }

  lemma PiDigits(d: seq<char>)
    requires d == ['3', '1', '4', '1', '5', '9', '2', '6', '5']
    ensures IsNumeral(d) && Value(d) == 314159265
  {
    PiFront(d);
    OneMoreDigit(d, 5);
    OneMoreDigit(d, 6);
    OneMoreDigit(d, 7);
    OneMoreDigit(d, 8);
    assert d[..9] == d;
  }

  lemma PiFront(d: seq<char>)
    requires d == ['3', '1', '4', '1', '5', '9', '2', '6', '5']
    ensures AllDigits(d) && Value(d[..5]) == 31415
  {
    assert d[..0] == [];
    OneMoreDigit(d, 0);
    OneMoreDigit(d, 1);
    OneMoreDigit(d, 2);
    OneMoreDigit(d, 3);
    OneMoreDigit(d, 4);
  }

  lemma PiText(d: seq<char>)
    requires IsNumeral(d) && |d| == 9
    ensures EmitText(d, -8) == d[..1] + "." + d[1..]
  {
  }

  lemma PiSpelled(d: seq<char>)
    requires d == ['3', '1', '4', '1', '5', '9', '2', '6', '5']
    ensures d[..1] + "." + d[1..] == "3.14159265"
  {
  }

  lemma PiNumeral() returns (d: seq<char>)
    ensures IsNumeral(d) && |d| == 9 && d[8] != '0' && Value(d) == 314159265 && d[..1] + "." + d[1..] == "3.14159265"
  {
    d := ['3', '1', '4', '1', '5', '9', '2', '6', '5'];
    PiDigits(d);
    PiSpelled(d);
  }

  lemma PiIsCentred(v: nat)
    requires v == 314159265
    ensures Centred(DecimalValue(v, -8), LowerBoundary(PI_DIGITS), UpperBoundary(PI_DIGITS))
    ensures UpperBoundary(PI_DIGITS) - LowerBoundary(PI_DIGITS) < Exp10(-8)
  {
    PiEnds();
    PiPowers(Exp2(-52), Exp10(-8));
    PiCentred(Exp2(-52), Exp10(-8), LowerBoundary(PI_DIGITS), UpperBoundary(PI_DIGITS), DecimalValue(v, -8));
  }

  /** Whatever text is printed for it, it is this one. */
  lemma PiPrints(text: seq<char>)
    requires Printed(text, PI_DIGITS)
    ensures text == "3.14159265"
  {
    var d := PiNumeral();
    PiPrinted(text, d);
    PiText(d);
  }

  lemma PiPrinted(text: seq<char>, d: seq<char>)
    requires Printed(text, PI_DIGITS) && IsNumeral(d) && Value(d) == 314159265 && d[|d| - 1] != '0' && |d| == 9
    ensures text == EmitText(d, -8)
  {
    PiEnds();
    PiIsCentred(Value(d));
    ShortDecimal(text, PI_DIGITS, d, -8);
  }
}
