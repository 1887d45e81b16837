/** Integers printed two digits at a time (src/script_luajit.c:647-745). */
module IntegerText {
  import opened Powers
  import opened Digits

  const LLONG_MAX: int := 0x7fff_ffff_ffff_ffff
  const LLONG_MIN: int := -0x8000_0000_0000_0000

  // ----- the table of digit pairs -----

  /** The twenty characters of the table for one tens digit. */
  function Row(tens: nat): (row: seq<char>)
    requires tens < 10
    ensures |row| == 20
  {
    seq(20, i requires 0 <= i < 20 => CharOf(if i % 2 == 0 then tens else i / 2))
  }

  /** Character k of the table 000102...99. */
  function Pairs(k: nat): char
    requires k < 200
  {
    Row(k / 20)[k % 20]
  }

  lemma RowAt(row: seq<char>, tens: nat, units: nat)
    requires tens < 10 && units < 10 && row == Row(tens)
    ensures row[2 * units] == CharOf(tens) && row[2 * units + 1] == CharOf(units)
  {
  }

  lemma PairIndex(t: nat, u: nat)
    requires u < 10
    ensures (20 * t + 2 * u) / 20 == t && (20 * t + 2 * u) % 20 == 2 * u
    ensures (20 * t + 2 * u + 1) / 20 == t && (20 * t + 2 * u + 1) % 20 == 2 * u + 1
  {
  }

  lemma PairAt(i: nat, t: nat, u: nat)
    requires i < 100 && i == 10 * t + u && u < 10
    ensures t < 10 && Pairs(2 * i) == CharOf(t) && Pairs(2 * i + 1) == CharOf(u)
  {
    PairIndex(t, u);
    RowAt(Row(t), t, u);
  }

  // ----- how long a numeral is -----

  /** digits10: a decision tree for up to twelve digits at a time. */
  function Digits10(v: nat): nat {
    if v < 10 then 1
    else if v < 100 then 2
    else if v < 1000 then 3
    else if v < 1_000_000_000_000 then
      if v < 100_000_000 then
        if v < 1_000_000 then
          if v < 10_000 then 4 else 5 + (if v >= 100_000 then 1 else 0)
        else 7 + (if v >= 10_000_000 then 1 else 0)
      else if v < 10_000_000_000 then 9 + (if v >= 1_000_000_000 then 1 else 0)
      else 11 + (if v >= 100_000_000_000 then 1 else 0)
    else 12 + Digits10(v / 1_000_000_000_000)
  }

  lemma {:induction false} DropDigits(v: nat, k: nat, p: nat)
    requires p == Pow(10, k) && p <= v
    ensures 0 < p && |NatText(v)| == k + |NatText(v / p)|
  {
    if k != 0 {
      var q := Pow(10, k - 1);
      PowPositive(10, k - 1);
      DropDigits(v / 10, k - 1, q);
      DivTwice(v, 10, q, p);
    }
  }

  lemma LengthIs(v: nat, k: nat, p: nat)
    requires p == Pow(10, k) && p <= v < 10 * p
    ensures |NatText(v)| == k + 1
  {
    DropDigits(v, k, p);
    QuotientBound(v, p, 10);
  }

  lemma QuotientBound(v: nat, p: nat, b: nat)
    requires 0 < p && v < b * p
    ensures v / p < b
  {
    if b <= v / p {
      MulMonotone(b, v / p, p);
    }
  }

  lemma PowersOfTen()
    ensures Pow(10, 1) == 10 && Pow(10, 2) == 100 && Pow(10, 3) == 1000 && Pow(10, 4) == 10_000
    ensures Pow(10, 5) == 100_000 && Pow(10, 6) == 1_000_000 && Pow(10, 7) == 10_000_000 && Pow(10, 8) == 100_000_000
    ensures Pow(10, 9) == 1_000_000_000 && Pow(10, 10) == 10_000_000_000 && Pow(10, 11) == 100_000_000_000
    ensures Pow(10, 12) == 1_000_000_000_000
  {
    assert Pow(10, 4) == 10_000;
    assert Pow(10, 8) == 100_000_000;
  }

  lemma ShortLength(v: nat)
    requires v < 1_000_000_000_000
    ensures Digits10(v) == |NatText(v)|
  {
    PowersOfTen();
    var k := Digits10(v) - 1;
    if k != 0 {
      LengthIs(v, k, Pow(10, k));
    }
  }

  /** The tree counts exactly the digits of the numeral. */
  lemma {:induction false} Digits10IsLength(v: nat)
    ensures Digits10(v) == |NatText(v)|
  {
    if v < 1_000_000_000_000 {
      ShortLength(v);
    } else {
      PowersOfTen();
      DropDigits(v, 12, 1_000_000_000_000);
      Digits10IsLength(v / 1_000_000_000_000);
    }
  }

  // ----- unsigned -----

  lemma NatTextTwice(v: nat, a: nat, t: nat, u: nat)
    requires v == 10 * (10 * a + t) + u && 0 < a && t < 10 && u < 10
    ensures NatText(v) == NatText(a) + [CharOf(t), CharOf(u)]
  {
    var m := 10 * a + t;
    assert v / 10 == m && v % 10 == u;
    assert m / 10 == a && m % 10 == t;
    assert NatText(v) == NatText(m) + [CharOf(u)];
    assert NatText(m) == NatText(a) + [CharOf(t)];
  }

  lemma TwoDigits(v: nat, a: nat, i: nat)
    requires 100 <= v && a == v / 100 && i == v % 100
    ensures NatText(v) == NatText(a) + [Pairs(2 * i), Pairs(2 * i + 1)]
  {
    var t, u := i / 10, i % 10;
    PairAt(i, t, u);
    NatTextTwice(v, a, t, u);
  }

  lemma TwoDigitText(v: nat, t: nat, u: nat)
    requires v == 10 * t + u && 0 < t < 10 && u < 10
    ensures NatText(v) == [CharOf(t), CharOf(u)]
  {
    assert v / 10 == t && v % 10 == u;
    assert NatText(t) == [CharOf(t)];
  }

  lemma LastDigits(v: nat)
    requires v < 100
    ensures NatText(v) == if v < 10 then [CharOf(v)] else [Pairs(v * 2), Pairs(v * 2 + 1)]
  {
    if 10 <= v {
      var t, u := v / 10, v % 10;
      PairAt(v, t, u);
      TwoDigitText(v, t, u);
    }
  }

  /** One pair, and what is left of the value. */
  method PutPair(dst: array<char>, at: nat, next: nat, v: nat, ghost suffix: seq<char>, ghost whole: seq<char>) returns (rest: nat)
    requires 100 <= v && next + 1 == |NatText(v)| && at + next + 1 + |suffix| <= dst.Length
    requires dst[at + next + 1..at + next + 1 + |suffix|] == suffix && whole == NatText(v) + suffix
    modifies dst
    ensures rest == v / 100 && next == |NatText(rest)| + 1
    ensures dst[..at] == old(dst[..at]) && dst[at + next + 1 + |suffix|..] == old(dst[at + next + 1 + |suffix|..])
    ensures var longer := dst[at + next - 1..at + next + 1 + |suffix|]; whole == NatText(rest) + longer
  {
    var i := v % 100;
    rest := v / 100;
    TwoDigits(v, rest, i);
    dst[at + next] := Pairs(2 * i + 1);
    dst[at + next - 1] := Pairs(2 * i);
    assert dst[at + next - 1..at + next + 1 + |suffix|] == [Pairs(2 * i), Pairs(2 * i + 1)] + suffix;
  }

  method PutLast(dst: array<char>, at: nat, next: nat, v: nat)
    requires v < 100 && next + 1 == |NatText(v)| && at + next < dst.Length
    modifies dst
    ensures dst[at..at + next + 1] == NatText(v)
    ensures dst[..at] == old(dst[..at]) && dst[at + next + 1..] == old(dst[at + next + 1..])
  {
    LastDigits(v);
    if v < 10 {
      dst[at + next] := CharOf(v);
    } else {
      var i := v * 2;
      dst[at + next] := Pairs(i + 1);
      dst[at + next - 1] := Pairs(i);
    }
  }

  /** ull2string into dstlen characters of dst from at on. */
  method Ull2String(dst: array<char>, at: nat, dstlen: nat, value: u64) returns (length: nat)
    requires at + dstlen <= dst.Length
    modifies dst
    ensures length == if |NatText(value)| < dstlen then |NatText(value)| else 0
    ensures dst[..at] == old(dst[..at])
    ensures length != 0 ==> dst[at..at + length] == NatText(value) && dst[at + length] == '\0'
    ensures length == 0 && 0 < dstlen ==> dst[at] == '\0'
  {
    length := Digits10(value);
    Digits10IsLength(value);
    if length >= dstlen {
      if dstlen > 0 {
        dst[at] := '\0';
      }
      return 0;
    }
    dst[at + length] := '\0';
    PutDigits(dst, at, length, value);
  }

  /** The digits from the last to the first, two at a time; the terminator behind them stays. */
  method PutDigits(dst: array<char>, at: nat, length: nat, value: u64)
    requires length == |NatText(value)| && at + length < dst.Length && dst[at + length] == '\0'
    modifies dst
    ensures dst[..at] == old(dst[..at]) && dst[at..at + length] == NatText(value) && dst[at + length] == '\0'
  {
    var next := length - 1;
    var v: nat := value;
    ghost var before := dst[..at];
    assert NatText(v) + [] == NatText(v);
    while v >= 100
      invariant |NatText(v)| == next + 1 <= length && dst[..at] == before && dst[at + length] == '\0'
      invariant NatText(value) == NatText(v) + dst[at + next + 1..at + length]
      decreases v
    {
      ghost var tail := dst[at + length..];
      v := PutPair(dst, at, next, v, dst[at + next + 1..at + length], NatText(value));
      next := next - 2;
      assert dst[at + length] == tail[0];
    }
    PutFirst(dst, at, length, next, v, value);
  }

  /** The one or two digits in front of the others. */
  method PutFirst(dst: array<char>, at: nat, length: nat, next: nat, v: nat, ghost value: nat)
    requires v < 100 && |NatText(v)| == next + 1 <= length && at + length < dst.Length && dst[at + length] == '\0'
    requires NatText(value) == NatText(v) + dst[at + next + 1..at + length]
    modifies dst
    ensures dst[..at] == old(dst[..at]) && dst[at..at + length] == NatText(value) && dst[at + length] == '\0'
  {
    ghost var from, to := at + next + 1, at + length;
    ghost var suffix, tail := dst[from..to], dst[from..];
    assert suffix == tail[..to - from];
    PutLast(dst, at, next, v);
    assert dst[from..] == tail;
    assert dst[from..to] == dst[from..][..to - from];
    assert dst[at..to] == dst[at..from] + dst[from..to];
    assert dst[to] == dst[from..][to - from];
  }

  // ----- signed -----

  /** The canonical decimal of a signed integer. */
  function IntText(n: int): seq<char> {
    if n < 0 then ['-'] + NatText(-n) else NatText(n)
  }

  /** ll2string. The absolute value of LLONG_MIN is formed without negating it. */
  method Ll2String(dst: array<char>, dstlen: nat, svalue: int) returns (length: nat)
    requires dstlen <= dst.Length && LLONG_MIN <= svalue <= LLONG_MAX
    modifies dst
    ensures length == if |IntText(svalue)| < dstlen then |IntText(svalue)| else 0
    ensures length != 0 ==> dst[..length] == IntText(svalue) && dst[length] == '\0'
    ensures length == 0 && 0 < dstlen ==> '\0' in dst[..dstlen]
  {
    var at, left, negative := 0, dstlen, 0;
    var value: u64 := 0;
    if svalue < 0 {
      value := if svalue != LLONG_MIN then -svalue else LLONG_MAX + 1;
      if dstlen < 2 {
        if dstlen > 0 {
          dst[0] := '\0';
          assert dst[..dstlen][0] == '\0';
        }
        return 0;
      }
      negative := 1;
      dst[0] := '-';
      at := 1;
      left := dstlen - 1;
    } else {
      value := svalue;
    }
    length := PutMagnitude(dst, at, left, value);
    if length != 0 {
      length := length + negative;
    }
  }

  /** The digits behind what is already there; nothing when they do not fit. */
  method PutMagnitude(dst: array<char>, at: nat, left: nat, value: u64) returns (length: nat)
    requires at + left <= dst.Length
    modifies dst
    ensures length == if |NatText(value)| < left then |NatText(value)| else 0
    ensures length != 0 ==> dst[..at + length] == old(dst[..at]) + NatText(value) && dst[at + length] == '\0'
    ensures length == 0 && 0 < left ==> '\0' in dst[..at + left]
  {
    length := Ull2String(dst, at, left, value);
    if length != 0 {
      assert dst[..at + length] == dst[..at] + dst[at..at + length];
    } else if 0 < left {
      assert dst[..at + left][at] == '\0';
    }
  }

  /** The text denotes the integer and nothing else does: no two integers share one. */
  lemma IntTextDiffers(m: int, n: int)
    requires IntText(m) == IntText(n)
    ensures m == n
  {
    var a, b := if m < 0 then -m else m, if n < 0 then -n else n;
    NatTextValue(a);
    NatTextValue(b);
    assert m < 0 ==> IntText(m)[1..] == NatText(a);
    assert n < 0 ==> IntText(n)[1..] == NatText(b);
    assert IsDigit(NatText(a)[0]) && IsDigit(NatText(b)[0]);
  }

  /** The one spelling of an integer: a sign only for a negative one, no leading zero, and the value. */
  lemma OneSpelling(n: int, s: seq<char>)
    ensures s == IntText(n) <==>
      if n == 0 then s == "0"
      else if n < 0 then s != "" && s[0] == '-' && IsNumeral(s[1..]) && Value(s[1..]) == -n
      else IsNumeral(s) && Value(s) == n
  {
    if n < 0 {
      NegativeSpelling(-n, s);
    } else if n > 0 {
      PositiveSpelling(n, s);
    }
  }

  lemma PositiveSpelling(n: nat, s: seq<char>)
    requires 0 < n
    ensures s == NatText(n) <==> IsNumeral(s) && Value(s) == n
  {
    NatTextIsNumeral(n);
    NatTextValue(n);
    if IsNumeral(s) && Value(s) == n {
      NumeralIsOne(s, NatText(n));
    }
  }

  lemma NegativeSpelling(n: nat, s: seq<char>)
    requires 0 < n
    ensures s == ['-'] + NatText(n) <==> s != "" && s[0] == '-' && IsNumeral(s[1..]) && Value(s[1..]) == n
  {
    if s != "" && s[0] == '-' {
      PositiveSpelling(n, s[1..]);
      assert s == ['-'] + s[1..];
    }
    NatTextIsNumeral(n);
    NatTextValue(n);
    assert (['-'] + NatText(n))[1..] == NatText(n);
  }

  lemma HundredText(n: nat, h: nat, t: nat, u: nat)
    requires n == 100 * h + 10 * t + u && 0 < h && t < 10 && u < 10
    ensures NatText(n) == NatText(h) + [CharOf(t), CharOf(u)]
  {
    assert n / 10 == 10 * h + t && NatText(10 * h + t) == NatText(h) + [CharOf(t)];
  }

  /** Every digit and the sign. */
  lemma KnownText()
    ensures IntText(-1234567890) == "-1234567890"
  {
    HundredText(1234567890, 12345678, 9, 0);
    HundredText(12345678, 123456, 7, 8);
    HundredText(123456, 1234, 5, 6);
    HundredText(1234, 12, 3, 4);
    assert NatText(12) == NatText(1) + [CharOf(2)];
  }
}
