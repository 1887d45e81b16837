/** The characters of JSON, and every way to write what the tokenizer reads (RFC 8259, src/lua_cjson.c:133-170, 735-872). */
module JsonSpelling {
  import opened Bytes
  import opened JsonText
  import opened JsonCodec
  import opened JsonRoundTrip
  import Digits

  // ----- characters and words -----

  /** Section 2 of RFC 8259: the structural characters and white space. */
  lemma StructuralCharacters()
    ensures [OBJ_BEGIN, OBJ_END, ARR_BEGIN, ARR_END, COLON, COMMA, QUOTE, BACKSLASH] == Ascii("{}[]:,\"\\")
    ensures forall c: byte :: IsSpace(c) <==> c in Ascii(" \t\n\r")
  {
    var s := Ascii(" \t\n\r");
    assert s[0] == 0x20 && s[1] == 0x09 && s[2] == 0x0a && s[3] == 0x0d;
  }

  /** Section 3: the three words. */
  lemma Words()
    ensures TRUE == Ascii("true") && FALSE == Ascii("false") && NULL == Ascii("null")
  {
  }

  /** Section 7: what each short escape stands for, and that no other letter is one. */
  lemma ShortEscapes(c: byte)
    ensures c == '\"' as int || c == '\\' as int || c == '/' as int ==> Unescape(c) == c
    ensures Unescape('b' as int) == 8 && Unescape('f' as int) == 12 && Unescape('n' as int) == '\n' as int
    ensures Unescape('r' as int) == '\r' as int && Unescape('t' as int) == '\t' as int
    ensures Unescape(c) == 0 <==> c !in Ascii("\"\\/bfnrtu")
    ensures Unescape(c) == LOWER_U <==> c == 'u' as int
  {
    var s := Ascii("\"\\/bfnrtu");
    assert s[0] == 0x22 && s[1] == 0x5c && s[2] == 0x2f && s[3] == 0x62 && s[4] == 0x66;
    assert s[5] == 0x6e && s[6] == 0x72 && s[7] == 0x74 && s[8] == 0x75;
  }

  // ----- hexadecimal -----

  /** Either case of a hexadecimal digit. */
  predicate Spells(c: byte, d: nat)
    requires d < 16
  {
    c == Ascii("0123456789abcdef")[d] || c == Ascii("0123456789ABCDEF")[d]
  }

  lemma DigitsOfHex(d: nat)
    requires d < 16
    ensures Ascii("0123456789abcdef")[d] == if d < 10 then 0x30 + d else 0x61 + d - 10
    ensures Ascii("0123456789ABCDEF")[d] == if d < 10 then 0x30 + d else 0x41 + d - 10
  {
    var low, high := "0123456789abcdef", "0123456789ABCDEF";
    assert Ascii(low)[d] == low[d] as int && Ascii(high)[d] == high[d] as int;
  }

  /** A character has the value d exactly when it spells d, and none exactly when it spells nothing. */
  lemma HexDigitIs(c: byte, d: nat)
    requires d < 16
    ensures HexDigit(c) == d <==> Spells(c, d)
  {
    DigitsOfHex(d);
  }

  lemma HexDigitRange(c: byte)
    ensures -1 <= HexDigit(c) < 16
  {
  }

  /** Four characters that spell n. */
  predicate SpellsUnit(s: seq<byte>, n: nat) {
    |s| == 4 && n <= 0xffff
    && Spells(s[0], n / 0x1000) && Spells(s[1], n / 0x100 % 16) && Spells(s[2], n / 0x10 % 16) && Spells(s[3], n % 16)
  }

  lemma OneHexDigit(n: nat, q: nat, r: nat)
    requires n == 16 * q + r && r < 16
    ensures n / 16 == q && n % 16 == r
  {
  }

  lemma FourHexDigits(a: nat, b: nat, c: nat, d: nat, n: nat)
    requires a < 16 && b < 16 && c < 16 && d < 16 && n == 0x1000 * a + 0x100 * b + 0x10 * c + d
    ensures n <= 0xffff && n / 0x1000 == a && n / 0x100 % 16 == b && n / 0x10 % 16 == c && n % 16 == d
  {
    var m, k := 0x100 * a + 0x10 * b + c, 0x10 * a + b;
    OneHexDigit(n, m, d);
    OneHexDigit(m, k, c);
    OneHexDigit(k, a, b);
    assert n / 0x100 == k && n / 0x1000 == a;
  }

  /** decode_hex4 reads n exactly from the ways to spell it, whatever the case of each letter. */
  lemma HexReads(s: seq<byte>, n: nat)
    requires 4 <= |s|
    ensures Hex4(s) == n <==> SpellsUnit(s[..4], n)
  {
    if SpellsUnit(s[..4], n) {
      HexDigitIs(s[0], n / 0x1000);
      HexDigitIs(s[1], n / 0x100 % 16);
      HexDigitIs(s[2], n / 0x10 % 16);
      HexDigitIs(s[3], n % 16);
      Digits16(n);
    } else if Hex4(s) == n {
      HexDigitRange(s[0]);
      HexDigitRange(s[1]);
      HexDigitRange(s[2]);
      HexDigitRange(s[3]);
      FourHexDigits(HexDigit(s[0]), HexDigit(s[1]), HexDigit(s[2]), HexDigit(s[3]), n);
      HexDigitIs(s[0], n / 0x1000);
      HexDigitIs(s[1], n / 0x100 % 16);
      HexDigitIs(s[2], n / 0x10 % 16);
      HexDigitIs(s[3], n % 16);
    }
  }

  /** The letter a to f in lower case. */
  function Lowered(c: byte): byte {
    if 0x41 <= c <= 0x46 then c + 0x20 else c
  }

  lemma LoweredDigit(c: byte, d: byte)
    requires Lowered(c) == Lowered(d)
    ensures HexDigit(c) == HexDigit(d)
  {
  }

  /** So the case of the letters does not matter. */
  lemma CaseDoesNotMatter(s: seq<byte>, t: seq<byte>)
    requires |s| == |t| && forall i :: 0 <= i < |s| ==> Lowered(s[i]) == Lowered(t[i])
    ensures Hex4(s) == Hex4(t)
  {
    if 4 <= |s| {
      LoweredDigit(s[0], t[0]);
      LoweredDigit(s[1], t[1]);
      LoweredDigit(s[2], t[2]);
      LoweredDigit(s[3], t[3]);
    }
  }

  // ----- escapes -----

  /** \u and four hexadecimal digits. */
  predicate IsUnit(s: seq<byte>, n: nat) {
    |s| == 6 && s[..2] == Ascii("\\u") && SpellsUnit(s[2..], n)
  }

  /** Section 7 of RFC 8259: the escape of a scalar value, in any spelling. */
  predicate IsPoint(s: seq<byte>, c: nat)
    requires Scalar(c)
  {
    if c <= 0xffff then IsUnit(s, c)
    else |s| == 12 && IsUnit(s[..6], 0xd800 + (c - 0x10000) / 0x400) && IsUnit(s[6..], 0xdc00 + (c - 0x10000) % 0x400)
  }

  lemma UnitMark(s: seq<byte>, n: nat)
    requires IsUnit(s, n)
    ensures s[0] == BACKSLASH && s[1] == LOWER_U
  {
    assert s[..2][0] == Ascii("\\u")[0] && s[..2][1] == Ascii("\\u")[1];
  }

  lemma AnyUnitReads(s: seq<byte>, n: nat, rest: seq<byte>)
    requires IsUnit(s, n)
    ensures Hex4((s + rest)[2..]) == n
  {
    var t := (s + rest)[2..];
    assert t[..4] == s[2..];
    HexReads(t, n);
  }

  lemma AnyPairReads(a: seq<byte>, b: seq<byte>, high: nat, low: nat, rest: seq<byte>, s: seq<byte>, c: nat)
    requires s == a + (b + rest) && c == 0x10000 + 0x400 * (high - 0xd800) + (low - 0xdc00)
    requires IsUnit(a, high) && IsUnit(b, low) && 0xd800 <= high <= 0xdbff && 0xdc00 <= low <= 0xdfff
    ensures c <= 0x10ffff && UnicodeEscape(s) == Unit(Utf8(c), 12)
  {
    var tail := b + rest;
    AnyUnitReads(a, high, tail);
    AnyUnitReads(b, low, rest);
    UnitMark(b, low);
    SecondUnit(a, tail, s);
    PairEscape(s, high, low);
  }

  lemma AnyBasicReads(s: seq<byte>, c: nat, rest: seq<byte>)
    requires IsUnit(s, c) && !(0xd800 <= c <= 0xdfff)
    ensures UnicodeEscape(s + rest) == Unit(Utf8(c), 6)
  {
    AnyUnitReads(s, c, rest);
  }

  /** However the digits of the escape of a scalar value are spelled, it comes back as its UTF-8 form. */
  lemma AnyPointReads(s: seq<byte>, c: nat, rest: seq<byte>)
    requires Scalar(c) && IsPoint(s, c)
    ensures UnicodeEscape(s + rest) == Unit(Utf8(c), |s|)
  {
    if c <= 0xffff {
      AnyBasicReads(s, c, rest);
    } else {
      AnyAstralReads(s, c, rest);
    }
  }

  lemma AnyAstralReads(s: seq<byte>, c: nat, rest: seq<byte>)
    requires Scalar(c) && 0xffff < c && IsPoint(s, c)
    ensures UnicodeEscape(s + rest) == Unit(Utf8(c), 12)
  {
    var q, r := (c - 0x10000) / 0x400, (c - 0x10000) % 0x400;
    AstralUnits(s, c, q, r);
    SplitAtSix(s, rest);
    AnySurrogatesRead(s[..6], s[6..], c, q, r, rest, s + rest);
  }

  lemma AstralUnits(s: seq<byte>, c: nat, q: nat, r: nat)
    requires Scalar(c) && 0xffff < c && IsPoint(s, c) && q == (c - 0x10000) / 0x400 && r == (c - 0x10000) % 0x400
    ensures |s| == 12 && IsUnit(s[..6], 0xd800 + q) && IsUnit(s[6..], 0xdc00 + r) && c <= 0x10ffff
  {
  }

  lemma SplitAtSix(s: seq<byte>, rest: seq<byte>)
    requires 6 <= |s|
    ensures s + rest == s[..6] + (s[6..] + rest)
  {
  }

  lemma AnySurrogatesRead(a: seq<byte>, b: seq<byte>, c: nat, q: nat, r: nat, rest: seq<byte>, t: seq<byte>)
    requires t == a + (b + rest)
    requires 0xffff < c <= 0x10ffff && q == (c - 0x10000) / 0x400 && r == (c - 0x10000) % 0x400
    requires IsUnit(a, 0xd800 + q) && IsUnit(b, 0xdc00 + r)
    ensures UnicodeEscape(t) == Unit(Utf8(c), 12)
  {
    PointDigits(c, q, r);
    AnyPairReads(a, b, 0xd800 + q, 0xdc00 + r, rest, t, c);
  }

  lemma UnitStarts(s: seq<byte>, n: nat, rest: seq<byte>)
    requires 6 <= |s| && IsUnit(s[..6], n)
    ensures (s + rest)[0] == BACKSLASH && Peek((s + rest)[1..]) == LOWER_U
  {
    UnitMark(s[..6], n);
    assert s[..6][0] == s[0] && s[..6][1] == s[1];
  }

  /** In a string it stands for exactly those bytes. */
  lemma PointInString(s: seq<byte>, c: nat, rest: seq<byte>)
    requires Scalar(c) && IsPoint(s, c)
    ensures StringBody(s + rest) == Before(Utf8(c), StringBody(rest))
  {
    AnyPointReads(s, c, rest);
    PointStarts(s, c, rest);
    EscapeInString(s + rest, Utf8(c), |s|, rest);
  }

  lemma PointStarts(s: seq<byte>, c: nat, rest: seq<byte>)
    requires Scalar(c) && IsPoint(s, c)
    ensures 6 <= |s| && (s + rest)[0] == BACKSLASH && Peek((s + rest)[1..]) == LOWER_U && (s + rest)[|s|..] == rest
  {
    if c <= 0xffff {
      assert s[..6] == s;
      UnitStarts(s, c, rest);
    } else {
      UnitStarts(s, 0xd800 + (c - 0x10000) / 0x400, rest);
    }
  }

  lemma EscapeInString(t: seq<byte>, bytes: seq<byte>, n: nat, rest: seq<byte>)
    requires 6 <= n <= |t| && t[0] == BACKSLASH && Peek(t[1..]) == LOWER_U && UnicodeEscape(t) == Unit(bytes, n) && t[n..] == rest
    ensures StringBody(t) == Before(bytes, StringBody(rest))
  {
  }

  // ----- numbers -----

  lemma DigitCharacters(c: byte)
    ensures IsDigit(c) <==> c in Ascii("0123456789")
  {
    var text := "0123456789";
    if IsDigit(c) {
      assert Ascii(text)[c - 0x30] == text[c - 0x30] as int;
    }
  }

  predicate DigitText(s: seq<byte>) {
    s != [] && forall i :: 0 <= i < |s| ==> IsDigit(s[i])
  }

  predicate NoDigitFirst(s: seq<byte>) {
    s == [] || !IsDigit(s[0])
  }

  lemma {:induction false} DigitsCount(s: seq<byte>, rest: seq<byte>)
    requires (forall i :: 0 <= i < |s| ==> IsDigit(s[i])) && NoDigitFirst(rest)
    ensures DigitsLength(s + rest) == |s|
  {
    if s == [] {
      assert s + rest == rest;
    } else {
      assert (s + rest)[1..] == s[1..] + rest;
      DigitsCount(s[1..], rest);
    }
  }

  /** Section 6 of RFC 8259: the parts of a number behind its integer. */
  predicate IsFraction(s: seq<byte>) {
    s == [] || (s[..1] == Ascii(".") && DigitText(s[1..]))
  }

  predicate IsSign(s: seq<byte>) {
    s == [] || s == Ascii("+") || s == Ascii("-")
  }

  predicate IsExponent(mark: seq<byte>, sign: seq<byte>, digits: seq<byte>) {
    (mark == [] && sign == [] && digits == []) || ((mark == Ascii("e") || mark == Ascii("E")) && IsSign(sign) && DigitText(digits))
  }

  lemma FractionCounts(s: seq<byte>, rest: seq<byte>)
    requires IsFraction(s) && NoDigitFirst(rest) && (rest == [] || rest[0] != '.' as int)
    ensures FractionLength(s + rest) == |s|
  {
    if s == [] {
      assert s + rest == rest;
    } else {
      assert s[..1][0] == Ascii(".")[0];
      assert (s + rest)[1..] == s[1..] + rest;
      DigitsCount(s[1..], rest);
    }
  }

  lemma ExponentCounts(mark: seq<byte>, sign: seq<byte>, digits: seq<byte>, s: seq<byte>)
    requires IsExponent(mark, sign, digits) && s == mark + sign + digits
    ensures ExponentLength(s) == |s|
  {
    if mark != [] {
      assert mark[0] == s[0];
      assert digits + [] == digits;
      DigitsCount(digits, []);
      if sign == [] {
        assert s[1..] == digits && s[1] == digits[0];
      } else {
        assert s[1] == sign[0] && s[2..] == digits;
      }
    }
  }

  lemma MarksAreNoDigits(mark: seq<byte>, sign: seq<byte>, digits: seq<byte>, frac: seq<byte>, rest: seq<byte>)
    requires IsExponent(mark, sign, digits) && IsFraction(frac) && rest == mark + sign + digits
    ensures NoDigitFirst(rest) && (rest == [] || rest[0] != '.' as int) && NoDigitFirst(frac + rest)
  {
    if mark != [] {
      assert rest[0] == mark[0];
    }
    if frac != [] {
      assert frac[..1][0] == Ascii(".")[0] && (frac + rest)[0] == frac[0];
    } else {
      assert frac + rest == rest;
    }
  }

  /** Every number of the grammar is one token. */
  lemma NumberGrammar(minus: seq<byte>, whole: seq<byte>, frac: seq<byte>, mark: seq<byte>, sign: seq<byte>, digits: seq<byte>, t: seq<byte>)
    requires (minus == [] || minus == Ascii("-")) && DigitText(whole) && IsFraction(frac) && IsExponent(mark, sign, digits)
    requires t == minus + (whole + (frac + (mark + sign + digits)))
    ensures NumberLength(t) == |t| && IsNumber(t)
  {
    var e := mark + sign + digits;
    MarksAreNoDigits(mark, sign, digits, frac, e);
    NumberParts(minus, whole, frac, e, t);
    ExponentCounts(mark, sign, digits, e);
    NumberClean(minus, whole, frac, mark, sign, digits, t);
  }

  lemma NumberParts(minus: seq<byte>, whole: seq<byte>, frac: seq<byte>, e: seq<byte>, t: seq<byte>)
    requires (minus == [] || minus == Ascii("-")) && DigitText(whole) && IsFraction(frac)
    requires NoDigitFirst(e) && (e == [] || e[0] != '.' as int) && NoDigitFirst(frac + e)
    requires t == minus + (whole + (frac + e))
    ensures NumberLength(t) == |minus| + |whole| + |frac| + ExponentLength(e)
    ensures t[0] == 0x2d || IsDigit(t[0])
  {
    WholeCounts(minus, whole, frac + e, t);
    FractionCounts(frac, e);
    TailParts(minus, whole, frac, e, t);
    PartsCount(t, |minus| + |whole|, |frac|, frac + e, e);
  }

  lemma TailParts(a: seq<byte>, b: seq<byte>, c: seq<byte>, d: seq<byte>, t: seq<byte>)
    requires t == a + (b + (c + d))
    ensures |t| == |a| + |b| + |c| + |d| && t[|a| + |b|..] == c + d && t[|a| + |b| + |c|..] == d
  {
  }

  lemma PartsCount(t: seq<byte>, whole: nat, frac: nat, tail: seq<byte>, e: seq<byte>)
    requires SignLength(t) < WholeEnd(t) == whole <= |t| && t[whole..] == tail && FractionLength(tail) == frac
    requires whole + frac <= |t| && t[whole + frac..] == e
    ensures NumberLength(t) == whole + frac + ExponentLength(e)
  {
  }

  lemma WholeCounts(minus: seq<byte>, whole: seq<byte>, tail: seq<byte>, t: seq<byte>)
    requires (minus == [] || minus == Ascii("-")) && DigitText(whole) && NoDigitFirst(tail) && t == minus + (whole + tail)
    ensures SignLength(t) == |minus| && WholeEnd(t) == |minus| + |whole| && (t[0] == 0x2d || IsDigit(t[0]))
  {
    if minus == [] {
      assert t == whole + tail && t[0] == whole[0];
    } else {
      assert t[0] == minus[0];
    }
    assert t[|minus|..] == whole + tail;
    DigitsCount(whole, tail);
  }

  lemma NumberClean(minus: seq<byte>, whole: seq<byte>, frac: seq<byte>, mark: seq<byte>, sign: seq<byte>, digits: seq<byte>, t: seq<byte>)
    requires (minus == [] || minus == Ascii("-")) && DigitText(whole) && IsFraction(frac) && IsExponent(mark, sign, digits)
    requires t == minus + (whole + (frac + (mark + sign + digits)))
    ensures CString(t)
  {
    CleanJoin(mark, sign);
    CleanJoin(mark + sign, digits);
    if frac != [] {
      assert frac == frac[..1] + frac[1..];
      CleanJoin(frac[..1], frac[1..]);
    }
    CleanJoin(frac, mark + sign + digits);
    CleanJoin(whole, frac + (mark + sign + digits));
    CleanJoin(minus, whole + (frac + (mark + sign + digits)));
  }

  lemma CleanJoin(a: seq<byte>, b: seq<byte>)
    ensures CString(a) && CString(b) ==> CString(a + b)
  {
  }

  // ----- keys, holes and sparse tables -----

  /** The numeral of an integer, with a minus sign in front where it is negative. */
  lemma {:induction false} DecimalIsNumeral(n: nat)
    ensures DecimalText(n) == Ascii(Digits.NatText(n)) && DecimalText(0 - n) == if n == 0 then DecimalText(n) else Ascii("-") + DecimalText(n)
  {
    if 10 <= n {
      DecimalIsNumeral(n / 10);
      assert Ascii(Digits.NatText(n)) == Ascii(Digits.NatText(n / 10)) + [0x30 + n % 10];
    }
  }
}
