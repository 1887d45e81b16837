/**
  Which bytes a string literal escapes, when a table is an array or too sparse, why a value is refused, and
  how much of a text is a number (src/lua_cjson.c:133-170, 489-698, 735-760, 936-1010).
 */
module JsonLimits {
  import opened Bytes
  import opened JsonText
  import opened JsonCodec
  import opened JsonRoundTrip
  import opened JsonSpelling

  // ----- escaping -----

  predicate MustEscape(c: byte) {
    c < 0x20 || c == 0x7f || c in Ascii("\"\\/")
  }

  lemma MarkBytes(c: byte)
    ensures c in Ascii("\"\\/") <==> c == QUOTE || c == BACKSLASH || c == SLASH
  {
    var s := Ascii("\"\\/");
    assert s[0] == QUOTE && s[1] == BACKSLASH && s[2] == SLASH;
  }

  /** Section 7 of RFC 8259, and DEL: these and no others are escaped, with a backslash where it is enough. */
  lemma EscapedBytes(c: byte)
    ensures Escape(c) != [] <==> MustEscape(c)
    ensures c in Ascii("\"\\/") ==> Escape(c) == Ascii("\\") + [c]
  {
    MarkBytes(c);
  }

  lemma ShortForms()
    ensures Escape(8) == Ascii("\\b") && Escape(9) == Ascii("\\t") && Escape(10) == Ascii("\\n")
    ensures Escape(12) == Ascii("\\f") && Escape(13) == Ascii("\\r")
  {
  }

  /** Any other control character is written as its number, in lower case. */
  lemma NumberedEscape(c: byte)
    requires (c < 0x20 || c == 0x7f) && c !in [8, 9, 10, 12, 13]
    ensures Escape(c) == Ascii("\\u00") + [Ascii("0123456789abcdef")[c / 16], Ascii("0123456789abcdef")[c % 16]]
  {
    NumberedForm(c);
    LowerDigit(c / 16);
    LowerDigit(c % 16);
    assert Ascii("\\u00") == [BACKSLASH, LOWER_U, 0x30, 0x30];
  }

  lemma NumberedForm(c: byte)
    requires (c < 0x20 || c == 0x7f) && c !in [8, 9, 10, 12, 13]
    ensures Escape(c) == [BACKSLASH, LOWER_U, 0x30, 0x30] + [HexChar(c / 16), HexChar(c % 16)]
  {
  }

  lemma LowerDigit(d: nat)
    requires d < 16
    ensures HexChar(d) == Ascii("0123456789abcdef")[d]
  {
    DigitsOfHex(d);
  }

  // ----- arrays -----

  /** The table has the keys of an array, perhaps with holes. */
  predicate ArrayKeys(es: seq<Entry>) {
    forall e :: e in es ==> e.key.IntKey? && 1 <= e.key.n
  }

  /** Some key is n and none is larger. */
  predicate LargestKey(es: seq<Entry>, n: int) {
    (exists e :: e in es && e.key == IntKey(n)) && forall e :: e in es ==> e.key.IntKey? && e.key.n <= n
  }

  lemma {:induction false} MaxKeyIs(es: seq<Entry>)
    ensures MaxKey(es) < 0 <==> !ArrayKeys(es)
    ensures ArrayKeys(es) && es != [] ==> LargestKey(es, MaxKey(es))
  {
    if es != [] {
      var front, last := es[..|es| - 1], es[|es| - 1];
      MaxKeyIs(front);
      assert es == front + [last];
      assert forall e :: e in es <==> e in front || e == last;
      assert last in es;
    }
  }

  /** Too sparse: only positive integer keys, of which the largest is over ten and more than twice their number. */
  lemma SparseExactly(es: seq<Entry>, n: int)
    requires es != [] && LargestKey(es, n)
    ensures ArrayLength(es) == TooSparse <==> ArrayKeys(es) && 10 < n && 2 * |es| < n
    ensures ArrayLength(es).ArrayOf? <==> ArrayKeys(es) && (n <= 10 || n <= 2 * |es|)
    ensures ArrayLength(es).ArrayOf? ==> ArrayLength(es) == ArrayOf(n)
  {
    MaxKeyIs(es);
  }

  /** Any other key makes it an object, and so does having none. */
  lemma ObjectExactly(es: seq<Entry>)
    ensures ArrayLength(es) == NotArray <==> !ArrayKeys(es)
    ensures ArrayLength(es) == ArrayOf(0) <==> es == []
  {
    MaxKeyIs(es);
  }

  // ----- refusals -----

  /** Somewhere in the value is what the refusal speaks of. */
  predicate HasCause(v: Value, why: Refusal, room: nat)
    decreases room, v
  {
    || (v.Other? && why == BadType)
    || (v.Table? && room == 0 && why == ExcessiveNesting)
    || (v.Table? && room > 0 && ArrayLength(v.entries) == TooSparse && why == ExcessivelySparse)
    || (v.Table? && room > 0 && exists e :: e in v.entries && EntryCauses(e, why, room - 1))
  }

  predicate EntryCauses(e: Entry, why: Refusal, room: nat)
    decreases room, e
  {
    (e.key == OtherKey && why == BadKey) || HasCause(e.val, why, room)
  }

  lemma {:induction false} FoundIsThere(es: seq<Entry>, n: int) returns (e: Entry)
    requires Find(es, n) != Nil
    ensures e in es && e.val == Find(es, n)
  {
    if es[0].key == IntKey(n) {
      e := es[0];
    } else {
      e := FoundIsThere(es[1..], n);
    }
  }

  /** No reason is given without its cause. */
  lemma {:induction false} RefusedForCause(v: Value, room: nat)
    requires Encode(v, room).Refused?
    ensures HasCause(v, Encode(v, room).why, room)
    decreases room, 3
  {
    if v.Table? && room > 0 && ArrayLength(v.entries) != TooSparse {
      var length := ArrayLength(v.entries);
      if length.ArrayOf? && length.n > 0 {
        ItemsCause(v.entries, Items(v.entries, length.n), 0, room - 1);
      } else {
        MembersCause(v.entries, 0, room - 1);
      }
    }
  }

  lemma {:induction false} ItemsCause(es: seq<Entry>, vs: seq<Value>, j: nat, room: nat)
    requires j <= |vs| && vs == Items(es, |vs|) && ItemsFrom(vs, j, room).Refused?
    ensures exists e :: e in es && EntryCauses(e, ItemsFrom(vs, j, room).why, room)
    decreases room, 4, |vs| - j
  {
    if Encode(vs[j], room).Refused? {
      RefusedForCause(vs[j], room);
      var e := FoundIsThere(es, j + 1);
      assert EntryCauses(e, ItemsFrom(vs, j, room).why, room);
    } else {
      ItemsCause(es, vs, j + 1, room);
    }
  }

  lemma {:induction false} MembersCause(es: seq<Entry>, i: nat, room: nat)
    requires i <= |es| && MembersFrom(es, i, room).Refused?
    ensures exists e :: e in es && EntryCauses(e, MembersFrom(es, i, room).why, room)
    decreases room, 4, |es| - i
  {
    if KeyText(es[i].key).Refused? {
      assert es[i] in es && EntryCauses(es[i], MembersFrom(es, i, room).why, room);
    } else if Encode(es[i].val, room).Refused? {
      RefusedForCause(es[i].val, room);
      assert es[i] in es && EntryCauses(es[i], MembersFrom(es, i, room).why, room);
    } else {
      MembersCause(es, i + 1, room);
    }
  }

  // ----- numbers -----

  predicate DigitsOnly(s: seq<byte>) {
    forall i :: 0 <= i < |s| ==> IsDigit(s[i])
  }

  predicate FractionPart(s: seq<byte>) {
    s == [] || (s[0] == '.' as int && DigitsOnly(s[1..]))
  }

  predicate ExponentPart(s: seq<byte>, sign: seq<byte>, digits: seq<byte>) {
    s == [] || ((s[0] == 'e' as int || s[0] == 'E' as int) && s[1..] == sign + digits && IsSign(sign) && DigitText(digits))
  }

  /** The decimal numerals of strtod: a sign, digits with a point anywhere among them or none, and an exponent. */
  predicate Decimal(a: seq<byte>, whole: seq<byte>, frac: seq<byte>, e: seq<byte>, sign: seq<byte>, digits: seq<byte>) {
    && IsSign(a) && DigitsOnly(whole) && FractionPart(frac) && (whole != [] || 1 < |frac|) && ExponentPart(e, sign, digits)
  }

  lemma {:induction false} DigitsBefore(s: seq<byte>, rest: seq<byte>)
    requires DigitsOnly(s)
    ensures DigitsLength(s + rest) == |s| + DigitsLength(rest)
  {
    if s == [] {
      assert s + rest == rest;
    } else {
      assert (s + rest)[1..] == s[1..] + rest;
      DigitsBefore(s[1..], rest);
    }
  }

  lemma {:induction false} DigitsTaken(s: seq<byte>)
    ensures DigitsOnly(s[..DigitsLength(s)])
  {
    if s != [] && IsDigit(s[0]) {
      DigitsTaken(s[1..]);
      assert s[..DigitsLength(s)] == [s[0]] + s[1..][..DigitsLength(s[1..])];
    }
  }

  lemma ExponentFits(e: seq<byte>, sign: seq<byte>, digits: seq<byte>, rest: seq<byte>)
    requires ExponentPart(e, sign, digits)
    ensures |e| <= ExponentLength(e + rest)
    ensures e != [] ==> (e + rest)[0] != '.' as int && DigitsLength(e + rest) == 0
  {
    if e != [] {
      var s := e + rest;
      assert s[0] == e[0];
      DigitsBefore(digits, rest);
      SignFits(e[..1], sign, digits, rest, s);
    }
  }

  lemma SignFits(mark: seq<byte>, sign: seq<byte>, digits: seq<byte>, rest: seq<byte>, s: seq<byte>)
    requires |mark| == 1 && IsSign(sign) && DigitText(digits) && s == mark + (sign + digits) + rest
    ensures if sign == [] then s[1] == digits[0] && s[1..] == digits + rest
            else s[1] == sign[0] && s[2..] == digits + rest
  {
    if sign == [] {
      assert s[1] == digits[0];
      assert s[1..] == digits + rest;
    } else {
      assert s[2..] == digits + rest;
    }
  }

  lemma FractionFits(frac: seq<byte>, t: seq<byte>)
    requires FractionPart(frac) && frac != []
    ensures DigitsLength(frac + t) == 0 && FractionLength(frac + t) == |frac| + DigitsLength(t)
  {
    assert (frac + t)[0] == frac[0] && (frac + t)[1..] == frac[1..] + t;
    DigitsBefore(frac[1..], t);
  }

  lemma SignCounts(a: seq<byte>, t: seq<byte>)
    requires IsSign(a) && t != [] && (IsDigit(t[0]) || t[0] == '.' as int)
    ensures SignLength(a + t) == |a| && (a + t)[|a|..] == t
  {
    if a == [] {
      assert a + t == t;
    } else {
      assert (a + t)[0] == a[0];
    }
  }

  /** The token is at least as long as any decimal numeral the text starts with. */
  lemma NumberIsLongest(a: seq<byte>, whole: seq<byte>, frac: seq<byte>, e: seq<byte>, sign: seq<byte>, digits: seq<byte>,
                        rest: seq<byte>, s: seq<byte>)
    requires Decimal(a, whole, frac, e, sign, digits) && s == a + (whole + (frac + (e + rest)))
    ensures |a| + |whole| + |frac| + |e| <= NumberLength(s)
  {
    ExponentFits(e, sign, digits, rest);
    LongestParts(a, whole, frac, e + rest, |e|, s);
  }

  lemma LongestParts(a: seq<byte>, whole: seq<byte>, frac: seq<byte>, tail: seq<byte>, x: nat, s: seq<byte>)
    requires IsSign(a) && DigitsOnly(whole) && FractionPart(frac) && (whole != [] || 1 < |frac|)
    requires s == a + (whole + (frac + tail)) && x <= ExponentLength(tail)
    requires 0 < x ==> tail != [] && tail[0] != '.' as int && DigitsLength(tail) == 0
    ensures |a| + |whole| + |frac| + x <= NumberLength(s)
  {
    var t := frac + tail;
    StartsDigits(whole, t, frac, tail);
    WholeIs(a, whole, t, s);
    BehindDigits(s, a, whole, t);
    LongestBehind(s, |a| + |whole|, frac, tail, t, x);
  }

  lemma LongestBehind(s: seq<byte>, w: nat, frac: seq<byte>, tail: seq<byte>, t: seq<byte>, x: nat)
    requires FractionPart(frac) && (SignLength(s) < w || 1 < |frac|) && WholeEnd(s) == w + DigitsLength(t)
    requires t == frac + tail && w <= |s| && s[w..] == t && x <= ExponentLength(tail)
    requires 0 < x ==> tail != [] && tail[0] != '.' as int && DigitsLength(tail) == 0
    ensures w + |frac| + x <= NumberLength(s)
  {
    if frac != [] {
      BehindFraction(s, w, frac, tail);
      WithFraction(s, w, frac, tail, x);
    } else {
      NoFraction(frac, tail, t);
      WithoutFraction(s, w, tail, x);
    }
  }

  lemma NoFraction(frac: seq<byte>, tail: seq<byte>, t: seq<byte>)
    requires frac == [] && t == frac + tail
    ensures t == tail
  {
  }

  lemma WholeIs(a: seq<byte>, whole: seq<byte>, t: seq<byte>, s: seq<byte>)
    requires IsSign(a) && DigitsOnly(whole) && s == a + (whole + t)
    requires whole + t != [] && (IsDigit((whole + t)[0]) || (whole + t)[0] == '.' as int)
    ensures SignLength(s) == |a| && WholeEnd(s) == |a| + |whole| + DigitsLength(t)
  {
    SignCounts(a, whole + t);
    DigitsBefore(whole, t);
  }

  lemma WithFraction(s: seq<byte>, w: nat, frac: seq<byte>, tail: seq<byte>, x: nat)
    requires frac != [] && FractionPart(frac) && WholeEnd(s) == w + DigitsLength(frac + tail)
    requires w + |frac| <= |s| && s[w..] == frac + tail && s[w + |frac|..] == tail && (SignLength(s) < w || 1 < |frac|)
    requires x <= ExponentLength(tail) && (0 < x ==> DigitsLength(tail) == 0)
    ensures w + |frac| + x <= NumberLength(s)
  {
    FractionFits(frac, tail);
    Total(s, w, |frac| + DigitsLength(tail));
  }

  lemma WithoutFraction(s: seq<byte>, w: nat, tail: seq<byte>, x: nat)
    requires WholeEnd(s) == w + DigitsLength(tail) && w <= |s| && s[w..] == tail && SignLength(s) < w
    requires x <= ExponentLength(tail) && (0 < x ==> tail != [] && tail[0] != '.' as int && DigitsLength(tail) == 0)
    ensures w + x <= NumberLength(s)
  {
    if 0 < x {
      Total(s, w, 0);
    } else {
      Total(s, WholeEnd(s), FractionLength(s[WholeEnd(s)..]));
    }
  }

  lemma StartsDigits(whole: seq<byte>, t: seq<byte>, frac: seq<byte>, tail: seq<byte>)
    requires DigitsOnly(whole) && FractionPart(frac) && (whole != [] || 1 < |frac|) && t == frac + tail
    ensures whole + t != [] && (IsDigit((whole + t)[0]) || (whole + t)[0] == '.' as int)
  {
    if whole != [] {
      assert (whole + t)[0] == whole[0];
    } else {
      assert (whole + t)[0] == frac[0];
    }
  }

  lemma Total(s: seq<byte>, whole: nat, frac: nat)
    requires WholeEnd(s) == whole <= |s| && FractionLength(s[whole..]) == frac && (SignLength(s) < whole || 1 < frac)
    ensures whole + frac <= |s| && NumberLength(s) == whole + frac + ExponentLength(s[whole + frac..])
  {
  }

  lemma BehindDigits(s: seq<byte>, a: seq<byte>, whole: seq<byte>, t: seq<byte>)
    requires s == a + (whole + t)
    ensures |s| == |a| + |whole| + |t| && s[|a| + |whole|..] == t
  {
  }

  lemma BehindFraction(s: seq<byte>, w: nat, frac: seq<byte>, tail: seq<byte>)
    requires w <= |s| && s[w..] == frac + tail
    ensures w + |frac| <= |s| && s[w + |frac|..] == tail
  {
    assert s[w + |frac|..] == s[w..][|frac|..];
  }

  /** And it is one. */
  lemma NumberIsDecimal(s: seq<byte>)
    returns (a: seq<byte>, whole: seq<byte>, frac: seq<byte>, e: seq<byte>, sign: seq<byte>, digits: seq<byte>)
    requires 0 < NumberLength(s)
    ensures Decimal(a, whole, frac, e, sign, digits) && s[..NumberLength(s)] == a + whole + frac + e
  {
    var k, w, m := SignLength(s), WholeEnd(s), MantissaEnd(s);
    a, whole, frac := s[..k], s[k..w], s[w..m];
    e, sign, digits := ExponentIs(s[m..]);
    SignIs(s);
    WholeDigits(s, k, w);
    FractionBetween(s, w, m);
    FourParts(s, k, w, m, m + |e|, e);
  }

  lemma WholeDigits(s: seq<byte>, k: nat, w: nat)
    requires k == SignLength(s) && w == WholeEnd(s)
    ensures k <= w <= |s| && DigitsOnly(s[k..w])
  {
    DigitsTaken(s[k..]);
    assert s[k..w] == s[k..][..w - k];
  }

  lemma FractionBetween(s: seq<byte>, w: nat, m: nat)
    requires w == WholeEnd(s) && m == MantissaEnd(s)
    ensures w <= m <= |s| && FractionPart(s[w..m])
  {
    FractionIs(s[w..]);
    assert s[w..m] == s[w..][..m - w];
  }

  lemma SignIs(s: seq<byte>)
    ensures IsSign(s[..SignLength(s)])
  {
    if SignLength(s) == 1 {
      assert s[..1] == [s[0]];
    }
  }

  lemma FractionIs(s: seq<byte>)
    ensures FractionPart(s[..FractionLength(s)])
  {
    if FractionLength(s) != 0 {
      DigitsTaken(s[1..]);
      assert s[..FractionLength(s)][1..] == s[1..][..FractionLength(s) - 1];
    }
  }

  lemma ExponentIs(s: seq<byte>) returns (e: seq<byte>, sign: seq<byte>, digits: seq<byte>)
    ensures e == s[..ExponentLength(s)] && ExponentPart(e, sign, digits)
  {
    e, sign, digits := s[..ExponentLength(s)], [], [];
    if e != [] {
      var k := if s[1] == 0x2b || s[1] == 0x2d then 2 else 1;
      sign, digits := s[1..k], s[k..ExponentLength(s)];
      DigitsTaken(s[k..]);
      assert digits == s[k..][..DigitsLength(s[k..])];
      assert k == 2 ==> sign == [s[1]];
      assert e[1..] == sign + digits;
    }
  }

  lemma FourParts(s: seq<byte>, k: nat, w: nat, m: nat, n: nat, e: seq<byte>)
    requires k <= w <= m <= n <= |s| && e == s[m..][..n - m]
    ensures s[..n] == s[..k] + s[k..w] + s[w..m] + e
  {
  }
}
