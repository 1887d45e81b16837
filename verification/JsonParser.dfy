/**
  The parser state advanced token by token (src/lua_cjson.c:736-1288). Its
  unchecked appends stay inside the buffer sized from the input, and its depth counter balances.
 */
module JsonParser {
  import opened Powers
  import opened Bits
  import opened Bytes
  import opened StringBuffer
  import opened JsonText
  import opened JsonCodec

  /** The powers of two behind the shifts and masks. */
  lemma PowersOf2()
    ensures Pow(2, 4) == 0x10 && Pow(2, 5) == 0x20 && Pow(2, 6) == 0x40 && Pow(2, 7) == 0x80 && Pow(2, 8) == 0x100
    ensures Pow(2, 10) == 0x400 && Pow(2, 11) == 0x800 && Pow(2, 12) == 0x1000 && Pow(2, 18) == 0x40000
  {
    assert Pow(2, 5) == 0x20;
    assert Pow(2, 10) == 0x400;
    assert Pow(2, 14) == 0x4000;
  }

  /** hex | 0x20. */
  function LowerCase(hex: byte): int {
    BitOr(hex, 0x20)
  }

  lemma LowerCaseIs(hex: byte)
    ensures 0x61 <= LowerCase(hex) <= 0x66 <==> 0x61 <= hex <= 0x66 || 0x41 <= hex <= 0x46
    ensures LowerCase(hex) == if hex / 0x20 % 2 == 1 then hex else hex + 0x20
  {
    PowersOf2();
    OrBit(hex, 5);
    LetterRange(hex, if hex / 0x20 % 2 == 1 then hex else hex + 0x20);
  }

  lemma LetterRange(hex: byte, lower: int)
    requires lower == if hex / 0x20 % 2 == 1 then hex else hex + 0x20
    ensures 0x61 <= lower <= 0x66 <==> 0x61 <= hex <= 0x66 || 0x41 <= hex <= 0x46
  {
  }

  /** hexdigit2int: the letter is forced to lower case by setting bit five. */
  method HexDigitToInt(hex: byte) returns (d: int)
    ensures d == HexDigit(hex)
  {
    if 0x30 <= hex <= 0x39 {
      return hex - 0x30;
    }
    var lower := LowerCase(hex);
    LowerCaseIs(hex);
    if 0x61 <= lower <= 0x66 {
      return 10 + lower - 0x61;
    }
    return -1;
  }

  /** decode_hex4: stops at the first character that is no digit, so it never reads behind the NUL. */
  method DecodeHex4(s: seq<byte>) returns (n: int)
    ensures n == Hex4(s)
  {
    var digit := new int[4](_ => 0);
    for i := 0 to 4
      invariant i <= |s| && forall k :: 0 <= k < i ==> digit[k] == HexDigit(s[k]) && 0 <= digit[k]
    {
      if i == |s| {
        return -1;
      }
      digit[i] := HexDigitToInt(s[i]);
      if digit[i] < 0 {
        return -1;
      }
    }
    PowersOf2();
    ShlMultiplies(digit[0], 12);
    ShlMultiplies(digit[1], 8);
    ShlMultiplies(digit[2], 4);
    n := Shl(digit[0], 12) + Shl(digit[1], 8) + Shl(digit[2], 4) + digit[3];
  }

  /** (codepoint >> k) & 0x3f with the mark of a continuation byte. */
  function ContinuationByte(codepoint: nat, k: nat): nat {
    BitOr(BitAnd(Shr(codepoint, k), 0x3f), 0x80)
  }

  /** (codepoint >> k) with the mark of a leading byte. */
  function LeadingByte(codepoint: nat, k: nat, mark: nat): nat {
    BitOr(Shr(codepoint, k), mark)
  }

  /** The mark never overlaps the payload. */
  lemma ContinuationIs(codepoint: nat, k: nat, p: nat)
    requires p == Pow(2, k) && 0 < p
    ensures ContinuationByte(codepoint, k) == codepoint / p % 0x40 + 0x80
  {
    PowersOf2();
    ShrDivides(codepoint, k);
    var x := codepoint / p;
    MaskIsRemainder(x, 6);
    TagPayload(x % 0x40, 2, 6, 0x40, 0x80);
  }

  lemma LastByte(c: nat)
    ensures ContinuationByte(c, 0) == 0x80 + c % 0x40
  {
    PowersOf2();
    ContinuationIs(c, 0, 1);
  }

  lemma ThirdByte(c: nat)
    ensures ContinuationByte(c, 6) == 0x80 + c / 0x40 % 0x40
  {
    PowersOf2();
    ContinuationIs(c, 6, 0x40);
  }

  lemma SecondByte(c: nat)
    ensures ContinuationByte(c, 12) == 0x80 + c / 0x1000 % 0x40
  {
    PowersOf2();
    ContinuationIs(c, 12, 0x1000);
  }

  lemma LeadingIs(codepoint: nat, k: nat, p: nat, mark: nat, t: nat, j: nat, q: nat)
    requires p == Pow(2, k) && 0 < p && q == Pow(2, j) && mark == t * q && codepoint / p < q
    ensures LeadingByte(codepoint, k, mark) == codepoint / p + mark
  {
    ShrDivides(codepoint, k);
    TagPayload(codepoint / p, t, j, q, mark);
  }

  lemma TwoBytes(c: nat)
    requires 0x7f < c <= 0x7ff
    ensures LeadingByte(c, 6, 0xc0) == 0xc0 + c / 0x40 < 0x100
  {
    PowersOf2();
    LeadingIs(c, 6, 0x40, 0xc0, 6, 5, 0x20);
  }

  lemma ThreeBytes(c: nat)
    requires 0x7ff < c <= 0xffff
    ensures LeadingByte(c, 12, 0xe0) == 0xe0 + c / 0x1000 < 0x100
  {
    PowersOf2();
    LeadingIs(c, 12, 0x1000, 0xe0, 14, 4, 0x10);
  }

  lemma FourBytes(c: nat)
    requires 0xffff < c <= 0x1fffff
    ensures LeadingByte(c, 18, 0xf0) == 0xf0 + c / 0x40000 < 0x100
  {
    PowersOf2();
    LeadingIs(c, 18, 0x40000, 0xf0, 15, 4, 0x10);
  }

  /** The forms of two, three and four bytes, given the bytes. */
  lemma TwoIsUtf8(c: nat, a: nat, b: nat)
    requires 0x7f < c <= 0x7ff && a == 0xc0 + c / 0x40 < 0x100 && b == 0x80 + c % 0x40
    ensures [a, b] == Utf8(c)
  {
  }

  lemma ThreeIsUtf8(c: nat, a: nat, b: nat, d: nat)
    requires 0x7ff < c <= 0xffff && a == 0xe0 + c / 0x1000 < 0x100 && b == 0x80 + c / 0x40 % 0x40 && d == 0x80 + c % 0x40
    ensures [a, b, d] == Utf8(c)
  {
  }

  lemma FourIsUtf8(c: nat, a: nat, b: nat, d: nat, e: nat)
    requires 0xffff < c <= 0x1fffff && a == 0xf0 + c / 0x40000 < 0x100 && b == 0x80 + c / 0x1000 % 0x40
    requires d == 0x80 + c / 0x40 % 0x40 && e == 0x80 + c % 0x40
    ensures [a, b, d, e] == Utf8(c)
  {
  }

  /** codepoint_to_utf8: shifts and masks, with a mark set in every byte. */
  method CodepointToUtf8(codepoint: nat) returns (utf8: seq<byte>)
    ensures utf8 == if codepoint <= 0x1fffff then Utf8(codepoint) else []
  {
    if codepoint <= 0x7f {
      return [codepoint];
    }
    var last := ContinuationByte(codepoint, 0);
    LastByte(codepoint);
    if codepoint <= 0x7ff {
      var first := LeadingByte(codepoint, 6, 0xc0);
      TwoBytes(codepoint);
      TwoIsUtf8(codepoint, first, last);
      return [first, last];
    }
    var third := ContinuationByte(codepoint, 6);
    ThirdByte(codepoint);
    if codepoint <= 0xffff {
      var first := LeadingByte(codepoint, 12, 0xe0);
      ThreeBytes(codepoint);
      ThreeIsUtf8(codepoint, first, third, last);
      return [first, third, last];
    }
    if codepoint <= 0x1fffff {
      var first, second := LeadingByte(codepoint, 18, 0xf0), ContinuationByte(codepoint, 12);
      FourBytes(codepoint);
      SecondByte(codepoint);
      FourIsUtf8(codepoint, first, second, third, last);
      return [first, second, third, last];
    }
    return [];
  }

  /** The tests and the payload of a surrogate, by masks. */
  predicate IsSurrogate(c: nat) {
    BitAnd(c, 0xf800) == 0xd800
  }

  predicate InLowHalf(c: nat) {
    BitAnd(c, 0x400) != 0
  }

  predicate IsLow(c: nat) {
    BitAnd(c, 0xfc00) == 0xdc00
  }

  /** The ten low bits of both halves, side by side. */
  function PairPoint(high: nat, low: nat): nat {
    BitOr(Shl(BitAnd(high, 0x3ff), 10), BitAnd(low, 0x3ff)) + 0x10000
  }

  lemma SurrogateMask(c: nat)
    requires c <= 0xffff
    ensures IsSurrogate(c) <==> 0xd800 <= c <= 0xdfff
  {
    PowersOf2();
    HighMask(c, 0x1f, 11, 0x800, 0xf800);
    MaskIsRemainder(c / 0x800, 5);
    FiveRange(c, c / 0x800);
  }

  lemma FiveRange(c: nat, q: nat)
    requires c <= 0xffff && q == c / 0x800
    ensures q % 0x20 * 0x800 == 0xd800 <==> 0xd800 <= c <= 0xdfff
  {
  }

  lemma HalfMask(c: nat)
    requires 0xd800 <= c <= 0xdfff
    ensures InLowHalf(c) <==> 0xdc00 <= c
  {
    PowersOf2();
    HighMask(c, 1, 10, 0x400, 0x400);
    assert Pow(2, 1) == 2;
    MaskIsRemainder(c / 0x400, 1);
    assert c / 0x400 == if 0xdc00 <= c then 0x37 else 0x36;
  }

  lemma LowMask(c: nat)
    requires c <= 0xffff
    ensures IsLow(c) <==> 0xdc00 <= c <= 0xdfff
  {
    PowersOf2();
    HighMask(c, 0x3f, 10, 0x400, 0xfc00);
    MaskIsRemainder(c / 0x400, 6);
    SixRange(c, c / 0x400);
  }

  lemma SixRange(c: nat, q: nat)
    requires c <= 0xffff && q == c / 0x400
    ensures q % 0x40 * 0x400 == 0xdc00 <==> 0xdc00 <= c <= 0xdfff
  {
  }

  /** The masks tell the three ranges of surrogates. */
  lemma SurrogateMasks(c: nat)
    requires c <= 0xffff
    ensures IsSurrogate(c) <==> 0xd800 <= c <= 0xdfff
    ensures IsSurrogate(c) ==> (InLowHalf(c) <==> 0xdc00 <= c)
    ensures IsLow(c) <==> 0xdc00 <= c <= 0xdfff
  {
    SurrogateMask(c);
    LowMask(c);
    if IsSurrogate(c) {
      HalfMask(c);
    }
  }

  lemma LowTen(c: nat, q: nat, r: nat)
    requires c == 0x400 * q + r && r < 0x400
    ensures BitAnd(c, 0x3ff) == r
  {
    PowersOf2();
    MaskIsRemainder(c, 10);
    DivisionIs(c, 0x400, q, r);
  }

  lemma SideBySide(h: nat, l: nat, m: nat)
    requires m == Shl(h, 10) && l < 0x400
    ensures BitOr(m, l) == 0x400 * h + l
  {
    PowersOf2();
    ShlMultiplies(h, 10);
    TagPayload(l, h, 10, 0x400, m);
    OrCommutes(l, m);
  }

  lemma PairIs(high: nat, low: nat)
    requires 0xd800 <= high <= 0xdbff && 0xdc00 <= low <= 0xdfff
    ensures PairPoint(high, low) == 0x10000 + 0x400 * (high - 0xd800) + (low - 0xdc00)
  {
    LowTen(high, 0x36, high - 0xd800);
    LowTen(low, 0x37, low - 0xdc00);
    SideBySide(high - 0xd800, low - 0xdc00, Shl(high - 0xd800, 10));
  }

  lemma BeforeBefore(a: seq<byte>, b: seq<byte>, t: StringToken)
    ensures Before(a, Before(b, t)) == Before(a + b, t)
  {
    if t.Text? {
      assert a + (b + t.bytes) == a + b + t.bytes;
    }
  }

  lemma BodyStep(s: seq<byte>)
    requires s != [] && s[0] != QUOTE && s[0] != 0 && s[0] != BACKSLASH
    ensures StringBody(s) == Before([s[0]], StringBody(s[1..]))
  {
  }

  lemma EscapeStep(s: seq<byte>, e: byte)
    requires s != [] && s[0] == BACKSLASH && e == Unescape(Peek(s[1..]))
    ensures e == 0 ==> StringBody(s) == Broken(InvalidEscape, s)
    ensures e != 0 && e != LOWER_U ==> 2 <= |s| && StringBody(s) == Before([e], StringBody(s[2..]))
    ensures e == LOWER_U ==> 2 <= |s|
    ensures e == LOWER_U && UnicodeEscape(s).NoUnit? ==> StringBody(s) == Broken(InvalidUnicode, s)
    ensures e == LOWER_U && UnicodeEscape(s).Unit? ==>
      StringBody(s) == Before(UnicodeEscape(s).bytes, StringBody(s[UnicodeEscape(s).consumed..]))
  {
  }

  lemma SixLong(s: seq<byte>)
    requires 2 <= |s| && 0 <= Hex4(s[2..])
    ensures 6 <= |s|
  {
  }

  class Parser {
    const data: seq<byte>
    var ptr: nat
    const tmp: Buffer
    var depth: nat
    const max: nat

    /** The temporary buffer could hold the whole input. */
    ghost predicate Valid()
      reads this, tmp
    {
      ptr <= |data| && tmp.Valid() && |data| < tmp.size
    }

    ghost function Rest(): seq<byte>
      requires ptr <= |data|
      reads this
    {
      data[ptr..]
    }

    /** While a string is read, what was appended never exceeds what was consumed. */
    ghost predicate RoomLeft()
      requires Valid()
      reads this, tmp
    {
      tmp.length + |Rest()| <= |data|
    }

    constructor (input: seq<byte>, limit: nat)
      ensures Valid() && Rest() == input && depth == 0 && max == limit && fresh(tmp) && fresh(tmp.buf)
    {
      data, ptr, depth, max := input, 0, 0, limit;
      tmp := new Buffer(|input|);
    }

    /** The character at an offset, the terminating NUL included. */
    method CharAt(offset: nat) returns (c: byte)
      requires Valid() && offset <= |Rest()|
      ensures c == Peek(Rest()[offset..])
    {
      c := if ptr + offset < |data| then data[ptr + offset] else 0;
    }

    method Advance(n: nat)
      requires Valid() && n <= |Rest()|
      modifies `ptr
      ensures Valid() && Rest() == old(Rest())[n..]
    {
      ptr := ptr + n;
    }

    /** The code point of the escape at the pointer and its length, by masks and shifts. */
    method ReadCodepoint() returns (codepoint: int, escapeLen: nat)
      requires Valid() && 2 <= |Rest()|
      ensures codepoint < 0 <==> UnicodeEscape(Rest()).NoUnit?
      ensures 0 <= codepoint ==> codepoint <= 0x1fffff && UnicodeEscape(Rest()) == Unit(Utf8(codepoint), escapeLen)
    {
      escapeLen := 6;
      codepoint := DecodeHex4(data[ptr + 2..]);
      RestFrom(2);
      if codepoint < 0 {
        return -1, 6;
      }
      SixLong(Rest());
      SurrogateMasks(codepoint);
      if IsSurrogate(codepoint) {
        if InLowHalf(codepoint) {
          return -1, 6;
        }
        codepoint := ReadLowHalf(codepoint);
        escapeLen := 12;
      }
    }

    lemma RestFrom(k: nat)
      requires Valid() && k <= |Rest()|
      ensures ptr + k <= |data| && data[ptr + k..] == Rest()[k..]
    {
    }

    /** The number of the escape behind the first, -1 where there is none. */
    method ReadSecond() returns (low: int)
      requires Valid() && 6 <= |Rest()|
      ensures low == SecondHex(Rest())
    {
      var c := CharAt(6);
      if c != BACKSLASH {
        return -1;
      }
      c := CharAt(7);
      if c != LOWER_U {
        return -1;
      }
      RestFrom(8);
      low := DecodeHex4(data[ptr + 8..]);
    }

    /** The rest of a surrogate pair that starts with this high half. */
    method ReadLowHalf(high: nat) returns (codepoint: int)
      requires Valid() && 6 <= |Rest()| && high == Hex4(Rest()[2..]) && 0xd800 <= high <= 0xdbff
      ensures codepoint < 0 <==> UnicodeEscape(Rest()).NoUnit?
      ensures 0 <= codepoint ==> codepoint <= 0x1fffff && UnicodeEscape(Rest()) == Unit(Utf8(codepoint), 12)
    {
      var low := ReadSecond();
      PairEscape(Rest(), high, low);
      if low < 0 {
        return -1;
      }
      LowMask(low);
      if !IsLow(low) {
        return -1;
      }
      PairIs(high, low);
      codepoint := PairPoint(high, low);
    }

    /** json_append_unicode_escape. */
    method AppendUnicodeEscape() returns (ok: bool)
      requires Valid() && RoomLeft() && 2 <= |Rest()|
      modifies `ptr, tmp`length, tmp.buf
      ensures Valid() && RoomLeft() && (ok <==> UnicodeEscape(old(Rest())).Unit?)
      ensures ok ==> var u := UnicodeEscape(old(Rest()));
        Rest() == old(Rest())[u.consumed..] && tmp.Contents() == old(tmp.Contents()) + u.bytes
    {
      var codepoint, escapeLen := ReadCodepoint();
      if codepoint < 0 {
        return false;
      }
      var utf8 := CodepointToUtf8(codepoint);
      if |utf8| == 0 {
        return false;
      }
      tmp.AppendMemUnsafe(utf8);
      Advance(escapeLen);
      ok := true;
    }

    /** One turn of the loop in json_next_string_token, the character not being a quote or NUL. */
    method StringStep(ch: byte, ghost goal: StringToken) returns (ok: bool, error: StringError)
      requires Valid() && RoomLeft() && Rest() != [] && ch == Rest()[0] && ch != QUOTE && ch != 0
      requires goal == Before(tmp.Contents(), StringBody(Rest()))
      modifies `ptr, tmp`length, tmp.buf
      ensures Valid() && RoomLeft()
      ensures ok ==> |Rest()| < |old(Rest())| && goal == Before(tmp.Contents(), StringBody(Rest()))
      ensures !ok ==> goal.Broken? && goal.error == error
    {
      ghost var s, done := Rest(), tmp.Contents();
      error := InvalidEscape;
      if ch == BACKSLASH {
        var c := CharAt(1);
        var e := Unescape(c);
        EscapeStep(s, e);
        if e == LOWER_U {
          ghost var u := UnicodeEscape(s);
          ok := AppendUnicodeEscape();
          error := InvalidUnicode;
          if ok {
            BeforeBefore(done, u.bytes, StringBody(s[u.consumed..]));
          }
          return;
        }
        if e == 0 {
          return false, error;
        }
        BeforeBefore(done, [e], StringBody(s[2..]));
        Advance(1);
        tmp.AppendCharUnsafe(e);
        Advance(1);
        assert s[1..][1..] == s[2..];
      } else {
        BodyStep(s);
        BeforeBefore(done, [ch], StringBody(s[1..]));
        tmp.AppendCharUnsafe(ch);
        Advance(1);
      }
      ok := true;
    }

    /** json_next_string_token: the unchecked appends stay inside tmp, which is never resized. */
    method NextStringToken() returns (ok: bool, bytes: seq<byte>, error: StringError)
      requires Valid() && Rest() != [] && Rest()[0] == QUOTE
      modifies `ptr, tmp`length, tmp.buf
      ensures Valid()
      ensures ok ==> StringBody(old(Rest())[1..]) == Text(bytes, Rest())
      ensures !ok ==> var t := StringBody(old(Rest())[1..]); t.Broken? && t.error == error
    {
      Advance(1);
      tmp.Reset();
      ghost var goal := StringBody(Rest());
      BeforeNothing(goal);
      var ch := CharAt(0);
      while ch != QUOTE
        invariant Valid() && RoomLeft() && ch == Peek(Rest()[0..]) && goal == Before(tmp.Contents(), StringBody(Rest()))
        decreases |Rest()|
      {
        if ch == 0 {
          return false, [], UnexpectedEnd;
        }
        ok, error := StringStep(ch, goal);
        if !ok {
          return false, [], error;
        }
        ch := CharAt(0);
      }
      assert Rest()[0..] == Rest();
      Advance(1);
      tmp.EnsureNull();
      bytes := tmp.buf[..tmp.length];
      assert bytes + [] == bytes;
      return true, bytes, UnexpectedEnd;
    }

    /** The pointer stands behind the token read from s, unless the token is an error. */
    ghost predicate Lexes(t: Token, s: seq<byte>)
      requires Valid()
      reads this, tmp
    {
      t == NextToken(s).token && (t != ErrorToken ==> Rest() == NextToken(s).rest)
    }

    method SkipSpace()
      requires Valid()
      modifies `ptr
      ensures Valid() && NextToken(Rest()) == NextToken(old(Rest())) && |Rest()| <= |old(Rest())|
      ensures Rest() != [] ==> !IsSpace(Rest()[0])
    {
      var ch := CharAt(0);
      while IsSpace(ch)
        invariant Valid() && ch == Peek(Rest()) && NextToken(Rest()) == NextToken(old(Rest())) && |Rest()| <= |old(Rest())|
        decreases |Rest()|
      {
        SpaceStep(Rest());
        Advance(1);
        ch := CharAt(0);
      }
    }

    /** One of the words true, false and null. */
    method WordAt() returns (t: Token)
      requires Valid()
      modifies `ptr
      ensures Valid() && t == WordToken(old(Rest())).token && Rest() == WordToken(old(Rest())).rest
    {
      var s := data[ptr..];
      if TRUE <= s {
        Advance(4);
        return BooleanToken(true);
      } else if FALSE <= s {
        Advance(5);
        return BooleanToken(false);
      } else if NULL <= s {
        Advance(4);
        return NullToken;
      }
      return ErrorToken;
    }

    /** strtod decides how much of the text is the number. */
    method NumberAt() returns (t: Token)
      requires Valid()
      modifies `ptr
      ensures Valid() && t == NumberTokenAt(old(Rest())).token && Rest() == NumberTokenAt(old(Rest())).rest
    {
      var n := NumberLength(data[ptr..]);
      if n == 0 {
        return ErrorToken;
      }
      t := NumberToken(data[ptr..][..n]);
      Advance(n);
    }

    method MarkAt(ch: byte) returns (t: Token)
      requires Valid() && Rest() != [] && ch == Rest()[0]
      requires ch == OBJ_BEGIN || ch == OBJ_END || ch == ARR_BEGIN || ch == ARR_END || ch == COMMA || ch == COLON
      modifies `ptr
      ensures Valid() && t == TokenAt(old(Rest())).token && Rest() == TokenAt(old(Rest())).rest
    {
      Advance(1);
      t := if ch == OBJ_BEGIN then ObjBegin else if ch == OBJ_END then ObjEnd else if ch == ARR_BEGIN then ArrBegin
           else if ch == ARR_END then ArrEnd else if ch == COMMA then Comma else Colon;
    }

    method StringAt() returns (t: Token)
      requires Valid() && Rest() != [] && Rest()[0] == QUOTE
      modifies `ptr, tmp`length, tmp.buf
      ensures Valid() && t == TokenAt(old(Rest())).token && (t != ErrorToken ==> Rest() == TokenAt(old(Rest())).rest)
    {
      var ok, bytes, error := NextStringToken();
      t := if ok then StringToken(bytes) else ErrorToken;
    }

    /** json_next_token. */
    method LexToken() returns (t: Token)
      requires Valid()
      modifies `ptr, tmp`length, tmp.buf
      ensures Valid() && Lexes(t, old(Rest()))
    {
      SkipSpace();
      ghost var s := Rest();
      TokenStep(s);
      var ch := CharAt(0);
      assert s[0..] == s;
      if ch == 0 {
        t := End;
      } else if ch == OBJ_BEGIN || ch == OBJ_END || ch == ARR_BEGIN || ch == ARR_END || ch == COMMA || ch == COLON {
        t := MarkAt(ch);
      } else if ch == QUOTE {
        t := StringAt();
      } else if ch == 0x2d || ch == 0x2b || IsDigit(ch) {
        t := NumberAt();
      } else {
        t := WordAt();
      }
    }

    /** What parsing leaves: the value and the rest with the depth as before, or a fault. */
    ghost predicate Ran(p: Parsed, ok: bool, v: Value, fault: Fault, start: nat)
      requires Valid()
      reads this, tmp
    {
      match p
      case Done(w, rest) => ok && v == w && Rest() == rest && depth == start
      case Failed(f) => !ok && fault == f
    }

    /** json_process_value for the token t read from s. */
    method ProcessValue(t: Token, ghost s: seq<byte>) returns (ok: bool, v: Value, fault: Fault)
      requires Valid() && depth <= max && Lexes(t, s)
      modifies `ptr, `depth, tmp`length, tmp.buf
      ensures Valid() && Ran(ParseValue(s, max - old(depth)), ok, v, fault, old(depth))
      decreases |s|, 0
    {
      ok, v, fault := true, Nil, ExpectedValue;
      match t
      case StringToken(bytes) => v := Str(bytes);
      case NumberToken(text) => v := Num(text);
      case BooleanToken(b) => v := Bool(b);
      case NullToken => v := Null;
      case ObjBegin => ok, v, fault := ParseObjectContext();
      case ArrBegin => ok, v, fault := ParseArrayContext();
      case _ => ok := false;
    }

    /** json_parse_array_context. */
    method ParseArrayContext() returns (ok: bool, v: Value, fault: Fault)
      requires Valid() && depth <= max
      modifies `ptr, `depth, tmp`length, tmp.buf
      ensures Valid()
      ensures old(depth) == max ==> !ok && fault == NestedTooDeep
      ensures old(depth) < max ==> Ran(ParseArray(old(Rest()), max - old(depth) - 1), ok, v, fault, old(depth))
      decreases |Rest()|, 3
    {
      depth := depth + 1;
      if depth > max {
        return false, Nil, NestedTooDeep;
      }
      ghost var s := Rest();
      var t := LexToken();
      if t == ArrEnd {
        depth := depth - 1;
        return true, Table([]), ExpectedValue;
      }
      ok, v, fault := ParseItemsContext(t, s);
    }

    /** The loop of json_parse_array_context: t is the first token of the next item, read from s. */
    method ParseItemsContext(t: Token, ghost s: seq<byte>) returns (ok: bool, v: Value, fault: Fault)
      requires Valid() && 0 < depth <= max && Lexes(t, s)
      modifies `ptr, `depth, tmp`length, tmp.buf
      ensures Valid() && Ran(ParseItems(s, 1, [], max - old(depth)), ok, v, fault, old(depth) - 1)
      decreases |s|, 2
    {
      ghost var goal, from := ParseItems(s, 1, [], max - depth), s;
      var token, i, es := t, 1, [];
      while true
        invariant Valid() && depth == old(depth) && Lexes(token, from) && |from| <= |s|
        invariant goal == ParseItems(from, i, es, max - depth)
        decreases |from|
      {
        var done;
        done, token, es, ok, fault, from := ItemTurn(token, from, i, es, goal);
        if done {
          v := Table(es);
          return;
        }
        i := i + 1;
      }
    }

    /** One item and the token behind it. */
    method ItemTurn(t: Token, ghost s: seq<byte>, i: nat, es: seq<Entry>, ghost goal: Parsed)
      returns (done: bool, token: Token, longer: seq<Entry>, ok: bool, fault: Fault, ghost from: seq<byte>)
      requires Valid() && 0 < depth <= max && Lexes(t, s) && goal == ParseItems(s, i, es, max - depth)
      modifies `ptr, `depth, tmp`length, tmp.buf
      ensures Valid()
      ensures done ==> Ran(goal, ok, Table(longer), fault, old(depth) - 1)
      ensures !done ==> depth == old(depth) && Lexes(token, from) && |from| < |s| && goal == ParseItems(from, i + 1, longer, max - depth)
      decreases |s|, 1
    {
      ghost var room := max - depth;
      from, token, longer := s, t, es;
      var v;
      ok, v, fault := ProcessValue(t, s);
      if !ok {
        return true, t, es, false, fault, s;
      }
      longer := es + [Entry(IntKey(i), v)];
      token := LexToken();
      if token == ArrEnd {
        depth := depth - 1;
        return true, token, longer, true, fault, s;
      }
      if token != Comma {
        return true, token, longer, false, ExpectedCommaOrArrEnd, s;
      }
      from := Rest();
      token := LexToken();
      done := false;
    }

    /** json_parse_object_context. */
    method ParseObjectContext() returns (ok: bool, v: Value, fault: Fault)
      requires Valid() && depth <= max
      modifies `ptr, `depth, tmp`length, tmp.buf
      ensures Valid()
      ensures old(depth) == max ==> !ok && fault == NestedTooDeep
      ensures old(depth) < max ==> Ran(ParseObject(old(Rest()), max - old(depth) - 1), ok, v, fault, old(depth))
      decreases |Rest()|, 4
    {
      depth := depth + 1;
      if depth > max {
        return false, Nil, NestedTooDeep;
      }
      ghost var s := Rest();
      var t := LexToken();
      if t == ObjEnd {
        depth := depth - 1;
        return true, Table([]), ExpectedValue;
      }
      ok, v, fault := ParseMembersContext(t, s);
    }

    /** The loop of json_parse_object_context: t is the next key, read from s. */
    method ParseMembersContext(t: Token, ghost s: seq<byte>) returns (ok: bool, v: Value, fault: Fault)
      requires Valid() && 0 < depth <= max && Lexes(t, s)
      modifies `ptr, `depth, tmp`length, tmp.buf
      ensures Valid() && Ran(ParseMembers(s, [], max - old(depth)), ok, v, fault, old(depth) - 1)
      decreases |s|, 3
    {
      ghost var goal, from := ParseMembers(s, [], max - depth), s;
      var token, es := t, [];
      while true
        invariant Valid() && depth == old(depth) && Lexes(token, from) && |from| <= |s|
        invariant goal == ParseMembers(from, es, max - depth)
        decreases |from|
      {
        var done;
        done, token, es, ok, fault, from := MemberTurn(token, from, es, goal);
        if done {
          v := Table(es);
          return;
        }
      }
    }

    /** A key, the colon and the value. */
    method ReadMember(t: Token, ghost s: seq<byte>, es: seq<Entry>) returns (ok: bool, longer: seq<Entry>, fault: Fault)
      requires Valid() && 0 < depth <= max && Lexes(t, s)
      modifies `ptr, `depth, tmp`length, tmp.buf
      ensures Valid()
      ensures !ok ==> ParseMembers(s, es, max - old(depth)) == Failed(fault)
      ensures ok ==> depth == old(depth) && |Rest()| < |s|
      ensures ok ==> ParseMembers(s, es, max - depth) == AfterMember(Rest(), longer, max - depth)
      decreases |s|, 1
    {
      longer := es;
      if !t.StringToken? {
        return false, es, ExpectedKey;
      }
      var token := LexToken();
      if token != Colon {
        return false, es, ExpectedColon;
      }
      ghost var value := Rest();
      token := LexToken();
      var v;
      ok, v, fault := ProcessValue(token, value);
      if ok {
        longer := SetMember(es, StrKey(t.bytes), v);
      }
    }

    /** One key, its value and the token behind them. */
    method MemberTurn(t: Token, ghost s: seq<byte>, es: seq<Entry>, ghost goal: Parsed)
      returns (done: bool, token: Token, longer: seq<Entry>, ok: bool, fault: Fault, ghost from: seq<byte>)
      requires Valid() && 0 < depth <= max && Lexes(t, s) && goal == ParseMembers(s, es, max - depth)
      modifies `ptr, `depth, tmp`length, tmp.buf
      ensures Valid()
      ensures done ==> Ran(goal, ok, Table(longer), fault, old(depth) - 1)
      ensures !done ==> depth == old(depth) && Lexes(token, from) && |from| < |s| && goal == ParseMembers(from, longer, max - depth)
      decreases |s|, 2
    {
      ok, longer, fault := ReadMember(t, s, es);
      if !ok {
        return true, t, longer, false, fault, s;
      }
      done, token, ok, fault, from := MemberEnd(s, longer, goal);
    }

    /** What follows a member: the end of the object or the next key. */
    method MemberEnd(ghost s: seq<byte>, es: seq<Entry>, ghost goal: Parsed)
      returns (done: bool, token: Token, ok: bool, fault: Fault, ghost from: seq<byte>)
      requires Valid() && 0 < depth <= max && |Rest()| < |s| && goal == AfterMember(Rest(), es, max - depth)
      modifies `ptr, `depth, tmp`length, tmp.buf
      ensures Valid()
      ensures done ==> Ran(goal, ok, Table(es), fault, old(depth) - 1)
      ensures !done ==> depth == old(depth) && Lexes(token, from) && |from| < |s| && goal == ParseMembers(from, es, max - depth)
    {
      token := LexToken();
      if token == ObjEnd {
        depth := depth - 1;
        return true, token, true, ExpectedValue, s;
      }
      if token != Comma {
        return true, token, false, ExpectedCommaOrObjEnd, s;
      }
      from := Rest();
      token := LexToken();
      done, ok, fault := false, true, ExpectedValue;
    }
  }

  lemma BeforeNothing(t: StringToken)
    ensures Before([], t) == t
  {
    if t.Text? {
      assert [] + t.bytes == t.bytes;
    }
  }

  lemma SpaceStep(s: seq<byte>)
    requires s != [] && IsSpace(s[0])
    ensures NextToken(s) == NextToken(s[1..])
  {
    assert TokenAt(s) == NextToken(s[1..]);
  }

  lemma TokenStep(s: seq<byte>)
    ensures NextToken(s) == TokenAt(s)
  {
  }

  /** json_decode. */
  method JsonDecode(input: seq<byte>, max: nat) returns (ok: bool, v: Value, fault: Fault)
    ensures match Decode(input, max)
      case Done(w, _) => ok && v == w
      case Failed(f) => !ok && fault == f
  {
    if |input| >= 2 && (input[0] == 0 || input[1] == 0) {
      return false, Nil, NotUtf8;
    }
    var json := new Parser(input, max);
    var t := json.LexToken();
    ok, v, fault := json.ProcessValue(t, input);
    if !ok {
      return;
    }
    t := json.LexToken();
    if t != End {
      return false, Nil, ExpectedEnd;
    }
  }
}
