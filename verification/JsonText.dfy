/** JSON string literals: escaping, and the tokenizer that undoes it (src/lua_cjson.c:133-170, 462-483, 734-940). */
module JsonText {
  import opened Bytes
  import opened StringBuffer

  // Characters by their ASCII codes.
  const QUOTE: byte := 0x22
  const SLASH: byte := 0x2f
  const BACKSLASH: byte := 0x5c
  const LOWER_B: byte := 0x62
  const LOWER_F: byte := 0x66
  const LOWER_N: byte := 0x6e
  const LOWER_R: byte := 0x72
  const LOWER_T: byte := 0x74
  const LOWER_U: byte := 0x75

  // ----- escaping -----

  /** Lower-case hexadecimal. */
  function HexChar(d: nat): byte
    requires d < 16
  {
    if d < 10 then 0x30 + d else 0x61 + (d - 10)
  }

  /** char2escape: nothing for a character that stands for itself. */
  function Escape(c: byte): (e: seq<byte>)
    ensures CString(e)
  {
    if c == 0x08 then [BACKSLASH, LOWER_B]
    else if c == 0x09 then [BACKSLASH, LOWER_T]
    else if c == 0x0a then [BACKSLASH, LOWER_N]
    else if c == 0x0c then [BACKSLASH, LOWER_F]
    else if c == 0x0d then [BACKSLASH, LOWER_R]
    else if c == QUOTE || c == SLASH || c == BACKSLASH then [BACKSLASH, c]
    else if c < 0x20 || c == 0x7f then [BACKSLASH, LOWER_U, 0x30, 0x30, HexChar(c / 16), HexChar(c % 16)]
    else []
  }

  function Escaped(s: seq<byte>): seq<byte> {
    if s == [] then []
    else (if Escape(s[0]) == [] then [s[0]] else Escape(s[0])) + Escaped(s[1..])
  }

  /** The literal json_append_string appends. */
  function Literal(s: seq<byte>): seq<byte> {
    [QUOTE] + Escaped(s) + [QUOTE]
  }

  // ----- reading -----

  /** The byte at the pointer: NUL behind the end. */
  function Peek(s: seq<byte>): byte {
    if s == [] then 0 else s[0]
  }

  function HexDigit(c: byte): int {
    if 0x30 <= c <= 0x39 then c - 0x30
    else if 0x61 <= c <= 0x66 then c - 0x61 + 10
    else if 0x41 <= c <= 0x46 then c - 0x41 + 10
    else -1
  }

  /** decode_hex4: -1 unless four digits are there. */
  function Hex4(s: seq<byte>): (n: int)
    ensures -1 <= n <= 0xffff && (0 <= n ==> 4 <= |s|)
  {
    if |s| < 4 || HexDigit(s[0]) < 0 || HexDigit(s[1]) < 0 || HexDigit(s[2]) < 0 || HexDigit(s[3]) < 0 then -1
    else 0x1000 * HexDigit(s[0]) + 0x100 * HexDigit(s[1]) + 0x10 * HexDigit(s[2]) + HexDigit(s[3])
  }

  /** Section 3 of RFC 3629: the bytes of a code point, as the table there lays them out. */
  function Utf8(c: nat): (u: seq<byte>)
    requires c <= 0x1fffff
    ensures 1 <= |u| <= 4 && (c <= 0xffff ==> |u| <= 3)
  {
    if c <= 0x7f then [c]
    else if c <= 0x7ff then [0xc0 + c / 0x40, 0x80 + c % 0x40]
    else if c <= 0xffff then [0xe0 + c / 0x1000, 0x80 + c / 0x40 % 0x40, 0x80 + c % 0x40]
    else [0xf0 + c / 0x40000, 0x80 + c / 0x1000 % 0x40, 0x80 + c / 0x40 % 0x40, 0x80 + c % 0x40]
  }

  datatype Unit = Unit(bytes: seq<byte>, consumed: nat) | NoUnit

  /** json_append_unicode_escape: one escape, or the two of a surrogate pair. */
  function UnicodeEscape(s: seq<byte>): (u: Unit)
    requires 2 <= |s|
    ensures u.Unit? ==> |u.bytes| < u.consumed <= |s|
  {
    var high := Hex4(s[2..]);
    if high < 0 then NoUnit
    else if high < 0xd800 || 0xdfff < high then Unit(Utf8(high), 6)
    else if 0xdc00 <= high then NoUnit
    else if |s| < 8 || s[6] != BACKSLASH || s[7] != LOWER_U then NoUnit
    else
      var low := Hex4(s[8..]);
      if low < 0xdc00 || 0xdfff < low then NoUnit
      else Unit(Utf8(0x10000 + 0x400 * (high - 0xd800) + (low - 0xdc00)), 12)
  }

  /** The number of the escape behind the first, -1 where there is none. */
  function SecondHex(s: seq<byte>): int {
    if |s| < 8 || s[6] != BACKSLASH || s[7] != LOWER_U then -1 else Hex4(s[8..])
  }

  /** An escape that starts with a high half. */
  lemma PairEscape(s: seq<byte>, high: nat, low: int)
    requires 2 <= |s| && high == Hex4(s[2..]) && 0xd800 <= high <= 0xdbff && low == SecondHex(s)
    ensures UnicodeEscape(s) ==
      if low < 0xdc00 || 0xdfff < low then NoUnit else Unit(Utf8(0x10000 + 0x400 * (high - 0xd800) + (low - 0xdc00)), 12)
    ensures low <= 0xffff
  {
  }

  /** escape2char: what the character after a backslash stands for, 0 for none. */
  function Unescape(c: byte): byte {
    if c == QUOTE || c == BACKSLASH || c == SLASH then c
    else if c == LOWER_B then 0x08
    else if c == LOWER_T then 0x09
    else if c == LOWER_N then 0x0a
    else if c == LOWER_F then 0x0c
    else if c == LOWER_R then 0x0d
    else if c == LOWER_U then LOWER_U
    else 0
  }

  datatype StringError = UnexpectedEnd | InvalidUnicode | InvalidEscape

  datatype StringToken = Text(bytes: seq<byte>, rest: seq<byte>) | Broken(error: StringError, at: seq<byte>)

  function Before(b: seq<byte>, t: StringToken): StringToken {
    match t
    case Text(bytes, rest) => Text(b + bytes, rest)
    case Broken(_, _) => t
  }

  /** json_next_string_token after the opening quote. */
  function StringBody(s: seq<byte>): (t: StringToken)
    ensures t.Text? ==> |t.bytes| + |t.rest| < |s|
    decreases |s|
  {
    var c := Peek(s);
    if c == QUOTE then Text([], s[1..])
    else if c == 0 then Broken(UnexpectedEnd, s)
    else if c == BACKSLASH then
      var e := Unescape(Peek(s[1..]));
      if e == LOWER_U then
        var u := UnicodeEscape(s);
        if u.NoUnit? then Broken(InvalidUnicode, s) else Before(u.bytes, StringBody(s[u.consumed..]))
      else if e == 0 then Broken(InvalidEscape, s)
      else Before([e], StringBody(s[2..]))
    else Before([c], StringBody(s[1..]))
  }

  // ----- round trip -----

  lemma HexBack(d: nat)
    requires d < 16
    ensures HexDigit(HexChar(d)) == d
  {
  }

  /** The escapes of two characters, undone. */
  lemma EscapeBack(c: byte)
    requires |Escape(c)| == 2
    ensures Escape(c)[0] == BACKSLASH && Unescape(Escape(c)[1]) == c && c != 0 && c != LOWER_U
  {
  }

  lemma ShortAt(s: seq<byte>, c: byte, rest: seq<byte>)
    requires 2 <= |s| && s[0] == BACKSLASH && Unescape(s[1]) == c && c != 0 && c != LOWER_U && s[2..] == rest
    ensures StringBody(s) == Before([c], StringBody(rest))
  {
    assert s[1..][0] == s[1];
  }

  lemma ShortEscape(c: byte, rest: seq<byte>)
    requires |Escape(c)| == 2
    ensures StringBody(Escape(c) + rest) == Before([c], StringBody(rest))
  {
    EscapeBack(c);
    ShortAt(Escape(c) + rest, c, rest);
  }

  lemma LongUnit(c: byte, rest: seq<byte>)
    requires |Escape(c)| == 6
    ensures UnicodeEscape(Escape(c) + rest) == Unit([c], 6)
  {
    var s := Escape(c) + rest;
    HexBack(c / 16);
    HexBack(c % 16);
    assert s[2..][..4] == Escape(c)[2..];
    assert Hex4(s[2..]) == c;
  }

  lemma LongEscape(c: byte, rest: seq<byte>, s: seq<byte>)
    requires |Escape(c)| == 6 && s == Escape(c) + rest
    ensures StringBody(s) == Before([c], StringBody(rest))
  {
    LongUnit(c, rest);
    assert s[6..] == rest && s[1..][0] == LOWER_U;
  }

  lemma NoEscape(c: byte, rest: seq<byte>)
    requires Escape(c) == []
    ensures StringBody([c] + rest) == Before([c], StringBody(rest))
  {
    assert ([c] + rest)[1..] == rest;
  }

  /** One byte, escaped or not, reads back as itself. */
  lemma OneByte(c: byte, rest: seq<byte>)
    ensures var e := if Escape(c) == [] then [c] else Escape(c);
      StringBody(e + rest) == Before([c], StringBody(rest))
  {
    if |Escape(c)| == 2 {
      ShortEscape(c, rest);
    } else if |Escape(c)| == 6 {
      LongEscape(c, rest, Escape(c) + rest);
    } else {
      NoEscape(c, rest);
    }
  }

  /** Tokenizing the literal of s gives s and consumes exactly the literal. */
  lemma {:induction false} LiteralReads(s: seq<byte>, rest: seq<byte>)
    ensures StringBody(Escaped(s) + [QUOTE] + rest) == Text(s, rest)
  {
    var tail := [QUOTE] + rest;
    if s == [] {
      assert [] + [QUOTE] + rest == tail && tail[1..] == rest;
    } else {
      var e := if Escape(s[0]) == [] then [s[0]] else Escape(s[0]);
      var more := Escaped(s[1..]) + [QUOTE] + rest;
      assert Escaped(s) + [QUOTE] + rest == e + more;
      OneByte(s[0], more);
      LiteralReads(s[1..], rest);
      assert [s[0]] + s[1..] == s;
    }
  }

  // ----- UTF-8 -----

  predicate Continuation(b: byte) {
    0x80 <= b < 0xc0
  }

  /** The six bits a continuation byte carries. */
  function Low6(b: byte): int {
    b as int - 0x80
  }

  /** The code point a sequence of bytes is the UTF-8 form of, shortest form only, -1 for none. */
  function FromUtf8(u: seq<byte>): int {
    if |u| == 1 && u[0] < 0x80 then u[0]
    else if |u| == 2 && 0xc2 <= u[0] < 0xe0 && Continuation(u[1]) then
      0x40 * (u[0] as int - 0xc0) + Low6(u[1])
    else if |u| == 3 && 0xe0 <= u[0] < 0xf0 && Continuation(u[1]) && Continuation(u[2]) then
      var c: int := 0x1000 * (u[0] as int - 0xe0) + 0x40 * Low6(u[1]) + Low6(u[2]);
      if 0x800 <= c && !(0xd800 <= c <= 0xdfff) then c else -1
    else if |u| == 4 && 0xf0 <= u[0] < 0xf5 && Continuation(u[1]) && Continuation(u[2]) && Continuation(u[3]) then
      var c: int := 0x40000 * (u[0] as int - 0xf0) + 0x1000 * Low6(u[1]) + 0x40 * Low6(u[2]) + Low6(u[3]);
      if 0x10000 <= c <= 0x10ffff then c else -1
    else -1
  }

  /** Every Unicode scalar value. */
  predicate Scalar(c: int) {
    0 <= c <= 0x10ffff && !(0xd800 <= c <= 0xdfff)
  }

  /** c in digits of the given base. */
  lemma TwoDigits(c: nat, base: nat, q: nat)
    requires 0 < base && q == c / base
    ensures c == base * q + c % base && c % base < base
  {
  }

  lemma Digits64(c: nat)
    ensures c / 0x1000 == c / 0x40 / 0x40 && c / 0x40000 == c / 0x1000 / 0x40
    ensures c == 0x1000 * (c / 0x1000) + 0x40 * (c / 0x40 % 0x40) + c % 0x40
    ensures c / 0x1000 == 0x40 * (c / 0x40000) + c / 0x1000 % 0x40
  {
    TwoDigits(c, 0x40, c / 0x40);
    TwoDigits(c / 0x40, 0x40, c / 0x40 / 0x40);
    TwoDigits(c / 0x1000, 0x40, c / 0x1000 / 0x40);
  }

  /** What Utf8 lays out is the UTF-8 form of exactly its code point. */
  lemma Utf8Reads(c: nat)
    requires Scalar(c)
    ensures FromUtf8(Utf8(c)) == c
  {
    Digits64(c);
  }

  /** The escape of a UTF-16 code unit. */
  function UnitEscape(n: nat): (s: seq<byte>)
    requires n <= 0xffff
    ensures |s| == 6
  {
    [BACKSLASH, LOWER_U, HexChar(n / 0x1000), HexChar(n / 0x100 % 16), HexChar(n / 0x10 % 16), HexChar(n % 16)]
  }

  /** Sections 3.3 and 7 of RFC 8259: one escape below 0x10000, a surrogate pair from there on. */
  function PointEscape(c: nat): seq<byte>
    requires Scalar(c)
  {
    if c <= 0xffff then UnitEscape(c)
    else UnitEscape(0xd800 + (c - 0x10000) / 0x400) + UnitEscape(0xdc00 + (c - 0x10000) % 0x400)
  }

  lemma Digits16(n: nat)
    requires n <= 0xffff
    ensures n == 0x1000 * (n / 0x1000) + 0x100 * (n / 0x100 % 16) + 0x10 * (n / 0x10 % 16) + n % 16
  {
    TwoDigits(n, 16, n / 0x10);
    TwoDigits(n / 0x10, 16, n / 0x100);
    TwoDigits(n / 0x100, 16, n / 0x1000);
  }

  lemma UnitReads(n: nat, rest: seq<byte>)
    requires n <= 0xffff
    ensures Hex4((UnitEscape(n) + rest)[2..]) == n
  {
    var s := (UnitEscape(n) + rest)[2..];
    assert s[..4] == UnitEscape(n)[2..];
    Digits16(n);
    HexBack(n / 0x1000);
    HexBack(n / 0x100 % 16);
    HexBack(n / 0x10 % 16);
    HexBack(n % 16);
  }

  lemma PairReads(high: nat, low: nat, rest: seq<byte>)
    requires 0xd800 <= high <= 0xdbff && 0xdc00 <= low <= 0xdfff
    ensures UnicodeEscape(UnitEscape(high) + UnitEscape(low) + rest)
         == Unit(Utf8(0x10000 + 0x400 * (high - 0xd800) + (low - 0xdc00)), 12)
  {
    var s, tail := UnitEscape(high) + UnitEscape(low) + rest, UnitEscape(low) + rest;
    assert s == UnitEscape(high) + tail;
    UnitReads(high, tail);
    UnitReads(low, rest);
    SecondUnit(UnitEscape(high), tail, s);
    PairEscape(s, high, low);
  }

  lemma SecondUnit(first: seq<byte>, tail: seq<byte>, s: seq<byte>)
    requires |first| == 6 && s == first + tail && 2 <= |tail| && tail[0] == BACKSLASH && tail[1] == LOWER_U
    ensures SecondHex(s) == Hex4(tail[2..])
  {
    assert s[8..] == tail[2..];
  }

  lemma PointDigits(c: nat, q: nat, r: nat)
    requires 0xffff < c <= 0x10ffff && q == (c - 0x10000) / 0x400 && r == (c - 0x10000) % 0x400
    ensures q < 0x400 && r < 0x400 && c == 0x10000 + 0x400 * q + r
  {
  }

  lemma PairForm(c: nat, q: nat, r: nat)
    requires Scalar(c) && 0xffff < c && q == (c - 0x10000) / 0x400 < 0x400 && r == (c - 0x10000) % 0x400
    ensures PointEscape(c) == UnitEscape(0xd800 + q) + UnitEscape(0xdc00 + r) && |PointEscape(c)| == 12
  {
  }

  lemma PairPointReads(c: nat, q: nat, r: nat, rest: seq<byte>)
    requires q < 0x400 && r < 0x400 && c == 0x10000 + 0x400 * q + r
    ensures UnicodeEscape(UnitEscape(0xd800 + q) + UnitEscape(0xdc00 + r) + rest) == Unit(Utf8(c), 12)
  {
    PairReads(0xd800 + q, 0xdc00 + r, rest);
  }

  /** Every scalar value written as escapes, a surrogate pair where needed, comes back as its UTF-8 form. */
  lemma EscapedPointReads(c: nat, rest: seq<byte>)
    requires Scalar(c)
    ensures UnicodeEscape(PointEscape(c) + rest) == Unit(Utf8(c), |PointEscape(c)|)
  {
    if c <= 0xffff {
      UnitEscapeReads(c, rest);
    } else {
      var q, r := (c - 0x10000) / 0x400, (c - 0x10000) % 0x400;
      PointDigits(c, q, r);
      PairForm(c, q, r);
      PairPointReads(c, q, r, rest);
    }
  }

  lemma UnitEscapeReads(c: nat, rest: seq<byte>)
    requires c <= 0xffff && !(0xd800 <= c <= 0xdfff)
    ensures UnicodeEscape(UnitEscape(c) + rest) == Unit(Utf8(c), 6)
  {
    UnitReads(c, rest);
  }

  /** A lone surrogate, low before high or high without low, is an error whatever follows. */
  lemma LoneSurrogate(high: nat, rest: seq<byte>)
    requires 0xd800 <= high <= 0xdfff
    requires 0xdc00 <= high || |rest| < 6 || rest[0] != BACKSLASH || rest[1] != LOWER_U || !(0xdc00 <= Hex4(rest[2..]) <= 0xdfff)
    ensures UnicodeEscape(UnitEscape(high) + rest).NoUnit?
  {
    var s := UnitEscape(high) + rest;
    UnitReads(high, rest);
    if 8 <= |s| && 2 <= |rest| {
      assert s[8..] == rest[2..];
    }
  }
}
