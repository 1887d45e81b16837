/**
  The first bytes of the MessagePack specification, and that the encoder always takes the shortest form
  (src/lua_cmsgpack.c:177-330, 589-780).
 */
module MsgpackWire {
  import opened Powers
  import opened Bytes
  import opened MsgpackFormat
  import opened MsgpackTables
  import opened MsgpackCodec

  // ----- first bytes -----

  /** int 8 to 64 and uint 8 to 64, with the bytes of the number behind the first one. */
  predicate IntTag(t: byte, k: nat, signed: bool) {
    || (k == 1 && t == if signed then 0xd0 else 0xcc)
    || (k == 2 && t == if signed then 0xd1 else 0xcd)
    || (k == 4 && t == if signed then 0xd2 else 0xce)
    || (k == 8 && t == if signed then 0xd3 else 0xcf)
  }

  /** str 8, 16 and 32, with the bytes of the length. */
  predicate StrTag(t: byte, k: nat) {
    (t == 0xd9 && k == 1) || (t == 0xda && k == 2) || (t == 0xdb && k == 4)
  }

  predicate ArrayTag(t: byte, k: nat) {
    (t == 0xdc && k == 2) || (t == 0xdd && k == 4)
  }

  predicate MapTag(t: byte, k: nat) {
    (t == 0xde && k == 2) || (t == 0xdf && k == 4)
  }

  lemma Behind(t: byte, p: seq<byte>, rest: seq<byte>, s: seq<byte>)
    requires s == [t] + p + rest
    ensures s[0] == t && |s| == 1 + |p| + |rest| && s[1..1 + |p|] == p && s[1 + |p|..] == rest && s[1..] == p + rest
  {
  }

  /** nil, false and true. */
  lemma Atoms(rest: seq<byte>)
    ensures ReadHead([0xc0] + rest) == Scalar(Nil, rest)
    ensures ReadHead([0xc2] + rest) == Scalar(Bool(false), rest) && ReadHead([0xc3] + rest) == Scalar(Bool(true), rest)
  {
    assert ([0xc0] + rest)[1..] == rest && ([0xc2] + rest)[1..] == rest && ([0xc3] + rest)[1..] == rest;
  }

  /** The number in the field; one of 64 bits is stored in a signed integer, whichever it was written as. */
  lemma IntForm(t: byte, p: seq<byte>, signed: bool, rest: seq<byte>)
    requires IntTag(t, |p|, signed)
    ensures ReadHead([t] + p + rest) == Scalar(Int(
      if signed || |p| == 8 then Signed(FromBigEndian(p), Pow(256, |p|)) else FromBigEndian(p)), rest)
  {
    var s := [t] + p + rest;
    Behind(t, p, rest, s);
    TagReads(s, t, |p|, signed);
    FieldReads(s, p, |p|, signed || |p| == 8, Pow(256, |p|), rest);
  }

  lemma TagReads(s: seq<byte>, t: byte, k: nat, signed: bool)
    requires IntTag(t, k, signed) && s != [] && s[0] == t
    ensures ReadHead(s) == IntField(s, k, signed || k == 8)
  {
  }

  lemma FieldReads(s: seq<byte>, p: seq<byte>, k: nat, signed: bool, size: nat, rest: seq<byte>)
    requires 1 + k <= |s| && s[1..1 + k] == p && s[1 + k..] == rest && size == Pow(256, k)
    ensures IntField(s, k, signed) == Scalar(Int(if signed then Signed(FromBigEndian(p), size) else FromBigEndian(p)), rest)
  {
  }

  /** float 32 and float 64. */
  lemma FloatForm(p: seq<byte>, rest: seq<byte>)
    requires |p| == 4 || |p| == 8
    ensures ReadHead([if |p| == 4 then 0xca else 0xcb] + p + rest) == Scalar(Float(p), rest)
  {
    var t: byte := if |p| == 4 then 0xca else 0xcb;
    Behind(t, p, rest, [t] + p + rest);
  }

  lemma StrForm(t: byte, p: seq<byte>, str: seq<byte>, rest: seq<byte>)
    requires StrTag(t, |p|) && FromBigEndian(p) == |str|
    ensures ReadHead([t] + p + (str + rest)) == Scalar(Str(str), rest)
  {
    var s := [t] + p + (str + rest);
    Behind(t, p, str + rest, s);
    RawBodyReads(s, 1 + |p|, str, rest);
  }

  lemma ArrayForm(t: byte, p: seq<byte>, rest: seq<byte>)
    requires ArrayTag(t, |p|)
    ensures ReadHead([t] + p + rest) == ArrayOf(FromBigEndian(p), rest)
  {
    Behind(t, p, rest, [t] + p + rest);
  }

  lemma MapForm(t: byte, p: seq<byte>, rest: seq<byte>)
    requires MapTag(t, |p|)
    ensures ReadHead([t] + p + rest) == MapOf(FromBigEndian(p), rest)
  {
    Behind(t, p, rest, [t] + p + rest);
  }

  /** positive fixint, negative fixint, fixarray and fixmap: the value or the count is in the first byte. */
  lemma FixForms(n: nat, rest: seq<byte>)
    ensures n < 128 ==> ReadHead([n] + rest) == Scalar(Int(n), rest)
    ensures n < 32 ==> ReadHead([0xe0 + n] + rest) == Scalar(Int(n - 32), rest)
    ensures n < 16 ==> ReadHead([0x90 + n] + rest) == ArrayOf(n, rest) && ReadHead([0x80 + n] + rest) == MapOf(n, rest)
  {
    if n < 128 {
      assert ([n] + rest)[1..] == rest;
    }
    if n < 32 {
      assert ([0xe0 + n] + rest)[1..] == rest;
    }
    if n < 16 {
      assert ([0x90 + n] + rest)[1..] == rest && ([0x80 + n] + rest)[1..] == rest;
    }
  }

  /** fixstr. */
  lemma FixStr(str: seq<byte>, rest: seq<byte>)
    requires |str| < 32
    ensures ReadHead([0xa0 + |str|] + (str + rest)) == Scalar(Str(str), rest)
  {
    var s := [0xa0 + |str|] + (str + rest);
    assert s[1..] == str + rest;
    RawBodyReads(s, 1, str, rest);
  }

  /** Input is of no known type exactly when it starts as never used, with bin or with an extension. */
  lemma UnknownTypes(s: seq<byte>)
    ensures ReadHead(s) == Bad <==> s != [] && (s[0] == 0xc1 || 0xc4 <= s[0] <= 0xc9 || 0xd4 <= s[0] <= 0xd8)
  {
  }

  /** Integers that are not negative are written as unsigned ones, the others as signed. */
  lemma SignShows(n: int)
    requires Int64(n)
    ensures 0 <= n <==> IntBytes(n)[0] < 0x80 || 0xcc <= IntBytes(n)[0] <= 0xcf
  {
  }

  // ----- tables -----

  /** A table with the keys 1 to n and no others starts an array of n items, the empty one too; any other a map of its entries. */
  lemma TableForm(es: seq<Entry>, level: nat)
    requires WellFormed(Table(es)) && level < 16 && |es| < 0x8000_0000
    ensures var h := ReadHead(Encode(Table(es), level));
            if forall j :: 1 <= j <= |es| ==> HasKey(es, Int(j)) then h.ArrayOf? && h.n == |es| else h.MapOf? && h.n == |es|
  {
    if IsArray(es) {
      ArrayReads(|es|, EncodeItems(es, 0, level + 1));
    } else {
      MapReads(|es|, EncodeEntries(es, 0, level + 1));
    }
  }

  // ----- nesting -----

  /** A boolean inside so many one-element arrays. */
  function Nested(depth: nat): Value {
    if depth == 0 then Bool(true) else Table([Entry(Int(1), Nested(depth - 1))])
  }

  function Brackets(n: nat): seq<byte> {
    if n == 0 then [] else [0x91] + Brackets(n - 1)
  }

  lemma {:induction false} NestedWellFormed(depth: nat)
    ensures WellFormed(Nested(depth))
  {
    if depth > 0 {
      NestedWellFormed(depth - 1);
    }
  }

  lemma SingleItem(v: Value, level: nat)
    requires WellFormed(Table([Entry(Int(1), v)])) && level < 16
    ensures WellFormed(v) && Encode(Table([Entry(Int(1), v)]), level) == [0x91] + Encode(v, level + 1)
  {
    var es := [Entry(Int(1), v)];
    assert es[0] in es && HasKey(es, Int(1)) && IsArray(es);
    assert EncodeItems(es, 1, level + 1) == [];
    assert Encode(v, level + 1) + [] == Encode(v, level + 1);
  }

  /** Sixteen tables may be nested; the next one is written as nil. */
  lemma {:induction false} SixteenLevels(depth: nat, level: nat)
    requires level <= 16
    ensures WellFormed(Nested(depth))
    ensures Encode(Nested(depth), level) == if depth + level <= 16 then Brackets(depth) + [0xc3] else Brackets(16 - level) + [0xc0]
  {
    NestedWellFormed(depth);
    if depth > 0 && level < 16 {
      SingleItem(Nested(depth - 1), level);
      SixteenLevels(depth - 1, level + 1);
      OneBracket(if depth + level <= 16 then depth else 16 - level, if depth + level <= 16 then [0xc3] else [0xc0]);
    }
  }

  lemma OneBracket(n: nat, inner: seq<byte>)
    requires 0 < n
    ensures [0x91] + (Brackets(n - 1) + inner) == Brackets(n) + inner
  {
    assert Brackets(n) == [0x91] + Brackets(n - 1);
  }

  // ----- shortest form -----

  /** What is read as a string: the bytes in front of it and how long it can be. */
  lemma StrRange(s: seq<byte>)
    requires s != [] && ReadHead(s).Scalar? && ReadHead(s).v.Str?
    ensures var n, len := |ReadHead(s).v.s|, |s| - |ReadHead(s).rest|;
      && n < len && (len - n <= 1 ==> n < 32) && (len - n <= 2 ==> n <= 0xff) && (len - n <= 4 ==> n <= 0xffff)
  {
    FieldSizes();
    if 2 <= |s| {
      FieldBound(s, 1, 0x100);
    }
    if 3 <= |s| {
      FieldBound(s, 2, 0x1_0000);
    }
    if 5 <= |s| {
      FieldBound(s, 4, TWO32);
    }
  }

  lemma StrHeaderSize(n: nat)
    ensures |StrHeader(n)| == if n < 32 then 1 else if n <= 0xff then 2 else if n <= 0xffff then 3 else 5
  {
  }

  /** No bytes that decode to a string are fewer than those the encoder writes for it. */
  lemma ShortestStr(s: seq<byte>, str: seq<byte>)
    requires ReadHead(s) == Scalar(Str(str), [])
    ensures |StrHeader(|str|) + str| <= |s|
  {
    if s != [] {
      StrRange(s);
      StrHeaderSize(|str|);
    }
  }

  lemma CountRange(s: seq<byte>)
    requires s != [] && (ReadHead(s).ArrayOf? || ReadHead(s).MapOf?)
    ensures var n, len := ReadHead(s).n, |s| - |ReadHead(s).rest|;
      && 1 <= len && (len <= 2 ==> n <= 15) && (len <= 4 ==> n <= 65535)
  {
    FieldSizes();
    if 3 <= |s| {
      FieldBound(s, 2, 0x1_0000);
    }
  }

  /** Nor that start an array or a map of so many entries. */
  lemma ShortestCount(s: seq<byte>, n: nat)
    ensures ReadHead(s) == ArrayOf(n, []) ==> |ArrayHeader(n)| <= |s|
    ensures ReadHead(s) == MapOf(n, []) ==> |MapHeader(n)| <= |s|
  {
    if s != [] && (ReadHead(s).ArrayOf? || ReadHead(s).MapOf?) {
      CountRange(s);
    }
  }
}
