/** Lua values and the headers of their MessagePack forms (src/lua_cmsgpack.c:177-510, 589-795). */
module MsgpackFormat {
  import opened Powers
  import opened Bytes

  /**
    A number that is no integer keeps its IEEE 754 bytes, 4 or 8 of them. A table is its entries
    in the order lua_next visits them.
   */
  datatype Value =
    | Nil
    | Bool(b: bool)
    | Int(n: int)
    | Float(payload: seq<byte>)
    | Str(s: seq<byte>)
    | Table(entries: seq<Entry>)

  datatype Entry = Entry(key: Value, val: Value)

  const TWO63: int := 0x8000_0000_0000_0000

  predicate Int64(n: int) {
    -TWO63 <= n < TWO63
  }

  // ----- what the encoder writes -----

  function IntBytes(n: int): seq<byte>
    requires Int64(n)
  {
    if 0 <= n then
      if n <= 127 then [n]
      else if n <= 0xff then [0xcc] + BigEndian(n, 1)
      else if n <= 0xffff then [0xcd] + BigEndian(n, 2)
      else if n <= 0xffff_ffff then [0xce] + BigEndian(n, 4)
      else [0xcf] + BigEndian(n, 8)
    else
      if -32 <= n then [n + 256]
      else if -128 <= n then [0xd0] + BigEndian(n, 1)
      else if -32768 <= n then [0xd1] + BigEndian(n, 2)
      else if -2147483648 <= n then [0xd2] + BigEndian(n, 4)
      else [0xd3] + BigEndian(n, 8)
  }

  function FloatBytes(payload: seq<byte>): seq<byte> {
    [if |payload| == 4 then 0xca else 0xcb] + payload
  }

  /** Longer lengths lose their high bits. */
  function StrHeader(len: nat): seq<byte> {
    if len < 32 then [0xa0 + len]
    else if len <= 0xff then [0xd9] + BigEndian(len, 1)
    else if len <= 0xffff then [0xda] + BigEndian(len, 2)
    else [0xdb] + BigEndian(len, 4)
  }

  function ArrayHeader(n: nat): seq<byte> {
    if n <= 15 then [0x90 + n]
    else if n <= 65535 then [0xdc] + BigEndian(n, 2)
    else [0xdd] + BigEndian(n, 4)
  }

  function MapHeader(n: nat): seq<byte> {
    if n <= 15 then [0x80 + n]
    else if n <= 65535 then [0xde] + BigEndian(n, 2)
    else [0xdf] + BigEndian(n, 4)
  }

  // ----- what the decoder makes of the first bytes -----

  datatype Head =
    | Scalar(v: Value, rest: seq<byte>)
    | ArrayOf(n: nat, rest: seq<byte>)
    | MapOf(n: nat, rest: seq<byte>)
    | Short
    | Bad

  /** A field of k bytes after the tag. */
  function Field(s: seq<byte>, k: nat): nat
    requires 1 + k <= |s|
  {
    FromBigEndian(s[1..1 + k])
  }

  function IntField(s: seq<byte>, k: nat, signed: bool): Head {
    if |s| < 1 + k then Short
    else Scalar(Int(if signed then Signed(Field(s, k), Pow(256, k)) else Field(s, k)), s[1 + k..])
  }

  function FloatField(s: seq<byte>, k: nat): Head {
    if |s| < 1 + k then Short else Scalar(Float(s[1..1 + k]), s[1 + k..])
  }

  function RawBody(s: seq<byte>, at: nat, len: nat): Head {
    if |s| < at + len then Short else Scalar(Str(s[at..at + len]), s[at + len..])
  }

  function RawField(s: seq<byte>, k: nat): Head {
    if |s| < 1 + k then Short else RawBody(s, 1 + k, Field(s, k))
  }

  function ArrayField(s: seq<byte>, k: nat): Head {
    if |s| < 1 + k then Short else ArrayOf(Field(s, k), s[1 + k..])
  }

  function MapField(s: seq<byte>, k: nat): Head {
    if |s| < 1 + k then Short else MapOf(Field(s, k), s[1 + k..])
  }

  function IntHead(s: seq<byte>, t: int): Head {
    if t == 0xcc then IntField(s, 1, false)
    else if t == 0xd0 then IntField(s, 1, true)
    else if t == 0xcd then IntField(s, 2, false)
    else if t == 0xd1 then IntField(s, 2, true)
    else if t == 0xce then IntField(s, 4, false)
    else if t == 0xd2 then IntField(s, 4, true)
    else if t == 0xcf then IntField(s, 8, true)
    else if t == 0xd3 then IntField(s, 8, true)
    else Bad
  }

  function AtomHead(s: seq<byte>, t: int): Head
    requires s != []
  {
    if t == 0xc0 then Scalar(Nil, s[1..])
    else if t == 0xc3 then Scalar(Bool(true), s[1..])
    else if t == 0xc2 then Scalar(Bool(false), s[1..])
    else if t == 0xca then FloatField(s, 4)
    else if t == 0xcb then FloatField(s, 8)
    else IntHead(s, t)
  }

  function SizedHead(s: seq<byte>, t: int): Head {
    if t == 0xd9 then RawField(s, 1)
    else if t == 0xda then RawField(s, 2)
    else if t == 0xdb then RawField(s, 4)
    else if t == 0xdc then ArrayField(s, 2)
    else if t == 0xdd then ArrayField(s, 4)
    else if t == 0xde then MapField(s, 2)
    else if t == 0xdf then MapField(s, 4)
    else Bad
  }

  /** The default of the switch: types told by the high bits of the first byte. */
  function FixHead(s: seq<byte>, t: int): Head
    requires s != [] && 0 <= t
  {
    if t < 0x80 then Scalar(Int(t), s[1..])
    else if 0xe0 <= t then Scalar(Int(t - 256), s[1..])
    else if 0xa0 <= t then RawBody(s, 1, t % 32)
    else if 0x90 <= t then ArrayOf(t % 16, s[1..])
    else MapOf(t % 16, s[1..])
  }

  /** The switch of mp_decode_to_lua_type. An unsigned 64-bit integer is stored in a signed one. */
  function ReadHead(s: seq<byte>): Head {
    if s == [] then Short
    else if 0xc0 <= s[0] < 0xd9 then AtomHead(s, s[0])
    else if 0xd9 <= s[0] < 0xe0 then SizedHead(s, s[0])
    else FixHead(s, s[0])
  }

  // ----- headers round trip -----

  lemma FieldParts(tag: byte, n: int, k: nat, rest: seq<byte>)
    requires 0 < k
    ensures var s := [tag] + BigEndian(n, k) + rest;
      s[0] == tag && |s| == 1 + k + |rest| && Pow(256, k) > 0 && Field(s, k) == n % Pow(256, k) && s[1 + k..] == rest
  {
    var s := [tag] + BigEndian(n, k) + rest;
    assert s[1..1 + k] == BigEndian(n, k);
    BigEndianValue(n, k);
  }

  lemma SignedModulus(n: int, size: nat)
    requires 0 < size && size % 2 == 0 && 0 - size <= 2 * n < size
    ensures Signed(n % size, size) == n
  {
    if 0 <= n {
      DivisionIs(n, size, 0, n);
    } else {
      DivisionIs(n, size, -1, n + size);
    }
  }

  lemma UnsignedModulus(n: nat, size: nat)
    requires n < size
    ensures n % size == n
  {
  }

  lemma UnsignedField(tag: byte, n: nat, k: nat, rest: seq<byte>)
    requires 0 < k && n < Pow(256, k)
    ensures var s := [tag] + BigEndian(n, k) + rest;
      s != [] && s[0] == tag && IntField(s, k, false) == Scalar(Int(n), rest)
  {
    FieldParts(tag, n, k, rest);
    UnsignedModulus(n, Pow(256, k));
  }

  lemma SignedField(tag: byte, n: int, k: nat, rest: seq<byte>, size: nat)
    requires 0 < k && size == Pow(256, k) && size % 2 == 0 && 0 < size && 0 - size <= 2 * n < size
    ensures var s := [tag] + BigEndian(n, k) + rest;
      s != [] && s[0] == tag && IntField(s, k, true) == Scalar(Int(n), rest)
  {
    FieldParts(tag, n, k, rest);
    SignedModulus(n, size);
  }

  lemma PositiveIntReads(n: int, rest: seq<byte>)
    requires Int64(n) && 0 <= n
    ensures ReadHead(IntBytes(n) + rest) == Scalar(Int(n), rest)
  {
    FieldSizes();
    if n <= 127 {
      assert ([n] + rest)[1..] == rest;
    } else if n <= 0xff {
      UnsignedField(0xcc, n, 1, rest);
    } else if n <= 0xffff {
      UnsignedField(0xcd, n, 2, rest);
    } else if n <= 0xffff_ffff {
      UnsignedField(0xce, n, 4, rest);
    } else {
      SignedField(0xcf, n, 8, rest, TWO64);
    }
  }

  lemma NegativeIntReads(n: int, rest: seq<byte>)
    requires Int64(n) && n < 0
    ensures ReadHead(IntBytes(n) + rest) == Scalar(Int(n), rest)
  {
    FieldSizes();
    if -32 <= n {
      assert ([n + 256] + rest)[1..] == rest;
    } else if -128 <= n {
      SignedField(0xd0, n, 1, rest, 0x100);
    } else if -32768 <= n {
      SignedField(0xd1, n, 2, rest, 0x1_0000);
    } else if -2147483648 <= n {
      SignedField(0xd2, n, 4, rest, TWO32);
    } else {
      SignedField(0xd3, n, 8, rest, TWO64);
    }
  }

  lemma IntReads(n: int, rest: seq<byte>)
    requires Int64(n)
    ensures ReadHead(IntBytes(n) + rest) == Scalar(Int(n), rest)
  {
    if 0 <= n {
      PositiveIntReads(n, rest);
    } else {
      NegativeIntReads(n, rest);
    }
  }

  lemma FloatReads(payload: seq<byte>, rest: seq<byte>)
    requires |payload| == 4 || |payload| == 8
    ensures ReadHead(FloatBytes(payload) + rest) == Scalar(Float(payload), rest)
  {
    var s, k := FloatBytes(payload) + rest, |payload|;
    assert s[1..1 + k] == payload && s[1 + k..] == rest;
  }

  lemma RawFieldReads(tag: byte, str: seq<byte>, k: nat, rest: seq<byte>)
    requires 0 < k && |str| < Pow(256, k)
    ensures var s := [tag] + BigEndian(|str|, k) + str + rest;
      s != [] && s[0] == tag && RawField(s, k) == Scalar(Str(str), rest)
  {
    var s := [tag] + BigEndian(|str|, k) + str + rest;
    assert s == [tag] + BigEndian(|str|, k) + (str + rest);
    FieldParts(tag, |str|, k, str + rest);
    UnsignedModulus(|str|, Pow(256, k));
    RawBodyReads(s, 1 + k, str, rest);
  }

  lemma RawBodyReads(s: seq<byte>, at: nat, str: seq<byte>, rest: seq<byte>)
    requires at <= |s| && s[at..] == str + rest
    ensures RawBody(s, at, |str|) == Scalar(Str(str), rest)
  {
    assert s[at..at + |str|] == s[at..][..|str|];
    assert s[at + |str|..] == s[at..][|str|..];
  }

  lemma StrReads(str: seq<byte>, rest: seq<byte>)
    requires |str| < TWO32
    ensures ReadHead(StrHeader(|str|) + str + rest) == Scalar(Str(str), rest)
  {
    FieldSizes();
    var s := StrHeader(|str|) + str + rest;
    if |str| < 32 {
      assert s[1..] == str + rest;
      RawBodyReads(s, 1, str, rest);
    } else if |str| <= 0xff {
      RawFieldReads(0xd9, str, 1, rest);
    } else if |str| <= 0xffff {
      RawFieldReads(0xda, str, 2, rest);
    } else {
      RawFieldReads(0xdb, str, 4, rest);
    }
  }

  lemma ArrayReads(n: nat, rest: seq<byte>)
    requires n < TWO32
    ensures ReadHead(ArrayHeader(n) + rest) == ArrayOf(n, rest)
  {
    FieldSizes();
    var s := ArrayHeader(n) + rest;
    if n <= 15 {
      assert s[1..] == rest;
    } else {
      var k := if n <= 65535 then 2 else 4;
      FieldParts(s[0], n, k, rest);
      UnsignedModulus(n, Pow(256, k));
    }
  }

  lemma MapReads(n: nat, rest: seq<byte>)
    requires n < TWO32
    ensures ReadHead(MapHeader(n) + rest) == MapOf(n, rest)
  {
    FieldSizes();
    var s := MapHeader(n) + rest;
    if n <= 15 {
      assert s[1..] == rest;
    } else {
      var k := if n <= 65535 then 2 else 4;
      FieldParts(s[0], n, k, rest);
      UnsignedModulus(n, Pow(256, k));
    }
  }

  // ----- what a head consumes -----

  /** A head read from s consumed at least one byte and left the others. */
  predicate Consumes(h: Head, s: seq<byte>) {
    h.Scalar? || h.ArrayOf? || h.MapOf? ==> |h.rest| < |s| && h.rest == s[|s| - |h.rest|..]
  }

  lemma TailConsumes(s: seq<byte>, at: nat)
    requires 0 < at <= |s|
    ensures |s[at..]| < |s| && s[at..] == s[|s| - |s[at..]|..]
  {
  }

  lemma FieldsConsume(s: seq<byte>, k: nat)
    ensures Consumes(IntField(s, k, true), s) && Consumes(IntField(s, k, false), s) && Consumes(FloatField(s, k), s)
    ensures Consumes(RawField(s, k), s) && Consumes(ArrayField(s, k), s) && Consumes(MapField(s, k), s)
  {
    if 1 + k <= |s| {
      TailConsumes(s, 1 + k);
      BodyConsumes(s, 1 + k, Field(s, k));
    }
  }

  lemma BodyConsumes(s: seq<byte>, at: nat, len: nat)
    requires 0 < at
    ensures Consumes(RawBody(s, at, len), s)
  {
    if at + len <= |s| {
      TailConsumes(s, at + len);
    }
  }

  lemma AtomConsumes(s: seq<byte>, t: int)
    requires s != []
    ensures Consumes(AtomHead(s, t), s)
  {
    FieldsConsume(s, 1);
    FieldsConsume(s, 2);
    FieldsConsume(s, 4);
    FieldsConsume(s, 8);
    TailConsumes(s, 1);
  }

  lemma SizedConsumes(s: seq<byte>, t: int)
    ensures Consumes(SizedHead(s, t), s)
  {
    FieldsConsume(s, 1);
    FieldsConsume(s, 2);
    FieldsConsume(s, 4);
  }

  lemma HeadConsumes(s: seq<byte>)
    ensures Consumes(ReadHead(s), s)
  {
    if s != [] {
      AtomConsumes(s, s[0]);
      SizedConsumes(s, s[0]);
      TailConsumes(s, 1);
      BodyConsumes(s, 1, s[0] % 32);
    }
  }

  /** With t after the input, the head is the same and t is left too. */
  predicate Stable(h: Head, longer: Head, t: seq<byte>) {
    match h
    case Scalar(v, rest) => longer == Scalar(v, rest + t)
    case ArrayOf(n, rest) => longer == ArrayOf(n, rest + t)
    case MapOf(n, rest) => longer == MapOf(n, rest + t)
    case Bad => longer == Bad
    case Short => true
  }

  lemma FieldsStable(s: seq<byte>, t: seq<byte>, k: nat)
    ensures forall signed :: Stable(IntField(s, k, signed), IntField(s + t, k, signed), t)
    ensures Stable(FloatField(s, k), FloatField(s + t, k), t)
    ensures Stable(RawField(s, k), RawField(s + t, k), t)
    ensures Stable(ArrayField(s, k), ArrayField(s + t, k), t)
    ensures Stable(MapField(s, k), MapField(s + t, k), t)
  {
    if 1 + k <= |s| {
      assert (s + t)[1..1 + k] == s[1..1 + k];
      assert (s + t)[1 + k..] == s[1 + k..] + t;
      BodyStable(s, t, 1 + k, Field(s, k));
    }
  }

  lemma BodyStable(s: seq<byte>, t: seq<byte>, at: nat, len: nat)
    ensures Stable(RawBody(s, at, len), RawBody(s + t, at, len), t)
  {
    if at + len <= |s| {
      assert (s + t)[at..at + len] == s[at..at + len];
      assert (s + t)[at + len..] == s[at + len..] + t;
    }
  }

  lemma TailGrows(s: seq<byte>, t: seq<byte>)
    requires s != []
    ensures (s + t)[1..] == s[1..] + t
  {
  }

  lemma AtomStable(s: seq<byte>, t: seq<byte>, tag: int)
    requires s != []
    ensures Stable(AtomHead(s, tag), AtomHead(s + t, tag), t)
  {
    FieldsStable(s, t, 1);
    FieldsStable(s, t, 2);
    FieldsStable(s, t, 4);
    FieldsStable(s, t, 8);
    TailGrows(s, t);
  }

  lemma SizedStable(s: seq<byte>, t: seq<byte>, tag: int)
    ensures Stable(SizedHead(s, tag), SizedHead(s + t, tag), t)
  {
    FieldsStable(s, t, 1);
    FieldsStable(s, t, 2);
    FieldsStable(s, t, 4);
  }

  /** More input after the bytes a head was read from changes nothing. */
  lemma HeadStable(s: seq<byte>, t: seq<byte>)
    ensures Stable(ReadHead(s), ReadHead(s + t), t)
  {
    if s != [] {
      AtomStable(s, t, s[0]);
      SizedStable(s, t, s[0]);
      BodyStable(s, t, 1, s[0] % 32);
      assert (s + t)[1..] == s[1..] + t;
    }
  }

  // ----- shortest form -----

  lemma FieldBound(s: seq<byte>, k: nat, p: nat)
    requires 1 + k <= |s| && p == Pow(256, k)
    ensures Field(s, k) < p
  {
    FieldRange(s[1..1 + k]);
  }

  lemma TagRange(s: seq<byte>)
    requires s != [] && ReadHead(s).Scalar? && ReadHead(s).v.Int?
    ensures var n, len := ReadHead(s).v.n, |s| - |ReadHead(s).rest|;
      && Int64(n) && (len == 1 || len == 2 || len == 3 || len == 5 || len == 9)
      && (len <= 1 ==> -32 <= n <= 127) && (len <= 2 ==> -128 <= n <= 0xff)
      && (len <= 3 ==> -32768 <= n <= 0xffff) && (len <= 5 ==> -2147483648 <= n <= 0xffff_ffff)
  {
    FieldSizes();
    if 2 <= |s| {
      FieldBound(s, 1, 0x100);
    }
    if 3 <= |s| {
      FieldBound(s, 2, 0x1_0000);
    }
    if 5 <= |s| {
      FieldBound(s, 4, TWO32);
    }
    if 9 <= |s| {
      FieldBound(s, 8, TWO64);
    }
  }

  /** No bytes that decode to an integer are fewer than those the encoder writes for it. */
  lemma ShortestInt(s: seq<byte>, n: int)
    requires ReadHead(s) == Scalar(Int(n), [])
    ensures Int64(n) && |IntBytes(n)| <= |s|
  {
    if s != [] {
      TagRange(s);
    }
  }
}
