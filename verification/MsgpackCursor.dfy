/** The input cursor and the recursive decoder that advances it (src/lua_cmsgpack.c:142-173, 555-795). */
module MsgpackCursor {
  import opened Powers
  import opened Bytes
  import opened MsgpackFormat
  import opened MsgpackTables
  import opened MsgpackCodec

  /** NONE, EOF and BADFMT of the cursor; Raised stands for the error lua_settable raises on a nil key. */
  datatype Error = None | Eof | BadFmt | Raised

  function ErrorOf(f: Fault): Error {
    match f
    case Eof => Error.Eof
    case BadFormat => BadFmt
    case NilKey => Raised
  }

  // ----- fields byte by byte -----

  function Half(s: seq<byte>, at: nat): nat
    requires at + 2 <= |s|
  {
    var high: int := s[at];
    0x100 * high + s[at + 1]
  }

  function Word(s: seq<byte>, at: nat): nat
    requires at + 4 <= |s|
  {
    0x1_0000 * Half(s, at) + Half(s, at + 2)
  }

  lemma Field16(s: seq<byte>)
    ensures 2 <= |s| ==> Field(s, 1) == s[1]
    ensures 3 <= |s| ==> Field(s, 2) == Half(s, 1)
  {
    if 2 <= |s| {
      assert s[1..2] == [s[1]] && [s[1]][..0] == [];
      assert FromBigEndian([]) == 0;
    }
    if 3 <= |s| {
      assert s[1..3] == [s[1], s[2]] && s[1..3][..1] == s[1..2];
    }
  }

  lemma FourBytes(f: seq<byte>, s: seq<byte>, at: nat)
    requires at + 4 <= |s| && f == s[..at + 4]
    ensures FromBigEndian(f) == 0x1_0000_0000 * FromBigEndian(s[..at]) + Word(s, at)
  {
    assert f[..at + 3] == s[..at + 3] && s[..at + 3][..at + 2] == s[..at + 2];
    assert s[..at + 2][..at + 1] == s[..at + 1] && s[..at + 1][..at] == s[..at];
    assert FromBigEndian(s[..at + 1]) == 256 * FromBigEndian(s[..at]) + s[at];
    assert FromBigEndian(s[..at + 2]) == 256 * FromBigEndian(s[..at + 1]) + s[at + 1];
    assert FromBigEndian(s[..at + 3]) == 256 * FromBigEndian(s[..at + 2]) + s[at + 2];
    assert FromBigEndian(f) == 256 * FromBigEndian(s[..at + 3]) + s[at + 3];
  }

  lemma Field32(s: seq<byte>)
    requires 5 <= |s|
    ensures Field(s, 4) == Word(s, 1)
  {
    var t := s[1..];
    assert t[..0] == [] && s[1..5] == t[..4];
    FourBytes(s[1..5], t, 0);
  }

  lemma Field64(s: seq<byte>)
    requires 9 <= |s|
    ensures Field(s, 8) == 0x1_0000_0000 * Word(s, 1) + Word(s, 5)
  {
    var t := s[1..];
    Field32(s);
    assert s[1..5] == t[..4] && s[1..9] == t[..8];
    FourBytes(s[1..9], t, 4);
  }

  /** mp_cur. */
  class Cursor {
    const s: seq<byte>
    var p: nat
    var left: nat
    var err: Error

    ghost predicate Valid()
      reads this
    {
      p + left == |s|
    }

    ghost function Rest(): seq<byte>
      requires Valid()
      reads this
    {
      s[p..]
    }

    /** mp_cur_init at an offset. */
    constructor (input: seq<byte>, offset: nat)
      requires offset <= |input|
      ensures Valid() && Rest() == input[offset..] && err == None && s == input
    {
      s := input;
      p, left, err := offset, |input| - offset, None;
    }

    /** mp_cur_consume. */
    method Consume(n: nat)
      requires Valid() && n <= left
      modifies `p, `left
      ensures Valid() && Rest() == old(Rest())[n..]
    {
      p := p + n;
      left := left - n;
    }

    /** mp_cur_need: false when the error is set and the caller returns. */
    method Need(n: nat) returns (ok: bool)
      requires Valid() && err == None
      modifies `err
      ensures ok <==> n <= |Rest()|
      ensures err == if ok then None else Error.Eof
    {
      ok := n <= left;
      if !ok {
        err := Error.Eof;
      }
    }

    /** What reading a head leaves behind. */
    ghost predicate Read(h: Head)
      requires Valid()
      reads this
    {
      match h
      case Short => err == Error.Eof
      case Bad => err == BadFmt
      case Scalar(_, rest) => err == None && Rest() == rest
      case ArrayOf(_, rest) => err == None && Rest() == rest
      case MapOf(_, rest) => err == None && Rest() == rest
    }

    method DecodeInt(t: byte) returns (h: Head)
      requires Valid() && err == None && |Rest()| > 0 && t == Rest()[0] && 0xcc <= t <= 0xd3
      modifies this
      ensures Valid() && h == IntHead(old(Rest()), t) && Read(h)
    {
      var need := if t == 0xcc || t == 0xd0 then 2 else if t == 0xcd || t == 0xd1 then 3
                  else if t == 0xce || t == 0xd2 then 5 else 9;
      var ok := Need(need);
      if !ok {
        return Short;
      }
      var n := IntAt(t, need, Rest());
      Consume(need);
      h := Scalar(Int(n), s[p..]);
    }

    /** The integer behind its opcode. */
    method IntAt(t: byte, need: nat, ghost r: seq<byte>) returns (n: int)
      requires Valid() && r == Rest() && need <= |r| && 0 < |r| && t == r[0] && 0xcc <= t <= 0xd3
      requires need == if t == 0xcc || t == 0xd0 then 2 else if t == 0xcd || t == 0xd1 then 3
                       else if t == 0xce || t == 0xd2 then 5 else 9
      ensures IntHead(r, t) == Scalar(Int(n), r[need..])
    {
      Field16(r);
      FieldSizes();
      if t == 0xcc {
        n := s[p + 1];
      } else if t == 0xd0 {
        n := Signed(s[p + 1], 0x100);
      } else if t == 0xcd {
        n := Half(s, p + 1);
      } else if t == 0xd1 {
        n := Signed(Half(s, p + 1), 0x1_0000);
      } else if t == 0xce {
        Field32(r);
        n := Word(s, p + 1);
      } else if t == 0xd2 {
        Field32(r);
        n := Signed(Word(s, p + 1), 0x1_0000_0000);
      } else {
        Field64(r);
        n := Signed(0x1_0000_0000 * Word(s, p + 1) + Word(s, p + 5), TWO64);
      }
    }

    method DecodeAtom(t: byte) returns (h: Head)
      requires Valid() && err == None && |Rest()| > 0 && t == Rest()[0] && 0xc0 <= t < 0xd9
      modifies this
      ensures Valid() && h == AtomHead(old(Rest()), t) && Read(h)
    {
      if 0xcc <= t <= 0xd3 {
        h := DecodeInt(t);
      } else if t == 0xc0 {
        Consume(1);
        h := Scalar(Nil, s[p..]);
      } else if t == 0xc3 {
        Consume(1);
        h := Scalar(Bool(true), s[p..]);
      } else if t == 0xc2 {
        Consume(1);
        h := Scalar(Bool(false), s[p..]);
      } else if t == 0xca || t == 0xcb {
        h := DecodeFloat(if t == 0xca then 4 else 8);
      } else {
        err := BadFmt;
        h := Bad;
      }
    }

    method DecodeFloat(size: nat) returns (h: Head)
      requires Valid() && err == None
      modifies this
      ensures Valid() && h == FloatField(old(Rest()), size) && Read(h)
    {
      ghost var r := Rest();
      var ok := Need(1 + size);
      if !ok {
        return Short;
      }
      var payload := s[p + 1..p + 1 + size];
      assert payload == r[1..1 + size];
      Consume(1 + size);
      h := Scalar(Float(payload), s[p..]);
    }

    /** The bytes of a string, its length known. at bytes stand before them. */
    method DecodeRaw(at: nat, len: nat) returns (h: Head)
      requires Valid() && err == None
      modifies this
      ensures Valid() && h == RawBody(old(Rest()), at, len) && Read(h)
    {
      ghost var r := Rest();
      var ok := Need(at + len);
      if !ok {
        return Short;
      }
      var str := s[p + at..p + at + len];
      assert r == s[p..] && |r| == left;
      assert str == r[at..at + len];
      Consume(at + len);
      h := Scalar(Str(str), s[p..]);
    }

    /** The length field of a string, an array or a map. */
    method DecodeLength(size: nat) returns (ok: bool, len: nat)
      requires Valid() && err == None && (size == 1 || size == 2 || size == 4)
      modifies `err
      ensures ok <==> 1 + size <= |Rest()|
      ensures err == if ok then None else Error.Eof
      ensures ok ==> len == Field(Rest(), size)
    {
      ghost var r := Rest();
      len := 0;
      ok := Need(1 + size);
      if ok {
        Field16(r);
        if size == 1 {
          len := s[p + 1];
        } else if size == 2 {
          len := Half(s, p + 1);
        } else {
          Field32(r);
          len := Word(s, p + 1);
        }
      }
    }

    method DecodeSized(t: byte) returns (h: Head)
      requires Valid() && err == None && |Rest()| > 0 && t == Rest()[0] && 0xd9 <= t < 0xe0
      modifies this
      ensures Valid() && h == SizedHead(old(Rest()), t) && Read(h)
    {
      var size := if t == 0xd9 then 1 else if t == 0xda || t == 0xdc || t == 0xde then 2 else 4;
      var ok, len := DecodeLength(size);
      if !ok {
        return Short;
      }
      if t <= 0xdb {
        h := DecodeRaw(1 + size, len);
      } else {
        Consume(1 + size);
        h := if t <= 0xdd then ArrayOf(len, s[p..]) else MapOf(len, s[p..]);
      }
    }

    method DecodeFix(t: byte) returns (h: Head)
      requires Valid() && err == None && |Rest()| > 0 && t == Rest()[0] && !(0xc0 <= t < 0xe0)
      modifies this
      ensures Valid() && h == FixHead(old(Rest()), t) && Read(h)
    {
      var c: int := t;
      if c < 0x80 {
        Consume(1);
        h := Scalar(Int(c), s[p..]);
      } else if 0xe0 <= c {
        Consume(1);
        h := Scalar(Int(c - 256), s[p..]);
      } else if 0xa0 <= c {
        h := DecodeRaw(1, c % 32);
      } else {
        Consume(1);
        h := if 0x90 <= c then ArrayOf(c % 16, s[p..]) else MapOf(c % 16, s[p..]);
      }
    }

    method DecodeHead() returns (h: Head)
      requires Valid() && err == None
      modifies this
      ensures Valid() && h == ReadHead(old(Rest())) && Read(h)
    {
      var ok := Need(1);
      if !ok {
        return Short;
      }
      var t := s[p];
      if 0xc0 <= t < 0xd9 {
        h := DecodeAtom(t);
      } else if 0xd9 <= t < 0xe0 {
        h := DecodeSized(t);
      } else {
        h := DecodeFix(t);
      }
    }

    /** The cursor after a decoder ran: past what it consumed, or with its error set. */
    ghost predicate Ran(d: Decoded, v: Value)
      requires Valid()
      reads this
    {
      match d
      case Done(w, rest) => err == None && v == w && Rest() == rest
      case Failed(f) => err == ErrorOf(f)
    }

    /** mp_decode_to_lua_array. */
    method DecodeToArray(len: nat) returns (v: Value)
      requires Valid() && err == None
      modifies this
      ensures Valid() && Ran(DecodeArray(old(Rest()), len, 1, []), v)
      decreases |Rest()|, 1
    {
      ghost var goal := DecodeArray(Rest(), len, 1, []);
      var index, es, n := 1, [], len;
      while n != 0
        invariant Valid() && err == None && |Rest()| <= |old(Rest())|
        invariant DecodeArray(Rest(), n, index, es) == goal
        decreases n
      {
        ghost var before := Rest();
        var item := DecodeType();
        if err != None {
          return Nil;
        }
        es := SetEntry(es, Int(index), item);
        index, n := index + 1, n - 1;
      }
      v := Table(es);
    }

    /** One key and its value. */
    method DecodeEntry(es: seq<Entry>, ghost n: nat, ghost goal: Decoded) returns (longer: seq<Entry>)
      requires Valid() && err == None && 0 < n && DecodeMap(Rest(), n, es) == goal
      modifies this
      ensures Valid()
      ensures err == None ==> |Rest()| < |old(Rest())| && DecodeMap(Rest(), n - 1, longer) == goal
      ensures err != None ==> goal.Failed? && err == ErrorOf(goal.fault)
      decreases |Rest()|, 1
    {
      longer := es;
      var key := DecodeType();
      if err != None {
        return;
      }
      var val := DecodeType();
      if err != None {
        return;
      }
      if key.Nil? {
        err := Raised;
        return;
      }
      longer := SetEntry(es, key, val);
    }

    /** mp_decode_to_lua_hash. */
    method DecodeToHash(len: nat) returns (v: Value)
      requires Valid() && err == None
      modifies this
      ensures Valid() && Ran(DecodeMap(old(Rest()), len, []), v)
      decreases |Rest()|, 2
    {
      ghost var goal := DecodeMap(Rest(), len, []);
      var es, n := [], len;
      while n != 0
        invariant Valid() && err == None && |Rest()| <= |old(Rest())|
        invariant DecodeMap(Rest(), n, es) == goal
        decreases n
      {
        es := DecodeEntry(es, n, goal);
        if err != None {
          return Nil;
        }
        n := n - 1;
      }
      v := Table(es);
    }

    /** mp_decode_to_lua_type. */
    method DecodeType() returns (v: Value)
      requires Valid() && err == None
      modifies this
      ensures Valid() && Ran(Decode(old(Rest())), v)
      decreases |Rest()|, 0
    {
      HeadConsumes(Rest());
      ghost var d := Decode(Rest());
      DecodeSwitch(Rest(), ReadHead(Rest()), d);
      var h := DecodeHead();
      match h
      case Scalar(w, _) => v := w;
      case ArrayOf(n, _) => v := DecodeToArray(n);
      case MapOf(n, _) => v := DecodeToHash(n);
      case Short => v := Nil;
      case Bad => v := Nil;
    }
  }
}
