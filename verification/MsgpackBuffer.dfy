/** The growing output buffer and the recursive encoder that appends to it (src/lua_cmsgpack.c:94-140, 177-510). */
module MsgpackBuffer {
  import opened Powers
  import opened Bytes
  import opened MsgpackFormat
  import opened MsgpackTables
  import opened MsgpackCodec

  /** mp_buf. */
  class Buffer {
    var b: array<byte>
    var len: nat
    var free: nat

    ghost predicate Valid()
      reads this
    {
      b.Length == len + free
    }

    ghost function Contents(): seq<byte>
      requires Valid()
      reads this, b
    {
      b[..len]
    }

    constructor ()
      ensures Valid() && Contents() == [] && fresh(b)
    {
      b := new byte[0];
      len, free := 0, 0;
    }

    method Grow(newsize: nat)
      requires Valid() && len <= newsize
      modifies this
      ensures Valid() && fresh(b) && b.Length == newsize && len == old(len) && Contents() == old(Contents())
    {
      var source, n := b, len;
      var c := new byte[newsize](_ => 0);
      for i := 0 to n
        invariant c[..i] == source[..i]
        modifies c
      {
        c[i] := source[i];
      }
      b := c;
      free := newsize - n;
    }

    /** memcpy behind the contents. */
    method Write(s: seq<byte>)
      requires Valid() && |s| <= free
      modifies `len, `free, b
      ensures Valid() && Contents() == old(Contents()) + s
    {
      ghost var before := Contents();
      var target, n := b, len;
      for i := 0 to |s|
        invariant target[..n + i] == before + s[..i]
        modifies target
      {
        target[n + i] := s[i];
      }
      len := len + |s|;
      free := free - |s|;
    }

    /** mp_buf_append: doubles what is needed when the free part is too short. */
    method Append(s: seq<byte>)
      requires Valid()
      modifies this, b
      ensures Valid() && Contents() == old(Contents()) + s
      ensures if old(free) < |s| then fresh(b) && b.Length == 2 * (old(len) + |s|) else b == old(b)
    {
      if free < |s| {
        Grow((len + |s|) * 2);
      }
      Write(s);
    }

    /** The buffer is emptied but keeps its storage. */
    method Reuse()
      requires Valid()
      modifies `len, `free
      ensures Valid() && Contents() == []
    {
      free := free + len;
      len := 0;
    }
  }

  // ----- fields byte by byte -----

  lemma Field16(n: int)
    ensures BigEndian(n, 1) == [n % 256] && BigEndian(n, 2) == [n / 0x100 % 256, n % 256]
  {
    assert BigEndian(n, 2) == BigEndian(n / 256, 1) + [n % 256];
  }

  lemma Field32(n: int)
    ensures BigEndian(n, 4) == [n / 0x100_0000 % 256, n / 0x1_0000 % 256, n / 0x100 % 256, n % 256]
  {
    var m := n / 256;
    var k := m / 256;
    assert BigEndian(n, 4) == BigEndian(m, 3) + [n % 256];
    assert BigEndian(m, 3) == BigEndian(k, 2) + [m % 256];
    Field16(k);
    assert k == n / 0x1_0000 && k / 0x100 == n / 0x100_0000;
  }

  /** The four high bytes of a 64-bit integer. */
  function High(n: int): int {
    n / 0x1_0000_0000
  }

  lemma Field64(n: int)
    ensures BigEndian(n, 8) == BigEndian(High(n), 4) + BigEndian(n, 4)
  {
    var m := n / 256;
    var k := m / 256;
    var j := k / 256;
    assert BigEndian(n, 8) == BigEndian(m, 7) + [n % 256];
    assert BigEndian(m, 7) == BigEndian(k, 6) + [m % 256];
    assert BigEndian(k, 6) == BigEndian(j, 5) + [k % 256];
    assert BigEndian(j, 5) == BigEndian(j / 256, 4) + [j % 256];
    assert j / 256 == High(n);
    Field32(n);
    assert k == n / 0x1_0000 && j == n / 0x100_0000;
  }

  // ----- encoding into the buffer -----

  method Tagged16(buf: Buffer, tag: byte, n: int)
    requires buf.Valid()
    modifies buf, buf.b
    ensures buf.Valid() && (buf.b == old(buf.b) || fresh(buf.b)) && buf.Contents() == old(buf.Contents()) + ([tag] + BigEndian(n, 2))
  {
    Field16(n);
    assert [tag] + [n / 0x100 % 256, n % 256] == [tag, n / 0x100 % 256, n % 256];
    buf.Append([tag, n / 0x100 % 256, n % 256]);
  }

  method Tagged32(buf: Buffer, tag: byte, n: int)
    requires buf.Valid()
    modifies buf, buf.b
    ensures buf.Valid() && (buf.b == old(buf.b) || fresh(buf.b)) && buf.Contents() == old(buf.Contents()) + ([tag] + BigEndian(n, 4))
  {
    Field32(n);
    var b: seq<byte> := [tag, n / 0x100_0000 % 256, n / 0x1_0000 % 256, n / 0x100 % 256, n % 256];
    assert b == [tag] + BigEndian(n, 4);
    buf.Append(b);
  }

  method Tagged64(buf: Buffer, tag: byte, n: int)
    requires buf.Valid()
    modifies buf, buf.b
    ensures buf.Valid() && (buf.b == old(buf.b) || fresh(buf.b)) && buf.Contents() == old(buf.Contents()) + ([tag] + BigEndian(n, 8))
  {
    var h := High(n);
    Field64(n);
    Field32(h);
    Field32(n);
    var b: seq<byte> := [tag, h / 0x100_0000 % 256, h / 0x1_0000 % 256, h / 0x100 % 256, h % 256,
                         n / 0x100_0000 % 256, n / 0x1_0000 % 256, n / 0x100 % 256, n % 256];
    assert b == [tag] + (BigEndian(h, 4) + BigEndian(n, 4));
    buf.Append(b);
  }

  /** mp_encode_int. */
  method EncodeInt(buf: Buffer, n: int)
    requires buf.Valid() && Int64(n)
    modifies buf, buf.b
    ensures buf.Valid() && (buf.b == old(buf.b) || fresh(buf.b)) && buf.Contents() == old(buf.Contents()) + IntBytes(n)
  {
    Field16(n);
    if n >= 0 {
      if n <= 127 {
        buf.Append([n]);
      } else if n <= 0xff {
        buf.Append([0xcc] + [n % 256]);
      } else if n <= 0xffff {
        Tagged16(buf, 0xcd, n);
      } else if n <= 0xffff_ffff {
        Tagged32(buf, 0xce, n);
      } else {
        Tagged64(buf, 0xcf, n);
      }
    } else {
      if n >= -32 {
        buf.Append([n + 256]);
      } else if n >= -128 {
        buf.Append([0xd0] + [n % 256]);
      } else if n >= -32768 {
        Tagged16(buf, 0xd1, n);
      } else if n >= -2147483648 {
        Tagged32(buf, 0xd2, n);
      } else {
        Tagged64(buf, 0xd3, n);
      }
    }
  }

  method EncodeStrHeader(buf: Buffer, len: nat)
    requires buf.Valid()
    modifies buf, buf.b
    ensures buf.Valid() && (buf.b == old(buf.b) || fresh(buf.b)) && buf.Contents() == old(buf.Contents()) + StrHeader(len)
  {
    Field16(len);
    if len < 32 {
      buf.Append([0xa0 + len]);
    } else if len <= 0xff {
      buf.Append([0xd9] + [len % 256]);
    } else if len <= 0xffff {
      Tagged16(buf, 0xda, len);
    } else {
      Tagged32(buf, 0xdb, len);
    }
  }

  /** mp_encode_bytes. */
  method EncodeBytes(buf: Buffer, s: seq<byte>)
    requires buf.Valid()
    modifies buf, buf.b
    ensures buf.Valid() && (buf.b == old(buf.b) || fresh(buf.b)) && buf.Contents() == old(buf.Contents()) + (StrHeader(|s|) + s)
  {
    ghost var before, header := buf.Contents(), StrHeader(|s|);
    EncodeStrHeader(buf, |s|);
    buf.Append(s);
    assert before + header + s == before + (header + s);
  }

  /** mp_encode_array. */
  method EncodeArray(buf: Buffer, n: nat)
    requires buf.Valid()
    modifies buf, buf.b
    ensures buf.Valid() && (buf.b == old(buf.b) || fresh(buf.b)) && buf.Contents() == old(buf.Contents()) + ArrayHeader(n)
  {
    if n <= 15 {
      buf.Append([0x90 + n]);
    } else if n <= 65535 {
      Tagged16(buf, 0xdc, n);
    } else {
      Tagged32(buf, 0xdd, n);
    }
  }

  /** mp_encode_map. */
  method EncodeMap(buf: Buffer, n: nat)
    requires buf.Valid()
    modifies buf, buf.b
    ensures buf.Valid() && (buf.b == old(buf.b) || fresh(buf.b)) && buf.Contents() == old(buf.Contents()) + MapHeader(n)
  {
    if n <= 15 {
      buf.Append([0x80 + n]);
    } else if n <= 65535 {
      Tagged16(buf, 0xde, n);
    } else {
      Tagged32(buf, 0xdf, n);
    }
  }

  lemma ItemsOnward(es: seq<Entry>, j: nat, level: nat, done: seq<byte>, item: seq<byte>)
    requires WellFormed(Table(es)) && j < |es| && level <= MAX_NESTING && WellFormed(Find(es, Int(j + 1)))
    requires item == Encode(Find(es, Int(j + 1)), level)
    ensures done + EncodeItems(es, j, level) == (done + item) + EncodeItems(es, j + 1, level)
  {
  }

  lemma Regroup(a: seq<byte>, b: seq<byte>, c: seq<byte>, d: seq<byte>)
    ensures a + (b + c + d) == (a + b) + c + d
  {
  }

  lemma EntriesOnward(es: seq<Entry>, i: nat, level: nat, done: seq<byte>, k: seq<byte>, v: seq<byte>)
    requires WellFormed(Table(es)) && i < |es| && level <= MAX_NESTING && WellFormed(es[i].key) && WellFormed(es[i].val)
    requires k == Encode(es[i].key, level) && v == Encode(es[i].val, level)
    ensures done + EncodeEntries(es, i, level) == (done + k) + v + EncodeEntries(es, i + 1, level)
  {
    assert EncodeEntries(es, i, level) == k + v + EncodeEntries(es, i + 1, level);
    Regroup(done, k, v, EncodeEntries(es, i + 1, level));
  }

  lemma EntryWellFormed(es: seq<Entry>, i: nat)
    requires WellFormed(Table(es)) && i < |es|
    ensures WellFormed(es[i].key) && WellFormed(es[i].val)
  {
    assert es[i] in es;
  }

  method EncodeItem(buf: Buffer, es: seq<Entry>, j: nat, level: nat, ghost goal: seq<byte>)
    requires buf.Valid() && WellFormed(Table(es)) && j < |es| && level <= MAX_NESTING
    requires buf.Contents() + EncodeItems(es, j, level) == goal
    modifies buf, buf.b
    ensures buf.Valid() && (buf.b == old(buf.b) || fresh(buf.b)) && buf.Contents() + EncodeItems(es, j + 1, level) == goal
    decreases MAX_NESTING - level, 3
  {
    FoundIsWellFormed(es, Int(j + 1));
    ghost var before := buf.Contents();
    var item := Find(es, Int(j + 1));
    EncodeType(buf, item, level);
    ItemsOnward(es, j, level, before, Encode(item, level));
  }

  method EncodeEntry(buf: Buffer, es: seq<Entry>, i: nat, level: nat, ghost goal: seq<byte>)
    requires buf.Valid() && WellFormed(Table(es)) && i < |es| && level <= MAX_NESTING
    requires buf.Contents() + EncodeEntries(es, i, level) == goal
    modifies buf, buf.b
    ensures buf.Valid() && (buf.b == old(buf.b) || fresh(buf.b)) && buf.Contents() + EncodeEntries(es, i + 1, level) == goal
    decreases MAX_NESTING - level, 3
  {
    EntryWellFormed(es, i);
    ghost var before := buf.Contents();
    var k, v := es[i].key, es[i].val;
    EncodeType(buf, k, level);
    EncodeType(buf, v, level);
    EntriesOnward(es, i, level, before, Encode(k, level), Encode(v, level));
  }

  method EncodeAllItems(buf: Buffer, es: seq<Entry>, level: nat, ghost goal: seq<byte>)
    requires buf.Valid() && WellFormed(Table(es)) && level <= MAX_NESTING
    requires buf.Contents() + EncodeItems(es, 0, level) == goal
    modifies buf, buf.b
    ensures buf.Valid() && (buf.b == old(buf.b) || fresh(buf.b)) && buf.Contents() == goal
    decreases MAX_NESTING - level, 4
  {
    for j := 0 to |es|
      invariant buf.Valid() && (buf.b == old(buf.b) || fresh(buf.b))
      invariant buf.Contents() + EncodeItems(es, j, level) == goal
    {
      EncodeItem(buf, es, j, level, goal);
    }
    assert buf.Contents() + [] == buf.Contents();
  }

  method EncodeAllEntries(buf: Buffer, es: seq<Entry>, level: nat, ghost goal: seq<byte>)
    requires buf.Valid() && WellFormed(Table(es)) && level <= MAX_NESTING
    requires buf.Contents() + EncodeEntries(es, 0, level) == goal
    modifies buf, buf.b
    ensures buf.Valid() && (buf.b == old(buf.b) || fresh(buf.b)) && buf.Contents() == goal
    decreases MAX_NESTING - level, 4
  {
    for i := 0 to |es|
      invariant buf.Valid() && (buf.b == old(buf.b) || fresh(buf.b))
      invariant buf.Contents() + EncodeEntries(es, i, level) == goal
    {
      EncodeEntry(buf, es, i, level, goal);
    }
    assert buf.Contents() + [] == buf.Contents();
  }

  /** mp_encode_lua_table_as_array. */
  method EncodeTableAsArray(buf: Buffer, es: seq<Entry>, level: nat)
    requires buf.Valid() && WellFormed(Table(es)) && level < MAX_NESTING
    modifies buf, buf.b
    ensures buf.Valid() && (buf.b == old(buf.b) || fresh(buf.b))
    ensures buf.Contents() == old(buf.Contents()) + ArrayHeader(|es|) + EncodeItems(es, 0, level + 1)
    decreases MAX_NESTING - level, 0
  {
    EncodeArray(buf, |es|);
    EncodeAllItems(buf, es, level + 1, buf.Contents() + EncodeItems(es, 0, level + 1));
  }

  /** mp_encode_lua_table_as_map. */
  method EncodeTableAsMap(buf: Buffer, es: seq<Entry>, level: nat)
    requires buf.Valid() && WellFormed(Table(es)) && level < MAX_NESTING
    modifies buf, buf.b
    ensures buf.Valid() && (buf.b == old(buf.b) || fresh(buf.b))
    ensures buf.Contents() == old(buf.Contents()) + MapHeader(|es|) + EncodeEntries(es, 0, level + 1)
    decreases MAX_NESTING - level, 0
  {
    EncodeMap(buf, |es|);
    EncodeAllEntries(buf, es, level + 1, buf.Contents() + EncodeEntries(es, 0, level + 1));
  }

  lemma WholeTable(es: seq<Entry>, level: nat, before: seq<byte>)
    requires WellFormed(Table(es)) && level < MAX_NESTING
    ensures IsArray(es) ==> before + ArrayHeader(|es|) + EncodeItems(es, 0, level + 1) == before + Encode(Table(es), level)
    ensures !IsArray(es) ==> before + MapHeader(|es|) + EncodeEntries(es, 0, level + 1) == before + Encode(Table(es), level)
  {
  }

  /** mp_encode_lua_table. */
  method EncodeTable(buf: Buffer, es: seq<Entry>, level: nat)
    requires buf.Valid() && WellFormed(Table(es)) && level < MAX_NESTING
    modifies buf, buf.b
    ensures buf.Valid() && (buf.b == old(buf.b) || fresh(buf.b))
    ensures buf.Contents() == old(buf.Contents()) + Encode(Table(es), level)
    decreases MAX_NESTING - level, 1
  {
    WholeTable(es, level, buf.Contents());
    var isArray := TableIsAnArray(es);
    if isArray {
      EncodeTableAsArray(buf, es, level);
    } else {
      EncodeTableAsMap(buf, es, level);
    }
  }

  /** mp_encode_lua_type for everything but tables. */
  method EncodeScalar(buf: Buffer, v: Value)
    requires buf.Valid() && WellFormed(v) && !v.Table?
    modifies buf, buf.b
    ensures buf.Valid() && (buf.b == old(buf.b) || fresh(buf.b)) && buf.Contents() == old(buf.Contents()) + Encode(v, 0)
  {
    match v
    case Nil => buf.Append([0xc0]);
    case Bool(b) => buf.Append([if b then 0xc3 else 0xc2]);
    case Int(n) => EncodeInt(buf, n);
    case Float(payload) => buf.Append([if |payload| == 4 then 0xca else 0xcb] + payload);
    case Str(s) => EncodeBytes(buf, s);
  }

  lemma ScalarLevel(v: Value, level: nat)
    requires WellFormed(v) && level <= MAX_NESTING && (!v.Table? || level == MAX_NESTING)
    ensures Encode(v, level) == Encode(if v.Table? then Nil else v, 0)
  {
  }

  /** mp_encode_lua_type. */
  method EncodeType(buf: Buffer, v: Value, level: nat)
    requires buf.Valid() && WellFormed(v) && level <= MAX_NESTING
    modifies buf, buf.b
    ensures buf.Valid() && (buf.b == old(buf.b) || fresh(buf.b)) && buf.Contents() == old(buf.Contents()) + Encode(v, level)
    decreases MAX_NESTING - level, 2
  {
    if v.Table? && level != MAX_NESTING {
      EncodeTable(buf, v.entries, level);
    } else {
      ScalarLevel(v, level);
      EncodeScalar(buf, if v.Table? then Nil else v);
    }
  }
}
