/** The string buffer under the JSON codec (src/strbuf.c, src/strbuf.h). */
module StringBuffer {
  import opened Bytes

  const SIZE_MAX: int := 0xffff_ffff_ffff_ffff
  const DEFAULT_SIZE: nat := 1023

  /** n doubled k times. */
  function Doubled(n: nat, k: nat): nat {
    if k == 0 then n else Doubled(n, k - 1) * 2
  }

  class Buffer {
    var buf: array<byte>
    var size: nat
    var length: nat
    var reallocs: nat

    /** A NUL always fits behind the contents. */
    ghost predicate Valid()
      reads this
    {
      buf.Length == size && length < size
    }

    ghost function Contents(): seq<byte>
      requires Valid()
      reads this, buf
    {
      buf[..length]
    }

    /** strbuf_init. */
    constructor (len: nat)
      ensures Valid() && Contents() == [] && fresh(buf) && size == if len == 0 then DEFAULT_SIZE else len + 1
    {
      var n := if len == 0 then DEFAULT_SIZE else len + 1;
      buf := new byte[n](_ => 0);
      size, length, reallocs := n, 0, 0;
    }

    /** strbuf_empty_length: the room left, the NUL not counted. */
    function EmptyLength(): nat
      requires Valid()
      reads this
    {
      size - length - 1
    }

    /**
      calculate_new_size: the exact size when shrinking, otherwise the least doubling that is
      enough, unless doubling could overflow.
     */
    method CalculateNewSize(len: nat) returns (newsize: nat)
      requires 0 < size && 0 < len
      ensures len + 1 <= newsize
      ensures if size > len + 1 || len + 1 >= SIZE_MAX / 2 then newsize == len + 1
        else newsize <= SIZE_MAX && exists k: nat :: newsize == Doubled(size, k) && (k == 0 || newsize < 2 * (len + 1))
    {
      var reqsize := len + 1;
      if size > reqsize {
        return reqsize;
      }
      newsize := size;
      if reqsize >= SIZE_MAX / 2 {
        newsize := reqsize;
      } else {
        ghost var k := 0;
        while newsize < reqsize
          invariant 0 < newsize == Doubled(size, k) && (k == 0 || newsize < 2 * reqsize) && newsize <= SIZE_MAX
          decreases 2 * reqsize - newsize
        {
          newsize := newsize * 2;
          k := k + 1;
        }
      }
    }

    /** strbuf_resize: realloc keeps what fits, so no contents are lost unless len is below the length. */
    method Resize(len: nat)
      requires Valid() && length <= len && 0 < len
      modifies this
      ensures Valid() && fresh(buf) && len + 1 <= size && length == old(length) && Contents() == old(Contents())
    {
      var newsize := CalculateNewSize(len);
      var source, n := buf, length;
      var target := new byte[newsize](_ => 0);
      for i := 0 to n
        invariant target[..i] == source[..i]
        modifies target
      {
        target[i] := source[i];
      }
      buf := target;
      size := newsize;
      reallocs := reallocs + 1;
    }

    /** strbuf_ensure_empty_length. */
    method EnsureEmptyLength(len: nat)
      requires Valid()
      modifies this
      ensures Valid() && (buf == old(buf) || fresh(buf)) && len <= EmptyLength()
      ensures length == old(length) && Contents() == old(Contents())
    {
      if len > EmptyLength() {
        Resize(length + len);
      }
    }

    /** strbuf_append_char_unsafe: the caller vouches for the room. */
    method AppendCharUnsafe(c: byte)
      requires Valid() && 1 <= EmptyLength()
      modifies `length, buf
      ensures Valid() && Contents() == old(Contents()) + [c]
    {
      buf[length] := c;
      length := length + 1;
    }

    /** strbuf_append_char. */
    method AppendChar(c: byte)
      requires Valid()
      modifies this, buf
      ensures Valid() && (buf == old(buf) || fresh(buf)) && Contents() == old(Contents()) + [c]
    {
      EnsureEmptyLength(1);
      AppendCharUnsafe(c);
    }

    /** strbuf_append_mem_unsafe. */
    method AppendMemUnsafe(c: seq<byte>)
      requires Valid() && |c| <= EmptyLength()
      modifies `length, buf
      ensures Valid() && Contents() == old(Contents()) + c
    {
      ghost var before := Contents();
      var target, n := buf, length;
      for i := 0 to |c|
        invariant target[..n + i] == before + c[..i]
        modifies target
      {
        target[n + i] := c[i];
      }
      length := length + |c|;
    }

    /** strbuf_append_mem. */
    method AppendMem(c: seq<byte>)
      requires Valid()
      modifies this, buf
      ensures Valid() && (buf == old(buf) || fresh(buf)) && Contents() == old(Contents()) + c
    {
      EnsureEmptyLength(|c|);
      AppendMemUnsafe(c);
    }

    /** strbuf_append_string: the room is counted down and renewed when it runs out. */
    method AppendString(str: seq<byte>)
      requires Valid() && CString(str)
      modifies this, buf
      ensures Valid() && (buf == old(buf) || fresh(buf)) && Contents() == old(Contents()) + str
    {
      ghost var before := Contents();
      var space := EmptyLength();
      for i := 0 to |str|
        invariant Valid() && (buf == old(buf) || fresh(buf)) && space == EmptyLength() && length == |before| + i
        invariant Contents() == before + str[..i]
      {
        if space < 1 {
          Resize(length + 1);
          space := EmptyLength();
        }
        AppendCharUnsafe(str[i]);
        space := space - 1;
      }
    }

    /** strbuf_ensure_null: the byte behind the contents exists. */
    method EnsureNull()
      requires Valid()
      modifies buf
      ensures Valid() && Contents() == old(Contents()) && buf[length] == 0
    {
      buf[length] := 0;
    }

    /** strbuf_reset. */
    method Reset()
      requires Valid()
      modifies `length
      ensures Valid() && Contents() == [] && EmptyLength() == size - 1
    {
      length := 0;
    }
  }
}
