/** The struct library as it runs: digit, byte and option loops (src/lua_struct.c:92-385). */
module StructLoops {
  import opened Powers
  import opened Digits
  import opened Bytes
  import opened StructFormat
  import opened StructCodec
  import opened StructLaws

  // ----- numbers in a format -----

  lemma {:induction false} ValueGrows(s: string, j: nat, k: nat)
    requires j <= k <= |s| && AllDigits(s[..k])
    ensures AllDigits(s[..j]) && Value(s[..j]) <= Value(s[..k])
    decreases k - j
  {
    assert forall i | 0 <= i < j :: s[..j][i] == s[..k][i];
    if j < k {
      assert s[..k][..k - 1] == s[..k - 1];
      ValueGrows(s, j, k - 1);
    }
  }

  lemma {:induction false} RunReaches(s: string, j: nat)
    requires j <= |s| && AllDigits(s[..j]) && (j == |s| || !IsDigit(s[j]))
    ensures Run(s) == j
  {
    if j > 0 {
      assert s[0] == s[..j][0];
      assert s[1..][..j - 1] == s[..j][1..];
      RunReaches(s[1..], j - 1);
    }
  }

  /** Digits up to here are no more than all the digits there are. */
  lemma {:induction false} RunCovers(s: string, j: nat)
    requires j <= |s| && AllDigits(s[..j])
    ensures j <= Run(s) && Value(s[..j]) <= Value(s[..Run(s)])
  {
    RunAtLeast(s, j);
    ValueGrows(s, j, Run(s));
  }

  lemma {:induction false} RunAtLeast(s: string, j: nat)
    requires j <= |s| && AllDigits(s[..j])
    ensures j <= Run(s)
  {
    if j > 0 {
      assert s[0] == s[..j][0];
      assert s[1..][..j - 1] == s[..j][1..];
      RunAtLeast(s[1..], j - 1);
    }
  }

  /** getnum: the overflow test before each digit agrees with the value of all the digits. */
  method ReadNumber(fmt: string, default: nat) returns (z: Sized)
    ensures z == GetNum(fmt, default)
  {
    if fmt == "" || !IsDigit(fmt[0]) {
      return Sized(default, fmt);
    }
    var a, j := 0, 0;
    while j < |fmt| && IsDigit(fmt[j])
      invariant j <= |fmt| && AllDigits(fmt[..j]) && a == Value(fmt[..j]) <= INT_MAX
    {
      assert fmt[..j + 1] == fmt[..j] + [fmt[j]];
      ValueAppend(fmt[..j], fmt[j]);
      if a > INT_MAX / 10 || a * 10 > INT_MAX - DigitOf(fmt[j]) {
        RunCovers(fmt, j + 1);
        return NoSize(SizeOverflow);
      }
      a, j := a * 10 + DigitOf(fmt[j]), j + 1;
    }
    RunReaches(fmt, j);
    return Sized(a, fmt[j..]);
  }

  method OptionSize(opt: char, rest: string) returns (z: Sized)
    ensures z == OptSize(opt, rest)
  {
    if opt == 'c' {
      z := ReadNumber(rest, 1);
    } else if opt == 'i' || opt == 'I' {
      z := ReadNumber(rest, 4);
      if z.Sized? && z.size > MAX_INT_SIZE {
        z := NoSize(SizeTooLarge);
      }
    } else {
      z := Sized(FixedSize(opt), rest);
    }
  }

  method ControlOption(opt: char, rest: string, h: Header) returns (c: Control)
    requires h.align > 0
    ensures c == Controlled(opt, rest, h)
  {
    match opt
    case ' ' => c := Control(rest, h);
    case '>' => c := Control(rest, h.(big := true));
    case '<' => c := Control(rest, h.(big := false));
    case '!' =>
      var z := ReadNumber(rest, MAX_ALIGN);
      if z.NoSize? {
        c := NoControl(z.error);
      } else if !IsPow2(z.size) {
        c := NoControl(BadAlignment);
      } else {
        c := Control(z.rest, h.(align := z.size));
      }
    case _ => c := NoControl(BadOption);
  }

  // ----- integers -----

  lemma ReversedMore(s: seq<byte>, c: byte)
    ensures Reversed(s + [c]) == [c] + Reversed(s)
  {
  }

  lemma LowByteFirst(done: seq<byte>, value: nat, k: nat)
    requires k > 0
    ensures done + Reversed(BigEndian(value, k)) == done + [value % 256] + Reversed(BigEndian(value / 256, k - 1))
  {
    ReversedMore(BigEndian(value / 256, k - 1), value % 256);
  }

  /** putinteger, into a buffer filled from either end. */
  method PutInteger(n: int, big: bool, size: nat) returns (s: seq<byte>)
    ensures s == IntBytes(n, size, big)
  {
    var buff := new byte[size](_ => 0);
    var value: nat := n % TWO64;
    if !big {
      FillUp(buff, value);
    } else {
      FillDown(buff, value);
    }
    return buff[..];
  }

  method FillUp(buff: array<byte>, start: nat)
    modifies buff
    ensures buff[..] == Reversed(BigEndian(start, buff.Length))
  {
    var i, size, value := 0, buff.Length, start;
    while i < size
      invariant i <= size && buff[..i] + Reversed(BigEndian(value, size - i)) == Reversed(BigEndian(start, size))
    {
      LowByteFirst(buff[..i], value, size - i);
      buff[i] := value % 256;
      value := value / 256;
      i := i + 1;
      assert buff[..i] == buff[..i - 1] + [buff[i - 1]];
    }
    assert buff[..size] + [] == buff[..];
  }

  method FillDown(buff: array<byte>, start: nat)
    modifies buff
    ensures buff[..] == BigEndian(start, buff.Length)
  {
    var i: nat, value := buff.Length, start;
    assert BigEndian(value, i) + [] == BigEndian(start, i);
    while i > 0
      invariant i <= buff.Length && BigEndian(value, i) + buff[i..] == BigEndian(start, buff.Length)
    {
      i := i - 1;
      HighBytesFirst(value, i, buff[i + 1..]);
      buff[i] := value % 256;
      value := value / 256;
      assert buff[i..] == [buff[i]] + buff[i + 1..];
    }
    assert [] + buff[0..] == buff[..];
  }

  lemma HighBytesFirst(value: nat, i: nat, behind: seq<byte>)
    ensures BigEndian(value, i + 1) + behind == BigEndian(value / 256, i) + ([value % 256] + behind)
  {
  }

  /** Shifting a byte into a word that keeps only its low 64 bits. */
  lemma ShiftIn(l: nat, v: nat, c: byte)
    requires l == v % TWO64
    ensures (l * 256 % TWO64 + c) % TWO64 == (256 * v + c) % TWO64
  {
    var q := v / TWO64;
    assert v == TWO64 * q + l;
    var l2, q2 := l * 256 % TWO64, l * 256 / TWO64;
    assert l * 256 == TWO64 * q2 + l2;
    var r := (l2 + c) % TWO64;
    var q3 := (l2 + c) / TWO64;
    assert l2 + c == TWO64 * q3 + r;
    DivisionIs(256 * v + c, TWO64, 256 * q + q2 + q3, r);
  }

  lemma LowBitsFree(l: nat, c: byte)
    ensures l * 256 % TWO64 + c < TWO64
  {
    var q := l * 256 / TWO64;
    assert l * 256 - TWO64 * q == 256 * (l - 0x100_0000_0000_0000 * q);
  }

  lemma PrefixValue(s: seq<byte>, i: nat)
    requires i < |s|
    ensures FromBigEndian(s[..i + 1]) == 256 * FromBigEndian(s[..i]) + s[i]
  {
    assert s[..i + 1][..i] == s[..i];
  }

  /** getinteger: the bytes are shifted into a word from the most significant on, then the sign is extended. */
  method GetInteger(s: seq<byte>, big: bool, signed: bool) returns (n: int)
    requires signed ==> 1 <= |s| <= 8
    ensures n == IntValue(s, big, signed)
  {
    var l := ShiftAll(s, big);
    if !signed {
      return l;
    }
    var half := 128 * Pow(256, |s| - 1);
    assert Pow(256, |s|) == 2 * half;
    if l >= half {
      n := l - 2 * half;
    } else {
      n := l;
    }
  }

  method ShiftAll(s: seq<byte>, big: bool) returns (l: nat)
    ensures l == FromBigEndian(Oriented(s, big)) % TWO64
  {
    l := 0;
    ghost var t := Oriented(s, big);
    var i := 0;
    while i < |s|
      invariant i <= |s| && l == FromBigEndian(t[..i]) % TWO64
    {
      var c := if big then s[i] else s[|s| - 1 - i];
      PrefixValue(t, i);
      ShiftIn(l, FromBigEndian(t[..i]), c);
      LowBitsFree(l, c);
      DivisionIs(l * 256 % TWO64 + c, TWO64, 0, l * 256 % TWO64 + c);
      l := l * 256 % TWO64 + c;
      i := i + 1;
    }
    assert t[..|s|] == t;
  }

  /** correctbytes on a little-endian machine. */
  method CorrectBytes(b: array<byte>, big: bool)
    modifies b
    ensures b[..] == if big then Reversed(old(b[..])) else old(b[..])
  {
    if big {
      var i, size := 0, b.Length - 1;
      while i < size
        invariant 0 <= i && size == b.Length - 1 - i
        invariant i <= b.Length && -1 <= size && i <= size + 2
        invariant forall k | 0 <= k < b.Length && (k < i || size < k) :: b[k] == old(b[b.Length - 1 - k])
        invariant forall k | i <= k <= size :: b[k] == old(b[k])
      {
        b[i], b[size] := b[size], b[i];
        i, size := i + 1, size - 1;
      }
    }
  }

  /** The bytes of a float or a double, swapped where the format asks for it. */
  method Swapped(image: seq<byte>, big: bool) returns (s: seq<byte>)
    ensures s == Oriented(image, big)
  {
    // An image is written most significant byte first; the machine holds it the other way round.
    var b := new byte[|image|](i requires 0 <= i < |image| => image[|image| - 1 - i]);
    assert b[..] == Reversed(image);
    CorrectBytes(b, big);
    s := b[..];
  }

  // ----- whole formats -----

  method NextOption(opt: char, rest: string, h: Header) returns (c: Control)
    requires h.align > 0
    ensures c == After(opt, rest, h)
  {
    if IsData(opt) {
      c := Control(rest, h);
    } else {
      c := ControlOption(opt, rest, h);
    }
  }

  method PackData(opt: char, size: nat, args: seq<Val>, big: bool) returns (p: Piece)
    ensures p == PackOne(opt, size, args, big)
  {
    if IsInt(opt) {
      if args == [] {
        return NoPiece(BadArgument);
      }
      if !args[0].Num? {
        return NoPiece(Unspecified);
      }
      var s := PutInteger(args[0].n, big, size);
      return Piece(s, 1);
    } else if opt == 'x' {
      return Piece([0], 0);
    } else if IsImage(opt) {
      if args == [] {
        return NoPiece(BadArgument);
      }
      if !args[0].Image? || |args[0].b| != size {
        return NoPiece(Unspecified);
      }
      var s := Swapped(args[0].b, big);
      return Piece(s, 1);
    } else if IsText(opt) {
      if args == [] {
        return NoPiece(BadArgument);
      }
      if !args[0].Text? {
        return NoPiece(Unspecified);
      }
      var s := args[0].s;
      var n := if size == 0 then |s| else size;
      if |s| < n {
        return NoPiece(StringTooShort);
      }
      return Piece(s[..n] + if opt == 's' then [0] else [], 1);
    }
    p := Piece([], 0);
  }

  method PackNext(fmt: string, args: seq<Val>, h: Header, pos: nat) returns (t: PackTurn)
    requires h.align > 0 && !Ends(fmt)
    ensures t == PackOption(fmt, args, h, pos)
  {
    var opt := fmt[0];
    var z := OptionSize(opt, fmt[1..]);
    if z.NoSize? {
      return PackStop(z.error);
    }
    var p := PackData(opt, z.size, args, h.big);
    if p.NoPiece? {
      return PackStop(p.error);
    }
    var c := NextOption(opt, z.rest, h);
    if c.NoControl? {
      return PackStop(c.error);
    }
    var pad := PadBytes(ToAlign(pos, h, opt, z.size));
    t := PackTurn(pad + p.bytes, p.used, c.rest, c.h);
  }

  /** while (toalign-- > 0) luaL_addchar(&b, 0). */
  method PadBytes(n: nat) returns (s: seq<byte>)
    ensures s == Zeros(n)
  {
    s := [];
    var left := n;
    while left > 0
      invariant 0 <= left <= n && s == Zeros(n - left)
    {
      s, left := s + [0], left - 1;
    }
  }

  lemma BeforeMore(out: seq<byte>, bytes: seq<byte>, p: Packed)
    ensures Before(out, Before(bytes, p)) == Before(out + bytes, p)
  {
    if p.Packed? {
      assert out + (bytes + p.bytes) == out + bytes + p.bytes;
    }
  }

  lemma BeforeNothing(p: Packed)
    ensures Before([], p) == p
  {
    if p.Packed? {
      assert [] + p.bytes == p.bytes;
    }
  }

  lemma PackMore(fmt: string, args: seq<Val>, h: Header, pos: nat, t: PackTurn, out: seq<byte>, left: seq<Val>, pos2: nat)
    requires h.align > 0 && !Ends(fmt) && t == PackOption(fmt, args, h, pos) && t.PackTurn?
    requires left == args[t.used..] && pos2 == pos + |t.bytes|
    ensures Before(out, Pack(fmt, args, h, pos)) == Before(out + t.bytes, Pack(t.rest, left, t.h, pos2))
  {
    PackFold(fmt, args, h, pos, t.bytes, t.used, t.rest, t.h, pos2, left);
    BeforeMore(out, t.bytes, Pack(t.rest, left, t.h, pos2));
  }

  /** b_pack. */
  method PackAll(fmt: string, args: seq<Val>) returns (r: Packed)
    ensures r == Pack(fmt, args, Start, 0)
  {
    var rest, left, h, out := fmt, args, Start, [];
    BeforeNothing(Pack(fmt, args, Start, 0));
    while !Ends(rest)
      invariant h.align > 0 && Before(out, Pack(rest, left, h, |out|)) == Pack(fmt, args, Start, 0)
      decreases |rest|
    {
      var t := PackNext(rest, left, h, |out|);
      if t.PackStop? {
        return NotPacked(t.error);
      }
      var more, next := left[t.used..], out + t.bytes;
      PackMore(rest, left, h, |out|, t, out, more, |next|);
      rest, left, h, out := t.rest, more, t.h, next;
    }
    assert out + [] == out;
    return Packed(out);
  }

  /** memchr for the NUL that ends a string. */
  method FindNul(data: seq<byte>, at: nat) returns (k: nat)
    requires at <= |data|
    ensures k == NulAt(data[at..])
  {
    k := 0;
    while at + k < |data| && data[at + k] != 0
      invariant at + k <= |data| && NulAt(data[at..]) == k + NulAt(data[at + k..])
    {
      assert data[at + k..][1..] == data[at + (k + 1)..];
      k := k + 1;
    }
  }

  method UnpackData(opt: char, size: nat, data: seq<byte>, at: nat, big: bool, acc: seq<Val>) returns (t: Taken)
    requires at + size <= |data|
    ensures t == UnpackOne(opt, size, data, at, big, acc)
  {
    if IsInt(opt) {
      if IsSigned(opt) && !(1 <= size <= 8) {
        return NotTaken(Unspecified);
      }
      var n := GetInteger(data[at..at + size], big, IsSigned(opt));
      return Taken(acc + [Num(n)], size);
    } else if IsImage(opt) {
      var s := Swapped(data[at..at + size], big);
      return Taken(acc + [Image(s)], size);
    } else if opt == 'c' {
      if size > 0 {
        return Taken(acc + [Text(data[at..at + size])], size);
      }
      if acc == [] {
        return NotTaken(NoPreviousSize);
      }
      var l := LengthOf(acc[|acc| - 1]);
      if l.NoLength? {
        return NotTaken(Unspecified);
      }
      if l.n > |data| || at > |data| - l.n {
        return NotTaken(DataTooShort);
      }
      return Taken(acc[..|acc| - 1] + [Text(data[at..at + l.n])], l.n);
    } else if opt == 's' {
      var k := FindNul(data, at);
      if at + k == |data| {
        return NotTaken(Unfinished);
      }
      return Taken(acc + [Text(data[at..at + k])], k + 1);
    }
    t := Taken(acc, size);
  }

  method UnpackNext(fmt: string, data: seq<byte>, h: Header, pos: nat, acc: seq<Val>) returns (t: UnpackTurn)
    requires h.align > 0 && !Ends(fmt)
    ensures t == UnpackOption(fmt, data, h, pos, acc)
  {
    var opt := fmt[0];
    var z := OptionSize(opt, fmt[1..]);
    if z.NoSize? {
      return UnpackStop(z.error);
    }
    var at := pos + ToAlign(pos, h, opt, z.size);
    if !(z.size <= |data| && at <= |data| - z.size) {
      return UnpackStop(DataTooShort);
    }
    var u := UnpackData(opt, z.size, data, at, h.big, acc);
    t := UnpackControl(opt, z.rest, h, at, |data|, u);
  }

  /** What follows the option: the control characters and the next position. */
  method UnpackControl(opt: char, rest: string, h: Header, at: nat, ghost length: nat, u: Taken) returns (t: UnpackTurn)
    requires h.align > 0 && (u.Taken? ==> at + u.size <= length)
    ensures t == UnpackEnd(opt, rest, h, at, length, u)
  {
    if u.NotTaken? {
      return UnpackStop(u.error);
    }
    var c := NextOption(opt, rest, h);
    if c.NoControl? {
      return UnpackStop(c.error);
    }
    t := UnpackTurn(u.acc, at + u.size, c.rest, c.h);
  }

  /** b_unpack. Positions count from 1, both the one given and the one after the last option. */
  method UnpackAll(fmt: string, data: seq<byte>, position: int) returns (r: Unpacked)
    ensures position <= 0 ==> r == NotUnpacked(BadArgument)
    ensures position > 0 ==>
      var u := Unpack(fmt, data, Start, position - 1, []);
      r == if u.Unpacked? then Unpacked(u.vals, u.pos + 1) else u
  {
    if position <= 0 {
      return NotUnpacked(BadArgument);
    }
    var rest, pos, h, acc := fmt, position - 1, Start, [];
    ghost var goal := Unpack(fmt, data, Start, position - 1, []);
    while !Ends(rest)
      invariant h.align > 0 && pos >= 0
      invariant Unpack(rest, data, h, pos, acc) == goal
      decreases |rest|
    {
      var t := UnpackNext(rest, data, h, pos, acc);
      if t.UnpackStop? {
        return NotUnpacked(t.error);
      }
      UnpackUnfold(rest, data, h, pos, acc, t.acc, t.pos, t.rest, t.h);
      rest, pos, h, acc := t.rest, t.pos, t.h, t.acc;
    }
    r := Unpacked(acc, pos + 1);
  }

  method SizeNext(fmt: string, h: Header, pos: nat) returns (t: SizeTurn)
    requires h.align > 0 && !Ends(fmt)
    ensures t == SizeOption(fmt, h, pos)
  {
    var opt := fmt[0];
    var z := OptionSize(opt, fmt[1..]);
    if z.NoSize? {
      return SizeStop(z.error);
    }
    var at := pos + ToAlign(pos, h, opt, z.size);
    if opt == 's' || (opt == 'c' && z.size == 0) {
      return SizeStop(NoFixedSize);
    }
    var c := Control(z.rest, h);
    if !IsAlnum(opt) {
      c := ControlOption(opt, z.rest, h);
    }
    if c.NoControl? {
      return SizeStop(c.error);
    }
    t := SizeTurn(at + z.size, c.rest, c.h);
  }

  /** b_size. */
  method SizeAll(fmt: string) returns (r: Size)
    ensures r == SizeOf(fmt, Start, 0)
  {
    var rest, pos, h := fmt, 0, Start;
    while !Ends(rest)
      invariant h.align > 0 && pos >= 0 && SizeOf(rest, h, pos) == SizeOf(fmt, Start, 0)
      decreases |rest|
    {
      var t := SizeNext(rest, h, pos);
      if t.SizeStop? {
        return SizeError(t.error);
      }
      rest, pos, h := t.rest, t.pos, t.h;
    }
    r := Size(pos);
  }
}
