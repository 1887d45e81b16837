/** struct.pack, struct.unpack and struct.size as one reading of the format (src/lua_struct.c:169-385). */
module StructCodec {
  import opened Powers
  import opened Bytes
  import opened StructFormat

  /** A Lua value; the bytes of a float or a double are taken as given. */
  datatype Val =
    | Num(n: int)
    | Image(b: seq<byte>)
    | Text(s: seq<byte>)

  // ----- integers -----

  function Reversed(s: seq<byte>): (r: seq<byte>)
    ensures |r| == |s| && forall i | 0 <= i < |s| :: r[i] == s[|s| - 1 - i]
  {
    if s == [] then [] else Reversed(s[1..]) + [s[0]]
  }

  /** The bytes in the order of the format. */
  function Oriented(s: seq<byte>, big: bool): (r: seq<byte>)
    ensures |r| == |s|
  {
    if big then s else Reversed(s)
  }

  lemma OrientedTwice(s: seq<byte>, big: bool)
    ensures Oriented(Oriented(s, big), big) == s
  {
  }

  /** putinteger: the low bytes of the number as a 64-bit machine word. */
  function IntBytes(n: int, size: nat, big: bool): (s: seq<byte>)
    ensures |s| == size
  {
    Oriented(BigEndian(n % TWO64, size), big)
  }

  /** getinteger. */
  function IntValue(s: seq<byte>, big: bool, signed: bool): int {
    var u := FromBigEndian(Oriented(s, big)) % TWO64;
    if signed then Signed(u, Pow(256, |s|)) else u
  }

  /** The integers an option of this size can hold. */
  predicate InRange(n: int, size: nat, signed: bool) {
    if signed then 0 <= 2 * n + Pow(256, size) && 2 * n < Pow(256, size) else 0 <= n < Pow(256, size) && n < TWO64
  }

  lemma SizeDivides(size: nat) returns (q: nat)
    requires size <= 8
    ensures 0 < Pow(256, size) && TWO64 == Pow(256, size) * q
  {
    FieldSizes();
    PowPositive(256, size);
    PowAdd(256, size, 8 - size);
    q := Pow(256, 8 - size);
  }

  lemma RemainderOfMultiple(n: int, p: nat, q: nat, pq: nat)
    requires 0 < p && 0 < pq && pq == p * q
    ensures n % pq % p == n % p
  {
    var k, r := n / pq, n % pq;
    var d, e := r / p, r % p;
    assert n == pq * k + r;
    Regrouped(p, q, k, d, e, n);
    var m := q * k + d;
    DivisionIs(n, p, m, e);
  }

  lemma Regrouped(p: nat, q: nat, k: int, d: int, e: int, n: int)
    requires n == p * q * k + (p * d + e)
    ensures n == p * (q * k + d) + e
  {
  }

  lemma SignedReads(n: int, p: nat, u: nat)
    requires 0 < p && u == n % p && u < p
    ensures Signed(u, p) == n <==> (0 <= 2 * n + p && 2 * n < p)
  {
    if 0 <= n < p {
      DivisionIs(n, p, 0, n);
    } else if 0 <= n + p < p {
      DivisionIs(n, p, -1, n + p);
    }
  }

  lemma UnsignedReads(n: int, p: nat)
    requires 0 < p
    ensures n % TWO64 % p % TWO64 == n <==> (0 <= n < p && n < TWO64)
  {
    if 0 <= n < p && n < TWO64 {
      DivisionIs(n, TWO64, 0, n);
      DivisionIs(n, p, 0, n);
    }
  }

  /** An integer comes back exactly when the option can hold it, in either byte order. */
  lemma IntReads(n: int, size: nat, big: bool, signed: bool)
    requires signed ==> 1 <= size <= 8
    ensures IntValue(IntBytes(n, size, big), big, signed) == n <==> InRange(n, size, signed)
  {
    var w := n % TWO64;
    var p := Pow(256, size);
    OrientedTwice(BigEndian(w, size), big);
    BigEndianValue(w, size);
    if signed {
      var q := SizeDivides(size);
      RemainderOfMultiple(n, p, q, TWO64);
      var u := w % p;
      WordFits(u, p, q);
      SignedReads(n, p, u);
    } else {
      UnsignedReads(n, p);
    }
  }

  lemma WordFits(u: nat, p: nat, q: nat)
    requires u < p && TWO64 == p * q
    ensures u % TWO64 == u
  {
    assert q != 0;
    MulGrows(p, q);
    DivisionIs(u, TWO64, 0, u);
  }

  // ----- lengths for "c0" -----

  /** The result before a "c0" as a size_t. A cast out of range has no defined meaning. */
  datatype Length = Length(n: nat) | NoLength

  /** The bits from unit up, as many as there are below size. */
  function Field(n: nat, unit: nat, size: nat): nat
    requires 0 < unit && 0 < size
  {
    n / unit % size
  }

  /** m * 2^x without what is behind the point. */
  function Whole(m: nat, x: int): nat {
    if 0 <= x then Times(m, Pow(2, x))
    else
      PowPositive(2, -x);
      Quotient(m, Pow(2, -x))
  }

  function Quotient(n: nat, d: nat): nat
    requires 0 < d
  {
    n / d
  }

  function Times(x: nat, y: nat): nat {
    x * y
  }

  /** The whole part of a float or double of which the bits are given. */
  function WholePart(bits: nat, fracSize: nat, expSize: nat, bias: nat): Length
    requires 0 < fracSize && 0 < expSize
  {
    var f, e := Field(bits, 1, fracSize), Field(bits, fracSize, expSize);
    var whole := Whole(if e == 0 then f else f + fracSize, (if e == 0 then 1 else e) - bias);
    if e == expSize - 1 then NoLength
    else if whole == 0 then Length(0)
    else if Field(bits / fracSize, expSize, 2) == 1 || TWO64 <= whole then NoLength
    else Length(whole)
  }

  /** lua_tonumber as a length. A string may be a numeral to Lua, which this model does not decide. */
  function LengthOf(v: Val): Length {
    match v
    case Num(n) => if 0 <= n < TWO64 - 0x400 then Length(n) else NoLength
    case Image(b) =>
      if |b| == 4 then WholePart(FromBigEndian(b), 0x80_0000, 0x100, 150)
      else if |b| == 8 then WholePart(FromBigEndian(b), 0x10_0000_0000_0000, 0x800, 1075)
      else NoLength
    case Text(_) => NoLength
  }

  // ----- one option -----

  /** What an option adds to the data and how many arguments it takes. */
  datatype Piece = Piece(bytes: seq<byte>, used: nat) | NoPiece(error: Error)

  /** Lua converts between numbers and strings; an argument of the other type is left unspecified here. */
  function PackOne(opt: char, size: nat, args: seq<Val>, big: bool): (p: Piece)
    ensures p.Piece? ==> p.used <= |args|
  {
    if IsInt(opt) then
      if args == [] then NoPiece(BadArgument)
      else if !args[0].Num? then NoPiece(Unspecified)
      else Piece(IntBytes(args[0].n, size, big), 1)
    else if opt == 'x' then Piece([0], 0)
    else if IsImage(opt) then
      if args == [] then NoPiece(BadArgument)
      else if !args[0].Image? || |args[0].b| != size then NoPiece(Unspecified)
      else Piece(Oriented(args[0].b, big), 1)
    else if IsText(opt) then
      if args == [] then NoPiece(BadArgument)
      else if !args[0].Text? then NoPiece(Unspecified)
      else
        var n := if size == 0 then |args[0].s| else size;
        if |args[0].s| < n then NoPiece(StringTooShort)
        else Piece(args[0].s[..n] + if opt == 's' then [0] else [], 1)
    else Piece([], 0)
  }

  /** The results so far and how many bytes the option takes from the data. */
  datatype Taken = Taken(acc: seq<Val>, size: nat) | NotTaken(error: Error)

  /** Where the first NUL is, or the length. */
  function NulAt(s: seq<byte>): (k: nat)
    ensures k <= |s| && (k < |s| ==> s[k] == 0) && forall i | 0 <= i < k :: s[i] != 0
  {
    if s == [] || s[0] == 0 then 0 else 1 + NulAt(s[1..])
  }

  function UnpackOne(opt: char, size: nat, data: seq<byte>, at: nat, big: bool, acc: seq<Val>): (t: Taken)
    requires at + size <= |data|
    ensures t.Taken? ==> at + t.size <= |data|
  {
    if IsInt(opt) then
      if IsSigned(opt) && !(1 <= size <= 8) then NotTaken(Unspecified)
      else Taken(acc + [Num(IntValue(data[at..at + size], big, IsSigned(opt)))], size)
    else if IsImage(opt) then Taken(acc + [Image(Oriented(data[at..at + size], big))], size)
    else if opt == 'c' then
      if size > 0 then Taken(acc + [Text(data[at..at + size])], size)
      else if acc == [] then NotTaken(NoPreviousSize)
      else
        var l := LengthOf(acc[|acc| - 1]);
        if l.NoLength? then NotTaken(Unspecified)
        else if at + l.n > |data| then NotTaken(DataTooShort)
        else Taken(acc[..|acc| - 1] + [Text(data[at..at + l.n])], l.n)
    else if opt == 's' then
      var k := NulAt(data[at..]);
      if at + k == |data| then NotTaken(Unfinished) else Taken(acc + [Text(data[at..at + k])], k + 1)
    else Taken(acc, size)
  }

  /** The format after an option, and the header after a control option. */
  function After(opt: char, rest: string, h: Header): (c: Control)
    requires h.align > 0
    ensures c.Control? ==> c.h.align > 0 && |c.rest| <= |rest|
  {
    if IsData(opt) then Control(rest, h) else Controlled(opt, rest, h)
  }

  // ----- whole formats -----

  function Zeros(n: nat): (s: seq<byte>)
    ensures |s| == n
  {
    if n == 0 then [] else Zeros(n - 1) + [0]
  }

  /** One turn of packing: the bytes with their padding and how many arguments they took. */
  datatype PackTurn = PackTurn(bytes: seq<byte>, used: nat, rest: string, h: Header) | PackStop(error: Error)

  function PackOption(fmt: string, args: seq<Val>, h: Header, pos: nat): (t: PackTurn)
    requires h.align > 0 && !Ends(fmt)
    ensures t.PackTurn? ==> t.used <= |args| && t.h.align > 0 && |t.rest| < |fmt|
  {
    var opt := fmt[0];
    var z := OptSize(opt, fmt[1..]);
    if z.NoSize? then PackStop(z.error)
    else
      var p := PackOne(opt, z.size, args, h.big);
      if p.NoPiece? then PackStop(p.error)
      else
        var c := After(opt, z.rest, h);
        if c.NoControl? then PackStop(c.error)
        else PackTurn(Zeros(ToAlign(pos, h, opt, z.size)) + p.bytes, p.used, c.rest, c.h)
  }

  datatype Packed = Packed(bytes: seq<byte>) | NotPacked(error: Error)

  /** b_pack, from position pos. */
  function Pack(fmt: string, args: seq<Val>, h: Header, pos: nat): Packed
    requires h.align > 0
    decreases |fmt|, 0
  {
    if Ends(fmt) then Packed([]) else PackOn(PackOption(fmt, args, h, pos), args, pos)
  }

  /** What packing does after a turn. */
  function PackOn(t: PackTurn, args: seq<Val>, pos: nat): Packed
    requires t.PackTurn? ==> t.used <= |args| && t.h.align > 0
    decreases if t.PackTurn? then |t.rest| else 0, 1
  {
    if t.PackStop? then NotPacked(t.error) else Before(t.bytes, Pack(t.rest, args[t.used..], t.h, pos + |t.bytes|))
  }

  function Before(bytes: seq<byte>, p: Packed): Packed {
    if p.NotPacked? then p else Packed(bytes + p.bytes)
  }

  /** One turn of unpacking: the results and the position so far. */
  datatype UnpackTurn = UnpackTurn(acc: seq<Val>, pos: nat, rest: string, h: Header) | UnpackStop(error: Error)

  function UnpackOption(fmt: string, data: seq<byte>, h: Header, pos: nat, acc: seq<Val>): (t: UnpackTurn)
    requires h.align > 0 && !Ends(fmt)
    ensures t.UnpackTurn? ==> t.pos <= |data| && t.h.align > 0 && |t.rest| < |fmt|
  {
    var opt := fmt[0];
    var z := OptSize(opt, fmt[1..]);
    if z.NoSize? then UnpackStop(z.error)
    else
      var at := pos + ToAlign(pos, h, opt, z.size);
      if at + z.size > |data| then UnpackStop(DataTooShort)
      else
        UnpackEnd(opt, z.rest, h, at, |data|, UnpackOne(opt, z.size, data, at, h.big, acc))
  }

  function UnpackEnd(opt: char, rest: string, h: Header, at: nat, length: nat, t: Taken): (r: UnpackTurn)
    requires h.align > 0 && (t.Taken? ==> at + t.size <= length)
    ensures r.UnpackTurn? ==> r.pos <= length && r.h.align > 0 && |r.rest| <= |rest|
  {
    if t.NotTaken? then UnpackStop(t.error)
    else
      var c := After(opt, rest, h);
      if c.NoControl? then UnpackStop(c.error) else UnpackTurn(t.acc, at + t.size, c.rest, c.h)
  }

  datatype Unpacked = Unpacked(vals: seq<Val>, pos: nat) | NotUnpacked(error: Error)

  /** b_unpack, from position pos counted from 0 with the results so far. */
  function Unpack(fmt: string, data: seq<byte>, h: Header, pos: nat, acc: seq<Val>): Unpacked
    requires h.align > 0
    decreases |fmt|, 0
  {
    if Ends(fmt) then Unpacked(acc, pos) else UnpackOn(UnpackOption(fmt, data, h, pos, acc), data)
  }

  /** What unpacking does after a turn. */
  function UnpackOn(t: UnpackTurn, data: seq<byte>): Unpacked
    requires t.UnpackTurn? ==> t.h.align > 0
    decreases if t.UnpackTurn? then |t.rest| else 0, 1
  {
    if t.UnpackStop? then NotUnpacked(t.error) else Unpack(t.rest, data, t.h, t.pos, t.acc)
  }

  /** One turn of sizing. A letter or digit that is no option is skipped. */
  datatype SizeTurn = SizeTurn(pos: nat, rest: string, h: Header) | SizeStop(error: Error)

  function SizeOption(fmt: string, h: Header, pos: nat): (t: SizeTurn)
    requires h.align > 0 && !Ends(fmt)
    ensures t.SizeTurn? ==> t.h.align > 0 && |t.rest| < |fmt|
  {
    var opt := fmt[0];
    var z := OptSize(opt, fmt[1..]);
    if z.NoSize? then SizeStop(z.error)
    else if opt == 's' || (opt == 'c' && z.size == 0) then SizeStop(NoFixedSize)
    else
      var c := if IsAlnum(opt) then Control(z.rest, h) else Controlled(opt, z.rest, h);
      if c.NoControl? then SizeStop(c.error)
      else SizeTurn(pos + ToAlign(pos, h, opt, z.size) + z.size, c.rest, c.h)
  }

  datatype Size = Size(n: nat) | SizeError(error: Error)

  /** b_size, from position pos. */
  function SizeOf(fmt: string, h: Header, pos: nat): Size
    requires h.align > 0
    decreases |fmt|
  {
    if Ends(fmt) then Size(pos)
    else
      var t := SizeOption(fmt, h, pos);
      if t.SizeStop? then SizeError(t.error) else SizeOf(t.rest, t.h, t.pos)
  }

  /** What comes after the first option. */
  function Next(fmt: string, h: Header): (c: Control)
    requires h.align > 0 && !Ends(fmt)
    ensures c.Control? ==> c.h.align > 0 && |c.rest| < |fmt|
  {
    var z := OptSize(fmt[0], fmt[1..]);
    if z.NoSize? then NoControl(z.error) else After(fmt[0], z.rest, h)
  }

  // ----- the round trip -----

  /** What one option must be given so that what it reads is what it wrote. */
  predicate Reads(opt: char, size: nat, args: seq<Val>, acc: seq<Val>) {
    (IsInt(opt) ==> args != [] && args[0].Num? && (IsSigned(opt) ==> 1 <= size <= 8)) &&
    (opt == 'c' && size > 0 ==> args != [] && args[0].Text? && |args[0].s| == size) &&
    (opt == 'c' && size == 0 ==> args != [] && args[0].Text? && acc != [] && LengthOf(acc[|acc| - 1]) == Length(|args[0].s|)) &&
    (opt == 's' ==> args != [] && args[0].Text? && forall i | 0 <= i < |args[0].s| :: args[0].s[i] != 0)
  }

  /** The results once this option's argument has come back: "c0" takes the place of its length. */
  function Given(opt: char, size: nat, args: seq<Val>, acc: seq<Val>): seq<Val> {
    if opt == 'x' || !IsData(opt) || args == [] then acc
    else if opt == 'c' && size == 0 && acc != [] then acc[..|acc| - 1] + [args[0]]
    else acc + [args[0]]
  }

  /** The same with what an integer reads back as, whether or not the option can hold it. */
  function Held(opt: char, size: nat, args: seq<Val>, big: bool): seq<Val> {
    if IsInt(opt) && args != [] && args[0].Num? then
      [Num(IntValue(IntBytes(args[0].n, size, big), big, IsSigned(opt)))] + args[1..]
    else args
  }

  function Used(opt: char): nat {
    if opt == 'x' || !IsData(opt) then 0 else 1
  }

  predicate FirstReads(fmt: string, args: seq<Val>, acc: seq<Val>)
    requires !Ends(fmt)
  {
    var z := OptSize(fmt[0], fmt[1..]);
    z.Sized? && Used(fmt[0]) <= |args| && Reads(fmt[0], z.size, args, acc)
  }

  function FirstGiven(fmt: string, args: seq<Val>, acc: seq<Val>): seq<Val>
    requires !Ends(fmt)
  {
    var z := OptSize(fmt[0], fmt[1..]);
    if z.NoSize? then acc else Given(fmt[0], z.size, args, acc)
  }

  /** The results after the first option has read what it wrote. */
  function FirstRead(fmt: string, args: seq<Val>, h: Header, acc: seq<Val>): seq<Val>
    requires !Ends(fmt)
  {
    var z := OptSize(fmt[0], fmt[1..]);
    if z.NoSize? then acc else Given(fmt[0], z.size, Held(fmt[0], z.size, args, h.big), acc)
  }

  predicate StartsC0(fmt: string) {
    !Ends(fmt) && fmt[0] == 'c' && var z := OptSize(fmt[0], fmt[1..]); z.Sized? && z.size == 0
  }

  /** The option adds a result, while "c0" replaces one. */
  predicate Adds(fmt: string)
    requires !Ends(fmt)
  {
    Used(fmt[0]) == 1 && !StartsC0(fmt)
  }

  /**
    Every option reads what it wrote, and every result is the argument by the time another one is
    added: only a length that "c0" is about to take may have come back as another number, as long as
    that is the right length. given are the arguments so far, read what they read as.
   */
  predicate Reversible(fmt: string, args: seq<Val>, h: Header, given: seq<Val>, read: seq<Val>)
    requires h.align > 0
    decreases |fmt|, 0
  {
    if Ends(fmt) then given == read
    else
      (Adds(fmt) ==> given == read) && FirstReads(fmt, args, read) &&
      ReversibleOn(Next(fmt, h), args[Used(fmt[0])..], FirstGiven(fmt, args, given), FirstRead(fmt, args, h, read))
  }

  predicate ReversibleOn(c: Control, left: seq<Val>, given: seq<Val>, read: seq<Val>)
    requires c.Control? ==> c.h.align > 0
    decreases if c.Control? then |c.rest| else 0, 1
  {
    c.Control? && Reversible(c.rest, left, c.h, given, read)
  }

  /** The arguments, without the lengths that "c0" took. */
  function Returned(fmt: string, args: seq<Val>, h: Header, acc: seq<Val>): seq<Val>
    requires h.align > 0
    decreases |fmt|, 0
  {
    if Ends(fmt) || Used(fmt[0]) > |args| then acc
    else ReturnedOn(Next(fmt, h), args[Used(fmt[0])..], acc, FirstGiven(fmt, args, acc))
  }

  function ReturnedOn(c: Control, left: seq<Val>, acc: seq<Val>, given: seq<Val>): seq<Val>
    requires c.Control? ==> c.h.align > 0
    decreases if c.Control? then |c.rest| else 0, 1
  {
    if c.NoControl? then acc else Returned(c.rest, left, c.h, given)
  }

  lemma {:induction false} NulAtEnd(s: seq<byte>, tail: seq<byte>)
    requires forall i | 0 <= i < |s| :: s[i] != 0
    ensures NulAt(s + [0] + tail) == |s|
  {
    var t := s + [0] + tail;
    assert t[|s|] == 0;
    forall i | 0 <= i < |s| ensures t[i] != 0 {
      assert t[i] == s[i];
    }
  }

  lemma IntReadsBack(opt: char, size: nat, args: seq<Val>, big: bool, acc: seq<Val>, data: seq<byte>, at: nat)
    requires IsInt(opt) && Reads(opt, size, args, acc) && at + size <= |data|
    requires data[at..at + size] == IntBytes(args[0].n, size, big)
    ensures UnpackOne(opt, size, data, at, big, acc) == Taken(Given(opt, size, Held(opt, size, args, big), acc), size)
  {
    assert opt != 'c';
  }

  lemma ImageReadsBack(opt: char, size: nat, args: seq<Val>, big: bool, acc: seq<Val>, data: seq<byte>, at: nat)
    requires IsImage(opt) && args != [] && args[0].Image? && |args[0].b| == size && at + size <= |data|
    requires Oriented(data[at..at + size], big) == args[0].b
    ensures UnpackOne(opt, size, data, at, big, acc) == Taken(Given(opt, size, args, acc), size)
  {
  }

  lemma CharsReadBack(size: nat, args: seq<Val>, big: bool, acc: seq<Val>, data: seq<byte>, at: nat, n: nat)
    requires Reads('c', size, args, acc) && n == |args[0].s| && at + n <= |data|
    requires data[at..at + n] == args[0].s && at + size <= |data|
    ensures UnpackOne('c', size, data, at, big, acc) == Taken(Given('c', size, args, acc), n)
  {
  }

  lemma ZeroReadsBack(args: seq<Val>, big: bool, acc: seq<Val>, data: seq<byte>, at: nat, tail: seq<byte>)
    requires Reads('s', 0, args, acc) && at <= |data| && data[at..] == args[0].s + [0] + tail
    ensures UnpackOne('s', 0, data, at, big, acc) == Taken(Given('s', 0, args, acc), |args[0].s| + 1)
  {
    var s := args[0].s;
    NulAtEnd(s, tail);
    assert data[at..at + |s|] == data[at..][..|s|] == s;
  }

  /** One option reads back what it wrote. */
  lemma ReadsBack(opt: char, size: nat, args: seq<Val>, big: bool, acc: seq<Val>, p: Piece, before: seq<byte>, tail: seq<byte>,
                  data: seq<byte>, at: nat)
    requires p == PackOne(opt, size, args, big) && p.Piece? && Reads(opt, size, args, acc)
    requires (!IsData(opt) || opt == 's' ==> size == 0) && (opt == 'x' ==> size == 1)
    requires data == before + p.bytes + tail && at == |before|
    ensures p.used == Used(opt) && at + size <= |data|
    ensures UnpackOne(opt, size, data, at, big, acc) ==
      Taken(Given(opt, size, Held(opt, size, args, big), acc), |p.bytes|)
  {
    PieceAt(before, p.bytes, tail, data);
    if IsInt(opt) {
      IntReadsBack(opt, size, args, big, acc, data, at);
    } else if IsImage(opt) {
      OrientedTwice(args[0].b, big);
      ImageReadsBack(opt, size, args, big, acc, data, at);
    } else if opt == 'c' {
      assert p.bytes == args[0].s;
      CharsReadBack(size, args, big, acc, data, at, |args[0].s|);
    } else if opt == 's' {
      assert p.bytes == args[0].s + [0];
      ZeroReadsBack(args, big, acc, data, at, tail);
    }
  }

  lemma PieceAt(before: seq<byte>, piece: seq<byte>, tail: seq<byte>, data: seq<byte>)
    requires data == before + piece + tail
    ensures data[|before|..|before| + |piece|] == piece && data[|before|..] == piece + tail
  {
  }

  lemma OptSizes(opt: char, rest: string, z: Sized)
    requires z == OptSize(opt, rest) && z.Sized?
    ensures (!IsData(opt) || opt == 's' ==> z.size == 0) && (opt == 'x' ==> z.size == 1)
  {
  }

  lemma PackParts(fmt: string, args: seq<Val>, h: Header, pos: nat, t: PackTurn)
    returns (size: nat, rest: string, pad: nat, p: Piece)
    requires h.align > 0 && !Ends(fmt) && t == PackOption(fmt, args, h, pos) && t.PackTurn?
    ensures OptSize(fmt[0], fmt[1..]) == Sized(size, rest) && pad == ToAlign(pos, h, fmt[0], size)
    ensures p == PackOne(fmt[0], size, args, h.big) && p.Piece? && t.used == p.used && t.bytes == Zeros(pad) + p.bytes
    ensures After(fmt[0], rest, h) == Next(fmt, h) == Control(t.rest, t.h)
  {
    size, rest := OptSize(fmt[0], fmt[1..]).size, OptSize(fmt[0], fmt[1..]).rest;
    pad, p := ToAlign(pos, h, fmt[0], size), PackOne(fmt[0], size, args, h.big);
  }

  lemma UnpackParts(fmt: string, data: seq<byte>, h: Header, pos: nat, acc: seq<Val>,
                    size: nat, rest: string, pad: nat, given: seq<Val>, taken: nat, rest2: string, h2: Header)
    requires h.align > 0 && !Ends(fmt) && OptSize(fmt[0], fmt[1..]) == Sized(size, rest)
    requires pad == ToAlign(pos, h, fmt[0], size) && pos + pad + size <= |data|
    requires UnpackOne(fmt[0], size, data, pos + pad, h.big, acc) == Taken(given, taken)
    requires After(fmt[0], rest, h) == Control(rest2, h2)
    ensures UnpackOption(fmt, data, h, pos, acc) == UnpackTurn(given, pos + pad + taken, rest2, h2)
  {
  }

  lemma PadFirst(done: seq<byte>, pad: seq<byte>, piece: seq<byte>, tail: seq<byte>)
    ensures done + (pad + piece) + tail == (done + pad) + piece + tail
  {
  }

  lemma FirstReadIs(fmt: string, args: seq<Val>, h: Header, acc: seq<Val>, size: nat, rest: string, got: seq<Val>)
    requires !Ends(fmt) && OptSize(fmt[0], fmt[1..]) == Sized(size, rest) && Used(fmt[0]) <= |args|
    requires FirstReads(fmt, args, acc) && got == FirstRead(fmt, args, h, acc)
    ensures Reads(fmt[0], size, args, acc) && got == Given(fmt[0], size, Held(fmt[0], size, args, h.big), acc)
  {
  }

  /** A turn of unpacking undoes a turn of packing. */
  lemma TurnReadsBack(fmt: string, args: seq<Val>, h: Header, acc: seq<Val>, done: seq<byte>, t: PackTurn, tail: seq<byte>)
    requires h.align > 0 && !Ends(fmt) && t == PackOption(fmt, args, h, |done|) && t.PackTurn? && FirstReads(fmt, args, acc)
    ensures t.used == Used(fmt[0]) && Next(fmt, h) == Control(t.rest, t.h)
    ensures UnpackOption(fmt, done + t.bytes + tail, h, |done|, acc) ==
      UnpackTurn(FirstRead(fmt, args, h, acc), |done| + |t.bytes|, t.rest, t.h)
  {
    var size, rest, pad, p := PackParts(fmt, args, h, |done|, t);
    OptSizes(fmt[0], fmt[1..], Sized(size, rest));
    var got := FirstRead(fmt, args, h, acc);
    FirstReadIs(fmt, args, h, acc, size, rest, got);
    var data := done + t.bytes + tail;
    var before := done + Zeros(pad);
    PadFirst(done, Zeros(pad), p.bytes, tail);
    ReadsBack(fmt[0], size, args, h.big, acc, p, before, tail, data, |done| + pad);
    UnpackParts(fmt, data, h, |done|, acc, size, rest, pad, got, |p.bytes|, t.rest, t.h);
  }
}
