/** The options of a struct format: sizes, alignment and control (src/lua_struct.c:92-166). */
module StructFormat {
  import opened Powers
  import opened Bits
  import opened Digits

  // Sizes on a 64-bit machine with little-endian byte order.
  const INT_MAX := 0x7fff_ffff
  const MAX_INT_SIZE := 32
  const MAX_ALIGN := 8

  datatype Header = Header(big: bool, align: nat)

  datatype Error =
    | SizeOverflow
    | SizeTooLarge
    | BadAlignment
    | BadOption
    | BadArgument
    | StringTooShort
    | DataTooShort
    | NoPreviousSize
    | Unfinished
    | NoFixedSize
    | Unspecified

  // ----- numbers in a format -----

  /** A C string ends at its first NUL. */
  predicate Ends(fmt: string) {
    fmt == "" || fmt[0] == '\0'
  }

  /** How many digits the text starts with. */
  function Run(fmt: string): (k: nat)
    ensures k <= |fmt| && AllDigits(fmt[..k]) && (k < |fmt| ==> !IsDigit(fmt[k]))
  {
    if fmt == "" || !IsDigit(fmt[0]) then 0
    else
      var k := Run(fmt[1..]);
      assert fmt[..k + 1] == [fmt[0]] + fmt[1..][..k];
      k + 1
  }

  datatype Sized = Sized(size: nat, rest: string) | NoSize(error: Error)

  /** getnum: the number written here, or the default if there is none. */
  function GetNum(fmt: string, default: nat): Sized {
    var k := Run(fmt);
    if k == 0 then Sized(default, fmt)
    else if Value(fmt[..k]) <= INT_MAX then Sized(Value(fmt[..k]), fmt[k..])
    else NoSize(SizeOverflow)
  }

  /** optsize, with the format after the option's number. */
  function OptSize(opt: char, rest: string): (z: Sized)
    ensures z.Sized? ==> |z.rest| <= |rest|
  {
    if opt == 'c' then GetNum(rest, 1)
    else if opt == 'i' || opt == 'I' then IntSize(rest)
    else Sized(FixedSize(opt), rest)
  }

  function FixedSize(opt: char): nat {
    match opt
    case 'B' => 1
    case 'b' => 1
    case 'H' => 2
    case 'h' => 2
    case 'L' => 8
    case 'l' => 8
    case 'T' => 8
    case 'f' => 4
    case 'd' => 8
    case 'x' => 1
    case _ => 0
  }

  function IntSize(rest: string): (z: Sized)
    ensures z.Sized? ==> |z.rest| <= |rest| && z.size <= MAX_INT_SIZE
  {
    var z := GetNum(rest, 4);
    if z.Sized? && z.size > MAX_INT_SIZE then NoSize(SizeTooLarge) else z
  }

  // ----- alignment -----

  predicate IsPow2(x: nat) {
    x > 0 && BitAnd(x, x - 1) == 0
  }

  /** The larger of the sizes that alignment acts on. */
  function Unit(h: Header, size: nat): nat {
    if size > h.align then h.align else size
  }

  /** gettoalign: how many bytes of padding an option takes at position pos. */
  function ToAlign(pos: nat, h: Header, opt: char, size: nat): nat
    requires h.align > 0
  {
    if size == 0 || opt == 'c' then 0 else Padding(pos, Unit(h, size))
  }

  function Padding(pos: nat, u: nat): nat
    requires u > 0
  {
    BitAnd(u - BitAnd(pos, u - 1), u - 1)
  }

  lemma {:induction false} Log2(x: nat) returns (k: nat)
    requires IsPow2(x)
    ensures x == Pow(2, k)
    decreases x
  {
    k := 0;
    if x > 1 {
      HalfIsPow2(x);
      var j := Log2(x / 2);
      k := j + 1;
    }
  }

  lemma PowersAre(k: nat)
    ensures IsPow2(Pow(2, k))
  {
    var p := Pow(2, k);
    MaskIsRemainder(p, k);
    DivisionIs(p, p, 1, 0);
  }

  /** x & (x - 1) == 0 says exactly that a positive x is a power of two. */
  lemma Pow2Exactly(x: nat)
    ensures IsPow2(x) <==> exists k: nat :: x == Pow(2, k)
  {
    if IsPow2(x) {
      var k := Log2(x);
    }
    if k: nat :| x == Pow(2, k) {
      PowersAre(k);
    }
  }

  lemma HalfIsPow2(x: nat)
    requires x > 1 && IsPow2(x)
    ensures x % 2 == 0 && IsPow2(x / 2)
  {
    if x % 2 == 1 {
      AndSelf(x / 2);
    } else {
      assert (x - 1) / 2 == x / 2 - 1;
    }
  }

  /** A position that is a multiple of the unit. */
  predicate Aligned(pos: nat, u: nat) {
    u > 0 && pos % u == 0
  }

  /** Where the unit is a power of two, the padding is the least that reaches a multiple of it. */
  lemma Aligns(pos: nat, h: Header, opt: char, size: nat)
    requires h.align > 0 && size > 0 && opt != 'c' && IsPow2(Unit(h, size))
    ensures ToAlign(pos, h, opt, size) < Unit(h, size)
    ensures Aligned(pos + ToAlign(pos, h, opt, size), Unit(h, size))
  {
    PadAligns(pos, Unit(h, size), ToAlign(pos, h, opt, size));
  }

  lemma PadAligns(pos: nat, u: nat, pad: nat)
    requires IsPow2(u) && pad == Padding(pos, u)
    ensures pad < u && Aligned(pos + pad, u)
  {
    PadIs(pos, u, pad);
    PadReaches(pos, u, pos % u, pad);
  }

  lemma PadIs(pos: nat, u: nat, pad: nat)
    requires IsPow2(u) && pad == Padding(pos, u)
    ensures pad == (u - pos % u) % u
  {
    var k := Log2(u);
    MaskIsRemainder(pos, k);
    MaskIsRemainder(u - pos % u, k);
  }

  lemma PadReaches(pos: nat, u: nat, r: nat, pad: nat)
    requires u > 0 && r == pos % u && pad == (u - r) % u
    ensures pad < u && Aligned(pos + pad, u)
  {
    var q := pos / u;
    assert pos == u * q + r;
    if r == 0 {
      DivisionIs(u, u, 1, 0);
    } else {
      DivisionIs(u - r, u, 0, u - r);
      assert u * (q + 1) == u * q + u;
      DivisionIs(pos + pad, u, q + 1, 0);
    }
  }

  /** An option at the very start is unpadded exactly when its unit is a power of two. */
  lemma StartUnpadded(h: Header, opt: char, size: nat)
    requires h.align > 0 && size > 0 && opt != 'c'
    ensures ToAlign(0, h, opt, size) == 0 <==> IsPow2(Unit(h, size))
  {
    ZeroAnd(Unit(h, size) - 1);
  }

  /** So "!4i3" starts with two bytes of padding. */
  lemma OddSizePads()
    ensures ToAlign(0, Header(false, 4), 'i', 3) == 2
  {
    assert BitAnd(0, 2) == 0;
    assert BitAnd(3, 2) == 2;
  }

  // ----- control -----

  datatype Control = Control(rest: string, h: Header) | NoControl(error: Error)

  /** controloptions. */
  function Controlled(opt: char, rest: string, h: Header): (c: Control)
    requires h.align > 0
    ensures c.Control? ==> c.h.align > 0 && |c.rest| <= |rest|
  {
    match opt
    case ' ' => Control(rest, h)
    case '>' => Control(rest, h.(big := true))
    case '<' => Control(rest, h.(big := false))
    case '!' =>
      var z := GetNum(rest, MAX_ALIGN);
      if z.NoSize? then NoControl(z.error)
      else if !IsPow2(z.size) then NoControl(BadAlignment)
      else Control(z.rest, h.(align := z.size))
    case _ => NoControl(BadOption)
  }

  const Start := Header(false, 1)

  predicate IsInt(opt: char) {
    IsSigned(opt) || opt == 'B' || opt == 'H' || opt == 'L' || opt == 'T' || opt == 'I'
  }

  /** islower. */
  predicate IsSigned(opt: char) {
    opt == 'b' || opt == 'h' || opt == 'l' || opt == 'i'
  }

  predicate IsImage(opt: char) {
    opt == 'f' || opt == 'd'
  }

  predicate IsText(opt: char) {
    opt == 'c' || opt == 's'
  }

  /** The options that stand for data; the rest are control options. */
  predicate IsData(opt: char) {
    IsInt(opt) || IsImage(opt) || IsText(opt) || opt == 'x'
  }

  predicate IsAlnum(opt: char) {
    IsDigit(opt) || 'a' <= opt <= 'z' || 'A' <= opt <= 'Z'
  }
}
