/**
  What a format writes, byte for byte: the width of every option, which bytes an integer has, which
  order and which alignment a switch sets (src/lua_struct.c:92-223, 312-385).
 */
module StructBytes {
  import opened Powers
  import opened Bits
  import opened Digits
  import opened Bytes
  import opened StructFormat
  import opened StructCodec
  import opened StructLaws

  /** An option or a switch of a format, the numeral behind it, and its value where it has one. */
  datatype Field = Field(opt: char, digits: string, v: Val)

  predicate IsSwitch(opt: char) {
    opt == '>' || opt == '<' || opt == '!' || opt == ' '
  }

  predicate TakesNumeral(opt: char) {
    opt == 'i' || opt == 'I' || opt == 'c' || opt == '!'
  }

  /** The bytes an option stands for, on a machine with 2-byte short, 4-byte int and 8-byte long and size_t. */
  function Width(opt: char, digits: string): nat
    requires AllDigits(digits)
  {
    if IsSwitch(opt) then 0
    else if digits != "" then Value(digits)
    else if opt == 'b' || opt == 'B' || opt == 'c' || opt == 'x' then 1
    else if opt == 'h' || opt == 'H' then 2
    else if opt == 'i' || opt == 'I' || opt == 'f' then 4
    else if opt == 'l' || opt == 'L' || opt == 'T' || opt == 'd' then 8
    else 0
  }

  /** The alignment that '!' sets. */
  function Alignment(digits: string): nat
    requires AllDigits(digits)
  {
    if digits == "" then 8 else Value(digits)
  }

  /** A field as the format may have it. */
  predicate Written(f: Field) {
    && AllDigits(f.digits) && (IsSwitch(f.opt) || IsData(f.opt)) && (f.digits != "" ==> TakesNumeral(f.opt))
    && Width(f.opt, f.digits) <= (if f.opt == 'c' then INT_MAX else 32)
    && (f.opt == '!' ==> IsPow2(Alignment(f.digits)) && Alignment(f.digits) <= INT_MAX)
  }

  /** The value is one that the option takes, in full. */
  predicate Suits(f: Field)
    requires Written(f)
  {
    && (IsInt(f.opt) ==> f.v.Num?)
    && (IsImage(f.opt) ==> f.v.Image? && |f.v.b| == Width(f.opt, f.digits))
    && (f.opt == 'c' ==> f.v.Text? && |f.v.s| == Width(f.opt, f.digits) > 0)
    && (f.opt == 's' ==> f.v.Text? && CString(f.v.s))
  }

  predicate HasValue(opt: char) {
    IsInt(opt) || IsImage(opt) || opt == 'c' || opt == 's'
  }

  /** Byte i from the low end of a 64-bit word, and 0 above it. */
  function ByteAt(n: int, i: nat): byte {
    PowPositive(256, i);
    n % TWO64 / Pow(256, i) % 256
  }

  /** The k bytes of an integer: the last one is the lowest if big is set, the first one otherwise. */
  function ByWeight(n: int, k: nat, big: bool): (s: seq<byte>)
    ensures |s| == k
  {
    seq(k, i requires 0 <= i < k => ByteAt(n, if big then k - 1 - i else i))
  }

  function FieldBytes(f: Field, big: bool): seq<byte>
    requires Written(f) && Suits(f)
  {
    if IsInt(f.opt) then ByWeight(f.v.n, Width(f.opt, f.digits), big)
    else if IsImage(f.opt) then if big then f.v.b else Reversed(f.v.b)
    else if f.opt == 'c' then f.v.s
    else if f.opt == 's' then f.v.s + [0]
    else if f.opt == 'x' then [0]
    else []
  }

  /** The order and the alignment behind a field. */
  function Turned(f: Field, h: Header): (t: Header)
    requires Written(f)
    ensures h.align > 0 ==> t.align > 0
  {
    if f.opt == '>' then Header(true, h.align)
    else if f.opt == '<' then Header(false, h.align)
    else if f.opt == '!' then Header(h.big, Alignment(f.digits))
    else h
  }

  /** The padding in front of a field. */
  function Gap(f: Field, h: Header, pos: nat): nat
    requires Written(f) && h.align > 0
  {
    ToAlign(pos, h, f.opt, Width(f.opt, f.digits))
  }

  predicate AllSuit(fs: seq<Field>) {
    fs == [] || (Written(fs[0]) && Suits(fs[0]) && AllSuit(fs[1..]))
  }

  function Format(fs: seq<Field>): string {
    if fs == [] then "" else [fs[0].opt] + fs[0].digits + Format(fs[1..])
  }

  function Values(fs: seq<Field>): seq<Val> {
    if fs == [] then [] else (if HasValue(fs[0].opt) then [fs[0].v] else []) + Values(fs[1..])
  }

  /** What the fields stand for, one behind the other, each behind its padding of zeros. */
  function Plain(fs: seq<Field>, h: Header, pos: nat): seq<byte>
    requires AllSuit(fs) && h.align > 0
  {
    if fs == [] then []
    else
      var bytes := Zeros(Gap(fs[0], h, pos)) + FieldBytes(fs[0], h.big);
      bytes + Plain(fs[1..], Turned(fs[0], h), pos + |bytes|)
  }

  // ----- integers -----

  lemma {:induction false} BigEndianAt(n: nat, k: nat, i: nat)
    requires i < k
    ensures 0 < Pow(256, k - 1 - i) && BigEndian(n, k)[i] == n / Pow(256, k - 1 - i) % 256
    decreases k
  {
    PowPositive(256, k - 1 - i);
    if i < k - 1 {
      BigEndianAt(n / 256, k - 1, i);
      DivTwice(n, 256, Pow(256, k - 2 - i), Pow(256, k - 1 - i));
    }
  }

  lemma WeightAt(n: int, k: nat, big: bool, i: nat)
    requires i < k
    ensures IntBytes(n, k, big)[i] == ByWeight(n, k, big)[i]
  {
    var at := if big then i else k - 1 - i;
    BigEndianAt(n % TWO64, k, at);
    assert k - 1 - at == if big then k - 1 - i else i;
  }

  /** The low byte is last after '>' and first after '<' or without a switch. */
  lemma IntegerByWeight(n: int, k: nat, big: bool)
    ensures IntBytes(n, k, big) == ByWeight(n, k, big)
  {
    forall i: nat | i < k
      ensures IntBytes(n, k, big)[i] == ByWeight(n, k, big)[i]
    {
      WeightAt(n, k, big, i);
    }
  }

  // ----- one field -----

  lemma RunIs(digits: string, rest: string)
    requires AllDigits(digits) && (rest == "" || !IsDigit(rest[0]))
    ensures Run(digits + rest) == |digits|
  {
    var s, k := digits + rest, Run(digits + rest);
    assert forall i | 0 <= i < |digits| :: s[i] == digits[i];
    assert rest != "" ==> s[|digits|] == rest[0];
    assert forall i | 0 <= i < k :: IsDigit(s[..k][i]) && s[..k][i] == s[i];
  }

  lemma NumeralIs(digits: string, rest: string, default: nat)
    requires AllDigits(digits) && (rest == "" || !IsDigit(rest[0])) && Value(digits) <= INT_MAX
    ensures GetNum(digits + rest, default) == Sized(if digits == "" then default else Value(digits), rest)
  {
    RunIs(digits, rest);
    assert (digits + rest)[..|digits|] == digits && (digits + rest)[|digits|..] == rest;
  }

  /** How the numeral behind an option or a switch is taken, and what is left behind it. */
  lemma OptionIs(f: Field, rest: string, h: Header) returns (behind: string)
    requires Written(f) && (rest == "" || !IsDigit(rest[0])) && h.align > 0
    ensures OptSize(f.opt, f.digits + rest) == Sized(Width(f.opt, f.digits), behind)
    ensures After(f.opt, behind, h) == Control(rest, Turned(f, h)) && |behind| <= |f.digits + rest|
  {
    if f.opt == '!' {
      behind := f.digits + rest;
      NumeralIs(f.digits, rest, 8);
      assert f.digits == "" ==> Value(f.digits) == 0;
    } else if TakesNumeral(f.opt) {
      behind := rest;
      assert f.digits == "" ==> Value(f.digits) == 0;
      NumeralIs(f.digits, rest, if f.opt == 'c' then 1 else 4);
    } else {
      assert f.digits + rest == rest;
      behind := rest;
    }
  }

  /** What stands at the front of the arguments for a field. */
  predicate Fronts(f: Field, args: seq<Val>) {
    HasValue(f.opt) ==> args != [] && args[0] == f.v
  }

  lemma WritesField(f: Field, args: seq<Val>, big: bool)
    requires Written(f) && Suits(f) && Fronts(f, args)
    ensures PackOne(f.opt, Width(f.opt, f.digits), args, big) == Piece(FieldBytes(f, big), if HasValue(f.opt) then 1 else 0)
  {
    if IsInt(f.opt) {
      IntegerByWeight(f.v.n, Width(f.opt, f.digits), big);
    }
  }

  lemma Opens(f: Field, rest: string)
    requires Written(f)
    ensures var fmt := [f.opt] + f.digits + rest; !Ends(fmt) && fmt[0] == f.opt && fmt[1..] == f.digits + rest
  {
  }

  lemma FormatSplits(fs: seq<Field>)
    requires fs != [] && AllSuit(fs)
    ensures Format(fs) != "" && Format(fs)[0] == fs[0].opt && !IsDigit(Format(fs)[0]) && !Ends(Format(fs))
    ensures Format(fs)[1..] == fs[0].digits + Format(fs[1..])
  {
    Opens(fs[0], Format(fs[1..]));
  }

  lemma RestIsNoDigit(fs: seq<Field>)
    requires AllSuit(fs)
    ensures Format(fs) == "" || !IsDigit(Format(fs)[0])
  {
    if fs != [] {
      FormatSplits(fs);
    }
  }

  lemma PackTurnIs(fmt: string, f: Field, rest: string, args: seq<Val>, h: Header, pos: nat, bytes: seq<byte>, used: nat)
    requires Written(f) && Suits(f) && Fronts(f, args) && !Ends(fmt) && fmt[0] == f.opt && fmt[1..] == f.digits + rest
    requires (rest == "" || !IsDigit(rest[0])) && h.align > 0
    requires bytes == Zeros(Gap(f, h, pos)) + FieldBytes(f, h.big) && used == if HasValue(f.opt) then 1 else 0
    ensures PackOption(fmt, args, h, pos) == PackTurn(bytes, used, rest, Turned(f, h))
  {
    var behind := OptionIs(f, rest, h);
    WritesField(f, args, h.big);
  }

  lemma FieldWrites(fs: seq<Field>, f: Field, rest: string, args: seq<Val>, h: Header, pos: nat, bytes: seq<byte>, used: nat)
    requires fs != [] && AllSuit(fs) && f == fs[0] && rest == Format(fs[1..]) && Fronts(f, args) && h.align > 0
    requires bytes == Zeros(Gap(f, h, pos)) + FieldBytes(f, h.big) && used == if HasValue(f.opt) then 1 else 0
    ensures !Ends(Format(fs)) && PackOption(Format(fs), args, h, pos) == PackTurn(bytes, used, rest, Turned(f, h))
  {
    FormatSplits(fs);
    RestIsNoDigit(fs[1..]);
    PackTurnIs(Format(fs), f, rest, args, h, pos, bytes, used);
  }

  lemma PacksOn(fmt: string, args: seq<Val>, h: Header, pos: nat, bytes: seq<byte>, used: nat, rest: string, h2: Header,
                pos2: nat, left: seq<Val>, more: seq<byte>, all: seq<byte>)
    requires h.align > 0 && !Ends(fmt) && PackOption(fmt, args, h, pos) == PackTurn(bytes, used, rest, h2)
    requires used <= |args| && left == args[used..] && pos2 == pos + |bytes| && h2.align > 0
    requires Pack(rest, left, h2, pos2) == Packed(more) && all == bytes + more
    ensures Pack(fmt, args, h, pos) == Packed(all)
  {
    PackFold(fmt, args, h, pos, bytes, used, rest, h2, pos2, left);
  }

  lemma ValuesInFront(v: Val, has: bool, left: seq<Val>) returns (args: seq<Val>, used: nat)
    ensures args == (if has then [v] else []) + left && used == if has then 1 else 0
    ensures used <= |args| && args[used..] == left && (has ==> args[0] == v)
  {
    args, used := (if has then [v] else []) + left, if has then 1 else 0;
  }

  lemma PlainUnfold(fs: seq<Field>, h: Header, pos: nat) returns (bytes: seq<byte>, h2: Header, pos2: nat, more: seq<byte>)
    requires fs != [] && AllSuit(fs) && h.align > 0
    ensures bytes == Zeros(Gap(fs[0], h, pos)) + FieldBytes(fs[0], h.big) && h2 == Turned(fs[0], h) && h2.align > 0
    ensures pos2 == pos + |bytes| && more == Plain(fs[1..], h2, pos2) && Plain(fs, h, pos) == bytes + more
  {
    bytes, h2 := Zeros(Gap(fs[0], h, pos)) + FieldBytes(fs[0], h.big), Turned(fs[0], h);
    pos2 := pos + |bytes|;
    more := Plain(fs[1..], h2, pos2);
  }

  /** Packing writes each value in its own bytes and nothing else. */
  lemma {:induction false} PacksPlain(fs: seq<Field>, h: Header, pos: nat)
    requires AllSuit(fs) && h.align > 0
    ensures Pack(Format(fs), Values(fs), h, pos) == Packed(Plain(fs, h, pos))
    decreases |fs|
  {
    if fs != [] {
      var bytes, h2, pos2, more := PlainUnfold(fs, h, pos);
      PacksPlain(fs[1..], h2, pos2);
      var args, used := ValuesInFront(fs[0].v, HasValue(fs[0].opt), Values(fs[1..]));
      FieldWrites(fs, fs[0], Format(fs[1..]), args, h, pos, bytes, used);
      PacksOn(Format(fs), args, h, pos, bytes, used, Format(fs[1..]), h2, pos2, Values(fs[1..]), more, Plain(fs, h, pos));
    }
  }

  // ----- reading -----

  /** The integers an option can give back: options in lower case are signed. */
  predicate Fits(f: Field)
    requires Written(f) && Suits(f)
  {
    IsInt(f.opt) ==>
      var k := Width(f.opt, f.digits);
      if 'a' <= f.opt <= 'z' then 1 <= k <= 8 && 0 <= 2 * f.v.n + Pow(256, k) && 2 * f.v.n < Pow(256, k)
      else 0 <= f.v.n < Pow(256, k) && f.v.n < TWO64
  }

  predicate AllFit(fs: seq<Field>)
    requires AllSuit(fs)
  {
    fs == [] || (Fits(fs[0]) && AllFit(fs[1..]))
  }

  lemma NulBehind(s: seq<byte>, data: seq<byte>, tail: seq<byte>)
    requires CString(s) && data == s + [0] + tail
    ensures NulAt(data) == |s|
  {
    var k := NulAt(data);
    assert forall i | 0 <= i < |s| :: data[i] == s[i];
    assert data[|s|] == 0;
  }

  lemma ReadsText(f: Field, data: seq<byte>, at: nat, tail: seq<byte>, acc: seq<Val>, big: bool)
    requires Written(f) && Suits(f) && f.opt == 's' && at <= |data| && data[at..] == f.v.s + [0] + tail
    ensures UnpackOne('s', 0, data, at, big, acc) == Taken(acc + [f.v], |f.v.s| + 1)
  {
    NulBehind(f.v.s, data[at..], tail);
    assert data[at..at + |f.v.s|] == data[at..][..|f.v.s|] == f.v.s;
  }

  lemma ReversedTwice(s: seq<byte>)
    ensures Reversed(Reversed(s)) == s
  {
  }

  lemma ReadsInteger(f: Field, big: bool)
    requires Written(f) && Suits(f) && Fits(f) && IsInt(f.opt)
    ensures IntValue(FieldBytes(f, big), big, IsSigned(f.opt)) == f.v.n
  {
    IntegerByWeight(f.v.n, Width(f.opt, f.digits), big);
    IntReads(f.v.n, Width(f.opt, f.digits), big, IsSigned(f.opt));
  }

  /** Reading a field gives its value and takes its bytes, of which k are there for sure. */
  lemma ReadsField(f: Field, k: nat, data: seq<byte>, at: nat, tail: seq<byte>, acc: seq<Val>, big: bool)
    requires Written(f) && Suits(f) && Fits(f) && k == Width(f.opt, f.digits)
    requires at <= |data| && data[at..] == FieldBytes(f, big) + tail
    ensures at + k <= |data|
    ensures UnpackOne(f.opt, k, data, at, big, acc)
         == Taken(if HasValue(f.opt) then acc + [f.v] else acc, |FieldBytes(f, big)|)
  {
    if f.opt == 's' {
      ReadsText(f, data, at, tail, acc, big);
    } else {
      FieldLength(f, big);
      FrontPart(data, at, FieldBytes(f, big), tail);
      ReadsFront(f, k, data, at, acc, big, FieldBytes(f, big), if HasValue(f.opt) then acc + [f.v] else acc);
    }
  }

  lemma FieldLength(f: Field, big: bool)
    requires Written(f) && Suits(f) && f.opt != 's'
    ensures |FieldBytes(f, big)| == Width(f.opt, f.digits)
  {
  }

  lemma FrontPart(data: seq<byte>, at: nat, bytes: seq<byte>, tail: seq<byte>)
    requires at <= |data| && data[at..] == bytes + tail
    ensures at + |bytes| <= |data| && data[at..at + |bytes|] == bytes
  {
    assert data[at..at + |bytes|] == data[at..][..|bytes|];
  }

  lemma TakesInteger(opt: char, k: nat, data: seq<byte>, at: nat, bytes: seq<byte>, acc: seq<Val>, big: bool, n: int)
    requires IsInt(opt) && (IsSigned(opt) ==> 1 <= k <= 8) && at + k <= |data| && data[at..at + k] == bytes
    requires IntValue(bytes, big, IsSigned(opt)) == n
    ensures UnpackOne(opt, k, data, at, big, acc) == Taken(acc + [Num(n)], k)
  {
  }

  lemma TakesImage(opt: char, k: nat, data: seq<byte>, at: nat, bytes: seq<byte>, acc: seq<Val>, big: bool, image: seq<byte>)
    requires IsImage(opt) && at + k <= |data| && data[at..at + k] == bytes && image == Oriented(bytes, big)
    ensures UnpackOne(opt, k, data, at, big, acc) == Taken(acc + [Image(image)], k)
  {
  }

  lemma TakesOther(opt: char, k: nat, data: seq<byte>, at: nat, text: seq<byte>, acc: seq<Val>, big: bool)
    requires !IsInt(opt) && !IsImage(opt) && opt != 's' && at + k <= |data| && data[at..at + k] == text
    requires opt == 'c' ==> 0 < k
    ensures UnpackOne(opt, k, data, at, big, acc) == Taken(if opt == 'c' then acc + [Text(text)] else acc, k)
  {
  }

  lemma ReadsFront(f: Field, k: nat, data: seq<byte>, at: nat, acc: seq<Val>, big: bool, bytes: seq<byte>, given: seq<Val>)
    requires Written(f) && Suits(f) && Fits(f) && f.opt != 's' && k == Width(f.opt, f.digits)
    requires at + k <= |data| && bytes == FieldBytes(f, big) && data[at..at + k] == bytes
    requires given == if HasValue(f.opt) then acc + [f.v] else acc
    ensures UnpackOne(f.opt, k, data, at, big, acc) == Taken(given, k)
  {
    if IsInt(f.opt) {
      ReadsInteger(f, big);
      TakesInteger(f.opt, k, data, at, bytes, acc, big, f.v.n);
    } else if IsImage(f.opt) {
      ReversedTwice(f.v.b);
      TakesImage(f.opt, k, data, at, bytes, acc, big, f.v.b);
    } else {
      TakesOther(f.opt, k, data, at, bytes, acc, big);
    }
  }

  lemma UnpackTurnIs(fmt: string, f: Field, rest: string, data: seq<byte>, pos: nat, at: nat, tail: seq<byte>, acc: seq<Val>,
                     h: Header, acc2: seq<Val>, pos2: nat)
    requires Written(f) && Suits(f) && Fits(f) && !Ends(fmt) && fmt[0] == f.opt && fmt[1..] == f.digits + rest
    requires (rest == "" || !IsDigit(rest[0])) && h.align > 0 && at == pos + Gap(f, h, pos) && at <= |data|
    requires data[at..] == FieldBytes(f, h.big) + tail && pos2 == at + |FieldBytes(f, h.big)|
    requires acc2 == if HasValue(f.opt) then acc + [f.v] else acc
    ensures UnpackOption(fmt, data, h, pos, acc) == UnpackTurn(acc2, pos2, rest, Turned(f, h))
  {
    var behind := OptionIs(f, rest, h);
    ReadsField(f, Width(f.opt, f.digits), data, at, tail, acc, h.big);
    OptionReads(fmt, f.opt, behind, rest, data, pos, at, acc, h, Turned(f, h), acc2, pos2, Width(f.opt, f.digits));
  }

  lemma OptionReads(fmt: string, opt: char, behind: string, rest: string, data: seq<byte>, pos: nat, at: nat, acc: seq<Val>,
                    h: Header, h2: Header, acc2: seq<Val>, pos2: nat, k: nat)
    requires !Ends(fmt) && fmt[0] == opt && OptSize(opt, fmt[1..]) == Sized(k, behind) && h.align > 0
    requires at == pos + ToAlign(pos, h, opt, k) && at <= pos2 <= |data| && at + k <= |data|
    requires UnpackOne(opt, k, data, at, h.big, acc) == Taken(acc2, pos2 - at)
    requires After(opt, behind, h) == Control(rest, h2)
    ensures UnpackOption(fmt, data, h, pos, acc) == UnpackTurn(acc2, pos2, rest, h2)
  {
    OptionTaken(fmt, opt, behind, data, pos, at, acc, h, k, UnpackOne(opt, k, data, at, h.big, acc));
    EndsTurn(opt, behind, rest, h, h2, at, |data|, acc2, pos2);
  }

  lemma OptionTaken(fmt: string, opt: char, behind: string, data: seq<byte>, pos: nat, at: nat, acc: seq<Val>, h: Header, k: nat,
                    t: Taken)
    requires !Ends(fmt) && fmt[0] == opt && OptSize(opt, fmt[1..]) == Sized(k, behind) && h.align > 0
    requires at == pos + ToAlign(pos, h, opt, k) && at + k <= |data| && t == UnpackOne(opt, k, data, at, h.big, acc)
    requires t.Taken? ==> at + t.size <= |data|
    ensures UnpackOption(fmt, data, h, pos, acc) == UnpackEnd(opt, behind, h, at, |data|, t)
  {
  }

  lemma EndsTurn(opt: char, behind: string, rest: string, h: Header, h2: Header, at: nat, length: nat, acc2: seq<Val>, pos2: nat)
    requires h.align > 0 && at <= pos2 <= length && After(opt, behind, h) == Control(rest, h2)
    ensures UnpackEnd(opt, behind, h, at, length, Taken(acc2, pos2 - at)) == UnpackTurn(acc2, pos2, rest, h2)
  {
  }

  lemma SkipBytes(data: seq<byte>, pos: nat, bytes: seq<byte>, rest: seq<byte>, tail: seq<byte>)
    requires pos <= |data| && data[pos..] == (bytes + rest) + tail
    ensures data[pos..] == bytes + (rest + tail)
    ensures pos + |bytes| <= |data| && data[pos + |bytes|..] == rest + tail
  {
    assert data[pos..] == bytes + (rest + tail);
    assert data[pos + |bytes|..] == data[pos..][|bytes|..];
  }

  lemma ValuesSplit(v: Val, has: bool, more: seq<Val>, acc: seq<Val>) returns (acc2: seq<Val>)
    ensures acc2 == if has then acc + [v] else acc
    ensures acc + ((if has then [v] else []) + more) == acc2 + more
  {
    acc2 := if has then acc + [v] else acc;
    assert has ==> acc + ([v] + more) == (acc + [v]) + more;
    assert !has ==> [] + more == more;
  }

  lemma SkipPadding(data: seq<byte>, pos: nat, zeros: seq<byte>, bytes: seq<byte>, rest: seq<byte>, tail: seq<byte>)
    requires pos <= |data| && data[pos..] == (zeros + bytes + rest) + tail
    ensures pos + |zeros| + |bytes| <= |data| && data[pos + |zeros|..] == bytes + (rest + tail)
    ensures data[pos + |zeros| + |bytes|..] == rest + tail
  {
    assert zeros + bytes + rest == zeros + (bytes + rest);
    SkipBytes(data, pos, zeros, bytes + rest, tail);
    SkipBytes(data, pos + |zeros|, bytes, rest, tail);
  }

  lemma PlainSplits(fs: seq<Field>, h: Header, data: seq<byte>, pos: nat, tail: seq<byte>, acc: seq<Val>)
    returns (acc2: seq<Val>, at: nat, pos2: nat, back: seq<byte>)
    requires AllSuit(fs) && fs != [] && h.align > 0 && pos <= |data| && data[pos..] == Plain(fs, h, pos) + tail
    ensures at == pos + Gap(fs[0], h, pos) && pos2 == at + |FieldBytes(fs[0], h.big)| && pos2 <= |data|
    ensures data[at..] == FieldBytes(fs[0], h.big) + back
    ensures data[pos2..] == Plain(fs[1..], Turned(fs[0], h), pos2) + tail
    ensures pos2 + |Plain(fs[1..], Turned(fs[0], h), pos2)| == pos + |Plain(fs, h, pos)|
    ensures acc2 == (if HasValue(fs[0].opt) then acc + [fs[0].v] else acc) && acc2 + Values(fs[1..]) == acc + Values(fs)
  {
    var bytes, h2, next, more := PlainUnfold(fs, h, pos);
    at, back := SplitAt(fs[0], h, data, pos, bytes, more, tail);
    pos2 := next;
    acc2 := ValuesSplit(fs[0].v, HasValue(fs[0].opt), Values(fs[1..]), acc);
  }

  lemma SplitAt(f: Field, h: Header, data: seq<byte>, pos: nat, bytes: seq<byte>, more: seq<byte>, tail: seq<byte>)
    returns (at: nat, back: seq<byte>)
    requires Written(f) && Suits(f) && h.align > 0 && bytes == Zeros(Gap(f, h, pos)) + FieldBytes(f, h.big)
    requires pos <= |data| && data[pos..] == (bytes + more) + tail
    ensures at == pos + Gap(f, h, pos) && pos + |bytes| == at + |FieldBytes(f, h.big)| <= |data|
    ensures data[at..] == FieldBytes(f, h.big) + back && data[pos + |bytes|..] == more + tail
  {
    at, back := pos + Gap(f, h, pos), more + tail;
    SkipPadding(data, pos, Zeros(Gap(f, h, pos)), FieldBytes(f, h.big), more, tail);
  }

  /** Unpacking reads each value from those bytes, whatever follows them. */
  lemma {:induction false} UnpacksPlain(fs: seq<Field>, h: Header, data: seq<byte>, pos: nat, tail: seq<byte>, acc: seq<Val>)
    requires AllSuit(fs) && AllFit(fs) && h.align > 0 && pos <= |data| && data[pos..] == Plain(fs, h, pos) + tail
    ensures Unpack(Format(fs), data, h, pos, acc) == Unpacked(acc + Values(fs), pos + |Plain(fs, h, pos)|)
    decreases |fs|
  {
    if fs == [] {
      assert acc + [] == acc;
    } else {
      var acc2, at, pos2, back := PlainSplits(fs, h, data, pos, tail, acc);
      UnpacksPlain(fs[1..], Turned(fs[0], h), data, pos2, tail, acc2);
      FieldReads(fs, fs[0], fs[1..], data, pos, at, back, acc, h, acc2, pos2, Unpacked(acc + Values(fs), pos + |Plain(fs, h, pos)|));
    }
  }

  lemma FieldReads(fs: seq<Field>, f: Field, rest: seq<Field>, data: seq<byte>, pos: nat, at: nat, tail: seq<byte>,
                   acc: seq<Val>, h: Header, acc2: seq<Val>, pos2: nat, r: Unpacked)
    requires fs != [] && AllSuit(fs) && f == fs[0] && rest == fs[1..] && Fits(f) && h.align > 0
    requires at == pos + Gap(f, h, pos) && at <= |data|
    requires data[at..] == FieldBytes(f, h.big) + tail && pos2 == at + |FieldBytes(f, h.big)|
    requires acc2 == if HasValue(f.opt) then acc + [f.v] else acc
    requires Unpack(Format(rest), data, Turned(f, h), pos2, acc2) == r
    ensures Unpack(Format(fs), data, h, pos, acc) == r
  {
    FormatSplits(fs);
    RestIsNoDigit(rest);
    UnpackTurnIs(Format(fs), f, Format(rest), data, pos, at, tail, acc, h, acc2, pos2);
    UnpackUnfold(Format(fs), data, h, pos, acc, acc2, pos2, Format(rest), Turned(f, h));
  }

  // ----- from the start -----

  /** struct.pack and struct.unpack, the order being little-endian and nothing aligned before a switch. */
  lemma FormatsArePlain(fs: seq<Field>, tail: seq<byte>)
    requires AllSuit(fs)
    ensures var bytes := Plain(fs, Header(false, 1), 0);
            && Pack(Format(fs), Values(fs), Start, 0) == Packed(bytes)
            && (AllFit(fs) ==> Unpack(Format(fs), bytes + tail, Start, 0, []) == Unpacked(Values(fs), |bytes|))
  {
    var bytes := Plain(fs, Header(false, 1), 0);
    PacksPlain(fs, Start, 0);
    if AllFit(fs) {
      assert (bytes + tail)[0..] == bytes + tail && [] + Values(fs) == Values(fs);
      UnpacksPlain(fs, Start, bytes + tail, 0, tail, []);
    }
  }

  /** An integer behind a switch of the order, or the last one without any. */
  lemma OneInteger(order: string, opt: char, digits: string, n: int, fs: seq<Field>)
    requires order == ">" || order == "<" || order == ""
    requires fs == (if order == "" then [] else [Field(order[0], "", Num(0))]) + [Field(opt, digits, Num(n))]
    requires IsInt(opt) && AllDigits(digits) && AllSuit(fs)
    ensures Format(fs) == order + ([opt] + digits) && Values(fs) == [Num(n)]
    ensures Pack(order + ([opt] + digits), [Num(n)], Start, 0) == Packed(ByWeight(n, Width(opt, digits), order == ">"))
  {
    var f := Field(opt, digits, Num(n));
    var bytes := ByWeight(n, Width(opt, digits), order == ">");
    LastInteger([f], f, Header(order == ">", 1), bytes);
    if order != "" {
      assert fs[1..] == [f];
      BehindSwitch(fs, order[0], [f], bytes);
    }
    PacksPlain(fs, Start, 0);
  }

  lemma LastInteger(fs: seq<Field>, f: Field, h: Header, bytes: seq<byte>)
    requires fs == [f] && IsInt(f.opt) && AllSuit(fs) && h.align == 1 && bytes == FieldBytes(f, h.big)
    ensures Format(fs) == [f.opt] + f.digits && Values(fs) == [f.v] && Plain(fs, h, 0) == bytes
  {
    Unpadded(0, h, f.opt, Width(f.opt, f.digits));
    var b, h2, pos2, more := PlainUnfold(fs, h, 0);
    assert Zeros(0) + bytes == bytes && bytes + [] == bytes;
  }

  lemma BehindSwitch(fs: seq<Field>, switch: char, rest: seq<Field>, bytes: seq<byte>)
    requires fs != [] && fs[1..] == rest && fs[0].opt == switch && fs[0].digits == "" && AllSuit(fs)
    requires (switch == '>' || switch == '<') && Plain(rest, Header(switch == '>', 1), 0) == bytes
    ensures Format(fs) == [switch] + Format(rest) && Values(fs) == Values(rest) && Plain(fs, Start, 0) == bytes
  {
    var b, h2, pos2, more := PlainUnfold(fs, Start, 0);
    assert b == [];
    assert [switch] + "" + Format(rest) == [switch] + Format(rest);
  }

  lemma Unpadded(pos: nat, h: Header, opt: char, size: nat)
    requires h.align == 1
    ensures ToAlign(pos, h, opt, size) == 0
  {
    if size != 0 && opt != 'c' {
      ZeroAnd(0);
      PadIs(pos, 1, Padding(pos, 1));
    }
  }

  lemma LowBytes(n: nat)
    requires n < 0x1_0000
    ensures ByteAt(n, 0) == n % 256 && ByteAt(n, 1) == n / 256
  {
    assert Pow(256, 0) == 1 && Pow(256, 1) == 256 && n % TWO64 == n;
  }

  lemma TwoBytes(n: nat, big: bool, s: seq<byte>)
    requires n < 0x1_0000 && s == ByWeight(n, 2, big)
    ensures s == if big then [n / 256, n % 256] else [n % 256, n / 256]
  {
    LowBytes(n);
    assert s[0] == (if big then n / 256 else n % 256) && s[1] == if big then n % 256 else n / 256;
  }

  /** ">I2" writes the high byte first, "<I2" the low one. */
  lemma TwoByteOrders(order: string, digits: string, n: nat)
    requires n < 0x1_0000 && (order == ">" || order == "<") && digits == "2"
    ensures Pack(order + ("I" + digits), [Num(n)], Start, 0)
         == Packed(if order == ">" then [n / 256, n % 256] else [n % 256, n / 256])
  {
    assert digits[..0] == "" && Value(digits) == 2;
    OneInteger(order, 'I', digits, n, [Field(order[0], "", Num(0)), Field('I', digits, Num(n))]);
    TwoBytes(n, order == ">", ByWeight(n, 2, order == ">"));
  }

  // ----- too little -----

  lemma StopsPacking(fs: seq<Field>, h: Header, pos: nat)
    requires fs != [] && AllSuit(fs) && HasValue(fs[0].opt) && h.align > 0
    ensures !Ends(Format(fs)) && PackOption(Format(fs), [], h, pos) == PackStop(BadArgument)
  {
    FormatSplits(fs);
    RestIsNoDigit(fs[1..]);
    var behind := OptionIs(fs[0], Format(fs[1..]), h);
  }

  lemma FewerValues(v: Val, more: seq<Val>, m: nat)
    requires 0 < m <= |more|
    ensures ([v] + more)[..m] == [v] + more[..m - 1] && ([v] + more)[..m][1..] == more[..m - 1]
  {
  }

  lemma RestRefused(fmt: string, args: seq<Val>, h: Header, pos: nat, bytes: seq<byte>, used: nat, rest: string, h2: Header,
                    pos2: nat, left: seq<Val>, error: Error)
    requires h.align > 0 && !Ends(fmt) && PackOption(fmt, args, h, pos) == PackTurn(bytes, used, rest, h2)
    requires used <= |args| && left == args[used..] && pos2 == pos + |bytes| && h2.align > 0
    requires Pack(rest, left, h2, pos2) == NotPacked(error)
    ensures Pack(fmt, args, h, pos) == NotPacked(error)
  {
    PackFold(fmt, args, h, pos, bytes, used, rest, h2, pos2, left);
  }

  /** With any number of values fewer there is no packing. */
  lemma {:induction false} MissingValue(fs: seq<Field>, m: nat, h: Header, pos: nat)
    requires AllSuit(fs) && h.align > 0 && m < |Values(fs)|
    ensures Pack(Format(fs), Values(fs)[..m], h, pos) == NotPacked(BadArgument)
    decreases |fs|
  {
    if HasValue(fs[0].opt) && m == 0 {
      StopsPacking(fs, h, pos);
    } else {
      var bytes, h2, pos2, more := PlainUnfold(fs, h, pos);
      var used, left := FewerLeft(fs, m);
      MissingValue(fs[1..], left, h2, pos2);
      FieldWrites(fs, fs[0], Format(fs[1..]), Values(fs)[..m], h, pos, bytes, used);
      RestRefused(Format(fs), Values(fs)[..m], h, pos, bytes, used, Format(fs[1..]), h2, pos2, Values(fs[1..])[..left], BadArgument);
    }
  }

  lemma FewerLeft(fs: seq<Field>, m: nat) returns (used: nat, left: nat)
    requires fs != [] && m < |Values(fs)| && (HasValue(fs[0].opt) ==> 0 < m)
    ensures used == (if HasValue(fs[0].opt) then 1 else 0) && left + used == m && left < |Values(fs[1..])|
    ensures Fronts(fs[0], Values(fs)[..m]) && Values(fs)[..m][used..] == Values(fs[1..])[..left]
  {
    if HasValue(fs[0].opt) {
      used, left := 1, m - 1;
      FewerValues(fs[0].v, Values(fs[1..]), m);
    } else {
      used, left := 0, m;
      assert Values(fs) == Values(fs[1..]);
    }
  }

  /** "c" with a number takes so many bytes of its string, all of them for 0, and refuses a shorter one. */
  lemma CountedText(digits: string, s: seq<byte>, h: Header, pos: nat)
    requires AllDigits(digits) && digits != "" && Value(digits) < 0x8000_0000 && h.align > 0
    ensures Pack(['c'] + digits, [Text(s)], h, pos) ==
      if |s| < Value(digits) then NotPacked(StringTooShort) else Packed(if Value(digits) == 0 then s else s[..Value(digits)])
  {
    var fmt, k := ['c'] + digits, Value(digits);
    assert fmt[1..] == digits && digits + "" == digits;
    NumeralIs(digits, "", 1);
    var bytes := s[..if k == 0 then |s| else if |s| < k then 0 else k];
    if k <= |s| {
      assert bytes + [] == bytes && Zeros(0) + bytes == bytes;
      PacksOn(fmt, [Text(s)], h, pos, bytes, 1, "", h, pos + |bytes|, [], [], bytes);
    }
  }

  /** What unpacking says when the bytes of a field are not all there. */
  function Lacking(opt: char): Error {
    if opt == 's' then Unfinished else DataTooShort
  }

  lemma NoNulYet(s: seq<byte>, data: seq<byte>, at: nat)
    requires CString(s) && at <= |data| && |data| - at <= |s| && data[at..] == s[..|data| - at]
    ensures at + NulAt(data[at..]) == |data|
  {
    assert forall i | 0 <= i < |data[at..]| :: data[at..][i] == s[i];
  }

  lemma StopsReading(fs: seq<Field>, f: Field, data: seq<byte>, h: Header, pos: nat, at: nat, acc: seq<Val>)
    requires fs != [] && f == fs[0] && AllSuit(fs) && h.align > 0 && at == pos + Gap(f, h, pos) && pos <= |data|
    requires |data| < at + |FieldBytes(f, h.big)|
    requires f.opt == 's' ==> data[pos..] == f.v.s[..|data| - pos]
    ensures !Ends(Format(fs)) && UnpackOption(Format(fs), data, h, pos, acc) == UnpackStop(Lacking(f.opt))
  {
    FormatSplits(fs);
    RestIsNoDigit(fs[1..]);
    var behind := OptionIs(f, Format(fs[1..]), h);
    if f.opt == 's' {
      NoNulYet(f.v.s, data, at);
      TextStops(Format(fs), behind, data, h, pos, acc);
    } else {
      FieldLength(f, h.big);
      DataStops(Format(fs), f.opt, behind, data, h, pos, acc, Width(f.opt, f.digits));
    }
  }

  lemma TextStops(fmt: string, behind: string, data: seq<byte>, h: Header, pos: nat, acc: seq<Val>)
    requires !Ends(fmt) && fmt[0] == 's' && OptSize('s', fmt[1..]) == Sized(0, behind) && h.align > 0
    requires pos <= |data| && pos + NulAt(data[pos..]) == |data|
    ensures UnpackOption(fmt, data, h, pos, acc) == UnpackStop(Unfinished)
  {
  }

  lemma DataStops(fmt: string, opt: char, behind: string, data: seq<byte>, h: Header, pos: nat, acc: seq<Val>, k: nat)
    requires !Ends(fmt) && fmt[0] == opt && OptSize(opt, fmt[1..]) == Sized(k, behind) && h.align > 0
    requires |data| < pos + ToAlign(pos, h, opt, k) + k
    ensures UnpackOption(fmt, data, h, pos, acc) == UnpackStop(DataTooShort)
  {
  }

  lemma UnpackStops(fmt: string, data: seq<byte>, h: Header, pos: nat, acc: seq<Val>, error: Error)
    requires h.align > 0 && !Ends(fmt) && UnpackOption(fmt, data, h, pos, acc) == UnpackStop(error)
    ensures Unpack(fmt, data, h, pos, acc) == NotUnpacked(error)
  {
  }

  /** The front of the data holds the first field whole, and less of the others than they take. */
  lemma WholeField(data: seq<byte>, pos: nat, zeros: seq<byte>, bytes: seq<byte>, more: seq<byte>, n: nat)
    requires pos <= |data| && |zeros + bytes| <= n <= |zeros + bytes + more| && data[pos..] == (zeros + bytes + more)[..n]
    ensures var at, pos2, left := pos + |zeros|, pos + |zeros + bytes|, n - |zeros + bytes|;
            pos2 <= |data| && data[at..] == bytes + more[..left] && data[pos2..] == more[..left]
  {
    var left := n - |zeros + bytes|;
    assert (zeros + bytes + more)[..n] == zeros + bytes + more[..left];
    assert zeros + bytes + more[..left] == (zeros + bytes + more[..left]) + [];
    SkipPadding(data, pos, zeros, bytes, more[..left], []);
    assert more[..left] + [] == more[..left];
  }

  lemma CutText(f: Field, h: Header, pos: nat, bytes: seq<byte>, more: seq<byte>, data: seq<byte>, n: nat)
    requires Written(f) && Suits(f) && f.opt == 's' && h.align > 0 && bytes == Zeros(Gap(f, h, pos)) + FieldBytes(f, h.big)
    requires pos <= |data| && n < |bytes| && data[pos..] == (bytes + more)[..n]
    ensures data[pos..] == f.v.s[..|data| - pos]
  {
    assert bytes == f.v.s + [0];
    assert n == |data| - pos <= |f.v.s|;
  }

  /** With any number of bytes fewer there is no unpacking. */
  lemma {:induction false} MissingBytes(fs: seq<Field>, h: Header, data: seq<byte>, pos: nat, n: nat, acc: seq<Val>)
    returns (error: Error)
    requires AllSuit(fs) && AllFit(fs) && h.align > 0 && pos <= |data|
    requires n < |Plain(fs, h, pos)| && data[pos..] == Plain(fs, h, pos)[..n]
    ensures error in [DataTooShort, Unfinished] && Unpack(Format(fs), data, h, pos, acc) == NotUnpacked(error)
    decreases |fs|
  {
    var bytes, h2, pos2, more := PlainUnfold(fs, h, pos);
    if |bytes| <= n {
      var acc2, at, left, back := CutBehind(fs, h, data, pos, n, bytes, more, acc);
      error := MissingBytes(fs[1..], h2, data, pos2, left, acc2);
      FieldReads(fs, fs[0], fs[1..], data, pos, at, back, acc, h, acc2, pos2, NotUnpacked(error));
    } else {
      error := Lacking(fs[0].opt);
      CutInside(fs, fs[0], h, data, pos, n, bytes, more, acc);
    }
  }

  lemma CutBehind(fs: seq<Field>, h: Header, data: seq<byte>, pos: nat, n: nat, bytes: seq<byte>, more: seq<byte>, acc: seq<Val>)
    returns (acc2: seq<Val>, at: nat, left: nat, back: seq<byte>)
    requires fs != [] && AllSuit(fs) && h.align > 0 && bytes == Zeros(Gap(fs[0], h, pos)) + FieldBytes(fs[0], h.big)
    requires pos <= |data| && |bytes| <= n <= |bytes + more| && data[pos..] == (bytes + more)[..n]
    ensures acc2 == (if HasValue(fs[0].opt) then acc + [fs[0].v] else acc) && at == pos + Gap(fs[0], h, pos) && at <= |data|
    ensures left + |bytes| == n && left <= |more| && data[at..] == FieldBytes(fs[0], h.big) + back
    ensures pos + |bytes| == at + |FieldBytes(fs[0], h.big)| <= |data| && data[pos + |bytes|..] == more[..left]
  {
    acc2 := if HasValue(fs[0].opt) then acc + [fs[0].v] else acc;
    at := pos + Gap(fs[0], h, pos);
    left := n - |bytes|;
    back := more[..left];
    WholeField(data, pos, Zeros(Gap(fs[0], h, pos)), FieldBytes(fs[0], h.big), more, n);
  }

  lemma CutInside(fs: seq<Field>, f: Field, h: Header, data: seq<byte>, pos: nat, n: nat, bytes: seq<byte>, more: seq<byte>,
                  acc: seq<Val>)
    requires fs != [] && f == fs[0] && AllSuit(fs) && h.align > 0 && bytes == Zeros(Gap(f, h, pos)) + FieldBytes(f, h.big)
    requires pos <= |data| && n < |bytes| && data[pos..] == (bytes + more)[..n]
    ensures Unpack(Format(fs), data, h, pos, acc) == NotUnpacked(Lacking(f.opt))
  {
    if f.opt == 's' {
      CutText(f, h, pos, bytes, more, data, n);
    }
    assert |data| == pos + n;
    StopsReading(fs, f, data, h, pos, pos + Gap(f, h, pos), acc);
    UnpackStops(Format(fs), data, h, pos, acc, Lacking(f.opt));
  }

  // ----- what is turned down -----

  /** A "c0" with no result before it has no length. */
  lemma NoLengthYet(data: seq<byte>, h: Header, digits: string)
    requires h.align > 0 && digits == "0"
    ensures Unpack(['c'] + digits, data, h, 0, []) == NotUnpacked(NoPreviousSize)
  {
    var fmt := ['c'] + digits;
    assert digits[..0] == "" && Value(digits) == 0 && fmt[1..] == digits && digits + "" == digits;
    NumeralIs(digits, "", 1);
    assert UnpackOption(fmt, data, h, 0, []) == UnpackStop(NoPreviousSize);
  }

  /** Only a power of two is taken as an alignment. */
  lemma OnlyPowers(digits: string, rest: string, h: Header)
    requires AllDigits(digits) && digits != "" && (rest == "" || !IsDigit(rest[0])) && h.align > 0
    requires Value(digits) < 0x8000_0000
    ensures Controlled('!', digits + rest, h) ==
      if exists k: nat :: Value(digits) == Pow(2, k) then Control(rest, Header(h.big, Value(digits))) else NoControl(BadAlignment)
  {
    NumeralIs(digits, rest, 8);
    Pow2Exactly(Value(digits));
  }

  /** Whatever is neither an option nor a switch. */
  lemma OtherLetters(opt: char, rest: string, h: Header)
    requires opt !in "bBhHlLTiIfdxcs><! " && h.align > 0
    ensures After(opt, rest, h) == NoControl(BadOption)
  {
    var letters := "bBhHlLTiIfdxcs><! ";
    assert letters[0] == 'b' && letters[1] == 'B' && letters[2] == 'h' && letters[3] == 'H' && letters[4] == 'l';
    assert letters[5] == 'L' && letters[6] == 'T' && letters[7] == 'i' && letters[8] == 'I' && letters[9] == 'f';
    assert letters[10] == 'd' && letters[11] == 'x' && letters[12] == 'c' && letters[13] == 's' && letters[14] == '>';
    assert letters[15] == '<' && letters[16] == '!' && letters[17] == ' ';
  }

  // ----- limits -----

  /** A number in a format goes up to 2^31 - 1, an integer has up to 32 bytes, and '!' takes a power of two. */
  lemma NumberLimits(digits: string, rest: string, opt: char)
    requires AllDigits(digits) && digits != "" && (rest == "" || !IsDigit(rest[0])) && (opt == 'i' || opt == 'I')
    ensures OptSize('c', digits + rest) == if Value(digits) < 0x8000_0000 then Sized(Value(digits), rest) else NoSize(SizeOverflow)
    ensures OptSize(opt, digits + rest) ==
      if Value(digits) <= 32 then Sized(Value(digits), rest)
      else NoSize(if Value(digits) < 0x8000_0000 then SizeTooLarge else SizeOverflow)
  {
    RunIs(digits, rest);
    assert (digits + rest)[..|digits|] == digits && (digits + rest)[|digits|..] == rest;
  }
}
