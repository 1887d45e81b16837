/** The three readings of a struct format agree (src/lua_struct.c:208-385). */
module StructLaws {
  import opened Bytes
  import opened StructFormat
  import opened StructCodec

  // ----- unpack undoes pack -----

  lemma Rejoin(done: seq<byte>, bytes: seq<byte>, rest: seq<byte>, tail: seq<byte>)
    ensures done + (bytes + rest) + tail == done + bytes + (rest + tail)
    ensures done + (bytes + rest) + tail == (done + bytes) + rest + tail
  {
  }

  /** What packing leaves to do after its first turn. */
  lemma PackUnfold(fmt: string, args: seq<Val>, h: Header, pos: nat, bs: seq<byte>)
    returns (t: PackTurn, rest: string, left: seq<Val>, h2: Header, pos2: nat, more: seq<byte>)
    requires h.align > 0 && !Ends(fmt) && Pack(fmt, args, h, pos) == Packed(bs)
    ensures t == PackOption(fmt, args, h, pos) && t.PackTurn? && t.used <= |args|
    ensures rest == t.rest && left == args[t.used..] && h2 == t.h && pos2 == pos + |t.bytes|
    ensures h2.align > 0 && |rest| < |fmt| && Pack(rest, left, h2, pos2) == Packed(more) && bs == t.bytes + more
  {
    t := PackOption(fmt, args, h, pos);
    rest, left, h2, pos2 := t.rest, args[t.used..], t.h, pos + |t.bytes|;
    more := Pack(rest, left, h2, pos2).bytes;
  }

  lemma ReversibleUnfold(fmt: string, args: seq<Val>, h: Header, given: seq<Val>, read: seq<Val>)
    returns (rest: string, left: seq<Val>, h2: Header, given2: seq<Val>, read2: seq<Val>)
    requires h.align > 0 && !Ends(fmt) && Reversible(fmt, args, h, given, read)
    ensures FirstReads(fmt, args, read) && read2 == FirstRead(fmt, args, h, read)
    ensures Next(fmt, h) == Control(rest, h2) && Used(fmt[0]) <= |args| && left == args[Used(fmt[0])..] && h2.align > 0
    ensures Reversible(rest, left, h2, given2, read2)
    ensures Returned(fmt, args, h, given) == Returned(rest, left, h2, given2)
  {
    rest, left, h2 := Next(fmt, h).rest, args[Used(fmt[0])..], Next(fmt, h).h;
    given2, read2 := FirstGiven(fmt, args, given), FirstRead(fmt, args, h, read);
  }

  lemma UnpackUnfold(fmt: string, data: seq<byte>, h: Header, pos: nat, acc: seq<Val>,
                     given: seq<Val>, pos2: nat, rest: string, h2: Header)
    requires h.align > 0 && !Ends(fmt) && UnpackOption(fmt, data, h, pos, acc) == UnpackTurn(given, pos2, rest, h2)
    ensures h2.align > 0 && Unpack(fmt, data, h, pos, acc) == Unpack(rest, data, h2, pos2, given)
  {
  }

  /** What the round trip leaves to do after the first turn. */
  lemma RoundTripTurn(fmt: string, args: seq<Val>, h: Header, done: seq<byte>, pos: nat, bs: seq<byte>, tail: seq<byte>,
                      given: seq<Val>, read: seq<Val>, data: seq<byte>)
    returns (rest: string, left: seq<Val>, h2: Header, done2: seq<byte>, pos2: nat, more: seq<byte>,
             given2: seq<Val>, read2: seq<Val>)
    requires h.align > 0 && !Ends(fmt) && pos == |done| && Pack(fmt, args, h, pos) == Packed(bs)
    requires Reversible(fmt, args, h, given, read) && data == done + bs + tail
    ensures h2.align > 0 && |rest| < |fmt| && pos2 == |done2| && Pack(rest, left, h2, pos2) == Packed(more)
    ensures Reversible(rest, left, h2, given2, read2) && data == done2 + more + tail && pos2 + |more| == pos + |bs|
    ensures Returned(fmt, args, h, given) == Returned(rest, left, h2, given2)
    ensures Unpack(fmt, data, h, pos, read) == Unpack(rest, data, h2, pos2, read2)
  {
    var t;
    t, rest, left, h2, pos2, more := PackUnfold(fmt, args, h, pos, bs);
    var rest1, left1, h1, given1, read1 := ReversibleUnfold(fmt, args, h, given, read);
    given2, read2 := given1, read1;
    done2 := done + t.bytes;
    Rejoin(done, t.bytes, more, tail);
    TurnReadsBack(fmt, args, h, read, done, t, more + tail);
    UnpackUnfold(fmt, data, h, pos, read, read2, pos2, rest, h2);
  }

  /** Unpacking from where packing began gives the arguments back and stops where packing stopped. */
  lemma {:induction false} RoundTripFrom(fmt: string, args: seq<Val>, h: Header, done: seq<byte>, pos: nat, bs: seq<byte>,
                                         tail: seq<byte>, given: seq<Val>, read: seq<Val>, data: seq<byte>)
    requires h.align > 0 && pos == |done| && Pack(fmt, args, h, pos) == Packed(bs) && Reversible(fmt, args, h, given, read)
    requires data == done + bs + tail
    ensures Unpack(fmt, data, h, pos, read) == Unpacked(Returned(fmt, args, h, given), pos + |bs|)
    decreases |fmt|
  {
    if !Ends(fmt) {
      var rest, left, h2, done2, pos2, more, given2, read2 :=
        RoundTripTurn(fmt, args, h, done, pos, bs, tail, given, read, data);
      RoundTripFrom(rest, left, h2, done2, pos2, more, tail, given2, read2, data);
    }
  }

  lemma NothingBefore(bs: seq<byte>, tail: seq<byte>)
    ensures bs + tail == [] + bs + tail
  {
  }

  predicate HasC0(fmt: string, h: Header)
    requires h.align > 0
    decreases |fmt|
  {
    !Ends(fmt) && (StartsC0(fmt) || (Next(fmt, h).Control? && HasC0(Next(fmt, h).rest, Next(fmt, h).h)))
  }

  /** How many arguments a format takes. */
  function Arity(fmt: string, h: Header): nat
    requires h.align > 0
    decreases |fmt|
  {
    if Ends(fmt) || Next(fmt, h).NoControl? then 0
    else Used(fmt[0]) + Arity(Next(fmt, h).rest, Next(fmt, h).h)
  }

  /** Without "c0" the results are all the arguments that were packed. */
  lemma {:induction false} AllReturned(fmt: string, args: seq<Val>, h: Header, pos: nat, bs: seq<byte>, acc: seq<Val>)
    requires h.align > 0 && Pack(fmt, args, h, pos) == Packed(bs) && !HasC0(fmt, h)
    ensures Arity(fmt, h) <= |args|
    ensures Returned(fmt, args, h, acc) == acc + args[..Arity(fmt, h)]
    decreases |fmt|
  {
    if !Ends(fmt) {
      var t, rest, left, h2, pos2, more := PackUnfold(fmt, args, h, pos, bs);
      TurnUses(fmt, args, h, pos, t);
      var k := Used(fmt[0]);
      AllReturned(rest, left, h2, pos2, more, FirstGiven(fmt, args, acc));
      GivenIsNext(fmt, args, acc);
      Regroup(args, acc, k, Arity(rest, h2));
    }
  }

  lemma TurnUses(fmt: string, args: seq<Val>, h: Header, pos: nat, t: PackTurn)
    requires h.align > 0 && !Ends(fmt) && t == PackOption(fmt, args, h, pos) && t.PackTurn?
    ensures t.used == Used(fmt[0]) <= |args| && Next(fmt, h) == Control(t.rest, t.h) && OptSize(fmt[0], fmt[1..]).Sized?
  {
  }

  lemma GivenIsNext(fmt: string, args: seq<Val>, acc: seq<Val>)
    requires !Ends(fmt) && OptSize(fmt[0], fmt[1..]).Sized? && Used(fmt[0]) <= |args| && !StartsC0(fmt)
    ensures FirstGiven(fmt, args, acc) == acc + args[..Used(fmt[0])]
  {
  }

  lemma Regroup(args: seq<Val>, acc: seq<Val>, k: nat, n: nat)
    requires k + n <= |args|
    ensures (acc + args[..k]) + args[k..][..n] == acc + args[..k + n]
  {
  }

  lemma C0Packs(s: seq<byte>)
    ensures Pack("c0", [Text(s)], Start, 1) == Packed(s)
  {
    assert "c0"[1..] == "0";
    ZeroWritten();
    assert s[..|s|] + [] == s;
    assert [Text(s)][1..] == [] && Zeros(0) + s == s;
    assert PackOption("c0", [Text(s)], Start, 1) == PackTurn(s, 1, "", Start);
    PackFold("c0", [Text(s)], Start, 1, s, 1, "", Start, 1 + |s|, []);
    assert Pack("", [], Start, 1 + |s|) == Packed([]);
  }

  lemma C0Reads(s: seq<byte>)
    requires |s| < 256
    ensures Reversible("c0", [Text(s)], Start, [Num(|s|)], [Num(|s|)])
    ensures Returned("c0", [Text(s)], Start, [Num(|s|)]) == [Text(s)]
  {
    assert "c0"[1..] == "0";
    ZeroWritten();
    var acc := [Num(|s|)];
    assert FirstGiven("c0", [Text(s)], acc) == [Text(s)] by {
      assert acc[..0] + [Text(s)] == [Text(s)];
    }
    assert Next("c0", Start) == Control("", Start);
    assert FirstRead("c0", [Text(s)], Start, acc) == [Text(s)];
    assert Reversible("", [Text(s)][1..], Start, [Text(s)], [Text(s)]);
    assert Returned("", [Text(s)][1..], Start, [Text(s)]) == [Text(s)];
  }

  /** "c0" takes its length from the number before it, which it replaces. */
  lemma LengthPrefixed(s: seq<byte>)
    requires |s| < 256
    ensures Pack("Bc0", [Num(|s|), Text(s)], Start, 0) == Packed([|s|] + s)
    ensures Reversible("Bc0", [Num(|s|), Text(s)], Start, [], [])
    ensures Returned("Bc0", [Num(|s|), Text(s)], Start, []) == [Text(s)]
  {
    var args := [Num(|s|), Text(s)];
    LengthPacks(s, args);
    LengthReverses(s, args);
    LengthReturns(s, args);
  }

  lemma LengthPacks(s: seq<byte>, args: seq<Val>)
    requires |s| < 256 && args == [Num(|s|), Text(s)]
    ensures Pack("Bc0", args, Start, 0) == Packed([|s|] + s)
  {
    assert args[1..] == [Text(s)];
    LengthWritten(s, args);
    C0Packs(s);
    PackFold("Bc0", args, Start, 0, [|s|], 1, "c0", Start, 1, [Text(s)]);
  }

  lemma LengthReverses(s: seq<byte>, args: seq<Val>)
    requires |s| < 256 && args == [Num(|s|), Text(s)]
    ensures Reversible("Bc0", args, Start, [], [])
  {
    assert "Bc0"[1..] == "c0" && args[1..] == [Text(s)];
    LengthRead(s, args);
    C0Reads(s);
    assert Next("Bc0", Start) == Control("c0", Start);
  }

  lemma LengthReturns(s: seq<byte>, args: seq<Val>)
    requires |s| < 256 && args == [Num(|s|), Text(s)]
    ensures Returned("Bc0", args, Start, []) == [Text(s)]
  {
    assert "Bc0"[1..] == "c0" && args[1..] == [Text(s)];
    LengthRead(s, args);
    C0Reads(s);
    assert Next("Bc0", Start) == Control("c0", Start);
  }

  lemma LengthWritten(s: seq<byte>, args: seq<Val>)
    requires |s| < 256 && args == [Num(|s|), Text(s)]
    ensures PackOption("Bc0", args, Start, 0) == PackTurn([|s|], 1, "c0", Start)
  {
    BytePacked(|s|);
    assert "Bc0"[1..] == "c0";
    assert Zeros(0) + [|s|] == [|s|];
  }

  lemma LengthRead(s: seq<byte>, args: seq<Val>)
    requires |s| < 256 && args == [Num(|s|), Text(s)]
    ensures FirstGiven("Bc0", args, []) == FirstRead("Bc0", args, Start, []) == [Num(|s|)]
  {
    BytePacked(|s|);
    IntReads(|s|, 1, false, false);
  }

  lemma ZeroWritten()
    ensures GetNum("0", 1) == Sized(0, "")
  {
    assert Run("0"[1..]) == 0;
    assert "0"[..1] == "0" && "0"[..0] == [] && "0"[1..] == "";
  }

  lemma BytePacked(n: nat)
    requires n < 256
    ensures IntBytes(n, 1, false) == [n] && InRange(n, 1, false)
  {
    assert BigEndian(n, 1) == [n];
    FieldSizes();
  }

  // ----- size and pack -----

  /** A format with "s" or "c0" in it has no fixed size. */
  predicate Variable(fmt: string, h: Header)
    requires h.align > 0
    decreases |fmt|
  {
    !Ends(fmt) &&
    (Sizeless(fmt) || (Next(fmt, h).Control? && Variable(Next(fmt, h).rest, Next(fmt, h).h)))
  }

  lemma PieceSize(opt: char, size: nat, args: seq<Val>, big: bool, p: Piece)
    requires p == PackOne(opt, size, args, big) && p.Piece? && opt != 's' && !(opt == 'c' && size == 0)
    requires (!IsData(opt) ==> size == 0) && (opt == 'x' ==> size == 1)
    ensures |p.bytes| == size
  {
  }

  lemma ControlOnly(opt: char, rest: string, h: Header)
    requires h.align > 0 && After(opt, rest, h).Control?
    ensures After(opt, rest, h) == if IsAlnum(opt) then Control(rest, h) else Controlled(opt, rest, h)
  {
  }

  predicate Sizeless(fmt: string)
    requires !Ends(fmt)
  {
    fmt[0] == 's' || StartsC0(fmt)
  }

  /** A turn of sizing advances as far as a turn of packing. */
  lemma SizeOfTurn(fmt: string, args: seq<Val>, h: Header, pos: nat, t: PackTurn)
    requires h.align > 0 && !Ends(fmt) && t == PackOption(fmt, args, h, pos) && t.PackTurn?
    ensures Next(fmt, h) == Control(t.rest, t.h)
    ensures SizeOption(fmt, h, pos) ==
      if Sizeless(fmt) then SizeStop(NoFixedSize) else SizeTurn(pos + |t.bytes|, t.rest, t.h)
  {
    var opt, z := fmt[0], OptSize(fmt[0], fmt[1..]);
    OptSizes(opt, fmt[1..], z);
    ControlOnly(opt, z.rest, h);
    if !Sizeless(fmt) {
      PieceSize(opt, z.size, args, h.big, PackOne(opt, z.size, args, h.big));
    }
  }

  lemma SizeUnfold(fmt: string, h: Header, pos: nat, rest: string, h2: Header, pos2: nat)
    requires h.align > 0 && !Ends(fmt) && Next(fmt, h) == Control(rest, h2)
    requires SizeOption(fmt, h, pos) == if Sizeless(fmt) then SizeStop(NoFixedSize) else SizeTurn(pos2, rest, h2)
    ensures h2.align > 0
    ensures Sizeless(fmt) ==> Variable(fmt, h) && SizeOf(fmt, h, pos) == SizeError(NoFixedSize)
    ensures !Sizeless(fmt) ==> Variable(fmt, h) == Variable(rest, h2) && SizeOf(fmt, h, pos) == SizeOf(rest, h2, pos2)
  {
  }

  /** Whenever a format packs, its size is the packed length, unless the format has "s" or "c0". */
  lemma {:induction false} SizeIsLength(fmt: string, args: seq<Val>, h: Header, pos: nat, bs: seq<byte>)
    requires h.align > 0 && Pack(fmt, args, h, pos) == Packed(bs)
    ensures SizeOf(fmt, h, pos) == if Variable(fmt, h) then SizeError(NoFixedSize) else Size(pos + |bs|)
    decreases |fmt|
  {
    if !Ends(fmt) {
      var t, rest, left, h2, pos2, more := PackUnfold(fmt, args, h, pos, bs);
      SizeOfTurn(fmt, args, h, pos, t);
      SizeUnfold(fmt, h, pos, rest, h2, pos2);
      SizeIsLength(rest, left, h2, pos2, more);
    }
  }

  /** Every letter or digit in an option's place is an option. */
  predicate Known(fmt: string, h: Header)
    requires h.align > 0
    decreases |fmt|
  {
    !Ends(fmt) ==>
      (IsAlnum(fmt[0]) ==> IsData(fmt[0])) &&
      (Next(fmt, h).Control? ==> Known(Next(fmt, h).rest, Next(fmt, h).h))
  }

  function SampleOf(opt: char, size: nat): seq<Val> {
    if IsInt(opt) then [Num(0)]
    else if IsImage(opt) then [Image(Zeros(size))]
    else if opt == 'c' then [Text(Zeros(size))]
    else []
  }

  /** Arguments that a format of fixed size packs. */
  function Sample(fmt: string, h: Header): seq<Val>
    requires h.align > 0
    decreases |fmt|
  {
    if Ends(fmt) then []
    else FirstSample(fmt) + if Next(fmt, h).NoControl? then [] else Sample(Next(fmt, h).rest, Next(fmt, h).h)
  }

  function FirstSample(fmt: string): seq<Val>
    requires !Ends(fmt)
  {
    var z := OptSize(fmt[0], fmt[1..]);
    if z.NoSize? then [] else SampleOf(fmt[0], z.size)
  }

  lemma SampleStep(opt: char, size: nat, more: seq<Val>, big: bool) returns (p: Piece)
    requires opt != 's' && !(opt == 'c' && size == 0) && (!IsData(opt) ==> size == 0) && (opt == 'x' ==> size == 1)
    ensures p == PackOne(opt, size, SampleOf(opt, size) + more, big)
    ensures p.Piece? && |p.bytes| == size && (SampleOf(opt, size) + more)[p.used..] == more
  {
    p := PackOne(opt, size, SampleOf(opt, size) + more, big);
  }

  /** A turn of packing with the sample argument goes as far as a turn of sizing. */
  lemma SampleTurn(fmt: string, h: Header, pos: nat, t: SizeTurn, args: seq<Val>, more: seq<Val>)
    requires h.align > 0 && !Ends(fmt) && t == SizeOption(fmt, h, pos) && t.SizeTurn? && (IsAlnum(fmt[0]) ==> IsData(fmt[0]))
    requires args == FirstSample(fmt) + more
    ensures Next(fmt, h) == Control(t.rest, t.h)
    ensures var p := PackOption(fmt, args, h, pos);
      p.PackTurn? && p.rest == t.rest && p.h == t.h && pos + |p.bytes| == t.pos && args[p.used..] == more
  {
    var opt, z := fmt[0], OptSize(fmt[0], fmt[1..]);
    OptSizes(opt, fmt[1..], z);
    var p := SampleStep(opt, z.size, more, h.big);
  }

  lemma SampleUnfold(fmt: string, h: Header, pos: nat)
    returns (rest: string, h2: Header, pos2: nat, more: seq<Val>, bytes: seq<byte>, used: nat)
    requires h.align > 0 && !Ends(fmt) && SizeOf(fmt, h, pos).Size? && Known(fmt, h)
    ensures h2.align > 0 && |rest| < |fmt| && SizeOf(rest, h2, pos2).Size? && Known(rest, h2) && more == Sample(rest, h2)
    ensures PackOption(fmt, Sample(fmt, h), h, pos) == PackTurn(bytes, used, rest, h2) && pos2 == pos + |bytes|
    ensures used <= |Sample(fmt, h)| && Sample(fmt, h)[used..] == more
  {
    var t, c := SizeOption(fmt, h, pos), Next(fmt, h);
    more := if c.NoControl? then [] else Sample(c.rest, c.h);
    SampleTurn(fmt, h, pos, t, Sample(fmt, h), more);
    var p := PackOption(fmt, Sample(fmt, h), h, pos);
    rest, h2, pos2, bytes, used := t.rest, t.h, t.pos, p.bytes, p.used;
  }

  lemma PackFold(fmt: string, args: seq<Val>, h: Header, pos: nat, bytes: seq<byte>, used: nat, rest: string, h2: Header,
                 pos2: nat, left: seq<Val>)
    requires h.align > 0 && !Ends(fmt) && PackOption(fmt, args, h, pos) == PackTurn(bytes, used, rest, h2)
    requires used <= |args| && left == args[used..] && pos2 == pos + |bytes| && h2.align > 0
    ensures Pack(fmt, args, h, pos) == Before(bytes, Pack(rest, left, h2, pos2))
  {
  }

  lemma {:induction false} SamplePacks(fmt: string, h: Header, pos: nat)
    requires h.align > 0 && SizeOf(fmt, h, pos).Size? && Known(fmt, h)
    ensures Pack(fmt, Sample(fmt, h), h, pos).Packed?
    decreases |fmt|
  {
    if !Ends(fmt) {
      var rest, h2, pos2, more, bytes, used := SampleUnfold(fmt, h, pos);
      SamplePacks(rest, h2, pos2);
      PackFold(fmt, Sample(fmt, h), h, pos, bytes, used, rest, h2, pos2, more);
    }
  }

  lemma TurnIsKnown(fmt: string, args: seq<Val>, h: Header, pos: nat, t: PackTurn)
    requires h.align > 0 && !Ends(fmt) && t == PackOption(fmt, args, h, pos) && t.PackTurn?
    ensures (IsAlnum(fmt[0]) ==> IsData(fmt[0])) && Next(fmt, h) == Control(t.rest, t.h)
  {
  }

  lemma {:induction false} PackedIsKnown(fmt: string, args: seq<Val>, h: Header, pos: nat)
    requires h.align > 0 && Pack(fmt, args, h, pos).Packed?
    ensures Known(fmt, h)
    decreases |fmt|
  {
    if !Ends(fmt) {
      var t, rest, left, h2, pos2, more := PackUnfold(fmt, args, h, pos, Pack(fmt, args, h, pos).bytes);
      TurnIsKnown(fmt, args, h, pos, t);
      PackedIsKnown(rest, left, h2, pos2);
    }
  }

  /** A format that has a size can be packed with some arguments exactly when it has no stray letter or digit. */
  lemma SizedPacksIff(fmt: string, h: Header, pos: nat)
    requires h.align > 0 && SizeOf(fmt, h, pos).Size?
    ensures (exists args :: Pack(fmt, args, h, pos).Packed?) <==> Known(fmt, h)
  {
    if Known(fmt, h) {
      SamplePacks(fmt, h, pos);
    }
    if args :| Pack(fmt, args, h, pos).Packed? {
      PackedIsKnown(fmt, args, h, pos);
    }
  }

  /** struct.size("z") is 0, and nothing can be packed with it. */
  lemma StrayLetter(args: seq<Val>)
    ensures SizeOf("z", Start, 0) == Size(0)
    ensures Pack("z", args, Start, 0) == NotPacked(BadOption)
  {
    assert "z"[1..] == "";
    assert SizeOf("", Start, 0) == Size(0);
  }
}
