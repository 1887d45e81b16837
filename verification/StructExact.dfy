/** Exactly which arguments unpack gives back (src/lua_struct.c:208-363). */
module StructExact {
  import opened Powers
  import opened Bytes
  import opened StructFormat
  import opened StructCodec
  import opened StructLaws

  // ----- a wrong result stays wrong -----

  /** Result i is not the argument, and no "c0" will take it. */
  predicate Wrong(given: seq<Val>, read: seq<Val>, i: nat) {
    i < |read| == |given| && read[i] != given[i] && (i < |read| - 1 || read[i].Text?)
  }

  lemma OneStays(opt: char, size: nat, data: seq<byte>, at: nat, big: bool, args: seq<Val>, given: seq<Val>, read: seq<Val>,
                 i: nat, t: Taken)
    requires at + size <= |data| && t == UnpackOne(opt, size, data, at, big, read) && t.Taken? && Used(opt) <= |args|
    requires Wrong(given, read, i)
    ensures Wrong(Given(opt, size, args, given), t.acc, i)
  {
  }

  lemma TurnStays(fmt: string, args: seq<Val>, h: Header, data: seq<byte>, pos: nat, given: seq<Val>, read: seq<Val>, i: nat,
                  u: UnpackTurn)
    requires h.align > 0 && !Ends(fmt) && u == UnpackOption(fmt, data, h, pos, read) && u.UnpackTurn?
    requires Used(fmt[0]) <= |args| && Wrong(given, read, i)
    ensures Wrong(FirstGiven(fmt, args, given), u.acc, i)
  {
    var z := OptSize(fmt[0], fmt[1..]);
    var at := pos + ToAlign(pos, h, fmt[0], z.size);
    OneStays(fmt[0], z.size, data, at, h.big, args, given, read, i, UnpackOne(fmt[0], z.size, data, at, h.big, read));
  }

  lemma UnpackGoesOn(fmt: string, data: seq<byte>, h: Header, pos: nat, acc: seq<Val>) returns (u: UnpackTurn)
    requires h.align > 0 && !Ends(fmt) && Unpack(fmt, data, h, pos, acc).Unpacked?
    ensures u == UnpackOption(fmt, data, h, pos, acc) && u.UnpackTurn? && Next(fmt, h) == Control(u.rest, u.h) && u.h.align > 0
    ensures Unpack(fmt, data, h, pos, acc) == Unpack(u.rest, data, u.h, u.pos, u.acc)
  {
    u := UnpackOption(fmt, data, h, pos, acc);
  }

  lemma ReturnedNext(fmt: string, args: seq<Val>, h: Header, acc: seq<Val>, rest: string, left: seq<Val>, h2: Header)
    requires h.align > 0 && !Ends(fmt) && Used(fmt[0]) <= |args| && Next(fmt, h) == Control(rest, h2)
    requires left == args[Used(fmt[0])..]
    ensures h2.align > 0 && Returned(fmt, args, h, acc) == Returned(rest, left, h2, FirstGiven(fmt, args, acc))
  {
  }

  /** Wherever the rest of the data is read from, the wrong result is among the final ones. */
  lemma {:induction false} Differs(fmt: string, args: seq<Val>, h: Header, packPos: nat, bs: seq<byte>, data: seq<byte>, pos: nat,
                                   given: seq<Val>, read: seq<Val>, i: nat)
    requires h.align > 0 && Pack(fmt, args, h, packPos) == Packed(bs) && Wrong(given, read, i)
    requires Unpack(fmt, data, h, pos, read).Unpacked?
    ensures Unpack(fmt, data, h, pos, read).vals != Returned(fmt, args, h, given)
    decreases |fmt|
  {
    if !Ends(fmt) {
      var t, rest, left, h2, pos2, more := PackUnfold(fmt, args, h, packPos, bs);
      TurnUses(fmt, args, h, packPos, t);
      var u := UnpackGoesOn(fmt, data, h, pos, read);
      TurnStays(fmt, args, h, data, pos, given, read, i, u);
      ReturnedNext(fmt, args, h, given, rest, left, h2);
      Differs(rest, left, h2, pos2, more, data, u.pos, FirstGiven(fmt, args, given), u.acc, i);
    }
  }

  // ----- an option that does not read what it wrote -----

  lemma NulBefore(s: seq<byte>, tail: seq<byte>, j: nat)
    requires j < |s| && s[j] == 0
    ensures NulAt(s + [0] + tail) < |s|
  {
    var t := s + [0] + tail;
    assert t[j] == 0;
  }

  /** It gives a result that is wrong for good. */
  lemma WrongRead(opt: char, size: nat, args: seq<Val>, big: bool, given: seq<Val>, read: seq<Val>, p: Piece,
                  before: seq<byte>, tail: seq<byte>, t: Taken)
    returns (i: nat)
    requires p == PackOne(opt, size, args, big) && p.Piece? && |given| == |read| && (opt == 's' ==> size == 0)
    requires |before| + size <= |before + p.bytes + tail|
    requires t == UnpackOne(opt, size, before + p.bytes + tail, |before|, big, read) && t.Taken?
    requires !Reads(opt, size, args, read)
    ensures Wrong(Given(opt, size, args, given), t.acc, i)
  {
    var data, at := before + p.bytes + tail, |before|;
    PieceAt(before, p.bytes, tail, data);
    if opt == 'c' && size > 0 {
      i := |read|;
    } else if opt == 'c' {
      i := |read| - 1;
    } else {
      i := |read|;
      if opt == 's' {
        var s := args[0].s;
        assert p.bytes == s + [0];
        var j: nat :| j < |s| && s[j] == 0;
        NulBefore(s, tail, j);
      }
    }
  }

  lemma TurnSizes(fmt: string, data: seq<byte>, h: Header, pos: nat, acc: seq<Val>, u: UnpackTurn, size: nat, pad: nat)
    returns (t: Taken)
    requires h.align > 0 && !Ends(fmt) && u == UnpackOption(fmt, data, h, pos, acc) && u.UnpackTurn?
    requires OptSize(fmt[0], fmt[1..]).Sized? && OptSize(fmt[0], fmt[1..]).size == size && pad == ToAlign(pos, h, fmt[0], size)
    ensures pos + pad + size <= |data| && t == UnpackOne(fmt[0], size, data, pos + pad, h.big, acc) && t.Taken? && t.acc == u.acc
  {
    t := UnpackOne(fmt[0], size, data, pos + pad, h.big, acc);
  }

  lemma WrongTurn(fmt: string, args: seq<Val>, h: Header, given: seq<Val>, read: seq<Val>, done: seq<byte>, t: PackTurn,
                  tail: seq<byte>, u: UnpackTurn)
    returns (i: nat)
    requires h.align > 0 && !Ends(fmt) && t == PackOption(fmt, args, h, |done|) && t.PackTurn? && |given| == |read|
    requires u == UnpackOption(fmt, done + t.bytes + tail, h, |done|, read) && u.UnpackTurn? && !FirstReads(fmt, args, read)
    ensures Wrong(FirstGiven(fmt, args, given), u.acc, i)
  {
    var size, rest, pad, p := PackParts(fmt, args, h, |done|, t);
    TurnUses(fmt, args, h, |done|, t);
    OptSizes(fmt[0], fmt[1..], Sized(size, rest));
    var before := done + Zeros(pad);
    PadFirst(done, Zeros(pad), p.bytes, tail);
    var taken := TurnSizes(fmt, done + t.bytes + tail, h, |done|, read, u, size, pad);
    i := WrongRead(fmt[0], size, args, h.big, given, read, p, before, tail, taken);
  }

  // ----- the converse of the round trip -----

  /** All results but perhaps the last are the arguments; that one is a number, which may be another one. */
  predicate AlmostSame(given: seq<Val>, read: seq<Val>) {
    |given| == |read| && (given == read ||
    (read != [] && given[..|given| - 1] == read[..|read| - 1] && read[|read| - 1].Num?))
  }

  lemma StillSame(opt: char, size: nat, args: seq<Val>, big: bool, given: seq<Val>, read: seq<Val>)
    requires AlmostSame(given, read) && Used(opt) <= |args| && (Used(opt) == 1 && !(opt == 'c' && size == 0) ==> given == read)
    requires opt == 'c' && size == 0 ==> read != []
    ensures AlmostSame(Given(opt, size, args, given), Given(opt, size, Held(opt, size, args, big), read))
  {
  }

  lemma TurnSame(fmt: string, args: seq<Val>, h: Header, given: seq<Val>, read: seq<Val>)
    requires !Ends(fmt) && AlmostSame(given, read) && FirstReads(fmt, args, read) && (Adds(fmt) ==> given == read)
    ensures AlmostSame(FirstGiven(fmt, args, given), FirstRead(fmt, args, h, read))
  {
    var z := OptSize(fmt[0], fmt[1..]);
    StillSame(fmt[0], z.size, args, h.big, given, read);
  }

  lemma GivenAdds(fmt: string, args: seq<Val>, given: seq<Val>, after: seq<Val>)
    requires !Ends(fmt) && Used(fmt[0]) <= |args| && Adds(fmt) && OptSize(fmt[0], fmt[1..]).Sized? && after == FirstGiven(fmt, args, given)
    ensures |after| == |given| + 1 && after[..|given|] == given
  {
  }

  lemma TakenAdds(fmt: string, h: Header, read: seq<Val>, data: seq<byte>, pos: nat, u: UnpackTurn)
    requires h.align > 0 && !Ends(fmt) && u == UnpackOption(fmt, data, h, pos, read) && u.UnpackTurn? && Adds(fmt)
    ensures |u.acc| == |read| + 1 && u.acc[..|read|] == read && OptSize(fmt[0], fmt[1..]).Sized?
  {
    var z := OptSize(fmt[0], fmt[1..]);
    var t := TurnSizes(fmt, data, h, pos, read, u, z.size, ToAlign(pos, h, fmt[0], z.size));
  }

  lemma PendingWrong(fmt: string, args: seq<Val>, h: Header, given: seq<Val>, read: seq<Val>, data: seq<byte>, pos: nat, u: UnpackTurn)
    requires h.align > 0 && !Ends(fmt) && u == UnpackOption(fmt, data, h, pos, read) && u.UnpackTurn?
    requires Used(fmt[0]) <= |args| && AlmostSame(given, read) && given != read && Adds(fmt)
    ensures Wrong(FirstGiven(fmt, args, given), u.acc, |read| - 1)
  {
    var n, after := |read| - 1, FirstGiven(fmt, args, given);
    assert given == given[..n] + [given[n]] && read == read[..n] + [read[n]];
    TakenAdds(fmt, h, read, data, pos, u);
    GivenAdds(fmt, args, given, after);
    assert after[n] == after[..|given|][n] && u.acc[n] == u.acc[..|read|][n];
  }

  lemma ReversibleFold(fmt: string, args: seq<Val>, h: Header, given: seq<Val>, read: seq<Val>, rest: string, left: seq<Val>, h2: Header)
    requires h.align > 0 && !Ends(fmt) && (Adds(fmt) ==> given == read) && FirstReads(fmt, args, read)
    requires Used(fmt[0]) <= |args| && Next(fmt, h) == Control(rest, h2) && left == args[Used(fmt[0])..] && h2.align > 0
    requires Reversible(rest, left, h2, FirstGiven(fmt, args, given), FirstRead(fmt, args, h, read))
    ensures Reversible(fmt, args, h, given, read)
  {
  }

  lemma MustSettle(fmt: string, args: seq<Val>, h: Header, given: seq<Val>, read: seq<Val>, data: seq<byte>, pos: nat,
                   u: UnpackTurn, rest: string, left: seq<Val>, h2: Header, pos2: nat, more: seq<byte>)
    requires h.align > 0 && !Ends(fmt) && u == UnpackOption(fmt, data, h, pos, read) && u.UnpackTurn?
    requires Used(fmt[0]) <= |args| && AlmostSame(given, read) && h2.align > 0
    requires Pack(rest, left, h2, pos2) == Packed(more) && u.rest == rest && u.h == h2
    requires Unpack(rest, data, h2, u.pos, u.acc).Unpacked?
    requires Unpack(rest, data, h2, u.pos, u.acc).vals == Returned(rest, left, h2, FirstGiven(fmt, args, given))
    ensures Adds(fmt) ==> given == read
  {
    if Adds(fmt) && given != read {
      PendingWrong(fmt, args, h, given, read, data, pos, u);
      Differs(rest, left, h2, pos2, more, data, u.pos, FirstGiven(fmt, args, given), u.acc, |read| - 1);
      assert false;
    }
  }

  lemma MustRead(fmt: string, args: seq<Val>, h: Header, given: seq<Val>, read: seq<Val>, done: seq<byte>, t: PackTurn,
                 behind: seq<byte>, data: seq<byte>, u: UnpackTurn, rest: string, left: seq<Val>, h2: Header, pos2: nat, more: seq<byte>)
    requires h.align > 0 && !Ends(fmt) && t == PackOption(fmt, args, h, |done|) && t.PackTurn? && |given| == |read|
    requires data == done + t.bytes + behind && u == UnpackOption(fmt, data, h, |done|, read) && u.UnpackTurn?
    requires h2.align > 0 && Pack(rest, left, h2, pos2) == Packed(more) && u.rest == rest && u.h == h2 && Used(fmt[0]) <= |args|
    requires Unpack(rest, data, h2, u.pos, u.acc).Unpacked?
    requires Unpack(rest, data, h2, u.pos, u.acc).vals == Returned(rest, left, h2, FirstGiven(fmt, args, given))
    ensures FirstReads(fmt, args, read)
  {
    if !FirstReads(fmt, args, read) {
      var i := WrongTurn(fmt, args, h, given, read, done, t, behind, u);
      Differs(rest, left, h2, pos2, more, data, u.pos, FirstGiven(fmt, args, given), u.acc, i);
      assert false;
    }
  }

  /** What the converse leaves to show after the first turn. */
  lemma OnlyTurn(fmt: string, args: seq<Val>, h: Header, done: seq<byte>, pos: nat, bs: seq<byte>, tail: seq<byte>,
                 given: seq<Val>, read: seq<Val>, data: seq<byte>)
    returns (rest: string, left: seq<Val>, h2: Header, done2: seq<byte>, pos2: nat, more: seq<byte>,
             given2: seq<Val>, read2: seq<Val>)
    requires h.align > 0 && !Ends(fmt) && pos == |done| && Pack(fmt, args, h, pos) == Packed(bs) && data == done + bs + tail
    requires AlmostSame(given, read) && Unpack(fmt, data, h, pos, read).Unpacked?
    requires Unpack(fmt, data, h, pos, read).vals == Returned(fmt, args, h, given)
    ensures h2.align > 0 && |rest| < |fmt| && pos2 == |done2| && Pack(rest, left, h2, pos2) == Packed(more)
    ensures data == done2 + more + tail && AlmostSame(given2, read2)
    ensures Unpack(rest, data, h2, pos2, read2) == Unpack(fmt, data, h, pos, read)
    ensures Returned(rest, left, h2, given2) == Returned(fmt, args, h, given)
    ensures Reversible(rest, left, h2, given2, read2) ==> Reversible(fmt, args, h, given, read)
  {
    var t, u;
    t, rest, left, h2, done2, pos2, more, given2, u := BothTurns(fmt, args, h, done, pos, bs, tail, given, read, data);
    read2 := RightTurn(fmt, args, h, given, read, done, pos, t, more + tail, data, u, rest, left, h2, pos2, more, given2);
  }

  /** Since the results are right in the end they are right after this turn. */
  lemma RightTurn(fmt: string, args: seq<Val>, h: Header, given: seq<Val>, read: seq<Val>, done: seq<byte>, pos: nat, t: PackTurn,
                  behind: seq<byte>, data: seq<byte>, u: UnpackTurn, rest: string, left: seq<Val>, h2: Header, pos2: nat,
                  more: seq<byte>, given2: seq<Val>)
    returns (read2: seq<Val>)
    requires h.align > 0 && !Ends(fmt) && pos == |done| && t == PackOption(fmt, args, h, pos) && t.PackTurn?
    requires data == done + t.bytes + behind && u == UnpackOption(fmt, data, h, pos, read) && u.UnpackTurn?
    requires h2.align > 0 && Pack(rest, left, h2, pos2) == Packed(more) && u.rest == rest && u.h == h2 && AlmostSame(given, read)
    requires Used(fmt[0]) <= |args| && left == args[Used(fmt[0])..] && Next(fmt, h) == Control(rest, h2)
    requires given2 == FirstGiven(fmt, args, given) && pos2 == pos + |t.bytes| && Unpack(rest, data, h2, u.pos, u.acc).Unpacked?
    requires Unpack(rest, data, h2, u.pos, u.acc).vals == Returned(rest, left, h2, given2)
    ensures AlmostSame(given2, read2) && u.acc == read2 && u.pos == pos2
    ensures Reversible(rest, left, h2, given2, read2) ==> Reversible(fmt, args, h, given, read)
  {
    MustSettle(fmt, args, h, given, read, data, pos, u, rest, left, h2, pos2, more);
    MustRead(fmt, args, h, given, read, done, t, behind, data, u, rest, left, h2, pos2, more);
    var same;
    same, read2 := AfterTurn(fmt, args, h, done, t, behind, given, read, data, u, rest, left, h2);
  }

  /** One turn of packing and the turn of unpacking its bytes. */
  lemma BothTurns(fmt: string, args: seq<Val>, h: Header, done: seq<byte>, pos: nat, bs: seq<byte>, tail: seq<byte>,
                  given: seq<Val>, read: seq<Val>, data: seq<byte>)
    returns (t: PackTurn, rest: string, left: seq<Val>, h2: Header, done2: seq<byte>, pos2: nat, more: seq<byte>,
             given2: seq<Val>, u: UnpackTurn)
    requires h.align > 0 && !Ends(fmt) && pos == |done| && Pack(fmt, args, h, pos) == Packed(bs) && data == done + bs + tail
    requires Unpack(fmt, data, h, pos, read).Unpacked?
    ensures t == PackOption(fmt, args, h, pos) && t.PackTurn? && Used(fmt[0]) <= |args| && left == args[Used(fmt[0])..]
    ensures h2.align > 0 && |rest| < |fmt| && pos2 == pos + |t.bytes| == |done2| && Pack(rest, left, h2, pos2) == Packed(more)
    ensures Next(fmt, h) == Control(rest, h2) && given2 == FirstGiven(fmt, args, given)
    ensures data == done + t.bytes + (more + tail) && data == done2 + more + tail
    ensures u == UnpackOption(fmt, data, h, pos, read) && u.UnpackTurn? && u.rest == rest && u.h == h2
    ensures Unpack(fmt, data, h, pos, read) == Unpack(rest, data, h2, u.pos, u.acc)
    ensures Returned(fmt, args, h, given) == Returned(rest, left, h2, given2)
  {
    t, rest, left, h2, pos2, more := PackUnfold(fmt, args, h, pos, bs);
    TurnUses(fmt, args, h, pos, t);
    Rejoin(done, t.bytes, more, tail);
    u := UnpackGoesOn(fmt, data, h, pos, read);
    ReturnedNext(fmt, args, h, given, rest, left, h2);
    done2, given2 := done + t.bytes, FirstGiven(fmt, args, given);
  }

  lemma AfterTurn(fmt: string, args: seq<Val>, h: Header, done: seq<byte>, t: PackTurn, tail: seq<byte>,
                  given: seq<Val>, read: seq<Val>, data: seq<byte>, u: UnpackTurn, rest: string, left: seq<Val>, h2: Header)
    returns (given2: seq<Val>, read2: seq<Val>)
    requires h.align > 0 && !Ends(fmt) && t == PackOption(fmt, args, h, |done|) && t.PackTurn? && data == done + t.bytes + tail
    requires u == UnpackOption(fmt, data, h, |done|, read) && AlmostSame(given, read) && FirstReads(fmt, args, read)
    requires (Adds(fmt) ==> given == read) && Used(fmt[0]) <= |args| && left == args[Used(fmt[0])..] && h2.align > 0
    requires Next(fmt, h) == Control(rest, h2)
    ensures given2 == FirstGiven(fmt, args, given) && AlmostSame(given2, read2)
    ensures u == UnpackTurn(read2, |done| + |t.bytes|, rest, h2)
    ensures Reversible(rest, left, h2, given2, read2) ==> Reversible(fmt, args, h, given, read)
  {
    TurnReadsBack(fmt, args, h, read, done, t, tail);
    TurnSame(fmt, args, h, given, read);
    given2, read2 := FirstGiven(fmt, args, given), FirstRead(fmt, args, h, read);
    if Reversible(rest, left, h2, given2, read2) {
      ReversibleFold(fmt, args, h, given, read, rest, left, h2);
    }
  }

  /** Arguments that come back are reversible. */
  lemma {:induction false} OnlyReversible(fmt: string, args: seq<Val>, h: Header, done: seq<byte>, pos: nat, bs: seq<byte>,
                                          tail: seq<byte>, given: seq<Val>, read: seq<Val>, data: seq<byte>)
    requires h.align > 0 && pos == |done| && Pack(fmt, args, h, pos) == Packed(bs) && data == done + bs + tail
    requires AlmostSame(given, read) && Unpack(fmt, data, h, pos, read).Unpacked?
    requires Unpack(fmt, data, h, pos, read).vals == Returned(fmt, args, h, given)
    ensures Reversible(fmt, args, h, given, read)
    decreases |fmt|
  {
    if !Ends(fmt) {
      var rest, left, h2, done2, pos2, more, given2, read2 := OnlyTurn(fmt, args, h, done, pos, bs, tail, given, read, data);
      OnlyReversible(rest, left, h2, done2, pos2, more, tail, given2, read2, data);
    }
  }

  /**
    struct.unpack(fmt, struct.pack(fmt, args) .. tail) gives the arguments back, and stops where they end,
    exactly then. Nothing is claimed where reading runs into what is left unspecified: a signed integer of
    a size that cannot be shifted, or "c0" behind a string or a number that is no size.
   */
  lemma RoundTrip(fmt: string, args: seq<Val>, bs: seq<byte>, tail: seq<byte>)
    requires Pack(fmt, args, Start, 0) == Packed(bs)
    requires Unpack(fmt, bs + tail, Start, 0, []) != NotUnpacked(Unspecified)
    ensures Unpack(fmt, bs + tail, Start, 0, []) == Unpacked(Returned(fmt, args, Start, []), |bs|) <==>
      Reversible(fmt, args, Start, [], [])
  {
    NothingBefore(bs, tail);
    if Reversible(fmt, args, Start, [], []) {
      RoundTripFrom(fmt, args, Start, [], 0, bs, tail, [], [], bs + tail);
    }
    if Unpack(fmt, bs + tail, Start, 0, []) == Unpacked(Returned(fmt, args, Start, []), |bs|) {
      OnlyReversible(fmt, args, Start, [], 0, bs, tail, [], [], bs + tail);
    }
  }

  // ----- the usual case -----

  /** Every integer fits its option and every other option reads what it wrote. */
  predicate Fitting(fmt: string, args: seq<Val>, h: Header, acc: seq<Val>)
    requires h.align > 0
    decreases |fmt|
  {
    Ends(fmt) ||
    (FirstReads(fmt, args, acc) && FirstFits(fmt, args) && Next(fmt, h).Control? &&
     Fitting(Next(fmt, h).rest, args[Used(fmt[0])..], Next(fmt, h).h, FirstGiven(fmt, args, acc)))
  }

  predicate FirstFits(fmt: string, args: seq<Val>)
    requires !Ends(fmt)
  {
    var z := OptSize(fmt[0], fmt[1..]);
    IsInt(fmt[0]) ==> z.Sized? && args != [] && args[0].Num? && InRange(args[0].n, z.size, IsSigned(fmt[0]))
  }

  lemma FirstSame(fmt: string, args: seq<Val>, h: Header, acc: seq<Val>)
    requires !Ends(fmt) && FirstReads(fmt, args, acc) && FirstFits(fmt, args)
    ensures FirstRead(fmt, args, h, acc) == FirstGiven(fmt, args, acc)
  {
    if IsInt(fmt[0]) {
      var z := OptSize(fmt[0], fmt[1..]);
      IntReads(args[0].n, z.size, h.big, IsSigned(fmt[0]));
      assert [args[0]] + args[1..] == args;
    }
  }

  /** Then everything comes back. */
  lemma {:induction false} FittingIsReversible(fmt: string, args: seq<Val>, h: Header, acc: seq<Val>)
    requires h.align > 0 && Fitting(fmt, args, h, acc)
    ensures Reversible(fmt, args, h, acc, acc)
    decreases |fmt|
  {
    if !Ends(fmt) {
      FirstSame(fmt, args, h, acc);
      var c := Next(fmt, h);
      FittingIsReversible(c.rest, args[Used(fmt[0])..], c.h, FirstGiven(fmt, args, acc));
    }
  }

  /** Only a length that "c0" takes may be out of range: 300 is written as 44, which is right for 44 bytes. */
  lemma WrappedLength(s: seq<byte>)
    requires |s| == 44
    ensures !InRange(300, 1, false) && Reversible("Bc0", [Num(300), Text(s)], Start, [], [])
  {
    var args := [Num(300), Text(s)];
    assert "Bc0"[1..] == "c0" && args[1..] == [Text(s)];
    WrappedByte();
    assert FirstGiven("Bc0", args, []) == [Num(300)];
    assert FirstRead("Bc0", args, Start, []) == [Num(44)];
    assert Next("Bc0", Start) == Control("c0", Start);
    WrappedRest(s);
  }

  lemma WrappedByte()
    ensures !InRange(300, 1, false) && IntValue(IntBytes(300, 1, false), false, false) == 44
  {
    FieldSizes();
    assert BigEndian(300, 1) == [44];
  }

  lemma WrappedRest(s: seq<byte>)
    requires |s| == 44
    ensures Reversible("c0", [Text(s)], Start, [Num(300)], [Num(44)])
  {
    assert "c0"[1..] == "0";
    ZeroWritten();
    var given, read := [Num(300)], [Num(44)];
    assert given[..0] + [Text(s)] == [Text(s)] && read[..0] + [Text(s)] == [Text(s)];
    assert FirstGiven("c0", [Text(s)], given) == [Text(s)] && FirstRead("c0", [Text(s)], Start, read) == [Text(s)];
    assert Next("c0", Start) == Control("", Start);
    assert Reversible("", [Text(s)][1..], Start, [Text(s)], [Text(s)]);
  }

  /** 5.0 as a double, most significant byte first. */
  const FIVE: seq<byte> := [0x40, 0x14, 0, 0, 0, 0, 0, 0]

  lemma OneMoreByte(s: seq<byte>, c: byte)
    ensures FromBigEndian(s + [c]) == 256 * FromBigEndian(s) + c
  {
    assert (s + [c])[..|s|] == s;
  }

  lemma {:induction false} ZeroBytes(s: seq<byte>, n: nat, x: nat, p: nat)
    requires x == FromBigEndian(s) && p == Pow(256, n)
    ensures FromBigEndian(s + Zeros(n)) == x * p
    decreases n
  {
    if n == 0 {
      assert s + Zeros(n) == s;
    } else {
      var q := Pow(256, n - 1);
      ZeroBytes(s, n - 1, x, q);
      OneMoreZero(s, n - 1, x * q);
      TimesByte(x, q, p);
    }
  }

  lemma OneMoreZero(s: seq<byte>, n: nat, v: nat)
    requires FromBigEndian(s + Zeros(n)) == v
    ensures FromBigEndian(s + Zeros(n + 1)) == 256 * v
  {
    assert s + Zeros(n + 1) == (s + Zeros(n)) + [0];
    OneMoreByte(s + Zeros(n), 0);
  }

  lemma TimesByte(x: nat, q: nat, p: nat)
    requires p == 256 * q
    ensures 256 * (x * q) == x * p
  {
  }

  lemma FiveBits()
    ensures FromBigEndian(FIVE) == 0x4014_0000_0000_0000
  {
    OneMoreByte([], 0x40);
    OneMoreByte([0x40], 0x14);
    assert [] + [0x40] == [0x40] && [0x40] + [0x14] == [0x40, 0x14];
    SixZeros();
    ZeroBytes([0x40, 0x14], 6, 0x4014, 0x1_0000_0000_0000);
    assert [0x40, 0x14] + Zeros(6) == FIVE;
  }

  lemma SixZeros()
    ensures Zeros(6) == [0, 0, 0, 0, 0, 0] && Pow(256, 6) == 0x1_0000_0000_0000
  {
    assert Zeros(3) == [0, 0, 0];
    PowAdd(256, 3, 3);
    assert Pow(256, 3) == 0x100_0000;
  }

  lemma FiveIsFive()
    ensures LengthOf(Image(FIVE)) == Length(5)
  {
    FiveBits();
    FiftyBits();
    assert |FIVE| == 8;
    assert WholePart(0x4014_0000_0000_0000, 0x10_0000_0000_0000, 0x800, 1075) == Length(5) by {
      assert 0x14_0000_0000_0000 / 0x4_0000_0000_0000 == 5;
    }
  }

  lemma FiftyBits()
    ensures Pow(2, 50) == 0x4_0000_0000_0000
  {
    FastPowIsPow(2, 50);
  }

  /** A double serves "c0" as well: "dc0" gives back the string and takes 5.0 for its length. */
  lemma DoublePrefixed(s: seq<byte>)
    requires |s| == 5
    ensures Reversible("dc0", [Image(FIVE), Text(s)], Start, [], [])
    ensures Returned("dc0", [Image(FIVE), Text(s)], Start, []) == [Text(s)]
  {
    var args, five := [Image(FIVE), Text(s)], [Image(FIVE)];
    assert "dc0"[1..] == "c0" && args[1..] == [Text(s)];
    assert FirstGiven("dc0", args, []) == five && FirstRead("dc0", args, Start, []) == five;
    assert Next("dc0", Start) == Control("c0", Start);
    DoubleRest(s);
  }

  lemma DoubleRest(s: seq<byte>)
    requires |s| == 5
    ensures Reversible("c0", [Text(s)], Start, [Image(FIVE)], [Image(FIVE)])
    ensures Returned("c0", [Text(s)], Start, [Image(FIVE)]) == [Text(s)]
  {
    assert "c0"[1..] == "0";
    ZeroWritten();
    FiveIsFive();
    var acc := [Image(FIVE)];
    assert acc[..0] + [Text(s)] == [Text(s)];
    assert FirstGiven("c0", [Text(s)], acc) == [Text(s)] && FirstRead("c0", [Text(s)], Start, acc) == [Text(s)];
    assert Next("c0", Start) == Control("", Start);
    assert Reversible("", [Text(s)][1..], Start, [Text(s)], [Text(s)]);
    assert Returned("", [Text(s)][1..], Start, [Text(s)]) == [Text(s)];
  }
}
