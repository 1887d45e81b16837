/**
  The names and texts of the protocol, and which field of a table counts when there are several
  (src/script_luajit.c:162-416, 495-610).
 */
module RespNames {
  import opened Bytes
  import opened Resp
  import opened RespStack

  lemma ShortNames()
    ensures ERR == Ascii("err") && OK == Ascii("ok") && MAP == Ascii("map") && SET == Ascii("set")
    ensures DOUBLE == Ascii("double") && STRING == Ascii("string") && FORMAT == Ascii("format")
    ensures ERR_PREFIX == Ascii("ERR ")
  {
  }

  lemma LongNames()
    ensures BIG_NUMBER == Ascii("big_number") && VERBATIM == Ascii("verbatim_string")
  {
  }

  lemma IgnoreName()
    ensures IGNORE == Ascii("ignore_error_stats_update")
  {
  }

  lemma LimitText()
    ensures STACK_LIMIT == Ascii("ERR reached lua stack limit")
  {
  }

  /** With room for fewer than four values on the Lua stack, whatever the value is, this error is sent. */
  lemma LimitReached(v: Lua, resp: nat, next: Order, top: nat, limit: nat)
    requires limit < top + 4
    ensures ToReply(v, resp, next, top, limit) == Error(Ascii("ERR reached lua stack limit"))
  {
    LimitText();
  }

  /** nil, functions and userdata are sent as nulls. */
  lemma OthersAreNull(v: Lua, resp: nat, next: Order, top: nat, limit: nat)
    requires (v.Nil? || v.Other?) && top + 4 <= limit
    ensures ToReply(v, resp, next, top, limit) == Null
  {
  }

  // ----- several fields -----

  lemma {:induction false} OtherField(es: seq<Entry>, key: Lua, val: Lua, other: Lua)
    requires key != other
    ensures Find(SetField(es, key, val), other) == Find(es, other)
  {
    if es != [] && !(es[0].key == key && !key.Table?) {
      OtherField(es[1..], key, val, other);
    }
  }

  /** The fields that decide, in the order in which they are looked up. */
  function Names(): seq<seq<byte>> {
    [ERR, OK, DOUBLE, BIG_NUMBER, VERBATIM, MAP, SET]
  }

  /** Which of them decides about a table, or 7 where none does and it is an array. */
  function Deciding(k: Kind): nat {
    match k
    case IsError(_) => 0
    case IsStatus(_) => 1
    case IsDouble(_) => 2
    case IsBigNumber(_) => 3
    case IsVerbatim(_, _) => 4
    case IsMap(_) => 5
    case IsSet(_) => 6
    case IsArray(_) => 7
  }

  lemma NamesDistinct(i: nat, j: nat)
    requires i < j < 7
    ensures Names()[i] != Names()[j]
  {
    assert ERR[0] == 0x65 && MAP[0] == 0x6d && SET[0] == 0x73;
    assert |ERR| == 3 && |OK| == 2 && |DOUBLE| == 6 && |BIG_NUMBER| == 10 && |VERBATIM| == 15 && |MAP| == 3 && |SET| == 3;
  }

  /** Whatever a field behind the deciding one is set to, the table stands for the same reply. */
  lemma EarlierFieldCounts(es: seq<Entry>, j: nat, val: Lua)
    requires Deciding(KindOf(es)) < j < 7
    ensures KindOf(SetField(es, Str(Names()[j]), val)) == KindOf(es)
  {
    forall i: nat | i < j
      ensures Field(SetField(es, Str(Names()[j]), val), Names()[i]) == Field(es, Names()[i])
    {
      NamesDistinct(i, j);
      OtherField(es, Str(Names()[j]), val, Str(Names()[i]));
    }
    assert Names()[0] == ERR && Names()[1] == OK && Names()[2] == DOUBLE && Names()[3] == BIG_NUMBER;
    assert Names()[4] == VERBATIM && Names()[5] == MAP && Names()[6] == SET;
  }

  // ----- what scripts see -----

  lemma FirstField(name: seq<byte>, v: Lua, es: seq<Entry>)
    requires es != [] && es[0] == Entry(Str(name), v)
    ensures Field(es, name) == v
  {
  }

  /** The fields of the tables that stand for replies, by their names. */
  lemma TaggedFields(s: seq<byte>, x: real, resp: nat)
    ensures Field(ToLua(Status(s), resp).v.entries, Ascii("ok")) == Str(s)
    ensures Field(ToLua(Double(x), resp).v.entries, Ascii("double")) == Number(x)
    ensures Field(ToLua(BigNumber(s), resp).v.entries, Ascii("big_number")) == Str(s)
  {
    ShortNames();
    LongNames();
    FirstField(OK, Str(s), [Entry(Str(OK), Str(s))]);
    FirstField(DOUBLE, Number(x), [Entry(Str(DOUBLE), Number(x))]);
    FirstField(BIG_NUMBER, Str(s), [Entry(Str(BIG_NUMBER), Str(s))]);
  }

  lemma SecondField(first: Entry, name: seq<byte>, v: Lua, es: seq<Entry>)
    requires es == [first, Entry(Str(name), v)] && first.key != Str(name)
    ensures Field(es, name) == v
  {
    assert es[1..] == [Entry(Str(name), v)];
    FirstField(name, v, es[1..]);
  }

  /** An error has its text, and is not counted again when it is returned. */
  lemma ErrorFields(s: seq<byte>, resp: nat)
    ensures Field(ToLua(Error(s), resp).v.entries, Ascii("err")) == Str(ErrorText(s))
    ensures Field(ToLua(Error(s), resp).v.entries, Ascii("ignore_error_stats_update")) == Bool(true)
  {
    ShortNames();
    IgnoreName();
    assert |ERR| == 3 && |IGNORE| == 25;
    SecondField(Entry(Str(ERR), Str(ErrorText(s))), IGNORE, Bool(true), ErrorTable(s).entries);
  }

  lemma VerbatimField(s: seq<byte>, format: seq<byte>, resp: nat)
    ensures var v := Field(ToLua(Verbatim(s, format), resp).v.entries, Ascii("verbatim_string"));
            v.Table? && Field(v.entries, Ascii("string")) == Str(s) && Field(v.entries, Ascii("format")) == Str(FirstThree(format))
  {
    ShortNames();
    LongNames();
    FirstField(VERBATIM, VerbatimTable(s, FirstThree(format)), [Entry(Str(VERBATIM), VerbatimTable(s, FirstThree(format)))]);
    assert STRING[0] == 0x73 && FORMAT[0] == 0x66;
    SecondField(Entry(Str(STRING), Str(s)), FORMAT, Str(FirstThree(format)), VerbatimTable(s, FirstThree(format)).entries);
  }

  lemma {:induction false} SetThenFind(es: seq<Entry>, key: Lua, val: Lua)
    requires !key.Table?
    ensures Find(SetField(es, key, val), key) == val || val.Nil?
  {
    if es != [] && es[0].key != key {
      SetThenFind(es[1..], key, val);
    }
  }

  /** Item i of an array reply is under the number i + 1. */
  lemma {:induction false} ItemsFromOne(items: seq<Reply>, n: nat, resp: nat, i: nat)
    requires i < n <= |items| && ItemsToLua(items, n, resp).Value?
    ensures ToLua(items[i], resp).Value? && ItemsToLua(items, n, resp).v.Table?
    ensures !ToLua(items[i], resp).v.Nil? ==>
      Find(ItemsToLua(items, n, resp).v.entries, Number((i + 1) as real)) == ToLua(items[i], resp).v
    decreases n
  {
    var before := ItemsToLua(items, n - 1, resp).v.entries;
    if i == n - 1 {
      SetThenFind(before, Number(n as real), ToLua(items[i], resp).v);
    } else {
      ItemsFromOne(items, n - 1, resp, i);
      OtherField(before, Number(n as real), ToLua(items[n - 1], resp).v, Number((i + 1) as real));
    }
  }

  lemma {:induction false} PartAt(es: seq<Entry>, j: nat, part: seq<Lua>, i: nat)
    requires PartIs(es, j, part) && i <= |part|
    ensures if i == |part| then At(es, j + i).Nil? else part[i] == At(es, j + i) && !part[i].Nil?
    decreases |part|
  {
    if i > 0 {
      PartAt(es, j + 1, part[1..], i - 1);
    }
  }

  /** An array that is sent has what is under 1, 2 and so on, up to the first hole. */
  lemma SentFromOne(es: seq<Entry>, i: nat)
    requires KindOf(es).IsArray? && i < |KindOf(es).items|
    ensures KindOf(es).items[i] == Find(es, Number((i + 1) as real)) && !KindOf(es).items[i].Nil?
    ensures Find(es, Number((|KindOf(es).items| + 1) as real)) == Nil
  {
    var part := ArrayPart(es, 1);
    ArrayPartIs(es, 1);
    PartAt(es, 1, part, i);
    PartAt(es, 1, part, |part|);
  }

  /** The members of a set are the keys of its table, each with the value true. */
  lemma {:induction false} MembersAreTrue(members: seq<Reply>, n: nat, resp: nat)
    requires n <= |members| && MembersToLua(members, n, resp).Value?
    ensures MembersToLua(members, n, resp).v.Table?
    ensures forall e :: e in MembersToLua(members, n, resp).v.entries ==> e.val == Bool(true)
    decreases n
  {
    if n > 0 {
      MembersAreTrue(members, n - 1, resp);
      SetKeepsTrue(MembersToLua(members, n - 1, resp).v.entries, ToLua(members[n - 1], resp).v);
    }
  }

  lemma {:induction false} SetKeepsTrue(es: seq<Entry>, key: Lua)
    requires forall e :: e in es ==> e.val == Bool(true)
    ensures forall e :: e in SetField(es, key, Bool(true)) ==> e.val == Bool(true)
  {
    if es != [] {
      SetKeepsTrue(es[1..], key);
    }
  }

  // ----- texts -----

  /** A line end becomes a space, and nothing else changes. */
  lemma {:induction false} OneLineAt(s: seq<byte>, i: nat)
    requires i < |s|
    ensures |OneLine(s)| == |s| && OneLine(s)[i] == if s[i] == 13 || s[i] == 10 then 32 else s[i]
  {
    if i > 0 {
      OneLineAt(s[1..], i - 1);
    } else if |s| > 1 {
      OneLineAt(s[1..], 0);
    }
  }

  predicate Word(s: seq<byte>) {
    CString(s) && forall i :: 0 <= i < |s| ==> s[i] != 0x20
  }

  lemma {:induction false} CutIsAll(s: seq<byte>)
    requires CString(s)
    ensures CutAtNul(s) == s
  {
    if s != [] {
      CutIsAll(s[1..]);
    }
  }

  lemma {:induction false} SpaceBehind(w: seq<byte>, rest: seq<byte>)
    requires Word(w) && (rest == [] || rest[0] == 0x20)
    ensures SpaceAt(w + rest) == |w|
  {
    if w == [] {
      assert w + rest == rest;
    } else {
      assert (w + rest)[1..] == w[1..] + rest;
      SpaceBehind(w[1..], rest);
    }
  }

  /** "-CODE message" is stored as "CODE message", the message trimmed of line ends. */
  lemma CodedError(code: seq<byte>, message: seq<byte>)
    requires Word(code) && CString(message)
    ensures ErrorText([0x2d] + code + [0x20] + message) == code + [0x20] + Trim(message)
  {
    var dashed := [0x2d] + code;
    CutIsAll(dashed + [0x20] + message);
    SpaceBehind(dashed, [0x20] + message);
    ThreeParts(dashed, message, dashed + [0x20] + message);
    CodeSplits(code, dashed);
    TextOfCoded(dashed + [0x20] + message, code, message);
  }

  lemma CodeSplits(code: seq<byte>, dashed: seq<byte>)
    requires dashed == [0x2d] + code
    ensures dashed[0] == 0x2d && dashed[1..] == code
  {
  }

  lemma ThreeParts(dashed: seq<byte>, message: seq<byte>, s: seq<byte>)
    requires dashed != [] && s == dashed + [0x20] + message
    ensures s == dashed + ([0x20] + message) && s[0] == dashed[0] && s[1..|dashed|] == dashed[1..] && s[|dashed| + 1..] == message
  {
  }

  lemma TextOfCoded(s: seq<byte>, code: seq<byte>, message: seq<byte>)
    requires s != [] && CutAtNul(s) == s && s[0] == 0x2d && SpaceAt(s) == |code| + 1 < |s|
    requires s[1..|code| + 1] == code && s[|code| + 2..] == message
    ensures ErrorText(s) == code + [0x20] + Trim(message)
  {
  }

  /** "-message" of one word gets the code ERR. */
  lemma BareError(word: seq<byte>)
    requires Word(word)
    ensures ErrorText([0x2d] + word) == Ascii("ERR ") + word
  {
    ShortNames();
    CutIsAll([0x2d] + word);
    SpaceBehind([0x2d] + word, []);
    assert ([0x2d] + word) + [] == [0x2d] + word;
    assert ([0x2d] + word)[1..] == word;
  }

  // ----- numbers -----

  /** A number loses its fraction, on either side of zero. */
  lemma TowardsZero(x: real)
    ensures 0.0 <= x ==> Truncated(x) as real <= x < (Truncated(x) + 1) as real
    ensures x < 0.0 ==> (Truncated(x) - 1) as real < x <= Truncated(x) as real
  {
  }
}
