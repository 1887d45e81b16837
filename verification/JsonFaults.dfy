/** What an error of the decoder says is so: the tokens up to it, and the one that does not fit (src/lua_cjson.c:882-955, 1113-1288). */
module JsonFaults {
  import opened Bytes
  import opened JsonText
  import opened JsonCodec
  import opened JsonGrammar
  import opened JsonSpelling

  /** Where the tokens so far have led: the brackets still open, the innermost first, and the last token. */
  datatype State = State(open: seq<Token>, last: Token)

  const Start := State([], End)

  function After(st: State, t: Token): State {
    State(
      if t.ObjBegin? || t.ArrBegin? then [t] + st.open
      else if (t.ObjEnd? || t.ArrEnd?) && st.open != [] then st.open[1..]
      else st.open,
      t)
  }

  function Run(st: State, ts: seq<Token>): State
    decreases |ts|
  {
    if ts == [] then st else Run(After(st, ts[0]), ts[1..])
  }

  predicate Inside(st: State, bracket: Token) {
    st.open != [] && st.open[0] == bracket
  }

  predicate WantsValue(st: State) {
    st == Start || st.last.ArrBegin? || st.last.Colon? || (st.last.Comma? && Inside(st, ArrBegin))
  }

  predicate StartsValue(t: Token) {
    IsScalar(t) || t.ObjBegin? || t.ArrBegin?
  }

  predicate EndsValue(t: Token) {
    IsScalar(t) || t.ObjEnd? || t.ArrEnd?
  }

  /** The token t, behind tokens that led to st, is what the fault speaks of. */
  predicate Blames(f: Fault, st: State, t: Token, limit: nat) {
    match f
    case ExpectedValue => WantsValue(st) && !StartsValue(t) && (st.last.ArrBegin? ==> !t.ArrEnd?)
    case NestedTooDeep => WantsValue(st) && (t.ObjBegin? || t.ArrBegin?) && |st.open| == limit
    case ExpectedKey =>
      Inside(st, ObjBegin) && !t.StringToken? && (st.last.Comma? || (st.last.ObjBegin? && !t.ObjEnd?))
    case ExpectedColon => Inside(st, ObjBegin) && st.last.StringToken? && !t.Colon?
    case ExpectedCommaOrObjEnd => Inside(st, ObjBegin) && EndsValue(st.last) && !t.Comma? && !t.ObjEnd?
    case ExpectedCommaOrArrEnd => Inside(st, ArrBegin) && EndsValue(st.last) && !t.Comma? && !t.ArrEnd?
    case ExpectedEnd => st.open == [] && EndsValue(st.last) && !t.End?
    case NotUtf8 => false
  }

  // ----- runs over tokens -----

  lemma {:induction false} RunJoin(st: State, a: seq<Token>, b: seq<Token>)
    ensures Run(st, a + b) == Run(Run(st, a), b)
    decreases |a|
  {
    if a == [] {
      assert a + b == b;
    } else {
      assert (a + b)[1..] == a[1..] + b;
      RunJoin(After(st, a[0]), a[1..], b);
    }
  }

  lemma RunOne(st: State, t: Token)
    ensures Run(st, [t]) == After(st, t)
  {
    assert [t][1..] == [];
    assert Run(After(st, t), []) == After(st, t);
  }

  /** The tokens of a value leave the brackets as they were. */
  lemma {:induction false} Balanced(st: State, t: Tree)
    requires Valid(t)
    ensures Run(st, Flatten(t)).open == st.open && EndsValue(Run(st, Flatten(t)).last)
    decreases t, 0
  {
    match t
    case Scalar(token) =>
      RunOne(st, token);
    case List(items) =>
      RunJoin(st, [ArrBegin], ItemsFlat(items));
      RunOne(st, ArrBegin);
      ItemsBalanced(After(st, ArrBegin), items);
    case Object(members) =>
      RunJoin(st, [ObjBegin], MembersFlat(members));
      RunOne(st, ObjBegin);
      MembersBalanced(After(st, ObjBegin), members);
  }

  lemma {:induction false} ItemsBalanced(st: State, items: seq<Tree>)
    requires st.open != [] && forall x :: x in items ==> Valid(x)
    ensures Run(st, ItemsFlat(items)) == State(st.open[1..], ArrEnd)
    decreases items, 1
  {
    if items == [] {
      RunOne(st, ArrEnd);
    } else {
      Balanced(st, items[0]);
      RunJoin(st, Flatten(items[0]), MoreItems(items[1..]));
      MoreBalanced(Run(st, Flatten(items[0])), items[1..]);
    }
  }

  lemma {:induction false} MoreBalanced(st: State, items: seq<Tree>)
    requires st.open != [] && forall x :: x in items ==> Valid(x)
    ensures Run(st, MoreItems(items)) == State(st.open[1..], ArrEnd)
    decreases items, 1
  {
    if items == [] {
      RunOne(st, ArrEnd);
    } else {
      var comma := After(st, Token.Comma);
      RunJoin(st, [Token.Comma] + Flatten(items[0]), MoreItems(items[1..]));
      RunJoin(st, [Token.Comma], Flatten(items[0]));
      RunOne(st, Token.Comma);
      Balanced(comma, items[0]);
      MoreBalanced(Run(comma, Flatten(items[0])), items[1..]);
    }
  }

  lemma {:induction false} MemberBalanced(st: State, m: Member)
    requires Valid(m.val)
    ensures Run(st, MemberFlat(m)).open == st.open && EndsValue(Run(st, MemberFlat(m)).last)
    decreases m, 1
  {
    var key := After(After(st, StringToken(m.key)), Token.Colon);
    RunKey(st, m.key);
    RunJoin(st, [StringToken(m.key), Token.Colon], Flatten(m.val));
    Balanced(key, m.val);
  }

  lemma RunKey(st: State, key: seq<byte>)
    ensures Run(st, [StringToken(key), Token.Colon]) == State(st.open, Token.Colon)
  {
    RunOne(st, StringToken(key));
    RunOne(After(st, StringToken(key)), Token.Colon);
    assert [StringToken(key), Token.Colon] == [StringToken(key)] + [Token.Colon];
    RunJoin(st, [StringToken(key)], [Token.Colon]);
  }

  lemma {:induction false} MembersBalanced(st: State, members: seq<Member>)
    requires st.open != [] && forall m :: m in members ==> Valid(m.val)
    ensures Run(st, MembersFlat(members)) == State(st.open[1..], ObjEnd)
    decreases members, 2
  {
    if members == [] {
      RunOne(st, ObjEnd);
    } else {
      assert members[0] in members;
      MemberBalanced(st, members[0]);
      RunJoin(st, MemberFlat(members[0]), MoreMembers(members[1..]));
      MoreMembersBalanced(Run(st, MemberFlat(members[0])), members[1..]);
    }
  }

  lemma {:induction false} MoreMembersBalanced(st: State, members: seq<Member>)
    requires st.open != [] && forall m :: m in members ==> Valid(m.val)
    ensures Run(st, MoreMembers(members)) == State(st.open[1..], ObjEnd)
    decreases members, 2
  {
    if members == [] {
      RunOne(st, ObjEnd);
    } else {
      assert members[0] in members;
      var comma := After(st, Token.Comma);
      RunJoin(st, [Token.Comma] + MemberFlat(members[0]), MoreMembers(members[1..]));
      RunJoin(st, [Token.Comma], MemberFlat(members[0]));
      RunOne(st, Token.Comma);
      MemberBalanced(comma, members[0]);
      MoreMembersBalanced(Run(comma, MemberFlat(members[0])), members[1..]);
    }
  }

  // ----- faults -----

  /** From s on the tokens ts, and then one that the fault blames. */
  predicate Explains(f: Fault, s: seq<byte>, st: State, ts: seq<Token>, at: seq<byte>, limit: nat) {
    Follows(s, ts, at) && Blames(f, Run(st, ts), NextToken(at).token, limit)
  }

  lemma Here(f: Fault, s: seq<byte>, st: State, limit: nat)
    requires Blames(f, st, NextToken(s).token, limit)
    ensures Explains(f, s, st, [], s, limit)
  {
  }

  /** The same seen from the front of what was read before. */
  lemma Further(f: Fault, s: seq<byte>, st: State, front: seq<Token>, middle: seq<byte>, ts: seq<Token>, at: seq<byte>, limit: nat)
    requires Follows(s, front, middle) && Explains(f, middle, Run(st, front), ts, at, limit)
    ensures Explains(f, s, st, front + ts, at, limit)
  {
    FollowsJoin(s, front, middle, ts, at);
    RunJoin(st, front, ts);
  }

  lemma BehindToken(f: Fault, s: seq<byte>, st: State, ts: seq<Token>, at: seq<byte>, limit: nat)
    requires Explains(f, NextToken(s).rest, After(st, NextToken(s).token), ts, at, limit)
    ensures Explains(f, s, st, [NextToken(s).token] + ts, at, limit)
  {
    OneToken(s, NextToken(s).token, NextToken(s).rest);
    RunOne(st, NextToken(s).token);
    Further(f, s, st, [NextToken(s).token], NextToken(s).rest, ts, at, limit);
  }

  lemma {:induction false} ValueFault(s: seq<byte>, room: nat, st: State, limit: nat) returns (ts: seq<Token>, at: seq<byte>)
    requires ParseValue(s, room).Failed? && WantsValue(st) && |st.open| + room == limit
    requires st.last.ArrBegin? ==> !NextToken(s).token.ArrEnd?
    ensures Explains(ParseValue(s, room).fault, s, st, ts, at, limit)
    decreases |s|, 0
  {
    var l := NextToken(s);
    if l.token.ObjBegin? && room > 0 {
      ts, at := ObjectFault(l.rest, room - 1, After(st, ObjBegin), limit);
      BehindToken(ParseValue(s, room).fault, s, st, ts, at, limit);
      ts := [l.token] + ts;
    } else if l.token.ArrBegin? && room > 0 {
      ts, at := ArrayFault(l.rest, room - 1, After(st, ArrBegin), limit);
      BehindToken(ParseValue(s, room).fault, s, st, ts, at, limit);
      ts := [l.token] + ts;
    } else {
      ts, at := [], s;
      Here(ParseValue(s, room).fault, s, st, limit);
    }
  }

  lemma {:induction false} ArrayFault(s: seq<byte>, room: nat, st: State, limit: nat) returns (ts: seq<Token>, at: seq<byte>)
    requires ParseArray(s, room).Failed? && st.last.ArrBegin? && Inside(st, ArrBegin) && |st.open| + room == limit
    ensures Explains(ParseArray(s, room).fault, s, st, ts, at, limit)
    decreases |s|, 2
  {
    ts, at := ItemsFault(s, 1, [], room, st, limit);
  }

  lemma {:induction false} ItemsFault(s: seq<byte>, i: nat, es: seq<Entry>, room: nat, st: State, limit: nat)
    returns (ts: seq<Token>, at: seq<byte>)
    requires ParseItems(s, i, es, room).Failed? && WantsValue(st) && Inside(st, ArrBegin) && |st.open| + room == limit
    requires st.last.ArrBegin? ==> !NextToken(s).token.ArrEnd?
    ensures Explains(ParseItems(s, i, es, room).fault, s, st, ts, at, limit)
    decreases |s|, 1
  {
    var p := ParseValue(s, room);
    if p.Failed? {
      ts, at := ValueFault(s, room, st, limit);
    } else {
      var t := ValueIsTree(s, room, p.v, p.rest);
      Balanced(st, t);
      ts, at := AfterItemFault(p.rest, i + 1, es + [Entry(IntKey(i), p.v)], room, Run(st, Flatten(t)), limit);
      Further(ParseItems(s, i, es, room).fault, s, st, Flatten(t), p.rest, ts, at, limit);
      ts := Flatten(t) + ts;
    }
  }

  lemma {:induction false} AfterItemFault(s: seq<byte>, i: nat, es: seq<Entry>, room: nat, st: State, limit: nat)
    returns (ts: seq<Token>, at: seq<byte>)
    requires AfterItem(s, i, es, room).Failed? && EndsValue(st.last) && Inside(st, ArrBegin) && |st.open| + room == limit
    ensures Explains(AfterItem(s, i, es, room).fault, s, st, ts, at, limit)
    decreases |s|, 2
  {
    var l := NextToken(s);
    if l.token.Comma? {
      ts, at := ItemsFault(l.rest, i, es, room, After(st, Token.Comma), limit);
      BehindToken(AfterItem(s, i, es, room).fault, s, st, ts, at, limit);
      ts := [l.token] + ts;
    } else {
      ts, at := [], s;
      Here(ExpectedCommaOrArrEnd, s, st, limit);
    }
  }

  lemma {:induction false} ObjectFault(s: seq<byte>, room: nat, st: State, limit: nat) returns (ts: seq<Token>, at: seq<byte>)
    requires ParseObject(s, room).Failed? && st.last.ObjBegin? && Inside(st, ObjBegin) && |st.open| + room == limit
    ensures Explains(ParseObject(s, room).fault, s, st, ts, at, limit)
    decreases |s|, 2
  {
    ts, at := MembersFault(s, [], room, st, limit);
  }

  lemma {:induction false} MembersFault(s: seq<byte>, es: seq<Entry>, room: nat, st: State, limit: nat)
    returns (ts: seq<Token>, at: seq<byte>)
    requires ParseMembers(s, es, room).Failed? && Inside(st, ObjBegin) && |st.open| + room == limit
    requires st.last.Comma? || (st.last.ObjBegin? && !NextToken(s).token.ObjEnd?)
    ensures Explains(ParseMembers(s, es, room).fault, s, st, ts, at, limit)
    decreases |s|, 1
  {
    var l := NextToken(s);
    if !l.token.StringToken? {
      ts, at := [], s;
      Here(ExpectedKey, s, st, limit);
    } else {
      ts, at := ColonFault(l, es, room, After(st, l.token), limit, ParseMembers(s, es, room));
      BehindToken(ParseMembers(s, es, room).fault, s, st, ts, at, limit);
      ts := [l.token] + ts;
    }
  }

  lemma {:induction false} ColonFault(l: Lexed, es: seq<Entry>, room: nat, st: State, limit: nat, p: Parsed)
    returns (ts: seq<Token>, at: seq<byte>)
    requires l.token.StringToken? && st.last == l.token && Inside(st, ObjBegin) && |st.open| + room == limit && p.Failed?
    requires p == if NextToken(l.rest).token != Token.Colon then Failed(ExpectedColon)
                  else ValueThen(NextToken(l.rest).rest, es, l.token.bytes, room)
    ensures Explains(p.fault, l.rest, st, ts, at, limit)
    decreases |l.rest|, 4
  {
    var c := NextToken(l.rest);
    if c.token.Colon? {
      ts, at := MemberFault(c.rest, es, l.token.bytes, room, After(st, Token.Colon), limit);
      BehindToken(p.fault, l.rest, st, ts, at, limit);
      ts := [c.token] + ts;
    } else {
      ts, at := [], l.rest;
      Here(ExpectedColon, l.rest, st, limit);
    }
  }

  /** What json_parse_object_context does behind a colon. */
  function ValueThen(s: seq<byte>, es: seq<Entry>, key: seq<byte>, room: nat): Parsed {
    match ParseValue(s, room)
    case Failed(f) => Failed(f)
    case Done(v, rest) => AfterMember(rest, SetMember(es, StrKey(key), v), room)
  }

  lemma {:induction false} MemberFault(s: seq<byte>, es: seq<Entry>, key: seq<byte>, room: nat, st: State, limit: nat)
    returns (ts: seq<Token>, at: seq<byte>)
    requires ValueThen(s, es, key, room).Failed? && st.last.Colon? && Inside(st, ObjBegin) && |st.open| + room == limit
    ensures Explains(ValueThen(s, es, key, room).fault, s, st, ts, at, limit)
    decreases |s|, 3
  {
    var p := ParseValue(s, room);
    if p.Failed? {
      ts, at := ValueFault(s, room, st, limit);
    } else {
      var t := ValueIsTree(s, room, p.v, p.rest);
      Balanced(st, t);
      ts, at := AfterMemberFault(p.rest, SetMember(es, StrKey(key), p.v), room, Run(st, Flatten(t)), limit);
      Further(ValueThen(s, es, key, room).fault, s, st, Flatten(t), p.rest, ts, at, limit);
      ts := Flatten(t) + ts;
    }
  }

  lemma {:induction false} AfterMemberFault(s: seq<byte>, es: seq<Entry>, room: nat, st: State, limit: nat)
    returns (ts: seq<Token>, at: seq<byte>)
    requires AfterMember(s, es, room).Failed? && EndsValue(st.last) && Inside(st, ObjBegin) && |st.open| + room == limit
    ensures Explains(AfterMember(s, es, room).fault, s, st, ts, at, limit)
    decreases |s|, 2
  {
    var l := NextToken(s);
    if l.token.Comma? {
      ts, at := MembersFault(l.rest, es, room, After(st, Token.Comma), limit);
      BehindToken(AfterMember(s, es, room).fault, s, st, ts, at, limit);
      ts := [l.token] + ts;
    } else {
      ts, at := [], s;
      Here(ExpectedCommaOrObjEnd, s, st, limit);
    }
  }

  /** Every error of the decoder names a token that does not fit behind the ones before it, or the two NULs in front. */
  lemma FaultIsSo(s: seq<byte>, limit: nat) returns (ts: seq<Token>, at: seq<byte>)
    requires Decode(s, limit).Failed?
    ensures Decode(s, limit).fault == NotUtf8 <==> 2 <= |s| && (s[0] == 0 || s[1] == 0)
    ensures Decode(s, limit).fault != NotUtf8 ==> Explains(Decode(s, limit).fault, s, Start, ts, at, limit)
  {
    ts, at := [], s;
    if !(2 <= |s| && (s[0] == 0 || s[1] == 0)) {
      var p := ParseValue(s, limit);
      if p.Failed? {
        ts, at := ValueFault(s, limit, Start, limit);
      } else {
        var t := ValueIsTree(s, limit, p.v, p.rest);
        Balanced(Start, t);
        Here(ExpectedEnd, p.rest, Run(Start, Flatten(t)), limit);
        Further(ExpectedEnd, s, Start, Flatten(t), p.rest, [], p.rest, limit);
        ts, at := Flatten(t) + [], p.rest;
      }
      NeverNotUtf8(Decode(s, limit).fault, s, ts, at, limit);
    }
  }

  lemma NeverNotUtf8(f: Fault, s: seq<byte>, ts: seq<Token>, at: seq<byte>, limit: nat)
    requires Explains(f, s, Start, ts, at, limit)
    ensures f != NotUtf8
  {
  }

  // ----- strings -----

  /** What a string is refused for stands where it is refused. */
  predicate StringBlames(e: StringError, at: seq<byte>) {
    match e
    case UnexpectedEnd => Peek(at) == 0
    case InvalidEscape => Peek(at) == '\\' as int && (|at| < 2 || at[1] !in Ascii("\"\\/bfnrtu"))
    case InvalidUnicode => 2 <= |at| && at[0] == '\\' as int && at[1] == 'u' as int && UnicodeEscape(at).NoUnit?
  }

  lemma {:induction false} StringFaultIsSo(s: seq<byte>)
    requires StringBody(s).Broken?
    ensures StringBlames(StringBody(s).error, StringBody(s).at)
    decreases |s|
  {
    var c := Peek(s);
    if c == BACKSLASH {
      EscapeFault(s);
    } else if c != 0 {
      StringFaultIsSo(s[1..]);
    }
  }

  lemma {:induction false} EscapeFault(s: seq<byte>)
    requires StringBody(s).Broken? && Peek(s) == BACKSLASH
    ensures StringBlames(StringBody(s).error, StringBody(s).at)
    decreases |s|, 1
  {
    var e := Unescape(Peek(s[1..]));
    ShortEscapes(Peek(s[1..]));
    if e == LOWER_U {
      var u := UnicodeEscape(s);
      if u.Unit? {
        StringFaultIsSo(s[u.consumed..]);
      }
    } else if e != 0 {
      StringFaultIsSo(s[2..]);
    }
  }
}
