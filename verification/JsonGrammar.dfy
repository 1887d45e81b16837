/** The decoder accepts exactly the JSON grammar over its tokens (section 2 of RFC 8259, src/lua_cjson.c:1113-1288). */
module JsonGrammar {
  import opened Bytes
  import opened JsonText
  import opened JsonCodec

  // ----- the grammar -----

  /** value = scalar / "[" items "]" / "{" members "}". */
  datatype Tree = Scalar(token: Token) | List(items: seq<Tree>) | Object(members: seq<Member>)

  datatype Member = Member(key: seq<byte>, val: Tree)

  predicate IsScalar(t: Token) {
    t.StringToken? || t.NumberToken? || t.BooleanToken? || t.NullToken?
  }

  predicate Valid(t: Tree) {
    match t
    case Scalar(token) => IsScalar(token)
    case List(items) => forall x :: x in items ==> Valid(x)
    case Object(members) => forall m :: m in members ==> Valid(m.val)
  }

  /** The tokens of a value, in order. */
  function Flatten(t: Tree): seq<Token> {
    match t
    case Scalar(token) => [token]
    case List(items) => [ArrBegin] + ItemsFlat(items)
    case Object(members) => [ObjBegin] + MembersFlat(members)
  }

  function ItemsFlat(items: seq<Tree>): seq<Token> {
    if items == [] then [ArrEnd] else Flatten(items[0]) + MoreItems(items[1..])
  }

  function MoreItems(items: seq<Tree>): seq<Token> {
    if items == [] then [ArrEnd] else [Token.Comma] + Flatten(items[0]) + MoreItems(items[1..])
  }

  function MembersFlat(members: seq<Member>): seq<Token> {
    if members == [] then [ObjEnd] else MemberFlat(members[0]) + MoreMembers(members[1..])
  }

  function MoreMembers(members: seq<Member>): seq<Token> {
    if members == [] then [ObjEnd] else [Token.Comma] + MemberFlat(members[0]) + MoreMembers(members[1..])
  }

  function MemberFlat(m: Member): seq<Token> {
    [StringToken(m.key), Token.Colon] + Flatten(m.val)
  }

  /** No more than room arrays and objects inside one another. */
  predicate Within(t: Tree, room: nat)
    decreases t
  {
    match t
    case Scalar(_) => true
    case List(items) => room > 0 && forall x :: x in items ==> Within(x, room - 1)
    case Object(members) => room > 0 && forall m :: m in members ==> Within(m.val, room - 1)
  }

  // ----- what it means -----

  function ScalarValue(t: Token): Value {
    match t
    case StringToken(bytes) => Str(bytes)
    case NumberToken(text) => Num(text)
    case BooleanToken(b) => Bool(b)
    case _ => Null
  }

  /** Items under the keys from 1 on; of several members with one key the last one counts. */
  function Meaning(t: Tree): Value {
    match t
    case Scalar(token) => ScalarValue(token)
    case List(items) => Table(ItemEntries(items, 1))
    case Object(members) => Table(MemberEntries(members, []))
  }

  function ItemEntries(items: seq<Tree>, i: nat): seq<Entry> {
    if items == [] then [] else [Entry(IntKey(i), Meaning(items[0]))] + ItemEntries(items[1..], i + 1)
  }

  function MemberEntries(members: seq<Member>, es: seq<Entry>): seq<Entry> {
    if members == [] then es
    else MemberEntries(members[1..], SetMember(es, StrKey(members[0].key), Meaning(members[0].val)))
  }

  // ----- token by token -----

  /** The tokens at the start of s, and what is left. */
  predicate Follows(s: seq<byte>, ts: seq<Token>, rest: seq<byte>)
    decreases |ts|
  {
    if ts == [] then s == rest else NextToken(s).token == ts[0] && Follows(NextToken(s).rest, ts[1..], rest)
  }

  lemma {:induction false} FollowsJoin(s: seq<byte>, a: seq<Token>, middle: seq<byte>, b: seq<Token>, rest: seq<byte>)
    requires Follows(s, a, middle) && Follows(middle, b, rest)
    ensures Follows(s, a + b, rest)
    decreases |a|
  {
    if a == [] {
      assert a + b == b;
    } else {
      FollowsJoin(NextToken(s).rest, a[1..], middle, b, rest);
      assert (a + b)[1..] == a[1..] + b;
    }
  }

  lemma {:induction false} FollowsSplit(s: seq<byte>, a: seq<Token>, b: seq<Token>, rest: seq<byte>) returns (middle: seq<byte>)
    requires Follows(s, a + b, rest)
    ensures Follows(s, a, middle) && Follows(middle, b, rest)
    decreases |a|
  {
    if a == [] {
      assert a + b == b;
      middle := s;
    } else {
      assert (a + b)[1..] == a[1..] + b && (a + b)[0] == a[0];
      middle := FollowsSplit(NextToken(s).rest, a[1..], b, rest);
    }
  }

  lemma OneToken(s: seq<byte>, t: Token, rest: seq<byte>)
    ensures Follows(s, [t], rest) <==> NextToken(s).token == t && NextToken(s).rest == rest
  {
    assert [t][1..] == [];
    assert Follows(NextToken(s).rest, [], rest) <==> NextToken(s).rest == rest;
  }

  // ----- what is accepted is in the grammar -----

  lemma {:induction false} ValueIsTree(s: seq<byte>, room: nat, v: Value, rest: seq<byte>) returns (t: Tree)
    requires ParseValue(s, room) == Done(v, rest)
    ensures Valid(t) && Within(t, room) && Meaning(t) == v && Follows(s, Flatten(t), rest)
    decreases |s|, 0
  {
    var l := NextToken(s);
    match l.token
    case ObjBegin =>
      var members := ObjectIsTree(l.rest, room - 1, v, rest);
      t := Object(members);
      OneToken(s, ObjBegin, l.rest);
      FollowsJoin(s, [ObjBegin], l.rest, MembersFlat(members), rest);
    case ArrBegin =>
      var items := ArrayIsTree(l.rest, room - 1, v, rest);
      t := List(items);
      OneToken(s, ArrBegin, l.rest);
      FollowsJoin(s, [ArrBegin], l.rest, ItemsFlat(items), rest);
    case _ =>
      t := Scalar(l.token);
      OneToken(s, l.token, l.rest);
  }

  predicate GoodItems(items: seq<Tree>, room: nat) {
    forall x :: x in items ==> Valid(x) && Within(x, room)
  }

  predicate GoodMembers(members: seq<Member>, room: nat) {
    forall m :: m in members ==> Valid(m.val) && Within(m.val, room)
  }

  lemma {:induction false} ArrayIsTree(s: seq<byte>, room: nat, v: Value, rest: seq<byte>) returns (items: seq<Tree>)
    requires ParseArray(s, room) == Done(v, rest)
    ensures GoodItems(items, room) && v == Table(ItemEntries(items, 1)) && Follows(s, ItemsFlat(items), rest)
    decreases |s|, 2
  {
    var l := NextToken(s);
    if l.token == ArrEnd {
      items := [];
      OneToken(s, ArrEnd, rest);
    } else {
      items := ItemsAreTrees(s, 1, [], room, v, rest);
      assert [] + ItemEntries(items, 1) == ItemEntries(items, 1);
    }
  }

  lemma {:induction false} ItemsAreTrees(s: seq<byte>, i: nat, es: seq<Entry>, room: nat, v: Value, rest: seq<byte>) returns (items: seq<Tree>)
    requires ParseItems(s, i, es, room) == Done(v, rest)
    ensures items != [] && GoodItems(items, room) && v == Table(es + ItemEntries(items, i)) && Follows(s, ItemsFlat(items), rest)
    decreases |s|, 1
  {
    var p := ParseValue(s, room);
    var t := ValueIsTree(s, room, p.v, p.rest);
    var e := [Entry(IntKey(i), p.v)];
    var more := MoreAreTrees(p.rest, i + 1, es + e, room, v, rest);
    items := [t] + more;
    assert items[1..] == more;
    FollowsJoin(s, Flatten(t), p.rest, MoreItems(more), rest);
    assert es + e + ItemEntries(more, i + 1) == es + (e + ItemEntries(more, i + 1));
  }

  lemma {:induction false} MoreAreTrees(s: seq<byte>, i: nat, es: seq<Entry>, room: nat, v: Value, rest: seq<byte>) returns (items: seq<Tree>)
    requires AfterItem(s, i, es, room) == Done(v, rest)
    ensures GoodItems(items, room) && v == Table(es + ItemEntries(items, i)) && Follows(s, MoreItems(items), rest)
    decreases |s|, 2
  {
    var l := NextToken(s);
    if l.token == ArrEnd {
      items := [];
      OneToken(s, ArrEnd, rest);
      assert es + [] == es;
    } else {
      items := ItemsAreTrees(l.rest, i, es, room, v, rest);
      OneToken(s, Token.Comma, l.rest);
      FollowsJoin(s, [Token.Comma], l.rest, ItemsFlat(items), rest);
      CommaFirst(items);
    }
  }

  lemma {:induction false} ObjectIsTree(s: seq<byte>, room: nat, v: Value, rest: seq<byte>) returns (members: seq<Member>)
    requires ParseObject(s, room) == Done(v, rest)
    ensures GoodMembers(members, room) && v == Table(MemberEntries(members, [])) && Follows(s, MembersFlat(members), rest)
    decreases |s|, 2
  {
    var l := NextToken(s);
    if l.token == ObjEnd {
      members := [];
      OneToken(s, ObjEnd, rest);
    } else {
      members := MembersAreTrees(s, [], room, v, rest);
    }
  }

  lemma {:induction false} MembersAreTrees(s: seq<byte>, es: seq<Entry>, room: nat, v: Value, rest: seq<byte>) returns (members: seq<Member>)
    requires ParseMembers(s, es, room) == Done(v, rest)
    ensures members != [] && GoodMembers(members, room) && v == Table(MemberEntries(members, es)) && Follows(s, MembersFlat(members), rest)
    decreases |s|, 1
  {
    var l := NextToken(s);
    var c := NextToken(l.rest);
    var p := ParseValue(c.rest, room);
    var t := ValueIsTree(c.rest, room, p.v, p.rest);
    var m := Member(l.token.bytes, t);
    var more := MoreMembersAreTrees(p.rest, SetMember(es, StrKey(m.key), p.v), room, v, rest);
    members := [m] + more;
    assert members[1..] == more;
    MemberFollows(s, m, p.rest);
    FollowsJoin(s, MemberFlat(m), p.rest, MoreMembers(more), rest);
  }

  lemma MemberFollows(s: seq<byte>, m: Member, rest: seq<byte>)
    ensures Follows(s, MemberFlat(m), rest) <==>
      && NextToken(s).token == StringToken(m.key) && NextToken(NextToken(s).rest).token == Token.Colon
      && Follows(NextToken(NextToken(s).rest).rest, Flatten(m.val), rest)
  {
    var ts := MemberFlat(m);
    assert ts[1..] == [Token.Colon] + Flatten(m.val) && ts[1..][1..] == Flatten(m.val);
    assert Follows(NextToken(s).rest, ts[1..], rest) <==>
      NextToken(NextToken(s).rest).token == Token.Colon && Follows(NextToken(NextToken(s).rest).rest, ts[1..][1..], rest);
  }

  lemma {:induction false} MoreMembersAreTrees(s: seq<byte>, es: seq<Entry>, room: nat, v: Value, rest: seq<byte>) returns (members: seq<Member>)
    requires AfterMember(s, es, room) == Done(v, rest)
    ensures GoodMembers(members, room) && v == Table(MemberEntries(members, es)) && Follows(s, MoreMembers(members), rest)
    decreases |s|, 2
  {
    var l := NextToken(s);
    if l.token == ObjEnd {
      members := [];
      OneToken(s, ObjEnd, rest);
    } else {
      members := MembersAreTrees(l.rest, es, room, v, rest);
      OneToken(s, Token.Comma, l.rest);
      FollowsJoin(s, [Token.Comma], l.rest, MembersFlat(members), rest);
      MemberCommaFirst(members);
    }
  }

  // ----- what is in the grammar is accepted -----

  lemma StartsValue(t: Tree)
    requires Valid(t)
    ensures Flatten(t) != [] && Flatten(t)[0] != ArrEnd && Flatten(t)[0] != ObjEnd
  {
  }

  lemma {:induction false} TreeIsValue(t: Tree, s: seq<byte>, room: nat, rest: seq<byte>)
    requires Valid(t) && Within(t, room) && Follows(s, Flatten(t), rest)
    ensures ParseValue(s, room) == Done(Meaning(t), rest)
    decreases t, 0
  {
    match t
    case Scalar(token) =>
      OneToken(s, token, rest);
    case List(items) =>
      var middle := FollowsSplit(s, [ArrBegin], ItemsFlat(items), rest);
      OneToken(s, ArrBegin, middle);
      TreesAreArray(items, middle, room - 1, rest);
    case Object(members) =>
      var middle := FollowsSplit(s, [ObjBegin], MembersFlat(members), rest);
      OneToken(s, ObjBegin, middle);
      TreesAreObject(members, middle, room - 1, rest);
  }

  lemma {:induction false} TreesAreArray(items: seq<Tree>, s: seq<byte>, room: nat, rest: seq<byte>)
    requires GoodItems(items, room) && Follows(s, ItemsFlat(items), rest)
    ensures ParseArray(s, room) == Done(Table(ItemEntries(items, 1)), rest)
    decreases items, 2
  {
    if items == [] {
      OneToken(s, ArrEnd, rest);
    } else {
      StartsValue(items[0]);
      assert ItemsFlat(items)[0] == Flatten(items[0])[0];
      TreesAreItems(items, s, 1, [], room, rest);
      assert [] + ItemEntries(items, 1) == ItemEntries(items, 1);
    }
  }

  lemma {:induction false} TreesAreItems(items: seq<Tree>, s: seq<byte>, i: nat, es: seq<Entry>, room: nat, rest: seq<byte>)
    requires items != [] && GoodItems(items, room) && Follows(s, ItemsFlat(items), rest)
    ensures ParseItems(s, i, es, room) == Done(Table(es + ItemEntries(items, i)), rest)
    decreases items, 1
  {
    var t, more := items[0], items[1..];
    var middle := FollowsSplit(s, Flatten(t), MoreItems(more), rest);
    var e := [Entry(IntKey(i), Meaning(t))];
    TreeIsValue(t, s, room, middle);
    TreesAreMore(more, middle, i + 1, es + e, room, rest);
    assert es + e + ItemEntries(more, i + 1) == es + (e + ItemEntries(more, i + 1));
  }

  lemma CommaFirst(items: seq<Tree>)
    requires items != []
    ensures MoreItems(items) == [Token.Comma] + ItemsFlat(items)
  {
  }

  lemma MemberCommaFirst(members: seq<Member>)
    requires members != []
    ensures MoreMembers(members) == [Token.Comma] + MembersFlat(members)
  {
  }

  lemma ItemBehindComma(s: seq<byte>, i: nat, es: seq<Entry>, room: nat, next: seq<byte>)
    requires NextToken(s) == Lexed(Token.Comma, next)
    ensures AfterItem(s, i, es, room) == ParseItems(next, i, es, room)
  {
  }

  lemma MemberBehindComma(s: seq<byte>, es: seq<Entry>, room: nat, next: seq<byte>)
    requires NextToken(s) == Lexed(Token.Comma, next)
    ensures AfterMember(s, es, room) == ParseMembers(next, es, room)
  {
  }

  lemma {:induction false} TreesAreMore(items: seq<Tree>, s: seq<byte>, i: nat, es: seq<Entry>, room: nat, rest: seq<byte>)
    requires GoodItems(items, room) && Follows(s, MoreItems(items), rest)
    ensures AfterItem(s, i, es, room) == Done(Table(es + ItemEntries(items, i)), rest)
    decreases items, 2
  {
    if items == [] {
      OneToken(s, ArrEnd, rest);
      assert es + [] == es;
    } else {
      CommaFirst(items);
      var middle := FollowsSplit(s, [Token.Comma], ItemsFlat(items), rest);
      OneToken(s, Token.Comma, middle);
      TreesAreItems(items, middle, i, es, room, rest);
      ItemBehindComma(s, i, es, room, middle);
    }
  }

  lemma {:induction false} TreesAreObject(members: seq<Member>, s: seq<byte>, room: nat, rest: seq<byte>)
    requires GoodMembers(members, room) && Follows(s, MembersFlat(members), rest)
    ensures ParseObject(s, room) == Done(Table(MemberEntries(members, [])), rest)
    decreases members, 2
  {
    if members == [] {
      OneToken(s, ObjEnd, rest);
    } else {
      assert MembersFlat(members)[0] == StringToken(members[0].key);
      TreesAreMembers(members, s, [], room, rest);
    }
  }

  lemma {:induction false} TreesAreMembers(members: seq<Member>, s: seq<byte>, es: seq<Entry>, room: nat, rest: seq<byte>)
    requires members != [] && GoodMembers(members, room) && Follows(s, MembersFlat(members), rest)
    ensures ParseMembers(s, es, room) == Done(Table(MemberEntries(members, es)), rest)
    decreases members, 1
  {
    var m, more := members[0], members[1..];
    var middle := FollowsSplit(s, MemberFlat(m), MoreMembers(more), rest);
    MemberFollows(s, m, middle);
    TreeIsValue(m.val, NextToken(NextToken(s).rest).rest, room, middle);
    TreesAreMoreMembers(more, middle, SetMember(es, StrKey(m.key), Meaning(m.val)), room, rest);
  }

  lemma {:induction false} TreesAreMoreMembers(members: seq<Member>, s: seq<byte>, es: seq<Entry>, room: nat, rest: seq<byte>)
    requires GoodMembers(members, room) && Follows(s, MoreMembers(members), rest)
    ensures AfterMember(s, es, room) == Done(Table(MemberEntries(members, es)), rest)
    decreases members, 2
  {
    if members == [] {
      OneToken(s, ObjEnd, rest);
    } else {
      MemberCommaFirst(members);
      var middle := FollowsSplit(s, [Token.Comma], MembersFlat(members), rest);
      OneToken(s, Token.Comma, middle);
      TreesAreMembers(members, middle, es, room, rest);
      MemberBehindComma(s, es, room, middle);
    }
  }

  // ----- the decoder -----

  ghost predicate Denotes(s: seq<byte>, t: Tree, room: nat, v: Value, rest: seq<byte>) {
    Valid(t) && Within(t, room) && Meaning(t) == v && Follows(s, Flatten(t), rest)
  }

  /** A value is read exactly when its tokens are a tree of the grammar, and it is the meaning of that tree. */
  lemma ParsesExactly(s: seq<byte>, room: nat, v: Value, rest: seq<byte>)
    ensures ParseValue(s, room) == Done(v, rest) <==> exists t :: Denotes(s, t, room, v, rest)
  {
    if ParseValue(s, room) == Done(v, rest) {
      var t := ValueIsTree(s, room, v, rest);
      assert Denotes(s, t, room, v, rest);
    }
    if t :| Denotes(s, t, room, v, rest) {
      TreeIsValue(t, s, room, rest);
    }
  }

  ghost predicate Whole(s: seq<byte>, t: Tree, room: nat, v: Value) {
    exists rest :: Denotes(s, t, room, v, rest) && NextToken(rest).token == End
  }

  /** json_decode accepts exactly one value with nothing behind it, unless the text starts as UTF-16 or UTF-32 would. */
  lemma DecodesExactly(s: seq<byte>, room: nat, v: Value)
    ensures Decode(s, room) == Done(v, []) <==>
      !(2 <= |s| && (s[0] == 0 || s[1] == 0)) && exists t :: Whole(s, t, room, v)
  {
    var p := ParseValue(s, room);
    if p.Done? {
      ParsesExactly(s, room, p.v, p.rest);
      if p.v == v && NextToken(p.rest).token == End {
        var t :| Denotes(s, t, room, p.v, p.rest);
        assert Whole(s, t, room, v);
      }
    }
    if t :| Whole(s, t, room, v) {
      var rest :| Denotes(s, t, room, v, rest) && NextToken(rest).token == End;
      ParsesExactly(s, room, v, rest);
    }
  }

  // ----- duplicate keys -----

  /** The value at a string key, nil when there is none. */
  function At(es: seq<Entry>, key: seq<byte>): Value {
    if es == [] then Nil else if es[0].key == StrKey(key) then es[0].val else At(es[1..], key)
  }

  lemma {:induction false} SetThenAt(es: seq<Entry>, name: seq<byte>, v: Value, key: seq<byte>)
    ensures At(SetMember(es, StrKey(name), v), key) == if key == name then v else At(es, key)
  {
    if es != [] && es[0].key != StrKey(name) {
      SetThenAt(es[1..], name, v, key);
      assert ([es[0]] + SetMember(es[1..], StrKey(name), v))[1..] == SetMember(es[1..], StrKey(name), v);
    } else if es != [] {
      assert ([Entry(StrKey(name), v)] + es[1..])[1..] == es[1..];
    }
  }

  /** The last member with a key is the one that counts. */
  lemma {:induction false} LastCounts(members: seq<Member>, es: seq<Entry>, i: nat)
    requires i < |members| && forall j :: i < j < |members| ==> members[j].key != members[i].key
    ensures At(MemberEntries(members, es), members[i].key) == Meaning(members[i].val)
  {
    var m := members[0];
    var longer := SetMember(es, StrKey(m.key), Meaning(m.val));
    if i == 0 {
      SetThenAt(es, m.key, Meaning(m.val), m.key);
      NotSet(members[1..], longer, m.key);
    } else {
      LastCounts(members[1..], longer, i - 1);
    }
  }

  lemma {:induction false} NotSet(members: seq<Member>, es: seq<Entry>, key: seq<byte>)
    requires forall j :: 0 <= j < |members| ==> members[j].key != key
    ensures At(MemberEntries(members, es), key) == At(es, key)
  {
    if members != [] {
      var m := members[0];
      SetThenAt(es, m.key, Meaning(m.val), key);
      NotSet(members[1..], SetMember(es, StrKey(m.key), Meaning(m.val)), key);
    }
  }
}
