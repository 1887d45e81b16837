/** What the encoder writes is one tree of the grammar, for every value that has a text (src/lua_cjson.c:489-698). */
module JsonTrees {
  import opened Bytes
  import opened JsonText
  import opened JsonCodec
  import opened JsonRoundTrip
  import opened JsonGrammar

  // ----- the tree of a value -----

  /** A number key is written as the text of the number, in quotes. */
  function KeyName(key: Key): seq<byte> {
    match key
    case IntKey(n) => DecimalText(n)
    case FracKey(text) => text
    case StrKey(s) => s
    case OtherKey => []
  }

  /** Holes of an array are null. */
  function TreeOf(v: Value, room: nat): Tree
    decreases room, 0
  {
    match v
    case Bool(b) => Tree.Scalar(BooleanToken(b))
    case Num(text) => Tree.Scalar(NumberToken(text))
    case Str(s) => Tree.Scalar(StringToken(s))
    case Table(es) =>
      if room == 0 then List([])
      else if ArrayLength(es).ArrayOf? && ArrayLength(es).n > 0 then List(ItemTrees(Items(es, ArrayLength(es).n), 0, room - 1))
      else Object(MemberTrees(es, 0, room - 1))
    case _ => Tree.Scalar(NullToken)
  }

  function ItemTrees(vs: seq<Value>, j: nat, room: nat): seq<Tree>
    requires j <= |vs|
    decreases room, 1, |vs| - j
  {
    if j == |vs| then [] else [TreeOf(vs[j], room)] + ItemTrees(vs, j + 1, room)
  }

  function MemberTrees(es: seq<Entry>, i: nat, room: nat): seq<Member>
    requires i <= |es|
    decreases room, 1, |es| - i
  {
    if i == |es| then [] else [Member(KeyName(es[i].key), TreeOf(es[i].val, room))] + MemberTrees(es, i + 1, room)
  }

  // ----- numbers as they are written -----

  /** Nothing in the text of a number needs an escape. */
  predicate Bare(text: seq<byte>) {
    forall i :: 0 <= i < |text| ==> Escape(text[i]) == [] && text[i] != 0
  }

  /** Every number has the text of one. */
  predicate Numeric(v: Value) {
    match v
    case Num(text) => IsNumber(text)
    case Table(es) => forall e :: e in es ==> Numeric(e.val) && (e.key.FracKey? ==> Bare(e.key.text))
    case _ => true
  }

  lemma {:induction false} FoundIsNumeric(es: seq<Entry>, n: int)
    requires Numeric(Table(es))
    ensures Numeric(Find(es, n))
  {
    if es != [] && es[0].key != IntKey(n) {
      assert forall e :: e in es[1..] ==> e in es;
      FoundIsNumeric(es[1..], n);
    } else if es != [] {
      assert es[0] in es;
    }
  }

  predicate AllNumeric(vs: seq<Value>) {
    forall i :: 0 <= i < |vs| ==> Numeric(vs[i])
  }

  lemma ItemsAreNumeric(es: seq<Entry>, n: nat)
    requires Numeric(Table(es))
    ensures AllNumeric(Items(es, n))
  {
    forall i | 0 <= i < n
      ensures Numeric(Items(es, n)[i])
    {
      FoundIsNumeric(es, i + 1);
    }
  }

  // ----- keys -----

  lemma {:induction false} DecimalIsBare(n: int)
    ensures Bare(DecimalText(n)) && DecimalText(n) != []
    decreases if n < 0 then 1 - n else n
  {
    if n < 0 {
      DecimalIsBare(-n);
    } else if 10 <= n {
      DecimalIsBare(n / 10);
    }
  }

  lemma {:induction false} BareIsItself(s: seq<byte>)
    requires Bare(s)
    ensures Escaped(s) == s
  {
    if s != [] {
      BareIsItself(s[1..]);
      assert [s[0]] + s[1..] == s;
    }
  }

  /** Every key that has a text is a string and a colon. */
  lemma KeyIsString(key: Key)
    requires key.FracKey? ==> Bare(key.text)
    ensures KeyText(key).Json? ==> KeyText(key).text == Literal(KeyName(key)) + [COLON]
    ensures KeyText(key).Refused? <==> key.OtherKey?
  {
    match key
    case IntKey(n) =>
      DecimalIsBare(n);
      BareIsItself(DecimalText(n));
    case FracKey(text) =>
      BareIsItself(text);
    case _ =>
  }

  // ----- scalars -----

  lemma ScalarIsTree(v: Value, room: nat, e: Encoded, rest: seq<byte>)
    requires !v.Table? && Numeric(v) && e == Encode(v, room) && e.Json? && Delimited(rest)
    ensures Follows(e.text + rest, Flatten(TreeOf(v, room)), rest) && JsonGrammar.Valid(TreeOf(v, room))
  {
    match v
    case Bool(b) => BooleanReads(b, rest); OneToken(e.text + rest, BooleanToken(b), rest);
    case Num(text) => NumberReads(text, rest); OneToken(e.text + rest, NumberToken(text), rest);
    case Str(s) => StringReads(s, rest); OneToken(e.text + rest, StringToken(s), rest);
    case Nil => NullReads(rest); OneToken(e.text + rest, NullToken, rest);
    case Null => NullReads(rest); OneToken(e.text + rest, NullToken, rest);
    case Other =>
  }

  // ----- tables -----

  lemma MarkFollows(c: byte, s: seq<byte>, t: Token, ts: seq<Token>, rest: seq<byte>)
    requires c == OBJ_BEGIN || c == OBJ_END || c == ARR_BEGIN || c == ARR_END || c == COMMA || c == COLON
    requires t == if c == OBJ_BEGIN then ObjBegin else if c == OBJ_END then ObjEnd else if c == ARR_BEGIN then ArrBegin
                  else if c == ARR_END then ArrEnd else if c == COMMA then Token.Comma else Token.Colon
    requires Follows(s, ts, rest)
    ensures Follows([c] + s, [t] + ts, rest)
  {
    MarkReads(c, s);
    assert ([t] + ts)[1..] == ts;
  }

  lemma ItemsStart(vs: seq<Value>, j: nat, room: nat, rest: seq<byte>)
    requires 0 < j <= |vs| && ItemsFrom(vs, j, room).Json?
    ensures Delimited(ItemsFrom(vs, j, room).text + rest)
  {
  }

  lemma MembersStart(es: seq<Entry>, i: nat, room: nat, rest: seq<byte>)
    requires 0 < i <= |es| && MembersFrom(es, i, room).Json?
    ensures Delimited(MembersFrom(es, i, room).text + rest)
  {
  }

  lemma ItemParts(vs: seq<Value>, j: nat, room: nat, t: Encoded) returns (e: Encoded, next: Encoded)
    requires j < |vs| && t == ItemsFrom(vs, j, room) && t.Json?
    ensures e == Encode(vs[j], room) && e.Json? && next == ItemsFrom(vs, j + 1, room) && next.Json?
    ensures t.text == (if j == 0 then [] else [COMMA]) + (e.text + next.text)
  {
    e, next := Encode(vs[j], room), ItemsFrom(vs, j + 1, room);
  }

  lemma MemberParts(es: seq<Entry>, i: nat, room: nat, t: Encoded) returns (key: Encoded, e: Encoded, next: Encoded)
    requires i < |es| && t == MembersFrom(es, i, room) && t.Json?
    ensures key == KeyText(es[i].key) && key.Json? && e == Encode(es[i].val, room) && e.Json?
    ensures next == MembersFrom(es, i + 1, room) && next.Json?
    ensures t.text == (if i == 0 then [] else [COMMA]) + (key.text + (e.text + next.text))
  {
    key, e, next := KeyText(es[i].key), Encode(es[i].val, room), MembersFrom(es, i + 1, room);
  }

  lemma ItemTreesNext(vs: seq<Value>, j: nat, room: nat, trees: seq<Tree>)
    requires j < |vs| && trees == ItemTrees(vs, j, room)
    ensures trees != [] && trees[0] == TreeOf(vs[j], room) && trees[1..] == ItemTrees(vs, j + 1, room)
  {
  }

  lemma MemberTreesNext(es: seq<Entry>, i: nat, room: nat, trees: seq<Member>)
    requires i < |es| && trees == MemberTrees(es, i, room)
    ensures trees != [] && trees[0] == Member(KeyName(es[i].key), TreeOf(es[i].val, room)) && trees[1..] == MemberTrees(es, i + 1, room)
  {
  }

  /** The tokens of the items from j on. */
  function ItemTokens(trees: seq<Tree>, j: nat): seq<Token> {
    if j == 0 then ItemsFlat(trees) else MoreItems(trees)
  }

  function MemberTokens(trees: seq<Member>, i: nat): seq<Token> {
    if i == 0 then MembersFlat(trees) else MoreMembers(trees)
  }

  lemma {:induction false} ItemsAreTree(vs: seq<Value>, j: nat, room: nat, t: Encoded, trees: seq<Tree>, rest: seq<byte>)
    requires j <= |vs| && AllNumeric(vs) && t == ItemsFrom(vs, j, room) && t.Json? && trees == ItemTrees(vs, j, room)
    ensures Follows(t.text + rest, ItemTokens(trees, j), rest) && GoodItems(trees, room)
    decreases room, 2, |vs| - j
  {
    if j == |vs| {
      MarkFollows(ARR_END, rest, ArrEnd, [], rest);
      assert [ArrEnd] + [] == [ArrEnd];
    } else {
      var e, next := ItemParts(vs, j, room, t);
      var tail := next.text + rest;
      ItemTreesNext(vs, j, room, trees);
      ItemsStart(vs, j + 1, room, rest);
      TextIsTree(vs[j], room, e, tail);
      ItemsAreTree(vs, j + 1, room, next, trees[1..], rest);
      FollowsJoin(e.text + tail, Flatten(trees[0]), tail, MoreItems(trees[1..]), rest);
      ItemSeparated(trees, j, e.text, next.text, tail, t.text, rest);
    }
  }

  lemma ItemSeparated(trees: seq<Tree>, j: nat, a: seq<byte>, b: seq<byte>, tail: seq<byte>, text: seq<byte>, rest: seq<byte>)
    requires trees != [] && tail == b + rest && text == (if j == 0 then [] else [COMMA]) + (a + b)
    requires Follows(a + tail, ItemsFlat(trees), rest)
    ensures Follows(text + rest, ItemTokens(trees, j), rest)
  {
    if j == 0 {
      assert text + rest == a + tail;
    } else {
      assert text + rest == [COMMA] + (a + tail);
      MarkFollows(COMMA, a + tail, Token.Comma, ItemsFlat(trees), rest);
      CommaFirst(trees);
    }
  }

  lemma {:induction false} MembersAreTree(es: seq<Entry>, i: nat, room: nat, t: Encoded, trees: seq<Member>, rest: seq<byte>)
    requires i <= |es| && Numeric(Table(es)) && t == MembersFrom(es, i, room) && t.Json? && trees == MemberTrees(es, i, room)
    ensures Follows(t.text + rest, MemberTokens(trees, i), rest) && GoodMembers(trees, room)
    decreases room, 2, |es| - i
  {
    if i == |es| {
      MarkFollows(OBJ_END, rest, ObjEnd, [], rest);
      assert [ObjEnd] + [] == [ObjEnd];
    } else {
      var key, e, next := MemberParts(es, i, room, t);
      var tail := next.text + rest;
      assert es[i] in es;
      MemberTreesNext(es, i, room, trees);
      MembersStart(es, i + 1, room, rest);
      TextIsTree(es[i].val, room, e, tail);
      MembersAreTree(es, i + 1, room, next, trees[1..], rest);
      MemberIsTree(es[i].key, key, e.text, tail, trees[0]);
      FollowsJoin(key.text + (e.text + tail), MemberFlat(trees[0]), tail, MoreMembers(trees[1..]), rest);
      MemberSeparated(trees, i, key.text, e.text, next.text, tail, t.text, rest);
    }
  }

  lemma MemberIsTree(k: Key, key: Encoded, a: seq<byte>, tail: seq<byte>, m: Member)
    requires key == KeyText(k) && key.Json? && (k.FracKey? ==> Bare(k.text)) && m.key == KeyName(k)
    requires Follows(a + tail, Flatten(m.val), tail)
    ensures Follows(key.text + (a + tail), MemberFlat(m), tail)
  {
    KeyIsString(k);
    var s := a + tail;
    KeyReads(m.key, s, Literal(m.key) + [COLON] + s);
    MemberFollows(key.text + s, m, tail);
  }

  lemma MemberSeparated(trees: seq<Member>, i: nat, key: seq<byte>, a: seq<byte>, b: seq<byte>, tail: seq<byte>, text: seq<byte>, rest: seq<byte>)
    requires trees != [] && tail == b + rest && text == (if i == 0 then [] else [COMMA]) + (key + (a + b))
    requires Follows(key + (a + tail), MembersFlat(trees), rest)
    ensures Follows(text + rest, MemberTokens(trees, i), rest)
  {
    var s := key + (a + tail);
    MemberJoins(if i == 0 then [] else [COMMA], key, a, b, text, rest);
    if i > 0 {
      MarkFollows(COMMA, s, Token.Comma, MembersFlat(trees), rest);
      MemberCommaFirst(trees);
    }
  }

  lemma MemberJoins(mark: seq<byte>, key: seq<byte>, a: seq<byte>, b: seq<byte>, text: seq<byte>, rest: seq<byte>)
    requires text == mark + (key + (a + b))
    ensures text + rest == mark + (key + (a + (b + rest)))
    ensures mark == [] ==> text + rest == key + (a + (b + rest))
  {
    assert key + (a + b) + rest == key + (a + (b + rest));
    assert mark + (key + (a + b)) + rest == mark + (key + (a + b) + rest);
  }

  lemma OpenedArray(trees: seq<Tree>, text: seq<byte>, rest: seq<byte>)
    requires Follows(text + rest, ItemsFlat(trees), rest)
    ensures Follows([ARR_BEGIN] + text + rest, Flatten(List(trees)), rest)
  {
    MarkFollows(ARR_BEGIN, text + rest, ArrBegin, ItemsFlat(trees), rest);
    assert [ARR_BEGIN] + text + rest == [ARR_BEGIN] + (text + rest);
  }

  lemma OpenedObject(trees: seq<Member>, text: seq<byte>, rest: seq<byte>)
    requires Follows(text + rest, MembersFlat(trees), rest)
    ensures Follows([OBJ_BEGIN] + text + rest, Flatten(Object(trees)), rest)
  {
    MarkFollows(OBJ_BEGIN, text + rest, ObjBegin, MembersFlat(trees), rest);
    assert [OBJ_BEGIN] + text + rest == [OBJ_BEGIN] + (text + rest);
  }

  /** The text of a value, with a delimiter or nothing behind it, has exactly the tokens of its tree. */
  lemma {:induction false} TextIsTree(v: Value, room: nat, e: Encoded, rest: seq<byte>)
    requires Numeric(v) && e == Encode(v, room) && e.Json? && Delimited(rest)
    ensures Follows(e.text + rest, Flatten(TreeOf(v, room)), rest)
    ensures JsonGrammar.Valid(TreeOf(v, room)) && JsonGrammar.Within(TreeOf(v, room), room)
    decreases room, 1
  {
    if !v.Table? {
      ScalarIsTree(v, room, e, rest);
    } else {
      var es, length := v.entries, ArrayLength(v.entries);
      if length.ArrayOf? && length.n > 0 {
        ArrayIsTree(es, length.n, room, e, rest);
      } else {
        ObjectIsTree(es, room, e, rest);
      }
    }
  }

  lemma {:induction false} ArrayIsTree(es: seq<Entry>, n: nat, room: nat, e: Encoded, rest: seq<byte>)
    requires Numeric(Table(es)) && e == Encode(Table(es), room) && e.Json? && ArrayLength(es) == ArrayOf(n) && 0 < n
    ensures Follows(e.text + rest, Flatten(TreeOf(Table(es), room)), rest)
    ensures JsonGrammar.Valid(TreeOf(Table(es), room)) && JsonGrammar.Within(TreeOf(Table(es), room), room)
    decreases room, 0
  {
    var vs := Items(es, n);
    ItemsAreNumeric(es, n);
    var t := ItemsFrom(vs, 0, room - 1);
    ItemsAreTree(vs, 0, room - 1, t, ItemTrees(vs, 0, room - 1), rest);
    OpenedArray(ItemTrees(vs, 0, room - 1), t.text, rest);
  }

  lemma {:induction false} ObjectIsTree(es: seq<Entry>, room: nat, e: Encoded, rest: seq<byte>)
    requires Numeric(Table(es)) && e == Encode(Table(es), room) && e.Json?
    requires !(ArrayLength(es).ArrayOf? && ArrayLength(es).n > 0)
    ensures Follows(e.text + rest, Flatten(TreeOf(Table(es), room)), rest)
    ensures JsonGrammar.Valid(TreeOf(Table(es), room)) && JsonGrammar.Within(TreeOf(Table(es), room), room)
    decreases room, 0
  {
    var t := MembersFrom(es, 0, room - 1);
    MembersAreTree(es, 0, room - 1, t, MemberTrees(es, 0, room - 1), rest);
    OpenedObject(MemberTrees(es, 0, room - 1), t.text, rest);
  }

  /** So every text of the encoder is decoded, to the meaning of that tree: holes as null, number keys as strings. */
  lemma TextDecodes(v: Value, room: nat, e: Encoded)
    requires Numeric(v) && e == Encode(v, room) && e.Json? && !(2 <= |e.text| && (e.text[0] == 0 || e.text[1] == 0))
    ensures Decode(e.text, room) == Done(Meaning(TreeOf(v, room)), [])
  {
    TextIsTree(v, room, e, []);
    assert e.text + [] == e.text;
    assert NextToken([]).token == End;
    assert Denotes(e.text, TreeOf(v, room), room, Meaning(TreeOf(v, room)), []);
    assert Whole(e.text, TreeOf(v, room), room, Meaning(TreeOf(v, room)));
    DecodesExactly(e.text, room, Meaning(TreeOf(v, room)));
  }
}
