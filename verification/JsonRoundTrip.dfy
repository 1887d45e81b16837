/** Decoding the JSON text of a value gives the value back. */
module JsonRoundTrip {
  import opened Bytes
  import opened StringBuffer
  import opened JsonText
  import opened JsonCodec

  // ----- tables that JSON can hold -----

  predicate HasKey(es: seq<Entry>, key: Key) {
    exists i :: 0 <= i < |es| && es[i].key == key
  }

  predicate NoHoles(vs: seq<Value>) {
    forall j :: 0 <= j < |vs| ==> !vs[j].Nil?
  }

  /** The keys are exactly 1 to n. */
  predicate Dense(es: seq<Entry>) {
    && es != [] && (forall i :: 0 <= i < |es| ==> es[i].key.IntKey? && 1 <= es[i].key.n <= |es|)
    && NoHoles(Items(es, |es|))
  }

  predicate StringKeyed(es: seq<Entry>) {
    && (forall i :: 0 <= i < |es| ==> es[i].key.StrKey?)
    && (forall i, j :: 0 <= i < j < |es| ==> es[i].key != es[j].key)
  }

  /** The text of a number: it starts with a minus sign or a digit and strtod takes all of it. */
  predicate IsNumber(t: seq<byte>) {
    t != [] && (t[0] == 0x2d || IsDigit(t[0])) && NumberLength(t) == |t| && CString(t)
  }

  /** What JSON can hold, as deep as room tables nested: dense arrays, string-keyed objects and scalars. */
  predicate Plain(v: Value, room: nat)
    decreases room, 0, 0
  {
    match v
    case Nil => false
    case Other => false
    case Num(text) => IsNumber(text)
    case Table(es) =>
      room == 0 ||
      (if Dense(es) then AllPlain(Items(es, |es|), 0, room - 1) else StringKeyed(es) && MembersPlain(es, 0, room - 1))
    case _ => true
  }

  /** The items from j on. */
  predicate AllPlain(vs: seq<Value>, j: nat, room: nat)
    requires j <= |vs|
    decreases room, 1, |vs| - j
  {
    j == |vs| || (Plain(vs[j], room) && AllPlain(vs, j + 1, room))
  }

  /** The values of the members from i on. */
  predicate MembersPlain(es: seq<Entry>, i: nat, room: nat)
    requires i <= |es|
    decreases room, 1, |es| - i
  {
    i == |es| || (Plain(es[i].val, room) && MembersPlain(es, i + 1, room))
  }

  lemma {:induction false} MaxKeyBounds(es: seq<Entry>)
    requires forall i :: 0 <= i < |es| ==> es[i].key.IntKey? && 1 <= es[i].key.n
    ensures 0 <= MaxKey(es) && forall i :: 0 <= i < |es| ==> es[i].key.n <= MaxKey(es)
    ensures es != [] ==> exists i :: 0 <= i < |es| && es[i].key.n == MaxKey(es)
  {
    if es != [] {
      var front := es[..|es| - 1];
      MaxKeyBounds(front);
      if MaxKey(es) != es[|es| - 1].key.n {
        var i :| 0 <= i < |front| && front[i].key.n == MaxKey(front);
        assert es[i].key.n == MaxKey(es);
      }
    }
  }

  lemma {:induction false} NotArrayKeys(es: seq<Entry>)
    requires exists i :: 0 <= i < |es| && !es[i].key.IntKey?
    ensures MaxKey(es) == -1
  {
    var front := es[..|es| - 1];
    if es[|es| - 1].key.IntKey? {
      var i :| 0 <= i < |es| && !es[i].key.IntKey?;
      assert !front[i].key.IntKey?;
      NotArrayKeys(front);
    }
  }

  lemma {:induction false} FindIsIn(es: seq<Entry>, n: int)
    requires !Find(es, n).Nil?
    ensures exists i :: 0 <= i < |es| && es[i].key == IntKey(n) && es[i].val == Find(es, n)
  {
    if es[0].key == IntKey(n) {
      assert es[0].val == Find(es, n);
    } else {
      FindIsIn(es[1..], n);
      var i :| 0 <= i < |es[1..]| && es[1..][i].key == IntKey(n) && es[1..][i].val == Find(es, n);
      assert es[i + 1].key == IntKey(n);
    }
  }

  lemma DenseLength(es: seq<Entry>)
    requires Dense(es)
    ensures ArrayLength(es) == ArrayOf(|es|)
  {
    MaxKeyBounds(es);
    assert Items(es, |es|)[|es| - 1] == Find(es, |es|);
    FindIsIn(es, |es|);
  }

  lemma StringKeyedLength(es: seq<Entry>)
    requires StringKeyed(es)
    ensures ArrayLength(es) == if es == [] then ArrayOf(0) else NotArray
  {
    if es != [] {
      assert !es[0].key.IntKey?;
      NotArrayKeys(es);
    }
  }

  // ----- what comes back -----

  /** The value read back: arrays in index order. */
  function Canonical(v: Value, room: nat): Value
    decreases room, 0
  {
    if !v.Table? || room == 0 then v
    else if Dense(v.entries) then Table(CanonicalItems(Items(v.entries, |v.entries|), |v.entries|, room - 1))
    else Table(CanonicalMembers(v.entries, |v.entries|, room - 1))
  }

  function CanonicalItems(vs: seq<Value>, j: nat, room: nat): seq<Entry>
    requires j <= |vs|
    decreases room, 1, j
  {
    if j == 0 then [] else CanonicalItems(vs, j - 1, room) + [Entry(IntKey(j), Canonical(vs[j - 1], room))]
  }

  function CanonicalMembers(es: seq<Entry>, i: nat, room: nat): (c: seq<Entry>)
    requires i <= |es|
    ensures |c| == i && forall k :: 0 <= k < i ==> c[k].key == es[k].key
    decreases room, 1, i
  {
    if i == 0 then [] else CanonicalMembers(es, i - 1, room) + [Entry(es[i - 1].key, Canonical(es[i - 1].val, room))]
  }

  // ----- tokens -----

  /** What may follow a value. */
  predicate Delimited(rest: seq<byte>) {
    rest == [] || rest[0] == COMMA || rest[0] == ARR_END || rest[0] == OBJ_END
  }

  lemma {:induction false} DigitsStable(t: seq<byte>, rest: seq<byte>)
    requires rest == [] || !IsDigit(rest[0])
    ensures DigitsLength(t + rest) == DigitsLength(t)
  {
    if t == [] {
      assert t + rest == rest;
    } else {
      assert (t + rest)[1..] == t[1..] + rest;
      DigitsStable(t[1..], rest);
    }
  }

  lemma FractionStable(t: seq<byte>, rest: seq<byte>)
    requires Delimited(rest)
    ensures FractionLength(t + rest) == FractionLength(t)
  {
    if t == [] {
      assert t + rest == rest;
    } else {
      assert (t + rest)[1..] == t[1..] + rest;
      DigitsStable(t[1..], rest);
    }
  }

  lemma ExponentStable(t: seq<byte>, rest: seq<byte>)
    requires Delimited(rest)
    ensures ExponentLength(t + rest) == ExponentLength(t)
  {
    if t == [] {
      assert t + rest == rest;
    } else {
      assert (t + rest)[1..] == t[1..] + rest;
      DigitsStable(t[1..], rest);
      if 1 < |t| {
        assert (t + rest)[2..] == t[2..] + rest;
        DigitsStable(t[2..], rest);
      } else {
        assert t[1..] == [];
      }
    }
  }

  lemma WholeStable(t: seq<byte>, rest: seq<byte>)
    requires Delimited(rest)
    ensures SignLength(t + rest) == SignLength(t) && WholeEnd(t + rest) == WholeEnd(t)
  {
    var a := SignLength(t);
    assert SignLength(t + rest) == a;
    assert (t + rest)[a..] == t[a..] + rest;
    DigitsStable(t[a..], rest);
  }

  lemma MantissaStable(t: seq<byte>, rest: seq<byte>)
    requires Delimited(rest)
    ensures MantissaEnd(t + rest) == MantissaEnd(t)
  {
    var b := WholeEnd(t);
    WholeStable(t, rest);
    assert (t + rest)[b..] == t[b..] + rest;
    FractionStable(t[b..], rest);
  }

  lemma NumberStable(t: seq<byte>, rest: seq<byte>)
    requires Delimited(rest)
    ensures NumberLength(t + rest) == NumberLength(t)
  {
    var m := MantissaEnd(t);
    WholeStable(t, rest);
    MantissaStable(t, rest);
    assert (t + rest)[m..] == t[m..] + rest;
    ExponentStable(t[m..], rest);
  }

  lemma NumberReads(t: seq<byte>, rest: seq<byte>)
    requires IsNumber(t) && Delimited(rest)
    ensures NextToken(t + rest) == Lexed(NumberToken(t), rest)
  {
    NumberStable(t, rest);
    NumberTokenIs(t + rest, |t|);
    assert (t + rest)[..|t|] == t && (t + rest)[|t|..] == rest;
  }

  lemma NumberTokenIs(s: seq<byte>, n: nat)
    requires s != [] && (s[0] == 0x2d || IsDigit(s[0])) && NumberLength(s) == n && 0 < n
    ensures NextToken(s) == Lexed(NumberToken(s[..n]), s[n..])
  {
  }

  lemma StringTokenIs(s: seq<byte>, b: StringToken)
    requires s != [] && s[0] == QUOTE && b == StringBody(s[1..]) && b.Text?
    ensures NextToken(s) == Lexed(StringToken(b.bytes), b.rest)
  {
    assert Peek(s) == QUOTE && !IsSpace(QUOTE);
    assert TokenAt(s) == Lexed(StringToken(b.bytes), b.rest);
  }

  lemma StringReads(s: seq<byte>, rest: seq<byte>)
    ensures NextToken(Literal(s) + rest) == Lexed(StringToken(s), rest)
  {
    var t := Literal(s) + rest;
    var body := Escaped(s) + [QUOTE] + rest;
    assert t[1..] == body;
    LiteralReads(s, rest);
    StringTokenIs(t, StringBody(body));
  }

  lemma BooleanReads(b: bool, rest: seq<byte>)
    ensures NextToken((if b then TRUE else FALSE) + rest) == Lexed(BooleanToken(b), rest)
  {
    if b {
      assert TRUE <= TRUE + rest && (TRUE + rest)[4..] == rest;
    } else {
      assert FALSE <= FALSE + rest && (FALSE + rest)[5..] == rest;
    }
  }

  lemma NullReads(rest: seq<byte>)
    ensures NextToken(NULL + rest) == Lexed(NullToken, rest)
  {
    assert NULL <= NULL + rest && (NULL + rest)[4..] == rest;
  }

  /** Punctuation is a token of one character. */
  lemma MarkReads(c: byte, rest: seq<byte>)
    requires c == OBJ_BEGIN || c == OBJ_END || c == ARR_BEGIN || c == ARR_END || c == COMMA || c == COLON
    ensures NextToken([c] + rest).rest == rest
    ensures NextToken([c] + rest).token ==
      if c == OBJ_BEGIN then ObjBegin else if c == OBJ_END then ObjEnd else if c == ARR_BEGIN then ArrBegin
      else if c == ARR_END then ArrEnd else if c == COMMA then Comma else Colon
  {
    assert ([c] + rest)[1..] == rest;
  }

  /** The value a token stands for on its own. */
  function TokenValue(t: Token): Value {
    match t
    case StringToken(bytes) => Str(bytes)
    case NumberToken(text) => Num(text)
    case BooleanToken(b) => Bool(b)
    case NullToken => Null
    case _ => Nil
  }

  lemma TokenParses(s: seq<byte>, room: nat, l: Lexed)
    requires l == NextToken(s) && !TokenValue(l.token).Nil?
    ensures ParseValue(s, room) == Done(TokenValue(l.token), l.rest)
  {
  }

  lemma NumberParses(text: seq<byte>, room: nat, rest: seq<byte>)
    requires IsNumber(text) && Delimited(rest)
    ensures ParseValue(text + rest, room) == Done(Num(text), rest)
  {
    NumberReads(text, rest);
    TokenParses(text + rest, room, Lexed(NumberToken(text), rest));
  }

  lemma StringParses(s: seq<byte>, room: nat, rest: seq<byte>)
    ensures ParseValue(Literal(s) + rest, room) == Done(Str(s), rest)
  {
    StringReads(s, rest);
    TokenParses(Literal(s) + rest, room, Lexed(StringToken(s), rest));
  }

  lemma ScalarReads(v: Value, room: nat, rest: seq<byte>, e: Encoded)
    requires Plain(v, room) && !v.Table? && Delimited(rest) && e == Encode(v, room)
    ensures e.Json? && e.text != [] && ParseValue(e.text + rest, room) == Done(v, rest)
  {
    match v
    case Bool(b) => BooleanReads(b, rest); TokenParses(e.text + rest, room, Lexed(BooleanToken(b), rest));
    case Null => NullReads(rest); TokenParses(e.text + rest, room, Lexed(NullToken, rest));
    case Num(text) => NumberParses(text, room, rest);
    case Str(s) => StringParses(s, room, rest);
  }

  // ----- arrays -----

  lemma AfterComma(s: seq<byte>, t: seq<byte>, i: nat, es: seq<Entry>, room: nat, d: Parsed)
    requires d == ParseItems(s, i, es, room) && t == [COMMA] + s
    ensures d == AfterItem(t, i, es, room)
  {
    MarkReads(COMMA, s);
  }

  lemma AfterLast(rest: seq<byte>, t: seq<byte>, i: nat, es: seq<Entry>, room: nat)
    requires t == [ARR_END] + rest
    ensures AfterItem(t, i, es, room) == Done(Table(es), rest)
  {
    MarkReads(ARR_END, rest);
  }

  lemma ItemsStep(s: seq<byte>, i: nat, es: seq<Entry>, longer: seq<Entry>, room: nat, p: Parsed, d: Parsed)
    requires p == ParseValue(s, room) && p.Done? && longer == es + [Entry(IntKey(i), p.v)] && d == AfterItem(p.rest, i + 1, longer, room)
    ensures d == ParseItems(s, i, es, room)
  {
  }

  lemma ItemsUnfold(vs: seq<Value>, j: nat, room: nat, body: Encoded, next: Encoded, tail: Encoded)
    requires 0 < j < |vs| && body == Then(Encode(vs[j], room), next) && next == ItemsFrom(vs, j + 1, room)
    requires tail == ItemsFrom(vs, j, room)
    ensures tail == Then(Json([COMMA]), body)
  {
  }

  lemma CanonicalNext(vs: seq<Value>, j: nat, room: nat, c: seq<Entry>, v: Value, longer: seq<Entry>)
    requires j < |vs| && c == CanonicalItems(vs, j, room) && v == Canonical(vs[j], room) && longer == CanonicalItems(vs, j + 1, room)
    ensures longer == c + [Entry(IntKey(j + 1), v)]
  {
  }

  /** The text of e, with rest behind it. */
  function Behind(e: Encoded, rest: seq<byte>): seq<byte> {
    if e.Json? then e.text + rest else rest
  }

  lemma BehindThen(a: Encoded, b: Encoded, c: Encoded, rest: seq<byte>)
    requires c == Then(a, b)
    ensures c.Json? <==> a.Json? && b.Json?
    ensures c.Json? ==> Behind(c, rest) == a.text + Behind(b, rest)
  {
    if c.Json? {
      assert a.text + b.text + rest == a.text + (b.text + rest);
    }
  }

  lemma TailStep(vs: seq<Value>, j: nat, room: nat, rest: seq<byte>, body: Encoded, next: Encoded, tail: Encoded,
                 s: seq<byte>, t: seq<byte>, c: seq<Entry>, d: Parsed)
    requires 0 < j < |vs| && body == Then(Encode(vs[j], room), next) && next == ItemsFrom(vs, j + 1, room)
    requires tail == ItemsFrom(vs, j, room) && s == Behind(body, rest) && t == Behind(tail, rest)
    requires body.Json? ==> d == ParseItems(s, j + 1, c, room)
    ensures tail.Json? ==> body.Json? && Delimited(t) && d == AfterItem(t, j + 1, c, room)
  {
    ItemsUnfold(vs, j, room, body, next, tail);
    BehindThen(Json([COMMA]), body, tail, rest);
    if tail.Json? {
      AfterComma(s, t, j + 1, c, room, d);
    }
  }

  /** The text from item j on, read after the items before it. */
  lemma {:induction false} TailRoundTrip(vs: seq<Value>, j: nat, room: nat, rest: seq<byte>, full: seq<Entry>)
    returns (tail: Encoded, t: seq<byte>, c: seq<Entry>, d: Parsed)
    requires 1 <= j <= |vs| && AllPlain(vs, j, room) && full == CanonicalItems(vs, |vs|, room)
    ensures tail == ItemsFrom(vs, j, room) && t == Behind(tail, rest) && c == CanonicalItems(vs, j, room)
    ensures tail.Json? ==> Delimited(t) && d == AfterItem(t, j + 1, c, room) && d == Done(Table(full), rest)
    decreases room, 1, |vs| - j, 1
  {
    tail := ItemsFrom(vs, j, room);
    t, c := Behind(tail, rest), CanonicalItems(vs, j, room);
    if j == |vs| {
      AfterLast(rest, t, j + 1, c, room);
      d := Done(Table(full), rest);
    } else {
      var body, next, s, same;
      body, next, s, same, d := BodyRoundTrip(vs, j, room, rest, full);
      TailStep(vs, j, room, rest, body, next, tail, s, t, c, d);
    }
  }

  /** An item that parses, and what AfterItem makes of the text behind it. */
  lemma BodyStep(item: Encoded, next: Encoded, body: Encoded, rest: seq<byte>, s: seq<byte>, t: seq<byte>,
                 i: nat, c: seq<Entry>, longer: seq<Entry>, room: nat, p: Parsed, d: Parsed)
    requires body == Then(item, next) && body.Json? && s == Behind(body, rest) && t == Behind(next, rest)
    requires p == ParseValue(item.text + t, room) && p.Done? && p.rest == t && longer == c + [Entry(IntKey(i), p.v)]
    requires d == AfterItem(t, i + 1, longer, room)
    ensures d == ParseItems(s, i, c, room)
  {
    BehindThen(item, next, body, rest);
    ItemsStep(s, i, c, longer, room, p, d);
  }

  /** Item j and the text after it, read at the item. */
  lemma {:induction false} BodyRoundTrip(vs: seq<Value>, j: nat, room: nat, rest: seq<byte>, full: seq<Entry>)
    returns (body: Encoded, next: Encoded, s: seq<byte>, c: seq<Entry>, d: Parsed)
    requires j < |vs| && AllPlain(vs, j, room) && full == CanonicalItems(vs, |vs|, room)
    ensures body == Then(Encode(vs[j], room), next) && next == ItemsFrom(vs, j + 1, room)
    ensures s == Behind(body, rest) && c == CanonicalItems(vs, j, room)
    ensures body.Json? ==> d == ParseItems(s, j + 1, c, room) && d == Done(Table(full), rest)
    decreases room, 1, |vs| - j, 0
  {
    var t, longer;
    next, t, longer, d := TailRoundTrip(vs, j + 1, room, rest, full);
    var item := Encode(vs[j], room);
    body := Then(item, next);
    s, c := Behind(body, rest), CanonicalItems(vs, j, room);
    if body.Json? {
      var same, p := RoundTrip(vs[j], room, t);
      CanonicalNext(vs, j, room, c, p.v, longer);
      BodyStep(item, next, body, rest, s, t, j + 1, c, longer, room, p, d);
    }
  }

  /** Anything but a closing bracket after the opening one is the first item. */
  lemma OpensArray(s: seq<byte>, t: seq<byte>, room: nat, d: Parsed)
    requires d == ParseItems(s, 1, [], room) && d.Done? && t == [ARR_BEGIN] + s
    ensures ParseValue(t, room + 1) == d
  {
    MarkReads(ARR_BEGIN, s);
  }

  lemma ArrayText(es: seq<Entry>, room: nat, vs: seq<Value>, e: Encoded)
    requires Dense(es) && e == Encode(Table(es), room + 1) && vs == Items(es, |es|)
    ensures vs != [] && e == Then(Json([ARR_BEGIN]), ItemsFrom(vs, 0, room))
  {
    DenseLength(es);
  }

  lemma FirstItem(vs: seq<Value>, room: nat, body: Encoded, whole: Encoded)
    requires vs != [] && body == Then(Encode(vs[0], room), ItemsFrom(vs, 1, room)) && whole == ItemsFrom(vs, 0, room)
    ensures whole == body
  {
    assert body.Json? ==> [] + body.text == body.text;
  }

  lemma {:induction false} ArrayRoundTrip(vs: seq<Value>, room: nat, rest: seq<byte>, e: Encoded) returns (p: Parsed)
    requires vs != [] && AllPlain(vs, 0, room) && e == Then(Json([ARR_BEGIN]), ItemsFrom(vs, 0, room))
    ensures e.Json? ==> e.text != [] && p == ParseValue(e.text + rest, room + 1)
    ensures e.Json? ==> p == Done(Table(CanonicalItems(vs, |vs|, room)), rest)
    decreases room, 1, |vs|, 1
  {
    var body, next, s, c;
    body, next, s, c, p := BodyRoundTrip(vs, 0, room, rest, CanonicalItems(vs, |vs|, room));
    FirstItem(vs, room, body, ItemsFrom(vs, 0, room));
    BehindThen(Json([ARR_BEGIN]), body, e, rest);
    if e.Json? {
      OpensArray(s, e.text + rest, room, p);
    }
  }

  // ----- objects -----

  lemma AfterMemberComma(s: seq<byte>, t: seq<byte>, es: seq<Entry>, room: nat, d: Parsed)
    requires d == ParseMembers(s, es, room) && t == [COMMA] + s
    ensures d == AfterMember(t, es, room)
  {
    MarkReads(COMMA, s);
  }

  lemma AfterLastMember(rest: seq<byte>, t: seq<byte>, es: seq<Entry>, room: nat)
    requires t == [OBJ_END] + rest
    ensures AfterMember(t, es, room) == Done(Table(es), rest)
  {
    MarkReads(OBJ_END, rest);
  }

  lemma {:induction false} SetAppends(es: seq<Entry>, key: Key, val: Value)
    requires !HasKey(es, key)
    ensures SetMember(es, key, val) == es + [Entry(key, val)]
  {
    if es != [] {
      assert es[0].key != key;
      assert forall i :: 0 <= i < |es[1..]| ==> es[1..][i] == es[i + 1];
      SetAppends(es[1..], key, val);
      assert [es[0]] + (es[1..] + [Entry(key, val)]) == es + [Entry(key, val)];
    }
  }

  lemma KeyReads(key: seq<byte>, s: seq<byte>, t: seq<byte>)
    requires t == Literal(key) + [COLON] + s
    ensures NextToken(t) == Lexed(StringToken(key), [COLON] + s) && NextToken([COLON] + s) == Lexed(Colon, s)
  {
    ColonReads(s);
    StringReads(key, [COLON] + s);
    assert t == Literal(key) + ([COLON] + s);
  }

  lemma ColonReads(s: seq<byte>)
    ensures NextToken([COLON] + s) == Lexed(Colon, s)
  {
    MarkReads(COLON, s);
  }

  lemma MembersStep(key: seq<byte>, s: seq<byte>, t: seq<byte>, es: seq<Entry>, longer: seq<Entry>, room: nat, p: Parsed, d: Parsed)
    requires p == ParseValue(s, room) && p.Done? && !HasKey(es, StrKey(key)) && longer == es + [Entry(StrKey(key), p.v)]
    requires d == AfterMember(p.rest, longer, room) && t == Literal(key) + [COLON] + s
    ensures d == ParseMembers(t, es, room)
  {
    KeyReads(key, s, t);
    SetAppends(es, StrKey(key), p.v);
  }

  lemma MembersUnfold(es: seq<Entry>, i: nat, room: nat, body: Encoded, next: Encoded, tail: Encoded)
    requires 0 < i < |es| && body == Then(KeyText(es[i].key), Then(Encode(es[i].val, room), next)) && next == MembersFrom(es, i + 1, room)
    requires tail == MembersFrom(es, i, room)
    ensures tail == Then(Json([COMMA]), body)
  {
  }

  lemma MembersNext(es: seq<Entry>, i: nat, room: nat, c: seq<Entry>, v: Value, longer: seq<Entry>)
    requires i < |es| && c == CanonicalMembers(es, i, room) && v == Canonical(es[i].val, room)
    requires longer == CanonicalMembers(es, i + 1, room)
    ensures longer == c + [Entry(es[i].key, v)]
  {
  }

  lemma ObjectText(es: seq<Entry>, room: nat, e: Encoded)
    requires StringKeyed(es) && e == Encode(Table(es), room + 1)
    ensures e == Then(Json([OBJ_BEGIN]), MembersFrom(es, 0, room))
  {
    StringKeyedLength(es);
  }

  lemma NewMember(es: seq<Entry>, i: nat, c: seq<Entry>)
    requires StringKeyed(es) && i < |es| && |c| == i && forall k :: 0 <= k < i ==> c[k].key == es[k].key
    ensures !HasKey(c, es[i].key)
  {
  }

  /** The text from member i on, read after the members before it. */
  lemma {:induction false} MembersTail(es: seq<Entry>, i: nat, room: nat, rest: seq<byte>, full: seq<Entry>)
    returns (tail: Encoded, t: seq<byte>, c: seq<Entry>, d: Parsed)
    requires StringKeyed(es) && 1 <= i <= |es| && MembersPlain(es, i, room) && full == CanonicalMembers(es, |es|, room)
    ensures tail == MembersFrom(es, i, room) && t == Behind(tail, rest) && c == CanonicalMembers(es, i, room)
    ensures tail.Json? ==> Delimited(t) && d == AfterMember(t, c, room) && d == Done(Table(full), rest)
    decreases room, 1, |es| - i, 1
  {
    tail := MembersFrom(es, i, room);
    t, c := Behind(tail, rest), CanonicalMembers(es, i, room);
    if i == |es| {
      AfterLastMember(rest, t, c, room);
      d := Done(Table(full), rest);
    } else {
      var body, next, s, same;
      body, next, s, same, d := MembersBody(es, i, room, rest, full);
      MembersUnfold(es, i, room, body, next, tail);
      BehindThen(Json([COMMA]), body, tail, rest);
      if tail.Json? {
        AfterMemberComma(s, t, c, room, d);
      }
    }
  }

  /** A member whose value parses, and what AfterMember makes of the text behind it. */
  lemma MemberStep(key: seq<byte>, value: Encoded, next: Encoded, body: Encoded, rest: seq<byte>, s: seq<byte>, t: seq<byte>,
                   c: seq<Entry>, longer: seq<Entry>, room: nat, p: Parsed, d: Parsed)
    requires body == Then(Json(Literal(key) + [COLON]), Then(value, next)) && body.Json? && s == Behind(body, rest) && t == Behind(next, rest)
    requires p == ParseValue(value.text + t, room) && p.Done? && p.rest == t && !HasKey(c, StrKey(key))
    requires longer == c + [Entry(StrKey(key), p.v)] && d == AfterMember(t, longer, room)
    ensures d == ParseMembers(s, c, room)
  {
    var pair := Then(value, next);
    BehindThen(value, next, pair, rest);
    BehindThen(Json(Literal(key) + [COLON]), pair, body, rest);
    MembersStep(key, Behind(pair, rest), s, c, longer, room, p, d);
  }

  /** Member i and the text after it, read at its key. */
  lemma {:induction false} MembersBody(es: seq<Entry>, i: nat, room: nat, rest: seq<byte>, full: seq<Entry>)
    returns (body: Encoded, next: Encoded, s: seq<byte>, c: seq<Entry>, d: Parsed)
    requires StringKeyed(es) && i < |es| && MembersPlain(es, i, room) && full == CanonicalMembers(es, |es|, room)
    ensures body == Then(KeyText(es[i].key), Then(Encode(es[i].val, room), next)) && next == MembersFrom(es, i + 1, room)
    ensures s == Behind(body, rest) && c == CanonicalMembers(es, i, room)
    ensures body.Json? ==> d == ParseMembers(s, c, room) && d == Done(Table(full), rest)
    decreases room, 1, |es| - i, 0
  {
    var t, longer;
    next, t, longer, d := MembersTail(es, i + 1, room, rest, full);
    var value := Encode(es[i].val, room);
    body := Then(KeyText(es[i].key), Then(value, next));
    s, c := Behind(body, rest), CanonicalMembers(es, i, room);
    if body.Json? {
      var same, p := RoundTrip(es[i].val, room, t);
      MembersNext(es, i, room, c, p.v, longer);
      NewMember(es, i, c);
      MemberStep(es[i].key.s, value, next, body, rest, s, t, c, longer, room, p, d);
    }
  }

  lemma OpensObject(s: seq<byte>, t: seq<byte>, room: nat, d: Parsed)
    requires d == ParseMembers(s, [], room) && d.Done? && t == [OBJ_BEGIN] + s
    ensures ParseValue(t, room + 1) == d
  {
    MarkReads(OBJ_BEGIN, s);
  }

  lemma FirstMember(es: seq<Entry>, room: nat, body: Encoded, whole: Encoded)
    requires es != [] && body == Then(KeyText(es[0].key), Then(Encode(es[0].val, room), MembersFrom(es, 1, room)))
    requires whole == MembersFrom(es, 0, room)
    ensures whole == body
  {
    assert body.Json? ==> [] + body.text == body.text;
  }

  lemma {:induction false} ObjectRoundTrip(es: seq<Entry>, room: nat, rest: seq<byte>, e: Encoded) returns (p: Parsed)
    requires StringKeyed(es) && es != [] && MembersPlain(es, 0, room) && e == Then(Json([OBJ_BEGIN]), MembersFrom(es, 0, room))
    ensures e.Json? ==> e.text != [] && p == ParseValue(e.text + rest, room + 1)
    ensures e.Json? ==> p == Done(Table(CanonicalMembers(es, |es|, room)), rest)
    decreases room, 1, |es|, 1
  {
    var body, next, s, c;
    body, next, s, c, p := MembersBody(es, 0, room, rest, CanonicalMembers(es, |es|, room));
    FirstMember(es, room, body, MembersFrom(es, 0, room));
    BehindThen(Json([OBJ_BEGIN]), body, e, rest);
    if e.Json? {
      OpensObject(s, e.text + rest, room, p);
    }
  }

  lemma EmptyReads(room: nat, rest: seq<byte>, e: Encoded) returns (p: Parsed)
    requires e == Then(Json([OBJ_BEGIN]), MembersFrom([], 0, room))
    ensures e == Json([OBJ_BEGIN, OBJ_END]) && p == ParseValue(e.text + rest, room + 1) && p == Done(Table([]), rest)
  {
    p := Done(Table([]), rest);
    assert [OBJ_BEGIN] + [OBJ_END] == [OBJ_BEGIN, OBJ_END];
    assert [OBJ_BEGIN, OBJ_END] + rest == [OBJ_BEGIN] + ([OBJ_END] + rest);
    MarkReads(OBJ_BEGIN, [OBJ_END] + rest);
    MarkReads(OBJ_END, rest);
  }

  /** The two shapes of a plain table: its items or its members, and its text. */
  lemma Shape(v: Value, room: nat, e: Encoded, c: Value) returns (dense: bool, vs: seq<Value>)
    requires v.Table? && Plain(v, room + 1) && e == Encode(v, room + 1) && c == Canonical(v, room + 1)
    ensures dense ==> vs != [] && AllPlain(vs, 0, room) && e == Then(Json([ARR_BEGIN]), ItemsFrom(vs, 0, room))
    ensures dense ==> c == Table(CanonicalItems(vs, |vs|, room))
    ensures !dense ==> StringKeyed(v.entries) && MembersPlain(v.entries, 0, room)
    ensures !dense ==> e == Then(Json([OBJ_BEGIN]), MembersFrom(v.entries, 0, room))
    ensures !dense ==> c == Table(CanonicalMembers(v.entries, |v.entries|, room))
  {
    dense, vs := Dense(v.entries), Items(v.entries, |v.entries|);
    if dense {
      ArrayText(v.entries, room, vs, e);
    } else {
      ObjectText(v.entries, room, e);
    }
  }

  /**
    The text of every plain value the encoder accepts parses back to the value, under the same
    depth limit, and leaves exactly what follows it.
   */
  lemma {:induction false} RoundTrip(v: Value, room: nat, rest: seq<byte>) returns (e: Encoded, p: Parsed)
    requires Plain(v, room) && Delimited(rest)
    ensures e == Encode(v, room)
    ensures e.Json? ==> e.text != [] && p == ParseValue(e.text + rest, room) && p == Done(Canonical(v, room), rest)
    decreases room, 0
  {
    e := Encode(v, room);
    p := Done(Canonical(v, room), rest);
    if !v.Table? {
      ScalarReads(v, room, rest, e);
    } else if room != 0 {
      p := TableRoundTrip(v, room - 1, rest, e, p.v);
    }
  }

  lemma {:induction false} TableRoundTrip(v: Value, room: nat, rest: seq<byte>, e: Encoded, c: Value) returns (p: Parsed)
    requires v.Table? && Plain(v, room + 1) && Delimited(rest) && e == Encode(v, room + 1) && c == Canonical(v, room + 1)
    ensures e.Json? ==> e.text != [] && p == ParseValue(e.text + rest, room + 1) && p == Done(c, rest)
    decreases room, 2
  {
    var dense, vs := Shape(v, room, e, c);
    if dense {
      p := ArrayRoundTrip(vs, room, rest, e);
    } else if v.entries == [] {
      p := EmptyReads(room, rest, e);
    } else {
      p := ObjectRoundTrip(v.entries, room, rest, e);
    }
  }
}
