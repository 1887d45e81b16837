/** The recursive encoder, appending to a shared string buffer (src/lua_cjson.c:462-698). */
module JsonEncoder {
  import opened Bytes
  import opened StringBuffer
  import opened JsonText
  import opened JsonCodec

  lemma {:induction false} EscapedAppend(s: seq<byte>, c: byte)
    ensures Escaped(s + [c]) == Escaped(s) + (if Escape(c) == [] then [c] else Escape(c))
  {
    var e := if Escape(c) == [] then [c] else Escape(c);
    if s == [] {
      assert [] + [c] == [c];
      assert Escaped([c]) == e + Escaped([c][1..]);
      assert e + [] == e && [] + e == e;
    } else {
      var f := if Escape(s[0]) == [] then [s[0]] else Escape(s[0]);
      assert (s + [c])[1..] == s[1..] + [c];
      EscapedAppend(s[1..], c);
      assert f + (Escaped(s[1..]) + e) == f + Escaped(s[1..]) + e;
    }
  }

  /** One character of a string, escaped where the table says so. */
  method AppendEscaped(json: Buffer, c: byte)
    requires json.Valid()
    modifies json, json.buf
    ensures json.Valid() && (json.buf == old(json.buf) || fresh(json.buf))
    ensures json.Contents() == old(json.Contents()) + (if Escape(c) == [] then [c] else Escape(c))
  {
    var escstr := Escape(c);
    if |escstr| != 0 {
      json.AppendString(escstr);
    } else {
      json.AppendChar(c);
    }
  }

  method AppendNext(json: Buffer, str: seq<byte>, i: nat, ghost start: seq<byte>)
    requires json.Valid() && i < |str| && json.Contents() == start + Escaped(str[..i])
    modifies json, json.buf
    ensures json.Valid() && (json.buf == old(json.buf) || fresh(json.buf)) && json.Contents() == start + Escaped(str[..i + 1])
  {
    ghost var before := Escaped(str[..i]);
    EscapedAppend(str[..i], str[i]);
    assert str[..i + 1] == str[..i] + [str[i]];
    AppendEscaped(json, str[i]);
    ghost var e := if Escape(str[i]) == [] then [str[i]] else Escape(str[i]);
    ThreeParts(start, before, e);
  }

  lemma ThreeParts(a: seq<byte>, b: seq<byte>, c: seq<byte>)
    ensures a + b + c == a + (b + c)
  {
  }

  method AppendAll(json: Buffer, str: seq<byte>, ghost start: seq<byte>)
    requires json.Valid() && json.Contents() == start
    modifies json, json.buf
    ensures json.Valid() && (json.buf == old(json.buf) || fresh(json.buf)) && json.Contents() == start + Escaped(str)
  {
    assert start == start + Escaped(str[..0]);
    for i := 0 to |str|
      invariant json.Valid() && (json.buf == old(json.buf) || fresh(json.buf)) && json.Contents() == start + Escaped(str[..i])
    {
      AppendNext(json, str, i, start);
    }
    assert str[..|str|] == str;
  }

  lemma LiteralParts(before: seq<byte>, str: seq<byte>, body: seq<byte>)
    requires body == Escaped(str)
    ensures before + [QUOTE] + body + [QUOTE] == before + Literal(str)
  {
  }

  /** json_append_string. The unchecked first quote is covered by the room asked for just before. */
  method AppendStringLiteral(json: Buffer, str: seq<byte>)
    requires json.Valid()
    modifies json, json.buf
    ensures json.Valid() && (json.buf == old(json.buf) || fresh(json.buf))
    ensures json.Contents() == old(json.Contents()) + Literal(str)
  {
    LiteralParts(json.Contents(), str, Escaped(str));
    json.EnsureEmptyLength(|str| + 2);
    json.AppendCharUnsafe(QUOTE);
    AppendAll(json, str, json.Contents());
    json.AppendChar(QUOTE);
  }

  /** lua_array_length: -1 for an object. */
  method LuaArrayLength(es: seq<Entry>) returns (len: int, sparse: bool)
    ensures ArrayLength(es) == if sparse then TooSparse else if len == -1 then NotArray else if 0 <= len then ArrayOf(len) else TooSparse
    ensures -1 <= len
  {
    var max, items := 0, 0;
    sparse := false;
    while items < |es|
      invariant 0 <= items <= |es| && 0 <= max == MaxKey(es[..items])
    {
      var key := es[items].key;
      assert es[..items + 1][..items] == es[..items];
      if !key.IntKey? || key.n < 1 {
        MaxKeySticks(es, items + 1);
        return -1, false;
      }
      if key.n > max {
        max := key.n;
      }
      items := items + 1;
    }
    assert es[..items] == es;
    if max > items * SPARSE_RATIO && max > SPARSE_SAFE {
      return -1, true;
    }
    len := max;
  }

  lemma {:induction false} MaxKeySticks(es: seq<Entry>, i: nat)
    requires i <= |es| && MaxKey(es[..i]) == -1
    ensures MaxKey(es) == -1
  {
    if i == |es| {
      assert es[..i] == es;
    } else {
      assert es[..|es| - 1][..i] == es[..i];
      MaxKeySticks(es[..|es| - 1], i);
    }
  }

  // ----- what is still to be written -----

  /** The contents so far, then what is left: an outcome that never changes while appending. */
  function After(done: seq<byte>, left: Encoded): Encoded {
    Then(Json(done), left)
  }

  lemma ItemsOnward(done: seq<byte>, vs: seq<Value>, j: nat, room: nat, e: Encoded, goal: Encoded)
    requires j < |vs| && e == Encode(vs[j], room) && goal == After(done, ItemsFrom(vs, j, room))
    ensures e.Refused? ==> goal == e
    ensures e.Json? ==> goal == After(done + Separator(j).text + e.text, ItemsFrom(vs, j + 1, room))
  {
    var next := ItemsFrom(vs, j + 1, room);
    if e.Json? && next.Json? {
      assert done + (Separator(j).text + (e.text + next.text)) == done + Separator(j).text + e.text + next.text;
    }
  }

  lemma MembersOnward(done: seq<byte>, es: seq<Entry>, i: nat, room: nat, key: Encoded, e: Encoded, goal: Encoded)
    requires i < |es| && key == KeyText(es[i].key) && e == Encode(es[i].val, room)
    requires goal == After(done, MembersFrom(es, i, room))
    ensures key.Refused? ==> goal == key
    ensures key.Json? && e.Refused? ==> goal == e
    ensures key.Json? && e.Json? ==> goal == After(done + Separator(i).text + key.text + e.text, MembersFrom(es, i + 1, room))
  {
    var next := MembersFrom(es, i + 1, room);
    var sep := Separator(i);
    assert MembersFrom(es, i, room) == Then(sep, Then(key, Then(e, next)));
    if key.Json? && e.Json? && next.Json? {
      FiveParts(done, sep.text, key.text, e.text, next.text);
    }
  }

  lemma FiveParts(a: seq<byte>, b: seq<byte>, c: seq<byte>, d: seq<byte>, e: seq<byte>)
    ensures a + (b + (c + (d + e))) == a + b + c + d + e
  {
  }

  /** What an encoder method leaves: the text appended, or the refusal. */
  ghost predicate Wrote(json: Buffer, goal: Encoded, ok: bool, why: Refusal)
    requires json.Valid()
    reads json, json.buf
  {
    match goal
    case Json(text) => ok && json.Contents() == text
    case Refused(w) => !ok && why == w
  }

  method AppendSeparator(json: Buffer, comma: bool)
    requires json.Valid()
    modifies json, json.buf
    ensures json.Valid() && (json.buf == old(json.buf) || fresh(json.buf))
    ensures json.Contents() == old(json.Contents()) + if comma then [COMMA] else []
  {
    if comma {
      json.AppendChar(COMMA);
    } else {
      assert json.Contents() + [] == json.Contents();
    }
  }

  method AppendItem(json: Buffer, vs: seq<Value>, j: nat, depth: nat, max: nat, ghost goal: Encoded) returns (ok: bool, why: Refusal)
    requires json.Valid() && j < |vs| && depth <= max && goal == After(json.Contents(), ItemsFrom(vs, j, max - depth))
    modifies json, json.buf
    ensures json.Valid() && (json.buf == old(json.buf) || fresh(json.buf))
    ensures ok ==> goal == After(json.Contents(), ItemsFrom(vs, j + 1, max - depth))
    ensures !ok ==> goal == Refused(why)
    decreases max - depth, 2
  {
    ItemsOnward(json.Contents(), vs, j, max - depth, Encode(vs[j], max - depth), goal);
    AppendSeparator(json, j != 0);
    ok, why := AppendData(json, vs[j], depth, max);
  }

  /** json_append_array. */
  method AppendArray(json: Buffer, vs: seq<Value>, depth: nat, max: nat, ghost goal: Encoded) returns (ok: bool, why: Refusal)
    requires json.Valid() && depth <= max && goal == After(json.Contents() + [ARR_BEGIN], ItemsFrom(vs, 0, max - depth))
    modifies json, json.buf
    ensures json.Valid() && (json.buf == old(json.buf) || fresh(json.buf)) && Wrote(json, goal, ok, why)
    decreases max - depth, 3
  {
    json.AppendChar(ARR_BEGIN);
    ok, why := true, BadType;
    for j := 0 to |vs|
      invariant json.Valid() && (json.buf == old(json.buf) || fresh(json.buf)) && ok
      invariant goal == After(json.Contents(), ItemsFrom(vs, j, max - depth))
    {
      ok, why := AppendItem(json, vs, j, depth, max, goal);
      if !ok {
        return;
      }
    }
    json.AppendChar(ARR_END);
  }

  /** The quoted key and its colon. */
  method AppendKey(json: Buffer, key: Key) returns (ok: bool)
    requires json.Valid()
    modifies json, json.buf
    ensures json.Valid() && (json.buf == old(json.buf) || fresh(json.buf)) && (ok <==> KeyText(key).Json?)
    ensures ok ==> json.Contents() == old(json.Contents()) + KeyText(key).text
  {
    ok := true;
    ghost var before := json.Contents();
    if key.IntKey? || key.FracKey? {
      var text := if key.IntKey? then DecimalText(key.n) else key.text;
      json.AppendChar(QUOTE);
      json.AppendMem(text);
      json.AppendMem([QUOTE, COLON]);
      assert before + [QUOTE] + text + [QUOTE, COLON] == before + ([QUOTE] + text + [QUOTE, COLON]);
    } else if key.StrKey? {
      AppendStringLiteral(json, key.s);
      json.AppendChar(COLON);
      assert before + Literal(key.s) + [COLON] == before + (Literal(key.s) + [COLON]);
    } else {
      ok := false;
    }
  }

  method AppendMember(json: Buffer, es: seq<Entry>, i: nat, depth: nat, max: nat, ghost goal: Encoded) returns (ok: bool, why: Refusal)
    requires json.Valid() && i < |es| && depth <= max && goal == After(json.Contents(), MembersFrom(es, i, max - depth))
    modifies json, json.buf
    ensures json.Valid() && (json.buf == old(json.buf) || fresh(json.buf))
    ensures ok ==> goal == After(json.Contents(), MembersFrom(es, i + 1, max - depth))
    ensures !ok ==> goal == Refused(why)
    decreases max - depth, 2
  {
    MembersOnward(json.Contents(), es, i, max - depth, KeyText(es[i].key), Encode(es[i].val, max - depth), goal);
    AppendSeparator(json, i != 0);
    ok := AppendKey(json, es[i].key);
    why := BadKey;
    if ok {
      ok, why := AppendData(json, es[i].val, depth, max);
    }
  }

  /** json_append_object. */
  method AppendObject(json: Buffer, es: seq<Entry>, depth: nat, max: nat, ghost goal: Encoded) returns (ok: bool, why: Refusal)
    requires json.Valid() && depth <= max && goal == After(json.Contents() + [OBJ_BEGIN], MembersFrom(es, 0, max - depth))
    modifies json, json.buf
    ensures json.Valid() && (json.buf == old(json.buf) || fresh(json.buf)) && Wrote(json, goal, ok, why)
    decreases max - depth, 3
  {
    json.AppendChar(OBJ_BEGIN);
    ok, why := true, BadType;
    for i := 0 to |es|
      invariant json.Valid() && (json.buf == old(json.buf) || fresh(json.buf)) && ok
      invariant goal == After(json.Contents(), MembersFrom(es, i, max - depth))
    {
      ok, why := AppendMember(json, es, i, depth, max, goal);
      if !ok {
        return;
      }
    }
    json.AppendChar(OBJ_END);
  }

  lemma TableOutcome(es: seq<Entry>, room: nat, done: seq<byte>, goal: Encoded)
    requires goal == After(done, Encode(Table(es), room + 1))
    ensures ArrayLength(es).TooSparse? ==> goal == Refused(ExcessivelySparse)
    ensures ArrayLength(es).ArrayOf? && ArrayLength(es).n > 0 ==>
      goal == After(done + [ARR_BEGIN], ItemsFrom(Items(es, ArrayLength(es).n), 0, room))
    ensures ArrayLength(es).NotArray? || ArrayLength(es) == ArrayOf(0) ==> goal == After(done + [OBJ_BEGIN], MembersFrom(es, 0, room))
  {
    var n := if ArrayLength(es).ArrayOf? then ArrayLength(es).n else 0;
    AfterThen(done, [ARR_BEGIN], ItemsFrom(Items(es, n), 0, room));
    AfterThen(done, [OBJ_BEGIN], MembersFrom(es, 0, room));
  }

  lemma AfterThen(done: seq<byte>, mark: seq<byte>, left: Encoded)
    ensures After(done, Then(Json(mark), left)) == After(done + mark, left)
  {
    if left.Json? {
      assert done + (mark + left.text) == done + mark + left.text;
    }
  }

  /** The table case of json_append_data, current_depth already raised. */
  method AppendTable(json: Buffer, es: seq<Entry>, depth: nat, max: nat, ghost goal: Encoded) returns (ok: bool, why: Refusal)
    requires json.Valid() && depth <= max && goal == After(json.Contents(), Encode(Table(es), max - depth + 1))
    modifies json, json.buf
    ensures json.Valid() && (json.buf == old(json.buf) || fresh(json.buf)) && Wrote(json, goal, ok, why)
    decreases max - depth, 4
  {
    TableOutcome(es, max - depth, json.Contents(), goal);
    var len, sparse := LuaArrayLength(es);
    if sparse {
      return false, ExcessivelySparse;
    }
    if len > 0 {
      ok, why := AppendArray(json, Items(es, len), depth, max, goal);
    } else {
      ok, why := AppendObject(json, es, depth, max, goal);
    }
  }

  method AppendScalar(json: Buffer, v: Value) returns (ok: bool)
    requires json.Valid() && !v.Table?
    modifies json, json.buf
    ensures json.Valid() && (json.buf == old(json.buf) || fresh(json.buf)) && (ok <==> !v.Other?)
    ensures ok ==> json.Contents() == old(json.Contents()) + Encode(v, 0).text
  {
    ok := true;
    match v
    case Str(s) => AppendStringLiteral(json, s);
    case Num(text) => json.AppendMem(text);
    case Bool(b) => json.AppendMem(if b then TRUE else FALSE);
    case Nil => json.AppendMem(NULL);
    case Null => json.AppendMem(NULL);
    case Other => ok := false;
  }

  lemma ScalarOutcome(v: Value, room: nat)
    requires !v.Table?
    ensures Encode(v, room) == Encode(v, 0) && (v.Other? <==> Encode(v, 0) == Refused(BadType)) && (!v.Other? ==> Encode(v, 0).Json?)
  {
  }

  /** json_append_data. */
  method AppendData(json: Buffer, v: Value, depth: nat, max: nat) returns (ok: bool, why: Refusal)
    requires json.Valid() && depth <= max
    modifies json, json.buf
    ensures json.Valid() && (json.buf == old(json.buf) || fresh(json.buf))
    ensures Wrote(json, After(old(json.Contents()), Encode(v, max - depth)), ok, why)
    decreases max - depth, 1
  {
    if v.Table? {
      if depth + 1 > max {
        return false, ExcessiveNesting;
      }
      ok, why := AppendTable(json, v.entries, depth + 1, max, After(json.Contents(), Encode(v, max - depth)));
    } else {
      ScalarOutcome(v, max - depth);
      ok := AppendScalar(json, v);
      why := BadType;
    }
  }

  /** json_encode with its persistent buffer, whatever an earlier call left there. */
  method JsonEncode(json: Buffer, v: Value, max: nat) returns (e: Encoded)
    requires json.Valid()
    modifies json, json.buf
    ensures json.Valid() && e == Encode(v, max)
  {
    json.Reset();
    var ok, why := AppendData(json, v, 0, max);
    AfterNothing(Encode(v, max));
    e := if ok then Json(json.buf[..json.length]) else Refused(why);
  }

  lemma AfterNothing(e: Encoded)
    ensures After([], e) == e
  {
    if e.Json? {
      assert [] + e.text == e.text;
    }
  }
}
