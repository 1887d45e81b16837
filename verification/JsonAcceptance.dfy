/** Which values have a JSON text, and what decoding it gives. */
module JsonAcceptance {
  import opened Bytes
  import opened StringBuffer
  import opened JsonText
  import opened JsonCodec
  import opened JsonRoundTrip

  lemma {:induction false} EscapedNoNul(s: seq<byte>)
    ensures CString(Escaped(s))
  {
    if s != [] {
      EscapedNoNul(s[1..]);
      assert CString(if Escape(s[0]) == [] then [s[0]] else Escape(s[0]));
    }
  }

  predicate Clean(e: Encoded) {
    e.Json? ==> CString(e.text)
  }

  lemma ThenClean(a: Encoded, b: Encoded, c: Encoded)
    requires c == Then(a, b) && Clean(a) && Clean(b)
    ensures Clean(c)
  {
  }

  lemma ScalarClean(v: Value, room: nat, e: Encoded)
    requires Plain(v, room) && !v.Table? && e == Encode(v, room)
    ensures Clean(e)
  {
    if v.Str? {
      EscapedNoNul(v.s);
    }
  }

  /** No text of the encoder holds a NUL. */
  lemma {:induction false} NoNul(v: Value, room: nat) returns (e: Encoded)
    requires Plain(v, room)
    ensures e == Encode(v, room) && Clean(e)
    decreases room, 0
  {
    e := Encode(v, room);
    if !v.Table? {
      ScalarClean(v, room, e);
    } else if room != 0 {
      TableNoNul(v, room - 1, e);
    }
  }

  lemma {:induction false} TableNoNul(v: Value, room: nat, e: Encoded)
    requires v.Table? && Plain(v, room + 1) && e == Encode(v, room + 1)
    ensures Clean(e)
    decreases room, 2
  {
    var dense, vs := Shape(v, room, e, Canonical(v, room + 1));
    if dense {
      var t := ItemsNoNul(vs, 0, room);
      ThenClean(Json([ARR_BEGIN]), t, e);
    } else {
      var t := MembersNoNul(v.entries, 0, room);
      ThenClean(Json([OBJ_BEGIN]), t, e);
    }
  }

  lemma {:induction false} ItemsNoNul(vs: seq<Value>, j: nat, room: nat) returns (t: Encoded)
    requires j <= |vs| && AllPlain(vs, j, room)
    ensures t == ItemsFrom(vs, j, room) && Clean(t)
    decreases room, 1, |vs| - j
  {
    t := ItemsFrom(vs, j, room);
    if j != |vs| {
      var e := NoNul(vs[j], room);
      var next := ItemsNoNul(vs, j + 1, room);
      ThenClean(e, next, Then(e, next));
      ThenClean(Separator(j), Then(e, next), t);
    }
  }

  lemma KeyClean(key: Key)
    requires key.StrKey?
    ensures Clean(KeyText(key))
  {
    EscapedNoNul(key.s);
  }

  lemma {:induction false} MembersNoNul(es: seq<Entry>, i: nat, room: nat) returns (t: Encoded)
    requires StringKeyed(es) && i <= |es| && MembersPlain(es, i, room)
    ensures t == MembersFrom(es, i, room) && Clean(t)
    decreases room, 1, |es| - i
  {
    t := MembersFrom(es, i, room);
    if i != |es| {
      var e := NoNul(es[i].val, room);
      var next := MembersNoNul(es, i + 1, room);
      var key := KeyText(es[i].key);
      var pair := Then(e, next);
      var member := Then(key, pair);
      KeyClean(es[i].key);
      ThenClean(e, next, pair);
      ThenClean(key, pair, member);
      ThenClean(Separator(i), member, t);
    }
  }

  /** json_decode of json_encode(v) is v. */
  lemma DecodeEncode(v: Value, room: nat, e: Encoded)
    requires Plain(v, room) && e == Encode(v, room) && e.Json?
    ensures Decode(e.text, room) == Done(Canonical(v, room), [])
  {
    var f, p := RoundTrip(v, room, []);
    var g := NoNul(v, room);
    assert e.text + [] == e.text;
  }

  // ----- which values have a text -----

  /** At most room tables are nested. */
  predicate Nested(v: Value, room: nat)
    decreases room, 0
  {
    v.Table? ==>
      0 < room
      && if Dense(v.entries) then AllNested(Items(v.entries, |v.entries|), 0, room - 1) else MembersNested(v.entries, 0, room - 1)
  }

  predicate AllNested(vs: seq<Value>, j: nat, room: nat)
    requires j <= |vs|
    decreases room, 1, |vs| - j
  {
    j < |vs| ==> Nested(vs[j], room) && AllNested(vs, j + 1, room)
  }

  predicate MembersNested(es: seq<Entry>, i: nat, room: nat)
    requires i <= |es|
    decreases room, 1, |es| - i
  {
    i < |es| ==> Nested(es[i].val, room) && MembersNested(es, i + 1, room)
  }

  lemma {:induction false} ItemsAccepted(vs: seq<Value>, j: nat, room: nat) returns (t: Encoded)
    requires j <= |vs| && AllPlain(vs, j, room)
    ensures t == ItemsFrom(vs, j, room) && (t.Json? <==> AllNested(vs, j, room))
    decreases room, 1, |vs| - j
  {
    t := ItemsFrom(vs, j, room);
    if j != |vs| {
      var e := Accepted(vs[j], room);
      var next := ItemsAccepted(vs, j + 1, room);
    }
  }

  lemma MemberAccepted(es: seq<Entry>, i: nat, room: nat, e: Encoded, next: Encoded, t: Encoded)
    requires i < |es| && es[i].key.StrKey? && e == Encode(es[i].val, room) && next == MembersFrom(es, i + 1, room)
    requires t == MembersFrom(es, i, room)
    ensures t.Json? <==> e.Json? && next.Json?
  {
  }

  lemma {:induction false} MembersAccepted(es: seq<Entry>, i: nat, room: nat) returns (t: Encoded)
    requires StringKeyed(es) && i <= |es| && MembersPlain(es, i, room)
    ensures t == MembersFrom(es, i, room) && (t.Json? <==> MembersNested(es, i, room))
    decreases room, 1, |es| - i
  {
    t := MembersFrom(es, i, room);
    if i != |es| {
      var e := Accepted(es[i].val, room);
      var next := MembersAccepted(es, i + 1, room);
      MemberAccepted(es, i, room, e, next, t);
    }
  }

  /** A plain value has a text exactly when it is nested no deeper than the limit. */
  lemma {:induction false} Accepted(v: Value, room: nat) returns (e: Encoded)
    requires Plain(v, room)
    ensures e == Encode(v, room) && (e.Json? <==> Nested(v, room))
    decreases room, 0
  {
    e := Encode(v, room);
    if v.Table? && room != 0 {
      AcceptedShape(v, room, e);
      if Dense(v.entries) {
        var t := ItemsAccepted(Items(v.entries, |v.entries|), 0, room - 1);
      } else {
        var t := MembersAccepted(v.entries, 0, room - 1);
      }
    }
  }

  lemma AcceptedShape(v: Value, room: nat, e: Encoded)
    requires v.Table? && 0 < room && Plain(v, room) && e == Encode(v, room)
    ensures Dense(v.entries) ==> AllPlain(Items(v.entries, |v.entries|), 0, room - 1)
    ensures Dense(v.entries) ==> e == Then(Json([ARR_BEGIN]), ItemsFrom(Items(v.entries, |v.entries|), 0, room - 1))
    ensures !Dense(v.entries) ==> StringKeyed(v.entries) && MembersPlain(v.entries, 0, room - 1)
    ensures !Dense(v.entries) ==> e == Then(Json([OBJ_BEGIN]), MembersFrom(v.entries, 0, room - 1))
  {
    if Dense(v.entries) {
      ArrayText(v.entries, room - 1, Items(v.entries, |v.entries|), e);
    } else {
      ObjectText(v.entries, room - 1, e);
    }
  }

  /** For plain values of any shape: nested within the limit they encode, and decoding gives them back. */
  lemma PlainValuesSurvive(v: Value, room: nat)
    requires Plain(v, room)
    ensures Encode(v, room).Json? <==> Nested(v, room)
    ensures Nested(v, room) ==> Decode(Encode(v, room).text, room) == Done(Canonical(v, room), [])
  {
    var e := Accepted(v, room);
    if e.Json? {
      DecodeEncode(v, room, e);
    }
  }
}
