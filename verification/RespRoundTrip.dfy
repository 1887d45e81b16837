/** The two conversions undo each other, and what the client reads is the converted reply. */
module RespRoundTrip {
  import opened Bytes
  import opened Resp

  // ----- the client reads the reply that was sent -----

  /** One more reply after the first n. */
  lemma {:induction false} ReadOneMore(n: nat, ts: seq<Token>)
    returns (d: Seen)
    requires ReadMany(n, ts).Seen? && ReadReply(ReadMany(n, ts).rest).Seen?
    ensures d == ReadMany(n + 1, ts)
    ensures d.Seen? && d.rs == ReadMany(n, ts).rs + ReadReply(ReadMany(n, ts).rest).rs
    ensures d.rest == ReadReply(ReadMany(n, ts).rest).rest
    decreases n
  {
    d := ReadMany(n + 1, ts);
    if n == 0 {
      assert ReadMany(0, ReadReply(ts).rest) == Seen([], ReadReply(ts).rest);
    } else {
      var first := ReadReply(ts);
      var e := ReadOneMore(n - 1, first.rest);
    }
  }

  /** A complete reply is read back whatever follows it. */
  lemma {:induction false} ReadBack(r: Reply, rest: seq<Token>)
    ensures ReadReply(Tokens(r) + rest) == Seen([r], rest)
    decreases r
  {
    match r
    case Array(items) =>
      var s := ReadItems(items, |items|, rest);
      BehindHead(ArrayHeader(|items|), ItemTokens(items, |items|), rest, s);
      assert items[..|items|] == items;
    case Set(members) =>
      var s := ReadItems(members, |members|, rest);
      BehindHead(SetHeader(|members|), ItemTokens(members, |members|), rest, s);
      assert members[..|members|] == members;
    case Map(pairs) =>
      var s := ReadPairs(pairs, |pairs|, rest);
      BehindHead(MapHeader(|pairs|), PairTokens(pairs, |pairs|), rest, s);
      assert pairs[..|pairs|] == pairs;
      PairedFlat(pairs);
    case _ =>
  }

  lemma BehindHead(head: Token, body: seq<Token>, rest: seq<Token>, s: seq<Token>)
    requires s == body + rest
    ensures [head] + body + rest == [head] + s
  {
  }

  lemma ThreeParts(a: seq<Token>, b: seq<Token>, c: seq<Token>)
    ensures a + b + c == a + (b + c)
  {
  }

  lemma {:induction false} ReadItems(items: seq<Reply>, n: nat, rest: seq<Token>) returns (s: seq<Token>)
    requires n <= |items|
    ensures s == ItemTokens(items, n) + rest && ReadMany(n, s) == Seen(items[..n], rest)
    decreases items, n
  {
    if n == 0 {
      s := rest;
      assert [] + rest == rest;
    } else {
      var last := Tokens(items[n - 1]);
      s := ReadItems(items, n - 1, last + rest);
      ThreeParts(ItemTokens(items, n - 1), last, rest);
      ReadBack(items[n - 1], rest);
      var d := ReadOneMore(n - 1, s);
      assert items[..n - 1] + [items[n - 1]] == items[..n];
    }
  }

  lemma {:induction false} FlatMore(pairs: seq<Pair>, p: Pair)
    ensures Flat(pairs + [p]) == Flat(pairs) + [p.key, p.val]
  {
    if pairs == [] {
      assert (pairs + [p])[1..] == [];
    } else {
      FlatMore(pairs[1..], p);
      assert (pairs + [p])[1..] == pairs[1..] + [p];
    }
  }

  lemma {:induction false} ReadPairs(pairs: seq<Pair>, n: nat, rest: seq<Token>) returns (s: seq<Token>)
    requires n <= |pairs|
    ensures s == PairTokens(pairs, n) + rest && ReadMany(2 * n, s) == Seen(Flat(pairs[..n]), rest)
    decreases pairs, n
  {
    if n == 0 {
      s := rest;
      assert [] + rest == rest;
    } else {
      var p := pairs[n - 1];
      var last := BothTokens(p);
      s := ReadPairs(pairs, n - 1, last + rest);
      ThreeParts(PairTokens(pairs, n - 1), last, rest);
      ReadBoth(p, 2 * n - 2, s, rest);
      FlatMore(pairs[..n - 1], p);
      assert pairs[..n - 1] + [p] == pairs[..n];
    }
  }

  lemma {:induction false} ReadBoth(p: Pair, n: nat, ts: seq<Token>, rest: seq<Token>)
    requires ReadMany(n, ts).Seen? && ReadMany(n, ts).rest == BothTokens(p) + rest
    ensures ReadMany(n + 2, ts) == Seen(ReadMany(n, ts).rs + [p.key, p.val], rest)
    decreases p
  {
    assert BothTokens(p) + rest == Tokens(p.key) + (Tokens(p.val) + rest);
    ReadBack(p.key, Tokens(p.val) + rest);
    var d := ReadOneMore(n, ts);
    ReadBack(p.val, rest);
    var e := ReadOneMore(n + 1, ts);
  }

  // ----- texts -----

  predicate OneLiner(s: seq<byte>) {
    forall i | 0 <= i < |s| :: s[i] != 0 && !LineEnd(s[i])
  }

  /** A text without NUL, not led by '-' and with no line end at either end. */
  predicate PlainError(s: seq<byte>) {
    CString(s) && (s != [] ==> s[0] != 0x2d && !LineEnd(s[0]) && !LineEnd(s[|s| - 1]))
  }

  lemma {:induction false} CutExact(s: seq<byte>)
    ensures |CutAtNul(s)| <= |s| && CString(CutAtNul(s)) && (CutAtNul(s) == s <==> CString(s)) && (|CutAtNul(s)| == |s| <==> CString(s))
  {
    if s != [] && s[0] != 0 {
      CutExact(s[1..]);
      assert s == [s[0]] + s[1..];
      assert CString(s) <==> CString(s[1..]);
      assert CutAtNul(s)[1..] == CutAtNul(s[1..]);
    }
  }

  lemma {:induction false} OneLineExact(s: seq<byte>)
    ensures |OneLine(s)| == |s| && (OneLine(s) == s <==> forall i | 0 <= i < |s| :: !LineEnd(s[i]))
  {
    if s != [] {
      OneLineExact(s[1..]);
      assert s == [s[0]] + s[1..];
      assert OneLine(s)[1..] == OneLine(s[1..]);
      assert (forall i | 0 <= i < |s| :: !LineEnd(s[i])) <==>
          (!LineEnd(s[0]) && forall i | 0 <= i < |s[1..]| :: !LineEnd(s[1..][i]));
    }
  }

  lemma {:induction false} LineExact(s: seq<byte>)
    ensures OneLine(CutAtNul(s)) == s <==> OneLiner(s)
  {
    CutExact(s);
    OneLineExact(CutAtNul(s));
  }

  lemma {:induction false} TrimExact(s: seq<byte>)
    ensures |Trim(s)| <= |s| && (CString(s) ==> CString(Trim(s)))
    ensures Trim(s) == s <==> (s != [] ==> !LineEnd(s[0]) && !LineEnd(s[|s| - 1]))
    decreases |s|
  {
    if s != [] && LineEnd(s[0]) {
      TrimExact(s[1..]);
    } else if s != [] && LineEnd(s[|s| - 1]) {
      TrimExact(s[..|s| - 1]);
    }
  }

  /** The error text comes back exactly when it is plain. */
  lemma ErrorExact(s: seq<byte>)
    ensures CutAtNul(ErrorText(s)) == s <==> PlainError(s)
  {
    var c := CutAtNul(s);
    CutExact(s);
    CutExact(ErrorText(s));
    if c == [] || c[0] != 0x2d {
      TrimExact(c);
    } else {
      DashedDiffers(s, c);
    }
  }

  lemma DashedDiffers(s: seq<byte>, c: seq<byte>)
    requires c == CutAtNul(s) && |c| <= |s| && c != [] && c[0] == 0x2d
    ensures s != [] && s[0] == 0x2d
    ensures CutAtNul(ErrorText(s)) != s
  {
    var t := ErrorText(s);
    if SpaceAt(c) < |c| {
      SpacedIsShorter(s, c, t);
      CutShorter(t);
    } else {
      assert t == ERR_PREFIX + c[1..];
      FirstKept(t);
    }
  }

  /** Dropping the dash leaves less than there was. */
  lemma SpacedIsShorter(s: seq<byte>, c: seq<byte>, t: seq<byte>)
    requires c == CutAtNul(s) && |c| <= |s| && c != [] && c[0] == 0x2d && SpaceAt(c) < |c| && t == ErrorText(s)
    ensures |t| < |s|
  {
    var k := SpaceAt(c);
    TrimExact(c[k + 1..]);
    assert t == c[1..k] + [0x20] + Trim(c[k + 1..]);
  }

  lemma CutShorter(t: seq<byte>)
    ensures |CutAtNul(t)| <= |t|
  {
    CutExact(t);
  }

  lemma FirstKept(t: seq<byte>)
    requires t != [] && t[0] == 0x45
    ensures CutAtNul(t) != [] && CutAtNul(t)[0] == 0x45
  {
  }

  /** A magnitude that is a multiple of the distance between the doubles around it. */
  predicate Representable(n: int) {
    var m := if n < 0 then -n else n;
    m % Quantum(m) == 0
  }

  lemma NearestExact(m: nat, q: nat)
    requires 0 < q
    ensures Nearest(m, q) == m <==> m % q == 0
  {
    var f, rem := m / q, m % q;
    assert m == f * q + rem;
    assert (f + 1) * q == f * q + q;
  }

  /** An integer survives as a Lua number exactly when it is representable. */
  lemma IntegerExact(n: int)
    ensures AsDouble(n) == n <==> Representable(n)
  {
    var m := if n < 0 then -n else n;
    NearestExact(m, Quantum(m));
  }

  lemma {:induction false} QuantumDivides(m: nat)
    requires m <= 0x20_0000_0000_0000
    ensures m % Quantum(m) == 0
  {
    if m == 0x20_0000_0000_0000 {
      assert m / 2 == 0x10_0000_0000_0000;
      assert Quantum(m / 2) == 1;
    }
  }

  /** Every integer up to 2^53 in magnitude is a double. */
  lemma SmallIntegersExact(n: int)
    requires -0x20_0000_0000_0000 <= n <= 0x20_0000_0000_0000
    ensures AsDouble(n) == n
  {
    QuantumDivides(if n < 0 then -n else n);
    IntegerExact(n);
  }

  /** The next integer is not. */
  lemma FirstInexactInteger()
    ensures AsDouble(0x20_0000_0000_0001) == 0x20_0000_0000_0000
  {
    assert Quantum(0x10_0000_0000_0000) == 1;
    assert Quantum(0x20_0000_0000_0001) == 2;
  }

  // ----- which replies come back -----

  predicate Scalar(r: Reply) {
    r.Bulk? || r.Integer? || r.Boolean?
  }

  /** A reply with none of what a Lua value cannot hold. */
  predicate Faithful(r: Reply)
    decreases r, 0
  {
    match r
    case Bulk(_) => true
    case Status(s) => OneLiner(s)
    case Integer(n) => Representable(n)
    case Array(items) => forall i | 0 <= i < |items| :: Within(items[i])
    case Null => true
    case ArrayNull => false
    case Map(pairs) =>
      (forall i | 0 <= i < |pairs| :: PairWithin(pairs[i])) &&
      (forall i, j | 0 <= i < j < |pairs| :: Apart(pairs[i].key, pairs[j].key))
    case Set(members) =>
      (forall i | 0 <= i < |members| :: Within(members[i])) &&
      (forall i, j | 0 <= i < j < |members| :: Apart(members[i], members[j]))
    case Boolean(_) => true
    case Double(_) => true
    case BigNumber(s) => OneLiner(s)
    case Verbatim(_, format) => |format| == 3 && CString(format)
    case Error(s) => PlainError(s)
  }

  predicate Within(r: Reply)
    decreases r, 1
  {
    !r.Null? && Faithful(r)
  }

  predicate PairWithin(p: Pair)
    decreases p
  {
    Within(p.key) && Within(p.val)
  }

  /** Keys that make one Lua key must differ. */
  predicate Apart(a: Reply, b: Reply) {
    Scalar(a) ==> a != b
  }

  /** The Lua value, for RESP3. */
  function LuaOf(r: Reply): Lua {
    var c := ToLua(r, 3);
    if c.Raised? then Nil else c.v
  }

  predicate Absent(es: seq<Entry>, key: Lua) {
    forall i | 0 <= i < |es| :: es[i].key != key || key.Table?
  }

  lemma {:induction false} SetFieldAppends(es: seq<Entry>, key: Lua, val: Lua)
    requires Absent(es, key)
    ensures SetField(es, key, val) == if val.Nil? then es else es + [Entry(key, val)]
  {
    if es != [] {
      assert Absent(es[1..], key) by {
        forall i | 0 <= i < |es[1..]| ensures es[1..][i].key != key || key.Table? {
          assert es[1..][i] == es[i + 1];
        }
      }
      SetFieldAppends(es[1..], key, val);
    }
  }

  /** The entries of the first n items that are not nil. */
  function Slots(items: seq<Reply>, n: nat): (es: seq<Entry>)
    requires n <= |items|
  {
    if n == 0 then []
    else Slots(items, n - 1) + if LuaOf(items[n - 1]).Nil? then [] else [Entry(Number(n as real), LuaOf(items[n - 1]))]
  }

  lemma {:induction false} SlotKeys(items: seq<Reply>, n: nat)
    requires n <= |items|
    ensures forall i | 0 <= i < |Slots(items, n)| :: SlotKey(Slots(items, n)[i], 0, n)
  {
    if n != 0 {
      SlotKeys(items, n - 1);
    }
  }

  predicate SlotKey(e: Entry, low: nat, high: nat) {
    e.key.Number? && low as real < e.key.x <= high as real
  }

  lemma NewSlot(items: seq<Reply>, n: nat, x: real)
    requires n <= |items| && x == (n + 1) as real
    ensures Absent(Slots(items, n), Number(x))
  {
    var es := Slots(items, n);
    SlotKeys(items, n);
    forall i | 0 <= i < |es| ensures es[i].key != Number(x) {
      assert SlotKey(es[i], 0, n);
    }
  }

  lemma {:induction false} ItemsAreSlots(items: seq<Reply>, n: nat)
    requires n <= |items| && forall i | 0 <= i < n :: ToLua(items[i], 3).Value?
    ensures ItemsToLua(items, n, 3) == Value(Table(Slots(items, n)))
  {
    if n != 0 {
      ItemsAreSlots(items, n - 1);
      NewSlot(items, n - 1, n as real);
      SetFieldAppends(Slots(items, n - 1), Number(n as real), LuaOf(items[n - 1]));
    }
  }

  /** A reply converts, to nil only if it is null, and to something other than a table only if it is a scalar. */
  lemma {:induction false} ConvertsOne(r: Reply)
    requires Faithful(r)
    ensures ToLua(r, 3).Value?
    ensures LuaOf(r).Nil? <==> r.Null?
    ensures Scalar(r) || r.Null? || LuaOf(r).Table?
    decreases r, 0
  {
    match r
    case Array(items) => ConvertsItems(items, |items|); ItemsAreSlots(items, |items|);
    case Map(pairs) => var es := PairsConvert(pairs, |pairs|);
    case Set(members) => var es := MembersConvert(members, |members|);
    case _ =>
  }

  lemma {:induction false} ConvertsItems(items: seq<Reply>, n: nat)
    requires n <= |items| && forall i | 0 <= i < |items| :: Within(items[i])
    ensures forall i | 0 <= i < n :: ToLua(items[i], 3).Value? && !LuaOf(items[i]).Nil?
    decreases items, n
  {
    if n != 0 {
      ConvertsItems(items, n - 1);
      assert Within(items[n - 1]);
      ConvertsOne(items[n - 1]);
    }
  }

  lemma {:induction false} PairConverts(p: Pair)
    requires PairWithin(p)
    ensures ToLua(p.key, 3).Value? && !LuaOf(p.key).Nil? && ToLua(p.val, 3).Value? && !LuaOf(p.val).Nil?
    decreases p, 0
  {
    ConvertsOne(p.key);
    ConvertsOne(p.val);
  }

  function EntryOf(p: Pair): Entry {
    Entry(LuaOf(p.key), LuaOf(p.val))
  }

  lemma {:induction false} PairsConvert(pairs: seq<Pair>, n: nat)
    returns (es: seq<Entry>)
    requires n <= |pairs| && forall i | 0 <= i < |pairs| :: PairWithin(pairs[i])
    requires forall i, j | 0 <= i < j < |pairs| :: Apart(pairs[i].key, pairs[j].key)
    ensures PairsToLua(pairs, n, 3) == Value(Table(es))
    ensures |es| == n && forall i | 0 <= i < n :: es[i] == EntryOf(pairs[i])
    decreases pairs, n
  {
    es := [];
    if n != 0 {
      var before := PairsConvert(pairs, n - 1);
      var p := pairs[n - 1];
      PairIsNew(pairs, n, p, before);
      es := PairPut(pairs, n, before, p);
    }
  }

  lemma {:induction false} PairIsNew(pairs: seq<Pair>, n: nat, p: Pair, before: seq<Entry>)
    requires 0 < n <= |pairs| && p == pairs[n - 1] && PairWithin(p) && |before| == n - 1
    requires forall i | 0 <= i < n - 1 :: before[i] == EntryOf(pairs[i]) && PairWithin(pairs[i])
    requires forall i | 0 <= i < n - 1 :: Apart(pairs[i].key, p.key)
    ensures ToLua(p.key, 3).Value? && ToLua(p.val, 3).Value?
    ensures !LuaOf(p.key).Nil? && !LuaOf(p.val).Nil? && Absent(before, LuaOf(p.key))
    decreases p, 1
  {
    PairConverts(p);
    forall i | 0 <= i < |before| ensures before[i].key != LuaOf(p.key) || LuaOf(p.key).Table? {
      assert PairWithin(pairs[i]);
      assert Apart(pairs[i].key, p.key);
      PairKeysApart(pairs[i], p);
    }
  }

  lemma PairPut(pairs: seq<Pair>, n: nat, before: seq<Entry>, p: Pair) returns (es: seq<Entry>)
    requires 0 < n <= |pairs| && p == pairs[n - 1] && ToLua(p.key, 3).Value? && ToLua(p.val, 3).Value?
    requires !LuaOf(p.key).Nil? && !LuaOf(p.val).Nil? && Absent(before, LuaOf(p.key))
    requires PairsToLua(pairs, n - 1, 3) == Value(Table(before))
    ensures es == before + [EntryOf(p)] && PairsToLua(pairs, n, 3) == Value(Table(es))
  {
    SetFieldAppends(before, LuaOf(p.key), LuaOf(p.val));
    es := before + [EntryOf(p)];
  }

  lemma {:induction false} PairKeysApart(p: Pair, q: Pair)
    requires PairWithin(p) && PairWithin(q) && Apart(p.key, q.key)
    ensures LuaOf(p.key) != LuaOf(q.key) || LuaOf(q.key).Table?
    decreases q, 0
  {
    KeysApartIn(p.key, q.key);
  }

  lemma {:induction false} KeysApartIn(a: Reply, b: Reply)
    requires Within(a) && Within(b) && Apart(a, b)
    ensures LuaOf(a) != LuaOf(b) || LuaOf(b).Table?
    decreases b, 1
  {
    ConvertsOne(b);
    if LuaOf(a) == LuaOf(b) && !LuaOf(b).Table? {
      assert Scalar(b);
      ScalarUnique(a, b);
    }
  }

  lemma {:induction false} KeyAbsent(m: Reply, before: seq<Entry>, earlier: seq<Reply>)
    requires Within(m) && |before| == |earlier|
    requires forall i | 0 <= i < |earlier| :: before[i].key == LuaOf(earlier[i])
    requires forall i | 0 <= i < |earlier| :: Within(earlier[i]) && Apart(earlier[i], m)
    ensures Absent(before, LuaOf(m))
    decreases m, 2
  {
    forall i | 0 <= i < |before| ensures before[i].key != LuaOf(m) || LuaOf(m).Table? {
      KeysApartIn(earlier[i], m);
    }
  }

  lemma {:induction false} MemberIsNew(members: seq<Reply>, n: nat, m: Reply, before: seq<Entry>)
    requires 0 < n <= |members| && m == members[n - 1] && Within(m) && |before| == n - 1
    requires forall i | 0 <= i < n - 1 :: before[i] == MemberEntry(members[i]) && Within(members[i])
    requires forall i | 0 <= i < n - 1 :: Apart(members[i], m)
    ensures ToLua(m, 3).Value? && !LuaOf(m).Nil? && Absent(before, LuaOf(m))
    decreases m, 3
  {
    ConvertsOne(m);
    KeyAbsent(m, before, members[..n - 1]);
  }

  lemma MemberPut(members: seq<Reply>, n: nat, before: seq<Entry>, m: Reply)
    returns (es: seq<Entry>)
    requires 0 < n <= |members| && m == members[n - 1] && ToLua(m, 3).Value? && !LuaOf(m).Nil?
    requires MembersToLua(members, n - 1, 3) == Value(Table(before)) && Absent(before, LuaOf(m))
    ensures es == before + [MemberEntry(m)] && MembersToLua(members, n, 3) == Value(Table(es))
  {
    SetFieldAppends(before, LuaOf(m), Bool(true));
    es := before + [Entry(LuaOf(m), Bool(true))];
  }

  lemma OthersAreTables(r: Reply)
    ensures Scalar(r) || LuaOf(r).Table? || LuaOf(r).Nil?
  {
    match r
    case Array(items) => assert ItemsToLua(items, |items|, 3).Raised? || LuaOf(r).Table?;
    case _ =>
  }

  lemma ScalarUnique(a: Reply, b: Reply)
    requires Within(a) && Within(b) && Scalar(b) && LuaOf(a) == LuaOf(b)
    ensures a == b
  {
    OthersAreTables(a);
    if a.Integer? && b.Integer? {
      IntegerExact(a.n);
      IntegerExact(b.n);
    }
  }

  function MemberEntry(m: Reply): Entry {
    Entry(LuaOf(m), Bool(true))
  }

  lemma {:induction false} MembersConvert(members: seq<Reply>, n: nat)
    returns (es: seq<Entry>)
    requires n <= |members| && forall i | 0 <= i < |members| :: Within(members[i])
    requires forall i, j | 0 <= i < j < |members| :: Apart(members[i], members[j])
    ensures MembersToLua(members, n, 3) == Value(Table(es))
    ensures |es| == n && forall i | 0 <= i < n :: es[i] == MemberEntry(members[i])
    decreases members, n
  {
    es := [];
    if n != 0 {
      var before := MembersConvert(members, n - 1);
      var m := members[n - 1];
      MemberIsNew(members, n, m, before);
      es := MemberPut(members, n, before, m);
    }
  }
}
