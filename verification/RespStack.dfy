/** The two conversions as the module runs them, over the Lua stack and the stream to the client. */
module RespStack {
  import opened Bytes
  import opened Resp
  import opened RespShape

  // ----- facts about the specification -----

  lemma {:induction false} ItemsStayRaised(items: seq<Reply>, n: nat, m: nat, resp: nat)
    requires n <= m <= |items| && ItemsToLua(items, n, resp).Raised?
    ensures ItemsToLua(items, m, resp).Raised?
    decreases m - n
  {
    if n < m {
      ItemsStayRaised(items, n + 1, m, resp);
    }
  }

  lemma {:induction false} PairsStayRaised(pairs: seq<Pair>, n: nat, m: nat, resp: nat)
    requires n <= m <= |pairs| && PairsToLua(pairs, n, resp).Raised?
    ensures PairsToLua(pairs, m, resp).Raised?
    decreases m - n
  {
    if n < m {
      PairsStayRaised(pairs, n + 1, m, resp);
    }
  }

  lemma {:induction false} MembersStayRaised(members: seq<Reply>, n: nat, m: nat, resp: nat)
    requires n <= m <= |members| && MembersToLua(members, n, resp).Raised?
    ensures MembersToLua(members, m, resp).Raised?
    decreases m - n
  {
    if n < m {
      MembersStayRaised(members, n + 1, m, resp);
    }
  }

  predicate Settled(ts: seq<Token>) {
    forall i | 0 <= i < |ts| :: ts[i] != Pending
  }

  /** A complete reply has no length outstanding. */
  lemma {:induction false} TokensSettled(r: Reply)
    ensures Settled(Tokens(r))
    decreases r
  {
    match r
    case Array(items) => ItemTokensSettled(items, |items|);
    case Set(members) => ItemTokensSettled(members, |members|);
    case Map(pairs) => PairTokensSettled(pairs, |pairs|);
    case _ =>
  }

  lemma {:induction false} ItemTokensSettled(items: seq<Reply>, n: nat)
    requires n <= |items|
    ensures Settled(ItemTokens(items, n))
    decreases items, n
  {
    if n != 0 {
      ItemTokensSettled(items, n - 1);
      TokensSettled(items[n - 1]);
    }
  }

  lemma {:induction false} PairTokensSettled(pairs: seq<Pair>, n: nat)
    requires n <= |pairs|
    ensures Settled(PairTokens(pairs, n))
    decreases pairs, n
  {
    if n != 0 {
      PairTokensSettled(pairs, n - 1);
      BothTokensSettled(pairs[n - 1]);
    }
  }

  lemma {:induction false} BothTokensSettled(p: Pair)
    ensures Settled(BothTokens(p))
    decreases p
  {
    TokensSettled(p.key);
    TokensSettled(p.val);
  }

  lemma BothJoined(sent: seq<Token>, p: Pair)
    ensures sent + Tokens(p.key) + Tokens(p.val) == sent + BothTokens(p)
  {
  }

  function Started(before: seq<Token>, body: seq<Token>): seq<Token> {
    before + [Pending] + body
  }

  lemma StartedMore(before: seq<Token>, a: seq<Token>, b: seq<Token>)
    ensures Started(before, a) + b == Started(before, a + b)
  {
  }

  lemma ArrayDone(before: seq<Token>, rs: seq<Reply>, len: nat)
    requires len == |rs|
    ensures before + [ArrayHeader(len)] + ItemTokens(rs, len) == before + Tokens(Array(rs))
  {
    assert Tokens(Array(rs)) == [ArrayHeader(len)] + ItemTokens(rs, len);
  }

  lemma SetDone(before: seq<Token>, rs: seq<Reply>, len: nat)
    requires len == |rs|
    ensures before + [SetHeader(len)] + ItemTokens(rs, len) == before + Tokens(Set(rs))
  {
    assert Tokens(Set(rs)) == [SetHeader(len)] + ItemTokens(rs, len);
  }

  lemma MapDone(before: seq<Token>, ps: seq<Pair>, len: nat)
    requires len == |ps|
    ensures before + [MapHeader(len)] + PairTokens(ps, len) == before + Tokens(Map(ps))
  {
    assert Tokens(Map(ps)) == [MapHeader(len)] + PairTokens(ps, len);
  }

  lemma {:induction false} FindElsewhere(es: seq<Entry>, gone: Lua, key: Lua)
    requires gone != key
    ensures Find(Remove(es, gone), key) == Find(es, key)
  {
    if es != [] && es[0].key != gone {
      FindElsewhere(es[1..], gone, key);
      assert Remove(es, gone)[1..] == Remove(es[1..], gone);
    }
  }

  function At(es: seq<Entry>, j: nat): Lua {
    Find(es, Number(j as real))
  }

  /** The entries at j, j + 1 and so on are these, and the next one is nil. */
  predicate PartIs(es: seq<Entry>, j: nat, part: seq<Lua>)
    decreases |part|
  {
    if part == [] then At(es, j).Nil? else !part[0].Nil? && At(es, j) == part[0] && PartIs(es, j + 1, part[1..])
  }

  lemma {:induction false} PartWithout(es: seq<Entry>, g: nat, j: nat, part: seq<Lua>)
    requires g < j && PartIs(Remove(es, Number(g as real)), j, part)
    ensures PartIs(es, j, part)
    decreases |part|
  {
    FindElsewhere(es, Number(g as real), Number(j as real));
    if part != [] {
      PartWithout(es, g, j + 1, part[1..]);
    }
  }

  lemma {:induction false} ArrayPartIs(es: seq<Entry>, j: nat)
    ensures PartIs(es, j, ArrayPart(es, j))
    decreases |es|
  {
    if !At(es, j).Nil? {
      var rest := Remove(es, Number(j as real));
      ArrayPartIs(rest, j + 1);
      PartWithout(es, j, j + 1, ArrayPart(rest, j + 1));
      assert ArrayPart(es, j)[1..] == ArrayPart(rest, j + 1);
    }
  }

  /** What a table that is not an aggregate is sent as. */
  function TextTokens(k: Kind): seq<Token> {
    match k
    case IsError(s) => [Whole(Error(CutAtNul(s)))]
    case IsStatus(s) => [Whole(Status(OneLine(CutAtNul(s))))]
    case IsDouble(x) => [Whole(Double(x))]
    case IsBigNumber(s) => [Whole(BigNumber(OneLine(CutAtNul(s))))]
    case IsVerbatim(s, format) => [Whole(Verbatim(s, CutAtNul(format)))]
    case _ => []
  }

  function VerbatimReply(v: Lua): Reply
    requires VerbatimFields(v)
  {
    Verbatim(Field(v.entries, STRING).s, CutAtNul(Field(v.entries, FORMAT).s))
  }

  lemma TextReply(es: seq<Entry>, resp: nat, next: Order, top: nat, limit: nat)
    requires top + 4 <= limit && TextTokens(KindOf(es)) != []
    ensures Tokens(ToReply(Table(es), resp, next, top, limit)) == TextTokens(KindOf(es))
  {
  }

  function SetOrArrayOf(es: seq<Entry>, resp: nat, next: Order, top: nat, limit: nat): Reply {
    if Field(es, SET).Table? then Set(KeysOf(next(Field(es, SET).entries), resp, next, top + 3, limit))
    else Array(ItemsOf(ArrayPart(es, 1), resp, next, top + 1, limit))
  }

  function AggregateOf(es: seq<Entry>, resp: nat, next: Order, top: nat, limit: nat): Reply {
    if Field(es, MAP).Table? then Map(PairsOf(next(Field(es, MAP).entries), resp, next, top + 3, limit))
    else SetOrArrayOf(es, resp, next, top, limit)
  }

  lemma AggregateReply(es: seq<Entry>, resp: nat, next: Order, top: nat, limit: nat)
    requires top + 4 <= limit && TextTokens(KindOf(es)) == []
    ensures ToReply(Table(es), resp, next, top, limit) == AggregateOf(es, resp, next, top, limit)
  {
    TableReply(es, resp, next, top, limit);
  }

  function NumericTokens(es: seq<Entry>): seq<Token> {
    if Field(es, DOUBLE).Number? then [Whole(Double(Field(es, DOUBLE).x))]
    else if Field(es, BIG_NUMBER).Str? then [Whole(BigNumber(OneLine(CutAtNul(Field(es, BIG_NUMBER).s))))]
    else if VerbatimFields(Field(es, VERBATIM)) then [Whole(VerbatimReply(Field(es, VERBATIM)))]
    else []
  }

  lemma TextTokensBy(es: seq<Entry>)
    ensures TextTokens(KindOf(es)) ==
      if Field(es, ERR).Str? then [Whole(Error(CutAtNul(Field(es, ERR).s)))]
      else if Field(es, OK).Str? then [Whole(Status(OneLine(CutAtNul(Field(es, OK).s))))]
      else NumericTokens(es)
  {
  }

  predicate ItemsSent(items: seq<Lua>, rs: seq<Reply>, resp: nat, next: Order, top: nat, limit: nat) {
    |rs| == |items| && forall i | 0 <= i < |items| :: rs[i] == ToReply(items[i], resp, next, top, limit)
  }

  lemma ItemsAreSent(items: seq<Lua>, resp: nat, next: Order, top: nat, limit: nat) returns (rs: seq<Reply>)
    ensures rs == ItemsOf(items, resp, next, top, limit) && ItemsSent(items, rs, resp, next, top, limit)
  {
    rs := ItemsOf(items, resp, next, top, limit);
    ItemsOfAt(items, resp, next, top, limit);
  }

  predicate PairsSent(order: seq<Entry>, ps: seq<Pair>, resp: nat, next: Order, top: nat, limit: nat) {
    |ps| == |order| && forall i | 0 <= i < |order| :: ps[i] == PairOf(order[i], resp, next, top, limit)
  }

  lemma PairsAreSent(order: seq<Entry>, resp: nat, next: Order, top: nat, limit: nat) returns (ps: seq<Pair>)
    ensures ps == PairsOf(order, resp, next, top, limit) && PairsSent(order, ps, resp, next, top, limit)
  {
    ps := PairsOf(order, resp, next, top, limit);
    PairsOfAt(order, resp, next, top, limit);
  }

  predicate KeysSent(order: seq<Entry>, rs: seq<Reply>, resp: nat, next: Order, top: nat, limit: nat) {
    |rs| == |order| && forall i | 0 <= i < |order| :: rs[i] == ToReply(order[i].key, resp, next, top, limit)
  }

  lemma KeysAreSent(order: seq<Entry>, resp: nat, next: Order, top: nat, limit: nat) returns (rs: seq<Reply>)
    ensures rs == KeysOf(order, resp, next, top, limit) && KeysSent(order, rs, resp, next, top, limit)
  {
    rs := KeysOf(order, resp, next, top, limit);
    KeysOfAt(order, resp, next, top, limit);
  }

  // ----- the state -----

  class Interpreter {
    var slots: seq<Lua>
    var out: seq<Token>
    const limit: nat

    constructor (limit: nat)
      ensures this.limit == limit && slots == [] && out == []
    {
      this.limit := limit;
      slots, out := [], [];
    }

    method Push(v: Lua)
      modifies this`slots
      ensures slots == old(slots) + [v]
    {
      slots := slots + [v];
    }

    method Pop(n: nat)
      requires n <= |slots|
      modifies this`slots
      ensures slots == old(slots)[..|old(slots)| - n]
    {
      slots := slots[..|slots| - n];
    }

    /** lua_pushvalue(-k). */
    method PushValue(k: nat)
      requires 0 < k <= |slots|
      modifies this`slots
      ensures slots == old(slots) + [old(slots)[|old(slots)| - k]]
    {
      slots := slots + [slots[|slots| - k]];
    }

    /** lua_remove(-2). */
    method RemoveUnder()
      requires 2 <= |slots|
      modifies this`slots
      ensures slots == old(slots)[..|old(slots)| - 2] + [old(slots)[|old(slots)| - 1]]
    {
      slots := slots[..|slots| - 2] + slots[|slots| - 1..];
    }

    /** lua_remove(1). */
    method RemoveFirst()
      requires slots != []
      modifies this`slots
      ensures slots == old(slots)[1..]
    {
      slots := slots[1..];
    }

    /** lua_insert(-2). */
    method InsertUnder()
      requires 2 <= |slots|
      modifies this`slots
      ensures slots == old(slots)[..|old(slots)| - 2] + [old(slots)[|old(slots)| - 1], old(slots)[|old(slots)| - 2]]
    {
      slots := slots[..|slots| - 2] + [slots[|slots| - 1], slots[|slots| - 2]];
    }

    method Emit(t: Token)
      modifies this`out
      ensures out == old(out) + [t]
    {
      out := out + [t];
    }

    /** lua_settable(-3). */
    method SetTable(ghost base: seq<Lua>, es: seq<Entry>, key: Lua, val: Lua) returns (ok: bool)
      requires slots == base + [Table(es), key, val]
      modifies this`slots
      ensures ok == !key.Nil?
      ensures ok ==> slots == base + [Table(SetField(es, key, val))]
    {
      ok := !slots[|slots| - 2].Nil?;
      if ok {
        slots := slots[..|slots| - 3] + [Table(SetField(es, key, val))];
      }
    }

    // ----- callReplyToLuaType -----

    /** Pushes the one value of the reply, or stops at the error Lua raises for a nil key. */
    method PushReply(r: Reply, resp: nat) returns (ok: bool)
      modifies this`slots
      ensures ok <==> ToLua(r, resp).Value?
      ensures ok ==> slots == old(slots) + [ToLua(r, resp).v]
      decreases r, 1
    {
      ok := true;
      match r
      case Bulk(s) => Push(Str(s));
      case Status(s) => PushTagged(OK, Str(s));
      case Integer(n) => Push(Number(AsDouble(n) as real));
      case Array(items) => ok := PushItems(items, resp);
      case Null => PushNull(resp);
      case ArrayNull => PushNull(resp);
      case Map(pairs) =>
        ghost var base := slots;
        Push(Table([]));
        Push(Str(MAP));
        ok := PushPairs(pairs, resp);
        if ok {
          ok := SetTable(base, [], Str(MAP), PairsToLua(pairs, |pairs|, resp).v);
        }
      case Set(members) =>
        ghost var base := slots;
        Push(Table([]));
        Push(Str(SET));
        ok := PushMembers(members, resp);
        if ok {
          ok := SetTable(base, [], Str(SET), MembersToLua(members, |members|, resp).v);
        }
      case Boolean(b) => Push(Bool(b));
      case Double(x) => PushTagged(DOUBLE, Number(x));
      case BigNumber(s) => PushTagged(BIG_NUMBER, Str(s));
      case Verbatim(s, format) => PushVerbatim(s, FirstThree(format));
      case Error(s) => PushError(s);
    }

    method PushNull(resp: nat)
      modifies this`slots
      ensures slots == old(slots) + [if resp == 2 then Bool(false) else Nil]
    {
      if resp == 2 {
        Push(Bool(false));
      } else {
        Push(Nil);
      }
    }

    /** A new table with one field. */
    method PushTagged(name: seq<byte>, v: Lua)
      requires !v.Nil?
      modifies this`slots
      ensures slots == old(slots) + [Tagged(name, v)]
    {
      ghost var base := slots;
      Push(Table([]));
      Push(Str(name));
      Push(v);
      var ok := SetTable(base, [], Str(name), v);
    }

    method PushVerbatim(s: seq<byte>, format: seq<byte>)
      modifies this`slots
      ensures slots == old(slots) + [Tagged(VERBATIM, VerbatimTable(s, format))]
    {
      NamesDiffer();
      ghost var base := slots;
      Push(Table([]));
      Push(Str(VERBATIM));
      ghost var inner := slots;
      PushTagged(STRING, Str(s));
      AddField(inner, STRING, Str(s), FORMAT, Str(format));
      var ok := SetTable(base, [], Str(VERBATIM), VerbatimTable(s, format));
    }

    /** A second field for the table on top. */
    method AddField(ghost base: seq<Lua>, a: seq<byte>, v: Lua, b: seq<byte>, w: Lua)
      requires slots == base + [Tagged(a, v)] && a != b && !w.Nil?
      modifies this`slots
      ensures slots == base + [Table([Entry(Str(a), v), Entry(Str(b), w)])]
    {
      var es := [Entry(Str(a), v)];
      Push(Str(b));
      Push(w);
      var ok := SetTable(base, es, Str(b), w);
      assert es[1..] == [];
      assert SetField([], Str(b), w) == [Entry(Str(b), w)];
      assert SetField(es, Str(b), w) == [Entry(Str(a), v), Entry(Str(b), w)];
    }

    method PushError(s: seq<byte>)
      modifies this`slots
      ensures slots == old(slots) + [ErrorTable(s)]
    {
      NamesDiffer();
      ghost var base := slots;
      PushTagged(ERR, Str(ErrorText(s)));
      AddField(base, ERR, Str(ErrorText(s)), IGNORE, Bool(true));
    }

    method PushItems(items: seq<Reply>, resp: nat) returns (ok: bool)
      modifies this`slots
      ensures ok <==> ItemsToLua(items, |items|, resp).Value?
      ensures ok ==> slots == old(slots) + [ItemsToLua(items, |items|, resp).v]
      decreases items, 0
    {
      ghost var base := slots;
      Push(Table([]));
      var i := 0;
      ok := true;
      while i < |items|
        invariant i <= |items| && ok && ItemsToLua(items, i, resp).Value?
        invariant ItemsToLua(items, i, resp).v.Table? && slots == base + [ItemsToLua(items, i, resp).v]
      {
        var es := slots[|slots| - 1].entries;
        Push(Number((i + 1) as real));
        ok := PushReply(items[i], resp);
        if !ok {
          ItemsStayRaised(items, i + 1, |items|, resp);
          return;
        }
        ok := SetTable(base, es, Number((i + 1) as real), ToLua(items[i], resp).v);
        i := i + 1;
      }
    }

    method PushPairs(pairs: seq<Pair>, resp: nat) returns (ok: bool)
      modifies this`slots
      ensures ok <==> PairsToLua(pairs, |pairs|, resp).Value?
      ensures ok ==> PairsToLua(pairs, |pairs|, resp).v.Table?
      ensures ok ==> slots == old(slots) + [PairsToLua(pairs, |pairs|, resp).v]
      decreases pairs, 0
    {
      ghost var base := slots;
      Push(Table([]));
      var i := 0;
      ok := true;
      while i < |pairs|
        invariant i <= |pairs| && ok && PairsToLua(pairs, i, resp).Value?
        invariant PairsToLua(pairs, i, resp).v.Table? && slots == base + [PairsToLua(pairs, i, resp).v]
      {
        ok := PutPairOnTop(base, slots[|slots| - 1].entries, pairs[i], resp);
        if !ok {
          PairsStayRaised(pairs, i + 1, |pairs|, resp);
          return;
        }
        i := i + 1;
      }
    }

    method PutPairOnTop(ghost base: seq<Lua>, es: seq<Entry>, p: Pair, resp: nat) returns (ok: bool)
      requires slots == base + [Table(es)]
      modifies this`slots
      ensures ok <==> PutPair(Value(Table(es)), p, resp).Value?
      ensures ok ==> slots == base + [PutPair(Value(Table(es)), p, resp).v]
      decreases p, 0
    {
      ok := PushReply(p.key, resp);
      if ok {
        ok := PushReply(p.val, resp);
      }
      if ok {
        ok := SetTable(base, es, ToLua(p.key, resp).v, ToLua(p.val, resp).v);
      }
    }

    method PushMembers(members: seq<Reply>, resp: nat) returns (ok: bool)
      modifies this`slots
      ensures ok <==> MembersToLua(members, |members|, resp).Value?
      ensures ok ==> MembersToLua(members, |members|, resp).v.Table?
      ensures ok ==> slots == old(slots) + [MembersToLua(members, |members|, resp).v]
      decreases members, 0
    {
      ghost var base := slots;
      Push(Table([]));
      var i := 0;
      ok := true;
      while i < |members|
        invariant i <= |members| && ok && MembersToLua(members, i, resp).Value?
        invariant MembersToLua(members, i, resp).v.Table? && slots == base + [MembersToLua(members, i, resp).v]
      {
        var es := slots[|slots| - 1].entries;
        ok := PushReply(members[i], resp);
        if ok {
          Push(Bool(true));
          ok := SetTable(base, es, ToLua(members[i], resp).v, Bool(true));
        }
        if !ok {
          MembersStayRaised(members, i + 1, |members|, resp);
          return;
        }
        i := i + 1;
      }
    }

    // ----- luajitReplyToServerReply -----

    /** A field of the table on top, pushed on it: the name, then lua_rawget(-2). */
    method Probe(name: seq<byte>) returns (v: Lua)
      requires slots != [] && slots[|slots| - 1].Table?
      modifies this`slots
      ensures slots == old(slots) + [v] && v == Field(old(slots)[|old(slots)| - 1].entries, name)
    {
      ghost var base := slots;
      Push(Str(name));
      v := Find(slots[|slots| - 2].entries, slots[|slots| - 1]);
      slots := slots[..|slots| - 1] + [v];
    }

    /** The last outstanding length is now known. */
    method SetLength(header: Token, ghost before: seq<Token>, ghost after: seq<Token>)
      requires out == before + [Pending] + after && Settled(after)
      modifies this`out
      ensures out == before + [header] + after
    {
      forall m | |before| < m < |out| ensures out[m] != Pending {
        assert out[m] == after[m - |before| - 1];
      }
      var k := |out| - 1;
      while out[k] != Pending
        invariant |before| <= k < |out| && out == before + [Pending] + after
        decreases k
      {
        assert k != |before|;
        k := k - 1;
      }
      out := out[k := header];
    }

    /** Sends the value on top of the stack as one complete reply and takes it off. */
    method SendReply(resp: nat, next: Order)
      requires slots != []
      modifies this
      ensures slots == old(slots)[..|old(slots)| - 1]
      ensures out == old(out) + Tokens(ToReply(old(slots)[|old(slots)| - 1], resp, next, |old(slots)|, limit))
      decreases Room(|slots|, limit), 1, 0
    {
      var v := slots[|slots| - 1];
      if |slots| + 4 > limit {
        Emit(Whole(Error(STACK_LIMIT)));
        Pop(1);
        return;
      }
      match v
      case Str(s) =>
        Emit(Whole(Bulk(s)));
        Pop(1);
      case Bool(b) =>
        if resp == 2 {
          if b {
            Emit(Whole(Integer(1)));
          } else {
            Emit(Whole(Null));
          }
        } else {
          Emit(Whole(Boolean(b)));
        }
        Pop(1);
      case Number(x) =>
        Emit(Whole(Integer(Truncated(x))));
        Pop(1);
      case Table(es) => SendTable(es, resp, next);
      case Nil =>
        Emit(Whole(Null));
        Pop(1);
      case Other(_) =>
        Emit(Whole(Null));
        Pop(1);
    }

    /** Sends a table whose kind is found by probing its fields in turn. */
    method SendTable(es: seq<Entry>, resp: nat, next: Order)
      requires slots != [] && slots[|slots| - 1] == Table(es) && |slots| + 4 <= limit
      modifies this
      ensures slots == old(slots)[..|old(slots)| - 1]
      ensures out == old(out) + Tokens(ToReply(Table(es), resp, next, |old(slots)|, limit))
      decreases Room(|slots|, limit), 0, 6
    {
      var done := SendText(es);
      if done {
        TextReply(es, resp, next, |slots| + 1, limit);
        return;
      }
      AggregateReply(es, resp, next, |slots|, limit);
      SendAggregate(es, resp, next);
    }

    method SendAggregate(es: seq<Entry>, resp: nat, next: Order)
      requires slots != [] && slots[|slots| - 1] == Table(es) && |slots| + 4 <= limit
      modifies this
      ensures slots == old(slots)[..|old(slots)| - 1]
      ensures out == old(out) + Tokens(AggregateOf(es, resp, next, |old(slots)|, limit))
      decreases Room(|slots|, limit), 0, 5
    {
      var v := Probe(MAP);
      if v.Table? {
        SendMap(v.entries, resp, next);
        Pop(2);
        return;
      }
      Pop(1);
      SendSetOrArray(es, resp, next);
    }

    method SendSetOrArray(es: seq<Entry>, resp: nat, next: Order)
      requires slots != [] && slots[|slots| - 1] == Table(es) && |slots| + 4 <= limit
      modifies this
      ensures slots == old(slots)[..|old(slots)| - 1]
      ensures out == old(out) + Tokens(SetOrArrayOf(es, resp, next, |old(slots)|, limit))
      decreases Room(|slots|, limit), 0, 4
    {
      var v := Probe(SET);
      if v.Table? {
        SendSet(v.entries, resp, next);
        Pop(2);
        return;
      }
      Pop(1);
      SendArray(es, resp, next);
      Pop(1);
    }

    /** The kinds of table that are not aggregates. */
    method SendText(es: seq<Entry>) returns (done: bool)
      requires slots != [] && slots[|slots| - 1] == Table(es)
      modifies this
      ensures done == (TextTokens(KindOf(es)) != [])
      ensures slots == if done then old(slots)[..|old(slots)| - 1] else old(slots)
      ensures out == old(out) + TextTokens(KindOf(es))
    {
      TextTokensBy(es);
      done := true;
      var v := Probe(ERR);
      if v.Str? {
        Pop(1);
        Emit(Whole(Error(CutAtNul(v.s))));
        Pop(1);
        return;
      }
      Pop(1);
      v := Probe(OK);
      if v.Str? {
        Emit(Whole(Status(OneLine(CutAtNul(v.s)))));
        Pop(2);
        return;
      }
      Pop(1);
      done := SendNumeric(es);
    }

    /** The double, the big number and the verbatim string. */
    method SendNumeric(es: seq<Entry>) returns (done: bool)
      requires slots != [] && slots[|slots| - 1] == Table(es)
      modifies this
      ensures done == (NumericTokens(es) != [])
      ensures slots == if done then old(slots)[..|old(slots)| - 1] else old(slots)
      ensures out == old(out) + NumericTokens(es)
    {
      done := true;
      var v := Probe(DOUBLE);
      if v.Number? {
        Emit(Whole(Double(v.x)));
        Pop(2);
        return;
      }
      Pop(1);
      v := Probe(BIG_NUMBER);
      if v.Str? {
        Emit(Whole(BigNumber(OneLine(CutAtNul(v.s)))));
        Pop(2);
        return;
      }
      Pop(1);
      done := SendVerbatim(es);
    }

    /** The verbatim string takes two more levels of fields. */
    method SendVerbatim(es: seq<Entry>) returns (done: bool)
      requires slots != [] && slots[|slots| - 1] == Table(es)
      modifies this
      ensures done == VerbatimFields(Field(es, VERBATIM))
      ensures slots == if done then old(slots)[..|old(slots)| - 1] else old(slots)
      ensures out == old(out) + if done then [Whole(VerbatimReply(Field(es, VERBATIM)))] else []
    {
      done := false;
      var v := Probe(VERBATIM);
      if v.Table? {
        var f := Probe(FORMAT);
        if f.Str? {
          var t := Probe2(STRING);
          if t.Str? {
            Emit(Whole(Verbatim(t.s, CutAtNul(f.s))));
            Pop(4);
            done := true;
            return;
          }
          Pop(1);
        }
        Pop(1);
      }
      Pop(1);
    }

    /** A field of the table under the top: the name, then lua_rawget(-3). */
    method Probe2(name: seq<byte>) returns (v: Lua)
      requires |slots| >= 2 && slots[|slots| - 2].Table?
      modifies this`slots
      ensures slots == old(slots) + [v] && v == Field(old(slots)[|old(slots)| - 2].entries, name)
    {
      Push(Str(name));
      v := Find(slots[|slots| - 3].entries, slots[|slots| - 1]);
      slots := slots[..|slots| - 1] + [v];
    }

    /** The element at j, if there is one. */
    method SendElement(es: seq<Entry>, j: nat, resp: nat, next: Order) returns (found: bool)
      requires slots != [] && slots[|slots| - 1] == Table(es) && |slots| + 4 <= limit
      modifies this
      ensures slots == old(slots) && found == !At(es, j).Nil?
      ensures out == old(out) + if found then Tokens(ToReply(At(es, j), resp, next, |slots| + 1, limit)) else []
      decreases Room(|slots|, limit), 0, 0
    {
      Push(Number(j as real));
      var v := Find(es, slots[|slots| - 1]);
      slots := slots[..|slots| - 1] + [v];
      found := !v.Nil?;
      if !found {
        Pop(1);
        return;
      }
      SendReply(resp, next);
    }

    /** The next element, and the tokens so far. */
    method SendNext(es: seq<Entry>, j: nat, ghost before: seq<Token>, ghost items: seq<Lua>, ghost rs: seq<Reply>,
                    resp: nat, next: Order)
      returns (found: bool)
      requires slots != [] && slots[|slots| - 1] == Table(es) && |slots| + 4 <= limit && j <= |items| + 1
      requires ItemsSent(items, rs, resp, next, |slots| + 1, limit)
      requires j > 0 && out == Started(before, ItemTokens(rs, j - 1)) && PartIs(es, j, items[j - 1..])
      modifies this
      ensures slots == old(slots) && found == (j <= |items|)
      ensures found ==> out == Started(before, ItemTokens(rs, j)) && PartIs(es, j + 1, items[j..])
      ensures !found ==> out == old(out)
      decreases Room(|slots|, limit), 0, 1
    {
      found := SendElement(es, j, resp, next);
      if found {
        StartedMore(before, ItemTokens(rs, j - 1), Tokens(rs[j - 1]));
        assert items[j - 1..][1..] == items[j..];
      }
    }

    /** The array part, element by element up to the first nil. */
    method SendArray(es: seq<Entry>, resp: nat, next: Order)
      requires slots != [] && slots[|slots| - 1] == Table(es) && |slots| + 4 <= limit
      modifies this
      ensures slots == old(slots)
      ensures out == old(out) + Tokens(Array(ItemsOf(ArrayPart(es, 1), resp, next, |slots| + 1, limit)))
      decreases Room(|slots|, limit), 0, 3
    {
      ghost var before, items := out, ArrayPart(es, 1);
      ghost var top := |slots| + 1;
      ghost var rs := ItemsAreSent(items, resp, next, top, limit);
      ArrayPartIs(es, 1);
      Emit(Pending);
      assert |slots| + 1 == top;
      SendElements(es, before, items, rs, resp, next);
    }

    method SendElements(es: seq<Entry>, ghost before: seq<Token>, ghost items: seq<Lua>, ghost rs: seq<Reply>,
                        resp: nat, next: Order)
      requires slots != [] && slots[|slots| - 1] == Table(es) && |slots| + 4 <= limit && out == before + [Pending]
      requires PartIs(es, 1, items) && ItemsSent(items, rs, resp, next, |slots| + 1, limit)
      modifies this
      ensures slots == old(slots) && out == before + Tokens(Array(rs))
      decreases Room(|slots|, limit), 0, 2
    {
      ghost var base := slots;
      var j, len := 1, 0;
      var found := true;
      while found
        invariant slots == base && len <= |rs| && j == (if found then len + 1 else len + 2)
        invariant out == Started(before, ItemTokens(rs, len))
        invariant if found then PartIs(es, j, items[len..]) else len == |rs|
        decreases |rs| - len, found
      {
        found := SendNext(es, j, before, items, rs, resp, next);
        j := j + 1;
        if found {
          len := len + 1;
        }
      }
      ItemTokensSettled(rs, len);
      SetLength(ArrayHeader(len), before, ItemTokens(rs, len));
      ArrayDone(before, rs, len);
    }

    /** One step of lua_next over a map: the key so far gives way to the next one. */
    method SendPair(ghost base: seq<Lua>, e: Entry, resp: nat, next: Order)
      requires |slots| == |base| + 1 && slots[..|base|] == base && |base| + 3 <= limit
      modifies this
      ensures slots == base + [e.key]
      ensures out == old(out) + BothTokens(PairOf(e, resp, next, |base| + 2, limit))
      decreases Room(|base|, limit), 0, 0
    {
      slots := slots[..|slots| - 1] + [e.key, e.val];
      Push(slots[|slots| - 2]);
      assert slots == base + [e.key, e.val, e.key];
      SendReply(resp, next);
      assert slots == base + [e.key, e.val];
      SendReply(resp, next);
      BothJoined(old(out), PairOf(e, resp, next, |base| + 2, limit));
    }

    method SendNextPair(ghost base: seq<Lua>, order: seq<Entry>, k: nat, ghost before: seq<Token>, ghost ps: seq<Pair>,
                        resp: nat, next: Order)
      requires |slots| == |base| + 1 && slots[..|base|] == base && |base| + 3 <= limit
      requires k < |order| && PairsSent(order, ps, resp, next, |base| + 2, limit)
      requires out == Started(before, PairTokens(ps, k))
      modifies this
      ensures |slots| == |base| + 1 && slots[..|base|] == base
      ensures out == Started(before, PairTokens(ps, k + 1))
      decreases Room(|base|, limit), 0, 1
    {
      SendPair(base, order[k], resp, next);
      StartedMore(before, PairTokens(ps, k), BothTokens(ps[k]));
    }

    /** The pairs of the table on top, as lua_next visits them. */
    method SendMap(es: seq<Entry>, resp: nat, next: Order)
      requires slots != [] && slots[|slots| - 1] == Table(es) && |slots| + 3 <= limit
      modifies this
      ensures slots == old(slots)
      ensures out == old(out) + Tokens(Map(PairsOf(next(es), resp, next, |slots| + 2, limit)))
      decreases Room(|slots|, limit), 0, 3
    {
      ghost var before := out;
      var order := next(es);
      ghost var ps := PairsAreSent(order, resp, next, |slots| + 2, limit);
      Emit(Pending);
      SendPairs(order, before, ps, resp, next);
    }

    method SendPairs(order: seq<Entry>, ghost before: seq<Token>, ghost ps: seq<Pair>, resp: nat, next: Order)
      requires |slots| + 3 <= limit && out == before + [Pending]
      requires PairsSent(order, ps, resp, next, |slots| + 2, limit)
      modifies this
      ensures slots == old(slots) && out == before + Tokens(Map(ps))
      decreases Room(|slots|, limit), 0, 2
    {
      ghost var base := slots;
      Push(Nil);
      var len := 0;
      while len < |order|
        invariant len <= |order| && |slots| == |base| + 1 && slots[..|base|] == base
        invariant out == Started(before, PairTokens(ps, len))
      {
        SendNextPair(base, order, len, before, ps, resp, next);
        len := len + 1;
      }
      Pop(1);
      PairTokensSettled(ps, len);
      SetLength(MapHeader(len), before, PairTokens(ps, len));
      MapDone(before, ps, len);
    }

    /** One step of lua_next over a set: the value is dropped, the key copied. */
    method SendMember(ghost base: seq<Lua>, e: Entry, resp: nat, next: Order)
      requires |slots| == |base| + 1 && slots[..|base|] == base && |base| + 3 <= limit
      modifies this
      ensures slots == base + [e.key]
      ensures out == old(out) + Tokens(ToReply(e.key, resp, next, |base| + 2, limit))
      decreases Room(|base|, limit), 0, 0
    {
      slots := slots[..|slots| - 1] + [e.key, e.val];
      Pop(1);
      Push(slots[|slots| - 1]);
      assert slots == base + [e.key, e.key];
      SendReply(resp, next);
    }

    method SendNextMember(ghost base: seq<Lua>, order: seq<Entry>, k: nat, ghost before: seq<Token>,
                          ghost rs: seq<Reply>, resp: nat, next: Order)
      requires |slots| == |base| + 1 && slots[..|base|] == base && |base| + 3 <= limit
      requires k < |order| && KeysSent(order, rs, resp, next, |base| + 2, limit)
      requires out == Started(before, ItemTokens(rs, k))
      modifies this
      ensures |slots| == |base| + 1 && slots[..|base|] == base
      ensures out == Started(before, ItemTokens(rs, k + 1))
      decreases Room(|base|, limit), 0, 1
    {
      SendMember(base, order[k], resp, next);
      StartedMore(before, ItemTokens(rs, k), Tokens(rs[k]));
    }

    /** The keys of the table on top. */
    method SendSet(es: seq<Entry>, resp: nat, next: Order)
      requires slots != [] && slots[|slots| - 1] == Table(es) && |slots| + 3 <= limit
      modifies this
      ensures slots == old(slots)
      ensures out == old(out) + Tokens(Set(KeysOf(next(es), resp, next, |slots| + 2, limit)))
      decreases Room(|slots|, limit), 0, 3
    {
      ghost var before := out;
      var order := next(es);
      ghost var rs := KeysAreSent(order, resp, next, |slots| + 2, limit);
      Emit(Pending);
      SendMembers(order, before, rs, resp, next);
    }

    method SendMembers(order: seq<Entry>, ghost before: seq<Token>, ghost rs: seq<Reply>, resp: nat, next: Order)
      requires |slots| + 3 <= limit && out == before + [Pending]
      requires KeysSent(order, rs, resp, next, |slots| + 2, limit)
      modifies this
      ensures slots == old(slots) && out == before + Tokens(Set(rs))
      decreases Room(|slots|, limit), 0, 2
    {
      ghost var base := slots;
      Push(Nil);
      var len := 0;
      while len < |order|
        invariant len <= |order| && |slots| == |base| + 1 && slots[..|base|] == base
        invariant out == Started(before, ItemTokens(rs, len))
      {
        SendNextMember(base, order, len, before, rs, resp, next);
        len := len + 1;
      }
      Pop(1);
      ItemTokensSettled(rs, len);
      SetLength(SetHeader(len), before, ItemTokens(rs, len));
      SetDone(before, rs, len);
    }
  }
}
