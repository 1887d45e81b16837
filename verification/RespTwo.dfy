/**
  Protocol 2, where a null is false to Lua and a boolean is sent as 1 or a null: each conversion is that of
  protocol 3 with those replies exchanged, which says exactly which replies come back (src/script_luajit.c:185-196, 471-478).
 */
module RespTwo {
  import opened Bytes
  import opened Resp
  import opened RespRoundTrip
  import opened RespShape
  import opened RespExact

  // ----- what protocol 2 exchanges -----

  /** The reply of protocol 3 that Lua cannot tell from this one of protocol 2. */
  function Lift(r: Reply): Reply
    decreases r
  {
    match r
    case Null => Boolean(false)
    case ArrayNull => Boolean(false)
    case Array(items) => Array(LiftItems(items, |items|))
    case Set(members) => Set(LiftItems(members, |members|))
    case Map(pairs) => Map(LiftPairs(pairs, |pairs|))
    case _ => r
  }

  function LiftItems(items: seq<Reply>, n: nat): (rs: seq<Reply>)
    requires n <= |items|
    ensures |rs| == n
    decreases items, n
  {
    if n == 0 then [] else LiftItems(items, n - 1) + [Lift(items[n - 1])]
  }

  function LiftPairs(pairs: seq<Pair>, n: nat): (ps: seq<Pair>)
    requires n <= |pairs|
    ensures |ps| == n
    decreases pairs, n
  {
    if n == 0 then [] else LiftPairs(pairs, n - 1) + [LiftPair(pairs[n - 1])]
  }

  function LiftPair(p: Pair): Pair
    decreases p
  {
    Pair(Lift(p.key), Lift(p.val))
  }

  /** What protocol 2 sends in place of a reply of protocol 3. */
  function Lower(r: Reply): Reply
    decreases r
  {
    match r
    case Boolean(b) => if b then Integer(1) else Null
    case Array(items) => Array(LowerItems(items, |items|))
    case Set(members) => Set(LowerItems(members, |members|))
    case Map(pairs) => Map(LowerPairs(pairs, |pairs|))
    case _ => r
  }

  function LowerItems(items: seq<Reply>, n: nat): (rs: seq<Reply>)
    requires n <= |items|
    ensures |rs| == n
    decreases items, n
  {
    if n == 0 then [] else LowerItems(items, n - 1) + [Lower(items[n - 1])]
  }

  function LowerPairs(pairs: seq<Pair>, n: nat): (ps: seq<Pair>)
    requires n <= |pairs|
    ensures |ps| == n
    decreases pairs, n
  {
    if n == 0 then [] else LowerPairs(pairs, n - 1) + [LowerPair(pairs[n - 1])]
  }

  function LowerPair(p: Pair): Pair
    decreases p
  {
    Pair(Lower(p.key), Lower(p.val))
  }

  lemma {:induction false} LiftAt(items: seq<Reply>, n: nat, i: nat)
    requires i < n <= |items|
    ensures LiftItems(items, n)[i] == Lift(items[i])
    decreases n
  {
    if i < n - 1 {
      LiftAt(items, n - 1, i);
    }
  }

  lemma {:induction false} LiftPairAt(pairs: seq<Pair>, n: nat, i: nat)
    requires i < n <= |pairs|
    ensures LiftPairs(pairs, n)[i] == LiftPair(pairs[i])
    decreases n
  {
    if i < n - 1 {
      LiftPairAt(pairs, n - 1, i);
    }
  }

  lemma {:induction false} LowerAt(items: seq<Reply>, n: nat, i: nat)
    requires i < n <= |items|
    ensures LowerItems(items, n)[i] == Lower(items[i])
    decreases n
  {
    if i < n - 1 {
      LowerAt(items, n - 1, i);
    }
  }

  lemma {:induction false} LowerPairAt(pairs: seq<Pair>, n: nat, i: nat)
    requires i < n <= |pairs|
    ensures LowerPairs(pairs, n)[i] == LowerPair(pairs[i])
    decreases n
  {
    if i < n - 1 {
      LowerPairAt(pairs, n - 1, i);
    }
  }

  // ----- to Lua -----

  /** A reply of protocol 2 gives Lua what its counterpart of protocol 3 gives. */
  lemma {:induction false} LuaIsLifted(r: Reply)
    ensures ToLua(r, 2) == ToLua(Lift(r), 3)
    decreases r
  {
    match r
    case Array(items) => ItemsLifted(items, |items|, LiftItems(items, |items|));
    case Set(members) => MembersLifted(members, |members|, LiftItems(members, |members|));
    case Map(pairs) => PairsLifted(pairs, |pairs|, LiftPairs(pairs, |pairs|));
    case _ =>
  }

  lemma {:induction false} ItemsLifted(items: seq<Reply>, n: nat, ls: seq<Reply>)
    requires n <= |items| && ls == LiftItems(items, |items|)
    ensures ItemsToLua(items, n, 2) == ItemsToLua(ls, n, 3)
    decreases items, n
  {
    if n > 0 {
      ItemsLifted(items, n - 1, ls);
      LuaIsLifted(items[n - 1]);
      LiftAt(items, |items|, n - 1);
    }
  }

  lemma {:induction false} MembersLifted(members: seq<Reply>, n: nat, ls: seq<Reply>)
    requires n <= |members| && ls == LiftItems(members, |members|)
    ensures MembersToLua(members, n, 2) == MembersToLua(ls, n, 3)
    decreases members, n
  {
    if n > 0 {
      MembersLifted(members, n - 1, ls);
      LuaIsLifted(members[n - 1]);
      LiftAt(members, |members|, n - 1);
    }
  }

  lemma {:induction false} PairsLifted(pairs: seq<Pair>, n: nat, ls: seq<Pair>)
    requires n <= |pairs| && ls == LiftPairs(pairs, |pairs|)
    ensures PairsToLua(pairs, n, 2) == PairsToLua(ls, n, 3)
    decreases pairs, n
  {
    if n > 0 {
      PairsLifted(pairs, n - 1, ls);
      PairLifted(pairs[n - 1]);
      LiftPairAt(pairs, |pairs|, n - 1);
      PutPairSame(PairsToLua(ls, n - 1, 3), pairs[n - 1], ls[n - 1]);
    }
  }

  lemma {:induction false} PairLifted(p: Pair)
    ensures ToLua(p.key, 2) == ToLua(Lift(p.key), 3) && ToLua(p.val, 2) == ToLua(Lift(p.val), 3)
    decreases p
  {
    LuaIsLifted(p.key);
    LuaIsLifted(p.val);
  }

  lemma PutPairSame(table: Converted, p: Pair, q: Pair)
    requires ToLua(p.key, 2) == ToLua(q.key, 3) && ToLua(p.val, 2) == ToLua(q.val, 3)
    ensures PutPair(table, p, 2) == PutPair(table, q, 3)
  {
  }

  // ----- to a reply -----

  lemma ArrayIs(es: seq<Entry>, items: seq<Lua>, resp: nat, next: Order, top: nat, limit: nat)
    requires top + 4 <= limit && KindOf(es) == IsArray(items)
    ensures ToReply(Table(es), resp, next, top, limit) == Array(ItemsOf(items, resp, next, top + 1, limit))
  {
  }

  lemma MapIs(es: seq<Entry>, entries: seq<Entry>, resp: nat, next: Order, top: nat, limit: nat)
    requires top + 4 <= limit && KindOf(es) == IsMap(entries)
    ensures ToReply(Table(es), resp, next, top, limit) == Map(PairsOf(next(entries), resp, next, top + 3, limit))
  {
  }

  lemma SetIs(es: seq<Entry>, entries: seq<Entry>, resp: nat, next: Order, top: nat, limit: nat)
    requires top + 4 <= limit && KindOf(es) == IsSet(entries)
    ensures ToReply(Table(es), resp, next, top, limit) == Set(KeysOf(next(entries), resp, next, top + 3, limit))
  {
  }

  predicate AggregateKind(k: Kind) {
    k.IsArray? || k.IsMap? || k.IsSet?
  }

  lemma OtherIs(v: Lua, next: Order, top: nat, limit: nat)
    requires top + 4 > limit || (!v.Bool? && !(v.Table? && AggregateKind(KindOf(v.entries))))
    ensures ToReply(v, 2, next, top, limit) == Lower(ToReply(v, 3, next, top, limit))
  {
  }

  /** What is sent under protocol 2 is what protocol 3 would send, booleans lowered wherever they stand. */
  lemma {:induction false} ReplyIsLowered(v: Lua, next: Order, top: nat, limit: nat)
    ensures ToReply(v, 2, next, top, limit) == Lower(ToReply(v, 3, next, top, limit))
    decreases Room(top, limit), 1
  {
    if top + 4 > limit {
      OtherIs(v, next, top, limit);
    } else if v.Table? && KindOf(v.entries).IsArray? {
      ItemsLowered(v.entries, KindOf(v.entries).items, next, top, limit);
    } else if v.Table? && KindOf(v.entries).IsMap? {
      MapLowered(v.entries, KindOf(v.entries).entries, next, top, limit);
    } else if v.Table? && KindOf(v.entries).IsSet? {
      SetLowered(v.entries, KindOf(v.entries).entries, next, top, limit);
    } else if !v.Bool? {
      OtherIs(v, next, top, limit);
    }
  }

  lemma {:induction false} ItemsLowered(es: seq<Entry>, items: seq<Lua>, next: Order, top: nat, limit: nat)
    requires top + 4 <= limit && KindOf(es) == IsArray(items)
    ensures ToReply(Table(es), 2, next, top, limit) == Lower(ToReply(Table(es), 3, next, top, limit))
    decreases Room(top, limit), 0
  {
    var two, three := ItemsOf(items, 2, next, top + 1, limit), ItemsOf(items, 3, next, top + 1, limit);
    ArrayIs(es, items, 2, next, top, limit);
    ArrayIs(es, items, 3, next, top, limit);
    ItemsOfAt(items, 2, next, top + 1, limit);
    ItemsOfAt(items, 3, next, top + 1, limit);
    forall i: nat | i < |items|
      ensures two[i] == Lower(three[i])
    {
      ReplyIsLowered(items[i], next, top + 1, limit);
    }
    AllLowered(two, three);
  }

  lemma {:induction false} SetLowered(es: seq<Entry>, entries: seq<Entry>, next: Order, top: nat, limit: nat)
    requires top + 4 <= limit && KindOf(es) == IsSet(entries)
    ensures ToReply(Table(es), 2, next, top, limit) == Lower(ToReply(Table(es), 3, next, top, limit))
    decreases Room(top, limit), 0
  {
    var order := next(entries);
    var two, three := KeysOf(order, 2, next, top + 3, limit), KeysOf(order, 3, next, top + 3, limit);
    SetIs(es, entries, 2, next, top, limit);
    SetIs(es, entries, 3, next, top, limit);
    KeysOfAt(order, 2, next, top + 3, limit);
    KeysOfAt(order, 3, next, top + 3, limit);
    forall i: nat | i < |order|
      ensures two[i] == Lower(three[i])
    {
      ReplyIsLowered(order[i].key, next, top + 3, limit);
    }
    AllLowered(two, three);
  }

  lemma {:induction false} MapLowered(es: seq<Entry>, entries: seq<Entry>, next: Order, top: nat, limit: nat)
    requires top + 4 <= limit && KindOf(es) == IsMap(entries)
    ensures ToReply(Table(es), 2, next, top, limit) == Lower(ToReply(Table(es), 3, next, top, limit))
    decreases Room(top, limit), 0
  {
    var order := next(entries);
    var two, three := PairsOf(order, 2, next, top + 3, limit), PairsOf(order, 3, next, top + 3, limit);
    MapIs(es, entries, 2, next, top, limit);
    MapIs(es, entries, 3, next, top, limit);
    PairsOfAt(order, 2, next, top + 3, limit);
    PairsOfAt(order, 3, next, top + 3, limit);
    forall i: nat | i < |order|
      ensures two[i] == LowerPair(three[i])
    {
      EntryLowered(order[i], next, top + 3, limit);
    }
    AllPairsLowered(two, three);
  }

  lemma {:induction false} EntryLowered(e: Entry, next: Order, top: nat, limit: nat)
    ensures PairOf(e, 2, next, top, limit) == LowerPair(PairOf(e, 3, next, top, limit))
    decreases Room(top, limit), 2
  {
    ReplyIsLowered(e.key, next, top + 1, limit);
    ReplyIsLowered(e.val, next, top, limit);
  }

  lemma AllLowered(two: seq<Reply>, three: seq<Reply>)
    requires |two| == |three| && forall i: nat | i < |two| :: two[i] == Lower(three[i])
    ensures two == LowerItems(three, |three|)
  {
    forall i: nat | i < |three|
      ensures two[i] == LowerItems(three, |three|)[i]
    {
      LowerAt(three, |three|, i);
    }
  }

  lemma AllPairsLowered(two: seq<Pair>, three: seq<Pair>)
    requires |two| == |three| && forall i: nat | i < |two| :: two[i] == LowerPair(three[i])
    ensures two == LowerPairs(three, |three|)
  {
    forall i: nat | i < |three|
      ensures two[i] == LowerPairs(three, |three|)[i]
    {
      LowerPairAt(three, |three|, i);
    }
  }

  /** Truth survives: a boolean sent under protocol 2 and read back is a true value exactly when it was true. */
  lemma TruthSurvives(b: bool, next: Order, top: nat, limit: nat)
    requires top + 4 <= limit
    ensures var c := ToLua(ToReply(Bool(b), 2, next, top, limit), 2);
            c.Value? && (b <==> c.v != Nil && c.v != Bool(false))
  {
  }

  // ----- which replies come back -----

  /** No boolean, which protocol 2 has not, and no null array, which comes back as a null. */
  predicate Speaks(r: Reply)
    decreases r, 0
  {
    match r
    case Boolean(_) => false
    case ArrayNull => false
    case Array(items) => forall i | 0 <= i < |items| :: Speaks(items[i])
    case Set(members) => forall i | 0 <= i < |members| :: Speaks(members[i])
    case Map(pairs) => forall i | 0 <= i < |pairs| :: PairSpeaks(pairs[i])
    case _ => true
  }

  predicate PairSpeaks(p: Pair)
    decreases p, 0
  {
    Speaks(p.key) && Speaks(p.val)
  }

  predicate NoBoolean(r: Reply)
    decreases r, 0
  {
    match r
    case Boolean(_) => false
    case Array(items) => forall i | 0 <= i < |items| :: NoBoolean(items[i])
    case Set(members) => forall i | 0 <= i < |members| :: NoBoolean(members[i])
    case Map(pairs) => forall i | 0 <= i < |pairs| :: PairNoBoolean(pairs[i])
    case _ => true
  }

  predicate PairNoBoolean(p: Pair)
    decreases p, 0
  {
    NoBoolean(p.key) && NoBoolean(p.val)
  }

  /** No boolean is ever sent. */
  lemma {:induction false} LowerHasNone(r: Reply)
    ensures NoBoolean(Lower(r))
    decreases r, 0
  {
    match r
    case Array(items) => ItemsHaveNone(items, LowerItems(items, |items|));
    case Set(members) => ItemsHaveNone(members, LowerItems(members, |members|));
    case Map(pairs) => PairsHaveNone(pairs, LowerPairs(pairs, |pairs|));
    case _ =>
  }

  lemma {:induction false} ItemsHaveNone(items: seq<Reply>, ls: seq<Reply>)
    requires ls == LowerItems(items, |items|)
    ensures forall i | 0 <= i < |ls| :: NoBoolean(ls[i])
    decreases items, 1
  {
    forall i: nat | i < |items|
      ensures NoBoolean(ls[i])
    {
      LowerAt(items, |items|, i);
      LowerHasNone(items[i]);
    }
  }

  lemma {:induction false} PairsHaveNone(pairs: seq<Pair>, ls: seq<Pair>)
    requires ls == LowerPairs(pairs, |pairs|)
    ensures forall i | 0 <= i < |ls| :: PairNoBoolean(ls[i])
    decreases pairs, 1
  {
    forall i: nat | i < |pairs|
      ensures PairNoBoolean(ls[i])
    {
      LowerPairAt(pairs, |pairs|, i);
      LowerPairHasNone(pairs[i]);
    }
  }

  lemma {:induction false} LowerPairHasNone(p: Pair)
    ensures PairNoBoolean(LowerPair(p))
    decreases p, 1
  {
    LowerHasNone(p.key);
    LowerHasNone(p.val);
  }

  // ----- weights -----

  /** Lowering leaves the weight as it is. */
  lemma {:induction false} LowerWeight(r: Reply)
    ensures Weight(Lower(r)) == Weight(r)
    decreases r
  {
    match r
    case Boolean(b) => OneIsOne();
    case Array(items) => LowerItemsWeight(items, |items|, LowerItems(items, |items|));
    case Set(members) => LowerItemsWeight(members, |members|, LowerItems(members, |members|));
    case Map(pairs) => LowerPairsWeight(pairs, |pairs|, LowerPairs(pairs, |pairs|));
    case _ =>
  }

  lemma OneIsOne()
    ensures Weight(Integer(1)) == 0
  {
    assert Quantum(1) == 1;
  }

  lemma {:induction false} LowerItemsWeight(items: seq<Reply>, n: nat, ls: seq<Reply>)
    requires n <= |items| && ls == LowerItems(items, |items|)
    ensures ItemsWeight(ls, n) == ItemsWeight(items, n)
    decreases items, n
  {
    if n > 0 {
      LowerItemsWeight(items, n - 1, ls);
      LowerAt(items, |items|, n - 1);
      LowerWeight(items[n - 1]);
    }
  }

  lemma {:induction false} LowerPairsWeight(pairs: seq<Pair>, n: nat, ls: seq<Pair>)
    requires n <= |pairs| && ls == LowerPairs(pairs, |pairs|)
    ensures PairsWeight(ls, n) == PairsWeight(pairs, n)
    decreases pairs, n
  {
    if n > 0 {
      LowerPairsWeight(pairs, n - 1, ls);
      LowerPairAt(pairs, |pairs|, n - 1);
      LowerPairWeight(pairs[n - 1]);
    }
  }

  lemma {:induction false} LowerPairWeight(p: Pair)
    ensures PairWeight(LowerPair(p)) == PairWeight(p)
    decreases p
  {
    LowerWeight(p.key);
    LowerWeight(p.val);
  }

  /** Lifting makes nothing heavier, and a null array lighter. */
  lemma {:induction false} LiftWeight(r: Reply)
    ensures Weight(Lift(r)) <= Weight(r)
    ensures Weight(Lift(r)) == Weight(r) && NoBoolean(r) ==> Speaks(r)
    decreases r
  {
    match r
    case Array(items) => LiftItemsWeight(items, |items|, LiftItems(items, |items|));
    case Set(members) => LiftItemsWeight(members, |members|, LiftItems(members, |members|));
    case Map(pairs) => LiftPairsWeight(pairs, |pairs|, LiftPairs(pairs, |pairs|));
    case _ =>
  }

  lemma {:induction false} LiftItemsWeight(items: seq<Reply>, n: nat, ls: seq<Reply>)
    requires n <= |items| && ls == LiftItems(items, |items|)
    ensures ItemsWeight(ls, n) <= ItemsWeight(items, n)
    ensures ItemsWeight(ls, n) == ItemsWeight(items, n) && (forall i | 0 <= i < n :: NoBoolean(items[i]))
            ==> forall i | 0 <= i < n :: Speaks(items[i])
    decreases items, n
  {
    if n > 0 {
      LiftItemsWeight(items, n - 1, ls);
      LiftAt(items, |items|, n - 1);
      LiftWeight(items[n - 1]);
    }
  }

  lemma {:induction false} LiftPairsWeight(pairs: seq<Pair>, n: nat, ls: seq<Pair>)
    requires n <= |pairs| && ls == LiftPairs(pairs, |pairs|)
    ensures PairsWeight(ls, n) <= PairsWeight(pairs, n)
    ensures PairsWeight(ls, n) == PairsWeight(pairs, n) && (forall i | 0 <= i < n :: PairNoBoolean(pairs[i]))
            ==> forall i | 0 <= i < n :: PairSpeaks(pairs[i])
    decreases pairs, n
  {
    if n > 0 {
      LiftPairsWeight(pairs, n - 1, ls);
      LiftPairAt(pairs, |pairs|, n - 1);
      LiftPairWeight(pairs[n - 1]);
    }
  }

  lemma {:induction false} LiftPairWeight(p: Pair)
    ensures PairWeight(LiftPair(p)) <= PairWeight(p)
    ensures PairWeight(LiftPair(p)) == PairWeight(p) && PairNoBoolean(p) ==> PairSpeaks(p)
    decreases p
  {
    LiftWeight(p.key);
    LiftWeight(p.val);
  }

  /** What protocol 2 can say is lifted and lowered to itself. */
  lemma {:induction false} LoweredBack(r: Reply)
    requires Speaks(r)
    ensures Lower(Lift(r)) == r
    decreases r, 0
  {
    match r
    case Array(items) => ItemsBack(items, LiftItems(items, |items|));
    case Set(members) => ItemsBack(members, LiftItems(members, |members|));
    case Map(pairs) => PairsBack(pairs, LiftPairs(pairs, |pairs|));
    case _ =>
  }

  lemma {:induction false} ItemsBack(items: seq<Reply>, ls: seq<Reply>)
    requires ls == LiftItems(items, |items|) && forall i | 0 <= i < |items| :: Speaks(items[i])
    ensures LowerItems(ls, |ls|) == items
    decreases items, 1
  {
    forall i: nat | i < |items|
      ensures items[i] == Lower(ls[i])
    {
      LiftAt(items, |items|, i);
      LoweredBack(items[i]);
    }
    AllLowered(items, ls);
  }

  lemma {:induction false} PairsBack(pairs: seq<Pair>, ls: seq<Pair>)
    requires ls == LiftPairs(pairs, |pairs|) && forall i | 0 <= i < |pairs| :: PairSpeaks(pairs[i])
    ensures LowerPairs(ls, |ls|) == pairs
    decreases pairs, 1
  {
    forall i: nat | i < |pairs|
      ensures pairs[i] == LowerPair(ls[i])
    {
      LiftPairAt(pairs, |pairs|, i);
      PairBack(pairs[i]);
    }
    AllPairsLowered(pairs, ls);
  }

  lemma {:induction false} PairBack(p: Pair)
    requires PairSpeaks(p)
    ensures LowerPair(LiftPair(p)) == p
    decreases p, 1
  {
    LoweredBack(p.key);
    LoweredBack(p.val);
  }

  // ----- shapes -----

  /** Replies of one shape have booleans or not alike. */
  lemma {:induction false} SameNoBoolean(a: Reply, b: Reply)
    requires ShapeOf(a) == ShapeOf(b) && NoBoolean(a)
    ensures NoBoolean(b)
    decreases a
  {
    match a
    case Array(items) =>
      ArrayShape(Shapes(items, |items|), b);
      ItemsNoBoolean(items, b.items);
    case Set(members) =>
      SetShape(multiset(Shapes(members, |members|)), b);
      MembersNoBoolean(members, b.members);
    case Map(pairs) =>
      MapShape(multiset(PairShapes(pairs, |pairs|)), b);
      PairsNoBoolean(pairs, b.pairs);
    case _ =>
      LeafShape(a, b);
  }

  lemma {:induction false} ItemsNoBoolean(xs: seq<Reply>, ys: seq<Reply>)
    requires |xs| == |ys| && Shapes(xs, |xs|) == Shapes(ys, |ys|) && forall i | 0 <= i < |xs| :: NoBoolean(xs[i])
    ensures forall i | 0 <= i < |ys| :: NoBoolean(ys[i])
    decreases xs, 0
  {
    forall i | 0 <= i < |ys|
      ensures NoBoolean(ys[i])
    {
      ShapesAt(xs, |xs|, i);
      ShapesAt(ys, |ys|, i);
      SameNoBoolean(xs[i], ys[i]);
    }
  }

  lemma {:induction false} MembersNoBoolean(xs: seq<Reply>, ys: seq<Reply>)
    requires multiset(Shapes(xs, |xs|)) == multiset(Shapes(ys, |ys|)) && forall i | 0 <= i < |xs| :: NoBoolean(xs[i])
    ensures forall i | 0 <= i < |ys| :: NoBoolean(ys[i])
    decreases xs, 0
  {
    forall i | 0 <= i < |ys|
      ensures NoBoolean(ys[i])
    {
      var j := MemberLike(ys, i, xs);
      SameNoBoolean(xs[j], ys[i]);
    }
  }

  lemma {:induction false} PairsNoBoolean(xs: seq<Pair>, ys: seq<Pair>)
    requires multiset(PairShapes(xs, |xs|)) == multiset(PairShapes(ys, |ys|))
    requires forall i | 0 <= i < |xs| :: PairNoBoolean(xs[i])
    ensures forall i | 0 <= i < |ys| :: PairNoBoolean(ys[i])
    decreases xs, 0
  {
    forall i | 0 <= i < |ys|
      ensures PairNoBoolean(ys[i])
    {
      var j := PairLike(ys, i, xs);
      SamePairNoBoolean(xs[j], ys[i]);
    }
  }

  lemma {:induction false} SamePairNoBoolean(p: Pair, q: Pair)
    requires PairShapeOf(p) == PairShapeOf(q) && PairNoBoolean(p)
    ensures PairNoBoolean(q)
    decreases p
  {
    SameNoBoolean(p.key, q.key);
    SameNoBoolean(p.val, q.val);
  }

  lemma MemberLike(xs: seq<Reply>, i: nat, ys: seq<Reply>) returns (j: nat)
    requires i < |xs| && multiset(Shapes(xs, |xs|)) == multiset(Shapes(ys, |ys|))
    ensures j < |ys| && ShapeOf(ys[j]) == ShapeOf(xs[i])
  {
    ShapesAt(xs, |xs|, i);
    assert Shapes(xs, |xs|)[i] in multiset(Shapes(xs, |xs|));
    j := IndexIn(ShapeOf(xs[i]), Shapes(ys, |ys|));
    ShapesAt(ys, |ys|, j);
  }

  lemma PairLike(xs: seq<Pair>, i: nat, ys: seq<Pair>) returns (j: nat)
    requires i < |xs| && multiset(PairShapes(xs, |xs|)) == multiset(PairShapes(ys, |ys|))
    ensures j < |ys| && PairShapeOf(ys[j]) == PairShapeOf(xs[i])
  {
    PairShapesAt(xs, |xs|, i);
    assert PairShapes(xs, |xs|)[i] in multiset(PairShapes(xs, |xs|));
    j := IndexIn(PairShapeOf(xs[i]), PairShapes(ys, |ys|));
    PairShapesAt(ys, |ys|, j);
  }

  lemma LowerRemoved(ys: seq<Reply>, j: nat, zs: seq<Reply>, lys: seq<Reply>, lzs: seq<Reply>)
    requires j < |ys| && zs == ys[..j] + ys[j + 1..]
    requires lys == LowerItems(ys, |ys|) && lzs == LowerItems(zs, |zs|)
    ensures lys[j] == Lower(ys[j]) && lzs == lys[..j] + lys[j + 1..]
  {
    LowerAt(ys, |ys|, j);
    forall i: nat | i < |zs|
      ensures lzs[i] == (lys[..j] + lys[j + 1..])[i]
    {
      LowerAt(zs, |zs|, i);
      LowerAt(ys, |ys|, if i < j then i else i + 1);
    }
  }

  lemma LowerPairsRemoved(ys: seq<Pair>, j: nat, zs: seq<Pair>, lys: seq<Pair>, lzs: seq<Pair>)
    requires j < |ys| && zs == ys[..j] + ys[j + 1..]
    requires lys == LowerPairs(ys, |ys|) && lzs == LowerPairs(zs, |zs|)
    ensures lys[j] == LowerPair(ys[j]) && lzs == lys[..j] + lys[j + 1..]
  {
    LowerPairAt(ys, |ys|, j);
    forall i: nat | i < |zs|
      ensures lzs[i] == (lys[..j] + lys[j + 1..])[i]
    {
      LowerPairAt(zs, |zs|, i);
      LowerPairAt(ys, |ys|, if i < j then i else i + 1);
    }
  }

  lemma OneMore<A>(front: seq<A>, x: A, rest: seq<A>, all: seq<A>, j: nat)
    requires j < |all| && all[j] == x && rest == all[..j] + all[j + 1..] && multiset(front) == multiset(rest)
    ensures multiset(front + [x]) == multiset(all)
  {
    Without(all, j);
  }

  lemma NoneLeft<A>(s: seq<A>)
    requires multiset(s) == multiset{}
    ensures s == []
  {
    assert |multiset(s)| == |s|;
  }

  /** One element more on each side, of one shape. */
  lemma MemberMore(lxs: seq<Reply>, n: nat, lys: seq<Reply>, j: nat, lzs: seq<Reply>)
    requires 0 < n <= |lxs| && j < |lys| && ShapeOf(lys[j]) == ShapeOf(lxs[n - 1]) && lzs == lys[..j] + lys[j + 1..]
    requires multiset(Shapes(lxs, n - 1)) == multiset(Shapes(lzs, |lzs|))
    ensures multiset(Shapes(lxs, n)) == multiset(Shapes(lys, |lys|))
  {
    ShapesRemoved(lys, j, lzs, Shapes(lys, |lys|));
    ShapesAt(lys, |lys|, j);
    OneMore(Shapes(lxs, n - 1), ShapeOf(lxs[n - 1]), Shapes(lzs, |lzs|), Shapes(lys, |lys|), j);
  }

  lemma PairMore(lxs: seq<Pair>, n: nat, lys: seq<Pair>, j: nat, lzs: seq<Pair>)
    requires 0 < n <= |lxs| && j < |lys| && PairShapeOf(lys[j]) == PairShapeOf(lxs[n - 1]) && lzs == lys[..j] + lys[j + 1..]
    requires multiset(PairShapes(lxs, n - 1)) == multiset(PairShapes(lzs, |lzs|))
    ensures multiset(PairShapes(lxs, n)) == multiset(PairShapes(lys, |lys|))
  {
    PairShapesRemoved(lys, j, lzs, PairShapes(lys, |lys|));
    PairShapesAt(lys, |lys|, j);
    OneMore(PairShapes(lxs, n - 1), PairShapeOf(lxs[n - 1]), PairShapes(lzs, |lzs|), PairShapes(lys, |lys|), j);
  }

  lemma ShapeOfSet(r: Reply, members: seq<Reply>)
    requires r == Set(members)
    ensures ShapeOf(r) == SetOf(multiset(Shapes(members, |members|)))
  {
  }

  lemma ShapeOfMap(r: Reply, pairs: seq<Pair>)
    requires r == Map(pairs)
    ensures ShapeOf(r) == MapOf(multiset(PairShapes(pairs, |pairs|)))
  {
  }

  lemma SameSets(a: Reply, b: Reply, xs: seq<Reply>, ys: seq<Reply>)
    requires a == Set(xs) && b == Set(ys) && multiset(Shapes(xs, |xs|)) == multiset(Shapes(ys, |ys|))
    ensures ShapeOf(a) == ShapeOf(b)
  {
    ShapeOfSet(a, xs);
    ShapeOfSet(b, ys);
  }

  lemma SameMaps(a: Reply, b: Reply, xs: seq<Pair>, ys: seq<Pair>)
    requires a == Map(xs) && b == Map(ys) && multiset(PairShapes(xs, |xs|)) == multiset(PairShapes(ys, |ys|))
    ensures ShapeOf(a) == ShapeOf(b)
  {
    ShapeOfMap(a, xs);
    ShapeOfMap(b, ys);
  }

  lemma ArraySameLowered(items: seq<Reply>, ys: seq<Reply>)
    requires |items| == |ys| && Shapes(LowerItems(items, |items|), |items|) == Shapes(LowerItems(ys, |ys|), |ys|)
    ensures ShapeOf(Lower(Array(items))) == ShapeOf(Lower(Array(ys)))
  {
  }

  /** Lowering replies of one shape gives replies of one shape. */
  lemma {:induction false} SameLowered(a: Reply, b: Reply)
    requires ShapeOf(a) == ShapeOf(b)
    ensures ShapeOf(Lower(a)) == ShapeOf(Lower(b))
    decreases a, 2
  {
    match a
    case Array(items) => SameArrayLowered(a, b, items);
    case Set(members) => SameSetLowered(a, b, members);
    case Map(pairs) => SameMapLowered(a, b, pairs);
    case _ => LeafShape(a, b);
  }

  lemma {:induction false} SameArrayLowered(a: Reply, b: Reply, xs: seq<Reply>)
    requires a == Array(xs) && ShapeOf(a) == ShapeOf(b)
    ensures ShapeOf(Lower(a)) == ShapeOf(Lower(b))
    decreases a, 1
  {
    ArrayShape(Shapes(xs, |xs|), b);
    ItemsSameLowered(xs, b.items);
    ArraySameLowered(xs, b.items);
  }

  lemma {:induction false} SameSetLowered(a: Reply, b: Reply, xs: seq<Reply>)
    requires a == Set(xs) && ShapeOf(a) == ShapeOf(b)
    ensures ShapeOf(Lower(a)) == ShapeOf(Lower(b))
    decreases a, 1
  {
    SetShape(multiset(Shapes(xs, |xs|)), b);
    var ys := b.members;
    MembersSameLowered(xs, LowerItems(xs, |xs|), |xs|, ys);
    SameSets(Lower(a), Lower(b), LowerItems(xs, |xs|), LowerItems(ys, |ys|));
  }

  lemma {:induction false} SameMapLowered(a: Reply, b: Reply, xs: seq<Pair>)
    requires a == Map(xs) && ShapeOf(a) == ShapeOf(b)
    ensures ShapeOf(Lower(a)) == ShapeOf(Lower(b))
    decreases a, 1
  {
    MapShape(multiset(PairShapes(xs, |xs|)), b);
    var ys := b.pairs;
    PairsSameLowered(xs, LowerPairs(xs, |xs|), |xs|, ys);
    SameMaps(Lower(a), Lower(b), LowerPairs(xs, |xs|), LowerPairs(ys, |ys|));
  }

  lemma {:induction false} ItemsSameLowered(xs: seq<Reply>, ys: seq<Reply>)
    requires |xs| == |ys| && Shapes(xs, |xs|) == Shapes(ys, |ys|)
    ensures Shapes(LowerItems(xs, |xs|), |xs|) == Shapes(LowerItems(ys, |ys|), |ys|)
    decreases xs, 0
  {
    var lxs, lys := LowerItems(xs, |xs|), LowerItems(ys, |ys|);
    forall i | 0 <= i < |lxs|
      ensures ShapeOf(lxs[i]) == ShapeOf(lys[i])
    {
      ShapesAt(xs, |xs|, i);
      ShapesAt(ys, |ys|, i);
      LowerAt(xs, |xs|, i);
      LowerAt(ys, |ys|, i);
      SameLowered(xs[i], ys[i]);
    }
    SameShapes(lxs, lys);
  }

  lemma {:induction false} MembersSameLowered(xs: seq<Reply>, lxs: seq<Reply>, n: nat, ys: seq<Reply>)
    requires n <= |xs| && lxs == LowerItems(xs, |xs|) && multiset(Shapes(xs, n)) == multiset(Shapes(ys, |ys|))
    ensures multiset(Shapes(lxs, n)) == multiset(Shapes(LowerItems(ys, |ys|), |ys|))
    decreases xs, n
  {
    if n == 0 {
      NoneLeft(Shapes(ys, |ys|));
    } else {
      var j, zs := ShapesWithout(xs, n, ys);
      var lys, lzs := LowerItems(ys, |ys|), LowerItems(zs, |zs|);
      MembersSameLowered(xs, lxs, n - 1, zs);
      SameLowered(xs[n - 1], ys[j]);
      LoweredMore(xs, lxs, n, ys, j, zs, lys, lzs);
    }
  }

  lemma LoweredMore(xs: seq<Reply>, lxs: seq<Reply>, n: nat, ys: seq<Reply>, j: nat, zs: seq<Reply>, lys: seq<Reply>,
                    lzs: seq<Reply>)
    requires 0 < n <= |xs| && j < |ys| && zs == ys[..j] + ys[j + 1..] && ShapeOf(Lower(xs[n - 1])) == ShapeOf(Lower(ys[j]))
    requires lxs == LowerItems(xs, |xs|) && lys == LowerItems(ys, |ys|) && lzs == LowerItems(zs, |zs|)
    requires multiset(Shapes(lxs, n - 1)) == multiset(Shapes(lzs, |lzs|))
    ensures multiset(Shapes(lxs, n)) == multiset(Shapes(lys, |lys|))
  {
    LowerAt(xs, |xs|, n - 1);
    LowerRemoved(ys, j, zs, lys, lzs);
    MemberMore(lxs, n, lys, j, lzs);
  }

  lemma {:induction false} PairsSameLowered(xs: seq<Pair>, lxs: seq<Pair>, n: nat, ys: seq<Pair>)
    requires n <= |xs| && lxs == LowerPairs(xs, |xs|) && multiset(PairShapes(xs, n)) == multiset(PairShapes(ys, |ys|))
    ensures multiset(PairShapes(lxs, n)) == multiset(PairShapes(LowerPairs(ys, |ys|), |ys|))
    decreases xs, n
  {
    if n == 0 {
      NoneLeft(PairShapes(ys, |ys|));
    } else {
      var j, zs := PairShapesWithout(xs, n, ys);
      var lys, lzs := LowerPairs(ys, |ys|), LowerPairs(zs, |zs|);
      PairsSameLowered(xs, lxs, n - 1, zs);
      SamePairLowered(xs[n - 1], ys[j]);
      LoweredPairMore(xs, lxs, n, ys, j, zs, lys, lzs);
    }
  }

  lemma LoweredPairMore(xs: seq<Pair>, lxs: seq<Pair>, n: nat, ys: seq<Pair>, j: nat, zs: seq<Pair>, lys: seq<Pair>,
                        lzs: seq<Pair>)
    requires 0 < n <= |xs| && j < |ys| && zs == ys[..j] + ys[j + 1..]
    requires PairShapeOf(LowerPair(xs[n - 1])) == PairShapeOf(LowerPair(ys[j]))
    requires lxs == LowerPairs(xs, |xs|) && lys == LowerPairs(ys, |ys|) && lzs == LowerPairs(zs, |zs|)
    requires multiset(PairShapes(lxs, n - 1)) == multiset(PairShapes(lzs, |lzs|))
    ensures multiset(PairShapes(lxs, n)) == multiset(PairShapes(lys, |lys|))
  {
    LowerPairAt(xs, |xs|, n - 1);
    LowerPairsRemoved(ys, j, zs, lys, lzs);
    PairMore(lxs, n, lys, j, lzs);
  }

  lemma {:induction false} SamePairLowered(p: Pair, q: Pair)
    requires PairShapeOf(p) == PairShapeOf(q)
    ensures PairShapeOf(LowerPair(p)) == PairShapeOf(LowerPair(q))
    decreases p
  {
    SameLowered(p.key, q.key);
    SameLowered(p.val, q.val);
  }

  // ----- both directions -----

  lemma {:induction false} SaneLifted(r: Reply, top: nat, limit: nat)
    requires Sane(r) && Fits(r, top, limit)
    ensures Sane(Lift(r)) && Fits(Lift(r), top, limit)
    decreases r, 0
  {
    match r
    case Array(items) =>
      ItemsSaneLifted(items, LiftItems(items, |items|), top + 1, limit);
    case Set(members) =>
      ItemsSaneLifted(members, LiftItems(members, |members|), top + 3, limit);
    case Map(pairs) =>
      PairsSaneLifted(pairs, LiftPairs(pairs, |pairs|), top + 3, limit);
    case _ =>
  }

  lemma {:induction false} ItemsSaneLifted(items: seq<Reply>, ls: seq<Reply>, top: nat, limit: nat)
    requires ls == LiftItems(items, |items|) && forall i | 0 <= i < |items| :: Sane(items[i]) && Fits(items[i], top, limit)
    ensures forall i | 0 <= i < |ls| :: Sane(ls[i]) && Fits(ls[i], top, limit)
    decreases items, 1
  {
    forall i: nat | i < |items|
      ensures Sane(ls[i]) && Fits(ls[i], top, limit)
    {
      LiftAt(items, |items|, i);
      SaneLifted(items[i], top, limit);
    }
  }

  lemma {:induction false} PairsSaneLifted(pairs: seq<Pair>, ls: seq<Pair>, top: nat, limit: nat)
    requires ls == LiftPairs(pairs, |pairs|)
    requires forall i | 0 <= i < |pairs| :: PairSane(pairs[i]) && PairFits(pairs[i], top, limit)
    ensures forall i | 0 <= i < |ls| :: PairSane(ls[i]) && PairFits(ls[i], top, limit)
    decreases pairs, 1
  {
    forall i: nat | i < |pairs|
      ensures PairSane(ls[i]) && PairFits(ls[i], top, limit)
    {
      LiftPairAt(pairs, |pairs|, i);
      PairSaneLifted(pairs[i], top, limit);
    }
  }

  lemma {:induction false} PairSaneLifted(p: Pair, top: nat, limit: nat)
    requires PairSane(p) && PairFits(p, top, limit)
    ensures PairSane(LiftPair(p)) && PairFits(LiftPair(p), top, limit)
    decreases p, 1
  {
    SaneLifted(p.key, top + 1, limit);
    SaneLifted(p.val, top, limit);
  }

  /** The Lua value, for RESP2. */
  function LuaOfTwo(r: Reply): Lua {
    var c := ToLua(r, 2);
    if c.Raised? then Nil else c.v
  }

  /** What comes back for a reply under RESP2. */
  function BackTwo(r: Reply, next: Order, top: nat, limit: nat): Reply {
    ToReply(LuaOfTwo(r), 2, next, top, limit)
  }

  lemma BackIsLowered(r: Reply, next: Order, top: nat, limit: nat)
    ensures BackTwo(r, next, top, limit) == Lower(Back(Lift(r), next, top, limit))
  {
    LuaIsLifted(r);
    ReplyIsLowered(LuaOfTwo(r), next, top, limit);
  }

  /**
    Under RESP2 a reply comes back the same, up to the order of maps and sets, if and only if it has neither
    booleans nor null arrays and would be faithful with false in place of its nulls: those survive, inside
    arrays as well.
   */
  lemma ExactTwo(r: Reply, next: Order, top: nat, limit: nat)
    requires Sane(r) && Fits(r, top, limit) && Visits(next)
    ensures ShapeOf(BackTwo(r, next, top, limit)) == ShapeOf(r) <==> Speaks(r) && Faithful(Lift(r))
  {
    var back := Back(Lift(r), next, top, limit);
    SaneLifted(r, top, limit);
    BackIsLowered(r, next, top, limit);
    if Speaks(r) && Faithful(Lift(r)) {
      RoundTrip(Lift(r), next, top, limit);
      SameLowered(back, Lift(r));
      LoweredBack(r);
    }
    if ShapeOf(Lower(back)) == ShapeOf(r) {
      LowerHasNone(back);
      SameNoBoolean(Lower(back), r);
      SameWeight(Lower(back), r);
      LowerWeight(back);
      Lighter(Lift(r), next, top, limit);
      LiftWeight(r);
    }
  }
}
