/** A reply sent through a Lua value comes back, up to the order of maps and sets. */
module RespShape {
  import opened Bytes
  import opened Resp
  import opened RespRoundTrip

  // ----- replies up to order -----

  /** A reply without the order of its maps and sets. */
  datatype Shape =
    | Leaf(r: Reply)
    | ArrayOf(items: seq<Shape>)
    | MapOf(pairs: multiset<PairShape>)
    | SetOf(members: multiset<Shape>)

  datatype PairShape = PairShape(key: Shape, val: Shape)

  function ShapeOf(r: Reply): Shape
    decreases r
  {
    match r
    case Array(items) => ArrayOf(Shapes(items, |items|))
    case Map(pairs) => MapOf(multiset(PairShapes(pairs, |pairs|)))
    case Set(members) => SetOf(multiset(Shapes(members, |members|)))
    case _ => Leaf(r)
  }

  function Shapes(items: seq<Reply>, n: nat): (ss: seq<Shape>)
    requires n <= |items|
    ensures |ss| == n
    decreases items, n
  {
    if n == 0 then [] else Shapes(items, n - 1) + [ShapeOf(items[n - 1])]
  }

  function PairShapes(pairs: seq<Pair>, n: nat): (ss: seq<PairShape>)
    requires n <= |pairs|
    ensures |ss| == n
    decreases pairs, n
  {
    if n == 0 then [] else PairShapes(pairs, n - 1) + [PairShapeOf(pairs[n - 1])]
  }

  function PairShapeOf(p: Pair): PairShape
    decreases p
  {
    PairShape(ShapeOf(p.key), ShapeOf(p.val))
  }

  lemma {:induction false} ShapesAt(items: seq<Reply>, n: nat, i: nat)
    requires i < n <= |items|
    ensures Shapes(items, n)[i] == ShapeOf(items[i])
    decreases n
  {
    if i < n - 1 {
      ShapesAt(items, n - 1, i);
    }
  }

  lemma {:induction false} PairShapesAt(pairs: seq<Pair>, n: nat, i: nat)
    requires i < n <= |pairs|
    ensures PairShapes(pairs, n)[i] == PairShapeOf(pairs[i])
    decreases n
  {
    if i < n - 1 {
      PairShapesAt(pairs, n - 1, i);
    }
  }

  // ----- permutations -----

  function Image<A, B>(f: A -> B, s: seq<A>): (t: seq<B>)
    ensures |t| == |s| && forall i | 0 <= i < |s| :: t[i] == f(s[i])
  {
    if s == [] then [] else [f(s[0])] + Image(f, s[1..])
  }

  lemma {:induction false} ImageWithout<A, B>(f: A -> B, s: seq<A>, k: nat)
    requires k < |s|
    ensures multiset(Image(f, s)) == multiset{f(s[k])} + multiset(Image(f, s[..k] + s[k + 1..]))
  {
    var t := s[..k] + s[k + 1..];
    var a, b := Image(f, s), Image(f, t);
    assert a == a[..k] + ([f(s[k])] + a[k + 1..]);
    assert b == a[..k] + a[k + 1..];
    MultisetSplit(a[..k], f(s[k]), a[k + 1..]);
  }

  lemma MultisetSplit<B>(a: seq<B>, x: B, b: seq<B>)
    ensures multiset(a + ([x] + b)) == multiset{x} + multiset(a + b)
  {
  }

  lemma Without<A>(s: seq<A>, k: nat)
    requires k < |s|
    ensures multiset(s) == multiset{s[k]} + multiset(s[..k] + s[k + 1..])
  {
    assert s == s[..k] + ([s[k]] + s[k + 1..]);
    MultisetSplit(s[..k], s[k], s[k + 1..]);
  }

  lemma Cancel<A>(a: multiset<A>, b: multiset<A>, x: A)
    requires multiset{x} + a == multiset{x} + b
    ensures a == b
  {
    assert a == (multiset{x} + a) - multiset{x};
    assert b == (multiset{x} + b) - multiset{x};
  }

  /** The images of a permutation are a permutation of the images. */
  lemma {:induction false} ImagePermutes<A, B>(f: A -> B, s: seq<A>, t: seq<A>)
    requires multiset(s) == multiset(t)
    ensures multiset(Image(f, s)) == multiset(Image(f, t))
    decreases |s|
  {
    if s == [] {
      assert |multiset(t)| == 0;
    } else {
      var x := s[0];
      assert x in multiset(s);
      var k := IndexIn(x, t);
      var u := t[..k] + t[k + 1..];
      Without(t, k);
      Without(s, 0);
      assert s[..0] + s[1..] == s[1..];
      Cancel(multiset(s[1..]), multiset(u), x);
      ImagePermutes(f, s[1..], u);
      ImageWithout(f, t, k);
      ImageWithout(f, s, 0);
    }
  }

  lemma IndexIn<A>(x: A, t: seq<A>) returns (k: nat)
    requires x in multiset(t)
    ensures k < |t| && t[k] == x
  {
    assert x in t;
    k :| k < |t| && t[k] == x;
  }

  /** lua_next visits every entry of a table once, in any order. */
  ghost predicate Visits(next: Order) {
    forall es :: multiset(next(es)) == multiset(es)
  }

  // ----- arrays -----

  lemma {:induction false} NoFields(es: seq<Entry>, name: seq<byte>)
    requires forall i | 0 <= i < |es| :: es[i].key.Number?
    ensures Field(es, name) == Nil
  {
    if es != [] {
      NoFields(es[1..], name);
    }
  }

  lemma {:induction false} NoNumber(es: seq<Entry>, low: nat, high: nat, j: nat)
    requires j <= low && forall i | 0 <= i < |es| :: SlotKey(es[i], low, high)
    ensures Find(es, Number(j as real)) == Nil
  {
    if es != [] {
      assert SlotKey(es[0], low, high);
      NoNumber(es[1..], low, high, j);
    }
  }

  lemma NumbersAreArray(es: seq<Entry>)
    requires forall i | 0 <= i < |es| :: es[i].key.Number?
    ensures KindOf(es) == IsArray(ArrayPart(es, 1))
  {
    NoFields(es, ERR);
    NoFields(es, OK);
    NoFields(es, DOUBLE);
    NoFields(es, BIG_NUMBER);
    NoFields(es, VERBATIM);
    NoFields(es, MAP);
    NoFields(es, SET);
    NoTags(es, Field(es, VERBATIM));
  }

  lemma NoTags(es: seq<Entry>, v: Lua)
    requires Field(es, ERR) == Nil && Field(es, OK) == Nil && Field(es, DOUBLE) == Nil && Field(es, BIG_NUMBER) == Nil
    requires v == Field(es, VERBATIM) == Nil && Field(es, MAP) == Nil && Field(es, SET) == Nil
    ensures KindOf(es) == IsArray(ArrayPart(es, 1))
  {
  }

  /** The first k items, none of them nil, then only entries beyond k + 1. */
  lemma {:induction false} SlotsCut(items: seq<Reply>, k: nat, n: nat) returns (tail: seq<Entry>)
    requires k <= n <= |items| && (k < |items| ==> LuaOf(items[k]).Nil?)
    ensures Slots(items, n) == Slots(items, k) + tail
    ensures forall i | 0 <= i < |tail| :: SlotKey(tail[i], k + 1, n)
    decreases n
  {
    tail := [];
    if k < n {
      tail := SlotsCut(items, k, n - 1);
      var v := LuaOf(items[n - 1]);
      if !v.Nil? {
        var more := tail + [Entry(Number(n as real), v)];
        assert Slots(items, k) + more == Slots(items, n);
        tail := more;
      }
    }
  }

  /** The values of the first k items. */
  function Values(items: seq<Reply>, k: nat): (vs: seq<Lua>)
    requires k <= |items|
    ensures |vs| == k && forall i | 0 <= i < k :: vs[i] == LuaOf(items[i])
  {
    if k == 0 then [] else Values(items, k - 1) + [LuaOf(items[k - 1])]
  }

  lemma {:induction false} SlotsAt(items: seq<Reply>, k: nat)
    requires k <= |items| && forall i | 0 <= i < k :: !LuaOf(items[i]).Nil?
    ensures |Slots(items, k)| == k
    ensures forall i | 0 <= i < k :: Slots(items, k)[i] == Entry(Number((1 + i) as real), LuaOf(items[i]))
  {
    if k != 0 {
      SlotsAt(items, k - 1);
    }
  }

  /** The array part is the values at j, j + 1 and so on in front of the tail. */
  lemma {:induction false} PartFrom(front: seq<Entry>, tail: seq<Entry>, j: nat, vs: seq<Lua>)
    requires |front| == |vs| && forall i | 0 <= i < |vs| :: !vs[i].Nil?
    requires forall i | 0 <= i < |vs| :: front[i] == Entry(Number((j + i) as real), vs[i])
    requires Find(tail, Number((j + |vs|) as real)) == Nil
    ensures ArrayPart(front + tail, j) == vs
    decreases |vs|
  {
    var es := front + tail;
    if vs == [] {
      assert es == tail;
    } else {
      assert es[0] == front[0] == Entry(Number(j as real), vs[0]);
      assert es[1..] == front[1..] + tail;
      assert Remove(es, Number(j as real)) == es[1..];
      forall i | 0 <= i < |vs[1..]| ensures front[1..][i] == Entry(Number((j + 1 + i) as real), vs[1..][i]) {
        assert front[1..][i] == front[i + 1];
      }
      PartFrom(front[1..], tail, j + 1, vs[1..]);
    }
  }

  lemma PartJoin(front: seq<Entry>, tail: seq<Entry>, vs: seq<Lua>, next: nat)
    requires |front| == |vs| && forall i | 0 <= i < |vs| :: !vs[i].Nil?
    requires forall i | 0 <= i < |vs| :: front[i] == Entry(Number((1 + i) as real), vs[i])
    requires next == 1 + |vs| && Find(tail, Number(next as real)) == Nil
    ensures ArrayPart(front + tail, 1) == vs
  {
    PartFrom(front, tail, 1, vs);
  }

  lemma PartOfItems(items: seq<Reply>, k: nat)
    requires k <= |items| && (k < |items| ==> LuaOf(items[k]).Nil?)
    requires forall i | 0 <= i < k :: !LuaOf(items[i]).Nil?
    ensures ArrayPart(Slots(items, |items|), 1) == Values(items, k)
  {
    var tail := SlotsCut(items, k, |items|);
    SlotsAt(items, k);
    NoNumber(tail, k + 1, |items|, k + 1);
    var front, vs := Slots(items, k), Values(items, k);
    PartJoin(front, tail, vs, 1 + k);
  }

  /** An array turns into a table whose array part ends before the first nil. */
  lemma ArrayPartOfItems(items: seq<Reply>, k: nat)
    requires k <= |items| && (k < |items| ==> LuaOf(items[k]).Nil?)
    requires forall i | 0 <= i < k :: !LuaOf(items[i]).Nil?
    ensures KindOf(Slots(items, |items|)) == IsArray(Values(items, k))
  {
    var es := Slots(items, |items|);
    SlotKeys(items, |items|);
    forall i | 0 <= i < |es| ensures es[i].key.Number? {
      assert SlotKey(es[i], 0, |items|);
    }
    NumbersAreArray(es);
    PartOfItems(items, k);
  }

  // ----- elements of converted aggregates -----

  lemma {:induction false} ItemsOfAt(items: seq<Lua>, resp: nat, next: Order, top: nat, limit: nat)
    ensures |ItemsOf(items, resp, next, top, limit)| == |items|
    ensures forall i | 0 <= i < |items| ::
        ItemsOf(items, resp, next, top, limit)[i] == ToReply(items[i], resp, next, top, limit)
    decreases |items|
  {
    if items != [] {
      ItemsOfAt(items[1..], resp, next, top, limit);
      assert items == [items[0]] + items[1..];
    }
  }

  function PairOf(e: Entry, resp: nat, next: Order, top: nat, limit: nat): Pair {
    Pair(ToReply(e.key, resp, next, top + 1, limit), ToReply(e.val, resp, next, top, limit))
  }

  lemma {:induction false} PairsOfAt(es: seq<Entry>, resp: nat, next: Order, top: nat, limit: nat)
    ensures |PairsOf(es, resp, next, top, limit)| == |es|
    ensures forall i | 0 <= i < |es| :: PairsOf(es, resp, next, top, limit)[i] == PairOf(es[i], resp, next, top, limit)
    decreases |es|
  {
    if es != [] {
      PairsOfAt(es[1..], resp, next, top, limit);
      assert es == [es[0]] + es[1..];
    }
  }

  lemma {:induction false} KeysOfAt(es: seq<Entry>, resp: nat, next: Order, top: nat, limit: nat)
    ensures |KeysOf(es, resp, next, top, limit)| == |es|
    ensures forall i | 0 <= i < |es| ::
        KeysOf(es, resp, next, top, limit)[i] == ToReply(es[i].key, resp, next, top, limit)
    decreases |es|
  {
    if es != [] {
      KeysOfAt(es[1..], resp, next, top, limit);
      assert es == [es[0]] + es[1..];
    }
  }

  lemma PairShapesImage(es: seq<Entry>, next: Order, top: nat, limit: nat, f: Entry -> PairShape, ps: seq<Pair>)
    requires ps == PairsOf(es, 3, next, top, limit)
    requires forall e :: f(e) == PairShapeOf(PairOf(e, 3, next, top, limit))
    ensures PairShapes(ps, |ps|) == Image(f, es)
  {
    PairsOfAt(es, 3, next, top, limit);
    forall i: nat | i < |es| ensures PairShapes(ps, |ps|)[i] == Image(f, es)[i] {
      PairShapesAt(ps, |ps|, i);
    }
  }

  /** Whatever the order of the visit, the pairs have the same shapes. */
  lemma PairsInAnyOrder(es: seq<Entry>, next: Order, top: nat, limit: nat)
    requires Visits(next)
    ensures var ps, qs := PairsOf(next(es), 3, next, top, limit), PairsOf(es, 3, next, top, limit);
      multiset(PairShapes(ps, |ps|)) == multiset(PairShapes(qs, |qs|))
  {
    var f := (e: Entry) => PairShapeOf(PairOf(e, 3, next, top, limit));
    PairShapesImage(next(es), next, top, limit, f, PairsOf(next(es), 3, next, top, limit));
    PairShapesImage(es, next, top, limit, f, PairsOf(es, 3, next, top, limit));
    ImagePermutes(f, next(es), es);
  }

  lemma KeyShapesImage(es: seq<Entry>, next: Order, top: nat, limit: nat, f: Entry -> Shape, rs: seq<Reply>)
    requires rs == KeysOf(es, 3, next, top, limit)
    requires forall e :: f(e) == ShapeOf(ToReply(e.key, 3, next, top, limit))
    ensures Shapes(rs, |rs|) == Image(f, es)
  {
    KeysOfAt(es, 3, next, top, limit);
    forall i: nat | i < |es| ensures Shapes(rs, |rs|)[i] == Image(f, es)[i] {
      ShapesAt(rs, |rs|, i);
    }
  }

  lemma KeysInAnyOrder(es: seq<Entry>, next: Order, top: nat, limit: nat)
    requires Visits(next)
    ensures var ps, qs := KeysOf(next(es), 3, next, top, limit), KeysOf(es, 3, next, top, limit);
      multiset(Shapes(ps, |ps|)) == multiset(Shapes(qs, |qs|))
  {
    var f := (e: Entry) => ShapeOf(ToReply(e.key, 3, next, top, limit));
    KeyShapesImage(next(es), next, top, limit, f, KeysOf(next(es), 3, next, top, limit));
    KeyShapesImage(es, next, top, limit, f, KeysOf(es, 3, next, top, limit));
    ImagePermutes(f, next(es), es);
  }

  // ----- the round trip -----

  /** Enough Lua stack to convert the value back when the stack is top high with the value on it. */
  predicate Fits(r: Reply, top: nat, limit: nat)
    decreases r, 0
  {
    top + 4 <= limit &&
    match r
    case Array(items) => forall i | 0 <= i < |items| :: Fits(items[i], top + 1, limit)
    case Map(pairs) => forall i | 0 <= i < |pairs| :: PairFits(pairs[i], top + 3, limit)
    case Set(members) => forall i | 0 <= i < |members| :: Fits(members[i], top + 3, limit)
    case _ => true
  }

  predicate PairFits(p: Pair, top: nat, limit: nat)
    decreases p, 0
  {
    Fits(p.key, top + 1, limit) && Fits(p.val, top, limit)
  }

  /** The field names are all different. */
  lemma NamesDiffer()
    ensures ERR != MAP && ERR != SET && MAP != SET && DOUBLE != STRING && DOUBLE != FORMAT && STRING != FORMAT
    ensures |ERR| == |MAP| == |SET| == 3 && |OK| == 2 && |DOUBLE| == |STRING| == |FORMAT| == 6
    ensures |BIG_NUMBER| == 10 && |VERBATIM| == 15 && |IGNORE| == 25
  {
    assert ERR[0] == 0x65 && MAP[0] == 0x6d && SET[0] == 0x73;
    assert DOUBLE[0] == 0x64 && STRING[0] == 0x73 && FORMAT[0] == 0x66;
  }

  lemma OneField(name: seq<byte>, v: Lua, other: seq<byte>)
    ensures Field(Tagged(name, v).entries, other) == if name == other then v else Nil
  {
    var es := Tagged(name, v).entries;
    assert es == [Entry(Str(name), v)] && es[1..] == [];
    assert Find(es[1..], Str(other)) == Nil;
  }

  lemma TwoFields(a: seq<byte>, v: Lua, b: seq<byte>, w: Lua, other: seq<byte>)
    ensures Field([Entry(Str(a), v), Entry(Str(b), w)], other) == if a == other then v else if b == other then w else Nil
  {
    var es := [Entry(Str(a), v), Entry(Str(b), w)];
    assert es[1..] == Tagged(b, w).entries;
    OneField(b, w, other);
  }

  /** A table with one field is of the kind its field says. */
  lemma TagKind(name: seq<byte>, v: Lua)
    ensures var k := KindOf(Tagged(name, v).entries);
      (name == OK && v.Str? ==> k == IsStatus(v.s)) &&
      (name == DOUBLE && v.Number? ==> k == IsDouble(v.x)) &&
      (name == BIG_NUMBER && v.Str? ==> k == IsBigNumber(v.s)) &&
      (name == VERBATIM && VerbatimFields(v) ==>
         k == IsVerbatim(Field(v.entries, STRING).s, Field(v.entries, FORMAT).s)) &&
      (name == MAP && v.Table? ==> k == IsMap(v.entries)) &&
      (name == SET && v.Table? ==> k == IsSet(v.entries))
  {
    NamesDiffer();
    var es := Tagged(name, v).entries;
    OneField(name, v, ERR);
    OneField(name, v, OK);
    OneField(name, v, DOUBLE);
    OneField(name, v, BIG_NUMBER);
    OneField(name, v, VERBATIM);
    OneField(name, v, MAP);
    OneField(name, v, SET);
    TagFields(name, v, es);
  }

  lemma TagFields(name: seq<byte>, v: Lua, es: seq<Entry>)
    requires Field(es, ERR) == if name == ERR then v else Nil
    requires Field(es, OK) == if name == OK then v else Nil
    requires Field(es, DOUBLE) == if name == DOUBLE then v else Nil
    requires Field(es, BIG_NUMBER) == if name == BIG_NUMBER then v else Nil
    requires Field(es, VERBATIM) == if name == VERBATIM then v else Nil
    requires Field(es, MAP) == if name == MAP then v else Nil
    requires Field(es, SET) == if name == SET then v else Nil
    ensures name == OK && v.Str? ==> KindOf(es) == IsStatus(v.s)
    ensures name == DOUBLE && v.Number? ==> KindOf(es) == IsDouble(v.x)
    ensures name == BIG_NUMBER && v.Str? ==> KindOf(es) == IsBigNumber(v.s)
    ensures name == VERBATIM && VerbatimFields(v) ==>
      KindOf(es) == IsVerbatim(Field(v.entries, STRING).s, Field(v.entries, FORMAT).s)
    ensures name == MAP && v.Table? ==> KindOf(es) == IsMap(v.entries)
    ensures name == SET && v.Table? ==> KindOf(es) == IsSet(v.entries)
  {
    NamesDiffer();
  }

  lemma ErrorKind(s: seq<byte>)
    ensures KindOf(ErrorTable(s).entries) == IsError(ErrorText(s))
  {
    TwoFields(ERR, Str(ErrorText(s)), IGNORE, Bool(true), ERR);
  }

  lemma VerbatimKind(s: seq<byte>, format: seq<byte>)
    ensures KindOf(Tagged(VERBATIM, VerbatimTable(s, format)).entries) == IsVerbatim(s, format)
  {
    NamesDiffer();
    TwoFields(STRING, Str(s), FORMAT, Str(format), STRING);
    TwoFields(STRING, Str(s), FORMAT, Str(format), FORMAT);
    TagKind(VERBATIM, VerbatimTable(s, format));
  }

  /** Converting a table of a known kind. */
  lemma TableReply(es: seq<Entry>, resp: nat, next: Order, top: nat, limit: nat)
    requires top + 4 <= limit
    ensures var k, r := KindOf(es), ToReply(Table(es), resp, next, top, limit);
      (k.IsMap? ==> r == Map(PairsOf(next(k.entries), resp, next, top + 3, limit))) &&
      (k.IsSet? ==> r == Set(KeysOf(next(k.entries), resp, next, top + 3, limit))) &&
      (k.IsArray? ==> r == Array(ItemsOf(k.items, resp, next, top + 1, limit)))
  {
  }

  /** What the table of an array gives back: the items before the first that is nil. */
  lemma ArrayReply(items: seq<Reply>, k: nat, next: Order, top: nat, limit: nat) returns (rs: seq<Reply>)
    requires top + 4 <= limit
    requires k <= |items| && (k < |items| ==> LuaOf(items[k]).Nil?)
    requires forall i | 0 <= i < k :: !LuaOf(items[i]).Nil?
    requires forall i | 0 <= i < |items| :: ToLua(items[i], 3).Value?
    ensures ToReply(LuaOf(Array(items)), 3, next, top, limit) == Array(rs)
    ensures |rs| == k && forall i | 0 <= i < k :: rs[i] == ToReply(LuaOf(items[i]), 3, next, top + 1, limit)
  {
    ItemsAreSlots(items, |items|);
    ArrayPartOfItems(items, k);
    TableReply(Slots(items, |items|), 3, next, top, limit);
    rs := ItemsOf(Values(items, k), 3, next, top + 1, limit);
    ItemsOfAt(Values(items, k), 3, next, top + 1, limit);
  }

  lemma SameShapes(a: seq<Reply>, b: seq<Reply>)
    requires |a| == |b| && forall i | 0 <= i < |a| :: ShapeOf(a[i]) == ShapeOf(b[i])
    ensures Shapes(a, |a|) == Shapes(b, |b|)
  {
    forall i: nat | i < |a| ensures Shapes(a, |a|)[i] == Shapes(b, |b|)[i] {
      ShapesAt(a, |a|, i);
      ShapesAt(b, |b|, i);
    }
  }

  lemma SamePairShapes(a: seq<Pair>, b: seq<Pair>)
    requires |a| == |b| && forall i | 0 <= i < |a| :: PairShapeOf(a[i]) == PairShapeOf(b[i])
    ensures PairShapes(a, |a|) == PairShapes(b, |b|)
  {
    forall i: nat | i < |a| ensures PairShapes(a, |a|)[i] == PairShapes(b, |b|)[i] {
      PairShapesAt(a, |a|, i);
      PairShapesAt(b, |b|, i);
    }
  }

  lemma MapValue(pairs: seq<Pair>, es: seq<Entry>, next: Order, top: nat, limit: nat)
    requires top + 4 <= limit && PairsToLua(pairs, |pairs|, 3) == Value(Table(es))
    ensures ToReply(LuaOf(Map(pairs)), 3, next, top, limit) == Map(PairsOf(next(es), 3, next, top + 3, limit))
  {
    assert LuaOf(Map(pairs)) == Tagged(MAP, Table(es));
    TagKind(MAP, Table(es));
    TableReply(Tagged(MAP, Table(es)).entries, 3, next, top, limit);
  }

  lemma SetValue(members: seq<Reply>, es: seq<Entry>, next: Order, top: nat, limit: nat)
    requires top + 4 <= limit && MembersToLua(members, |members|, 3) == Value(Table(es))
    ensures ToReply(LuaOf(Set(members)), 3, next, top, limit) == Set(KeysOf(next(es), 3, next, top + 3, limit))
  {
    assert LuaOf(Set(members)) == Tagged(SET, Table(es));
    TagKind(SET, Table(es));
    TableReply(Tagged(SET, Table(es)).entries, 3, next, top, limit);
  }

  lemma MapReply(pairs: seq<Pair>, es: seq<Entry>, next: Order, top: nat, limit: nat) returns (ps: seq<Pair>)
    requires top + 4 <= limit && Visits(next)
    requires PairsToLua(pairs, |pairs|, 3) == Value(Table(es))
    ensures ShapeOf(ToReply(LuaOf(Map(pairs)), 3, next, top, limit)) == MapOf(multiset(PairShapes(ps, |ps|)))
    ensures |ps| == |es| && forall i | 0 <= i < |es| :: ps[i] == PairOf(es[i], 3, next, top + 3, limit)
  {
    MapValue(pairs, es, next, top, limit);
    PairsInAnyOrder(es, next, top + 3, limit);
    ps := PairsOf(es, 3, next, top + 3, limit);
    PairsOfAt(es, 3, next, top + 3, limit);
  }

  lemma SetReply(members: seq<Reply>, es: seq<Entry>, next: Order, top: nat, limit: nat) returns (rs: seq<Reply>)
    requires top + 4 <= limit && Visits(next)
    requires MembersToLua(members, |members|, 3) == Value(Table(es))
    ensures ShapeOf(ToReply(LuaOf(Set(members)), 3, next, top, limit)) == SetOf(multiset(Shapes(rs, |rs|)))
    ensures |rs| == |es| && forall i | 0 <= i < |es| :: rs[i] == ToReply(es[i].key, 3, next, top + 3, limit)
  {
    SetValue(members, es, next, top, limit);
    KeysInAnyOrder(es, next, top + 3, limit);
    rs := KeysOf(es, 3, next, top + 3, limit);
    KeysOfAt(es, 3, next, top + 3, limit);
  }

  predicate Plain(r: Reply) {
    !Aggregate(r)
  }

  /** What comes back for a reply that is not an aggregate. */
  function Leafed(r: Reply): Reply
    requires Plain(r)
  {
    match r
    case Status(s) => Status(OneLine(CutAtNul(s)))
    case BigNumber(s) => BigNumber(OneLine(CutAtNul(s)))
    case Error(s) => Error(CutAtNul(ErrorText(s)))
    case Verbatim(s, format) => Verbatim(s, CutAtNul(FirstThree(format)))
    case Integer(n) => Integer(AsDouble(n))
    case ArrayNull => Null
    case _ => r
  }

  lemma LeafBack(r: Reply, next: Order, top: nat, limit: nat)
    requires Plain(r) && top + 4 <= limit
    ensures ToReply(LuaOf(r), 3, next, top, limit) == Leafed(r)
  {
    match r
    case Status(s) => TagKind(OK, Str(s));
    case BigNumber(s) => TagKind(BIG_NUMBER, Str(s));
    case Double(x) => TagKind(DOUBLE, Number(x));
    case Error(s) => ErrorKind(s);
    case Verbatim(s, format) => VerbatimKind(s, FirstThree(format));
    case _ =>
  }

  /** A reply that is not an aggregate comes back exactly when it is faithful. */
  lemma LeafReply(r: Reply, next: Order, top: nat, limit: nat)
    requires Plain(r) && top + 4 <= limit && (r.Verbatim? ==> |r.format| >= 3)
    ensures ToReply(LuaOf(r), 3, next, top, limit) == r <==> Faithful(r)
  {
    LeafBack(r, next, top, limit);
    match r
    case Status(s) => LineExact(s);
    case BigNumber(s) => LineExact(s);
    case Error(s) => ErrorExact(s);
    case Verbatim(s, format) => CutExact(FirstThree(format));
    case Integer(n) => IntegerExact(n);
    case _ =>
  }

  /**
    Under RESP3 a faithful reply that goes through a Lua value comes back the same, up to the order
    of maps and sets.
   */
  lemma {:induction false} RoundTrip(r: Reply, next: Order, top: nat, limit: nat)
    requires Faithful(r) && Fits(r, top, limit) && Visits(next)
    ensures ShapeOf(ToReply(LuaOf(r), 3, next, top, limit)) == ShapeOf(r)
    decreases r, 0
  {
    match r
    case Array(items) =>
      ConvertsItems(items, |items|);
      var rs := ArrayReply(items, |items|, next, top, limit);
      forall i | 0 <= i < |items| ensures ShapeOf(rs[i]) == ShapeOf(items[i]) {
        assert Within(items[i]);
        RoundTrip(items[i], next, top + 1, limit);
      }
      SameShapes(rs, items);
    case Map(pairs) =>
      var es := PairsConvert(pairs, |pairs|);
      var ps := MapReply(pairs, es, next, top, limit);
      forall i | 0 <= i < |pairs| ensures PairShapeOf(ps[i]) == PairShapeOf(pairs[i]) {
        RoundTripPair(pairs[i], next, top + 3, limit);
      }
      SamePairShapes(ps, pairs);
    case Set(members) =>
      var es := MembersConvert(members, |members|);
      var rs := SetReply(members, es, next, top, limit);
      forall i | 0 <= i < |members| ensures ShapeOf(rs[i]) == ShapeOf(members[i]) {
        assert Within(members[i]);
        RoundTrip(members[i], next, top + 3, limit);
      }
      SameShapes(rs, members);
    case _ => LeafReply(r, next, top, limit);
  }

  lemma {:induction false} RoundTripPair(p: Pair, next: Order, top: nat, limit: nat)
    requires PairWithin(p) && PairFits(p, top, limit) && Visits(next)
    ensures PairShapeOf(PairOf(EntryOf(p), 3, next, top, limit)) == PairShapeOf(p)
    decreases p, 0
  {
    RoundTrip(p.key, next, top + 1, limit);
    RoundTrip(p.val, next, top, limit);
  }

  // ----- what the shape keeps -----

  predicate Ordered(r: Reply)
    decreases r
  {
    !r.Map? && !r.Set? && (r.Array? ==> forall i | 0 <= i < |r.items| :: Ordered(r.items[i]))
  }

  /** A reply without maps and sets is its shape. */
  lemma {:induction false} OrderedIsShape(a: Reply, b: Reply)
    requires Ordered(a) && ShapeOf(a) == ShapeOf(b)
    ensures a == b
    decreases a
  {
    if a.Array? {
      var n := |a.items|;
      assert Shapes(a.items, n) == Shapes(b.items, |b.items|);
      forall i | 0 <= i < n ensures a.items[i] == b.items[i] {
        ShapesAt(a.items, n, i);
        ShapesAt(b.items, n, i);
        OrderedIsShape(a.items[i], b.items[i]);
      }
    }
  }

  /** An array is cut off at its first null, whatever comes after it. */
  lemma NullCutsArray(items: seq<Reply>, k: nat, next: Order, top: nat, limit: nat)
    requires k < |items| && items[k].Null? && forall i | 0 <= i < |items| :: items[i].Null? || Faithful(items[i])
    requires forall i | 0 <= i < k :: !items[i].Null? && Fits(items[i], top + 1, limit)
    requires top + 4 <= limit && Visits(next)
    ensures ShapeOf(ToReply(LuaOf(Array(items)), 3, next, top, limit)) == ShapeOf(Array(items[..k]))
  {
    forall i | 0 <= i < |items| ensures ToLua(items[i], 3).Value? && (LuaOf(items[i]).Nil? <==> items[i].Null?) {
      if !items[i].Null? {
        ConvertsOne(items[i]);
      }
    }
    var rs := ArrayReply(items, k, next, top, limit);
    forall i | 0 <= i < k ensures ShapeOf(rs[i]) == ShapeOf(items[..k][i]) {
      RoundTrip(items[i], next, top + 1, limit);
    }
    SameShapes(rs, items[..k]);
  }

  predicate SameKind(a: Reply, b: Reply) {
    (a.Bulk? <==> b.Bulk?) && (a.Status? <==> b.Status?) && (a.Integer? <==> b.Integer?) && (a.Array? <==> b.Array?) &&
    (a.Map? <==> b.Map?) && (a.Set? <==> b.Set?) && (a.Boolean? <==> b.Boolean?) && (a.Double? <==> b.Double?) &&
    (a.BigNumber? <==> b.BigNumber?) && (a.Verbatim? <==> b.Verbatim?) && (a.Error? <==> b.Error?)
  }

  lemma {:induction false} ItemsKeys(items: seq<Reply>, n: nat) returns (es: seq<Entry>)
    requires n <= |items| && ItemsToLua(items, n, 3).Value?
    ensures ItemsToLua(items, n, 3) == Value(Table(es))
    ensures forall i | 0 <= i < |es| :: es[i].key.Number?
  {
    es := [];
    if n != 0 {
      var before := ItemsKeys(items, n - 1);
      NumberSet(before, Number(n as real), LuaOf(items[n - 1]));
      es := SetField(before, Number(n as real), LuaOf(items[n - 1]));
    }
  }

  lemma {:induction false} NumberSet(es: seq<Entry>, key: Lua, val: Lua)
    requires key.Number? && forall i | 0 <= i < |es| :: es[i].key.Number?
    ensures forall i | 0 <= i < |SetField(es, key, val)| :: SetField(es, key, val)[i].key.Number?
  {
    if es != [] {
      NumberSet(es[1..], key, val);
    }
  }

  lemma TableOfPairs(pairs: seq<Pair>, n: nat) returns (es: seq<Entry>)
    requires n <= |pairs| && PairsToLua(pairs, n, 3).Value?
    ensures PairsToLua(pairs, n, 3) == Value(Table(es))
  {
    es := PairsToLua(pairs, n, 3).v.entries;
  }

  lemma TableOfMembers(members: seq<Reply>, n: nat) returns (es: seq<Entry>)
    requires n <= |members| && MembersToLua(members, n, 3).Value?
    ensures MembersToLua(members, n, 3) == Value(Table(es))
  {
    es := MembersToLua(members, n, 3).v.entries;
  }

  /** No reply, faithful or not, comes back as another kind of reply; the two nulls are one kind. */
  lemma KindKept(r: Reply, next: Order, top: nat, limit: nat)
    requires ToLua(r, 3).Value? && top + 4 <= limit
    ensures SameKind(r, ToReply(LuaOf(r), 3, next, top, limit))
  {
    match r
    case Array(items) =>
      var es := ItemsKeys(items, |items|);
      NumbersAreArray(es);
    case Map(pairs) =>
      var es := TableOfPairs(pairs, |pairs|);
      TagKind(MAP, Table(es));
    case Set(members) =>
      var es := TableOfMembers(members, |members|);
      TagKind(SET, Table(es));
    case _ => LeafBack(r, next, top, limit);
  }
}
