/**
  When a reply comes back unchanged, in both directions. Every conversion there and back makes a reply
  lighter, or leaves its weight alone if the reply is faithful; so nothing unfaithful comes back the same,
  even where changes inside a set might seem to cancel out.
 */
module RespExact {
  import opened Powers
  import opened Bytes
  import opened Resp
  import opened RespRoundTrip
  import opened RespShape

  // ----- weights -----

  /** Behind its line ends the text starts with a dash. */
  predicate Dashed(c: seq<byte>) {
    c != [] && (c[0] == 0x2d || (LineEnd(c[0]) && Dashed(c[1..])))
  }

  function ErrorWeight(s: seq<byte>): nat {
    |s| + if Dashed(CutAtNul(s)) then 5 else 0
  }

  /** How much of the reply can still get lost. */
  function Weight(r: Reply): nat
    decreases r
  {
    match r
    case Bulk(_) => 0
    case Status(s) => if OneLiner(s) then 0 else 1
    case Integer(n) => if Representable(n) then 0 else 1
    case Array(items) => 1 + ItemsWeight(items, |items|)
    case Null => 0
    case ArrayNull => 1
    case Map(pairs) => 1 + PairsWeight(pairs, |pairs|)
    case Set(members) => 1 + ItemsWeight(members, |members|)
    case Boolean(_) => 0
    case Double(_) => 0
    case BigNumber(s) => if OneLiner(s) then 0 else 1
    case Verbatim(_, format) => |format|
    case Error(s) => ErrorWeight(s)
  }

  function ItemsWeight(items: seq<Reply>, n: nat): nat
    requires n <= |items|
    decreases items, n
  {
    if n == 0 then 0 else ItemsWeight(items, n - 1) + 1 + Weight(items[n - 1])
  }

  function PairsWeight(pairs: seq<Pair>, n: nat): nat
    requires n <= |pairs|
    decreases pairs, n
  {
    if n == 0 then 0 else PairsWeight(pairs, n - 1) + PairWeight(pairs[n - 1])
  }

  function PairWeight(p: Pair): (w: nat)
    ensures 0 < w
    decreases p
  {
    1 + Weight(p.key) + Weight(p.val)
  }

  // ----- leaves -----

  lemma {:induction false} OneLineClean(s: seq<byte>)
    requires CString(s)
    ensures OneLiner(OneLine(s))
  {
    if s != [] {
      assert CString(s[1..]) by {
        forall i | 0 <= i < |s[1..]| ensures s[1..][i] != 0 {
          assert s[1..][i] == s[i + 1];
        }
      }
      OneLineClean(s[1..]);
      assert s[0] != 0;
    }
  }

  lemma LineSettles(s: seq<byte>)
    ensures OneLiner(OneLine(CutAtNul(s)))
  {
    CutExact(s);
    OneLineClean(CutAtNul(s));
  }

  /** Every multiple of the distance next to m is representable. */
  lemma {:induction false} GridQuantum(m: nat, g: nat) returns (r: nat)
    requires m / Quantum(m) <= g <= m / Quantum(m) + 1
    ensures r == g * Quantum(m) && r % Quantum(r) == 0
  {
    if m < 0x20_0000_0000_0000 {
      r := g;
      QuantumDivides(g);
    } else {
      var p := Quantum(m / 2);
      HalfQuotient(m, p);
      var h := GridQuantum(m / 2, g);
      Doubled(h);
      r := 2 * h;
      TwiceProduct(g, p);
    }
  }

  lemma TwiceProduct(g: nat, p: nat)
    ensures 2 * (g * p) == g * (2 * p)
  {
  }

  lemma HalfQuotient(m: nat, p: nat)
    requires 0 < p
    ensures m / (2 * p) == m / 2 / p
  {
    var q, r := m / 2 / p, m / 2 % p;
    assert m / 2 == p * q + r;
    assert m == 2 * p * q + (2 * r + m % 2);
    DivisionIs(m, 2 * p, q, 2 * r + m % 2);
  }

  lemma DoubledParts(h: nat, q: nat, k: nat)
    requires 0 < q && h == q * k
    ensures 2 * h % (2 * q) == 0
  {
    assert 2 * q * k == 2 * (q * k);
    DivisionIs(2 * h, 2 * q, k, 0);
  }

  lemma Doubled(h: nat)
    requires h % Quantum(h) == 0
    ensures 2 * h % Quantum(2 * h) == 0
  {
    if 2 * h >= 0x20_0000_0000_0000 {
      assert 2 * h / 2 == h;
      DoubledParts(h, Quantum(h), h / Quantum(h));
    }
  }

  /** A rounded integer rounds to itself. */
  lemma RoundingSettles(n: int)
    ensures Representable(AsDouble(n))
  {
    var m := if n < 0 then -n else n;
    var q := Quantum(m);
    NearestSettles(m, q, Nearest(m, q));
  }

  lemma NearestSettles(m: nat, q: nat, r: int)
    requires q == Quantum(m) && r == Nearest(m, q)
    ensures 0 <= r && r % Quantum(r) == 0
  {
    var g := NearestGrid(m, q);
    var h := GridQuantum(m, g);
  }

  lemma NearestGrid(m: nat, q: nat) returns (g: nat)
    requires 0 < q
    ensures m / q <= g <= m / q + 1 && Nearest(m, q) == g * q
  {
    g := if Nearest(m, q) == m / q * q then m / q else m / q + 1;
  }

  lemma {:induction false} TrimKeepsDash(c: seq<byte>)
    ensures Dashed(Trim(c)) ==> Dashed(c)
    decreases |c|
  {
    if c != [] && LineEnd(c[0]) {
      TrimKeepsDash(c[1..]);
    } else if c != [] && LineEnd(c[|c| - 1]) {
      TrimKeepsDash(c[..|c| - 1]);
      if Dashed(c[..|c| - 1]) {
        DashedPrefix(c[..|c| - 1], c);
      }
    }
  }

  lemma {:induction false} DashedPrefix(a: seq<byte>, c: seq<byte>)
    requires a <= c && Dashed(a)
    ensures Dashed(c)
  {
    if a[0] != 0x2d {
      DashedPrefix(a[1..], c[1..]);
    }
  }

  lemma {:induction false} TrimShorter(s: seq<byte>)
    ensures |Trim(s)| <= |s| && (|Trim(s)| == |s| ==> Trim(s) == s) && (CString(s) ==> CString(Trim(s)))
  {
    TrimExact(s);
    if s != [] && LineEnd(s[0]) {
      TrimExact(s[1..]);
    } else if s != [] && LineEnd(s[|s| - 1]) {
      TrimExact(s[..|s| - 1]);
    }
  }

  /** The text that comes back for an error. */
  function ErrorBack(s: seq<byte>): seq<byte> {
    CutAtNul(ErrorText(s))
  }

  lemma CutTwice(s: seq<byte>)
    ensures CutAtNul(CutAtNul(s)) == CutAtNul(s)
  {
    CutExact(s);
    CutExact(CutAtNul(s));
  }

  /** An error text that changes gets lighter. */
  lemma ErrorLighter(s: seq<byte>)
    ensures ErrorWeight(ErrorBack(s)) <= ErrorWeight(s)
    ensures ErrorWeight(ErrorBack(s)) == ErrorWeight(s) ==> PlainError(s)
  {
    var c, t := CutAtNul(s), ErrorText(s);
    CutExact(s);
    CutExact(t);
    CutTwice(t);
    ErrorExact(s);
    if c == [] || c[0] != 0x2d {
      TrimmedLighter(s, c, t);
    } else {
      DashedLighter(s, c, t);
    }
  }

  lemma TrimmedLighter(s: seq<byte>, c: seq<byte>, t: seq<byte>)
    requires c == CutAtNul(s) && t == Trim(c) && CString(c) && |c| <= |s|
    ensures |CutAtNul(t)| + (if Dashed(CutAtNul(t)) then 5 else 0) <= ErrorWeight(s)
    ensures |CutAtNul(t)| + (if Dashed(CutAtNul(t)) then 5 else 0) == ErrorWeight(s) ==> CutAtNul(t) == s
  {
    TrimShorter(c);
    TrimKeepsDash(c);
    CutExact(t);
    CutExact(s);
  }

  lemma DashedLighter(s: seq<byte>, c: seq<byte>, t: seq<byte>)
    requires c == CutAtNul(s) && |c| <= |s| && c != [] && c[0] == 0x2d && t == ErrorText(s)
    requires |CutAtNul(t)| <= |t|
    ensures |CutAtNul(t)| + (if Dashed(CutAtNul(t)) then 5 else 0) < ErrorWeight(s)
  {
    var k := SpaceAt(c);
    if k < |c| {
      var tail := Trim(c[k + 1..]);
      TrimExact(c[k + 1..]);
      assert t == c[1..k] + [0x20] + tail;
    } else {
      assert t == ERR_PREFIX + c[1..];
      FirstKept(t);
      assert !Dashed(CutAtNul(t));
    }
  }

  /** Every verbatim string in the reply has a format of at least three characters. */
  predicate Sane(r: Reply)
    decreases r, 0
  {
    match r
    case Array(items) => forall i | 0 <= i < |items| :: Sane(items[i])
    case Map(pairs) => forall i | 0 <= i < |pairs| :: PairSane(pairs[i])
    case Set(members) => forall i | 0 <= i < |members| :: Sane(members[i])
    case Verbatim(_, format) => 3 <= |format|
    case _ => true
  }

  predicate PairSane(p: Pair)
    decreases p, 0
  {
    Sane(p.key) && Sane(p.val)
  }

  lemma LeafLighter(r: Reply)
    requires Plain(r) && Sane(r)
    ensures Weight(Leafed(r)) <= Weight(r)
    ensures Weight(Leafed(r)) == Weight(r) ==> Faithful(r)
  {
    match r
    case Status(s) => LineSettles(s);
    case BigNumber(s) => LineSettles(s);
    case Integer(n) => RoundingSettles(n);
    case Error(s) => ErrorLighter(s);
    case Verbatim(s, format) =>
      CutExact(FirstThree(format));
      if |format| == 3 {
        assert FirstThree(format) == format;
      }
    case _ =>
  }

  // ----- sums -----

  function Sum<A>(f: A -> nat, s: seq<A>): nat {
    if s == [] then 0 else f(s[0]) + Sum(f, s[1..])
  }

  lemma {:induction false} SumJoins<A>(f: A -> nat, a: seq<A>, b: seq<A>)
    ensures Sum(f, a + b) == Sum(f, a) + Sum(f, b)
  {
    if a == [] {
      assert a + b == b;
    } else {
      SumJoins(f, a[1..], b);
      assert (a + b)[1..] == a[1..] + b;
    }
  }

  lemma SumOfOne<A>(f: A -> nat, x: A)
    ensures Sum(f, [x]) == f(x)
  {
    assert [x][1..] == [];
  }

  lemma SumWithout<A>(f: A -> nat, s: seq<A>, k: nat)
    requires k < |s|
    ensures Sum(f, s) == f(s[k]) + Sum(f, s[..k] + s[k + 1..])
  {
    assert s == s[..k] + ([s[k]] + s[k + 1..]);
    SumAround(f, s[..k], s[k], s[k + 1..]);
  }

  lemma SumAround<A>(f: A -> nat, a: seq<A>, x: A, b: seq<A>)
    ensures Sum(f, a + ([x] + b)) == f(x) + Sum(f, a + b)
  {
    SumJoins(f, a, [x] + b);
    SumJoins(f, [x], b);
    SumOfOne(f, x);
    SumJoins(f, a, b);
  }

  lemma {:induction false} SumPermutes<A>(f: A -> nat, s: seq<A>, t: seq<A>)
    requires multiset(s) == multiset(t)
    ensures Sum(f, s) == Sum(f, t)
    decreases |s|
  {
    if s == [] {
      assert |multiset(t)| == 0;
    } else {
      var x := s[0];
      assert x in multiset(s);
      var k := IndexIn(x, t);
      var u := t[..k] + t[k + 1..];
      Without(t, k);
      Without(s, 0);
      assert s[..0] + s[1..] == s[1..];
      Cancel(multiset(s[1..]), multiset(u), x);
      SumPermutes(f, s[1..], u);
      SumWithout(f, t, k);
    }
  }

  /** Setting a field adds at most its weight, and all of it only where the key is new and the value is not nil. */
  lemma {:induction false} SetFieldSum(f: Entry -> nat, es: seq<Entry>, key: Lua, val: Lua)
    requires forall e :: 0 < f(e)
    ensures Sum(f, SetField(es, key, val)) <= Sum(f, es) + f(Entry(key, val))
    ensures Sum(f, SetField(es, key, val)) == Sum(f, es) + f(Entry(key, val)) ==> Absent(es, key) && !val.Nil?
  {
    SumOfOne(f, Entry(key, val));
    if es != [] {
      if es[0].key == key && !key.Table? {
        SumJoins(f, [Entry(key, val)], es[1..]);
        assert 0 < f(es[0]);
      } else {
        SetFieldSum(f, es[1..], key, val);
        SumJoins(f, [es[0]], SetField(es[1..], key, val));
        SumOfOne(f, es[0]);
        AbsentMore(es, key);
      }
    }
  }

  lemma AbsentMore(es: seq<Entry>, key: Lua)
    requires es != [] && (es[0].key != key || key.Table?)
    ensures Absent(es[1..], key) ==> Absent(es, key)
  {
    if Absent(es[1..], key) {
      forall i | 0 <= i < |es| ensures es[i].key != key || key.Table? {
        if i > 0 {
          assert es[1..][i - 1] == es[i];
        }
      }
    }
  }

  lemma {:induction false} ItemsWeightSum(items: seq<Reply>, n: nat, f: Reply -> nat)
    requires n <= |items| && forall r :: f(r) == 1 + Weight(r)
    ensures ItemsWeight(items, n) == Sum(f, items[..n])
    decreases n
  {
    if n > 0 {
      ItemsWeightSum(items, n - 1, f);
      assert items[..n] == items[..n - 1] + [items[n - 1]];
      SumJoins(f, items[..n - 1], [items[n - 1]]);
      SumOfOne(f, items[n - 1]);
    }
  }

  lemma {:induction false} PairsWeightSum(pairs: seq<Pair>, n: nat, f: Pair -> nat)
    requires n <= |pairs| && forall p :: f(p) == PairWeight(p)
    ensures PairsWeight(pairs, n) == Sum(f, pairs[..n])
    decreases n
  {
    if n > 0 {
      PairsWeightSum(pairs, n - 1, f);
      assert pairs[..n] == pairs[..n - 1] + [pairs[n - 1]];
      SumJoins(f, pairs[..n - 1], [pairs[n - 1]]);
      SumOfOne(f, pairs[n - 1]);
    }
  }

  // ----- replies of one shape have one weight -----

  lemma ItemsWithout(ys: seq<Reply>, j: nat, zs: seq<Reply>)
    requires j < |ys| && zs == ys[..j] + ys[j + 1..]
    ensures ItemsWeight(ys, |ys|) == 1 + Weight(ys[j]) + ItemsWeight(zs, |zs|)
  {
    var f := (r: Reply) => 1 + Weight(r);
    ItemsWeightSum(ys, |ys|, f);
    ItemsWeightSum(zs, |zs|, f);
    assert ys[..|ys|] == ys && zs[..|zs|] == zs;
    SumWithout(f, ys, j);
  }

  lemma PairsWithout(ys: seq<Pair>, j: nat, zs: seq<Pair>)
    requires j < |ys| && zs == ys[..j] + ys[j + 1..]
    ensures PairsWeight(ys, |ys|) == PairWeight(ys[j]) + PairsWeight(zs, |zs|)
  {
    var f := (p: Pair) => PairWeight(p);
    PairsWeightSum(ys, |ys|, f);
    PairsWeightSum(zs, |zs|, f);
    assert ys[..|ys|] == ys && zs[..|zs|] == zs;
    SumWithout(f, ys, j);
  }

  lemma OneMoreOf<A>(front: seq<A>, x: A, b: seq<A>)
    requires multiset(front + [x]) == multiset(b)
    ensures multiset(b) == multiset{x} + multiset(front) && x in multiset(b)
  {
  }

  lemma ShapesRemoved(ys: seq<Reply>, j: nat, zs: seq<Reply>, b: seq<Shape>)
    requires j < |ys| && b == Shapes(ys, |ys|) && zs == ys[..j] + ys[j + 1..]
    ensures Shapes(zs, |zs|) == b[..j] + b[j + 1..]
  {
    var c := Shapes(zs, |zs|);
    forall i: nat | i < |zs| ensures c[i] == (b[..j] + b[j + 1..])[i] {
      ShapesRemovedAt(ys, j, zs, b, i);
    }
  }

  lemma ShapesRemovedAt(ys: seq<Reply>, j: nat, zs: seq<Reply>, b: seq<Shape>, i: nat)
    requires j < |ys| && b == Shapes(ys, |ys|) && zs == ys[..j] + ys[j + 1..] && i < |zs|
    ensures Shapes(zs, |zs|)[i] == if i < j then b[i] else b[i + 1]
  {
    ShapesAt(zs, |zs|, i);
    ShapesAt(ys, |ys|, if i < j then i else i + 1);
  }

  lemma PairShapesRemoved(ys: seq<Pair>, j: nat, zs: seq<Pair>, b: seq<PairShape>)
    requires j < |ys| && b == PairShapes(ys, |ys|) && zs == ys[..j] + ys[j + 1..]
    ensures PairShapes(zs, |zs|) == b[..j] + b[j + 1..]
  {
    var c := PairShapes(zs, |zs|);
    forall i: nat | i < |zs| ensures c[i] == (b[..j] + b[j + 1..])[i] {
      PairShapesRemovedAt(ys, j, zs, b, i);
    }
  }

  lemma PairShapesRemovedAt(ys: seq<Pair>, j: nat, zs: seq<Pair>, b: seq<PairShape>, i: nat)
    requires j < |ys| && b == PairShapes(ys, |ys|) && zs == ys[..j] + ys[j + 1..] && i < |zs|
    ensures PairShapes(zs, |zs|)[i] == if i < j then b[i] else b[i + 1]
  {
    PairShapesAt(zs, |zs|, i);
    PairShapesAt(ys, |ys|, if i < j then i else i + 1);
  }

  /** Taking away an element of each with one shape leaves collections of one shape. */
  lemma ShapesWithout(xs: seq<Reply>, n: nat, ys: seq<Reply>) returns (j: nat, zs: seq<Reply>)
    requires 0 < n <= |xs| && multiset(Shapes(xs, n)) == multiset(Shapes(ys, |ys|))
    ensures j < |ys| && ShapeOf(ys[j]) == ShapeOf(xs[n - 1])
    ensures zs == ys[..j] + ys[j + 1..] && multiset(Shapes(xs, n - 1)) == multiset(Shapes(zs, |zs|))
  {
    var front, b, x := Shapes(xs, n - 1), Shapes(ys, |ys|), ShapeOf(xs[n - 1]);
    assert Shapes(xs, n) == front + [x];
    OneMoreOf(front, x, b);
    j := IndexIn(x, b);
    ShapesAt(ys, |ys|, j);
    zs := ys[..j] + ys[j + 1..];
    ShapesRemoved(ys, j, zs, b);
    Without(b, j);
    Cancel(multiset(front), multiset(b[..j] + b[j + 1..]), x);
  }

  lemma PairShapesWithout(xs: seq<Pair>, n: nat, ys: seq<Pair>) returns (j: nat, zs: seq<Pair>)
    requires 0 < n <= |xs| && multiset(PairShapes(xs, n)) == multiset(PairShapes(ys, |ys|))
    ensures j < |ys| && PairShapeOf(ys[j]) == PairShapeOf(xs[n - 1])
    ensures zs == ys[..j] + ys[j + 1..] && multiset(PairShapes(xs, n - 1)) == multiset(PairShapes(zs, |zs|))
  {
    var front, b, x := PairShapes(xs, n - 1), PairShapes(ys, |ys|), PairShapeOf(xs[n - 1]);
    assert PairShapes(xs, n) == front + [x];
    OneMoreOf(front, x, b);
    j := IndexIn(x, b);
    PairShapesAt(ys, |ys|, j);
    zs := ys[..j] + ys[j + 1..];
    PairShapesRemoved(ys, j, zs, b);
    Without(b, j);
    Cancel(multiset(front), multiset(b[..j] + b[j + 1..]), x);
  }

  lemma LeafShape(a: Reply, b: Reply)
    requires Plain(a) && ShapeOf(a) == ShapeOf(b)
    ensures a == b
  {
  }

  lemma SetShape(ms: multiset<Shape>, b: Reply)
    requires ShapeOf(b) == SetOf(ms)
    ensures b.Set? && ms == multiset(Shapes(b.members, |b.members|))
  {
  }

  lemma MapShape(ms: multiset<PairShape>, b: Reply)
    requires ShapeOf(b) == MapOf(ms)
    ensures b.Map? && ms == multiset(PairShapes(b.pairs, |b.pairs|))
  {
  }

  lemma ArrayShape(ss: seq<Shape>, b: Reply)
    requires ShapeOf(b) == ArrayOf(ss)
    ensures b.Array? && ss == Shapes(b.items, |b.items|) && |ss| == |b.items|
  {
  }

  lemma {:induction false} SameWeight(a: Reply, b: Reply)
    requires ShapeOf(a) == ShapeOf(b)
    ensures Weight(a) == Weight(b)
    decreases a
  {
    match a
    case Array(items) =>
      ArrayShape(Shapes(items, |items|), b);
      SameItems(items, |items|, b.items);
    case Set(members) =>
      SetShape(multiset(Shapes(members, |members|)), b);
      SameMembers(members, |members|, b.members);
    case Map(pairs) =>
      MapShape(multiset(PairShapes(pairs, |pairs|)), b);
      SamePairs(pairs, |pairs|, b.pairs);
    case _ =>
      LeafShape(a, b);
  }

  lemma {:induction false} SameItems(xs: seq<Reply>, n: nat, ys: seq<Reply>)
    requires n <= |xs| == |ys| && Shapes(xs, |xs|) == Shapes(ys, |ys|)
    ensures ItemsWeight(xs, n) == ItemsWeight(ys, n)
    decreases xs, n
  {
    if n > 0 {
      SameItems(xs, n - 1, ys);
      ShapesAt(xs, |xs|, n - 1);
      ShapesAt(ys, |ys|, n - 1);
      SameWeight(xs[n - 1], ys[n - 1]);
    }
  }

  lemma {:induction false} SameMembers(xs: seq<Reply>, n: nat, ys: seq<Reply>)
    requires n <= |xs| && multiset(Shapes(xs, n)) == multiset(Shapes(ys, |ys|))
    ensures ItemsWeight(xs, n) == ItemsWeight(ys, |ys|)
    decreases xs, n
  {
    if n == 0 {
      assert |multiset(Shapes(ys, |ys|))| == 0;
    } else {
      var j, zs := ShapesWithout(xs, n, ys);
      SameMembers(xs, n - 1, zs);
      SameWeight(xs[n - 1], ys[j]);
      ItemsWithout(ys, j, zs);
    }
  }

  lemma {:induction false} SamePairs(xs: seq<Pair>, n: nat, ys: seq<Pair>)
    requires n <= |xs| && multiset(PairShapes(xs, n)) == multiset(PairShapes(ys, |ys|))
    ensures PairsWeight(xs, n) == PairsWeight(ys, |ys|)
    decreases xs, n
  {
    if n == 0 {
      assert |multiset(PairShapes(ys, |ys|))| == 0;
    } else {
      var j, zs := PairShapesWithout(xs, n, ys);
      SamePairs(xs, n - 1, zs);
      SamePairWeight(xs[n - 1], ys[j]);
      PairsWithout(ys, j, zs);
    }
  }

  lemma {:induction false} SamePairWeight(p: Pair, q: Pair)
    requires PairShapeOf(p) == PairShapeOf(q)
    ensures PairWeight(p) == PairWeight(q)
    decreases p
  {
    SameWeight(p.key, q.key);
    SameWeight(p.val, q.val);
  }

  // ----- there and back -----

  /** What comes back for a reply under RESP3. */
  function Back(r: Reply, next: Order, top: nat, limit: nat): Reply {
    ToReply(LuaOf(r), 3, next, top, limit)
  }

  predicate PairsClean(pairs: seq<Pair>, n: nat)
    requires n <= |pairs|
  {
    (forall i | 0 <= i < n :: PairWithin(pairs[i])) &&
    (forall i, j | 0 <= i < j < n :: Apart(pairs[i].key, pairs[j].key))
  }

  predicate MembersClean(members: seq<Reply>, n: nat)
    requires n <= |members|
  {
    (forall i | 0 <= i < n :: Within(members[i])) &&
    (forall i, j | 0 <= i < j < n :: Apart(members[i], members[j]))
  }

  /** The entries so far are those of the first n pairs, none lost. */
  predicate Kept(es: seq<Entry>, pairs: seq<Pair>, n: nat)
    requires n <= |pairs|
  {
    |es| == n && forall i | 0 <= i < n :: es[i] == EntryOf(pairs[i])
  }

  predicate KeptMembers(es: seq<Entry>, members: seq<Reply>, n: nat)
    requires n <= |members|
  {
    |es| == n && forall i | 0 <= i < n :: es[i] == MemberEntry(members[i])
  }

  lemma ScalarKeys(a: Reply)
    requires Scalar(a)
    ensures !LuaOf(a).Table?
  {
  }

  lemma CleanMore(pairs: seq<Pair>, n: nat, es: seq<Entry>, p: Pair)
    requires n < |pairs| && p == pairs[n] && Kept(es, pairs, n) && PairsClean(pairs, n) && PairWithin(p)
    requires Absent(es, LuaOf(p.key))
    ensures PairsClean(pairs, n + 1) && Kept(es + [EntryOf(p)], pairs, n + 1)
  {
    forall i, j | 0 <= i < j < n + 1 ensures Apart(pairs[i].key, pairs[j].key) {
      if j == n && Scalar(pairs[i].key) {
        ScalarKeys(pairs[i].key);
        assert es[i] == EntryOf(pairs[i]);
      }
    }
  }

  lemma MembersMore(members: seq<Reply>, n: nat, es: seq<Entry>, m: Reply)
    requires n < |members| && m == members[n] && KeptMembers(es, members, n) && MembersClean(members, n) && Within(m)
    requires Absent(es, LuaOf(m))
    ensures MembersClean(members, n + 1) && KeptMembers(es + [MemberEntry(m)], members, n + 1)
  {
    forall i, j | 0 <= i < j < n + 1 ensures Apart(members[i], members[j]) {
      if j == n && Scalar(members[i]) {
        ScalarKeys(members[i]);
        assert es[i] == MemberEntry(members[i]);
      }
    }
  }

  /** The weight of what the entries of a map come back as. */
  ghost predicate WeighsPairs(f: Entry -> nat, next: Order, top: nat, limit: nat) {
    forall e :: f(e) == PairWeight(PairOf(e, 3, next, top, limit))
  }

  ghost predicate WeighsKeys(f: Entry -> nat, next: Order, top: nat, limit: nat) {
    forall e :: f(e) == 1 + Weight(KeyOf(e, next, top, limit))
  }

  function KeyOf(e: Entry, next: Order, top: nat, limit: nat): Reply {
    ToReply(e.key, 3, next, top, limit)
  }

  lemma MapWeight(es: seq<Entry>, next: Order, top: nat, limit: nat, f: Entry -> nat, ps: seq<Pair>)
    requires WeighsPairs(f, next, top, limit) && ps == PairsOf(es, 3, next, top, limit)
    ensures PairsWeight(ps, |ps|) == Sum(f, es)
  {
    PairsOfAt(es, 3, next, top, limit);
    forall i | 0 <= i < |es|
      ensures f(es[i]) == PairWeight(ps[i])
    {
      assert ps[i] == PairOf(es[i], 3, next, top, limit);
    }
    PairSums(es, f, ps, |es|);
    assert es[..|es|] == es;
  }

  lemma SumToNext(f: Entry -> nat, es: seq<Entry>, n: nat)
    requires n < |es|
    ensures Sum(f, es[..n + 1]) == Sum(f, es[..n]) + f(es[n])
  {
    assert es[..n + 1] == es[..n] + [es[n]];
    SumJoins(f, es[..n], [es[n]]);
    SumOfOne(f, es[n]);
  }

  lemma {:induction false} PairSums(es: seq<Entry>, f: Entry -> nat, ps: seq<Pair>, n: nat)
    requires n <= |es| == |ps| && forall i | 0 <= i < |es| :: f(es[i]) == PairWeight(ps[i])
    ensures PairsWeight(ps, n) == Sum(f, es[..n])
    decreases n
  {
    if n > 0 {
      PairSums(es, f, ps, n - 1);
      SumToNext(f, es, n - 1);
    }
  }

  lemma SetWeight(es: seq<Entry>, next: Order, top: nat, limit: nat, f: Entry -> nat, rs: seq<Reply>)
    requires WeighsKeys(f, next, top, limit) && rs == KeysOf(es, 3, next, top, limit)
    ensures ItemsWeight(rs, |rs|) == Sum(f, es)
  {
    KeysOfAt(es, 3, next, top, limit);
    forall i | 0 <= i < |es|
      ensures f(es[i]) == 1 + Weight(rs[i])
    {
      assert rs[i] == KeyOf(es[i], next, top, limit);
    }
    KeySums(es, f, rs, |es|);
    assert es[..|es|] == es;
  }

  lemma {:induction false} KeySums(es: seq<Entry>, f: Entry -> nat, rs: seq<Reply>, n: nat)
    requires n <= |es| == |rs| && forall i | 0 <= i < |es| :: f(es[i]) == 1 + Weight(rs[i])
    ensures ItemsWeight(rs, n) == Sum(f, es[..n])
    decreases n
  {
    if n > 0 {
      KeySums(es, f, rs, n - 1);
      SumToNext(f, es, n - 1);
    }
  }

  lemma NilBack(next: Order, top: nat, limit: nat)
    requires top + 4 <= limit
    ensures ToReply(Nil, 3, next, top, limit) == Null
  {
  }

  /** The weight of a converted map is the sum over its entries, however lua_next orders them. */
  lemma MapBack(pairs: seq<Pair>, es: seq<Entry>, next: Order, top: nat, limit: nat, f: Entry -> nat)
    requires top + 4 <= limit && Visits(next) && PairsToLua(pairs, |pairs|, 3) == Value(Table(es))
    requires WeighsPairs(f, next, top + 3, limit)
    ensures Weight(Back(Map(pairs), next, top, limit)) == 1 + Sum(f, es)
  {
    MapValue(pairs, es, next, top, limit);
    MapSum(next(es), next, top + 3, limit, f);
    SumPermutes(f, next(es), es);
  }

  lemma SetBack(members: seq<Reply>, es: seq<Entry>, next: Order, top: nat, limit: nat, f: Entry -> nat)
    requires top + 4 <= limit && Visits(next) && MembersToLua(members, |members|, 3) == Value(Table(es))
    requires WeighsKeys(f, next, top + 3, limit)
    ensures Weight(Back(Set(members), next, top, limit)) == 1 + Sum(f, es)
  {
    SetValue(members, es, next, top, limit);
    SetSum(next(es), next, top + 3, limit, f);
    SumPermutes(f, next(es), es);
  }

  lemma SetSum(order: seq<Entry>, next: Order, top: nat, limit: nat, f: Entry -> nat)
    requires WeighsKeys(f, next, top, limit)
    ensures Weight(Set(KeysOf(order, 3, next, top, limit))) == 1 + Sum(f, order)
  {
    SetWeight(order, next, top, limit, f, KeysOf(order, 3, next, top, limit));
  }

  lemma MapSum(order: seq<Entry>, next: Order, top: nat, limit: nat, f: Entry -> nat)
    requires WeighsPairs(f, next, top, limit)
    ensures Weight(Map(PairsOf(order, 3, next, top, limit))) == 1 + Sum(f, order)
  {
    MapWeight(order, next, top, limit, f, PairsOf(order, 3, next, top, limit));
  }

  lemma {:induction false} ItemsLose(items: seq<Reply>, k: nat, n: nat)
    requires k <= n <= |items|
    ensures ItemsWeight(items, k) + (n - k) <= ItemsWeight(items, n)
    decreases n
  {
    if k < n {
      ItemsLose(items, k, n - 1);
    }
  }

  /** The first item that is nil. */
  lemma {:induction false} FirstNil(items: seq<Reply>, i: nat) returns (k: nat)
    requires i <= |items| && forall j | 0 <= j < i :: !LuaOf(items[j]).Nil?
    ensures k <= |items| && (k < |items| ==> LuaOf(items[k]).Nil?) && forall j | 0 <= j < k :: !LuaOf(items[j]).Nil?
    decreases |items| - i
  {
    if i == |items| || LuaOf(items[i]).Nil? {
      k := i;
    } else {
      k := FirstNil(items, i + 1);
    }
  }

  lemma {:induction false} AllValues(items: seq<Reply>, n: nat)
    requires n <= |items| && ItemsToLua(items, n, 3).Value?
    ensures forall i | 0 <= i < n :: ToLua(items[i], 3).Value?
  {
    if n > 0 {
      AllValues(items, n - 1);
    }
  }

  /** Coming back never makes a reply heavier, and leaves its weight only where it is faithful. */
  lemma {:induction false} Lighter(r: Reply, next: Order, top: nat, limit: nat)
    requires Sane(r) && Fits(r, top, limit) && Visits(next)
    ensures Weight(Back(r, next, top, limit)) <= Weight(r)
    ensures Weight(Back(r, next, top, limit)) == Weight(r) ==> Faithful(r)
    decreases r, 3
  {
    if Plain(r) {
      LeafBack(r, next, top, limit);
      LeafLighter(r);
    } else if LuaOf(r).Nil? {
      NilBack(next, top, limit);
    } else {
      match r
      case Array(items) => ArrayLighter(items, next, top, limit);
      case Map(pairs) => MapLighter(pairs, next, top, limit);
      case Set(members) => SetLighter(members, next, top, limit);
    }
  }

  lemma {:induction false} ArrayLighter(items: seq<Reply>, next: Order, top: nat, limit: nat)
    requires (forall i | 0 <= i < |items| :: Sane(items[i]) && Fits(items[i], top + 1, limit)) && Visits(next)
    requires top + 4 <= limit && ToLua(Array(items), 3).Value?
    ensures Weight(Back(Array(items), next, top, limit)) <= Weight(Array(items))
    ensures Weight(Back(Array(items), next, top, limit)) == Weight(Array(items)) ==> Faithful(Array(items))
    decreases items, |items| + 1
  {
    AllValues(items, |items|);
    var k := FirstNil(items, 0);
    var rs := ArrayReply(items, k, next, top, limit);
    ItemsLighter(items, k, rs, next, top + 1, limit);
    ItemsLose(items, k, |items|);
  }

  lemma {:induction false} ItemsLighter(items: seq<Reply>, n: nat, rs: seq<Reply>, next: Order, top: nat, limit: nat)
    requires n <= |items| && n <= |rs| && Visits(next)
    requires forall i | 0 <= i < |items| :: Sane(items[i]) && Fits(items[i], top, limit)
    requires forall i | 0 <= i < n :: rs[i] == Back(items[i], next, top, limit) && !LuaOf(items[i]).Nil?
    ensures ItemsWeight(rs, n) <= ItemsWeight(items, n)
    ensures ItemsWeight(rs, n) == ItemsWeight(items, n) ==> forall i | 0 <= i < n :: Within(items[i])
    decreases items, n
  {
    if n > 0 {
      ItemsLighter(items, n - 1, rs, next, top, limit);
      Lighter(items[n - 1], next, top, limit);
      ItemAdded(items, n, rs, items[n - 1], rs[n - 1]);
    }
  }

  lemma ItemAdded(items: seq<Reply>, n: nat, rs: seq<Reply>, item: Reply, r: Reply)
    requires 0 < n <= |items| && n <= |rs| && item == items[n - 1] && r == rs[n - 1] && !LuaOf(item).Nil?
    requires ItemsWeight(rs, n - 1) <= ItemsWeight(items, n - 1) && Weight(r) <= Weight(item)
    requires ItemsWeight(rs, n - 1) == ItemsWeight(items, n - 1) ==> forall i | 0 <= i < n - 1 :: Within(items[i])
    requires Weight(r) == Weight(item) ==> Faithful(item)
    ensures ItemsWeight(rs, n) <= ItemsWeight(items, n)
    ensures ItemsWeight(rs, n) == ItemsWeight(items, n) ==> forall i | 0 <= i < n :: Within(items[i])
  {
  }

  lemma {:induction false} PairLighter(p: Pair, next: Order, top: nat, limit: nat)
    requires PairSane(p) && PairFits(p, top, limit) && Visits(next)
    ensures PairWeight(PairOf(EntryOf(p), 3, next, top, limit)) <= PairWeight(p)
    ensures PairWeight(PairOf(EntryOf(p), 3, next, top, limit)) == PairWeight(p) ==> Faithful(p.key) && Faithful(p.val)
    decreases p, 4
  {
    Lighter(p.key, next, top + 1, limit);
    Lighter(p.val, next, top, limit);
  }

  lemma {:induction false} MapLighter(pairs: seq<Pair>, next: Order, top: nat, limit: nat)
    requires (forall i | 0 <= i < |pairs| :: PairSane(pairs[i]) && PairFits(pairs[i], top + 3, limit)) && Visits(next)
    requires top + 4 <= limit && ToLua(Map(pairs), 3).Value?
    ensures Weight(Back(Map(pairs), next, top, limit)) <= Weight(Map(pairs))
    ensures Weight(Back(Map(pairs), next, top, limit)) == Weight(Map(pairs)) ==> Faithful(Map(pairs))
    decreases pairs, |pairs| + 1
  {
    var f := (e: Entry) => PairWeight(PairOf(e, 3, next, top + 3, limit));
    var es := PairsLighter(pairs, |pairs|, next, top + 3, limit, f);
    MapBack(pairs, es, next, top, limit, f);
  }

  lemma PairsPut(pairs: seq<Pair>, n: nat) returns (before: seq<Entry>, es: seq<Entry>)
    requires 0 < n <= |pairs| && PairsToLua(pairs, n, 3).Value?
    ensures PairsToLua(pairs, n - 1, 3) == Value(Table(before)) && PairsToLua(pairs, n, 3) == Value(Table(es))
    ensures !LuaOf(pairs[n - 1].key).Nil? && es == SetField(before, LuaOf(pairs[n - 1].key), LuaOf(pairs[n - 1].val))
  {
    before := PairsToLua(pairs, n - 1, 3).v.entries;
    es := PairsToLua(pairs, n, 3).v.entries;
  }

  lemma {:induction false} PairsLighter(pairs: seq<Pair>, n: nat, next: Order, top: nat, limit: nat, f: Entry -> nat)
    returns (es: seq<Entry>)
    requires n <= |pairs| && PairsToLua(pairs, n, 3).Value? && Visits(next) && WeighsPairs(f, next, top, limit)
    requires forall i | 0 <= i < |pairs| :: PairSane(pairs[i]) && PairFits(pairs[i], top, limit)
    ensures PairsToLua(pairs, n, 3) == Value(Table(es)) && Sum(f, es) <= PairsWeight(pairs, n)
    ensures Sum(f, es) == PairsWeight(pairs, n) ==> Kept(es, pairs, n) && PairsClean(pairs, n)
    decreases pairs, n
  {
    es := [];
    if n > 0 {
      var p := pairs[n - 1];
      var put, after := PairsPut(pairs, n);
      var before := PairsLighter(pairs, n - 1, next, top, limit, f);
      es := after;
      PairLighter(p, next, top, limit);
      PairAdded(pairs, n, p, before, es, f, f(EntryOf(p)));
    }
  }

  lemma PairAdded(pairs: seq<Pair>, n: nat, p: Pair, before: seq<Entry>, es: seq<Entry>, f: Entry -> nat, w: nat)
    requires 0 < n <= |pairs| && p == pairs[n - 1] && !LuaOf(p.key).Nil? && es == SetField(before, LuaOf(p.key), LuaOf(p.val))
    requires (forall e :: 0 < f(e)) && w == f(EntryOf(p)) <= PairWeight(p) && Sum(f, before) <= PairsWeight(pairs, n - 1)
    requires w == PairWeight(p) ==> Faithful(p.key) && Faithful(p.val)
    requires Sum(f, before) == PairsWeight(pairs, n - 1) ==> Kept(before, pairs, n - 1) && PairsClean(pairs, n - 1)
    ensures Sum(f, es) <= PairsWeight(pairs, n)
    ensures Sum(f, es) == PairsWeight(pairs, n) ==> Kept(es, pairs, n) && PairsClean(pairs, n)
  {
    SetFieldSum(f, before, LuaOf(p.key), LuaOf(p.val));
    if Sum(f, es) == PairsWeight(pairs, n) {
      SetFieldAppends(before, LuaOf(p.key), LuaOf(p.val));
      CleanMore(pairs, n - 1, before, p);
    }
  }

  lemma {:induction false} SetLighter(members: seq<Reply>, next: Order, top: nat, limit: nat)
    requires (forall i | 0 <= i < |members| :: Sane(members[i]) && Fits(members[i], top + 3, limit)) && Visits(next)
    requires top + 4 <= limit && ToLua(Set(members), 3).Value?
    ensures Weight(Back(Set(members), next, top, limit)) <= Weight(Set(members))
    ensures Weight(Back(Set(members), next, top, limit)) == Weight(Set(members)) ==> Faithful(Set(members))
    decreases members, |members| + 1
  {
    var f := (e: Entry) => 1 + Weight(KeyOf(e, next, top + 3, limit));
    var es := MembersLighter(members, |members|, next, top + 3, limit, f);
    SetBack(members, es, next, top, limit, f);
  }

  lemma MembersPut(members: seq<Reply>, n: nat) returns (before: seq<Entry>, es: seq<Entry>)
    requires 0 < n <= |members| && MembersToLua(members, n, 3).Value?
    ensures MembersToLua(members, n - 1, 3) == Value(Table(before)) && MembersToLua(members, n, 3) == Value(Table(es))
    ensures !LuaOf(members[n - 1]).Nil? && es == SetField(before, LuaOf(members[n - 1]), Bool(true))
  {
    before := MembersToLua(members, n - 1, 3).v.entries;
    es := MembersToLua(members, n, 3).v.entries;
  }

  lemma {:induction false} MembersLighter(members: seq<Reply>, n: nat, next: Order, top: nat, limit: nat, f: Entry -> nat)
    returns (es: seq<Entry>)
    requires n <= |members| && MembersToLua(members, n, 3).Value? && Visits(next) && WeighsKeys(f, next, top, limit)
    requires forall i | 0 <= i < |members| :: Sane(members[i]) && Fits(members[i], top, limit)
    ensures MembersToLua(members, n, 3) == Value(Table(es)) && Sum(f, es) <= ItemsWeight(members, n)
    ensures Sum(f, es) == ItemsWeight(members, n) ==> KeptMembers(es, members, n) && MembersClean(members, n)
    decreases members, n
  {
    es := [];
    if n > 0 {
      var m := members[n - 1];
      var put, after := MembersPut(members, n);
      var before := MembersLighter(members, n - 1, next, top, limit, f);
      es := after;
      Lighter(m, next, top, limit);
      MemberAdded(members, n, m, before, es, f, f(MemberEntry(m)));
    }
  }

  lemma MemberAdded(members: seq<Reply>, n: nat, m: Reply, before: seq<Entry>, es: seq<Entry>, f: Entry -> nat, w: nat)
    requires 0 < n <= |members| && m == members[n - 1] && !LuaOf(m).Nil? && es == SetField(before, LuaOf(m), Bool(true))
    requires (forall e :: 0 < f(e)) && w == f(MemberEntry(m)) <= 1 + Weight(m) && Sum(f, before) <= ItemsWeight(members, n - 1)
    requires w == 1 + Weight(m) ==> Faithful(m)
    requires Sum(f, before) == ItemsWeight(members, n - 1) ==> KeptMembers(before, members, n - 1) && MembersClean(members, n - 1)
    ensures Sum(f, es) <= ItemsWeight(members, n)
    ensures Sum(f, es) == ItemsWeight(members, n) ==> KeptMembers(es, members, n) && MembersClean(members, n)
  {
    SetFieldSum(f, before, LuaOf(m), Bool(true));
    if Sum(f, es) == ItemsWeight(members, n) {
      SetFieldAppends(before, LuaOf(m), Bool(true));
      MembersMore(members, n - 1, before, m);
    }
  }

  // ----- both directions -----

  /** Under RESP3 a reply comes back the same, up to the order of maps and sets, if and only if it is faithful. */
  lemma Exact(r: Reply, next: Order, top: nat, limit: nat)
    requires Sane(r) && Fits(r, top, limit) && Visits(next)
    ensures ShapeOf(ToReply(LuaOf(r), 3, next, top, limit)) == ShapeOf(r) <==> Faithful(r)
  {
    if Faithful(r) {
      RoundTrip(r, next, top, limit);
    }
    if ShapeOf(Back(r, next, top, limit)) == ShapeOf(r) {
      SameWeight(Back(r, next, top, limit), r);
      Lighter(r, next, top, limit);
    }
  }

  /** Without maps and sets, that is equality. */
  lemma OrderedExact(r: Reply, next: Order, top: nat, limit: nat)
    requires Ordered(r) && Sane(r) && Fits(r, top, limit) && Visits(next)
    ensures ToReply(LuaOf(r), 3, next, top, limit) == r <==> Faithful(r)
  {
    Exact(r, next, top, limit);
    if Faithful(r) {
      OrderedIsShape(r, Back(r, next, top, limit));
    }
  }
}
