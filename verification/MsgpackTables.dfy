/** Lua tables as lists of entries, and which of them are arrays (src/lua_cmsgpack.c:426-476). */
module MsgpackTables {
  import opened Bytes
  import opened MsgpackFormat

  const INT_MAX: int := 0x7fff_ffff

  /** Table keys are compared by identity, so two of them may look alike. */
  predicate DistinctKeys(es: seq<Entry>) {
    forall i, j :: 0 <= i < j < |es| && !es[i].key.Table? ==> es[i].key != es[j].key
  }

  predicate HasKey(es: seq<Entry>, key: Value) {
    exists i :: 0 <= i < |es| && es[i].key == key
  }

  /** The value at a scalar key, nil when there is none. */
  function Find(es: seq<Entry>, key: Value): Value {
    if es == [] then Nil else if es[0].key == key then es[0].val else Find(es[1..], key)
  }

  lemma {:induction false} FindAt(es: seq<Entry>, i: nat)
    requires i < |es| && DistinctKeys(es) && !es[i].key.Table?
    ensures Find(es, es[i].key) == es[i].val
  {
    if i != 0 {
      assert es[1..][i - 1] == es[i];
      FindAt(es[1..], i - 1);
    }
  }

  lemma {:induction false} FindMissing(es: seq<Entry>, key: Value)
    requires !HasKey(es, key)
    ensures Find(es, key) == Nil
  {
    if es != [] {
      assert es[0].key != key;
      assert forall i :: 0 <= i < |es[1..]| ==> es[1..][i] == es[i + 1];
      FindMissing(es[1..], key);
    }
  }

  /** The keys are exactly 1 to n, and the encoder's int counters can hold them. */
  predicate IsArray(es: seq<Entry>) {
    |es| <= INT_MAX && forall j :: 1 <= j <= |es| ==> HasKey(es, Int(j))
  }

  function UpTo(n: nat): (r: set<int>)
    ensures |r| == n && forall j :: j in r <==> 1 <= j <= n
  {
    if n == 0 then {} else UpTo(n - 1) + {n}
  }

  function IntKeys(es: seq<Entry>): set<int> {
    if es == [] then {}
    else IntKeys(es[..|es| - 1]) + if es[|es| - 1].key.Int? then {es[|es| - 1].key.n} else {}
  }

  lemma {:induction false} IntKeysAre(es: seq<Entry>, j: int)
    ensures j in IntKeys(es) <==> HasKey(es, Int(j))
  {
    if es != [] {
      var front, last := es[..|es| - 1], es[|es| - 1];
      IntKeysAre(front, j);
      if HasKey(es, Int(j)) && last.key != Int(j) {
        var i :| 0 <= i < |es| && es[i].key == Int(j);
        assert front[i].key == Int(j);
      }
      if HasKey(front, Int(j)) {
        var i :| 0 <= i < |front| && front[i].key == Int(j);
        assert es[i].key == Int(j);
      }
    }
  }

  lemma {:induction false} IntKeysSize(es: seq<Entry>)
    ensures |IntKeys(es)| <= |es|
    ensures |IntKeys(es)| == |es| ==> forall i :: 0 <= i < |es| ==> es[i].key.Int?
    ensures DistinctKeys(es) && (forall i :: 0 <= i < |es| ==> es[i].key.Int?) ==> |IntKeys(es)| == |es|
  {
    if es != [] {
      var front, last := es[..|es| - 1], es[|es| - 1];
      IntKeysSize(front);
      if last.key.Int? {
        IntKeysAre(front, last.key.n);
        assert IntKeys(es) == IntKeys(front) + {last.key.n};
      }
    }
  }

  lemma SameSize(a: set<int>, b: set<int>)
    requires a <= b && |b| <= |a|
    ensures a == b
  {
    assert a * (b - a) == {};
    assert b == a + (b - a);
    assert |b - a| == 0;
    assert b - a == {};
  }

  /** The pigeonhole: the keys of an array have no room for others. */
  lemma ArrayKeys(es: seq<Entry>)
    requires IsArray(es)
    ensures IntKeys(es) == UpTo(|es|) && forall i :: 0 <= i < |es| ==> es[i].key.Int? && 1 <= es[i].key.n <= |es|
  {
    forall j | j in UpTo(|es|)
      ensures j in IntKeys(es)
    {
      IntKeysAre(es, j);
    }
    IntKeysSize(es);
    SameSize(UpTo(|es|), IntKeys(es));
    forall i | 0 <= i < |es|
      ensures es[i].key.Int? && 1 <= es[i].key.n <= |es|
    {
      IntKeysAre(es, es[i].key.n);
    }
  }

  predicate ArrayKey(key: Value) {
    key.Int? && 0 < key.n <= INT_MAX
  }

  /** n different positive keys, none above n, are 1 to n. */
  lemma CountedKeys(es: seq<Entry>, max: nat)
    requires DistinctKeys(es) && forall i :: 0 <= i < |es| ==> ArrayKey(es[i].key) && es[i].key.n <= max
    requires max == 0 || exists i :: 0 <= i < |es| && es[i].key == Int(max)
    ensures IsArray(es) <==> max == |es|
  {
    IntKeysSize(es);
    forall j | j in IntKeys(es)
      ensures j in UpTo(max)
    {
      IntKeysAre(es, j);
      var i :| 0 <= i < |es| && es[i].key == Int(j);
    }
    if IsArray(es) {
      ArrayKeys(es);
      if es != [] {
        assert HasKey(es, Int(|es|));
      }
    } else if max == |es| {
      SameSize(IntKeys(es), UpTo(max));
      forall j | 1 <= j <= |es|
        ensures HasKey(es, Int(j))
      {
        IntKeysAre(es, j);
      }
    }
  }

  /** table_is_an_array: one pass over the keys counts them and finds the largest. */
  method TableIsAnArray(es: seq<Entry>) returns (b: bool)
    requires DistinctKeys(es)
    ensures b <==> IsArray(es)
  {
    var count, max := 0, 0;
    while count < |es|
      invariant 0 <= count <= |es| && 0 <= max <= INT_MAX
      invariant forall i :: 0 <= i < count ==> ArrayKey(es[i].key) && es[i].key.n <= max
      invariant max == 0 || exists i :: 0 <= i < count && es[i].key == Int(max)
    {
      var key := es[count].key;
      if !key.Int? || key.n <= 0 || INT_MAX < key.n {
        if IsArray(es) {
          ArrayKeys(es);
        }
        return false;
      }
      max := if key.n > max then key.n else max;
      count := count + 1;
    }
    CountedKeys(es, max);
    b := max == count;
  }
}
