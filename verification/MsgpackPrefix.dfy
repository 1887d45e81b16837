/** MessagePack values are self-delimiting: what follows one in the input never changes how it decodes. */
module MsgpackPrefix {
  import opened Bytes
  import opened MsgpackFormat
  import opened MsgpackTables
  import opened MsgpackCodec

  /** With t after the input a value is the same and t is left too; only a lack of bytes can be cured. */
  predicate Agrees(d: Decoded, e: Decoded, t: seq<byte>) {
    match d
    case Done(v, rest) => e == Done(v, rest + t)
    case Failed(f) => f == Eof || e == d
  }

  lemma ArrayUnfolds(s: seq<byte>, n: nat, index: nat, es: seq<Entry>, first: Decoded, d: Decoded, next: Decoded)
    requires n != 0 && first == Decode(s) && first.Done? && d == DecodeArray(s, n, index, es)
    requires next == DecodeArray(first.rest, n - 1, index + 1, SetEntry(es, Int(index), first.v))
    ensures d == next
  {
  }

  lemma ArrayStops(s: seq<byte>, n: nat, index: nat, es: seq<Entry>, d: Decoded)
    requires n == 0 || Decode(s).Failed?
    requires d == DecodeArray(s, n, index, es)
    ensures d == if n == 0 then Done(Table(es), s) else Decode(s)
  {
  }

  lemma {:induction false} ArrayStable(s: seq<byte>, t: seq<byte>, n: nat, index: nat, es: seq<Entry>) returns (d: Decoded, e: Decoded)
    ensures d == DecodeArray(s, n, index, es) && e == DecodeArray(s + t, n, index, es) && Agrees(d, e, t)
    decreases |s|, 1, n
  {
    d, e := DecodeArray(s, n, index, es), DecodeArray(s + t, n, index, es);
    if n == 0 {
      ArrayStops(s, n, index, es, d);
      ArrayStops(s + t, n, index, es, e);
    } else {
      var first, same := DecodeStable(s, t);
      if first.Done? {
        var longer := SetEntry(es, Int(index), first.v);
        var next, after := ArrayStable(first.rest, t, n - 1, index + 1, longer);
        ArrayUnfolds(s, n, index, es, first, d, next);
        ArrayUnfolds(s + t, n, index, es, same, e, after);
      } else {
        ArrayStops(s, n, index, es, d);
        if first.fault != Eof {
          ArrayStops(s + t, n, index, es, e);
        }
      }
    }
  }

  lemma MapUnfolds(s: seq<byte>, n: nat, es: seq<Entry>, k: Decoded, v: Decoded, longer: seq<Entry>, d: Decoded, next: Decoded)
    requires n != 0 && k == Decode(s) && k.Done? && v == Decode(k.rest) && v.Done? && !k.v.Nil?
    requires longer == SetEntry(es, k.v, v.v) && d == DecodeMap(s, n, es) && next == DecodeMap(v.rest, n - 1, longer)
    ensures d == next
  {
  }

  /** Where there is no next entry, or its key cannot be read. */
  lemma MapStops(s: seq<byte>, n: nat, es: seq<Entry>, k: Decoded, d: Decoded)
    requires k == Decode(s) && (n == 0 || k.Failed?) && d == DecodeMap(s, n, es)
    ensures d == if n == 0 then Done(Table(es), s) else k
  {
  }

  /** Where its value cannot be read, or the key is nil. */
  lemma EntryStops(s: seq<byte>, n: nat, es: seq<Entry>, k: Decoded, v: Decoded, d: Decoded)
    requires n != 0 && k == Decode(s) && k.Done? && v == Decode(k.rest) && (v.Failed? || k.v.Nil?) && d == DecodeMap(s, n, es)
    ensures d == if v.Failed? then v else Failed(NilKey)
  {
  }

  lemma EntryEnds(s: seq<byte>, t: seq<byte>, n: nat, es: seq<Entry>, k: Decoded, l: Decoded, v: Decoded, w: Decoded, d: Decoded, e: Decoded)
    requires n != 0 && k == Decode(s) && k.Done? && v == Decode(k.rest) && (v.Failed? || k.v.Nil?) && d == DecodeMap(s, n, es)
    requires l == Decode(s + t) && l == Done(k.v, k.rest + t) && w == Decode(l.rest) && Agrees(v, w, t) && e == DecodeMap(s + t, n, es)
    ensures Agrees(d, e, t)
  {
    EntryStops(s, n, es, k, v, d);
    if v.Done? || v.fault != Eof {
      EntryStops(s + t, n, es, l, w, e);
    }
  }

  lemma {:induction false} MapStable(s: seq<byte>, t: seq<byte>, n: nat, es: seq<Entry>) returns (d: Decoded, e: Decoded)
    ensures d == DecodeMap(s, n, es) && e == DecodeMap(s + t, n, es) && Agrees(d, e, t)
    decreases |s|, 1, n
  {
    d, e := DecodeMap(s, n, es), DecodeMap(s + t, n, es);
    var k, l := DecodeStable(s, t);
    if n == 0 || k.Failed? {
      MapStops(s, n, es, k, d);
      if n == 0 || k.fault != Eof {
        MapStops(s + t, n, es, l, e);
      }
    } else {
      var v, w := DecodeStable(k.rest, t);
      if v.Done? && !k.v.Nil? {
        var longer := SetEntry(es, k.v, v.v);
        var next, after := MapStable(v.rest, t, n - 1, longer);
        MapUnfolds(s, n, es, k, v, longer, d, next);
        MapUnfolds(s + t, n, es, l, w, longer, e, after);
      } else {
        EntryEnds(s, t, n, es, k, l, v, w, d, e);
      }
    }
  }

  /** Every decoded value is told from its own bytes alone. */
  lemma {:induction false} DecodeStable(s: seq<byte>, t: seq<byte>) returns (d: Decoded, e: Decoded)
    ensures d == Decode(s) && e == Decode(s + t) && Agrees(d, e, t)
    decreases |s|, 0, 0
  {
    d, e := Decode(s), Decode(s + t);
    HeadStable(s, t);
    HeadConsumes(s);
    match ReadHead(s)
    case Scalar(_, _) =>
    case ArrayOf(n, rest) => var a, b := ArrayStable(rest, t, n, 1, []);
    case MapOf(n, rest) => var a, b := MapStable(rest, t, n, []);
    case Short =>
    case Bad =>
  }

  /** So no value's bytes are a proper prefix of another's. */
  lemma PrefixFree(s: seq<byte>, t: seq<byte>, v: Value, w: Value)
    requires Decode(s) == Done(v, []) && Decode(s + t) == Done(w, [])
    ensures t == [] && v == w
  {
    var d, e := DecodeStable(s, t);
    assert [] + t == t;
  }
}
