/** cmsgpack.pack, unpack, unpack_one and unpack_limit (src/lua_cmsgpack.c:511-549, 797-872). */
module MsgpackStream {
  import opened Bytes
  import opened MsgpackFormat
  import opened MsgpackTables
  import opened MsgpackCodec
  import MsgpackBuffer
  import MsgpackCursor

  // ----- streams of values -----

  datatype Stream = Values(vs: seq<Value>, rest: seq<byte>) | Broken(fault: Fault)

  /** The first values of the input, at most limit of them. */
  function ReadStream(s: seq<byte>, limit: nat): Stream
    decreases |s|
  {
    if s == [] || limit == 0 then Values([], s)
    else
      match Decode(s)
      case Failed(f) => Broken(f)
      case Done(v, rest) => Prepend(v, ReadStream(rest, limit - 1))
  }

  function Prepend(v: Value, r: Stream): Stream {
    match r
    case Values(vs, rest) => Values([v] + vs, rest)
    case Broken(f) => r
  }

  /** pack needs an argument. */
  datatype Packed = Packed(bytes: seq<byte>) | NoInput

  predicate AllWellFormed(vs: seq<Value>) {
    forall i :: 0 <= i < |vs| ==> WellFormed(vs[i])
  }

  function PackAll(vs: seq<Value>): seq<byte>
    requires AllWellFormed(vs)
  {
    if vs == [] then [] else Encode(vs[0], 0) + PackAll(vs[1..])
  }

  /** An error of the caller or of the input, or the values and the next offset where there is one. */
  datatype Unpacked =
    | Results(vs: seq<Value>)
    | ResultsAndOffset(vs: seq<Value>, next: int)
    | InvalidRequest
    | OffsetTooLarge
    | Error(fault: Fault)

  /** mp_unpack_full. */
  function UnpackFull(s: seq<byte>, limit: int, offset: int): Unpacked {
    if offset < 0 || limit < 0 then InvalidRequest
    else if |s| < offset then OffsetTooLarge
    else
      var all := limit == 0 && offset == 0;
      match ReadStream(s[offset..], if all then INT_MAX else limit)
      case Broken(f) => Error(f)
      case Values(vs, rest) =>
        if all then Results(vs) else ResultsAndOffset(vs, if rest == [] then -1 else |s| - |rest|)
  }

  /** Negative limits and offsets are turned down first, then offsets behind the end. */
  lemma RequestErrors(s: seq<byte>, limit: int, offset: int)
    ensures UnpackFull(s, limit, offset) == InvalidRequest <==> limit < 0 || offset < 0
    ensures UnpackFull(s, limit, offset) == OffsetTooLarge <==> 0 <= limit && 0 <= offset && |s| < offset
  {
  }

  function Unpack(s: seq<byte>): Unpacked {
    UnpackFull(s, 0, 0)
  }

  function UnpackOne(s: seq<byte>, offset: int): Unpacked {
    UnpackFull(s, 1, offset)
  }

  // ----- unpack gives back what pack was given -----

  function CanonicalAll(vs: seq<Value>): (c: seq<Value>)
    ensures |c| == |vs|
  {
    if vs == [] then [] else [Canonical(vs[0], 0)] + CanonicalAll(vs[1..])
  }

  predicate AllPackable(vs: seq<Value>) {
    AllWellFormed(vs) && forall i :: 0 <= i < |vs| ==> Fits(vs[i], 0)
  }

  predicate AnyCutKey(vs: seq<Value>) {
    exists i :: 0 <= i < |vs| && CutKey(vs[i], 0)
  }

  predicate Streams(vs: seq<Value>, bytes: seq<byte>, limit: nat) {
    ReadStream(bytes, limit) == if AnyCutKey(vs) then Broken(NilKey) else Values(CanonicalAll(vs), [])
  }

  lemma AnyTail(vs: seq<Value>)
    requires vs != [] && !CutKey(vs[0], 0)
    ensures AnyCutKey(vs) <==> AnyCutKey(vs[1..])
  {
    if i :| 0 <= i < |vs| && CutKey(vs[i], 0) {
      assert vs[1..][i - 1] == vs[i];
    }
    if i :| 0 <= i < |vs[1..]| && CutKey(vs[1..][i], 0) {
      assert vs[i + 1] == vs[1..][i];
    }
  }

  lemma StreamStep(vs: seq<Value>, bytes: seq<byte>, rest: seq<byte>, limit: nat, d: Decoded, c: Value)
    requires 0 < limit && vs != [] && bytes != [] && d == Decode(bytes) && d == Done(c, rest) && c == Canonical(vs[0], 0)
    requires !CutKey(vs[0], 0) && Streams(vs[1..], rest, limit - 1)
    ensures Streams(vs, bytes, limit)
  {
    AnyTail(vs);
  }

  lemma StreamStops(vs: seq<Value>, bytes: seq<byte>, limit: nat)
    requires 0 < limit && vs != [] && bytes != [] && Decode(bytes) == Failed(NilKey) && CutKey(vs[0], 0)
    ensures Streams(vs, bytes, limit)
  {
  }

  lemma FrontReads(vs: seq<Value>, bytes: seq<byte>, rest: seq<byte>, d: Decoded)
    requires vs != [] && AllPackable(vs) && bytes == PackAll(vs) && rest == PackAll(vs[1..]) && d == Decode(bytes)
    ensures d == Answer(vs[0], 0, rest)
  {
    RoundTrip(vs[0], 0, rest);
  }

  lemma FrontStreams(vs: seq<Value>, bytes: seq<byte>, rest: seq<byte>, limit: nat)
    requires 0 < limit && vs != [] && AllPackable(vs) && bytes == PackAll(vs) && rest == PackAll(vs[1..])
    requires Streams(vs[1..], rest, limit - 1)
    ensures Streams(vs, bytes, limit)
  {
    var d := Decode(bytes);
    FrontReads(vs, bytes, rest, d);
    SomeBytes(vs[0], rest);
    if CutKey(vs[0], 0) {
      StreamStops(vs, bytes, limit);
    } else {
      StreamStep(vs, bytes, rest, limit, d, Canonical(vs[0], 0));
    }
  }

  lemma {:induction false} StreamRoundTrip(vs: seq<Value>, limit: nat) returns (bytes: seq<byte>)
    requires |vs| <= limit && AllPackable(vs)
    ensures bytes == PackAll(vs) && Streams(vs, bytes, limit)
  {
    bytes := PackAll(vs);
    if vs != [] {
      var rest := StreamRoundTrip(vs[1..], limit - 1);
      FrontStreams(vs, bytes, rest, limit);
    }
  }

  lemma SomeBytes(v: Value, rest: seq<byte>)
    requires WellFormed(v)
    ensures Encode(v, 0) + rest != []
  {
  }

  /** unpack(pack(v1, ..., vn)) is v1, ..., vn; it is an error exactly when one of them is refused. */
  lemma UnpackPack(vs: seq<Value>)
    requires |vs| <= INT_MAX && AllPackable(vs)
    ensures Unpack(PackAll(vs)) == if AnyCutKey(vs) then Error(NilKey) else Results(CanonicalAll(vs))
  {
    var bytes := StreamRoundTrip(vs, INT_MAX);
    assert bytes[0..] == bytes;
  }

  // ----- reading in pieces -----

  function Join(a: Stream, b: Stream): Stream {
    match a
    case Broken(f) => a
    case Values(vs, _) => match b case Broken(f) => b case Values(ws, rest) => Values(vs + ws, rest)
  }

  lemma JoinPrepend(v: Value, a: Stream, b: Stream)
    ensures Join(Prepend(v, a), b) == Prepend(v, Join(a, b))
  {
    if a.Values? && b.Values? {
      assert ([v] + a.vs) + b.vs == [v] + (a.vs + b.vs);
    }
  }

  /** Reading m values and then n more is reading m + n. */
  lemma {:induction false} StreamSplits(s: seq<byte>, m: nat, n: nat)
    ensures ReadStream(s, m + n) ==
      match ReadStream(s, m)
      case Broken(f) => Broken(f)
      case Values(vs, rest) => Join(Values(vs, rest), ReadStream(rest, n))
    decreases |s|
  {
    if s == [] || m == 0 {
      var r := ReadStream(s, n);
      assert r.Values? ==> [] + r.vs == r.vs;
      assert m == 0 ==> m + n == n;
    } else {
      var d := Decode(s);
      if d.Done? {
        StreamSplits(d.rest, m - 1, n);
        var a := ReadStream(d.rest, m - 1);
        if a.Values? {
          JoinPrepend(d.v, a, ReadStream(a.rest, n));
        }
      }
    }
  }

  /** No value is empty, so as many values as bytes are enough. */
  lemma {:induction false} EnoughLimit(s: seq<byte>, m: nat, n: nat)
    requires |s| <= m && |s| <= n
    ensures ReadStream(s, m) == ReadStream(s, n) && (ReadStream(s, m).Values? ==> ReadStream(s, m).rest == [])
    decreases |s|
  {
    if s != [] && Decode(s).Done? {
      EnoughLimit(Decode(s).rest, m - 1, n - 1);
    }
  }

  predicate Tail(rest: seq<byte>, s: seq<byte>) {
    |rest| <= |s| && rest == s[|s| - |rest|..]
  }

  lemma TailOfTail(a: seq<byte>, b: seq<byte>, c: seq<byte>)
    requires Tail(a, b) && Tail(b, c)
    ensures Tail(a, c)
  {
  }

  predicate Leaves(d: Decoded, s: seq<byte>) {
    d.Done? ==> Tail(d.rest, s)
  }

  lemma LeavesThrough(d: Decoded, e: Decoded, middle: seq<byte>, s: seq<byte>)
    requires d == e && Leaves(e, middle) && Tail(middle, s)
    ensures Leaves(d, s)
  {
    if e.Done? {
      TailOfTail(e.rest, middle, s);
    }
  }

  /** What a successful decoder leaves is the end of what it was given. */
  lemma {:induction false} DecodeLeaves(s: seq<byte>)
    ensures Leaves(Decode(s), s)
    decreases |s|, 0, 0
  {
    HeadConsumes(s);
    var d := Decode(s);
    DecodeSwitch(s, ReadHead(s), d);
    match ReadHead(s)
    case ArrayOf(n, rest) =>
      ArrayLeaves(rest, n, 1, []);
      LeavesThrough(d, DecodeArray(rest, n, 1, []), rest, s);
    case MapOf(n, rest) =>
      var e := MapLeaves(rest, n, []);
      LeavesThrough(d, e, rest, s);
    case _ =>
  }

  lemma ArrayUnfolds(s: seq<byte>, n: nat, index: nat, es: seq<Entry>, d: Decoded)
    requires n != 0 && d == Decode(s)
    ensures d.Failed? ==> DecodeArray(s, n, index, es).Failed?
    ensures d.Done? ==> DecodeArray(s, n, index, es) == DecodeArray(d.rest, n - 1, index + 1, SetEntry(es, Int(index), d.v))
  {
  }

  lemma {:induction false} ArrayLeaves(s: seq<byte>, n: nat, index: nat, es: seq<Entry>)
    ensures Leaves(DecodeArray(s, n, index, es), s)
    decreases |s|, 1, n
  {
    if n != 0 {
      var d := Decode(s);
      ArrayUnfolds(s, n, index, es, d);
      if d.Done? {
        DecodeLeaves(s);
        ArrayLeaves(d.rest, n - 1, index + 1, SetEntry(es, Int(index), d.v));
        LeavesThrough(DecodeArray(s, n, index, es), DecodeArray(d.rest, n - 1, index + 1, SetEntry(es, Int(index), d.v)), d.rest, s);
      }
    }
  }

  lemma MapUnfolds(s: seq<byte>, n: nat, es: seq<Entry>, k: Decoded, v: Decoded, d: Decoded, e: Decoded)
    requires n != 0 && k == Decode(s) && k.Done? && v == Decode(k.rest) && v.Done? && !k.v.Nil?
    requires d == DecodeMap(s, n, es) && e == DecodeMap(v.rest, n - 1, SetEntry(es, k.v, v.v))
    ensures d == e
  {
  }

  lemma MapStops(s: seq<byte>, n: nat, es: seq<Entry>, d: Decoded)
    requires n == 0 || Decode(s).Failed? || Decode(Decode(s).rest).Failed? || Decode(s).v.Nil?
    requires d == DecodeMap(s, n, es)
    ensures Leaves(d, s)
  {
  }

  lemma {:induction false} MapLeaves(s: seq<byte>, n: nat, es: seq<Entry>) returns (d: Decoded)
    ensures d == DecodeMap(s, n, es) && Leaves(d, s)
    decreases |s|, 1, n
  {
    d := DecodeMap(s, n, es);
    var k := Decode(s);
    if n == 0 || k.Failed? || Decode(k.rest).Failed? || k.v.Nil? {
      MapStops(s, n, es, d);
    } else {
      var v := Decode(k.rest);
      DecodeLeaves(s);
      DecodeLeaves(k.rest);
      TailOfTail(v.rest, k.rest, s);
      var e := MapLeaves(v.rest, n - 1, SetEntry(es, k.v, v.v));
      MapUnfolds(s, n, es, k, v, d, e);
      LeavesThrough(d, e, v.rest, s);
    }
  }

  // ----- one at a time -----

  /** Calls unpack_one with the offset it returned until that is -1. */
  function OneByOne(s: seq<byte>, offset: nat): Stream
    requires offset <= |s|
    decreases |s| - offset
  {
    match UnpackOne(s, offset)
    case ResultsAndOffset(vs, next) =>
      OffsetGrows(s, offset);
      if next == -1 then Values(vs, []) else Join(Values(vs, []), OneByOne(s, next))
    case Error(f) => Broken(f)
    case _ => Broken(Eof)
  }

  lemma OffsetGrows(s: seq<byte>, offset: nat)
    requires offset <= |s| && UnpackOne(s, offset).ResultsAndOffset?
    ensures var next := UnpackOne(s, offset).next; next == -1 || offset < next <= |s|
  {
    if s[offset..] != [] {
      OneStep(s, offset, s[offset..]);
    }
  }

  lemma OneStep(s: seq<byte>, offset: nat, t: seq<byte>)
    requires offset <= |s| && t == s[offset..] && t != []
    ensures UnpackOne(s, offset) ==
      match Decode(t)
      case Failed(f) => Error(f)
      case Done(v, rest) => ResultsAndOffset([v], if rest == [] then -1 else |s| - |rest|)
  {
    if Decode(t).Done? {
      assert ReadStream(Decode(t).rest, 0) == Values([], Decode(t).rest);
      assert [Decode(t).v] + [] == [Decode(t).v];
    }
  }

  lemma LastRead(s: seq<byte>, offset: nat, t: seq<byte>, r: Stream, w: Stream)
    requires offset <= |s| && t == s[offset..] && (t == [] || Decode(t).Failed? || Decode(t).rest == [])
    requires r == OneByOne(s, offset) && w == ReadStream(t, |s|)
    ensures r == w
  {
    if t != [] {
      OneStep(s, offset, t);
      if Decode(t).Done? {
        assert ReadStream([], |s| - 1) == Values([], []);
        assert [Decode(t).v] + [] == [Decode(t).v];
      }
    }
  }

  lemma StreamUnfolds(t: seq<byte>, v: Value, rest: seq<byte>, limit: nat, w: Stream, next: Stream)
    requires t != [] && Decode(t) == Done(v, rest) && |rest| < limit
    requires w == ReadStream(t, limit) && next == ReadStream(rest, limit)
    ensures w == Prepend(v, next)
  {
    EnoughLimit(rest, limit, limit - 1);
  }

  lemma OneByOneUnfolds(s: seq<byte>, offset: nat, t: seq<byte>, v: Value, rest: seq<byte>, r: Stream, next: Stream)
    requires offset <= |s| && t == s[offset..] && t != [] && Decode(t) == Done(v, rest) && rest != []
    requires r == OneByOne(s, offset) && next == OneByOne(s, |s| - |rest|)
    ensures r == Join(Values([v], []), next)
  {
    OneStep(s, offset, t);
  }

  /** Iterating unpack_one from offset gives what one pass over the rest of the input gives, errors included. */
  lemma {:induction false} OneByOneIsStream(s: seq<byte>, offset: nat, t: seq<byte>) returns (r: Stream, w: Stream)
    requires offset <= |s| && t == s[offset..]
    ensures r == OneByOne(s, offset) && w == ReadStream(t, |s|) && r == w
    decreases |t|
  {
    r, w := OneByOne(s, offset), ReadStream(t, |s|);
    var d := Decode(t);
    if t == [] || d.Failed? || d.rest == [] {
      LastRead(s, offset, t, r, w);
    } else {
      DecodeLeaves(t);
      var next, same := OneByOneIsStream(s, |s| - |d.rest|, d.rest);
      OneByOneUnfolds(s, offset, t, d.v, d.rest, r, next);
      StreamUnfolds(t, d.v, d.rest, |s|, w, same);
    }
  }

  /** So it agrees with unpack. */
  lemma OneByOneIsUnpack(s: seq<byte>)
    requires |s| <= INT_MAX
    ensures Unpack(s) == match OneByOne(s, 0) case Values(vs, _) => Results(vs) case Broken(f) => Error(f)
  {
    assert s[0..] == s;
    var r, w := OneByOneIsStream(s, 0, s);
    EnoughLimit(s, |s|, INT_MAX);
  }

  /** A limit of zero reads nothing, except at offset zero, where it reads everything. */
  lemma ZeroLimit(s: seq<byte>, offset: nat)
    requires offset <= |s|
    ensures UnpackFull(s, 0, offset) ==
      if offset == 0 then Unpack(s) else ResultsAndOffset([], if offset == |s| then -1 else offset)
  {
  }

  // ----- the calls -----

  function Concat(parts: seq<seq<byte>>): seq<byte> {
    if parts == [] then [] else parts[0] + Concat(parts[1..])
  }

  predicate Encoded(vs: seq<Value>, parts: seq<seq<byte>>)
    requires AllWellFormed(vs)
  {
    |parts| <= |vs| && forall j :: 0 <= j < |parts| ==> parts[j] == Encode(vs[j], 0)
  }

  lemma {:induction false} ConcatIsPackAll(vs: seq<Value>, parts: seq<seq<byte>>)
    requires AllWellFormed(vs) && |parts| == |vs| && Encoded(vs, parts)
    ensures Concat(parts) == PackAll(vs)
  {
    if vs != [] {
      ConcatIsPackAll(vs[1..], parts[1..]);
    }
  }

  /** One argument: its bytes are copied out and the buffer is reused. */
  method PackOne(buf: MsgpackBuffer.Buffer, v: Value) returns (part: seq<byte>)
    requires buf.Valid() && buf.Contents() == [] && WellFormed(v)
    modifies buf, buf.b
    ensures part == Encode(v, 0) && buf.Valid() && buf.Contents() == [] && (buf.b == old(buf.b) || fresh(buf.b))
  {
    MsgpackBuffer.EncodeType(buf, v, 0);
    assert [] + Encode(v, 0) == Encode(v, 0);
    part := buf.b[..buf.len];
    buf.Reuse();
  }

  lemma OneMoreEncoded(vs: seq<Value>, parts: seq<seq<byte>>, part: seq<byte>)
    requires AllWellFormed(vs) && Encoded(vs, parts) && |parts| < |vs| && part == Encode(vs[|parts|], 0)
    ensures Encoded(vs, parts + [part])
  {
  }

  /** mp_pack: the arguments one by one through one buffer, then concatenated. */
  method Pack(vs: seq<Value>) returns (r: Packed)
    requires AllWellFormed(vs)
    ensures r == if vs == [] then NoInput else Packed(PackAll(vs))
  {
    if |vs| == 0 {
      return NoInput;
    }
    var buf := new MsgpackBuffer.Buffer();
    var parts: seq<seq<byte>> := [];
    for i := 0 to |vs|
      invariant buf.Valid() && fresh(buf) && fresh(buf.b) && buf.Contents() == [] && |parts| == i
      invariant Encoded(vs, parts)
    {
      var part := PackOne(buf, vs[i]);
      OneMoreEncoded(vs, parts, part);
      parts := parts + [part];
    }
    ConcatIsPackAll(vs, parts);
    r := Packed(Concat(parts));
  }

  /** One turn of the loop in mp_unpack_full. */
  method NextValue(c: MsgpackCursor.Cursor, ghost n: nat, vs: seq<Value>, ghost todo: Stream, ghost goal: Stream)
    returns (more: seq<Value>, fault: Fault, ghost left: Stream)
    requires c.Valid() && c.err == MsgpackCursor.None && c.Rest() != [] && 0 < n
    requires todo == ReadStream(c.Rest(), n) && goal == Join(Values(vs, c.Rest()), todo)
    modifies c
    ensures c.Valid()
    ensures c.err == MsgpackCursor.None ==>
      |c.Rest()| < |old(c.Rest())| && left == ReadStream(c.Rest(), n - 1) && goal == Join(Values(more, c.Rest()), left)
    ensures c.err != MsgpackCursor.None ==> goal == Broken(fault)
  {
    ghost var before := c.Rest();
    var v := c.DecodeType();
    more := vs + [v];
    left := todo;
    fault := match c.err case BadFmt => BadFormat case Raised => NilKey case _ => Eof;
    if c.err == MsgpackCursor.None {
      left := ReadStream(c.Rest(), n - 1);
      JoinMore(vs, v, before, left, c.Rest());
    }
  }

  lemma JoinMore(vs: seq<Value>, v: Value, before: seq<byte>, r: Stream, rest: seq<byte>)
    ensures Join(Values(vs, before), Prepend(v, r)) == Join(Values(vs + [v], rest), r)
  {
    if r.Values? {
      assert vs + ([v] + r.vs) == (vs + [v]) + r.vs;
    }
  }

  /** mp_unpack_full: the loop over the cursor. */
  method UnpackLoop(c: MsgpackCursor.Cursor, limit: nat) returns (vs: seq<Value>, fault: Fault)
    requires c.Valid() && c.err == MsgpackCursor.None
    modifies c
    ensures c.Valid()
    ensures c.err == MsgpackCursor.None ==> ReadStream(old(c.Rest()), limit) == Values(vs, c.Rest())
    ensures c.err != MsgpackCursor.None ==> ReadStream(old(c.Rest()), limit) == Broken(fault)
  {
    ghost var goal, todo := ReadStream(c.Rest(), limit), ReadStream(c.Rest(), limit);
    JoinStarts(c.Rest(), limit);
    vs, fault := [], Eof;
    var cnt := 0;
    ghost var n := limit;
    while c.left > 0 && cnt < limit
      invariant c.Valid() && c.err == MsgpackCursor.None && n == limit - cnt
      invariant todo == ReadStream(c.Rest(), n) && goal == Join(Values(vs, c.Rest()), todo)
      decreases c.left
    {
      vs, fault, todo := NextValue(c, n, vs, todo, goal);
      if c.err != MsgpackCursor.None {
        return;
      }
      cnt, n := cnt + 1, n - 1;
    }
    JoinEnds(vs, c.Rest(), n);
  }

  lemma JoinEnds(vs: seq<Value>, rest: seq<byte>, limit: nat)
    requires rest == [] || limit == 0
    ensures Join(Values(vs, rest), ReadStream(rest, limit)) == Values(vs, rest)
  {
    assert vs + [] == vs;
  }

  lemma JoinStarts(s: seq<byte>, limit: nat)
    ensures Join(Values([], s), ReadStream(s, limit)) == ReadStream(s, limit)
  {
    var r := ReadStream(s, limit);
    assert r.Values? ==> [] + r.vs == r.vs;
  }

  method RunUnpackFull(s: seq<byte>, limit: int, offset: int) returns (r: Unpacked)
    ensures r == UnpackFull(s, limit, offset)
  {
    var decodeAll := limit == 0 && offset == 0;
    if offset < 0 || limit < 0 {
      return InvalidRequest;
    } else if offset > |s| {
      return OffsetTooLarge;
    }
    var c := new MsgpackCursor.Cursor(s, offset);
    var vs, fault := UnpackLoop(c, if decodeAll then INT_MAX else limit);
    if c.err != MsgpackCursor.None {
      return Error(fault);
    }
    if decodeAll {
      r := Results(vs);
    } else {
      r := ResultsAndOffset(vs, if c.left == 0 then -1 else |s| - c.left);
    }
  }
}
