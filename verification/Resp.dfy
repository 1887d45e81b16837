/** Server replies, Lua values and the two conversions between them (src/script_luajit.c:162-416, 422-638). */
module Resp {
  import opened Bytes
  import LuaObjects

  /** A server reply. */
  datatype Reply =
    | Bulk(s: seq<byte>)
    | Status(s: seq<byte>)
    | Integer(n: int)
    | Array(items: seq<Reply>)
    | Null
    | ArrayNull
    | Map(pairs: seq<Pair>)
    | Set(members: seq<Reply>)
    | Boolean(b: bool)
    | Double(x: real)
    | BigNumber(s: seq<byte>)
    | Verbatim(s: seq<byte>, format: seq<byte>)
    | Error(s: seq<byte>)

  datatype Pair = Pair(key: Reply, val: Reply)

  /** A Lua value. A number is a real; a table is its entries in the order they were set. */
  datatype Lua =
    | Nil
    | Bool(b: bool)
    | Number(x: real)
    | Str(s: seq<byte>)
    | Table(entries: seq<Entry>)
    | Other(thing: LuaObjects.Object)

  datatype Entry = Entry(key: Lua, val: Lua)

  // The field names and texts, as ASCII bytes.
  const ERR: seq<byte> := [0x65, 0x72, 0x72]
  const OK: seq<byte> := [0x6f, 0x6b]
  const DOUBLE: seq<byte> := [0x64, 0x6f, 0x75, 0x62, 0x6c, 0x65]
  const BIG_NUMBER: seq<byte> := [0x62, 0x69, 0x67, 0x5f, 0x6e, 0x75, 0x6d, 0x62, 0x65, 0x72]
  const VERBATIM: seq<byte> :=
    [0x76, 0x65, 0x72, 0x62, 0x61, 0x74, 0x69, 0x6d, 0x5f, 0x73, 0x74, 0x72, 0x69, 0x6e, 0x67]
  const STRING: seq<byte> := [0x73, 0x74, 0x72, 0x69, 0x6e, 0x67]
  const FORMAT: seq<byte> := [0x66, 0x6f, 0x72, 0x6d, 0x61, 0x74]
  const MAP: seq<byte> := [0x6d, 0x61, 0x70]
  const SET: seq<byte> := [0x73, 0x65, 0x74]
  const IGNORE: seq<byte> :=
    [0x69, 0x67, 0x6e, 0x6f, 0x72, 0x65, 0x5f, 0x65, 0x72, 0x72, 0x6f, 0x72, 0x5f,
     0x73, 0x74, 0x61, 0x74, 0x73, 0x5f, 0x75, 0x70, 0x64, 0x61, 0x74, 0x65]
  const ERR_PREFIX: seq<byte> := [0x45, 0x52, 0x52, 0x20]
  const STACK_LIMIT: seq<byte> :=
    [0x45, 0x52, 0x52, 0x20, 0x72, 0x65, 0x61, 0x63, 0x68, 0x65, 0x64, 0x20, 0x6c, 0x75,
     0x61, 0x20, 0x73, 0x74, 0x61, 0x63, 0x6b, 0x20, 0x6c, 0x69, 0x6d, 0x69, 0x74]

  // ----- C strings -----

  /** A C string ends at its first NUL. */
  function CutAtNul(s: seq<byte>): seq<byte> {
    if s == [] || s[0] == 0 then [] else [s[0]] + CutAtNul(s[1..])
  }

  predicate LineEnd(c: byte) {
    c == 0x0d || c == 0x0a
  }

  /** strmapchars(s, "\r\n", "  "). */
  function OneLine(s: seq<byte>): seq<byte> {
    if s == [] then [] else [if LineEnd(s[0]) then 0x20 else s[0]] + OneLine(s[1..])
  }

  /** ljm_strtrim(s, "\r\n"). */
  function Trim(s: seq<byte>): seq<byte> {
    if s != [] && LineEnd(s[0]) then Trim(s[1..])
    else if s != [] && LineEnd(s[|s| - 1]) then Trim(s[..|s| - 1])
    else s
  }

  /** Where the first space is, or the length. */
  function SpaceAt(s: seq<byte>): (k: nat)
    ensures k <= |s| && (k < |s| ==> s[k] == 0x20)
  {
    if s == [] || s[0] == 0x20 then 0 else 1 + SpaceAt(s[1..])
  }

  /** The text luajitPushErrorBuff stores for an error. */
  function ErrorText(s: seq<byte>): seq<byte> {
    var c := CutAtNul(s);
    if c == [] || c[0] != 0x2d then Trim(c)
    else
      var k := SpaceAt(c);
      if k == |c| then ERR_PREFIX + c[1..] else c[1..k] + [0x20] + Trim(c[k + 1..])
  }

  // ----- numbers -----

  /** The distance between the doubles around a magnitude m, when that is at least 1. */
  function Quantum(m: nat): (q: nat)
    ensures q > 0
  {
    if m < 0x20_0000_0000_0000 then 1 else 2 * Quantum(m / 2)
  }

  /** The nearest multiple of q, ties to the even one. */
  function Nearest(m: nat, q: nat): int
    requires q > 0
  {
    var f, rem := m / q, m % q;
    if 2 * rem < q || (2 * rem == q && f % 2 == 0) then f * q else (f + 1) * q
  }

  /** (lua_Number)n. */
  function AsDouble(n: int): int {
    if n < 0 then -Nearest(-n, Quantum(-n)) else Nearest(n, Quantum(n))
  }

  /** The conversion of a number to a long long: towards zero. */
  function Truncated(x: real): int {
    if x < 0.0 then -((-x).Floor) else x.Floor
  }

  // ----- tables -----

  /** lua_rawget. */
  function Find(es: seq<Entry>, key: Lua): Lua {
    if es == [] then Nil else if es[0].key == key then es[0].val else Find(es[1..], key)
  }

  function Field(es: seq<Entry>, name: seq<byte>): Lua {
    Find(es, Str(name))
  }

  function Remove(es: seq<Entry>, key: Lua): (r: seq<Entry>)
    ensures |r| <= |es| && (!Find(es, key).Nil? ==> |r| < |es|)
  {
    if es == [] then [] else if es[0].key == key then es[1..] else [es[0]] + Remove(es[1..], key)
  }

  /** lua_settable: a nil value deletes; a table used as key is a new key, as it has just been made. */
  function SetField(es: seq<Entry>, key: Lua, val: Lua): seq<Entry> {
    if es == [] then if val.Nil? then [] else [Entry(key, val)]
    else if es[0].key == key && !key.Table? then if val.Nil? then es[1..] else [Entry(key, val)] + es[1..]
    else [es[0]] + SetField(es[1..], key, val)
  }

  // ----- from a reply to a Lua value -----

  /** The value, or the error lua_settable raises on a nil key. */
  datatype Converted = Value(v: Lua) | Raised

  function Tagged(name: seq<byte>, v: Lua): Lua {
    Table([Entry(Str(name), v)])
  }

  function VerbatimTable(s: seq<byte>, format: seq<byte>): Lua {
    Table([Entry(Str(STRING), Str(s)), Entry(Str(FORMAT), Str(format))])
  }

  function ErrorTable(s: seq<byte>): Lua {
    Table([Entry(Str(ERR), Str(ErrorText(s))), Entry(Str(IGNORE), Bool(true))])
  }

  /** A verbatim reply's format is three characters. */
  function FirstThree(s: seq<byte>): seq<byte> {
    if |s| < 3 then s else s[..3]
  }

  /** callReplyToLuaType, for protocol version resp. */
  function ToLua(r: Reply, resp: nat): Converted
    decreases r
  {
    match r
    case Bulk(s) => Value(Str(s))
    case Status(s) => Value(Tagged(OK, Str(s)))
    case Integer(n) => Value(Number(AsDouble(n) as real))
    case Array(items) => ItemsToLua(items, |items|, resp)
    case Null => Value(if resp == 2 then Bool(false) else Nil)
    case ArrayNull => Value(if resp == 2 then Bool(false) else Nil)
    case Map(pairs) => Wrap(MAP, PairsToLua(pairs, |pairs|, resp))
    case Set(members) => Wrap(SET, MembersToLua(members, |members|, resp))
    case Boolean(b) => Value(Bool(b))
    case Double(x) => Value(Tagged(DOUBLE, Number(x)))
    case BigNumber(s) => Value(Tagged(BIG_NUMBER, Str(s)))
    case Verbatim(s, format) => Value(Tagged(VERBATIM, VerbatimTable(s, FirstThree(format))))
    case Error(s) => Value(ErrorTable(s))
  }

  function Wrap(name: seq<byte>, c: Converted): Converted {
    if c.Raised? then c else Value(Tagged(name, c.v))
  }

  /** The table after the field was set, or the error of the first conversion that raised one. */
  function Put(table: Converted, key: Converted, val: Converted): Converted {
    if table.Raised? || key.Raised? || val.Raised? || key.v.Nil? || !table.v.Table? then Raised
    else Value(Table(SetField(table.v.entries, key.v, val.v)))
  }

  /** The table of the first n items. */
  function ItemsToLua(items: seq<Reply>, n: nat, resp: nat): Converted
    requires n <= |items|
    decreases items, n
  {
    if n == 0 then Value(Table([]))
    else Put(ItemsToLua(items, n - 1, resp), Value(Number(n as real)), ToLua(items[n - 1], resp))
  }

  function PairsToLua(pairs: seq<Pair>, n: nat, resp: nat): Converted
    requires n <= |pairs|
    decreases pairs, n
  {
    if n == 0 then Value(Table([]))
    else PutPair(PairsToLua(pairs, n - 1, resp), pairs[n - 1], resp)
  }

  function PutPair(table: Converted, p: Pair, resp: nat): Converted
    decreases p
  {
    Put(table, ToLua(p.key, resp), ToLua(p.val, resp))
  }

  function MembersToLua(members: seq<Reply>, n: nat, resp: nat): Converted
    requires n <= |members|
    decreases members, n
  {
    if n == 0 then Value(Table([]))
    else Put(MembersToLua(members, n - 1, resp), ToLua(members[n - 1], resp), Value(Bool(true)))
  }

  // ----- from a Lua value to a reply -----

  /** The values at j, j + 1, j + 2 and so on up to the first hole. */
  function ArrayPart(es: seq<Entry>, j: nat): seq<Lua>
    decreases |es|
  {
    var v := Find(es, Number(j as real));
    if v.Nil? then [] else [v] + ArrayPart(Remove(es, Number(j as real)), j + 1)
  }

  /** What kind of reply a table stands for, tried in this order. */
  datatype Kind =
    | IsError(s: seq<byte>)
    | IsStatus(s: seq<byte>)
    | IsDouble(x: real)
    | IsBigNumber(s: seq<byte>)
    | IsVerbatim(s: seq<byte>, format: seq<byte>)
    | IsMap(entries: seq<Entry>)
    | IsSet(entries: seq<Entry>)
    | IsArray(items: seq<Lua>)

  predicate VerbatimFields(v: Lua) {
    v.Table? && Field(v.entries, FORMAT).Str? && Field(v.entries, STRING).Str?
  }

  function KindOf(es: seq<Entry>): Kind {
    if Field(es, ERR).Str? then IsError(Field(es, ERR).s)
    else if Field(es, OK).Str? then IsStatus(Field(es, OK).s)
    else if Field(es, DOUBLE).Number? then IsDouble(Field(es, DOUBLE).x)
    else if Field(es, BIG_NUMBER).Str? then IsBigNumber(Field(es, BIG_NUMBER).s)
    else if VerbatimFields(Field(es, VERBATIM)) then
      IsVerbatim(Field(Field(es, VERBATIM).entries, STRING).s, Field(Field(es, VERBATIM).entries, FORMAT).s)
    else if Field(es, MAP).Table? then IsMap(Field(es, MAP).entries)
    else if Field(es, SET).Table? then IsSet(Field(es, SET).entries)
    else IsArray(ArrayPart(es, 1))
  }

  /** The order in which lua_next visits the entries of a table. */
  type Order = seq<Entry> -> seq<Entry>

  function Room(top: nat, limit: nat): nat {
    if top < limit then limit - top else 0
  }

  /**
    luajitReplyToServerReply: top is the height of the Lua stack with the value on it, limit how
    high it can get. Converting a value needs room for four more.
   */
  function ToReply(v: Lua, resp: nat, next: Order, top: nat, limit: nat): Reply
    decreases Room(top, limit), 1, 0
  {
    if top + 4 > limit then Error(STACK_LIMIT)
    else
      match v
      case Str(s) => Bulk(s)
      case Bool(b) => if resp == 2 then if b then Integer(1) else Null else Boolean(b)
      case Number(x) => Integer(Truncated(x))
      case Nil => Null
      case Other(_) => Null
      case Table(es) =>
        match KindOf(es)
        case IsError(s) => Error(CutAtNul(s))
        case IsStatus(s) => Status(OneLine(CutAtNul(s)))
        case IsDouble(x) => Double(x)
        case IsBigNumber(s) => BigNumber(OneLine(CutAtNul(s)))
        case IsVerbatim(s, format) => Verbatim(s, CutAtNul(format))
        case IsMap(entries) => Map(PairsOf(next(entries), resp, next, top + 3, limit))
        case IsSet(entries) => Set(KeysOf(next(entries), resp, next, top + 3, limit))
        case IsArray(items) => Array(ItemsOf(items, resp, next, top + 1, limit))
  }

  /** The elements one slot above the table. */
  function ItemsOf(items: seq<Lua>, resp: nat, next: Order, top: nat, limit: nat): (rs: seq<Reply>)
    decreases Room(top, limit), 2, |items|
  {
    if items == [] then [] else [ToReply(items[0], resp, next, top, limit)] + ItemsOf(items[1..], resp, next, top, limit)
  }

  /** The copy of the key is one slot above the value. */
  function PairsOf(es: seq<Entry>, resp: nat, next: Order, top: nat, limit: nat): (ps: seq<Pair>)
    decreases Room(top, limit), 2, |es|
  {
    if es == [] then []
    else
      [Pair(ToReply(es[0].key, resp, next, top + 1, limit), ToReply(es[0].val, resp, next, top, limit))]
      + PairsOf(es[1..], resp, next, top, limit)
  }

  function KeysOf(es: seq<Entry>, resp: nat, next: Order, top: nat, limit: nat): (rs: seq<Reply>)
    decreases Room(top, limit), 2, |es|
  {
    if es == [] then [] else [ToReply(es[0].key, resp, next, top, limit)] + KeysOf(es[1..], resp, next, top, limit)
  }

  // ----- the reply as the client gets it -----

  /** A reply that is not an aggregate, the header of one, or a header whose length is still to come. */
  datatype Token =
    | Whole(r: Reply)
    | ArrayHeader(n: nat)
    | MapHeader(n: nat)
    | SetHeader(n: nat)
    | Pending

  predicate Aggregate(r: Reply) {
    r.Array? || r.Map? || r.Set?
  }

  /** A reply with every length in front. */
  function Tokens(r: Reply): seq<Token>
    decreases r
  {
    match r
    case Array(items) => [ArrayHeader(|items|)] + ItemTokens(items, |items|)
    case Map(pairs) => [MapHeader(|pairs|)] + PairTokens(pairs, |pairs|)
    case Set(members) => [SetHeader(|members|)] + ItemTokens(members, |members|)
    case _ => [Whole(r)]
  }

  function ItemTokens(items: seq<Reply>, n: nat): seq<Token>
    requires n <= |items|
    decreases items, n
  {
    if n == 0 then [] else ItemTokens(items, n - 1) + Tokens(items[n - 1])
  }

  function PairTokens(pairs: seq<Pair>, n: nat): seq<Token>
    requires n <= |pairs|
    decreases pairs, n
  {
    if n == 0 then [] else PairTokens(pairs, n - 1) + BothTokens(pairs[n - 1])
  }

  function BothTokens(p: Pair): seq<Token>
    decreases p
  {
    Tokens(p.key) + Tokens(p.val)
  }

  /** What a client reads: so many replies and the tokens after them. */
  datatype Seen = Seen(rs: seq<Reply>, rest: seq<Token>) | Garbled

  /** The next complete reply, trusting the lengths in the headers. */
  function ReadReply(ts: seq<Token>): (d: Seen)
    ensures d.Seen? ==> |d.rs| == 1 && |d.rest| < |ts|
    decreases |ts|, 0
  {
    if ts == [] then Garbled
    else
      match ts[0]
      case Whole(r) => if Aggregate(r) then Garbled else Seen([r], ts[1..])
      case ArrayHeader(n) => var d := ReadMany(n, ts[1..]); if d.Seen? then Seen([Array(d.rs)], d.rest) else d
      case SetHeader(n) => var d := ReadMany(n, ts[1..]); if d.Seen? then Seen([Set(d.rs)], d.rest) else d
      case MapHeader(n) => var d := ReadMany(2 * n, ts[1..]); if d.Seen? then Seen([Map(Paired(d.rs))], d.rest) else d
      case Pending => Garbled
  }

  /** The next n replies. */
  function ReadMany(n: nat, ts: seq<Token>): (d: Seen)
    ensures d.Seen? ==> |d.rs| == n && |d.rest| <= |ts|
    decreases |ts|, 1
  {
    if n == 0 then Seen([], ts)
    else
      var d := ReadReply(ts);
      if d.Garbled? then d
      else
        var e := ReadMany(n - 1, d.rest);
        if e.Garbled? then e else Seen(d.rs + e.rs, e.rest)
  }

  function Paired(rs: seq<Reply>): seq<Pair> {
    if |rs| < 2 then [] else [Pair(rs[0], rs[1])] + Paired(rs[2..])
  }

  function Flat(pairs: seq<Pair>): seq<Reply> {
    if pairs == [] then [] else [pairs[0].key, pairs[0].val] + Flat(pairs[1..])
  }

  lemma {:induction false} PairedFlat(pairs: seq<Pair>)
    ensures |Flat(pairs)| == 2 * |pairs| && Paired(Flat(pairs)) == pairs
  {
    if pairs != [] {
      PairedFlat(pairs[1..]);
      assert Flat(pairs)[2..] == Flat(pairs[1..]);
    }
  }
}
