/** Lua values as JSON text and back (src/lua_cjson.c:489-698, 1011-1288). */
module JsonCodec {
  import opened Bytes
  import opened StringBuffer
  import opened JsonText

  /**
    A number is its text. Null is the light userdata that stands for JSON null. A table is its
    entries in the order lua_next visits them.
   */
  datatype Value =
    | Nil
    | Null
    | Bool(b: bool)
    | Num(text: seq<byte>)
    | Str(s: seq<byte>)
    | Table(entries: seq<Entry>)
    | Other

  datatype Key = IntKey(n: int) | FracKey(text: seq<byte>) | StrKey(s: seq<byte>) | OtherKey

  datatype Entry = Entry(key: Key, val: Value)

  const SPARSE_RATIO: int := 2
  const SPARSE_SAFE: int := 10

  // ----- tables as arrays -----

  /** The largest key where all are integers from 1 on, otherwise -1. */
  function MaxKey(es: seq<Entry>): int {
    if es == [] then 0
    else
      var m, key := MaxKey(es[..|es| - 1]), es[|es| - 1].key;
      if m < 0 || !key.IntKey? || key.n < 1 then -1 else if key.n > m then key.n else m
  }

  /** The value at an integer key, nil when there is none. */
  function Find(es: seq<Entry>, n: int): Value {
    if es == [] then Nil else if es[0].key == IntKey(n) then es[0].val else Find(es[1..], n)
  }

  /** What lua_rawgeti gives for 1 to n. */
  function Items(es: seq<Entry>, n: nat): (vs: seq<Value>)
    ensures |vs| == n
  {
    seq(n, i requires 0 <= i < n => Find(es, i + 1))
  }

  datatype Length = ArrayOf(n: nat) | NotArray | TooSparse

  /** lua_array_length with the default sparse-array settings. */
  function ArrayLength(es: seq<Entry>): Length {
    var m := MaxKey(es);
    if m < 0 then NotArray
    else if m > |es| * SPARSE_RATIO && m > SPARSE_SAFE then TooSparse
    else ArrayOf(m)
  }

  // ----- encoding -----

  datatype Refusal = ExcessiveNesting | ExcessivelySparse | BadKey | BadType

  datatype Encoded = Json(text: seq<byte>) | Refused(why: Refusal)

  function Then(a: Encoded, b: Encoded): Encoded {
    if a.Refused? then a else if b.Refused? then b else Json(a.text + b.text)
  }

  function DecimalText(n: int): (s: seq<byte>)
    decreases if n < 0 then 1 - n else n
  {
    if n < 0 then [0x2d] + DecimalText(-n)
    else if n < 10 then [0x30 + n]
    else DecimalText(n / 10) + [0x30 + n % 10]
  }

  const TRUE: seq<byte> := [0x74, 0x72, 0x75, 0x65]
  const FALSE: seq<byte> := [0x66, 0x61, 0x6c, 0x73, 0x65]
  const NULL: seq<byte> := [0x6e, 0x75, 0x6c, 0x6c]
  const COMMA: byte := 0x2c
  const COLON: byte := 0x3a
  const ARR_BEGIN: byte := 0x5b
  const ARR_END: byte := 0x5d
  const OBJ_BEGIN: byte := 0x7b
  const OBJ_END: byte := 0x7d

  function KeyText(key: Key): Encoded {
    match key
    case IntKey(n) => Json([QUOTE] + DecimalText(n) + [QUOTE, COLON])
    case FracKey(text) => Json([QUOTE] + text + [QUOTE, COLON])
    case StrKey(s) => Json(Literal(s) + [COLON])
    case OtherKey => Refused(BadKey)
  }

  /** json_append_data: room is the number of tables that may still be opened inside one another. */
  function Encode(v: Value, room: nat): Encoded
    decreases room, 0, 0
  {
    match v
    case Nil => Json(NULL)
    case Null => Json(NULL)
    case Bool(b) => Json(if b then TRUE else FALSE)
    case Num(text) => Json(text)
    case Str(s) => Json(Literal(s))
    case Other => Refused(BadType)
    case Table(es) =>
      if room == 0 then Refused(ExcessiveNesting)
      else
        match ArrayLength(es)
        case TooSparse => Refused(ExcessivelySparse)
        case NotArray => Then(Json([OBJ_BEGIN]), MembersFrom(es, 0, room - 1))
        case ArrayOf(n) =>
          if n > 0 then Then(Json([ARR_BEGIN]), ItemsFrom(Items(es, n), 0, room - 1))
          else Then(Json([OBJ_BEGIN]), MembersFrom(es, 0, room - 1))
  }

  function Separator(j: nat): Encoded {
    Json(if j == 0 then [] else [COMMA])
  }

  /** The text from item j on, the closing bracket included. */
  function ItemsFrom(vs: seq<Value>, j: nat, room: nat): Encoded
    requires j <= |vs|
    decreases room, 1, |vs| - j
  {
    if j == |vs| then Json([ARR_END])
    else Then(Separator(j), Then(Encode(vs[j], room), ItemsFrom(vs, j + 1, room)))
  }

  /** The text from member i on, the closing brace included. */
  function MembersFrom(es: seq<Entry>, i: nat, room: nat): Encoded
    requires i <= |es|
    decreases room, 1, |es| - i
  {
    if i == |es| then Json([OBJ_END])
    else Then(Separator(i), Then(KeyText(es[i].key), Then(Encode(es[i].val, room), MembersFrom(es, i + 1, room))))
  }

  // ----- tokens -----

  datatype Token =
    | ObjBegin | ObjEnd | ArrBegin | ArrEnd | StringToken(bytes: seq<byte>) | NumberToken(text: seq<byte>)
    | BooleanToken(b: bool) | NullToken | Colon | Comma | End | ErrorToken

  datatype Lexed = Lexed(token: Token, rest: seq<byte>)

  predicate IsSpace(c: byte) {
    c == 0x20 || c == 0x09 || c == 0x0a || c == 0x0d
  }

  predicate IsDigit(c: byte) {
    0x30 <= c <= 0x39
  }

  function DigitsLength(s: seq<byte>): (n: nat)
    ensures n <= |s|
  {
    if s == [] || !IsDigit(s[0]) then 0 else 1 + DigitsLength(s[1..])
  }

  /** . digits, where either side of the point may be empty. */
  function FractionLength(s: seq<byte>): (n: nat)
    ensures n <= |s|
  {
    if s != [] && s[0] == 0x2e then 1 + DigitsLength(s[1..]) else 0
  }

  /** e or E, a sign and digits; nothing when the digits are missing. */
  function ExponentLength(s: seq<byte>): (n: nat)
    ensures n <= |s|
  {
    if s == [] || (s[0] != 0x65 && s[0] != 0x45) then 0
    else
      var sign := if 1 < |s| && (s[1] == 0x2b || s[1] == 0x2d) then 2 else 1;
      var digits := DigitsLength(s[sign..]);
      if digits == 0 then 0 else sign + digits
  }

  function SignLength(s: seq<byte>): (n: nat)
    ensures n <= |s|
  {
    if s != [] && (s[0] == 0x2b || s[0] == 0x2d) then 1 else 0
  }

  /** Where the sign and the digits before the point end. */
  function WholeEnd(s: seq<byte>): (n: nat)
    ensures SignLength(s) <= n <= |s|
  {
    SignLength(s) + DigitsLength(s[SignLength(s)..])
  }

  function MantissaEnd(s: seq<byte>): (n: nat)
    ensures WholeEnd(s) <= n <= |s|
  {
    WholeEnd(s) + FractionLength(s[WholeEnd(s)..])
  }

  /** How much of s the decimal scanner of strtod takes. At least one digit stands before the exponent. */
  function NumberLength(s: seq<byte>): (n: nat)
    ensures n <= |s|
  {
    var m := MantissaEnd(s);
    if WholeEnd(s) == SignLength(s) && m <= WholeEnd(s) + 1 then 0 else m + ExponentLength(s[m..])
  }

  function WordToken(s: seq<byte>): Lexed {
    if TRUE <= s then Lexed(BooleanToken(true), s[4..])
    else if FALSE <= s then Lexed(BooleanToken(false), s[5..])
    else if NULL <= s then Lexed(NullToken, s[4..])
    else Lexed(ErrorToken, s)
  }

  function NumberTokenAt(s: seq<byte>): Lexed {
    var n := NumberLength(s);
    if n == 0 then Lexed(ErrorToken, s) else Lexed(NumberToken(s[..n]), s[n..])
  }

  /** json_next_token looks the next character up in ch2token; whitespace is skipped. */
  function NextToken(s: seq<byte>): (l: Lexed)
    ensures |l.rest| <= |s| && (l.token != End && l.token != ErrorToken ==> |l.rest| < |s|)
    decreases |s|, 1
  {
    TokenAt(s)
  }

  function TokenAt(s: seq<byte>): (l: Lexed)
    ensures |l.rest| <= |s| && (l.token != End && l.token != ErrorToken ==> |l.rest| < |s|)
    decreases |s|, 0
  {
    var c := Peek(s);
    if IsSpace(c) then NextToken(s[1..])
    else if c == 0 then Lexed(End, s)
    else if c == OBJ_BEGIN then Lexed(ObjBegin, s[1..])
    else if c == OBJ_END then Lexed(ObjEnd, s[1..])
    else if c == ARR_BEGIN then Lexed(ArrBegin, s[1..])
    else if c == ARR_END then Lexed(ArrEnd, s[1..])
    else if c == COMMA then Lexed(Comma, s[1..])
    else if c == COLON then Lexed(Colon, s[1..])
    else if c == QUOTE then
      match StringBody(s[1..])
      case Text(bytes, rest) => Lexed(StringToken(bytes), rest)
      case Broken(_, at) => Lexed(ErrorToken, s)
    else if c == 0x2d || c == 0x2b || IsDigit(c) then NumberTokenAt(s)
    else WordToken(s)
  }

  // ----- decoding -----

  datatype Fault =
    | ExpectedKey | ExpectedColon | ExpectedCommaOrObjEnd | ExpectedCommaOrArrEnd | ExpectedValue | ExpectedEnd
    | NestedTooDeep | NotUtf8

  datatype Parsed = Done(v: Value, rest: seq<byte>) | Failed(fault: Fault)

  /** lua_rawset on a fresh table: the value is never nil. */
  function SetMember(es: seq<Entry>, key: Key, val: Value): seq<Entry> {
    if es == [] then [Entry(key, val)]
    else if es[0].key == key then [Entry(key, val)] + es[1..]
    else [es[0]] + SetMember(es[1..], key, val)
  }

  /** json_process_value on the next token. room counts down where the parser's current_depth counts up. */
  function ParseValue(s: seq<byte>, room: nat): (p: Parsed)
    ensures p.Done? ==> |p.rest| < |s|
    decreases |s|, 0
  {
    var l := NextToken(s);
    match l.token
    case StringToken(bytes) => Done(Str(bytes), l.rest)
    case NumberToken(text) => Done(Num(text), l.rest)
    case BooleanToken(b) => Done(Bool(b), l.rest)
    case NullToken => Done(Null, l.rest)
    case ObjBegin => if room == 0 then Failed(NestedTooDeep) else ParseObject(l.rest, room - 1)
    case ArrBegin => if room == 0 then Failed(NestedTooDeep) else ParseArray(l.rest, room - 1)
    case _ => Failed(ExpectedValue)
  }

  /** json_parse_array_context after the bracket and the depth check. */
  function ParseArray(s: seq<byte>, room: nat): (p: Parsed)
    ensures p.Done? ==> |p.rest| < |s|
    decreases |s|, 2
  {
    var l := NextToken(s);
    if l.token == ArrEnd then Done(Table([]), l.rest) else ParseItems(s, 1, [], room)
  }

  function ParseItems(s: seq<byte>, i: nat, es: seq<Entry>, room: nat): (p: Parsed)
    ensures p.Done? ==> |p.rest| < |s|
    decreases |s|, 1
  {
    match ParseValue(s, room)
    case Failed(f) => Failed(f)
    case Done(v, rest) => AfterItem(rest, i + 1, es + [Entry(IntKey(i), v)], room)
  }

  function AfterItem(s: seq<byte>, i: nat, es: seq<Entry>, room: nat): (p: Parsed)
    ensures p.Done? ==> |p.rest| < |s|
    decreases |s|, 2
  {
    var l := NextToken(s);
    if l.token == ArrEnd then Done(Table(es), l.rest)
    else if l.token != Comma then Failed(ExpectedCommaOrArrEnd)
    else ParseItems(l.rest, i, es, room)
  }

  /** json_parse_object_context after the brace and the depth check. */
  function ParseObject(s: seq<byte>, room: nat): (p: Parsed)
    ensures p.Done? ==> |p.rest| < |s|
    decreases |s|, 2
  {
    var l := NextToken(s);
    if l.token == ObjEnd then Done(Table([]), l.rest) else ParseMembers(s, [], room)
  }

  function ParseMembers(s: seq<byte>, es: seq<Entry>, room: nat): (p: Parsed)
    ensures p.Done? ==> |p.rest| < |s|
    decreases |s|, 1
  {
    var l := NextToken(s);
    if !l.token.StringToken? then Failed(ExpectedKey)
    else
      var c := NextToken(l.rest);
      if c.token != Colon then Failed(ExpectedColon)
      else
        match ParseValue(c.rest, room)
        case Failed(f) => Failed(f)
        case Done(v, rest) => AfterMember(rest, SetMember(es, StrKey(l.token.bytes), v), room)
  }

  function AfterMember(s: seq<byte>, es: seq<Entry>, room: nat): (p: Parsed)
    ensures p.Done? ==> |p.rest| < |s|
    decreases |s|, 2
  {
    var l := NextToken(s);
    if l.token == ObjEnd then Done(Table(es), l.rest)
    else if l.token != Comma then Failed(ExpectedCommaOrObjEnd)
    else ParseMembers(l.rest, es, room)
  }

  /** json_decode. */
  function Decode(s: seq<byte>, room: nat): Parsed {
    if 2 <= |s| && (s[0] == 0 || s[1] == 0) then Failed(NotUtf8)
    else
      match ParseValue(s, room)
      case Failed(f) => Failed(f)
      case Done(v, rest) => if NextToken(rest).token == End then Done(v, []) else Failed(ExpectedEnd)
  }
}
