/** MessagePack encoding and decoding of whole values, and their round trip (src/lua_cmsgpack.c:177-510, 555-795). */
module MsgpackCodec {
  import opened Powers
  import opened Bytes
  import opened MsgpackFormat
  import opened MsgpackTables

  const MAX_NESTING: nat := 16

  /** A Lua value: no nil inside a table, no scalar key twice. */
  predicate WellFormed(v: Value) {
    match v
    case Int(n) => Int64(n)
    case Float(payload) => |payload| == 4 || |payload| == 8
    case Table(es) =>
      DistinctKeys(es) && forall e :: e in es ==> !e.key.Nil? && !e.val.Nil? && WellFormed(e.key) && WellFormed(e.val)
    case _ => true
  }

  // ----- encoding -----

  /** mp_encode_lua_type: tables nested MAX_NESTING deep are written as nil. */
  function Encode(v: Value, level: nat): seq<byte>
    requires WellFormed(v) && level <= MAX_NESTING
    decreases MAX_NESTING - level, 0
  {
    match v
    case Nil => [0xc0]
    case Bool(b) => [if b then 0xc3 else 0xc2]
    case Int(n) => IntBytes(n)
    case Float(payload) => FloatBytes(payload)
    case Str(s) => StrHeader(|s|) + s
    case Table(es) =>
      if level == MAX_NESTING then [0xc0]
      else if IsArray(es) then ArrayHeader(|es|) + EncodeItems(es, 0, level + 1)
      else MapHeader(|es|) + EncodeEntries(es, 0, level + 1)
  }

  lemma FindIsIn(es: seq<Entry>, key: Value)
    ensures Find(es, key).Nil? || exists e :: e in es && e.key == key && e.val == Find(es, key)
  {
    if es != [] && es[0].key != key {
      FindIsIn(es[1..], key);
    }
  }

  lemma FoundIsWellFormed(es: seq<Entry>, key: Value)
    requires WellFormed(Table(es))
    ensures WellFormed(Find(es, key))
  {
    FindIsIn(es, key);
  }

  /** The items after the first j, in index order. */
  function EncodeItems(es: seq<Entry>, j: nat, level: nat): seq<byte>
    requires WellFormed(Table(es)) && j <= |es| && level <= MAX_NESTING
    decreases MAX_NESTING - level, 1, |es| - j
  {
    FoundIsWellFormed(es, Int(j + 1));
    if j == |es| then [] else Encode(Find(es, Int(j + 1)), level) + EncodeItems(es, j + 1, level)
  }

  /** The entries after the first i, in traversal order. */
  function EncodeEntries(es: seq<Entry>, i: nat, level: nat): seq<byte>
    requires WellFormed(Table(es)) && i <= |es| && level <= MAX_NESTING
    decreases MAX_NESTING - level, 1, |es| - i
  {
    if i == |es| then []
    else
      assert es[i] in es;
      Encode(es[i].key, level) + Encode(es[i].val, level) + EncodeEntries(es, i + 1, level)
  }

  // ----- decoding -----

  datatype Fault = Eof | BadFormat | NilKey

  datatype Decoded = Done(v: Value, rest: seq<byte>) | Failed(fault: Fault)

  /** lua_settable on a fresh table: a nil value deletes, a table key is never there yet. */
  function SetEntry(es: seq<Entry>, key: Value, val: Value): seq<Entry> {
    if es == [] then if val.Nil? then [] else [Entry(key, val)]
    else if es[0].key == key && !key.Table? then if val.Nil? then es[1..] else [Entry(key, val)] + es[1..]
    else [es[0]] + SetEntry(es[1..], key, val)
  }

  /** mp_decode_to_lua_type. Every success consumes at least one byte. */
  function Decode(s: seq<byte>): (d: Decoded)
    ensures d.Done? ==> |d.rest| < |s|
    decreases |s|, 2, 0
  {
    if s == [] then Failed(Eof) else DecodeType(s)
  }

  /** The switch on the first byte. */
  function DecodeType(s: seq<byte>): (d: Decoded)
    requires s != []
    ensures d.Done? ==> |d.rest| < |s|
    decreases |s|, 1, 0
  {
    HeadConsumes(s);
    match ReadHead(s)
    case Scalar(v, rest) => Done(v, rest)
    case ArrayOf(n, rest) => DecodeArray(rest, n, 1, [])
    case MapOf(n, rest) => DecodeMap(rest, n, [])
    case Short => Failed(Eof)
    case Bad => Failed(BadFormat)
  }

  function DecodeArray(s: seq<byte>, n: nat, index: nat, es: seq<Entry>): (d: Decoded)
    ensures d.Done? ==> |d.rest| <= |s|
    decreases |s|, 3, n
  {
    if n == 0 then Done(Table(es), s)
    else
      var d := Decode(s);
      if d.Failed? then d else DecodeArray(d.rest, n - 1, index + 1, SetEntry(es, Int(index), d.v))
  }

  function DecodeMap(s: seq<byte>, n: nat, es: seq<Entry>): (d: Decoded)
    ensures d.Done? ==> |d.rest| <= |s|
    decreases |s|, 3, n
  {
    if n == 0 then Done(Table(es), s)
    else
      var k := Decode(s);
      if k.Failed? then k
      else
        var v := Decode(k.rest);
        if v.Failed? then v
        else if k.v.Nil? then Failed(NilKey)
        else DecodeMap(v.rest, n - 1, SetEntry(es, k.v, v.v))
  }

  lemma DecodeSwitch(s: seq<byte>, h: Head, d: Decoded)
    requires h == ReadHead(s) && d == Decode(s)
    ensures d == match h
      case Scalar(v, rest) => Done(v, rest)
      case ArrayOf(n, rest) => DecodeArray(rest, n, 1, [])
      case MapOf(n, rest) => DecodeMap(rest, n, [])
      case Short => Failed(Eof)
      case Bad => Failed(BadFormat)
  {
    if s != [] {
      assert d == DecodeType(s);
    }
  }

  // ----- what comes back -----

  /** The 32-bit length fields suffice. */
  predicate Fits(v: Value, level: nat) {
    match v
    case Str(s) => |s| < TWO32
    case Table(es) =>
      level < MAX_NESTING ==> |es| < TWO32 && forall e :: e in es ==> Fits(e.key, level + 1) && Fits(e.val, level + 1)
    case _ => true
  }

  /** lua_settable with a key that is not there yet. */
  function Extend(es: seq<Entry>, key: Value, val: Value): seq<Entry> {
    if val.Nil? then es else es + [Entry(key, val)]
  }

  /** The value read back: arrays in index order, a table too deep replaced by nil, which no table holds. */
  function Canonical(v: Value, level: nat): Value
    requires level <= MAX_NESTING
    decreases MAX_NESTING - level, 0
  {
    if !v.Table? then v
    else if level == MAX_NESTING then Nil
    else if IsArray(v.entries) then Table(CanonicalItems(v.entries, |v.entries|, level + 1))
    else Table(CanonicalEntries(v.entries, |v.entries|, level + 1))
  }

  /** The first j items, without those that are cut off. */
  function CanonicalItems(es: seq<Entry>, j: nat, level: nat): (c: seq<Entry>)
    requires level <= MAX_NESTING
    ensures forall i :: 0 <= i < |c| ==> c[i].key.Int? && 1 <= c[i].key.n <= j
    decreases MAX_NESTING - level, 1, j
  {
    if j == 0 then [] else Extend(CanonicalItems(es, j - 1, level), Int(j), Canonical(Find(es, Int(j)), level))
  }

  /** The first i entries, without those whose value is cut off. */
  function CanonicalEntries(es: seq<Entry>, i: nat, level: nat): seq<Entry>
    requires i <= |es| && level <= MAX_NESTING
    decreases MAX_NESTING - level, 1, i
  {
    if i == 0 then []
    else Extend(CanonicalEntries(es, i - 1, level), Canonical(es[i - 1].key, level), Canonical(es[i - 1].val, level))
  }

  /** A table written as nil. */
  predicate Cut(v: Value, level: nat) {
    v.Table? && level == MAX_NESTING
  }

  /** Somewhere in the value a map has a key written as nil: that is refused on reading. */
  predicate CutKey(v: Value, level: nat)
    requires level <= MAX_NESTING
    decreases MAX_NESTING - level, 0
  {
    v.Table? && level < MAX_NESTING
    && if IsArray(v.entries) then ItemsCut(v.entries, 0, level + 1) else EntriesCut(v.entries, 0, level + 1)
  }

  predicate ItemsCut(es: seq<Entry>, j: nat, level: nat)
    requires j <= |es| && level <= MAX_NESTING
    decreases MAX_NESTING - level, 1, |es| - j
  {
    j < |es| && (CutKey(Find(es, Int(j + 1)), level) || ItemsCut(es, j + 1, level))
  }

  predicate EntriesCut(es: seq<Entry>, i: nat, level: nat)
    requires i <= |es| && level <= MAX_NESTING
    decreases MAX_NESTING - level, 1, |es| - i
  {
    i < |es| && (EntryCut(es[i], level) || EntriesCut(es, i + 1, level))
  }

  predicate EntryCut(e: Entry, level: nat)
    requires level <= MAX_NESTING
    decreases MAX_NESTING - level, 1, 0
  {
    CutKey(e.key, level) || CutKey(e.val, level) || Cut(e.key, level)
  }

  /** The decoder's answer to a value written at this level, with rest behind it. */
  function Answer(v: Value, level: nat, rest: seq<byte>): Decoded
    requires level <= MAX_NESTING
  {
    if CutKey(v, level) then Failed(NilKey) else Done(Canonical(v, level), rest)
  }

  lemma {:induction false} SetAppends(es: seq<Entry>, key: Value, val: Value)
    requires key.Table? || !HasKey(es, key)
    ensures SetEntry(es, key, val) == Extend(es, key, val)
  {
    if es != [] {
      FirstIsOther(es, key);
      SetAppends(es[1..], key, val);
      ExtendTail(es, key, val);
    }
  }

  lemma FirstIsOther(es: seq<Entry>, key: Value)
    requires es != [] && (key.Table? || !HasKey(es, key))
    ensures (es[0].key != key || key.Table?) && (key.Table? || !HasKey(es[1..], key))
  {
    if HasKey(es[1..], key) {
      var i :| 0 <= i < |es[1..]| && es[1..][i].key == key;
      assert es[i + 1].key == key;
    }
  }

  lemma ExtendTail(es: seq<Entry>, key: Value, val: Value)
    requires es != []
    ensures [es[0]] + Extend(es[1..], key, val) == Extend(es, key, val)
  {
  }

  lemma CanonicalNil(v: Value, level: nat)
    requires level <= MAX_NESTING && !v.Nil?
    ensures Canonical(v, level).Nil? <==> Cut(v, level)
    ensures Canonical(v, level).Table? <==> v.Table? && !Cut(v, level)
    ensures !v.Table? ==> Canonical(v, level) == v
  {
  }

  lemma ScalarReads(v: Value, rest: seq<byte>)
    requires WellFormed(v) && !v.Table? && Fits(v, 0)
    ensures Decode(Encode(v, 0) + rest) == Done(v, rest)
  {
    match v
    case Int(n) => IntReads(n, rest);
    case Float(payload) => FloatReads(payload, rest);
    case Str(s) => StrReads(s, rest);
    case Nil => assert ([0xc0] + rest)[1..] == rest;
    case Bool(b) => assert ([if b then 0xc3 else 0xc2] + rest)[1..] == rest;
  }

  lemma ArrayStep(s: seq<byte>, n: nat, index: nat, es: seq<Entry>, v: Value, rest: seq<byte>, d: Decoded)
    requires 0 < n && Decode(s) == Done(v, rest) && !HasKey(es, Int(index))
    requires DecodeArray(rest, n - 1, index + 1, Extend(es, Int(index), v)) == d
    ensures DecodeArray(s, n, index, es) == d
  {
    SetAppends(es, Int(index), v);
  }

  lemma MapStep(s: seq<byte>, n: nat, es: seq<Entry>, k: Value, middle: seq<byte>, v: Value, rest: seq<byte>, d: Decoded)
    requires 0 < n && Decode(s) == Done(k, middle) && Decode(middle) == Done(v, rest)
    requires !k.Nil? && (k.Table? || !HasKey(es, k))
    requires DecodeMap(rest, n - 1, Extend(es, k, v)) == d
    ensures DecodeMap(s, n, es) == d
  {
    SetAppends(es, k, v);
  }

  lemma MapFails(s: seq<byte>, n: nat, es: seq<Entry>, k: Decoded, v: Decoded)
    requires 0 < n && k == Decode(s)
    requires k == Failed(NilKey) || (k.Done? && v == Decode(k.rest) && (v == Failed(NilKey) || (v.Done? && k.v.Nil?)))
    ensures DecodeMap(s, n, es) == Failed(NilKey)
  {
  }

  /** What the table at level - 1 promises for its items and entries. */
  predicate Inner(es: seq<Entry>, level: nat) {
    0 < level <= MAX_NESTING && WellFormed(Table(es)) && Fits(Table(es), level - 1)
  }

  predicate Ready(v: Value, level: nat) {
    level <= MAX_NESTING && WellFormed(v) && Fits(v, level) && !v.Nil?
  }

  lemma EntryReady(es: seq<Entry>, i: nat, level: nat)
    requires Inner(es, level) && i < |es|
    ensures Ready(es[i].key, level) && Ready(es[i].val, level)
  {
    assert es[i] in es;
  }

  lemma ItemReady(es: seq<Entry>, j: nat, level: nat)
    requires Inner(es, level) && IsArray(es) && 1 <= j <= |es|
    ensures Ready(Find(es, Int(j)), level)
  {
    assert HasKey(es, Int(j));
    var i :| 0 <= i < |es| && es[i].key == Int(j);
    FindAt(es, i);
    EntryReady(es, i, level);
  }

  predicate ItemsReady(es: seq<Entry>, j: nat, level: nat)
    requires j <= |es|
    decreases |es| - j
  {
    j == |es| || (Ready(Find(es, Int(j + 1)), level) && ItemsReady(es, j + 1, level))
  }

  lemma {:induction false} AllReady(es: seq<Entry>, j: nat, level: nat)
    requires Inner(es, level) && IsArray(es) && j <= |es|
    ensures ItemsReady(es, j, level)
    decreases |es| - j
  {
    if j != |es| {
      ItemReady(es, j + 1, level);
      AllReady(es, j + 1, level);
    }
  }

  lemma ItemsSplit(es: seq<Entry>, j: nat, level: nat, item: Value, rest: seq<byte>)
    requires WellFormed(Table(es)) && level <= MAX_NESTING && j < |es| && item == Find(es, Int(j + 1)) && WellFormed(item)
    ensures EncodeItems(es, j, level) + rest == Encode(item, level) + (EncodeItems(es, j + 1, level) + rest)
  {
  }

  lemma EntriesSplit(es: seq<Entry>, i: nat, level: nat, rest: seq<byte>)
    requires WellFormed(Table(es)) && level <= MAX_NESTING && i < |es| && WellFormed(es[i].key) && WellFormed(es[i].val)
    ensures EncodeEntries(es, i, level) + rest
         == Encode(es[i].key, level) + (Encode(es[i].val, level) + (EncodeEntries(es, i + 1, level) + rest))
  {
    var k, v, more := Encode(es[i].key, level), Encode(es[i].val, level), EncodeEntries(es, i + 1, level);
    assert EncodeEntries(es, i, level) == k + v + more;
    FourParts(k, v, more, rest);
  }

  lemma FourParts(a: seq<byte>, b: seq<byte>, c: seq<byte>, d: seq<byte>)
    ensures a + b + c + d == a + (b + (c + d))
  {
  }

  /** Every key among the first i entries read back is the key of one of them. */
  lemma {:induction false} KeyComesFrom(es: seq<Entry>, i: nat, level: nat, key: Value) returns (k: int)
    requires level <= MAX_NESTING && i <= |es| && HasKey(CanonicalEntries(es, i, level), key)
    ensures 0 <= k < i && Canonical(es[k].key, level) == key && !Canonical(es[k].val, level).Nil?
  {
    if i != 0 {
      var front, e := CanonicalEntries(es, i - 1, level), es[i - 1];
      LastKey(front, Canonical(e.key, level), Canonical(e.val, level), key);
      if HasKey(front, key) {
        k := KeyComesFrom(es, i - 1, level, key);
      } else {
        k := i - 1;
      }
    }
  }

  lemma LastKey(es: seq<Entry>, k: Value, v: Value, key: Value)
    requires HasKey(Extend(es, k, v), key)
    ensures HasKey(es, key) || (k == key && !v.Nil?)
  {
    var longer := Extend(es, k, v);
    var at :| 0 <= at < |longer| && longer[at].key == key;
    if at < |es| {
      assert es[at] == longer[at];
    }
  }

  lemma NewKey(es: seq<Entry>, i: nat, level: nat, c: seq<Entry>, k: Value, ck: Value)
    requires Inner(es, level) && i < |es| && c == CanonicalEntries(es, i, level) && k == es[i].key && ck == Canonical(k, level)
    ensures Cut(k, level) || ck.Table? || !HasKey(c, ck)
  {
    if !Cut(k, level) && HasKey(c, ck) {
      var at := KeyComesFrom(es, i, level, ck);
      EntryReady(es, at, level);
      EntryReady(es, i, level);
      CanonicalNil(es[at].key, level);
      CanonicalNil(k, level);
    }
  }

  /** v, written at this level with rest behind it, reads back as itself, canonical, and leaves rest. */
  ghost predicate Reads(v: Value, level: nat, rest: seq<byte>)
    requires WellFormed(v) && level <= MAX_NESTING
  {
    Decode(Encode(v, level) + rest) == Answer(v, level, rest)
  }

  ghost predicate ArrayRuns(s: seq<byte>, n: nat, index: nat, c: seq<Entry>, d: Decoded) {
    DecodeArray(s, n, index, c) == d
  }

  ghost predicate MapRuns(s: seq<byte>, n: nat, c: seq<Entry>, d: Decoded) {
    DecodeMap(s, n, c) == d
  }

  function ItemsAnswer(es: seq<Entry>, j: nat, level: nat, rest: seq<byte>): Decoded
    requires level <= MAX_NESTING && j <= |es|
  {
    if ItemsCut(es, j, level) then Failed(NilKey) else Done(Table(CanonicalItems(es, |es|, level)), rest)
  }

  function EntriesAnswer(es: seq<Entry>, i: nat, level: nat, rest: seq<byte>): Decoded
    requires level <= MAX_NESTING && i <= |es|
  {
    if EntriesCut(es, i, level) then Failed(NilKey) else Done(Table(CanonicalEntries(es, |es|, level)), rest)
  }

  ghost predicate ItemsRead(es: seq<Entry>, j: nat, level: nat, rest: seq<byte>)
    requires WellFormed(Table(es)) && level <= MAX_NESTING && j <= |es|
  {
    DecodeArray(EncodeItems(es, j, level) + rest, |es| - j, j + 1, CanonicalItems(es, j, level)) == ItemsAnswer(es, j, level, rest)
  }

  ghost predicate EntriesRead(es: seq<Entry>, i: nat, level: nat, rest: seq<byte>)
    requires WellFormed(Table(es)) && level <= MAX_NESTING && i <= |es|
  {
    DecodeMap(EncodeEntries(es, i, level) + rest, |es| - i, CanonicalEntries(es, i, level)) == EntriesAnswer(es, i, level, rest)
  }

  lemma ArrayRead(es: seq<Entry>, level: nat, rest: seq<byte>)
    requires level < MAX_NESTING && WellFormed(Table(es)) && IsArray(es) && |es| < TWO32
    requires ItemsRead(es, 0, level + 1, rest)
    ensures Reads(Table(es), level, rest)
  {
    var items := EncodeItems(es, 0, level + 1);
    ArrayReads(|es|, items + rest);
    assert ArrayHeader(|es|) + items + rest == ArrayHeader(|es|) + (items + rest);
  }

  lemma MapRead(es: seq<Entry>, level: nat, rest: seq<byte>)
    requires level < MAX_NESTING && WellFormed(Table(es)) && !IsArray(es) && |es| < TWO32
    requires EntriesRead(es, 0, level + 1, rest)
    ensures Reads(Table(es), level, rest)
  {
    var entries := EncodeEntries(es, 0, level + 1);
    MapReads(|es|, entries + rest);
    assert MapHeader(|es|) + entries + rest == MapHeader(|es|) + (entries + rest);
  }

  lemma ItemExtends(es: seq<Entry>, j: nat, level: nat, item: Value, c: seq<Entry>, c2: seq<Entry>)
    requires level <= MAX_NESTING && j < |es| && item == Find(es, Int(j + 1))
    requires c == CanonicalItems(es, j, level) && c2 == CanonicalItems(es, j + 1, level)
    ensures c2 == Extend(c, Int(j + 1), Canonical(item, level))
  {
  }

  lemma UnfoldItems(es: seq<Entry>, j: nat, level: nat, c: seq<Entry>, next: seq<byte>, rest: seq<byte>, d: Decoded, n: nat, index: nat)
    requires WellFormed(Table(es)) && level <= MAX_NESTING && j <= |es| && n == |es| - j && index == j + 1
    requires c == CanonicalItems(es, j, level) && next == EncodeItems(es, j, level) + rest && d == ItemsAnswer(es, j, level, rest)
    requires ItemsRead(es, j, level, rest)
    ensures ArrayRuns(next, n, index, c, d)
  {
  }

  lemma FoldItems(es: seq<Entry>, j: nat, level: nat, c: seq<Entry>, s: seq<byte>, rest: seq<byte>, d: Decoded)
    requires WellFormed(Table(es)) && level <= MAX_NESTING && j < |es| && EncodeItems(es, j, level) + rest == s
    requires c == CanonicalItems(es, j, level) && d == ItemsAnswer(es, j, level, rest) && ArrayRuns(s, |es| - j, j + 1, c, d)
    ensures ItemsRead(es, j, level, rest)
  {
  }

  lemma ItemsAnswered(es: seq<Entry>, j: nat, level: nat, item: Value, rest: seq<byte>, d: Decoded, e: Decoded)
    requires level <= MAX_NESTING && j < |es| && item == Find(es, Int(j + 1))
    requires d == ItemsAnswer(es, j, level, rest) && e == ItemsAnswer(es, j + 1, level, rest)
    ensures d == if CutKey(item, level) then Failed(NilKey) else e
  {
  }

  lemma ItemStep(c: seq<Entry>, c2: seq<Entry>, n: nat, index: nat, level: nat, item: Value, v: Value, next: seq<byte>, d: Decoded, e: Decoded)
    requires 0 < n && Ready(item, level) && Reads(item, level, next) && !HasKey(c, Int(index)) && v == Canonical(item, level)
    requires d == if CutKey(item, level) then Failed(NilKey) else e
    requires c2 == Extend(c, Int(index), v) && ArrayRuns(next, n - 1, index + 1, c2, e)
    ensures ArrayRuns(Encode(item, level) + next, n, index, c, d)
  {
    if !CutKey(item, level) {
      ArrayStep(Encode(item, level) + next, n, index, c, v, next, e);
    }
  }

  lemma NoIndexYet(es: seq<Entry>, j: nat, level: nat, c: seq<Entry>)
    requires level <= MAX_NESTING && c == CanonicalItems(es, j, level)
    ensures !HasKey(c, Int(j + 1))
  {
  }

  lemma NextItem(es: seq<Entry>, j: nat, level: nat, item: Value, next: seq<byte>, rest: seq<byte>)
    requires Inner(es, level) && j < |es| && item == Find(es, Int(j + 1)) && Ready(item, level)
    requires next == EncodeItems(es, j + 1, level) + rest && Reads(item, level, next) && ItemsRead(es, j + 1, level, rest)
    ensures ItemsRead(es, j, level, rest)
  {
    var c, c2, v, n, index := CanonicalItems(es, j, level), CanonicalItems(es, j + 1, level), Canonical(item, level), |es| - j, j + 1;
    var d, e := ItemsAnswer(es, j, level, rest), ItemsAnswer(es, j + 1, level, rest);
    ItemsSplit(es, j, level, item, rest);
    ItemsAnswered(es, j, level, item, rest, d, e);
    NoIndexYet(es, j, level, c);
    ItemExtends(es, j, level, item, c, c2);
    UnfoldItems(es, j + 1, level, c2, next, rest, e, n - 1, index + 1);
    ItemStep(c, c2, n, index, level, item, v, next, d, e);
    FoldItems(es, j, level, c, Encode(item, level) + next, rest, d);
  }

  /** What is left of the entries from i: their bytes, the table so far and the answer. */
  ghost predicate EntryPart(es: seq<Entry>, i: nat, level: nat, rest: seq<byte>, s: seq<byte>, c: seq<Entry>, d: Decoded)
    requires WellFormed(Table(es)) && level <= MAX_NESTING && i <= |es|
  {
    s == EncodeEntries(es, i, level) + rest && c == CanonicalEntries(es, i, level) && d == EntriesAnswer(es, i, level, rest)
  }

  lemma EntryPartOf(es: seq<Entry>, i: nat, level: nat, rest: seq<byte>) returns (s: seq<byte>, c: seq<Entry>, d: Decoded)
    requires WellFormed(Table(es)) && level <= MAX_NESTING && i <= |es|
    ensures EntryPart(es, i, level, rest, s, c, d)
  {
    s, c, d := EncodeEntries(es, i, level) + rest, CanonicalEntries(es, i, level), EntriesAnswer(es, i, level, rest);
  }

  lemma UnfoldEntries(es: seq<Entry>, i: nat, level: nat, rest: seq<byte>, s: seq<byte>, c: seq<Entry>, d: Decoded)
    requires WellFormed(Table(es)) && level <= MAX_NESTING && i <= |es|
    requires EntryPart(es, i, level, rest, s, c, d) && EntriesRead(es, i, level, rest)
    ensures MapRuns(s, |es| - i, c, d)
  {
  }

  lemma FoldEntries(es: seq<Entry>, i: nat, level: nat, rest: seq<byte>, s: seq<byte>, c: seq<Entry>, d: Decoded)
    requires WellFormed(Table(es)) && level <= MAX_NESTING && i <= |es|
    requires EntryPart(es, i, level, rest, s, c, d) && MapRuns(s, |es| - i, c, d)
    ensures EntriesRead(es, i, level, rest)
  {
  }

  /** What one entry adds to the bytes, to the table and to the answer. */
  ghost predicate EntryAdds(level: nat, k: Value, v: Value, s: seq<byte>, next: seq<byte>, c: seq<Entry>, c2: seq<Entry>, d: Decoded, e: Decoded)
    requires WellFormed(k) && WellFormed(v) && level <= MAX_NESTING
  {
    && s == Encode(k, level) + (Encode(v, level) + next) && c2 == Extend(c, Canonical(k, level), Canonical(v, level))
    && (Cut(k, level) || Canonical(k, level).Table? || !HasKey(c, Canonical(k, level)))
    && d == if EntryCut(Entry(k, v), level) then Failed(NilKey) else e
  }

  lemma EntryLink(es: seq<Entry>, i: nat, level: nat, rest: seq<byte>, k: Value, v: Value,
                  s: seq<byte>, next: seq<byte>, c: seq<Entry>, c2: seq<Entry>, d: Decoded, e: Decoded)
    requires Inner(es, level) && i < |es| && es[i] == Entry(k, v) && WellFormed(k) && WellFormed(v)
    requires EntryPart(es, i, level, rest, s, c, d) && EntryPart(es, i + 1, level, rest, next, c2, e)
    ensures EntryAdds(level, k, v, s, next, c, c2, d, e)
  {
    EntriesSplit(es, i, level, rest);
    NewKey(es, i, level, c, k, Canonical(k, level));
  }

  lemma EntryStep(c: seq<Entry>, c2: seq<Entry>, n: nat, level: nat, k: Value, v: Value, ck: Value, cv: Value, next: seq<byte>, d: Decoded)
    requires 0 < n && Ready(k, level) && Ready(v, level) && Reads(k, level, Encode(v, level) + next) && Reads(v, level, next)
    requires ck == Canonical(k, level) && cv == Canonical(v, level)
    requires !EntryCut(Entry(k, v), level) && (ck.Table? || !HasKey(c, ck)) && c2 == Extend(c, ck, cv) && MapRuns(next, n - 1, c2, d)
    ensures MapRuns(Encode(k, level) + (Encode(v, level) + next), n, c, d)
  {
    var middle := Encode(v, level) + next;
    CanonicalNil(k, level);
    MapStep(Encode(k, level) + middle, n, c, ck, middle, cv, next, d);
  }

  lemma EntryFails(c: seq<Entry>, n: nat, level: nat, k: Value, v: Value, next: seq<byte>)
    requires 0 < n && Ready(k, level) && Ready(v, level) && Reads(k, level, Encode(v, level) + next) && Reads(v, level, next)
    requires EntryCut(Entry(k, v), level)
    ensures MapRuns(Encode(k, level) + (Encode(v, level) + next), n, c, Failed(NilKey))
  {
    CanonicalNil(k, level);
    MapFails(Encode(k, level) + (Encode(v, level) + next), n, c, Answer(k, level, Encode(v, level) + next), Answer(v, level, next));
  }

  lemma EntryTurn(level: nat, n: nat, k: Value, v: Value, s: seq<byte>, next: seq<byte>, c: seq<Entry>, c2: seq<Entry>, d: Decoded, e: Decoded)
    requires 0 < n && Ready(k, level) && Ready(v, level) && Reads(k, level, Encode(v, level) + next) && Reads(v, level, next)
    requires EntryAdds(level, k, v, s, next, c, c2, d, e) && MapRuns(next, n - 1, c2, e)
    ensures MapRuns(s, n, c, d)
  {
    if EntryCut(Entry(k, v), level) {
      EntryFails(c, n, level, k, v, next);
    } else {
      EntryStep(c, c2, n, level, k, v, Canonical(k, level), Canonical(v, level), next, e);
    }
  }

  lemma NextEntry(es: seq<Entry>, i: nat, level: nat, k: Value, v: Value, s: seq<byte>, c: seq<Entry>, d: Decoded,
                  next: seq<byte>, c2: seq<Entry>, e: Decoded, rest: seq<byte>)
    requires Inner(es, level) && i < |es| && es[i] == Entry(k, v) && Ready(k, level) && Ready(v, level)
    requires EntryPart(es, i, level, rest, s, c, d) && EntryPart(es, i + 1, level, rest, next, c2, e)
    requires Reads(k, level, Encode(v, level) + next) && Reads(v, level, next) && EntriesRead(es, i + 1, level, rest)
    ensures EntriesRead(es, i, level, rest)
  {
    EntryLink(es, i, level, rest, k, v, s, next, c, c2, d, e);
    UnfoldEntries(es, i + 1, level, rest, next, c2, e);
    EntryTurn(level, |es| - i, k, v, s, next, c, c2, d, e);
    FoldEntries(es, i, level, rest, s, c, d);
  }

  lemma NoItems(es: seq<Entry>, level: nat, rest: seq<byte>)
    requires WellFormed(Table(es)) && level <= MAX_NESTING
    ensures ItemsRead(es, |es|, level, rest) && EntriesRead(es, |es|, level, rest)
  {
    assert [] + rest == rest;
  }

  /**
    decode(encode(v) ++ rest) is v, canonical, and exactly rest is left: for every value, at every
    nesting level, whatever size classes its parts need. It is the nil-key error exactly when a
    table that is a key is too deep.
   */
  lemma {:induction false} RoundTrip(v: Value, level: nat, rest: seq<byte>)
    requires WellFormed(v) && Fits(v, level) && level <= MAX_NESTING
    ensures Reads(v, level, rest)
    decreases MAX_NESTING - level, 0
  {
    if !v.Table? {
      ScalarReads(v, rest);
    } else if level == MAX_NESTING {
      ScalarReads(Nil, rest);
    } else if IsArray(v.entries) {
      AllReady(v.entries, 0, level + 1);
      ItemsRoundTrip(v.entries, 0, level + 1, rest);
      ArrayRead(v.entries, level, rest);
    } else {
      EntriesRoundTrip(v.entries, 0, level + 1, rest);
      MapRead(v.entries, level, rest);
    }
  }

  lemma {:induction false} ItemsRoundTrip(es: seq<Entry>, j: nat, level: nat, rest: seq<byte>)
    requires Inner(es, level) && j <= |es| && ItemsReady(es, j, level)
    ensures ItemsRead(es, j, level, rest)
    decreases MAX_NESTING - level, 1, |es| - j
  {
    if j == |es| {
      NoItems(es, level, rest);
    } else {
      var item, next := Find(es, Int(j + 1)), EncodeItems(es, j + 1, level) + rest;
      ItemsRoundTrip(es, j + 1, level, rest);
      RoundTrip(item, level, next);
      NextItem(es, j, level, item, next, rest);
    }
  }

  lemma {:induction false} EntriesRoundTrip(es: seq<Entry>, i: nat, level: nat, rest: seq<byte>)
    requires Inner(es, level) && i <= |es|
    ensures EntriesRead(es, i, level, rest)
    decreases MAX_NESTING - level, 1, |es| - i
  {
    if i == |es| {
      NoItems(es, level, rest);
    } else {
      var k, v := es[i].key, es[i].val;
      var s, c, d := EntryPartOf(es, i, level, rest);
      var next, c2, e := EntryPartOf(es, i + 1, level, rest);
      EntryReady(es, i, level);
      EntriesRoundTrip(es, i + 1, level, rest);
      RoundTrip(v, level, next);
      RoundTrip(k, level, Encode(v, level) + next);
      NextEntry(es, i, level, k, v, s, c, d, next, c2, e, rest);
    }
  }

  lemma CanonicalTable(es: seq<Entry>, level: nat)
    requires level < MAX_NESTING
    ensures Canonical(Table(es), level) ==
      Table(if IsArray(es) then CanonicalItems(es, |es|, level + 1) else CanonicalEntries(es, |es|, level + 1))
  {
  }

  lemma MapFinds(es: seq<Entry>, level: nat, key: Value)
    requires 0 < level <= MAX_NESTING && WellFormed(Table(es)) && !key.Table? && !key.Nil?
    ensures Find(CanonicalEntries(es, |es|, level), key) == Canonical(Find(es, key), level)
  {
    EntriesFind(es, |es|, level, key);
    assert es[..|es|] == es;
  }

  /** Canonical changes the order of an array's entries, not what its keys hold; a value cut off is nil. */
  lemma CanonicalFinds(es: seq<Entry>, level: nat, key: Value, c: seq<Entry>)
    requires level < MAX_NESTING && WellFormed(Table(es)) && !key.Table? && !key.Nil? && Canonical(Table(es), level) == Table(c)
    ensures Find(c, key) == Canonical(Find(es, key), level + 1)
  {
    CanonicalTable(es, level);
    if IsArray(es) {
      ArrayFinds(es, level + 1, key);
    } else {
      MapFinds(es, level + 1, key);
    }
  }

  lemma ArrayFinds(es: seq<Entry>, level: nat, key: Value)
    requires level <= MAX_NESTING && IsArray(es)
    ensures Find(CanonicalItems(es, |es|, level), key) == Canonical(Find(es, key), level)
  {
    ItemsFind(es, |es|, level, key);
    ArrayKeys(es);
    if !(key.Int? && 1 <= key.n <= |es|) {
      FindMissing(es, key);
    }
  }

  lemma {:induction false} FindPast(es: seq<Entry>, k: Value, v: Value, key: Value)
    requires k != key
    ensures Find(Extend(es, k, v), key) == Find(es, key)
  {
    if es == [] {
      assert es + [Entry(k, v)] == [Entry(k, v)];
    } else {
      assert (es + [Entry(k, v)])[1..] == es[1..] + [Entry(k, v)];
      FindPast(es[1..], k, v, key);
    }
  }

  lemma {:induction false} FindLast(es: seq<Entry>, key: Value, v: Value)
    requires !HasKey(es, key)
    ensures Find(Extend(es, key, v), key) == v
  {
    if v.Nil? {
      FindMissing(es, key);
    } else if es == [] {
      assert es + [Entry(key, v)] == [Entry(key, v)];
    } else {
      assert (es + [Entry(key, v)])[1..] == es[1..] + [Entry(key, v)];
      assert es[0].key != key;
      assert forall i :: 0 <= i < |es[1..]| ==> es[1..][i] == es[i + 1];
      FindLast(es[1..], key, v);
    }
  }

  lemma {:induction false} ItemsFind(es: seq<Entry>, j: nat, level: nat, key: Value)
    requires level <= MAX_NESTING
    ensures Find(CanonicalItems(es, j, level), key) == if key.Int? && 1 <= key.n <= j then Canonical(Find(es, key), level) else Nil
  {
    if j != 0 {
      var front, v := CanonicalItems(es, j - 1, level), Canonical(Find(es, Int(j)), level);
      if key == Int(j) {
        FindLast(front, key, v);
      } else {
        ItemsFind(es, j - 1, level, key);
        FindPast(front, Int(j), v, key);
      }
    }
  }

  lemma ScalarComesFrom(es: seq<Entry>, i: nat, level: nat, key: Value) returns (k: int)
    requires level <= MAX_NESTING && i <= |es| && !key.Table? && !key.Nil? && HasKey(CanonicalEntries(es, i, level), key)
    ensures 0 <= k < i && es[k].key == key
  {
    k := KeyComesFrom(es, i, level, key);
  }

  /** A key occurs once, before reading and after it. */
  lemma KeyOnce(es: seq<Entry>, i: nat, level: nat, key: Value)
    requires 0 < level <= MAX_NESTING && DistinctKeys(es) && i < |es| && es[i].key == key && !key.Table? && !key.Nil?
    ensures !HasKey(CanonicalEntries(es, i, level), key) && !HasKey(es[..i], key)
  {
    if HasKey(CanonicalEntries(es, i, level), key) {
      var k := ScalarComesFrom(es, i, level, key);
    }
  }

  lemma LastEntry(es: seq<Entry>, i: nat, e: Entry)
    requires i < |es| && e == es[i] && !e.val.Nil?
    ensures es[..i + 1] == Extend(es[..i], e.key, e.val)
  {
  }

  lemma FoundLast(es: seq<Entry>, i: nat, level: nat, key: Value, val: Value)
    requires 0 < level <= MAX_NESTING && DistinctKeys(es) && i < |es| && es[i] == Entry(key, val) && !key.Table? && !key.Nil?
    ensures Find(Extend(CanonicalEntries(es, i, level), key, Canonical(val, level)), key) == Canonical(val, level)
    ensures Find(Extend(es[..i], key, val), key) == val
  {
    KeyOnce(es, i, level, key);
    FindLast(CanonicalEntries(es, i, level), key, Canonical(val, level));
    FindLast(es[..i], key, val);
  }

  lemma FoundBefore(es: seq<Entry>, i: nat, level: nat, e: Entry, key: Value)
    requires 0 < level <= MAX_NESTING && i < |es| && e == es[i] && e.key != key && !key.Table? && !key.Nil?
    ensures Find(Extend(CanonicalEntries(es, i, level), Canonical(e.key, level), Canonical(e.val, level)), key) == Find(CanonicalEntries(es, i, level), key)
    ensures Find(Extend(es[..i], e.key, e.val), key) == Find(es[..i], key)
  {
    FindPast(CanonicalEntries(es, i, level), Canonical(e.key, level), Canonical(e.val, level), key);
    FindPast(es[..i], e.key, e.val, key);
  }

  lemma NoNil(es: seq<Entry>, i: nat)
    requires WellFormed(Table(es)) && i < |es|
    ensures !es[i].val.Nil? && DistinctKeys(es)
  {
    assert es[i] in es;
  }

  lemma {:induction false} EntriesFind(es: seq<Entry>, i: nat, level: nat, key: Value)
    requires 0 < level <= MAX_NESTING && WellFormed(Table(es)) && i <= |es| && !key.Table? && !key.Nil?
    ensures Find(CanonicalEntries(es, i, level), key) == Canonical(Find(es[..i], key), level)
  {
    if i != 0 {
      var e := es[i - 1];
      NoNil(es, i - 1);
      LastEntry(es, i - 1, e);
      if e.key == key {
        FoundLast(es, i - 1, level, key, e.val);
      } else {
        EntriesFind(es, i - 1, level, key);
        FoundBefore(es, i - 1, level, e, key);
      }
    }
  }

  // ----- which values are refused -----

  lemma {:induction false} EntryCutAt(es: seq<Entry>, i: nat, level: nat) returns (k: nat)
    requires i <= |es| && level <= MAX_NESTING && EntriesCut(es, i, level)
    ensures k < |es| && EntryCut(es[k], level)
    decreases |es| - i
  {
    k := i;
    if !EntryCut(es[i], level) {
      k := EntryCutAt(es, i + 1, level);
    }
  }

  lemma {:induction false} EntryCuts(es: seq<Entry>, i: nat, level: nat, k: nat)
    requires i <= k < |es| && level <= MAX_NESTING && EntryCut(es[k], level)
    ensures EntriesCut(es, i, level)
    decreases k - i
  {
    if i != k {
      EntryCuts(es, i + 1, level, k);
    }
  }

  lemma {:induction false} ItemCutAt(es: seq<Entry>, j: nat, level: nat) returns (k: nat)
    requires j <= |es| && level <= MAX_NESTING && ItemsCut(es, j, level)
    ensures 1 <= k <= |es| && CutKey(Find(es, Int(k)), level)
    decreases |es| - j
  {
    k := j + 1;
    if !CutKey(Find(es, Int(j + 1)), level) {
      k := ItemCutAt(es, j + 1, level);
    }
  }

  lemma {:induction false} ItemCuts(es: seq<Entry>, j: nat, level: nat, k: nat)
    requires j < k <= |es| && level <= MAX_NESTING && CutKey(Find(es, Int(k)), level)
    ensures ItemsCut(es, j, level)
    decreases k - j
  {
    if j + 1 != k {
      ItemCuts(es, j + 1, level, k);
    }
  }

  lemma ItemIsEntry(es: seq<Entry>, level: nat, n: nat) returns (k: nat)
    requires level <= MAX_NESTING && DistinctKeys(es) && IsArray(es) && 1 <= n <= |es| && CutKey(Find(es, Int(n)), level)
    ensures k < |es| && EntryCut(es[k], level)
  {
    assert HasKey(es, Int(n));
    k :| 0 <= k < |es| && es[k].key == Int(n);
    FindAt(es, k);
  }

  lemma EntryIsItem(es: seq<Entry>, level: nat, k: nat)
    requires level <= MAX_NESTING && DistinctKeys(es) && IsArray(es) && k < |es| && EntryCut(es[k], level)
    ensures es[k].key.Int? && 1 <= es[k].key.n <= |es| && CutKey(Find(es, es[k].key), level)
  {
    ArrayKeys(es);
    FindAt(es, k);
  }

  /** In whatever order: a table is refused exactly when one of its entries is, or has a table too deep for a key. */
  lemma Refused(es: seq<Entry>, level: nat)
    requires level < MAX_NESTING && DistinctKeys(es)
    ensures CutKey(Table(es), level) <==> exists k :: 0 <= k < |es| && EntryCut(es[k], level + 1)
  {
    if CutKey(Table(es), level) {
      if IsArray(es) {
        var n := ItemCutAt(es, 0, level + 1);
        var k := ItemIsEntry(es, level + 1, n);
      } else {
        var k := EntryCutAt(es, 0, level + 1);
      }
    }
    if k: nat :| k < |es| && EntryCut(es[k], level + 1) {
      if IsArray(es) {
        EntryIsItem(es, level + 1, k);
        ItemCuts(es, 0, level + 1, es[k].key.n);
      } else {
        EntryCuts(es, 0, level + 1, k);
      }
    }
  }
}
