/**
  The SHA-1 context (src/sha1.c:116-209): whatever the chunking, the digest is that of the
  concatenated message, padded as section 5.1.1 of FIPS 180-4 says.
 */
module Sha1Context {
  import opened Powers
  import opened Sha1

  type u32 = x: int | 0 <= x < TWO32

  // ----- FIPS 180-4 -----

  /** Section 5.3.1. */
  const INITIAL := Words(0x67452301, 0xEFCDAB89, 0x98BADCFE, 0x10325476, 0xC3D2E1F0)

  function HashBlocks(m: seq<bv8>): Words
    requires |m| % 64 == 0
  {
    if m == [] then INITIAL else Compress(HashBlocks(m[..|m| - 64]), m[|m| - 64..])
  }

  /** The zero bytes after the byte that holds the one bit. */
  function PadLength(n: nat): nat {
    (119 - n % 64) % 64
  }

  function Zeros(n: nat): (s: seq<bv8>)
    ensures |s| == n
  {
    seq(n, _ => 0)
  }

  /** The eight low bytes of x, most significant first. */
  function LengthBytes(x: nat): (s: seq<bv8>)
    ensures |s| == 8
  {
    seq(8, i requires 0 <= i < 8 => LengthByte(x, i))
  }

  function LengthByte(x: nat, i: nat): bv8
    requires i < 8
  {
    PowPositive(256, 7 - i);
    (x / Pow(256, 7 - i) % 256) as bv8
  }

  lemma PadAligned(n: nat)
    ensures (n + 1 + PadLength(n) + 8) % 64 == 0
  {
    var q, r := n / 64, n % 64;
    if r < 56 {
      assert n + 1 + PadLength(n) + 8 == 64 * (q + 1);
    } else {
      assert n + 1 + PadLength(n) + 8 == 64 * (q + 2);
    }
  }

  /** Section 5.1.1, for a message of whole bytes. */
  function Pad(m: seq<bv8>): (p: seq<bv8>)
    ensures |p| % 64 == 0
  {
    PadAligned(|m|);
    m + [0x80] + Zeros(PadLength(|m|)) + LengthBytes(8 * |m|)
  }

  /** The one bit and k zero bits after n bytes reach 448 modulo 512. */
  predicate Reaches(n: nat, k: nat) {
    (8 * n + 1 + k) % 512 == 448
  }

  /** The rest of the byte that holds the one bit and PadLength zero bytes: the fewest bits that do. */
  lemma PaddingRule(n: nat)
    ensures Reaches(n, 7 + 8 * PadLength(n))
    ensures forall k: nat :: k < 7 + 8 * PadLength(n) ==> !Reaches(n, k)
  {
    PadAligned(n);
    forall k: nat | k < 7 + 8 * PadLength(n)
      ensures !Reaches(n, k)
    {
      FewerMiss(n, n / 64, n % 64, k);
    }
  }

  lemma NotTheRemainder(x: nat, q: nat, rest: nat)
    requires x == 512 * q + rest && (rest < 448 || 448 < rest < 448 + 512)
    ensures x % 512 != 448
  {
  }

  lemma FewerMiss(n: nat, q: nat, r: nat, k: nat)
    requires n == 64 * q + r && r < 64 && k < 7 + 8 * PadLength(n)
    ensures !Reaches(n, k)
  {
    var rest := 8 * r + 1 + k;
    assert 8 * n + 1 + k == 512 * q + rest;
    NotTheRemainder(8 * n + 1 + k, q, rest);
  }

  function ByteOf(w: bv32, k: nat): bv8
    requires k < 4
  {
    if k == 0 then ((w >> 24) & 0xFF) as bv8
    else if k == 1 then ((w >> 16) & 0xFF) as bv8
    else if k == 2 then ((w >> 8) & 0xFF) as bv8
    else (w & 0xFF) as bv8
  }

  function WordAt(h: Words, i: nat): bv32
    requires i < 5
  {
    if i == 0 then h.a else if i == 1 then h.b else if i == 2 then h.c else if i == 3 then h.d else h.e
  }

  /** The five words of the hash value, most significant bytes first. */
  function DigestOf(h: Words): (s: seq<bv8>)
    ensures |s| == 20
  {
    seq(20, i requires 0 <= i < 20 => ByteOf(WordAt(h, i / 4), i % 4))
  }

  function Digest(m: seq<bv8>): seq<bv8> {
    DigestOf(HashBlocks(Pad(m)))
  }

  // ----- blocks and counts -----

  lemma OneBlock(m: seq<bv8>, b: seq<bv8>)
    requires |m| % 64 == 0 && |b| == 64
    ensures HashBlocks(m + b) == Compress(HashBlocks(m), b)
  {
    assert (m + b)[..|m + b| - 64] == m;
    assert (m + b)[|m + b| - 64..] == b;
  }

  /** The two words of the bit counter. */
  predicate Counts(n: nat, count0: u32, count1: u32) {
    count0 == 8 * n % TWO32 && count1 == 8 * n / TWO32 % TWO32
  }

  function Plus32(x: u32, y: u32): u32 {
    (x + y) % TWO32
  }

  lemma LowCount(n: nat, len: u32, count0: u32, low: u32)
    requires count0 == 8 * n % TWO32 && low == Plus32(count0, 8 * len % TWO32)
    ensures low == 8 * (n + len) % TWO32
    ensures 8 * (n + len) / TWO32 == 8 * n / TWO32 + len / 0x2000_0000 + (if low < count0 then 1 else 0)
  {
    var q, p := 8 * n / TWO32, len / 0x2000_0000;
    assert 8 * n == TWO32 * q + count0;
    assert 8 * len == TWO32 * p + 8 * len % TWO32;
  }

  lemma HighCount(q: nat, p: nat, carry: nat, count1: u32)
    requires count1 == q % TWO32 && p < TWO32 && carry < TWO32
    ensures Plus32(Plus32(count1, carry), p) == (q + p + carry) % TWO32
  {
    AddModulo(q, carry);
    AddModulo(q + carry, p);
  }

  lemma AddModulo(x: nat, y: u32)
    ensures Plus32(x % TWO32, y) == (x + y) % TWO32
  {
  }

  /** Adding with the carry moves the counter on by 8 * len bits. */
  lemma CountsAdd(n: nat, len: u32, count0: u32, count1: u32, low: u32)
    requires Counts(n, count0, count1) && low == Plus32(count0, 8 * len % TWO32)
    ensures Counts(n + len, low, Plus32(if low < count0 then Plus32(count1, 1) else count1, len / 0x2000_0000))
  {
    var carry := if low < count0 then 1 else 0;
    LowCount(n, len, count0, low);
    HighCount(8 * n / TWO32, len / 0x2000_0000, carry, count1);
    assert Plus32(count1, 0) == count1;
  }

  lemma UsedBytes(n: nat, count0: u32)
    requires count0 == 8 * n % TWO32
    ensures count0 / 8 % 64 == n % 64
  {
    assert 8 * n == TWO32 * (8 * n / TWO32) + count0;
  }

  /** The guard of the whole-block branch says what it means exactly when its sum does not wrap. */
  lemma GuardIsExact(j: nat, len: u32)
    requires j < 64
    ensures (Plus32(j, len) > 63 <==> j + len > 63) <==> j + len < TWO32
  {
  }

  /** Where it wraps, the chunk is kept in the buffer as if it fitted behind the j bytes there, which it does not. */
  lemma WrappedGuard(j: nat, len: u32)
    requires j < 64 && TWO32 <= j + len
    ensures Plus32(j, len) <= 63 && 64 - j < len
  {
  }

  /** Nor does the sum in the loop guard then wrap. */
  lemma LoopGuard(j: nat, i: nat, len: u32)
    requires j < 64 && i <= len && (j + i) % 64 == 0 && j + len < TWO32
    ensures Plus32(i, 63) == i + 63
  {
    var k := (j + i) / 64;
    assert j + i == 64 * k;
  }

  lemma NextBlock(front: seq<bv8>, data: seq<bv8>, i: nat, before: seq<bv8>)
    requires i + 64 <= |data| && front == before + data[..i]
    ensures front + data[i..i + 64] == before + data[..i + 64]
  {
  }

  lemma Rejoined(before: seq<bv8>, data: seq<bv8>, i: nat)
    requires i <= |data|
    ensures (before + data[..i]) + data[i..] == before + data
  {
  }

  // ----- the length bytes -----

  /** Byte i of the counter, its high word first. */
  function CountByte(count0: u32, count1: u32, i: nat): bv8
    requires i < 8
  {
    PowPositive(256, 3 - i % 4);
    ((if i >= 4 then count0 else count1) / Pow(256, 3 - i % 4) % 256) as bv8
  }

  lemma ShiftedMod(z: int, a: int)
    ensures (256 * z + a) % 256 == a % 256
  {
  }

  /** Dropping high bits that are multiples of 256 * d keeps byte d. */
  lemma LowByte(q: nat, c: u32, p: nat, d: nat, k: nat)
    requires 0 < d && d * (256 * k) == TWO32 && q == TWO32 * p + c
    ensures q / d % 256 == c / d % 256
  {
    var a, r := c / d, c % d;
    assert d * (256 * (k * p) + a) + r == d * (256 * k) * p + c;
    DivisionIs(q, d, 256 * (k * p) + a, r);
    ShiftedMod(k * p, a);
  }

  lemma HighByte(x: nat, q: nat, r: u32, d: nat)
    requires 0 < d && x == TWO32 * q + r
    ensures x / (TWO32 * d) == q / d
  {
    var a, b := q / d, q % d;
    assert TWO32 * (d * a + b) == (TWO32 * d) * a + TWO32 * b;
    MulMonotone(b, d - 1, TWO32);
    DivisionIs(x, TWO32 * d, a, TWO32 * b + r);
  }

  lemma PowersOf256()
    ensures Pow(256, 0) == 1 && Pow(256, 1) == 0x100 && Pow(256, 2) == 0x1_0000 && Pow(256, 3) == 0x100_0000
    ensures Pow(256, 4) == TWO32
  {
  }

  lemma LengthByteIs(x: nat, i: nat, count0: u32, count1: u32, d: nat, k: nat)
    requires i < 8 && count0 == x % TWO32 && count1 == x / TWO32 % TWO32
    requires d == Pow(256, 3 - i % 4) && 0 < d && d * (256 * k) == TWO32
    ensures LengthByte(x, i) == CountByte(count0, count1, i)
  {
    var q := x / TWO32;
    if i >= 4 {
      assert Pow(256, 7 - i) == d;
      LowByte(x, count0, q, d, k);
    } else {
      PowAdd(256, 4, 3 - i);
      PowersOf256();
      HighByte(x, q, count0, d);
      LowByte(q, count1, q / TWO32, d, k);
    }
  }

  /** The counter is the 64-bit length field. */
  lemma LengthField(n: nat, i: nat, count0: u32, count1: u32)
    requires Counts(n, count0, count1) && i < 8
    ensures LengthBytes(8 * n)[i] == CountByte(count0, count1, i)
  {
    var e := 3 - i % 4;
    PowersOf256();
    LengthByteIs(8 * n, i, count0, count1, Pow(256, e), if e == 0 then 0x100_0000 else if e == 1 then 0x1_0000 else if e == 2 then 0x100 else 1);
  }

  lemma PaddedEnough(n: nat, k: nat)
    requires k <= PadLength(n)
    ensures (n + 1 + k) % 64 == 56 <==> k == PadLength(n)
  {
    PadAligned(n);
    var q, r := n / 64, n % 64;
    assert n + 1 + k == 64 * q + (r + 1 + k);
  }

  class Context {
    const state: array<bv32>
    var count0: u32
    var count1: u32
    const buffer: array<bv8>
    /** What has been hashed, a number of whole blocks, and what waits in the buffer. */
    ghost var front: seq<bv8>
    ghost var tail: seq<bv8>

    ghost predicate Blocks()
      reads this, state
    {
      state.Length == 5 && |front| % 64 == 0 && WordsOf(state[..]) == HashBlocks(front)
    }

    ghost predicate Buffered()
      reads this, buffer
    {
      buffer.Length == 64 && |tail| < 64 && buffer[..|tail|] == tail
    }

    ghost predicate Valid()
      reads this, state, buffer
    {
      && Blocks() && Buffered()
      && Counts(|front| + |tail|, count0, count1)
    }

    ghost function Message(): seq<bv8>
      reads this
    {
      front + tail
    }

    /** SHA1Init. */
    constructor ()
      ensures Valid() && Message() == [] && fresh(state) && fresh(buffer)
    {
      state := new bv32[] [0x67452301, 0xEFCDAB89, 0x98BADCFE, 0x10325476, 0xC3D2E1F0];
      buffer := new bv8[64](_ => 0);
      count0, count1 := 0, 0;
      front, tail := [], [];
    }

    method AddCount(len: u32, ghost n: nat)
      requires Counts(n, count0, count1)
      modifies `count0, `count1
      ensures Counts(n + len, count0, count1)
    {
      var j := count0;
      ghost var high := count1;
      count0 := Plus32(count0, 8 * len % TWO32);
      CountsAdd(n, len, j, high, count0);
      if count0 < j {
        count1 := Plus32(count1, 1);
      }
      count1 := Plus32(count1, len / 0x2000_0000);
    }

    /** memcpy into the buffer at j. */
    method Fill(j: nat, data: seq<bv8>)
      requires buffer.Length == 64 && j + |data| <= 64
      modifies buffer
      ensures buffer[..j + |data|] == old(buffer[..j]) + data
    {
      for i := 0 to |data|
        invariant buffer[..j + i] == old(buffer[..j]) + data[..i]
      {
        buffer[j + i] := data[i];
      }
    }

    method HashBlock(block: seq<bv8>)
      requires Blocks() && |block| == 64
      modifies state, `front
      ensures Blocks() && front == old(front) + block
    {
      OneBlock(front, block);
      Transform(state, block);
      front := front + block;
    }

    /** Completes the block in the buffer. */
    method FirstBlock(j: nat, data: seq<bv8>)
      requires Blocks() && Buffered() && j == |tail| && j + |data| == 64
      modifies state, buffer, `front
      ensures Blocks() && front == old(front) + tail + data
    {
      Fill(j, data);
      assert buffer[..] == buffer[..j + |data|];
      assert front + (tail + data) == front + tail + data;
      HashBlock(buffer[..]);
    }

    method NextWhole(j: nat, data: seq<bv8>, i: nat, ghost before: seq<bv8>) returns (next: nat)
      requires Blocks() && j < 64 && i + 63 < |data| && j + |data| < TWO32
      requires (j + i) % 64 == 0 && front == before + data[..i]
      modifies state, `front
      ensures Blocks() && next == i + 64 && (j + next) % 64 == 0 && Plus32(next, 63) == next + 63
      ensures front == before + data[..next]
    {
      NextBlock(front, data, i, before);
      HashBlock(data[i..i + 64]);
      next := i + 64;
      LoopGuard(j, next, |data|);
    }

    /** The whole blocks of data, the first of them completing the buffer. Returns how much is consumed. */
    method WholeBlocks(j: nat, data: seq<bv8>) returns (i: nat)
      requires Blocks() && Buffered() && j == |tail|
      requires 63 < j + |data| < TWO32
      modifies state, buffer, `front
      ensures Blocks() && i <= |data| && |data| - i < 64 && front == old(front) + tail + data[..i]
    {
      ghost var before := front + tail;
      var len: u32 := |data|;
      i := 64 - j;
      FirstBlock(j, data[..i]);
      LoopGuard(j, i, len);
      while Plus32(i, 63) < len
        invariant Blocks() && i <= len && (j + i) % 64 == 0 && front == before + data[..i]
        invariant Plus32(i, 63) == i + 63
        decreases len - i
      {
        i := NextWhole(j, data, i, before);
      }
    }

    /** What is left of the data waits in the buffer. */
    method Keep(j: nat, rest: seq<bv8>)
      requires buffer.Length == 64 && j == |tail| && j + |rest| < 64 && buffer[..j] == tail
      modifies buffer, `tail
      ensures Buffered() && tail == old(tail) + rest
    {
      Fill(j, rest);
      tail := tail + rest;
    }

    method Absorb(j: nat, data: seq<bv8>)
      requires Blocks() && Buffered() && j == |tail| && j + |data| < TWO32
      modifies state, buffer, `front, `tail
      ensures Blocks() && Buffered() && front + tail == old(front + tail) + data
    {
      if Plus32(j, |data|) > 63 {
        ghost var message := front + tail;
        var i := WholeBlocks(j, data);
        Rejoined(message, data, i);
        tail := [];
        Keep(0, data[i..]);
      } else {
        assert data[0..] == data;
        assert front + (tail + data) == (front + tail) + data;
        Keep(j, data[0..]);
      }
    }

    /** SHA1Update appends data to the message. The sum in its guard must not wrap. */
    method Update(data: seq<bv8>)
      requires Valid() && |tail| + |data| < TWO32
      modifies this, state, buffer
      ensures Valid() && Message() == old(Message()) + data
    {
      ghost var n := |front| + |tail|;
      TailLength(|front|, |tail|);
      UsedBytes(n, count0);
      var j := count0;
      AddCount(|data|, n);
      j := j / 8 % 64;
      assert |Message() + data| == n + |data|;
      Absorb(j, data);
      assert |Message()| == |front| + |tail|;
    }

    /** The context is all zero afterwards: no part of the message stays in memory. */
    method Wipe()
      requires state.Length == 5 && buffer.Length == 64
      modifies this, state, buffer
      ensures state[..] == [0, 0, 0, 0, 0] && buffer[..] == Zeros(64) && count0 == count1 == 0
    {
      forall i | 0 <= i < 5 {
        state[i] := 0;
      }
      forall i | 0 <= i < 64 {
        buffer[i] := 0;
      }
      count0, count1 := 0, 0;
    }

    method FinalCount(ghost n: nat) returns (finalcount: array<bv8>)
      requires Counts(n, count0, count1)
      ensures fresh(finalcount) && finalcount[..] == LengthBytes(8 * n)
    {
      finalcount := new bv8[8](_ => 0);
      for i := 0 to 8
        invariant finalcount[..i] == LengthBytes(8 * n)[..i]
      {
        LengthField(n, i, count0, count1);
        finalcount[i] := CountByte(count0, count1, i);
      }
    }

    /** m, the one bit and k zero bytes; the counter tells when k is enough. */
    ghost predicate Padding(m: seq<bv8>, k: nat)
      reads this, state, buffer
    {
      && Valid() && k <= PadLength(|m|) && Message() == m + [0x80] + Zeros(k)
      && (count0 / 8 % 64 * 8 == 448 <==> k == PadLength(|m|))
    }

    lemma PaddingHolds(m: seq<bv8>, k: nat)
      requires Valid() && k <= PadLength(|m|) && Message() == m + [0x80] + Zeros(k)
      ensures Padding(m, k)
    {
      assert |front| + |tail| == |Message()| == |m| + 1 + k;
      UsedBytes(|m| + 1 + k, count0);
      PaddedEnough(|m|, k);
    }

    method AddZero(ghost m: seq<bv8>, ghost k: nat)
      requires Padding(m, k) && k < PadLength(|m|)
      modifies this, state, buffer
      ensures Padding(m, k + 1)
    {
      Update([0]);
      assert Zeros(k) + [0] == Zeros(k + 1);
      assert m + [0x80] + Zeros(k) + [0] == m + [0x80] + (Zeros(k) + [0]);
      PaddingHolds(m, k + 1);
    }

    /** The one bit, then zero bytes until the length field fits: the loop ends. */
    method PadMessage()
      requires Valid()
      modifies this, state, buffer
      ensures Valid() && Message() == old(Message()) + [0x80] + Zeros(PadLength(|old(Message())|))
    {
      ghost var m, k := Message(), 0;
      Update([0x80]);
      assert Message() == m + [0x80] + Zeros(0);
      PaddingHolds(m, 0);
      while count0 / 8 % 64 * 8 != 448
        invariant Padding(m, k)
        decreases PadLength(|m|) - k
      {
        AddZero(m, k);
        k := k + 1;
      }
    }

    method WriteDigest(digest: array<bv8>)
      requires state.Length == 5 && digest.Length == 20
      modifies digest
      ensures digest[..] == DigestOf(WordsOf(state[..]))
    {
      ghost var whole := DigestOf(WordsOf(state[..]));
      for i := 0 to 20
        invariant forall k :: 0 <= k < i ==> digest[k] == whole[k]
      {
        digest[i] := ByteOf(state[i / 4], i % 4);
      }
    }

    /** SHA1Final: the digest of the whole message. */
    method Final(digest: array<bv8>)
      requires Valid() && digest.Length == 20 && digest != buffer
      modifies this, state, buffer, digest
      ensures digest[..] == Digest(old(Message()))
      ensures state[..] == [0, 0, 0, 0, 0] && buffer[..] == Zeros(64) && count0 == count1 == 0
    {
      ghost var m := Message();
      assert |m| == |front| + |tail|;
      var finalcount := FinalCount(|m|);
      PadMessage();
      Update(finalcount[..]);
      assert Message() == Pad(m);
      TailLength(|front|, |tail|);
      assert |front| + |tail| == |Pad(m)|;
      assert front == Pad(m);
      WriteDigest(digest);
      Wipe();
    }
  }

  lemma TailLength(front: nat, tail: nat)
    requires front % 64 == 0 && tail < 64
    ensures (front + tail) % 64 == tail
  {
  }

  function Concat(chunks: seq<seq<bv8>>): seq<bv8> {
    if chunks == [] then [] else Concat(chunks[..|chunks| - 1]) + chunks[|chunks| - 1]
  }

  /** Any chunking of a message gives its digest. */
  method HashChunks(chunks: seq<seq<bv8>>) returns (digest: array<bv8>)
    requires forall i :: 0 <= i < |chunks| ==> |chunks[i]| <= TWO32 - 64
    ensures digest[..] == Digest(Concat(chunks))
  {
    var context := new Context();
    digest := new bv8[20](_ => 0);
    for i := 0 to |chunks|
      invariant context.Valid() && context.Message() == Concat(chunks[..i]) && fresh(context)
      invariant fresh(context.state) && fresh(context.buffer) && digest.Length == 20
      invariant digest != context.buffer && fresh(digest)
    {
      assert chunks[..i + 1][..i] == chunks[..i];
      context.Update(chunks[i]);
    }
    assert chunks[..|chunks|] == chunks;
    context.Final(digest);
  }
}
