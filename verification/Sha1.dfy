/** The SHA-1 compression function and its specification in FIPS 180-4 (src/sha1.c:29-116). */
module Sha1 {

  // ----- FIPS 180-4 -----

  /** The five working variables, or the five words of a hash value. */
  datatype Words = Words(a: bv32, b: bv32, c: bv32, d: bv32, e: bv32)

  /** Section 3.2: rotation left, one function for each distance the algorithm uses. */
  function Rotl1(x: bv32): bv32 {
    (x << 1) | (x >> 31)
  }

  function Rotl5(x: bv32): bv32 {
    (x << 5) | (x >> 27)
  }

  function Rotl8(x: bv32): bv32 {
    (x << 8) | (x >> 24)
  }

  function Rotl24(x: bv32): bv32 {
    (x << 24) | (x >> 8)
  }

  function Rotl30(x: bv32): bv32 {
    (x << 30) | (x >> 2)
  }

  /** Section 4.1.1. */
  function Ch(x: bv32, y: bv32, z: bv32): bv32 {
    (x & y) ^ (!x & z)
  }

  function Parity(x: bv32, y: bv32, z: bv32): bv32 {
    x ^ y ^ z
  }

  function Maj(x: bv32, y: bv32, z: bv32): bv32 {
    (x & y) ^ (x & z) ^ (y & z)
  }

  function F(t: nat, x: bv32, y: bv32, z: bv32): bv32
    requires t < 80
  {
    if t < 20 then Ch(x, y, z) else if t < 40 then Parity(x, y, z) else if t < 60 then Maj(x, y, z) else Parity(x, y, z)
  }

  /** Section 4.2.1. */
  function K(t: nat): bv32
    requires t < 80
  {
    if t < 20 then 0x5A827999 else if t < 40 then 0x6ED9EBA1 else if t < 60 then 0x8F1BBCDC else 0xCA62C1D6
  }

  /** Section 5.2.1: a block is sixteen big-endian words. */
  function BigEndian(b0: bv8, b1: bv8, b2: bv8, b3: bv8): bv32 {
    ((b0 as bv32) << 24) | ((b1 as bv32) << 16) | ((b2 as bv32) << 8) | (b3 as bv32)
  }

  function BlockWord(block: seq<bv8>, t: nat): bv32
    requires |block| == 64 && t < 16
  {
    BigEndian(block[4 * t], block[4 * t + 1], block[4 * t + 2], block[4 * t + 3])
  }

  /** Section 6.1.2, step 1: the message schedule. */
  function W(block: seq<bv8>, t: nat): bv32
    requires |block| == 64
  {
    if t < 16 then BlockWord(block, t)
    else Rotl1(W(block, t - 3) ^ W(block, t - 8) ^ W(block, t - 14) ^ W(block, t - 16))
  }

  function Sum(r: bv32, f: bv32, e: bv32, k: bv32, w: bv32): bv32 {
    r + f + e + k + w
  }

  function NewWord(v: bv32, w: bv32, x: bv32, y: bv32, z: bv32, t: nat, schedule: bv32): bv32
    requires t < 80
  {
    Sum(Rotl5(v), F(t, w, x, y), z, K(t), schedule)
  }

  /** Section 6.1.2, step 3: one round on the working variables. */
  function Round(h: Words, t: nat, schedule: bv32): Words
    requires t < 80
  {
    Words(NewWord(h.a, h.b, h.c, h.d, h.e, t, schedule), h.a, Rotl30(h.b), h.c, h.d)
  }

  function Rounds(h: Words, block: seq<bv8>, n: nat): Words
    requires |block| == 64 && n <= 80
  {
    if n == 0 then h else Round(Rounds(h, block, n - 1), n - 1, W(block, n - 1))
  }

  function Plus(x: bv32, y: bv32): bv32 {
    x + y
  }

  function AddWords(h: Words, k: Words): Words {
    Words(Plus(h.a, k.a), Plus(h.b, k.b), Plus(h.c, k.c), Plus(h.d, k.d), Plus(h.e, k.e))
  }

  /** Section 6.1.2: the next hash value. */
  function Compress(h: Words, block: seq<bv8>): Words
    requires |block| == 64
  {
    AddWords(h, Rounds(h, block, 80))
  }

  // ----- how sha1.c computes the same -----

  function LittleEndian(b0: bv8, b1: bv8, b2: bv8, b3: bv8): bv32 {
    (b0 as bv32) | ((b1 as bv32) << 8) | ((b2 as bv32) << 16) | ((b3 as bv32) << 24)
  }

  /** The word a little-endian machine finds in the block. */
  function LoadedWord(block: seq<bv8>, t: nat): bv32
    requires |block| == 64 && t < 16
  {
    LittleEndian(block[4 * t], block[4 * t + 1], block[4 * t + 2], block[4 * t + 3])
  }

  /** blk0: the byte swap by two rotations. */
  function Swapped(l: bv32): bv32 {
    (Rotl24(l) & 0xFF00FF00) | (Rotl8(l) & 0x00FF00FF)
  }

  lemma SwapIsBigEndian(b0: bv8, b1: bv8, b2: bv8, b3: bv8)
    ensures Swapped(LittleEndian(b0, b1, b2, b3)) == BigEndian(b0, b1, b2, b3)
  {
  }

  /** The rewritten Ch and Maj of the round macros. */
  function MacroF(t: nat, w: bv32, x: bv32, y: bv32): bv32
    requires t < 80
  {
    if t < 20 then (w & (x ^ y)) ^ y
    else if t < 40 then w ^ x ^ y
    else if t < 60 then ((w | x) & y) | (w & x)
    else w ^ x ^ y
  }

  lemma ChRewritten(x: bv32, y: bv32, z: bv32)
    ensures (x & (y ^ z)) ^ z == Ch(x, y, z)
  {
  }

  lemma MajRewritten(x: bv32, y: bv32, z: bv32)
    ensures ((x | y) & z) | (x & y) == Maj(x, y, z)
  {
  }

  lemma MacroFIsF(t: nat, w: bv32, x: bv32, y: bv32)
    requires t < 80
    ensures MacroF(t, w, x, y) == F(t, w, x, y)
  {
    ChRewritten(w, x, y);
    MajRewritten(w, x, y);
  }

  lemma SumOrder(z: bv32, f: bv32, w: bv32, k: bv32, r: bv32)
    ensures z + (f + w + k + r) == Sum(r, f, z, k, w)
  {
  }

  lemma NewWordIs(v: bv32, w: bv32, x: bv32, y: bv32, z: bv32, t: nat, schedule: bv32, f: bv32, k: bv32, r: bv32)
    requires t < 80 && f == MacroF(t, w, x, y) && k == K(t) && r == Rotl5(v)
    ensures z + (f + schedule + k + r) == NewWord(v, w, x, y, z, t, schedule)
  {
    MacroFIsF(t, w, x, y);
    SumOrder(z, f, schedule, k, r);
  }

  /** Before round i the circular block holds the last sixteen schedule words, or unswapped input. */
  ghost predicate Holds(l: seq<bv32>, block: seq<bv8>, i: nat)
    requires |l| == 16 && |block| == 64
  {
    && (forall k :: 0 <= k < i && i - 16 <= k ==> l[k % 16] == W(block, k))
    && (forall k :: i <= k < 16 ==> l[k] == LoadedWord(block, k))
  }

  lemma HoldsNext(l: seq<bv32>, block: seq<bv8>, i: nat, m: seq<bv32>)
    requires |l| == 16 && |block| == 64 && Holds(l, block, i) && m == l[i % 16 := W(block, i)]
    ensures Holds(m, block, i + 1)
  {
    forall k | 0 <= k < i + 1 && i + 1 - 16 <= k
      ensures m[k % 16] == W(block, k)
    {
      if k < i {
        OtherSlot(k, i);
      }
    }
  }

  lemma OtherSlot(k: nat, i: nat)
    requires k < i <= k + 15
    ensures k % 16 != i % 16
  {
  }

  lemma CircularSlots(i: nat)
    requires 16 <= i
    ensures (i + 13) % 16 == (i - 3) % 16 && (i + 8) % 16 == (i - 8) % 16
    ensures (i + 2) % 16 == (i - 14) % 16 && i % 16 == (i - 16) % 16
  {
  }

  /** blk0 in the first sixteen rounds and blk after them: both leave the schedule word in its slot. */
  method Blk(l: array<bv32>, i: nat, ghost block: seq<bv8>) returns (w: bv32)
    requires l.Length == 16 && |block| == 64 && i < 80 && Holds(l[..], block, i)
    modifies l
    ensures w == W(block, i) && Holds(l[..], block, i + 1)
  {
    ghost var before := l[..];
    if i < 16 {
      SwapIsBigEndian(block[4 * i], block[4 * i + 1], block[4 * i + 2], block[4 * i + 3]);
      w := Swapped(l[i]);
      l[i] := w;
      assert l[..] == before[i % 16 := w];
    } else {
      CircularSlots(i);
      w := Rotl1(l[(i + 13) % 16] ^ l[(i + 8) % 16] ^ l[(i + 2) % 16] ^ l[i % 16]);
      l[i % 16] := w;
      assert l[..] == before[i % 16 := w];
    }
    HoldsNext(before, block, i, l[..]);
  }

  /** R0 to R4: z and w are replaced, v, x and y only read. */
  method R(v: bv32, w: bv32, x: bv32, y: bv32, z: bv32, l: array<bv32>, i: nat, ghost block: seq<bv8>)
    returns (z': bv32, w': bv32)
    requires l.Length == 16 && |block| == 64 && i < 80 && Holds(l[..], block, i)
    modifies l
    ensures z' == NewWord(v, w, x, y, z, i, W(block, i)) && w' == Rotl30(w) && Holds(l[..], block, i + 1)
  {
    var schedule := Blk(l, i, block);
    var f, k, r := MacroF(i, w, x, y), K(i), Rotl5(v);
    NewWordIs(v, w, x, y, z, i, schedule, f, k, r);
    z' := z + (f + schedule + k + r);
    w' := Rotl30(w);
  }

  /** Five rounds with the names rotated in place of the values: afterwards every name is back. */
  method FiveRounds(h: Words, l: array<bv32>, i: nat, ghost block: seq<bv8>) returns (h': Words)
    requires l.Length == 16 && |block| == 64 && i + 5 <= 80 && Holds(l[..], block, i)
    modifies l
    ensures Holds(l[..], block, i + 5)
    ensures forall start: Words :: h == Rounds(start, block, i) ==> h' == Rounds(start, block, i + 5)
  {
    var Words(a, b, c, d, e) := h;
    e, b := R(a, b, c, d, e, l, i, block);
    ghost var h1 := Round(h, i, W(block, i));
    assert h1 == Words(e, a, b, c, d);
    d, a := R(e, a, b, c, d, l, i + 1, block);
    ghost var h2 := Round(h1, i + 1, W(block, i + 1));
    assert h2 == Words(d, e, a, b, c);
    c, e := R(d, e, a, b, c, l, i + 2, block);
    ghost var h3 := Round(h2, i + 2, W(block, i + 2));
    assert h3 == Words(c, d, e, a, b);
    b, d := R(c, d, e, a, b, l, i + 3, block);
    ghost var h4 := Round(h3, i + 3, W(block, i + 3));
    assert h4 == Words(b, c, d, e, a);
    a, c := R(b, c, d, e, a, l, i + 4, block);
    ghost var h5 := Round(h4, i + 4, W(block, i + 4));
    h' := Words(a, b, c, d, e);
    assert h5 == h';
    forall start: Words | h == Rounds(start, block, i)
      ensures h' == Rounds(start, block, i + 5)
    {
      FiveMore(start, block, i, h1, h2, h3, h4, h5);
    }
  }

  lemma FiveMore(start: Words, block: seq<bv8>, i: nat, h1: Words, h2: Words, h3: Words, h4: Words, h5: Words)
    requires |block| == 64 && i + 5 <= 80
    requires h1 == Round(Rounds(start, block, i), i, W(block, i)) && h2 == Round(h1, i + 1, W(block, i + 1))
    requires h3 == Round(h2, i + 2, W(block, i + 2)) && h4 == Round(h3, i + 3, W(block, i + 3))
    requires h5 == Round(h4, i + 4, W(block, i + 4))
    ensures h5 == Rounds(start, block, i + 5)
  {
    assert h1 == Rounds(start, block, i + 1);
    assert h2 == Rounds(start, block, i + 2);
    assert h3 == Rounds(start, block, i + 3);
    assert h4 == Rounds(start, block, i + 4);
  }

  ghost function WordsOf(state: seq<bv32>): Words
    requires |state| == 5
  {
    Words(state[0], state[1], state[2], state[3], state[4])
  }

  /** The block as the sixteen words of the machine. */
  method Load(buffer: seq<bv8>) returns (l: array<bv32>)
    requires |buffer| == 64
    ensures fresh(l) && l.Length == 16 && Holds(l[..], buffer, 0)
  {
    l := new bv32[16](i => 0);
    for i := 0 to 16
      invariant forall k :: 0 <= k < i ==> l[k] == LoadedWord(buffer, k)
    {
      l[i] := LoadedWord(buffer, i);
    }
  }

  method AddInto(state: array<bv32>, h: Words)
    requires state.Length == 5
    modifies state
    ensures WordsOf(state[..]) == AddWords(old(WordsOf(state[..])), h)
  {
    var a, b, c, d, e := state[0], state[1], state[2], state[3], state[4];
    state[0] := Plus(a, h.a);
    state[1] := Plus(b, h.b);
    state[2] := Plus(c, h.c);
    state[3] := Plus(d, h.d);
    state[4] := Plus(e, h.e);
  }

  /** SHA1Transform: the sixteen-word circular schedule and the unrolled rounds compute Compress. */
  method Transform(state: array<bv32>, buffer: seq<bv8>)
    requires state.Length == 5 && |buffer| == 64
    modifies state
    ensures WordsOf(state[..]) == Compress(old(WordsOf(state[..])), buffer)
  {
    var l := Load(buffer);
    var h := Words(state[0], state[1], state[2], state[3], state[4]);
    ghost var start := h;
    for g := 0 to 16
      invariant Holds(l[..], buffer, 5 * g) && h == Rounds(start, buffer, 5 * g)
      invariant WordsOf(state[..]) == start
    {
      h := FiveRounds(h, l, 5 * g, buffer);
    }
    AddInto(state, h);
  }
}
