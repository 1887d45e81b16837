/**
  Known answers of SHA-1: the digests of the two examples of FIPS 180 for "abc" and for the message of
  448 bits, which fills two blocks. The specification of module Sha1 is evaluated sixteen rounds at a time.
 */
module Sha1Answers {
  import opened Powers
  import opened Sha1
  import opened Sha1Context

  // ----- sixteen words at a time -----

  /** Sixteen successive words of the message schedule. */
  datatype Sixteen<T> = Sixteen(w0: T, w1: T, w2: T, w3: T, w4: T, w5: T, w6: T, w7: T,
                                w8: T, w9: T, wa: T, wb: T, wc: T, wd: T, we: T, wf: T)

  predicate Holds16<T(==)>(w: nat -> T, t: nat, s: Sixteen<T>) {
    && w(t) == s.w0 && w(t + 1) == s.w1 && w(t + 2) == s.w2 && w(t + 3) == s.w3
    && w(t + 4) == s.w4 && w(t + 5) == s.w5 && w(t + 6) == s.w6 && w(t + 7) == s.w7
    && w(t + 8) == s.w8 && w(t + 9) == s.w9 && w(t + 10) == s.wa && w(t + 11) == s.wb
    && w(t + 12) == s.wc && w(t + 13) == s.wd && w(t + 14) == s.we && w(t + 15) == s.wf
  }

  /** The sixteen words after these, where mix makes a word of the ones 3, 8, 14 and 16 before it. */
  function SlideBy<T>(mix: (T, T, T, T) -> T, s: Sixteen<T>): Sixteen<T> {
    var (v0, v1, v2) := (mix(s.wd, s.w8, s.w2, s.w0), mix(s.we, s.w9, s.w3, s.w1), mix(s.wf, s.wa, s.w4, s.w2));
    var (v3, v4, v5) := (mix(v0, s.wb, s.w5, s.w3), mix(v1, s.wc, s.w6, s.w4), mix(v2, s.wd, s.w7, s.w5));
    var (v6, v7, v8) := (mix(v3, s.we, s.w8, s.w6), mix(v4, s.wf, s.w9, s.w7), mix(v5, v0, s.wa, s.w8));
    var (v9, va, vb) := (mix(v6, v1, s.wb, s.w9), mix(v7, v2, s.wc, s.wa), mix(v8, v3, s.wd, s.wb));
    var (vc, vd, ve) := (mix(v9, v4, s.we, s.wc), mix(va, v5, s.wf, s.wd), mix(vb, v6, v0, s.we));
    Sixteen(v0, v1, v2, v3, v4, v5, v6, v7, v8, v9, va, vb, vc, vd, ve, mix(vc, v7, v1, s.wf))
  }

  predicate Recurs<T(==)>(mix: (T, T, T, T) -> T, w: nat -> T, k: nat) {
    16 <= k ==> w(k) == mix(w(k - 3), w(k - 8), w(k - 14), w(k - 16))
  }

  lemma HoldsOn<T>(mix: (T, T, T, T) -> T, w: nat -> T, t: nat, s: Sixteen<T>)
    requires forall k: nat :: Recurs(mix, w, k)
    requires Holds16(w, t, s)
    ensures Holds16(w, t + 16, SlideBy(mix, s))
  {
    assert Recurs(mix, w, t + 16) && Recurs(mix, w, t + 17) && Recurs(mix, w, t + 18) && Recurs(mix, w, t + 19);
    assert Recurs(mix, w, t + 20) && Recurs(mix, w, t + 21) && Recurs(mix, w, t + 22) && Recurs(mix, w, t + 23);
    assert Recurs(mix, w, t + 24) && Recurs(mix, w, t + 25) && Recurs(mix, w, t + 26) && Recurs(mix, w, t + 27);
    assert Recurs(mix, w, t + 28) && Recurs(mix, w, t + 29) && Recurs(mix, w, t + 30) && Recurs(mix, w, t + 31);
  }

  function Mix(x: bv32, y: bv32, z: bv32, v: bv32): bv32 {
    Rotl1(x ^ y ^ z ^ v)
  }

  function ScheduleOf(block: seq<bv8>): nat -> bv32
    requires |block| == 64
  {
    (t: nat) => W(block, t)
  }

  predicate Window(block: seq<bv8>, t: nat, s: Sixteen<bv32>)
    requires |block| == 64
  {
    Holds16(ScheduleOf(block), t, s)
  }

  function Slide(s: Sixteen<bv32>): Sixteen<bv32> {
    SlideBy(Mix, s)
  }

  /** Four rounds, their schedule words in order. */
  function FourRounds(h: Words, t: nat, x: bv32, y: bv32, z: bv32, v: bv32): Words
    requires t + 4 <= 80
  {
    Round(Round(Round(Round(h, t, x), t + 1, y), t + 2, z), t + 3, v)
  }

  lemma FourOn(start: Words, block: seq<bv8>, t: nat, h: Words, x: bv32, y: bv32, z: bv32, v: bv32)
    requires |block| == 64 && t + 4 <= 80 && h == Rounds(start, block, t)
    requires x == W(block, t) && y == W(block, t + 1) && z == W(block, t + 2) && v == W(block, t + 3)
    ensures FourRounds(h, t, x, y, z, v) == Rounds(start, block, t + 4)
  {
    var h1, h2, h3 := Rounds(start, block, t + 1), Rounds(start, block, t + 2), Rounds(start, block, t + 3);
    assert h1 == Round(h, t, x);
    assert h2 == Round(h1, t + 1, y);
    assert h3 == Round(h2, t + 2, z);
  }

  /** The state of one compression: t rounds have led from start to h, and s are the next schedule words. */
  ghost predicate At(start: Words, block: seq<bv8>, t: nat, h: Words, s: Sixteen<bv32>)
    requires |block| == 64 && t <= 80
  {
    h == Rounds(start, block, t) && Window(block, t, s)
  }

  lemma NextWord(block: seq<bv8>, t: nat)
    requires |block| == 64 && 16 <= t
    ensures W(block, t) == Mix(W(block, t - 3), W(block, t - 8), W(block, t - 14), W(block, t - 16))
  {
  }

  lemma WindowSlides(block: seq<bv8>, t: nat, s: Sixteen<bv32>)
    requires |block| == 64 && Window(block, t, s)
    ensures Window(block, t + 16, Slide(s))
  {
    forall k: nat
      ensures Recurs(Mix, ScheduleOf(block), k)
    {
      if 16 <= k {
        NextWord(block, k);
      }
    }
    HoldsOn(Mix, ScheduleOf(block), t, s);
  }

  /** Sixteen rounds, given the state after each four of them. */
  lemma SixteenOn(start: Words, block: seq<bv8>, t: nat, h: Words, s: Sixteen<bv32>, p: Words, q: Words, r: Words, e: Words)
    requires |block| == 64 && t + 16 <= 80 && At(start, block, t, h, s)
    requires p == FourRounds(h, t, s.w0, s.w1, s.w2, s.w3) && q == FourRounds(p, t + 4, s.w4, s.w5, s.w6, s.w7)
    requires r == FourRounds(q, t + 8, s.w8, s.w9, s.wa, s.wb) && e == FourRounds(r, t + 12, s.wc, s.wd, s.we, s.wf)
    ensures At(start, block, t + 16, e, Slide(s))
  {
    FourOn(start, block, t, h, s.w0, s.w1, s.w2, s.w3);
    FourOn(start, block, t + 4, p, s.w4, s.w5, s.w6, s.w7);
    FourOn(start, block, t + 8, q, s.w8, s.w9, s.wa, s.wb);
    FourOn(start, block, t + 12, r, s.wc, s.wd, s.we, s.wf);
    WindowSlides(block, t, s);
  }

  lemma Sums(h: Words, start: Words, sums: Words)
    requires Plus(start.a, h.a) == sums.a && Plus(start.b, h.b) == sums.b && Plus(start.c, h.c) == sums.c
    requires Plus(start.d, h.d) == sums.d && Plus(start.e, h.e) == sums.e
    ensures AddWords(start, h) == sums
  {
  }

  // ----- the padded messages -----

  lemma WordIs(block: seq<bv8>, t: nat, b0: bv8, b1: bv8, b2: bv8, b3: bv8)
    requires |block| == 64 && t < 16
    requires block[4 * t] == b0 && block[4 * t + 1] == b1 && block[4 * t + 2] == b2 && block[4 * t + 3] == b3
    ensures W(block, t) == BigEndian(b0, b1, b2, b3)
  {
  }

  /** Padding byte by byte: the message, 0x80, zeros, and its length in bits in the last eight bytes. */
  lemma PadAt(m: seq<bv8>, i: nat)
    requires i < |Pad(m)|
    ensures i < |m| ==> Pad(m)[i] == m[i]
    ensures i == |m| ==> Pad(m)[i] == 0x80
    ensures |m| < i < |Pad(m)| - 8 ==> Pad(m)[i] == 0
    ensures |m| < |Pad(m)| - 8 <= i ==> Pad(m)[i] == LengthByte(8 * |m|, i - (|Pad(m)| - 8))
  {
  }

  lemma SmallLength(x: nat, i: nat)
    requires x < 0x1_0000 && i < 8
    ensures LengthByte(x, i) == if i == 7 then (x % 256) as bv8 else if i == 6 then (x / 256) as bv8 else 0
  {
    PowersOf256();
    if i < 6 {
      PowMonotone(256, 2, 7 - i);
      NoQuotient(x, Pow(256, 7 - i));
    }
  }

  lemma NoQuotient(x: nat, d: nat)
    requires x < d
    ensures x / d == 0
  {
  }

  // ----- the block of abc -----

  lemma Short16(start: Words, block: seq<bv8>)
    requires |block| == 64
    requires At(start, block, 0, Words(0x67452301, 0xEFCDAB89, 0x98BADCFE, 0x10325476, 0xC3D2E1F0), Sixteen(
      0x61626380, 0x00000000, 0x00000000, 0x00000000, 0x00000000, 0x00000000, 0x00000000, 0x00000000,
      0x00000000, 0x00000000, 0x00000000, 0x00000000, 0x00000000, 0x00000000, 0x00000000, 0x00000018))
    ensures At(start, block, 16, Words(0x20BDD62F, 0x196BEE77, 0x644A3DA5, 0x1181ED99, 0x18C623F9), Sixteen(
      0xC2C4C700, 0x00000000, 0x00000030, 0x85898E01, 0x00000000, 0x00000060, 0x0B131C03, 0x00000030,
      0x85898EC1, 0x16263806, 0x00000000, 0x00000180, 0x2C4C700C, 0x000000F0, 0x93AFB507, 0x5898E048))
  {
    SixteenOn(start, block, 0, Words(0x67452301, 0xEFCDAB89, 0x98BADCFE, 0x10325476, 0xC3D2E1F0), Sixteen(
      0x61626380, 0x00000000, 0x00000000, 0x00000000, 0x00000000, 0x00000000, 0x00000000, 0x00000000,
      0x00000000, 0x00000000, 0x00000000, 0x00000000, 0x00000000, 0x00000000, 0x00000000, 0x00000018),
      Words(0xCDD8E11B, 0xA1390F08, 0x626414DB, 0xC045BF0C, 0x59D148C0), Words(0x9E8C07D4, 0x993E30C1, 0x0FF1F290, 0xB3F52677, 0xF3763846),
      Words(0x63188FE4, 0xFBDA9E89, 0x60D47E4A, 0x12DAB8CA, 0x27A301F5), Words(0x20BDD62F, 0x196BEE77, 0x644A3DA5, 0x1181ED99, 0x18C623F9));
  }

  lemma Short32(start: Words, block: seq<bv8>)
    requires |block| == 64
    requires At(start, block, 16, Words(0x20BDD62F, 0x196BEE77, 0x644A3DA5, 0x1181ED99, 0x18C623F9), Sixteen(
      0xC2C4C700, 0x00000000, 0x00000030, 0x85898E01, 0x00000000, 0x00000060, 0x0B131C03, 0x00000030,
      0x85898EC1, 0x16263806, 0x00000000, 0x00000180, 0x2C4C700C, 0x000000F0, 0x93AFB507, 0x5898E048))
    ensures At(start, block, 32, Words(0x3B845D33, 0x1267B407, 0x717EEBD7, 0xA0DC2D4B, 0xD2AA1365), Sixteen(
      0x8E9A9202, 0x00000600, 0xB131C0F0, 0x16263BC6, 0x4EBED41E, 0x626380A1, 0x16263806, 0x000018C0,
      0xD2E138C4, 0x00000F00, 0x3AFB5079, 0x898E04E5, 0xE2BA3C2B, 0x000060C0, 0x053A37CD, 0x74458547))
  {
    SixteenOn(start, block, 16, Words(0x20BDD62F, 0x196BEE77, 0x644A3DA5, 0x1181ED99, 0x18C623F9), Sixteen(
      0xC2C4C700, 0x00000000, 0x00000030, 0x85898E01, 0x00000000, 0x00000060, 0x0B131C03, 0x00000030,
      0x85898EC1, 0x16263806, 0x00000000, 0x00000180, 0x2C4C700C, 0x000000F0, 0x93AFB507, 0x5898E048),
      Words(0xFD9E1D7D, 0xDC64901D, 0x20AA99CA, 0xD3A49608, 0xC82F758B), Words(0xD541F12D, 0x21283486, 0x0CE88EFF, 0x868DEC32, 0x7F67875F),
      Words(0x4AA84D97, 0xBE35FBD5, 0x12104EE9, 0xB1D59F71, 0x75507C4B), Words(0x3B845D33, 0x1267B407, 0x717EEBD7, 0xA0DC2D4B, 0xD2AA1365));
  }

  lemma Short48(start: Words, block: seq<bv8>)
    requires |block| == 64
    requires At(start, block, 32, Words(0x3B845D33, 0x1267B407, 0x717EEBD7, 0xA0DC2D4B, 0xD2AA1365), Sixteen(
      0x8E9A9202, 0x00000600, 0xB131C0F0, 0x16263BC6, 0x4EBED41E, 0x626380A1, 0x16263806, 0x000018C0,
      0xD2E138C4, 0x00000F00, 0x3AFB5079, 0x898E04E5, 0xE2BA3C2B, 0x000060C0, 0x053A37CD, 0x74458547))
    ensures At(start, block, 48, Words(0xBEAD02CA, 0xA01B846C, 0x8714787C, 0x503CA382, 0xFB86C6AB), Sixteen(
      0xDA9415ED, 0x26380A16, 0x626383A1, 0x4EBF54DE, 0x3835B44B, 0x0000F600, 0x1E84C7A3, 0x98E04D98,
      0x651D16A0, 0x62658CA1, 0x458544D6, 0x44584CB7, 0x7BA06619, 0x6380AEA2, 0x0AE55269, 0x627B49A1))
  {
    SixteenOn(start, block, 32, Words(0x3B845D33, 0x1267B407, 0x717EEBD7, 0xA0DC2D4B, 0xD2AA1365), Sixteen(
      0x8E9A9202, 0x00000600, 0xB131C0F0, 0x16263BC6, 0x4EBED41E, 0x626380A1, 0x16263806, 0x000018C0,
      0xD2E138C4, 0x00000F00, 0x3AFB5079, 0x898E04E5, 0xE2BA3C2B, 0x000060C0, 0x053A37CD, 0x74458547),
      Words(0xDCBBB0CB, 0x21796AD4, 0x4B03AF04, 0x811BEA82, 0xCEE1174C), Words(0x32DE1CBA, 0x4C986405, 0xF718E5CF, 0x03D447F6, 0xF72EEC32),
      Words(0xEE1B1AAF, 0x7F193DC5, 0x25C28357, 0xFF21F7B7, 0x8CB7872E), Words(0xBEAD02CA, 0xA01B846C, 0x8714787C, 0x503CA382, 0xFB86C6AB));
  }

  lemma Short64(start: Words, block: seq<bv8>)
    requires |block| == 64
    requires At(start, block, 48, Words(0xBEAD02CA, 0xA01B846C, 0x8714787C, 0x503CA382, 0xFB86C6AB), Sixteen(
      0xDA9415ED, 0x26380A16, 0x626383A1, 0x4EBF54DE, 0x3835B44B, 0x0000F600, 0x1E84C7A3, 0x98E04D98,
      0x651D16A0, 0x62658CA1, 0x458544D6, 0x44584CB7, 0x7BA06619, 0x6380AEA2, 0x0AE55269, 0x627B49A1))
    ensures At(start, block, 64, Words(0x6B61C9E1, 0xB66C020B, 0x9523272C, 0xF5D5B051, 0x8FD4B796), Sixteen(
      0x7CD45C9D, 0x000F0000, 0xFB50753A, 0xEC6765E8, 0xBA3C2BE2, 0x0060C000, 0x3A37CD05, 0x458546F4,
      0xB8599DD6, 0x380A1A26, 0x01E02203, 0xE7CC3456, 0xE6E60B69, 0x00F60A00, 0x5795EF4F, 0x822E0879))
  {
    SixteenOn(start, block, 48, Words(0xBEAD02CA, 0xA01B846C, 0x8714787C, 0x503CA382, 0xFB86C6AB), Sixteen(
      0xDA9415ED, 0x26380A16, 0x626383A1, 0x4EBF54DE, 0x3835B44B, 0x0000F600, 0x1E84C7A3, 0x98E04D98,
      0x651D16A0, 0x62658CA1, 0x458544D6, 0x44584CB7, 0x7BA06619, 0x6380AEA2, 0x0AE55269, 0x627B49A1),
      Words(0x3847AD66, 0x641DB2CE, 0x4481CC71, 0xEEBCE4CD, 0xAFAB40B2), Words(0x5E6456AF, 0x7B71F76D, 0x09FA7C76, 0x792410DB, 0x8E11EB59),
      Words(0x3F52DE5A, 0x09D785FD, 0x3498BFD4, 0xF211824F, 0xD79915AB), Words(0x6B61C9E1, 0xB66C020B, 0x9523272C, 0xF5D5B051, 0x8FD4B796));
  }

  lemma Short80(start: Words, block: seq<bv8>)
    requires |block| == 64
    requires At(start, block, 64, Words(0x6B61C9E1, 0xB66C020B, 0x9523272C, 0xF5D5B051, 0x8FD4B796), Sixteen(
      0x7CD45C9D, 0x000F0000, 0xFB50753A, 0xEC6765E8, 0xBA3C2BE2, 0x0060C000, 0x3A37CD05, 0x458546F4,
      0xB8599DD6, 0x380A1A26, 0x01E02203, 0xE7CC3456, 0xE6E60B69, 0x00F60A00, 0x5795EF4F, 0x822E0879))
    ensures At(start, block, 80, Words(0x42541B35, 0x5738D5E1, 0x21834873, 0x681E6DF6, 0xD8FDF6AD), Sixteen(
      0x7E577CE2, 0x07EF2103, 0x8544E945, 0xEB39DAB8, 0xC205991A, 0x80AECB63, 0x7D84CA48, 0x7B499B62,
      0x8E8010A8, 0x4B5B8A77, 0x3216B69A, 0x0507E88D, 0x705BEE96, 0x60C0FF00, 0xA28362D0, 0x1DA6B91D))
  {
    SixteenOn(start, block, 64, Words(0x6B61C9E1, 0xB66C020B, 0x9523272C, 0xF5D5B051, 0x8FD4B796), Sixteen(
      0x7CD45C9D, 0x000F0000, 0xFB50753A, 0xEC6765E8, 0xBA3C2BE2, 0x0060C000, 0x3A37CD05, 0x458546F4,
      0xB8599DD6, 0x380A1A26, 0x01E02203, 0xE7CC3456, 0xE6E60B69, 0x00F60A00, 0x5795EF4F, 0x822E0879),
      Words(0x78DD4D2B, 0x0C3DF2B4, 0x4405957E, 0x0677E9EB, 0x5AD87278), Words(0x39859DE7, 0xC199F8C7, 0x8FC96230, 0x125C24F0, 0xDE37534A),
      Words(0x63F7DAB7, 0x5EE76897, 0xC45E4FDB, 0x3B6D0B79, 0xCE616779), Words(0x42541B35, 0x5738D5E1, 0x21834873, 0x681E6DF6, 0xD8FDF6AD));
  }

  lemma Short(start: Words, block: seq<bv8>)
    requires |block| == 64 && start == Words(0x67452301, 0xEFCDAB89, 0x98BADCFE, 0x10325476, 0xC3D2E1F0)
    requires Window(block, 0, Sixteen(
      0x61626380, 0x00000000, 0x00000000, 0x00000000, 0x00000000, 0x00000000, 0x00000000, 0x00000000,
      0x00000000, 0x00000000, 0x00000000, 0x00000000, 0x00000000, 0x00000000, 0x00000000, 0x00000018))
    ensures Compress(start, block) == Words(0xA9993E36, 0x4706816A, 0xBA3E2571, 0x7850C26C, 0x9CD0D89D)
  {
    Short16(start, block);
    Short32(start, block);
    Short48(start, block);
    Short64(start, block);
    Short80(start, block);
    Sums(Words(0x42541B35, 0x5738D5E1, 0x21834873, 0x681E6DF6, 0xD8FDF6AD), start, Words(0xA9993E36, 0x4706816A, 0xBA3E2571, 0x7850C26C, 0x9CD0D89D));
  }

  // ----- the first of the two blocks -----

  lemma First16(start: Words, block: seq<bv8>)
    requires |block| == 64
    requires At(start, block, 0, Words(0x67452301, 0xEFCDAB89, 0x98BADCFE, 0x10325476, 0xC3D2E1F0), Sixteen(
      0x61626364, 0x62636465, 0x63646566, 0x64656667, 0x65666768, 0x66676869, 0x6768696A, 0x68696A6B,
      0x696A6B6C, 0x6A6B6C6D, 0x6B6C6D6E, 0x6C6D6E6F, 0x6D6E6F70, 0x6E6F7071, 0x80000000, 0x00000000))
    ensures At(start, block, 16, Words(0x42637E39, 0xB2E7A8BE, 0x4CBE52A1, 0xA180D207, 0xB867B2A8), Sixteen(
      0x0A063A3E, 0xD8DADCDF, 0xDADCDEC0, 0xC8D2B4BE, 0x6F757B5B, 0x757B5967, 0x8DA16D70, 0xDAEEFABA,
      0xFAF6CAB6, 0xA6FB675A, 0x0C604CC8, 0x604CC02C, 0x49C0E6E2, 0x2EE8CBBC, 0xCFD72EC4, 0x97E9810E))
  {
    SixteenOn(start, block, 0, Words(0x67452301, 0xEFCDAB89, 0x98BADCFE, 0x10325476, 0xC3D2E1F0), Sixteen(
      0x61626364, 0x62636465, 0x63646566, 0x64656667, 0x65666768, 0x66676869, 0x6768696A, 0x68696A6B,
      0x696A6B6C, 0x6A6B6C6D, 0x6B6C6D6E, 0x6C6D6E6F, 0x6D6E6F70, 0x6E6F7071, 0x80000000, 0x00000000),
      Words(0x2C4F6EAC, 0x5109913A, 0xBAFCED14, 0xC045BF05, 0x59D148C0), Words(0x45833F0F, 0xDB04CB58, 0x65AE1462, 0xCCFD2B96, 0x0B13DBAB),
      Words(0xE19ECAA2, 0x8993EA77, 0x98D42BF6, 0xB15970D7, 0xD160CFC3), Words(0x42637E39, 0xB2E7A8BE, 0x4CBE52A1, 0xA180D207, 0xB867B2A8));
  }

  lemma First32(start: Words, block: seq<bv8>)
    requires |block| == 64
    requires At(start, block, 16, Words(0x42637E39, 0xB2E7A8BE, 0x4CBE52A1, 0xA180D207, 0xB867B2A8), Sixteen(
      0x0A063A3E, 0xD8DADCDF, 0xDADCDEC0, 0xC8D2B4BE, 0x6F757B5B, 0x757B5967, 0x8DA16D70, 0xDAEEFABA,
      0xFAF6CAB6, 0xA6FB675A, 0x0C604CC8, 0x604CC02C, 0x49C0E6E2, 0x2EE8CBBC, 0xCFD72EC4, 0x97E9810E))
    ensures At(start, block, 32, Words(0x52E31F60, 0xA9C84BEC, 0x816D15EC, 0x78448908, 0x3549A991), Sixteen(
      0x0989CBE8, 0xF24843FE, 0x5C40D0BA, 0xA8D9CC3B, 0xB2B9666E, 0xBA7B71B7, 0x20B28A72, 0xB28AF500,
      0x8AC87842, 0x289ADDF4, 0x56D51F21, 0xD96B7FD2, 0x3868E778, 0xAB5E4848, 0x7F0E2118, 0xDE87A111))
  {
    SixteenOn(start, block, 16, Words(0x42637E39, 0xB2E7A8BE, 0x4CBE52A1, 0xA180D207, 0xB867B2A8), Sixteen(
      0x0A063A3E, 0xD8DADCDF, 0xDADCDEC0, 0xC8D2B4BE, 0x6F757B5B, 0x757B5967, 0x8DA16D70, 0xDAEEFABA,
      0xFAF6CAB6, 0xA6FB675A, 0x0C604CC8, 0x604CC02C, 0x49C0E6E2, 0x2EE8CBBC, 0xCFD72EC4, 0x97E9810E),
      Words(0x6C445652, 0x944B1BD1, 0x509AE70D, 0x1AC1A012, 0x5098DF8E), Words(0xFD224575, 0xE2B92DC4, 0xC254445D, 0x6560DB69, 0x9B111594),
      Words(0xD526A644, 0x2972F7C7, 0x96850B06, 0xBBAE0B66, 0x7F48915D), Words(0x52E31F60, 0xA9C84BEC, 0x816D15EC, 0x78448908, 0x3549A991));
  }

  lemma First48(start: Words, block: seq<bv8>)
    requires |block| == 64
    requires At(start, block, 32, Words(0x52E31F60, 0xA9C84BEC, 0x816D15EC, 0x78448908, 0x3549A991), Sixteen(
      0x0989CBE8, 0xF24843FE, 0x5C40D0BA, 0xA8D9CC3B, 0xB2B9666E, 0xBA7B71B7, 0x20B28A72, 0xB28AF500,
      0x8AC87842, 0x289ADDF4, 0x56D51F21, 0xD96B7FD2, 0x3868E778, 0xAB5E4848, 0x7F0E2118, 0xDE87A111))
    ensures At(start, block, 48, Words(0xC8A69090, 0xA2AD4F02, 0xB1BA8907, 0x26307A99, 0x58CFA558), Sixteen(
      0xE8BE56B0, 0x1A0AE652, 0xCD5611C8, 0x46EF29DC, 0x60D3DA6D, 0xDDF3BA6E, 0x2737F5E9, 0x4888A710,
      0xD2A1177B, 0x9999633B, 0xD6C69D03, 0xCCF6127B, 0x7C58FE6D, 0xFDD99C68, 0xF8E32074, 0xE0BA3C7D))
  {
    SixteenOn(start, block, 32, Words(0x52E31F60, 0xA9C84BEC, 0x816D15EC, 0x78448908, 0x3549A991), Sixteen(
      0x0989CBE8, 0xF24843FE, 0x5C40D0BA, 0xA8D9CC3B, 0xB2B9666E, 0xBA7B71B7, 0x20B28A72, 0xB28AF500,
      0x8AC87842, 0x289ADDF4, 0x56D51F21, 0xD96B7FD2, 0x3868E778, 0xAB5E4848, 0x7F0E2118, 0xDE87A111),
      Words(0xAB7C32EE, 0xE9AC987C, 0x4C71D5AA, 0x16BCC90B, 0x14B8C7D8), Words(0xADEB7478, 0x24957F22, 0x50FE1EBA, 0x564CFF26, 0xAADF0CBB),
      Words(0x633E9561, 0xF9BCB8DE, 0x1E6F3EC2, 0x35C39404, 0x2B7ADD1E), Words(0xC8A69090, 0xA2AD4F02, 0xB1BA8907, 0x26307A99, 0x58CFA558));
  }

  lemma First64(start: Words, block: seq<bv8>)
    requires |block| == 64
    requires At(start, block, 48, Words(0xC8A69090, 0xA2AD4F02, 0xB1BA8907, 0x26307A99, 0x58CFA558), Sixteen(
      0xE8BE56B0, 0x1A0AE652, 0xCD5611C8, 0x46EF29DC, 0x60D3DA6D, 0xDDF3BA6E, 0x2737F5E9, 0x4888A710,
      0xD2A1177B, 0x9999633B, 0xD6C69D03, 0xCCF6127B, 0x7C58FE6D, 0xFDD99C68, 0xF8E32074, 0xE0BA3C7D))
    ensures At(start, block, 64, Words(0x513F9CA0, 0x2BFAF7A8, 0x10203537, 0xCD8952C4, 0xE7BDDD70), Sixteen(
      0x152198D6, 0x7B3F1982, 0x37F2D5B7, 0x8596323E, 0x810790D6, 0xBEA0A942, 0x11C7E1B1, 0x6158D101,
      0x5FCD77D9, 0x7F2F12E6, 0xF868CFB1, 0xD6E997E9, 0xF526B852, 0xB7578DCC, 0x55D99DF4, 0x1FF69958))
  {
    SixteenOn(start, block, 48, Words(0xC8A69090, 0xA2AD4F02, 0xB1BA8907, 0x26307A99, 0x58CFA558), Sixteen(
      0xE8BE56B0, 0x1A0AE652, 0xCD5611C8, 0x46EF29DC, 0x60D3DA6D, 0xDDF3BA6E, 0x2737F5E9, 0x4888A710,
      0xD2A1177B, 0x9999633B, 0xD6C69D03, 0xCCF6127B, 0x7C58FE6D, 0xFDD99C68, 0xF8E32074, 0xE0BA3C7D),
      Words(0x8D2E76C8, 0x86E358BA, 0x1FA11BD6, 0x220D0580, 0x3229A424), Words(0x776C3910, 0x36D1230A, 0x7B7AA56C, 0x33A24B84, 0x234B9DB2),
      Words(0x9EF775C3, 0xF03D3782, 0xEB029E53, 0xE9A06DC8, 0x1DDB0E44), Words(0x513F9CA0, 0x2BFAF7A8, 0x10203537, 0xCD8952C4, 0xE7BDDD70));
  }

  lemma First80(start: Words, block: seq<bv8>)
    requires |block| == 64
    requires At(start, block, 64, Words(0x513F9CA0, 0x2BFAF7A8, 0x10203537, 0xCD8952C4, 0xE7BDDD70), Sixteen(
      0x152198D6, 0x7B3F1982, 0x37F2D5B7, 0x8596323E, 0x810790D6, 0xBEA0A942, 0x11C7E1B1, 0x6158D101,
      0x5FCD77D9, 0x7F2F12E6, 0xF868CFB1, 0xD6E997E9, 0xF526B852, 0xB7578DCC, 0x55D99DF4, 0x1FF69958))
    ensures At(start, block, 80, Words(0x8CE34517, 0xD3AD7C25, 0x6B4E1883, 0x74351CD2, 0x86838382), Sixteen(
      0x94936EE9, 0xA8BF495D, 0xA2D62710, 0xF298C4F8, 0x9AB300D1, 0x94F3A53F, 0xD2979EC9, 0x3664B4DD,
      0x4F8AE77D, 0xA7DCA537, 0x33F9C85D, 0xB9587341, 0x3B210081, 0x1F56F3EC, 0x550A3D2B, 0x7418C8B3))
  {
    SixteenOn(start, block, 64, Words(0x513F9CA0, 0x2BFAF7A8, 0x10203537, 0xCD8952C4, 0xE7BDDD70), Sixteen(
      0x152198D6, 0x7B3F1982, 0x37F2D5B7, 0x8596323E, 0x810790D6, 0xBEA0A942, 0x11C7E1B1, 0x6158D101,
      0x5FCD77D9, 0x7F2F12E6, 0xF868CFB1, 0xD6E997E9, 0xF526B852, 0xB7578DCC, 0x55D99DF4, 0x1FF69958),
      Words(0x6D17C9FD, 0x14A82DA9, 0x440DF4B5, 0x79625720, 0x144FE728), Words(0x84065712, 0x112B96E3, 0xFF7DBBFF, 0x4B1EC1EF, 0x5B45F27F),
      Words(0x1A0E0E0A, 0x352D9F4B, 0x7148438D, 0x6AE27EDC, 0xA10195C4), Words(0x8CE34517, 0xD3AD7C25, 0x6B4E1883, 0x74351CD2, 0x86838382));
  }

  lemma First(start: Words, block: seq<bv8>)
    requires |block| == 64 && start == Words(0x67452301, 0xEFCDAB89, 0x98BADCFE, 0x10325476, 0xC3D2E1F0)
    requires Window(block, 0, Sixteen(
      0x61626364, 0x62636465, 0x63646566, 0x64656667, 0x65666768, 0x66676869, 0x6768696A, 0x68696A6B,
      0x696A6B6C, 0x6A6B6C6D, 0x6B6C6D6E, 0x6C6D6E6F, 0x6D6E6F70, 0x6E6F7071, 0x80000000, 0x00000000))
    ensures Compress(start, block) == Words(0xF4286818, 0xC37B27AE, 0x0408F581, 0x84677148, 0x4A566572)
  {
    First16(start, block);
    First32(start, block);
    First48(start, block);
    First64(start, block);
    First80(start, block);
    Sums(Words(0x8CE34517, 0xD3AD7C25, 0x6B4E1883, 0x74351CD2, 0x86838382), start, Words(0xF4286818, 0xC37B27AE, 0x0408F581, 0x84677148, 0x4A566572));
  }

  // ----- the second one -----

  lemma Second16(start: Words, block: seq<bv8>)
    requires |block| == 64
    requires At(start, block, 0, Words(0xF4286818, 0xC37B27AE, 0x0408F581, 0x84677148, 0x4A566572), Sixteen(
      0x00000000, 0x00000000, 0x00000000, 0x00000000, 0x00000000, 0x00000000, 0x00000000, 0x00000000,
      0x00000000, 0x00000000, 0x00000000, 0x00000000, 0x00000000, 0x00000000, 0x00000000, 0x000001C0))
    ensures At(start, block, 16, Words(0xD9772360, 0x258B0BAA, 0x2898132A, 0xFFB35EEF, 0xD0E89E4B), Sixteen(
      0x00000000, 0x00000000, 0x00000380, 0x00000000, 0x00000000, 0x00000700, 0x00000000, 0x00000380,
      0x00000E00, 0x00000000, 0x00000000, 0x00001C00, 0x00000000, 0x00000D80, 0x00003800, 0x00000480))
  {
    SixteenOn(start, block, 0, Words(0xF4286818, 0xC37B27AE, 0x0408F581, 0x84677148, 0x4A566572), Sixteen(
      0x00000000, 0x00000000, 0x00000000, 0x00000000, 0x00000000, 0x00000000, 0x00000000, 0x00000000,
      0x00000000, 0x00000000, 0x00000000, 0x00000000, 0x00000000, 0x00000000, 0x00000000, 0x000001C0),
      Words(0xEEF743C6, 0xC352BB05, 0xD34F7163, 0x4B7C95FA, 0x3D0A1A06), Words(0xC6946813, 0xE7FA0377, 0x1510E457, 0xD078D09D, 0xBBBDD0F1),
      Words(0x43A2792F, 0x6BA94F63, 0xAE14E2B2, 0x7F778778, 0xF1A51A04), Words(0xD9772360, 0x258B0BAA, 0x2898132A, 0xFFB35EEF, 0xD0E89E4B));
  }

  lemma Second32(start: Words, block: seq<bv8>)
    requires |block| == 64
    requires At(start, block, 16, Words(0xD9772360, 0x258B0BAA, 0x2898132A, 0xFFB35EEF, 0xD0E89E4B), Sixteen(
      0x00000000, 0x00000000, 0x00000380, 0x00000000, 0x00000000, 0x00000700, 0x00000000, 0x00000380,
      0x00000E00, 0x00000000, 0x00000000, 0x00001C00, 0x00000000, 0x00000D80, 0x00003800, 0x00000480))
    ensures At(start, block, 32, Words(0x8A4AF384, 0x17986223, 0x028BEC42, 0xC90A6F97, 0xD7105B6B), Sixteen(
      0x00000000, 0x00007000, 0x00000E00, 0x00003600, 0x0000E000, 0x00000E00, 0x00000000, 0x0001CE00,
      0x00000000, 0x0000D800, 0x00038000, 0x00004F00, 0x00000000, 0x00070E00, 0x0000EE00, 0x00037500))
  {
    SixteenOn(start, block, 16, Words(0xD9772360, 0x258B0BAA, 0x2898132A, 0xFFB35EEF, 0xD0E89E4B), Sixteen(
      0x00000000, 0x00000000, 0x00000380, 0x00000000, 0x00000000, 0x00000700, 0x00000000, 0x00000380,
      0x00000E00, 0x00000000, 0x00000000, 0x00001C00, 0x00000000, 0x00000D80, 0x00003800, 0x00000480),
      Words(0xD8992153, 0xC2EB709F, 0x2946D62F, 0x9541F6DB, 0x365DC8D8), Words(0x8FBAA5B9, 0x9AD594B9, 0x7BA1C02F, 0xCDD20BD7, 0xF6264854),
      Words(0x5C416DAF, 0x50BCE434, 0x7BB14148, 0xE23ED619, 0x63EEA96E), Words(0x8A4AF384, 0x17986223, 0x028BEC42, 0xC90A6F97, 0xD7105B6B));
  }

  lemma Second48(start: Words, block: seq<bv8>)
    requires |block| == 64
    requires At(start, block, 32, Words(0x8A4AF384, 0x17986223, 0x028BEC42, 0xC90A6F97, 0xD7105B6B), Sixteen(
      0x00000000, 0x00007000, 0x00000E00, 0x00003600, 0x0000E000, 0x00000E00, 0x00000000, 0x0001CE00,
      0x00000000, 0x0000D800, 0x00038000, 0x00004F00, 0x00000000, 0x00070E00, 0x0000EE00, 0x00037500))
    ensures At(start, block, 48, Words(0x46F93B68, 0x7316056A, 0xB0F40CFA, 0xCF2BB5EB, 0x7B074F58), Sixteen(
      0x000E0000, 0x0000E000, 0x00003600, 0x001CEE00, 0x00000000, 0x000DF000, 0x00380000, 0x0004C600,
      0x0000E000, 0x0070EE00, 0x000EE000, 0x00369E00, 0x00E00000, 0x000ED600, 0x0000E000, 0x01CEA600))
  {
    SixteenOn(start, block, 32, Words(0x8A4AF384, 0x17986223, 0x028BEC42, 0xC90A6F97, 0xD7105B6B), Sixteen(
      0x00000000, 0x00007000, 0x00000E00, 0x00003600, 0x0000E000, 0x00000E00, 0x00000000, 0x0001CE00,
      0x00000000, 0x0000D800, 0x00038000, 0x00004F00, 0x00000000, 0x00070E00, 0x0000EE00, 0x00037500),
      Words(0x696DA404, 0x295CC25B, 0xFC57C13C, 0xDAD8A664, 0x2292BCE1), Words(0x03BB6310, 0x84E2A5F2, 0x21F56E03, 0xB3BD6B84, 0x1A5B6901),
      Words(0xEC1D3D61, 0x28589152, 0x2FEC95DA, 0xF0B63DD7, 0x00EED8C4), Words(0x46F93B68, 0x7316056A, 0xB0F40CFA, 0xCF2BB5EB, 0x7B074F58));
  }

  lemma Second64(start: Words, block: seq<bv8>)
    requires |block| == 64
    requires At(start, block, 48, Words(0x46F93B68, 0x7316056A, 0xB0F40CFA, 0xCF2BB5EB, 0x7B074F58), Sixteen(
      0x000E0000, 0x0000E000, 0x00003600, 0x001CEE00, 0x00000000, 0x000DF000, 0x00380000, 0x0004C600,
      0x0000E000, 0x0070EE00, 0x000EE000, 0x00369E00, 0x00E00000, 0x000ED600, 0x0000E000, 0x01CEA600))
    ensures At(start, block, 64, Words(0xD504902B, 0xF66D9BF4, 0x24D85327, 0xDEAAC406, 0xE996063D), Sixteen(
      0x00000000, 0x00D80000, 0x0380E000, 0x004F0000, 0x00000000, 0x070E0000, 0x00EE0000, 0x03751C00,
      0x0E000000, 0x00E0E000, 0x00363800, 0x1CEE9000, 0x00000000, 0x0DF09000, 0x3800E000, 0x04C77400))
  {
    SixteenOn(start, block, 48, Words(0x46F93B68, 0x7316056A, 0xB0F40CFA, 0xCF2BB5EB, 0x7B074F58), Sixteen(
      0x000E0000, 0x0000E000, 0x00003600, 0x001CEE00, 0x00000000, 0x000DF000, 0x00380000, 0x0004C600,
      0x0000E000, 0x0070EE00, 0x000EE000, 0x00369E00, 0x00E00000, 0x000ED600, 0x0000E000, 0x01CEA600),
      Words(0x89FBD41D, 0x7E4672C0, 0x21435047, 0xB7239FC9, 0x11BE4EDA), Words(0x6DA72E7F, 0x2BDBB8CB, 0x10C7596F, 0x05E5F88A, 0x627EF507),
      Words(0xA65818F7, 0x5B086C42, 0xB9E15956, 0xEA1256A6, 0xDB69CB9F), Words(0xD504902B, 0xF66D9BF4, 0x24D85327, 0xDEAAC406, 0xE996063D));
  }

  lemma Second80(start: Words, block: seq<bv8>)
    requires |block| == 64
    requires At(start, block, 64, Words(0xD504902B, 0xF66D9BF4, 0x24D85327, 0xDEAAC406, 0xE996063D), Sixteen(
      0x00000000, 0x00D80000, 0x0380E000, 0x004F0000, 0x00000000, 0x070E0000, 0x00EE0000, 0x03751C00,
      0x0E000000, 0x00E0E000, 0x00363800, 0x1CEE9000, 0x00000000, 0x0DF09000, 0x3800E000, 0x04C77400))
    ensures At(start, block, 80, Words(0x906FD62C, 0x58C0AAC0, 0xB6A55520, 0x74E9B89D, 0x9AF00B7F), Sixteen(
      0x00E0E000, 0x70EE0000, 0x0EE35800, 0x369EE000, 0xE0000000, 0x0ED1A800, 0x00E00000, 0xCEA51001,
      0x000EE000, 0xD800E000, 0x80E0E003, 0x4F1C0000, 0x00000000, 0x0E0D5807, 0xEE380000, 0x7518C803))
  {
    SixteenOn(start, block, 64, Words(0xD504902B, 0xF66D9BF4, 0x24D85327, 0xDEAAC406, 0xE996063D), Sixteen(
      0x00000000, 0x00D80000, 0x0380E000, 0x004F0000, 0x00000000, 0x070E0000, 0x00EE0000, 0x03751C00,
      0x0E000000, 0x00E0E000, 0x00363800, 0x1CEE9000, 0x00000000, 0x0DF09000, 0x3800E000, 0x04C77400),
      Words(0xF6226BBF, 0x083E90C3, 0x62DA1E06, 0x982A7698, 0xF541240A), Words(0xAE1B8E7B, 0x8B2C7573, 0x66277459, 0xDDB0158E, 0xFD889AEF),
      Words(0x6BC02DFE, 0xD28D83AD, 0xC5BCEEAE, 0xB2861037, 0xEB86E39E), Words(0x906FD62C, 0x58C0AAC0, 0xB6A55520, 0x74E9B89D, 0x9AF00B7F));
  }

  lemma Second(start: Words, block: seq<bv8>)
    requires |block| == 64 && start == Words(0xF4286818, 0xC37B27AE, 0x0408F581, 0x84677148, 0x4A566572)
    requires Window(block, 0, Sixteen(
      0x00000000, 0x00000000, 0x00000000, 0x00000000, 0x00000000, 0x00000000, 0x00000000, 0x00000000,
      0x00000000, 0x00000000, 0x00000000, 0x00000000, 0x00000000, 0x00000000, 0x00000000, 0x000001C0))
    ensures Compress(start, block) == Words(0x84983E44, 0x1C3BD26E, 0xBAAE4AA1, 0xF95129E5, 0xE54670F1)
  {
    Second16(start, block);
    Second32(start, block);
    Second48(start, block);
    Second64(start, block);
    Second80(start, block);
    Sums(Words(0x906FD62C, 0x58C0AAC0, 0xB6A55520, 0x74E9B89D, 0x9AF00B7F), start, Words(0x84983E44, 0x1C3BD26E, 0xBAAE4AA1, 0xF95129E5, 0xE54670F1));
  }

  // ----- "abc" -----

  function Abc(): seq<bv8> {
    [0x61, 0x62, 0x63]
  }

  lemma AbcSize(p: seq<bv8>)
    requires p == Pad(Abc())
    ensures |p| == 64
  {
    assert PadLength(3) == 52;
  }

  lemma AbcByte(p: seq<bv8>, i: nat)
    requires p == Pad(Abc()) && |p| == 64 && 4 <= i < 63
    ensures p[i] == 0
  {
    PadAt(Abc(), i);
    if 56 <= i {
      SmallLength(24, i - 56);
    }
  }

  lemma AbcLast(p: seq<bv8>)
    requires p == Pad(Abc()) && |p| == 64
    ensures p[63] == 24
  {
    PadAt(Abc(), 63);
    SmallLength(24, 7);
  }

  lemma AbcPadded(p: seq<bv8>)
    requires p == Pad(Abc())
    ensures |p| == 64 && p[0] == 0x61 && p[1] == 0x62 && p[2] == 0x63 && p[3] == 0x80
    ensures (forall i :: 4 <= i < 63 ==> p[i] == 0) && p[63] == 24
  {
    AbcSize(p);
    PadAt(Abc(), 0);
    PadAt(Abc(), 1);
    PadAt(Abc(), 2);
    PadAt(Abc(), 3);
    AbcLast(p);
    forall i | 4 <= i < 63
      ensures p[i] == 0
    {
      AbcByte(p, i);
    }
  }

  lemma ZeroWord(block: seq<bv8>, t: nat)
    requires |block| == 64 && t < 16 && forall i :: 4 * t <= i < 4 * t + 4 ==> block[i] == 0
    ensures W(block, t) == 0
  {
    WordIs(block, t, 0, 0, 0, 0);
  }

  /** All words from m up to but not including n are zero. */
  ghost predicate ZeroWords(block: seq<bv8>, m: nat, n: nat)
    requires |block| == 64
  {
    forall t: nat :: m <= t < n ==> W(block, t) == 0
  }

  lemma BlankWords(block: seq<bv8>, m: nat, n: nat)
    requires |block| == 64 && n <= 16 && forall i :: 4 * m <= i < 4 * n ==> block[i] == 0
    ensures ZeroWords(block, m, n)
  {
    forall t: nat | m <= t < n
      ensures W(block, t) == 0
    {
      ZeroWord(block, t);
    }
  }

  lemma ShortWindow(block: seq<bv8>)
    requires |block| == 64 && W(block, 0) == 0x61626380 && ZeroWords(block, 1, 15) && W(block, 15) == 24
    ensures Window(block, 0, Sixteen(
      0x61626380, 0x00000000, 0x00000000, 0x00000000, 0x00000000, 0x00000000, 0x00000000, 0x00000000,
      0x00000000, 0x00000000, 0x00000000, 0x00000000, 0x00000000, 0x00000000, 0x00000000, 0x00000018))
  {
  }

  lemma AbcWords(p: seq<bv8>)
    requires p == Pad(Abc())
    ensures |p| == 64 && W(p, 0) == 0x61626380 && ZeroWords(p, 1, 15) && W(p, 15) == 24
  {
    AbcPadded(p);
    WordIs(p, 0, 0x61, 0x62, 0x63, 0x80);
    BlankWords(p, 1, 15);
    WordIs(p, 15, 0, 0, 0, 24);
  }

  lemma OnlyBlock(block: seq<bv8>)
    requires |block| == 64
    ensures HashBlocks(block) == Compress(INITIAL, block)
  {
    OneBlock([], block);
    assert [] + block == block;
  }

  /** The one-block example: A9993E36 4706816A BA3E2571 7850C26C 9CD0D89D. */
  lemma AbcHash()
    ensures HashBlocks(Pad(Abc())) == Words(0xA9993E36, 0x4706816A, 0xBA3E2571, 0x7850C26C, 0x9CD0D89D)
  {
    var p := Pad(Abc());
    AbcWords(p);
    ShortWindow(p);
    Short(INITIAL, p);
    OnlyBlock(p);
  }

  // ----- the message of 448 bits -----

  /** "abcdbcdecdef...nopq": fourteen groups of four letters, each one letter on. */
  function Groups(): seq<bv8> {
    seq(56, i requires 0 <= i < 56 => Letter(i / 4 + i % 4))
  }

  function Letter(i: nat): bv8 {
    if i == 0 then 0x61 else Letter(i - 1) + 1
  }

  lemma GroupsSize(p: seq<bv8>)
    requires p == Pad(Groups())
    ensures |p| == 128
  {
    assert PadLength(56) == 63;
  }

  lemma GroupsLength(p: seq<bv8>, i: nat)
    requires p == Pad(Groups()) && |p| == 128 && 120 <= i < 128
    ensures p[i] == LengthOnly(i)
  {
    PadAt(Groups(), i);
    SmallLength(448, i - 120);
  }

  lemma GroupsPadded(p: seq<bv8>, i: nat)
    requires p == Pad(Groups()) && i < 128
    ensures |p| == 128 && p[i] == if i < 56 then Groups()[i] else if i == 56 then 0x80 else LengthOnly(i)
  {
    GroupsSize(p);
    if 120 <= i {
      GroupsLength(p, i);
    } else {
      PadAt(Groups(), i);
    }
  }

  function LengthOnly(i: nat): bv8 {
    if i == 126 then 1 else if i == 127 then 0xC0 else 0
  }

  lemma GroupLetter(t: nat, k: nat)
    requires t < 14 && k < 4
    ensures Groups()[4 * t + k] == Letter(t + k)
  {
    assert (4 * t + k) / 4 == t && (4 * t + k) % 4 == k;
  }

  lemma GroupWord(p: seq<bv8>, block: seq<bv8>, t: nat, k: nat)
    requires p == Pad(Groups()) && |block| == 64 && block == p[..64] && t < 14 && k < 4
    ensures block[4 * t + k] == Letter(t + k)
  {
    GroupsPadded(p, 4 * t + k);
    GroupLetter(t, k);
  }

  lemma NextLetters(t: nat, a: bv8)
    requires t < 14 && a == Letter(t)
    ensures Letter(t + 1) == a + 1 && Letter(t + 2) == a + 2 && Letter(t + 3) == a + 3
  {
  }

  lemma GroupIs(p: seq<bv8>, block: seq<bv8>, t: nat, a: bv8, w: bv32)
    requires p == Pad(Groups()) && |block| == 64 && block == p[..64] && t < 14
    requires a == Letter(t) && w == BigEndian(a, a + 1, a + 2, a + 3)
    ensures W(block, t) == w
  {
    NextLetters(t, a);
    GroupWord(p, block, t, 0);
    GroupWord(p, block, t, 1);
    GroupWord(p, block, t, 2);
    GroupWord(p, block, t, 3);
    WordIs(block, t, a, a + 1, a + 2, a + 3);
  }

  lemma GroupsLow(p: seq<bv8>, block: seq<bv8>)
    requires p == Pad(Groups()) && |block| == 64 && block == p[..64]
    ensures W(block, 0) == 0x61626364 && W(block, 1) == 0x62636465 && W(block, 2) == 0x63646566 && W(block, 3) == 0x64656667
    ensures W(block, 4) == 0x65666768 && W(block, 5) == 0x66676869 && W(block, 6) == 0x6768696A
  {
    GroupIs(p, block, 0, 0x61, 0x61626364);
    GroupIs(p, block, 1, 0x62, 0x62636465);
    GroupIs(p, block, 2, 0x63, 0x63646566);
    GroupIs(p, block, 3, 0x64, 0x64656667);
    GroupIs(p, block, 4, 0x65, 0x65666768);
    GroupIs(p, block, 5, 0x66, 0x66676869);
    GroupIs(p, block, 6, 0x67, 0x6768696A);
  }

  lemma GroupsHigh(p: seq<bv8>, block: seq<bv8>)
    requires p == Pad(Groups()) && |block| == 64 && block == p[..64]
    ensures W(block, 7) == 0x68696A6B && W(block, 8) == 0x696A6B6C && W(block, 9) == 0x6A6B6C6D && W(block, 10) == 0x6B6C6D6E
    ensures W(block, 11) == 0x6C6D6E6F && W(block, 12) == 0x6D6E6F70 && W(block, 13) == 0x6E6F7071
  {
    GroupIs(p, block, 7, 0x68, 0x68696A6B);
    GroupIs(p, block, 8, 0x69, 0x696A6B6C);
    GroupIs(p, block, 9, 0x6A, 0x6A6B6C6D);
    GroupIs(p, block, 10, 0x6B, 0x6B6C6D6E);
    GroupIs(p, block, 11, 0x6C, 0x6C6D6E6F);
    GroupIs(p, block, 12, 0x6D, 0x6D6E6F70);
    GroupIs(p, block, 13, 0x6E, 0x6E6F7071);
  }

  lemma GroupsEnd(p: seq<bv8>, block: seq<bv8>)
    requires p == Pad(Groups()) && |block| == 64 && block == p[..64]
    ensures W(block, 14) == 0x80000000 && W(block, 15) == 0
  {
    forall i | 56 <= i < 64
      ensures block[i] == if i == 56 then 0x80 else 0
    {
      GroupsPadded(p, i);
    }
    WordIs(block, 14, 0x80, 0, 0, 0);
    WordIs(block, 15, 0, 0, 0, 0);
  }

  lemma LengthWords(p: seq<bv8>, block: seq<bv8>)
    requires p == Pad(Groups()) && |block| == 64 && |p| == 128 && block == p[64..]
    ensures ZeroWords(block, 0, 15) && W(block, 15) == 448
  {
    forall i | 0 <= i < 64
      ensures block[i] == LengthOnly(i + 64)
    {
      GroupsPadded(p, i + 64);
    }
    BlankWords(block, 0, 15);
    WordIs(block, 15, 0, 0, 1, 0xC0);
  }

  lemma SecondWindow(block: seq<bv8>)
    requires |block| == 64 && ZeroWords(block, 0, 15) && W(block, 15) == 448
    ensures Window(block, 0, Sixteen(
      0x00000000, 0x00000000, 0x00000000, 0x00000000, 0x00000000, 0x00000000, 0x00000000, 0x00000000,
      0x00000000, 0x00000000, 0x00000000, 0x00000000, 0x00000000, 0x00000000, 0x00000000, 0x000001C0))
  {
  }

  lemma FirstBlock(p: seq<bv8>, block: seq<bv8>)
    requires p == Pad(Groups()) && |block| == 64 && block == p[..64]
    ensures Compress(INITIAL, block) == Words(0xF4286818, 0xC37B27AE, 0x0408F581, 0x84677148, 0x4A566572)
  {
    GroupsLow(p, block);
    GroupsHigh(p, block);
    GroupsEnd(p, block);
    assert Window(block, 0, Sixteen(
      0x61626364, 0x62636465, 0x63646566, 0x64656667, 0x65666768, 0x66676869, 0x6768696A, 0x68696A6B,
      0x696A6B6C, 0x6A6B6C6D, 0x6B6C6D6E, 0x6C6D6E6F, 0x6D6E6F70, 0x6E6F7071, 0x80000000, 0x00000000));
    First(INITIAL, block);
  }

  lemma SecondBlock(start: Words, p: seq<bv8>, block: seq<bv8>)
    requires start == Words(0xF4286818, 0xC37B27AE, 0x0408F581, 0x84677148, 0x4A566572)
    requires p == Pad(Groups()) && |block| == 64 && |p| == 128 && block == p[64..]
    ensures Compress(start, block) == Words(0x84983E44, 0x1C3BD26E, 0xBAAE4AA1, 0xF95129E5, 0xE54670F1)
  {
    LengthWords(p, block);
    SecondWindow(block);
    Second(start, block);
  }

  /** The two-block example: 84983E44 1C3BD26E BAAE4AA1 F95129E5 E54670F1. */
  lemma GroupsHash()
    ensures HashBlocks(Pad(Groups())) == Words(0x84983E44, 0x1C3BD26E, 0xBAAE4AA1, 0xF95129E5, 0xE54670F1)
  {
    var p := Pad(Groups());
    GroupsPadded(p, 0);
    var first, second := p[..64], p[64..];
    FirstBlock(p, first);
    SecondBlock(Compress(INITIAL, first), p, second);
    OnlyBlock(first);
    OneBlock(first, second);
    assert first + second == p;
  }

  // ----- the digests as bytes -----

  function WordBytes(w: bv32): seq<bv8> {
    [ByteOf(w, 0), ByteOf(w, 1), ByteOf(w, 2), ByteOf(w, 3)]
  }

  lemma DigestByte(h: Words, j: nat, k: nat, w: bv32)
    requires j < 5 && k < 4 && w == WordAt(h, j)
    ensures DigestOf(h)[4 * j + k] == ByteOf(w, k)
  {
    assert (4 * j + k) / 4 == j && (4 * j + k) % 4 == k;
  }

  lemma DigestFour(h: Words, j: nat, w: bv32, i: nat, x: bv8, y: bv8, z: bv8, v: bv8)
    requires j < 5 && i == 4 * j && w == WordAt(h, j)
    requires x == ByteOf(w, 0) && y == ByteOf(w, 1) && z == ByteOf(w, 2) && v == ByteOf(w, 3)
    ensures DigestOf(h)[i..i + 4] == [x, y, z, v]
  {
    DigestByte(h, j, 0, w);
    DigestByte(h, j, 1, w);
    DigestByte(h, j, 2, w);
    DigestByte(h, j, 3, w);
    FourIs(DigestOf(h), i, x, y, z, v);
  }

  lemma DigestWord(h: Words, j: nat, w: bv32)
    requires j < 5 && w == WordAt(h, j)
    ensures DigestOf(h)[4 * j..4 * j + 4] == WordBytes(w)
  {
    DigestFour(h, j, w, 4 * j, ByteOf(w, 0), ByteOf(w, 1), ByteOf(w, 2), ByteOf(w, 3));
  }

  lemma FourIs<T>(s: seq<T>, i: nat, x: T, y: T, z: T, v: T)
    requires i + 4 <= |s| && s[i] == x && s[i + 1] == y && s[i + 2] == z && s[i + 3] == v
    ensures s[i..i + 4] == [x, y, z, v]
  {
  }

  lemma FiveParts<T>(s: seq<T>)
    requires |s| == 20
    ensures s == s[0..4] + s[4..8] + s[8..12] + s[12..16] + s[16..20]
  {
  }

  lemma DigestByWords(h: Words)
    ensures DigestOf(h) == WordBytes(h.a) + WordBytes(h.b) + WordBytes(h.c) + WordBytes(h.d) + WordBytes(h.e)
  {
    DigestWord(h, 0, h.a);
    DigestWord(h, 1, h.b);
    DigestWord(h, 2, h.c);
    DigestWord(h, 3, h.d);
    DigestWord(h, 4, h.e);
    FiveParts(DigestOf(h));
  }

  lemma WordBytesAre(w: bv32, b0: bv8, b1: bv8, b2: bv8, b3: bv8)
    requires BigEndian(b0, b1, b2, b3) == w
    ensures WordBytes(w) == [b0, b1, b2, b3]
  {
  }

  /** The digest of "abc", byte for byte. */
  lemma AbcDigest()
    ensures Digest(Abc()) == [0xA9, 0x99, 0x3E, 0x36] + [0x47, 0x06, 0x81, 0x6A] + [0xBA, 0x3E, 0x25, 0x71]
                             + [0x78, 0x50, 0xC2, 0x6C] + [0x9C, 0xD0, 0xD8, 0x9D]
  {
    AbcHash();
    DigestByWords(Words(0xA9993E36, 0x4706816A, 0xBA3E2571, 0x7850C26C, 0x9CD0D89D));
    WordBytesAre(0xA9993E36, 0xA9, 0x99, 0x3E, 0x36);
    WordBytesAre(0x4706816A, 0x47, 0x06, 0x81, 0x6A);
    WordBytesAre(0xBA3E2571, 0xBA, 0x3E, 0x25, 0x71);
    WordBytesAre(0x7850C26C, 0x78, 0x50, 0xC2, 0x6C);
    WordBytesAre(0x9CD0D89D, 0x9C, 0xD0, 0xD8, 0x9D);
  }

  /** The digest of the message of 448 bits, byte for byte. */
  lemma GroupsDigest()
    ensures Digest(Groups()) == [0x84, 0x98, 0x3E, 0x44] + [0x1C, 0x3B, 0xD2, 0x6E] + [0xBA, 0xAE, 0x4A, 0xA1]
                                + [0xF9, 0x51, 0x29, 0xE5] + [0xE5, 0x46, 0x70, 0xF1]
  {
    GroupsHash();
    DigestByWords(Words(0x84983E44, 0x1C3BD26E, 0xBAAE4AA1, 0xF95129E5, 0xE54670F1));
    WordBytesAre(0x84983E44, 0x84, 0x98, 0x3E, 0x44);
    WordBytesAre(0x1C3BD26E, 0x1C, 0x3B, 0xD2, 0x6E);
    WordBytesAre(0xBAAE4AA1, 0xBA, 0xAE, 0x4A, 0xA1);
    WordBytesAre(0xF95129E5, 0xF9, 0x51, 0x29, 0xE5);
    WordBytesAre(0xE54670F1, 0xE5, 0x46, 0x70, 0xF1);
  }
}
