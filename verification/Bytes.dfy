/** Big-endian and little-endian fields of byte strings. */
module Bytes {
  import opened Powers

  type byte = x: int | 0 <= x < 0x100

  /** Bytes without a NUL, as a C string holds them. */
  predicate CString(s: seq<byte>) {
    forall i :: 0 <= i < |s| ==> s[i] != 0
  }

  /** The bytes of a text in ASCII. */
  function Ascii(text: string): (s: seq<byte>)
    requires forall i :: 0 <= i < |text| ==> text[i] < 128 as char
    ensures |s| == |text| && forall i :: 0 <= i < |s| ==> s[i] == text[i] as int
  {
    seq(|text|, i requires 0 <= i < |text| => text[i] as int)
  }

  /** The k low bytes of n in two's complement, most significant first. */
  function BigEndian(n: int, k: nat): (s: seq<byte>)
    ensures |s| == k
    decreases k
  {
    if k == 0 then [] else BigEndian(n / 256, k - 1) + [n % 256]
  }

  function FromBigEndian(s: seq<byte>): nat {
    if s == [] then 0 else 256 * FromBigEndian(s[..|s| - 1]) + s[|s| - 1]
  }

  lemma ModulusSplit(n: int, p: nat)
    requires 0 < p && 0 < 256 * p
    ensures 256 * (n / 256 % p) + n % 256 == n % (256 * p)
  {
    var q, r := n / 256, n % 256;
    var t, u := q / p, q % p;
    assert 256 * (p * t) == 256 * p * t;
    assert n == 256 * p * t + (256 * u + r);
    MulMonotone(u + 1, p, 256);
    DivisionIs(n, 256 * p, t, 256 * u + r);
  }

  /** Reading the field back gives n modulo the size of the field. */
  lemma {:induction false} BigEndianValue(n: int, k: nat)
    decreases k
    ensures 0 < Pow(256, k) && FromBigEndian(BigEndian(n, k)) == n % Pow(256, k)
  {
    PowPositive(256, k);
    if k != 0 {
      BigEndianValue(n / 256, k - 1);
      var s := BigEndian(n, k);
      assert s[..|s| - 1] == BigEndian(n / 256, k - 1);
      ModulusSplit(n, Pow(256, k - 1));
    }
  }

  lemma {:induction false} FieldRange(s: seq<byte>)
    ensures FromBigEndian(s) < Pow(256, |s|)
  {
    if s != [] {
      FieldRange(s[..|s| - 1]);
    }
  }

  lemma FieldSizes()
    ensures Pow(256, 1) == 0x100 && Pow(256, 2) == 0x1_0000 && Pow(256, 4) == 0x1_0000_0000 && Pow(256, 8) == TWO64
  {
    assert Pow(256, 4) == 0x1_0000_0000;
    PowAdd(256, 4, 4);
  }

  /** Two's complement: the field as a signed number. */
  function Signed(u: nat, size: nat): int {
    if 2 * u < size then u else u - size
  }
}
