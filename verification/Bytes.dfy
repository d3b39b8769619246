/** Bytes, little-endian numbers and UTF-8 validity. */
module Bytes {

  type byte = x: int | 0 <= x < 256

  type Bytes = seq<byte>

  function Pow256(w: nat): (p: nat)
    ensures p > 0
  {
    if w == 0 then 1 else 256 * Pow256(w - 1)
  }

  /** The w low bytes of n, least significant first. */
  function ToLE(n: nat, w: nat): (b: Bytes)
    ensures |b| == w
  {
    if w == 0 then [] else [n % 256] + ToLE(n / 256, w - 1)
  }

  function FromLE(b: Bytes): (n: nat)
    ensures n < Pow256(|b|)
  {
    if b == [] then 0 else b[0] + 256 * FromLE(b[1..])
  }

  lemma {:induction false} FromToLE(n: nat, w: nat)
    requires n < Pow256(w)
    ensures FromLE(ToLE(n, w)) == n
  {
    if w > 0 {
      FromToLE(n / 256, w - 1);
      assert ToLE(n, w)[1..] == ToLE(n / 256, w - 1);
    }
  }

  lemma {:induction false} ToFromLE(b: Bytes)
    ensures ToLE(FromLE(b), |b|) == b
  {
    if b != [] {
      var high := FromLE(b[1..]);
      ToFromLE(b[1..]);
      assert (b[0] + 256 * high) % 256 == b[0] && (b[0] + 256 * high) / 256 == high;
    }
  }

  /** The number that 1, 2, 4 or 8 bytes write, the least significant first. */
  function NumberOf(b: Bytes): int
    requires |b| in {1, 2, 4, 8}
  {
    if |b| == 1 then Bytes1(b) else if |b| == 2 then Bytes2(b) else if |b| == 4 then Bytes4(b)
    else Bytes4(b) + 0x1_0000_0000 * Bytes4(b[4..])
  }

  function Bytes1(b: Bytes): int
    requires |b| >= 1
  {
    b[0]
  }

  function Bytes2(b: Bytes): int
    requires |b| >= 2
  {
    b[0] as int + 0x100 * b[1] as int
  }

  function Bytes4(b: Bytes): int
    requires |b| >= 4
  {
    b[0] as int + 0x100 * b[1] as int + 0x1_0000 * b[2] as int + 0x100_0000 * b[3] as int
  }

  lemma PairFirst(b: Bytes)
    requires |b| >= 2
    ensures FromLE(b) == Bytes2(b) + 0x1_0000 * FromLE(b[2..])
  {
    assert FromLE(b) == b[0] as int + 256 * FromLE(b[1..]);
    assert b[1..][1..] == b[2..];
  }

  lemma QuadFirst(b: Bytes)
    requires |b| >= 4
    ensures FromLE(b) == Bytes4(b) + 0x1_0000_0000 * FromLE(b[4..])
  {
    PairFirst(b);
    PairFirst(b[2..]);
    assert b[2..][2..] == b[4..] && b[2..][0] == b[2] && b[2..][1] == b[3];
  }

  lemma NumberIs(b: Bytes)
    requires |b| in {1, 2, 4, 8}
    ensures FromLE(b) == NumberOf(b)
  {
    if |b| == 1 {
      assert b[1..] == [];
    } else if |b| == 2 {
      PairFirst(b);
    } else {
      QuadFirst(b);
      if |b| == 8 { QuadFirst(b[4..]); }
    }
  }

  /** A number below 256^w is written in w bytes, the least significant first. */
  lemma LittleEndian(n: nat, w: nat)
    requires w in {1, 2, 4, 8} && n < Pow256(w)
    ensures NumberOf(ToLE(n, w)) == n
  {
    FromToLE(n, w);
    NumberIs(ToLE(n, w));
  }

  const TWO_63 := 0x8000_0000_0000_0000
  const TWO_64 := 0x1_0000_0000_0000_0000

  lemma Widths()
    ensures Pow256(1) == 0x100 && Pow256(2) == 0x1_0000
    ensures Pow256(4) == 0x1_0000_0000 && Pow256(8) == TWO_64
  {
    assert Pow256(0) == 1;
    assert Pow256(1) == 256;
    assert Pow256(2) == 256 * Pow256(1);
    assert Pow256(3) == 256 * Pow256(2);
    assert Pow256(4) == 256 * Pow256(3);
    assert Pow256(5) == 256 * Pow256(4);
    assert Pow256(6) == 256 * Pow256(5);
    assert Pow256(7) == 256 * Pow256(6);
    assert Pow256(8) == 256 * Pow256(7);
  }

  /** Two's complement in 64 bits. */
  function ToSigned(u: nat): int { if u < TWO_63 then u else u - TWO_64 }

  function ToUnsigned(i: int): (u: nat)
    requires -TWO_63 <= i < TWO_63
  {
    if 0 <= i then i else i + TWO_64
  }

  predicate Tail(b: byte) { 0x80 <= b <= 0xBF }

  /** Well-formed UTF-8 (section 4 of RFC 3629). */
  predicate ValidUtf8(b: Bytes) {
    if b == [] then true
    else if b[0] <= 0x7F then ValidUtf8(b[1..])
    else if 0xC2 <= b[0] <= 0xDF then |b| >= 2 && Tail(b[1]) && ValidUtf8(b[2..])
    else if 0xE0 <= b[0] <= 0xEF then
      && |b| >= 3 && Tail(b[1]) && Tail(b[2])
      && (b[0] == 0xE0 ==> b[1] >= 0xA0) && (b[0] == 0xED ==> b[1] <= 0x9F)
      && ValidUtf8(b[3..])
    else if 0xF0 <= b[0] <= 0xF4 then
      && |b| >= 4 && Tail(b[1]) && Tail(b[2]) && Tail(b[3])
      && (b[0] == 0xF0 ==> b[1] >= 0x90) && (b[0] == 0xF4 ==> b[1] <= 0x8F)
      && ValidUtf8(b[4..])
    else false
  }
}
