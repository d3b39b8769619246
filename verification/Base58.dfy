/**
Base58 texts of byte strings, as their bytes: a '1' for every leading zero byte, and then the digits of
the number that the bytes write with the most significant first.
*/
module Base58 {
  import opened Bytes

  const ONE: byte := '1' as int

  /** The 58 letters and digits that cannot be mistaken for one another. */
  function Digit(i: nat): (c: byte)
    requires i < 58
  {
    if i < 9 then ONE + i
    else if i < 17 then 'A' as int + (i - 9)
    else if i < 22 then 'J' as int + (i - 17)
    else if i < 33 then 'P' as int + (i - 22)
    else if i < 44 then 'a' as int + (i - 33)
    else 'm' as int + (i - 44)
  }

  function DigitValue(c: byte): int {
    if c <= '9' as int then c - '1' as int
    else if c <= 'H' as int then c - 'A' as int + 9
    else if c <= 'N' as int then c - 'J' as int + 17
    else if c <= 'Z' as int then c - 'P' as int + 22
    else if c <= 'k' as int then c - 'a' as int + 33
    else c - 'm' as int + 44
  }

  lemma DigitBack(i: nat)
    requires i < 58
    ensures DigitValue(Digit(i)) == i
  {
  }

  /** The digits 1 to 9, the capitals but for I and O, and the small letters but for l, in order. */
  lemma Alphabet(i: nat)
    requires i < 57
    ensures Digit(0) == '1' as int && Digit(9) == 'A' as int && Digit(33) == 'a' as int && Digit(57) == 'z' as int
    ensures Digit(i) == '9' as int ==> Digit(i + 1) == 'A' as int
    ensures Digit(i) == 'Z' as int ==> Digit(i + 1) == 'a' as int
    ensures Digit(i) == 'H' as int || Digit(i) == 'N' as int || Digit(i) == 'k' as int ==> Digit(i + 1) == Digit(i) + 2
    ensures Digit(i) !in {'9' as int, 'Z' as int, 'H' as int, 'N' as int, 'k' as int} ==> Digit(i + 1) == Digit(i) + 1
  {
  }

  function BigEndian(b: Bytes): nat {
    if b == [] then 0 else BigEndian(b[..|b| - 1]) * 256 + b[|b| - 1]
  }

  function Digits(n: nat): Bytes {
    if n == 0 then [] else Digits(n / 58) + [Digit(n % 58)]
  }

  function Ones(b: Bytes): (t: Bytes) {
    if b != [] && b[0] == 0 then [ONE] + Ones(b[1..]) else []
  }

  function Encode(b: Bytes): Bytes { Ones(b) + Digits(BigEndian(b)) }

  /** The number that a text writes; leading ones do not change it. */
  function Number(t: Bytes): int {
    if t == [] then 0 else Number(t[..|t| - 1]) * 58 + DigitValue(t[|t| - 1])
  }

  lemma {:induction false} NumberAfterOnes(b: Bytes, t: Bytes)
    ensures Number(Ones(b) + t) == Number(t)
  {
    if t == [] {
      OnesAreZero(b);
      assert Ones(b) + t == Ones(b);
    } else {
      assert (Ones(b) + t)[..|Ones(b) + t| - 1] == Ones(b) + t[..|t| - 1];
      NumberAfterOnes(b, t[..|t| - 1]);
    }
  }

  lemma {:induction false} OnesAreZero(b: Bytes)
    ensures Number(Ones(b)) == 0
  {
    if b != [] && b[0] == 0 {
      OnesAreZero(b[1..]);
      FirstOne(Ones(b[1..]));
    }
  }

  lemma {:induction false} FirstOne(t: Bytes)
    ensures Number([ONE] + t) == Number(t)
  {
    if t == [] {
      assert [ONE] + t == [ONE];
    } else {
      assert ([ONE] + t)[..|t|] == [ONE] + t[..|t| - 1];
      FirstOne(t[..|t| - 1]);
    }
  }

  lemma {:induction false} NumberOfDigits(n: nat)
    ensures Number(Digits(n)) == n
  {
    if n > 0 {
      NumberOfDigits(n / 58);
      DigitBack(n % 58);
      assert Digits(n)[..|Digits(n)| - 1] == Digits(n / 58);
    }
  }

  lemma {:induction false} BigEndianInjective(a: Bytes, b: Bytes)
    requires |a| == |b| && BigEndian(a) == BigEndian(b)
    ensures a == b
  {
    if a != [] {
      var n := |a| - 1;
      var x, y := BigEndian(a[..n]), BigEndian(b[..n]);
      assert x == (x * 256 + a[n]) / 256 && y == (y * 256 + b[n]) / 256;
      BigEndianInjective(a[..n], b[..n]);
      assert a == a[..n] + [a[n]] && b == b[..n] + [b[n]];
    }
  }

  /** Byte strings of one length have distinct texts. */
  lemma Injective(a: Bytes, b: Bytes)
    requires |a| == |b| && Encode(a) == Encode(b)
    ensures a == b
  {
    NumberAfterOnes(a, Digits(BigEndian(a)));
    NumberAfterOnes(b, Digits(BigEndian(b)));
    NumberOfDigits(BigEndian(a));
    NumberOfDigits(BigEndian(b));
    BigEndianInjective(a, b);
  }

  /** The text of a byte string: a one for every leading zero byte, and then no other; it writes the number that the bytes write. */
  lemma {:induction false} Writes(b: Bytes, zeros: nat)
    requires zeros <= |b| && (forall i :: 0 <= i < zeros ==> b[i] == 0) && (zeros < |b| ==> b[zeros] != 0)
    ensures var t := Encode(b);
      && Number(t) == BigEndian(b)
      && zeros <= |t| && (forall i :: 0 <= i < zeros ==> t[i] == ONE) && (zeros < |t| ==> t[zeros] != ONE)
  {
    NumberAfterOnes(b, Digits(BigEndian(b)));
    NumberOfDigits(BigEndian(b));
    OnesOf(b, zeros);
    if BigEndian(b) > 0 { NoLeadingOne(BigEndian(b)); }
  }

  lemma {:induction false} OnesOf(b: Bytes, zeros: nat)
    requires zeros <= |b| && (forall i :: 0 <= i < zeros ==> b[i] == 0) && (zeros < |b| ==> b[zeros] != 0)
    ensures Ones(b) == Repeated(ONE, zeros)
  {
    if zeros > 0 {
      OnesOf(b[1..], zeros - 1);
      assert [ONE] + Repeated(ONE, zeros - 1) == Repeated(ONE, zeros);
    }
  }

  lemma {:induction false} NoLeadingOne(n: nat)
    requires n > 0
    ensures Digits(n) != [] && Digits(n)[0] != ONE
  {
    if n >= 58 {
      NoLeadingOne(n / 58);
    } else {
      assert n / 58 == 0 && n % 58 == n && Digits(0) == [];
    }
  }

  function Repeated(x: byte, n: nat): (b: Bytes)
    ensures |b| == n && forall i :: 0 <= i < n ==> b[i] == x
  {
    seq(n, _ => x)
  }

  /** n zero bytes are written as n ones. */
  lemma {:induction false} ZerosAreOnes(n: nat)
    ensures Encode(Repeated(0, n)) == Repeated(ONE, n)
  {
    ZeroNumber(n);
    ZeroOnes(n);
    assert Ones(Repeated(0, n)) + [] == Ones(Repeated(0, n));
  }

  lemma {:induction false} ZeroNumber(n: nat)
    ensures BigEndian(Repeated(0, n)) == 0
  {
    if n > 0 {
      assert Repeated(0, n)[..n - 1] == Repeated(0, n - 1);
      ZeroNumber(n - 1);
    }
  }

  lemma {:induction false} ZeroOnes(n: nat)
    ensures Ones(Repeated(0, n)) == Repeated(ONE, n)
  {
    if n > 0 {
      assert Repeated(0, n)[1..] == Repeated(0, n - 1);
      ZeroOnes(n - 1);
      assert [ONE] + Repeated(ONE, n - 1) == Repeated(ONE, n);
    }
  }
}
