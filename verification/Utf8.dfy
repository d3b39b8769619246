/** Which byte strings are UTF-8: exactly the encodings of sequences of Unicode scalar values (section 3 of RFC 3629). */
module Utf8 {
  import opened Bytes

  /** Code points up to 10FFFF, but for the surrogates. */
  predicate IsScalar(c: nat) { c < 0xD800 || 0xE000 <= c <= 0x10_FFFF }

  function EncodeScalar(c: nat): Bytes
    requires IsScalar(c)
  {
    if c < 0x80 then [c]
    else if c < 0x800 then [0xC0 + c / 0x40, 0x80 + c % 0x40]
    else if c < 0x1_0000 then [0xE0 + c / 0x1000, 0x80 + c / 0x40 % 0x40, 0x80 + c % 0x40]
    else [0xF0 + c / 0x4_0000, 0x80 + c / 0x1000 % 0x40, 0x80 + c / 0x40 % 0x40, 0x80 + c % 0x40]
  }

  predicate AllScalars(cs: seq<nat>) { forall c :: c in cs ==> IsScalar(c) }

  function EncodeText(cs: seq<nat>): Bytes
    requires AllScalars(cs)
  {
    if cs == [] then [] else EncodeScalar(cs[0]) + EncodeText(cs[1..])
  }

  lemma ScalarIsValid(c: nat, t: Bytes)
    requires IsScalar(c)
    ensures ValidUtf8(EncodeScalar(c) + t) == ValidUtf8(t)
  {
    var b := EncodeScalar(c) + t;
    assert b[|EncodeScalar(c)|..] == t;
    if 0x800 <= c < 0x1_0000 {
      ThreeBytes(c);
    } else if c >= 0x1_0000 {
      FourBytes(c);
    }
  }

  lemma ThreeBytes(c: nat)
    requires 0x800 <= c < 0x1_0000 && IsScalar(c)
    ensures c / 0x1000 == 0 ==> c / 0x40 % 0x40 >= 0x20
    ensures c / 0x1000 == 0xD ==> c / 0x40 % 0x40 <= 0x1F
  {
    assert c / 0x40 == 0x40 * (c / 0x1000) + c / 0x40 % 0x40;
  }

  lemma FourBytes(c: nat)
    requires 0x1_0000 <= c <= 0x10_FFFF
    ensures c / 0x4_0000 == 0 ==> c / 0x1000 % 0x40 >= 0x10
    ensures c / 0x4_0000 == 4 ==> c / 0x1000 % 0x40 <= 0x0F
  {
    assert c / 0x1000 == 0x40 * (c / 0x4_0000) + c / 0x1000 % 0x40;
  }

  lemma {:induction false} TextIsValid(cs: seq<nat>)
    requires AllScalars(cs)
    ensures ValidUtf8(EncodeText(cs))
  {
    if cs != [] {
      assert cs[0] in cs;
      TextIsValid(cs[1..]);
      ScalarIsValid(cs[0], EncodeText(cs[1..]));
    }
  }

  lemma Digits(high: nat, low: nat)
    requires low < 0x40
    ensures (high * 0x40 + low) / 0x40 == high && (high * 0x40 + low) % 0x40 == low
  {
  }

  lemma ThreeDigits(high: nat, mid: nat, low: nat)
    requires mid < 0x40 && low < 0x40
    ensures var c := high * 0x1000 + mid * 0x40 + low;
      c % 0x40 == low && c / 0x40 % 0x40 == mid && c / 0x1000 == high
  {
    Digits(high * 0x40 + mid, low);
    Digits(high, mid);
  }

  lemma FourDigits(high: nat, next: nat, mid: nat, low: nat)
    requires next < 0x40 && mid < 0x40 && low < 0x40
    ensures var c := high * 0x4_0000 + next * 0x1000 + mid * 0x40 + low;
      c % 0x40 == low && c / 0x40 % 0x40 == mid && c / 0x1000 % 0x40 == next && c / 0x4_0000 == high
  {
    ThreeDigits(high * 0x40 + next, mid, low);
    Digits(high, next);
  }

  /** The first scalar value of a valid text. */
  lemma FirstScalar(b: Bytes) returns (c: nat, rest: Bytes)
    requires ValidUtf8(b) && b != []
    ensures IsScalar(c) && b == EncodeScalar(c) + rest && ValidUtf8(rest) && |rest| < |b|
  {
    if b[0] <= 0x7F {
      c, rest := b[0], b[1..];
    } else if b[0] <= 0xDF {
      c, rest := (b[0] as int - 0xC0) * 0x40 + (b[1] as int - 0x80), b[2..];
      Digits(b[0] as int - 0xC0, b[1] as int - 0x80);
    } else if b[0] <= 0xEF {
      c := FirstOfThree(b);
      rest := b[3..];
    } else {
      c := FirstOfFour(b);
      rest := b[4..];
    }
  }

  lemma FirstOfThree(b: Bytes) returns (c: nat)
    requires ValidUtf8(b) && b != [] && 0xE0 <= b[0] <= 0xEF
    ensures |b| >= 3 && IsScalar(c) && EncodeScalar(c) == b[..3] && ValidUtf8(b[3..])
  {
    var high, mid, low := b[0] as int - 0xE0, b[1] as int - 0x80, b[2] as int - 0x80;
    c := high * 0x1000 + mid * 0x40 + low;
    ThreeDigits(high, mid, low);
  }

  lemma FirstOfFour(b: Bytes) returns (c: nat)
    requires ValidUtf8(b) && b != [] && b[0] >= 0xF0
    ensures |b| >= 4 && IsScalar(c) && EncodeScalar(c) == b[..4] && ValidUtf8(b[4..])
  {
    var high, next, mid, low := b[0] as int - 0xF0, b[1] as int - 0x80, b[2] as int - 0x80, b[3] as int - 0x80;
    c := high * 0x4_0000 + next * 0x1000 + mid * 0x40 + low;
    FourDigits(high, next, mid, low);
  }

  lemma {:induction false} ValidIsText(b: Bytes) returns (cs: seq<nat>)
    requires ValidUtf8(b)
    ensures AllScalars(cs) && EncodeText(cs) == b
    decreases |b|
  {
    if b == [] {
      cs := [];
    } else {
      var c, rest := FirstScalar(b);
      var more := ValidIsText(rest);
      cs := [c] + more;
    }
  }

  /** A byte string is accepted iff it is the encoding of some scalar values. */
  lemma ValidExactly(b: Bytes)
    ensures ValidUtf8(b) <==> exists cs :: AllScalars(cs) && EncodeText(cs) == b
  {
    if ValidUtf8(b) { var cs := ValidIsText(b); }
    if cs :| AllScalars(cs) && EncodeText(cs) == b { TextIsValid(cs); }
  }
}
