/**
Base64 with the standard alphabet and no padding (sections 4 and 3.2 of RFC 4648).  The decoder is
strict: a length of 1 modulo 4, a character outside the alphabet or a non-zero trailing bit (section
3.5) is an error.
*/
module Base64 {
  import opened Bytes

  datatype Option<T> = None | Some(value: T)

  type sextet = x: int | 0 <= x < 64

  function Digit(i: sextet): (c: char)
    ensures InAlphabet(c) && DigitValue(c) == i
  {
    if i < 26 then 'A' + i as char
    else if i < 52 then 'a' + (i - 26) as char
    else if i < 62 then '0' + (i - 52) as char
    else if i == 62 then '+'
    else '/'
  }

  predicate InAlphabet(c: char) {
    'A' <= c <= 'Z' || 'a' <= c <= 'z' || '0' <= c <= '9' || c == '+' || c == '/'
  }

  function DigitValue(c: char): sextet
    requires InAlphabet(c)
  {
    if 'A' <= c <= 'Z' then (c - 'A') as int
    else if 'a' <= c <= 'z' then (c - 'a') as int + 26
    else if '0' <= c <= '9' then (c - '0') as int + 52
    else if c == '+' then 62
    else 63
  }

  lemma DigitOfValue(c: char)
    requires InAlphabet(c)
    ensures Digit(DigitValue(c)) == c
  {
  }

  /** The sextets of a three-byte block, by the bytes that share them. */
  function Sextet0(b0: byte): sextet { b0 / 4 }

  function Sextet1(b0: byte, b1: byte): sextet { b0 % 4 * 16 + b1 / 16 }

  function Sextet2(b1: byte, b2: byte): sextet { b1 % 16 * 4 + b2 / 64 }

  function Sextet3(b2: byte): sextet { b2 % 64 }

  function EncodeSextets(b: Bytes): (s: seq<sextet>) {
    if b == [] then []
    else if |b| == 1 then [Sextet0(b[0]), Sextet1(b[0], 0)]
    else if |b| == 2 then [Sextet0(b[0]), Sextet1(b[0], b[1]), Sextet2(b[1], 0)]
    else [Sextet0(b[0]), Sextet1(b[0], b[1]), Sextet2(b[1], b[2]), Sextet3(b[2])] + EncodeSextets(b[3..])
  }

  /** The bytes that two neighbouring sextets share. */
  function First(v0: sextet, v1: sextet): byte { v0 as int * 4 + v1 as int / 16 }

  function Second(v1: sextet, v2: sextet): byte { v1 as int % 16 * 16 + v2 as int / 4 }

  function Third(v2: sextet, v3: sextet): byte { v2 as int % 4 * 64 + v3 as int }

  function DecodeSextets(s: seq<sextet>): Option<Bytes> {
    if s == [] then Some([])
    else if |s| == 1 then None
    else if |s| == 2 then
      if s[1] as int % 16 != 0 then None else Some([First(s[0], s[1])])
    else if |s| == 3 then
      if s[2] as int % 4 != 0 then None else Some([First(s[0], s[1]), Second(s[1], s[2])])
    else
      match DecodeSextets(s[4..])
      case None => None
      case Some(rest) => Some([First(s[0], s[1]), Second(s[1], s[2]), Third(s[2], s[3])] + rest)
  }

  function Text(s: seq<sextet>): (t: string)
    ensures |t| == |s| && forall c :: c in t ==> InAlphabet(c)
  {
    if s == [] then [] else [Digit(s[0])] + Text(s[1..])
  }

  predicate AllInAlphabet(t: string) {
    t == [] || (InAlphabet(t[0]) && AllInAlphabet(t[1..]))
  }

  function Values(t: string): (s: seq<sextet>)
    requires AllInAlphabet(t)
    ensures |s| == |t|
  {
    if t == [] then [] else [DigitValue(t[0])] + Values(t[1..])
  }

  function Encode(b: Bytes): (t: string)
    ensures forall c :: c in t ==> InAlphabet(c)
  {
    Text(EncodeSextets(b))
  }

  function Decode(t: string): Option<Bytes> {
    if AllInAlphabet(t) then DecodeSextets(Values(t)) else None
  }

  lemma BlockDecodes(b0: byte, b1: byte, b2: byte)
    ensures First(Sextet0(b0), Sextet1(b0, b1)) == b0
    ensures Second(Sextet1(b0, b1), Sextet2(b1, b2)) == b1
    ensures Third(Sextet2(b1, b2), Sextet3(b2)) == b2
    ensures Sextet1(b0, 0) as int % 16 == 0 && Sextet2(b1, 0) as int % 4 == 0
  {
    assert Sextet1(b0, b1) as int / 16 == b0 % 4 && Sextet1(b0, b1) as int % 16 == b1 / 16;
    assert Sextet2(b1, b2) as int / 4 == b1 % 16 && Sextet2(b1, b2) as int % 4 == b2 / 64;
  }

  lemma BlockEncodes(v0: sextet, v1: sextet, v2: sextet, v3: sextet)
    ensures Sextet0(First(v0, v1)) == v0
    ensures Sextet1(First(v0, v1), Second(v1, v2)) == v1
    ensures Sextet2(Second(v1, v2), Third(v2, v3)) == v2
    ensures Sextet3(Third(v2, v3)) == v3
    ensures v1 as int % 16 == 0 ==> Sextet1(First(v0, v1), 0) == v1
    ensures v2 as int % 4 == 0 ==> Sextet2(Second(v1, v2), 0) == v2
  {
    assert First(v0, v1) as int / 4 == v0 && First(v0, v1) as int % 4 == v1 as int / 16;
    assert Second(v1, v2) as int / 16 == v1 as int % 16 && Second(v1, v2) as int % 16 == v2 as int / 4;
    assert Third(v2, v3) as int / 64 == v2 as int % 4 && Third(v2, v3) as int % 64 == v3;
  }

  lemma {:induction false} SextetsRoundTrip(b: Bytes)
    ensures DecodeSextets(EncodeSextets(b)) == Some(b)
  {
    hide Sextet0, Sextet1, Sextet2, Sextet3, First, Second, Third;
    if b != [] {
      var b1, b2 := if |b| > 1 then b[1] else 0, if |b| > 2 then b[2] else 0;
      BlockDecodes(b[0], b1, b2);
      if |b| >= 3 {
        SextetsRoundTrip(b[3..]);
        assert EncodeSextets(b)[4..] == EncodeSextets(b[3..]);
        assert b == [b[0], b[1], b[2]] + b[3..];
      } else {
        assert b == if |b| == 1 then [b[0]] else [b[0], b[1]];
      }
    }
  }

  lemma {:induction false} SextetsCanonical(s: seq<sextet>)
    requires DecodeSextets(s).Some?
    ensures EncodeSextets(DecodeSextets(s).value) == s
  {
    hide Sextet0, Sextet1, Sextet2, Sextet3, First, Second, Third;
    if |s| >= 2 {
      var v2, v3 := if |s| > 2 then s[2] else 0, if |s| > 3 then s[3] else 0;
      BlockEncodes(s[0], s[1], v2, v3);
      if |s| >= 4 {
        SextetsCanonical(s[4..]);
        assert DecodeSextets(s).value[3..] == DecodeSextets(s[4..]).value;
        assert s == [s[0], s[1], s[2], s[3]] + s[4..];
      }
    }
  }

  lemma {:induction false} ValuesOfText(s: seq<sextet>)
    ensures AllInAlphabet(Text(s)) && Values(Text(s)) == s
  {
    if s != [] {
      ValuesOfText(s[1..]);
      assert Text(s)[1..] == Text(s[1..]);
    }
  }

  lemma {:induction false} TextOfValues(t: string)
    requires AllInAlphabet(t)
    ensures Text(Values(t)) == t
  {
    if t != [] {
      TextOfValues(t[1..]);
      DigitOfValue(t[0]);
      assert Values(t)[1..] == Values(t[1..]);
    }
  }

  /** A text is accepted, as these bytes, exactly when it is the encoding of them. */
  lemma DecodesExactly(t: string, b: Bytes)
    ensures Decode(t) == Some(b) <==> t == Encode(b)
  {
    if Decode(t) == Some(b) {
      SextetsCanonical(Values(t));
      TextOfValues(t);
    }
    if t == Encode(b) {
      SextetsRoundTrip(b);
      ValuesOfText(EncodeSextets(b));
    }
  }

  // ----- the encoding written out -----

  /** Table 1 of RFC 4648: capitals, small letters, digits, plus and slash. */
  lemma Alphabet(i: sextet)
    ensures Digit(0) == 'A' && Digit(26) == 'a' && Digit(52) == '0' && Digit(62) == '+' && Digit(63) == '/'
    ensures i < 61 && i != 25 && i != 51 ==> Digit(i + 1) as int == Digit(i) as int + 1
  {
  }

  /**
  Three bytes are four digits that write their 24 bits, and what follows is encoded on its own; two last
  bytes are three digits and one is two, as if zero bytes followed.
  */
  lemma EncodesBlocks(b: Bytes) returns (v0: sextet, v1: sextet, v2: sextet, v3: sextet)
    requires b != []
    ensures v0 as int * 0x4_0000 + v1 as int * 0x1000 + v2 as int * 0x40 + v3 as int
         == b[0] as int * 0x1_0000 + (if |b| > 1 then b[1] as int * 0x100 else 0) + (if |b| > 2 then b[2] as int else 0)
    ensures |b| == 1 ==> Encode(b) == [Digit(v0), Digit(v1)]
    ensures |b| == 2 ==> Encode(b) == [Digit(v0), Digit(v1), Digit(v2)]
    ensures |b| >= 3 ==> Encode(b) == [Digit(v0), Digit(v1), Digit(v2), Digit(v3)] + Encode(b[3..])
  {
    var b1, b2 := if |b| > 1 then b[1] else 0, if |b| > 2 then b[2] else 0;
    v0, v1, v2, v3 := Sextet0(b[0]), Sextet1(b[0], b1), Sextet2(b1, b2), Sextet3(b2);
    BlockBits(b[0], b1, b2);
    hide Sextet0, Sextet1, Sextet2, Sextet3, Digit;
    var s := EncodeSextets(b);
    TextOf(s);
    if |b| >= 3 { assert s[4..] == EncodeSextets(b[3..]); }
  }

  lemma BlockBits(b0: byte, b1: byte, b2: byte)
    ensures Sextet0(b0) as int * 0x4_0000 + Sextet1(b0, b1) as int * 0x1000 + Sextet2(b1, b2) as int * 0x40 + Sextet3(b2) as int
         == b0 as int * 0x1_0000 + b1 as int * 0x100 + b2 as int
  {
    assert b0 as int == 4 * (b0 / 4) as int + (b0 % 4) as int;
    assert b1 as int == 16 * (b1 / 16) as int + (b1 % 16) as int;
    assert b2 as int == 64 * (b2 / 64) as int + (b2 % 64) as int;
  }

  lemma TextOf(s: seq<sextet>)
    ensures |s| == 2 ==> Text(s) == [Digit(s[0]), Digit(s[1])]
    ensures |s| == 3 ==> Text(s) == [Digit(s[0]), Digit(s[1]), Digit(s[2])]
    ensures |s| >= 4 ==> Text(s) == [Digit(s[0]), Digit(s[1]), Digit(s[2]), Digit(s[3])] + Text(s[4..])
  {
    if |s| >= 2 {
      TwoDigits(s);
      if |s| == 2 { assert s[2..] == []; }
      if |s| == 3 { assert s[2..] == [s[2]]; }
      if |s| >= 4 {
        TwoDigits(s[2..]);
        assert s[2..][2..] == s[4..];
        Joined(Digit(s[0]), Digit(s[1]), Digit(s[2]), Digit(s[3]), Text(s[4..]));
      }
    }
  }

  lemma TwoDigits(s: seq<sextet>)
    requires |s| >= 2
    ensures Text(s) == [Digit(s[0]), Digit(s[1])] + Text(s[2..])
  {
    TextFirst(s);
    TextFirst(s[1..]);
    assert s[1..][1..] == s[2..];
    hide Text, Digit;
    TwoJoined(Digit(s[0]), Digit(s[1]), Text(s[2..]));
  }

  lemma TextFirst(s: seq<sextet>)
    requires s != []
    ensures Text(s) == [Digit(s[0])] + Text(s[1..])
  {
  }

  lemma TwoJoined<T>(a: T, b: T, rest: seq<T>)
    ensures [a] + ([b] + rest) == [a, b] + rest
  {
  }

  lemma Joined<T>(a: T, b: T, c: T, d: T, rest: seq<T>)
    ensures [a, b] + ([c, d] + rest) == [a, b, c, d] + rest
  {
  }
}
