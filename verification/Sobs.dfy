/**
The wire format of the instrumentation SDK: a version byte and a Borsh message make a frame, and
the Base64 of a frame behind a prefix and a tag makes a log line, which the decoder parses.
*/
module Sobs {
  import opened Bytes
  import opened Texts
  import Base64

  const SOBS_VERSION: byte := 1
  const SOBS_PREFIX := "__SOBS__:"
  const LOG_PREFIX := "Program log: "

  datatype Option<T> = None | Some(value: T)

  /** Strings are their UTF-8 bytes. */
  datatype Label = Label(key: Bytes, value: Bytes)

  datatype SobsMsg =
    | Metric(name: Bytes, value: int, labels: seq<Label>)
    | Event(name: Bytes, payload: Bytes, labels: seq<Label>)
    | SpanStart(id: nat, name: Bytes, args: Bytes)
    | SpanEnd(id: nat, status: byte, result: Bytes, cuConsumed: nat)

  predicate IsString(s: Bytes) { |s| < Pow256(4) && ValidUtf8(s) }

  predicate AllStrings(labels: seq<Label>) {
    labels == [] || (IsString(labels[0].key) && IsString(labels[0].value) && AllStrings(labels[1..]))
  }

  /** What the Rust types and the 32-bit length prefixes of Borsh allow. */
  predicate WellFormed(m: SobsMsg) {
    match m
    case Metric(name, value, labels) =>
      IsString(name) && -TWO_63 <= value < TWO_63 && |labels| < Pow256(4) && AllStrings(labels)
    case Event(name, payload, labels) =>
      IsString(name) && |payload| < Pow256(4) && |labels| < Pow256(4) && AllStrings(labels)
    case SpanStart(id, name, args) => id < Pow256(8) && IsString(name) && |args| < Pow256(4)
    case SpanEnd(id, status, result, cu) => id < Pow256(8) && |result| < Pow256(4) && cu < Pow256(4)
  }

  // ----- Borsh -----

  function PutBlob(b: Bytes): Bytes { ToLE(|b|, 4) + b }

  function PutPairs(labels: seq<Label>): Bytes {
    if labels == [] then []
    else PutBlob(labels[0].key) + (PutBlob(labels[0].value) + PutPairs(labels[1..]))
  }

  function PutLabels(labels: seq<Label>): Bytes { ToLE(|labels|, 4) + PutPairs(labels) }

  function Serialize(m: SobsMsg): Bytes
    requires WellFormed(m)
  {
    match m
    case Metric(name, value, labels) =>
      [0] + (PutBlob(name) + (ToLE(ToUnsigned(value), 8) + PutLabels(labels)))
    case Event(name, payload, labels) => [1] + (PutBlob(name) + (PutBlob(payload) + PutLabels(labels)))
    case SpanStart(id, name, args) => [2] + (ToLE(id, 8) + (PutBlob(name) + PutBlob(args)))
    case SpanEnd(id, status, result, cu) =>
      [3] + (ToLE(id, 8) + ([status] + (PutBlob(result) + ToLE(cu, 4))))
  }

  datatype Read<T> = Got(value: T, rest: Bytes) | Malformed

  function GetNumber(w: nat, s: Bytes): Read<nat> {
    if |s| < w then Malformed else Got(FromLE(s[..w]), s[w..])
  }

  function GetBlob(s: Bytes): Read<Bytes> {
    match GetNumber(4, s)
    case Malformed => Malformed
    case Got(n, rest) => if |rest| < n then Malformed else Got(rest[..n], rest[n..])
  }

  function GetString(s: Bytes): Read<Bytes> {
    match GetBlob(s)
    case Malformed => Malformed
    case Got(b, rest) => if ValidUtf8(b) then Got(b, rest) else Malformed
  }

  function GetPairs(n: nat, s: Bytes): Read<seq<Label>> {
    if n == 0 then Got([], s)
    else
      match GetString(s)
      case Malformed => Malformed
      case Got(key, s1) =>
        match GetString(s1)
        case Malformed => Malformed
        case Got(value, s2) =>
          match GetPairs(n - 1, s2)
          case Malformed => Malformed
          case Got(labels, s3) => Got([Label(key, value)] + labels, s3)
  }

  function GetLabels(s: Bytes): Read<seq<Label>> {
    match GetNumber(4, s)
    case Malformed => Malformed
    case Got(n, rest) => GetPairs(n, rest)
  }

  function GetMetric(s: Bytes): Read<SobsMsg> {
    match GetString(s)
    case Malformed => Malformed
    case Got(name, s1) =>
      match GetNumber(8, s1)
      case Malformed => Malformed
      case Got(value, s2) =>
        match GetLabels(s2)
        case Malformed => Malformed
        case Got(labels, s3) => Got(Metric(name, ToSigned(value), labels), s3)
  }

  function GetEvent(s: Bytes): Read<SobsMsg> {
    match GetString(s)
    case Malformed => Malformed
    case Got(name, s1) =>
      match GetBlob(s1)
      case Malformed => Malformed
      case Got(payload, s2) =>
        match GetLabels(s2)
        case Malformed => Malformed
        case Got(labels, s3) => Got(Event(name, payload, labels), s3)
  }

  function GetSpanStart(s: Bytes): Read<SobsMsg> {
    match GetNumber(8, s)
    case Malformed => Malformed
    case Got(id, s1) =>
      match GetString(s1)
      case Malformed => Malformed
      case Got(name, s2) =>
        match GetBlob(s2)
        case Malformed => Malformed
        case Got(args, s3) => Got(SpanStart(id, name, args), s3)
  }

  function GetSpanEnd(s: Bytes): Read<SobsMsg> {
    match GetNumber(8, s)
    case Malformed => Malformed
    case Got(id, s1) =>
      if s1 == [] then Malformed
      else
        match GetBlob(s1[1..])
        case Malformed => Malformed
        case Got(result, s2) =>
          match GetNumber(4, s2)
          case Malformed => Malformed
          case Got(cu, s3) => Got(SpanEnd(id, s1[0], result, cu), s3)
  }

  function GetMsg(s: Bytes): Read<SobsMsg> {
    if s == [] then Malformed
    else if s[0] == 0 then GetMetric(s[1..])
    else if s[0] == 1 then GetEvent(s[1..])
    else if s[0] == 2 then GetSpanStart(s[1..])
    else if s[0] == 3 then GetSpanEnd(s[1..])
    else Malformed
  }

  // ----- frames -----

  datatype FrameResult = Msg(msg: SobsMsg) | Empty | Version(v: byte) | BorshError

  function Frame(m: SobsMsg): Bytes
    requires WellFormed(m)
  {
    [SOBS_VERSION] + Serialize(m)
  }

  function DecodeFrame(bytes: Bytes): FrameResult {
    if bytes == [] then Empty
    else if bytes[0] != SOBS_VERSION then Version(bytes[0])
    else
      match GetMsg(bytes[1..])
      case Got(m, rest) => if rest == [] then Msg(m) else BorshError
      case Malformed => BorshError
  }

  lemma NumberThere(n: nat, w: nat, rest: Bytes)
    requires n < Pow256(w)
    ensures GetNumber(w, ToLE(n, w) + rest) == Got(n, rest)
  {
    FromToLE(n, w);
    assert (ToLE(n, w) + rest)[..w] == ToLE(n, w);
  }

  lemma NumberBack(w: nat, s: Bytes)
    requires GetNumber(w, s).Got?
    ensures var r := GetNumber(w, s); r.value < Pow256(w) && s == ToLE(r.value, w) + r.rest
  {
    hide FromLE, ToLE, Pow256;
    ToFromLE(s[..w]);
    assert s == s[..w] + s[w..];
  }

  lemma BlobThere(b: Bytes, rest: Bytes)
    requires |b| < Pow256(4)
    ensures GetBlob(PutBlob(b) + rest) == Got(b, rest)
  {
    assert PutBlob(b) + rest == ToLE(|b|, 4) + (b + rest);
    NumberThere(|b|, 4, b + rest);
  }

  lemma BlobBack(s: Bytes)
    requires GetBlob(s).Got?
    ensures var r := GetBlob(s); |r.value| < Pow256(4) && s == PutBlob(r.value) + r.rest
  {
    NumberBack(4, s);
    var n := GetNumber(4, s);
    assert n.rest == n.rest[..n.value] + n.rest[n.value..];
    Regroup(ToLE(n.value, 4), n.rest[..n.value], n.rest[n.value..]);
  }

  lemma Regroup(a: Bytes, b: Bytes, c: Bytes)
    ensures a + (b + c) == (a + b) + c
  {
  }

  lemma {:induction false} PairsThere(labels: seq<Label>, rest: Bytes)
    requires AllStrings(labels)
    ensures GetPairs(|labels|, PutPairs(labels) + rest) == Got(labels, rest)
  {
    hide FromLE, ToLE, Pow256, ValidUtf8, PutBlob, GetBlob;
    if labels == [] {
      assert PutPairs(labels) + rest == rest;
    } else {
      var tail := PutPairs(labels[1..]) + rest;
      var k, v := PutBlob(labels[0].key), PutBlob(labels[0].value);
      assert PutPairs(labels) + rest == k + (v + tail);
      BlobThere(labels[0].key, v + tail);
      BlobThere(labels[0].value, tail);
      PairsThere(labels[1..], rest);
      assert labels == [Label(labels[0].key, labels[0].value)] + labels[1..];
    }
  }

  lemma {:induction false} PairsBack(n: nat, s: Bytes)
    requires GetPairs(n, s).Got?
    ensures var r := GetPairs(n, s);
      |r.value| == n && AllStrings(r.value) && s == PutPairs(r.value) + r.rest
  {
    hide FromLE, ToLE, Pow256, ValidUtf8, PutBlob, GetBlob;
    if n > 0 {
      BlobBack(s);
      var key := GetString(s);
      BlobBack(key.rest);
      var value := GetString(key.rest);
      PairsBack(n - 1, value.rest);
      var r, more := GetPairs(n, s), GetPairs(n - 1, value.rest);
      assert r.value[1..] == more.value;
      var k, v, p := PutBlob(key.value), PutBlob(value.value), PutPairs(more.value);
      assert s == k + (v + (p + r.rest));
      assert PutPairs(r.value) == k + (v + p);
      assert k + (v + (p + r.rest)) == (k + (v + p)) + r.rest;
    }
  }

  lemma LabelsThere(labels: seq<Label>)
    requires AllStrings(labels) && |labels| < Pow256(4)
    ensures GetLabels(PutLabels(labels)) == Got(labels, [])
  {
    NumberThere(|labels|, 4, PutPairs(labels));
    assert PutPairs(labels) + [] == PutPairs(labels);
    PairsThere(labels, []);
  }

  lemma LabelsBack(s: Bytes)
    requires GetLabels(s).Got? && GetLabels(s).rest == []
    ensures var r := GetLabels(s);
      AllStrings(r.value) && |r.value| < Pow256(4) && s == PutLabels(r.value)
  {
    NumberBack(4, s);
    var n := GetNumber(4, s);
    PairsBack(n.value, n.rest);
    assert PutPairs(GetLabels(s).value) + [] == PutPairs(GetLabels(s).value);
  }

  lemma LastBlobThere(b: Bytes)
    requires |b| < Pow256(4)
    ensures GetBlob(PutBlob(b)) == Got(b, [])
  {
    assert PutBlob(b) + [] == PutBlob(b);
    BlobThere(b, []);
  }

  lemma MsgThere(m: SobsMsg)
    requires WellFormed(m)
    ensures GetMsg(Serialize(m)) == Got(m, [])
  {
    hide FromLE, ToLE, ValidUtf8, Pow256, PutBlob, GetBlob, PutLabels, GetLabels, GetNumber;
    Widths();
    var body := Serialize(m)[1..];
    match m
    case Metric(name, value, labels) =>
      var tail := ToLE(ToUnsigned(value), 8) + PutLabels(labels);
      assert body == PutBlob(name) + tail;
      BlobThere(name, tail);
      NumberThere(ToUnsigned(value), 8, PutLabels(labels));
      LabelsThere(labels);
    case Event(name, payload, labels) =>
      var tail := PutBlob(payload) + PutLabels(labels);
      assert body == PutBlob(name) + tail;
      BlobThere(name, tail);
      BlobThere(payload, PutLabels(labels));
      LabelsThere(labels);
    case SpanStart(id, name, args) =>
      var tail := PutBlob(name) + PutBlob(args);
      assert body == ToLE(id, 8) + tail;
      NumberThere(id, 8, tail);
      BlobThere(name, PutBlob(args));
      LastBlobThere(args);
    case SpanEnd(id, status, result, cu) =>
      var tail := [status] + (PutBlob(result) + ToLE(cu, 4));
      assert body == ToLE(id, 8) + tail;
      NumberThere(id, 8, tail);
      assert tail[1..] == PutBlob(result) + ToLE(cu, 4);
      BlobThere(result, ToLE(cu, 4));
      assert ToLE(cu, 4) + [] == ToLE(cu, 4);
      NumberThere(cu, 4, []);
  }

  lemma MsgBack(s: Bytes)
    requires GetMsg(s).Got? && GetMsg(s).rest == []
    ensures WellFormed(GetMsg(s).value) && s == Serialize(GetMsg(s).value)
  {
    hide FromLE, ToLE, ValidUtf8, Pow256, PutBlob, GetBlob, PutLabels, GetLabels, GetNumber;
    Widths();
    var body := s[1..];
    assert s == [s[0]] + body;
    if s[0] == 0 {
      BlobBack(body);
      var name := GetBlob(body);
      NumberBack(8, name.rest);
      LabelsBack(GetNumber(8, name.rest).rest);
    } else if s[0] == 1 {
      BlobBack(body);
      var name := GetBlob(body);
      BlobBack(name.rest);
      LabelsBack(GetBlob(name.rest).rest);
    } else if s[0] == 2 {
      NumberBack(8, body);
      var id := GetNumber(8, body);
      BlobBack(id.rest);
      var name := GetBlob(id.rest);
      BlobBack(name.rest);
      assert PutBlob(GetBlob(name.rest).value) + [] == PutBlob(GetBlob(name.rest).value);
    } else {
      NumberBack(8, body);
      var s1 := GetNumber(8, body).rest;
      assert s1 == [s1[0]] + s1[1..];
      BlobBack(s1[1..]);
      var s2 := GetBlob(s1[1..]).rest;
      NumberBack(4, s2);
      assert ToLE(GetNumber(4, s2).value, 4) + [] == ToLE(GetNumber(4, s2).value, 4);
    }
  }

  /** A frame decodes to a message exactly when it is the frame of that message. */
  lemma FramesExactly(bytes: Bytes, m: SobsMsg)
    ensures DecodeFrame(bytes) == Msg(m) <==> WellFormed(m) && bytes == Frame(m)
  {
    if DecodeFrame(bytes) == Msg(m) {
      MsgBack(bytes[1..]);
    }
    if WellFormed(m) && bytes == Frame(m) {
      MsgThere(m);
      assert bytes[1..] == Serialize(m);
    }
  }

  /** The encoder grows a buffer. */
  method EncodeFrame(m: SobsMsg) returns (out: Bytes)
    requires WellFormed(m)
    ensures DecodeFrame(out) == Msg(m) && out == Frame(m)
  {
    out := [];
    out := out + [SOBS_VERSION];
    out := out + Serialize(m);
    FramesExactly(out, m);
  }

  // ----- the frame, byte by byte -----

  function Counted(b: Bytes): Bytes { ToLE(|b|, 4) + b }

  function Pairs(labels: seq<Label>): Bytes {
    if labels == [] then [] else Counted(labels[0].key) + Counted(labels[0].value) + Pairs(labels[1..])
  }

  /** Version 1, the position of the message's kind, and its parts in order, lengths before contents. */
  function Layout(m: SobsMsg): Bytes
    requires WellFormed(m)
  {
    match m
    case Metric(name, value, labels) =>
      [1, 0] + Counted(name) + ToLE(if value < 0 then value + TWO_64 else value, 8) + ToLE(|labels|, 4) + Pairs(labels)
    case Event(name, payload, labels) => [1, 1] + Counted(name) + Counted(payload) + ToLE(|labels|, 4) + Pairs(labels)
    case SpanStart(id, name, args) => [1, 2] + ToLE(id, 8) + Counted(name) + Counted(args)
    case SpanEnd(id, status, result, cu) => [1, 3] + ToLE(id, 8) + [status] + Counted(result) + ToLE(cu, 4)
  }

  lemma {:induction false} PairsAre(labels: seq<Label>)
    ensures PutPairs(labels) == Pairs(labels)
  {
    if labels != [] {
      PairsAre(labels[1..]);
      Regroup(PutBlob(labels[0].key), PutBlob(labels[0].value), PutPairs(labels[1..]));
    }
  }

  lemma Four(a: byte, b: byte, x: Bytes, y: Bytes, z: Bytes)
    ensures [a] + ([b] + (x + (y + z))) == [a, b] + x + y + z
  {
  }

  lemma Five(a: byte, b: byte, x: Bytes, y: Bytes, z: Bytes, u: Bytes)
    ensures [a] + ([b] + (x + (y + (z + u)))) == [a, b] + x + y + z + u
  {
  }

  /** The frame of a message is its layout. */
  lemma FrameIs(m: SobsMsg)
    requires WellFormed(m)
    ensures Frame(m) == Layout(m)
  {
    hide ToLE, Pairs, PutPairs, AllStrings, IsString;
    match m
    case Metric(name, value, labels) =>
      PairsAre(labels);
      Five(1, 0, Counted(name), ToLE(ToUnsigned(value), 8), ToLE(|labels|, 4), Pairs(labels));
    case Event(name, payload, labels) =>
      PairsAre(labels);
      Five(1, 1, Counted(name), Counted(payload), ToLE(|labels|, 4), Pairs(labels));
    case SpanStart(id, name, args) => Four(1, 2, ToLE(id, 8), Counted(name), Counted(args));
    case SpanEnd(id, status, result, cu) => Five(1, 3, ToLE(id, 8), [status], Counted(result), ToLE(cu, 4));
  }

  // ----- log lines -----

  function Tag(m: SobsMsg): string {
    match m
    case Metric(_, _, _) => "m"
    case Event(_, _, _) => "e"
    case SpanStart(_, _, _) => "s+"
    case SpanEnd(_, _, _, _) => "s-"
  }

  function EncodeLogLine(m: SobsMsg): string
    requires WellFormed(m)
  {
    SOBS_PREFIX + Tag(m) + ":" + Base64.Encode(Frame(m))
  }

  function StripPrefix(s: string, prefix: string): Option<string> {
    if prefix <= s then Some(s[|prefix|..]) else None
  }

  /** What follows the first colon; the tag before it is not looked at. */
  function AfterColon(s: string): Option<string> {
    if s == [] then None
    else if s[0] == ':' then Some(s[1..])
    else AfterColon(s[1..])
  }

  function ParseLine(line: string): Option<SobsMsg> {
    match StripPrefix(line, LOG_PREFIX + SOBS_PREFIX)
    case None => None
    case Some(payload) =>
      match AfterColon(payload)
      case None => None
      case Some(b64) =>
        match Base64.Decode(Trim(b64))
        case None => None
        case Some(frame) =>
          match DecodeFrame(frame)
          case Msg(m) => Some(m)
          case _ => None
  }

  ghost predicate AllSpace(s: string) { forall c :: c in s ==> IsSpace(c) }

  /** The lines that carry m: any tag without a colon, and white space around the Base64. */
  ghost predicate Carries(line: string, m: SobsMsg, tag: string, left: string, right: string)
    requires WellFormed(m)
  {
    && ':' !in tag && AllSpace(left) && AllSpace(right)
    && line == "Program log: __SOBS__:" + (tag + ([':'] + (left + (Base64.Encode(Frame(m)) + right))))
  }

  lemma Prefixes()
    ensures LOG_PREFIX + SOBS_PREFIX == "Program log: __SOBS__:"
  {
  }

  lemma {:induction false} TrimStartPads(left: string, s: string)
    requires AllSpace(left) && s != [] && !IsSpace(s[0])
    ensures TrimStart(left + s) == s
  {
    if left == [] {
      assert left + s == s;
    } else {
      assert (left + s)[1..] == left[1..] + s;
      TrimStartPads(left[1..], s);
    }
  }

  lemma {:induction false} TrimEndPads(s: string, right: string)
    requires AllSpace(right) && s != [] && !IsSpace(s[|s| - 1])
    ensures TrimEnd(s + right) == s
  {
    if right == [] {
      assert s + right == s;
    } else {
      var n := |right| - 1;
      assert (s + right)[..|s| + n] == s + right[..n];
      TrimEndPads(s, right[..n]);
    }
  }

  lemma {:induction false} TrimStartSplits(s: string) returns (left: string)
    ensures AllSpace(left) && s == left + TrimStart(s)
  {
    if s != [] && IsSpace(s[0]) {
      var l := TrimStartSplits(s[1..]);
      left := [s[0]] + l;
    } else {
      left := [];
    }
  }

  lemma {:induction false} TrimEndSplits(s: string) returns (right: string)
    ensures AllSpace(right) && s == TrimEnd(s) + right
  {
    if s != [] && IsSpace(s[|s| - 1]) {
      var r := TrimEndSplits(s[..|s| - 1]);
      right := r + [s[|s| - 1]];
    } else {
      right := [];
    }
  }

  lemma {:induction false} AfterColonExactly(tag: string, rest: string)
    requires ':' !in tag
    ensures AfterColon(tag + ([':'] + rest)) == Some(rest)
  {
    var s := tag + ([':'] + rest);
    if tag == [] {
      assert s == [':'] + rest;
    } else {
      assert s[1..] == tag[1..] + ([':'] + rest);
      AfterColonExactly(tag[1..], rest);
    }
  }

  lemma {:induction false} AfterColonSplits(s: string) returns (tag: string)
    requires AfterColon(s).Some?
    ensures ':' !in tag && s == tag + ([':'] + AfterColon(s).value)
  {
    if s[0] == ':' {
      tag := [];
    } else {
      var t := AfterColonSplits(s[1..]);
      tag := [s[0]] + t;
    }
  }

  lemma AlphabetHasNoSpace(c: char)
    requires Base64.InAlphabet(c)
    ensures !IsSpace(c)
  {
  }

  lemma PaddedFrameIsRead(m: SobsMsg, left: string, right: string)
    requires WellFormed(m) && AllSpace(left) && AllSpace(right)
    ensures var text := Base64.Encode(Frame(m));
      Base64.Decode(Trim(left + (text + right))) == Base64.Some(Frame(m)) && DecodeFrame(Frame(m)) == Msg(m)
  {
    hide Frame, WellFormed, DecodeFrame, Base64.Encode, Base64.Decode;
    var text := Base64.Encode(Frame(m));
    FramesExactly(Frame(m), m);
    Base64.DecodesExactly(text, Frame(m));
    FrameTextNotEmpty(m);
    assert text[0] in text && text[|text| - 1] in text;
    AlphabetHasNoSpace(text[0]);
    AlphabetHasNoSpace(text[|text| - 1]);
    assert (text + right)[0] == text[0];
    TrimStartPads(left, text + right);
    TrimEndPads(text, right);
  }

  lemma FrameTextNotEmpty(m: SobsMsg)
    requires WellFormed(m)
    ensures Base64.Encode(Frame(m)) != []
  {
    Base64.DecodesExactly([], Frame(m));
  }

  lemma CarriedIsParsed(line: string, m: SobsMsg, tag: string, left: string, right: string)
    requires WellFormed(m) && Carries(line, m, tag, left, right)
    ensures ParseLine(line) == Some(m)
  {
    PaddedFrameIsRead(m, left, right);
    Prefixes();
    hide Frame, WellFormed, DecodeFrame, Base64.Encode, Base64.Decode, Trim, AfterColon;
    var rest := left + (Base64.Encode(Frame(m)) + right);
    var prefix, payload := LOG_PREFIX + SOBS_PREFIX, tag + ([':'] + rest);
    assert line == prefix + payload;
    assert prefix <= line && line[|prefix|..] == payload;
    AfterColonExactly(tag, rest);
  }

  lemma ParsedIsCarried(line: string) returns (tag: string, left: string, right: string)
    requires ParseLine(line).Some?
    ensures WellFormed(ParseLine(line).value) && Carries(line, ParseLine(line).value, tag, left, right)
  {
    var m := ParseLine(line).value;
    Prefixes();
    var prefix := LOG_PREFIX + SOBS_PREFIX;
    var payload := line[|prefix|..];
    assert line == prefix + payload;
    tag := AfterColonSplits(payload);
    var padded := AfterColon(payload).value;
    left := TrimStartSplits(padded);
    right := TrimEndSplits(TrimStart(padded));
    var frame := Base64.Decode(Trim(padded)).value;
    FramesExactly(frame, m);
    Base64.DecodesExactly(Trim(padded), frame);
  }

  /** The decoder takes a line for m exactly when it carries m, whatever its tag says. */
  lemma LinesExactly(line: string, m: SobsMsg)
    ensures ParseLine(line) == Some(m)
      <==> WellFormed(m) && exists tag, left, right :: Carries(line, m, tag, left, right)
  {
    if ParseLine(line) == Some(m) {
      var tag, left, right := ParsedIsCarried(line);
    }
    if WellFormed(m) {
      forall tag, left, right | Carries(line, m, tag, left, right) ensures ParseLine(line) == Some(m) {
        CarriedIsParsed(line, m, tag, left, right);
      }
    }
  }

  /** The line that the SDK logs for a message is parsed back to the message. */
  lemma LineRoundTrip(m: SobsMsg)
    requires WellFormed(m)
    ensures ParseLine(LOG_PREFIX + EncodeLogLine(m)) == Some(m)
  {
    hide Frame, Base64.Encode, WellFormed, ParseLine;
    Prefixes();
    var text := Base64.Encode(Frame(m));
    var line := LOG_PREFIX + EncodeLogLine(m);
    assert [] + (text + []) == text;
    assert line == LOG_PREFIX + SOBS_PREFIX + (Tag(m) + ([':'] + text));
    assert Carries(line, m, Tag(m), [], []);
    CarriedIsParsed(line, m, Tag(m), [], []);
  }

  /** What the SDK logs for a message. */
  lemma LineIs(m: SobsMsg)
    requires WellFormed(m)
    ensures var tag := if m.Metric? then "m" else if m.Event? then "e" else if m.SpanStart? then "s+" else "s-";
      LOG_PREFIX + EncodeLogLine(m) == "Program log: __SOBS__:" + (tag + (":" + Base64.Encode(Layout(m))))
  {
    FrameIs(m);
    var text := Base64.Encode(Frame(m));
    hide Frame, Layout, Base64.Encode, WellFormed;
    Prefixes();
    Joined(LOG_PREFIX, SOBS_PREFIX, Tag(m), ":", text);
  }

  lemma Joined(a: string, b: string, c: string, d: string, e: string)
    ensures a + (b + c + d + e) == (a + b) + (c + (d + e))
  {
  }

  /** Distinct messages are logged as distinct lines. */
  lemma LinesInjective(m: SobsMsg, n: SobsMsg)
    requires WellFormed(m) && WellFormed(n) && EncodeLogLine(m) == EncodeLogLine(n)
    ensures m == n
  {
    LineRoundTrip(m);
    LineRoundTrip(n);
  }
}
