/**
Spans from end to end: the SDK numbers the spans that a program opens and logs their starts and
ends, and the decoder pairs the two again by number.
*/
module Spans {
  import opened Bytes
  import opened Sobs

  datatype Opened = Opened(name: Bytes, args: Bytes)

  datatype SpanRow = SpanRow(id: nat, name: Bytes, args: Bytes, status: string, result: Bytes, cuConsumed: nat)

  datatype Pairing = Pairing(open: map<nat, Opened>, rows: seq<SpanRow>)

  function StatusText(status: byte): string {
    if status == 0 then "ok" else if status == 1 then "err" else if status == 2 then "panic" else "unknown"
  }

  function RowOf(o: Opened, end: SobsMsg): SpanRow
    requires end.SpanEnd?
  {
    SpanRow(end.id, o.name, o.args, StatusText(end.status), end.result, end.cuConsumed)
  }

  function Pair(p: Pairing, m: SobsMsg): Pairing {
    match m
    case SpanStart(id, name, args) => p.(open := p.open[id := Opened(name, args)])
    case SpanEnd(id, _, _, _) =>
      if id in p.open then Pairing(p.open - {id}, p.rows + [RowOf(p.open[id], m)]) else p
    case _ => p
  }

  function PairAll(ms: seq<SobsMsg>): Pairing {
    if ms == [] then Pairing(map[], []) else Pair(PairAll(ms[..|ms| - 1]), ms[|ms| - 1])
  }

  /** The messages that the lines of a log carry. */
  function Messages(lines: seq<string>): seq<SobsMsg> {
    if lines == [] then []
    else
      var m := ParseLine(lines[|lines| - 1]);
      Messages(lines[..|lines| - 1]) + if m.Some? then [m.value] else []
  }

  lemma PairLast(ms: seq<SobsMsg>, m: SobsMsg)
    ensures PairAll(ms + [m]) == Pair(PairAll(ms), m)
  {
    assert (ms + [m])[..|ms|] == ms;
  }

  lemma MessagesStep(lines: seq<string>, i: nat)
    requires i < |lines|
    ensures var m := ParseLine(lines[i]);
      Messages(lines[..i + 1]) == Messages(lines[..i]) + if m.Some? then [m.value] else []
  {
    assert lines[..i + 1][..i] == lines[..i];
  }

  /** The decoder's loop over the log, as far as spans go. */
  method PairSpans(lines: seq<string>) returns (rows: seq<SpanRow>)
    ensures rows == PairAll(Messages(lines)).rows
  {
    var open: map<nat, Opened> := map[];
    rows := [];
    for i := 0 to |lines|
      invariant Pairing(open, rows) == PairAll(Messages(lines[..i]))
    {
      MessagesStep(lines, i);
      var m := ParseLine(lines[i]);
      if m.None? {
        assert Messages(lines[..i + 1]) == Messages(lines[..i]);
      } else {
        PairLast(Messages(lines[..i]), m.value);
        match m.value
        case SpanStart(id, name, args) => open := open[id := Opened(name, args)];
        case SpanEnd(id, _, _, _) =>
          if id in open {
            rows := rows + [RowOf(open[id], m.value)];
            open := open - {id};
          }
        case _ =>
      }
    }
    assert lines[..|lines|] == lines;
  }

  // ----- what pairing means -----

  /** A start or an end of the span with this number. */
  predicate Concerns(m: SobsMsg, id: nat) { (m.SpanStart? || m.SpanEnd?) && m.id == id }

  ghost predicate IsLatest(ms: seq<SobsMsg>, i: nat, id: nat) {
    i < |ms| && Concerns(ms[i], id) && forall k :: i < k < |ms| ==> !Concerns(ms[k], id)
  }

  /** A span is open exactly if the latest message of its number is a start, and it is that start's. */
  lemma {:induction false} OpenIsLatest(ms: seq<SobsMsg>, id: nat)
    ensures id in PairAll(ms).open <==> exists i: nat :: IsLatest(ms, i, id) && ms[i].SpanStart?
    ensures forall i: nat :: IsLatest(ms, i, id) && ms[i].SpanStart? ==>
      id in PairAll(ms).open && PairAll(ms).open[id] == Opened(ms[i].name, ms[i].args)
  {
    if ms != [] {
      var n := |ms| - 1;
      OpenIsLatest(ms[..n], id);
      if Concerns(ms[n], id) {
        assert IsLatest(ms, n, id);
      } else {
        forall i: nat ensures IsLatest(ms, i, id) <==> IsLatest(ms[..n], i, id) {
        }
      }
    }
  }

  predicate Ends(m: SobsMsg, id: nat) { m.SpanEnd? && m.id == id }

  // ----- which end closes which start -----

  /** Positions of a start and of the end that makes its row. */
  datatype Link = Link(start: nat, end: nat)

  /** For every open number, the position of its start. */
  function OpenAt(ms: seq<SobsMsg>): map<nat, nat> {
    if ms == [] then map[]
    else
      var n := |ms| - 1;
      match ms[n]
      case SpanStart(id, _, _) => OpenAt(ms[..n])[id := n]
      case SpanEnd(id, _, _, _) => OpenAt(ms[..n]) - {id}
      case _ => OpenAt(ms[..n])
  }

  function Links(ms: seq<SobsMsg>): seq<Link> {
    if ms == [] then []
    else
      var n := |ms| - 1;
      var open := OpenAt(ms[..n]);
      Links(ms[..n]) + if ms[n].SpanEnd? && ms[n].id in open then [Link(open[ms[n].id], n)] else []
  }

  ghost predicate RowIs(ms: seq<SobsMsg>, l: Link, row: SpanRow) {
    && l.start < l.end < |ms| && ms[l.start].SpanStart? && ms[l.end].SpanEnd?
    // the number, name and arguments of the start; the status, result and units of the end
    && row.id == ms[l.start].id == ms[l.end].id && row.name == ms[l.start].name && row.args == ms[l.start].args
    && row.result == ms[l.end].result && row.cuConsumed == ms[l.end].cuConsumed
    && (ms[l.end].status == 0 ==> row.status == "ok") && (ms[l.end].status == 1 ==> row.status == "err")
    && (ms[l.end].status == 2 ==> row.status == "panic") && (ms[l.end].status > 2 ==> row.status == "unknown")
  }

  /** The rows are those of the links, in order. */
  lemma {:induction false} LinksAreRows(ms: seq<SobsMsg>)
    ensures OpenAt(ms).Keys == PairAll(ms).open.Keys
    ensures forall id :: id in OpenAt(ms) ==>
      var s := OpenAt(ms)[id];
      s < |ms| && ms[s].SpanStart? && ms[s].id == id && PairAll(ms).open[id] == Opened(ms[s].name, ms[s].args)
    ensures |Links(ms)| == |PairAll(ms).rows|
    ensures forall k :: 0 <= k < |Links(ms)| ==> RowIs(ms, Links(ms)[k], PairAll(ms).rows[k])
  {
    if ms != [] {
      var n := |ms| - 1;
      LinksAreRows(ms[..n]);
      forall l, row | RowIs(ms[..n], l, row) ensures RowIs(ms, l, row) {
        assert ms[..n][l.start] == ms[l.start] && ms[..n][l.end] == ms[l.end];
      }
      hide RowIs;
      if ms[n].SpanEnd? && ms[n].id in OpenAt(ms[..n]) {
        var s := OpenAt(ms[..n])[ms[n].id];
        assert ms[..n][s] == ms[s];
        NewRow(ms, s, n);
      }
    }
  }

  lemma NewRow(ms: seq<SobsMsg>, s: nat, n: nat)
    requires s < n < |ms| && ms[s].SpanStart? && ms[n].SpanEnd? && ms[s].id == ms[n].id
    ensures RowIs(ms, Link(s, n), RowOf(Opened(ms[s].name, ms[s].args), ms[n]))
  {
  }

  /** Nothing of the number lies between the start and the end. */
  ghost predicate Closes(ms: seq<SobsMsg>, s: nat, e: nat) {
    && s < e < |ms| && ms[s].SpanStart? && Ends(ms[e], ms[s].id)
    && forall k :: s < k < e ==> !Concerns(ms[k], ms[s].id)
  }

  lemma {:induction false} OpenAtExactly(ms: seq<SobsMsg>, id: nat, i: nat)
    ensures id in OpenAt(ms) && OpenAt(ms)[id] == i <==> IsLatest(ms, i, id) && ms[i].SpanStart?
  {
    if ms != [] {
      var n := |ms| - 1;
      OpenAtExactly(ms[..n], id, i);
      if Concerns(ms[n], id) {
        assert IsLatest(ms, i, id) ==> i == n;
      } else {
        assert IsLatest(ms, i, id) <==> IsLatest(ms[..n], i, id);
      }
    }
  }

  /** A start and an end make a row iff nothing of their number lies between them. */
  lemma {:induction false} LinksExactly(ms: seq<SobsMsg>, s: nat, e: nat)
    ensures Link(s, e) in Links(ms) <==> Closes(ms, s, e)
  {
    if ms != [] {
      var n := |ms| - 1;
      LinksExactly(ms[..n], s, e);
      if ms[n].SpanEnd? { OpenAtExactly(ms[..n], ms[n].id, s); }
      if e < n {
        assert Closes(ms, s, e) <==> Closes(ms[..n], s, e);
      }
      LinksEndBefore(ms[..n]);
    }
  }

  lemma {:induction false} LinksEndBefore(ms: seq<SobsMsg>)
    ensures forall l :: l in Links(ms) ==> l.end < |ms|
  {
    if ms != [] { LinksEndBefore(ms[..|ms| - 1]); }
  }

  /** The first end of a span after its start. */
  function FirstEnd(ms: seq<SobsMsg>, s: nat): (e: Option<nat>)
    requires s < |ms| && ms[s].SpanStart?
    ensures e.Some? ==> s < e.value < |ms| && Ends(ms[e.value], ms[s].id)
    ensures forall k :: s < k < (if e.Some? then e.value else |ms|) ==> !Ends(ms[k], ms[s].id)
  {
    if s == |ms| - 1 then None
    else
      var e := FirstEnd(ms[..|ms| - 1], s);
      if e.Some? then e else if Ends(ms[|ms| - 1], ms[s].id) then Some(|ms| - 1) else None
  }

  ghost predicate StartedBetween(ms: seq<SobsMsg>, s: nat, e: nat)
    requires s < e < |ms| && ms[s].SpanStart?
  {
    exists k :: s < k < e && ms[k].SpanStart? && ms[k].id == ms[s].id
  }

  /** A start makes a row with its first end, iff no other start of the number lies between, and with no other. */
  lemma PairedOnce(ms: seq<SobsMsg>, s: nat, e: nat)
    requires s < |ms| && ms[s].SpanStart?
    ensures Link(s, e) in Links(ms) <==> FirstEnd(ms, s) == Some(e) && !StartedBetween(ms, s, e)
  {
    LinksExactly(ms, s, e);
    var first := FirstEnd(ms, s);
    if Closes(ms, s, e) {
      assert Ends(ms[e], ms[s].id);
      assert first.Some? && first.value <= e;
      assert Concerns(ms[first.value], ms[s].id);
    }
  }

  // ----- several SDKs in one transaction -----

  /** `sdk[i]` is the SDK that logged message i.  The span started at s is its SDK's to end, and e is where it first does. */
  ghost predicate Owns(ms: seq<SobsMsg>, sdk: seq<nat>, s: nat, e: nat)
    requires |sdk| == |ms|
  {
    && s < e < |ms| && ms[s].SpanStart? && Ends(ms[e], ms[s].id) && sdk[e] == sdk[s]
    && forall k :: s < k < e && sdk[k] == sdk[s] ==> !Ends(ms[k], ms[s].id)
  }

  /** The rows are those of the spans that the SDKs opened and ended. */
  ghost predicate Right(ms: seq<SobsMsg>, sdk: seq<nat>)
    requires |sdk| == |ms|
  {
    forall s: nat, e: nat :: Closes(ms, s, e) <==> Owns(ms, sdk, s, e)
  }

  /** A message of a span's number lies inside the span. */
  ghost predicate Overlap(ms: seq<SobsMsg>, sdk: seq<nat>)
    requires |sdk| == |ms|
  {
    exists s: nat, e: nat, k: nat :: Owns(ms, sdk, s, e) && s < k < e && Concerns(ms[k], ms[s].id)
  }

  /** An end that ends no span of its own SDK meets an open one. */
  ghost predicate Stray(ms: seq<SobsMsg>, sdk: seq<nat>)
    requires |sdk| == |ms|
  {
    exists s: nat, e: nat :: Closes(ms, s, e) && forall o: nat :: !Owns(ms, sdk, o, e)
  }

  /** Pairing is right iff no message of a span's number lies inside it and no stray end meets an open span. */
  lemma RightWhen(ms: seq<SobsMsg>, sdk: seq<nat>)
    requires |sdk| == |ms|
    ensures Right(ms, sdk) <==> !Overlap(ms, sdk) && !Stray(ms, sdk)
  {
    if !Overlap(ms, sdk) && !Stray(ms, sdk) {
      forall s: nat, e: nat ensures Closes(ms, s, e) <==> Owns(ms, sdk, s, e) {
        if Closes(ms, s, e) {
          var o: nat :| Owns(ms, sdk, o, e);
          assert Concerns(ms[o], ms[s].id) && Concerns(ms[s], ms[o].id);
        }
      }
    }
  }

  /** Every end ends a span that its own SDK has open. */
  ghost predicate UsedWell(ms: seq<SobsMsg>, sdk: seq<nat>)
    requires |sdk| == |ms|
  {
    forall e: nat :: e < |ms| && ms[e].SpanEnd? ==> exists s: nat :: Owns(ms, sdk, s, e)
  }

  /** So SDKs that end only what they opened get their spans back iff no two of equal number overlap. */
  lemma SpansRightWhen(ms: seq<SobsMsg>, sdk: seq<nat>)
    requires |sdk| == |ms| && UsedWell(ms, sdk)
    ensures (forall s: nat, e: nat :: Link(s, e) in Links(ms) <==> Owns(ms, sdk, s, e)) <==> !Overlap(ms, sdk)
  {
    RightWhen(ms, sdk);
    forall s: nat, e: nat ensures Link(s, e) in Links(ms) <==> Closes(ms, s, e) {
      LinksExactly(ms, s, e);
    }
  }

  // ----- the SDK -----

  datatype Call = Start(name: Bytes, args: Bytes) | End(id: nat, status: byte, result: Bytes, cuConsumed: nat)

  predicate Fits(c: Call) {
    match c
    case Start(name, args) => IsString(name) && |args| < Pow256(4)
    case End(id, _, result, cu) => id < Pow256(8) && |result| < Pow256(4) && cu < Pow256(4)
  }

  function Starts(calls: seq<Call>): nat {
    if calls == [] then 0 else Starts(calls[..|calls| - 1]) + if calls[|calls| - 1].Start? then 1 else 0
  }

  /** The number of the span that is opened after n others: a 64-bit counter from one. */
  function Number(n: nat): nat { (1 + n) % Pow256(8) }

  /** The counter's next value. */
  function Successor(id: nat): nat { (id + 1) % Pow256(8) }

  function MessageOf(c: Call, n: nat): SobsMsg {
    match c
    case Start(name, args) => SpanStart(Number(n), name, args)
    case End(id, status, result, cu) => SpanEnd(id, status, result, cu)
  }

  function Logged(calls: seq<Call>): (ms: seq<SobsMsg>)
    ensures |ms| == |calls|
  {
    if calls == [] then []
    else
      var n := |calls| - 1;
      Logged(calls[..n]) + [MessageOf(calls[n], Starts(calls[..n]))]
  }

  class Sdk {
    var counter: nat
    var lines: seq<string>
    ghost var calls: seq<Call>

    ghost predicate Valid()
      reads this
    {
      counter == Number(Starts(calls)) && Messages(lines) == Logged(calls)
    }

    constructor ()
      ensures Valid() && calls == [] && lines == []
    {
      counter, lines, calls := 1, [], [];
    }

    method Emit(c: Call, m: SobsMsg)
      requires Valid() && WellFormed(m) && m == MessageOf(c, Starts(calls))
      modifies this`lines, this`calls
      ensures lines == old(lines) + [LOG_PREFIX + EncodeLogLine(m)] && calls == old(calls) + [c]
      ensures Messages(lines) == Logged(calls)
    {
      LineRoundTrip(m);
      ghost var line := LOG_PREFIX + EncodeLogLine(m);
      assert (lines + [line])[..|lines|] == lines && (calls + [c])[..|calls|] == calls;
      lines := lines + [LOG_PREFIX + EncodeLogLine(m)];
      calls := calls + [c];
    }

    method SpanStart(name: Bytes, args: Bytes) returns (id: nat)
      requires Valid() && Fits(Start(name, args))
      modifies this
      ensures Valid() && calls == old(calls) + [Start(name, args)] && id == old(counter) && |lines| == |old(lines)| + 1
    {
      hide Number, Successor, WellFormed, Messages, Logged, Pow256, IsString, EncodeLogLine, ParseLine;
      id := counter;
      SpanStartFits(id, name, args);
      ghost var before := calls;
      Emit(Start(name, args), Sobs.SpanStart(id, name, args));
      hide Starts, MessageOf, Fits;
      StartsOneMore(before, Start(name, args));
      counter := Successor(counter);
    }

    method SpanEnd(id: nat, status: byte, result: Bytes, cuConsumed: nat)
      requires Valid() && Fits(End(id, status, result, cuConsumed))
      modifies this
      ensures Valid() && calls == old(calls) + [End(id, status, result, cuConsumed)] && |lines| == |old(lines)| + 1
    {
      Emit(End(id, status, result, cuConsumed), Sobs.SpanEnd(id, status, result, cuConsumed));
      assert calls[..|calls| - 1] == old(calls);
    }
  }

  lemma StartsOneMore(before: seq<Call>, c: Call)
    requires c.Start?
    ensures Starts(before + [c]) == Starts(before) + 1 && Successor(Number(Starts(before))) == Number(Starts(before) + 1)
  {
    assert (before + [c])[..|before|] == before;
    Wraps(Starts(before));
  }

  lemma SpanStartFits(id: nat, name: Bytes, args: Bytes)
    requires Fits(Start(name, args)) && exists n: nat :: id == Number(n)
    ensures WellFormed(Sobs.SpanStart(id, name, args))
  {
    Widths();
  }

  lemma Wraps(n: nat)
    ensures Successor(Number(n)) == Number(n + 1)
  {
    Widths();
    hide Pow256;
    assert (((1 + n) % TWO_64) + 1) % TWO_64 == (2 + n) % TWO_64;
  }

  lemma {:induction false} LoggedAt(calls: seq<Call>, i: nat)
    requires i < |calls|
    ensures Logged(calls)[i] == MessageOf(calls[i], Starts(calls[..i])) && Starts(calls[..i]) <= Starts(calls)
    ensures calls[i].Start? ==> Starts(calls[..i]) < Starts(calls)
  {
    var n := |calls| - 1;
    if i < n {
      LoggedAt(calls[..n], i);
      assert calls[..n][..i] == calls[..i];
    }
  }

  lemma CountersDistinct(calls: seq<Call>, i: nat, j: nat)
    requires Starts(calls) <= Pow256(8) && i < j < |calls| && calls[i].Start? && calls[j].Start?
    ensures Logged(calls)[i].SpanStart? && Logged(calls)[j].SpanStart? && Logged(calls)[i].id != Logged(calls)[j].id
  {
    LoggedAt(calls, i);
    LoggedAt(calls, j);
    LoggedAt(calls[..j], i);
    assert calls[..j][..i] == calls[..i];
    Different(Starts(calls[..i]), Starts(calls[..j]));
  }

  lemma Different(a: nat, b: nat)
    requires a < b < Pow256(8)
    ensures Number(a) != Number(b)
  {
    Widths();
    hide Pow256;
  }

  /** From the calls of one SDK to the rows: each span started makes a row with its first end, and with no other. */
  lemma SpansAreRows(lines: seq<string>, calls: seq<Call>, s: nat, e: nat)
    requires Messages(lines) == Logged(calls) && Starts(calls) <= Pow256(8)
    requires s < |calls| && calls[s].Start?
    ensures var ms := Logged(calls);
      && ms[s] == SobsMsg.SpanStart(Number(Starts(calls[..s])), calls[s].name, calls[s].args)
      && (Link(s, e) in Links(Messages(lines)) <==> FirstEnd(ms, s) == Some(e))
  {
    var ms := Logged(calls);
    LoggedAt(calls, s);
    PairedOnce(ms, s, e);
    if FirstEnd(ms, s) == Some(e) {
      forall k | s < k < e ensures !(ms[k].SpanStart? && ms[k].id == ms[s].id) {
        LoggedAt(calls, k);
        if calls[k].Start? { CountersDistinct(calls, s, k); }
      }
    }
  }

  /**
  Two SDKs in one transaction both count from one.  When the span of one is opened inside a span of
  the other, the inner start takes the number over: the outer span is lost, and its end with it.
  */
  lemma TwoCountersCollide(outer: Call, inner: Call, innerEnd: Call, outerEnd: Call)
    requires outer.Start? && inner.Start? && innerEnd.End? && outerEnd.End? && innerEnd.id == Number(0) == outerEnd.id
    ensures var ms := Logged([outer]) + Logged([inner]) + [MessageOf(innerEnd, 1)] + [MessageOf(outerEnd, 1)];
      PairAll(ms).rows == [RowOf(Opened(inner.name, inner.args), MessageOf(innerEnd, 1))]
  {
    var a, b, c, d := MessageOf(outer, 0), MessageOf(inner, 0), MessageOf(innerEnd, 1), MessageOf(outerEnd, 1);
    LoggedFirst(outer);
    LoggedFirst(inner);
    FourPaired(a, b, c, d);
    assert [a] + [b] + [c] + [d] == [a, b, c, d];
  }

  lemma LoggedFirst(c: Call)
    ensures Logged([c]) == [MessageOf(c, 0)]
  {
    assert [c][..0] == [];
  }

  lemma FourPaired(a: SobsMsg, b: SobsMsg, c: SobsMsg, d: SobsMsg)
    requires a.SpanStart? && b.SpanStart? && c.SpanEnd? && d.SpanEnd? && a.id == b.id == c.id == d.id
    ensures PairAll([a, b, c, d]).rows == [RowOf(Opened(b.name, b.args), c)]
  {
    assert PairAll([]) == Pairing(map[], []);
    hide PairAll;
    PairLast([], a);
    PairLast([a], b);
    PairLast([a, b], c);
    PairLast([a, b, c], d);
    assert [] + [a] == [a] && [a] + [b] == [a, b] && [a, b] + [c] == [a, b, c] && [a, b, c] + [d] == [a, b, c, d];
  }
}
