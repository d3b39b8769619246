/**
The decoder's scan of a transaction's log lines into call edges.  The scan keeps no call stack for
its "consumed" lines: it gives each to the latest edge with the same callee.  For every well-nested
log the module says when that is right.
*/
module LogScan {

  type Program = string

  /** A log line, after the two regular expressions have been tried on it. */
  datatype Line =
    | Invoke(callee: Program, depth: nat)
    | Consumed(callee: Program, units: nat)
    | Other(text: string)

  datatype Status = Invoked | Spent

  datatype Edge = Edge(parent: nat, child: nat, callee: Program, cu: nat, status: Status, depth: nat)

  const U8_MAX := 255
  const U16_MAX := 65535
  const U32_MAX := 0xFFFF_FFFF

  /** A number that does not fit the integer type fails to parse and a default takes its place. */
  function ParsedDepth(d: nat): nat { if d <= U8_MAX then d else 1 }

  function ParsedUnits(u: nat): nat { if u <= U32_MAX then u else 0 }

  /** The counter of children saturates. */
  function ChildIndex(n: nat): nat { if n <= U16_MAX then n else U16_MAX }

  /** The edge that the n-th invoke line pushes; its parent is the invocation logged before it. */
  function NewEdge(n: nat, callee: Program, depth: nat): Edge {
    Edge(if n == 0 then 0 else ChildIndex(n - 1), ChildIndex(n), callee, 0, Invoked, ParsedDepth(depth))
  }

  function Spend(e: Edge, units: nat): Edge {
    e.(cu := ParsedUnits(units), status := Spent)
  }

  /** Charge the latest edge with this callee, if there is one. */
  function ChargeLatest(edges: seq<Edge>, callee: Program, units: nat): (r: seq<Edge>)
    ensures |r| == |edges|
  {
    if edges == [] then []
    else
      var last := |edges| - 1;
      if edges[last].callee == callee then edges[..last] + [Spend(edges[last], units)]
      else ChargeLatest(edges[..last], callee, units) + [edges[last]]
  }

  function ScanLine(edges: seq<Edge>, line: Line): seq<Edge> {
    match line
    case Invoke(p, d) => edges + [NewEdge(|edges|, p, d)]
    case Consumed(p, u) => ChargeLatest(edges, p, u)
    case Other(_) => edges
  }

  function Scan(edges: seq<Edge>, lines: seq<Line>): seq<Edge>
    decreases lines
  {
    if lines == [] then edges else Scan(ScanLine(edges, lines[0]), lines[1..])
  }

  /** The loop of the decoder, with its search backwards through the edges. */
  method ScanLog(lines: seq<Line>) returns (edges: seq<Edge>)
    ensures edges == Scan([], lines)
  {
    edges := [];
    var invokeStack: seq<nat> := [];
    var nextChild := 0;
    for i := 0 to |lines|
      invariant Scan([], lines) == Scan(edges, lines[i..])
      invariant nextChild == ChildIndex(|edges|)
      invariant |invokeStack| == |edges|
      invariant edges != [] ==> invokeStack[|edges| - 1] == ChildIndex(|edges| - 1)
    {
      assert lines[i..][0] == lines[i] && lines[i..][1..] == lines[i + 1..];
      match lines[i] {
        case Invoke(callee, depth) =>
          var parent := if invokeStack == [] then 0 else invokeStack[|invokeStack| - 1];
          var child := nextChild;
          nextChild := if nextChild < U16_MAX then nextChild + 1 else U16_MAX;
          invokeStack := invokeStack + [child];
          edges := edges + [Edge(parent, child, callee, 0, Invoked, ParsedDepth(depth))];
        case Consumed(callee, units) =>
          var found := FindLatest(edges, callee);
          ChargeLatestAt(edges, callee, units, found);
          if found > 0 {
            edges := edges[found - 1 := Spend(edges[found - 1], units)];
          }
        case Other(_) =>
      }
    }
    assert lines[|lines|..] == [];
  }

  /** The position after the latest edge with a callee; 0 if there is none. */
  method FindLatest(edges: seq<Edge>, callee: Program) returns (found: nat)
    ensures found <= |edges| && (found > 0 ==> edges[found - 1].callee == callee)
    ensures forall k :: found <= k < |edges| ==> edges[k].callee != callee
  {
    found := |edges|;
    while found > 0 && edges[found - 1].callee != callee
      invariant 0 <= found <= |edges|
      invariant forall k :: found <= k < |edges| ==> edges[k].callee != callee
    {
      found := found - 1;
    }
  }

  lemma {:induction false} ChargeLatestAt(edges: seq<Edge>, callee: Program, units: nat, found: nat)
    requires found <= |edges|
    requires forall k :: found <= k < |edges| ==> edges[k].callee != callee
    requires found > 0 ==> edges[found - 1].callee == callee
    ensures ChargeLatest(edges, callee, units)
            == if found > 0 then edges[found - 1 := Spend(edges[found - 1], units)] else edges
  {
    if edges != [] && found < |edges| {
      ChargeLatestAt(edges[..|edges| - 1], callee, units, found);
    }
  }

  // ----- well-nested logs -----

  /** What a program's run logs between its invoke line and its end. */
  datatype Item = Noise(text: string) | Inner(call: Call)

  /** An invocation; native programs log no "consumed" line. */
  datatype Call = Call(program: Program, depth: nat, body: seq<Item>, units: Option<nat>)

  datatype Option<T> = None | Some(value: T)

  function Log(items: seq<Item>): seq<Line> {
    if items == [] then [] else ItemLog(items[0]) + Log(items[1..])
  }

  function ItemLog(item: Item): seq<Line> {
    match item
    case Noise(text) => [Other(text)]
    case Inner(c) =>
      [Invoke(c.program, c.depth)] + Log(c.body)
      + (if c.units.Some? then [Consumed(c.program, c.units.value)] else [])
  }

  /** The invocations in preorder, each with the number of its own "consumed" line. */
  function Exact(items: seq<Item>, n: nat): seq<Edge> {
    if items == [] then []
    else
      var first := ItemExact(items[0], n);
      first + Exact(items[1..], n + |first|)
  }

  function ItemExact(item: Item, n: nat): seq<Edge> {
    match item
    case Noise(_) => []
    case Inner(c) =>
      var e := NewEdge(n, c.program, c.depth);
      [if c.units.Some? then Spend(e, c.units.value) else e] + Exact(c.body, n + 1)
  }

  /** Does any of the items invoke this program, at any depth? */
  predicate Invokes(items: seq<Item>, p: Program) {
    items != [] && (ItemInvokes(items[0], p) || Invokes(items[1..], p))
  }

  predicate ItemInvokes(item: Item, p: Program) {
    item.Inner? && (item.call.program == p || Invokes(item.call.body, p))
  }

  /** No program that reports its units is invoked again while it is open. */
  predicate NoReentry(items: seq<Item>) {
    items == [] || (ItemNoReentry(items[0]) && NoReentry(items[1..]))
  }

  predicate ItemNoReentry(item: Item) {
    item.Inner? ==>
      && NoReentry(item.call.body)
      && (item.call.units.Some? ==> !Invokes(item.call.body, item.call.program))
  }

  /** What the scan makes of a well-nested log when it starts with n edges. */
  function Scanned(items: seq<Item>, n: nat): seq<Edge> {
    if items == [] then []
    else
      var first := ItemScanned(items[0], n);
      first + Scanned(items[1..], n + |first|)
  }

  function ItemScanned(item: Item, n: nat): seq<Edge> {
    match item
    case Noise(_) => []
    case Inner(c) =>
      var open := [NewEdge(n, c.program, c.depth)] + Scanned(c.body, n + 1);
      if c.units.Some? then ChargeLatest(open, c.program, c.units.value) else open
  }

  lemma {:induction false} ScanAppend(edges: seq<Edge>, a: seq<Line>, b: seq<Line>)
    ensures Scan(edges, a + b) == Scan(Scan(edges, a), b)
    decreases a
  {
    if a == [] {
      assert a + b == b;
    } else {
      assert (a + b)[0] == a[0] && (a + b)[1..] == a[1..] + b;
      ScanAppend(ScanLine(edges, a[0]), a[1..], b);
    }
  }

  /** A charge stops at the first edge from the right that has the callee. */
  lemma {:induction false} ChargeStays(before: seq<Edge>, after: seq<Edge>, p: Program, units: nat)
    requires exists k :: 0 <= k < |after| && after[k].callee == p
    ensures ChargeLatest(before + after, p, units) == before + ChargeLatest(after, p, units)
  {
    var last := |after| - 1;
    assert (before + after)[..|before| + last] == before + after[..last];
    if after[last].callee != p {
      ChargeStays(before, after[..last], p, units);
    }
  }

  lemma {:induction false} ScanIsLocal(items: seq<Item>, edges: seq<Edge>)
    ensures Scan(edges, Log(items)) == edges + Scanned(items, |edges|)
    decreases items, 1
  {
    if items != [] {
      var first := ItemScanned(items[0], |edges|);
      ScanAppend(edges, ItemLog(items[0]), Log(items[1..]));
      ItemScanIsLocal(items[0], edges);
      ScanIsLocal(items[1..], edges + first);
    }
  }

  lemma {:induction false} ItemScanIsLocal(item: Item, edges: seq<Edge>)
    ensures Scan(edges, ItemLog(item)) == edges + ItemScanned(item, |edges|)
    decreases item, 0
  {
    match item
    case Noise(text) =>
      assert ItemLog(item)[1..] == [];
    case Inner(c) =>
      var own := NewEdge(|edges|, c.program, c.depth);
      var tail := if c.units.Some? then [Consumed(c.program, c.units.value)] else [];
      var lines := [Invoke(c.program, c.depth)] + Log(c.body);
      ScanAppend(edges, lines, tail);
      assert lines[0] == Invoke(c.program, c.depth) && lines[1..] == Log(c.body);
      ScanIsLocal(c.body, edges + [own]);
      var open := [own] + Scanned(c.body, |edges| + 1);
      assert Scan(edges, lines) == edges + open;
      hide Log, Scanned, ChargeLatest;
      TailCharges(edges, open, c);
  }

  /** The line after an invocation's body charges the invocation or an edge inside it. */
  lemma TailCharges(edges: seq<Edge>, open: seq<Edge>, c: Call)
    requires open != [] && open[0].callee == c.program
    ensures Scan(edges + open, if c.units.Some? then [Consumed(c.program, c.units.value)] else [])
         == edges + if c.units.Some? then ChargeLatest(open, c.program, c.units.value) else open
  {
    if c.units.Some? {
      assert [Consumed(c.program, c.units.value)][1..] == [];
      ChargeStays(edges, open, c.program, c.units.value);
    }
  }

  /** Charging never changes the callee of an edge. */
  lemma {:induction false} ChargeKeepsCallees(edges: seq<Edge>, p: Program, units: nat)
    ensures forall k :: 0 <= k < |edges| ==> ChargeLatest(edges, p, units)[k].callee == edges[k].callee
  {
    if edges != [] { ChargeKeepsCallees(edges[..|edges| - 1], p, units); }
  }

  ghost predicate Mentions(edges: seq<Edge>, p: Program) {
    exists k :: 0 <= k < |edges| && edges[k].callee == p
  }

  lemma {:induction false} ScannedMentions(items: seq<Item>, n: nat, p: Program)
    ensures Mentions(Scanned(items, n), p) <==> Invokes(items, p)
    decreases items, 1
  {
    if items != [] {
      var first := ItemScanned(items[0], n);
      var rest := Scanned(items[1..], n + |first|);
      ItemScannedMentions(items[0], n, p);
      ScannedMentions(items[1..], n + |first|, p);
      MentionsAppend(first, rest, p);
    }
  }

  lemma MentionsAppend(a: seq<Edge>, b: seq<Edge>, p: Program)
    ensures Mentions(a + b, p) <==> Mentions(a, p) || Mentions(b, p)
  {
    if Mentions(a, p) {
      var k :| 0 <= k < |a| && a[k].callee == p;
      assert (a + b)[k].callee == p;
    }
    if Mentions(b, p) {
      var k :| 0 <= k < |b| && b[k].callee == p;
      assert (a + b)[|a| + k].callee == p;
    }
  }

  lemma {:induction false} ItemScannedMentions(item: Item, n: nat, p: Program)
    ensures Mentions(ItemScanned(item, n), p) <==> ItemInvokes(item, p)
    decreases item, 0
  {
    if item.Inner? {
      var c := item.call;
      var own, body := [NewEdge(n, c.program, c.depth)], Scanned(c.body, n + 1);
      ScannedMentions(c.body, n + 1, p);
      MentionsAppend(own, body, p);
      assert Mentions(own, p) <==> own[0].callee == p;
      if c.units.Some? {
        ChargeKeepsCallees(own + body, c.program, c.units.value);
        ChargeMentions(own + body, c.program, c.units.value, p);
      }
    }
  }

  lemma ChargeMentions(edges: seq<Edge>, callee: Program, units: nat, p: Program)
    ensures Mentions(ChargeLatest(edges, callee, units), p) <==> Mentions(edges, p)
  {
    ChargeKeepsCallees(edges, callee, units);
    var r := ChargeLatest(edges, callee, units);
    assert forall k :: 0 <= k < |edges| ==> r[k].callee == edges[k].callee;
  }

  lemma {:induction false} SameLength(items: seq<Item>, n: nat)
    ensures |Scanned(items, n)| == |Exact(items, n)|
    decreases items, 1
  {
    if items != [] {
      ItemSameLength(items[0], n);
      SameLength(items[1..], n + |ItemScanned(items[0], n)|);
    }
  }

  lemma {:induction false} ItemSameLength(item: Item, n: nat)
    ensures |ItemScanned(item, n)| == |ItemExact(item, n)|
    decreases item, 0
  {
    if item.Inner? { SameLength(item.call.body, n + 1); }
  }

  lemma {:induction false} ScannedExact(items: seq<Item>, n: nat)
    ensures Scanned(items, n) == Exact(items, n) <==> NoReentry(items)
    decreases items, 1
  {
    if items != [] {
      var first, exact := ItemScanned(items[0], n), ItemExact(items[0], n);
      ItemSameLength(items[0], n);
      ItemScannedExact(items[0], n);
      ScannedExact(items[1..], n + |first|);
      var s, x := Scanned(items, n), Exact(items, n);
      assert s[..|first|] == first && x[..|first|] == exact;
      assert s[|first|..] == Scanned(items[1..], n + |first|);
      assert x[|first|..] == Exact(items[1..], n + |first|);
    }
  }

  lemma {:induction false} ItemScannedExact(item: Item, n: nat)
    ensures ItemScanned(item, n) == ItemExact(item, n) <==> ItemNoReentry(item)
    decreases item, 0
  {
    if item.Inner? {
      var c := item.call;
      var own, body := NewEdge(n, c.program, c.depth), Scanned(c.body, n + 1);
      ScannedExact(c.body, n + 1);
      var s, x := ItemScanned(item, n), ItemExact(item, n);
      assert x[1..] == Exact(c.body, n + 1);
      hide Scanned, Exact, NoReentry;
      if c.units.None? {
        assert s[1..] == body;
      } else {
        ScannedMentions(c.body, n + 1, c.program);
        hide Invokes;
        OwnCharge(own, body, c.program, c.units.value);
      }
    }
  }

  /** The invocation gets its own number iff no edge inside it has its callee. */
  lemma OwnCharge(own: Edge, body: seq<Edge>, p: Program, units: nat)
    requires own.callee == p && own.status == Invoked
    ensures var s := ChargeLatest([own] + body, p, units);
      if exists k :: 0 <= k < |body| && body[k].callee == p then s != [] && s[0] == own
      else s == [Spend(own, units)] + body
    ensures Spend(own, units) != own
  {
    if exists k :: 0 <= k < |body| && body[k].callee == p {
      ChargeStays([own], body, p, units);
    } else {
      ChargeLatestAt([own] + body, p, units, 1);
    }
  }

  /**
  The scan of a well-nested log gives every invocation, in preorder, the number on its own
  "consumed" line exactly when no program that logs such a line is re-entered while it is open.
  */
  lemma AttributionExact(items: seq<Item>)
    ensures Scan([], Log(items)) == Exact(items, 0) <==> NoReentry(items)
  {
    ScanIsLocal(items, []);
    ScannedExact(items, 0);
  }

  // ----- the edges, call by call -----

  /** The invocations in the order in which they start. */
  function Calls(items: seq<Item>): seq<Call> {
    if items == [] then [] else ItemCalls(items[0]) + Calls(items[1..])
  }

  function ItemCalls(item: Item): seq<Call> {
    match item case Noise(_) => [] case Inner(c) => [c] + Calls(c.body)
  }

  /** Where the k-th invocation stands: its callee, its depth if it fits a byte, its number and its predecessor's up to 65535. */
  ghost predicate Stands(e: Edge, k: nat, callee: Program, depth: nat) {
    && e.callee == callee
    && e.depth == (if depth <= 255 then depth else 1)
    && e.child == (if k <= 65535 then k else 65535)
    && e.parent == (if k == 0 then 0 else if k <= 65536 then k - 1 else 65535)
  }

  /** The edge of a call with the number that its own line reports, if that fits 32 bits. */
  ghost predicate IsEdgeOf(e: Edge, k: nat, c: Call) {
    && Stands(e, k, c.program, c.depth)
    && (c.units.None? ==> e.cu == 0 && e.status == Invoked)
    && (c.units.Some? ==> e.cu == (if c.units.value <= 0xFFFF_FFFF then c.units.value else 0) && e.status == Spent)
  }

  ghost predicate EachIsEdgeOf(edges: seq<Edge>, n: nat, calls: seq<Call>) {
    |edges| == |calls| && forall k :: 0 <= k < |edges| ==> IsEdgeOf(edges[k], n + k, calls[k])
  }

  lemma EachAppend(a: seq<Edge>, b: seq<Edge>, n: nat, c: seq<Call>, d: seq<Call>)
    requires EachIsEdgeOf(a, n, c) && EachIsEdgeOf(b, n + |a|, d)
    ensures EachIsEdgeOf(a + b, n, c + d)
  {
    hide IsEdgeOf;
    forall k | 0 <= k < |a + b| ensures IsEdgeOf((a + b)[k], n + k, (c + d)[k]) {
      if k >= |a| { assert IsEdgeOf(b[k - |a|], n + |a| + (k - |a|), d[k - |a|]); }
    }
  }

  lemma {:induction false} ExactEach(items: seq<Item>, n: nat)
    ensures EachIsEdgeOf(Exact(items, n), n, Calls(items))
    decreases items, 1
  {
    if items != [] {
      ItemExactEach(items[0], n);
      hide EachIsEdgeOf;
      var first := ItemExact(items[0], n);
      ExactEach(items[1..], n + |first|);
      EachAppend(first, Exact(items[1..], n + |first|), n, ItemCalls(items[0]), Calls(items[1..]));
    }
  }

  lemma {:induction false} ItemExactEach(item: Item, n: nat)
    ensures EachIsEdgeOf(ItemExact(item, n), n, ItemCalls(item))
    decreases item, 0
  {
    if item.Inner? {
      var c := item.call;
      ExactEach(c.body, n + 1);
      var e := NewEdge(n, c.program, c.depth);
      var own := if c.units.Some? then Spend(e, c.units.value) else e;
      assert IsEdgeOf(own, n, c);
      assert EachIsEdgeOf([own], n, [c]);
      hide EachIsEdgeOf;
      EachAppend([own], Exact(c.body, n + 1), n, [c], Calls(c.body));
    }
  }

  lemma EachDetermines(a: seq<Edge>, b: seq<Edge>, n: nat, calls: seq<Call>)
    requires EachIsEdgeOf(a, n, calls) && EachIsEdgeOf(b, n, calls)
    ensures a == b
  {
    forall k | 0 <= k < |a| ensures a[k] == b[k] {
      assert IsEdgeOf(a[k], n + k, calls[k]) && IsEdgeOf(b[k], n + k, calls[k]);
    }
  }

  /** Every edge is right, in place and in number, iff no program that reports its units is re-entered. */
  lemma EdgesRightWhen(items: seq<Item>)
    ensures EachIsEdgeOf(Scan([], Log(items)), 0, Calls(items)) <==> NoReentry(items)
  {
    hide EachIsEdgeOf;
    AttributionExact(items);
    ExactEach(items, 0);
    if EachIsEdgeOf(Scan([], Log(items)), 0, Calls(items)) {
      EachDetermines(Scan([], Log(items)), Exact(items, 0), 0, Calls(items));
    }
  }

  // ----- the edges of any log -----

  function InvokesOf(lines: seq<Line>): seq<Line> {
    if lines == [] then []
    else InvokesOf(lines[..|lines| - 1]) + if lines[|lines| - 1].Invoke? then [lines[|lines| - 1]] else []
  }

  ghost predicate InPlace(edges: seq<Edge>, invokes: seq<Line>) {
    && |edges| == |invokes|
    && forall k :: 0 <= k < |edges| ==> invokes[k].Invoke? && Stands(edges[k], k, invokes[k].callee, invokes[k].depth)
  }

  /** A charge moves no edge. */
  lemma {:induction false} ChargeInPlace(edges: seq<Edge>, invokes: seq<Line>, p: Program, units: nat)
    requires InPlace(edges, invokes)
    ensures InPlace(ChargeLatest(edges, p, units), invokes)
  {
    if edges != [] {
      var last := |edges| - 1;
      ChargeInPlace(edges[..last], invokes[..last], p, units);
    }
  }

  /** Of any log the edges are its invoke lines in order, whatever is charged to them. */
  lemma {:induction false} EdgesInPlace(lines: seq<Line>)
    ensures InPlace(Scan([], lines), InvokesOf(lines))
  {
    if lines != [] {
      var init, last := lines[..|lines| - 1], lines[|lines| - 1];
      EdgesInPlace(init);
      ScanAppend([], init, [last]);
      assert init + [last] == lines && [last][1..] == [];
      var before := Scan([], init);
      hide Scan;
      match last
      case Invoke(p, d) => assert Stands(NewEdge(|before|, p, d), |before|, p, d);
      case Consumed(p, u) =>
        hide InPlace;
        ChargeInPlace(before, InvokesOf(init), p, u);
        assert InvokesOf(init) + [] == InvokesOf(init);
      case Other(_) => assert InvokesOf(init) + [] == InvokesOf(init);
    }
  }

  /** A program that calls itself: both numbers land on the inner edge. */
  lemma ReentryMisattributes(p: Program, outer: nat, inner: nat)
    requires outer <= U32_MAX && inner <= U32_MAX
    ensures var call := Call(p, 1, [Inner(Call(p, 2, [], Some(inner)))], Some(outer));
      Scan([], Log([Inner(call)]))
      == [Edge(0, 0, p, 0, Invoked, 1), Edge(0, 1, p, outer, Spent, 2)]
  {
    var leaf := Call(p, 2, [], Some(inner));
    var call := Call(p, 1, [Inner(leaf)], Some(outer));
    ScanIsLocal([Inner(call)], []);
    var a, b := NewEdge(0, p, 1), NewEdge(1, p, 2);
    assert Scanned([], 2) == [];
    assert ItemScanned(Inner(leaf), 1) == [Spend(b, inner)];
    assert Scanned([Inner(leaf)], 1) == [Spend(b, inner)];
    assert ItemScanned(Inner(call), 0) == [a, Spend(Spend(b, inner), outer)];
    assert Scanned([Inner(call)], 0) == ItemScanned(Inner(call), 0);
  }
}
