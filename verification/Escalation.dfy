/**
How deliveries get into the queue: the route an incident is notified through, and the escalation
pass that enqueues the steps whose wait has passed.
*/
module Escalation {
  import opened Incidents
  import opened RuleState
  import opened Deliveries
  import opened Firings

  // ----- routes -----

  datatype Severity = Info | Warn | Critical | Unranked

  function Rank(s: Severity): nat {
    match s
    case Critical => 3
    case Warn => 2
    case Info => 1
    case Unranked => 0
  }

  type Labels = map<string, string>

  datatype EscalationStep = EscalationStep(waitSeconds: int, channels: seq<ChannelId>)

  /** `policy` holds the steps that the matchers' policy identifier names, which is also matched like any label. */
  datatype Route = Route(id: RouteId, matchers: Labels, severityMin: Severity, channels: seq<ChannelId>,
                         groupWait: nat, groupInterval: nat, repeatInterval: nat,
                         policy: Option<seq<EscalationStep>>)

  /** A missing label counts as the empty text. */
  function LabelOf(labels: Labels, k: string): string { if k in labels then labels[k] else "" }

  predicate Matches(matchers: Labels, labels: Labels) {
    forall k :: k in matchers ==> matchers[k] == LabelOf(labels, k)
  }

  predicate Suits(r: Route, severity: Severity, labels: Labels) {
    Rank(r.severityMin) <= Rank(severity) && Matches(r.matchers, labels)
  }

  /**
  A route suits an alert of its least severity or above, or of any severity if it has none, whose labels have
  the matchers' texts; a label that is not there has none.
  */
  lemma SuitsWhen(r: Route, severity: Severity, labels: Labels)
    ensures Suits(r, severity, labels) <==>
      && (r.severityMin == Critical ==> severity == Critical)
      && (r.severityMin == Warn ==> severity == Warn || severity == Critical)
      && (r.severityMin == Info ==> severity != Unranked)
      && forall k :: k in r.matchers ==> if k in labels then labels[k] == r.matchers[k] else r.matchers[k] == ""
  {
  }

  /**
  A forced route is found by its id or not at all; otherwise the first suitable route is taken, and
  the first route of all when none is suitable.
  */
  method SelectRoute(routes: seq<Route>, severity: Severity, labels: Labels, force: Option<RouteId>)
      returns (r: Option<Route>)
    ensures r.Some? ==> r.value in routes
    ensures force.Some? ==>
      && (r.None? <==> forall x :: x in routes ==> x.id != force.value)
      && (r.Some? ==> r.value.id == force.value)
    ensures force.None? ==> (r.None? <==> routes == [])
    ensures force.None? && r.Some? ==>
      if exists x :: x in routes && Suits(x, severity, labels)
      then Suits(r.value, severity, labels)
           && exists i :: 0 <= i < |routes| && routes[i] == r.value
                && forall k :: 0 <= k < i ==> !Suits(routes[k], severity, labels)
      else r.value == routes[0]
  {
    if force.Some? {
      for i := 0 to |routes|
        invariant forall k :: 0 <= k < i ==> routes[k].id != force.value
      {
        if routes[i].id == force.value { return Some(routes[i]); }
      }
      return None;
    }
    for i := 0 to |routes|
      invariant forall k :: 0 <= k < i ==> !Suits(routes[k], severity, labels)
    {
      if Rank(severity) < Rank(routes[i].severityMin) { continue; }
      if Matches(routes[i].matchers, labels) { return Some(routes[i]); }
    }
    r := if routes == [] then None else Some(routes[0]);
  }

  // ----- notification -----

  /** A delivery of the same route, channel and incident was sent within the group interval. */
  predicate RecentlySent(rows: seq<Delivery>, route: Route, channel: ChannelId, incident: IncidentId, now: int) {
    exists d :: d in rows && d.route == route.id && d.channel == Some(channel) && d.incident == incident
      && d.state.Sent? && d.createdAt >= now - 1000 * AtLeastOne(route.groupInterval)
  }

  function AtLeastOne(n: nat): nat { if n == 0 then 1 else n }

  /** Unix seconds divided by the repeat interval, truncated toward zero. */
  function RepeatWindow(now: int, interval: nat): int {
    var s := NumSeconds(now);
    var n := AtLeastOne(interval);
    if s >= 0 then s / n else -((-s) / n)
  }

  /** Without a channel, the row for the person on call. */
  function Notification(route: Route, channel: Option<ChannelId>, incident: IncidentId, now: int): Delivery {
    Delivery(incident, route.id, channel, Key(incident, channel, RepeatWindow(now, route.repeatInterval)),
             Queued, 0, now + 1000 * route.groupWait, now)
  }

  function NotifyChannels(rows: seq<Delivery>, route: Route, channels: seq<ChannelId>, incident: IncidentId, now: int): seq<Delivery>
    decreases channels
  {
    if channels == [] then rows
    else
      var rows' := if RecentlySent(rows, route, channels[0], incident, now) then rows
                   else Insert(rows, Notification(route, Some(channels[0]), incident, now));
      NotifyChannels(rows', route, channels[1..], incident, now)
  }

  function NotifyAll(rows: seq<Delivery>, route: Route, onCall: bool, channels: seq<ChannelId>, incident: IncidentId, now: int): seq<Delivery> {
    NotifyChannels(if onCall then Insert(rows, Notification(route, None, incident, now)) else rows, route, channels, incident, now)
  }

  /** `onCall` says that the route names a schedule with someone on call; the channels are those of the route that still exist. */
  method NotifyIncident(queue: DeliveryQueue, route: Route, onCall: bool, channels: seq<ChannelId>, incident: IncidentId, now: int)
    requires UniqueKeys(queue.rows)
    modifies queue
    ensures UniqueKeys(queue.rows)
    ensures queue.rows == NotifyAll(old(queue.rows), route, onCall, channels, incident, now)
  {
    if onCall {
      var _ := queue.Enqueue(Notification(route, None, incident, now));
    }
    ghost var start := queue.rows;
    for i := 0 to |channels|
      invariant UniqueKeys(queue.rows)
      invariant NotifyChannels(start, route, channels, incident, now)
             == NotifyChannels(queue.rows, route, channels[i..], incident, now)
    {
      assert channels[i..][0] == channels[i] && channels[i..][1..] == channels[i + 1..];
      if RecentlySent(queue.rows, route, channels[i], incident, now) { continue; }
      var _ := queue.Enqueue(Notification(route, Some(channels[i]), incident, now));
    }
  }

  // ----- what a notification adds -----

  /** The rows asked for: one for the person on call, and one a channel that nothing was recently sent to. */
  function Asked(rows: seq<Delivery>, route: Route, channels: seq<ChannelId>, incident: IncidentId, now: int): seq<Delivery> {
    if channels == [] then []
    else
      (if RecentlySent(rows, route, channels[0], incident, now) then []
       else [Notification(route, Some(channels[0]), incident, now)])
      + Asked(rows, route, channels[1..], incident, now)
  }

  function AskedWith(rows: seq<Delivery>, route: Route, onCall: bool, channels: seq<ChannelId>, incident: IncidentId, now: int): seq<Delivery> {
    (if onCall then [Notification(route, None, incident, now)] else []) + Asked(rows, route, channels, incident, now)
  }

  /** Rows still queued do not count as recently sent. */
  lemma InsertLeavesSent(rows: seq<Delivery>, d: Delivery, route: Route, channel: ChannelId, incident: IncidentId, now: int)
    requires d.state.Queued?
    ensures RecentlySent(Insert(rows, d), route, channel, incident, now) == RecentlySent(rows, route, channel, incident, now)
  {
    assert forall x :: x in Insert(rows, d) ==> x in rows || x == d;
    assert forall x :: x in rows ==> x in Insert(rows, d);
  }

  lemma {:induction false} AskedUnchanged(rows: seq<Delivery>, d: Delivery, route: Route, channels: seq<ChannelId>,
                                          incident: IncidentId, now: int)
    requires d.state.Queued?
    ensures Asked(Insert(rows, d), route, channels, incident, now) == Asked(rows, route, channels, incident, now)
  {
    if channels != [] {
      InsertLeavesSent(rows, d, route, channels[0], incident, now);
      AskedUnchanged(rows, d, route, channels[1..], incident, now);
    }
  }

  lemma {:induction false} ChannelsInsert(rows: seq<Delivery>, route: Route, channels: seq<ChannelId>, incident: IncidentId, now: int)
    ensures NotifyChannels(rows, route, channels, incident, now)
         == InsertAll(rows, Asked(rows, route, channels, incident, now))
    decreases channels
  {
    if channels != [] {
      var d, rest := Notification(route, Some(channels[0]), incident, now), Asked(rows, route, channels[1..], incident, now);
      if RecentlySent(rows, route, channels[0], incident, now) {
        assert [] + rest == rest;
        ChannelsInsert(rows, route, channels[1..], incident, now);
      } else {
        AskedUnchanged(rows, d, route, channels[1..], incident, now);
        ChannelsInsert(Insert(rows, d), route, channels[1..], incident, now);
        assert ([d] + rest)[1..] == rest;
      }
    }
  }

  /** A notification inserts exactly the rows asked for. */
  lemma NotifyExactly(rows: seq<Delivery>, route: Route, onCall: bool, channels: seq<ChannelId>, incident: IncidentId, now: int)
    ensures NotifyAll(rows, route, onCall, channels, incident, now)
         == InsertAll(rows, AskedWith(rows, route, onCall, channels, incident, now))
  {
    var rest := Asked(rows, route, channels, incident, now);
    if onCall {
      var d := Notification(route, None, incident, now);
      AskedUnchanged(rows, d, route, channels, incident, now);
      ChannelsInsert(Insert(rows, d), route, channels, incident, now);
      assert ([d] + rest)[1..] == rest;
    } else {
      assert [] + rest == rest;
      ChannelsInsert(rows, route, channels, incident, now);
    }
  }

  lemma {:induction false} AskedExactly(rows: seq<Delivery>, route: Route, channels: seq<ChannelId>, incident: IncidentId, now: int)
    ensures forall d :: (d in Asked(rows, route, channels, incident, now) <==>
      exists ch :: ch in channels && !RecentlySent(rows, route, ch, incident, now) && d == Notification(route, Some(ch), incident, now))
  {
    if channels != [] {
      AskedExactly(rows, route, channels[1..], incident, now);
      assert channels == [channels[0]] + channels[1..];
    }
  }

  /** Windows of the repeat interval are counted from the epoch; an interval of zero counts as a second. */
  lemma WindowIs(now: int, interval: nat, k: nat)
    requires now >= 0
    ensures var n := if interval == 0 then 1 else interval;
      RepeatWindow(now, interval) == k <==> k * n * 1000 <= now < (k + 1) * n * 1000
  {
    var n := if interval == 0 then 1 else interval;
    var s := now / 1000;
    assert NumSeconds(now) == s && 1000 * s <= now < 1000 * (s + 1);
    DivisionIs(s, n, k);
    assert k * n <= s < (k + 1) * n <==> k * n * 1000 <= now < (k + 1) * n * 1000 by {
      InThousands(now, s, k * n);
      InThousands(now, s, (k + 1) * n);
    }
  }

  lemma InThousands(now: int, s: int, x: int)
    requires 1000 * s <= now < 1000 * (s + 1)
    ensures x <= s <==> x * 1000 <= now
  {
  }

  lemma DivisionIs(s: nat, n: nat, k: nat)
    requires n > 0
    ensures s / n == k <==> k * n <= s < (k + 1) * n
  {
    var q := s / n;
    assert q * n <= s < (q + 1) * n;
    if q < k { Grows(q + 1, k, n); }
    if k < q { Grows(k + 1, q, n); }
  }

  lemma Grows(a: nat, b: nat, n: nat)
    requires a <= b
    ensures a * n <= b * n
  {
    assert (b - a) * n >= 0;
  }

  /** Something of the route was sent to the channel for the incident, from a row no older than that. */
  ghost predicate SentSince(rows: seq<Delivery>, route: RouteId, channel: ChannelId, incident: IncidentId, since: int) {
    exists d :: d in rows && d.state == Sent && d.route == route && d.channel == Some(channel) && d.incident == incident
      && d.createdAt >= since
  }

  /** A new row: due when the group's wait is over, with the key of its incident, channel and repeat window. */
  ghost predicate Announces(d: Delivery, route: Route, incident: IncidentId, now: int) {
    && d.incident == incident && d.route == route.id && d.state == Queued && d.attempts == 0
    && d.createdAt == now && d.nextAttemptAt == now + 1000 * route.groupWait
    && d.key.incident == incident && d.key.channel == d.channel && d.key.window == RepeatWindow(now, route.repeatInterval)
  }

  /**
  A notification asks for a row without a channel if someone is on call, and for one a channel to which
  nothing was sent within the group interval, of at least a second.
  */
  lemma AskedRows(rows: seq<Delivery>, route: Route, onCall: bool, channels: seq<ChannelId>, incident: IncidentId, now: int, d: Delivery)
    ensures d in AskedWith(rows, route, onCall, channels, incident, now) <==>
      && Announces(d, route, incident, now)
      && if d.channel.None? then onCall
         else d.channel.value in channels
              && !SentSince(rows, route.id, d.channel.value, incident,
                            now - 1000 * if route.groupInterval == 0 then 1 else route.groupInterval)
  {
    AskedExactly(rows, route, channels, incident, now);
    hide RepeatWindow;
    forall ch ensures RecentlySent(rows, route, ch, incident, now)
      <==> SentSince(rows, route.id, ch, incident, now - 1000 * if route.groupInterval == 0 then 1 else route.groupInterval)
    {
    }
    hide Asked, RecentlySent, SentSince;
    if Announces(d, route, incident, now) {
      assert d == Notification(route, d.channel, incident, now);
    }
    assert forall ch :: Announces(Notification(route, ch, incident, now), route, incident, now);
    assert d in AskedWith(rows, route, onCall, channels, incident, now)
      <==> (onCall && d == Notification(route, None, incident, now)) || d in Asked(rows, route, channels, incident, now);
  }

  lemma {:induction false} AllInserted(rows: seq<Delivery>, ds: seq<Delivery>, route: Route, channel: ChannelId, incident: IncidentId, now: int)
    requires forall d :: d in ds ==> d.state.Queued?
    ensures RecentlySent(InsertAll(rows, ds), route, channel, incident, now) == RecentlySent(rows, route, channel, incident, now)
    decreases ds
  {
    if ds != [] {
      assert ds[0] in ds;
      InsertLeavesSent(rows, ds[0], route, channel, incident, now);
      AllInserted(Insert(rows, ds[0]), ds[1..], route, channel, incident, now);
    }
  }

  /** Inserting adds nothing iff every key is there. */
  lemma {:induction false} NothingNewWhen(rows: seq<Delivery>, ds: seq<Delivery>)
    requires UniqueKeys(rows)
    ensures InsertAll(rows, ds) == rows <==> forall d :: d in ds ==> HasKey(rows, d.key)
  {
    InsertAllExactly(rows, ds);
    if forall d :: d in ds ==> HasKey(rows, d.key) { InsertKnown(rows, ds); }
    forall d | d in ds ensures HasKey(InsertAll(rows, ds), d.key) {
      assert HasKey(ds, d.key);
    }
  }

  /** The channel's key was there before, or the first notification asked for it. */
  ghost predicate Covered(rows: seq<Delivery>, route: Route, ch: ChannelId, incident: IncidentId, now: int) {
    !RecentlySent(rows, route, ch, incident, now) || HasKey(rows, Notification(route, Some(ch), incident, now).key)
  }

  /**
  Notifying again within the same repeat window adds nothing iff every channel is covered by the first
  notification or was sent to recently at the second.
  */
  lemma NotifyTwiceWhen(rows: seq<Delivery>, route: Route, onCall: bool, channels: seq<ChannelId>, incident: IncidentId,
                        now: int, later: int)
    requires UniqueKeys(rows) && RepeatWindow(now, route.repeatInterval) == RepeatWindow(later, route.repeatInterval)
    ensures var r := NotifyAll(rows, route, onCall, channels, incident, now);
      NotifyAll(r, route, onCall, channels, incident, later) == r
      <==> forall ch :: ch in channels ==> RecentlySent(rows, route, ch, incident, later) || Covered(rows, route, ch, incident, now)
  {
    var first := AskedWith(rows, route, onCall, channels, incident, now);
    var r := InsertAll(rows, first);
    var again := AskedWith(r, route, onCall, channels, incident, later);
    NotifyExactly(rows, route, onCall, channels, incident, now);
    NotifyExactly(r, route, onCall, channels, incident, later);
    AskedExactly(rows, route, channels, incident, now);
    AskedExactly(r, route, channels, incident, later);
    InsertAllExactly(rows, first);
    NothingNewWhen(r, again);
    hide UniqueKeys, Asked, RepeatWindow;
    forall ch ensures RecentlySent(r, route, ch, incident, later) == RecentlySent(rows, route, ch, incident, later) {
      AllInserted(rows, first, route, ch, incident, later);
    }
    if onCall { assert HasKey(first, first[0].key) && again[0].key == first[0].key; }
    forall ch | ch in channels ensures HasKey(r, Notification(route, Some(ch), incident, now).key) <==> Covered(rows, route, ch, incident, now) {
      FirstCovers(rows, route, onCall, channels, incident, now, ch);
    }
    AgainKeys(rows, r, route, onCall, channels, incident, now, later);
  }

  lemma FirstCovers(rows: seq<Delivery>, route: Route, onCall: bool, channels: seq<ChannelId>, incident: IncidentId, now: int, ch: ChannelId)
    requires UniqueKeys(rows) && ch in channels
    ensures HasKey(InsertAll(rows, AskedWith(rows, route, onCall, channels, incident, now)), Notification(route, Some(ch), incident, now).key)
      <==> Covered(rows, route, ch, incident, now)
  {
    var first, d := AskedWith(rows, route, onCall, channels, incident, now), Notification(route, Some(ch), incident, now);
    InsertAllExactly(rows, first);
    AskedExactly(rows, route, channels, incident, now);
    if !RecentlySent(rows, route, ch, incident, now) {
      assert d in Asked(rows, route, channels, incident, now);
      assert d in first;
    }
    if HasKey(first, d.key) {
      var x :| x in first && x.key == d.key;
      assert x in Asked(rows, route, channels, incident, now);
    }
  }

  lemma AgainKeys(rows: seq<Delivery>, r: seq<Delivery>, route: Route, onCall: bool, channels: seq<ChannelId>, incident: IncidentId,
                  now: int, later: int)
    requires RepeatWindow(now, route.repeatInterval) == RepeatWindow(later, route.repeatInterval)
    requires forall ch :: ch in channels ==> RecentlySent(r, route, ch, incident, later) == RecentlySent(rows, route, ch, incident, later)
    requires forall ch :: ch in channels ==>
      (HasKey(r, Notification(route, Some(ch), incident, now).key) <==> Covered(rows, route, ch, incident, now))
    requires onCall ==> HasKey(r, Notification(route, None, incident, now).key)
    ensures (forall d :: d in AskedWith(r, route, onCall, channels, incident, later) ==> HasKey(r, d.key))
      <==> forall ch :: ch in channels ==> RecentlySent(rows, route, ch, incident, later) || Covered(rows, route, ch, incident, now)
  {
    var again := AskedWith(r, route, onCall, channels, incident, later);
    AskedExactly(r, route, channels, incident, later);
    hide RepeatWindow, Asked, HasKey, Covered, RecentlySent;
    if forall d :: d in again ==> HasKey(r, d.key) {
      forall ch | ch in channels
        ensures RecentlySent(rows, route, ch, incident, later) || Covered(rows, route, ch, incident, now)
      {
        var d := Notification(route, Some(ch), incident, later);
        assert !RecentlySent(rows, route, ch, incident, later) ==> d in again;
        assert d.key == Notification(route, Some(ch), incident, now).key;
      }
    }
    if forall ch :: ch in channels ==> RecentlySent(rows, route, ch, incident, later) || Covered(rows, route, ch, incident, now) {
      forall d | d in again ensures HasKey(r, d.key) {
        if d in Asked(r, route, channels, incident, later) {
          var ch :| ch in channels && !RecentlySent(r, route, ch, incident, later) && d == Notification(route, Some(ch), incident, later);
          assert d.key == Notification(route, Some(ch), incident, now).key;
        } else {
          assert d.key == Notification(route, None, incident, now).key;
        }
      }
    }
  }

  // ----- escalation -----

  function StepDelivery(i: IncidentId, r: Route, idx: nat, ch: ChannelId, now: int): Delivery {
    Delivery(i, r.id, Some(ch), Key(i, Some(ch), idx), Queued, 0, now, now)
  }

  function StepRows(i: IncidentId, r: Route, idx: nat, channels: seq<ChannelId>, now: int): seq<Delivery> {
    if channels == [] then []
    else [StepDelivery(i, r, idx, channels[0], now)] + StepRows(i, r, idx, channels[1..], now)
  }

  predicate Waited(startedAt: int, step: EscalationStep, now: int) {
    NumSeconds(now - startedAt) >= step.waitSeconds
  }

  /** The rows of a policy's steps from the idx-th on. */
  function PolicyRows(i: IncidentId, startedAt: int, r: Route, steps: seq<EscalationStep>, idx: nat, now: int): seq<Delivery>
    decreases |steps| - idx
  {
    if idx >= |steps| then []
    else
      (if Waited(startedAt, steps[idx], now) then StepRows(i, r, idx, steps[idx].channels, now) else [])
      + PolicyRows(i, startedAt, r, steps, idx + 1, now)
  }

  function RouteRows(i: IncidentId, startedAt: int, routes: seq<Route>, now: int): seq<Delivery> {
    if routes == [] then []
    else
      (if routes[0].policy.Some? then PolicyRows(i, startedAt, routes[0], routes[0].policy.value, 0, now) else [])
      + RouteRows(i, startedAt, routes[1..], now)
  }

  /** An incident whose status is firing, with the routes of its organisation. */
  datatype OpenRow = OpenRow(id: IncidentId, startedAt: int, routes: seq<Route>)

  function EscalationRows(open: seq<OpenRow>, now: int): seq<Delivery> {
    if open == [] then []
    else RouteRows(open[0].id, open[0].startedAt, open[0].routes, now) + EscalationRows(open[1..], now)
  }

  // ----- inserting, as far as the channels are known -----

  /** Rows refer to stored channels. */
  predicate Known(d: Delivery, known: set<ChannelId>) { d.channel.Some? ==> d.channel.value in known }

  datatype Outcome = Outcome(rows: seq<Delivery>, ok: bool)

  /** A row whose key is stored is skipped; one that names an unknown channel is an error, which ends the pass. */
  function Put(rows: seq<Delivery>, ds: seq<Delivery>, known: set<ChannelId>): Outcome
    decreases ds
  {
    if ds == [] then Outcome(rows, true)
    else if HasKey(rows, ds[0].key) then Put(rows, ds[1..], known)
    else if !Known(ds[0], known) then Outcome(rows, false)
    else Put(rows + [ds[0]], ds[1..], known)
  }

  lemma {:induction false} PutAppend(rows: seq<Delivery>, a: seq<Delivery>, b: seq<Delivery>, known: set<ChannelId>)
    ensures var first := Put(rows, a, known);
      Put(rows, a + b, known) == if first.ok then Put(first.rows, b, known) else first
    decreases a
  {
    if a == [] {
      assert a + b == b;
    } else {
      assert (a + b)[1..] == a[1..] + b;
      PutAppend(if HasKey(rows, a[0].key) then rows else rows + [a[0]], a[1..], b, known);
    }
  }

  method TryEnqueue(queue: DeliveryQueue, d: Delivery, known: set<ChannelId>) returns (ok: bool)
    requires UniqueKeys(queue.rows)
    modifies queue
    ensures UniqueKeys(queue.rows) && Outcome(queue.rows, ok) == Put(old(queue.rows), [d], known)
  {
    assert [d][1..] == [];
    if !HasKey(queue.rows, d.key) && !Known(d, known) { return false; }
    var _ := queue.Enqueue(d);
    ok := true;
  }

  method EscalateStep(queue: DeliveryQueue, i: IncidentId, r: Route, idx: nat, channels: seq<ChannelId>, now: int,
                      known: set<ChannelId>) returns (ok: bool)
    requires UniqueKeys(queue.rows)
    modifies queue
    ensures UniqueKeys(queue.rows)
    ensures Outcome(queue.rows, ok) == Put(old(queue.rows), StepRows(i, r, idx, channels, now), known)
  {
    for k := 0 to |channels|
      invariant UniqueKeys(queue.rows)
      invariant Put(old(queue.rows), StepRows(i, r, idx, channels, now), known)
             == Put(queue.rows, StepRows(i, r, idx, channels[k..], now), known)
    {
      var d, rest := StepDelivery(i, r, idx, channels[k], now), StepRows(i, r, idx, channels[k + 1..], now);
      assert channels[k..][0] == channels[k] && channels[k..][1..] == channels[k + 1..];
      PutAppend(queue.rows, [d], rest, known);
      ok := TryEnqueue(queue, d, known);
      if !ok { return; }
    }
    ok := true;
  }

  method EscalatePolicy(queue: DeliveryQueue, i: IncidentId, startedAt: int, r: Route, steps: seq<EscalationStep>, now: int,
                        known: set<ChannelId>) returns (ok: bool)
    requires UniqueKeys(queue.rows)
    modifies queue
    ensures UniqueKeys(queue.rows)
    ensures Outcome(queue.rows, ok) == Put(old(queue.rows), PolicyRows(i, startedAt, r, steps, 0, now), known)
  {
    for idx := 0 to |steps|
      invariant UniqueKeys(queue.rows)
      invariant Put(old(queue.rows), PolicyRows(i, startedAt, r, steps, 0, now), known)
             == Put(queue.rows, PolicyRows(i, startedAt, r, steps, idx, now), known)
    {
      var rest := PolicyRows(i, startedAt, r, steps, idx + 1, now);
      if NumSeconds(now - startedAt) < steps[idx].waitSeconds {
        assert [] + rest == rest;
        continue;
      }
      PutAppend(queue.rows, StepRows(i, r, idx, steps[idx].channels, now), rest, known);
      ok := EscalateStep(queue, i, r, idx, steps[idx].channels, now, known);
      if !ok { return; }
    }
    ok := true;
  }

  method EscalateIncident(queue: DeliveryQueue, o: OpenRow, now: int, known: set<ChannelId>) returns (ok: bool)
    requires UniqueKeys(queue.rows)
    modifies queue
    ensures UniqueKeys(queue.rows)
    ensures Outcome(queue.rows, ok) == Put(old(queue.rows), RouteRows(o.id, o.startedAt, o.routes, now), known)
  {
    assert o.routes[0..] == o.routes;
    for k := 0 to |o.routes|
      invariant UniqueKeys(queue.rows)
      invariant Put(old(queue.rows), RouteRows(o.id, o.startedAt, o.routes, now), known)
             == Put(queue.rows, RouteRows(o.id, o.startedAt, o.routes[k..], now), known)
    {
      var r := o.routes[k];
      assert o.routes[k..][0] == r && o.routes[k..][1..] == o.routes[k + 1..];
      var rest := RouteRows(o.id, o.startedAt, o.routes[k + 1..], now);
      if r.policy.None? {
        assert [] + rest == rest;
        continue;
      }
      PutAppend(queue.rows, PolicyRows(o.id, o.startedAt, r, r.policy.value, 0, now), rest, known);
      ok := EscalatePolicy(queue, o.id, o.startedAt, r, r.policy.value, now, known);
      if !ok { return; }
    }
    ok := true;
  }

  /** `known` holds the stored channels; an error ends the pass. */
  method ProcessEscalations(queue: DeliveryQueue, open: seq<OpenRow>, now: int, known: set<ChannelId>) returns (ok: bool)
    requires UniqueKeys(queue.rows)
    modifies queue
    ensures UniqueKeys(queue.rows)
    ensures Outcome(queue.rows, ok) == Put(old(queue.rows), EscalationRows(open, now), known)
  {
    assert open[0..] == open;
    for k := 0 to |open|
      invariant UniqueKeys(queue.rows)
      invariant Put(old(queue.rows), EscalationRows(open, now), known)
             == Put(queue.rows, EscalationRows(open[k..], now), known)
    {
      var o := open[k];
      assert open[k..][0] == o && open[k..][1..] == open[k + 1..];
      PutAppend(queue.rows, RouteRows(o.id, o.startedAt, o.routes, now), EscalationRows(open[k + 1..], now), known);
      ok := EscalateIncident(queue, o, now, known);
      if !ok { return; }
    }
    ok := true;
  }

  /** The step that a row stands for: an open incident, one of its routes, a step whose wait has passed. */
  ghost predicate Justified(open: seq<OpenRow>, now: int, d: Delivery) {
    exists o, r, idx: nat :: JustifiedBy(open, now, d, o, r, idx)
  }

  ghost predicate JustifiedBy(open: seq<OpenRow>, now: int, d: Delivery, o: OpenRow, r: Route, idx: nat) {
    && o in open && r in o.routes && r.policy.Some? && idx < |r.policy.value|
    && Waited(o.startedAt, r.policy.value[idx], now)
    && d.channel.Some? && d.channel.value in r.policy.value[idx].channels
    && d == StepDelivery(o.id, r, idx, d.channel.value, now)
  }

  lemma {:induction false} StepRowsExactly(i: IncidentId, r: Route, idx: nat, channels: seq<ChannelId>, now: int, d: Delivery)
    ensures d in StepRows(i, r, idx, channels, now)
      <==> d.channel.Some? && d.channel.value in channels && d == StepDelivery(i, r, idx, d.channel.value, now)
  {
    if channels != [] {
      StepRowsExactly(i, r, idx, channels[1..], now, d);
      assert channels == [channels[0]] + channels[1..];
    }
  }

  lemma {:induction false} PolicyRowsExactly(i: IncidentId, startedAt: int, r: Route, steps: seq<EscalationStep>,
                                             idx: nat, now: int, d: Delivery)
    ensures d in PolicyRows(i, startedAt, r, steps, idx, now)
      <==> exists k :: idx <= k < |steps| && Waited(startedAt, steps[k], now)
             && d.channel.Some? && d.channel.value in steps[k].channels && d == StepDelivery(i, r, k, d.channel.value, now)
    decreases |steps| - idx
  {
    if idx < |steps| {
      StepRowsExactly(i, r, idx, steps[idx].channels, now, d);
      PolicyRowsExactly(i, startedAt, r, steps, idx + 1, now, d);
    }
  }

  lemma {:induction false} RouteRowsExactly(o: OpenRow, routes: seq<Route>, now: int, d: Delivery)
    ensures d in RouteRows(o.id, o.startedAt, routes, now)
      <==> exists r :: r in routes && r.policy.Some?
             && d in PolicyRows(o.id, o.startedAt, r, r.policy.value, 0, now)
  {
    if routes != [] {
      RouteRowsExactly(o, routes[1..], now, d);
      assert routes == [routes[0]] + routes[1..];
    }
  }

  lemma {:induction false} RowsOfIncidents(open: seq<OpenRow>, now: int, d: Delivery)
    ensures d in EscalationRows(open, now)
      <==> exists o :: o in open && d in RouteRows(o.id, o.startedAt, o.routes, now)
  {
    if open != [] {
      RowsOfIncidents(open[1..], now, d);
      assert open == [open[0]] + open[1..];
    }
  }

  /** The pass asks for exactly the justified rows: every due step, and none before its wait. */
  lemma EscalationExactly(open: seq<OpenRow>, now: int, d: Delivery)
    ensures d in EscalationRows(open, now) <==> Justified(open, now, d)
  {
    RowsOfIncidents(open, now, d);
    if d in EscalationRows(open, now) {
      var o :| o in open && d in RouteRows(o.id, o.startedAt, o.routes, now);
      RouteRowsExactly(o, o.routes, now, d);
      var r :| r in o.routes && r.policy.Some? && d in PolicyRows(o.id, o.startedAt, r, r.policy.value, 0, now);
      PolicyRowsExactly(o.id, o.startedAt, r, r.policy.value, 0, now, d);
      var k :| 0 <= k < |r.policy.value| && Waited(o.startedAt, r.policy.value[k], now)
        && d.channel.Some? && d.channel.value in r.policy.value[k].channels && d == StepDelivery(o.id, r, k, d.channel.value, now);
      assert JustifiedBy(open, now, d, o, r, k);
    }
    if Justified(open, now, d) {
      var o, r, idx: nat :| JustifiedBy(open, now, d, o, r, idx);
      PolicyRowsExactly(o.id, o.startedAt, r, r.policy.value, 0, now, d);
      RouteRowsExactly(o, o.routes, now, d);
    }
  }

  /** The wait of a step is over: that many seconds have passed since the incident started. */
  ghost predicate WaitOver(startedAt: int, wait: int, now: int) {
    if wait > 0 then now - startedAt >= 1000 * wait else now - startedAt > 1000 * (wait - 1)
  }

  /** A row that escalates: for a channel of the idx-th step of a route's policy, due at once. */
  ghost predicate Escalates(d: Delivery, o: OpenRow, r: Route, idx: nat, now: int) {
    && r in o.routes && r.policy.Some? && idx < |r.policy.value|
    && WaitOver(o.startedAt, r.policy.value[idx].waitSeconds, now)
    && d.channel.Some? && d.channel.value in r.policy.value[idx].channels
    && d == Delivery(o.id, r.id, d.channel, Key(o.id, d.channel, idx), Queued, 0, now, now)
  }

  /** The pass asks for exactly the rows that escalate an open incident. */
  lemma EscalationRowsAre(open: seq<OpenRow>, now: int, d: Delivery)
    ensures d in EscalationRows(open, now) <==> exists o, r, idx: nat :: o in open && Escalates(d, o, r, idx, now)
  {
    EscalationExactly(open, now, d);
    forall o, r, idx: nat ensures JustifiedBy(open, now, d, o, r, idx) <==> o in open && Escalates(d, o, r, idx, now) {
      if r.policy.Some? && idx < |r.policy.value| {
        SecondsPass(now - o.startedAt, r.policy.value[idx].waitSeconds);
      }
    }
    hide JustifiedBy, Escalates, EscalationRows;
  }

  // ----- where the pass stops -----

  /** The p-th row asked for names an unknown channel, and its key is not stored. */
  ghost predicate Fails(rows: seq<Delivery>, ds: seq<Delivery>, known: set<ChannelId>, p: nat) {
    p < |ds| && !Known(ds[p], known) && !HasKey(rows, ds[p].key)
  }

  /** No row fails before p. */
  ghost predicate Clears(rows: seq<Delivery>, ds: seq<Delivery>, known: set<ChannelId>, p: nat) {
    forall q: nat :: q < p ==> !Fails(rows, ds, known, q)
  }

  ghost predicate KeysTellChannels(ds: seq<Delivery>) { forall d :: d in ds ==> d.key.channel == d.channel }

  lemma FailsLater(rows: seq<Delivery>, ds: seq<Delivery>, known: set<ChannelId>, p: nat)
    requires ds != [] && KeysTellChannels(ds) && (HasKey(rows, ds[0].key) || Known(ds[0], known))
    ensures var rows' := if HasKey(rows, ds[0].key) then rows else rows + [ds[0]];
      Fails(rows', ds[1..], known, p) <==> Fails(rows, ds, known, p + 1)
  {
    if !HasKey(rows, ds[0].key) && p + 1 < |ds| {
      var rows' := rows + [ds[0]];
      assert ds[p + 1] in ds && ds[0] in ds;
      assert forall x :: x in rows' <==> x in rows || x == ds[0];
      if HasKey(rows, ds[p + 1].key) {
        var x :| x in rows && x.key == ds[p + 1].key;
        assert x in rows';
      }
    }
  }

  /** The pass inserts the rows before the first that fails, and completes iff none does. */
  lemma {:induction false} PutStops(rows: seq<Delivery>, ds: seq<Delivery>, known: set<ChannelId>) returns (p: nat)
    requires KeysTellChannels(ds)
    ensures p <= |ds| && Clears(rows, ds, known, p) && (p < |ds| ==> Fails(rows, ds, known, p))
    ensures Put(rows, ds, known) == Outcome(InsertAll(rows, ds[..p]), p == |ds|)
    decreases ds
  {
    if ds == [] || (!HasKey(rows, ds[0].key) && !Known(ds[0], known)) {
      p := 0;
      assert ds[..0] == [];
    } else {
      var rows' := Insert(rows, ds[0]);
      assert forall d :: d in ds[1..] ==> d in ds;
      var q := PutStops(rows', ds[1..], known);
      p := q + 1;
      forall k: nat ensures Fails(rows', ds[1..], known, k) <==> Fails(rows, ds, known, k + 1) {
        FailsLater(rows, ds, known, k);
      }
      forall k: nat | k < p ensures !Fails(rows, ds, known, k) {
        if k > 0 { assert !Fails(rows', ds[1..], known, k - 1); }
      }
      assert ds[..p][0] == ds[0] && ds[..p][1..] == ds[1..][..q];
    }
  }

  lemma EscalationKeys(open: seq<OpenRow>, now: int)
    ensures KeysTellChannels(EscalationRows(open, now))
  {
    forall d | d in EscalationRows(open, now) ensures d.key.channel == d.channel {
      EscalationExactly(open, now, d);
    }
  }

  /**
  The pass completes iff no due step names an unknown channel whose key is not stored, and then every
  due step's key is in the table.  In any case every new row is a due step, keys are still unique, and
  running it again at the same instant adds nothing and ends alike.
  */
  lemma EscalationPass(rows: seq<Delivery>, open: seq<OpenRow>, now: int, known: set<ChannelId>)
    requires UniqueKeys(rows)
    ensures var r := Put(rows, EscalationRows(open, now), known);
      && (r.ok <==> forall d :: Justified(open, now, d) ==> Known(d, known) || HasKey(rows, d.key))
      && (r.ok ==> forall d :: Justified(open, now, d) ==> HasKey(r.rows, d.key))
      && UniqueKeys(r.rows) && rows <= r.rows
      && (forall i :: |rows| <= i < |r.rows| ==>
            Justified(open, now, r.rows[i]) && Known(r.rows[i], known) && !HasKey(rows, r.rows[i].key))
      && Put(r.rows, EscalationRows(open, now), known) == r
  {
    var ds := EscalationRows(open, now);
    EscalationKeys(open, now);
    var p := PutStops(rows, ds, known);
    var r := InsertAll(rows, ds[..p]);
    InsertAllExactly(rows, ds[..p]);
    forall d ensures d in ds <==> Justified(open, now, d) {
      EscalationExactly(open, now, d);
    }
    hide EscalationRows, Justified, InsertAll, UniqueKeys, Known;
    CompletesWhen(rows, ds, known, p);
    forall i | |rows| <= i < |r| ensures r[i] in ds && Known(r[i], known) && !HasKey(rows, r[i].key) {
      NewAreKnown(rows, ds, known, p, r[i]);
    }
    if p == |ds| {
      assert ds[..p] == ds;
      forall d | d in ds ensures HasKey(r, d.key) {
        assert HasKey(ds, d.key);
      }
    }
    SecondPassIdle(rows, ds, known, p);
  }

  lemma CompletesWhen(rows: seq<Delivery>, ds: seq<Delivery>, known: set<ChannelId>, p: nat)
    requires p <= |ds| && Clears(rows, ds, known, p) && (p < |ds| ==> Fails(rows, ds, known, p))
    ensures p == |ds| <==> forall d :: d in ds ==> Known(d, known) || HasKey(rows, d.key)
  {
    if p == |ds| {
      forall d | d in ds ensures Known(d, known) || HasKey(rows, d.key) {
        var q :| 0 <= q < |ds| && ds[q] == d;
        assert !Fails(rows, ds, known, q);
      }
    } else {
      assert ds[p] in ds;
    }
  }

  lemma NewAreKnown(rows: seq<Delivery>, ds: seq<Delivery>, known: set<ChannelId>, p: nat, d: Delivery)
    requires p <= |ds| && Clears(rows, ds, known, p) && d in ds[..p] && !HasKey(rows, d.key)
    ensures d in ds && Known(d, known)
  {
    var q :| 0 <= q < p && ds[..p][q] == d;
    assert !Fails(rows, ds, known, q);
  }

  lemma SecondPassIdle(rows: seq<Delivery>, ds: seq<Delivery>, known: set<ChannelId>, p: nat)
    requires UniqueKeys(rows) && KeysTellChannels(ds)
    requires p <= |ds| && Clears(rows, ds, known, p) && (p < |ds| ==> Fails(rows, ds, known, p))
    ensures var r := InsertAll(rows, ds[..p]); Put(r, ds, known) == Outcome(r, p == |ds|)
  {
    var r := InsertAll(rows, ds[..p]);
    InsertAllExactly(rows, ds[..p]);
    forall q: nat | q < p ensures HasKey(r, ds[q].key) {
      assert ds[q] in ds[..p];
      assert HasKey(ds[..p], ds[q].key);
    }
    if p < |ds| {
      if HasKey(ds[..p], ds[p].key) {
        var x :| x in ds[..p] && x.key == ds[p].key;
        var q :| 0 <= q < p && ds[q] == x;
        assert x in ds && ds[p] in ds;
        assert Fails(rows, ds, known, q);
      }
    }
    KnownKeysSkipped(r, ds, known, p);
  }

  lemma {:induction false} KnownKeysSkipped(rows: seq<Delivery>, ds: seq<Delivery>, known: set<ChannelId>, p: nat)
    requires p <= |ds| && forall q: nat :: q < p ==> HasKey(rows, ds[q].key)
    requires p < |ds| ==> Fails(rows, ds, known, p)
    ensures Put(rows, ds, known) == Outcome(rows, p == |ds|)
    decreases p
  {
    if p > 0 {
      assert forall q: nat :: q < p - 1 ==> ds[1..][q] == ds[q + 1];
      KnownKeysSkipped(rows, ds[1..], known, p - 1);
    }
  }

  /** What was due before the stop is there. */
  lemma DueBeforeStop(rows: seq<Delivery>, open: seq<OpenRow>, now: int, known: set<ChannelId>) returns (p: nat)
    requires UniqueKeys(rows)
    ensures var ds, r := EscalationRows(open, now), Put(rows, EscalationRows(open, now), known);
      && p <= |ds| && (r.ok <==> p == |ds|) && (p < |ds| ==> Fails(rows, ds, known, p))
      && (forall q :: 0 <= q < p ==> HasKey(r.rows, ds[q].key))
      && (forall x :: x in r.rows ==> x in rows || x in ds[..p])
  {
    var ds := EscalationRows(open, now);
    EscalationKeys(open, now);
    p := PutStops(rows, ds, known);
    InsertAllExactly(rows, ds[..p]);
    var r := InsertAll(rows, ds[..p]);
    forall q | 0 <= q < p ensures HasKey(r, ds[q].key) {
      assert ds[q] in ds[..p];
      assert HasKey(ds[..p], ds[q].key);
    }
    forall x | x in r ensures x in rows || x in ds[..p] {
      var i :| 0 <= i < |r| && r[i] == x;
      if i < |rows| { assert rows[i] == x; }
    }
  }

  /** A policy whose first step names an unknown channel keeps its second from ever being enqueued. */
  lemma UnknownChannelStops(i: IncidentId, startedAt: int, r: Route, bad: ChannelId, good: ChannelId, now: int)
    requires bad != good && now >= startedAt && r.policy == Some([EscalationStep(0, [bad]), EscalationStep(0, [good])])
    ensures var open := [OpenRow(i, startedAt, [r])];
      && Justified(open, now, StepDelivery(i, r, 1, good, now))
      && Put([], EscalationRows(open, now), {good}) == Outcome([], false)
  {
    var steps, open := r.policy.value, [OpenRow(i, startedAt, [r])];
    assert Waited(startedAt, steps[0], now) && Waited(startedAt, steps[1], now);
    assert JustifiedBy(open, now, StepDelivery(i, r, 1, good, now), open[0], r, 1);
    var first := StepRows(i, r, 0, [bad], now);
    assert first[0] == StepDelivery(i, r, 0, bad, now);
    assert PolicyRows(i, startedAt, r, steps, 0, now) == first + PolicyRows(i, startedAt, r, steps, 1, now);
    assert RouteRows(i, startedAt, [r], now)[0] == first[0];
    assert EscalationRows(open, now)[0] == first[0];
  }

  // ----- which due steps get a row of their own -----

  /** The step that a row of a pass stands for: its incident, channel and index are its key. */
  lemma StepKeys(open: seq<OpenRow>, now: int, d: Delivery)
    requires d in EscalationRows(open, now)
    ensures exists o, r, idx: nat :: JustifiedBy(open, now, d, o, r, idx) && d.channel.Some? && d.key == Key(o.id, d.channel, idx)
  {
    EscalationExactly(open, now, d);
    var o, r, idx: nat :| JustifiedBy(open, now, d, o, r, idx);
    assert d.key == Key(o.id, d.channel, idx);
  }

  /**
  A due step gets a row of its own iff the pass comes to it, its channel is known, and no row is stored,
  and no earlier due step of the pass asked for, with the same incident, channel and index: of any
  policy, route, or earlier firing.
  */
  lemma StepEntersWhen(rows: seq<Delivery>, open: seq<OpenRow>, now: int, known: set<ChannelId>, p: nat)
    requires UniqueKeys(rows) && p < |EscalationRows(open, now)|
    ensures var ds := EscalationRows(open, now);
      var before, after := Put(rows, ds[..p], known), Put(rows, ds[..p + 1], known);
      && (after.rows == before.rows + [ds[p]] <==>
            before.ok && Known(ds[p], known)
            && (forall x :: x in rows ==> x.key != Key(ds[p].incident, ds[p].channel, ds[p].key.window))
            && (forall q :: 0 <= q < p ==>
                  ds[q].incident != ds[p].incident || ds[q].channel != ds[p].channel || ds[q].key.window != ds[p].key.window))
      && (after.rows == before.rows || after.rows == before.rows + [ds[p]])
  {
    var ds := EscalationRows(open, now);
    var before := Put(rows, ds[..p], known);
    EscalationKeys(open, now);
    assert ds[..p + 1] == ds[..p] + [ds[p]];
    PutAppend(rows, ds[..p], [ds[p]], known);
    assert [ds[p]][1..] == [];
    assert |before.rows + [ds[p]]| == |before.rows| + 1;
    if before.ok {
      assert forall d :: d in ds[..p] ==> d in ds;
      var stop := PutStops(rows, ds[..p], known);
      assert ds[..p][..p] == ds[..p];
      InsertAllExactly(rows, ds[..p]);
      assert HasKey(before.rows, ds[p].key) <==> HasKey(rows, ds[p].key) || HasKey(ds[..p], ds[p].key);
      EarlierKeys(open, now, p);
    }
  }

  lemma EarlierKeys(open: seq<OpenRow>, now: int, p: nat)
    requires p < |EscalationRows(open, now)|
    ensures var ds := EscalationRows(open, now);
      && ds[p].key == Key(ds[p].incident, ds[p].channel, ds[p].key.window)
      && (HasKey(ds[..p], ds[p].key) <==>
            exists q ::
              0 <= q < p && ds[q].incident == ds[p].incident && ds[q].channel == ds[p].channel
              && ds[q].key.window == ds[p].key.window)
  {
    var ds := EscalationRows(open, now);
    forall q | 0 <= q <= p ensures ds[q].key == Key(ds[q].incident, ds[q].channel, ds[q].key.window) {
      StepKeys(open, now, ds[q]);
    }
    hide EscalationRows;
    if HasKey(ds[..p], ds[p].key) {
      var x :| x in ds[..p] && x.key == ds[p].key;
      var q :| 0 <= q < p && ds[q] == x;
    }
    if q :| 0 <= q < p && ds[q].incident == ds[p].incident && ds[q].channel == ds[p].channel && ds[q].key.window == ds[p].key.window {
      assert ds[q] in ds[..p] && ds[q].key == ds[p].key;
    }
  }

  /** A notification of a channel takes the key of a step of that channel iff its repeat window is the step's index. */
  lemma NotificationTakesStepKeyWhen(route: Route, ch: ChannelId, incident: IncidentId, at: int, i: IncidentId, r: Route, idx: nat,
                                     other: ChannelId, now: int)
    requires at >= 0
    ensures Notification(route, Some(ch), incident, at).key == StepDelivery(i, r, idx, other, now).key
      <==> (incident == i && ch == other
            && idx * AtLeastOne(route.repeatInterval) <= at / 1000 < (idx + 1) * AtLeastOne(route.repeatInterval))
  {
    Window(at / 1000, AtLeastOne(route.repeatInterval), idx);
  }

  lemma Window(s: nat, n: nat, idx: nat)
    requires n > 0
    ensures s / n == idx <==> idx * n <= s < (idx + 1) * n
  {
    var q := s / n;
    assert q * n <= s < q * n + n;
    if q < idx { Products(q + 1, idx, n); }
    if idx < q { Products(idx + 1, q, n); }
  }

  lemma Products(a: nat, b: nat, n: nat)
    requires a <= b
    ensures a * n <= b * n
  {
    assert b * n == a * n + (b - a) * n;
  }

  const SEPTEMBER_2020 := 1_600_000_000_000

  const TWO_WEEKS := 14 * 24 * 3600

  /** With a repeat interval that the settings accept no policy of up to 1,322 steps meets a notification's key. */
  lemma AcceptedIntervalsKeepApart(route: Route, ch: ChannelId, incident: IncidentId, at: int, i: IncidentId, r: Route, idx: nat,
                                   other: ChannelId, now: int)
    requires 1 <= route.repeatInterval <= TWO_WEEKS && at >= SEPTEMBER_2020 && idx < 1322
    ensures Notification(route, Some(ch), incident, at).key != StepDelivery(i, r, idx, other, now).key
  {
    NotificationTakesStepKeyWhen(route, ch, incident, at, i, r, idx, other, now);
    Products(idx + 1, 1322, route.repeatInterval);
    Scaled(1322, route.repeatInterval, TWO_WEEKS);
  }

  lemma Scaled(a: nat, n: nat, m: nat)
    requires n <= m
    ensures a * n <= a * m
  {
    assert a * m == a * n + a * (m - n);
  }

  // ----- over all firings -----

  /**
  A channel is escalated to at an index at most once for all firings of a rule: they share one
  incident, and the row that has the key stays the only one with it.
  */
  lemma EscalatedOnceForAllFirings(events: seq<Event>, more: seq<Event>, rule: RuleId, id: IncidentId, later: IncidentId,
                                   steps: seq<QueueStep>, further: seq<QueueStep>, k: nat, j: nat, ch: ChannelId, idx: nat)
    requires OpenIncident(AfterAll(events), id, rule) && OpenIncident(AfterAll(events + more), later, rule)
    requires AddsFresh(steps + further)
    requires k < |RowsAfter(steps)| && RowsAfter(steps)[k].key == Key(id, Some(ch), idx)
    requires j < |RowsAfter(steps + further)| && RowsAfter(steps + further)[j].key == Key(later, Some(ch), idx)
    ensures j == k
  {
    OneIncidentForAllFirings(events, more, rule, id, later);
    KeysStay(steps, further);
    RowsLive(steps + further);
  }

  /** The rows of open incidents are as the tables have them. */
  ghost predicate Listed(open: seq<OpenRow>, t: Tables) {
    forall o :: o in open ==>
      o.id in t.incidents && t.incidents[o.id].status.Open? && o.startedAt == t.incidents[o.id].startedAt
  }

  ghost predicate DueSinceFirst(events: seq<Event>, open: seq<OpenRow>, now: int, d: Delivery, o: OpenRow, r: Route, idx: nat) {
    var t := AfterAll(events);
    && o in open && r in o.routes && r.policy.Some? && idx < |r.policy.value|
    && o.id in t.incidents && Promotions(events, t.incidents[o.id].rule) != []
    && Waited(Promotions(events, t.incidents[o.id].rule)[0], r.policy.value[idx], now)
    && d.channel.Some? && d.channel.value in r.policy.value[idx].channels
    && d == StepDelivery(o.id, r, idx, d.channel.value, now)
  }

  /** In every reachable state the pass asks for the steps whose wait has passed since their rule first fired. */
  lemma WaitsRunFromFirstFiring(events: seq<Event>, open: seq<OpenRow>, now: int, d: Delivery)
    requires Listed(open, AfterAll(events))
    ensures d in EscalationRows(open, now) <==> exists o, r, idx: nat :: DueSinceFirst(events, open, now, d, o, r, idx)
  {
    EscalationExactly(open, now, d);
    StartsAtFirstPromotion(events);
    hide Waited, StepDelivery, Promotions, EscalationRows;
    if o, r, idx: nat :| JustifiedBy(open, now, d, o, r, idx) {
      assert DueSinceFirst(events, open, now, d, o, r, idx);
    }
    if o, r, idx: nat :| DueSinceFirst(events, open, now, d, o, r, idx) {
      assert JustifiedBy(open, now, d, o, r, idx);
    }
  }

  lemma SameWaitsWhen(first: int, current: int)
    requires first <= current
    ensures (forall now, step :: now >= current ==> (Waited(first, step, now) <==> Waited(current, step, now)))
      <==> first == current
  {
    if first < current {
      var k := (current - first + 999) / 1000;
      var now, step := first + 1000 * k, EscalationStep(k, []);
      assert k >= 1 && NumSeconds(1000 * k) == k;
      assert 0 <= now - current < 1000 && NumSeconds(now - current) == 0;
      assert Waited(first, step, now) && !Waited(current, step, now);
    }
  }

  /** An open incident's waits run from the current firing iff its rule was promoted once. */
  lemma WaitsAreCurrentWhen(events: seq<Event>, id: IncidentId, rule: RuleId)
    requires Clocked(events) && OpenIncident(AfterAll(events), id, rule)
    ensures Promotions(events, rule) != []
    ensures var ps, start := Promotions(events, rule), AfterAll(events).incidents[id].startedAt;
      (forall now, step :: now >= ps[|ps| - 1] ==> (Waited(start, step, now) <==> Waited(ps[|ps| - 1], step, now)))
      <==> |ps| == 1
  {
    StartIsCurrentWhen(events, id, rule);
    PromotionsIncrease(events, rule);
    var ps := Promotions(events, rule);
    SameWaitsWhen(ps[0], ps[|ps| - 1]);
  }

  // ----- a run in which a rule fires twice -----

  function TwoFirings(rule: RuleId): seq<Event> {
    [Evaluate(rule, Eval(true, 0, 0)), Evaluate(rule, Eval(true, 1_000, 0)), Evaluate(rule, Eval(false, 2_000, 0)),
     Evaluate(rule, Eval(true, 60_000, 0)), Evaluate(rule, Eval(true, 61_000, 0))]
  }

  ghost predicate At(events: seq<Event>, rule: RuleId, row: Option<Row>, ps: seq<int>) {
    RuleRow(AfterAll(events), rule) == row && Promotions(events, rule) == ps
  }

  lemma EvaluateOnce(events: seq<Event>, rule: RuleId, e: Eval, row: Option<Row>, ps: seq<int>)
    requires At(events, rule, row, ps)
    ensures var next := Step(row, e);
      At(events + [Evaluate(rule, e)], rule, Some(next),
         ps + if !(row.Some? && row.value.status.Firing?) && next.status.Firing? then [e.now] else [])
  {
    assert (events + [Evaluate(rule, e)])[..|events|] == events;
    FiringNeedsPromotion(AfterAll(events), rule, e);
  }

  lemma TwoFiringsPromoteTwice(rule: RuleId)
    ensures At(TwoFirings(rule), rule, Some(Row(RuleState.Firing, Some(60_000))), [1_000, 61_000])
    ensures Clocked(TwoFirings(rule))
  {
    var a := [] + [Evaluate(rule, Eval(true, 0, 0))];
    var b := a + [Evaluate(rule, Eval(true, 1_000, 0))];
    var c := b + [Evaluate(rule, Eval(false, 2_000, 0))];
    var d := c + [Evaluate(rule, Eval(true, 60_000, 0))];
    var e := d + [Evaluate(rule, Eval(true, 61_000, 0))];
    assert e == TwoFirings(rule);
    assert At([], rule, None, []);
    hide At;
    EvaluateOnce([], rule, Eval(true, 0, 0), None, []);
    EvaluateOnce(a, rule, Eval(true, 1_000, 0), Some(Row(RuleState.Pending, Some(0))), []);
    EvaluateOnce(b, rule, Eval(false, 2_000, 0), Some(Row(RuleState.Firing, Some(0))), [1_000]);
    EvaluateOnce(c, rule, Eval(true, 60_000, 0), Some(Row(Fine, None)), [1_000]);
    EvaluateOnce(d, rule, Eval(true, 61_000, 0), Some(Row(RuleState.Pending, Some(60_000))), [1_000]);
  }

  /** At the instant of its second firing a rule's incident is escalated through a step that waits a minute. */
  lemma RefiringEscalatesAtOnce(rule: RuleId, r: Route, ch: ChannelId) returns (id: IncidentId)
    requires r.policy == Some([EscalationStep(60, [ch])])
    ensures Promotions(TwoFirings(rule), rule) == [1_000, 61_000] && OpenIncident(AfterAll(TwoFirings(rule)), id, rule)
    ensures var o := OpenRow(id, AfterAll(TwoFirings(rule)).incidents[id].startedAt, [r]);
      StepDelivery(id, r, 0, ch, 61_000) in EscalationRows([o], 61_000)
  {
    var es := TwoFirings(rule);
    TwoFiringsPromoteTwice(rule);
    IncidentsFollowRules(es, rule);
    assert forall e :: e in es ==> e.Evaluate?;
    id :| OpenIncident(AfterAll(es), id, rule);
    StartsAtFirstPromotion(es);
    hide AfterAll, Promotions;
    var o, d := OpenRow(id, AfterAll(es).incidents[id].startedAt, [r]), StepDelivery(id, r, 0, ch, 61_000);
    assert Waited(1_000, r.policy.value[0], 61_000);
    assert JustifiedBy([o], 61_000, d, o, r, 0);
    EscalationExactly([o], 61_000, d);
  }
}
