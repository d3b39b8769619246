/**
The delivery queue: rows with idempotency keys, the retries of one row with their backoff, and the
pass that processes the rows that are due.
*/
module Deliveries {
  import opened Incidents
  import opened RuleState

  type ChannelId = nat

  type RouteId = nat

  /** What the idempotency key hashes, without a channel the nil identifier; the hash is taken to be injective. */
  datatype Key = Key(incident: IncidentId, channel: Option<ChannelId>, window: int)

  datatype State = Queued | Sent | Failed

  /** A row for the person on call has no channel. */
  datatype Delivery = Delivery(incident: IncidentId, route: RouteId, channel: Option<ChannelId>, key: Key,
                               state: State, attempts: nat, nextAttemptAt: int, createdAt: int)

  const MAX_ATTEMPTS := 5
  const BATCH := 200

  /** Seconds to wait after the n-th failed attempt. */
  function Backoff(n: nat): int {
    match n
    case 1 => 1
    case 2 => 4
    case 3 => 16
    case 4 => 64
    case _ => 256
  }

  predicate Due(d: Delivery, now: int) {
    d.state.Queued? && d.nextAttemptAt <= now
  }

  /** What processing finds for a row: its channel's configuration, a notification of its incident, a send that works. */
  datatype Circumstance = Circumstance(configured: bool, notified: bool, sendSucceeds: bool)

  /** A row without a channel has no kind to send by: reading it is an error, which ends the pass. */
  predicate Breaks(d: Delivery, now: int, open: bool, c: Circumstance) {
    Due(d, now) && open && d.channel.None? && c.notified
  }

  /** `open` says whether the row's incident is neither acknowledged nor resolved nor silenced. */
  function Attempt(d: Delivery, now: int, open: bool, c: Circumstance): Delivery {
    if !Due(d, now) || Breaks(d, now, open, c) then d
    else if !open then d.(state := Failed)
    else if d.channel.None? || !c.configured then d.(state := Failed, attempts := d.attempts + 1)
    else if c.sendSucceeds then d.(state := Sent, attempts := d.attempts + 1)
    else if d.attempts + 1 >= MAX_ATTEMPTS then d.(state := Failed, attempts := d.attempts + 1)
    else d.(attempts := d.attempts + 1, nextAttemptAt := now + 1000 * Backoff(d.attempts + 1))
  }

  // ----- the life of one row -----

  datatype Visit = Visit(now: int, open: bool, c: Circumstance)

  function Life(d: Delivery, visits: seq<Visit>): Delivery {
    if visits == [] then d
    else
      var v := visits[|visits| - 1];
      Attempt(Life(d, visits[..|visits| - 1]), v.now, v.open, v.c)
  }

  predicate Tries(d: Delivery, v: Visit) {
    Due(d, v.now) && v.open && d.channel.Some? && v.c.configured
  }

  /** The times at which the row was sent, or tried to be. */
  function SendTimes(d: Delivery, visits: seq<Visit>): seq<int> {
    if visits == [] then []
    else
      var init, v := visits[..|visits| - 1], visits[|visits| - 1];
      SendTimes(d, init) + (if Tries(Life(d, init), v) then [v.now] else [])
  }

  /** Consecutive attempts are at least the backoff apart. */
  predicate Spaced(times: seq<int>) {
    forall i :: 1 <= i < |times| ==> times[i] >= times[i - 1] + 1000 * Backoff(i)
  }

  ghost predicate Fresh(d: Delivery) { d.state.Queued? && d.attempts == 0 }

  ghost predicate LifeInvariant(d: Delivery, times: seq<int>) {
    && |times| <= MAX_ATTEMPTS && Spaced(times)
    && (d.state.Queued? ==> d.attempts == |times| < MAX_ATTEMPTS)
    && (d.state.Queued? && times != [] ==>
          d.nextAttemptAt == times[|times| - 1] + 1000 * Backoff(|times|))
    && (d.state.Sent? ==> times != [] && d.attempts == |times|)
  }

  lemma {:induction false} LifeHolds(d: Delivery, visits: seq<Visit>)
    requires Fresh(d)
    ensures LifeInvariant(Life(d, visits), SendTimes(d, visits))
  {
    if visits != [] {
      var init, v := visits[..|visits| - 1], visits[|visits| - 1];
      LifeHolds(d, init);
      var was, times := Life(d, init), SendTimes(d, init);
      if !Tries(was, v) { assert times + [] == times; }
    }
  }

  lemma {:induction false} SettledStays(d: Delivery, visits: seq<Visit>)
    requires !d.state.Queued?
    ensures Life(d, visits) == d
  {
    if visits != [] { SettledStays(d, visits[..|visits| - 1]); }
  }

  ghost predicate AlwaysFails(visits: seq<Visit>) {
    forall v :: v in visits ==> v.open && v.c.configured && !v.c.sendSucceeds
  }

  lemma {:induction false} FailingLife(d: Delivery, visits: seq<Visit>)
    requires Fresh(d) && d.channel.Some? && AlwaysFails(visits)
    ensures var r := Life(d, visits);
      && r.attempts == |SendTimes(d, visits)| <= MAX_ATTEMPTS && r.channel == d.channel
      && (r.state == if r.attempts == MAX_ATTEMPTS then Failed else Queued)
  {
    if visits != [] {
      var init, v := visits[..|visits| - 1], visits[|visits| - 1];
      assert v in visits;
      FailingLife(d, init);
    }
  }

  /**
  A row whose sends always fail becomes failed exactly at its fifth attempt, at least 85 seconds
  after the first.
  */
  lemma FailsAtFifthAttempt(d: Delivery, visits: seq<Visit>)
    requires Fresh(d) && d.channel.Some? && AlwaysFails(visits)
    ensures var times := SendTimes(d, visits);
      && (Life(d, visits).state.Failed? <==> |times| == MAX_ATTEMPTS)
      && (Life(d, visits).state.Failed? ==> times[4] >= times[0] + 85_000)
  {
    LifeHolds(d, visits);
    FailingLife(d, visits);
    var times := SendTimes(d, visits);
    if |times| == MAX_ATTEMPTS {
      assert times[1] >= times[1 - 1] + 1000 * Backoff(1);
      assert times[2] >= times[2 - 1] + 1000 * Backoff(2);
      assert times[3] >= times[3 - 1] + 1000 * Backoff(3);
      assert times[4] >= times[4 - 1] + 1000 * Backoff(4);
    }
  }

  // ----- the table -----

  ghost predicate UniqueKeys(rows: seq<Delivery>) {
    forall i, j :: 0 <= i < j < |rows| ==> rows[i].key != rows[j].key
  }

  predicate HasKey(rows: seq<Delivery>, key: Key) {
    exists d :: d in rows && d.key == key
  }

  /** INSERT ... ON CONFLICT (idempotency_key) DO NOTHING */
  function Insert(rows: seq<Delivery>, d: Delivery): seq<Delivery> {
    if HasKey(rows, d.key) then rows else rows + [d]
  }

  function InsertAll(rows: seq<Delivery>, ds: seq<Delivery>): seq<Delivery>
    decreases ds
  {
    if ds == [] then rows else InsertAll(Insert(rows, ds[0]), ds[1..])
  }

  lemma {:induction false} InsertAllExactly(rows: seq<Delivery>, ds: seq<Delivery>)
    requires UniqueKeys(rows)
    ensures var r := InsertAll(rows, ds);
      && UniqueKeys(r) && rows <= r
      && (forall key :: HasKey(r, key) <==> HasKey(rows, key) || HasKey(ds, key))
      && (forall i :: |rows| <= i < |r| ==> r[i] in ds && !HasKey(rows, r[i].key))
    decreases ds
  {
    if ds != [] {
      InsertOne(rows, ds[0]);
      InsertAllExactly(Insert(rows, ds[0]), ds[1..]);
      assert ds == [ds[0]] + ds[1..];
      forall key ensures HasKey(ds, key) <==> ds[0].key == key || HasKey(ds[1..], key) {
      }
    }
  }

  lemma InsertOne(rows: seq<Delivery>, d: Delivery)
    requires UniqueKeys(rows)
    ensures var r := Insert(rows, d);
      UniqueKeys(r) && rows <= r && forall key :: HasKey(r, key) <==> HasKey(rows, key) || d.key == key
  {
    if !HasKey(rows, d.key) {
      var r := rows + [d];
      forall i | 0 <= i < |rows| ensures rows[i].key != d.key {
        assert rows[i] in rows;
      }
      forall key ensures HasKey(r, key) <==> HasKey(rows, key) || d.key == key {
        if HasKey(rows, key) {
          var x :| x in rows && x.key == key;
          assert x in r;
        }
        assert d in r;
      }
    }
  }

  lemma {:induction false} InsertKnown(rows: seq<Delivery>, ds: seq<Delivery>)
    requires forall d :: d in ds ==> HasKey(rows, d.key)
    ensures InsertAll(rows, ds) == rows
    decreases ds
  {
    if ds != [] {
      assert ds[0] in ds;
      InsertKnown(rows, ds[1..]);
    }
  }

  /** Inserting the same rows again adds nothing. */
  lemma InsertTwice(rows: seq<Delivery>, ds: seq<Delivery>)
    requires UniqueKeys(rows)
    ensures InsertAll(InsertAll(rows, ds), ds) == InsertAll(rows, ds)
  {
    InsertAllExactly(rows, ds);
    forall d | d in ds ensures HasKey(InsertAll(rows, ds), d.key) {
      assert HasKey(ds, d.key);
    }
    InsertKnown(InsertAll(rows, ds), ds);
  }

  /** How many of the first n rows are due. */
  function DueBefore(rows: seq<Delivery>, n: nat, now: int): nat
    requires n <= |rows|
  {
    if n == 0 then 0 else DueBefore(rows, n - 1, now) + (if Due(rows[n - 1], now) then 1 else 0)
  }

  /** The pass takes the first 200 due rows, in order of creation. */
  predicate Selected(rows: seq<Delivery>, i: nat, now: int)
    requires i < |rows|
  {
    Due(rows[i], now) && DueBefore(rows, i, now) < BATCH
  }

  /** No row selected before the i-th ends the pass. */
  predicate Reaches(rows: seq<Delivery>, i: nat, now: int, open: set<IncidentId>, cs: nat -> Circumstance)
    requires i <= |rows|
  {
    forall k :: 0 <= k < i && Selected(rows, k, now) ==> !Breaks(rows[k], now, rows[k].incident in open, cs(k))
  }

  /** The pass over the open incidents; `cs(i)` is what it finds for row i. */
  function Pass(rows: seq<Delivery>, now: int, open: set<IncidentId>, cs: nat -> Circumstance): (r: seq<Delivery>)
    ensures |r| == |rows|
    ensures forall i :: 0 <= i < |rows| ==>
      r[i] == if Selected(rows, i, now) && Reaches(rows, i, now, open, cs)
              then Attempt(rows[i], now, rows[i].incident in open, cs(i)) else rows[i]
  {
    seq(|rows|, i requires 0 <= i < |rows| =>
      if Selected(rows, i, now) && Reaches(rows, i, now, open, cs)
      then Attempt(rows[i], now, rows[i].incident in open, cs(i)) else rows[i])
  }

  // ----- runs of the queue -----

  datatype QueueStep = Add(d: Delivery) | Process(now: int, open: set<IncidentId>, cs: nat -> Circumstance)

  function Next(rows: seq<Delivery>, p: QueueStep): seq<Delivery> {
    match p
    case Add(d) => Insert(rows, d)
    case Process(now, open, cs) => Pass(rows, now, open, cs)
  }

  function RowsAfter(steps: seq<QueueStep>): seq<Delivery> {
    if steps == [] then [] else Next(RowsAfter(steps[..|steps| - 1]), steps[|steps| - 1])
  }

  ghost predicate AddsFresh(steps: seq<QueueStep>) {
    forall i :: 0 <= i < |steps| && steps[i].Add? ==> Fresh(steps[i].d)
  }

  /** The row as it was inserted. */
  function Added(steps: seq<QueueStep>, i: nat): Delivery
    requires i < |RowsAfter(steps)|
  {
    var init, last := steps[..|steps| - 1], steps[|steps| - 1];
    if i < |RowsAfter(init)| then Added(init, i) else last.d
  }

  predicate Taken(rows: seq<Delivery>, i: nat, p: QueueStep)
    requires i < |rows| && p.Process?
  {
    Selected(rows, i, p.now) && Reaches(rows, i, p.now, p.open, p.cs)
  }

  /** The passes that took the row. */
  function VisitsOf(steps: seq<QueueStep>, i: nat): seq<Visit>
    requires i < |RowsAfter(steps)|
  {
    var init, last := steps[..|steps| - 1], steps[|steps| - 1];
    if i >= |RowsAfter(init)| then []
    else if last.Process? && Taken(RowsAfter(init), i, last) then
      VisitsOf(init, i) + [Visit(last.now, RowsAfter(init)[i].incident in last.open, last.cs(i))]
    else VisitsOf(init, i)
  }

  lemma PassKeepsKeys(rows: seq<Delivery>, now: int, open: set<IncidentId>, cs: nat -> Circumstance)
    requires UniqueKeys(rows)
    ensures UniqueKeys(Pass(rows, now, open, cs))
  {
    var r := Pass(rows, now, open, cs);
    assert forall d: Delivery, o, c :: Due(d, now) ==> Attempt(d, now, o, c).key == d.key;
    hide Attempt, Reaches, DueBefore;
    forall i, j | 0 <= i < j < |r| ensures r[i].key != r[j].key {
      assert r[i].key == rows[i].key && r[j].key == rows[j].key;
    }
  }

  /** In every run keys are unique, and every row is what the passes that took it made of a fresh delivery. */
  lemma {:induction false} RowsLive(steps: seq<QueueStep>)
    requires AddsFresh(steps)
    ensures UniqueKeys(RowsAfter(steps))
    ensures forall i :: 0 <= i < |RowsAfter(steps)| ==>
      Fresh(Added(steps, i)) && RowsAfter(steps)[i] == Life(Added(steps, i), VisitsOf(steps, i))
  {
    if steps != [] {
      var init, last := steps[..|steps| - 1], steps[|steps| - 1];
      RowsLive(init);
      var before, after := RowsAfter(init), RowsAfter(steps);
      if last.Add? { InsertOne(before, last.d); } else { PassKeepsKeys(before, last.now, last.open, last.cs); }
      hide UniqueKeys, Attempt, Selected, Reaches;
      forall i | 0 <= i < |after|
        ensures Fresh(Added(steps, i)) && after[i] == Life(Added(steps, i), VisitsOf(steps, i))
      {
        if i < |before| {
          LifeAfterStep(init, last, i);
        } else {
          assert Life(last.d, []) == last.d;
        }
      }
    }
  }

  lemma LifeAfterStep(init: seq<QueueStep>, last: QueueStep, i: nat)
    requires i < |RowsAfter(init)| && RowsAfter(init)[i] == Life(Added(init, i), VisitsOf(init, i))
    ensures var steps := init + [last];
      && i < |RowsAfter(steps)| && Added(steps, i) == Added(init, i)
      && RowsAfter(steps)[i] == Life(Added(steps, i), VisitsOf(steps, i))
  {
    var steps := init + [last];
    assert steps[..|steps| - 1] == init;
    if last.Process? && Taken(RowsAfter(init), i, last) {
      var v := Visit(last.now, RowsAfter(init)[i].incident in last.open, last.cs(i));
      assert (VisitsOf(init, i) + [v])[..|VisitsOf(init, i)|] == VisitsOf(init, i);
    }
  }

  /** In every run every row is sent or tried at most five times, at least its backoffs apart. */
  lemma QueueAttempts(steps: seq<QueueStep>, i: nat)
    requires AddsFresh(steps) && i < |RowsAfter(steps)|
    ensures var times := SendTimes(Added(steps, i), VisitsOf(steps, i));
      |times| <= MAX_ATTEMPTS && Spaced(times)
      && (RowsAfter(steps)[i].state.Queued? ==> RowsAfter(steps)[i].attempts == |times| < MAX_ATTEMPTS)
  {
    RowsLive(steps);
    LifeHolds(Added(steps, i), VisitsOf(steps, i));
  }

  // ----- what the passes make of a row -----

  /** The times of the sends that failed, of a row with a channel. */
  function FailedSends(visits: seq<Visit>): seq<int> {
    if visits == [] then []
    else
      var v := visits[|visits| - 1];
      FailedSends(visits[..|visits| - 1]) + (if v.open && v.c.configured && !v.c.sendSucceeds then [v.now] else [])
  }

  /** Seconds from the n-th failed send to the next attempt. */
  ghost predicate WaitsSeconds(n: nat, wait: int) {
    (n == 1 ==> wait == 1) && (n == 2 ==> wait == 4) && (n == 3 ==> wait == 16) && (n == 4 ==> wait == 64)
  }

  /** The last pass that took the row ended it: its incident was closed, nothing could be sent, the send worked, or it was the fifth to fail. */
  ghost predicate EndedBy(d: Delivery, visits: seq<Visit>, state: State) {
    visits != [] &&
    var v := visits[|visits| - 1];
    match state
    case Sent => v.open && d.channel.Some? && v.c.configured && v.c.sendSucceeds
    case Failed =>
      || !v.open
      || (d.channel.None? && !v.c.notified)
      || (d.channel.Some? && !v.c.configured)
      || (d.channel.Some? && v.c.configured && !v.c.sendSucceeds && |FailedSends(visits)| == 5)
    case Queued => false
  }

  /** What a row is, by the passes that took it: how it ended, or when it is due. */
  ghost predicate RowIs(d: Delivery, visits: seq<Visit>, r: Delivery) {
    && (r.state.Sent? <==> EndedBy(d, visits, Sent))
    && (r.state.Failed? <==> EndedBy(d, visits, Failed))
    && (r.state.Queued? ==> d.channel.Some? ==> QueuedAgain(d, FailedSends(visits), r))
    && (r.state.Queued? && d.channel.None? ==> r == d)
    && (r.state.Sent? ==> r.attempts == |FailedSends(visits)| + 1)
    && (r.state.Failed? && visits != [] ==> r.attempts == AttemptsFailed(d, visits))
    && (r.incident, r.route, r.channel, r.key, r.createdAt) == (d.incident, d.route, d.channel, d.key, d.createdAt)
  }

  /** The attempts of a failed row: its failed sends, and one more if there was nothing to send by. */
  ghost function AttemptsFailed(d: Delivery, visits: seq<Visit>): nat
    requires visits != []
  {
    var v := visits[|visits| - 1];
    if d.channel.None? then (if v.open then 1 else 0)
    else |FailedSends(visits)| + if v.open && !v.c.configured then 1 else 0
  }

  /** Queued after some failed sends: due a number of seconds after the last, or as at first. */
  ghost predicate QueuedAgain(d: Delivery, failed: seq<int>, r: Delivery) {
    && |failed| < 5 && r.attempts == |failed|
    && (failed == [] ==> r.nextAttemptAt == d.nextAttemptAt)
    && (failed != [] ==> exists wait :: WaitsSeconds(|failed|, wait) && r.nextAttemptAt == failed[|failed| - 1] + 1000 * wait)
  }

  /** All but the last pass left the row queued. */
  ghost predicate TakenQueued(d: Delivery, visits: seq<Visit>) {
    forall n :: 0 <= n < |visits| ==> Due(Life(d, visits[..n]), visits[n].now)
  }

  lemma AttemptIs(d: Delivery, visits: seq<Visit>, was: Delivery, v: Visit)
    requires Fresh(d) && RowIs(d, visits, was) && Due(was, v.now)
    ensures RowIs(d, visits + [v], Attempt(was, v.now, v.open, v.c))
  {
    var all, r := visits + [v], Attempt(was, v.now, v.open, v.c);
    assert all[..|visits|] == visits && all[|all| - 1] == v;
    var failed, fails := FailedSends(visits), v.open && v.c.configured && !v.c.sendSucceeds;
    assert FailedSends(all) == if fails then failed + [v.now] else failed;
    hide FailedSends;
    if d.channel.Some? {
      assert was.attempts == |failed|;
      assert r.state.Queued? <==> fails && |failed| + 1 < 5;
      if r.state.Queued? {
        assert WaitsSeconds(|failed| + 1, Backoff(|failed| + 1));
        assert QueuedAgain(d, failed + [v.now], r);
      }
    }
    hide QueuedAgain;
  }

  lemma {:induction false} LifeIs(d: Delivery, visits: seq<Visit>)
    requires Fresh(d) && TakenQueued(d, visits)
    ensures RowIs(d, visits, Life(d, visits))
  {
    if visits != [] {
      var init := visits[..|visits| - 1];
      assert forall n :: 0 <= n < |init| ==> init[..n] == visits[..n] && init[n] == visits[n];
      LifeIs(d, init);
      assert Due(Life(d, init), visits[|init|].now);
      AttemptIs(d, init, Life(d, init), visits[|init|]);
      assert init + [visits[|init|]] == visits;
    }
  }

  /** A pass only takes rows that are due. */
  lemma {:induction false} VisitsTakeDue(steps: seq<QueueStep>, i: nat)
    requires AddsFresh(steps) && i < |RowsAfter(steps)|
    ensures TakenQueued(Added(steps, i), VisitsOf(steps, i))
  {
    var init, last := steps[..|steps| - 1], steps[|steps| - 1];
    if i < |RowsAfter(init)| {
      VisitsTakeDue(init, i);
      if last.Process? && Taken(RowsAfter(init), i, last) {
        RowsLive(init);
        var before := VisitsOf(init, i);
        var all := VisitsOf(steps, i);
        forall n | 0 <= n < |all| ensures Due(Life(Added(steps, i), all[..n]), all[n].now) {
          if n < |before| {
            assert all[..n] == before[..n] && all[n] == before[n];
          } else {
            assert all[..n] == before;
          }
        }
      }
    }
  }

  /**
  In every run a row is sent iff the pass that last took it tried it and the send worked; it is failed iff
  that pass found its incident closed, or nothing to send by, or saw its fifth send fail; and else it is
  queued, due 1, 4, 16 or 64 seconds after its first to fourth failed send.
  */
  lemma RowsExactly(steps: seq<QueueStep>, i: nat)
    requires AddsFresh(steps) && i < |RowsAfter(steps)|
    ensures RowIs(Added(steps, i), VisitsOf(steps, i), RowsAfter(steps)[i])
  {
    RowsLive(steps);
    VisitsTakeDue(steps, i);
    LifeIs(Added(steps, i), VisitsOf(steps, i));
  }

  // ----- which rows a pass takes -----

  /** The positions before i of rows that are queued and due. */
  ghost function DueAt(rows: seq<Delivery>, i: nat, now: int): set<nat>
    requires i <= |rows|
  {
    set k: nat | k < i && rows[k].state == Queued && rows[k].nextAttemptAt <= now
  }

  lemma {:induction false} DueBeforeIs(rows: seq<Delivery>, i: nat, now: int)
    requires i <= |rows|
    ensures DueBefore(rows, i, now) == |DueAt(rows, i, now)|
  {
    if i > 0 {
      DueBeforeIs(rows, i - 1, now);
      if Due(rows[i - 1], now) {
        assert DueAt(rows, i, now) == DueAt(rows, i - 1, now) + {i - 1};
      } else {
        assert DueAt(rows, i, now) == DueAt(rows, i - 1, now);
      }
    }
  }

  /** The row is queued, due, and among the first 200 that are. */
  ghost predicate InTurn(rows: seq<Delivery>, i: nat, now: int) {
    i < |rows| && rows[i].state == Queued && rows[i].nextAttemptAt <= now && |DueAt(rows, i, now)| < 200
  }

  /** A pass takes a row iff it is among the first 200 due, and no earlier one of those is a row without a channel of an open, notified incident. */
  lemma TakesExactly(rows: seq<Delivery>, i: nat, p: QueueStep)
    requires i < |rows| && p.Process?
    ensures Taken(rows, i, p) <==>
      && InTurn(rows, i, p.now)
      && forall k :: 0 <= k < i && InTurn(rows, k, p.now) ==>
           rows[k].incident !in p.open || rows[k].channel.Some? || !p.cs(k).notified
  {
    forall k: nat | k < |rows| ensures Selected(rows, k, p.now) <==> InTurn(rows, k, p.now) {
      DueBeforeIs(rows, k, p.now);
    }
    hide DueBefore, DueAt, InTurn, Selected;
  }

  /** A row that has left the queue never changes again, whatever else runs. */
  lemma {:induction false} SettledRowStays(steps: seq<QueueStep>, more: seq<QueueStep>, i: nat)
    requires i < |RowsAfter(steps)| && !RowsAfter(steps)[i].state.Queued?
    ensures i < |RowsAfter(steps + more)| && RowsAfter(steps + more)[i] == RowsAfter(steps)[i]
  {
    if more == [] {
      assert steps + more == steps;
    } else {
      var init := more[..|more| - 1];
      SettledRowStays(steps, init, i);
      assert (steps + more)[..|steps + more| - 1] == steps + init;
    }
  }

  /** Rows stay where they are, with their keys: a key that has been taken stays taken. */
  lemma {:induction false} KeysStay(steps: seq<QueueStep>, more: seq<QueueStep>)
    ensures |RowsAfter(steps)| <= |RowsAfter(steps + more)|
    ensures forall i :: 0 <= i < |RowsAfter(steps)| ==> RowsAfter(steps + more)[i].key == RowsAfter(steps)[i].key
  {
    if more == [] {
      assert steps + more == steps;
    } else {
      KeysStay(steps, more[..|more| - 1]);
      assert (steps + more)[..|steps + more| - 1] == steps + more[..|more| - 1];
    }
  }

  /** Every pass finds row j's incident open and notified, and comes after the row is due. */
  ghost predicate StillBroken(d: Delivery, steps: seq<QueueStep>, j: nat) {
    forall i :: 0 <= i < |steps| && steps[i].Process? ==>
      d.incident in steps[i].open && d.nextAttemptAt <= steps[i].now && steps[i].cs(j).notified
  }

  ghost predicate SameFrom(a: seq<Delivery>, b: seq<Delivery>, j: nat) {
    |a| <= |b| && forall i :: j <= i < |a| ==> b[i] == a[i]
  }

  /** So a row for the person on call, among the first 200, keeps every later row from being sent for as long as its incident is open. */
  lemma {:induction false} StalledBehind(steps: seq<QueueStep>, more: seq<QueueStep>, j: nat)
    requires j < |RowsAfter(steps)| && j < BATCH
    requires var d := RowsAfter(steps)[j]; d.channel.None? && d.state.Queued? && StillBroken(d, more, j)
    ensures SameFrom(RowsAfter(steps), RowsAfter(steps + more), j)
  {
    if more == [] {
      assert steps + more == steps;
    } else {
      hide Next, SameFrom, RowsAfter, StillBroken;
      var n := |more| - 1;
      BrokenBefore(RowsAfter(steps)[j], more, j);
      StalledBehind(steps, more[..n], j);
      RowsAfterMore(steps, more);
      StallOn(RowsAfter(steps), RowsAfter(steps + more[..n]), more[n], j);
    }
  }

  lemma RowsAfterMore(steps: seq<QueueStep>, more: seq<QueueStep>)
    requires more != []
    ensures RowsAfter(steps + more) == Next(RowsAfter(steps + more[..|more| - 1]), more[|more| - 1])
  {
    hide Next;
    assert (steps + more)[..|steps + more| - 1] == steps + more[..|more| - 1];
  }

  lemma BrokenBefore(d: Delivery, more: seq<QueueStep>, j: nat)
    requires more != [] && StillBroken(d, more, j)
    ensures var n, p := |more| - 1, more[|more| - 1];
      && StillBroken(d, more[..n], j)
      && (p.Process? ==> d.incident in p.open && d.nextAttemptAt <= p.now && p.cs(j).notified)
  {
  }

  lemma StallOn(before: seq<Delivery>, rows: seq<Delivery>, p: QueueStep, j: nat)
    requires j < |before| && j < BATCH && before[j].channel.None? && before[j].state.Queued?
    requires p.Process? ==> before[j].incident in p.open && before[j].nextAttemptAt <= p.now && p.cs(j).notified
    requires SameFrom(before, rows, j)
    ensures SameFrom(before, Next(rows, p), j)
  {
    hide Next;
    StallStep(rows, p, j);
  }

  lemma StallStep(rows: seq<Delivery>, p: QueueStep, j: nat)
    requires j < |rows| && j < BATCH && rows[j].channel.None? && rows[j].state.Queued?
    requires p.Process? ==> rows[j].incident in p.open && rows[j].nextAttemptAt <= p.now && p.cs(j).notified
    ensures SameFrom(rows, Next(rows, p), j)
  {
    if p.Process? {
      DueBeforeAtMost(rows, j, p.now);
      StopsHere(rows, p.now, p.open, p.cs, j);
    }
  }

  lemma {:induction false} DueBeforeAtMost(rows: seq<Delivery>, n: nat, now: int)
    requires n <= |rows|
    ensures DueBefore(rows, n, now) <= n
  {
    if n > 0 { DueBeforeAtMost(rows, n - 1, now); }
  }

  /** The incidents that the alerter has open. */
  function OpenIds(t: Tables): set<IncidentId> { set id | id in t.incidents && t.incidents[id].status.Open? }

  /** A user's action on an incident fails its due rows at the next pass that takes them. */
  lemma ClosedIncidentFails(t: Tables, id: IncidentId, action: Action, at: int, d: Delivery, now: int, c: Circumstance)
    requires d.incident == id && Due(d, now)
    ensures Attempt(d, now, id in OpenIds(AfterUser(t, id, action, at)), c) == d.(state := Failed)
  {
  }

  class DeliveryQueue {
    var rows: seq<Delivery>

    constructor ()
      ensures rows == []
    {
      rows := [];
    }

    method Enqueue(d: Delivery) returns (inserted: bool)
      requires UniqueKeys(rows)
      modifies this
      ensures UniqueKeys(rows) && rows == Insert(old(rows), d)
      ensures inserted <==> !HasKey(old(rows), d.key)
    {
      InsertOne(rows, d);
      inserted := !HasKey(rows, d.key);
      if inserted { rows := rows + [d]; }
    }

    /** An error ends the pass where it is. */
    method ProcessPending(now: int, open: set<IncidentId>, cs: nat -> Circumstance) returns (ok: bool)
      requires UniqueKeys(rows)
      modifies this
      ensures UniqueKeys(rows) && rows == Pass(old(rows), now, open, cs)
      ensures ok <==> Reaches(old(rows), |old(rows)|, now, open, cs)
    {
      hide UniqueKeys, Attempt, Breaks, Reaches, PassedUpTo, Pass;
      ghost var was, pass := rows, Pass(rows, now, open, cs);
      PassKeepsKeys(was, now, open, cs);
      ReachesFirst(was, now, open, cs);
      PassedNone(was, pass);
      var taken := 0;
      var n := |rows|;
      for i := 0 to n
        invariant |rows| == n == |was| && taken == DueBefore(was, i, now)
        invariant Reaches(was, i, now, open, cs)
        invariant PassedUpTo(rows, was, pass, i)
      {
        ReachesNext(was, i, now, open, cs);
        PassedNext(rows, was, pass, i);
        if Due(rows[i], now) {
          if taken < BATCH {
            var d, fine := AttemptRow(rows[i], now, rows[i].incident in open, cs(i));
            if !fine {
              StopsHere(was, now, open, cs, i);
              PassedRest(rows, was, pass, i);
              return false;
            }
            rows := rows[i := d];
          }
          taken := taken + 1;
        }
      }
      PassedRest(rows, was, pass, n);
      ok := true;
    }
  }

  /** The rows in the middle of a pass: those before the i-th are done. */
  ghost predicate PassedUpTo(rows: seq<Delivery>, was: seq<Delivery>, pass: seq<Delivery>, i: nat) {
    && |rows| == |was| == |pass| && i <= |rows|
    && (forall k :: 0 <= k < i ==> rows[k] == pass[k])
    && forall k :: i <= k < |rows| ==> rows[k] == was[k]
  }

  lemma PassedNone(was: seq<Delivery>, pass: seq<Delivery>)
    requires |was| == |pass|
    ensures PassedUpTo(was, was, pass, 0)
  {
  }

  lemma PassedNext(rows: seq<Delivery>, was: seq<Delivery>, pass: seq<Delivery>, i: nat)
    requires PassedUpTo(rows, was, pass, i) && i < |rows|
    ensures |was| == |pass| == |rows| && rows[i] == was[i] && PassedUpTo(rows[i := pass[i]], was, pass, i + 1)
    ensures pass[i] == was[i] ==> PassedUpTo(rows, was, pass, i + 1)
  {
  }

  lemma PassedRest(rows: seq<Delivery>, was: seq<Delivery>, pass: seq<Delivery>, i: nat)
    requires PassedUpTo(rows, was, pass, i) && forall k :: i <= k < |rows| ==> pass[k] == was[k]
    ensures rows == pass
  {
  }

  lemma ReachesFirst(rows: seq<Delivery>, now: int, open: set<IncidentId>, cs: nat -> Circumstance)
    ensures Reaches(rows, 0, now, open, cs)
  {
  }

  lemma ReachesNext(rows: seq<Delivery>, i: nat, now: int, open: set<IncidentId>, cs: nat -> Circumstance)
    requires i < |rows|
    ensures Reaches(rows, i + 1, now, open, cs)
      <==> Reaches(rows, i, now, open, cs) && !(Selected(rows, i, now) && Breaks(rows[i], now, rows[i].incident in open, cs(i)))
  {
    hide Breaks, Selected;
  }

  lemma StopsHere(rows: seq<Delivery>, now: int, open: set<IncidentId>, cs: nat -> Circumstance, i: nat)
    requires i < |rows| && Selected(rows, i, now) && Breaks(rows[i], now, rows[i].incident in open, cs(i))
    ensures forall k :: i <= k < |rows| ==> Pass(rows, now, open, cs)[k] == rows[k]
    ensures !Reaches(rows, |rows|, now, open, cs)
  {
    forall k | i < k <= |rows| ensures !Reaches(rows, k, now, open, cs) {
    }
  }

  method AttemptRow(d: Delivery, now: int, open: bool, c: Circumstance) returns (r: Delivery, fine: bool)
    requires Due(d, now)
    ensures fine <==> !Breaks(d, now, open, c)
    ensures r == Attempt(d, now, open, c)
  {
    fine := true;
    if !open { return d.(state := Failed), true; }
    if d.channel.None? && c.notified { return d, false; }
    if d.channel.None? || !c.configured { return d.(state := Failed, attempts := d.attempts + 1), true; }
    if c.sendSucceeds { return d.(state := Sent, attempts := d.attempts + 1), true; }
    var attempts := d.attempts + 1;
    r := if attempts >= MAX_ATTEMPTS then d.(state := Failed, attempts := attempts)
         else d.(attempts := attempts, nextAttemptAt := now + 1000 * Backoff(attempts));
  }
}
