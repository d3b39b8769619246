/**
The ingestor's pending map.  A signature that was ingested waits in it until the network confirms
it (a promotion is published) or the reorganisation window has passed (a rollback is published).
The log of what a worker did is ghost state; what holds of every log is proved about logs.
*/
module Pending {
  import opened ChainTypes

  const REORG_WINDOW := 32

  datatype Event =
    /** Published as "processed"; tracked in the pending map unless a later statement failed. */
    | Ingested(signature: Signature, slot: nat, tracked: bool)
    | Promoted(signature: Signature, slot: nat)
    | RolledBack(signature: Signature, slot: nat, currentSlot: nat)

  type Log = seq<Event>

  function Apply(pending: map<Signature, nat>, e: Event): map<Signature, nat> {
    match e
    case Ingested(s, slot, tracked) => if tracked then pending[s := slot] else pending
    case Promoted(s, _) => pending - {s}
    case RolledBack(s, _, _) => pending - {s}
  }

  /** The pending map that a log leaves behind. */
  function Replay(log: Log): map<Signature, nat> {
    if log == [] then map[] else Apply(Replay(log[..|log| - 1]), log[|log| - 1])
  }

  /** What the code allows itself to publish, given the pending map. */
  predicate Allowed(pending: map<Signature, nat>, e: Event) {
    match e
    case Ingested(_, _, _) => true
    case Promoted(s, slot) => s in pending && pending[s] <= slot
    case RolledBack(s, slot, current) =>
      s in pending && slot == pending[s] && current > slot + REORG_WINDOW
  }

  predicate Legal(log: Log) {
    log == [] || (Legal(log[..|log| - 1]) && Allowed(Replay(log[..|log| - 1]), log[|log| - 1]))
  }

  function Monus(a: nat, b: nat): nat { if a >= b then a - b else 0 }

  datatype Option<T> = None | Some(value: T)

  datatype Commitment = Processed | Confirmed | Finalized | NoCommitment

  datatype SignatureStatus = SignatureStatus(slot: nat, confirmation: Commitment)

  /** What may go wrong when an end is published: either failure ends the worker. */
  datatype Fault = NoFault | PublishFails | RecordFails

  // ----- what a pass is to do -----

  function EventsOf(log: Log, s: Signature): Log {
    if log == [] then []
    else
      var e := log[|log| - 1];
      EventsOf(log[..|log| - 1], s) + (if e.signature == s then [e] else [])
  }

  predicate IsConfirmed(status: Option<SignatureStatus>) {
    status.Some? && (status.value.confirmation == Confirmed || status.value.confirmation == Finalized)
  }

  /**
  What the pass added of one signature, seen at a slot: its promotion at the later of the two slots if it
  is confirmed or finalized, else its rollback if more than 32 slots have passed, else nothing.
  */
  ghost predicate EndedRightly(ends: Log, s: Signature, seen: nat, status: Option<SignatureStatus>, current: nat) {
    if IsConfirmed(status) then
      && |ends| == 1 && ends[0].Promoted? && ends[0].signature == s
      && ends[0].slot >= seen && ends[0].slot >= status.value.slot && ends[0].slot in {seen, status.value.slot}
    else if current > seen + 32 then ends == [RolledBack(s, seen, current)]
    else ends == []
  }

  /** The status that the node gave for the i-th key; missing answers are no status. */
  ghost predicate Answers(statuses: seq<Option<SignatureStatus>>, i: nat, status: Option<SignatureStatus>) {
    if i < |statuses| then status == statuses[i] else status == None
  }

  /** A pass over all keys: every key ended rightly, nothing else was added, and what did not end is pending still. */
  ghost predicate PassedRightly(was: map<Signature, nat>, keys: seq<Signature>, statuses: seq<Option<SignatureStatus>>,
                                current: nat, added: Log, pending: map<Signature, nat>)
    requires forall k :: k in keys ==> k in was
  {
    && (forall i, status :: 0 <= i < |keys| && Answers(statuses, i, status) ==>
          EndedRightly(EventsOf(added, keys[i]), keys[i], was[keys[i]], status, current))
    && (forall e :: e in added ==> e.signature in keys)
    && (forall s :: s in pending <==> s in was && EventsOf(added, s) == [])
    && (forall s :: s in pending ==> pending[s] == was[s])
  }

  class Worker {
    var pending: map<Signature, nat>
    var alive: bool
    ghost var log: Log

    ghost predicate Valid()
      reads this
    {
      Legal(log) && (alive ==> pending == Replay(log))
    }

    constructor ()
      ensures Valid() && alive && log == [] && pending == map[]
    {
      pending, alive, log := map[], true, [];
    }

    method Ingest(signature: Signature, slot: nat, published: bool, recorded: bool)
      requires Valid() && alive
      modifies this
      ensures Valid() && alive
      ensures log == old(log) + if published then [Ingested(signature, slot, recorded)] else []
      ensures pending == if published && recorded then old(pending)[signature := slot] else old(pending)
    {
      if published {
        log := log + [Ingested(signature, slot, recorded)];
        assert log[..|log| - 1] == old(log);
        if recorded { pending := pending[signature := slot]; }
      }
    }

    /** What one pass over the pending map does for one signature, given its status. */
    static function Ending(signature: Signature, seen: nat, status: Option<SignatureStatus>, current: nat): Option<Event> {
      if status.Some? && (status.value.confirmation.Confirmed? || status.value.confirmation.Finalized?) then
        Some(Promoted(signature, if status.value.slot >= seen then status.value.slot else seen))
      else if Monus(current, seen) > REORG_WINDOW then Some(RolledBack(signature, seen, current))
      else None
    }

    static function StatusAt(statuses: seq<Option<SignatureStatus>>, i: nat): Option<SignatureStatus> {
      if i < |statuses| then statuses[i] else None
    }

    /** The events of a pass, in the order of the keys. */
    static function Endings(pending: map<Signature, nat>, keys: seq<Signature>,
                            statuses: seq<Option<SignatureStatus>>, current: nat, n: nat): Log
      requires n <= |keys| && forall k :: k in keys ==> k in pending
    {
      if n == 0 then []
      else
        var s := keys[n - 1];
        var e := Ending(s, pending[s], StatusAt(statuses, n - 1), current);
        Endings(pending, keys, statuses, current, n - 1) + (if e.Some? then [e.value] else [])
    }

    /** Publish the end of one signature, if it has come; a fault ends the worker. */
    method Settle(sig: Signature, status: Option<SignatureStatus>, current: nat, fault: Fault)
      requires Valid() && alive && sig in pending
      modifies this
      ensures Valid()
      ensures var end := Ending(sig, old(pending)[sig], status, current);
        if end.None? then alive && log == old(log) && pending == old(pending)
        else if fault.NoFault? then alive && log == old(log) + [end.value] && pending == old(pending) - {sig}
        else !alive && log == old(log) + (if end.value.RolledBack? && fault.RecordFails? then [end.value] else [])
      ensures old(log) <= log
      ensures fault.NoFault? ==>
        alive && EndedRightly(log[|old(log)|..], sig, old(pending)[sig], status, current)
        && pending == if log == old(log) then old(pending) else old(pending) - {sig}
    {
      var seenSlot := pending[sig];
      ghost var before := log;
      if status.Some? && (status.value.confirmation.Confirmed? || status.value.confirmation.Finalized?) {
        if !fault.NoFault? { alive := false; return; }
        log := log + [Promoted(sig, if status.value.slot >= seenSlot then status.value.slot else seenSlot)];
        assert log[..|log| - 1] == before;
        pending := pending - {sig};
        return;
      }
      if Monus(current, seenSlot) > REORG_WINDOW {
        if fault.PublishFails? { alive := false; return; }
        log := log + [RolledBack(sig, seenSlot, current)];
        assert log[..|log| - 1] == before;
        if fault.RecordFails? { alive := false; return; }
        pending := pending - {sig};
      }
    }

    /**
    `keys` is the order in which the map is walked.  The node may answer fewer statuses than asked,
    or none when the call failed, and a current slot of zero stands for a failed call.
    */
    method PromoteOrRollback(current: nat, keys: seq<Signature>, statuses: seq<Option<SignatureStatus>>,
                             faults: nat -> Fault)
      requires Valid() && alive
      requires forall i, j :: 0 <= i < j < |keys| ==> keys[i] != keys[j]
      requires forall k :: k in keys <==> k in pending
      modifies this
      ensures Valid()
      ensures (forall i: nat :: faults(i).NoFault?) ==> alive
      ensures alive ==> log == old(log) + Endings(old(pending), keys, statuses, current, |keys|)
      ensures old(log) <= log
      ensures alive ==> PassedRightly(old(pending), keys, statuses, current, log[|old(log)|..], pending)
    {
      hide Legal, Replay, Ending, StatusAt, PassedRightly, Left;
      ghost var was, added: Log := pending, [];
      NothingLeft(was);
      for i := 0 to |keys|
        invariant Valid() && alive
        invariant forall k :: i <= k < |keys| ==> keys[k] in pending && pending[keys[k]] == was[keys[k]]
        invariant log == old(log) + added && added == Endings(was, keys, statuses, current, i)
        invariant Left(was, added, pending)
      {
        ghost var before, end := pending, Ending(keys[i], was[keys[i]], StatusAt(statuses, i), current);
        EndingSigned(keys[i], was[keys[i]], StatusAt(statuses, i), current);
        Settle(keys[i], StatusAt(statuses, i), current, faults(i));
        if !alive { return; }
        if end.Some? { LeftNext(was, added, before, end.value); } else { assert added + [] == added; }
        added := Endings(was, keys, statuses, current, i + 1);
      }
      PassIsRight(was, keys, statuses, current, pending);
      assert log[|old(log)|..] == added;
    }
  }

  /** What is pending after some of a pass: what was, but for the signatures that have ended. */
  ghost predicate Left(was: map<Signature, nat>, added: Log, pending: map<Signature, nat>) {
    && (forall s :: s in pending <==> s in was && EventsOf(added, s) == [])
    && forall s :: s in pending ==> pending[s] == was[s]
  }

  lemma NothingLeft(was: map<Signature, nat>)
    ensures Left(was, [], was)
  {
  }

  lemma LeftNext(was: map<Signature, nat>, added: Log, pending: map<Signature, nat>, e: Event)
    requires Left(was, added, pending)
    ensures Left(was, added + [e], pending - {e.signature})
  {
    forall s ensures EventsOf(added + [e], s) == EventsOf(added, s) + if e.signature == s then [e] else [] {
      EventsOfLast(added, e, s);
    }
  }

  lemma EndingSigned(s: Signature, seen: nat, status: Option<SignatureStatus>, current: nat)
    ensures var e := Worker.Ending(s, seen, status, current); e.Some? ==> e.value.signature == s
  {
  }

  lemma EventsOfLast(log: Log, e: Event, s: Signature)
    ensures EventsOf(log + [e], s) == EventsOf(log, s) + if e.signature == s then [e] else []
  {
    assert (log + [e])[..|log|] == log;
  }

  /** What a pass adds for its i-th key. */
  ghost function EndAt(was: map<Signature, nat>, keys: seq<Signature>, statuses: seq<Option<SignatureStatus>>, current: nat, i: nat): Log
    requires i < |keys| && forall k :: k in keys ==> k in was
  {
    var e := Worker.Ending(keys[i], was[keys[i]], Worker.StatusAt(statuses, i), current);
    if e.Some? then [e.value] else []
  }

  lemma EndAtRight(was: map<Signature, nat>, keys: seq<Signature>, statuses: seq<Option<SignatureStatus>>, current: nat, i: nat,
                   status: Option<SignatureStatus>)
    requires i < |keys| && (forall k :: k in keys ==> k in was) && Answers(statuses, i, status)
    ensures EndedRightly(EndAt(was, keys, statuses, current, i), keys[i], was[keys[i]], status, current)
    ensures forall e :: e in EndAt(was, keys, statuses, current, i) ==> e.signature == keys[i]
  {
  }

  lemma EndingsMore(was: map<Signature, nat>, keys: seq<Signature>, statuses: seq<Option<SignatureStatus>>, current: nat, n: nat, s: Signature)
    requires n < |keys| && (forall k :: k in keys ==> k in was)
    ensures EventsOf(Worker.Endings(was, keys, statuses, current, n + 1), s)
         == EventsOf(Worker.Endings(was, keys, statuses, current, n), s)
            + if keys[n] == s then EndAt(was, keys, statuses, current, n) else []
  {
    var before, end := Worker.Endings(was, keys, statuses, current, n), EndAt(was, keys, statuses, current, n);
    EndingSigned(keys[n], was[keys[n]], Worker.StatusAt(statuses, n), current);
    hide Worker.Ending;
    if end == [] { assert before + [] == before; } else { EventsOfLast(before, end[0], s); }
  }

  lemma {:induction false} NotYet(was: map<Signature, nat>, keys: seq<Signature>, statuses: seq<Option<SignatureStatus>>,
                                  current: nat, n: nat, s: Signature)
    requires n <= |keys| && (forall k :: k in keys ==> k in was)
    requires forall i :: 0 <= i < n ==> keys[i] != s
    ensures EventsOf(Worker.Endings(was, keys, statuses, current, n), s) == []
  {
    if n > 0 {
      NotYet(was, keys, statuses, current, n - 1, s);
      EndingsMore(was, keys, statuses, current, n - 1, s);
      hide EventsOf, Worker.Endings, EndAt;
    }
  }

  lemma {:induction false} EndingsOf(was: map<Signature, nat>, keys: seq<Signature>, statuses: seq<Option<SignatureStatus>>,
                                     current: nat, n: nat, i: nat)
    requires i < n <= |keys| && (forall k :: k in keys ==> k in was)
    requires forall j, k :: 0 <= j < k < |keys| ==> keys[j] != keys[k]
    ensures EventsOf(Worker.Endings(was, keys, statuses, current, n), keys[i]) == EndAt(was, keys, statuses, current, i)
  {
    hide EventsOf, Worker.Endings, EndAt;
    EndingsMore(was, keys, statuses, current, n - 1, keys[i]);
    if i == n - 1 {
      NotYet(was, keys, statuses, current, i, keys[i]);
    } else {
      EndingsOf(was, keys, statuses, current, n - 1, i);
    }
  }

  lemma {:induction false} EndingsSigned(was: map<Signature, nat>, keys: seq<Signature>, statuses: seq<Option<SignatureStatus>>,
                                         current: nat, n: nat)
    requires n <= |keys| && forall k :: k in keys ==> k in was
    ensures forall e :: e in Worker.Endings(was, keys, statuses, current, n) ==> e.signature in keys
  {
    if n > 0 {
      EndingsSigned(was, keys, statuses, current, n - 1);
      EndingSigned(keys[n - 1], was[keys[n - 1]], Worker.StatusAt(statuses, n - 1), current);
      hide Worker.Ending;
    }
  }

  lemma PassIsRight(was: map<Signature, nat>, keys: seq<Signature>, statuses: seq<Option<SignatureStatus>>, current: nat,
                    pending: map<Signature, nat>)
    requires (forall k :: k in keys <==> k in was) && forall i, j :: 0 <= i < j < |keys| ==> keys[i] != keys[j]
    requires Left(was, Worker.Endings(was, keys, statuses, current, |keys|), pending)
    ensures PassedRightly(was, keys, statuses, current, Worker.Endings(was, keys, statuses, current, |keys|), pending)
  {
    var added := Worker.Endings(was, keys, statuses, current, |keys|);
    EndingsSigned(was, keys, statuses, current, |keys|);
    hide Worker.Ending, Worker.Endings, EventsOf, EndAt, EndedRightly, Answers;
    forall i, status | 0 <= i < |keys| && Answers(statuses, i, status)
      ensures EndedRightly(EventsOf(added, keys[i]), keys[i], was[keys[i]], status, current)
    {
      EndingsOf(was, keys, statuses, current, |keys|, i);
      EndAtRight(was, keys, statuses, current, i, status);
    }
  }

  // ----- what every legal log satisfies -----

  function Promotions(log: Log, s: Signature): nat {
    if log == [] then 0
    else
      var e := log[|log| - 1];
      Promotions(log[..|log| - 1], s) + (if e.Promoted? && e.signature == s then 1 else 0)
  }

  function Rollbacks(log: Log, s: Signature): nat {
    if log == [] then 0
    else
      var e := log[|log| - 1];
      Rollbacks(log[..|log| - 1], s) + (if e.RolledBack? && e.signature == s then 1 else 0)
  }

  function Tracks(log: Log, s: Signature): nat {
    if log == [] then 0
    else
      var e := log[|log| - 1];
      Tracks(log[..|log| - 1], s) + (if e.Ingested? && e.tracked && e.signature == s then 1 else 0)
  }

  /** How often the signature entered the pending map while it was not in it. */
  function Entries(log: Log, s: Signature): nat {
    if log == [] then 0
    else
      var before, e := log[..|log| - 1], log[|log| - 1];
      Entries(before, s)
      + (if e.Ingested? && e.tracked && e.signature == s && s !in Replay(before) then 1 else 0)
  }

  /** Every entry ends in exactly one promotion or rollback, or is still pending. */
  lemma {:induction false} EntriesConserved(log: Log, s: Signature)
    requires Legal(log)
    ensures Entries(log, s)
            == Promotions(log, s) + Rollbacks(log, s) + (if s in Replay(log) then 1 else 0)
  {
    if log != [] { EntriesConserved(log[..|log| - 1], s); }
  }

  lemma {:induction false} EntriesBounded(log: Log, s: Signature)
    ensures Entries(log, s) <= Tracks(log, s)
    ensures Entries(log, s) == 0 <==> Tracks(log, s) == 0
    ensures Tracks(log, s) == 0 ==> s !in Replay(log)
  {
    if log != [] { EntriesBounded(log[..|log| - 1], s); }
  }

  /** The slot a signature was tracked with, when it was tracked once. */
  lemma {:induction false} EndsAfterSlot(log: Log, s: Signature, slot: nat, k: nat)
    requires Legal(log) && k < |log|
    requires log[k] == Ingested(s, slot, true) && Tracks(log, s) == 1
    ensures s in Replay(log) ==> Replay(log)[s] == slot
    ensures forall j :: 0 <= j < |log| && log[j].signature == s ==>
      && (log[j].Promoted? ==> j > k && log[j].slot >= slot)
      && (log[j].RolledBack? ==> j > k && log[j].slot == slot && log[j].currentSlot > slot + REORG_WINDOW)
  {
    var before := log[..|log| - 1];
    if k == |log| - 1 {
      EntriesBounded(before, s);
      EntriesConserved(before, s);
      forall j | 0 <= j < |before| && before[j].signature == s
        ensures !before[j].Promoted? && !before[j].RolledBack?
      {
        CountedEnds(before, s, j);
      }
    } else {
      CountedEnds(before, s, k);
      EndsAfterSlot(before, s, slot, k);
    }
  }

  lemma {:induction false} CountedEnds(log: Log, s: Signature, j: nat)
    requires j < |log| && log[j].signature == s
    ensures log[j].Promoted? ==> Promotions(log, s) > 0
    ensures log[j].RolledBack? ==> Rollbacks(log, s) > 0
    ensures log[j].Ingested? && log[j].tracked ==> Tracks(log, s) > 0
  {
    if j < |log| - 1 { CountedEnds(log[..|log| - 1], s, j); }
  }

  /**
  A signature tracked once has exactly one fate at every later time: still pending with its slot,
  promoted once at its slot or later, or rolled back once, more than 32 slots after it.
  */
  lemma OneFate(log: Log, s: Signature, slot: nat, k: nat)
    requires Legal(log) && k < |log| && log[k] == Ingested(s, slot, true) && Tracks(log, s) == 1
    ensures s in Replay(log) ==>
      Replay(log)[s] == slot && Promotions(log, s) == 0 && Rollbacks(log, s) == 0
    ensures s !in Replay(log) ==> Promotions(log, s) + Rollbacks(log, s) == 1
    ensures forall j :: 0 <= j < |log| && log[j].signature == s ==>
      && (log[j].Promoted? ==> j > k && log[j].slot >= slot)
      && (log[j].RolledBack? ==> j > k && log[j].slot == slot && log[j].currentSlot > slot + REORG_WINDOW)
  {
    EntriesConserved(log, s);
    EntriesBounded(log, s);
    EndsAfterSlot(log, s, slot, k);
  }
}
