/**
From the workers' messages to what readers see: the decoder routes each delivered message into a
table, and two kinds of query leave out rolled-back signatures.
*/
module Readers {
  import opened ChainTypes
  import Pending

  datatype Commitment = Processed | Confirmed

  datatype RawTxMsg = RawTxMsg(program: ProgramId, signature: Signature, commitment: Commitment, rollback: bool)

  /** The message that a worker publishes for an event in its log. */
  function MessageOf(program: ProgramId, e: Pending.Event): RawTxMsg {
    match e
    case Ingested(s, _, _) => RawTxMsg(program, s, Processed, false)
    case Promoted(s, _) => RawTxMsg(program, s, Confirmed, false)
    case RolledBack(s, _, _) => RawTxMsg(program, s, Processed, true)
  }

  /** A program as registered in a project; several registrations may name one program. */
  type Registration = nat

  datatype Worker = Worker(program: ProgramId, log: Pending.Log)

  /** One worker a registration. */
  type Logs = map<Registration, Worker>

  ghost predicate Published(logs: Logs, m: RawTxMsg) {
    exists r :: PublishedBy(logs, r, m)
  }

  ghost predicate PublishedBy(logs: Logs, r: Registration, m: RawTxMsg) {
    r in logs && logs[r].program == m.program && exists e :: e in logs[r].log && MessageOf(m.program, e) == m
  }

  type Key = (ProgramId, Signature)

  datatype Tables = Tables(transactions: set<Key>, promotions: set<Key>, rollbacks: set<Key>)

  const NO_ROWS := Tables({}, {}, {})

  /** A delivery; `stored` is false when decoding or the insert failed, and the message is gone. */
  datatype Delivery = Delivery(msg: RawTxMsg, stored: bool)

  function Route(t: Tables, d: Delivery): Tables {
    var key := (d.msg.program, d.msg.signature);
    if !d.stored then t
    else if d.msg.rollback then t.(rollbacks := t.rollbacks + {key})
    else if d.msg.commitment.Confirmed? then t.(promotions := t.promotions + {key})
    else t.(transactions := t.transactions + {key})
  }

  function RouteAll(ds: seq<Delivery>): Tables {
    if ds == [] then NO_ROWS else Route(RouteAll(ds[..|ds| - 1]), ds[|ds| - 1])
  }

  /** The consumer's loop. */
  method RunTxLoop(ds: seq<Delivery>) returns (t: Tables)
    ensures t == RouteAll(ds)
  {
    t := NO_ROWS;
    for i := 0 to |ds|
      invariant t == RouteAll(ds[..i])
    {
      assert ds[..i + 1][..i] == ds[..i];
      var d := ds[i];
      var key := (d.msg.program, d.msg.signature);
      if d.msg.rollback {
        if d.stored { t := t.(rollbacks := t.rollbacks + {key}); }
        continue;
      }
      if d.msg.commitment.Confirmed? {
        if d.stored { t := t.(promotions := t.promotions + {key}); }
        continue;
      }
      if d.stored { t := t.(transactions := t.transactions + {key}); }
    }
    assert ds[..|ds|] == ds;
  }

  ghost predicate Stored(ds: seq<Delivery>, m: RawTxMsg) {
    Delivery(m, true) in ds
  }

  /** The tables hold what was stored, whatever the order and however often it was delivered. */
  lemma {:induction false} TablesExactly(ds: seq<Delivery>, p: ProgramId, s: Signature)
    ensures var t := RouteAll(ds);
      && ((p, s) in t.transactions <==> Stored(ds, RawTxMsg(p, s, Processed, false)))
      && ((p, s) in t.promotions <==> Stored(ds, RawTxMsg(p, s, Confirmed, false)))
      && ((p, s) in t.rollbacks <==>
            Stored(ds, RawTxMsg(p, s, Processed, true)) || Stored(ds, RawTxMsg(p, s, Confirmed, true)))
  {
    if ds != [] {
      var init, last := ds[..|ds| - 1], ds[|ds| - 1];
      assert ds == init + [last];
      forall m ensures Stored(ds, m) <==> Stored(init, m) || last == Delivery(m, true) {
      }
      hide Stored;
      TablesExactly(init, p, s);
    }
  }

  /** The raw stream of a program leaves out signatures in the rollback table, of any program. */
  predicate InRawStream(t: Tables, p: ProgramId, s: Signature) {
    (p, s) in t.transactions && forall k :: k in t.rollbacks ==> k.1 != s
  }

  /** The queries that also match the program leave out that program's rollbacks only. */
  predicate InProgramQuery(t: Tables, p: ProgramId, s: Signature) {
    (p, s) in t.transactions && (p, s) !in t.rollbacks
  }

  ghost predicate SeenBy(logs: Logs, r: Registration, s: Signature) {
    r in logs && exists e :: e in logs[r].log && e.Ingested? && e.signature == s
  }

  ghost predicate RolledBackBy(logs: Logs, r: Registration, s: Signature) {
    r in logs && exists e :: e in logs[r].log && e.RolledBack? && e.signature == s
  }

  ghost predicate Seen(logs: Logs, p: ProgramId, s: Signature) {
    exists r :: SeenBy(logs, r, s) && logs[r].program == p
  }

  ghost predicate RolledBack(logs: Logs, p: ProgramId, s: Signature) {
    exists r :: RolledBackBy(logs, r, s) && logs[r].program == p
  }

  /** Only published messages are delivered, and each is stored by at least one of its deliveries. */
  ghost predicate DeliveredInFull(logs: Logs, ds: seq<Delivery>) {
    && (forall d :: d in ds ==> Published(logs, d.msg))
    && (forall m :: Published(logs, m) ==> Stored(ds, m))
  }

  lemma PublishedByExactly(logs: Logs, r: Registration, s: Signature)
    requires r in logs
    ensures var p := logs[r].program;
      && (PublishedBy(logs, r, RawTxMsg(p, s, Processed, false)) <==> SeenBy(logs, r, s))
      && (PublishedBy(logs, r, RawTxMsg(p, s, Processed, true)) <==> RolledBackBy(logs, r, s))
      && !PublishedBy(logs, r, RawTxMsg(p, s, Confirmed, true))
  {
    var p := logs[r].program;
    if SeenBy(logs, r, s) {
      var e :| e in logs[r].log && e.Ingested? && e.signature == s;
      assert MessageOf(p, e) == RawTxMsg(p, s, Processed, false);
    }
    if RolledBackBy(logs, r, s) {
      var e :| e in logs[r].log && e.RolledBack? && e.signature == s;
      assert MessageOf(p, e) == RawTxMsg(p, s, Processed, true);
    }
  }

  lemma PublishedExactly(logs: Logs, p: ProgramId, s: Signature)
    ensures Published(logs, RawTxMsg(p, s, Processed, false)) <==> Seen(logs, p, s)
    ensures Published(logs, RawTxMsg(p, s, Processed, true)) <==> RolledBack(logs, p, s)
    ensures !Published(logs, RawTxMsg(p, s, Confirmed, true))
  {
    forall r | r in logs && logs[r].program == p
      ensures PublishedBy(logs, r, RawTxMsg(p, s, Processed, false)) <==> SeenBy(logs, r, s)
      ensures PublishedBy(logs, r, RawTxMsg(p, s, Processed, true)) <==> RolledBackBy(logs, r, s)
      ensures !PublishedBy(logs, r, RawTxMsg(p, s, Confirmed, true))
    {
      PublishedByExactly(logs, r, s);
    }
    if Seen(logs, p, s) {
      var r :| SeenBy(logs, r, s) && logs[r].program == p;
      assert PublishedBy(logs, r, RawTxMsg(p, s, Processed, false));
    }
    if RolledBack(logs, p, s) {
      var r :| RolledBackBy(logs, r, s) && logs[r].program == p;
      assert PublishedBy(logs, r, RawTxMsg(p, s, Processed, true));
    }
  }

  lemma StoredExactly(logs: Logs, ds: seq<Delivery>, m: RawTxMsg)
    requires DeliveredInFull(logs, ds)
    ensures Stored(ds, m) <==> Published(logs, m)
  {
    if Stored(ds, m) { assert Delivery(m, true) in ds; }
  }

  lemma RowsExactly(logs: Logs, ds: seq<Delivery>, p: ProgramId, s: Signature)
    requires DeliveredInFull(logs, ds)
    ensures (p, s) in RouteAll(ds).transactions <==> Seen(logs, p, s)
    ensures (p, s) in RouteAll(ds).rollbacks <==> RolledBack(logs, p, s)
  {
    TablesExactly(ds, p, s);
    PublishedExactly(logs, p, s);
    StoredExactly(logs, ds, RawTxMsg(p, s, Processed, false));
    StoredExactly(logs, ds, RawTxMsg(p, s, Processed, true));
    StoredExactly(logs, ds, RawTxMsg(p, s, Confirmed, true));
  }

  /** Per-program queries hide exactly the signatures that some worker of the program rolled back. */
  lemma ProgramQueryExact(logs: Logs, ds: seq<Delivery>, p: ProgramId, s: Signature)
    requires DeliveredInFull(logs, ds)
    ensures InProgramQuery(RouteAll(ds), p, s) <==> Seen(logs, p, s) && !RolledBack(logs, p, s)
  {
    RowsExactly(logs, ds, p, s);
  }

  /** The raw stream hides what any worker of any program rolled back. */
  lemma RawStreamExact(logs: Logs, ds: seq<Delivery>, p: ProgramId, s: Signature)
    requires DeliveredInFull(logs, ds)
    ensures InRawStream(RouteAll(ds), p, s) <==> Seen(logs, p, s) && forall r :: !RolledBackBy(logs, r, s)
  {
    RowsExactly(logs, ds, p, s);
    var t := RouteAll(ds);
    forall q ensures (q, s) in t.rollbacks <==> RolledBack(logs, q, s) {
      RowsExactly(logs, ds, q, s);
    }
    if r :| RolledBackBy(logs, r, s) {
      assert RolledBack(logs, logs[r].program, s);
      assert (logs[r].program, s) in t.rollbacks;
    }
    if k :| k in t.rollbacks && k.1 == s { assert (k.0, s) in t.rollbacks; }
  }

  /**
  The per-program query is right about a signature that a registration's worker saw exactly when that
  worker rolled it back itself or no worker of another registration of the program did.
  */
  lemma ProgramQueryRightWhen(logs: Logs, ds: seq<Delivery>, r: Registration, s: Signature)
    requires DeliveredInFull(logs, ds) && SeenBy(logs, r, s)
    ensures var p := logs[r].program;
      (InProgramQuery(RouteAll(ds), p, s) <==> !RolledBackBy(logs, r, s))
      <==> RolledBackBy(logs, r, s) || forall q :: q != r && q in logs && logs[q].program == p ==> !RolledBackBy(logs, q, s)
  {
    ProgramQueryExact(logs, ds, logs[r].program, s);
  }

  /** The raw stream, exactly when the worker did so itself or no other worker at all did. */
  lemma RawStreamRightWhen(logs: Logs, ds: seq<Delivery>, r: Registration, s: Signature)
    requires DeliveredInFull(logs, ds) && SeenBy(logs, r, s)
    ensures (InRawStream(RouteAll(ds), logs[r].program, s) <==> !RolledBackBy(logs, r, s))
      <==> RolledBackBy(logs, r, s) || forall q :: q != r ==> !RolledBackBy(logs, q, s)
  {
    RawStreamExact(logs, ds, logs[r].program, s);
  }

  /** Two workers saw one signature; the first promoted it, the second rolled it back. */
  function PromotedAndRolledBack(p: ProgramId, q: ProgramId, s: Signature, slot: nat): Logs {
    map[0 := Worker(p, [Pending.Ingested(s, slot, true), Pending.Promoted(s, slot)]),
        1 := Worker(q, [Pending.Ingested(s, slot, true), Pending.RolledBack(s, slot, slot + 33)])]
  }

  lemma BothLegal(p: ProgramId, q: ProgramId, s: Signature, slot: nat)
    ensures var logs := PromotedAndRolledBack(p, q, s, slot);
      && Pending.Legal(logs[0].log) && Pending.Legal(logs[1].log) && SeenBy(logs, 0, s) && SeenBy(logs, 1, s)
      && RolledBackBy(logs, 1, s) && !RolledBackBy(logs, 0, s)
  {
    var seen := Pending.Ingested(s, slot, true);
    var a, b := [seen, Pending.Promoted(s, slot)], [seen, Pending.RolledBack(s, slot, slot + 33)];
    assert [seen][..0] == [] && a[..1] == [seen] && b[..1] == [seen];
    assert Pending.Replay([seen]) == map[s := slot];
    assert Pending.Legal([seen]);
    assert seen in a && seen in b && b[1] in b;
  }

  /** With two programs the raw stream hides the signature from both, the per-program query from the second only. */
  lemma RollbackHidesAcrossPrograms(p: ProgramId, q: ProgramId, s: Signature, slot: nat, ds: seq<Delivery>)
    requires p != q && DeliveredInFull(PromotedAndRolledBack(p, q, s, slot), ds)
    ensures !InRawStream(RouteAll(ds), p, s) && InProgramQuery(RouteAll(ds), p, s)
    ensures !InRawStream(RouteAll(ds), q, s) && !InProgramQuery(RouteAll(ds), q, s)
  {
    var logs := PromotedAndRolledBack(p, q, s, slot);
    BothLegal(p, q, s, slot);
    RawStreamExact(logs, ds, p, s);
    ProgramQueryExact(logs, ds, p, s);
    RawStreamExact(logs, ds, q, s);
    ProgramQueryExact(logs, ds, q, s);
    assert Seen(logs, p, s) && RolledBack(logs, q, s);
  }

  /** With one program registered twice the per-program query hides what the first worker promoted. */
  lemma RollbackHidesAcrossRegistrations(p: ProgramId, s: Signature, slot: nat, ds: seq<Delivery>)
    requires DeliveredInFull(PromotedAndRolledBack(p, p, s, slot), ds)
    ensures !InProgramQuery(RouteAll(ds), p, s) && !InRawStream(RouteAll(ds), p, s)
  {
    var logs := PromotedAndRolledBack(p, p, s, slot);
    BothLegal(p, p, s, slot);
    RawStreamExact(logs, ds, p, s);
    ProgramQueryExact(logs, ds, p, s);
    assert RolledBack(logs, p, s);
  }

  lemma {:induction false} CountsEvents(log: Pending.Log, s: Signature)
    ensures Pending.Rollbacks(log, s) > 0 <==> exists e :: e in log && e.RolledBack? && e.signature == s
  {
    if log != [] {
      var init := log[..|log| - 1];
      CountsEvents(init, s);
      assert log == init + [log[|log| - 1]];
      assert forall e :: e in log <==> e in init || e == log[|log| - 1];
    }
  }

  /**
  End to end: a signature that a registration's worker tracked once is shown by the per-program query
  exactly while it is pending or after it was promoted, iff that worker rolled it back or no worker of
  another registration of the program did.
  */
  lemma ShownWhilePendingOrPromoted(logs: Logs, ds: seq<Delivery>, r: Registration, s: Signature, slot: nat, k: nat)
    requires DeliveredInFull(logs, ds) && r in logs && Pending.Legal(logs[r].log)
    requires k < |logs[r].log| && logs[r].log[k] == Pending.Ingested(s, slot, true) && Pending.Tracks(logs[r].log, s) == 1
    ensures var p := logs[r].program;
      (InProgramQuery(RouteAll(ds), p, s)
       <==> s in Pending.Replay(logs[r].log) || Pending.Promotions(logs[r].log, s) == 1)
      <==> RolledBackBy(logs, r, s) || forall q :: q != r && q in logs && logs[q].program == p ==> !RolledBackBy(logs, q, s)
  {
    assert logs[r].log[k] in logs[r].log;
    assert SeenBy(logs, r, s);
    ProgramQueryRightWhen(logs, ds, r, s);
    Pending.OneFate(logs[r].log, s, slot, k);
    CountsEvents(logs[r].log, s);
  }
}
