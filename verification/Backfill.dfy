/**
How the ingestor finds signatures: the paged walk back through a program's history, and the polling
fallback with its bounded window of signatures already reported.
*/
module Backfill {
  import opened ChainTypes

  datatype Option<T> = None | Some(value: T)

  datatype SigInfo = SigInfo(signature: Signature, slot: nat, blockTime: Option<int>)

  const PAGE_LIMIT := 100
  const SEEN_LIMIT := 10_000

  ghost predicate Distinct(history: seq<SigInfo>) {
    forall i, j :: 0 <= i < j < |history| ==> history[i].signature != history[j].signature
  }

  /** Known to be older than the cutoff; an entry without a block time never is. */
  predicate Old(e: SigInfo, cutoff: int) {
    e.blockTime.Some? && e.blockTime.value < cutoff
  }

  function After(history: seq<SigInfo>, signature: Signature): seq<SigInfo> {
    if history == [] then []
    else if history[0].signature == signature then history[1..]
    else After(history[1..], signature)
  }

  /** What the node answers: the next entries, newest first, after `before`. */
  function Page(history: seq<SigInfo>, before: Option<Signature>): seq<SigInfo> {
    var rest := if before.None? then history else After(history, before.value);
    if |rest| <= PAGE_LIMIT then rest else rest[..PAGE_LIMIT]
  }

  /** The entries that come before the first old one. */
  function Recent(history: seq<SigInfo>, cutoff: int): seq<SigInfo> {
    if history == [] || Old(history[0], cutoff) then []
    else [history[0]] + Recent(history[1..], cutoff)
  }

  function Accepted(entries: seq<SigInfo>, accepts: SigInfo -> bool): seq<SigInfo> {
    if entries == [] || !accepts(entries[0]) then []
    else [entries[0]] + Accepted(entries[1..], accepts)
  }

  /** Recent entries are a prefix, none of it old, and what follows it starts with an old entry. */
  lemma {:induction false} RecentIsLongestPrefix(history: seq<SigInfo>, cutoff: int)
    ensures var r := Recent(history, cutoff);
      && r <= history
      && (forall e :: e in r && e.blockTime.Some? ==> e.blockTime.value >= cutoff)
      && (|r| < |history| ==> history[|r|].blockTime.Some? && history[|r|].blockTime.value < cutoff)
  {
    if history != [] && !Old(history[0], cutoff) {
      RecentIsLongestPrefix(history[1..], cutoff);
    }
  }

  lemma {:induction false} AfterPosition(history: seq<SigInfo>, p: nat)
    requires Distinct(history) && p < |history|
    ensures After(history, history[p].signature) == history[p + 1..]
  {
    if p > 0 {
      AfterPosition(history[1..], p - 1);
      assert history[1..][p..] == history[p + 1..];
    }
  }

  lemma {:induction false} RecentFrom(history: seq<SigInfo>, cutoff: int, p: nat)
    requires p <= |history| && forall i :: 0 <= i < p ==> !Old(history[i], cutoff)
    ensures Recent(history, cutoff) == history[..p] + Recent(history[p..], cutoff)
  {
    if p == 0 {
      assert history[..0] + Recent(history[0..], cutoff) == Recent(history, cutoff);
    } else {
      RecentFrom(history[1..], cutoff, p - 1);
      assert history[1..][p - 1..] == history[p..];
      assert history[..p] == [history[0]] + history[1..][..p - 1];
    }
  }

  lemma {:induction false} AcceptedFrom(entries: seq<SigInfo>, accepts: SigInfo -> bool, p: nat)
    requires p <= |entries| && forall i :: 0 <= i < p ==> accepts(entries[i])
    ensures Accepted(entries, accepts) == entries[..p] + Accepted(entries[p..], accepts)
  {
    if p == 0 {
      assert entries[..0] + Accepted(entries[0..], accepts) == Accepted(entries, accepts);
    } else {
      AcceptedFrom(entries[1..], accepts, p - 1);
      assert entries[1..][p - 1..] == entries[p..];
      assert entries[..p] == [entries[0]] + entries[1..][..p - 1];
    }
  }

  predicate Wanted(e: SigInfo, cutoff: int, accepts: SigInfo -> bool) {
    !Old(e, cutoff) && accepts(e)
  }

  /**
  Ingest a page in order.  `accepts` says whether ingesting an entry succeeds; an old entry and a
  failure both stop the page.
  */
  method IngestPage(batch: seq<SigInfo>, cutoff: int, accepts: SigInfo -> bool)
      returns (ingested: seq<SigInfo>, reachedCutoff: bool, failed: bool)
    ensures ingested <= batch && forall e :: e in ingested ==> Wanted(e, cutoff, accepts)
    ensures |ingested| < |batch| ==> !Wanted(batch[|ingested|], cutoff, accepts)
    ensures reachedCutoff <==> |ingested| < |batch| && Old(batch[|ingested|], cutoff)
    ensures failed <==> |ingested| < |batch| && !reachedCutoff
  {
    ingested, reachedCutoff, failed := [], false, false;
    for i := 0 to |batch|
      invariant ingested == batch[..i]
      invariant forall e :: e in ingested ==> Wanted(e, cutoff, accepts)
    {
      if Old(batch[i], cutoff) { return ingested, true, false; }
      if !accepts(batch[i]) { return ingested, false, true; }
      ingested := ingested + [batch[i]];
    }
  }

  /** The loop over pages; the first failure ends the backfill with an error. */
  method BackfillWindow(history: seq<SigInfo>, cutoff: int, accepts: SigInfo -> bool)
      returns (ingested: seq<SigInfo>, ok: bool)
    requires Distinct(history)
    ensures ingested == Accepted(Recent(history, cutoff), accepts)
    ensures ok <==> ingested == Recent(history, cutoff)
  {
    hide Old, Wanted, Recent, Accepted, Page, Distinct;
    ingested := [];
    var before: Option<Signature> := None;
    while true
      invariant ingested <= history && forall e :: e in ingested ==> Wanted(e, cutoff, accepts)
      invariant before == if ingested == [] then None else Some(ingested[|ingested| - 1].signature)
      decreases |history| - |ingested|
    {
      var batch := Page(history, before);
      PageAt(history, before, |ingested|);
      if batch == [] {
        Stopped(history, cutoff, accepts, ingested);
        return ingested, true;
      }
      var taken, reachedCutoff, failed := IngestPage(batch, cutoff, accepts);
      Extended(history, ingested, batch, taken);
      ingested := ingested + taken;
      if reachedCutoff || failed {
        Stopped(history, cutoff, accepts, ingested);
        return ingested, !failed;
      }
      before := Some(batch[|batch| - 1].signature);
    }
  }

  lemma Extended(history: seq<SigInfo>, ingested: seq<SigInfo>, batch: seq<SigInfo>, taken: seq<SigInfo>)
    requires ingested <= history && batch <= history[|ingested|..] && taken <= batch
    ensures ingested + taken <= history
    ensures |taken| < |batch| ==>
      |ingested + taken| < |history| && history[|ingested + taken|] == batch[|taken|]
  {
  }

  lemma PageAt(history: seq<SigInfo>, before: Option<Signature>, p: nat)
    requires Distinct(history) && p <= |history|
    requires before == if p == 0 then None else Some(history[p - 1].signature)
    ensures var batch := Page(history, before);
      batch <= history[p..] && (batch == [] <==> p == |history|)
  {
    if p > 0 { AfterPosition(history, p - 1); }
  }

  lemma Stopped(history: seq<SigInfo>, cutoff: int, accepts: SigInfo -> bool, ingested: seq<SigInfo>)
    requires ingested <= history && forall e :: e in ingested ==> Wanted(e, cutoff, accepts)
    requires |ingested| < |history| ==> !Wanted(history[|ingested|], cutoff, accepts)
    ensures Accepted(Recent(history, cutoff), accepts) == ingested
    ensures ingested == Recent(history, cutoff)
      <==> |ingested| == |history| || Old(history[|ingested|], cutoff)
  {
    var p := |ingested|;
    assert forall i :: 0 <= i < p ==> history[i] in ingested;
    RecentFrom(history, cutoff, p);
    var recent, rest := Recent(history, cutoff), Recent(history[p..], cutoff);
    assert recent[..p] == ingested && recent[p..] == rest;
    AcceptedFrom(recent, accepts, p);
  }

  // ----- polling -----

  function Window(emitted: seq<Signature>): seq<Signature> {
    if |emitted| <= SEEN_LIMIT then emitted else emitted[|emitted| - SEEN_LIMIT..]
  }

  /** The signatures emitted so far after looking at these rows. */
  function Emit(emitted: seq<Signature>, rows: seq<Signature>): seq<Signature>
    decreases rows
  {
    if rows == [] then emitted
    else if rows[0] in Window(emitted) then Emit(emitted, rows[1..])
    else Emit(emitted + [rows[0]], rows[1..])
  }

  lemma WindowPush(emitted: seq<Signature>, s: Signature)
    ensures var w := Window(emitted) + [s];
      Window(emitted + [s]) == if |w| > SEEN_LIMIT then w[1..] else w
  {
  }

  class Poller {
    /** The deque of signatures already reported. */
    var seen: seq<Signature>
    ghost var emitted: seq<Signature>

    constructor ()
      ensures seen == [] && emitted == []
    {
      seen, emitted := [], [];
    }

    method PollLogsLike(rows: seq<Signature>) returns (out: seq<Signature>)
      requires seen == Window(emitted)
      modifies this
      ensures seen == Window(emitted)
      ensures emitted == Emit(old(emitted), rows) && emitted == old(emitted) + out
    {
      out := [];
      for i := 0 to |rows|
        invariant seen == Window(emitted)
        invariant emitted == old(emitted) + out
        invariant Emit(old(emitted), rows) == Emit(emitted, rows[i..])
      {
        assert rows[i..][0] == rows[i] && rows[i..][1..] == rows[i + 1..];
        if rows[i] !in seen {
          WindowPush(emitted, rows[i]);
          hide Window;
          out := out + [rows[i]];
          seen := seen + [rows[i]];
          if |seen| > SEEN_LIMIT { seen := seen[1..]; }
          emitted := emitted + [rows[i]];
        }
      }
    }
  }

  ghost predicate FarApart(emitted: seq<Signature>) {
    forall i, j :: 0 <= i < j < |emitted| && emitted[i] == emitted[j] ==> j - i > 10_000
  }

  lemma NotInWindow(emitted: seq<Signature>, s: Signature)
    requires FarApart(emitted) && s !in Window(emitted)
    ensures FarApart(emitted + [s])
  {
    forall i | 0 <= i < |emitted| && emitted[i] == s ensures |emitted| - i > SEEN_LIMIT {
      if |emitted| - i <= SEEN_LIMIT { RecentInWindow(emitted, i); }
    }
  }

  lemma RecentInWindow(emitted: seq<Signature>, i: nat)
    requires i < |emitted| && |emitted| - i <= SEEN_LIMIT
    ensures emitted[i] in Window(emitted)
  {
    if |emitted| > SEEN_LIMIT {
      assert Window(emitted)[i - (|emitted| - SEEN_LIMIT)] == emitted[i];
    }
  }

  ghost predicate AmongLast(emitted: seq<Signature>, n: nat, s: Signature) {
    exists i :: 0 <= i < |emitted| && |emitted| - i <= n && emitted[i] == s
  }

  lemma WindowIs(emitted: seq<Signature>, s: Signature)
    ensures s in Window(emitted) <==> AmongLast(emitted, 10_000, s)
  {
    if s in Window(emitted) {
      var k :| 0 <= k < |Window(emitted)| && Window(emitted)[k] == s;
      assert emitted[|emitted| - |Window(emitted)| + k] == s;
    }
    if AmongLast(emitted, 10_000, s) {
      var i :| 0 <= i < |emitted| && |emitted| - i <= 10_000 && emitted[i] == s;
      RecentInWindow(emitted, i);
    }
  }

  /** A polled signature is emitted unless it is among the last 10,000 that were. */
  lemma EmittedUnlessRecent(emitted: seq<Signature>, s: Signature)
    ensures Emit(emitted, [s]) == if AmongLast(emitted, 10_000, s) then emitted else emitted + [s]
  {
    WindowIs(emitted, s);
    hide Window, AmongLast;
    assert [s][1..] == [];
  }

  /** A signature is emitted again only after more than 10,000 emissions, whatever is polled. */
  lemma {:induction false} RepeatsFarApart(emitted: seq<Signature>, rows: seq<Signature>)
    requires FarApart(emitted)
    ensures FarApart(Emit(emitted, rows)) && emitted <= Emit(emitted, rows)
    decreases rows
  {
    if rows != [] {
      if rows[0] in Window(emitted) {
        RepeatsFarApart(emitted, rows[1..]);
      } else {
        NotInWindow(emitted, rows[0]);
        RepeatsFarApart(emitted + [rows[0]], rows[1..]);
      }
    }
  }

  /** Nothing polled is lost: every row has been emitted by the end of the poll, or before it. */
  lemma {:induction false} PolledIsEmitted(emitted: seq<Signature>, rows: seq<Signature>)
    ensures forall r :: r in rows ==> r in Emit(emitted, rows)
    ensures forall s :: s in Emit(emitted, rows) <==> s in emitted || s in rows
    decreases rows
  {
    if rows != [] {
      assert forall r :: r in rows <==> r == rows[0] || r in rows[1..];
      assert forall s :: s in Window(emitted) ==> s in emitted;
      PolledIsEmitted(if rows[0] in Window(emitted) then emitted else emitted + [rows[0]], rows[1..]);
    }
  }
}
