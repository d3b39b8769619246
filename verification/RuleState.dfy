/**
The persisted state machine of an alert rule: ok, pending, firing, with the time the condition has
held since.  The module gives the state after any run of evaluations in closed form.
*/
module RuleState {

  datatype Option<T> = None | Some(value: T)

  /** The database's enumeration; no statement of the alerter writes `Stale`. */
  datatype Status = Fine | Pending | Firing | Stale

  /** Times are in milliseconds. */
  datatype Row = Row(status: Status, since: Option<int>)

  datatype Eval = Eval(firing: bool, now: int, forSeconds: int)

  /** Whole seconds, truncated toward zero. */
  function NumSeconds(ms: int): int { if ms >= 0 then ms / 1000 else -((-ms) / 1000) }

  /** At least s whole seconds, in milliseconds: truncation counts a negative time short of a second as none. */
  lemma SecondsPass(ms: int, s: int)
    ensures NumSeconds(ms) >= s <==> if s > 0 then ms >= 1000 * s else ms > 1000 * (s - 1)
  {
  }

  function NextStatus(prev: Option<Row>, e: Eval): Status {
    var prevStatus := if prev.Some? then prev.value.status else Fine;
    var since := if prev.Some? && prev.value.since.Some? then prev.value.since.value else e.now;
    if !e.firing then Fine
    else if prevStatus.Fine? then Pending
    else if prevStatus.Pending? && NumSeconds(e.now - since) >= e.forSeconds then Firing
    else prevStatus
  }

  /** The row that the upsert leaves: a missing `since` is filled, an existing one is kept. */
  function Step(prev: Option<Row>, e: Eval): Row {
    var next := NextStatus(prev, e);
    Row(next,
        if !(next.Pending? || next.Firing?) then None
        else if prev.Some? && prev.value.since.Some? then prev.value.since
        else Some(e.now))
  }

  function Run(evals: seq<Eval>): Option<Row> {
    if evals == [] then None else Some(Step(Run(evals[..|evals| - 1]), evals[|evals| - 1]))
  }

  /** Where the trailing run of firing evaluations starts. */
  function StreakStart(evals: seq<Eval>): (i: nat)
    ensures i <= |evals|
    ensures forall k :: i <= k < |evals| ==> evals[k].firing
    ensures i > 0 ==> !evals[i - 1].firing
  {
    if evals == [] then 0
    else if !evals[|evals| - 1].firing then |evals|
    else StreakStart(evals[..|evals| - 1])
  }

  /** A later evaluation of the streak came at least its rule's `for_seconds` after the streak's start. */
  ghost predicate HeldLongEnough(evals: seq<Eval>, start: nat)
    requires start <= |evals|
  {
    exists j :: start < j < |evals| && Held(evals[start], evals[j])
  }

  ghost function Expected(evals: seq<Eval>): Row {
    var start := StreakStart(evals);
    if start == |evals| then Row(Fine, None)
    else Row(if HeldLongEnough(evals, start) then Firing else Pending, Some(evals[start].now))
  }

  /**
  After any run the rule is ok, pending or firing exactly as the trailing streak of firing
  evaluations says, and `since` is the time of its first evaluation (null exactly when ok).
  */
  lemma {:induction false} RunExactly(evals: seq<Eval>)
    requires evals != []
    ensures Run(evals) == Some(Expected(evals))
  {
    hide HeldLongEnough, NumSeconds;
    var init, last := evals[..|evals| - 1], evals[|evals| - 1];
    var start := StreakStart(evals);
    if init != [] { RunExactly(init); }
    if last.firing {
      assert start == StreakStart(init);
      HeldStep(init, last, start);
      assert init + [last] == evals;
    }
  }

  ghost predicate Held(start: Eval, e: Eval) {
    NumSeconds(e.now - start.now) >= e.forSeconds
  }

  lemma HeldStep(init: seq<Eval>, last: Eval, start: nat)
    requires start <= |init|
    ensures var evals := init + [last];
      HeldLongEnough(evals, start) <==>
        start < |init|
        && (HeldLongEnough(init, start) || NumSeconds(last.now - evals[start].now) >= last.forSeconds)
  {
    var evals := init + [last];
    if start < |init| {
      if HeldLongEnough(init, start) {
        var j :| start < j < |init| && Held(init[start], init[j]);
        assert Held(evals[start], evals[j]);
      }
      if Held(evals[start], last) { assert Held(evals[start], evals[|init|]); }
      if HeldLongEnough(evals, start) {
        var j :| start < j < |evals| && Held(evals[start], evals[j]);
        assert j < |init| ==> Held(init[start], init[j]);
      }
    }
  }

  /** Firing needs at least two evaluations in a row, the last of all among them. */
  lemma FiringIsEarned(evals: seq<Eval>)
    requires Run(evals).Some? && Run(evals).value.status.Firing?
    ensures exists i, j :: (
      && 0 <= i < j < |evals|
      && (forall k :: i <= k < |evals| ==> evals[k].firing)
      && Run(evals).value.since == Some(evals[i].now)
      && Held(evals[i], evals[j])
      && (evals[j].forSeconds > 0 ==> evals[j].now - evals[i].now >= 1000 * evals[j].forSeconds))
  {
    RunExactly(evals);
    var i := StreakStart(evals);
    var j :| i < j < |evals| && Held(evals[i], evals[j]);
    SecondsPass(evals[j].now - evals[i].now, evals[j].forSeconds);
  }

  /** A streak of firing evaluations fires as soon as one after its first comes the rule's wait after it. */
  lemma FiresWhenHeld(evals: seq<Eval>, i: nat, j: nat)
    requires i < j < |evals| && (forall k :: i <= k < |evals| ==> evals[k].firing) && (i > 0 ==> !evals[i - 1].firing)
    requires evals[j].forSeconds > 0 && evals[j].now - evals[i].now >= 1000 * evals[j].forSeconds
    ensures Run(evals) == Some(Row(Firing, Some(evals[i].now)))
  {
    RunExactly(evals);
    var start := StreakStart(evals);
    assert start == i;
    SecondsPass(evals[j].now - evals[i].now, evals[j].forSeconds);
    assert Held(evals[i], evals[j]);
  }
}
