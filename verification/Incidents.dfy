/**
Rules and their incidents under any interleaving of evaluations and user actions.  The tables are
maps; `Alerter` updates them in place, step by step, as the functions over `Tables` say.
*/
module Incidents {
  import opened RuleState

  type RuleId = nat

  type IncidentId = nat

  datatype IncidentStatus = Open | Acknowledged | Resolved | Silenced

  /** The key under which a rule's incident is found again; every rule uses its default key only. */
  datatype DedupKey = DefaultKey(rule: RuleId)

  datatype Incident = Incident(rule: RuleId, dedupKey: DedupKey, status: IncidentStatus, startedAt: int,
                               resolvedAt: Option<int>)

  /**
  `touched` holds the rules whose incident a user has acted on since it last fired; it is only
  there to say what user actions change.
  */
  datatype Tables = Tables(rules: map<RuleId, Row>, incidents: map<IncidentId, Incident>,
                           nextId: IncidentId, touched: set<RuleId>)

  const NO_ROWS := Tables(map[], map[], 0, {})

  datatype Action = Ack | Resolve | Silence

  datatype Event =
    | Evaluate(rule: RuleId, eval: Eval)
    | User(incident: IncidentId, action: Action, now: int)

  function RuleRow(t: Tables, rule: RuleId): Option<Row> {
    if rule in t.rules then Some(t.rules[rule]) else None
  }

  predicate IsFiring(t: Tables, rule: RuleId) {
    rule in t.rules && t.rules[rule].status.Firing?
  }

  /** The incident that an upsert on (rule, key) would conflict with. */
  ghost predicate Conflicts(t: Tables, id: IncidentId, rule: RuleId) {
    id in t.incidents && t.incidents[id].rule == rule && t.incidents[id].dedupKey == DefaultKey(rule)
  }

  ghost function Find(t: Tables, rule: RuleId): (r: Option<IncidentId>)
    ensures if r.Some? then Conflicts(t, r.value, rule) else forall id :: !Conflicts(t, id, rule)
  {
    if exists id :: Conflicts(t, id, rule) then (var id :| Conflicts(t, id, rule); Some(id)) else None
  }

  /** The upsert of a promotion: `startedAt` is set when the row is new, and kept otherwise. */
  ghost function FireIncident(t: Tables, rule: RuleId, now: int): Tables {
    match Find(t, rule)
    case Some(id) =>
      t.(incidents := t.incidents[id := t.incidents[id].(status := Open, resolvedAt := None)],
         touched := t.touched - {rule})
    case None =>
      t.(incidents := t.incidents[t.nextId := Incident(rule, DefaultKey(rule), Open, now, None)],
         nextId := t.nextId + 1, touched := t.touched - {rule})
  }

  ghost predicate OpenIncident(t: Tables, id: IncidentId, rule: RuleId) {
    id in t.incidents && t.incidents[id].rule == rule && t.incidents[id].status.Open?
  }

  ghost function FindOpen(t: Tables, rule: RuleId): (r: Option<IncidentId>)
    ensures if r.Some? then OpenIncident(t, r.value, rule) else forall id :: !OpenIncident(t, id, rule)
  {
    if exists id :: OpenIncident(t, id, rule) then (var id :| OpenIncident(t, id, rule); Some(id)) else None
  }

  ghost function CloseIncident(t: Tables, rule: RuleId, now: int): Tables {
    match FindOpen(t, rule)
    case Some(id) =>
      t.(incidents := t.incidents[id := t.incidents[id].(status := Resolved, resolvedAt := Some(now))])
    case None => t
  }

  ghost function AfterEval(t: Tables, rule: RuleId, e: Eval): Tables {
    var next := Step(RuleRow(t, rule), e);
    var t' := t.(rules := t.rules[rule := next]);
    if !IsFiring(t, rule) && next.status.Firing? then FireIncident(t', rule, e.now)
    else if IsFiring(t, rule) && next.status.Fine? then CloseIncident(t', rule, e.now)
    else t'
  }

  function AfterUser(t: Tables, id: IncidentId, action: Action, now: int): Tables {
    if id !in t.incidents then t
    else
      var i := t.incidents[id];
      var i' := match action
        case Ack => i.(status := Acknowledged)
        case Resolve => i.(status := Resolved, resolvedAt := Some(now))
        case Silence => i.(status := Silenced);
      t.(incidents := t.incidents[id := i'], touched := t.touched + {i.rule})
  }

  ghost function After(t: Tables, e: Event): Tables {
    match e
    case Evaluate(rule, eval) => AfterEval(t, rule, eval)
    case User(id, action, now) => AfterUser(t, id, action, now)
  }

  ghost function AfterAll(events: seq<Event>): Tables {
    if events == [] then NO_ROWS else After(AfterAll(events[..|events| - 1]), events[|events| - 1])
  }

  ghost predicate OnePerRule(t: Tables) {
    forall a, b :: a in t.incidents && b in t.incidents && t.incidents[a].rule == t.incidents[b].rule ==> a == b
  }

  ghost predicate Coherent(t: Tables) {
    && (forall id :: id in t.incidents ==> id < t.nextId && t.incidents[id].dedupKey == DefaultKey(t.incidents[id].rule))
    && OnePerRule(t)
    && (forall r :: r in t.rules ==> !t.rules[r].status.Stale?)
    // an open incident belongs to a firing rule
    && (forall id :: id in t.incidents && t.incidents[id].status.Open? ==> IsFiring(t, t.incidents[id].rule))
    // a firing rule has an incident, open unless a user has acted on it since
    && (forall r :: IsFiring(t, r) ==> HasIncident(t, r))
  }

  ghost predicate HasIncident(t: Tables, r: RuleId) {
    exists id :: id in t.incidents && t.incidents[id].rule == r && (t.incidents[id].status.Open? || r in t.touched)
  }

  lemma FireKeepsCoherent(t: Tables, rule: RuleId, now: int, row: Row)
    requires Coherent(t) && !IsFiring(t, rule) && row.status.Firing?
    ensures Coherent(FireIncident(t.(rules := t.rules[rule := row]), rule, now))
  {
    var t0 := t.(rules := t.rules[rule := row]);
    var t1 := FireIncident(t0, rule, now);
    forall id | id in t.incidents && t.incidents[id].rule == rule ensures Conflicts(t0, id, rule) {
    }
    forall r | IsFiring(t1, r) ensures HasIncident(t1, r) {
      FiredHasIncident(t, rule, now, row, r);
    }
    hide HasIncident;
  }

  lemma FiredHasIncident(t: Tables, rule: RuleId, now: int, row: Row, r: RuleId)
    requires Coherent(t) && IsFiring(FireIncident(t.(rules := t.rules[rule := row]), rule, now), r)
    ensures HasIncident(FireIncident(t.(rules := t.rules[rule := row]), rule, now), r)
  {
    var t0 := t.(rules := t.rules[rule := row]);
    var t1 := FireIncident(t0, rule, now);
    if r == rule {
      var id := if Find(t0, rule).Some? then Find(t0, rule).value else t.nextId;
      assert t1.incidents[id].rule == rule;
    } else {
      assert HasIncident(t, r);
      var id :| id in t.incidents && t.incidents[id].rule == r && (t.incidents[id].status.Open? || r in t.touched);
      assert t1.incidents[id] == t.incidents[id];
    }
  }

  lemma CloseKeepsCoherent(t: Tables, rule: RuleId, now: int, row: Row)
    requires Coherent(t) && IsFiring(t, rule) && row.status.Fine?
    ensures Coherent(CloseIncident(t.(rules := t.rules[rule := row]), rule, now))
  {
    var t0 := t.(rules := t.rules[rule := row]);
    var t1 := CloseIncident(t0, rule, now);
    forall r | IsFiring(t1, r) ensures HasIncident(t1, r) {
      assert HasIncident(t, r);
      var id :| id in t.incidents && t.incidents[id].rule == r && (t.incidents[id].status.Open? || r in t.touched);
      assert t1.incidents[id] == t.incidents[id];
    }
    forall id | id in t1.incidents && t1.incidents[id].status.Open?
      ensures IsFiring(t1, t1.incidents[id].rule)
    {
      if t1.incidents[id].rule == rule { assert OpenIncident(t0, id, rule); }
    }
  }

  lemma UserKeepsCoherent(t: Tables, id: IncidentId, action: Action, now: int)
    requires Coherent(t)
    ensures Coherent(AfterUser(t, id, action, now))
  {
    var t1 := AfterUser(t, id, action, now);
    forall r | IsFiring(t1, r) ensures HasIncident(t1, r) {
      assert HasIncident(t, r);
      var k :| k in t.incidents && t.incidents[k].rule == r && (t.incidents[k].status.Open? || r in t.touched);
      assert t1.incidents[k].rule == r;
    }
  }

  lemma StepKeepsCoherent(t: Tables, e: Event)
    requires Coherent(t)
    ensures Coherent(After(t, e))
  {
    match e
    case Evaluate(rule, eval) =>
      var next := Step(RuleRow(t, rule), eval);
      var t0 := t.(rules := t.rules[rule := next]);
      if !IsFiring(t, rule) && next.status.Firing? {
        FireKeepsCoherent(t, rule, eval.now, next);
      } else if IsFiring(t, rule) && next.status.Fine? {
        CloseKeepsCoherent(t, rule, eval.now, next);
      } else {
        forall r | IsFiring(t0, r) ensures HasIncident(t0, r) {
          assert IsFiring(t, r) && HasIncident(t, r);
        }
      }
    case User(id, action, now) => UserKeepsCoherent(t, id, action, now);
  }

  /** Every interleaving of evaluations and user actions keeps rules and incidents coherent. */
  lemma {:induction false} AlwaysCoherent(events: seq<Event>)
    ensures Coherent(AfterAll(events))
  {
    if events != [] {
      AlwaysCoherent(events[..|events| - 1]);
      StepKeepsCoherent(AfterAll(events[..|events| - 1]), events[|events| - 1]);
    }
  }

  lemma {:induction false} UntouchedWithoutUsers(events: seq<Event>)
    requires forall e :: e in events ==> e.Evaluate?
    ensures AfterAll(events).touched == {}
  {
    if events != [] { UntouchedWithoutUsers(events[..|events| - 1]); }
  }

  /**
  At most one incident per rule; an open incident means its rule is firing; and without user
  actions a rule is firing exactly when it has an open incident.
  */
  lemma IncidentsFollowRules(events: seq<Event>, rule: RuleId)
    ensures var t := AfterAll(events);
      && OnePerRule(t)
      && ((exists id :: OpenIncident(t, id, rule)) ==> IsFiring(t, rule))
      && ((forall e :: e in events ==> e.Evaluate?) ==>
            (IsFiring(t, rule) <==> exists id :: OpenIncident(t, id, rule)))
  {
    AlwaysCoherent(events);
    var t := AfterAll(events);
    if forall e :: e in events ==> e.Evaluate? {
      UntouchedWithoutUsers(events);
      if IsFiring(t, rule) {
        assert HasIncident(t, rule);
        var id :| id in t.incidents && t.incidents[id].rule == rule && t.incidents[id].status.Open?;
        assert OpenIncident(t, id, rule);
      }
    }
  }

  function EvalsOf(events: seq<Event>, rule: RuleId): seq<Eval> {
    if events == [] then []
    else
      var e := events[|events| - 1];
      EvalsOf(events[..|events| - 1], rule)
      + (if e.Evaluate? && e.rule == rule then [e.eval] else [])
  }

  lemma AfterRow(t: Tables, e: Event, rule: RuleId)
    ensures RuleRow(After(t, e), rule)
         == if e.Evaluate? && e.rule == rule then Some(Step(RuleRow(t, rule), e.eval)) else RuleRow(t, rule)
  {
    hide Step;
  }

  /** Neither other rules nor users disturb a rule's own state machine. */
  lemma {:induction false} RulesIndependent(events: seq<Event>, rule: RuleId)
    ensures RuleRow(AfterAll(events), rule) == Run(EvalsOf(events, rule))
  {
    if events != [] {
      var init, e := events[..|events| - 1], events[|events| - 1];
      RulesIndependent(init, rule);
      AfterRow(AfterAll(init), e, rule);
      hide After, Step, RuleRow;
      var evals := EvalsOf(init, rule);
      if e.Evaluate? && e.rule == rule {
        assert (evals + [e.eval])[..|evals|] == evals;
      } else {
        assert evals + [] == evals;
      }
    }
  }

  // ----- who had the last word on an incident -----

  datatype Word = Word(status: IncidentStatus, resolvedAt: Option<int>)

  /**
  What an incident's status and its time of resolution are, told by the events alone: acknowledged, resolved
  or silenced by a user, opened by its rule's start to fire, resolved by its rule's end if it was open.
  */
  ghost function LastWord(events: seq<Event>, id: IncidentId, rule: RuleId): Word {
    if events == [] then Word(Open, None)
    else
      var init, e := events[..|events| - 1], events[|events| - 1];
      var before, was, is_ := LastWord(init, id, rule), AfterAll(init), AfterAll(events);
      match e
      case User(i, action, now) =>
        if i != id || id !in was.incidents then before
        else (match action
              case Ack => Word(Acknowledged, before.resolvedAt)
              case Resolve => Word(Resolved, Some(now))
              case Silence => Word(Silenced, before.resolvedAt))
      case Evaluate(r, eval) =>
        if r == rule && !IsFiring(was, rule) && IsFiring(is_, rule) then Word(Open, None)
        else if r == rule && IsFiring(was, rule) && !IsFiring(is_, rule) && before.status == Open then Word(Resolved, Some(eval.now))
        else before
  }

  ghost predicate Says(i: Incident, w: Word) { i.status == w.status && i.resolvedAt == w.resolvedAt }

  /** An evaluation of the rule, as far as one of its incidents goes. */
  lemma EvalSays(t: Tables, rule: RuleId, e: Eval, id: IncidentId)
    requires Coherent(t)
    ensures var t1 := AfterEval(t, rule, e);
      && (id in t.incidents ==> id in t1.incidents && t1.incidents[id].rule == t.incidents[id].rule)
      && (id in t1.incidents && t1.incidents[id].rule == rule && !IsFiring(t, rule) && IsFiring(t1, rule) ==>
            Says(t1.incidents[id], Word(Open, None)))
      && (id in t.incidents && t.incidents[id].rule == rule && IsFiring(t, rule) && !IsFiring(t1, rule) && t.incidents[id].status == Open ==>
            Says(t1.incidents[id], Word(Resolved, Some(e.now))))
  {
    var t0 := t.(rules := t.rules[rule := Step(RuleRow(t, rule), e)]);
    assert OnePerRule(t0);
    if id in t.incidents && t.incidents[id].rule == rule {
      assert Conflicts(t0, id, rule);
      SameConflict(t0, id, rule);
      if t.incidents[id].status == Open { SameOpen(t0, id, rule); }
    }
  }

  /** Else, and for other rules, it leaves the incident as it is. */
  lemma EvalLeaves(t: Tables, rule: RuleId, e: Eval, id: IncidentId)
    requires Coherent(t) && id in t.incidents
    ensures var t1 := AfterEval(t, rule, e);
      (t.incidents[id].rule != rule || (IsFiring(t, rule) <==> IsFiring(t1, rule)) || (IsFiring(t, rule) && t.incidents[id].status != Open) ==>
         id in t1.incidents && t1.incidents[id] == t.incidents[id])
  {
  }

  lemma EvalMakesOwn(t: Tables, rule: RuleId, e: Eval, id: IncidentId)
    requires id !in t.incidents && id in AfterEval(t, rule, e).incidents
    ensures AfterEval(t, rule, e).incidents[id].rule == rule
    ensures !IsFiring(t, rule) && IsFiring(AfterEval(t, rule, e), rule)
  {
  }

  lemma UserSays(t: Tables, u: IncidentId, action: Action, now: int, id: IncidentId)
    requires id in t.incidents
    ensures var t1, i := AfterUser(t, u, action, now), t.incidents[id];
      && id in t1.incidents && t1.incidents[id].rule == i.rule
      && Says(t1.incidents[id],
              if u != id then Word(i.status, i.resolvedAt)
              else if action == Ack then Word(Acknowledged, i.resolvedAt)
              else if action == Resolve then Word(Resolved, Some(now))
              else Word(Silenced, i.resolvedAt))
  {
  }

  /** In every run every incident is as the last event about it said. */
  lemma {:induction false} StatusExactly(events: seq<Event>, id: IncidentId)
    requires id in AfterAll(events).incidents
    ensures Says(AfterAll(events).incidents[id], LastWord(events, id, AfterAll(events).incidents[id].rule))
  {
    if events != [] {
      var init, e := events[..|events| - 1], events[|events| - 1];
      var was, rule := AfterAll(init), AfterAll(events).incidents[id].rule;
      AlwaysCoherent(init);
      match e
      case User(u, action, now) =>
        assert id in was.incidents;
        StatusExactly(init, id);
        UserSays(was, u, action, now, id);
      case Evaluate(r, eval) =>
        if id in was.incidents {
          StatusExactly(init, id);
          EvalLeaves(was, r, eval, id);
        } else {
          EvalMakesOwn(was, r, eval, id);
        }
        EvalSays(was, r, eval, id);
        hide AfterEval, Coherent;
    }
  }

  class Alerter {
    var rules: map<RuleId, Row>
    var incidents: map<IncidentId, Incident>
    var nextId: IncidentId
    ghost var touched: set<RuleId>

    ghost function State(): Tables
      reads this
    {
      Tables(rules, incidents, nextId, touched)
    }

    constructor ()
      ensures State() == NO_ROWS
    {
      rules, incidents, nextId, touched := map[], map[], 0, {};
    }

    /** `notify` says that a new incident is to be notified: it fired and no silence matches. */
    method ApplyStateMachine(rule: RuleId, e: Eval, silenced: bool) returns (notify: Option<IncidentId>)
      requires Coherent(State())
      modifies this
      ensures State() == AfterEval(old(State()), rule, e) && Coherent(State())
      ensures notify.Some?
        <==> !IsFiring(old(State()), rule) && IsFiring(State(), rule) && !silenced
      ensures notify.Some? ==> OpenIncident(State(), notify.value, rule)
    {
      StepKeepsCoherent(State(), Evaluate(rule, e));
      ghost var t0 := State().(rules := rules[rule := Step(RuleRow(State(), rule), e)]);
      var prev := if rule in rules then Some(rules[rule]) else None;
      var prevStatus := if prev.Some? then prev.value.status else Fine;
      var since := if prev.Some? && prev.value.since.Some? then prev.value.since.value else e.now;
      var next := prevStatus;
      if e.firing {
        if prevStatus.Fine? {
          next := Pending;
        } else if prevStatus.Pending? && NumSeconds(e.now - since) >= e.forSeconds {
          next := Firing;
        }
      } else {
        next := Fine;
      }
      var sinceTs := if !(next.Pending? || next.Firing?) then None
                     else if prev.Some? && prev.value.since.Some? then prev.value.since
                     else Some(e.now);
      rules := rules[rule := Row(next, sinceTs)];
      assert State() == t0;
      notify := None;
      if !prevStatus.Firing? && next.Firing? {
        var id;
        if k :| k in incidents && incidents[k].rule == rule && incidents[k].dedupKey == DefaultKey(rule) {
          id := k;
          SameConflict(t0, k, rule);
          incidents := incidents[k := incidents[k].(status := Open, resolvedAt := None)];
        } else {
          id := nextId;
          assert !exists k :: Conflicts(t0, k, rule);
          assert Find(t0, rule) == None;
          incidents := incidents[id := Incident(rule, DefaultKey(rule), Open, e.now, None)];
          nextId := nextId + 1;
        }
        touched := touched - {rule};
        assert State() == FireIncident(t0, rule, e.now);
        if !silenced { notify := Some(id); }
      }
      if prevStatus.Firing? && next.Fine? {
        if k :| k in incidents && incidents[k].rule == rule && incidents[k].status.Open? {
          SameOpen(t0, k, rule);
          incidents := incidents[k := incidents[k].(status := Resolved, resolvedAt := Some(e.now))];
        } else {
          assert !exists k :: OpenIncident(t0, k, rule);
          assert FindOpen(t0, rule) == None;
        }
        assert State() == CloseIncident(t0, rule, e.now);
      }
    }

    method IncidentAction(id: IncidentId, action: Action, now: int) returns (found: bool)
      requires Coherent(State())
      modifies this
      ensures State() == AfterUser(old(State()), id, action, now) && Coherent(State())
      ensures found <==> id in old(incidents)
    {
      UserKeepsCoherent(State(), id, action, now);
      found := id in incidents;
      if !found { return; }
      var i := incidents[id];
      match action {
        case Ack => incidents := incidents[id := i.(status := Acknowledged)];
        case Resolve => incidents := incidents[id := i.(status := Resolved, resolvedAt := Some(now))];
        case Silence => incidents := incidents[id := i.(status := Silenced)];
      }
      touched := touched + {i.rule};
    }
  }

  lemma SameConflict(t: Tables, k: IncidentId, rule: RuleId)
    requires OnePerRule(t) && Conflicts(t, k, rule)
    ensures Find(t, rule) == Some(k)
  {
  }

  lemma SameOpen(t: Tables, k: IncidentId, rule: RuleId)
    requires OnePerRule(t) && OpenIncident(t, k, rule)
    ensures FindOpen(t, rule) == Some(k)
  {
  }
}
