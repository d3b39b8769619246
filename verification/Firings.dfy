/**
When rules start to fire, over whole runs: an incident keeps the start of its rule's first firing, and
its identity, through every later one.
*/
module Firings {
  import opened Incidents
  import opened RuleState

  /** The event takes the rule from not firing to firing. */
  ghost predicate Promotes(t: Tables, e: Event, rule: RuleId) {
    e.Evaluate? && e.rule == rule && !IsFiring(t, rule) && IsFiring(After(t, e), rule)
  }

  /** The times at which the rule started to fire, in order. */
  ghost function Promotions(events: seq<Event>, rule: RuleId): seq<int> {
    if events == [] then []
    else
      var init, e := events[..|events| - 1], events[|events| - 1];
      Promotions(init, rule) + if Promotes(AfterAll(init), e, rule) then [e.eval.now] else []
  }

  ghost predicate StartedAtFirst(events: seq<Event>, t: Tables) {
    && (forall id :: id in t.incidents ==>
          Promotions(events, t.incidents[id].rule) != []
          && t.incidents[id].startedAt == Promotions(events, t.incidents[id].rule)[0])
    && (forall rule :: Promotions(events, rule) != [] ==> exists id :: Conflicts(t, id, rule))
  }

  lemma FiringNeedsPromotion(t: Tables, rule: RuleId, e: Eval)
    ensures IsFiring(AfterEval(t, rule, e), rule) <==> Step(RuleRow(t, rule), e).status.Firing?
  {
  }

  lemma OthersUnpromoted(t: Tables, e: Event, rule: RuleId)
    requires e.User? || e.rule != rule
    ensures !Promotes(t, e, rule)
  {
  }

  lemma FireStarts(events: seq<Event>, t0: Tables, rule: RuleId, now: int)
    requires StartedAtFirst(events, t0)
    requires forall id :: id in t0.incidents ==> id < t0.nextId
    ensures var t := FireIncident(t0, rule, now);
      && (forall id :: id in t.incidents && id in t0.incidents ==>
            t.incidents[id].rule == t0.incidents[id].rule && t.incidents[id].startedAt == t0.incidents[id].startedAt)
      && (forall id :: id in t.incidents && id !in t0.incidents ==>
            t.incidents[id].rule == rule && t.incidents[id].startedAt == now && Promotions(events, rule) == [])
      && (forall r, id :: Conflicts(t0, id, r) ==> Conflicts(t, id, r))
      && (exists id :: Conflicts(t, id, rule))
  {
    var t := FireIncident(t0, rule, now);
    if Find(t0, rule).Some? {
      KnownFires(t0, rule, now);
    } else {
      assert Promotions(events, rule) == [];
      hide StartedAtFirst, Promotions;
      NewFires(t0, rule, now);
    }
  }

  lemma KnownFires(t0: Tables, rule: RuleId, now: int)
    requires Find(t0, rule).Some?
    ensures var t := FireIncident(t0, rule, now);
      && t.incidents.Keys == t0.incidents.Keys
      && (forall id :: id in t.incidents ==>
            t.incidents[id].rule == t0.incidents[id].rule && t.incidents[id].startedAt == t0.incidents[id].startedAt)
      && (forall r, id :: Conflicts(t0, id, r) ==> Conflicts(t, id, r))
      && (exists id :: Conflicts(t, id, rule))
  {
    var t, id := FireIncident(t0, rule, now), Find(t0, rule).value;
    assert Conflicts(t0, id, rule);
    assert Conflicts(t, id, rule);
  }

  lemma NewFires(t0: Tables, rule: RuleId, now: int)
    requires Find(t0, rule).None?
    requires forall id :: id in t0.incidents ==> id < t0.nextId
    ensures var t := FireIncident(t0, rule, now);
      && (forall id :: id in t.incidents && id in t0.incidents ==>
            t.incidents[id].rule == t0.incidents[id].rule && t.incidents[id].startedAt == t0.incidents[id].startedAt)
      && (forall id :: id in t.incidents && id !in t0.incidents ==>
            t.incidents[id].rule == rule && t.incidents[id].startedAt == now)
      && (forall r, id :: Conflicts(t0, id, r) ==> Conflicts(t, id, r))
      && (exists id :: Conflicts(t, id, rule))
  {
    assert Conflicts(FireIncident(t0, rule, now), t0.nextId, rule);
  }

  /** Every incident started when its rule first fired. */
  lemma {:induction false} StartsAtFirstPromotion(events: seq<Event>)
    ensures StartedAtFirst(events, AfterAll(events))
  {
    if events != [] {
      var init, e := events[..|events| - 1], events[|events| - 1];
      StartsAtFirstPromotion(init);
      AlwaysCoherent(init);
      if e.Evaluate? && Promotes(AfterAll(init), e, e.rule) {
        FiredCase(events);
      } else {
        UnfiredCase(events);
      }
    }
  }

  lemma FiredCase(events: seq<Event>)
    requires events != []
    requires var init, e := events[..|events| - 1], events[|events| - 1];
      && StartedAtFirst(init, AfterAll(init)) && Coherent(AfterAll(init))
      && e.Evaluate? && Promotes(AfterAll(init), e, e.rule)
    ensures StartedAtFirst(events, AfterAll(events))
  {
    var init, e := events[..|events| - 1], events[|events| - 1];
    var before, t := AfterAll(init), AfterAll(events);
    var t0 := before.(rules := before.rules[e.rule := Step(RuleRow(before, e.rule), e.eval)]);
    assert t == FireIncident(t0, e.rule, e.eval.now);
    assert StartedAtFirst(init, t0) by {
      forall rule | Promotions(init, rule) != [] ensures exists id :: Conflicts(t0, id, rule) {
        var id :| Conflicts(before, id, rule);
        assert Conflicts(t0, id, rule);
      }
    }
    hide Coherent, AfterAll, Promotes;
    assert forall id :: id in t0.incidents ==> id < t0.nextId by { CoherentIds(before); }
    FireStarts(init, t0, e.rule, e.eval.now);
    hide FireIncident, StartedAtFirst, Conflicts;
    FiredStep(events, before, t0, t);
  }

  lemma CoherentIds(t: Tables)
    requires Coherent(t)
    ensures forall id :: id in t.incidents ==> id < t.nextId
  {
  }

  lemma UnfiredCase(events: seq<Event>)
    requires events != []
    requires var init, e := events[..|events| - 1], events[|events| - 1];
      StartedAtFirst(init, AfterAll(init)) && !(e.Evaluate? && Promotes(AfterAll(init), e, e.rule))
    ensures StartedAtFirst(events, AfterAll(events))
  {
    var init, e := events[..|events| - 1], events[|events| - 1];
    var before, t := AfterAll(init), AfterAll(events);
    forall rule ensures Promotions(events, rule) == Promotions(init, rule) {
      if !e.Evaluate? || e.rule != rule { OthersUnpromoted(before, e, rule); }
    }
    UnfiredStep(before, e);
    hide Promotes, AfterAll, After;
    forall rule | Promotions(events, rule) != [] ensures exists id :: Conflicts(t, id, rule) {
      var id :| Conflicts(before, id, rule);
      assert Conflicts(t, id, rule);
    }
  }

  lemma FiredStep(events: seq<Event>, before: Tables, t0: Tables, t: Tables)
    requires events != []
    requires var init, e := events[..|events| - 1], events[|events| - 1];
      && e.Evaluate? && before == AfterAll(init) && Promotes(before, e, e.rule) && StartedAtFirst(init, t0)
      && (forall id :: id in t.incidents && id in t0.incidents ==>
            t.incidents[id].rule == t0.incidents[id].rule && t.incidents[id].startedAt == t0.incidents[id].startedAt)
      && (forall id :: id in t.incidents && id !in t0.incidents ==>
            t.incidents[id].rule == e.rule && t.incidents[id].startedAt == e.eval.now && Promotions(init, e.rule) == [])
      && (forall r, id :: Conflicts(t0, id, r) ==> Conflicts(t, id, r))
      && (exists id :: Conflicts(t, id, e.rule))
    ensures StartedAtFirst(events, t)
  {
    var init, e := events[..|events| - 1], events[|events| - 1];
    forall rule
      ensures rule != e.rule ==> Promotions(events, rule) == Promotions(init, rule)
    {
      if rule != e.rule { OthersUnpromoted(before, e, rule); }
    }
    assert Promotions(events, e.rule) == Promotions(init, e.rule) + [e.eval.now];
    forall rule | Promotions(events, rule) != [] ensures exists id :: Conflicts(t, id, rule) {
      if rule != e.rule {
        var id :| Conflicts(t0, id, rule);
        assert Conflicts(t, id, rule);
      }
    }
  }

  /** Without a promotion no incident appears, and none changes its rule or start. */
  lemma UnfiredStep(t: Tables, e: Event)
    requires e.Evaluate? ==> !Promotes(t, e, e.rule)
    ensures After(t, e).incidents.Keys == t.incidents.Keys
    ensures forall id :: id in t.incidents ==>
      var i, j := t.incidents[id], After(t, e).incidents[id];
      j.rule == i.rule && j.startedAt == i.startedAt && j.dedupKey == i.dedupKey
  {
    if e.Evaluate? { FiringNeedsPromotion(t, e.rule, e.eval); }
  }

  // ----- incidents keep their identity -----

  lemma IncidentStaysOnce(t: Tables, e: Event, id: IncidentId)
    requires Coherent(t) && id in t.incidents
    ensures id in After(t, e).incidents && After(t, e).incidents[id].rule == t.incidents[id].rule
  {
  }

  lemma {:induction false} IncidentStays(events: seq<Event>, more: seq<Event>, id: IncidentId)
    requires id in AfterAll(events).incidents
    ensures id in AfterAll(events + more).incidents
    ensures AfterAll(events + more).incidents[id].rule == AfterAll(events).incidents[id].rule
  {
    if more == [] {
      assert events + more == events;
    } else {
      var init := more[..|more| - 1];
      assert (events + more)[..|events + more| - 1] == events + init;
      IncidentStays(events, init, id);
      AlwaysCoherent(events + init);
      IncidentStaysOnce(AfterAll(events + init), more[|more| - 1], id);
    }
  }

  /** All firings of a rule, however far apart, have one incident. */
  lemma OneIncidentForAllFirings(events: seq<Event>, more: seq<Event>, rule: RuleId, id: IncidentId, later: IncidentId)
    requires OpenIncident(AfterAll(events), id, rule) && OpenIncident(AfterAll(events + more), later, rule)
    ensures id == later
  {
    IncidentStays(events, more, id);
    AlwaysCoherent(events + more);
  }

  // ----- the current firing -----

  /** Evaluations of a rule come at increasing times. */
  ghost predicate Clocked(events: seq<Event>) {
    forall i, j :: 0 <= i < j < |events| && events[i].Evaluate? && events[j].Evaluate? && events[i].rule == events[j].rule ==>
      events[i].eval.now < events[j].eval.now
  }

  lemma ClockedInit(events: seq<Event>)
    requires events != [] && Clocked(events)
    ensures Clocked(events[..|events| - 1])
  {
  }

  lemma {:induction false} PromotionsAreEvaluations(events: seq<Event>, rule: RuleId)
    ensures forall x :: x in Promotions(events, rule) ==>
      exists i :: 0 <= i < |events| && events[i].Evaluate? && events[i].rule == rule && events[i].eval.now == x
  {
    if events != [] {
      var init, e := events[..|events| - 1], events[|events| - 1];
      PromotionsAreEvaluations(init, rule);
      forall x | x in Promotions(events, rule)
        ensures exists i :: 0 <= i < |events| && events[i].Evaluate? && events[i].rule == rule && events[i].eval.now == x
      {
        if x in Promotions(init, rule) {
          var i :| 0 <= i < |init| && init[i].Evaluate? && init[i].rule == rule && init[i].eval.now == x;
          assert events[i] == init[i];
        } else {
          assert events[|init|] == e;
        }
      }
    }
  }

  ghost predicate Increasing(xs: seq<int>) {
    forall i, j :: 0 <= i < j < |xs| ==> xs[i] < xs[j]
  }

  lemma IncreasingSnoc(xs: seq<int>, x: int)
    requires Increasing(xs) && forall y :: y in xs ==> y < x
    ensures Increasing(xs + [x])
  {
    assert forall i :: 0 <= i < |xs| ==> xs[i] in xs;
  }

  lemma {:induction false} PromotionsIncrease(events: seq<Event>, rule: RuleId)
    requires Clocked(events)
    ensures Increasing(Promotions(events, rule))
  {
    if events != [] {
      var init, e := events[..|events| - 1], events[|events| - 1];
      ClockedInit(events);
      PromotionsIncrease(init, rule);
      PromotionsAreEvaluations(init, rule);
      if Promotes(AfterAll(init), e, rule) {
        forall x | x in Promotions(init, rule) ensures x < e.eval.now {
          var i :| 0 <= i < |init| && init[i].Evaluate? && init[i].rule == rule && init[i].eval.now == x;
          assert events[i] == init[i] && events[|init|] == e;
        }
        IncreasingSnoc(Promotions(init, rule), e.eval.now);
      }
    }
  }

  /** An open incident dates from the current firing iff its rule was promoted once. */
  lemma StartIsCurrentWhen(events: seq<Event>, id: IncidentId, rule: RuleId)
    requires Clocked(events) && OpenIncident(AfterAll(events), id, rule)
    ensures var ps := Promotions(events, rule);
      && ps != [] && AfterAll(events).incidents[id].startedAt == ps[0]
      && (AfterAll(events).incidents[id].startedAt == ps[|ps| - 1] <==> |ps| == 1)
  {
    StartsAtFirstPromotion(events);
    PromotionsIncrease(events, rule);
  }
}
