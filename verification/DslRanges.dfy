/** Ranges that queries drop: in which databases an event selector or a quantile with a range means what was written. */
module DslRanges {
  import opened Lists
  import opened Sql
  import opened Dsl
  import opened DslMeaning
  import opened DslCorrect
  import opened DslQueries
  import opened DslTheorem
  import opened DslAlgebra
  import opened DslConflicts

  function Events(ms: seq<LabelMatch>, range: Option<int>): Expr { Vector(VectorExpr(EVENT, ms, range)) }

  // ----- points count the samples they are made of -----

  lemma {:induction false} SplitCount<Key(!new), A(!new)>(xs: seq<A>, key: A -> Key, k: Key)
    ensures |xs| == |Filter(xs, HasKey(key, k))| + |Filter(xs, LacksKey(key, k))|
  {
    if xs != [] { SplitCount(xs[1..], key, k); }
  }

  function Any(): Point -> bool { (p: Point) => true }

  lemma {:induction false} GroupsCount(samples: seq<Row>, key: Row -> PointKey)
    ensures Total(Map(Groups(samples, key), SamplePoint(EVENT_DEF)), Any()) == |samples| as real
    decreases |samples|
  {
    if samples != [] {
      var k := key(samples[0]);
      var first, others := Group(k, Filter(samples, HasKey(key, k))), Filter(samples[1..], LacksKey(key, k));
      SplitCount(samples, key, k);
      GroupsCount(others, key);
      var made, rest := SamplePoint(EVENT_DEF)(first), Map(Groups(others, key), SamplePoint(EVENT_DEF));
      TotalFirst(made, rest, Any());
      assert made.v == |first.members| as real;
      assert Map(Groups(samples, key), SamplePoint(EVENT_DEF)) == [made] + rest;
    }
  }

  function Selected(ms: seq<LabelMatch>, range: Option<int>, ctx: CompileCtx, w: World): seq<Row> {
    Filter(TableRows(w, "events"), SelectsEvents(ms, range, ctx, w))
  }

  /** The values of an event selector's rows add up to the number of events selected. */
  lemma EventsCounted(ms: seq<LabelMatch>, range: Option<int>, ctx: CompileCtx, w: World)
    ensures Sum(Map(Map(EventPoints(ms, range, ctx, w), AsRow()), NumCell("v"))) == |Selected(ms, range, ctx, w)| as real
  {
    var samples, points := Selected(ms, range, ctx, w), EventPoints(ms, range, ctx, w);
    GroupsCount(samples, SampleKey(EVENT_DEF));
    TotalSort(Map(Groups(samples, SampleKey(EVENT_DEF)), SamplePoint(EVENT_DEF)), Earlier(), Any());
    FilterAll(points, Any());
    ValuesOfRows(points);
  }

  /** A filter that keeps as many as a weaker one keeps all that the weaker one does. */
  lemma {:induction false} SameCount<A(!new)>(xs: seq<A>, p: A -> bool, q: A -> bool)
    requires forall x :: x in xs && q(x) ==> p(x)
    ensures |Filter(xs, q)| <= |Filter(xs, p)|
    ensures |Filter(xs, q)| == |Filter(xs, p)| ==> forall x :: x in xs && p(x) ==> q(x)
  {
    if xs != [] {
      assert xs[0] in xs;
      SameCount(xs[1..], p, q);
      assert forall x :: x in xs ==> x == xs[0] || x in xs[1..];
    }
  }

  // ----- event selectors -----

  /** What the query of an expression without conflicts returns: the points of the expression without dropped ranges. */
  lemma EvaluatesNormal(e: Expr, ctx: CompileCtx, w: World)
    requires Compile(e).Ok? && NoConflict(e)
    ensures Evaluate(Compile(e).value.query, Final(e, ctx), w) == Map(Denote(Normal(e), ctx, w), AsRow())
  {
    FinalCovers(e, ctx);
    NoConflictKeepsAll(e, ctx);
    UsesAreBinds(e);
    ReadsBackWhen(e, Final(e, ctx));
    assert Rebind(e, Final(e, ctx)) == Normal(e);
    hide Compile, Denote, Rebind, Normal, Evaluate, Binds, Final;
    LastBindingWins(e, ctx, w);
  }

  /** In a given database an event selector means what was written iff no event selected lies outside its range. */
  lemma EventRangeMeansWhen(ms: seq<LabelMatch>, range: Option<int>, ctx: CompileCtx, w: World)
    requires Compile(Events(ms, range)).Ok? && NoConflict(Events(ms, range))
    ensures Means(Events(ms, range), ctx, w) <==> EventsWithin(ms, range, ctx, w)
  {
    var e := Events(ms, range);
    EvaluatesNormal(e, ctx, w);
    assert Denote(Normal(e), ctx, w) == EventPoints(ms, None, ctx, w) && Denote(e, ctx, w) == EventPoints(ms, range, ctx, w);
    assert RangesIdle(e, ctx, w) <==> EventsWithin(ms, range, ctx, w);
    hide Compile, Evaluate, EventPoints, Map, EventsWithin;
    if EventsWithin(ms, range, ctx, w) {
      PreservedWithoutConflict(e, ctx, w);
    }
    if Means(e, ctx, w) {
      EventsCounted(ms, None, ctx, w);
      EventsCounted(ms, range, ctx, w);
      CountedWithin(ms, range, ctx, w);
    }
  }

  lemma CountedWithin(ms: seq<LabelMatch>, range: Option<int>, ctx: CompileCtx, w: World)
    requires |Selected(ms, None, ctx, w)| == |Selected(ms, range, ctx, w)|
    ensures EventsWithin(ms, range, ctx, w)
  {
    SameCount(TableRows(w, "events"), SelectsEvents(ms, None, ctx, w), SelectsEvents(ms, range, ctx, w));
  }

  /** The range takes in all of the query's window, or there is none. */
  predicate Reaches(range: Option<int>, ctx: CompileCtx) {
    range.None? || ToSecs(ctx) - range.value <= FromSecs(ctx)
  }

  /** An event at the start of the window. */
  function EarlyEvent(b: string, ctx: CompileCtx): Row {
    map["program_id" := Str(ctx.programId), "cluster" := Str(ctx.cluster), "block_time" := Time(FromSecs(ctx)),
        "event_name" := Str(b)]
  }

  lemma EarlyEventSelected(b: string, range: Option<int>, ctx: CompileCtx, w: World)
    requires FromSecs(ctx) <= ToSecs(ctx)
    ensures SelectsEvents([TypeIs(b)], None, ctx, w)(EarlyEvent(b, ctx))
    ensures InRange(EarlyEvent(b, ctx), "block_time", range, ctx) <==> Reaches(range, ctx)
  {
    assert "program_id"[0] == 'p' && "cluster"[0] == 'c' && "block_time"[0] == 'b' && "event_name"[0] == 'e';
  }

  lemma OneType(b: string, range: Option<int>)
    ensures Compile(Events([TypeIs(b)], range)).Ok? && NoConflict(Events([TypeIs(b)], range))
  {
    var ms := [TypeIs(b)];
    assert ms[0] in ms && forall m :: m in ms ==> m == ms[0];
    assert ms[..0] == [] && EventBinds(ms) == [] + [Binding(EventType, Str(b))];
  }

  /** In every database iff there is no range, it reaches back to the start of the window, or the window is empty. */
  lemma EventRangeAlwaysMeansWhen(b: string, range: Option<int>, ctx: CompileCtx)
    ensures Compile(Events([TypeIs(b)], range)).Ok?
    ensures (forall w :: Means(Events([TypeIs(b)], range), ctx, w)) <==> Reaches(range, ctx) || FromSecs(ctx) > ToSecs(ctx)
  {
    var e, w := Events([TypeIs(b)], range), WorldOf("events", [EarlyEvent(b, ctx)]);
    OneType(b, range);
    hide Compile, NoConflict, Means, Denote;
    EventRangeMeansWhen([TypeIs(b)], range, ctx, w);
    if FromSecs(ctx) <= ToSecs(ctx) {
      EarlyEventSelected(b, range, ctx, w);
      assert EarlyEvent(b, ctx) in TableRows(w, "events");
    }
    if Reaches(range, ctx) || FromSecs(ctx) > ToSecs(ctx) {
      forall w ensures Means(e, ctx, w) {
        EventRangeMeansWhen([TypeIs(b)], range, ctx, w);
      }
    }
  }

  // ----- quantiles -----

  function Quantile(q: real, name: string, range: Option<int>): Expr {
    Func("histogram_quantile", [Number(q), Vector(VectorExpr(name, [], range))])
  }

  /** A sample at the start of the window. */
  function EarlySample(def: MetricDef, ctx: CompileCtx): Row {
    map["program_id" := Str(ctx.programId), "cluster" := Str(ctx.cluster), def.timeCol := Time(FromSecs(ctx))]
  }

  lemma TimeColumns(name: string)
    requires MetricRegistry(name).Some?
    ensures MetricRegistry(name).value.timeCol != "program_id" && MetricRegistry(name).value.timeCol != "cluster"
  {
    assert "minute"[0] == 'm' && "block_time"[0] == 'b' && "program_id"[0] == 'p' && "cluster"[0] == 'c';
  }

  lemma EarlySampleSelected(def: MetricDef, range: Option<int>, ctx: CompileCtx, w: World)
    requires FromSecs(ctx) <= ToSecs(ctx) && def.timeCol != "program_id" && def.timeCol != "cluster"
    ensures Selects(def, [], range, ctx, w)(EarlySample(def, ctx)) <==> Reaches(range, ctx)
  {
    assert "program_id"[0] == 'p' && "cluster"[0] == 'c';
  }

  lemma QuantileAcceptedOf(q: real, name: string, range: Option<int>)
    requires Compile(Quantile(q, name, range)).Ok?
    ensures name != EVENT && MetricRegistry(name).Some? && MetricRegistry(name).value.tdigestCol.Some?
  {
    assert !IsRate("histogram_quantile") && Compile(Quantile(q, name, range)) == QuantileNode([Number(q), Vector(VectorExpr(name, [], range))]);
    assert MetricRegistry(EVENT) == None;
    hide MetricRegistry, VectorNode, DigestQuery;
  }

  lemma QuantileKeepsApart(q: real, name: string, range: Option<int>)
    requires name != EVENT
    ensures NoConflict(Quantile(q, name, range))
  {
    var v := VectorExpr(name, [], range);
    assert !IsRate("histogram_quantile");
    assert Binds(Quantile(q, name, range)) == [Binding(Q, Num(q))] + RangeBinds(v);
  }

  lemma QuantileParts(q: real, name: string, range: Option<int>, ctx: CompileCtx, w: World)
    requires name != EVENT && MetricRegistry(name).Some? && MetricRegistry(name).value.tdigestCol.Some?
    ensures var def, e := MetricRegistry(name).value, Quantile(q, name, range);
      && Denote(e, ctx, w) == DigestPoints(def, def.tdigestCol.value, q, [], range, ctx, w)
      && Denote(Normal(e), ctx, w) == DigestPoints(def, def.tdigestCol.value, q, [], None, ctx, w)
      && (RangesIdle(e, ctx, w) <==> SamplesWithin(def, [], range, ctx, w))
  {
    hide MetricRegistry, DigestPoints, SamplesWithin;
    assert !IsRate("histogram_quantile");
    assert Normal(Quantile(q, name, range)) == Quantile(q, name, None);
  }

  /** One sample is one point, if it is selected. */
  lemma OneSample(def: MetricDef, td: string, q: real, range: Option<int>, ctx: CompileCtx)
    requires FromSecs(ctx) <= ToSecs(ctx) && def.timeCol != "program_id" && def.timeCol != "cluster"
    ensures var w := WorldOf(def.table, [EarlySample(def, ctx)]);
      |DigestPoints(def, td, q, [], range, ctx, w)| == if Reaches(range, ctx) then 1 else 0
  {
    var row := EarlySample(def, ctx);
    var w := WorldOf(def.table, [row]);
    EarlySampleSelected(def, range, ctx, w);
    hide EarlySample;
    var samples := Filter([row], Selects(def, [], range, ctx, w));
    assert samples == if Reaches(range, ctx) then [row] else [];
    assert |Groups(samples, SampleKey(def))| == |samples|;
    SortMembers(Map(Groups(samples, SampleKey(def)), DigestPoint(td, q, w)), Earlier());
    hide SampleKey, DigestPoint;
  }

  lemma ReachesAll(def: MetricDef, range: Option<int>, ctx: CompileCtx, w: World)
    requires Reaches(range, ctx) || FromSecs(ctx) > ToSecs(ctx)
    ensures SamplesWithin(def, [], range, ctx, w)
  {
  }

  /** For a quantile of every digest metric: in every database iff the range leaves nothing of the window out. */
  lemma QuantileRangeAlwaysMeansWhen(q: real, name: string, range: Option<int>, ctx: CompileCtx)
    requires Compile(Quantile(q, name, range)).Ok?
    ensures (forall w :: Means(Quantile(q, name, range), ctx, w)) <==> Reaches(range, ctx) || FromSecs(ctx) > ToSecs(ctx)
  {
    var e := Quantile(q, name, range);
    QuantileAcceptedOf(q, name, range);
    QuantileKeepsApart(q, name, range);
    TimeColumns(name);
    var def := MetricRegistry(name).value;
    hide Compile, MetricRegistry, Denote, Quantile, Normal, DigestPoints, Map, RangesIdle, NoConflict, Evaluate, SamplesWithin, TruncDiv;
    if Reaches(range, ctx) || FromSecs(ctx) > ToSecs(ctx) {
      forall w ensures Means(e, ctx, w) {
        ReachesAll(def, range, ctx, w);
        QuantileParts(q, name, range, ctx, w);
        PreservedWithoutConflict(e, ctx, w);
      }
    } else {
      var w := WorldOf(def.table, [EarlySample(def, ctx)]);
      EvaluatesNormal(e, ctx, w);
      QuantileParts(q, name, range, ctx, w);
      OneSample(def, def.tdigestCol.value, q, range, ctx);
      OneSample(def, def.tdigestCol.value, q, None, ctx);
      assert !Means(e, ctx, w);
    }
  }
}
