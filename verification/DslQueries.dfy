/** Each shape of compiled query evaluates to the rows of the points it stands for. */
module DslQueries {
  import opened Lists
  import opened Sql
  import opened Dsl
  import opened DslMeaning
  import opened DslCorrect

  function Itself(): Row -> Row { (r: Row) => r }

  lemma MapItself(rows: seq<Row>)
    ensures Map(rows, Itself()) == rows
  {
  }

  lemma {:induction false} KeepsAll(rows: seq<Row>, P: Params, w: World)
    ensures Filter(rows, Keeps([], P, w)) == rows
  {
    if rows != [] { KeepsAll(rows[1..], P, w); }
  }

  /** Evaluation of a query with a limit, step by step. */
  lemma EvaluateLimited(q: Query, kept: seq<Row>, made: seq<Row>, P: Params, w: World)
    requires q.limit.Some? && GetParam(P, q.limit.value).Int? && 0 <= GetParam(P, q.limit.value).i
    requires kept == Filter(Rows(q.source, P, w), Keeps(q.conds, P, w)) && made == Grouped(q, kept, P, w)
    ensures Evaluate(q, P, w) == Take(Ordered(q.order, made), IntIn(P, q.limit.value))
  {
  }

  /** Evaluation of a query without limit, step by step. */
  lemma EvaluateIs(q: Query, kept: seq<Row>, made: seq<Row>, P: Params, w: World)
    requires q.limit == None
    requires kept == Filter(Rows(q.source, P, w), Keeps(q.conds, P, w)) && made == Grouped(q, kept, P, w)
    ensures Evaluate(q, P, w) == Ordered(q.order, made)
  {
  }

  /** A query that makes the rows of points and orders them by t. */
  lemma EvaluatesSorted(q: Query, kept: seq<Row>, points: seq<Point>, labels: seq<string>, P: Params, w: World)
    requires q.limit == None && q.order == OrderBy("t", false) && Labeled(points, labels)
    requires kept == Filter(Rows(q.source, P, w), Keeps(q.conds, P, w)) && Grouped(q, kept, P, w) == Map(points, AsRow())
    ensures Evaluate(q, P, w) == Map(Sort(points, Earlier()), AsRow())
    ensures Labeled(Sort(points, Earlier()), labels)
  {
    SortRows(points);
    SortLabeled(points, Earlier(), labels);
    hide Map, Sort, Grouped, Keeps, Rows, Filter, Labeled;
    EvaluateIs(q, kept, Map(points, AsRow()), P, w);
  }

  // ----- queries of tables -----

  lemma SampleKeyRow(columns: seq<Column>, def: MetricDef, row: Row, P: Params, w: World)
    requires Clean(LabelNames(def.labels))
    requires Find(columns, "t") == Plain(StartOfMinute(Col(def.timeCol)))
    requires forall l :: l in LabelNames(def.labels) ==>
      ColumnOf(def.labels, l).Some? && Find(columns, l) == Plain(Col(ColumnOf(def.labels, l).value))
    ensures KeyOf(columns, ["t"] + LabelNames(def.labels), row, P, w) == KeyRow()(SampleKey(def)(row))
    ensures SampleKey(def)(row).labels.Keys == LabelSet(LabelNames(def.labels))
  {
    var labels := LabelNames(def.labels);
    var a, b := KeyOf(columns, ["t"] + labels, row, P, w), KeyRow()(SampleKey(def)(row));
    assert EvalScalar(Col(def.timeCol), row, P, w) == Get(row, def.timeCol);
    forall n | n in ["t"] + labels ensures n in b && a[n] == b[n] {
      if n != "t" {
        assert n in labels;
        assert EvalScalar(Col(ColumnOf(def.labels, n).value), row, P, w) == Get(row, ColumnOf(def.labels, n).value);
      }
    }
    assert a.Keys == b.Keys;
  }

  lemma MetricAggregate(value: Agg, rows: seq<Row>, P: Params, w: World)
    requires value.CountMerge? || value.SumMerge? || value.SumOf? || value.AvgOf? || value.CountRows?
    ensures EvalAgg(value, Map(rows, Itself()), P, w) == Num(MetricValue(value, rows))
  {
    MapItself(rows);
  }

  lemma MetricCondsHold(def: MetricDef, v: VectorExpr, row: Row, ctx: CompileCtx, P: Params, w: World)
    requires LabelsKnown(def, v.labels) && HasBase(P, ctx)
    requires Covers(P, RangeBinds(v)) && Covers(P, LabelBinds(v.labels, false))
    ensures AllHold(MetricConds(def, v), row, P, w)
      <==> Selects(def, RebindLabels(v.labels, P, false),
                   if v.rangeS.Some? then Some(IntIn(P, RangeS)) else None, ctx, w)(row)
  {
    var scope, range := ScopeConds(def.timeCol), if v.rangeS.Some? then [RangeCond(def.timeCol)] else [];
    AllHoldAppend(scope + range, LabelConds(def, v.labels, false), row, P, w);
    AllHoldAppend(scope, range, row, P, w);
    ScopeHolds(def.timeCol, row, ctx, P, w);
    LabelsHold(def, v.labels, false, row, P, w);
    if v.rangeS.Some? {
      assert Binding(RangeS, Int(v.rangeS.value)) in RangeBinds(v);
      OneHolds(RangeCond(def.timeCol), row, P, w);
      RangeHolds(def.timeCol, v.rangeS.value, row, ctx, P, w);
    }
  }

  lemma MetricKeys(columns: seq<Column>, def: MetricDef, samples: seq<Row>, P: Params, w: World)
    requires Clean(LabelNames(def.labels))
    requires Find(columns, "t") == Plain(StartOfMinute(Col(def.timeCol)))
    requires forall l :: l in LabelNames(def.labels) ==>
      ColumnOf(def.labels, l).Some? && Find(columns, l) == Plain(Col(ColumnOf(def.labels, l).value))
    ensures KeysAgree(samples, Itself(), SampleKey(def), columns, LabelNames(def.labels), P, w)
    ensures KeysLabeled(samples, SampleKey(def), LabelNames(def.labels))
  {
    hide KeyOf, KeyRow, SampleKey, Find, Clean, LabelSet;
    forall row | row in samples
      ensures KeyOf(columns, ["t"] + LabelNames(def.labels), Itself()(row), P, w) == KeyRow()(SampleKey(def)(row))
      ensures SampleKey(def)(row).labels.Keys == LabelSet(LabelNames(def.labels))
    {
      SampleKeyRow(columns, def, row, P, w);
    }
  }

  lemma MetricMakes(def: MetricDef, samples: seq<Row>, P: Params, w: World)
    requires def.value.CountMerge? || def.value.SumMerge? || def.value.SumOf? || def.value.AvgOf? || def.value.CountRows?
    ensures Makes(samples, Itself(), SampleKey(def), SamplePoint(def), def.value, P, w)
  {
    hide Itself, SampleKey, Groups, Map, EvalAgg, MetricValue;
    forall g | g in Groups(samples, SampleKey(def))
      ensures EvalAgg(def.value, Map(g.members, Itself()), P, w) == Num(SamplePoint(def)(g).v)
    {
      MetricAggregate(def.value, g.members, P, w);
    }
  }

  lemma MetricGroups(def: MetricDef, conds: seq<Cond>, samples: seq<Row>, P: Params, w: World)
    requires DistinctLabels(def.labels) && Clean(LabelNames(def.labels))
    requires def.value.CountMerge? || def.value.SumMerge? || def.value.SumOf? || def.value.AvgOf? || def.value.CountRows?
    ensures var q := MetricQuery(def, conds).query;
      Grouped(q, samples, P, w) == Map(Map(Groups(samples, SampleKey(def)), SamplePoint(def)), AsRow())
    ensures Labeled(Map(Groups(samples, SampleKey(def)), SamplePoint(def)), LabelNames(def.labels))
  {
    var labels, t := LabelNames(def.labels), Plain(StartOfMinute(Col(def.timeCol)));
    var columns := [Column("t", t)] + LabelColumns(def.labels) + [Column("v", Aggregate(def.value))];
    TableSelect(t, "v", Aggregate(def.value), def.labels);
    hide KeysAgree, KeysLabeled, Makes, Map, Groups, SampleKey, SamplePoint, AsRow, Find, Names, Clean, DistinctLabels, Itself;
    MetricKeys(columns, def, samples, P, w);
    MetricMakes(def, samples, P, w);
    MapItself(samples);
    GroupedPoints(samples, Itself(), SampleKey(def), SamplePoint(def), columns, labels, t, def.value, P, w);
  }

  lemma MetricSamples(def: MetricDef, v: VectorExpr, ctx: CompileCtx, P: Params, w: World)
    requires LabelsKnown(def, v.labels) && HasBase(P, ctx)
    requires Covers(P, RangeBinds(v)) && Covers(P, LabelBinds(v.labels, false))
    ensures var ms, range := RebindLabels(v.labels, P, false), if v.rangeS.Some? then Some(IntIn(P, RangeS)) else None;
      var rows := TableRows(w, def.table);
      Filter(rows, Keeps(MetricConds(def, v), P, w)) == Filter(rows, Selects(def, ms, range, ctx, w))
  {
    var ms, range := RebindLabels(v.labels, P, false), if v.rangeS.Some? then Some(IntIn(P, RangeS)) else None;
    var rows := TableRows(w, def.table);
    hide MetricConds, RebindLabels, Filter, Covers, HasBase;
    forall row ensures Keeps(MetricConds(def, v), P, w)(row) == Selects(def, ms, range, ctx, w)(row) {
      MetricCondsHold(def, v, row, ctx, P, w);
    }
    FilterCongruent(rows, Keeps(MetricConds(def, v), P, w), Selects(def, ms, range, ctx, w));
  }

  lemma MetricCorrect(def: MetricDef, v: VectorExpr, ctx: CompileCtx, P: Params, w: World)
    requires MetricRegistry(v.name) == Some(def) && LabelsKnown(def, v.labels) && HasBase(P, ctx)
    requires Covers(P, RangeBinds(v)) && Covers(P, LabelBinds(v.labels, false))
    ensures var points := MetricPoints(def, RebindLabels(v.labels, P, false),
                                       if v.rangeS.Some? then Some(IntIn(P, RangeS)) else None, ctx, w);
      && Evaluate(MetricQuery(def, MetricConds(def, v)).query, P, w) == Map(points, AsRow())
      && Labeled(points, LabelNames(def.labels))
  {
    var ms, range := RebindLabels(v.labels, P, false), if v.rangeS.Some? then Some(IntIn(P, RangeS)) else None;
    var conds := MetricConds(def, v);
    var samples := Filter(TableRows(w, def.table), Selects(def, ms, range, ctx, w));
    RegistryFacts(v.name);
    MetricSamples(def, v, ctx, P, w);
    MetricGroups(def, conds, samples, P, w);
    hide MetricRegistry, MetricConds, RebindLabels, Filter, Groups, Selects, AsRow, Covers, HasBase, Map, Clean;
    var points := Map(Groups(samples, SampleKey(def)), SamplePoint(def));
    EvaluatesSorted(MetricQuery(def, conds).query, samples, points, LabelNames(def.labels), P, w);
  }

  lemma EventGroups(samples: seq<Row>, conds: seq<Cond>, P: Params, w: World)
    ensures var q := EventQuery(conds).query;
      Grouped(q, samples, P, w) == Map(Map(Groups(samples, SampleKey(EVENT_DEF)), SamplePoint(EVENT_DEF)), AsRow())
    ensures Labeled(Map(Groups(samples, SampleKey(EVENT_DEF)), SamplePoint(EVENT_DEF)), ["event_name"])
  {
    OneLabel("event_name", "event_name");
    MetricGroups(EVENT_DEF, conds, samples, P, w);
    hide Groups, Map, SampleKey, SamplePoint;
    assert LabelColumns(EVENT_DEF.labels) == [Column("event_name", Plain(Col("event_name")))];
    assert EventQuery(conds).query.columns == MetricQuery(EVENT_DEF, conds).query.columns;
    assert ["t", "event_name"] == ["t"] + LabelNames(EVENT_DEF.labels);
  }

  lemma EventCorrect(ms: seq<LabelMatch>, ctx: CompileCtx, P: Params, w: World)
    requires HasBase(P, ctx) && Covers(P, EventBinds(ms))
    requires forall m :: m in ms && m.key == "type" ==> m.op.Eq?
    ensures var points := EventPoints(RebindEvents(ms, P), None, ctx, w);
      && Evaluate(EventQuery(EventConds(ms)).query, P, w) == Map(points, AsRow())
      && Labeled(points, ["event_name"])
  {
    var q, rows, selects := EventQuery(EventConds(ms)).query, TableRows(w, "events"), SelectsEvents(RebindEvents(ms, P), None, ctx, w);
    forall row | row in rows ensures Keeps(q.conds, P, w)(row) == selects(row) {
      EventsHold(ms, row, ctx, P, w);
    }
    FilterCongruent(rows, Keeps(q.conds, P, w), selects);
    var samples := Filter(rows, selects);
    EventGroups(samples, EventConds(ms), P, w);
    var points := Map(Groups(samples, SampleKey(EVENT_DEF)), SamplePoint(EVENT_DEF));
    EvaluatesSorted(q, samples, points, ["event_name"], P, w);
  }

  /** What acceptance says about a metric selector. */
  lemma MetricAccepted(v: VectorExpr, P: Params)
    requires v.name != EVENT && VectorNode(v).Ok? && Covers(P, VectorBinds(v))
    ensures MetricRegistry(v.name).Some?
    ensures var def := MetricRegistry(v.name).value;
      && LabelsKnown(def, v.labels) && Covers(P, RangeBinds(v)) && Covers(P, LabelBinds(v.labels, false))
      && VectorNode(v).value == MetricQuery(def, MetricConds(def, v))
      && VectorNode(v).value.labels == VectorLabels(v) == LabelNames(def.labels)
  {
    hide MetricRegistry, MetricConds;
    assert forall b :: b in RangeBinds(v) || b in LabelBinds(v.labels, false) ==> b in VectorBinds(v);
  }

  lemma VectorCorrect(v: VectorExpr, ctx: CompileCtx, P: Params, w: World)
    requires VectorNode(v).Ok? && HasBase(P, ctx) && Covers(P, VectorBinds(v))
    ensures var points := VectorPoints(RebindVector(v, P), ctx, w);
      && Evaluate(VectorNode(v).value.query, P, w) == Map(points, AsRow())
      && VectorNode(v).value.labels == VectorLabels(v) && Clean(VectorLabels(v))
      && Labeled(points, VectorLabels(v))
  {
    if v.name == EVENT {
      OneLabel("event_name", "event_name");
      EventCorrect(v.labels, ctx, P, w);
    } else {
      var def := MetricRegistry(v.name).value;
      MetricAccepted(v, P);
      RegistryFacts(v.name);
      hide MetricRegistry, VectorNode, MetricQuery, MetricConds, MetricPoints, Covers, HasBase, Clean, Map, AsRow, Labeled, VectorLabels;
      MetricCorrect(def, v, ctx, P, w);
    }
  }

  // ----- queries of queries -----

  function RateDenom(perSecond: bool): Scalar { if perSecond then Greatest(ParamRef(StepS), Literal(1.0)) else Literal(1.0) }

  lemma RateValue(p: Point, perSecond: bool, ctx: CompileCtx, P: Params, w: World)
    requires HasBase(P, ctx)
    ensures EvalScalar(Arith(Div, Col("v"), RateDenom(perSecond)), AsRow()(p), P, w)
            == Num(Scaled(if perSecond then Max(StepSecs(ctx), 1.0) else 1.0, w)(p).v)
  {
    var row := AsRow()(p);
    assert EvalScalar(ParamRef(StepS), row, P, w) == Num(StepSecs(ctx));
    assert EvalScalar(RateDenom(perSecond), row, P, w) == Num(if perSecond then Max(StepSecs(ctx), 1.0) else 1.0);
    assert EvalScalar(Col("v"), row, P, w) == Num(p.v);
  }

  lemma RateRow(p: Point, labels: seq<string>, perSecond: bool, ctx: CompileCtx, columns: seq<Column>, P: Params, w: World)
    requires HasBase(P, ctx) && Clean(labels) && p.labels.Keys == LabelSet(labels)
    requires columns == [Column("t", Plain(Col("t"))), Column("v", Plain(Arith(Div, Col("v"), RateDenom(perSecond))))]
                        + PassColumns(labels)
    ensures Project(columns, AsRow()(p), P, w)
            == AsRow()(Scaled(if perSecond then Max(StepSecs(ctx), 1.0) else 1.0, w)(p))
  {
    var value, quotient := if perSecond then Max(StepSecs(ctx), 1.0) else 1.0, Arith(Div, Col("v"), RateDenom(perSecond));
    var row := AsRow()(p);
    PassSelect(Plain(Col("t")), Plain(quotient), labels);
    RateValue(p, perSecond, ctx, P, w);
    hide HasBase, GetParam, ArithNum, PassColumns, RateDenom;
    var a, b := Project(columns, row, P, w), AsRow()(Scaled(value, w)(p));
    forall n | n in a ensures n in b && a[n] == b[n] {
      if n != "v" {
        hide Scaled, Max, StepSecs;
        assert EvalScalar(Col(n), row, P, w) == Get(row, n);
      }
    }
    assert a.Keys == b.Keys;
  }

  lemma RateCorrect(inner: SqlNode, points: seq<Point>, perSecond: bool, ctx: CompileCtx, P: Params, w: World)
    requires HasBase(P, ctx) && Clean(inner.labels) && Labeled(points, inner.labels)
    requires Evaluate(inner.query, P, w) == Map(points, AsRow())
    ensures var out := RatePoints(points, if perSecond then Max(StepSecs(ctx), 1.0) else 1.0, w);
      && Evaluate(RateQuery(inner, perSecond).query, P, w) == Map(out, AsRow())
      && Labeled(out, inner.labels)
  {
    var q, denom := RateQuery(inner, perSecond).query, if perSecond then Max(StepSecs(ctx), 1.0) else 1.0;
    var rows, made := Map(points, AsRow()), Map(points, Scaled(denom, w));
    KeepsAll(rows, P, w);
    forall p | p in points ensures Projects(q.columns, P, w)(AsRow()(p)) == AsRow()(Scaled(denom, w)(p)) {
      RateRow(p, inner.labels, perSecond, ctx, q.columns, P, w);
    }
    MapSquare(points, AsRow(), Projects(q.columns, P, w), Scaled(denom, w), AsRow());
    ScaledLabeled(points, denom, inner.labels, w);
    hide HasBase, AsRow, Scaled, Map, Filter, Labeled, Clean, PassColumns;
    EvaluatesSorted(q, rows, made, inner.labels, P, w);
  }

  lemma ScaledLabeled(points: seq<Point>, denom: real, labels: seq<string>, w: World)
    requires Labeled(points, labels)
    ensures Labeled(Map(points, Scaled(denom, w)), labels)
  {
    var made := Map(points, Scaled(denom, w));
    forall p | p in made ensures p.labels.Keys == LabelSet(labels) {
      var i :| 0 <= i < |points| && made[i] == p;
      assert points[i] in points;
    }
  }

  lemma AggKeyRow(p: Point, labels: seq<string>, inner: seq<string>, columns: seq<Column>, P: Params, w: World)
    requires Clean(labels) && Clean(inner) && p.labels.Keys == LabelSet(inner)
    requires forall l :: l in labels ==> l in inner && Find(columns, l) == Plain(Col(l))
    requires Find(columns, "t") == Plain(Col("t"))
    ensures KeyOf(columns, ["t"] + labels, AsRow()(p), P, w) == KeyRow()(KeyAt(labels)(p))
    ensures KeyAt(labels)(p).labels.Keys == LabelSet(labels)
  {
    var row := AsRow()(p);
    var a, b := KeyOf(columns, ["t"] + labels, row, P, w), KeyRow()(KeyAt(labels)(p));
    forall n | n in ["t"] + labels ensures n in b && a[n] == b[n] {
      assert EvalScalar(Col(n), row, P, w) == Get(row, n);
    }
    assert a.Keys == b.Keys;
  }

  lemma ValuesOfRows(points: seq<Point>)
    ensures Map(Map(points, AsRow()), NumCell("v")) == Map(points, ValueOf())
  {
  }

  lemma AggKeys(labels: seq<string>, inner: seq<string>, points: seq<Point>, columns: seq<Column>, P: Params, w: World)
    requires Clean(inner) && Clean(labels) && Labeled(points, inner)
    requires forall l :: l in labels ==> l in inner && Find(columns, l) == Plain(Col(l))
    requires Find(columns, "t") == Plain(Col("t"))
    ensures KeysAgree(points, AsRow(), KeyAt(labels), columns, labels, P, w)
    ensures KeysLabeled(points, KeyAt(labels), labels)
  {
    hide KeyOf, KeyRow, KeyAt, AsRow, Clean, LabelSet;
    forall p | p in points
      ensures KeyOf(columns, ["t"] + labels, AsRow()(p), P, w) == KeyRow()(KeyAt(labels)(p))
      ensures KeyAt(labels)(p).labels.Keys == LabelSet(labels)
    {
      AggKeyRow(p, labels, inner, columns, P, w);
    }
  }

  lemma AggMakes(op: AggOp, labels: seq<string>, points: seq<Point>, P: Params, w: World)
    ensures Makes(points, AsRow(), KeyAt(labels), AggPoint(op), AggOf(op), P, w)
  {
    hide AsRow, KeyAt, Groups, Map;
    forall g | g in Groups(points, KeyAt(labels))
      ensures EvalAgg(AggOf(op), Map(g.members, AsRow()), P, w) == Num(AggPoint(op)(g).v)
    {
      ValuesOfRows(g.members);
    }
  }

  lemma AggGroups(op: AggOp, labels: seq<string>, inner: seq<string>, points: seq<Point>, columns: seq<Column>,
                  P: Params, w: World)
    requires Clean(inner) && Clean(labels) && Labeled(points, inner) && forall l :: l in labels ==> l in inner
    requires columns == [Column("t", Plain(Col("t"))), Column("v", Aggregate(AggOf(op)))] + PassColumns(labels)
    ensures Map(Groups(Map(points, AsRow()), KeyedBy(columns, ["t"] + labels, P, w)), Summarizes(columns, P, w))
            == Map(Map(Groups(points, KeyAt(labels)), AggPoint(op)), AsRow())
    ensures Labeled(Map(Groups(points, KeyAt(labels)), AggPoint(op)), labels)
  {
    PassSelect(Plain(Col("t")), Aggregate(AggOf(op)), labels);
    hide KeysAgree, KeysLabeled, Makes, AsRow, KeyAt, Map, Groups, AggPoint, KeyedBy, Summarizes, Clean, Labeled, AggOf;
    AggKeys(labels, inner, points, columns, P, w);
    AggMakes(op, labels, points, P, w);
    GroupedPoints(points, AsRow(), KeyAt(labels), AggPoint(op), columns, labels, Plain(Col("t")), AggOf(op), P, w);
  }

  lemma AggregationParts(op: AggOp, grouping: Option<Regroup>, inner: SqlNode)
    requires AggregationNode(op, grouping, inner).Ok? && Clean(inner.labels)
    ensures var node, labels := AggregationNode(op, grouping, inner).value, GroupLabels(grouping, inner.labels);
      && node.labels == labels && Clean(labels) && (forall l :: l in labels ==> l in inner.labels)
      && node.query == Query([Column("t", Plain(Col("t"))), Column("v", Aggregate(AggOf(op)))] + PassColumns(labels),
                             SubQuery(inner.query), [], GroupBy(["t"] + labels), OrderBy("t", false), None)
  {
  }

  lemma AggregationCorrect(op: AggOp, grouping: Option<Regroup>, inner: SqlNode, points: seq<Point>, P: Params, w: World)
    requires AggregationNode(op, grouping, inner).Ok?
    requires Clean(inner.labels) && Labeled(points, inner.labels)
    requires Evaluate(inner.query, P, w) == Map(points, AsRow())
    ensures var labels := GroupLabels(grouping, inner.labels);
      var out := AggPoints(op, labels, points);
      && Evaluate(AggregationNode(op, grouping, inner).value.query, P, w) == Map(out, AsRow())
      && AggregationNode(op, grouping, inner).value.labels == labels && Clean(labels)
      && Labeled(out, labels)
  {
    var labels := GroupLabels(grouping, inner.labels);
    var q, rows := AggregationNode(op, grouping, inner).value.query, Map(points, AsRow());
    AggregationParts(op, grouping, inner);
    hide AggregationNode, GroupLabels, AsRow, KeyAt, Map, Groups, AggPoint, Summarizes, KeyedBy, Labeled, Filter, Clean, AggOf;
    KeepsAll(rows, P, w);
    AggGroups(op, labels, inner.labels, points, q.columns, P, w);
    EvaluatesSorted(q, rows, Map(Groups(points, KeyAt(labels)), AggPoint(op)), labels, P, w);
  }

  // ----- quantiles of digests -----

  lemma DigestRow(columns: seq<Column>, def: MetricDef, td: string, row: Row, P: Params, w: World)
    requires Clean(LabelNames(def.labels)) && td !in LabelNames(def.labels) && td != "t" && td != "v"
    requires Names(columns) == {"t", td} + LabelSet(LabelNames(def.labels))
    requires Find(columns, "t") == Plain(StartOfMinute(Col(def.timeCol))) && Find(columns, td) == Plain(Col(td))
    requires forall l :: l in LabelNames(def.labels) ==>
      ColumnOf(def.labels, l).Some? && Find(columns, l) == Plain(Col(ColumnOf(def.labels, l).value))
    ensures var r := Project(columns, row, P, w);
      && Get(r, "t") == SampleKey(def)(row).t && Get(r, td) == Get(row, td)
      && forall l :: l in LabelNames(def.labels) ==> Get(r, l) == SampleKey(def)(row).labels[l]
  {
    assert EvalScalar(Col(def.timeCol), row, P, w) == Get(row, def.timeCol);
    assert EvalScalar(Col(td), row, P, w) == Get(row, td);
    forall l | l in LabelNames(def.labels)
      ensures Get(Project(columns, row, P, w), l) == SampleKey(def)(row).labels[l]
    {
      var c := ColumnOf(def.labels, l).value;
      assert EvalScalar(Col(c), row, P, w) == Get(row, c);
    }
  }

  lemma DigestKeyRow(columns: seq<Column>, labels: seq<string>, r: Row, k: PointKey, P: Params, w: World)
    requires Clean(labels) && k.labels.Keys == LabelSet(labels)
    requires Find(columns, "t") == Plain(Col("t")) && forall l :: l in labels ==> Find(columns, l) == Plain(Col(l))
    requires Get(r, "t") == k.t && forall l :: l in labels ==> Get(r, l) == k.labels[l]
    ensures KeyOf(columns, ["t"] + labels, r, P, w) == KeyRow()(k)
  {
    var a, b := KeyOf(columns, ["t"] + labels, r, P, w), KeyRow()(k);
    forall n | n in ["t"] + labels ensures n in b && a[n] == b[n] {
      assert EvalScalar(Col(n), r, P, w) == Get(r, n);
    }
    assert a.Keys == b.Keys;
  }

  function DigestBase(def: MetricDef, td: string): seq<Column> {
    [Column("t", Plain(StartOfMinute(Col(def.timeCol))))] + LabelColumns(def.labels) + [Column(td, Plain(Col(td)))]
  }

  lemma DigestKeys(def: MetricDef, td: string, samples: seq<Row>, columns: seq<Column>, P: Params, w: World)
    requires DistinctLabels(def.labels) && Clean(LabelNames(def.labels))
    requires td !in LabelNames(def.labels) && td != "t" && td != "v"
    requires Find(columns, "t") == Plain(Col("t"))
    requires forall l :: l in LabelNames(def.labels) ==> Find(columns, l) == Plain(Col(l))
    ensures var f := Projects(DigestBase(def, td), P, w);
      && KeysAgree(samples, f, SampleKey(def), columns, LabelNames(def.labels), P, w)
      && KeysLabeled(samples, SampleKey(def), LabelNames(def.labels))
  {
    var labels, base, f := LabelNames(def.labels), DigestBase(def, td), Projects(DigestBase(def, td), P, w);
    TableSelect(Plain(StartOfMinute(Col(def.timeCol))), td, Plain(Col(td)), def.labels);
    hide KeyOf, KeyRow, Project, Find, Names, DistinctLabels;
    forall row ensures KeyOf(columns, ["t"] + labels, f(row), P, w) == KeyRow()(SampleKey(def)(row))
      ensures SampleKey(def)(row).labels.Keys == LabelSet(labels)
    {
      DigestRow(base, def, td, row, P, w);
      DigestKeyRow(columns, labels, f(row), SampleKey(def)(row), P, w);
    }
  }

  lemma DigestCells(def: MetricDef, td: string, rows: seq<Row>, P: Params, w: World)
    requires DistinctLabels(def.labels) && Clean(LabelNames(def.labels))
    requires td !in LabelNames(def.labels) && td != "t" && td != "v"
    ensures Map(Map(rows, Projects(DigestBase(def, td), P, w)), CellOf(td)) == Map(rows, CellOf(td))
  {
    var base, f := DigestBase(def, td), Projects(DigestBase(def, td), P, w);
    TableSelect(Plain(StartOfMinute(Col(def.timeCol))), td, Plain(Col(td)), def.labels);
    hide Project, Find, Names, SampleKey, SampleLabels, DistinctLabels, Clean, LabelNames, Map;
    forall row ensures CellOf(td)(f(row)) == CellOf(td)(row) {
      DigestRow(base, def, td, row, P, w);
    }
    MapTwice(rows, f, CellOf(td), CellOf(td));
  }

  lemma DigestMakes(def: MetricDef, td: string, samples: seq<Row>, P: Params, w: World)
    requires DistinctLabels(def.labels) && Clean(LabelNames(def.labels))
    requires td !in LabelNames(def.labels) && td != "t" && td != "v"
    ensures Makes(samples, Projects(DigestBase(def, td), P, w), SampleKey(def),
                  DigestPoint(td, NumOf(GetParam(P, Q)), w), QuantileMerge(Q, td), P, w)
  {
    hide Groups, Map, SampleKey, Projects, DigestBase, DistinctLabels, Clean, LabelNames, CellOf;
    forall g | g in Groups(samples, SampleKey(def))
      ensures EvalAgg(QuantileMerge(Q, td), Map(g.members, Projects(DigestBase(def, td), P, w)), P, w)
           == Num(DigestPoint(td, NumOf(GetParam(P, Q)), w)(g).v)
    {
      DigestCells(def, td, g.members, P, w);
    }
  }

  lemma DigestGroups(def: MetricDef, td: string, samples: seq<Row>, P: Params, w: World)
    requires DistinctLabels(def.labels) && Clean(LabelNames(def.labels))
    requires td !in LabelNames(def.labels) && td != "t" && td != "v"
    ensures var rows := Map(samples, Projects(DigestBase(def, td), P, w));
      var points := Map(Groups(samples, SampleKey(def)), DigestPoint(td, NumOf(GetParam(P, Q)), w));
      && Grouped(DigestQuery(def, td, []).query, rows, P, w) == Map(points, AsRow())
      && Labeled(points, LabelNames(def.labels))
  {
    var labels, agg := LabelNames(def.labels), QuantileMerge(Q, td);
    var columns := DigestQuery(def, td, []).query.columns;
    PassSelect(Plain(Col("t")), Aggregate(agg), labels);
    hide KeysAgree, KeysLabeled, Makes, Project, Map, Groups, SampleKey, DigestPoint, Clean, DistinctLabels;
    DigestKeys(def, td, samples, columns, P, w);
    DigestMakes(def, td, samples, P, w);
    GroupedPoints(samples, Projects(DigestBase(def, td), P, w), SampleKey(def), DigestPoint(td, NumOf(GetParam(P, Q)), w),
                  columns, labels, Plain(Col("t")), agg, P, w);
  }

  lemma DigestCorrect(def: MetricDef, td: string, ms: seq<LabelMatch>, ctx: CompileCtx, P: Params, w: World)
    requires DistinctLabels(def.labels) && Clean(LabelNames(def.labels)) && LabelsKnown(def, ms)
    requires td !in LabelNames(def.labels) && td != "t" && td != "v"
    requires HasBase(P, ctx) && Covers(P, LabelBinds(ms, true))
    ensures var points := DigestPoints(def, td, NumOf(GetParam(P, Q)), RebindLabels(ms, P, true), None, ctx, w);
      && Evaluate(DigestQuery(def, td, ScopeConds(def.timeCol) + LabelConds(def, ms, true)).query, P, w)
         == Map(points, AsRow())
      && Labeled(points, LabelNames(def.labels))
  {
    var conds := ScopeConds(def.timeCol) + LabelConds(def, ms, true);
    var q, rows := DigestQuery(def, td, conds).query, TableRows(w, def.table);
    var selects := Selects(def, RebindLabels(ms, P, true), None, ctx, w);
    forall row | row in rows ensures Keeps(conds, P, w)(row) == selects(row) {
      AllHoldAppend(ScopeConds(def.timeCol), LabelConds(def, ms, true), row, P, w);
      ScopeHolds(def.timeCol, row, ctx, P, w);
      LabelsHold(def, ms, true, row, P, w);
    }
    FilterCongruent(rows, Keeps(conds, P, w), selects);
    var samples := Filter(rows, selects);
    var base := q.source.q;
    assert base.columns == DigestBase(def, td);
    var baseRows := Map(samples, Projects(base.columns, P, w));
    EvaluateIs(base, samples, baseRows, P, w);
    KeepsAll(baseRows, P, w);
    DigestGroups(def, td, samples, P, w);
    var points := Map(Groups(samples, SampleKey(def)), DigestPoint(td, NumOf(GetParam(P, Q)), w));
    assert Grouped(q, baseRows, P, w) == Grouped(DigestQuery(def, td, []).query, baseRows, P, w);
    EvaluatesSorted(q, baseRows, points, LabelNames(def.labels), P, w);
  }

  // ----- top and bottom -----

  /** A total before it gets its time. */
  function RankedRow(): Point -> Row { (p: Point) => p.labels["v" := Num(p.v)] }

  function Identity(): map<string, Value> -> Row { (m: map<string, Value>) => m }

  lemma RankedSelect(labels: seq<string>)
    requires Clean(labels)
    ensures var columns := [Column("v", Aggregate(SumOf("v")))] + PassColumns(labels);
      && Names(columns) == {"v"} + LabelSet(labels) && Find(columns, "v") == Aggregate(SumOf("v"))
      && forall l :: l in labels ==> Find(columns, l) == Plain(Col(l))
  {
    var pass := PassColumns(labels);
    var columns := [Column("v", Aggregate(SumOf("v")))] + pass;
    assert forall c :: c in pass ==> c.name in labels && c.item == Plain(Col(c.name));
    FindIn(columns, columns[0]);
    forall l | l in labels ensures Find(columns, l) == Plain(Col(l)) && l in Names(columns) {
      var i :| 0 <= i < |labels| && labels[i] == l;
      assert pass[i] in pass && Column(l, Plain(Col(l))) in columns;
      FindIn(columns, Column(l, Plain(Col(l))));
    }
  }

  lemma RankKeyRow(p: Point, labels: seq<string>, columns: seq<Column>, P: Params, w: World)
    requires Clean(labels) && p.labels.Keys == LabelSet(labels)
    requires forall l :: l in labels ==> Find(columns, l) == Plain(Col(l))
    ensures KeyOf(columns, labels, AsRow()(p), P, w) == Restrict(p.labels, labels)
  {
    var row := AsRow()(p);
    var a := KeyOf(columns, labels, row, P, w);
    forall n | n in labels ensures a[n] == p.labels[n] {
      assert EvalScalar(Col(n), row, P, w) == Get(row, n);
    }
  }

  lemma RankedSummary(labels: seq<string>, columns: seq<Column>, key: map<string, Value>, members: seq<Point>,
                      now: Value, P: Params, w: World)
    requires Clean(labels) && key.Keys == LabelSet(labels)
    requires Names(columns) == {"v"} + LabelSet(labels) && Find(columns, "v") == Aggregate(SumOf("v"))
    requires forall l :: l in labels ==> Find(columns, l) == Plain(Col(l))
    ensures Summary(columns, Group(key, Map(members, AsRow())), P, w)
            == RankedRow()(TotalPoint(now)(Group(key, members)))
  {
    var rows, total := Map(members, AsRow()), Sum(Map(members, ValueOf()));
    ValuesOfRows(members);
    assert EvalAgg(SumOf("v"), rows, P, w) == Num(total);
    hide EvalAgg, Map, Sum;
    var a, b := Summary(columns, Group(key, rows), P, w), RankedRow()(TotalPoint(now)(Group(key, members)));
    assert b == key["v" := Num(total)];
    forall n | n in a ensures n in b && a[n] == b[n] {
    }
    assert a.Keys == b.Keys;
  }

  lemma GroupTotals(labels: seq<string>, points: seq<Point>, columns: seq<Column>, now: Value, P: Params, w: World)
    requires Clean(labels) && Labeled(points, labels)
    requires Names(columns) == {"v"} + LabelSet(labels) && Find(columns, "v") == Aggregate(SumOf("v"))
    requires forall l :: l in labels ==> Find(columns, l) == Plain(Col(l))
    ensures var totals := Map(Groups(points, LabelsAt(labels)), TotalPoint(now));
      && Map(Groups(Map(points, AsRow()), KeyedBy(columns, labels, P, w)), Summarizes(columns, P, w))
         == Map(totals, RankedRow())
      && Labeled(totals, labels) && forall p :: p in totals ==> p.t == now
  {
    GroupTotalsLabeled(labels, points, now);
    hide KeyOf, Clean, Find, Names, AsRow, RankedRow, Sum, Summary, TotalPoint, Restrict, LabelSet, Map, Groups;
    forall p | p in points
      ensures KeyOf(columns, labels, AsRow()(p), P, w) == Identity()(LabelsAt(labels)(p))
    {
      RankKeyRow(p, labels, columns, P, w);
    }
    forall g | g in Groups(points, LabelsAt(labels))
      ensures Summary(columns, Group(Identity()(g.key), Map(g.members, AsRow())), P, w) == RankedRow()(TotalPoint(now)(g))
    {
      RankedSummary(labels, columns, g.key, g.members, now, P, w);
    }
    GroupedCommutes(points, AsRow(), LabelsAt(labels), Identity(), TotalPoint(now), RankedRow(), columns, labels, P, w);
  }

  lemma GroupTotalsLabeled(labels: seq<string>, points: seq<Point>, now: Value)
    ensures var totals := Map(Groups(points, LabelsAt(labels)), TotalPoint(now));
      Labeled(totals, labels) && forall p :: p in totals ==> p.t == now
    ensures forall g :: g in Groups(points, LabelsAt(labels)) ==> g.key.Keys == LabelSet(labels)
  {
    hide Sum;
    forall g | g in Groups(points, LabelsAt(labels)) ensures g.key.Keys == LabelSet(labels) {
      KeyOfGroup(points, LabelsAt(labels), g);
    }
  }

  lemma TotalsCorrect(inner: SqlNode, points: seq<Point>, top: bool, now: Value, P: Params, w: World)
    requires Clean(inner.labels) && Labeled(points, inner.labels)
    ensures var totals := Totals(inner.labels, now, points);
      && Grouped(RankedQuery(inner, top), Map(points, AsRow()), P, w) == Map(totals, RankedRow())
      && Labeled(totals, inner.labels) && forall p :: p in totals ==> p.t == now
  {
    var labels, q := inner.labels, RankedQuery(inner, top);
    RankedSelect(labels);
    if labels == [] {
      RankedSummary(labels, q.columns, map[], points, now, P, w);
    } else {
      GroupTotals(labels, points, q.columns, now, P, w);
    }
  }

  lemma TopRow(p: Point, labels: seq<string>, columns: seq<Column>, ctx: CompileCtx, P: Params, w: World)
    requires HasBase(P, ctx) && Clean(labels) && p.labels.Keys == LabelSet(labels) && p.t == Time(ToSecs(ctx))
    requires columns == [Column("t", Plain(ToDateTime(ParamRef(ToS)))), Column("v", Plain(Col("v")))] + PassColumns(labels)
    ensures Project(columns, RankedRow()(p), P, w) == AsRow()(p)
  {
    var row := RankedRow()(p);
    PassSelect(Plain(ToDateTime(ParamRef(ToS))), Plain(Col("v")), labels);
    assert EvalScalar(ParamRef(ToS), row, P, w) == Int(ToSecs(ctx));
    assert EvalScalar(ToDateTime(ParamRef(ToS)), row, P, w) == Time(ToSecs(ctx));
    hide HasBase, GetParam, PassColumns, ToSecs, TruncDiv;
    var a, b := Project(columns, row, P, w), AsRow()(p);
    forall n | n in a ensures n in b && a[n] == b[n] {
      assert n != "t" ==> EvalScalar(Col(n), row, P, w) == Get(row, n);
      hide EvalScalar;
    }
    assert a.Keys == b.Keys;
  }

  lemma RankedCorrect(inner: SqlNode, points: seq<Point>, top: bool, now: Value, P: Params, w: World)
    requires Clean(inner.labels) && Labeled(points, inner.labels)
    requires Evaluate(inner.query, P, w) == Map(points, AsRow())
    requires GetParam(P, K).Int? && 0 <= GetParam(P, K).i
    ensures var out := TopPoints(top, IntIn(P, K), inner.labels, now, points);
      && Evaluate(RankedQuery(inner, top), P, w) == Map(out, RankedRow())
      && Labeled(out, inner.labels) && forall p :: p in out ==> p.t == now
  {
    var q, rows, totals := RankedQuery(inner, top), Map(points, AsRow()), Totals(inner.labels, now, points);
    KeepsAll(rows, P, w);
    TotalsCorrect(inner, points, top, now, P, w);
    SortRanked(totals, top);
    var sorted, k: nat := Sort(totals, RankedBefore(top)), IntIn(P, K);
    hide Sort, Map, Totals, Grouped, RankedBefore, RankedRow, AsRow, Filter, GetParam, Clean;
    SortMembers(totals, RankedBefore(top));
    MapTake(sorted, k, RankedRow());
    EvaluateLimited(q, rows, Map(totals, RankedRow()), P, w);
    assert forall p :: p in Take(sorted, k) ==> p in sorted;
  }

  lemma SortRanked(totals: seq<Point>, top: bool)
    ensures Sort(Map(totals, RankedRow()), Precedes("v", top)) == Map(Sort(totals, RankedBefore(top)), RankedRow())
  {
    MapSort(totals, RankedRow(), RankedBefore(top), Precedes("v", top));
  }

  lemma TopCorrect(inner: SqlNode, points: seq<Point>, top: bool, ctx: CompileCtx, P: Params, w: World)
    requires HasBase(P, ctx) && Clean(inner.labels) && Labeled(points, inner.labels)
    requires Evaluate(inner.query, P, w) == Map(points, AsRow())
    requires GetParam(P, K).Int? && 0 <= GetParam(P, K).i
    ensures var out := TopPoints(top, IntIn(P, K), inner.labels, Time(ToSecs(ctx)), points);
      && Evaluate(TopQuery(inner, top).query, P, w) == Map(out, AsRow())
      && Labeled(out, inner.labels)
  {
    var q, now := TopQuery(inner, top).query, Time(ToSecs(ctx));
    RankedCorrect(inner, points, top, now, P, w);
    var out := TopPoints(top, IntIn(P, K), inner.labels, now, points);
    var rows := Map(out, RankedRow());
    KeepsAll(rows, P, w);
    forall p | p in out ensures Projects(q.columns, P, w)(RankedRow()(p)) == AsRow()(p) {
      TopRow(p, inner.labels, q.columns, ctx, P, w);
    }
    MapTwice(out, RankedRow(), Projects(q.columns, P, w), AsRow());
    EvaluateIs(q, rows, Map(out, AsRow()), P, w);
  }

  // ----- joins and numbers -----

  lemma QualifiedGet(prefix: string, row: Row, c: string)
    ensures Get(Qualified(prefix, row), prefix + c) == Get(row, c)
    ensures forall k :: k in Qualified(prefix, row) ==> |k| >= |prefix| && k[..|prefix|] == prefix
  {
    assert (prefix + c)[|prefix|..] == c;
    if prefix + c in Qualified(prefix, row) {
      var d :| d in row && prefix + d == prefix + c;
      assert (prefix + d)[|prefix|..] == d;
    }
  }

  lemma PairedGet(l: Row, r: Row)
    ensures var row := Paired(l)(r);
      Get(row, "l.t") == Get(l, "t") && Get(row, "l.v") == Get(l, "v") && Get(row, "r.v") == Get(r, "v")
  {
    var a, b := Qualified("l.", l), Qualified("r.", r);
    assert "l." + "t" == "l.t" && "l." + "v" == "l.v" && "r." + "v" == "r.v";
    QualifiedGet("l.", l, "t");
    QualifiedGet("l.", l, "v");
    QualifiedGet("r.", r, "v");
    assert "l.t"[..2] == "l." && "l.v"[..2] == "l." && "l."[0] != "r."[0];
    assert "l.t" !in b && "l.v" !in b;
  }

  function JoinColumns(op: ArithOp): seq<Column> {
    [Column("t", Plain(Col("l.t"))), Column("v", Plain(Arith(op, Col("l.v"), Col("r.v"))))]
  }

  lemma JoinSelect(op: ArithOp)
    ensures Selects3(JoinColumns(op), [], Plain(Col("l.t")), Plain(Arith(op, Col("l.v"), Col("r.v"))))
  {
    assert JoinColumns(op) + PassColumns([]) == JoinColumns(op);
    PassSelect(Plain(Col("l.t")), Plain(Arith(op, Col("l.v"), Col("r.v"))), []);
  }

  lemma BinaryRow(l: Point, r: Point, op: ArithOp, P: Params, w: World)
    ensures Project(JoinColumns(op), Paired(AsRow()(l))(AsRow()(r)), P, w) == AsRow()(Combined(l, op, w)(r))
  {
    var row := Paired(AsRow()(l))(AsRow()(r));
    PairedGet(AsRow()(l), AsRow()(r));
    JoinSelect(op);
    hide Paired, JoinColumns, Find, Names;
    assert EvalScalar(Col("l.t"), row, P, w) == l.t;
    assert EvalScalar(Col("l.v"), row, P, w) == Num(l.v) && EvalScalar(Col("r.v"), row, P, w) == Num(r.v);
    var a, b := Project(JoinColumns(op), row, P, w), AsRow()(Combined(l, op, w)(r));
    assert LabelSet([]) == {};
    assert a.Keys == b.Keys == {"t", "v"};
    assert a["t"] == b["t"] && a["v"] == b["v"];
  }

  /** The rows that one row on the left joins with. */
  lemma JoinOne(l: Point, rs: seq<Point>, op: ArithOp, P: Params, w: World)
    ensures Map(JoinsWith(Map(rs, AsRow()), "t")(AsRow()(l)), Projects(JoinColumns(op), P, w))
            == Map(PairsWith(rs, op, w)(l), AsRow())
  {
    var matched, row := Filter(rs, SameTime(l)), AsRow()(l);
    MapFilter(rs, AsRow(), SameTime(l), SameOn(row, "t"));
    hide Filter, SameTime, SameOn, JoinColumns, Map, Project;
    forall r ensures Projects(JoinColumns(op), P, w)(Paired(row)(AsRow()(r))) == AsRow()(Combined(l, op, w)(r)) {
      BinaryRow(l, r, op, P, w);
    }
    hide Paired, AsRow, Combined;
    JoinedMaps(matched, AsRow(), Paired(row), Projects(JoinColumns(op), P, w), Combined(l, op, w), AsRow());
  }

  lemma JoinedMaps(points: seq<Point>, f: Point -> Row, g: Row -> Row, h: Row -> Row, make: Point -> Point, view: Point -> Row)
    requires forall p :: h(g(f(p))) == view(make(p))
    ensures Map(Map(Map(points, f), g), h) == Map(Map(points, make), view)
  {
  }

  lemma {:induction false} JoinCorrect(ls: seq<Point>, rs: seq<Point>, op: ArithOp, P: Params, w: World)
    ensures var joined := Flatten(Map(Map(ls, AsRow()), JoinsWith(Map(rs, AsRow()), "t")));
      Map(joined, Projects(JoinColumns(op), P, w)) == Map(Flatten(Map(ls, PairsWith(rs, op, w))), AsRow())
  {
    if ls != [] {
      var l, joins, pairs := ls[0], JoinsWith(Map(rs, AsRow()), "t"), PairsWith(rs, op, w);
      JoinCorrect(ls[1..], rs, op, P, w);
      JoinOne(l, rs, op, P, w);
      assert Map(Map(ls, AsRow()), joins)[1..] == Map(Map(ls[1..], AsRow()), joins);
      assert Map(ls, pairs)[1..] == Map(ls[1..], pairs);
      MapAppend(joins(AsRow()(l)), Flatten(Map(Map(ls[1..], AsRow()), joins)), Projects(JoinColumns(op), P, w));
      MapAppend(pairs(l), Flatten(Map(ls[1..], pairs)), AsRow());
      hide JoinColumns, AsRow, JoinsWith, PairsWith, Projects;
    }
  }

  lemma {:induction false} PairsLabeled(ls: seq<Point>, rs: seq<Point>, op: ArithOp, w: World)
    ensures Labeled(Flatten(Map(ls, PairsWith(rs, op, w))), [])
  {
    if ls != [] {
      PairsLabeled(ls[1..], rs, op, w);
      assert Map(ls, PairsWith(rs, op, w))[1..] == Map(ls[1..], PairsWith(rs, op, w));
    }
  }

  lemma BinaryCorrect(op: ArithOp, l: SqlNode, r: SqlNode, ls: seq<Point>, rs: seq<Point>, P: Params, w: World)
    requires Evaluate(l.query, P, w) == Map(ls, AsRow()) && Evaluate(r.query, P, w) == Map(rs, AsRow())
    ensures var out := BinaryPoints(ls, op, rs, w);
      && Evaluate(BinaryQuery(op, l, r).query, P, w) == Map(out, AsRow())
      && Labeled(out, [])
  {
    var q, made := BinaryQuery(op, l, r).query, Flatten(Map(ls, PairsWith(rs, op, w)));
    var rows := Rows(q.source, P, w);
    KeepsAll(rows, P, w);
    JoinCorrect(ls, rs, op, P, w);
    hide AsRow, JoinsWith, PairsWith, Projects, Flatten, Map, Filter, Sort;
    assert rows == Flatten(Map(Map(ls, AsRow()), JoinsWith(Map(rs, AsRow()), "t"))) && q.columns == JoinColumns(op);
    EvaluateIs(q, rows, Map(made, AsRow()), P, w);
    SortRows(made);
    PairsLabeled(ls, rs, op, w);
    SortLabeled(made, Earlier(), []);
  }

  lemma NumberCorrect(x: real, ctx: CompileCtx, P: Params, w: World)
    requires HasBase(P, ctx)
    ensures var out := [Point(Time(ToSecs(ctx)), map[], x)];
      Evaluate(NumberQuery(x).query, P, w) == Map(out, AsRow()) && Labeled(out, [])
  {
    var q, p, empty: Row := NumberQuery(x).query, Point(Time(ToSecs(ctx)), map[], x), map[];
    KeepsAll([empty], P, w);
    assert q.columns + PassColumns([]) == q.columns;
    PassSelect(q.columns[0].item, q.columns[1].item, []);
    assert EvalScalar(ParamRef(ToS), empty, P, w) == Int(ToSecs(ctx));
    assert EvalScalar(ToDateTime(ParamRef(ToS)), empty, P, w) == Time(ToSecs(ctx));
    assert Project(q.columns, empty, P, w) == AsRow()(p);
    EvaluateIs(q, [empty], [AsRow()(p)], P, w);
  }
}
