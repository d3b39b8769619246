/** What selectors and quantiles return, row by row, in terms of the stored samples. */
module DslSelects {
  import opened Lists
  import opened Sql
  import opened Dsl
  import opened DslMeaning
  import opened DslCorrect
  import opened DslQueries
  import opened DslTheorem
  import opened DslAlgebra
  import opened DslRows
  import opened DslCombines
  import opened DslRanges

  // ----- which samples are wanted -----

  /** The sample is of the program and cluster, in the window, and no older than the range. */
  ghost predicate Inside(x: Row, timeCol: string, range: Option<int>, ctx: CompileCtx) {
    && Get(x, "program_id") == Str(ctx.programId) && Get(x, "cluster") == Str(ctx.cluster)
    && Get(x, timeCol).Time?
    && Seconds(ctx.fromMs) <= Get(x, timeCol).secs <= Seconds(ctx.toMs)
    && (range.Some? ==> Get(x, timeCol).secs >= Seconds(ctx.toMs) - range.value)
  }

  ghost predicate Suits(cell: Value, m: LabelMatch, w: World) {
    && (m.op == Eq ==> cell == Str(m.value))
    && (m.op == Ne ==> cell != Str(m.value))
    && (m.op == RegexEq ==> cell.Str? && w.matches(cell.text, m.value))
    && (m.op == RegexNe ==> cell.Str? ==> !w.matches(cell.text, m.value))
  }

  /** Every matcher suits the column that stands for its label. */
  ghost predicate LabelsSuit(x: Row, labels: seq<(string, string)>, ms: seq<LabelMatch>, w: World) {
    forall m, c :: m in ms && (m.key, c) in labels ==> Suits(Get(x, c), m, w)
  }

  ghost predicate PayloadSuits(x: Row, m: LabelMatch, w: World) {
    var payload := Get(x, "payload_json");
    Suits(if payload.Str? then Str(w.extract(payload.text, m.key)) else Null, m, w)
  }

  /** An event is of every type asked for, and its payload suits the other matchers. */
  ghost predicate EventSuits(x: Row, ms: seq<LabelMatch>, w: World) {
    forall m :: m in ms ==> if m.key == "type" then Get(x, "event_name") == Str(m.value) else PayloadSuits(x, m, w)
  }

  // ----- the rows made of them -----

  /** The sample is of the row's minute and labels. */
  function InCell(row: Row, timeCol: string, labels: seq<(string, string)>): Row -> bool {
    (x: Row) =>
      && Get(x, timeCol).Time? && Get(row, "t") == Time(Get(x, timeCol).secs - Get(x, timeCol).secs % 60)
      && forall lc :: lc in labels ==> Get(row, lc.0) == Get(x, lc.1)
  }

  /** A row for every minute and set of labels that occurs among the samples, with the value of its samples. */
  ghost predicate PerMinute(rows: seq<Row>, samples: seq<Row>, timeCol: string, labels: seq<(string, string)>,
                            isValue: (seq<Row>, real) -> bool) {
    && (forall row: Row :: row in rows ==> IsMinute(row, samples, timeCol, labels, isValue))
    && Apart(rows, ["t"] + LabelNames(labels))
    && (forall x :: x in samples ==> exists row: Row :: row in rows && InCell(row, timeCol, labels)(x))
  }

  ghost predicate IsMinute(row: Row, samples: seq<Row>, timeCol: string, labels: seq<(string, string)>,
                           isValue: (seq<Row>, real) -> bool) {
    var mine := Filter(samples, InCell(row, timeCol, labels));
    row.Keys == {"t", "v"} + LabelSet(LabelNames(labels)) && row["v"].Num? && mine != [] && isValue(mine, row["v"].num)
  }

  /** The value of a metric: the sum of its column, its average, or the number of samples. */
  function MetricHolds(value: Agg): (seq<Row>, real) -> bool {
    (xs: seq<Row>, v: real) =>
      match value
      case CountMerge(c) => v == Sum(Map(xs, NumCell(c)))
      case SumMerge(c) => v == Sum(Map(xs, NumCell(c)))
      case SumOf(c) => v == Sum(Map(xs, NumCell(c)))
      case AvgOf(c) => IsAverage(v, Map(xs, NumCell(c)))
      case CountRows => v == |xs| as real
      case _ => false
  }

  function QuantileHolds(td: string, q: real, w: World): (seq<Row>, real) -> bool {
    (xs: seq<Row>, v: real) => v == w.quantile(q, Map(xs, CellOf(td)))
  }

  lemma ColumnIs(labels: seq<(string, string)>, l: string, c: string)
    requires DistinctLabels(labels) && (l, c) in labels
    ensures ColumnOf(labels, l) == Some(c) && l in LabelNames(labels)
  {
    var i :| 0 <= i < |labels| && labels[i] == (l, c);
    ColumnAt(labels, i);
    assert LabelNames(labels)[i] == l;
  }

  lemma NameHasColumn(labels: seq<(string, string)>, l: string)
    requires DistinctLabels(labels) && l in LabelNames(labels)
    ensures ColumnOf(labels, l).Some? && (l, ColumnOf(labels, l).value) in labels
  {
    var i :| 0 <= i < |labels| && LabelNames(labels)[i] == l;
    ColumnAt(labels, i);
    assert labels[i] in labels;
  }

  lemma CellsOf(labels: seq<(string, string)>, p: Point, x: Row)
    requires DistinctLabels(labels) && Clean(LabelNames(labels)) && p.labels.Keys == LabelSet(LabelNames(labels))
    ensures SampleLabels(labels, x).Keys == p.labels.Keys
    ensures forall lc :: lc in labels ==>
      lc.0 in p.labels && Get(AsRow()(p), lc.0) == p.labels[lc.0] && SampleLabels(labels, x)[lc.0] == Get(x, lc.1)
    ensures forall l :: l in p.labels ==> HasColumn(labels, l)
  {
    forall lc | lc in labels
      ensures lc.0 in p.labels && Get(AsRow()(p), lc.0) == p.labels[lc.0] && SampleLabels(labels, x)[lc.0] == Get(x, lc.1)
    {
      ColumnIs(labels, lc.0, lc.1);
      RowCell(p, lc.0);
    }
    forall l | l in p.labels ensures HasColumn(labels, l) {
      NameHasColumn(labels, l);
    }
  }

  ghost predicate HasColumn(labels: seq<(string, string)>, l: string) { exists lc :: lc in labels && lc.0 == l }

  /** A sample is of a point's row iff it has the point's key. */
  lemma CellIs(def: MetricDef, p: Point, x: Row)
    requires DistinctLabels(def.labels) && Clean(LabelNames(def.labels))
    requires p.labels.Keys == LabelSet(LabelNames(def.labels)) && Get(x, def.timeCol).Time?
    ensures InCell(AsRow()(p), def.timeCol, def.labels)(x) == HasKey(SampleKey(def), OwnKey()(p))(x)
  {
    var labels, k := def.labels, SampleLabels(def.labels, x);
    CellsOf(labels, p, x);
    RowCell(p, "t");
    hide AsRow, LabelNames, Clean, DistinctLabels, SampleLabels, LabelSet;
    SameCells(labels, p.labels, k, AsRow()(p), x);
    hide HasColumn;
  }

  lemma SameCells(labels: seq<(string, string)>, a: map<string, Value>, k: map<string, Value>, row: Row, x: Row)
    requires a.Keys == k.Keys && forall l :: l in a ==> HasColumn(labels, l)
    requires forall lc :: lc in labels ==> lc.0 in a && Get(row, lc.0) == a[lc.0] && k[lc.0] == Get(x, lc.1)
    ensures (forall lc :: lc in labels ==> Get(row, lc.0) == Get(x, lc.1)) <==> k == a
  {
    if forall lc :: lc in labels ==> Get(row, lc.0) == Get(x, lc.1) {
      forall l | l in k ensures k[l] == a[l] {
        assert HasColumn(labels, l);
        var lc :| lc in labels && lc.0 == l;
      }
    }
  }

  /** Points made of the groups of samples of a minute and labels are the rows per minute. */
  lemma SamplesPerMinute(def: MetricDef, samples: seq<Row>, make: Group<PointKey, Row> -> Point, isValue: (seq<Row>, real) -> bool)
    requires DistinctLabels(def.labels) && Clean(LabelNames(def.labels))
    requires forall x :: x in samples ==> Get(x, def.timeCol).Time?
    requires forall g :: PointHolds(make, isValue, g)
    requires Labeled(Sort(Map(Groups(samples, SampleKey(def)), make), Earlier()), LabelNames(def.labels))
    ensures PerMinute(Map(Sort(Map(Groups(samples, SampleKey(def)), make), Earlier()), AsRow()), samples, def.timeCol, def.labels, isValue)
  {
    var out := Sort(Map(Groups(samples, SampleKey(def)), make), Earlier());
    forall g ensures make(g).t == g.key.t && make(g).labels == g.key.labels {
      assert PointHolds(make, isValue, g);
    }
    GroupsAre(samples, SampleKey(def), make);
    hide Sort, Groups, SampleKey, IsMinute, OneEach, Clean, Labeled, DistinctLabels;
    forall row: Row | row in Map(out, AsRow()) ensures IsMinute(row, samples, def.timeCol, def.labels, isValue) {
      MapMember(out, AsRow(), row);
      var p :| p in out && AsRow()(p) == row;
      LabeledPoint(out, LabelNames(def.labels), p);
      assert PointHolds(make, isValue, Group(OwnKey()(p), Filter(samples, HasKey(SampleKey(def), OwnKey()(p)))));
      MinuteOf(def, samples, make, isValue, p);
    }
    PointsApart(out, LabelNames(def.labels));
    forall x | x in samples ensures exists row: Row :: row in Map(out, AsRow()) && InCell(row, def.timeCol, def.labels)(x) {
      var p :| p in out && OwnKey()(p) == SampleKey(def)(x);
      LabeledPoint(out, LabelNames(def.labels), p);
      CellIs(def, p, x);
      MapMember(out, AsRow(), AsRow()(p));
      assert AsRow()(p) in Map(out, AsRow());
    }
  }

  lemma LabeledPoint(out: seq<Point>, ls: seq<string>, p: Point)
    requires Labeled(out, ls) && p in out
    ensures p.labels.Keys == LabelSet(ls)
  {
  }

  lemma MinuteOf(def: MetricDef, samples: seq<Row>, make: Group<PointKey, Row> -> Point, isValue: (seq<Row>, real) -> bool, p: Point)
    requires DistinctLabels(def.labels) && Clean(LabelNames(def.labels)) && p.labels.Keys == LabelSet(LabelNames(def.labels))
    requires forall x :: x in samples ==> Get(x, def.timeCol).Time?
    requires var mine := Filter(samples, HasKey(SampleKey(def), OwnKey()(p)));
      mine != [] && p == make(Group(OwnKey()(p), mine)) && isValue(mine, make(Group(OwnKey()(p), mine)).v)
    ensures IsMinute(AsRow()(p), samples, def.timeCol, def.labels, isValue)
  {
    var row := AsRow()(p);
    forall x | x in samples ensures InCell(row, def.timeCol, def.labels)(x) == HasKey(SampleKey(def), OwnKey()(p))(x) {
      CellIs(def, p, x);
    }
    hide InCell, SampleKey;
    FilterCongruent(samples, InCell(row, def.timeCol, def.labels), HasKey(SampleKey(def), OwnKey()(p)));
    RowCell(p, "v");
    assert row.Keys == {"t", "v"} + p.labels.Keys;
  }

  // ----- metrics -----

  ghost predicate NamedBy(bs: seq<Binding>, td: bool, n: nat) {
    forall b :: b in bs ==> exists i :: 0 <= i < n && b.name == LabelParam(td, i)
  }

  /** The bindings of label matchers have a name each. */
  lemma {:induction false} LabelBindsApart(ms: seq<LabelMatch>, td: bool)
    ensures NamedBy(LabelBinds(ms, td), td, |ms|)
    ensures forall b, c :: b in LabelBinds(ms, td) && c in LabelBinds(ms, td) && b.name == c.name ==> b.value == c.value
  {
    if ms != [] {
      var n := |ms| - 1;
      LabelBindsApart(ms[..n], td);
      var init := LabelBinds(ms[..n], td);
      assert forall b :: b in LabelBinds(ms, td) <==> b in init || b == Binding(LabelParam(td, n), Str(ms[n].value));
      assert forall i :: 0 <= i < n ==> LabelParam(td, i) != LabelParam(td, n);
    }
  }

  /** No name has two values. */
  ghost predicate Consistent(bs: seq<Binding>) {
    forall b, c :: b in bs && c in bs && b.name == c.name ==> b.value == c.value
  }

  lemma ConsistentAppend(a: seq<Binding>, b: seq<Binding>)
    requires Consistent(a) && Consistent(b) && forall x, y :: x in a && y in b ==> x.name != y.name
    ensures Consistent(a + b)
  {
    assert forall x :: x in a + b <==> x in a || x in b;
  }

  lemma VectorApart(v: VectorExpr)
    requires v.name != EVENT
    ensures NoConflict(Vector(v)) && Consistent(VectorBinds(v))
    ensures forall b :: b in VectorBinds(v) ==> b.name == RangeS || b.name.Label?
  {
    LabelBindsApart(v.labels, false);
    var labels := LabelBinds(v.labels, false);
    assert forall b :: b in labels ==> b.name.Label?;
    hide LabelBinds;
    ConsistentAppend(RangeBinds(v), labels);
    assert forall b :: b in VectorBinds(v) <==> b in RangeBinds(v) || b in labels;
  }

  lemma LabelsPassWhen(def: MetricDef, ms: seq<LabelMatch>, x: Row, w: World)
    requires DistinctLabels(def.labels) && LabelsKnown(def, ms)
    ensures LabelsPass(def, ms, x, w) <==> LabelsSuit(x, def.labels, ms, w)
  {
    forall i | 0 <= i < |ms|
      ensures var c := ColumnOf(def.labels, ms[i].key);
        c.Some? && (Passes(ms[i].op, LabelCell(def, ms[i].key, x), ms[i].value, w) <==> Suits(Get(x, c.value), ms[i], w))
    {
      assert ms[i] in ms;
    }
    forall m, c | m in ms && (m.key, c) in def.labels ensures ColumnOf(def.labels, m.key) == Some(c) {
      ColumnIs(def.labels, m.key, c);
    }
    forall m | m in ms ensures (m.key, ColumnOf(def.labels, m.key).value) in def.labels {
      ColumnBack(def.labels, m.key);
    }
    hide ColumnOf, Passes, Suits;
    if LabelsSuit(x, def.labels, ms, w) {
      forall i | 0 <= i < |ms| ensures Passes(ms[i].op, LabelCell(def, ms[i].key, x), ms[i].value, w) {
        assert ms[i] in ms;
      }
    }
  }

  lemma {:induction false} ColumnBack(labels: seq<(string, string)>, l: string)
    requires ColumnOf(labels, l).Some?
    ensures (l, ColumnOf(labels, l).value) in labels
  {
    if labels[0].0 != l { ColumnBack(labels[1..], l); }
  }

  lemma MetricWants(def: MetricDef, ms: seq<LabelMatch>, range: Option<int>, ctx: CompileCtx, w: World, x: Row)
    requires DistinctLabels(def.labels) && LabelsKnown(def, ms)
    ensures Selects(def, ms, range, ctx, w)(x) <==> Inside(x, def.timeCol, range, ctx) && LabelsSuit(x, def.labels, ms, w)
  {
    LabelsPassWhen(def, ms, x, w);
    hide LabelsPass, LabelsSuit;
  }

  function StoredIn(w: World, table: string): seq<Row> { if table in w.tables then w.tables[table] else [] }

  /** The stored samples that a metric selector wants. */
  ghost function MetricSamples(def: MetricDef, v: VectorExpr, range: Option<int>, ctx: CompileCtx, w: World): seq<Row> {
    Filter(StoredIn(w, def.table), x => Inside(x, def.timeCol, range, ctx) && LabelsSuit(x, def.labels, v.labels, w))
  }

  predicate PointHolds(make: Group<PointKey, Row> -> Point, isValue: (seq<Row>, real) -> bool, g: Group<PointKey, Row>) {
    make(g).t == g.key.t && make(g).labels == g.key.labels && (g.members != [] ==> isValue(g.members, make(g).v))
  }

  lemma SampleHolds(def: MetricDef, g: Group<PointKey, Row>)
    requires def.value.CountMerge? || def.value.SumMerge? || def.value.SumOf? || def.value.AvgOf? || def.value.CountRows?
    ensures PointHolds(SamplePoint(def), MetricHolds(def.value), g)
  {
    if g.members != [] { ValueHolds(def.value, g.members); }
    hide MetricHolds, MetricValue;
  }

  lemma ValueHolds(value: Agg, xs: seq<Row>)
    requires value.CountMerge? || value.SumMerge? || value.SumOf? || value.AvgOf? || value.CountRows?
    requires xs != []
    ensures MetricHolds(value)(xs, MetricValue(value, xs))
  {
    hide IsAverage, Average, Sum;
    if value.AvgOf? { AverageIs(Map(xs, NumCell(value.col))); }
  }

  lemma MetricSamplesAre(def: MetricDef, v: VectorExpr, range: Option<int>, ctx: CompileCtx, w: World)
    requires DistinctLabels(def.labels) && LabelsKnown(def, v.labels)
    ensures MetricSamples(def, v, range, ctx, w) == Filter(TableRows(w, def.table), Selects(def, v.labels, range, ctx, w))
    ensures forall x :: x in MetricSamples(def, v, range, ctx, w) ==> Get(x, def.timeCol).Time?
  {
    var wanted := x => Inside(x, def.timeCol, range, ctx) && LabelsSuit(x, def.labels, v.labels, w);
    forall x ensures wanted(x) == Selects(def, v.labels, range, ctx, w)(x) {
      MetricWants(def, v.labels, range, ctx, w, x);
    }
    hide LabelsSuit, Selects;
    FilterCongruent(TableRows(w, def.table), wanted, Selects(def, v.labels, range, ctx, w));
    assert StoredIn(w, def.table) == TableRows(w, def.table);
  }

  /**
  A metric selector returns a row for every minute and set of labels that occurs among the samples wanted,
  with the sum or the average of the metric's column over them.
  */
  lemma MetricRows(v: VectorExpr, ctx: CompileCtx, w: World)
    requires v.name != EVENT && Compile(Vector(v)).Ok?
    ensures MetricRegistry(v.name).Some?
    ensures var def := MetricRegistry(v.name).value;
      && Compile(Vector(v)).value.labels == LabelNames(def.labels)
      && PerMinute(Evaluate(Compile(Vector(v)).value.query, Final(Vector(v), ctx), w),
                   MetricSamples(def, v, v.rangeS, ctx, w), def.timeCol, def.labels, MetricHolds(def.value))
  {
    var e, def := Vector(v), MetricRegistry(v.name).value;
    MetricVector(v, ctx, w);
    RegistryFacts(v.name);
    PointsOf(e, ctx, w);
    hide Compile, Evaluate, Final, Denote, MetricRegistry, VectorNode, Clean, Labeled, DistinctLabels, LabelsKnown;
    MetricSamplesAre(def, v, v.rangeS, ctx, w);
    var samples := MetricSamples(def, v, v.rangeS, ctx, w);
    assert MetricPoints(def, v.labels, v.rangeS, ctx, w) == Sort(Map(Groups(samples, SampleKey(def)), SamplePoint(def)), Earlier());
    MetricLabeled(def, v, ctx, w);
    hide MetricSamples, MetricPoints, Groups, Sort, SampleKey, SamplePoint, MetricHolds, PerMinute;
    forall g ensures PointHolds(SamplePoint(def), MetricHolds(def.value), g) {
      SampleHolds(def, g);
    }
    SamplesPerMinute(def, samples, SamplePoint(def), MetricHolds(def.value));
  }

  /** A metric selector has no conflicts and drops nothing, so that its query means it. */
  lemma MetricVector(v: VectorExpr, ctx: CompileCtx, w: World)
    requires v.name != EVENT && Compile(Vector(v)).Ok?
    ensures MetricRegistry(v.name).Some?
    ensures var def := MetricRegistry(v.name).value;
      && LabelsKnown(def, v.labels) && LabelsOf(Vector(v)) == LabelNames(def.labels)
      && Evaluate(Compile(Vector(v)).value.query, Final(Vector(v), ctx), w) == Map(MetricPoints(def, v.labels, v.rangeS, ctx, w), AsRow())
  {
    VectorApart(v);
    assert RangesIdle(Vector(v), ctx, w);
    PreservedWithoutConflict(Vector(v), ctx, w);
    hide MetricRegistry, MetricPoints, Evaluate, MetricConds, MetricQuery;
  }

  lemma MetricLabeled(def: MetricDef, v: VectorExpr, ctx: CompileCtx, w: World)
    ensures Labeled(MetricPoints(def, v.labels, v.rangeS, ctx, w), LabelNames(def.labels))
  {
    var samples := Filter(TableRows(w, def.table), Selects(def, v.labels, v.rangeS, ctx, w));
    SampleLabeled(def, samples, SamplePoint(def));
  }

  lemma SampleLabeled(def: MetricDef, samples: seq<Row>, make: Group<PointKey, Row> -> Point)
    requires forall g :: make(g).labels == g.key.labels
    ensures Labeled(Sort(Map(Groups(samples, SampleKey(def)), make), Earlier()), LabelNames(def.labels))
  {
    var gs := Groups(samples, SampleKey(def));
    var made := Map(gs, make);
    SortMembers(made, Earlier());
    forall p | p in made ensures p.labels.Keys == LabelSet(LabelNames(def.labels)) {
      MapMember(gs, make, p);
      var g :| g in gs && make(g) == p;
      KeyOfGroup(samples, SampleKey(def), g);
      var x :| x in samples && SampleKey(def)(x) == g.key;
      assert SampleLabels(def.labels, x).Keys == LabelSet(LabelNames(def.labels));
    }
    hide Sort;
  }

  // ----- events -----

  const EVENT_LABELS := [("event_name", "event_name")]

  /** The stored events that an event selector wants. */
  ghost function EventSamples(ms: seq<LabelMatch>, ctx: CompileCtx, w: World): seq<Row> {
    Filter(StoredIn(w, "events"), x => Inside(x, "block_time", None, ctx) && EventSuits(x, ms, w))
  }

  lemma EventSuitsWhen(ms: seq<LabelMatch>, x: Row, w: World)
    ensures EventSuits(x, ms, w) <==> forall i :: 0 <= i < |ms| ==> EventPasses(ms[i], x, w)
  {
    forall m ensures EventPasses(m, x, w) <==> if m.key == "type" then Get(x, "event_name") == Str(m.value) else PayloadSuits(x, m, w) {
    }
    hide EventPasses, PayloadSuits;
    if EventSuits(x, ms, w) {
      forall i | 0 <= i < |ms| ensures EventPasses(ms[i], x, w) {
        assert ms[i] in ms;
      }
    }
  }

  lemma EventSamplesAre(ms: seq<LabelMatch>, ctx: CompileCtx, w: World)
    ensures EventSamples(ms, ctx, w) == Filter(TableRows(w, "events"), SelectsEvents(ms, None, ctx, w))
    ensures forall x :: x in EventSamples(ms, ctx, w) ==> Get(x, "block_time").Time?
  {
    var wanted := x => Inside(x, "block_time", None, ctx) && EventSuits(x, ms, w);
    forall x ensures wanted(x) == SelectsEvents(ms, None, ctx, w)(x) {
      EventSuitsWhen(ms, x, w);
    }
    hide EventSuits, SelectsEvents;
    FilterCongruent(TableRows(w, "events"), wanted, SelectsEvents(ms, None, ctx, w));
    assert StoredIn(w, "events") == TableRows(w, "events");
  }

  /**
  An event selector without conflicts returns a row for every minute and event name that occurs among the events
  wanted, with their number; its range plays no part.
  */
  lemma EventRows(ms: seq<LabelMatch>, range: Option<int>, ctx: CompileCtx, w: World)
    requires Compile(Events(ms, range)).Ok? && NoConflict(Events(ms, range))
    ensures Compile(Events(ms, range)).value.labels == ["event_name"]
    ensures PerMinute(Evaluate(Compile(Events(ms, range)).value.query, Final(Events(ms, range), ctx), w),
                      EventSamples(ms, ctx, w), "block_time", EVENT_LABELS, MetricHolds(CountRows))
  {
    EventPlan(ms, range, ctx, w);
    hide Compile, Evaluate, Final, Denote, Normal, NoConflict, EventPoints, PerMinute, MetricHolds;
    EvaluatesNormal(Events(ms, range), ctx, w);
    EventPointsCount(ms, ctx, w);
  }

  lemma EventPlan(ms: seq<LabelMatch>, range: Option<int>, ctx: CompileCtx, w: World)
    requires Compile(Events(ms, range)).Ok?
    ensures Compile(Events(ms, range)).value.labels == ["event_name"]
    ensures Denote(Normal(Events(ms, range)), ctx, w) == EventPoints(ms, None, ctx, w)
  {
    hide EventPoints, EventConds;
  }

  lemma EventPointsCount(ms: seq<LabelMatch>, ctx: CompileCtx, w: World)
    ensures PerMinute(Map(EventPoints(ms, None, ctx, w), AsRow()), EventSamples(ms, ctx, w), "block_time", EVENT_LABELS, MetricHolds(CountRows))
  {
    OneLabel("event_name", "event_name");
    assert EVENT_DEF.labels == EVENT_LABELS && EVENT_DEF.timeCol == "block_time" && EVENT_DEF.value == CountRows;
    hide Clean, DistinctLabels;
    EventSamplesAre(ms, ctx, w);
    var samples := EventSamples(ms, ctx, w);
    assert EventPoints(ms, None, ctx, w) == Sort(Map(Groups(samples, SampleKey(EVENT_DEF)), SamplePoint(EVENT_DEF)), Earlier());
    SampleLabeled(EVENT_DEF, samples, SamplePoint(EVENT_DEF));
    hide EventSamples, EventPoints, Groups, Sort, SampleKey, SamplePoint, MetricHolds, PerMinute, Labeled;
    forall g ensures PointHolds(SamplePoint(EVENT_DEF), MetricHolds(CountRows), g) {
      SampleHolds(EVENT_DEF, g);
    }
    SamplesPerMinute(EVENT_DEF, samples, SamplePoint(EVENT_DEF), MetricHolds(CountRows));
  }

  // ----- quantiles -----

  function QuantileOf(q: real, v: VectorExpr): Expr { Func("histogram_quantile", [Number(q), Vector(v)]) }

  lemma QuantileFacts(q: real, v: VectorExpr)
    requires Compile(QuantileOf(q, v)).Ok?
    ensures v.name != EVENT && MetricRegistry(v.name).Some? && MetricRegistry(v.name).value.tdigestCol.Some?
    ensures LabelsKnown(MetricRegistry(v.name).value, v.labels)
    ensures Compile(QuantileOf(q, v)).value.labels == LabelNames(MetricRegistry(v.name).value.labels)
  {
    assert !IsRate("histogram_quantile") && Compile(QuantileOf(q, v)) == QuantileNode([Number(q), Vector(v)]);
    assert MetricRegistry(EVENT) == None;
    hide MetricRegistry, VectorNode, LabelsKnown, LabelConds;
  }

  lemma QuantileApart(q: real, v: VectorExpr)
    requires v.name != EVENT
    ensures NoConflict(QuantileOf(q, v))
  {
    var level, own, digest := [Binding(Q, Num(q))], VectorBinds(v), LabelBinds(v.labels, true);
    VectorApart(v);
    LabelBindsApart(v.labels, true);
    assert !IsRate("histogram_quantile");
    assert Binds(QuantileOf(q, v)) == level + own + digest;
    assert forall b :: b in digest ==> b.name.TdLabel?;
    hide Binds, LabelBinds, VectorBinds;
    ConsistentAppend(level, own);
    assert forall b :: b in level + own <==> b in level || b in own;
    ConsistentAppend(level + own, digest);
  }

  lemma DigestHolds(td: string, q: real, w: World, g: Group<PointKey, Row>)
    ensures PointHolds(DigestPoint(td, q, w), QuantileHolds(td, q, w), g)
  {
  }

  /**
  A quantile returns a row for every minute and set of labels that occurs among the samples wanted, with the
  database's quantile of their digests at the level written; its range plays no part.
  */
  lemma QuantileRows(q: real, v: VectorExpr, ctx: CompileCtx, w: World)
    requires Compile(QuantileOf(q, v)).Ok?
    ensures MetricRegistry(v.name).Some? && MetricRegistry(v.name).value.tdigestCol.Some?
    ensures var def := MetricRegistry(v.name).value;
      && Compile(QuantileOf(q, v)).value.labels == LabelNames(def.labels)
      && PerMinute(Evaluate(Compile(QuantileOf(q, v)).value.query, Final(QuantileOf(q, v), ctx), w),
                   MetricSamples(def, v, None, ctx, w), def.timeCol, def.labels, QuantileHolds(def.tdigestCol.value, q, w))
  {
    var e := QuantileOf(q, v);
    QuantileFacts(q, v);
    QuantileApart(q, v);
    RegistryFacts(v.name);
    EvaluatesNormal(e, ctx, w);
    var def := MetricRegistry(v.name).value;
    var td := def.tdigestCol.value;
    QuantileDenotes(q, v, ctx, w);
    hide Compile, Evaluate, Final, Denote, Normal, NoConflict, Clean, DistinctLabels, MetricRegistry, QuantileOf, LabelsKnown;
    MetricSamplesAre(def, v, None, ctx, w);
    var samples := MetricSamples(def, v, None, ctx, w);
    assert DigestPoints(def, td, q, v.labels, None, ctx, w) == Sort(Map(Groups(samples, SampleKey(def)), DigestPoint(td, q, w)), Earlier());
    SampleLabeled(def, samples, DigestPoint(td, q, w));
    hide MetricSamples, DigestPoints, Groups, Sort, SampleKey, DigestPoint, QuantileHolds, PerMinute, Labeled;
    forall g ensures PointHolds(DigestPoint(td, q, w), QuantileHolds(td, q, w), g) {
      DigestHolds(td, q, w, g);
    }
    SamplesPerMinute(def, samples, DigestPoint(td, q, w), QuantileHolds(td, q, w));
  }

  lemma QuantileDenotes(q: real, v: VectorExpr, ctx: CompileCtx, w: World)
    requires MetricRegistry(v.name).Some? && MetricRegistry(v.name).value.tdigestCol.Some?
    ensures var def := MetricRegistry(v.name).value;
      Denote(Normal(QuantileOf(q, v)), ctx, w) == DigestPoints(def, def.tdigestCol.value, q, v.labels, None, ctx, w)
  {
    hide MetricRegistry, DigestPoints;
    assert !IsRate("histogram_quantile");
    assert Normal(QuantileOf(q, v)) == QuantileOf(q, Unranged(v));
  }
}
