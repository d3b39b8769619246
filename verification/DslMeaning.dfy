/**
The direct meaning of a metrics expression: a sequence of points, computed from the stored samples
without SQL and without parameters.
*/
module DslMeaning {
  import opened Lists
  import opened Sql
  import opened Dsl

  datatype Point = Point(t: Value, labels: map<string, Value>, v: real)

  datatype PointKey = PointKey(t: Value, labels: map<string, Value>)

  // ----- which samples count -----

  function FromSecs(ctx: CompileCtx): int { TruncDiv(ctx.fromMs, 1000) }

  function ToSecs(ctx: CompileCtx): int { TruncDiv(ctx.toMs, 1000) }

  function StepSecs(ctx: CompileCtx): real { ctx.stepMs as real / 1000.0 }

  predicate InScope(row: Row, timeCol: string, ctx: CompileCtx) {
    && Get(row, "program_id") == Str(ctx.programId) && Get(row, "cluster") == Str(ctx.cluster)
    && Get(row, timeCol).Time? && FromSecs(ctx) <= Get(row, timeCol).secs <= ToSecs(ctx)
  }

  predicate InRange(row: Row, timeCol: string, range: Option<int>, ctx: CompileCtx) {
    range.Some? ==>
      && Get(row, timeCol).Time? && Get(row, timeCol).secs >= FromSecs(ctx)
      && Get(row, timeCol).secs >= ToSecs(ctx) - range.value
  }

  predicate Passes(op: LabelOp, cell: Value, wanted: string, w: World) {
    match op
    case Eq => cell == Str(wanted)
    case Ne => cell != Str(wanted)
    case RegexEq => cell.Str? && w.matches(cell.text, wanted)
    case RegexNe => !(cell.Str? && w.matches(cell.text, wanted))
  }

  function LabelCell(def: MetricDef, key: string, row: Row): Value {
    var c := ColumnOf(def.labels, key);
    if c.Some? then Get(row, c.value) else Null
  }

  predicate LabelsPass(def: MetricDef, ms: seq<LabelMatch>, row: Row, w: World) {
    forall i :: 0 <= i < |ms| ==> Passes(ms[i].op, LabelCell(def, ms[i].key, row), ms[i].value, w)
  }

  function Selects(def: MetricDef, ms: seq<LabelMatch>, range: Option<int>, ctx: CompileCtx, w: World): Row -> bool {
    row => InScope(row, def.timeCol, ctx) && InRange(row, def.timeCol, range, ctx) && LabelsPass(def, ms, row, w)
  }

  function PayloadField(row: Row, key: string, w: World): Value {
    var v := Get(row, "payload_json");
    if v.Str? then Str(w.extract(v.text, key)) else Null
  }

  predicate EventPasses(m: LabelMatch, row: Row, w: World) {
    if m.key == "type" then Get(row, "event_name") == Str(m.value)
    else Passes(m.op, PayloadField(row, m.key, w), m.value, w)
  }

  function SelectsEvents(ms: seq<LabelMatch>, range: Option<int>, ctx: CompileCtx, w: World): Row -> bool {
    row => InScope(row, "block_time", ctx) && InRange(row, "block_time", range, ctx)
           && forall i :: 0 <= i < |ms| ==> EventPasses(ms[i], row, w)
  }

  // ----- samples to points -----

  function TableRows(w: World, name: string): seq<Row> { if name in w.tables then w.tables[name] else [] }

  function SampleLabels(labels: seq<(string, string)>, row: Row): map<string, Value> {
    map l | l in LabelNames(labels) :: (var c := ColumnOf(labels, l); if c.Some? then Get(row, c.value) else Null)
  }

  /** A sample belongs to its minute and to the values of its labels. */
  function SampleKey(def: MetricDef): Row -> PointKey {
    row => PointKey(Minute(Get(row, def.timeCol)), SampleLabels(def.labels, row))
  }

  function MetricValue(value: Agg, rows: seq<Row>): real {
    match value
    case CountMerge(c) => Sum(Map(rows, NumCell(c)))
    case SumMerge(c) => Sum(Map(rows, NumCell(c)))
    case SumOf(c) => Sum(Map(rows, NumCell(c)))
    case AvgOf(c) => Average(Map(rows, NumCell(c)))
    case CountRows => |rows| as real
    case _ => 0.0
  }

  function SamplePoint(def: MetricDef): Group<PointKey, Row> -> Point {
    (g: Group<PointKey, Row>) => Point(g.key.t, g.key.labels, MetricValue(def.value, g.members))
  }

  function DigestPoint(td: string, q: real, w: World): Group<PointKey, Row> -> Point {
    (g: Group<PointKey, Row>) => Point(g.key.t, g.key.labels, w.quantile(q, Map(g.members, CellOf(td))))
  }

  function Earlier(): (Point, Point) -> bool { (a: Point, b: Point) => ValueBefore(a.t, b.t) }

  function MetricPoints(def: MetricDef, ms: seq<LabelMatch>, range: Option<int>, ctx: CompileCtx, w: World): seq<Point> {
    var samples := Filter(TableRows(w, def.table), Selects(def, ms, range, ctx, w));
    Sort(Map(Groups(samples, SampleKey(def)), SamplePoint(def)), Earlier())
  }

  /** Events are samples of their type that count one each. */
  const EVENT_DEF := MetricDef("events", "block_time", CountRows, Gauge, None, [("event_name", "event_name")])

  function EventPoints(ms: seq<LabelMatch>, range: Option<int>, ctx: CompileCtx, w: World): seq<Point> {
    var samples := Filter(TableRows(w, "events"), SelectsEvents(ms, range, ctx, w));
    Sort(Map(Groups(samples, SampleKey(EVENT_DEF)), SamplePoint(EVENT_DEF)), Earlier())
  }

  function DigestPoints(def: MetricDef, td: string, q: real, ms: seq<LabelMatch>, range: Option<int>, ctx: CompileCtx, w: World): seq<Point> {
    var samples := Filter(TableRows(w, def.table), Selects(def, ms, range, ctx, w));
    Sort(Map(Groups(samples, SampleKey(def)), DigestPoint(td, q, w)), Earlier())
  }

  function VectorPoints(v: VectorExpr, ctx: CompileCtx, w: World): seq<Point> {
    if v.name == EVENT then EventPoints(v.labels, v.rangeS, ctx, w)
    else
      match MetricRegistry(v.name)
      case Some(def) => MetricPoints(def, v.labels, v.rangeS, ctx, w)
      case None => []
  }

  // ----- points to points -----

  function Scaled(denom: real, w: World): Point -> Point {
    (p: Point) => p.(v := ArithNum(Div, p.v, denom, w))
  }

  function RatePoints(points: seq<Point>, denom: real, w: World): seq<Point> {
    Sort(Map(points, Scaled(denom, w)), Earlier())
  }

  function Restrict(labels: map<string, Value>, ls: seq<string>): map<string, Value> {
    map l | l in ls :: if l in labels then labels[l] else Null
  }

  function KeyAt(ls: seq<string>): Point -> PointKey {
    (p: Point) => PointKey(p.t, Restrict(p.labels, ls))
  }

  function ValueOf(): Point -> real { (p: Point) => p.v }

  function Aggregated(op: AggOp, vs: seq<real>): real {
    match op
    case SumAgg => Sum(vs)
    case AvgAgg => Average(vs)
    case MinAgg => Least(vs)
    case MaxAgg => Largest(vs)
    case CountAgg => |vs| as real
  }

  function AggPoint(op: AggOp): Group<PointKey, Point> -> Point {
    (g: Group<PointKey, Point>) => Point(g.key.t, g.key.labels, Aggregated(op, Map(g.members, ValueOf())))
  }

  function AggPoints(op: AggOp, ls: seq<string>, points: seq<Point>): seq<Point> {
    Sort(Map(Groups(points, KeyAt(ls)), AggPoint(op)), Earlier())
  }

  function LabelsAt(ls: seq<string>): Point -> map<string, Value> { (p: Point) => Restrict(p.labels, ls) }

  function TotalPoint(now: Value): Group<map<string, Value>, Point> -> Point {
    (g: Group<map<string, Value>, Point>) => Point(now, g.key, Sum(Map(g.members, ValueOf())))
  }

  /** The total of each label set over all times; without labels, one total, of no points too. */
  function Totals(ls: seq<string>, now: Value, points: seq<Point>): seq<Point> {
    if ls == [] then [TotalPoint(now)(Group(map[], points))]
    else Map(Groups(points, LabelsAt(ls)), TotalPoint(now))
  }

  function RankedBefore(top: bool): (Point, Point) -> bool {
    (a: Point, b: Point) => if top then b.v < a.v else a.v < b.v
  }

  function TopPoints(top: bool, k: nat, ls: seq<string>, now: Value, points: seq<Point>): seq<Point> {
    Take(Sort(Totals(ls, now, points), RankedBefore(top)), k)
  }

  function SameTime(l: Point): Point -> bool { (r: Point) => l.t == r.t }

  function Combined(l: Point, op: ArithOp, w: World): Point -> Point {
    (r: Point) => Point(l.t, map[], ArithNum(op, l.v, r.v, w))
  }

  function PairsWith(rs: seq<Point>, op: ArithOp, w: World): Point -> seq<Point> {
    (l: Point) => Map(Filter(rs, SameTime(l)), Combined(l, op, w))
  }

  function BinaryPoints(ls: seq<Point>, op: ArithOp, rs: seq<Point>, w: World): seq<Point> {
    Sort(Flatten(Map(ls, PairsWith(rs, op, w))), Earlier())
  }

  function VectorLabels(v: VectorExpr): seq<string> {
    if v.name == EVENT then ["event_name"]
    else
      match MetricRegistry(v.name)
      case Some(def) => LabelNames(def.labels)
      case None => []
  }

  /** The labels of an expression's points. */
  function LabelsOf(e: Expr): seq<string>
    decreases e
  {
    match e
    case Vector(v) => VectorLabels(v)
    case Func(name, args) =>
      if IsRate(name) && |args| == 1 && args[0].Vector? then VectorLabels(args[0].vec)
      else if name == "histogram_quantile" && |args| == 2 && args[1].Vector? then VectorLabels(args[1].vec)
      else if IsTop(name) && |args| == 2 then LabelsOf(args[1])
      else []
    case Aggregation(_, grouping, inner) => GroupLabels(grouping, LabelsOf(inner))
    case Binary(_, _, _) => []
    case Number(_) => []
  }

  /** The points of an expression that compiles. */
  function Denote(e: Expr, ctx: CompileCtx, w: World): seq<Point>
    decreases e
  {
    match e
    case Vector(v) => VectorPoints(v, ctx, w)
    case Func(name, args) =>
      if IsRate(name) && |args| == 1 && args[0].Vector? then
        RatePoints(VectorPoints(args[0].vec, ctx, w),
                   if name == "increase" then 1.0 else Max(StepSecs(ctx), 1.0), w)
      else if name == "histogram_quantile" && |args| == 2 && args[0].Number? && args[1].Vector? then
        (match MetricRegistry(args[1].vec.name)
         case Some(def) =>
           if def.tdigestCol.Some? then
             DigestPoints(def, def.tdigestCol.value, args[0].v, args[1].vec.labels, args[1].vec.rangeS, ctx, w)
           else []
         case None => [])
      else if IsTop(name) && |args| == 2 && args[0].Number? then
        TopPoints(name == "topk", ToU32(args[0].v), LabelsOf(args[1]), Time(ToSecs(ctx)), Denote(args[1], ctx, w))
      else []
    case Aggregation(op, grouping, inner) =>
      AggPoints(op, GroupLabels(grouping, LabelsOf(inner)), Denote(inner, ctx, w))
    case Binary(l, op, r) => BinaryPoints(Denote(l, ctx, w), op, Denote(r, ctx, w), w)
    case Number(x) => [Point(Time(ToSecs(ctx)), map[], x)]
  }

  // ----- literals read back from a parameter map -----

  function TextIn(P: Params, n: ParamName): string { var v := GetParam(P, n); if v.Str? then v.text else "" }

  function IntIn(P: Params, n: ParamName): int { var v := GetParam(P, n); if v.Int? then v.i else 0 }

  function RebindLabels(ms: seq<LabelMatch>, P: Params, td: bool): (rs: seq<LabelMatch>)
    ensures |rs| == |ms|
    ensures forall i :: 0 <= i < |ms| ==> rs[i] == ms[i].(value := TextIn(P, LabelParam(td, i)))
  {
    seq(|ms|, i requires 0 <= i < |ms| => ms[i].(value := TextIn(P, LabelParam(td, i))))
  }

  function RebindEvents(ms: seq<LabelMatch>, P: Params): (rs: seq<LabelMatch>)
    ensures |rs| == |ms|
    ensures forall i :: 0 <= i < |ms| ==>
      rs[i] == ms[i].(value := TextIn(P, if ms[i].key == "type" then EventType else EventLabel(i)))
  {
    seq(|ms|, i requires 0 <= i < |ms| =>
      ms[i].(value := TextIn(P, if ms[i].key == "type" then EventType else EventLabel(i))))
  }

  /** An event selector's query has no range clause, so none is read back. */
  function RebindVector(v: VectorExpr, P: Params): VectorExpr {
    if v.name == EVENT then v.(labels := RebindEvents(v.labels, P), rangeS := None)
    else v.(labels := RebindLabels(v.labels, P, false),
            rangeS := if v.rangeS.Some? then Some(IntIn(P, RangeS)) else None)
  }

  /**
  The expression that a query evaluates: every literal is what the parameter map says under the literal's
  name, and the ranges of events and of a quantile's digests, which have no clause, are gone.
  */
  function Rebind(e: Expr, P: Params): Expr
    decreases e
  {
    match e
    case Vector(v) => Vector(RebindVector(v, P))
    case Func(name, args) =>
      if IsRate(name) && |args| == 1 && args[0].Vector? then Func(name, [Vector(RebindVector(args[0].vec, P))])
      else if name == "histogram_quantile" && |args| == 2 && args[0].Number? && args[1].Vector? then
        Func(name, [Number(NumOf(GetParam(P, Q))),
                    Vector(args[1].vec.(labels := RebindLabels(args[1].vec.labels, P, true), rangeS := None))])
      else if IsTop(name) && |args| == 2 && args[0].Number? then
        Func(name, [Number(IntIn(P, K) as real), Rebind(args[1], P)])
      else e
    case Aggregation(op, grouping, inner) => Aggregation(op, grouping, Rebind(inner, P))
    case Binary(l, op, r) => Binary(Rebind(l, P), op, Rebind(r, P))
    case Number(_) => e
  }
}
