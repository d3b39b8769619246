/**
The metrics language: its expression trees, the registry of metrics, and the compiler.  What the
compiler returns does not depend on the parameters it has collected so far, so the query is a
function of the tree, and so is the list of parameter bindings; the methods that thread the shared
parameter map are proved against the two.
*/
module Dsl {
  import opened Lists
  import opened Sql

  datatype LabelOp = Eq | Ne | RegexEq | RegexNe

  datatype LabelMatch = LabelMatch(key: string, op: LabelOp, value: string)

  datatype VectorExpr = VectorExpr(name: string, labels: seq<LabelMatch>, rangeS: Option<int>)

  datatype AggOp = SumAgg | AvgAgg | MinAgg | MaxAgg | CountAgg

  datatype Regroup = Regroup(isBy: bool, labels: seq<string>)

  datatype Expr =
    | Number(v: real)
    | Vector(vec: VectorExpr)
    | Func(name: string, args: seq<Expr>)
    | Aggregation(agg: AggOp, grouping: Option<Regroup>, expr: Expr)
    | Binary(left: Expr, op: ArithOp, right: Expr)

  datatype CompileCtx = CompileCtx(programId: string, cluster: string, fromMs: int, toMs: int, stepMs: int)

  datatype MetricKind = Counter | Gauge | TDigest

  datatype MetricDef = MetricDef(table: string, timeCol: string, value: Agg, kind: MetricKind,
                                 tdigestCol: Option<string>, labels: seq<(string, string)>)

  /** Tables that are sub-selects in the source go by the name of their metric here. */
  function MetricRegistry(name: string): Option<MetricDef> {
    if name == "latency_processed_to_confirmed_ms" || name == "latency_confirmed_to_finalized_ms"
       || name == "latency_wallclock_perceived_ms" then
      Some(MetricDef(name, "observed_at", AvgOf("latency_ms"), Gauge, None, [("instruction", "instruction_name")]))
    else if name == "instruction_calls_total" then
      Some(MetricDef("metrics_instruction_calls_minute", "minute", CountMerge("calls_state"), Counter, None,
                     [("instruction", "instruction_name"), ("status", "status")]))
    else if name == "instruction_cu_consumed" then
      Some(MetricDef("metrics_instruction_calls_minute", "minute", SumMerge("sum_cu_state"), TDigest,
                     Some("cu_tdigest_state"), [("instruction", "instruction_name"), ("status", "status")]))
    else if name == "errors_total" then
      Some(MetricDef("metrics_errors_minute", "minute", CountMerge("errors_state"), Counter, None,
                     [("instruction", "instruction_name"), ("error_name", "error_name")]))
    else if name == "cpi_calls_total" then
      Some(MetricDef("metrics_cpi_minute", "minute", CountMerge("calls_state"), Counter, None,
                     [("callee_program", "callee_program")]))
    else if name == "signer_fees_lamports_total" then
      Some(MetricDef("transactions", "block_time", SumOf("fee_lamports"), Counter, None,
                     [("signer", "signer"), ("status", "status")]))
    else None
  }

  datatype Error =
    | UnsupportedFunction | WrongArity | NotAVector | UnknownMetric | NotACounter | NotNumeric | NotTDigest
    | UnknownLabel | EventTypeOp | EventTypeMissing | UnknownGroupingLabel | BadK

  datatype Result<T> = Ok(value: T) | Err(error: Error)

  datatype SqlNode = SqlNode(query: Query, labels: seq<string>)

  datatype Binding = Binding(name: ParamName, value: Value)

  function Insert(P: Params, b: Binding): Params { P[b.name := b.value] }

  function InsertAll(P: Params, bs: seq<Binding>): Params {
    if bs == [] then P else Insert(InsertAll(P, bs[..|bs| - 1]), bs[|bs| - 1])
  }

  // ----- integers and truncations -----

  /** Integer division truncates toward zero. */
  function TruncDiv(a: int, b: nat): int
    requires b > 0
  {
    if a >= 0 then a / b else -((-a) / b)
  }

  const U32_MAX := 0xFFFF_FFFF

  /** The cast of a positive float to u32: truncated, and saturated. */
  function ToU32(x: real): nat {
    var f := x.Floor;
    if f < 0 then 0 else if f > U32_MAX then U32_MAX else f
  }

  function BaseParams(ctx: CompileCtx): Params {
    map[ProgramId := Str(ctx.programId), Cluster := Str(ctx.cluster),
        FromS := Int(TruncDiv(ctx.fromMs, 1000)), ToS := Int(TruncDiv(ctx.toMs, 1000)),
        StepMs := Int(ctx.stepMs), StepS := Num(ctx.stepMs as real / 1000.0)]
  }

  // ----- vectors -----

  function LabelNames(labels: seq<(string, string)>): (ls: seq<string>)
    ensures |ls| == |labels| && forall i :: 0 <= i < |ls| ==> ls[i] == labels[i].0
  {
    seq(|labels|, i requires 0 <= i < |labels| => labels[i].0)
  }

  /** The column behind a label. */
  function ColumnOf(labels: seq<(string, string)>, key: string): Option<string> {
    if labels == [] then None
    else if labels[0].0 == key then Some(labels[0].1)
    else ColumnOf(labels[1..], key)
  }

  function MatchCond(op: LabelOp, e: Scalar, p: ParamName): Cond {
    match op
    case Eq => Equal(e, ParamRef(p))
    case Ne => NotEqual(e, ParamRef(p))
    case RegexEq => Match(e, ParamRef(p))
    case RegexNe => NotMatch(e, ParamRef(p))
  }

  function ScopeConds(timeCol: string): seq<Cond> {
    [Equal(Col("program_id"), ParamRef(ProgramId)), Equal(Col("cluster"), ParamRef(Cluster)),
     AtLeast(Col(timeCol), ToDateTime(ParamRef(FromS))), AtMost(Col(timeCol), ToDateTime(ParamRef(ToS)))]
  }

  function RangeCond(timeCol: string): Cond {
    AtLeast(Col(timeCol),
            ToDateTime(Greatest(ParamRef(FromS), Arith(Sub, ParamRef(ToS), ParamRef(RangeS)))))
  }

  /** Metric labels are filtered through `Label(i)`, and those of a digest's base through `TdLabel(i)`. */
  function LabelParam(td: bool, i: nat): ParamName { if td then TdLabel(i) else Label(i) }

  predicate LabelsKnown(def: MetricDef, ms: seq<LabelMatch>) {
    forall m :: m in ms ==> ColumnOf(def.labels, m.key).Some?
  }

  function LabelConds(def: MetricDef, ms: seq<LabelMatch>, td: bool): seq<Cond>
    requires LabelsKnown(def, ms)
  {
    if ms == [] then []
    else
      var n := |ms| - 1;
      LabelConds(def, ms[..n], td)
      + [MatchCond(ms[n].op, Col(ColumnOf(def.labels, ms[n].key).value), LabelParam(td, n))]
  }

  function LabelBinds(ms: seq<LabelMatch>, td: bool): seq<Binding> {
    if ms == [] then []
    else
      var n := |ms| - 1;
      LabelBinds(ms[..n], td) + [Binding(LabelParam(td, n), Str(ms[n].value))]
  }

  function RangeBinds(v: VectorExpr): seq<Binding> {
    if v.rangeS.Some? then [Binding(RangeS, Int(v.rangeS.value))] else []
  }

  /** Columns that project a table's columns to labels. */
  function LabelColumns(labels: seq<(string, string)>): (cs: seq<Column>)
    ensures |cs| == |labels|
    ensures forall i :: 0 <= i < |cs| ==> cs[i] == Column(labels[i].0, Plain(Col(labels[i].1)))
  {
    seq(|labels|, i requires 0 <= i < |labels| => Column(labels[i].0, Plain(Col(labels[i].1))))
  }

  /** Columns that pass the labels of an inner query on. */
  function PassColumns(labels: seq<string>): (cs: seq<Column>)
    ensures |cs| == |labels|
    ensures forall i :: 0 <= i < |cs| ==> cs[i] == Column(labels[i], Plain(Col(labels[i])))
  {
    seq(|labels|, i requires 0 <= i < |labels| => Column(labels[i], Plain(Col(labels[i]))))
  }

  function MetricConds(def: MetricDef, v: VectorExpr): seq<Cond>
    requires LabelsKnown(def, v.labels)
  {
    ScopeConds(def.timeCol) + (if v.rangeS.Some? then [RangeCond(def.timeCol)] else [])
    + LabelConds(def, v.labels, false)
  }

  function MetricQuery(def: MetricDef, conds: seq<Cond>): SqlNode {
    var labels := LabelNames(def.labels);
    SqlNode(Query([Column("t", Plain(StartOfMinute(Col(def.timeCol))))] + LabelColumns(def.labels)
                  + [Column("v", Aggregate(def.value))],
                  Table(def.table), conds, GroupBy(["t"] + labels), OrderBy("t", false), None),
            labels)
  }

  function MetricNode(v: VectorExpr): Result<SqlNode> {
    match MetricRegistry(v.name)
    case None => Err(UnknownMetric)
    case Some(def) =>
      if !LabelsKnown(def, v.labels) then Err(UnknownLabel)
      else Ok(MetricQuery(def, MetricConds(def, v)))
  }

  const EVENT := "event"

  function EventCond(m: LabelMatch, n: nat): Cond {
    if m.key == "type" then Equal(Col("event_name"), ParamRef(EventType))
    else MatchCond(m.op, JsonString(Col("payload_json"), m.key), EventLabel(n))
  }

  function EventConds(ms: seq<LabelMatch>): seq<Cond> {
    if ms == [] then ScopeConds("block_time")
    else
      var n := |ms| - 1;
      EventConds(ms[..n]) + [EventCond(ms[n], n)]
  }

  function EventBinds(ms: seq<LabelMatch>): seq<Binding> {
    if ms == [] then []
    else
      var n := |ms| - 1;
      EventBinds(ms[..n])
      + [Binding(if ms[n].key == "type" then EventType else EventLabel(n), Str(ms[n].value))]
  }

  function EventQuery(conds: seq<Cond>): SqlNode {
    SqlNode(Query([Column("t", Plain(StartOfMinute(Col("block_time")))), Column("event_name", Plain(Col("event_name"))),
                   Column("v", Aggregate(CountRows))],
                  Table("events"), conds, GroupBy(["t", "event_name"]), OrderBy("t", false), None),
            ["event_name"])
  }

  function EventNode(v: VectorExpr): Result<SqlNode> {
    if exists m :: m in v.labels && m.key == "type" && !m.op.Eq? then Err(EventTypeOp)
    else if forall m :: m in v.labels ==> m.key != "type" then Err(EventTypeMissing)
    else Ok(EventQuery(EventConds(v.labels)))
  }

  function VectorNode(v: VectorExpr): Result<SqlNode> {
    if v.name == EVENT then EventNode(v) else MetricNode(v)
  }

  function VectorBinds(v: VectorExpr): seq<Binding> {
    if v.name == EVENT then EventBinds(v.labels) else RangeBinds(v) + LabelBinds(v.labels, false)
  }

  // ----- functions of vectors and queries -----

  function RateQuery(inner: SqlNode, perSecond: bool): SqlNode {
    var denom := if perSecond then Greatest(ParamRef(StepS), Literal(1.0)) else Literal(1.0);
    SqlNode(Query([Column("t", Plain(Col("t"))), Column("v", Plain(Arith(Div, Col("v"), denom)))]
                  + PassColumns(inner.labels),
                  SubQuery(inner.query), [], Ungrouped, OrderBy("t", false), None),
            inner.labels)
  }

  function DigestQuery(def: MetricDef, td: string, conds: seq<Cond>): SqlNode {
    var labels := LabelNames(def.labels);
    var base := Query([Column("t", Plain(StartOfMinute(Col(def.timeCol))))] + LabelColumns(def.labels)
                      + [Column(td, Plain(Col(td)))],
                      Table(def.table), conds, Ungrouped, AnyOrder, None);
    SqlNode(Query([Column("t", Plain(Col("t"))), Column("v", Aggregate(QuantileMerge(Q, td)))] + PassColumns(labels),
                  SubQuery(base), [], GroupBy(["t"] + labels), OrderBy("t", false), None),
            labels)
  }

  function AggOf(op: AggOp): Agg {
    match op
    case SumAgg => SumOf("v")
    case AvgAgg => AvgOf("v")
    case MinAgg => MinOf("v")
    case MaxAgg => MaxOf("v")
    case CountAgg => CountOf("v")
  }

  function Without(labels: seq<string>, dropped: seq<string>): (ls: seq<string>)
    ensures forall l :: l in ls <==> l in labels && l !in dropped
  {
    if labels == [] then []
    else (if labels[0] in dropped then [] else [labels[0]]) + Without(labels[1..], dropped)
  }

  function GroupLabels(grouping: Option<Regroup>, inner: seq<string>): seq<string> {
    match grouping
    case None => []
    case Some(g) => if g.isBy then g.labels else Without(inner, g.labels)
  }

  function AggregationNode(op: AggOp, grouping: Option<Regroup>, inner: SqlNode): Result<SqlNode> {
    var labels := GroupLabels(grouping, inner.labels);
    if exists l :: l in labels && l !in inner.labels then Err(UnknownGroupingLabel)
    else
      Ok(SqlNode(Query([Column("t", Plain(Col("t"))), Column("v", Aggregate(AggOf(op)))] + PassColumns(labels),
                       SubQuery(inner.query), [], GroupBy(["t"] + labels), OrderBy("t", false), None),
                 labels))
  }

  function RankedQuery(inner: SqlNode, top: bool): Query {
    Query([Column("v", Aggregate(SumOf("v")))] + PassColumns(inner.labels), SubQuery(inner.query), [],
          if inner.labels == [] then SingleGroup else GroupBy(inner.labels), OrderBy("v", top), Some(K))
  }

  function TopQuery(inner: SqlNode, top: bool): SqlNode {
    SqlNode(Query([Column("t", Plain(ToDateTime(ParamRef(ToS)))), Column("v", Plain(Col("v")))]
                  + PassColumns(inner.labels),
                  SubQuery(RankedQuery(inner, top)), [], Ungrouped, AnyOrder, None),
            inner.labels)
  }

  function BinaryQuery(op: ArithOp, l: SqlNode, r: SqlNode): SqlNode {
    SqlNode(Query([Column("t", Plain(Col("l.t"))), Column("v", Plain(Arith(op, Col("l.v"), Col("r.v"))))],
                  Join(l.query, r.query, "t"), [], Ungrouped, OrderBy("t", false), None),
            [])
  }

  function NumberQuery(x: real): SqlNode {
    SqlNode(Query([Column("t", Plain(ToDateTime(ParamRef(ToS)))), Column("v", Plain(Literal(x)))],
                  NoTable, [], Ungrouped, AnyOrder, None),
            [])
  }

  // ----- the compiler -----

  predicate IsRate(name: string) { name == "rate" || name == "irate" || name == "increase" }

  predicate IsTop(name: string) { name == "topk" || name == "bottomk" }

  function RateNode(name: string, args: seq<Expr>): Result<SqlNode> {
    if |args| != 1 then Err(WrongArity)
    else if !args[0].Vector? then Err(NotAVector)
    else
      match MetricRegistry(args[0].vec.name)
      case None => Err(UnknownMetric)
      case Some(def) =>
        if !def.kind.Counter? then Err(NotACounter)
        else
          match VectorNode(args[0].vec)
          case Err(e) => Err(e)
          case Ok(inner) => Ok(RateQuery(inner, name != "increase"))
  }

  function QuantileNode(args: seq<Expr>): Result<SqlNode> {
    if |args| != 2 then Err(WrongArity)
    else if !args[0].Number? then Err(NotNumeric)
    else if !args[1].Vector? then Err(NotAVector)
    else
      var v := args[1].vec;
      match MetricRegistry(v.name)
      case None => Err(UnknownMetric)
      case Some(def) =>
        if !def.kind.TDigest? || def.tdigestCol.None? then Err(NotTDigest)
        else
          match VectorNode(v)
          case Err(e) => Err(e)
          case Ok(_) =>
            if !LabelsKnown(def, v.labels) then Err(UnknownLabel)
            else Ok(DigestQuery(def, def.tdigestCol.value,
                                ScopeConds(def.timeCol) + LabelConds(def, v.labels, true)))
  }

  function Compile(e: Expr): Result<SqlNode>
    decreases e
  {
    match e
    case Vector(v) => VectorNode(v)
    case Func(name, args) =>
      if IsRate(name) then RateNode(name, args)
      else if name == "histogram_quantile" then QuantileNode(args)
      else if IsTop(name) then
        if |args| != 2 then Err(WrongArity)
        else if !args[0].Number? || args[0].v < 1.0 then Err(BadK)
        else
          (match Compile(args[1])
           case Err(err) => Err(err)
           case Ok(inner) => Ok(TopQuery(inner, name == "topk")))
      else Err(UnsupportedFunction)
    case Aggregation(op, grouping, inner) =>
      (match Compile(inner)
       case Err(err) => Err(err)
       case Ok(node) => AggregationNode(op, grouping, node))
    case Binary(l, op, r) =>
      (match Compile(l)
       case Err(err) => Err(err)
       case Ok(ln) =>
         match Compile(r)
         case Err(err) => Err(err)
         case Ok(rn) => Ok(BinaryQuery(op, ln, rn)))
    case Number(x) => Ok(NumberQuery(x))
  }

  /** The parameters a successful compilation inserts, in order. */
  function Binds(e: Expr): seq<Binding>
    decreases e
  {
    match e
    case Vector(v) => VectorBinds(v)
    case Func(name, args) =>
      if IsRate(name) && |args| == 1 && args[0].Vector? then VectorBinds(args[0].vec)
      else if name == "histogram_quantile" && |args| == 2 && args[0].Number? && args[1].Vector? then
        [Binding(Q, Num(args[0].v))] + VectorBinds(args[1].vec) + LabelBinds(args[1].vec.labels, true)
      else if IsTop(name) && |args| == 2 && args[0].Number? then
        [Binding(K, Int(ToU32(args[0].v)))] + Binds(args[1])
      else []
    case Aggregation(_, _, inner) => Binds(inner)
    case Binary(l, _, r) => Binds(l) + Binds(r)
    case Number(_) => []
  }
}
