/** Compiled queries are closed and well scoped: every placeholder is bound and every column comes from below. */
module DslScoping {
  import opened Lists
  import opened Sql
  import opened Dsl
  import opened DslMeaning
  import opened DslCorrect
  import DslQueries
  import opened DslTheorem

  // ----- placeholders -----

  function ScalarParams(e: Scalar): set<ParamName> {
    match e
    case Col(_) => {}
    case ParamRef(p) => {p}
    case Literal(_) => {}
    case StartOfMinute(a) => ScalarParams(a)
    case JsonString(a, _) => ScalarParams(a)
    case ToDateTime(a) => ScalarParams(a)
    case Greatest(a, b) => ScalarParams(a) + ScalarParams(b)
    case Arith(_, a, b) => ScalarParams(a) + ScalarParams(b)
  }

  function CondParams(c: Cond): set<ParamName> { ScalarParams(c.a) + ScalarParams(if c.Match? || c.NotMatch? then c.pattern else c.b) }

  function CondsParams(cs: seq<Cond>): set<ParamName> {
    if cs == [] then {} else CondParams(cs[0]) + CondsParams(cs[1..])
  }

  function ItemParams(i: Item): set<ParamName> {
    match i
    case Plain(e) => ScalarParams(e)
    case Aggregate(a) => if a.QuantileMerge? then {a.level} else {}
  }

  function ColumnsParams(cs: seq<Column>): set<ParamName> {
    if cs == [] then {} else ItemParams(cs[0].item) + ColumnsParams(cs[1..])
  }

  function SourceParams(s: Source): set<ParamName>
    decreases s
  {
    match s
    case SubQuery(q) => Placeholders(q)
    case Join(l, r, _) => Placeholders(l) + Placeholders(r)
    case _ => {}
  }

  function Placeholders(q: Query): set<ParamName>
    decreases q
  {
    ColumnsParams(q.columns) + SourceParams(q.source) + CondsParams(q.conds)
    + (if q.limit.Some? then {q.limit.value} else {})
  }

  // ----- columns -----

  function ScalarCols(e: Scalar): set<string> {
    match e
    case Col(n) => {n}
    case ParamRef(_) => {}
    case Literal(_) => {}
    case StartOfMinute(a) => ScalarCols(a)
    case JsonString(a, _) => ScalarCols(a)
    case ToDateTime(a) => ScalarCols(a)
    case Greatest(a, b) => ScalarCols(a) + ScalarCols(b)
    case Arith(_, a, b) => ScalarCols(a) + ScalarCols(b)
  }

  function CondCols(c: Cond): set<string> { ScalarCols(c.a) + ScalarCols(if c.Match? || c.NotMatch? then c.pattern else c.b) }

  function ItemCols(i: Item): set<string> {
    match i
    case Plain(e) => ScalarCols(e)
    case Aggregate(a) => if a.CountRows? then {} else {a.col}
  }

  /** The columns that a source offers; a stored table is taken to have what is asked of it. */
  predicate Offers(s: Source, c: string) {
    match s
    case Table(_) => true
    case SubQuery(q) => c in Names(q.columns)
    case Join(l, r, _) => |c| >= 2 && ((c[..2] == "l." && c[2..] in Names(l.columns)) || (c[..2] == "r." && c[2..] in Names(r.columns)))
    case NoTable => false
  }

  predicate SourceScoped(s: Source)
    decreases s
  {
    match s
    case SubQuery(q) => WellScoped(q)
    case Join(l, r, on) => WellScoped(l) && WellScoped(r) && on in Names(l.columns) && on in Names(r.columns)
    case _ => true
  }

  /** Items and conditions name columns of the source; GROUP BY and ORDER BY name columns of the select list. */
  predicate WellScoped(q: Query)
    decreases q
  {
    && SourceScoped(q.source)
    && (forall c, n :: c in q.columns && n in ItemCols(c.item) ==> Offers(q.source, n))
    && (forall c, n :: c in q.conds && n in CondCols(c) ==> Offers(q.source, n))
    && (q.grouping.GroupBy? ==> forall n :: n in q.grouping.cols ==> n in Names(q.columns) && Find(q.columns, n).Plain?)
    && (q.order.OrderBy? ==> q.order.col in Names(q.columns))
  }

  // ----- placeholders of a compiled query -----

  function NamesOf(bs: seq<Binding>): set<ParamName> { set b | b in bs :: b.name }

  lemma NamesAppend(a: seq<Binding>, b: seq<Binding>)
    ensures NamesOf(a + b) == NamesOf(a) + NamesOf(b)
  {
    assert forall x :: x in a + b <==> x in a || x in b;
  }

  lemma NamesOne(b: Binding)
    ensures NamesOf([b]) == {b.name}
  {
    assert b in [b];
  }

  lemma {:induction false} CondsAppend(a: seq<Cond>, b: seq<Cond>)
    ensures CondsParams(a + b) == CondsParams(a) + CondsParams(b)
  {
    if a == [] {
      assert a + b == b;
    } else {
      assert (a + b)[1..] == a[1..] + b;
      CondsAppend(a[1..], b);
    }
  }

  lemma {:induction false} ColumnsAppend(a: seq<Column>, b: seq<Column>)
    ensures ColumnsParams(a + b) == ColumnsParams(a) + ColumnsParams(b)
  {
    if a == [] {
      assert a + b == b;
    } else {
      assert (a + b)[1..] == a[1..] + b;
      ColumnsAppend(a[1..], b);
    }
  }

  lemma OneCond(c: Cond)
    ensures CondsParams([c]) == CondParams(c)
  {
  }

  lemma {:induction false} PassParams(labels: seq<string>)
    ensures ColumnsParams(PassColumns(labels)) == {}
  {
    if labels != [] {
      assert PassColumns(labels)[1..] == PassColumns(labels[1..]);
      PassParams(labels[1..]);
    }
  }

  lemma {:induction false} LabelColumnParams(labels: seq<(string, string)>)
    ensures ColumnsParams(LabelColumns(labels)) == {}
  {
    if labels != [] {
      assert LabelColumns(labels)[1..] == LabelColumns(labels[1..]);
      LabelColumnParams(labels[1..]);
    }
  }

  const SCOPE: set<ParamName> := {ProgramId, Cluster, FromS, ToS}

  lemma ScopeParams(timeCol: string)
    ensures CondsParams(ScopeConds(timeCol)) == SCOPE
  {
    var cs := ScopeConds(timeCol);
    assert cs == [cs[0]] + ([cs[1]] + ([cs[2]] + [cs[3]]));
    CondsAppend([cs[0]], [cs[1]] + ([cs[2]] + [cs[3]]));
    CondsAppend([cs[1]], [cs[2]] + [cs[3]]);
    CondsAppend([cs[2]], [cs[3]]);
    OneCond(cs[0]);
    OneCond(cs[1]);
    OneCond(cs[2]);
    OneCond(cs[3]);
  }

  lemma MatchParams(op: LabelOp, e: Scalar, p: ParamName)
    requires ScalarParams(e) == {}
    ensures CondParams(MatchCond(op, e, p)) == {p}
  {
  }

  lemma {:induction false} LabelParams(def: MetricDef, ms: seq<LabelMatch>, td: bool)
    requires LabelsKnown(def, ms)
    ensures CondsParams(LabelConds(def, ms, td)) == NamesOf(LabelBinds(ms, td))
  {
    if ms != [] {
      var n := |ms| - 1;
      var m, b := ms[n], Binding(LabelParam(td, n), Str(ms[n].value));
      assert m in ms && forall x :: x in ms[..n] ==> x in ms;
      var cell := Col(ColumnOf(def.labels, m.key).value);
      var last := MatchCond(m.op, cell, LabelParam(td, n));
      LabelParams(def, ms[..n], td);
      CondsAppend(LabelConds(def, ms[..n], td), [last]);
      OneCond(last);
      MatchParams(m.op, cell, LabelParam(td, n));
      NamesAppend(LabelBinds(ms[..n], td), [b]);
      NamesOne(b);
      hide CondsParams, NamesOf, CondParams, MatchCond;
    }
  }

  lemma {:induction false} EventParams(ms: seq<LabelMatch>)
    ensures CondsParams(EventConds(ms)) == SCOPE + NamesOf(EventBinds(ms))
  {
    if ms == [] {
      ScopeParams("block_time");
    } else {
      var n := |ms| - 1;
      var m, b := ms[n], Binding(EventParam(ms[n], n), Str(ms[n].value));
      EventParams(ms[..n]);
      CondsAppend(EventConds(ms[..n]), [EventCond(m, n)]);
      OneCond(EventCond(m, n));
      MatchParams(m.op, JsonString(Col("payload_json"), m.key), EventLabel(n));
      assert CondParams(EventCond(m, n)) == {b.name};
      NamesAppend(EventBinds(ms[..n]), [b]);
      NamesOne(b);
      hide CondsParams, NamesOf, CondParams, EventCond;
    }
  }

  lemma RangeParams(def: MetricDef, v: VectorExpr)
    ensures var cs := CondsParams(if v.rangeS.Some? then [RangeCond(def.timeCol)] else []);
      SCOPE + cs == SCOPE + NamesOf(RangeBinds(v))
  {
    if v.rangeS.Some? {
      OneCond(RangeCond(def.timeCol));
      NamesOne(Binding(RangeS, Int(v.rangeS.value)));
    }
  }

  lemma MetricParams(def: MetricDef, v: VectorExpr)
    requires LabelsKnown(def, v.labels)
    ensures CondsParams(MetricConds(def, v)) == SCOPE + NamesOf(RangeBinds(v) + LabelBinds(v.labels, false))
  {
    var range := if v.rangeS.Some? then [RangeCond(def.timeCol)] else [];
    var scope, labels := ScopeConds(def.timeCol), LabelConds(def, v.labels, false);
    ScopeParams(def.timeCol);
    RangeParams(def, v);
    LabelParams(def, v.labels, false);
    hide CondsParams, NamesOf, LabelConds, LabelBinds, ScopeConds, RangeBinds, RangeCond;
    CondsAppend(scope + range, labels);
    CondsAppend(scope, range);
    NamesAppend(RangeBinds(v), LabelBinds(v.labels, false));
    assert MetricConds(def, v) == (scope + range) + labels;
  }

  /** The placeholders are those of the base map and exactly the names whose bindings the expression uses. */
  ghost predicate Exactly(q: Query, used: seq<Binding>) {
    && NamesOf(used) <= Placeholders(q)
    && forall n :: n in Placeholders(q) ==> n in NamesOf(used) || IsBase(n)
  }

  lemma SelectParams(t: Item, v: Item, rest: seq<Column>)
    ensures ColumnsParams([Column("t", t), Column("v", v)] + rest) == ItemParams(t) + ItemParams(v) + ColumnsParams(rest)
  {
    var a, b := Column("t", t), Column("v", v);
    assert [a, b] + rest == [a] + ([b] + rest);
    ColumnsAppend([a], [b] + rest);
    ColumnsAppend([b], rest);
  }

  lemma TableParams(t: Item, labels: seq<(string, string)>, last: Column)
    ensures ColumnsParams([Column("t", t)] + LabelColumns(labels) + [last]) == ItemParams(t) + ItemParams(last.item)
  {
    ColumnsAppend([Column("t", t)] + LabelColumns(labels), [last]);
    ColumnsAppend([Column("t", t)], LabelColumns(labels));
    LabelColumnParams(labels);
  }

  lemma TablePlaceholders(q: Query, t: Scalar, labels: seq<(string, string)>, last: Column, used: seq<Binding>)
    requires q.columns == [Column("t", Plain(t))] + LabelColumns(labels) + [last]
    requires ScalarParams(t) == {} && ItemParams(last.item) == {} && q.source.Table? && q.limit == None
    requires CondsParams(q.conds) == SCOPE + NamesOf(used)
    ensures Exactly(q, used) && Placeholders(q) == SCOPE + NamesOf(used)
  {
    TableParams(Plain(t), labels, last);
    hide CondsParams, NamesOf, ColumnsParams;
    assert Placeholders(q) == SCOPE + NamesOf(used);
  }

  lemma EventPlaceholders(ms: seq<LabelMatch>)
    ensures Exactly(EventQuery(EventConds(ms)).query, EventBinds(ms))
  {
    var labels := [("event_name", "event_name")];
    EventParams(ms);
    assert LabelColumns(labels) == [Column("event_name", Plain(Col("event_name")))];
    TablePlaceholders(EventQuery(EventConds(ms)).query, StartOfMinute(Col("block_time")), labels,
                      Column("v", Aggregate(CountRows)), EventBinds(ms));
  }

  lemma VectorPlaceholders(v: VectorExpr)
    requires VectorNode(v).Ok?
    ensures Exactly(VectorNode(v).value.query, VectorBinds(v))
  {
    hide EventQuery, MetricQuery, Exactly, MetricRegistry, MetricConds;
    if v.name == EVENT {
      EventPlaceholders(v.labels);
    } else {
      RegistryFacts(v.name);
      MetricPlaceholders(MetricRegistry(v.name).value, v);
    }
  }

  lemma MetricPlaceholders(def: MetricDef, v: VectorExpr)
    requires LabelsKnown(def, v.labels)
    requires def.value.CountMerge? || def.value.SumMerge? || def.value.SumOf? || def.value.AvgOf? || def.value.CountRows?
    ensures Exactly(MetricQuery(def, MetricConds(def, v)).query, RangeBinds(v) + LabelBinds(v.labels, false))
  {
    MetricParams(def, v);
    hide Exactly, CondsParams, NamesOf, Placeholders, MetricConds;
    TablePlaceholders(MetricQuery(def, MetricConds(def, v)).query, StartOfMinute(Col(def.timeCol)), def.labels,
                      Column("v", Aggregate(def.value)), RangeBinds(v) + LabelBinds(v.labels, false));
  }

  lemma QuantilePlaceholders(def: MetricDef, td: string, ms: seq<LabelMatch>, q: real)
    requires LabelsKnown(def, ms)
    ensures Exactly(DigestQuery(def, td, ScopeConds(def.timeCol) + LabelConds(def, ms, true)).query,
                    [Binding(Q, Num(q))] + LabelBinds(ms, true))
  {
    var conds, binds := ScopeConds(def.timeCol) + LabelConds(def, ms, true), LabelBinds(ms, true);
    var outer := DigestQuery(def, td, conds).query;
    CondsAppend(ScopeConds(def.timeCol), LabelConds(def, ms, true));
    ScopeParams(def.timeCol);
    LabelParams(def, ms, true);
    TablePlaceholders(outer.source.q, StartOfMinute(Col(def.timeCol)), def.labels, Column(td, Plain(Col(td))), binds);
    SelectParams(Plain(Col("t")), Aggregate(QuantileMerge(Q, td)), PassColumns(LabelNames(def.labels)));
    PassParams(LabelNames(def.labels));
    NamesAppend([Binding(Q, Num(q))], binds);
    NamesOne(Binding(Q, Num(q)));
    assert CondsParams([]) == {};
    hide CondsParams, NamesOf, ColumnsParams, ScopeConds, LabelConds, PassColumns, LabelNames;
    assert Placeholders(outer) == {Q} + Placeholders(outer.source.q);
  }

  lemma TopPlaceholders(inner: SqlNode, top: bool)
    ensures Placeholders(TopQuery(inner, top).query) == {ToS, K} + Placeholders(inner.query)
  {
    var ranked, outer := RankedQuery(inner, top), TopQuery(inner, top).query;
    SelectParams(Plain(ToDateTime(ParamRef(ToS))), Plain(Col("v")), PassColumns(inner.labels));
    PassParams(inner.labels);
    ColumnsAppend([Column("v", Aggregate(SumOf("v")))], PassColumns(inner.labels));
    assert ColumnsParams(ranked.columns) == {} && ColumnsParams(outer.columns) == {ToS};
    assert Placeholders(ranked) == {K} + Placeholders(inner.query);
    assert Placeholders(outer) == {ToS} + Placeholders(ranked);
  }

  lemma TopExactly(inner: SqlNode, top: bool, b: Binding, used: seq<Binding>)
    requires Exactly(inner.query, used) && b.name == K
    ensures Exactly(TopQuery(inner, top).query, [b] + used)
  {
    TopPlaceholders(inner, top);
    NamesAppend([b], used);
    NamesOne(b);
    hide NamesOf, Placeholders, TopQuery;
  }

  lemma RatePlaceholders(inner: SqlNode, perSecond: bool)
    ensures Placeholders(RateQuery(inner, perSecond).query)
         == (if perSecond then {StepS} else {}) + Placeholders(inner.query)
  {
    var denom := if perSecond then Greatest(ParamRef(StepS), Literal(1.0)) else Literal(1.0);
    SelectParams(Plain(Col("t")), Plain(Arith(Div, Col("v"), denom)), PassColumns(inner.labels));
    PassParams(inner.labels);
  }

  lemma AggPlaceholders(op: AggOp, grouping: Option<Regroup>, inner: SqlNode)
    requires AggregationNode(op, grouping, inner).Ok?
    ensures Placeholders(AggregationNode(op, grouping, inner).value.query) == Placeholders(inner.query)
  {
    var labels := GroupLabels(grouping, inner.labels);
    SelectParams(Plain(Col("t")), Aggregate(AggOf(op)), PassColumns(labels));
    PassParams(labels);
  }

  lemma JoinPlaceholders(op: ArithOp, l: SqlNode, r: SqlNode)
    ensures Placeholders(BinaryQuery(op, l, r).query) == Placeholders(l.query) + Placeholders(r.query)
  {
    var q := BinaryQuery(op, l, r).query;
    SelectParams(Plain(Col("l.t")), Plain(Arith(op, Col("l.v"), Col("r.v"))), []);
    assert q.columns + [] == q.columns && ColumnsParams(q.columns) == {} && CondsParams(q.conds) == {};
  }

  lemma NumberPlaceholders(x: real)
    ensures Placeholders(NumberQuery(x).query) == {ToS}
  {
    var q := NumberQuery(x).query;
    SelectParams(Plain(ToDateTime(ParamRef(ToS))), Plain(Literal(x)), []);
    assert q.columns + [] == q.columns && ColumnsParams(q.columns) == {ToS} && CondsParams(q.conds) == {};
  }

  lemma {:induction false} PlaceholdersExactly(e: Expr)
    requires Compile(e).Ok?
    ensures Exactly(Compile(e).value.query, Uses(e))
    decreases e
  {
    hide NamesOf, Placeholders, MetricRegistry, LabelBinds, LabelConds, ScopeConds, PassColumns, VectorNode;
    match e
    case Vector(v) => VectorPlaceholders(v);
    case Func(name, args) =>
      if IsRate(name) {
        VectorPlaceholders(args[0].vec);
        RatePlaceholders(VectorNode(args[0].vec).value, name != "increase");
      } else if name == "histogram_quantile" {
        var v := args[1].vec;
        var def := MetricRegistry(v.name).value;
        QuantilePlaceholders(def, def.tdigestCol.value, v.labels, args[0].v);
      } else {
        PlaceholdersExactly(args[1]);
        TopExactly(Compile(args[1]).value, name == "topk", Binding(K, Int(ToU32(args[0].v))), Uses(args[1]));
      }
    case Aggregation(op, grouping, inner) =>
      PlaceholdersExactly(inner);
      AggPlaceholders(op, grouping, Compile(inner).value);
    case Binary(l, op, r) =>
      PlaceholdersExactly(l);
      PlaceholdersExactly(r);
      NamesAppend(Uses(l), Uses(r));
      JoinPlaceholders(op, Compile(l).value, Compile(r).value);
    case Number(x) =>
      NumberPlaceholders(x);
      NoNames();
  }

  lemma NoNames()
    ensures NamesOf([]) == {}
  {
  }

  /** Every placeholder of the query has a value in the map that is returned with it. */
  lemma QueriesAreClosed(e: Expr, ctx: CompileCtx)
    requires Compile(e).Ok?
    ensures Placeholders(Compile(e).value.query) <= Final(e, ctx).Keys
  {
    PlaceholdersExactly(e);
    UsesAreBinds(e);
    FinalCovers(e, ctx);
    BindsProper(e);
    forall n | n in Placeholders(Compile(e).value.query) ensures n in Final(e, ctx) {
      if IsBase(n) {
        Unbound(BaseParams(ctx), Binds(e), n);
      } else {
        var b :| b in Uses(e) && b.name == n;
      }
    }
  }

  // ----- what placeholders mean -----

  ghost predicate Same(P: Params, P': Params, names: set<ParamName>) {
    forall n :: n in names ==> GetParam(P, n) == GetParam(P', n)
  }

  lemma {:induction false} ScalarDepends(e: Scalar, row: Row, P: Params, P': Params, w: World)
    requires Same(P, P', ScalarParams(e))
    ensures EvalScalar(e, row, P, w) == EvalScalar(e, row, P', w)
  {
    match e
    case Col(_) =>
    case ParamRef(p) => assert p in ScalarParams(e);
    case Literal(_) =>
    case StartOfMinute(a) => ScalarDepends(a, row, P, P', w);
    case JsonString(a, _) => ScalarDepends(a, row, P, P', w);
    case ToDateTime(a) => ScalarDepends(a, row, P, P', w);
    case Greatest(a, b) =>
      ScalarDepends(a, row, P, P', w);
      ScalarDepends(b, row, P, P', w);
    case Arith(_, a, b) =>
      ScalarDepends(a, row, P, P', w);
      ScalarDepends(b, row, P, P', w);
  }

  lemma {:induction false} CondsDepend(cs: seq<Cond>, row: Row, P: Params, P': Params, w: World)
    requires Same(P, P', CondsParams(cs))
    ensures AllHold(cs, row, P, w) == AllHold(cs, row, P', w)
  {
    if cs != [] {
      var c := cs[0];
      ScalarDepends(c.a, row, P, P', w);
      ScalarDepends(if c.Match? || c.NotMatch? then c.pattern else c.b, row, P, P', w);
      CondsDepend(cs[1..], row, P, P', w);
    }
  }

  lemma {:induction false} FindParams(columns: seq<Column>, n: string)
    ensures ItemParams(Find(columns, n)) <= ColumnsParams(columns)
  {
    if columns != [] { FindParams(columns[1..], n); }
  }

  function Cell(columns: seq<Column>, n: string, row: Row, P: Params, w: World): Value {
    match Find(columns, n) case Plain(e) => EvalScalar(e, row, P, w) case Aggregate(_) => Null
  }

  lemma CellDepends(columns: seq<Column>, n: string, row: Row, P: Params, P': Params, w: World)
    requires Same(P, P', ColumnsParams(columns))
    ensures Cell(columns, n, row, P, w) == Cell(columns, n, row, P', w)
  {
    FindParams(columns, n);
    if Find(columns, n).Plain? { ScalarDepends(Find(columns, n).e, row, P, P', w); }
  }

  lemma ProjectDepends(columns: seq<Column>, row: Row, P: Params, P': Params, w: World)
    requires Same(P, P', ColumnsParams(columns))
    ensures Project(columns, row, P, w) == Project(columns, row, P', w)
  {
    var a, b := Project(columns, row, P, w), Project(columns, row, P', w);
    forall n | n in a ensures a[n] == b[n] {
      CellDepends(columns, n, row, P, P', w);
    }
  }

  lemma KeyDepends(columns: seq<Column>, cols: seq<string>, row: Row, P: Params, P': Params, w: World)
    requires Same(P, P', ColumnsParams(columns))
    ensures KeyOf(columns, cols, row, P, w) == KeyOf(columns, cols, row, P', w)
  {
    var a, b := KeyOf(columns, cols, row, P, w), KeyOf(columns, cols, row, P', w);
    forall n | n in a ensures a[n] == b[n] {
      CellDepends(columns, n, row, P, P', w);
    }
  }

  lemma AggDepends(a: Agg, rows: seq<Row>, P: Params, P': Params, w: World)
    requires Same(P, P', ItemParams(Aggregate(a)))
    ensures EvalAgg(a, rows, P, w) == EvalAgg(a, rows, P', w)
  {
    if a.QuantileMerge? { assert a.level in ItemParams(Aggregate(a)); }
  }

  lemma SummaryDepends(columns: seq<Column>, g: Group<Row, Row>, P: Params, P': Params, w: World)
    requires Same(P, P', ColumnsParams(columns))
    ensures Summary(columns, g, P, w) == Summary(columns, g, P', w)
  {
    var a, b := Summary(columns, g, P, w), Summary(columns, g, P', w);
    hide EvalAgg, Find, ColumnsParams;
    forall n | n in a ensures a[n] == b[n] {
      FindParams(columns, n);
      if Find(columns, n).Aggregate? { AggDepends(Find(columns, n).a, g.members, P, P', w); }
    }
  }

  lemma GroupedDepends(q: Query, rows: seq<Row>, P: Params, P': Params, w: World)
    requires Same(P, P', ColumnsParams(q.columns))
    ensures Grouped(q, rows, P, w) == Grouped(q, rows, P', w)
  {
    match q.grouping
    case Ungrouped =>
      forall row ensures Projects(q.columns, P, w)(row) == Projects(q.columns, P', w)(row) {
        ProjectDepends(q.columns, row, P, P', w);
      }
      hide Project;
      MapCongruent(rows, Projects(q.columns, P, w), Projects(q.columns, P', w));
    case GroupBy(cols) =>
      forall row ensures KeyedBy(q.columns, cols, P, w)(row) == KeyedBy(q.columns, cols, P', w)(row) {
        KeyDepends(q.columns, cols, row, P, P', w);
      }
      forall g ensures Summarizes(q.columns, P, w)(g) == Summarizes(q.columns, P', w)(g) {
        SummaryDepends(q.columns, g, P, P', w);
      }
      hide KeyOf, Summary;
      GroupsCongruent(rows, KeyedBy(q.columns, cols, P, w), KeyedBy(q.columns, cols, P', w));
      MapCongruent(Groups(rows, KeyedBy(q.columns, cols, P, w)), Summarizes(q.columns, P, w), Summarizes(q.columns, P', w));
    case SingleGroup => SummaryDepends(q.columns, Group(map[], rows), P, P', w);
  }

  lemma {:induction false} SourceDepends(s: Source, P: Params, P': Params, w: World)
    requires Same(P, P', SourceParams(s))
    ensures Rows(s, P, w) == Rows(s, P', w)
    decreases s
  {
    match s
    case SubQuery(q) => EvaluateDepends(q, P, P', w);
    case Join(l, r, _) =>
      EvaluateDepends(l, P, P', w);
      EvaluateDepends(r, P, P', w);
    case _ =>
  }

  /** A query's value depends on its placeholders and on nothing else in the map. */
  lemma {:induction false} EvaluateDepends(q: Query, P: Params, P': Params, w: World)
    requires Same(P, P', Placeholders(q))
    ensures Evaluate(q, P, w) == Evaluate(q, P', w)
    decreases q
  {
    SourceDepends(q.source, P, P', w);
    var rows := Rows(q.source, P, w);
    forall row ensures Keeps(q.conds, P, w)(row) == Keeps(q.conds, P', w)(row) {
      CondsDepend(q.conds, row, P, P', w);
    }
    hide AllHold;
    FilterCongruent(rows, Keeps(q.conds, P, w), Keeps(q.conds, P', w));
    GroupedDepends(q, Filter(rows, Keeps(q.conds, P, w)), P, P', w);
  }

  // ----- columns of a compiled query -----

  ghost predicate Scoped(node: SqlNode) {
    WellScoped(node.query) && Names(node.query.columns) == {"t", "v"} + LabelSet(node.labels)
  }

  lemma EventScoped(conds: seq<Cond>)
    ensures Scoped(EventQuery(conds))
  {
    var labels := [("event_name", "event_name")];
    OneLabel("event_name", "event_name");
    TableSelect(Plain(StartOfMinute(Col("block_time"))), "v", Aggregate(CountRows), labels);
    assert LabelColumns(labels) == [Column("event_name", Plain(Col("event_name")))];
    assert EventQuery(conds).query.columns
        == [Column("t", Plain(StartOfMinute(Col("block_time"))))] + LabelColumns(labels) + [Column("v", Aggregate(CountRows))];
  }

  lemma MetricScoped(def: MetricDef, conds: seq<Cond>)
    requires DistinctLabels(def.labels) && Clean(LabelNames(def.labels))
    requires def.value.CountMerge? || def.value.SumMerge? || def.value.SumOf? || def.value.AvgOf? || def.value.CountRows?
    ensures Scoped(MetricQuery(def, conds))
  {
    TableSelect(Plain(StartOfMinute(Col(def.timeCol))), "v", Aggregate(def.value), def.labels);
  }

  lemma VectorScoped(v: VectorExpr)
    requires VectorNode(v).Ok?
    ensures Scoped(VectorNode(v).value)
  {
    if v.name == EVENT {
      hide EventQuery, Scoped;
      EventScoped(EventConds(v.labels));
    } else {
      var def := MetricRegistry(v.name).value;
      RegistryFacts(v.name);
      hide MetricRegistry, MetricQuery, Scoped, MetricConds;
      MetricScoped(def, MetricConds(def, v));
    }
  }

  /** A select list that passes labels on reads only what is below it. */
  lemma PassReads(t: Item, v: Item, labels: seq<string>, below: set<string>)
    requires LabelSet(labels) <= below && ItemCols(t) + ItemCols(v) <= below
    ensures forall c, n :: c in [Column("t", t), Column("v", v)] + PassColumns(labels) && n in ItemCols(c.item) ==> n in below
  {
    forall c, n | c in [Column("t", t), Column("v", v)] + PassColumns(labels) && n in ItemCols(c.item) ensures n in below {
      if c in PassColumns(labels) {
        assert c.name in labels && n == c.name;
        assert n in LabelSet(labels);
      }
    }
  }

  /** A query over another one's output that passes labels on. */
  lemma PassScoped(q: Query, inner: SqlNode, labels: seq<string>, t: Item, v: Item)
    requires Scoped(inner) && Clean(labels) && LabelSet(labels) <= LabelSet(inner.labels)
    requires q.source == SubQuery(inner.query) && q.conds == []
    requires q.columns == [Column("t", t), Column("v", v)] + PassColumns(labels)
    requires ItemCols(t) + ItemCols(v) <= {"t", "v"} && t.Plain?
    requires q.grouping == Ungrouped || q.grouping == GroupBy(["t"] + labels)
    requires q.order == OrderBy("t", false)
    ensures Scoped(SqlNode(q, labels))
  {
    PassSelect(t, v, labels);
    PassReads(t, v, labels, Names(inner.query.columns));
  }

  lemma RateScoped(inner: SqlNode, perSecond: bool)
    requires Scoped(inner) && Clean(inner.labels)
    ensures Scoped(RateQuery(inner, perSecond))
  {
    var denom := if perSecond then Greatest(ParamRef(StepS), Literal(1.0)) else Literal(1.0);
    PassScoped(RateQuery(inner, perSecond).query, inner, inner.labels, Plain(Col("t")), Plain(Arith(Div, Col("v"), denom)));
  }

  lemma TableScoped(q: Query)
    requires q.source.Table? && q.grouping == Ungrouped && q.order == AnyOrder
    ensures WellScoped(q)
  {
  }

  lemma QuantileScoped(def: MetricDef, td: string, conds: seq<Cond>)
    requires DistinctLabels(def.labels) && Clean(LabelNames(def.labels))
    requires td !in LabelNames(def.labels) && td != "t" && td != "v"
    ensures Scoped(DigestQuery(def, td, conds))
  {
    var labels, q := LabelNames(def.labels), DigestQuery(def, td, conds).query;
    TableSelect(Plain(StartOfMinute(Col(def.timeCol))), td, Plain(Col(td)), def.labels);
    TableScoped(q.source.q);
    PassSelect(Plain(Col("t")), Aggregate(QuantileMerge(Q, td)), labels);
    assert SourceScoped(q.source);
    hide Find, Names, SourceScoped;
    PassReads(Plain(Col("t")), Aggregate(QuantileMerge(Q, td)), labels, Names(q.source.q.columns));
  }

  lemma RankedScoped(inner: SqlNode, top: bool)
    requires Scoped(inner) && Clean(inner.labels)
    ensures WellScoped(RankedQuery(inner, top)) && Names(RankedQuery(inner, top).columns) == {"v"} + LabelSet(inner.labels)
  {
    var q := RankedQuery(inner, top);
    DslQueries.RankedSelect(inner.labels);
    forall c, n | c in q.columns && n in ItemCols(c.item) ensures n in Names(inner.query.columns) {
      if c in PassColumns(inner.labels) {
        assert c.name in inner.labels && n == c.name;
        assert n in LabelSet(inner.labels);
      }
    }
  }

  lemma TopScoped(inner: SqlNode, top: bool)
    requires Scoped(inner) && Clean(inner.labels)
    ensures Scoped(TopQuery(inner, top))
  {
    var q, labels := TopQuery(inner, top).query, inner.labels;
    RankedScoped(inner, top);
    PassSelect(Plain(ToDateTime(ParamRef(ToS))), Plain(Col("v")), labels);
    forall c, n | c in q.columns && n in ItemCols(c.item) ensures n in Names(q.source.q.columns) {
      if c in PassColumns(labels) {
        assert c.name in labels && n == c.name;
        assert n in LabelSet(labels);
      }
    }
  }

  lemma BinaryScoped(op: ArithOp, l: SqlNode, r: SqlNode)
    requires Scoped(l) && Scoped(r)
    ensures Scoped(BinaryQuery(op, l, r))
  {
    var q := BinaryQuery(op, l, r).query;
    assert q.columns + PassColumns([]) == q.columns;
    PassSelect(q.columns[0].item, q.columns[1].item, []);
    assert "l.t"[..2] == "l." && "l.t"[2..] == "t" && "l.v"[..2] == "l." && "l.v"[2..] == "v";
    assert "r.v"[..2] == "r." && "r.v"[2..] == "v";
  }

  /** Every column a query names is produced below it, and its output columns are t, v and the labels of the plan. */
  lemma {:induction false} QueriesAreScoped(e: Expr)
    requires Compile(e).Ok?
    ensures Scoped(Compile(e).value) && Clean(Compile(e).value.labels)
    decreases e
  {
    hide WellScoped, MetricRegistry, VectorNode;
    match e
    case Vector(v) =>
      LabelsAreClean(v);
      VectorScoped(v);
    case Func(name, args) =>
      if IsRate(name) {
        assert Compile(e) == RateNode(name, args);
        LabelsAreClean(args[0].vec);
        VectorScoped(args[0].vec);
        RateScoped(VectorNode(args[0].vec).value, name != "increase");
      } else if name == "histogram_quantile" {
        var v := args[1].vec;
        var def := MetricRegistry(v.name).value;
        RegistryFacts(v.name);
        QuantileScoped(def, def.tdigestCol.value, ScopeConds(def.timeCol) + LabelConds(def, v.labels, true));
      } else {
        QueriesAreScoped(args[1]);
        TopScoped(Compile(args[1]).value, name == "topk");
      }
    case Aggregation(op, grouping, inner) =>
      QueriesAreScoped(inner);
      var node, out := Compile(inner).value, Compile(e).value;
      assert forall l :: l in out.labels ==> l in node.labels;
      PassScoped(out.query, node, out.labels, Plain(Col("t")), Aggregate(AggOf(op)));
    case Binary(l, op, r) =>
      QueriesAreScoped(l);
      QueriesAreScoped(r);
      BinaryScoped(op, Compile(l).value, Compile(r).value);
    case Number(x) => NumberScoped(x);
  }

  lemma NumberScoped(x: real)
    ensures Scoped(NumberQuery(x))
  {
    var q := NumberQuery(x).query;
    assert q.columns + PassColumns([]) == q.columns;
    PassSelect(q.columns[0].item, q.columns[1].item, []);
  }

  lemma LabelsAreClean(v: VectorExpr)
    requires VectorNode(v).Ok?
    ensures Clean(VectorNode(v).value.labels)
  {
    OneLabel("event_name", "event_name");
    if v.name != EVENT { RegistryFacts(v.name); }
  }
}
