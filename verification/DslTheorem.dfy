/**
The compiler preserves meaning: what every compiled query evaluates to, and when that is the
expression as written.
*/
module DslTheorem {
  import opened Lists
  import opened Sql
  import opened Dsl
  import opened DslMeaning
  import opened DslCorrect
  import opened DslQueries

  // ----- a compiled query under any map that covers its placeholders -----

  lemma CoversParts(P: Params, a: seq<Binding>, b: seq<Binding>)
    requires Covers(P, a + b)
    ensures Covers(P, a) && Covers(P, b)
  {
    assert forall x :: x in a || x in b ==> x in a + b;
  }

  ghost predicate Correct(e: Expr, ctx: CompileCtx, P: Params, w: World)
    requires Compile(e).Ok?
  {
    var node, points := Compile(e).value, Denote(Rebind(e, P), ctx, w);
    && Evaluate(node.query, P, w) == Map(points, AsRow())
    && node.labels == LabelsOf(e) == LabelsOf(Rebind(e, P)) && Clean(node.labels) && Labeled(points, node.labels)
  }

  lemma RateCase(e: Expr, ctx: CompileCtx, P: Params, w: World)
    requires e.Func? && IsRate(e.name)
    requires Compile(e).Ok? && HasBase(P, ctx) && Covers(P, Binds(e))
    ensures Correct(e, ctx, P, w)
  {
    var v, name := e.args[0].vec, e.name;
    VectorCorrect(v, ctx, P, w);
    RateCorrect(VectorNode(v).value, VectorPoints(RebindVector(v, P), ctx, w), name != "increase", ctx, P, w);
    hide VectorNode, RateQuery, VectorPoints, RatePoints, Evaluate, HasBase, VectorBinds, RebindVector, MetricRegistry;
    assert Rebind(e, P) == Func(name, [Vector(RebindVector(v, P))]);
    assert VectorLabels(RebindVector(v, P)) == VectorLabels(v) by { RebindKeepsName(v, P); }
  }

  lemma RebindKeepsName(v: VectorExpr, P: Params)
    ensures RebindVector(v, P).name == v.name && VectorLabels(RebindVector(v, P)) == VectorLabels(v)
  {
  }

  /** What acceptance says about a quantile's arguments. */
  lemma QuantileAccepted(name: string, args: seq<Expr>, P: Params)
    requires name == "histogram_quantile" && QuantileNode(args).Ok? && Covers(P, Binds(Func(name, args)))
    ensures |args| == 2 && args[0].Number? && args[1].Vector? && MetricRegistry(args[1].vec.name).Some?
    ensures Covers(P, [Binding(Q, Num(args[0].v))] + VectorBinds(args[1].vec))
    ensures var v := args[1].vec; var def := MetricRegistry(v.name).value;
      && v.name != EVENT && def.tdigestCol.Some? && LabelsKnown(def, v.labels) && Covers(P, LabelBinds(v.labels, true))
      && QuantileNode(args).value == DigestQuery(def, def.tdigestCol.value,
                                                 ScopeConds(def.timeCol) + LabelConds(def, v.labels, true))
  {
    var v := args[1].vec;
    CoversParts(P, [Binding(Q, Num(args[0].v))] + VectorBinds(v), LabelBinds(v.labels, true));
  }

  lemma QuantileCase(e: Expr, ctx: CompileCtx, P: Params, w: World)
    requires e.Func? && e.name == "histogram_quantile" && !IsRate(e.name)
    requires Compile(e).Ok? && HasBase(P, ctx) && Covers(P, Binds(e))
    ensures Correct(e, ctx, P, w)
  {
    QuantileAccepted(e.name, e.args, P);
    var v := e.args[1].vec;
    var def := MetricRegistry(v.name).value;
    RegistryFacts(v.name);
    hide MetricRegistry, VectorNode, QuantileNode, DigestQuery, DigestPoints, Evaluate, Binds, Clean;
    DigestCorrect(def, def.tdigestCol.value, v.labels, ctx, P, w);
    hide HasBase, LabelConds, ScopeConds, RebindLabels, AsRow, Map;
  }

  lemma TopShape(e: Expr, ctx: CompileCtx, P: Params, w: World)
    requires e.Func? && IsTop(e.name) && |e.args| == 2 && e.args[0].Number? && Compile(e).Ok?
    ensures Compile(e.args[1]).Ok? && Compile(e).value == TopQuery(Compile(e.args[1]).value, e.name == "topk")
    ensures var inner := Rebind(e.args[1], P);
      && Rebind(e, P) == Func(e.name, [Number(IntIn(P, K) as real), inner])
      && LabelsOf(e) == LabelsOf(e.args[1]) && LabelsOf(Rebind(e, P)) == LabelsOf(inner)
      && Denote(Rebind(e, P), ctx, w)
         == TopPoints(e.name == "topk", ToU32(IntIn(P, K) as real), LabelsOf(inner), Time(ToSecs(ctx)), Denote(inner, ctx, w))
    ensures Binds(e) == [Binding(K, Int(ToU32(e.args[0].v)))] + Binds(e.args[1])
  {
    assert !IsRate(e.name) && |e.name| != |"histogram_quantile"|;
    hide TopQuery, TopPoints, ToU32, GetParam, ToSecs;
  }

  lemma CoversNumber(P: Params, k: Binding, bs: seq<Binding>)
    requires Covers(P, [k] + bs) && k.name == K
    ensures GetParam(P, K).Int? && 0 <= GetParam(P, K).i && ToU32(IntIn(P, K) as real) == IntIn(P, K)
  {
    CoversParts(P, [k], bs);
    assert k in [k];
  }

  lemma TopCase(e: Expr, ctx: CompileCtx, P: Params, w: World)
    requires e.Func? && IsTop(e.name) && |e.args| == 2 && e.args[0].Number?
    requires Compile(e).Ok? && HasBase(P, ctx) && Covers(P, Binds(e))
    requires Compile(e.args[1]).Ok? && Correct(e.args[1], ctx, P, w)
    ensures Correct(e, ctx, P, w)
  {
    TopShape(e, ctx, P, w);
    hide Compile, Rebind, Denote, LabelsOf, Binds, TopPoints, Evaluate, HasBase, Clean, Labeled, Map, AsRow;
    CoversNumber(P, Binding(K, Int(ToU32(e.args[0].v))), Binds(e.args[1]));
    hide Covers, GetParam, TopQuery;
    TopCorrect(Compile(e.args[1]).value, Denote(Rebind(e.args[1], P), ctx, w), e.name == "topk", ctx, P, w);
  }

  /** Every compiled query evaluates to the rows of its expression with the literals of the parameter map. */
  lemma {:induction false} EvalCompiled(e: Expr, ctx: CompileCtx, P: Params, w: World)
    requires Compile(e).Ok? && HasBase(P, ctx) && Covers(P, Binds(e))
    ensures Correct(e, ctx, P, w)
    decreases e
  {
    match e
    case Vector(v) =>
      VectorCorrect(v, ctx, P, w);
      RebindKeepsName(v, P);
    case Func(name, args) =>
      if IsRate(name) {
        RateCase(e, ctx, P, w);
      } else if name == "histogram_quantile" {
        QuantileCase(e, ctx, P, w);
      } else {
        CoversParts(P, [Binding(K, Int(ToU32(args[0].v)))], Binds(args[1]));
        EvalCompiled(args[1], ctx, P, w);
        TopCase(e, ctx, P, w);
      }
    case Aggregation(op, grouping, inner) =>
      EvalCompiled(inner, ctx, P, w);
      AggregationCorrect(op, grouping, Compile(inner).value, Denote(Rebind(inner, P), ctx, w), P, w);
    case Binary(l, op, r) =>
      CoversParts(P, Binds(l), Binds(r));
      EvalCompiled(l, ctx, P, w);
      EvalCompiled(r, ctx, P, w);
      BinaryCorrect(op, Compile(l).value, Compile(r).value, Denote(Rebind(l, P), ctx, w), Denote(Rebind(r, P), ctx, w), P, w);
    case Number(x) =>
      NumberCorrect(x, ctx, P, w);
  }

  // ----- the final map -----

  /** The parameters that `compile` returns with the query. */
  function Final(e: Expr, ctx: CompileCtx): Params { InsertAll(BaseParams(ctx), Binds(e)) }

  predicate IsBase(n: ParamName) {
    n.ProgramId? || n.Cluster? || n.FromS? || n.ToS? || n.StepMs? || n.StepS?
  }

  ghost predicate Proper(bs: seq<Binding>) {
    forall b :: b in bs ==> Kind(b.name, b.value) && !IsBase(b.name)
  }

  lemma {:induction false} LabelsProper(ms: seq<LabelMatch>, td: bool)
    ensures Proper(LabelBinds(ms, td))
  {
    if ms != [] { LabelsProper(ms[..|ms| - 1], td); }
  }

  lemma {:induction false} EventsProper(ms: seq<LabelMatch>)
    ensures Proper(EventBinds(ms))
  {
    if ms != [] { EventsProper(ms[..|ms| - 1]); }
  }

  lemma VectorProper(v: VectorExpr)
    ensures Proper(VectorBinds(v))
  {
    EventsProper(v.labels);
    LabelsProper(v.labels, false);
  }

  lemma {:induction false} BindsProper(e: Expr)
    ensures Proper(Binds(e))
    decreases e
  {
    match e
    case Vector(v) => VectorProper(v);
    case Func(name, args) =>
      if |args| == 1 && args[0].Vector? { VectorProper(args[0].vec); }
      if |args| == 2 && args[1].Vector? {
        VectorProper(args[1].vec);
        LabelsProper(args[1].vec.labels, true);
      }
      if IsTop(name) && |args| == 2 { BindsProper(args[1]); }
    case Aggregation(_, _, inner) => BindsProper(inner);
    case Binary(l, _, r) =>
      BindsProper(l);
      BindsProper(r);
    case Number(_) =>
  }

  /** A name that is not bound keeps its value. */
  lemma {:induction false} Unbound(P: Params, bs: seq<Binding>, n: ParamName)
    requires forall b :: b in bs ==> b.name != n
    ensures GetParam(InsertAll(P, bs), n) == GetParam(P, n) && (n in InsertAll(P, bs) <==> n in P)
  {
    if bs != [] {
      assert bs == bs[..|bs| - 1] + [bs[|bs| - 1]];
      Unbound(P, bs[..|bs| - 1], n);
    }
  }

  /** A name that is bound has the value of its last binding. */
  lemma {:induction false} LastBound(P: Params, bs: seq<Binding>, i: nat)
    requires i < |bs| && forall j :: i < j < |bs| ==> bs[j].name != bs[i].name
    ensures bs[i].name in InsertAll(P, bs) && InsertAll(P, bs)[bs[i].name] == bs[i].value
  {
    if i < |bs| - 1 {
      LastBound(P, bs[..|bs| - 1], i);
    }
  }

  ghost function LastOf(bs: seq<Binding>, n: ParamName): (i: nat)
    requires exists b :: b in bs && b.name == n
    ensures i < |bs| && bs[i].name == n && forall j :: i < j < |bs| ==> bs[j].name != n
  {
    if bs[|bs| - 1].name == n then |bs| - 1
    else
      assert bs == bs[..|bs| - 1] + [bs[|bs| - 1]];
      LastOf(bs[..|bs| - 1], n)
  }

  lemma FinalCovers(e: Expr, ctx: CompileCtx)
    ensures HasBase(Final(e, ctx), ctx) && Covers(Final(e, ctx), Binds(e))
  {
    BindsProper(e);
    forall n | IsBase(n) ensures GetParam(Final(e, ctx), n) == GetParam(BaseParams(ctx), n) {
      Unbound(BaseParams(ctx), Binds(e), n);
    }
    forall b | b in Binds(e) ensures b.name in Final(e, ctx) && Kind(b.name, Final(e, ctx)[b.name]) {
      LastBound(BaseParams(ctx), Binds(e), LastOf(Binds(e), b.name));
    }
  }

  lemma RowKeys(points: seq<Point>, labels: seq<string>)
    requires Labeled(points, labels)
    ensures forall row :: row in Map(points, AsRow()) ==> row.Keys == {"t", "v"} + LabelSet(labels)
  {
    var rows := Map(points, AsRow());
    forall row | row in rows ensures row.Keys == {"t", "v"} + LabelSet(labels) {
      var i :| 0 <= i < |rows| && rows[i] == row;
      assert points[i] in points;
    }
  }

  /** What every accepted expression's query returns under its own parameters: the last binding of a name wins. */
  lemma LastBindingWins(e: Expr, ctx: CompileCtx, w: World)
    requires Compile(e).Ok?
    ensures var P, node := Final(e, ctx), Compile(e).value;
      && Evaluate(node.query, P, w) == Map(Denote(Rebind(e, P), ctx, w), AsRow())
      && node.labels == LabelsOf(e) && "t" !in node.labels && "v" !in node.labels
      && forall row :: row in Evaluate(node.query, P, w) ==> row.Keys == {"t", "v"} + LabelSet(node.labels)
  {
    FinalCovers(e, ctx);
    hide Final, Binds, HasBase, Covers, Compile, Evaluate, Denote, Rebind, LabelsOf, Map, AsRow, Labeled;
    EvalCompiled(e, ctx, Final(e, ctx), w);
    RowKeys(Denote(Rebind(e, Final(e, ctx)), ctx, w), Compile(e).value.labels);
  }

  // ----- when the literals read back are the literals written -----

  /** The bindings whose placeholders the query holds: all but those a quantile's unused vector query leaves behind. */
  function Uses(e: Expr): seq<Binding>
    decreases e
  {
    match e
    case Func(name, args) =>
      if name == "histogram_quantile" && |args| == 2 && args[0].Number? && args[1].Vector? then
        [Binding(Q, Num(args[0].v))] + LabelBinds(args[1].vec.labels, true)
      else if IsTop(name) && |args| == 2 && args[0].Number? then
        [Binding(K, Int(ToU32(args[0].v)))] + Uses(args[1])
      else Binds(e)
    case Aggregation(_, _, inner) => Uses(inner)
    case Binary(l, _, r) => Uses(l) + Uses(r)
    case _ => Binds(e)
  }

  /** No two nodes bind one parameter to different values. */
  ghost predicate NoConflict(e: Expr) {
    forall b, c :: b in Binds(e) && c in Binds(e) && b.name == c.name ==> b.value == c.value
  }

  ghost predicate Agrees(P: Params, bs: seq<Binding>) {
    forall b :: b in bs ==> GetParam(P, b.name) == b.value
  }

  function Unranged(v: VectorExpr): VectorExpr { v.(rangeS := None) }

  function NormalVector(v: VectorExpr): VectorExpr { if v.name == EVENT then Unranged(v) else v }

  /** The expression without the ranges that queries drop, the number of a top or bottom the integer that counts. */
  function Normal(e: Expr): Expr
    decreases e
  {
    match e
    case Func(name, args) =>
      if IsRate(name) && |args| == 1 && args[0].Vector? then Func(name, [Vector(NormalVector(args[0].vec))])
      else if name == "histogram_quantile" && |args| == 2 && args[0].Number? && args[1].Vector? then
        Func(name, [args[0], Vector(Unranged(args[1].vec))])
      else if IsTop(name) && |args| == 2 && args[0].Number? then
        Func(name, [Number(ToU32(args[0].v) as real), Normal(args[1])])
      else e
    case Aggregation(op, grouping, inner) => Aggregation(op, grouping, Normal(inner))
    case Vector(v) => Vector(NormalVector(v))
    case Binary(l, op, r) => Binary(Normal(l), op, Normal(r))
    case Number(_) => e
  }

  // ----- ranges that queries drop -----

  /** No event selected without the range lies outside it. */
  ghost predicate EventsWithin(ms: seq<LabelMatch>, range: Option<int>, ctx: CompileCtx, w: World) {
    forall row :: row in TableRows(w, "events") && SelectsEvents(ms, None, ctx, w)(row) ==> InRange(row, "block_time", range, ctx)
  }

  /** No sample selected without the range lies outside it. */
  ghost predicate SamplesWithin(def: MetricDef, ms: seq<LabelMatch>, range: Option<int>, ctx: CompileCtx, w: World) {
    forall row :: row in TableRows(w, def.table) && Selects(def, ms, None, ctx, w)(row) ==> InRange(row, def.timeCol, range, ctx)
  }

  ghost predicate VectorIdle(v: VectorExpr, ctx: CompileCtx, w: World) {
    v.name == EVENT ==> EventsWithin(v.labels, v.rangeS, ctx, w)
  }

  /** In this database the ranges of event selectors and of quantiles leave nothing out. */
  ghost predicate RangesIdle(e: Expr, ctx: CompileCtx, w: World)
    decreases e
  {
    match e
    case Vector(v) => VectorIdle(v, ctx, w)
    case Func(name, args) =>
      if IsRate(name) && |args| == 1 && args[0].Vector? then VectorIdle(args[0].vec, ctx, w)
      else if name == "histogram_quantile" && |args| == 2 && args[0].Number? && args[1].Vector? then
        MetricRegistry(args[1].vec.name).Some? ==>
          SamplesWithin(MetricRegistry(args[1].vec.name).value, args[1].vec.labels, args[1].vec.rangeS, ctx, w)
      else if IsTop(name) && |args| == 2 && args[0].Number? then RangesIdle(args[1], ctx, w)
      else true
    case Aggregation(_, _, inner) => RangesIdle(inner, ctx, w)
    case Binary(l, _, r) => RangesIdle(l, ctx, w) && RangesIdle(r, ctx, w)
    case Number(_) => true
  }

  lemma IdleVector(v: VectorExpr, ctx: CompileCtx, w: World)
    requires VectorIdle(v, ctx, w)
    ensures VectorLabels(NormalVector(v)) == VectorLabels(v) && VectorPoints(NormalVector(v), ctx, w) == VectorPoints(v, ctx, w)
  {
    if v.name == EVENT {
      FilterCongruent(TableRows(w, "events"), SelectsEvents(v.labels, None, ctx, w), SelectsEvents(v.labels, v.rangeS, ctx, w));
    }
  }

  lemma IdleDigest(def: MetricDef, td: string, q: real, v: VectorExpr, ctx: CompileCtx, w: World)
    requires SamplesWithin(def, v.labels, v.rangeS, ctx, w)
    ensures DigestPoints(def, td, q, v.labels, None, ctx, w) == DigestPoints(def, td, q, v.labels, v.rangeS, ctx, w)
  {
    FilterCongruent(TableRows(w, def.table), Selects(def, v.labels, None, ctx, w), Selects(def, v.labels, v.rangeS, ctx, w));
  }

  ghost predicate NormalSame(e: Expr, ctx: CompileCtx, w: World) {
    LabelsOf(Normal(e)) == LabelsOf(e) && Denote(Normal(e), ctx, w) == Denote(e, ctx, w)
  }

  lemma NormalRate(name: string, v: VectorExpr, ctx: CompileCtx, w: World)
    requires IsRate(name) && VectorIdle(v, ctx, w)
    ensures NormalSame(Func(name, [Vector(v)]), ctx, w)
  {
    IdleVector(v, ctx, w);
    hide VectorLabels, VectorPoints, NormalVector, RatePoints;
  }

  lemma NormalQuantile(q: real, v: VectorExpr, ctx: CompileCtx, w: World)
    requires RangesIdle(Func("histogram_quantile", [Number(q), Vector(v)]), ctx, w)
    ensures NormalSame(Func("histogram_quantile", [Number(q), Vector(v)]), ctx, w)
  {
    var metric := MetricRegistry(v.name);
    hide MetricRegistry;
    if metric.Some? && metric.value.tdigestCol.Some? {
      IdleDigest(metric.value, metric.value.tdigestCol.value, q, v, ctx, w);
    }
    hide DigestPoints, SamplesWithin;
  }

  lemma NormalTop(name: string, k: real, inner: Expr, ctx: CompileCtx, w: World)
    requires IsTop(name) && NormalSame(inner, ctx, w)
    ensures NormalSame(Func(name, [Number(k), inner]), ctx, w)
  {
    assert ToU32(ToU32(k) as real) == ToU32(k);
    assert !IsRate(name) && |name| != |"histogram_quantile"|;
    hide ToU32, TopPoints, IsRate;
    var e, again := Func(name, [Number(k), inner]), Func(name, [Number(ToU32(k) as real), Normal(inner)]);
    assert Normal(e) == again;
    assert LabelsOf(again) == LabelsOf(Normal(inner)) && LabelsOf(e) == LabelsOf(inner);
  }

  /** What the queries drop without effect does not matter. */
  lemma {:induction false} NormalMeansTheSame(e: Expr, ctx: CompileCtx, w: World)
    requires RangesIdle(e, ctx, w)
    ensures LabelsOf(Normal(e)) == LabelsOf(e) && Denote(Normal(e), ctx, w) == Denote(e, ctx, w)
    decreases e
  {
    match e
    case Vector(v) => IdleVector(v, ctx, w);
    case Func(name, args) =>
      if IsRate(name) && |args| == 1 && args[0].Vector? {
        assert args == [Vector(args[0].vec)];
        NormalRate(name, args[0].vec, ctx, w);
      } else if name == "histogram_quantile" && |args| == 2 && args[0].Number? && args[1].Vector? {
        assert args == [Number(args[0].v), Vector(args[1].vec)];
        NormalQuantile(args[0].v, args[1].vec, ctx, w);
      } else if IsTop(name) && |args| == 2 && args[0].Number? {
        assert args == [Number(args[0].v), args[1]];
        NormalMeansTheSame(args[1], ctx, w);
        NormalTop(name, args[0].v, args[1], ctx, w);
      }
    case Aggregation(_, _, inner) => NormalMeansTheSame(inner, ctx, w);
    case Binary(l, _, r) =>
      NormalMeansTheSame(l, ctx, w);
      NormalMeansTheSame(r, ctx, w);
    case Number(_) =>
  }

  /** Reading the literals back from the map gives the literals written. */
  predicate ReadsBack(e: Expr, P: Params) { Rebind(e, P) == Normal(e) }

  lemma RebindSnoc(ms: seq<LabelMatch>, td: bool, P: Params)
    requires ms != []
    ensures var n := |ms| - 1;
      RebindLabels(ms, P, td) == RebindLabels(ms[..n], P, td) + [ms[n].(value := TextIn(P, LabelParam(td, n)))]
  {
  }

  /** One more matcher: reading back all is reading back the others and the last. */
  lemma LastReadsBack(ms: seq<LabelMatch>, all: seq<LabelMatch>, again: seq<LabelMatch>, b: Binding, binds: seq<Binding>, P: Params)
    requires ms != [] && |again| == |ms| - 1
    requires b.value == Str(ms[|ms| - 1].value) && GetParam(P, b.name).Str?
    requires all == again + [ms[|ms| - 1].(value := TextIn(P, b.name))]
    requires again == ms[..|ms| - 1] <==> Agrees(P, binds)
    ensures all == ms <==> Agrees(P, binds + [b])
  {
    AgreesAppend(P, binds, [b]);
    AgreesOne(P, b);
    hide Agrees;
    var init, m := ms[..|ms| - 1], ms[|ms| - 1];
    assert ms == init + [m];
    Snocs(again, m.(value := TextIn(P, b.name)), init, m);
  }

  lemma {:induction false} LabelsReadBack(ms: seq<LabelMatch>, td: bool, P: Params)
    requires Covers(P, LabelBinds(ms, td))
    ensures RebindLabels(ms, P, td) == ms <==> Agrees(P, LabelBinds(ms, td))
  {
    if ms != [] {
      var n := |ms| - 1;
      var b := Binding(LabelParam(td, n), Str(ms[n].value));
      CoversInit(P, LabelBinds(ms[..n], td), b);
      LabelsReadBack(ms[..n], td, P);
      RebindSnoc(ms, td, P);
      hide Covers, Agrees, RebindLabels, TextIn;
      LastReadsBack(ms, RebindLabels(ms, P, td), RebindLabels(ms[..n], P, td), b, LabelBinds(ms[..n], td), P);
    }
  }

  lemma Snocs<A(!new)>(a: seq<A>, x: A, b: seq<A>, y: A)
    requires |a| == |b|
    ensures a + [x] == b + [y] <==> a == b && x == y
  {
    if a + [x] == b + [y] {
      assert a == (a + [x])[..|a|] && x == (a + [x])[|a|];
      assert b == (b + [y])[..|b|] && y == (b + [y])[|b|];
    }
  }

  lemma AgreesAppend(P: Params, a: seq<Binding>, b: seq<Binding>)
    ensures Agrees(P, a + b) <==> Agrees(P, a) && Agrees(P, b)
  {
    assert forall x :: x in a + b <==> x in a || x in b;
  }

  lemma AgreesOne(P: Params, b: Binding)
    ensures Agrees(P, [b]) <==> GetParam(P, b.name) == b.value
  {
    assert b in [b];
  }

  lemma RebindEventSnoc(ms: seq<LabelMatch>, P: Params)
    requires ms != []
    ensures var n := |ms| - 1;
      RebindEvents(ms, P) == RebindEvents(ms[..n], P) + [ms[n].(value := TextIn(P, EventParam(ms[n], n)))]
  {
  }

  lemma {:induction false} EventsReadBack(ms: seq<LabelMatch>, P: Params)
    requires Covers(P, EventBinds(ms))
    ensures RebindEvents(ms, P) == ms <==> Agrees(P, EventBinds(ms))
  {
    if ms != [] {
      var n := |ms| - 1;
      var b := Binding(EventParam(ms[n], n), Str(ms[n].value));
      CoversInit(P, EventBinds(ms[..n]), b);
      EventsReadBack(ms[..n], P);
      RebindEventSnoc(ms, P);
      hide Covers, Agrees, RebindEvents, TextIn;
      LastReadsBack(ms, RebindEvents(ms, P), RebindEvents(ms[..n], P), b, EventBinds(ms[..n]), P);
    }
  }

  lemma VectorReadsBack(v: VectorExpr, P: Params)
    requires Covers(P, VectorBinds(v))
    ensures RebindVector(v, P) == NormalVector(v) <==> Agrees(P, VectorBinds(v))
  {
    if v.name == EVENT {
      EventsReadBack(v.labels, P);
    } else {
      CoversParts(P, RangeBinds(v), LabelBinds(v.labels, false));
      LabelsReadBack(v.labels, false, P);
      AgreesAppend(P, RangeBinds(v), LabelBinds(v.labels, false));
      if v.rangeS.Some? {
        assert Binding(RangeS, Int(v.rangeS.value)) in RangeBinds(v);
        AgreesOne(P, Binding(RangeS, Int(v.rangeS.value)));
      }
    }
  }

  lemma QuantileReadsBack(q: real, v: VectorExpr, P: Params)
    requires Covers(P, [Binding(Q, Num(q))]) && Covers(P, LabelBinds(v.labels, true))
    ensures [Number(NumOf(GetParam(P, Q))), Vector(v.(labels := RebindLabels(v.labels, P, true), rangeS := None))]
          == [Number(q), Vector(Unranged(v))]
      <==> Agrees(P, [Binding(Q, Num(q))] + LabelBinds(v.labels, true))
  {
    var b := Binding(Q, Num(q));
    assert b in [b];
    LabelsReadBack(v.labels, true, P);
    AgreesAppend(P, [b], LabelBinds(v.labels, true));
    AgreesOne(P, b);
    hide Covers, Agrees, RebindLabels, LabelBinds;
    Pairs(Number(NumOf(GetParam(P, Q))), Vector(v.(labels := RebindLabels(v.labels, P, true), rangeS := None)), Number(q), Vector(Unranged(v)));
  }

  lemma Pairs<A>(a: A, b: A, c: A, d: A)
    ensures [a, b] == [c, d] <==> a == c && b == d
  {
    if [a, b] == [c, d] { assert a == [a, b][0] == c && b == [a, b][1] == d; }
  }

  ghost predicate ReadsBackIff(e: Expr, P: Params) { ReadsBack(e, P) <==> Agrees(P, Uses(e)) }

  lemma QuantileExprReadsBack(e: Expr, P: Params)
    requires e.Func? && e.name == "histogram_quantile" && !IsRate(e.name)
    requires Compile(e).Ok? && Covers(P, Binds(e))
    ensures ReadsBackIff(e, P)
  {
    hide ToU32, MetricRegistry, DigestQuery, LabelsKnown;
    QuantileAccepted(e.name, e.args, P);
    var q, v := e.args[0].v, e.args[1].vec;
    CoversParts(P, [Binding(Q, Num(q))], VectorBinds(v));
    QuantileReadsBack(q, v, P);
    hide QuantileNode, Covers, Agrees, VectorBinds, LabelBinds, RebindLabels, Compile, GetParam;
    assert e.args == [Number(q), Vector(v)];
    assert Rebind(e, P) == Func(e.name, [Number(NumOf(GetParam(P, Q))), Vector(v.(labels := RebindLabels(v.labels, P, true), rangeS := None))]);
    assert Normal(e) == Func(e.name, [Number(q), Vector(Unranged(v))]);
  }

  lemma TopReadsBack(e: Expr, P: Params)
    requires e.Func? && IsTop(e.name) && |e.args| == 2 && e.args[0].Number?
    requires Covers(P, Binds(e)) && ReadsBackIff(e.args[1], P)
    ensures ReadsBackIff(e, P)
  {
    var k, inner := e.args[0].v, e.args[1];
    var b := Binding(K, Int(ToU32(k)));
    assert !IsRate(e.name) && e.name != "histogram_quantile" && b in Binds(e);
    AgreesAppend(P, [b], Uses(inner));
    AgreesOne(P, b);
    hide Covers, Agrees, ToU32;
    assert IntIn(P, K) as real == ToU32(k) as real <==> IntIn(P, K) == ToU32(k);
    Pairs(Number(IntIn(P, K) as real), Rebind(inner, P), Number(ToU32(k) as real), Normal(inner));
  }

  /** The literals read back are those written exactly when the map gives every placeholder in the query the literal's value. */
  lemma {:induction false} ReadsBackWhen(e: Expr, P: Params)
    requires Compile(e).Ok? && Covers(P, Binds(e))
    ensures ReadsBackIff(e, P)
    decreases e
  {
    match e
    case Vector(v) => VectorReadsBack(v, P);
    case Func(name, args) =>
      if IsRate(name) {
        VectorReadsBack(args[0].vec, P);
        assert args == [args[0]];
      } else if name == "histogram_quantile" {
        QuantileExprReadsBack(e, P);
      } else {
        CoversParts(P, [Binding(K, Int(ToU32(args[0].v)))], Binds(args[1]));
        ReadsBackWhen(args[1], P);
        TopReadsBack(e, P);
      }
    case Aggregation(_, _, inner) => ReadsBackWhen(inner, P);
    case Binary(l, _, r) =>
      CoversParts(P, Binds(l), Binds(r));
      ReadsBackWhen(l, P);
      ReadsBackWhen(r, P);
      AgreesAppend(P, Uses(l), Uses(r));
    case Number(_) =>
  }

  // ----- the theorem -----

  /** Later inserts do not disturb earlier ones: without conflicts every binding is still there at the end. */
  lemma NoConflictKeepsAll(e: Expr, ctx: CompileCtx)
    requires NoConflict(e)
    ensures Agrees(Final(e, ctx), Binds(e))
  {
    forall b | b in Binds(e) ensures GetParam(Final(e, ctx), b.name) == b.value {
      LastBound(BaseParams(ctx), Binds(e), LastOf(Binds(e), b.name));
      var c := Binds(e)[LastOf(Binds(e), b.name)];
      assert c in Binds(e);
    }
  }

  lemma {:induction false} UsesAreBinds(e: Expr)
    ensures forall b :: b in Uses(e) ==> b in Binds(e)
    decreases e
  {
    match e
    case Func(name, args) => if IsTop(name) && |args| == 2 { UsesAreBinds(args[1]); }
    case Aggregation(_, _, inner) => UsesAreBinds(inner);
    case Binary(l, _, r) =>
      UsesAreBinds(l);
      UsesAreBinds(r);
    case _ =>
  }

  /** Compiling preserves meaning in a database whenever the final map has every literal and no dropped range matters. */
  lemma CompilePreservesMeaning(e: Expr, ctx: CompileCtx, w: World)
    requires Compile(e).Ok? && Agrees(Final(e, ctx), Uses(e)) && RangesIdle(e, ctx, w)
    ensures Evaluate(Compile(e).value.query, Final(e, ctx), w) == Map(Denote(e, ctx, w), AsRow())
  {
    FinalCovers(e, ctx);
    ReadsBackWhen(e, Final(e, ctx));
    NormalMeansTheSame(e, ctx, w);
    LastBindingWins(e, ctx, w);
  }

  /** In particular, when no two nodes bind one parameter to different values. */
  lemma PreservedWithoutConflict(e: Expr, ctx: CompileCtx, w: World)
    requires Compile(e).Ok? && NoConflict(e) && RangesIdle(e, ctx, w)
    ensures Evaluate(Compile(e).value.query, Final(e, ctx), w) == Map(Denote(e, ctx, w), AsRow())
  {
    NoConflictKeepsAll(e, ctx);
    UsesAreBinds(e);
    CompilePreservesMeaning(e, ctx, w);
  }

  ghost predicate IsLast(bs: seq<Binding>, i: nat, n: ParamName) {
    i < |bs| && bs[i].name == n && forall j :: i < j < |bs| ==> bs[j].name != n
  }

  /** The last binding of u's name has u's value. */
  ghost predicate LastHas(bs: seq<Binding>, u: Binding) {
    forall i: nat :: IsLast(bs, i, u.name) ==> bs[i].value == u.value
  }

  lemma LastDecides(P: Params, bs: seq<Binding>, u: Binding)
    requires u in bs
    ensures GetParam(InsertAll(P, bs), u.name) == u.value <==> LastHas(bs, u)
  {
    assert IsLast(bs, LastOf(bs, u.name), u.name);
    LastBound(P, bs, LastOf(bs, u.name));
  }

  lemma LastsDecide(P: Params, bs: seq<Binding>, us: seq<Binding>)
    requires forall u :: u in us ==> u in bs
    ensures Agrees(InsertAll(P, bs), us) <==> forall u :: u in us ==> LastHas(bs, u)
  {
    hide LastHas, InsertAll, GetParam;
    forall u | u in us ensures GetParam(InsertAll(P, bs), u.name) == u.value <==> LastHas(bs, u) {
      LastDecides(P, bs, u);
    }
  }

  /** The literals read back are those written iff the last binding of each name used has every use's value; enough for the meaning, not needed for it. */
  lemma ReadsAsWrittenWhen(e: Expr, ctx: CompileCtx)
    requires Compile(e).Ok?
    ensures ReadsBack(e, Final(e, ctx)) <==> forall u :: u in Uses(e) ==> LastHas(Binds(e), u)
  {
    hide ReadsBack, Compile, Agrees, LastHas, Uses, Binds, InsertAll, Covers, HasBase, BaseParams;
    FinalCovers(e, ctx);
    ReadsBackWhen(e, Final(e, ctx));
    UsesAreBinds(e);
    LastsDecide(BaseParams(ctx), Binds(e), Uses(e));
    assert ReadsBack(e, Final(e, ctx)) <==> Agrees(Final(e, ctx), Uses(e));
    assert Final(e, ctx) == InsertAll(BaseParams(ctx), Binds(e));
  }
}
