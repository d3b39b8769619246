/** Every query returns its rows in the order of their times. */
module DslOrder {
  import opened Lists
  import opened Sql
  import opened Dsl
  import opened DslMeaning
  import opened DslCorrect
  import opened DslQueries
  import opened DslTheorem
  import opened DslRows
  import opened DslCombines

  ghost predicate Timely(points: seq<Point>) { forall p :: p in points ==> p.t.Time? }

  ghost predicate Ascending(points: seq<Point>) {
    Timely(points) && forall i, j :: 0 <= i < j < |points| ==> points[i].t.secs <= points[j].t.secs
  }

  lemma AscendingSnoc(points: seq<Point>, x: Point)
    requires Ascending(points) && x.t.Time? && forall p :: p in points ==> p.t.secs <= x.t.secs
    ensures Ascending(points + [x])
  {
    assert forall i :: 0 <= i < |points| ==> points[i] in points;
  }

  lemma AscendingInit(points: seq<Point>)
    requires Ascending(points) && points != []
    ensures var init, last := points[..|points| - 1], points[|points| - 1];
      Ascending(init) && last.t.Time? && forall p :: p in points ==> p.t.secs <= last.t.secs
  {
    assert points[|points| - 1] in points;
  }

  lemma {:induction false} InsertAscending(ys: seq<Point>, x: Point)
    requires Ascending(ys) && x.t.Time?
    ensures Ascending(InsertSorted(ys, x, Earlier()))
  {
    if ys != [] {
      var init, last := ys[..|ys| - 1], ys[|ys| - 1];
      AscendingInit(ys);
      assert ys == init + [last];
      InsertMembers(init, x, Earlier());
      hide Ascending;
      if Earlier()(x, last) {
        InsertAscending(init, x);
        AscendingSnoc(InsertSorted(init, x, Earlier()), last);
      } else {
        AscendingSnoc(ys, x);
      }
    } else {
      AscendingSnoc(ys, x);
    }
  }

  lemma {:induction false} SortAscending(xs: seq<Point>)
    requires Timely(xs)
    ensures Ascending(Sort(xs, Earlier()))
  {
    if xs != [] {
      var init, last := xs[..|xs| - 1], xs[|xs| - 1];
      assert last in xs && forall p :: p in init ==> p in xs;
      SortAscending(init);
      InsertAscending(Sort(init, Earlier()), last);
    }
  }

  // ----- all times are times -----

  lemma MadeTimely<A(!new)>(xs: seq<A>, key: A -> PointKey, make: Group<PointKey, A> -> Point)
    requires (forall x :: x in xs ==> key(x).t.Time?) && forall g :: make(g).t == g.key.t
    ensures Timely(Map(Groups(xs, key), make))
  {
    var gs := Groups(xs, key);
    forall p | p in Map(gs, make) ensures p.t.Time? {
      MapMember(gs, make, p);
      var g :| g in gs && make(g) == p;
      KeyOfGroup(xs, key, g);
      var x :| x in xs && key(x) == g.key;
    }
  }

  lemma VectorAscends(v: VectorExpr, ctx: CompileCtx, w: World)
    ensures Ascending(VectorPoints(v, ctx, w))
  {
    if v.name == EVENT {
      var samples := Filter(TableRows(w, "events"), SelectsEvents(v.labels, v.rangeS, ctx, w));
      MadeTimely(samples, SampleKey(EVENT_DEF), SamplePoint(EVENT_DEF));
      SortAscending(Map(Groups(samples, SampleKey(EVENT_DEF)), SamplePoint(EVENT_DEF)));
    } else if MetricRegistry(v.name).Some? {
      var def := MetricRegistry(v.name).value;
      hide MetricRegistry;
      var samples := Filter(TableRows(w, def.table), Selects(def, v.labels, v.rangeS, ctx, w));
      MadeTimely(samples, SampleKey(def), SamplePoint(def));
      SortAscending(Map(Groups(samples, SampleKey(def)), SamplePoint(def)));
    }
  }

  lemma DigestAscends(def: MetricDef, td: string, q: real, ms: seq<LabelMatch>, range: Option<int>, ctx: CompileCtx, w: World)
    ensures Ascending(DigestPoints(def, td, q, ms, range, ctx, w))
  {
    var samples := Filter(TableRows(w, def.table), Selects(def, ms, range, ctx, w));
    MadeTimely(samples, SampleKey(def), DigestPoint(td, q, w));
    SortAscending(Map(Groups(samples, SampleKey(def)), DigestPoint(td, q, w)));
  }

  lemma RateAscends(points: seq<Point>, d: real, w: World)
    requires Timely(points)
    ensures Ascending(RatePoints(points, d, w))
  {
    var made := Map(points, Scaled(d, w));
    forall q | q in made ensures q.t.Time? {
      MapMember(points, Scaled(d, w), q);
    }
    SortAscending(made);
  }

  lemma AggregationAscends(op: AggOp, ls: seq<string>, points: seq<Point>)
    requires Timely(points)
    ensures Ascending(AggPoints(op, ls, points))
  {
    MadeTimely(points, KeyAt(ls), AggPoint(op));
    SortAscending(Map(Groups(points, KeyAt(ls)), AggPoint(op)));
  }

  lemma BinaryAscends(ls: seq<Point>, op: ArithOp, rs: seq<Point>, w: World)
    requires Timely(ls)
    ensures Ascending(BinaryPoints(ls, op, rs, w))
  {
    var joined := Flatten(Map(ls, PairsWith(rs, op, w)));
    forall r | r in joined ensures r.t.Time? {
      SortMembers(joined, Earlier());
      BinaryMember(ls, op, rs, r, w);
    }
    SortAscending(joined);
  }

  lemma TotalsNow(ls: seq<string>, now: Value, points: seq<Point>)
    ensures forall p :: p in Totals(ls, now, points) ==> p.t == now
  {
    if ls != [] { GroupTotalsLabeled(ls, points, now); }
    hide Sum, Groups, Map;
  }

  lemma TopNow(top: bool, k: nat, ls: seq<string>, now: Value, points: seq<Point>, p: Point)
    requires p in TopPoints(top, k, ls, now, points)
    ensures p.t == now
  {
    var totals := Totals(ls, now, points);
    TotalsNow(ls, now, points);
    SortMembers(totals, RankedBefore(top));
    hide Totals, Sort;
    assert p in Sort(totals, RankedBefore(top));
  }

  lemma SameTimeAscends(points: seq<Point>, now: Value)
    requires now.Time? && forall p :: p in points ==> p.t == now
    ensures Ascending(points)
  {
    assert forall i :: 0 <= i < |points| ==> points[i] in points;
  }

  lemma TopAscends(top: bool, k: nat, ls: seq<string>, now: Value, points: seq<Point>)
    requires now.Time?
    ensures Ascending(TopPoints(top, k, ls, now, points))
  {
    hide TopPoints, Ascending;
    forall p | p in TopPoints(top, k, ls, now, points) ensures p.t == now {
      TopNow(top, k, ls, now, points, p);
    }
    SameTimeAscends(TopPoints(top, k, ls, now, points), now);
  }

  lemma {:induction false} DenoteAscends(e: Expr, ctx: CompileCtx, w: World)
    ensures Ascending(Denote(e, ctx, w))
    decreases e
  {
    hide Ascending, VectorPoints, RatePoints, DigestPoints, TopPoints, AggPoints, BinaryPoints, MetricRegistry;
    match e
    case Vector(v) => VectorAscends(v, ctx, w);
    case Func(name, args) => FuncAscends(name, args, ctx, w);
    case Aggregation(op, grouping, inner) =>
      DenoteAscends(inner, ctx, w);
      IsTimely(Denote(inner, ctx, w));
      AggregationAscends(op, GroupLabels(grouping, LabelsOf(inner)), Denote(inner, ctx, w));
    case Binary(l, op, r) =>
      DenoteAscends(l, ctx, w);
      IsTimely(Denote(l, ctx, w));
      BinaryAscends(Denote(l, ctx, w), op, Denote(r, ctx, w), w);
    case Number(x) => OneAscends(Point(Time(ToSecs(ctx)), map[], x));
  }

  lemma IsTimely(points: seq<Point>)
    requires Ascending(points)
    ensures Timely(points)
  {
  }

  lemma OneAscends(p: Point)
    requires p.t.Time?
    ensures Ascending([p]) && Ascending([])
  {
  }

  lemma FuncAscends(name: string, args: seq<Expr>, ctx: CompileCtx, w: World)
    ensures Ascending(Denote(Func(name, args), ctx, w))
  {
    hide Ascending, VectorPoints, RatePoints, DigestPoints, TopPoints, MetricRegistry;
    OneAscends(Point(Time(0), map[], 0.0));
    if IsRate(name) && |args| == 1 && args[0].Vector? {
      var points := VectorPoints(args[0].vec, ctx, w);
      VectorAscends(args[0].vec, ctx, w);
      IsTimely(points);
      RateAscends(points, if name == "increase" then 1.0 else Max(StepSecs(ctx), 1.0), w);
    } else if name == "histogram_quantile" && |args| == 2 && args[0].Number? && args[1].Vector? {
      var v := args[1].vec;
      var metric := MetricRegistry(v.name);
      if metric.Some? && metric.value.tdigestCol.Some? {
        DigestAscends(metric.value, metric.value.tdigestCol.value, args[0].v, v.labels, v.rangeS, ctx, w);
      }
    } else if IsTop(name) && |args| == 2 && args[0].Number? {
      TopAscends(name == "topk", ToU32(args[0].v), LabelsOf(args[1]), Time(ToSecs(ctx)), Denote(args[1], ctx, w));
    }
  }

  /** Every row of an accepted expression's query has a time, and none comes after a later one. */
  lemma RowsAscend(e: Expr, ctx: CompileCtx, w: World, i: nat, j: nat)
    requires Compile(e).Ok?
    ensures var rows := Evaluate(Compile(e).value.query, Final(e, ctx), w);
      i < j < |rows| ==> Get(rows[i], "t").Time? && Get(rows[j], "t").Time? && Get(rows[i], "t").secs <= Get(rows[j], "t").secs
  {
    var points := Denote(Rebind(e, Final(e, ctx)), ctx, w);
    PointsOf(e, ctx, w);
    DenoteAscends(Rebind(e, Final(e, ctx)), ctx, w);
    hide Compile, Evaluate, Final, Denote, Rebind, AsRow;
    if i < j < |points| {
      assert points[i] in points && points[j] in points;
      RowCell(points[i], "t");
      RowCell(points[j], "t");
    }
  }
}
