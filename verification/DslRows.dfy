/**
What a query returns, row by row, in terms of the rows of the query below it or of the stored rows: the
grouping, the values and the times written out, for every form of expression.
*/
module DslRows {
  import opened Lists
  import opened Sql
  import opened Dsl
  import opened DslMeaning
  import opened DslCorrect
  import opened DslQueries
  import opened DslTheorem
  import opened DslAlgebra

  /** Rows with the same cells in some columns. */
  function Alike(names: seq<string>, row: Row): Row -> bool {
    (r: Row) => forall n :: n in names ==> Get(r, n) == Get(row, n)
  }

  function Values(rows: seq<Row>, p: Row -> bool): seq<real> { Map(Filter(rows, p), NumCell("v")) }

  predicate IsAverage(x: real, vs: seq<real>) { vs != [] && x * |vs| as real == Sum(vs) }

  /** What an operator makes of some values. */
  ghost predicate IsAggregate(op: AggOp, x: real, vs: seq<real>) {
    match op
    case SumAgg => x == Sum(vs)
    case AvgAgg => IsAverage(x, vs)
    case MinAgg => x in vs && forall y :: y in vs ==> x <= y
    case MaxAgg => x in vs && forall y :: y in vs ==> x >= y
    case CountAgg => x == |vs| as real
  }

  /** A row for every combination of cells that occurs below, with the aggregate of the values found with it. */
  ghost predicate Aggregates(rows: seq<Row>, inner: seq<Row>, names: seq<string>, op: AggOp) {
    && (forall row: Row :: row in rows ==> AggregatesIn(row, inner, names, op))
    && Apart(rows, names)
    && AllRepresented(rows, inner, names)
  }

  ghost predicate AggregatesIn(row: Row, inner: seq<Row>, names: seq<string>, op: AggOp) {
    && row.Keys == LabelSet(names) + {"v"} && row["v"].Num?
    && Values(inner, Alike(names, row)) != []
    && IsAggregate(op, row["v"].num, Values(inner, Alike(names, row)))
  }

  /** No two rows have the same cells. */
  ghost predicate Apart(rows: seq<Row>, names: seq<string>) {
    forall i, j :: 0 <= i < j < |rows| ==> !Alike(names, rows[i])(rows[j])
  }

  ghost predicate AllRepresented(rows: seq<Row>, inner: seq<Row>, names: seq<string>) {
    forall r :: r in inner ==> Represented(rows, names, r)
  }

  ghost predicate Represented(rows: seq<Row>, names: seq<string>, r: Row) {
    exists row :: row in rows && Alike(names, row)(r)
  }

  // ----- values -----

  lemma {:induction false} LeastIs(vs: seq<real>)
    requires vs != []
    ensures Least(vs) in vs && forall y :: y in vs ==> Least(vs) <= y
  {
    if |vs| > 1 {
      LeastIs(vs[1..]);
      assert vs == [vs[0]] + vs[1..];
    }
  }

  lemma {:induction false} LargestIs(vs: seq<real>)
    requires vs != []
    ensures Largest(vs) in vs && forall y :: y in vs ==> Largest(vs) >= y
  {
    if |vs| > 1 {
      LargestIs(vs[1..]);
      assert vs == [vs[0]] + vs[1..];
    }
  }

  lemma AverageIs(vs: seq<real>)
    requires vs != []
    ensures IsAverage(Average(vs), vs)
  {
    hide Sum;
  }

  lemma AggregatedIs(op: AggOp, vs: seq<real>)
    requires vs != []
    ensures IsAggregate(op, Aggregated(op, vs), vs)
  {
    LeastIs(vs);
    LargestIs(vs);
    AverageIs(vs);
    hide Sum, Least, Largest, Average, IsAverage;
  }

  // ----- points of groups -----

  /** Points made of groups: one a key that occurs, made of the elements that have it. */
  lemma GroupsAre<A(!new)>(xs: seq<A>, key: A -> PointKey, make: Group<PointKey, A> -> Point)
    requires forall g :: make(g).t == g.key.t && make(g).labels == g.key.labels
    ensures var out := Sort(Map(Groups(xs, key), make), Earlier());
      && OneEach(out)
      && (forall p :: p in out ==> Filter(xs, HasKey(key, OwnKey()(p))) != [] && p == make(Group(OwnKey()(p), Filter(xs, HasKey(key, OwnKey()(p))))))
      && (forall x :: x in xs ==> exists p :: p in out && OwnKey()(p) == key(x))
  {
    var gs := Groups(xs, key);
    var made := Map(gs, make);
    GroupsExactly(xs, key);
    hide Groups;
    forall i, j | 0 <= i < j < |made| ensures OwnKey()(made[i]) != OwnKey()(made[j]) {
      assert gs[i].key != gs[j].key;
    }
    SortOneEach(made, Earlier());
    SortMembers(made, Earlier());
    hide Sort;
    forall p | p in made ensures Filter(xs, HasKey(key, OwnKey()(p))) != [] && p == make(Group(OwnKey()(p), Filter(xs, HasKey(key, OwnKey()(p))))) {
      var i :| 0 <= i < |made| && made[i] == p;
      assert gs[i] in gs && gs[i] == Group(OwnKey()(p), gs[i].members);
    }
    forall x | x in xs ensures exists p :: p in made && OwnKey()(p) == key(x) {
      var g :| g in gs && g.key == key(x);
      var i :| 0 <= i < |gs| && gs[i] == g;
      assert made[i] in made && OwnKey()(made[i]) == key(x);
    }
  }

  // ----- aggregations -----

  lemma RowCell(p: Point, n: string)
    ensures Get(AsRow()(p), "t") == p.t && Get(AsRow()(p), "v") == Num(p.v)
    ensures n != "t" && n != "v" ==> Get(AsRow()(p), n) == if n in p.labels then p.labels[n] else Null
  {
  }

  lemma AlikeIs(p: Point, x: Point, ls: seq<string>, inner: seq<string>)
    requires Clean(ls) && Clean(inner) && p.labels.Keys == LabelSet(ls) && x.labels.Keys == LabelSet(inner)
    requires forall l :: l in ls ==> l in inner
    ensures Alike(["t"] + ls, AsRow()(p))(AsRow()(x)) == HasKey(KeyAt(ls), OwnKey()(p))(x)
  {
    var a, b := AsRow()(x), AsRow()(p);
    forall l | l in ls ensures Get(a, l) == x.labels[l] && Get(b, l) == p.labels[l] {
      RowCell(x, l);
      RowCell(p, l);
    }
    RowCell(x, "t");
    RowCell(p, "t");
    var names := ["t"] + ls;
    assert forall n :: n in names <==> n == "t" || n in ls;
    hide AsRow;
    var r := Restrict(x.labels, ls);
    assert r.Keys == LabelSet(ls);
    if HasKey(KeyAt(ls), OwnKey()(p))(x) { assert r == p.labels && x.t == p.t; }
    if Alike(names, b)(a) {
      assert Get(a, "t") == Get(b, "t");
      assert forall l :: l in ls ==> r[l] == p.labels[l];
      assert r == p.labels;
    }
  }

  lemma ValuesAlike(p: Point, points: seq<Point>, ls: seq<string>, inner: seq<string>)
    requires Clean(ls) && Clean(inner) && p.labels.Keys == LabelSet(ls) && Labeled(points, inner)
    requires forall l :: l in ls ==> l in inner
    ensures Values(Map(points, AsRow()), Alike(["t"] + ls, AsRow()(p)))
         == Map(Filter(points, HasKey(KeyAt(ls), OwnKey()(p))), ValueOf())
  {
    var has, alike := HasKey(KeyAt(ls), OwnKey()(p)), Alike(["t"] + ls, AsRow()(p));
    forall x | x in points ensures alike(AsRow()(x)) == has(x) {
      AlikeIs(p, x, ls, inner);
    }
    hide AsRow, KeyAt, Alike;
    MapFilter(points, AsRow(), has, alike);
    ValuesOfRows(Filter(points, has));
  }

  lemma AggregateRow(op: AggOp, p: Point, points: seq<Point>, ls: seq<string>, inner: seq<string>)
    requires Clean(ls) && Clean(inner) && Labeled(points, inner) && forall l :: l in ls ==> l in inner
    requires p in AggPoints(op, ls, points) && p.labels.Keys == LabelSet(ls)
    ensures var vs := Values(Map(points, AsRow()), Alike(["t"] + ls, AsRow()(p)));
      vs != [] && IsAggregate(op, p.v, vs)
  {
    GroupsAre(points, KeyAt(ls), AggPoint(op));
    ValuesAlike(p, points, ls, inner);
    hide Values, Alike, Labeled, KeyAt, Aggregated, Groups, Sort, IsAggregate;
    AggregatedIs(op, Map(Filter(points, HasKey(KeyAt(ls), OwnKey()(p))), ValueOf()));
  }

  lemma AggregateRows(op: AggOp, points: seq<Point>, ls: seq<string>, inner: seq<string>)
    requires Clean(ls) && Clean(inner) && Labeled(points, inner) && (forall l :: l in ls ==> l in inner)
    requires Labeled(AggPoints(op, ls, points), ls)
    ensures Aggregates(Map(AggPoints(op, ls, points), AsRow()), Map(points, AsRow()), ["t"] + ls, op)
  {
    var out, names := AggPoints(op, ls, points), ["t"] + ls;
    var rows, below := Map(out, AsRow()), Map(points, AsRow());
    GroupsAre(points, KeyAt(ls), AggPoint(op));
    assert out == Sort(Map(Groups(points, KeyAt(ls)), AggPoint(op)), Earlier());
    hide AggPoints, Groups, Sort, AggPoint, OneEach, Clean, Labeled, AggregatesIn, AsRow, KeyAt;
    forall row: Row | row in rows ensures AggregatesIn(row, below, names, op) {
      var i :| 0 <= i < |out| && rows[i] == row;
      assert out[i] in out;
      AggregateRowIs(op, out[i], points, ls, inner);
    }
    PointsApart(out, ls);
    PointsRepresented(out, points, ls, inner);
  }

  lemma AggregateRowIs(op: AggOp, p: Point, points: seq<Point>, ls: seq<string>, inner: seq<string>)
    requires Clean(ls) && Clean(inner) && Labeled(points, inner) && forall l :: l in ls ==> l in inner
    requires p in AggPoints(op, ls, points) && Labeled(AggPoints(op, ls, points), ls)
    ensures AggregatesIn(AsRow()(p), Map(points, AsRow()), ["t"] + ls, op)
  {
    AggregateRow(op, p, points, ls, inner);
    NamesAre(ls);
    hide Values, Alike, IsAggregate, AggPoints;
  }

  lemma PointsApart(out: seq<Point>, ls: seq<string>)
    requires OneEach(out) && Labeled(out, ls) && Clean(ls)
    ensures Apart(Map(out, AsRow()), ["t"] + ls)
  {
    var rows, names := Map(out, AsRow()), ["t"] + ls;
    hide Alike, KeyAt, AsRow;
    forall i, j | 0 <= i < j < |rows| ensures !Alike(names, rows[i])(rows[j]) {
      assert out[i] in out && out[j] in out;
      AlikeIs(out[i], out[j], ls, ls);
      OwnIs(out[j], ls);
    }
  }

  lemma PointsRepresented(out: seq<Point>, points: seq<Point>, ls: seq<string>, inner: seq<string>)
    requires Clean(ls) && Clean(inner) && Labeled(points, inner) && Labeled(out, ls) && forall l :: l in ls ==> l in inner
    requires forall x :: x in points ==> exists p :: p in out && OwnKey()(p) == KeyAt(ls)(x)
    ensures AllRepresented(Map(out, AsRow()), Map(points, AsRow()), ["t"] + ls)
  {
    var rows, below, names := Map(out, AsRow()), Map(points, AsRow()), ["t"] + ls;
    hide Alike, AsRow;
    forall r | r in below ensures Represented(rows, names, r) {
      var i :| 0 <= i < |points| && below[i] == r;
      assert points[i] in points;
      var p :| p in out && OwnKey()(p) == KeyAt(ls)(points[i]);
      AlikeIs(p, points[i], ls, inner);
      var j :| 0 <= j < |out| && out[j] == p;
      assert rows[j] in rows && Alike(names, rows[j])(r);
    }
  }

  lemma NamesAre(ls: seq<string>)
    ensures LabelSet(["t"] + ls) == {"t"} + LabelSet(ls)
  {
  }

  lemma OwnIs(p: Point, ls: seq<string>)
    requires p.labels.Keys == LabelSet(ls)
    ensures KeyAt(ls)(p) == OwnKey()(p)
  {
    assert Restrict(p.labels, ls) == p.labels;
  }

  /** The points behind the rows of an accepted expression's query. */
  lemma PointsOf(e: Expr, ctx: CompileCtx, w: World)
    requires Compile(e).Ok?
    ensures var P, node := Final(e, ctx), Compile(e).value;
      Correct(e, ctx, P, w)
  {
    FinalCovers(e, ctx);
    hide Compile, Final, Correct;
    EvalCompiled(e, ctx, Final(e, ctx), w);
  }

  lemma AggregationParts(op: AggOp, grouping: Option<Regroup>, e: Expr, ctx: CompileCtx, w: World)
    requires Compile(Aggregation(op, grouping, e)).Ok?
    ensures Compile(e).Ok? && Final(Aggregation(op, grouping, e), ctx) == Final(e, ctx)
    ensures var P, agg := Final(e, ctx), Aggregation(op, grouping, e);
      var ls := GroupLabels(grouping, LabelsOf(e));
      && Compile(agg).value.labels == ls && (forall l :: l in ls ==> l in LabelsOf(e))
      && (Correct(e, ctx, P, w) ==> Denote(Rebind(agg, P), ctx, w) == AggPoints(op, ls, Denote(Rebind(e, P), ctx, w)))
  {
    var agg, P := Aggregation(op, grouping, e), Final(e, ctx);
    assert Binds(agg) == Binds(e);
    assert Rebind(agg, P) == Aggregation(op, grouping, Rebind(e, P));
    PointsOf(e, ctx, w);
    hide AggPoints, Binds, GroupLabels, BaseParams, InsertAll;
  }

  /** In general: an aggregation's rows, by t and the labels of its plan. */
  lemma AggregationRows(op: AggOp, grouping: Option<Regroup>, e: Expr, ctx: CompileCtx, w: World)
    requires Compile(Aggregation(op, grouping, e)).Ok?
    ensures Compile(e).Ok?
    ensures var agg := Aggregation(op, grouping, e);
      Aggregates(Evaluate(Compile(agg).value.query, Final(agg, ctx), w), Evaluate(Compile(e).value.query, Final(agg, ctx), w),
                 ["t"] + Compile(agg).value.labels, op)
  {
    var agg := Aggregation(op, grouping, e);
    AggregationParts(op, grouping, e, ctx, w);
    PointsOf(e, ctx, w);
    PointsOf(agg, ctx, w);
    var ls, points := Compile(agg).value.labels, Denote(Rebind(e, Final(e, ctx)), ctx, w);
    hide Evaluate, Denote, Rebind, Compile, Final, AggPoints, Aggregates, Map, AsRow;
    AggregateRows(op, points, ls, LabelsOf(e));
  }

  function AtT(t: Value): Row -> bool { (r: Row) => Get(r, "t") == t }

  ghost predicate OccursAt(rows: seq<Row>, t: Value) { exists row :: row in rows && Get(row, "t") == t }

  /** One row a time, with t and v only, and v the aggregate of all values below at that time. */
  ghost predicate OneATime(rows: seq<Row>, inner: seq<Row>, op: AggOp) {
    && (forall row: Row :: row in rows ==>
          && row.Keys == {"t", "v"} && row["v"].Num? && IsAggregate(op, row["v"].num, Values(inner, AtT(row["t"]))))
    && (forall i, j :: 0 <= i < j < |rows| ==> Get(rows[i], "t") != Get(rows[j], "t"))
    && (forall t :: OccursAt(rows, t) <==> OccursAt(inner, t))
  }

  /**
  Without grouping: the plan has no labels, every row has t and v only, no two rows share a t, a t occurs iff
  it does below, and its v is the aggregate of all values below at that t.
  */
  lemma UngroupedRows(op: AggOp, e: Expr, ctx: CompileCtx, w: World)
    requires Compile(Aggregation(op, None, e)).Ok?
    ensures Compile(e).Ok? && Compile(Aggregation(op, None, e)).value.labels == []
    ensures var agg := Aggregation(op, None, e);
      OneATime(Evaluate(Compile(agg).value.query, Final(agg, ctx), w), Evaluate(Compile(e).value.query, Final(agg, ctx), w), op)
  {
    var agg := Aggregation(op, None, e);
    AggregationRows(op, None, e, ctx, w);
    assert Compile(agg).value.labels == [];
    hide Compile, Final, Evaluate, Aggregates;
    assert ["t"] + [] == ["t"];
    ByTime(Evaluate(Compile(agg).value.query, Final(agg, ctx), w), Evaluate(Compile(e).value.query, Final(agg, ctx), w), op);
  }

  lemma TimeRow(row: Row, inner: seq<Row>, op: AggOp)
    requires AggregatesIn(row, inner, ["t"], op)
    ensures row.Keys == {"t", "v"} && row["v"].Num? && IsAggregate(op, row["v"].num, Values(inner, AtT(row["t"])))
    ensures OccursAt(inner, Get(row, "t"))
  {
    var names := ["t"];
    hide IsAggregate;
    assert forall r: Row :: Alike(names, row)(r) == AtT(row["t"])(r);
    FilterCongruent(inner, Alike(names, row), AtT(row["t"]));
    SomeAt(inner, Alike(names, row));
    var r :| r in inner && Alike(names, row)(r);
  }

  lemma ByTime(rows: seq<Row>, inner: seq<Row>, op: AggOp)
    requires Aggregates(rows, inner, ["t"], op)
    ensures OneATime(rows, inner, op)
  {
    forall row: Row | row in rows
      ensures row.Keys == {"t", "v"} && row["v"].Num? && IsAggregate(op, row["v"].num, Values(inner, AtT(row["t"])))
      ensures OccursAt(inner, Get(row, "t"))
    {
      TimeRow(row, inner, op);
    }
    hide IsAggregate, AggregatesIn, Values, Apart, AllRepresented;
    TimesApart(rows);
    TimesOccur(rows, inner);
    forall t | OccursAt(rows, t) ensures OccursAt(inner, t) {
      var row :| row in rows && Get(row, "t") == t;
    }
  }

  lemma TimesApart(rows: seq<Row>)
    requires Apart(rows, ["t"])
    ensures forall i, j :: 0 <= i < j < |rows| ==> Get(rows[i], "t") != Get(rows[j], "t")
  {
    var names := ["t"];
    forall i, j | 0 <= i < j < |rows| ensures Get(rows[i], "t") != Get(rows[j], "t") {
      assert !Alike(names, rows[i])(rows[j]);
    }
  }

  lemma TimesOccur(rows: seq<Row>, inner: seq<Row>)
    requires AllRepresented(rows, inner, ["t"])
    ensures forall t :: OccursAt(inner, t) ==> OccursAt(rows, t)
  {
    var names := ["t"];
    forall t | OccursAt(inner, t) ensures OccursAt(rows, t) {
      var r :| r in inner && Get(r, "t") == t;
      assert Represented(rows, names, r);
      var row :| row in rows && Alike(names, row)(r);
      assert names[0] == "t";
    }
  }

  lemma SomeAt(rows: seq<Row>, p: Row -> bool)
    requires Values(rows, p) != []
    ensures exists r :: r in rows && p(r)
  {
    var some := Filter(rows, p);
    assert |some| == |Values(rows, p)|;
    assert some[0] in some;
  }

  /** By some labels: the plan's labels are those written, and the rows are by t and them. */
  lemma ByRows(op: AggOp, ls: seq<string>, e: Expr, ctx: CompileCtx, w: World)
    requires Compile(Aggregation(op, Some(Regroup(true, ls)), e)).Ok?
    ensures Compile(e).Ok? && Compile(Aggregation(op, Some(Regroup(true, ls)), e)).value.labels == ls
    ensures var agg := Aggregation(op, Some(Regroup(true, ls)), e);
      Aggregates(Evaluate(Compile(agg).value.query, Final(agg, ctx), w), Evaluate(Compile(e).value.query, Final(agg, ctx), w),
                 ["t"] + ls, op)
  {
    var agg := Aggregation(op, Some(Regroup(true, ls)), e);
    AggregationRows(op, Some(Regroup(true, ls)), e, ctx, w);
    assert Compile(agg).value.labels == ls;
  }

  /** Without some labels: the plan's labels are those below but for the ones written, in their order. */
  lemma WithoutRows(op: AggOp, ls: seq<string>, e: Expr, ctx: CompileCtx, w: World)
    requires Compile(e).Ok?
    ensures var agg := Aggregation(op, Some(Regroup(false, ls)), e);
      && Compile(agg).Ok?
      && Compile(agg).value.labels == Filter(Compile(e).value.labels, (l: string) => l !in ls)
      && Aggregates(Evaluate(Compile(agg).value.query, Final(agg, ctx), w), Evaluate(Compile(e).value.query, Final(agg, ctx), w),
                    ["t"] + Compile(agg).value.labels, op)
  {
    WithoutIsBy(op, ls, Compile(e).value);
    AggregationRows(op, Some(Regroup(false, ls)), e, ctx, w);
    WithoutIs(Compile(e).value.labels, ls);
  }

  lemma {:induction false} WithoutIs(labels: seq<string>, dropped: seq<string>)
    ensures Without(labels, dropped) == Filter(labels, (l: string) => l !in dropped)
  {
    if labels != [] { WithoutIs(labels[1..], dropped); }
  }
}
