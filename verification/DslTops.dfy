/** What the top and the bottom k of a query are, in terms of its rows. */
module DslTops {
  import opened Lists
  import opened Sql
  import opened Dsl
  import opened DslMeaning
  import opened DslCorrect
  import opened DslQueries
  import opened DslTheorem
  import opened DslAlgebra
  import opened DslConflicts
  import opened DslRows
  import opened DslCombines

  /** x does not come before y: in a top it is no larger, in a bottom no smaller. */
  predicate NotBetter(top: bool, x: real, y: real) { if top then x <= y else x >= y }

  /** The sum of the values of all rows with these labels, at whatever time. */
  function TotalOf(inner: seq<Row>, labels: seq<string>, row: Row): real { Sum(Values(inner, Alike(labels, row))) }

  /** A total: of labels that occur below, at the end of the window. */
  ghost predicate IsTotal(row: Row, inner: seq<Row>, labels: seq<string>, now: Value) {
    && row.Keys == {"t", "v"} + LabelSet(labels) && row["t"] == now && row["v"] == Num(TotalOf(inner, labels, row))
    && (labels == [] || exists r :: r in inner && Alike(labels, row)(r))
  }

  /** The row's labels are in the result, or the result is full of totals that its own does not beat. */
  ghost predicate InOrBeaten(r: Row, rows: seq<Row>, inner: seq<Row>, labels: seq<string>, top: bool, k: nat) {
    || Represented(rows, labels, r)
    || (|rows| == k && forall row: Row :: row in rows && "v" in row && row["v"].Num? ==> NotBetter(top, TotalOf(inner, labels, r), row["v"].num))
  }

  /** At most k totals, the best first, no two of the same labels, and none beaten by one left out. */
  ghost predicate Ranks(rows: seq<Row>, inner: seq<Row>, labels: seq<string>, top: bool, k: nat, now: Value) {
    && |rows| <= k
    && (forall row: Row :: row in rows ==> IsTotal(row, inner, labels, now))
    && Apart(rows, labels)
    && InOrder(rows, top)
    && (forall r :: r in inner ==> InOrBeaten(r, rows, inner, labels, top, k))
    && (labels == [] ==> |rows| == 1)
  }

  /** The values fall in a top and rise in a bottom. */
  ghost predicate InOrder(rows: seq<Row>, top: bool) {
    forall i, j :: 0 <= i < j < |rows| && Get(rows[i], "v").Num? && Get(rows[j], "v").Num? ==>
      NotBetter(top, Get(rows[j], "v").num, Get(rows[i], "v").num)
  }

  // ----- totals -----

  lemma LabelsAlike(p: Point, x: Point, ls: seq<string>)
    requires Clean(ls) && p.labels.Keys == LabelSet(ls) && x.labels.Keys == LabelSet(ls)
    ensures Alike(ls, AsRow()(p))(AsRow()(x)) == HasKey(LabelsAt(ls), p.labels)(x)
  {
    var a, b := AsRow()(x), AsRow()(p);
    forall l | l in ls ensures Get(a, l) == x.labels[l] && Get(b, l) == p.labels[l] {
      RowCell(x, l);
      RowCell(p, l);
    }
    hide AsRow;
    var r := Restrict(x.labels, ls);
    assert r.Keys == LabelSet(ls) && forall l :: l in ls ==> r[l] == x.labels[l];
    if Alike(ls, b)(a) { assert r == p.labels; }
  }

  lemma TotalAlike(p: Point, points: seq<Point>, ls: seq<string>)
    requires Clean(ls) && p.labels.Keys == LabelSet(ls) && Labeled(points, ls)
    ensures Values(Map(points, AsRow()), Alike(ls, AsRow()(p))) == Map(Filter(points, HasKey(LabelsAt(ls), p.labels)), ValueOf())
  {
    var has, alike := HasKey(LabelsAt(ls), p.labels), Alike(ls, AsRow()(p));
    forall x | x in points ensures alike(AsRow()(x)) == has(x) {
      LabelsAlike(p, x, ls);
    }
    hide AsRow, LabelsAt, Alike;
    MapFilter(points, AsRow(), has, alike);
    ValuesOfRows(Filter(points, has));
  }

  /** What the totals of some points are. */
  ghost predicate TotalsOf(totals: seq<Point>, points: seq<Point>, ls: seq<string>, now: Value) {
    && (forall p :: p in totals ==>
          && p.t == now && p.labels.Keys == LabelSet(ls)
          && p.v == Sum(Map(Filter(points, HasKey(LabelsAt(ls), p.labels)), ValueOf()))
          && (ls == [] || Filter(points, HasKey(LabelsAt(ls), p.labels)) != []))
    && (forall x :: x in points ==> exists p :: p in totals && p.labels == LabelsAt(ls)(x))
  }

  lemma TotalsAre(ls: seq<string>, now: Value, points: seq<Point>)
    ensures TotalsOf(Totals(ls, now, points), points, ls, now)
  {
    if ls == [] {
      NoLabels(points);
    } else {
      GroupTotalsAre(ls, now, points);
    }
  }

  lemma NoLabels(points: seq<Point>)
    ensures Filter(points, HasKey(LabelsAt([]), map[])) == points
    ensures forall x :: x in points ==> LabelsAt([])(x) == map[]
  {
    forall x | x in points ensures LabelsAt([])(x) == map[] {
      assert Restrict(x.labels, []).Keys == {};
    }
    FilterAll(points, HasKey(LabelsAt([]), map[]));
  }

  lemma GroupTotalsAre(ls: seq<string>, now: Value, points: seq<Point>)
    requires ls != []
    ensures TotalsOf(Totals(ls, now, points), points, ls, now)
  {
    var gs, totals := Groups(points, LabelsAt(ls)), Totals(ls, now, points);
    GroupsExactly(points, LabelsAt(ls));
    GroupTotalsLabeled(ls, points, now);
    hide Groups, Sum, Restrict, LabelSet;
    forall p | p in totals
      ensures p.t == now && p.labels.Keys == LabelSet(ls)
      ensures p.v == Sum(Map(Filter(points, HasKey(LabelsAt(ls), p.labels)), ValueOf()))
      ensures Filter(points, HasKey(LabelsAt(ls), p.labels)) != []
    {
      MapMember(gs, TotalPoint(now), p);
      var g :| g in gs && TotalPoint(now)(g) == p;
    }
    forall x | x in points ensures exists p :: p in totals && p.labels == LabelsAt(ls)(x) {
      var g :| g in gs && g.key == LabelsAt(ls)(x);
      MapMember(gs, TotalPoint(now), TotalPoint(now)(g));
      assert TotalPoint(now)(g) in totals;
    }
  }

  /** In the result, or beaten by all of a full result. */
  lemma LeftOut(top: bool, k: nat, ls: seq<string>, now: Value, points: seq<Point>, p: Point)
    requires p in Totals(ls, now, points)
    ensures var out := TopPoints(top, k, ls, now, points);
      p in out || (|out| == k && forall q :: q in out ==> NotBetter(top, p.v, q.v))
  {
    var out, totals := TopPoints(top, k, ls, now, points), Totals(ls, now, points);
    TopAreTheBest(top, k, ls, now, points);
    hide TopPoints, Totals;
    var left := multiset(totals) - multiset(out);
    if |totals| <= k {
      assert |left| == |totals| - |out| == 0;
      assert multiset(totals) == multiset(out) + left;
      assert p in multiset(totals);
    } else if p !in out {
      assert p in left;
    }
  }

  // ----- the rows -----

  lemma TopRowsTotals(top: bool, k: nat, ls: seq<string>, now: Value, points: seq<Point>, p: Point)
    requires Clean(ls) && Labeled(points, ls) && p in TopPoints(top, k, ls, now, points)
    ensures p.labels.Keys == LabelSet(ls) && IsTotal(AsRow()(p), Map(points, AsRow()), ls, now)
  {
    var totals := Totals(ls, now, points);
    TotalsAre(ls, now, points);
    SortMembers(totals, RankedBefore(top));
    assert p in totals;
    hide Totals, Sort, TopPoints;
    TotalRow(totals, ls, now, points, p);
  }

  lemma TotalRow(totals: seq<Point>, ls: seq<string>, now: Value, points: seq<Point>, p: Point)
    requires Clean(ls) && Labeled(points, ls) && TotalsOf(totals, points, ls, now) && p in totals
    ensures p.labels.Keys == LabelSet(ls) && IsTotal(AsRow()(p), Map(points, AsRow()), ls, now)
  {
    assert p.t == now && p.labels.Keys == LabelSet(ls);
    TotalAlike(p, points, ls);
    RowCell(p, "t");
    var row, inner := AsRow()(p), Map(points, AsRow());
    assert row.Keys == {"t", "v"} + LabelSet(ls) && row["t"] == p.t && row["v"] == Num(p.v);
    hide AsRow, Sum, Alike, Labeled;
    if ls != [] {
      SomeAt(inner, Alike(ls, row));
    }
  }

  lemma TopApart(out: seq<Point>, ls: seq<string>, now: Value)
    requires OneEach(out) && Clean(ls) && forall p :: p in out ==> p.t == now && p.labels.Keys == LabelSet(ls)
    ensures Apart(Map(out, AsRow()), ls)
  {
    var rows := Map(out, AsRow());
    forall i, j | 0 <= i < j < |rows| ensures !Alike(ls, rows[i])(rows[j]) {
      assert out[i] in out && out[j] in out;
      LabelsAlike(out[i], out[j], ls);
      assert LabelsAt(ls)(out[j]) == out[j].labels by { RestrictAll(out[j].labels, ls); }
      assert OwnKey()(out[i]) != OwnKey()(out[j]);
    }
  }

  lemma TopCovers(top: bool, k: nat, ls: seq<string>, now: Value, points: seq<Point>, x: Point)
    requires Clean(ls) && Labeled(points, ls) && x in points
    ensures InOrBeaten(AsRow()(x), Map(TopPoints(top, k, ls, now, points), AsRow()), Map(points, AsRow()), ls, top, k)
  {
    var out, totals := TopPoints(top, k, ls, now, points), Totals(ls, now, points);
    var rows, inner, r := Map(out, AsRow()), Map(points, AsRow()), AsRow()(x);
    TotalsAre(ls, now, points);
    var p :| p in totals && p.labels == LabelsAt(ls)(x);
    LeftOut(top, k, ls, now, points, p);
    hide Totals, TopPoints, TotalsOf;
    LabelsAlike(p, x, ls);
    if p in out {
      MapMember(out, AsRow(), AsRow()(p));
      assert AsRow()(p) in rows && Alike(ls, AsRow()(p))(r);
    } else {
      SameTotal(p, x, points, ls, now, totals);
      forall row: Row | row in rows && "v" in row && row["v"].Num? ensures NotBetter(top, TotalOf(inner, ls, r), row["v"].num) {
        MapMember(out, AsRow(), row);
        var q :| q in out && AsRow()(q) == row;
        RowCell(q, "v");
      }
    }
  }

  lemma SameTotal(p: Point, x: Point, points: seq<Point>, ls: seq<string>, now: Value, totals: seq<Point>)
    requires Clean(ls) && Labeled(points, ls) && x in points && TotalsOf(totals, points, ls, now) && p in totals
    requires p.labels == LabelsAt(ls)(x)
    ensures p.v == TotalOf(Map(points, AsRow()), ls, AsRow()(x))
  {
    RestrictAll(x.labels, ls);
    assert x.labels == p.labels;
    TotalAlike(x, points, ls);
  }

  lemma TopPointsRank(top: bool, k: nat, ls: seq<string>, now: Value, points: seq<Point>)
    requires Clean(ls) && Labeled(points, ls) && k >= 1
    ensures Ranks(Map(TopPoints(top, k, ls, now, points), AsRow()), Map(points, AsRow()), ls, top, k, now)
  {
    var out := TopPoints(top, k, ls, now, points);
    var rows, inner := Map(out, AsRow()), Map(points, AsRow());
    TopOneEach(top, k, ls, now, points);
    TopAreTheBest(top, k, ls, now, points);
    OrderedRows(out, top);
    hide TopPoints, Totals, IsTotal, InOrBeaten, Apart, AsRow, OneEach, Ascends, InOrder, Labeled, Clean, LabelSet;
    AllTotals(top, k, ls, now, points);
    TopApart(out, ls, now);
    AllCovered(top, k, ls, now, points);
  }

  lemma AllTotals(top: bool, k: nat, ls: seq<string>, now: Value, points: seq<Point>)
    requires Clean(ls) && Labeled(points, ls)
    ensures var out := TopPoints(top, k, ls, now, points);
      && (forall p :: p in out ==> p.labels.Keys == LabelSet(ls))
      && forall row: Row :: row in Map(out, AsRow()) ==> IsTotal(row, Map(points, AsRow()), ls, now)
  {
    var out, inner := TopPoints(top, k, ls, now, points), Map(points, AsRow());
    hide TopPoints, IsTotal, AsRow, Labeled, Clean, LabelSet;
    forall p | p in out ensures p.labels.Keys == LabelSet(ls) && IsTotal(AsRow()(p), inner, ls, now) {
      TopRowsTotals(top, k, ls, now, points, p);
    }
    forall row: Row | row in Map(out, AsRow()) ensures IsTotal(row, inner, ls, now) {
      MapMember(out, AsRow(), row);
    }
  }

  lemma AllCovered(top: bool, k: nat, ls: seq<string>, now: Value, points: seq<Point>)
    requires Clean(ls) && Labeled(points, ls)
    ensures var rows, inner := Map(TopPoints(top, k, ls, now, points), AsRow()), Map(points, AsRow());
      forall r :: r in inner ==> InOrBeaten(r, rows, inner, ls, top, k)
  {
    var rows, inner := Map(TopPoints(top, k, ls, now, points), AsRow()), Map(points, AsRow());
    hide TopPoints, InOrBeaten, AsRow, Labeled, Clean;
    forall r | r in inner ensures InOrBeaten(r, rows, inner, ls, top, k) {
      MapMember(points, AsRow(), r);
      var x :| x in points && AsRow()(x) == r;
      TopCovers(top, k, ls, now, points, x);
    }
  }

  lemma OrderedRows(out: seq<Point>, top: bool)
    requires Ascends(out, RankedBefore(top))
    ensures InOrder(Map(out, AsRow()), top)
  {
    var rows := Map(out, AsRow());
    hide AsRow;
    forall i, j | 0 <= i < j < |rows| && Get(rows[i], "v").Num? && Get(rows[j], "v").Num?
      ensures NotBetter(top, Get(rows[j], "v").num, Get(rows[i], "v").num)
    {
      RowCell(out[i], "v");
      RowCell(out[j], "v");
      assert !RankedBefore(top)(out[j], out[i]);
    }
  }

  lemma TopParts(name: string, x: real, e: Expr, ctx: CompileCtx, w: World)
    requires IsTop(name) && Compile(Ranked(name, x, e)).Ok?
    ensures Compile(e).Ok? && Compile(Ranked(name, x, e)).value.labels == Compile(e).value.labels
    ensures var P := Final(Ranked(name, x, e), ctx);
      && GetParam(P, K).Int? && GetParam(P, K).i >= 0
      && Correct(e, ctx, P, w)
      && Denote(Rebind(Ranked(name, x, e), P), ctx, w)
         == TopPoints(name == "topk", GetParam(P, K).i, LabelsOf(e), Time(ToSecs(ctx)), Denote(Rebind(e, P), ctx, w))
  {
    var t := Ranked(name, x, e);
    var P := Final(t, ctx);
    FinalCovers(t, ctx);
    TopShape(t, ctx, P, w);
    hide Final, Correct, HasBase, Binds, ToU32, TopPoints, Compile, Denote, Rebind;
    CoversNumber(P, Binding(K, Int(ToU32(x))), Binds(e));
    CoversParts(P, [Binding(K, Int(ToU32(x)))], Binds(e));
    hide Covers;
    EvalCompiled(e, ctx, P, w);
    LabelsKept(e, ctx, P, w);
  }

  lemma LabelsKept(e: Expr, ctx: CompileCtx, P: Params, w: World)
    requires Compile(e).Ok? && Correct(e, ctx, P, w)
    ensures LabelsOf(Rebind(e, P)) == LabelsOf(e) == Compile(e).value.labels
  {
  }

  ghost predicate NumbersPositive(bs: seq<Binding>) {
    forall b :: b in bs && b.name == K ==> b.value.Int? && b.value.i >= 1
  }

  lemma {:induction false} LabelNumbers(ms: seq<LabelMatch>, td: bool)
    ensures forall b :: b in LabelBinds(ms, td) ==> b.name != K
  {
    if ms != [] { LabelNumbers(ms[..|ms| - 1], td); }
  }

  lemma {:induction false} EventNumbers(ms: seq<LabelMatch>)
    ensures forall b :: b in EventBinds(ms) ==> b.name != K
  {
    if ms != [] { EventNumbers(ms[..|ms| - 1]); }
  }

  lemma VectorNumbers(v: VectorExpr)
    ensures forall b :: b in VectorBinds(v) ==> b.name != K
  {
    EventNumbers(v.labels);
    LabelNumbers(v.labels, false);
  }

  /** Numbers below one are not accepted. */
  lemma {:induction false} NumbersAre(e: Expr)
    requires Compile(e).Ok?
    ensures NumbersPositive(Binds(e))
    decreases e
  {
    match e
    case Vector(v) => VectorNumbers(v);
    case Func(name, args) =>
      if IsTop(name) {
        assert !IsRate(name) && |name| != |"histogram_quantile"|;
        NumbersAre(args[1]);
        AtLeastOne(args[0].v);
        hide ToU32;
      } else {
        if |args| == 1 && args[0].Vector? { VectorNumbers(args[0].vec); }
        if |args| == 2 && args[1].Vector? {
          VectorNumbers(args[1].vec);
          LabelNumbers(args[1].vec.labels, true);
        }
      }
    case Aggregation(_, _, inner) => NumbersAre(inner);
    case Binary(l, _, r) =>
      NumbersAre(l);
      NumbersAre(r);
    case Number(_) =>
  }

  lemma FinalNumber(name: string, x: real, e: Expr, ctx: CompileCtx)
    requires IsTop(name) && Compile(Ranked(name, x, e)).Ok?
    ensures var v := GetParam(Final(Ranked(name, x, e), ctx), K); v.Int? && v.i >= 1
  {
    var t := Ranked(name, x, e);
    NumbersAre(t);
    assert !IsRate(name) && |name| != |"histogram_quantile"|;
    assert Binding(K, Int(ToU32(x))) in Binds(t);
    hide Compile, Binds, ToU32;
    var i := LastOf(Binds(t), K);
    LastBound(BaseParams(ctx), Binds(t), i);
    assert Binds(t)[i] in Binds(t);
  }

  /**
  A top or bottom k returns at most k totals over time of the rows below, one a label set, at the end of the
  window, best first, and none that a label set left out would beat; k is the number in the final map.
  */
  lemma TopRows(name: string, x: real, e: Expr, ctx: CompileCtx, w: World)
    requires IsTop(name) && Compile(Ranked(name, x, e)).Ok?
    ensures Compile(e).Ok?
    ensures var t, P, labels := Ranked(name, x, e), Final(Ranked(name, x, e), ctx), Compile(e).value.labels;
      && GetParam(P, K).Int? && GetParam(P, K).i >= 1
      && Ranks(Evaluate(Compile(t).value.query, P, w), Evaluate(Compile(e).value.query, P, w), labels,
               name == "topk", GetParam(P, K).i, Time(Seconds(ctx.toMs)))
  {
    var t := Ranked(name, x, e);
    var P := Final(t, ctx);
    TopParts(name, x, e, ctx, w);
    PointsOf(t, ctx, w);
    FinalNumber(name, x, e, ctx);
    assert ToSecs(ctx) == Seconds(ctx.toMs);
    hide Compile, Evaluate, Denote, Rebind, Final, TopPoints, Ranks, Map, AsRow, Seconds, ToSecs;
    TopPointsRank(name == "topk", GetParam(P, K).i, LabelsOf(e), Time(ToSecs(ctx)), Denote(Rebind(e, P), ctx, w));
  }

  /** Without conflicts that number is the one written, without its fraction, and at most 2^32 - 1. */
  lemma TopNumber(name: string, x: real, e: Expr, ctx: CompileCtx)
    requires IsTop(name) && Compile(Ranked(name, x, e)).Ok? && NoConflict(Ranked(name, x, e))
    ensures x >= 1.0 && GetParam(Final(Ranked(name, x, e), ctx), K) == Int(if x.Floor <= 0xFFFF_FFFF then x.Floor else 0xFFFF_FFFF)
  {
    var t := Ranked(name, x, e);
    RankedParts(name, x, e);
    assert !IsRate(name) && |name| != |"histogram_quantile"|;
    assert Binding(K, Int(ToU32(x))) in Binds(t);
    hide Final, Binds;
    NoConflictKeepsAll(t, ctx);
  }
}
