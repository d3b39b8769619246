/** What rates, operators, numbers and tops return, row by row, in terms of the rows of the queries below them. */
module DslCombines {
  import opened Lists
  import opened Sql
  import opened Dsl
  import opened DslMeaning
  import opened DslCorrect
  import opened DslQueries
  import opened DslTheorem
  import opened DslAlgebra
  import opened DslRows

  /** Milliseconds as whole seconds, truncated toward zero. */
  function Seconds(ms: int): int { if ms >= 0 then ms / 1000 else -((-ms) / 1000) }

  lemma MapMember<A(!new), B(!new)>(xs: seq<A>, f: A -> B, y: B)
    ensures y in Map(xs, f) <==> exists x :: x in xs && f(x) == y
  {
    if y in Map(xs, f) {
      var i :| 0 <= i < |xs| && Map(xs, f)[i] == y;
      assert xs[i] in xs;
    }
    if x :| x in xs && f(x) == y {
      var i :| 0 <= i < |xs| && xs[i] == x;
      assert Map(xs, f)[i] == y;
    }
  }

  // ----- rates -----

  /** What a rate divides by: the seconds of a step but never less than one, and for an increase one. */
  function Divisor(name: string, ctx: CompileCtx): (d: real)
    ensures d >= 1.0
  {
    if name != "increase" && ctx.stepMs >= 1000 then ctx.stepMs as real / 1000.0 else 1.0
  }

  ghost predicate DividedIn(row: Row, inner: seq<Row>, d: real)
    requires d > 0.0
  {
    exists r: Row :: r in inner && "v" in r && r["v"].Num? && row == r["v" := Num(r["v"].num / d)]
  }

  /** The rows below, as many, with their values divided. */
  ghost predicate Divides(rows: seq<Row>, inner: seq<Row>, d: real)
    requires d > 0.0
  {
    |rows| == |inner| && forall row: Row :: row in rows <==> DividedIn(row, inner, d)
  }

  lemma ScaledRow(p: Point, d: real, w: World)
    requires d >= 1.0
    ensures AsRow()(Scaled(d, w)(p)) == AsRow()(p)["v" := Num(p.v / d)] && AsRow()(p)["v"] == Num(p.v)
  {
  }

  lemma RatePointsDivide(points: seq<Point>, d: real, w: World)
    requires d >= 1.0
    ensures Divides(Map(RatePoints(points, d, w), AsRow()), Map(points, AsRow()), d)
  {
    var out, made := RatePoints(points, d, w), Map(points, Scaled(d, w));
    SortMembers(made, Earlier());
    var rows, inner := Map(out, AsRow()), Map(points, AsRow());
    assert |rows| == |inner|;
    assert forall p :: p in out <==> p in made;
    hide RatePoints, Scaled, AsRow;
    forall row: Row ensures row in rows <==> DividedIn(row, inner, d) {
      MapMember(out, AsRow(), row);
      if row in rows {
        var q :| q in out && AsRow()(q) == row;
        MapMember(points, Scaled(d, w), q);
        var p :| p in points && Scaled(d, w)(p) == q;
        ScaledRow(p, d, w);
        MapMember(points, AsRow(), AsRow()(p));
        assert AsRow()(p) in inner;
      }
      if DividedIn(row, inner, d) {
        var r: Row :| r in inner && "v" in r && r["v"].Num? && row == r["v" := Num(r["v"].num / d)];
        MapMember(points, AsRow(), r);
        var p :| p in points && AsRow()(p) == r;
        ScaledRow(p, d, w);
        MapMember(points, Scaled(d, w), Scaled(d, w)(p));
      }
    }
  }

  lemma RateParts(name: string, v: VectorExpr, ctx: CompileCtx, w: World)
    requires IsRate(name) && Compile(Func(name, [Vector(v)])).Ok?
    ensures Compile(Vector(v)).Ok? && Final(Func(name, [Vector(v)]), ctx) == Final(Vector(v), ctx)
    ensures var P := Final(Vector(v), ctx);
      Denote(Rebind(Func(name, [Vector(v)]), P), ctx, w)
      == RatePoints(Denote(Rebind(Vector(v), P), ctx, w), Divisor(name, ctx), w)
  {
    hide VectorNode, RebindVector, VectorPoints, RatePoints, VectorBinds, RateQuery, MetricRegistry;
    var e := Func(name, [Vector(v)]);
    assert Binds(e) == Binds(Vector(v));
    var P := Final(Vector(v), ctx);
    hide Binds;
    assert Rebind(e, P) == Func(name, [Vector(RebindVector(v, P))]) && Rebind(Vector(v), P) == Vector(RebindVector(v, P));
    hide Rebind, Final;
    DivisorIs(name, ctx);
    hide Divisor, Max, StepSecs;
  }

  lemma DivisorIs(name: string, ctx: CompileCtx)
    ensures Divisor(name, ctx) == if name == "increase" then 1.0 else Max(StepSecs(ctx), 1.0)
  {
  }

  /** A rate or an irate divides every value by the seconds of a step, at least one; an increase leaves it. */
  lemma RateRows(name: string, v: VectorExpr, ctx: CompileCtx, w: World)
    requires IsRate(name) && Compile(Func(name, [Vector(v)])).Ok?
    ensures Compile(Vector(v)).Ok?
    ensures var e := Func(name, [Vector(v)]);
      Divides(Evaluate(Compile(e).value.query, Final(e, ctx), w), Evaluate(Compile(Vector(v)).value.query, Final(e, ctx), w),
              Divisor(name, ctx))
  {
    var e := Func(name, [Vector(v)]);
    RateParts(name, v, ctx, w);
    PointsOf(e, ctx, w);
    PointsOf(Vector(v), ctx, w);
    hide Compile, Evaluate, Denote, Rebind, Final, RatePoints, Divides, Map, AsRow, Divisor;
    RatePointsDivide(Denote(Rebind(Vector(v), Final(e, ctx)), ctx, w), Divisor(name, ctx), w);
  }

  // ----- operators -----

  /** The value of an operator; a division by zero is the database's own. */
  ghost predicate Operates(op: ArithOp, x: real, y: real, z: real, w: World) {
    match op
    case Add => z == x + y
    case Sub => z == x - y
    case Mul => z == x * y
    case Div => if y == 0.0 then z == w.overZero(x) else z == x / y
  }

  /** The row is of a row on either side with one t between them. */
  ghost predicate Combines(row: Row, l: Row, r: Row, op: ArithOp, w: World) {
    && Get(l, "t") == Get(r, "t") && Get(l, "v").Num? && Get(r, "v").Num?
    && row.Keys == {"t", "v"} && row["t"] == Get(l, "t") && row["v"].Num?
    && Operates(op, Get(l, "v").num, Get(r, "v").num, row["v"].num, w)
  }

  ghost predicate CombinedIn(row: Row, ls: seq<Row>, op: ArithOp, rs: seq<Row>, w: World) {
    exists l, r :: l in ls && r in rs && Combines(row, l, r, op, w)
  }

  ghost predicate Meets(l: Point, p: Point, r: Point, op: ArithOp, w: World) {
    l.t == p.t && r == Point(l.t, map[], ArithNum(op, l.v, p.v, w))
  }

  lemma {:induction false} FlattenMember<A(!new)>(xss: seq<seq<A>>, x: A)
    ensures x in Flatten(xss) <==> exists xs :: xs in xss && x in xs
  {
    if xss != [] {
      FlattenMember(xss[1..], x);
      assert forall xs :: xs in xss <==> xs == xss[0] || xs in xss[1..];
    }
  }

  ghost predicate MetIn(ls: seq<Point>, op: ArithOp, rs: seq<Point>, r: Point, w: World) {
    exists l, p :: l in ls && p in rs && Meets(l, p, r, op, w)
  }

  lemma PairsMember(l: Point, op: ArithOp, rs: seq<Point>, r: Point, w: World)
    ensures r in PairsWith(rs, op, w)(l) <==> exists p :: p in rs && Meets(l, p, r, op, w)
  {
    var same := Filter(rs, SameTime(l));
    MapMember(same, Combined(l, op, w), r);
    hide ArithNum;
    if r in PairsWith(rs, op, w)(l) {
      var p :| p in same && Combined(l, op, w)(p) == r;
      assert p in rs && Meets(l, p, r, op, w);
    }
    if p :| p in rs && Meets(l, p, r, op, w) { assert p in same && Combined(l, op, w)(p) == r; }
  }

  lemma BinaryMember(ls: seq<Point>, op: ArithOp, rs: seq<Point>, r: Point, w: World)
    ensures r in BinaryPoints(ls, op, rs, w) <==> MetIn(ls, op, rs, r, w)
  {
    var xss := Map(ls, PairsWith(rs, op, w));
    SortMembers(Flatten(xss), Earlier());
    FlattenMember(xss, r);
    hide Flatten, Sort, PairsWith, Meets;
    if r in BinaryPoints(ls, op, rs, w) {
      var xs :| xs in xss && r in xs;
      MapMember(ls, PairsWith(rs, op, w), xs);
      var l :| l in ls && PairsWith(rs, op, w)(l) == xs;
      PairsMember(l, op, rs, r, w);
    }
    if l, p :| l in ls && p in rs && Meets(l, p, r, op, w) {
      PairsMember(l, op, rs, r, w);
      MapMember(ls, PairsWith(rs, op, w), PairsWith(rs, op, w)(l));
      assert PairsWith(rs, op, w)(l) in xss;
    }
  }

  lemma MeetsCombines(l: Point, p: Point, r: Point, op: ArithOp, w: World)
    requires Meets(l, p, r, op, w)
    ensures Combines(AsRow()(r), AsRow()(l), AsRow()(p), op, w)
  {
    RowCell(l, "t");
    RowCell(p, "t");
  }

  lemma OneResult(op: ArithOp, x: real, y: real, z: real, w: World)
    requires Operates(op, x, y, z, w)
    ensures z == ArithNum(op, x, y, w)
  {
  }

  lemma CombinesMeets(row: Row, l: Point, p: Point, op: ArithOp, w: World)
    requires Combines(row, AsRow()(l), AsRow()(p), op, w)
    ensures Meets(l, p, Point(l.t, map[], ArithNum(op, l.v, p.v, w)), op, w)
    ensures row == AsRow()(Point(l.t, map[], ArithNum(op, l.v, p.v, w)))
  {
    RowCell(l, "t");
    RowCell(p, "t");
    OneResult(op, l.v, p.v, row["v"].num, w);
    hide ArithNum, Operates;
    var q := AsRow()(Point(l.t, map[], ArithNum(op, l.v, p.v, w)));
    assert q.Keys == {"t", "v"};
  }

  lemma BinaryPointsCombine(ls: seq<Point>, op: ArithOp, rs: seq<Point>, row: Row, w: World)
    ensures row in Map(BinaryPoints(ls, op, rs, w), AsRow()) <==> CombinedIn(row, Map(ls, AsRow()), op, Map(rs, AsRow()), w)
  {
    var out := BinaryPoints(ls, op, rs, w);
    MapMember(out, AsRow(), row);
    hide BinaryPoints, AsRow, Combines, Meets;
    if row in Map(out, AsRow()) {
      var r :| r in out && AsRow()(r) == row;
      BinaryMember(ls, op, rs, r, w);
      var l, p :| l in ls && p in rs && Meets(l, p, r, op, w);
      MeetsCombines(l, p, r, op, w);
      MapMember(ls, AsRow(), AsRow()(l));
      MapMember(rs, AsRow(), AsRow()(p));
    }
    if CombinedIn(row, Map(ls, AsRow()), op, Map(rs, AsRow()), w) {
      var a, b :| a in Map(ls, AsRow()) && b in Map(rs, AsRow()) && Combines(row, a, b, op, w);
      MapMember(ls, AsRow(), a);
      MapMember(rs, AsRow(), b);
      var l :| l in ls && AsRow()(l) == a;
      var p :| p in rs && AsRow()(p) == b;
      CombinesMeets(row, l, p, op, w);
      BinaryMember(ls, op, rs, Point(l.t, map[], ArithNum(op, l.v, p.v, w)), w);
    }
  }

  lemma BinaryParts(l: Expr, op: ArithOp, r: Expr, ctx: CompileCtx, w: World)
    requires Compile(Binary(l, op, r)).Ok?
    ensures Compile(l).Ok? && Compile(r).Ok?
    ensures var P := Final(Binary(l, op, r), ctx);
      && Correct(l, ctx, P, w) && Correct(r, ctx, P, w)
      && Denote(Rebind(Binary(l, op, r), P), ctx, w)
         == BinaryPoints(Denote(Rebind(l, P), ctx, w), op, Denote(Rebind(r, P), ctx, w), w)
  {
    var e := Binary(l, op, r);
    var P := Final(e, ctx);
    FinalCovers(e, ctx);
    assert Binds(e) == Binds(l) + Binds(r);
    CoversParts(P, Binds(l), Binds(r));
    hide Final, Correct, Covers, HasBase, BinaryPoints;
    EvalCompiled(l, ctx, P, w);
    EvalCompiled(r, ctx, P, w);
  }

  /** An operator's rows: for every row on the left and every one on the right of the same t their values' combination, without labels. */
  lemma BinaryRows(l: Expr, op: ArithOp, r: Expr, ctx: CompileCtx, w: World, row: Row)
    requires Compile(Binary(l, op, r)).Ok?
    ensures Compile(l).Ok? && Compile(r).Ok? && Compile(Binary(l, op, r)).value.labels == []
    ensures var e, P := Binary(l, op, r), Final(Binary(l, op, r), ctx);
      row in Evaluate(Compile(e).value.query, P, w)
      <==> CombinedIn(row, Evaluate(Compile(l).value.query, P, w), op, Evaluate(Compile(r).value.query, P, w), w)
  {
    hide Compile, Evaluate, Denote, Rebind, Final, BinaryPoints, CombinedIn, Map, AsRow, Clean, Labeled;
    var e := Binary(l, op, r);
    var P := Final(e, ctx);
    assert LabelsOf(e) == [];
    hide LabelsOf;
    BinaryParts(l, op, r, ctx, w);
    PointsOf(e, ctx, w);
    BinaryPointsCombine(Denote(Rebind(l, P), ctx, w), op, Denote(Rebind(r, P), ctx, w), row, w);
  }

  /** A number is one row, at the end of the window. */
  lemma NumberRows(x: real, ctx: CompileCtx, w: World)
    ensures Evaluate(Compile(Number(x)).value.query, Final(Number(x), ctx), w) == [map["t" := Time(Seconds(ctx.toMs)), "v" := Num(x)]]
    ensures Compile(Number(x)).value.labels == []
  {
    var e := Number(x);
    PointsOf(e, ctx, w);
    var p := Point(Time(ToSecs(ctx)), map[], x);
    assert Denote(Rebind(e, Final(e, ctx)), ctx, w) == [p];
    assert AsRow()(p) == map["t" := Time(Seconds(ctx.toMs)), "v" := Num(x)];
    hide Evaluate;
    assert Map([p], AsRow()) == [AsRow()(p)];
  }
}
