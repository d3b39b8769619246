/** A binary operator whose operands filter one metric by different label values. */
module DslOperands {
  import opened Lists
  import opened Sql
  import opened Dsl
  import opened DslMeaning
  import opened DslCorrect
  import opened DslQueries
  import opened DslTheorem
  import opened DslAlgebra
  import opened DslConflicts
  import opened DslCombines

  function CallsTo(a: string): VectorExpr { CALLS.(labels := [LabelMatch("callee_program", Eq, a)]) }

  function Operands(a: string, op: ArithOp, b: string): Expr { Binary(Vector(CallsTo(a)), op, Vector(CallsTo(b))) }

  /** The points of the calls to one program. */
  function CallPoints(a: string, ctx: CompileCtx, w: World): seq<Point> {
    MetricPoints(CALLS_DEF, CallsTo(a).labels, None, ctx, w)
  }

  // ----- what the query computes -----

  lemma OperandsCompile(a: string, op: ArithOp, b: string)
    ensures Compile(Operands(a, op, b)).Ok?
    ensures Binds(Operands(a, op, b)) == [Binding(Label(0), Str(a)), Binding(Label(0), Str(b))]
  {
    CallsCompile();
    hide MetricRegistry;
    var x, y := CallsTo(a).labels, CallsTo(b).labels;
    assert ColumnOf(CALLS_DEF.labels, "callee_program") == Some("callee_program");
    assert LabelsKnown(CALLS_DEF, x) && LabelsKnown(CALLS_DEF, y);
    assert CALLS.name[0] == 'c' && EVENT[0] == 'e';
    assert x[..0] == [] && y[..0] == [];
    assert LabelBinds(x, false) == [] + [Binding(Label(0), Str(a))];
    assert LabelBinds(y, false) == [] + [Binding(Label(0), Str(b))];
    hide MetricConds, MetricQuery;
  }

  lemma DenoteCalls(a: string, ctx: CompileCtx, w: World)
    ensures Denote(Vector(CallsTo(a)), ctx, w) == CallPoints(a, ctx, w)
  {
    CallsCompile();
    assert CALLS.name[0] == 'c' && EVENT[0] == 'e';
    hide MetricRegistry, MetricPoints;
  }

  /** Both operands are filtered by the second value. */
  lemma OperandsReadTheSecond(a: string, op: ArithOp, b: string, ctx: CompileCtx, w: World)
    ensures var e, bs := Operands(a, op, b), CallPoints(b, ctx, w);
      && Compile(e).Ok?
      && Evaluate(Compile(e).value.query, Final(e, ctx), w) == Map(BinaryPoints(bs, op, bs, w), AsRow())
  {
    var e, P := Operands(a, op, b), Final(Operands(a, op, b), ctx);
    OperandsCompile(a, op, b);
    LastBound(BaseParams(ctx), Binds(e), 1);
    assert GetParam(P, Label(0)) == Str(b);
    assert CALLS.name[0] == 'c' && EVENT[0] == 'e';
    assert RebindLabels(CallsTo(a).labels, P, false) == CallsTo(b).labels;
    assert RebindLabels(CallsTo(b).labels, P, false) == CallsTo(b).labels;
    assert Rebind(e, P) == Operands(b, op, b);
    DenoteCalls(b, ctx, w);
    hide Compile, Evaluate, Final, Rebind, RebindLabels, BinaryPoints, CallPoints, CallsTo;
    LastBindingWins(e, ctx, w);
  }

  // ----- points of distinct times -----

  ghost predicate OneATime(points: seq<Point>) {
    && (forall p :: p in points ==> p.t.Time?)
    && forall i, j :: 0 <= i < j < |points| ==> points[i].t != points[j].t
  }

  ghost predicate Ascending(points: seq<Point>) {
    && (forall p :: p in points ==> p.t.Time?)
    && forall i, j :: 0 <= i < j < |points| ==> points[i].t.secs < points[j].t.secs
  }

  lemma {:induction false} InsertAscending(ys: seq<Point>, x: Point)
    requires Ascending(ys) && x.t.Time? && forall y :: y in ys ==> y.t != x.t
    ensures Ascending(InsertSorted(ys, x, Earlier()))
  {
    if ys != [] && Earlier()(x, ys[|ys| - 1]) {
      var init, last := ys[..|ys| - 1], ys[|ys| - 1];
      InsertAscending(init, x);
      InsertMembers(init, x, Earlier());
      var inserted := InsertSorted(init, x, Earlier());
      assert forall i :: 0 <= i < |inserted| ==> inserted[i] in inserted;
    }
  }

  lemma {:induction false} SortAscending(xs: seq<Point>)
    requires OneATime(xs)
    ensures Ascending(Sort(xs, Earlier()))
  {
    if xs != [] {
      var init, last := xs[..|xs| - 1], xs[|xs| - 1];
      SortAscending(init);
      SortMembers(init, Earlier());
      assert last in xs;
      InsertAscending(Sort(init, Earlier()), last);
    }
  }

  /** Ascending sequences of the same points are one. */
  lemma {:induction false} AscendingUnique(xs: seq<Point>, ys: seq<Point>)
    requires Ascending(xs) && Ascending(ys) && forall p :: p in xs <==> p in ys
    ensures xs == ys
  {
    assert xs != [] ==> xs[0] in ys;
    assert ys != [] ==> ys[0] in ys && ys[0] in xs;
    if xs != [] {
      assert xs[0] == ys[0];
      forall p ensures p in xs[1..] <==> p in ys[1..] {
        assert p in xs <==> p == xs[0] || p in xs[1..];
        assert p in ys <==> p == ys[0] || p in ys[1..];
      }
      AscendingUnique(xs[1..], ys[1..]);
    }
  }

  // ----- the pairs of two sequences of distinct times -----

  function Joined(ls: seq<Point>, op: ArithOp, rs: seq<Point>, w: World): seq<Point> {
    Flatten(Map(ls, PairsWith(rs, op, w)))
  }

  lemma {:induction false} FilterOne(rs: seq<Point>, l: Point)
    requires OneATime(rs)
    ensures |Filter(rs, SameTime(l))| <= 1
  {
    if rs != [] {
      FilterOne(rs[1..], l);
      if rs[0].t == l.t {
        forall r | r in rs[1..] ensures !SameTime(l)(r) {
          var i :| 0 <= i < |rs[1..]| && rs[1..][i] == r;
          assert rs[i + 1] == r;
        }
        FilterNone(rs[1..], SameTime(l));
      }
    }
  }

  lemma JoinedFirst(ls: seq<Point>, op: ArithOp, rs: seq<Point>, w: World)
    requires ls != []
    ensures Joined(ls, op, rs, w) == PairsWith(rs, op, w)(ls[0]) + Joined(ls[1..], op, rs, w)
  {
  }

  lemma PairedWith(l: Point, op: ArithOp, rs: seq<Point>, w: World)
    requires OneATime(rs)
    ensures |PairsWith(rs, op, w)(l)| <= 1
    ensures forall r :: r in PairsWith(rs, op, w)(l) ==> exists p :: p in rs && Meets(l, p, r, op, w)
    ensures forall p, r :: p in rs && Meets(l, p, r, op, w) ==> r in PairsWith(rs, op, w)(l)
  {
    var same, out := Filter(rs, SameTime(l)), PairsWith(rs, op, w)(l);
    FilterOne(rs, l);
    assert out == Map(same, Combined(l, op, w));
    hide PairsWith, ArithNum, OneATime;
    forall r | r in out ensures exists p :: p in rs && Meets(l, p, r, op, w) {
      var i :| 0 <= i < |out| && out[i] == r;
      assert same[i] in same && Meets(l, same[i], r, op, w);
    }
    forall p, r | p in rs && Meets(l, p, r, op, w) ensures r in out {
      assert p in same;
      MapMember(same, Combined(l, op, w), r);
      assert Combined(l, op, w)(p) == r;
    }
  }

  lemma LaterTimes(ls: seq<Point>)
    requires ls != [] && OneATime(ls)
    ensures OneATime(ls[1..])
  {
  }

  lemma NoPairs(op: ArithOp, rs: seq<Point>, w: World)
    ensures Joined([], op, rs, w) == [] && OneATime([]) && forall r :: !MetIn([], op, rs, r, w)
  {
  }

  lemma {:induction false} JoinedAre(ls: seq<Point>, op: ArithOp, rs: seq<Point>, w: World)
    requires OneATime(ls) && OneATime(rs)
    ensures OneATime(Joined(ls, op, rs, w))
    ensures forall r :: r in Joined(ls, op, rs, w) <==> MetIn(ls, op, rs, r, w)
  {
    if ls != [] {
      var first, rest := PairsWith(rs, op, w)(ls[0]), Joined(ls[1..], op, rs, w);
      hide Joined, PairsWith, MetIn, Meets, OneATime;
      JoinedFirst(ls, op, rs, w);
      LaterTimes(ls);
      JoinedAre(ls[1..], op, rs, w);
      PairedWith(ls[0], op, rs, w);
      forall r ensures r in first + rest <==> MetIn(ls, op, rs, r, w) {
        assert r in first + rest <==> r in first || r in rest;
        PairedFirst(ls, op, rs, r, w);
      }
      LaterPairs(ls, op, rs, first, rest, w);
    } else {
      hide MetIn;
      NoPairs(op, rs, w);
    }
  }

  lemma PairedFirst(ls: seq<Point>, op: ArithOp, rs: seq<Point>, r: Point, w: World)
    requires ls != []
    ensures MetIn(ls, op, rs, r, w) <==> (exists p :: p in rs && Meets(ls[0], p, r, op, w)) || MetIn(ls[1..], op, rs, r, w)
  {
    hide Meets;
    if MetIn(ls, op, rs, r, w) {
      var l, p :| l in ls && p in rs && Meets(l, p, r, op, w);
      assert l == ls[0] || l in ls[1..];
    }
    if p :| p in rs && Meets(ls[0], p, r, op, w) { assert ls[0] in ls; }
    if MetIn(ls[1..], op, rs, r, w) {
      var l, p :| l in ls[1..] && p in rs && Meets(l, p, r, op, w);
      assert l in ls;
    }
  }

  lemma LaterPairs(ls: seq<Point>, op: ArithOp, rs: seq<Point>, first: seq<Point>, rest: seq<Point>, w: World)
    requires ls != [] && OneATime(ls) && OneATime(rest) && |first| <= 1
    requires forall r :: r in first ==> exists p :: p in rs && Meets(ls[0], p, r, op, w)
    requires forall r :: r in rest ==> MetIn(ls[1..], op, rs, r, w)
    ensures OneATime(first + rest)
  {
    assert ls[0] in ls;
    assert forall r :: r in first ==> r.t == ls[0].t;
    forall r | r in rest ensures r.t != ls[0].t {
      var l, p :| l in ls[1..] && p in rs && Meets(l, p, r, op, w);
      var i :| 0 <= i < |ls[1..]| && ls[1..][i] == l;
      assert ls[i + 1] == l;
    }
    assert forall i :: 0 <= i < |rest| ==> rest[i] in rest;
  }

  // ----- when the two results are one -----

  ghost predicate SameCombined(ls: seq<Point>, op: ArithOp, p: Point, w: World) {
    exists l :: l in ls && l.t == p.t && ArithNum(op, l.v, p.v, w) == ArithNum(op, p.v, p.v, w)
  }

  lemma SameTimeSame(xs: seq<Point>, a: Point, b: Point)
    requires OneATime(xs) && a in xs && b in xs && a.t == b.t
    ensures a == b
  {
    var i :| 0 <= i < |xs| && xs[i] == a;
    var j :| 0 <= j < |xs| && xs[j] == b;
  }

  lemma PairedAlike(ls: seq<Point>, op: ArithOp, rs: seq<Point>, r: Point, w: World)
    requires OneATime(ls) && OneATime(rs) && forall p :: p in rs ==> SameCombined(ls, op, p, w)
    ensures MetIn(ls, op, rs, r, w) <==> MetIn(rs, op, rs, r, w)
  {
    if MetIn(ls, op, rs, r, w) {
      var l, p :| l in ls && p in rs && Meets(l, p, r, op, w);
      assert SameCombined(ls, op, p, w);
      var l' :| l' in ls && l'.t == p.t && ArithNum(op, l'.v, p.v, w) == ArithNum(op, p.v, p.v, w);
      SameTimeSame(ls, l, l');
      assert Meets(p, p, r, op, w);
    }
    if MetIn(rs, op, rs, r, w) {
      var q, p :| q in rs && p in rs && Meets(q, p, r, op, w);
      SameTimeSame(rs, q, p);
      assert SameCombined(ls, op, p, w);
      var l :| l in ls && l.t == p.t && ArithNum(op, l.v, p.v, w) == ArithNum(op, p.v, p.v, w);
      assert Meets(l, p, r, op, w);
    }
  }

  lemma SameCombinedGives(ls: seq<Point>, op: ArithOp, rs: seq<Point>, p: Point, w: World)
    requires OneATime(rs) && p in rs && MetIn(ls, op, rs, Point(p.t, map[], ArithNum(op, p.v, p.v, w)), w)
    ensures SameCombined(ls, op, p, w)
  {
    var l, q :| l in ls && q in rs && Meets(l, q, Point(p.t, map[], ArithNum(op, p.v, p.v, w)), op, w);
    SameTimeSame(rs, p, q);
  }

  lemma PlainRows(a: Point, b: Point)
    requires a.labels == map[] == b.labels && AsRow()(a) == AsRow()(b)
    ensures a == b
  {
    assert AsRow()(a)["t"] == a.t && AsRow()(b)["t"] == b.t;
    assert AsRow()(a)["v"] == Num(a.v) && AsRow()(b)["v"] == Num(b.v);
  }

  lemma JoinSorted(ls: seq<Point>, op: ArithOp, rs: seq<Point>, w: World)
    requires OneATime(ls) && OneATime(rs)
    ensures Ascending(BinaryPoints(ls, op, rs, w))
    ensures forall r :: r in BinaryPoints(ls, op, rs, w) <==> MetIn(ls, op, rs, r, w)
  {
    JoinedAre(ls, op, rs, w);
    SortAscending(Joined(ls, op, rs, w));
    SortMembers(Joined(ls, op, rs, w), Earlier());
  }

  /** Joining two sequences, or the second with itself, gives the same rows iff the first matches the second at each of its times. */
  lemma JoinsAlikeWhen(ls: seq<Point>, op: ArithOp, rs: seq<Point>, w: World)
    requires OneATime(ls) && OneATime(rs)
    ensures Map(BinaryPoints(ls, op, rs, w), AsRow()) == Map(BinaryPoints(rs, op, rs, w), AsRow())
      <==> forall p :: p in rs ==> SameCombined(ls, op, p, w)
  {
    var one, two := BinaryPoints(ls, op, rs, w), BinaryPoints(rs, op, rs, w);
    hide BinaryPoints, MetIn, SameCombined, OneATime, Ascending, ArithNum;
    JoinSorted(ls, op, rs, w);
    JoinSorted(rs, op, rs, w);
    if forall p :: p in rs ==> SameCombined(ls, op, p, w) {
      forall r ensures r in one <==> r in two {
        PairedAlike(ls, op, rs, r, w);
      }
      AscendingUnique(one, two);
    }
    if Map(one, AsRow()) == Map(two, AsRow()) {
      hide Map, AsRow;
      forall p | p in rs ensures SameCombined(ls, op, p, w) {
        var r := Point(p.t, map[], ArithNum(op, p.v, p.v, w));
        SelfPaired(op, rs, p, w);
        RowsShared(one, two, r, ls, op, rs, w);
        SameCombinedGives(ls, op, rs, p, w);
      }
    }
  }

  lemma SelfPaired(op: ArithOp, rs: seq<Point>, p: Point, w: World)
    requires p in rs
    ensures MetIn(rs, op, rs, Point(p.t, map[], ArithNum(op, p.v, p.v, w)), w)
  {
    assert Meets(p, p, Point(p.t, map[], ArithNum(op, p.v, p.v, w)), op, w);
  }

  lemma RowsShared(one: seq<Point>, two: seq<Point>, r: Point, ls: seq<Point>, op: ArithOp, rs: seq<Point>, w: World)
    requires Map(one, AsRow()) == Map(two, AsRow()) && r in two && r.labels == map[]
    requires forall x :: x in one ==> MetIn(ls, op, rs, x, w)
    ensures MetIn(ls, op, rs, r, w)
  {
    assert forall x :: x in one ==> x.labels == map[];
    hide MetIn;
    var i :| 0 <= i < |two| && two[i] == r;
    assert |one| == |two| && Map(one, AsRow())[i] == Map(two, AsRow())[i];
    assert one[i] in one;
    PlainRows(one[i], r);
  }

  // ----- the points of calls to one program -----

  lemma CallLabels(row: Row, a: string, ctx: CompileCtx, w: World)
    requires Selects(CALLS_DEF, CallsTo(a).labels, None, ctx, w)(row)
    ensures SampleKey(CALLS_DEF)(row).labels == map["callee_program" := Str(a)] && SampleKey(CALLS_DEF)(row).t.Time?
  {
    var m := CallsTo(a).labels[0];
    assert ColumnOf(CALLS_DEF.labels, "callee_program") == Some("callee_program");
    assert Passes(m.op, LabelCell(CALLS_DEF, m.key, row), m.value, w);
    assert LabelNames(CALLS_DEF.labels) == ["callee_program"];
  }

  lemma CallPointsOneATime(a: string, ctx: CompileCtx, w: World)
    ensures OneATime(CallPoints(a, ctx, w))
  {
    var samples, key := Filter(TableRows(w, CALLS_DEF.table), Selects(CALLS_DEF, CallsTo(a).labels, None, ctx, w)), SampleKey(CALLS_DEF);
    var gs := Groups(samples, key);
    var made := Map(gs, SamplePoint(CALLS_DEF));
    GroupsExactly(samples, key);
    forall g | g in gs ensures g.key.t.Time? && g.key.labels == map["callee_program" := Str(a)] {
      KeyOfGroup(samples, key, g);
      var row :| row in samples && key(row) == g.key;
      CallLabels(row, a, ctx, w);
    }
    hide Groups, SampleKey, MetricValue, Selects, CALLS_DEF;
    forall i | 0 <= i < |made| ensures gs[i] in gs && made[i].t == gs[i].key.t && made[i].labels == gs[i].key.labels {
    }
    hide SamplePoint, Map;
    OneATimeFrom(gs, made, map["callee_program" := Str(a)]);
    SortAscending(made);
  }

  lemma OneATimeFrom(gs: seq<Group<PointKey, Row>>, made: seq<Point>, labels: map<string, Value>)
    requires |gs| == |made| && forall i :: 0 <= i < |gs| ==> gs[i] in gs && made[i].t == gs[i].key.t
    requires forall i, j :: 0 <= i < j < |gs| ==> gs[i].key != gs[j].key
    requires forall g :: g in gs ==> g.key.t.Time? && g.key.labels == labels
    ensures OneATime(made)
  {
    forall i, j | 0 <= i < j < |made| ensures made[i].t != made[j].t {
      assert gs[i].key != gs[j].key && gs[i] in gs && gs[j] in gs;
    }
  }

  // ----- when the query means what was written -----

  /** At every minute with calls to b there are calls to a that the operator combines with them to the same value as b's own. */
  ghost predicate OperandsAgree(a: string, op: ArithOp, b: string, ctx: CompileCtx, w: World) {
    forall p :: p in CallPoints(b, ctx, w) ==> SameCombined(CallPoints(a, ctx, w), op, p, w)
  }

  /** In a given database the query means what was written iff the operands agree there. */
  lemma OperandsMeanWhen(a: string, op: ArithOp, b: string, ctx: CompileCtx, w: World)
    ensures Compile(Operands(a, op, b)).Ok?
    ensures Means(Operands(a, op, b), ctx, w) <==> OperandsAgree(a, op, b, ctx, w)
  {
    var ls, rs := CallPoints(a, ctx, w), CallPoints(b, ctx, w);
    hide CallsTo, BinaryPoints, CallPoints, Compile, Evaluate, Final, MetricRegistry;
    OperandsReadTheSecond(a, op, b, ctx, w);
    DenoteCalls(a, ctx, w);
    DenoteCalls(b, ctx, w);
    assert Denote(Operands(a, op, b), ctx, w) == BinaryPoints(ls, op, rs, w);
    CallPointsOneATime(a, ctx, w);
    CallPointsOneATime(b, ctx, w);
    hide Denote, SameCombined, OneATime, Map, AsRow;
    JoinsAlikeWhen(ls, op, rs, w);
  }

  /** A call of b at the end of the window. */
  function CallTo(b: string, ctx: CompileCtx): Row {
    map["program_id" := Str(ctx.programId), "cluster" := Str(ctx.cluster), "minute" := Time(ToSecs(ctx)),
        "callee_program" := Str(b)]
  }

  lemma CallSelected(a: string, b: string, ctx: CompileCtx, w: World)
    requires FromSecs(ctx) <= ToSecs(ctx)
    ensures Selects(CALLS_DEF, CallsTo(a).labels, None, ctx, w)(CallTo(b, ctx)) <==> a == b
  {
    assert "program_id"[0] == 'p' && |"cluster"| == 7 && "minute"[0] == 'm' && |"callee_program"| == 14;
    assert ColumnOf(CALLS_DEF.labels, "callee_program") == Some("callee_program");
    var m := CallsTo(a).labels[0];
    assert LabelCell(CALLS_DEF, m.key, CallTo(b, ctx)) == Str(b);
  }

  lemma OneCall(a: string, b: string, ctx: CompileCtx)
    requires FromSecs(ctx) <= ToSecs(ctx)
    ensures |CallPoints(a, ctx, WorldOf("metrics_cpi_minute", [CallTo(b, ctx)]))| == if a == b then 1 else 0
  {
    var row := CallTo(b, ctx);
    var w := WorldOf("metrics_cpi_minute", [row]);
    CallSelected(a, b, ctx, w);
    var samples := Filter([row], Selects(CALLS_DEF, CallsTo(a).labels, None, ctx, w));
    hide CallTo, Selects;
    assert samples == if a == b then [row] else [];
    assert |Groups(samples, SampleKey(CALLS_DEF))| == |samples|;
    SortMembers(Map(Groups(samples, SampleKey(CALLS_DEF)), SamplePoint(CALLS_DEF)), Earlier());
    hide SampleKey, SamplePoint;
  }

  lemma NoCalls(b: string, ctx: CompileCtx, w: World)
    requires FromSecs(ctx) > ToSecs(ctx)
    ensures CallPoints(b, ctx, w) == []
  {
    FilterNone(TableRows(w, "metrics_cpi_minute"), Selects(CALLS_DEF, CallsTo(b).labels, None, ctx, w));
  }

  /** In every database iff the two values are one or the window is empty. */
  lemma OperandsAlwaysMeanWhen(a: string, op: ArithOp, b: string, ctx: CompileCtx)
    ensures Compile(Operands(a, op, b)).Ok?
    ensures (forall w :: Means(Operands(a, op, b), ctx, w)) <==> a == b || FromSecs(ctx) > ToSecs(ctx)
  {
    var e, w := Operands(a, op, b), WorldOf("metrics_cpi_minute", [CallTo(b, ctx)]);
    OperandsMeanWhen(a, op, b, ctx, w);
    hide Compile, Means, CallPoints, TruncDiv;
    if a != b && FromSecs(ctx) <= ToSecs(ctx) {
      OneCall(a, b, ctx);
      OneCall(b, b, ctx);
      var p := CallPoints(b, ctx, w)[0];
      assert p in CallPoints(b, ctx, w) && !SameCombined(CallPoints(a, ctx, w), op, p, w);
    } else {
      forall w ensures Means(e, ctx, w) {
        OperandsMeanWhen(a, op, b, ctx, w);
        if a != b { NoCalls(b, ctx, w); }
      }
    }
  }
}
