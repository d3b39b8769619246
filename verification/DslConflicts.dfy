/** Expressions whose bindings conflict: in which databases their queries still mean what was written. */
module DslConflicts {
  import opened Lists
  import opened Sql
  import opened Dsl
  import opened DslMeaning
  import opened DslCorrect
  import opened DslQueries
  import opened DslTheorem
  import opened DslAlgebra

  /** The query's rows are those of the expression as written. */
  ghost predicate Means(e: Expr, ctx: CompileCtx, w: World)
    requires Compile(e).Ok?
  {
    Evaluate(Compile(e).value.query, Final(e, ctx), w) == Map(Denote(e, ctx, w), AsRow())
  }

  // ----- one top or bottom inside another -----

  function Ranked(name: string, k: real, inner: Expr): Expr { Func(name, [Number(k), inner]) }

  lemma RankedParts(name: string, k: real, inner: Expr)
    requires IsTop(name)
    ensures Binds(Ranked(name, k, inner)) == [Binding(K, Int(ToU32(k)))] + Binds(inner)
    ensures k >= 1.0 && Compile(inner).Ok? ==> Compile(Ranked(name, k, inner)).Ok?
    ensures LabelsOf(Ranked(name, k, inner)) == LabelsOf(inner)
  {
    assert !IsRate(name) && |name| != |"histogram_quantile"|;
  }

  lemma RankedIdle(name: string, k: real, inner: Expr, ctx: CompileCtx, w: World)
    requires IsTop(name)
    ensures RangesIdle(Ranked(name, k, inner), ctx, w) <==> RangesIdle(inner, ctx, w)
  {
    assert !IsRate(name) && |name| != |"histogram_quantile"|;
  }

  /** Bindings before conflict-free ones with the same name are overwritten. */
  lemma TailAgrees(P: Params, b: Binding, bs: seq<Binding>)
    requires forall x, y :: x in bs && y in bs && x.name == y.name ==> x.value == y.value
    ensures Agrees(InsertAll(P, [b] + bs), bs)
  {
    var all := [b] + bs;
    forall x | x in bs ensures GetParam(InsertAll(P, all), x.name) == x.value {
      var i := LastOf(all, x.name);
      var j :| 0 <= j < |bs| && bs[j] == x;
      assert all[j + 1] == x;
      LastBound(P, all, i);
      assert i >= j + 1 && all[i] == bs[i - 1] && bs[i - 1] in bs;
    }
  }

  /** The outer expression is evaluated with the inner number. */
  lemma NestedReadsInner(f: string, j: real, g: string, k: real, e: Expr, ctx: CompileCtx)
    requires IsTop(f) && IsTop(g) && j >= 1.0 && k >= 1.0 && Compile(e).Ok? && NoConflict(Ranked(g, k, e))
    ensures var inner, outer := Ranked(g, k, e), Ranked(f, j, Ranked(g, k, e));
      && Compile(inner).Ok? && Compile(outer).Ok?
      && Rebind(outer, Final(outer, ctx)) == Func(f, [Number(ToU32(k) as real), Normal(inner)])
      && Rebind(inner, Final(outer, ctx)) == Normal(inner)
      && HasBase(Final(outer, ctx), ctx) && Covers(Final(outer, ctx), Binds(inner))
  {
    var inner, outer := Ranked(g, k, e), Ranked(f, j, Ranked(g, k, e));
    var P, b := Final(outer, ctx), Binding(K, Int(ToU32(j)));
    RankedParts(g, k, e);
    RankedParts(f, j, inner);
    FinalCovers(outer, ctx);
    CoversParts(P, [b], Binds(inner));
    TailAgrees(BaseParams(ctx), b, Binds(inner));
    UsesAreBinds(inner);
    ReadsBackWhen(inner, P);
    assert Binding(K, Int(ToU32(k))) in Binds(inner);
    assert !IsRate(f) && |f| != |"histogram_quantile"|;
    assert IntIn(P, K) == ToU32(k);
  }

  /** Points of one time and distinct labels are their own totals, as many as before. */
  lemma TotalsOfDistinct(points: seq<Point>, ls: seq<string>, now: Value)
    requires OneEach(points) && Labeled(points, ls) && forall p :: p in points ==> p.t == now
    requires ls == [] ==> |points| == 1
    ensures |Totals(ls, now, points)| == |points|
  {
    if ls != [] { DistinctAtOneTime(points, ls, now); }
  }

  lemma RestrictAll(labels: map<string, Value>, ls: seq<string>)
    requires labels.Keys == LabelSet(ls)
    ensures Restrict(labels, ls) == labels
  {
    assert Restrict(labels, ls).Keys == labels.Keys;
  }

  /** Elements of distinct keys make a group each. */
  lemma {:induction false} GroupEach<Key(!new), A(!new)>(xs: seq<A>, key: A -> Key)
    requires forall i, j :: 0 <= i < j < |xs| ==> key(xs[i]) != key(xs[j])
    ensures |Groups(xs, key)| == |xs|
    decreases |xs|
  {
    if xs != [] {
      var rest := xs[1..];
      forall x | x in rest ensures LacksKey(key, key(xs[0]))(x) {
        var i :| 0 <= i < |rest| && rest[i] == x;
        assert xs[i + 1] == x;
      }
      FilterAll(rest, LacksKey(key, key(xs[0])));
      forall i, j | 0 <= i < j < |rest| ensures key(rest[i]) != key(rest[j]) {
        assert rest[i] == xs[i + 1] && rest[j] == xs[j + 1];
      }
      GroupEach(rest, key);
    }
  }

  lemma {:induction false} FilterAll<A(!new)>(xs: seq<A>, p: A -> bool)
    requires forall x :: x in xs ==> p(x)
    ensures Filter(xs, p) == xs
  {
    if xs != [] {
      assert xs[0] in xs;
      FilterAll(xs[1..], p);
    }
  }

  lemma TotalsOneEach(ls: seq<string>, now: Value, points: seq<Point>)
    ensures OneEach(Totals(ls, now, points)) && forall p :: p in Totals(ls, now, points) ==> p.t == now
    ensures ls == [] ==> |Totals(ls, now, points)| == 1
  {
    if ls != [] { GroupsExactly(points, LabelsAt(ls)); }
  }

  /** What a top or bottom returns has one time and distinct labels. */
  lemma TopOneEach(top: bool, k: nat, ls: seq<string>, now: Value, points: seq<Point>)
    requires k >= 1
    ensures var out := TopPoints(top, k, ls, now, points);
      && OneEach(out) && (forall p :: p in out ==> p.t == now) && (ls == [] ==> |out| == 1)
      && |out| == if |Totals(ls, now, points)| <= k then |Totals(ls, now, points)| else k
  {
    var totals, before := Totals(ls, now, points), RankedBefore(top);
    TotalsOneEach(ls, now, points);
    SortOneEach(totals, before);
    SortMembers(totals, before);
  }

  /** Two prefixes of one sequence have the same rows iff they are equally long. */
  lemma PrefixRows(points: seq<Point>, a: nat, b: nat)
    ensures Map(Take(points, a), AsRow()) == Map(Take(points, b), AsRow()) <==> |Take(points, a)| == |Take(points, b)|
  {
  }

  /** The totals that an outer top or bottom ranks, best first. */
  function Candidates(f: string, inner: Expr, ctx: CompileCtx, w: World): seq<Point> {
    Sort(Totals(LabelsOf(inner), Time(ToSecs(ctx)), Denote(inner, ctx, w)), RankedBefore(f == "topk"))
  }

  lemma NestedEvaluates(f: string, j: real, g: string, k: real, e: Expr, ctx: CompileCtx, w: World)
    requires IsTop(f) && IsTop(g) && j >= 1.0 && k >= 1.0 && Compile(e).Ok? && NoConflict(Ranked(g, k, e))
    requires RangesIdle(e, ctx, w)
    ensures var inner, outer := Ranked(g, k, e), Ranked(f, j, Ranked(g, k, e));
      && Compile(outer).Ok?
      && Evaluate(Compile(outer).value.query, Final(outer, ctx), w) == Map(Take(Candidates(f, inner, ctx, w), ToU32(k)), AsRow())
      && Labeled(Denote(inner, ctx, w), LabelsOf(inner))
  {
    var inner, outer := Ranked(g, k, e), Ranked(f, j, Ranked(g, k, e));
    NestedReadsInner(f, j, g, k, e, ctx);
    LastBindingWins(outer, ctx, w);
    EvalCompiled(inner, ctx, Final(outer, ctx), w);
    RankedIdle(g, k, e, ctx, w);
    NormalMeansTheSame(inner, ctx, w);
    hide ToU32, Denote, Compile, Rebind, Evaluate, Final, Normal, Totals, Map, Sort, Binds, Candidates, RangesIdle;
    NestedDenoteNormal(f, k, inner, ctx, w);
  }

  lemma CandidatesCount(f: string, g: string, k: real, e: Expr, ctx: CompileCtx, w: World)
    requires IsTop(g) && k >= 1.0
    requires Labeled(Denote(Ranked(g, k, e), ctx, w), LabelsOf(Ranked(g, k, e)))
    ensures var n := |Totals(LabelsOf(e), Time(ToSecs(ctx)), Denote(e, ctx, w))|;
      |Candidates(f, Ranked(g, k, e), ctx, w)| == if n <= ToU32(k) then n else ToU32(k)
  {
    var inner, now := Ranked(g, k, e), Time(ToSecs(ctx));
    RankedParts(g, k, e);
    InnerPoints(g, k, e, ctx, w);
    AtLeastOne(k);
    hide ToU32, Denote, Totals, OneEach, Labeled, Sort;
    TotalsOfDistinct(Denote(inner, ctx, w), LabelsOf(inner), now);
    SortMembers(Totals(LabelsOf(inner), now, Denote(inner, ctx, w)), RankedBefore(f == "topk"));
  }

  /**
  A top or bottom k inside a top or bottom j means what was written, in a database where no dropped range
  matters, iff j is at least k or the inner expression has no more than j totals there.
  */
  lemma NestedMeansWhen(f: string, j: real, g: string, k: real, e: Expr, ctx: CompileCtx, w: World)
    requires IsTop(f) && IsTop(g) && j >= 1.0 && k >= 1.0 && Compile(e).Ok? && NoConflict(Ranked(g, k, e))
    requires RangesIdle(e, ctx, w)
    ensures var outer := Ranked(f, j, Ranked(g, k, e));
      && Compile(outer).Ok?
      && (Means(outer, ctx, w) <==>
            ToU32(j) >= ToU32(k) || |Totals(LabelsOf(e), Time(ToSecs(ctx)), Denote(e, ctx, w))| <= ToU32(j))
  {
    var inner := Ranked(g, k, e);
    NestedEvaluates(f, j, g, k, e, ctx, w);
    CandidatesCount(f, g, k, e, ctx, w);
    hide ToU32, Compile, Evaluate, Final, Totals, Candidates, Labeled, Map, Denote;
    NestedDenote(f, j, inner, ctx, w);
    PrefixRows(Candidates(f, inner, ctx, w), ToU32(k), ToU32(j));
  }

  lemma AtLeastOne(k: real)
    requires k >= 1.0
    ensures ToU32(k) >= 1
  {
  }

  lemma NestedDenote(f: string, j: real, inner: Expr, ctx: CompileCtx, w: World)
    requires IsTop(f)
    ensures Denote(Ranked(f, j, inner), ctx, w)
         == Take(Candidates(f, inner, ctx, w), ToU32(j))
  {
    assert !IsRate(f) && |f| != |"histogram_quantile"|;
    hide ToU32, Totals, LabelsOf, Sort;
    assert Denote(Ranked(f, j, inner), ctx, w)
        == TopPoints(f == "topk", ToU32(j), LabelsOf(inner), Time(ToSecs(ctx)), Denote(inner, ctx, w));
  }

  lemma NestedDenoteNormal(f: string, k: real, inner: Expr, ctx: CompileCtx, w: World)
    requires IsTop(f) && RangesIdle(inner, ctx, w)
    ensures Denote(Func(f, [Number(ToU32(k) as real), Normal(inner)]), ctx, w)
         == Take(Candidates(f, inner, ctx, w), ToU32(k))
  {
    NormalMeansTheSame(inner, ctx, w);
    NestedDenote(f, ToU32(k) as real, Normal(inner), ctx, w);
    assert ToU32(ToU32(k) as real) == ToU32(k);
  }

  lemma InnerPoints(g: string, k: real, e: Expr, ctx: CompileCtx, w: World)
    requires IsTop(g) && k >= 1.0
    ensures var points, n := Denote(Ranked(g, k, e), ctx, w), |Totals(LabelsOf(e), Time(ToSecs(ctx)), Denote(e, ctx, w))|;
      && OneEach(points) && (forall p :: p in points ==> p.t == Time(ToSecs(ctx)))
      && (LabelsOf(e) == [] ==> |points| == 1) && |points| == if n <= ToU32(k) then n else ToU32(k)
  {
    NestedDenote(g, k, e, ctx, w);
    TopOneEach(g == "topk", ToU32(k), LabelsOf(e), Time(ToSecs(ctx)), Denote(e, ctx, w));
  }

  // ----- a database that tells j from k -----

  const CALLS := VectorExpr("cpi_calls_total", [], None)

  const CALLS_DEF := MetricDef("metrics_cpi_minute", "minute", CountMerge("calls_state"), Counter, None,
                               [("callee_program", "callee_program")])

  lemma CallsCompile()
    ensures MetricRegistry(CALLS.name) == Some(CALLS_DEF)
    ensures Compile(Vector(CALLS)).Ok? && Binds(Vector(CALLS)) == [] && LabelsOf(Vector(CALLS)) == ["callee_program"]
    ensures forall ctx, w :: Denote(Vector(CALLS), ctx, w) == MetricPoints(CALLS_DEF, [], None, ctx, w)
  {
    var name := CALLS.name;
    assert name[0] == 'c' && "latency_processed_to_confirmed_ms"[0] == 'l' && "latency_confirmed_to_finalized_ms"[0] == 'l'
        && "latency_wallclock_perceived_ms"[0] == 'l' && "instruction_calls_total"[0] == 'i' && "instruction_cu_consumed"[0] == 'i'
        && "errors_total"[0] == 'e' && EVENT[0] == 'e';
    assert LabelNames(CALLS_DEF.labels) == ["callee_program"];
  }

  function Name(n: nat): (s: string)
    ensures |s| == n
  {
    seq(n, _ => 'a')
  }

  /** A call of the n-th program at the end of the range. */
  function CallRow(n: nat, ctx: CompileCtx): Row {
    map["program_id" := Str(ctx.programId), "cluster" := Str(ctx.cluster), "minute" := Time(ToSecs(ctx)),
        "callee_program" := Str(Name(n))]
  }

  function CallRows(n: nat, ctx: CompileCtx): (rows: seq<Row>)
    ensures |rows| == n && forall i :: 0 <= i < n ==> rows[i] == CallRow(i, ctx)
  {
    seq(n, i requires 0 <= i < n => CallRow(i, ctx))
  }

  function WorldOf(table: string, rows: seq<Row>): World {
    World(map[table := rows], (_, _) => false, (_, _) => "", (_, _) => 0.0, _ => 0.0)
  }

  lemma CallCells(n: nat, ctx: CompileCtx)
    ensures var row := CallRow(n, ctx);
      && Get(row, "program_id") == Str(ctx.programId) && Get(row, "cluster") == Str(ctx.cluster)
      && Get(row, "minute") == Time(ToSecs(ctx)) && Get(row, "callee_program") == Str(Name(n))
  {
    assert |"program_id"| == 10 && |"cluster"| == 7 && |"minute"| == 6 && |"callee_program"| == 14;
  }

  lemma CallKey(n: nat, ctx: CompileCtx)
    ensures SampleKey(CALLS_DEF)(CallRow(n, ctx))
         == PointKey(Minute(Time(ToSecs(ctx))), map["callee_program" := Str(Name(n))])
  {
    CallCells(n, ctx);
    var labels := CALLS_DEF.labels;
    assert LabelNames(labels) == ["callee_program"];
    assert SampleLabels(labels, CallRow(n, ctx)) == map["callee_program" := Str(Name(n))];
  }

  lemma CallsSelected(n: nat, ctx: CompileCtx, w: World)
    requires FromSecs(ctx) <= ToSecs(ctx)
    ensures Filter(CallRows(n, ctx), Selects(CALLS_DEF, [], None, ctx, w)) == CallRows(n, ctx)
  {
    forall row | row in CallRows(n, ctx) ensures Selects(CALLS_DEF, [], None, ctx, w)(row) {
      var i :| 0 <= i < n && CallRows(n, ctx)[i] == row;
      CallCells(i, ctx);
    }
    FilterAll(CallRows(n, ctx), Selects(CALLS_DEF, [], None, ctx, w));
  }

  lemma CallGroups(n: nat, ctx: CompileCtx)
    ensures |Groups(CallRows(n, ctx), SampleKey(CALLS_DEF))| == n
    ensures forall g :: g in Groups(CallRows(n, ctx), SampleKey(CALLS_DEF)) ==>
      g.key.t == Minute(Time(ToSecs(ctx))) && g.key.labels.Keys == {"callee_program"}
  {
    var rows, key := CallRows(n, ctx), SampleKey(CALLS_DEF);
    forall i | 0 <= i < n
      ensures key(rows[i]) == PointKey(Minute(Time(ToSecs(ctx))), map["callee_program" := Str(Name(i))])
    {
      CallKey(i, ctx);
    }
    forall i, j | 0 <= i < j < n ensures key(rows[i]) != key(rows[j]) {
      DistinctNames(i, j);
    }
    GroupEach(rows, key);
    forall g | g in Groups(rows, key)
      ensures g.key.t == Minute(Time(ToSecs(ctx))) && g.key.labels.Keys == {"callee_program"}
    {
      KeyOfGroup(rows, key, g);
      var row :| row in rows && key(row) == g.key;
      var k :| 0 <= k < n && rows[k] == row;
    }
  }

  lemma MadeOneEach(rows: seq<Row>, t: Value)
    requires forall g :: g in Groups(rows, SampleKey(CALLS_DEF)) ==> g.key.t == t && g.key.labels.Keys == {"callee_program"}
    ensures var made := Map(Groups(rows, SampleKey(CALLS_DEF)), SamplePoint(CALLS_DEF));
      OneEach(made) && Labeled(made, ["callee_program"]) && forall p :: p in made ==> p.t == t
  {
    var gs, made := Groups(rows, SampleKey(CALLS_DEF)), Map(Groups(rows, SampleKey(CALLS_DEF)), SamplePoint(CALLS_DEF));
    assert LabelSet(["callee_program"]) == {"callee_program"};
    hide Groups, SampleKey, MetricValue, CALLS_DEF;
    GroupsExactly(rows, SampleKey(CALLS_DEF));
    forall i | 0 <= i < |made| ensures gs[i] in gs && OwnKey()(made[i]) == gs[i].key {
    }
    hide SamplePoint, Map;
    MadeFromGroups(gs, made, t);
  }

  lemma MadeFromGroups(gs: seq<Group<PointKey, Row>>, made: seq<Point>, t: Value)
    requires |gs| == |made| && forall i :: 0 <= i < |gs| ==> gs[i] in gs && OwnKey()(made[i]) == gs[i].key
    requires forall i, j :: 0 <= i < j < |gs| ==> gs[i].key != gs[j].key
    requires forall g :: g in gs ==> g.key.t == t && g.key.labels.Keys == {"callee_program"}
    ensures OneEach(made) && (forall p :: p in made ==> p.t == t && p.labels.Keys == {"callee_program"})
  {
    forall i, j | 0 <= i < j < |made| ensures OwnKey()(made[i]) != OwnKey()(made[j]) {
      assert gs[i].key != gs[j].key;
    }
    forall p | p in made ensures p.t == t && p.labels.Keys == {"callee_program"} {
      var i :| 0 <= i < |made| && made[i] == p;
      assert OwnKey()(p) == gs[i].key;
    }
  }

  /** n programs called make n totals. */
  lemma CallTotals(n: nat, ctx: CompileCtx)
    requires FromSecs(ctx) <= ToSecs(ctx)
    ensures var w := WorldOf("metrics_cpi_minute", CallRows(n, ctx));
      |Totals(["callee_program"], Time(ToSecs(ctx)), MetricPoints(CALLS_DEF, [], None, ctx, w))| == n
  {
    var w, rows, t := WorldOf("metrics_cpi_minute", CallRows(n, ctx)), CallRows(n, ctx), Minute(Time(ToSecs(ctx)));
    CallsSelected(n, ctx, w);
    CallGroups(n, ctx);
    var made := Map(Groups(rows, SampleKey(CALLS_DEF)), SamplePoint(CALLS_DEF));
    assert MetricPoints(CALLS_DEF, [], None, ctx, w) == Sort(made, Earlier());
    hide MetricPoints, Selects, CallRows, Groups, SampleKey, SamplePoint, Sort, Totals;
    MadeOneEach(rows, t);
    SortOneEach(made, Earlier());
    SortMembers(made, Earlier());
    SortLabeled(made, Earlier(), ["callee_program"]);
    DistinctAtOneTime(Sort(made, Earlier()), ["callee_program"], t);
  }

  lemma DistinctNames(i: nat, j: nat)
    requires i != j
    ensures map["callee_program" := Str(Name(i))] != map["callee_program" := Str(Name(j))]
  {
    var a, b := map["callee_program" := Str(Name(i))], map["callee_program" := Str(Name(j))];
    assert a["callee_program"] != b["callee_program"];
  }

  lemma DistinctAtOneTime(points: seq<Point>, ls: seq<string>, t: Value)
    requires OneEach(points) && Labeled(points, ls) && (forall p :: p in points ==> p.t == t) && ls != []
    ensures forall now :: |Totals(ls, now, points)| == |points|
  {
    forall i, j | 0 <= i < j < |points| ensures LabelsAt(ls)(points[i]) != LabelsAt(ls)(points[j]) {
      assert points[i] in points && points[j] in points;
      RestrictAll(points[i].labels, ls);
      RestrictAll(points[j].labels, ls);
      assert OwnKey()(points[i]) != OwnKey()(points[j]);
    }
    GroupEach(points, LabelsAt(ls));
  }

  lemma NothingInEmptyRange(ctx: CompileCtx, w: World)
    requires FromSecs(ctx) > ToSecs(ctx)
    ensures MetricPoints(CALLS_DEF, [], None, ctx, w) == []
  {
    FilterNone(TableRows(w, "metrics_cpi_minute"), Selects(CALLS_DEF, [], None, ctx, w));
  }

  lemma {:induction false} FilterNone<A(!new)>(xs: seq<A>, p: A -> bool)
    requires forall x :: x in xs ==> !p(x)
    ensures Filter(xs, p) == []
  {
    if xs != [] { FilterNone(xs[1..], p); }
  }

  function CallsTotal(ctx: CompileCtx, w: World): nat {
    |Totals(["callee_program"], Time(ToSecs(ctx)), MetricPoints(CALLS_DEF, [], None, ctx, w))|
  }

  lemma NestedCallsIn(f: string, j: real, g: string, k: real, ctx: CompileCtx, w: World)
    requires IsTop(f) && IsTop(g) && j >= 1.0 && k >= 1.0
    ensures var outer := Ranked(f, j, Ranked(g, k, Vector(CALLS)));
      Compile(outer).Ok? && (Means(outer, ctx, w) <==> ToU32(j) >= ToU32(k) || CallsTotal(ctx, w) <= ToU32(j))
  {
    CallsCompile();
    RankedParts(g, k, Vector(CALLS));
    assert NoConflict(Ranked(g, k, Vector(CALLS)));
    assert RangesIdle(Vector(CALLS), ctx, w);
    hide RangesIdle, Denote, Totals, NoConflict, MetricPoints, ToU32, Binds, LabelsOf, Means, MetricRegistry, Compile;
    NestedMeansWhen(f, j, g, k, Vector(CALLS), ctx, w);
  }

  /** Over a plain metric the nest means what was written in every database iff j is at least k, or the range is empty. */
  lemma NestedCallsMeanWhen(f: string, j: real, g: string, k: real, ctx: CompileCtx)
    requires IsTop(f) && IsTop(g) && j >= 1.0 && k >= 1.0
    ensures var outer := Ranked(f, j, Ranked(g, k, Vector(CALLS)));
      && Compile(outer).Ok?
      && ((forall w :: Means(outer, ctx, w)) <==> ToU32(j) >= ToU32(k) || FromSecs(ctx) > ToSecs(ctx))
  {
    hide Compile, Totals, MetricPoints, ToU32, Means, TruncDiv, Ranked;
    var outer, w := Ranked(f, j, Ranked(g, k, Vector(CALLS))), WorldOf("metrics_cpi_minute", CallRows(ToU32(j) + 1, ctx));
    NestedCallsIn(f, j, g, k, ctx, w);
    if FromSecs(ctx) > ToSecs(ctx) {
      NoTotals(["callee_program"], Time(ToSecs(ctx)));
    } else {
      CallTotals(ToU32(j) + 1, ctx);
    }
    if FromSecs(ctx) > ToSecs(ctx) || ToU32(j) >= ToU32(k) {
      forall w ensures Means(outer, ctx, w) {
        NestedCallsIn(f, j, g, k, ctx, w);
        if FromSecs(ctx) > ToSecs(ctx) { NothingInEmptyRange(ctx, w); }
      }
    }
  }

  lemma NoTotals(ls: seq<string>, now: Value)
    requires ls != []
    ensures Totals(ls, now, []) == []
  {
  }

  // ----- an event selector with two types -----

  function TypeIs(t: string): LabelMatch { LabelMatch("type", Eq, t) }

  function Typed(ms: seq<LabelMatch>): Expr { Vector(VectorExpr(EVENT, ms, None)) }

  lemma NoEventHasTwoTypes(a: string, b: string, ctx: CompileCtx, w: World)
    requires a != b
    ensures Denote(Typed([TypeIs(a), TypeIs(b)]), ctx, w) == []
  {
    var ms, rows := [TypeIs(a), TypeIs(b)], TableRows(w, "events");
    forall row | row in rows ensures !SelectsEvents(ms, None, ctx, w)(row) {
      assert EventPasses(ms[0], row, w) ==> !EventPasses(ms[1], row, w);
    }
    hide SelectsEvents;
    FilterNone(rows, SelectsEvents(ms, None, ctx, w));
  }

  lemma TypeTwice(b: string, ctx: CompileCtx, w: World)
    ensures Denote(Typed([TypeIs(b), TypeIs(b)]), ctx, w) == Denote(Typed([TypeIs(b)]), ctx, w)
  {
    var two, one, rows := [TypeIs(b), TypeIs(b)], [TypeIs(b)], TableRows(w, "events");
    forall row | row in rows ensures SelectsEvents(two, None, ctx, w)(row) == SelectsEvents(one, None, ctx, w)(row) {
      assert two[0] == one[0] == two[1];
    }
    hide SelectsEvents;
    FilterCongruent(rows, SelectsEvents(two, None, ctx, w), SelectsEvents(one, None, ctx, w));
  }

  lemma TwoTypesCompile(a: string, b: string)
    ensures var e := Typed([TypeIs(a), TypeIs(b)]);
      Compile(e).Ok? && Binds(e) == [Binding(EventType, Str(a)), Binding(EventType, Str(b))]
  {
    var ms := [TypeIs(a), TypeIs(b)];
    assert ms[0] in ms && forall m :: m in ms ==> m == ms[0] || m == ms[1];
    assert ms[..1] == [TypeIs(a)] && [TypeIs(a)][..0] == [];
    assert EventBinds([TypeIs(a)]) == [] + [Binding(EventType, Str(a))];
    hide EventQuery, EventConds;
  }

  lemma TwoTypesRebound(a: string, b: string, ctx: CompileCtx)
    ensures var e := Typed([TypeIs(a), TypeIs(b)]);
      Compile(e).Ok? && Rebind(e, Final(e, ctx)) == Typed([TypeIs(b), TypeIs(b)])
  {
    var e, ms := Typed([TypeIs(a), TypeIs(b)]), [TypeIs(a), TypeIs(b)];
    TwoTypesCompile(a, b);
    hide Compile, Binds;
    LastBound(BaseParams(ctx), Binds(e), 1);
    hide BaseParams, InsertAll;
    assert GetParam(Final(e, ctx), EventType) == Str(b);
    hide Final;
    assert RebindEvents(ms, Final(e, ctx)) == [TypeIs(b), TypeIs(b)];
  }

  /** The query for two types returns the events of the second. */
  lemma TwoTypesReadAsTheSecond(a: string, b: string, ctx: CompileCtx, w: World)
    ensures var e := Typed([TypeIs(a), TypeIs(b)]);
      && Compile(e).Ok?
      && Evaluate(Compile(e).value.query, Final(e, ctx), w) == Map(Denote(Typed([TypeIs(b)]), ctx, w), AsRow())
  {
    TwoTypesRebound(a, b, ctx);
    hide Denote, Evaluate, Compile, Final;
    LastBindingWins(Typed([TypeIs(a), TypeIs(b)]), ctx, w);
    TypeTwice(b, ctx, w);
  }

  lemma NoPointsWhen(b: string, ctx: CompileCtx, w: World)
    ensures Denote(Typed([TypeIs(b)]), ctx, w) == []
      <==> forall row :: row in TableRows(w, "events") ==> !SelectsEvents([TypeIs(b)], None, ctx, w)(row)
  {
    var rows, selects := TableRows(w, "events"), SelectsEvents([TypeIs(b)], None, ctx, w);
    var samples := Filter(rows, selects);
    var made := Map(Groups(samples, SampleKey(EVENT_DEF)), SamplePoint(EVENT_DEF));
    SortMembers(made, Earlier());
    assert Denote(Typed([TypeIs(b)]), ctx, w) == Sort(made, Earlier());
    hide SelectsEvents, Sort;
    if forall row :: row in rows ==> !selects(row) { FilterNone(rows, selects); }
    if row :| row in rows && selects(row) { assert row in samples; }
  }

  /** In a given database it means what was written iff the types are one, or no event of the second is selected. */
  lemma TwoTypesMeanWhen(a: string, b: string, ctx: CompileCtx, w: World)
    ensures Compile(Typed([TypeIs(a), TypeIs(b)])).Ok?
    ensures Means(Typed([TypeIs(a), TypeIs(b)]), ctx, w)
      <==> a == b || forall row :: row in TableRows(w, "events") ==> !SelectsEvents([TypeIs(b)], None, ctx, w)(row)
  {
    TwoTypesReadAsTheSecond(a, b, ctx, w);
    NoPointsWhen(b, ctx, w);
    hide Denote, Evaluate, Compile, Final, SelectsEvents;
    if a == b {
      TypeTwice(b, ctx, w);
    } else {
      NoEventHasTwoTypes(a, b, ctx, w);
    }
  }

  /** An event of a type at the end of the range. */
  function EventRow(b: string, ctx: CompileCtx): Row {
    map["program_id" := Str(ctx.programId), "cluster" := Str(ctx.cluster), "block_time" := Time(ToSecs(ctx)),
        "event_name" := Str(b)]
  }

  lemma EventSelected(b: string, ctx: CompileCtx, w: World)
    requires FromSecs(ctx) <= ToSecs(ctx)
    ensures SelectsEvents([TypeIs(b)], None, ctx, w)(EventRow(b, ctx))
  {
    assert "program_id"[0] == 'p' && "cluster"[0] == 'c' && "block_time"[0] == 'b' && "event_name"[0] == 'e';
  }

  /** In every database iff the types are one or the range is empty. */
  lemma TwoTypesAlwaysMeanWhen(a: string, b: string, ctx: CompileCtx)
    ensures Compile(Typed([TypeIs(a), TypeIs(b)])).Ok?
    ensures (forall w :: Means(Typed([TypeIs(a), TypeIs(b)]), ctx, w)) <==> a == b || FromSecs(ctx) > ToSecs(ctx)
  {
    var w := WorldOf("events", [EventRow(b, ctx)]);
    TwoTypesMeanWhen(a, b, ctx, w);
    if FromSecs(ctx) <= ToSecs(ctx) {
      EventSelected(b, ctx, w);
      assert EventRow(b, ctx) in TableRows(w, "events");
    }
    if a == b || FromSecs(ctx) > ToSecs(ctx) {
      forall w ensures Means(Typed([TypeIs(a), TypeIs(b)]), ctx, w) {
        TwoTypesMeanWhen(a, b, ctx, w);
      }
    }
  }
}
