/** Laws of aggregations: conservation, regrouping, and what the top k are. */
module DslAlgebra {
  import opened Lists
  import opened Sql
  import opened Dsl
  import opened DslMeaning
  import opened DslCorrect
  import DslQueries
  import opened DslTheorem

  // ----- totals over some of the points -----

  function Total(points: seq<Point>, p: Point -> bool): real { Sum(Map(Filter(points, p), ValueOf())) }

  function Counted(x: Point, p: Point -> bool): real { if p(x) then x.v else 0.0 }

  lemma TotalFirst(x: Point, xs: seq<Point>, p: Point -> bool)
    ensures Total([x] + xs, p) == Counted(x, p) + Total(xs, p)
  {
    assert ([x] + xs)[1..] == xs;
    if p(x) {
      var rest := Filter(xs, p);
      assert Filter([x] + xs, p) == [x] + rest;
      assert Map([x] + rest, ValueOf()) == [x.v] + Map(rest, ValueOf());
      assert ([x.v] + Map(rest, ValueOf()))[1..] == Map(rest, ValueOf());
    }
  }

  lemma {:induction false} TotalLast(xs: seq<Point>, x: Point, p: Point -> bool)
    ensures Total(xs + [x], p) == Total(xs, p) + Counted(x, p)
  {
    if xs == [] {
      assert xs + [x] == [x] + xs;
      TotalFirst(x, xs, p);
    } else {
      TotalLast(xs[1..], x, p);
      TotalFirst(xs[0], xs[1..], p);
      TotalFirst(xs[0], xs[1..] + [x], p);
      assert [xs[0]] + xs[1..] == xs && [xs[0]] + (xs[1..] + [x]) == xs + [x];
    }
  }

  lemma {:induction false} TotalInsert(ys: seq<Point>, x: Point, before: (Point, Point) -> bool, p: Point -> bool)
    ensures Total(InsertSorted(ys, x, before), p) == Total(ys, p) + Counted(x, p)
  {
    if ys == [] || !before(x, ys[|ys| - 1]) {
      TotalLast(ys, x, p);
    } else {
      var init, last := ys[..|ys| - 1], ys[|ys| - 1];
      TotalInsert(init, x, before, p);
      TotalLast(init, last, p);
      TotalLast(InsertSorted(init, x, before), last, p);
      assert init + [last] == ys;
    }
  }

  lemma {:induction false} TotalSort(xs: seq<Point>, before: (Point, Point) -> bool, p: Point -> bool)
    ensures Total(Sort(xs, before), p) == Total(xs, p)
  {
    if xs != [] {
      var init, last := xs[..|xs| - 1], xs[|xs| - 1];
      TotalSort(init, before, p);
      TotalInsert(Sort(init, before), last, before, p);
      TotalLast(init, last, p);
      assert init + [last] == xs;
    }
  }

  lemma TotalCongruent(xs: seq<Point>, p: Point -> bool, q: Point -> bool)
    requires forall x :: x in xs ==> p(x) == q(x)
    ensures Total(xs, p) == Total(xs, q)
  {
    FilterCongruent(xs, p, q);
  }

  // ----- totals of groups -----

  function KeyIn(keys: PointKey -> bool, key: Point -> PointKey): Point -> bool { (x: Point) => keys(key(x)) }

  /** A point's own key. */
  function OwnKey(): Point -> PointKey { (x: Point) => PointKey(x.t, x.labels) }

  lemma {:induction false} SplitTotal(xs: seq<Point>, key: Point -> PointKey, k: PointKey, keys: PointKey -> bool)
    ensures Total(xs, KeyIn(keys, key))
         == (if keys(k) then Total(xs, HasKey(key, k)) else 0.0) + Total(Filter(xs, LacksKey(key, k)), KeyIn(keys, key))
  {
    if xs != [] {
      var x, rest := xs[0], xs[1..];
      assert xs == [x] + rest;
      SplitTotal(rest, key, k, keys);
      TotalFirst(x, rest, KeyIn(keys, key));
      TotalFirst(x, rest, HasKey(key, k));
      TotalFirst(x, Filter(rest, LacksKey(key, k)), KeyIn(keys, key));
      hide Total;
    }
  }

  lemma {:induction false} TotalOfGroups(xs: seq<Point>, key: Point -> PointKey, keys: PointKey -> bool)
    ensures Total(Map(Groups(xs, key), AggPoint(SumAgg)), KeyIn(keys, OwnKey())) == Total(xs, KeyIn(keys, key))
    decreases |xs|
  {
    if xs != [] {
      var k := key(xs[0]);
      var first, others := Group(k, Filter(xs, HasKey(key, k))), Filter(xs[1..], LacksKey(key, k));
      assert Filter(xs, LacksKey(key, k)) == others;
      TotalOfGroups(others, key, keys);
      SplitTotal(xs, key, k, keys);
      var made := AggPoint(SumAgg)(first);
      assert made.v == Total(xs, HasKey(key, k));
      TotalFirst(made, Map(Groups(others, key), AggPoint(SumAgg)), KeyIn(keys, OwnKey()));
      hide Total;
      assert Groups(xs, key) == [first] + Groups(others, key);
      MapAppend([first], Groups(others, key), AggPoint(SumAgg));
      assert Map([first], AggPoint(SumAgg)) == [made];
    }
  }

  lemma TotalOfSums(ls: seq<string>, points: seq<Point>, keys: PointKey -> bool)
    ensures Total(AggPoints(SumAgg, ls, points), KeyIn(keys, OwnKey())) == Total(points, KeyIn(keys, KeyAt(ls)))
  {
    TotalOfGroups(points, KeyAt(ls), keys);
    TotalSort(Map(Groups(points, KeyAt(ls)), AggPoint(SumAgg)), Earlier(), KeyIn(keys, OwnKey()));
  }

  // ----- conservation -----

  function AtTime(t: Value): Point -> bool { (x: Point) => x.t == t }

  function KeyTime(t: Value): PointKey -> bool { (k: PointKey) => k.t == t }

  /** Summing by any labels keeps the total of every minute. */
  lemma SumKeepsMinutes(ls: seq<string>, points: seq<Point>, t: Value)
    ensures Total(AggPoints(SumAgg, ls, points), AtTime(t)) == Total(points, AtTime(t))
  {
    TotalOfSums(ls, points, KeyTime(t));
    TotalCongruent(points, AtTime(t), KeyIn(KeyTime(t), KeyAt(ls)));
    TotalCongruent(AggPoints(SumAgg, ls, points), AtTime(t), KeyIn(KeyTime(t), OwnKey()));
  }

  function RowAt(t: Value): Row -> bool { (row: Row) => Get(row, "t") == t }

  function RowTotal(rows: seq<Row>, t: Value): real { Sum(Map(Filter(rows, RowAt(t)), NumCell("v"))) }

  lemma TotalOfRows(points: seq<Point>, t: Value)
    ensures RowTotal(Map(points, AsRow()), t) == Total(points, AtTime(t))
  {
    MapFilter(points, AsRow(), AtTime(t), RowAt(t));
    DslQueries.ValuesOfRows(Filter(points, AtTime(t)));
  }

  /** In the compiled queries: `sum`, `sum by` and `sum without` keep each minute's total of v, conflicts or not. */
  lemma CompiledSumKeepsMinutes(grouping: Option<Regroup>, e: Expr, ctx: CompileCtx, w: World, t: Value)
    requires Compile(Aggregation(SumAgg, grouping, e)).Ok?
    ensures Compile(e).Ok? && Final(Aggregation(SumAgg, grouping, e), ctx) == Final(e, ctx)
    ensures RowTotal(Evaluate(Compile(Aggregation(SumAgg, grouping, e)).value.query, Final(e, ctx), w), t)
         == RowTotal(Evaluate(Compile(e).value.query, Final(e, ctx), w), t)
  {
    var sum, P := Aggregation(SumAgg, grouping, e), Final(e, ctx);
    assert Binds(sum) == Binds(e);
    LastBindingWins(e, ctx, w);
    LastBindingWins(sum, ctx, w);
    var inner := Rebind(e, P);
    assert Rebind(sum, P) == Aggregation(SumAgg, grouping, inner);
    hide Evaluate, RowTotal, Total, Compile, Rebind, Binds, LabelSet;
    var points, ls := Denote(inner, ctx, w), GroupLabels(grouping, LabelsOf(inner));
    assert Denote(Rebind(sum, P), ctx, w) == AggPoints(SumAgg, ls, points);
    SumKeepsMinutes(ls, points, t);
    TotalOfRows(points, t);
    TotalOfRows(AggPoints(SumAgg, ls, points), t);
  }

  /** `without` is always accepted and is `by` the labels that are left; `by` needs labels that are there. */
  lemma WithoutIsBy(op: AggOp, dropped: seq<string>, inner: SqlNode)
    ensures AggregationNode(op, Some(Regroup(false, dropped)), inner).Ok?
    ensures AggregationNode(op, Some(Regroup(false, dropped)), inner)
         == AggregationNode(op, Some(Regroup(true, Without(inner.labels, dropped))), inner)
    ensures forall ls: seq<string> :: AggregationNode(op, Some(Regroup(true, ls)), inner).Ok? <==> LabelSet(ls) <= LabelSet(inner.labels)
  {
    forall ls: seq<string>
      ensures AggregationNode(op, Some(Regroup(true, ls)), inner).Ok? <==> LabelSet(ls) <= LabelSet(inner.labels)
    {
      if LabelSet(ls) <= LabelSet(inner.labels) {
        assert forall l :: l in ls ==> l in LabelSet(ls);
      } else {
        var l :| l in LabelSet(ls) && l !in LabelSet(inner.labels);
        assert l in ls;
      }
    }
  }

  // ----- regrouping -----

  function Keys(points: seq<Point>, key: Point -> PointKey): set<PointKey> { set x | x in points :: key(x) }

  /** The aggregate of the points with one key. */
  function AggAt(op: AggOp, ls: seq<string>, points: seq<Point>, k: PointKey): real {
    Aggregated(op, Map(Filter(points, HasKey(KeyAt(ls), k)), ValueOf()))
  }

  lemma GroupIsPoint(op: AggOp, ls: seq<string>, points: seq<Point>, g: Group<PointKey, Point>)
    requires g in Groups(points, KeyAt(ls))
    ensures var p := AggPoint(op)(g);
      OwnKey()(p) == g.key && g.key in Keys(points, KeyAt(ls)) && p.v == AggAt(op, ls, points, g.key)
  {
    GroupsExactly(points, KeyAt(ls));
    KeyOfGroup(points, KeyAt(ls), g);
  }

  ghost function GroupWith(points: seq<Point>, ls: seq<string>, k: PointKey): (g: Group<PointKey, Point>)
    requires k in Keys(points, KeyAt(ls))
    ensures g in Groups(points, KeyAt(ls)) && g.key == k
  {
    GroupsExactly(points, KeyAt(ls));
    var g :| g in Groups(points, KeyAt(ls)) && g.key == k;
    g
  }

  /** A point is in an aggregation iff its key occurs and its value is the aggregate of the points with that key. */
  lemma AggPointsAre(op: AggOp, ls: seq<string>, points: seq<Point>, p: Point)
    ensures p in AggPoints(op, ls, points)
      <==> OwnKey()(p) in Keys(points, KeyAt(ls)) && p.v == AggAt(op, ls, points, OwnKey()(p))
  {
    var gs, k := Groups(points, KeyAt(ls)), OwnKey()(p);
    var made := Map(gs, AggPoint(op));
    SortMembers(made, Earlier());
    hide Sort, Groups, Aggregated, KeyAt, AggAt, Keys;
    if p in made {
      var i :| 0 <= i < |made| && made[i] == p;
      GroupIsPoint(op, ls, points, gs[i]);
    }
    if k in Keys(points, KeyAt(ls)) && p.v == AggAt(op, ls, points, k) {
      var g := GroupWith(points, ls, k);
      GroupIsPoint(op, ls, points, g);
      var i :| 0 <= i < |gs| && gs[i] == g;
      assert AggPoint(op)(g) == p && made[i] == p;
    }
  }

  ghost predicate OneEach(points: seq<Point>) {
    forall i, j :: 0 <= i < j < |points| ==> OwnKey()(points[i]) != OwnKey()(points[j])
  }

  lemma {:induction false} InsertOneEach(ys: seq<Point>, x: Point, before: (Point, Point) -> bool)
    requires OneEach(ys) && forall y :: y in ys ==> OwnKey()(y) != OwnKey()(x)
    ensures OneEach(InsertSorted(ys, x, before))
  {
    if ys != [] && before(x, ys[|ys| - 1]) {
      var init, last := ys[..|ys| - 1], ys[|ys| - 1];
      InsertOneEach(init, x, before);
      InsertMembers(init, x, before);
      assert forall y :: y in init ==> OwnKey()(y) != OwnKey()(last);
      assert forall y :: y in InsertSorted(init, x, before) ==> OwnKey()(y) != OwnKey()(last);
    }
  }

  lemma {:induction false} SortOneEach(xs: seq<Point>, before: (Point, Point) -> bool)
    requires OneEach(xs)
    ensures OneEach(Sort(xs, before))
  {
    if xs != [] {
      var init, last := xs[..|xs| - 1], xs[|xs| - 1];
      SortOneEach(init, before);
      SortMembers(init, before);
      InsertOneEach(Sort(init, before), last, before);
    }
  }

  lemma AggPointsOneEach(op: AggOp, ls: seq<string>, points: seq<Point>)
    ensures OneEach(AggPoints(op, ls, points))
  {
    GroupsExactly(points, KeyAt(ls));
    SortOneEach(Map(Groups(points, KeyAt(ls)), AggPoint(op)), Earlier());
  }

  lemma RestrictTwice(labels: map<string, Value>, a: seq<string>, b: seq<string>)
    requires forall l :: l in a ==> l in b
    ensures Restrict(Restrict(labels, b), a) == Restrict(labels, a)
  {
  }

  function KeyIs(a: seq<string>, k: PointKey): PointKey -> bool {
    (k': PointKey) => PointKey(k'.t, Restrict(k'.labels, a)) == k
  }

  lemma SumsOfSums(a: seq<string>, b: seq<string>, points: seq<Point>, k: PointKey)
    requires forall l :: l in a ==> l in b
    ensures Total(AggPoints(SumAgg, b, points), HasKey(KeyAt(a), k)) == Total(points, HasKey(KeyAt(a), k))
  {
    TotalOfSums(b, points, KeyIs(a, k));
    forall x ensures KeyIn(KeyIs(a, k), KeyAt(b))(x) == HasKey(KeyAt(a), k)(x) {
      RestrictTwice(x.labels, a, b);
    }
    TotalCongruent(points, HasKey(KeyAt(a), k), KeyIn(KeyIs(a, k), KeyAt(b)));
    TotalCongruent(AggPoints(SumAgg, b, points), HasKey(KeyAt(a), k), KeyIn(KeyIs(a, k), OwnKey()));
  }

  lemma SumAt(ls: seq<string>, points: seq<Point>, k: PointKey)
    ensures AggAt(SumAgg, ls, points, k) == Total(points, HasKey(KeyAt(ls), k))
  {
  }

  lemma OwnKeys(op: AggOp, ls: seq<string>, points: seq<Point>)
    ensures Keys(AggPoints(op, ls, points), OwnKey()) == Keys(points, KeyAt(ls))
  {
    var out := AggPoints(op, ls, points);
    hide AggPoints, KeyAt, AggAt;
    forall k | k in Keys(out, OwnKey()) ensures k in Keys(points, KeyAt(ls)) {
      var p :| p in out && OwnKey()(p) == k;
      AggPointsAre(op, ls, points, p);
    }
    forall k | k in Keys(points, KeyAt(ls)) ensures k in Keys(out, OwnKey()) {
      var p := Point(k.t, k.labels, AggAt(op, ls, points, k));
      AggPointsAre(op, ls, points, p);
      assert OwnKey()(p) == k;
    }
  }

  lemma KeysWithin(a: seq<string>, b: seq<string>, points: seq<Point>)
    requires forall l :: l in a ==> l in b
    ensures Keys(AggPoints(SumAgg, b, points), KeyAt(a)) == Keys(points, KeyAt(a))
  {
    var inner := AggPoints(SumAgg, b, points);
    OwnKeys(SumAgg, b, points);
    forall x: Point ensures PointKey(x.t, Restrict(KeyAt(b)(x).labels, a)) == KeyAt(a)(x) {
      RestrictTwice(x.labels, a, b);
    }
    hide AggPoints, Restrict;
    forall k | k in Keys(inner, KeyAt(a)) ensures k in Keys(points, KeyAt(a)) {
      var y :| y in inner && KeyAt(a)(y) == k;
      assert OwnKey()(y) in Keys(inner, OwnKey());
      var x :| x in points && KeyAt(b)(x) == OwnKey()(y);
      assert KeyAt(a)(x) == k;
    }
    forall k | k in Keys(points, KeyAt(a)) ensures k in Keys(inner, KeyAt(a)) {
      var x :| x in points && KeyAt(a)(x) == k;
      assert KeyAt(b)(x) in Keys(points, KeyAt(b));
      var y :| y in inner && OwnKey()(y) == KeyAt(b)(x);
      assert KeyAt(a)(y) == k;
    }
  }

  /** Summing by A what was summed by B is summing by A, when A is within B: the same points, each once. */
  lemma SumBySumBy(a: seq<string>, b: seq<string>, points: seq<Point>)
    requires forall l :: l in a ==> l in b
    ensures var once, twice := AggPoints(SumAgg, a, points), AggPoints(SumAgg, a, AggPoints(SumAgg, b, points));
      OneEach(once) && OneEach(twice) && forall p :: p in once <==> p in twice
  {
    var inner := AggPoints(SumAgg, b, points);
    AggPointsOneEach(SumAgg, a, points);
    AggPointsOneEach(SumAgg, a, inner);
    KeysWithin(a, b, points);
    hide AggPoints, KeyAt, Keys, OneEach, Total, AggAt;
    forall p ensures p in AggPoints(SumAgg, a, points) <==> p in AggPoints(SumAgg, a, inner) {
      AggPointsAre(SumAgg, a, points, p);
      AggPointsAre(SumAgg, a, inner, p);
      SumAt(a, points, OwnKey()(p));
      SumAt(a, inner, OwnKey()(p));
      SumsOfSums(a, b, points, OwnKey()(p));
    }
  }

  function SumBy(ls: seq<string>, e: Expr): Expr { Aggregation(SumAgg, Some(Regroup(true, ls)), e) }

  lemma SumByCompiled(ls: seq<string>, e: Expr, ctx: CompileCtx, P: Params, w: World)
    requires Compile(e).Ok? && Final(e, ctx) == P && LabelSet(ls) <= LabelSet(Compile(e).value.labels)
    ensures Compile(SumBy(ls, e)).Ok? && Compile(SumBy(ls, e)).value.labels == ls && Final(SumBy(ls, e), ctx) == P
    ensures Denote(Rebind(SumBy(ls, e), P), ctx, w) == AggPoints(SumAgg, ls, Denote(Rebind(e, P), ctx, w))
    ensures Evaluate(Compile(SumBy(ls, e)).value.query, P, w)
         == Map(AggPoints(SumAgg, ls, Denote(Rebind(e, P), ctx, w)), AsRow())
  {
    assert forall l :: l in ls ==> l in LabelSet(ls);
    assert Binds(SumBy(ls, e)) == Binds(e);
    hide Evaluate, AggPoints, LabelSet;
    assert Compile(SumBy(ls, e)).Ok?;
    assert Denote(Rebind(SumBy(ls, e), P), ctx, w) == AggPoints(SumAgg, ls, Denote(Rebind(e, P), ctx, w));
    LastBindingWins(SumBy(ls, e), ctx, w);
  }

  /** Of the compiled queries: regrouping returns the same rows, each once. */
  lemma CompiledRegrouping(a: seq<string>, b: seq<string>, e: Expr, ctx: CompileCtx, w: World)
    requires Compile(e).Ok? && LabelSet(a) <= LabelSet(b) <= LabelSet(Compile(e).value.labels)
    ensures Compile(SumBy(a, e)).Ok? && Compile(SumBy(b, e)).Ok? && Compile(SumBy(a, SumBy(b, e))).Ok?
    ensures var P := Final(e, ctx);
      var once := Evaluate(Compile(SumBy(a, e)).value.query, P, w);
      var twice := Evaluate(Compile(SumBy(a, SumBy(b, e))).value.query, P, w);
      && Final(SumBy(a, e), ctx) == Final(SumBy(a, SumBy(b, e)), ctx) == P
      && |once| == |twice| && forall row :: row in once <==> row in twice
  {
    var P, points := Final(e, ctx), Denote(Rebind(e, Final(e, ctx)), ctx, w);
    SumByCompiled(a, e, ctx, P, w);
    SumByCompiled(b, e, ctx, P, w);
    SumByCompiled(a, SumBy(b, e), ctx, P, w);
    assert forall l :: l in a ==> l in LabelSet(a) && l in LabelSet(b) && l in b;
    SumBySumBy(a, b, points);
    hide Evaluate, AggPoints, OneEach, Compile, Rebind, Denote, Final, SumBy;
    SameRows(AggPoints(SumAgg, a, points), AggPoints(SumAgg, a, AggPoints(SumAgg, b, points)));
  }

  lemma SameRows(once: seq<Point>, twice: seq<Point>)
    requires OneEach(once) && OneEach(twice) && forall p :: p in once <==> p in twice
    ensures |once| == |twice|
    ensures forall row :: row in Map(once, AsRow()) <==> row in Map(twice, AsRow())
  {
    Cardinality(once);
    Cardinality(twice);
    assert SetOf(once) == SetOf(twice);
    RowsWithin(once, twice);
    RowsWithin(twice, once);
  }

  lemma RowsWithin(a: seq<Point>, b: seq<Point>)
    requires forall p :: p in a ==> p in b
    ensures forall row :: row in Map(a, AsRow()) ==> row in Map(b, AsRow())
  {
    forall row | row in Map(a, AsRow()) ensures row in Map(b, AsRow()) {
      var i :| 0 <= i < |a| && Map(a, AsRow())[i] == row;
      assert a[i] in a;
      var j :| 0 <= j < |b| && b[j] == a[i];
      assert Map(b, AsRow())[j] == row;
    }
  }

  function SetOf<A>(xs: seq<A>): set<A> { set x | x in xs }

  lemma {:induction false} Cardinality<A(!new)>(xs: seq<A>)
    requires forall i, j :: 0 <= i < j < |xs| ==> xs[i] != xs[j]
    ensures |SetOf(xs)| == |xs|
  {
    if xs != [] {
      var rest := xs[1..];
      Cardinality(rest);
      assert xs[0] !in SetOf(rest);
      assert SetOf(xs) == SetOf(rest) + {xs[0]} by {
        assert xs == [xs[0]] + rest;
      }
    }
  }

  // ----- the top k -----

  /** A strict weak order. */
  ghost predicate WeakOrder(before: (Point, Point) -> bool) {
    && (forall x, y :: before(x, y) ==> !before(y, x))
    && (forall x, y, z :: before(x, z) ==> before(x, y) || before(y, z))
  }

  ghost predicate Ascends(ys: seq<Point>, before: (Point, Point) -> bool) {
    forall i, j :: 0 <= i < j < |ys| ==> !before(ys[j], ys[i])
  }

  lemma {:induction false} InsertMultiset(ys: seq<Point>, x: Point, before: (Point, Point) -> bool)
    ensures multiset(InsertSorted(ys, x, before)) == multiset(ys) + multiset{x}
  {
    if ys != [] && before(x, ys[|ys| - 1]) {
      InsertMultiset(ys[..|ys| - 1], x, before);
      assert ys == ys[..|ys| - 1] + [ys[|ys| - 1]];
    }
  }

  lemma AscendsSnoc(ys: seq<Point>, x: Point, before: (Point, Point) -> bool)
    requires Ascends(ys, before) && forall y :: y in ys ==> !before(x, y)
    ensures Ascends(ys + [x], before)
  {
  }

  lemma LastIsLatest(ys: seq<Point>, before: (Point, Point) -> bool)
    requires ys != [] && Ascends(ys, before)
    ensures var init, last := ys[..|ys| - 1], ys[|ys| - 1];
      Ascends(init, before) && forall y :: y in init ==> !before(last, y)
  {
  }

  lemma {:induction false} InsertAscends(ys: seq<Point>, x: Point, before: (Point, Point) -> bool)
    requires WeakOrder(before) && Ascends(ys, before)
    ensures Ascends(InsertSorted(ys, x, before), before)
  {
    if ys != [] {
      var init, last := ys[..|ys| - 1], ys[|ys| - 1];
      LastIsLatest(ys, before);
      hide Ascends;
      assert ys == init + [last];
      if before(x, last) {
        InsertAscends(init, x, before);
        InsertMembers(init, x, before);
        AscendsSnoc(InsertSorted(init, x, before), last, before);
      } else {
        forall y | y in ys ensures !before(x, y) {
          assert y in init || y == last;
        }
        AscendsSnoc(ys, x, before);
      }
    }
  }

  lemma {:induction false} SortAscends(xs: seq<Point>, before: (Point, Point) -> bool)
    requires WeakOrder(before)
    ensures Ascends(Sort(xs, before), before) && multiset(Sort(xs, before)) == multiset(xs)
  {
    if xs != [] {
      hide Ascends, WeakOrder;
      var init, last := xs[..|xs| - 1], xs[|xs| - 1];
      SortAscends(init, before);
      InsertAscends(Sort(init, before), last, before);
      InsertMultiset(Sort(init, before), last, before);
      assert xs == init + [last];
    } else {
      assert Ascends([], before);
    }
  }

  lemma RestIsNoBetter(sorted: seq<Point>, k: nat, before: (Point, Point) -> bool, p: Point, q: Point)
    requires Ascends(sorted, before) && k <= |sorted| && p in sorted[k..] && q in sorted[..k]
    ensures !before(p, q)
  {
    var i :| 0 <= i < k && sorted[..k][i] == q;
    var j :| 0 <= j < |sorted[k..]| && sorted[k..][j] == p;
    assert sorted[k + j] == p && sorted[i] == q;
  }

  lemma PrefixIsBest(sorted: seq<Point>, k: nat, before: (Point, Point) -> bool)
    requires Ascends(sorted, before)
    ensures var out := Take(sorted, k);
      && |out| == (if |sorted| <= k then |sorted| else k)
      && multiset(out) <= multiset(sorted) && Ascends(out, before)
      && forall p, q :: p in multiset(sorted) - multiset(out) && q in out ==> !before(p, q)
  {
    if |sorted| > k {
      var out, rest := sorted[..k], sorted[k..];
      assert sorted == out + rest;
      assert multiset(sorted) - multiset(out) == multiset(rest);
      forall p, q | p in rest && q in out ensures !before(p, q) {
        RestIsNoBetter(sorted, k, before, p, q);
      }
    }
  }

  lemma RankedIsWeakOrder(top: bool)
    ensures WeakOrder(RankedBefore(top))
  {
  }

  lemma SortedPrefixIsBest(totals: seq<Point>, k: nat, before: (Point, Point) -> bool)
    requires WeakOrder(before)
    ensures var out := Take(Sort(totals, before), k);
      && |out| == (if |totals| <= k then |totals| else k)
      && multiset(out) <= multiset(totals) && Ascends(out, before)
      && forall p, q :: p in multiset(totals) - multiset(out) && q in out ==> !before(p, q)
  {
    SortAscends(totals, before);
    SortMembers(totals, before);
    hide Sort, Take, WeakOrder;
    PrefixIsBest(Sort(totals, before), k, before);
  }

  /** The top k are k of the totals, or all, best first, and no total left out beats one of them. */
  lemma TopAreTheBest(top: bool, k: nat, ls: seq<string>, now: Value, points: seq<Point>)
    ensures var out, totals := TopPoints(top, k, ls, now, points), Totals(ls, now, points);
      && |out| == (if |totals| <= k then |totals| else k)
      && multiset(out) <= multiset(totals)
      && Ascends(out, RankedBefore(top))
      && forall p, q :: p in multiset(totals) - multiset(out) && q in out ==> !RankedBefore(top)(p, q)
  {
    RankedIsWeakOrder(top);
    hide Sort, Totals, WeakOrder, Take, Ascends, RankedBefore;
    SortedPrefixIsBest(Totals(ls, now, points), k, RankedBefore(top));
  }
}
