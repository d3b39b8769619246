/**
Rows against points: what select lists, conditions and grouping do to the rows of points, for any
parameter map that holds the base parameters and covers the placeholders in question.
*/
module DslCorrect {
  import opened Lists
  import opened Sql
  import opened Dsl
  import opened DslMeaning

  // ----- rows of points -----

  function AsRow(): Point -> Row { (p: Point) => p.labels["t" := p.t]["v" := Num(p.v)] }

  function KeyRow(): PointKey -> Row { (k: PointKey) => k.labels["t" := k.t] }

  predicate Clean(labels: seq<string>) { "t" !in labels && "v" !in labels }

  function LabelSet(labels: seq<string>): set<string> { set l | l in labels }

  ghost predicate Labeled(points: seq<Point>, labels: seq<string>) {
    forall p :: p in points ==> p.labels.Keys == LabelSet(labels)
  }

  lemma SortRows(points: seq<Point>)
    ensures Sort(Map(points, AsRow()), Precedes("t", false)) == Map(Sort(points, Earlier()), AsRow())
  {
    MapSort(points, AsRow(), Earlier(), Precedes("t", false));
  }

  lemma SortLabeled(points: seq<Point>, before: (Point, Point) -> bool, labels: seq<string>)
    requires Labeled(points, labels)
    ensures Labeled(Sort(points, before), labels)
  {
    SortMembers(points, before);
  }

  // ----- select lists -----

  lemma {:induction false} FindIn(columns: seq<Column>, c: Column)
    requires c in columns
    requires forall d :: d in columns && d.name == c.name ==> d.item == c.item
    ensures Find(columns, c.name) == c.item && c.name in Names(columns)
  {
    if columns[0].name != c.name { FindIn(columns[1..], c); }
  }

  ghost predicate Selects3(columns: seq<Column>, labels: seq<string>, t: Item, v: Item) {
    && Names(columns) == {"t", "v"} + LabelSet(labels)
    && Find(columns, "t") == t && Find(columns, "v") == v
  }

  lemma PassSelect(t: Item, v: Item, labels: seq<string>)
    requires Clean(labels)
    ensures var columns := [Column("t", t), Column("v", v)] + PassColumns(labels);
      Selects3(columns, labels, t, v) && forall l :: l in labels ==> Find(columns, l) == Plain(Col(l))
  {
    var pass := PassColumns(labels);
    var columns := [Column("t", t), Column("v", v)] + pass;
    assert forall c :: c in pass ==> c.name in labels && c.item == Plain(Col(c.name));
    assert forall c :: c in columns <==> c == Column("t", t) || c == Column("v", v) || c in pass;
    FindIn(columns, Column("t", t));
    FindIn(columns, Column("v", v));
    forall l | l in labels ensures Find(columns, l) == Plain(Col(l)) && l in Names(columns) {
      var i :| 0 <= i < |labels| && labels[i] == l;
      assert pass[i] in pass;
      FindIn(columns, Column(l, Plain(Col(l))));
    }
  }

  ghost predicate DistinctLabels(labels: seq<(string, string)>) {
    forall i, j :: 0 <= i < j < |labels| ==> labels[i].0 != labels[j].0
  }

  lemma {:induction false} ColumnAt(labels: seq<(string, string)>, i: nat)
    requires DistinctLabels(labels) && i < |labels|
    ensures ColumnOf(labels, labels[i].0) == Some(labels[i].1)
  {
    if i > 0 { ColumnAt(labels[1..], i - 1); }
  }

  /** A select list of a table: the minute, the labels' columns, and one more column. */
  lemma TableSelect(t: Item, name: string, v: Item, labels: seq<(string, string)>)
    requires DistinctLabels(labels) && name != "t"
    requires "t" !in LabelNames(labels) && name !in LabelNames(labels)
    ensures var columns := [Column("t", t)] + LabelColumns(labels) + [Column(name, v)];
      && Names(columns) == {"t", name} + LabelSet(LabelNames(labels))
      && Find(columns, "t") == t && Find(columns, name) == v
      && forall l :: l in LabelNames(labels) ==>
           ColumnOf(labels, l).Some? && Find(columns, l) == Plain(Col(ColumnOf(labels, l).value))
  {
    var mid := LabelColumns(labels);
    var columns := [Column("t", t)] + mid + [Column(name, v)];
    assert forall c :: c in mid ==> exists i :: 0 <= i < |labels| && mid[i] == c && c.name == LabelNames(labels)[i];
    assert forall c :: c in columns <==> c == Column("t", t) || c == Column(name, v) || c in mid;
    FindIn(columns, Column("t", t));
    FindIn(columns, Column(name, v));
    forall l | l in LabelNames(labels)
      ensures ColumnOf(labels, l).Some? && Find(columns, l) == Plain(Col(ColumnOf(labels, l).value)) && l in Names(columns)
    {
      var i :| 0 <= i < |labels| && LabelNames(labels)[i] == l;
      ColumnAt(labels, i);
      assert mid[i] in mid;
      FindIn(columns, mid[i]);
    }
  }

  lemma LabelTexts()
    ensures "instruction" != "status" && "instruction" != "error_name" && "signer" != "status"
    ensures forall s :: s in ["instruction", "status", "error_name", "callee_program", "signer"] ==>
      s != "t" && s != "v" && s != "cu_tdigest_state"
  {
    assert "instruction"[0] != "status"[0] && "instruction"[0] != "error_name"[0];
    assert "signer"[1] != "status"[1];
    assert |"instruction"| != |"cu_tdigest_state"| && |"status"| != |"cu_tdigest_state"|;
    assert |"error_name"| != |"cu_tdigest_state"| && |"callee_program"| != |"cu_tdigest_state"|;
  }

  lemma OneLabel(a: string, col: string)
    requires a != "t" && a != "v"
    ensures var labels := [(a, col)];
      DistinctLabels(labels) && LabelNames(labels) == [a] && Clean(LabelNames(labels))
  {
    assert LabelNames([(a, col)]) == [a];
  }

  lemma TwoLabels(a: string, col: string, b: string, col': string)
    requires a != b && a != "t" && a != "v" && b != "t" && b != "v"
    ensures var labels := [(a, col), (b, col')];
      DistinctLabels(labels) && LabelNames(labels) == [a, b] && Clean(LabelNames(labels))
  {
    assert LabelNames([(a, col), (b, col')]) == [a, b];
  }

  /** What the registry's definitions have in common. */
  lemma RegistryFacts(name: string)
    requires MetricRegistry(name).Some?
    ensures var def := MetricRegistry(name).value;
      && DistinctLabels(def.labels) && Clean(LabelNames(def.labels))
      && (def.value.CountMerge? || def.value.SumMerge? || def.value.SumOf? || def.value.AvgOf?)
      && (def.tdigestCol.Some? ==>
            def.tdigestCol.value !in ["t", "v"] && def.tdigestCol.value !in LabelNames(def.labels))
  {
    LabelTexts();
    OneLabel("instruction", "instruction_name");
    OneLabel("callee_program", "callee_program");
    TwoLabels("instruction", "instruction_name", "status", "status");
    TwoLabels("instruction", "instruction_name", "error_name", "error_name");
    TwoLabels("signer", "signer", "status", "status");
    assert |"cu_tdigest_state"| > 1;
    hide LabelNames, DistinctLabels, Clean;
  }

  // ----- conditions -----

  ghost predicate HasBase(P: Params, ctx: CompileCtx) {
    && GetParam(P, ProgramId) == Str(ctx.programId) && GetParam(P, Cluster) == Str(ctx.cluster)
    && GetParam(P, FromS) == Int(FromSecs(ctx)) && GetParam(P, ToS) == Int(ToSecs(ctx))
    && GetParam(P, StepS) == Num(StepSecs(ctx))
  }

  /** Each name is only ever bound to values of one kind. */
  ghost predicate Kind(n: ParamName, v: Value) {
    match n
    case FromS => v.Int?
    case ToS => v.Int?
    case StepMs => v.Int?
    case RangeS => v.Int?
    case K => v.Int? && 0 <= v.i <= U32_MAX
    case StepS => v.Num?
    case Q => v.Num?
    case _ => v.Str?
  }

  ghost predicate Covers(P: Params, bs: seq<Binding>) {
    forall b :: b in bs ==> b.name in P && Kind(b.name, P[b.name])
  }

  lemma {:induction false} AllHoldAppend(a: seq<Cond>, b: seq<Cond>, row: Row, P: Params, w: World)
    ensures AllHold(a + b, row, P, w) <==> AllHold(a, row, P, w) && AllHold(b, row, P, w)
  {
    if a == [] {
      assert a + b == b;
    } else {
      assert (a + b)[1..] == a[1..] + b;
      AllHoldAppend(a[1..], b, row, P, w);
    }
  }

  lemma OneHolds(c: Cond, row: Row, P: Params, w: World)
    ensures AllHold([c], row, P, w) <==> Holds(c, row, P, w)
  {
  }

  lemma ScopeHolds(timeCol: string, row: Row, ctx: CompileCtx, P: Params, w: World)
    requires HasBase(P, ctx)
    ensures AllHold(ScopeConds(timeCol), row, P, w) <==> InScope(row, timeCol, ctx)
  {
    var cs := ScopeConds(timeCol);
    assert cs[1..][1..] == cs[2..] && cs[2..][1..] == cs[3..] && cs[3..][1..] == [];
    assert EvalScalar(ParamRef(FromS), row, P, w) == Int(FromSecs(ctx));
    assert EvalScalar(ParamRef(ToS), row, P, w) == Int(ToSecs(ctx));
    assert EvalScalar(ToDateTime(ParamRef(FromS)), row, P, w) == Time(FromSecs(ctx));
    assert EvalScalar(ToDateTime(ParamRef(ToS)), row, P, w) == Time(ToSecs(ctx));
    assert AllHold(cs[3..], row, P, w) <==> Holds(cs[3], row, P, w);
    assert AllHold(cs[2..], row, P, w) <==> Holds(cs[2], row, P, w) && AllHold(cs[3..], row, P, w);
    assert AllHold(cs[1..], row, P, w) <==> Holds(cs[1], row, P, w) && AllHold(cs[2..], row, P, w);
  }

  lemma RangeHolds(timeCol: string, range: int, row: Row, ctx: CompileCtx, P: Params, w: World)
    requires HasBase(P, ctx) && GetParam(P, RangeS).Int?
    ensures Holds(RangeCond(timeCol), row, P, w) <==> InRange(row, timeCol, Some(IntIn(P, RangeS)), ctx)
  {
    var low := Arith(Sub, ParamRef(ToS), ParamRef(RangeS));
    var from, bound := ToSecs(ctx) - IntIn(P, RangeS), Greatest(ParamRef(FromS), low);
    assert EvalScalar(ParamRef(RangeS), row, P, w) == Int(IntIn(P, RangeS));
    assert EvalScalar(ParamRef(ToS), row, P, w) == Int(ToSecs(ctx));
    assert EvalScalar(ParamRef(FromS), row, P, w) == Int(FromSecs(ctx));
    assert EvalScalar(low, row, P, w) == Int(from);
    assert EvalScalar(bound, row, P, w) == Int(if FromSecs(ctx) >= from then FromSecs(ctx) else from);
    assert EvalScalar(ToDateTime(bound), row, P, w)
        == Time(if FromSecs(ctx) >= from then FromSecs(ctx) else from);
  }

  lemma MatchHolds(op: LabelOp, e: Scalar, p: ParamName, row: Row, P: Params, w: World)
    requires GetParam(P, p).Str?
    ensures Holds(MatchCond(op, e, p), row, P, w) <==> Passes(op, EvalScalar(e, row, P, w), TextIn(P, p), w)
  {
  }

  lemma CoversInit(P: Params, init: seq<Binding>, b: Binding)
    requires Covers(P, init + [b])
    ensures Covers(P, init) && b.name in P && Kind(b.name, P[b.name])
  {
    assert b in init + [b] && forall x :: x in init ==> x in init + [b];
  }

  predicate LabelPasses(def: MetricDef, m: LabelMatch, row: Row, w: World) {
    Passes(m.op, LabelCell(def, m.key, row), m.value, w)
  }

  lemma RebindLabelsSnoc(def: MetricDef, ms: seq<LabelMatch>, td: bool, row: Row, P: Params, w: World)
    requires ms != []
    ensures var n := |ms| - 1;
      LabelsPass(def, RebindLabels(ms, P, td), row, w)
      <==> LabelsPass(def, RebindLabels(ms[..n], P, td), row, w)
           && LabelPasses(def, ms[n].(value := TextIn(P, LabelParam(td, n))), row, w)
  {
    var n := |ms| - 1;
    var rs, init := RebindLabels(ms, P, td), RebindLabels(ms[..n], P, td);
    assert rs == init + [ms[n].(value := TextIn(P, LabelParam(td, n)))];
    assert forall i :: 0 <= i < n ==> rs[i] == init[i];
  }

  lemma {:induction false} LabelsHold(def: MetricDef, ms: seq<LabelMatch>, td: bool, row: Row, P: Params, w: World)
    requires LabelsKnown(def, ms) && Covers(P, LabelBinds(ms, td))
    ensures AllHold(LabelConds(def, ms, td), row, P, w) <==> LabelsPass(def, RebindLabels(ms, P, td), row, w)
  {
    if ms != [] {
      var n := |ms| - 1;
      var init, m := ms[..n], ms[n];
      assert m in ms && forall x :: x in init ==> x in ms;
      var last := MatchCond(m.op, Col(ColumnOf(def.labels, m.key).value), LabelParam(td, n));
      CoversInit(P, LabelBinds(init, td), Binding(LabelParam(td, n), Str(m.value)));
      LabelsHold(def, init, td, row, P, w);
      AllHoldAppend(LabelConds(def, init, td), [last], row, P, w);
      OneHolds(last, row, P, w);
      MatchHolds(m.op, Col(ColumnOf(def.labels, m.key).value), LabelParam(td, n), row, P, w);
      RebindLabelsSnoc(def, ms, td, row, P, w);
      hide LabelsPass, AllHold, Holds, Passes, RebindLabels;
    }
  }

  lemma EventHolds(m: LabelMatch, n: nat, row: Row, P: Params, w: World)
    requires m.key == "type" ==> m.op.Eq?
    requires GetParam(P, if m.key == "type" then EventType else EventLabel(n)).Str?
    ensures Holds(EventCond(m, n), row, P, w)
      <==> EventPasses(m.(value := TextIn(P, if m.key == "type" then EventType else EventLabel(n))), row, w)
  {
    if m.key != "type" {
      var field := JsonString(Col("payload_json"), m.key);
      assert EvalScalar(Col("payload_json"), row, P, w) == Get(row, "payload_json");
      assert EvalScalar(field, row, P, w) == PayloadField(row, m.key, w);
      MatchHolds(m.op, field, EventLabel(n), row, P, w);
    } else {
      assert EvalScalar(ParamRef(EventType), row, P, w) == Str(TextIn(P, EventType));
    }
  }

  ghost predicate AllPass(ms: seq<LabelMatch>, row: Row, w: World) {
    forall i :: 0 <= i < |ms| ==> EventPasses(ms[i], row, w)
  }

  function EventParam(m: LabelMatch, n: nat): ParamName { if m.key == "type" then EventType else EventLabel(n) }

  lemma RebindEventsSnoc(ms: seq<LabelMatch>, row: Row, P: Params, w: World)
    requires ms != []
    ensures var n := |ms| - 1;
      AllPass(RebindEvents(ms, P), row, w)
      <==> AllPass(RebindEvents(ms[..n], P), row, w)
           && EventPasses(ms[n].(value := TextIn(P, EventParam(ms[n], n))), row, w)
  {
    var n := |ms| - 1;
    var rs, init := RebindEvents(ms, P), RebindEvents(ms[..n], P);
    assert rs == init + [ms[n].(value := TextIn(P, EventParam(ms[n], n)))];
    assert forall i :: 0 <= i < n ==> rs[i] == init[i];
  }

  lemma {:induction false} EventsHold(ms: seq<LabelMatch>, row: Row, ctx: CompileCtx, P: Params, w: World)
    requires HasBase(P, ctx) && Covers(P, EventBinds(ms))
    requires forall m :: m in ms && m.key == "type" ==> m.op.Eq?
    ensures AllHold(EventConds(ms), row, P, w)
      <==> InScope(row, "block_time", ctx) && AllPass(RebindEvents(ms, P), row, w)
  {
    if ms == [] {
      ScopeHolds("block_time", row, ctx, P, w);
    } else {
      var n := |ms| - 1;
      var init, m := ms[..n], ms[n];
      assert m in ms && forall x :: x in init ==> x in ms;
      CoversInit(P, EventBinds(init), Binding(EventParam(m, n), Str(m.value)));
      EventsHold(init, row, ctx, P, w);
      AllHoldAppend(EventConds(init), [EventCond(m, n)], row, P, w);
      OneHolds(EventCond(m, n), row, P, w);
      EventHolds(m, n, row, P, w);
      RebindEventsSnoc(ms, row, P, w);
      hide EventPasses, InScope, AllHold, Holds, AllPass, RebindEvents;
    }
  }

  // ----- grouping -----

  lemma GroupedCommutes<Key(!new), A(!new), B(!new)>(xs: seq<A>, f: A -> Row, key: A -> Key, h: Key -> Row,
                                  make: Group<Key, A> -> B, view: B -> Row,
                                  columns: seq<Column>, cols: seq<string>, P: Params, w: World)
    requires forall x :: x in xs ==> KeyOf(columns, cols, f(x), P, w) == h(key(x))
    requires forall x, y :: x in xs && y in xs && h(key(x)) == h(key(y)) ==> key(x) == key(y)
    requires forall g :: g in Groups(xs, key) ==>
      Summary(columns, Group(h(g.key), Map(g.members, f)), P, w) == view(make(g))
    ensures Map(Groups(Map(xs, f), KeyedBy(columns, cols, P, w)), Summarizes(columns, P, w))
            == Map(Map(Groups(xs, key), make), view)
  {
    MapGroups(xs, f, key, KeyedBy(columns, cols, P, w), h);
    var gs := Groups(xs, key);
    var rows := Map(Map(gs, Through(f, h)), Summarizes(columns, P, w));
    forall i | 0 <= i < |gs| ensures rows[i] == view(make(gs[i])) {
      assert gs[i] in gs;
    }
  }

  lemma KeyOfGroup<Key(!new), A(!new)>(xs: seq<A>, key: A -> Key, g: Group<Key, A>)
    requires g in Groups(xs, key)
    ensures exists x :: x in xs && key(x) == g.key
  {
    GroupsExactly(xs, key);
    assert g.members[0] in g.members;
  }

  lemma KeyRowInjective(a: PointKey, b: PointKey, labels: seq<string>)
    requires Clean(labels) && a.labels.Keys == b.labels.Keys == LabelSet(labels)
    requires KeyRow()(a) == KeyRow()(b)
    ensures a == b
  {
    var r, s := KeyRow()(a), KeyRow()(b);
    assert r["t"] == s["t"];
    forall l | l in a.labels ensures a.labels[l] == b.labels[l] {
      assert r[l] == s[l];
    }
  }

  lemma SummaryIsPoint(columns: seq<Column>, labels: seq<string>, g: Group<Row, Row>, k: PointKey, p: Point,
                       t: Item, agg: Agg, P: Params, w: World)
    requires Clean(labels) && Selects3(columns, labels, t, Aggregate(agg)) && t.Plain?
    requires forall l :: l in labels ==> Find(columns, l).Plain?
    requires k.labels.Keys == LabelSet(labels) && g.key == KeyRow()(k)
    requires p.t == k.t && p.labels == k.labels && EvalAgg(agg, g.members, P, w) == Num(p.v)
    ensures Summary(columns, g, P, w) == AsRow()(p)
  {
    hide EvalAgg;
    var s, r := Summary(columns, g, P, w), AsRow()(p);
    assert s.Keys == r.Keys;
    forall n | n in s ensures s[n] == r[n] {
    }
  }

  ghost predicate KeysLabeled<A(!new)>(xs: seq<A>, key: A -> PointKey, labels: seq<string>) {
    forall x :: x in xs ==> key(x).labels.Keys == LabelSet(labels)
  }

  ghost predicate KeysAgree<A(!new)>(xs: seq<A>, f: A -> Row, key: A -> PointKey, columns: seq<Column>,
                               labels: seq<string>, P: Params, w: World) {
    forall x :: x in xs ==> KeyOf(columns, ["t"] + labels, f(x), P, w) == KeyRow()(key(x))
  }

  /** `make` gives a group's key the value that the aggregate has on the group's rows. */
  ghost predicate Makes<A(!new)>(xs: seq<A>, f: A -> Row, key: A -> PointKey, make: Group<PointKey, A> -> Point,
                           agg: Agg, P: Params, w: World) {
    forall g :: g in Groups(xs, key) ==>
      make(g).t == g.key.t && make(g).labels == g.key.labels && EvalAgg(agg, Map(g.members, f), P, w) == Num(make(g).v)
  }

  /** A query that groups rows by t and labels makes the rows of the points of the grouped elements. */
  lemma GroupedPoints<A(!new)>(xs: seq<A>, f: A -> Row, key: A -> PointKey, make: Group<PointKey, A> -> Point,
                         columns: seq<Column>, labels: seq<string>, t: Item, agg: Agg, P: Params, w: World)
    requires Clean(labels) && Selects3(columns, labels, t, Aggregate(agg)) && t.Plain?
    requires forall l :: l in labels ==> Find(columns, l).Plain?
    requires KeysLabeled(xs, key, labels) && KeysAgree(xs, f, key, columns, labels, P, w)
    requires Makes(xs, f, key, make, agg, P, w)
    ensures Map(Groups(Map(xs, f), KeyedBy(columns, ["t"] + labels, P, w)), Summarizes(columns, P, w))
            == Map(Map(Groups(xs, key), make), AsRow())
    ensures Labeled(Map(Groups(xs, key), make), labels)
  {
    hide EvalAgg, Summary, KeyOf, KeyRow, AsRow, Selects3, Find, Names, Clean;
    forall x, y | x in xs && y in xs && KeyRow()(key(x)) == KeyRow()(key(y)) ensures key(x) == key(y) {
      KeyRowInjective(key(x), key(y), labels);
    }
    forall g | g in Groups(xs, key)
      ensures g.key.labels.Keys == LabelSet(labels)
      ensures Summary(columns, Group(KeyRow()(g.key), Map(g.members, f)), P, w) == AsRow()(make(g))
    {
      KeyOfGroup(xs, key, g);
      SummaryIsPoint(columns, labels, Group(KeyRow()(g.key), Map(g.members, f)), g.key, make(g), t, agg, P, w);
    }
    GroupedCommutes(xs, f, key, KeyRow(), make, AsRow(), columns, ["t"] + labels, P, w);
  }
}
