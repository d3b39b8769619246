/**
The compiler's passes as they run: conditions are pushed in loops and every literal is inserted
into one shared parameter map.
*/
module DslCompiler {
  import opened Lists
  import opened Sql
  import opened Dsl
  import opened DslMeaning
  import opened DslCorrect
  import opened DslTheorem

  datatype CompiledQuery = CompiledQuery(query: Query, params: Params, labels: seq<string>)

  lemma InsertLast(P: Params, bs: seq<Binding>, b: Binding)
    ensures InsertAll(P, bs + [b]) == Insert(InsertAll(P, bs), b)
  {
    assert (bs + [b])[..|bs|] == bs;
  }

  lemma {:induction false} InsertAllAppend(P: Params, a: seq<Binding>, b: seq<Binding>)
    ensures InsertAll(P, a + b) == InsertAll(InsertAll(P, a), b)
  {
    if b == [] {
      assert a + b == a;
    } else {
      assert (a + b)[..|a + b| - 1] == a + b[..|b| - 1];
      InsertAllAppend(P, a, b[..|b| - 1]);
    }
  }

  lemma LabelPrefix(def: MetricDef, ms: seq<LabelMatch>, i: nat, td: bool)
    requires i < |ms| && LabelsKnown(def, ms[..i]) && ColumnOf(def.labels, ms[i].key).Some?
    ensures LabelsKnown(def, ms[..i + 1])
    ensures LabelConds(def, ms[..i + 1], td) == LabelConds(def, ms[..i], td)
      + [MatchCond(ms[i].op, Col(ColumnOf(def.labels, ms[i].key).value), LabelParam(td, i))]
    ensures LabelBinds(ms[..i + 1], td) == LabelBinds(ms[..i], td) + [Binding(LabelParam(td, i), Str(ms[i].value))]
  {
    assert ms[..i + 1] == ms[..i] + [ms[i]] && ms[..i + 1][..i] == ms[..i];
  }

  lemma EventPrefix(ms: seq<LabelMatch>, i: nat)
    requires i < |ms|
    ensures EventConds(ms[..i + 1]) == EventConds(ms[..i]) + [EventCond(ms[i], i)]
    ensures EventBinds(ms[..i + 1]) == EventBinds(ms[..i])
      + [Binding(if ms[i].key == "type" then EventType else EventLabel(i), Str(ms[i].value))]
    ensures forall m :: m in ms[..i + 1] <==> m in ms[..i] || m == ms[i]
  {
    assert ms[..i + 1] == ms[..i] + [ms[i]] && ms[..i + 1][..i] == ms[..i];
  }

  class Compiler {
    var params: Params

    constructor (ctx: CompileCtx)
      ensures params == BaseParams(ctx)
    {
      params := BaseParams(ctx);
    }

    method Bind(n: ParamName, v: Value)
      modifies this
      ensures params == Insert(old(params), Binding(n, v))
    {
      params := params[n := v];
    }

    /** The conditions of label matchers, pushed after those of `start`. */
    method CompileLabels(def: MetricDef, ms: seq<LabelMatch>, td: bool, start: seq<Cond>)
      returns (r: Result<seq<Cond>>)
      modifies this
      ensures r.Ok? <==> LabelsKnown(def, ms)
      ensures r.Ok? ==> r.value == start + LabelConds(def, ms, td)
      ensures r.Ok? ==> params == InsertAll(old(params), LabelBinds(ms, td))
      ensures r.Err? ==> r.error == UnknownLabel
    {
      var conds := start;
      for i := 0 to |ms|
        invariant LabelsKnown(def, ms[..i])
        invariant conds == start + LabelConds(def, ms[..i], td)
        invariant params == InsertAll(old(params), LabelBinds(ms[..i], td))
      {
        var column := ColumnOf(def.labels, ms[i].key);
        if column.None? {
          assert ms[i] in ms;
          return Err(UnknownLabel);
        }
        LabelPrefix(def, ms, i, td);
        InsertLast(old(params), LabelBinds(ms[..i], td), Binding(LabelParam(td, i), Str(ms[i].value)));
        Bind(LabelParam(td, i), Str(ms[i].value));
        conds := conds + [MatchCond(ms[i].op, Col(column.value), LabelParam(td, i))];
      }
      assert ms[..|ms|] == ms;
      r := Ok(conds);
    }

    method CompileVector(v: VectorExpr) returns (r: Result<SqlNode>)
      modifies this
      ensures r == VectorNode(v)
      ensures r.Ok? ==> params == InsertAll(old(params), VectorBinds(v))
    {
      hide MetricRegistry, MetricQuery, ScopeConds, RangeCond, EventNode, LabelConds, LabelBinds;
      if v.name == EVENT {
        r := CompileEventVector(v);
        return;
      }
      var found := MetricRegistry(v.name);
      if found.None? { return Err(UnknownMetric); }
      var def := found.value;
      var conds := ScopeConds(def.timeCol);
      if v.rangeS.Some? {
        conds := conds + [RangeCond(def.timeCol)];
        InsertLast(params, [], Binding(RangeS, Int(v.rangeS.value)));
        Bind(RangeS, Int(v.rangeS.value));
      }
      assert params == InsertAll(old(params), RangeBinds(v));
      var all := CompileLabels(def, v.labels, false, conds);
      if all.Err? { return Err(UnknownLabel); }
      InsertAllAppend(old(params), RangeBinds(v), LabelBinds(v.labels, false));
      assert conds + LabelConds(def, v.labels, false) == MetricConds(def, v);
      r := Ok(MetricQuery(def, all.value));
    }

    method CompileEventVector(v: VectorExpr) returns (r: Result<SqlNode>)
      modifies this
      ensures r == EventNode(v)
      ensures r.Ok? ==> params == InsertAll(old(params), EventBinds(v.labels))
    {
      var ms, hasType := v.labels, false;
      var conds := ScopeConds("block_time");
      for i := 0 to |ms|
        invariant forall m :: m in ms[..i] && m.key == "type" ==> m.op.Eq?
        invariant hasType <==> exists m :: m in ms[..i] && m.key == "type"
        invariant conds == EventConds(ms[..i])
        invariant params == InsertAll(old(params), EventBinds(ms[..i]))
      {
        var m := ms[i];
        EventPrefix(ms, i);
        InsertLast(old(params), EventBinds(ms[..i]),
                   Binding(if m.key == "type" then EventType else EventLabel(i), Str(m.value)));
        if m.key == "type" {
          if !m.op.Eq? {
            assert m in ms;
            return Err(EventTypeOp);
          }
          hasType := true;
          Bind(EventType, Str(m.value));
          conds := conds + [Equal(Col("event_name"), ParamRef(EventType))];
        } else {
          Bind(EventLabel(i), Str(m.value));
          conds := conds + [MatchCond(m.op, JsonString(Col("payload_json"), m.key), EventLabel(i))];
        }
      }
      assert ms[..|ms|] == ms;
      r := if hasType then Ok(EventQuery(conds)) else Err(EventTypeMissing);
    }

    method CompileRateLike(name: string, args: seq<Expr>) returns (r: Result<SqlNode>)
      modifies this
      ensures r == RateNode(name, args)
      ensures r.Ok? ==> params == InsertAll(old(params), VectorBinds(args[0].vec))
    {
      if |args| != 1 { return Err(WrongArity); }
      if !args[0].Vector? { return Err(NotAVector); }
      var def := MetricRegistry(args[0].vec.name);
      if def.None? { return Err(UnknownMetric); }
      if !def.value.kind.Counter? { return Err(NotACounter); }
      var inner := CompileVector(args[0].vec);
      r := if inner.Err? then inner else Ok(RateQuery(inner.value, name != "increase"));
    }

    method CompileQuantile(args: seq<Expr>) returns (r: Result<SqlNode>)
      modifies this
      ensures r == QuantileNode(args)
      ensures r.Ok? ==> params == InsertAll(old(params), Binds(Func("histogram_quantile", args)))
    {
      hide MetricRegistry, DigestQuery, ScopeConds, VectorNode, LabelConds, LabelBinds;
      if |args| != 2 { return Err(WrongArity); }
      if !args[0].Number? { return Err(NotNumeric); }
      if !args[1].Vector? { return Err(NotAVector); }
      var v := args[1].vec;
      var found := MetricRegistry(v.name);
      if found.None? { return Err(UnknownMetric); }
      var def := found.value;
      if !def.kind.TDigest? { return Err(NotTDigest); }
      ghost var q := [Binding(Q, Num(args[0].v))];
      InsertLast(params, [], q[0]);
      Bind(Q, Num(args[0].v));
      assert params == InsertAll(old(params), q);
      if def.tdigestCol.None? { return Err(NotTDigest); }
      var base := CompileVector(v);
      if base.Err? { return base; }
      InsertAllAppend(old(params), q, VectorBinds(v));
      var conds := CompileLabels(def, v.labels, true, ScopeConds(def.timeCol));
      if conds.Err? { return Err(UnknownLabel); }
      InsertAllAppend(old(params), q + VectorBinds(v), LabelBinds(v.labels, true));
      r := Ok(DigestQuery(def, def.tdigestCol.value, conds.value));
    }

    method CompileKFn(name: string, args: seq<Expr>) returns (r: Result<SqlNode>)
      requires IsTop(name) && !IsRate(name) && name != "histogram_quantile"
      modifies this
      ensures r == Compile(Func(name, args))
      ensures r.Ok? ==> params == InsertAll(old(params), Binds(Func(name, args)))
      decreases Func(name, args), 0
    {
      if |args| != 2 { return Err(WrongArity); }
      if !args[0].Number? || args[0].v < 1.0 { return Err(BadK); }
      ghost var k := [Binding(K, Int(ToU32(args[0].v)))];
      InsertLast(params, [], k[0]);
      Bind(K, Int(ToU32(args[0].v)));
      assert params == InsertAll(old(params), k);
      var inner := CompileExpr(args[1]);
      InsertAllAppend(old(params), k, Binds(args[1]));
      r := if inner.Err? then inner else Ok(TopQuery(inner.value, name == "topk"));
    }

    method CompileExpr(e: Expr) returns (r: Result<SqlNode>)
      modifies this
      ensures r == Compile(e)
      ensures r.Ok? ==> params == InsertAll(old(params), Binds(e))
      decreases e, 1
    {
      match e
      case Vector(v) => r := CompileVector(v);
      case Func(name, args) =>
        if name == "rate" || name == "irate" || name == "increase" {
          r := CompileRateLike(name, args);
        } else if name == "histogram_quantile" {
          r := CompileQuantile(args);
        } else if name == "topk" || name == "bottomk" {
          r := CompileKFn(name, args);
        } else {
          r := Err(UnsupportedFunction);
        }
      case Aggregation(op, grouping, inner) =>
        var node := CompileExpr(inner);
        r := if node.Err? then node else AggregationNode(op, grouping, node.value);
      case Binary(left, op, right) =>
        var l := CompileExpr(left);
        if l.Err? { return l; }
        var rn := CompileExpr(right);
        if rn.Err? { return rn; }
        InsertAllAppend(old(params), Binds(left), Binds(right));
        r := Ok(BinaryQuery(op, l.value, rn.value));
      case Number(x) => r := Ok(NumberQuery(x));
    }
  }

  /** `compile`, from the expression tree on: the query, the final parameters, and the labels of the plan. */
  method CompileQuery(e: Expr, ctx: CompileCtx) returns (r: Result<CompiledQuery>)
    ensures r.Ok? <==> Compile(e).Ok?
    ensures r.Ok? ==> r.value == CompiledQuery(Compile(e).value.query, Final(e, ctx), Compile(e).value.labels)
    ensures r.Err? ==> r.error == Compile(e).error
    ensures r.Ok? && (forall u :: u in Uses(e) ==> LastHas(Binds(e), u)) ==>
      forall w :: RangesIdle(e, ctx, w) ==> Evaluate(r.value.query, r.value.params, w) == Map(Denote(e, ctx, w), AsRow())
  {
    hide Compile, Evaluate, Denote, Binds, Uses, Map, AsRow, RangesIdle, LastHas, BaseParams, InsertAll;
    var c := new Compiler(ctx);
    var node := c.CompileExpr(e);
    r := if node.Err? then Err(node.error) else Ok(CompiledQuery(node.value.query, c.params, node.value.labels));
    if r.Ok? && forall u :: u in Uses(e) ==> LastHas(Binds(e), u) {
      ReadsAsWrittenWhen(e, ctx);
      forall w | RangesIdle(e, ctx, w) ensures Evaluate(r.value.query, r.value.params, w) == Map(Denote(e, ctx, w), AsRow()) {
        LastBindingWins(e, ctx, w);
        NormalMeansTheSame(e, ctx, w);
      }
    }
  }
}
