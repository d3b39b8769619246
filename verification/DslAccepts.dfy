/** Which expressions the compiler accepts, told without compiling them. */
module DslAccepts {
  import opened Lists
  import opened Sql
  import opened Dsl
  import opened DslMeaning
  import opened DslCorrect
  import opened DslQueries
  import opened DslTheorem

  /** The labels of the metrics. */
  function LabelsOfMetric(name: string): Option<seq<string>> {
    if name in {"latency_processed_to_confirmed_ms", "latency_confirmed_to_finalized_ms", "latency_wallclock_perceived_ms"} then
      Some(["instruction"])
    else if name in {"instruction_calls_total", "instruction_cu_consumed"} then Some(["instruction", "status"])
    else if name == "errors_total" then Some(["instruction", "error_name"])
    else if name == "cpi_calls_total" then Some(["callee_program"])
    else if name == "signer_fees_lamports_total" then Some(["signer", "status"])
    else None
  }

  predicate IsCounter(name: string) {
    name in {"instruction_calls_total", "errors_total", "cpi_calls_total", "signer_fees_lamports_total"}
  }

  /** A selector is of a known metric and of its labels, or of events with a type, and types only as equalities. */
  ghost predicate Selectable(v: VectorExpr) {
    if v.name == "event" then
      && (exists m :: m in v.labels && m.key == "type")
      && (forall m :: m in v.labels && m.key == "type" ==> m.op == Eq)
    else
      && LabelsOfMetric(v.name).Some?
      && forall m :: m in v.labels ==> m.key in LabelsOfMetric(v.name).value
  }

  /** Rates are of counters, quantiles of the metric with a digest, and tops of at least one. */
  ghost predicate Acceptable(e: Expr)
    decreases e
  {
    match e
    case Number(_) => true
    case Vector(v) => Selectable(v)
    case Func(name, args) =>
      if name in {"rate", "irate", "increase"} then
        |args| == 1 && args[0].Vector? && IsCounter(args[0].vec.name) && Selectable(args[0].vec)
      else if name == "histogram_quantile" then
        && |args| == 2 && args[0].Number? && args[1].Vector? && args[1].vec.name == "instruction_cu_consumed"
        && Selectable(args[1].vec)
      else
        name in {"topk", "bottomk"} && |args| == 2 && args[0].Number? && args[0].v >= 1.0 && Acceptable(args[1])
    case Aggregation(_, grouping, inner) =>
      && Acceptable(inner)
      && (grouping.Some? && grouping.value.isBy ==> forall l :: l in grouping.value.labels ==> l in LabelsOf(inner))
    case Binary(l, _, r) => Acceptable(l) && Acceptable(r)
  }

  lemma RegistryIs(name: string)
    ensures MetricRegistry(name).Some? <==> LabelsOfMetric(name).Some?
    ensures MetricRegistry(name).Some? ==>
      var def := MetricRegistry(name).value;
      && LabelNames(def.labels) == LabelsOfMetric(name).value
      && (def.kind.Counter? <==> IsCounter(name))
      && (def.kind.TDigest? && def.tdigestCol.Some? <==> name == "instruction_cu_consumed")
    ensures name == "event" ==> MetricRegistry(name) == None
  {
    RegistryLabels(name);
    RegistryKinds(name);
    hide MetricRegistry, LabelsOfMetric, IsCounter;
  }

  lemma RegistryLabels(name: string)
    ensures MetricRegistry(name).Some? <==> LabelsOfMetric(name).Some?
    ensures MetricRegistry(name).Some? ==> LabelNames(MetricRegistry(name).value.labels) == LabelsOfMetric(name).value
  {
    LabelTexts();
    OneLabel("instruction", "instruction_name");
    OneLabel("callee_program", "callee_program");
    TwoLabels("instruction", "instruction_name", "status", "status");
    TwoLabels("instruction", "instruction_name", "error_name", "error_name");
    TwoLabels("signer", "signer", "status", "status");
    hide LabelNames, DistinctLabels, Clean;
  }

  lemma RegistryKinds(name: string)
    ensures MetricRegistry(name).Some? ==>
      var def := MetricRegistry(name).value;
      && (def.kind.Counter? <==> IsCounter(name))
      && (def.kind.TDigest? && def.tdigestCol.Some? <==> name == "instruction_cu_consumed")
    ensures name == "event" ==> MetricRegistry(name) == None
  {
  }

  /** Where a metric is stored, the column of its time, how it is added up, and the columns of its labels. */
  ghost predicate StoredAs(def: MetricDef, table: string, timeCol: string, value: Agg, columns: seq<string>) {
    && def.table == table && def.timeCol == timeCol && def.value == value
    && |columns| == |def.labels| && forall i :: 0 <= i < |columns| ==> def.labels[i].1 == columns[i]
  }

  lemma LatenciesStored(name: string)
    requires name in {"latency_processed_to_confirmed_ms", "latency_confirmed_to_finalized_ms", "latency_wallclock_perceived_ms"}
    ensures MetricRegistry(name).Some?
      && StoredAs(MetricRegistry(name).value, name, "observed_at", AvgOf("latency_ms"), ["instruction_name"])
  {
  }

  lemma CallsStored()
    ensures MetricRegistry("instruction_calls_total").Some?
      && StoredAs(MetricRegistry("instruction_calls_total").value, "metrics_instruction_calls_minute", "minute",
                  CountMerge("calls_state"), ["instruction_name", "status"])
  {
  }

  lemma UnitsStored()
    ensures MetricRegistry("instruction_cu_consumed").Some?
      && StoredAs(MetricRegistry("instruction_cu_consumed").value, "metrics_instruction_calls_minute", "minute",
                  SumMerge("sum_cu_state"), ["instruction_name", "status"])
      && MetricRegistry("instruction_cu_consumed").value.tdigestCol == Some("cu_tdigest_state")
  {
  }

  lemma ErrorsStored()
    ensures MetricRegistry("errors_total").Some?
      && StoredAs(MetricRegistry("errors_total").value, "metrics_errors_minute", "minute",
                  CountMerge("errors_state"), ["instruction_name", "error_name"])
  {
  }

  lemma CrossCallsStored()
    ensures MetricRegistry("cpi_calls_total").Some?
      && StoredAs(MetricRegistry("cpi_calls_total").value, "metrics_cpi_minute", "minute",
                  CountMerge("calls_state"), ["callee_program"])
  {
  }

  lemma FeesStored()
    ensures MetricRegistry("signer_fees_lamports_total").Some?
      && StoredAs(MetricRegistry("signer_fees_lamports_total").value, "transactions", "block_time",
                  SumOf("fee_lamports"), ["signer", "status"])
  {
  }

  lemma {:induction false} ColumnWhen(labels: seq<(string, string)>, l: string)
    ensures ColumnOf(labels, l).Some? <==> l in LabelNames(labels)
  {
    if labels != [] {
      ColumnWhen(labels[1..], l);
      assert LabelNames(labels) == [labels[0].0] + LabelNames(labels[1..]);
    }
  }

  lemma SelectableWhen(v: VectorExpr)
    ensures VectorNode(v).Ok? <==> Selectable(v)
  {
    if v.name != "event" {
      RegistryIs(v.name);
      hide MetricRegistry, LabelsOfMetric;
      if MetricRegistry(v.name).Some? {
        forall m | m in v.labels
          ensures ColumnOf(MetricRegistry(v.name).value.labels, m.key).Some? <==> m.key in LabelsOfMetric(v.name).value
        {
          ColumnWhen(MetricRegistry(v.name).value.labels, m.key);
        }
      }
    }
  }

  lemma SameLabels(e: Expr)
    requires Compile(e).Ok?
    ensures LabelsOf(e) == Compile(e).value.labels
  {
    var ctx, w := CompileCtx("", "", 0, 0, 0), World(map[], (_, _) => false, (_, _) => "", (_, _) => 0.0, _ => 0.0);
    FinalCovers(e, ctx);
    hide Compile, LabelsOf, Final;
    EvalCompiled(e, ctx, Final(e, ctx), w);
  }

  lemma RateWhen(name: string, args: seq<Expr>)
    requires IsRate(name)
    ensures Compile(Func(name, args)).Ok? <==> Acceptable(Func(name, args))
  {
    if |args| == 1 && args[0].Vector? {
      SelectableWhen(args[0].vec);
      RegistryIs(args[0].vec.name);
      hide MetricRegistry, VectorNode, Selectable, RateQuery, IsCounter;
    }
  }

  lemma QuantileWhen(args: seq<Expr>)
    ensures QuantileNode(args).Ok? <==> Acceptable(Func("histogram_quantile", args))
  {
    if |args| == 2 && args[0].Number? && args[1].Vector? {
      var v := args[1].vec;
      SelectableWhen(v);
      RegistryIs(v.name);
      assert v.name == "instruction_cu_consumed" ==> v.name[0] == 'i' && v.name != EVENT;
      hide MetricRegistry, Selectable, DigestQuery, LabelsKnown;
    }
  }

  /** An expression is accepted iff it is acceptable. */
  lemma {:induction false} AcceptedExactly(e: Expr)
    ensures Compile(e).Ok? <==> Acceptable(e)
    decreases e
  {
    match e
    case Number(_) =>
    case Vector(v) => SelectableWhen(v);
    case Func(name, args) =>
      if IsRate(name) {
        RateWhen(name, args);
      } else if name == "histogram_quantile" {
        QuantileWhen(args);
      } else if IsTop(name) && |args| == 2 {
        AcceptedExactly(args[1]);
      }
    case Aggregation(op, grouping, inner) =>
      AcceptedExactly(inner);
      if Compile(inner).Ok? { SameLabels(inner); }
    case Binary(l, _, r) =>
      AcceptedExactly(l);
      AcceptedExactly(r);
  }
}
