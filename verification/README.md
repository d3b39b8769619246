# SolObserve, modelled and proved

SolObserve watches Solana programs: an ingestor finds their transactions, a decoder turns them into
rows, a metrics language queries the rows, and an alerter acts on what the queries say. This project
models the parts whose correctness is decided by code and proves what they are meant to keep.

`dafny verify dfyconfig.toml` checks everything.

## How it is laid out

| files | part of the system |
|---|---|
| `Lists`, `Sql`, `Dsl`, `DslMeaning`, `DslCorrect`, `DslQueries`, `DslTheorem`, `DslCompiler`, `DslScoping`, `DslAlgebra`, `DslConflicts`, `DslOperands`, `DslRanges`, `DslRows`, `DslCombines`, `DslTops`, `DslSelects`, `DslOrder`, `DslAccepts` | the metrics language and its compiler to SQL |
| `Bytes`, `Utf8`, `Base58`, `BorshTypes`, `BorshJson`, `BorshValues`, `BorshViews`, `BorshAmbiguity`, `BorshTermination`, `BorshCursor`, `BorshReading` | the type-directed Borsh decoder |
| `Base64`, `Texts`, `Sobs`, `Spans` | the SDK's frames, log lines and spans |
| `RuleState`, `Incidents`, `Firings`, `Deliveries`, `Escalation` | the alerter |
| `ChainTypes`, `Backfill`, `Pending`, `Readers` | ingestion, routing and the readers' rollback filter |
| `TokenBucket` | the RPC client's rate limiter |
| `LogScan` | compute-unit attribution in the decoder |
| `RealFacts`, `ZScore` | the anomaly worker's score |
| `SchemaCache` | the schema registry |

Code that changes state in place is a class or a method with loops, proved equal to a function of the
old state; the lemmas are about those functions, and say in plain terms what they come to. Ghost fields hold histories (clock readings, event
logs, SDK calls) so that statements can be made about whole runs.

**The compiler.** The query a compilation returns does not depend on the parameters collected so far,
so `Dsl.Compile` is a function of the tree and `Dsl.Binds` lists the parameter insertions in order;
`DslCompiler` threads the shared map through loops and recursion as the source does and is proved
against the two. `Sql.Evaluate` gives the relational meaning of a query and `DslMeaning.Denote` the
time-series meaning of an expression, without SQL and without parameters. The central theorem needs
no hypothesis beyond acceptance: the query evaluates to the meaning of the expression *with every
literal read back from the final map, and without the ranges that the compiler drops*. The rest says
when the literals read back are those written and when a dropped range makes no difference. What both
the queries and the meaning come to is also told in the rows themselves, form by form: `DslSelects` from the
stored samples, `DslRows`, `DslCombines` and `DslTops` from the rows of the query below.

## Where the code falls short of what one expects of it

- **Parameters are shared by name.** All nodes of an expression write into one map, and the last
  insert wins. That no insert overwrites another's value is sufficient for the query to mean what was
  written (`DslTheorem.CompilePreservesMeaning`), not necessary. Exact conditions: for one metric filtered
  by different label values on the two sides of an operator, the query combines the second side with
  itself, which is right iff the two sides agree on that (`DslOperands.OperandsMeanWhen`); for a top k
  inside a top j, iff j is at least k or there are no more than j totals (`DslConflicts.NestedMeansWhen`);
  for an event selector with two types, iff they are equal or no event of the second is in range
  (`DslConflicts.TwoTypesMeanWhen`). Databases in which they fail are given.
- **The ranges of event selectors and of quantiles are dropped.** The grammar takes
  `event{type="x"}[5m]`, and no clause comes of the range. An event selector is right iff no event that it
  selects lies outside its range (`DslRanges.EventRangeMeansWhen`); it and a quantile are right in every
  database iff there is no range, the range reaches back to the start of the window, or the window is
  empty (`DslRanges.EventRangeAlwaysMeansWhen`, `DslRanges.QuantileRangeAlwaysMeansWhen`).
- **Compute units are attributed by name.** Right exactly when no program that logs a "consumed" line
  is re-entered while it is open (`LogScan.AttributionExact`, `LogScan.ReentryMisattributes`).
- **Spans are paired by number.** Every SDK counts from one. For SDKs that end only what they
  have open, right exactly when no message of a span's number lies inside the span (`Spans.SpansRightWhen`, `Spans.TwoCountersCollide`).
- **The raw stream ignores whose rollback it is.** Its filter does not match the program
  (`Readers.RawStreamRightWhen`, `Readers.RollbackHidesAcrossPrograms`).
- **So do per-program queries, among the registrations of one program.** Every registration has a worker
  of its own, and rollbacks carry the on-chain program only: a program registered twice can have a
  signature promoted by one worker hidden by the other's rollback. Right for a registration iff it rolled
  the signature back itself or no other registration of the program did (`Readers.ProgramQueryRightWhen`,
  `Readers.RollbackHidesAcrossRegistrations`).
- **Versions of two registrations interleave by number.** Times are in whole seconds. Resolution goes by
  creation time exactly when at the end of every second with an upload for the program one of that second
  has the highest version so far, and an oldest upload has the lowest of all
  (`SchemaCache.RunsResolveNewestWhen`): with at most one upload a second, when none gets a lower version
  than one before it (`SchemaCache.OneASecond`). A second registration starts again at 1
  (`SchemaCache.TwoRegistrationsResolveOld`).
- **A re-fired incident keeps its start.** Escalation waits run from the rule's first firing ever, so
  they are those of the current firing exactly when it is the first (`Escalation.WaitsAreCurrentWhen`,
  `Escalation.RefiringEscalatesAtOnce`); and a step escalated for one firing is never escalated for a
  later one (`Escalation.EscalatedOnceForAllFirings`). Escalation keys name neither policy nor route
  (`Escalation.StepEntersWhen`).
- **A step that names an unknown channel ends the alerter.** The settings accept any channel, the table of
  deliveries only stored ones. The pass completes iff no due step names an unknown channel whose key is
  not stored; otherwise it stops there, before anything is delivered, and the error leaves the main loop
  (services/alerter/src/main.rs:64-66) (`Escalation.EscalationPass`, `Escalation.UnknownChannelStops`).
- **A row for the person on call cannot be sent.** It has no channel, reading its channel's kind is an
  error, and the error ends the pass, and with it the main loop and the alerter
  (services/alerter/src/main.rs:64-66). Restarts do not help: while its incident is open the row stalls
  every later one (`Deliveries.StalledBehind`).
- **The upsert of a rule's state casts a truth value to a text array**
  (services/alerter/src/main.rs:753). PostgreSQL has no such cast, so read to the letter the statement
  is rejected and no rule ever leaves its first state. What is proved of rules and incidents is proved of
  the statement without the cast.
- **Different encodings can decode to the same JSON.** Exactly which types allow it is said constructor
  by constructor in `BorshAmbiguity`. Any non-zero byte is taken as an option's tag
  (`BorshAmbiguity.AnyTagIsPresent`), and a key is a text like any other (`BorshAmbiguity.TextsRenderAsKeys`).
- **Fields without a type are read as u8.** A struct is read as described iff each of its entries has a
  type under that name or is a bare u8, so tuple structs of anything else are misread
  (`BorshReading.StructReadWhen`, `BorshReading.TupleStructMisread`); a variant's bare types are read iff
  they are primitive (`BorshReading.VariantReadWhen`).
- **The tag of an SDK line is not read**, although the format's description calls it a means of
  classification (`Sobs.LinesExactly`).

## Model

| member | source | states |
|---|---|---|
| DslTheorem.LastBindingWins | crates/solobserve-dsl/src/lib.rs:364-408 | for every accepted expression, the query under its own final parameters evaluates to the rows of the expression's points with each literal read back from the map and the ranges of events and quantiles gone; labels are the expression's, never t or v; every row has exactly t, v and the labels |
| DslTheorem.EvalCompiled | crates/solobserve-dsl/src/lib.rs:364-408 | the same by induction for any parameter map that has the base values and covers the bindings |
| DslTheorem.CompilePreservesMeaning | crates/solobserve-dsl/src/lib.rs:140-153 | compiling preserves meaning, in a database where no selected event or digest lies outside a range that the compiler drops, whenever the final map has the value of every literal the query refers to |
| DslTheorem.PreservedWithoutConflict | crates/solobserve-dsl/src/lib.rs:140-153 | in particular when no two nodes bind one parameter to different values |
| DslTheorem.NormalMeansTheSame | crates/solobserve-dsl/src/lib.rs:551-594 | dropping the ranges of event selectors and quantiles keeps the points of every expression in a database where they leave nothing out |
| DslTheorem.ReadsAsWrittenWhen | crates/solobserve-dsl/src/lib.rs:364-408 | the literals read back from the final map are those written iff, for every binding used, the last binding of its name has its value: a condition on the text, sufficient for the meaning |
| DslTheorem.ReadsBackWhen | crates/solobserve-dsl/src/lib.rs:364-408 | for any covering map, reading literals back gives the literals written iff the map agrees with all used bindings |
| DslTheorem.NoConflictKeepsAll | crates/solobserve-dsl/src/lib.rs:140-164 | later inserts do not disturb earlier ones: without conflicts every binding is in the final map |
| DslTheorem.FinalCovers | crates/solobserve-dsl/src/lib.rs:140-164 | bindings never touch the base parameters, and each name only ever holds values of its kind |
| DslTheorem.LastBound | crates/solobserve-dsl/src/lib.rs:483-594 | after all inserts a name has the value of its last binding |
| DslConflicts.NestedMeansWhen | crates/solobserve-dsl/src/lib.rs:779-823 | a top or bottom k, free of conflicts, inside a top or bottom j means in a given database, where no dropped range matters, what was written iff j is at least k or the inner expression has at most j totals there |
| DslConflicts.NestedCallsMeanWhen | crates/solobserve-dsl/src/lib.rs:779-823 | over the plain metric of calls it means it in every database iff j is at least k or the range is empty; for j below k a database with j + 1 programs tells them apart |
| DslConflicts.TwoTypesReadAsTheSecond | crates/solobserve-dsl/src/lib.rs:559-566 | the query of an event selector with two types returns the events of the second |
| DslConflicts.TwoTypesMeanWhen | crates/solobserve-dsl/src/lib.rs:559-566 | it means in a given database what was written iff the types are equal or no event of the second is selected |
| DslConflicts.TwoTypesAlwaysMeanWhen | crates/solobserve-dsl/src/lib.rs:559-566 | it means it in every database iff the types are equal or the range is empty |
| DslOperands.OperandsReadTheSecond | crates/solobserve-dsl/src/lib.rs:508-524 | the query of calls to a combined by an operator with calls to b combines calls to b with themselves |
| DslOperands.OperandsMeanWhen | crates/solobserve-dsl/src/lib.rs:382-402 | it means in a given database what was written iff at every minute with calls to b there are calls to a that the operator combines with them to what it makes of b's twice |
| DslOperands.OperandsAlwaysMeanWhen | crates/solobserve-dsl/src/lib.rs:382-402 | it means it in every database iff a is b or the window is empty |
| DslRanges.EventRangeMeansWhen | crates/solobserve-dsl/src/lib.rs:551-594 | an event selector free of conflicts means in a given database what was written iff no event it selects lies outside its range |
| DslRanges.EventRangeAlwaysMeansWhen | crates/solobserve-dsl/src/lib.rs:551-594 | a selector by type means it in every database iff it has no range, the range reaches back to the start of the window, or the window is empty |
| DslRanges.QuantileRangeAlwaysMeansWhen | crates/solobserve-dsl/src/lib.rs:637-694 | the same for a quantile of every digest metric |
| DslQueries.MetricCorrect | crates/solobserve-dsl/src/lib.rs:483-549 | a metric's query filters by scope, range and labels, groups by minute and labels, aggregates, and orders by minute, as the direct meaning does |
| DslQueries.EventCorrect | crates/solobserve-dsl/src/lib.rs:551-594 | the same for events, counted per minute and type, but without the range, which has no clause |
| DslQueries.RateCorrect | crates/solobserve-dsl/src/lib.rs:596-635 | rate divides every point by the larger of the step and 1, increase by 1 |
| DslQueries.DigestCorrect | crates/solobserve-dsl/src/lib.rs:637-739 | a quantile merges the digests of each minute and label set at level q, without the range, which has no clause |
| DslQueries.AggregationCorrect | crates/solobserve-dsl/src/lib.rs:741-777 | an aggregation groups the inner points by minute and kept labels |
| DslQueries.TopCorrect | crates/solobserve-dsl/src/lib.rs:779-823 | top and bottom total each label set over all times, rank, cut to k and stamp the end of the range |
| DslQueries.BinaryCorrect | crates/solobserve-dsl/src/lib.rs:382-402 | a binary operator joins the two sides per minute and drops labels |
| DslQueries.NumberCorrect | crates/solobserve-dsl/src/lib.rs:403-406 | a number is one point at the end of the range |
| DslRows.UngroupedRows | crates/solobserve-dsl/src/lib.rs:741-777 | of evaluated rows: without grouping the plan has no labels, rows have t and v only, no two share a t, a t occurs iff it does below, and v is the sum, average, least, largest or number of all values below at that t |
| DslRows.ByRows | crates/solobserve-dsl/src/lib.rs:742-777 | with by, the plan's labels are those written, and there is one row for every t and labels that occur below, with the aggregate of the values found with them |
| DslRows.WithoutRows | crates/solobserve-dsl/src/lib.rs:742-777 | with without, the plan's labels are those below but for the ones written, in their order, and the rows are by them |
| DslCombines.RateRows | crates/solobserve-dsl/src/lib.rs:596-635 | a rate or an irate has the rows below, as many, with v divided by the seconds of a step, at least one; an increase by one |
| DslCombines.BinaryRows | crates/solobserve-dsl/src/lib.rs:382-402 | an operator has a row, of t and v only, for every two rows on its sides with one t, with what it makes of their values |
| DslCombines.NumberRows | crates/solobserve-dsl/src/lib.rs:403-406 | a number is one row at the last second of the window |
| DslTops.TopRows | crates/solobserve-dsl/src/lib.rs:779-823 | a top k has at most k rows, at the last second of the window, each the sum over all times of the values with its labels; no two share labels, values fall, and a label set left out has a total that beats none; a bottom k likewise with rising values |
| DslTops.TopNumber | crates/solobserve-dsl/src/lib.rs:779-806 | k is the number written without its fraction, at most 2^32 - 1, when nothing conflicts |
| DslSelects.MetricRows | crates/solobserve-dsl/src/lib.rs:483-549 | a metric has one row for every minute and labels that occur among the stored samples of the program, cluster, window, range and matchers, with the sum of the metric's column over them, or its average |
| DslSelects.EventRows | crates/solobserve-dsl/src/lib.rs:551-594 | events have one row for every minute and name among those wanted, with their number |
| DslSelects.QuantileRows | crates/solobserve-dsl/src/lib.rs:637-739 | a quantile has one row for every minute and labels among the samples wanted, with the quantile of their digests at the level written |
| DslOrder.RowsAscend | crates/solobserve-dsl/src/lib.rs:364-408 | every row of every accepted query has a time, and rows come in the order of their times |
| DslAccepts.AcceptedExactly | crates/solobserve-dsl/src/lib.rs:364-408 | an expression compiles iff selectors are of known metrics and labels or of events with a type, rates are of counters, quantiles of the metric with a digest, tops of at least one, and by names labels that are there |
| DslCorrect.RegistryFacts | crates/solobserve-dsl/src/lib.rs:410-481 | every registered metric has distinct labels, none named t or v or like its digest column |
| DslCompiler.CompileQuery | crates/solobserve-dsl/src/lib.rs:140-153 | returns the compiled query, the final parameters and the labels, or the compiler's error; when the last binding of every name used agrees, the query means the expression in every world where no dropped range matters |
| DslCompiler.Compiler.CompileExpr | crates/solobserve-dsl/src/lib.rs:364-408 | the recursion over the shared map returns `Compile(e)` and leaves the map with exactly the bindings of e inserted in order |
| DslCompiler.Compiler.CompileVector | crates/solobserve-dsl/src/lib.rs:483-549 | the same for metric selectors |
| DslCompiler.Compiler.CompileEventVector | crates/solobserve-dsl/src/lib.rs:551-594 | the same for event selectors, with both errors about the type |
| DslCompiler.Compiler.CompileLabels | crates/solobserve-dsl/src/lib.rs:508-524 | the loop over label matchers pushes one condition and inserts one parameter each, and fails iff a label is unknown |
| DslCompiler.Compiler.CompileRateLike | crates/solobserve-dsl/src/lib.rs:596-635 | rate, irate and increase: same query, same bindings, same errors in the same order |
| DslCompiler.Compiler.CompileQuantile | crates/solobserve-dsl/src/lib.rs:637-694 | quantiles: q first, then the vector's bindings, then those of the digest's base |
| DslCompiler.Compiler.CompileKFn | crates/solobserve-dsl/src/lib.rs:779-823 | top and bottom k: the number is inserted before the inner expression is compiled |
| DslScoping.QueriesAreClosed | crates/solobserve-dsl/src/lib.rs:140-164 | every placeholder in the query has a key in the final parameters |
| DslScoping.PlaceholdersExactly | crates/solobserve-dsl/src/lib.rs:364-408 | the placeholders are base parameters and exactly the names of the used bindings |
| DslScoping.EvaluateDepends | crates/solobserve-dsl/src/lib.rs:140-164 | what a query returns depends on the values of its placeholders and on nothing else in the map |
| DslScoping.QueriesAreScoped | crates/solobserve-dsl/src/lib.rs:364-408 | every column a query names is an output of the query below it, grouping and ordering name outputs, and the output columns are t, v and the labels |
| DslAlgebra.SumKeepsMinutes | crates/solobserve-dsl/src/lib.rs:741-777 | summing by any labels keeps the total of every minute |
| DslAlgebra.CompiledSumKeepsMinutes | crates/solobserve-dsl/src/lib.rs:741-777 | of the compiled queries: sum, sum by and sum without keep each minute's total of v, conflicts or not |
| DslAlgebra.WithoutIsBy | crates/solobserve-dsl/src/lib.rs:742-756 | without is always accepted and is by the labels left; by is accepted iff its labels are among the inner ones |
| DslAlgebra.AggPointsAre | crates/solobserve-dsl/src/lib.rs:741-777 | a point is in an aggregation iff its key occurs and its value is the aggregate of the points with that key |
| DslAlgebra.SumBySumBy | crates/solobserve-dsl/src/lib.rs:741-777 | sum by A of sum by B has the points of sum by A, each once, when A is within B |
| DslAlgebra.CompiledRegrouping | crates/solobserve-dsl/src/lib.rs:741-777 | of the compiled queries: both are accepted, share the parameters, and return the same rows |
| DslAlgebra.TopAreTheBest | crates/solobserve-dsl/src/lib.rs:809-820 | the top k are min(k, all) of the totals, best first, and no total left out beats one kept |
| BorshValues.RoundTrip | crates/idl-parser/src/borsh_decode.rs:226-356 | decoding a value's encoding followed by anything gives its JSON view and leaves exactly what follows, through every nesting |
| BorshValues.DecodesExactly | crates/idl-parser/src/borsh_decode.rs:226-356 | decoding succeeds with a JSON and a rest iff the input is the encoding of a value with that view, followed by that rest |
| BorshValues.Sound | crates/idl-parser/src/borsh_decode.rs:226-356 | whatever is accepted is the encoding of a value of the type, recovered by the lemma |
| BorshValues.TrailingBytesIgnored | crates/idl-parser/src/borsh_decode.rs:14-57 | bytes after the consumed span never change the result |
| BorshValues.TruncationFails | crates/idl-parser/src/borsh_decode.rs:14-57 | cutting any consumed byte makes decoding fail |
| BorshValues.PrefixFree | crates/idl-parser/src/borsh_decode.rs:226-356 | no encoding of a type is a proper prefix of another |
| BorshJson.EnumReads | crates/idl-parser/src/borsh_decode.rs:307-339 | an enum is decoded iff its first byte is the position of a variant whose fields follow; its JSON is an object of exactly two members, "variant" for the name and "value" for null or the array of the fields |
| BorshJson.StructReads | crates/idl-parser/src/borsh_decode.rs:285-306 | a struct is decoded iff its fields are, one after another; its JSON has exactly their names, each with the value of the last field of that name |
| BorshJson.VecReads | crates/idl-parser/src/borsh_decode.rs:235-242 | a vec is decoded iff as many items as its first four bytes say follow; its JSON is the array of them in order |
| BorshJson.ArrayReads | crates/idl-parser/src/borsh_decode.rs:250-260 | an array is decoded iff as many items as its type says follow |
| BorshJson.OptionReads | crates/idl-parser/src/borsh_decode.rs:243-249 | an option is null for a byte 0 and else what follows the byte |
| BorshJson.UnsignedReads | crates/idl-parser/src/borsh_decode.rs:22-39 | unsigned numbers of 1, 2, 4 and 8 bytes, the least significant first, written out |
| BorshJson.SignedReads | crates/idl-parser/src/borsh_decode.rs:40-44 | a signed number is the unsigned one, less 2^64 from 2^63 on |
| BorshJson.BoolReads | crates/idl-parser/src/borsh_decode.rs:45-51 | only the bytes 0 and 1 are truth values |
| BorshJson.StringReads | crates/idl-parser/src/borsh_decode.rs:52-56 | a string is its length in four bytes and then UTF-8, or an error |
| BorshJson.KeyReads | crates/idl-parser/src/borsh_decode.rs:344-356 | a public key is 32 bytes shown in base58 |
| BorshJson.FailsExactly | crates/idl-parser/src/borsh_decode.rs:235-259 | a sequence of types fails with an error iff the first of them that fails does |
| BorshJson.EnumRefuses | crates/idl-parser/src/borsh_decode.rs:307-339 | the errors of an enum: no byte, no such variant, or one of its fields |
| BorshJson.Refuses | crates/idl-parser/src/borsh_decode.rs:262-284 | types, definitions and kinds that are refused whatever the input, with their errors |
| Utf8.ValidExactly | crates/idl-parser/src/borsh_decode.rs:52-56 | bytes are accepted as text iff they are the encoding of Unicode scalar values (section 3 of RFC 3629) |
| BorshViews.JsonDeterminesBytes | crates/idl-parser/src/borsh_decode.rs:226-342 | with distinct names, no option directly inside an option and tags 0 or 1, equal JSON means equal consumed bytes, and conversely |
| BorshAmbiguity.NestedOptionCollides | crates/idl-parser/src/borsh_decode.rs:243-249 | for every type, an option inside an option decodes to null whichever of the two is absent |
| BorshAmbiguity.AnyTagIsPresent | crates/idl-parser/src/borsh_decode.rs:243-249 | for every type, any two non-zero option tags give one result |
| BorshAmbiguity.AmbiguousDecodes | crates/idl-parser/src/borsh_decode.rs:226-342 | two values are alike iff their encodings differ and decode, whatever follows them, to one JSON; a type with alike values is ambiguous |
| BorshAmbiguity.PrimNeverAmbiguous | crates/idl-parser/src/borsh_decode.rs:344-356 | no primitive is ambiguous: in particular the text of a key in base58 determines its 32 bytes |
| BorshAmbiguity.OptAmbiguousWhen | crates/idl-parser/src/borsh_decode.rs:243-249 | an option is ambiguous iff its type is an option or ambiguous |
| BorshAmbiguity.VecAmbiguousWhen | crates/idl-parser/src/borsh_decode.rs:235-242 | a vec is ambiguous iff its element type is |
| BorshAmbiguity.ArrayAmbiguousWhen | crates/idl-parser/src/borsh_decode.rs:250-260 | an array is ambiguous iff it has items and their type is ambiguous |
| BorshAmbiguity.StructAmbiguousWhen | crates/idl-parser/src/borsh_decode.rs:285-306 | a struct is ambiguous iff all its fields have values and some field is of an ambiguous type, or has its name taken by a later field and more than one encoding |
| BorshAmbiguity.EnumAmbiguousWhen | crates/idl-parser/src/borsh_decode.rs:307-339 | an enum is ambiguous iff the fields of a variant are, or two variants of one name can view alike |
| BorshAmbiguity.TextsRenderAsKeys | crates/idl-parser/src/borsh_decode.rs:344-356 | an ambiguous enum: in two variants of one name, a text of 32 ones and the key of 32 zero bytes give one JSON |
| Base58.Injective | crates/idl-parser/src/borsh_decode.rs:353 | byte strings of one length with the same base58 text are equal |
| Base58.Writes | crates/idl-parser/src/borsh_decode.rs:353 | the text of a byte string has a one for every leading zero byte and then no other, and writes the number that the bytes write |
| Base58.Alphabet | crates/idl-parser/src/borsh_decode.rs:353 | the digits are 1 to 9, the capitals but for I and O, and the small letters but for l, in order |
| BorshReading.StructReadWhen | crates/idl-parser/src/borsh_decode.rs:285-305 | the types read from a struct's entries are those described iff every entry has one under that name or is a bare u8 |
| BorshReading.VariantReadWhen | crates/idl-parser/src/borsh_decode.rs:323-336 | those of a variant iff every entry has one under that name or is a bare primitive |
| BorshReading.BareFieldsShareAName | crates/idl-parser/src/borsh_decode.rs:285-305 | bare entries of a struct all have one name, so the object shows the last value only |
| BorshReading.TupleStructMisread | crates/idl-parser/src/borsh_decode.rs:285-305 | a tuple struct of one u16 is decoded from one byte, to another value |
| BorshTermination.TerminatesIffNoCycle | crates/idl-parser/src/borsh_decode.rs:226-342 | decoding, cut off at a recursion depth, ends at some depth for every type and input iff no struct leads back to itself before a byte is read; it then ends with what the decoder returns |
| BorshTermination.GroundedIffNoCycle | crates/idl-parser/src/borsh_decode.rs:226-342 | that is when the rank in the decoder's termination measure exists |
| BorshTermination.CycleEndsNowhere | crates/idl-parser/src/borsh_decode.rs:226-342 | a struct on such a cycle ends on no input |
| BorshTermination.CyclesElsewhere | crates/idl-parser/src/borsh_decode.rs:226-342 | a type that leads to no cycle ends on every input, with what it decodes to without the definitions it does not lead to |
| BorshCursor.DecodeType | crates/idl-parser/src/borsh_decode.rs:226-272 | on every input on which decoding ends, the recursive decoder over the moving cursor returns what decoding on values says and leaves the cursor at its rest, or fails with its error |
| BorshCursor.DecodeDefined | crates/idl-parser/src/borsh_decode.rs:274-342 | the same for structs, enums and the malformed kinds, whose JSON and errors BorshJson writes out |
| BorshCursor.DecodeItems | crates/idl-parser/src/borsh_decode.rs:235-259 | the loop that pushes items in order |
| BorshCursor.DecodeFields | crates/idl-parser/src/borsh_decode.rs:285-306 | the loop that inserts fields by name, later names over earlier ones |
| BorshCursor.DecodePrimitiveAt | crates/idl-parser/src/borsh_decode.rs:344-356 | the primitive reads, with their errors |
| BorshCursor.DecodeCursor.Take | crates/idl-parser/src/borsh_decode.rs:14-21 | takes the next n bytes and moves past them, or fails and stays |
| BorshCursor.DecodeInstructionArgs | crates/idl-parser/src/borsh_decode.rs:69-119 | the first instruction with the discriminator decides the name and the argument types; on every input on which decoding those ends the answer is the arguments by name or their error; trailing bytes are ignored |
| BorshCursor.InstructionRoundTrip | crates/idl-parser/src/borsh_decode.rs:69-119 | with distinct discriminators the arguments of any instruction come back by name, whatever follows them |
| BorshCursor.FindsFirst | crates/idl-parser/src/borsh_decode.rs:80-92 | the first instruction with the discriminator is found, and none iff there is none |
| BorshCursor.AnswersExactly | crates/idl-parser/src/borsh_decode.rs:93-119 | the answer has the instruction's name and an object of exactly its arguments' names, each with the value of the last argument of that name, or is their error |
| Base64.DecodesExactly | crates/solobserve-sdk/src/lib.rs:31-36 | a text decodes to bytes iff it is their unpadded encoding (section 4 of RFC 4648), so only canonical texts are accepted (section 3.5) |
| Base64.EncodesBlocks | crates/solobserve-sdk/src/lib.rs:31-36 | three bytes are four digits that write their 24 bits, and the rest is encoded on its own; two last bytes are three digits and one is two |
| Base64.Alphabet | crates/solobserve-sdk/src/lib.rs:31-36 | the digits are the capitals, the small letters, 0 to 9, plus and slash |
| Sobs.FramesExactly | crates/solobserve-types/src/sobs.rs:91-109 | a frame decodes to a message iff it is that message's frame: other versions, trailing bytes and empty input are rejected |
| Sobs.FrameIs | crates/solobserve-types/src/sobs.rs:44-97 | a frame is the byte 1, the position of the message's kind, and its parts in order, numbers with the least significant byte first and lengths before contents |
| Bytes.LittleEndian | crates/solobserve-types/src/sobs.rs:91-97 | such numbers of 1, 2, 4 and 8 bytes, written out |
| Sobs.EncodeFrame | crates/solobserve-types/src/sobs.rs:92-97 | the buffer built is the frame, and decodes to the message |
| Sobs.LinesExactly | services/decoder/src/main.rs:576-591 | the decoder takes a line for a message iff the line carries its frame, behind any tag and with any white space around |
| Sobs.LineRoundTrip | crates/solobserve-sdk/src/lib.rs:31-36 | the line logged for a message is parsed back to it |
| Sobs.LineIs | crates/solobserve-sdk/src/lib.rs:31-36 | what is logged: the prefix, the tag m, e, s+ or s-, and the Base64 of the frame |
| Sobs.LinesInjective | crates/solobserve-sdk/src/lib.rs:31-36 | distinct messages give distinct lines |
| Spans.PairSpans | services/decoder/src/main.rs:576-679 | the loop over a log pairs span messages as the fold `PairAll` over the messages its lines carry |
| Spans.OpenIsLatest | services/decoder/src/main.rs:647-652 | a number is open iff its latest message is a start, with that start's name and arguments |
| Spans.LinksAreRows | services/decoder/src/main.rs:647-679 | every row is of a start and a later end, with the start's number, name and arguments and the end's result and units, and ok, err, panic or unknown for its status |
| Spans.LinksExactly | services/decoder/src/main.rs:647-679 | a start and an end make a row iff nothing of their number lies between them |
| Spans.PairedOnce | services/decoder/src/main.rs:647-679 | a start makes a row with its first end iff no other start of the number lies between, and with no other end |
| Spans.RightWhen | services/decoder/src/main.rs:647-679 | whoever logged the messages, the rows are those of the spans each SDK opened and ended iff no message of a span's number lies inside it and no end of a span its SDK does not have open meets another's |
| Spans.SpansRightWhen | services/decoder/src/main.rs:647-679 | so for SDKs that end only what they have open, iff no message of a span's number lies inside it |
| Spans.SpansAreRows | crates/solobserve-sdk/src/lib.rs:139-196 | end to end, for the calls of one SDK, up to 2^64 spans: each span started makes a row with its first end, and with no other |
| Spans.TwoCountersCollide | crates/solobserve-sdk/src/lib.rs:192-196 | an instance: with two counters an inner span takes over the outer one's number and the outer is lost |
| Spans.Sdk.SpanStart | crates/solobserve-sdk/src/lib.rs:139-148 | returns the counter, logs the start under it and advances the counter |
| Spans.Sdk.SpanEnd | crates/solobserve-sdk/src/lib.rs:151-159 | logs the end under the number given |
| TokenBucket.WindowBound | crates/solana-rpc-client/src/lib.rs:66-78 | in every run and every window at most capacity + rate times length tokens are taken |
| TokenBucket.PollExactly | crates/solana-rpc-client/src/lib.rs:68-75 | a poll fills the bucket at its rate up to its capacity and takes a token iff there is a whole one |
| TokenBucket.BurstIsServed | crates/solana-rpc-client/src/lib.rs:55-79 | the bound is reached: a full bucket serves its capacity in one instant, and no more |
| TokenBucket.RateLimiter.Acquire | crates/solana-rpc-client/src/lib.rs:66-78 | takes exactly one token, at its last clock reading, after at most 20 sleeps; all sleeps but the last earn less than one token at 50 ms each |
| TokenBucket.RateLimiter.Turn | crates/solana-rpc-client/src/lib.rs:68-75 | one turn leaves the least of the capacity and the tokens plus the rate times the time passed, less one if that is at least one, and then grants |
| LogScan.ScanLog | services/decoder/src/main.rs:496-541 | the loop, with its saturating counter and search backwards, computes the fold `Scan` |
| LogScan.AttributionExact | services/decoder/src/main.rs:496-541 | on a well-nested log the edges are the invocations in preorder, each with the number on its own line, iff no program that reports units is re-entered while open |
| LogScan.EdgesRightWhen | services/decoder/src/main.rs:496-541 | told edge by edge: the k-th edge has the k-th call's callee, its depth or 1 beyond a byte, its number and its predecessor's up to 65535, and its own units or 0 beyond 32 bits, iff no program that reports units is re-entered |
| LogScan.EdgesInPlace | services/decoder/src/main.rs:496-541 | of any log the edges are its invoke lines in order, with those places |
| LogScan.ReentryMisattributes | services/decoder/src/main.rs:528-541 | a program that calls itself: both numbers land on the inner edge |
| ZScore.SamuelsonBound | services/intel/src/main.rs:244-249 | the score of n points satisfies z² ≤ n − 1, with the floor on the deviation |
| ZScore.ReportExactly | services/intel/src/main.rs:241-252 | a series is reported iff it has 30 points and the last is at least two and a half deviations off the mean, as critical from four on, with the point, the mean and a score of the distance's sign |
| ZScore.FailuresAreCritical | services/intel/src/main.rs:241-252 | a minute of failures after 29 to 1440 without any is reported as critical and above the baseline |
| ZScore.SpikeReachesBoundWhen | services/intel/src/main.rs:244-249 | a spike of any height after any number of quiet points has z² = n − 1 iff its deviation is not below the floor |
| ZScore.FailuresReachBound | services/intel/src/main.rs:244-249 | a minute of failures after up to a day of minutes without any reaches the bound, within error rates of 0 to 1 |
| ZScore.ConstantScoresZero | services/intel/src/main.rs:241-252 | a constant series scores 0 and reports nothing |
| RuleState.RunExactly | services/alerter/src/main.rs:723-773 | after any run the rule is ok, pending or firing exactly as the trailing streak of firing evaluations says, and since is the time of the streak's first evaluation, null iff ok |
| RuleState.FiringIsEarned | services/alerter/src/main.rs:740-773 | firing means at least two evaluations in a row up to the latest, one of them at least for_seconds, in milliseconds, after since |
| RuleState.FiresWhenHeld | services/alerter/src/main.rs:740-773 | a streak of firing evaluations fires as soon as one after its first comes its for_seconds after it, in milliseconds |
| Incidents.AlwaysCoherent | services/alerter/src/main.rs:775-836 | any interleaving of evaluations and user actions keeps one incident a rule, open incidents on firing rules, and an incident for each firing rule, open unless a user acted on it |
| Incidents.IncidentsFollowRules | services/alerter/src/main.rs:775-836 | an open incident means its rule fires; without user actions the two are equivalent |
| Incidents.RulesIndependent | services/alerter/src/main.rs:723-773 | neither other rules nor users disturb a rule's own state machine |
| Incidents.StatusExactly | services/alerter/src/main.rs:775-836 | in every run an incident's status and time of resolution are what the last event about it says: opened by its rule's start to fire, resolved by its end if open, acknowledged, resolved or silenced by a user |
| Firings.StartsAtFirstPromotion | services/alerter/src/main.rs:775-795 | over every run an incident's start is the time of its rule's first promotion |
| Firings.StartIsCurrentWhen | services/alerter/src/main.rs:775-795 | an open incident's start is the current firing's iff its rule was promoted once |
| Firings.OneIncidentForAllFirings | services/alerter/src/main.rs:775-795 | all firings of a rule have one incident |
| Incidents.Alerter.ApplyStateMachine | services/alerter/src/main.rs:723-836 | updates the tables as `AfterEval` says, keeps them coherent, and notifies iff the rule has just started to fire and is not silenced |
| Incidents.Alerter.IncidentAction | apps/backend/src/routes/programs.ts:2487-2536 | acknowledges, resolves or silences the incident, or finds none |
| Deliveries.RowsLive | services/alerter/src/main.rs:1078-1182 | in every run of inserts and passes keys are unique and each row is what the passes that took it made of a fresh delivery |
| Deliveries.RowsExactly | services/alerter/src/main.rs:1096-1180 | in every run a row is sent iff the pass that last took it tried it and the send worked, failed iff that pass found its incident closed, nothing to send by, or its fifth send failed, and else queued, due 1, 4, 16 or 64 seconds after its first to fourth failed send |
| Deliveries.TakesExactly | services/alerter/src/main.rs:1078-1129 | a pass takes a row iff it is among the first 200 queued and due, and no earlier one of those is a row without a channel of an open, notified incident |
| Deliveries.KeysStay | crates/solobserve-storage/migrations/20260511191000_alerting_delivery_and_silenced.sql:16-27 | a row once inserted keeps its place and key for ever |
| Deliveries.StalledBehind | services/alerter/src/main.rs:1107-1129 | a due row without a channel, among the first 200, keeps itself and every later row as they are for as long as its incident is open and notified |
| Deliveries.ClosedIncidentFails | services/alerter/src/main.rs:1100-1106 | after a user's action on an incident its due rows fail |
| Deliveries.AttemptRow | services/alerter/src/main.rs:1096-1180 | one row's outcome, and whether reading it is an error |
| Deliveries.DeliveryQueue.ProcessPending | services/alerter/src/main.rs:1078-1182 | a pass attempts the first 200 due rows in order of creation up to the first whose reading is an error, leaves the others alone, and says whether it came to its end |
| Deliveries.QueueAttempts | services/alerter/src/main.rs:1078-1182 | in every run every row is sent or tried at most five times, each backoff apart |
| Deliveries.SettledRowStays | services/alerter/src/main.rs:1084-1090 | a row leaves the queue at most once and then never changes |
| Deliveries.FailsAtFifthAttempt | services/alerter/src/main.rs:1145-1179 | a delivery with a channel that always fails becomes failed exactly at its fifth attempt, at least 85 seconds after the first |
| Deliveries.InsertAllExactly | crates/solobserve-storage/migrations/20260511191000_alerting_delivery_and_silenced.sql:16-27 | inserting rows adds exactly the keys not there yet, keeps the old rows and keeps keys unique |
| Deliveries.DeliveryQueue.Enqueue | services/alerter/src/main.rs:941-960 | inserts a delivery unless its key is there |
| Escalation.SelectRoute | services/alerter/src/main.rs:1262-1299 | a forced route by its id or none; else the first suitable route, or the first of all |
| Escalation.SuitsWhen | services/alerter/src/main.rs:1262-1313 | a route is suitable iff the alert is of its least severity or above and has the texts of its matchers, a missing label having none |
| Escalation.NotifyIncident | services/alerter/src/main.rs:875-978 | the row for the person on call and the loop over channels enqueue what `NotifyAll` says |
| Escalation.NotifyExactly | services/alerter/src/main.rs:875-978 | that inserts exactly one row for the person on call and one a channel that nothing was sent to within the group interval |
| Escalation.AskedRows | services/alerter/src/main.rs:875-978 | the rows asked for, field by field: due after the group's wait, and none for a channel to which something was sent within the group interval, of at least a second |
| Escalation.WindowIs | services/alerter/src/main.rs:879-893 | repeat windows are counted from the epoch, by intervals of at least a second |
| Escalation.NotifyTwiceWhen | services/alerter/src/main.rs:917-958 | notifying again within the repeat window adds nothing iff every channel has its key from before or the first time, or was sent to recently at the second |
| Escalation.EscalationExactly | services/alerter/src/main.rs:1197-1258 | the pass asks for a row iff it is a channel of a step whose wait has passed, of a policy of a route of an open incident |
| Escalation.EscalationRowsAre | services/alerter/src/main.rs:1197-1258 | told field by field: due at once, with the key of incident, channel and index, once the step's seconds have passed since the incident started |
| Escalation.EscalationPass | services/alerter/src/main.rs:1184-1260 | the pass completes iff no due step names an unknown channel whose key is not stored, and then every due step's key is there; every new row is a due step, and a second pass at the same instant adds nothing and ends alike |
| Escalation.DueBeforeStop | services/alerter/src/main.rs:1184-1260 | every step due before the first that fails has its key, and nothing after it is added |
| Escalation.UnknownChannelStops | services/alerter/src/main.rs:1241-1254 | a policy whose first step names an unknown channel keeps its second from being enqueued |
| Escalation.ProcessEscalations | services/alerter/src/main.rs:1184-1260 | the nested loops insert exactly those rows, in their order, up to the first that fails, and say whether they came to their end |
| Escalation.WaitsRunFromFirstFiring | services/alerter/src/main.rs:1184-1260 | in every reachable state the pass asks for exactly the steps whose wait has passed since their rule's first promotion |
| Escalation.WaitsAreCurrentWhen | services/alerter/src/main.rs:1184-1260 | those waits are the current firing's iff the rule was promoted once |
| Escalation.RefiringEscalatesAtOnce | services/alerter/src/main.rs:1184-1260 | a run at whose second firing a step that waits a minute is asked for at once |
| Escalation.EscalatedOnceForAllFirings | services/alerter/src/main.rs:1184-1260 | a channel is escalated to at an index at most once for all firings of a rule |
| Escalation.StepEntersWhen | services/alerter/src/main.rs:1241-1254 | a due step gets a row of its own iff the pass comes to it, its channel is known, and no stored row and no earlier due step has the same incident, channel and index |
| Escalation.NotificationTakesStepKeyWhen | services/alerter/src/main.rs:1324-1328 | a notification has the key of a step iff incident and channel agree and its repeat window is the step's index |
| Escalation.AcceptedIntervalsKeepApart | apps/backend/src/routes/org-settings.ts:58-63 | with an interval that the settings accept this needs a policy of more than 1,322 steps |
| Backfill.BackfillWindow | services/ingestor/src/main.rs:322-353 | the paged loop ingests, in order and each once, the longest prefix of the history without an entry known to be older than the cutoff, up to the first failure; it succeeds iff it ingests all of it; it terminates for any history |
| Backfill.IngestPage | services/ingestor/src/main.rs:340-347 | one page stops at the first old entry or failure |
| Backfill.RecentIsLongestPrefix | services/ingestor/src/main.rs:340-345 | that prefix has no old entry and is followed by one, or is everything |
| Backfill.Poller.PollLogsLike | crates/solana-rpc-client/src/lib.rs:374-400 | a poll emits the rows not among the last 10,000 emitted |
| Backfill.RepeatsFarApart | crates/solana-rpc-client/src/lib.rs:383-397 | a signature is emitted again only after more than 10,000 emissions |
| Backfill.EmittedUnlessRecent | crates/solana-rpc-client/src/lib.rs:383-397 | a polled signature is emitted iff it is not among the last 10,000 |
| Backfill.PolledIsEmitted | crates/solana-rpc-client/src/lib.rs:383-397 | nothing polled is lost, and nothing else is emitted |
| Pending.Worker.Ingest | services/ingestor/src/main.rs:225-254 | a signature enters the map once it was published and recorded |
| Pending.Worker.Settle | services/ingestor/src/main.rs:452-512 | one signature: published as confirmed at the later of its two slots if confirmed or finalized, else rolled back if more than 32 slots old, else left; a fault ends the worker |
| Pending.Worker.PromoteOrRollback | services/ingestor/src/main.rs:440-517 | after a pass without faults, for every key exactly that event was added and no other, and what did not end is pending as before |
| Pending.EntriesConserved | services/ingestor/src/main.rs:440-517 | over every legal log, entries into the map are promotions plus rollbacks plus what is pending |
| Pending.OneFate | services/ingestor/src/main.rs:440-517 | a signature tracked once is pending with its slot, promoted once at its slot or later, or rolled back once more than 32 slots after it, never two of these |
| Readers.RunTxLoop | services/decoder/src/main.rs:382-406 | the consumer's loop routes deliveries as the fold `RouteAll` |
| Readers.TablesExactly | services/decoder/src/main.rs:382-406 | the tables hold exactly what was stored, in any order and under redelivery |
| Readers.ProgramQueryExact | apps/backend/src/routes/programs.ts:1745 | with one worker a registration (services/ingestor/src/main.rs, 104 to 166), per-program queries hide exactly the signatures that some worker of the program rolled back |
| Readers.ProgramQueryRightWhen | services/ingestor/src/main.rs:104-166 | so for a registration that saw a signature they are right iff it rolled the signature back itself or no other registration of the program did |
| Readers.RollbackHidesAcrossRegistrations | services/ingestor/src/main.rs:104-166 | two legal logs of one program registered twice under which what the first worker promoted is hidden |
| Readers.RawStreamExact | apps/backend/src/routes/programs.ts:1432-1433 | the raw stream hides what any worker of any program rolled back |
| Readers.RawStreamRightWhen | apps/backend/src/routes/programs.ts:1432-1433 | so for a registration it is right iff it rolled the signature back itself or no other did |
| Readers.RollbackHidesAcrossPrograms | apps/backend/src/routes/programs.ts:1432-1433 | two legal logs under which the raw stream hides a promoted signature |
| Readers.ShownWhilePendingOrPromoted | apps/backend/src/routes/programs.ts:2185 | end to end: a signature that a registration tracked once is shown exactly while it is pending or after it was promoted, iff that registration rolled it back or no other registration of the program did |
| SchemaCache.CacheCoherent | crates/schema-registry/src/lib.rs:64-98 | from the first refresh on, after any interleaving of registrations, uploads and deliveries, every program with no notification under way is cached as stored |
| SchemaCache.AddressesHaveNoSpace | apps/backend/src/routes/programs.ts:312-319 | trimming a notification changes no address that registration accepts |
| SchemaCache.SchemaRegistry.Listen | crates/schema-registry/src/lib.rs:140-153 | a notification refreshes the program it names, trimmed, or everything when it is empty |
| SchemaCache.RefreshesNamed | crates/schema-registry/src/lib.rs:140-153 | so the named program is as stored and every other as before, or with an empty notification all are as stored |
| SchemaCache.SchemaRegistry.ResolveForSlot | crates/schema-registry/src/lib.rs:100-121 | the loop returns the last version created by the block time, else the oldest; the newest without a time |
| SchemaCache.StoredExactly | crates/schema-registry/src/lib.rs:64-98 | a program's stored versions are those of all its rows, with their contents and times, by version |
| SchemaCache.NewestWithoutTime | services/decoder/src/main.rs:1170 | without a block time a program resolves to one of its highest version, and to none iff it has no row |
| SchemaCache.UploadsCountUp | apps/backend/src/routes/programs.ts:620-648 | an upload adds one row with the number after the highest of its registration, 1 as the first, and notifies the program |
| SchemaCache.ResolutionMonotone | crates/schema-registry/src/lib.rs:100-121 | a later block time never resolves to an earlier version, whatever the creation times |
| SchemaCache.OnceRegisteredResolvesLatest | apps/backend/src/routes/programs.ts:620-648 | for a program registered once, uploads under one clock keep times in the order of versions, so resolution returns the latest version not after the block time |
| SchemaCache.ResolvesNewestWhen | crates/schema-registry/src/lib.rs:112-120 | resolution returns a newest version by every block time iff the first stored is an oldest and any version newer than a later one has an equally new one behind that |
| SchemaCache.DistinctTimesResolveWhen | crates/schema-registry/src/lib.rs:112-120 | with distinct creation times: iff they follow the stored order |
| SchemaCache.RunsResolveNewestWhen | apps/backend/src/routes/programs.ts:620-648 | over every run under one clock of whole seconds: iff at the end of every second with an upload one of that second has the highest version so far, and an oldest upload has the lowest |
| SchemaCache.OneASecond | apps/backend/src/routes/programs.ts:620-648 | with no two uploads in one second: iff none for the program got a lower version than one it already had |
| SchemaCache.TwoRegistrationsResolveOld | apps/backend/src/routes/programs.ts:363-384 | a run of two registrations after which the newest upload loses to an older one |

## Left out

- DslTheorem.ReadsAsWrittenWhen: sufficient for the meaning; the exact condition in a database is proved for one metric on both sides of an operator, for nested tops and bottoms and for two event types, not for other conflicts.
- DslTheorem.CompilePreservesMeaning: takes databases in which the dropped ranges leave nothing out; that this is needed is proved for event selectors and, over all databases, for quantiles.
- DslScoping.QueriesAreScoped: stored tables are taken to have the columns asked of them, since their schemas are not part of this model.
- DslQueries.DigestCorrect: merging digests is an uninterpreted function of the level and the states of a group, in row order.
- BorshCursor.DecodeType: the depth at which decoding ends on the input is a ghost parameter; which types end on every input is said by BorshTermination.
- Sobs.EncodeFrame: the cut of a short string to 64 bytes is left out, and so are messages whose lengths do not fit 32 bits.
- Spans.PairSpans: the decoder's rows for metrics and events, and the slot and time columns, equal for all spans of one transaction.
- Backfill.BackfillWindow: the history does not change during the walk; the retries and endpoint choice under each request are left out.
- Pending.Worker.PromoteOrRollback: each publication and record is one step; a worker that failed is not restarted.
- Readers.RunTxLoop: tables are sets of keys, and the cluster column is left out.
- RuleState.RunExactly: of the rule-state upsert without its cast to a text array.
- Incidents.Alerter.ApplyStateMachine: each evaluation is one step, with the upsert as above; event rows and summaries are left out.
- Deliveries.DeliveryQueue.ProcessPending: whether a row's channel is configured, its incident was notified and the send succeeds are parameters; of the two errors that a row without a channel can raise the model keeps one.
- Escalation.NotifyIncident: who is on call is a parameter, and so are the channels that still exist.
- SchemaCache.CacheCoherent: refreshes succeed and notifications are not lost; the gap between the first refresh and the subscription is left out; that an address decodes to 32 bytes is not used.
- TokenBucket.RateLimiter.Acquire: clock readings are parameters, and a sleep lasts at least 50 ms.
- ZScore.SamuelsonBound: exact arithmetic; the square root is a parameter with its defining property.
- Float rounding everywhere; numbers are reals, and a division by zero in SQL is an uninterpreted value.
- The text of the generated SQL and the behaviour of the database: rows come in the order of their first occurrence and ties keep it; regular expressions and JSON extraction are uninterpreted.
- The metrics language's text parser: its grammar is not part of this model, which starts from the tree.
- Registered metrics whose table is a sub-select: the sub-select goes by the metric's name.
- The reading of an interface description into types, but for field entries; and the event and account decoders, which share the shape of the instruction decoder.
- The parent column of call edges, which is only the invocation logged before, is modelled but nothing is claimed of it.
- Hashes are taken to be injective; UTF-8 validity follows the byte patterns of section 4 of RFC 3629.
- Sandwich detection, websockets, endpoint health, the other alert evaluators, silences' matching, user interface, accounts, replay and storage set-up: members without a harder property.
