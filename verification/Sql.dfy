/**
The fragment of SQL that the metrics language compiles to, and its evaluation.  A result is a
sequence of rows; groups come in the order of their first row and sorting is stable, which fixes
the choices that a database is free to make.
*/
module Sql {
  import opened Lists

  datatype Option<T> = None | Some(value: T)

  datatype Value = Null | Time(secs: int) | Int(i: int) | Num(num: real) | Str(text: string)

  type Row = map<string, Value>

  /** The names of query parameters; each stands for its text, `Label(3)` for label_3. */
  datatype ParamName =
    | ProgramId | Cluster | FromS | ToS | StepMs | StepS | RangeS | K | Q | EventType
    | Label(i: nat) | EventLabel(i: nat) | TdLabel(i: nat)

  type Params = map<ParamName, Value>

  /** The stored tables, and the functions of the database that are left uninterpreted. */
  datatype World = World(tables: map<string, seq<Row>>,
                         matches: (string, string) -> bool,
                         extract: (string, string) -> string,
                         quantile: (real, seq<Value>) -> real,
                         overZero: real -> real)

  datatype ArithOp = Add | Sub | Mul | Div

  datatype Scalar =
    | Col(name: string)
    | ParamRef(param: ParamName)
    | Literal(num: real)
    | StartOfMinute(e: Scalar)
    | JsonString(e: Scalar, key: string)
    | ToDateTime(e: Scalar)
    | Greatest(a: Scalar, b: Scalar)
    | Arith(op: ArithOp, a: Scalar, b: Scalar)

  datatype Cond =
    | Equal(a: Scalar, b: Scalar)
    | NotEqual(a: Scalar, b: Scalar)
    | Match(a: Scalar, pattern: Scalar)
    | NotMatch(a: Scalar, pattern: Scalar)
    | AtLeast(a: Scalar, b: Scalar)
    | AtMost(a: Scalar, b: Scalar)

  datatype Agg =
    | SumOf(col: string) | AvgOf(col: string) | MinOf(col: string) | MaxOf(col: string)
    | CountOf(col: string) | CountRows | CountMerge(col: string) | SumMerge(col: string)
    | QuantileMerge(level: ParamName, col: string)

  datatype Item = Plain(e: Scalar) | Aggregate(a: Agg)

  datatype Column = Column(name: string, item: Item)

  datatype Source = Table(table: string) | SubQuery(q: Query) | Join(left: Query, right: Query, on: string) | NoTable

  /** `SingleGroup`: aggregates without GROUP BY make one row, of an empty source too. */
  datatype Grouping = Ungrouped | GroupBy(cols: seq<string>) | SingleGroup

  datatype Order = AnyOrder | OrderBy(col: string, desc: bool)

  datatype Query = Query(columns: seq<Column>, source: Source, conds: seq<Cond>, grouping: Grouping,
                         order: Order, limit: Option<ParamName>)

  // ----- scalars -----

  function Get(row: Row, c: string): Value { if c in row then row[c] else Null }

  function GetParam(P: Params, n: ParamName): Value { if n in P then P[n] else Null }

  function Minute(v: Value): Value { if v.Time? then Time(v.secs - v.secs % 60) else Null }

  function Max(x: real, y: real): real { if x >= y then x else y }

  function ArithNum(op: ArithOp, x: real, y: real, w: World): real {
    match op
    case Add => x + y
    case Sub => x - y
    case Mul => x * y
    case Div => if y == 0.0 then w.overZero(x) else x / y
  }

  function ArithValue(op: ArithOp, a: Value, b: Value, w: World): Value {
    match (a, b)
    case (Num(x), Num(y)) => Num(ArithNum(op, x, y, w))
    case (Int(i), Int(j)) => if op.Sub? then Int(i - j) else Null
    case _ => Null
  }

  function GreatestValue(a: Value, b: Value): Value {
    match (a, b)
    case (Num(x), Num(y)) => Num(Max(x, y))
    case (Int(i), Int(j)) => Int(if i >= j then i else j)
    case _ => Null
  }

  function EvalScalar(e: Scalar, row: Row, P: Params, w: World): Value {
    match e
    case Col(n) => Get(row, n)
    case ParamRef(p) => GetParam(P, p)
    case Literal(x) => Num(x)
    case StartOfMinute(a) => Minute(EvalScalar(a, row, P, w))
    case JsonString(a, key) =>
      var v := EvalScalar(a, row, P, w);
      if v.Str? then Str(w.extract(v.text, key)) else Null
    case ToDateTime(a) =>
      var v := EvalScalar(a, row, P, w);
      if v.Int? then Time(v.i) else Null
    case Greatest(a, b) => GreatestValue(EvalScalar(a, row, P, w), EvalScalar(b, row, P, w))
    case Arith(op, a, b) => ArithValue(op, EvalScalar(a, row, P, w), EvalScalar(b, row, P, w), w)
  }

  predicate Matching(v: Value, pattern: Value, w: World) {
    v.Str? && pattern.Str? && w.matches(v.text, pattern.text)
  }

  predicate NotEarlier(a: Value, b: Value) {
    a.Time? && b.Time? && a.secs >= b.secs
  }

  predicate Holds(c: Cond, row: Row, P: Params, w: World) {
    match c
    case Equal(a, b) => EvalScalar(a, row, P, w) == EvalScalar(b, row, P, w)
    case NotEqual(a, b) => EvalScalar(a, row, P, w) != EvalScalar(b, row, P, w)
    case Match(a, p) => Matching(EvalScalar(a, row, P, w), EvalScalar(p, row, P, w), w)
    case NotMatch(a, p) => !Matching(EvalScalar(a, row, P, w), EvalScalar(p, row, P, w), w)
    case AtLeast(a, b) => NotEarlier(EvalScalar(a, row, P, w), EvalScalar(b, row, P, w))
    case AtMost(a, b) => NotEarlier(EvalScalar(b, row, P, w), EvalScalar(a, row, P, w))
  }

  predicate AllHold(cs: seq<Cond>, row: Row, P: Params, w: World) {
    cs == [] || (Holds(cs[0], row, P, w) && AllHold(cs[1..], row, P, w))
  }

  // ----- aggregates -----

  function NumOf(v: Value): real { if v.Num? then v.num else 0.0 }

  function CellOf(c: string): Row -> Value { row => Get(row, c) }

  function NumCell(c: string): Row -> real { row => NumOf(Get(row, c)) }

  function Sum(xs: seq<real>): real { if xs == [] then 0.0 else xs[0] + Sum(xs[1..]) }

  function Average(xs: seq<real>): real { if xs == [] then 0.0 else Sum(xs) / |xs| as real }

  function Least(xs: seq<real>): real {
    if xs == [] then 0.0 else if |xs| == 1 then xs[0]
    else var m := Least(xs[1..]); if xs[0] <= m then xs[0] else m
  }

  function Largest(xs: seq<real>): real {
    if xs == [] then 0.0 else if |xs| == 1 then xs[0]
    else var m := Largest(xs[1..]); if xs[0] >= m then xs[0] else m
  }

  function EvalAgg(a: Agg, rows: seq<Row>, P: Params, w: World): Value {
    match a
    case SumOf(c) => Num(Sum(Map(rows, NumCell(c))))
    case AvgOf(c) => Num(Average(Map(rows, NumCell(c))))
    case MinOf(c) => Num(Least(Map(rows, NumCell(c))))
    case MaxOf(c) => Num(Largest(Map(rows, NumCell(c))))
    case CountOf(c) => Num(|rows| as real)
    case CountRows => Num(|rows| as real)
    case CountMerge(c) => Num(Sum(Map(rows, NumCell(c))))
    case SumMerge(c) => Num(Sum(Map(rows, NumCell(c))))
    case QuantileMerge(level, c) => Num(w.quantile(NumOf(GetParam(P, level)), Map(rows, CellOf(c))))
  }

  // ----- queries -----

  function Names(columns: seq<Column>): set<string> { set c | c in columns :: c.name }

  function Find(columns: seq<Column>, n: string): Item {
    if columns == [] then Plain(Literal(0.0))
    else if columns[0].name == n then columns[0].item
    else Find(columns[1..], n)
  }

  function Keeps(cs: seq<Cond>, P: Params, w: World): Row -> bool { row => AllHold(cs, row, P, w) }

  function Project(columns: seq<Column>, row: Row, P: Params, w: World): Row {
    map n | n in Names(columns) ::
      match Find(columns, n) case Plain(e) => EvalScalar(e, row, P, w) case Aggregate(_) => Null
  }

  function Projects(columns: seq<Column>, P: Params, w: World): Row -> Row {
    row => Project(columns, row, P, w)
  }

  /** The grouping columns are outputs of the select list. */
  function KeyOf(columns: seq<Column>, cols: seq<string>, row: Row, P: Params, w: World): Row {
    map n | n in cols ::
      match Find(columns, n) case Plain(e) => EvalScalar(e, row, P, w) case Aggregate(_) => Null
  }

  function KeyedBy(columns: seq<Column>, cols: seq<string>, P: Params, w: World): Row -> Row {
    row => KeyOf(columns, cols, row, P, w)
  }

  function Summary(columns: seq<Column>, g: Group<Row, Row>, P: Params, w: World): Row {
    map n | n in Names(columns) ::
      match Find(columns, n) case Plain(_) => Get(g.key, n) case Aggregate(a) => EvalAgg(a, g.members, P, w)
  }

  function Summarizes(columns: seq<Column>, P: Params, w: World): Group<Row, Row> -> Row {
    (g: Group<Row, Row>) => Summary(columns, g, P, w)
  }

  predicate ValueBefore(a: Value, b: Value) {
    match (a, b)
    case (Time(x), Time(y)) => x < y
    case (Num(x), Num(y)) => x < y
    case (Int(x), Int(y)) => x < y
    case _ => false
  }

  function Precedes(c: string, desc: bool): (Row, Row) -> bool {
    (a: Row, b: Row) => if desc then ValueBefore(Get(b, c), Get(a, c)) else ValueBefore(Get(a, c), Get(b, c))
  }

  function Qualified(prefix: string, row: Row): Row {
    map k | k in (set c | c in row :: prefix + c) :: Get(row, k[|prefix|..])
  }

  function Paired(l: Row): Row -> Row { (r: Row) => Qualified("l.", l) + Qualified("r.", r) }

  function SameOn(l: Row, on: string): Row -> bool { (r: Row) => Get(l, on) == Get(r, on) }

  function JoinsWith(rs: seq<Row>, on: string): Row -> seq<Row> {
    (l: Row) => Map(Filter(rs, SameOn(l, on)), Paired(l))
  }

  function Limit(P: Params, n: ParamName): nat {
    var v := GetParam(P, n);
    if v.Int? && v.i >= 0 then v.i else 0
  }

  function Rows(s: Source, P: Params, w: World): seq<Row>
    decreases s
  {
    match s
    case Table(t) => if t in w.tables then w.tables[t] else []
    case SubQuery(q) => Evaluate(q, P, w)
    case Join(l, r, on) => Flatten(Map(Evaluate(l, P, w), JoinsWith(Evaluate(r, P, w), on)))
    case NoTable => [map[]]
  }

  function Grouped(q: Query, rows: seq<Row>, P: Params, w: World): seq<Row> {
    match q.grouping
    case Ungrouped => Map(rows, Projects(q.columns, P, w))
    case GroupBy(cols) => Map(Groups(rows, KeyedBy(q.columns, cols, P, w)), Summarizes(q.columns, P, w))
    case SingleGroup => [Summary(q.columns, Group(map[], rows), P, w)]
  }

  function Ordered(order: Order, rows: seq<Row>): seq<Row> {
    match order
    case AnyOrder => rows
    case OrderBy(c, desc) => Sort(rows, Precedes(c, desc))
  }

  function Evaluate(q: Query, P: Params, w: World): seq<Row>
    decreases q
  {
    var kept := Filter(Rows(q.source, P, w), Keeps(q.conds, P, w));
    var ordered := Ordered(q.order, Grouped(q, kept, P, w));
    if q.limit.Some? then Take(ordered, Limit(P, q.limit.value)) else ordered
  }
}
