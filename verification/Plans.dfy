/** Query plans, the database they read, and the rows they denote. */
module Plans {
  import opened Values
  import opened Expressions
  import opened Aggregates
  import opened HashUtil

  datatype Column = Column(name: string, ty: TypeId)
  type Schema = seq<Column>

  datatype JoinType = Inner | Left | Right | Outer
  datatype OrderType = InvalidOrder | DefaultOrder | Asc | Desc
  datatype OrderBy = OrderBy(dir: OrderType, expr: Expr)

  datatype Op =
    | SeqScan(tableOid: nat, tableName: string, filter: Option<Expr>)
    | MockScan(table: string)
    | IndexScan(indexOid: nat)
    | ValuesList(tuples: seq<seq<Expr>>)
    | Filter(pred: Expr)
    | Projection(exprs: seq<Expr>)
    | Nlj(pred: Expr, joinType: JoinType)
    | IndexJoin(key: Expr, innerOid: nat, indexOid: nat, indexName: string, indexTable: string,
                innerSchema: Schema, joinType: JoinType)
    | HashJoin(leftKey: Expr, rightKey: Expr, joinType: JoinType)
    | Aggregation(groupBys: seq<Expr>, aggs: seq<Expr>, aggTypes: seq<AggType>)
    | Sort(orderBys: seq<OrderBy>)
    | Limit(limit: nat)
    | TopN(orderBys: seq<OrderBy>, limit: nat)

  /** Every node has its own output schema, which need not be its children's. */
  datatype Plan = Plan(op: Op, schema: Schema, children: seq<Plan>)

  // ---- database ----

  datatype Table = Table(name: string, schema: Schema, rows: seq<Row>)
  datatype Entry = Entry(key: seq<Value>, rid: nat)
  /** `entries` are in index order; `rid` is a position in the table named by `tableName`. */
  datatype Index = Index(name: string, tableName: string, keyAttrs: seq<nat>, keySchema: Schema, entries: seq<Entry>)
  datatype Db = Db(tables: map<nat, Table>, tableNames: map<string, nat>, indexes: map<nat, Index>,
                   tableIndexes: map<string, seq<nat>>, mock: map<string, seq<Row>>)

  function Types(s: Schema): seq<TypeId> {
    seq(|s|, i requires 0 <= i < |s| => s[i].ty)
  }

  function RowAt(t: Table, rid: nat): Row {
    if rid < |t.rows| then t.rows[rid] else []
  }

  /** All rows an index reaches, in index order. */
  function EntryRows(t: Table, entries: seq<Entry>): (rows: seq<Row>)
    ensures |rows| == |entries|
    ensures forall i :: 0 <= i < |rows| ==> rows[i] == RowAt(t, entries[i].rid)
  {
    seq(|entries|, i requires 0 <= i < |entries| => RowAt(t, entries[i].rid))
  }

  // ---- joins (section 7.5 of ISO/IEC 9075:1992) ----

  function Pad(types: seq<TypeId>): Row {
    seq(|types|, i requires 0 <= i < |types| => Null(types[i]))
  }

  function Paste(l: Row, rs: seq<Row>): (out: seq<Row>)
    ensures |out| == |rs|
  {
    seq(|rs|, i requires 0 <= i < |rs| => l + rs[i])
  }

  /** One left row with its matches; a LEFT join keeps a matchless row, padded with nulls. */
  function JoinOne(jt: JoinType, l: Row, matches: seq<Row>, pad: Row): seq<Row> {
    if matches == [] && jt == Left then [l + pad] else Paste(l, matches)
  }

  function JoinRows(jt: JoinType, ls: seq<Row>, matches: seq<seq<Row>>, pad: Row): seq<Row>
    requires |ls| == |matches|
  {
    if ls == [] then [] else JoinOne(jt, ls[0], matches[0], pad) + JoinRows(jt, ls[1..], matches[1..], pad)
  }

  function NljMatches(pred: Expr, l: Row, rs: seq<Row>): seq<Row> {
    if rs == [] then []
    else (if Passes(EvalJoin(pred, l, rs[0])) then [rs[0]] else []) + NljMatches(pred, l, rs[1..])
  }

  /** Rows of the right input in the left key's hash bucket whose key compares equal. */
  function HashMatches(leftKey: Value, rightKey: Expr, rs: seq<Row>): seq<Row> {
    if rs == [] then []
    else
      var k := Eval(rightKey, rs[0]);
      (if HashValue(k) == HashValue(leftKey) && CompareEquals(leftKey, k) == CmpTrue then [rs[0]] else [])
      + HashMatches(leftKey, rightKey, rs[1..])
  }

  function Probe(t: Table, entries: seq<Entry>, key: Value): seq<Row> {
    if entries == [] then []
    else
      var e := entries[0];
      (if |e.key| == 1 && CompareEquals(key, e.key[0]) == CmpTrue then [RowAt(t, e.rid)] else [])
      + Probe(t, entries[1..], key)
  }

  // ---- sorting ----

  /** Lexicographic comparison of two rows under an ORDER BY list. */
  function CompareRows(obs: seq<OrderBy>, a: Row, b: Row): int {
    if obs == [] then 0
    else
      var c := Compare(Eval(obs[0].expr, a), Eval(obs[0].expr, b));
      if c != 0 then (if obs[0].dir == Desc then -c else c) else CompareRows(obs[1..], a, b)
  }

  function InsertRow(obs: seq<OrderBy>, r: Row, sorted: seq<Row>): seq<Row> {
    if sorted == [] || CompareRows(obs, r, sorted[0]) <= 0 then [r] + sorted
    else [sorted[0]] + InsertRow(obs, r, sorted[1..])
  }

  function SortRows(obs: seq<OrderBy>, rows: seq<Row>): seq<Row> {
    if rows == [] then [] else InsertRow(obs, rows[0], SortRows(obs, rows[1..]))
  }

  // ---- denotation ----

  function Keep(pred: Expr, r: Row): seq<Row> {
    if Passes(Eval(pred, r)) then [r] else []
  }

  function FilterRows(pred: Expr, rows: seq<Row>): seq<Row> {
    if rows == [] then [] else Keep(pred, rows[0]) + FilterRows(pred, rows[1..])
  }

  function MapRows(exprs: seq<Expr>, rows: seq<Row>): (out: seq<Row>)
    ensures |out| == |rows|
    ensures forall i :: 0 <= i < |rows| ==> out[i] == EvalRow(exprs, rows[i])
  {
    seq(|rows|, i requires 0 <= i < |rows| => EvalRow(exprs, rows[i]))
  }

  function ValueRows(tuples: seq<seq<Expr>>): seq<Row> {
    seq(|tuples|, i requires 0 <= i < |tuples| => EvalRow(tuples[i], []))
  }

  function Take(n: nat, rows: seq<Row>): seq<Row> {
    if n < |rows| then rows[..n] else rows
  }

  /** What a parent sees of a child: the types of its columns and its rows in order. */
  datatype Meaning = Meaning(types: seq<TypeId>, rows: seq<Row>)

  function Arity(op: Op): nat {
    match op
    case SeqScan(_, _, _) => 0
    case MockScan(_) => 0
    case IndexScan(_) => 0
    case ValuesList(_) => 0
    case Nlj(_, _) => 2
    case HashJoin(_, _, _) => 2
    case _ => 1
  }

  function NljRows(pred: Expr, jt: JoinType, ls: seq<Row>, right: Meaning): seq<Row> {
    JoinRows(jt, ls, seq(|ls|, i requires 0 <= i < |ls| => NljMatches(pred, ls[i], right.rows)), Pad(right.types))
  }

  function HashRows(lk: Expr, rk: Expr, jt: JoinType, ls: seq<Row>, right: Meaning): seq<Row> {
    JoinRows(jt, ls, seq(|ls|, i requires 0 <= i < |ls| => HashMatches(Eval(lk, ls[i]), rk, right.rows)),
             Pad(right.types))
  }

  function IndexRows(db: Db, op: Op, ls: seq<Row>): seq<Row>
    requires op.IndexJoin?
  {
    if op.innerOid in db.tables && op.indexOid in db.indexes then
      var t, ix := db.tables[op.innerOid], db.indexes[op.indexOid];
      JoinRows(op.joinType, ls, seq(|ls|, i requires 0 <= i < |ls| => Probe(t, ix.entries, Eval(op.key, ls[i]))),
               Pad(Types(op.innerSchema)))
    else []
  }

  function ScanRows(db: Db, oid: nat, filter: Option<Expr>): seq<Row> {
    if oid !in db.tables then []
    else if filter.None? then db.tables[oid].rows
    else FilterRows(filter.value, db.tables[oid].rows)
  }

  function IndexScanRows(db: Db, indexOid: nat): seq<Row> {
    if indexOid in db.indexes && db.indexes[indexOid].tableName in db.tableNames
       && db.tableNames[db.indexes[indexOid].tableName] in db.tables
    then EntryRows(db.tables[db.tableNames[db.indexes[indexOid].tableName]], db.indexes[indexOid].entries)
    else []
  }

  /** The rows of one operator from what its inputs mean. */
  function Sem(db: Db, op: Op, ins: seq<Meaning>): seq<Row> {
    if |ins| != Arity(op) then []
    else match op
      case SeqScan(oid, _, f) => ScanRows(db, oid, f)
      case MockScan(t) => if t in db.mock then db.mock[t] else []
      case IndexScan(ix) => IndexScanRows(db, ix)
      case ValuesList(ts) => ValueRows(ts)
      case Filter(p) => FilterRows(p, ins[0].rows)
      case Projection(es) => MapRows(es, ins[0].rows)
      case Nlj(p, jt) => NljRows(p, jt, ins[0].rows, ins[1])
      case IndexJoin(_, _, _, _, _, _, _) => IndexRows(db, op, ins[0].rows)
      case HashJoin(lk, rk, jt) => HashRows(lk, rk, jt, ins[0].rows, ins[1])
      case Aggregation(gs, es, ts) => if |es| == |ts| then AggRows(gs, es, ts, ins[0].rows) else []
      case Sort(obs) => SortRows(obs, ins[0].rows)
      case Limit(n) => Take(n, ins[0].rows)
      case TopN(obs, n) => Take(n, SortRows(obs, ins[0].rows))
  }

  function Denote(db: Db, p: Plan): Meaning
    decreases p, 1
  {
    Meaning(Types(p.schema), Sem(db, p.op, DenoteAll(db, p.children)))
  }

  function DenoteAll(db: Db, ps: seq<Plan>): (ms: seq<Meaning>)
    ensures |ms| == |ps|
    ensures forall i :: 0 <= i < |ps| ==> ms[i] == Denote(db, ps[i])
    decreases ps, 0
  {
    seq(|ps|, i requires 0 <= i < |ps| => Denote(db, ps[i]))
  }

  // ---- well-formedness ----

  /** Widths a planner always gives an operator; joins other than INNER and LEFT are rejected by the executors. */
  predicate NodeOk(db: Db, op: Op, width: nat, ws: seq<nat>) {
    |ws| == Arity(op) &&
    match op
    case SeqScan(oid, name, _) => oid in db.tables && db.tables[oid].name == name && width == |db.tables[oid].schema|
    case MockScan(t) => t in db.mock ==> forall r :: r in db.mock[t] ==> |r| == width
    case IndexScan(ix) => ix in db.indexes && db.indexes[ix].tableName in db.tableNames
                          && db.tableNames[db.indexes[ix].tableName] in db.tables
                          && width == |db.tables[db.tableNames[db.indexes[ix].tableName]].schema|
    case ValuesList(ts) => forall t :: t in ts ==> |t| == width
    case Projection(es) => width == |es|
    case Nlj(_, jt) => width == ws[0] + ws[1] && (jt == Inner || jt == Left)
    case HashJoin(_, _, jt) => width == ws[0] + ws[1] && (jt == Inner || jt == Left)
    case IndexJoin(_, oid, ix, _, _, s, jt) =>
      width == ws[0] + |s| && (jt == Inner || jt == Left)
      && ix in db.indexes && oid in db.tables && |s| == |db.tables[oid].schema|
      && db.indexes[ix].tableName == db.tables[oid].name
    case Aggregation(gs, es, ts) => width == |gs| + |es| && |es| == |ts|
    case _ => width == ws[0]
  }

  function Widths(ps: seq<Plan>): (ws: seq<nat>) {
    seq(|ps|, i requires 0 <= i < |ps| => |ps[i].schema|)
  }

  predicate WellFormed(db: Db, p: Plan) {
    NodeOk(db, p.op, |p.schema|, Widths(p.children)) && forall c :: c in p.children ==> WellFormed(db, c)
  }

  // ---- indexes that agree with their table ----

  function KeyOf(row: Row, attrs: seq<nat>): seq<Value> {
    seq(|attrs|, i requires 0 <= i < |attrs| => At(row, attrs[i]))
  }

  function Rids(entries: seq<Entry>): (rs: seq<nat>)
    ensures |rs| == |entries|
    ensures forall i :: 0 <= i < |rs| ==> rs[i] == entries[i].rid
  {
    seq(|entries|, i requires 0 <= i < |entries| => entries[i].rid)
  }

  function Range(n: nat): (rs: seq<nat>)
    ensures |rs| == n
    ensures forall i :: 0 <= i < n ==> rs[i] == i
  {
    seq(n, i requires 0 <= i < n => i)
  }

  /** Single-column keys strictly ascend: one row per key, in key order. */
  predicate Ascending(entries: seq<Entry>) {
    forall i, j :: 0 <= i < j < |entries| && |entries[i].key| == 1 && |entries[j].key| == 1 ==>
      Compare(entries[i].key[0], entries[j].key[0]) < 0
  }

  /** Every row of the table is indexed exactly once, under its own key, in key order. */
  predicate IndexAgrees(ix: Index, t: Table) {
    && multiset(Rids(ix.entries)) == multiset(Range(|t.rows|))
    && (forall e :: e in ix.entries ==> e.key == KeyOf(RowAt(t, e.rid), ix.keyAttrs))
    && Ascending(ix.entries)
  }

  predicate TableOk(db: Db, oid: nat)
    requires oid in db.tables
  {
    var t := db.tables[oid];
    && t.name in db.tableNames && db.tableNames[t.name] == oid
    && forall r :: r in t.rows ==> |r| == |t.schema|
  }

  predicate IndexOk(db: Db, ix: nat)
    requires ix in db.indexes
  {
    var name := db.indexes[ix].tableName;
    name in db.tableNames && db.tableNames[name] in db.tables ==>
      IndexAgrees(db.indexes[ix], db.tables[db.tableNames[name]])
  }

  /** The catalog's maps are consistent, rows have their table's width, and indexes agree with their tables. */
  predicate DbOk(db: Db) {
    && (forall n :: n in db.tableNames ==> db.tableNames[n] in db.tables)
    && (forall oid :: oid in db.tables ==> TableOk(db, oid))
    && (forall ix :: ix in db.indexes ==> IndexOk(db, ix))
    && (forall n, ix :: n in db.tableIndexes && ix in db.tableIndexes[n] ==>
          ix in db.indexes && db.indexes[ix].tableName == n)
  }
}
