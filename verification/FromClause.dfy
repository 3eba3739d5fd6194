/**
 The rows of a FROM clause, by recursion on the table reference and with columns read by name (section 7.5 of ISO/IEC
 9075:1992 for joins), and that the planned clause has exactly these rows.
 */
module FromClause {
  import opened Values
  import opened Expressions
  import opened Plans
  import opened PlanFacts
  import opened SqlMeaning
  import opened BoundExprs
  import opened TableRefs
  import opened TableRefProof
  import opened MergeFilterProof
  import opened AggregationPlanner
  import opened PlannedQueries
  import A = AggregationProof
  import Strings

  // ---- conditions by name ----

  /** A condition on a row of the left table and one of the right, whose columns go by the given names. */
  function OnPair(e: BoundExpr, ln: seq<string>, rn: seq<string>, l: Row, r: Row): Value {
    match e
    case ColumnRef(name) =>
      var n := Strings.Join(name);
      if n in ln then At(l, A.IndexOf(ln, n)) else At(r, A.IndexOf(rn, n))
    case BinaryOp(op, x, y) => BinaryValue(op, OnPair(x, ln, rn, l, r), OnPair(y, ln, rn, l, r))
    case Constant(v) => v
    case Alias(_, c) => OnPair(c, ln, rn, l, r)
    case _ => Null(Integer)
  }

  /** A condition on one row. */
  function OnRow(e: BoundExpr, names: seq<string>, row: Row): Value {
    match e
    case ColumnRef(name) => At(row, A.IndexOf(names, Strings.Join(name)))
    case BinaryOp(op, x, y) => BinaryValue(op, OnRow(x, names, row), OnRow(y, names, row))
    case Constant(v) => v
    case Alias(_, c) => OnRow(c, names, row)
    case _ => Null(Integer)
  }

  // ---- the clause ----

  /** The right rows that go with a left row. */
  function Partners(e: BoundExpr, ln: seq<string>, rn: seq<string>, l: Row, rs: seq<Row>): seq<Row> {
    if rs == [] then []
    else (if IsTrue(OnPair(e, ln, rn, l, rs[0])) then [rs[0]] else []) + Partners(e, ln, rn, l, rs[1..])
  }

  function Together(l: Row, rs: seq<Row>): seq<Row> {
    if rs == [] then [] else [l + rs[0]] + Together(l, rs[1..])
  }

  function Nulls(types: seq<TypeId>): Row {
    if types == [] then [] else [Null(types[0])] + Nulls(types[1..])
  }

  /** Every left row with each of its partners; in a LEFT join a row without any is kept, with nulls for the right. */
  function Joined(left: bool, e: BoundExpr, ln: seq<string>, rn: seq<string>, ls: seq<Row>, rs: seq<Row>, nulls: Row)
    : seq<Row>
  {
    if ls == [] then []
    else
      var ps := Partners(e, ln, rn, ls[0], rs);
      (if left && ps == [] then [ls[0] + nulls] else Together(ls[0], ps)) + Joined(left, e, ln, rn, ls[1..], rs, nulls)
  }

  function Crossed(ls: seq<Row>, rs: seq<Row>): seq<Row> {
    if ls == [] then [] else Together(ls[0], rs) + Crossed(ls[1..], rs)
  }

  function TableRows(db: Db, table: string): seq<Row> {
    if "__mock" <= table then (if table in db.mock then db.mock[table] else [])
    else if table in db.tableNames && db.tableNames[table] in db.tables then db.tables[db.tableNames[table]].rows
    else []
  }

  function SubqueryRows(db: Db, q: Subquery): seq<Row> {
    if q.plan.Ok? then Denote(db, q.plan.value).rows else []
  }

  function SubqueryTypes(q: Subquery): seq<TypeId> {
    if q.plan.Ok? then Types(q.plan.value.schema) else []
  }

  function FromTypes(t: TableRef, ctes: seq<Subquery>): seq<TypeId>
    requires InScope(t, ctes)
  {
    match t
    case BaseTable(_, _, schema) => Types(schema)
    case CrossProduct(l, r) => FromTypes(l, ctes) + FromTypes(r, ctes)
    case Join(_, l, r, _) => FromTypes(l, ctes) + FromTypes(r, ctes)
    case SubqueryRef(q) => SubqueryTypes(q)
    case CteRef(name, _) => SubqueryTypes(FindCte(ctes, name).value)
  }

  /** The names of the clause's columns, as the binder writes them out. */
  function FromNames(t: TableRef, ctes: seq<Subquery>): seq<string>
    requires InScope(t, ctes)
  {
    JoinAll(AllColumns(t, ctes))
  }

  /** The rows of the clause. */
  function FromRows(db: Db, t: TableRef, ctes: seq<Subquery>): seq<Row>
    requires InScope(t, ctes)
  {
    match t
    case BaseTable(table, _, _) => TableRows(db, table)
    case CrossProduct(l, r) => Crossed(FromRows(db, l, ctes), FromRows(db, r, ctes))
    case Join(jt, l, r, e) =>
      Joined(jt == Left, e, FromNames(l, ctes), FromNames(r, ctes), FromRows(db, l, ctes), FromRows(db, r, ctes),
             Nulls(FromTypes(r, ctes)))
    case SubqueryRef(q) => SubqueryRows(db, q)
    case CteRef(name, _) => SubqueryRows(db, FindCte(ctes, name).value)
  }

  // ---- planned conditions ----

  lemma JoinFactoryMeans(op: string, x: Expr, y: Expr, l: Row, r: Row)
    requires BinaryFromFactory(op, x, y).Ok?
    ensures EvalJoin(BinaryFromFactory(op, x, y).value, l, r) ==
            BinaryValue(op, EvalJoin(x, l, r), EvalJoin(y, l, r))
  {
    A.OperatorMeans(op, x, y, EvalJoin(x, l, r), EvalJoin(y, l, r));
    assert EvalJoin(BinaryFromFactory(op, x, y).value, l, r) ==
           A.Combined(BinaryFromFactory(op, x, y).value, EvalJoin(x, l, r), EvalJoin(y, l, r));
  }

  lemma FirstIsIndex(s: Schema, n: string)
    ensures FirstNamed(s, n) == A.IndexOf(Named(s), n)
    ensures n in Named(s) <==> FirstNamed(s, n) < |s|
  {
    FirstNamedFound(s, n);
    var i, j := FirstNamed(s, n), A.IndexOf(Named(s), n);
    if i < |s| { assert Named(s)[i] == n; }
    if j < |s| { assert s[j].name == n; }
  }

  /** A planned join condition means itself by column name. */
  lemma {:induction false} JoinConditionMeans(e: BoundExpr, ls: Schema, rs: Schema, l: Row, r: Row)
    requires PlanJoinExpr(e, ls, rs).Ok?
    ensures EvalJoin(PlanJoinExpr(e, ls, rs).value, l, r) == OnPair(e, Named(ls), Named(rs), l, r)
  {
    match e
    case ColumnRef(name) =>
      FirstIsIndex(ls, Strings.Join(name));
      FirstIsIndex(rs, Strings.Join(name));
    case BinaryOp(op, x, y) =>
      JoinConditionMeans(x, ls, rs, l, r);
      JoinConditionMeans(y, ls, rs, l, r);
      JoinFactoryMeans(op, PlanJoinExpr(x, ls, rs).value, PlanJoinExpr(y, ls, rs).value, l, r);
    case Alias(_, c) => JoinConditionMeans(c, ls, rs, l, r);
    case _ =>
  }

  lemma {:induction false} RowConditionMeans(e: BoundExpr, s: Schema, row: Row)
    ensures A.ByName(e, s, row) == OnRow(e, Named(s), row)
  {
    match e
    case ColumnRef(name) => assert A.ColumnNames(s) == Named(s);
    case BinaryOp(_, x, y) =>
      RowConditionMeans(x, s, row);
      RowConditionMeans(y, s, row);
    case Alias(_, c) => RowConditionMeans(c, s, row);
    case _ =>
  }

  // ---- planned joins ----

  lemma {:induction false} TogetherIsPaste(l: Row, rs: seq<Row>)
    ensures Together(l, rs) == Paste(l, rs)
  {
    if rs != [] {
      TogetherIsPaste(l, rs[1..]);
      assert Paste(l, rs) == [l + rs[0]] + Paste(l, rs[1..]);
    }
  }

  lemma {:induction false} NullsArePad(types: seq<TypeId>)
    ensures Nulls(types) == Pad(types)
  {
    if types != [] {
      NullsArePad(types[1..]);
      assert Pad(types) == [Null(types[0])] + Pad(types[1..]);
    }
  }

  lemma {:induction false} PartnersAreMatches(e: BoundExpr, ls: Schema, rs: Schema, l: Row, rows: seq<Row>)
    requires PlanJoinExpr(e, ls, rs).Ok?
    ensures Partners(e, Named(ls), Named(rs), l, rows) == NljMatches(PlanJoinExpr(e, ls, rs).value, l, rows)
  {
    if rows != [] {
      JoinConditionMeans(e, ls, rs, l, rows[0]);
      PartnersAreMatches(e, ls, rs, l, rows[1..]);
    }
  }

  /** The nested-loop join of a planned condition. */
  lemma {:induction false} JoinMeans(jt: JoinType, e: BoundExpr, ls: Schema, rs: Schema, left: seq<Row>, right: Meaning)
    requires PlanJoinExpr(e, ls, rs).Ok?
    ensures NljRows(PlanJoinExpr(e, ls, rs).value, jt, left, right) ==
            Joined(jt == Left, e, Named(ls), Named(rs), left, right.rows, Nulls(right.types))
  {
    if left != [] {
      JoinMeans(jt, e, ls, rs, left[1..], right);
      PartnersAreMatches(e, ls, rs, left[0], right.rows);
      TogetherIsPaste(left[0], Partners(e, Named(ls), Named(rs), left[0], right.rows));
      NullsArePad(right.types);
      NljCons(PlanJoinExpr(e, ls, rs).value, jt, left, right);
    }
  }

  lemma {:induction false} CrossMeans(left: seq<Row>, right: Meaning)
    ensures NljRows(Const(BoolV(true)), Inner, left, right) == Crossed(left, right.rows)
  {
    if left != [] {
      CrossMeans(left[1..], right);
      ConstMatches(BoolV(true), left[0], right.rows);
      TogetherIsPaste(left[0], right.rows);
      NljCons(Const(BoolV(true)), Inner, left, right);
    }
  }

  // ---- the planned clause ----

  predicate SubqueryOk(db: Db, q: Subquery) {
    q.plan.Ok? ==> WellFormed(db, q.plan.value)
  }

  /** Subqueries have well-formed plans, and joins are of the types the executors know. */
  predicate Supplied(db: Db, t: TableRef, ctes: seq<Subquery>)
    requires InScope(t, ctes)
  {
    match t
    case BaseTable(_, _, _) => true
    case CrossProduct(l, r) => Supplied(db, l, ctes) && Supplied(db, r, ctes)
    case Join(jt, l, r, _) => (jt == Inner || jt == Left) && Supplied(db, l, ctes) && Supplied(db, r, ctes)
    case SubqueryRef(q) => SubqueryOk(db, q)
    case CteRef(name, _) => SubqueryOk(db, FindCte(ctes, name).value)
  }

  lemma {:induction false} ScanTypes(name: string, s: Schema)
    ensures Types(ScanSchema(name, s)) == Types(s)
  {
    if s != [] {
      ScanTypes(name, s[1..]);
      assert Types(s) == [s[0].ty] + Types(s[1..]);
      var out := ScanSchema(name, s);
      assert Types(out) == [out[0].ty] + Types(out[1..]);
    }
  }

  lemma TypesOfSum(a: Schema, b: Schema)
    ensures Types(a + b) == Types(a) + Types(b)
  {}

  lemma SubqueryMeans(db: Db, q: Subquery, alias: string)
    requires DbOk(db) && SubqueryOk(db, q) && PlanSubquery(q, alias).Ok?
    ensures Denote(db, PlanSubquery(q, alias).value) == Meaning(SubqueryTypes(q), SubqueryRows(db, q))
  {
    var p, child := PlanSubquery(q, alias).value, q.plan.value;
    var rows := Denote(db, child).rows;
    RowsWidth(db, child);
    Unary(db, p);
    forall i | 0 <= i < |rows| ensures EvalRow(p.op.exprs, rows[i]) == rows[i] {
      assert rows[i] in rows;
    }
    assert MapRows(p.op.exprs, rows) == rows;
    assert Types(p.schema) == Types(child.schema);
  }

  lemma BaseTableMeans(db: Db, t: TableRef, ctes: seq<Subquery>)
    requires t.BaseTable? && PlanTableRef(t, ctes, db.tableNames).Ok?
    ensures Denote(db, PlanTableRef(t, ctes, db.tableNames).value) == Meaning(Types(t.schema), TableRows(db, t.table))
  {
    Leaf(db, PlanTableRef(t, ctes, db.tableNames).value);
    ScanTypes(BoundTableName(t.table, t.tableAlias), t.schema);
    assert "__mock"[..2] == "__";
    if "__mock" <= t.table { assert "__" == t.table[..2]; }
  }

  lemma CrossNodeMeans(db: Db, a: Plan, b: Plan)
    ensures Denote(db, Plan(Nlj(Const(BoolV(true)), Inner), a.schema + b.schema, [a, b])) ==
            Meaning(Denote(db, a).types + Denote(db, b).types, Crossed(Denote(db, a).rows, Denote(db, b).rows))
  {
    Binary(db, Plan(Nlj(Const(BoolV(true)), Inner), a.schema + b.schema, [a, b]));
    TypesOfSum(a.schema, b.schema);
    CrossMeans(Denote(db, a).rows, Denote(db, b));
  }

  lemma JoinNodeMeans(db: Db, a: Plan, b: Plan, jt: JoinType, e: BoundExpr, c: Expr)
    requires PlanJoinExpr(e, a.schema, b.schema) == Ok(c)
    ensures Denote(db, Plan(Nlj(c, jt), a.schema + b.schema, [a, b])) ==
            Meaning(Denote(db, a).types + Denote(db, b).types,
                    Joined(jt == Left, e, Named(a.schema), Named(b.schema), Denote(db, a).rows, Denote(db, b).rows,
                           Nulls(Denote(db, b).types)))
  {
    Binary(db, Plan(Nlj(c, jt), a.schema + b.schema, [a, b]));
    TypesOfSum(a.schema, b.schema);
    JoinMeans(jt, e, a.schema, b.schema, Denote(db, a).rows, Denote(db, b));
  }

  /** For every table reference the planner accepts, its plan has the clause's column types and exactly its rows. */
  lemma {:induction false} PlannedFromMeans(db: Db, t: TableRef, ctes: seq<Subquery>)
    requires DbOk(db) && InScope(t, ctes) && ListsMatch(t, ctes) && Supplied(db, t, ctes)
    requires PlanTableRef(t, ctes, db.tableNames).Ok?
    ensures Denote(db, PlanTableRef(t, ctes, db.tableNames).value) ==
            Meaning(FromTypes(t, ctes), FromRows(db, t, ctes))
  {
    if t.CrossProduct? || t.Join? {
      PlannedFromMeans(db, t.left, ctes);
      PlannedFromMeans(db, t.right, ctes);
      var a, b := PlanTableRef(t.left, ctes, db.tableNames).value, PlanTableRef(t.right, ctes, db.tableNames).value;
      if t.CrossProduct? {
        CrossNodeMeans(db, a, b);
      } else {
        PlanNamesAsBinder(t.left, ctes, db.tableNames);
        PlanNamesAsBinder(t.right, ctes, db.tableNames);
        JoinNodeMeans(db, a, b, t.joinType, t.condition, PlanJoinExpr(t.condition, a.schema, b.schema).value);
      }
    } else {
      match t
      case BaseTable(_, _, _) => BaseTableMeans(db, t, ctes);
      case SubqueryRef(q) => SubqueryMeans(db, q, q.alias);
      case CteRef(name, alias) => SubqueryMeans(db, FindCte(ctes, name).value, alias);
    }
  }

  // ---- WHERE and grouping over it ----

  /** The rows of FROM and WHERE: those on which the condition is true, in order. */
  function WhereRows(where: BoundExpr, names: seq<string>, rows: seq<Row>): seq<Row> {
    if rows == [] then []
    else (if IsTrue(OnRow(where, names, rows[0])) then [rows[0]] else []) + WhereRows(where, names, rows[1..])
  }

  lemma {:induction false} FilterIsWhere(where: BoundExpr, s: Schema, rows: seq<Row>)
    requires PlanExpr(where, s, [], 0).Ok?
    ensures FilterRows(PlanExpr(where, s, [], 0).value.expr, rows) == WhereRows(where, Named(s), rows)
  {
    if rows != [] {
      A.PlannedMeansByName(where, s, 0, rows[0]);
      RowConditionMeans(where, s, rows[0]);
      FilterIsWhere(where, s, rows[1..]);
    }
  }

  /** A planned FROM and WHERE has exactly the clause's rows on which the condition, by column name, is true. */
  lemma PlannedWhereMeans(db: Db, t: TableRef, ctes: seq<Subquery>, where: BoundExpr)
    requires DbOk(db) && InScope(t, ctes) && ListsMatch(t, ctes) && Supplied(db, t, ctes)
    requires PlanTableRef(t, ctes, db.tableNames).Ok?
    requires PlanWhere(where, PlanTableRef(t, ctes, db.tableNames).value).Ok?
    ensures Denote(db, PlanWhere(where, PlanTableRef(t, ctes, db.tableNames).value).value).rows ==
            WhereRows(where, FromNames(t, ctes), FromRows(db, t, ctes))
  {
    var child := PlanTableRef(t, ctes, db.tableNames).value;
    PlannedFromMeans(db, t, ctes);
    PlanNamesAsBinder(t, ctes, db.tableNames);
    Unary(db, PlanWhere(where, child).value);
    FilterIsWhere(where, child.schema, Denote(db, child).rows);
  }

  /** A whole grouped query: the rows of its plan are its groups over FROM and WHERE, evaluated directly. */
  lemma PlannedQueryMeans(db: Db, t: TableRef, ctes: seq<Subquery>, where: BoundExpr, stmt: SelectAgg)
    requires DbOk(db) && InScope(t, ctes) && ListsMatch(t, ctes) && Supplied(db, t, ctes)
    requires PlanTableRef(t, ctes, db.tableNames).Ok?
    requires PlanWhere(where, PlanTableRef(t, ctes, db.tableNames).value).Ok?
    requires PlanOf(stmt, PlanWhere(where, PlanTableRef(t, ctes, db.tableNames).value).value).Ok?
    requires A.AllQualified(stmt)
    ensures var child := PlanTableRef(t, ctes, db.tableNames).value;
            && Named(child.schema) == FromNames(t, ctes)
            && Denote(db, PlanOf(stmt, PlanWhere(where, child).value).value).rows ==
               A.DirectOut(stmt, A.QueryGroups(stmt.groupBy, child.schema,
                                               WhereRows(where, FromNames(t, ctes), FromRows(db, t, ctes))))
  {
    PlanNamesAsBinder(t, ctes, db.tableNames);
    PlannedWhereMeans(db, t, ctes, where);
    A.TwoPhasePlanMeansDirect(db, stmt, PlanWhere(where, PlanTableRef(t, ctes, db.tableNames).value).value);
  }
}
