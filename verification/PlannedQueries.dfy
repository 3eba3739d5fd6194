/**
 What the planner makes has the shape the optimizer needs; for a query over base tables, exactly when the optimizer
 throws on it and exactly when it keeps its rows; and the constants on which it does neither.
 */
module PlannedQueries {
  import opened Values
  import opened Expressions
  import opened Plans
  import opened PlanFacts
  import opened BoundExprs
  import opened AggregationPlanner
  import opened TableRefs
  import opened Optimizer
  import opened MergeFilterProof
  import opened OptimizerProof
  import opened MergePass
  import opened Pipeline
  import Strings

  // ---- planned expressions read their child's columns ----

  predicate AllReadOnly(es: seq<Expr>, n: nat) {
    forall i :: 0 <= i < |es| ==> ReadsOnly(es[i], n)
  }

  lemma {:induction false} PlannedExprReads(e: BoundExpr, s: Schema, slots: seq<Expr>, next: nat)
    requires AllReadOnly(slots, |s|) && PlanExpr(e, s, slots, next).Ok?
    ensures ReadsOnly(PlanExpr(e, s, slots, next).value.expr, |s|)
  {
    match e
    case BinaryOp(_, l, r) =>
      PlannedExprReads(l, s, slots, next);
      PlannedExprReads(r, s, slots, PlanExpr(l, s, slots, next).value.next);
    case Alias(_, c) => PlannedExprReads(c, s, slots, next);
    case _ =>
  }

  // ---- the planner's plans ----

  predicate SubqueryPlanned(q: Subquery) {
    q.plan.Ok? ==> Shaped(q.plan.value)
  }

  predicate SubqueriesPlanned(t: TableRef, ctes: seq<Subquery>) {
    match t
    case CrossProduct(l, r) => SubqueriesPlanned(l, ctes) && SubqueriesPlanned(r, ctes)
    case Join(_, l, r, _) => SubqueriesPlanned(l, ctes) && SubqueriesPlanned(r, ctes)
    case SubqueryRef(q) => SubqueryPlanned(q)
    case CteRef(name, _) => FindCte(ctes, name).Some? ==> SubqueryPlanned(FindCte(ctes, name).value)
    case _ => true
  }

  /** A table reference is planned into the shape, whatever constants its join conditions are. */
  lemma {:induction false} TableRefPlanned(t: TableRef, ctes: seq<Subquery>, tableNames: map<string, nat>)
    requires SubqueriesPlanned(t, ctes) && PlanTableRef(t, ctes, tableNames).Ok?
    ensures Shaped(PlanTableRef(t, ctes, tableNames).value)
  {
    if t.CrossProduct? || t.Join? {
      TableRefPlanned(t.left, ctes, tableNames);
      TableRefPlanned(t.right, ctes, tableNames);
    }
  }

  /** WHERE is a filter over the table reference's plan. */
  function PlanWhere(where: BoundExpr, child: Plan): Result<Plan> {
    var p :- PlanExpr(where, child.schema, [], 0);
    Ok(Plan(Filter(p.expr), child.schema, [child]))
  }

  lemma WherePlanned(where: BoundExpr, child: Plan)
    requires Shaped(child) && PlanWhere(where, child).Ok?
    ensures Shaped(PlanWhere(where, child).value)
  {
    PlannedExprReads(where, child.schema, [], 0);
  }

  /** A grouped query is planned into the shape over any child of the shape. */
  lemma AggregationPlanned(stmt: SelectAgg, child: Plan)
    requires Shaped(child) && PlanOf(stmt, child).Ok?
    ensures Shaped(PlanOf(stmt, child).value)
  {
    var groups := PlanList(stmt.groupBy, child.schema, [], 0).value;
    var calls := PlanCalls(HavingCalls(stmt.having) + CollectAll(stmt.selectList), child.schema).value;
    var agg := AggNode(groups, calls, child);
    assert Shaped(agg);
    if stmt.having.Some? {
      PlannedExprReads(stmt.having.value, agg.schema, Slots(|groups|, |calls|), 0);
      var h := PlanExpr(stmt.having.value, agg.schema, Slots(|groups|, |calls|), 0).value.expr;
      assert Shaped(Plan(Filter(h), agg.schema, [agg]));
    }
  }

  // ---- FROM base tables WHERE a condition ----

  predicate BaseTablesOnly(t: TableRef) {
    match t
    case BaseTable(_, _, _) => true
    case CrossProduct(l, r) => BaseTablesOnly(l) && BaseTablesOnly(r)
    case Join(_, l, r, _) => BaseTablesOnly(l) && BaseTablesOnly(r)
    case _ => false
  }

  predicate ScansAndJoins(p: Plan) {
    (p.op.SeqScan? || p.op.MockScan? || p.op.Nlj?) && forall c :: c in p.children ==> ScansAndJoins(c)
  }

  lemma {:induction false} BaseTablesPlan(t: TableRef, ctes: seq<Subquery>, tableNames: map<string, nat>)
    requires BaseTablesOnly(t) && PlanTableRef(t, ctes, tableNames).Ok?
    ensures ScansAndJoins(PlanTableRef(t, ctes, tableNames).value)
    ensures Shaped(PlanTableRef(t, ctes, tableNames).value)
  {
    if t.CrossProduct? || t.Join? {
      BaseTablesPlan(t.left, ctes, tableNames);
      BaseTablesPlan(t.right, ctes, tableNames);
    }
  }

  /** The first two passes leave scans and joins alone. */
  lemma {:induction false} ScansAndJoinsStay(db: Db, p: Plan)
    requires ScansAndJoins(p)
    ensures Rewrite(MergeProjection, db, p) == Ok(p) && Rewrite(MergeFilterNlj, db, p) == Ok(p) && MergePassOk(p)
    decreases p, 1
  {
    ScansAndJoinsStayAll(db, p.children);
  }

  lemma {:induction false} ScansAndJoinsStayAll(db: Db, ps: seq<Plan>)
    requires forall c :: c in ps ==> ScansAndJoins(c)
    ensures RewriteAll(MergeProjection, db, ps) == Ok(ps) && RewriteAll(MergeFilterNlj, db, ps) == Ok(ps)
    ensures forall c :: c in ps ==> MergePassOk(c)
    decreases ps, 0
  {
    if ps != [] {
      ScansAndJoinsStay(db, ps[0]);
      ScansAndJoinsStayAll(db, ps[1..]);
      assert ps == [ps[0]] + ps[1..];
    }
  }

  lemma FilterOverScansAndJoins(db: Db, p: Plan)
    requires p.op.Filter? && |p.children| == 1 && ScansAndJoins(p.children[0])
    ensures Rewrite(MergeProjection, db, p) == Ok(p)
    ensures Rewrite(MergeFilterNlj, db, p) == MergeFilterNljAt(p)
  {
    ScansAndJoinsStayAll(db, p.children);
    assert p.(children := p.children) == p;
  }

  /** The constant of an outermost ON clause, if it is one, casts to BOOLEAN. */
  predicate OnCasts(t: TableRef) {
    t.Join? && ConstantUnder(t.condition).Some? ==> CastToBool(ConstantUnder(t.condition).value).Ok?
  }

  function ConstantUnder(e: BoundExpr): Option<Value> {
    match e
    case Constant(v) => Some(v)
    case Alias(_, c) => ConstantUnder(c)
    case _ => None
  }

  lemma {:induction false} PlannedConstant(e: BoundExpr, left: Schema, right: Schema)
    requires PlanJoinExpr(e, left, right).Ok?
    ensures var c := PlanJoinExpr(e, left, right).value;
            if c.Const? then ConstantUnder(e) == Some(c.val) else ConstantUnder(e).None?
  {
    if e.Alias? { PlannedConstant(e.child, left, right); }
  }

  /**
   For every FROM of base tables, cross products and joins, nested at will, and every WHERE: the optimizer throws
   exactly when the outermost join is ON a constant that does not cast to BOOLEAN.
   */
  lemma FromWhereSucceedsExactly(db: Db, t: TableRef, ctes: seq<Subquery>, where: BoundExpr)
    requires DbOk(db) && KeyNamesFaithful(db) && BaseTablesOnly(t)
    requires PlanTableRef(t, ctes, db.tableNames).Ok?
    requires PlanWhere(where, PlanTableRef(t, ctes, db.tableNames).value).Ok?
    requires WellFormed(db, PlanWhere(where, PlanTableRef(t, ctes, db.tableNames).value).value)
    ensures OptimizeCustom(db, PlanWhere(where, PlanTableRef(t, ctes, db.tableNames).value).value).Ok? <==> OnCasts(t)
  {
    var child := PlanTableRef(t, ctes, db.tableNames).value;
    var p := PlanWhere(where, child).value;
    BaseTablesPlan(t, ctes, db.tableNames);
    WherePlanned(where, child);
    FilterOverScansAndJoins(db, p);
    OptimizeSucceedsExactly(db, p);
    ScansAndJoinsStay(db, child);
    if t.Join? {
      PlannedConstant(t.condition, PlanTableRef(t.left, ctes, db.tableNames).value.schema,
                      PlanTableRef(t.right, ctes, db.tableNames).value.schema);
    }
  }

  /** And it keeps schema and rows exactly when the merge it makes, if any, leaves every left row's output alone. */
  lemma FromWhereRowsExactly(db: Db, t: TableRef, ctes: seq<Subquery>, where: BoundExpr)
    requires DbOk(db) && KeyNamesFaithful(db) && BaseTablesOnly(t)
    requires PlanTableRef(t, ctes, db.tableNames).Ok?
    requires PlanWhere(where, PlanTableRef(t, ctes, db.tableNames).value).Ok?
    requires WellFormed(db, PlanWhere(where, PlanTableRef(t, ctes, db.tableNames).value).value) && OnCasts(t)
    ensures var p := PlanWhere(where, PlanTableRef(t, ctes, db.tableNames).value).value;
            OptimizeCustom(db, p).Ok? && (Equivalent(db, p, OptimizeCustom(db, p).value) <==> MergeSafe(db, p))
  {
    var child := PlanTableRef(t, ctes, db.tableNames).value;
    FromWhereSucceedsExactly(db, t, ctes, where);
    BaseTablesPlan(t, ctes, db.tableNames);
    WherePlanned(where, child);
    OneFilterRowsExactly(db, PlanWhere(where, child).value);
  }

  /** A single filter over scans and joins: the whole order keeps its rows exactly when the one merge does. */
  lemma OneFilterRowsExactly(db: Db, p: Plan)
    requires DbOk(db) && KeyNamesFaithful(db) && WellFormed(db, p) && Shaped(p)
    requires p.op.Filter? && |p.children| == 1 && ScansAndJoins(p.children[0]) && OptimizeCustom(db, p).Ok?
    ensures Equivalent(db, p, OptimizeCustom(db, p).value) <==> MergeSafe(db, p)
  {
    FilterOverScansAndJoins(db, p);
    var q := MergeFilterNljAt(p).value;
    MergePassExactly(db, p);
    MergeKeepsPlanned(db, p);
    LaterPasses(db, q);
    assert OptimizeCustom(db, p) == LaterOrder(db, q);
    EquivalentThrough(db, p, q, OptimizeCustom(db, p).value);
    MergedOrNot(db, p);
  }

  lemma MergedOrNot(db: Db, p: Plan)
    requires DbOk(db) && WellFormed(db, p) && MergeFilterNljAt(p).Ok?
    ensures Equivalent(db, p, MergeFilterNljAt(p).value) <==> MergeSafe(db, p)
  {
    if Merges(p) { MergeFilterNljExactly(db, p); }
  }

  lemma EquivalentThrough(db: Db, p: Plan, q: Plan, r: Plan)
    requires WellFormed(db, q) && q.schema == p.schema && Equivalent(db, q, r)
    ensures Equivalent(db, p, r) <==> Equivalent(db, p, q)
  {}

  // ---- ON 1 ----

  /** A join of base tables ON an integer, under any WHERE, makes the optimizer throw. */
  lemma OnIntegerThrows(db: Db, jt: JoinType, l: TableRef, r: TableRef, ctes: seq<Subquery>, n: int, where: BoundExpr)
    requires BaseTablesOnly(l) && BaseTablesOnly(r)
    requires PlanTableRef(Join(jt, l, r, Constant(IntV(Integer, n))), ctes, db.tableNames).Ok?
    requires PlanWhere(where, PlanTableRef(Join(jt, l, r, Constant(IntV(Integer, n))), ctes, db.tableNames).value).Ok?
    ensures OptimizeCustom(db, PlanWhere(where, PlanTableRef(Join(jt, l, r, Constant(IntV(Integer, n))), ctes,
                                                             db.tableNames).value).value) == Throw
  {
    var t := Join(jt, l, r, Constant(IntV(Integer, n)));
    BaseTablesPlan(t, ctes, db.tableNames);
    var p := PlanWhere(where, PlanTableRef(t, ctes, db.tableNames).value).value;
    FilterOverScansAndJoins(db, p);
    assert MergeFilterNljAt(p) == Throw;
  }

  /** `FROM a JOIN b ON 1 WHERE 1` is planned, and the optimizer throws on its plan. */
  lemma OnOneThrows(db: Db)
    requires "a" in db.tableNames && "b" in db.tableNames
    ensures var s := [Column("x", Integer)];
            var t := Join(Inner, BaseTable("a", None, s), BaseTable("b", None, s), Constant(IntV(Integer, 1)));
            var child := PlanTableRef(t, [], db.tableNames);
            && child.Ok? && PlanWhere(Constant(IntV(Integer, 1)), child.value).Ok?
            && OptimizeCustom(db, PlanWhere(Constant(IntV(Integer, 1)), child.value).value) == Throw
  {
    var s := [Column("x", Integer)];
    var l, r := BaseTable("a", None, s), BaseTable("b", None, s);
    OnIntegerThrows(db, Inner, l, r, [], 1, Constant(IntV(Integer, 1)));
  }

  // ---- the cast ----

  /** Exactly the spellings of the truth values cast, in any case of letters, and of other constants BOOLEAN ones. */
  lemma CastExactly(v: Value)
    ensures CastToBool(v) == Ok(true) <==>
            v == BoolV(true) || v == Null(Boolean) || (v.StrV? && Strings.Lower(v.s) in {"true", "t", "1"})
    ensures CastToBool(v) == Ok(false) <==> v == BoolV(false) || (v.StrV? && Strings.Lower(v.s) in {"false", "f", "0"})
  {
    if v.StrV? {
      var t := Strings.Lower(v.s);
      assert t == "true" ==> t[0] == 't';
      assert t == "t" ==> t[0] == 't';
      assert t == "1" ==> t[0] == '1';
    }
  }

  // ---- constants the test accepts and no row passes ----

  /** One row joined with one row ON the constant, under a filter every row passes. */
  function OnConstant(v: Value): Plan {
    var one := [Column("a.x", Integer)];
    var lists := ValuesList([[Const(IntV(Integer, 1))]]);
    Plan(Filter(TRUE), one + one, [Plan(Nlj(Const(v), Inner), one + one, [Plan(lists, one, []), Plan(lists, one, [])])])
  }

  lemma OnConstantWellFormed(db: Db, v: Value)
    ensures WellFormed(db, OnConstant(v))
  {
    var nlj := OnConstant(v).children[0];
    assert WellFormed(db, nlj.children[0]) && WellFormed(db, nlj.children[1]);
    assert WellFormed(db, nlj);
  }

  /** The join has no rows; after the merge it has one. */
  lemma AcceptedConstantChangesRows(db: Db, v: Value)
    requires CastToBool(v) == Ok(true) && !Passes(v)
    ensures WellFormed(db, OnConstant(v)) && MergeFilterNljAt(OnConstant(v)).Ok?
    ensures Denote(db, OnConstant(v)).rows == []
    ensures |Denote(db, MergeFilterNljAt(OnConstant(v)).value).rows| == 1
  {
    var p := OnConstant(v);
    var nlj, q := p.children[0], MergeFilterNljAt(p).value;
    var left, right := Denote(db, nlj.children[0]), Denote(db, nlj.children[1]);
    OnConstantWellFormed(db, v);
    Leaf(db, nlj.children[0]);
    assert left.rows == ValueRows([[Const(IntV(Integer, 1))]]) && |left.rows| == 1;
    FilteredJoinMeaning(db, p);
    JoinMeaning(db, q);
    ConstMatches(v, left.rows[0], right.rows);
    ConstMatches(BoolV(true), left.rows[0], right.rows);
    NljCons(Const(v), Inner, left.rows, right);
    NljCons(TRUE, Inner, left.rows, right);
    assert left.rows[1..] == [];
  }

  /**
   Such are a NULL of type BOOLEAN and, by the convention that no row passes a string, the `t` of `ON 't'`; of the
   constants the test accepts only TRUE passes.
   */
  lemma NullAndStringConstants()
    ensures CastToBool(Null(Boolean)) == Ok(true) && !Passes(Null(Boolean))
    ensures CastToBool(StrV("t")) == Ok(true) && !Passes(StrV("t"))
    ensures forall v :: CastToBool(v) == Ok(true) ==> (Passes(v) <==> v == BoolV(true))
  {
    assert Strings.Lower("t") == "t";
  }
}
