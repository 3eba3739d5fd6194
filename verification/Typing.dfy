/** Which expressions, table references and grouped queries the planner accepts: exactly those that have a type. */
module Typing {
  import opened Values
  import opened Expressions
  import opened Plans
  import opened BoundExprs
  import opened AggregationPlanner
  import opened TableRefs
  import opened TableRefProof
  import opened ResolvedColumns
  import opened FromClause
  import A = AggregationProof
  import Strings

  // ---- columns ----

  /** Column `i` alone bears the name. */
  predicate OnlyColumn(s: Schema, name: string, i: nat) {
    i < |s| && forall j :: 0 <= j < |s| ==> (s[j].name == name <==> j == i)
  }

  /** Over one child a name has a type when exactly one column bears it. */
  ghost function ColumnType(s: Schema, name: string): Option<TypeId> {
    if exists i: nat :: OnlyColumn(s, name, i) then
      var i: nat :| OnlyColumn(s, name, i);
      Some(s[i].ty)
    else None
  }

  predicate FirstColumn(s: Schema, name: string, i: nat) {
    i < |s| && s[i].name == name && forall j :: 0 <= j < i ==> s[j].name != name
  }

  predicate Bears(s: Schema, name: string) {
    exists j :: 0 <= j < |s| && s[j].name == name
  }

  /** Over the two children of a join, when it is borne on one side only; the first bearer there decides. */
  ghost function JoinColumnType(left: Schema, right: Schema, name: string): Option<TypeId> {
    if Bears(left, name) && !Bears(right, name) && (exists i: nat :: FirstColumn(left, name, i)) then
      var i: nat :| FirstColumn(left, name, i);
      Some(left[i].ty)
    else if Bears(right, name) && !Bears(left, name) && (exists i: nat :: FirstColumn(right, name, i)) then
      var i: nat :| FirstColumn(right, name, i);
      Some(right[i].ty)
    else None
  }

  lemma ColumnPlans(name: string, s: Schema)
    ensures PlanColumn(name, s).Ok? <==> ColumnType(s, name).Some?
    ensures PlanColumn(name, s).Ok? ==> ColumnType(s, name) == Some(ReturnType(PlanColumn(name, s).value))
  {
    FirstNamedFound(s, name);
    if exists i: nat :: OnlyColumn(s, name, i) {
      var i: nat :| OnlyColumn(s, name, i);
      OneOfTheName(s, name, i);
    } else if CountName(s, name) == 1 {
      var i := FirstNamed(s, name);
      forall j | 0 <= j < |s| && s[j].name == name ensures j == i {
        CountOnce(s, name, j);
      }
      assert OnlyColumn(s, name, i);
    }
  }

  lemma SideBears(s: Schema, name: string)
    ensures FirstNamed(s, name) < |s| <==> Bears(s, name)
    ensures Bears(s, name) ==> FirstColumn(s, name, FirstNamed(s, name))
    ensures forall i: nat :: FirstColumn(s, name, i) ==> i == FirstNamed(s, name)
  {
    FirstNamedFound(s, name);
  }

  lemma JoinColumnPlans(name: string, left: Schema, right: Schema)
    ensures PlanJoinColumn(name, left, right).Ok? <==> JoinColumnType(left, right, name).Some?
    ensures PlanJoinColumn(name, left, right).Ok? ==>
              JoinColumnType(left, right, name) == Some(ReturnType(PlanJoinColumn(name, left, right).value))
  {
    SideBears(left, name);
    SideBears(right, name);
    var i, j := FirstNamed(left, name), FirstNamed(right, name);
    if Bears(left, name) { assert FirstColumn(left, name, i); }
    if Bears(right, name) { assert FirstColumn(right, name, j); }
  }

  // ---- expressions ----

  /** The type of an operator's result from those of its operands, if it takes them. */
  function OperatorType(op: string, l: TypeId, r: TypeId): Option<TypeId> {
    if op in {"=", "==", "!=", "<>", "<", "<=", ">", ">="} then Some(Boolean)
    else if op in {"+", "-"} then (if l == r == Integer then Some(Integer) else None)
    else if op in {"and", "or"} then (if l == r == Boolean then Some(Boolean) else None)
    else None
  }

  /** The type of an expression over named columns; aggregate calls, where they may occur, are INTEGER. */
  ghost function TypeIn(e: BoundExpr, column: string -> Option<TypeId>, calls: bool): Option<TypeId> {
    match e
    case AggCall(_, _, _) => if calls then Some(Integer) else None
    case ColumnRef(name) => column(Strings.Join(name))
    case BinaryOp(op, l, r) =>
      var a, b := TypeIn(l, column, calls), TypeIn(r, column, calls);
      if a.Some? && b.Some? then OperatorType(op, a.value, b.value) else None
    case Constant(v) => Some(TypeOf(v))
    case Alias(_, c) => TypeIn(c, column, calls)
    case Unsupported => None
  }

  lemma OperatorPlans(op: string, l: Expr, r: Expr)
    ensures BinaryFromFactory(op, l, r).Ok? <==> OperatorType(op, ReturnType(l), ReturnType(r)).Some?
    ensures BinaryFromFactory(op, l, r).Ok? ==>
              OperatorType(op, ReturnType(l), ReturnType(r)) == Some(ReturnType(BinaryFromFactory(op, l, r).value))
  {}

  ghost function InSchema(s: Schema): string -> Option<TypeId> {
    n => ColumnType(s, n)
  }

  ghost function InJoin(left: Schema, right: Schema): string -> Option<TypeId> {
    n => JoinColumnType(left, right, n)
  }

  predicate AllIntegers(slots: seq<Expr>) {
    forall i :: 0 <= i < |slots| ==> ReturnType(slots[i]) == Integer
  }

  /** Over one child an expression is planned exactly when it has a type and there is a slot for each of its calls. */
  lemma {:induction false} ExpressionPlansExactly(e: BoundExpr, s: Schema, slots: seq<Expr>, next: nat)
    requires AllIntegers(slots) && next <= |slots|
    ensures PlanExpr(e, s, slots, next).Ok? <==>
            TypeIn(e, InSchema(s), true).Some? && next + |Collect(e)| <= |slots|
    ensures PlanExpr(e, s, slots, next).Ok? ==>
              TypeIn(e, InSchema(s), true) == Some(ReturnType(PlanExpr(e, s, slots, next).value.expr))
  {
    match e
    case ColumnRef(name) => ColumnPlans(Strings.Join(name), s);
    case BinaryOp(op, l, r) =>
      ExpressionPlansExactly(l, s, slots, next);
      var pl := PlanExpr(l, s, slots, next);
      if pl.Ok? {
        A.ConsumesCollected(l, s, slots, next);
        ExpressionPlansExactly(r, s, slots, pl.value.next);
        var pr := PlanExpr(r, s, slots, pl.value.next);
        if pr.Ok? { OperatorPlans(op, pl.value.expr, pr.value.expr); }
      }
    case Alias(_, c) => ExpressionPlansExactly(c, s, slots, next);
    case _ =>
  }

  /** A join condition is planned exactly when it has a type over the two sides. */
  lemma {:induction false} ConditionPlansExactly(e: BoundExpr, left: Schema, right: Schema)
    ensures PlanJoinExpr(e, left, right).Ok? <==> TypeIn(e, InJoin(left, right), false).Some?
    ensures PlanJoinExpr(e, left, right).Ok? ==>
              TypeIn(e, InJoin(left, right), false) == Some(ReturnType(PlanJoinExpr(e, left, right).value))
  {
    match e
    case ColumnRef(name) => JoinColumnPlans(Strings.Join(name), left, right);
    case BinaryOp(op, l, r) =>
      ConditionPlansExactly(l, left, right);
      ConditionPlansExactly(r, left, right);
      var pl, pr := PlanJoinExpr(l, left, right), PlanJoinExpr(r, left, right);
      if pl.Ok? && pr.Ok? { OperatorPlans(op, pl.value, pr.value); }
    case Alias(_, c) => ConditionPlansExactly(c, left, right);
    case _ =>
  }

  // ---- table references ----

  /** The columns of a clause, from the names the binder enumerates and the types of its tables. */
  function FromSchema(t: TableRef, ctes: seq<Subquery>): Schema
    requires InScope(t, ctes)
  {
    var names, types := FromNames(t, ctes), FromTypes(t, ctes);
    if |names| == |types| then seq(|names|, i requires 0 <= i < |names| => Column(names[i], types[i])) else []
  }

  lemma {:induction false} PlannedTypes(t: TableRef, ctes: seq<Subquery>, tableNames: map<string, nat>)
    requires InScope(t, ctes) && ListsMatch(t, ctes) && PlanTableRef(t, ctes, tableNames).Ok?
    ensures Types(PlanTableRef(t, ctes, tableNames).value.schema) == FromTypes(t, ctes)
  {
    if t.CrossProduct? || t.Join? {
      PlannedTypes(t.left, ctes, tableNames);
      PlannedTypes(t.right, ctes, tableNames);
      TypesOfSum(PlanTableRef(t.left, ctes, tableNames).value.schema,
                 PlanTableRef(t.right, ctes, tableNames).value.schema);
    } else if t.BaseTable? {
      ScanTypes(BoundTableName(t.table, t.tableAlias), t.schema);
    }
  }

  /** The plan's schema is the clause's columns. */
  lemma PlannedSchema(t: TableRef, ctes: seq<Subquery>, tableNames: map<string, nat>)
    requires InScope(t, ctes) && ListsMatch(t, ctes) && PlanTableRef(t, ctes, tableNames).Ok?
    ensures PlanTableRef(t, ctes, tableNames).value.schema == FromSchema(t, ctes)
  {
    var s := PlanTableRef(t, ctes, tableNames).value.schema;
    PlanNamesAsBinder(t, ctes, tableNames);
    PlannedTypes(t, ctes, tableNames);
    assert |Named(s)| == |Types(s)| == |s|;
    forall i | 0 <= i < |s| ensures s[i] == FromSchema(t, ctes)[i] {
      assert Named(s)[i] == s[i].name && Types(s)[i] == s[i].ty;
    }
  }

  /** Tables exist and are not internal ones, subqueries were planned, and join conditions have types. */
  ghost predicate Acceptable(t: TableRef, ctes: seq<Subquery>, tableNames: map<string, nat>)
    requires InScope(t, ctes)
  {
    match t
    case BaseTable(table, _, _) => table in tableNames && ("__" <= table ==> "__mock" <= table)
    case CrossProduct(l, r) => Acceptable(l, ctes, tableNames) && Acceptable(r, ctes, tableNames)
    case Join(_, l, r, e) =>
      && Acceptable(l, ctes, tableNames) && Acceptable(r, ctes, tableNames)
      && TypeIn(e, InJoin(FromSchema(l, ctes), FromSchema(r, ctes)), false).Some?
    case SubqueryRef(q) => q.plan.Ok?
    case CteRef(name, _) => FindCte(ctes, name).value.plan.Ok?
  }

  /** A table reference is planned exactly when it is acceptable. */
  lemma {:induction false} TableRefPlansExactly(t: TableRef, ctes: seq<Subquery>, tableNames: map<string, nat>)
    requires InScope(t, ctes) && ListsMatch(t, ctes)
    ensures PlanTableRef(t, ctes, tableNames).Ok? <==> Acceptable(t, ctes, tableNames)
  {
    if t.CrossProduct? || t.Join? {
      TableRefPlansExactly(t.left, ctes, tableNames);
      TableRefPlansExactly(t.right, ctes, tableNames);
      if t.Join? && PlanTableRef(t.left, ctes, tableNames).Ok? && PlanTableRef(t.right, ctes, tableNames).Ok? {
        PlannedSchema(t.left, ctes, tableNames);
        PlannedSchema(t.right, ctes, tableNames);
        ConditionPlansExactly(t.condition, FromSchema(t.left, ctes), FromSchema(t.right, ctes));
      }
    }
  }

  // ---- grouped queries ----

  lemma {:induction false} TypedWithoutCalls(e: BoundExpr, column: string -> Option<TypeId>)
    ensures TypeIn(e, column, false).Some? <==> TypeIn(e, column, true).Some? && Collect(e) == []
    ensures TypeIn(e, column, false).Some? ==> TypeIn(e, column, false) == TypeIn(e, column, true)
    ensures TypeIn(e, column, true).Some? ==> Supported(e)
  {
    match e
    case BinaryOp(_, l, r) =>
      TypedWithoutCalls(l, column);
      TypedWithoutCalls(r, column);
    case Alias(_, c) => TypedWithoutCalls(c, column);
    case _ =>
  }

  /** An expression over the rows of a table, where no aggregate call may occur. */
  lemma PlainPlansExactly(e: BoundExpr, s: Schema)
    ensures PlanExpr(e, s, [], 0).Ok? <==> TypeIn(e, InSchema(s), false).Some?
    ensures PlanExpr(e, s, [], 0).Ok? ==>
              && PlanExpr(e, s, [], 0).value.next == 0
              && TypeIn(e, InSchema(s), false) == Some(ReturnType(PlanExpr(e, s, [], 0).value.expr))
  {
    ExpressionPlansExactly(e, s, [], 0);
    TypedWithoutCalls(e, InSchema(s));
    if PlanExpr(e, s, [], 0).Ok? { A.ConsumesCollected(e, s, [], 0); }
  }

  lemma {:induction false} PlainListPlansExactly(es: seq<BoundExpr>, s: Schema)
    ensures PlanList(es, s, [], 0).Ok? <==> forall i :: 0 <= i < |es| ==> TypeIn(es[i], InSchema(s), false).Some?
    ensures PlanList(es, s, [], 0).Ok? ==>
              && |PlanList(es, s, [], 0).value| == |es|
              && forall i :: 0 <= i < |es| ==>
                   TypeIn(es[i], InSchema(s), false) == Some(ReturnType(PlanList(es, s, [], 0).value[i].expr))
  {
    if es != [] {
      PlainPlansExactly(es[0], s);
      PlainListPlansExactly(es[1..], s);
      assert forall i :: 1 <= i < |es| ==> es[i] == es[1..][i - 1];
      assert (forall i :: 0 <= i < |es| ==> TypeIn(es[i], InSchema(s), false).Some?) <==>
             && TypeIn(es[0], InSchema(s), false).Some?
             && (forall i :: 0 <= i < |es[1..]| ==> TypeIn(es[1..][i], InSchema(s), false).Some?);
    }
  }

  /** count(*), or one of the four other functions of one argument, which has a type; not DISTINCT. */
  ghost predicate CallAcceptable(call: BoundExpr, s: Schema) {
    && call.AggCall? && !call.isDistinct
    && if call.args == [] then call.func == "count_star"
       else |call.args| == 1 && call.func in {"min", "max", "sum", "count"}
            && TypeIn(call.args[0], InSchema(s), false).Some?
  }

  lemma CallPlansExactly(call: BoundExpr, s: Schema)
    ensures PlanCall(call, s).Ok? <==> CallAcceptable(call, s)
  {
    if call.AggCall? && |call.args| >= 1 {
      PlainPlansExactly(call.args[0], s);
      if |call.args| == 1 {
        assert call.args[1..] == [];
      } else if PlanArgs(call.args, s).Ok? {
        ArgsLength(call.args, s);
      }
    }
  }

  lemma {:induction false} ArgsLength(args: seq<BoundExpr>, s: Schema)
    requires PlanArgs(args, s).Ok?
    ensures |PlanArgs(args, s).value| == |args|
  {
    if args != [] { ArgsLength(args[1..], s); }
  }

  lemma {:induction false} CallsPlanExactly(calls: seq<BoundExpr>, s: Schema)
    ensures PlanCalls(calls, s).Ok? <==> forall i :: 0 <= i < |calls| ==> CallAcceptable(calls[i], s)
    ensures PlanCalls(calls, s).Ok? ==> |PlanCalls(calls, s).value| == |calls|
  {
    if calls != [] {
      CallPlansExactly(calls[0], s);
      CallsPlanExactly(calls[1..], s);
      assert forall i :: 1 <= i < |calls| ==> calls[i] == calls[1..][i - 1];
      assert (forall i :: 0 <= i < |calls| ==> CallAcceptable(calls[i], s)) <==>
             && CallAcceptable(calls[0], s)
             && (forall i :: 0 <= i < |calls[1..]| ==> CallAcceptable(calls[1..][i], s));
    }
  }

  lemma {:induction false} ListPlansExactly(es: seq<BoundExpr>, s: Schema, slots: seq<Expr>, next: nat)
    requires AllIntegers(slots) && next + |CollectAll(es)| <= |slots|
    ensures PlanList(es, s, slots, next).Ok? <==> forall i :: 0 <= i < |es| ==> TypeIn(es[i], InSchema(s), true).Some?
  {
    if es != [] {
      ExpressionPlansExactly(es[0], s, slots, next);
      if PlanExpr(es[0], s, slots, next).Ok? { A.ConsumesCollected(es[0], s, slots, next); }
      ListPlansExactly(es[1..], s, slots, next + |Collect(es[0])|);
      assert forall i :: 1 <= i < |es| ==> es[i] == es[1..][i - 1];
      assert (forall i :: 0 <= i < |es| ==> TypeIn(es[i], InSchema(s), true).Some?) <==>
             && TypeIn(es[0], InSchema(s), true).Some?
             && (forall i :: 0 <= i < |es[1..]| ==> TypeIn(es[1..][i], InSchema(s), true).Some?);
    }
  }

  /** The columns of the aggregation: the grouping expressions under their names, then one for each call. */
  ghost function GroupSchema(groupBy: seq<BoundExpr>, s: Schema, n: nat): Schema
    requires forall i :: 0 <= i < |groupBy| ==> TypeIn(groupBy[i], InSchema(s), false).Some?
  {
    seq(|groupBy|, i requires 0 <= i < |groupBy| =>
      Column(A.NameOf(groupBy[i]), TypeIn(groupBy[i], InSchema(s), false).value))
    + seq(n, i requires 0 <= i < n => Column("agg#" + Digits(i), Integer))
  }

  lemma GroupSchemaPlanned(groupBy: seq<BoundExpr>, s: Schema, n: nat)
    requires PlanList(groupBy, s, [], 0).Ok?
    requires forall i :: 0 <= i < |groupBy| ==> TypeIn(groupBy[i], InSchema(s), false).Some?
    ensures AggSchema(PlanList(groupBy, s, [], 0).value, n) == GroupSchema(groupBy, s, n)
  {
    PlainListPlansExactly(groupBy, s);
    A.KeysMeanByName(groupBy, s, 0, []);
    assert forall i :: 0 <= i < |groupBy| ==> A.NamesOf(groupBy)[i] == A.NameOf(groupBy[i]);
  }

  /** Grouping expressions and calls have types over the table, HAVING and select list over the groups. */
  ghost predicate QueryAcceptable(stmt: SelectAgg, s: Schema) {
    var calls := A.AllCalls(stmt);
    && (forall i :: 0 <= i < |stmt.groupBy| ==> TypeIn(stmt.groupBy[i], InSchema(s), false).Some?)
    && (forall i :: 0 <= i < |calls| ==> CallAcceptable(calls[i], s))
    && var g := GroupSchema(stmt.groupBy, s, |calls|);
       && (stmt.having.Some? ==> TypeIn(stmt.having.value, InSchema(g), true).Some?)
       && forall i :: 0 <= i < |stmt.selectList| ==> TypeIn(stmt.selectList[i], InSchema(g), true).Some?
  }

  lemma PhaseTwoPlansExactly(stmt: SelectAgg, g: Schema, slots: seq<Expr>)
    requires AllIntegers(slots) && |slots| == |A.AllCalls(stmt)|
    ensures (&& AllSupported(stmt)
             && (stmt.having.Some? ==> PlanExpr(stmt.having.value, g, slots, 0).Ok?)
             && PlanList(stmt.selectList, g, slots, |HavingCalls(stmt.having)|).Ok?) <==>
            (&& (stmt.having.Some? ==> TypeIn(stmt.having.value, InSchema(g), true).Some?)
             && forall i :: 0 <= i < |stmt.selectList| ==> TypeIn(stmt.selectList[i], InSchema(g), true).Some?)
  {
    if stmt.having.Some? {
      ExpressionPlansExactly(stmt.having.value, g, slots, 0);
      TypedWithoutCalls(stmt.having.value, InSchema(g));
    }
    ListPlansExactly(stmt.selectList, g, slots, |HavingCalls(stmt.having)|);
    forall i | 0 <= i < |stmt.selectList| && TypeIn(stmt.selectList[i], InSchema(g), true).Some?
      ensures Supported(stmt.selectList[i])
    {
      TypedWithoutCalls(stmt.selectList[i], InSchema(g));
    }
  }

  /** A grouped query is planned exactly when it is acceptable. */
  lemma QueryPlansExactly(stmt: SelectAgg, child: Plan)
    ensures PlanOf(stmt, child).Ok? <==> QueryAcceptable(stmt, child.schema)
  {
    var s, calls := child.schema, A.AllCalls(stmt);
    PlainListPlansExactly(stmt.groupBy, s);
    CallsPlanExactly(calls, s);
    if PlanList(stmt.groupBy, s, [], 0).Ok? && PlanCalls(calls, s).Ok? {
      var groups := PlanList(stmt.groupBy, s, [], 0).value;
      var slots := Slots(|groups|, |calls|);
      GroupSchemaPlanned(stmt.groupBy, s, |calls|);
      PhaseTwoPlansExactly(stmt, AggSchema(groups, |calls|), slots);
      if stmt.having.Some? && PlanExpr(stmt.having.value, AggSchema(groups, |calls|), slots, 0).Ok? {
        A.ConsumesCollected(stmt.having.value, AggSchema(groups, |calls|), slots, 0);
      }
    }
  }

  // ---- the columns of a query ----

  /** A planned expression goes by its alias, a column by its full name, anything else is unnamed. */
  lemma {:induction false} PlannedName(e: BoundExpr, s: Schema, slots: seq<Expr>, next: nat)
    requires PlanExpr(e, s, slots, next).Ok?
    ensures PlanExpr(e, s, slots, next).value.name == A.NameOf(e)
  {
    if e.Alias? { PlannedName(e.child, s, slots, next); }
  }

  lemma {:induction false} PlannedColumns(es: seq<BoundExpr>, s: Schema, slots: seq<Expr>, next: nat)
    requires AllIntegers(slots) && next <= |slots| && PlanList(es, s, slots, next).Ok?
    ensures var ps := PlanList(es, s, slots, next).value;
            |ps| == |es| && forall i :: 0 <= i < |es| ==>
              && TypeIn(es[i], InSchema(s), true).Some?
              && ItemSchema(ps)[i] == Column(A.NameOf(es[i]), TypeIn(es[i], InSchema(s), true).value)
  {
    if es != [] {
      ExpressionPlansExactly(es[0], s, slots, next);
      PlannedName(es[0], s, slots, next);
      A.ConsumesCollected(es[0], s, slots, next);
      var p := PlanExpr(es[0], s, slots, next).value;
      PlannedColumns(es[1..], s, slots, p.next);
      var ps, rest := PlanList(es, s, slots, next).value, PlanList(es[1..], s, slots, p.next).value;
      assert ps == [p] + rest;
      forall i | 1 <= i < |es| ensures ItemSchema(ps)[i] == ItemSchema(rest)[i - 1] && es[i] == es[1..][i - 1] {
        assert ps[i] == rest[i - 1];
      }
    }
  }

  /** The columns of a planned grouped query: the select list's names, with the types the items have over the groups. */
  lemma QuerySchemaExactly(stmt: SelectAgg, child: Plan)
    requires PlanOf(stmt, child).Ok?
    ensures QueryAcceptable(stmt, child.schema)
    ensures var g := GroupSchema(stmt.groupBy, child.schema, |A.AllCalls(stmt)|);
            var out := PlanOf(stmt, child).value.schema;
            |out| == |stmt.selectList| && forall i :: 0 <= i < |out| ==>
              out[i] == Column(A.NameOf(stmt.selectList[i]), TypeIn(stmt.selectList[i], InSchema(g), true).value)
  {
    QueryPlansExactly(stmt, child);
    var groups, planned, having, items := A.PlanParts(stmt, child);
    var calls := A.AllCalls(stmt);
    GroupSchemaPlanned(stmt.groupBy, child.schema, |calls|);
    PlannedColumns(stmt.selectList, AggSchema(groups, |calls|), Slots(|groups|, |calls|), |HavingCalls(stmt.having)|);
  }
}
