/** Planning a whole SELECT, and that its plan has the rows of the statement (section 7.9 of ISO/IEC 9075:1992). */
module SelectStatement {
  import opened Values
  import opened Expressions
  import opened Aggregates
  import opened Plans
  import opened PlanFacts
  import opened BoundExprs
  import opened AggregationPlanner
  import opened TableRefs
  import opened TableRefProof
  import opened PlannedQueries
  import opened FromClause
  import opened SortProof
  import opened Optimizer
  import opened OptimizerProof
  import opened MergePass
  import opened Pipeline
  import A = AggregationProof
  import Typing

  datatype SortKey = SortKey(dir: OrderType, expr: BoundExpr)

  /** A clause the statement does not have is `None`, or empty. */
  datatype Statement = Statement(from: Option<TableRef>, where: Option<BoundExpr>, groupBy: seq<BoundExpr>,
                                 having: Option<BoundExpr>, selectList: seq<BoundExpr>, distinct: bool,
                                 sort: seq<SortKey>, limit: Option<BoundExpr>, offset: Option<BoundExpr>)

  // ---- planning ----

  /** Without FROM there is one row of no columns. */
  function PlanFrom(from: Option<TableRef>, ctes: seq<Subquery>, tableNames: map<string, nat>): Result<Plan> {
    match from
    case None => Ok(Plan(ValuesList([[]]), [], []))
    case Some(t) => PlanTableRef(t, ctes, tableNames)
  }

  predicate HasAggregation(e: BoundExpr) {
    match e
    case AggCall(_, _, _) => true
    case BinaryOp(_, l, r) => HasAggregation(l) || HasAggregation(r)
    case Alias(_, c) => HasAggregation(c)
    case _ => false
  }

  predicate Grouped(st: Statement) {
    st.having.Some? || st.groupBy != [] || exists i :: 0 <= i < |st.selectList| && HasAggregation(st.selectList[i])
  }

  /** Unnamed items are numbered by a counter of the planner. */
  function ItemNames(es: seq<BoundExpr>, id: nat): (names: seq<string>)
    ensures |names| == |es|
  {
    if es == [] then []
    else
      var name := A.NameOf(es[0]);
      if name == UNNAMED then ["__unnamed#" + Digits(id)] + ItemNames(es[1..], id + 1)
      else [name] + ItemNames(es[1..], id)
  }

  function PlanItems(es: seq<BoundExpr>, child: Plan, id: nat): Result<Plan> {
    var ps :- PlanList(es, child.schema, [], 0);
    if |ps| != |es| then Throw
    else Ok(Plan(Projection(Exprs(ps)),
                 seq(|ps|, i requires 0 <= i < |ps| => Column(ItemNames(es, id)[i], ReturnType(ps[i].expr))), [child]))
  }

  /** DISTINCT is a grouping by all columns. */
  function PlanDistinct(distinct: bool, child: Plan): Plan {
    if distinct then Plan(Aggregation(ColumnRefs(child.schema, 0), [], []), child.schema, [child]) else child
  }

  function PlanKeys(keys: seq<SortKey>, s: Schema): Result<seq<OrderBy>> {
    if keys == [] then Ok([])
    else
      var p :- PlanExpr(keys[0].expr, s, [], 0);
      var rest :- PlanKeys(keys[1..], s);
      Ok([OrderBy(keys[0].dir, p.expr)] + rest)
  }

  function PlanSort(keys: seq<SortKey>, child: Plan): Result<Plan> {
    if keys == [] then Ok(child)
    else
      var obs :- PlanKeys(keys, child.schema);
      Ok(Plan(Sort(obs), child.schema, [child]))
  }

  /** An INTEGER constant, as an unsigned 64-bit number. */
  function LimitOf(e: BoundExpr): Result<nat> {
    if e.Constant? && e.val.IntV? && e.val.width == Integer then Ok(e.val.n % 0x1_0000_0000_0000_0000)
    else if e == Constant(Null(Integer)) then Ok(INT32_NULL % 0x1_0000_0000_0000_0000)
    else Throw
  }

  /** OFFSET is rejected. */
  function PlanLimit(limit: Option<BoundExpr>, offset: Option<BoundExpr>, child: Plan): Result<Plan> {
    if offset.Some? then Throw
    else match limit
      case None => Ok(child)
      case Some(e) =>
        var n :- LimitOf(e);
        Ok(Plan(Limit(n), child.schema, [child]))
  }

  /** Everything up to the select list. */
  function PlanRows(st: Statement, ctes: seq<Subquery>, tableNames: map<string, nat>, id: nat): Result<Plan> {
    var table :- PlanFrom(st.from, ctes, tableNames);
    var rows :- if st.where.None? then Ok(table) else PlanWhere(st.where.value, table);
    if Grouped(st) then PlanOf(SelectAgg(st.groupBy, st.having, st.selectList), rows)
    else PlanItems(st.selectList, rows, id)
  }

  function PlanSelect(st: Statement, ctes: seq<Subquery>, tableNames: map<string, nat>, id: nat): Result<Plan> {
    var items :- PlanRows(st, ctes, tableNames, id);
    var sorted :- PlanSort(st.sort, PlanDistinct(st.distinct, items));
    PlanLimit(st.limit, st.offset, sorted)
  }

  // ---- the rows of the statement ----

  predicate FromInScope(st: Statement, ctes: seq<Subquery>) {
    st.from.Some? ==> InScope(st.from.value, ctes)
  }

  function TableSchema(st: Statement, ctes: seq<Subquery>): Schema
    requires FromInScope(st, ctes)
  {
    if st.from.None? then [] else Typing.FromSchema(st.from.value, ctes)
  }

  /** FROM and WHERE. */
  function TableRows(db: Db, st: Statement, ctes: seq<Subquery>): seq<Row>
    requires FromInScope(st, ctes)
  {
    var rows := if st.from.None? then [[]] else FromRows(db, st.from.value, ctes);
    if st.where.None? then rows else WhereRows(st.where.value, Named(TableSchema(st, ctes)), rows)
  }

  function Items(es: seq<BoundExpr>, names: seq<string>, row: Row): (out: Row)
    ensures |out| == |es|
  {
    seq(|es|, i requires 0 <= i < |es| => OnRow(es[i], names, row))
  }

  /** The select list, on each group or on each row. */
  function SelectedRows(db: Db, st: Statement, ctes: seq<Subquery>): seq<Row>
    requires FromInScope(st, ctes)
  {
    var s, rows := TableSchema(st, ctes), TableRows(db, st, ctes);
    if Grouped(st)
    then A.DirectOut(SelectAgg(st.groupBy, st.having, st.selectList), A.QueryGroups(st.groupBy, s, rows))
    else seq(|rows|, i requires 0 <= i < |rows| => Items(st.selectList, Named(s), rows[i]))
  }

  /** Without DISTINCT all of them, with it each once, where it first appears. */
  function OutputRows(db: Db, st: Statement, ctes: seq<Subquery>): seq<Row>
    requires FromInScope(st, ctes)
  {
    if st.distinct then A.FirstSeen(SelectedRows(db, st, ctes)) else SelectedRows(db, st, ctes)
  }

  function OutputNames(st: Statement, id: nat): seq<string> {
    if Grouped(st) then A.NamesOf(st.selectList) else ItemNames(st.selectList, id)
  }

  predicate Ties(key: SortKey, names: seq<string>, a: Row, b: Row) {
    Compare(OnRow(key.expr, names, a), OnRow(key.expr, names, b)) == 0
  }

  predicate Leads(key: SortKey, names: seq<string>, a: Row, b: Row) {
    var c := Compare(OnRow(key.expr, names, a), OnRow(key.expr, names, b));
    if key.dir == Desc then c > 0 else c < 0
  }

  /** Row `a` belongs before row `b`: on the first key that tells them apart it comes first. */
  predicate Before(keys: seq<SortKey>, names: seq<string>, a: Row, b: Row) {
    exists k :: 0 <= k < |keys| && Leads(keys[k], names, a, b) && forall j :: 0 <= j < k ==> Ties(keys[j], names, a, b)
  }

  predicate InOrder(keys: seq<SortKey>, names: seq<string>, rows: seq<Row>) {
    forall i, j :: 0 <= i < j < |rows| ==> !Before(keys, names, rows[j], rows[i])
  }

  // ---- names, limits, grouping ----

  function UnnamedBefore(es: seq<BoundExpr>, i: nat): nat
    requires i <= |es|
  {
    if i == 0 then 0 else UnnamedBefore(es, i - 1) + if A.NameOf(es[i - 1]) == UNNAMED then 1 else 0
  }

  lemma {:induction false} UnnamedTail(es: seq<BoundExpr>, i: nat)
    requires 0 < i <= |es|
    ensures UnnamedBefore(es, i) == (if A.NameOf(es[0]) == UNNAMED then 1 else 0) + UnnamedBefore(es[1..], i - 1)
    decreases i
  {
    if i > 1 { UnnamedTail(es, i - 1); }
  }

  /** An item keeps its name; the unnamed ones are numbered in order from the counter on. */
  lemma {:induction false} ItemNamesExactly(es: seq<BoundExpr>, id: nat, i: nat)
    requires i < |es|
    ensures ItemNames(es, id)[i] == if A.NameOf(es[i]) != UNNAMED then A.NameOf(es[i])
                                    else "__unnamed#" + Digits(id + UnnamedBefore(es, i))
    decreases i
  {
    if i > 0 {
      ItemNamesExactly(es[1..], if A.NameOf(es[0]) == UNNAMED then id + 1 else id, i - 1);
      UnnamedTail(es, i);
    }
  }

  /** LIMIT n takes n rows; a negative n, read as unsigned, is no limit in practice; anything but an INTEGER throws. */
  lemma LimitExactly(n: int)
    requires -0x8000_0000 <= n < 0x8000_0000
    ensures LimitOf(Constant(IntV(Integer, n))) == Ok(if n >= 0 then n else n + 0x1_0000_0000_0000_0000)
    ensures forall e :: LimitOf(e).Ok? ==> e.Constant? && TypeOf(e.val) == Integer
  {
    if n < 0 { assert (n + 0x1_0000_0000_0000_0000) % 0x1_0000_0000_0000_0000 == n % 0x1_0000_0000_0000_0000; }
  }

  /** The select list makes a query a grouped one exactly when it has a call to collect. */
  lemma {:induction false} AggregationCollected(e: BoundExpr)
    ensures HasAggregation(e) <==> Collect(e) != []
  {
    match e
    case BinaryOp(_, l, r) =>
      AggregationCollected(l);
      AggregationCollected(r);
    case Alias(_, c) => AggregationCollected(c);
    case _ =>
  }

  lemma {:induction false} NothingCollected(es: seq<BoundExpr>)
    ensures CollectAll(es) == [] <==> forall i :: 0 <= i < |es| ==> !HasAggregation(es[i])
  {
    if es != [] {
      AggregationCollected(es[0]);
      NothingCollected(es[1..]);
      assert forall i :: 1 <= i < |es| ==> es[i] == es[1..][i - 1];
      assert (forall i :: 0 <= i < |es| ==> !HasAggregation(es[i])) <==>
             !HasAggregation(es[0]) && (forall i :: 0 <= i < |es[1..]| ==> !HasAggregation(es[1..][i]));
    }
  }

  /** A SELECT is planned without grouping exactly when it has neither GROUP BY nor HAVING nor a call to collect. */
  lemma GroupedExactly(st: Statement)
    ensures !Grouped(st) <==> st.groupBy == [] && st.having.None? && CollectAll(st.selectList) == []
  {
    NothingCollected(st.selectList);
  }

  // ---- the clauses one by one ----

  lemma ItemsMean(db: Db, es: seq<BoundExpr>, child: Plan, id: nat)
    requires PlanItems(es, child, id).Ok?
    ensures var rows, out := Denote(db, child).rows, Denote(db, PlanItems(es, child, id).value).rows;
            |out| == |rows| && forall i :: 0 <= i < |rows| ==> out[i] == Items(es, Named(child.schema), rows[i])
    ensures Named(PlanItems(es, child, id).value.schema) == ItemNames(es, id)
  {
    var p, ps := PlanItems(es, child, id).value, PlanList(es, child.schema, [], 0).value;
    var rows := Denote(db, child).rows;
    Unary(db, p);
    forall i | 0 <= i < |rows| ensures MapRows(Exprs(ps), rows)[i] == Items(es, Named(child.schema), rows[i]) {
      A.KeysMeanByName(es, child.schema, 0, rows[i]);
      forall j | 0 <= j < |es|
        ensures A.ByNames(es, child.schema, rows[i])[j] == OnRow(es[j], Named(child.schema), rows[i])
      {
        RowConditionMeans(es[j], child.schema, rows[i]);
      }
    }
  }

  lemma KeysOnly(cols: seq<Expr>, rows: seq<Row>)
    requires cols != []
    ensures AggRows(cols, [], [], rows) == GroupKeys(cols, rows)
  {
    var keys, out := GroupKeys(cols, rows), AggRows(cols, [], [], rows);
    forall i | 0 <= i < |keys| ensures out[i] == keys[i] {
      assert out[i] == keys[i] + [];
    }
  }

  lemma DistinctRows(s: Schema, rows: seq<Row>)
    requires s != [] && AllWide(rows, |s|)
    ensures AggRows(ColumnRefs(s, 0), [], [], rows) == A.FirstSeen(rows)
  {
    var cols := ColumnRefs(s, 0);
    forall i | 0 <= i < |rows| ensures EvalRow(cols, rows[i]) == rows[i] {
      assert rows[i] in rows;
    }
    A.SameKeys(cols, rows, rows);
    KeysOnly(cols, rows);
  }

  lemma AggregationNode(db: Db, cols: seq<Expr>, child: Plan)
    ensures Denote(db, Plan(Aggregation(cols, [], []), child.schema, [child])).rows ==
            AggRows(cols, [], [], Denote(db, child).rows)
  {
    Unary(db, Plan(Aggregation(cols, [], []), child.schema, [child]));
  }

  lemma DistinctMeans(db: Db, child: Plan)
    requires child.schema != [] && AllWide(Denote(db, child).rows, |child.schema|)
    ensures Denote(db, PlanDistinct(true, child)).rows == A.FirstSeen(Denote(db, child).rows)
  {
    AggregationNode(db, ColumnRefs(child.schema, 0), child);
    DistinctRows(child.schema, Denote(db, child).rows);
  }

  lemma {:induction false} KeysMean(keys: seq<SortKey>, s: Schema, a: Row, b: Row)
    requires PlanKeys(keys, s).Ok?
    ensures var obs := PlanKeys(keys, s).value;
            |obs| == |keys| && forall k :: 0 <= k < |keys| ==>
              && (BeforeAt(obs[k], a, b) <==> Leads(keys[k], Named(s), a, b))
              && (Compare(Eval(obs[k].expr, a), Eval(obs[k].expr, b)) == 0 <==> Ties(keys[k], Named(s), a, b))
  {
    if keys != [] {
      KeysMean(keys[1..], s, a, b);
      var obs, rest := PlanKeys(keys, s).value, PlanKeys(keys[1..], s).value;
      A.PlannedMeansByName(keys[0].expr, s, 0, a);
      A.PlannedMeansByName(keys[0].expr, s, 0, b);
      RowConditionMeans(keys[0].expr, s, a);
      RowConditionMeans(keys[0].expr, s, b);
      assert obs[1..] == rest;
      assert forall k :: 1 <= k < |keys| ==> obs[k] == rest[k - 1] && keys[k] == keys[1..][k - 1];
    }
  }

  /** The planned keys order rows as the statement's keys, read by name. */
  lemma OrderMeans(keys: seq<SortKey>, s: Schema, a: Row, b: Row)
    requires PlanKeys(keys, s).Ok?
    ensures CompareRows(PlanKeys(keys, s).value, a, b) < 0 <==> Before(keys, Named(s), a, b)
  {
    var obs := PlanKeys(keys, s).value;
    KeysMean(keys, s, a, b);
    CompareRowsMeans(obs, a, b);
    if CompareRows(obs, a, b) < 0 {
      var k :| 0 <= k < |obs| && BeforeAt(obs[k], a, b)
               && forall j :: 0 <= j < k ==> Compare(Eval(obs[j].expr, a), Eval(obs[j].expr, b)) == 0;
      assert Leads(keys[k], Named(s), a, b);
    }
    if Before(keys, Named(s), a, b) {
      var k :| 0 <= k < |keys| && Leads(keys[k], Named(s), a, b)
               && forall j :: 0 <= j < k ==> Ties(keys[j], Named(s), a, b);
      assert BeforeAt(obs[k], a, b);
    }
  }

  /** A planned sort gives the rows rearranged, in the order of the keys. */
  lemma SortMeans(db: Db, keys: seq<SortKey>, child: Plan)
    requires PlanSort(keys, child).Ok?
    ensures var p, rows := PlanSort(keys, child).value, Denote(db, child).rows;
            && p.schema == child.schema && multiset(Denote(db, p).rows) == multiset(rows)
            && InOrder(keys, Named(child.schema), Denote(db, p).rows) && (keys == [] ==> p == child)
  {
    if keys != [] {
      var p, obs := PlanSort(keys, child).value, PlanKeys(keys, child.schema).value;
      Unary(db, p);
      SortMultiset(obs, Denote(db, child).rows);
      SortSorts(obs, Denote(db, child).rows);
      var out := Denote(db, p).rows;
      forall i, j | 0 <= i < j < |out| ensures !Before(keys, Named(child.schema), out[j], out[i]) {
        OrderMeans(keys, child.schema, out[j], out[i]);
        CompareRowsFlip(obs, out[i], out[j]);
      }
    }
  }

  // ---- the whole statement ----

  ghost predicate Planable(db: Db, st: Statement, ctes: seq<Subquery>) {
    && DbOk(db) && st.selectList != []
    && (st.from.Some? ==> var t := st.from.value; InScope(t, ctes) && ListsMatch(t, ctes) && Supplied(db, t, ctes))
    && (Grouped(st) ==> A.AllQualified(SelectAgg(st.groupBy, st.having, st.selectList)))
  }

  lemma FromMeans(db: Db, st: Statement, ctes: seq<Subquery>)
    requires Planable(db, st, ctes) && PlanFrom(st.from, ctes, db.tableNames).Ok?
    ensures var p := PlanFrom(st.from, ctes, db.tableNames).value;
            && p.schema == TableSchema(st, ctes)
            && Denote(db, p).rows == TableRows(db, st.(where := None), ctes)
  {
    if st.from.None? {
      var p := PlanFrom(st.from, ctes, db.tableNames).value;
      Leaf(db, p);
      assert ValueRows([[]]) == [[]];
    } else {
      PlannedFromMeans(db, st.from.value, ctes);
      Typing.PlannedSchema(st.from.value, ctes, db.tableNames);
    }
  }

  lemma WhereMeans(db: Db, st: Statement, ctes: seq<Subquery>, table: Plan)
    requires FromInScope(st, ctes) && st.where.Some? && PlanWhere(st.where.value, table).Ok?
    requires table.schema == TableSchema(st, ctes) && Denote(db, table).rows == TableRows(db, st.(where := None), ctes)
    ensures PlanWhere(st.where.value, table).value.schema == table.schema
    ensures Denote(db, PlanWhere(st.where.value, table).value).rows == TableRows(db, st, ctes)
  {
    Unary(db, PlanWhere(st.where.value, table).value);
    FilterIsWhere(st.where.value, table.schema, Denote(db, table).rows);
  }

  /** The plan up to the select list has the statement's names and, row by row, its selected rows. */
  lemma SelectedMeans(db: Db, st: Statement, ctes: seq<Subquery>, id: nat)
    requires Planable(db, st, ctes) && PlanRows(st, ctes, db.tableNames, id).Ok?
    ensures var p := PlanRows(st, ctes, db.tableNames, id).value;
            && Denote(db, p).rows == SelectedRows(db, st, ctes)
            && Named(p.schema) == OutputNames(st, id)
  {
    var table := PlanFrom(st.from, ctes, db.tableNames).value;
    FromMeans(db, st, ctes);
    if st.where.Some? { WhereMeans(db, st, ctes, table); }
    var rows := if st.where.None? then table else PlanWhere(st.where.value, table).value;
    assert st.where.None? ==> st.(where := None) == st;
    SelectedOver(db, st, ctes, id, rows);
  }

  lemma SelectedOver(db: Db, st: Statement, ctes: seq<Subquery>, id: nat, rows: Plan)
    requires Planable(db, st, ctes)
    requires rows.schema == TableSchema(st, ctes) && Denote(db, rows).rows == TableRows(db, st, ctes)
    requires Grouped(st) ==> PlanOf(SelectAgg(st.groupBy, st.having, st.selectList), rows).Ok?
    requires !Grouped(st) ==> PlanItems(st.selectList, rows, id).Ok?
    ensures var p := if Grouped(st) then PlanOf(SelectAgg(st.groupBy, st.having, st.selectList), rows).value
                     else PlanItems(st.selectList, rows, id).value;
            Denote(db, p).rows == SelectedRows(db, st, ctes) && Named(p.schema) == OutputNames(st, id)
  {
    if Grouped(st) {
      var stmt := SelectAgg(st.groupBy, st.having, st.selectList);
      A.TwoPhasePlanMeansDirect(db, stmt, rows);
      Typing.QuerySchemaExactly(stmt, rows);
      assert Named(PlanOf(stmt, rows).value.schema) == A.NamesOf(st.selectList);
    } else {
      ItemsMean(db, st.selectList, rows, id);
    }
  }

  lemma {:induction false} DirectWidth(stmt: SelectAgg, gs: seq<A.Group>)
    ensures AllWide(A.DirectOut(stmt, gs), |stmt.selectList|)
  {
    if gs != [] { DirectWidth(stmt, gs[1..]); }
  }

  lemma SelectedWidth(db: Db, st: Statement, ctes: seq<Subquery>)
    requires FromInScope(st, ctes)
    ensures AllWide(SelectedRows(db, st, ctes), |st.selectList|)
  {
    if Grouped(st) {
      DirectWidth(SelectAgg(st.groupBy, st.having, st.selectList),
                  A.QueryGroups(st.groupBy, TableSchema(st, ctes), TableRows(db, st, ctes)));
    }
  }

  lemma OutputMeans(db: Db, st: Statement, ctes: seq<Subquery>, id: nat)
    requires Planable(db, st, ctes) && PlanRows(st, ctes, db.tableNames, id).Ok?
    ensures var p := PlanDistinct(st.distinct, PlanRows(st, ctes, db.tableNames, id).value);
            Denote(db, p).rows == OutputRows(db, st, ctes) && Named(p.schema) == OutputNames(st, id)
  {
    var p := PlanRows(st, ctes, db.tableNames, id).value;
    SelectedMeans(db, st, ctes, id);
    SelectedWidth(db, st, ctes);
    assert |Named(p.schema)| == |OutputNames(st, id)| == |st.selectList|;
    if st.distinct { DistinctMeans(db, p); }
  }

  /** The first rows, as many as LIMIT says. */
  function Limited(limit: Option<BoundExpr>, rows: seq<Row>): seq<Row> {
    if limit.None? || LimitOf(limit.value).Throw? then rows
    else
      var n := LimitOf(limit.value).value;
      if n < |rows| then rows[..n] else rows
  }

  lemma LimitMeans(db: Db, limit: Option<BoundExpr>, offset: Option<BoundExpr>, child: Plan)
    requires PlanLimit(limit, offset, child).Ok?
    ensures var p := PlanLimit(limit, offset, child).value;
            && p.schema == child.schema && (limit.Some? ==> LimitOf(limit.value).Ok?)
            && Denote(db, p).rows == Limited(limit, Denote(db, child).rows)
  {
    if limit.Some? { Unary(db, PlanLimit(limit, offset, child).value); }
  }

  lemma SelectParts(st: Statement, ctes: seq<Subquery>, tableNames: map<string, nat>, id: nat)
    requires PlanSelect(st, ctes, tableNames, id).Ok?
    ensures PlanRows(st, ctes, tableNames, id).Ok?
    ensures var distinct := PlanDistinct(st.distinct, PlanRows(st, ctes, tableNames, id).value);
            && PlanSort(st.sort, distinct).Ok?
            && PlanLimit(st.limit, st.offset, PlanSort(st.sort, distinct).value) == PlanSelect(st, ctes, tableNames, id)
  {}

  /**
   The plan of every SELECT the planner accepts has the rows of the statement: FROM, WHERE, grouping and select list
   evaluated directly by name, each once with DISTINCT, in the order of ORDER BY, and the first of them with LIMIT.
   */
  lemma PlannedSelectMeans(db: Db, st: Statement, ctes: seq<Subquery>, id: nat) returns (ordered: seq<Row>)
    requires Planable(db, st, ctes) && PlanSelect(st, ctes, db.tableNames, id).Ok?
    ensures multiset(ordered) == multiset(OutputRows(db, st, ctes))
    ensures InOrder(st.sort, OutputNames(st, id), ordered) && (st.sort == [] ==> ordered == OutputRows(db, st, ctes))
    ensures Denote(db, PlanSelect(st, ctes, db.tableNames, id).value).rows == Limited(st.limit, ordered)
    ensures Named(PlanSelect(st, ctes, db.tableNames, id).value.schema) == OutputNames(st, id)
  {
    SelectParts(st, ctes, db.tableNames, id);
    var distinct := PlanDistinct(st.distinct, PlanRows(st, ctes, db.tableNames, id).value);
    OutputMeans(db, st, ctes, id);
    SortMeans(db, st.sort, distinct);
    var sorted := PlanSort(st.sort, distinct).value;
    ordered := Denote(db, sorted).rows;
    LimitMeans(db, st.limit, st.offset, sorted);
  }

  // ---- which statements are planned ----

  /** The select list has types, over the groups or over the rows. */
  ghost predicate ItemsAcceptable(st: Statement, s: Schema) {
    if Grouped(st) then Typing.QueryAcceptable(SelectAgg(st.groupBy, st.having, st.selectList), s)
    else forall i :: 0 <= i < |st.selectList| ==> Typing.TypeIn(st.selectList[i], Typing.InSchema(s), false).Some?
  }

  /** The columns of the result. */
  ghost function OutSchema(st: Statement, s: Schema, id: nat): Schema
    requires ItemsAcceptable(st, s)
  {
    var stmt := SelectAgg(st.groupBy, st.having, st.selectList);
    if Grouped(st) then
      var g := Typing.GroupSchema(st.groupBy, s, |A.AllCalls(stmt)|);
      seq(|st.selectList|, i requires 0 <= i < |st.selectList| =>
        Column(A.NameOf(st.selectList[i]), Typing.TypeIn(st.selectList[i], Typing.InSchema(g), true).value))
    else
      seq(|st.selectList|, i requires 0 <= i < |st.selectList| =>
        Column(ItemNames(st.selectList, id)[i], Typing.TypeIn(st.selectList[i], Typing.InSchema(s), false).value))
  }

  ghost predicate SelectAcceptable(st: Statement, ctes: seq<Subquery>, tableNames: map<string, nat>, id: nat)
    requires FromInScope(st, ctes)
  {
    var s := TableSchema(st, ctes);
    && (st.from.Some? ==> Typing.Acceptable(st.from.value, ctes, tableNames))
    && (st.where.Some? ==> Typing.TypeIn(st.where.value, Typing.InSchema(s), false).Some?)
    && ItemsAcceptable(st, s)
    && (forall k :: 0 <= k < |st.sort| ==>
          Typing.TypeIn(st.sort[k].expr, Typing.InSchema(OutSchema(st, s, id)), false).Some?)
    && st.offset.None? && (st.limit.Some? ==> LimitOf(st.limit.value).Ok?)
  }

  lemma ItemsPlanExactly(st: Statement, rows: Plan, id: nat)
    ensures (if Grouped(st) then PlanOf(SelectAgg(st.groupBy, st.having, st.selectList), rows).Ok?
             else PlanItems(st.selectList, rows, id).Ok?) <==> ItemsAcceptable(st, rows.schema)
    ensures ItemsAcceptable(st, rows.schema) ==>
              (if Grouped(st) then PlanOf(SelectAgg(st.groupBy, st.having, st.selectList), rows).value
               else PlanItems(st.selectList, rows, id).value).schema == OutSchema(st, rows.schema, id)
  {
    var stmt := SelectAgg(st.groupBy, st.having, st.selectList);
    if Grouped(st) {
      Typing.QueryPlansExactly(stmt, rows);
      if PlanOf(stmt, rows).Ok? { Typing.QuerySchemaExactly(stmt, rows); }
    } else {
      Typing.PlainListPlansExactly(st.selectList, rows.schema);
    }
  }

  lemma {:induction false} KeysPlanExactly(keys: seq<SortKey>, s: Schema)
    ensures PlanKeys(keys, s).Ok? <==>
            forall k :: 0 <= k < |keys| ==> Typing.TypeIn(keys[k].expr, Typing.InSchema(s), false).Some?
  {
    if keys != [] {
      Typing.PlainPlansExactly(keys[0].expr, s);
      KeysPlanExactly(keys[1..], s);
      assert forall k :: 1 <= k < |keys| ==> keys[k] == keys[1..][k - 1];
      assert (forall k :: 0 <= k < |keys| ==> Typing.TypeIn(keys[k].expr, Typing.InSchema(s), false).Some?) <==>
             && Typing.TypeIn(keys[0].expr, Typing.InSchema(s), false).Some?
             && (forall k :: 0 <= k < |keys[1..]| ==>
                   Typing.TypeIn(keys[1..][k].expr, Typing.InSchema(s), false).Some?);
    }
  }

  lemma FromPlansExactly(st: Statement, ctes: seq<Subquery>, tableNames: map<string, nat>)
    requires FromInScope(st, ctes) && (st.from.Some? ==> ListsMatch(st.from.value, ctes))
    ensures PlanFrom(st.from, ctes, tableNames).Ok? <==>
            (st.from.Some? ==> Typing.Acceptable(st.from.value, ctes, tableNames))
    ensures PlanFrom(st.from, ctes, tableNames).Ok? ==>
              PlanFrom(st.from, ctes, tableNames).value.schema == TableSchema(st, ctes)
  {
    if st.from.Some? {
      Typing.TableRefPlansExactly(st.from.value, ctes, tableNames);
      if PlanTableRef(st.from.value, ctes, tableNames).Ok? { Typing.PlannedSchema(st.from.value, ctes, tableNames); }
    }
  }

  lemma RowsPlanExactly(st: Statement, ctes: seq<Subquery>, tableNames: map<string, nat>, id: nat)
    requires FromInScope(st, ctes) && (st.from.Some? ==> ListsMatch(st.from.value, ctes))
    ensures var s := TableSchema(st, ctes);
            && (PlanRows(st, ctes, tableNames, id).Ok? <==>
                && (st.from.Some? ==> Typing.Acceptable(st.from.value, ctes, tableNames))
                && (st.where.Some? ==> Typing.TypeIn(st.where.value, Typing.InSchema(s), false).Some?)
                && ItemsAcceptable(st, s))
            && (PlanRows(st, ctes, tableNames, id).Ok? ==>
                  PlanRows(st, ctes, tableNames, id).value.schema == OutSchema(st, s, id))
  {
    var table := PlanFrom(st.from, ctes, tableNames);
    FromPlansExactly(st, ctes, tableNames);
    if table.Ok? {
      if st.where.Some? { Typing.PlainPlansExactly(st.where.value, table.value.schema); }
      var rows := if st.where.None? then Ok(table.value) else PlanWhere(st.where.value, table.value);
      if rows.Ok? { ItemsPlanExactly(st, rows.value, id); }
    }
  }

  /** A SELECT is planned exactly when its clauses have types, its tables exist, and LIMIT is an INTEGER constant. */
  lemma SelectPlansExactly(st: Statement, ctes: seq<Subquery>, tableNames: map<string, nat>, id: nat)
    requires FromInScope(st, ctes) && (st.from.Some? ==> ListsMatch(st.from.value, ctes))
    ensures PlanSelect(st, ctes, tableNames, id).Ok? <==> SelectAcceptable(st, ctes, tableNames, id)
  {
    RowsPlanExactly(st, ctes, tableNames, id);
    var items := PlanRows(st, ctes, tableNames, id);
    if items.Ok? { KeysPlanExactly(st.sort, items.value.schema); }
  }

  // ---- optimized ----

  predicate FromPlanned(st: Statement, ctes: seq<Subquery>) {
    st.from.Some? ==> SubqueriesPlanned(st.from.value, ctes)
  }

  lemma RowsPlanned(st: Statement, ctes: seq<Subquery>, tableNames: map<string, nat>, id: nat)
    requires FromPlanned(st, ctes) && PlanRows(st, ctes, tableNames, id).Ok?
    ensures Shaped(PlanRows(st, ctes, tableNames, id).value)
  {
    var table := PlanFrom(st.from, ctes, tableNames).value;
    if st.from.Some? { TableRefPlanned(st.from.value, ctes, tableNames); }
    if st.where.Some? { WherePlanned(st.where.value, table); }
    var rows := if st.where.None? then table else PlanWhere(st.where.value, table).value;
    if Grouped(st) { AggregationPlanned(SelectAgg(st.groupBy, st.having, st.selectList), rows); }
  }

  lemma SortPlanned(keys: seq<SortKey>, child: Plan)
    requires Shaped(child) && PlanSort(keys, child).Ok?
    ensures Shaped(PlanSort(keys, child).value)
  {
    if |keys| == 1 {
      PlannedExprReads(keys[0].expr, child.schema, [], 0);
      assert keys[1..] == [];
    } else if keys != [] {
      KeysMean(keys, child.schema, [], []);
    }
  }

  /** The plan of a SELECT has the planner's shape. */
  lemma SelectPlanned(st: Statement, ctes: seq<Subquery>, tableNames: map<string, nat>, id: nat)
    requires FromPlanned(st, ctes) && PlanSelect(st, ctes, tableNames, id).Ok?
    ensures Shaped(PlanSelect(st, ctes, tableNames, id).value)
  {
    SelectParts(st, ctes, tableNames, id);
    RowsPlanned(st, ctes, tableNames, id);
    var distinct := PlanDistinct(st.distinct, PlanRows(st, ctes, tableNames, id).value);
    assert Shaped(distinct);
    SortPlanned(st.sort, distinct);
  }

  /** And so has its optimized plan, where filters meet no constant but the TRUE of a cross product. */
  lemma OptimizedSelectMeans(db: Db, st: Statement, ctes: seq<Subquery>, id: nat) returns (ordered: seq<Row>)
    requires Planable(db, st, ctes) && FromPlanned(st, ctes) && KeyNamesFaithful(db)
    requires PlanSelect(st, ctes, db.tableNames, id).Ok?
    requires WellFormed(db, PlanSelect(st, ctes, db.tableNames, id).value)
    requires var p1 := Rewrite(MergeProjection, db, PlanSelect(st, ctes, db.tableNames, id).value);
             p1.Ok? ==> TrueJoinsOnly(p1.value)
    ensures var q := OptimizeCustom(db, PlanSelect(st, ctes, db.tableNames, id).value);
            && q.Ok? && Denote(db, q.value).rows == Limited(st.limit, ordered)
            && Named(q.value.schema) == OutputNames(st, id)
    ensures multiset(ordered) == multiset(OutputRows(db, st, ctes))
    ensures InOrder(st.sort, OutputNames(st, id), ordered) && (st.sort == [] ==> ordered == OutputRows(db, st, ctes))
  {
    ordered := PlannedSelectMeans(db, st, ctes, id);
    SelectPlanned(st, ctes, db.tableNames, id);
    OptimizePlanned(db, PlanSelect(st, ctes, db.tableNames, id).value);
  }
}
