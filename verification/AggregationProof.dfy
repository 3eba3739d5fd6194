/** The two-phase plan of a grouped query means direct evaluation of each group (section 7.8 of ISO/IEC 9075:1992). */
module AggregationProof {
  import opened Values
  import opened Expressions
  import opened Aggregates
  import opened Plans
  import opened PlanFacts
  import opened SqlMeaning
  import opened BoundExprs
  import opened AggregationPlanner
  import Strings

  // ---- direct evaluation ----

  /** One group: the names and values of its grouping columns, and its rows under the table's schema. */
  datatype Group = Group(names: seq<string>, key: Row, members: seq<Row>, schema: Schema)

  function IndexOf(names: seq<string>, n: string): (i: nat)
    ensures i <= |names| && (i < |names| ==> names[i] == n)
    ensures forall j :: 0 <= j < i ==> names[j] != n
  {
    if names == [] || names[0] == n then 0 else 1 + IndexOf(names[1..], n)
  }

  /** A bound expression without aggregate calls, evaluated on a row whose columns bear the schema's names. */
  function ByName(e: BoundExpr, s: Schema, row: Row): Value {
    match e
    case ColumnRef(name) => At(row, IndexOf(ColumnNames(s), Strings.Join(name)))
    case BinaryOp(op, l, r) => BinaryValue(op, ByName(l, s, row), ByName(r, s, row))
    case Constant(v) => v
    case Alias(_, c) => ByName(c, s, row)
    case _ => Null(Integer)
  }

  function ColumnNames(s: Schema): (ns: seq<string>)
    ensures |ns| == |s|
  {
    seq(|s|, i requires 0 <= i < |s| => s[i].name)
  }

  function ByNames(es: seq<BoundExpr>, s: Schema, row: Row): (r: Row)
    ensures |r| == |es|
  {
    seq(|es|, i requires 0 <= i < |es| => ByName(es[i], s, row))
  }

  /** An aggregate function folded over the values of its argument. */
  function Fold(t: AggType, vs: seq<Value>): Value {
    if vs == [] then Initial(t) else Combine(t, Fold(t, vs[..|vs| - 1]), vs[|vs| - 1])
  }

  function FunctionNamed(func: string): AggType {
    if func == "min" then Min else if func == "max" then Max else if func == "sum" then Sum else Count
  }

  function Arguments(e: BoundExpr, s: Schema, members: seq<Row>): (vs: seq<Value>)
    ensures |vs| == |members|
  {
    seq(|members|, i requires 0 <= i < |members| => ByName(e, s, members[i]))
  }

  /** A call over the rows of a group: count(*) counts them, the others fold their argument's values. */
  function CallValue(call: BoundExpr, s: Schema, members: seq<Row>): Value {
    if !call.AggCall? then Null(Integer)
    else if call.args == [] then Fold(CountStar, Arguments(Constant(IntV(Integer, 1)), s, members))
    else Fold(FunctionNamed(call.func), Arguments(call.args[0], s, members))
  }

  /** An aggregate call ranges over the group's rows; a column is the group's own value of it. */
  function Direct(e: BoundExpr, g: Group): Value {
    match e
    case AggCall(_, _, _) => CallValue(e, g.schema, g.members)
    case ColumnRef(name) => At(g.key, IndexOf(g.names, Strings.Join(name)))
    case BinaryOp(op, l, r) => BinaryValue(op, Direct(l, g), Direct(r, g))
    case Constant(v) => v
    case Alias(_, c) => Direct(c, g)
    case Unsupported => Null(Integer)
  }

  function DirectItems(es: seq<BoundExpr>, g: Group): (row: Row)
    ensures |row| == |es|
  {
    seq(|es|, i requires 0 <= i < |es| => Direct(es[i], g))
  }

  /** Groups whose HAVING condition holds, each giving one row of select-list values. */
  function DirectOut(stmt: SelectAgg, gs: seq<Group>): seq<Row> {
    if gs == [] then []
    else (if stmt.having.None? || Passes(Direct(stmt.having.value, gs[0]))
          then [DirectItems(stmt.selectList, gs[0])] else [])
         + DirectOut(stmt, gs[1..])
  }

  // ---- grouping ----

  /** The name a grouping column goes by. */
  function NameOf(e: BoundExpr): string {
    match e
    case ColumnRef(name) => Strings.Join(name)
    case Alias(a, _) => a
    case _ => UNNAMED
  }

  function NamesOf(es: seq<BoundExpr>): (ns: seq<string>)
    ensures |ns| == |es|
  {
    seq(|es|, i requires 0 <= i < |es| => NameOf(es[i]))
  }

  function RowKeys(groupBy: seq<BoundExpr>, s: Schema, rows: seq<Row>): (ks: seq<Row>)
    ensures |ks| == |rows|
  {
    seq(|rows|, i requires 0 <= i < |rows| => ByNames(groupBy, s, rows[i]))
  }

  /** The distinct keys in order of first appearance. */
  function FirstSeen(keys: seq<Row>): seq<Row> {
    if keys == [] then []
    else
      var before, last := FirstSeen(keys[..|keys| - 1]), keys[|keys| - 1];
      if last in before then before else before + [last]
  }

  function MembersOf(keys: seq<Row>, rows: seq<Row>, key: Row): seq<Row>
    requires |keys| == |rows|
  {
    if keys == [] then [] else (if keys[0] == key then [rows[0]] else []) + MembersOf(keys[1..], rows[1..], key)
  }

  /** The groups of a query: one for each grouping key, or a single one without GROUP BY, even over no rows. */
  function QueryGroups(groupBy: seq<BoundExpr>, s: Schema, rows: seq<Row>): (gs: seq<Group>) {
    var keys := RowKeys(groupBy, s, rows);
    var seen := if groupBy == [] then [[]] else FirstSeen(keys);
    seq(|seen|, i requires 0 <= i < |seen| => Group(NamesOf(groupBy), seen[i], MembersOf(keys, rows, seen[i]), s))
  }

  // ---- names ----

  /** Bound columns are always written with at least one dot. */
  predicate Qualified(e: BoundExpr) {
    match e
    case ColumnRef(name) => '.' in Strings.Join(name)
    case BinaryOp(_, l, r) => Qualified(l) && Qualified(r)
    case Alias(_, c) => Qualified(c)
    case _ => true
  }

  lemma {:induction false} DigitsHaveNoDot(n: nat)
    ensures '.' !in Digits(n)
  {
    if n >= 10 { DigitsHaveNoDot(n / 10); }
  }

  lemma AggNameHasNoDot(i: nat)
    ensures '.' !in "agg#" + Digits(i)
  {
    DigitsHaveNoDot(i);
  }

  // ---- one expression ----

  /** The calls a traversal is about to consume are the ones it will meet. */
  predicate Upcoming(calls: seq<BoundExpr>, next: nat, e: BoundExpr) {
    next + |Collect(e)| <= |calls| && calls[next..next + |Collect(e)|] == Collect(e)
  }

  /** The aggregation's output row for a group: its key, then the value of every collected call. */
  function OutRow(calls: seq<BoundExpr>, g: Group): Row {
    g.key + seq(|calls|, i requires 0 <= i < |calls| => CallValue(calls[i], g.schema, g.members))
  }

  predicate NamedBy(g: Group, groups: seq<Planned>) {
    && |g.key| == |g.names| == |groups|
    && forall i :: 0 <= i < |groups| ==> g.names[i] == groups[i].name
  }

  lemma ColumnMeansKey(name: string, groups: seq<Planned>, n: nat, g: Group, rest: Row)
    requires '.' in name && NamedBy(g, groups) && PlanColumn(name, AggSchema(groups, n)).Ok?
    ensures Eval(PlanColumn(name, AggSchema(groups, n)).value, g.key + rest) == At(g.key, IndexOf(g.names, name))
  {
    var s := AggSchema(groups, n);
    FirstNamedFound(s, name);
    var i := FirstNamed(s, name);
    if i >= |groups| { AggNameHasNoDot(i - |groups|); }
    assert forall j :: 0 <= j < |groups| ==> s[j].name == g.names[j];
    var k := IndexOf(g.names, name);
    assert g.names[i] == name;
    assert s[k].name == name;
  }

  /** What a binary expression computes from the values of its operands. */
  function Combined(e: Expr, x: Value, y: Value): Value {
    match e
    case Cmp(op, _, _) => BoolValue(DoCmp(op, x, y))
    case Arith(op, _, _) => DoArith(op, x, y)
    case Logic(op, _, _) => BoolValue(DoLogic(op, AsCmpBool(x), AsCmpBool(y)))
    case _ => Null(Integer)
  }

  /** The expression made for an operator text computes what the text says. */
  lemma OperatorMeans(op: string, l: Expr, r: Expr, x: Value, y: Value)
    requires BinaryFromFactory(op, l, r).Ok?
    ensures Combined(BinaryFromFactory(op, l, r).value, x, y) == BinaryValue(op, x, y)
  {
    if ComparisonOf(op).Some? {
      CompareMeans(x, y);
    } else if op == "+" || op == "-" {
      ArithmeticMeans(if op == "+" then Plus else Minus, x, y);
    } else {
      LogicMeans(if op == "and" then And else Or, x, y);
    }
  }

  lemma FactoryMeans(op: string, l: Expr, r: Expr, row: Row)
    requires BinaryFromFactory(op, l, r).Ok?
    ensures Eval(BinaryFromFactory(op, l, r).value, row) == BinaryValue(op, Eval(l, row), Eval(r, row))
  {
    OperatorMeans(op, l, r, Eval(l, row), Eval(r, row));
    assert Eval(BinaryFromFactory(op, l, r).value, row) ==
           Combined(BinaryFromFactory(op, l, r).value, Eval(l, row), Eval(r, row));
  }

  /** Planning consumes as many aggregates as collecting found. */
  lemma {:induction false} ConsumesCollected(e: BoundExpr, s: Schema, slots: seq<Expr>, next: nat)
    requires PlanExpr(e, s, slots, next).Ok?
    ensures PlanExpr(e, s, slots, next).value.next == next + |Collect(e)|
  {
    match e
    case BinaryOp(_, l, r) =>
      ConsumesCollected(l, s, slots, next);
      ConsumesCollected(r, s, slots, next + |Collect(l)|);
    case Alias(_, c) => ConsumesCollected(c, s, slots, next);
    case _ =>
  }

  lemma UpcomingParts(calls: seq<BoundExpr>, next: nat, a: seq<BoundExpr>, b: seq<BoundExpr>)
    requires next + |a + b| <= |calls| && calls[next..next + |a + b|] == a + b
    ensures calls[next..next + |a|] == a && calls[next + |a|..next + |a| + |b|] == b
  {
    var both := calls[next..next + |a + b|];
    assert both[..|a|] == a && both[|a|..] == b;
  }

  /** A planned expression over the aggregation's output means the original over the group. */
  lemma {:induction false} PlannedMeansDirect(e: BoundExpr, groups: seq<Planned>, calls: seq<BoundExpr>, next: nat,
                                              g: Group)
    requires NamedBy(g, groups) && Qualified(e) && Upcoming(calls, next, e)
    requires PlanExpr(e, AggSchema(groups, |calls|), Slots(|groups|, |calls|), next).Ok?
    ensures var p := PlanExpr(e, AggSchema(groups, |calls|), Slots(|groups|, |calls|), next).value;
            Eval(p.expr, OutRow(calls, g)) == Direct(e, g)
  {
    var s, slots, row := AggSchema(groups, |calls|), Slots(|groups|, |calls|), OutRow(calls, g);
    match e
    case AggCall(_, _, _) => assert calls[next..next + 1][0] == e;
    case ColumnRef(name) => ColumnMeansKey(Strings.Join(name), groups, |calls|, g, row[|g.key|..]);
                            assert row == g.key + row[|g.key|..];
    case BinaryOp(op, l, r) =>
      UpcomingParts(calls, next, Collect(l), Collect(r));
      var pl := PlanExpr(l, s, slots, next).value;
      ConsumesCollected(l, s, slots, next);
      PlannedMeansDirect(l, groups, calls, next, g);
      PlannedMeansDirect(r, groups, calls, pl.next, g);
      FactoryMeans(op, pl.expr, PlanExpr(r, s, slots, pl.next).value.expr, row);
    case Alias(_, c) => PlannedMeansDirect(c, groups, calls, next, g);
    case _ =>
  }

  // ---- the select list ----

  predicate UpcomingAll(calls: seq<BoundExpr>, next: nat, es: seq<BoundExpr>) {
    next + |CollectAll(es)| <= |calls| && calls[next..next + |CollectAll(es)|] == CollectAll(es)
  }

  /** The list's aggregates are consumed in order, none left over and none missing. */
  lemma {:induction false} ListConsumesCollected(es: seq<BoundExpr>, s: Schema, slots: seq<Expr>, next: nat)
    requires PlanList(es, s, slots, next).Ok?
    ensures var ps := PlanList(es, s, slots, next).value;
            |ps| == |es| && NextAfter(ps, next) == next + |CollectAll(es)|
  {
    if es != [] {
      ConsumesCollected(es[0], s, slots, next);
      ListConsumesCollected(es[1..], s, slots, PlanExpr(es[0], s, slots, next).value.next);
    }
  }

  lemma {:induction false} ListMeansDirect(es: seq<BoundExpr>, groups: seq<Planned>, calls: seq<BoundExpr>, next: nat,
                                           g: Group)
    requires NamedBy(g, groups) && (forall e :: e in es ==> Qualified(e)) && UpcomingAll(calls, next, es)
    requires PlanList(es, AggSchema(groups, |calls|), Slots(|groups|, |calls|), next).Ok?
    ensures var ps := PlanList(es, AggSchema(groups, |calls|), Slots(|groups|, |calls|), next).value;
            |ps| == |es| && EvalRow(Exprs(ps), OutRow(calls, g)) == DirectItems(es, g)
  {
    var s, slots, row := AggSchema(groups, |calls|), Slots(|groups|, |calls|), OutRow(calls, g);
    if es != [] {
      UpcomingParts(calls, next, Collect(es[0]), CollectAll(es[1..]));
      var p := PlanExpr(es[0], s, slots, next).value;
      ConsumesCollected(es[0], s, slots, next);
      PlannedMeansDirect(es[0], groups, calls, next, g);
      ListMeansDirect(es[1..], groups, calls, p.next, g);
      var ps, rest := PlanList(es, s, slots, next).value, PlanList(es[1..], s, slots, p.next).value;
      assert ps == [p] + rest;
      assert EvalRow(Exprs(ps), row) == [Eval(p.expr, row)] + EvalRow(Exprs(rest), row);
      assert DirectItems(es, g) == [Direct(es[0], g)] + DirectItems(es[1..], g);
    }
  }

  // ---- arguments and grouping keys ----

  lemma ColumnByName(name: string, s: Schema, row: Row)
    requires PlanColumn(name, s).Ok?
    ensures Eval(PlanColumn(name, s).value, row) == At(row, IndexOf(ColumnNames(s), name))
  {
    FirstNamedFound(s, name);
    var i, j := FirstNamed(s, name), IndexOf(ColumnNames(s), name);
    assert ColumnNames(s)[i] == name;
    assert j < |s| ==> s[j].name == name;
  }

  /** Planned over the table's rows, where no aggregate is available, an expression means itself by column name. */
  lemma {:induction false} PlannedMeansByName(e: BoundExpr, s: Schema, next: nat, row: Row)
    requires PlanExpr(e, s, [], next).Ok?
    ensures Eval(PlanExpr(e, s, [], next).value.expr, row) == ByName(e, s, row)
    ensures PlanExpr(e, s, [], next).value.name == NameOf(e)
  {
    match e
    case ColumnRef(name) => ColumnByName(Strings.Join(name), s, row);
    case BinaryOp(op, l, r) =>
      var pl := PlanExpr(l, s, [], next).value;
      PlannedMeansByName(l, s, next, row);
      PlannedMeansByName(r, s, pl.next, row);
      FactoryMeans(op, pl.expr, PlanExpr(r, s, [], pl.next).value.expr, row);
    case Alias(_, c) => PlannedMeansByName(c, s, next, row);
    case _ =>
  }

  lemma {:induction false} AggregateFolds(t: AggType, arg: Expr, rows: seq<Row>, vs: seq<Value>)
    requires |vs| == |rows| && forall i :: 0 <= i < |rows| ==> Eval(arg, rows[i]) == vs[i]
    ensures Aggregate(t, arg, rows) == Fold(t, vs)
  {
    if rows != [] { AggregateFolds(t, arg, rows[..|rows| - 1], vs[..|vs| - 1]); }
  }

  /** A planned call computes the call's value. */
  lemma PlannedCallMeans(call: BoundExpr, s: Schema, members: seq<Row>)
    requires PlanCall(call, s).Ok?
    ensures Aggregate(PlanCall(call, s).value.0, PlanCall(call, s).value.1, members) == CallValue(call, s, members)
  {
    var (t, arg) := PlanCall(call, s).value;
    if call.args == [] {
      AggregateFolds(t, arg, members, Arguments(Constant(IntV(Integer, 1)), s, members));
    } else {
      OneArgument(call, s);
      forall i | 0 <= i < |members| ensures Eval(arg, members[i]) == Arguments(call.args[0], s, members)[i] {
        PlannedMeansByName(call.args[0], s, 0, members[i]);
      }
      AggregateFolds(t, arg, members, Arguments(call.args[0], s, members));
    }
  }

  lemma OneArgument(call: BoundExpr, s: Schema)
    requires PlanCall(call, s).Ok? && call.args != []
    ensures PlanExpr(call.args[0], s, [], 0).Ok?
    ensures PlanCall(call, s).value == (FunctionNamed(call.func), PlanExpr(call.args[0], s, [], 0).value.expr)
  {
    var args := PlanArgs(call.args, s).value;
    assert args[0] == PlanExpr(call.args[0], s, [], 0).value.expr;
  }

  lemma {:induction false} KeysMeanByName(es: seq<BoundExpr>, s: Schema, next: nat, row: Row)
    requires PlanList(es, s, [], next).Ok?
    ensures var ps := PlanList(es, s, [], next).value;
            && |ps| == |es| && EvalRow(Exprs(ps), row) == ByNames(es, s, row)
            && forall i :: 0 <= i < |ps| ==> ps[i].name == NamesOf(es)[i]
  {
    if es != [] {
      PlannedMeansByName(es[0], s, next, row);
      var p := PlanExpr(es[0], s, [], next).value;
      KeysMeanByName(es[1..], s, p.next, row);
      var ps, rest := PlanList(es, s, [], next).value, PlanList(es[1..], s, [], p.next).value;
      assert ps == [p] + rest;
      assert EvalRow(Exprs(ps), row) == [Eval(p.expr, row)] + EvalRow(Exprs(rest), row);
      assert ByNames(es, s, row) == [ByName(es[0], s, row)] + ByNames(es[1..], s, row);
      assert NamesOf(es) == [NameOf(es[0])] + NamesOf(es[1..]);
    }
  }

  lemma {:induction false} SameKeys(es: seq<Expr>, rows: seq<Row>, keys: seq<Row>)
    requires |keys| == |rows| && forall i :: 0 <= i < |rows| ==> EvalRow(es, rows[i]) == keys[i]
    ensures GroupKeys(es, rows) == FirstSeen(keys)
  {
    if rows != [] { SameKeys(es, rows[..|rows| - 1], keys[..|keys| - 1]); }
  }

  lemma {:induction false} SameMembers(es: seq<Expr>, rows: seq<Row>, keys: seq<Row>, key: Row)
    requires |keys| == |rows| && forall i :: 0 <= i < |rows| ==> EvalRow(es, rows[i]) == keys[i]
    ensures GroupRows(es, key, rows) == MembersOf(keys, rows, key)
  {
    if rows != [] { SameMembers(es, rows[1..], keys[1..], key); }
  }

  /** The keys of the rows, planned and by name. */
  lemma PlannedKeys(groupBy: seq<BoundExpr>, s: Schema, rows: seq<Row>)
    requires PlanList(groupBy, s, [], 0).Ok?
    ensures var groups := PlanList(groupBy, s, [], 0).value;
            && |groups| == |groupBy|
            && (forall j :: 0 <= j < |groups| ==> groups[j].name == NamesOf(groupBy)[j])
            && (forall i :: 0 <= i < |rows| ==> EvalRow(Exprs(groups), rows[i]) == RowKeys(groupBy, s, rows)[i])
  {
    KeysMeanByName(groupBy, s, 0, []);
    forall i | 0 <= i < |rows|
      ensures EvalRow(Exprs(PlanList(groupBy, s, [], 0).value), rows[i]) == RowKeys(groupBy, s, rows)[i]
    {
      KeysMeanByName(groupBy, s, 0, rows[i]);
    }
  }

  lemma {:induction false} SeenWidth(keys: seq<Row>, n: nat)
    requires forall i :: 0 <= i < |keys| ==> |keys[i]| == n
    ensures forall i :: 0 <= i < |FirstSeen(keys)| ==> |FirstSeen(keys)[i]| == n
  {
    if keys != [] { SeenWidth(keys[..|keys| - 1], n); }
  }

  lemma GroupNamed(groupBy: seq<BoundExpr>, s: Schema, rows: seq<Row>, groups: seq<Planned>, i: nat)
    requires |groups| == |groupBy| && i < |QueryGroups(groupBy, s, rows)|
    requires forall j :: 0 <= j < |groups| ==> groups[j].name == NamesOf(groupBy)[j]
    ensures NamedBy(QueryGroups(groupBy, s, rows)[i], groups)
  {
    var keys := RowKeys(groupBy, s, rows);
    SeenWidth(keys, |groupBy|);
    var g := QueryGroups(groupBy, s, rows)[i];
    assert g.names == NamesOf(groupBy);
    if groupBy == [] {
      assert g.key == [];
    } else {
      assert g.key == FirstSeen(keys)[i] && |FirstSeen(keys)[i]| == |groupBy|;
    }
  }

  /** The planned grouping keys group the rows as the grouping expressions do, and go by their names. */
  lemma PlannedGroups(groupBy: seq<BoundExpr>, s: Schema, rows: seq<Row>)
    requires PlanList(groupBy, s, [], 0).Ok?
    ensures var groups := PlanList(groupBy, s, [], 0).value;
            var es, gs := Exprs(groups), QueryGroups(groupBy, s, rows);
            && |groups| == |groupBy| && |gs| == |Groups(es, rows)|
            && forall i :: 0 <= i < |gs| ==>
                 && gs[i].key == Groups(es, rows)[i] && gs[i].members == GroupRows(es, gs[i].key, rows)
                 && gs[i].schema == s && NamedBy(gs[i], groups)
  {
    var groups := PlanList(groupBy, s, [], 0).value;
    PlannedKeys(groupBy, s, rows);
    SameKeys(Exprs(groups), rows, RowKeys(groupBy, s, rows));
    var gs := QueryGroups(groupBy, s, rows);
    forall i | 0 <= i < |gs|
      ensures gs[i].members == GroupRows(Exprs(groups), gs[i].key, rows) && NamedBy(gs[i], groups)
    {
      SameMembers(Exprs(groups), rows, RowKeys(groupBy, s, rows), gs[i].key);
      GroupNamed(groupBy, s, rows, groups, i);
    }
    assert groupBy == [] <==> Exprs(groups) == [];
  }

  // ---- the whole plan ----

  lemma {:induction false} CallsPlanned(calls: seq<BoundExpr>, s: Schema)
    requires PlanCalls(calls, s).Ok?
    ensures |PlanCalls(calls, s).value| == |calls|
    ensures forall i :: 0 <= i < |calls| ==> PlanCall(calls[i], s) == Ok(PlanCalls(calls, s).value[i])
  {
    if calls != [] { CallsPlanned(calls[1..], s); }
  }

  /** The aggregation node outputs, for each group in order, its key and the value of every collected call. */
  lemma AggNodeRows(db: Db, groupBy: seq<BoundExpr>, calls: seq<BoundExpr>, child: Plan)
    requires PlanList(groupBy, child.schema, [], 0).Ok? && PlanCalls(calls, child.schema).Ok?
    ensures var groups := PlanList(groupBy, child.schema, [], 0).value;
            var rows := Denote(db, AggNode(groups, PlanCalls(calls, child.schema).value, child)).rows;
            var gs := QueryGroups(groupBy, child.schema, Denote(db, child).rows);
            |rows| == |gs| && forall i :: 0 <= i < |gs| ==> rows[i] == OutRow(calls, gs[i])
  {
    var groups := PlanList(groupBy, child.schema, [], 0).value;
    var planned := PlanCalls(calls, child.schema).value;
    var node, rows := AggNode(groups, planned, child), Denote(db, child).rows;
    var gs := QueryGroups(groupBy, child.schema, rows);
    CallsPlanned(calls, child.schema);
    PlannedGroups(groupBy, child.schema, rows);
    Unary(db, node);
    assert Denote(db, node).rows == AggRows(Exprs(groups), node.op.aggs, node.op.aggTypes, rows);
    forall i | 0 <= i < |gs| ensures Denote(db, node).rows[i] == OutRow(calls, gs[i]) {
      OutputRow(Exprs(groups), planned, calls, gs[i], rows);
    }
  }

  lemma OutputRow(es: seq<Expr>, planned: seq<(AggType, Expr)>, calls: seq<BoundExpr>, g: Group, rows: seq<Row>)
    requires |planned| == |calls| && g.members == GroupRows(es, g.key, rows)
    requires forall k :: 0 <= k < |calls| ==> PlanCall(calls[k], g.schema) == Ok(planned[k])
    ensures GroupOutput(es, seq(|planned|, i requires 0 <= i < |planned| => planned[i].1),
                        seq(|planned|, i requires 0 <= i < |planned| => planned[i].0), g.key, rows) == OutRow(calls, g)
  {
    forall k | 0 <= k < |calls|
      ensures Aggregate(planned[k].0, planned[k].1, g.members) == CallValue(calls[k], g.schema, g.members)
    {
      PlannedCallMeans(calls[k], g.schema, g.members);
    }
  }

  function KeepIf(having: Option<Expr>, rows: seq<Row>): seq<Row> {
    if having.None? then rows else FilterRows(having.value, rows)
  }

  lemma KeepFirst(having: Option<Expr>, es: seq<Expr>, rows: seq<Row>)
    requires rows != []
    ensures MapRows(es, KeepIf(having, rows)) ==
            (if having.None? || Passes(Eval(having.value, rows[0])) then [EvalRow(es, rows[0])] else [])
            + MapRows(es, KeepIf(having, rows[1..]))
  {
    var rest := KeepIf(having, rows[1..]);
    if having.None? || Passes(Eval(having.value, rows[0])) {
      assert KeepIf(having, rows) == [rows[0]] + rest;
      MapFirst(es, rows[0], rest);
    } else {
      assert KeepIf(having, rows) == [] + rest == rest;
    }
  }

  lemma MapFirst(es: seq<Expr>, r: Row, rest: seq<Row>)
    ensures MapRows(es, [r] + rest) == [EvalRow(es, r)] + MapRows(es, rest)
  {}

  lemma {:induction false} RowByRow(stmt: SelectAgg, having: Option<Expr>, es: seq<Expr>, rows: seq<Row>,
                                    gs: seq<Group>)
    requires |rows| == |gs| && having.Some? == stmt.having.Some?
    requires having.Some? ==>
               forall i :: 0 <= i < |gs| ==> Eval(having.value, rows[i]) == Direct(stmt.having.value, gs[i])
    requires forall i :: 0 <= i < |gs| ==> EvalRow(es, rows[i]) == DirectItems(stmt.selectList, gs[i])
    ensures MapRows(es, KeepIf(having, rows)) == DirectOut(stmt, gs)
  {
    if gs != [] {
      RowByRow(stmt, having, es, rows[1..], gs[1..]);
      KeepFirst(having, es, rows);
    }
  }

  predicate AllQualified(stmt: SelectAgg) {
    && (stmt.having.Some? ==> Qualified(stmt.having.value))
    && forall e :: e in stmt.selectList ==> Qualified(e)
  }

  function AllCalls(stmt: SelectAgg): seq<BoundExpr> {
    HavingCalls(stmt.having) + CollectAll(stmt.selectList)
  }

  /** Phase two on one group: the planned HAVING and select list mean the originals. */
  lemma GroupMeansDirect(stmt: SelectAgg, groups: seq<Planned>, g: Group)
    requires NamedBy(g, groups) && AllQualified(stmt)
    requires var calls := AllCalls(stmt); var s, slots := AggSchema(groups, |calls|), Slots(|groups|, |calls|);
             && (stmt.having.Some? ==> PlanExpr(stmt.having.value, s, slots, 0).Ok?)
             && PlanList(stmt.selectList, s, slots, |HavingCalls(stmt.having)|).Ok?
    ensures var calls := AllCalls(stmt); var s, slots := AggSchema(groups, |calls|), Slots(|groups|, |calls|);
            && (stmt.having.Some? ==>
                  Eval(PlanExpr(stmt.having.value, s, slots, 0).value.expr, OutRow(calls, g))
                  == Direct(stmt.having.value, g))
            && EvalRow(Exprs(PlanList(stmt.selectList, s, slots, |HavingCalls(stmt.having)|).value), OutRow(calls, g))
               == DirectItems(stmt.selectList, g)
  {
    var calls, h := AllCalls(stmt), HavingCalls(stmt.having);
    assert calls[..|h|] == h && calls[|h|..] == CollectAll(stmt.selectList);
    if stmt.having.Some? { PlannedMeansDirect(stmt.having.value, groups, calls, 0, g); }
    ListMeansDirect(stmt.selectList, groups, calls, |h|, g);
  }

  /** What planning succeeded with. */
  lemma PlanParts(stmt: SelectAgg, child: Plan)
    returns (groups: seq<Planned>, planned: seq<(AggType, Expr)>, having: Option<Expr>, items: seq<Planned>)
    requires PlanOf(stmt, child).Ok?
    ensures PlanList(stmt.groupBy, child.schema, [], 0) == Ok(groups)
    ensures PlanCalls(AllCalls(stmt), child.schema) == Ok(planned) && |planned| == |AllCalls(stmt)|
    ensures var calls := AllCalls(stmt); var s, slots := AggSchema(groups, |calls|), Slots(|groups|, |calls|);
            && having.Some? == stmt.having.Some?
            && (stmt.having.Some? ==> PlanExpr(stmt.having.value, s, slots, 0).Ok?
                                      && PlanExpr(stmt.having.value, s, slots, 0).value.expr == having.value)
            && PlanList(stmt.selectList, s, slots, |HavingCalls(stmt.having)|) == Ok(items)
    ensures var agg := AggNode(groups, planned, child);
            PlanOf(stmt, child).value ==
            Plan(Projection(Exprs(items)), ItemSchema(items),
                 [if having.None? then agg else Plan(Filter(having.value), agg.schema, [agg])])
  {
    groups := PlanList(stmt.groupBy, child.schema, [], 0).value;
    var calls := AllCalls(stmt);
    planned := PlanCalls(calls, child.schema).value;
    CallsPlanned(calls, child.schema);
    var s, slots := AggSchema(groups, |calls|), Slots(|groups|, |calls|);
    having := None;
    if stmt.having.Some? {
      ConsumesCollected(stmt.having.value, s, slots, 0);
      having := Some(PlanExpr(stmt.having.value, s, slots, 0).value.expr);
    }
    items := PlanList(stmt.selectList, s, slots, |HavingCalls(stmt.having)|).value;
  }

  lemma PlanRows(db: Db, agg: Plan, having: Option<Expr>, items: seq<Planned>)
    ensures var below := if having.None? then agg else Plan(Filter(having.value), agg.schema, [agg]);
            Denote(db, Plan(Projection(Exprs(items)), ItemSchema(items), [below])).rows
            == MapRows(Exprs(items), KeepIf(having, Denote(db, agg).rows))
  {
    var below := if having.None? then agg else Plan(Filter(having.value), agg.schema, [agg]);
    Unary(db, Plan(Projection(Exprs(items)), ItemSchema(items), [below]));
    if having.Some? { Unary(db, below); }
  }

  /** Projection over Filter over Aggregation yields exactly the directly evaluated rows, in order. */
  lemma TwoPhasePlanMeansDirect(db: Db, stmt: SelectAgg, child: Plan)
    requires PlanOf(stmt, child).Ok? && AllQualified(stmt)
    ensures Denote(db, PlanOf(stmt, child).value).rows ==
            DirectOut(stmt, QueryGroups(stmt.groupBy, child.schema, Denote(db, child).rows))
  {
    var groups, planned, having, items := PlanParts(stmt, child);
    var calls, rows := AllCalls(stmt), Denote(db, child).rows;
    var agg, gs := AggNode(groups, planned, child), QueryGroups(stmt.groupBy, child.schema, rows);
    AggNodeRows(db, stmt.groupBy, calls, child);
    PlannedGroups(stmt.groupBy, child.schema, rows);
    var out := Denote(db, agg).rows;
    forall i | 0 <= i < |gs|
      ensures having.Some? ==> Eval(having.value, out[i]) == Direct(stmt.having.value, gs[i])
      ensures EvalRow(Exprs(items), out[i]) == DirectItems(stmt.selectList, gs[i])
    {
      GroupMeansDirect(stmt, groups, gs[i]);
    }
    RowByRow(stmt, having, Exprs(items), out, gs);
    PlanRows(db, agg, having, items);
  }
}
