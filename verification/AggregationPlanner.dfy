/**
 Planning grouped queries. A first traversal moves the aggregate calls out of the HAVING clause and the select
 list into the planner's context; a second one plans those expressions, consuming one aggregate column per call.
 */
module AggregationPlanner {
  import opened Values
  import opened Expressions
  import opened Aggregates
  import opened Plans
  import opened BoundExprs
  import opened Seqs

  datatype SelectAgg = SelectAgg(groupBy: seq<BoundExpr>, having: Option<BoundExpr>, selectList: seq<BoundExpr>)

  function Digits(n: nat): string {
    if n < 10 then ["0123456789"[n]] else Digits(n / 10) + ["0123456789"[n % 10]]
  }

  /** The number written in decimal digits. */
  function Read(s: string): int {
    if s == [] then 0 else 10 * Read(s[..|s| - 1]) + (s[|s| - 1] as int - '0' as int)
  }

  /** Writing a number and reading it again gives the number, so that aggregate columns have names of their own. */
  lemma {:induction false} DigitsRead(n: nat)
    ensures Read(Digits(n)) == n
  {
    if n >= 10 {
      DigitsRead(n / 10);
      var high, low := Digits(n / 10), ["0123456789"[n % 10]];
      assert (high + low)[..|high|] == high;
    }
  }

  // ---- what the traversals compute ----

  /** The expression left behind when its aggregate calls are replaced by numbered stand-ins. */
  function Pseudo(e: BoundExpr, k: nat): BoundExpr {
    match e
    case AggCall(_, d, _) => AggCall("__pseudo_agg#" + Digits(k), d, [])
    case BinaryOp(op, l, r) => BinaryOp(op, Pseudo(l, k), Pseudo(r, k + |Collect(l)|))
    case Alias(a, c) => Alias(a, Pseudo(c, k))
    case _ => e
  }

  function PseudoAll(es: seq<BoundExpr>, k: nat): (r: seq<BoundExpr>)
    ensures |r| == |es|
  {
    if es == [] then [] else [Pseudo(es[0], k)] + PseudoAll(es[1..], k + |Collect(es[0])|)
  }

  /** The first `i` expressions are collected and rewritten; what is left over completes the whole. */
  ghost predicate Collected(es: seq<BoundExpr>, i: nat, was: seq<BoundExpr>, now: seq<BoundExpr>, done: seq<BoundExpr>)
    requires i <= |es|
  {
    && now + CollectAll(es[i..]) == was + CollectAll(es)
    && done + PseudoAll(es[i..], |now|) == PseudoAll(es, |was|)
  }

  lemma NoneCollected(es: seq<BoundExpr>, was: seq<BoundExpr>)
    ensures Collected(es, 0, was, was, [])
  {
    assert es[0..] == es && [] + PseudoAll(es, |was|) == PseudoAll(es, |was|);
  }

  lemma OneCollected(es: seq<BoundExpr>, i: nat, was: seq<BoundExpr>, now: seq<BoundExpr>, done: seq<BoundExpr>)
    requires i < |es| && Collected(es, i, was, now, done)
    ensures Collected(es, i + 1, was, now + Collect(es[i]), done + [Pseudo(es[i], |now|)])
  {
    TailOfAll(es, i, |now|);
    var k := |now + Collect(es[i])|;
    assert k == |now| + |Collect(es[i])|;
    Shift(now, Collect(es[i]), CollectAll(es[i + 1..]), CollectAll(es[i..]), was + CollectAll(es));
    Shift(done, [Pseudo(es[i], |now|)], PseudoAll(es[i + 1..], k), PseudoAll(es[i..], |now|), PseudoAll(es, |was|));
  }

  lemma AllCollected(es: seq<BoundExpr>, was: seq<BoundExpr>, now: seq<BoundExpr>, done: seq<BoundExpr>)
    requires Collected(es, |es|, was, now, done)
    ensures done == PseudoAll(es, |was|) && now == was + CollectAll(es)
  {
    assert es[|es|..] == [] && now + [] == now && done + [] == done;
  }

  lemma TailOfAll(es: seq<BoundExpr>, i: nat, k: nat)
    requires i < |es|
    ensures CollectAll(es[i..]) == Collect(es[i]) + CollectAll(es[i + 1..])
    ensures PseudoAll(es[i..], k) == [Pseudo(es[i], k)] + PseudoAll(es[i + 1..], k + |Collect(es[i])|)
  {
    assert es[i..][1..] == es[i + 1..];
  }

  function PlanArgs(args: seq<BoundExpr>, s: Schema): Result<seq<Expr>> {
    if args == [] then Ok([])
    else
      var p :- PlanExpr(args[0], s, [], 0);
      var rest :- PlanArgs(args[1..], s);
      Ok([p.expr] + rest)
  }

  /** A call over the table's rows: no DISTINCT, no nested aggregate, count(*) counting ones. */
  function PlanCall(call: BoundExpr, s: Schema): Result<(AggType, Expr)> {
    if !call.AggCall? || call.isDistinct then Throw
    else
      var args :- PlanArgs(call.args, s);
      var agg :- AggFromFactory(call.func, args);
      if |agg.1| > 1 then Throw
      else Ok((agg.0, if agg.1 == [] then Const(IntV(Integer, 1)) else agg.1[0]))
  }

  function PlanCalls(calls: seq<BoundExpr>, s: Schema): Result<seq<(AggType, Expr)>> {
    if calls == [] then Ok([])
    else
      var c :- PlanCall(calls[0], s);
      var rest :- PlanCalls(calls[1..], s);
      Ok([c] + rest)
  }

  /** Expressions planned in turn, each continuing where the previous one stopped consuming aggregates. */
  function PlanList(es: seq<BoundExpr>, s: Schema, slots: seq<Expr>, next: nat): Result<seq<Planned>> {
    if es == [] then Ok([])
    else
      var p :- PlanExpr(es[0], s, slots, next);
      var rest :- PlanList(es[1..], s, slots, p.next);
      Ok([p] + rest)
  }

  function Exprs(ps: seq<Planned>): (es: seq<Expr>)
    ensures |es| == |ps|
    ensures forall i :: 0 <= i < |ps| ==> es[i] == ps[i].expr
  {
    seq(|ps|, i requires 0 <= i < |ps| => ps[i].expr)
  }

  /** The k-th aggregate is read from the column after the group-by columns. */
  function Slots(groups: nat, n: nat): (es: seq<Expr>)
    ensures |es| == n
  {
    seq(n, i requires 0 <= i < n => Col(0, groups + i, Integer))
  }

  function AggSchema(groups: seq<Planned>, n: nat): (s: Schema)
    ensures |s| == |groups| + n
  {
    seq(|groups|, i requires 0 <= i < |groups| => Column(groups[i].name, ReturnType(groups[i].expr)))
    + seq(n, i requires 0 <= i < n => Column("agg#" + Digits(i), Integer))
  }

  function ItemSchema(items: seq<Planned>): (s: Schema)
    ensures |s| == |items|
  {
    seq(|items|, i requires 0 <= i < |items| => Column(items[i].name, ReturnType(items[i].expr)))
  }

  function AggNode(groups: seq<Planned>, calls: seq<(AggType, Expr)>, child: Plan): Plan {
    Plan(Aggregation(Exprs(groups),
                     seq(|calls|, i requires 0 <= i < |calls| => calls[i].1),
                     seq(|calls|, i requires 0 <= i < |calls| => calls[i].0)),
         AggSchema(groups, |calls|), [child])
  }

  function HavingCalls(having: Option<BoundExpr>): seq<BoundExpr> {
    if having.None? then [] else Collect(having.value)
  }

  predicate AllSupported(stmt: SelectAgg) {
    && (stmt.having.Some? ==> Supported(stmt.having.value))
    && forall e :: e in stmt.selectList ==> Supported(e)
  }

  /** The plan of a grouped query: Projection over Filter over Aggregation. */
  function PlanOf(stmt: SelectAgg, child: Plan): Result<Plan> {
    var groups :- PlanList(stmt.groupBy, child.schema, [], 0);
    if !AllSupported(stmt) then Throw
    else
      var calls :- PlanCalls(HavingCalls(stmt.having) + CollectAll(stmt.selectList), child.schema);
      var agg := AggNode(groups, calls, child);
      var slots := Slots(|groups|, |calls|);
      var having :- if stmt.having.None? then Ok(Planned("", Const(BoolV(true)), 0))
                    else PlanExpr(stmt.having.value, agg.schema, slots, 0);
      var items :- PlanList(stmt.selectList, agg.schema, slots, having.next);
      var below := if stmt.having.None? then agg else Plan(Filter(having.expr), agg.schema, [agg]);
      Ok(Plan(Projection(Exprs(items)), ItemSchema(items), [below]))
  }

  // ---- the planner ----

  /** Planning the stand-ins consumes aggregates exactly as planning the originals would. */
  lemma {:induction false} PseudoPlansAlike(e: BoundExpr, k: nat, s: Schema, slots: seq<Expr>, next: nat)
    ensures PlanExpr(Pseudo(e, k), s, slots, next) == PlanExpr(e, s, slots, next)
  {
    match e
    case BinaryOp(_, l, r) =>
      PseudoPlansAlike(l, k, s, slots, next);
      var pl := PlanExpr(l, s, slots, next);
      if pl.Ok? { PseudoPlansAlike(r, k + |Collect(l)|, s, slots, pl.value.next); }
    case Alias(_, c) => PseudoPlansAlike(c, k, s, slots, next);
    case _ =>
  }

  lemma {:induction false} PseudoListPlansAlike(es: seq<BoundExpr>, k: nat, s: Schema, slots: seq<Expr>, next: nat)
    ensures PlanList(PseudoAll(es, k), s, slots, next) == PlanList(es, s, slots, next)
  {
    if es != [] {
      PseudoPlansAlike(es[0], k, s, slots, next);
      var p := PlanExpr(es[0], s, slots, next);
      assert PseudoAll(es, k)[1..] == PseudoAll(es[1..], k + |Collect(es[0])|);
      if p.Ok? { PseudoListPlansAlike(es[1..], k + |Collect(es[0])|, s, slots, p.value.next); }
    }
  }

  class Planner {
    var allowAggregation: bool
    var nextAggregation: nat
    var aggregations: seq<BoundExpr>
    var exprInAgg: seq<Expr>

    constructor ()
      ensures !allowAggregation && nextAggregation == 0 && aggregations == [] && exprInAgg == []
    {
      allowAggregation, nextAggregation, aggregations, exprInAgg := false, 0, [], [];
    }

    /** Moves the expression's aggregate calls to the context, in order, and returns what is left of it. */
    method AddAggCallToContext(e: BoundExpr) returns (r: Result<BoundExpr>)
      modifies this`aggregations
      ensures r.Ok? <==> Supported(e) && (allowAggregation || Collect(e) == [])
      ensures r.Ok? ==> r.value == Pseudo(e, |old(aggregations)|) && aggregations == old(aggregations) + Collect(e)
    {
      match e
      case AggCall(_, d, _) =>
        if !allowAggregation {
          return Throw;
        }
        r := Ok(AggCall("__pseudo_agg#" + Digits(|aggregations|), d, []));
        aggregations := aggregations + [e];
      case ColumnRef(_) => r := Ok(e);
      case Constant(_) => r := Ok(e);
      case BinaryOp(op, left, right) =>
        var l := AddAggCallToContext(left);
        if l.Throw? {
          return Throw;
        }
        var right' := AddAggCallToContext(right);
        if right'.Throw? {
          return Throw;
        }
        r := Ok(BinaryOp(op, l.value, right'.value));
      case Alias(a, c) =>
        var c' := AddAggCallToContext(c);
        if c'.Throw? {
          return Throw;
        }
        r := Ok(Alias(a, c'.value));
      case Unsupported => r := Throw;
    }

    /** Plans over one child, taking one prepared column per aggregate call. */
    method PlanExpression(e: BoundExpr, s: Schema) returns (r: Result<(string, Expr)>)
      modifies this`nextAggregation
      ensures var p := PlanExpr(e, s, exprInAgg, old(nextAggregation));
              && r.Ok? == p.Ok?
              && (r.Ok? ==> r.value == (p.value.name, p.value.expr) && nextAggregation == p.value.next)
      decreases e
    {
      match e
      case AggCall(_, _, _) =>
        if nextAggregation >= |exprInAgg| {
          return Throw;
        }
        r := Ok((UNNAMED, exprInAgg[nextAggregation]));
        nextAggregation := nextAggregation + 1;
      case ColumnRef(name) =>
        var c := FindColumn(Strings.Join(name), s);
        r := if c.Ok? then Ok((Strings.Join(name), c.value)) else Throw;
      case BinaryOp(op, left, right) =>
        var l := PlanExpression(left, s);
        if l.Throw? {
          return Throw;
        }
        var right' := PlanExpression(right, s);
        if right'.Throw? {
          return Throw;
        }
        var b := BinaryFromFactory(op, l.value.1, right'.value.1);
        r := if b.Ok? then Ok((UNNAMED, b.value)) else Throw;
      case Constant(v) => r := Ok((UNNAMED, Const(v)));
      case Alias(a, c) =>
        var c' := PlanExpression(c, s);
        r := if c'.Ok? then Ok((a, c'.value.1)) else Throw;
      case Unsupported => r := Throw;
    }

    /** Plans a list in order, appending to the names and expressions planned so far. */
    method PlanAll(es: seq<BoundExpr>, s: Schema) returns (r: Result<seq<Planned>>)
      modifies this`nextAggregation
      ensures r == PlanList(es, s, exprInAgg, old(nextAggregation))
      ensures r.Ok? ==> nextAggregation == NextAfter(r.value, old(nextAggregation))
    {
      var done: seq<Planned> := [];
      var i := 0;
      PrependNothing(PlanList(es, s, exprInAgg, nextAggregation));
      assert es[0..] == es;
      while i < |es|
        invariant 0 <= i <= |es| && nextAggregation == NextAfter(done, old(nextAggregation))
        invariant PlanList(es, s, exprInAgg, old(nextAggregation)) ==
                  Prepend(done, PlanList(es[i..], s, exprInAgg, nextAggregation))
      {
        assert es[i..][1..] == es[i + 1..];
        var p := PlanExpression(es[i], s);
        if p.Throw? {
          return Throw;
        }
        var item := Planned(p.value.0, p.value.1, nextAggregation);
        PrependOne(done, item, PlanList(es[i + 1..], s, exprInAgg, nextAggregation));
        done := done + [item];
        i := i + 1;
      }
      assert done + [] == done;
      r := Ok(done);
    }

    /** Moves the aggregate calls of every item of a list to the context. */
    method AddAllToContext(es: seq<BoundExpr>) returns (r: Result<seq<BoundExpr>>)
      requires allowAggregation
      modifies this`aggregations
      ensures r.Ok? <==> forall e :: e in es ==> Supported(e)
      ensures r.Ok? ==> r.value == PseudoAll(es, |old(aggregations)|)
                        && aggregations == old(aggregations) + CollectAll(es)
    {
      var done: seq<BoundExpr> := [];
      var i := 0;
      NoneCollected(es, aggregations);
      while i < |es|
        invariant 0 <= i <= |es| && forall k :: 0 <= k < i ==> Supported(es[k])
        invariant Collected(es, i, old(aggregations), aggregations, done)
      {
        OneCollected(es, i, old(aggregations), aggregations, done);
        var e := AddAggCallToContext(es[i]);
        if e.Throw? {
          return Throw;
        }
        done := done + [e.value];
        i := i + 1;
      }
      AllCollected(es, old(aggregations), aggregations, done);
      r := Ok(done);
    }

    /** Arguments are planned in a fresh context, where no aggregate is available; the context is then restored. */
    method PlanAggCall(call: BoundExpr, s: Schema) returns (r: Result<(AggType, seq<Expr>)>)
      requires call.AggCall?
      modifies this
      ensures allowAggregation == old(allowAggregation) && nextAggregation == old(nextAggregation)
      ensures aggregations == old(aggregations) && exprInAgg == old(exprInAgg)
      ensures var args := PlanArgs(call.args, s);
              r == if call.isDistinct || args.Throw? then Throw else AggFromFactory(call.func, args.value)
    {
      if call.isDistinct {
        return Throw;
      }
      var allow, next, aggs, slots := allowAggregation, nextAggregation, aggregations, exprInAgg;
      allowAggregation, nextAggregation, aggregations, exprInAgg := false, 0, [], [];
      var exprs: seq<Expr> := [];
      var failed := false;
      var i := 0;
      PrependNothing(PlanArgs(call.args, s));
      assert call.args[0..] == call.args;
      while i < |call.args| && !failed
        invariant 0 <= i <= |call.args| && exprInAgg == []
        invariant failed ==> PlanArgs(call.args, s).Throw?
        invariant !failed ==> nextAggregation == 0
                              && PlanArgs(call.args, s) == Prepend(exprs, PlanArgs(call.args[i..], s))
        decreases |call.args| - i, !failed
      {
        assert call.args[i..][1..] == call.args[i + 1..];
        NoSlotsStay(call.args[i], s);
        var p := PlanExpression(call.args[i], s);
        if p.Throw? {
          failed := true;
        } else {
          PrependOne(exprs, p.value.1, PlanArgs(call.args[i + 1..], s));
          exprs := exprs + [p.value.1];
          i := i + 1;
        }
      }
      allowAggregation, nextAggregation, aggregations, exprInAgg := allow, next, aggs, slots;
      assert exprs + [] == exprs;
      r := if failed then Throw else AggFromFactory(call.func, exprs);
    }

    /** Phase one: plans every collected call and prepares the column it will be read from. */
    method PlanCollected(s: Schema, groups: nat) returns (r: Result<seq<(AggType, Expr)>>)
      requires exprInAgg == []
      modifies this
      ensures allowAggregation == old(allowAggregation) && nextAggregation == old(nextAggregation)
      ensures aggregations == old(aggregations)
      ensures r == PlanCalls(aggregations, s) && (r.Ok? ==> exprInAgg == Slots(groups, |r.value|))
    {
      var done: seq<(AggType, Expr)> := [];
      var termIdx := 0;
      PrependNothing(PlanCalls(aggregations, s));
      assert aggregations[0..] == aggregations;
      while termIdx < |aggregations|
        invariant 0 <= termIdx <= |aggregations| && |done| == termIdx
        invariant allowAggregation == old(allowAggregation) && nextAggregation == old(nextAggregation)
        invariant aggregations == old(aggregations) && exprInAgg == Slots(groups, termIdx)
        invariant PlanCalls(aggregations, s) == Prepend(done, PlanCalls(aggregations[termIdx..], s))
      {
        assert aggregations[termIdx..][1..] == aggregations[termIdx + 1..];
        var item := aggregations[termIdx];
        if !item.AggCall? {
          return Throw;
        }
        var call := PlanAggCall(item, s);
        if call.Throw? || |call.value.1| > 1 {
          return Throw;
        }
        var input := if call.value.1 == [] then Const(IntV(Integer, 1)) else call.value.1[0];
        PrependOne(done, (call.value.0, input), PlanCalls(aggregations[termIdx + 1..], s));
        done := done + [(call.value.0, input)];
        exprInAgg := exprInAgg + [Col(0, groups + termIdx, Integer)];
        termIdx := termIdx + 1;
        assert exprInAgg == Slots(groups, termIdx);
      }
      assert done + [] == done;
      r := Ok(done);
    }

    /** The two phases in the source's order: HAVING before the select list, both times. */
    method PlanSelectAgg(stmt: SelectAgg, child: Plan) returns (r: Result<Plan>)
      modifies this
      ensures r == PlanOf(stmt, child)
      ensures allowAggregation == old(allowAggregation) && nextAggregation == old(nextAggregation)
      ensures aggregations == old(aggregations) && exprInAgg == old(exprInAgg)
    {
      var allow, next, aggs, slots := allowAggregation, nextAggregation, aggregations, exprInAgg;
      allowAggregation, nextAggregation, aggregations, exprInAgg := true, 0, [], [];
      r := PlanInContext(stmt, child);
      allowAggregation, nextAggregation, aggregations, exprInAgg := allow, next, aggs, slots;
    }

    method PlanInContext(stmt: SelectAgg, child: Plan) returns (r: Result<Plan>)
      requires allowAggregation && nextAggregation == 0 && aggregations == [] && exprInAgg == []
      modifies this
      ensures r == PlanOf(stmt, child)
    {
      var groups := PlanAll(stmt.groupBy, child.schema);
      if groups.Throw? {
        return Throw;
      }
      NoSlotsStayList(stmt.groupBy, child.schema);
      var having := stmt.having;
      if stmt.having.Some? {
        var h := AddAggCallToContext(stmt.having.value);
        if h.Throw? {
          return Throw;
        }
        having := Some(h.value);
      }
      assert aggregations == HavingCalls(stmt.having);
      ghost var k := |aggregations|;
      var list := AddAllToContext(stmt.selectList);
      if list.Throw? {
        return Throw;
      }
      var calls := PlanCollected(child.schema, |groups.value|);
      if calls.Throw? {
        return Throw;
      }
      var plan := AggNode(groups.value, calls.value, child);
      if having.Some? {
        PseudoPlansAlike(stmt.having.value, 0, plan.schema, exprInAgg, 0);
        var h := PlanExpression(having.value, plan.schema);
        if h.Throw? {
          return Throw;
        }
        plan := Plan(Filter(h.value.1), plan.schema, [plan]);
      }
      PseudoListPlansAlike(stmt.selectList, k, plan.schema, exprInAgg, nextAggregation);
      var items := PlanAll(list.value, plan.schema);
      if items.Throw? {
        return Throw;
      }
      r := Ok(Plan(Projection(Exprs(items.value)), ItemSchema(items.value), [plan]));
    }
  }

  function Prepend<T>(xs: seq<T>, r: Result<seq<T>>): Result<seq<T>> {
    if r.Ok? then Ok(xs + r.value) else Throw
  }

  lemma PrependNothing<T>(r: Result<seq<T>>)
    ensures Prepend([], r) == r
  {
    if r.Ok? { assert [] + r.value == r.value; }
  }

  lemma PrependOne<T>(xs: seq<T>, x: T, r: Result<seq<T>>)
    ensures Prepend(xs, Prepend([x], r)) == Prepend(xs + [x], r)
  {
    if r.Ok? { assert xs + ([x] + r.value) == (xs + [x]) + r.value; }
  }

  /** With no aggregate prepared, a successful plan consumes none. */
  lemma {:induction false} NoSlotsStay(e: BoundExpr, s: Schema)
    ensures PlanExpr(e, s, [], 0).Ok? ==> PlanExpr(e, s, [], 0).value.next == 0
  {
    match e
    case BinaryOp(_, l, r) =>
      NoSlotsStay(l, s);
      NoSlotsStay(r, s);
    case Alias(_, c) => NoSlotsStay(c, s);
    case _ =>
  }

  function NextAfter(ps: seq<Planned>, start: nat): nat {
    if ps == [] then start else ps[|ps| - 1].next
  }

  lemma {:induction false} NoSlotsStayList(es: seq<BoundExpr>, s: Schema)
    ensures PlanList(es, s, [], 0).Ok? ==> forall p :: p in PlanList(es, s, [], 0).value ==> p.next == 0
  {
    if es != [] {
      NoSlotsStay(es[0], s);
      NoSlotsStayList(es[1..], s);
    }
  }
}
