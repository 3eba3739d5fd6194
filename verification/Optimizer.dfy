/**
 The optimizer passes. Every pass rebuilds the plan bottom-up and then applies one rule at the
 rebuilt node; `Rewrite` is that shared recursion and `ApplyRule` the rules.
 */
module Optimizer {
  import opened Values
  import opened Expressions
  import opened Plans
  import Strings

  datatype Rule =
    | MergeProjection
    | MergeFilterNlj
    | NljAsIndexJoin
    | NljAsHashJoin
    | OrderByAsIndexScan
    | SortLimitAsTopN
    | MergeFilterScan
    | EliminateTrueFilter

  function Rewrite(rule: Rule, db: Db, p: Plan): Result<Plan>
    decreases p, 1
  {
    var cs :- RewriteAll(rule, db, p.children);
    ApplyRule(rule, db, p.(children := cs))
  }

  function RewriteAll(rule: Rule, db: Db, ps: seq<Plan>): Result<seq<Plan>>
    decreases ps, 0
  {
    if ps == [] then Ok([])
    else
      var head :- Rewrite(rule, db, ps[0]);
      var tail :- RewriteAll(rule, db, ps[1..]);
      Ok([head] + tail)
  }

  function ApplyRule(rule: Rule, db: Db, p: Plan): Result<Plan> {
    match rule
    case MergeProjection => MergeProjectionAt(p)
    case MergeFilterNlj => MergeFilterNljAt(p)
    case NljAsIndexJoin => NljAsIndexJoinAt(db, p)
    case NljAsHashJoin => NljAsHashJoinAt(p)
    case OrderByAsIndexScan => OrderByAsIndexScanAt(db, p)
    case SortLimitAsTopN => Ok(p)
    case MergeFilterScan => MergeFilterScanAt(p)
    case EliminateTrueFilter => EliminateTrueFilterAt(p)
  }

  /** The default pass order; the starter order is the same list. */
  function OptimizeCustom(db: Db, p: Plan): Result<Plan> {
    var p1 :- Rewrite(MergeProjection, db, p);
    var p2 :- Rewrite(MergeFilterNlj, db, p1);
    var p3 :- Rewrite(NljAsIndexJoin, db, p2);
    var p4 :- Rewrite(OrderByAsIndexScan, db, p3);
    Rewrite(SortLimitAsTopN, db, p4)
  }

  // ---- identity projections ----

  predicate IdentityExprs(es: seq<Expr>) {
    forall i :: 0 <= i < |es| ==> es[i].Col? && es[i].tupleIdx == 0 && es[i].colIdx == i
  }

  method TestIdentity(es: seq<Expr>) returns (isIdentical: bool)
    ensures isIdentical <==> IdentityExprs(es)
  {
    isIdentical := true;
    for idx := 0 to |es|
      invariant isIdentical && IdentityExprs(es[..idx])
    {
      if es[idx].Col? {
        if es[idx].tupleIdx == 0 && es[idx].colIdx == idx {
          continue;
        }
      }
      return false;
    }
    assert es[..|es|] == es;
  }

  /** The projection only renames: same column types as its child, and column i is its child's column i. */
  predicate IsIdentity(p: Plan) {
    p.op.Projection? && |p.children| == 1 &&
    Types(p.children[0].schema) == Types(p.schema) && IdentityExprs(p.op.exprs)
  }

  function MergeProjectionAt(p: Plan): Result<Plan> {
    if p.op.Projection? && |p.children| != 1 then Throw
    else if IsIdentity(p) then Ok(p.children[0].(schema := p.schema))
    else Ok(p)
  }

  // ---- filters over joins ----

  function RewriteExpressionForJoin(e: Expr, lc: nat, rc: nat): Result<Expr> {
    match e
    case Col(t, i, ty) =>
      if t != 0 then Throw
      else if i < lc then Ok(Col(0, i, ty))
      else if i < lc + rc then Ok(Col(1, i - lc, ty))
      else Throw
    case Const(_) => Ok(e)
    case Cmp(op, l, r) =>
      var l' :- RewriteExpressionForJoin(l, lc, rc);
      var r' :- RewriteExpressionForJoin(r, lc, rc);
      Ok(Cmp(op, l', r'))
    case Arith(op, l, r) =>
      var l' :- RewriteExpressionForJoin(l, lc, rc);
      var r' :- RewriteExpressionForJoin(r, lc, rc);
      Ok(Arith(op, l', r'))
    case Logic(op, l, r) =>
      var l' :- RewriteExpressionForJoin(l, lc, rc);
      var r' :- RewriteExpressionForJoin(r, lc, rc);
      Ok(Logic(op, l', r'))
  }

  /** Casting to BOOLEAN and reading the byte: a null BOOLEAN's marker byte reads as true, integers do not cast. */
  function CastToBool(v: Value): Result<bool> {
    match v
    case BoolV(b) => Ok(b)
    case Null(ty) => if ty == Boolean then Ok(true) else Throw
    case IntV(_, _) => Throw
    case StrV(s) =>
      var t := Strings.Lower(s);
      if t == "true" || t == "1" || t == "t" then Ok(true)
      else if t == "false" || t == "0" || t == "f" then Ok(false)
      else Throw
  }

  function IsPredicateTrue(e: Expr): Result<bool> {
    if e.Const? then CastToBool(e.val) else Ok(false)
  }

  predicate FilterOverNlj(p: Plan) {
    p.op.Filter? && |p.children| == 1 && p.children[0].op.Nlj? && |p.children[0].children| == 2
  }

  function MergeFilterNljAt(p: Plan): Result<Plan> {
    if !p.op.Filter? then Ok(p)
    else if |p.children| != 1 then Throw
    else
      var nlj := p.children[0];
      if !nlj.op.Nlj? then Ok(p)
      else if |nlj.children| != 2 then Throw
      else
        var alwaysTrue :- IsPredicateTrue(nlj.op.pred);
        if !alwaysTrue then Ok(p)
        else
          var pred :- RewriteExpressionForJoin(p.op.pred, |nlj.children[0].schema|, |nlj.children[1].schema|);
          Ok(Plan(Nlj(pred, nlj.op.joinType), p.schema, nlj.children))
  }

  // ---- joins through an index or a hash table ----

  function GetTableIndexes(db: Db, tableName: string): seq<nat> {
    if tableName in db.tableNames && tableName in db.tableIndexes then db.tableIndexes[tableName] else []
  }

  /** The first listed index whose key is exactly the given column. */
  function MatchIndex(db: Db, ids: seq<nat>, col: nat): Option<nat> {
    if ids == [] then None
    else if ids[0] in db.indexes && db.indexes[ids[0]].keyAttrs == [col] then Some(ids[0])
    else MatchIndex(db, ids[1..], col)
  }

  /** The predicate of a join, if it is an equation of a left column and a right column, in either order. */
  function EquiKeys(e: Expr): Option<(Expr, Expr)> {
    if e.Cmp? && e.cmpOp == Equal && e.left.Col? && e.right.Col? then
      if e.left.tupleIdx == 0 && e.right.tupleIdx == 1 then
        Some((Col(0, e.left.colIdx, e.left.ty), Col(0, e.right.colIdx, e.right.ty)))
      else if e.left.tupleIdx == 1 && e.right.tupleIdx == 0 then
        Some((Col(0, e.right.colIdx, e.right.ty), Col(0, e.left.colIdx, e.left.ty)))
      else None
    else None
  }

  function NljAsIndexJoinAt(db: Db, p: Plan): Result<Plan> {
    if !p.op.Nlj? then Ok(p)
    else if |p.children| != 2 then Throw
    else
      var keys, scan := EquiKeys(p.op.pred), p.children[1];
      if keys.None? || !scan.op.SeqScan? then Ok(p)
      else
        var ix := MatchIndex(db, GetTableIndexes(db, scan.op.tableName), keys.value.1.colIdx);
        if ix.None? || ix.value !in db.indexes then Ok(p)
        else
          Ok(Plan(IndexJoin(keys.value.0, scan.op.tableOid, ix.value, db.indexes[ix.value].name, scan.op.tableName,
                            scan.schema, p.op.joinType), p.schema, [p.children[0]]))
  }

  function NljAsHashJoinAt(p: Plan): Result<Plan> {
    if !p.op.Nlj? then Ok(p)
    else if |p.children| != 2 then Throw
    else
      var keys := EquiKeys(p.op.pred);
      if keys.None? then Ok(p)
      else Ok(Plan(HashJoin(keys.value.0, keys.value.1, p.op.joinType), p.schema, p.children))
  }

  // ---- sorts through an index ----

  /** The first single-column index whose key column has the ordered column's name. */
  function MatchByName(db: Db, ids: seq<nat>, schema: Schema, col: nat): Result<Option<nat>> {
    if ids == [] then Ok(None)
    else if ids[0] in db.indexes && |db.indexes[ids[0]].keySchema| == 1 then
      if col >= |schema| then Throw
      else if db.indexes[ids[0]].keySchema[0].name == schema[col].name then Ok(Some(ids[0]))
      else MatchByName(db, ids[1..], schema, col)
    else MatchByName(db, ids[1..], schema, col)
  }

  function OrderByAsIndexScanAt(db: Db, p: Plan): Result<Plan> {
    if !p.op.Sort? || |p.op.orderBys| != 1 then Ok(p)
    else
      var ob := p.op.orderBys[0];
      if !(ob.dir == Asc || ob.dir == DefaultOrder) || !ob.expr.Col? then Ok(p)
      else if |p.children| != 1 then Throw
      else
        var scan := p.children[0];
        if !scan.op.SeqScan? then Ok(p)
        else if scan.op.tableOid !in db.tables then Throw
        else
          var t := db.tables[scan.op.tableOid];
          var ix :- MatchByName(db, GetTableIndexes(db, t.name), t.schema, ob.expr.colIdx);
          if ix.None? then Ok(p) else Ok(Plan(IndexScan(ix.value), p.schema, []))
  }

  // ---- rules kept out of the default order ----

  function MergeFilterScanAt(p: Plan): Result<Plan> {
    if !p.op.Filter? then Ok(p)
    else if |p.children| != 1 then Throw
    else
      var scan := p.children[0];
      if scan.op.SeqScan? && scan.op.filter.None? then
        Ok(Plan(SeqScan(scan.op.tableOid, scan.op.tableName, Some(p.op.pred)), p.schema, []))
      else Ok(p)
  }

  function EliminateTrueFilterAt(p: Plan): Result<Plan> {
    if !p.op.Filter? then Ok(p)
    else
      var alwaysTrue :- IsPredicateTrue(p.op.pred);
      if !alwaysTrue then Ok(p)
      else if |p.children| != 1 then Throw
      else Ok(p.children[0])
  }
}
