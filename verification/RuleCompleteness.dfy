/** What each rule of the optimizer looks for, said on the plan itself: exactly there it rewrites, and none is left. */
module RuleCompleteness {
  import opened Values
  import opened Expressions
  import opened Plans
  import opened Optimizer
  import opened JoinProof

  /** The predicate equates column `l` of the left input with column `r` of the right one, in either order. */
  predicate Equates(e: Expr, l: nat, r: nat) {
    && e.Cmp? && e.cmpOp == Equal && e.left.Col? && e.right.Col?
    && ((e.left.tupleIdx == 0 && e.left.colIdx == l && e.right.tupleIdx == 1 && e.right.colIdx == r)
        || (e.left.tupleIdx == 1 && e.left.colIdx == r && e.right.tupleIdx == 0 && e.right.colIdx == l))
  }

  ghost predicate EquiJoin(p: Plan) {
    p.op.Nlj? && |p.children| == 2 && exists l, r :: Equates(p.op.pred, l, r)
  }

  /** The catalog lists an index on the table whose key is exactly the column. */
  predicate IndexedColumn(db: Db, table: string, c: nat) {
    && table in db.tableNames && table in db.tableIndexes
    && exists ix :: ix in db.tableIndexes[table] && ix in db.indexes && db.indexes[ix].keyAttrs == [c]
  }

  /** ... whose one key column is called as the table's column. */
  predicate NamedColumn(db: Db, t: Table, c: nat) {
    && t.name in db.tableNames && t.name in db.tableIndexes && c < |t.schema|
    && exists ix :: ix in db.tableIndexes[t.name] && ix in db.indexes
                    && |db.indexes[ix].keySchema| == 1 && db.indexes[ix].keySchema[0].name == t.schema[c].name
  }

  /** What a rule is for. */
  ghost predicate Wanted(rule: Rule, db: Db, p: Plan) {
    match rule
    case NljAsHashJoin => EquiJoin(p)
    case NljAsIndexJoin =>
      EquiJoin(p) && p.children[1].op.SeqScan?
      && exists l, r :: Equates(p.op.pred, l, r) && IndexedColumn(db, p.children[1].op.tableName, r)
    case OrderByAsIndexScan =>
      && p.op.Sort? && |p.op.orderBys| == 1 && p.op.orderBys[0].expr.Col?
      && (p.op.orderBys[0].dir == Asc || p.op.orderBys[0].dir == DefaultOrder)
      && |p.children| == 1 && p.children[0].op.SeqScan? && p.children[0].op.tableOid in db.tables
      && NamedColumn(db, db.tables[p.children[0].op.tableOid], p.op.orderBys[0].expr.colIdx)
    case MergeFilterScan =>
      p.op.Filter? && |p.children| == 1 && p.children[0].op.SeqScan? && p.children[0].op.filter.None?
    case EliminateTrueFilter =>
      p.op.Filter? && |p.children| == 1 && p.op.pred.Const? && CastToBool(p.op.pred.val) == Ok(true)
    case _ => false
  }

  /** The rules whose passes PassComplete is about; MergeFilterComplete and MergeProjectionComplete are the others'. */
  predicate Searches(rule: Rule) {
    rule == NljAsHashJoin || rule == NljAsIndexJoin || rule == OrderByAsIndexScan || rule == MergeFilterScan
    || rule == EliminateTrueFilter
  }

  // ---- at one node ----

  lemma EquiKeysExactly(e: Expr)
    ensures EquiKeys(e).Some? <==> exists l, r :: Equates(e, l, r)
    ensures forall l, r :: Equates(e, l, r) ==>
              && EquiKeys(e).value.0.Col? && EquiKeys(e).value.0.tupleIdx == 0 && EquiKeys(e).value.0.colIdx == l
              && EquiKeys(e).value.1.Col? && EquiKeys(e).value.1.tupleIdx == 0 && EquiKeys(e).value.1.colIdx == r
  {
    if EquiKeys(e).Some? { assert Equates(e, EquiKeys(e).value.0.colIdx, EquiKeys(e).value.1.colIdx); }
  }

  lemma {:induction false} MatchIndexExactly(db: Db, ids: seq<nat>, c: nat)
    ensures MatchIndex(db, ids, c).Some? <==>
            exists ix :: ix in ids && ix in db.indexes && db.indexes[ix].keyAttrs == [c]
    ensures MatchIndex(db, ids, c).Some? ==> MatchIndex(db, ids, c).value in db.indexes
  {
    if ids != [] {
      MatchIndexExactly(db, ids[1..], c);
      if exists ix :: ix in ids && ix in db.indexes && db.indexes[ix].keyAttrs == [c] {
        var ix :| ix in ids && ix in db.indexes && db.indexes[ix].keyAttrs == [c];
        assert ix == ids[0] || ix in ids[1..];
      }
    }
  }

  lemma {:induction false} MatchByNameExactly(db: Db, ids: seq<nat>, s: Schema, c: nat)
    requires MatchByName(db, ids, s, c).Ok?
    ensures MatchByName(db, ids, s, c).value.Some? <==>
            c < |s| && exists ix :: ix in ids && ix in db.indexes
                                    && |db.indexes[ix].keySchema| == 1 && db.indexes[ix].keySchema[0].name == s[c].name
  {
    if ids != [] {
      if MatchByName(db, ids[1..], s, c).Ok? { MatchByNameExactly(db, ids[1..], s, c); }
      if c < |s| && exists ix :: ix in ids && ix in db.indexes
                                 && |db.indexes[ix].keySchema| == 1 && db.indexes[ix].keySchema[0].name == s[c].name {
        var ix :| ix in ids && ix in db.indexes
                  && |db.indexes[ix].keySchema| == 1 && db.indexes[ix].keySchema[0].name == s[c].name;
        assert ix == ids[0] || ix in ids[1..];
      }
    }
  }

  /** A join is made a hash join exactly when it equates a left and a right column, with these as its keys. */
  lemma HashJoinFiresExactly(db: Db, p: Plan)
    requires NljAsHashJoinAt(p).Ok?
    ensures NljAsHashJoinAt(p).value != p <==> Wanted(NljAsHashJoin, db, p)
    ensures forall l, r :: p.op.Nlj? && Equates(p.op.pred, l, r) ==>
              var q := NljAsHashJoinAt(p).value;
              && q.op.HashJoin? && q.op.joinType == p.op.joinType && q.schema == p.schema && q.children == p.children
              && q.op.leftKey.Col? && q.op.leftKey.colIdx == l && q.op.rightKey.Col? && q.op.rightKey.colIdx == r
  {
    if p.op.Nlj? { EquiKeysExactly(p.op.pred); }
  }

  /** An index join exactly when besides the right input is a table scan with an index on that column. */
  lemma IndexJoinFiresExactly(db: Db, p: Plan)
    requires NljAsIndexJoinAt(db, p).Ok?
    ensures NljAsIndexJoinAt(db, p).value != p <==> Wanted(NljAsIndexJoin, db, p)
    ensures NljAsIndexJoinAt(db, p).value != p ==>
              var q := NljAsIndexJoinAt(db, p).value;
              && q.op.IndexJoin? && q.op.joinType == p.op.joinType && q.schema == p.schema
              && q.children == [p.children[0]] && q.op.key.Col? && Equates(p.op.pred, q.op.key.colIdx, KeyColumn(db, q))
  {
    if p.op.Nlj? && p.children[1].op.SeqScan? {
      EquiKeysExactly(p.op.pred);
      if EquiKeys(p.op.pred).Some? {
        var keys := EquiKeys(p.op.pred).value;
        var ids := GetTableIndexes(db, p.children[1].op.tableName);
        assert Equates(p.op.pred, keys.0.colIdx, keys.1.colIdx);
        MatchIndexExactly(db, ids, keys.1.colIdx);
        MatchIndexFound(db, ids, keys.1.colIdx);
      }
    }
  }

  /** The column an index join's index is on. */
  function KeyColumn(db: Db, q: Plan): nat
    requires q.op.IndexJoin?
  {
    if q.op.indexOid in db.indexes && |db.indexes[q.op.indexOid].keyAttrs| == 1
    then db.indexes[q.op.indexOid].keyAttrs[0] else 0
  }

  /** A sort is made an index scan exactly when it is one ascending column of a scanned table with an index so named. */
  lemma OrderByFiresExactly(db: Db, p: Plan)
    requires OrderByAsIndexScanAt(db, p).Ok?
    ensures OrderByAsIndexScanAt(db, p).value != p <==> Wanted(OrderByAsIndexScan, db, p)
    ensures OrderByAsIndexScanAt(db, p).value != p ==>
              OrderByAsIndexScanAt(db, p).value.op.IndexScan? && OrderByAsIndexScanAt(db, p).value.children == []
  {
    if p.op.Sort? && |p.op.orderBys| == 1 && p.op.orderBys[0].expr.Col? && |p.children| == 1
       && p.children[0].op.SeqScan? && p.children[0].op.tableOid in db.tables {
      var t := db.tables[p.children[0].op.tableOid];
      var ids, c := GetTableIndexes(db, t.name), p.op.orderBys[0].expr.colIdx;
      if MatchByName(db, ids, t.schema, c).Ok? { MatchByNameExactly(db, ids, t.schema, c); }
    }
  }

  /** Every rule rewrites a node exactly when the node is what it is for. */
  lemma RuleFiresExactly(rule: Rule, db: Db, p: Plan)
    requires Searches(rule)
    requires ApplyRule(rule, db, p).Ok?
    ensures ApplyRule(rule, db, p).value != p <==> Wanted(rule, db, p)
  {
    match rule
    case NljAsHashJoin => HashJoinFiresExactly(db, p);
    case NljAsIndexJoin => IndexJoinFiresExactly(db, p);
    case OrderByAsIndexScan => OrderByFiresExactly(db, p);
    case MergeFilterScan =>
    case EliminateTrueFilter => if Wanted(rule, db, p) { assert p.children[0] in p.children; }
  }

  // ---- in a whole plan ----

  ghost predicate NoneWanted(rule: Rule, db: Db, p: Plan) {
    !Wanted(rule, db, p) && forall c :: c in p.children ==> NoneWanted(rule, db, c)
  }

  /** What a rule puts in the place of a node is not again what it is for. */
  lemma ReplacementQuiet(rule: Rule, db: Db, p: Plan)
    requires Searches(rule)
    requires ApplyRule(rule, db, p).Ok? && forall c :: c in p.children ==> NoneWanted(rule, db, c)
    ensures NoneWanted(rule, db, ApplyRule(rule, db, p).value)
  {
    RuleFiresExactly(rule, db, p);
    var q := ApplyRule(rule, db, p).value;
    if q != p {
      match rule
      case NljAsHashJoin => HashJoinFiresExactly(db, p); EquiKeysExactly(p.op.pred);
      case NljAsIndexJoin => IndexJoinFiresExactly(db, p); assert q.children == [p.children[0]];
      case OrderByAsIndexScan => OrderByFiresExactly(db, p);
      case MergeFilterScan =>
      case EliminateTrueFilter =>
    }
  }

  /** After a pass nothing its rule is for is left anywhere in the plan. */
  lemma {:induction false} PassComplete(rule: Rule, db: Db, p: Plan)
    requires Searches(rule)
    requires Rewrite(rule, db, p).Ok?
    ensures NoneWanted(rule, db, Rewrite(rule, db, p).value)
    decreases p, 1
  {
    PassCompleteAll(rule, db, p.children);
    ReplacementQuiet(rule, db, p.(children := RewriteAll(rule, db, p.children).value));
  }

  lemma {:induction false} PassCompleteAll(rule: Rule, db: Db, ps: seq<Plan>)
    requires Searches(rule)
    requires RewriteAll(rule, db, ps).Ok?
    ensures forall c :: c in RewriteAll(rule, db, ps).value ==> NoneWanted(rule, db, c)
    decreases ps, 0
  {
    if ps != [] {
      PassComplete(rule, db, ps[0]);
      PassCompleteAll(rule, db, ps[1..]);
    }
  }
}
