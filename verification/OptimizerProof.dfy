/** Every pass of the optimizer, and their composition, preserves what a plan denotes. */
module OptimizerProof {
  import opened Values
  import opened Expressions
  import opened Plans
  import opened PlanFacts
  import opened Optimizer
  import opened MergeFilterProof
  import opened JoinProof
  import opened SortProof

  /** The replacement is well-formed and shows the same columns and the same rows in the same order. */
  ghost predicate Equivalent(db: Db, p: Plan, q: Plan) {
    WellFormed(db, q) && q.schema == p.schema && Denote(db, q) == Denote(db, p)
  }

  // ---- what each rule needs at the node it is applied to ----

  predicate KeyNamesFaithful(db: Db) {
    forall ix :: ix in db.indexes ==>
      forall oid :: oid in db.tables && db.tables[oid].name == db.indexes[ix].tableName ==>
        KeyNamesOk(db.indexes[ix], db.tables[oid])
  }

  /** The rule merges at this node: a filter over a join on a constant its test accepts. */
  predicate Merges(p: Plan) {
    FilterOverNlj(p) && IsPredicateTrue(p.children[0].op.pred) == Ok(true) && MergeFilterNljAt(p).Ok?
  }

  /** A merge leaves the output of every left row alone. */
  ghost predicate MergeSafe(db: Db, p: Plan) {
    Merges(p) ==>
      var nlj := p.children[0];
      var ls, right := Denote(db, nlj.children[0]).rows, Denote(db, nlj.children[1]);
      forall i :: 0 <= i < |ls| ==>
        HarmlessRow(nlj.op.joinType, nlj.op.pred.val, p.op.pred, MergeFilterNljAt(p).value.op.pred, ls[i], right)
  }

  predicate Unfiltered(p: Plan) {
    p.op.SeqScan? ==> p.op.filter.None?
  }

  /** Dropping a filter on a constant leaves the rows alone: the constant passes, or there are none to lose. */
  ghost predicate DropSafe(db: Db, p: Plan)
    requires p.op.Filter? && p.op.pred.Const? && |p.children| == 1
  {
    Passes(p.op.pred.val) || Denote(db, p.children[0]).rows == []
  }

  ghost predicate RuleSafe(rule: Rule, db: Db, p: Plan) {
    match rule
    case MergeFilterNlj => MergeSafe(db, p)
    case NljAsIndexJoin => p.op.Nlj? && |p.children| == 2 ==> Unfiltered(p.children[1])
    case OrderByAsIndexScan =>
      KeyNamesFaithful(db) && (p.op.Sort? && |p.children| == 1 ==> Unfiltered(p.children[0]))
    case EliminateTrueFilter =>
      p.op.Filter? && IsPredicateTrue(p.op.pred) == Ok(true) && |p.children| == 1 ==>
        p.schema == p.children[0].schema && DropSafe(db, p)
    case _ => true
  }

  // ---- one rule at one node ----

  lemma MergeProjectionSound(db: Db, p: Plan)
    requires DbOk(db) && WellFormed(db, p) && IsIdentity(p)
    ensures Equivalent(db, p, p.children[0].(schema := p.schema))
  {
    var child := p.children[0];
    var q := child.(schema := p.schema);
    RowsWidth(db, child);
    var rows := Denote(db, child).rows;
    assert |Types(child.schema)| == |child.schema| == |p.schema| == |p.op.exprs|;
    forall i | 0 <= i < |rows| ensures EvalRow(p.op.exprs, rows[i]) == rows[i] {
      assert rows[i] in rows;
    }
    assert MapRows(p.op.exprs, rows) == rows;
    assert DenoteAll(db, p.children) == [Denote(db, child)];
  }

  lemma JoinMeaning(db: Db, q: Plan)
    requires q.op.Nlj? && |q.children| == 2
    ensures Denote(db, q).rows ==
            NljRows(q.op.pred, q.op.joinType, Denote(db, q.children[0]).rows, Denote(db, q.children[1]))
  {
    Binary(db, q);
  }

  lemma FilteredJoinMeaning(db: Db, p: Plan)
    requires FilterOverNlj(p)
    ensures var nlj := p.children[0];
            Denote(db, p) ==
            Meaning(Types(p.schema),
                    FilterRows(p.op.pred, NljRows(nlj.op.pred, nlj.op.joinType, Denote(db, nlj.children[0]).rows,
                                                  Denote(db, nlj.children[1]))))
  {
    Unary(db, p);
    JoinMeaning(db, p.children[0]);
  }

  lemma MergedWellFormed(db: Db, p: Plan)
    requires WellFormed(db, p) && Merges(p)
    ensures WellFormed(db, MergeFilterNljAt(p).value)
    ensures var nlj := p.children[0];
            WellFormed(db, nlj.children[0]) && WellFormed(db, nlj.children[1])
  {
    var nlj, q := p.children[0], MergeFilterNljAt(p).value;
    UnaryOk(db, p);
    BinaryOk(db, nlj);
    BinaryOk(db, q);
  }

  lemma MergedRowsExactly(db: Db, p: Plan)
    requires DbOk(db) && WellFormed(db, p) && Merges(p)
    ensures Denote(db, MergeFilterNljAt(p).value).rows == Denote(db, p).rows <==> MergeSafe(db, p)
  {
    var nlj, q := p.children[0], MergeFilterNljAt(p).value;
    var l, r := nlj.children[0], nlj.children[1];
    MergedWellFormed(db, p);
    FilteredJoinMeaning(db, p);
    JoinMeaning(db, q);
    RowsWidth(db, l);
    RowsWidth(db, r);
    assert |Denote(db, r).types| == |r.schema|;
    MergeExactly(nlj.op.joinType, nlj.op.pred.val, p.op.pred, Denote(db, l).rows, Denote(db, r), |l.schema|);
  }

  /** Wherever the rule merges, it preserves schema and rows if and only if every left row is harmless. */
  lemma MergeFilterNljExactly(db: Db, p: Plan)
    requires DbOk(db) && WellFormed(db, p) && Merges(p)
    ensures Equivalent(db, p, MergeFilterNljAt(p).value) <==> MergeSafe(db, p)
  {
    MergedWellFormed(db, p);
    MergedRowsExactly(db, p);
    Unary(db, p);
    Binary(db, MergeFilterNljAt(p).value);
  }

  /** What the rule found: an index on the equated column of the scanned table, agreeing with it. */
  lemma MatchedIndex(db: Db, scan: Plan, col: nat)
    requires DbOk(db) && scan.op.SeqScan? && scan.op.tableOid in db.tables
    requires db.tables[scan.op.tableOid].name == scan.op.tableName
    requires MatchIndex(db, GetTableIndexes(db, scan.op.tableName), col).Some?
    ensures var ix := MatchIndex(db, GetTableIndexes(db, scan.op.tableName), col).value;
            && ix in db.indexes && db.indexes[ix].keyAttrs == [col]
            && db.indexes[ix].tableName == scan.op.tableName
            && IndexAgrees(db.indexes[ix], db.tables[scan.op.tableOid])
  {
    var ids := GetTableIndexes(db, scan.op.tableName);
    MatchIndexFound(db, ids, col);
    var ix := MatchIndex(db, ids, col).value;
    assert ix in db.tableIndexes[scan.op.tableName];
    assert TableOk(db, scan.op.tableOid) && IndexOk(db, ix);
  }

  lemma IndexJoinSound(db: Db, p: Plan)
    requires DbOk(db) && WellFormed(db, p) && p.op.Nlj? && |p.children| == 2 && Unfiltered(p.children[1])
    requires NljAsIndexJoinAt(db, p).Ok? && NljAsIndexJoinAt(db, p).value != p
    ensures Equivalent(db, p, NljAsIndexJoinAt(db, p).value)
  {
    var q, scan := NljAsIndexJoinAt(db, p).value, p.children[1];
    Binary(db, p);
    Unary(db, q);
    MatchedIndex(db, scan, EquiKeys(p.op.pred).value.1.colIdx);
    IndexJoinRows(db, p.op.pred, p.op.joinType, Denote(db, p.children[0]).rows, Denote(db, scan), q.op);
  }

  lemma HashJoinSound(db: Db, p: Plan)
    requires WellFormed(db, p) && p.op.Nlj? && NljAsHashJoinAt(p).Ok?
    ensures Equivalent(db, p, NljAsHashJoinAt(p).value)
  {
    var q := NljAsHashJoinAt(p).value;
    if q != p {
      Binary(db, p);
      Binary(db, q);
      HashJoinRows(p.op.pred, p.op.joinType, Denote(db, p.children[0]).rows, Denote(db, p.children[1]));
    }
  }

  lemma NamedIndex(db: Db, oid: nat, c: nat)
    requires DbOk(db) && KeyNamesFaithful(db) && oid in db.tables
    requires var t := db.tables[oid];
             var m := MatchByName(db, GetTableIndexes(db, t.name), t.schema, c); m.Ok? && m.value.Some?
    ensures var t := db.tables[oid];
            var ix := MatchByName(db, GetTableIndexes(db, t.name), t.schema, c).value.value;
            && ix in db.indexes && db.indexes[ix].keyAttrs == [c] && db.indexes[ix].tableName == t.name
            && t.name in db.tableNames && db.tableNames[t.name] == oid
            && IndexAgrees(db.indexes[ix], t)
  {
    var t := db.tables[oid];
    var ids := GetTableIndexes(db, t.name);
    MatchByNameFound(db, ids, t.schema, c);
    var ix := MatchByName(db, ids, t.schema, c).value.value;
    assert ix in db.tableIndexes[t.name];
    assert TableOk(db, oid) && IndexOk(db, ix);
    NamePicksColumn(db.indexes[ix], t, c);
  }

  /** The index scan the rule puts in the place of a sort. */
  lemma OrderByIndexNode(db: Db, oid: nat, ix: nat, schema: Schema)
    requires oid in db.tables && ix in db.indexes && |schema| == |db.tables[oid].schema|
    requires db.indexes[ix].tableName in db.tableNames && db.tableNames[db.indexes[ix].tableName] == oid
    ensures WellFormed(db, Plan(IndexScan(ix), schema, []))
    ensures Denote(db, Plan(IndexScan(ix), schema, [])) ==
            Meaning(Types(schema), EntryRows(db.tables[oid], db.indexes[ix].entries))
  {
    var q := Plan(IndexScan(ix), schema, []);
    Leaf(db, q);
    assert Sem(db, q.op, []) == IndexScanRows(db, ix);
  }

  lemma SortOverScan(db: Db, p: Plan)
    requires WellFormed(db, p) && p.op.Sort? && |p.children| == 1
    requires p.children[0].op.SeqScan? && Unfiltered(p.children[0])
    ensures var oid := p.children[0].op.tableOid;
            && oid in db.tables && |p.schema| == |db.tables[oid].schema|
            && Denote(db, p) == Meaning(Types(p.schema), SortRows(p.op.orderBys, db.tables[oid].rows))
  {
    Unary(db, p);
    Leaf(db, p.children[0]);
  }

  lemma OrderByIndexSound(db: Db, p: Plan)
    requires DbOk(db) && KeyNamesFaithful(db) && WellFormed(db, p) && p.op.Sort? && |p.children| == 1
    requires Unfiltered(p.children[0]) && OrderByAsIndexScanAt(db, p).Ok? && OrderByAsIndexScanAt(db, p).value != p
    ensures Equivalent(db, p, OrderByAsIndexScanAt(db, p).value)
  {
    var oid, c := p.children[0].op.tableOid, p.op.orderBys[0].expr.colIdx;
    SortOverScan(db, p);
    NamedIndex(db, oid, c);
    var ix := OrderByAsIndexScanAt(db, p).value.op.indexOid;
    IndexScanSorts(db.indexes[ix], db.tables[oid], p.op.orderBys, c);
    OrderByIndexNode(db, oid, ix, p.schema);
  }

  lemma FilterScanSound(db: Db, p: Plan)
    requires WellFormed(db, p) && p.op.Filter? && MergeFilterScanAt(p).Ok?
    ensures Equivalent(db, p, MergeFilterScanAt(p).value)
  {
    var scan := p.children[0];
    assert WellFormed(db, scan);
    assert Widths(p.children) == [|scan.schema|];
    assert DenoteAll(db, p.children) == [Denote(db, scan)];
  }

  lemma {:induction false} ConstantKeepsAllOrNone(v: Value, rows: seq<Row>)
    ensures FilterRows(Const(v), rows) == if Passes(v) then rows else []
  {
    if rows != [] { ConstantKeepsAllOrNone(v, rows[1..]); }
  }

  /**
   Dropping a filter on any constant the test accepts keeps the rows if and only if the constant passes or the child
   has no rows, and the schema if and only if it was the child's.
   */
  lemma TrueFilterExactly(db: Db, p: Plan)
    requires WellFormed(db, p) && p.op.Filter? && |p.children| == 1 && IsPredicateTrue(p.op.pred) == Ok(true)
    ensures EliminateTrueFilterAt(p) == Ok(p.children[0])
    ensures Denote(db, p.children[0]).rows == Denote(db, p).rows <==> DropSafe(db, p)
    ensures Equivalent(db, p, p.children[0]) <==> p.schema == p.children[0].schema && DropSafe(db, p)
  {
    Unary(db, p);
    ConstantKeepsAllOrNone(p.op.pred.val, Denote(db, p.children[0]).rows);
  }

  lemma RuleSound(rule: Rule, db: Db, p: Plan)
    requires DbOk(db) && WellFormed(db, p) && RuleSafe(rule, db, p) && ApplyRule(rule, db, p).Ok?
    ensures Equivalent(db, p, ApplyRule(rule, db, p).value)
  {
    if ApplyRule(rule, db, p).value != p {
      match rule
      case MergeProjection => MergeProjectionSound(db, p);
      case MergeFilterNlj => MergeFilterNljExactly(db, p);
      case NljAsIndexJoin => IndexJoinSound(db, p);
      case NljAsHashJoin => HashJoinSound(db, p);
      case OrderByAsIndexScan => OrderByIndexSound(db, p);
      case MergeFilterScan => FilterScanSound(db, p);
      case EliminateTrueFilter => TrueFilterExactly(db, p);
      case SortLimitAsTopN =>
    }
  }

  // ---- a whole pass ----

  /** The rule is safe at every node as the pass meets it, its children already rewritten. */
  ghost predicate PassSafe(rule: Rule, db: Db, p: Plan) {
    && (forall c :: c in p.children ==> PassSafe(rule, db, c))
    && (var cs := RewriteAll(rule, db, p.children);
        cs.Ok? ==> RuleSafe(rule, db, p.(children := cs.value)))
  }

  /** Replacing children by equivalent ones gives an equivalent node. */
  lemma Congruence(db: Db, p: Plan, cs: seq<Plan>)
    requires WellFormed(db, p) && |cs| == |p.children|
    requires forall i :: 0 <= i < |cs| ==> Equivalent(db, p.children[i], cs[i])
    ensures Equivalent(db, p, p.(children := cs))
  {
    assert Widths(cs) == Widths(p.children);
    assert DenoteAll(db, cs) == DenoteAll(db, p.children);
  }

  /** A pass whose rule is safe wherever it fires preserves the plan's schema and its rows, in order. */
  lemma {:induction false} PassSound(rule: Rule, db: Db, p: Plan)
    requires DbOk(db) && WellFormed(db, p) && PassSafe(rule, db, p) && Rewrite(rule, db, p).Ok?
    ensures Equivalent(db, p, Rewrite(rule, db, p).value)
    decreases p, 1
  {
    PassSoundAll(rule, db, p.children);
    var cs := RewriteAll(rule, db, p.children).value;
    Congruence(db, p, cs);
    RuleSound(rule, db, p.(children := cs));
  }

  lemma {:induction false} PassSoundAll(rule: Rule, db: Db, ps: seq<Plan>)
    requires DbOk(db) && RewriteAll(rule, db, ps).Ok?
    requires forall c :: c in ps ==> WellFormed(db, c) && PassSafe(rule, db, c)
    ensures var cs := RewriteAll(rule, db, ps).value;
            |cs| == |ps| && forall i :: 0 <= i < |cs| ==> Equivalent(db, ps[i], cs[i])
    decreases ps, 0
  {
    if ps != [] {
      PassSound(rule, db, ps[0]);
      PassSoundAll(rule, db, ps[1..]);
      var cs, tail := RewriteAll(rule, db, ps).value, RewriteAll(rule, db, ps[1..]).value;
      forall i | 0 <= i < |cs| ensures Equivalent(db, ps[i], cs[i]) {
        assert i > 0 ==> ps[i] == ps[1..][i - 1] && cs[i] == tail[i - 1];
      }
    }
  }
}
