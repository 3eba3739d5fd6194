/** The default pass order: it preserves meaning, exactly when it fails on planned queries, and its normal forms. */
module Pipeline {
  import opened Values
  import opened Expressions
  import opened Plans
  import opened PlanFacts
  import opened Optimizer
  import opened MergeFilterProof
  import opened OptimizerProof
  import opened MergePass

  // ---- no scan carries a filter ----

  predicate NoScanFilter(p: Plan) {
    Unfiltered(p) && forall c :: c in p.children ==> NoScanFilter(c)
  }

  lemma RuleKeepsUnfiltered(rule: Rule, db: Db, p: Plan)
    requires rule != MergeFilterScan && NoScanFilter(p) && ApplyRule(rule, db, p).Ok?
    ensures NoScanFilter(ApplyRule(rule, db, p).value)
  {
    var q := ApplyRule(rule, db, p).value;
    if q != p && p.children != [] {
      assert NoScanFilter(p.children[0]);
    }
  }

  /** Every pass but the filter-into-scan one keeps scans free of filters. */
  lemma {:induction false} PassKeepsUnfiltered(rule: Rule, db: Db, p: Plan)
    requires rule != MergeFilterScan && NoScanFilter(p) && Rewrite(rule, db, p).Ok?
    ensures NoScanFilter(Rewrite(rule, db, p).value)
    decreases p, 1
  {
    PassKeepsUnfilteredAll(rule, db, p.children);
    RuleKeepsUnfiltered(rule, db, p.(children := RewriteAll(rule, db, p.children).value));
  }

  lemma {:induction false} PassKeepsUnfilteredAll(rule: Rule, db: Db, ps: seq<Plan>)
    requires rule != MergeFilterScan && RewriteAll(rule, db, ps).Ok?
    requires forall c :: c in ps ==> NoScanFilter(c)
    ensures forall c :: c in RewriteAll(rule, db, ps).value ==> NoScanFilter(c)
    decreases ps, 0
  {
    if ps != [] {
      PassKeepsUnfiltered(rule, db, ps[0]);
      PassKeepsUnfilteredAll(rule, db, ps[1..]);
    }
  }

  /** Without scan filters the passes that would discard one are safe everywhere. */
  lemma {:induction false} UnfilteredPassSafe(rule: Rule, db: Db, p: Plan)
    requires rule != MergeFilterNlj && rule != EliminateTrueFilter && rule != MergeFilterScan
    requires NoScanFilter(p) && KeyNamesFaithful(db)
    ensures PassSafe(rule, db, p)
  {
    forall c | c in p.children ensures PassSafe(rule, db, c) {
      UnfilteredPassSafe(rule, db, c);
    }
    var cs := RewriteAll(rule, db, p.children);
    if cs.Ok? {
      PassKeepsUnfilteredAll(rule, db, p.children);
      var q := p.(children := cs.value);
      assert forall i :: 0 <= i < |q.children| ==> q.children[i] in q.children;
    }
  }

  /**
   The whole pass order preserves the plan's schema and rows, in order, whenever every filter merge it makes is
   harmless, indexes agree with their tables and no scan carries a filter.
   */
  lemma OptimizePreserves(db: Db, p: Plan)
    requires DbOk(db) && KeyNamesFaithful(db) && WellFormed(db, p) && NoScanFilter(p)
    requires OptimizeCustom(db, p).Ok?
    requires PassSafe(MergeFilterNlj, db, Rewrite(MergeProjection, db, p).value)
    ensures Equivalent(db, p, OptimizeCustom(db, p).value)
    ensures NoScanFilter(OptimizeCustom(db, p).value)
  {
    var p1 := Rewrite(MergeProjection, db, p).value;
    UnfilteredPassSafe(MergeProjection, db, p);
    PassSound(MergeProjection, db, p);
    PassKeepsUnfiltered(MergeProjection, db, p);
    var p2 := Rewrite(MergeFilterNlj, db, p1).value;
    PassSound(MergeFilterNlj, db, p1);
    PassKeepsUnfiltered(MergeFilterNlj, db, p1);
    var p3 := Rewrite(NljAsIndexJoin, db, p2).value;
    UnfilteredPassSafe(NljAsIndexJoin, db, p2);
    PassSound(NljAsIndexJoin, db, p2);
    PassKeepsUnfiltered(NljAsIndexJoin, db, p2);
    var p4 := Rewrite(OrderByAsIndexScan, db, p3).value;
    UnfilteredPassSafe(OrderByAsIndexScan, db, p3);
    PassSound(OrderByAsIndexScan, db, p3);
    PassKeepsUnfiltered(OrderByAsIndexScan, db, p3);
    UnfilteredPassSafe(SortLimitAsTopN, db, p4);
    PassSound(SortLimitAsTopN, db, p4);
    PassKeepsUnfiltered(SortLimitAsTopN, db, p4);
  }

  // ---- plans as the planner makes them ----

  /** Scans carry no filter, a filter reads its child's columns, and a single sort column exists. */
  predicate NodeShaped(p: Plan) {
    match p.op
    case SeqScan(_, _, f) => f.None?
    case Filter(e) => |p.children| == 1 && ReadsOnly(e, |p.children[0].schema|)
    case Sort(obs) => |obs| == 1 && obs[0].expr.Col? ==> obs[0].expr.colIdx < |p.schema|
    case _ => true
  }

  predicate Shaped(p: Plan) {
    NodeShaped(p) && forall c :: c in p.children ==> Shaped(c)
  }

  lemma {:induction false} PlannedIsUnfiltered(p: Plan)
    requires Shaped(p)
    ensures NoScanFilter(p)
  {
    forall c | c in p.children ensures NoScanFilter(c) {
      PlannedIsUnfiltered(c);
    }
  }

  /** The passes of the default order besides the merging one. */
  predicate OtherPass(rule: Rule) {
    rule == MergeProjection || rule == NljAsIndexJoin || rule == OrderByAsIndexScan || rule == SortLimitAsTopN
  }

  lemma {:induction false} PlannedMatchByName(db: Db, ids: seq<nat>, schema: Schema, col: nat)
    requires col < |schema|
    ensures MatchByName(db, ids, schema, col).Ok?
  {
    if ids != [] { PlannedMatchByName(db, ids[1..], schema, col); }
  }

  lemma PlannedOrderBy(db: Db, p: Plan)
    requires WellFormed(db, p) && Shaped(p)
    ensures OrderByAsIndexScanAt(db, p).Ok? && Shaped(OrderByAsIndexScanAt(db, p).value)
  {
    if p.op.Sort? && |p.op.orderBys| == 1 && p.op.orderBys[0].expr.Col? {
      UnaryOk(db, p);
      var scan := p.children[0];
      if scan.op.SeqScan? {
        var t := db.tables[scan.op.tableOid];
        PlannedMatchByName(db, GetTableIndexes(db, t.name), t.schema, p.op.orderBys[0].expr.colIdx);
      }
    }
  }

  lemma RuleKeepsPlanned(rule: Rule, db: Db, p: Plan)
    requires WellFormed(db, p) && Shaped(p) && OtherPass(rule)
    ensures ApplyRule(rule, db, p).Ok? && Shaped(ApplyRule(rule, db, p).value)
  {
    assert forall i :: 0 <= i < |p.children| ==> Shaped(p.children[i]);
    match rule
    case MergeProjection =>
      if IsIdentity(p) { assert |Types(p.schema)| == |Types(p.children[0].schema)|; }
    case OrderByAsIndexScan => PlannedOrderBy(db, p);
    case NljAsIndexJoin => if p.op.Nlj? { BinaryOk(db, p); }
    case SortLimitAsTopN =>
  }

  ghost predicate Handled(rule: Rule, db: Db, p: Plan) {
    && Rewrite(rule, db, p).Ok?
    && Shaped(Rewrite(rule, db, p).value) && Equivalent(db, p, Rewrite(rule, db, p).value)
  }

  /** On plans of the planner's shape the other passes do not throw, preserve meaning and keep the shape. */
  lemma {:induction false} PassOnPlanned(rule: Rule, db: Db, p: Plan)
    requires DbOk(db) && KeyNamesFaithful(db) && WellFormed(db, p) && Shaped(p) && OtherPass(rule)
    ensures Handled(rule, db, p)
    decreases p, 1
  {
    PassOnPlannedAll(rule, db, p.children);
    var cs := RewriteAll(rule, db, p.children).value;
    Congruence(db, p, cs);
    RuleKeepsPlanned(rule, db, p.(children := cs));
    PlannedIsUnfiltered(p);
    UnfilteredPassSafe(rule, db, p);
    PassSound(rule, db, p);
  }

  lemma {:induction false} PassOnPlannedAll(rule: Rule, db: Db, ps: seq<Plan>)
    requires DbOk(db) && KeyNamesFaithful(db) && OtherPass(rule)
    requires forall c :: c in ps ==> WellFormed(db, c) && Shaped(c)
    ensures RewriteAll(rule, db, ps).Ok? && |RewriteAll(rule, db, ps).value| == |ps|
    ensures forall i :: 0 <= i < |ps| ==>
              Handled(rule, db, ps[i]) && RewriteAll(rule, db, ps).value[i] == Rewrite(rule, db, ps[i]).value
    decreases ps, 0
  {
    if ps != [] {
      PassOnPlanned(rule, db, ps[0]);
      PassOnPlannedAll(rule, db, ps[1..]);
      var cs, tail := RewriteAll(rule, db, ps).value, RewriteAll(rule, db, ps[1..]).value;
      forall i | 0 <= i < |ps| ensures Handled(rule, db, ps[i]) && cs[i] == Rewrite(rule, db, ps[i]).value {
        assert i > 0 ==> ps[i] == ps[1..][i - 1] && cs[i] == tail[i - 1];
      }
    }
  }

  /** The merging pass keeps the shape whenever it does not throw. */
  lemma {:induction false} MergeKeepsPlanned(db: Db, p: Plan)
    requires WellFormed(db, p) && Shaped(p) && Rewrite(MergeFilterNlj, db, p).Ok?
    ensures Shaped(Rewrite(MergeFilterNlj, db, p).value)
    decreases p, 1
  {
    MergeKeepsPlannedAll(db, p.children);
    MergePassExactlyAll(db, p.children);
    var cs := RewriteAll(MergeFilterNlj, db, p.children).value;
    assert Shaped(p.(children := cs)) by {
      assert p.children != [] ==> Foretold(db, p.children[0], cs[0]);
    }
    MergeNodeKeepsPlanned(p.(children := cs));
  }

  lemma MergeNodeKeepsPlanned(p: Plan)
    requires Shaped(p) && MergeFilterNljAt(p).Ok?
    ensures Shaped(MergeFilterNljAt(p).value)
  {
    if p.op.Filter? { assert Shaped(p.children[0]); }
  }

  lemma {:induction false} MergeKeepsPlannedAll(db: Db, ps: seq<Plan>)
    requires RewriteAll(MergeFilterNlj, db, ps).Ok?
    requires forall c :: c in ps ==> WellFormed(db, c) && Shaped(c)
    ensures forall c :: c in RewriteAll(MergeFilterNlj, db, ps).value ==> Shaped(c)
    decreases ps, 0
  {
    if ps != [] {
      MergeKeepsPlanned(db, ps[0]);
      MergeKeepsPlannedAll(db, ps[1..]);
    }
  }

  /** The passes after the merging one neither throw nor change what is denoted. */
  lemma LaterPasses(db: Db, p: Plan)
    requires DbOk(db) && KeyNamesFaithful(db) && WellFormed(db, p) && Shaped(p)
    ensures var r := LaterOrder(db, p); r.Ok? && Equivalent(db, p, r.value) && Shaped(r.value)
  {
    PassOnPlanned(NljAsIndexJoin, db, p);
    var p3 := Rewrite(NljAsIndexJoin, db, p).value;
    PassOnPlanned(OrderByAsIndexScan, db, p3);
    PassOnPlanned(SortLimitAsTopN, db, Rewrite(OrderByAsIndexScan, db, p3).value);
  }

  function LaterOrder(db: Db, p: Plan): Result<Plan> {
    var p3 :- Rewrite(NljAsIndexJoin, db, p);
    var p4 :- Rewrite(OrderByAsIndexScan, db, p3);
    Rewrite(SortLimitAsTopN, db, p4)
  }

  /** A plan of the planner's shape is optimized without a throw exactly when the merging pass meets its condition. */
  lemma OptimizeSucceedsExactly(db: Db, p: Plan)
    requires DbOk(db) && KeyNamesFaithful(db) && WellFormed(db, p) && Shaped(p)
    ensures Rewrite(MergeProjection, db, p).Ok?
    ensures OptimizeCustom(db, p).Ok? <==> MergePassOk(Rewrite(MergeProjection, db, p).value)
    ensures OptimizeCustom(db, p).Ok? ==> Shaped(OptimizeCustom(db, p).value)
  {
    PassOnPlanned(MergeProjection, db, p);
    var p1 := Rewrite(MergeProjection, db, p).value;
    MergePassExactly(db, p1);
    var p2 := Rewrite(MergeFilterNlj, db, p1);
    if p2.Ok? {
      MergeKeepsPlanned(db, p1);
      LaterPasses(db, p2.value);
      assert OptimizeCustom(db, p) == LaterOrder(db, p2.value);
    }
  }

  /**
   A plan of the planner's shape whose filters come to sit over no constant but the TRUE of a cross product is
   optimized without a throw, into one of the same schema and rows.
   */
  lemma OptimizePlanned(db: Db, p: Plan)
    requires DbOk(db) && KeyNamesFaithful(db) && WellFormed(db, p) && Shaped(p)
    requires Rewrite(MergeProjection, db, p).Ok? ==> TrueJoinsOnly(Rewrite(MergeProjection, db, p).value)
    ensures OptimizeCustom(db, p).Ok?
    ensures Equivalent(db, p, OptimizeCustom(db, p).value) && Shaped(OptimizeCustom(db, p).value)
  {
    PassOnPlanned(MergeProjection, db, p);
    var p1 := Rewrite(MergeProjection, db, p).value;
    TrueJoinsPassOk(p1);
    OptimizeSucceedsExactly(db, p);
    TrueJoinsSafe(db, p1);
    PlannedIsUnfiltered(p);
    OptimizePreserves(db, p);
  }

  lemma {:induction false} TrueJoinsPassOk(p: Plan)
    requires Shaped(p) && TrueJoinsOnly(p)
    ensures MergePassOk(p)
  {
    forall c | c in p.children ensures MergePassOk(c) {
      TrueJoinsPassOk(c);
    }
  }

  // ---- normal forms ----

  predicate NoIdentity(p: Plan) {
    && !IsIdentity(p) && (p.op.Projection? ==> |p.children| == 1)
    && forall c :: c in p.children ==> NoIdentity(c)
  }

  /** No projection that still meets the identity test is left anywhere. */
  lemma {:induction false} MergeProjectionComplete(db: Db, p: Plan)
    requires Rewrite(MergeProjection, db, p).Ok?
    ensures NoIdentity(Rewrite(MergeProjection, db, p).value)
    decreases p, 1
  {
    MergeProjectionCompleteAll(db, p.children);
    var q := p.(children := RewriteAll(MergeProjection, db, p.children).value);
    if IsIdentity(q) { assert NoIdentity(q.children[0]); }
  }

  lemma {:induction false} MergeProjectionCompleteAll(db: Db, ps: seq<Plan>)
    requires RewriteAll(MergeProjection, db, ps).Ok?
    ensures forall c :: c in RewriteAll(MergeProjection, db, ps).value ==> NoIdentity(c)
    decreases ps, 0
  {
    if ps != [] {
      MergeProjectionComplete(db, ps[0]);
      MergeProjectionCompleteAll(db, ps[1..]);
    }
  }

  lemma {:induction false} MergeProjectionFixed(db: Db, p: Plan)
    requires NoIdentity(p)
    ensures Rewrite(MergeProjection, db, p) == Ok(p)
    decreases p, 1
  {
    MergeProjectionFixedAll(db, p.children);
  }

  lemma {:induction false} MergeProjectionFixedAll(db: Db, ps: seq<Plan>)
    requires forall c :: c in ps ==> NoIdentity(c)
    ensures RewriteAll(MergeProjection, db, ps) == Ok(ps)
    decreases ps, 0
  {
    if ps != [] {
      MergeProjectionFixed(db, ps[0]);
      MergeProjectionFixedAll(db, ps[1..]);
      assert ps == [ps[0]] + ps[1..];
    }
  }

  lemma MergeProjectionIdempotent(db: Db, p: Plan)
    requires Rewrite(MergeProjection, db, p).Ok?
    ensures var q := Rewrite(MergeProjection, db, p).value; Rewrite(MergeProjection, db, q) == Ok(q)
  {
    MergeProjectionComplete(db, p);
    MergeProjectionFixed(db, Rewrite(MergeProjection, db, p).value);
  }

  predicate NoMergeable(p: Plan) {
    && !(FilterOverNlj(p) && IsPredicateTrue(p.children[0].op.pred) == Ok(true))
    && forall c :: c in p.children ==> NoMergeable(c)
  }

  /** No filter is left directly over an always-true join. */
  lemma {:induction false} MergeFilterComplete(db: Db, p: Plan)
    requires Rewrite(MergeFilterNlj, db, p).Ok?
    ensures NoMergeable(Rewrite(MergeFilterNlj, db, p).value)
    decreases p, 1
  {
    MergeFilterCompleteAll(db, p.children);
    var q := p.(children := RewriteAll(MergeFilterNlj, db, p.children).value);
    if FilterOverNlj(q) { assert NoMergeable(q.children[0]); }
  }

  lemma {:induction false} MergeFilterCompleteAll(db: Db, ps: seq<Plan>)
    requires RewriteAll(MergeFilterNlj, db, ps).Ok?
    ensures forall c :: c in RewriteAll(MergeFilterNlj, db, ps).value ==> NoMergeable(c)
    decreases ps, 0
  {
    if ps != [] {
      MergeFilterComplete(db, ps[0]);
      MergeFilterCompleteAll(db, ps[1..]);
    }
  }

  // ---- why scans must be free of filters ----

  function OneRowDb(): Db {
    var t := Table("t", [Column("x", Integer)], [[IntV(Integer, 1)]]);
    var ix := Index("i", "t", [0], [Column("x", Integer)], [Entry([IntV(Integer, 1)], 0)]);
    Db(map[0 := t], map["t" := 0], map[0 := ix], map["t" := [0]], map[])
  }

  /** A join whose right scan has absorbed a filter that rejects everything. */
  function FilteredScanJoin(): Plan {
    var s := [Column("x", Integer)];
    Plan(Nlj(Cmp(Equal, Col(0, 0, Integer), Col(1, 0, Integer)), Inner), s + s,
         [Plan(ValuesList([[Const(IntV(Integer, 1))]]), s, []),
          Plan(SeqScan(0, "t", Some(Const(BoolV(false)))), s, [])])
  }

  lemma FilteredScanRows()
    ensures Denote(OneRowDb(), FilteredScanJoin()).rows == []
  {
    var db, p := OneRowDb(), FilteredScanJoin();
    var left, right := Denote(db, p.children[0]), Denote(db, p.children[1]);
    JoinMeaning(db, p);
    FilterNone(db.tables[0].rows);
    assert |left.rows| == 1 && right.rows == [];
    NljCons(p.op.pred, Inner, left.rows, right);
  }

  lemma ProbeOnly(t: Table, e: Entry, key: Value)
    requires |e.key| == 1 && CompareEquals(key, e.key[0]) == CmpTrue
    ensures Probe(t, [e], key) == [RowAt(t, e.rid)]
  {
    assert [e][1..] == [];
  }

  /** The index join drops the scan's filter, and a row appears. */
  lemma FilteredScanIsUnsafe()
    ensures var db, p := OneRowDb(), FilteredScanJoin();
            && NljAsIndexJoinAt(db, p).Ok?
            && Denote(db, p).rows == []
            && Denote(db, NljAsIndexJoinAt(db, p).value).rows != []
  {
    var db, p := OneRowDb(), FilteredScanJoin();
    FilteredScanRows();
    assert MatchIndex(db, [0], 0) == Some(0);
    var q, ls := NljAsIndexJoinAt(db, p).value, Denote(db, p.children[0]).rows;
    assert ls == ValueRows([[Const(IntV(Integer, 1))]]) && |ls| == 1;
    assert ls[0] == EvalRow([Const(IntV(Integer, 1))], []);
    Unary(db, q);
    ProbeOnly(db.tables[0], db.indexes[0].entries[0], Eval(q.op.key, ls[0]));
  }

  /** A sort over such a scan: the index scan drops the filter too. */
  function FilteredScanSort(): Plan {
    var s := [Column("x", Integer)];
    Plan(Sort([OrderBy(Asc, Col(0, 0, Integer))]), s, [Plan(SeqScan(0, "t", Some(Const(BoolV(false)))), s, [])])
  }

  lemma FilteredSortIsUnsafe()
    ensures var db, p := OneRowDb(), FilteredScanSort();
            && OrderByAsIndexScanAt(db, p).Ok?
            && Denote(db, p).rows == []
            && Denote(db, OrderByAsIndexScanAt(db, p).value).rows != []
  {
    var db, p := OneRowDb(), FilteredScanSort();
    assert MatchByName(db, [0], p.schema, 0) == Ok(Some(0));
    var q := OrderByAsIndexScanAt(db, p).value;
    FilterNone(db.tables[0].rows);
    Leaf(db, p.children[0]);
    Unary(db, p);
    Leaf(db, q);
    assert |IndexScanRows(db, 0)| == 1;
  }
}
