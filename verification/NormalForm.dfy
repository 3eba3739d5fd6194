/** The default order leaves nothing for its rules to do: each later pass keeps what an earlier one reached. */
module NormalForm {
  import opened Values
  import opened Plans
  import opened Optimizer
  import opened Pipeline
  import opened RuleCompleteness

  /** The passes after the removal of projections. */
  predicate Later(rule: Rule) {
    rule == MergeFilterNlj || rule == NljAsIndexJoin || rule == OrderByAsIndexScan || rule == SortLimitAsTopN
  }

  /** The passes after the merging of filters. */
  predicate Last(rule: Rule) {
    rule == NljAsIndexJoin || rule == OrderByAsIndexScan || rule == SortLimitAsTopN
  }

  /** A pass leaves a node's schema alone, and of a node it does not rewrite the operator. */
  lemma LaterRuleKeeps(rule: Rule, db: Db, p: Plan)
    requires Later(rule) && ApplyRule(rule, db, p).Ok?
    ensures var q := ApplyRule(rule, db, p).value;
            && q.schema == p.schema
            && (q == p || (q.op.Nlj? && FilterOverNlj(p) && q.children == p.children[0].children)
                || (q.op.IndexJoin? && p.op.Nlj? && |p.children| == 2 && q.children == [p.children[0]])
                || (q.op.IndexScan? && q.children == []))
  {}

  lemma {:induction false} LaterPassSchema(rule: Rule, db: Db, p: Plan)
    requires Later(rule) && Rewrite(rule, db, p).Ok?
    ensures Rewrite(rule, db, p).value.schema == p.schema
  {
    LaterRuleKeeps(rule, db, p.(children := RewriteAll(rule, db, p.children).value));
  }

  lemma {:induction false} RewrittenChildren(rule: Rule, db: Db, ps: seq<Plan>)
    requires RewriteAll(rule, db, ps).Ok?
    ensures var cs := RewriteAll(rule, db, ps).value;
            |cs| == |ps| && forall i :: 0 <= i < |ps| ==> Rewrite(rule, db, ps[i]) == Ok(cs[i])
    decreases |ps|
  {
    if ps != [] { RewrittenChildren(rule, db, ps[1..]); }
  }

  // ---- identity projections stay away ----

  lemma {:induction false} KeepsNoIdentity(rule: Rule, db: Db, p: Plan)
    requires Later(rule) && Rewrite(rule, db, p).Ok? && NoIdentity(p)
    ensures NoIdentity(Rewrite(rule, db, p).value)
    decreases p
  {
    var cs := RewriteAll(rule, db, p.children).value;
    RewrittenChildren(rule, db, p.children);
    forall c | c in cs ensures NoIdentity(c) {
      var i :| 0 <= i < |cs| && cs[i] == c;
      assert p.children[i] in p.children;
      KeepsNoIdentity(rule, db, p.children[i]);
    }
    var node := p.(children := cs);
    if p.op.Projection? { LaterPassSchema(rule, db, p.children[0]); }
    assert NoIdentity(node);
    LaterRuleKeeps(rule, db, node);
    var q := ApplyRule(rule, db, node).value;
    if q.op.Nlj? && q != node { assert NoIdentity(node.children[0]); }
  }

  // ---- filters over always-true joins stay away ----

  /** Where one of the last passes leaves a join, the join was there with its predicate. */
  lemma LastPassJoin(rule: Rule, db: Db, p: Plan)
    requires Last(rule) && Rewrite(rule, db, p).Ok?
    ensures var q := Rewrite(rule, db, p).value;
            (q.op.Nlj? ==> p.op == q.op && |p.children| == |q.children|) && (q.op.SeqScan? ==> p.op == q.op)
  {
    RewrittenChildren(rule, db, p.children);
  }

  lemma {:induction false} KeepsNoMergeable(rule: Rule, db: Db, p: Plan)
    requires Last(rule) && Rewrite(rule, db, p).Ok? && NoMergeable(p)
    ensures NoMergeable(Rewrite(rule, db, p).value)
    decreases p
  {
    var cs := RewriteAll(rule, db, p.children).value;
    RewrittenChildren(rule, db, p.children);
    forall c | c in cs ensures NoMergeable(c) {
      var i :| 0 <= i < |cs| && cs[i] == c;
      assert p.children[i] in p.children;
      KeepsNoMergeable(rule, db, p.children[i]);
    }
    var node := p.(children := cs);
    if FilterOverNlj(node) { LastPassJoin(rule, db, p.children[0]); }
    assert NoMergeable(node);
    LaterRuleKeeps(rule, db, node);
  }

  // ---- joins an index could serve stay away ----

  lemma {:induction false} KeepsIndexed(rule: Rule, db: Db, p: Plan)
    requires (rule == OrderByAsIndexScan || rule == SortLimitAsTopN) && Rewrite(rule, db, p).Ok?
    requires NoneWanted(NljAsIndexJoin, db, p)
    ensures NoneWanted(NljAsIndexJoin, db, Rewrite(rule, db, p).value)
    decreases p
  {
    var cs := RewriteAll(rule, db, p.children).value;
    RewrittenChildren(rule, db, p.children);
    forall c | c in cs ensures NoneWanted(NljAsIndexJoin, db, c) {
      var i :| 0 <= i < |cs| && cs[i] == c;
      assert p.children[i] in p.children;
      KeepsIndexed(rule, db, p.children[i]);
    }
    var node := p.(children := cs);
    if p.op.Nlj? && |p.children| == 2 { LastPassJoin(rule, db, p.children[1]); }
    assert NoneWanted(NljAsIndexJoin, db, node);
    LaterRuleKeeps(rule, db, node);
  }

  /**
   The optimized plan holds no projection that only renames, no filter over an always-true join, no join of a scanned
   table on a column it has an index on, and no sort an index of that name would serve.
   */
  lemma OptimizeReachesNormalForm(db: Db, p: Plan)
    requires OptimizeCustom(db, p).Ok?
    ensures var q := OptimizeCustom(db, p).value;
            && NoIdentity(q) && NoMergeable(q)
            && NoneWanted(NljAsIndexJoin, db, q) && NoneWanted(OrderByAsIndexScan, db, q)
  {
    var p1 := Rewrite(MergeProjection, db, p).value;
    MergeProjectionComplete(db, p);
    var p2 := Rewrite(MergeFilterNlj, db, p1).value;
    MergeFilterComplete(db, p1);
    KeepsNoIdentity(MergeFilterNlj, db, p1);
    var p3 := Rewrite(NljAsIndexJoin, db, p2).value;
    PassComplete(NljAsIndexJoin, db, p2);
    KeepsNoIdentity(NljAsIndexJoin, db, p2);
    KeepsNoMergeable(NljAsIndexJoin, db, p2);
    var p4 := Rewrite(OrderByAsIndexScan, db, p3).value;
    PassComplete(OrderByAsIndexScan, db, p3);
    KeepsNoIdentity(OrderByAsIndexScan, db, p3);
    KeepsNoMergeable(OrderByAsIndexScan, db, p3);
    KeepsIndexed(OrderByAsIndexScan, db, p3);
    TopNChangesNothing(db, p4);
  }

  lemma {:induction false} TopNChangesNothing(db: Db, p: Plan)
    ensures Rewrite(SortLimitAsTopN, db, p) == Ok(p)
    decreases p, 1
  {
    TopNChangesNone(db, p.children);
  }

  lemma {:induction false} TopNChangesNone(db: Db, ps: seq<Plan>)
    ensures RewriteAll(SortLimitAsTopN, db, ps) == Ok(ps)
    decreases ps, 0
  {
    if ps != [] {
      TopNChangesNothing(db, ps[0]);
      TopNChangesNone(db, ps[1..]);
      assert ps == [ps[0]] + ps[1..];
    }
  }
}
