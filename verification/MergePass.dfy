/** The filter-merging pass over a whole plan: exactly when it throws, and what it leaves on top. */
module MergePass {
  import opened Values
  import opened Expressions
  import opened Plans
  import opened PlanFacts
  import opened Optimizer
  import opened MergeFilterProof
  import opened OptimizerProof

  // ---- one node ----

  /** What the test and the rewrite demand of a filter `e` over a join on `pred` whose rows have `width` columns. */
  predicate Mergeable(pred: Expr, e: Expr, width: nat) {
    pred.Const? ==> CastToBool(pred.val).Ok? && (CastToBool(pred.val) == Ok(true) ==> ReadsOnly(e, width))
  }

  /** The rule throws at a node exactly when a filter or a join has the wrong arity, or those demands fail. */
  lemma MergeNodeExactly(p: Plan)
    ensures MergeFilterNljAt(p).Ok? <==>
            (p.op.Filter? ==>
               && |p.children| == 1
               && (p.children[0].op.Nlj? ==>
                     var nlj := p.children[0];
                     && |nlj.children| == 2
                     && Mergeable(nlj.op.pred, p.op.pred, |nlj.children[0].schema| + |nlj.children[1].schema|)))
  {
    if FilterOverNlj(p) {
      var nlj := p.children[0];
      RewriteSucceeds(p.op.pred, |nlj.children[0].schema|, |nlj.children[1].schema|);
    }
  }

  // ---- a whole plan ----

  /** The predicate of the join the pass leaves on top of a plan: a join's own, or that of the last filter merged. */
  function Exposed(p: Plan): Option<Expr> {
    match p.op
    case Nlj(e, _) => Some(e)
    case Filter(e) =>
      if |p.children| == 1 && Exposed(p.children[0]).Some? && IsPredicateTrue(Exposed(p.children[0]).value) == Ok(true)
      then Some(e) else None
    case _ => None
  }

  /** The type of that join. */
  function ExposedType(p: Plan): JoinType {
    match p.op
    case Nlj(_, jt) => jt
    case Filter(_) => if |p.children| == 1 then ExposedType(p.children[0]) else Inner
    case _ => Inner
  }

  /** Wherever a filter comes to sit over a join on a constant, the constant casts, and the filter reads its child. */
  predicate MergePassOk(p: Plan) {
    && (forall c :: c in p.children ==> MergePassOk(c))
    && (p.op.Filter? && |p.children| == 1 && Exposed(p.children[0]).Some? ==>
          Mergeable(Exposed(p.children[0]).value, p.op.pred, |p.children[0].schema|))
  }

  /** The rewritten plan is as wide, and shows on top what was foretold. */
  predicate Foretold(db: Db, p: Plan, q: Plan) {
    && WellFormed(db, q) && q.schema == p.schema
    && (q.op.Nlj? <==> Exposed(p).Some?)
    && (q.op.Nlj? ==> SameConstant(q.op.pred, Exposed(p).value) && q.op.joinType == ExposedType(p))
  }

  predicate SameConstant(e: Expr, f: Expr) {
    (e.Const? <==> f.Const?) && (e.Const? ==> e == f)
  }

  lemma RewriteKeepsConstant(e: Expr, lc: nat, rc: nat)
    requires RewriteExpressionForJoin(e, lc, rc).Ok?
    ensures SameConstant(RewriteExpressionForJoin(e, lc, rc).value, e)
  {}

  lemma RebuiltWellFormed(db: Db, p: Plan, cs: seq<Plan>)
    requires WellFormed(db, p) && |cs| == |p.children|
    requires forall i :: 0 <= i < |cs| ==> Foretold(db, p.children[i], cs[i])
    ensures WellFormed(db, p.(children := cs))
  {
    assert Widths(cs) == Widths(p.children);
  }

  /** At a filter whose child is already rewritten. */
  lemma FilterStep(db: Db, p: Plan, c: Plan)
    requires WellFormed(db, p) && p.op.Filter? && |p.children| == 1 && Foretold(db, p.children[0], c)
    ensures var r := MergeFilterNljAt(p.(children := [c]));
            && (r.Ok? <==> (Exposed(p.children[0]).Some? ==>
                              Mergeable(Exposed(p.children[0]).value, p.op.pred, |p.children[0].schema|)))
            && (r.Ok? ==> Foretold(db, p, r.value))
  {
    var q := p.(children := [c]);
    RebuiltWellFormed(db, p, [c]);
    UnaryOk(db, q);
    MergeNodeExactly(q);
    if c.op.Nlj? {
      BinaryOk(db, c);
      if Merges(q) {
        MergedWellFormed(db, q);
        RewriteKeepsConstant(p.op.pred, |c.children[0].schema|, |c.children[1].schema|);
      }
    }
  }

  /** The pass throws on a well-formed plan exactly when that condition fails somewhere. */
  lemma {:induction false} MergePassExactly(db: Db, p: Plan)
    requires WellFormed(db, p)
    ensures Rewrite(MergeFilterNlj, db, p).Ok? <==> MergePassOk(p)
    ensures Rewrite(MergeFilterNlj, db, p).Ok? ==> Foretold(db, p, Rewrite(MergeFilterNlj, db, p).value)
    decreases p, 1
  {
    MergePassExactlyAll(db, p.children);
    var r := RewriteAll(MergeFilterNlj, db, p.children);
    if r.Ok? {
      RebuiltWellFormed(db, p, r.value);
      if p.op.Filter? {
        assert |p.children| == 1 by { assert |Widths(p.children)| == |p.children|; }
        assert r.value == [r.value[0]];
        FilterStep(db, p, r.value[0]);
      }
    }
  }

  lemma {:induction false} MergePassExactlyAll(db: Db, ps: seq<Plan>)
    requires forall c :: c in ps ==> WellFormed(db, c)
    ensures RewriteAll(MergeFilterNlj, db, ps).Ok? <==> forall c :: c in ps ==> MergePassOk(c)
    ensures var r := RewriteAll(MergeFilterNlj, db, ps);
            r.Ok? ==> |r.value| == |ps| && forall i :: 0 <= i < |ps| ==> Foretold(db, ps[i], r.value[i])
    decreases ps, 0
  {
    if ps != [] {
      MergePassExactly(db, ps[0]);
      MergePassExactlyAll(db, ps[1..]);
      assert ps == [ps[0]] + ps[1..];
    }
  }

  // ---- cross products ----

  /** Every constant a filter comes to sit over is the TRUE of an INNER join, as in a cross product. */
  predicate TrueJoinsOnly(p: Plan) {
    && (forall c :: c in p.children ==> TrueJoinsOnly(c))
    && (p.op.Filter? && |p.children| == 1 && Exposed(p.children[0]).Some? && Exposed(p.children[0]).value.Const? ==>
          Exposed(p.children[0]).value == TRUE && ExposedType(p.children[0]) == Inner)
  }

  /** Over such constants every merge of the pass is harmless. */
  lemma {:induction false} TrueJoinsSafe(db: Db, p: Plan)
    requires WellFormed(db, p) && TrueJoinsOnly(p)
    ensures PassSafe(MergeFilterNlj, db, p)
  {
    forall c | c in p.children ensures PassSafe(MergeFilterNlj, db, c) {
      TrueJoinsSafe(db, c);
    }
    MergePassExactlyAll(db, p.children);
    var r := RewriteAll(MergeFilterNlj, db, p.children);
    if r.Ok? {
      var q := p.(children := r.value);
      if Merges(q) {
        assert Foretold(db, p.children[0], r.value[0]);
        assert q.children[0].op.pred == TRUE && q.children[0].op.joinType == Inner;
      }
    }
  }
}
