/** The two index rules read the whole table, whatever filter the scan carried: exactly when that is harmless. */
module FilteredScanProof {
  import opened Values
  import opened Expressions
  import opened Plans
  import opened PlanFacts
  import opened Optimizer
  import opened MergeFilterProof
  import opened JoinProof
  import opened SortProof
  import opened OptimizerProof

  /** Every right row the left row matches passes the filter. */
  predicate MatchesPass(pred: Expr, filter: Expr, l: Row, rs: seq<Row>) {
    forall j :: 0 <= j < |rs| && Passes(EvalJoin(pred, l, rs[j])) ==> Passes(Eval(filter, rs[j]))
  }

  lemma {:induction false} FilteredMatches(pred: Expr, filter: Expr, l: Row, rs: seq<Row>)
    ensures var some, all := NljMatches(pred, l, FilterRows(filter, rs)), NljMatches(pred, l, rs);
            && |some| <= |all|
            && (MatchesPass(pred, filter, l, rs) ==> some == all)
            && (!MatchesPass(pred, filter, l, rs) ==> |some| < |all|)
  {
    if rs != [] {
      FilteredMatches(pred, filter, l, rs[1..]);
      KeptFirst(pred, filter, l, rs);
      PassFirst(pred, filter, l, rs);
    }
  }

  lemma PassFirst(pred: Expr, filter: Expr, l: Row, rs: seq<Row>)
    requires rs != []
    ensures MatchesPass(pred, filter, l, rs) <==>
            && (Passes(EvalJoin(pred, l, rs[0])) ==> Passes(Eval(filter, rs[0])))
            && MatchesPass(pred, filter, l, rs[1..])
  {
    assert forall j :: 0 <= j < |rs[1..]| ==> rs[1..][j] == rs[j + 1];
    assert forall j :: 0 < j < |rs| ==> rs[j] == rs[1..][j - 1];
  }

  lemma KeptFirst(pred: Expr, filter: Expr, l: Row, rs: seq<Row>)
    requires rs != []
    ensures NljMatches(pred, l, FilterRows(filter, rs)) ==
            (if Passes(Eval(filter, rs[0])) && Passes(EvalJoin(pred, l, rs[0])) then [rs[0]] else [])
            + NljMatches(pred, l, FilterRows(filter, rs[1..]))
  {
    var rest := FilterRows(filter, rs[1..]);
    if Passes(Eval(filter, rs[0])) {
      assert ([rs[0]] + rest)[1..] == rest;
    } else {
      assert [] + rest == rest;
    }
  }

  /**
   Ignoring the filter leaves this left row's output alone: every match passes; or, in a LEFT join, none does and the
   only match is a copy of the padding.
   */
  predicate Unaffected(jt: JoinType, pred: Expr, filter: Expr, l: Row, right: Meaning) {
    || MatchesPass(pred, filter, l, right.rows)
    || (jt == Left && NljMatches(pred, l, FilterRows(filter, right.rows)) == []
        && NljMatches(pred, l, right.rows) == [Pad(right.types)])
  }

  lemma UnfilteredBlock(jt: JoinType, pred: Expr, filter: Expr, l: Row, right: Meaning)
    ensures var some := BlockAfter(jt, pred, l, right.(rows := FilterRows(filter, right.rows)));
            var all := BlockAfter(jt, pred, l, right);
            |some| <= |all| && (some == all <==> Unaffected(jt, pred, filter, l, right))
  {
    FilteredMatches(pred, filter, l, right.rows);
    var some, all := NljMatches(pred, l, FilterRows(filter, right.rows)), NljMatches(pred, l, right.rows);
    var pad := Pad(right.types);
    if jt == Left && some == [] && all != [] {
      PaddingPasted(l, pad, all);
    } else {
      assert |Paste(l, some)| == |some| && |Paste(l, all)| == |all|;
    }
  }

  lemma PaddingPasted(l: Row, pad: Row, all: seq<Row>)
    requires all != []
    ensures [l + pad] == Paste(l, all) <==> all == [pad]
  {
    assert Paste(l, all)[0] == l + all[0];
    if l + all[0] == l + pad {
      assert all[0] == (l + all[0])[|l|..] == (l + pad)[|l|..] == pad;
    }
    assert |all| == 1 ==> all == [all[0]];
  }

  /** A join over the filtered rows is the join over all of them if and only if every left row is unaffected. */
  lemma DroppedFilterExactly(jt: JoinType, pred: Expr, filter: Expr, ls: seq<Row>, right: Meaning)
    ensures NljRows(pred, jt, ls, right.(rows := FilterRows(filter, right.rows))) == NljRows(pred, jt, ls, right)
            <==> forall i :: 0 <= i < |ls| ==> Unaffected(jt, pred, filter, ls[i], right)
  {
    var kept := right.(rows := FilterRows(filter, right.rows));
    var bs, as' := After(jt, pred, ls, kept), After(jt, pred, ls, right);
    AfterBlocks(jt, pred, ls, kept);
    AfterBlocks(jt, pred, ls, right);
    forall i | 0 <= i < |ls|
      ensures |bs[i]| <= |as'[i]|
      ensures bs[i] == as'[i] <==> Unaffected(jt, pred, filter, ls[i], right)
    {
      UnfilteredBlock(jt, pred, filter, ls[i], right);
    }
    ConcatEqual(bs, as');
  }

  // ---- the index join the rule makes ----

  lemma FilteredScanMeaning(db: Db, scan: Plan)
    requires scan.op.SeqScan? && scan.children == [] && scan.op.tableOid in db.tables && scan.op.filter.Some?
    ensures Denote(db, scan) ==
            Meaning(Types(scan.schema), FilterRows(scan.op.filter.value, db.tables[scan.op.tableOid].rows))
  {
    Leaf(db, scan);
  }

  lemma IndexJoinOutput(db: Db, p: Plan)
    requires DbOk(db) && WellFormed(db, p) && p.op.Nlj? && |p.children| == 2
    requires NljAsIndexJoinAt(db, p).Ok? && NljAsIndexJoinAt(db, p).value != p
    ensures var q, scan := NljAsIndexJoinAt(db, p).value, p.children[1];
            && WellFormed(db, q) && q.schema == p.schema
            && scan.op.SeqScan? && scan.children == [] && scan.op.tableOid in db.tables
            && Denote(db, q).rows ==
               NljRows(p.op.pred, p.op.joinType, Denote(db, p.children[0]).rows,
                       Meaning(Types(scan.schema), db.tables[scan.op.tableOid].rows))
  {
    var q, scan := NljAsIndexJoinAt(db, p).value, p.children[1];
    Binary(db, p);
    Unary(db, q);
    assert scan.children == [] by { assert |Widths(scan.children)| == Arity(scan.op); }
    MatchedIndex(db, scan, EquiKeys(p.op.pred).value.1.colIdx);
    IndexJoinRows(db, p.op.pred, p.op.joinType, Denote(db, p.children[0]).rows,
                  Meaning(Types(scan.schema), db.tables[scan.op.tableOid].rows), q.op);
  }

  /** Over a filtered scan the rule preserves schema and rows if and only if every left row is unaffected. */
  lemma FilteredIndexJoinExactly(db: Db, p: Plan)
    requires DbOk(db) && WellFormed(db, p) && p.op.Nlj? && |p.children| == 2
    requires NljAsIndexJoinAt(db, p).Ok? && NljAsIndexJoinAt(db, p).value != p
    requires p.children[1].op.SeqScan? && p.children[1].op.filter.Some?
    ensures var scan, ls := p.children[1], Denote(db, p.children[0]).rows;
            && scan.op.tableOid in db.tables
            && var all := Meaning(Types(scan.schema), db.tables[scan.op.tableOid].rows);
               Equivalent(db, p, NljAsIndexJoinAt(db, p).value) <==>
               forall i :: 0 <= i < |ls| ==> Unaffected(p.op.joinType, p.op.pred, scan.op.filter.value, ls[i], all)
  {
    var q, scan, ls := NljAsIndexJoinAt(db, p).value, p.children[1], Denote(db, p.children[0]).rows;
    IndexJoinOutput(db, p);
    var all := Meaning(Types(scan.schema), db.tables[scan.op.tableOid].rows);
    JoinMeaning(db, p);
    FilteredScanMeaning(db, scan);
    DroppedFilterExactly(p.op.joinType, p.op.pred, scan.op.filter.value, ls, all);
    SameTypes(db, p, q);
  }

  lemma SameTypes(db: Db, p: Plan, q: Plan)
    requires q.schema == p.schema
    ensures Denote(db, q) == Denote(db, p) <==> Denote(db, q).rows == Denote(db, p).rows
  {}

  // ---- the index scan the rule puts in the place of a sort ----

  lemma {:induction false} FilterKeepsAllExactly(filter: Expr, rows: seq<Row>)
    ensures (forall i :: 0 <= i < |rows| ==> Passes(Eval(filter, rows[i]))) ==> FilterRows(filter, rows) == rows
    ensures !(forall i :: 0 <= i < |rows| ==> Passes(Eval(filter, rows[i]))) ==> |FilterRows(filter, rows)| < |rows|
    ensures |FilterRows(filter, rows)| <= |rows|
  {
    if rows != [] {
      FilterKeepsAllExactly(filter, rows[1..]);
      assert (forall i :: 0 <= i < |rows| ==> Passes(Eval(filter, rows[i]))) <==>
             && Passes(Eval(filter, rows[0]))
             && forall i :: 0 <= i < |rows[1..]| ==> Passes(Eval(filter, rows[1..][i])) by {
        assert forall i :: 0 < i < |rows| ==> rows[i] == rows[1..][i - 1];
      }
    }
  }

  /** Sorting the rows that pass is sorting all of them if and only if all of them pass. */
  lemma FilteredSortExactly(obs: seq<OrderBy>, filter: Expr, rows: seq<Row>)
    ensures SortRows(obs, FilterRows(filter, rows)) == SortRows(obs, rows) <==>
            forall i :: 0 <= i < |rows| ==> Passes(Eval(filter, rows[i]))
  {
    FilterKeepsAllExactly(filter, rows);
    SortLength(obs, rows);
    SortLength(obs, FilterRows(filter, rows));
  }

  lemma SortLength(obs: seq<OrderBy>, rows: seq<Row>)
    ensures |SortRows(obs, rows)| == |rows|
  {
    SortMultiset(obs, rows);
    assert |multiset(SortRows(obs, rows))| == |multiset(rows)|;
  }

  /** Over a filtered scan the sort rule preserves schema and rows if and only if every row of the table passes. */
  lemma FilteredIndexScanExactly(db: Db, p: Plan)
    requires DbOk(db) && KeyNamesFaithful(db) && WellFormed(db, p) && p.op.Sort? && |p.children| == 1
    requires OrderByAsIndexScanAt(db, p).Ok? && OrderByAsIndexScanAt(db, p).value != p
    requires p.children[0].op.SeqScan? && p.children[0].op.filter.Some?
    ensures var scan := p.children[0];
            && scan.op.tableOid in db.tables
            && var rows := db.tables[scan.op.tableOid].rows;
               Equivalent(db, p, OrderByAsIndexScanAt(db, p).value) <==>
               forall i :: 0 <= i < |rows| ==> Passes(Eval(scan.op.filter.value, rows[i]))
  {
    var scan := p.children[0];
    var oid, c := scan.op.tableOid, p.op.orderBys[0].expr.colIdx;
    FilteredSortMeaning(db, p);
    NamedIndex(db, oid, c);
    var ix := OrderByAsIndexScanAt(db, p).value.op.indexOid;
    IndexScanSorts(db.indexes[ix], db.tables[oid], p.op.orderBys, c);
    OrderByIndexNode(db, oid, ix, p.schema);
    FilteredSortExactly(p.op.orderBys, scan.op.filter.value, db.tables[oid].rows);
  }

  lemma FilteredSortMeaning(db: Db, p: Plan)
    requires WellFormed(db, p) && p.op.Sort? && |p.children| == 1
    requires p.children[0].op.SeqScan? && p.children[0].op.filter.Some?
    ensures var scan := p.children[0];
            && scan.op.tableOid in db.tables && |p.schema| == |db.tables[scan.op.tableOid].schema|
            && Denote(db, p) == Meaning(Types(p.schema), SortRows(p.op.orderBys, FilterRows(
                                          scan.op.filter.value, db.tables[scan.op.tableOid].rows)))
  {
    var scan := p.children[0];
    Unary(db, p);
    assert scan.children == [] by { assert |Widths(scan.children)| == Arity(scan.op); }
    Leaf(db, scan);
  }
}
