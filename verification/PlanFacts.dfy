/** Facts about the rows plans denote: their widths, and what sorting does. */
module PlanFacts {
  import opened Values
  import opened Expressions
  import opened Aggregates
  import opened Plans

  ghost predicate AllWide(rows: seq<Row>, w: nat) {
    forall r :: r in rows ==> |r| == w
  }

  lemma {:induction false} FilterSubset(pred: Expr, rows: seq<Row>)
    ensures forall r :: r in FilterRows(pred, rows) ==> r in rows
  {
    if rows != [] { FilterSubset(pred, rows[1..]); }
  }

  lemma {:induction false} NljSubset(pred: Expr, l: Row, rs: seq<Row>)
    ensures forall r :: r in NljMatches(pred, l, rs) ==> r in rs
  {
    if rs != [] { NljSubset(pred, l, rs[1..]); }
  }

  lemma {:induction false} HashSubset(k: Value, rk: Expr, rs: seq<Row>)
    ensures forall r :: r in HashMatches(k, rk, rs) ==> r in rs
  {
    if rs != [] { HashSubset(k, rk, rs[1..]); }
  }

  lemma {:induction false} ProbeSubset(t: Table, entries: seq<Entry>, key: Value)
    ensures forall r :: r in Probe(t, entries, key) ==> exists e :: e in entries && r == RowAt(t, e.rid)
  {
    if entries != [] { ProbeSubset(t, entries[1..], key); }
  }

  lemma {:induction false} JoinWidth(jt: JoinType, ls: seq<Row>, ms: seq<seq<Row>>, pad: Row, w: nat, v: nat)
    requires |ls| == |ms| && AllWide(ls, w) && |pad| == v
    requires forall m :: m in ms ==> AllWide(m, v)
    ensures AllWide(JoinRows(jt, ls, ms, pad), w + v)
  {
    if ls != [] {
      JoinWidth(jt, ls[1..], ms[1..], pad, w, v);
      assert ls[0] in ls && ms[0] in ms;
    }
  }

  lemma {:induction false} InsertMultiset(obs: seq<OrderBy>, r: Row, sorted: seq<Row>)
    ensures multiset(InsertRow(obs, r, sorted)) == multiset([r] + sorted)
  {
    if !(sorted == [] || CompareRows(obs, r, sorted[0]) <= 0) {
      InsertMultiset(obs, r, sorted[1..]);
      assert sorted == [sorted[0]] + sorted[1..];
    }
  }

  /** Sorting permutes the rows. */
  lemma {:induction false} SortMultiset(obs: seq<OrderBy>, rows: seq<Row>)
    ensures multiset(SortRows(obs, rows)) == multiset(rows)
  {
    if rows != [] {
      SortMultiset(obs, rows[1..]);
      InsertMultiset(obs, rows[0], SortRows(obs, rows[1..]));
      assert rows == [rows[0]] + rows[1..];
    }
  }

  lemma SortWidth(obs: seq<OrderBy>, rows: seq<Row>, w: nat)
    requires AllWide(rows, w)
    ensures AllWide(SortRows(obs, rows), w)
  {
    SortMultiset(obs, rows);
    forall r | r in SortRows(obs, rows) ensures r in rows {
      assert r in multiset(SortRows(obs, rows));
    }
  }

  lemma AggWidth(gs: seq<Expr>, es: seq<Expr>, ts: seq<AggType>, rows: seq<Row>)
    requires |es| == |ts|
    ensures AllWide(AggRows(gs, es, ts, rows), |gs| + |es|)
  {
    GroupKeyWidth(gs, rows);
  }

  /** An index that agrees with its table reaches only rows of the table. */
  lemma RidsInRange(ix: Index, t: Table)
    requires IndexAgrees(ix, t)
    ensures forall e :: e in ix.entries ==> e.rid < |t.rows|
    ensures |ix.entries| == |t.rows|
  {
    var rids, range := Rids(ix.entries), Range(|t.rows|);
    forall e | e in ix.entries ensures e.rid < |t.rows| {
      var j :| 0 <= j < |ix.entries| && ix.entries[j] == e;
      assert rids[j] in multiset(rids);
      assert e.rid in range;
    }
    assert |multiset(rids)| == |multiset(range)|;
  }

  /** ... and every row of the table is reached by some entry. */
  lemma EntryOfRow(ix: Index, t: Table, i: nat) returns (j: nat)
    requires IndexAgrees(ix, t) && i < |t.rows|
    ensures j < |ix.entries| && ix.entries[j].rid == i
  {
    var rids, range := Rids(ix.entries), Range(|t.rows|);
    assert range[i] in multiset(range);
    assert i in rids;
    j :| 0 <= j < |rids| && rids[j] == i;
  }

  lemma ProbeWidth(t: Table, ix: Index, key: Value)
    requires IndexAgrees(ix, t) && AllWide(t.rows, |t.schema|)
    ensures AllWide(Probe(t, ix.entries, key), |t.schema|)
  {
    RidsInRange(ix, t);
    ProbeSubset(t, ix.entries, key);
    forall r | r in Probe(t, ix.entries, key) ensures |r| == |t.schema| {
      var e :| e in ix.entries && r == RowAt(t, e.rid);
      assert r in t.rows;
    }
  }

  lemma IndexJoinWidth(db: Db, op: Op, ls: seq<Row>, w: nat)
    requires op.IndexJoin? && AllWide(ls, w)
    requires op.indexOid in db.indexes && op.innerOid in db.tables
    requires |op.innerSchema| == |db.tables[op.innerOid].schema|
    requires AllWide(db.tables[op.innerOid].rows, |op.innerSchema|)
    requires IndexAgrees(db.indexes[op.indexOid], db.tables[op.innerOid])
    ensures AllWide(IndexRows(db, op, ls), w + |op.innerSchema|)
  {
    var t, ix := db.tables[op.innerOid], db.indexes[op.indexOid];
    var ms := seq(|ls|, i requires 0 <= i < |ls| => Probe(t, ix.entries, Eval(op.key, ls[i])));
    forall m | m in ms ensures AllWide(m, |t.schema|) {
      var i :| 0 <= i < |ls| && m == ms[i];
      ProbeWidth(t, ix, Eval(op.key, ls[i]));
    }
    JoinWidth(op.joinType, ls, ms, Pad(Types(op.innerSchema)), w, |t.schema|);
  }

  lemma ScanWidth(db: Db, oid: nat, f: Option<Expr>)
    requires oid in db.tables && TableOk(db, oid)
    ensures AllWide(ScanRows(db, oid, f), |db.tables[oid].schema|)
  {
    if f.Some? { FilterSubset(f.value, db.tables[oid].rows); }
  }

  lemma EntryRowsWidth(t: Table, ix: Index)
    requires IndexAgrees(ix, t) && AllWide(t.rows, |t.schema|)
    ensures AllWide(EntryRows(t, ix.entries), |t.schema|)
  {
    RidsInRange(ix, t);
    forall r | r in EntryRows(t, ix.entries) ensures |r| == |t.schema| {
      var i :| 0 <= i < |ix.entries| && EntryRows(t, ix.entries)[i] == r;
      assert ix.entries[i] in ix.entries;
      assert r in t.rows;
    }
  }

  lemma NljWidth(pred: Expr, jt: JoinType, ls: seq<Row>, right: Meaning, w: nat)
    requires AllWide(ls, w) && AllWide(right.rows, |right.types|)
    ensures AllWide(NljRows(pred, jt, ls, right), w + |right.types|)
  {
    var ms := seq(|ls|, i requires 0 <= i < |ls| => NljMatches(pred, ls[i], right.rows));
    forall m | m in ms ensures AllWide(m, |right.types|) {
      var i :| 0 <= i < |ls| && m == ms[i];
      NljSubset(pred, ls[i], right.rows);
    }
    JoinWidth(jt, ls, ms, Pad(right.types), w, |right.types|);
  }

  lemma HashWidth(lk: Expr, rk: Expr, jt: JoinType, ls: seq<Row>, right: Meaning, w: nat)
    requires AllWide(ls, w) && AllWide(right.rows, |right.types|)
    ensures AllWide(HashRows(lk, rk, jt, ls, right), w + |right.types|)
  {
    var ms := seq(|ls|, i requires 0 <= i < |ls| => HashMatches(Eval(lk, ls[i]), rk, right.rows));
    forall m | m in ms ensures AllWide(m, |right.types|) {
      var i :| 0 <= i < |ls| && m == ms[i];
      HashSubset(Eval(lk, ls[i]), rk, right.rows);
    }
    JoinWidth(jt, ls, ms, Pad(right.types), w, |right.types|);
  }

  /** One operator over inputs of the declared widths produces rows of its own declared width. */
  lemma SemWidth(db: Db, op: Op, width: nat, ins: seq<Meaning>)
    requires DbOk(db) && |ins| == Arity(op)
    requires NodeOk(db, op, width, seq(|ins|, i requires 0 <= i < |ins| => |ins[i].types|))
    requires forall i :: 0 <= i < |ins| ==> AllWide(ins[i].rows, |ins[i].types|)
    ensures AllWide(Sem(db, op, ins), width)
  {
    match op
    case SeqScan(oid, _, f) => ScanWidth(db, oid, f);
    case IndexScan(ix) =>
      var oid := db.tableNames[db.indexes[ix].tableName];
      assert IndexOk(db, ix) && TableOk(db, oid);
      EntryRowsWidth(db.tables[oid], db.indexes[ix]);
    case Filter(p) => FilterSubset(p, ins[0].rows);
    case Nlj(p, jt) => NljWidth(p, jt, ins[0].rows, ins[1], |ins[0].types|);
    case HashJoin(lk, rk, jt) => HashWidth(lk, rk, jt, ins[0].rows, ins[1], |ins[0].types|);
    case IndexJoin(_, oid, ix, _, _, _, _) =>
      assert IndexOk(db, ix) && TableOk(db, oid);
      IndexJoinWidth(db, op, ins[0].rows, |ins[0].types|);
    case Aggregation(gs, es, ts) => AggWidth(gs, es, ts, ins[0].rows);
    case Sort(obs) => SortWidth(obs, ins[0].rows, width);
    case TopN(obs, _) => SortWidth(obs, ins[0].rows, width);
    case _ =>
  }

  /** Every row of a well-formed plan has one value per column of the plan's schema. */
  lemma {:induction false} RowsWidth(db: Db, p: Plan)
    requires DbOk(db) && WellFormed(db, p)
    ensures AllWide(Denote(db, p).rows, |p.schema|)
  {
    var ins := DenoteAll(db, p.children);
    forall i | 0 <= i < |p.children| ensures AllWide(ins[i].rows, |ins[i].types|) {
      RowsWidth(db, p.children[i]);
    }
    assert Widths(p.children) == seq(|ins|, i requires 0 <= i < |ins| => |ins[i].types|);
    SemWidth(db, p.op, |p.schema|, ins);
  }

  lemma UnaryOk(db: Db, p: Plan)
    requires |p.children| == 1
    ensures WellFormed(db, p) <==>
            NodeOk(db, p.op, |p.schema|, [|p.children[0].schema|]) && WellFormed(db, p.children[0])
  {
    assert Widths(p.children) == [|p.children[0].schema|];
  }

  lemma BinaryOk(db: Db, p: Plan)
    requires |p.children| == 2
    ensures WellFormed(db, p) <==>
            && NodeOk(db, p.op, |p.schema|, [|p.children[0].schema|, |p.children[1].schema|])
            && WellFormed(db, p.children[0]) && WellFormed(db, p.children[1])
  {
    assert Widths(p.children) == [|p.children[0].schema|, |p.children[1].schema|];
  }

  lemma Leaf(db: Db, p: Plan)
    requires p.children == []
    ensures Denote(db, p) == Meaning(Types(p.schema), Sem(db, p.op, []))
    ensures WellFormed(db, p) <==> NodeOk(db, p.op, |p.schema|, [])
  {
    assert Widths(p.children) == [];
  }

  lemma Unary(db: Db, p: Plan)
    requires |p.children| == 1
    ensures Denote(db, p) == Meaning(Types(p.schema), Sem(db, p.op, [Denote(db, p.children[0])]))
    ensures WellFormed(db, p) <==>
            NodeOk(db, p.op, |p.schema|, [|p.children[0].schema|]) && WellFormed(db, p.children[0])
  {
    assert DenoteAll(db, p.children) == [Denote(db, p.children[0])];
    assert Widths(p.children) == [|p.children[0].schema|];
  }

  lemma Binary(db: Db, p: Plan)
    requires |p.children| == 2
    ensures Denote(db, p) ==
            Meaning(Types(p.schema), Sem(db, p.op, [Denote(db, p.children[0]), Denote(db, p.children[1])]))
    ensures WellFormed(db, p) <==>
            && NodeOk(db, p.op, |p.schema|, [|p.children[0].schema|, |p.children[1].schema|])
            && WellFormed(db, p.children[0]) && WellFormed(db, p.children[1])
  {
    assert DenoteAll(db, p.children) == [Denote(db, p.children[0]), Denote(db, p.children[1])];
    assert Widths(p.children) == [|p.children[0].schema|, |p.children[1].schema|];
  }
}
