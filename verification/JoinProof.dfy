/** Equality joins through a hash table or an index find the rows the nested loop finds. */
module JoinProof {
  import opened Values
  import opened Expressions
  import opened HashUtil
  import opened Plans
  import opened PlanFacts
  import opened Optimizer

  predicate KeysEqual(v: Value, key: Expr, row: Row) {
    CompareEquals(v, Eval(key, row)) == CmpTrue
  }

  /** In either operand order, the predicate passes exactly when the left key equals the right key; nulls never do. */
  lemma EquiMeaning(pred: Expr, l: Row, r: Row)
    requires EquiKeys(pred).Some?
    ensures Passes(EvalJoin(pred, l, r)) <==>
            KeysEqual(Eval(EquiKeys(pred).value.0, l), EquiKeys(pred).value.1, r)
  {
    EqualsSymmetric(EvalJoin(pred.left, l, r), EvalJoin(pred.right, l, r));
  }

  /** Bucketing by hash before comparing loses no match. */
  lemma {:induction false} HashFindsMatches(pred: Expr, l: Row, rs: seq<Row>)
    requires EquiKeys(pred).Some?
    ensures HashMatches(Eval(EquiKeys(pred).value.0, l), EquiKeys(pred).value.1, rs) == NljMatches(pred, l, rs)
  {
    if rs != [] {
      var (lk, rk) := EquiKeys(pred).value;
      var v := Eval(lk, l);
      EquiMeaning(pred, l, rs[0]);
      if KeysEqual(v, rk, rs[0]) { EqualHashAlike(v, Eval(rk, rs[0])); }
      HashFindsMatches(pred, l, rs[1..]);
    }
  }

  // ---- at most one match ----

  lemma {:induction false} NoRowMatches(pred: Expr, l: Row, rs: seq<Row>)
    requires forall r :: r in rs ==> !Passes(EvalJoin(pred, l, r))
    ensures NljMatches(pred, l, rs) == []
  {
    if rs != [] { NoRowMatches(pred, l, rs[1..]); }
  }

  lemma {:induction false} OneRowMatches(pred: Expr, l: Row, rs: seq<Row>, i: nat)
    requires i < |rs| && Passes(EvalJoin(pred, l, rs[i]))
    requires forall k :: 0 <= k < |rs| && k != i ==> !Passes(EvalJoin(pred, l, rs[k]))
    ensures NljMatches(pred, l, rs) == [rs[i]]
  {
    if i == 0 {
      NoRowMatches(pred, l, rs[1..]);
    } else {
      OneRowMatches(pred, l, rs[1..], i - 1);
    }
  }

  predicate Hit(e: Entry, key: Value) {
    |e.key| == 1 && CompareEquals(key, e.key[0]) == CmpTrue
  }

  lemma {:induction false} NoEntryHit(t: Table, entries: seq<Entry>, key: Value)
    requires forall e :: e in entries ==> !Hit(e, key)
    ensures Probe(t, entries, key) == []
  {
    if entries != [] {
      assert !Hit(entries[0], key);
      NoEntryHit(t, entries[1..], key);
    }
  }

  lemma {:induction false} OneEntryHit(t: Table, entries: seq<Entry>, key: Value, j: nat)
    requires j < |entries| && Hit(entries[j], key)
    requires forall k :: 0 <= k < |entries| && k != j ==> !Hit(entries[k], key)
    ensures Probe(t, entries, key) == [RowAt(t, entries[j].rid)]
  {
    assert Hit(entries[0], key) <==> j == 0;
    if j == 0 {
      NoEntryHit(t, entries[1..], key);
    } else {
      OneEntryHit(t, entries[1..], key, j - 1);
    }
  }

  /** A key hits at most one entry of an ascending index. */
  lemma HitUnique(entries: seq<Entry>, key: Value, i: nat, j: nat)
    requires Ascending(entries) && i < |entries| && j < |entries|
    requires Hit(entries[i], key) && Hit(entries[j], key)
    ensures i == j
  {
    EqualsSamePlace(key, entries[i].key[0], entries[j].key[0]);
    CompareFlip(entries[i].key[0], entries[j].key[0]);
  }

  /** An entry is hit exactly when the row it points to matches. */
  lemma HitIsMatch(ix: Index, t: Table, j: nat, c: nat, ty: TypeId, key: Value)
    requires IndexAgrees(ix, t) && ix.keyAttrs == [c] && j < |ix.entries|
    ensures ix.entries[j].rid < |t.rows|
    ensures Hit(ix.entries[j], key) <==> KeysEqual(key, Col(0, c, ty), t.rows[ix.entries[j].rid])
  {
    RidsInRange(ix, t);
    assert ix.entries[j] in ix.entries;
    assert ix.entries[j].key == [At(RowAt(t, ix.entries[j].rid), c)];
  }

  /** Probing an index that agrees with the table finds the rows the nested loop finds. */
  lemma ProbeFindsMatches(pred: Expr, l: Row, ix: Index, t: Table)
    requires EquiKeys(pred).Some? && IndexAgrees(ix, t)
    requires ix.keyAttrs == [EquiKeys(pred).value.1.colIdx]
    ensures Probe(t, ix.entries, Eval(EquiKeys(pred).value.0, l)) == NljMatches(pred, l, t.rows)
  {
    var (lk, rk) := EquiKeys(pred).value;
    var v := Eval(lk, l);
    forall i | 0 <= i < |t.rows| ensures Passes(EvalJoin(pred, l, t.rows[i])) <==> KeysEqual(v, rk, t.rows[i]) {
      EquiMeaning(pred, l, t.rows[i]);
    }
    forall j | 0 <= j < |ix.entries|
      ensures ix.entries[j].rid < |t.rows|
      ensures Hit(ix.entries[j], v) <==> KeysEqual(v, rk, t.rows[ix.entries[j].rid])
    {
      HitIsMatch(ix, t, j, rk.colIdx, rk.ty, v);
    }
    if i :| 0 <= i < |t.rows| && KeysEqual(v, rk, t.rows[i]) {
      var j := EntryOfRow(ix, t, i);
      forall k | 0 <= k < |ix.entries| && k != j ensures !Hit(ix.entries[k], v) {
        if Hit(ix.entries[k], v) { HitUnique(ix.entries, v, j, k); }
      }
      OneEntryHit(t, ix.entries, v, j);
      forall k | 0 <= k < |t.rows| && k != i ensures !KeysEqual(v, rk, t.rows[k]) {
        var jk := EntryOfRow(ix, t, k);
        assert !Hit(ix.entries[jk], v);
      }
      OneRowMatches(pred, l, t.rows, i);
    } else {
      NoEntryHit(t, ix.entries, v);
      NoRowMatches(pred, l, t.rows);
    }
  }

  lemma {:induction false} MatchIndexFound(db: Db, ids: seq<nat>, col: nat)
    ensures var m := MatchIndex(db, ids, col);
            m.Some? ==> m.value in ids && m.value in db.indexes && db.indexes[m.value].keyAttrs == [col]
  {
    if ids != [] { MatchIndexFound(db, ids[1..], col); }
  }

  /** The index join denotes the rows of the nested-loop join over the unfiltered scan, for INNER and LEFT alike. */
  lemma IndexJoinRows(db: Db, pred: Expr, jt: JoinType, ls: seq<Row>, right: Meaning, op: Op)
    requires EquiKeys(pred).Some? && op.IndexJoin? && op.joinType == jt
    requires op.innerOid in db.tables && op.indexOid in db.indexes
    requires IndexAgrees(db.indexes[op.indexOid], db.tables[op.innerOid])
    requires db.indexes[op.indexOid].keyAttrs == [EquiKeys(pred).value.1.colIdx]
    requires op.key == EquiKeys(pred).value.0
    requires right == Meaning(Types(op.innerSchema), db.tables[op.innerOid].rows)
    ensures IndexRows(db, op, ls) == NljRows(pred, jt, ls, right)
  {
    var t, ix := db.tables[op.innerOid], db.indexes[op.indexOid];
    var probes := seq(|ls|, i requires 0 <= i < |ls| => Probe(t, ix.entries, Eval(op.key, ls[i])));
    var matches := seq(|ls|, i requires 0 <= i < |ls| => NljMatches(pred, ls[i], right.rows));
    forall i | 0 <= i < |ls| ensures probes[i] == matches[i] {
      ProbeFindsMatches(pred, ls[i], ix, t);
    }
    assert probes == matches;
  }

  lemma HashJoinRows(pred: Expr, jt: JoinType, ls: seq<Row>, right: Meaning)
    requires EquiKeys(pred).Some?
    ensures HashRows(EquiKeys(pred).value.0, EquiKeys(pred).value.1, jt, ls, right) == NljRows(pred, jt, ls, right)
  {
    var (lk, rk) := EquiKeys(pred).value;
    var hashed := seq(|ls|, i requires 0 <= i < |ls| => HashMatches(Eval(lk, ls[i]), rk, right.rows));
    var matches := seq(|ls|, i requires 0 <= i < |ls| => NljMatches(pred, ls[i], right.rows));
    forall i | 0 <= i < |ls| ensures hashed[i] == matches[i] {
      HashFindsMatches(pred, ls[i], right.rows);
    }
    assert hashed == matches;
  }
}
