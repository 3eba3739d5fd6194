/** Reading a unique index in order is sorting its table by the key column. */
module SortProof {
  import opened Values
  import opened Expressions
  import opened Plans
  import opened PlanFacts
  import opened Optimizer
  import opened Seqs

  // ---- ORDER BY is a total preorder and SortRows sorts by it ----

  lemma {:induction false} CompareRowsFlip(obs: seq<OrderBy>, a: Row, b: Row)
    ensures CompareRows(obs, a, b) == -CompareRows(obs, b, a)
  {
    if obs != [] {
      CompareFlip(Eval(obs[0].expr, a), Eval(obs[0].expr, b));
      CompareRowsFlip(obs[1..], a, b);
    }
  }

  /** Row `a` goes before row `b` at the k-th key: its value is smaller, or with DESC larger. */
  predicate BeforeAt(ob: OrderBy, a: Row, b: Row) {
    var c := Compare(Eval(ob.expr, a), Eval(ob.expr, b));
    if ob.dir == Desc then c > 0 else c < 0
  }

  /** Rows compare by the first key on which they differ. */
  lemma {:induction false} CompareRowsMeans(obs: seq<OrderBy>, a: Row, b: Row)
    ensures CompareRows(obs, a, b) < 0 <==>
            exists k :: 0 <= k < |obs| && BeforeAt(obs[k], a, b)
                        && forall j :: 0 <= j < k ==> Compare(Eval(obs[j].expr, a), Eval(obs[j].expr, b)) == 0
  {
    if obs != [] {
      CompareRowsMeans(obs[1..], a, b);
      if CompareRows(obs[1..], a, b) < 0 && Compare(Eval(obs[0].expr, a), Eval(obs[0].expr, b)) == 0 {
        var k :| 0 <= k < |obs[1..]| && BeforeAt(obs[1..][k], a, b)
                 && forall j :: 0 <= j < k ==> Compare(Eval(obs[1..][j].expr, a), Eval(obs[1..][j].expr, b)) == 0;
        assert BeforeAt(obs[k + 1], a, b);
        forall j | 0 <= j < k + 1 ensures Compare(Eval(obs[j].expr, a), Eval(obs[j].expr, b)) == 0 {
          if j > 0 { assert obs[j] == obs[1..][j - 1]; }
        }
      }
      if exists k :: 0 <= k < |obs| && BeforeAt(obs[k], a, b)
                     && forall j :: 0 <= j < k ==> Compare(Eval(obs[j].expr, a), Eval(obs[j].expr, b)) == 0 {
        var k :| 0 <= k < |obs| && BeforeAt(obs[k], a, b)
                 && forall j :: 0 <= j < k ==> Compare(Eval(obs[j].expr, a), Eval(obs[j].expr, b)) == 0;
        if k > 0 {
          assert obs[1..][k - 1] == obs[k];
          forall j | 0 <= j < k - 1 ensures Compare(Eval(obs[1..][j].expr, a), Eval(obs[1..][j].expr, b)) == 0 {
            assert obs[1..][j] == obs[j + 1];
          }
        }
      }
    }
  }

  lemma {:induction false} CompareRowsTrans(obs: seq<OrderBy>, a: Row, b: Row, c: Row)
    requires CompareRows(obs, a, b) <= 0 && CompareRows(obs, b, c) <= 0
    ensures CompareRows(obs, a, c) <= 0
  {
    if obs != [] {
      var e := obs[0].expr;
      var x, y, z := Eval(e, a), Eval(e, b), Eval(e, c);
      CompareFlip(x, y);
      CompareFlip(y, z);
      CompareFlip(x, z);
      if obs[0].dir == Desc { CompareTrans(z, y, x); } else { CompareTrans(x, y, z); }
      if Compare(x, y) == 0 && Compare(y, z) == 0 {
        CompareTrans(x, y, z);
        CompareTrans(z, y, x);
        CompareRowsTrans(obs[1..], a, b, c);
      }
    }
  }

  predicate Sorted(obs: seq<OrderBy>, rows: seq<Row>) {
    forall i, j :: 0 <= i < j < |rows| ==> CompareRows(obs, rows[i], rows[j]) <= 0
  }

  lemma {:induction false} InsertSorted(obs: seq<OrderBy>, r: Row, rows: seq<Row>)
    requires Sorted(obs, rows)
    ensures Sorted(obs, InsertRow(obs, r, rows))
  {
    if rows == [] {
    } else if CompareRows(obs, r, rows[0]) <= 0 {
      forall j | 0 <= j < |rows| ensures CompareRows(obs, r, rows[j]) <= 0 {
        if j > 0 { CompareRowsTrans(obs, r, rows[0], rows[j]); }
      }
    } else {
      var tail := InsertRow(obs, r, rows[1..]);
      InsertSorted(obs, r, rows[1..]);
      CompareRowsFlip(obs, r, rows[0]);
      InsertMultiset(obs, r, rows[1..]);
      forall j | 0 <= j < |tail| ensures CompareRows(obs, rows[0], tail[j]) <= 0 {
        assert tail[j] in multiset(tail);
        assert tail[j] in [r] + rows[1..];
      }
    }
  }

  lemma {:induction false} SortSorts(obs: seq<OrderBy>, rows: seq<Row>)
    ensures Sorted(obs, SortRows(obs, rows))
  {
    if rows != [] {
      SortSorts(obs, rows[1..]);
      InsertSorted(obs, rows[0], SortRows(obs, rows[1..]));
    }
  }

  // ---- a strictly ordered arrangement is the only sorted one ----

  predicate StrictlySorted(obs: seq<OrderBy>, rows: seq<Row>) {
    forall i, j :: 0 <= i < j < |rows| ==> CompareRows(obs, rows[i], rows[j]) < 0
  }

  lemma SameHead(obs: seq<OrderBy>, s: seq<Row>, r: seq<Row>)
    requires StrictlySorted(obs, s) && Sorted(obs, r) && multiset(s) == multiset(r) && s != []
    ensures r != [] && s[0] == r[0]
  {
    assert s[0] in multiset(r);
    var i :| 0 <= i < |r| && r[i] == s[0];
    assert r[0] in multiset(s);
    var j :| 0 <= j < |s| && s[j] == r[0];
    if j > 0 {
      assert CompareRows(obs, s[0], s[j]) < 0;
      CompareRowsFlip(obs, s[0], s[j]);
    }
  }

  lemma {:induction false} OneSortedArrangement(obs: seq<OrderBy>, s: seq<Row>, r: seq<Row>)
    requires StrictlySorted(obs, s) && Sorted(obs, r) && multiset(s) == multiset(r)
    ensures s == r
  {
    if s == [] {
      assert |multiset(r)| == 0;
    } else {
      SameHead(obs, s, r);
      assert s == [s[0]] + s[1..] && r == [s[0]] + r[1..];
      SameRest(s[0], s[1..], r[1..]);
      OneSortedArrangement(obs, s[1..], r[1..]);
    }
  }

  // ---- the rows of an index ----

  /** An index that agrees with its table reaches each row once. */
  lemma IndexPermutes(ix: Index, t: Table)
    requires IndexAgrees(ix, t)
    ensures multiset(EntryRows(t, ix.entries)) == multiset(t.rows)
  {
    var f := (i: nat) => RowAt(t, i);
    ImagesRearranged(f, Rids(ix.entries), Range(|t.rows|));
    assert Images(f, Rids(ix.entries)) == EntryRows(t, ix.entries);
    assert Images(f, Range(|t.rows|)) == t.rows;
  }

  predicate AscendingBy(obs: seq<OrderBy>, c: nat) {
    |obs| == 1 && (obs[0].dir == Asc || obs[0].dir == DefaultOrder) && obs[0].expr.Col? && obs[0].expr.colIdx == c
  }

  lemma IndexStrictlySorted(ix: Index, t: Table, obs: seq<OrderBy>, c: nat)
    requires IndexAgrees(ix, t) && ix.keyAttrs == [c] && AscendingBy(obs, c)
    ensures StrictlySorted(obs, EntryRows(t, ix.entries))
  {
    var rows, es := EntryRows(t, ix.entries), ix.entries;
    forall i, j | 0 <= i < j < |rows| ensures CompareRows(obs, rows[i], rows[j]) < 0 {
      assert es[i] in es && es[j] in es;
      assert es[i].key == [At(rows[i], c)] && es[j].key == [At(rows[j], c)];
      assert Compare(es[i].key[0], es[j].key[0]) < 0;
    }
  }

  /** Scanning the index is sorting the table on the key column, as a sequence. */
  lemma IndexScanSorts(ix: Index, t: Table, obs: seq<OrderBy>, c: nat)
    requires IndexAgrees(ix, t) && ix.keyAttrs == [c] && AscendingBy(obs, c)
    ensures EntryRows(t, ix.entries) == SortRows(obs, t.rows)
  {
    IndexStrictlySorted(ix, t, obs, c);
    IndexPermutes(ix, t);
    SortMultiset(obs, t.rows);
    SortSorts(obs, t.rows);
    OneSortedArrangement(obs, EntryRows(t, ix.entries), SortRows(obs, t.rows));
  }

  // ---- matching by name ----

  predicate DistinctNames(s: Schema) {
    forall i, j :: 0 <= i < j < |s| ==> s[i].name != s[j].name
  }

  /** The key schema an index is created with repeats the table's columns, and no two of those share a name. */
  predicate KeyNamesOk(ix: Index, t: Table) {
    && DistinctNames(t.schema)
    && |ix.keySchema| == |ix.keyAttrs|
    && forall i :: 0 <= i < |ix.keyAttrs| ==>
         ix.keyAttrs[i] < |t.schema| && ix.keySchema[i].name == t.schema[ix.keyAttrs[i]].name
  }

  lemma {:induction false} MatchByNameFound(db: Db, ids: seq<nat>, schema: Schema, col: nat)
    ensures var m := MatchByName(db, ids, schema, col);
            m.Ok? && m.value.Some? ==>
              && m.value.value in ids && m.value.value in db.indexes && col < |schema|
              && |db.indexes[m.value.value].keySchema| == 1
              && db.indexes[m.value.value].keySchema[0].name == schema[col].name
  {
    if ids != [] { MatchByNameFound(db, ids[1..], schema, col); }
  }

  /** With distinct names, the index matched by name is keyed on the ordered column. */
  lemma NamePicksColumn(ix: Index, t: Table, c: nat)
    requires KeyNamesOk(ix, t) && c < |t.schema|
    requires |ix.keySchema| == 1 && ix.keySchema[0].name == t.schema[c].name
    ensures ix.keyAttrs == [c]
  {
    var k := ix.keyAttrs[0];
    assert k == c;
  }

  // ---- a table with two columns of one name ----

  /** Two columns named `v`, and an index on the second; the first is ordered. */
  function SharedNameTable(): Table {
    Table("t", [Column("v", Integer), Column("v", Integer)],
          [[IntV(Integer, 1), IntV(Integer, 9)], [IntV(Integer, 2), IntV(Integer, 8)]])
  }

  function SharedNameIndex(): Index {
    Index("i", "t", [1], [Column("v", Integer)], [Entry([IntV(Integer, 8)], 1), Entry([IntV(Integer, 9)], 0)])
  }

  function SharedNameDb(): Db {
    Db(map[0 := SharedNameTable()], map["t" := 0], map[0 := SharedNameIndex()], map["t" := [0]], map[])
  }

  function OrderedByFirst(): Plan {
    var t := SharedNameTable();
    Plan(Sort([OrderBy(Asc, Col(0, 0, Integer))]), t.schema, [Plan(SeqScan(0, "t", None), t.schema, [])])
  }

  lemma SharedNameIndexAgrees()
    ensures IndexAgrees(SharedNameIndex(), SharedNameTable())
  {
    assert Rids(SharedNameIndex().entries) == [1, 0] && Range(|SharedNameTable().rows|) == [0, 1];
  }

  lemma SharedNameSorted(obs: seq<OrderBy>)
    requires obs == [OrderBy(Asc, Col(0, 0, Integer))]
    ensures SortRows(obs, SharedNameTable().rows) == SharedNameTable().rows
  {
    var rows := SharedNameTable().rows;
    assert rows[1..] == [rows[1]];
    assert SortRows(obs, rows[1..]) == InsertRow(obs, rows[1], []) == [rows[1]];
    assert CompareRows(obs, rows[0], rows[1]) == -1;
  }

  /** The index agrees with its table, yet the rule picks it for the wrong column and the order changes. */
  lemma SharedNameChangesOrder()
    ensures IndexAgrees(SharedNameIndex(), SharedNameTable())
    ensures var db, p := SharedNameDb(), OrderedByFirst();
            && OrderByAsIndexScanAt(db, p).Ok?
            && Denote(db, OrderByAsIndexScanAt(db, p).value).rows != Denote(db, p).rows
  {
    var db, p, t, ix := SharedNameDb(), OrderedByFirst(), SharedNameTable(), SharedNameIndex();
    SharedNameIndexAgrees();
    assert MatchByName(db, [0], t.schema, 0) == Ok(Some(0));
    assert OrderByAsIndexScanAt(db, p) == Ok(Plan(IndexScan(0), t.schema, []));
    SharedNameSorted(p.op.orderBys);
    assert EntryRows(t, ix.entries)[0] == t.rows[1];
  }

  // ---- exactly when an index on one column sorts on another ----

  ghost predicate AlwaysSorts(schema: Schema, d: nat, obs: seq<OrderBy>) {
    forall ix: Index, t: Table :: t.schema == schema && ix.keyAttrs == [d] && IndexAgrees(ix, t) ==>
      EntryRows(t, ix.entries) == SortRows(obs, t.rows)
  }

  /** A row with `a` in column `c`, `b` in column `d` and zero elsewhere. */
  function PairRow(width: nat, c: nat, d: nat, a: int, b: int): (r: Row)
    ensures |r| == width
    ensures c < width && c != d ==> r[c] == IntV(Integer, a)
    ensures d < width ==> r[d] == IntV(Integer, b)
  {
    seq(width, k => if k == d then IntV(Integer, b) else if k == c then IntV(Integer, a) else IntV(Integer, 0))
  }

  function PairTable(schema: Schema, c: nat, d: nat): Table {
    Table("t", schema, [PairRow(|schema|, c, d, 0, 1), PairRow(|schema|, c, d, 1, 0)])
  }

  function PairIndex(schema: Schema, d: nat): Index {
    Index("i", "t", [d], [], [Entry([IntV(Integer, 0)], 1), Entry([IntV(Integer, 1)], 0)])
  }

  lemma PairIndexAgrees(schema: Schema, c: nat, d: nat)
    requires d < |schema|
    ensures IndexAgrees(PairIndex(schema, d), PairTable(schema, c, d))
  {
    var ix, t := PairIndex(schema, d), PairTable(schema, c, d);
    assert Rids(ix.entries) == [1, 0] && Range(|t.rows|) == [0, 1];
    assert KeyOf(t.rows[0], [d]) == [IntV(Integer, 1)] && KeyOf(t.rows[1], [d]) == [IntV(Integer, 0)];
  }

  lemma PairSorted(schema: Schema, c: nat, d: nat, obs: seq<OrderBy>)
    requires c < |schema| && c != d && AscendingBy(obs, c)
    ensures SortRows(obs, PairTable(schema, c, d).rows) == PairTable(schema, c, d).rows
  {
    var rows := PairTable(schema, c, d).rows;
    assert rows[1..] == [rows[1]];
    assert SortRows(obs, rows[1..]) == InsertRow(obs, rows[1], []) == [rows[1]];
    assert CompareRows(obs, rows[0], rows[1]) < 0;
  }

  /** Two rows in one order by `c` and in the other by `d`. */
  lemma OppositeOrders(schema: Schema, c: nat, d: nat, obs: seq<OrderBy>)
    requires c < |schema| && d < |schema| && c != d && AscendingBy(obs, c)
    ensures IndexAgrees(PairIndex(schema, d), PairTable(schema, c, d))
    ensures EntryRows(PairTable(schema, c, d), PairIndex(schema, d).entries)
            != SortRows(obs, PairTable(schema, c, d).rows)
  {
    PairIndexAgrees(schema, c, d);
    PairSorted(schema, c, d, obs);
    var t := PairTable(schema, c, d);
    assert EntryRows(t, PairIndex(schema, d).entries)[0] == t.rows[1];
    assert t.rows[0][c] != t.rows[1][c];
  }

  /** Whatever the table holds, scanning its index on column `d` sorts it on column `c`: exactly when they are one. */
  lemma KeyColumnExactly(schema: Schema, c: nat, d: nat, obs: seq<OrderBy>)
    requires c < |schema| && d < |schema| && AscendingBy(obs, c)
    ensures AlwaysSorts(schema, d, obs) <==> c == d
  {
    if c == d {
      forall ix: Index, t: Table | t.schema == schema && ix.keyAttrs == [d] && IndexAgrees(ix, t)
        ensures EntryRows(t, ix.entries) == SortRows(obs, t.rows)
      {
        IndexScanSorts(ix, t, obs, c);
      }
    } else {
      OppositeOrders(schema, c, d, obs);
    }
  }
}
