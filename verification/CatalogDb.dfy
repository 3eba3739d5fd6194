/** The optimizer's database as the catalog knows it: consistent maps, and indexes that agree with their tables. */
module CatalogDb {
  import opened Values
  import opened Plans
  import opened SortProof
  import opened OptimizerProof
  import C = Catalog

  // ---- an index in key order ----

  /** The entries of a unique-key index, in key order. */
  predicate InKeyOrder(entries: seq<Entry>, index: map<seq<Value>, nat>) {
    && Ascending(entries)
    && (forall i :: 0 <= i < |entries| ==> entries[i].key in index && index[entries[i].key] == entries[i].rid)
    && (forall i, j :: 0 <= i < j < |entries| ==> entries[i].key != entries[j].key)
    && (forall k :: k in index ==> HasKey(entries, k))
  }

  predicate HasKey(entries: seq<Entry>, k: seq<Value>) {
    exists i :: 0 <= i < |entries| && entries[i].key == k
  }

  lemma {:induction false} CountsOne(xs: seq<nat>, x: nat)
    requires forall i, j :: 0 <= i < j < |xs| ==> xs[i] != xs[j]
    ensures multiset(xs)[x] == if x in xs then 1 else 0
  {
    if xs != [] {
      CountsOne(xs[1..], x);
      assert xs == [xs[0]] + xs[1..];
    }
  }

  lemma SameElements(xs: seq<nat>, ys: seq<nat>)
    requires forall i, j :: 0 <= i < j < |xs| ==> xs[i] != xs[j]
    requires forall i, j :: 0 <= i < j < |ys| ==> ys[i] != ys[j]
    requires forall x :: x in xs <==> x in ys
    ensures multiset(xs) == multiset(ys)
  {
    forall x ensures multiset(xs)[x] == multiset(ys)[x] {
      CountsOne(xs, x);
      CountsOne(ys, x);
    }
  }

  /** The rids of a filled index over rows with distinct keys are those of all the rows, each once. */
  lemma RidsCover(entries: seq<Entry>, keys: seq<seq<Value>>)
    requires C.Distinct(keys) && InKeyOrder(entries, C.Populate(keys, |keys|))
    ensures multiset(Rids(entries)) == multiset(Range(|keys|))
  {
    var index := C.Populate(keys, |keys|);
    C.PopulateHoldsKeys(keys, |keys|);
    C.IndexCoversRowsExactly(keys);
    var rids := Rids(entries);
    forall i, j | 0 <= i < j < |rids| ensures rids[i] != rids[j] {
      assert keys[entries[i].rid] == entries[i].key && keys[entries[j].rid] == entries[j].key;
    }
    forall x ensures x in rids <==> x in Range(|keys|) {
      if x in rids {
        var i :| 0 <= i < |rids| && rids[i] == x;
        assert entries[i].rid == x && index[entries[i].key] == x;
        assert Range(|keys|)[x] == x;
      }
      if x in Range(|keys|) {
        assert C.HasEntry(index, keys[x], x);
        assert HasKey(entries, keys[x]);
        var i :| 0 <= i < |entries| && entries[i].key == keys[x];
        assert rids[i] == x;
      }
    }
    SameElements(rids, Range(|keys|));
  }

  /** A filled index over rows with distinct keys agrees with its table. */
  lemma FilledIndexAgrees(ix: Index, t: Table)
    requires C.Distinct(C.RowKeys(t.rows, ix.keyAttrs))
    requires InKeyOrder(ix.entries, C.Populate(C.RowKeys(t.rows, ix.keyAttrs), |t.rows|))
    ensures IndexAgrees(ix, t)
  {
    var keys := C.RowKeys(t.rows, ix.keyAttrs);
    C.PopulateHoldsKeys(keys, |keys|);
    RidsCover(ix.entries, keys);
    forall e | e in ix.entries ensures e.key == KeyOf(RowAt(t, e.rid), ix.keyAttrs) {
      var i :| 0 <= i < |ix.entries| && ix.entries[i] == e;
      assert keys[e.rid] == e.key;
    }
  }

  // ---- the whole catalog ----

  function RowsOf(info: C.TableInfo): seq<Row> {
    if info.heap.Some? then info.heap.value else []
  }

  predicate TableShown(info: C.TableInfo, t: Table) {
    t == Table(info.name, info.schema, RowsOf(info))
  }

  predicate IndexShown(info: C.IndexInfo, ix: Index) {
    && ix.name == info.name && ix.tableName == info.tableName
    && ix.keyAttrs == info.keyAttrs && ix.keySchema == info.keySchema && InKeyOrder(ix.entries, info.entries)
  }

  /** What the optimizer sees of a catalog. */
  predicate Shows(s: C.State, db: Db) {
    && db.tableNames == s.tableNames
    && db.tables.Keys == s.tables.Keys && (forall o :: o in s.tables ==> TableShown(s.tables[o], db.tables[o]))
    && db.indexes.Keys == s.indexes.Keys && (forall o :: o in s.indexes ==> IndexShown(s.indexes[o], db.indexes[o]))
    && (forall n, o :: n in db.tableIndexes && o in db.tableIndexes[n] ==>
          exists name :: n in s.indexNames && name in s.indexNames[n] && s.indexNames[n][name] == o)
  }

  /** Rows are as wide as their table's schema. */
  predicate RowsFit(s: C.State) {
    forall o :: o in s.tables ==> forall r :: r in RowsOf(s.tables[o]) ==> |r| == |s.tables[o].schema|
  }

  /** The index holds what filling it from the table's present rows would, and no two of them share a key. */
  predicate UpToDate(info: C.IndexInfo, table: C.TableInfo) {
    var keys := C.RowKeys(RowsOf(table), info.keyAttrs);
    C.Distinct(keys) && info.entries == C.Populate(keys, |RowsOf(table)|)
  }

  predicate AllUpToDate(s: C.State)
    requires C.Valid(s)
  {
    forall o :: o in s.indexes ==>
      var name := s.indexes[o].tableName;
      name in s.tableNames && s.tableNames[name] in s.tables ==> UpToDate(s.indexes[o], s.tables[s.tableNames[name]])
  }

  /** In a consistent catalog with up-to-date indexes the optimizer's assumptions on its database hold. */
  lemma CatalogGivesDbOk(s: C.State, db: Db)
    requires C.Valid(s) && Shows(s, db) && RowsFit(s) && AllUpToDate(s)
    ensures DbOk(db)
  {
    forall n | n in db.tableNames ensures db.tableNames[n] in db.tables {
      assert s.tableNames[n] in s.tables.Keys;
    }
    forall o | o in db.tables ensures TableOk(db, o) {
      assert o in s.tables.Keys;
      assert TableShown(s.tables[o], db.tables[o]);
    }
    forall o | o in db.indexes ensures IndexOk(db, o) {
      ShownIndexOk(s, db, o);
    }
    forall n, o | n in db.tableIndexes && o in db.tableIndexes[n]
      ensures o in db.indexes && db.indexes[o].tableName == n
    {
      var name :| n in s.indexNames && name in s.indexNames[n] && s.indexNames[n][name] == o;
      assert C.Lists(s, n, name);
      assert o in s.indexes.Keys && IndexShown(s.indexes[o], db.indexes[o]);
    }
  }

  lemma ShownIndexOk(s: C.State, db: Db, o: nat)
    requires C.Valid(s) && Shows(s, db) && AllUpToDate(s) && o in db.indexes
    ensures IndexOk(db, o)
  {
    assert o in s.indexes.Keys && IndexShown(s.indexes[o], db.indexes[o]);
    var name := s.indexes[o].tableName;
    if name in db.tableNames && db.tableNames[name] in db.tables {
      var t := s.tableNames[name];
      assert t in s.tables.Keys && TableShown(s.tables[t], db.tables[t]);
      FilledIndexAgrees(db.indexes[o], db.tables[t]);
    }
  }

  /** Key schemas copy columns of the table, and table columns have distinct names. */
  predicate KeySchemasCopied(s: C.State) {
    forall o, t :: o in s.indexes && t in s.tables && s.tables[t].name == s.indexes[o].tableName ==>
      KeySchemaCopied(s.indexes[o], s.tables[t].schema)
  }

  predicate KeySchemaCopied(info: C.IndexInfo, schema: Schema) {
    && DistinctNames(schema) && |info.keySchema| == |info.keyAttrs|
    && forall i :: 0 <= i < |info.keyAttrs| ==>
         info.keyAttrs[i] < |schema| && info.keySchema[i] == schema[info.keyAttrs[i]]
  }

  lemma CatalogGivesKeyNames(s: C.State, db: Db)
    requires Shows(s, db) && KeySchemasCopied(s)
    ensures KeyNamesFaithful(db)
  {
    forall ix, oid | ix in db.indexes && oid in db.tables && db.tables[oid].name == db.indexes[ix].tableName
      ensures KeyNamesOk(db.indexes[ix], db.tables[oid])
    {
      assert ix in s.indexes.Keys && IndexShown(s.indexes[ix], db.indexes[ix]);
      assert oid in s.tables.Keys && TableShown(s.tables[oid], db.tables[oid]);
      assert KeySchemaCopied(s.indexes[ix], s.tables[oid].schema);
    }
  }

  /** An index is up to date when it has just been created over rows with distinct keys. */
  lemma CreatedUpToDate(s: C.State, name: string, table: string, keySchema: Schema, keyAttrs: seq<nat>)
    requires C.Valid(s) && table in s.tableNames && name !in s.indexNames[table]
    requires s.tables[s.tableNames[table]].heap.Some?
    requires C.Distinct(C.RowKeys(RowsOf(s.tables[s.tableNames[table]]), keyAttrs))
    ensures var r := C.AddIndex(s, name, table, keySchema, keyAttrs);
            && r.Ok? && C.Valid(r.value) && table in r.value.indexNames && name in r.value.indexNames[table]
            && var o := r.value.indexNames[table][name];
               o in r.value.indexes && UpToDate(r.value.indexes[o], r.value.tables[r.value.tableNames[table]])
  {
    C.AddIndexKeeps(s, name, table, keySchema, keyAttrs);
    assert table in s.indexNames.Keys;
  }
}
