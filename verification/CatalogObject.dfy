/** The catalog as the object it is. */
module CatalogObject {
  import opened Values
  import opened Plans
  import C = Catalog

  class Catalog {
    var tables: map<nat, C.TableInfo>
    var tableNames: map<string, nat>
    var nextTableOid: nat
    var indexes: map<nat, C.IndexInfo>
    var indexNames: map<string, map<string, nat>>
    var nextIndexOid: nat

    ghost function Contents(): C.State
      reads this
    {
      C.State(tables, tableNames, indexes, indexNames, nextTableOid, nextIndexOid)
    }

    constructor ()
      ensures Contents() == C.EMPTY && C.Valid(Contents())
    {
      tables, tableNames, nextTableOid := map[], map[], 0;
      indexes, indexNames, nextIndexOid := map[], map[], 0;
    }

    /** Enters a table of a new name in the maps. */
    method EnterTable(name: string, schema: Schema, createHeap: bool) returns (info: C.TableInfo)
      requires name !in tableNames
      modifies this
      ensures Contents() == old(C.AddTable(Contents(), name, schema, createHeap))
      ensures name in tableNames && tableNames[name] in tables && tables[tableNames[name]] == info
      ensures info.name == name && info.schema == schema && info.heap == if createHeap then Some([]) else None
    {
      var oid := nextTableOid;
      nextTableOid := nextTableOid + 1;
      info := C.TableInfo(schema, name, if createHeap then Some([]) else None, oid);
      tables := tables[oid := info];
      tableNames := tableNames[name := oid];
      indexNames := indexNames[name := map[]];
    }

    /** `None` when the name is taken. */
    method CreateTable(name: string, schema: Schema, createHeap: bool) returns (info: Option<C.TableInfo>)
      requires C.Valid(Contents())
      modifies this
      ensures C.Valid(Contents()) && Contents() == old(C.AddTable(Contents(), name, schema, createHeap))
      ensures info.None? <==> name in old(tableNames)
      ensures info.Some? ==> name in tableNames && tableNames[name] in tables && tables[tableNames[name]] == info.value
                             && info.value.name == name && info.value.schema == schema
                             && info.value.heap == if createHeap then Some([]) else None
    {
      C.AddTableKeeps(Contents(), name, schema, createHeap);
      if name in tableNames {
        return None;
      }
      var meta := EnterTable(name, schema, createHeap);
      return Some(meta);
    }

    method GetTable(name: string) returns (info: Option<C.TableInfo>)
      requires C.Valid(Contents())
      ensures info.None? <==> name !in tableNames
      ensures info.Some? ==> info.value.name == name
                             && tableNames[name] in tables && tables[tableNames[name]] == info.value
    {
      if name !in tableNames {
        return None;
      }
      assert tableNames[name] in tables;
      return Some(tables[tableNames[name]]);
    }

    /** Fills a new index from the rows and enters it in the maps. */
    method EnterIndex(name: string, table: string, keySchema: Schema, keyAttrs: seq<nat>, rows: seq<Row>)
      returns (info: C.IndexInfo)
      requires table in indexNames
      modifies this
      ensures Contents() == old(C.NewIndex(Contents(), name, table, keySchema, keyAttrs, rows))
      ensures info.oid in indexes && indexes[info.oid] == info
      ensures info.name == name && info.tableName == table && info.keySchema == keySchema && info.keyAttrs == keyAttrs
    {
      var entries := C.FillIndex(rows, keyAttrs);
      var oid := nextIndexOid;
      nextIndexOid := nextIndexOid + 1;
      info := C.IndexInfo(keySchema, name, keyAttrs, entries, oid, table);
      indexes := indexes[oid := info];
      var listed: map<string, nat> := indexNames[table][name := oid];
      indexNames := indexNames[table := listed];
    }

    /** `Ok(None)` when there is no such table or the table has such an index already. */
    method CreateIndex(name: string, table: string, keySchema: Schema, keyAttrs: seq<nat>)
      returns (r: Result<Option<C.IndexInfo>>)
      requires C.Valid(Contents())
      modifies this
      ensures r.Throw? == old(C.AddIndex(Contents(), name, table, keySchema, keyAttrs)).Throw?
      ensures r.Ok? ==> C.Valid(Contents())
                        && Contents() == old(C.AddIndex(Contents(), name, table, keySchema, keyAttrs)).value
      ensures r.Ok? && r.value.Some? ==>
                var ix := r.value.value;
                && ix.oid in indexes && indexes[ix.oid] == ix && ix.name == name && ix.tableName == table
                && ix.keySchema == keySchema && ix.keyAttrs == keyAttrs
      ensures r.Ok? ==> (r.value.None? <==> table !in old(tableNames)
                                            || (table in old(indexNames) && name in old(indexNames)[table]))
    {
      C.AddIndexKeeps(Contents(), name, table, keySchema, keyAttrs);
      if table !in tableNames {
        return Ok(None);
      }
      assert table in indexNames.Keys;
      if name in indexNames[table] {
        return Ok(None);
      }
      var meta := GetTable(table);
      if meta.value.heap.None? {
        return Throw;
      }
      var info := EnterIndex(name, table, keySchema, keyAttrs, meta.value.heap.value);
      return Ok(Some(info));
    }

    method GetIndex(name: string, table: string) returns (info: Option<C.IndexInfo>)
      requires C.Valid(Contents())
      ensures info.Some? <==> exists o :: o in indexes && indexes[o].tableName == table && indexes[o].name == name
      ensures info.Some? ==> info.value.tableName == table && info.value.name == name
                             && info.value.oid in indexes && indexes[info.value.oid] == info.value
    {
      assert forall o :: o in indexes ==> C.Listed(Contents(), o);
      if table !in indexNames {
        assert table !in tableNames.Keys;
        return None;
      }
      if name !in indexNames[table] {
        return None;
      }
      assert C.Lists(Contents(), table, name);
      return Some(indexes[indexNames[table][name]]);
    }

    /** Exactly the indexes on the table, each once. */
    method GetTableIndexes(table: string) returns (list: seq<C.IndexInfo>)
      requires C.Valid(Contents())
      ensures forall i, j :: 0 <= i < j < |list| ==> list[i].name != list[j].name
      ensures forall i :: 0 <= i < |list| ==>
                list[i].oid in indexes && indexes[list[i].oid] == list[i] && list[i].tableName == table
      ensures forall o :: o in indexes && indexes[o].tableName == table ==> indexes[o] in list
    {
      ListedOnTable(Contents(), table);
      if table !in tableNames {
        return [];
      }
      list := InfosOf(indexNames[table], indexes);
    }
  }

  lemma ListedOnTable(s: C.State, table: string)
    requires C.Valid(s)
    ensures table in s.tableNames <==> table in s.indexNames
    ensures table in s.indexNames ==>
              forall n :: n in s.indexNames[table] ==>
                var o := s.indexNames[table][n];
                o in s.indexes && s.indexes[o].name == n && s.indexes[o].oid == o && s.indexes[o].tableName == table
    ensures forall o :: o in s.indexes && s.indexes[o].tableName == table ==>
              && table in s.indexNames && s.indexes[o].name in s.indexNames[table]
              && s.indexNames[table][s.indexes[o].name] == o
  {
    assert table in s.tableNames.Keys <==> table in s.indexNames.Keys;
    if table in s.indexNames {
      forall n | n in s.indexNames[table]
        ensures var o := s.indexNames[table][n]; o in s.indexes && s.indexes[o].name == n && s.indexes[o].oid == o
                                                 && s.indexes[o].tableName == table
      {
        assert C.Lists(s, table, n);
        assert C.Listed(s, s.indexNames[table][n]);
      }
    }
    forall o | o in s.indexes && s.indexes[o].tableName == table
      ensures && table in s.indexNames && s.indexes[o].name in s.indexNames[table]
              && s.indexNames[table][s.indexes[o].name] == o
    {
      assert C.Listed(s, o);
    }
  }

  /** Walks the listed names in no particular order. */
  method InfosOf(listed: map<string, nat>, indexes: map<nat, C.IndexInfo>) returns (list: seq<C.IndexInfo>)
    requires forall n :: n in listed ==> listed[n] in indexes && indexes[listed[n]].name == n
    ensures forall i :: 0 <= i < |list| ==> list[i].name in listed && list[i] == indexes[listed[list[i].name]]
    ensures forall i, j :: 0 <= i < j < |list| ==> list[i].name != list[j].name
    ensures forall n :: n in listed ==> indexes[listed[n]] in list
  {
    list := [];
    var left := listed.Keys;
    while left != {}
      invariant left <= listed.Keys
      invariant forall i :: 0 <= i < |list| ==>
                  list[i].name in listed && list[i].name !in left && list[i] == indexes[listed[list[i].name]]
      invariant forall i, j :: 0 <= i < j < |list| ==> list[i].name != list[j].name
      invariant forall n :: n in listed && n !in left ==> indexes[listed[n]] in list
      decreases |left|
    {
      var n :| n in left;
      list := list + [indexes[listed[n]]];
      left := left - {n};
    }
  }
}
