/**
 The catalog: four maps and two counters that tables and indexes are found through, kept consistent by every run, and
 the contents an index is created with.
 */
module Catalog {
  import opened Values
  import opened Plans

  /** A table made without a heap, as the binder's own tests do, has `None`. */
  datatype TableInfo = TableInfo(schema: Schema, name: string, heap: Option<seq<Row>>, oid: nat)

  datatype IndexInfo = IndexInfo(keySchema: Schema, name: string, keyAttrs: seq<nat>, entries: map<seq<Value>, nat>,
                                 oid: nat, tableName: string)

  datatype State = State(tables: map<nat, TableInfo>, tableNames: map<string, nat>, indexes: map<nat, IndexInfo>,
                         indexNames: map<string, map<string, nat>>, nextTableOid: nat, nextIndexOid: nat)

  const EMPTY := State(map[], map[], map[], map[], 0, 0)

  // ---- consistency ----

  predicate TablesOk(s: State) {
    && (forall n :: n in s.tableNames ==> s.tableNames[n] in s.tables && s.tables[s.tableNames[n]].name == n)
    && (forall o :: o in s.tables ==>
          && s.tables[o].oid == o < s.nextTableOid
          && s.tables[o].name in s.tableNames && s.tableNames[s.tables[o].name] == o)
  }

  predicate Listed(s: State, o: nat)
    requires o in s.indexes
  {
    var ix := s.indexes[o];
    ix.oid == o && ix.tableName in s.indexNames && ix.name in s.indexNames[ix.tableName]
    && s.indexNames[ix.tableName][ix.name] == o
  }

  predicate Lists(s: State, t: string, n: string)
    requires t in s.indexNames && n in s.indexNames[t]
  {
    var o := s.indexNames[t][n];
    o in s.indexes && s.indexes[o].tableName == t && s.indexes[o].name == n
  }

  predicate IndexesOk(s: State) {
    && s.indexNames.Keys == s.tableNames.Keys
    && (forall t, n :: t in s.indexNames && n in s.indexNames[t] ==> Lists(s, t, n))
    && (forall o :: o in s.indexes ==> Listed(s, o) && o < s.nextIndexOid)
  }

  predicate Valid(s: State) {
    TablesOk(s) && IndexesOk(s)
  }

  // ---- the contents of a new index ----

  /** The tree holds unique keys: a second entry for a key is refused. */
  function InsertEntry<K(==)>(entries: map<K, nat>, key: K, rid: nat): map<K, nat> {
    if key in entries then entries else entries[key := rid]
  }

  /** The keys of the first `n` rows, inserted in heap order. */
  function Populate<K(==)>(keys: seq<K>, n: nat): map<K, nat>
    requires n <= |keys|
  {
    if n == 0 then map[] else InsertEntry(Populate(keys, n - 1), keys[n - 1], n - 1)
  }

  /** Every row's key is there, under the first row that has it, and nothing else is. */
  lemma {:induction false} PopulateHoldsKeys<K>(keys: seq<K>, n: nat)
    requires n <= |keys|
    ensures forall i :: 0 <= i < n ==> keys[i] in Populate(keys, n)
    ensures forall k :: k in Populate(keys, n) ==>
              var r := Populate(keys, n)[k];
              r < n && keys[r] == k && forall j :: 0 <= j < r ==> keys[j] != k
  {
    if n > 0 { PopulateHoldsKeys(keys, n - 1); }
  }

  predicate Distinct<K(==)>(keys: seq<K>) {
    forall i, j :: 0 <= i < j < |keys| ==> keys[i] != keys[j]
  }

  predicate HasEntry<K(==)>(entries: map<K, nat>, key: K, rid: nat) {
    key in entries && entries[key] == rid
  }

  /** The index holds an entry for every row exactly when no two rows share a key. */
  lemma IndexCoversRowsExactly<K>(keys: seq<K>)
    ensures (forall i :: 0 <= i < |keys| ==> HasEntry(Populate(keys, |keys|), keys[i], i)) <==> Distinct(keys)
  {
    PopulateHoldsKeys(keys, |keys|);
    var entries := Populate(keys, |keys|);
    if !Distinct(keys) {
      var i, j :| 0 <= i < j < |keys| && keys[i] == keys[j];
      assert !(HasEntry(entries, keys[i], i) && HasEntry(entries, keys[j], j));
    }
  }

  function RowKeys(rows: seq<Row>, attrs: seq<nat>): (ks: seq<seq<Value>>)
    ensures |ks| == |rows|
  {
    seq(|rows|, i requires 0 <= i < |rows| => KeyOf(rows[i], attrs))
  }

  method FillIndex(rows: seq<Row>, attrs: seq<nat>) returns (entries: map<seq<Value>, nat>)
    ensures entries == Populate(RowKeys(rows, attrs), |rows|)
  {
    entries := map[];
    for rid := 0 to |rows|
      invariant entries == Populate(RowKeys(rows, attrs), rid)
    {
      entries := InsertEntry(entries, KeyOf(rows[rid], attrs), rid);
    }
  }

  // ---- the operations ----

  /** `Modify` stands for whatever a statement does to a table's heap. */
  datatype Op =
    | CreateTable(name: string, schema: Schema, heap: bool)
    | CreateIndex(name: string, table: string, keySchema: Schema, keyAttrs: seq<nat>)
    | Modify(oid: nat, rows: seq<Row>)

  function AddTable(s: State, name: string, schema: Schema, heap: bool): State {
    if name in s.tableNames then s
    else
      var o := s.nextTableOid;
      var info := TableInfo(schema, name, if heap then Some([]) else None, o);
      s.(tables := s.tables[o := info], tableNames := s.tableNames[name := o],
         indexNames := s.indexNames[name := map[]], nextTableOid := o + 1)
  }

  function NewIndex(s: State, name: string, table: string, keySchema: Schema, keyAttrs: seq<nat>, rows: seq<Row>)
    : State
    requires table in s.indexNames
  {
    var o: nat := s.nextIndexOid;
    var listed: map<string, nat> := s.indexNames[table][name := o];
    var info := IndexInfo(keySchema, name, keyAttrs, Populate(RowKeys(rows, keyAttrs), |rows|), o, table);
    s.(indexes := s.indexes[o := info], indexNames := s.indexNames[table := listed], nextIndexOid := o + 1)
  }

  /** A failed consistency assertion throws, as does filling an index from a table without a heap. */
  function AddIndex(s: State, name: string, table: string, keySchema: Schema, keyAttrs: seq<nat>): Result<State> {
    if table !in s.tableNames then Ok(s)
    else if table !in s.indexNames then Throw
    else if name in s.indexNames[table] then Ok(s)
    else if s.tableNames[table] !in s.tables then Throw
    else
      match s.tables[s.tableNames[table]].heap
      case None => Throw
      case Some(rows) => Ok(NewIndex(s, name, table, keySchema, keyAttrs, rows))
  }

  function SetRows(s: State, oid: nat, rows: seq<Row>): State {
    if oid in s.tables && s.tables[oid].heap.Some?
    then s.(tables := s.tables[oid := s.tables[oid].(heap := Some(rows))]) else s
  }

  function Step(s: State, op: Op): Result<State> {
    match op
    case CreateTable(name, schema, heap) => Ok(AddTable(s, name, schema, heap))
    case CreateIndex(name, table, keySchema, keyAttrs) => AddIndex(s, name, table, keySchema, keyAttrs)
    case Modify(oid, rows) => Ok(SetRows(s, oid, rows))
  }

  function Run(s: State, ops: seq<Op>): Result<State>
    decreases |ops|
  {
    if ops == [] then Ok(s)
    else
      var t :- Step(s, ops[0]);
      Run(t, ops[1..])
  }

  lemma NewTableTables(s: State, name: string, schema: Schema, heap: bool)
    requires TablesOk(s) && name !in s.tableNames
    ensures TablesOk(AddTable(s, name, schema, heap))
  {}

  lemma NewTableIndexes(s: State, name: string, schema: Schema, heap: bool)
    requires IndexesOk(s) && name !in s.tableNames
    ensures IndexesOk(AddTable(s, name, schema, heap))
  {
    var t := AddTable(s, name, schema, heap);
    assert t.indexNames.Keys == s.indexNames.Keys + {name} && t.tableNames.Keys == s.tableNames.Keys + {name};
    assert name !in s.indexNames.Keys;
    forall a, n | a in t.indexNames && n in t.indexNames[a] ensures Lists(t, a, n) {
      assert Lists(s, a, n);
    }
    forall o | o in t.indexes ensures Listed(t, o) {
      assert Listed(s, o);
    }
  }

  lemma AddTableKeeps(s: State, name: string, schema: Schema, heap: bool)
    requires Valid(s)
    ensures Valid(AddTable(s, name, schema, heap))
  {
    if name !in s.tableNames {
      NewTableTables(s, name, schema, heap);
      NewTableIndexes(s, name, schema, heap);
    }
  }

  lemma AddIndexKeeps(s: State, name: string, table: string, keySchema: Schema, keyAttrs: seq<nat>)
    requires Valid(s)
    ensures AddIndex(s, name, table, keySchema, keyAttrs).Ok? ==>
              Valid(AddIndex(s, name, table, keySchema, keyAttrs).value)
    ensures AddIndex(s, name, table, keySchema, keyAttrs).Throw? <==>
            && table in s.tableNames && name !in s.indexNames[table]
            && s.tables[s.tableNames[table]].heap.None?
  {
    var r := AddIndex(s, name, table, keySchema, keyAttrs);
    if r.Ok? {
      var t := r.value;
      assert t.indexNames.Keys == s.indexNames.Keys;
      forall a, n | a in t.indexNames && n in t.indexNames[a] ensures Lists(t, a, n) {
        if n in s.indexNames[a] { assert Lists(s, a, n); }
      }
      forall o | o in t.indexes ensures Listed(t, o) && o < t.nextIndexOid {
        if o in s.indexes { assert Listed(s, o); }
      }
    }
  }

  /** No consistency assertion fails in any run; only an index on a table without a heap stops one. */
  lemma StepKeeps(s: State, op: Op)
    requires Valid(s)
    ensures Step(s, op).Ok? ==> Valid(Step(s, op).value)
    ensures Step(s, op).Throw? ==> op.CreateIndex? && op.table in s.tableNames
                                   && s.tables[s.tableNames[op.table]].heap.None?
  {
    match op
    case CreateTable(name, schema, heap) => AddTableKeeps(s, name, schema, heap);
    case CreateIndex(name, table, keySchema, keyAttrs) => AddIndexKeeps(s, name, table, keySchema, keyAttrs);
    case Modify(oid, rows) =>
      assert forall o :: o in s.indexes ==> Listed(s, o);
      assert forall a, n :: a in s.indexNames && n in s.indexNames[a] ==> Lists(s, a, n);
  }

  // ---- what a run leaves on a table ----

  /** Some earlier operation of the run asks for the table. */
  predicate TableMade(ops: seq<Op>, table: string) {
    exists i :: 0 <= i < |ops| && ops[i].CreateTable? && ops[i].name == table
  }

  /** The run asks for the index at a time the table exists. */
  predicate IndexMade(ops: seq<Op>, table: string, name: string) {
    exists j :: 0 <= j < |ops| && ops[j].CreateIndex? && ops[j].name == name && ops[j].table == table
                && TableMade(ops[..j], table)
  }

  predicate Tracks(s: State, ops: seq<Op>, table: string, name: string) {
    && (table in s.tableNames <==> TableMade(ops, table))
    && (table in s.indexNames && name in s.indexNames[table] <==> IndexMade(ops, table, name))
  }

  lemma TableMadeAppend(ops: seq<Op>, op: Op, table: string)
    ensures TableMade(ops + [op], table) <==> TableMade(ops, table) || (op.CreateTable? && op.name == table)
  {
    var all := ops + [op];
    if TableMade(ops, table) {
      var i :| 0 <= i < |ops| && ops[i].CreateTable? && ops[i].name == table;
      assert all[i] == ops[i];
    }
    assert all[|ops|] == op;
  }

  lemma IndexMadeAppend(ops: seq<Op>, op: Op, table: string, name: string)
    ensures IndexMade(ops + [op], table, name) <==>
            || IndexMade(ops, table, name)
            || (op.CreateIndex? && op.name == name && op.table == table && TableMade(ops, table))
  {
    var all := ops + [op];
    assert all[|ops|] == op && all[..|ops|] == ops;
    if IndexMade(ops, table, name) {
      var j :| 0 <= j < |ops| && ops[j].CreateIndex? && ops[j].name == name && ops[j].table == table
               && TableMade(ops[..j], table);
      assert all[j] == ops[j] && all[..j] == ops[..j];
    }
    if IndexMade(all, table, name) {
      var j :| 0 <= j < |all| && all[j].CreateIndex? && all[j].name == name && all[j].table == table
               && TableMade(all[..j], table);
      if j < |ops| { assert all[j] == ops[j] && all[..j] == ops[..j]; }
    }
  }

  lemma AddTableTracks(s: State, past: seq<Op>, op: Op, table: string, name: string)
    requires IndexesOk(s) && Tracks(s, past, table, name) && op.CreateTable?
    ensures Tracks(AddTable(s, op.name, op.schema, op.heap), past + [op], table, name)
  {
    TableMadeAppend(past, op, table);
    IndexMadeAppend(past, op, table, name);
    assert table in s.tableNames.Keys <==> table in s.indexNames.Keys;
  }

  lemma AddIndexTracks(s: State, past: seq<Op>, op: Op, table: string, name: string)
    requires IndexesOk(s) && Tracks(s, past, table, name) && op.CreateIndex? && Step(s, op).Ok?
    ensures Tracks(Step(s, op).value, past + [op], table, name)
  {
    TableMadeAppend(past, op, table);
    IndexMadeAppend(past, op, table, name);
    assert table in s.tableNames.Keys <==> table in s.indexNames.Keys;
  }

  lemma ModifyTracks(s: State, past: seq<Op>, op: Op, table: string, name: string)
    requires Tracks(s, past, table, name) && op.Modify?
    ensures Tracks(SetRows(s, op.oid, op.rows), past + [op], table, name)
  {
    TableMadeAppend(past, op, table);
    IndexMadeAppend(past, op, table, name);
  }

  lemma StepTracks(s: State, past: seq<Op>, op: Op, table: string, name: string)
    requires Valid(s) && Tracks(s, past, table, name) && Step(s, op).Ok?
    ensures Valid(Step(s, op).value) && Tracks(Step(s, op).value, past + [op], table, name)
  {
    StepKeeps(s, op);
    match op
    case CreateTable(_, _, _) => AddTableTracks(s, past, op, table, name);
    case CreateIndex(_, _, _, _) => AddIndexTracks(s, past, op, table, name);
    case Modify(_, _) => ModifyTracks(s, past, op, table, name);
  }

  lemma {:induction false} RunTracks(s: State, past: seq<Op>, ops: seq<Op>, table: string, name: string)
    requires Valid(s) && Tracks(s, past, table, name) && Run(s, ops).Ok?
    ensures Valid(Run(s, ops).value) && Tracks(Run(s, ops).value, past + ops, table, name)
    decreases |ops|
  {
    if ops == [] {
      assert past + ops == past;
    } else {
      StepTracks(s, past, ops[0], table, name);
      RunTracks(Step(s, ops[0]).value, past + [ops[0]], ops[1..], table, name);
      assert past + [ops[0]] + ops[1..] == past + ops;
    }
  }

  /**
   After any run from the empty catalog, the indexes listed for a table are exactly those the run asked for once the
   table existed, and each entry leads to the index of that name on that table.
   */
  lemma IndexesOfRun(ops: seq<Op>, table: string, name: string)
    requires Run(EMPTY, ops).Ok?
    ensures var s := Run(EMPTY, ops).value;
            && Valid(s)
            && (table in s.indexNames && name in s.indexNames[table] <==> IndexMade(ops, table, name))
            && (IndexMade(ops, table, name) ==> Lists(s, table, name))
  {
    RunTracks(EMPTY, [], ops, table, name);
    assert [] + ops == ops;
  }

  // ---- an index keeps what it was created with ----

  lemma {:induction false} RunOfSum(s: State, a: seq<Op>, b: seq<Op>)
    requires Run(s, a).Ok?
    ensures Run(s, a + b) == Run(Run(s, a).value, b)
    decreases |a|
  {
    if a == [] {
      assert a + b == b;
    } else {
      RunOfSum(Step(s, a[0]).value, a[1..], b);
      assert (a + b)[1..] == a[1..] + b;
    }
  }

  lemma StepKeepsIndex(s: State, op: Op, o: nat)
    requires IndexesOk(s) && o in s.indexes && Step(s, op).Ok?
    ensures o in Step(s, op).value.indexes && Step(s, op).value.indexes[o] == s.indexes[o]
  {
    assert o < s.nextIndexOid;
  }

  lemma {:induction false} IndexesStay(s: State, ops: seq<Op>, o: nat)
    requires Valid(s) && o in s.indexes && Run(s, ops).Ok?
    ensures o in Run(s, ops).value.indexes && Run(s, ops).value.indexes[o] == s.indexes[o]
    ensures Valid(Run(s, ops).value)
    decreases |ops|
  {
    if ops != [] {
      StepKeeps(s, ops[0]);
      StepKeepsIndex(s, ops[0], o);
      IndexesStay(Step(s, ops[0]).value, ops[1..], o);
    }
  }

  /** Whatever follows its creation, an index is found by name and holds the keys of the rows of that moment. */
  lemma CreatedIndexLasts(before: seq<Op>, op: Op, after: seq<Op>)
    requires op.CreateIndex? && Run(EMPTY, before).Ok? && Run(EMPTY, before + ([op] + after)).Ok?
    requires TableMade(before, op.table) && !IndexMade(before, op.table, op.name)
    ensures var s, e := Run(EMPTY, before).value, Run(EMPTY, before + ([op] + after)).value;
            && Valid(s) && Valid(e)
            && op.table in s.tableNames && s.tables[s.tableNames[op.table]].heap.Some?
            && op.table in e.indexNames && op.name in e.indexNames[op.table]
            && var rows := s.tables[s.tableNames[op.table]].heap.value;
               var ix := e.indexes[e.indexNames[op.table][op.name]];
               ix.tableName == op.table && ix.name == op.name
               && ix.keySchema == op.keySchema && ix.keyAttrs == op.keyAttrs
               && ix.entries == Populate(RowKeys(rows, op.keyAttrs), |rows|)
  {
    IndexesOfRun(before, op.table, op.name);
    RunTracks(EMPTY, [], before, op.table, op.name);
    assert [] + before == before;
    RunOfSum(EMPTY, before, [op] + after);
    var s := Run(EMPTY, before).value;
    assert ([op] + after)[1..] == after;
    AddIndexKeeps(s, op.name, op.table, op.keySchema, op.keyAttrs);
    var o := s.nextIndexOid;
    var t := Step(s, op).value;
    IndexesStay(t, after, o);
    assert Listed(Run(t, after).value, o);
  }

  // ---- a table keeps what it was created with ----

  /** The rows last put in the table, from those it had. */
  function LastRows(ops: seq<Op>, oid: nat, rows: seq<Row>): seq<Row> {
    if ops == [] then rows
    else LastRows(ops[1..], oid, if ops[0].Modify? && ops[0].oid == oid then ops[0].rows else rows)
  }

  lemma StepKeepsTable(s: State, op: Op, o: nat)
    requires TablesOk(s) && o in s.tables && Step(s, op).Ok?
    ensures var t := Step(s, op).value;
            && o in t.tables && t.tables[o].name == s.tables[o].name && t.tables[o].schema == s.tables[o].schema
            && t.tables[o].heap == (if op.Modify? && op.oid == o && s.tables[o].heap.Some? then Some(op.rows)
                                    else s.tables[o].heap)
  {}

  lemma {:induction false} TablesStay(s: State, ops: seq<Op>, o: nat)
    requires Valid(s) && o in s.tables && Run(s, ops).Ok?
    ensures var e := Run(s, ops).value;
            && Valid(e) && o in e.tables && e.tables[o].name == s.tables[o].name
            && e.tables[o].schema == s.tables[o].schema
            && e.tables[o].heap == match s.tables[o].heap
                                   case None => None
                                   case Some(rows) => Some(LastRows(ops, o, rows))
    decreases |ops|
  {
    if ops != [] {
      StepKeeps(s, ops[0]);
      StepKeepsTable(s, ops[0], o);
      TablesStay(Step(s, ops[0]).value, ops[1..], o);
    }
  }

  /**
   Whatever follows its creation, a table is found by name with the schema it was given, under the next object id of
   that moment, and holds the rows last put in it.
   */
  lemma CreatedTableLasts(before: seq<Op>, op: Op, after: seq<Op>)
    requires op.CreateTable? && Run(EMPTY, before).Ok? && Run(EMPTY, before + ([op] + after)).Ok?
    requires !TableMade(before, op.name)
    ensures var s, e := Run(EMPTY, before).value, Run(EMPTY, before + ([op] + after)).value;
            && Valid(e) && op.name in e.tableNames && e.tableNames[op.name] == s.nextTableOid
            && s.nextTableOid in e.tables
            && var info := e.tables[s.nextTableOid];
               info.name == op.name && info.schema == op.schema && info.oid == s.nextTableOid
               && info.heap == if op.heap then Some(LastRows(after, s.nextTableOid, [])) else None
  {
    RunTracks(EMPTY, [], before, op.name, "");
    assert [] + before == before;
    RunOfSum(EMPTY, before, [op] + after);
    var s := Run(EMPTY, before).value;
    assert ([op] + after)[1..] == after;
    AddTableKeeps(s, op.name, op.schema, op.heap);
    TablesStay(Step(s, op).value, after, s.nextTableOid);
  }
}
