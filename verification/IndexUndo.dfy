/** Index entries under interleaved transactions, and undoing one transaction's index write set backwards. */
module IndexUndo {
  import opened Values
  import opened Plans
  import TableUndo

  /** One place of one index: the index and a key value. A key has at most one entry. */
  datatype Cell = Cell(index: nat, key: seq<Value>)
  type Entries = map<Cell, TableUndo.Rid>

  datatype Record = Record(rid: TableUndo.Rid, wtype: TableUndo.WType, tuple: Row, oldTuple: Row, index: nat)
  datatype Event = Event(txn: nat, rec: Record)

  /** The key attributes of each index, as the catalog knows them. */
  type Attrs = nat -> seq<nat>

  function NewCell(rec: Record, attrs: Attrs): Cell {
    Cell(rec.index, KeyOf(rec.tuple, attrs(rec.index)))
  }

  function OldCell(rec: Record, attrs: Attrs): Cell {
    Cell(rec.index, KeyOf(rec.oldTuple, attrs(rec.index)))
  }

  /** Keys are unique: an entry for a present key is not added. */
  function InsertEntry(m: Entries, c: Cell, rid: TableUndo.Rid): Entries {
    if c in m then m else m[c := rid]
  }

  /** Entries are removed by key; the row id passed along is not looked at. */
  function DeleteEntry(m: Entries, c: Cell): Entries {
    m - {c}
  }

  function Apply(m: Entries, rec: Record, attrs: Attrs): Entries {
    match rec.wtype
    case INSERT => InsertEntry(m, NewCell(rec, attrs), rec.rid)
    case DELETE => DeleteEntry(m, NewCell(rec, attrs))
    case UPDATE => InsertEntry(DeleteEntry(m, OldCell(rec, attrs)), NewCell(rec, attrs), rec.rid)
  }

  /** The logged operation did what it says: the entry was not there before, or was there under this row. */
  predicate Effective(m: Entries, rec: Record, attrs: Attrs) {
    var c, o := NewCell(rec, attrs), OldCell(rec, attrs);
    match rec.wtype
    case INSERT => c !in m
    case DELETE => c in m && m[c] == rec.rid
    case UPDATE => o in m && m[o] == rec.rid && (c == o || c !in m)
  }

  function Undo(m: Entries, rec: Record, attrs: Attrs): Entries {
    match rec.wtype
    case DELETE => InsertEntry(m, NewCell(rec, attrs), rec.rid)
    case INSERT => DeleteEntry(m, NewCell(rec, attrs))
    case UPDATE => InsertEntry(DeleteEntry(m, NewCell(rec, attrs)), OldCell(rec, attrs), rec.rid)
  }

  function UndoAll(m: Entries, log: seq<Record>, attrs: Attrs): Entries
    decreases log
  {
    if log == [] then m else UndoAll(Undo(m, log[|log| - 1], attrs), log[..|log| - 1], attrs)
  }

  function Run(m: Entries, es: seq<Event>, attrs: Attrs): Entries {
    if es == [] then m else Apply(Run(m, es[..|es| - 1], attrs), es[|es| - 1].rec, attrs)
  }

  function WriteSet(es: seq<Event>, t: nat): seq<Record> {
    if es == [] then []
    else WriteSet(es[..|es| - 1], t) + (if es[|es| - 1].txn == t then [es[|es| - 1].rec] else [])
  }

  function Without(es: seq<Event>, t: nat): seq<Event> {
    if es == [] then []
    else Without(es[..|es| - 1], t) + (if es[|es| - 1].txn == t then [] else [es[|es| - 1]])
  }

  predicate AllEffective(m: Entries, es: seq<Event>, attrs: Attrs) {
    es == [] ||
    (var before := es[..|es| - 1];
     AllEffective(m, before, attrs) && Effective(Run(m, before, attrs), es[|es| - 1].rec, attrs))
  }

  // ---- the cells of one transaction ----

  predicate Uses(rec: Record, attrs: Attrs, c: Cell) {
    c == NewCell(rec, attrs) || (rec.wtype == TableUndo.UPDATE && c == OldCell(rec, attrs))
  }

  /** `mine` holds every cell `t` uses and none that another transaction uses. */
  ghost predicate Separates(mine: iset<Cell>, es: seq<Event>, t: nat, attrs: Attrs) {
    forall i, c :: 0 <= i < |es| && Uses(es[i].rec, attrs, c) ==> (c in mine <==> es[i].txn == t)
  }

  predicate UsedBySome(es: seq<Event>, attrs: Attrs, c: Cell) {
    exists i :: 0 <= i < |es| && Uses(es[i].rec, attrs, c)
  }

  predicate AgreeAt(a: Entries, b: Entries, c: Cell) {
    (c in a <==> c in b) && (c in a ==> a[c] == b[c])
  }

  /** An operation and its undo change only the cells they use. */
  lemma OnlyUsed(m: Entries, rec: Record, attrs: Attrs, c: Cell)
    requires !Uses(rec, attrs, c)
    ensures AgreeAt(Apply(m, rec, attrs), m, c) && AgreeAt(Undo(m, rec, attrs), m, c)
  {
  }

  /** Undoing an effective operation, from entries that agree with its outcome on its cells, restores those cells. */
  lemma UndoRestores(m: Entries, rec: Record, attrs: Attrs, h: Entries, c: Cell)
    requires Effective(m, rec, attrs) && Uses(rec, attrs, c)
    requires forall d :: Uses(rec, attrs, d) ==> AgreeAt(h, Apply(m, rec, attrs), d)
    ensures AgreeAt(Undo(h, rec, attrs), m, c)
  {
    assert Uses(rec, attrs, NewCell(rec, attrs));
    if rec.wtype == TableUndo.UPDATE { assert Uses(rec, attrs, OldCell(rec, attrs)); }
  }

  lemma {:induction false} UndoKeepsOthers(h: Entries, es: seq<Event>, t: nat, mine: iset<Cell>, attrs: Attrs, c: Cell)
    requires Separates(mine, es, t, attrs) && c !in mine
    ensures AgreeAt(UndoAll(h, WriteSet(es, t), attrs), h, c)
    decreases |es|
  {
    if es != [] {
      var before, e := es[..|es| - 1], es[|es| - 1];
      var log := WriteSet(before, t);
      if e.txn == t {
        assert (log + [e.rec])[..|log|] == log;
        assert !Uses(e.rec, attrs, c);
        OnlyUsed(h, e.rec, attrs, c);
        UndoKeepsOthers(Undo(h, e.rec, attrs), before, t, mine, attrs, c);
      } else {
        assert log + [] == log;
        UndoKeepsOthers(h, before, t, mine, attrs, c);
      }
    }
  }

  lemma {:induction false} UndoRestoresMine(m0: Entries, es: seq<Event>, t: nat, mine: iset<Cell>, attrs: Attrs,
                                            h: Entries, c: Cell)
    requires Separates(mine, es, t, attrs) && AllEffective(m0, es, attrs) && c in mine
    requires forall d :: d in mine ==> AgreeAt(h, Run(m0, es, attrs), d)
    ensures AgreeAt(UndoAll(h, WriteSet(es, t), attrs), m0, c)
    decreases |es|
  {
    if es != [] {
      var before, e := es[..|es| - 1], es[|es| - 1];
      var model, log := Run(m0, before, attrs), WriteSet(before, t);
      if e.txn == t {
        assert (log + [e.rec])[..|log|] == log;
        var h' := Undo(h, e.rec, attrs);
        forall d | d in mine ensures AgreeAt(h', model, d) {
          if Uses(e.rec, attrs, d) {
            forall u | Uses(e.rec, attrs, u) ensures AgreeAt(h, Apply(model, e.rec, attrs), u) {
              assert u in mine;
            }
            UndoRestores(model, e.rec, attrs, h, d);
          } else {
            OnlyUsed(model, e.rec, attrs, d);
            OnlyUsed(h, e.rec, attrs, d);
          }
        }
        UndoRestoresMine(m0, before, t, mine, attrs, h', c);
      } else {
        assert log + [] == log;
        forall d | d in mine ensures AgreeAt(h, model, d) {
          OnlyUsed(model, e.rec, attrs, d);
        }
        UndoRestoresMine(m0, before, t, mine, attrs, h, c);
      }
    }
  }

  lemma WithoutLast(m: Entries, es: seq<Event>, t: nat, attrs: Attrs)
    requires es != []
    ensures var before, e := es[..|es| - 1], es[|es| - 1];
            Run(m, Without(es, t), attrs) ==
            if e.txn == t then Run(m, Without(before, t), attrs)
            else Apply(Run(m, Without(before, t), attrs), e.rec, attrs)
  {
    var before, e := es[..|es| - 1], es[|es| - 1];
    var w := Without(before, t);
    if e.txn == t {
      assert Without(es, t) == w;
    } else {
      assert (w + [e])[..|w|] == w;
    }
  }

  /** What an operation does to a cell it uses depends only on the cells it uses. */
  lemma ApplyAgrees(a: Entries, b: Entries, rec: Record, attrs: Attrs, c: Cell)
    requires AgreeAt(a, b, c) && (Uses(rec, attrs, c) ==> forall d :: Uses(rec, attrs, d) ==> AgreeAt(a, b, d))
    ensures AgreeAt(Apply(a, rec, attrs), Apply(b, rec, attrs), c)
  {
    if !Uses(rec, attrs, c) {
      OnlyUsed(a, rec, attrs, c);
      OnlyUsed(b, rec, attrs, c);
    } else {
      assert Uses(rec, attrs, NewCell(rec, attrs));
      if rec.wtype == TableUndo.UPDATE { assert Uses(rec, attrs, OldCell(rec, attrs)); }
    }
  }

  /** In the run without `t`, its cells stay as they were and all others are as in the full run. */
  lemma {:induction false} WithoutAgrees(m0: Entries, es: seq<Event>, t: nat, mine: iset<Cell>, attrs: Attrs, c: Cell)
    requires Separates(mine, es, t, attrs)
    ensures AgreeAt(Run(m0, Without(es, t), attrs), if c in mine then m0 else Run(m0, es, attrs), c)
    decreases |es|
  {
    if es != [] {
      var before, e := es[..|es| - 1], es[|es| - 1];
      var model, without := Run(m0, before, attrs), Run(m0, Without(before, t), attrs);
      WithoutLast(m0, es, t, attrs);
      WithoutAgrees(m0, before, t, mine, attrs, c);
      if c in mine {
        if e.txn != t { OnlyUsed(without, e.rec, attrs, c); }
      } else if e.txn == t {
        OnlyUsed(model, e.rec, attrs, c);
      } else {
        forall d | Uses(e.rec, attrs, d) ensures AgreeAt(without, model, d) {
          assert d !in mine;
          WithoutAgrees(m0, before, t, mine, attrs, d);
        }
        ApplyAgrees(without, model, e.rec, attrs, c);
      }
    }
  }

  /** Aborting `t` leaves every index exactly as in the run without `t`. */
  lemma AbortRestoresIndexes(m0: Entries, es: seq<Event>, t: nat, mine: iset<Cell>, attrs: Attrs)
    requires Separates(mine, es, t, attrs) && AllEffective(m0, es, attrs)
    ensures UndoAll(Run(m0, es, attrs), WriteSet(es, t), attrs) == Run(m0, Without(es, t), attrs)
  {
    var end := Run(m0, es, attrs);
    var undone, without := UndoAll(end, WriteSet(es, t), attrs), Run(m0, Without(es, t), attrs);
    forall c ensures AgreeAt(undone, without, c) {
      WithoutAgrees(m0, es, t, mine, attrs, c);
      if c in mine {
        UndoRestoresMine(m0, es, t, mine, attrs, end, c);
      } else {
        UndoKeepsOthers(end, es, t, mine, attrs, c);
      }
    }
    assert undone == without by {
      forall c ensures c in undone <==> c in without { assert AgreeAt(undone, without, c); }
      forall c | c in undone ensures undone[c] == without[c] { assert AgreeAt(undone, without, c); }
    }
  }

  // ---- what a run leaves in a cell ----

  /** The operation leaves an entry for the row in the cell. */
  predicate Puts(rec: Record, attrs: Attrs, c: Cell, r: TableUndo.Rid) {
    (rec.wtype == TableUndo.INSERT || rec.wtype == TableUndo.UPDATE) && c == NewCell(rec, attrs) && rec.rid == r
  }

  predicate UnusedFrom(es: seq<Event>, attrs: Attrs, c: Cell, i: nat) {
    forall j :: i <= j < |es| ==> !Uses(es[j].rec, attrs, c)
  }

  /** The last operation on the cell put the row there, or the row was there from the start and no operation was. */
  predicate EntryTold(m0: Entries, es: seq<Event>, attrs: Attrs, c: Cell, r: TableUndo.Rid) {
    || (c in m0 && m0[c] == r && UnusedFrom(es, attrs, c, 0))
    || exists i :: 0 <= i < |es| && Puts(es[i].rec, attrs, c, r) && UnusedFrom(es, attrs, c, i + 1)
  }

  lemma EntryToldLast(m0: Entries, es: seq<Event>, attrs: Attrs, c: Cell, r: TableUndo.Rid)
    requires es != []
    ensures var n := |es| - 1;
            EntryTold(m0, es, attrs, c, r) <==>
            || Puts(es[n].rec, attrs, c, r)
            || (EntryTold(m0, es[..n], attrs, c, r) && !Uses(es[n].rec, attrs, c))
  {
    var n := |es| - 1;
    var before := es[..n];
    assert forall j :: 0 <= j < n ==> before[j] == es[j];
    if EntryTold(m0, es, attrs, c, r) && !(c in m0 && m0[c] == r && UnusedFrom(es, attrs, c, 0)) {
      var i :| 0 <= i < |es| && Puts(es[i].rec, attrs, c, r) && UnusedFrom(es, attrs, c, i + 1);
      if i < n { assert Puts(before[i].rec, attrs, c, r) && UnusedFrom(before, attrs, c, i + 1); }
    }
    if Puts(es[n].rec, attrs, c, r) { assert UnusedFrom(es, attrs, c, n + 1); }
    if EntryTold(m0, before, attrs, c, r) && !Uses(es[n].rec, attrs, c) {
      if c in m0 && m0[c] == r && UnusedFrom(before, attrs, c, 0) {
        assert UnusedFrom(es, attrs, c, 0);
      } else {
        var i :| 0 <= i < n && Puts(before[i].rec, attrs, c, r) && UnusedFrom(before, attrs, c, i + 1);
        assert Puts(es[i].rec, attrs, c, r) && UnusedFrom(es, attrs, c, i + 1);
      }
    }
  }

  /** After any run whose operations did what they say, a cell holds a row exactly when its own operations tell so. */
  lemma {:induction false} CellOfRun(m0: Entries, es: seq<Event>, attrs: Attrs, c: Cell, r: TableUndo.Rid)
    requires AllEffective(m0, es, attrs)
    ensures (c in Run(m0, es, attrs) && Run(m0, es, attrs)[c] == r) <==> EntryTold(m0, es, attrs, c, r)
  {
    if es != [] {
      var n := |es| - 1;
      CellOfRun(m0, es[..n], attrs, c, r);
      EntryToldLast(m0, es, attrs, c, r);
      CellAfter(Run(m0, es[..n], attrs), es[n].rec, attrs, c, r);
    }
  }

  lemma CellAfter(m: Entries, rec: Record, attrs: Attrs, c: Cell, r: TableUndo.Rid)
    requires Effective(m, rec, attrs)
    ensures var t := Apply(m, rec, attrs);
            (c in t && t[c] == r) <==> Puts(rec, attrs, c, r) || (c in m && m[c] == r && !Uses(rec, attrs, c))
  {
    if !Uses(rec, attrs, c) { OnlyUsed(m, rec, attrs, c); }
  }

  // ---- agreement of indexes with tables ----

  /** Every live row of the table is indexed under its key, and every entry points to the live row of that key. */
  ghost predicate Agrees(m: Entries, h: TableUndo.Heap, index: nat, table: nat, attrs: Attrs) {
    && (forall r: TableUndo.Rid :: r.table == table && TableUndo.At(h, r).Live? ==>
          var c := Cell(index, KeyOf(TableUndo.At(h, r).tuple, attrs(index)));
          c in m && m[c] == r)
    && (forall c :: c in m && c.index == index ==>
          && m[c].table == table && TableUndo.At(h, m[c]).Live?
          && KeyOf(TableUndo.At(h, m[c]).tuple, attrs(index)) == c.key)
  }

  lemma AgreesAlike(m: Entries, h: TableUndo.Heap, h': TableUndo.Heap, index: nat, table: nat, attrs: Attrs)
    requires Agrees(m, h, index, table, attrs) && forall r :: TableUndo.At(h', r) == TableUndo.At(h, r)
    ensures Agrees(m, h', index, table, attrs)
  {}

  /**
   Among any other transactions on rows and keys of their own: if the index agrees with its table in the run without
   the transaction, then it agrees with it after the transaction's abort, if that fails no assertion.
   */
  lemma AbortKeepsAgreement(h0: TableUndo.Heap, tes: seq<TableUndo.Event>, m0: Entries, ies: seq<Event>, t: nat,
                            mine: iset<Cell>, index: nat, table: nat, attrs: Attrs, room: TableUndo.Room)
    requires TableUndo.Disjoint(tes, t) && TableUndo.Allocates(h0, tes)
    requires Separates(mine, ies, t, attrs) && AllEffective(m0, ies, attrs)
    requires forall r :: !TableUndo.At(h0, r).Marked?
    requires forall r :: TableUndo.FirstUpdateFits(TableUndo.Run(h0, tes), TableUndo.WriteSet(h0, tes, t), r, room)
    requires Agrees(Run(m0, Without(ies, t), attrs), TableUndo.Run(h0, TableUndo.Without(tes, t)), index, table, attrs)
    ensures Agrees(UndoAll(Run(m0, ies, attrs), WriteSet(ies, t), attrs),
                   TableUndo.UndoAll(TableUndo.Run(h0, tes), TableUndo.WriteSet(h0, tes, t), room), index, table, attrs)
  {
    var h := TableUndo.UndoAll(TableUndo.Run(h0, tes), TableUndo.WriteSet(h0, tes, t), room);
    var h' := TableUndo.Run(h0, TableUndo.Without(tes, t));
    forall r ensures TableUndo.At(h, r) == TableUndo.At(h', r) {
      TableUndo.AbortRestoresRow(h0, tes, t, r, room);
    }
    AbortRestoresIndexes(m0, ies, t, mine, attrs);
    AgreesAlike(Run(m0, Without(ies, t), attrs), h', h, index, table, attrs);
  }

  /** A transaction that ran alone: an index that agreed with its table before it agrees with it after its abort. */
  lemma LoneAbortKeepsAgreement(h0: TableUndo.Heap, tes: seq<TableUndo.Event>, m0: Entries, ies: seq<Event>, t: nat,
                                index: nat, table: nat, attrs: Attrs, room: TableUndo.Room)
    requires (forall e :: e in tes ==> e.txn == t) && (forall e :: e in ies ==> e.txn == t)
    requires TableUndo.Allocates(h0, tes) && AllEffective(m0, ies, attrs)
    requires forall r :: !TableUndo.At(h0, r).Marked?
    requires forall r :: TableUndo.FirstUpdateFits(TableUndo.Run(h0, tes), TableUndo.WriteSet(h0, tes, t), r, room)
    requires Agrees(m0, h0, index, table, attrs)
    ensures Agrees(UndoAll(Run(m0, ies, attrs), WriteSet(ies, t), attrs),
                   TableUndo.UndoAll(TableUndo.Run(h0, tes), TableUndo.WriteSet(h0, tes, t), room), index, table, attrs)
  {
    TableUndo.LoneTxn(tes, t);
    OnlyOneTxn(m0, ies, t, attrs);
    var used := iset c | UsedBySome(ies, attrs, c);
    AbortKeepsAgreement(h0, tes, m0, ies, t, used, index, table, attrs, room);
  }

  lemma {:induction false} OnlyOneTxn(m0: Entries, es: seq<Event>, t: nat, attrs: Attrs)
    requires forall e :: e in es ==> e.txn == t
    ensures Run(m0, Without(es, t), attrs) == m0
  {
    if es != [] {
      WithoutLast(m0, es, t, attrs);
      OnlyOneTxn(m0, es[..|es| - 1], t, attrs);
    }
  }
}
