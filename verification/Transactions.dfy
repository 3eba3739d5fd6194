/** The latch protocol of the transaction manager as a state machine over atomic steps. */
module LatchProtocol {

  /** The reader/writer latch, the transactions running under it, the id counter and the ids it has handed out. */
  datatype Sys = Sys(readers: nat, writer: bool, running: multiset<nat>, nextTxnId: nat, issued: seq<nat>)

  /** `Begin` is given a transaction object, `BeginNew` makes one; `Finish` is a commit or an abort. */
  datatype Act = BeginNew | Begin(id: nat) | Finish(id: nat) | Block | Resume

  const INITIAL: Sys := Sys(0, false, multiset{}, 0, [])

  /** The step does not wait: shared mode waits for the writer, exclusive mode for everyone. */
  predicate Enabled(s: Sys, a: Act) {
    match a
    case BeginNew => !s.writer
    case Begin(_) => !s.writer
    case Finish(id) => id in s.running
    case Block => !s.writer && s.readers == 0
    case Resume => s.writer
  }

  function Next(s: Sys, a: Act): Sys {
    match a
    case BeginNew => s.(readers := s.readers + 1, running := s.running + multiset{s.nextTxnId},
                        nextTxnId := s.nextTxnId + 1, issued := s.issued + [s.nextTxnId])
    case Begin(id) => s.(readers := s.readers + 1, running := s.running + multiset{id})
    case Finish(id) => s.(readers := if s.readers > 0 then s.readers - 1 else 0, running := s.running - multiset{id})
    case Block => s.(writer := true)
    case Resume => s.(writer := false)
  }

  function After(acts: seq<Act>): Sys {
    if acts == [] then INITIAL else Next(After(acts[..|acts| - 1]), acts[|acts| - 1])
  }

  /** An interleaving in which no step is taken while it would have to wait. */
  predicate Legal(acts: seq<Act>) {
    acts == [] || (Legal(acts[..|acts| - 1]) && Enabled(After(acts[..|acts| - 1]), acts[|acts| - 1]))
  }

  predicate Increasing(ids: seq<nat>, bound: nat) {
    (forall i :: 0 <= i < |ids| ==> ids[i] < bound) && forall i, j :: 0 <= i < j < |ids| ==> ids[i] < ids[j]
  }

  predicate Inv(s: Sys) {
    s.readers == |s.running| && (s.writer ==> s.readers == 0) && Increasing(s.issued, s.nextTxnId)
  }

  lemma StepKeepsInv(s: Sys, a: Act)
    requires Inv(s) && Enabled(s, a)
    ensures Inv(Next(s, a))
  {
    if a.Finish? { assert |s.running - multiset{a.id}| == |s.running| - 1; }
  }

  lemma {:induction false} AlwaysInv(acts: seq<Act>)
    requires Legal(acts)
    ensures Inv(After(acts))
  {
    if acts != [] {
      AlwaysInv(acts[..|acts| - 1]);
      StepKeepsInv(After(acts[..|acts| - 1]), acts[|acts| - 1]);
    }
  }

  /** In every interleaving: latch holders are the running transactions, none runs while blocked, new ids differ. */
  lemma Safety(acts: seq<Act>)
    requires Legal(acts)
    ensures var s := After(acts);
            && s.readers == |s.running|
            && (s.writer ==> s.running == multiset{})
            && forall i, j :: 0 <= i < j < |s.issued| ==> s.issued[i] != s.issued[j]
  {
    AlwaysInv(acts);
    if After(acts).writer { assert |After(acts).running| == 0; }
  }

  /** The exclusive latch was taken and not released since. */
  predicate Blocked(acts: seq<Act>) {
    exists i :: 0 <= i < |acts| && acts[i] == Block && forall j :: i < j < |acts| ==> acts[j] != Resume
  }

  /** How often a transaction of the id has begun: when given, and once when the id was handed out. */
  function Begun(acts: seq<Act>, id: nat): nat {
    multiset(acts)[Begin(id)] + if id < multiset(acts)[BeginNew] then 1 else 0
  }

  lemma BlockedLast(acts: seq<Act>)
    requires acts != []
    ensures var n := |acts| - 1; Blocked(acts) <==> acts[n] == Block || (Blocked(acts[..n]) && acts[n] != Resume)
  {
    var n := |acts| - 1;
    if Blocked(acts) && acts[n] != Block {
      var i :| 0 <= i < |acts| && acts[i] == Block && forall j :: i < j < |acts| ==> acts[j] != Resume;
      assert acts[..n][i] == Block;
    }
    if Blocked(acts[..n]) && acts[n] != Resume {
      var i :| 0 <= i < n && acts[..n][i] == Block && forall j :: i < j < n ==> acts[..n][j] != Resume;
      assert acts[i] == Block;
      forall j | i < j < |acts| ensures acts[j] != Resume {
        if j < n { assert acts[..n][j] == acts[j]; }
      }
    }
  }

  lemma LastAct(acts: seq<Act>)
    requires acts != []
    ensures multiset(acts) == multiset(acts[..|acts| - 1]) + multiset{acts[|acts| - 1]}
  {
    assert acts == acts[..|acts| - 1] + [acts[|acts| - 1]];
  }

  lemma {:induction false} IssuedExactly(acts: seq<Act>)
    ensures var s := After(acts);
            && s.nextTxnId == multiset(acts)[BeginNew] == |s.issued|
            && forall i :: 0 <= i < |s.issued| ==> s.issued[i] == i
  {
    if acts != [] {
      IssuedExactly(acts[..|acts| - 1]);
      LastAct(acts);
    }
  }

  lemma {:induction false} RunningExactly(acts: seq<Act>, id: nat)
    requires Legal(acts)
    ensures After(acts).running[id] == Begun(acts, id) - multiset(acts)[Finish(id)]
  {
    if acts != [] {
      var n := |acts| - 1;
      RunningExactly(acts[..n], id);
      IssuedExactly(acts[..n]);
      LastAct(acts);
      CountsLast(acts[..n], acts, acts[n], id);
      RunningStep(After(acts[..n]), acts[n], id);
    }
  }

  lemma RunningStep(s: Sys, a: Act, id: nat)
    requires Enabled(s, a)
    ensures Next(s, a).running[id] ==
            s.running[id] + (if a == Begin(id) || (a == BeginNew && s.nextTxnId == id) then 1
                             else if a == Finish(id) then -1 else 0)
  {}

  lemma CountsLast(before: seq<Act>, acts: seq<Act>, a: Act, id: nat)
    requires multiset(acts) == multiset(before) + multiset{a}
    ensures Begun(acts, id) ==
            Begun(before, id) + (if a == Begin(id) || (a == BeginNew && multiset(before)[BeginNew] == id) then 1 else 0)
    ensures multiset(acts)[Finish(id)] == multiset(before)[Finish(id)] + (if a == Finish(id) then 1 else 0)
  {}

  lemma {:induction false} WriterExactly(acts: seq<Act>)
    ensures After(acts).writer <==> Blocked(acts)
  {
    if acts != [] {
      WriterExactly(acts[..|acts| - 1]);
      BlockedLast(acts);
    }
  }

  /**
   What every interleaving leads to, from its calls alone: ids are handed out from 0 on in order, a transaction runs as
   often as it has begun and not finished, and the latch is held exclusively since an unreleased block.
   */
  lemma AfterExactly(acts: seq<Act>)
    requires Legal(acts)
    ensures var s, m := After(acts), multiset(acts);
            && s.nextTxnId == m[BeginNew] == |s.issued| && (forall i :: 0 <= i < |s.issued| ==> s.issued[i] == i)
            && (forall id :: s.running[id] == Begun(acts, id) - m[Finish(id)])
            && (s.writer <==> Blocked(acts))
  {
    IssuedExactly(acts);
    forall id: nat ensures After(acts).running[id] == Begun(acts, id) - multiset(acts)[Finish(id)] {
      RunningExactly(acts, id);
    }
    WriterExactly(acts);
  }

  lemma FinishOne(acts: seq<Act>, id: nat)
    requires Legal(acts) && id in After(acts).running
    ensures Legal(acts + [Finish(id)]) && After(acts + [Finish(id)]) == Next(After(acts), Finish(id))
  {
    assert (acts + [Finish(id)])[..|acts|] == acts;
  }

  lemma SomeRunning(s: Sys) returns (id: nat)
    requires Inv(s) && s.readers > 0
    ensures id in s.running
  {
    assert |s.running| > 0;
    id :| id in s.running;
  }

  /** No interleaving gets stuck: running transactions can finish, and when they have, blocking does not wait. */
  lemma {:induction false} BlockAtLast(acts: seq<Act>) returns (all: seq<Act>)
    requires Legal(acts) && !After(acts).writer
    ensures Legal(all) && Enabled(After(all), Block)
    ensures acts <= all && forall i :: |acts| <= i < |all| ==> all[i].Finish?
    decreases After(acts).readers
  {
    all := acts;
    if After(acts).readers > 0 {
      AlwaysInv(acts);
      var id := SomeRunning(After(acts));
      FinishOne(acts, id);
      all := BlockAtLast(acts + [Finish(id)]);
    }
  }
}

/** Begin, commit and abort over table heaps and indexes. */
module Transactions {
  import opened Values
  import opened LatchProtocol
  import T = TableUndo
  import I = IndexUndo

  datatype TxnState = Growing | Shrinking | Committed | Aborted

  class Transaction {
    const id: nat
    var state: TxnState
    var writeSet: seq<T.Record>
    var indexWriteSet: seq<I.Record>

    constructor (id: nat)
      ensures this.id == id && state == Growing && writeSet == [] && indexWriteSet == []
    {
      this.id := id;
      state, writeSet, indexWriteSet := Growing, [], [];
    }
  }

  /** The table heaps and indexes; `room` and `attrs` are the page layout's and the catalog's answers. */
  class Storage {
    var heap: T.Heap
    var entries: I.Entries
    const room: T.Room
    const attrs: I.Attrs

    constructor (heap: T.Heap, entries: I.Entries, room: T.Room, attrs: I.Attrs)
      ensures this.heap == heap && this.entries == entries && this.room == room && this.attrs == attrs
    {
      this.heap, this.entries, this.room, this.attrs := heap, entries, room, attrs;
    }

    /** `rid` is the slot the page search settled on. */
    method InsertTuple(tuple: Row, rid: T.Rid, txn: Transaction)
      requires T.At(heap, rid) == T.Free
      modifies this`heap, txn`writeSet
      ensures heap == T.Step(old(heap), T.Insert(rid, tuple))
      ensures T.At(heap, rid) == T.Live(tuple) && forall q :: q != rid ==> T.At(heap, q) == T.At(old(heap), q)
      ensures txn.writeSet == old(txn.writeSet) + T.LogOf(old(heap), T.Insert(rid, tuple))
    {
      heap := heap[rid := T.Live(tuple)];
      txn.writeSet := txn.writeSet + [T.Record(rid, T.INSERT, [])];
    }

    /** A live row is marked and keeps its tuple; the record is appended whatever the page answered. */
    method MarkDelete(rid: T.Rid, txn: Transaction)
      modifies this`heap, txn`writeSet
      ensures heap == T.Step(old(heap), T.Mark(rid))
      ensures T.At(heap, rid) == var was := T.At(old(heap), rid); if was.Live? then T.Marked(was.tuple) else was
      ensures forall q :: q != rid ==> T.At(heap, q) == T.At(old(heap), q)
      ensures txn.writeSet == old(txn.writeSet) + T.LogOf(old(heap), T.Mark(rid))
    {
      heap := T.MarkDelete(heap, rid);
      txn.writeSet := txn.writeSet + [T.Record(rid, T.DELETE, [])];
    }

    /** Saves the old version in the write set, unless the transaction is already aborting. */
    method UpdateTuple(tuple: Row, rid: T.Rid, txn: Transaction) returns (updated: bool)
      modifies this`heap, txn`writeSet
      ensures updated == T.CanUpdate(old(heap), rid, tuple, room)
      ensures heap == if updated then T.Step(old(heap), T.Update(rid, tuple)) else old(heap)
      ensures updated ==> T.At(old(heap), rid).Live? && T.At(heap, rid) == T.Live(tuple)
      ensures forall q :: q != rid ==> T.At(heap, q) == T.At(old(heap), q)
      ensures txn.writeSet == old(txn.writeSet) +
              if updated && txn.state != Aborted then T.LogOf(old(heap), T.Update(rid, tuple)) else []
    {
      updated := T.CanUpdate(heap, rid, tuple, room);
      if updated {
        var prior := heap[rid].tuple;
        heap := heap[rid := T.Live(tuple)];
        if txn.state != Aborted {
          txn.writeSet := txn.writeSet + [T.Record(rid, T.UPDATE, prior)];
        }
      }
    }

    /** Fails its assertion on an empty slot. */
    method ApplyDelete(rid: T.Rid) returns (failed: bool)
      modifies this`heap
      ensures failed == T.At(old(heap), rid).Free?
      ensures heap == if failed then old(heap) else T.ApplyDelete(old(heap), rid)
    {
      failed := T.At(heap, rid).Free?;
      if !failed {
        heap := heap[rid := T.Free];
      }
    }

    /** Fails its assertion on a slot past the page. */
    method RollbackDelete(rid: T.Rid) returns (failed: bool)
      modifies this`heap
      ensures failed == (rid !in old(heap))
      ensures heap == if failed then old(heap) else T.RollbackDelete(old(heap), rid)
    {
      failed := rid !in heap;
      if !failed && heap[rid].Marked? {
        heap := heap[rid := T.Live(heap[rid].tuple)];
      }
    }

    method InsertEntry(c: I.Cell, rid: T.Rid)
      modifies this`entries
      ensures entries == I.InsertEntry(old(entries), c, rid)
    {
      if c !in entries {
        entries := entries[c := rid];
      }
    }

    method DeleteEntry(c: I.Cell)
      modifies this`entries
      ensures entries == I.DeleteEntry(old(entries), c)
    {
      entries := entries - {c};
    }
  }

  class TransactionManager {
    var sys: Sys
    var txnMap: map<nat, Transaction>

    constructor ()
      ensures sys == INITIAL && txnMap == map[]
    {
      sys, txnMap := INITIAL, map[];
    }

    method Begin(given: Transaction?) returns (txn: Transaction)
      requires Enabled(sys, BeginNew)
      modifies this
      ensures given != null ==> txn == given && sys == Next(old(sys), LatchProtocol.Begin(given.id))
      ensures given == null ==> fresh(txn) && txn.id == old(sys.nextTxnId) && sys == Next(old(sys), BeginNew)
                                && txn.state == Growing && txn.writeSet == [] && txn.indexWriteSet == []
      ensures txnMap == old(txnMap)[txn.id := txn]
    {
      if given == null {
        txn := new Transaction(sys.nextTxnId);
        sys := Next(sys, BeginNew);
      } else {
        txn := given;
        sys := Next(sys, LatchProtocol.Begin(txn.id));
      }
      txnMap := txnMap[txn.id := txn];
    }

    /** Deferred deletes are applied, newest first, and the write set is emptied, unless an assertion fails. */
    method Commit(txn: Transaction, store: Storage) returns (failed: bool)
      requires Enabled(sys, Finish(txn.id))
      modifies this`sys, txn, store`heap
      ensures failed == !T.CommitAssertsHold(old(store.heap), old(txn.writeSet))
      ensures !failed ==> && store.heap == T.CommitAll(old(store.heap), old(txn.writeSet))
                          && txn.state == Committed && txn.writeSet == []
                          && sys == Next(old(sys), Finish(txn.id))
      ensures txn.indexWriteSet == old(txn.indexWriteSet)
    {
      txn.state := Committed;
      while txn.writeSet != []
        invariant txn.state == Committed && txn.indexWriteSet == old(txn.indexWriteSet) && sys == old(sys)
        invariant T.CommitAssertsHold(store.heap, txn.writeSet)
                  == T.CommitAssertsHold(old(store.heap), old(txn.writeSet))
        invariant T.CommitAll(store.heap, txn.writeSet) == T.CommitAll(old(store.heap), old(txn.writeSet))
        decreases |txn.writeSet|
      {
        var item := txn.writeSet[|txn.writeSet| - 1];
        if item.wtype == T.DELETE {
          failed := store.ApplyDelete(item.rid);
          if failed {
            return;
          }
        }
        txn.writeSet := txn.writeSet[..|txn.writeSet| - 1];
      }
      sys := Next(sys, Finish(txn.id));
      failed := false;
    }

    /** Both write sets are undone from the back; the state set first is what keeps the undo from logging itself. */
    method Abort(txn: Transaction, store: Storage) returns (failed: bool)
      requires Enabled(sys, Finish(txn.id))
      modifies this`sys, txn, store
      ensures failed == !T.UndoAssertsHold(old(store.heap), old(txn.writeSet), store.room)
      ensures !failed ==>
                && store.heap == T.UndoAll(old(store.heap), old(txn.writeSet), store.room)
                && store.entries == I.UndoAll(old(store.entries), old(txn.indexWriteSet), store.attrs)
                && txn.state == Aborted && txn.writeSet == [] && txn.indexWriteSet == []
                && sys == Next(old(sys), Finish(txn.id))
    {
      txn.state := Aborted;
      failed := UndoTables(txn, store);
      if !failed {
        UndoIndexes(txn, store);
        sys := Next(sys, Finish(txn.id));
      }
    }

    method UndoTables(txn: Transaction, store: Storage) returns (failed: bool)
      requires txn.state == Aborted
      modifies txn`writeSet, store`heap
      ensures failed == !T.UndoAssertsHold(old(store.heap), old(txn.writeSet), store.room)
      ensures !failed ==>
                store.heap == T.UndoAll(old(store.heap), old(txn.writeSet), store.room) && txn.writeSet == []
    {
      while txn.writeSet != []
        invariant T.UndoAssertsHold(store.heap, txn.writeSet, store.room)
                  == T.UndoAssertsHold(old(store.heap), old(txn.writeSet), store.room)
        invariant T.UndoAll(store.heap, txn.writeSet, store.room)
                  == T.UndoAll(old(store.heap), old(txn.writeSet), store.room)
        decreases |txn.writeSet|
      {
        var item := txn.writeSet[|txn.writeSet| - 1];
        ghost var rest := txn.writeSet[..|txn.writeSet| - 1];
        if item.wtype == T.DELETE {
          failed := store.RollbackDelete(item.rid);
          if failed {
            return;
          }
        } else if item.wtype == T.INSERT {
          failed := store.ApplyDelete(item.rid);
          if failed {
            return;
          }
        } else {
          var _ := store.UpdateTuple(item.prior, item.rid, txn);
        }
        txn.writeSet := txn.writeSet[..|txn.writeSet| - 1];
        assert txn.writeSet == rest;
      }
      failed := false;
    }

    method UndoIndexes(txn: Transaction, store: Storage)
      modifies txn`indexWriteSet, store`entries
      ensures store.entries == I.UndoAll(old(store.entries), old(txn.indexWriteSet), store.attrs)
      ensures txn.indexWriteSet == []
    {
      while txn.indexWriteSet != []
        invariant I.UndoAll(store.entries, txn.indexWriteSet, store.attrs)
                  == I.UndoAll(old(store.entries), old(txn.indexWriteSet), store.attrs)
        decreases |txn.indexWriteSet|
      {
        var item := txn.indexWriteSet[|txn.indexWriteSet| - 1];
        var newKey := I.NewCell(item, store.attrs);
        if item.wtype == T.DELETE {
          store.InsertEntry(newKey, item.rid);
        } else if item.wtype == T.INSERT {
          store.DeleteEntry(newKey);
        } else {
          store.DeleteEntry(newKey);
          store.InsertEntry(I.OldCell(item, store.attrs), item.rid);
        }
        txn.indexWriteSet := txn.indexWriteSet[..|txn.indexWriteSet| - 1];
      }
    }

    /** While blocked no transaction runs, and every call but ResumeTransactions waits. */
    method BlockAllTransactions()
      requires Inv(sys) && Enabled(sys, Block)
      modifies this`sys
      ensures Inv(sys) && sys.running == multiset{} && sys.nextTxnId == old(sys).nextTxnId
      ensures forall a :: Enabled(sys, a) <==> a == Resume
    {
      assert |sys.running| == 0;
      sys := sys.(writer := true);
    }

    /** Undoes the block: transactions may begin again, and blocking again leads back. */
    method ResumeTransactions()
      requires Inv(sys) && Enabled(sys, Resume)
      modifies this`sys
      ensures Inv(sys) && Enabled(sys, BeginNew) && Next(sys, Block) == old(sys)
    {
      sys := sys.(writer := false);
    }
  }

  /** Deleting a live row and then updating it: the update is refused and the deleted row keeps its tuple. */
  method DeleteThenUpdate(store: Storage, txn: Transaction, other: Transaction, rid: T.Rid, tuple: Row)
    returns (updated: bool)
    requires T.At(store.heap, rid).Live?
    modifies store`heap, txn`writeSet, other`writeSet
    ensures !updated && T.At(store.heap, rid) == T.Marked(T.At(old(store.heap), rid).tuple)
    ensures forall q :: q != rid ==> T.At(store.heap, q) == T.At(old(store.heap), q)
  {
    store.MarkDelete(rid, txn);
    updated := store.UpdateTuple(tuple, rid, other);
  }

  // ---- interleaved calls on one storage ----

  /** A call on the storage by a transaction; an insertion is given its slot by the page search. */
  datatype Call = InsertCall(txn: nat, tuple: Row) | MarkCall(txn: nat, rid: T.Rid)
                | UpdateCall(txn: nat, rid: T.Rid, tuple: Row)

  /** The transactions at work, under their ids, with the write sets the events so far have left them. */
  ghost predicate Working(txns: map<nat, Transaction>, h0: T.Heap, es: seq<T.Event>)
    reads txns.Values
  {
    forall t :: t in txns ==>
      txns[t].id == t && txns[t].state == Growing && txns[t].writeSet == T.WriteSet(h0, es, t)
  }

  lemma RunLast(h0: T.Heap, es: seq<T.Event>, e: T.Event)
    ensures T.Run(h0, es + [e]) == T.Step(T.Run(h0, es), e.op)
    ensures forall t :: T.WriteSet(h0, es + [e], t) ==
                        T.WriteSet(h0, es, t) + if e.txn == t then T.LogOf(T.Run(h0, es), e.op) else []
    ensures T.Allocates(h0, es + [e]) <==>
            T.Allocates(h0, es) && (e.op.Insert? ==> T.At(T.Run(h0, es), e.op.rid) == T.Free)
  {
    assert (es + [e])[..|es|] == es;
  }

  /** An operation through the storage: an update may find no room, and then nothing happens. */
  method Apply(store: Storage, txn: Transaction, op: T.Op) returns (done: bool)
    requires txn.state == Growing && (op.Insert? ==> T.At(store.heap, op.rid) == T.Free)
    modifies store`heap, txn`writeSet
    ensures store.heap == if done then T.Step(old(store.heap), op) else old(store.heap)
    ensures txn.writeSet == old(txn.writeSet) + if done then T.LogOf(old(store.heap), op) else []
    ensures !done <==> op.Update? && !T.CanUpdate(old(store.heap), op.rid, op.tuple, store.room)
  {
    match op
    case Insert(rid, tuple) =>
      store.InsertTuple(tuple, rid, txn);
      done := true;
    case Mark(rid) =>
      store.MarkDelete(rid, txn);
      done := true;
    case Update(rid, tuple) =>
      done := store.UpdateTuple(tuple, rid, txn);
  }

  function OpOf(call: Call, rid: T.Rid): T.Op {
    match call
    case InsertCall(_, tuple) => T.Insert(rid, tuple)
    case MarkCall(_, r) => T.Mark(r)
    case UpdateCall(_, r, tuple) => T.Update(r, tuple)
  }

  /** The event a call amounts to: an update of a deleted row, or one that finds no room, is none. */
  function Effect(call: Call, h: T.Heap, search: T.Heap -> T.Rid, room: T.Room): seq<T.Event> {
    if call.UpdateCall? && !(T.At(h, call.rid).Live? && room(h, call.rid, call.tuple)) then []
    else [T.Event(call.txn, OpOf(call, search(h)))]
  }

  /** The events of calls made one after another. */
  function Events(h0: T.Heap, calls: seq<Call>, search: T.Heap -> T.Rid, room: T.Room): seq<T.Event> {
    if calls == [] then []
    else
      var before := Events(h0, calls[..|calls| - 1], search, room);
      before + Effect(calls[|calls| - 1], T.Run(h0, before), search, room)
  }

  /** One call: the event it amounts to, if any. */
  method Perform(store: Storage, ghost txns: map<nat, Transaction>, txn: Transaction, call: Call,
                 search: T.Heap -> T.Rid, ghost h0: T.Heap, es: seq<T.Event>) returns (done: seq<T.Event>)
    requires forall h :: T.At(h, search(h)) == T.Free
    requires call.txn in txns && txns[call.txn] == txn
    requires Working(txns, h0, es) && store.heap == T.Run(h0, es) && T.Allocates(h0, es)
    modifies store`heap, txn`writeSet
    ensures Working(txns, h0, done) && store.heap == T.Run(h0, done) && T.Allocates(h0, done)
    ensures done == es + Effect(call, old(store.heap), search, store.room)
  {
    var op := OpOf(call, search(store.heap));
    var applied := Apply(store, txn, op);
    done := es;
    if applied {
      done := es + [T.Event(call.txn, op)];
      RunLast(h0, es, T.Event(call.txn, op));
    } else {
      assert es + [] == es;
    }
  }

  /**
   Any interleaving of calls by any number of transactions, then the abort of one that shares no row with the others:
   the abort fails if and only if the transaction marked a row past the pages. Otherwise each row is as the others
   alone would have left it if and only if undoing the row's first update finds room.
   */
  method PerformThenAbort(manager: TransactionManager, store: Storage, txns: map<nat, Transaction>, calls: seq<Call>,
                          search: T.Heap -> T.Rid, t: nat) returns (es: seq<T.Event>, failed: bool)
    requires forall h :: T.At(h, search(h)) == T.Free
    requires t in txns && Working(txns, store.heap, []) && forall i :: 0 <= i < |calls| ==> calls[i].txn in txns
    requires Inv(manager.sys) && Enabled(manager.sys, Finish(t))
    modifies manager, store, txns.Values
    ensures es == Events(old(store.heap), calls, search, store.room)
    ensures T.Disjoint(es, t) ==> (!failed <==> T.MarksWithinPages(old(store.heap), es, t))
    ensures T.Disjoint(es, t) && T.MarksWithinPages(old(store.heap), es, t) ==>
              forall r :: !T.At(old(store.heap), r).Marked? ==>
                (T.At(store.heap, r) == T.At(T.Run(old(store.heap), T.Without(es, t)), r) <==>
                 T.FirstUpdateFits(T.Run(old(store.heap), es), T.WriteSet(old(store.heap), es, t), r, store.room))
  {
    ghost var h0 := store.heap;
    es := [];
    for i := 0 to |calls|
      invariant manager.sys == old(manager.sys) && es == Events(h0, calls[..i], search, store.room)
      invariant Working(txns, h0, es) && store.heap == T.Run(h0, es) && T.Allocates(h0, es)
    {
      assert calls[..i + 1][..i] == calls[..i];
      es := Perform(store, txns, txns[calls[i].txn], calls[i], search, h0, es);
    }
    assert calls[..|calls|] == calls;
    ghost var end, log := store.heap, T.WriteSet(h0, es, t);
    failed := manager.Abort(txns[t], store);
    if T.Disjoint(es, t) {
      T.AbortAssertsExactly(h0, es, t, store.room);
    }
    if T.Disjoint(es, t) && !failed {
      forall r | !T.At(h0, r).Marked?
        ensures T.At(store.heap, r) == T.At(T.Run(h0, T.Without(es, t)), r) <==>
                T.FirstUpdateFits(end, log, r, store.room)
      {
        T.AbortRestoresRow(h0, es, t, r, store.room);
      }
    }
  }
}
