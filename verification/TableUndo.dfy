/** Table rows under interleaved transactions, the write sets they leave, and undoing one of them backwards. */
module TableUndo {
  import opened Values

  datatype Rid = Rid(table: nat, page: nat, slot: nat)

  /** A slot of a table page; a row keeps its bytes while it is only marked deleted. */
  datatype Slot = Free | Live(tuple: Row) | Marked(tuple: Row)

  /** The slots within the tuple counts of their pages: an emptied slot stays, a slot past the page is no key. */
  type Heap = map<Rid, Slot>

  function At(h: Heap, r: Rid): Slot {
    if r in h then h[r] else Free
  }

  // ---- page operations ----

  function MarkDelete(h: Heap, r: Rid): Heap {
    if At(h, r).Live? then h[r := Marked(h[r].tuple)] else h
  }

  function RollbackDelete(h: Heap, r: Rid): Heap {
    if At(h, r).Marked? then h[r := Live(h[r].tuple)] else h
  }

  function ApplyDelete(h: Heap, r: Rid): Heap {
    h[r := Free]
  }

  /** Whether a page has room for a row's new version; the answer depends on everything else in the page. */
  type Room = (Heap, Rid, Row) -> bool

  predicate CanUpdate(h: Heap, r: Rid, t: Row, room: Room) {
    At(h, r).Live? && room(h, r, t)
  }

  // ---- runs ----

  /** What a transaction does to a row; an update that found no room does nothing and is not listed. */
  datatype Op = Insert(rid: Rid, tuple: Row) | Mark(rid: Rid) | Update(rid: Rid, tuple: Row)
  datatype Event = Event(txn: nat, op: Op)

  datatype WType = INSERT | DELETE | UPDATE
  datatype Record = Record(rid: Rid, wtype: WType, prior: Row)

  function Step(h: Heap, op: Op): Heap {
    match op
    case Insert(r, t) => h[r := Live(t)]
    case Mark(r) => MarkDelete(h, r)
    case Update(r, t) => if At(h, r).Live? then h[r := Live(t)] else h
  }

  /**
   A delete is logged even when the row was already deleted or its slot lies past the page; an update is logged with
   the version it replaced.
   */
  function LogOf(h: Heap, op: Op): seq<Record> {
    match op
    case Insert(r, _) => [Record(r, INSERT, [])]
    case Mark(r) => [Record(r, DELETE, [])]
    case Update(r, _) => if At(h, r).Live? then [Record(r, UPDATE, At(h, r).tuple)] else []
  }

  function Run(h: Heap, es: seq<Event>): Heap {
    if es == [] then h else Step(Run(h, es[..|es| - 1]), es[|es| - 1].op)
  }

  /** The write set transaction `t` has accumulated. */
  function WriteSet(h: Heap, es: seq<Event>, t: nat): seq<Record> {
    if es == [] then []
    else
      var e := es[|es| - 1];
      WriteSet(h, es[..|es| - 1], t) + (if e.txn == t then LogOf(Run(h, es[..|es| - 1]), e.op) else [])
  }

  function Without(es: seq<Event>, t: nat): seq<Event> {
    if es == [] then []
    else Without(es[..|es| - 1], t) + (if es[|es| - 1].txn == t then [] else [es[|es| - 1]])
  }

  // ---- undo ----

  function Undo(h: Heap, rec: Record, room: Room): Heap {
    match rec.wtype
    case DELETE => RollbackDelete(h, rec.rid)
    case INSERT => ApplyDelete(h, rec.rid)
    case UPDATE => if CanUpdate(h, rec.rid, rec.prior, room) then h[rec.rid := Live(rec.prior)] else h
  }

  /** The write set popped from the back, where no assertion stops it. */
  function UndoAll(h: Heap, log: seq<Record>, room: Room): Heap
    decreases log
  {
    if log == [] then h else UndoAll(Undo(h, log[|log| - 1], room), log[..|log| - 1], room)
  }

  // ---- assumptions ----

  /** Rows are inserted into free slots only. */
  predicate Allocates(h: Heap, es: seq<Event>) {
    es == [] ||
    (var before := es[..|es| - 1];
     Allocates(h, before) && (es[|es| - 1].op.Insert? ==> At(Run(h, before), es[|es| - 1].op.rid) == Free))
  }

  predicate Touches(es: seq<Event>, t: nat, r: Rid) {
    exists i :: 0 <= i < |es| && es[i].txn == t && es[i].op.rid == r
  }

  /** No row is touched both by `t` and by another transaction. */
  predicate Disjoint(es: seq<Event>, t: nat) {
    forall i, j :: 0 <= i < |es| && 0 <= j < |es| && es[i].txn == t && es[j].txn != t ==> es[i].op.rid != es[j].op.rid
  }

  predicate NoWrites(log: seq<Record>, r: Rid) {
    forall i :: 0 <= i < |log| && log[i].rid == r ==> log[i].wtype == DELETE
  }

  /** When the undo reaches the row's oldest write and that is an update, the old version fits or is already there. */
  predicate FirstUpdateFits(h: Heap, log: seq<Record>, r: Rid, room: Room)
    decreases log
  {
    log == [] ||
    (var rec, rest := log[|log| - 1], log[..|log| - 1];
     && (rec.rid == r && rec.wtype == UPDATE && NoWrites(rest, r) ==>
           CanUpdate(h, r, rec.prior, room) || At(h, r) == Live(rec.prior))
     && FirstUpdateFits(Undo(h, rec, room), rest, r, room))
  }

  /** Emptying a slot asserts that it holds a row, unmarking a row that its slot lies within the page. */
  predicate UndoAssertsHold(h: Heap, log: seq<Record>, room: Room)
    decreases log
  {
    log == [] ||
    (var rec := log[|log| - 1];
     && (rec.wtype == INSERT ==> !At(h, rec.rid).Free?)
     && (rec.wtype == DELETE ==> rec.rid in h)
     && UndoAssertsHold(Undo(h, rec, room), log[..|log| - 1], room))
  }

  predicate Deletes(log: seq<Record>, r: Rid) {
    exists i :: 0 <= i < |log| && log[i].rid == r && log[i].wtype == DELETE
  }

  lemma DeletesLast(log: seq<Record>, r: Rid)
    requires log != []
    ensures Deletes(log, r) <==> Deletes(log[..|log| - 1], r) ||
                                 (log[|log| - 1].rid == r && log[|log| - 1].wtype == DELETE)
  {
    var rest := log[..|log| - 1];
    if Deletes(rest, r) {
      var i :| 0 <= i < |rest| && rest[i].rid == r && rest[i].wtype == DELETE;
      assert log[i] == rest[i];
    }
    if Deletes(log, r) && !(log[|log| - 1].rid == r && log[|log| - 1].wtype == DELETE) {
      var i :| 0 <= i < |log| && log[i].rid == r && log[i].wtype == DELETE;
      assert rest[i] == log[i];
    }
  }

  /** The former assertions, for one row. */
  predicate InsertsPresent(h: Heap, log: seq<Record>, r: Rid, room: Room)
    decreases log
  {
    log == [] ||
    (var rec := log[|log| - 1];
     && (rec.rid == r && rec.wtype == INSERT ==> !At(h, r).Free?)
     && InsertsPresent(Undo(h, rec, room), log[..|log| - 1], r, room))
  }

  /** Where no slot is emptied twice, the slots of the logged deletes decide. */
  lemma {:induction false} RowByRowAsserts(h: Heap, log: seq<Record>, room: Room)
    requires forall r :: InsertsPresent(h, log, r, room)
    ensures UndoAssertsHold(h, log, room) <==> forall r :: Deletes(log, r) ==> r in h
    decreases log
  {
    if log != [] {
      var rec, rest := log[|log| - 1], log[..|log| - 1];
      var h' := Undo(h, rec, room);
      assert InsertsPresent(h, log, rec.rid, room);
      forall r ensures InsertsPresent(h', rest, r, room) {
        assert InsertsPresent(h, log, r, room);
      }
      RowByRowAsserts(h', rest, room);
      assert forall r :: r in h' <==> r in h;
      forall r ensures Deletes(log, r) <==> Deletes(rest, r) || (rec.rid == r && rec.wtype == DELETE) {
        DeletesLast(log, r);
      }
    }
  }

  // ---- rows of other transactions ----

  lemma {:induction false} UndoLeavesOthers(h: Heap, log: seq<Record>, r: Rid, room: Room)
    requires forall i :: 0 <= i < |log| ==> log[i].rid != r
    ensures At(UndoAll(h, log, room), r) == At(h, r)
    ensures FirstUpdateFits(h, log, r, room) && InsertsPresent(h, log, r, room)
    decreases log
  {
    if log != [] { UndoLeavesOthers(Undo(h, log[|log| - 1], room), log[..|log| - 1], r, room); }
  }

  lemma {:induction false} WriteSetRids(h: Heap, es: seq<Event>, t: nat)
    ensures forall i :: 0 <= i < |WriteSet(h, es, t)| ==> Touches(es, t, WriteSet(h, es, t)[i].rid)
  {
    if es != [] {
      var before, e := es[..|es| - 1], es[|es| - 1];
      WriteSetRids(h, before, t);
      forall r | Touches(before, t, r) ensures Touches(es, t, r) {
        var i :| 0 <= i < |before| && before[i].txn == t && before[i].op.rid == r;
        assert es[i] == before[i];
      }
      assert e.txn == t ==> Touches(es, t, e.op.rid);
    }
  }

  lemma WithoutLast(h: Heap, es: seq<Event>, t: nat)
    requires es != []
    ensures var before, e := es[..|es| - 1], es[|es| - 1];
            Run(h, Without(es, t)) ==
            if e.txn == t then Run(h, Without(before, t)) else Step(Run(h, Without(before, t)), e.op)
  {
    var before, e := es[..|es| - 1], es[|es| - 1];
    var w := Without(before, t);
    if e.txn == t {
      assert Without(es, t) == w;
    } else {
      assert (w + [e])[..|w|] == w;
    }
  }

  /** A step affects only its own row, and by that row's slot alone. */
  lemma StepLocal(h: Heap, k: Heap, op: Op, r: Rid)
    ensures op.rid != r ==> At(Step(h, op), r) == At(h, r)
    ensures At(h, r) == At(k, r) ==> At(Step(h, op), r) == At(Step(k, op), r)
  {
  }

  /** A row no event of `t` touches is in the same state in the run without `t`. */
  lemma {:induction false} SameWithout(h: Heap, es: seq<Event>, t: nat, r: Rid)
    requires forall i :: 0 <= i < |es| && es[i].op.rid == r ==> es[i].txn != t
    ensures At(Run(h, es), r) == At(Run(h, Without(es, t)), r)
  {
    if es != [] {
      var before, e := es[..|es| - 1], es[|es| - 1];
      SameWithout(h, before, t, r);
      WithoutLast(h, es, t);
      StepLocal(Run(h, before), Run(h, Without(before, t)), e.op, r);
    }
  }

  // ---- the aborting transaction's own rows ----

  /** No event but those of `t` touches the row. */
  predicate Owned(es: seq<Event>, t: nat, r: Rid) {
    forall i :: 0 <= i < |es| && es[i].op.rid == r ==> es[i].txn == t
  }

  lemma {:induction false} OwnedUntouchedWithout(h: Heap, es: seq<Event>, t: nat, r: Rid)
    requires Owned(es, t, r)
    ensures At(Run(h, Without(es, t)), r) == At(h, r)
  {
    if es != [] {
      var before, e := es[..|es| - 1], es[|es| - 1];
      OwnedUntouchedWithout(h, before, t, r);
      WithoutLast(h, es, t);
      StepLocal(Run(h, Without(before, t)), h, e.op, r);
    }
  }

  /** The undo's slot against the run's: as present, at most as marked, and of equal content when `same`. */
  predicate Tracks(actual: Slot, model: Slot, same: bool) {
    && (actual.Free? <==> model.Free?)
    && (actual.Marked? ==> model.Marked?)
    && (same && !model.Free? ==> actual.tuple == model.tuple)
  }

  predicate SameContent(a: Slot, b: Slot) {
    (a.Free? <==> b.Free?) && (!a.Free? ==> a.tuple == b.tuple)
  }

  /** Undoing only delete marks keeps a row's content, and asks for no room. */
  lemma {:induction false} UndoMarksKeepsContent(h: Heap, log: seq<Record>, r: Rid, room: Room)
    requires NoWrites(log, r)
    ensures SameContent(At(UndoAll(h, log, room), r), At(h, r)) && FirstUpdateFits(h, log, r, room)
    decreases log
  {
    if log != [] { UndoMarksKeepsContent(Undo(h, log[|log| - 1], room), log[..|log| - 1], r, room); }
  }

  /** A row with no logged write has kept its content since the start. */
  lemma {:induction false} UnwrittenKeepsContent(h0: Heap, es: seq<Event>, t: nat, r: Rid)
    requires Owned(es, t, r) && NoWrites(WriteSet(h0, es, t), r)
    ensures SameContent(At(Run(h0, es), r), At(h0, r))
  {
    if es != [] {
      var before, e := es[..|es| - 1], es[|es| - 1];
      var log, last := WriteSet(h0, before, t), LogOf(Run(h0, before), e.op);
      if e.txn == t {
        assert WriteSet(h0, es, t) == log + last;
        if e.op.rid == r && last != [] { assert (log + last)[|log|] == last[0]; }
      }
      assert NoWrites(log, r) by {
        forall i | 0 <= i < |log| && log[i].rid == r ensures log[i].wtype == DELETE {
          assert WriteSet(h0, es, t)[i] == log[i];
        }
      }
      UnwrittenKeepsContent(h0, before, t, r);
    }
  }

  /** Undoing the last logged step on a row brings its slot back in step with the run before that step. */
  lemma UndoTracks(model: Heap, op: Op, h: Heap, same: bool, room: Room)
    requires LogOf(model, op) != []
    requires op.Insert? ==> At(model, op.rid) == Free
    requires Tracks(At(h, op.rid), At(Step(model, op), op.rid), same)
    ensures var rec := LogOf(model, op)[0]; var after := At(Undo(h, rec, room), op.rid);
            Tracks(after, At(model, op.rid), if rec.wtype == UPDATE then after == Live(rec.prior) else same)
  {
  }

  lemma UndoLast(h: Heap, log: seq<Record>, rec: Record, r: Rid, room: Room)
    ensures UndoAll(h, log + [rec], room) == UndoAll(Undo(h, rec, room), log, room)
    ensures FirstUpdateFits(h, log + [rec], r, room) <==>
            && (rec.rid == r && rec.wtype == UPDATE && NoWrites(log, r) ==>
                  CanUpdate(h, r, rec.prior, room) || At(h, r) == Live(rec.prior))
            && FirstUpdateFits(Undo(h, rec, room), log, r, room)
    ensures InsertsPresent(h, log + [rec], r, room) <==>
            && (rec.rid == r && rec.wtype == INSERT ==> !At(h, r).Free?)
            && InsertsPresent(Undo(h, rec, room), log, r, room)
    ensures NoWrites(log + [rec], r) <==> NoWrites(log, r) && (rec.rid == r ==> rec.wtype == DELETE)
  {
    assert (log + [rec])[..|log|] == log;
    if NoWrites(log + [rec], r) {
      assert (log + [rec])[|log|] == rec;
      forall i | 0 <= i < |log| && log[i].rid == r ensures log[i].wtype == DELETE {
        assert (log + [rec])[i] == log[i];
      }
    }
  }

  lemma UndoOther(h: Heap, rec: Record, r: Rid, room: Room)
    requires rec.rid != r
    ensures At(Undo(h, rec, room), r) == At(h, r)
  {
  }

  /** What the undo of `log` must achieve for row `r`, from a slot in step with `model`, to return it to `start`. */
  ghost predicate Restores(start: Slot, model: Slot, log: seq<Record>, r: Rid, room: Room) {
    forall h: Heap {:trigger UndoAll(h, log, room)} :: Tracks(At(h, r), model, false) ==>
      var end := At(UndoAll(h, log, room), r);
      && Tracks(end, start, false) && InsertsPresent(h, log, r, room)
      && (Tracks(At(h, r), model, NoWrites(log, r)) ==>
            (SameContent(end, start) <==> FirstUpdateFits(h, log, r, room)))
  }

  /** One more step of `t` on the row, and its record. */
  lemma RestoresStep(start: Slot, model: Heap, op: Op, log: seq<Record>, room: Room)
    requires Restores(start, At(model, op.rid), log, op.rid, room)
    requires op.Insert? ==> At(model, op.rid) == Free
    requires NoWrites(log, op.rid) ==> SameContent(At(model, op.rid), start)
    ensures Restores(start, At(Step(model, op), op.rid), log + LogOf(model, op), op.rid, room)
  {
    var r, after := op.rid, At(Step(model, op), op.rid);
    if LogOf(model, op) == [] {
      assert log + [] == log;
    } else {
      var rec := LogOf(model, op)[0];
      assert LogOf(model, op) == [rec];
      forall h: Heap | Tracks(At(h, r), after, false)
        ensures var end := At(UndoAll(h, log + [rec], room), r);
                && Tracks(end, start, false) && InsertsPresent(h, log + [rec], r, room)
                && (Tracks(At(h, r), after, NoWrites(log + [rec], r)) ==>
                      (SameContent(end, start) <==> FirstUpdateFits(h, log + [rec], r, room)))
      {
        RestoresStepAt(start, model, op, log, rec, h, room);
      }
    }
  }

  lemma RestoresStepAt(start: Slot, model: Heap, op: Op, log: seq<Record>, rec: Record, h: Heap, room: Room)
    requires Restores(start, At(model, op.rid), log, op.rid, room)
    requires op.Insert? ==> At(model, op.rid) == Free
    requires NoWrites(log, op.rid) ==> SameContent(At(model, op.rid), start)
    requires LogOf(model, op) == [rec] && Tracks(At(h, op.rid), At(Step(model, op), op.rid), false)
    ensures var r, end := op.rid, At(UndoAll(h, log + [rec], room), op.rid);
            && Tracks(end, start, false) && InsertsPresent(h, log + [rec], r, room)
            && (Tracks(At(h, r), At(Step(model, op), r), NoWrites(log + [rec], r)) ==>
                  (SameContent(end, start) <==> FirstUpdateFits(h, log + [rec], r, room)))
  {
    var r, h' := op.rid, Undo(h, rec, room);
    UndoLast(h, log, rec, r, room);
    UndoTracks(model, op, h, false, room);
    assert UndoAll(h', log, room) == UndoAll(h, log + [rec], room);
    if Tracks(At(h, r), At(Step(model, op), r), NoWrites(log + [rec], r)) {
      UndoTracks(model, op, h, NoWrites(log + [rec], r), room);
      if rec.wtype == UPDATE && NoWrites(log, r) && At(h', r) != Live(rec.prior) {
        UndoMarksKeepsContent(h', log, r, room);
      }
    }
  }

  /** The undo of another row's record. */
  lemma RestoresOther(start: Slot, model: Slot, log: seq<Record>, rec: Record, r: Rid, room: Room)
    requires Restores(start, model, log, r, room) && rec.rid != r
    ensures Restores(start, model, log + [rec], r, room)
  {
    forall h: Heap | Tracks(At(h, r), model, false)
      ensures var end := At(UndoAll(h, log + [rec], room), r);
              && Tracks(end, start, false) && InsertsPresent(h, log + [rec], r, room)
              && (Tracks(At(h, r), model, NoWrites(log + [rec], r)) ==>
                    (SameContent(end, start) <==> FirstUpdateFits(h, log + [rec], r, room)))
    {
      UndoLast(h, log, rec, r, room);
      UndoOther(h, rec, r, room);
      assert UndoAll(Undo(h, rec, room), log, room) == UndoAll(h, log + [rec], room);
    }
  }

  lemma RestoresNothing(s: Slot, r: Rid, room: Room)
    ensures Restores(s, s, [], r, room)
  {
    forall h: Heap | Tracks(At(h, r), s, false)
      ensures UndoAll(h, [], room) == h && InsertsPresent(h, [], r, room) && FirstUpdateFits(h, [], r, room)
    {
    }
  }

  /** After any run in which only `t` touches the row, its write set returns the row to where it started. */
  lemma {:induction false} WriteSetRestores(h0: Heap, es: seq<Event>, t: nat, r: Rid, room: Room)
    requires Owned(es, t, r) && Allocates(h0, es)
    ensures Restores(At(h0, r), At(Run(h0, es), r), WriteSet(h0, es, t), r, room)
  {
    if es != [] {
      var before, e := es[..|es| - 1], es[|es| - 1];
      var model, log := Run(h0, before), WriteSet(h0, before, t);
      assert Owned(before, t, r);
      WriteSetRestores(h0, before, t, r, room);
      StepLocal(model, model, e.op, r);
      if e.txn == t && e.op.rid == r {
        if NoWrites(log, r) { UnwrittenKeepsContent(h0, before, t, r); }
        RestoresStep(At(h0, r), model, e.op, log, room);
      } else if e.txn == t && LogOf(model, e.op) != [] {
        RestoresOther(At(h0, r), At(model, r), log, LogOf(model, e.op)[0], r, room);
        assert LogOf(model, e.op) == [LogOf(model, e.op)[0]];
      } else {
        assert log + [] == log;
      }
    } else {
      RestoresNothing(At(h0, r), r, room);
    }
  }

  /**
   Aborting `t` after any interleaving leaves a row as in the run without `t` if and only if the row's first update,
   when it is undone, finds room for the old version or finds it already there.
   */
  lemma AbortRestoresRow(h0: Heap, es: seq<Event>, t: nat, r: Rid, room: Room)
    requires Disjoint(es, t) && Allocates(h0, es) && !At(h0, r).Marked?
    ensures var end, log := Run(h0, es), WriteSet(h0, es, t);
            At(UndoAll(end, log, room), r) == At(Run(h0, Without(es, t)), r) <==> FirstUpdateFits(end, log, r, room)
  {
    var end, log := Run(h0, es), WriteSet(h0, es, t);
    if Touches(es, t, r) {
      assert Owned(es, t, r);
      WriteSetRestores(h0, es, t, r, room);
      OwnedUntouchedWithout(h0, es, t, r);
    } else {
      WriteSetRids(h0, es, t);
      UndoLeavesOthers(end, log, r, room);
      SameWithout(h0, es, t, r);
    }
  }

  predicate Inserted(es: seq<Event>, r: Rid) {
    exists i :: 0 <= i < |es| && es[i].op.Insert? && es[i].op.rid == r
  }

  /** Slots come into a page by insertion only, and none goes. */
  lemma {:induction false} SlotsOfRun(h0: Heap, es: seq<Event>, r: Rid)
    ensures r in Run(h0, es) <==> r in h0 || Inserted(es, r)
  {
    if es != [] {
      var before, e := es[..|es| - 1], es[|es| - 1];
      SlotsOfRun(h0, before, r);
      if Inserted(before, r) {
        var i :| 0 <= i < |before| && before[i].op.Insert? && before[i].op.rid == r;
        assert es[i] == before[i];
      }
      if Inserted(es, r) && !(e.op.Insert? && e.op.rid == r) {
        var i :| 0 <= i < |es| && es[i].op.Insert? && es[i].op.rid == r;
        assert before[i] == es[i];
      }
    }
  }

  predicate Marks(es: seq<Event>, t: nat, r: Rid) {
    exists i :: 0 <= i < |es| && es[i] == Event(t, Mark(r))
  }

  lemma MarksLast(es: seq<Event>, t: nat, r: Rid)
    requires es != []
    ensures Marks(es, t, r) <==> Marks(es[..|es| - 1], t, r) || es[|es| - 1] == Event(t, Mark(r))
  {
    var before, e := es[..|es| - 1], es[|es| - 1];
    if Marks(before, t, r) {
      var i :| 0 <= i < |before| && before[i] == Event(t, Mark(r));
      assert es[i] == before[i];
    }
    if Marks(es, t, r) && e != Event(t, Mark(r)) {
      var i :| 0 <= i < |es| && es[i] == Event(t, Mark(r));
      assert before[i] == es[i];
    }
  }

  lemma {:induction false} DeletesOfRun(h0: Heap, es: seq<Event>, t: nat, r: Rid)
    ensures Deletes(WriteSet(h0, es, t), r) <==> Marks(es, t, r)
  {
    if es != [] {
      var before, e := es[..|es| - 1], es[|es| - 1];
      var log, last := WriteSet(h0, before, t), LogOf(Run(h0, before), e.op);
      DeletesOfRun(h0, before, t, r);
      MarksLast(es, t, r);
      if e.txn == t && last != [] {
        assert last == [last[0]] && WriteSet(h0, es, t) == log + last;
        DeletesLast(log + last, r);
        assert (log + last)[..|log|] == log && (log + last)[|log|] == last[0];
        assert last[0].wtype == DELETE <==> e.op.Mark?;
        assert last[0].rid == e.op.rid;
      } else {
        assert WriteSet(h0, es, t) == log;
      }
    }
  }

  /** Every row the transaction marked had its slot in the page at the start or was inserted during the run. */
  predicate MarksWithinPages(h0: Heap, es: seq<Event>, t: nat) {
    forall i :: 0 <= i < |es| && es[i].txn == t && es[i].op.Mark? ==>
      es[i].op.rid in h0 || Inserted(es, es[i].op.rid)
  }

  /** The undo never empties a slot that is already empty. */
  lemma AbortEmptiesRows(h0: Heap, es: seq<Event>, t: nat, r: Rid, room: Room)
    requires Disjoint(es, t) && Allocates(h0, es)
    ensures InsertsPresent(Run(h0, es), WriteSet(h0, es, t), r, room)
  {
    var end, log := Run(h0, es), WriteSet(h0, es, t);
    if Touches(es, t, r) {
      assert Owned(es, t, r);
      WriteSetRestores(h0, es, t, r, room);
      assert UndoAll(end, log, room) == UndoAll(end, log, room);
    } else {
      WriteSetRids(h0, es, t);
      UndoLeavesOthers(end, log, r, room);
    }
  }

  /** The abort fails no assertion if and only if every row it marked lies within the pages. */
  lemma AbortAssertsExactly(h0: Heap, es: seq<Event>, t: nat, room: Room)
    requires Disjoint(es, t) && Allocates(h0, es)
    ensures var end, log := Run(h0, es), WriteSet(h0, es, t);
            && (UndoAssertsHold(end, log, room) <==> forall r :: Deletes(log, r) ==> r in end)
            && (UndoAssertsHold(end, log, room) <==> MarksWithinPages(h0, es, t))
  {
    var end, log := Run(h0, es), WriteSet(h0, es, t);
    forall r ensures InsertsPresent(end, log, r, room) {
      AbortEmptiesRows(h0, es, t, r, room);
    }
    RowByRowAsserts(end, log, room);
    forall r ensures (r in end <==> r in h0 || Inserted(es, r)) && (Deletes(log, r) <==> Marks(es, t, r)) {
      SlotsOfRun(h0, es, r);
      DeletesOfRun(h0, es, t, r);
    }
    if MarksWithinPages(h0, es, t) {
      forall r | Marks(es, t, r) ensures r in end {
        var i :| 0 <= i < |es| && es[i] == Event(t, Mark(r));
      }
    } else {
      var i :| 0 <= i < |es| && es[i].txn == t && es[i].op.Mark? && es[i].op.rid !in h0 && !Inserted(es, es[i].op.rid);
      assert es[i] == Event(t, Mark(es[i].op.rid));
      assert Marks(es, t, es[i].op.rid);
    }
  }

  /** Deleting a row past the page is logged like any other delete, and neither abort nor commit gets by it. */
  lemma DeletePastPageFails(h0: Heap, r: Rid, t: nat, room: Room)
    requires r !in h0
    ensures var es := [Event(t, Mark(r))];
            && Disjoint(es, t) && Allocates(h0, es)
            && Run(h0, es) == h0 && WriteSet(h0, es, t) == [Record(r, DELETE, [])]
            && !UndoAssertsHold(Run(h0, es), WriteSet(h0, es, t), room)
            && !CommitAssertsHold(Run(h0, es), WriteSet(h0, es, t))
  {
    var es := [Event(t, Mark(r))];
    assert es[..0] == [];
    assert WriteSet(h0, es, t) == [] + [Record(r, DELETE, [])];
  }

  lemma {:induction false} LoneTxn(es: seq<Event>, t: nat)
    requires forall e :: e in es ==> e.txn == t
    ensures Without(es, t) == [] && Disjoint(es, t)
  {
    if es != [] { LoneTxn(es[..|es| - 1], t); }
  }

  // ---- an abort that cannot restore ----

  const ROW0: Rid := Rid(0, 0, 0)
  const ROW1: Rid := Rid(0, 0, 1)

  function Size(s: Slot): nat {
    if s.Free? then 0 else |s.tuple|
  }

  /** A page of three units holding the two rows above. */
  const PAGE_OF_THREE: Room := (h: Heap, r: Rid, t: Row) =>
    Size(At(h, ROW0)) + Size(At(h, ROW1)) - Size(At(h, r)) + |t| <= 3

  const WIDE: Row := [BoolV(true), BoolV(true)]
  const NARROW: Row := [BoolV(false)]

  function Start(): Heap {
    map[ROW0 := Live(WIDE)]
  }

  function Shrink(): Event {
    Event(1, Update(ROW0, NARROW))
  }

  function TakeSpace(): Event {
    Event(2, Insert(ROW1, WIDE))
  }

  function End(): Heap {
    map[ROW0 := Live(NARROW), ROW1 := Live(WIDE)]
  }

  lemma ShrinkRuns()
    ensures Disjoint([Shrink(), TakeSpace()], 1) && Allocates(Start(), [Shrink(), TakeSpace()])
    ensures Run(Start(), [Shrink(), TakeSpace()]) == End()
  {
    var es := [Shrink(), TakeSpace()];
    assert es[..1] == [Shrink()] && [Shrink()][..0] == [];
    assert Run(Start(), [Shrink()]) == map[ROW0 := Live(NARROW)];
    assert Allocates(Start(), [Shrink()]);
  }

  lemma ShrinkLogs()
    ensures WriteSet(Start(), [Shrink(), TakeSpace()], 1) == [Record(ROW0, UPDATE, WIDE)]
  {
    var es := [Shrink(), TakeSpace()];
    assert es[..1] == [Shrink()] && [Shrink()][..0] == [];
    assert WriteSet(Start(), [Shrink()], 1) == [] + [Record(ROW0, UPDATE, WIDE)];
  }

  lemma ShrinkNotUndone()
    ensures UndoAll(End(), [Record(ROW0, UPDATE, WIDE)], PAGE_OF_THREE) == End()
  {
    var log := [Record(ROW0, UPDATE, WIDE)];
    assert log[..0] == [];
    assert !CanUpdate(End(), ROW0, WIDE, PAGE_OF_THREE);
  }

  lemma ShrinkLeftOut()
    ensures Run(Start(), Without([Shrink(), TakeSpace()], 1)) == Start()[ROW1 := Live(WIDE)]
  {
    var es := [Shrink(), TakeSpace()];
    assert es[..1] == [Shrink()] && [Shrink()][..0] == [];
    assert Without([Shrink()], 1) == [];
    assert Without(es, 1) == [] + [TakeSpace()] == [TakeSpace()];
    assert [TakeSpace()][..0] == [];
  }

  /** Transaction 1 shrinks a row, transaction 2 takes the space, and the abort of 1 leaves the row shrunk. */
  lemma ShrunkRowStaysShrunk()
    ensures var es := [Shrink(), TakeSpace()];
            && Disjoint(es, 1) && Allocates(Start(), es)
            && At(UndoAll(Run(Start(), es), WriteSet(Start(), es, 1), PAGE_OF_THREE), ROW0) == Live(NARROW)
            && At(Run(Start(), Without(es, 1)), ROW0) == Live(WIDE)
  {
    ShrinkRuns();
    ShrinkLogs();
    ShrinkNotUndone();
    ShrinkLeftOut();
  }

  // ---- commit ----

  /** Commit pops the write set from the back and empties the slots of deleted rows. */
  function CommitAll(h: Heap, log: seq<Record>): Heap
    decreases log
  {
    if log == [] then h
    else
      var rec := log[|log| - 1];
      CommitAll(if rec.wtype == DELETE then ApplyDelete(h, rec.rid) else h, log[..|log| - 1])
  }

  predicate CommitAssertsHold(h: Heap, log: seq<Record>)
    decreases log
  {
    log == [] ||
    (var rec := log[|log| - 1];
     && (rec.wtype == DELETE ==> !At(h, rec.rid).Free?)
     && CommitAssertsHold(if rec.wtype == DELETE then ApplyDelete(h, rec.rid) else h, log[..|log| - 1]))
  }

  /** After a commit exactly the deleted rows are gone. */
  lemma {:induction false} CommitEmptiesDeleted(h: Heap, log: seq<Record>, r: Rid)
    ensures At(CommitAll(h, log), r) == if Deletes(log, r) then Free else At(h, r)
    decreases log
  {
    if log != [] {
      var rec := log[|log| - 1];
      DeletesLast(log, r);
      CommitEmptiesDeleted(if rec.wtype == DELETE then ApplyDelete(h, rec.rid) else h, log[..|log| - 1], r);
    }
  }

  predicate DeletesOnce(log: seq<Record>) {
    forall i, j :: 0 <= i < j < |log| && log[i].wtype == DELETE && log[j].wtype == DELETE ==> log[i].rid != log[j].rid
  }

  /** Commit's assertions hold exactly when every deleted row is present and none was deleted twice. */
  lemma {:induction false} CommitAssertsExactly(h: Heap, log: seq<Record>)
    ensures CommitAssertsHold(h, log) <==>
            DeletesOnce(log) && forall r :: Deletes(log, r) ==> !At(h, r).Free?
    decreases log
  {
    if log != [] {
      var rec, rest := log[|log| - 1], log[..|log| - 1];
      var h' := if rec.wtype == DELETE then ApplyDelete(h, rec.rid) else h;
      CommitAssertsExactly(h', rest);
      forall r ensures Deletes(log, r) <==> Deletes(rest, r) || (rec.rid == r && rec.wtype == DELETE) {
        DeletesLast(log, r);
      }
      OnceLast(log);
    }
  }

  lemma OnceLast(log: seq<Record>)
    requires log != []
    ensures var rec, rest := log[|log| - 1], log[..|log| - 1];
            DeletesOnce(log) <==> DeletesOnce(rest) && (rec.wtype == DELETE ==> !Deletes(rest, rec.rid))
  {
    var n := |log| - 1;
    var rec, rest := log[n], log[..n];
    if rec.wtype == DELETE && Deletes(rest, rec.rid) {
      var i :| 0 <= i < |rest| && rest[i].rid == rec.rid && rest[i].wtype == DELETE;
      assert log[i] == rest[i];
    }
    if DeletesOnce(rest) && (rec.wtype == DELETE ==> !Deletes(rest, rec.rid)) {
      forall i, j | 0 <= i < j < |log| && log[i].wtype == DELETE && log[j].wtype == DELETE
        ensures log[i].rid != log[j].rid
      {
        assert rest[i] == log[i];
        if j < n { assert rest[j] == log[j]; }
      }
    }
  }

  /** A transaction that marks the same live row twice: both deletes are logged, and commit fails its assertion. */
  lemma DoubleDeleteFails(h: Heap, r: Rid, t: nat)
    requires At(h, r).Live?
    ensures var es := [Event(t, Mark(r)), Event(t, Mark(r))];
            && WriteSet(h, es, t) == [Record(r, DELETE, []), Record(r, DELETE, [])]
            && !CommitAssertsHold(Run(h, es), WriteSet(h, es, t))
  {
    var e := Event(t, Mark(r));
    var es := [e, e];
    assert es[..1] == [e] && [e][..0] == [];
    assert WriteSet(h, [e], t) == [] + [Record(r, DELETE, [])];
    assert WriteSet(h, es, t) == [Record(r, DELETE, [])] + [Record(r, DELETE, [])];
    CommitAssertsExactly(Run(h, es), WriteSet(h, es, t));
  }
}
