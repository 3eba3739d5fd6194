/** What a run leaves in a row's slot, in terms of the row's own events. */
module RowHistory {
  import opened Values
  import opened TableUndo

  predicate InsertsRow(e: Event, r: Rid) {
    e.op.Insert? && e.op.rid == r
  }

  predicate MarksRow(e: Event, r: Rid) {
    e.op.Mark? && e.op.rid == r
  }

  predicate UpdatesRow(e: Event, r: Rid) {
    e.op.Update? && e.op.rid == r
  }

  /** The last insertion of the row, or -1. */
  function LastInsert(es: seq<Event>, r: Rid): (i: int)
    ensures -1 <= i < |es| && (i >= 0 ==> InsertsRow(es[i], r))
    ensures forall j :: i < j < |es| ==> !InsertsRow(es[j], r)
  {
    if es == [] then -1
    else if InsertsRow(es[|es| - 1], r) then |es| - 1 else LastInsert(es[..|es| - 1], r)
  }

  /** The first mark of the row from `from` on, or the end of the run. */
  function FirstMark(es: seq<Event>, r: Rid, from: nat): (m: nat)
    requires from <= |es|
    ensures from <= m <= |es| && (m < |es| ==> MarksRow(es[m], r))
    ensures forall j :: from <= j < m ==> !MarksRow(es[j], r)
    decreases |es| - from
  {
    if from == |es| || MarksRow(es[from], r) then from else FirstMark(es, r, from + 1)
  }

  /** The last update of the row in the stretch, or one before it. */
  function LastUpdate(es: seq<Event>, r: Rid, from: nat, until: nat): (u: int)
    requires from <= until <= |es|
    ensures from - 1 <= u < until && (u >= from ==> UpdatesRow(es[u], r))
    ensures forall j :: from <= j < until && u < j ==> !UpdatesRow(es[j], r)
    decreases until
  {
    if from == until then from - 1 else if UpdatesRow(es[until - 1], r) then until - 1
    else LastUpdate(es, r, from, until - 1)
  }

  /** A live row: its first mark counts, and the last update before that; later ones find it deleted. */
  function LiveRow(tuple: Row, es: seq<Event>, r: Rid, from: nat): Slot
    requires from <= |es|
  {
    var m := FirstMark(es, r, from);
    var u := LastUpdate(es, r, from, m);
    var t := if u >= from then es[u].op.tuple else tuple;
    if m < |es| then Marked(t) else Live(t)
  }

  /** A row starts as it was, or live with what its last insertion wrote. */
  function SlotFromEvents(h0: Heap, es: seq<Event>, r: Rid): Slot {
    var i := LastInsert(es, r);
    if i >= 0 then LiveRow(es[i].op.tuple, es, r, i + 1)
    else if At(h0, r).Live? then LiveRow(At(h0, r).tuple, es, r, 0)
    else At(h0, r)
  }

  /** What one more event, not an insertion of the row, adds to those places. */
  lemma PlacesAppend(es: seq<Event>, e: Event, r: Rid, from: nat)
    requires from <= |es|
    ensures var all, m := es + [e], FirstMark(es, r, from);
            && FirstMark(all, r, from) == (if m < |es| || MarksRow(e, r) then m else |all|)
            && LastUpdate(all, r, from, m) == LastUpdate(es, r, from, m)
            && LastUpdate(all, r, from, |all|) == (if UpdatesRow(e, r) then |es| else LastUpdate(es, r, from, |es|))
  {
    var all, m := es + [e], FirstMark(es, r, from);
    assert forall j :: 0 <= j < |es| ==> all[j] == es[j];
    var m', u, u', v, v' := FirstMark(all, r, from), LastUpdate(es, r, from, m), LastUpdate(all, r, from, m),
                            LastUpdate(es, r, from, |es|), LastUpdate(all, r, from, |all|);
    assert all[|es|] == e;
    assert m' < |all| ==> MarksRow(all[m'], r);
    assert u' >= from ==> UpdatesRow(all[u'], r);
    assert v' >= from ==> UpdatesRow(all[v'], r);
  }

  lemma InsertAppend(es: seq<Event>, e: Event, r: Rid)
    ensures LastInsert(es + [e], r) == if InsertsRow(e, r) then |es| else LastInsert(es, r)
  {
    assert (es + [e])[..|es|] == es;
  }

  /** What an event by itself makes of a slot. */
  function Affected(slot: Slot, e: Event, r: Rid): Slot {
    if InsertsRow(e, r) then Live(e.op.tuple)
    else if MarksRow(e, r) && slot.Live? then Marked(slot.tuple)
    else if UpdatesRow(e, r) && slot.Live? then Live(e.op.tuple)
    else slot
  }

  lemma LiveRowAppend(tuple: Row, es: seq<Event>, e: Event, r: Rid, from: nat)
    requires from <= |es| && !InsertsRow(e, r)
    ensures LiveRow(tuple, es + [e], r, from) == Affected(LiveRow(tuple, es, r, from), e, r)
  {
    PlacesAppend(es, e, r, from);
    var u := LastUpdate(es, r, from, FirstMark(es, r, from));
    if u >= from { assert (es + [e])[u] == es[u]; }
    assert (es + [e])[|es|] == e;
  }

  lemma SlotInserted(h0: Heap, es: seq<Event>, e: Event, r: Rid)
    requires InsertsRow(e, r)
    ensures SlotFromEvents(h0, es + [e], r) == Live(e.op.tuple)
  {
    InsertAppend(es, e, r);
    assert (es + [e])[|es|] == e;
  }

  lemma SlotKept(h0: Heap, es: seq<Event>, e: Event, r: Rid)
    requires !InsertsRow(e, r)
    ensures SlotFromEvents(h0, es + [e], r) == Affected(SlotFromEvents(h0, es, r), e, r)
  {
    var i := LastInsert(es, r);
    InsertAppend(es, e, r);
    if i >= 0 {
      assert (es + [e])[i] == es[i];
      LiveRowAppend(es[i].op.tuple, es, e, r, i + 1);
    } else if At(h0, r).Live? {
      LiveRowAppend(At(h0, r).tuple, es, e, r, 0);
    }
  }

  lemma SlotAppend(h0: Heap, es: seq<Event>, e: Event, r: Rid)
    ensures SlotFromEvents(h0, es + [e], r) == Affected(SlotFromEvents(h0, es, r), e, r)
  {
    if InsertsRow(e, r) { SlotInserted(h0, es, e, r); } else { SlotKept(h0, es, e, r); }
  }

  lemma StepAffects(h: Heap, e: Event, r: Rid)
    ensures At(Step(h, e.op), r) == Affected(At(h, r), e, r)
  {}

  lemma NoEvents(h0: Heap, r: Rid)
    ensures SlotFromEvents(h0, [], r) == At(h0, r)
  {}

  /** After any run, by any transactions, every row's slot is the one its own events tell. */
  lemma {:induction false} SlotOfRun(h0: Heap, es: seq<Event>, r: Rid)
    ensures At(Run(h0, es), r) == SlotFromEvents(h0, es, r)
  {
    if es == [] {
      NoEvents(h0, r);
    } else {
      var before, e := es[..|es| - 1], es[|es| - 1];
      SlotOfRun(h0, before, r);
      StepAffects(Run(h0, before), e, r);
      SlotAppend(h0, before, e, r);
      assert before + [e] == es;
    }
  }

  /**
   A live row that a run marks keeps its tuple, whatever follows short of a new insertion in its slot; no update finds
   it, and marking it leaves every other row alone.
   */
  lemma MarkedStaysMarked(h0: Heap, es: seq<Event>, t: nat, r: Rid, later: seq<Event>)
    requires At(Run(h0, es), r).Live? && forall j :: 0 <= j < |later| ==> !InsertsRow(later[j], r)
    ensures At(Run(h0, es + [Event(t, Mark(r))] + later), r) == Marked(At(Run(h0, es), r).tuple)
    ensures forall tuple, room: Room :: !CanUpdate(Run(h0, es + [Event(t, Mark(r))] + later), r, tuple, room)
    ensures forall q :: q != r ==> At(Run(h0, es + [Event(t, Mark(r))]), q) == At(Run(h0, es), q)
  {
    var marked := es + [Event(t, Mark(r))];
    forall q ensures q != r ==> At(Run(h0, marked), q) == At(Run(h0, es), q) {
      SlotOfRun(h0, es, q);
      SlotOfRun(h0, marked, q);
      SlotAppend(h0, es, Event(t, Mark(r)), q);
    }
    SlotOfRun(h0, es, r);
    SlotAppend(h0, es, Event(t, Mark(r)), r);
    StaysMarked(h0, marked, r, later);
    SlotOfRun(h0, marked + later, r);
  }

  lemma {:induction false} StaysMarked(h0: Heap, es: seq<Event>, r: Rid, later: seq<Event>)
    requires SlotFromEvents(h0, es, r).Marked? && forall j :: 0 <= j < |later| ==> !InsertsRow(later[j], r)
    ensures SlotFromEvents(h0, es + later, r) == SlotFromEvents(h0, es, r)
    decreases |later|
  {
    if later == [] {
      assert es + later == es;
    } else {
      var n := |later| - 1;
      StaysMarked(h0, es, r, later[..n]);
      SlotAppend(h0, es + later[..n], later[n], r);
      assert es + later[..n] + [later[n]] == es + later;
    }
  }
}
