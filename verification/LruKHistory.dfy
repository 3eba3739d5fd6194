/** What a run leaves of each frame of the LRU-K replacer, in terms of the calls made on that frame. */
module LruKHistory {
  import opened Values
  import opened LruK

  function Of(frames: seq<Frame>, id: int): Option<Frame> {
    var i := IndexOf(frames, id);
    if i < |frames| then Some(frames[i]) else None
  }

  // ---- one call ----

  lemma OfFrame(frames: seq<Frame>, clock: nat, i: nat)
    requires FramesOk(frames, clock) && i < |frames|
    ensures Of(frames, frames[i].id) == Some(frames[i])
  {
    OwnIndex(frames, clock, i);
  }

  lemma OfAbsent(frames: seq<Frame>, id: int)
    requires forall j :: 0 <= j < |frames| ==> frames[j].id != id
    ensures Of(frames, id) == None
  {}

  lemma OfWithout(frames: seq<Frame>, clock: nat, i: nat, id: int)
    requires FramesOk(frames, clock) && i < |frames|
    ensures Of(Without(frames, i), id) == if id == frames[i].id then None else Of(frames, id)
  {
    var rest, j := Without(frames, i), IndexOf(frames, id);
    assert FramesOk(rest, clock);
    if id == frames[i].id {
      OfAbsent(rest, id);
    } else if j < |frames| {
      var k := if j < i then j else j - 1;
      assert rest[k] == frames[j];
      OfFrame(rest, clock, k);
    } else {
      OfAbsent(rest, id);
    }
  }

  lemma OfUpdate(frames: seq<Frame>, i: nat, f: Frame, id: int)
    requires i < |frames| && f.id == frames[i].id && IndexOf(frames, f.id) == i
    ensures Of(frames[i := f], id) == if id == f.id then Some(f) else Of(frames, id)
  {
    var all := frames[i := f];
    var j, k := IndexOf(frames, id), IndexOf(all, id);
    if j < |frames| { assert all[j].id == id; }
    if k < |all| { assert frames[k].id == id; }
  }

  lemma OfAppend(frames: seq<Frame>, f: Frame, id: int)
    requires Of(frames, f.id) == None
    ensures Of(frames + [f], id) == if id == f.id then Some(f) else Of(frames, id)
  {
    var all := frames + [f];
    var j, k := IndexOf(frames, id), IndexOf(all, id);
    if j < |frames| {
      assert all[j].id == id;
    } else if id == f.id {
      assert all[|frames|].id == id;
    }
  }

  /** The frame as the call leaves it: accesses are stamped, the flag is what was last said, a removed frame is gone. */
  lemma CallOnFrame(s: State, op: Op, id: int)
    requires Valid(s) && Step(s, op).Ok?
    ensures var t, was, now := Step(s, op).value, Of(s.frames, id), Of(Step(s, op).value.state.frames, id);
            match op
            case RecordAccess(i) =>
              && t.state.clock == s.clock + 1
              && now == (if i != id then was
                         else if was.None? then Some(Frame(id, [s.clock + 1], false))
                         else Some(was.value.(accesses := was.value.accesses + [s.clock + 1])))
            case SetEvictable(i, on) =>
              && t.state.clock == s.clock
              && (i == id ==> was.Some?) && now == (if i != id then was else Some(was.value.(evictable := on)))
            case Remove(i) =>
              && t.state.clock == s.clock
              && now == (if i != id then was else None) && (i == id && was.Some? ==> was.value.evictable)
            case Evict =>
              && t.state.clock == s.clock + 1
              && now == (if t.victim != Some(id) then was else None)
              && (t.victim == Some(id) ==> was.Some? && was.value.evictable)
  {
    match op
    case RecordAccess(i) => AccessOnFrame(s, i, id);
    case SetEvictable(i, on) => ToggleOnFrame(s, i, on, id);
    case Remove(i) => RemoveOnFrame(s, i, id);
    case Evict =>
      EvictTakesOne(s);
      var v := Step(s, op).value.victim;
      if v.Some? { OfWithout(s.frames, s.clock, IndexOf(s.frames, v.value), id); }
  }

  /** A full replacer takes no new frame, only a known frame is set, and only an evictable one removed. */
  lemma CallFailsExactly(s: State, op: Op)
    requires Valid(s)
    ensures Step(s, op).Throw? <==>
            match op
            case RecordAccess(id) => Of(s.frames, id).None? && |s.frames| == s.capacity
            case SetEvictable(id, _) => Of(s.frames, id).None?
            case Remove(id) => Of(s.frames, id).Some? && !Of(s.frames, id).value.evictable
            case Evict => false
  {
    if op.Evict? { EvictTakesOne(s); }
  }

  lemma AccessOnFrame(s: State, i: int, id: int)
    requires Valid(s) && Touch(s, i).Ok?
    ensures var was := Of(s.frames, id);
            Of(Touch(s, i).value.frames, id) ==
            if i != id then was
            else if was.None? then Some(Frame(id, [s.clock + 1], false))
            else Some(was.value.(accesses := was.value.accesses + [s.clock + 1]))
  {
    var j := IndexOf(s.frames, i);
    if j < |s.frames| {
      OfUpdate(s.frames, j, s.frames[j].(accesses := s.frames[j].accesses + [s.clock + 1]), id);
    } else {
      OfAppend(s.frames, Frame(i, [s.clock + 1], false), id);
    }
  }

  lemma ToggleOnFrame(s: State, i: int, on: bool, id: int)
    requires Valid(s) && Toggle(s, i, on).Ok?
    ensures i == id ==> Of(s.frames, id).Some?
    ensures Of(Toggle(s, i, on).value.frames, id) ==
            if i != id then Of(s.frames, id) else Some(Of(s.frames, id).value.(evictable := on))
  {
    var j := IndexOf(s.frames, i);
    OfUpdate(s.frames, j, s.frames[j].(evictable := on), id);
  }

  lemma RemoveOnFrame(s: State, i: int, id: int)
    requires Valid(s) && RemoveFrame(s, i).Ok?
    ensures Of(RemoveFrame(s, i).value.frames, id) == if i != id then Of(s.frames, id) else None
    ensures i == id && Of(s.frames, id).Some? ==> Of(s.frames, id).value.evictable
  {
    var j := IndexOf(s.frames, i);
    if j < |s.frames| { OfWithout(s.frames, s.clock, j, id); }
  }

  // ---- a run ----

  lemma {:induction false} RunLast(s: State, ops: seq<Op>)
    requires Valid(s) && ops != [] && Run(s, ops).Ok?
    ensures var n := |ops| - 1; var before := Run(s, ops[..n]);
            && before.Ok? && Valid(before.value) && Step(before.value, ops[n]).Ok?
            && Run(s, ops).value == Step(before.value, ops[n]).value.state
    decreases |ops|
  {
    var n := |ops| - 1;
    StepKeeps(s, ops[0]);
    if n == 0 {
      assert ops[..n] == [] && ops[1..] == [];
    } else {
      var t := Step(s, ops[0]).value.state;
      RunLast(t, ops[1..]);
      assert ops[1..][..n - 1] == ops[..n][1..];
      assert ops[..n][0] == ops[0];
    }
  }

  /** The frame an eviction at place `i` of the run takes, if any. */
  function VictimAt(s: State, ops: seq<Op>, i: nat): Option<int>
    requires Valid(s) && i < |ops|
  {
    var before := Run(s, ops[..i]);
    if before.Ok? && before.value.k >= 1 && Step(before.value, ops[i]).Ok?
    then Step(before.value, ops[i]).value.victim else None
  }

  /** The call at place `i` drops the frame: it removes it, or is an eviction that takes it. */
  predicate Drops(s: State, ops: seq<Op>, i: nat, id: int)
    requires Valid(s) && i < |ops|
  {
    ops[i] == Remove(id) || (ops[i] == Evict && VictimAt(s, ops, i) == Some(id))
  }

  predicate KeptSince(s: State, ops: seq<Op>, i: nat, id: int)
    requires Valid(s)
  {
    forall j :: i < j < |ops| ==> !Drops(s, ops, j, id)
  }

  lemma KeptAppend(s: State, ops: seq<Op>, i: nat, id: int)
    requires Valid(s) && ops != [] && i < |ops| - 1
    ensures KeptSince(s, ops, i, id) <==>
            KeptSince(s, ops[..|ops| - 1], i, id) && !Drops(s, ops, |ops| - 1, id)
  {
    var n := |ops| - 1;
    forall j | 0 <= j < n ensures Drops(s, ops, j, id) <==> Drops(s, ops[..n], j, id) {
      assert ops[..n][..j] == ops[..j];
    }
  }

  /** The frame was accessed and not dropped since. */
  predicate Known(s: State, ops: seq<Op>, id: int)
    requires Valid(s)
  {
    exists i :: 0 <= i < |ops| && ops[i] == RecordAccess(id) && KeptSince(s, ops, i, id)
  }

  /** The frame was set evictable, and neither dropped nor set otherwise since. */
  predicate LastSetOn(s: State, ops: seq<Op>, id: int)
    requires Valid(s)
  {
    exists i :: 0 <= i < |ops| && ops[i] == SetEvictable(id, true) && KeptSince(s, ops, i, id)
                && forall j :: i < j < |ops| ==> ops[j] != SetEvictable(id, false)
  }

  /** The calls that advance the clock. */
  function Ticks(ops: seq<Op>): nat {
    if ops == [] then 0
    else Ticks(ops[..|ops| - 1]) + if ops[|ops| - 1].RecordAccess? || ops[|ops| - 1].Evict? then 1 else 0
  }

  /** `x` is the time of an access to the frame since it was last dropped. */
  predicate AccessTime(s: State, ops: seq<Op>, id: int, x: nat)
    requires Valid(s)
  {
    exists i :: 0 <= i < |ops| && ops[i] == RecordAccess(id) && KeptSince(s, ops, i, id)
                && x == s.clock + Ticks(ops[..i + 1])
  }

  lemma KnownAppend(s: State, ops: seq<Op>, id: int)
    requires Valid(s) && ops != []
    ensures var n := |ops| - 1;
            Known(s, ops, id) <==>
            ops[n] == RecordAccess(id) || (Known(s, ops[..n], id) && !Drops(s, ops, n, id))
  {
    var n := |ops| - 1;
    if Known(s, ops, id) && ops[n] != RecordAccess(id) {
      var i :| 0 <= i < |ops| && ops[i] == RecordAccess(id) && KeptSince(s, ops, i, id);
      KeptAppend(s, ops, i, id);
      assert ops[..n][i] == RecordAccess(id);
    }
    if ops[n] == RecordAccess(id) { assert KeptSince(s, ops, n, id); }
    if Known(s, ops[..n], id) && !Drops(s, ops, n, id) {
      var i :| 0 <= i < n && ops[..n][i] == RecordAccess(id) && KeptSince(s, ops[..n], i, id);
      KeptAppend(s, ops, i, id);
      assert ops[i] == RecordAccess(id);
    }
  }

  lemma LastSetAppend(s: State, ops: seq<Op>, id: int)
    requires Valid(s) && ops != []
    ensures var n := |ops| - 1;
            LastSetOn(s, ops, id) <==>
            || ops[n] == SetEvictable(id, true)
            || (LastSetOn(s, ops[..n], id) && !Drops(s, ops, n, id) && ops[n] != SetEvictable(id, false))
  {
    var n := |ops| - 1;
    if LastSetOn(s, ops, id) && ops[n] != SetEvictable(id, true) {
      var i :| 0 <= i < |ops| && ops[i] == SetEvictable(id, true) && KeptSince(s, ops, i, id)
               && forall j :: i < j < |ops| ==> ops[j] != SetEvictable(id, false);
      KeptAppend(s, ops, i, id);
      assert ops[..n][i] == SetEvictable(id, true);
    }
    if ops[n] == SetEvictable(id, true) { assert KeptSince(s, ops, n, id); }
    if LastSetOn(s, ops[..n], id) && !Drops(s, ops, n, id) && ops[n] != SetEvictable(id, false) {
      var i :| 0 <= i < n && ops[..n][i] == SetEvictable(id, true) && KeptSince(s, ops[..n], i, id)
               && forall j :: i < j < n ==> ops[..n][j] != SetEvictable(id, false);
      KeptAppend(s, ops, i, id);
      assert ops[i] == SetEvictable(id, true);
      forall j | i < j < |ops| ensures ops[j] != SetEvictable(id, false) {
        if j < n { assert ops[..n][j] == ops[j]; }
      }
    }
  }

  lemma AccessTimeAppend(s: State, ops: seq<Op>, id: int, x: nat)
    requires Valid(s) && ops != []
    ensures var n := |ops| - 1;
            AccessTime(s, ops, id, x) <==>
            || (ops[n] == RecordAccess(id) && x == s.clock + Ticks(ops))
            || (AccessTime(s, ops[..n], id, x) && !Drops(s, ops, n, id))
  {
    var n := |ops| - 1;
    assert ops[..n + 1] == ops;
    if AccessTime(s, ops, id, x) {
      var i :| 0 <= i < |ops| && ops[i] == RecordAccess(id) && KeptSince(s, ops, i, id)
               && x == s.clock + Ticks(ops[..i + 1]);
      if i < n {
        KeptAppend(s, ops, i, id);
        assert ops[..n][i] == RecordAccess(id) && ops[..n][..i + 1] == ops[..i + 1];
      }
    }
    if ops[n] == RecordAccess(id) { assert KeptSince(s, ops, n, id); }
    if AccessTime(s, ops[..n], id, x) && !Drops(s, ops, n, id) {
      var i :| 0 <= i < n && ops[..n][i] == RecordAccess(id) && KeptSince(s, ops[..n], i, id)
               && x == s.clock + Ticks(ops[..n][..i + 1]);
      KeptAppend(s, ops, i, id);
      assert ops[i] == RecordAccess(id) && ops[..n][..i + 1] == ops[..i + 1];
    }
  }

  /** Frame and calls tell the same. */
  ghost predicate Tells(s: State, ops: seq<Op>, t: State, id: int)
    requires Valid(s)
  {
    var f := Of(t.frames, id);
    && t.clock == s.clock + Ticks(ops)
    && (f.Some? <==> Known(s, ops, id))
    && (f.Some? && f.value.evictable <==> LastSetOn(s, ops, id))
    && (f.Some? ==> forall x: nat :: x in f.value.accesses <==> AccessTime(s, ops, id, x))
    && (f.None? ==> forall x: nat :: !AccessTime(s, ops, id, x))
  }

  /**
   After any run from an empty replacer that trips no assertion: a frame is known exactly when it was accessed and not
   dropped since, evictable exactly when the last setting of it since says so, and its history holds exactly the times
   of its accesses since, in order.
   */
  lemma {:induction false} FrameOfRun(s: State, ops: seq<Op>, id: int)
    requires Valid(s) && s.frames == [] && Run(s, ops).Ok?
    ensures Valid(Run(s, ops).value) && Tells(s, ops, Run(s, ops).value, id)
    decreases |ops|
  {
    RunKeeps(s, ops);
    if ops != [] {
      var n := |ops| - 1;
      RunLast(s, ops);
      var before := Run(s, ops[..n]).value;
      FrameOfRun(s, ops[..n], id);
      FrameOfCall(s, ops, before, id);
    }
  }

  lemma FrameOfCall(s: State, ops: seq<Op>, before: State, id: int)
    requires Valid(s) && ops != [] && Run(s, ops[..|ops| - 1]) == Ok(before) && Valid(before)
    requires Step(before, ops[|ops| - 1]).Ok? && Tells(s, ops[..|ops| - 1], before, id)
    ensures Tells(s, ops, Step(before, ops[|ops| - 1]).value.state, id)
  {
    var n := |ops| - 1;
    CallOnFrame(before, ops[n], id);
    KnownAppend(s, ops, id);
    LastSetAppend(s, ops, id);
    forall x: nat ensures AccessTime(s, ops, id, x) <==>
                          || (ops[n] == RecordAccess(id) && x == s.clock + Ticks(ops))
                          || (AccessTime(s, ops[..n], id, x) && !Drops(s, ops, n, id))
    {
      AccessTimeAppend(s, ops, id, x);
    }
    assert Drops(s, ops, n, id) <==>
           ops[n] == Remove(id) || (ops[n] == Evict && Step(before, ops[n]).value.victim == Some(id));
  }

  /** An eviction takes only a frame last set evictable: one last set otherwise, or never set, is never a victim. */
  lemma VictimWasSet(s: State, ops: seq<Op>, id: int)
    requires Valid(s) && s.frames == [] && Run(s, ops).Ok? && Run(s, ops).value.k >= 1
    requires EvictFrame(Run(s, ops).value).Ok? && EvictFrame(Run(s, ops).value).value.victim == Some(id)
    ensures LastSetOn(s, ops, id)
  {
    FrameOfRun(s, ops, id);
    CallOnFrame(Run(s, ops).value, Evict, id);
  }
}
