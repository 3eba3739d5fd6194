/** The LRU-K replacer: its operations, what every run of them keeps, and that an eviction takes one evictable frame. */
module LruK {
  import opened Values

  datatype Frame = Frame(id: int, accesses: seq<nat>, evictable: bool)

  /** `size` counts the evictable frames; the invariant keeps it from passing below zero. */
  datatype State = State(clock: nat, size: int, capacity: nat, k: nat, frames: seq<Frame>)

  const SIZE_MAX: nat := 0xFFFF_FFFF_FFFF_FFFF

  function Evictables(frames: seq<Frame>): nat {
    if frames == [] then 0 else (if frames[0].evictable then 1 else 0) + Evictables(frames[1..])
  }

  /** The place of a frame, or the number of frames when it is absent. */
  function IndexOf(frames: seq<Frame>, id: int): (i: nat)
    ensures i <= |frames| && (i < |frames| ==> frames[i].id == id)
    ensures forall j :: 0 <= j < i ==> frames[j].id != id
  {
    if frames == [] then 0 else if frames[0].id == id then 0 else 1 + IndexOf(frames[1..], id)
  }

  // ---- the invariant ----

  predicate Increasing(accesses: seq<nat>) {
    forall a, b :: 0 <= a < b < |accesses| ==> accesses[a] < accesses[b]
  }

  /** An access history is not empty, grows, and lies in the past. */
  predicate History(accesses: seq<nat>, clock: nat) {
    |accesses| > 0 && Increasing(accesses) && forall a :: 0 <= a < |accesses| ==> accesses[a] <= clock
  }

  predicate Apart(f: Frame, g: Frame) {
    forall a, b :: 0 <= a < |f.accesses| && 0 <= b < |g.accesses| ==> f.accesses[a] != g.accesses[b]
  }

  predicate FramesOk(frames: seq<Frame>, clock: nat) {
    && (forall i :: 0 <= i < |frames| ==> History(frames[i].accesses, clock))
    && (forall i, j :: 0 <= i < j < |frames| ==>
          && frames[i].id != frames[j].id
          && frames[i].accesses[0] < frames[j].accesses[0]
          && Apart(frames[i], frames[j]))
  }

  predicate Valid(s: State) {
    s.k >= 1 && |s.frames| <= s.capacity && s.size == Evictables(s.frames) && FramesOk(s.frames, s.clock)
  }

  // ---- the operations ----

  datatype Op = RecordAccess(id: int) | SetEvictable(id: int, on: bool) | Remove(id: int) | Evict

  /** The new state, and for an eviction the frame it took. A failed assertion throws. */
  datatype Outcome = Outcome(state: State, victim: Option<int>)

  function Without(frames: seq<Frame>, i: nat): seq<Frame>
    requires i < |frames|
  {
    frames[..i] + frames[i + 1..]
  }

  function RemoveFrame(s: State, id: int): Result<State> {
    var i := IndexOf(s.frames, id);
    if i == |s.frames| then Ok(s)
    else if !s.frames[i].evictable then Throw
    else Ok(s.(frames := Without(s.frames, i), size := s.size - 1))
  }

  function Toggle(s: State, id: int, on: bool): Result<State> {
    var i := IndexOf(s.frames, id);
    if i == |s.frames| then Throw
    else
      var was := s.frames[i].evictable;
      Ok(s.(size := if on && !was then s.size + 1 else if was && !on then s.size - 1 else s.size,
            frames := s.frames[i := s.frames[i].(evictable := on)]))
  }

  function Touch(s: State, id: int): Result<State> {
    var i, now := IndexOf(s.frames, id), s.clock + 1;
    if i < |s.frames| then
      Ok(s.(clock := now, frames := s.frames[i := s.frames[i].(accesses := s.frames[i].accesses + [now])]))
    else if |s.frames| >= s.capacity then Throw
    else Ok(s.(clock := now, frames := s.frames + [Frame(id, [now], false)]))
  }

  /** Backward k-distance of a frame with at least k accesses. */
  function Distance(f: Frame, now: nat, k: nat): int
    requires 1 <= k <= |f.accesses|
  {
    now - f.accesses[|f.accesses| - k]
  }

  /** The distance the scan remembers for the frame it has just chosen. */
  function Remembered(f: Frame, now: nat, k: nat): int
    requires 1 <= k <= |f.accesses|
  {
    now - f.accesses[k - 1]
  }

  datatype Choice = Choice(distance: int, victim: Option<nat>)

  /** The scan from the back of the frames to place `i`. */
  function Scan(frames: seq<Frame>, now: nat, k: nat, i: nat): (c: Choice)
    requires k >= 1 && i <= |frames|
    ensures c.victim.Some? ==> i <= c.victim.value < |frames| && frames[c.victim.value].evictable
    decreases |frames| - i
  {
    if i == |frames| then Choice(0, None)
    else
      var held, f := Scan(frames, now, k, i + 1), frames[i];
      if !f.evictable then held
      else if |f.accesses| < k then Choice(SIZE_MAX, Some(i))
      else if Distance(f, now, k) > held.distance then Choice(Remembered(f, now, k), Some(i))
      else held
  }

  function EvictFrame(s: State): Result<Outcome>
    requires s.k >= 1
  {
    var now := s.clock + 1;
    var c := Scan(s.frames, now, s.k, 0);
    var t := s.(clock := now);
    if Evictables(s.frames) == 0 then Ok(Outcome(t, None))
    else if c.victim.None? then Throw
    else
      var id := s.frames[c.victim.value].id;
      match RemoveFrame(t, id)
      case Ok(r) => Ok(Outcome(r, Some(id)))
      case Throw => Throw
  }

  function Step(s: State, op: Op): Result<Outcome>
    requires s.k >= 1
  {
    if op.Evict? then EvictFrame(s)
    else
      var r := match op
               case RecordAccess(id) => Touch(s, id)
               case SetEvictable(id, on) => Toggle(s, id, on)
               case Remove(id) => RemoveFrame(s, id)
               case Evict => Throw;
      match r
      case Ok(t) => Ok(Outcome(t, None))
      case Throw => Throw
  }

  // ---- every operation keeps the invariant ----

  lemma {:induction false} CountWithout(frames: seq<Frame>, i: nat)
    requires i < |frames|
    ensures Evictables(frames) == Evictables(Without(frames, i)) + if frames[i].evictable then 1 else 0
  {
    if i > 0 {
      CountWithout(frames[1..], i - 1);
      assert Without(frames, i)[0] == frames[0] && Without(frames, i)[1..] == Without(frames[1..], i - 1);
    } else {
      assert Without(frames, 0) == frames[1..];
    }
  }

  lemma {:induction false} CountUpdate(frames: seq<Frame>, i: nat, f: Frame)
    requires i < |frames|
    ensures Evictables(frames[i := f]) ==
            Evictables(frames) - (if frames[i].evictable then 1 else 0) + if f.evictable then 1 else 0
  {
    if i > 0 {
      CountUpdate(frames[1..], i - 1, f);
      assert frames[i := f][1..] == frames[1..][i - 1 := f];
    } else {
      assert frames[0 := f][1..] == frames[1..];
    }
  }

  lemma {:induction false} CountAppend(frames: seq<Frame>, f: Frame)
    ensures Evictables(frames + [f]) == Evictables(frames) + if f.evictable then 1 else 0
  {
    if frames != [] {
      CountAppend(frames[1..], f);
      assert (frames + [f])[1..] == frames[1..] + [f];
    } else {
      assert (frames + [f])[1..] == [];
    }
  }

  lemma RemoveKeeps(s: State, id: int)
    requires Valid(s)
    ensures RemoveFrame(s, id).Ok? ==> Valid(RemoveFrame(s, id).value)
  {
    var i := IndexOf(s.frames, id);
    if i < |s.frames| { CountWithout(s.frames, i); }
  }

  lemma ToggleKeeps(s: State, id: int, on: bool)
    requires Valid(s)
    ensures Toggle(s, id, on).Ok? ==> Valid(Toggle(s, id, on).value)
  {
    var i := IndexOf(s.frames, id);
    if i < |s.frames| { CountUpdate(s.frames, i, s.frames[i].(evictable := on)); }
  }

  lemma TouchedHistory(accesses: seq<nat>, clock: nat)
    requires History(accesses, clock)
    ensures History(accesses + [clock + 1], clock + 1)
  {}

  lemma TouchedApart(f: Frame, g: Frame, clock: nat)
    requires History(f.accesses, clock) && History(g.accesses, clock) && Apart(f, g)
    ensures Apart(f.(accesses := f.accesses + [clock + 1]), g) && Apart(f, g.(accesses := g.accesses + [clock + 1]))
  {}

  lemma TouchedFrames(frames: seq<Frame>, clock: nat, i: nat)
    requires FramesOk(frames, clock) && i < |frames|
    ensures FramesOk(frames[i := frames[i].(accesses := frames[i].accesses + [clock + 1])], clock + 1)
  {
    var f := frames[i].(accesses := frames[i].accesses + [clock + 1]);
    TouchedHistory(frames[i].accesses, clock);
    assert f.accesses[0] == frames[i].accesses[0];
    forall j | 0 <= j < |frames| && j != i ensures if i < j then Apart(f, frames[j]) else Apart(frames[j], f) {
      if i < j { TouchedApart(frames[i], frames[j], clock); } else { TouchedApart(frames[j], frames[i], clock); }
    }
  }

  lemma AddedFrame(frames: seq<Frame>, clock: nat, id: int)
    requires FramesOk(frames, clock) && forall j :: 0 <= j < |frames| ==> frames[j].id != id
    ensures FramesOk(frames + [Frame(id, [clock + 1], false)], clock + 1)
  {
    forall j | 0 <= j < |frames| ensures Apart(frames[j], Frame(id, [clock + 1], false)) {
      assert History(frames[j].accesses, clock);
    }
  }

  lemma TouchKeeps(s: State, id: int)
    requires Valid(s)
    ensures Touch(s, id).Ok? ==> Valid(Touch(s, id).value)
  {
    var i, now := IndexOf(s.frames, id), s.clock + 1;
    if i < |s.frames| {
      TouchedFrames(s.frames, s.clock, i);
      CountUpdate(s.frames, i, s.frames[i].(accesses := s.frames[i].accesses + [now]));
    } else {
      AddedFrame(s.frames, s.clock, id);
      CountAppend(s.frames, Frame(id, [now], false));
    }
  }

  lemma {:induction false} ScanFinds(frames: seq<Frame>, now: nat, k: nat, i: nat)
    requires k >= 1 && i <= |frames| && now >= 1
    requires forall j :: 0 <= j < |frames| ==> History(frames[j].accesses, now - 1)
    ensures Scan(frames, now, k, i).victim.Some? <==> Evictables(frames[i..]) > 0
    ensures Scan(frames, now, k, i).victim.None? ==> Scan(frames, now, k, i).distance == 0
    decreases |frames| - i
  {
    if i < |frames| {
      ScanFinds(frames, now, k, i + 1);
      assert frames[i..][1..] == frames[i + 1..];
    }
  }

  lemma OwnIndex(frames: seq<Frame>, clock: nat, i: nat)
    requires FramesOk(frames, clock) && i < |frames|
    ensures IndexOf(frames, frames[i].id) == i
  {}

  /** An eviction takes a frame exactly when one is evictable; it takes an evictable one, and only that. */
  lemma EvictTakesOne(s: State)
    requires Valid(s)
    ensures var r := EvictFrame(s);
            && r.Ok? && Valid(r.value.state)
            && r.value.state.clock == s.clock + 1
            && (r.value.victim.Some? <==> s.size > 0)
            && (r.value.victim.None? ==> r.value.state.frames == s.frames)
            && (r.value.victim.Some? ==>
                  var i := IndexOf(s.frames, r.value.victim.value);
                  && i < |s.frames| && s.frames[i].evictable
                  && Scan(s.frames, s.clock + 1, s.k, 0).victim == Some(i)
                  && r.value.state.frames == Without(s.frames, i) && r.value.state.size == s.size - 1)
  {
    var now := s.clock + 1;
    ScanFinds(s.frames, now, s.k, 0);
    assert s.frames[0..] == s.frames;
    var c := Scan(s.frames, now, s.k, 0);
    if c.victim.Some? {
      OwnIndex(s.frames, s.clock, c.victim.value);
      RemoveKeeps(s.(clock := now), s.frames[c.victim.value].id);
    }
  }

  lemma StepKeeps(s: State, op: Op)
    requires Valid(s)
    ensures Step(s, op).Ok? ==> Valid(Step(s, op).value.state)
    ensures op.Evict? ==> Step(s, op).Ok?
  {
    match op
    case RecordAccess(id) => TouchKeeps(s, id);
    case SetEvictable(id, on) => ToggleKeeps(s, id, on);
    case Remove(id) => RemoveKeeps(s, id);
    case Evict => EvictTakesOne(s);
  }

  function Run(s: State, ops: seq<Op>): Result<State>
    requires Valid(s)
    decreases |ops|
  {
    if ops == [] then Ok(s)
    else
      StepKeeps(s, ops[0]);
      match Step(s, ops[0])
      case Ok(o) => Run(o.state, ops[1..])
      case Throw => Throw
  }

  function Fresh(clock: nat, capacity: nat, k: nat): State {
    State(clock, 0, capacity, k, [])
  }

  /** In every run from a new replacer that trips no assertion, the invariant holds at the end. */
  lemma {:induction false} RunKeeps(s: State, ops: seq<Op>)
    requires Valid(s)
    ensures Run(s, ops).Ok? ==> Valid(Run(s, ops).value)
    decreases |ops|
  {
    if ops != [] {
      StepKeeps(s, ops[0]);
      if Step(s, ops[0]).Ok? { RunKeeps(Step(s, ops[0]).value.state, ops[1..]); }
    }
  }
}
