/**
 The frame an LRU-K eviction takes, against the policy it is documented to follow: the largest backward k-distance,
 frames with fewer than k accesses counting as infinitely far, and among those the one first accessed earliest.
 */
module LruKVictim {
  import opened Values
  import opened LruK

  predicate Short(f: Frame, k: nat) {
    |f.accesses| < k
  }

  /** `f` is at least as good a victim as `g`. */
  predicate NoNearer(f: Frame, g: Frame, now: nat, k: nat)
    requires k >= 1 && |f.accesses| > 0 && |g.accesses| > 0
  {
    if Short(f, k) then Short(g, k) ==> f.accesses[0] <= g.accesses[0]
    else !Short(g, k) && Distance(g, now, k) <= Distance(f, now, k)
  }

  /** Frame `w` is the one the policy names. */
  predicate Farthest(frames: seq<Frame>, now: nat, k: nat, w: nat)
    requires k >= 1 && forall j :: 0 <= j < |frames| ==> |frames[j].accesses| > 0
  {
    w < |frames| && frames[w].evictable &&
    forall j :: 0 <= j < |frames| && frames[j].evictable ==> NoNearer(frames[w], frames[j], now, k)
  }

  lemma NearerTrans(f: Frame, g: Frame, h: Frame, now: nat, k: nat)
    requires k >= 1 && |f.accesses| > 0 && |g.accesses| > 0 && |h.accesses| > 0
    requires NoNearer(f, g, now, k) && NoNearer(g, h, now, k)
    ensures NoNearer(f, h, now, k)
  {}

  /** The policy names exactly one frame whenever one is evictable. */
  lemma {:induction false} FarthestExists(frames: seq<Frame>, now: nat, k: nat) returns (w: nat)
    requires k >= 1 && Evictables(frames) > 0
    requires forall j :: 0 <= j < |frames| ==> |frames[j].accesses| > 0
    ensures Farthest(frames, now, k, w)
    decreases |frames|
  {
    if Evictables(frames[1..]) == 0 {
      w := 0;
      forall j | 0 <= j < |frames| && frames[j].evictable ensures j == 0 {
        if j > 0 { NoneEvictable(frames[1..], j - 1); }
      }
    } else {
      var r := FarthestExists(frames[1..], now, k);
      var best := frames[1..][r];
      if frames[0].evictable && NoNearer(frames[0], best, now, k) {
        w := 0;
        forall j | 1 <= j < |frames| && frames[j].evictable ensures NoNearer(frames[0], frames[j], now, k) {
          assert frames[j] == frames[1..][j - 1];
          NearerTrans(frames[0], best, frames[j], now, k);
        }
      } else {
        w := r + 1;
        forall j | 1 <= j < |frames| && frames[j].evictable ensures NoNearer(best, frames[j], now, k) {
          assert frames[j] == frames[1..][j - 1];
        }
      }
    }
  }

  lemma {:induction false} NoneEvictable(frames: seq<Frame>, i: nat)
    requires i < |frames| && Evictables(frames) == 0
    ensures !frames[i].evictable
  {
    if i > 0 { NoneEvictable(frames[1..], i - 1); }
  }

  lemma FarthestUnique(frames: seq<Frame>, clock: nat, k: nat, v: nat, w: nat)
    requires k >= 1 && FramesOk(frames, clock)
    requires Farthest(frames, clock + 1, k, v) && Farthest(frames, clock + 1, k, w)
    ensures v == w
  {}

  // ---- the scan ----

  /** A choice stands while no frame in front of it exceeds the distance remembered for it. */
  lemma {:induction false} ScanHolds(frames: seq<Frame>, now: nat, k: nat, w: nat, i: nat)
    requires k >= 1 && i <= w < |frames|
    requires forall j :: i <= j < w && frames[j].evictable ==>
               !Short(frames[j], k) && Distance(frames[j], now, k) <= Scan(frames, now, k, w).distance
    ensures Scan(frames, now, k, i) == Scan(frames, now, k, w)
    decreases w - i
  {
    if i < w { ScanHolds(frames, now, k, w, i + 1); }
  }

  /** Conversely, if the choice made at `w` is still held at `i`, nothing between displaced it. */
  lemma {:induction false} ScanHeld(frames: seq<Frame>, now: nat, k: nat, w: nat, i: nat)
    requires k >= 1 && i <= w < |frames| && Scan(frames, now, k, i).victim == Some(w)
    ensures Scan(frames, now, k, i) == Scan(frames, now, k, w)
    ensures forall j :: i <= j < w && frames[j].evictable ==>
              !Short(frames[j], k) && Distance(frames[j], now, k) <= Scan(frames, now, k, w).distance
    decreases w - i
  {
    if i < w { ScanHeld(frames, now, k, w, i + 1); }
  }

  /**
   What the frames must look like for the scan to take `w`: a short history always does; otherwise the distance
   remembered from the frames behind `w` is below its own, and no frame in front exceeds the one remembered for `w`.
   */
  predicate Taken(frames: seq<Frame>, now: nat, k: nat, w: nat)
    requires k >= 1 && w < |frames|
  {
    Short(frames[w], k) ||
    (&& Scan(frames, now, k, w + 1).distance < Distance(frames[w], now, k)
     && forall j :: 0 <= j < w && frames[j].evictable ==>
          Short(frames[j], k) || Distance(frames[j], now, k) <= Remembered(frames[w], now, k))
  }

  lemma VictimIsScanned(s: State, w: nat)
    requires Valid(s) && w < |s.frames| && s.frames[w].evictable
    ensures EvictFrame(s).Ok?
    ensures EvictFrame(s).value.victim == Some(s.frames[w].id) <==>
            Scan(s.frames, s.clock + 1, s.k, 0).victim == Some(w)
  {
    EvictTakesOne(s);
    OwnIndex(s.frames, s.clock, w);
    AnyEvictable(s.frames, w);
  }

  /** The eviction follows the policy exactly when the frame the policy names meets that condition. */
  lemma VictimExactly(s: State, w: nat)
    requires Valid(s) && s.clock < SIZE_MAX && Farthest(s.frames, s.clock + 1, s.k, w)
    ensures EvictFrame(s).Ok?
    ensures EvictFrame(s).value.victim == Some(s.frames[w].id) <==> Taken(s.frames, s.clock + 1, s.k, w)
  {
    VictimIsScanned(s, w);
    if Taken(s.frames, s.clock + 1, s.k, w) { TakenIsHeld(s.frames, s.clock, s.k, w); }
    if Scan(s.frames, s.clock + 1, s.k, 0).victim == Some(w) { HeldIsTaken(s.frames, s.clock + 1, s.k, w); }
  }

  lemma HeldIsTaken(frames: seq<Frame>, now: nat, k: nat, w: nat)
    requires k >= 1 && w < |frames| && Scan(frames, now, k, 0).victim == Some(w)
    ensures Taken(frames, now, k, w)
  {
    ScanHeld(frames, now, k, w, 0);
  }

  lemma {:induction false} AnyEvictable(frames: seq<Frame>, i: nat)
    requires i < |frames| && frames[i].evictable
    ensures Evictables(frames) > 0
  {
    if i > 0 { AnyEvictable(frames[1..], i - 1); }
  }

  lemma TakenIsHeld(frames: seq<Frame>, clock: nat, k: nat, w: nat)
    requires k >= 1 && FramesOk(frames, clock) && clock < SIZE_MAX && Farthest(frames, clock + 1, k, w)
    requires Taken(frames, clock + 1, k, w)
    ensures Scan(frames, clock + 1, k, 0).victim == Some(w)
  {
    var now := clock + 1;
    assert Scan(frames, now, k, w).victim == Some(w);
    forall j | 0 <= j < w && frames[j].evictable
      ensures !Short(frames[j], k) && Distance(frames[j], now, k) <= Scan(frames, now, k, w).distance
    {
      assert NoNearer(frames[w], frames[j], now, k);
      assert frames[j].accesses[0] < frames[w].accesses[0];
    }
    ScanHolds(frames, now, k, w, 0);
  }

  // ---- when the condition is met ----

  /** A frame with fewer than k accesses, if any is evictable, is always the right one. */
  lemma ShortHistoryFirst(s: State, w: nat)
    requires Valid(s) && s.clock < SIZE_MAX && Farthest(s.frames, s.clock + 1, s.k, w)
    requires Short(s.frames[w], s.k)
    ensures EvictFrame(s).Ok? && EvictFrame(s).value.victim == Some(s.frames[w].id)
  {
    VictimExactly(s, w);
  }

  // ---- the scan in terms of the histories ----

  /** Every evictable frame from place `i` on has at least k accesses. */
  predicate LongFrom(frames: seq<Frame>, k: nat, i: nat) {
    forall j :: 0 <= i <= j < |frames| && frames[j].evictable ==> !Short(frames[j], k)
  }

  /** No evictable frame from place `i` up to `u` lies farther back than the k-th access of `u`. */
  predicate Stands(frames: seq<Frame>, now: nat, k: nat, i: nat, u: nat)
    requires k >= 1 && u < |frames| && frames[u].evictable && LongFrom(frames, k, i) && i <= u
  {
    forall j :: i <= j < u && frames[j].evictable ==> Distance(frames[j], now, k) <= Remembered(frames[u], now, k)
  }

  /** Frame `v` is the nearest one in front of `u` that lies farther back than the k-th access of `u`. */
  predicate Displaces(frames: seq<Frame>, now: nat, k: nat, v: nat, u: nat)
    requires k >= 1
  {
    && v < u < |frames| && frames[u].evictable && frames[v].evictable && LongFrom(frames, k, v)
    && Stands(frames, now, k, v + 1, u) && Distance(frames[v], now, k) > Remembered(frames[u], now, k)
  }

  /** Displacements that start at the hindmost evictable frame. */
  predicate Displacements(frames: seq<Frame>, now: nat, k: nat, c: seq<nat>)
    requires k >= 1
  {
    && c != [] && c[0] < |frames| && frames[c[0]].evictable && LongFrom(frames, k, c[0])
    && (forall j :: c[0] < j < |frames| ==> !frames[j].evictable)
    && forall x :: 0 <= x < |c| - 1 ==> Displaces(frames, now, k, c[x + 1], c[x])
  }

  predicate EndsAt(c: seq<nat>, w: nat) {
    c != [] && c[|c| - 1] == w
  }

  lemma DisplacementsAlong(frames: seq<Frame>, now: nat, k: nat, c: seq<nat>, v: nat)
    requires k >= 1 && Displacements(frames, now, k, c) && Displaces(frames, now, k, v, c[|c| - 1])
    ensures Displacements(frames, now, k, c + [v])
  {
    var d := c + [v];
    forall x | 0 <= x < |d| - 1 ensures Displaces(frames, now, k, d[x + 1], d[x]) {
      if x < |c| - 1 { assert d[x] == c[x] && d[x + 1] == c[x + 1]; }
    }
  }

  /** The scan's choice is where displacements have led so far. */
  lemma {:induction false} ScanFollows(frames: seq<Frame>, clock: nat, k: nat, i: nat) returns (c: seq<nat>)
    requires k >= 1 && FramesOk(frames, clock) && i <= |frames| && LongFrom(frames, k, i)
    ensures var s := Scan(frames, clock + 1, k, i);
            if s.victim.None? then s.distance == 0 && forall j :: i <= j < |frames| ==> !frames[j].evictable
            else
              var u := s.victim.value;
              && s.distance == Remembered(frames[u], clock + 1, k) && Stands(frames, clock + 1, k, i, u)
              && Displacements(frames, clock + 1, k, c) && EndsAt(c, u)
    decreases |frames| - i
  {
    c := [];
    if i < |frames| {
      c := ScanFollows(frames, clock, k, i + 1);
      var before := Scan(frames, clock + 1, k, i + 1);
      if Scan(frames, clock + 1, k, i) != before {
        assert History(frames[i].accesses, clock);
        if before.victim.None? {
          c := [i];
        } else {
          assert Displaces(frames, clock + 1, k, i, before.victim.value);
          DisplacementsAlong(frames, clock + 1, k, c, i);
          c := c + [i];
        }
      }
    }
  }

  /** Each frame has at most one that displaces it, so there is one path. */
  lemma {:induction false} OnePath(frames: seq<Frame>, now: nat, k: nat, c: seq<nat>, d: seq<nat>)
    requires k >= 1 && Displacements(frames, now, k, c) && Displacements(frames, now, k, d) && |c| <= |d|
    ensures forall x :: 0 <= x < |c| ==> c[x] == d[x]
    decreases |c|
  {
    if |c| > 1 {
      var n := |c| - 1;
      OnePath(frames, now, k, c[..n], d);
      assert Displaces(frames, now, k, c[n], c[n - 1]) && Displaces(frames, now, k, d[n], d[n - 1]);
      assert c[n - 1] == c[..n][n - 1] == d[n - 1];
      forall x | 0 <= x < n ensures c[x] == d[x] { assert c[x] == c[..n][x]; }
    } else {
      assert c[0] == d[0];
    }
  }

  /** A path that another is longer than can be continued. */
  lemma ShorterGoesOn(frames: seq<Frame>, now: nat, k: nat, c: seq<nat>, d: seq<nat>, u: nat)
    requires k >= 1 && LongFrom(frames, k, 0) && Displacements(frames, now, k, c) && Displacements(frames, now, k, d)
    requires |c| < |d| && EndsAt(c, u)
    ensures u < |frames| && frames[u].evictable && !Stands(frames, now, k, 0, u)
  {
    OnePath(frames, now, k, c, d);
    assert Displaces(frames, now, k, d[|c|], d[|c| - 1]);
  }

  /** Displacements lead to `w` and no further. */
  ghost predicate Settles(frames: seq<Frame>, now: nat, k: nat, w: nat)
    requires k >= 1
  {
    && w < |frames| && frames[w].evictable && LongFrom(frames, k, 0) && Stands(frames, now, k, 0, w)
    && exists c :: Displacements(frames, now, k, c) && EndsAt(c, w)
  }

  lemma SettlesOnce(frames: seq<Frame>, now: nat, k: nat, v: nat, w: nat)
    requires k >= 1 && Settles(frames, now, k, v) && Settles(frames, now, k, w)
    ensures v == w
  {
    var c :| Displacements(frames, now, k, c) && EndsAt(c, v);
    var d :| Displacements(frames, now, k, d) && EndsAt(d, w);
    if |c| < |d| {
      ShorterGoesOn(frames, now, k, c, d, v);
    } else if |d| < |c| {
      ShorterGoesOn(frames, now, k, d, c, w);
    } else {
      OnePath(frames, now, k, c, d);
    }
  }

  lemma ScanSettles(frames: seq<Frame>, clock: nat, k: nat, w: nat)
    requires k >= 1 && FramesOk(frames, clock) && LongFrom(frames, k, 0) && w < |frames| && frames[w].evictable
    ensures Scan(frames, clock + 1, k, 0).victim == Some(w) <==> Settles(frames, clock + 1, k, w)
  {
    var d := ScanFollows(frames, clock, k, 0);
    var u := Scan(frames, clock + 1, k, 0).victim.value;
    assert Settles(frames, clock + 1, k, u);
    if Settles(frames, clock + 1, k, w) { SettlesOnce(frames, clock + 1, k, u, w); }
  }

  lemma NoShorter(frames: seq<Frame>, now: nat, k: nat, w: nat)
    requires k >= 1 && forall j :: 0 <= j < |frames| ==> |frames[j].accesses| > 0
    requires Farthest(frames, now, k, w) && !Short(frames[w], k)
    ensures LongFrom(frames, k, 0)
  {
    forall j | 0 <= j < |frames| && frames[j].evictable ensures !Short(frames[j], k) {
      assert NoNearer(frames[w], frames[j], now, k);
    }
  }

  /**
   For all histories and in their terms: the eviction follows the policy if and only if the frame the policy names has
   fewer than k accesses, or displacements lead to it from the hindmost evictable frame and no further.
   */
  lemma VictimByHistories(s: State, w: nat)
    requires Valid(s) && s.clock < SIZE_MAX && Farthest(s.frames, s.clock + 1, s.k, w)
    ensures EvictFrame(s).Ok?
    ensures EvictFrame(s).value.victim == Some(s.frames[w].id) <==>
            Short(s.frames[w], s.k) || Settles(s.frames, s.clock + 1, s.k, w)
  {
    if Short(s.frames[w], s.k) {
      ShortHistoryFirst(s, w);
    } else {
      VictimIsScanned(s, w);
      NoShorter(s.frames, s.clock + 1, s.k, w);
      ScanSettles(s.frames, s.clock, s.k, w);
    }
  }

  /** What the scan remembers never exceeds the distance of its choice, while histories hold under 2k accesses. */
  lemma {:induction false} RemembersLess(frames: seq<Frame>, clock: nat, k: nat, i: nat)
    requires k >= 1 && FramesOk(frames, clock) && i <= |frames|
    requires forall j :: i <= j < |frames| && frames[j].evictable ==> k <= |frames[j].accesses| <= 2 * k - 1
    ensures var c := Scan(frames, clock + 1, k, i);
            if c.victim.None? then c.distance == 0
            else c.distance <= Distance(frames[c.victim.value], clock + 1, k)
    decreases |frames| - i
  {
    if i < |frames| {
      RemembersLess(frames, clock, k, i + 1);
      var a := frames[i].accesses;
      assert frames[i].evictable ==> a[|a| - k] <= a[k - 1];
    }
  }

  lemma BehindIsNearer(frames: seq<Frame>, clock: nat, k: nat, w: nat)
    requires k >= 1 && FramesOk(frames, clock) && Farthest(frames, clock + 1, k, w)
    requires forall j :: 0 <= j < |frames| && frames[j].evictable ==> k <= |frames[j].accesses| <= 2 * k - 1
    ensures Scan(frames, clock + 1, k, w + 1).distance < Distance(frames[w], clock + 1, k)
  {
    RemembersLess(frames, clock, k, w + 1);
    var c := Scan(frames, clock + 1, k, w + 1);
    assert History(frames[w].accesses, clock);
    if c.victim.Some? {
      assert NoNearer(frames[w], frames[c.victim.value], clock + 1, k);
      assert Apart(frames[w], frames[c.victim.value]);
    }
  }

  /**
   While every evictable history holds from k to 2k - 1 accesses, the eviction follows the policy exactly when no
   frame in front of the right one is farther back than the k-th access of the right one.
   */
  lemma BriefHistories(s: State, w: nat)
    requires Valid(s) && s.clock < SIZE_MAX && Farthest(s.frames, s.clock + 1, s.k, w)
    requires forall j :: 0 <= j < |s.frames| && s.frames[j].evictable ==>
               s.k <= |s.frames[j].accesses| <= 2 * s.k - 1
    ensures EvictFrame(s).Ok?
    ensures EvictFrame(s).value.victim == Some(s.frames[w].id) <==>
            forall j :: 0 <= j < w && s.frames[j].evictable ==>
              Distance(s.frames[j], s.clock + 1, s.k) <= Remembered(s.frames[w], s.clock + 1, s.k)
  {
    VictimExactly(s, w);
    BehindIsNearer(s.frames, s.clock, s.k, w);
  }

  /** With exactly 2k - 1 accesses each, and so always for k = 1 and one access each, the policy is followed. */
  lemma EvenHistories(s: State, w: nat)
    requires Valid(s) && s.clock < SIZE_MAX && Farthest(s.frames, s.clock + 1, s.k, w)
    requires forall j :: 0 <= j < |s.frames| && s.frames[j].evictable ==> |s.frames[j].accesses| == 2 * s.k - 1
    ensures EvictFrame(s).Ok? && EvictFrame(s).value.victim == Some(s.frames[w].id)
  {
    BriefHistories(s, w);
    assert forall j :: 0 <= j < w && s.frames[j].evictable ==> NoNearer(s.frames[w], s.frames[j], s.clock + 1, s.k);
  }

  // ---- when it is not ----

  lemma RunTo(s: State, op: Op, rest: seq<Op>, t: State)
    requires Valid(s) && Step(s, op) == Ok(Outcome(t, None))
    ensures Valid(t) && Run(s, [op] + rest) == Run(t, rest)
  {
    StepKeeps(s, op);
    assert ([op] + rest)[1..] == rest;
  }

  /** Frames 1 and 2 accessed in turn, twice each, and k = 1: plain least recently used. */
  function InTurn(on1: bool, on2: bool): State {
    State(4, (if on1 then 1 else 0) + (if on2 then 1 else 0), 2, 1, [Frame(1, [1, 3], on1), Frame(2, [2, 4], on2)])
  }

  /** After the first access, the first two and the first three. */
  function After1(): State {
    State(1, 0, 2, 1, [Frame(1, [1], false)])
  }

  function After2(): State {
    State(2, 0, 2, 1, [Frame(1, [1], false), Frame(2, [2], false)])
  }

  function After3(): State {
    State(3, 0, 2, 1, [Frame(1, [1, 3], false), Frame(2, [2], false)])
  }

  lemma FirstAccesses()
    ensures Step(Fresh(0, 2, 1), RecordAccess(1)) == Ok(Outcome(After1(), None))
    ensures Step(After1(), RecordAccess(2)) == Ok(Outcome(After2(), None))
  {
    assert Fresh(0, 2, 1).frames + [Frame(1, [1], false)] == After1().frames;
    assert After1().frames + [Frame(2, [2], false)] == After2().frames;
  }

  lemma SecondAccesses()
    ensures Step(After2(), RecordAccess(1)) == Ok(Outcome(After3(), None))
    ensures Step(After3(), RecordAccess(2)) == Ok(Outcome(InTurn(false, false), None))
  {
    assert [1] + [3] == [1, 3] && [2] + [4] == [2, 4];
    assert After2().frames[0 := Frame(1, [1, 3], false)] == After3().frames;
    assert After3().frames[1 := Frame(2, [2, 4], false)] == InTurn(false, false).frames;
  }

  lemma Accessed(rest: seq<Op>)
    ensures Valid(Fresh(0, 2, 1)) && Valid(InTurn(false, false))
    ensures Run(Fresh(0, 2, 1),
                [RecordAccess(1)] + ([RecordAccess(2)] + ([RecordAccess(1)] + ([RecordAccess(2)] + rest))))
            == Run(InTurn(false, false), rest)
  {
    FirstAccesses();
    SecondAccesses();
    RunTo(Fresh(0, 2, 1), RecordAccess(1),
          [RecordAccess(2)] + ([RecordAccess(1)] + ([RecordAccess(2)] + rest)), After1());
    RunTo(After1(), RecordAccess(2), [RecordAccess(1)] + ([RecordAccess(2)] + rest), After2());
    RunTo(After2(), RecordAccess(1), [RecordAccess(2)] + rest, After3());
    RunTo(After3(), RecordAccess(2), rest, InTurn(false, false));
  }

  lemma MadeEvictable(rest: seq<Op>)
    requires Valid(InTurn(false, false))
    ensures Valid(InTurn(true, true))
    ensures Run(InTurn(false, false), [SetEvictable(1, true)] + ([SetEvictable(2, true)] + rest))
            == Run(InTurn(true, true), rest)
  {
    assert InTurn(false, false).frames[0 := Frame(1, [1, 3], true)] == InTurn(true, false).frames;
    assert InTurn(true, false).frames[1 := Frame(2, [2, 4], true)] == InTurn(true, true).frames;
    RunTo(InTurn(false, false), SetEvictable(1, true), [SetEvictable(2, true)] + rest, InTurn(true, false));
    RunTo(InTurn(true, false), SetEvictable(2, true), rest, InTurn(true, true));
  }

  /** Frame 1 was used less recently, but frame 2 goes: its first access, not its last, is what is remembered. */
  lemma NearerFrameEvicted()
    ensures Valid(Fresh(0, 2, 1)) && Valid(InTurn(true, true))
    ensures Run(Fresh(0, 2, 1), [RecordAccess(1)] + ([RecordAccess(2)] + ([RecordAccess(1)] + ([RecordAccess(2)]
                + ([SetEvictable(1, true)] + ([SetEvictable(2, true)] + [])))))) == Ok(InTurn(true, true))
    ensures Farthest(InTurn(true, true).frames, 5, 1, 0)
    ensures EvictFrame(InTurn(true, true)).Ok? && EvictFrame(InTurn(true, true)).value.victim == Some(2)
  {
    Accessed([SetEvictable(1, true)] + ([SetEvictable(2, true)] + []));
    MadeEvictable([]);
    MostRecentTaken();
  }

  lemma MostRecentTaken()
    requires Valid(InTurn(true, true))
    ensures Farthest(InTurn(true, true).frames, 5, 1, 0)
    ensures EvictFrame(InTurn(true, true)).Ok? && EvictFrame(InTurn(true, true)).value.victim == Some(2)
  {
    var s := InTurn(true, true);
    assert Scan(s.frames, 5, 1, 2) == Choice(0, None);
    assert Scan(s.frames, 5, 1, 1) == Choice(3, Some(1));
    assert Scan(s.frames, 5, 1, 0) == Choice(3, Some(1));
    EvictTakesOne(s);
  }
}
