/**
 A run of the extendible hash table, over numbers that hash to themselves and buckets of two, in which a split strands
 an entry and a later split of the same insertion brings it home: callers see nothing wrong.
 */
module HashTableRecovery {
  import opened Values
  import opened HashTableSpec
  import opened HashTableSplit
  import opened HashTableRuns
  import F = HashTableFaults

  const WIDTH: nat := 7

  ghost predicate Usable(s: State<nat, nat>, hash: Hash<nat>, keys: set<nat>) {
    F.Identity(hash) && Shape(s) && s.bucketSize == 2 && Within(s, keys) && Uncrowded(keys, hash, WIDTH, 2)
  }

  function Full(depth: nat, a: nat, b: nat): Bucket<nat, nat> {
    Bucket(2, depth, [(a, a), (b, b)])
  }

  lemma MorePowers()
    ensures Pow2(0) == 1 && Pow2(1) == 2 && Pow2(2) == 4 && Pow2(3) == 8 && Pow2(4) == 16
    ensures Pow2(5) == 32 && Pow2(6) == 64 && Pow2(7) == 128
  {
    F.Powers();
    assert Pow2(5) == 2 * Pow2(4) && Pow2(6) == 2 * Pow2(5) && Pow2(7) == 2 * Pow2(6);
  }

  lemma TwoKeysFit(hash: Hash<nat>, keys: set<nat>)
    requires F.Identity(hash) && forall k :: k in keys ==> k < 128
    ensures Uncrowded(keys, hash, WIDTH, 2)
  {
    MorePowers();
    forall k | k in keys ensures |Sharing(keys, hash, k)| <= 2 {
      SubsetFits(Sharing(keys, hash, k), {k});
    }
  }

  /** Which of two items stay in slot `index` of `w`, or leave it. */
  function Two(w: nat, index: nat, here: bool, a: nat, b: nat): seq<(nat, nat)>
    requires w > 0
  {
    (if (a % w == index) == here then [(a, a)] else []) + (if (b % w == index) == here then [(b, b)] else [])
  }

  function Target(w: nat, index: nat, depth: nat, a: nat, b: nat): nat
    requires w > 0
  {
    if b % w != index then b % w else if a % w != index then a % w else index + depth + 1
  }

  lemma PickTwo(hash: Hash<nat>, w: nat, index: nat, here: bool, a: nat, b: nat)
    requires F.Identity(hash) && w > 0
    ensures Pick([(a, a), (b, b)], hash, w, index, here) == Two(w, index, here, a, b)
  {
    var items: seq<(nat, nat)> := [(a, a), (b, b)];
    assert items[1..] == [(b, b)];
    F.PickOne(hash, w, index, here, b);
  }

  lemma LastOfTwo(hash: Hash<nat>, w: nat, index: nat, depth: nat, a: nat, b: nat)
    requires F.Identity(hash) && w > 0
    ensures LastSlot(Two(w, index, false, a, b), hash, w, index + depth + 1) == Target(w, index, depth, a, b)
  {}

  function GrownDepth(s: State<nat, nat>, depth: nat): nat {
    if depth == s.globalDepth then s.globalDepth + 1 else s.globalDepth
  }

  /** What a split of a full bucket does to the directory, slot by slot, and to the store. */
  ghost predicate SplitTo(s: State<nat, nat>, next: State<nat, nat>, index: nat, depth: nat, a: nat, b: nat)
    requires Shape(s) && index < |s.dir|
  {
    var g := GrownDepth(s, depth);
    var w := Pow2(g);
    && next.globalDepth == g && |next.dir| == w
    && (forall j :: 0 <= j < w ==>
          next.dir[j] == if j == Target(w, index, depth, a, b) then |s.store| else s.dir[j % |s.dir|])
    && next.store == s.store[s.dir[index] := Bucket(2, depth + 1, Two(w, index, true, a, b))]
                     + [Bucket(2, depth + 1, Two(w, index, false, a, b))]
  }

  lemma GrownDir(s: State<nat, nat>, index: nat, depth: nat)
    requires Shape(s) && index < |s.dir| && s.store[s.dir[index]].depth == depth
    ensures Grown(s, index).globalDepth == GrownDepth(s, depth)
    ensures forall j :: 0 <= j < |Grown(s, index).dir| ==> Grown(s, index).dir[j] == s.dir[j % |s.dir|]
  {
    var n := |s.dir|;
    forall j | 0 <= j < |Grown(s, index).dir| ensures Grown(s, index).dir[j] == s.dir[j % n] {
      if j < n { Remainder(j, n, 0, j); } else { Remainder(j, n, 1, j - n); }
    }
  }

  lemma SplitFull(d: State<nat, nat>, hash: Hash<nat>, index: nat, depth: nat, a: nat, b: nat)
    requires F.Identity(hash) && Shape(d) && d.bucketSize == 2 && index < |d.dir|
    requires d.store[d.dir[index]] == Full(depth, a, b)
    requires Target(Pow2(d.globalDepth), index, depth, a, b) < |d.dir|
    ensures var w := Pow2(d.globalDepth);
            && MovedItems(d, hash, index) == Two(w, index, false, a, b)
            && SplitSlot(d, hash, index) == Target(w, index, depth, a, b)
            && Split(d, hash, index) ==
               Ok(State(d.globalDepth, 2, d.numBuckets + 1,
                        d.dir[Target(w, index, depth, a, b) := |d.store|],
                        d.store[d.dir[index] := Bucket(2, depth + 1, Two(w, index, true, a, b))]
                        + [Bucket(2, depth + 1, Two(w, index, false, a, b))]))
  {
    var w := Pow2(d.globalDepth);
    PickTwo(hash, w, index, true, a, b);
    PickTwo(hash, w, index, false, a, b);
    LastOfTwo(hash, w, index, depth, a, b);
  }

  lemma RedistributeTwo(s: State<nat, nat>, hash: Hash<nat>, index: nat, depth: nat, a: nat, b: nat)
    requires F.Identity(hash) && Shape(s) && s.bucketSize == 2 && index < |s.dir|
    requires s.store[s.dir[index]] == Full(depth, a, b)
    requires Target(Pow2(GrownDepth(s, depth)), index, depth, a, b) < Pow2(GrownDepth(s, depth))
    ensures Redistribute(s, hash, index).Ok? && SplitTo(s, Redistribute(s, hash, index).value, index, depth, a, b)
  {
    GrownOk(s, hash, index);
    GrownDir(s, index, depth);
    SplitFull(Grown(s, index), hash, index, depth, a, b);
  }

  lemma FullOfOthers(s: State<nat, nat>, hash: Hash<nat>, key: nat, depth: nat, a: nat, b: nat)
    requires F.Identity(hash) && Shape(s) && key != a && key != b
    requires s.store[s.dir[key % Pow2(s.globalDepth)]] == Full(depth, a, b)
    ensures !HasRoom(s, hash, key)
  {
    var items := s.store[s.dir[key % Pow2(s.globalDepth)]].items;
    var rest := items[1..];
    assert rest == [(b, b)] && rest[1..] == [];
    assert Lookup(items, key) == Lookup(rest, key) == Lookup(rest[1..], key);
  }

  /** An insertion that meets a full bucket splits it and starts over. */
  lemma Again(s: State<nat, nat>, hash: Hash<nat>, keys: set<nat>, key: nat, index: nat, depth: nat, a: nat, b: nat)
    returns (next: State<nat, nat>)
    requires Usable(s, hash, keys) && key in keys && index == key % Pow2(s.globalDepth) && key != a && key != b
    requires s.store[s.dir[index]] == Full(depth, a, b)
    requires Target(Pow2(GrownDepth(s, depth)), index, depth, a, b) < Pow2(GrownDepth(s, depth))
    ensures Usable(next, hash, keys) && SplitTo(s, next, index, depth, a, b)
    ensures Insert(s, hash, WIDTH, keys, key, key) == Insert(next, hash, WIDTH, keys, key, key)
  {
    RedistributeTwo(s, hash, index, depth, a, b);
    next := Redistribute(s, hash, index).value;
    FullOfOthers(s, hash, key, depth, a, b);
    RetryEnds(s, hash, WIDTH, keys, key);
  }

  /** An insertion that finds room ends. */
  lemma Done(s: State<nat, nat>, hash: Hash<nat>, keys: set<nat>, key: nat, b: nat, depth: nat, items: seq<(nat, nat)>)
    returns (next: State<nat, nat>)
    requires Usable(s, hash, keys) && key in keys && s.dir[key % Pow2(s.globalDepth)] == b
    requires s.store[b] == Bucket(2, depth, items) && |items| < 2 && (|items| == 1 ==> items[0].0 != key)
    ensures Usable(next, hash, keys)
    ensures next == s.(store := s.store[b := Bucket(2, depth, items + [(key, key)])])
    ensures Insert(s, hash, WIDTH, keys, key, key) == Ok(next)
  {
    next := PutAt(s, hash, key, key);
    if |items| == 1 {
      assert items[1..] == [];
      assert Lookup(items, key) == Lookup(items[1..], key);
    }
    PutShape(items, key, key);
    PutAtWithin(s, hash, keys, key, key);
  }

  // ---- the run: 19, 99, 111, 91, 123 ----

  // At each stage: the depth of the directory, the buckets that matter, and where the slots that matter lead.

  ghost predicate S0(s: State<nat, nat>) {
    && s.globalDepth == 0 && |s.dir| == 1 && |s.store| == 1
    && s.store[0] == Full(0, 19, 99)
    && s.dir[0] == 0
  }

  ghost predicate S1(s: State<nat, nat>) {
    && s.globalDepth == 1 && |s.dir| == 2 && |s.store| == 2
    && s.store[1] == Full(1, 19, 99)
    && s.dir[1] == 1
  }

  ghost predicate S2(s: State<nat, nat>) {
    && s.globalDepth == 2 && |s.dir| == 4 && |s.store| == 3
    && s.store[2] == Full(2, 19, 99)
    && s.dir[3] == 2
  }

  ghost predicate S3(s: State<nat, nat>) {
    && s.globalDepth == 3 && |s.dir| == 8 && |s.store| == 4
    && s.store[2] == Full(3, 19, 99)
    && s.dir[3] == 2 && s.dir[7] == 2
  }

  ghost predicate S4(s: State<nat, nat>) {
    && s.globalDepth == 4 && |s.dir| == 16 && |s.store| == 5
    && s.store[2] == Bucket(2, 4, []) && s.store[4] == Full(4, 19, 99)
    && s.dir[3] == 4 && s.dir[11] == 2 && s.dir[15] == 2
  }

  ghost predicate S5(s: State<nat, nat>) {
    && s.globalDepth == 4 && |s.dir| == 16 && |s.store| == 5
    && s.store[2] == Bucket(2, 4, [(111, 111)]) && s.store[4] == Full(4, 19, 99)
    && s.dir[3] == 4 && s.dir[11] == 2 && s.dir[15] == 2
  }

  ghost predicate S6(s: State<nat, nat>) {
    && s.globalDepth == 4 && |s.dir| == 16 && |s.store| == 5
    && s.store[2] == Full(4, 111, 91) && s.store[4] == Full(4, 19, 99)
    && s.dir[3] == 4 && s.dir[11] == 2 && s.dir[15] == 2
  }

  ghost predicate S7(s: State<nat, nat>) {
    && s.globalDepth == 5 && |s.dir| == 32 && |s.store| == 6
    && s.store[4] == Full(4, 19, 99) && s.store[5] == Full(5, 111, 91)
    && s.dir[3] == 4 && s.dir[19] == 4 && s.dir[27] == 5
  }

  ghost predicate S8(s: State<nat, nat>) {
    && s.globalDepth == 6 && |s.dir| == 64 && |s.store| == 7
    && s.store[4] == Full(4, 19, 99)
    && s.store[5] == Bucket(2, 6, [(91, 91)]) && s.store[6] == Bucket(2, 6, [(111, 111)])
    && s.dir[19] == 4 && s.dir[35] == 4 && s.dir[27] == 5 && s.dir[59] == 5 && s.dir[47] == 6
  }

  ghost predicate S9(s: State<nat, nat>) {
    && s.globalDepth == 6 && |s.dir| == 64 && |s.store| == 7
    && s.store[4] == Full(4, 19, 99) && s.store[5] == Full(6, 91, 123) && s.store[6] == Bucket(2, 6, [(111, 111)])
    && s.dir[19] == 4 && s.dir[35] == 4 && s.dir[27] == 5 && s.dir[59] == 5 && s.dir[47] == 6
  }

  lemma Split1(s: State<nat, nat>, hash: Hash<nat>, keys: set<nat>) returns (next: State<nat, nat>)
    requires Usable(s, hash, keys) && 111 in keys && S0(s)
    ensures Usable(next, hash, keys) && S1(next)
    ensures Insert(s, hash, WIDTH, keys, 111, 111) == Insert(next, hash, WIDTH, keys, 111, 111)
  {
    MorePowers();
    assert Two(2, 0, true, 19, 99) == [] && Two(2, 0, false, 19, 99) == [(19, 19), (99, 99)];
    assert Target(2, 0, 0, 19, 99) == 1;
    next := Again(s, hash, keys, 111, 0, 0, 19, 99);
  }

  lemma Split2(s: State<nat, nat>, hash: Hash<nat>, keys: set<nat>) returns (next: State<nat, nat>)
    requires Usable(s, hash, keys) && 111 in keys && S1(s)
    ensures Usable(next, hash, keys) && S2(next)
    ensures Insert(s, hash, WIDTH, keys, 111, 111) == Insert(next, hash, WIDTH, keys, 111, 111)
  {
    MorePowers();
    assert Two(4, 1, true, 19, 99) == [] && Two(4, 1, false, 19, 99) == [(19, 19), (99, 99)];
    assert Target(4, 1, 1, 19, 99) == 3;
    next := Again(s, hash, keys, 111, 1, 1, 19, 99);
  }

  lemma Split3(s: State<nat, nat>, hash: Hash<nat>, keys: set<nat>) returns (next: State<nat, nat>)
    requires Usable(s, hash, keys) && 111 in keys && S2(s)
    ensures Usable(next, hash, keys) && S3(next)
    ensures Insert(s, hash, WIDTH, keys, 111, 111) == Insert(next, hash, WIDTH, keys, 111, 111)
  {
    MorePowers();
    assert Two(8, 3, true, 19, 99) == [(19, 19), (99, 99)] && Two(8, 3, false, 19, 99) == [];
    assert Target(8, 3, 2, 19, 99) == 6;
    next := Again(s, hash, keys, 111, 3, 2, 19, 99);
  }

  lemma Split4(s: State<nat, nat>, hash: Hash<nat>, keys: set<nat>) returns (next: State<nat, nat>)
    requires Usable(s, hash, keys) && 111 in keys && S3(s)
    ensures Usable(next, hash, keys) && S4(next)
    ensures Insert(s, hash, WIDTH, keys, 111, 111) == Insert(next, hash, WIDTH, keys, 111, 111)
  {
    MorePowers();
    assert Two(16, 7, true, 19, 99) == [] && Two(16, 7, false, 19, 99) == [(19, 19), (99, 99)];
    assert Target(16, 7, 3, 19, 99) == 3;
    next := Again(s, hash, keys, 111, 7, 3, 19, 99);
  }

  /** Both items leave slot 11 and only the slot of 91 is handed over: 111 is stranded. */
  lemma Split5(s: State<nat, nat>, hash: Hash<nat>, keys: set<nat>) returns (next: State<nat, nat>)
    requires Usable(s, hash, keys) && 123 in keys && S6(s)
    ensures Usable(next, hash, keys) && S7(next)
    ensures Insert(s, hash, WIDTH, keys, 123, 123) == Insert(next, hash, WIDTH, keys, 123, 123)
  {
    MorePowers();
    assert Two(32, 11, true, 111, 91) == [] && Two(32, 11, false, 111, 91) == [(111, 111), (91, 91)];
    assert Target(32, 11, 4, 111, 91) == 27;
    next := Again(s, hash, keys, 123, 11, 4, 111, 91);
  }

  /** The new bucket splits in turn, and 111 gets its own slot. */
  lemma Split6(s: State<nat, nat>, hash: Hash<nat>, keys: set<nat>) returns (next: State<nat, nat>)
    requires Usable(s, hash, keys) && 123 in keys && S7(s)
    ensures Usable(next, hash, keys) && S8(next)
    ensures Insert(s, hash, WIDTH, keys, 123, 123) == Insert(next, hash, WIDTH, keys, 123, 123)
  {
    MorePowers();
    assert Two(64, 27, true, 111, 91) == [(91, 91)] && Two(64, 27, false, 111, 91) == [(111, 111)];
    assert Target(64, 27, 5, 111, 91) == 47;
    next := Again(s, hash, keys, 123, 27, 5, 111, 91);
  }

  // ---- the calls ----

  ghost predicate SoFar(s: State<nat, nat>) {
    s.globalDepth == 0 && |s.dir| == 1 && |s.store| == 1 && s.store[0] == Bucket(2, 0, [(19, 19)]) && s.dir[0] == 0
  }

  lemma Insert19(hash: Hash<nat>, keys: set<nat>) returns (next: State<nat, nat>)
    requires F.Identity(hash) && 19 in keys && forall k :: k in keys ==> k < 128
    ensures Usable(Empty<nat, nat>(2), hash, keys) && Usable(next, hash, keys) && SoFar(next)
    ensures Insert(Empty<nat, nat>(2), hash, WIDTH, keys, 19, 19) == Ok(next)
  {
    TwoKeysFit(hash, keys);
    MorePowers();
    next := Done(Empty<nat, nat>(2), hash, keys, 19, 0, 0, []);
  }

  lemma Insert99(s: State<nat, nat>, hash: Hash<nat>, keys: set<nat>) returns (next: State<nat, nat>)
    requires Usable(s, hash, keys) && 99 in keys && SoFar(s)
    ensures Usable(next, hash, keys) && S0(next) && Insert(s, hash, WIDTH, keys, 99, 99) == Ok(next)
  {
    MorePowers();
    next := Done(s, hash, keys, 99, 0, 0, [(19, 19)]);
    assert [(19, 19)] + [(99, 99)] == Full(0, 19, 99).items;
  }

  lemma Insert111(s: State<nat, nat>, hash: Hash<nat>, keys: set<nat>) returns (next: State<nat, nat>)
    requires Usable(s, hash, keys) && 111 in keys && S0(s)
    ensures Usable(next, hash, keys) && S5(next) && Insert(s, hash, WIDTH, keys, 111, 111) == Ok(next)
  {
    var a := Split1(s, hash, keys);
    var b := Split2(a, hash, keys);
    var c := Split3(b, hash, keys);
    var d := Split4(c, hash, keys);
    next := Settle111(d, hash, keys);
  }

  lemma Settle111(s: State<nat, nat>, hash: Hash<nat>, keys: set<nat>) returns (next: State<nat, nat>)
    requires Usable(s, hash, keys) && 111 in keys && S4(s)
    ensures Usable(next, hash, keys) && S5(next) && Insert(s, hash, WIDTH, keys, 111, 111) == Ok(next)
  {
    MorePowers();
    next := Done(s, hash, keys, 111, 2, 4, []);
  }

  lemma Insert91(s: State<nat, nat>, hash: Hash<nat>, keys: set<nat>) returns (next: State<nat, nat>)
    requires Usable(s, hash, keys) && 91 in keys && S5(s)
    ensures Usable(next, hash, keys) && S6(next) && Insert(s, hash, WIDTH, keys, 91, 91) == Ok(next)
  {
    MorePowers();
    next := Done(s, hash, keys, 91, 2, 4, [(111, 111)]);
    assert [(111, 111)] + [(91, 91)] == Full(4, 111, 91).items;
  }

  lemma Insert123(s: State<nat, nat>, hash: Hash<nat>, keys: set<nat>) returns (next: State<nat, nat>)
    requires Usable(s, hash, keys) && 123 in keys && S6(s)
    ensures Usable(next, hash, keys) && S9(next) && Insert(s, hash, WIDTH, keys, 123, 123) == Ok(next)
  {
    var a := Split5(s, hash, keys);
    var b := Split6(a, hash, keys);
    next := Settle123(b, hash, keys);
  }

  lemma Settle123(s: State<nat, nat>, hash: Hash<nat>, keys: set<nat>) returns (next: State<nat, nat>)
    requires Usable(s, hash, keys) && 123 in keys && S8(s)
    ensures Usable(next, hash, keys) && S9(next) && Insert(s, hash, WIDTH, keys, 123, 123) == Ok(next)
  {
    MorePowers();
    next := Done(s, hash, keys, 123, 5, 6, [(91, 91)]);
    assert [(91, 91)] + [(123, 123)] == Full(6, 91, 123).items;
  }

  // ---- the answers ----

  /** In a table of the keys, right answers for the keys are right answers. */
  lemma AnswersForKeys(s: State<nat, nat>, hash: Hash<nat>, keys: set<nat>, m: map<nat, nat>)
    requires Shape(s) && Within(s, keys) && m.Keys <= keys
    requires forall k :: k in keys ==> Find(s, hash, k) == if k in m then Some(m[k]) else None
    ensures Answers(s, hash, m)
  {
    forall q ensures Find(s, hash, q) == if q in m then Some(m[q]) else None {
      LookupFound(BucketOf(s, hash, q).items, q);
    }
  }

  lemma FindAt(s: State<nat, nat>, hash: Hash<nat>, key: nat, slot: nat, b: nat)
    requires F.Identity(hash) && Shape(s) && key % Pow2(s.globalDepth) == slot && s.dir[slot] == b
    ensures Find(s, hash, key) == Lookup(s.store[b].items, key)
  {}

  lemma LookupTwo(a: nat, b: nat, key: nat)
    ensures Lookup([(a, a)], key) == if key == a then Some(key) else None
    ensures Lookup([(a, a), (b, b)], key) == if key == a || key == b then Some(key) else None
  {
    var one: seq<(nat, nat)> := [(a, a)];
    var two: seq<(nat, nat)> := [(a, a), (b, b)];
    var rest := two[1..];
    assert one[1..] == [] && rest == [(b, b)] && rest[1..] == [];
    assert Lookup(two, key) == if key == a then Some(a) else Lookup(rest, key);
    assert Lookup(rest, key) == if key == b then Some(b) else Lookup(rest[1..], key);
    assert Lookup(one, key) == if key == a then Some(a) else Lookup(one[1..], key);
  }

  const KEYS: set<nat> := {19, 99, 111, 91, 123}

  lemma AnswersEarly(s: State<nat, nat>, hash: Hash<nat>)
    requires Usable(s, hash, KEYS)
    ensures SoFar(s) ==> Answers(s, hash, map[19 := 19])
    ensures S0(s) ==> Answers(s, hash, map[19 := 19, 99 := 99])
  {
    MorePowers();
    if SoFar(s) || S0(s) {
      forall k | k in KEYS ensures Find(s, hash, k) == Lookup(s.store[0].items, k) {
        FindAt(s, hash, k, 0, 0);
        LookupTwo(19, 99, k);
      }
    }
    if SoFar(s) {
      forall k | k in KEYS ensures Find(s, hash, k) == if k in map[19 := 19] then Some(k) else None {
        LookupTwo(19, 99, k);
      }
      AnswersForKeys(s, hash, KEYS, map[19 := 19]);
    }
    if S0(s) {
      forall k | k in KEYS ensures Find(s, hash, k) == if k in map[19 := 19, 99 := 99] then Some(k) else None {
        LookupTwo(19, 99, k);
      }
      AnswersForKeys(s, hash, KEYS, map[19 := 19, 99 := 99]);
    }
  }

  /** Slots and buckets that S5 and S6 share. */
  ghost predicate Halfway(s: State<nat, nat>) {
    && s.globalDepth == 4 && |s.dir| == 16 && |s.store| == 5 && s.store[4] == Full(4, 19, 99)
    && s.dir[3] == 4 && s.dir[11] == 2 && s.dir[15] == 2
  }

  lemma FindsHalfway(s: State<nat, nat>, hash: Hash<nat>, k: nat)
    requires Usable(s, hash, KEYS) && Halfway(s) && k in KEYS
    ensures Find(s, hash, k) == if k == 19 || k == 99 then Some(k) else Lookup(s.store[2].items, k)
  {
    MorePowers();
    FindAt(s, hash, k, k % 16, if k == 19 || k == 99 then 4 else 2);
    LookupTwo(19, 99, k);
  }

  lemma AnswersThird(s: State<nat, nat>, hash: Hash<nat>)
    requires Usable(s, hash, KEYS) && S5(s)
    ensures Answers(s, hash, map[19 := 19, 99 := 99, 111 := 111])
  {
    var m := map[19 := 19, 99 := 99, 111 := 111];
    forall k | k in KEYS ensures Find(s, hash, k) == if k in m then Some(k) else None {
      FindsHalfway(s, hash, k);
      LookupTwo(111, 91, k);
    }
    AnswersForKeys(s, hash, KEYS, m);
  }

  lemma AnswersFourth(s: State<nat, nat>, hash: Hash<nat>)
    requires Usable(s, hash, KEYS) && S6(s)
    ensures Answers(s, hash, map[19 := 19, 99 := 99, 111 := 111, 91 := 91])
  {
    var m := map[19 := 19, 99 := 99, 111 := 111, 91 := 91];
    forall k | k in KEYS ensures Find(s, hash, k) == if k in m then Some(k) else None {
      FindsHalfway(s, hash, k);
      LookupTwo(111, 91, k);
    }
    AnswersForKeys(s, hash, KEYS, m);
  }

  lemma AnswersLate(s: State<nat, nat>, hash: Hash<nat>)
    requires Usable(s, hash, KEYS) && S9(s)
    ensures Answers(s, hash, map[19 := 19, 99 := 99, 111 := 111, 91 := 91, 123 := 123])
  {
    MorePowers();
    FindAt(s, hash, 19, 19, 4);
    FindAt(s, hash, 99, 35, 4);
    FindAt(s, hash, 111, 47, 6);
    FindAt(s, hash, 91, 27, 5);
    FindAt(s, hash, 123, 59, 5);
    LookupTwo(19, 99, 19);
    LookupTwo(19, 99, 99);
    LookupTwo(111, 0, 111);
    LookupTwo(91, 123, 91);
    LookupTwo(91, 123, 123);
    AnswersForKeys(s, hash, KEYS, map[19 := 19, 99 := 99, 111 := 111, 91 := 91, 123 := 123]);
  }

  // ---- the two verdicts ----

  /** The first split of the last insertion is not a splittable one. */
  lemma StrandingSplit(s: State<nat, nat>, hash: Hash<nat>)
    requires Usable(s, hash, KEYS) && S6(s)
    ensures !Splits(s, hash, WIDTH, KEYS, 123)
  {
    MorePowers();
    FullOfOthers(s, hash, 123, 4, 111, 91);
    GrownOk(s, hash, 11);
    GrownDir(s, 11, 4);
    var d := Grown(s, 11);
    assert Target(32, 11, 4, 111, 91) == 27 && Two(32, 11, false, 111, 91) == [(111, 111), (91, 91)];
    SplitFull(d, hash, 11, 4, 111, 91);
    assert Slot(d, hash, MovedItems(d, hash, 11)[0].0) == 15 && SplitSlot(d, hash, 11) == 27;
    assert Slot(s, hash, 123) == 11;
  }

  /** One call of the run: from `s` to `next`, both usable. */
  ghost predicate CallTo(s: State<nat, nat>, hash: Hash<nat>, key: nat, next: State<nat, nat>) {
    && Usable(s, hash, KEYS) && key in KEYS && Usable(next, hash, KEYS)
    && Insert(s, hash, WIDTH, KEYS, key, key) == Ok(next)
  }

  lemma CallRight(s: State<nat, nat>, hash: Hash<nat>, key: nat, next: State<nat, nat>, rest: seq<Op<nat, nat>>,
                  m: map<nat, nat>)
    requires CallTo(s, hash, key, next) && KeysIn(rest, KEYS) && Answers(s, hash, m)
    requires AnswersAtCalls(next, hash, WIDTH, KEYS, rest, m[key := key])
    ensures KeysIn([InsertOp(key, key)] + rest, KEYS)
    ensures AnswersAtCalls(s, hash, WIDTH, KEYS, [InsertOp(key, key)] + rest, m)
  {
    var ops := [InsertOp(key, key)] + rest;
    assert ops[0] == InsertOp(key, key) && ops[1..] == rest;
  }

  lemma CallUnsplittable(s: State<nat, nat>, hash: Hash<nat>, key: nat, next: State<nat, nat>, rest: seq<Op<nat, nat>>)
    requires CallTo(s, hash, key, next) && KeysIn(rest, KEYS)
    requires !Splits(s, hash, WIDTH, KEYS, key) || !RunSplits(next, hash, WIDTH, KEYS, rest)
    ensures KeysIn([InsertOp(key, key)] + rest, KEYS)
    ensures !RunSplits(s, hash, WIDTH, KEYS, [InsertOp(key, key)] + rest)
  {
    var ops := [InsertOp(key, key)] + rest;
    assert ops[0] == InsertOp(key, key) && ops[1..] == rest;
  }

  function Calls(): seq<Op<nat, nat>> {
    [InsertOp(19, 19)]
    + ([InsertOp(99, 99)] + ([InsertOp(111, 111)] + ([InsertOp(91, 91)] + ([InsertOp(123, 123)] + []))))
  }

  lemma LastThree(s: State<nat, nat>, hash: Hash<nat>)
    requires Usable(s, hash, KEYS) && S0(s)
    ensures var rest: seq<Op<nat, nat>> := [InsertOp(111, 111)] + ([InsertOp(91, 91)] + ([InsertOp(123, 123)] + []));
            && KeysIn(rest, KEYS)
            && AnswersAtCalls(s, hash, WIDTH, KEYS, rest, map[19 := 19, 99 := 99])
            && !RunSplits(s, hash, WIDTH, KEYS, rest)
  {
    var s3 := Insert111(s, hash, KEYS);
    var s4 := Insert91(s3, hash, KEYS);
    var s5 := Insert123(s4, hash, KEYS);
    AnswersEarly(s, hash);
    AnswersThird(s3, hash);
    AnswersFourth(s4, hash);
    AnswersLate(s5, hash);
    StrandingSplit(s4, hash);
    var m := map[19 := 19, 99 := 99];
    assert m[111 := 111] == map[19 := 19, 99 := 99, 111 := 111];
    assert m[111 := 111][91 := 91] == map[19 := 19, 99 := 99, 111 := 111, 91 := 91];
    assert m[111 := 111][91 := 91][123 := 123] == map[19 := 19, 99 := 99, 111 := 111, 91 := 91, 123 := 123];
    CallRight(s4, hash, 123, s5, [], m[111 := 111][91 := 91]);
    CallUnsplittable(s4, hash, 123, s5, []);
    CallRight(s3, hash, 91, s4, [InsertOp(123, 123)] + [], m[111 := 111]);
    CallUnsplittable(s3, hash, 91, s4, [InsertOp(123, 123)] + []);
    CallRight(s, hash, 111, s3, [InsertOp(91, 91)] + ([InsertOp(123, 123)] + []), m);
    CallUnsplittable(s, hash, 111, s3, [InsertOp(91, 91)] + ([InsertOp(123, 123)] + []));
  }

  /**
   From a new table, inserting 19, 99, 111, 91 and 123: not every split is splittable, and yet every answer a caller
   can get after each call is right. Splittable splits are enough for right answers, not necessary.
   */
  lemma StrandedEntryRecovers(hash: Hash<nat>)
    requires F.Identity(hash)
    ensures Usable(Empty<nat, nat>(2), hash, KEYS) && KeysIn(Calls(), KEYS)
    ensures AnswersAtCalls(Empty<nat, nat>(2), hash, WIDTH, KEYS, Calls(), map[])
    ensures !RunSplits(Empty<nat, nat>(2), hash, WIDTH, KEYS, Calls())
  {
    var empty := Empty<nat, nat>(2);
    var s1 := Insert19(hash, KEYS);
    var s2 := Insert99(s1, hash, KEYS);
    EmptyAnswers<nat, nat>(2, hash);
    AnswersEarly(s1, hash);
    LastThree(s2, hash);
    var rest: seq<Op<nat, nat>> := [InsertOp(111, 111)] + ([InsertOp(91, 91)] + ([InsertOp(123, 123)] + []));
    var none: map<nat, nat> := map[];
    assert none[19 := 19] == map[19 := 19] && none[19 := 19][99 := 99] == map[19 := 19, 99 := 99];
    CallRight(s1, hash, 99, s2, rest, none[19 := 19]);
    CallUnsplittable(s1, hash, 99, s2, rest);
    CallRight(empty, hash, 19, s1, [InsertOp(99, 99)] + rest, none);
    CallUnsplittable(empty, hash, 19, s1, [InsertOp(99, 99)] + rest);
  }
}
