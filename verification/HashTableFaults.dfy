/**
 Runs of the extendible hash table, over numbers that hash to themselves and buckets of one entry, in which a split is
 not a splittable one; and insertions that no number of splits completes.
 */
module HashTableFaults {
  import opened Values
  import opened HashTableSpec
  import opened HashTableSplit
  import opened HashTableRuns

  ghost predicate Identity(hash: Hash<nat>) {
    forall k :: hash(k) == k
  }

  function Cell(depth: nat, key: nat): Bucket<nat, nat> {
    Bucket(1, depth, [(key, key)])
  }

  function NoCell(depth: nat): Bucket<nat, nat> {
    Bucket(1, depth, [])
  }

  lemma Powers()
    ensures Pow2(0) == 1 && Pow2(1) == 2 && Pow2(2) == 4 && Pow2(3) == 8 && Pow2(4) == 16
  {}

  lemma UncrowdedKeys(hash: Hash<nat>, keys: set<nat>)
    requires Identity(hash) && forall k :: k in keys ==> k < 8
    ensures Uncrowded(keys, hash, 3, 1)
  {
    Powers();
    forall k | k in keys ensures |Sharing(keys, hash, k)| <= 1 {
      SubsetFits(Sharing(keys, hash, k), {k});
    }
  }

  lemma PickOne(hash: Hash<nat>, width: nat, index: nat, here: bool, key: nat)
    requires Identity(hash) && width > 0
    ensures Pick([(key, key)], hash, width, index, here) ==
            if (key % width == index) == here then [(key, key)] else []
  {
    var items: seq<(nat, nat)> := [(key, key)];
    assert items[1..] == [];
  }

  /** Splitting a bucket of one entry: the entry stays, or moves to its own slot. */
  function SplitCell(d: State<nat, nat>, index: nat, key: nat, depth: nat): Result<State<nat, nat>>
    requires index < |d.dir| && d.dir[index] < |d.store|
  {
    var slot, b := key % Pow2(d.globalDepth), d.dir[index];
    var target := if slot == index then index + depth + 1 else slot;
    var left := if slot == index then Cell(depth + 1, key) else NoCell(depth + 1);
    var right := if slot == index then NoCell(depth + 1) else Cell(depth + 1, key);
    if target >= |d.dir| then Throw
    else Ok(State(d.globalDepth, 1, d.numBuckets + 1, d.dir[target := |d.store|], d.store[b := left] + [right]))
  }

  lemma SplitOne(d: State<nat, nat>, hash: Hash<nat>, index: nat, key: nat, depth: nat)
    requires Identity(hash) && Shape(d) && index < |d.dir| && d.store[d.dir[index]] == Cell(depth, key)
    requires d.bucketSize == 1
    ensures Split(d, hash, index) == SplitCell(d, index, key, depth)
  {
    PickOne(hash, Pow2(d.globalDepth), index, true, key);
    PickOne(hash, Pow2(d.globalDepth), index, false, key);
  }

  lemma PutInEmpty(s: State<nat, nat>, hash: Hash<nat>, b: nat, key: nat, depth: nat)
    requires Identity(hash) && Shape(s) && s.dir[key % Pow2(s.globalDepth)] == b && s.store[b] == NoCell(depth)
    ensures HasRoom(s, hash, key)
    ensures PutAt(s, hash, key, key) == s.(store := s.store[b := Cell(depth, key)])
  {}

  lemma FullOfOther(s: State<nat, nat>, hash: Hash<nat>, other: nat, key: nat, depth: nat)
    requires Identity(hash) && Shape(s) && other != key
    requires s.store[s.dir[key % Pow2(s.globalDepth)]] == Cell(depth, other)
    ensures !HasRoom(s, hash, key)
  {
    var items := s.store[s.dir[key % Pow2(s.globalDepth)]].items;
    assert items[1..] == [];
    assert Lookup(items, key) == Lookup(items[1..], key);
  }

  /** The table is usable for the keys below 8. */
  ghost predicate Ready(s: State<nat, nat>, hash: Hash<nat>, keys: set<nat>) {
    Identity(hash) && Shape(s) && s.bucketSize == 1 && Within(s, keys) && Uncrowded(keys, hash, 3, 1)
  }

  function Widened(s: State<nat, nat>, depth: nat): (d: State<nat, nat>) {
    if depth == s.globalDepth then s.(globalDepth := s.globalDepth + 1, dir := s.dir + s.dir) else s
  }

  lemma RedistributeOne(s: State<nat, nat>, hash: Hash<nat>, index: nat, other: nat, depth: nat)
    requires Identity(hash) && Shape(s) && s.bucketSize == 1 && index < |s.dir|
    requires s.store[s.dir[index]] == Cell(depth, other)
    ensures Redistribute(s, hash, index) == SplitCell(Widened(s, depth), index, other, depth)
  {
    GrownOk(s, hash, index);
    SplitOne(Grown(s, index), hash, index, other, depth);
  }

  /** An insertion that finds its bucket full of another key splits it and starts over. */
  lemma Retry(s: State<nat, nat>, hash: Hash<nat>, keys: set<nat>, key: nat, index: nat, other: nat, depth: nat)
    returns (next: Result<State<nat, nat>>)
    requires Ready(s, hash, keys) && key in keys && index == key % Pow2(s.globalDepth) && other != key
    requires s.store[s.dir[index]] == Cell(depth, other)
    ensures next == SplitCell(Widened(s, depth), index, other, depth)
    ensures next.Throw? ==> Insert(s, hash, 3, keys, key, key) == Throw
    ensures next.Ok? ==> && Ready(next.value, hash, keys)
                         && Insert(s, hash, 3, keys, key, key) == Insert(next.value, hash, 3, keys, key, key)
  {
    next := Redistribute(s, hash, Slot(s, hash, key));
    FullOfOther(s, hash, other, key, depth);
    RedistributeOne(s, hash, index, other, depth);
    if next.Ok? { RetryEnds(s, hash, 3, keys, key); }
  }

  lemma Settle(s: State<nat, nat>, hash: Hash<nat>, keys: set<nat>, key: nat, b: nat, depth: nat)
    requires Ready(s, hash, keys) && key in keys && s.dir[key % Pow2(s.globalDepth)] == b
    requires s.store[b] == NoCell(depth)
    ensures var next := s.(store := s.store[b := Cell(depth, key)]);
            Ready(next, hash, keys) && Insert(s, hash, 3, keys, key, key) == Ok(next)
  {
    PutInEmpty(s, hash, b, key, depth);
    PutAtWithin(s, hash, keys, key, key);
  }

  lemma StartReady(hash: Hash<nat>, keys: set<nat>)
    requires Identity(hash) && forall k :: k in keys ==> k < 8
    ensures Ready(Empty<nat, nat>(1), hash, keys)
  {
    UncrowdedKeys(hash, keys);
    Powers();
  }

  /** After inserting 3, and after inserting 3 and 0. */
  function One(): State<nat, nat> {
    State(0, 1, 1, [0], [Cell(0, 3)])
  }

  function Two(): State<nat, nat> {
    State(1, 1, 2, [0, 1], [Cell(1, 0), Cell(1, 3)])
  }

  lemma InsertThree(hash: Hash<nat>, keys: set<nat>)
    requires Identity(hash) && 3 in keys && forall k :: k in keys ==> k < 8
    ensures Ready(Empty<nat, nat>(1), hash, keys) && Ready(One(), hash, keys)
    ensures Insert(Empty<nat, nat>(1), hash, 3, keys, 3, 3) == Ok(One())
  {
    StartReady(hash, keys);
    Powers();
    Settle(Empty<nat, nat>(1), hash, keys, 3, 0, 0);
    assert Empty<nat, nat>(1).store[0 := Cell(0, 3)] == [Cell(0, 3)];
  }

  function Half(): State<nat, nat> {
    State(1, 1, 2, [0, 1], [NoCell(1), Cell(1, 3)])
  }

  lemma SplitThree()
    ensures SplitCell(Widened(One(), 0), 0, 3, 0) == Ok(Half())
  {
    Powers();
    var next := SplitCell(Widened(One(), 0), 0, 3, 0);
    assert next.value.dir == Half().dir;
    assert next.value.store == Half().store;
  }

  lemma InsertZero(hash: Hash<nat>, keys: set<nat>)
    requires Ready(One(), hash, keys) && 0 in keys
    ensures Ready(Two(), hash, keys) && Insert(One(), hash, 3, keys, 0, 0) == Ok(Two())
  {
    Powers();
    SplitThree();
    var next := Retry(One(), hash, keys, 0, 0, 3, 0);
    Settle(Half(), hash, keys, 0, 0, 1);
    assert Half().store[0 := Cell(1, 0)] == Two().store;
  }

  /** A split of the bucket of 0 that gains nothing: 0 stays, and an empty bucket takes slot 2. */
  function Four(): State<nat, nat> {
    State(2, 1, 3, [0, 1, 2, 1], [Cell(2, 0), Cell(1, 3), NoCell(2)])
  }

  /** The next one hands slot 3 to an empty bucket: 3 is lost. */
  function Eight(): State<nat, nat> {
    State(3, 1, 4, [0, 1, 2, 3, 0, 1, 2, 1], [Cell(3, 0), Cell(1, 3), NoCell(2), NoCell(3)])
  }

  function Sixteen(): State<nat, nat> {
    State(4, 1, 5, [4, 1, 2, 3, 0, 1, 2, 1, 0, 1, 2, 3, 0, 1, 2, 1],
          [NoCell(4), Cell(1, 3), NoCell(2), NoCell(3), Cell(4, 0)])
  }

  lemma SplitTwo()
    ensures SplitCell(Widened(Two(), 1), 0, 0, 1) == Ok(Four())
  {
    Powers();
    var d := Widened(Two(), 1);
    var next := SplitCell(d, 0, 0, 1);
    assert next.value.dir == Four().dir;
    assert next.value.store == Four().store;
  }

  lemma SplitFour()
    ensures SplitCell(Widened(Four(), 2), 0, 0, 2) == Ok(Eight())
  {
    Powers();
    var d := Widened(Four(), 2);
    var next := SplitCell(d, 0, 0, 2);
    assert next.value.dir == Eight().dir;
    assert next.value.store == Eight().store;
  }

  lemma SplitEight()
    ensures SplitCell(Widened(Eight(), 3), 4, 0, 3) == Ok(Sixteen())
  {
    Powers();
    var d := Widened(Eight(), 3);
    var next := SplitCell(d, 4, 0, 3);
    assert next.value.dir == Sixteen().dir;
    assert next.value.store == Sixteen().store;
  }

  lemma ToFour(hash: Hash<nat>, keys: set<nat>, key: nat)
    requires Ready(Two(), hash, keys) && key in keys && (key == 2 || key == 4)
    ensures Ready(Four(), hash, keys)
    ensures Insert(Two(), hash, 3, keys, key, key) == Insert(Four(), hash, 3, keys, key, key)
  {
    Powers();
    SplitTwo();
    var next := Retry(Two(), hash, keys, key, 0, 0, 1);
  }

  lemma ToEight(hash: Hash<nat>, keys: set<nat>)
    requires Ready(Four(), hash, keys) && 4 in keys
    ensures Ready(Eight(), hash, keys)
    ensures Insert(Four(), hash, 3, keys, 4, 4) == Insert(Eight(), hash, 3, keys, 4, 4)
  {
    Powers();
    SplitFour();
    var next := Retry(Four(), hash, keys, 4, 0, 0, 2);
  }

  lemma ToSixteen(hash: Hash<nat>, keys: set<nat>)
    requires Ready(Eight(), hash, keys) && 4 in keys
    ensures Ready(Sixteen(), hash, keys)
    ensures Insert(Eight(), hash, 3, keys, 4, 4) == Insert(Sixteen(), hash, 3, keys, 4, 4)
  {
    Powers();
    SplitEight();
    var next := Retry(Eight(), hash, keys, 4, 4, 0, 3);
  }

  lemma SettleFour(hash: Hash<nat>, keys: set<nat>) returns (last: State<nat, nat>)
    requires Ready(Sixteen(), hash, keys) && 4 in keys
    ensures Ready(last, hash, keys) && Insert(Sixteen(), hash, 3, keys, 4, 4) == Ok(last)
    ensures last.globalDepth == 4 && |last.dir| == 16 && |last.store| == 5
    ensures last.dir[3] == 3 && last.store[3] == NoCell(3)
  {
    Powers();
    Settle(Sixteen(), hash, keys, 4, 0, 4);
    last := Sixteen().(store := Sixteen().store[0 := Cell(4, 4)]);
  }

  lemma NotThere(s: State<nat, nat>, hash: Hash<nat>)
    requires Identity(hash) && Shape(s) && s.globalDepth == 4
    requires |s.dir| == 16 && |s.store| == 5 && s.dir[3] == 3 && s.store[3] == NoCell(3)
    ensures Find(s, hash, 3) == None
  {
    Powers();
  }

  lemma InsertFour(hash: Hash<nat>, keys: set<nat>) returns (last: State<nat, nat>)
    requires Ready(Two(), hash, keys) && 4 in keys
    ensures Ready(last, hash, keys) && Insert(Two(), hash, 3, keys, 4, 4) == Ok(last)
    ensures Find(last, hash, 3) == None
  {
    ToFour(hash, keys, 4);
    ToEight(hash, keys);
    ToSixteen(hash, keys);
    last := SettleFour(hash, keys);
    NotThere(last, hash);
  }

  lemma RunStep(s: State<nat, nat>, hash: Hash<nat>, keys: set<nat>, key: nat, next: Result<State<nat, nat>>,
                rest: seq<Op<nat, nat>>)
    requires Ready(s, hash, keys) && key in keys && KeysIn(rest, keys)
    requires Insert(s, hash, 3, keys, key, key) == next
    ensures KeysIn([InsertOp(key, key)] + rest, keys)
    ensures Run(s, hash, 3, keys, [InsertOp(key, key)] + rest) ==
            if next.Ok? then Run(next.value, hash, 3, keys, rest) else Throw
  {
    var ops := [InsertOp(key, key)] + rest;
    assert ops[0] == InsertOp(key, key) && ops[1..] == rest;
  }

  /**
   Inserting 3, 0 and 4: the third insertion hands the slot of 3 to an empty bucket, and 3 is never found again,
   though nothing removed it.
   */
  lemma EntryLost(hash: Hash<nat>)
    requires Identity(hash)
    ensures var keys := {0, 3, 4};
            && Shape(Empty<nat, nat>(1)) && Within(Empty<nat, nat>(1), keys) && Uncrowded(keys, hash, 3, 1)
            && var r := Run(Empty<nat, nat>(1), hash, 3, keys,
                            [InsertOp(3, 3)] + ([InsertOp(0, 0)] + ([InsertOp(4, 4)] + [])));
               r.Ok? && Find(r.value, hash, 3) == None
  {
    var keys := {0, 3, 4};
    InsertThree(hash, keys);
    InsertZero(hash, keys);
    var last := InsertFour(hash, keys);
    RunStep(Two(), hash, keys, 4, Ok(last), []);
    RunStep(One(), hash, keys, 0, Ok(Two()), [InsertOp(4, 4)] + []);
    RunStep(Empty(1), hash, keys, 3, Ok(One()), [InsertOp(0, 0)] + ([InsertOp(4, 4)] + []));
  }

  lemma InsertSeven(hash: Hash<nat>, keys: set<nat>) returns (three: State<nat, nat>)
    requires Ready(Two(), hash, keys) && 2 in keys && 7 in keys
    ensures Ready(three, hash, keys) && Insert(Two(), hash, 3, keys, 2, 2) == Ok(three)
    ensures Insert(three, hash, 3, keys, 7, 7) == Throw
  {
    ToFour(hash, keys, 2);
    Powers();
    Settle(Four(), hash, keys, 2, 2, 2);
    three := Four().(store := Four().store[2 := Cell(2, 2)]);
    var thrown := Retry(three, hash, keys, 7, 3, 3, 1);
  }

  /** Inserting 3, 0, 2 and 7: the last split computes a slot past the end of the directory, and throws. */
  lemma InsertThrows(hash: Hash<nat>)
    requires Identity(hash)
    ensures var keys := {0, 2, 3, 7};
            && Shape(Empty<nat, nat>(1)) && Within(Empty<nat, nat>(1), keys) && Uncrowded(keys, hash, 3, 1)
            && Run(Empty<nat, nat>(1), hash, 3, keys,
                   [InsertOp(3, 3)] + ([InsertOp(0, 0)] + ([InsertOp(2, 2)] + ([InsertOp(7, 7)] + [])))) == Throw
  {
    var keys := {0, 2, 3, 7};
    InsertThree(hash, keys);
    InsertZero(hash, keys);
    var three := InsertSeven(hash, keys);
    RunStep(three, hash, keys, 7, Throw, []);
    RunStep(Two(), hash, keys, 2, Ok(three), [InsertOp(7, 7)] + []);
    RunStep(One(), hash, keys, 0, Ok(Two()), [InsertOp(2, 2)] + ([InsertOp(7, 7)] + []));
    RunStep(Empty(1), hash, keys, 3, Ok(One()), [InsertOp(0, 0)] + ([InsertOp(2, 2)] + ([InsertOp(7, 7)] + [])));
  }

  // ---- insertions that no split completes ----

  lemma {:induction false} PickWhole<K, V>(items: seq<(K, V)>, hash: Hash<K>, width: nat, index: nat, slot: nat)
    requires width > 0 && forall j :: 0 <= j < |items| ==> hash(items[j].0) % width == slot
    ensures Pick(items, hash, width, index, slot == index) == items
  {
    if items != [] { PickWhole(items[1..], hash, width, index, slot); }
  }

  /** The bucket the key faces is full, and of keys that share all of its hash value; with buckets of size 0 any is. */
  predicate Crowded<K(==), V>(s: State<K, V>, hash: Hash<K>, key: K)
    requires Shape(s)
  {
    var items := BucketOf(s, hash, key).items;
    && !HasRoom(s, hash, key)
    && forall j :: 0 <= j < |items| ==> hash(items[j].0) == hash(key)
  }

  /** A retry leaves such a key facing such a bucket again, unless the split throws. */
  lemma CrowdedStaysFull<K, V>(s: State<K, V>, hash: Hash<K>, key: K)
    requires Shape(s) && Crowded(s, hash, key)
    ensures var r := Redistribute(s, hash, Slot(s, hash, key));
            r.Ok? ==> Shape(r.value) && Crowded(r.value, hash, key)
  {
    var i, items := Slot(s, hash, key), BucketOf(s, hash, key).items;
    var d := Grown(s, i);
    GrownOk(s, hash, i);
    if Split(d, hash, i).Ok? {
      SplitHere(s, hash, key);
      if items != [] { PickWhole(items, hash, Pow2(d.globalDepth), i, Slot(d, hash, key)); }
    }
  }

  /** The table after `n` splits for the key. */
  function Retries<K(==), V>(s: State<K, V>, hash: Hash<K>, key: K, n: nat): (r: Result<State<K, V>>)
    requires Shape(s)
    ensures r.Ok? ==> Shape(r.value)
    decreases n
  {
    if n == 0 then Ok(s)
    else
      var next := Redistribute(s, hash, Slot(s, hash, key));
      if next.Throw? then Throw
      else
        GrownOk(s, hash, Slot(s, hash, key));
        SplitShape(Grown(s, Slot(s, hash, key)), hash, Slot(s, hash, key));
        Retries(next.value, hash, key, n - 1)
  }

  /** However many splits are made for such a key, none makes room: insertion ends only by a split that throws. */
  lemma {:induction false} CrowdedNeverFits<K, V>(s: State<K, V>, hash: Hash<K>, key: K, n: nat)
    requires Shape(s) && Crowded(s, hash, key)
    ensures var r := Retries(s, hash, key, n); r.Ok? ==> Crowded(r.value, hash, key)
    decreases n
  {
    if n > 0 {
      CrowdedStaysFull(s, hash, key);
      var next := Redistribute(s, hash, Slot(s, hash, key));
      if next.Ok? { CrowdedNeverFits(next.value, hash, key, n - 1); }
    }
  }
}
