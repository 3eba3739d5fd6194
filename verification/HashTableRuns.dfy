/**
 Insertion into the extendible hash table, which splits and retries until the key's bucket has room: it ends. While
 every split is a splittable one the table answers as a finite map, inside insertions as well as between calls.
 */
module HashTableRuns {
  import opened Values
  import opened HashTableSpec
  import opened HashTableSplit

  function Empty<K, V>(bucketSize: nat): State<K, V> {
    State(0, bucketSize, 1, [0], [Bucket(bucketSize, 0, [])])
  }

  // ---- termination ----

  ghost function Sharing<K>(keys: set<K>, hash: Hash<K>, h: nat): set<K> {
    set k | k in keys && hash(k) == h
  }

  /** The hash values of the keys in use have `width` bits, and no more keys share one than fit in a bucket. */
  ghost predicate Uncrowded<K>(keys: set<K>, hash: Hash<K>, width: nat, bucketSize: nat) {
    forall k :: k in keys ==> hash(k) < Pow2(width) && |Sharing(keys, hash, hash(k))| <= bucketSize
  }

  ghost predicate Within<K, V>(s: State<K, V>, keys: set<K>) {
    forall b, j :: 0 <= b < |s.store| && 0 <= j < |s.store[b].items| ==> s.store[b].items[j].0 in keys
  }

  lemma {:induction false} PowGrows(m: nat, n: nat)
    requires m <= n
    ensures Pow2(m) <= Pow2(n)
  {
    if m < n { PowGrows(m, n - 1); }
  }

  /** Distinct keys that all share one hash value leave no room for another. */
  lemma {:induction false} SharersFit<K, V>(items: seq<(K, V)>, keys: set<K>, hash: Hash<K>, h: nat, taken: set<K>)
    requires DistinctKeys(items)
    requires forall j :: 0 <= j < |items| ==> items[j].0 in keys && hash(items[j].0) == h && items[j].0 !in taken
    requires taken <= Sharing(keys, hash, h)
    ensures |items| + |taken| <= |Sharing(keys, hash, h)|
  {
    if items == [] {
      SubsetFits(taken, Sharing(keys, hash, h));
    } else {
      SharersFit(items[1..], keys, hash, h, taken + {items[0].0});
    }
  }

  lemma {:induction false} SubsetFits<T>(a: set<T>, b: set<T>)
    requires a <= b
    ensures |a| <= |b|
  {
    if a != {} {
      var x :| x in a;
      SubsetFits(a - {x}, b - {x});
    }
  }

  ghost function BitsLeft<K, V>(s: State<K, V>, width: nat): nat {
    if s.globalDepth > width then 0 else width + 1 - s.globalDepth
  }

  function LevelsLeft<K(==), V>(s: State<K, V>, hash: Hash<K>, key: K): nat
    requires Shape(s)
  {
    s.globalDepth - BucketOf(s, hash, key).depth
  }

  /** What a split leaves of the bucket it is called for. */
  lemma SplitHere<K, V>(s: State<K, V>, hash: Hash<K>, key: K)
    requires Shape(s)
    requires Redistribute(s, hash, Slot(s, hash, key)).Ok?
    ensures var r := Redistribute(s, hash, Slot(s, hash, key)).value;
            var i := Slot(s, hash, key);
            && Shape(r) && r.bucketSize == s.bucketSize
            && r.globalDepth == (if BucketOf(s, hash, key).depth == s.globalDepth then s.globalDepth + 1
                                 else s.globalDepth)
            && i < |r.dir| && r.dir[i] == s.dir[i] && s.dir[i] < |s.store|
            && r.store[r.dir[i]] == Bucket(s.bucketSize, BucketOf(s, hash, key).depth + 1,
                                           Pick(BucketOf(s, hash, key).items, hash, Pow2(r.globalDepth), i, true))
  {
    var i := Slot(s, hash, key);
    GrownOk(s, hash, i);
    SplitShape(Grown(s, i), hash, i);
    TargetElsewhere(Grown(s, i), hash, i);
  }

  lemma RedistributeWithin<K, V>(s: State<K, V>, hash: Hash<K>, index: nat, keys: set<K>)
    requires Shape(s) && index < |s.dir| && Within(s, keys)
    requires Redistribute(s, hash, index).Ok?
    ensures Within(Redistribute(s, hash, index).value, keys)
  {
    var r, d := Redistribute(s, hash, index).value, Grown(s, index);
    GrownOk(s, hash, index);
    var b := d.dir[index];
    var items, width := d.store[b].items, Pow2(d.globalDepth);
    PickOnly(items, hash, width, index, true);
    PickOnly(items, hash, width, index, false);
    assert forall e :: e in items ==> e.0 in keys;
  }

  lemma WholeHash(h: nat, width: nat, depth: nat)
    requires h < Pow2(width) && width <= depth
    ensures h % Pow2(depth) == h
  {
    PowGrows(width, depth);
    Remainder(h, Pow2(depth), 0, h);
  }

  /** Fewer items than a bucketful agree with an absent key on every bit of the hash values. */
  lemma StayFits<K, V>(items: seq<(K, V)>, hash: Hash<K>, width: nat, depth: nat, bucketSize: nat, keys: set<K>, key: K)
    requires DistinctKeys(items) && Lookup(items, key).None?
    requires key in keys && forall j :: 0 <= j < |items| ==> items[j].0 in keys
    requires Uncrowded(keys, hash, width, bucketSize) && width <= depth
    ensures |Pick(items, hash, Pow2(depth), hash(key), true)| < bucketSize
  {
    var stay := Pick(items, hash, Pow2(depth), hash(key), true);
    PickOnly(items, hash, Pow2(depth), hash(key), true);
    PickDistinct(items, hash, Pow2(depth), hash(key), true);
    LookupFound(items, key);
    forall j | 0 <= j < |stay| ensures stay[j].0 in keys && hash(stay[j].0) == hash(key) && stay[j].0 !in {key} {
      var n :| 0 <= n < |items| && items[n] == stay[j];
      WholeHash(hash(stay[j].0), width, depth);
    }
    SharersFit(stay, keys, hash, hash(key), {key});
  }

  /** Once the directory uses every bit of the hash values, one more split makes room. */
  lemma RoomAtLast<K, V>(s: State<K, V>, hash: Hash<K>, width: nat, keys: set<K>, key: K)
    requires Shape(s) && Within(s, keys) && key in keys && Uncrowded(keys, hash, width, s.bucketSize)
    requires !HasRoom(s, hash, key) && s.globalDepth >= width
    requires Redistribute(s, hash, Slot(s, hash, key)).Ok?
    ensures var r := Redistribute(s, hash, Slot(s, hash, key)).value;
            Shape(r) && Slot(r, hash, key) == Slot(s, hash, key) && HasRoom(r, hash, key)
  {
    SplitHere(s, hash, key);
    var r := Redistribute(s, hash, Slot(s, hash, key)).value;
    WholeHash(hash(key), width, s.globalDepth);
    WholeHash(hash(key), width, r.globalDepth);
    StayFits(BucketOf(s, hash, key).items, hash, width, r.globalDepth, s.bucketSize, keys, key);
  }

  /** The measure of the retries: directory bits not used yet, then how far the key's bucket can still deepen. */
  ghost predicate Sooner<K, V>(r: State<K, V>, s: State<K, V>, hash: Hash<K>, width: nat, key: K)
    requires Shape(r) && Shape(s)
  {
    || BitsLeft(r, width) < BitsLeft(s, width)
    || (BitsLeft(r, width) == BitsLeft(s, width) &&
        (LevelsLeft(r, hash, key) < LevelsLeft(s, hash, key)
         || (LevelsLeft(r, hash, key) == LevelsLeft(s, hash, key) && HasRoom(r, hash, key))))
  }

  lemma RetryEnds<K, V>(s: State<K, V>, hash: Hash<K>, width: nat, keys: set<K>, key: K)
    requires Shape(s) && Within(s, keys) && key in keys && Uncrowded(keys, hash, width, s.bucketSize)
    requires !HasRoom(s, hash, key)
    requires Redistribute(s, hash, Slot(s, hash, key)).Ok?
    ensures var r := Redistribute(s, hash, Slot(s, hash, key)).value;
            && Shape(r) && Within(r, keys) && r.bucketSize == s.bucketSize
            && Sooner(r, s, hash, width, key)
  {
    RedistributeWithin(s, hash, Slot(s, hash, key), keys);
    SplitHere(s, hash, key);
    if s.globalDepth >= width { RoomAtLast(s, hash, width, keys, key); }
  }

  // ---- insertion ----

  /** Insertion with its retries; `width` and `keys` serve the termination proof only. */
  function Insert<K(==), V>(s: State<K, V>, hash: Hash<K>, ghost width: nat, ghost keys: set<K>, key: K, value: V)
    : (r: Result<State<K, V>>)
    requires Shape(s) && Within(s, keys) && key in keys && Uncrowded(keys, hash, width, s.bucketSize)
    ensures r.Ok? ==> Shape(r.value) && Within(r.value, keys) && r.value.bucketSize == s.bucketSize
    decreases BitsLeft(s, width), LevelsLeft(s, hash, key), if HasRoom(s, hash, key) then 0 else 1
  {
    if HasRoom(s, hash, key) then
      PutAtWithin(s, hash, keys, key, value);
      Ok(PutAt(s, hash, key, value))
    else
      var next := Redistribute(s, hash, Slot(s, hash, key));
      if next.Throw? then Throw
      else
        RetryEnds(s, hash, width, keys, key);
        Insert(next.value, hash, width, keys, key, value)
  }

  lemma PutAtWithin<K, V>(s: State<K, V>, hash: Hash<K>, keys: set<K>, key: K, value: V)
    requires Shape(s) && Within(s, keys) && key in keys && HasRoom(s, hash, key)
    ensures Shape(PutAt(s, hash, key, value)) && Within(PutAt(s, hash, key, value), keys)
  {
    PutDistinct(BucketOf(s, hash, key).items, key, value);
    PutShape(BucketOf(s, hash, key).items, key, value);
  }

  lemma RemoveAtWithin<K, V>(s: State<K, V>, hash: Hash<K>, keys: set<K>, key: K)
    requires Shape(s) && Within(s, keys)
    ensures Shape(RemoveAt(s, hash, key)) && Within(RemoveAt(s, hash, key), keys)
  {
    var items := BucketOf(s, hash, key).items;
    DropSubsequence(items, key);
    forall j | 0 <= j < |Drop(items, key)| ensures Drop(items, key)[j].0 in keys {
      assert Drop(items, key)[j] in items;
    }
  }

  /** Every split the insertion makes is a splittable one. */
  predicate Splits<K(==), V>(s: State<K, V>, hash: Hash<K>, ghost width: nat, ghost keys: set<K>, key: K)
    requires Shape(s) && Within(s, keys) && key in keys && Uncrowded(keys, hash, width, s.bucketSize)
    decreases BitsLeft(s, width), LevelsLeft(s, hash, key), if HasRoom(s, hash, key) then 0 else 1
  {
    HasRoom(s, hash, key) ||
    (var i := Slot(s, hash, key);
     GrownOk(s, hash, i);
     && Splittable(Grown(s, i), hash, i)
     && var next := Redistribute(s, hash, i);
        RetryEnds(s, hash, width, keys, key);
        Splits(next.value, hash, width, keys, key))
  }

  /** At every point of the insertion before the key goes in, the table answers as `m`, and no split throws. */
  ghost predicate AnswersThroughout<K(!new), V>(s: State<K, V>, hash: Hash<K>, width: nat, keys: set<K>, key: K,
                                                m: map<K, V>)
    requires Shape(s) && Within(s, keys) && key in keys && Uncrowded(keys, hash, width, s.bucketSize)
    decreases BitsLeft(s, width), LevelsLeft(s, hash, key), if HasRoom(s, hash, key) then 0 else 1
  {
    && Answers(s, hash, m)
    && (HasRoom(s, hash, key) ||
        (var next := Redistribute(s, hash, Slot(s, hash, key));
         && next.Ok?
         && (RetryEnds(s, hash, width, keys, key);
             AnswersThroughout(next.value, hash, width, keys, key, m))))
  }

  /** The answers stay right through the retries exactly when every split is a splittable one. */
  lemma {:induction false} InsertExactly<K(!new), V>(s: State<K, V>, hash: Hash<K>, width: nat, keys: set<K>, key: K,
                                                     m: map<K, V>)
    requires Shape(s) && Within(s, keys) && key in keys && Uncrowded(keys, hash, width, s.bucketSize)
    requires Homed(s, hash) && Answers(s, hash, m)
    ensures AnswersThroughout(s, hash, width, keys, key, m) <==> Splits(s, hash, width, keys, key)
    decreases BitsLeft(s, width), LevelsLeft(s, hash, key), if HasRoom(s, hash, key) then 0 else 1
  {
    if !HasRoom(s, hash, key) {
      var i := Slot(s, hash, key);
      var next := Redistribute(s, hash, i);
      RedistributeExactly(s, hash, i);
      if next.Ok? {
        RetryEnds(s, hash, width, keys, key);
        AnswersOfKept(s, next.value, hash, m);
        if Splittable(Grown(s, i), hash, i) {
          InsertExactly(next.value, hash, width, keys, key, m);
        } else {
          AnswersFirst(next.value, hash, width, keys, key, m);
        }
      }
    }
  }

  lemma AnswersFirst<K(!new), V>(s: State<K, V>, hash: Hash<K>, width: nat, keys: set<K>, key: K, m: map<K, V>)
    requires Shape(s) && Within(s, keys) && key in keys && Uncrowded(keys, hash, width, s.bucketSize)
    ensures AnswersThroughout(s, hash, width, keys, key, m) ==> Answers(s, hash, m)
  {}

  lemma AnswersOfKept<K(!new), V>(s: State<K, V>, r: State<K, V>, hash: Hash<K>, m: map<K, V>)
    requires Shape(s) && Shape(r) && Answers(s, hash, m)
    ensures KeepsLookups(s, Ok(r), hash) <==> Answers(r, hash, m)
  {
    assert forall q :: Find(s, hash, q) == if q in m then Some(m[q]) else None;
  }

  /** An insertion whose splits are splittable adds the entry to the map and loses nothing. */
  lemma {:induction false} InsertAnswers<K(!new), V>(s: State<K, V>, hash: Hash<K>, width: nat, keys: set<K>, key: K,
                                                     value: V, m: map<K, V>)
    requires Shape(s) && Within(s, keys) && key in keys && Uncrowded(keys, hash, width, s.bucketSize)
    requires Homed(s, hash) && Answers(s, hash, m) && Splits(s, hash, width, keys, key)
    ensures var r := Insert(s, hash, width, keys, key, value);
            r.Ok? && Homed(r.value, hash) && Answers(r.value, hash, m[key := value])
    decreases BitsLeft(s, width), LevelsLeft(s, hash, key), if HasRoom(s, hash, key) then 0 else 1
  {
    if HasRoom(s, hash, key) {
      PutAtHomed(s, hash, key, value);
      PutAtAnswers(s, hash, key, value, m);
    } else {
      var next := Redistribute(s, hash, Slot(s, hash, key));
      RedistributeExactly(s, hash, Slot(s, hash, key));
      RetryEnds(s, hash, width, keys, key);
      AnswersOfKept(s, next.value, hash, m);
      InsertAnswers(next.value, hash, width, keys, key, value, m);
    }
  }

  // ---- runs ----

  datatype Op<K, V> = InsertOp(key: K, value: V) | RemoveOp(key: K)

  ghost predicate KeysIn<K, V>(ops: seq<Op<K, V>>, keys: set<K>) {
    forall i :: 0 <= i < |ops| ==> ops[i].key in keys
  }

  function Step<K(==), V>(s: State<K, V>, hash: Hash<K>, ghost width: nat, ghost keys: set<K>, op: Op<K, V>)
    : (r: Result<State<K, V>>)
    requires Shape(s) && Within(s, keys) && op.key in keys && Uncrowded(keys, hash, width, s.bucketSize)
    ensures r.Ok? ==> Shape(r.value) && Within(r.value, keys) && r.value.bucketSize == s.bucketSize
  {
    match op
    case InsertOp(key, value) => Insert(s, hash, width, keys, key, value)
    case RemoveOp(key) => RemoveAtWithin(s, hash, keys, key); Ok(RemoveAt(s, hash, key))
  }

  function Run<K(==), V>(s: State<K, V>, hash: Hash<K>, ghost width: nat, ghost keys: set<K>, ops: seq<Op<K, V>>)
    : (r: Result<State<K, V>>)
    requires Shape(s) && Within(s, keys) && KeysIn(ops, keys) && Uncrowded(keys, hash, width, s.bucketSize)
    ensures r.Ok? ==> Shape(r.value)
    decreases |ops|
  {
    if ops == [] then Ok(s)
    else
      var next := Step(s, hash, width, keys, ops[0]);
      if next.Throw? then Throw else Run(next.value, hash, width, keys, ops[1..])
  }

  /** What a map does in the same run. */
  function MapStep<K, V>(m: map<K, V>, op: Op<K, V>): map<K, V> {
    match op
    case InsertOp(key, value) => m[key := value]
    case RemoveOp(key) => m - {key}
  }

  function MapRun<K, V>(m: map<K, V>, ops: seq<Op<K, V>>): map<K, V>
    decreases |ops|
  {
    if ops == [] then m else MapRun(MapStep(m, ops[0]), ops[1..])
  }

  predicate RunSplits<K(==), V>(s: State<K, V>, hash: Hash<K>, ghost width: nat, ghost keys: set<K>,
                                ops: seq<Op<K, V>>)
    requires Shape(s) && Within(s, keys) && KeysIn(ops, keys) && Uncrowded(keys, hash, width, s.bucketSize)
    decreases |ops|
  {
    ops == [] ||
    (&& (ops[0].InsertOp? ==> Splits(s, hash, width, keys, ops[0].key))
     && var next := Step(s, hash, width, keys, ops[0]);
        next.Ok? ==> RunSplits(next.value, hash, width, keys, ops[1..]))
  }

  /** The table answers as the map at every point of the run, retries included, and nothing throws. */
  ghost predicate RunAnswers<K(!new), V>(s: State<K, V>, hash: Hash<K>, width: nat, keys: set<K>,
                                         ops: seq<Op<K, V>>, m: map<K, V>)
    requires Shape(s) && Within(s, keys) && KeysIn(ops, keys) && Uncrowded(keys, hash, width, s.bucketSize)
    decreases |ops|
  {
    && Answers(s, hash, m)
    && (ops == [] ||
        (&& (ops[0].InsertOp? ==> AnswersThroughout(s, hash, width, keys, ops[0].key, m))
         && var next := Step(s, hash, width, keys, ops[0]);
            next.Ok? && RunAnswers(next.value, hash, width, keys, ops[1..], MapStep(m, ops[0]))))
  }

  lemma StepAnswers<K(!new), V>(s: State<K, V>, hash: Hash<K>, width: nat, keys: set<K>, op: Op<K, V>, m: map<K, V>)
    requires Shape(s) && Within(s, keys) && op.key in keys && Uncrowded(keys, hash, width, s.bucketSize)
    requires Homed(s, hash) && Answers(s, hash, m)
    requires op.InsertOp? ==> Splits(s, hash, width, keys, op.key)
    ensures var r := Step(s, hash, width, keys, op);
            r.Ok? && Homed(r.value, hash) && Answers(r.value, hash, MapStep(m, op))
  {
    match op
    case InsertOp(key, value) => InsertAnswers(s, hash, width, keys, key, value, m);
    case RemoveOp(key) =>
      RemoveAtHomed(s, hash, key);
      RemoveAtAnswers(s, hash, key, m);
  }

  /**
   Over a whole run the table answers as a finite map at every point, between the splits of an insertion included,
   exactly when every split is a splittable one.
   */
  lemma {:induction false} RunExactly<K(!new), V>(s: State<K, V>, hash: Hash<K>, width: nat, keys: set<K>,
                                                  ops: seq<Op<K, V>>, m: map<K, V>)
    requires Shape(s) && Within(s, keys) && KeysIn(ops, keys) && Uncrowded(keys, hash, width, s.bucketSize)
    requires Homed(s, hash) && Answers(s, hash, m)
    ensures RunAnswers(s, hash, width, keys, ops, m) <==> RunSplits(s, hash, width, keys, ops)
    ensures RunSplits(s, hash, width, keys, ops) ==>
              var r := Run(s, hash, width, keys, ops);
              r.Ok? && Homed(r.value, hash) && Answers(r.value, hash, MapRun(m, ops))
    decreases |ops|
  {
    if ops != [] {
      var op := ops[0];
      if op.InsertOp? { InsertExactly(s, hash, width, keys, op.key, m); }
      if op.InsertOp? ==> Splits(s, hash, width, keys, op.key) {
        StepAnswers(s, hash, width, keys, op, m);
        RunExactly(Step(s, hash, width, keys, op).value, hash, width, keys, ops[1..], MapStep(m, op));
      }
    }
  }

  /** The table answers as the map before the run and after each completed call, and no call throws. */
  ghost predicate AnswersAtCalls<K(!new), V>(s: State<K, V>, hash: Hash<K>, width: nat, keys: set<K>,
                                             ops: seq<Op<K, V>>, m: map<K, V>)
    requires Shape(s) && Within(s, keys) && KeysIn(ops, keys) && Uncrowded(keys, hash, width, s.bucketSize)
    decreases |ops|
  {
    && Answers(s, hash, m)
    && (ops == [] ||
        var next := Step(s, hash, width, keys, ops[0]);
        next.Ok? && AnswersAtCalls(next.value, hash, width, keys, ops[1..], MapStep(m, ops[0])))
  }

  /** What callers see is right in every run whose splits are all splittable. */
  lemma {:induction false} SplittableRunsAnswer<K(!new), V>(s: State<K, V>, hash: Hash<K>, width: nat, keys: set<K>,
                                                            ops: seq<Op<K, V>>, m: map<K, V>)
    requires Shape(s) && Within(s, keys) && KeysIn(ops, keys) && Uncrowded(keys, hash, width, s.bucketSize)
    requires Homed(s, hash) && Answers(s, hash, m) && RunSplits(s, hash, width, keys, ops)
    ensures AnswersAtCalls(s, hash, width, keys, ops, m)
    decreases |ops|
  {
    if ops != [] {
      StepAnswers(s, hash, width, keys, ops[0], m);
      SplittableRunsAnswer(Step(s, hash, width, keys, ops[0]).value, hash, width, keys, ops[1..], MapStep(m, ops[0]));
    }
  }

  /** A new table answers as the empty map. */
  lemma EmptyAnswers<K(!new), V>(bucketSize: nat, hash: Hash<K>)
    ensures Shape(Empty<K, V>(bucketSize)) && Homed(Empty<K, V>(bucketSize), hash)
    ensures Answers(Empty<K, V>(bucketSize), hash, map[])
  {
    var e := Empty<K, V>(bucketSize);
    forall q ensures Slot(e, hash, q) == 0 {
      assert Pow2(0) == 1;
    }
  }

  // ---- the number of buckets ----

  /** The counter of buckets is the number of buckets ever made. */
  predicate Counted<K, V>(s: State<K, V>) {
    s.numBuckets == |s.store|
  }

  lemma {:induction false} InsertCounts<K, V>(s: State<K, V>, hash: Hash<K>, width: nat, keys: set<K>, key: K, value: V)
    requires Shape(s) && Within(s, keys) && key in keys && Uncrowded(keys, hash, width, s.bucketSize) && Counted(s)
    ensures var r := Insert(s, hash, width, keys, key, value); r.Ok? ==> Counted(r.value)
    decreases BitsLeft(s, width), LevelsLeft(s, hash, key), if HasRoom(s, hash, key) then 0 else 1
  {
    if !HasRoom(s, hash, key) {
      var next := Redistribute(s, hash, Slot(s, hash, key));
      if next.Ok? {
        RetryEnds(s, hash, width, keys, key);
        SplitCounts(s, hash, Slot(s, hash, key));
        InsertCounts(next.value, hash, width, keys, key, value);
      }
    }
  }

  /** A split makes one bucket. */
  lemma SplitCounts<K, V>(s: State<K, V>, hash: Hash<K>, index: nat)
    requires Shape(s) && index < |s.dir| && Redistribute(s, hash, index).Ok?
    ensures var r := Redistribute(s, hash, index).value;
            r.numBuckets == s.numBuckets + 1 && |r.store| == |s.store| + 1
  {
    GrownOk(s, hash, index);
  }

  lemma {:induction false} RunCounts<K, V>(s: State<K, V>, hash: Hash<K>, width: nat, keys: set<K>, ops: seq<Op<K, V>>)
    requires Shape(s) && Within(s, keys) && KeysIn(ops, keys) && Uncrowded(keys, hash, width, s.bucketSize)
    requires Counted(s)
    ensures var r := Run(s, hash, width, keys, ops); r.Ok? ==> Counted(r.value)
    decreases |ops|
  {
    if ops != [] {
      if ops[0].InsertOp? { InsertCounts(s, hash, width, keys, ops[0].key, ops[0].value); }
      var next := Step(s, hash, width, keys, ops[0]);
      if next.Ok? { RunCounts(next.value, hash, width, keys, ops[1..]); }
    }
  }
}
