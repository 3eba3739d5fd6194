/**
 The extendible hash table as a value: a directory of bucket handles (several slots may share a bucket), its buckets,
 and what lookup, removal and insertion into a bucket with room do to it.
 */
module HashTableSpec {
  import opened Values

  datatype Bucket<K, V> = Bucket(size: nat, depth: nat, items: seq<(K, V)>)

  /** `dir[i]` is a handle into `store`; handles are never reused. */
  datatype State<K, V> = State(globalDepth: nat, bucketSize: nat, numBuckets: nat, dir: seq<nat>,
                               store: seq<Bucket<K, V>>)

  function Pow2(n: nat): (p: nat)
    ensures p > 0
  {
    if n == 0 then 1 else 2 * Pow2(n - 1)
  }

  // ---- one bucket ----

  function Lookup<K(==), V>(items: seq<(K, V)>, key: K): Option<V> {
    if items == [] then None else if items[0].0 == key then Some(items[0].1) else Lookup(items[1..], key)
  }

  /** Overwrites the key's entry, or appends one. */
  function Put<K(==), V>(items: seq<(K, V)>, key: K, value: V): seq<(K, V)> {
    if items == [] then [(key, value)]
    else if items[0].0 == key then [(key, value)] + items[1..]
    else [items[0]] + Put(items[1..], key, value)
  }

  function Drop<K(==), V>(items: seq<(K, V)>, key: K): seq<(K, V)> {
    if items == [] then [] else if items[0].0 == key then items[1..] else [items[0]] + Drop(items[1..], key)
  }

  predicate DistinctKeys<K(==), V>(items: seq<(K, V)>) {
    forall i, j :: 0 <= i < j < |items| ==> items[i].0 != items[j].0
  }

  lemma {:induction false} LookupFinds<K, V>(items: seq<(K, V)>, i: nat)
    requires DistinctKeys(items) && i < |items|
    ensures Lookup(items, items[i].0) == Some(items[i].1)
  {
    if i > 0 { LookupFinds(items[1..], i - 1); }
  }

  lemma {:induction false} LookupFound<K, V>(items: seq<(K, V)>, key: K)
    ensures Lookup(items, key).Some? ==> exists i :: 0 <= i < |items| && items[i] == (key, Lookup(items, key).value)
    ensures Lookup(items, key).None? ==> forall i :: 0 <= i < |items| ==> items[i].0 != key
  {
    if items != [] {
      LookupFound(items[1..], key);
      if items[0].0 == key {
        assert items[0] == (key, Lookup(items, key).value);
      } else if Lookup(items, key).Some? {
        var i :| 0 <= i < |items[1..]| && items[1..][i] == (key, Lookup(items, key).value);
        assert items[i + 1] == (key, Lookup(items, key).value);
      }
    }
  }

  lemma {:induction false} PutLooksUp<K, V>(items: seq<(K, V)>, key: K, value: V, q: K)
    ensures Lookup(Put(items, key, value), q) == if q == key then Some(value) else Lookup(items, q)
  {
    if items != [] && items[0].0 != key { PutLooksUp(items[1..], key, value, q); }
  }

  lemma {:induction false} PutShape<K, V>(items: seq<(K, V)>, key: K, value: V)
    ensures var out := Put(items, key, value);
            && |out| == |items| + (if Lookup(items, key).Some? then 0 else 1)
            && (forall i :: 0 <= i < |items| ==> out[i].0 == items[i].0)
            && (Lookup(items, key).None? ==> out == items + [(key, value)])
  {
    if items != [] && items[0].0 != key { PutShape(items[1..], key, value); }
  }

  lemma PutDistinct<K, V>(items: seq<(K, V)>, key: K, value: V)
    requires DistinctKeys(items)
    ensures DistinctKeys(Put(items, key, value))
    ensures forall i :: 0 <= i < |Put(items, key, value)| ==>
              || Put(items, key, value)[i].0 == key
              || exists j :: 0 <= j < |items| && items[j].0 == Put(items, key, value)[i].0
  {
    PutShape(items, key, value);
    LookupFound(items, key);
  }

  lemma {:induction false} DropSubsequence<K, V>(items: seq<(K, V)>, key: K)
    requires DistinctKeys(items)
    ensures DistinctKeys(Drop(items, key)) && |Drop(items, key)| <= |items|
    ensures forall e :: e in Drop(items, key) ==> e in items && e.0 != key
  {
    if items != [] && items[0].0 != key {
      DropSubsequence(items[1..], key);
      var rest := Drop(items[1..], key);
      forall i | 0 <= i < |rest| ensures rest[i].0 != items[0].0 {
        assert rest[i] in rest;
        var j :| 0 <= j < |items[1..]| && items[1..][j] == rest[i];
        assert items[j + 1] == rest[i];
      }
    }
  }

  lemma {:induction false} DropLooksUp<K, V>(items: seq<(K, V)>, key: K, q: K)
    requires DistinctKeys(items)
    ensures Lookup(Drop(items, key), q) == if q == key then None else Lookup(items, q)
  {
    if items != [] {
      if items[0].0 != key {
        DropLooksUp(items[1..], key, q);
      } else {
        LookupFound(items[1..], key);
        assert forall i :: 0 <= i < |items[1..]| ==> items[1..][i] == items[i + 1];
      }
    }
  }

  // ---- the table ----

  type Hash<!K> = K -> nat

  function Slot<K, V>(s: State<K, V>, hash: Hash<K>, key: K): (i: nat)
    ensures i < Pow2(s.globalDepth)
  {
    hash(key) % Pow2(s.globalDepth)
  }

  /** The directory has one slot per value of the low bits; buckets are no fuller, nor deeper, than allowed. */
  predicate Shape<K(==), V>(s: State<K, V>) {
    && |s.dir| == Pow2(s.globalDepth)
    && (forall i :: 0 <= i < |s.dir| ==> s.dir[i] < |s.store|)
    && (forall i :: 0 <= i < |s.dir| ==> s.store[s.dir[i]].depth <= s.globalDepth)
    && (forall b :: 0 <= b < |s.store| ==>
          && s.store[b].size == s.bucketSize && |s.store[b].items| <= s.bucketSize
          && DistinctKeys(s.store[b].items))
  }

  function BucketOf<K(==), V>(s: State<K, V>, hash: Hash<K>, key: K): Bucket<K, V>
    requires Shape(s)
  {
    s.store[s.dir[Slot(s, hash, key)]]
  }

  function Find<K(==), V>(s: State<K, V>, hash: Hash<K>, key: K): Option<V>
    requires Shape(s)
  {
    Lookup(BucketOf(s, hash, key).items, key)
  }

  /** Every entry of a bucket in use is found in the slot its own hash selects. */
  predicate Homed<K(==), V>(s: State<K, V>, hash: Hash<K>)
    requires Shape(s)
  {
    forall i, j :: 0 <= i < |s.dir| && 0 <= j < |s.store[s.dir[i]].items| ==>
      s.dir[Slot(s, hash, s.store[s.dir[i]].items[j].0)] == s.dir[i]
  }

  /** The table answers as the finite map `m`. */
  ghost predicate Answers<K(!new), V>(s: State<K, V>, hash: Hash<K>, m: map<K, V>)
    requires Shape(s)
  {
    forall k :: Find(s, hash, k) == if k in m then Some(m[k]) else None
  }

  // ---- insertion into a bucket with room, and removal ----

  predicate HasRoom<K(==), V>(s: State<K, V>, hash: Hash<K>, key: K)
    requires Shape(s)
  {
    var b := BucketOf(s, hash, key);
    Lookup(b.items, key).Some? || |b.items| != b.size
  }

  function SetItems<K, V>(s: State<K, V>, b: nat, items: seq<(K, V)>): State<K, V>
    requires b < |s.store|
  {
    s.(store := s.store[b := s.store[b].(items := items)])
  }

  function PutAt<K(==), V>(s: State<K, V>, hash: Hash<K>, key: K, value: V): State<K, V>
    requires Shape(s)
  {
    var b := s.dir[Slot(s, hash, key)];
    SetItems(s, b, Put(s.store[b].items, key, value))
  }

  function RemoveAt<K(==), V>(s: State<K, V>, hash: Hash<K>, key: K): State<K, V>
    requires Shape(s)
  {
    var b := s.dir[Slot(s, hash, key)];
    SetItems(s, b, Drop(s.store[b].items, key))
  }

  lemma PutAtOk<K(!new), V>(s: State<K, V>, hash: Hash<K>, key: K, value: V)
    requires Shape(s) && HasRoom(s, hash, key)
    ensures Shape(PutAt(s, hash, key, value))
  {
    var b := s.dir[Slot(s, hash, key)];
    PutDistinct(s.store[b].items, key, value);
    PutShape(s.store[b].items, key, value);
  }

  lemma PutAtHomed<K(!new), V>(s: State<K, V>, hash: Hash<K>, key: K, value: V)
    requires Shape(s) && Homed(s, hash) && HasRoom(s, hash, key)
    ensures Shape(PutAt(s, hash, key, value)) && Homed(PutAt(s, hash, key, value), hash)
  {
    var b := s.dir[Slot(s, hash, key)];
    PutAtOk(s, hash, key, value);
    PutDistinct(s.store[b].items, key, value);
  }

  lemma PutAtAnswers<K(!new), V>(s: State<K, V>, hash: Hash<K>, key: K, value: V, m: map<K, V>)
    requires Shape(s) && HasRoom(s, hash, key) && Answers(s, hash, m)
    ensures Shape(PutAt(s, hash, key, value)) && Answers(PutAt(s, hash, key, value), hash, m[key := value])
  {
    PutAtOk(s, hash, key, value);
    forall q ensures Find(PutAt(s, hash, key, value), hash, q) ==
                     if q in m[key := value] then Some(m[key := value][q]) else None {
      assert Find(s, hash, q) == if q in m then Some(m[q]) else None;
      PutLooksUp(BucketOf(s, hash, key).items, key, value, q);
    }
  }

  lemma RemoveAtHomed<K(!new), V>(s: State<K, V>, hash: Hash<K>, key: K)
    requires Shape(s) && Homed(s, hash)
    ensures Shape(RemoveAt(s, hash, key)) && Homed(RemoveAt(s, hash, key), hash)
  {
    var b := s.dir[Slot(s, hash, key)];
    var items, left := s.store[b].items, Drop(s.store[b].items, key);
    DropSubsequence(items, key);
    forall j | 0 <= j < |left| ensures exists i :: 0 <= i < |items| && items[i] == left[j] {
      assert left[j] in left;
    }
  }

  lemma RemoveAtAnswers<K(!new), V>(s: State<K, V>, hash: Hash<K>, key: K, m: map<K, V>)
    requires Shape(s) && Answers(s, hash, m)
    ensures Shape(RemoveAt(s, hash, key)) && Answers(RemoveAt(s, hash, key), hash, m - {key})
  {
    var b := s.dir[Slot(s, hash, key)];
    DropSubsequence(s.store[b].items, key);
    forall q ensures Find(RemoveAt(s, hash, key), hash, q) == if q in m - {key} then Some((m - {key})[q]) else None {
      assert Find(s, hash, q) == if q in m then Some(m[q]) else None;
      DropLooksUp(s.store[b].items, key, q);
    }
  }
}
