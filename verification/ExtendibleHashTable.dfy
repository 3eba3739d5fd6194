/**
 The extendible hash table as the object it is: methods that update the directory and the buckets in place, each tied
 to what it does to the table as a value.
 */
module ExtendibleHashTable {
  import opened Values
  import opened HashTableSpec
  import opened HashTableSplit
  import opened HashTableRuns

  // ---- Bucket::Find, Bucket::Remove, Bucket::Insert ----

  method FindInBucket<K(==), V>(bucket: Bucket<K, V>, key: K) returns (r: Option<V>)
    ensures r == Lookup(bucket.items, key)
  {
    var i := 0;
    while i < |bucket.items|
      invariant i <= |bucket.items|
      invariant Lookup(bucket.items, key) == Lookup(bucket.items[i..], key)
    {
      if bucket.items[i].0 == key {
        return Some(bucket.items[i].1);
      }
      i := i + 1;
    }
    return None;
  }

  lemma {:induction false} DropAt<K, V>(items: seq<(K, V)>, key: K, i: nat)
    requires i < |items| && items[i].0 == key && forall j :: 0 <= j < i ==> items[j].0 != key
    ensures Drop(items, key) == items[..i] + items[i + 1..] && Lookup(items, key) == Some(items[i].1)
  {
    if i > 0 { DropAt(items[1..], key, i - 1); }
  }

  lemma {:induction false} PutOver<K, V>(items: seq<(K, V)>, key: K, value: V, i: nat)
    requires i < |items| && items[i].0 == key && forall j :: 0 <= j < i ==> items[j].0 != key
    ensures Put(items, key, value) == items[i := (key, value)] && Lookup(items, key) == Some(items[i].1)
  {
    if i > 0 { PutOver(items[1..], key, value, i - 1); }
  }

  lemma {:induction false} Absent<K, V>(items: seq<(K, V)>, key: K)
    requires forall j :: 0 <= j < |items| ==> items[j].0 != key
    ensures Lookup(items, key) == None && Drop(items, key) == items
  {
    if items != [] { Absent(items[1..], key); }
  }

  method RemoveFromBucket<K(==), V>(bucket: Bucket<K, V>, key: K) returns (found: bool, after: Bucket<K, V>)
    ensures found == Lookup(bucket.items, key).Some?
    ensures after == bucket.(items := Drop(bucket.items, key))
  {
    var i := 0;
    while i < |bucket.items|
      invariant i <= |bucket.items|
      invariant forall j :: 0 <= j < i ==> bucket.items[j].0 != key
    {
      if bucket.items[i].0 == key {
        DropAt(bucket.items, key, i);
        return true, bucket.(items := bucket.items[..i] + bucket.items[i + 1..]);
      }
      i := i + 1;
    }
    Absent(bucket.items, key);
    return false, bucket;
  }

  method InsertIntoBucket<K(==), V>(bucket: Bucket<K, V>, key: K, value: V) returns (ok: bool, after: Bucket<K, V>)
    ensures ok == (Lookup(bucket.items, key).Some? || |bucket.items| != bucket.size)
    ensures after == if ok then bucket.(items := Put(bucket.items, key, value)) else bucket
  {
    var i := 0;
    while i < |bucket.items|
      invariant i <= |bucket.items|
      invariant forall j :: 0 <= j < i ==> bucket.items[j].0 != key
    {
      if bucket.items[i].0 == key {
        PutOver(bucket.items, key, value, i);
        return true, bucket.(items := bucket.items[i := (key, value)]);
      }
      i := i + 1;
    }
    Absent(bucket.items, key);
    if |bucket.items| == bucket.size {
      return false, bucket;
    }
    PutShape(bucket.items, key, value);
    return true, bucket.(items := bucket.items + [(key, value)]);
  }

  // ---- the table ----

  /** What a split that throws leaves: the directory grown and the bucket deepened, but no slot reassigned. */
  function AfterThrow<K(==), V>(s: State<K, V>, index: nat): State<K, V>
    requires Shape(s) && index < |s.dir|
  {
    var d := Grown(s, index);
    var b := s.dir[index];
    d.(numBuckets := d.numBuckets + 1, store := d.store[b := d.store[b].(depth := d.store[b].depth + 1)])
  }

  /** One step of the redistribution loop: an item that moves is cut out of what is left of the list. */
  lemma MoveOne<K, V>(items: seq<(K, V)>, j: nat, hash: Hash<K>, width: nat, index: nat)
    requires width > 0 && DistinctKeys(items) && j < |items|
    ensures var stay := Pick(items[..j], hash, width, index, true);
            && Pick(items[..j + 1], hash, width, index, true) ==
               (if hash(items[j].0) % width == index then stay + [items[j]] else stay)
            && Pick(items[..j + 1], hash, width, index, false) ==
               Pick(items[..j], hash, width, index, false)
               + (if hash(items[j].0) % width == index then [] else [items[j]])
            && stay + items[j..] == (stay + [items[j]]) + items[j + 1..]
            && Drop(stay + items[j..], items[j].0) == stay + items[j + 1..]
  {
    PickAppend(items[..j], items[j], hash, width, index, true);
    PickAppend(items[..j], items[j], hash, width, index, false);
    assert items[..j + 1] == items[..j] + [items[j]];
    var stay := Pick(items[..j], hash, width, index, true);
    PickOnly(items[..j], hash, width, index, true);
    var rest := stay + items[j..];
    forall i | 0 <= i < |stay| ensures rest[i].0 != items[j].0 {
      var n :| 0 <= n < j && items[..j][n] == stay[i];
    }
    DropAt(rest, items[j].0, |stay|);
    assert rest[..|stay|] == stay && rest[|stay| + 1..] == items[j + 1..];
  }

  lemma {:induction false} PickAppend<K, V>(items: seq<(K, V)>, e: (K, V), hash: Hash<K>, width: nat, index: nat,
                                            here: bool)
    requires width > 0
    ensures Pick(items + [e], hash, width, index, here) ==
            Pick(items, hash, width, index, here)
            + (if (hash(e.0) % width == index) == here then [e] else [])
  {
    if items != [] {
      PickAppend(items[1..], e, hash, width, index, here);
      assert (items + [e])[1..] == items[1..] + [e];
    }
  }

  /** The loop walks a copy of the bucket's list while moving items from the bucket to the new one. */
  method MoveItems<K(==), V>(full: Bucket<K, V>, added: Bucket<K, V>, hash: Hash<K>, width: nat, index: nat)
    returns (bucket: Bucket<K, V>, split: Bucket<K, V>, splitIndex: nat)
    requires width > 0 && DistinctKeys(full.items) && |full.items| <= added.size && added.items == []
    ensures bucket == full.(items := Pick(full.items, hash, width, index, true))
    ensures split == added.(items := Pick(full.items, hash, width, index, false))
    ensures splitIndex == LastSlot(split.items, hash, width, index + full.depth)
  {
    var list := full.items;
    bucket, split, splitIndex := full, added, index + full.depth;
    var j := 0;
    while j < |list|
      invariant j <= |list|
      invariant bucket == full.(items := Pick(list[..j], hash, width, index, true) + list[j..])
      invariant split == added.(items := Pick(list[..j], hash, width, index, false))
      invariant splitIndex == LastSlot(split.items, hash, width, index + full.depth)
    {
      MoveOne(list, j, hash, width, index);
      var newIndex := hash(list[j].0) % width;
      if newIndex != index {
        splitIndex := newIndex;
        var ok;
        ok, bucket := RemoveFromBucket(bucket, list[j].0);
        NewInSplit(list, j, hash, width, index);
        ok, split := InsertIntoBucket(split, list[j].0, list[j].1);
      }
      j := j + 1;
    }
    assert list[..j] == list && list[j..] == [];
  }

  class ExtendibleHashTable<K(!new, ==), V> {
    const hash: Hash<K>
    const bucketSize: nat
    var globalDepth: nat
    var numBuckets: nat
    var dir: seq<nat>
    var store: seq<Bucket<K, V>>

    ghost function Contents(): State<K, V>
      reads this
    {
      State(globalDepth, bucketSize, numBuckets, dir, store)
    }

    constructor (bucketSize: nat, hash: Hash<K>)
      ensures Contents() == Empty(bucketSize) && this.hash == hash
      ensures Shape(Contents()) && Homed(Contents(), hash) && Answers(Contents(), hash, map[])
    {
      this.hash := hash;
      this.bucketSize := bucketSize;
      globalDepth := 0;
      numBuckets := 1;
      dir := [0];
      store := [Bucket(bucketSize, 0, [])];
      EmptyAnswers<K, V>(bucketSize, hash);
    }

    function IndexOf(key: K): (i: nat)
      reads this
      ensures i == Slot(State(globalDepth, bucketSize, numBuckets, dir, store), hash, key)
    {
      hash(key) % Pow2(globalDepth)
    }

    method Find(key: K) returns (r: Option<V>)
      requires Shape(Contents())
      ensures r == HashTableSpec.Find(Contents(), hash, key)
    {
      var index := IndexOf(key);
      r := FindInBucket(store[dir[index]], key);
    }

    method Remove(key: K) returns (found: bool)
      requires Shape(Contents())
      modifies this
      ensures Contents() == old(RemoveAt(Contents(), hash, key))
      ensures found == old(HashTableSpec.Find(Contents(), hash, key)).Some?
    {
      var b := dir[IndexOf(key)];
      var after;
      found, after := RemoveFromBucket(store[b], key);
      store := store[b := after];
    }

    /** The directory doubles when the bucket is as deep as it is. */
    method Grow(index: nat)
      requires Shape(Contents()) && index < |dir|
      modifies this
      ensures Contents() == old(Grown(Contents(), index))
    {
      if store[dir[index]].depth == globalDepth {
        globalDepth := globalDepth + 1;
        dir := dir + dir;
      }
    }

    method RedistributeBucket(index: nat) returns (thrown: bool)
      requires Shape(Contents()) && index < |dir|
      modifies this
      ensures thrown == old(Redistribute(Contents(), hash, index)).Throw?
      ensures Contents() == if thrown then old(AfterThrow(Contents(), index))
                            else old(Redistribute(Contents(), hash, index)).value
    {
      GrownOk(Contents(), hash, index);
      Grow(index);
      var b := dir[index];
      var full := store[b].(depth := store[b].depth + 1);
      var bucket, split, splitIndex :=
        MoveItems(full, Bucket(bucketSize, full.depth, []), hash, Pow2(globalDepth), index);
      numBuckets := numBuckets + 1;
      if splitIndex >= |dir| {
        Untouched(full.items, hash, Pow2(globalDepth), index);
        store := store[b := bucket];
        return true;
      }
      store := store[b := bucket] + [split];
      dir := dir[splitIndex := |store| - 1];
      return false;
    }

    /** Splits and retries until the key's bucket takes the entry. */
    method Insert(key: K, value: V, ghost width: nat, ghost keys: set<K>) returns (thrown: bool)
      requires Shape(Contents()) && Within(Contents(), keys) && key in keys
      requires Uncrowded(keys, hash, width, bucketSize)
      modifies this
      ensures thrown == old(HashTableRuns.Insert(Contents(), hash, width, keys, key, value)).Throw?
      ensures !thrown ==> Contents() == old(HashTableRuns.Insert(Contents(), hash, width, keys, key, value)).value
      ensures !thrown ==> Shape(Contents()) && Within(Contents(), keys)
      decreases BitsLeft(Contents(), width), LevelsLeft(Contents(), hash, key),
                if HasRoom(Contents(), hash, key) then 0 else 1
    {
      var index := IndexOf(key);
      var b := dir[index];
      var ok, after := InsertIntoBucket(store[b], key, value);
      if ok {
        store := store[b := after];
        return false;
      }
      ghost var s := Contents();
      thrown := RedistributeBucket(index);
      if !thrown {
        RetryEnds(s, hash, width, keys, key);
        thrown := Insert(key, value, width, keys);
      }
    }
  }

  /** The new bucket has room for each item that moves, and none of its keys yet. */
  lemma NewInSplit<K, V>(list: seq<(K, V)>, j: nat, hash: Hash<K>, width: nat, index: nat)
    requires width > 0 && DistinctKeys(list) && j < |list|
    ensures var moved := Pick(list[..j], hash, width, index, false);
            && |moved| <= j && Lookup(moved, list[j].0).None?
            && Put(moved, list[j].0, list[j].1) == moved + [list[j]]
  {
    var moved := Pick(list[..j], hash, width, index, false);
    PickOnly(list[..j], hash, width, index, false);
    forall i | 0 <= i < |moved| ensures moved[i].0 != list[j].0 {
      var n :| 0 <= n < j && list[..j][n] == moved[i];
    }
    Absent(moved, list[j].0);
    PutShape(moved, list[j].0, list[j].1);
  }

  lemma {:induction false} Untouched<K, V>(items: seq<(K, V)>, hash: Hash<K>, width: nat, index: nat)
    requires width > 0
    ensures Pick(items, hash, width, index, false) == [] ==> Pick(items, hash, width, index, true) == items
  {
    if items != [] { Untouched(items[1..], hash, width, index); }
  }
}
