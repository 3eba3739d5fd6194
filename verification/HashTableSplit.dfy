/** Splitting a full bucket of the extendible hash table, and exactly when that keeps every entry findable. */
module HashTableSplit {
  import opened Values
  import opened HashTableSpec

  /** The items whose slot is `index`, or (`here` false) those whose slot is another, in order. */
  function Pick<K, V>(items: seq<(K, V)>, hash: Hash<K>, width: nat, index: nat, here: bool): seq<(K, V)>
    requires width > 0
  {
    if items == [] then []
    else
      var rest := Pick(items[1..], hash, width, index, here);
      if (hash(items[0].0) % width == index) == here then [items[0]] + rest else rest
  }

  lemma {:induction false} PickOnly<K, V>(items: seq<(K, V)>, hash: Hash<K>, width: nat, index: nat, here: bool)
    requires width > 0
    ensures var out := Pick(items, hash, width, index, here);
            && |out| <= |items|
            && forall j :: 0 <= j < |out| ==> out[j] in items && (hash(out[j].0) % width == index) == here
  {
    if items != [] { PickOnly(items[1..], hash, width, index, here); }
  }

  lemma {:induction false} PickDistinct<K, V>(items: seq<(K, V)>, hash: Hash<K>, width: nat, index: nat, here: bool)
    requires width > 0 && DistinctKeys(items)
    ensures DistinctKeys(Pick(items, hash, width, index, here))
  {
    if items != [] {
      PickDistinct(items[1..], hash, width, index, here);
      PickOnly(items[1..], hash, width, index, here);
      var rest := Pick(items[1..], hash, width, index, here);
      forall i | 0 <= i < |rest| ensures rest[i].0 != items[0].0 {
        assert rest[i] in items[1..];
        var j :| 0 <= j < |items[1..]| && items[1..][j] == rest[i];
        assert items[j + 1] == rest[i];
      }
    }
  }

  /** A lookup is unchanged in the part its own slot selects and finds nothing in the other. */
  lemma {:induction false} PickLooksUp<K, V>(items: seq<(K, V)>, hash: Hash<K>, width: nat, index: nat, here: bool,
                                             q: K)
    requires width > 0
    ensures Lookup(Pick(items, hash, width, index, here), q) ==
            if (hash(q) % width == index) == here then Lookup(items, q) else None
  {
    if items != [] { PickLooksUp(items[1..], hash, width, index, here, q); }
  }

  // ---- doubling ----

  function Double<K, V>(s: State<K, V>): State<K, V> {
    s.(globalDepth := s.globalDepth + 1, dir := s.dir + s.dir)
  }

  lemma HalfSlot(h: nat, n: nat)
    requires n > 0
    ensures h % (2 * n) == h % n || h % (2 * n) == h % n + n
  {
    var q, r := h / (2 * n), h % (2 * n);
    assert h == 2 * n * q + r;
    if r < n {
      Remainder(h, n, 2 * q, r);
    } else {
      Remainder(h, n, 2 * q + 1, r - n);
    }
  }

  lemma Remainder(h: nat, n: nat, q: nat, r: nat)
    requires n > 0 && r < n && h == n * q + r
    ensures h % n == r
  {
    var p := h / n;
    assert n * (q - p) == h % n - r;
    assert q - p >= 1 ==> n * (q - p) >= n;
    assert p - q >= 1 ==> n * (p - q) >= n;
  }

  /** Doubling the directory keeps every lookup, and keeps every entry where its hash finds it. */
  lemma DoubleKeeps<K(!new), V>(s: State<K, V>, hash: Hash<K>)
    requires Shape(s)
    ensures Shape(Double(s))
    ensures forall q :: s.dir[Slot(s, hash, q)] == Double(s).dir[Slot(Double(s), hash, q)]
    ensures forall q :: Find(Double(s), hash, q) == Find(s, hash, q)
    ensures Homed(s, hash) ==> Homed(Double(s), hash)
  {
    forall q ensures s.dir[Slot(s, hash, q)] == Double(s).dir[Slot(Double(s), hash, q)] {
      HalfSlot(hash(q), Pow2(s.globalDepth));
    }
  }

  // ---- splitting ----

  /** The directory doubles first when the bucket is as deep as the directory. */
  function Grown<K(==), V>(s: State<K, V>, index: nat): State<K, V>
    requires Shape(s) && index < |s.dir|
  {
    if s.store[s.dir[index]].depth == s.globalDepth then Double(s) else s
  }

  function MovedItems<K(==), V>(d: State<K, V>, hash: Hash<K>, index: nat): seq<(K, V)>
    requires Shape(d) && index < |d.dir|
  {
    Pick(d.store[d.dir[index]].items, hash, Pow2(d.globalDepth), index, false)
  }

  function LastSlot<K, V>(moved: seq<(K, V)>, hash: Hash<K>, width: nat, otherwise: nat): nat
    requires width > 0
  {
    if moved == [] then otherwise else hash(moved[|moved| - 1].0) % width
  }

  /** The slot handed to the new bucket: that of the last item moved, and without one a sum of slot and depth. */
  function SplitSlot<K(==), V>(d: State<K, V>, hash: Hash<K>, index: nat): nat
    requires Shape(d) && index < |d.dir|
  {
    LastSlot(MovedItems(d, hash, index), hash, Pow2(d.globalDepth), index + d.store[d.dir[index]].depth + 1)
  }

  /** The directory is grown already; assigning past its end throws. */
  function Split<K(==), V>(d: State<K, V>, hash: Hash<K>, index: nat): Result<State<K, V>>
    requires Shape(d) && index < |d.dir|
  {
    var b := d.dir[index];
    var bucket := d.store[b];
    var stay := Pick(bucket.items, hash, Pow2(d.globalDepth), index, true);
    var target := SplitSlot(d, hash, index);
    if target >= |d.dir| then Throw
    else Ok(d.(numBuckets := d.numBuckets + 1,
               dir := d.dir[target := |d.store|],
               store := d.store[b := bucket.(depth := bucket.depth + 1, items := stay)]
               + [Bucket(d.bucketSize, bucket.depth + 1, MovedItems(d, hash, index))]))
  }

  function Redistribute<K(==), V>(s: State<K, V>, hash: Hash<K>, index: nat): Result<State<K, V>>
    requires Shape(s) && index < |s.dir|
  {
    GrownOk(s, hash, index);
    Split(Grown(s, index), hash, index)
  }

  lemma GrownOk<K, V>(s: State<K, V>, hash: Hash<K>, index: nat)
    requires Shape(s) && index < |s.dir|
    ensures Shape(Grown(s, index)) && index < |Grown(s, index).dir|
    ensures Grown(s, index).store == s.store && Grown(s, index).dir[index] == s.dir[index]
    ensures s.store[s.dir[index]].depth < Grown(s, index).globalDepth
  {}

  /**
   A check on the state before the split: the items to move all go to one slot; or none moves, the computed slot lies
   in the directory, and nothing is kept there.
   */
  predicate Splittable<K(==), V>(d: State<K, V>, hash: Hash<K>, index: nat)
    requires Shape(d) && index < |d.dir|
  {
    var moved := MovedItems(d, hash, index);
    var target := SplitSlot(d, hash, index);
    && target < |d.dir|
    && (moved != [] ==> forall j :: 0 <= j < |moved| ==> Slot(d, hash, moved[j].0) == target)
    && (moved == [] ==> var there := d.store[d.dir[target]].items;
                        forall j :: 0 <= j < |there| ==> Slot(d, hash, there[j].0) != target)
  }

  lemma TargetElsewhere<K, V>(d: State<K, V>, hash: Hash<K>, index: nat)
    requires Shape(d) && index < |d.dir|
    ensures SplitSlot(d, hash, index) != index
  {
    var moved := MovedItems(d, hash, index);
    PickOnly(d.store[d.dir[index]].items, hash, Pow2(d.globalDepth), index, false);
    assert moved != [] ==> Slot(d, hash, moved[|moved| - 1].0) != index;
  }

  lemma SplitShape<K, V>(d: State<K, V>, hash: Hash<K>, index: nat)
    requires Shape(d) && index < |d.dir|
    requires d.store[d.dir[index]].depth < d.globalDepth
    ensures Split(d, hash, index).Ok? ==> Shape(Split(d, hash, index).value)
  {
    var items, width := d.store[d.dir[index]].items, Pow2(d.globalDepth);
    PickOnly(items, hash, width, index, true);
    PickOnly(items, hash, width, index, false);
    PickDistinct(items, hash, width, index, true);
    PickDistinct(items, hash, width, index, false);
  }

  /** The new bucket's slot was the split bucket's own, when anything moves to it. */
  lemma TargetWasShared<K, V>(d: State<K, V>, hash: Hash<K>, index: nat, e: (K, V))
    requires Shape(d) && Homed(d, hash) && index < |d.dir|
    requires e in MovedItems(d, hash, index)
    ensures d.dir[Slot(d, hash, e.0)] == d.dir[index] && e in d.store[d.dir[index]].items
    ensures Slot(d, hash, e.0) != index
  {
    var items := d.store[d.dir[index]].items;
    PickOnly(items, hash, Pow2(d.globalDepth), index, false);
    var i :| 0 <= i < |MovedItems(d, hash, index)| && MovedItems(d, hash, index)[i] == e;
    var j :| 0 <= j < |items| && items[j] == e;
  }

  /** One lookup across a split. */
  lemma SplitKeepsLookup<K, V>(d: State<K, V>, hash: Hash<K>, index: nat, q: K)
    requires Shape(d) && Homed(d, hash) && index < |d.dir|
    requires d.store[d.dir[index]].depth < d.globalDepth
    requires Splittable(d, hash, index)
    ensures Split(d, hash, index).Ok? && Shape(Split(d, hash, index).value)
    ensures Find(Split(d, hash, index).value, hash, q) == Find(d, hash, q)
  {
    SplitShape(d, hash, index);
    TargetElsewhere(d, hash, index);
    var b, u, target := d.dir[index], Slot(d, hash, q), SplitSlot(d, hash, index);
    var items, width := d.store[b].items, Pow2(d.globalDepth);
    var moved := MovedItems(d, hash, index);
    PickLooksUp(items, hash, width, index, true, q);
    PickLooksUp(items, hash, width, index, false, q);
    if u == target {
      if moved == [] {
        LookupFound(d.store[d.dir[u]].items, q);
      } else {
        TargetWasShared(d, hash, index, moved[|moved| - 1]);
      }
    } else if d.dir[u] == b && u != index {
      LookupFound(moved, q);
    }
  }

  lemma SplitStaysHomed<K, V>(d: State<K, V>, hash: Hash<K>, index: nat)
    requires Shape(d) && Homed(d, hash) && index < |d.dir|
    requires d.store[d.dir[index]].depth < d.globalDepth
    requires Splittable(d, hash, index)
    ensures Split(d, hash, index).Ok? && Shape(Split(d, hash, index).value)
    ensures Homed(Split(d, hash, index).value, hash)
  {
    SplitShape(d, hash, index);
    TargetElsewhere(d, hash, index);
    var e := Split(d, hash, index).value;
    var b, target := d.dir[index], SplitSlot(d, hash, index);
    var items, width, moved := d.store[b].items, Pow2(d.globalDepth), MovedItems(d, hash, index);
    var stay := Pick(items, hash, width, index, true);
    PickOnly(items, hash, width, index, true);
    forall i, j | 0 <= i < |e.dir| && 0 <= j < |e.store[e.dir[i]].items|
      ensures e.dir[Slot(e, hash, e.store[e.dir[i]].items[j].0)] == e.dir[i]
    {
      var entry := e.store[e.dir[i]].items[j];
      var u := Slot(e, hash, entry.0);
      assert u == Slot(d, hash, entry.0);
      if i != target {
        if d.dir[i] == b {
          assert entry in stay;
        } else {
          assert entry == d.store[d.dir[i]].items[j];
          assert d.dir[u] == d.dir[i];
          if u == target && moved != [] {
            TargetWasShared(d, hash, index, moved[|moved| - 1]);
          }
        }
      }
    }
  }

  ghost predicate KeepsLookups<K(!new), V>(before: State<K, V>, after: Result<State<K, V>>, hash: Hash<K>)
    requires Shape(before)
  {
    after.Ok? && Shape(after.value) && forall q :: Find(after.value, hash, q) == Find(before, hash, q)
  }

  /** An item moved to the new bucket is lost when its own slot is not the one handed over. */
  lemma Stranded<K, V>(d: State<K, V>, hash: Hash<K>, index: nat, j: nat)
    requires Shape(d) && Homed(d, hash) && index < |d.dir|
    requires d.store[d.dir[index]].depth < d.globalDepth
    requires j < |MovedItems(d, hash, index)|
    requires Slot(d, hash, MovedItems(d, hash, index)[j].0) != SplitSlot(d, hash, index) < |d.dir|
    ensures Shape(Split(d, hash, index).value)
    ensures Find(Split(d, hash, index).value, hash, MovedItems(d, hash, index)[j].0)
            != Find(d, hash, MovedItems(d, hash, index)[j].0)
  {
    var entry, b := MovedItems(d, hash, index)[j], d.dir[index];
    var items := d.store[b].items;
    SplitShape(d, hash, index);
    TargetElsewhere(d, hash, index);
    TargetWasShared(d, hash, index, entry);
    PickLooksUp(items, hash, Pow2(d.globalDepth), index, true, entry.0);
    var i :| 0 <= i < |items| && items[i] == entry;
    LookupFinds(items, i);
  }

  /** An entry is lost when its slot is handed to a bucket nothing moves to. */
  lemma Overwritten<K, V>(d: State<K, V>, hash: Hash<K>, index: nat, j: nat)
    requires Shape(d) && index < |d.dir|
    requires d.store[d.dir[index]].depth < d.globalDepth
    requires MovedItems(d, hash, index) == [] && SplitSlot(d, hash, index) < |d.dir|
    requires j < |d.store[d.dir[SplitSlot(d, hash, index)]].items|
    requires Slot(d, hash, d.store[d.dir[SplitSlot(d, hash, index)]].items[j].0) == SplitSlot(d, hash, index)
    ensures Shape(Split(d, hash, index).value)
    ensures Find(Split(d, hash, index).value, hash, d.store[d.dir[SplitSlot(d, hash, index)]].items[j].0)
            != Find(d, hash, d.store[d.dir[SplitSlot(d, hash, index)]].items[j].0)
  {
    SplitShape(d, hash, index);
    LookupFinds(d.store[d.dir[SplitSlot(d, hash, index)]].items, j);
  }

  /** Without the condition, some entry is lost or the split throws. */
  lemma SplitLoses<K(!new), V>(d: State<K, V>, hash: Hash<K>, index: nat)
    requires Shape(d) && Homed(d, hash) && index < |d.dir|
    requires d.store[d.dir[index]].depth < d.globalDepth
    requires !Splittable(d, hash, index)
    ensures !KeepsLookups(d, Split(d, hash, index), hash)
  {
    var moved, target := MovedItems(d, hash, index), SplitSlot(d, hash, index);
    if target < |d.dir| {
      if moved == [] {
        var there := d.store[d.dir[target]].items;
        var j :| 0 <= j < |there| && Slot(d, hash, there[j].0) == target;
        Overwritten(d, hash, index, j);
      } else {
        var j :| 0 <= j < |moved| && Slot(d, hash, moved[j].0) != target;
        Stranded(d, hash, index, j);
      }
    }
  }

  lemma SplitExactly<K(!new), V>(d: State<K, V>, hash: Hash<K>, index: nat)
    requires Shape(d) && Homed(d, hash) && index < |d.dir|
    requires d.store[d.dir[index]].depth < d.globalDepth
    ensures KeepsLookups(d, Split(d, hash, index), hash) <==> Splittable(d, hash, index)
    ensures Splittable(d, hash, index) ==> Homed(Split(d, hash, index).value, hash)
  {
    if Splittable(d, hash, index) {
      forall q ensures Split(d, hash, index).Ok? && Shape(Split(d, hash, index).value)
                       && Find(Split(d, hash, index).value, hash, q) == Find(d, hash, q) {
        SplitKeepsLookup(d, hash, index, q);
      }
      SplitStaysHomed(d, hash, index);
    } else {
      SplitLoses(d, hash, index);
    }
  }

  lemma GrownKeeps<K(!new), V>(s: State<K, V>, hash: Hash<K>, index: nat)
    requires Shape(s) && index < |s.dir|
    ensures Shape(Grown(s, index))
    ensures KeepsLookups(s, Ok(Grown(s, index)), hash)
    ensures Homed(s, hash) ==> Homed(Grown(s, index), hash)
  {
    if s.store[s.dir[index]].depth == s.globalDepth { DoubleKeeps(s, hash); }
  }

  /**
   Redistributing a bucket changes no answer exactly when the grown directory lets the bucket split; and then the
   invariant stands again.
   */
  lemma RedistributeExactly<K(!new), V>(s: State<K, V>, hash: Hash<K>, index: nat)
    requires Shape(s) && Homed(s, hash) && index < |s.dir|
    ensures Shape(Grown(s, index))
    ensures KeepsLookups(s, Redistribute(s, hash, index), hash) <==> Splittable(Grown(s, index), hash, index)
    ensures Splittable(Grown(s, index), hash, index) ==> Homed(Redistribute(s, hash, index).value, hash)
  {
    GrownOk(s, hash, index);
    GrownKeeps(s, hash, index);
    SplitExactly(Grown(s, index), hash, index);
    SameAnswers(s, Grown(s, index), Redistribute(s, hash, index), hash);
  }

  lemma SameAnswers<K(!new), V>(s: State<K, V>, d: State<K, V>, r: Result<State<K, V>>, hash: Hash<K>)
    requires Shape(s) && Shape(d) && KeepsLookups(s, Ok(d), hash)
    ensures KeepsLookups(s, r, hash) <==> KeepsLookups(d, r, hash)
  {
    assert forall q :: Find(d, hash, q) == Find(s, hash, q);
  }
}
