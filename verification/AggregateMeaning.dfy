/** What folding an aggregate function over values comes to (section 6.5 of ISO/IEC 9075:1992). */
module AggregateMeaning {
  import opened Values
  import opened Expressions
  import opened Aggregates
  import opened AggregationProof

  function Present(vs: seq<Value>): nat {
    if vs == [] then 0 else Present(vs[..|vs| - 1]) + if vs[|vs| - 1].Null? then 0 else 1
  }

  lemma OneMore(n: nat)
    requires n + 1 < 0x8000_0000
    ensures DoArith(Plus, IntV(Integer, n), IntV(Integer, 1)) == IntV(Integer, n + 1)
  {}

  lemma {:induction false} PresentAtMost(vs: seq<Value>)
    ensures Present(vs) <= |vs|
  {
    if vs != [] { PresentAtMost(vs[..|vs| - 1]); }
  }

  /** count(*) is the number of rows, and zero over none. */
  lemma {:induction false} CountStarCounts(vs: seq<Value>)
    requires |vs| < 0x8000_0000
    ensures Fold(CountStar, vs) == IntV(Integer, |vs|)
  {
    if vs != [] {
      CountStarCounts(vs[..|vs| - 1]);
      OneMore(|vs| - 1);
    }
  }

  /** count is the number of values that are not null, and null when there are none. */
  lemma {:induction false} CountCounts(vs: seq<Value>)
    requires |vs| < 0x8000_0000
    ensures Fold(Count, vs) == if Present(vs) == 0 then Null(Integer) else IntV(Integer, Present(vs))
  {
    if vs != [] {
      CountCounts(vs[..|vs| - 1]);
      PresentAtMost(vs[..|vs| - 1]);
      OneMore(Present(vs[..|vs| - 1]));
    }
  }

  /** `v` is one of the values and none comes before it (after it, for the maximum). */
  predicate Extreme(vs: seq<Value>, v: Value, least: bool) {
    && v in vs && !v.Null?
    && forall i :: 0 <= i < |vs| && !vs[i].Null? ==> if least then Compare(v, vs[i]) <= 0 else Compare(vs[i], v) <= 0
  }

  /** min and max are an extreme of the values that are not null, and null when there are none. */
  lemma {:induction false} ExtremeFound(vs: seq<Value>, least: bool)
    ensures var v := Fold(if least then Min else Max, vs);
            if Present(vs) == 0 then v == Null(Integer) else Extreme(vs, v, least)
  {
    if vs != [] {
      var rest, last := vs[..|vs| - 1], vs[|vs| - 1];
      ExtremeFound(rest, least);
      var acc := Fold(if least then Min else Max, rest);
      assert vs == rest + [last];
      if Present(rest) == 0 {
        NonePresent(rest);
        CompareFlip(last, last);
      } else if !last.Null? {
        ExtremeMore(rest, last, acc, least);
      }
    }
  }

  lemma {:induction false} NonePresent(vs: seq<Value>)
    requires Present(vs) == 0
    ensures forall i :: 0 <= i < |vs| ==> vs[i].Null?
  {
    if vs != [] { NonePresent(vs[..|vs| - 1]); }
  }

  lemma ExtremeMore(rest: seq<Value>, last: Value, acc: Value, least: bool)
    requires Extreme(rest, acc, least) && !last.Null?
    ensures var better := if least then Compare(last, acc) < 0 else Compare(last, acc) > 0;
            Extreme(rest + [last], if better then last else acc, least)
  {
    var vs := rest + [last];
    var better := if least then Compare(last, acc) < 0 else Compare(last, acc) > 0;
    CompareFlip(last, acc);
    CompareFlip(last, last);
    assert vs[|rest|] == last;
    forall i | 0 <= i < |vs| && !vs[i].Null?
      ensures var v := if better then last else acc;
              if least then Compare(v, vs[i]) <= 0 else Compare(vs[i], v) <= 0
    {
      if i < |rest| {
        assert vs[i] == rest[i];
        if better { if least { CompareTrans(last, acc, rest[i]); } else { CompareTrans(rest[i], acc, last); } }
      }
    }
  }

  /** The total of the numbers, and of their sizes. */
  function Total(vs: seq<Value>): int {
    if vs == [] then 0 else Total(vs[..|vs| - 1]) + if vs[|vs| - 1].IntV? then vs[|vs| - 1].n else 0
  }

  function Weight(vs: seq<Value>): nat {
    if vs == [] then 0
    else
      var last := vs[|vs| - 1];
      Weight(vs[..|vs| - 1]) + if last.IntV? then (if last.n < 0 then -last.n else last.n) else 0
  }

  /** sum is the total of the numbers that are not null, as long as no partial total can leave 32 bits. */
  lemma {:induction false} SumTotals(vs: seq<Value>)
    requires Weight(vs) < 0x8000_0000 && forall i :: 0 <= i < |vs| ==> vs[i].IntV? || vs[i].Null?
    ensures var v := Fold(Sum, vs);
            && (if Present(vs) == 0 then v == Null(Integer) else v.IntV? && v.n == Total(vs))
            && -(Weight(vs) as int) <= Total(vs) <= Weight(vs)
  {
    if vs != [] {
      SumTotals(vs[..|vs| - 1]);
      if Present(vs[..|vs| - 1]) == 0 { NothingTotals(vs[..|vs| - 1]); }
    }
  }

  lemma {:induction false} NothingTotals(vs: seq<Value>)
    requires Present(vs) == 0
    ensures Total(vs) == 0
  {
    if vs != [] { NothingTotals(vs[..|vs| - 1]); }
  }

  // ---- distinct keys ----

  predicate AppearsFirst(keys: seq<Row>, i: nat) {
    i < |keys| && forall j :: 0 <= j < i ==> keys[j] != keys[i]
  }

  predicate Strictly(at: seq<nat>) {
    forall i, j :: 0 <= i < j < |at| ==> at[i] < at[j]
  }

  predicate AllFirst(keys: seq<Row>, at: seq<nat>, seen: seq<Row>) {
    |at| == |seen| && forall i :: 0 <= i < |at| ==> AppearsFirst(keys, at[i]) && seen[i] == keys[at[i]]
  }

  /** The keys at the places where one appears for the first time, in order: each key once. */
  lemma {:induction false} FirstSeenExactly(keys: seq<Row>) returns (at: seq<nat>)
    ensures Strictly(at) && AllFirst(keys, at, FirstSeen(keys)) && forall k :: k in keys <==> k in FirstSeen(keys)
  {
    at := [];
    if keys != [] {
      var n := |keys| - 1;
      var rest := FirstSeenExactly(keys[..n]);
      var before, last := FirstSeen(keys[..n]), keys[n];
      assert forall k :: k in keys <==> k in keys[..n] || k == last;
      assert AllFirst(keys, rest, before) by {
        forall i | 0 <= i < |rest| ensures AppearsFirst(keys, rest[i]) && before[i] == keys[rest[i]] {
          assert AppearsFirst(keys[..n], rest[i]);
        }
      }
      if last in before {
        at := rest;
      } else {
        at := rest + [n];
        assert AppearsFirst(keys, n) by {
          forall j | 0 <= j < n ensures keys[j] != last { assert keys[..n][j] in keys[..n]; }
        }
      }
    }
  }
}
