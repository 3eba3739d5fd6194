/** Sequences as rearrangements of one another. */
module Seqs {

  function Images<T>(f: nat -> T, xs: seq<nat>): (ys: seq<T>)
    ensures |ys| == |xs|
    ensures forall i :: 0 <= i < |xs| ==> ys[i] == f(xs[i])
  {
    seq(|xs|, i requires 0 <= i < |xs| => f(xs[i]))
  }

  ghost predicate EndsWith<T(!new)>(all: seq<T>, suffix: seq<T>) {
    exists prefix :: all == prefix + suffix
  }

  predicate LastAre<T(==)>(all: seq<T>, suffix: seq<T>) {
    |suffix| <= |all| && forall i :: 0 <= i < |suffix| ==> suffix[i] == all[|all| - |suffix| + i]
  }

  lemma PlaceByPlace<T(!new)>(all: seq<T>, suffix: seq<T>)
    ensures LastAre(all, suffix) <==> EndsWith(all, suffix)
  {
    if LastAre(all, suffix) { assert all == all[..|all| - |suffix|] + suffix; }
  }

  lemma Associative<T>(x: seq<T>, y: seq<T>, z: seq<T>)
    ensures (x + y) + z == x + (y + z)
  {
  }

  /** A part moved from the front of the rest to the end of what is done. */
  lemma Shift<T>(done: seq<T>, part: seq<T>, tail: seq<T>, rest: seq<T>, whole: seq<T>)
    requires rest == part + tail && done + rest == whole
    ensures (done + part) + tail == whole
  {
    Associative(done, part, tail);
  }

  lemma Cancel<T>(x: T, a: multiset<T>, b: multiset<T>)
    requires multiset{x} + a == multiset{x} + b
    ensures a == b
  {
    assert a == (multiset{x} + a) - multiset{x};
    assert b == (multiset{x} + b) - multiset{x};
  }

  lemma SameRest<T>(x: T, a: seq<T>, b: seq<T>)
    requires multiset([x] + a) == multiset([x] + b)
    ensures multiset(a) == multiset(b)
  {
    Cancel(x, multiset(a), multiset(b));
  }

  lemma TakeOut<T>(b: seq<T>, j: nat)
    requires j < |b|
    ensures multiset(b) == multiset{b[j]} + multiset(b[..j] + b[j + 1..])
  {
    assert b == b[..j] + [b[j]] + b[j + 1..];
  }

  /** Removing one position removes one image. */
  lemma RemoveOne<T>(f: nat -> T, b: seq<nat>, x: nat) returns (rest: seq<nat>)
    requires x in multiset(b)
    ensures |rest| < |b| && multiset(b) == multiset{x} + multiset(rest)
    ensures multiset(Images(f, b)) == multiset{f(x)} + multiset(Images(f, rest))
  {
    var j :| 0 <= j < |b| && b[j] == x;
    var ys := Images(f, b);
    rest := b[..j] + b[j + 1..];
    TakeOut(b, j);
    TakeOut(ys, j);
    assert ys[..j] + ys[j + 1..] == Images(f, rest);
  }

  /** Rearranged positions have rearranged images. */
  lemma {:induction false} ImagesRearranged<T>(f: nat -> T, a: seq<nat>, b: seq<nat>)
    requires multiset(a) == multiset(b)
    ensures multiset(Images(f, a)) == multiset(Images(f, b))
    decreases |a|
  {
    if a == [] {
      assert |multiset(b)| == 0;
      assert Images(f, a) == Images(f, b);
    } else {
      var x := a[0];
      assert x in multiset(a);
      var a' := RemoveOne(f, a, x);
      var b' := RemoveOne(f, b, x);
      Cancel(x, multiset(a'), multiset(b'));
      ImagesRearranged(f, a', b');
    }
  }
}
