/** Sums of bags over positions, which do not depend on the order of the positions. */
module Bags {

  /** The positions of a sequence of n elements, in order. */
  function Positions(n: nat): (p: seq<nat>)
    ensures |p| == n && forall k :: 0 <= k < n ==> p[k] == k
  {
    seq(n, k requires 0 <= k < n => k)
  }

  predicate Below(idx: seq<nat>, n: nat) {
    forall k :: 0 <= k < |idx| ==> idx[k] < n
  }

  ghost function Sum<T>(bags: seq<multiset<T>>, idx: seq<nat>): multiset<T>
    requires Below(idx, |bags|)
  {
    if idx == [] then multiset{} else Sum(bags, idx[..|idx| - 1]) + bags[idx[|idx| - 1]]
  }

  lemma SumMore<T>(bags: seq<multiset<T>>, idx: seq<nat>, i: nat)
    requires Below(idx, |bags|) && i < |bags|
    ensures Sum(bags, idx + [i]) == Sum(bags, idx) + bags[i]
  {
    assert (idx + [i])[..|idx|] == idx;
  }

  lemma {:induction false} SumJoin<T>(bags: seq<multiset<T>>, a: seq<nat>, b: seq<nat>)
    requires Below(a, |bags|) && Below(b, |bags|)
    ensures Sum(bags, a + b) == Sum(bags, a) + Sum(bags, b)
    decreases |b|
  {
    if b == [] {
      assert a + b == a;
    } else {
      var n := |b| - 1;
      SumJoin(bags, a, b[..n]);
      assert (a + b)[..|a + b| - 1] == a + b[..n];
    }
  }

  lemma WithoutOne(a: seq<nat>, b: seq<nat>, x: nat) returns (front: seq<nat>, back: seq<nat>)
    requires multiset(a + [x]) == multiset(b)
    ensures b == front + [x] + back && multiset(a) == multiset(front + back)
  {
    assert (a + [x])[|a|] == x;
    assert x in multiset(b);
    var j :| 0 <= j < |b| && b[j] == x;
    front, back := b[..j], b[j + 1..];
    assert b == front + [x] + back;
    assert multiset(b) == multiset(front) + multiset{x} + multiset(back);
    assert multiset(front + back) == multiset(front) + multiset(back);
    assert multiset(a + [x]) == multiset(a) + multiset{x};
    assert multiset(a) == multiset(b) - multiset{x};
  }

  /** The order of the positions does not matter. */
  lemma {:induction false} SumReordered<T>(bags: seq<multiset<T>>, a: seq<nat>, b: seq<nat>)
    requires Below(a, |bags|) && Below(b, |bags|) && multiset(a) == multiset(b)
    ensures Sum(bags, a) == Sum(bags, b)
    decreases |a|
  {
    hide Sum;
    assert |multiset(a)| == |a| && |multiset(b)| == |b|;
    if a != [] {
      var first, x := a[..|a| - 1], a[|a| - 1];
      assert a == first + [x];
      var front, back := WithoutOne(first, b, x);
      assert forall k :: 0 <= k < |back| ==> back[k] == b[|front| + 1 + k];
      assert forall k :: 0 <= k < |front| ==> front[k] == b[k];
      assert b[|front|] == x;
      SumReordered(bags, first, front + back);
      SumMore(bags, first, x);
      SumJoin(bags, front, back);
      SumMore(bags, front, x);
      SumJoin(bags, front + [x], back);
    }
  }

  /** What holds of a rearrangement of all positions. */
  lemma Rearranged(idx: seq<nat>, n: nat)
    requires multiset(idx) == multiset(Positions(n))
    ensures |idx| == n && Below(idx, n)
    ensures forall i: nat :: i in idx <==> i < n
  {
    assert |multiset(idx)| == |idx| && |multiset(Positions(n))| == n;
    forall k | 0 <= k < |idx| ensures idx[k] < n {
      assert idx[k] in multiset(idx);
      assert idx[k] in Positions(n);
    }
    forall i: nat | i < n ensures i in idx {
      assert Positions(n)[i] == i;
      assert i in multiset(Positions(n));
    }
  }
}
