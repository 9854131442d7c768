/** Sets of integers, the gaps between the elements of a key, and covering a key with ranges. */
module IntCover {

  predicate Increasing(a: seq<int>) {
    forall i, j :: 0 <= i < j < |a| ==> a[i] < a[j]
  }

  // ---------------------------------------------------------------- integers covered

  function Interval(lo: int, hi: int): (s: set<int>)
    ensures forall x :: x in s <==> lo <= x <= hi
    ensures lo <= hi + 1 ==> |s| == hi - lo + 1
    decreases if lo <= hi then hi - lo + 1 else 0
  {
    if lo > hi then {} else Interval(lo, hi - 1) + {hi}
  }

  /** The integers strictly inside the gap before position j. */
  ghost function Inside(a: seq<int>, j: int): set<int>
    requires 1 <= j < |a|
  {
    Interval(a[j - 1] + 1, a[j] - 1)
  }

  /** The difference across the gap before position j. */
  function Width(a: seq<int>, j: int): int {
    if 1 <= j < |a| then a[j] - a[j - 1] else 0
  }

  /** How many integers the gaps at the positions s contain. */
  ghost function Weight(a: seq<int>, s: set<int>): int
    decreases |s|
  {
    if !(exists j :: j in s) then 0 else
      var j :| j in s;
      Width(a, j) - 1 + Weight(a, s - {j})
  }

  lemma {:induction false} WeightMinus(a: seq<int>, s: set<int>, k: int)
    requires k in s
    ensures Weight(a, s) == Width(a, k) - 1 + Weight(a, s - {k})
    decreases |s|
  {
    hide Width;
    var j :| j in s && Weight(a, s) == Width(a, j) - 1 + Weight(a, s - {j});
    if j != k {
      WeightMinus(a, s - {j}, k);
      WeightMinus(a, s - {k}, j);
      assert s - {j} - {k} == s - {k} - {j};
    }
  }

  ghost predicate InGaps(a: seq<int>, s: set<int>, x: int) {
    exists j :: j in s && 1 <= j < |a| && x in Inside(a, j)
  }

  /** Integers that all lie in gaps of s are at most as many as those gaps hold. */
  lemma {:induction false} GapsHoldAtMost(a: seq<int>, s: set<int>, u: set<int>)
    requires Increasing(a) && forall j :: j in s ==> 1 <= j < |a|
    requires forall x :: x in u ==> InGaps(a, s, x)
    ensures |u| <= Weight(a, s)
    decreases |s|
  {
    hide Weight, Interval, Inside, InGaps;
    if !(exists j :: j in s) {
      NoGapsNoMembers(a, s, u);
      WeightEmpty(a, s);
    } else {
      var j :| j in s;
      WeightMinus(a, s, j);
      forall x | x in u - Inside(a, j) ensures InGaps(a, s - {j}, x) { InOtherGaps(a, s, j, x); }
      GapsHoldAtMost(a, s - {j}, u - Inside(a, j));
      InsideSize(a, j);
      SubsetSize(u * Inside(a, j), Inside(a, j));
      assert u == (u - Inside(a, j)) + (u * Inside(a, j));
    }
  }

  lemma NoGapsNoMembers(a: seq<int>, s: set<int>, u: set<int>)
    requires !(exists j :: j in s) && forall x :: x in u ==> InGaps(a, s, x)
    ensures |u| == 0
  {
    assert forall x :: x in u ==> exists j :: j in s;
    SubsetSize(u, {});
  }

  lemma InOtherGaps(a: seq<int>, s: set<int>, j: int, x: int)
    requires InGaps(a, s, x) && 1 <= j < |a| && x !in Inside(a, j)
    ensures InGaps(a, s - {j}, x)
  {
    hide Inside;
    var i :| i in s && 1 <= i < |a| && x in Inside(a, i);
    assert i in s - {j};
  }

  lemma InsideSize(a: seq<int>, j: int)
    requires Increasing(a) && 1 <= j < |a|
    ensures |Inside(a, j)| == Width(a, j) - 1
  {
  }

  lemma SubsetSize(u: set<int>, v: set<int>)
    requires u <= v
    ensures |u| <= |v|
  {
    assert v == u + (v - u);
  }

  /** Integers among which are all those of the gaps of s are at least as many. */
  lemma {:induction false} GapsHoldAtLeast(a: seq<int>, s: set<int>, u: set<int>)
    requires Increasing(a) && forall j :: j in s ==> 1 <= j < |a|
    requires forall j :: j in s ==> Inside(a, j) <= u
    ensures Weight(a, s) <= |u|
    decreases |s|
  {
    if exists j :: j in s {
      hide Weight, Interval, Inside;
      var j :| j in s;
      WeightMinus(a, s, j);
      forall i | i in s - {j} ensures Inside(a, i) <= u - Inside(a, j) { GapMinus(a, i, j, u); }
      MinusSize(u, Inside(a, j));
      InsideSize(a, j);
      GapsHoldAtLeast(a, s - {j}, u - Inside(a, j));
    }
  }

  lemma GapMinus(a: seq<int>, i: int, j: int, u: set<int>)
    requires Increasing(a) && 1 <= i < |a| && 1 <= j < |a| && i != j && Inside(a, i) <= u
    ensures Inside(a, i) <= u - Inside(a, j)
  {
    forall x | x in Inside(a, i) ensures x in u && x !in Inside(a, j) { GapsApart(a, i, j, x); }
  }

  lemma MinusSize(u: set<int>, v: set<int>)
    requires v <= u
    ensures |u - v| == |u| - |v|
  {
    assert u == (u - v) + v;
  }

  lemma GapsApart(a: seq<int>, i: int, j: int, x: int)
    requires Increasing(a) && 1 <= i < |a| && 1 <= j < |a| && i != j && x in Inside(a, i)
    ensures x !in Inside(a, j)
  {
    if i < j { assert a[i] <= a[j - 1]; } else { assert a[j] <= a[i - 1]; }
  }

  // ---------------------------------------------------------------- covers

  datatype Range = Range(lo: int, hi: int)

  /** The integers of a list of ranges. */
  function Ints(c: seq<Range>): (u: set<int>)
    ensures forall x :: x in u <==> exists i :: 0 <= i < |c| && c[i].lo <= x <= c[i].hi
  {
    if c == [] then {} else
      assert c == c[..|c| - 1] + [c[|c| - 1]];
      Ints(c[..|c| - 1]) + Interval(c[|c| - 1].lo, c[|c| - 1].hi)
  }

  ghost predicate Covers(c: seq<Range>, a: seq<int>) {
    forall i :: 0 <= i < |a| ==> a[i] in Ints(c)
  }

  function RangesOf(dr: seq<int>): seq<Range> {
    seq(|dr| / 2, k requires 0 <= k < |dr| / 2 => Range(dr[2 * k], dr[2 * k + 1]))
  }

  function Span(a: seq<int>): int
    requires |a| > 0
  {
    a[|a| - 1] - a[0] + 1
  }

  /** The gaps a set of integers does not fill. */
  ghost function OpenGaps(a: seq<int>, u: set<int>): set<int> {
    set j | 1 <= j < |a| && !(Inside(a, j) <= u)
  }

  lemma {:induction false} GapOf(a: seq<int>, x: int) returns (j: int)
    requires Increasing(a) && |a| > 0 && a[0] < x < a[|a| - 1] && x !in a
    ensures 1 <= j < |a| && x in Inside(a, j)
  {
    j := 1;
    while a[j] < x
      invariant 1 <= j < |a| && a[j - 1] < x
    {
      j := j + 1;
    }
  }

  /** Covering integers may save no more than the gaps they leave open. */
  lemma CoverNeeds(a: seq<int>, u: set<int>)
    requires Increasing(a) && |a| > 0 && forall i :: 0 <= i < |a| ==> a[i] in u
    ensures |u| >= Span(a) - Weight(a, OpenGaps(a, u))
  {
    var hull, open := Interval(a[0], a[|a| - 1]), OpenGaps(a, u);
    forall x | x in hull - u ensures InGaps(a, open, x) {
      var j := GapOf(a, x);
      assert j in open;
    }
    assert a[0] <= a[|a| - 1];
    GapsHoldAtMost(a, open, hull - u);
    SubsetSize(hull * u, u);
    MinusSize(hull, hull - u);
    assert hull - (hull - u) == hull * u;
  }

  /** One range covers keys on both sides of an open gap only by filling it. */
  lemma OpenGapsBelowRanges(a: seq<int>, c: seq<Range>)
    requires Increasing(a) && |a| > 0 && Covers(c, a)
    ensures |OpenGaps(a, Ints(c))| + 1 <= |c|
  {
    var open := OpenGaps(a, Ints(c));
    var starts := open + {0};
    assert 0 !in open;
    PickRanges(a, c, starts);
  }

  ghost function RangeWith(a: seq<int>, c: seq<Range>, j: int): (i: int)
    requires 0 <= j < |a| && Covers(c, a)
    ensures 0 <= i < |c| && c[i].lo <= a[j] <= c[i].hi
  {
    var i :| 0 <= i < |c| && c[i].lo <= a[j] <= c[i].hi; i
  }

  /** No single range holds elements on both sides of an open gap. */
  lemma RangesApart(a: seq<int>, c: seq<Range>, i: int, j: int)
    requires Increasing(a) && Covers(c, a) && 0 <= i < j < |a| && j in OpenGaps(a, Ints(c))
    ensures RangeWith(a, c, i) != RangeWith(a, c, j)
  {
    hide RangeWith, Covers, Ints;
    var n, m := RangeWith(a, c, i), RangeWith(a, c, j);
    var x :| x in Inside(a, j) && x !in Ints(c);
    assert a[i] <= a[j - 1] < x < a[j];
    OutsideEach(c, x, n);
  }

  lemma OutsideEach(c: seq<Range>, x: int, n: int)
    requires 0 <= n < |c| && x !in Ints(c)
    ensures !(c[n].lo <= x <= c[n].hi)
  {
  }

  lemma {:induction false} PickRanges(a: seq<int>, c: seq<Range>, starts: set<int>)
    requires Increasing(a) && Covers(c, a)
    requires forall j :: j in starts ==> 0 <= j < |a| && (j == 0 || j in OpenGaps(a, Ints(c)))
    ensures |starts| <= |c|
  {
    var image := set j | j in starts :: RangeWith(a, c, j);
    forall i, j | i in starts && j in starts && i < j ensures RangeWith(a, c, i) != RangeWith(a, c, j) {
      RangesApart(a, c, i, j);
    }
    ImageSize(a, c, starts);
    assert image <= Interval(0, |c| - 1);
    SubsetSize(image, Interval(0, |c| - 1));
  }

  lemma {:induction false} ImageSize(a: seq<int>, c: seq<Range>, s: set<int>)
    requires Covers(c, a) && forall j :: j in s ==> 0 <= j < |a|
    requires forall i, j :: i in s && j in s && i < j ==> RangeWith(a, c, i) != RangeWith(a, c, j)
    ensures |set j | j in s :: RangeWith(a, c, j)| == |s|
    decreases |s|
  {
    var image := set j | j in s :: RangeWith(a, c, j);
    if !(exists j :: j in s) {
      assert image == {};
    } else {
      var j :| j in s;
      ImageSize(a, c, s - {j});
      var rest := set i | i in s - {j} :: RangeWith(a, c, i);
      assert image == rest + {RangeWith(a, c, j)};
      assert RangeWith(a, c, j) !in rest;
    }
  }

  // ---------------------------------------------------------------- greedy is optimal

  ghost predicate GapsOf(a: seq<int>, s: set<int>) {
    forall j :: j in s ==> 1 <= j < |a|
  }

  /** Each gap of `kept` is at least as wide as each gap of `open` that is not in it. */
  ghost predicate Outweighs(a: seq<int>, kept: set<int>, open: set<int>)
  {
    forall j, k :: j in open && j !in kept && k in kept ==> Width(a, j) <= Width(a, k)
  }

  /** No set of as many gaps weighs more than one whose members each outweigh all others. */
  lemma {:induction false} HeaviestGaps(a: seq<int>, open: set<int>, kept: set<int>)
    requires Increasing(a) && |open| <= |kept| && GapsOf(a, open) && GapsOf(a, kept) && Outweighs(a, kept, open)
    ensures Weight(a, open) <= Weight(a, kept)
    decreases |open|
  {
    hide Weight, Increasing, Outweighs;
    if !(exists j :: j in open) {
      WeightEmpty(a, open);
      WeightNotNegative(a, kept);
    } else if exists i :: i in open && i in kept {
      var j :| j in open && j in kept;
      WeightMinus(a, open, j);
      WeightMinus(a, kept, j);
      OutweighsLess(a, kept, open, j, j);
      HeaviestGaps(a, open - {j}, kept - {j});
    } else {
      var j :| j in open;
      SubsetSize({j}, open);
      SomeMember(kept);
      var k :| k in kept;
      WeightMinus(a, open, j);
      WeightMinus(a, kept, k);
      OutweighsLess(a, kept, open, j, k);
      HeaviestGaps(a, open - {j}, kept - {k});
    }
  }

  lemma OutweighsLess(a: seq<int>, kept: set<int>, open: set<int>, j: int, k: int)
    requires GapsOf(a, open) && GapsOf(a, kept) && Outweighs(a, kept, open) && j in open && k in kept
    requires j == k || !(exists i :: i in open && i in kept)
    ensures Outweighs(a, kept - {k}, open - {j}) && Width(a, j) <= Width(a, k)
  {
  }

  lemma WeightEmpty(a: seq<int>, s: set<int>)
    requires !(exists j :: j in s)
    ensures Weight(a, s) == 0
  {
  }

  lemma SomeMember(s: set<int>)
    requires |s| > 0
    ensures exists k :: k in s
  {
    if !(exists k :: k in s) { SubsetSize(s, {}); }
  }

  lemma {:induction false} WeightNotNegative(a: seq<int>, s: set<int>)
    requires Increasing(a) && forall j :: j in s ==> 1 <= j < |a|
    ensures Weight(a, s) >= 0
    decreases |s|
  {
    if exists j :: j in s {
      var j :| j in s;
      WeightMinus(a, s, j);
      WeightNotNegative(a, s - {j});
    }
  }
}
