/**
 * What compression of an index key is for: the ranges cover the key, and no cover by as
 * many ranges contains fewer integers, exactly when the gaps fit the machine's integers.
 */
module IntOptimal {
  import opened Machine
  import opened IntCover
  import opened IntCompress

  /** The gaps left open between the ranges cut at b. */
  ghost function KeptSet(b: seq<nat>): (s: set<int>)
    ensures forall j :: j in s <==> exists k :: 1 <= k < |b| && b[k] == j
  {
    if |b| <= 1 then {} else
      var s := KeptSet(b[..|b| - 1]) + {b[|b| - 1] as int};
      assert forall k :: 1 <= k < |b| - 1 ==> b[..|b| - 1][k] == b[k];
      s
  }

  lemma {:induction false} KeptCount(a: seq<int>, b: seq<nat>)
    requires IsCuts(a, b)
    ensures |KeptSet(b)| == |b| - 1
    decreases |b|
  {
    if |b| > 1 {
      KeptCount(a, b[..|b| - 1]);
      var b' := b[..|b| - 1];
      assert forall k :: 1 <= k < |b'| ==> b'[k] < b[|b| - 1];
    }
  }

  lemma KeptSize(a: seq<int>, b: seq<nat>)
    requires IsCuts(a, b)
    ensures |KeptSet(b)| == |b| - 1
    ensures forall j :: j in KeptSet(b) ==> 1 <= j < |a| && j in b
    ensures forall j :: j in b && j != 0 ==> j in KeptSet(b)
  {
    KeptCount(a, b);
    forall j | j in KeptSet(b) ensures 1 <= j < |a| && j in b {
      var k :| 1 <= k < |b| && b[k] == j;
    }
  }

  // ---------------------------------------------------------------- the ranges as a set

  lemma RangeIsPair(dr: seq<int>, a: seq<int>, b: seq<nat>, k: nat)
    requires HoldsRanges(dr, a, b) && |dr| == 2 * |b| && k < |b|
    ensures RangesOf(dr)[k] == Range(a[b[k]], a[Last(a, b, k)])
  {
    assert RangeAt(dr, a, b, k);
  }

  /** The last range that starts at or before x. */
  lemma RangeBefore(a: seq<int>, b: seq<nat>, x: int) returns (k: nat)
    requires IsCuts(a, b) && a[0] <= x
    ensures k < |b| && a[b[k]] <= x && (k + 1 < |b| ==> x < a[b[k + 1]])
  {
    k := 0;
    while k + 1 < |b| && a[b[k + 1]] <= x
      invariant k < |b| && a[b[k]] <= x
    {
      k := k + 1;
    }
  }

  /** The ranges contain what lies between the ends of the key outside the gaps left open. */
  lemma RangesAreHullMinusGaps(dr: seq<int>, a: seq<int>, b: seq<nat>, x: int)
    requires HoldsRanges(dr, a, b) && |dr| == 2 * |b| && Increasing(a)
    ensures x in Ints(RangesOf(dr)) <==> a[0] <= x <= a[|a| - 1] && !InGaps(a, KeptSet(b), x)
  {
    hide Interval, Ints, KeptSet, Inside;
    var c := RangesOf(dr);
    KeptSize(a, b);
    if x in Ints(c) {
      var k: nat :| k < |c| && c[k].lo <= x <= c[k].hi;
      RangeIsPair(dr, a, b, k);
      assert a[0] <= a[b[k]] && a[Last(a, b, k)] <= a[|a| - 1];
      forall j | j in KeptSet(b) ensures x !in Inside(a, j) { KeptGapOutside(a, b, k, j, x); }
    }
    if a[0] <= x <= a[|a| - 1] && !InGaps(a, KeptSet(b), x) {
      var k := RangeBefore(a, b, x);
      RangeIsPair(dr, a, b, k);
      if k + 1 < |b| {
        assert b[k + 1] in KeptSet(b);
        BehindRange(a, b, k, x);
      }
      assert c[k].lo <= x <= c[k].hi;
    }
  }

  lemma BehindRange(a: seq<int>, b: seq<nat>, k: nat, x: int)
    requires IsCuts(a, b) && k + 1 < |b| && x < a[b[k + 1]] && x !in Inside(a, b[k + 1])
    ensures x <= a[Last(a, b, k)]
  {
    hide Interval;
  }

  lemma KeptGapOutside(a: seq<int>, b: seq<nat>, k: nat, j: int, x: int)
    requires IsCuts(a, b) && Increasing(a) && k < |b| && j in KeptSet(b) && 1 <= j < |a|
    requires a[b[k]] <= x <= a[Last(a, b, k)]
    ensures x !in Inside(a, j)
  {
    hide KeptSet, Interval;
    var l :| 1 <= l < |b| && b[l] == j;
    if l <= k {
      assert a[b[l]] <= a[b[k]];
    } else {
      assert Last(a, b, k) <= b[l] - 1 && a[Last(a, b, k)] <= a[b[l] - 1];
    }
  }

  lemma RangesCover(dr: seq<int>, a: seq<int>, b: seq<nat>)
    requires HoldsRanges(dr, a, b) && |dr| == 2 * |b| && Increasing(a)
    ensures Covers(RangesOf(dr), a)
  {
    hide Interval, KeptSet, Ints, RangesOf, HoldsRanges;
    HoldsCuts(dr, a, b);
    KeptSize(a, b);
    forall i | 0 <= i < |a| ensures a[i] in Ints(RangesOf(dr)) {
      forall j | j in KeptSet(b) ensures a[i] !in Inside(a, j) {}
      assert a[0] <= a[i] <= a[|a| - 1];
      RangesAreHullMinusGaps(dr, a, b, a[i]);
    }
  }

  lemma RangesSize(dr: seq<int>, a: seq<int>, b: seq<nat>)
    requires HoldsRanges(dr, a, b) && |dr| == 2 * |b| && Increasing(a)
    requires forall j :: j in KeptSet(b) ==> 1 <= j < |a|
    ensures |Ints(RangesOf(dr))| == Span(a) - Weight(a, KeptSet(b))
  {
    hide Interval, Ints, RangesOf, HoldsRanges, IsCuts, KeptSet, InGaps, Inside, Weight, Increasing;
    KeyEnds(dr, a, b);
    var hull, u, kept := Interval(a[0], a[|a| - 1]), Ints(RangesOf(dr)), KeptSet(b);
    forall x ensures x in u <==> x in hull && !InGaps(a, kept, x) { RangesAreHullMinusGaps(dr, a, b, x); }
    GapsHoldAtMost(a, kept, hull - u);
    forall j | j in kept ensures Inside(a, j) <= hull - u { GapInHull(a, kept, j, hull, u); }
    GapsHoldAtLeast(a, kept, hull - u);
    MinusSize(hull, hull - u);
    assert hull - (hull - u) == u;
  }

  lemma KeyEnds(dr: seq<int>, a: seq<int>, b: seq<nat>)
    requires HoldsRanges(dr, a, b) && Increasing(a)
    ensures |a| > 0 && a[0] <= a[|a| - 1]
  {
  }

  lemma GapInHull(a: seq<int>, kept: set<int>, j: int, hull: set<int>, u: set<int>)
    requires Increasing(a) && j in kept && 1 <= j < |a| && hull == Interval(a[0], a[|a| - 1])
    requires forall x :: x in u <==> x in hull && !InGaps(a, kept, x)
    ensures Inside(a, j) <= hull - u
  {
    hide Interval;
    assert a[0] <= a[j - 1] && a[j] <= a[|a| - 1];
    forall x | x in Inside(a, j) ensures x in hull && x !in u { assert InGaps(a, kept, x); }
  }

  // ---------------------------------------------------------------- optimality

  /** Every difference of neighbours is representable, so the code sees it as it is. */
  predicate DifferencesFit(a: seq<int>) {
    forall j :: 1 <= j < |a| ==> Width(a, j) <= INT_MAX
  }

  /** No cover of the key by at most n ranges contains fewer integers than u. */
  ghost predicate Minimal(a: seq<int>, n: nat, u: set<int>) {
    forall c :: |c| <= n && Covers(c, a) ==> |u| <= |Ints(c)|
  }

  lemma GreedyIsMinimal(dr: seq<int>, a: seq<int>, b: seq<nat>)
    requires HoldsRanges(dr, a, b) && |dr| == 2 * |b| && IsKey(a) && Greedy(a, b) && DifferencesFit(a)
    ensures Minimal(a, |b|, Ints(RangesOf(dr)))
  {
    hide HoldsRanges, IsCuts, KeptSet, Weight, Ints, RangesOf, Covers, OpenGaps, Greedy;
    HoldsCuts(dr, a, b);
    KeyEnds(dr, a, b);
    KeptSize(a, b);
    RangesSize(dr, a, b);
    forall c: seq<Range> | |c| <= |b| && Covers(c, a) ensures |Ints(RangesOf(dr))| <= |Ints(c)| {
      var open := OpenGaps(a, Ints(c));
      KeysCovered(c, a);
      CoverNeeds(a, Ints(c));
      OpenGapsBelowRanges(a, c);
      OpenInside(a, Ints(c));
      forall j, k | j in open && j !in KeptSet(b) && k in KeptSet(b) ensures Width(a, j) <= Width(a, k) {
        ClosedNotLarger(a, b, j, k);
      }
      HeaviestGaps(a, open, KeptSet(b));
    }
  }

  lemma KeysCovered(c: seq<Range>, a: seq<int>)
    requires Covers(c, a)
    ensures forall i :: 0 <= i < |a| ==> a[i] in Ints(c)
  {
  }

  lemma OpenInside(a: seq<int>, u: set<int>)
    ensures forall j :: j in OpenGaps(a, u) ==> 1 <= j < |a|
  {
  }

  lemma ClosedNotLarger(a: seq<int>, b: seq<nat>, j: int, k: int)
    requires IsCuts(a, b) && IsKey(a) && Greedy(a, b) && DifferencesFit(a)
    requires 1 <= j < |a| && j !in KeptSet(b) && k in KeptSet(b) && 1 <= k < |a|
    ensures Width(a, j) <= Width(a, k)
  {
    hide IsCuts, Greedy, GapSeen, IsKey;
    KeptSize(a, b);
    var l: nat :| 1 <= l < |b| && b[l] == k;
    GreedyAt(a, b, j, l);
    GapFits(a, j);
    GapFits(a, k);
  }

  lemma GreedyAt(a: seq<int>, b: seq<nat>, j: int, l: nat)
    requires IsCuts(a, b) && Greedy(a, b) && 1 <= j < |a| && j !in b && 1 <= l < |b|
    ensures 1 <= b[l] < |a| && GapSeen(a, j) <= GapSeen(a, b[l])
  {
  }

  lemma GapFits(a: seq<int>, j: int)
    requires IsKey(a) && DifferencesFit(a) && 1 <= j < |a|
    ensures GapSeen(a, j) == Width(a, j)
  {
  }

  // ---------------------------------------------------------------- the wrap-around case

  /** Strictly rising positions with a given set of gaps left open. */
  function CutsFrom(s: set<int>, n: nat): (b: seq<nat>)
    ensures forall k :: 0 <= k < |b| ==> b[k] < n && (b[k] == 0 || b[k] in s)
    ensures forall k, l :: 0 <= k < l < |b| ==> b[k] < b[l]
    ensures forall j :: 0 <= j < n && (j == 0 || j in s) ==> j in b
    ensures n > 0 ==> |b| > 0 && b[0] == 0
  {
    if n == 0 then []
    else if n == 1 || (n - 1) as int in s then CutsFrom(s, n - 1) + [n - 1]
    else CutsFrom(s, n - 1)
  }

  function BoundsOf(a: seq<int>, b: seq<nat>): (dr: seq<int>)
    requires IsCuts(a, b)
    ensures |dr| == 2 * |b| && HoldsRanges(dr, a, b)
  {
    var dr := seq(2 * |b|, i requires 0 <= i < 2 * |b| => if i % 2 == 0 then a[b[i / 2]] else a[Last(a, b, i / 2)]);
    assert forall k :: 0 <= k < |b| ==> RangeAt(dr, a, b, k) by {
      forall k | 0 <= k < |b| ensures RangeAt(dr, a, b, k) {
        assert dr[2 * k] == a[b[k]] && dr[2 * k + 1] == a[Last(a, b, k)];
      }
    }
    dr
  }

  /** Any set of gaps can be the ones a cover leaves open. */
  lemma CoverLeaving(a: seq<int>, s: set<int>) returns (c: seq<Range>)
    requires Increasing(a) && |a| > 0 && forall j :: j in s ==> 1 <= j < |a|
    ensures |c| == |s| + 1 && Covers(c, a) && |Ints(c)| == Span(a) - Weight(a, s)
  {
    var b := CutsFrom(s, |a|);
    assert IsCuts(a, b);
    var dr := BoundsOf(a, b);
    hide HoldsRanges, Weight, Ints, RangesOf, Covers, BoundsOf, CutsFrom, Increasing;
    KeptSize(a, b);
    assert KeptSet(b) == s by { SameGaps(a, b, s); }
    RangesSize(dr, a, b);
    RangesCover(dr, a, b);
    c := RangesOf(dr);
    RangesCount(dr);
  }

  lemma RangesCount(dr: seq<int>)
    ensures |RangesOf(dr)| == |dr| / 2
  {
  }

  lemma SameGaps(a: seq<int>, b: seq<nat>, s: set<int>)
    requires IsCuts(a, b) && forall j :: j in s ==> 1 <= j < |a|
    requires forall k :: 0 <= k < |b| ==> b[k] == 0 || b[k] in s
    requires forall j :: 0 <= j < |a| && (j == 0 || j in s) ==> j in b
    ensures KeptSet(b) == s
  {
    forall j | j in s ensures j in KeptSet(b) {
      assert j in b;
      var k :| 0 <= k < |b| && b[k] == j;
      assert 1 <= k;
    }
  }

  /** A gap whose difference wraps around is closed first, although it is the largest. */
  lemma WrappedGapIsClosed(a: seq<int>, b: seq<nat>, h: int)
    requires IsCuts(a, b) && IsKey(a) && Greedy(a, b) && |b| < |a|
    requires 1 <= h < |a| && Width(a, h) > INT_MAX
    ensures h !in b
    ensures forall k :: 1 <= k < |a| && k != h ==> Width(a, k) < Width(a, h)
  {
    forall k | 1 <= k < |a| && k != h ensures Width(a, k) <= INT_MAX {
      if k < h { assert a[0] <= a[k - 1] && a[k] <= a[h - 1]; } else { assert a[h] <= a[k - 1]; }
    }
    if h in b {
      var l: nat :| l < |b| && b[l] == h;
      var j := SomeClosed(a, b);
      GreedyAt(a, b, j, l);
    }
  }

  lemma {:induction false} SomeClosed(a: seq<int>, b: seq<nat>) returns (j: int)
    requires IsCuts(a, b) && |b| < |a|
    ensures 1 <= j < |a| && j !in b
  {
    KeptSize(a, b);
    if forall j :: 1 <= j < |a| ==> j in b {
      assert Interval(1, |a| - 1) <= KeptSet(b);
      SubsetSize(Interval(1, |a| - 1), KeptSet(b));
    }
    j :| 1 <= j < |a| && j !in b;
  }

  lemma WrappedIsNotMinimal(dr: seq<int>, a: seq<int>, b: seq<nat>, h: int)
    requires HoldsRanges(dr, a, b) && |dr| == 2 * |b| && IsKey(a) && Greedy(a, b) && 1 < |b| < |a|
    requires 1 <= h < |a| && Width(a, h) > INT_MAX
    ensures !Minimal(a, |b|, Ints(RangesOf(dr)))
  {
    hide HoldsRanges, IsCuts, KeptSet, Weight, Ints, RangesOf, Covers, Greedy, IsInt32;
    HoldsCuts(dr, a, b);
    KeptSize(a, b);
    WrappedGapIsClosed(a, b, h);
    RangesSize(dr, a, b);
    var kept := KeptSet(b);
    SomeMember(kept);
    var k :| k in kept;
    var s := kept - {k} + {h};
    assert s - {h} == kept - {k};
    WeightMinus(a, s, h);
    WeightMinus(a, kept, k);
    var c := CoverLeaving(a, s);
    assert |s| == |kept|;
    assert |Ints(c)| < |Ints(RangesOf(dr))|;
  }

  /**
   * g_int_compress on a key of at least 2*MAXNUMRANGE integers: MAXNUMRANGE ranges that
   * cover the key, with the fewest possible integers exactly when no difference wraps.
   */
  lemma CompressIsMinimalIff(dr: seq<int>, a: seq<int>, b: seq<nat>)
    requires IsKey(a) && |a| >= 2 * MAXNUMRANGE
    requires |dr| == 2 * MAXNUMRANGE && |b| == MAXNUMRANGE && HoldsRanges(dr, a, b) && Greedy(a, b)
    ensures Covers(RangesOf(dr), a)
    ensures Minimal(a, MAXNUMRANGE, Ints(RangesOf(dr))) <==> DifferencesFit(a)
  {
    hide HoldsRanges, IsCuts, Ints, RangesOf, Covers, Greedy, IsInt32, Minimal;
    RangesCover(dr, a, b);
    if DifferencesFit(a) {
      GreedyIsMinimal(dr, a, b);
    } else {
      var h :| 1 <= h < |a| && Width(a, h) > INT_MAX;
      WrappedIsNotMinimal(dr, a, b, h);
    }
  }

  /** What compress stores can be decompressed. */
  lemma CompressedIsStored(dr: seq<int>, a: seq<int>, b: seq<nat>)
    requires HoldsRanges(dr, a, b) && |dr| == 2 * |b| && Increasing(a)
    ensures IsStored(dr)
  {
    hide HoldsRanges, Increasing, Lo, Hi;
    forall k: nat | k < |dr| / 2 ensures Lo(dr, k) <= Hi(dr, k) { PairsInOrder(dr, a, b, k, k); }
    forall k: nat, l: nat | k < l < |dr| / 2 ensures Hi(dr, k) < Lo(dr, l) { PairsInOrder(dr, a, b, k, l); }
  }

  lemma PairsInOrder(dr: seq<int>, a: seq<int>, b: seq<nat>, k: nat, l: nat)
    requires HoldsRanges(dr, a, b) && |dr| == 2 * |b| && Increasing(a) && k <= l < |b|
    ensures Lo(dr, k) <= Hi(dr, k) && (k < l ==> Hi(dr, k) < Lo(dr, l))
  {
    assert RangeAt(dr, a, b, k) && RangeAt(dr, a, b, l);
    assert k < l ==> Last(a, b, k) < b[l];
  }
}
