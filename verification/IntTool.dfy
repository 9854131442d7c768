/** The array tools of contrib/intarray/_int_tool.c: sorting, removing repetitions, merging keys. */
module IntTool {
  import opened IntCover

  ghost predicate Sorted(a: seq<int>) {
    forall i, j :: 0 <= i < j < |a| ==> a[i] <= a[j]
  }

  ghost predicate HasRepetition(a: seq<int>) {
    exists i, j :: 0 <= i < j < |a| && a[i] == a[j]
  }

  /** Two equal neighbours among the first n. */
  ghost predicate EqualNeighbours(a: seq<int>, n: nat) {
    exists i :: 0 < i < n <= |a| && a[i - 1] == a[i]
  }

  /** The elements from n on are sorted and none of those before is larger. */
  ghost predicate TailPlaced(a: seq<int>, n: nat) {
    forall i, j :: 0 <= i < j < |a| && n <= j ==> a[i] <= a[j]
  }

  ghost predicate PrefixSorted(a: seq<int>, n: nat) {
    forall i :: 0 < i < n <= |a| ==> a[i - 1] <= a[i]
  }

  ghost predicate LargestLast(a: seq<int>, n: nat) {
    forall i :: 0 <= i < n <= |a| ==> a[i] <= a[n - 1]
  }

  // ---------------------------------------------------------------- permutations

  lemma {:induction false} CountTwice(a: seq<int>, i: nat, j: nat)
    requires i < j < |a| && a[i] == a[j]
    ensures multiset(a)[a[i]] >= 2
  {
    assert a == a[..j] + [a[j]] + a[j + 1..];
    assert a[i] == a[..j][i];
    assert a[i] in multiset(a[..j]);
  }

  lemma {:induction false} TwiceCounted(a: seq<int>, x: int)
    requires multiset(a)[x] >= 2
    ensures HasRepetition(a)
    decreases |a|
  {
    var n := |a| - 1;
    assert a == a[..n] + [a[n]];
    if a[n] == x {
      assert x in multiset(a[..n]);
      var i :| 0 <= i < n && a[..n][i] == x;
      assert a[i] == a[n];
    } else {
      TwiceCounted(a[..n], x);
      var i, j :| 0 <= i < j < n && a[..n][i] == a[..n][j];
      assert a[i] == a[j];
    }
  }

  lemma PermutationKeepsRepetition(a: seq<int>, b: seq<int>)
    requires multiset(a) == multiset(b) && HasRepetition(a)
    ensures HasRepetition(b)
  {
    var i, j :| 0 <= i < j < |a| && a[i] == a[j];
    CountTwice(a, i, j);
    TwiceCounted(b, a[i]);
  }

  lemma SwapKeepsElements(a: seq<int>, b: seq<int>, i: nat)
    requires i + 1 < |a| && |b| == |a| && b == a[i := a[i + 1]][i + 1 := a[i]]
    ensures multiset(b) == multiset(a)
  {
    var x, y := a[..i], a[i + 2..];
    assert a == x + [a[i], a[i + 1]] + y;
    assert b == x + [a[i + 1], a[i]] + y;
  }

  lemma {:induction false} NeighboursSort(a: seq<int>, i: nat, j: nat)
    requires PrefixSorted(a, |a|) && i <= j < |a|
    ensures a[i] <= a[j]
    decreases j
  {
    if i < j { NeighboursSort(a, i, j - 1); }
  }

  // ---------------------------------------------------------------- bubble sort

  /** What holds while a pass over s0 has reached s and looks at position cur next. */
  ghost predicate InPass(s0: seq<int>, s: seq<int>, cur: nat, placed: nat, swapped: bool, r0: bool, r: bool) {
    && |s| == |s0| && 1 <= cur <= |s| && 1 <= placed <= |s|
    && multiset(s) == multiset(s0)
    && LargestLast(s, cur)
    && TailPlaced(s, if cur >= placed then placed - 1 else placed)
    && (if swapped then placed > 1 && (r ==> r0 || HasRepetition(s0)) && (r0 ==> r)
        else s == s0 && PrefixSorted(s, cur) && (r <==> r0 || EqualNeighbours(s, cur)))
  }

  lemma SwapStep(s0: seq<int>, s: seq<int>, cur: nat, placed: nat, swapped: bool, r0: bool, r: bool)
    requires InPass(s0, s, cur, placed, swapped, r0, r) && cur < |s| && s[cur - 1] > s[cur]
    ensures InPass(s0, s[cur - 1 := s[cur]][cur := s[cur - 1]], cur + 1, placed, true, r0, r)
  {
    var t := s[cur - 1 := s[cur]][cur := s[cur - 1]];
    SwapKeepsElements(s, t, cur - 1);
    assert cur < placed;
    assert TailPlaced(t, if cur + 1 >= placed then placed - 1 else placed);
    if !swapped && EqualNeighbours(s, cur) {
      var i :| 0 < i < cur && s[i - 1] == s[i];
    }
  }

  lemma KeepPlaced(s: seq<int>, cur: nat, placed: nat)
    requires 1 <= cur < |s| && placed >= 1 && s[cur - 1] <= s[cur] && LargestLast(s, cur)
    requires TailPlaced(s, if cur >= placed then placed - 1 else placed)
    ensures LargestLast(s, cur + 1) && TailPlaced(s, if cur + 1 >= placed then placed - 1 else placed)
  {
  }

  lemma KeepSorted(s: seq<int>, cur: nat)
    requires 1 <= cur < |s| && s[cur - 1] <= s[cur] && PrefixSorted(s, cur)
    ensures PrefixSorted(s, cur + 1)
  {
  }

  lemma KeepNeighbours(s: seq<int>, cur: nat)
    requires 1 <= cur < |s|
    ensures EqualNeighbours(s, cur + 1) <==> EqualNeighbours(s, cur) || s[cur - 1] == s[cur]
    ensures s[cur - 1] == s[cur] ==> HasRepetition(s)
  {
    if EqualNeighbours(s, cur) {
      var i :| 0 < i < cur && s[i - 1] == s[i];
      assert 0 < i < cur + 1;
    }
  }

  lemma KeepStep(s0: seq<int>, s: seq<int>, cur: nat, placed: nat, swapped: bool, r0: bool, r: bool)
    requires InPass(s0, s, cur, placed, swapped, r0, r) && cur < |s| && s[cur - 1] <= s[cur]
    ensures InPass(s0, s, cur + 1, placed, swapped, r0, r || s[cur - 1] == s[cur])
  {
    hide PrefixSorted, LargestLast, TailPlaced, EqualNeighbours, HasRepetition;
    KeepPlaced(s, cur, placed);
    KeepNeighbours(s, cur);
    if swapped && s[cur - 1] == s[cur] {
      PermutationKeepsRepetition(s, s0);
    }
    if !swapped { KeepSorted(s, cur); }
  }

  lemma PassDone(s0: seq<int>, s: seq<int>, placed: nat, swapped: bool, r0: bool, r: bool)
    requires InPass(s0, s, |s|, placed, swapped, r0, r)
    ensures multiset(s) == multiset(s0) && |s| == |s0|
    ensures swapped ==> placed > 1 && TailPlaced(s, placed - 1) && (r ==> r0 || HasRepetition(s0))
    ensures !swapped ==> Sorted(s) && (r <==> r0 || HasRepetition(s))
  {
    if !swapped {
      forall i, j | 0 <= i < j < |s| ensures s[i] <= s[j] { NeighboursSort(s, i, j); }
      if i, j :| 0 <= i < j < |s| && s[i] == s[j] {
        NeighboursSort(s, i, i + 1);
        NeighboursSort(s, i + 1, j);
        assert s[i + 1 - 1] == s[i + 1];
      }
      if i :| 0 < i < |s| && s[i - 1] == s[i] { assert 0 <= i - 1 < i < |s|; }
    }
  }

  /** The inner loop of isort: one pass that swaps neighbours out of order. */
  method Pass(a: array<int>, len: nat, r0: bool, ghost placed: nat) returns (index: int, r: bool)
    requires len == a.Length && len >= 2 && 1 <= placed <= len && TailPlaced(a[..], placed)
    modifies a
    ensures index == 0 || index == 1
    ensures InPass(old(a[..]), a[..], len, placed, index != 0, r0, r)
  {
    hide *;
    ghost var s0 := a[..];
    index, r := 0, r0;
    var cur := 1;
    StartPass(s0, placed, r0);
    while cur < len
      invariant index == 0 || index == 1
      invariant InPass(s0, a[..], cur, placed, index != 0, r0, r) && 1 <= cur <= len
    {
      ghost var s := a[..];
      if a[cur - 1] > a[cur] {
        SwapStep(s0, s, cur, placed, index != 0, r0, r);
        var tmp := a[cur - 1];
        a[cur - 1] := a[cur];
        a[cur] := tmp;
        index := 1;
        assert a[..] == s[cur - 1 := s[cur]][cur := s[cur - 1]];
      } else {
        KeepStep(s0, s, cur, placed, index != 0, r0, r);
        if !r && a[cur - 1] == a[cur] {
          r := true;
        }
      }
      cur := cur + 1;
    }
  }

  /** isort: sorts in place and tells whether some element occurs twice. */
  method ISort(a: array<int>, len: nat) returns (r: bool)
    requires len == a.Length && len >= 2
    modifies a
    ensures Sorted(a[..]) && multiset(a[..]) == multiset(old(a[..]))
    ensures r <==> HasRepetition(old(a[..]))
  {
    hide *;
    ghost var a0 := a[..];
    r := false;
    var index := 1;
    ghost var placed := len;
    StartSorting(a0);
    while index != 0
      invariant multiset(a[..]) == multiset(a0)
      invariant r ==> HasRepetition(a0)
      invariant index != 0 ==> 1 <= placed <= len && TailPlaced(a[..], placed)
      invariant index == 0 ==> Sorted(a[..]) && (HasRepetition(a[..]) ==> r)
      decreases if index != 0 then placed else 0
    {
      ghost var s0, r0 := a[..], r;
      index, r := Pass(a, len, r, placed);
      PassDone(s0, a[..], placed, index != 0, r0, r);
      if HasRepetition(s0) { PermutationKeepsRepetition(s0, a0); }
      if HasRepetition(a[..]) { PermutationKeepsRepetition(a[..], a0); }
      placed := if placed > 1 then placed - 1 else placed;
    }
    if HasRepetition(a0) { PermutationKeepsRepetition(a0, a[..]); }
  }

  lemma StartSorting(a: seq<int>)
    ensures TailPlaced(a, |a|)
  {
  }

  lemma StartPass(s: seq<int>, placed: nat, r0: bool)
    requires |s| >= 2 && 1 <= placed <= |s| && TailPlaced(s, placed)
    ensures InPass(s, s, 1, placed, false, r0, r0)
  {
  }

  // ---------------------------------------------------------------- repetitions

  ghost predicate SameElements(a: seq<int>, b: seq<int>) {
    (forall x :: x in a ==> x in b) && (forall x :: x in b ==> x in a)
  }

  /** _int_unique: a sorted array is compacted in place to its first n elements. */
  method Unique(a: array<int>) returns (n: nat)
    requires Sorted(a[..])
    modifies a
    ensures n <= a.Length && Increasing(a[..n]) && SameElements(a[..n], old(a[..]))
  {
    var num := a.Length;
    if num < 2 {
      assert a[..num] == a[..];
      return num;
    }
    hide *;
    ghost var s := a[..];
    var tmp, dr := 0, 0;
    StartUnique(s);
    while tmp < num
      invariant 0 <= dr < num && dr <= tmp <= num
      invariant forall i :: tmp <= i < num ==> a[i] == s[i]
      invariant Compacted(s, tmp, a[..dr + 1])
    {
      ghost var was := a[..dr + 1];
      CompactStep(s, tmp, was);
      if a[tmp] != a[dr] {
        dr := dr + 1;
        a[dr] := a[tmp];
        assert a[..dr + 1] == was + [s[tmp]];
      }
      tmp := tmp + 1;
    }
    CompactDone(s, a[..dr + 1]);
    return dr + 1;
  }

  /** u is what the first tmp elements of s are compacted to. */
  ghost predicate Compacted(s: seq<int>, tmp: nat, u: seq<int>) {
    && 0 < |u| && tmp <= |s| && 0 < |s| && Increasing(u)
    && (if tmp == 0 then u == s[..1] else u[|u| - 1] == s[tmp - 1] && SameElements(u, s[..tmp]))
  }

  lemma StartUnique(s: seq<int>)
    requires |s| > 1
    ensures Compacted(s, 0, s[..1])
  {
  }

  lemma CompactStep(s: seq<int>, tmp: nat, u: seq<int>)
    requires Sorted(s) && tmp < |s| && Compacted(s, tmp, u)
    ensures s[tmp] != u[|u| - 1] ==> Compacted(s, tmp + 1, u + [s[tmp]])
    ensures s[tmp] == u[|u| - 1] ==> Compacted(s, tmp + 1, u)
  {
    hide Increasing;
    assert s[..tmp + 1] == s[..tmp] + [s[tmp]];
    if s[tmp] != u[|u| - 1] {
      IncreasingSnoc(u, s[tmp]);
    } else if tmp > 0 {
      assert s[tmp] in u;
    }
  }

  lemma CompactDone(s: seq<int>, u: seq<int>)
    requires Compacted(s, |s|, u) && |s| > 0
    ensures Increasing(u) && SameElements(u, s)
  {
    assert s[..|s|] == s;
  }

  lemma IncreasingSnoc(u: seq<int>, x: int)
    requires Increasing(u) && |u| > 0 && u[|u| - 1] < x
    ensures Increasing(u + [x])
  {
  }

  /** The macro PREPAREARR: a sorted copy without repetition. */
  method Prepare(s: seq<int>) returns (key: seq<int>)
    ensures Increasing(key) && SameElements(key, s)
  {
    var a := new int[|s|](i requires 0 <= i < |s| => s[i]);
    assert a[..] == s;
    if |s| > 1 {
      var repeats := ISort(a, |s|);
      SameMultiset(a[..], s);
      if repeats {
        var n := Unique(a);
        return a[..n];
      }
      if HasRepetition(a[..]) { PermutationKeepsRepetition(a[..], s); }
    }
    return a[..];
  }

  lemma SameMultiset(a: seq<int>, b: seq<int>)
    requires multiset(a) == multiset(b)
    ensures SameElements(a, b)
  {
    forall x | x in a ensures x in b { assert x in multiset(a); }
    forall x | x in b ensures x in a { assert x in multiset(b); }
  }

  /** g_int_union: the elements of all entries, sorted, each once. */
  method Union(entries: seq<seq<int>>) returns (key: seq<int>)
    ensures Increasing(key)
    ensures forall x :: x in key <==> exists i :: 0 <= i < |entries| && x in entries[i]
  {
    var all: seq<int> := [];
    for i := 0 to |entries|
      invariant forall x :: x in all <==> exists k :: 0 <= k < i && x in entries[k]
    {
      all := all + entries[i];
    }
    key := Prepare(all);
  }

  ghost predicate Merged(u: seq<int>, a: seq<int>, b: seq<int>) {
    Increasing(u) && forall x :: x in u <==> x in a || x in b
  }

  lemma MergeStep(u: seq<int>, a: seq<int>, i: nat, b: seq<int>, j: nat, i': nat, j': nat, x: int)
    requires Increasing(a) && Increasing(b) && i <= i' <= i + 1 && j <= j' <= j + 1 && i' <= |a| && j' <= |b|
    requires Merged(u, a[..i], b[..j]) && (u != [] ==> u[|u| - 1] < x)
    requires i < i' || j < j'
    requires (i < i' ==> a[i] == x) && (j < j' ==> b[j] == x)
    ensures Merged(u + [x], a[..i'], b[..j'])
  {
    if u != [] { IncreasingSnoc(u, x); }
    assert i < i' ==> a[..i'] == a[..i] + [x];
    assert j < j' ==> b[..j'] == b[..j] + [x];
  }

  /** inner_int_union: merges two keys. */
  method InnerUnion(a: seq<int>, b: seq<int>) returns (r: seq<int>)
    requires Increasing(a) && Increasing(b)
    ensures Merged(r, a, b)
  {
    hide Increasing;
    if |a| == 0 && |b| == 0 { return []; }
    if |a| == 0 { return b; }
    if |b| == 0 { return a; }
    r := [];
    EmptyIncreasing();
    var i, j := 0, 0;
    while i < |a| && j < |b|
      invariant 0 <= i <= |a| && 0 <= j <= |b|
      invariant Merged(r, a[..i], b[..j])
      invariant r != [] && i < |a| ==> r[|r| - 1] < a[i]
      invariant r != [] && j < |b| ==> r[|r| - 1] < b[j]
    {
      NextLarger(a, i);
      NextLarger(b, j);
      if a[i] == b[j] {
        MergeStep(r, a, i, b, j, i + 1, j + 1, a[i]);
        r := r + [a[i]];
        i, j := i + 1, j + 1;
      } else if a[i] < b[j] {
        MergeStep(r, a, i, b, j, i + 1, j, a[i]);
        r := r + [a[i]];
        i := i + 1;
      } else {
        MergeStep(r, a, i, b, j, i, j + 1, b[j]);
        r := r + [b[j]];
        j := j + 1;
      }
    }
    while i < |a|
      invariant 0 <= i <= |a| && 0 <= j <= |b| && (i < |a| ==> j == |b|)
      invariant Merged(r, a[..i], b[..j])
      invariant r != [] && i < |a| ==> r[|r| - 1] < a[i]
      invariant r != [] && j < |b| ==> r[|r| - 1] < b[j]
    {
      NextLarger(a, i);
      MergeStep(r, a, i, b, j, i + 1, j, a[i]);
      r := r + [a[i]];
      i := i + 1;
    }
    while j < |b|
      invariant i == |a| && 0 <= j <= |b|
      invariant Merged(r, a[..i], b[..j])
      invariant r != [] && j < |b| ==> r[|r| - 1] < b[j]
    {
      NextLarger(b, j);
      MergeStep(r, a, i, b, j, i, j + 1, b[j]);
      r := r + [b[j]];
      j := j + 1;
    }
    assert a[..i] == a && b[..j] == b;
  }

  lemma EmptyIncreasing()
    ensures Increasing([])
  {
  }

  lemma NextLarger(a: seq<int>, i: nat)
    requires Increasing(a) && i < |a|
    ensures i + 1 < |a| ==> a[i] < a[i + 1]
  {
  }

  function Members(s: seq<nat>): set<nat> {
    set x | x in s
  }

  /** The elements of a key are those of the chosen entries. */
  ghost predicate UnionOf(key: seq<int>, entries: seq<seq<int>>, chosen: set<nat>) {
    && Increasing(key)
    && (forall k :: k in chosen ==> k < |entries|)
    && (forall x :: x in key <==> exists k :: k in chosen && k < |entries| && x in entries[k])
  }

  lemma UnionOfMore(key: seq<int>, entries: seq<seq<int>>, chosen: set<nat>, i: nat, more: seq<int>)
    requires UnionOf(key, entries, chosen) && i < |entries| && Merged(more, key, entries[i])
    ensures UnionOf(more, entries, chosen + {i})
  {
    var c := chosen + {i};
    forall x ensures x in more <==> exists k :: k in c && k < |entries| && x in entries[k] {
      if x in entries[i] { assert i in c; }
      if x in key {
        var k :| k in chosen && k < |entries| && x in entries[k];
        assert k in c;
      }
    }
  }

  lemma MembersMore(s: seq<nat>, i: nat, seed: nat)
    ensures Members(s + [i]) + {seed} == Members(s) + {seed} + {i}
    ensures i in Members(s + [i])
  {
    assert (s + [i])[|s|] == i;
    forall x ensures x in Members(s + [i]) <==> x in Members(s) || x == i {
      if x in s { var k :| 0 <= k < |s| && s[k] == x; assert (s + [i])[k] == x; }
    }
  }

  lemma UnionOfSeed(entries: seq<seq<int>>, seed: nat)
    requires seed < |entries| && Increasing(entries[seed])
    ensures UnionOf(entries[seed], entries, Members([]) + {seed})
  {
    assert seed in {seed};
  }

  lemma SeedIn(s: seq<nat>, seed: nat)
    requires seed in s
    ensures Members(s) + {seed} == Members(s)
  {
  }

  /**
   * g_int_picksplit: the entries, in some order, go to one page or the other, each page beginning with
   * its seed; which way an entry goes is a matter of cost, here the parameter goLeft.
   */
  method PickSplit(entries: seq<seq<int>>, seed1: nat, seed2: nat, order: seq<nat>, goLeft: seq<bool>)
    returns (left: seq<nat>, right: seq<nat>, datumL: seq<int>, datumR: seq<int>)
    requires forall i :: 0 <= i < |entries| ==> Increasing(entries[i])
    requires seed1 < |entries| && seed2 < |entries| && seed1 != seed2 && |goLeft| == |entries|
    requires forall i: nat :: i in order <==> i < |entries|
    ensures multiset(left) + multiset(right) == multiset(order)
    ensures seed1 in left && seed2 in right
    ensures UnionOf(datumL, entries, Members(left)) && UnionOf(datumR, entries, Members(right))
  {
    hide Increasing, UnionOf, Members;
    left, right := [], [];
    datumL, datumR := entries[seed1], entries[seed2];
    UnionOfSeed(entries, seed1);
    UnionOfSeed(entries, seed2);
    for k := 0 to |order|
      invariant multiset(left) + multiset(right) == multiset(order[..k])
      invariant forall j :: 0 <= j < k ==> (order[j] == seed1 ==> seed1 in left) && (order[j] == seed2 ==> seed2 in right)
      invariant Increasing(datumL) && Increasing(datumR)
      invariant UnionOf(datumL, entries, Members(left) + {seed1})
      invariant UnionOf(datumR, entries, Members(right) + {seed2})
    {
      var i := order[k];
      assert i in order;
      assert order[..k + 1] == order[..k] + [i];
      assert (left + [i])[|left|] == i && (right + [i])[|right|] == i;
      MembersMore(left, i, seed1);
      MembersMore(right, i, seed2);
      if i == seed1 {
        assert Members(left + [i]) + {seed1} == Members(left) + {seed1};
        left := left + [i];
      } else if i == seed2 {
        assert Members(right + [i]) + {seed2} == Members(right) + {seed2};
        right := right + [i];
      } else {
        var unionL := InnerUnion(datumL, entries[i]);
        var unionR := InnerUnion(datumR, entries[i]);
        if goLeft[i] {
          UnionOfMore(datumL, entries, Members(left) + {seed1}, i, unionL);
          datumL := unionL;
          left := left + [i];
        } else {
          UnionOfMore(datumR, entries, Members(right) + {seed2}, i, unionR);
          datumR := unionR;
          right := right + [i];
        }
      }
    }
    assert order[..|order|] == order;
    assert seed1 in order && seed2 in order;
    SeedIn(left, seed1);
    SeedIn(right, seed2);
  }

  // ---------------------------------------------------------------- search

  /** checkcondition_arr: binary search in a sorted array. */
  method CheckConditionArr(a: seq<int>, val: int) returns (found: bool)
    requires Sorted(a)
    ensures found <==> val in a
  {
    var low, high := 0, |a|;
    while low < high
      invariant 0 <= low <= high <= |a|
      invariant forall i :: 0 <= i < low ==> a[i] < val
      invariant forall i :: high <= i < |a| ==> a[i] > val
    {
      var middle := low + (high - low) / 2;
      if a[middle] == val {
        return true;
      } else if a[middle] < val {
        low := middle + 1;
      } else {
        high := middle;
      }
    }
    return false;
  }
}
