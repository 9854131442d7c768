/**
 * The lossy key compression of contrib/intarray/_int_gist.c: an index key with too many
 * integers is stored as MAXNUMRANGE ranges, by closing its smallest gaps one at a time.
 */
module IntCompress {
  import opened Machine
  import opened IntCover

  const MAXNUMRANGE := 100

  /** A key as the union method leaves it: sorted 32-bit integers without repetition. */
  predicate IsKey(a: seq<int>) {
    Increasing(a) && forall i :: 0 <= i < |a| ==> IsInt32(a[i])
  }

  // ---------------------------------------------------------------- ranges and cuts

  /** Where the ranges over a begin: strictly rising positions, the first at the first element. */
  predicate IsCuts(a: seq<int>, b: seq<nat>) {
    && |b| > 0 && b[0] == 0
    && (forall k, l :: 0 <= k < l < |b| ==> b[k] < b[l])
    && (forall k :: 0 <= k < |b| ==> b[k] < |a|)
  }

  /** The position of the last element of range k. */
  function Last(a: seq<int>, b: seq<nat>, k: nat): int
    requires k < |b|
  {
    if k + 1 < |b| then b[k + 1] - 1 else |a| - 1
  }

  /** dr holds the bounds of the ranges cut at b. */
  ghost predicate HoldsRanges(dr: seq<int>, a: seq<int>, b: seq<nat>) {
    && IsCuts(a, b)
    && |dr| >= 2 * |b|
    && forall k :: 0 <= k < |b| ==> RangeAt(dr, a, b, k)
  }

  /** The pair of bounds at 2k is that of range k. */
  ghost predicate RangeAt(dr: seq<int>, a: seq<int>, b: seq<nat>, k: nat)
    requires k < |b| && |dr| >= 2 * |b|
  {
    && b[k] < |a| && 0 <= Last(a, b, k) < |a|
    && dr[2 * k] == a[b[k]] && dr[2 * k + 1] == a[Last(a, b, k)]
  }

  /** The difference the code computes for the gap before position j. */
  function GapSeen(a: seq<int>, j: int): int
    requires 1 <= j < |a|
  {
    Wrap32(Width(a, j))
  }

  /** No closed gap looked larger than one that was left open. */
  ghost predicate Greedy(a: seq<int>, b: seq<nat>) {
    forall j, k :: 1 <= j < |a| && j !in b && 1 <= k < |b| && 1 <= b[k] < |a| ==> GapSeen(a, j) <= GapSeen(a, b[k])
  }

  function Drop(b: seq<nat>, k: nat): seq<nat>
    requires k < |b|
  {
    b[..k] + b[k + 1..]
  }

  method MemMove(a: array<int>, dst: nat, src: nat, n: nat)
    requires dst <= src && src + n <= a.Length
    modifies a
    ensures forall i :: dst <= i < dst + n ==> a[i] == old(a[i + (src - dst)])
    ensures forall i :: 0 <= i < dst || dst + n <= i < a.Length ==> a[i] == old(a[i])
  {
    for i := 0 to n
      invariant forall j :: dst <= j < dst + i ==> a[j] == old(a[j + (src - dst)])
      invariant forall j :: 0 <= j < dst || dst + i <= j < a.Length ==> a[j] == old(a[j])
    {
      a[dst + i] := a[src + i];
    }
  }

  /** Every element becomes a range of its own, in place and from the end. */
  method Expand(dr: array<int>, len: nat, ghost a: seq<int>)
    requires len == |a| && dr.Length == 2 * len && dr[..len] == a
    modifies dr
    ensures forall k :: 0 <= k < len ==> dr[2 * k] == a[k] && dr[2 * k + 1] == a[k]
  {
    var i := len - 1;
    assert forall k :: 0 <= k < len ==> dr[k] == dr[..len][k];
    while i >= 0
      invariant -1 <= i < len
      invariant forall k :: 0 <= k <= i ==> dr[k] == a[k]
      invariant forall k :: i < k < len ==> dr[2 * k] == a[k] && dr[2 * k + 1] == a[k]
    {
      var v := dr[i];
      dr[2 * i] := v;
      dr[2 * i + 1] := v;
      i := i - 1;
    }
  }

  /** The even position behind the smallest gap. */
  method SmallestGap(dr: array<int>, len: nat, ghost a: seq<int>, ghost b: seq<nat>) returns (cand: nat)
    requires IsKey(a) && len == 2 * |b| && len <= dr.Length && HoldsRanges(dr[..], a, b) && |b| > 3
    ensures cand % 2 == 0 && 2 <= cand < len
    ensures forall k :: 1 <= k < |b| ==> GapSeen(a, b[cand / 2]) <= GapSeen(a, b[k])
  {
    var min := INT_MAX;
    cand := 1;
    var i := 2;
    while i < len
      invariant i % 2 == 0 && 2 <= i <= len
      invariant min < INT_MAX ==> cand % 2 == 0 && 2 <= cand < i && GapSeen(a, b[cand / 2]) == min
      invariant min <= INT_MAX
      invariant forall k :: 1 <= k < i / 2 ==> min <= GapSeen(a, b[k])
    {
      GapAt(dr[..], a, b, i / 2);
      if min > Wrap32(dr[i] - dr[i - 1]) {
        min := Wrap32(dr[i] - dr[i - 1]);
        cand := i;
      }
      i := i + 2;
    }
    SomeGapIsSmall(a, b);
  }

  lemma GapAt(dr: seq<int>, a: seq<int>, b: seq<nat>, k: nat)
    requires HoldsRanges(dr, a, b) && 1 <= k < |b|
    ensures 1 <= b[k] && dr[2 * k] - dr[2 * k - 1] == a[b[k]] - a[b[k] - 1]
  {
    assert RangeAt(dr, a, b, k) && RangeAt(dr, a, b, k - 1);
  }

  /** Three gaps cannot all be INT_MAX wide within 32 bits. */
  lemma SomeGapIsSmall(a: seq<int>, b: seq<nat>)
    requires IsKey(a) && IsCuts(a, b) && |b| > 3
    ensures exists k :: 1 <= k < |b| && GapSeen(a, b[k]) < INT_MAX
  {
    forall k | 1 <= k < 4 && GapSeen(a, b[k]) >= INT_MAX ensures a[b[k]] - a[b[k] - 1] >= INT_MAX {}
    assert a[b[0]] <= a[b[1] - 1] && a[b[1]] <= a[b[2] - 1] && a[b[2]] <= a[b[3] - 1];
    assert GapSeen(a, b[1]) < INT_MAX || GapSeen(a, b[2]) < INT_MAX || GapSeen(a, b[3]) < INT_MAX;
  }

  /** Closing the gap before range k. */
  lemma DropKeeps(dr: seq<int>, dr': seq<int>, a: seq<int>, b: seq<nat>, k: nat)
    requires HoldsRanges(dr, a, b) && 1 <= k < |b| && |dr'| >= 2 * |b| - 2
    requires forall i :: 0 <= i < 2 * k - 1 ==> dr'[i] == dr[i]
    requires forall i :: 2 * k - 1 <= i < 2 * |b| - 2 ==> dr'[i] == dr[i + 2]
    ensures HoldsRanges(dr', a, Drop(b, k))
  {
    var b' := Drop(b, k);
    forall l | 0 <= l < |b'| ensures RangeAt(dr', a, b', l) {
      assert RangeAt(dr, a, b, l) && RangeAt(dr, a, b, l + 1);
      assert l == k - 1 ==> Last(a, b', l) == Last(a, b, k);
    }
  }

  lemma DropKeepsGreedy(a: seq<int>, b: seq<nat>, k: nat)
    requires IsCuts(a, b) && Greedy(a, b) && 1 <= k < |b|
    requires forall l :: 1 <= l < |b| ==> GapSeen(a, b[k]) <= GapSeen(a, b[l])
    ensures IsCuts(a, Drop(b, k)) && Greedy(a, Drop(b, k)) && |Drop(b, k)| == |b| - 1
  {
    hide GapSeen, Greedy, Drop;
    DropKeepsCuts(a, b, k);
    DropKeepsOpen(a, b, k);
  }

  lemma DropKeepsCuts(a: seq<int>, b: seq<nat>, k: nat)
    requires IsCuts(a, b) && 1 <= k < |b|
    ensures IsCuts(a, Drop(b, k)) && |Drop(b, k)| == |b| - 1
  {
  }

  lemma DropKeepsOpen(a: seq<int>, b: seq<nat>, k: nat)
    requires Greedy(a, b) && 1 <= k < |b|
    requires forall l :: 1 <= l < |b| ==> 1 <= b[l] < |a|
    requires forall l :: 1 <= l < |b| ==> GapSeen(a, b[k]) <= GapSeen(a, b[l])
    ensures Greedy(a, Drop(b, k))
  {
    hide GapSeen;
    var b' := Drop(b, k);
    forall j, l | 1 <= j < |a| && j !in b' && 1 <= l < |b'| && 1 <= b'[l] < |a| ensures GapSeen(a, j) <= GapSeen(a, b'[l]) {
      var o := if l < k then l else l + 1;
      assert b'[l] == b[o];
      if j in b { DropForgetsOne(b, k, j); }
    }
  }

  lemma DropForgetsOne(b: seq<nat>, k: nat, j: nat)
    requires k < |b| && j in b && j !in Drop(b, k)
    ensures j == b[k]
  {
    var i: nat :| i < |b| && b[i] == j;
    if i != k { DropKeepsOthers(b, k, i); }
  }

  lemma DropKeepsOthers(b: seq<nat>, k: nat, i: nat)
    requires k < |b| && i < |b| && i != k
    ensures b[i] in Drop(b, k)
  {
    assert Drop(b, k)[if i < k then i else i - 1] == b[i];
  }

  /** One round of the compression: the two ranges around the smallest gap become one. */
  method CloseGap(dr: array<int>, len: nat, ghost r: seq<int>, ghost b: seq<nat>) returns (ghost b': seq<nat>)
    requires IsKey(r) && len == 2 * |b| && 2 * MAXNUMRANGE < len <= dr.Length
    requires HoldsRanges(dr[..], r, b) && Greedy(r, b)
    modifies dr
    ensures |b'| == |b| - 1 && HoldsRanges(dr[..], r, b') && Greedy(r, b')
  {
    hide HoldsRanges, Greedy, IsCuts, Drop, IsKey, GapSeen, Wrap32, RangeAt, Last, Increasing;
    var cand := SmallestGap(dr, len, r, b);
    ghost var was := dr[..];
    MemMove(dr, cand - 1, cand + 1, len - cand - 1);
    AfterMove(was, dr[..], r, b, cand, len);
    b' := Drop(b, cand / 2);
  }

  /** g_int_compress on an internal key. */
  method Compress(r: seq<int>) returns (res: seq<int>, ghost b: seq<nat>)
    requires IsKey(r)
    ensures |r| < 2 * MAXNUMRANGE ==> res == r
    ensures |r| >= 2 * MAXNUMRANGE ==>
      (|res| == 2 * MAXNUMRANGE && |b| == MAXNUMRANGE && HoldsRanges(res, r, b) && Greedy(r, b))
  {
    hide HoldsRanges, Greedy, IsCuts, Drop, IsKey, GapSeen, Wrap32, RangeAt, Last, Increasing;
    b := [];
    if |r| < 2 * MAXNUMRANGE { return r, b; }
    var len := |r|;
    var dr := Copy(r, 2 * len);
    Expand(dr, len, r);
    len := 2 * len;
    b := seq(|r|, i => i);
    SinglesHold(dr[..], r, b);
    while len > MAXNUMRANGE * 2
      invariant len == 2 * |b| && 2 * MAXNUMRANGE <= len <= dr.Length
      invariant HoldsRanges(dr[..], r, b) && Greedy(r, b)
    {
      b := CloseGap(dr, len, r, b);
      len := len - 2;
    }
    PrefixHolds(dr[..], r, b);
    res := dr[..len];
  }

  /** A copy of the key with room for more. */
  method Copy(r: seq<int>, size: nat) returns (dr: array<int>)
    requires |r| <= size
    ensures fresh(dr) && dr.Length == size && dr[..|r|] == r
  {
    dr := new int[size];
    for i := 0 to |r|
      invariant dr[..i] == r[..i]
    {
      dr[i] := r[i];
    }
  }

  lemma HoldsCuts(dr: seq<int>, r: seq<int>, b: seq<nat>)
    requires HoldsRanges(dr, r, b)
    ensures IsCuts(r, b)
  {
  }

  lemma SinglesHold(dr: seq<int>, r: seq<int>, b: seq<nat>)
    requires |r| > 0 && |dr| == 2 * |r| && b == seq(|r|, i => i)
    requires forall k :: 0 <= k < |r| ==> dr[2 * k] == r[k] && dr[2 * k + 1] == r[k]
    ensures HoldsRanges(dr, r, b) && Greedy(r, b)
  {
    forall k | 0 <= k < |b| ensures RangeAt(dr, r, b, k) {
      assert dr[2 * k] == r[k];
    }
    forall j | 0 <= j < |r| ensures j in b { assert b[j] == j; }
  }

  lemma PrefixHolds(dr: seq<int>, r: seq<int>, b: seq<nat>)
    requires HoldsRanges(dr, r, b)
    ensures HoldsRanges(dr[..2 * |b|], r, b)
  {
    forall k | 0 <= k < |b| ensures RangeAt(dr[..2 * |b|], r, b, k) { assert RangeAt(dr, r, b, k); }
  }

  lemma AfterMove(dr: seq<int>, dr': seq<int>, a: seq<int>, b: seq<nat>, cand: nat, len: nat)
    requires HoldsRanges(dr, a, b) && len == 2 * |b| && |dr'| == |dr|
    requires cand % 2 == 0 && 2 <= cand < len
    requires forall i :: cand - 1 <= i < len - 2 ==> dr'[i] == dr[i + 2]
    requires forall i :: 0 <= i < cand - 1 ==> dr'[i] == dr[i]
    requires Greedy(a, b) && forall l :: 1 <= l < |b| ==> GapSeen(a, b[cand / 2]) <= GapSeen(a, b[l])
    ensures HoldsRanges(dr', a, Drop(b, cand / 2)) && Greedy(a, Drop(b, cand / 2)) && |Drop(b, cand / 2)| == |b| - 1
  {
    hide Greedy, GapSeen;
    DropKeeps(dr, dr', a, b, cand / 2);
    DropKeepsGreedy(a, b, cand / 2);
  }

  // ---------------------------------------------------------------- decompression

  function Lo(d: seq<int>, k: nat): int
    requires 2 * k + 1 < |d|
  {
    d[2 * k]
  }

  function Hi(d: seq<int>, k: nat): int
    requires 2 * k + 1 < |d|
  {
    d[2 * k + 1]
  }

  /** A stored key: ranges in order, none touching the one before it. */
  ghost predicate IsStored(d: seq<int>) {
    && |d| % 2 == 0
    && (forall k :: 0 <= k < |d| / 2 ==> Lo(d, k) <= Hi(d, k))
    && (forall k, l :: 0 <= k < l < |d| / 2 ==> Hi(d, k) < Lo(d, l))
  }

  function Run(lo: int, hi: int): (r: seq<int>)
    ensures |r| == if lo <= hi then hi - lo + 1 else 0
    ensures forall i :: 0 <= i < |r| ==> r[i] == lo + i
    decreases if lo <= hi then hi - lo + 1 else 0
  {
    if lo > hi then [] else Run(lo, hi - 1) + [hi]
  }

  /** The integers of the first n ranges, in order. */
  ghost function Unpacked(d: seq<int>, n: nat): seq<int>
    requires 2 * n <= |d|
  {
    if n == 0 then [] else Unpacked(d, n - 1) + Run(Lo(d, n - 1), Hi(d, n - 1))
  }

  lemma {:induction false} UnpackedSorted(d: seq<int>, n: nat)
    requires IsStored(d) && 2 * n <= |d|
    ensures Increasing(Unpacked(d, n))
    ensures forall x :: x in Unpacked(d, n) <==> exists k :: 0 <= k < n && Lo(d, k) <= x <= Hi(d, k)
    decreases n
  {
    if n > 0 {
      UnpackedSorted(d, n - 1);
      var u, r := Unpacked(d, n - 1), Run(Lo(d, n - 1), Hi(d, n - 1));
      forall x ensures x in u + r <==> exists k :: 0 <= k < n && Lo(d, k) <= x <= Hi(d, k) {
        RunHolds(Lo(d, n - 1), Hi(d, n - 1), x);
      }
      forall i, j | 0 <= i < |u| && 0 <= j < |r| ensures u[i] < r[j] {
        assert u[i] in u;
      }
      IncreasingJoin(u, r);
    }
  }

  lemma RunHolds(lo: int, hi: int, x: int)
    ensures x in Run(lo, hi) <==> lo <= x <= hi
  {
    if lo <= x <= hi { assert Run(lo, hi)[x - lo] == x; }
  }

  lemma IncreasingJoin(u: seq<int>, r: seq<int>)
    requires Increasing(u) && Increasing(r) && forall i, j :: 0 <= i < |u| && 0 <= j < |r| ==> u[i] < r[j]
    ensures Increasing(u + r)
  {
  }

  /**
   * internal_size: a range that repeats the one before it is not counted. The code's sum, size32, is
   * the number of integers exactly when that number fits 32 bits.
   */
  method InternalSize(a: array<int>, len: nat) returns (size: int, size32: int)
    requires len == a.Length && IsStored(a[..]) && forall i :: 0 <= i < len ==> IsInt32(a[i])
    ensures size == |Unpacked(a[..], len / 2)| && size32 == Wrap32(size)
    ensures size32 == size <==> size <= INT_MAX
  {
    hide Unpacked, IsStored, Wrap32;
    size, size32 := 0, 0;
    var i, k := 0, 0;
    ghost var d := a[..];
    EvenLength(d);
    UnpackedNone(d);
    NothingWraps();
    while i < len
      invariant i == 2 * k && 0 <= k <= len / 2
      invariant size == |Unpacked(d, k)| && size32 == Wrap32(size)
      invariant k > 0 ==> size <= Hi(d, k - 1) + 0x8000_0001
    {
      UnpackedStep(d, k);
      if i == 0 || a[i] != a[i - 1] {
        SumWraps(size, a[i + 1], a[i]);
        size, size32 := size + (a[i + 1] - a[i] + 1), Wrap32(size32 + Wrap32(Wrap32(a[i + 1] - a[i]) + 1));
      }
      i := i + 2;
      k := k + 1;
    }
    FitsIff(size);
  }

  lemma NothingWraps()
    ensures Wrap32(0) == 0
  {
  }

  lemma SumWraps(size: int, hi: int, lo: int)
    ensures Wrap32(Wrap32(size) + Wrap32(Wrap32(hi - lo) + 1)) == Wrap32(size + (hi - lo + 1))
  {
  }

  lemma FitsIff(size: int)
    requires 0 <= size <= 0x1_0000_0000
    ensures Wrap32(size) == size <==> size <= INT_MAX
  {
  }

  lemma {:induction false} UnpackedGrows(d: seq<int>, m: nat, n: nat)
    requires m <= n && 2 * n <= |d|
    ensures |Unpacked(d, m)| <= |Unpacked(d, n)|
    decreases n
  {
    if m < n { UnpackedGrows(d, m, n - 1); }
  }

  lemma UnpackedNone(d: seq<int>)
    ensures Unpacked(d, 0) == []
  {
  }

  lemma UnpackedStep(d: seq<int>, k: nat)
    requires IsStored(d) && 2 * k + 1 < |d|
    ensures Unpacked(d, k + 1) == Unpacked(d, k) + Run(Lo(d, k), Hi(d, k)) && Lo(d, k) <= Hi(d, k)
    ensures k > 0 ==> Hi(d, k - 1) < Lo(d, k)
  {
  }

  lemma LastUnpacked(d: seq<int>, k: nat)
    requires IsStored(d) && 0 < k && 2 * k < |d|
    ensures var u := Unpacked(d, k); |u| > 0 && u[|u| - 1] == Hi(d, k - 1) < Lo(d, k)
  {
  }

  /** The inner loop: the integers lo .. hi of range k, except one that was just written. */
  method EmitRun(r: array<int>, start: nat, ghost d: seq<int>, k: nat, lo: int, hi: int) returns (dr: nat)
    requires IsStored(d) && 2 * k + 1 < |d| && lo == Lo(d, k) && hi == Hi(d, k)
    requires -0x8000_0000 <= lo && hi < INT_MAX
    requires start == |Unpacked(d, k)| && |Unpacked(d, k + 1)| <= r.Length && r[..start] == Unpacked(d, k)
    modifies r
    ensures dr == |Unpacked(d, k + 1)| && r[..dr] == Unpacked(d, k + 1)
  {
    hide *;
    dr := start;
    var j := lo;
    ghost var u := Unpacked(d, k);
    UnpackedStep(d, k);
    RunSize(lo, hi);
    if k > 0 { LastUnpacked(d, k); }
    while j <= hi
      invariant lo <= j <= hi + 1 && dr == start + (j - lo)
      invariant r[..start] == u
      invariant forall i :: start <= i < dr ==> r[i] == lo + (i - start)
    {
      assert start > 0 ==> r[start - 1] == u[start - 1];
      NoWrap(j);
      if k == 0 || r[dr - 1] != j {
        r[dr] := j;
        dr := dr + 1;
      }
      j := Wrap32(j + 1);
    }
    SliceIsRun(r[..dr], u, lo, hi);
  }

  lemma RunSize(lo: int, hi: int)
    requires lo <= hi
    ensures |Run(lo, hi)| == hi - lo + 1
  {
  }

  lemma SliceIsRun(s: seq<int>, u: seq<int>, lo: int, hi: int)
    requires lo <= hi && |s| == |u| + hi - lo + 1 && s[..|u|] == u
    requires forall i :: |u| <= i < |s| ==> s[i] == lo + (i - |u|)
    ensures s == u + Run(lo, hi)
  {
    assert s == s[..|u|] + s[|u|..];
    assert s[|u|..] == Run(lo, hi);
  }

  lemma NoWrap(j: int)
    requires -0x8000_0000 <= j < INT_MAX
    ensures Wrap32(j + 1) == j + 1
  {
  }

  /** The counter of that loop passes hi, and the loop ends, exactly when hi is not the largest integer. */
  lemma RunEndsIff(lo: int, hi: int)
    requires IsInt32(lo) && IsInt32(hi)
    ensures (exists n: nat :: Counter(lo, n) > hi) <==> hi < INT_MAX
  {
    if hi < INT_MAX {
      assert Counter(lo, INT_MAX - lo) == INT_MAX;
    }
  }

  /** The counter after n increments. */
  function Counter(lo: int, n: nat): int {
    Wrap32(lo + n)
  }

  /** The bounds are 32-bit integers and none is the largest one. */
  predicate BelowMax(d: seq<int>) {
    forall i :: 0 <= i < |d| ==> IsInt32(d[i]) && d[i] < INT_MAX
  }

  /** g_int_decompress on a stored key of at least 2*MAXNUMRANGE integers. */
  method Decompress(din: array<int>) returns (r: array<int>)
    requires 2 * MAXNUMRANGE <= din.Length && IsStored(din[..]) && BelowMax(din[..])
    ensures r[..] == Unpacked(din[..], din.Length / 2)
    ensures Increasing(r[..])
    ensures forall x :: x in r[..] <==> x in Ints(RangesOf(din[..]))
  {
    hide Increasing, IsStored, Unpacked, Ints, RangesOf;
    ghost var d, n := din[..], din.Length / 2;
    EvenLength(d);
    var lenin := din.Length;
    var lenr, _ := InternalSize(din, lenin);
    r := new int[lenr];
    var dr: nat := 0;
    var i, k := 0, 0;
    UnpackedNone(d);
    assert r[..0] == [];
    while i < lenin
      invariant i == 2 * k && 0 <= k <= n
      invariant dr == |Unpacked(d, k)| <= lenr
      invariant r[..dr] == Unpacked(d, k)
    {
      UnpackedGrows(d, k + 1, n);
      dr := EmitRun(r, dr, d, k, din[i], din[i + 1]);
      i := i + 2;
      k := k + 1;
    }
    assert r[..] == r[..dr];
    UnpackedMeaning(d);
  }

  lemma EvenLength(d: seq<int>)
    requires IsStored(d)
    ensures |d| == 2 * (|d| / 2)
  {
  }

  lemma UnpackedMeaning(d: seq<int>)
    requires IsStored(d)
    ensures Increasing(Unpacked(d, |d| / 2))
    ensures forall x :: x in Unpacked(d, |d| / 2) <==> x in Ints(RangesOf(d))
  {
    hide *;
    assert 2 * (|d| / 2) <= |d|;
    UnpackedSorted(d, |d| / 2);
    SameIntegers(d);
  }

  lemma SameIntegers(d: seq<int>)
    requires IsStored(d)
    ensures forall x :: x in Unpacked(d, |d| / 2) <==> x in Ints(RangesOf(d))
  {
    hide Unpacked, Ints, IsStored;
    UnpackedSorted(d, |d| / 2);
    var c := RangesOf(d);
    forall x ensures x in Unpacked(d, |d| / 2) <==> x in Ints(c) {
      if k: nat :| k < |d| / 2 && Lo(d, k) <= x <= Hi(d, k) { assert c[k].lo <= x <= c[k].hi; }
      if k: nat :| k < |c| && c[k].lo <= x <= c[k].hi { assert Lo(d, k) <= x <= Hi(d, k); }
    }
  }
}
