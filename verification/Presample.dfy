/**
 * The lazy random trie of pip_plugin/src/list_utils.c: a generator of a sorted list of
 * random 32-bit numbers that keeps one counter a level instead of the numbers.
 */
module Presample {
  import opened Basics

  const BITS := 32

  /** The random bits GET_BIT will deliver, in order. */
  type Bits = nat -> bool

  /** The number of ones among the bits pos .. pos+c. */
  function Ones(s: Bits, pos: nat, c: int): (n: nat)
    ensures c <= 0 ==> n == 0
    ensures c > 0 ==> n <= c
    decreases c
  {
    if c <= 0 then 0 else (if s(pos) then 1 else 0) + Ones(s, pos + 1, c - 1)
  }

  // ---------------------------------------------------------------- the eager trie

  datatype Output = Output(vals: seq<nat>, pos: nat)

  /**
   * c numbers with the given leading bits and b bits to choose: each draws its next bit,
   * the zeros form the left subtree, the ones the right subtree, which is made later.
   */
  function Gen(b: nat, prefix: nat, c: int, s: Bits, pos: nat): Output
    decreases b
  {
    if c <= 0 then Output([], pos)
    else if b == 0 then Output(seq(c, i => prefix), pos)
    else
      var ones := Ones(s, pos, c);
      var left := Gen(b - 1, 2 * prefix, c - ones, s, pos + c);
      var right := Gen(b - 1, 2 * prefix + 1, ones, s, left.pos);
      Output(left.vals + right.vals, right.pos)
  }

  predicate Sorted(v: seq<nat>) {
    forall i, j :: 0 <= i < j < |v| ==> v[i] <= v[j]
  }

  predicate Within(v: seq<nat>, lo: nat, hi: nat) {
    forall i :: 0 <= i < |v| ==> lo <= v[i] < hi
  }

  /** The range of a prefix is the ranges of its two extensions, one after the other. */
  lemma Halves(prefix: nat, b: nat)
    requires b > 0
    ensures prefix * Pow2(b) == 2 * prefix * Pow2(b - 1)
    ensures (2 * prefix + 1) * Pow2(b - 1) == 2 * prefix * Pow2(b - 1) + Pow2(b - 1)
    ensures (prefix + 1) * Pow2(b) == (2 * prefix + 1 + 1) * Pow2(b - 1)
    ensures (2 * prefix + 1 + 1) * Pow2(b - 1) == (2 * prefix + 1) * Pow2(b - 1) + Pow2(b - 1)
  {
  }

  /** The eager trie holds c numbers, in order, all below its prefix. */
  lemma {:induction false} GenSorted(b: nat, prefix: nat, c: int, s: Bits, pos: nat)
    ensures var v := Gen(b, prefix, c, s, pos).vals;
      && |v| == (if c <= 0 then 0 else c)
      && Sorted(v) && Within(v, prefix * Pow2(b), (prefix + 1) * Pow2(b))
    decreases b
  {
    hide Gen, Ones, Pow2, Sorted, Within;
    if c > 0 && b > 0 {
      var ones := Ones(s, pos, c);
      var left := Gen(b - 1, 2 * prefix, c - ones, s, pos + c);
      var right := Gen(b - 1, 2 * prefix + 1, ones, s, left.pos);
      GenSorted(b - 1, 2 * prefix, c - ones, s, pos + c);
      GenSorted(b - 1, 2 * prefix + 1, ones, s, left.pos);
      GenParts(b, prefix, c, s, pos);
      Halves(prefix, b);
      SortedJoin(left.vals, right.vals, prefix * Pow2(b), (2 * prefix + 1) * Pow2(b - 1), (prefix + 1) * Pow2(b));
    } else {
      GenFlat(b, prefix, c, s, pos);
    }
  }

  lemma GenParts(b: nat, prefix: nat, c: int, s: Bits, pos: nat)
    requires c > 0 && b > 0
    ensures var ones := Ones(s, pos, c);
      var left := Gen(b - 1, 2 * prefix, c - ones, s, pos + c);
      var right := Gen(b - 1, 2 * prefix + 1, ones, s, left.pos);
      Gen(b, prefix, c, s, pos) == Output(left.vals + right.vals, right.pos)
  {
    hide Ones;
  }

  /** No numbers, or no bits left to choose. */
  lemma GenFlat(b: nat, prefix: nat, c: int, s: Bits, pos: nat)
    requires c <= 0 || b == 0
    ensures var v := Gen(b, prefix, c, s, pos).vals;
      |v| == (if c <= 0 then 0 else c) && Sorted(v) && Within(v, prefix * Pow2(b), (prefix + 1) * Pow2(b))
  {
  }

  lemma SortedJoin(u: seq<nat>, v: seq<nat>, lo: nat, mid: nat, hi: nat)
    requires Sorted(u) && Sorted(v) && Within(u, lo, mid) && Within(v, mid, hi) && lo <= mid <= hi
    ensures Sorted(u + v) && Within(u + v, lo, hi)
  {
  }

  ghost predicate Delivers(s: Bits, pos: nat, w: seq<bool>) {
    forall i :: pos <= i < pos + |w| ==> s(i) == w[i - pos]
  }

  /** Nothing is lost by being lazy: every sorted list is the output for some random bits. */
  lemma {:induction false} EverySortedList(b: nat, prefix: nat, v: seq<nat>) returns (w: seq<bool>)
    requires Sorted(v) && Within(v, prefix * Pow2(b), (prefix + 1) * Pow2(b))
    ensures forall s, pos: nat :: Delivers(s, pos, w) ==> Gen(b, prefix, |v|, s, pos) == Output(v, pos + |w|)
    decreases b
  {
    w := [];
    if b == 0 {
      assert v == seq(|v|, i => prefix);
    } else if |v| > 0 {
      var half := (2 * prefix + 1) * Pow2(b - 1);
      Halves(prefix, b);
      var k := FirstAtLeast(v, half);
      assert Within(v[..k], 2 * prefix * Pow2(b - 1), half) && Within(v[k..], half, (2 * prefix + 1 + 1) * Pow2(b - 1));
      var wl := EverySortedList(b - 1, 2 * prefix, v[..k]);
      var wr := EverySortedList(b - 1, 2 * prefix + 1, v[k..]);
      var draw := seq(|v|, i => i >= k);
      w := draw + wl + wr;
      forall s, pos: nat | Delivers(s, pos, w)
        ensures Gen(b, prefix, |v|, s, pos) == Output(v, pos + |w|)
      {
        DrawThenHalves(b, prefix, v, k, wl, wr, s, pos);
      }
    }
  }

  lemma DrawThenHalves(b: nat, prefix: nat, v: seq<nat>, k: nat, wl: seq<bool>, wr: seq<bool>, s: Bits, pos: nat)
    requires b > 0 && k <= |v| && |v| > 0
    requires Delivers(s, pos, seq(|v|, i => i >= k) + wl + wr)
    requires forall s, pos: nat :: Delivers(s, pos, wl) ==> Gen(b - 1, 2 * prefix, k, s, pos) == Output(v[..k], pos + |wl|)
    requires forall s, pos: nat :: Delivers(s, pos, wr) ==>
               Gen(b - 1, 2 * prefix + 1, |v| - k, s, pos) == Output(v[k..], pos + |wr|)
    ensures Gen(b, prefix, |v|, s, pos) == Output(v, pos + |v| + |wl| + |wr|)
  {
    hide Delivers, Ones;
    var draw := seq(|v|, i => i >= k);
    DeliversParts(s, pos, draw + wl, wr);
    DeliversParts(s, pos, draw, wl);
    DrawOnes(s, pos, |v|, k);
    assert v == v[..k] + v[k..];
  }

  lemma DeliversParts(s: Bits, pos: nat, u: seq<bool>, w: seq<bool>)
    requires Delivers(s, pos, u + w)
    ensures Delivers(s, pos, u) && Delivers(s, pos + |u|, w)
  {
    var x := u + w;
    forall i | pos <= i < pos + |u| ensures s(i) == u[i - pos] { assert x[i - pos] == u[i - pos]; }
    forall i | pos + |u| <= i < pos + |u| + |w| ensures s(i) == w[i - (pos + |u|)] { assert x[i - pos] == w[i - pos - |u|]; }
  }

  lemma DrawOnes(s: Bits, pos: nat, n: nat, k: nat)
    requires k <= n && Delivers(s, pos, seq(n, i => i >= k))
    ensures Ones(s, pos, n) == n - k
  {
    OnesOfDraw(s, pos, n, k);
  }

  lemma FirstAtLeast(v: seq<nat>, x: nat) returns (k: nat)
    requires Sorted(v)
    ensures k <= |v| && (forall i :: 0 <= i < k ==> v[i] < x) && (forall i :: k <= i < |v| ==> v[i] >= x)
  {
    k := 0;
    while k < |v| && v[k] < x
      invariant k <= |v| && forall i :: 0 <= i < k ==> v[i] < x
    {
      k := k + 1;
    }
  }

  lemma {:induction false} OnesOfDraw(s: Bits, pos: nat, n: nat, k: nat)
    requires k <= n && forall i :: pos <= i < pos + n ==> s(i) == (i - pos >= k)
    ensures Ones(s, pos, n) == n - k
    decreases n
  {
    if n > 0 {
      OnesOfDraw(s, pos + 1, n - 1, if k == 0 then 0 else k - 1);
    }
  }

  // ---------------------------------------------------------------- bits of the path

  /** path >> i */
  function Shr(path: nat, i: nat): nat {
    DivNotNegative(path, Pow2(i));
    path / Pow2(i)
  }

  lemma DivNotNegative(a: nat, b: nat)
    requires b > 0
    ensures a / b >= 0
  {
    var q := a / b;
    assert a == q * b + a % b;
    MulGrows(q, b);
  }

  /** (path >> i) & 1 */
  function Bit(path: nat, i: nat): nat {
    Shr(path, i) % 2
  }

  /** path | (1 << i) */
  function SetBit(path: nat, i: nat): nat {
    if Bit(path, i) == 1 then path else path + Pow2(i)
  }

  /** ((path >> i) | 1) << i */
  function SetAndClear(path: nat, i: nat): nat {
    (if Bit(path, i) == 1 then Shr(path, i) else Shr(path, i) + 1) * Pow2(i)
  }

  /** The i lowest bits are zero. */
  predicate LowClear(path: nat, i: nat) {
    path % Pow2(i) == 0
  }

  lemma ShrTwice(path: nat, i: nat)
    ensures Shr(path, i + 1) == Shr(path, i) / 2
  {
    var p := Pow2(i);
    var q, r := path / p, path % p;
    assert path == q * p + r && 0 <= r < p;
    hide Pow2;
    var h, l := q / 2, q % 2;
    assert q == 2 * h + l;
    Distribute(h, l, p);
    DivUnique(path, 2 * p, h, if l == 0 then r else p + r);
  }

  lemma Distribute(h: int, l: int, p: int)
    requires l == 0 || l == 1
    ensures (2 * h + l) * p == h * (2 * p) + if l == 0 then 0 else p
  {
  }

  lemma DivUnique(x: int, d: int, q: int, r: int)
    requires d > 0 && x == q * d + r && 0 <= r < d
    ensures x / d == q && x % d == r
  {
    assert x == x / d * d + x % d;
    var k := q - x / d;
    assert k * d == x % d - r;
    MulGrows(k, d);
  }

  lemma MulGrows(k: int, d: int)
    requires d > 0
    ensures k >= 1 ==> k * d >= d
    ensures k <= -1 ==> k * d <= -d
  {
    if k >= 1 { assert (k - 1) * d >= 0; }
    if k <= -1 { assert (-1 - k) * d >= 0; }
  }

  lemma {:induction false} ShrAbove(x: nat, y: nat, i: nat, j: nat)
    requires i <= j && Shr(x, i) == Shr(y, i)
    ensures Shr(x, j) == Shr(y, j)
    decreases j
  {
    if i < j {
      ShrAbove(x, y, i, j - 1);
      ShrTwice(x, j - 1);
      ShrTwice(y, j - 1);
    }
  }

  lemma SetAndClearParts(path: nat, i: nat)
    requires Bit(path, i) == 0
    ensures var p := SetAndClear(path, i);
      && Shr(p, i) == Shr(path, i) + 1 && LowClear(p, i) && Shr(p, i + 1) == Shr(path, i + 1) && p > path
  {
    var p := SetAndClear(path, i);
    assert path == Shr(path, i) * Pow2(i) + path % Pow2(i);
    DivUnique(p, Pow2(i), Shr(path, i) + 1, 0);
    ShrTwice(path, i);
    ShrTwice(p, i);
  }

  lemma SetBitParts(path: nat, i: nat)
    requires Bit(path, i) == 0
    ensures var p := SetBit(path, i);
      && Shr(p, i) == Shr(path, i) + 1 && Shr(p, i + 1) == Shr(path, i + 1)
      && (LowClear(path, i) ==> LowClear(p, i))
  {
    var p := SetBit(path, i);
    assert path == Shr(path, i) * Pow2(i) + path % Pow2(i);
    DivUnique(p, Pow2(i), Shr(path, i) + 1, path % Pow2(i));
    ShrTwice(path, i);
    ShrTwice(p, i);
  }

  /** When the i+1 lowest bits are clear, so is bit i, and the i lowest bits. */
  lemma ClearBelow(path: nat, i: nat)
    requires LowClear(path, i + 1)
    ensures Bit(path, i) == 0 && LowClear(path, i) && Shr(path, i) == 2 * Shr(path, i + 1)
  {
    var h := Shr(path, i + 1);
    assert path == h * (2 * Pow2(i));
    DivUnique(path, Pow2(i), 2 * h, 0);
  }

  // ---------------------------------------------------------------- the lazy trie

  /**
   * What a state still has to deliver below its lowest `b` bits, when the subtree of the
   * lowest `base` bits has not been opened yet: the rest of the current branch, and behind
   * it one postponed right branch for every bit the path has not set.
   */
  ghost function Rest(b: nat, base: nat, tb: seq<int>, path: nat, count: int, s: Bits, pos: nat): Output
    requires base <= b <= |tb|
    decreases b
  {
    if b == base then Gen(base, Shr(path, base), count, s, pos)
    else
      var inner := Rest(b - 1, base, tb, path, count, s, pos);
      if Bit(path, b - 1) == 1 then inner
      else
        var right := Gen(b - 1, Shr(path, b - 1) + 1, tb[b - 1], s, inner.pos);
        Output(inner.vals + right.vals, right.pos)
  }

  lemma RestUnopened(b: nat, tb: seq<int>, path: nat, count: int, s: Bits, pos: nat)
    requires b <= |tb|
    ensures Rest(b, b, tb, path, count, s, pos) == Gen(b, Shr(path, b), count, s, pos)
  {
  }

  /** The rest above level i depends on the subtree below only through what that delivers. */
  lemma {:induction false} RestAbove(b: nat, i: nat, base: nat, tb: seq<int>, path: nat, count: int, pos: nat,
                                     base': nat, tb': seq<int>, path': nat, count': int, pos': nat, s: Bits)
    requires base <= i <= b <= |tb| && base' <= i && |tb'| == |tb|
    requires tb[i..] == tb'[i..] && Shr(path, i) == Shr(path', i)
    requires Rest(i, base, tb, path, count, s, pos) == Rest(i, base', tb', path', count', s, pos')
    ensures Rest(b, base, tb, path, count, s, pos) == Rest(b, base', tb', path', count', s, pos')
    decreases b
  {
    hide Shr, Pow2;
    if b > i {
      RestAbove(b - 1, i, base, tb, path, count, pos, base', tb', path', count', pos', s);
      ShrAbove(path, path', i, b - 1);
      assert tb[b - 1] == tb[i..][b - 1 - i] == tb'[b - 1];
    }
  }

  lemma ZeroPath(i: nat)
    ensures Shr(0, i) == 0 && LowClear(0, i)
  {
    DivUnique(0, Pow2(i), 0, 0);
  }

  /**
   * Opening a subtree one level, as the loops of init and find_next do: the ones are
   * postponed behind the left branch, or entered at once when nothing goes left.
   */
  lemma OpenLeft(i: nat, tb: seq<int>, path: nat, count: int, s: Bits, pos: nat)
    requires i < |tb| && LowClear(path, i + 1)
    requires tb[i] == Ones(s, pos, count)
    ensures Gen(i + 1, Shr(path, i + 1), count, s, pos) ==
              Rest(i + 1, i, tb, path, count - tb[i], s, if count > 0 then pos + count else pos)
  {
    hide Shr, LowClear, Pow2, Ones;
    ClearBelow(path, i);
    if count <= 0 {
      assert Gen(i, Shr(path, i), count - tb[i], s, pos) == Output([], pos);
      assert Gen(i, Shr(path, i) + 1, tb[i], s, pos) == Output([], pos);
    }
  }

  lemma OpenRight(i: nat, tb: seq<int>, path: nat, count: int, s: Bits, pos: nat)
    requires i < |tb| && LowClear(path, i + 1)
    requires count > 0 && Ones(s, pos, count) == count
    ensures Gen(i + 1, Shr(path, i + 1), count, s, pos) ==
              Rest(i + 1, i, tb, SetBit(path, i), count, s, pos + count)
  {
    hide Shr, LowClear, Pow2, Ones, SetBit, Gen;
    ClearBelow(path, i);
    SetBitParts(path, i);
    RestUnopened(i, tb, SetBit(path, i), count, s, pos + count);
    AllRight(i, Shr(path, i + 1), count, s, pos);
  }

  /** When every bit drawn is a one, nothing goes left. */
  lemma AllRight(i: nat, prefix: nat, count: int, s: Bits, pos: nat)
    requires count > 0 && Ones(s, pos, count) == count
    ensures Gen(i + 1, prefix, count, s, pos) == Gen(i, 2 * prefix + 1, count, s, pos + count)
  {
    hide Ones;
    assert Gen(i, 2 * prefix, 0, s, pos + count) == Output([], pos + count);
    var right := Gen(i, 2 * prefix + 1, count, s, pos + count);
    assert [] + right.vals == right.vals;
  }

  /** An empty branch has drawn nothing. */
  lemma {:induction false} RestEmpty(b: nat, tb: seq<int>, path: nat, count: int, s: Bits, pos: nat)
    requires b <= |tb| && Rest(b, 0, tb, path, count, s, pos).vals == []
    ensures Rest(b, 0, tb, path, count, s, pos).pos == pos
    decreases b
  {
    hide Shr, Pow2, Ones;
    if b > 0 {
      RestEmpty(b - 1, tb, path, count, s, pos);
      var inner := Rest(b - 1, 0, tb, path, count, s, pos);
      if Bit(path, b - 1) != 1 { GenSorted(b - 1, Shr(path, b - 1) + 1, tb[b - 1], s, inner.pos); }
    } else {
      GenSorted(0, Shr(path, 0), count, s, pos);
    }
  }

  /** Behind an empty branch there is nothing, unless a right branch was postponed. */
  lemma RestBehindEmpty(b: nat, tb: seq<int>, path: nat, count: int, s: Bits, pos: nat)
    requires b < |tb| && tb[b] >= 0 && Rest(b, 0, tb, path, count, s, pos) == Output([], pos)
    ensures Rest(b + 1, 0, tb, path, count, s, pos) ==
              if Bit(path, b) == 1 then Output([], pos) else Gen(b, Shr(path, b) + 1, tb[b], s, pos)
    ensures |Gen(b, Shr(path, b) + 1, tb[b], s, pos).vals| == tb[b]
    ensures tb[b] == 0 ==> Gen(b, Shr(path, b) + 1, tb[b], s, pos) == Output([], pos)
  {
    hide Shr, Pow2, Ones;
    var g := Gen(b, Shr(path, b) + 1, tb[b], s, pos);
    assert [] + g.vals == g.vals;
    GenSorted(b, Shr(path, b) + 1, tb[b], s, pos);
  }

  lemma RestNonEmpty(b: nat, tb: seq<int>, path: nat, count: int, s: Bits, pos: nat)
    requires b < |tb| && Rest(b, 0, tb, path, count, s, pos).vals != []
    ensures Rest(b + 1, 0, tb, path, count, s, pos).vals != []
  {
    hide Shr, Pow2, Gen;
  }

  lemma EmptyLeaf(tb: seq<int>, path: nat, count: int, s: Bits, pos: nat)
    requires count <= 0
    ensures Rest(0, 0, tb, path, count, s, pos) == Output([], pos)
  {
  }

  /** A branch whose right half has just been entered. */
  lemma RestEntered(b: nat, base: nat, tb: seq<int>, path: nat, count: int, s: Bits, pos: nat)
    requires base <= b < |tb| && Bit(path, b) == 1
    ensures Rest(b + 1, base, tb, path, count, s, pos) == Rest(b, base, tb, path, count, s, pos)
  {
    hide Shr, Pow2, Gen;
  }

  /** The current path comes first. */
  lemma {:induction false} RestHead(b: nat, tb: seq<int>, path: nat, count: int, s: Bits, pos: nat)
    requires b <= |tb| && count > 0
    ensures var r, r' := Rest(b, 0, tb, path, count, s, pos), Rest(b, 0, tb, path, count - 1, s, pos);
      r.vals == [path] + r'.vals && r.pos == r'.pos
    decreases b
  {
    if b == 0 {
      assert Shr(path, 0) == path;
      assert seq(count, i => path) == [path] + seq(count - 1, i => path);
    } else {
      hide Shr, Pow2, Gen;
      RestHead(b - 1, tb, path, count, s, pos);
    }
  }

  lemma ShrLess(x: nat, y: nat, i: nat)
    requires Shr(x, i) < Shr(y, i)
    ensures x < y
  {
    var p := Pow2(i);
    assert x == Shr(x, i) * p + x % p && y == Shr(y, i) * p + y % p;
    assert (Shr(y, i) - Shr(x, i)) * p >= p by { MulGrows(Shr(y, i) - Shr(x, i), p); }
  }

  /** curr_count and the postponed branches count the numbers still to come. */
  function Pending(b: nat, tb: seq<int>, path: nat): int
    requires b <= |tb|
  {
    if b == 0 then 0 else Pending(b - 1, tb, path) + (if Bit(path, b - 1) == 1 then 0 else tb[b - 1])
  }

  lemma {:induction false} RestCounts(b: nat, tb: seq<int>, path: nat, count: int, s: Bits, pos: nat)
    requires b <= |tb| && forall i :: 0 <= i < b ==> tb[i] >= 0
    ensures |Rest(b, 0, tb, path, count, s, pos).vals| == Pending(b, tb, path) + (if count > 0 then count else 0)
    ensures Pending(b, tb, path) >= 0
    decreases b
  {
    hide Shr, Pow2, Gen;
    if b == 0 {
      GenSorted(0, Shr(path, 0), count, s, pos);
    } else {
      RestCounts(b - 1, tb, path, count, s, pos);
      var inner := Rest(b - 1, 0, tb, path, count, s, pos);
      GenSorted(b - 1, Shr(path, b - 1) + 1, tb[b - 1], s, inner.pos);
    }
  }

  /** What a state has still to deliver comes in order, and not before its path. */
  lemma {:induction false} RestSorted(b: nat, tb: seq<int>, path: nat, count: int, s: Bits, pos: nat)
    requires b <= |tb|
    ensures var v := Rest(b, 0, tb, path, count, s, pos).vals;
      Sorted(v) && Within(v, path, (Shr(path, b) + 1) * Pow2(b)) && path < (Shr(path, b) + 1) * Pow2(b)
    decreases b
  {
    hide Shr, Gen, Sorted, Within, Pow2;
    ShrBounds(path, b);
    if b == 0 {
      GenSorted(0, Shr(path, 0), count, s, pos);
    } else {
      RestSorted(b - 1, tb, path, count, s, pos);
      var inner := Rest(b - 1, 0, tb, path, count, s, pos);
      ShrTwice(path, b - 1);
      PrefixEnds(Shr(path, b - 1), b);
      if Bit(path, b - 1) != 1 {
        var next := Shr(path, b - 1) + 1;
        var right := Gen(b - 1, next, tb[b - 1], s, inner.pos);
        GenSorted(b - 1, next, tb[b - 1], s, inner.pos);
        SortedJoin(inner.vals, right.vals, path, next * Pow2(b - 1), (next + 1) * Pow2(b - 1));
      }
    }
  }

  lemma ShrBounds(path: nat, b: nat)
    ensures path < (Shr(path, b) + 1) * Pow2(b)
    ensures b == 0 ==> Shr(path, b) * Pow2(b) == path
  {
    assert path == Shr(path, b) * Pow2(b) + path % Pow2(b);
  }

  lemma PrefixEnds(p: nat, b: nat)
    requires b > 0
    ensures p % 2 == 1 ==> (p + 1) * Pow2(b - 1) == (p / 2 + 1) * Pow2(b)
    ensures p % 2 != 1 ==> (p + 2) * Pow2(b - 1) == (p / 2 + 1) * Pow2(b)
    ensures p % 2 != 1 ==> (p + 1) * Pow2(b - 1) <= (p + 2) * Pow2(b - 1)
  {
    var h, q := p / 2, Pow2(b - 1);
    assert p == 2 * h + p % 2;
    assert (2 * h + 2) * q == (h + 1) * (2 * q);
  }

  class PresampleTree {
    const trackback: array<int>
    var path: nat
    var currCount: int
    const rand: Bits
    var randPos: nat

    constructor (bits: Bits)
      ensures trackback.Length == BITS && fresh(trackback) && rand == bits && randPos == 0
    {
      trackback := new int[BITS];
      path, currCount, rand, randPos := 0, 0, bits, 0;
    }

    ghost predicate Valid()
      reads this, trackback
    {
      && trackback.Length == BITS
      && (forall i :: 0 <= i < BITS ==> trackback[i] >= 0)
      && Shr(path, BITS) == 0
    }

    /** The numbers the generator will deliver from here on. */
    ghost function Remaining(): Output
      requires Valid()
      reads this, trackback
    {
      Below(BITS)
    }

    /** The part of it in the subtree of the b lowest bits. */
    ghost function Below(b: nat): Output
      requires Valid() && b <= BITS
      reads this, trackback
    {
      Rest(b, 0, trackback[..], path, currCount, rand, randPos)
    }

    method CountBits(size: int) returns (cnt: int)
      modifies `randPos
      ensures cnt == Ones(rand, old(randPos), size)
      ensures randPos == old(randPos) + (if size > 0 then size else 0)
    {
      cnt := 0;
      var left := size;
      while left > 0
        invariant size > 0 ==> 0 <= left <= size && randPos == old(randPos) + (size - left)
        invariant size <= 0 ==> left == size && randPos == old(randPos)
        invariant cnt + Ones(rand, randPos, left) == Ones(rand, old(randPos), size)
      {
        cnt := cnt + if rand(randPos) then 1 else 0;
        randPos := randPos + 1;
        left := left - 1;
      }
    }

    /** Draws bit i for all numbers of the current branch and postpones those with a one. */
    method DrawLevel(i: nat)
      requires trackback.Length == BITS && i < BITS && LowClear(path, i + 1)
      modifies `randPos, `currCount, trackback
      ensures trackback[..] == old(trackback[..])[i := Ones(rand, old(randPos), old(currCount))]
      ensures currCount == old(currCount) - trackback[i]
      ensures randPos == old(randPos) + (if old(currCount) > 0 then old(currCount) else 0)
      ensures Gen(i + 1, Shr(path, i + 1), old(currCount), rand, old(randPos)) ==
                Rest(i + 1, i, trackback[..], path, currCount, rand, randPos)
    {
      hide Shr, LowClear, Pow2, Ones, Rest, Gen;
      var ones := CountBits(currCount);
      trackback[i] := ones;
      currCount := currCount - ones;
      OpenLeft(i, trackback[..], path, old(currCount), rand, old(randPos));
    }

    /** pip_presample_tree_init */
    method Init(size: int)
      requires trackback.Length == BITS
      modifies `path, `currCount, `randPos, trackback
      ensures Valid()
      ensures Remaining() == Gen(BITS, 0, size, rand, old(randPos))
    {
      hide Shr, LowClear, Ones, Gen, Rest;
      for k := 0 to BITS
        invariant forall j :: 0 <= j < k ==> trackback[j] == 0
        modifies trackback
      {
        trackback[k] := 0;
      }
      path := 0;
      currCount := size;
      var i := BITS;
      ZeroPath(BITS);
      RestUnopened(BITS, trackback[..], 0, size, rand, randPos);
      ghost var all := Gen(BITS, 0, size, rand, randPos);
      while i > 0
        invariant 0 <= i <= BITS && path == 0
        invariant forall k :: 0 <= k < BITS ==> trackback[k] >= 0
        invariant Rest(BITS, i, trackback[..], 0, currCount, rand, randPos) == all
        modifies `randPos, `currCount, trackback
      {
        i := i - 1;
        ghost var tb, count, pos := trackback[..], currCount, randPos;
        ZeroPath(i + 1);
        RestUnopened(i + 1, tb, 0, count, rand, pos);
        DrawLevel(i);
        RestAbove(BITS, i + 1, i + 1, tb, 0, count, pos, i, trackback[..], 0, currCount, randPos, rand);
      }
    }

    /** pip_presample_tree_find_next: moves to the next non-empty leaf within the bit+1 lowest bits. */
    method FindNext(bit: nat) returns (exhausted: bool)
      requires Valid() && bit < BITS && currCount <= 0
      modifies `path, `currCount, `randPos, trackback
      ensures Valid()
      ensures Shr(path, bit + 1) == old(Shr(path, bit + 1)) && trackback[bit + 1..] == old(trackback[bit + 1..])
      ensures exhausted <==> old(Below(bit + 1)).vals == []
      ensures Below(bit + 1) == old(Below(bit + 1))
      ensures exhausted <==> currCount <= 0
      ensures path >= old(path) && (!exhausted ==> path > old(path))
      decreases bit
    {
      hide Shr, LowClear, Ones, Gen, Rest, Pow2, SetBit, SetAndClear;
      ghost var tb0, path0, count0, pos0 := trackback[..], path, currCount, randPos;
      if bit > 0 {
        exhausted := FindNext(bit - 1);
        ShrTwice(path, bit);
        ShrTwice(path0, bit);
        assert trackback[bit..][1..] == trackback[bit + 1..] && tb0[bit..][1..] == tb0[bit + 1..];
        RestAbove(bit + 1, bit, 0, tb0, path0, count0, pos0, 0, trackback[..], path, currCount, randPos, rand);
        if exhausted {
          RestEmpty(bit, trackback[..], path, currCount, rand, randPos);
          RestBehindEmpty(bit, trackback[..], path, currCount, rand, randPos);
          if Bit(path, bit) == 1 || trackback[bit] == 0 {
            return true;
          }
          EnterRight(bit);
          return false;
        }
        RestNonEmpty(bit, trackback[..], path, currCount, rand, randPos);
        return false;
      } else {
        EmptyLeaf(tb0, path, currCount, rand, randPos);
        RestBehindEmpty(0, tb0, path, currCount, rand, randPos);
        if Bit(path, 0) == 1 {
          return true;
        }
        SetBitParts(path, 0);
        path := SetBit(path, 0);
        currCount := trackback[0];
        RestEntered(0, 0, tb0, path, currCount, rand, randPos);
        RestUnopened(0, tb0, path, currCount, rand, randPos);
        ShrLess(path0, path, 0);
        ShrAbove(path0, path, 1, BITS);
        assert trackback[..] == tb0;
        return currCount <= 0;
      }
    }

    /** The second half of find_next: the right branch of `bit` is entered and its lower bits drawn. */
    method EnterRight(bit: nat)
      requires Valid() && bit < BITS && Bit(path, bit) == 0 && trackback[bit] > 0
      modifies `path, `currCount, `randPos, trackback
      ensures Valid()
      ensures Shr(path, bit + 1) == old(Shr(path, bit + 1)) && trackback[bit + 1..] == old(trackback[bit + 1..])
      ensures Below(bit + 1) == old(Gen(bit, Shr(path, bit) + 1, trackback[bit], rand, randPos))
      ensures currCount > 0 && path > old(path)
    {
      hide Shr, LowClear, Ones, Gen, Rest, Pow2, SetBit, SetAndClear;
      ghost var all := Gen(bit, Shr(path, bit) + 1, trackback[bit], rand, randPos);
      SetAndClearParts(path, bit);
      ghost var h := Shr(path, bit) + 1;
      path := SetAndClear(path, bit);
      currCount := trackback[bit];
      ShrAbove(path, old(path), bit + 1, BITS);
      RestUnopened(bit, trackback[..], path, currCount, rand, randPos);
      var i := bit;
      while i > 0
        invariant 0 <= i <= bit && Valid() && currCount > 0
        invariant Shr(path, bit) == h && LowClear(path, i)
        invariant trackback[bit + 1..] == old(trackback[bit + 1..])
        invariant Rest(bit, i, trackback[..], path, currCount, rand, randPos) == all
      {
        i := i - 1;
        ghost var tb, path1, count, pos := trackback[..], path, currCount, randPos;
        ClearBelow(path, i);
        RestUnopened(i + 1, tb, path, count, rand, pos);
        DrawLevel(i);
        if currCount <= 0 {
          OpenRight(i, trackback[..], path, count, rand, pos);
          SetBitParts(path, i);
          path := SetBit(path, i);
          currCount := trackback[i];
        }
        RestAbove(bit, i + 1, i + 1, tb, path1, count, pos, i, trackback[..], path, currCount, randPos, rand);
        ShrAbove(path, path1, i + 1, bit);
        ShrAbove(path, path1, i + 1, BITS);
      }
      ShrTwice(path, bit);
      ShrTwice(old(path), bit);
      ShrLess(old(path), path, bit);
      RestEntered(bit, 0, trackback[..], path, currCount, rand, randPos);
    }

    /**
     * pip_presample_tree_next: the next number, or the end.  The flag is written only when
     * the current leaf is used up; otherwise the caller sees the value it passed in.
     */
    method Next(done0: bool) returns (v: nat, done: bool)
      requires Valid()
      modifies `path, `currCount, `randPos, trackback
      ensures Valid()
      ensures old(Remaining()).vals == [] ==> done && v == 0 && Remaining() == old(Remaining())
      ensures old(Remaining()).vals != [] ==>
                && v == old(Remaining()).vals[0]
                && Remaining() == Output(old(Remaining()).vals[1..], old(Remaining()).pos)
                && done == (done0 && old(currCount) > 0)
                && v == path
      ensures path >= old(path)
    {
      hide Shr, Ones, Gen, Rest, Pow2;
      done := done0;
      if currCount <= 0 {
        done := FindNext(BITS - 1);
        if done { return 0, done; }
      }
      RestHead(BITS, trackback[..], path, currCount, rand, randPos);
      currCount := currCount - 1;
      return path, done;
    }

    /** pip_presample_tree_save */
    method Save(tb: array<int>) returns (savedPath: nat, savedCount: int)
      requires Valid() && tb.Length == BITS && tb != trackback
      modifies tb
      ensures tb[..] == trackback[..] && savedPath == path && savedCount == currCount
    {
      for k := 0 to BITS
        invariant forall j :: 0 <= j < k ==> tb[j] == trackback[j]
      {
        tb[k] := trackback[k];
      }
      return path, currCount;
    }

    /**
     * pip_presample_tree_load: what was saved tells how many numbers are still to come, though not which;
     * they come in order and not before the saved path.
     */
    method Load(tb: array<int>, savedPath: nat, savedCount: int)
      requires trackback.Length == BITS && tb.Length == BITS && tb != trackback
      requires Shr(savedPath, BITS) == 0 && forall k :: 0 <= k < BITS ==> tb[k] >= 0
      modifies `path, `currCount, trackback
      ensures Valid()
      ensures trackback[..] == tb[..] && path == savedPath && currCount == savedCount
      ensures |Remaining().vals| == Pending(BITS, tb[..], savedPath) + (if savedCount > 0 then savedCount else 0)
      ensures Sorted(Remaining().vals) && Within(Remaining().vals, savedPath, Pow2(BITS))
    {
      hide Shr, Gen, Rest, Pow2, Sorted, Within;
      for k := 0 to BITS
        invariant forall j :: 0 <= j < k ==> trackback[j] == tb[j]
        modifies trackback
      {
        trackback[k] := tb[k];
      }
      path := savedPath;
      currCount := savedCount;
      assert trackback[..] == tb[..];
      RestCounts(BITS, trackback[..], path, currCount, rand, randPos);
      RestSorted(BITS, trackback[..], path, currCount, rand, randPos);
      assert (0 + 1) * Pow2(BITS) == Pow2(BITS);
    }
  }

  lemma RunIsSorted(size: int, s: Bits, pos: nat)
    ensures var v := Gen(BITS, 0, size, s, pos).vals;
      |v| == (if size > 0 then size else 0) && Sorted(v) && Within(v, 0, Pow2(BITS))
  {
    hide Gen;
    GenSorted(BITS, 0, size, s, pos);
  }

  /** A whole run: init, `next` until it reports the end, and any number of calls after it. */
  method DrawAll(tree: PresampleTree, size: int, more: nat) returns (vals: seq<nat>)
    requires tree.trackback.Length == BITS
    modifies tree, tree.trackback
    ensures vals == Gen(BITS, 0, size, tree.rand, old(tree.randPos)).vals
    ensures |vals| == (if size > 0 then size else 0) && Sorted(vals) && Within(vals, 0, Pow2(BITS))
  {
    hide Shr, Rest, Gen, Pow2, Sorted, Within, Ones;
    RunIsSorted(size, tree.rand, tree.randPos);
    tree.Init(size);
    ghost var all := tree.Remaining().vals;
    vals := [];
    while true
      invariant tree.Valid() && vals + tree.Remaining().vals == all
      decreases |all| - |vals|
    {
      ghost var rest := tree.Remaining().vals;
      var v, done := tree.Next(false);
      if done { break; }
      TakeOne(vals, rest, all);
      vals := vals + [v];
    }
    CallMore(tree, more);
  }

  /** The numbers drawn so far, in order and none behind the path. */
  ghost predicate DrawnTo(vals: seq<nat>, path: nat) {
    Sorted(vals) && Within(vals, 0, path + 1)
  }

  lemma DrawnMore(vals: seq<nat>, path: nat, v: nat)
    requires DrawnTo(vals, path) && path <= v
    ensures DrawnTo(vals + [v], v)
  {
  }

  lemma DrawnLater(vals: seq<nat>, path: nat, path': nat)
    requires DrawnTo(vals, path) && path <= path'
    ensures DrawnTo(vals, path')
  {
  }

  lemma DrawnAll(vals: seq<nat>, path: nat, rest: seq<nat>, hi: nat)
    requires DrawnTo(vals, path) && Sorted(rest) && Within(rest, path, hi) && path < hi
    ensures Sorted(vals + rest) && Within(vals + rest, 0, hi)
  {
  }

  lemma PathWithin(tree: PresampleTree)
    requires tree.Valid()
    ensures tree.path < Pow2(BITS)
    ensures var n := if tree.currCount > 0 then tree.currCount else 0;
      |tree.Remaining().vals| == Pending(BITS, tree.trackback[..], tree.path) + n
  {
    hide Gen, Rest, Pow2;
    ShrBounds(tree.path, BITS);
    assert (0 + 1) * Pow2(BITS) == Pow2(BITS);
    RestCounts(BITS, tree.trackback[..], tree.path, tree.currCount, tree.rand, tree.randPos);
  }

  /**
   * A run that is saved after at most k numbers and goes on in another tree with other random bits: as a
   * whole it still gives the requested number of values in order.
   */
  method DrawInterrupted(tree: PresampleTree, size: int, k: nat, bits: Bits) returns (vals: seq<nat>)
    requires tree.trackback.Length == BITS
    modifies tree, tree.trackback
    ensures |vals| == (if size > 0 then size else 0) && Sorted(vals) && Within(vals, 0, Pow2(BITS))
  {
    hide Shr, Rest, Gen, Pow2, Sorted, Within, Ones, Pending, DrawnTo;
    RunIsSorted(size, tree.rand, tree.randPos);
    tree.Init(size);
    ghost var total := |tree.Remaining().vals|;
    vals := [];
    NothingDrawn(tree.path);
    while |vals| < k
      invariant tree.Valid() && |vals| + |tree.Remaining().vals| == total && DrawnTo(vals, tree.path)
      decreases total - |vals|
    {
      ghost var path := tree.path;
      var v, done := tree.Next(false);
      if done {
        DrawnLater(vals, path, tree.path);
        break;
      }
      DrawnMore(vals, path, v);
      vals := vals + [v];
    }
    PathWithin(tree);
    var tb := new int[BITS];
    var path, count := tree.Save(tb);
    var next := new PresampleTree(bits);
    next.Load(tb, path, count);
    ghost var rest := next.Remaining().vals;
    ghost var before := vals;
    DrawnAll(before, path, rest, Pow2(BITS));
    while true
      invariant next.Valid() && fresh(next) && fresh(next.trackback) && vals + next.Remaining().vals == before + rest
      decreases total - |vals|
    {
      ghost var left := next.Remaining().vals;
      var v, done := next.Next(false);
      if done { break; }
      TakeOne(vals, left, before + rest);
      vals := vals + [v];
    }
    assert vals == before + rest;
  }

  lemma NothingDrawn(path: nat)
    ensures DrawnTo([], path)
  {
  }

  lemma TakeOne(vals: seq<nat>, rest: seq<nat>, all: seq<nat>)
    requires vals + rest == all && rest != []
    ensures vals + [rest[0]] + rest[1..] == all && |vals| + 1 <= |all|
  {
    assert rest == [rest[0]] + rest[1..];
  }

  /** Once the end is reported it is reported by every later call. */
  method CallMore(tree: PresampleTree, more: nat)
    requires tree.Valid() && tree.Remaining().vals == []
    modifies tree, tree.trackback
    ensures tree.Valid() && tree.Remaining().vals == []
  {
    hide Shr, Rest, Gen, Pow2, Sorted, Within, Ones;
    for k := 0 to more
      invariant tree.Valid() && tree.Remaining().vals == []
    {
      var v, done := tree.Next(false);
      assert done;
    }
  }
}
