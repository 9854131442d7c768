/** The order of label paths in contrib/ltree/ltree_op.c, and what truncation does to it. */
module LtreeOrder {
  import opened Basics
  import opened Machine
  import opened LexOrder
  import opened Lquery

  type Path = seq<Level>

  // ---------------------------------------------------------------- levels and paths

  function PathOrder(a: Path, b: Path): int {
    Lex(a, b, StringOrder)
  }

  /** The order of paths is a total order, and cutting paths keeps it. */
  lemma PathsOrdered(a: Path, b: Path, c: Path, n: nat)
    ensures PathOrder(a, b) == -PathOrder(b, a)
    ensures PathOrder(a, b) == 0 <==> a == b
    ensures PathOrder(a, b) <= 0 && PathOrder(b, c) <= 0 ==> PathOrder(a, c) <= 0
    ensures PathOrder(a, b) <= 0 ==> PathOrder(Cut(a, n), Cut(b, n)) <= 0
  {
    StringsOrdered();
    hide Lex, IsOrder, Cut;
    LexFlips(a, b, StringOrder);
    LexZero(a, b, StringOrder);
    if PathOrder(a, b) <= 0 {
      LexCut(a, b, n, StringOrder);
      if PathOrder(b, c) <= 0 { LexTransitive(a, b, c, StringOrder); }
    }
  }

  ghost predicate PathBefore(a: Path, b: Path) {
    Precedes(a, b, (x: Level, y: Level) => Before(x, y))
  }

  /** Paths are in order when at the first difference the lesser one has the lesser label, or ends. */
  lemma PathOrderMeans(a: Path, b: Path)
    ensures PathOrder(a, b) < 0 <==> PathBefore(a, b)
    ensures PathOrder(a, b) > 0 <==> PathBefore(b, a)
    ensures PathOrder(a, b) == 0 <==> a == b
  {
    hide Lex, Before, Precedes;
    StringsOrdered();
    forall x, y ensures StringOrder(x, y) < 0 <==> Before(x, y) { StringOrderMeans(x, y); }
    LexPrecedes(a, b, StringOrder, (x: Level, y: Level) => Before(x, y));
    LexPrecedes(b, a, StringOrder, (x: Level, y: Level) => Before(x, y));
    LexFlips(a, b, StringOrder);
    LexZero(a, b, StringOrder);
  }

  // ---------------------------------------------------------------- the comparison as coded

  /** What the last statement gives for a path d levels longer than one it continues. */
  function DepthResult(d: int): int {
    Wrap32(d * 10 * (d + 1))
  }

  /** b is a proper prefix of a, and the result for the difference in depth wraps to the wrong sign. */
  predicate WrapsAround(a: Path, b: Path) {
    |b| < |a| && a[..|b|] == b && DepthResult(|a| - |b|) <= 0
  }

  /** ltree_compare: its sign is the order of the paths exactly when the result does not wrap. */
  method LtreeCompare(a: Path, b: Path) returns (res: int)
    requires |a| <= MAXLEVELS && |b| <= MAXLEVELS
    ensures Sign(res) == PathOrder(a, b) <==> !WrapsAround(a, b)
    ensures WrapsAround(a, b) ==> res <= 0 && PathOrder(a, b) == 1
    ensures !WrapsAround(a, b) ==> (res < 0 <==> PathBefore(a, b)) && (res > 0 <==> PathBefore(b, a)) && (res == 0 <==> a == b)
  {
    hide Lex, StrNCmp, WrapsAround, StringOrder, Precedes;
    PathOrderMeans(a, b);
    var an, bn := |a|, |b|;
    var i := 0;
    while an > 0 && bn > 0
      invariant 0 <= i <= |a| && i <= |b| && an == |a| - i && bn == |b| - i
      invariant a[..i] == b[..i]
      invariant PathOrder(a, b) == PathOrder(a[i..], b[i..])
    {
      var al, bl := a[i], b[i];
      PathStep(a, b, i);
      StrNCmpOrders(al, bl);
      res := StrNCmp(al, bl, Min(|al|, |bl|));
      if res == 0 {
        if |al| != |bl| {
          DifferHere(a, b, i);
          SignTimes(|al| - |bl|, an + 1);
          return (|al| - |bl|) * 10 * (an + 1);
        }
      } else {
        DifferHere(a, b, i);
        SignTimes(res, an + 1);
        return res * 10 * (an + 1);
      }
      an, bn, i := an - 1, bn - 1, i + 1;
    }
    PathEnd(a, b, i);
    res := Wrap32((|a| - |b|) * 10 * (an + 1));
  }

  lemma PathStep(a: Path, b: Path, i: nat)
    requires i < |a| && i < |b|
    ensures PathOrder(a[i..], b[i..]) ==
      if StringOrder(a[i], b[i]) != 0 then StringOrder(a[i], b[i]) else PathOrder(a[i + 1..], b[i + 1..])
  {
    assert a[i..][1..] == a[i + 1..] && b[i..][1..] == b[i + 1..];
  }

  lemma DifferHere(a: Path, b: Path, i: nat)
    requires i < |a| && i < |b| && a[i] != b[i]
    ensures !WrapsAround(a, b)
  {
  }

  lemma SignTimes(x: int, n: int)
    requires n > 0
    ensures Sign(x * 10 * n) == Sign(x)
  {
  }

  lemma PathEnd(a: Path, b: Path, i: nat)
    requires i <= |a| && i <= |b| <= MAXLEVELS && (i == |a| || i == |b|) && a[..i] == b[..i]
    ensures PathOrder(a[i..], b[i..]) == Sign(|a| - |b|)
    ensures var res := Wrap32((|a| - |b|) * 10 * (|a| - i + 1));
      (Sign(res) == Sign(|a| - |b|) <==> !WrapsAround(a, b)) && (WrapsAround(a, b) ==> res <= 0 && |a| > |b|)
  {
    hide Lex, Wrap32;
    EndOrder(a[i..], b[i..]);
    if |a| > |b| {
      assert |a| - i == |a| - |b|;
    } else {
      assert |a| - i == 0;
      NotWrapped((|a| - |b|) * 10);
    }
  }

  lemma EndOrder(a: Path, b: Path)
    requires a == [] || b == []
    ensures PathOrder(a, b) == Sign(|a| - |b|)
  {
  }

  lemma NotWrapped(x: int)
    requires IsInt32(x)
    ensures Wrap32(x) == x
  {
  }

  /** Paths whose comparisons never wrap: the first depth that does is 14654. */
  const SHALLOW := 14653

  lemma ShallowOrdered(a: Path, b: Path)
    requires |a| <= SHALLOW
    ensures !WrapsAround(a, b)
  {
    var d := |a| - |b|;
    if 0 < d { assert d * 10 * (d + 1) <= SHALLOW * 10 * (SHALLOW + 1); }
  }

  /** One level more, and the empty path is taken for the later one. */
  lemma DeepMisordered(a: Path)
    requires |a| == SHALLOW + 1
    ensures WrapsAround(a, []) && PathOrder(a, []) == 1
  {
    assert a[..0] == [];
  }

  // ---------------------------------------------------------------- ancestors

  ghost predicate IsPrefix(p: Path, c: Path) {
    |p| <= |c| && c[..|p|] == p
  }

  /** inner_isparent: p is an ancestor of c, or c itself. */
  method InnerIsParent(c: Path, p: Path) returns (r: bool)
    ensures r <==> IsPrefix(p, c)
  {
    var pn := |p|;
    if pn > |c| { return false; }
    var i := 0;
    while pn > 0
      invariant 0 <= i <= |p| && pn == |p| - i && c[..i] == p[..i]
    {
      var cl, pl := c[i], p[i];
      if |cl| != |pl| { return false; }
      StrNCmpOrders(cl, pl);
      if StrNCmp(cl, pl, |cl|) != 0 { return false; }
      pn, i := pn - 1, i + 1;
    }
    return true;
  }

  ghost predicate CommonAncestor(p: Path, a: seq<Path>) {
    forall k :: 0 <= k < |a| ==> IsPrefix(p, a[k]) && |p| < |a[k]|
  }

  ghost predicate Longest(q: Path, a: seq<Path>) {
    CommonAncestor(q, a) && forall p :: CommonAncestor(p, a) ==> |p| <= |q|
  }

  /** lca_inner: the longest path that is a proper ancestor of every path, if none is empty. */
  method LcaInner(a: seq<Path>) returns (found: bool, res: Path)
    requires |a| > 0
    ensures found <==> [] !in a
    ensures found ==> Longest(res, a)
  {
    hide CommonAncestor, Longest;
    if |a[0]| == 0 { return false, []; }
    var num := |a[0]| - 1;
    var ptr := 1;
    FirstAncestor(a);
    while ptr < |a|
      invariant 1 <= ptr <= |a| && 0 <= num < |a[0]|
      invariant forall k :: 0 <= k < ptr ==> a[k] != []
      invariant Longest(a[0][..num], a[..ptr])
    {
      if |a[ptr]| == 0 { return false, []; }
      var tmp := num;
      if |a[ptr]| == 1 {
        num := 0;
      } else {
        num := SharedLevels(a[0], a[ptr], tmp);
      }
      ShorterAncestor(a, ptr, tmp, num);
      ptr := ptr + 1;
    }
    assert a[..ptr] == a;
    return true, a[0][..num];
  }

  lemma FirstAncestor(a: seq<Path>)
    requires |a| > 0 && a[0] != []
    ensures Longest(a[0][..|a[0]| - 1], a[..1])
  {
    var c := a[..1];
    assert c[0] == a[0];
  }

  /** The inner loop: how many levels, fewer than all, two paths share. */
  method SharedLevels(a: Path, b: Path, tmp: nat) returns (num: nat)
    requires tmp < |a| && |b| > 0
    ensures num <= tmp && num < |b| && a[..num] == b[..num]
    ensures num == tmp || num == |b| - 1 || a[num] != b[num]
  {
    num := 0;
    var i := 0;
    while i < Min(tmp, |b| - 1)
      invariant 0 <= i <= tmp && i <= |b| - 1 && num == i && a[..i] == b[..i]
    {
      StrNCmpOrders(a[i], b[i]);
      if |a[i]| == |b[i]| && StrNCmp(a[i], b[i], |a[i]|) == 0 {
        num := i + 1;
      } else {
        return;
      }
      i := i + 1;
    }
  }

  lemma PrefixAgrees(p: Path, c: Path, n: nat)
    requires IsPrefix(p, c) && n < |p|
    ensures n < |c| && p[n] == c[n]
  {
  }

  lemma PrefixCut(p: Path, c: Path, n: nat)
    requires IsPrefix(p, c) && n <= |p|
    ensures IsPrefix(p[..n], c)
  {
    assert c[..|p|][..n] == c[..n];
  }

  lemma MoreAncestor(q: Path, a: seq<Path>, ptr: nat)
    requires ptr < |a|
    ensures CommonAncestor(q, a[..ptr + 1]) <==> CommonAncestor(q, a[..ptr]) && IsPrefix(q, a[ptr]) && |q| < |a[ptr]|
  {
    hide IsPrefix;
    assert a[..ptr + 1] == a[..ptr] + [a[ptr]];
  }

  lemma FewerLevels(q: Path, a: seq<Path>, n: nat)
    requires CommonAncestor(q, a) && n <= |q|
    ensures CommonAncestor(q[..n], a)
  {
    hide IsPrefix;
    forall k | 0 <= k < |a| ensures IsPrefix(q[..n], a[k]) && n < |a[k]| { PrefixCut(q, a[k], n); }
  }

  lemma ShorterAncestor(a: seq<Path>, ptr: nat, tmp: nat, num: nat)
    requires 0 < ptr < |a| && num <= tmp < |a[0]| && num < |a[ptr]| && Longest(a[0][..tmp], a[..ptr])
    requires a[0][..num] == a[ptr][..num]
    requires num == tmp || num == |a[ptr]| - 1 || a[0][num] != a[ptr][num]
    ensures Longest(a[0][..num], a[..ptr + 1])
  {
    var q := a[0][..num];
    assert IsPrefix(q, a[ptr]);
    hide IsPrefix;
    assert a[0][..tmp][..num] == q;
    FewerLevels(a[0][..tmp], a[..ptr], num);
    MoreAncestor(q, a, ptr);
    forall p | CommonAncestor(p, a[..ptr + 1]) ensures |p| <= num {
      MoreAncestor(p, a, ptr);
      assert IsPrefix(p, a[..ptr][0]);
      if num < |p| {
        PrefixAgrees(p, a[0], num);
        PrefixAgrees(p, a[ptr], num);
      }
    }
  }
}
