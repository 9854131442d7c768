/**
 * Searching the intarray indexes for boolean queries: keys built by any nesting of union,
 * compression and decompression, for both operator classes (_int_gist.c, _intbig_gist.c).
 */
module IntSearch {
  import opened Machine
  import opened IntCover
  import opened IntTool
  import opened BitSign
  import opened IntSign
  import opened IntCompress
  import opened IntOptimal
  import opened BoolQuery
  import opened Bags

  /** The key of an index entry, as stored: integers or ranges, or a signature. */
  datatype Key = Stored(d: seq<int>) | Signed(s: SignKey)

  ghost predicate KeyOk(k: Key) {
    match k
    case Stored(d) => BelowMax(d) && (if |d| < 2 * MAXNUMRANGE then Increasing(d) else IsStored(d))
    case Signed(s) => SignOk(s)
  }

  /** The key does not exclude x from the arrays below. */
  ghost predicate May(k: Key, x: int)
    requires KeyOk(k)
  {
    match k
    case Stored(d) => if |d| < 2 * MAXNUMRANGE then x in d else x in Ints(RangesOf(d))
    case Signed(s) => MayHash(s, HashVal(x))
  }

  /** An array the int class can index: fewer than 2*MAXNUMRANGE distinct integers. */
  ghost predicate Indexable(a: seq<int>) {
    BelowMax(a) && |a| < 2 * MAXNUMRANGE
  }

  // ---------------------------------------------------------------- keys

  lemma KeyBelowMax(a: seq<int>, b: seq<int>)
    requires BelowMax(a) && forall x :: x in b ==> x in a
    ensures BelowMax(b)
  {
    forall i | 0 <= i < |b| ensures IsInt32(b[i]) && b[i] < INT_MAX {
      var x := b[i];
      assert x in b;
      var j :| 0 <= j < |a| && a[j] == x;
    }
  }

  lemma IsKeyBelowMax(a: seq<int>)
    requires Increasing(a) && BelowMax(a)
    ensures IsKey(a)
  {
  }

  /** g_int_decompress. */
  method DecompressKey(d: seq<int>) returns (r: seq<int>)
    requires KeyOk(Stored(d))
    ensures Increasing(r) && BelowMax(r)
    ensures forall x :: x in r <==> May(Stored(d), x)
  {
    hide Increasing, IsStored, BelowMax, Ints, RangesOf;
    if |d| < 2 * MAXNUMRANGE { return d; }
    var din := new int[|d|](i requires 0 <= i < |d| => d[i]);
    assert din[..] == d;
    var a := Decompress(din);
    r := a[..];
    UnpackedBelowMax(d, r);
  }

  lemma UnpackedBelowMax(d: seq<int>, r: seq<int>)
    requires BelowMax(d) && forall x :: x in r ==> x in Ints(RangesOf(d))
    ensures BelowMax(r)
  {
    hide Ints;
    forall i | 0 <= i < |r| ensures IsInt32(r[i]) && r[i] < INT_MAX {
      assert r[i] in r;
      var c := RangesOf(d);
      var k :| 0 <= k < |c| && c[k].lo <= r[i] <= c[k].hi;
    }
  }

  /** g_int_compress on an inner key. */
  method CompressKey(r: seq<int>) returns (d: seq<int>)
    requires Increasing(r) && BelowMax(r)
    ensures KeyOk(Stored(d))
    ensures forall x :: x in r ==> May(Stored(d), x)
    ensures if |r| < 2 * MAXNUMRANGE then d == r else |d| == 2 * MAXNUMRANGE
  {
    hide Increasing, BelowMax, IsStored, HoldsRanges, IsKey, Greedy, Ints, RangesOf;
    IsKeyBelowMax(r);
    ghost var b;
    d, b := Compress(r);
    if |r| >= 2 * MAXNUMRANGE {
      CompressedIsStored(d, r, b);
      RangesCover(d, r, b);
      CoverHas(d, r);
      RangeBoundsIn(d, r, b);
      KeyBelowMax(r, d);
    }
  }

  lemma CoverHas(d: seq<int>, r: seq<int>)
    requires Covers(RangesOf(d), r)
    ensures forall x :: x in r ==> x in Ints(RangesOf(d))
  {
  }

  lemma RangeBoundsIn(d: seq<int>, r: seq<int>, b: seq<nat>)
    requires HoldsRanges(d, r, b) && |d| == 2 * |b|
    ensures forall x :: x in d ==> x in r
  {
    forall i | 0 <= i < |d| ensures d[i] in r {
      assert RangeAt(d, r, b, i / 2);
    }
  }

  // ---------------------------------------------------------------- the tree

  /** An index: entries for arrays below pages. */
  datatype Tree = Entry(key: Key, row: seq<int>) | Page(key: Key, kids: seq<Tree>)

  ghost predicate EntryOk(k: Key, a: seq<int>) {
    && KeyOk(k)
    && (forall x :: x in a ==> May(k, x))
    && (k.Stored? ==> |k.d| < 2 * MAXNUMRANGE && SameElements(k.d, a))
  }

  /** What insertion keeps: no key excludes an integer that a key below it allows. */
  ghost predicate Covered(t: Tree) {
    match t
    case Entry(k, a) => EntryOk(k, a)
    case Page(k, kids) =>
      && KeyOk(k)
      && (forall i :: 0 <= i < |kids| ==> Covered(kids[i]))
      && PageOver(k, kids)
  }

  ghost predicate PageOver(k: Key, kids: seq<Tree>)
    requires KeyOk(k)
  {
    forall i :: 0 <= i < |kids| ==> KeyOver(k, kids[i].key)
  }

  ghost predicate KeyOver(k: Key, l: Key)
    requires KeyOk(k)
  {
    KeyOk(l) && forall x :: May(l, x) ==> May(k, x)
  }

  /** Whether every key is of the class that stores integers (or of the one that stores signatures). */
  ghost predicate OfClass(t: Tree, big: bool) {
    t.key.Signed? == big && (t.Page? ==> forall i :: 0 <= i < |t.kids| ==> OfClass(t.kids[i], big))
  }

  /** The arrays below a tree, in order. */
  function Arrays(t: Tree): seq<seq<int>> {
    match t
    case Entry(_, a) => [a]
    case Page(_, kids) => ArraysOf(t, |kids|)
  }

  /** The arrays below the first n children. */
  function ArraysOf(t: Tree, n: nat): seq<seq<int>>
    requires t.Page? && n <= |t.kids|
    decreases t, n
  {
    if n == 0 then [] else ArraysOf(t, n - 1) + Arrays(t.kids[n - 1])
  }

  /** Compression of a new entry. */
  method MakeEntry(a: seq<int>, big: bool) returns (t: Tree)
    requires !big ==> Indexable(a)
    ensures Covered(t) && OfClass(t, big) && Arrays(t) == [a]
  {
    if big {
      var sign := HashArray(a);
      var k := Signed(Sign(sign[..]));
      forall x | x in a ensures May(k, x) {
        var i :| 0 <= i < |a| && a[i] == x;
        assert HashVal(a[i]) == HashVal(x);
      }
      return Entry(k, a);
    }
    var key := Prepare(a);
    KeyBelowMax(a, key);
    NotLonger(key, a);
    return Entry(Stored(key), a);
  }

  lemma {:induction false} NotLonger(u: seq<int>, a: seq<int>)
    requires Increasing(u) && SameElements(u, a)
    ensures |u| <= |a|
  {
    DistinctCount(u);
    ElementCount(a);
    var s, s' := set i | 0 <= i < |u| :: u[i], set i | 0 <= i < |a| :: a[i];
    forall x ensures x in s <==> x in s' {
      if x in s { assert x in u && x in a; }
      if x in s' { assert x in a && x in u; }
    }
    assert s == s';
  }

  lemma {:induction false} DistinctCount(u: seq<int>)
    requires Increasing(u)
    ensures |set i | 0 <= i < |u| :: u[i]| == |u|
  {
    if u != [] {
      var n := |u| - 1;
      DistinctCount(u[..n]);
      assert (set i | 0 <= i < |u| :: u[i]) == (set i | 0 <= i < |u[..n]| :: u[..n][i]) + {u[n]};
    }
  }

  lemma {:induction false} ElementCount(a: seq<int>)
    ensures |set i | 0 <= i < |a| :: a[i]| <= |a|
  {
    if a != [] {
      var n := |a| - 1;
      ElementCount(a[..n]);
      assert (set i | 0 <= i < |a| :: a[i]) == (set i | 0 <= i < |a[..n]| :: a[..n][i]) + {a[n]};
    }
  }

  /** The key over several entries: their union, decompressed before and compressed after. */
  method KeyOverAll(keys: seq<Key>, big: bool) returns (k: Key)
    requires forall i :: 0 <= i < |keys| ==> KeyOk(keys[i]) && keys[i].Signed? == big
    ensures KeyOk(k) && k.Signed? == big
    ensures forall i :: 0 <= i < |keys| ==> KeyOver(k, keys[i])
    ensures big || |k.d| < 2 * MAXNUMRANGE ==>
      forall x :: May(k, x) ==> exists i :: 0 <= i < |keys| && May(keys[i], x)
  {
    hide Increasing, BelowMax, IsStored, Ints, RangesOf, GetBit, HashVal;
    if big {
      var signs := seq(|keys|, i requires 0 <= i < |keys| => keys[i].s);
      var u := UnionSigns(signs);
      var s := CompressSign(u);
      forall i | 0 <= i < |keys| ensures KeyOver(Signed(s), keys[i]) {
        SignOver(s, u, signs, i);
      }
      return Signed(s);
    }
    var entries := [];
    for i := 0 to |keys|
      invariant |entries| == i
      invariant forall j :: 0 <= j < i ==> BelowMax(entries[j])
      invariant forall j :: 0 <= j < i ==> forall x :: x in entries[j] <==> May(keys[j], x)
    {
      var r := DecompressKey(keys[i].d);
      entries := entries + [r];
    }
    var u := Union(entries);
    UnionBelowMax(u, entries);
    var d := CompressKey(u);
    return Stored(d);
  }

  lemma UnionBelowMax(u: seq<int>, entries: seq<seq<int>>)
    requires forall x :: x in u ==> exists i :: 0 <= i < |entries| && x in entries[i]
    requires forall j :: 0 <= j < |entries| ==> BelowMax(entries[j])
    ensures BelowMax(u)
  {
    forall i | 0 <= i < |u| ensures IsInt32(u[i]) && u[i] < INT_MAX {
      assert u[i] in u;
    }
  }

  lemma SignOver(s: SignKey, u: SignKey, signs: seq<SignKey>, i: nat)
    requires i < |signs| && SignOk(s) && SignOk(u) && forall k :: 0 <= k < |signs| ==> SignOk(signs[k])
    requires forall j: nat :: j < SIGLENBIT ==> (MayHash(u, j) <==> exists k :: 0 <= k < |signs| && MayHash(signs[k], j))
    requires forall j: nat :: j < SIGLENBIT ==> (MayHash(s, j) <==> MayHash(u, j))
    ensures KeyOver(Signed(s), Signed(signs[i]))
  {
  }

  /** A page over entries or pages of one class. */
  method MakePage(kids: seq<Tree>, big: bool) returns (t: Tree)
    requires forall i :: 0 <= i < |kids| ==> Covered(kids[i]) && OfClass(kids[i], big)
    ensures t.Page? && t.kids == kids && Covered(t) && OfClass(t, big)
  {
    hide KeyOk, KeyOver;
    var keys := seq(|kids|, i requires 0 <= i < |kids| => kids[i].key);
    forall i | 0 <= i < |kids| ensures KeyOk(keys[i]) && keys[i].Signed? == big { CoveredKey(kids[i]); }
    var k := KeyOverAll(keys, big);
    t := Page(k, kids);
    forall i | 0 <= i < |kids| ensures KeyOver(k, kids[i].key) { assert KeyOver(k, keys[i]); }
  }

  lemma CoveredKey(t: Tree)
    requires Covered(t)
    ensures KeyOk(t.key)
  {
  }

  /** The arrays below some children, as a bag. */
  ghost function Bag(kids: seq<Tree>): multiset<seq<int>> {
    if kids == [] then multiset{} else Bag(kids[..|kids| - 1]) + multiset(Arrays(kids[|kids| - 1]))
  }

  lemma BagMore(kids: seq<Tree>, kid: Tree)
    ensures Bag(kids + [kid]) == Bag(kids) + multiset(Arrays(kid))
  {
    hide Arrays;
    assert (kids + [kid])[..|kids|] == kids;
  }

  lemma {:induction false} BagJoin(a: seq<Tree>, b: seq<Tree>)
    ensures Bag(a + b) == Bag(a) + Bag(b)
    decreases |b|
  {
    if b == [] {
      assert a + b == a;
    } else {
      hide Bag, Arrays;
      var front, last := b[..|b| - 1], b[|b| - 1];
      assert b == front + [last];
      assert a + b == (a + front) + [last];
      BagJoin(a, front);
      BagMore(a + front, last);
      BagMore(front, last);
    }
  }

  lemma BagOne(kid: Tree)
    ensures Bag([kid]) == multiset(Arrays(kid)) && Bag([]) == multiset{}
  {
    assert [kid][..0] == [];
  }

  lemma {:induction false} ArraysBag(t: Tree, n: nat)
    requires t.Page? && n <= |t.kids|
    ensures multiset(ArraysOf(t, n)) == Bag(t.kids[..n])
    decreases n
  {
    if n > 0 {
      ArraysBag(t, n - 1);
      assert t.kids[..n][..n - 1] == t.kids[..n - 1];
    }
  }

  lemma PageBag(t: Tree)
    requires t.Page?
    ensures multiset(Arrays(t)) == Bag(t.kids)
  {
    ArraysBag(t, |t.kids|);
    assert t.kids[..|t.kids|] == t.kids;
  }

  /** Child i gives way to others, which hold more besides its arrays. */
  lemma BagReplaced(kids: seq<Tree>, i: nat, news: seq<Tree>, more: multiset<seq<int>>)
    requires i < |kids| && Bag(news) == multiset(Arrays(kids[i])) + more
    ensures Bag(kids[..i] + news + kids[i + 1..]) == Bag(kids) + more
  {
    hide Bag, Arrays;
    var front, back := kids[..i], kids[i + 1..];
    BagJoin(front + news, back);
    BagJoin(front, news);
    BagOne(kids[i]);
    BagJoin(front, [kids[i]]);
    BagJoin(front + [kids[i]], back);
    assert kids == front + [kids[i]] + back;
  }

  /** Insertion below a page: the child chosen by path takes the array, and every key above is widened. */
  method Insert(t: Tree, a: seq<int>, path: seq<nat>, big: bool) returns (t': Tree)
    requires Covered(t) && OfClass(t, big) && t.Page? && (big || Indexable(a))
    ensures t'.Page? && Covered(t') && OfClass(t', big)
    ensures multiset(Arrays(t')) == multiset(Arrays(t)) + multiset{a}
    decreases |path|
  {
    hide *;
    var kid;
    PageParts(t, big);
    PageBag(t);
    if path != [] && path[0] < |t.kids| && t.kids[path[0]].Page? {
      var i := path[0];
      kid := Insert(t.kids[i], a, path[1..], big);
      t' := WidenPage(t, t.kids[..i] + [kid] + t.kids[i + 1..], [kid], big);
      BagOne(kid);
      BagReplaced(t.kids, i, [kid], multiset{a});
    } else {
      kid := MakeEntry(a, big);
      t' := WidenPage(t, t.kids + [kid], [kid], big);
      EntryBag(kid, a);
      BagJoin(t.kids, [kid]);
    }
    PageBag(t');
  }

  lemma EntryBag(t: Tree, a: seq<int>)
    requires Arrays(t) == [a]
    ensures Bag([t]) == multiset{a}
  {
    BagOne(t);
  }

  lemma PageParts(t: Tree, big: bool)
    requires Covered(t) && OfClass(t, big) && t.Page?
    ensures forall i :: 0 <= i < |t.kids| ==> Covered(t.kids[i]) && OfClass(t.kids[i], big)
  {
  }

  /** The key of a page becomes the union of itself and the keys of the children that changed. */
  method WidenPage(t: Tree, kids: seq<Tree>, news: seq<Tree>, big: bool) returns (t': Tree)
    requires Covered(t) && OfClass(t, big) && t.Page?
    requires forall i :: 0 <= i < |news| ==> Covered(news[i]) && OfClass(news[i], big)
    requires forall i :: 0 <= i < |kids| ==> kids[i] in t.kids || kids[i] in news
    ensures t'.Page? && t'.kids == kids && Covered(t') && OfClass(t', big)
  {
    hide KeyOk, KeyOver;
    CoveredKey(t);
    var keys := [t.key] + seq(|news|, i requires 0 <= i < |news| => news[i].key);
    forall i | 0 <= i < |keys| ensures KeyOk(keys[i]) && keys[i].Signed? == big {
      if i > 0 { CoveredKey(news[i - 1]); }
    }
    var k := KeyOverAll(keys, big);
    t' := Page(k, kids);
    assert KeyOver(k, keys[0]);
    forall i | 0 <= i < |kids| ensures KeyOver(k, kids[i].key) && Covered(kids[i]) && OfClass(kids[i], big) {
      if kids[i] in news {
        var j :| 0 <= j < |news| && news[j] == kids[i];
        assert KeyOver(k, keys[j + 1]);
      } else {
        KeyOverTrans(k, t.key, kids[i].key);
      }
    }
  }

  lemma KeyOverTrans(k: Key, l: Key, m: Key)
    requires KeyOk(k) && KeyOver(k, l) && KeyOver(l, m)
    ensures KeyOver(k, m)
  {
    hide May;
  }

  // ---------------------------------------------------------------- splitting pages

  /** What costs decide when a page is split: the seeds, the order of the entries, their sides. */
  datatype Choice = Choice(seed1: nat, seed2: nat, order: seq<nat>, goLeft: seq<bool>)

  predicate ChoiceOk(c: Choice, n: nat) {
    && c.seed1 < n && c.seed2 < n && c.seed1 != c.seed2 && |c.goLeft| == n
    && multiset(c.order) == multiset(Positions(n))
  }

  function Picked(kids: seq<Tree>, idx: seq<nat>): (s: seq<Tree>)
    requires Below(idx, |kids|)
    ensures |s| == |idx| && forall k :: 0 <= k < |idx| ==> s[k] == kids[idx[k]]
  {
    seq(|idx|, k requires 0 <= k < |idx| => kids[idx[k]])
  }

  ghost function KidBags(kids: seq<Tree>): (s: seq<multiset<seq<int>>>)
    ensures |s| == |kids| && forall i :: 0 <= i < |kids| ==> s[i] == multiset(Arrays(kids[i]))
  {
    seq(|kids|, i requires 0 <= i < |kids| => multiset(Arrays(kids[i])))
  }

  lemma {:induction false} PickedBag(kids: seq<Tree>, idx: seq<nat>)
    requires Below(idx, |kids|)
    ensures Bag(Picked(kids, idx)) == Sum(KidBags(kids), idx)
    decreases |idx|
  {
    if idx != [] {
      var n := |idx| - 1;
      PickedBag(kids, idx[..n]);
      assert Picked(kids, idx)[..n] == Picked(kids, idx[..n]);
    }
  }

  /** Nothing is lost when the children are dealt to two pages. */
  lemma DealtBag(kids: seq<Tree>, left: seq<nat>, right: seq<nat>, order: seq<nat>)
    requires multiset(left) + multiset(right) == multiset(order) == multiset(Positions(|kids|))
    ensures Below(left, |kids|) && Below(right, |kids|)
    ensures Bag(Picked(kids, left)) + Bag(Picked(kids, right)) == Bag(kids)
  {
    hide Bag, Sum, Arrays;
    var n, both := |kids|, left + right;
    assert multiset(both) == multiset(Positions(n));
    Rearranged(both, n);
    assert forall k :: 0 <= k < |left| ==> left[k] == both[k];
    assert forall k :: 0 <= k < |right| ==> right[k] == both[|left| + k];
    PickedBag(kids, left);
    PickedBag(kids, right);
    PickedBag(kids, Positions(n));
    assert Picked(kids, Positions(n)) == kids;
    SumJoin(KidBags(kids), left, right);
    SumReordered(KidBags(kids), both, Positions(n));
  }

  /** g_intbig_picksplit deals the entries like g_int_picksplit. */
  method Deal(c: Choice, n: nat) returns (left: seq<nat>, right: seq<nat>)
    requires ChoiceOk(c, n)
    ensures multiset(left) + multiset(right) == multiset(c.order)
  {
    Rearranged(c.order, n);
    left, right := [], [];
    for k := 0 to |c.order|
      invariant multiset(left) + multiset(right) == multiset(c.order[..k])
    {
      var i := c.order[k];
      assert c.order[..k + 1] == c.order[..k] + [i];
      if i == c.seed1 || (i != c.seed2 && c.goLeft[i]) {
        left := left + [i];
      } else {
        right := right + [i];
      }
    }
    assert c.order[..|c.order|] == c.order;
  }

  /** A full page becomes two; the keys are those of the picksplit methods. */
  method SplitPage(t: Tree, c: Choice, big: bool) returns (l: Tree, r: Tree)
    requires Covered(t) && OfClass(t, big) && t.Page? && ChoiceOk(c, |t.kids|)
    ensures l.Page? && Covered(l) && OfClass(l, big)
    ensures r.Page? && Covered(r) && OfClass(r, big)
    ensures multiset(Arrays(l)) + multiset(Arrays(r)) == multiset(Arrays(t))
  {
    hide *;
    var kids := t.kids;
    PageParts(t, big);
    ChoiceFor(c, |kids|);
    if big {
      var left, right := Deal(c, |kids|);
      DealtBag(kids, left, right, c.order);
      PickedParts(kids, left, big);
      PickedParts(kids, right, big);
      l := MakePage(Picked(kids, left), big);
      r := MakePage(Picked(kids, right), big);
    } else {
      var entries := EntriesOf(kids);
      var left, right, datumL, datumR := PickSplit(entries, c.seed1, c.seed2, c.order, c.goLeft);
      DealtBag(kids, left, right, c.order);
      l := HalfPage(kids, entries, left, datumL);
      r := HalfPage(kids, entries, right, datumR);
    }
    PageBag(t);
    PageBag(l);
    PageBag(r);
  }

  lemma PickedParts(kids: seq<Tree>, idx: seq<nat>, big: bool)
    requires Below(idx, |kids|) && forall i :: 0 <= i < |kids| ==> Covered(kids[i]) && OfClass(kids[i], big)
    ensures forall k :: 0 <= k < |idx| ==> Covered(Picked(kids, idx)[k]) && OfClass(Picked(kids, idx)[k], big)
  {
    hide Covered, OfClass;
  }

  lemma ChoiceFor(c: Choice, n: nat)
    requires ChoiceOk(c, n)
    ensures c.seed1 < n && c.seed2 < n && c.seed1 != c.seed2 && |c.goLeft| == n
    ensures multiset(c.order) == multiset(Positions(n))
    ensures forall i: nat :: i in c.order <==> i < n
  {
    Rearranged(c.order, n);
  }

  /** The keys of the entries of a page, decompressed. */
  ghost predicate EntriesAre(entries: seq<seq<int>>, kids: seq<Tree>) {
    |entries| == |kids| && forall i :: 0 <= i < |kids| ==> EntryIs(entries[i], kids[i])
  }

  ghost predicate EntryIs(entry: seq<int>, kid: Tree) {
    && Covered(kid) && OfClass(kid, false) && KeyOk(kid.key)
    && Increasing(entry) && BelowMax(entry)
    && forall x :: x in entry <==> May(kid.key, x)
  }

  method EntriesOf(kids: seq<Tree>) returns (entries: seq<seq<int>>)
    requires forall i :: 0 <= i < |kids| ==> Covered(kids[i]) && OfClass(kids[i], false)
    ensures EntriesAre(entries, kids) && |entries| == |kids| && forall i :: 0 <= i < |entries| ==> Increasing(entries[i])
  {
    hide Covered, Increasing, BelowMax, May, KeyOk;
    entries := [];
    for i := 0 to |kids|
      invariant |entries| == i && forall j :: 0 <= j < i ==> EntryIs(entries[j], kids[j])
    {
      CoveredKey(kids[i]);
      var r := DecompressKey(kids[i].key.d);
      entries := entries + [r];
    }
  }

  method HalfPage(kids: seq<Tree>, entries: seq<seq<int>>, idx: seq<nat>, datum: seq<int>) returns (t: Tree)
    requires EntriesAre(entries, kids) && Below(idx, |kids|) && UnionOf(datum, entries, Members(idx))
    ensures t.Page? && t.kids == Picked(kids, idx) && Covered(t) && OfClass(t, false)
  {
    hide Increasing, BelowMax, May, KeyOk;
    DatumBelowMax(kids, entries, Members(idx), datum);
    var d := CompressKey(datum);
    t := Page(Stored(d), Picked(kids, idx));
    forall k | 0 <= k < |idx|
      ensures KeyOver(Stored(d), t.kids[k].key) && Covered(t.kids[k]) && OfClass(t.kids[k], false)
    {
      assert EntryIs(entries[idx[k]], kids[idx[k]]) && idx[k] in Members(idx);
    }
  }

  lemma DatumBelowMax(kids: seq<Tree>, entries: seq<seq<int>>, chosen: set<nat>, datum: seq<int>)
    requires EntriesAre(entries, kids) && UnionOf(datum, entries, chosen)
    ensures BelowMax(datum) && Increasing(datum)
  {
    hide Increasing, Covered;
    forall i | 0 <= i < |datum| ensures IsInt32(datum[i]) && datum[i] < INT_MAX {
      var x := datum[i];
      assert x in datum;
      var k :| k in chosen && k < |entries| && x in entries[k];
      assert EntryIs(entries[k], kids[k]);
    }
  }

  /** The page that path leads to is split, and the keys above it are widened; other paths do nothing. */
  method SplitBelow(t: Tree, path: seq<nat>, c: Choice, big: bool) returns (t': Tree)
    requires Covered(t) && OfClass(t, big) && t.Page?
    ensures t'.Page? && Covered(t') && OfClass(t', big)
    ensures multiset(Arrays(t')) == multiset(Arrays(t))
    decreases |path|
  {
    hide *;
    if path == [] || path[0] >= |t.kids| || !t.kids[path[0]].Page? { return t; }
    var i := path[0];
    var kid := t.kids[i];
    var news: seq<Tree>;
    PageParts(t, big);
    if |path| > 1 {
      var lower := SplitBelow(kid, path[1..], c, big);
      news := [lower];
      BagOne(lower);
    } else if ChoiceOk(c, |kid.kids|) {
      var l, r := SplitPage(kid, c, big);
      news := [l] + [r];
      BagOne(l);
      BagOne(r);
      BagJoin([l], [r]);
    } else {
      return t;
    }
    t' := WidenPage(t, t.kids[..i] + news + t.kids[i + 1..], news, big);
    BagReplaced(t.kids, i, news, multiset{});
    PageBag(t);
    PageBag(t');
  }

  /** A full root is split below a new root. */
  method SplitRoot(t: Tree, c: Choice, big: bool) returns (t': Tree)
    requires Covered(t) && OfClass(t, big) && t.Page?
    ensures t'.Page? && Covered(t') && OfClass(t', big)
    ensures multiset(Arrays(t')) == multiset(Arrays(t))
  {
    hide *;
    if !ChoiceOk(c, |t.kids|) { return t; }
    var l, r := SplitPage(t, c, big);
    t' := MakePage([l] + [r], big);
    BagOne(l);
    BagOne(r);
    BagJoin([l], [r]);
    PageBag(t');
  }

  datatype Step = Add(row: seq<int>, path: seq<nat>) | Split(path: seq<nat>, choice: Choice) | Grow(choice: Choice)

  /** The arrays that the steps insert. */
  function Inserted(steps: seq<Step>): multiset<seq<int>> {
    if steps == [] then multiset{} else
      var last := steps[|steps| - 1];
      Inserted(steps[..|steps| - 1]) + if last.Add? then multiset{last.row} else multiset{}
  }

  /** Any run of insertions and splits gives an index in which no key excludes what is below it. */
  method Build(steps: seq<Step>, big: bool) returns (t: Tree)
    requires forall i :: 0 <= i < |steps| && steps[i].Add? ==> big || Indexable(steps[i].row)
    ensures t.Page? && Covered(t) && OfClass(t, big)
    ensures multiset(Arrays(t)) == Inserted(steps)
  {
    hide Covered, OfClass, Arrays, Indexable;
    t := MakePage([], big);
    PageBag(t);
    for i := 0 to |steps|
      invariant t.Page? && Covered(t) && OfClass(t, big)
      invariant multiset(Arrays(t)) == Inserted(steps[..i])
    {
      assert steps[..i + 1][..i] == steps[..i];
      match steps[i]
      case Add(a, path) => t := Insert(t, a, path, big);
      case Split(path, c) => t := SplitBelow(t, path, c, big);
      case Grow(c) => t := SplitRoot(t, c, big);
    }
    assert steps[..|steps|] == steps;
  }

  // ---------------------------------------------------------------- search

  /** With more integers and no negation taken, a query that held still holds. */
  lemma {:induction false} HoldsOnMore(e: Expr, v: int -> bool, w: int -> bool)
    requires forall n :: v(n) ==> w(n)
    ensures Eval(e, v, true) ==> Eval(e, w, false)
  {
    match e
    case Leaf(_) =>
    case Not(_) =>
    case Join(_, l, r) => HoldsOnMore(l, v, w); HoldsOnMore(r, v, w);
  }

  /** Whether a query is true of an array; the operator answers no for empty arrays. */
  ghost predicate Matches(e: Expr, a: seq<int>, empties: bool) {
    (empties || a != []) && Eval(e, n => n in a, true)
  }

  ghost predicate HoldsOfNothing(e: Expr) {
    Eval(e, n => false, true)
  }

  /** The arrays of a list that match, in order. */
  ghost function Matching(e: Expr, s: seq<seq<int>>, empties: bool): seq<seq<int>> {
    if s == [] then [] else
      Matching(e, s[..|s| - 1], empties) + if Matches(e, s[|s| - 1], empties) then [s[|s| - 1]] else []
  }

  /** g_int_consistent and g_intbig_consistent for boolean queries. */
  method Consistent(k: Key, leaf: bool, items: seq<Item>, ghost e: Expr) returns (r: bool)
    requires KeyOk(k) && IsQuery(items, e)
    ensures k.Stored? ==> (r <==> Eval(e, n => May(k, n), leaf))
    ensures k.Signed? ==> (r <==> k.s.AllTrue? || Eval(e, n => May(k, n), false))
  {
    hide Eval, IsQuery, Increasing, IsStored, BelowMax, Sorted;
    if k.Signed? {
      if k.s.AllTrue? { return true; }
      r := SignConsistent(items, k.s.bits, false, e);
      SameEval(e, n => |k.s.bits| == SIGLEN && GetBit(k.s.bits, HashVal(n)), n => May(k, n), false);
    } else {
      var key := DecompressKey(k.d);
      IncreasingSorted(key);
      r := ExecConsistent(items, key, leaf, e);
      SameEval(e, n => n in key, n => May(k, n), leaf);
    }
  }

  /**
   * The index search: below a page whose key is rejected nothing is looked at. The class of integers
   * answers with the arrays of which the query is true, and these are right exactly when no empty
   * array is among them; candidates from signatures are looked at again.
   */
  method Search(t: Tree, items: seq<Item>, ghost e: Expr) returns (hits: seq<seq<int>>)
    requires Covered(t) && IsQuery(items, e)
    ensures OfClass(t, false) ==> hits == Matching(e, Arrays(t), true)
    ensures OfClass(t, false) ==> (hits == Matching(e, Arrays(t), false) <==> [] !in Arrays(t) || !HoldsOfNothing(e))
    ensures Matching(e, hits, false) == Matching(e, Arrays(t), false)
    decreases t
  {
    hits := Scan(t, items, e);
    EmptiesMatter(e, Arrays(t));
  }

  method Scan(t: Tree, items: seq<Item>, ghost e: Expr) returns (hits: seq<seq<int>>)
    requires Covered(t) && IsQuery(items, e)
    ensures OfClass(t, false) ==> hits == Matching(e, Arrays(t), true)
    ensures Matching(e, hits, false) == Matching(e, Arrays(t), false)
    decreases t
  {
    hide IsQuery, KeyOk, EntryOk, KeyOver;
    CoveredKey(t);
    match t
    case Entry(k, a) =>
      var r := Consistent(k, true, items, e);
      if r { hits := [a]; } else { hits := []; }
      EntryFound(t, e, r);
      MatchingOne(e, a);
    case Page(k, kids) =>
      var r := Consistent(k, false, items, e);
      hits := [];
      if r {
        for i := 0 to |kids|
          invariant Matching(e, hits, false) == Matching(e, ArraysOf(t, i), false)
          invariant OfClass(t, false) ==> hits == Matching(e, ArraysOf(t, i), true)
        {
          var more := Scan(kids[i], items, e);
          MatchingJoin(e, hits, more, false);
          MatchingJoin(e, ArraysOf(t, i), Arrays(kids[i]), false);
          MatchingJoin(e, ArraysOf(t, i), Arrays(kids[i]), true);
          hits := hits + more;
        }
      } else {
        PageRejected(t, e, |kids|, false);
        PageRejected(t, e, |kids|, true);
      }
  }

  lemma MatchingOne(e: Expr, a: seq<int>)
    ensures forall empties :: Matching(e, [a], empties) == if Matches(e, a, empties) then [a] else []
    ensures forall empties :: Matching(e, [], empties) == []
  {
    assert [a][..0] == [];
  }

  lemma {:induction false} MatchingJoin(e: Expr, s: seq<seq<int>>, t: seq<seq<int>>, empties: bool)
    ensures Matching(e, s + t, empties) == Matching(e, s, empties) + Matching(e, t, empties)
    decreases |t|
  {
    if t == [] {
      assert s + t == s;
    } else {
      var n := |t| - 1;
      MatchingJoin(e, s, t[..n], empties);
      assert (s + t)[..|s + t| - 1] == s + t[..n];
    }
  }

  /** Counting empty arrays as true makes a difference exactly when there is one and the query holds of nothing. */
  lemma {:induction false} EmptiesMatter(e: Expr, s: seq<seq<int>>)
    ensures |Matching(e, s, false)| <= |Matching(e, s, true)|
    ensures Matching(e, s, true) == Matching(e, s, false) <==> [] !in s || !HoldsOfNothing(e)
    decreases |s|
  {
    if s != [] {
      hide Eval;
      var n := |s| - 1;
      EmptiesMatter(e, s[..n]);
      assert [] in s <==> [] in s[..n] || s[n] == [];
      assert s == s[..n] + [s[n]];
      var last := s[n];
      if last == [] { SameEval(e, x => x in last, x => false, true); }
      assert last == [] ==> (Matches(e, last, true) <==> HoldsOfNothing(e)) && !Matches(e, last, false);
      var all, some := Matching(e, s[..n], true), Matching(e, s[..n], false);
      LastSame(all, some, last);
      if last == [] {
        assert Matching(e, s, false) == some + [];
        assert Matching(e, s, true) == all + if HoldsOfNothing(e) then [last] else [];
      } else {
        var more := if Matches(e, last, false) then [last] else [];
        assert Matching(e, s, false) == some + more && Matching(e, s, true) == all + more;
        assert all + [] == all && some + [] == some;
      }
    }
  }

  lemma LastSame(s: seq<seq<int>>, t: seq<seq<int>>, a: seq<int>)
    ensures s + [a] == t + [a] <==> s == t
    ensures |t| <= |s| ==> s + [a] != t
  {
    if s + [a] == t + [a] {
      assert s == (s + [a])[..|s + [a]| - 1] == (t + [a])[..|t + [a]| - 1] == t;
    }
  }

  lemma EntryFound(t: Tree, e: Expr, r: bool)
    requires t.Entry? && Covered(t) && KeyOk(t.key)
    requires t.key.Stored? ==> (r <==> Eval(e, n => May(t.key, n), true))
    requires t.key.Signed? ==> (r <==> t.key.s.AllTrue? || Eval(e, n => May(t.key, n), false))
    ensures Matches(e, t.row, false) ==> r
    ensures t.key.Stored? ==> (r <==> Matches(e, t.row, true))
  {
    hide Eval, KeyOk;
    var v := n => n in t.row;
    if t.key.Stored? {
      SameEval(e, v, n => May(t.key, n), true);
    } else {
      HoldsOnMore(e, v, n => May(t.key, n));
    }
  }

  lemma KeySeesMatch(t: Tree, e: Expr, a: seq<int>)
    requires Covered(t) && KeyOk(t.key) && a in Arrays(t) && Eval(e, n => n in a, true)
    ensures Eval(e, n => May(t.key, n), false)
  {
    hide Eval, KeyOk;
    ArrayBelow(t, a);
    HoldsOnMore(e, n => n in a, n => May(t.key, n));
  }

  /** Every integer of an array below a key is allowed by the key. */
  lemma {:induction false} ArrayBelow(t: Tree, a: seq<int>)
    requires Covered(t) && KeyOk(t.key) && a in Arrays(t)
    ensures forall x :: x in a ==> May(t.key, x)
    decreases t, |Arrays(t)|
  {
    if t.Page? {
      var i := KidWith(t, a, |t.kids|);
      CoveredKey(t.kids[i]);
      ArrayBelow(t.kids[i], a);
      assert KeyOver(t.key, t.kids[i].key);
    }
  }

  lemma {:induction false} KidWith(t: Tree, a: seq<int>, n: nat) returns (i: nat)
    requires t.Page? && n <= |t.kids| && a in ArraysOf(t, n)
    ensures i < n && a in Arrays(t.kids[i])
    decreases n
  {
    if a in Arrays(t.kids[n - 1]) { return n - 1; }
    i := KidWith(t, a, n - 1);
  }

  lemma {:induction false} PageRejected(t: Tree, e: Expr, n: nat, empties: bool)
    requires t.Page? && Covered(t) && KeyOk(t.key) && n <= |t.kids|
    requires !Eval(e, n => May(t.key, n), false)
    ensures Matching(e, ArraysOf(t, n), empties) == []
  {
    var s := ArraysOf(t, n);
    if Matching(e, s, empties) != [] {
      var a := SomeMatching(e, s, empties);
      var i := KidWith(t, a, n);
      KidInArrays(t, i, a, |t.kids|);
      KeySeesMatch(t, e, a);
    }
  }

  lemma {:induction false} KidInArrays(t: Tree, i: nat, a: seq<int>, n: nat)
    requires t.Page? && i < n <= |t.kids| && a in Arrays(t.kids[i])
    ensures a in ArraysOf(t, n)
    decreases n
  {
    if i < n - 1 { KidInArrays(t, i, a, n - 1); }
  }

  lemma {:induction false} SomeMatching(e: Expr, s: seq<seq<int>>, empties: bool) returns (a: seq<int>)
    requires Matching(e, s, empties) != []
    ensures a in s && Matches(e, a, empties)
    decreases |s|
  {
    a := s[|s| - 1];
    if !Matches(e, a, empties) { a := SomeMatching(e, s[..|s| - 1], empties); }
  }

  // ---------------------------------------------------------------- arrays that are too long

  /** What decompression finds in the words it reads as pairs. */
  function AsRanges(words: seq<int>): int -> bool {
    n => n in Ints(RangesOf(words))
  }

  function AsArray(a: seq<int>): int -> bool {
    n => n in a
  }

  /** An array of the int class still matches what it matched when its words are read as pairs. */
  ghost predicate KeptAsEntry(e: Expr, a: seq<int>, words: seq<int>) {
    Eval(e, AsArray(a), true) ==> Eval(e, AsRanges(words), true)
  }

  /** No match is lost exactly when the pairs hold the integers of the array and no others. */
  lemma KeptIffSame(a: seq<int>, words: seq<int>)
    ensures (forall e :: KeptAsEntry(e, a, words)) <==> forall n :: AsArray(a)(n) == AsRanges(words)(n)
  {
    hide Ints, RangesOf;
    if forall n :: AsArray(a)(n) == AsRanges(words)(n) {
      forall e ensures KeptAsEntry(e, a, words) {
        SameEval(e, AsArray(a), AsRanges(words), true);
      }
    }
    if n :| AsArray(a)(n) != AsRanges(words)(n) {
      if AsArray(a)(n) {
        assert !KeptAsEntry(Leaf(n), a, words);
      } else {
        assert Eval(Leaf(n), AsRanges(words), true) && !Eval(Leaf(n), AsArray(a), true);
        assert !KeptAsEntry(Not(Leaf(n)), a, words);
      }
    }
  }

  predicate PairsAreNeighbours(a: seq<int>) {
    forall k :: 0 <= k < |a| / 2 ==> Hi(a, k) == Lo(a, k) + 1
  }

  /**
   * An entry of 2*MAXNUMRANGE integers or more is stored all the same (there is only a notice), and
   * then read as ranges. With an even number of integers, no match is lost exactly when each range
   * read that way holds two neighbours.
   */
  lemma LongEntryKeepsMatchesIff(a: seq<int>)
    requires Increasing(a) && |a| >= 2 * MAXNUMRANGE && |a| % 2 == 0
    ensures IsStored(a)
    ensures (forall e :: KeptAsEntry(e, a, a)) <==> PairsAreNeighbours(a)
  {
    KeptIffSame(a, a);
    PairsSameIff(a, a);
  }

  /**
   * With an odd number the loop also reads the word behind the array: then no match is lost exactly
   * when, besides, that word happens to repeat the last integer.
   */
  lemma LongOddEntryKeepsMatchesIff(a: seq<int>, word: int)
    requires Increasing(a) && |a| >= 2 * MAXNUMRANGE && |a| % 2 == 1
    ensures (forall e :: KeptAsEntry(e, a, a + [word])) <==> PairsAreNeighbours(a) && word == a[|a| - 1]
  {
    hide *;
    var words := a + [word];
    assert words[..|a|] == a && words[|a|] == word;
    KeptIffSame(a, words);
    PairsSameIff(a, words);
  }

  /** The words are the array, with one more if their number would be odd. */
  lemma PairsSameIff(a: seq<int>, words: seq<int>)
    requires Increasing(a) && |words| % 2 == 0 && (words == a || (a != [] && |words| == |a| + 1 && a == words[..|a|]))
    ensures (forall n :: AsArray(a)(n) == AsRanges(words)(n)) <==>
      PairsAreNeighbours(a) && (words == a || words[|a|] == a[|a| - 1])
  {
    hide Ints, RangesOf;
    if PairsAreNeighbours(a) && (words == a || words[|a|] == a[|a| - 1]) {
      forall n ensures AsArray(a)(n) == AsRanges(words)(n) { PairsHold(a, words, n); }
    }
    if forall n :: AsArray(a)(n) == AsRanges(words)(n) {
      forall k | 0 <= k < |a| / 2 ensures Hi(a, k) == Lo(a, k) + 1 {
        assert a[2 * k] < a[2 * k + 1];
        InPair(words, k, a[2 * k] + 1);
        assert AsArray(a)(a[2 * k] + 1);
        if a[2 * k] + 1 < a[2 * k + 1] { NothingBetween(a, 2 * k, a[2 * k] + 1); }
      }
      if words != a { LastPair(a, words); }
    }
  }

  lemma LastPair(a: seq<int>, words: seq<int>)
    requires Increasing(a) && a != [] && |words| == |a| + 1 && |words| % 2 == 0 && a == words[..|a|]
    requires forall n :: AsArray(a)(n) == AsRanges(words)(n)
    ensures words[|a|] == a[|a| - 1]
  {
    hide Ints, RangesOf;
    var last, k := a[|a| - 1], |a| / 2;
    assert AsArray(a)(last) && AsRanges(words)(last);
    var i := PairWith(words, last);
    assert forall j :: 0 <= j < |a| - 1 ==> words[j] == a[j] < last;
    assert i == k;
    assert last <= words[|a|];
    NothingAbove(a, last + 1);
    if last < words[|a|] { InPair(words, k, last + 1); }
  }

  lemma NothingAbove(a: seq<int>, n: int)
    requires Increasing(a) && a != [] && a[|a| - 1] < n
    ensures !AsArray(a)(n)
  {
  }

  lemma PairWith(words: seq<int>, n: int) returns (k: nat)
    requires |words| % 2 == 0 && n in Ints(RangesOf(words))
    ensures 2 * k + 1 < |words| && words[2 * k] <= n <= words[2 * k + 1]
  {
    hide Ints;
    var c := RangesOf(words);
    k :| 0 <= k < |c| && c[k].lo <= n <= c[k].hi;
  }

  lemma InPair(words: seq<int>, k: nat, n: int)
    requires 2 * k + 1 < |words| && words[2 * k] <= n <= words[2 * k + 1]
    ensures AsRanges(words)(n)
  {
    var c := RangesOf(words);
    assert c[k].lo <= n <= c[k].hi;
  }

  lemma PairsHold(a: seq<int>, words: seq<int>, n: int)
    requires |words| % 2 == 0 && (words == a || (a != [] && |words| == |a| + 1 && a == words[..|a|]))
    requires PairsAreNeighbours(a) && (words == a || words[|a|] == a[|a| - 1])
    ensures AsArray(a)(n) == AsRanges(words)(n)
  {
    hide Ints, RangesOf;
    if n in a {
      var i :| 0 <= i < |a| && a[i] == n;
      PairOf(a, words, i);
      InPair(words, i / 2, n);
    }
    if n in Ints(RangesOf(words)) {
      var k := PairWith(words, n);
      if k < |a| / 2 {
        assert n == Lo(a, k) || n == Hi(a, k);
      } else {
        assert n == a[2 * k];
      }
    }
  }

  lemma PairOf(a: seq<int>, words: seq<int>, i: nat)
    requires |words| % 2 == 0 && (words == a || (|words| == |a| + 1 && a == words[..|a|])) && i < |a|
    requires PairsAreNeighbours(a) && (words == a || words[|a|] == a[|a| - 1])
    ensures 2 * (i / 2) + 1 < |words| && words[2 * (i / 2)] <= a[i] <= words[2 * (i / 2) + 1]
  {
    var k := i / 2;
    if k < |a| / 2 {
      assert Hi(a, k) == Lo(a, k) + 1;
      assert i == 2 * k || i == 2 * k + 1;
    } else {
      assert i == 2 * k == |a| - 1;
    }
  }

  lemma NothingBetween(a: seq<int>, i: nat, x: int)
    requires Increasing(a) && i + 1 < |a| && a[i] < x < a[i + 1]
    ensures x !in a
  {
  }
}
