/**
 * The ltree index of contrib/ltree/ltree_gist.c: keys with the least and greatest path below
 * and the hash bits of all their levels. The hash is any function crc of a lower-cased name.
 */
module LtreeGist {
  import opened Basics
  import opened Bags
  import opened BitSign
  import opened LexOrder
  import opened Lquery
  import opened LtreeOrder

  const SIGLEN := 8
  const SIGLENBIT := 64

  // ---------------------------------------------------------------- hashing

  function Lower(s: string): (l: string)
    ensures |l| == |s| && forall k :: 0 <= k < |s| ==> l[k] == Fold(s[k], true)
  {
    seq(|s|, k requires 0 <= k < |s| => Fold(s[k], true))
  }

  /** HASHVAL of a name's checksum. */
  function HashName(crc: string -> int, s: string): (h: nat)
    ensures h < SIGLENBIT
  {
    (crc(Lower(s)) % 0x1_0000_0000) % SIGLENBIT
  }

  /** hashing: sets the bits of a path's levels. */
  method Hashing(sign: array<bv8>, t: Path, crc: string -> int)
    requires sign.Length == SIGLEN
    modifies sign
    ensures forall j: nat :: j < SIGLENBIT ==>
      (GetBit(sign[..], j) <==> GetBit(old(sign[..]), j) || exists k :: 0 <= k < |t| && HashName(crc, t[k]) == j)
  {
    hide GetBit, HashName;
    var i := 0;
    while i < |t|
      invariant 0 <= i <= |t|
      invariant forall j: nat :: j < SIGLENBIT ==>
        (GetBit(sign[..], j) <==> GetBit(old(sign[..]), j) || exists k :: 0 <= k < i && HashName(crc, t[k]) == j)
    {
      SetBit(sign, HashName(crc, t[i]));
      i := i + 1;
    }
  }

  // ---------------------------------------------------------------- keys

  /**
   * ltree_gist: one path, or the bounds of the paths below (no right one when they are equal) and,
   * unless every bit is set, the bits of their levels.
   */
  datatype Key = OneNode(node: Path) | Bounds(sign: Option<seq<bv8>>, lnode: Path, rnode: Option<Path>)
  {
    /** LTG_GETLNODE */
    function Left(): Path { if OneNode? then node else lnode }

    /** LTG_GETRNODE */
    function Right(): Path { if OneNode? then node else if rnode.None? then lnode else rnode.value }
  }

  predicate Shallow(p: Path) {
    |p| <= SHALLOW
  }

  ghost predicate KeyOk(k: Key) {
    Shallow(k.Left()) && Shallow(k.Right()) && (k.Bounds? && k.sign.Some? ==> |k.sign.value| == SIGLEN)
  }

  ghost predicate Between(l: Path, p: Path, r: Path) {
    PathOrder(l, p) <= 0 && PathOrder(p, r) <= 0
  }

  /** The key has the bit of every level of the path. */
  ghost predicate BitsOf(k: Key, p: Path, crc: string -> int)
    requires KeyOk(k) && k.Bounds?
  {
    k.sign.Some? ==> forall i :: 0 <= i < |p| ==> GetBit(k.sign.value, HashName(crc, p[i]))
  }

  /** The path may be below the key. */
  ghost predicate Allows(k: Key, p: Path, crc: string -> int)
    requires KeyOk(k)
  {
    if k.OneNode? then p == k.node else Between(k.lnode, p, k.Right()) && BitsOf(k, p, crc)
  }

  // ---------------------------------------------------------------- union

  /** The key has bit j, or every bit. */
  ghost predicate KeyBit(k: Key, j: nat, crc: string -> int)
    requires KeyOk(k) && j < SIGLENBIT
  {
    match k
    case OneNode(p) => exists i :: 0 <= i < |p| && HashName(crc, p[i]) == j
    case Bounds(s, _, _) => s.Some? ==> GetBit(s.value, j)
  }

  /** The part of the loops of ltree_union and ltree_picksplit that gathers the bits of one key. */
  method Gather(base: array<bv8>, all: bool, cur: Key, crc: string -> int) returns (all': bool)
    requires base.Length == SIGLEN && KeyOk(cur)
    modifies base
    ensures all' <==> all || (cur.Bounds? && cur.sign.None?)
    ensures !all' ==> forall j: nat :: j < SIGLENBIT ==> (GetBit(base[..], j) <==> GetBit(old(base[..]), j) || KeyBit(cur, j, crc))
  {
    hide GetBit, HashName, PathOrder;
    all' := all;
    if cur.OneNode? {
      Hashing(base, cur.node, crc);
    } else if all || cur.sign.None? {
      all' := true;
    } else {
      OrBytes(base, cur.sign.value);
    }
  }

  /** Whether ltree_compare and the order agree on these paths. */
  lemma CompareSound(a: Path, b: Path)
    requires Shallow(a) && Shallow(b)
    ensures !WrapsAround(a, b) && !WrapsAround(b, a)
  {
    ShallowOrdered(a, b);
    ShallowOrdered(b, a);
  }

  /** The lesser of what is known and one more path. */
  method Lesser(left: Option<Path>, cur: Path) returns (least: Path)
    requires Shallow(cur) && (left.Some? ==> Shallow(left.value))
    ensures Shallow(least) && PathOrder(least, cur) <= 0 && (left.Some? ==> PathOrder(least, left.value) <= 0)
    ensures least == cur || left == Some(least)
  {
    PathsOrdered(cur, cur, cur, 0);
    if left.None? { return cur; }
    CompareSound(left.value, cur);
    PathsOrdered(left.value, cur, cur, 0);
    PathsOrdered(left.value, left.value, cur, 0);
    hide PathOrder, WrapsAround;
    var c := LtreeCompare(left.value, cur);
    return if c > 0 then cur else left.value;
  }

  /** The greater of what is known and one more path. */
  method Greater(right: Option<Path>, cur: Path) returns (greatest: Path)
    requires Shallow(cur) && (right.Some? ==> Shallow(right.value))
    ensures Shallow(greatest) && PathOrder(cur, greatest) <= 0 && (right.Some? ==> PathOrder(right.value, greatest) <= 0)
    ensures greatest == cur || right == Some(greatest)
  {
    PathsOrdered(cur, cur, cur, 0);
    if right.None? { return cur; }
    CompareSound(right.value, cur);
    PathsOrdered(right.value, cur, cur, 0);
    PathsOrdered(right.value, right.value, cur, 0);
    hide PathOrder, WrapsAround;
    var c := LtreeCompare(right.value, cur);
    return if c < 0 then cur else right.value;
  }

  /** The end of both functions: the key is put together. */
  method Assemble(base: array<bv8>, all: bool, left: Path, right: Path) returns (k: Key)
    requires base.Length == SIGLEN && Shallow(left) && Shallow(right)
    ensures KeyOk(k) && k.Bounds? && k.lnode == left && k.Right() == right
    ensures (k.sign == Some(base[..]) && !all) || (k.sign.None? && (all || forall j: nat :: j < SIGLENBIT ==> GetBit(base[..], j)))
  {
    hide GetBit, PathOrder;
    var isAll := all;
    if !isAll { isAll := AllBits(base[..]); }
    CompareSound(left, right);
    PathsOrdered(left, right, right, 0);
    hide WrapsAround;
    var c := LtreeCompare(left, right);
    var isleqr := left == right || (|left| == |right| && c == 0);
    return Bounds(if isAll then None else Some(base[..]), left, if isleqr then None else Some(right));
  }

  lemma BitsOver(k: Key, cur: Key, crc: string -> int)
    requires KeyOk(k) && k.Bounds? && KeyOk(cur)
    requires PathOrder(k.lnode, cur.Left()) <= 0 && PathOrder(cur.Right(), k.Right()) <= 0
    requires forall j: nat :: j < SIGLENBIT && KeyBit(cur, j, crc) ==> KeyBit(k, j, crc)
    ensures Over(k, cur, crc)
  {
    hide GetBit, HashName, PathOrder;
    forall p | Allows(cur, p, crc) ensures Allows(k, p, crc) {
      PathsOrdered(k.lnode, cur.Left(), p, 0);
      PathsOrdered(p, cur.Right(), k.Right(), 0);
      PathsOrdered(p, p, p, 0);
      forall i | 0 <= i < |p| ensures KeyBit(k, HashName(crc, p[i]), crc) {
        assert KeyBit(cur, HashName(crc, p[i]), crc);
      }
    }
  }

  /** Whatever may be below l may be below k. */
  ghost predicate Over(k: Key, l: Key, crc: string -> int)
    requires KeyOk(k) && KeyOk(l)
  {
    forall p :: Allows(l, p, crc) ==> Allows(k, p, crc)
  }

  lemma OverTransitive(k: Key, l: Key, m: Key, crc: string -> int)
    requires KeyOk(k) && KeyOk(l) && KeyOk(m) && Over(k, l, crc) && Over(l, m, crc)
    ensures Over(k, m, crc)
  {
    hide Allows;
  }

  ghost predicate SomeKeyBit(ks: seq<Key>, j: nat, crc: string -> int)
    requires j < SIGLENBIT
  {
    exists i :: 0 <= i < |ks| && KeyOk(ks[i]) && KeyBit(ks[i], j, crc)
  }

  /** The bits gathered are those of ks. */
  ghost predicate BitsKnown(base: seq<bv8>, all: bool, ks: seq<Key>, crc: string -> int) {
    && |base| == SIGLEN && (forall i :: 0 <= i < |ks| ==> KeyOk(ks[i]))
    && (all ==> exists i :: 0 <= i < |ks| && ks[i].Bounds? && ks[i].sign.None?)
    && (!all ==> forall j: nat :: j < SIGLENBIT ==> (GetBit(base, j) <==> SomeKeyBit(ks, j, crc)))
  }

  ghost predicate LeftKnown(left: Option<Path>, ks: seq<Key>) {
    && (left.Some? <==> ks != []) && (left.Some? ==> Shallow(left.value))
    && (left.Some? ==> exists i :: 0 <= i < |ks| && left.value == ks[i].Left())
    && forall i :: 0 <= i < |ks| && left.Some? ==> PathOrder(left.value, ks[i].Left()) <= 0
  }

  ghost predicate RightKnown(right: Option<Path>, ks: seq<Key>) {
    && (right.Some? <==> ks != []) && (right.Some? ==> Shallow(right.value))
    && (right.Some? ==> exists i :: 0 <= i < |ks| && right.value == ks[i].Right())
    && forall i :: 0 <= i < |ks| && right.Some? ==> PathOrder(ks[i].Right(), right.value) <= 0
  }

  lemma SomeBitMore(ks: seq<Key>, cur: Key, j: nat, crc: string -> int)
    requires j < SIGLENBIT && KeyOk(cur)
    ensures SomeKeyBit(ks + [cur], j, crc) <==> SomeKeyBit(ks, j, crc) || KeyBit(cur, j, crc)
  {
    hide KeyBit, KeyOk;
    var ls := ks + [cur];
    if SomeKeyBit(ks, j, crc) {
      var i :| 0 <= i < |ks| && KeyOk(ks[i]) && KeyBit(ks[i], j, crc);
      assert ls[i] == ks[i];
    }
    if KeyBit(cur, j, crc) { assert ls[|ks|] == cur; }
    if SomeKeyBit(ls, j, crc) {
      var i :| 0 <= i < |ls| && KeyOk(ls[i]) && KeyBit(ls[i], j, crc);
      if i < |ks| { assert ks[i] == ls[i]; }
    }
  }

  lemma BitsMore(base: seq<bv8>, base': seq<bv8>, all: bool, all': bool, ks: seq<Key>, cur: Key, crc: string -> int)
    requires BitsKnown(base, all, ks, crc) && |base'| == SIGLEN && KeyOk(cur)
    requires all' <==> all || (cur.Bounds? && cur.sign.None?)
    requires !all' ==> forall j: nat :: j < SIGLENBIT ==> (GetBit(base', j) <==> GetBit(base, j) || KeyBit(cur, j, crc))
    ensures BitsKnown(base', all', ks + [cur], crc)
  {
    hide GetBit, KeyBit, SomeKeyBit, KeyOk;
    var ls := ks + [cur];
    if all {
      var i :| 0 <= i < |ks| && ks[i].Bounds? && ks[i].sign.None?;
      assert ls[i] == ks[i];
    } else if all' {
      assert ls[|ks|] == cur;
    } else {
      forall j: nat | j < SIGLENBIT ensures GetBit(base', j) <==> SomeKeyBit(ls, j, crc) { SomeBitMore(ks, cur, j, crc); }
    }
  }

  lemma LeftMore(left: Option<Path>, l: Path, ks: seq<Key>, cur: Key)
    requires LeftKnown(left, ks) && Shallow(l) && PathOrder(l, cur.Left()) <= 0
    requires left.Some? ==> PathOrder(l, left.value) <= 0
    requires l == cur.Left() || left == Some(l)
    ensures LeftKnown(Some(l), ks + [cur])
  {
    hide PathOrder, Shallow;
    var ls := ks + [cur];
    forall i | 0 <= i < |ks| ensures PathOrder(l, ks[i].Left()) <= 0 {
      PathsOrdered(l, left.value, ks[i].Left(), 0);
    }
    if l == cur.Left() {
      assert ls[|ks|] == cur;
    } else {
      var i :| 0 <= i < |ks| && l == ks[i].Left();
      assert ls[i] == ks[i];
    }
  }

  lemma RightMore(right: Option<Path>, r: Path, ks: seq<Key>, cur: Key)
    requires RightKnown(right, ks) && Shallow(r) && PathOrder(cur.Right(), r) <= 0
    requires right.Some? ==> PathOrder(right.value, r) <= 0
    requires r == cur.Right() || right == Some(r)
    ensures RightKnown(Some(r), ks + [cur])
  {
    hide PathOrder, Shallow;
    var ls := ks + [cur];
    forall i | 0 <= i < |ks| ensures PathOrder(ks[i].Right(), r) <= 0 {
      PathsOrdered(ks[i].Right(), right.value, r, 0);
    }
    if r == cur.Right() {
      assert ls[|ks|] == cur;
    } else {
      var i :| 0 <= i < |ks| && r == ks[i].Right();
      assert ls[i] == ks[i];
    }
  }

  /** k is the least key over ks: tight bounds, and no bit that none of them has. */
  ghost predicate LeastOver(k: Key, ks: seq<Key>, crc: string -> int) {
    && KeyOk(k) && k.Bounds? && (forall i :: 0 <= i < |ks| ==> KeyOk(ks[i]) && Over(k, ks[i], crc))
    && (exists i :: 0 <= i < |ks| && k.lnode == ks[i].Left())
    && (exists i :: 0 <= i < |ks| && k.Right() == ks[i].Right())
    && (forall j: nat :: j < SIGLENBIT ==> (KeyBit(k, j, crc) <==> SomeKeyBit(ks, j, crc)))
  }

  lemma AssembledBits(k: Key, base: seq<bv8>, all: bool, ks: seq<Key>, crc: string -> int)
    requires BitsKnown(base, all, ks, crc) && KeyOk(k) && k.Bounds?
    requires (k.sign == Some(base) && !all) || (k.sign.None? && (all || forall j: nat :: j < SIGLENBIT ==> GetBit(base, j)))
    ensures forall j: nat :: j < SIGLENBIT ==> (KeyBit(k, j, crc) <==> SomeKeyBit(ks, j, crc))
  {
    hide GetBit;
    forall j: nat | j < SIGLENBIT ensures KeyBit(k, j, crc) <==> SomeKeyBit(ks, j, crc) {
      if all {
        var i :| 0 <= i < |ks| && ks[i].Bounds? && ks[i].sign.None?;
        assert KeyBit(ks[i], j, crc);
      }
    }
  }

  lemma KnownLeast(k: Key, base: seq<bv8>, all: bool, left: Option<Path>, right: Option<Path>, ks: seq<Key>, crc: string -> int)
    requires BitsKnown(base, all, ks, crc) && LeftKnown(left, ks) && RightKnown(right, ks) && ks != []
    requires KeyOk(k) && k.Bounds? && k.lnode == left.value && k.Right() == right.value
    requires (k.sign == Some(base) && !all) || (k.sign.None? && (all || forall j: nat :: j < SIGLENBIT ==> GetBit(base, j)))
    ensures LeastOver(k, ks, crc)
  {
    AssembledBits(k, base, all, ks, crc);
    hide PathOrder, GetBit, KeyBit, Allows, KeyOk, Over;
    forall i | 0 <= i < |ks| ensures Over(k, ks[i], crc) {
      forall j: nat | j < SIGLENBIT && KeyBit(ks[i], j, crc) ensures KeyBit(k, j, crc) {
        assert SomeKeyBit(ks, j, crc);
      }
      BitsOver(k, ks[i], crc);
    }
  }

  /** ltree_union */
  method LtreeUnion(keys: seq<Key>, crc: string -> int) returns (k: Key)
    requires |keys| > 0 && forall i :: 0 <= i < |keys| ==> KeyOk(keys[i])
    ensures LeastOver(k, keys, crc)
  {
    hide BitsKnown, LeftKnown, RightKnown, LeastOver, GetBit, PathOrder, KeyOk, KeyBit, Shallow;
    var base := NoBits(SIGLEN);
    var all := false;
    var left, right := None, None;
    NothingKnown(base[..], crc);
    assert keys[..0] == [];
    for j := 0 to |keys|
      invariant base.Length == SIGLEN
      invariant BitsKnown(base[..], all, keys[..j], crc) && LeftKnown(left, keys[..j]) && RightKnown(right, keys[..j])
    {
      var cur := keys[j];
      assert keys[..j + 1] == keys[..j] + [cur];
      KeyEnds(cur);
      ghost var was, all0 := base[..], all;
      all := Gather(base, all, cur, crc);
      BitsMore(was, base[..], all0, all, keys[..j], cur, crc);
      KnownEnds(left, right, keys[..j]);
      var l := Lesser(left, cur.Left());
      LeftMore(left, l, keys[..j], cur);
      left := Some(l);
      var r := Greater(right, cur.Right());
      RightMore(right, r, keys[..j], cur);
      right := Some(r);
    }
    assert keys[..|keys|] == keys;
    KnownEnds(left, right, keys);
    k := Assemble(base, all, left.value, right.value);
    KnownLeast(k, base[..], all, left, right, keys, crc);
  }

  lemma NothingKnown(base: seq<bv8>, crc: string -> int)
    requires |base| == SIGLEN && forall j: nat :: j < SIGLENBIT ==> !GetBit(base, j)
    ensures BitsKnown(base, false, [], crc) && LeftKnown(None, []) && RightKnown(None, [])
  {
    hide GetBit;
  }

  lemma KeyEnds(k: Key)
    requires KeyOk(k)
    ensures Shallow(k.Left()) && Shallow(k.Right())
  {
  }

  lemma KnownEnds(left: Option<Path>, right: Option<Path>, ks: seq<Key>)
    requires LeftKnown(left, ks) && RightKnown(right, ks)
    ensures left.Some? ==> Shallow(left.value)
    ensures right.Some? ==> Shallow(right.value)
    ensures ks != [] ==> left.Some? && right.Some?
  {
  }

  /** The key that ltree_picksplit puts together for the entries of one page, sorted by their left paths. */
  method HalfKey(part: seq<Key>, crc: string -> int) returns (k: Key)
    requires |part| > 0 && forall i :: 0 <= i < |part| ==> KeyOk(part[i])
    requires LeftKnown(Some(part[0].Left()), part)
    ensures LeastOver(k, part, crc)
  {
    hide BitsKnown, LeftKnown, RightKnown, LeastOver, GetBit, PathOrder, KeyOk, KeyBit, Shallow;
    var base := NoBits(SIGLEN);
    var all := false;
    var right := None;
    NothingKnown(base[..], crc);
    assert part[..0] == [];
    for j := 0 to |part|
      invariant base.Length == SIGLEN
      invariant BitsKnown(base[..], all, part[..j], crc) && RightKnown(right, part[..j])
    {
      var cur := part[j];
      assert part[..j + 1] == part[..j] + [cur];
      KeyEnds(cur);
      RightEnd(right, part[..j]);
      var r := Greater(right, cur.Right());
      RightMore(right, r, part[..j], cur);
      right := Some(r);
      ghost var was, all0 := base[..], all;
      all := Gather(base, all, cur, crc);
      BitsMore(was, base[..], all0, all, part[..j], cur, crc);
    }
    assert part[..|part|] == part;
    RightEnd(right, part);
    KeyEnds(part[0]);
    k := Assemble(base, all, part[0].Left(), right.value);
    KnownLeast(k, base[..], all, Some(part[0].Left()), right, part, crc);
  }

  lemma RightEnd(right: Option<Path>, ks: seq<Key>)
    requires RightKnown(right, ks)
    ensures (right.Some? ==> Shallow(right.value)) && (ks != [] ==> right.Some?)
  {
  }

  lemma SortedLeft(part: seq<Key>)
    requires |part| > 0 && forall i :: 0 <= i < |part| ==> KeyOk(part[i])
    requires InOrder(part)
    ensures LeftKnown(Some(part[0].Left()), part)
  {
    hide PathOrder;
    assert KeyOk(part[0]);
  }

  function KeysAt(keys: seq<Key>, idx: seq<nat>): (s: seq<Key>)
    requires Below(idx, |keys|)
    ensures |s| == |idx| && forall k :: 0 <= k < |idx| ==> s[k] == keys[idx[k]]
  {
    seq(|idx|, k requires 0 <= k < |idx| => keys[idx[k]])
  }

  ghost predicate InOrder(s: seq<Key>) {
    forall i, j :: 0 <= i <= j < |s| ==> PathOrder(s[i].Left(), s[j].Left()) <= 0
  }

  /** A key goes between those that are not after it and those that are. */
  lemma InsertedInOrder(s: seq<Key>, p: nat, k: Key, s': seq<Key>)
    requires InOrder(s) && p <= |s| && s' == s[..p] + [k] + s[p..]
    requires p > 0 ==> PathOrder(s[p - 1].Left(), k.Left()) <= 0
    requires forall i :: p <= i < |s| ==> PathOrder(s[i].Left(), k.Left()) > 0
    ensures InOrder(s')
  {
    hide PathOrder;
    forall i, j | 0 <= i <= j < |s'| ensures PathOrder(s'[i].Left(), s'[j].Left()) <= 0 {
      PathsOrdered(s'[i].Left(), s'[j].Left(), k.Left(), 0);
      PathsOrdered(s'[i].Left(), if p > 0 then s[p - 1].Left() else k.Left(), k.Left(), 0);
    }
  }

  /** The positions of the keys in the order of their left paths, as treekey_cmp sorts them. */
  method SortByLeft(keys: seq<Key>) returns (order: seq<nat>)
    requires forall i :: 0 <= i < |keys| ==> KeyOk(keys[i])
    ensures multiset(order) == multiset(Positions(|keys|)) && Below(order, |keys|)
    ensures InOrder(KeysAt(keys, order))
  {
    hide InOrder, PathOrder, KeyOk, Shallow;
    order := [];
    SortStart(keys);
    for n := 0 to |keys|
      invariant multiset(order) == multiset(Positions(n)) && Below(order, n)
      invariant InOrder(KeysAt(keys, order))
    {
      var p := PlaceFor(keys, order, n);
      ghost var was := order;
      order := order[..p] + [n] + order[p..];
      SortMore(keys, was, p, n, order);
    }
  }

  /** Behind the last key that is not after key n. */
  method PlaceFor(keys: seq<Key>, order: seq<nat>, n: nat) returns (p: nat)
    requires n < |keys| && Below(order, |keys|) && forall i :: 0 <= i < |keys| ==> KeyOk(keys[i])
    ensures p <= |order| && (p > 0 ==> PathOrder(keys[order[p - 1]].Left(), keys[n].Left()) <= 0)
    ensures forall i :: p <= i < |order| ==> PathOrder(keys[order[i]].Left(), keys[n].Left()) > 0
  {
    hide PathOrder, KeyOk, Shallow;
    p := |order|;
    KeyEnds(keys[n]);
    while p > 0
      invariant p <= |order|
      invariant forall i :: p <= i < |order| ==> PathOrder(keys[order[i]].Left(), keys[n].Left()) > 0
    {
      KeyEnds(keys[order[p - 1]]);
      var after := IsAfter(keys[order[p - 1]].Left(), keys[n].Left());
      if !after { return; }
      p := p - 1;
    }
  }

  lemma SortMore(keys: seq<Key>, order: seq<nat>, p: nat, n: nat, more: seq<nat>)
    requires n < |keys| && Below(order, n) && multiset(order) == multiset(Positions(n)) && InOrder(KeysAt(keys, order))
    requires p <= |order| && more == order[..p] + [n] + order[p..]
    requires p > 0 ==> PathOrder(keys[order[p - 1]].Left(), keys[n].Left()) <= 0
    requires forall i :: p <= i < |order| ==> PathOrder(keys[order[i]].Left(), keys[n].Left()) > 0
    ensures multiset(more) == multiset(Positions(n + 1)) && Below(more, n + 1)
    ensures InOrder(KeysAt(keys, more))
  {
    hide *;
    PositionsMore(order, p, n, more);
    KeysMore(keys, order, p, n, more);
    InsertedInOrder(KeysAt(keys, order), p, keys[n], KeysAt(keys, more));
  }

  lemma PositionsMore(order: seq<nat>, p: nat, n: nat, more: seq<nat>)
    requires Below(order, n) && multiset(order) == multiset(Positions(n))
    requires p <= |order| && more == order[..p] + [n] + order[p..]
    ensures multiset(more) == multiset(Positions(n + 1)) && Below(more, n + 1)
  {
    assert Positions(n + 1) == Positions(n) + [n];
    assert order == order[..p] + order[p..];
    assert multiset(more) == multiset(order) + multiset{n};
  }

  lemma KeysMore(keys: seq<Key>, order: seq<nat>, p: nat, n: nat, more: seq<nat>)
    requires n < |keys| && Below(order, n) && p <= |order| && more == order[..p] + [n] + order[p..]
    ensures Below(order, |keys|) && Below(more, |keys|) && |KeysAt(keys, order)| == |order|
    ensures var s := KeysAt(keys, order); KeysAt(keys, more) == s[..p] + [keys[n]] + s[p..]
    ensures forall i :: 0 <= i < |order| ==> KeysAt(keys, order)[i] == keys[order[i]]
  {
  }

  method IsAfter(a: Path, b: Path) returns (after: bool)
    requires Shallow(a) && Shallow(b)
    ensures after <==> PathOrder(a, b) > 0
  {
    hide PathOrder, WrapsAround;
    CompareSound(a, b);
    var res := LtreeCompare(a, b);
    return res > 0;
  }

  lemma SortStart(keys: seq<Key>)
    ensures InOrder(KeysAt(keys, [])) && Positions(0) == []
  {
  }

  /** ltree_picksplit: the entries, put in the order of their left paths, are cut in the middle. */
  method LtreePickSplit(keys: seq<Key>, crc: string -> int) returns (left: seq<nat>, right: seq<nat>, lu: Key, ru: Key)
    requires |keys| >= 2 && forall i :: 0 <= i < |keys| ==> KeyOk(keys[i])
    ensures multiset(left) + multiset(right) == multiset(Positions(|keys|))
    ensures Below(left, |keys|) && Below(right, |keys|) && |left| == |keys| / 2
    ensures InOrder(KeysAt(keys, left) + KeysAt(keys, right))
    ensures LeastOver(lu, KeysAt(keys, left), crc) && LeastOver(ru, KeysAt(keys, right), crc)
  {
    hide PathOrder, LeastOver, KeyOk, LeftKnown;
    var order := SortByLeft(keys);
    Rearranged(order, |keys|);
    left, right := order[..|order| / 2], order[|order| / 2..];
    assert order == left + right;
    assert KeysAt(keys, order) == KeysAt(keys, left) + KeysAt(keys, right);
    HalvesInOrder(KeysAt(keys, left), KeysAt(keys, right));
    SortedLeft(KeysAt(keys, left));
    SortedLeft(KeysAt(keys, right));
    lu := HalfKey(KeysAt(keys, left), crc);
    ru := HalfKey(KeysAt(keys, right), crc);
  }

  lemma HalvesInOrder(l: seq<Key>, r: seq<Key>)
    requires InOrder(l + r)
    ensures InOrder(l) && InOrder(r)
  {
    hide PathOrder;
    var s := l + r;
    assert forall i :: 0 <= i < |l| ==> l[i] == s[i];
    assert forall i :: 0 <= i < |r| ==> r[i] == s[|l| + i];
  }

  // ---------------------------------------------------------------- ancestors and descendants

  /** A path whose count of levels can be lowered for a while. */
  class Ltree {
    var numlevel: nat
    const levels: Path

    ghost predicate Valid() reads this { numlevel <= |levels| }

    function Path(): Path
      requires Valid()
      reads this
    {
      levels[..numlevel]
    }

    constructor (p: Path)
      ensures Valid() && Path() == p && levels == p && numlevel == |p|
    {
      levels := p;
      numlevel := |p|;
    }
  }

  /** gist_isparent: some beginning of the query lies between the bounds; the query is left as it was. */
  method GistIsParent(k: Key, query: Ltree) returns (r: bool)
    requires KeyOk(k) && query.Valid() && Shallow(query.Path())
    modifies query`numlevel
    ensures query.numlevel == old(query.numlevel)
    ensures r <==> exists i :: 0 <= i <= query.numlevel && Between(k.Left(), query.levels[..i], k.Right())
  {
    hide PathOrder;
    var numlevel := query.numlevel;
    var i: int := query.numlevel;
    while i >= 0
      invariant -1 <= i <= numlevel
      invariant forall j :: i < j <= numlevel ==> !Between(k.Left(), query.levels[..j], k.Right())
    {
      query.numlevel := i;
      var q := query.Path();
      CompareSound(q, k.Left());
      CompareSound(q, k.Right());
      PathsOrdered(q, k.Left(), q, 0);
      hide WrapsAround;
      var l := LtreeCompare(q, k.Left());
      var g := LtreeCompare(q, k.Right());
      if l >= 0 && g <= 0 {
        query.numlevel := numlevel;
        return true;
      }
      i := i - 1;
    }
    query.numlevel := numlevel;
    return false;
  }

  /** gist_ischild: the query lies between the bounds cut to its depth. */
  method GistIsChild(k: Key, query: Path) returns (r: bool)
    requires KeyOk(k) && Shallow(query)
    ensures r <==> Between(Cut(k.Left(), |query|), query, Cut(k.Right(), |query|))
  {
    var left, right := Cut(k.Left(), |query|), Cut(k.Right(), |query|);
    r := true;
    CompareSound(query, left);
    CompareSound(query, right);
    PathsOrdered(query, left, right, 0);
    hide PathOrder, WrapsAround, Cut;
    var c := LtreeCompare(query, left);
    if c < 0 { r := false; }
    c := LtreeCompare(query, right);
    if r && c > 0 { r := false; }
  }

  lemma PrefixIsCut(p: Path, c: Path)
    requires IsPrefix(p, c)
    ensures Cut(c, |p|) == p
  {
  }

  /** A key that allows a descendant of the query is not rejected. */
  lemma ChildKept(k: Key, query: Path, p: Path, crc: string -> int)
    requires KeyOk(k) && Allows(k, p, crc) && IsPrefix(query, p)
    ensures Between(Cut(k.Left(), |query|), query, Cut(k.Right(), |query|))
  {
    hide PathOrder, BitsOf;
    PrefixIsCut(query, p);
    PathsOrdered(p, p, p, |query|);
    PathsOrdered(k.Left(), p, p, |query|);
    PathsOrdered(p, k.Right(), p, |query|);
  }

  // ---------------------------------------------------------------- queries of levels

  /** A level that only one exact name can match. */
  predicate Good(q: QLevel) {
    |q.variants| == 1 && !q.variants[0].anyEnd && !q.variants[0].inCase && !q.variants[0].subLexeme
  }

  ghost predicate IsFirstGood(q: seq<QLevel>, n: nat) {
    && n <= |q|
    && (forall i :: 0 <= i < n ==> Good(q[i]))
    && (n == |q| || !Good(q[n]))
  }

  /** The loop of lquery_in that counts the good levels at the start. */
  method CountFirstGood(q: seq<QLevel>) returns (firstgood: nat)
    ensures IsFirstGood(q, firstgood)
  {
    firstgood := 0;
    var wasbad := false;
    for i := 0 to |q|
      invariant firstgood <= i && (!wasbad ==> firstgood == i)
      invariant forall k :: 0 <= k < firstgood ==> Good(q[k])
      invariant wasbad ==> firstgood < |q| && !Good(q[firstgood])
    {
      if |q[i].variants| > 0 {
        if |q[i].variants| > 1 || !Good(q[i]) {
          wasbad := true;
        } else if !wasbad {
          firstgood := firstgood + 1;
        }
      } else {
        wasbad := true;
      }
    }
  }

  function NameOf(q: QLevel): Level {
    if Good(q) then q.variants[0].name else []
  }

  /** The names of the first n levels. */
  function Names(q: seq<QLevel>, n: nat): (p: Path)
    requires n <= |q|
    ensures |p| == n && forall i :: 0 <= i < n ==> p[i] == NameOf(q[i])
  {
    seq(n, i requires 0 <= i < n => NameOf(q[i]))
  }

  /** gist_tqcmp: compares the beginning of a path with the good names. */
  method GistTqcmp(t: Path, q: seq<QLevel>, firstgood: nat) returns (res: int)
    requires IsFirstGood(q, firstgood)
    ensures Sign(res) == PathOrder(Cut(t, firstgood), Names(q, firstgood))
  {
    hide Lex, StrNCmp, StringOrder;
    var an, bn := |t|, firstgood;
    var i := 0;
    ghost var a, b := Cut(t, firstgood), Names(q, firstgood);
    assert a[0..] == a && b[0..] == b;
    while an > 0 && bn > 0
      invariant 0 <= i <= |a| && i <= |b| && an == |t| - i && bn == firstgood - i
      invariant PathOrder(a, b) == PathOrder(a[i..], b[i..])
    {
      var al, bl := t[i], q[i].variants[0].name;
      PathStep(a, b, i);
      StrNCmpOrders(al, bl);
      res := StrNCmp(al, bl, Min(|al|, |bl|));
      if res == 0 {
        if |al| != |bl| {
          return |al| - |bl|;
        }
      } else {
        return;
      }
      SameLevel(al);
      an, bn, i := an - 1, bn - 1, i + 1;
    }
    EndOrder(a[i..], b[i..]);
    res := Min(|t|, firstgood) - firstgood;
  }

  lemma SameLevel(a: Level)
    ensures StringOrder(a, a) == 0
  {
    StringsOrdered();
  }

  /** gist_between: false only if the bounds, cut to the good levels, leave the good names out. */
  method GistBetween(k: Key, q: seq<QLevel>, firstgood: nat) returns (r: bool)
    requires IsFirstGood(q, firstgood)
    ensures r <==> Between(Cut(k.Left(), firstgood), Names(q, firstgood), Cut(k.Right(), firstgood))
  {
    PathsOrdered(Cut(k.Left(), firstgood), Names(q, firstgood), [], 0);
    PathsOrdered(Names(q, firstgood), Cut(k.Right(), firstgood), [], 0);
    if firstgood == 0 {
      assert Cut(k.Left(), 0) == [] && Cut(k.Right(), 0) == [] && Names(q, 0) == [];
      return true;
    }
    hide PathOrder, Names, Cut, IsFirstGood;
    var c := GistTqcmp(k.Left(), q, firstgood);
    if c > 0 { return false; }
    c := GistTqcmp(k.Right(), q, firstgood);
    if c < 0 { return false; }
    return true;
  }

  /** LQL_CANLOOKSIGN for a level without NOT: no variant has a flag under which other names match. */
  predicate CanLookSign(q: QLevel) {
    forall i :: 0 <= i < |q.variants| ==> !q.variants[i].anyEnd && !q.variants[i].subLexeme
  }

  ghost predicate SomeBit(sign: seq<bv8>, q: QLevel, crc: string -> int)
    requires |sign| == SIGLEN
  {
    exists i :: 0 <= i < |q.variants| && GetBit(sign, HashName(crc, q.variants[i].name))
  }

  ghost predicate BitsFound(k: Key, q: seq<QLevel>, crc: string -> int)
    requires KeyOk(k) && k.Bounds?
  {
    k.sign.Some? ==>
      forall i :: 0 <= i < |q| && |q[i].variants| > 0 && CanLookSign(q[i]) ==> SomeBit(k.sign.value, q[i], crc)
  }

  /** gist_qe: every level of exact names has a name whose bit is set. */
  method GistQe(k: Key, q: seq<QLevel>, crc: string -> int) returns (r: bool)
    requires KeyOk(k) && k.Bounds?
    ensures r <==> BitsFound(k, q, crc)
  {
    hide GetBit, HashName;
    if k.sign.None? { return true; }
    var sign := k.sign.value;
    for j := 0 to |q|
      invariant forall i :: 0 <= i < j && |q[i].variants| > 0 && CanLookSign(q[i]) ==> SomeBit(sign, q[i], crc)
    {
      if |q[j].variants| > 0 && CanLookSign(q[j]) {
        var isexist := false;
        var v := 0;
        while v < |q[j].variants|
          invariant 0 <= v <= |q[j].variants| && !isexist
          invariant forall i :: 0 <= i < v ==> !GetBit(sign, HashName(crc, q[j].variants[i].name))
        {
          if GetBit(sign, HashName(crc, q[j].variants[v].name)) {
            isexist := true;
            break;
          }
          v := v + 1;
        }
        if !isexist { return false; }
      }
    }
    return true;
  }

  /** The first piece of a match, and the match of what follows. */
  lemma FirstPiece(q: seq<QLevel>, p: Path) returns (b: nat)
    requires q != [] && Splits(LastStars(q), p)
    ensures b <= |p| && Splits(LastStars(q[1..]), p[b..])
    ensures !q[0].IsStar() ==> b == 1 && Accepts(q[0], p[0])
  {
    hide Splits, Accepts;
    var s := LastStars(q);
    if |q| > 1 && q[0].IsStar() && q[1].IsStar() {
      b := 0;
      assert p[0..] == p;
    } else {
      SplitCons(s, p);
      assert s[1..] == LastStars(q[1..]);
      b :| TakesPiece(q[0], p, 0, b) && Splits(LastStars(q[1..]), p[b..]);
    }
  }

  /** A path that the matcher accepts begins with the good names. */
  lemma {:induction false} MatchedNames(q: seq<QLevel>, n: nat, p: Path)
    requires Splits(LastStars(q), p) && n <= |q| && forall i :: 0 <= i < n ==> Good(q[i])
    ensures Cut(p, n) == Names(q, n)
    decreases |q|
  {
    hide Splits, LastStars, Accepts;
    if n > 0 {
      var b := FirstPiece(q, p);
      MatchedNames(q[1..], n - 1, p[b..]);
      GoodAccepts(q[0], p[0]);
      assert Cut(p, n) == [p[0]] + Cut(p[1..], n - 1);
      assert Names(q, n) == [NameOf(q[0])] + Names(q[1..], n - 1);
    }
  }

  /** A path that the matcher accepts has a level for every level of names. */
  lemma {:induction false} MatchedLevel(q: seq<QLevel>, i: nat, p: Path) returns (j: nat)
    requires Splits(LastStars(q), p) && i < |q| && !q[i].IsStar()
    ensures j < |p| && Accepts(q[i], p[j])
    decreases i
  {
    hide Splits, LastStars, Accepts;
    var b := FirstPiece(q, p);
    if i == 0 {
      j := 0;
    } else {
      j := MatchedLevel(q[1..], i - 1, p[b..]);
      j := b + j;
    }
  }

  lemma GoodAccepts(q: QLevel, t: Level)
    requires Good(q) && Accepts(q, t)
    ensures t == q.variants[0].name
  {
    var name := q.variants[0].name;
    assert WordMatches(name, t, false, false);
    assert forall k :: 0 <= k < |t| ==> name[k] == t[k];
  }

  /** A level whose names match only up to case has the hash of one of them. */
  lemma AcceptedHash(q: QLevel, t: Level, crc: string -> int)
    requires CanLookSign(q) && Accepts(q, t)
    ensures exists i :: 0 <= i < |q.variants| && HashName(crc, q.variants[i].name) == HashName(crc, t)
  {
    var i :| 0 <= i < |q.variants| && VariantAccepts(q.variants[i], t);
    var v := q.variants[i];
    assert forall k :: 0 <= k < |t| ==> Fold(v.name[k], v.inCase) == Fold(t[k], v.inCase);
    assert Lower(v.name) == Lower(t);
  }

  /** A key that allows a path the matcher accepts passes gist_qe and gist_between. */
  lemma MatchKept(k: Key, q: seq<QLevel>, n: nat, p: Path, crc: string -> int)
    requires KeyOk(k) && k.Bounds? && Allows(k, p, crc) && Splits(LastStars(q), p) && IsFirstGood(q, n)
    ensures Between(Cut(k.Left(), n), Names(q, n), Cut(k.Right(), n))
    ensures BitsFound(k, q, crc)
  {
    hide PathOrder, GetBit, HashName, Accepts, CanLookSign;
    MatchedNames(q, n, p);
    PathsOrdered(k.Left(), p, p, n);
    PathsOrdered(p, k.Right(), p, n);
    if k.sign.Some? {
      forall i | 0 <= i < |q| && |q[i].variants| > 0 && CanLookSign(q[i]) ensures SomeBit(k.sign.value, q[i], crc) {
        assert !q[i].IsStar();
        var j := MatchedLevel(q, i, p);
        AcceptedHash(q[i], p[j], crc);
      }
    }
  }

  // ---------------------------------------------------------------- the tree and its search

  datatype Tree = Entry(path: Path) | Page(key: Key, kids: seq<Tree>)
  {
    function KeyOf(): Key { if Entry? then OneNode(path) else key }
  }

  /** Every key allows what the keys below it allow. */
  ghost predicate Covered(t: Tree, crc: string -> int) {
    match t
    case Entry(p) => Shallow(p)
    case Page(k, kids) =>
      && KeyOk(k) && k.Bounds?
      && forall i :: 0 <= i < |kids| ==>
        Covered(kids[i], crc) && KeyOk(kids[i].KeyOf()) && Over(k, kids[i].KeyOf(), crc)
  }

  function Paths(t: Tree): seq<Path> {
    match t
    case Entry(p) => [p]
    case Page(_, kids) => PathsOf(t, |kids|)
  }

  /** The paths below the first n children. */
  function PathsOf(t: Tree, n: nat): seq<Path>
    requires t.Page? && n <= |t.kids|
    decreases t, n
  {
    if n == 0 then [] else PathsOf(t, n - 1) + Paths(t.kids[n - 1])
  }

  lemma {:induction false} PathAllowed(t: Tree, p: Path, crc: string -> int)
    requires Covered(t, crc) && KeyOk(t.KeyOf()) && p in Paths(t)
    ensures Allows(t.KeyOf(), p, crc)
    decreases t
  {
    if t.Page? {
      var i := KidWith(t, p, |t.kids|);
      PathAllowed(t.kids[i], p, crc);
      assert Over(t.key, t.kids[i].KeyOf(), crc);
    }
  }

  lemma {:induction false} KidWith(t: Tree, p: Path, n: nat) returns (i: nat)
    requires t.Page? && n <= |t.kids| && p in PathsOf(t, n)
    ensures i < n && p in Paths(t.kids[i])
    decreases n
  {
    if p in Paths(t.kids[n - 1]) { return n - 1; }
    i := KidWith(t, p, n - 1);
  }

  /** The operators an index answers: comparisons, ancestor, descendant, and matching. */
  datatype Query =
    | Less(p: Path) | LessEqual(p: Path) | Equal(p: Path) | GreaterEqual(p: Path) | Greater(p: Path)
    | AncestorOf(p: Path) | DescendantOf(p: Path) | Regex(q: seq<QLevel>, firstgood: nat)

  ghost predicate QueryOk(q: Query) {
    if q.Regex? then IsFirstGood(q.q, q.firstgood) else Shallow(q.p)
  }

  /** What the operator answers for a path. */
  ghost predicate Matches(q: Query, p: Path) {
    match q
    case Less(x) => PathBefore(p, x)
    case LessEqual(x) => p == x || PathBefore(p, x)
    case Equal(x) => p == x
    case GreaterEqual(x) => p == x || PathBefore(x, p)
    case Greater(x) => PathBefore(x, p)
    case AncestorOf(x) => IsPrefix(p, x)
    case DescendantOf(x) => IsPrefix(x, p)
    case Regex(l, _) => Splits(LastStars(l), p)
  }

  /** ltree_consistent on a leaf. */
  method LeafConsistent(p: Path, q: Query, stack: SomeStack) returns (r: bool)
    requires Shallow(p) && QueryOk(q) && !stack.muse
    modifies stack
    ensures !stack.muse && (r <==> Matches(q, p))
  {
    if q.Regex? {
      r := LtqRegex(stack, p, q.q);
    } else if q.AncestorOf? {
      r := InnerIsParent(q.p, p);
    } else if q.DescendantOf? {
      r := InnerIsParent(p, q.p);
    } else {
      CompareSound(q.p, p);
      hide PathOrder, WrapsAround, PathBefore;
      var c := LtreeCompare(q.p, p);
      match q
      case Less(_) => r := c > 0;
      case LessEqual(_) => r := c >= 0;
      case Equal(_) => r := c == 0;
      case GreaterEqual(_) => r := c <= 0;
      case _ => r := c < 0;
    }
  }

  /** What is asked of the key of a page. */
  ghost predicate KeyMayMatch(k: Key, q: Query, crc: string -> int)
    requires KeyOk(k) && k.Bounds? && QueryOk(q)
  {
    match q
    case Regex(l, n) => BitsFound(k, l, crc) && Between(Cut(k.Left(), n), Names(l, n), Cut(k.Right(), n))
    case AncestorOf(x) => exists n: nat :: n <= |x| && Between(k.Left(), x[..n], k.Right())
    case DescendantOf(x) => Between(Cut(k.Left(), |x|), x, Cut(k.Right(), |x|))
    case _ => CompareKeeps(k, q)
  }

  /** ltree_consistent above the leaves: a key is rejected only if no path it allows matches. */
  method InnerConsistent(k: Key, q: Query, crc: string -> int) returns (r: bool)
    requires KeyOk(k) && k.Bounds? && QueryOk(q)
    ensures r <==> KeyMayMatch(k, q, crc)
    ensures forall p :: Allows(k, p, crc) && Matches(q, p) ==> r
  {
    hide PathOrder, Splits, LastStars, IsFirstGood, BitsOf;
    match q
    case Regex(l, n) =>
      r := GistQe(k, l, crc);
      if r { r := GistBetween(k, l, n); }
      forall p | Allows(k, p, crc) && Matches(q, p) ensures r { MatchKept(k, l, n, p, crc); }
    case AncestorOf(x) =>
      var query := new Ltree(x);
      r := GistIsParent(k, query);
      forall p | Allows(k, p, crc) && Matches(q, p) ensures r { assert query.levels[..|p|] == p; }
    case DescendantOf(x) =>
      r := GistIsChild(k, x);
      forall p | Allows(k, p, crc) && Matches(q, p) ensures r { ChildKept(k, x, p, crc); }
    case _ =>
      r := InnerCompare(k, q);
      forall p | Allows(k, p, crc) && Matches(q, p) ensures r { ComparedKept(k, q, p); }
  }

  ghost predicate CompareKeeps(k: Key, q: Query)
    requires !q.Regex?
  {
    && (q.Less? || q.LessEqual? || q.Equal? ==> PathOrder(q.p, k.Left()) >= 0)
    && (q.Equal? || q.GreaterEqual? || q.Greater? ==> PathOrder(q.p, k.Right()) <= 0)
  }

  /** The comparison operators on the bounds. */
  method InnerCompare(k: Key, q: Query) returns (r: bool)
    requires KeyOk(k) && QueryOk(q) && (q.Less? || q.LessEqual? || q.Equal? || q.GreaterEqual? || q.Greater?)
    ensures r <==> CompareKeeps(k, q)
  {
    CompareSound(q.p, k.Left());
    CompareSound(q.p, k.Right());
    hide PathOrder, WrapsAround;
    var l := LtreeCompare(q.p, k.Left());
    var g := LtreeCompare(q.p, k.Right());
    match q
    case Less(_) => r := l >= 0;
    case LessEqual(_) => r := l >= 0;
    case Equal(_) => r := l >= 0 && g <= 0;
    case _ => r := g <= 0;
  }

  lemma ComparedKept(k: Key, q: Query, p: Path)
    requires (q.Less? || q.LessEqual? || q.Equal? || q.GreaterEqual? || q.Greater?) && Between(k.Left(), p, k.Right())
    requires Matches(q, p)
    ensures CompareKeeps(k, q)
  {
    hide PathOrder, PathBefore;
    PathOrderMeans(p, q.p);
    PathsOrdered(p, q.p, q.p, 0);
    PathsOrdered(k.Left(), p, q.p, 0);
    PathsOrdered(k.Left(), q.p, q.p, 0);
    PathsOrdered(q.p, p, k.Right(), 0);
  }

  /** The paths of a list that match, in order. */
  ghost function Matching(q: Query, s: seq<Path>): seq<Path> {
    if s == [] then [] else
      Matching(q, s[..|s| - 1]) + if Matches(q, s[|s| - 1]) then [s[|s| - 1]] else []
  }

  /** The index search gives just what looking at every path gives. */
  method Search(t: Tree, q: Query, crc: string -> int, stack: SomeStack) returns (hits: seq<Path>)
    requires Covered(t, crc) && QueryOk(q) && !stack.muse
    modifies stack
    ensures !stack.muse && hits == Matching(q, Paths(t))
    decreases t
  {
    hide QueryOk, Matches, Allows, Shallow;
    match t
    case Entry(p) =>
      var r := LeafConsistent(p, q, stack);
      MatchingOne(q, p);
      return if r then [p] else [];
    case Page(k, kids) =>
      var r := InnerConsistent(k, q, crc);
      hits := [];
      if !r {
        PageRejected(t, q, |kids|, crc);
        return;
      }
      for i := 0 to |kids|
        invariant !stack.muse && hits == Matching(q, PathsOf(t, i))
      {
        var more := Search(kids[i], q, crc, stack);
        MatchingJoin(q, PathsOf(t, i), Paths(kids[i]));
        hits := hits + more;
      }
  }

  lemma MatchingOne(q: Query, p: Path)
    ensures Matching(q, [p]) == if Matches(q, p) then [p] else []
  {
    assert [p][..0] == [];
  }

  lemma {:induction false} MatchingJoin(q: Query, s: seq<Path>, t: seq<Path>)
    ensures Matching(q, s + t) == Matching(q, s) + Matching(q, t)
    decreases |t|
  {
    hide Matches;
    if t == [] {
      assert s + t == s;
    } else {
      var n := |t| - 1;
      MatchingJoin(q, s, t[..n]);
      assert (s + t)[..|s + t| - 1] == s + t[..n];
    }
  }

  lemma {:induction false} PageRejected(t: Tree, q: Query, n: nat, crc: string -> int)
    requires t.Page? && Covered(t, crc) && KeyOk(t.key) && n <= |t.kids|
    requires forall p :: Allows(t.key, p, crc) ==> !Matches(q, p)
    ensures Matching(q, PathsOf(t, n)) == []
  {
    CoveredKey(t, crc);
    hide Matches, Allows, Covered, KeyOk;
    var s := PathsOf(t, n);
    if Matching(q, s) != [] {
      var p := SomeMatching(q, s);
      var i := KidWith(t, p, n);
      KidInPaths(t, i, p, |t.kids|);
      PathAllowed(t, p, crc);
    }
  }

  lemma {:induction false} KidInPaths(t: Tree, i: nat, p: Path, n: nat)
    requires t.Page? && i < n <= |t.kids| && p in Paths(t.kids[i])
    ensures p in PathsOf(t, n)
    decreases n
  {
    if i < n - 1 { KidInPaths(t, i, p, n - 1); }
  }

  lemma {:induction false} SomeMatching(q: Query, s: seq<Path>) returns (p: Path)
    requires Matching(q, s) != []
    ensures p in s && Matches(q, p)
    decreases |s|
  {
    p := s[|s| - 1];
    if !Matches(q, p) { p := SomeMatching(q, s[..|s| - 1]); }
  }

  /** A page over entries or pages. */
  method MakePage(kids: seq<Tree>, crc: string -> int) returns (t: Tree)
    requires |kids| > 0 && forall i :: 0 <= i < |kids| ==> Covered(kids[i], crc)
    ensures t.Page? && t.kids == kids && Covered(t, crc)
  {
    hide Over;
    forall i | 0 <= i < |kids| ensures KeyOk(kids[i].KeyOf()) { CoveredKey(kids[i], crc); }
    var keys := seq(|kids|, i requires 0 <= i < |kids| => kids[i].KeyOf());
    var k := LtreeUnion(keys, crc);
    t := Page(k, kids);
    forall i | 0 <= i < |kids| ensures Over(k, kids[i].KeyOf(), crc) { assert Over(k, keys[i], crc); }
  }

  lemma CoveredKey(t: Tree, crc: string -> int)
    requires Covered(t, crc)
    ensures KeyOk(t.KeyOf())
  {
  }

  /** The paths below some children, as a bag. */
  ghost function Bag(kids: seq<Tree>): multiset<Path> {
    if kids == [] then multiset{} else Bag(kids[..|kids| - 1]) + multiset(Paths(kids[|kids| - 1]))
  }

  lemma BagMore(kids: seq<Tree>, kid: Tree)
    ensures Bag(kids + [kid]) == Bag(kids) + multiset(Paths(kid))
  {
    hide Paths;
    assert (kids + [kid])[..|kids|] == kids;
  }

  lemma {:induction false} BagJoin(a: seq<Tree>, b: seq<Tree>)
    ensures Bag(a + b) == Bag(a) + Bag(b)
    decreases |b|
  {
    if b == [] {
      assert a + b == a;
    } else {
      hide Bag, Paths;
      var front, last := b[..|b| - 1], b[|b| - 1];
      assert b == front + [last];
      assert a + b == (a + front) + [last];
      BagJoin(a, front);
      BagMore(a + front, last);
      BagMore(front, last);
    }
  }

  lemma BagOne(kid: Tree)
    ensures Bag([kid]) == multiset(Paths(kid)) && Bag([]) == multiset{}
  {
    assert [kid][..0] == [];
  }

  lemma {:induction false} PathsBag(t: Tree, n: nat)
    requires t.Page? && n <= |t.kids|
    ensures multiset(PathsOf(t, n)) == Bag(t.kids[..n])
    decreases n
  {
    if n > 0 {
      PathsBag(t, n - 1);
      assert t.kids[..n][..n - 1] == t.kids[..n - 1];
    }
  }

  lemma PageBag(t: Tree)
    requires t.Page?
    ensures multiset(Paths(t)) == Bag(t.kids)
  {
    PathsBag(t, |t.kids|);
    assert t.kids[..|t.kids|] == t.kids;
  }

  /** Child i gives way to others, which hold more besides its paths. */
  lemma BagReplaced(kids: seq<Tree>, i: nat, news: seq<Tree>, more: multiset<Path>)
    requires i < |kids| && Bag(news) == multiset(Paths(kids[i])) + more
    ensures Bag(kids[..i] + news + kids[i + 1..]) == Bag(kids) + more
  {
    hide Bag, Paths;
    var front, back := kids[..i], kids[i + 1..];
    BagJoin(front + news, back);
    BagJoin(front, news);
    BagOne(kids[i]);
    BagJoin(front, [kids[i]]);
    BagJoin(front + [kids[i]], back);
    assert kids == front + [kids[i]] + back;
  }

  /** Insertion below a page: the child chosen by path takes p, and every key above is widened. */
  method Insert(t: Tree, p: Path, path: seq<nat>, crc: string -> int) returns (t': Tree)
    requires Covered(t, crc) && t.Page? && Shallow(p)
    ensures t'.Page? && Covered(t', crc)
    ensures multiset(Paths(t')) == multiset(Paths(t)) + multiset{p}
    decreases |path|
  {
    hide *;
    PageParts(t, crc);
    PageBag(t);
    if path != [] && path[0] < |t.kids| && t.kids[path[0]].Page? {
      var i := path[0];
      var kid := Insert(t.kids[i], p, path[1..], crc);
      t' := WidenPage(t, t.kids[..i] + [kid] + t.kids[i + 1..], [kid], crc);
      BagOne(kid);
      BagReplaced(t.kids, i, [kid], multiset{p});
    } else {
      var kid := Entry(p);
      EntryCovered(p, crc);
      t' := WidenPage(t, t.kids + [kid], [kid], crc);
      BagJoin(t.kids, [kid]);
    }
    PageBag(t');
  }

  lemma PageParts(t: Tree, crc: string -> int)
    requires Covered(t, crc) && t.Page?
    ensures forall i :: 0 <= i < |t.kids| ==> Covered(t.kids[i], crc)
  {
  }

  lemma EntryCovered(p: Path, crc: string -> int)
    requires Shallow(p)
    ensures Covered(Entry(p), crc) && Bag([Entry(p)]) == multiset{p}
  {
    BagOne(Entry(p));
  }

  /** The key of a page becomes the union of itself and the keys of the children that changed. */
  method WidenPage(t: Tree, kids: seq<Tree>, news: seq<Tree>, crc: string -> int) returns (t': Tree)
    requires Covered(t, crc) && t.Page? && forall i :: 0 <= i < |news| ==> Covered(news[i], crc)
    requires forall i :: 0 <= i < |kids| ==> kids[i] in t.kids || kids[i] in news
    ensures t'.Page? && t'.kids == kids && Covered(t', crc)
  {
    hide Over, KeyOk;
    CoveredKey(t, crc);
    var keys := [t.key] + seq(|news|, i requires 0 <= i < |news| => news[i].KeyOf());
    forall i | 0 <= i < |keys| ensures KeyOk(keys[i]) {
      if i > 0 { CoveredKey(news[i - 1], crc); }
    }
    var k := LtreeUnion(keys, crc);
    t' := Page(k, kids);
    assert Over(k, keys[0], crc);
    forall i | 0 <= i < |kids| ensures Covered(kids[i], crc) && KeyOk(kids[i].KeyOf()) && Over(k, kids[i].KeyOf(), crc) {
      if kids[i] in news {
        var j :| 0 <= j < |news| && news[j] == kids[i];
        assert Over(k, keys[j + 1], crc);
      } else {
        OverTransitive(k, t.key, kids[i].KeyOf(), crc);
      }
    }
  }

  // ---------------------------------------------------------------- splitting pages

  function Picked(kids: seq<Tree>, idx: seq<nat>): (s: seq<Tree>)
    requires Below(idx, |kids|)
    ensures |s| == |idx| && forall k :: 0 <= k < |idx| ==> s[k] == kids[idx[k]]
  {
    seq(|idx|, k requires 0 <= k < |idx| => kids[idx[k]])
  }

  ghost function KidBags(kids: seq<Tree>): (s: seq<multiset<Path>>)
    ensures |s| == |kids| && forall i :: 0 <= i < |kids| ==> s[i] == multiset(Paths(kids[i]))
  {
    seq(|kids|, i requires 0 <= i < |kids| => multiset(Paths(kids[i])))
  }

  lemma {:induction false} PickedBag(kids: seq<Tree>, idx: seq<nat>)
    requires Below(idx, |kids|)
    ensures Bag(Picked(kids, idx)) == Sum(KidBags(kids), idx)
    decreases |idx|
  {
    if idx != [] {
      var n := |idx| - 1;
      PickedBag(kids, idx[..n]);
      assert Picked(kids, idx)[..n] == Picked(kids, idx[..n]);
    }
  }

  /** Nothing is lost when the children are dealt to two pages. */
  lemma DealtBag(kids: seq<Tree>, left: seq<nat>, right: seq<nat>)
    requires multiset(left) + multiset(right) == multiset(Positions(|kids|))
    requires Below(left, |kids|) && Below(right, |kids|)
    ensures Bag(Picked(kids, left)) + Bag(Picked(kids, right)) == Bag(kids)
  {
    hide Bag, Sum, Paths;
    var n, both := |kids|, left + right;
    assert multiset(both) == multiset(Positions(n));
    Rearranged(both, n);
    PickedBag(kids, left);
    PickedBag(kids, right);
    PickedBag(kids, Positions(n));
    assert Picked(kids, Positions(n)) == kids;
    SumJoin(KidBags(kids), left, right);
    SumReordered(KidBags(kids), both, Positions(n));
  }

  /** A full page becomes two under the keys of ltree_picksplit. */
  method SplitPage(t: Tree, crc: string -> int) returns (l: Tree, r: Tree)
    requires Covered(t, crc) && t.Page? && |t.kids| >= 2
    ensures l.Page? && Covered(l, crc) && r.Page? && Covered(r, crc) && |l.kids| == |t.kids| / 2
    ensures multiset(Paths(l)) + multiset(Paths(r)) == multiset(Paths(t))
  {
    hide *;
    var kids := t.kids;
    PageParts(t, crc);
    var keys := seq(|kids|, i requires 0 <= i < |kids| => kids[i].KeyOf());
    forall i | 0 <= i < |kids| ensures KeyOk(keys[i]) { CoveredKey(kids[i], crc); }
    var left, right, lu, ru := LtreePickSplit(keys, crc);
    l, r := Page(lu, Picked(kids, left)), Page(ru, Picked(kids, right));
    HalfCovered(kids, keys, left, lu, crc);
    HalfCovered(kids, keys, right, ru, crc);
    DealtBag(kids, left, right);
    PageBag(t);
    PageBag(l);
    PageBag(r);
  }

  lemma HalfCovered(kids: seq<Tree>, keys: seq<Key>, idx: seq<nat>, k: Key, crc: string -> int)
    requires |keys| == |kids| && Below(idx, |kids|) && LeastOver(k, KeysAt(keys, idx), crc)
    requires forall i :: 0 <= i < |kids| ==> Covered(kids[i], crc) && keys[i] == kids[i].KeyOf()
    ensures Covered(Page(k, Picked(kids, idx)), crc) && |Picked(kids, idx)| == |idx|
  {
    hide Over, KeyOk;
    forall i | 0 <= i < |idx|
      ensures Covered(kids[idx[i]], crc) && KeyOk(kids[idx[i]].KeyOf()) && Over(k, kids[idx[i]].KeyOf(), crc)
    {
      assert Over(k, KeysAt(keys, idx)[i], crc);
    }
  }

  /** The page that path leads to is split, and the keys above it are widened; other paths do nothing. */
  method SplitBelow(t: Tree, path: seq<nat>, crc: string -> int) returns (t': Tree)
    requires Covered(t, crc) && t.Page?
    ensures t'.Page? && Covered(t', crc)
    ensures multiset(Paths(t')) == multiset(Paths(t))
    decreases |path|
  {
    hide *;
    if path == [] || path[0] >= |t.kids| || !t.kids[path[0]].Page? { return t; }
    var i := path[0];
    var kid := t.kids[i];
    var news: seq<Tree>;
    PageParts(t, crc);
    if |path| > 1 {
      var lower := SplitBelow(kid, path[1..], crc);
      news := [lower];
      BagOne(lower);
    } else if |kid.kids| >= 2 {
      var l, r := SplitPage(kid, crc);
      news := [l] + [r];
      BagOne(l);
      BagOne(r);
      BagJoin([l], [r]);
    } else {
      return t;
    }
    t' := WidenPage(t, t.kids[..i] + news + t.kids[i + 1..], news, crc);
    BagReplaced(t.kids, i, news, multiset{});
    PageBag(t);
    PageBag(t');
  }

  /** A full root is split below a new root. */
  method SplitRoot(t: Tree, crc: string -> int) returns (t': Tree)
    requires Covered(t, crc) && t.Page?
    ensures t'.Page? && Covered(t', crc)
    ensures multiset(Paths(t')) == multiset(Paths(t))
  {
    hide *;
    if |t.kids| < 2 { return t; }
    var l, r := SplitPage(t, crc);
    t' := MakePage([l] + [r], crc);
    BagOne(l);
    BagOne(r);
    BagJoin([l], [r]);
    PageBag(t');
  }

  datatype Step = Add(path: Path, place: seq<nat>) | Split(place: seq<nat>) | Grow

  /** The paths that the steps insert. */
  function Inserted(steps: seq<Step>): multiset<Path> {
    if steps == [] then multiset{} else
      var last := steps[|steps| - 1];
      Inserted(steps[..|steps| - 1]) + if last.Add? then multiset{last.path} else multiset{}
  }

  /** Any run of insertions and splits that begins with a first path keeps every key over what is below it. */
  method Build(first: Path, steps: seq<Step>, crc: string -> int) returns (t: Tree)
    requires Shallow(first) && forall i :: 0 <= i < |steps| && steps[i].Add? ==> Shallow(steps[i].path)
    ensures t.Page? && Covered(t, crc)
    ensures multiset(Paths(t)) == multiset{first} + Inserted(steps)
  {
    hide Covered, Paths, Shallow;
    EntryCovered(first, crc);
    t := MakePage([Entry(first)], crc);
    PageBag(t);
    for i := 0 to |steps|
      invariant t.Page? && Covered(t, crc)
      invariant multiset(Paths(t)) == multiset{first} + Inserted(steps[..i])
    {
      assert steps[..i + 1][..i] == steps[..i];
      match steps[i]
      case Add(p, place) => t := Insert(t, p, place, crc);
      case Split(place) => t := SplitBelow(t, place, crc);
      case Grow => t := SplitRoot(t, crc);
    }
    assert steps[..|steps|] == steps;
  }
}
