/**
 * The connected set of pip_plugin/src/list_utils.c on snapshots: the group pointers of all
 * elements as one map, and what union by size with path compression keeps of it.
 */
module CsetModel {
  import opened Basics

  /** A random variable is known by its distribution group and number. */
  datatype VarId = VarId(group: int, variable: int)

  /** pip_variable_sort */
  function CompareVars(a: VarId, b: VarId): int {
    if a.group > b.group then 1
    else if a.group < b.group then -1
    else if a.variable > b.variable then 1
    else if a.variable < b.variable then -1
    else 0
  }

  class Element {
    var groupNext: Element?
    var groupPrev: Element?
    var groupRoot: Element?
    var head: Element?          // group_children: head, tail and size
    var tail: Element?
    var childCount: nat
    var groupSize: nat
    const item: VarId
    var sortLeft: Element?
    var sortRight: Element?

    constructor (item: VarId)
      ensures this.item == item && groupSize == 1 && childCount == 0
      ensures groupNext == groupPrev == groupRoot == head == tail == sortLeft == sortRight == null
    {
      this.item := item;
      groupNext, groupPrev, groupRoot, head, tail := null, null, null, null, null;
      sortLeft, sortRight := null, null;
      childCount, groupSize := 0, 1;
    }
  }

  /** The group pointers of one element. */
  datatype Cell = Cell(next: Element?, prev: Element?, root: Element?, head: Element?, tail: Element?, size: nat)

  type Groups = map<Element, Cell>
  type Kids = map<Element, seq<Element>>

  ghost function WithRoot(g: Groups, x: Element, r: Element): Groups
    requires x in g
  {
    g[x := g[x].(root := r)]
  }

  ghost function WithSize(g: Groups, x: Element, n: nat): Groups
    requires x in g
  {
    g[x := g[x].(size := n)]
  }

  ghost function WithKids(k: Kids, p: Element, c: seq<Element>): Kids {
    k[p := c]
  }

  // ---------------------------------------------------------------- child lists

  ghost predicate Distinct(c: seq<Element>) {
    forall i, j :: 0 <= i < j < |c| ==> c[i] != c[j]
  }

  lemma DistinctConcat(a: seq<Element>, b: seq<Element>)
    requires Distinct(a) && Distinct(b) && forall y :: y in a ==> y !in b
    ensures Distinct(a + b)
  {
    forall i, j | 0 <= i < j < |a + b| ensures (a + b)[i] != (a + b)[j] {
      assert i < |a| ==> (a + b)[i] in a;
      assert j >= |a| ==> (a + b)[j] in b;
    }
  }

  /** c is the doubly linked list hanging off p. */
  ghost predicate ListOk(g: Groups, p: Element, c: seq<Element>) {
    && p in g
    && Distinct(c)
    && g[p].head == (if c == [] then null else c[0])
    && g[p].tail == (if c == [] then null else c[|c| - 1])
    && forall i :: 0 <= i < |c| ==> LinkOk(g, c, i)
  }

  ghost predicate LinkOk(g: Groups, c: seq<Element>, i: nat)
    requires i < |c|
  {
    && c[i] in g
    && g[c[i]].prev == (if i == 0 then null else c[i - 1])
    && g[c[i]].next == (if i == |c| - 1 then null else c[i + 1])
  }

  ghost predicate AllLists(g: Groups, k: Kids) {
    k.Keys == g.Keys && forall p :: p in k ==> ListOk(g, p, k[p])
  }

  /** Who is in a list has its owner as group root. */
  ghost predicate Owned(g: Groups, k: Kids, loose: Element?) {
    forall p, x :: p in k && x in k[p] ==> x in g && g[x].root == p && x != p && x != loose
  }

  /** Who has a group root is in its list. */
  ghost predicate Listed(g: Groups, k: Kids, loose: Element?) {
    forall x :: x in g && x != loose && g[x].root != null ==> g[x].root in k && x in k[g[x].root]
  }

  /** The child lists agree with the group roots, except that `loose` is in none. */
  ghost predicate ListsOkBut(g: Groups, k: Kids, loose: Element?) {
    AllLists(g, k) && Owned(g, k, loose) && Listed(g, k, loose)
  }

  ghost predicate ListsOk(g: Groups, k: Kids) {
    ListsOkBut(g, k, null)
  }

  /** What pip_list_remove does to the links: x is taken out of the children of p. */
  ghost predicate IsRemoved(g: Groups, g': Groups, p: Element, x: Element) {
    p in g && x in g && SameForest(g, g') && forall y :: y in g ==>
      && g'[y].next == (if y == g[x].prev then g[x].next else g[y].next)
      && g'[y].prev == (if y == g[x].next then g[x].prev else g[y].prev)
      && g'[y].head == (if y == p && g[x].prev == null then g[x].next else g[y].head)
      && g'[y].tail == (if y == p && g[x].next == null then g[x].prev else g[y].tail)
  }

  /** What pip_list_append does to the links: x comes last among the children of r. */
  ghost predicate IsAppended(g: Groups, g': Groups, r: Element, x: Element) {
    r in g && x in g && g'.Keys == g.Keys && forall y :: y in g ==>
      && g'[y].next == (if y == x then null else if g[r].head != null && y == g[r].tail then x else g[y].next)
      && g'[y].prev == (if y == x then g[r].tail else g[y].prev)
      && g'[y].head == (if y == r && g[r].head == null then x else g[y].head)
      && g'[y].tail == (if y == r then x else g[y].tail)
  }

  function Without(c: seq<Element>, i: nat): seq<Element>
    requires i < |c|
  {
    c[..i] + c[i + 1..]
  }

  lemma RemoveKeepsLists(g: Groups, g': Groups, k: Kids, p: Element, x: Element, i: nat)
    requires ListsOk(g, k) && p in g && i < |k[p]| && k[p][i] == x && IsRemoved(g, g', p, x)
    ensures ListsOkBut(g', WithKids(k, p, Without(k[p], i)), x)
  {
    RemoveKeepsLinks(g, g', k, p, x, i);
    RemovedSameForest(g, g', p, x);
    hide ListOk, Owned, Listed, Without, IsRemoved;
    MembersAfterRemove(g, g', k, p, x, Without(k[p], i));
  }

  lemma RemovedSameForest(g: Groups, g': Groups, p: Element, x: Element)
    requires IsRemoved(g, g', p, x)
    ensures SameForest(g, g')
  {
  }

  lemma RemoveKeepsLinks(g: Groups, g': Groups, k: Kids, p: Element, x: Element, i: nat)
    requires ListsOk(g, k) && p in g && i < |k[p]| && k[p][i] == x && IsRemoved(g, g', p, x)
    ensures AllLists(g', WithKids(k, p, Without(k[p], i)))
    ensures forall y :: y in Without(k[p], i) ==> y in k[p] && y != x
    ensures forall y :: y in k[p] && y != x ==> y in Without(k[p], i)
  {
    var c := k[p];
    assert ListOk(g, p, c) && p !in c;
    Neighbours(g, p, c, i);
    OwnListAfterRemove(g, g', p, c, i);
    WithoutElements(c, i);
    OtherLists(g, g', k, null, p);
  }

  lemma MembersAfterRemove(g: Groups, g': Groups, k: Kids, p: Element, x: Element, c': seq<Element>)
    requires Owned(g, k, null) && Listed(g, k, null) && k.Keys == g.Keys && p in k && SameForest(g, g') && x in k[p]
    requires forall y :: y in c' ==> y in k[p] && y != x
    requires forall y :: y in k[p] && y != x ==> y in c'
    ensures Owned(g', WithKids(k, p, c'), x) && Listed(g', WithKids(k, p, c'), x)
  {
    var k' := WithKids(k, p, c');
    forall q, y | q in k' && y in k'[q] ensures y in g' && g'[y].root == q && y != q && y != x {
      assert y in k[q];
    }
    forall y | y in g' && y != x && g'[y].root != null ensures g'[y].root in k' && y in k'[g'[y].root] {
      assert y in k[g[y].root];
    }
  }

  lemma WithoutElements(c: seq<Element>, i: nat)
    requires i < |c| && Distinct(c)
    ensures Distinct(Without(c, i))
    ensures forall y :: y in Without(c, i) ==> y in c && y != c[i]
    ensures forall y :: y in c && y != c[i] ==> y in Without(c, i)
  {
    forall y | y in c && y != c[i] ensures y in Without(c, i) {
      var j :| 0 <= j < |c| && c[j] == y;
      assert Without(c, i)[if j < i then j else j - 1] == y;
    }
  }

  lemma Neighbours(g: Groups, p: Element, c: seq<Element>, i: nat)
    requires ListOk(g, p, c) && i < |c|
    ensures c[i] in g
    ensures g[c[i]].prev == (if i == 0 then null else c[i - 1]) && (i > 0 ==> c[i - 1] in g && c[i - 1] != c[i])
    ensures g[c[i]].next == (if i == |c| - 1 then null else c[i + 1]) && (i < |c| - 1 ==> c[i + 1] in g && c[i + 1] != c[i])
  {
    assert LinkOk(g, c, i);
    if i > 0 { assert LinkOk(g, c, i - 1); }
    if i < |c| - 1 { assert LinkOk(g, c, i + 1); }
  }

  /** A list none of whose links were touched. */
  lemma OtherList(g: Groups, g': Groups, q: Element, c: seq<Element>)
    requires ListOk(g, q, c) && g.Keys <= g'.Keys
    requires g'[q].head == g[q].head && g'[q].tail == g[q].tail
    requires forall y :: y in c ==> y in g && g'[y].next == g[y].next && g'[y].prev == g[y].prev
    ensures ListOk(g', q, c)
  {
    forall i | 0 <= i < |c| ensures LinkOk(g', c, i) {
      assert LinkOk(g, c, i) && c[i] in c;
    }
  }

  lemma OwnListAfterRemove(g: Groups, g': Groups, p: Element, c: seq<Element>, i: nat)
    requires ListOk(g, p, c) && p !in c && i < |c| && IsRemoved(g, g', p, c[i])
    ensures ListOk(g', p, Without(c, i))
  {
    Neighbours(g, p, c, i);
    var c' := Without(c, i);
    WithoutElements(c, i);
    forall j | 0 <= j < |c'| ensures LinkOk(g', c', j) {
      var o := if j < i then j else j + 1;
      assert LinkOk(g, c, o) && c'[j] == c[o];
      assert i > 0 ==> (c[o] == c[i - 1] <==> o == i - 1);
      assert i < |c| - 1 ==> (c[o] == c[i + 1] <==> o == i + 1);
    }
  }

  /** Same group roots and sizes; only list pointers may differ. */
  ghost predicate SameForest(g: Groups, g': Groups) {
    g.Keys == g'.Keys && forall x :: x in g ==> g[x].root == g'[x].root && g[x].size == g'[x].size
  }

  lemma OwnListAfterAppend(g: Groups, g': Groups, r: Element, x: Element, c: seq<Element>)
    requires ListOk(g, r, c) && x !in c && r !in c && x in g && r != x && IsAppended(g, g', r, x)
    ensures ListOk(g', r, c + [x])
  {
    var c' := c + [x];
    assert |c| > 0 ==> c[|c| - 1] in c;
    forall j | 0 <= j < |c'| ensures LinkOk(g', c', j) {
      if j < |c| {
        assert LinkOk(g, c, j) && c[j] in c;
        assert c[j] == c[|c| - 1] <==> j == |c| - 1;
      }
    }
  }

  lemma ListsDisjoint(g: Groups, k: Kids, loose: Element?, p: Element, q: Element)
    requires ListsOkBut(g, k, loose) && p in k && q in k && p != q
    ensures forall y :: y in k[q] ==> y !in k[p] && y != loose
  {
    forall y | y in k[q] ensures y !in k[p] && y != loose { assert g[y].root == q; }
  }

  lemma AppendKeepsLists(g: Groups, k: Kids, r: Element, x: Element, g': Groups)
    requires ListsOkBut(g, k, x) && r in g && x in g && r != x
    requires IsAppended(g, g', r, x) && SameForest(WithRoot(g, x, r), g')
    ensures ListsOk(g', k[r := k[r] + [x]])
  {
    var c := k[r];
    assert ListOk(g, r, c) && x !in c && r !in c;
    OwnListAfterAppend(g, g', r, x, c);
    assert |c| > 0 ==> c[|c| - 1] in c;
    OtherLists(g, g', k, x, r);
    hide ListOk, Owned, Listed, IsAppended;
    MembersAfterAppend(g, g', k, r, x);
  }

  lemma MembersAfterAppend(g: Groups, g': Groups, k: Kids, r: Element, x: Element)
    requires Owned(g, k, x) && Listed(g, k, x) && k.Keys == g.Keys && r in k && x in g && x != r
    requires SameForest(g[x := g[x].(root := r)], g')
    ensures Owned(g', k[r := k[r] + [x]], null) && Listed(g', k[r := k[r] + [x]], null)
  {
    var k' := k[r := k[r] + [x]];
    forall q, y | q in k' && y in k'[q] ensures y in g' && g'[y].root == q && y != q {
      assert y in k[q] || (q == r && y == x);
    }
    forall y | y in g' && g'[y].root != null ensures g'[y].root in k' && y in k'[g'[y].root] {
      if y != x { assert g[y].root == g'[y].root; }
    }
  }

  /** The lists of all owners but p, when only links of p, of its members and of `loose` were touched. */
  lemma OtherLists(g: Groups, g': Groups, k: Kids, loose: Element?, p: Element)
    requires ListsOkBut(g, k, loose) && p in k && g'.Keys == g.Keys
    requires forall q :: q in g && q != p ==> g'[q].head == g[q].head && g'[q].tail == g[q].tail
    requires forall y :: y in g && y !in k[p] && y != loose ==> g'[y].next == g[y].next && g'[y].prev == g[y].prev
    ensures forall q :: q in k && q != p ==> ListOk(g', q, k[q])
  {
    forall q | q in k && q != p ensures ListOk(g', q, k[q]) {
      ListsDisjoint(g, k, loose, p, q);
      OtherList(g, g', q, k[q]);
    }
  }

  lemma TailPresent(g: Groups, k: Kids, loose: Element?, r: Element)
    requires ListsOkBut(g, k, loose) && r in g
    ensures g[r].head == null || (g[r].tail != null && g[r].tail in g)
  {
    assert ListOk(g, r, k[r]);
  }

  // ---------------------------------------------------------------- the union-find forest

  type Ranks = map<Element, nat>
  type Reps = map<Element, Element>

  ghost function Class(rep: Reps, r: Element): set<Element> {
    set x | x in rep && rep[x] == r
  }

  /** Ranks only grow towards the root, and rep names the root reached. */
  ghost predicate NodeOk(g: Groups, rank: Ranks, rep: Reps, x: Element) {
    && x in g && x in rank && x in rep
    && rep[x] in g && rep[x] in rank && g[rep[x]].root == null
    && rank[x] <= rank[rep[x]]
    && if g[x].root == null then rep[x] == x
       else var p := g[x].root; p in g && p in rank && p in rep && rank[x] < rank[p] && rep[p] == rep[x]
  }

  /** A root knows the size of its class, which is at least 2 to its rank. */
  ghost predicate RootOk(g: Groups, rank: Ranks, rep: Reps, r: Element) {
    && r in g && r in rank
    && (g[r].root == null ==> g[r].size == |Class(rep, r)| && Pow2(rank[r]) <= g[r].size)
  }

  ghost predicate ForestOk(g: Groups, rank: Ranks, rep: Reps) {
    && rank.Keys == g.Keys && rep.Keys == g.Keys
    && (forall x :: x in g ==> NodeOk(g, rank, rep, x))
    && (forall r :: r in g ==> RootOk(g, rank, rep, r))
  }

  lemma NodeFacts(g: Groups, rank: Ranks, rep: Reps, x: Element)
    requires ForestOk(g, rank, rep) && x in g
    ensures rep[x] in g && g[rep[x]].root == null && (g[x].root == null ==> rep[x] == x)
    ensures g[x].root != null ==> g[x].root in g && rep[g[x].root] == rep[x] && rank[x] < rank[g[x].root]
    ensures rank[x] <= rank[rep[x]]
  {
    assert NodeOk(g, rank, rep, x);
  }

  lemma SameForestOk(g: Groups, g': Groups, rank: Ranks, rep: Reps)
    requires ForestOk(g, rank, rep) && SameForest(g, g')
    ensures ForestOk(g', rank, rep)
  {
    forall x | x in g' ensures NodeOk(g', rank, rep, x) { assert NodeOk(g, rank, rep, x); }
    forall x | x in g' ensures RootOk(g', rank, rep, x) { assert RootOk(g, rank, rep, x); }
  }

  /** Path compression: x may be hung directly under the root of its class. */
  lemma CompressKeepsForest(g: Groups, rank: Ranks, rep: Reps, x: Element, r: Element)
    requires ForestOk(g, rank, rep) && x in g && g[x].root != null && r == rep[x]
    ensures ForestOk(g[x := g[x].(root := r)], rank, rep)
  {
    hide NodeOk, RootOk;
    NodeFacts(g, rank, rep, x);
    forall y | y in g ensures NodeOk(g[x := g[x].(root := r)], rank, rep, y) && RootOk(g[x := g[x].(root := r)], rank, rep, y) {
      CompressKeepsNode(g, rank, rep, x, r, y);
    }
  }

  lemma CompressKeepsNode(g: Groups, rank: Ranks, rep: Reps, x: Element, r: Element, y: Element)
    requires NodeOk(g, rank, rep, x) && NodeOk(g, rank, rep, r) && NodeOk(g, rank, rep, y) && RootOk(g, rank, rep, y)
    requires g[x].root != null && NodeOk(g, rank, rep, g[x].root) && r == rep[x]
    ensures NodeOk(g[x := g[x].(root := r)], rank, rep, y) && RootOk(g[x := g[x].(root := r)], rank, rep, y)
  {
  }

  ghost function UnionRanks(rank: Ranks, a: Element, b: Element): Ranks
    requires a in rank && b in rank
  {
    rank[b := if rank[a] + 1 > rank[b] then rank[a] + 1 else rank[b]]
  }

  ghost function UnionReps(rep: Reps, a: Element, b: Element): Reps {
    map x | x in rep :: if rep[x] == a then b else rep[x]
  }

  /** Union by size: the root a of the smaller class is hung under the root b of the other. */
  ghost predicate IsUnion(g: Groups, g': Groups, a: Element, b: Element) {
    && a in g && b in g && a != b && g[a].root == null && g[b].root == null
    && g'.Keys == g.Keys
    && forall x :: x in g ==>
         && g'[x].root == (if x == a then b else g[x].root)
         && g'[x].size == (if x == b then g[b].size + g[a].size else g[x].size)
  }

  lemma UnionKeepsForest(g: Groups, g': Groups, rank: Ranks, rep: Reps, a: Element, b: Element)
    requires ForestOk(g, rank, rep) && IsUnion(g, g', a, b) && g[a].size <= g[b].size
    ensures ForestOk(g', UnionRanks(rank, a, b), UnionReps(rep, a, b))
  {
    hide NodeOk, RootOk;
    forall y | y in g ensures NodeOk(g', UnionRanks(rank, a, b), UnionReps(rep, a, b), y) {
      UnionKeepsNode(g, g', rank, rep, a, b, y);
    }
    forall y | y in g ensures RootOk(g', UnionRanks(rank, a, b), UnionReps(rep, a, b), y) {
      UnionKeepsRoot(g, g', rank, rep, a, b, y);
    }
  }

  lemma UnionKeepsNode(g: Groups, g': Groups, rank: Ranks, rep: Reps, a: Element, b: Element, y: Element)
    requires NodeOk(g, rank, rep, y) && NodeOk(g, rank, rep, a) && NodeOk(g, rank, rep, b) && IsUnion(g, g', a, b)
    ensures NodeOk(g', UnionRanks(rank, a, b), UnionReps(rep, a, b), y)
  {
    assert y == a || g'[y].root == g[y].root;
    assert g'[b].root == null && g'[rep[y]].root == (if rep[y] == a then b else null);
  }

  lemma UnionKeepsRoot(g: Groups, g': Groups, rank: Ranks, rep: Reps, a: Element, b: Element, y: Element)
    requires RootOk(g, rank, rep, y) && RootOk(g, rank, rep, a) && RootOk(g, rank, rep, b) && IsUnion(g, g', a, b)
    requires NodeOk(g, rank, rep, a) && NodeOk(g, rank, rep, b) && g[a].size <= g[b].size
    ensures RootOk(g', UnionRanks(rank, a, b), UnionReps(rep, a, b), y)
  {
    var rank', rep' := UnionRanks(rank, a, b), UnionReps(rep, a, b);
    if y == b {
      assert Class(rep', b) == Class(rep, a) + Class(rep, b);
      assert Class(rep, a) !! Class(rep, b);
    } else if y != a {
      assert Class(rep', y) == Class(rep, y);
    }
  }

  ghost function WithNew(g: Groups, e: Element): Groups {
    g[e := NewCell]
  }

  const NewCell := Cell(null, null, null, null, null, 1)

  lemma AddKeepsForest(g: Groups, rank: Ranks, rep: Reps, e: Element)
    requires ForestOk(g, rank, rep) && e !in g
    ensures ForestOk(WithNew(g, e), rank[e := 0], rep[e := e])
  {
    hide NodeOk, RootOk, Class;
    NobodyNamesNew(g, rank, rep, e);
    AddedNode(g, rank, rep, e);
    forall y | y in g
      ensures NodeOk(g[e := NewCell], rank[e := 0], rep[e := e], y) && RootOk(g[e := NewCell], rank[e := 0], rep[e := e], y)
    {
      AddKeepsNode(g, rank, rep, e, y);
    }
  }

  lemma AddKeepsLists(g: Groups, k: Kids, e: Element)
    requires ListsOk(g, k) && e !in g
    ensures ListsOk(WithNew(g, e), WithKids(k, e, []))
  {
    var g', k' := WithNew(g, e), WithKids(k, e, []);
    forall p | p in k' ensures ListOk(g', p, k'[p]) {
      if p != e { OtherList(g, g', p, k[p]); }
    }
    hide ListOk;
    assert Owned(g', k', null) by {
      forall p, x | p in k' && x in k'[p] ensures x in g' && g'[x].root == p && x != p { assert p != e && x in k[p]; }
    }
  }

  lemma NobodyNamesNew(g: Groups, rank: Ranks, rep: Reps, e: Element)
    requires ForestOk(g, rank, rep) && e !in g
    ensures Class(rep[e := e], e) == {e} && e !in rep && e !in rep.Values
  {
    forall y | y in rep ensures rep[y] != e { assert NodeOk(g, rank, rep, y); }
  }

  lemma AddedNode(g: Groups, rank: Ranks, rep: Reps, e: Element)
    requires e !in g && Class(rep[e := e], e) == {e}
    ensures NodeOk(g[e := NewCell], rank[e := 0], rep[e := e], e)
    ensures RootOk(g[e := NewCell], rank[e := 0], rep[e := e], e)
  {
  }

  lemma AddKeepsNode(g: Groups, rank: Ranks, rep: Reps, e: Element, y: Element)
    requires NodeOk(g, rank, rep, y) && RootOk(g, rank, rep, y) && e !in g && e !in rep
    ensures NodeOk(g[e := NewCell], rank[e := 0], rep[e := e], y)
    ensures RootOk(g[e := NewCell], rank[e := 0], rep[e := e], y)
  {
    assert Class(rep[e := e], y) == Class(rep, y);
  }

  /** What rank x still lacks to its root. */
  ghost function Height(rank: Ranks, rep: Reps, x: Element): nat {
    if x in rank && x in rep && rep[x] in rank && rank[x] <= rank[rep[x]] then rank[rep[x]] - rank[x] else 0
  }

  /** The number of steps from x to its root. */
  ghost function Depth(g: Groups, rank: Ranks, rep: Reps, x: Element): nat
    requires ForestOk(g, rank, rep) && x in g
    decreases Height(rank, rep, x)
  {
    NodeFacts(g, rank, rep, x);
    if g[x].root == null then 0
    else NodeFacts(g, rank, rep, g[x].root); 1 + Depth(g, rank, rep, g[x].root)
  }

  /** The elements from x up to its root. */
  ghost function PathUp(g: Groups, rank: Ranks, rep: Reps, x: Element): set<Element>
    requires ForestOk(g, rank, rep) && x in g
    decreases Height(rank, rep, x)
  {
    NodeFacts(g, rank, rep, x);
    if g[x].root == null then {x}
    else NodeFacts(g, rank, rep, g[x].root); {x} + PathUp(g, rank, rep, g[x].root)
  }

  lemma {:induction false} PathHeights(g: Groups, rank: Ranks, rep: Reps, x: Element)
    requires ForestOk(g, rank, rep) && x in g
    ensures x in PathUp(g, rank, rep, x)
    ensures forall y :: y in PathUp(g, rank, rep, x) ==> y in g && Height(rank, rep, y) <= Height(rank, rep, x)
    decreases Height(rank, rep, x)
  {
    NodeFacts(g, rank, rep, x);
    if g[x].root != null {
      NodeFacts(g, rank, rep, g[x].root);
      hide ForestOk, Height;
      HeightStep(g, rank, rep, x);
      PathHeights(g, rank, rep, g[x].root);
    }
  }

  lemma HeightStep(g: Groups, rank: Ranks, rep: Reps, x: Element)
    requires ForestOk(g, rank, rep) && x in g && g[x].root != null
    ensures g[x].root in g && Height(rank, rep, g[x].root) < Height(rank, rep, x)
  {
    NodeFacts(g, rank, rep, x);
    NodeFacts(g, rank, rep, g[x].root);
  }

  lemma {:induction false} DepthBelowRank(g: Groups, rank: Ranks, rep: Reps, x: Element)
    requires ForestOk(g, rank, rep) && x in g
    ensures Depth(g, rank, rep, x) + rank[x] <= rank[rep[x]]
    decreases Depth(g, rank, rep, x)
  {
    assert NodeOk(g, rank, rep, x);
    if g[x].root != null { DepthBelowRank(g, rank, rep, g[x].root); }
  }

  lemma {:induction false} Pow2Grows(m: nat, n: nat)
    requires m <= n
    ensures Pow2(m) <= Pow2(n)
    decreases n
  {
    if m < n { Pow2Grows(m, n - 1); }
  }

  /** Every element is at most log2 of its class away from the root. */
  lemma DepthIsLogarithmic(g: Groups, rank: Ranks, rep: Reps, x: Element)
    requires ForestOk(g, rank, rep) && x in g
    ensures rep[x] in g && Pow2(Depth(g, rank, rep, x)) <= g[rep[x]].size == |Class(rep, rep[x])|
  {
    DepthBelowRank(g, rank, rep, x);
    assert NodeOk(g, rank, rep, x) && RootOk(g, rank, rep, rep[x]);
    Pow2Grows(Depth(g, rank, rep, x), rank[rep[x]]);
  }

  // ---------------------------------------------------------------- the equivalence closure

  type Links = set<(VarId, VarId)>

  ghost predicate IsPath(links: Links, p: seq<VarId>) {
    |p| > 0 && forall i :: 0 <= i && i + 1 < |p| ==> (p[i], p[i + 1]) in links || (p[i + 1], p[i]) in links
  }

  /** x and y are related by the equivalence closure of the linked pairs. */
  ghost predicate Connected(links: Links, x: VarId, y: VarId) {
    exists p :: IsPath(links, p) && p[0] == x && p[|p| - 1] == y
  }

  lemma ConnectedSelf(links: Links, x: VarId)
    ensures Connected(links, x, x)
  {
    assert IsPath(links, [x]);
  }

  lemma ConnectedStep(links: Links, x: VarId, y: VarId)
    requires (x, y) in links || (y, x) in links
    ensures Connected(links, x, y)
  {
    assert IsPath(links, [x, y]);
  }

  lemma ConnectedTrans(links: Links, x: VarId, y: VarId, z: VarId)
    requires Connected(links, x, y) && Connected(links, y, z)
    ensures Connected(links, x, z)
  {
    var p :| IsPath(links, p) && p[0] == x && p[|p| - 1] == y;
    var q :| IsPath(links, q) && q[0] == y && q[|q| - 1] == z;
    var r := p + q[1..];
    forall i | 0 <= i && i + 1 < |r| ensures (r[i], r[i + 1]) in links || (r[i + 1], r[i]) in links {
      if i + 1 < |p| {
        assert r[i] == p[i] && r[i + 1] == p[i + 1];
      } else {
        var j := i + 1 - |p|;
        assert r[i] == q[j] && r[i + 1] == q[j + 1];
      }
    }
    assert IsPath(links, r);
  }

  lemma ConnectedSym(links: Links, x: VarId, y: VarId)
    requires Connected(links, x, y)
    ensures Connected(links, y, x)
  {
    var p :| IsPath(links, p) && p[0] == x && p[|p| - 1] == y;
    var r := seq(|p|, i requires 0 <= i < |p| => p[|p| - 1 - i]);
    forall i | 0 <= i && i + 1 < |r| ensures (r[i], r[i + 1]) in links || (r[i + 1], r[i]) in links {
      var j := |p| - 2 - i;
      assert r[i] == p[j + 1] && r[i + 1] == p[j];
      assert (p[j], p[j + 1]) in links || (p[j + 1], p[j]) in links;
    }
    assert IsPath(links, r);
  }

  lemma ConnectedMono(links: Links, links': Links, x: VarId, y: VarId)
    requires Connected(links, x, y) && links <= links'
    ensures Connected(links', x, y)
  {
    var p :| IsPath(links, p) && p[0] == x && p[|p| - 1] == y;
    assert IsPath(links', p);
  }

  /** Two members with the given items and the same root. */
  ghost predicate Together(rep: Reps, u: VarId, v: VarId) {
    exists x, y :: x in rep && y in rep && x.item == u && y.item == v && rep[x] == rep[y]
  }

  /** Two elements have the same root exactly when the closure of the linked pairs relates them. */
  ghost predicate RepsOk(links: Links, rep: Reps) {
    && (forall l :: l in links ==> Together(rep, l.0, l.1))
    && (forall x, y :: x in rep && y in rep && rep[x] == rep[y] ==> Connected(links, x.item, y.item))
  }

  ghost predicate DistinctItems(s: set<Element>) {
    forall x, y :: x in s && y in s && x != y ==> x.item != y.item
  }

  lemma {:induction false} PathKeepsRep(links: Links, rep: Reps, p: seq<VarId>, x: Element) returns (y: Element)
    requires RepsOk(links, rep) && DistinctItems(rep.Keys) && IsPath(links, p) && x in rep && x.item == p[0]
    ensures y in rep && y.item == p[|p| - 1] && rep[y] == rep[x]
    decreases |p|
  {
    if |p| == 1 {
      y := x;
    } else {
      var u, v := p[0], p[0 + 1];
      assert (u, v) in links || (v, u) in links;
      assert Together(rep, u, v) || Together(rep, v, u);
      var x', z :| x' in rep && z in rep && x'.item == u && z.item == v && rep[x'] == rep[z];
      assert x' == x;
      TailIsPath(links, p);
      y := PathKeepsRep(links, rep, p[1..], z);
    }
  }

  lemma TailIsPath(links: Links, p: seq<VarId>)
    requires IsPath(links, p) && |p| > 1
    ensures IsPath(links, p[1..])
  {
    assert forall i :: 0 <= i < |p| - 1 ==> p[1..][i] == p[i + 1];
    forall i | 0 <= i && i + 1 < |p[1..]|
      ensures (p[1..][i], p[1..][i + 1]) in links || (p[1..][i + 1], p[1..][i]) in links
    {
      assert (p[i + 1], p[i + 1 + 1]) in links || (p[i + 1 + 1], p[i + 1]) in links;
    }
  }

  lemma SameRootIffConnected(links: Links, rep: Reps, x: Element, y: Element)
    requires RepsOk(links, rep) && DistinctItems(rep.Keys) && x in rep && y in rep
    ensures rep[x] == rep[y] <==> Connected(links, x.item, y.item)
  {
    if Connected(links, x.item, y.item) {
      var p :| IsPath(links, p) && p[0] == x.item && p[|p| - 1] == y.item;
      var z := PathKeepsRep(links, rep, p, x);
      assert z == y;
    }
  }

  /** Linking two elements and merging their classes keeps the correspondence. */
  lemma UnionKeepsReps(links: Links, rep: Reps, u: Element, v: Element, a: Element, b: Element)
    requires RepsOk(links, rep) && u in rep && v in rep
    requires (rep[u] == a && rep[v] == b) || (rep[u] == b && rep[v] == a)
    ensures RepsOk(links + {(u.item, v.item)}, UnionReps(rep, a, b))
  {
    hide Connected;
    var links', rep' := links + {(u.item, v.item)}, UnionReps(rep, a, b);
    forall x, y | x in rep' && y in rep' && rep'[x] == rep'[y] ensures Connected(links', x.item, y.item) {
      UnionConnects(links, rep, u, v, a, b, x, y);
    }
    forall l | l in links' ensures Together(rep', l.0, l.1) {
      if l in links {
        var x, y :| x in rep && y in rep && x.item == l.0 && y.item == l.1 && rep[x] == rep[y];
        assert rep'[x] == rep'[y];
      } else {
        assert rep'[u] == rep'[v];
      }
    }
  }

  lemma UnionConnects(links: Links, rep: Reps, u: Element, v: Element, a: Element, b: Element, x: Element, y: Element)
    requires RepsOk(links, rep) && u in rep && v in rep && x in rep && y in rep
    requires (rep[u] == a && rep[v] == b) || (rep[u] == b && rep[v] == a)
    requires UnionReps(rep, a, b)[x] == UnionReps(rep, a, b)[y]
    ensures Connected(links + {(u.item, v.item)}, x.item, y.item)
  {
    hide Connected;
    var links' := links + {(u.item, v.item)};
    if rep[x] == rep[y] {
      ConnectedMono(links, links', x.item, y.item);
    } else {
      var u', v' := if rep[x] == rep[u] then u else v, if rep[x] == rep[u] then v else u;
      assert rep[x] == rep[u'] && rep[v'] == rep[y];
      ThroughLink(links, links', x.item, u'.item, v'.item, y.item);
    }
  }

  lemma ThroughLink(links: Links, links': Links, x: VarId, u: VarId, v: VarId, y: VarId)
    requires Connected(links, x, u) && Connected(links, v, y) && links <= links'
    requires (u, v) in links' || (v, u) in links'
    ensures Connected(links', x, y)
  {
    ConnectedMono(links, links', x, u);
    ConnectedMono(links, links', v, y);
    ConnectedStep(links', u, v);
    ConnectedTrans(links', x, u, v);
    ConnectedTrans(links', x, v, y);
  }

  /** Linking two elements that already share a root. */
  lemma RelinkKeepsReps(links: Links, rep: Reps, u: Element, v: Element)
    requires RepsOk(links, rep) && u in rep && v in rep && rep[u] == rep[v]
    ensures RepsOk(links + {(u.item, v.item)}, rep)
  {
    var links' := links + {(u.item, v.item)};
    forall x, y | x in rep && y in rep && rep[x] == rep[y] ensures Connected(links', x.item, y.item) {
      ConnectedMono(links, links', x.item, y.item);
    }
    forall l | l in links' ensures Together(rep, l.0, l.1) {}
  }

  lemma AddKeepsReps(links: Links, rep: Reps, e: Element)
    requires RepsOk(links, rep) && e !in rep && e !in rep.Values
    ensures RepsOk(links, rep[e := e])
  {
    var rep' := rep[e := e];
    forall x, y | x in rep' && y in rep' && rep'[x] == rep'[y] ensures Connected(links, x.item, y.item) {
      ConnectedSelf(links, e.item);
      if x != e { assert rep[x] in rep.Values; }
      if y != e { assert rep[y] in rep.Values; }
    }
    forall l | l in links ensures Together(rep', l.0, l.1) {
      var x, y :| x in rep && y in rep && x.item == l.0 && y.item == l.1 && rep[x] == rep[y];
      assert x in rep' && y in rep' && rep'[x] == rep'[y];
    }
  }

  lemma DistinctAfterAdd(s: set<Element>, e: Element)
    requires DistinctItems(s) && forall x :: x in s ==> x.item != e.item
    ensures DistinctItems(s + {e})
  {
  }
}
