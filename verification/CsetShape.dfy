/** All that is known of a connected set beside its pointers, and when it agrees with them. */
module CsetShape {
  import opened CsetModel
  import opened CsetSort

  /** The members, child lists, ranks, group roots, pairs linked so far, and search tree. */
  datatype Shape = Shape(elems: set<Element>, kids: Kids, rank: Ranks, rep: Reps, links: Links, sort: SortTree)

  const EmptyShape := Shape({}, map[], map[], map[], {}, Leaf)

  ghost predicate GoodGroups(g: Groups, st: Shape) {
    ListsOk(g, st.kids) && ForestOk(g, st.rank, st.rep)
  }

  ghost predicate GoodNames(st: Shape) {
    st.rep.Keys == st.elems && DistinctItems(st.rep.Keys) && RepsOk(st.links, st.rep)
  }

  ghost predicate GoodSort(s: SortLinks, root: Element?, size: nat, st: Shape) {
    IsTree(s, root, st.sort) && Ordered(st.sort) && Contents(st.sort) == st.elems && size == |st.elems|
  }

  // ---------------------------------------------------------------- add

  ghost function AddTo(st: Shape, n: Element): Shape {
    Shape(st.elems + {n}, WithKids(st.kids, n, []), st.rank[n := 0], st.rep[n := n], st.links, Inserted(st.sort, n))
  }

  lemma AddKeepsSort(s: SortLinks, root: Element?, size: nat, st: Shape, slot: Slot, n: Element)
    requires GoodSort(s, root, size, st) && s.Keys == st.elems
    requires n !in st.elems && forall x :: x in st.elems ==> x.item != n.item
    requires slot == FreeSlot(st.sort, n.item, Slot(null, false))
    ensures slot.parent != null ==> slot.parent in st.elems
    ensures GoodSort(Hung(s, slot, n), if slot.parent == null then n else root, size + 1, AddTo(st, n))
  {
    hide IsTree, Ordered, Inserted, Hung, FreeSlot;
    FreeSlotOfTree(st.sort, n.item);
    HangInserts(s, root, st.sort, n, Slot(null, false));
    InsertedKeepsOrder(st.sort, n);
  }

  lemma FreeSlotOfTree(t: SortTree, item: VarId)
    ensures var slot := FreeSlot(t, item, Slot(null, false));
      (slot.parent == null <==> t == Leaf) && (slot.parent != null ==> slot.parent in Contents(t))
  {
    FreeSlotInside(t, item, Slot(null, false));
  }

  lemma AddKeepsGroups(g: Groups, st: Shape, n: Element)
    requires GoodGroups(g, st) && GoodNames(st) && g.Keys == st.elems
    requires n !in st.elems && forall x :: x in st.elems ==> x.item != n.item
    ensures GoodGroups(WithNew(g, n), AddTo(st, n)) && GoodNames(AddTo(st, n))
  {
    hide ListsOk, ForestOk, WithNew, WithKids, RepsOk, DistinctItems;
    NobodyNamesNew(g, st.rank, st.rep, n);
    AddKeepsLists(g, st.kids, n);
    AddKeepsForest(g, st.rank, st.rep, n);
    DistinctAfterAdd(st.elems, n);
    assert st.rep[n := n].Keys == st.elems + {n};
    AddKeepsReps(st.links, st.rep, n);
  }

  // ---------------------------------------------------------------- link

  /** The shape after members u and v were linked and, if their roots differ, the root a hung under b. */
  ghost function LinkIn(st: Shape, u: Element, v: Element): Shape {
    st.(links := st.links + {(u.item, v.item)})
  }

  ghost function UnionIn(st: Shape, a: Element, b: Element): Shape
    requires a in st.rank && b in st.rank && b in st.kids
  {
    st.(kids := WithKids(st.kids, b, st.kids[b] + [a]),
        rank := UnionRanks(st.rank, a, b),
        rep := UnionReps(st.rep, a, b))
  }

  /**
   * The steps of pip_cset_link: root pointer, child list, size.  g1 is reached by the root
   * pointer alone, g2 by the append, g3 by the size.
   */
  lemma UnionKeepsGroups(g: Groups, g2: Groups, g3: Groups, st: Shape, a: Element, b: Element)
    requires GoodGroups(g, st) && a in g && b in g && a != b && g[a].root == null && g[b].root == null
    requires g[a].size <= g[b].size && IsAppended(WithRoot(g, a, b), g2, b, a) && SameForest(WithRoot(g, a, b), g2)
    requires b in g2 && g3 == WithSize(g2, b, g[b].size + g[a].size)
    ensures a in st.rank && b in st.rank && b in st.kids && GoodGroups(g3, UnionIn(st, a, b))
  {
    hide ListsOk, ListsOkBut, ForestOk, IsAppended, SameLinks, IsUnion, SameForest, WithRoot, WithSize;
    Present(g, st, a);
    Present(g, st, b);
    UnionSteps(g, g2, g3, a, b);
    RootIsLoose(g, st.kids, a);
    AppendKeepsLists(g, st.kids, b, a, g2);
    SizeKeepsLists(g2, g3, WithKids(st.kids, b, st.kids[b] + [a]));
    UnionKeepsForest(g, g3, st.rank, st.rep, a, b);
  }

  lemma UnionSteps(g: Groups, g2: Groups, g3: Groups, a: Element, b: Element)
    requires a in g && b in g && a != b && g[a].root == null && g[b].root == null
    requires IsAppended(WithRoot(g, a, b), g2, b, a) && SameForest(WithRoot(g, a, b), g2)
    requires b in g2 && g3 == WithSize(g2, b, g[b].size + g[a].size)
    ensures IsAppended(g, g2, b, a) && SameLinks(g2, g3) && IsUnion(g, g3, a, b)
  {
  }

  lemma Present(g: Groups, st: Shape, x: Element)
    requires GoodGroups(g, st) && x in g
    ensures x in st.rank && x in st.rep && x in st.kids
    ensures g[x].head == null || (g[x].tail != null && g[x].tail in g)
  {
    TailPresent(g, st.kids, null, x);
  }

  /** A root is in no child list. */
  lemma RootIsLoose(g: Groups, k: Kids, a: Element)
    requires ListsOk(g, k) && a in g && g[a].root == null
    ensures ListsOkBut(g, k, a)
  {
    hide ListOk;
  }

  /** Only sizes differ. */
  ghost predicate SameLinks(g: Groups, g': Groups) {
    g.Keys == g'.Keys && forall x :: x in g ==>
      g[x].next == g'[x].next && g[x].prev == g'[x].prev && g[x].head == g'[x].head && g[x].tail == g'[x].tail
      && g[x].root == g'[x].root
  }

  lemma SizeKeepsLists(g: Groups, g': Groups, k: Kids)
    requires ListsOk(g, k) && SameLinks(g, g')
    ensures ListsOk(g', k)
  {
    hide LinkOk, Distinct, Listed;
    assert AllLists(g', k) by {
      forall p | p in k ensures ListOk(g', p, k[p]) {
        OtherList(g, g', p, k[p]);
      }
    }
    hide Owned, ListOk;
    MembersSame(g, g', k);
  }

  lemma MembersSame(g: Groups, g': Groups, k: Kids)
    requires Owned(g, k, null) && Listed(g, k, null) && SameLinks(g, g')
    ensures Owned(g', k, null) && Listed(g', k, null)
  {
  }

  lemma UnionKeepsNames(st: Shape, u: Element, v: Element, a: Element, b: Element)
    requires GoodNames(st) && u in st.rep && v in st.rep && a in st.rank && b in st.rank && b in st.kids
    requires (st.rep[u] == a && st.rep[v] == b) || (st.rep[u] == b && st.rep[v] == a)
    ensures GoodNames(LinkIn(UnionIn(st, a, b), u, v))
  {
    hide RepsOk, DistinctItems;
    UnionKeepsReps(st.links, st.rep, u, v, a, b);
    assert UnionReps(st.rep, a, b).Keys == st.rep.Keys;
  }

  lemma RelinkKeepsNames(st: Shape, u: Element, v: Element)
    requires GoodNames(st) && u in st.rep && v in st.rep && st.rep[u] == st.rep[v]
    ensures GoodNames(LinkIn(st, u, v))
  {
    hide RepsOk, DistinctItems;
    RelinkKeepsReps(st.links, st.rep, u, v);
  }

  ghost function Joined(st: Shape, a: Element, b: Element, u: Element, v: Element): Shape
    requires a in st.rank && b in st.rank && b in st.kids
  {
    LinkIn(UnionIn(st, a, b), u, v)
  }

  lemma UnionKeeps(g: Groups, g2: Groups, g3: Groups, st: Shape, a: Element, b: Element, u: Element, v: Element)
    requires GoodGroups(g, st) && a in g && b in g && a != b && g[a].root == null && g[b].root == null
    requires g[a].size <= g[b].size && IsAppended(WithRoot(g, a, b), g2, b, a) && SameForest(WithRoot(g, a, b), g2)
    requires b in g2 && g3 == WithSize(g2, b, g[b].size + g[a].size)
    requires GoodNames(st) && u in st.rep && v in st.rep
    requires (st.rep[u] == a && st.rep[v] == b) || (st.rep[u] == b && st.rep[v] == a)
    ensures a in st.rank && b in st.rank && b in st.kids
    ensures var j := Joined(st, a, b, u, v);
      GoodGroups(g3, j) && GoodNames(j) && j.elems == st.elems && j.sort == st.sort
      && j.links == st.links + {(u.item, v.item)}
  {
    hide IsAppended, SameForest, WithRoot, WithSize, GoodNames, ListsOk, ForestOk, UnionReps, UnionRanks;
    UnionKeepsGroups(g, g2, g3, st, a, b);
    UnionKeepsNames(st, u, v, a, b);
  }
}
