/**
 * The connected set of pip_plugin/src/list_utils.c: elements with intrusive child lists and
 * a search tree, changed in place by add, link and find.
 */
module Cset {
  import opened Basics
  import opened CsetModel
  import opened CsetSort
  import opened CsetShape
  import opened CsetVisit

  class ConnectedSet {
    var root: Element?
    var size: nat
    var locked: bool
    ghost var st: Shape

    ghost function GroupsNow(): Groups
      reads `st, st.elems`groupNext, st.elems`groupPrev, st.elems`groupRoot, st.elems`head, st.elems`tail, st.elems`groupSize
    {
      GroupsOf(st.elems)
    }

    static ghost function GroupsOf(s: set<Element>): Groups
      reads s`groupNext, s`groupPrev, s`groupRoot, s`head, s`tail, s`groupSize
    {
      map e | e in s :: Cell(e.groupNext, e.groupPrev, e.groupRoot, e.head, e.tail, e.groupSize)
    }

    static ghost function SortOf(s: set<Element>): SortLinks
      reads s`sortLeft, s`sortRight
    {
      map e | e in s :: SortCell(e.sortLeft, e.sortRight)
    }

    ghost predicate ValidGroups()
      reads `st, st.elems`groupNext, st.elems`groupPrev, st.elems`groupRoot, st.elems`head, st.elems`tail, st.elems`groupSize
    {
      GoodGroups(GroupsNow(), st)
    }

    ghost predicate ValidSort()
      reads `st, `root, `size, st.elems`sortLeft, st.elems`sortRight
    {
      GoodSort(SortOf(st.elems), root, size, st)
    }

    ghost predicate Valid()
      reads `st, `root, `size, st.elems`groupNext, st.elems`groupPrev, st.elems`groupRoot, st.elems`head, st.elems`tail
      reads st.elems`groupSize, st.elems`sortLeft, st.elems`sortRight
    {
      ValidGroups() && ValidSort() && GoodNames(st)
    }

    /** pip_cset_init */
    constructor ()
      ensures Valid() && st == EmptyShape && !locked
    {
      root, size, locked, st := null, 0, false, EmptyShape;
    }

    // -------------------------------------------------------------- child lists

    /** pip_list_remove on the children of p */
    method ListRemove(p: Element, x: Element)
      requires p in st.elems && x in st.elems
      requires x.groupPrev == null || x.groupPrev in st.elems
      requires x.groupNext == null || x.groupNext in st.elems
      requires x.groupPrev != x && x.groupNext != x
      modifies st.elems`groupNext, st.elems`groupPrev, st.elems`head, st.elems`tail
      ensures IsRemoved(old(GroupsNow()), GroupsNow(), p, x)
    {
      if x.groupPrev == null {
        p.head := x.groupNext;
      } else {
        x.groupPrev.groupNext := x.groupNext;
      }
      if x.groupNext == null {
        p.tail := x.groupPrev;
      } else {
        x.groupNext.groupPrev := x.groupPrev;
      }
    }

    /** pip_list_append to the children of r */
    method ListAppend(r: Element, x: Element)
      requires r in st.elems && x in st.elems && r != x
      requires r.head == null || (r.tail != null && r.tail in st.elems)
      modifies st.elems`groupNext, st.elems`groupPrev, st.elems`head, st.elems`tail, st.elems`childCount
      ensures IsAppended(old(GroupsNow()), GroupsNow(), r, x)
      ensures SameForest(old(GroupsNow()), GroupsNow())
    {
      if r.head == null {
        r.head := x;
      } else {
        r.tail.groupNext := x;
      }
      x.groupNext := null;
      x.groupPrev := r.tail;
      r.tail := x;
      r.childCount := r.childCount + 1;
    }

    /** element->group_root = r */
    method SetGroupRoot(element: Element, r: Element)
      requires element in st.elems
      modifies element`groupRoot
      ensures element.groupRoot == r && GroupsNow() == WithRoot(old(GroupsNow()), element, r)
    {
      element.groupRoot := r;
    }

    method SetGroupSize(element: Element, n: nat)
      requires element in st.elems
      modifies element`groupSize
      ensures GroupsNow() == WithSize(old(GroupsNow()), element, n)
    {
      element.groupSize := n;
    }

    // -------------------------------------------------------------- find

    /** pip_cset_find_group_root: the root of the class, with path compression unless locked. */
    method FindGroupRoot(element: Element) returns (r: Element)
      requires ValidGroups() && element in st.elems
      modifies `st, st.elems`groupNext, st.elems`groupPrev, st.elems`groupRoot, st.elems`head, st.elems`tail, st.elems`childCount
      ensures ValidGroups() && st == old(st).(kids := st.kids)
      ensures element in st.rep && r == st.rep[element] && r in st.elems && r.groupRoot == null
      ensures forall x :: x in st.elems && old(x.groupRoot) == null ==> x.groupRoot == null
      ensures locked ==> GroupsNow() == old(GroupsNow()) && st == old(st)
      ensures !locked ==> forall x :: x in st.elems ==>
        x.groupRoot == if x in old(Above(element)) && x != r then r else old(x.groupRoot)
      decreases Height(st.rank, st.rep, element)
    {
      hide *;
      NodeHere(element);
      AboveHere(element);
      if element.groupRoot == null { return element; }
      NodeHere(element.groupRoot);
      r := FindGroupRoot(element.groupRoot);
      NodeHere(element);
      if !locked && r != element.groupRoot {
        Reroot(element, r);
      }
    }

    /** The elements from x up to its root. */
    ghost function Above(x: Element): set<Element>
      requires ValidGroups() && x in st.elems
      reads this, st.elems
    {
      PathUp(GroupsNow(), st.rank, st.rep, x)
    }

    lemma AboveHere(x: Element)
      requires ValidGroups() && x in st.elems
      ensures x.groupRoot == null ==> Above(x) == {x}
      ensures x.groupRoot != null ==> x.groupRoot in st.elems && Above(x) == {x} + Above(x.groupRoot) && x !in Above(x.groupRoot)
    {
      var g := GroupsNow();
      assert g[x].root == x.groupRoot;
      if x.groupRoot != null {
        HeightStep(g, st.rank, st.rep, x);
        PathHeights(g, st.rank, st.rep, x.groupRoot);
      }
    }

    /** The path compression step: element moves from the children of its root to those of r. */
    method Reroot(element: Element, r: Element)
      requires ValidGroups() && element in st.elems && element.groupRoot != null
      requires element in st.rep && r == st.rep[element] && r != element.groupRoot
      modifies `st, st.elems`groupNext, st.elems`groupPrev, element`groupRoot, st.elems`head, st.elems`tail, st.elems`childCount
      ensures ValidGroups() && st == old(st).(kids := st.kids) && element.groupRoot == r
    {
      hide *;
      var p := element.groupRoot;
      ghost var g0, k0 := GroupsNow(), st.kids;
      ghost var i := ChildHere(p, element);
      NodeHere(element);
      GroupsHere();
      ListRemove(p, element);
      ghost var g1, k1 := GroupsNow(), WithKids(k0, p, Without(k0[p], i));
      AfterRemove(g0, g1, k0, p, element, i, r);
      CellHere(r);
      ListAppend(r, element);
      ghost var g2 := GroupsNow();
      SetGroupRoot(element, r);
      AfterAppend(g0, g1, g2, k1, st.rank, st.rep, element, r);
      SetKids(WithKids(k1, r, k1[r] + [element]));
    }

    ghost method SetKids(k: Kids)
      requires ListsOk(GroupsNow(), k) && ForestOk(GroupsNow(), st.rank, st.rep)
      modifies `st
      ensures ValidGroups() && st == old(st).(kids := k)
    {
      hide ListsOk, ForestOk;
      st := st.(kids := k);
    }

    lemma GroupsHere()
      requires ValidGroups()
      ensures ListsOk(GroupsNow(), st.kids) && ForestOk(GroupsNow(), st.rank, st.rep) && GroupsNow().Keys == st.elems
    {
      hide ListsOk, ForestOk;
    }

    lemma CellHere(x: Element)
      requires x in st.elems
      ensures x in GroupsNow() && GroupsNow()[x].head == x.head && GroupsNow()[x].tail == x.tail
      ensures GroupsNow()[x].root == x.groupRoot && GroupsNow()[x].size == x.groupSize && GroupsNow().Keys == st.elems
    {
    }

    lemma NodeHere(x: Element)
      requires ValidGroups() && x in st.elems
      ensures x in st.rep && x in st.rank && st.rep[x] in st.elems && st.rep[x].groupRoot == null
      ensures x.groupRoot == null ==> st.rep[x] == x
      ensures x.groupRoot != null ==>
        (x.groupRoot in st.elems && x.groupRoot in st.rep && st.rep[x.groupRoot] == st.rep[x] && st.rep[x] != x
         && Height(st.rank, st.rep, x.groupRoot) < Height(st.rank, st.rep, x))
      ensures st.rep[x] in GroupsNow() && GroupsNow()[st.rep[x]].root == null && x in GroupsNow() && GroupsNow()[x].root == x.groupRoot
    {
      var g := GroupsNow();
      assert g[x].root == x.groupRoot;
      NodeFacts(g, st.rank, st.rep, x);
      assert g[st.rep[x]].root == st.rep[x].groupRoot;
      if x.groupRoot != null { NodeFacts(g, st.rank, st.rep, x.groupRoot); }
    }

    /** Where x stands among the children of its root. */
    lemma ChildHere(p: Element, x: Element) returns (i: nat)
      requires ValidGroups() && x in st.elems && x.groupRoot == p
      ensures p in st.elems && p in st.kids && i < |st.kids[p]| && st.kids[p][i] == x
      ensures x.groupPrev == null || (x.groupPrev in st.elems && x.groupPrev != x)
      ensures x.groupNext == null || (x.groupNext in st.elems && x.groupNext != x)
    {
      var g := GroupsNow();
      assert g[x].root == p;
      assert x in st.kids[p];
      i :| 0 <= i < |st.kids[p]| && st.kids[p][i] == x;
      assert ListOk(g, p, st.kids[p]);
      Neighbours(g, p, st.kids[p], i);
    }

    // -------------------------------------------------------------- search and add

    /** pip_cset_find_node below one tree pointer */
    method FindNodeFrom(node: Element?, above: Slot, item: VarId, ghost t: SortTree) returns (slot: Slot, e: Element?)
      requires IsTree(SortOf(st.elems), node, t)
      ensures e == Lookup(t, item)
      ensures e == null ==> slot == FreeSlot(t, item, above)
      decreases t
    {
      if node == null {
        return above, null;
      }
      var cmp := CompareVars(node.item, item);
      if cmp > 0 {
        slot, e := FindNodeFrom(node.sortRight, Slot(node, true), item, t.right);
      } else if cmp < 0 {
        slot, e := FindNodeFrom(node.sortLeft, Slot(node, false), item, t.left);
      } else {
        return above, node;
      }
    }

    /** pip_cset_find_node: the element with the item, or the free place for it. */
    method FindNode(item: VarId) returns (slot: Slot, e: Element?)
      requires ValidSort()
      ensures e != null ==> e in st.elems && e.item == item
      ensures e == null ==> slot == FreeSlot(st.sort, item, Slot(null, false)) && forall x :: x in st.elems ==> x.item != item
    {
      slot, e := FindNodeFrom(root, Slot(null, false), item, st.sort);
      LookupFinds(st.sort, item);
    }

    /** pip_cset_add: a new class with one member, unless the item is already there. */
    method Add(item: VarId) returns (added: bool, ghost e: Element)
      requires Valid()
      modifies this, st.elems`sortLeft, st.elems`sortRight
      ensures Valid() && locked == old(locked)
      ensures e.item == item && e in st.elems
      ensures added <==> forall x :: x in old(st.elems) ==> x.item != item
      ensures added ==> fresh(e) && st == AddTo(old(st), e)
      ensures !added ==> st == old(st)
    {
      hide Valid, ValidGroups, ValidSort, GoodNames, GoodGroups, GoodSort, FreeSlot, Inserted, WithKids;
      ValidParts();
      var slot, found := FindNode(item);
      if found != null { return false, found; }
      var n := new Element(item);
      AddNode(slot, n);
      return true, n;
    }

    lemma ValidParts()
      requires Valid()
      ensures ValidGroups() && ValidSort() && GoodNames(st)
      ensures GoodGroups(GroupsNow(), st) && GoodSort(SortOf(st.elems), root, size, st)
      ensures GroupsNow().Keys == st.elems && SortOf(st.elems).Keys == st.elems && st.rep.Keys == st.elems
    {
      hide GoodGroups, GoodSort;
    }

    method AddNode(slot: Slot, n: Element)
      requires Valid() && n !in st.elems && forall x :: x in st.elems ==> x.item != n.item
      requires IsNew(n) && slot == FreeSlot(st.sort, n.item, Slot(null, false))
      modifies this, st.elems`sortLeft, st.elems`sortRight
      ensures Valid() && locked == old(locked) && st == AddTo(old(st), n)
    {
      hide *;
      ValidParts();
      AddKeepsSort(SortOf(st.elems), root, size, st, slot, n);
      AddKeepsGroups(GroupsNow(), st, n);
      ghost var g := GroupsNow();
      HangNode(slot, n);
      GrowGroups(n);
      size := size + 1;
      Enter(n, g);
    }

    ghost predicate IsNew(n: Element)
      reads n
    {
      n.groupRoot == n.head == n.tail == n.groupNext == n.groupPrev == n.sortLeft == n.sortRight == null && n.groupSize == 1
    }

    lemma GrowGroups(n: Element)
      requires IsNew(n) && n !in st.elems
      ensures GroupsOf(st.elems + {n}) == WithNew(GroupsNow(), n)
    {
    }

    ghost method Enter(n: Element, g: Groups)
      requires GoodGroups(GroupsOf(st.elems + {n}), AddTo(st, n)) && GoodNames(AddTo(st, n))
      requires GoodSort(SortOf(st.elems + {n}), root, size, AddTo(st, n))
      modifies `st
      ensures Valid() && st == AddTo(old(st), n)
    {
      hide GoodGroups, GoodNames, GoodSort;
      st := AddTo(st, n);
    }

    /** The new node is stored through the pointer the search ended at. */
    method HangNode(slot: Slot, n: Element)
      requires n !in st.elems && IsNew(n)
      requires slot.parent != null ==> slot.parent in st.elems
      modifies `root, st.elems`sortLeft, st.elems`sortRight
      ensures SortOf(st.elems + {n}) == Hung(old(SortOf(st.elems)), slot, n)
      ensures root == (if slot.parent == null then n else old(root)) && IsNew(n)
    {
      if slot.parent == null {
        root := n;
      } else if slot.right {
        slot.parent.sortRight := n;
      } else {
        slot.parent.sortLeft := n;
      }
    }

    /** find_group_root on a valid set */
    method RootOf(element: Element) returns (r: Element)
      requires Valid() && element in st.elems
      modifies `st, st.elems`groupNext, st.elems`groupPrev, st.elems`groupRoot, st.elems`head, st.elems`tail, st.elems`childCount
      ensures Valid() && st == old(st).(kids := st.kids)
      ensures element in st.rep && r == st.rep[element] && r in st.elems && r.groupRoot == null
      ensures forall x :: x in st.elems && old(x.groupRoot) == null ==> x.groupRoot == null
      ensures locked ==> GroupsNow() == old(GroupsNow()) && st == old(st)
    {
      hide *;
      ValidParts();
      ghost var st0 := st;
      r := FindGroupRoot(element);
      OnlyKids(st0);
    }

    lemma OnlyKids(st0: Shape)
      requires st == st0.(kids := st.kids) && ValidGroups()
      requires GoodSort(SortOf(st0.elems), root, size, st0) && GoodNames(st0)
      ensures Valid()
    {
      hide GoodGroups, RepsOk, DistinctItems, IsTree, Ordered;
    }

    // -------------------------------------------------------------- link

    /** The member holding an item. */
    ghost predicate Holds(e: Element, item: VarId)
      reads `st
    {
      e in st.elems && e.item == item
    }

    ghost predicate Has(item: VarId)
      reads `st
    {
      exists e :: e in st.elems && e.item == item
    }

    /**
     * pip_cset_link: merges two classes, the smaller into the larger.  A missing item or a
     * locked set makes it do nothing.
     */
    method Link(itemA: VarId, itemB: VarId)
      requires Valid()
      modifies `st, st.elems`groupNext, st.elems`groupPrev, st.elems`groupRoot, st.elems`head, st.elems`tail
      modifies st.elems`childCount, st.elems`groupSize
      ensures Valid() && st.elems == old(st.elems) && st.sort == old(st.sort)
      ensures st.links == if !locked && Has(itemA) && Has(itemB) then old(st.links) + {(itemA, itemB)} else old(st.links)
      ensures locked || !Has(itemA) || !Has(itemB) ==> st == old(st) && GroupsNow() == old(GroupsNow())
    {
      hide Valid, ValidGroups, ValidSort, GoodNames, GoodGroups, GoodSort, FreeSlot;
      ValidParts();
      var _, elementA := FindNode(itemA);
      var _, elementB := FindNode(itemB);
      if elementA == null || elementB == null { return; }
      if locked { return; }
      LinkElements(elementA, elementB);
    }

    method LinkElements(elementA: Element, elementB: Element)
      requires Valid() && elementA in st.elems && elementB in st.elems
      modifies `st, st.elems`groupNext, st.elems`groupPrev, st.elems`groupRoot, st.elems`head, st.elems`tail
      modifies st.elems`childCount, st.elems`groupSize
      ensures Valid() && st.elems == old(st.elems) && st.sort == old(st.sort)
      ensures st.links == old(st.links) + {(elementA.item, elementB.item)}
    {
      hide *;
      ValidParts();
      var rootA := RootOf(elementA);
      var rootB := RootOf(elementB);
      if rootA != rootB {
        if rootA.groupSize < rootB.groupSize {
          Union(rootA, rootB, elementA, elementB);
        } else {
          Union(rootB, rootA, elementA, elementB);
        }
      } else {
        Relink(elementA, elementB);
      }
    }

    /** root a of the smaller class goes under root b */
    method Union(a: Element, b: Element, ghost u: Element, ghost v: Element)
      requires Valid() && a in st.elems && b in st.elems && u in st.elems && v in st.elems
      requires a != b && a.groupRoot == null && b.groupRoot == null && a.groupSize <= b.groupSize
      requires u in st.rep && v in st.rep
      requires (st.rep[u] == a && st.rep[v] == b) || (st.rep[u] == b && st.rep[v] == a)
      modifies `st, st.elems`groupNext, st.elems`groupPrev, a`groupRoot, st.elems`head, st.elems`tail
      modifies st.elems`childCount, b`groupSize
      ensures Valid() && st.elems == old(st.elems) && st.sort == old(st.sort)
      ensures st.links == old(st.links) + {(u.item, v.item)}
    {
      hide *;
      ValidParts();
      ghost var g := GroupsNow();
      Present(g, st, a);
      Present(g, st, b);
      CellHere(a);
      CellHere(b);
      SetGroupRoot(a, b);
      CellHere(b);
      ListAppend(b, a);
      ghost var g2 := GroupsNow();
      SetGroupSize(b, b.groupSize + a.groupSize);
      UnionKeeps(g, g2, GroupsNow(), st, a, b, u, v);
      SetShape(Joined(st, a, b, u, v));
    }

    ghost method Relink(u: Element, v: Element)
      requires Valid() && u in st.elems && v in st.elems && u in st.rep && v in st.rep && st.rep[u] == st.rep[v]
      modifies `st
      ensures Valid() && st.elems == old(st.elems) && st.sort == old(st.sort)
      ensures st.links == old(st.links) + {(u.item, v.item)}
    {
      hide RepsOk, DistinctItems, ListsOk, ForestOk, GoodSort;
      RelinkKeepsNames(st, u, v);
      SetShape(LinkIn(st, u, v));
    }

    ghost method SetShape(s: Shape)
      requires s.elems == st.elems && s.sort == st.sort
      requires GoodGroups(GroupsNow(), s) && GoodNames(s) && GoodSort(SortOf(st.elems), root, size, st)
      modifies `st
      ensures Valid() && st == s
    {
      hide GoodGroups, GoodNames, IsTree, Ordered, Contents;
      st := s;
    }

    // -------------------------------------------------------------- queries

    /** pip_cset_test_link: related by the closure of the linked pairs */
    method TestLink(itemA: VarId, itemB: VarId) returns (linked: bool)
      requires Valid() && Has(itemA) && Has(itemB)
      modifies `st, st.elems`groupNext, st.elems`groupPrev, st.elems`groupRoot, st.elems`head, st.elems`tail, st.elems`childCount
      ensures Valid() && st == old(st).(kids := st.kids)
      ensures linked <==> Connected(st.links, itemA, itemB)
    {
      hide Valid, ValidGroups, ValidSort, GoodNames, GoodGroups, GoodSort, FreeSlot;
      ValidParts();
      var _, elementA := FindNode(itemA);
      var _, elementB := FindNode(itemB);
      var rootA := RootOf(elementA);
      var rootB := RootOf(elementB);
      Related(elementA, elementB);
      return rootA == rootB;
    }

    /** Members share a root exactly when the closure of the linked pairs relates their items. */
    lemma Related(x: Element, y: Element)
      requires Valid() && x in st.elems && y in st.elems
      ensures x in st.rep && y in st.rep && (st.rep[x] == st.rep[y] <==> Connected(st.links, x.item, y.item))
    {
      hide GoodGroups, GoodSort, RepsOk;
      SameRootIffConnected(st.links, st.rep, x, y);
    }

    /** pip_cset_group_size: the number of members of the class */
    method GroupSize(element: Element) returns (n: nat)
      requires Valid() && element in st.elems
      modifies `st, st.elems`groupNext, st.elems`groupPrev, st.elems`groupRoot, st.elems`head, st.elems`tail, st.elems`childCount
      ensures Valid() && st == old(st).(kids := st.kids)
      ensures element in st.rep && n == |Class(st.rep, st.rep[element])|
    {
      hide *;
      var r := RootOf(element);
      RootSize(r);
      return r.groupSize;
    }

    lemma RootSize(r: Element)
      requires Valid() && r in st.elems && r.groupRoot == null
      ensures r.groupSize == |Class(st.rep, r)| && r in st.rep && st.rep[r] == r
    {
      hide ListsOk, GoodSort, GoodNames, Class;
      var g := GroupsNow();
      assert g[r].size == r.groupSize && g[r].root == null;
      assert RootOk(g, st.rank, st.rep, r) && NodeOk(g, st.rank, st.rep, r);
    }

    /** Every member is at most log2 of the size of its class away from its root. */
    lemma DepthBound(x: Element)
      requires Valid() && x in st.elems
      ensures ForestOk(GroupsNow(), st.rank, st.rep) && x in GroupsNow() && x in st.rep && st.rep[x] in st.elems
      ensures Pow2(Depth(GroupsNow(), st.rank, st.rep, x)) <= st.rep[x].groupSize
    {
      hide ListsOk, GoodSort, GoodNames, NodeOk, RootOk, Class;
      DepthIsLogarithmic(GroupsNow(), st.rank, st.rep, x);
    }

    /** pip_cset_lock */
    method Lock()
      requires Valid()
      modifies `locked
      ensures Valid() && locked
    {
      hide *;
      locked := true;
    }

    // -------------------------------------------------------------- walking a group

    /** pip_cset_group_dfs, with the items handed to the callback as its result. */
    method GroupDfs(curr: Element) returns (visited: seq<Element>)
      requires ValidGroups() && curr in st.elems
      ensures visited == Visit(st.kids, st.rank, curr)
      decreases if curr in st.rank then st.rank[curr] else 0
    {
      hide *;
      ListHere(curr);
      ghost var c := st.kids[curr];
      visited := [curr];
      var child := curr.head;
      ghost var i: nat := 0;
      VisitStart(st.kids, st.rank, curr);
      while child != null
        invariant i <= |c| && child == (if i < |c| then c[i] else null)
        invariant visited + VisitList(st.kids, st.rank, st.rank[curr], c[i..]) == Visit(st.kids, st.rank, curr)
        decreases |c| - i
      {
        ChildListed(curr, i);
        var below := GroupDfs(child);
        VisitNext(st.kids, st.rank, st.rank[curr], c[i..]);
        assert c[i..][1..] == c[i + 1..];
        visited := visited + below;
        child := child.groupNext;
        i := i + 1;
      }
      VisitEnd(st.kids, st.rank, st.rank[curr], c[i..]);
    }

    lemma ListHere(p: Element)
      requires ValidGroups() && p in st.elems
      ensures p in st.kids && p in st.rank
      ensures p.head == (if st.kids[p] == [] then null else st.kids[p][0])
    {
      assert ListOk(GroupsNow(), p, st.kids[p]);
      assert GroupsNow()[p].head == p.head;
    }

    lemma ChildListed(p: Element, i: nat)
      requires ValidGroups() && p in st.elems && p in st.kids && i < |st.kids[p]|
      ensures var c := st.kids[p];
        c[i] in st.elems && c[i].groupNext == (if i + 1 < |c| then c[i + 1] else null)
        && c[i] in st.rank && p in st.rank && st.rank[c[i]] < st.rank[p]
    {
      var g, c := GroupsNow(), st.kids[p];
      ListsGiveRanked(g, st.kids, st.rank, st.rep);
      assert ListOk(g, p, c) && LinkOk(g, c, i);
      assert g[c[i]].next == c[i].groupNext;
      assert c[i] in c;
    }

    /** pip_cset_iterate_group: every member of the class is met once. */
    method IterateGroup(element: Element) returns (visited: seq<Element>)
      requires Valid() && element in st.elems
      modifies `st, st.elems`groupNext, st.elems`groupPrev, st.elems`groupRoot, st.elems`head, st.elems`tail, st.elems`childCount
      ensures Valid() && st == old(st).(kids := st.kids) && (locked ==> st == old(st) && GroupsNow() == old(GroupsNow()))
      ensures element in st.rep && visited == Visit(st.kids, st.rank, st.rep[element])
      ensures Distinct(visited) && forall x :: x in visited <==> x in Class(st.rep, st.rep[element])
    {
      hide *;
      var r := RootOf(element);
      ValidParts();
      visited := GroupDfs(r);
      WalkOnce(r);
    }

    lemma WalkOnce(r: Element)
      requires Valid() && r in st.elems && r.groupRoot == null
      ensures Distinct(Visit(st.kids, st.rank, r))
      ensures forall x :: x in Visit(st.kids, st.rank, r) <==> x in Class(st.rep, r)
      ensures |Visit(st.kids, st.rank, r)| == r.groupSize
    {
      hide ListsOk, ForestOk, GoodSort, GoodNames, Class, Visit, Distinct;
      assert GroupsNow()[r].root == null && GroupsNow()[r].size == r.groupSize;
      VisitsClassOnce(GroupsNow(), st.kids, st.rank, st.rep, r);
    }

    // -------------------------------------------------------------- walking the set

    /** pip_cset_dfs: in-order over the search tree, with the elements met as its result. */
    method Dfs(curr: Element, ghost t: SortTree) returns (visited: seq<Element>)
      requires IsTree(SortOf(st.elems), curr, t)
      ensures visited == InOrder(t)
      decreases t
    {
      visited := [];
      if curr.sortLeft != null {
        visited := Dfs(curr.sortLeft, t.left);
      }
      visited := visited + [curr];
      if curr.sortRight != null {
        var rest := Dfs(curr.sortRight, t.right);
        visited := visited + rest;
      }
    }

    /** pip_cset_iterate_roots: every class is met once, through its root. */
    method IterateRoots() returns (roots: seq<Element>)
      requires Valid()
      ensures Distinct(roots) && forall x :: x in roots <==> x in st.elems && x.groupRoot == null
      ensures Descends(roots)
    {
      hide *;
      ValidParts();
      if root == null {
        NoRootNoElements();
        return [];
      }
      TreeHere();
      var all := Dfs(root, st.sort);
      AllOnce(all);
      roots := RootsAmong(all);
    }

    /** pip_cset_call_root, for every element in turn */
    method RootsAmong(all: seq<Element>) returns (roots: seq<Element>)
      requires Distinct(all) && Descends(all)
      ensures Distinct(roots) && Descends(roots)
      ensures (forall x :: x in roots ==> x in all && x.groupRoot == null)
      ensures (forall x :: x in all && x.groupRoot == null ==> x in roots)
    {
      roots := [];
      for i := 0 to |all|
        invariant Distinct(roots) && Descends(roots)
        invariant forall x :: x in roots ==> x in all[..i] && x.groupRoot == null
        invariant forall x :: x in all[..i] && x.groupRoot == null ==> x in roots
      {
        if all[i].groupRoot == null {
          assert all[i] !in all[..i];
          DescendsMore(roots, all, i);
          roots := roots + [all[i]];
        }
      }
      assert all[..|all|] == all;
    }

    lemma DescendsMore(roots: seq<Element>, all: seq<Element>, i: nat)
      requires Descends(roots) && Descends(all) && i < |all| && forall x :: x in roots ==> x in all[..i]
      ensures Descends(roots + [all[i]])
    {
      forall k | 0 <= k < |roots| ensures Greater(roots[k].item, all[i].item) {
        assert roots[k] in all[..i];
        var j :| 0 <= j < i && all[..i][j] == roots[k];
        assert all[j] == roots[k];
      }
    }

    lemma TreeHere()
      requires ValidSort()
      ensures IsTree(SortOf(st.elems), root, st.sort)
    {
      hide IsTree, Ordered, Contents;
    }

    lemma NoRootNoElements()
      requires ValidSort() && root == null
      ensures st.elems == {} && Distinct([]) && Descends([])
    {
    }

    lemma AllOnce(all: seq<Element>)
      requires ValidSort() && all == InOrder(st.sort)
      ensures Descends(all) && Distinct(all) && (forall x :: x in all ==> x in st.elems) && (forall x :: x in st.elems ==> x in all)
    {
      InOrderOnce(st.sort);
      InOrderDescends(st.sort);
    }
  }

  lemma AfterRemove(g0: Groups, g1: Groups, k: Kids, p: Element, x: Element, i: nat, r: Element)
    requires ListsOk(g0, k) && p in g0 && i < |k[p]| && k[p][i] == x && IsRemoved(g0, g1, p, x) && r in g0
    ensures ListsOkBut(g1, WithKids(k, p, Without(k[p], i)), x) && SameForest(g0, g1)
    ensures r in WithKids(k, p, Without(k[p], i)) && r in g1 && (g1[r].head == null || (g1[r].tail != null && g1[r].tail in g1))
  {
    RemoveKeepsLists(g0, g1, k, p, x, i);
    hide *;
    TailPresent(g1, WithKids(k, p, Without(k[p], i)), x, r);
  }

  lemma AfterAppend(g0: Groups, g1: Groups, g2: Groups, k: Kids, rank: Ranks, rep: Reps, x: Element, r: Element)
    requires ForestOk(g0, rank, rep) && SameForest(g0, g1) && SameForest(g1, g2) && ListsOkBut(g1, k, x)
    requires IsAppended(g1, g2, r, x) && r in k && x in g0 && g0[x].root != null && x in rep && r == rep[x] && r != x
    ensures x in g2 && ListsOk(WithRoot(g2, x, r), WithKids(k, r, k[r] + [x])) && ForestOk(WithRoot(g2, x, r), rank, rep)
  {
    hide *;
    SameForestTwice(g0, g1, g2);
    SameForestOk(g0, g2, rank, rep);
    RootKept(g0, g2, x);
    CompressKeepsForest(g2, rank, rep, x, r);
    WithRootAppended(g1, g2, r, x);
    AppendKeepsLists(g1, k, r, x, WithRoot(g2, x, r));
    WithRootIs(g2, x, r, k);
  }

  lemma SameForestTwice(g0: Groups, g1: Groups, g2: Groups)
    requires SameForest(g0, g1) && SameForest(g1, g2)
    ensures SameForest(g0, g2)
  {
  }

  lemma RootKept(g0: Groups, g2: Groups, x: Element)
    requires SameForest(g0, g2) && x in g0
    ensures x in g2 && g2[x].root == g0[x].root
  {
  }

  lemma WithRootAppended(g1: Groups, g2: Groups, r: Element, x: Element)
    requires IsAppended(g1, g2, r, x) && SameForest(g1, g2)
    ensures r in g1 && x in g1 && x in g2 && IsAppended(g1, WithRoot(g2, x, r), r, x)
    ensures SameForest(WithRoot(g1, x, r), WithRoot(g2, x, r))
  {
  }

  lemma WithRootIs(g: Groups, x: Element, r: Element, k: Kids)
    requires x in g && r in k
    ensures WithRoot(g, x, r) == g[x := g[x].(root := r)] && WithKids(k, r, k[r] + [x]) == k[r := k[r] + [x]]
  {
  }
}
