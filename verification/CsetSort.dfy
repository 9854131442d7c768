/** The binary search tree over the elements of a connected set, ordered by pip_variable_sort. */
module CsetSort {
  import opened CsetModel

  /** The shape of the tree hanging off the set's root pointer. */
  datatype SortTree = Leaf | Node(left: SortTree, e: Element, right: SortTree)

  datatype SortCell = SortCell(left: Element?, right: Element?)
  type SortLinks = map<Element, SortCell>

  ghost predicate IsTree(s: SortLinks, r: Element?, t: SortTree) {
    match t
    case Leaf => r == null
    case Node(lt, e, rt) => r == e && e in s && IsTree(s, s[e].left, lt) && IsTree(s, s[e].right, rt)
  }

  ghost function Contents(t: SortTree): set<Element> {
    match t
    case Leaf => {}
    case Node(lt, e, rt) => Contents(lt) + {e} + Contents(rt)
  }

  /** The comparator is called with the node first: a positive answer leads to the right. */
  ghost predicate Ordered(t: SortTree) {
    match t
    case Leaf => true
    case Node(lt, e, rt) =>
      && Ordered(lt) && Ordered(rt)
      && (forall x :: x in Contents(lt) ==> CompareVars(e.item, x.item) < 0)
      && (forall x :: x in Contents(rt) ==> CompareVars(e.item, x.item) > 0)
  }

  /** The in-order walk of pip_cset_dfs. */
  ghost function InOrder(t: SortTree): seq<Element> {
    match t
    case Leaf => []
    case Node(lt, e, rt) => InOrder(lt) + [e] + InOrder(rt)
  }

  ghost predicate Lists(c: seq<Element>, s: set<Element>) {
    Distinct(c) && (forall x :: x in c ==> x in s) && (forall x :: x in s ==> x in c)
  }

  lemma {:induction false} InOrderOnce(t: SortTree)
    requires Ordered(t)
    ensures Lists(InOrder(t), Contents(t))
    decreases t
  {
    match t
    case Leaf =>
    case Node(lt, e, rt) =>
      InOrderOnce(lt);
      InOrderOnce(rt);
      ListsJoin(InOrder(lt), Contents(lt), e, InOrder(rt), Contents(rt));
  }

  lemma ListsJoin(a: seq<Element>, s: set<Element>, e: Element, b: seq<Element>, u: set<Element>)
    requires Lists(a, s) && Lists(b, u)
    requires forall x :: x in s ==> CompareVars(e.item, x.item) < 0
    requires forall x :: x in u ==> CompareVars(e.item, x.item) > 0
    ensures Lists(a + [e] + b, s + {e} + u)
  {
    DistinctConcat(a, [e]);
    DistinctConcat(a + [e], b);
  }

  /** The greater variable first. */
  ghost predicate Descends(c: seq<Element>) {
    forall i, j :: 0 <= i < j < |c| ==> Greater(c[i].item, c[j].item)
  }

  predicate Greater(a: VarId, b: VarId) {
    a.group > b.group || (a.group == b.group && a.variable > b.variable)
  }

  /** The left subtree holds the greater variables, so the walk goes down from the greatest. */
  lemma {:induction false} InOrderDescends(t: SortTree)
    requires Ordered(t)
    ensures Descends(InOrder(t))
    decreases t
  {
    match t
    case Leaf =>
    case Node(lt, e, rt) =>
      InOrderDescends(lt);
      InOrderDescends(rt);
      InOrderOnce(lt);
      InOrderOnce(rt);
      DescendsJoin(InOrder(lt), e, InOrder(rt));
  }

  lemma DescendsJoin(a: seq<Element>, e: Element, b: seq<Element>)
    requires Descends(a) && Descends(b)
    requires forall x :: x in a ==> CompareVars(e.item, x.item) < 0
    requires forall x :: x in b ==> CompareVars(e.item, x.item) > 0
    ensures Descends(a + [e] + b)
  {
    var c := a + [e] + b;
    forall i, j | 0 <= i < j < |c| ensures Greater(c[i].item, c[j].item) {
      if i < |a| { assert c[i] in a && Greater(c[i].item, e.item); }
      if j > |a| { assert c[j] == b[j - |a| - 1] && c[j] in b && Greater(e.item, c[j].item); }
    }
  }

  /** Where find_node ends for an item: the element holding it, or the free slot for it. */
  datatype Slot = Slot(parent: Element?, right: bool)

  ghost function Lookup(t: SortTree, item: VarId): Element? {
    match t
    case Leaf => null
    case Node(lt, e, rt) =>
      var c := CompareVars(e.item, item);
      if c > 0 then Lookup(rt, item) else if c < 0 then Lookup(lt, item) else e
  }

  ghost function FreeSlot(t: SortTree, item: VarId, above: Slot): Slot {
    match t
    case Leaf => above
    case Node(lt, e, rt) =>
      if CompareVars(e.item, item) > 0 then FreeSlot(rt, item, Slot(e, true)) else FreeSlot(lt, item, Slot(e, false))
  }

  ghost function Inserted(t: SortTree, n: Element): SortTree {
    match t
    case Leaf => Node(Leaf, n, Leaf)
    case Node(lt, e, rt) =>
      if CompareVars(e.item, n.item) > 0 then Node(lt, e, Inserted(rt, n)) else Node(Inserted(lt, n), e, rt)
  }

  /** Search finds an item exactly when it is there. */
  lemma {:induction false} LookupFinds(t: SortTree, item: VarId)
    requires Ordered(t)
    ensures Lookup(t, item) != null ==> Lookup(t, item) in Contents(t) && Lookup(t, item).item == item
    ensures Lookup(t, item) == null ==> forall x :: x in Contents(t) ==> x.item != item
    decreases t
  {
    match t
    case Leaf =>
    case Node(lt, e, rt) =>
      LookupFinds(lt, item);
      LookupFinds(rt, item);
  }

  lemma {:induction false} InsertedKeepsOrder(t: SortTree, n: Element)
    requires Ordered(t) && forall x :: x in Contents(t) ==> x.item != n.item
    ensures Ordered(Inserted(t, n)) && Contents(Inserted(t, n)) == Contents(t) + {n}
    decreases t
  {
    match t
    case Leaf =>
    case Node(lt, e, rt) =>
      assert e in Contents(t) && e.item != n.item;
      ComparedZero(e.item, n.item);
      if CompareVars(e.item, n.item) > 0 {
        InsertedKeepsOrder(rt, n);
      } else {
        InsertedKeepsOrder(lt, n);
      }
      hide CompareVars, Contents;
  }

  lemma ComparedZero(a: VarId, b: VarId)
    ensures CompareVars(a, b) == 0 <==> a == b
  {
  }

  /** The links after the new element n was hung into a slot. */
  ghost function Hung(s: SortLinks, slot: Slot, n: Element): SortLinks {
    var s' := if slot.parent == null || slot.parent !in s then s
              else if slot.right then s[slot.parent := s[slot.parent].(right := n)]
              else s[slot.parent := s[slot.parent].(left := n)];
    s'[n := SortCell(null, null)]
  }

  lemma {:induction false} SameTree(s: SortLinks, s': SortLinks, r: Element?, t: SortTree)
    requires IsTree(s, r, t) && forall x :: x in Contents(t) && x in s ==> x in s' && s'[x] == s[x]
    ensures IsTree(s', r, t)
    decreases t
  {
    match t
    case Leaf =>
    case Node(lt, e, rt) =>
      SameTree(s, s', s[e].left, lt);
      SameTree(s, s', s[e].right, rt);
  }

  lemma {:induction false} FreeSlotInside(t: SortTree, item: VarId, above: Slot)
    ensures FreeSlot(t, item, above) == above || FreeSlot(t, item, above).parent in Contents(t)
    ensures t.Node? ==> FreeSlot(t, item, above).parent in Contents(t)
    decreases t
  {
    match t
    case Leaf =>
    case Node(lt, e, rt) =>
      FreeSlotInside(lt, item, Slot(e, false));
      FreeSlotInside(rt, item, Slot(e, true));
  }

  /** Hanging the new element into the free slot gives the tree with it inserted. */
  lemma {:induction false} HangInserts(s: SortLinks, r: Element?, t: SortTree, n: Element, above: Slot)
    requires IsTree(s, r, t) && Ordered(t) && n !in Contents(t) && n !in s
    requires above.parent == null || above.parent !in Contents(t)
    ensures var slot := FreeSlot(t, n.item, above);
      IsTree(Hung(s, slot, n), if t == Leaf then n else r, Inserted(t, n))
    decreases t
  {
    var slot := FreeSlot(t, n.item, above);
    var s' := Hung(s, slot, n);
    match t
    case Leaf =>
    case Node(lt, e, rt) =>
      var goRight := CompareVars(e.item, n.item) > 0;
      var near, far := if goRight then rt else lt, if goRight then lt else rt;
      forall x | x in Contents(near) ensures x !in Contents(far) && x != e {}
      FreeSlotInside(near, n.item, Slot(e, goRight));
      HangInserts(s, if goRight then s[e].right else s[e].left, near, n, Slot(e, goRight));
      SameTree(s, s', if goRight then s[e].left else s[e].right, far);
      if near == Leaf { assert slot == Slot(e, goRight); }
  }
}
