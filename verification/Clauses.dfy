/**
 * The variables of atoms and how they are grouped (pip_plugin/src/type/eqn.c, atom.c): every atom
 * links its variables in a connected set, and the atoms of one group are moved to the front.
 */
module Clauses {
  import opened Basics
  import opened CsetModel
  import opened CsetShape
  import opened CsetVisit
  import opened Cset
  import opened Eqn

  // ---------------------------------------------------------------- variables

  function Vars(e: Expr): set<VarId> {
    match e
    case Number(_) => {}
    case Variable(v) => {v}
    case Join(_, l, r) => Vars(l) + Vars(r)
    case Minus(f) => Vars(f)
    case Given(f, a) => Vars(f) + AtomVars(a)
  }

  function AtomVars(a: Atom): set<VarId> {
    Vars(a.l) + Vars(a.r)
  }

  /** An expression's value depends on its own variables only. */
  lemma {:induction false} ValueOfVars(e: Expr, v: VarId -> real, w: VarId -> real)
    requires forall x :: x in Vars(e) ==> v(x) == w(x)
    ensures Value(e, v) == Value(e, w)
    decreases e
  {
    match e
    case Number(_) =>
    case Variable(_) =>
    case Join(_, l, r) => ValueOfVars(l, v, w); ValueOfVars(r, v, w);
    case Minus(f) => ValueOfVars(f, v, w);
    case Given(f, a) => ValueOfVars(f, v, w); AtomOfVars(a, v, w);
  }

  lemma {:induction false} AtomOfVars(a: Atom, v: VarId -> real, w: VarId -> real)
    requires forall x :: x in AtomVars(a) ==> v(x) == w(x)
    ensures Holds(a, v) == Holds(a, w)
    decreases a
  {
    ValueOfVars(a.l, v, w);
    ValueOfVars(a.r, v, w);
  }

  /** pip_eqn_cmpnt_has_var */
  method HasVar(buf: seq<Unit>, base: int, offset: int, x: VarId, ghost n: Node) returns (r: bool)
    requires Is(buf, base, n) && n.pos == base + offset
    ensures r <==> x in Vars(Erase(n))
    decreases n
  {
    IsOf(buf, base, n);
    match buf[base + offset]
    case Const(_) => r := false;
    case Var(y) => r := x == y;
    case Branch(_, left, right) =>
      r := HasVar(buf, base, left, x, n.l);
      if !r { r := HasVar(buf, base, right, x, n.r); }
    case Nega(ptr) => r := HasVar(buf, base, ptr, x, n.e);
    case Cnstrt(left, right) =>
      r := HasVar(buf, base, left, x, n.e);
      if !r { r := AtomHasVar(buf, base + right, x, n.a); }
    case _ => assert false; r := false;
  }

  /** pip_atom_has_var, which side it is on left aside. */
  method AtomHasVar(buf: seq<Unit>, pos: int, x: VarId, ghost a: NAtom) returns (r: bool)
    requires IsAtom(buf, a) && a.pos == pos
    ensures r <==> x in AtomVars(EraseAtom(a))
    decreases a
  {
    r := HasVar(buf, pos + ATOMHDR, buf[pos].left, x, a.l);
    if !r { r := HasVar(buf, pos + ATOMHDR, buf[pos].right, x, a.r); }
  }

  // ---------------------------------------------------------------- linking

  function Items(s: set<Element>): set<VarId> {
    set e | e in s :: e.item
  }

  /** The set has these items more, and pairs of them linked. */
  ghost predicate Grown(st: Shape, st': Shape, vars: set<VarId>) {
    && st.elems <= st'.elems && Items(st'.elems) == Items(st.elems) + vars
    && st.links <= st'.links && forall l :: l in st'.links && l !in st.links ==> l.0 in vars && l.1 in vars
  }

  lemma GrownTwice(a: Shape, b: Shape, c: Shape, u: set<VarId>, w: set<VarId>)
    requires Grown(a, b, u) && Grown(b, c, w)
    ensures Grown(a, c, u + w)
  {
  }

  /** The variable handed up stands for all of them. */
  ghost predicate FirstOf(first: Option<VarId>, vars: set<VarId>, links: Links) {
    && (first.None? <==> vars == {})
    && (first.Some? ==> first.value in vars && forall x :: x in vars ==> Connected(links, first.value, x))
  }

  lemma FirstLater(first: Option<VarId>, vars: set<VarId>, links: Links, links': Links)
    requires FirstOf(first, vars, links) && links <= links'
    ensures FirstOf(first, vars, links')
  {
    if first.Some? {
      forall x | x in vars ensures Connected(links', first.value, x) { ConnectedMono(links, links', first.value, x); }
    }
  }

  lemma FirstJoined(left: Option<VarId>, right: Option<VarId>, l: set<VarId>, r: set<VarId>, links: Links)
    requires FirstOf(left, l, links) && FirstOf(right, r, links)
    requires left.Some? && right.Some? ==> (left.value, right.value) in links
    ensures FirstOf(if left.Some? then left else right, l + r, links)
  {
    if left.Some? && right.Some? {
      ConnectedStep(links, left.value, right.value);
      forall x | x in r ensures Connected(links, left.value, x) {
        ConnectedTrans(links, left.value, right.value, x);
      }
    }
  }

  lemma ItemHeld(cs: ConnectedSet, x: VarId)
    ensures x in Items(cs.st.elems) <==> cs.Has(x)
  {
  }

  /** The step repeated at every node: if both sides have variables, their first ones are linked. */
  method LinkSides(cs: ConnectedSet, left: Option<VarId>, right: Option<VarId>, ghost l: set<VarId>, ghost r: set<VarId>)
    returns (first: Option<VarId>)
    requires cs.Valid() && !cs.locked && l + r <= Items(cs.st.elems)
    requires FirstOf(left, l, cs.st.links) && FirstOf(right, r, cs.st.links)
    modifies cs, cs.st.elems
    ensures cs.Valid() && !cs.locked && cs.st.elems == old(cs.st.elems)
    ensures Grown(old(cs.st), cs.st, l + r) && FirstOf(first, l + r, cs.st.links)
  {
    hide *;
    ghost var links := cs.st.links;
    if left.Some? && right.Some? {
      FirstInside(left, l, links);
      FirstInside(right, r, links);
      ItemHeld(cs, left.value);
      ItemHeld(cs, right.value);
      cs.Link(left.value, right.value);
      FirstLater(left, l, links, cs.st.links);
      FirstLater(right, r, links, cs.st.links);
    }
    FirstJoined(left, right, l, r, cs.st.links);
    LinkGrown(old(cs.st), cs.st, left, right, l, r);
    first := if left.Some? then left else right;
  }

  lemma FirstInside(first: Option<VarId>, vars: set<VarId>, links: Links)
    requires FirstOf(first, vars, links) && first.Some?
    ensures first.value in vars
  {
  }

  lemma LinkGrown(st: Shape, st': Shape, left: Option<VarId>, right: Option<VarId>, l: set<VarId>, r: set<VarId>)
    requires st'.elems == st.elems && l + r <= Items(st.elems)
    requires st'.links == if left.Some? && right.Some? then st.links + {(left.value, right.value)} else st.links
    requires left.Some? && right.Some? ==> left.value in l && right.value in r
    ensures Grown(st, st', l + r)
  {
  }

  /** pip_eqn_cmpnt_to_cset: adds the variables and links them; the result is the first one, if any. */
  method ToCset(cs: ConnectedSet, buf: seq<Unit>, base: int, offset: int, ghost n: Node) returns (first: Option<VarId>)
    requires cs.Valid() && !cs.locked && Is(buf, base, n) && n.pos == base + offset
    modifies cs, cs.st.elems
    ensures cs.Valid() && !cs.locked && fresh(cs.st.elems - old(cs.st.elems))
    ensures Grown(old(cs.st), cs.st, Vars(Erase(n))) && FirstOf(first, Vars(Erase(n)), cs.st.links)
    decreases n
  {
    hide *;
    ghost var st0 := cs.st;
    IsOf(buf, base, n);
    VarsOfNode(n);
    match buf[base + offset]
    case Const(_) =>
      first := None;
      NothingGrown(st0);
    case Var(x) =>
      ghost var e;
      var added;
      added, e := cs.Add(x);
      first := Some(x);
      OneGrown(st0, cs.st, e, x, added);
    case Branch(_, l, r) =>
      var left := ToCset(cs, buf, base, l, n.l);
      ghost var st1 := cs.st;
      var right := ToCset(cs, buf, base, r, n.r);
      first := LinkGrownSides(cs, left, right, Vars(Erase(n.l)), Vars(Erase(n.r)), st0, st1, false);
    case Nega(p) =>
      first := ToCset(cs, buf, base, p, n.e);
    case Cnstrt(l, r) =>
      var left := ToCset(cs, buf, base, l, n.e);
      ghost var st1 := cs.st;
      AtomIs(buf, n.a);
      var data := base + r + ATOMHDR;
      var right := ToCset(cs, buf, data, buf[base + r].right, n.a.r);
      right := LinkGrownSides(cs, left, right, Vars(Erase(n.e)), Vars(Erase(n.a.r)), st0, st1, false);
      ghost var st2 := cs.st;
      left := ToCset(cs, buf, data, buf[base + r].left, n.a.l);
      first := LinkGrownSides(cs, left, right, Vars(Erase(n.a.l)), Vars(Erase(n.e)) + Vars(Erase(n.a.r)), st0, st2, true);
      assert Vars(Erase(n.a.l)) + (Vars(Erase(n.e)) + Vars(Erase(n.a.r))) == Vars(Erase(n));
    case _ => assert false;
  }

  /** Links the first variables of two parts; first is the part met first unless swapped. */
  method LinkGrownSides(cs: ConnectedSet, left: Option<VarId>, right: Option<VarId>, ghost l: set<VarId>, ghost r: set<VarId>,
      ghost st0: Shape, ghost st1: Shape, ghost swapped: bool)
    returns (first: Option<VarId>)
    requires cs.Valid() && !cs.locked
    requires Grown(st0, st1, if swapped then r else l) && Grown(st1, cs.st, if swapped then l else r)
    requires FirstOf(left, l, if swapped then cs.st.links else st1.links)
    requires FirstOf(right, r, if swapped then st1.links else cs.st.links)
    modifies cs, cs.st.elems
    ensures cs.Valid() && !cs.locked && cs.st.elems == old(cs.st.elems)
    ensures Grown(st0, cs.st, l + r) && FirstOf(first, l + r, cs.st.links)
  {
    hide *;
    ghost var st2 := cs.st;
    var u, w := if swapped then r else l, if swapped then l else r;
    GrownFacts(st1, st2, w);
    GrownTwice(st0, st1, st2, u, w);
    GrownFacts(st0, st2, u + w);
    assert u + w == l + r;
    if swapped { FirstLater(right, r, st1.links, st2.links); } else { FirstLater(left, l, st1.links, st2.links); }
    first := LinkSides(cs, left, right, l, r);
    GrownTwice(st0, st2, cs.st, l + r, l + r);
    assert (l + r) + (l + r) == l + r;
  }

  lemma GrownFacts(st: Shape, st': Shape, vars: set<VarId>)
    requires Grown(st, st', vars)
    ensures st.links <= st'.links && vars <= Items(st'.elems) && st.elems <= st'.elems
  {
  }

  lemma NothingGrown(st: Shape)
    ensures Grown(st, st, {}) && FirstOf(None, {}, st.links)
  {
  }

  lemma OneGrown(st: Shape, st': Shape, e: Element, x: VarId, added: bool)
    requires e.item == x && e in st'.elems
    requires st' == if added then AddTo(st, e) else st
    ensures Grown(st, st', {x}) && FirstOf(Some(x), {x}, st'.links)
    ensures st'.elems == if added then st.elems + {e} else st.elems
  {
    ConnectedSelf(st'.links, x);
    assert added ==> Items(st'.elems) == Items(st.elems) + {x};
    assert !added ==> Items(st.elems) == Items(st.elems) + {x};
  }

  lemma AtomIs(buf: seq<Unit>, a: NAtom)
    requires IsAtom(buf, a)
    ensures 0 <= a.pos < |buf| && buf[a.pos] == AtomHead(a.l.pos - (a.pos + ATOMHDR), a.r.pos - (a.pos + ATOMHDR))
    ensures Is(buf, a.pos + ATOMHDR, a.l) && Is(buf, a.pos + ATOMHDR, a.r)
  {
  }

  lemma VarsOfNode(n: Node)
    ensures n.NConst? ==> Vars(Erase(n)) == {}
    ensures n.NVar? ==> Vars(Erase(n)) == {n.v}
    ensures n.NJoin? ==> Vars(Erase(n)) == Vars(Erase(n.l)) + Vars(Erase(n.r))
    ensures n.NNega? ==> Vars(Erase(n)) == Vars(Erase(n.e))
    ensures n.NCnstrt? ==> Vars(Erase(n)) == Vars(Erase(n.e)) + (Vars(Erase(n.a.l)) + Vars(Erase(n.a.r)))
  {
  }

  // ---------------------------------------------------------------- the groups of a clause

  /** The data hold an atom. */
  ghost predicate IsClause(data: seq<Unit>) {
    exists a :: IsAtomData(data, a)
  }

  ghost function AtomOf(data: seq<Unit>): (a: Atom)
    requires IsClause(data)
    ensures IsAtomData(data, a)
  {
    var a :| IsAtomData(data, a);
    a
  }

  ghost function VarsOf(data: seq<Unit>): set<VarId> {
    if IsClause(data) then AtomVars(AtomOf(data)) else {}
  }

  ghost predicate AllClauses(clause: seq<seq<Unit>>) {
    forall i :: 0 <= i < |clause| ==> IsClause(clause[i])
  }

  /** Pairs of variables that occur in one atom. */
  ghost predicate InOneAtom(clause: seq<seq<Unit>>, x: VarId, y: VarId) {
    exists i :: 0 <= i < |clause| && x in VarsOf(clause[i]) && y in VarsOf(clause[i])
  }

  ghost function AllVars(clause: seq<seq<Unit>>): set<VarId> {
    if clause == [] then {} else AllVars(clause[..|clause| - 1]) + VarsOf(clause[|clause| - 1])
  }

  /** The set's items are the clause's variables, and its links are just what the atoms give. */
  ghost predicate GroupsOfClause(st: Shape, clause: seq<seq<Unit>>) {
    && Items(st.elems) == AllVars(clause)
    && (forall l :: l in st.links ==> InOneAtom(clause, l.0, l.1))
    && (forall x, y :: InOneAtom(clause, x, y) ==> Connected(st.links, x, y))
  }

  /** pip_clause_to_cset, with sampling groups. */
  method ClauseToCset(clause: seq<seq<Unit>>) returns (cs: ConnectedSet)
    requires AllClauses(clause)
    ensures fresh(cs) && fresh(cs.st.elems) && cs.Valid() && !cs.locked && GroupsOfClause(cs.st, clause)
  {
    cs := new ConnectedSet();
    hide *;
    NoAtoms(cs.st);
    assert clause[..0] == [];
    for i := 0 to |clause|
      invariant fresh(cs) && fresh(cs.st.elems) && cs.Valid() && !cs.locked && GroupsOfClause(cs.st, clause[..i])
    {
      ghost var st0 := cs.st;
      ghost var n := NodesOf(clause, i);
      AtomIs(clause[i], n);
      var left := ToCset(cs, clause[i], ATOMHDR, clause[i][0].left, n.l);
      ghost var st1 := cs.st;
      var right := ToCset(cs, clause[i], ATOMHDR, clause[i][0].right, n.r);
      var first := LinkGrownSides(cs, left, right, Vars(Erase(n.l)), Vars(Erase(n.r)), st0, st1, false);
      AtomGrouped(st0, cs.st, clause, i, first);
    }
    assert clause[..|clause|] == clause;
  }

  lemma NoAtoms(st: Shape)
    requires st == EmptyShape
    ensures GroupsOfClause(st, []) && st.elems == {}
  {
  }

  /** Where the parts of clause i stand. */
  lemma NodesOf(clause: seq<seq<Unit>>, i: nat) returns (n: NAtom)
    requires AllClauses(clause) && i < |clause|
    ensures IsAtom(clause[i], n) && n.pos == 0 && VarsOf(clause[i]) == Vars(Erase(n.l)) + Vars(Erase(n.r))
  {
    var a := AtomOf(clause[i]);
    n :| IsAtom(clause[i], n) && n.pos == 0 && EraseAtom(n) == a;
  }

  lemma MoreAtoms(clause: seq<seq<Unit>>, i: nat, x: VarId, y: VarId)
    requires i < |clause|
    ensures InOneAtom(clause[..i + 1], x, y) <==>
      InOneAtom(clause[..i], x, y) || (x in VarsOf(clause[i]) && y in VarsOf(clause[i]))
    ensures AllVars(clause[..i + 1]) == AllVars(clause[..i]) + VarsOf(clause[i])
  {
    hide VarsOf;
    var c, d := clause[..i + 1], clause[..i];
    assert c[..|c| - 1] == d && c[|c| - 1] == clause[i];
    if InOneAtom(d, x, y) {
      var k :| 0 <= k < |d| && x in VarsOf(d[k]) && y in VarsOf(d[k]);
      assert c[k] == d[k];
    }
    if InOneAtom(c, x, y) {
      var k :| 0 <= k < |c| && x in VarsOf(c[k]) && y in VarsOf(c[k]);
      assert k < i ==> d[k] == c[k];
    }
  }

  lemma AtomGrouped(st: Shape, st': Shape, clause: seq<seq<Unit>>, i: nat, first: Option<VarId>)
    requires i < |clause| && GroupsOfClause(st, clause[..i])
    requires Grown(st, st', VarsOf(clause[i])) && FirstOf(first, VarsOf(clause[i]), st'.links)
    ensures GroupsOfClause(st', clause[..i + 1])
  {
    hide VarsOf, InOneAtom, Connected, AllVars;
    var c, d := clause[..i + 1], clause[..i];
    var dummy := VarId(0, 0);
    MoreAtoms(clause, i, dummy, dummy);
    forall l | l in st'.links ensures InOneAtom(c, l.0, l.1) { MoreAtoms(clause, i, l.0, l.1); }
    forall x, y | InOneAtom(c, x, y) ensures Connected(st'.links, x, y) {
      MoreAtoms(clause, i, x, y);
      if InOneAtom(d, x, y) {
        ConnectedMono(st.links, st'.links, x, y);
      } else {
        ConnectedSym(st'.links, first.value, x);
        ConnectedTrans(st'.links, x, first.value, y);
      }
    }
  }

  // ---------------------------------------------------------------- gathering

  /** An atom mentions one of the variables. */
  ghost predicate Mentions(data: seq<Unit>, g: set<VarId>) {
    exists x :: x in g && x in VarsOf(data)
  }

  /** The atoms from start to done have the variable, those from done to i have not; nothing is lost. */
  ghost predicate Gathered(was: seq<seq<Unit>>, s: seq<seq<Unit>>, start: nat, done: nat, i: nat, x: VarId) {
    && start <= done <= i <= |s| == |was| && multiset(s) == multiset(was) && AllClauses(s)
    && s[..start] == was[..start]
    && (forall k :: start <= k < done ==> x in VarsOf(s[k]))
    && (forall k :: done <= k < i ==> x !in VarsOf(s[k]))
    && (forall k :: start <= k < |s| ==> s[k] in was[start..])
  }

  lemma SwapSame(s: seq<seq<Unit>>, i: nat, j: nat)
    requires i < |s| && j < |s|
    ensures multiset(s[i := s[j]][j := s[i]]) == multiset(s)
  {
    var t := s[i := s[j]][j := s[i]];
    assert multiset(s[i := s[j]]) == multiset(s) - multiset{s[i]} + multiset{s[j]};
  }

  lemma GatherStart(was: seq<seq<Unit>>, start: nat, x: VarId)
    requires AllClauses(was) && start <= |was|
    ensures Gathered(was, was, start, start, start, x)
  {
    forall k | start <= k < |was| ensures was[k] in was[start..] { assert was[start..][k - start] == was[k]; }
  }

  lemma GatherSwap(was: seq<seq<Unit>>, s: seq<seq<Unit>>, start: nat, done: nat, i: nat, x: VarId)
    requires Gathered(was, s, start, done, i, x) && i < |s| && x in VarsOf(s[i])
    ensures Gathered(was, s[i := s[done]][done := s[i]], start, done + 1, i + 1, x)
  {
    hide VarsOf, IsClause;
    SwapSame(s, i, done);
  }

  lemma GatherSkip(was: seq<seq<Unit>>, s: seq<seq<Unit>>, start: nat, done: nat, i: nat, x: VarId)
    requires Gathered(was, s, start, done, i, x) && i < |s| && x !in VarsOf(s[i])
    ensures Gathered(was, s, start, done, i + 1, x)
  {
  }

  /** Two atoms change places, unless they are one. */
  method Swap(clause: array<seq<Unit>>, i: nat, j: nat)
    requires i < clause.Length && j < clause.Length
    modifies clause
    ensures clause[..] == old(clause[..])[i := old(clause[j])][j := old(clause[i])]
  {
    if i != j {
      var tmpAtom := clause[i];
      clause[i] := clause[j];
      clause[j] := tmpAtom;
    }
  }

  /** pip_gather_atoms: the atoms with the variable are swapped to the front of those not yet placed. */
  method GatherAtoms(clause: array<seq<Unit>>, x: VarId, complete: nat) returns (complete': nat)
    requires complete <= clause.Length && AllClauses(clause[..])
    modifies clause
    ensures Gathered(old(clause[..]), clause[..], complete, complete', clause.Length, x)
  {
    hide *;
    complete' := complete;
    ghost var was := clause[..];
    GatherStart(was, complete, x);
    for i := complete to clause.Length
      invariant complete <= complete' <= i && AllClauses(clause[..])
      invariant Gathered(was, clause[..], complete, complete', i, x)
    {
      ghost var s := clause[..];
      ghost var n := NodesOf(s, i);
      VarsOfAtomNode(s, i, n);
      var r := AtomHasVar(clause[i], 0, x, n);
      if r {
        GatherSwap(was, s, complete, complete', i, x);
        Swap(clause, i, complete');
        complete' := complete' + 1;
      } else {
        GatherSkip(was, s, complete, complete', i, x);
      }
      GatheredClauses(was, clause[..], complete, complete', i + 1, x);
    }
  }

  lemma GatheredClauses(was: seq<seq<Unit>>, s: seq<seq<Unit>>, start: nat, done: nat, i: nat, x: VarId)
    requires Gathered(was, s, start, done, i, x)
    ensures AllClauses(s)
  {
  }

  lemma VarsOfAtomNode(clause: seq<seq<Unit>>, i: nat, n: NAtom)
    requires i < |clause| && VarsOf(clause[i]) == Vars(Erase(n.l)) + Vars(Erase(n.r))
    ensures VarsOf(clause[i]) == AtomVars(EraseAtom(n))
  {
  }

  /** Those from start to done mention a variable of g, those after it mention none; nothing is lost. */
  ghost predicate GroupGathered(was: seq<seq<Unit>>, s: seq<seq<Unit>>, start: nat, done: nat, g: set<VarId>) {
    && start <= done <= |s| == |was| && multiset(s) == multiset(was) && AllClauses(s)
    && s[..start] == was[..start]
    && (forall k :: start <= k < done ==> Mentions(s[k], g))
    && (forall k :: done <= k < |s| ==> !Mentions(s[k], g))
  }

  lemma NoneGathered(was: seq<seq<Unit>>, start: nat)
    requires AllClauses(was) && start <= |was|
    ensures GroupGathered(was, was, start, start, {})
  {
  }

  lemma GatheredMore(was: seq<seq<Unit>>, s: seq<seq<Unit>>, t: seq<seq<Unit>>, start: nat, done: nat, done': nat, g: set<VarId>, x: VarId)
    requires GroupGathered(was, s, start, done, g) && Gathered(s, t, done, done', |t|, x)
    ensures GroupGathered(was, t, start, done', g + {x})
  {
    hide VarsOf, IsClause;
    assert t[..start] == t[..done][..start] == s[..done][..start] == s[..start];
    forall k | start <= k < done' ensures Mentions(t[k], g + {x}) {
      if k < done {
        assert t[k] == t[..done][k] == s[k];
        MentionsMore(s[k], g, g + {x});
      } else {
        assert x in g + {x} && x in VarsOf(t[k]);
      }
    }
    forall k | done' <= k < |t| ensures !Mentions(t[k], g + {x}) {
      var j :| 0 <= j < |s[done..]| && s[done..][j] == t[k];
      assert t[k] == s[done + j];
    }
  }

  lemma MentionsMore(data: seq<Unit>, g: set<VarId>, h: set<VarId>)
    requires Mentions(data, g) && g <= h
    ensures Mentions(data, h)
  {
  }

  /** The variables of the class whose root is r. */
  ghost function GroupItems(st: Shape, r: Element): set<VarId> {
    Items(Class(st.rep, r))
  }

  /** pip_group_atoms: the atoms that mention a variable of the group are placed next. */
  method GroupAtoms(cs: ConnectedSet, group: Element, clause: array<seq<Unit>>, complete: nat) returns (complete': nat)
    requires cs.Valid() && cs.locked && group in cs.st.elems
    requires complete <= clause.Length && AllClauses(clause[..])
    modifies clause, cs`st, cs.st.elems`groupNext, cs.st.elems`groupPrev, cs.st.elems`groupRoot, cs.st.elems`head
    modifies cs.st.elems`tail, cs.st.elems`childCount
    ensures cs.Valid() && cs.st == old(cs.st) && cs.GroupsNow() == old(cs.GroupsNow())
    ensures group in cs.st.rep
    ensures GroupGathered(old(clause[..]), clause[..], complete, complete', GroupItems(cs.st, cs.st.rep[group]))
  {
    hide *;
    var visited := cs.IterateGroup(group);
    complete' := complete;
    ghost var was, g := clause[..], {};
    VisitedItems(cs.st, cs.st.rep[group], visited);
    NoItems();
    assert visited[..0] == [];
    NoneGathered(was, complete);
    for i := 0 to |visited|
      invariant GroupGathered(was, clause[..], complete, complete', g)
      invariant g == ItemsOf(visited[..i])
      invariant cs.Valid() && cs.st == old(cs.st) && cs.GroupsNow() == old(cs.GroupsNow())
    {
      GroupGatheredFacts(was, clause[..], complete, complete', g);
      ghost var s := clause[..];
      ItemsOfMore(visited, i);
      ghost var done := complete';
      complete' := GatherAtoms(clause, visited[i].item, complete');
      GatheredMore(was, s, clause[..], complete, done, complete', g, visited[i].item);
      g := g + {visited[i].item};
    }
    assert visited[..|visited|] == visited;
  }

  ghost function ItemsOf(s: seq<Element>): set<VarId> {
    set e | e in s :: e.item
  }

  lemma ItemsOfMore(s: seq<Element>, i: nat)
    requires i < |s|
    ensures ItemsOf(s[..i + 1]) == ItemsOf(s[..i]) + {s[i].item}
  {
    assert s[..i + 1] == s[..i] + [s[i]];
  }

  lemma NoItems()
    ensures ItemsOf([]) == {}
  {
  }

  lemma VisitedItems(st: Shape, r: Element, visited: seq<Element>)
    requires forall x :: x in visited <==> x in Class(st.rep, r)
    ensures ItemsOf(visited) == GroupItems(st, r)
  {
  }

  lemma GroupGatheredFacts(was: seq<seq<Unit>>, s: seq<seq<Unit>>, start: nat, done: nat, g: set<VarId>)
    requires GroupGathered(was, s, start, done, g)
    ensures start <= done <= |s| == |was| && AllClauses(s)
  {
  }
}
