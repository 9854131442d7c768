/**
 * The order in which a group is walked, and why the walk of a root meets every member of
 * its class exactly once.
 */
module CsetVisit {
  import opened CsetModel

  ghost predicate KidsRanked(k: Kids, rank: Ranks) {
    k.Keys == rank.Keys && forall p, c :: p in k && c in k[p] ==> c in k && c in rank && p in rank && rank[c] < rank[p]
  }

  /** Preorder: an element before its children, the children in list order. */
  ghost function Visit(k: Kids, rank: Ranks, x: Element): seq<Element>
    decreases if x in rank then rank[x] else 0, 1, 0
  {
    [x] + if x in k && x in rank then VisitList(k, rank, rank[x], k[x]) else []
  }

  /** The walks of the elements of c, all of rank below the bound. */
  ghost function VisitList(k: Kids, rank: Ranks, bound: nat, c: seq<Element>): seq<Element>
    decreases bound, 0, |c|
  {
    if c == [] then []
    else (if c[0] in rank && rank[c[0]] < bound then Visit(k, rank, c[0]) else []) + VisitList(k, rank, bound, c[1..])
  }

  lemma VisitStart(k: Kids, rank: Ranks, x: Element)
    requires x in k && x in rank
    ensures [x] + VisitList(k, rank, rank[x], k[x][0..]) == Visit(k, rank, x)
  {
    assert k[x][0..] == k[x];
  }

  lemma VisitNext(k: Kids, rank: Ranks, bound: nat, c: seq<Element>)
    requires c != [] && c[0] in rank && rank[c[0]] < bound
    ensures VisitList(k, rank, bound, c) == Visit(k, rank, c[0]) + VisitList(k, rank, bound, c[1..])
  {
  }

  lemma VisitEnd(k: Kids, rank: Ranks, bound: nat, c: seq<Element>)
    requires c == []
    ensures VisitList(k, rank, bound, c) == []
  {
  }

  lemma ListsGiveRanked(g: Groups, k: Kids, rank: Ranks, rep: Reps)
    requires ListsOk(g, k) && ForestOk(g, rank, rep)
    ensures KidsRanked(k, rank)
    ensures forall x, y :: x in k ==> (y in k[x] <==> y in g && g[y].root == x)
  {
    hide NodeOk, RootOk, ListsOk;
    MembersAre(g, k);
    forall p, c | p in k && c in k[p] ensures c in k && c in rank && p in rank && rank[c] < rank[p] {
      NodeFacts(g, rank, rep, c);
    }
  }

  lemma MembersAre(g: Groups, k: Kids)
    requires ListsOk(g, k)
    ensures k.Keys == g.Keys
    ensures forall x, y :: x in k ==> (y in k[x] <==> y in g && g[y].root == x)
  {
    hide ListOk;
  }

  /** x is y or one of the roots above y. */
  ghost predicate Under(g: Groups, rank: Ranks, rep: Reps, x: Element, y: Element)
    decreases Height(rank, rep, y)
  {
    || y == x
    || (y in g && g[y].root != null && Height(rank, rep, g[y].root) < Height(rank, rep, y) && Under(g, rank, rep, x, g[y].root))
  }

  lemma {:induction false} UnderRank(g: Groups, rank: Ranks, rep: Reps, x: Element, y: Element)
    requires ForestOk(g, rank, rep) && y in g && Under(g, rank, rep, x, y)
    ensures x in g && rank[y] <= rank[x] && rep[x] == rep[y]
    decreases Height(rank, rep, y)
  {
    hide NodeOk, RootOk;
    NodeFacts(g, rank, rep, y);
    if y != x {
      NodeFacts(g, rank, rep, g[y].root);
      UnderRank(g, rank, rep, x, g[y].root);
    }
  }

  lemma {:induction false} UnderRoot(g: Groups, rank: Ranks, rep: Reps, r: Element, y: Element)
    requires ForestOk(g, rank, rep) && r in g && g[r].root == null && y in g
    ensures Under(g, rank, rep, r, y) <==> rep[y] == r
    decreases Height(rank, rep, y)
  {
    hide NodeOk, RootOk;
    NodeFacts(g, rank, rep, y);
    NodeFacts(g, rank, rep, r);
    if g[y].root != null {
      NodeFacts(g, rank, rep, g[y].root);
      UnderRoot(g, rank, rep, r, g[y].root);
    }
  }

  /** Below x is x itself, or what is below one of its children. */
  lemma {:induction false} UnderChild(g: Groups, k: Kids, rank: Ranks, rep: Reps, x: Element, y: Element)
    requires ListsOk(g, k) && ForestOk(g, rank, rep) && x in g && y in g
    ensures Under(g, rank, rep, x, y) <==> y == x || exists c :: c in k[x] && Under(g, rank, rep, c, y)
    decreases Height(rank, rep, y)
  {
    hide NodeOk, RootOk, ListOk;
    ListsGiveRanked(g, k, rank, rep);
    NodeFacts(g, rank, rep, y);
    if g[y].root != null {
      NodeFacts(g, rank, rep, g[y].root);
      UnderChild(g, k, rank, rep, x, g[y].root);
      if Under(g, rank, rep, x, y) && y != x {
        if g[y].root == x {
          assert y in k[x] && Under(g, rank, rep, y, y);
        } else {
          var c :| c in k[x] && Under(g, rank, rep, c, g[y].root);
          assert Under(g, rank, rep, c, y);
        }
      }
      if c :| c in k[x] && Under(g, rank, rep, c, y) {
        assert c == y || Under(g, rank, rep, c, g[y].root);
        assert Under(g, rank, rep, x, x);
      }
    }
  }

  /** Two children of one root have nothing below in common. */
  lemma {:induction false} SiblingsApart(g: Groups, rank: Ranks, rep: Reps, a: Element, b: Element, y: Element)
    requires ForestOk(g, rank, rep) && a in g && b in g && y in g && a != b
    requires g[a].root != null && g[a].root == g[b].root
    ensures !(Under(g, rank, rep, a, y) && Under(g, rank, rep, b, y))
    decreases Height(rank, rep, y)
  {
    hide NodeOk, RootOk;
    NodeFacts(g, rank, rep, y);
    NodeFacts(g, rank, rep, a);
    NodeFacts(g, rank, rep, b);
    if y == a && Under(g, rank, rep, b, g[a].root) { UnderRank(g, rank, rep, b, g[a].root); }
    if y == b && Under(g, rank, rep, a, g[b].root) { UnderRank(g, rank, rep, a, g[b].root); }
    if y != a && y != b && g[y].root != null {
      NodeFacts(g, rank, rep, g[y].root);
      SiblingsApart(g, rank, rep, a, b, g[y].root);
    }
  }

  lemma {:induction false} VisitIsBelow(g: Groups, k: Kids, rank: Ranks, rep: Reps, x: Element)
    requires ListsOk(g, k) && ForestOk(g, rank, rep) && KidsRanked(k, rank) && x in k
    ensures Distinct(Visit(k, rank, x))
    ensures forall y :: y in Visit(k, rank, x) <==> y in g && Under(g, rank, rep, x, y)
    decreases rank[x], 1, 0
  {
    hide NodeOk, RootOk, ListsOk;
    ListsGiveRanked(g, k, rank, rep);
    assert Distinct(k[x]) by { OwnList(g, k, x); }
    VisitListIsBelow(g, k, rank, rep, x, k[x]);
    var rest := VisitList(k, rank, rank[x], k[x]);
    forall y | y in g ensures y in Visit(k, rank, x) <==> Under(g, rank, rep, x, y) {
      UnderChild(g, k, rank, rep, x, y);
    }
    forall c | c in k[x] && Under(g, rank, rep, c, x) ensures false { UnderRank(g, rank, rep, c, x); }
  }

  lemma OwnList(g: Groups, k: Kids, x: Element)
    requires ListsOk(g, k) && x in k
    ensures Distinct(k[x])
  {
    assert ListOk(g, x, k[x]);
  }

  ghost predicate UnderSome(g: Groups, rank: Ranks, rep: Reps, c: seq<Element>, y: Element)
  {
    exists z :: z in c && Under(g, rank, rep, z, y)
  }

  lemma UnderSomeCons(g: Groups, rank: Ranks, rep: Reps, c: seq<Element>, y: Element)
    requires c != []
    ensures UnderSome(g, rank, rep, c, y) <==> Under(g, rank, rep, c[0], y) || UnderSome(g, rank, rep, c[1..], y)
  {
    hide Under;
    assert c == [c[0]] + c[1..];
  }

  lemma {:induction false} VisitListIsBelow(g: Groups, k: Kids, rank: Ranks, rep: Reps, x: Element, c: seq<Element>)
    requires ListsOk(g, k) && ForestOk(g, rank, rep) && KidsRanked(k, rank) && x in k
    requires Distinct(c) && forall y :: y in c ==> y in k[x]
    ensures Distinct(VisitList(k, rank, rank[x], c))
    ensures forall y :: y in VisitList(k, rank, rank[x], c) <==> y in g && UnderSome(g, rank, rep, c, y)
    decreases rank[x], 0, |c|
  {
    hide NodeOk, RootOk, ListsOk, Under;
    if c != [] {
      ListsGiveRanked(g, k, rank, rep);
      VisitIsBelow(g, k, rank, rep, c[0]);
      VisitListIsBelow(g, k, rank, rep, x, c[1..]);
      JoinWalks(g, k, rank, rep, x, c, Visit(k, rank, c[0]), VisitList(k, rank, rank[x], c[1..]));
    }
  }

  lemma JoinWalks(g: Groups, k: Kids, rank: Ranks, rep: Reps, x: Element, c: seq<Element>, v: seq<Element>, w: seq<Element>)
    requires ListsOk(g, k) && ForestOk(g, rank, rep) && x in k && c != []
    requires Distinct(c) && forall y :: y in c ==> y in k[x]
    requires Distinct(v) && forall y :: y in v <==> y in g && Under(g, rank, rep, c[0], y)
    requires Distinct(w) && forall y :: y in w <==> y in g && UnderSome(g, rank, rep, c[1..], y)
    ensures Distinct(v + w) && forall y :: y in v + w <==> y in g && UnderSome(g, rank, rep, c, y)
  {
    hide *;
    forall y | y in g
      ensures UnderSome(g, rank, rep, c, y) <==> Under(g, rank, rep, c[0], y) || UnderSome(g, rank, rep, c[1..], y)
    {
      UnderSomeCons(g, rank, rep, c, y);
    }
    forall y | y in v ensures y !in w { FirstApart(g, k, rank, rep, x, c, y); }
    DistinctConcat(v, w);
  }

  lemma FirstApart(g: Groups, k: Kids, rank: Ranks, rep: Reps, x: Element, c: seq<Element>, y: Element)
    requires ListsOk(g, k) && ForestOk(g, rank, rep) && x in k && y in g && c != []
    requires Distinct(c) && forall y :: y in c ==> y in k[x]
    ensures !(Under(g, rank, rep, c[0], y) && UnderSome(g, rank, rep, c[1..], y))
  {
    hide NodeOk, RootOk, ListsOk, Under;
    MembersAre(g, k);
    if UnderSome(g, rank, rep, c[1..], y) {
      var z :| z in c[1..] && Under(g, rank, rep, z, y);
      assert z in c && z != c[0];
      SiblingsApart(g, rank, rep, c[0], z, y);
    }
  }

  /** The walk of a root meets exactly the members of its class, each once. */
  lemma VisitsClassOnce(g: Groups, k: Kids, rank: Ranks, rep: Reps, r: Element)
    requires ListsOk(g, k) && ForestOk(g, rank, rep) && r in g && g[r].root == null
    ensures KidsRanked(k, rank) && r in k
    ensures Distinct(Visit(k, rank, r))
    ensures forall y :: y in Visit(k, rank, r) <==> y in Class(rep, r)
    ensures |Visit(k, rank, r)| == g[r].size
  {
    hide ListOk, NodeOk;
    ListsGiveRanked(g, k, rank, rep);
    VisitIsBelow(g, k, rank, rep, r);
    forall y | y in g ensures Under(g, rank, rep, r, y) <==> rep[y] == r { UnderRoot(g, rank, rep, r, y); }
    DistinctCount(Visit(k, rank, r), Class(rep, r));
    assert RootOk(g, rank, rep, r);
  }

  lemma {:induction false} DistinctCount(c: seq<Element>, s: set<Element>)
    requires Distinct(c) && forall y :: y in c <==> y in s
    ensures |c| == |s|
    decreases |c|
  {
    if c == [] {
      assert s == {};
    } else {
      assert c == [c[0]] + c[1..];
      DistinctCount(c[1..], s - {c[0]});
    }
  }
}
