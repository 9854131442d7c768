/**
 * Bounds for one variable from atoms that are linear in it (pip_plugin/src/sample/solver.c and
 * the simplifier of eqn.c), over the reals.
 */
module Solver {
  import opened Basics
  import opened CsetModel
  import opened Eqn

  /** c + m * x */
  datatype Line = Line(c: real, m: real)

  const Zero := Line(0.0, 0.0)

  function At(l: Line, x: real): real {
    l.c + l.m * x
  }

  // ---------------------------------------------------------------- simplification

  /**
   * What pip_eqn_cmpnt_simplify_1var leaves in its accumulators, which start as acc. A negation
   * stores its result there instead of adding it.
   */
  function Simplify(e: Expr, x: VarId, acc: Line): Option<Line> {
    match e
    case Number(c) => Some(Line(acc.c + c, acc.m))
    case Variable(y) => if y == x then Some(Line(acc.c, acc.m + 1.0)) else None
    case Join(Mult, l, r) =>
      var a, b := Simplify(l, x, Zero), Simplify(r, x, Zero);
      if a.None? || b.None? then None else AddProduct(acc, a.value, b.value)
    case Join(Add, l, r) =>
      var a := Simplify(l, x, acc);
      if a.None? then None else Simplify(r, x, a.value)
    case Minus(f) =>
      var a := Simplify(f, x, Zero);
      if a.None? then None else Some(Line(0.0 - a.value.c, 0.0 - a.value.m))
    case Given(_, _) => None
  }

  /** A product is a line only if one of the factors is constant. */
  function AddProduct(acc: Line, a: Line, b: Line): Option<Line> {
    if a.m != 0.0 && b.m != 0.0 then None
    else Some(Line(acc.c + b.c * a.c, acc.m + (a.m * b.c + b.m * a.c)))
  }

  /** Every negation is reached while the accumulators are still zero. */
  predicate Fresh(e: Expr, x: VarId, acc: Line) {
    match e
    case Join(Mult, l, r) => Fresh(l, x, Zero) && Fresh(r, x, Zero)
    case Join(Add, l, r) =>
      Fresh(l, x, acc) && (Simplify(l, x, acc).Some? ==> Fresh(r, x, Simplify(l, x, acc).value))
    case Minus(f) => acc == Zero && Fresh(f, x, Zero)
    case _ => true
  }

  lemma ProductOfLines(acc: Line, a: Line, b: Line, x: real)
    requires AddProduct(acc, a, b).Some?
    ensures At(AddProduct(acc, a, b).value, x) == At(acc, x) + At(a, x) * At(b, x)
  {
    if a.m == 0.0 {
      assert At(a, x) * At(b, x) == a.c * b.c + a.c * (b.m * x);
    } else {
      assert At(a, x) * At(b, x) == a.c * b.c + a.m * x * b.c;
    }
  }

  lemma NegatedLine(a: Line, x: real)
    ensures At(Line(0.0 - a.c, 0.0 - a.m), x) == 0.0 - At(a, x) && At(Zero, x) == 0.0
  {
  }

  lemma GrownLine(acc: Line, c: real, x: real)
    ensures At(Line(acc.c + c, acc.m), x) == At(acc, x) + c
    ensures At(Line(acc.c, acc.m + 1.0), x) == At(acc, x) + x
  {
  }

  function Plus(a: Line, b: Line): Line {
    Line(a.c + b.c, a.m + b.m)
  }

  lemma PlusAt(a: Line, b: Line, x: real)
    ensures At(Plus(a, b), x) == At(a, x) + At(b, x)
  {
  }

  /** What is missing in the accumulators afterwards, because negations overwrote it. */
  function Lost(e: Expr, x: VarId, acc: Line): Line
    requires Simplify(e, x, acc).Some?
  {
    match e
    case Join(Add, l, r) => Plus(Lost(l, x, acc), Lost(r, x, Simplify(l, x, acc).value))
    case Minus(f) =>
      var lost := Lost(f, x, Zero);
      Line(acc.c - lost.c, acc.m - lost.m)
    case _ => Zero
  }

  /** Nothing is lost within a factor of a product. */
  predicate FactorsKept(e: Expr, x: VarId)
    decreases e, 0
  {
    match e
    case Join(Mult, l, r) => Kept(l, x) && Kept(r, x)
    case Join(Add, l, r) => FactorsKept(l, x) && FactorsKept(r, x)
    case Minus(f) => FactorsKept(f, x)
    case _ => true
  }

  predicate Kept(e: Expr, x: VarId)
    decreases e, 1
  {
    FactorsKept(e, x) && (Simplify(e, x, Zero).Some? ==> Lost(e, x, Zero) == Zero)
  }

  lemma LostIs(e: Expr, x: VarId, acc: Line)
    requires Simplify(e, x, acc).Some?
    ensures !e.Minus? && !(e.Join? && e.op == Add) ==> Lost(e, x, acc) == Zero
    ensures e.Join? && e.op == Add ==>
      && Simplify(e.l, x, acc).Some? && Simplify(e.r, x, Simplify(e.l, x, acc).value).Some?
      && Lost(e, x, acc) == Plus(Lost(e.l, x, acc), Lost(e.r, x, Simplify(e.l, x, acc).value))
    ensures e.Minus? ==>
      && Simplify(e.e, x, Zero).Some?
      && Lost(e, x, acc) == Line(acc.c - Lost(e.e, x, Zero).c, acc.m - Lost(e.e, x, Zero).m)
  {
  }

  /** The line found and what was lost make up the expression and what was there before. */
  lemma {:induction false} LostIsMissing(e: Expr, x: VarId, acc: Line, v: VarId -> real)
    requires Simplify(e, x, acc).Some? && FactorsKept(e, x)
    ensures At(Simplify(e, x, acc).value, v(x)) + At(Lost(e, x, acc), v(x)) == At(acc, v(x)) + Value(e, v)
    decreases e
  {
    hide At, AddProduct, Lost, Simplify;
    LostIs(e, x, acc);
    SimplifyOf(e, x, acc);
    NegatedLine(Zero, v(x));
    match e
    case Number(c) => GrownLine(acc, c, v(x));
    case Variable(_) => GrownLine(acc, 0.0, v(x));
    case Join(Mult, l, r) =>
      LostIsMissing(l, x, Zero, v);
      LostIsMissing(r, x, Zero, v);
      ProductOfLines(acc, Simplify(l, x, Zero).value, Simplify(r, x, Zero).value, v(x));
    case Join(Add, l, r) =>
      var a := Simplify(l, x, acc).value;
      LostIsMissing(l, x, acc, v);
      LostIsMissing(r, x, a, v);
      PlusAt(Lost(l, x, acc), Lost(r, x, a), v(x));
    case Minus(f) =>
      LostIsMissing(f, x, Zero, v);
      NegatedLine(Simplify(f, x, Zero).value, v(x));
      MinusAt(acc, Lost(f, x, Zero), v(x));
  }

  lemma MinusAt(a: Line, b: Line, x: real)
    ensures At(Line(a.c - b.c, a.m - b.m), x) == At(a, x) - At(b, x)
  {
  }

  /** If every negation is reached while the accumulators are zero, nothing is lost. */
  lemma {:induction false} FreshLosesNothing(e: Expr, x: VarId, acc: Line)
    requires Fresh(e, x, acc)
    ensures FactorsKept(e, x) || Simplify(e, x, acc).None?
    ensures Simplify(e, x, acc).Some? ==> Lost(e, x, acc) == Zero
    decreases e
  {
    match e
    case Join(Mult, l, r) =>
      FreshLosesNothing(l, x, Zero);
      FreshLosesNothing(r, x, Zero);
    case Join(Add, l, r) =>
      FreshLosesNothing(l, x, acc);
      if Simplify(l, x, acc).Some? { FreshLosesNothing(r, x, Simplify(l, x, acc).value); }
    case Minus(f) => FreshLosesNothing(f, x, Zero);
    case _ =>
  }

  /** When every negation is reached fresh, the line found is the expression, added to what was there. */
  lemma SimplifyIsLine(e: Expr, x: VarId, acc: Line, v: VarId -> real)
    requires Simplify(e, x, acc).Some? && Fresh(e, x, acc)
    ensures At(Simplify(e, x, acc).value, v(x)) == At(acc, v(x)) + Value(e, v)
  {
    FreshLosesNothing(e, x, acc);
    LostIsMissing(e, x, acc, v);
    NegatedLine(Zero, v(x));
  }

  /** Two lines that agree at zero and one are the same. */
  lemma SameLine(a: Line, b: Line)
    requires At(a, 0.0) == At(b, 0.0) && At(a, 1.0) == At(b, 1.0)
    ensures a == b
  {
  }

  /** A line that is zero at all values of a variable is zero. */
  lemma ZeroLine(l: Line, x: VarId)
    ensures (forall v: VarId -> real :: ZeroAt(l, v(x))) <==> l == Zero
  {
    if l == Zero {
      forall v: VarId -> real ensures ZeroAt(l, v(x)) { NegatedLine(Zero, v(x)); }
    }
    if forall v: VarId -> real :: ZeroAt(l, v(x)) {
      var v0, v1: VarId -> real := _ => 0.0, _ => 1.0;
      assert ZeroAt(l, v0(x)) && ZeroAt(l, v1(x));
      SameLine(l, Zero);
    }
  }

  predicate ZeroAt(l: Line, x: real) {
    At(l, x) == 0.0
  }

  /** The line found is right for all values exactly when all that negations overwrote adds up to zero. */
  lemma RightIffNothingLost(e: Expr, x: VarId)
    requires Simplify(e, x, Zero).Some? && FactorsKept(e, x)
    ensures (forall v: VarId -> real :: RightAt(e, x, v)) <==> Lost(e, x, Zero) == Zero
  {
    hide At, FactorsKept, Simplify, Lost, Value;
    forall v: VarId -> real ensures RightAt(e, x, v) <==> ZeroAt(Lost(e, x, Zero), v(x)) {
      LostIsMissing(e, x, Zero, v);
      NegatedLine(Zero, v(x));
    }
    ZeroLine(Lost(e, x, Zero), x);
  }

  // ---------------------------------------------------------------- sums

  /** The terms of a sum, from the left. */
  function Terms(e: Expr): (ts: seq<Expr>)
    ensures ts != [] && forall k :: 0 <= k < |ts| ==> !(ts[k].Join? && ts[k].op == Add)
  {
    match e
    case Join(Add, l, r) => Terms(l) + Terms(r)
    case _ => [e]
  }

  /** The terms before the last negated one. */
  function Overwritten(ts: seq<Expr>): seq<Expr> {
    if ts == [] then [] else
      var n := |ts| - 1;
      if ts[n].Minus? then ts[..n] else Overwritten(ts[..n])
  }

  predicate Linear(ts: seq<Expr>, x: VarId) {
    forall k :: 0 <= k < |ts| ==> Simplify(ts[k], x, Zero).Some?
  }

  /** The lines of the terms, added up. */
  function Total(ts: seq<Expr>, x: VarId): Line
    requires Linear(ts, x)
  {
    if ts == [] then Zero else
      var n := |ts| - 1;
      Plus(Total(ts[..n], x), Simplify(ts[n], x, Zero).value)
  }

  function Values(ts: seq<Expr>, v: VarId -> real): real {
    if ts == [] then 0.0 else Values(ts[..|ts| - 1], v) + Value(ts[|ts| - 1], v)
  }

  lemma {:induction false} ValuesJoin(a: seq<Expr>, b: seq<Expr>, v: VarId -> real)
    ensures Values(a + b, v) == Values(a, v) + Values(b, v)
    decreases |b|
  {
    if b == [] {
      assert a + b == a;
    } else {
      ValuesJoin(a, b[..|b| - 1], v);
      assert (a + b)[..|a + b| - 1] == a + b[..|b| - 1];
    }
  }

  lemma {:induction false} SumOfTerms(e: Expr, v: VarId -> real)
    ensures Value(e, v) == Values(Terms(e), v)
  {
    if e.Join? && e.op == Add {
      SumOfTerms(e.l, v);
      SumOfTerms(e.r, v);
      ValuesJoin(Terms(e.l), Terms(e.r), v);
    } else {
      assert Values([e], v) == Values([], v) + Value(e, v);
    }
  }

  /** The accumulators after the terms, one after the other. */
  function RunTerms(ts: seq<Expr>, x: VarId, acc: Line): Line
    requires Linear(ts, x)
  {
    if ts == [] then acc else
      var n := |ts| - 1;
      var l := Simplify(ts[n], x, Zero).value;
      if ts[n].Minus? then l else Plus(RunTerms(ts[..n], x, acc), l)
  }

  lemma {:induction false} RunJoin(a: seq<Expr>, b: seq<Expr>, x: VarId, acc: Line)
    requires Linear(a, x) && Linear(b, x)
    ensures Linear(a + b, x) && RunTerms(a + b, x, acc) == RunTerms(b, x, RunTerms(a, x, acc))
    decreases |b|
  {
    if b == [] {
      assert a + b == a;
    } else {
      var n := |b| - 1;
      RunJoin(a, b[..n], x, acc);
      assert (a + b)[..|a + b| - 1] == a + b[..n] && (a + b)[|a + b| - 1] == b[n];
    }
  }

  /** The simplifier goes through the terms from the left. */
  lemma {:induction false} SimplifyTerms(e: Expr, x: VarId, acc: Line)
    ensures Simplify(e, x, acc).Some? <==> Linear(Terms(e), x)
    ensures Linear(Terms(e), x) ==> Simplify(e, x, acc).value == RunTerms(Terms(e), x, acc)
    decreases e
  {
    if e.Join? && e.op == Add {
      var a, b := Terms(e.l), Terms(e.r);
      SimplifyTerms(e.l, x, acc);
      assert forall k :: 0 <= k < |a| ==> (a + b)[k] == a[k];
      assert forall k :: 0 <= k < |b| ==> (a + b)[|a| + k] == b[k];
      if Linear(a, x) {
        SimplifyTerms(e.r, x, RunTerms(a, x, acc));
        if Linear(b, x) { RunJoin(a, b, x, acc); }
      }
    } else {
      assert [e][..0] == [] && [e][0] == e;
      assert Linear([e], x) <==> Simplify(e, x, Zero).Some?;
    }
  }

  /** What the terms leave, and what they overwrote, make up all of them. */
  lemma {:induction false} RunIsTotal(ts: seq<Expr>, x: VarId)
    requires Linear(ts, x)
    ensures Linear(Overwritten(ts), x)
    ensures Plus(RunTerms(ts, x, Zero), Total(Overwritten(ts), x)) == Total(ts, x)
    decreases |ts|
  {
    if ts != [] {
      RunIsTotal(ts[..|ts| - 1], x);
    }
  }

  /** The term by itself is simplified rightly. */
  ghost predicate RightAlone(t: Expr, x: VarId) {
    Simplify(t, x, Zero).Some? && forall v: VarId -> real :: RightAt(t, x, v)
  }

  lemma {:induction false} TotalIsValue(ts: seq<Expr>, x: VarId, v: VarId -> real)
    requires Linear(ts, x) && forall k :: 0 <= k < |ts| ==> RightAt(ts[k], x, v)
    ensures At(Total(ts, x), v(x)) == Values(ts, v)
    decreases |ts|
  {
    hide At, Value, Simplify;
    NegatedLine(Zero, v(x));
    if ts != [] {
      var n := |ts| - 1;
      TotalIsValue(ts[..n], x, v);
      PlusAt(Total(ts[..n], x), Simplify(ts[n], x, Zero).value, v(x));
      assert RightAt(ts[n], x, v);
    }
  }

  /**
   * A sum of terms, each right by itself, is simplified rightly for all values exactly when the terms
   * before the last negated one add up to zero.
   */
  lemma SumRightIff(e: Expr, x: VarId)
    requires forall k :: 0 <= k < |Terms(e)| ==> RightAlone(Terms(e)[k], x)
    ensures Simplify(e, x, Zero).Some? && Linear(Overwritten(Terms(e)), x)
    ensures (forall v: VarId -> real :: RightAt(e, x, v)) <==> Total(Overwritten(Terms(e)), x) == Zero
  {
    hide At, Simplify, Value, Terms, Total, Overwritten, RunTerms;
    var ts := Terms(e);
    SimplifyTerms(e, x, Zero);
    RunIsTotal(ts, x);
    var lost := Total(Overwritten(ts), x);
    forall v: VarId -> real ensures RightAt(e, x, v) <==> ZeroAt(lost, v(x)) {
      forall k | 0 <= k < |ts| ensures RightAt(ts[k], x, v) { assert RightAlone(ts[k], x); }
      TotalIsValue(ts, x, v);
      SumOfTerms(e, v);
      PlusAt(RunTerms(ts, x, Zero), lost, v(x));
    }
    ZeroLine(lost, x);
  }

  /**
   * A difference l - r, as it is composed, is simplified to -r alone: that is right for all values
   * exactly when l is zero.
   */
  lemma DifferenceRightIff(l: Expr, r: Expr, x: VarId)
    requires RightAlone(l, x) && RightAlone(r, x)
    ensures Simplify(Join(Add, l, Minus(r)), x, Zero).Some?
    ensures (forall v: VarId -> real :: RightAt(Join(Add, l, Minus(r)), x, v)) <==> Simplify(l, x, Zero).value == Zero
  {
    hide At, Simplify, Value;
    var e := Join(Add, l, Minus(r));
    var a, b := Simplify(l, x, Zero).value, Simplify(r, x, Zero).value;
    SimplifyOf(e, x, Zero);
    SimplifyOf(Minus(r), x, a);
    forall v: VarId -> real ensures RightAt(e, x, v) <==> ZeroAt(a, v(x)) {
      assert RightAt(l, x, v) && RightAt(r, x, v);
      NegatedLine(b, v(x));
      DifferenceValue(l, r, v);
    }
    ZeroLine(a, x);
  }

  lemma DifferenceValue(l: Expr, r: Expr, v: VarId -> real)
    ensures Value(Join(Add, l, Minus(r)), v) == Value(l, v) - Value(r, v)
  {
  }

  /** 3 - x is taken to be -x. */
  lemma ThreeMinusVariable(x: VarId, v: VarId -> real)
    ensures var e := Join(Add, Number(3.0), Minus(Variable(x)));
      Simplify(e, x, Zero) == Some(Line(0.0, -1.0)) && !RightAt(e, x, v)
  {
    var e := Join(Add, Number(3.0), Minus(Variable(x)));
    assert Simplify(Variable(x), x, Zero) == Some(Line(0.0, 1.0));
    assert Simplify(Number(3.0), x, Zero) == Some(Line(3.0, 0.0));
    DifferenceValue(Number(3.0), Variable(x), v);
    assert Value(Number(3.0), v) == 3.0 && Value(Variable(x), v) == v(x);
  }

  /** The line found for e gives its value at v. */
  ghost predicate RightAt(e: Expr, x: VarId, v: VarId -> real)
    requires Simplify(e, x, Zero).Some?
  {
    At(Simplify(e, x, Zero).value, v(x)) == Value(e, v)
  }

  /** pip_eqn_cmpnt_simplify_1var, with the accumulators c and m as they are before and after. */
  method Simplify1Var(buf: seq<Unit>, base: int, offset: int, c0: real, m0: real, x: VarId, ghost n: Node)
    returns (ok: bool, c: real, m: real)
    requires Is(buf, base, n) && n.pos == base + offset
    ensures ok <==> Simplify(Erase(n), x, Line(c0, m0)).Some?
    ensures ok ==> var l := Simplify(Erase(n), x, Line(c0, m0)).value; c == l.c && m == l.m
    decreases n
  {
    hide Is, Erase, Simplify, AddProduct;
    IsOf(buf, base, n);
    EraseOf(n);
    SimplifyOf(Erase(n), x, Line(c0, m0));
    c, m := c0, m0;
    match buf[base + offset]
    case Const(k) =>
      c := c + k;
      ok := true;
    case Var(y) =>
      ok := y == x;
      if ok { m := m + 1.0; }
    case Branch(Mult, left, right) =>
      var lc, lm, rc, rm;
      ok, lc, lm := Simplify1Var(buf, base, left, 0.0, 0.0, x, n.l);
      if ok { ok, rc, rm := Simplify1Var(buf, base, right, 0.0, 0.0, x, n.r); }
      if ok {
        ProductIs(Line(c0, m0), Line(lc, lm), Line(rc, rm));
        if lm != 0.0 && rm != 0.0 { return false, c, m; }
        m := m + (lm * rc + rm * lc);
        c := c + rc * lc;
      }
    case Branch(Add, left, right) =>
      ok, c, m := Simplify1Var(buf, base, left, c, m, x, n.l);
      if ok { ok, c, m := Simplify1Var(buf, base, right, c, m, x, n.r); }
    case Nega(ptr) =>
      var pc, pm;
      ok, pc, pm := Simplify1Var(buf, base, ptr, 0.0, 0.0, x, n.e);
      if ok {
        m := 0.0 - pm;
        c := 0.0 - pc;
      }
    case Cnstrt(_, _) => ok := false;
    case _ => assert false;
  }

  lemma EraseOf(n: Node)
    ensures n.NConst? ==> Erase(n) == Number(n.c)
    ensures n.NVar? ==> Erase(n) == Variable(n.v)
    ensures n.NJoin? ==> Erase(n) == Join(n.op, Erase(n.l), Erase(n.r))
    ensures n.NNega? ==> Erase(n) == Minus(Erase(n.e))
    ensures n.NCnstrt? ==> Erase(n) == Given(Erase(n.e), EraseAtom(n.a))
  {
  }

  lemma ProductIs(acc: Line, a: Line, b: Line)
    ensures AddProduct(acc, a, b).Some? <==> a.m == 0.0 || b.m == 0.0
    ensures AddProduct(acc, a, b).Some? ==> AddProduct(acc, a, b).value.c == acc.c + b.c * a.c
    ensures AddProduct(acc, a, b).Some? ==> AddProduct(acc, a, b).value.m == acc.m + (a.m * b.c + b.m * a.c)
  {
  }

  lemma SimplifyOf(e: Expr, x: VarId, acc: Line)
    ensures e.Number? ==> Simplify(e, x, acc) == Some(Line(acc.c + e.c, acc.m))
    ensures e.Variable? ==> Simplify(e, x, acc) == if e.v == x then Some(Line(acc.c, acc.m + 1.0)) else None
    ensures e.Join? && e.op == Mult ==> (Simplify(e, x, acc) ==
      var a, b := Simplify(e.l, x, Zero), Simplify(e.r, x, Zero);
      if a.None? || b.None? then None else AddProduct(acc, a.value, b.value))
    ensures e.Join? && e.op == Add ==> (Simplify(e, x, acc) ==
      if Simplify(e.l, x, acc).None? then None else Simplify(e.r, x, Simplify(e.l, x, acc).value))
    ensures e.Minus? ==> (Simplify(e, x, acc) ==
      var a := Simplify(e.e, x, Zero); if a.None? then None else Some(Line(0.0 - a.value.c, 0.0 - a.value.m)))
    ensures e.Given? ==> Simplify(e, x, acc) == None
  {
  }

  // ---------------------------------------------------------------- bounds

  /** No negation of either side overwrites anything that counts. */
  predicate AtomKept(a: Atom, x: VarId) {
    Kept(a.l, x) && Kept(a.r, x)
  }

  /** In particular if all negations are reached with zero accumulators. */
  lemma FreshAtomKept(a: Atom, x: VarId)
    requires Fresh(a.l, x, Zero) && Fresh(a.r, x, Zero) && Solvable(a, x)
    ensures AtomKept(a, x)
  {
    FreshLosesNothing(a.l, x, Zero);
    FreshLosesNothing(a.r, x, Zero);
  }

  /** What one atom says of the variable. */
  datatype Bound = Upper(at: real) | Lower(at: real) | Unsolved

  predicate Obeys(b: Bound, x: real) {
    match b
    case Upper(at) => x < at
    case Lower(at) => at < x
    case Unsolved => true
  }

  lemma DivideBound(m: real, d: real, x: real)
    requires m != 0.0
    ensures m > 0.0 ==> (m * x > d <==> d / m < x)
    ensures m < 0.0 ==> (m * x > d <==> x < d / m)
  {
    var q := d / m;
    assert d == q * m;
    if m > 0.0 {
      if x > q { assert m * (x - q) > 0.0; } else { assert m * (q - x) >= 0.0; }
    } else {
      if x < q { assert (0.0 - m) * (q - x) > 0.0; } else { assert (0.0 - m) * (x - q) >= 0.0; }
    }
  }

  lemma CompareLines(l: Line, r: Line, x: real)
    ensures At(l, x) > At(r, x) <==> (l.m - r.m) * x > r.c - l.c
  {
    var p, q := l.m * x, r.m * x;
    assert (l.m - r.m) * x == p - q;
    assert At(l, x) == l.c + p && At(r, x) == r.c + q;
  }

  /** Both sides are simplified, and the variable does not drop out. */
  predicate Solvable(a: Atom, x: VarId) {
    var l, r := Simplify(a.l, x, Zero), Simplify(a.r, x, Zero);
    l.Some? && r.Some? && l.value.m != r.value.m
  }

  /** pip_solve_bound: not a number is Unsolved. */
  method SolveBound(clause: seq<Unit>, x: VarId, ghost a: Atom) returns (b: Bound)
    requires IsAtomData(clause, a)
    ensures b != Unsolved <==> Solvable(a, x)
    ensures b != Unsolved && AtomKept(a, x) ==> forall v: VarId -> real :: Holds(a, v) <==> Obeys(b, v(x))
  {
    hide Simplify, Lost, Is;
    ghost var n :| IsAtom(clause, n) && n.pos == 0 && EraseAtom(n) == a;
    var okl, left_const, left_mult := Simplify1Var(clause, ATOMHDR, clause[0].left, 0.0, 0.0, x, n.l);
    if !okl { return Unsolved; }
    var okr, right_const, right_mult := Simplify1Var(clause, ATOMHDR, clause[0].right, 0.0, 0.0, x, n.r);
    if !okr { return Unsolved; }
    ghost var l, r := Line(left_const, left_mult), Line(right_const, right_mult);
    left_mult := left_mult - right_mult;
    if left_mult == 0.0 { return Unsolved; }
    right_const := right_const - left_const;
    b := if left_mult < 0.0 then Upper(right_const / left_mult) else Lower(right_const / left_mult);
    if AtomKept(a, x) {
      forall v: VarId -> real ensures Holds(a, v) <==> Obeys(b, v(x)) {
        LostIsMissing(a.l, x, Zero, v);
        LostIsMissing(a.r, x, Zero, v);
        NegatedLine(Zero, v(x));
        CompareLines(l, r, v(x));
        DivideBound(left_mult, right_const, v(x));
      }
    }
  }

  predicate ObeysAll(bounds: seq<Bound>, x: real) {
    forall k :: 0 <= k < |bounds| ==> Obeys(bounds[k], x)
  }

  lemma OneMore(bounds: seq<Bound>, b: Bound, x: real)
    ensures ObeysAll(bounds + [b], x) <==> ObeysAll(bounds, x) && Obeys(b, x)
  {
    var c := bounds + [b];
    assert c[|bounds|] == b && forall k :: 0 <= k < |bounds| ==> c[k] == bounds[k];
  }

  /** No infinite bound restricts anything. */
  predicate Inside(lower: Option<real>, upper: Option<real>, x: real) {
    (lower.Some? ==> lower.value < x) && (upper.Some? ==> x < upper.value)
  }

  /**
   * pip_solve_cdf_bounds for a variable with a CDF: None stands for an infinite bound. The results
   * b0 and b1 are what is stored after the CDF is applied.
   */
  method SolveCdfBounds(clauses: seq<seq<Unit>>, x: VarId, tight: bool, cdf: real -> real, ghost atoms: seq<Atom>)
    returns (ok: bool, lower: Option<real>, upper: Option<real>, b0: real, b1: real)
    requires |atoms| == |clauses| && forall i :: 0 <= i < |atoms| ==> IsAtomData(clauses[i], atoms[i])
    ensures ok <==> !tight || forall i :: 0 <= i < |atoms| ==> Solvable(atoms[i], x)
    ensures ok && tight && (forall i :: 0 <= i < |atoms| ==> AtomKept(atoms[i], x)) ==>
      forall v: VarId -> real :: AllHold(atoms, v) <==> Inside(lower, upper, v(x))
    ensures ok && (forall i :: 0 <= i < |atoms| ==> AtomKept(atoms[i], x)) ==>
      forall v: VarId -> real :: AllHold(atoms, v) ==> Inside(lower, upper, v(x))
    ensures b0 == (if ok && lower.Some? then cdf(lower.value) else 0.0)
    ensures b1 == (if ok && upper.Some? then cdf(upper.value) else 1.0)
  {
    hide Holds, IsAtomData, AtomKept, Solvable;
    lower, upper, b0, b1 := None, None, 0.0, 1.0;
    ghost var bounds: seq<Bound> := [];
    for i := 0 to |clauses|
      invariant |bounds| == i && b0 == 0.0 && b1 == 1.0
      invariant forall k :: 0 <= k < i ==> (tight ==> bounds[k] != Unsolved)
      invariant forall k :: 0 <= k < i ==> (bounds[k] != Unsolved <==> Solvable(atoms[k], x))
      invariant forall k :: 0 <= k < i ==> Says(bounds[k], atoms[k], x)
      invariant forall y: real :: Inside(lower, upper, y) <==> ObeysAll(bounds, y)
    {
      var b := SolveBound(clauses[i], x, atoms[i]);
      if b == Unsolved {
        if tight { return false, lower, upper, b0, b1; }
      } else if b.Upper? {
        if upper.None? || upper.value > b.at { upper := Some(b.at); }
      } else {
        if lower.None? || lower.value < b.at { lower := Some(b.at); }
      }
      forall y ensures ObeysAll(bounds + [b], y) <==> ObeysAll(bounds, y) && Obeys(b, y) { OneMore(bounds, b, y); }
      bounds := bounds + [b];
    }
    ok := true;
    if lower.Some? { b0 := cdf(lower.value); }
    if upper.Some? { b1 := cdf(upper.value); }
    if forall i :: 0 <= i < |atoms| ==> AtomKept(atoms[i], x) {
      forall v: VarId -> real
        ensures AllHold(atoms, v) ==> Inside(lower, upper, v(x))
        ensures tight && Inside(lower, upper, v(x)) ==> AllHold(atoms, v)
      {
        BoundsSay(bounds, atoms, x, tight, v);
      }
    }
  }

  /** A solved atom holds exactly for the values its bound allows. */
  ghost predicate Says(b: Bound, a: Atom, x: VarId) {
    b != Unsolved && AtomKept(a, x) ==> forall v: VarId -> real :: Holds(a, v) <==> Obeys(b, v(x))
  }

  lemma BoundsSay(bounds: seq<Bound>, atoms: seq<Atom>, x: VarId, tight: bool, v: VarId -> real)
    requires |bounds| == |atoms|
    requires forall k :: 0 <= k < |atoms| ==> AtomKept(atoms[k], x) && Says(bounds[k], atoms[k], x)
    requires forall k :: 0 <= k < |atoms| ==> (tight ==> bounds[k] != Unsolved)
    ensures AllHold(atoms, v) ==> ObeysAll(bounds, v(x))
    ensures tight && ObeysAll(bounds, v(x)) ==> AllHold(atoms, v)
  {
    hide Holds, AtomKept;
    forall k | 0 <= k < |atoms| && bounds[k] != Unsolved ensures Holds(atoms[k], v) <==> Obeys(bounds[k], v(x)) {
      assert Says(bounds[k], atoms[k], x);
    }
  }
}
