/**
 * The compiler of boolean queries in contrib/intarray/_int_bool.c: from text to postfix by a
 * tokenizer and an operator stack.
 */
module BoolParse {
  import opened Basics
  import opened IntCover
  import opened BoolQuery

  /** The most operators that may be pending at once. */
  const STACKDEPTH := 16

  /** A token; TOpr holds Bang or Oper. */
  datatype Tok = TVal(n: int) | TOpr(t: Token) | TOpen | TClose | TErr

  // ---------------------------------------------------------------- the operator stack

  datatype Pol = Done(out: seq<Token>, rest: seq<Tok>) | SyntaxError | TooComplex

  /** Operators that are applied as soon as their operand is read. */
  predicate Tight(t: Token) {
    t == Bang || t == Oper(And)
  }

  function Reverse(s: seq<Token>): seq<Token> {
    if s == [] then [] else [s[|s| - 1]] + Reverse(s[..|s| - 1])
  }

  /** What stays on the stack when the tight operators on top are taken off. */
  function Loose(stack: seq<Token>): seq<Token> {
    if stack != [] && Tight(stack[|stack| - 1]) then Loose(stack[..|stack| - 1]) else stack
  }

  /** The tight operators on top of the stack, the topmost first. */
  function TightTop(stack: seq<Token>): seq<Token> {
    if stack != [] && Tight(stack[|stack| - 1]) then [stack[|stack| - 1]] + TightTop(stack[..|stack| - 1]) else []
  }

  /** makepol on the tokens to come, with its stack and what was pushed so far. */
  function Compiled(ts: seq<Tok>, stack: seq<Token>, out: seq<Token>): (r: Pol)
    ensures r.Done? ==> |r.rest| <= |ts|
    decreases |ts|, 0
  {
    if ts == [] then Done(out + Reverse(stack), []) else
      match ts[0]
      case TVal(n) => Compiled(ts[1..], Loose(stack), out + [Val(n)] + TightTop(stack))
      case TOpr(t) =>
        if stack != [] && t == Oper(Or) then Compiled(ts[1..], stack, out + [t])
        else if |stack| == STACKDEPTH then TooComplex
        else Compiled(ts[1..], stack + [t], out)
      case TOpen =>
        var inner := Compiled(ts[1..], [], out);
        if !inner.Done? then inner else AfterGroup(inner.rest, stack, inner.out)
      case TClose => Done(out + Reverse(stack), ts[1..])
      case TErr => SyntaxError
  }

  /** Behind a group only one pending operator is applied. */
  function AfterGroup(ts: seq<Tok>, stack: seq<Token>, out: seq<Token>): (r: Pol)
    ensures r.Done? ==> |r.rest| <= |ts|
    decreases |ts|, 1
  {
    if stack != [] && Tight(stack[|stack| - 1])
    then Compiled(ts, stack[..|stack| - 1], out + [stack[|stack| - 1]])
    else Compiled(ts, stack, out)
  }

  // ---------------------------------------------------------------- the grammar

  /** Negations before an integer, or before a parenthesised query. */
  datatype Factor = Lit(bangs: nat, n: int) | Group(bangs: nat, q: Query)

  /** Chains of factors joined by &, themselves joined by |; neither is empty. */
  datatype Query = Query(first: Chain, rest: seq<Chain>)

  datatype Chain = Chain(head: Factor, tail: seq<Factor>)

  function Bangs(k: nat, e: Expr): Expr {
    if k == 0 then e else Not(Bangs(k - 1, e))
  }

  /** The tree by precedence: ! over & over |, the binary ones grouped from the left. */
  function FactorTree(f: Factor): Expr {
    match f
    case Lit(k, n) => Bangs(k, Leaf(n))
    case Group(k, q) => Bangs(k, QueryTree(q))
  }

  function ChainTree(c: Chain): Expr {
    AndAll(c, |c.tail|)
  }

  function AndAll(c: Chain, n: nat): Expr
    requires n <= |c.tail|
    decreases c, n
  {
    if n == 0 then FactorTree(c.head) else Join(And, AndAll(c, n - 1), FactorTree(c.tail[n - 1]))
  }

  function QueryTree(q: Query): Expr {
    OrAll(q, |q.rest|)
  }

  function OrAll(q: Query, n: nat): Expr
    requires n <= |q.rest|
    decreases q, n
  {
    if n == 0 then ChainTree(q.first) else Join(Or, OrAll(q, n - 1), ChainTree(q.rest[n - 1]))
  }

  /** The tokens of each part, in front of those that follow. */
  function FactorToks(f: Factor, ts: seq<Tok>): seq<Tok>
    decreases f, 0
  {
    match f
    case Lit(k, n) => BangToks(k, [TVal(n)] + ts)
    case Group(k, q) => BangToks(k, [TOpen] + QueryToks(q, [TClose] + ts))
  }

  function BangToks(k: nat, ts: seq<Tok>): seq<Tok> {
    if k == 0 then ts else [TOpr(Bang)] + BangToks(k - 1, ts)
  }

  function ChainToks(c: Chain, ts: seq<Tok>): seq<Tok>
    decreases c, |c.tail| + 1
  {
    FactorToks(c.head, MoreFactors(c, 0, ts))
  }

  /** The factors from i on, each behind its &. */
  function MoreFactors(c: Chain, i: nat, ts: seq<Tok>): seq<Tok>
    requires i <= |c.tail|
    decreases c, |c.tail| - i
  {
    if i == |c.tail| then ts else [TOpr(Oper(And))] + FactorToks(c.tail[i], MoreFactors(c, i + 1, ts))
  }

  function QueryToks(q: Query, ts: seq<Tok>): seq<Tok>
    decreases q, |q.rest| + 1
  {
    ChainToks(q.first, MoreChains(q, 0, ts))
  }

  function MoreChains(q: Query, i: nat, ts: seq<Tok>): seq<Tok>
    requires i <= |q.rest|
    decreases q, |q.rest| - i
  {
    if i == |q.rest| then ts else [TOpr(Oper(Or))] + ChainToks(q.rest[i], MoreChains(q, i + 1, ts))
  }

  /**
   * At most 16 operators are pending at once, and a group before which more than one of & and ! is
   * pending is the last factor of the last chain of its query.
   */
  predicate FactorFits(f: Factor, pending: nat, below: nat, last: bool) {
    && f.bangs + pending + below <= STACKDEPTH
    && (f.Group? ==> (last || f.bangs + pending <= 1) && QueryFits(f.q))
  }

  predicate ChainFits(c: Chain, below: nat, last: bool) {
    && FactorFits(c.head, 0, below, last && c.tail == [])
    && forall i :: 0 <= i < |c.tail| ==> FactorFits(c.tail[i], 1, below, last && i == |c.tail| - 1)
  }

  predicate QueryFits(q: Query) {
    ChainFits(q.first, 0, q.rest == []) && forall i :: 0 <= i < |q.rest| ==> ChainFits(q.rest[i], 1, i == |q.rest| - 1)
  }

  /** Nothing, or the parenthesis that closes a group. */
  predicate AtEnd(ts: seq<Tok>) {
    ts != [] ==> ts[0] == TClose
  }

  // ---------------------------------------------------------------- compilation is right

  /** What is pushed for a tree. */
  function Emit(out: seq<Token>, e: Expr): seq<Token> {
    out + Postfix(e)
  }

  lemma EmitParts(out: seq<Token>, e: Expr)
    ensures e.Leaf? ==> Emit(out, e) == out + [Val(e.n)]
    ensures e.Not? ==> Emit(out, e) == Emit(out, e.e) + [Bang]
    ensures e.Join? ==> Emit(out, e) == Emit(Emit(out, e.l), e.r) + [Oper(e.op)]
  {
  }

  function Repeat(k: nat): seq<Token> {
    if k == 0 then [] else Repeat(k - 1) + [Bang]
  }

  lemma {:induction false} EmitBangs(out: seq<Token>, k: nat, e: Expr)
    ensures Emit(out, Bangs(k, e)) == Emit(out, e) + Repeat(k)
  {
    hide Emit;
    EmitParts(out, Bangs(k, e));
    if k > 0 {
      EmitBangs(out, k - 1, e);
    }
  }

  /** A stack without a tight operator on top. */
  predicate IsBase(b: seq<Token>) {
    |b| <= 1 && (b != [] ==> b[0] == Oper(Or))
  }

  lemma CompiledVal(n: int, ts: seq<Tok>, stack: seq<Token>, out: seq<Token>)
    ensures Compiled([TVal(n)] + ts, stack, out) == Compiled(ts, Loose(stack), out + [Val(n)] + TightTop(stack))
  {
    assert ([TVal(n)] + ts)[1..] == ts;
  }

  lemma CompiledOpr(o: Token, ts: seq<Tok>, stack: seq<Token>, out: seq<Token>)
    ensures Compiled([TOpr(o)] + ts, stack, out) ==
      if stack != [] && o == Oper(Or) then Compiled(ts, stack, out + [o])
      else if |stack| == STACKDEPTH then TooComplex
      else Compiled(ts, stack + [o], out)
  {
    assert ([TOpr(o)] + ts)[1..] == ts;
  }

  lemma CompiledOpen(ts: seq<Tok>, stack: seq<Token>, out: seq<Token>)
    ensures var inner := Compiled(ts, [], out);
      Compiled([TOpen] + ts, stack, out) == if inner.Done? then AfterGroup(inner.rest, stack, inner.out) else inner
  {
    assert ([TOpen] + ts)[1..] == ts;
  }

  lemma {:induction false} BangsPushed(k: nat, ts: seq<Tok>, stack: seq<Token>, out: seq<Token>)
    requires |stack| + k <= STACKDEPTH
    ensures Compiled(BangToks(k, ts), stack, out) == Compiled(ts, stack + Repeat(k), out)
    decreases k
  {
    hide Compiled;
    if k == 0 {
      assert stack + Repeat(0) == stack;
    } else {
      CompiledOpr(Bang, BangToks(k - 1, ts), stack, out);
      BangsPushed(k - 1, ts, stack + [Bang], out);
      RepeatFront(k - 1);
      assert stack + [Bang] + Repeat(k - 1) == stack + ([Bang] + Repeat(k - 1));
    }
  }

  lemma {:induction false} RepeatFront(k: nat)
    ensures [Bang] + Repeat(k) == Repeat(k) + [Bang] == Repeat(k + 1)
  {
    if k > 0 {
      RepeatFront(k - 1);
      assert [Bang] + Repeat(k) == ([Bang] + Repeat(k - 1)) + [Bang];
    }
  }

  /** The pending operators above the base are all tight. */
  lemma {:induction false} TightAbove(b: seq<Token>, p: seq<Token>, k: nat)
    requires IsBase(b) && (p == [] || p == [Oper(And)])
    ensures Loose(b + p + Repeat(k)) == b && TightTop(b + p + Repeat(k)) == Repeat(k) + p
  {
    hide Loose, TightTop;
    if k > 0 {
      TightAbove(b, p, k - 1);
      assert b + p + Repeat(k) == (b + p + Repeat(k - 1)) + [Bang];
      OneTight(b + p + Repeat(k - 1), Bang);
      RepeatFront(k - 1);
      assert [Bang] + (Repeat(k - 1) + p) == ([Bang] + Repeat(k - 1)) + p;
    } else {
      BaseLoose(b);
      if p != [] { OneTight(b, Oper(And)); }
      assert b + p + Repeat(0) == b + p && Repeat(0) + p == p + [] == p && b + [] == b;
    }
  }

  lemma OneTight(stack: seq<Token>, t: Token)
    requires Tight(t)
    ensures Loose(stack + [t]) == Loose(stack) && TightTop(stack + [t]) == [t] + TightTop(stack)
  {
    assert (stack + [t])[..|stack|] == stack;
  }

  lemma BaseLoose(b: seq<Token>)
    requires IsBase(b)
    ensures Loose(b) == b && TightTop(b) == []
  {
  }

  /** A factor: its tree is pushed, then the pending & if there is one. */
  lemma {:induction false} FactorCompiled(f: Factor, ts: seq<Tok>, b: seq<Token>, p: seq<Token>, last: bool, out: seq<Token>)
    requires IsBase(b) && (p == [] || p == [Oper(And)]) && FactorFits(f, |p|, |b|, last) && (last ==> AtEnd(ts))
    ensures Compiled(FactorToks(f, ts), b + p, out) == Compiled(ts, b, Emit(out, FactorTree(f)) + p)
    decreases f
  {
    hide Compiled, Emit, Loose, TightTop, AfterGroup;
    var k := f.bangs;
    match f
    case Lit(_, n) =>
      BangsPushed(k, [TVal(n)] + ts, b + p, out);
      CompiledVal(n, ts, b + p + Repeat(k), out);
      TightAbove(b, p, k);
      EmitBangs(out, k, Leaf(n));
      EmitParts(out, Leaf(n));
      assert out + [Val(n)] + (Repeat(k) + p) == out + [Val(n)] + Repeat(k) + p;
    case Group(_, q) =>
      var inside := QueryToks(q, [TClose] + ts);
      BangsPushed(k, [TOpen] + inside, b + p, out);
      CompiledOpen(inside, b + p + Repeat(k), out);
      QueryCompiled(q, [TClose] + ts, out);
      EmitBangs(out, k, QueryTree(q));
      if k + |p| <= 1 {
        GroupPops(ts, b, p, k, Emit(out, QueryTree(q)));
      } else {
        LastGroupPops(ts, b, p, k, Emit(out, QueryTree(q)));
      }
  }

  /** Behind a group the one pending operator is applied. */
  lemma GroupPops(ts: seq<Tok>, b: seq<Token>, p: seq<Token>, k: nat, out: seq<Token>)
    requires IsBase(b) && (p == [] || p == [Oper(And)]) && k + |p| <= 1
    ensures AfterGroup(ts, b + p + Repeat(k), out) == Compiled(ts, b, out + Repeat(k) + p)
  {
    hide *;
    RepeatFront(0);
    NoRepeat();
    if k == 1 {
      assert p == [] && b + p + Repeat(k) == b + [Bang] && out + Repeat(k) + p == out + [Bang];
      AfterTight(ts, b, Bang, out);
    } else if p != [] {
      assert b + p + Repeat(k) == b + [Oper(And)] && out + Repeat(k) + p == out + [Oper(And)];
      AfterTight(ts, b, Oper(And), out);
    } else {
      assert b + p + Repeat(k) == b && out + Repeat(k) + p == out;
      AfterBase(ts, b, out);
    }
  }

  /** With more pending operators the first one is applied, and the others at the end of the query. */
  lemma LastGroupPops(ts: seq<Tok>, b: seq<Token>, p: seq<Token>, k: nat, out: seq<Token>)
    requires IsBase(b) && (p == [] || p == [Oper(And)]) && k > 0 && AtEnd(ts)
    ensures AfterGroup(ts, b + p + Repeat(k), out) == Compiled(ts, b, out + Repeat(k) + p)
  {
    hide *;
    GroupPopsOne(ts, b + p, k, out);
    CompiledEnd(ts, b + p + Repeat(k - 1), out + [Bang]);
    CompiledEnd(ts, b, out + Repeat(k) + p);
    ReverseAbove(b, p, k - 1);
    RepeatFront(k - 1);
    assert out + [Bang] + (Repeat(k - 1) + p + Reverse(b)) == out + ([Bang] + Repeat(k - 1)) + p + Reverse(b);
  }

  lemma GroupPopsOne(ts: seq<Tok>, stack: seq<Token>, k: nat, out: seq<Token>)
    requires k > 0
    ensures AfterGroup(ts, stack + Repeat(k), out) == Compiled(ts, stack + Repeat(k - 1), out + [Bang])
  {
    hide Compiled, AfterGroup;
    assert stack + Repeat(k) == (stack + Repeat(k - 1)) + [Bang];
    AfterTight(ts, stack + Repeat(k - 1), Bang, out);
  }

  lemma {:induction false} ReverseAbove(b: seq<Token>, p: seq<Token>, k: nat)
    requires p == [] || p == [Oper(And)]
    ensures Reverse(b + p + Repeat(k)) == Repeat(k) + p + Reverse(b)
  {
    hide Reverse;
    if k > 0 {
      ReverseAbove(b, p, k - 1);
      assert b + p + Repeat(k) == (b + p + Repeat(k - 1)) + [Bang];
      ReverseMore(b + p + Repeat(k - 1), Bang);
      RepeatFront(k - 1);
      assert [Bang] + (Repeat(k - 1) + p + Reverse(b)) == ([Bang] + Repeat(k - 1)) + p + Reverse(b);
    } else {
      if p != [] { ReverseMore(b, Oper(And)); }
      assert b + p + Repeat(0) == b + p && Repeat(0) + p + Reverse(b) == p + Reverse(b) && b + [] == b;
    }
  }

  lemma ReverseMore(s: seq<Token>, t: Token)
    ensures Reverse(s + [t]) == [t] + Reverse(s)
  {
    assert (s + [t])[..|s|] == s;
  }

  lemma NoRepeat()
    ensures Repeat(0) == [] && Repeat(1) == [Bang]
  {
    assert Repeat(1) == Repeat(0) + [Bang];
  }

  lemma AfterTight(ts: seq<Tok>, stack: seq<Token>, t: Token, out: seq<Token>)
    requires t == Bang || t == Oper(And)
    ensures AfterGroup(ts, stack + [t], out) == Compiled(ts, stack, out + [t])
  {
    hide Compiled;
    assert (stack + [t])[..|stack|] == stack;
  }

  lemma AfterBase(ts: seq<Tok>, b: seq<Token>, out: seq<Token>)
    requires IsBase(b)
    ensures AfterGroup(ts, b, out) == Compiled(ts, b, out)
  {
    hide Compiled;
  }

  lemma {:induction false} FactorsCompiled(c: Chain, i: nat, ts: seq<Tok>, b: seq<Token>, last: bool, out: seq<Token>)
    requires IsBase(b) && i <= |c.tail| && (last ==> AtEnd(ts))
    requires forall j :: i <= j < |c.tail| ==> FactorFits(c.tail[j], 1, |b|, last && j == |c.tail| - 1)
    ensures Compiled(MoreFactors(c, i, ts), b, Emit(out, AndAll(c, i))) == Compiled(ts, b, Emit(out, ChainTree(c)))
    decreases c, |c.tail| - i
  {
    hide Compiled, Emit;
    if i < |c.tail| {
      var more := MoreFactors(c, i + 1, ts);
      var o := Emit(out, AndAll(c, i));
      CompiledOpr(Oper(And), FactorToks(c.tail[i], more), b, o);
      FactorCompiled(c.tail[i], more, b, [Oper(And)], last && i == |c.tail| - 1, o);
      EmitParts(out, AndAll(c, i + 1));
      FactorsCompiled(c, i + 1, ts, b, last, out);
    }
  }

  lemma {:induction false} ChainCompiled(c: Chain, ts: seq<Tok>, b: seq<Token>, last: bool, out: seq<Token>)
    requires IsBase(b) && ChainFits(c, |b|, last) && (last ==> AtEnd(ts))
    ensures Compiled(ChainToks(c, ts), b, out) == Compiled(ts, b, Emit(out, ChainTree(c)))
    decreases c
  {
    hide Compiled, Emit;
    assert b + [] == b;
    FactorCompiled(c.head, MoreFactors(c, 0, ts), b, [], last && c.tail == [], out);
    assert Emit(out, FactorTree(c.head)) + [] == Emit(out, AndAll(c, 0));
    FactorsCompiled(c, 0, ts, b, last, out);
  }

  /** The chains behind the first one: the | before the last of them stays pending until the end. */
  lemma {:induction false} ChainsCompiled(q: Query, i: nat, ts: seq<Tok>, out: seq<Token>)
    requires 0 < i <= |q.rest| && AtEnd(ts)
    requires forall j :: i <= j < |q.rest| ==> ChainFits(q.rest[j], 1, j == |q.rest| - 1)
    ensures var n := |q.rest|;
      Compiled(MoreChains(q, i, ts), [Oper(Or)], Emit(Emit(out, OrAll(q, i - 1)), ChainTree(q.rest[i - 1])))
      == Compiled(ts, [Oper(Or)], Emit(Emit(out, OrAll(q, n - 1)), ChainTree(q.rest[n - 1])))
    decreases q, |q.rest| - i
  {
    hide Compiled, Emit;
    if i < |q.rest| {
      var more := MoreChains(q, i + 1, ts);
      var o := Emit(Emit(out, OrAll(q, i - 1)), ChainTree(q.rest[i - 1]));
      CompiledOpr(Oper(Or), ChainToks(q.rest[i], more), [Oper(Or)], o);
      EmitParts(out, OrAll(q, i));
      ChainCompiled(q.rest[i], more, [Oper(Or)], i == |q.rest| - 1, o + [Oper(Or)]);
      ChainsCompiled(q, i + 1, ts, out);
    }
  }

  /** A query up to its end or its closing parenthesis is compiled to the postfix form of its tree. */
  lemma {:induction false} QueryCompiled(q: Query, ts: seq<Tok>, out: seq<Token>)
    requires QueryFits(q) && AtEnd(ts)
    ensures Compiled(QueryToks(q, ts), [], out) == Done(Emit(out, QueryTree(q)), if ts == [] then [] else ts[1..])
    decreases q
  {
    hide Compiled, Emit;
    var n := |q.rest|;
    ChainCompiled(q.first, MoreChains(q, 0, ts), [], n == 0, out);
    if n > 0 {
      var more := MoreChains(q, 1, ts);
      var o := Emit(out, ChainTree(q.first));
      CompiledOpr(Oper(Or), ChainToks(q.rest[0], more), [], o);
      assert [] + [Oper(Or)] == [Oper(Or)];
      ChainCompiled(q.rest[0], more, [Oper(Or)], n == 1, o);
      ChainsCompiled(q, 1, ts, out);
      EmitParts(out, QueryTree(q));
      CompiledEnd(ts, [Oper(Or)], Emit(Emit(out, OrAll(q, n - 1)), ChainTree(q.rest[n - 1])));
      assert Reverse([Oper(Or)]) == [Oper(Or)] + Reverse([]);
    } else {
      CompiledEnd(ts, [], Emit(out, QueryTree(q)));
    }
  }

  lemma CompiledEnd(ts: seq<Tok>, stack: seq<Token>, out: seq<Token>)
    requires AtEnd(ts)
    ensures Compiled(ts, stack, out) == Done(out + Reverse(stack), if ts == [] then [] else ts[1..])
  {
  }

  // ---------------------------------------------------------------- compilation goes wrong otherwise

  /** Only integers are negated. */
  predicate PlainFactor(f: Factor) {
    f.Group? ==> f.bangs == 0 && Plain(f.q)
  }

  predicate PlainChain(c: Chain) {
    PlainFactor(c.head) && forall i :: 0 <= i < |c.tail| ==> PlainFactor(c.tail[i])
  }

  predicate Plain(q: Query) {
    PlainChain(q.first) && forall i :: 0 <= i < |q.rest| ==> PlainChain(q.rest[i])
  }

  predicate Differ(out: seq<Token>, goal: seq<Token>) {
    exists i :: 0 <= i < |out| && i < |goal| && out[i] != goal[i]
  }

  /** The query is refused, or a token of the result is wrong; with plain it is refused. */
  predicate Spoiled(r: Pol, goal: seq<Token>, plain: bool) {
    if plain then r.TooComplex? else r.Done? ==> Differ(r.out, goal)
  }

  /** What was pushed stays. */
  lemma {:induction false} OutStays(ts: seq<Tok>, stack: seq<Token>, out: seq<Token>)
    ensures var r := Compiled(ts, stack, out); r.Done? ==> out <= r.out
    decreases |ts|, 0
  {
    if ts != [] {
      match ts[0]
      case TVal(n) => OutStays(ts[1..], Loose(stack), out + [Val(n)] + TightTop(stack));
      case TOpr(t) => OutStays(ts[1..], stack, out + [t]); OutStays(ts[1..], stack + [t], out);
      case TOpen =>
        OutStays(ts[1..], [], out);
        var inner := Compiled(ts[1..], [], out);
        if inner.Done? { OutStaysAfter(inner.rest, stack, inner.out); }
      case TClose =>
      case TErr =>
    }
  }

  lemma {:induction false} OutStaysAfter(ts: seq<Tok>, stack: seq<Token>, out: seq<Token>)
    ensures var r := AfterGroup(ts, stack, out); r.Done? ==> out <= r.out
    decreases |ts|, 1
  {
    if stack != [] { OutStays(ts, stack[..|stack| - 1], out + [stack[|stack| - 1]]); }
    OutStays(ts, stack, out);
  }

  lemma DifferMore(out: seq<Token>, goal: seq<Token>, more: seq<Token>, r: seq<Token>)
    requires Differ(out, goal) && out <= r
    ensures Differ(r, goal + more)
  {
    var i :| 0 <= i < |out| && i < |goal| && out[i] != goal[i];
    assert r[i] != (goal + more)[i];
  }

  /** A wrong beginning stays wrong. */
  lemma SpoiledMore(r: Pol, goal: seq<Token>, more: seq<Token>, plain: bool)
    requires Spoiled(r, goal, plain)
    ensures Spoiled(r, goal + more, plain)
  {
    if !plain && r.Done? { DifferMore(r.out, goal, more, r.out); }
  }

  lemma {:induction false} BangsTooDeep(k: nat, ts: seq<Tok>, stack: seq<Token>, out: seq<Token>)
    requires |stack| <= STACKDEPTH < |stack| + k
    ensures Compiled(BangToks(k, ts), stack, out) == TooComplex
    decreases k
  {
    hide Compiled;
    CompiledOpr(Bang, BangToks(k - 1, ts), stack, out);
    if |stack| < STACKDEPTH { BangsTooDeep(k - 1, ts, stack + [Bang], out); }
  }

  /** The next token pushed is an integer. */
  predicate ValueNext(r: Pol, out: seq<Token>) {
    r.Done? ==> out <= r.out && |r.out| > |out| && r.out[|out|].Val?
  }

  lemma {:induction false} FactorStarts(f: Factor, ts: seq<Tok>, stack: seq<Token>, out: seq<Token>)
    requires |stack| <= STACKDEPTH
    ensures ValueNext(Compiled(FactorToks(f, ts), stack, out), out)
    decreases f
  {
    hide Compiled, AfterGroup;
    var k := f.bangs;
    if |stack| + k > STACKDEPTH {
      BangsTooDeep(k, match f case Lit(_, n) => [TVal(n)] + ts case Group(_, q) => [TOpen] + QueryToks(q, [TClose] + ts), stack, out);
    } else {
      var full := stack + Repeat(k);
      RepeatLength(k);
      match f
      case Lit(_, n) =>
        BangsPushed(k, [TVal(n)] + ts, stack, out);
        CompiledVal(n, ts, full, out);
        OutStays(ts, Loose(full), out + [Val(n)] + TightTop(full));
      case Group(_, q) =>
        var inside := QueryToks(q, [TClose] + ts);
        BangsPushed(k, [TOpen] + inside, stack, out);
        CompiledOpen(inside, full, out);
        var more := MoreFactors(q.first, 0, MoreChains(q, 0, [TClose] + ts));
        assert inside == ChainToks(q.first, MoreChains(q, 0, [TClose] + ts)) == FactorToks(q.first.head, more);
        FactorStarts(q.first.head, more, [], out);
        var inner := Compiled(inside, [], out);
        if inner.Done? { OutStaysAfter(inner.rest, full, inner.out); }
    }
  }

  lemma {:induction false} RepeatLength(k: nat)
    ensures |Repeat(k)| == k
  {
    if k > 0 { RepeatLength(k - 1); }
  }

  /** What stands behind a factor that is not the last one of its query. */
  ghost predicate MoreToCome(ts: seq<Tok>) {
    && ts != []
    && (ts[0] == TOpr(Oper(Or)) || (ts[0] == TOpr(Oper(And)) && exists f, rest :: ts[1..] == FactorToks(f, rest)))
  }

  ghost predicate Next(ts: seq<Tok>, last: bool) {
    if last then AtEnd(ts) else MoreToCome(ts)
  }

  lemma NextFactor(c: Chain, i: nat, ts: seq<Tok>, last: bool)
    requires i <= |c.tail| && Next(ts, last)
    ensures Next(MoreFactors(c, i, ts), last && i == |c.tail|)
  {
    if i < |c.tail| {
      var more := MoreFactors(c, i, ts);
      assert more[1..] == FactorToks(c.tail[i], MoreFactors(c, i + 1, ts));
    }
  }

  lemma NextChain(q: Query, i: nat, ts: seq<Tok>)
    requires i <= |q.rest| && AtEnd(ts)
    ensures Next(MoreChains(q, i, ts), i == |q.rest|)
  {
  }

  /** A tight operator that is still pending behind a group is not what is pushed next. */
  lemma DueIsNotNext(ts: seq<Tok>, stack: seq<Token>, out: seq<Token>, due: Token)
    requires MoreToCome(ts) && stack != [] && |stack| < STACKDEPTH && Tight(due)
    ensures Spoiled(Compiled(ts, stack, out), out + [due], false)
  {
    hide Compiled, AfterGroup;
    var r := Compiled(ts, stack, out);
    assert ts == [ts[0]] + ts[1..];
    if ts[0] == TOpr(Oper(Or)) {
      CompiledOpr(Oper(Or), ts[1..], stack, out);
      OutStays(ts[1..], stack, out + [Oper(Or)]);
      if r.Done? { assert r.out[|out|] == (out + [Oper(Or)])[|out|] == Oper(Or); }
    } else {
      var f, rest :| ts[1..] == FactorToks(f, rest);
      CompiledOpr(Oper(And), ts[1..], stack, out);
      FactorStarts(f, rest, stack + [Oper(And)], out);
      if r.Done? { assert r.out[|out|] != due; }
    }
    assert (out + [due])[|out|] == due;
  }

  lemma {:induction false} FactorSpoiled(f: Factor, ts: seq<Tok>, b: seq<Token>, p: seq<Token>, last: bool, out: seq<Token>, plain: bool)
    requires IsBase(b) && (p == [] || p == [Oper(And)]) && !FactorFits(f, |p|, |b|, last)
    requires Next(ts, last) && (plain ==> PlainFactor(f))
    ensures Spoiled(Compiled(FactorToks(f, ts), b + p, out), Emit(out, FactorTree(f)) + p, plain)
    decreases f, 0
  {
    hide Compiled, AfterGroup, Emit, Next;
    var k := f.bangs;
    if k + |p| + |b| > STACKDEPTH {
      BangsTooDeep(k, match f case Lit(_, n) => [TVal(n)] + ts case Group(_, q) => [TOpen] + QueryToks(q, [TClose] + ts), b + p, out);
    } else {
      var q := f.q;
      var inside := QueryToks(q, [TClose] + ts);
      BangsPushed(k, [TOpen] + inside, b + p, out);
      CompiledOpen(inside, b + p + Repeat(k), out);
      EmitBangs(out, k, QueryTree(q));
      var goal := Emit(out, QueryTree(q));
      assert goal + Repeat(k) + p == goal + (Repeat(k) + p);
      if QueryFits(q) {
        QueryCompiled(q, [TClose] + ts, out);
        assert ([TClose] + ts)[1..] == ts;
        NextEnds(ts, last);
        PendingSpoils(ts, b, p, k, goal);
      } else {
        QuerySpoiled(q, [TClose] + ts, out, plain);
        InnerSpoiled(Compiled(inside, [], out), b + p + Repeat(k), goal, Repeat(k) + p, plain);
      }
    }
  }

  lemma InnerSpoiled(inner: Pol, stack: seq<Token>, goal: seq<Token>, more: seq<Token>, plain: bool)
    requires Spoiled(inner, goal, plain)
    ensures Spoiled(if inner.Done? then AfterGroup(inner.rest, stack, inner.out) else inner, goal + more, plain)
  {
    hide AfterGroup;
    if inner.Done? {
      OutStaysAfter(inner.rest, stack, inner.out);
      var r := AfterGroup(inner.rest, stack, inner.out);
      if r.Done? { DifferMore(inner.out, goal, more, r.out); }
    }
  }

  lemma PendingSpoils(ts: seq<Tok>, b: seq<Token>, p: seq<Token>, k: nat, goal: seq<Token>)
    requires IsBase(b) && (p == [] || p == [Oper(And)]) && 2 <= k + |p| && k + |p| + |b| <= STACKDEPTH && MoreToCome(ts)
    ensures Spoiled(AfterGroup(ts, b + p + Repeat(k), goal), goal + (Repeat(k) + p), false)
  {
    hide *;
    GroupPopsOne(ts, b + p, k, goal);
    RepeatLength(k - 1);
    RepeatFront(k - 1);
    PendingTight(p, k - 1);
    var due, stack := Repeat(k - 1) + p, b + p + Repeat(k - 1);
    var first, more := due[0], due[1..];
    assert due == [first] + more;
    assert |stack| == |b| + |p| + (k - 1);
    DueIsNotNext(ts, stack, goal + [Bang], first);
    SpoiledMore(Compiled(ts, stack, goal + [Bang]), goal + [Bang] + [first], more, false);
    Regroup(goal, Repeat(k - 1), p, first, more);
  }

  lemma Regroup(goal: seq<Token>, bangs: seq<Token>, p: seq<Token>, first: Token, more: seq<Token>)
    requires bangs + p == [first] + more
    ensures goal + [Bang] + [first] + more == goal + (([Bang] + bangs) + p)
  {
    assert goal + [Bang] + [first] + more == goal + [Bang] + ([first] + more);
    assert goal + (([Bang] + bangs) + p) == goal + [Bang] + (bangs + p);
  }

  lemma PendingTight(p: seq<Token>, k: nat)
    requires (p == [] || p == [Oper(And)]) && k + |p| > 0
    ensures Repeat(k) + p != [] && Tight((Repeat(k) + p)[0])
  {
    if k > 0 {
      RepeatFront(k - 1);
      assert (([Bang] + Repeat(k - 1)) + p)[0] == Bang;
    }
  }

  lemma {:induction false} FactorsSpoiled(c: Chain, i: nat, ts: seq<Tok>, b: seq<Token>, last: bool, out: seq<Token>, plain: bool)
    requires IsBase(b) && i <= |c.tail| && Next(ts, last) && (plain ==> PlainChain(c))
    requires exists j :: i <= j < |c.tail| && !FactorFits(c.tail[j], 1, |b|, last && j == |c.tail| - 1)
    ensures Spoiled(Compiled(MoreFactors(c, i, ts), b, Emit(out, AndAll(c, i))), Emit(out, ChainTree(c)), plain)
    decreases c, |c.tail| - i
  {
    hide Compiled, FactorFits, Emit, Spoiled, Next;
    var more := MoreFactors(c, i + 1, ts);
    var o := Emit(out, AndAll(c, i));
    var end := last && i == |c.tail| - 1;
    CompiledOpr(Oper(And), FactorToks(c.tail[i], more), b, o);
    EmitParts(out, AndAll(c, i + 1));
    NextFactor(c, i + 1, ts, last);
    if FactorFits(c.tail[i], 1, |b|, end) {
      NextEnds(more, end);
      FactorCompiled(c.tail[i], more, b, [Oper(And)], end, o);
      FactorsSpoiled(c, i + 1, ts, b, last, out, plain);
    } else {
      FactorSpoiled(c.tail[i], more, b, [Oper(And)], end, o, plain);
      AndAllMore(c, i + 1, out, Compiled(MoreFactors(c, i, ts), b, o), plain);
    }
  }

  lemma NextEnds(ts: seq<Tok>, last: bool)
    requires Next(ts, last)
    ensures if last then AtEnd(ts) else MoreToCome(ts)
  {
  }

  /** What is pushed for a longer chain begins with what is pushed for a shorter one. */
  lemma {:induction false} AndAllMore(c: Chain, i: nat, out: seq<Token>, r: Pol, plain: bool)
    requires i <= |c.tail| && Spoiled(r, Emit(out, AndAll(c, i)), plain)
    ensures Spoiled(r, Emit(out, ChainTree(c)), plain)
    decreases |c.tail| - i
  {
    hide Emit, Spoiled;
    if i < |c.tail| {
      EmitParts(out, AndAll(c, i + 1));
      EmitMore(Emit(out, AndAll(c, i)), FactorTree(c.tail[i]), Oper(And), r, plain);
      AndAllMore(c, i + 1, out, r, plain);
    }
  }

  lemma EmitMore(out: seq<Token>, e: Expr, t: Token, r: Pol, plain: bool)
    requires Spoiled(r, out, plain)
    ensures Spoiled(r, Emit(out, e) + [t], plain)
  {
    hide Spoiled;
    SpoiledMore(r, out, Postfix(e) + [t], plain);
    assert out + (Postfix(e) + [t]) == Emit(out, e) + [t];
  }

  lemma {:induction false} ChainSpoiled(c: Chain, ts: seq<Tok>, b: seq<Token>, last: bool, out: seq<Token>, plain: bool)
    requires IsBase(b) && !ChainFits(c, |b|, last) && Next(ts, last) && (plain ==> PlainChain(c))
    ensures Spoiled(Compiled(ChainToks(c, ts), b, out), Emit(out, ChainTree(c)), plain)
    decreases c, |c.tail| + 1
  {
    hide Compiled, FactorFits, Emit, Spoiled, Next;
    assert b + [] == b;
    var more := MoreFactors(c, 0, ts);
    var end := last && c.tail == [];
    NextFactor(c, 0, ts, last);
    assert Emit(out, FactorTree(c.head)) + [] == Emit(out, AndAll(c, 0));
    if FactorFits(c.head, 0, |b|, end) {
      NextEnds(more, end);
      FactorCompiled(c.head, more, b, [], end, out);
      FactorsSpoiled(c, 0, ts, b, last, out, plain);
    } else {
      FactorSpoiled(c.head, more, b, [], end, out, plain);
      AndAllMore(c, 0, out, Compiled(ChainToks(c, ts), b, out), plain);
    }
  }

  /** Chain i is compiled behind what was pushed for the chains before it. */
  lemma {:induction false} ChainsSpoiled(q: Query, i: nat, ts: seq<Tok>, b: seq<Token>, o: seq<Token>, out: seq<Token>, plain: bool)
    requires i < |q.rest| && AtEnd(ts) && (plain ==> Plain(q))
    requires (i == 0 && b == [] && o == Emit(out, OrAll(q, 0))) || (i > 0 && b == [Oper(Or)] && o + [Oper(Or)] == Emit(out, OrAll(q, i)))
    requires exists j :: i <= j < |q.rest| && !ChainFits(q.rest[j], 1, j == |q.rest| - 1)
    ensures Spoiled(Compiled(MoreChains(q, i, ts), b, o), Emit(out, QueryTree(q)), plain)
    decreases q, |q.rest| - i
  {
    hide Compiled, ChainFits, PlainChain, Emit, Spoiled, Next;
    var more := MoreChains(q, i + 1, ts);
    var or, end := [Oper(Or)], i == |q.rest| - 1;
    var o1 := Emit(out, OrAll(q, i));
    CompiledOpr(Oper(Or), ChainToks(q.rest[i], more), b, o);
    assert [] + or == or;
    EmitParts(out, OrAll(q, i + 1));
    NextChain(q, i + 1, ts);
    if ChainFits(q.rest[i], 1, end) {
      NextEnds(more, end);
      ChainCompiled(q.rest[i], more, or, end, o1);
      ChainsSpoiled(q, i + 1, ts, or, Emit(o1, ChainTree(q.rest[i])), out, plain);
    } else {
      ChainSpoiled(q.rest[i], more, or, end, o1, plain);
      SpoiledMore(Compiled(MoreChains(q, i, ts), b, o), Emit(o1, ChainTree(q.rest[i])), or, plain);
      OrAllMore(q, i + 1, out, Compiled(MoreChains(q, i, ts), b, o), plain);
    }
  }

  lemma {:induction false} OrAllMore(q: Query, i: nat, out: seq<Token>, r: Pol, plain: bool)
    requires i <= |q.rest| && Spoiled(r, Emit(out, OrAll(q, i)), plain)
    ensures Spoiled(r, Emit(out, QueryTree(q)), plain)
    decreases |q.rest| - i
  {
    hide Emit, Spoiled;
    if i < |q.rest| {
      EmitParts(out, OrAll(q, i + 1));
      EmitMore(Emit(out, OrAll(q, i)), ChainTree(q.rest[i]), Oper(Or), r, plain);
      OrAllMore(q, i + 1, out, r, plain);
    }
  }

  lemma {:induction false} QuerySpoiled(q: Query, ts: seq<Tok>, out: seq<Token>, plain: bool)
    requires !QueryFits(q) && AtEnd(ts) && (plain ==> Plain(q))
    ensures Spoiled(Compiled(QueryToks(q, ts), [], out), Emit(out, QueryTree(q)), plain)
    decreases q, |q.rest| + 1
  {
    hide Compiled, ChainFits, PlainChain, Emit, Spoiled, Next;
    var more := MoreChains(q, 0, ts);
    NextChain(q, 0, ts);
    if ChainFits(q.first, 0, q.rest == []) {
      NextEnds(more, q.rest == []);
      ChainCompiled(q.first, more, [], q.rest == [], out);
      ChainsSpoiled(q, 0, ts, [], Emit(out, ChainTree(q.first)), out, plain);
    } else {
      ChainSpoiled(q.first, more, [], q.rest == [], out, plain);
      OrAllMore(q, 0, out, Compiled(QueryToks(q, ts), [], out), plain);
    }
  }

  /** A query is compiled to the postfix form of its precedence tree exactly when it fits. */
  lemma CompiledIffFits(q: Query)
    ensures Compiled(QueryToks(q, []), [], []) == Done(Postfix(QueryTree(q)), []) <==> QueryFits(q)
  {
    hide Compiled;
    assert Emit([], QueryTree(q)) == Postfix(QueryTree(q));
    if QueryFits(q) {
      QueryCompiled(q, [], []);
    } else {
      QuerySpoiled(q, [], [], false);
    }
  }

  /** With ! on integers only, a query is compiled by precedence, unless too many operators are pending at once. */
  lemma PlainCompiled(q: Query)
    requires Plain(q)
    ensures Compiled(QueryToks(q, []), [], []) == if QueryFits(q) then Done(Postfix(QueryTree(q)), []) else TooComplex
  {
    hide Compiled;
    if QueryFits(q) {
      QueryCompiled(q, [], []);
      assert [] + Postfix(QueryTree(q)) == Postfix(QueryTree(q));
    } else {
      QuerySpoiled(q, [], [], true);
    }
  }

  // ---------------------------------------------------------------- meaning by precedence

  predicate FactorMeans(f: Factor, v: int -> bool) {
    match f
    case Lit(k, n) => v(n) == (k % 2 == 0)
    case Group(k, q) => QueryMeans(q, v) == (k % 2 == 0)
  }

  predicate ChainMeans(c: Chain, v: int -> bool) {
    FactorMeans(c.head, v) && forall i :: 0 <= i < |c.tail| ==> FactorMeans(c.tail[i], v)
  }

  /** Some chain has all its factors true. */
  predicate QueryMeans(q: Query, v: int -> bool) {
    ChainMeans(q.first, v) || exists i :: 0 <= i < |q.rest| && ChainMeans(q.rest[i], v)
  }

  lemma {:induction false} BangsMean(k: nat, e: Expr, v: int -> bool)
    ensures Eval(Bangs(k, e), v, true) == (Eval(e, v, true) == (k % 2 == 0))
  {
    if k > 0 { BangsMean(k - 1, e, v); }
  }

  lemma {:induction false} FactorTreeMeans(f: Factor, v: int -> bool)
    ensures Eval(FactorTree(f), v, true) == FactorMeans(f, v)
    decreases f
  {
    match f
    case Lit(k, n) => BangsMean(k, Leaf(n), v);
    case Group(k, q) => BangsMean(k, QueryTree(q), v); QueryTreeMeans(q, v);
  }

  lemma {:induction false} AndAllMeans(c: Chain, n: nat, v: int -> bool)
    requires n <= |c.tail|
    ensures Eval(AndAll(c, n), v, true) == (FactorMeans(c.head, v) && forall i :: 0 <= i < n ==> FactorMeans(c.tail[i], v))
    decreases c, n
  {
    if n == 0 {
      FactorTreeMeans(c.head, v);
    } else {
      AndAllMeans(c, n - 1, v);
      FactorTreeMeans(c.tail[n - 1], v);
    }
  }

  lemma {:induction false} OrAllMeans(q: Query, n: nat, v: int -> bool)
    requires n <= |q.rest|
    ensures Eval(OrAll(q, n), v, true) == (ChainMeans(q.first, v) || exists i :: 0 <= i < n && ChainMeans(q.rest[i], v))
    decreases q, n
  {
    if n == 0 {
      AndAllMeans(q.first, |q.first.tail|, v);
    } else {
      OrAllMeans(q, n - 1, v);
      AndAllMeans(q.rest[n - 1], |q.rest[n - 1].tail|, v);
    }
  }

  /** The tree has the meaning that precedence gives. */
  lemma {:induction false} QueryTreeMeans(q: Query, v: int -> bool)
    ensures Eval(QueryTree(q), v, true) == QueryMeans(q, v)
    decreases q, |q.rest| + 1
  {
    OrAllMeans(q, |q.rest|, v);
  }

  const Misgrouped := Query(Chain(Lit(0, 1), [Group(1, Query(Chain(Lit(0, 2), []), []))]), [Chain(Lit(0, 3), [])])

  const MisgroupedAs := Join(And, Join(Or, Leaf(1), Not(Leaf(2))), Leaf(3))

  /** The query 1&!(2)|3 is compiled as (1|!2)&3. */
  lemma MisgroupedQuery()
    ensures Compiled(QueryToks(Misgrouped, []), [], []) == Done(Postfix(MisgroupedAs), [])
    ensures QueryMeans(Misgrouped, n => n == 1) && !Eval(MisgroupedAs, n => n == 1, true)
  {
    var a, o := Oper(And), Oper(Or);
    var t3 := [TVal(3)] + [];
    var t2 := [TOpr(o)] + t3;
    var inner := [TVal(2)] + ([TClose] + t2);
    MisgroupedTokens();
    hide Compiled, QueryToks;
    CompiledVal(1, [TOpr(a)] + ([TOpr(Bang)] + ([TOpen] + inner)), [], []);
    CompiledOpr(a, [TOpr(Bang)] + ([TOpen] + inner), [], [Val(1)]);
    CompiledOpr(Bang, [TOpen] + inner, [a], [Val(1)]);
    CompiledOpen(inner, [a, Bang], [Val(1)]);
    CompiledVal(2, [TClose] + t2, [], [Val(1)]);
    CompiledEnd([TClose] + t2, [], [Val(1), Val(2)]);
    CompiledOpr(o, t3, [a], [Val(1), Val(2), Bang]);
    CompiledVal(3, [], [a], [Val(1), Val(2), Bang, o]);
    CompiledEnd([], [], [Val(1), Val(2), Bang, o, Val(3), a]);
    assert [] + [a] == [a] && [a] + [Bang] == [a, Bang] && [a, Bang][..1] == [a] && [a][..0] == [];
    assert [] + [Val(1)] + [] == [Val(1)] && [Val(1)] + [Val(2)] + [] == [Val(1), Val(2)];
    assert [Val(1), Val(2)] + [] + [Bang] == [Val(1), Val(2), Bang];
    assert [Val(1), Val(2), Bang] + [o] == [Val(1), Val(2), Bang, o];
    assert [Val(1), Val(2), Bang, o] + [Val(3)] + ([a] + []) == [Val(1), Val(2), Bang, o, Val(3), a];
    MisgroupedPostfix();
  }

  const Unbalanced := Query(Chain(Group(2, Query(Chain(Lit(0, 1), []), [])), []), [Chain(Lit(0, 2), [])])

  /** The query !!(1)|2 is compiled to 1 ! | 2 !, which is no postfix form; its end is read as !2. */
  lemma UnbalancedQuery(v: int -> bool, calcnot: bool)
    ensures Compiled(QueryToks(Unbalanced, []), [], []) == Done([Val(1), Bang, Oper(Or)] + Postfix(Not(Leaf(2))), [])
    ensures StackValue([Val(1), Bang, Oper(Or)] + Postfix(Not(Leaf(2))), v, calcnot) == None
  {
    hide *;
    UnbalancedCompiled();
    UnbalancedStack(v, calcnot);
    assert [Val(1), Bang, Oper(Or)] + [Val(2), Bang] == [Val(1), Bang, Oper(Or), Val(2), Bang];
  }

  lemma UnbalancedCompiled()
    ensures Compiled(QueryToks(Unbalanced, []), [], []) == Done([Val(1), Bang, Oper(Or), Val(2), Bang], [])
  {
    var o := Oper(Or);
    var t2 := [TOpr(o)] + ([TVal(2)] + []);
    var inner := [TVal(1)] + ([TClose] + t2);
    UnbalancedTokens();
    hide Compiled, QueryToks;
    CompiledOpr(Bang, [TOpr(Bang)] + ([TOpen] + inner), [], []);
    CompiledOpr(Bang, [TOpen] + inner, [Bang], []);
    CompiledOpen(inner, [Bang, Bang], []);
    CompiledVal(1, [TClose] + t2, [], []);
    CompiledEnd([TClose] + t2, [], [Val(1)]);
    CompiledOpr(o, [TVal(2)] + [], [Bang], [Val(1), Bang]);
    CompiledVal(2, [], [Bang], [Val(1), Bang, o]);
    CompiledEnd([], [], [Val(1), Bang, o, Val(2), Bang]);
    assert ([TClose] + t2)[1..] == t2 && Reverse([]) == [] && Loose([Bang]) == [] && TightTop([Bang]) == [Bang] + [];
    assert [] + [Bang] == [Bang] && [Bang] + [Bang] == [Bang, Bang] && [Bang, Bang][..1] == [Bang] && [Bang][..0] == [];
    assert [] + [Val(1)] + [] == [Val(1)] && [Val(1)] + [Bang] == [Val(1), Bang];
    assert [Val(1), Bang] + [o] == [Val(1), Bang, o];
    assert [Val(1), Bang, o] + [Val(2)] + ([Bang] + []) == [Val(1), Bang, o, Val(2), Bang];
    assert Compiled(inner, [], []) == Done([Val(1)], t2);
    assert Compiled([TOpen] + inner, [Bang, Bang], []) == AfterGroup(t2, [Bang, Bang], [Val(1)]);
    assert AfterGroup(t2, [Bang, Bang], [Val(1)]) == Compiled(t2, [Bang], [Val(1), Bang]);
    assert Compiled(t2, [Bang], [Val(1), Bang]) == Compiled([TVal(2)] + [], [Bang], [Val(1), Bang, o]);
    assert Compiled([TVal(2)] + [], [Bang], [Val(1), Bang, o]) == Compiled([], [], [Val(1), Bang, o, Val(2), Bang]);
  }

  lemma UnbalancedStack(v: int -> bool, calcnot: bool)
    ensures Postfix(Not(Leaf(2))) == [Val(2), Bang]
    ensures StackValue([Val(1), Bang, Oper(Or), Val(2), Bang], v, calcnot) == None
  {
    var rest := [Oper(Or)] + [Val(2), Bang];
    assert Postfix(Leaf(2)) == [Val(2)];
    assert [Val(1), Bang, Oper(Or), Val(2), Bang] == [Val(1)] + ([Bang] + rest);
    StackFirst(Val(1), [Bang] + rest, [], v, calcnot);
    StackFirst(Bang, rest, [v(1)], v, calcnot);
    StackFirst(Oper(Or), [Val(2), Bang], [calcnot ==> !v(1)], v, calcnot);
  }

  lemma UnbalancedTokens()
    ensures QueryToks(Unbalanced, []) ==
      [TOpr(Bang)] + ([TOpr(Bang)] + ([TOpen] + ([TVal(1)] + ([TClose] + ([TOpr(Oper(Or))] + ([TVal(2)] + []))))))
  {
    var c := Unbalanced.first;
    var t2 := [TOpr(Oper(Or))] + ([TVal(2)] + []);
    OneNumber(2, []);
    OneNumber(1, [TClose] + t2);
    assert MoreChains(Unbalanced, 1, []) == [];
    assert MoreChains(Unbalanced, 0, []) == t2;
    assert MoreFactors(c, 0, t2) == t2;
    var g := [TOpen] + ([TVal(1)] + ([TClose] + t2));
    assert BangToks(1, g) == [TOpr(Bang)] + BangToks(0, g);
    assert BangToks(2, g) == [TOpr(Bang)] + BangToks(1, g);
  }

  lemma MisgroupedPostfix()
    ensures Postfix(MisgroupedAs) == [Val(1), Val(2), Bang, Oper(Or), Val(3), Oper(And)]
  {
    assert Postfix(Not(Leaf(2))) == [Val(2), Bang];
    assert Postfix(Join(Or, Leaf(1), Not(Leaf(2)))) == [Val(1), Val(2), Bang, Oper(Or)];
  }

  lemma OneNumber(n: int, ts: seq<Tok>)
    ensures var c := Chain(Lit(0, n), []); ChainToks(c, ts) == [TVal(n)] + ts && QueryToks(Query(c, []), ts) == [TVal(n)] + ts
  {
  }

  lemma MisgroupedTokens()
    ensures QueryToks(Misgrouped, []) ==
      [TVal(1)] + ([TOpr(Oper(And))] + ([TOpr(Bang)] + ([TOpen] + ([TVal(2)] + ([TClose] + ([TOpr(Oper(Or))] + ([TVal(3)] + [])))))))
  {
    var q2, c := Query(Chain(Lit(0, 2), []), []), Misgrouped.first;
    var t2 := [TOpr(Oper(Or))] + ([TVal(3)] + []);
    OneNumber(3, []);
    OneNumber(2, [TClose] + t2);
    assert MoreChains(Misgrouped, 1, []) == [];
    assert MoreChains(Misgrouped, 0, []) == t2;
    assert MoreFactors(c, 1, t2) == t2;
    var g := [TOpen] + ([TVal(2)] + ([TClose] + t2));
    assert BangToks(1, g) == [TOpr(Bang)] + BangToks(0, g);
    assert FactorToks(c.tail[0], t2) == [TOpr(Bang)] + g;
    assert MoreFactors(c, 0, t2) == [TOpr(Oper(And))] + ([TOpr(Bang)] + g);
  }
}
