/**
 * Boolean queries of contrib/intarray as text (_int_bool.c): the tokenizer and the compiler as
 * methods of the shared work state, printing, and the round trip.
 */
module BoolText {
  import opened Basics
  import opened CString
  import opened BoolQuery
  import opened BoolParse
  import opened BoolLex
  import opened BoolGrammar

  // ---------------------------------------------------------------- the compiler

  datatype Status = End | Syntax | Complex

  /** WORKSTATE; str lists what was pushed, the oldest first. */
  class WorkState {
    const buf: string
    var ptr: nat
    var state: LexState
    var count: int
    var str: seq<Token>

    ghost predicate Valid()
      reads this
    {
      ptr <= |buf| && state != WaitEndOperand
    }

    ghost function Toks(): seq<Tok>
      requires Valid()
      reads this
    {
      Lexed(buf, ptr, state, count)
    }

    constructor (buf: string)
      ensures Valid() && this.buf == buf && ptr == 0 && state == WaitOperand && count == 0 && str == []
    {
      this.buf := buf;
      ptr, state, count, str := 0, WaitOperand, 0, [];
    }

    /** gettoken */
    method GetToken() returns (tok: Option<Tok>)
      requires Valid()
      modifies this`ptr, this`state, this`count
      ensures tok.None? ==> Valid() && old(Toks()) == [] == Toks() && ptr >= old(ptr)
      ensures tok == Some(TErr) ==> old(Toks()) == [TErr]
      ensures tok.Some? && tok.value != TErr ==> Valid() && old(Toks()) == [tok.value] + Toks() && ptr > old(ptr)
    {
      hide Atoi, Number;
      var nnn := "";
      while true
        invariant ptr <= |buf| && (state != WaitEndOperand ==> nnn == "")
        invariant NextTok(buf, ptr, state, count, nnn) == NextTok(buf, old(ptr), old(state), old(count), "")
        decreases |buf| - ptr
      {
        var c := At(buf, ptr);
        if state == WaitOperand {
          if IsDigit(c) || c == '-' {
            state := WaitEndOperand;
            nnn := [c];
          } else if c == '!' {
            ptr := ptr + 1;
            return Some(TOpr(Bang));
          } else if c == '(' {
            count := count + 1;
            ptr := ptr + 1;
            return Some(TOpen);
          } else if c != ' ' {
            return Some(TErr);
          }
        } else if state == WaitEndOperand {
          if IsDigit(c) {
            nnn := nnn + [c];
          } else {
            state := WaitOperator;
            return Some(if count != 0 && c == '\0' then TErr else TVal(Atoi(nnn)));
          }
        } else {
          if c == '&' || c == '|' {
            state := WaitOperand;
            ptr := ptr + 1;
            return Some(TOpr(Oper(if c == '&' then And else Or)));
          } else if c == ')' {
            ptr := ptr + 1;
            count := count - 1;
            return Some(if count < 0 then TErr else TClose);
          } else if c == '\0' {
            return if count != 0 then Some(TErr) else None;
          } else if c != ' ' {
            return Some(TErr);
          }
        }
        ptr := ptr + 1;
      }
    }

    /** pushquery */
    method PushQuery(t: Token)
      modifies this`str
      ensures str == old(str) + [t]
    {
      str := str + [t];
    }

    /** The loop that empties the operator stack. */
    method PushAll(stack: array<Token>, lenstack: nat)
      requires lenstack <= stack.Length
      modifies this`str
      ensures str == old(str) + Reverse(stack[..lenstack])
    {
      var n := lenstack;
      while n > 0
        invariant 0 <= n <= lenstack
        invariant str + Reverse(stack[..n]) == old(str) + Reverse(stack[..lenstack])
      {
        n := n - 1;
        assert stack[..n + 1][..n] == stack[..n];
        Associate(str, [stack[n]], Reverse(stack[..n]));
        PushQuery(stack[n]);
      }
    }

    /** The loop that applies the tight operators on top of the stack. */
    method PushTight(stack: array<Token>, lenstack: nat) returns (n: nat)
      requires lenstack <= stack.Length
      modifies this`str
      ensures n <= lenstack && stack[..n] == Loose(stack[..lenstack])
      ensures str == old(str) + TightTop(stack[..lenstack])
    {
      n := lenstack;
      while n > 0 && Tight(stack[n - 1])
        invariant 0 <= n <= lenstack && Loose(stack[..n]) == Loose(stack[..lenstack])
        invariant str + TightTop(stack[..n]) == old(str) + TightTop(stack[..lenstack])
      {
        n := n - 1;
        assert stack[..n + 1][..n] == stack[..n];
        Associate(str, [stack[n]], TightTop(stack[..n]));
        PushQuery(stack[n]);
      }
    }

    /** makepol */
    method MakePol() returns (r: Status)
      requires Valid()
      modifies this
      ensures var p := Compiled(old(Toks()), [], old(str));
        match r
        case End => p.Done? && Valid() && ptr >= old(ptr) && str == p.out && Toks() == p.rest
        case Syntax => p == SyntaxError
        case Complex => p == TooComplex
      decreases |buf| - ptr
    {
      hide Lexed, Compiled, AfterGroup, Loose, TightTop, Reverse;
      var stack := new Token[STACKDEPTH](_ => Bang);
      var lenstack := 0;
      ghost var goal := Compiled(Toks(), [], str);
      assert stack[..0] == [];
      while true
        invariant Valid() && ptr >= old(ptr) && 0 <= lenstack <= STACKDEPTH
        invariant Compiled(Toks(), stack[..lenstack], str) == goal
        decreases |buf| - ptr
      {
        ghost var st := stack[..lenstack];
        ghost var before, out := ptr, str;
        var tok := GetToken();
        if tok.None? {
          CompiledEnd([], st, out);
          PushAll(stack, lenstack);
          return End;
        } else if tok.value.TVal? {
          CompiledVal(tok.value.n, Toks(), st, out);
          PushQuery(Val(tok.value.n));
          lenstack := PushTight(stack, lenstack);
        } else if tok.value.TOpr? {
          var val := tok.value.t;
          CompiledOpr(val, Toks(), st, out);
          if lenstack > 0 && val == Oper(Or) {
            PushQuery(val);
          } else {
            if lenstack == STACKDEPTH { return Complex; }
            stack[lenstack] := val;
            lenstack := lenstack + 1;
            assert stack[..lenstack] == st + [val];
          }
        } else if tok.value.TOpen? {
          CompiledOpen(Toks(), st, out);
          var inner := MakePol();
          if inner != End { return inner; }
          GroupEnd(Toks(), st, str);
          if lenstack > 0 && Tight(stack[lenstack - 1]) {
            lenstack := lenstack - 1;
            assert stack[..lenstack] == st[..lenstack];
            PushQuery(stack[lenstack]);
          }
        } else if tok.value.TClose? {
          CompiledEnd([TClose] + Toks(), st, out);
          PushAll(stack, lenstack);
          return End;
        } else {
          CompiledErr(st, out);
          return Syntax;
        }
      }
    }
  }

  lemma Associate(a: seq<Token>, b: seq<Token>, c: seq<Token>)
    ensures (a + b) + c == a + (b + c)
  {
  }

  lemma GroupEnd(ts: seq<Tok>, stack: seq<Token>, out: seq<Token>)
    ensures AfterGroup(ts, stack, out) ==
      if stack != [] && Tight(stack[|stack| - 1]) then Compiled(ts, stack[..|stack| - 1], out + [stack[|stack| - 1]])
      else Compiled(ts, stack, out)
  {
    hide Compiled;
  }

  lemma CompiledErr(stack: seq<Token>, out: seq<Token>)
    ensures Compiled([TErr], stack, out) == SyntaxError
  {
  }

  // ---------------------------------------------------------------- printing

  /** What infix prints for a tree; first tells that nothing around it makes parentheses necessary. */
  function Text(e: Expr, first: bool): string
    decreases e, 1
  {
    match e
    case Leaf(n) => IntText(n)
    case Not(f) => if f.Leaf? then "!" + Text(f, false) else "!" + ("( " + (Text(f, true) + " )"))
    case Join(op, _, _) => if op == Or && !first then "( " + (Operands(e) + " )") else Operands(e)
  }

  /** The operands with the operator between them. */
  function Operands(e: Expr): string
    requires e.Join?
    decreases e, 0
  {
    Text(e.l, false) + (OperText(e.op) + Text(e.r, false))
  }

  function OperText(op: Binary): string {
    if op == And then " & " else " | "
  }

  /** infix: prints the subquery that ends at cur and moves before it; the right operand comes first in the items. */
  method Infix(items: seq<Item>, cur: int, first: bool, ghost e: Expr) returns (out: string, cur': int)
    requires Size(e) - 1 <= cur < |items| && Tokens(items[cur + 1 - Size(e)..cur + 1]) == Postfix(e)
    ensures out == Text(e, first) && cur' == cur - Size(e)
    decreases e
  {
    hide *;
    LinkedSize(e);
    ghost var lo, hi := cur + 1 - Size(e), cur + 1;
    SliceSplits(items, e, lo, hi);
    TextOf(e, first);
    if items[cur].token.Val? {
      LeafSize(e);
      out := IntText(items[cur].token.n);
      cur' := cur - 1;
    } else if items[cur].token.Bang? {
      NotSize(e);
      var isopr := !items[cur - 1].token.Val?;
      SliceSplits(items, e.e, lo, hi - 1);
      out, cur' := Infix(items, cur - 1, isopr, e.e);
      out := if isopr then "!" + ("( " + (out + " )")) else "!" + out;
    } else {
      JoinSize(e);
      var op := items[cur].token.op;
      var right, nrm := Infix(items, cur - 1, false, e.r);
      var left;
      left, cur' := Infix(items, nrm, false, e.l);
      out := left + (OperText(op) + right);
      if op == Or && !first { out := "( " + (out + " )"); }
    }
  }

  lemma TextOf(e: Expr, first: bool)
    ensures e.Leaf? ==> Text(e, first) == IntText(e.n)
    ensures e.Not? ==> Text(e, first) == (if e.e.Leaf? then "!" + Text(e.e, false) else "!" + ("( " + (Text(e.e, true) + " )")))
    ensures e.Join? ==> Text(e, first) == (var t := Text(e.l, false) + (OperText(e.op) + Text(e.r, false));
      if e.op == Or && !first then "( " + (t + " )") else t)
  {
  }

  /** The format of printed queries. */
  lemma TextExample()
    ensures Text(Join(And, Leaf(10), Not(Join(Or, Leaf(2), Leaf(-3)))), true) == "10 & !( 2 | -3 )"
  {
    NumbersExample();
    hide IntText;
    var or := Join(Or, Leaf(2), Leaf(-3));
    assert Text(or, true) == "2 | -3";
    TextOf(Not(or), false);
    assert Text(Not(or), false) == "!( 2 | -3 )";
  }

  lemma NumbersExample()
    ensures IntText(10) == "10" && IntText(2) == "2" && IntText(-3) == "-3"
  {
    assert Decimal(1) == "1" && Decimal(2) == "2" && Decimal(3) == "3";
    assert Decimal(10) == Decimal(1) + "0";
  }

  lemma LeafSize(e: Expr)
    requires e.Leaf?
    ensures Size(e) == 1
  {
  }

  lemma NotSize(e: Expr)
    requires e.Not?
    ensures Size(e) == Size(e.e) + 1 && Size(e.e) > 0
  {
  }

  lemma JoinSize(e: Expr)
    requires e.Join?
    ensures Size(e) == Size(e.l) + Size(e.r) + 1 && Size(e.l) > 0 && Size(e.r) > 0
  {
  }

  // ---------------------------------------------------------------- printed text as tokens

  /** The tokens of a printed tree, in front of those that follow. */
  function TextToks(e: Expr, first: bool, ts: seq<Tok>): seq<Tok>
    decreases e, 1
  {
    match e
    case Leaf(n) => [TVal(n)] + ts
    case Not(f) =>
      if f.Leaf? then [TOpr(Bang)] + TextToks(f, false, ts)
      else [TOpr(Bang)] + ([TOpen] + TextToks(f, true, [TClose] + ts))
    case Join(op, _, _) =>
      if op == Or && !first then [TOpen] + OperandToks(e, [TClose] + ts) else OperandToks(e, ts)
  }

  function OperandToks(e: Expr, ts: seq<Tok>): seq<Tok>
    requires e.Join?
    decreases e, 0
  {
    TextToks(e.l, false, [TOpr(Oper(e.op))] + TextToks(e.r, false, ts))
  }

  lemma LexInt(s: string, i: nat, n: int, count: int)
    requires Has(s, i, IntText(n)) && Ends(s, i + |IntText(n)|, count)
    ensures i + |IntText(n)| <= |s|
    ensures Lexed(s, i, WaitOperand, count) == [TVal(n)] + Lexed(s, i + |IntText(n)|, WaitOperator, count)
  {
    hide Atoi;
    var w := IntText(n);
    HasRoom(s, i, w);
    assert w == [w[0]] + w[1..];
    HasChar(s, i, w);
    AtoiOfText(n);
    IntStarts(n);
    hide IntText;
    LexDigits(s, i + 1, w[1..], [w[0]], count);
    assert NextTok(s, i, WaitOperand, count, "") == NextTok(s, i + 1, WaitEndOperand, count, [w[0]]);
  }

  lemma LexOpen(s: string, i: nat, t: string, count: int)
    requires Has(s, i, "( " + t)
    ensures i + 2 <= |s| && Has(s, i + 2, t)
    ensures Lexed(s, i, WaitOperand, count) == [TOpen] + Lexed(s, i + 2, WaitOperand, count + 1)
  {
    hide Lexed, Has;
    HasParts(s, i, "( ", t);
    HasChar(s, i, "( ");
    assert "( "[1..] == " ";
    HasChar(s, i + 1, " ");
    LexChar(s, i, WaitOperand, count);
    LexChar(s, i + 1, WaitOperand, count + 1);
  }

  lemma LexClose(s: string, i: nat, count: int)
    requires Has(s, i, " )") && count > 0
    ensures i + 2 <= |s| && Ends(s, i, count)
    ensures Lexed(s, i, WaitOperator, count) == [TClose] + Lexed(s, i + 2, WaitOperator, count - 1)
  {
    hide Lexed, Has;
    HasChar(s, i, " )");
    assert " )"[1..] == ")";
    HasChar(s, i + 1, ")");
    LexChar(s, i, WaitOperator, count);
    LexChar(s, i + 1, WaitOperator, count);
  }

  lemma LexOper(s: string, i: nat, op: Binary, count: int)
    requires Has(s, i, OperText(op))
    ensures i + 3 <= |s| && Ends(s, i, count)
    ensures Lexed(s, i, WaitOperator, count) == [TOpr(Oper(op))] + Lexed(s, i + 3, WaitOperand, count)
  {
    hide Lexed, Has;
    var t := OperText(op);
    HasChar(s, i, t);
    HasChar(s, i + 1, t[1..]);
    assert t[1..][1..] == " ";
    HasChar(s, i + 2, " ");
    LexChar(s, i, WaitOperator, count);
    LexChar(s, i + 1, WaitOperator, count);
    LexChar(s, i + 2, WaitOperand, count);
  }

  /** Printed text is read back as its tokens. */
  lemma {:induction false} LexText(s: string, i: nat, e: Expr, first: bool, count: int)
    requires Has(s, i, Text(e, first)) && Ends(s, i + |Text(e, first)|, count) && count >= 0
    ensures i + |Text(e, first)| <= |s|
    ensures Lexed(s, i, WaitOperand, count) == TextToks(e, first, Lexed(s, i + |Text(e, first)|, WaitOperator, count))
    decreases e, 1
  {
    hide Lexed, Has, Ends, IntText, OperText;
    HasRoom(s, i, Text(e, first));
    match e
    case Leaf(n) => LexInt(s, i, n, count);
    case Not(f) =>
      if f.Leaf? {
        HasParts(s, i, "!", Text(f, false));
        HasChar(s, i, "!");
        LexChar(s, i, WaitOperand, count);
        LexText(s, i + 1, f, false, count);
      } else {
        HasParts(s, i, "!", "( " + (Text(f, true) + " )"));
        HasChar(s, i, "!");
        LexChar(s, i, WaitOperand, count);
        LexOpen(s, i + 1, Text(f, true) + " )", count);
        HasParts(s, i + 3, Text(f, true), " )");
        LexClose(s, i + 3 + |Text(f, true)|, count + 1);
        LexText(s, i + 3, f, true, count + 1);
      }
    case Join(op, _, _) =>
      if op == Or && !first {
        LexOpen(s, i, Operands(e) + " )", count);
        HasParts(s, i + 2, Operands(e), " )");
        LexClose(s, i + 2 + |Operands(e)|, count + 1);
        LexOperands(s, i + 2, e, count + 1);
      } else {
        LexOperands(s, i, e, count);
      }
  }

  lemma {:induction false} LexOperands(s: string, i: nat, e: Expr, count: int)
    requires e.Join? && Has(s, i, Operands(e)) && Ends(s, i + |Operands(e)|, count) && count >= 0
    ensures i + |Operands(e)| <= |s|
    ensures Lexed(s, i, WaitOperand, count) == OperandToks(e, Lexed(s, i + |Operands(e)|, WaitOperator, count))
    decreases e, 0
  {
    hide Lexed, Has, Ends;
    var l, o, r := Text(e.l, false), OperText(e.op), Text(e.r, false);
    HasRoom(s, i, Operands(e));
    HasParts(s, i, l, o + r);
    HasParts(s, i + |l|, o, r);
    LexOper(s, i + |l|, e.op, count);
    LexText(s, i, e.l, false, count);
    LexText(s, i + |l| + 3, e.r, false, count);
  }

  // ---------------------------------------------------------------- printed trees as queries

  /** Only integers are negated. */
  predicate NegatesIntegers(e: Expr) {
    match e
    case Leaf(_) => true
    case Not(f) => f.Leaf?
    case Join(_, l, r) => NegatesIntegers(l) && NegatesIntegers(r)
  }

  /** The query whose text infix prints: only the operands of & are listed without their grouping. */
  function QueryOf(e: Expr): Query
    decreases e, if e.Join? && e.op == Or then 0 else 3
  {
    if e.Join? && e.op == Or then Query(ChainOf(e.l), [ChainOf(e.r)]) else Query(ChainOf(e), [])
  }

  function ChainOf(e: Expr): Chain
    decreases e, 2
  {
    var fs := FactorsOf(e);
    Chain(fs[0], fs[1..])
  }

  function FactorsOf(e: Expr): (fs: seq<Factor>)
    ensures fs != []
    decreases e, 1
  {
    match e
    case Leaf(n) => [Lit(0, n)]
    case Not(f) => if f.Leaf? then [Lit(1, f.n)] else [Group(1, QueryOf(f))]
    case Join(And, l, r) => FactorsOf(l) + FactorsOf(r)
    case Join(Or, _, _) => [Group(0, QueryOf(e))]
  }

  /** The tokens of a list of factors with & between them. */
  function ListToks(fs: seq<Factor>, ts: seq<Tok>): seq<Tok>
    requires fs != []
  {
    if |fs| == 1 then FactorToks(fs[0], ts) else FactorToks(fs[0], [TOpr(Oper(And))] + ListToks(fs[1..], ts))
  }

  lemma {:induction false} ListIsChain(c: Chain, i: nat, ts: seq<Tok>)
    requires i <= |c.tail|
    ensures MoreFactors(c, i, ts) == if i == |c.tail| then ts else [TOpr(Oper(And))] + ListToks(c.tail[i..], ts)
    decreases |c.tail| - i
  {
    hide FactorToks;
    if i < |c.tail| {
      ListIsChain(c, i + 1, ts);
      assert c.tail[i..][0] == c.tail[i] && c.tail[i..][1..] == c.tail[i + 1..];
    }
  }

  lemma ChainOfToks(e: Expr, ts: seq<Tok>)
    ensures ChainToks(ChainOf(e), ts) == ListToks(FactorsOf(e), ts)
  {
    hide FactorToks, FactorsOf;
    ListIsChain(ChainOf(e), 0, ts);
    assert ChainOf(e).tail[0..] == FactorsOf(e)[1..];
  }

  lemma {:induction false} ListJoin(fs: seq<Factor>, gs: seq<Factor>, ts: seq<Tok>)
    requires fs != [] && gs != []
    ensures ListToks(fs + gs, ts) == ListToks(fs, [TOpr(Oper(And))] + ListToks(gs, ts))
    decreases |fs|
  {
    hide FactorToks;
    if |fs| == 1 {
      assert (fs + gs)[1..] == gs;
    } else {
      ListJoin(fs[1..], gs, ts);
      assert (fs + gs)[1..] == fs[1..] + gs;
    }
  }

  lemma {:induction false} ToksOfFactors(e: Expr, ts: seq<Tok>)
    ensures TextToks(e, false, ts) == ListToks(FactorsOf(e), ts)
    decreases e, 1
  {
    match e
    case Leaf(n) => assert BangToks(0, [TVal(n)] + ts) == [TVal(n)] + ts;
    case Not(f) =>
      if f.Leaf? {
        assert BangToks(1, [TVal(f.n)] + ts) == [TOpr(Bang)] + BangToks(0, [TVal(f.n)] + ts);
      } else {
        var inner := [TOpen] + QueryToks(QueryOf(f), [TClose] + ts);
        assert BangToks(1, inner) == [TOpr(Bang)] + BangToks(0, inner);
        ToksOfQuery(f, [TClose] + ts);
      }
    case Join(op, l, r) =>
      if op == And {
        ToksOfFactors(r, ts);
        ToksOfFactors(l, [TOpr(Oper(And))] + TextToks(r, false, ts));
        ListJoin(FactorsOf(l), FactorsOf(r), ts);
      } else {
        ToksOfQuery(e, [TClose] + ts);
      }
  }

  /** The printed tokens are those of the query. */
  lemma {:induction false} ToksOfQuery(e: Expr, ts: seq<Tok>)
    ensures TextToks(e, true, ts) == QueryToks(QueryOf(e), ts)
    decreases e, if e.Join? && e.op == Or then 0 else 2
  {
    hide ListToks, FactorsOf, FactorToks;
    if e.Join? && e.op == Or {
      var q := QueryOf(e);
      ChainOfToks(e.r, ts);
      ToksOfFactors(e.r, ts);
      var more := [TOpr(Oper(Or))] + TextToks(e.r, false, ts);
      ChainOfToks(e.l, more);
      ToksOfFactors(e.l, more);
      assert MoreChains(q, 1, ts) == ts;
    } else {
      ChainOfToks(e, ts);
      ToksOfFactors(e, ts);
      assert MoreChains(QueryOf(e), 0, ts) == ts;
      SameEitherWay(e, ts);
    }
  }

  lemma SameEitherWay(e: Expr, ts: seq<Tok>)
    requires !(e.Join? && e.op == Or)
    ensures TextToks(e, true, ts) == TextToks(e, false, ts)
  {
  }

  predicate AllMean(fs: seq<Factor>, v: int -> bool) {
    forall i :: 0 <= i < |fs| ==> FactorMeans(fs[i], v)
  }

  lemma ChainOfMeans(e: Expr, v: int -> bool)
    ensures ChainMeans(ChainOf(e), v) <==> AllMean(FactorsOf(e), v)
  {
    hide FactorMeans, FactorsOf;
    var fs, c := FactorsOf(e), ChainOf(e);
    if ChainMeans(c, v) {
      forall i | 0 <= i < |fs| ensures FactorMeans(fs[i], v) { if i > 0 { assert c.tail[i - 1] == fs[i]; } }
    }
  }

  lemma AllMeanJoin(fs: seq<Factor>, gs: seq<Factor>, v: int -> bool)
    ensures AllMean(fs + gs, v) <==> AllMean(fs, v) && AllMean(gs, v)
  {
    hide FactorMeans;
    var hs := fs + gs;
    if AllMean(hs, v) {
      forall i | 0 <= i < |fs| ensures FactorMeans(fs[i], v) { assert hs[i] == fs[i]; }
      forall i | 0 <= i < |gs| ensures FactorMeans(gs[i], v) { assert hs[|fs| + i] == gs[i]; }
    }
  }

  /** The query printed means what the tree means. */
  lemma {:induction false} FactorsOfMean(e: Expr, v: int -> bool)
    ensures AllMean(FactorsOf(e), v) <==> Eval(e, v, true)
    decreases e, 1
  {
    match e
    case Leaf(n) => OneMeans(Lit(0, n), v);
    case Not(f) =>
      if f.Leaf? {
        OneMeans(Lit(1, f.n), v);
      } else {
        OneMeans(Group(1, QueryOf(f)), v);
        QueryOfMeans(f, v);
      }
    case Join(op, l, r) =>
      if op == And {
        AllMeanJoin(FactorsOf(l), FactorsOf(r), v);
        FactorsOfMean(l, v);
        FactorsOfMean(r, v);
      } else {
        OneMeans(Group(0, QueryOf(e)), v);
        QueryOfMeans(e, v);
      }
  }

  lemma OneMeans(f: Factor, v: int -> bool)
    ensures AllMean([f], v) <==> FactorMeans(f, v)
  {
    assert [f][0] == f;
  }

  lemma {:induction false} QueryOfMeans(e: Expr, v: int -> bool)
    ensures QueryMeans(QueryOf(e), v) <==> Eval(e, v, true)
    decreases e, if e.Join? && e.op == Or then 0 else 2
  {
    hide AllMean, FactorsOf, ChainMeans;
    if e.Join? && e.op == Or {
      ChainOfMeans(e.l, v);
      ChainOfMeans(e.r, v);
      FactorsOfMean(e.l, v);
      FactorsOfMean(e.r, v);
      assert QueryOf(e).rest[0] == ChainOf(e.r);
    } else {
      ChainOfMeans(e, v);
      FactorsOfMean(e, v);
    }
  }

  predicate AllShallow(fs: seq<Factor>) {
    forall i :: 0 <= i < |fs| ==> Shallow(fs[i])
  }

  predicate Shallow(f: Factor) {
    FactorFits(f, 0, 0, false) && FactorFits(f, 1, 0, false) && FactorFits(f, 0, 1, false) && FactorFits(f, 1, 1, false)
  }

  /** What fits before other factors fits at the end. */
  lemma ShallowFits(f: Factor, pending: nat, below: nat, last: bool)
    requires Shallow(f) && pending <= 1 && below <= 1
    ensures FactorFits(f, pending, below, last)
  {
  }

  lemma ShallowChain(c: Chain, below: nat, last: bool)
    requires Shallow(c.head) && AllShallow(c.tail) && below <= 1
    ensures ChainFits(c, below, last)
  {
    hide Shallow, FactorFits;
    ShallowFits(c.head, 0, below, last && c.tail == []);
    forall i | 0 <= i < |c.tail|
      ensures FactorFits(c.tail[i], 1, below, last && i == |c.tail| - 1)
    {
      ShallowFits(c.tail[i], 1, below, last && i == |c.tail| - 1);
    }
  }

  /** No printed query has too many operators pending. */
  lemma {:induction false} FactorsOfFit(e: Expr)
    requires NegatesIntegers(e)
    ensures AllShallow(FactorsOf(e))
    decreases e, 1
  {
    match e
    case Leaf(_) =>
    case Not(_) =>
    case Join(op, l, r) =>
      if op == And {
        FactorsOfFit(l);
        FactorsOfFit(r);
      } else {
        QueryOfFits(e);
      }
  }

  lemma {:induction false} QueryOfFits(e: Expr)
    requires NegatesIntegers(e)
    ensures QueryFits(QueryOf(e))
    decreases e, if e.Join? && e.op == Or then 0 else 2
  {
    hide FactorsOf, Shallow, ChainFits;
    if e.Join? && e.op == Or {
      FactorsOfFit(e.l);
      FactorsOfFit(e.r);
      ShallowChain(ChainOf(e.l), 0, false);
      ShallowChain(ChainOf(e.r), 1, true);
    } else {
      FactorsOfFit(e);
      ShallowChain(ChainOf(e), 0, true);
    }
  }

  // ---------------------------------------------------------------- the round trip

  /** bqarr_out */
  method BqarrOut(items: seq<Item>, ghost e: Expr) returns (out: string)
    requires Tokens(items) == Postfix(e)
    ensures out == Text(e, true)
  {
    var cur';
    assert items[0..|items|] == items && |items| == |Tokens(items)| == Size(e) > 0;
    out, cur' := Infix(items, |items| - 1, true, e);
  }

  /**
   * The first half of bqarr_in, for every text: it comes to an end only for the text of a query, and the
   * text of a query is no syntax error. What is pushed then is what its tokens are compiled to.
   */
  method ReadText(buf: string) returns (r: Status, str: seq<Token>)
    requires NoZero(buf)
    ensures r == End <==> exists q :: IsTextOf(buf, q) && Compiled(QueryToks(q, []), [], []).Done?
    ensures r == Syntax ==> !exists q :: IsTextOf(buf, q)
    ensures (exists q :: IsTextOf(buf, q)) ==> r != Syntax
    ensures forall q :: IsTextOf(buf, q) && r == End ==> Compiled(QueryToks(q, []), [], []) == Done(str, [])
    ensures forall q :: IsTextOf(buf, q) && QueryFits(q) ==> r == End && str == Postfix(QueryTree(q))
    ensures forall q :: IsTextOf(buf, q) && Plain(q) && !QueryFits(q) ==> r == Complex
  {
    hide *;
    var state := new WorkState(buf);
    TokensToCome(state);
    TextsCompiled(buf);
    NoErrorIffQuery(buf);
    r := state.MakePol();
    str := state.str;
    forall q | IsTextOf(buf, q)
      ensures QueryFits(q) ==> r == End && str == Postfix(QueryTree(q))
      ensures Plain(q) && !QueryFits(q) ==> r == Complex
    {
      CompiledIffFits(q);
      if Plain(q) { PlainCompiled(q); }
    }
  }

  /** bqarr_in on the text of a query: its tokens are compiled by precedence and linked. */
  method BqarrIn(buf: string, ghost q: Query) returns (r: Status, items: seq<Item>)
    requires Lexed(buf, 0, WaitOperand, 0) == QueryToks(q, []) && (Plain(q) || QueryFits(q))
    ensures r == End <==> QueryFits(q)
    ensures r == End ==> items == Linked(QueryTree(q))
    ensures r != End ==> r == Complex
  {
    hide *;
    CompiledIffFits(q);
    if Plain(q) { PlainCompiled(q); }
    var state := new WorkState(buf);
    TokensToCome(state);
    r := state.MakePol();
    items := [];
    if r == End {
      var pos;
      items, pos := FinishQuery(state.str, QueryTree(q));
    }
  }

  lemma TokensToCome(state: WorkState)
    requires state.Valid()
    ensures state.Toks() == Lexed(state.buf, state.ptr, state.state, state.count)
  {
  }

  lemma {:induction false} PlainQueryOf(e: Expr)
    requires NegatesIntegers(e)
    ensures Plain(QueryOf(e))
    decreases e, if e.Join? && e.op == Or then 0 else 2
  {
    hide FactorsOf, PlainFactor;
    if e.Join? && e.op == Or {
      PlainFactorsOf(e.l);
      PlainFactorsOf(e.r);
      PlainChainOf(e.l);
      PlainChainOf(e.r);
    } else {
      PlainFactorsOf(e);
      PlainChainOf(e);
    }
  }

  lemma PlainChainOf(e: Expr)
    requires forall i :: 0 <= i < |FactorsOf(e)| ==> PlainFactor(FactorsOf(e)[i])
    ensures PlainChain(ChainOf(e))
  {
    hide FactorsOf, PlainFactor;
  }

  lemma {:induction false} PlainFactorsOf(e: Expr)
    requires NegatesIntegers(e)
    ensures forall i :: 0 <= i < |FactorsOf(e)| ==> PlainFactor(FactorsOf(e)[i])
    decreases e, 1
  {
    match e
    case Leaf(_) =>
    case Not(_) =>
    case Join(op, l, r) =>
      if op == And {
        PlainFactorsOf(l);
        PlainFactorsOf(r);
      } else {
        PlainQueryOf(e);
      }
  }

  /** Printing a query and reading it again gives a query with the same meaning. */
  method RoundTrip(items: seq<Item>, ghost e: Expr) returns (r: Status, back: seq<Item>, ghost e': Expr)
    requires Tokens(items) == Postfix(e) && NegatesIntegers(e)
    ensures r == End && back == Linked(e')
    ensures forall v: int -> bool :: Eval(e', v, true) == Eval(e, v, true)
  {
    hide *;
    var text := BqarrOut(items, e);
    ghost var q := QueryOf(e);
    PlainQueryOf(e);
    QueryOfFits(e);
    WholeText(text, e);
    LexText(text, 0, e, true, 0);
    LexedEnd(text);
    ToksOfQuery(e, []);
    r, back := BqarrIn(text, q);
    e' := QueryTree(q);
    forall v: int -> bool ensures Eval(e', v, true) == Eval(e, v, true) {
      QueryTreeMeans(q, v);
      QueryOfMeans(e, v);
    }
  }

  lemma WholeText(text: string, e: Expr)
    requires text == Text(e, true)
    ensures Has(text, 0, Text(e, true)) && Ends(text, 0 + |Text(e, true)|, 0)
  {
    assert text[0..|text|] == text;
  }

  lemma LexedEnd(text: string)
    ensures Lexed(text, |text|, WaitOperator, 0) == []
  {
  }
}
