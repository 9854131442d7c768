/**
 * The boolean queries of contrib/intarray/_int_bool.c as the index uses them: postfix items
 * in an array, each operator linked back to its left operand, and their evaluation.
 */
module BoolQuery {
  import opened Basics
  import opened Machine
  import opened IntCover
  import opened IntTool
  import opened BitSign
  import opened IntSign

  datatype Binary = And | Or

  datatype Token = Val(n: int) | Bang | Oper(op: Binary)

  /** ITEM: left is the offset from an operator to its left operand, a 16-bit integer. */
  datatype Item = Item(token: Token, left: int)

  datatype Expr = Leaf(n: int) | Not(e: Expr) | Join(op: Binary, l: Expr, r: Expr)

  function Apply(op: Binary, a: bool, b: bool): bool {
    match op
    case And => a && b
    case Or => a || b
  }

  /** The meaning of a query over the integers v holds of; without calcnot a negation is true. */
  function Eval(e: Expr, v: int -> bool, calcnot: bool): bool {
    match e
    case Leaf(n) => v(n)
    case Not(f) => calcnot ==> !Eval(f, v, calcnot)
    case Join(op, l, r) => Apply(op, Eval(l, v, calcnot), Eval(r, v, calcnot))
  }

  function Postfix(e: Expr): (s: seq<Token>)
    ensures |s| > 0
  {
    match e
    case Leaf(n) => [Val(n)]
    case Not(f) => Postfix(f) + [Bang]
    case Join(op, l, r) => Postfix(l) + Postfix(r) + [Oper(op)]
  }

  function Size(e: Expr): nat {
    |Postfix(e)|
  }

  // ---------------------------------------------------------------- stack evaluation

  /** One token of postfix evaluation; the stack's top is its last element. */
  function Step(t: Token, st: seq<bool>, v: int -> bool, calcnot: bool): Option<seq<bool>> {
    var n := |st|;
    match t
    case Val(k) => Some(st + [v(k)])
    case Bang => if n < 1 then None else Some(st[..n - 1] + [calcnot ==> !st[n - 1]])
    case Oper(op) => if n < 2 then None else Some(st[..n - 2] + [Apply(op, st[n - 2], st[n - 1])])
  }

  function StackRun(s: seq<Token>, st: seq<bool>, v: int -> bool, calcnot: bool): Option<seq<bool>> {
    if s == [] then Some(st) else
      match Step(s[0], st, v, calcnot)
      case None => None
      case Some(st') => StackRun(s[1..], st', v, calcnot)
  }

  /** The value a postfix array has under stack evaluation, if it is well formed. */
  function StackValue(s: seq<Token>, v: int -> bool, calcnot: bool): Option<bool> {
    match StackRun(s, [], v, calcnot)
    case None => None
    case Some(st) => if |st| == 1 then Some(st[0]) else None
  }

  lemma StackFirst(t: Token, s: seq<Token>, st: seq<bool>, v: int -> bool, calcnot: bool)
    ensures StackRun([t] + s, st, v, calcnot) == (match Step(t, st, v, calcnot)
      case None => None
      case Some(st') => StackRun(s, st', v, calcnot))
  {
    assert ([t] + s)[1..] == s;
  }

  lemma StackLast(st: seq<bool>, a: bool, b: bool, op: Binary, v: int -> bool, calcnot: bool)
    ensures Step(Bang, st + [a], v, calcnot) == Some(st + [calcnot ==> !a])
    ensures Step(Oper(op), st + [a] + [b], v, calcnot) == Some(st + [Apply(op, a, b)])
  {
    assert (st + [a])[..|st|] == st && (st + [a] + [b])[..|st|] == st;
  }

  lemma PostfixFirst(e: Expr, s: seq<Token>)
    ensures Postfix(e) + s == match e
      case Leaf(n) => [Val(n)] + s
      case Not(f) => Postfix(f) + ([Bang] + s)
      case Join(op, l, r) => Postfix(l) + (Postfix(r) + ([Oper(op)] + s))
  {
  }

  /** A postfix tree is evaluated to its meaning, on top of whatever is on the stack. */
  lemma {:induction false} TreeOnStack(e: Expr, s: seq<Token>, st: seq<bool>, v: int -> bool, calcnot: bool)
    ensures StackRun(Postfix(e) + s, st, v, calcnot) == StackRun(s, st + [Eval(e, v, calcnot)], v, calcnot)
    decreases e
  {
    hide Postfix, StackRun;
    PostfixFirst(e, s);
    match e
    case Leaf(n) =>
      StackFirst(Val(n), s, st, v, calcnot);
    case Not(f) =>
      TreeOnStack(f, [Bang] + s, st, v, calcnot);
      var a := Eval(f, v, calcnot);
      StackLast(st, a, a, And, v, calcnot);
      StackFirst(Bang, s, st + [a], v, calcnot);
    case Join(op, l, r) =>
      var a, b := Eval(l, v, calcnot), Eval(r, v, calcnot);
      TreeOnStack(l, Postfix(r) + ([Oper(op)] + s), st, v, calcnot);
      TreeOnStack(r, [Oper(op)] + s, st + [a], v, calcnot);
      StackLast(st, a, b, op, v, calcnot);
      StackFirst(Oper(op), s, st + [a] + [b], v, calcnot);
  }

  function Flat(es: seq<Expr>): seq<Token> {
    if es == [] then [] else Flat(es[..|es| - 1]) + Postfix(es[|es| - 1])
  }

  lemma FlatLast(es: seq<Expr>, e: Expr)
    ensures Flat(es + [e]) == Flat(es) + Postfix(e)
  {
    assert (es + [e])[..|es|] == es;
  }

  /** One token of postfix reading: the trees on the stack and the tokens read stay in step. */
  lemma TreeStep(t: Token, es: seq<Expr>, st: seq<bool>, v: int -> bool, calcnot: bool) returns (es': seq<Expr>)
    requires |es| == |st| && Step(t, st, v, calcnot).Some?
    ensures |es'| == |Step(t, st, v, calcnot).value| && Flat(es') == Flat(es) + [t]
  {
    hide Flat;
    var n := |es|;
    match t
    case Val(k) =>
      es' := es + [Leaf(k)];
      FlatLast(es, Leaf(k));
    case Bang =>
      var b, f := es[..n - 1], es[n - 1];
      assert es == b + [f];
      es' := b + [Not(f)];
      FlatLast(b, f);
      FlatLast(b, Not(f));
    case Oper(op) =>
      var b, l, r := es[..n - 2], es[n - 2], es[n - 1];
      assert es == b + [l] + [r];
      es' := b + [Join(op, l, r)];
      FlatLast(b, l);
      FlatLast(b + [l], r);
      FlatLast(b, Join(op, l, r));
  }

  /** Every array that stack evaluation accepts is the postfix form of a tree. */
  lemma {:induction false} TreesOnStack(s: seq<Token>, es: seq<Expr>, st: seq<bool>, v: int -> bool, calcnot: bool)
    returns (fs: seq<Expr>)
    requires |es| == |st| && StackRun(s, st, v, calcnot).Some?
    ensures |fs| == |StackRun(s, st, v, calcnot).value| && Flat(fs) == Flat(es) + s
    decreases |s|
  {
    hide Flat;
    fs := es;
    if s != [] {
      var es' := TreeStep(s[0], es, st, v, calcnot);
      assert s == [s[0]] + s[1..];
      fs := TreesOnStack(s[1..], es', Step(s[0], st, v, calcnot).value, v, calcnot);
    }
  }

  ghost predicate IsPostfix(s: seq<Token>) {
    exists e :: Postfix(e) == s
  }

  /** Stack evaluation gives a value exactly for the postfix forms, and it is the tree's meaning. */
  lemma StackAcceptsPostfix(s: seq<Token>, v: int -> bool, calcnot: bool)
    ensures StackValue(s, v, calcnot).Some? <==> IsPostfix(s)
    ensures forall e :: Postfix(e) == s ==> StackValue(s, v, calcnot) == Some(Eval(e, v, calcnot))
  {
    forall e | Postfix(e) == s ensures StackValue(s, v, calcnot) == Some(Eval(e, v, calcnot)) {
      TreeOnStack(e, [], [], v, calcnot);
      assert Postfix(e) + [] == s;
    }
    if StackValue(s, v, calcnot).Some? {
      var fs := TreesOnStack(s, [], [], v, calcnot);
      assert |fs| == 1;
      FlatLast([], fs[0]);
      assert fs == [] + [fs[0]];
      assert Flat([]) == [] && [] + s == s && [] + Postfix(fs[0]) == Postfix(fs[0]);
      assert Postfix(fs[0]) == s;
    }
  }

  /** A postfix array is that of one tree only. */
  lemma {:induction false} OnePostfixTree(d: Expr, e: Expr)
    requires Postfix(d) == Postfix(e)
    ensures d == e
  {
    OnePrefixTree(d, e, [], []);
  }

  lemma {:induction false} OnePrefixTree(d: Expr, e: Expr, p: seq<Token>, q: seq<Token>)
    requires p + Postfix(d) == q + Postfix(e)
    ensures d == e && p == q
    decreases d
  {
    var s := p + Postfix(d);
    assert s[|s| - 1] == Postfix(d)[|Postfix(d)| - 1] == Postfix(e)[|Postfix(e)| - 1];
    match d
    case Leaf(n) =>
      assert s[..|s| - 1] == p == q;
    case Not(f) =>
      assert s[..|s| - 1] == p + Postfix(f) == q + Postfix(e.e);
      OnePrefixTree(f, e.e, p, q);
    case Join(op, l, r) =>
      assert s[..|s| - 1] == (p + Postfix(l)) + Postfix(r) == (q + Postfix(e.l)) + Postfix(e.r);
      OnePrefixTree(r, e.r, p + Postfix(l), q + Postfix(e.l));
      OnePrefixTree(l, e.l, p, q);
  }

  // ---------------------------------------------------------------- linking

  function Tokens(items: seq<Item>): (s: seq<Token>)
    ensures |s| == |items|
    ensures forall i :: 0 <= i < |s| ==> s[i] == items[i].token
  {
    seq(|items|, i requires 0 <= i < |items| => items[i].token)
  }

  /** The array that findoprnd makes of a query. */
  function Linked(e: Expr): (s: seq<Item>)
    ensures Tokens(s) == Postfix(e)
  {
    match e
    case Leaf(n) => [Item(Val(n), 0)]
    case Not(f) => Linked(f) + [Item(Bang, -1)]
    case Join(op, l, r) => Linked(l) + Linked(r) + [Item(Oper(op), Wrap16(-1 - Size(r)))]
  }

  lemma TokensSlice(s: seq<Item>, lo: nat, hi: nat)
    requires lo <= hi <= |s|
    ensures Tokens(s[lo..hi]) == Tokens(s)[lo..hi]
  {
  }

  lemma PostfixOf(e: Expr)
    ensures Size(e) == |Postfix(e)|
    ensures Postfix(e) == match e
      case Leaf(n) => [Val(n)]
      case Not(f) => Postfix(f) + [Bang]
      case Join(op, l, r) => Postfix(l) + Postfix(r) + [Oper(op)]
  {
  }

  lemma JoinSplits(t: seq<Token>, e: Expr)
    requires e.Join? && t == Postfix(e)
    ensures |t| == Size(e.l) + Size(e.r) + 1 && t[|t| - 1] == Oper(e.op)
    ensures t[..Size(e.l)] == Postfix(e.l) && t[Size(e.l)..|t| - 1] == Postfix(e.r)
  {
  }

  lemma SubSlice<T>(t: seq<T>, lo: nat, hi: nat, a: nat, b: nat)
    requires lo <= a <= b <= hi <= |t|
    ensures t[lo..hi][a - lo..b - lo] == t[a..b]
  {
    var u := t[lo..hi];
    assert forall i :: 0 <= i < b - a ==> u[a - lo..b - lo][i] == t[a..b][i];
  }

  lemma SliceSplits(s: seq<Item>, e: Expr, lo: nat, hi: nat)
    requires lo < hi <= |s| && Tokens(s[lo..hi]) == Postfix(e)
    ensures hi - lo == Size(e)
    ensures s[hi - 1].token == match e case Leaf(n) => Val(n) case Not(_) => Bang case Join(op, _, _) => Oper(op)
    ensures e.Not? ==> lo < hi - 1 && Tokens(s[lo..hi - 1]) == Postfix(e.e)
    ensures e.Join? ==> lo < hi - 1 - Size(e.r) && Tokens(s[hi - 1 - Size(e.r)..hi - 1]) == Postfix(e.r)
    ensures e.Join? ==> Tokens(s[lo..hi - 1 - Size(e.r)]) == Postfix(e.l)
  {
    hide *;
    var u := s[lo..hi];
    var t := Tokens(u);
    assert t[|t| - 1] == s[hi - 1].token;
    PostfixOf(e);
    match e
    case Leaf(_) =>
    case Not(f) =>
      PostfixOf(f);
      TokensSlice(u, 0, |u| - 1);
      SubSlice(s, lo, hi, lo, hi - 1);
      assert t[..|u| - 1] == Postfix(f);
    case Join(op, l, r) =>
      JoinSplits(t, e);
      PostfixOf(l);
      var m := hi - 1 - Size(r);
      TokensSlice(u, 0, m - lo);
      TokensSlice(u, m - lo, |u| - 1);
      SubSlice(s, lo, hi, lo, m);
      SubSlice(s, lo, hi, m, hi - 1);
  }

  /** The items with the subquery that ends before hi linked. */
  ghost function LinkedPart(s: seq<Item>, e: Expr, hi: nat): seq<Item>
    requires Size(e) <= hi <= |s|
  {
    s[..hi - Size(e)] + Linked(e) + s[hi..]
  }

  lemma LinkedSize(e: Expr)
    ensures |Linked(e)| == Size(e) > 0
  {
    assert |Tokens(Linked(e))| == Size(e);
  }

  lemma PartKeeps(s: seq<Item>, e: Expr, hi: nat)
    requires Size(e) <= hi <= |s|
    ensures |LinkedPart(s, e, hi)| == |s|
    ensures forall i :: 0 <= i < hi - Size(e) || hi <= i < |s| ==> LinkedPart(s, e, hi)[i] == s[i]
  {
    LinkedSize(e);
  }

  lemma LeafPart(s: seq<Item>, e: Expr, hi: nat)
    requires e.Leaf? && 1 <= hi <= |s|
    ensures Size(e) == 1 && LinkedPart(s, e, hi) == s[hi - 1 := Item(Val(e.n), 0)]
  {
  }

  lemma NotPart(s: seq<Item>, e: Expr, hi: nat)
    requires e.Not? && Size(e) <= hi <= |s|
    ensures Size(e) == Size(e.e) + 1
    ensures LinkedPart(s[hi - 1 := Item(Bang, -1)], e.e, hi - 1) == LinkedPart(s, e, hi)
  {
    hide Postfix;
    PostfixOf(e);
    LinkedSize(e.e);
  }

  lemma PartTwice(s: seq<Item>, a: seq<Item>, b: seq<Item>, x: Item, hi: nat)
    requires |a| + |b| + 1 <= hi <= |s|
    ensures var m := hi - 1 - |b|;
      var t := s[..m] + b + s[hi - 1..];
      |t| == |s| && t[hi - 1 := x][..m - |a|] + a + t[hi - 1 := x][m..] == s[..m - |a|] + (a + b + [x]) + s[hi..]
  {
    var m := hi - 1 - |b|;
    var t := s[..m] + b + s[hi - 1..];
    var t' := t[hi - 1 := x];
    assert t'[..m - |a|] == s[..m - |a|];
    assert t'[m..] == b + [x] + s[hi..];
  }

  lemma JoinPart(s: seq<Item>, e: Expr, hi: nat)
    requires e.Join? && Size(e) <= hi <= |s|
    ensures Size(e) == Size(e.l) + Size(e.r) + 1
    ensures var t := LinkedPart(s, e.r, hi - 1);
      && |t| == |s|
      && LinkedPart(t[hi - 1 := Item(Oper(e.op), Wrap16(-1 - Size(e.r)))], e.l, hi - 1 - Size(e.r)) == LinkedPart(s, e, hi)
  {
    hide Postfix, Wrap16, Size, Linked;
    LinkedOf(e);
    LinkedSize(e.r);
    LinkedSize(e.l);
    PartTwice(s, Linked(e.l), Linked(e.r), Item(Oper(e.op), Wrap16(-1 - Size(e.r))), hi);
  }

  /** findoprnd: links the operators of the subquery that ends at pos; afterwards pos is before it. */
  method FindOprnd(ptr: array<Item>, pos: int, ghost e: Expr) returns (pos': int)
    requires Size(e) - 1 <= pos < ptr.Length
    requires Tokens(ptr[pos + 1 - Size(e)..pos + 1]) == Postfix(e)
    modifies ptr
    ensures pos' == pos - Size(e)
    ensures ptr[..] == LinkedPart(old(ptr[..]), e, pos + 1)
    decreases e
  {
    hide *;
    ghost var s, hi := ptr[..], pos + 1;
    ghost var lo := hi - Size(e);
    LinkedSize(e);
    assert ptr[pos + 1 - Size(e)..pos + 1] == s[lo..hi];
    SliceSplits(s, e, lo, hi);
    if ptr[pos].token.Val? {
      LeafPart(s, e, hi);
      ptr[pos] := ptr[pos].(left := 0);
      pos' := pos - 1;
    } else if ptr[pos].token.Bang? {
      NotPart(s, e, hi);
      ptr[pos] := ptr[pos].(left := -1);
      pos' := pos - 1;
      assert ptr[..] == s[pos := Item(Bang, -1)];
      assert ptr[lo..pos] == s[lo..pos];
      pos' := FindOprnd(ptr, pos', e.e);
    } else {
      JoinPart(s, e, hi);
      PartKeeps(s, e.r, pos);
      var tmp := pos;
      pos' := pos - 1;
      ghost var m := tmp - Size(e.r);
      assert ptr[m..tmp] == s[m..tmp];
      pos' := FindOprnd(ptr, pos', e.r);
      ghost var t := ptr[..];
      ptr[tmp] := ptr[tmp].(left := Wrap16(pos' - tmp));
      assert ptr[..] == t[tmp := Item(Oper(e.op), Wrap16(-1 - Size(e.r)))];
      assert ptr[lo..m] == s[lo..m];
      pos' := FindOprnd(ptr, pos', e.l);
    }
  }

  // ---------------------------------------------------------------- evaluation over the items

  /** Item i and the links below it form the tree e. */
  ghost predicate Points(items: seq<Item>, i: int, e: Expr)
    decreases e
  {
    && 0 <= i < |items|
    && match e
      case Leaf(n) => items[i].token == Val(n)
      case Not(f) => items[i].token == Bang && Points(items, i - 1, f)
      case Join(op, l, r) =>
        && items[i].token == Oper(op)
        && Points(items, i - 1, r)
        && items[i].left == -1 - Size(r)
        && Points(items, i + items[i].left, l)
  }

  /** Every right operand is short enough for its offset to be kept in 16 bits. */
  predicate OffsetsFit(e: Expr) {
    match e
    case Leaf(_) => true
    case Not(f) => OffsetsFit(f)
    case Join(_, l, r) => Size(r) <= 0x7fff && OffsetsFit(l) && OffsetsFit(r)
  }

  /** The links that findoprnd stores lead to the operands exactly when the offsets fit. */
  lemma {:induction false} LinksHoldIffOffsetsFit(p: seq<Item>, e: Expr, q: seq<Item>)
    ensures Points(p + Linked(e) + q, |p| + Size(e) - 1, e) <==> OffsetsFit(e)
    decreases e
  {
    hide *;
    LinkedOf(e);
    LinkedSize(e);
    var s := p + Linked(e) + q;
    PointsOf(s, |p| + Size(e) - 1, e);
    FitsOf(e);
    match e
    case Leaf(_) =>
    case Not(f) =>
      LinkedSize(f);
      AppendFour(p, Linked(f), [], [Item(Bang, -1)], q);
      LinksHoldIffOffsetsFit(p, f, [Item(Bang, -1)] + q);
    case Join(op, l, r) =>
      LinkedSize(l);
      LinkedSize(r);
      var x := Item(Oper(op), Wrap16(-1 - Size(r)));
      AppendFour(p, Linked(l), Linked(r), [x], q);
      OffsetKept(Size(r));
      LinksHoldIffOffsetsFit(p + Linked(l), r, [x] + q);
      LinksHoldIffOffsetsFit(p, l, Linked(r) + [x] + q);
  }

  lemma PointsOf(items: seq<Item>, i: int, e: Expr)
    requires 0 <= i < |items|
    ensures Points(items, i, e) <==> match e
      case Leaf(n) => items[i].token == Val(n)
      case Not(f) => items[i].token == Bang && Points(items, i - 1, f)
      case Join(op, l, r) =>
        && items[i].token == Oper(op) && items[i].left == -1 - Size(r)
        && Points(items, i - 1, r) && Points(items, i - 1 - Size(r), l)
  {
  }

  lemma FitsOf(e: Expr)
    ensures OffsetsFit(e) <==> match e
      case Leaf(_) => true
      case Not(f) => OffsetsFit(f)
      case Join(_, l, r) => Size(r) <= 0x7fff && OffsetsFit(l) && OffsetsFit(r)
  {
  }

  lemma OffsetKept(n: nat)
    ensures Wrap16(-1 - n) == -1 - n <==> n <= 0x7fff
  {
  }

  lemma AppendFour(p: seq<Item>, a: seq<Item>, b: seq<Item>, x: seq<Item>, q: seq<Item>)
    requires |x| == 1
    ensures var s := p + (a + b + x) + q;
      && s == (p + a) + b + (x + q) && s == p + a + (b + x + q)
      && (b == [] ==> a + b + x == a + x && s == p + a + (x + q))
      && s[|p| + |a| + |b|] == x[0]
  {
  }

  lemma LinkedOf(e: Expr)
    ensures Size(e) == match e case Leaf(_) => 1 case Not(f) => Size(f) + 1 case Join(_, l, r) => Size(l) + Size(r) + 1
    ensures Linked(e) == match e
      case Leaf(n) => [Item(Val(n), 0)]
      case Not(f) => Linked(f) + [Item(Bang, -1)]
      case Join(op, l, r) => Linked(l) + Linked(r) + [Item(Oper(op), Wrap16(-1 - Size(r)))]
  {
  }

  /** What the leaves are checked against: a sorted array, a signature, or an answer for each item. */
  datatype Check = InArray(key: seq<int>) | InSign(sign: seq<bv8>) | InMap(mapped: seq<bool>)

  ghost predicate CheckOk(c: Check, items: seq<Item>) {
    match c
    case InArray(key) => Sorted(key)
    case InSign(sign) => |sign| == SIGLEN
    case InMap(mapped) => |mapped| == |items|
  }

  ghost predicate CheckAt(c: Check, items: seq<Item>, i: nat)
    requires i < |items| && items[i].token.Val? && CheckOk(c, items)
  {
    match c
    case InArray(key) => items[i].token.n in key
    case InSign(sign) => GetBit(sign, HashVal(items[i].token.n))
    case InMap(mapped) => mapped[i]
  }

  /** The leaves are answered as v says. */
  ghost predicate Answers(c: Check, items: seq<Item>, v: int -> bool)
    requires CheckOk(c, items)
  {
    forall i :: 0 <= i < |items| && items[i].token.Val? ==> (CheckAt(c, items, i) <==> v(items[i].token.n))
  }

  /** checkcondition_arr, checkcondition_bit and checkcondition_gin. */
  method CheckCondition(c: Check, items: seq<Item>, i: nat, ghost v: int -> bool) returns (r: bool)
    requires i < |items| && items[i].token.Val? && CheckOk(c, items) && Answers(c, items, v)
    ensures r == v(items[i].token.n)
  {
    assert CheckAt(c, items, i) <==> v(items[i].token.n);
    match c
    case InArray(key) => r := CheckConditionArr(key, items[i].token.n);
    case InSign(sign) => r := GetBit(sign, HashVal(items[i].token.n));
    case InMap(mapped) => r := mapped[i];
  }

  /** execute: follows the links from item cur; the right operand is skipped when the left one decides. */
  method Execute(items: seq<Item>, cur: int, c: Check, calcnot: bool, ghost e: Expr, ghost v: int -> bool)
    returns (r: bool)
    requires Points(items, cur, e) && CheckOk(c, items) && Answers(c, items, v)
    ensures r == Eval(e, v, calcnot)
    decreases e
  {
    hide CheckOk, Answers, Size;
    if items[cur].token.Val? {
      r := CheckCondition(c, items, cur, v);
    } else if items[cur].token.Bang? {
      if calcnot {
        r := Execute(items, cur - 1, c, calcnot, e.e, v);
        r := !r;
      } else {
        r := true;
      }
    } else if items[cur].token.op == And {
      r := Execute(items, cur + items[cur].left, c, calcnot, e.l, v);
      if r {
        r := Execute(items, cur - 1, c, calcnot, e.r, v);
      }
    } else {
      r := Execute(items, cur + items[cur].left, c, calcnot, e.l, v);
      if !r {
        r := Execute(items, cur - 1, c, calcnot, e.r, v);
      }
    }
  }

  /** A stored query, as the input function leaves it: the linked form of a tree whose offsets fit. */
  ghost predicate IsQuery(items: seq<Item>, e: Expr) {
    items == Linked(e) && OffsetsFit(e)
  }

  lemma QueryIs(items: seq<Item>, e: Expr)
    requires IsQuery(items, e)
    ensures items == Linked(e) && OffsetsFit(e)
  {
  }

  lemma QueryPoints(items: seq<Item>, e: Expr, v: int -> bool, calcnot: bool)
    requires IsQuery(items, e)
    ensures |items| == Size(e) > 0 && Points(items, |items| - 1, e)
    ensures StackValue(Tokens(items), v, calcnot) == Some(Eval(e, v, calcnot))
  {
    hide *;
    assert items == Linked(e) && OffsetsFit(e) by { QueryIs(items, e); }
    LinkedSize(e);
    LinksHoldIffOffsetsFit([], e, []);
    assert [] + Linked(e) + [] == Linked(e);
    StackAcceptsPostfix(Postfix(e), v, calcnot);
  }

  /** The second half of bqarr_in: the list that makepol left becomes an array and is linked. */
  method FinishQuery(str: seq<Token>, ghost e: Expr) returns (items: seq<Item>, pos: int)
    requires str == Postfix(e)
    ensures items == Linked(e) && pos == -1
  {
    var ptr := new Item[|str|](i requires 0 <= i < |str| => Item(str[i], 0));
    assert ptr[0..|str|] == ptr[..];
    assert Tokens(ptr[0..|str|]) == str;
    pos := FindOprnd(ptr, |str| - 1, e);
    LinkedSize(e);
    items := ptr[..];
  }

  /** The whole of a query: stack evaluation of its postfix form, over the integers of a sorted key. */
  method ExecConsistent(items: seq<Item>, key: seq<int>, calcnot: bool, ghost e: Expr) returns (r: bool)
    requires IsQuery(items, e) && Sorted(key)
    ensures r == Eval(e, n => n in key, calcnot)
    ensures StackValue(Tokens(items), n => n in key, calcnot) == Some(r)
  {
    hide IsQuery, Points, StackValue, Eval, Sorted;
    QueryPoints(items, e, n => n in key, calcnot);
    r := Execute(items, |items| - 1, InArray(key), calcnot, e, n => n in key);
  }

  /** signconsistent: the same over the hash bits of a signature. */
  method SignConsistent(items: seq<Item>, sign: seq<bv8>, calcnot: bool, ghost e: Expr) returns (r: bool)
    requires IsQuery(items, e) && |sign| == SIGLEN
    ensures r == Eval(e, n => |sign| == SIGLEN && GetBit(sign, HashVal(n)), calcnot)
  {
    hide IsQuery, Points, StackValue, Eval, Sorted;
    ghost var v := n => |sign| == SIGLEN && GetBit(sign, HashVal(n));
    QueryPoints(items, e, v, calcnot);
    r := Execute(items, |items| - 1, InSign(sign), calcnot, e, v);
  }

  /** boolop: an array satisfies the query; an empty array satisfies none. */
  method BoolOp(val: seq<int>, items: seq<Item>, ghost e: Expr) returns (r: bool)
    requires IsQuery(items, e)
    ensures r <==> val != [] && Eval(e, n => n in val, true)
  {
    if |val| == 0 { return false; }
    var key := Prepare(val);
    IncreasingSorted(key);
    hide *;
    r := ExecConsistent(items, key, true, e);
    SameEval(e, n => n in key, n => n in val, true);
  }

  lemma IncreasingSorted(key: seq<int>)
    requires Increasing(key)
    ensures Sorted(key)
  {
  }

  lemma {:induction false} SameEval(e: Expr, v: int -> bool, w: int -> bool, calcnot: bool)
    requires forall n :: v(n) == w(n)
    ensures Eval(e, v, calcnot) == Eval(e, w, calcnot)
  {
    match e
    case Leaf(_) =>
    case Not(f) => SameEval(f, v, w, calcnot);
    case Join(_, l, r) => SameEval(l, v, w, calcnot); SameEval(r, v, w, calcnot);
  }

  // ---------------------------------------------------------------- the inverted index

  /** The integers of the query's items, in order. */
  ghost function Values(items: seq<Item>): seq<int> {
    if items == [] then [] else
      var last := items[|items| - 1].token;
      Values(items[..|items| - 1]) + if last.Val? then [last.n] else []
  }

  lemma ValuesNone()
    ensures Values([]) == []
  {
  }

  lemma {:induction false} ValuesGrow(items: seq<Item>, i: nat)
    requires i < |items|
    ensures Values(items[..i + 1]) == Values(items[..i]) + if items[i].token.Val? then [items[i].token.n] else []
    ensures |Values(items[..i + 1])| <= |Values(items)|
    ensures forall j :: 0 <= j < |Values(items[..i + 1])| ==> Values(items[..i + 1])[j] == Values(items)[j]
    decreases |items|
  {
    assert items[..i + 1][..i] == items[..i];
    var n := |items| - 1;
    if i < n {
      ValuesGrow(items[..n], i);
      assert items[..n][..i + 1] == items[..i + 1];
    } else {
      assert items[..i + 1] == items;
    }
  }

  /** ginint4_queryextract for a boolean query. */
  method QueryExtract(items: seq<Item>) returns (res: seq<int>)
    ensures res == Values(items)
  {
    res := [];
    for i := 0 to |items|
      invariant res == Values(items[..i])
    {
      ValuesGrow(items, i);
      if items[i].token.Val? {
        res := res + [items[i].token.n];
      }
    }
    assert items[..|items|] == items;
  }

  /** ginconsistent: check holds the index's answer for each extracted integer, in their order. */
  method GinConsistent(items: seq<Item>, check: seq<bool>, ghost e: Expr, ghost v: int -> bool) returns (r: bool)
    requires IsQuery(items, e)
    requires |check| == |Values(items)| && forall j :: 0 <= j < |check| ==> check[j] == v(Values(items)[j])
    ensures r == Eval(e, v, true)
  {
    hide IsQuery, Points, StackValue, Eval, Values;
    QueryPoints(items, e, v, true);
    var mapped := new bool[|items|];
    var j := 0;
    assert items[..0] == [];
    ValuesNone();
    for i := 0 to |items|
      invariant j == |Values(items[..i])|
      invariant forall k :: 0 <= k < i && items[k].token.Val? ==> mapped[k] == v(items[k].token.n)
    {
      ValuesGrow(items, i);
      if items[i].token.Val? {
        mapped[i] := check[j];
        j := j + 1;
      }
    }
    r := Execute(items, |items| - 1, InMap(mapped[..]), true, e, v);
  }
}
