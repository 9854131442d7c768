/** The texts that are boolean queries of contrib/intarray, and what they are read as. */
module BoolGrammar {
  import opened Basics
  import opened CString
  import opened BoolQuery
  import opened BoolParse
  import opened BoolLex

  // ---------------------------------------------------------------- lexemes

  /** An integer is a sign, zeros and a decimal numeral, or a sign alone. */
  datatype Word = Numeral(neg: bool, zeros: nat, n: nat) | Dash | Mark(t: Token) | Open | Close

  datatype Spaced = Spaced(spaces: nat, w: Word)

  function Copies(c: char, n: nat): (s: string)
    ensures |s| == n && forall k :: 0 <= k < n ==> s[k] == c
  {
    seq(n, k => c)
  }

  function NumeralText(neg: bool, zeros: nat, n: nat): string {
    (if neg then "-" else "") + (Copies('0', zeros) + Decimal(n))
  }

  function WordText(w: Word): string {
    match w
    case Numeral(neg, zeros, n) => NumeralText(neg, zeros, n)
    case Dash => "-"
    case Mark(t) => if t == Bang then "!" else if t == Oper(And) then "&" else if t == Oper(Or) then "|" else "?"
    case Open => "("
    case Close => ")"
  }

  /** The token meant. */
  function Meant(w: Word): Tok {
    match w
    case Numeral(neg, _, n) => TVal(if neg then 0 - n else n)
    case Dash => TVal(0)
    case Mark(t) => TOpr(t)
    case Open => TOpen
    case Close => TClose
  }

  function SpacedText(x: Spaced): string {
    Copies(' ', x.spaces) + WordText(x.w)
  }

  /** Words with spaces before them, and spaces at the end. */
  function TextOf(xs: seq<Spaced>, end: nat): string {
    if xs == [] then Copies(' ', end) else SpacedText(xs[0]) + TextOf(xs[1..], end)
  }

  function ToksOf(xs: seq<Spaced>): (ts: seq<Tok>)
    ensures |ts| == |xs| && forall k :: 0 <= k < |xs| ==> ts[k] == Meant(xs[k].w)
  {
    seq(|xs|, k requires 0 <= k < |xs| => Meant(xs[k].w))
  }

  /** The text is the query's words in order. */
  ghost predicate IsTextOf(s: string, q: Query) {
    exists xs, end :: TextOf(xs, end) == s && ToksOf(xs) == QueryToks(q, [])
  }

  // ---------------------------------------------------------------- numerals

  lemma {:induction false} NumberOfZeros(zeros: nat, w: string)
    ensures Number(Copies('0', zeros) + w) == Number(w)
    decreases |w| + zeros
  {
    var z := Copies('0', zeros);
    if w != "" {
      var n := |w| - 1;
      assert (z + w)[..|z + w| - 1] == z + w[..n];
      NumberOfZeros(zeros, w[..n]);
    } else if zeros > 0 {
      assert z + "" == z && z[..zeros - 1] == Copies('0', zeros - 1) + "";
      NumberOfZeros(zeros - 1, "");
    } else {
      assert z + w == w;
    }
  }

  /** Every string of digits is zeros and the numeral of its number. */
  lemma {:induction false} DigitsBack(d: string) returns (zeros: nat, n: nat)
    requires d != "" && forall k :: 0 <= k < |d| ==> IsDigit(d[k])
    ensures d == Copies('0', zeros) + Decimal(n) && Number(d) == n
    decreases |d|
  {
    hide Decimal, Number, Copies, Digit;
    var front, c := d[..|d| - 1], d[|d| - 1];
    var v := (c - '0') as nat;
    assert d == front + [c];
    NumberMore(front, c);
    OneDigit(v);
    if front == "" {
      zeros, n := 0, v;
      NoCopies();
      assert "" + [c] == [c];
    } else {
      var z, k := DigitsBack(front);
      if k == 0 {
        zeros, n := z + 1, v;
        ZeroEnds(z);
      } else {
        zeros, n := z, 10 * k + v;
        DecimalMore(k, v);
        Append(Copies('0', z), Decimal(k), [c]);
      }
    }
  }

  lemma OneDigit(v: nat)
    requires v < 10
    ensures Decimal(v) == [Digit(v)] && Digit(v) == '0' + v as char
  {
  }

  lemma NoCopies()
    ensures Copies('0', 0) == "" && Number("") == 0
  {
  }

  lemma NumberMore(w: string, c: char)
    requires IsDigit(c)
    ensures Number(w + [c]) == 10 * Number(w) + (c - '0') as nat
  {
    assert (w + [c])[..|w|] == w;
  }

  lemma ZeroEnds(z: nat)
    ensures Copies('0', z) + Decimal(0) == Copies('0', z + 1)
  {
    assert Decimal(0) == "0";
  }

  lemma DecimalMore(k: nat, v: nat)
    requires k > 0 && v < 10
    ensures Decimal(10 * k + v) == Decimal(k) + [Digit(v)]
  {
    assert (10 * k + v) / 10 == k && (10 * k + v) % 10 == v;
  }

  lemma NumeralRead(neg: bool, zeros: nat, n: nat)
    ensures var w := NumeralText(neg, zeros, n);
      w != "" && (IsDigit(w[0]) || w[0] == '-') && (forall k :: 1 <= k < |w| ==> IsDigit(w[k])) && Atoi(w) == if neg then 0 - n else n
  {
    var d := Copies('0', zeros) + Decimal(n);
    NumberOfZeros(zeros, Decimal(n));
    NumberOfDecimal(n);
    var w := NumeralText(neg, zeros, n);
    if neg {
      assert w[1..] == d;
    } else {
      assert w == d;
    }
  }

  // ---------------------------------------------------------------- alternation

  /** Operands and operators alternate, and parentheses balance. */
  ghost predicate Alternates(ts: seq<Tok>, operand: bool, depth: nat) {
    if ts == [] then !operand && depth == 0 else
      match ts[0]
      case TVal(_) => operand && Alternates(ts[1..], false, depth)
      case TOpr(t) =>
        if t == Bang then operand && Alternates(ts[1..], true, depth)
        else t.Oper? && !operand && Alternates(ts[1..], true, depth)
      case TOpen => operand && Alternates(ts[1..], true, depth + 1)
      case TClose => !operand && depth > 0 && Alternates(ts[1..], false, depth - 1)
      case TErr => false
  }

  lemma AlternatesCons(t: Tok, ts: seq<Tok>, operand: bool, depth: nat)
    ensures t.TVal? ==> (Alternates([t] + ts, operand, depth) <==> operand && Alternates(ts, false, depth))
    ensures t == TOpr(Bang) ==> (Alternates([t] + ts, operand, depth) <==> operand && Alternates(ts, true, depth))
    ensures t.TOpr? && t.t.Oper? ==> (Alternates([t] + ts, operand, depth) <==> !operand && Alternates(ts, true, depth))
    ensures t.TOpen? ==> (Alternates([t] + ts, operand, depth) <==> operand && Alternates(ts, true, depth + 1))
    ensures t.TClose? ==> (Alternates([t] + ts, operand, depth) <==> !operand && depth > 0 && Alternates(ts, false, depth - 1))
  {
    assert ([t] + ts)[1..] == ts;
  }

  lemma {:induction false} BangsAlternate(k: nat, ts: seq<Tok>, depth: nat)
    requires Alternates(ts, true, depth)
    ensures Alternates(BangToks(k, ts), true, depth)
    decreases k
  {
    hide Alternates;
    if k > 0 {
      BangsAlternate(k - 1, ts, depth);
      AlternatesCons(TOpr(Bang), BangToks(k - 1, ts), true, depth);
    }
  }

  lemma {:induction false} FactorAlternates(f: Factor, ts: seq<Tok>, depth: nat)
    requires Alternates(ts, false, depth)
    ensures Alternates(FactorToks(f, ts), true, depth)
    decreases f, 0
  {
    hide Alternates;
    match f
    case Lit(k, n) =>
      AlternatesCons(TVal(n), ts, true, depth);
      BangsAlternate(k, [TVal(n)] + ts, depth);
    case Group(k, q) =>
      AlternatesCons(TClose, ts, false, depth + 1);
      QueryAlternates(q, [TClose] + ts, depth + 1);
      AlternatesCons(TOpen, QueryToks(q, [TClose] + ts), true, depth);
      BangsAlternate(k, [TOpen] + QueryToks(q, [TClose] + ts), depth);
  }

  lemma {:induction false} FactorsAlternate(c: Chain, i: nat, ts: seq<Tok>, depth: nat)
    requires i <= |c.tail| && Alternates(ts, false, depth)
    ensures Alternates(MoreFactors(c, i, ts), false, depth)
    decreases c, |c.tail| - i
  {
    hide Alternates;
    if i < |c.tail| {
      var more := MoreFactors(c, i + 1, ts);
      FactorsAlternate(c, i + 1, ts, depth);
      FactorAlternates(c.tail[i], more, depth);
      AlternatesCons(TOpr(Oper(And)), FactorToks(c.tail[i], more), false, depth);
    }
  }

  lemma {:induction false} ChainAlternates(c: Chain, ts: seq<Tok>, depth: nat)
    requires Alternates(ts, false, depth)
    ensures Alternates(ChainToks(c, ts), true, depth)
    decreases c, |c.tail| + 1
  {
    hide Alternates;
    FactorsAlternate(c, 0, ts, depth);
    FactorAlternates(c.head, MoreFactors(c, 0, ts), depth);
  }

  lemma {:induction false} ChainsAlternate(q: Query, i: nat, ts: seq<Tok>, depth: nat)
    requires i <= |q.rest| && Alternates(ts, false, depth)
    ensures Alternates(MoreChains(q, i, ts), false, depth)
    decreases q, |q.rest| - i
  {
    hide Alternates;
    if i < |q.rest| {
      var more := MoreChains(q, i + 1, ts);
      ChainsAlternate(q, i + 1, ts, depth);
      ChainAlternates(q.rest[i], more, depth);
      AlternatesCons(TOpr(Oper(Or)), ChainToks(q.rest[i], more), false, depth);
    }
  }

  lemma {:induction false} QueryAlternates(q: Query, ts: seq<Tok>, depth: nat)
    requires Alternates(ts, false, depth)
    ensures Alternates(QueryToks(q, ts), true, depth)
    decreases q, |q.rest| + 1
  {
    hide Alternates;
    ChainsAlternate(q, 0, ts, depth);
    ChainAlternates(q.first, MoreChains(q, 0, ts), depth);
  }

  // ---------------------------------------------------------------- the query of alternating tokens

  lemma {:induction false} FactorBack(ts: seq<Tok>, depth: nat) returns (f: Factor, rest: seq<Tok>)
    requires Alternates(ts, true, depth)
    ensures ts == FactorToks(f, rest) && Alternates(rest, false, depth) && |rest| < |ts|
    decreases |ts|, 0
  {
    var t := ts[0];
    assert ts == [t] + ts[1..];
    hide Alternates;
    AlternatesCons(t, ts[1..], true, depth);
    AlternatesStart(ts, depth);
    match t
    case TVal(n) =>
      f, rest := Lit(0, n), ts[1..];
    case TOpr(_) =>
      f, rest := FactorBack(ts[1..], depth);
      f := match f case Lit(k, n) => Lit(k + 1, n) case Group(k, q) => Group(k + 1, q);
    case TOpen =>
      var q, inner := QueryBack(ts[1..], depth + 1);
      f, rest := Group(0, q), inner[1..];
      assert inner == [TClose] + rest;
      AlternatesCons(TClose, rest, false, depth + 1);
    case _ => assert false;
  }

  lemma AlternatesStart(ts: seq<Tok>, depth: nat)
    requires Alternates(ts, true, depth)
    ensures ts != [] && (ts[0].TVal? || ts[0] == TOpr(Bang) || ts[0] == TOpen)
  {
  }

  lemma AlternatesNext(ts: seq<Tok>, depth: nat)
    requires Alternates(ts, false, depth)
    ensures ts == [] ==> depth == 0
    ensures ts != [] ==> ts[0] == TOpr(Oper(And)) || ts[0] == TOpr(Oper(Or)) || ts[0] == TClose
  {
    if ts != [] && ts[0].TOpr? { OperIs(ts[0].t); }
  }

  lemma OperIs(t: Token)
    requires t.Oper?
    ensures t == Oper(And) || t == Oper(Or)
  {
    match t.op
    case And =>
    case Or =>
  }

  /** A chain begins the tokens; what follows is no &. */
  lemma {:induction false} ChainBack(ts: seq<Tok>, depth: nat) returns (c: Chain, rest: seq<Tok>)
    requires Alternates(ts, true, depth)
    ensures ts == ChainToks(c, rest) && Alternates(rest, false, depth) && |rest| < |ts|
    ensures rest != [] ==> rest[0] == TOpr(Oper(Or)) || rest[0] == TClose
    decreases |ts|, 1
  {
    hide Alternates;
    var f, more := FactorBack(ts, depth);
    AlternatesNext(more, depth);
    if more != [] && more[0] == TOpr(Oper(And)) {
      assert more == [TOpr(Oper(And))] + more[1..];
      AlternatesCons(TOpr(Oper(And)), more[1..], false, depth);
      var d;
      d, rest := ChainBack(more[1..], depth);
      c := Chain(f, [d.head] + d.tail);
      ChainCons(f, d, rest);
    } else {
      c, rest := Chain(f, []), more;
      assert MoreFactors(c, 0, rest) == rest;
    }
  }

  lemma ChainCons(f: Factor, d: Chain, ts: seq<Tok>)
    ensures ChainToks(Chain(f, [d.head] + d.tail), ts) == FactorToks(f, [TOpr(Oper(And))] + ChainToks(d, ts))
  {
    var c := Chain(f, [d.head] + d.tail);
    FactorsShift(c, d, 0, ts);
    assert c.tail[0] == d.head;
  }

  lemma {:induction false} FactorsShift(c: Chain, d: Chain, i: nat, ts: seq<Tok>)
    requires c.tail == [d.head] + d.tail && i <= |d.tail|
    ensures MoreFactors(c, i + 1, ts) == MoreFactors(d, i, ts)
    decreases |d.tail| - i
  {
    if i < |d.tail| {
      FactorsShift(c, d, i + 1, ts);
      assert c.tail[i + 1] == d.tail[i];
    }
  }

  /** A query begins the tokens; what follows closes a parenthesis. */
  lemma {:induction false} QueryBack(ts: seq<Tok>, depth: nat) returns (q: Query, rest: seq<Tok>)
    requires Alternates(ts, true, depth)
    ensures ts == QueryToks(q, rest) && Alternates(rest, false, depth) && |rest| < |ts|
    ensures if depth == 0 then rest == [] else rest != [] && rest[0] == TClose
    decreases |ts|, 2
  {
    var c, more := ChainBack(ts, depth);
    if more != [] && more[0] == TOpr(Oper(Or)) {
      assert more == [TOpr(Oper(Or))] + more[1..];
      hide Alternates;
      AlternatesCons(TOpr(Oper(Or)), more[1..], false, depth);
      var r;
      r, rest := QueryBack(more[1..], depth);
      q := Query(c, [r.first] + r.rest);
      QueryCons(c, r, rest);
    } else {
      q, rest := Query(c, []), more;
      assert MoreChains(q, 0, rest) == rest;
    }
  }

  lemma QueryCons(c: Chain, r: Query, ts: seq<Tok>)
    ensures QueryToks(Query(c, [r.first] + r.rest), ts) == ChainToks(c, [TOpr(Oper(Or))] + QueryToks(r, ts))
  {
    var q := Query(c, [r.first] + r.rest);
    ChainsShift(q, r, 0, ts);
    assert q.rest[0] == r.first;
  }

  lemma {:induction false} ChainsShift(q: Query, r: Query, i: nat, ts: seq<Tok>)
    requires q.rest == [r.first] + r.rest && i <= |r.rest|
    ensures MoreChains(q, i + 1, ts) == MoreChains(r, i, ts)
    decreases |r.rest| - i
  {
    if i < |r.rest| {
      ChainsShift(q, r, i + 1, ts);
      assert q.rest[i + 1] == r.rest[i];
    }
  }

  // ---------------------------------------------------------------- texts are read as their words

  lemma {:induction false} SpacesSkipped(s: string, i: nat, n: nat, st: LexState, count: int)
    requires Has(s, i, Copies(' ', n)) && st != WaitEndOperand
    ensures i + n <= |s| && Lexed(s, i, st, count) == Lexed(s, i + n, st, count)
    decreases n
  {
    hide Lexed;
    if n > 0 {
      HasChar(s, i, Copies(' ', n));
      assert Copies(' ', n)[1..] == Copies(' ', n - 1);
      LexChar(s, i, st, count);
      SpacesSkipped(s, i + 1, n - 1, st, count);
    }
  }

  lemma IntegerRead(s: string, i: nat, w: string, count: int)
    requires Has(s, i, w) && w != "" && (IsDigit(w[0]) || w[0] == '-') && forall k :: 1 <= k < |w| ==> IsDigit(w[k])
    requires Ends(s, i + |w|, count)
    ensures i + |w| <= |s| && Lexed(s, i, WaitOperand, count) == [TVal(Atoi(w))] + Lexed(s, i + |w|, WaitOperator, count)
  {
    hide Atoi, Has;
    HasRoom(s, i, w);
    HasChar(s, i, w);
    assert w == [w[0]] + w[1..];
    LexDigits(s, i + 1, w[1..], [w[0]], count);
    assert NextTok(s, i, WaitOperand, count, "") == NextTok(s, i + 1, WaitEndOperand, count, [w[0]]);
  }

  lemma WordRead(s: string, i: nat, w: Word, ts: seq<Tok>, operand: bool, count: nat)
    requires Has(s, i, WordText(w)) && Alternates([Meant(w)] + ts, operand, count)
    requires w.Numeral? || w.Dash? ==> Ends(s, i + |WordText(w)|, count)
    ensures i < i + |WordText(w)| <= |s| && OpenAfter(w, count) >= 0 && Alternates(ts, DueAfter(w), OpenAfter(w, count))
    ensures Lexed(s, i, StateOf(operand), count) ==
      [Meant(w)] + Lexed(s, i + |WordText(w)|, StateOf(DueAfter(w)), OpenAfter(w, count))
  {
    hide Lexed, Has, Alternates;
    AlternatesCons(Meant(w), ts, operand, count);
    match w
    case Numeral(neg, zeros, n) =>
      NumeralRead(neg, zeros, n);
      HasRoom(s, i, WordText(w));
      IntegerRead(s, i, WordText(w), count);
    case Dash =>
      HasChar(s, i, "-");
      IntegerRead(s, i, "-", count);
      assert "-"[1..] == "" && Atoi("-") == 0;
    case Mark(t) =>
      MarkIs(t, ts, operand, count);
      HasChar(s, i, WordText(w));
      LexChar(s, i, StateOf(operand), count);
    case Open =>
      HasChar(s, i, "(");
      LexChar(s, i, WaitOperand, count);
    case Close =>
      HasChar(s, i, ")");
      LexChar(s, i, WaitOperator, count);
  }

  lemma MarkIs(t: Token, ts: seq<Tok>, operand: bool, count: nat)
    requires Alternates([TOpr(t)] + ts, operand, count)
    ensures (t == Bang && operand) || ((t == Oper(And) || t == Oper(Or)) && !operand)
  {
    if t.Oper? { OperIs(t); }
  }

  /** Whether an operand is due behind a word, and how many parentheses are open. */
  predicate DueAfter(w: Word) {
    w.Mark? || w.Open?
  }

  function OpenAfter(w: Word, count: int): int {
    if w.Open? then count + 1 else if w.Close? then count - 1 else count
  }

  function StateOf(operand: bool): LexState {
    if operand then WaitOperand else WaitOperator
  }

  /** Behind an integer stands no digit, and a parenthesis that is open is still to be closed. */
  lemma IntegerEnds(s: string, i: nat, xs: seq<Spaced>, end: nat, count: nat)
    requires Has(s, i, TextOf(xs, end)) && i + |TextOf(xs, end)| == |s| && Alternates(ToksOf(xs), false, count)
    ensures Ends(s, i, count)
  {
    if xs == [] {
      if end > 0 { HasChar(s, i, Copies(' ', end)); }
    } else {
      var x := xs[0];
      HasParts(s, i, SpacedText(x), TextOf(xs[1..], end));
      HasParts(s, i, Copies(' ', x.spaces), WordText(x.w));
      AlternatesNext(ToksOf(xs), count);
      if x.spaces > 0 {
        HasChar(s, i, Copies(' ', x.spaces));
      } else {
        HasChar(s, i, WordText(x.w));
      }
    }
  }

  lemma {:induction false} TextRead(s: string, i: nat, xs: seq<Spaced>, end: nat, operand: bool, count: nat)
    requires Has(s, i, TextOf(xs, end)) && i + |TextOf(xs, end)| == |s| && Alternates(ToksOf(xs), operand, count)
    ensures Lexed(s, i, StateOf(operand), count) == ToksOf(xs)
    decreases |xs|
  {
    var st := StateOf(operand);
    hide Lexed, Has, Ends, WordText;
    if xs == [] {
      SpacesSkipped(s, i, end, st, count);
      EndRead(s);
    } else {
      hide Alternates;
      var x, more := xs[0], xs[1..];
      var j, k := i + x.spaces, i + |SpacedText(x)|;
      HasParts(s, i, SpacedText(x), TextOf(more, end));
      HasParts(s, i, Copies(' ', x.spaces), WordText(x.w));
      assert ToksOf(xs) == [Meant(x.w)] + ToksOf(more);
      SpacesSkipped(s, i, x.spaces, st, count);
      if x.w.Numeral? || x.w.Dash? {
        AlternatesCons(Meant(x.w), ToksOf(more), operand, count);
        IntegerEnds(s, k, more, end, count);
      }
      WordRead(s, j, x.w, ToksOf(more), operand, count);
      TextRead(s, k, more, end, DueAfter(x.w), OpenAfter(x.w, count));
    }
  }

  lemma EndRead(s: string)
    ensures Lexed(s, |s|, WaitOperator, 0) == []
  {
  }

  // ---------------------------------------------------------------- and no others

  lemma CharThere(s: string, i: nat)
    requires i < |s|
    ensures Has(s, i, [s[i]])
  {
    assert s[i..i + 1] == [s[i]];
  }

  lemma {:induction false} DigitsThere(s: string, i: nat) returns (d: string)
    requires i <= |s|
    ensures Has(s, i, d) && (forall k :: 0 <= k < |d| ==> IsDigit(d[k])) && !IsDigit(At(s, i + |d|))
    decreases |s| - i
  {
    if IsDigit(At(s, i)) {
      var more := DigitsThere(s, i + 1);
      d := [s[i]] + more;
      CharThere(s, i);
      HasParts(s, i, [s[i]], more);
    } else {
      d := "";
      assert s[i..i] == "";
    }
  }

  /** An integer that is read is a numeral or a sign. */
  lemma IntegerBack(s: string, i: nat, count: nat) returns (w: Word)
    requires i < |s| && NoZero(s) && (IsDigit(s[i]) || s[i] == '-') && TErr !in Lexed(s, i, WaitOperand, count)
    ensures (w.Numeral? || w.Dash?) && Has(s, i, WordText(w)) && Ends(s, i + |WordText(w)|, count)
  {
    hide Lexed, Has, Ends, WordText, At, IsDigit;
    var d := DigitsThere(s, i + 1);
    CharThere(s, i);
    HasParts(s, i, [s[i]], d);
    w := NumeralOf(s[i], d);
    NotAtEnd(s, i, d, count);
  }

  lemma NumeralOf(c: char, d: string) returns (w: Word)
    requires (IsDigit(c) || c == '-') && forall k :: 0 <= k < |d| ==> IsDigit(d[k])
    ensures (w.Numeral? || w.Dash?) && WordText(w) == [c] + d
  {
    hide Decimal, Number;
    if c == '-' {
      if d == "" {
        w := Dash;
      } else {
        var zeros, n := DigitsBack(d);
        w := Numeral(true, zeros, n);
      }
    } else {
      var zeros, n := DigitsBack([c] + d);
      w := Numeral(false, zeros, n);
      assert "" + ([c] + d) == [c] + d;
    }
  }

  lemma NotAtEnd(s: string, i: nat, d: string, count: nat)
    requires i < |s| && (IsDigit(s[i]) || s[i] == '-') && Has(s, i + 1, d) && forall k :: 0 <= k < |d| ==> IsDigit(d[k])
    requires !IsDigit(At(s, i + 1 + |d|)) && TErr !in Lexed(s, i, WaitOperand, count)
    ensures Ends(s, i + 1 + |d|, count)
  {
    LexDigits(s, i + 1, d, [s[i]], count);
    assert NextTok(s, i, WaitOperand, count, "") == NextTok(s, i + 1, WaitEndOperand, count, [s[i]]);
  }

  /** The word at a place that is neither the end nor a space. */
  lemma WordBack(s: string, i: nat, operand: bool, count: nat) returns (w: Word)
    requires i < |s| && NoZero(s) && s[i] != ' '
    requires TErr !in Lexed(s, i, StateOf(operand), count)
    ensures Has(s, i, WordText(w)) && (w.Numeral? || w.Dash? ==> Ends(s, i + |WordText(w)|, count))
    ensures forall ts :: Alternates([Meant(w)] + ts, operand, count) <==>
      OpenAfter(w, count) >= 0 && Alternates(ts, DueAfter(w), OpenAfter(w, count))
    ensures OpenAfter(w, count) >= 0
  {
    assert StateOf(true) == WaitOperand;
    hide *;
    if operand && (IsDigit(s[i]) || s[i] == '-') {
      w := IntegerBack(s, i, count);
      IntegerGoes(w, count);
    } else {
      w := MarkBack(s, i, operand, count);
    }
  }

  lemma IntegerGoes(w: Word, count: nat)
    requires w.Numeral? || w.Dash?
    ensures forall ts :: Alternates([Meant(w)] + ts, true, count) <==>
      OpenAfter(w, count) >= 0 && Alternates(ts, DueAfter(w), OpenAfter(w, count))
    ensures OpenAfter(w, count) >= 0
  {
    hide Alternates;
    forall ts
      ensures Alternates([Meant(w)] + ts, true, count) <==>
        OpenAfter(w, count) >= 0 && Alternates(ts, DueAfter(w), OpenAfter(w, count))
    {
      AlternatesCons(Meant(w), ts, true, count);
    }
  }

  lemma MarkBack(s: string, i: nat, operand: bool, count: nat) returns (w: Word)
    requires i < |s| && NoZero(s) && s[i] != ' ' && !(operand && (IsDigit(s[i]) || s[i] == '-'))
    requires TErr !in Lexed(s, i, StateOf(operand), count)
    ensures Has(s, i, WordText(w)) && !w.Numeral? && !w.Dash?
    ensures forall ts :: Alternates([Meant(w)] + ts, operand, count) <==>
      OpenAfter(w, count) >= 0 && Alternates(ts, DueAfter(w), OpenAfter(w, count))
    ensures OpenAfter(w, count) >= 0
  {
    hide Has, Lexed, Alternates;
    CharThere(s, i);
    MarkThere(s, i, operand, count);
    w := if s[i] == '!' then Mark(Bang) else if s[i] == '&' then Mark(Oper(And)) else if s[i] == '|' then Mark(Oper(Or))
      else if s[i] == '(' then Open else Close;
    forall ts
      ensures Alternates([Meant(w)] + ts, operand, count) <==>
        OpenAfter(w, count) >= 0 && Alternates(ts, DueAfter(w), OpenAfter(w, count))
    {
      AlternatesCons(Meant(w), ts, operand, count);
    }
  }

  lemma MarkThere(s: string, i: nat, operand: bool, count: nat)
    requires i < |s| && NoZero(s) && s[i] != ' ' && !(operand && (IsDigit(s[i]) || s[i] == '-'))
    requires TErr !in Lexed(s, i, StateOf(operand), count)
    ensures if operand then s[i] == '!' || s[i] == '(' else s[i] == '&' || s[i] == '|' || (s[i] == ')' && count > 0)
  {
  }

  /** A text without errors is words, alternating. */
  lemma {:induction false} TextBack(s: string, i: nat, operand: bool, count: nat) returns (xs: seq<Spaced>, end: nat)
    requires i <= |s| && NoZero(s) && TErr !in Lexed(s, i, StateOf(operand), count)
    ensures Has(s, i, TextOf(xs, end)) && i + |TextOf(xs, end)| == |s| && Alternates(ToksOf(xs), operand, count)
    decreases |s| - i
  {
    hide Has, Lexed, WordText, Ends;
    var st := StateOf(operand);
    if i == |s| {
      xs, end := [], 0;
      EndBack(s, operand, count);
    } else if s[i] == ' ' {
      LexChar(s, i, st, count);
      xs, end := TextBack(s, i + 1, operand, count);
      CharThere(s, i);
      HasParts(s, i, " ", TextOf(xs, end));
      xs, end := OneMoreSpace(xs, end);
    } else {
      var w := WordBack(s, i, operand, count);
      WordStep(s, i, w, operand, count);
      var more;
      more, end := TextBack(s, i + |WordText(w)|, DueAfter(w), OpenAfter(w, count));
      xs := [Spaced(0, w)] + more;
      HasParts(s, i, WordText(w), TextOf(more, end));
      FirstWord(w, more, end);
      assert ToksOf(xs) == [Meant(w)] + ToksOf(more);
    }
  }

  lemma EndBack(s: string, operand: bool, count: nat)
    requires TErr !in Lexed(s, |s|, StateOf(operand), count)
    ensures !operand && count == 0 && Has(s, |s|, TextOf([], 0))
  {
    assert s[|s|..|s|] == "";
  }

  lemma FirstWord(w: Word, more: seq<Spaced>, end: nat)
    ensures TextOf([Spaced(0, w)] + more, end) == WordText(w) + TextOf(more, end)
  {
    var xs := [Spaced(0, w)] + more;
    assert xs[1..] == more && Copies(' ', 0) == "";
    assert SpacedText(xs[0]) == WordText(w);
  }

  lemma OneMoreSpace(xs: seq<Spaced>, end: nat) returns (ys: seq<Spaced>, end': nat)
    ensures TextOf(ys, end') == " " + TextOf(xs, end) && ToksOf(ys) == ToksOf(xs)
  {
    hide WordText, Meant;
    CopiesMore(end);
    if xs == [] {
      ys, end' := [], end + 1;
    } else {
      var x, more := xs[0], xs[1..];
      ys, end' := [Spaced(x.spaces + 1, x.w)] + more, end;
      assert ys[1..] == more;
      CopiesMore(x.spaces);
      Append(" ", Copies(' ', x.spaces), WordText(x.w));
      hide TextOf, SpacedText;
      TextCons(ys, end);
      TextCons(xs, end);
      Append(" ", SpacedText(x), TextOf(more, end));
    }
  }

  lemma CopiesMore(n: nat)
    ensures Copies(' ', n + 1) == " " + Copies(' ', n)
  {
  }

  lemma TextCons(xs: seq<Spaced>, end: nat)
    requires xs != []
    ensures TextOf(xs, end) == SpacedText(xs[0]) + TextOf(xs[1..], end)
    ensures SpacedText(xs[0]) == Copies(' ', xs[0].spaces) + WordText(xs[0].w)
  {
    hide WordText;
  }

  /** A word is read, and what follows has no error either. */
  lemma WordStep(s: string, i: nat, w: Word, operand: bool, count: nat)
    requires Has(s, i, WordText(w)) && (w.Numeral? || w.Dash? ==> Ends(s, i + |WordText(w)|, count))
    requires TErr !in Lexed(s, i, StateOf(operand), count)
    requires forall ts :: Alternates([Meant(w)] + ts, operand, count) <==>
      OpenAfter(w, count) >= 0 && Alternates(ts, DueAfter(w), OpenAfter(w, count))
    requires OpenAfter(w, count) >= 0
    ensures i < i + |WordText(w)| <= |s| && TErr !in Lexed(s, i + |WordText(w)|, StateOf(DueAfter(w)), OpenAfter(w, count))
  {
    hide Lexed, Alternates, WordText, Ends, Has;
    var ts := SomeTokens(DueAfter(w), OpenAfter(w, count));
    assert Alternates([Meant(w)] + ts, operand, count);
    WordRead(s, i, w, ts, operand, count);
  }

  /** From every state some tokens lead to the end. */
  lemma {:induction false} SomeTokens(operand: bool, depth: nat) returns (ts: seq<Tok>)
    ensures Alternates(ts, operand, depth)
    decreases depth, operand
  {
    hide Alternates;
    if operand {
      var more := SomeTokens(false, depth);
      AlternatesCons(TVal(0), more, true, depth);
      ts := [TVal(0)] + more;
    } else if depth > 0 {
      var more := SomeTokens(false, depth - 1);
      AlternatesCons(TClose, more, false, depth);
      ts := [TClose] + more;
    } else {
      ts := [];
      NothingLeft();
    }
  }

  lemma NothingLeft()
    ensures Alternates([], false, 0)
  {
  }

  /** Tokens without an error alternate, and are those of a query. */
  lemma NoErrorIffQuery(s: string)
    requires NoZero(s)
    ensures TErr !in Lexed(s, 0, WaitOperand, 0) <==> exists q :: IsTextOf(s, q)
    ensures forall q :: IsTextOf(s, q) <==> Lexed(s, 0, WaitOperand, 0) == QueryToks(q, [])
  {
    hide Lexed, Has, TextOf, QueryToks, Alternates;
    forall q ensures IsTextOf(s, q) <==> Lexed(s, 0, WaitOperand, 0) == QueryToks(q, []) { TextOfQuery(s, q); }
    if TErr !in Lexed(s, 0, WaitOperand, 0) {
      var xs, end := TextBack(s, 0, true, 0);
      WholeText(s, TextOf(xs, end));
      TextRead(s, 0, xs, end, true, 0);
      var q, rest := QueryBack(ToksOf(xs), 0);
      assert IsTextOf(s, q);
    }
    if q :| IsTextOf(s, q) { QueryHasNoError(q); }
  }

  lemma WholeText(s: string, t: string)
    ensures Has(s, 0, t) && |t| == |s| <==> s == t
  {
    assert s[0..|s|] == s;
  }

  lemma QueryHasNoError(q: Query)
    ensures TErr !in QueryToks(q, []) && Alternates(QueryToks(q, []), true, 0)
  {
    NothingLeft();
    QueryAlternates(q, [], 0);
    NoErrorWithin(QueryToks(q, []), true, 0);
  }

  lemma {:induction false} NoErrorWithin(ts: seq<Tok>, operand: bool, depth: nat)
    requires Alternates(ts, operand, depth)
    ensures TErr !in ts
  {
    if ts != [] {
      assert ts == [ts[0]] + ts[1..];
      match ts[0]
      case TVal(_) => NoErrorWithin(ts[1..], false, depth);
      case TOpr(_) => NoErrorWithin(ts[1..], true, depth);
      case TOpen => NoErrorWithin(ts[1..], true, depth + 1);
      case TClose => NoErrorWithin(ts[1..], false, depth - 1);
      case _ =>
    }
  }

  lemma TextOfQuery(s: string, q: Query)
    requires NoZero(s)
    ensures IsTextOf(s, q) <==> Lexed(s, 0, WaitOperand, 0) == QueryToks(q, [])
  {
    hide Lexed, Has, TextOf, QueryToks, Alternates;
    QueryHasNoError(q);
    if IsTextOf(s, q) {
      var xs, end :| TextOf(xs, end) == s && ToksOf(xs) == QueryToks(q, []);
      WholeText(s, s);
      TextRead(s, 0, xs, end, true, 0);
    }
    if Lexed(s, 0, WaitOperand, 0) == QueryToks(q, []) {
      var xs, end := TextBack(s, 0, true, 0);
      WholeText(s, TextOf(xs, end));
      TextRead(s, 0, xs, end, true, 0);
    }
  }

  // ---------------------------------------------------------------- errors are reported

  /** What a tokenizer delivers: a parenthesis is closed only if one is open, and the end comes when none is, or an error. */
  ghost predicate Counted(ts: seq<Tok>, depth: nat) {
    if ts == [] then depth == 0 else
      match ts[0]
      case TOpen => Counted(ts[1..], depth + 1)
      case TClose => depth > 0 && Counted(ts[1..], depth - 1)
      case TErr => ts == [TErr]
      case _ => Counted(ts[1..], depth)
  }

  lemma {:induction false} LexedCounted(s: string, i: nat, st: LexState, count: nat)
    requires i <= |s| && st != WaitEndOperand
    ensures Counted(Lexed(s, i, st, count), count)
    decreases |s| - i
  {
    var l := NextTok(s, i, st, count, "");
    NextCounts(s, i, st, count, "");
    if l.tok.Some? && l.tok.value != TErr {
      LexedCounted(s, l.ptr, l.st, l.count);
      assert Lexed(s, i, st, count)[1..] == Lexed(s, l.ptr, l.st, l.count);
    }
  }

  lemma {:induction false} NextCounts(s: string, i: nat, st: LexState, count: int, word: string)
    requires i <= |s| && count >= 0
    ensures var l := NextTok(s, i, st, count, word);
      l.tok.Some? && l.tok.value != TErr ==>
        && l.count == (if l.tok.value == TOpen then count + 1 else if l.tok.value == TClose then count - 1 else count)
        && l.count >= 0
    ensures NextTok(s, i, st, count, word).tok.None? ==> count == 0
    decreases |s| - i
  {
    hide Atoi;
    if i < |s| {
      NextCounts(s, i + 1, st, count, word);
      NextCounts(s, i + 1, WaitEndOperand, count, [s[i]]);
      NextCounts(s, i + 1, WaitEndOperand, count, word + [s[i]]);
    }
  }

  /** Compilation that comes to an end has seen no error. */
  lemma {:induction false} DoneWithoutError(ts: seq<Tok>, depth: nat, stack: seq<Token>, out: seq<Token>)
    requires Counted(ts, depth) && Compiled(ts, stack, out).Done?
    ensures var rest := Compiled(ts, stack, out).rest;
      if depth == 0 then rest == [] && TErr !in ts else Counted(rest, depth - 1) && (TErr in ts ==> TErr in rest)
    decreases |ts|, 0
  {
    if ts != [] {
      var t, more := ts[0], ts[1..];
      assert ts == [t] + more;
      match t
      case TVal(n) => DoneWithoutError(more, depth, Loose(stack), out + [Val(n)] + TightTop(stack));
      case TOpr(o) =>
        if stack != [] && o == Oper(Or) {
          DoneWithoutError(more, depth, stack, out + [o]);
        } else {
          DoneWithoutError(more, depth, stack + [o], out);
        }
      case TOpen =>
        var inner := Compiled(more, [], out);
        DoneWithoutError(more, depth + 1, [], out);
        if stack != [] && Tight(stack[|stack| - 1]) {
          DoneWithoutError(inner.rest, depth, stack[..|stack| - 1], inner.out + [stack[|stack| - 1]]);
        } else {
          DoneWithoutError(inner.rest, depth, stack, inner.out);
        }
      case TClose =>
      case TErr =>
    }
  }

  /** And a syntax error is reported only when there is one. */
  lemma {:induction false} SyntaxMeansError(ts: seq<Tok>, stack: seq<Token>, out: seq<Token>)
    ensures Compiled(ts, stack, out) == SyntaxError ==> TErr in ts
    ensures Compiled(ts, stack, out).Done? ==> forall t :: t in Compiled(ts, stack, out).rest ==> t in ts
    decreases |ts|, 0
  {
    if ts != [] {
      var t, more := ts[0], ts[1..];
      assert ts == [t] + more;
      match t
      case TVal(n) => SyntaxMeansError(more, Loose(stack), out + [Val(n)] + TightTop(stack));
      case TOpr(o) => SyntaxMeansError(more, stack, out + [o]); SyntaxMeansError(more, stack + [o], out);
      case TOpen =>
        SyntaxMeansError(more, [], out);
        var inner := Compiled(more, [], out);
        if inner.Done? {
          SyntaxMeansError(inner.rest, stack, inner.out);
          if stack != [] { SyntaxMeansError(inner.rest, stack[..|stack| - 1], inner.out + [stack[|stack| - 1]]); }
        }
      case TClose =>
      case TErr =>
    }
  }

  /**
   * A text is stored only if it is that of a query, and a text of a query is not a syntax error: it is
   * stored or too complex.
   */
  lemma TextsCompiled(s: string)
    requires NoZero(s)
    ensures var r := Compiled(Lexed(s, 0, WaitOperand, 0), [], []);
      && (r.Done? ==> r.rest == [] && exists q :: IsTextOf(s, q))
      && (r == SyntaxError ==> !exists q :: IsTextOf(s, q))
  {
    hide Lexed, Compiled, IsTextOf, Counted;
    var ts := Lexed(s, 0, WaitOperand, 0);
    NoErrorIffQuery(s);
    LexedCounted(s, 0, WaitOperand, 0);
    SyntaxMeansError(ts, [], []);
    if Compiled(ts, [], []).Done? { DoneWithoutError(ts, 0, [], []); }
  }
}
