/** The tokens of the text of a boolean query of contrib/intarray (_int_bool.c). */
module BoolLex {
  import opened Basics
  import opened CString
  import opened BoolQuery
  import opened BoolParse

  // ---------------------------------------------------------------- integers as text

  function Digit(d: nat): char
    requires d < 10
  {
    '0' + d as char
  }

  predicate IsDigit(c: char) {
    '0' <= c <= '9'
  }

  function Decimal(n: nat): (w: string)
    ensures w != "" && forall k :: 0 <= k < |w| ==> IsDigit(w[k])
  {
    if n < 10 then [Digit(n)] else Decimal(n / 10) + [Digit(n % 10)]
  }

  /** sprintf %d */
  function IntText(n: int): string {
    if n < 0 then "-" + Decimal(-n) else Decimal(n)
  }

  function Number(w: string): nat {
    if w == "" then 0
    else Number(w[..|w| - 1]) * 10 + if IsDigit(w[|w| - 1]) then (w[|w| - 1] - '0') as nat else 0
  }

  /** atoi on a sign and digits, without its limits. */
  function Atoi(w: string): int {
    if w != "" && w[0] == '-' then 0 - Number(w[1..]) else Number(w)
  }

  lemma {:induction false} NumberOfDecimal(n: nat)
    ensures Number(Decimal(n)) == n
  {
    var w := Decimal(n);
    if n < 10 {
      assert w[..|w| - 1] == "" && Number("") == 0;
    } else {
      NumberOfDecimal(n / 10);
      assert w[..|w| - 1] == Decimal(n / 10);
    }
  }

  lemma AtoiOfText(n: int)
    ensures Atoi(IntText(n)) == n
  {
    if n < 0 {
      NumberOfDecimal(-n);
      assert IntText(n)[1..] == Decimal(-n);
    } else {
      NumberOfDecimal(n);
      assert IsDigit(Decimal(n)[0]);
    }
  }

  // ---------------------------------------------------------------- the tokenizer

  datatype LexState = WaitOperand | WaitEndOperand | WaitOperator

  /** A token, none at the end, and the state it leaves. */
  datatype Lexeme = Lexeme(tok: Option<Tok>, ptr: nat, st: LexState, count: int)

  /** gettoken from a state on; word holds the digits read so far. */
  function NextTok(s: string, ptr: nat, st: LexState, count: int, word: string): (l: Lexeme)
    requires ptr <= |s|
    ensures l.tok.Some? && l.tok.value != TErr ==>
      (ptr <= l.ptr <= |s|) && (st != WaitEndOperand ==> ptr < l.ptr) && l.st != WaitEndOperand
    ensures l.tok.None? ==> At(s, l.ptr) == '\0' && ptr <= l.ptr <= |s| && l.st == WaitOperator && l.count == 0
    decreases |s| - ptr
  {
    var c := At(s, ptr);
    match st
    case WaitOperand =>
      if IsDigit(c) || c == '-' then NextTok(s, ptr + 1, WaitEndOperand, count, [c])
      else if c == '!' then Lexeme(Some(TOpr(Bang)), ptr + 1, WaitOperand, count)
      else if c == '(' then Lexeme(Some(TOpen), ptr + 1, WaitOperand, count + 1)
      else if c == ' ' then NextTok(s, ptr + 1, WaitOperand, count, word)
      else Lexeme(Some(TErr), ptr, st, count)
    case WaitEndOperand =>
      if IsDigit(c) then NextTok(s, ptr + 1, WaitEndOperand, count, word + [c])
      else Lexeme(Some(if count != 0 && c == '\0' then TErr else TVal(Atoi(word))), ptr, WaitOperator, count)
    case WaitOperator =>
      if c == '&' || c == '|' then Lexeme(Some(TOpr(Oper(if c == '&' then And else Or))), ptr + 1, WaitOperand, count)
      else if c == ')' then Lexeme(Some(if count - 1 < 0 then TErr else TClose), ptr + 1, WaitOperator, count - 1)
      else if c == '\0' then Lexeme(if count != 0 then Some(TErr) else None, ptr, WaitOperator, count)
      else if c == ' ' then NextTok(s, ptr + 1, WaitOperator, count, word)
      else Lexeme(Some(TErr), ptr, st, count)
  }

  /** All tokens to come, up to the end or the first error. */
  function Lexed(s: string, ptr: nat, st: LexState, count: int): seq<Tok>
    requires ptr <= |s| && st != WaitEndOperand
    decreases |s| - ptr
  {
    var l := NextTok(s, ptr, st, count, "");
    if l.tok.None? then []
    else if l.tok.value == TErr then [TErr]
    else [l.tok.value] + Lexed(s, l.ptr, l.st, l.count)
  }

  lemma IntStarts(n: int)
    ensures var w := IntText(n); w != "" && (IsDigit(w[0]) || w[0] == '-') && forall k :: 1 <= k < |w| ==> IsDigit(w[k])
  {
    if n < 0 { assert IntText(n)[1..] == Decimal(-n); }
  }

  // ---------------------------------------------------------------- pieces of text

  /** What may stand behind an integer: no digit, and within parentheses not the end. */
  predicate Ends(s: string, i: nat, count: int) {
    !IsDigit(At(s, i)) && (count != 0 ==> At(s, i) != '\0')
  }

  lemma {:induction false} LexDigits(s: string, i: nat, w: string, u: string, count: int)
    requires Has(s, i, w) && forall k :: 0 <= k < |w| ==> IsDigit(w[k])
    ensures i + |w| <= |s|
    ensures NextTok(s, i, WaitEndOperand, count, u) == NextTok(s, i + |w|, WaitEndOperand, count, u + w)
    decreases |w|
  {
    HasRoom(s, i, w);
    if w == "" {
      assert u + w == u;
    } else {
      HasChar(s, i, w);
      LexDigits(s, i + 1, w[1..], u + [w[0]], count);
      assert u + [w[0]] + w[1..] == u + w;
    }
  }

  /** One character that is a token by itself. */
  lemma LexChar(s: string, i: nat, st: LexState, count: int)
    requires i < |s| && st != WaitEndOperand
    ensures st == WaitOperand && s[i] == '!' ==> Lexed(s, i, st, count) == [TOpr(Bang)] + Lexed(s, i + 1, WaitOperand, count)
    ensures st == WaitOperand && s[i] == '(' ==> Lexed(s, i, st, count) == [TOpen] + Lexed(s, i + 1, WaitOperand, count + 1)
    ensures st == WaitOperator && s[i] == '&' ==> Lexed(s, i, st, count) == [TOpr(Oper(And))] + Lexed(s, i + 1, WaitOperand, count)
    ensures st == WaitOperator && s[i] == '|' ==> Lexed(s, i, st, count) == [TOpr(Oper(Or))] + Lexed(s, i + 1, WaitOperand, count)
    ensures st == WaitOperator && s[i] == ')' && count > 0 ==> Lexed(s, i, st, count) == [TClose] + Lexed(s, i + 1, WaitOperator, count - 1)
    ensures s[i] == ' ' ==> Lexed(s, i, st, count) == Lexed(s, i + 1, st, count)
  {
  }
}
